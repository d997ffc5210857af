/** What the bundle store does to the tree, one function per operation. */
module BundleTree {
  import opened Strings
  import opened Tree
  import opened Wrappers

  const META := "meta.json"
  const META_TMP := ".meta.json.tmp"

  predicate Child(d: Path, p: Path) {
    p != [] && Parent(p) == d
  }

  lemma ChildIsJustBelow(d: Path, p: Path)
    ensures Child(d, p) <==> |p| == |d| + 1 && Above(d, p)
    ensures Child(d, p) ==> p == d + [p[|d|]]
  {
  }

  predicate HasMeta(t: Tree, p: Path) {
    IsFile(t, p + [META])
  }

  ghost predicate HasDirectFile(t: Tree, d: Path) {
    exists p :: IsFile(t, p) && Child(d, p)
  }

  ghost predicate HasDirectDir(t: Tree, d: Path) {
    exists p :: IsDir(t, p) && Child(d, p)
  }

  /** Committed, or holding files and no directory: the test for an ancestor that blocks. */
  ghost predicate LooksLikeBundle(t: Tree, d: Path) {
    IsDir(t, d) && (HasMeta(t, d) || (HasDirectFile(t, d) && !HasDirectDir(t, d)))
  }

  lemma MetaIsDirectFile(t: Tree, d: Path)
    requires HasMeta(t, d)
    ensures HasDirectFile(t, d)
  {
    assert Child(d, d + [META]);
  }

  /** `inbox/{recipient}` is a namespace root, and so is every other top directory. */
  function NamespaceDepth(p: Path): nat
    requires p != []
  {
    if p[0] == "inbox" then 2 else 1
  }

  predicate BelowNamespaceRoot(p: Path) {
    p != [] && |p| > NamespaceDepth(p)
  }

  // ---- open ----------------------------------------------------------------

  /** No ancestor strictly below the namespace root looks like a bundle. */
  ghost predicate NoBundleAbove(t: Tree, p: Path)
    requires p != []
  {
    forall a :: Above(a, p) && |a| > NamespaceDepth(p) ==> !LooksLikeBundle(t, a)
  }

  ghost predicate CanOpen(t: Tree, p: Path) {
    p != [] && NoBundleAbove(t, p) && p !in t && CanMkdirs(t, Parent(p))
  }

  function OpenTree(t: Tree, p: Path, now: int): Tree {
    Mkdirs(t, p, now)
  }

  lemma CanOpenIsMkdirs(t: Tree, p: Path)
    requires CanOpen(t, p)
    ensures CanMkdirs(t, p)
  {
    forall q | Within(q, p) && q in t
      ensures t[q].Dir?
    {
      if q != p {
        assert p == Parent(p) + [p[|p| - 1]];
        AboveChild(q, Parent(p), p[|p| - 1]);
      }
    }
  }

  // ---- Names below a bundle directory ----------------------------------------

  /** The parts do not lead above the data root. */
  predicate InRoot(dir: Path, parts: Path) {
    WayOf(parts).up <= |dir|
  }

  /** Where the parts lead from a directory, as the operating system follows them. */
  function Position(dir: Path, parts: Path): Path {
    var way := WayOf(parts);
    (if way.up <= |dir| then dir[..|dir| - way.up] else []) + way.down
  }

  /** The directories that following all parts but the last goes through. */
  ghost predicate Passes(dir: Path, parts: Path, q: Path) {
    exists k: nat :: k < |parts| && q == Position(dir, parts[..k])
  }

  lemma PositionStep(dir: Path, parts: Path)
    requires parts != [] && InRoot(dir, parts)
    ensures InRoot(dir, parts[..|parts| - 1])
    ensures
      var before := Position(dir, parts[..|parts| - 1]);
      if parts[|parts| - 1] == ".." then before != [] && Position(dir, parts) == Parent(before)
      else Position(dir, parts) == before + [parts[|parts| - 1]]
  {
    ClimbsOnly(parts, |parts| - 1);
  }

  /** A walk that never climbs stays at or below its start. */
  lemma InsidePosition(dir: Path, parts: Path)
    requires WayOf(parts).up == 0
    ensures InRoot(dir, parts) && Position(dir, parts) == dir + WayOf(parts).down && Within(dir, Position(dir, parts))
  {
    assert dir[..|dir|] == dir;
    var p := Position(dir, parts);
    assert p[..|dir|] == dir;
  }

  /**
    One that climbs ends at or below its start exactly if it goes down again through the
    very segments it climbed.
   */
  lemma EndsInsideIff(dir: Path, parts: Path)
    requires InRoot(dir, parts)
    ensures Within(dir, Position(dir, parts)) <==> dir[|dir| - WayOf(parts).up..] <= WayOf(parts).down
  {
    var way := WayOf(parts);
    var n := |dir| - way.up;
    var p := Position(dir, parts);
    assert dir == dir[..n] + dir[n..];
    if dir[n..] <= way.down {
      assert p[..|dir|] == dir[..n] + way.down[..way.up] == dir;
    }
    if Within(dir, p) {
      assert p[..|dir|] == dir && p[n..] == way.down;
      assert way.down[..way.up] == p[n..|dir|] == dir[n..];
    }
  }

  /** So the text alone decides, unless it spells the directory's own name. */
  lemma StaysInsideIff(dir: Path, name: string)
    requires dir != [] && dir[|dir| - 1] !in Segments(name)
    ensures
      (!("/" <= name) && InRoot(dir, Segments(name)) && Within(dir, Position(dir, Segments(name)))) <==>
        StaysInside(name)
  {
    var parts := Segments(name);
    if StaysInside(name) {
      InsidePosition(dir, parts);
    } else if InRoot(dir, parts) {
      EndsInsideIff(dir, parts);
      DownIsFromParts(parts);
      SpelledOut(dir, WayOf(parts).down, WayOf(parts).up);
    }
  }

  lemma SpelledOut(dir: Path, down: Path, up: nat)
    requires 0 < up <= |dir| || up == 0
    ensures 0 < up && dir[|dir| - up..] <= down ==> dir[|dir| - 1] in down
  {
    if 0 < up && dir[|dir| - up..] <= down {
      assert down[up - 1] == dir[|dir| - up..][up - 1] == dir[|dir| - 1];
    }
  }

  /** Then every directory on the way is at or below the start as well. */
  lemma InsidePasses(dir: Path, parts: Path, q: Path)
    requires WayOf(parts).up == 0 && Passes(dir, parts, q)
    ensures Within(dir, q)
  {
    var k: nat :| k < |parts| && q == Position(dir, parts[..k]);
    ClimbsOnly(parts, k);
    InsidePosition(dir, parts[..k]);
  }

  // ---- write_file ------------------------------------------------------------

  /** No file stands where a directory is needed. */
  ghost predicate CanVisit(t: Tree, dir: Path, parts: Path) {
    CanMkdirs(t, dir) && InRoot(dir, parts) && forall k: nat :: k <= |parts| ==> !IsFile(t, Position(dir, parts[..k]))
  }

  /** mkdir(parents=True) along the parts: what is missing is created in order. */
  function VisitTree(t: Tree, dir: Path, parts: Path, now: int): Tree {
    if parts == [] then Mkdirs(t, dir, now)
    else Mkdirs(VisitTree(t, dir, parts[..|parts| - 1], now), Position(dir, parts), now)
  }

  ghost predicate Visited(dir: Path, parts: Path, q: Path) {
    Within(q, dir) || exists k: nat :: k <= |parts| && q == Position(dir, parts[..k])
  }

  lemma VisitedStep(dir: Path, parts: Path, q: Path)
    requires parts != []
    ensures Visited(dir, parts, q) <==> Visited(dir, parts[..|parts| - 1], q) || q == Position(dir, parts)
  {
    var n := |parts| - 1;
    assert parts[..|parts|] == parts;
    if k: nat :| k <= |parts| && q == Position(dir, parts[..k]) {
      if k <= n { assert parts[..n][..k] == parts[..k]; }
    }
    if k: nat :| k <= n && q == Position(dir, parts[..n][..k]) {
      assert parts[..n][..k] == parts[..k];
    }
  }

  lemma CanVisitFront(t: Tree, dir: Path, parts: Path)
    requires parts != [] && CanVisit(t, dir, parts)
    ensures CanVisit(t, dir, parts[..|parts| - 1]) && !IsFile(t, Position(dir, parts))
  {
    var n := |parts| - 1;
    ClimbsOnly(parts, n);
    assert parts[..|parts|] == parts;
    forall k: nat | k <= n
      ensures !IsFile(t, Position(dir, parts[..n][..k]))
    {
      assert parts[..n][..k] == parts[..k];
    }
  }

  /** The next directory is there, or is made in one that is. */
  lemma NextDirectory(r: Tree, before: Path, p: Path, now: int)
    requires WellFormed(r) && IsDir(r, before) && !IsFile(r, p)
    requires (before != [] && p == Parent(before)) || (p != [] && Parent(p) == before)
    ensures CanMkdirs(r, p) && WellFormed(Mkdirs(r, p, now))
    ensures KeepsFiles(r, Mkdirs(r, p, now)) && GainsDir(r, Mkdirs(r, p, now), p)
  {
    forall q | Above(q, p)
      ensures IsDir(r, q)
    {
      if before != [] && p == Parent(before) {
        assert Above(p, before);
        AboveTransitive(q, p, before);
      } else {
        assert p == before + [p[|p| - 1]];
        AboveChild(q, before, p[|p| - 1]);
      }
    }
    if before != [] && p == Parent(before) { assert Above(p, before); }
    MkdirsFrame(r, p, now);
  }

  ghost predicate KeepsFiles(t: Tree, r: Tree) {
    forall q :: (IsFile(r, q) <==> IsFile(t, q)) && (IsFile(t, q) ==> q in r && r[q] == t[q])
  }

  ghost predicate GainsDir(t: Tree, r: Tree, p: Path) {
    forall q :: IsDir(r, q) <==> IsDir(t, q) || q == p
  }

  ghost predicate GainsDirs(t: Tree, r: Tree, dir: Path, parts: Path) {
    forall q :: IsDir(r, q) <==> IsDir(t, q) || Visited(dir, parts, q)
  }

  lemma {:induction false} VisitFrame(t: Tree, dir: Path, parts: Path, now: int)
    requires WellFormed(t) && CanVisit(t, dir, parts)
    ensures WellFormed(VisitTree(t, dir, parts, now))
    ensures KeepsFiles(t, VisitTree(t, dir, parts, now))
    ensures GainsDirs(t, VisitTree(t, dir, parts, now), dir, parts)
  {
    if parts == [] {
      VisitNothing(t, dir, now);
    } else {
      CanVisitFront(t, dir, parts);
      VisitFrame(t, dir, parts[..|parts| - 1], now);
      VisitOneMore(t, VisitTree(t, dir, parts[..|parts| - 1], now), dir, parts, now);
    }
  }

  lemma VisitNothing(t: Tree, dir: Path, now: int)
    requires WellFormed(t) && CanMkdirs(t, dir)
    ensures WellFormed(Mkdirs(t, dir, now)) && KeepsFiles(t, Mkdirs(t, dir, now))
    ensures GainsDirs(t, Mkdirs(t, dir, now), dir, [])
  {
    MkdirsFrame(t, dir, now);
    var none: Path := [];
    assert none[..0] == none && Position(dir, none) == dir;
    forall q
      ensures Visited(dir, none, q) <==> Within(q, dir)
    {
      if k: nat :| k <= 0 && q == Position(dir, none[..k]) {}
    }
  }

  lemma VisitOneMore(t: Tree, m: Tree, dir: Path, parts: Path, now: int)
    requires parts != [] && CanVisit(t, dir, parts)
    requires WellFormed(m) && KeepsFiles(t, m) && GainsDirs(t, m, dir, parts[..|parts| - 1])
    ensures WellFormed(Mkdirs(m, Position(dir, parts), now)) && KeepsFiles(t, Mkdirs(m, Position(dir, parts), now))
    ensures GainsDirs(t, Mkdirs(m, Position(dir, parts), now), dir, parts)
  {
    var before, p := Position(dir, parts[..|parts| - 1]), Position(dir, parts);
    CanVisitFront(t, dir, parts);
    PositionStep(dir, parts);
    LastIsVisited(t, m, dir, parts[..|parts| - 1]);
    NextDirectory(m, before, p, now);
    OneMoreDirectory(t, m, Mkdirs(m, p, now), dir, parts);
  }

  lemma LastIsVisited(t: Tree, m: Tree, dir: Path, front: Path)
    requires GainsDirs(t, m, dir, front)
    ensures Visited(dir, front, Position(dir, front)) && IsDir(m, Position(dir, front))
  {
    assert front[..|front|] == front;
  }

  lemma OneMoreDirectory(t: Tree, m: Tree, r: Tree, dir: Path, parts: Path)
    requires parts != [] && KeepsFiles(t, m) && KeepsFiles(m, r) && GainsDirs(t, m, dir, parts[..|parts| - 1])
    requires GainsDir(m, r, Position(dir, parts))
    ensures KeepsFiles(t, r) && GainsDirs(t, r, dir, parts)
  {
    VisitedStepAll(dir, parts);
  }

  lemma VisitedStepAll(dir: Path, parts: Path)
    requires parts != []
    ensures forall q ::
      Visited(dir, parts, q) <==> Visited(dir, parts[..|parts| - 1], q) || q == Position(dir, parts)
  {
    forall q
      ensures Visited(dir, parts, q) <==> Visited(dir, parts[..|parts| - 1], q) || q == Position(dir, parts)
    {
      VisitedStep(dir, parts, q);
    }
  }

  /** A name can be written if no file is on its way and no directory where it ends. */
  ghost predicate CanWriteAt(t: Tree, dir: Path, parts: Path) {
    && parts != [] && parts[|parts| - 1] != ".." && InRoot(dir, parts)
    && CanVisit(t, dir, parts[..|parts| - 1])
    && !IsDir(t, Position(dir, parts)) && !Visited(dir, parts[..|parts| - 1], Position(dir, parts))
  }

  function WriteAt(t: Tree, dir: Path, parts: Path, blob: Blob, now: int): Tree
    requires parts != [] && Position(dir, parts) != []
  {
    PutFile(VisitTree(t, dir, parts[..|parts| - 1], now), Position(dir, parts), blob, now)
  }

  lemma WriteTarget(t: Tree, dir: Path, parts: Path)
    requires CanWriteAt(t, dir, parts)
    ensures Position(dir, parts) != [] && Parent(Position(dir, parts)) == Position(dir, parts[..|parts| - 1])
    ensures Visited(dir, parts[..|parts| - 1], Parent(Position(dir, parts)))
  {
    var n := |parts| - 1;
    PositionStep(dir, parts);
    assert parts[..n][..n] == parts[..n];
  }

  // Without ".." in the name, the way is just the ancestors of the target.

  lemma PlainPosition(dir: Path, parts: Path, k: nat)
    requires ".." !in parts && k <= |parts|
    ensures InRoot(dir, parts[..k]) && Position(dir, parts[..k]) == dir + parts[..k]
  {
    PlainWay(parts[..k]);
    InsidePosition(dir, parts[..k]);
  }

  lemma PlainVisited(dir: Path, parts: Path, q: Path)
    requires ".." !in parts
    ensures Visited(dir, parts, q) <==> Within(q, dir + parts)
  {
    var p := dir + parts;
    assert p[..|dir|] == dir && Within(dir, p);
    forall k: nat | k <= |parts|
      ensures Position(dir, parts[..k]) == p[..|dir| + k] && Within(Position(dir, parts[..k]), p)
    {
      PlainPosition(dir, parts, k);
    }
    if Within(q, dir) {
      WithinTransitive(q, dir, p);
    } else if Within(q, p) {
      AncestorsCompare(q, dir, p);
      assert q == p[..|q|];
      assert q == Position(dir, parts[..|q| - |dir|]);
    }
  }

  lemma PlainCanWrite(t: Tree, dir: Path, parts: Path)
    requires ".." !in parts && parts != []
    ensures Position(dir, parts) == dir + parts && Parent(dir + parts) == dir + parts[..|parts| - 1]
    ensures CanMkdirs(t, dir + parts[..|parts| - 1]) && !IsDir(t, dir + parts) ==> CanWriteAt(t, dir, parts)
  {
    var front := parts[..|parts| - 1];
    assert parts[..|parts|] == parts && parts[|parts| - 1] in parts;
    PlainPosition(dir, parts, |parts|);
    PlainPosition(dir, front, |front|);
    assert front[..|front|] == front;
    forall q
      ensures Visited(dir, front, q) <==> Within(q, dir + front)
    {
      PlainVisited(dir, front, q);
    }
    assert !Within(dir + parts, dir + front);
    if CanMkdirs(t, dir + front) {
      forall q | Within(q, dir) && q in t
        ensures t[q].Dir?
      {
        assert Visited(dir, front, q);
      }
      forall k: nat | k <= |front|
        ensures !IsFile(t, Position(dir, front[..k]))
      {
        assert Visited(dir, front, Position(dir, front[..k]));
      }
    }
  }

  /** A write that is refused changes nothing. */
  ghost function TryWrite(t: Tree, dir: Path, parts: Path, blob: Blob, now: int): (r: Tree)
    ensures CanWriteAt(t, dir, parts) ==> Position(dir, parts) != [] && r == WriteAt(t, dir, parts, blob, now)
  {
    if CanWriteAt(t, dir, parts) then WriteTarget(t, dir, parts); WriteAt(t, dir, parts, blob, now) else t
  }

  /** A write adds exactly its file and the directories on its way. */
  lemma WriteFrame(t: Tree, dir: Path, parts: Path, blob: Blob, now: int)
    requires WellFormed(t) && CanWriteAt(t, dir, parts)
    ensures Position(dir, parts) != [] && WellFormed(WriteAt(t, dir, parts, blob, now))
    ensures GainsFile(t, WriteAt(t, dir, parts, blob, now), Position(dir, parts), blob)
    ensures GainsDirs(t, WriteAt(t, dir, parts, blob, now), dir, parts[..|parts| - 1])
  {
    VisitFrame(t, dir, parts[..|parts| - 1], now);
    WriteTarget(t, dir, parts);
    FileAfterVisit(
      t, VisitTree(t, dir, parts[..|parts| - 1], now), dir, parts[..|parts| - 1], Position(dir, parts), blob, now);
  }

  ghost predicate GainsFile(t: Tree, r: Tree, p: Path, blob: Blob) {
    && (forall q :: IsFile(r, q) <==> IsFile(t, q) || q == p)
    && (forall q :: IsFile(t, q) && q != p ==> q in r && r[q] == t[q])
    && p in r && r[p] == File(blob)
  }

  lemma FileAfterVisit(t: Tree, m: Tree, dir: Path, front: Path, p: Path, blob: Blob, now: int)
    requires WellFormed(m) && KeepsFiles(t, m) && GainsDirs(t, m, dir, front)
    requires p != [] && Visited(dir, front, Parent(p)) && !IsDir(t, p) && !Visited(dir, front, p)
    ensures WellFormed(PutFile(m, p, blob, now)) && GainsFile(t, PutFile(m, p, blob, now), p, blob)
    ensures GainsDirs(t, PutFile(m, p, blob, now), dir, front)
  {
    PutFileFrame(m, p, blob, now);
  }

  // ---- commit --------------------------------------------------------------

  ghost predicate CanCommit(t: Tree, dir: Path) {
    IsDir(t, dir) && !IsDir(t, dir + [META_TMP]) && !IsDir(t, dir + [META])
  }

  /** Write the manifest beside the files, then rename it into place. */
  function CommitTree(t: Tree, dir: Path, meta: Meta, now: int): Tree {
    Rename(PutFile(t, dir + [META_TMP], Json(meta), now), dir + [META_TMP], dir + [META], now)
  }

  lemma CommitFrame(t: Tree, dir: Path, meta: Meta, now: int)
    requires WellFormed(t) && CanCommit(t, dir)
    ensures WellFormed(CommitTree(t, dir, meta, now))
    ensures forall q :: IsFile(CommitTree(t, dir, meta, now), q) <==>
      (IsFile(t, q) && q != dir + [META_TMP]) || q == dir + [META]
    ensures forall q :: IsFile(t, q) && q != dir + [META_TMP] && q != dir + [META] ==>
      CommitTree(t, dir, meta, now)[q] == t[q]
    ensures CommitTree(t, dir, meta, now)[dir + [META]] == File(Json(meta))
    ensures forall q :: IsDir(CommitTree(t, dir, meta, now), q) <==> IsDir(t, q)
    ensures forall q :: q in t && q != dir && q != dir + [META_TMP] && q != dir + [META] ==>
      CommitTree(t, dir, meta, now)[q] == t[q]
  {
    var tmp, final := dir + [META_TMP], dir + [META];
    assert tmp[|dir|] != final[|dir|];
    assert Parent(tmp) == dir == Parent(final);
    PutFileFrame(t, tmp, Json(meta), now);
    RenameFrame(PutFile(t, tmp, Json(meta), now), tmp, final, now);
  }

  // ---- read ----------------------------------------------------------------

  /** None stands for FileNotFoundError, which unreadable manifests raise as well. */
  function ReadMeta(t: Tree, p: Path): Option<Meta> {
    if HasMeta(t, p) && t[p + [META]].blob.Json? then Some(t[p + [META]].blob.meta) else None
  }

  /** Every directory on the way is there. */
  predicate CanFollow(t: Tree, p: Path, parts: Path) {
    InRoot(p, parts) && forall k :: 0 <= k < |parts| ==> IsDir(t, Position(p, parts[..k]))
  }

  function ReadFile(t: Tree, p: Path, parts: Path): Option<Blob> {
    if HasMeta(t, p) && CanFollow(t, p, parts) && IsFile(t, Position(p, parts))
    then Some(t[Position(p, parts)].blob) else None
  }

  // ---- listing -------------------------------------------------------------

  /** The walk reaches `p` from `base`: nothing in between directly holds a file. */
  ghost predicate Reached(t: Tree, base: Path, p: Path) {
    IsDir(t, p) && Above(base, p) && forall q :: Above(base, q) && Above(q, p) ==> !HasDirectFile(t, q)
  }

  /** The walk reports `p`, as a bundle or as an orphan. */
  ghost predicate Listed(t: Tree, base: Path, p: Path) {
    Reached(t, base, p) && HasDirectFile(t, p)
  }

  ghost predicate ListedOrphan(t: Tree, base: Path, p: Path) {
    Listed(t, base, p) && !HasMeta(t, p)
  }

  /** The simple definition of a listing: every directory below `base` with a manifest in it. */
  predicate BundleBelow(t: Tree, base: Path, p: Path) {
    Above(base, p) && HasMeta(t, p)
  }

  /** A directory between `base` and a bundle that directly holds a file hides the bundle. */
  ghost predicate NothingHidden(t: Tree, base: Path) {
    forall q, p :: Above(base, q) && Above(q, p) && HasMeta(t, p) ==> !HasDirectFile(t, q)
  }

  /** Exactly then the pruned walk finds the bundles of the simple definition. */
  lemma WalkFindsAllIffNothingHidden(t: Tree, base: Path)
    requires WellFormed(t)
    ensures (forall p :: Listed(t, base, p) && HasMeta(t, p) <==> BundleBelow(t, base, p)) <==> NothingHidden(t, base)
  {
    forall p | BundleBelow(t, base, p)
      ensures IsDir(t, p) && HasDirectFile(t, p)
    {
      AboveChild(p, p, META);
      MetaIsDirectFile(t, p);
    }
    if forall p :: Listed(t, base, p) && HasMeta(t, p) <==> BundleBelow(t, base, p) {
      forall q, p | Above(base, q) && Above(q, p) && HasMeta(t, p)
        ensures !HasDirectFile(t, q)
      {
        AboveTransitive(base, q, p);
        assert BundleBelow(t, base, p);
      }
    }
  }

  // ---- the orphan reaper ---------------------------------------------------

  /** What one namespace of a sweep deletes: listed orphans whose mtime is old enough. */
  ghost predicate AgedOrphan(t: Tree, base: Path, p: Path, now: int, minAge: int) {
    ListedOrphan(t, base, p) && now - t[p].mtime >= minAge
  }

  ghost predicate Swept(t: Tree, base: Path, q: Path, now: int, minAge: int) {
    exists o :: AgedOrphan(t, base, o, now, minAge) && Within(o, q)
  }

  ghost predicate LosesChild(t: Tree, base: Path, q: Path, now: int, minAge: int) {
    exists o :: AgedOrphan(t, base, o, now, minAge) && Child(q, o)
  }

  ghost function SweepNamespace(t: Tree, base: Path, now: int, minAge: int): Tree {
    map q | q in t && !Swept(t, base, q, now, minAge) ::
      if LosesChild(t, base, q, now, minAge) then Dir(now) else t[q]
  }

  const INBOX: Path := ["inbox"]
  const STORE: Path := ["store"]

  ghost function SweepTree(t: Tree, now: int, minAge: int): Tree {
    SweepNamespace(SweepNamespace(t, INBOX, now, minAge), STORE, now, minAge)
  }

  lemma SweepNamespaceFrame(t: Tree, base: Path, now: int, minAge: int)
    requires WellFormed(t)
    ensures WellFormed(SweepNamespace(t, base, now, minAge))
    ensures forall q :: IsFile(SweepNamespace(t, base, now, minAge), q) <==>
      IsFile(t, q) && !Swept(t, base, q, now, minAge)
    ensures forall q :: IsFile(SweepNamespace(t, base, now, minAge), q) ==>
      SweepNamespace(t, base, now, minAge)[q] == t[q]
    ensures forall q :: IsDir(SweepNamespace(t, base, now, minAge), q) <==>
      IsDir(t, q) && !Swept(t, base, q, now, minAge)
    ensures forall q :: IsDir(SweepNamespace(t, base, now, minAge), q) ==>
      SweepNamespace(t, base, now, minAge)[q] == t[q] || SweepNamespace(t, base, now, minAge)[q] == Dir(now)
  {
    var r := SweepNamespace(t, base, now, minAge);
    forall q | q in t && LosesChild(t, base, q, now, minAge)
      ensures IsDir(t, q)
    {
      var o :| AgedOrphan(t, base, o, now, minAge) && Child(q, o);
      ChildIsJustBelow(q, o);
    }
    assert [] in r by {
      assert forall o :: Within(o, []) ==> !Above(base, o);
    }
    forall q, a | q in r && Above(a, q)
      ensures IsDir(r, a)
    {
      if Swept(t, base, a, now, minAge) {
        var o :| AgedOrphan(t, base, o, now, minAge) && Within(o, a);
        WithinTransitive(o, a, q);
      }
    }
  }
}
