/** Runs with flat file names: the reaper and the pruned walk never harm a bundle. */
module ReaperRuns {
  import opened Strings
  import opened Tree
  import opened BundleTree
  import opened BundleRuns
  import opened Wrappers

  /** File names of one part, no opens beneath a writer, and no writer older than the reaper's minimum age. */
  predicate FlatStep(s: State, step: Step) {
    match step
    case MakeParents(p, _) => Orderly(s, Open(p))
    case WriteParents(_, name, _) => |name| == 1
    case Write(_, name, _) => |name| == 1
    case Sweep(minAge) => forall w <- s.live.Keys :: s.now - s.live[w] < minAge
    case _ => Orderly(s, step)
  }

  ghost predicate FlatRun(s: State, steps: seq<Step>)
    decreases |steps|
  {
    steps == [] || (FlatStep(s, steps[0]) && FlatRun(Next(s, steps[0]), steps[1..]))
  }

  /** No directory directly holds both a file and a directory. */
  ghost predicate Unmixed(t: Tree) {
    forall f, d :: IsFile(t, f) && IsDir(t, d) && f != [] && d != [] ==> Parent(f) != Parent(d)
  }

  ghost predicate FilesBelowNamespace(t: Tree) {
    forall f :: IsFile(t, f) ==> f != [] && BelowNamespaceRoot(Parent(f))
  }

  /** A live writer's directory holds no directory and is as young as the writer. */
  ghost predicate WritersFresh(t: Tree, live: map<Path, int>) {
    forall w <- live.Keys ::
      && IsDir(t, w) && t[w].mtime >= live[w]
      && (forall d :: IsDir(t, d) && d != [] ==> Parent(d) != w)
  }

  ghost predicate FlatInv(s: State) {
    Inv(s) && Unmixed(s.tree) && FilesBelowNamespace(s.tree) && WritersFresh(s.tree, s.live)
  }

  /** A directory that directly holds a file has no directory anywhere beneath it. */
  lemma NothingBeneathFiles(t: Tree, d: Path, q: Path)
    requires WellFormed(t) && Unmixed(t) && HasDirectFile(t, d) && Above(d, q) && q in t
    ensures IsFile(t, q) && Parent(q) == d
  {
    var f :| IsFile(t, f) && Child(d, f);
    var c := ChildToward(d, q);
    assert Parent(c) == d;
    assert c == q || IsDir(t, c);
  }

  /** Hence the walk hides no bundle, whatever its starting point. */
  lemma FlatTreesHideNothing(t: Tree, base: Path)
    requires WellFormed(t) && Unmixed(t)
    ensures NothingHidden(t, base)
  {
    forall q, p | Above(base, q) && Above(q, p) && HasMeta(t, p)
      ensures !HasDirectFile(t, q)
    {
      AboveChild(p, p, META);
      if HasDirectFile(t, q) { NothingBeneathFiles(t, q, p); }
    }
  }

  // ---- One step at a time --------------------------------------------------

  /** New directories on the way to an openable path have no file beside them and no writer above. */
  lemma NewDirectoryIsAlone(s: State, p: Path, d: Path)
    requires FlatInv(s) && CanOpen(s.tree, p) && BelowNamespaceRoot(p)
    requires forall w <- s.live.Keys :: !Above(w, p)
    requires Within(d, p) && d != []
    ensures !HasDirectFile(s.tree, Parent(d)) && Parent(d) !in s.live
  {
    assert Above(Parent(d), d);
    AboveTransitive(Parent(d), d, p);
    if HasDirectFile(s.tree, Parent(d)) { FilesBlockOpen(s.tree, Parent(d), p); }
  }

  lemma MkdirsKeepsFlat(s: State, p: Path, upTo: nat)
    requires FlatInv(s) && CanOpen(s.tree, p) && BelowNamespaceRoot(p) && upTo <= |p|
    requires forall w <- s.live.Keys :: !Above(w, p)
    ensures WellFormed(Mkdirs(s.tree, p[..upTo], s.now))
    ensures Unmixed(Mkdirs(s.tree, p[..upTo], s.now))
    ensures FilesBelowNamespace(Mkdirs(s.tree, p[..upTo], s.now))
    ensures WritersFresh(Mkdirs(s.tree, p[..upTo], s.now), s.live)
  {
    var t, q := s.tree, p[..upTo];
    var r := Mkdirs(t, q, s.now);
    forall d | Within(d, q)
      ensures Within(d, p)
    {
      WithinTransitive(d, q, p);
    }
    CanOpenIsMkdirs(t, p);
    MkdirsFrame(t, q, s.now);
    forall d | IsDir(r, d) && d !in t && d != []
      ensures !HasDirectFile(t, Parent(d)) && Parent(d) !in s.live
    {
      NewDirectoryIsAlone(s, p, d);
    }
    forall f, d | IsFile(r, f) && IsDir(r, d) && f != [] && d != []
      ensures Parent(f) != Parent(d)
    {
      assert IsFile(t, f) && Child(Parent(f), f);
    }
  }

  lemma FilesBlockOpen(t: Tree, d: Path, p: Path)
    requires WellFormed(t) && Unmixed(t) && FilesBelowNamespace(t)
    requires HasDirectFile(t, d) && Above(d, p) && p != []
    ensures !CanOpen(t, p)
  {
    var f :| IsFile(t, f) && Child(d, f);
    ChildIsJustBelow(d, f);
    assert d[0] == p[0];
    assert LooksLikeBundle(t, d);
  }

  lemma OpenKeepsFlat(s: State, p: Path)
    requires FlatInv(s) && FlatStep(s, Open(p)) && CanOpen(s.tree, p)
    ensures FlatInv(Next(s, Open(p)))
  {
    NextKeepsInv(s, Open(p));
    assert p[..|p|] == p;
    MkdirsKeepsFlat(s, p, |p|);
    var r := Next(s, Open(p));
    CanOpenIsMkdirs(s.tree, p);
    MkdirsFrame(s.tree, p, s.now);
    forall d | IsDir(r.tree, d) && d != []
      ensures Parent(d) != p
    {
      if Parent(d) == p { ChildIsJustBelow(p, d); }
    }
  }

  /** Adding, replacing or renaming a file directly in a writer's directory. */
  lemma FileInWriterKeepsFlat(s: State, w: Path, r: Tree)
    requires FlatInv(s) && w in s.live && WellFormed(r)
    requires forall q :: IsDir(r, q) <==> IsDir(s.tree, q)
    requires forall q :: IsFile(r, q) ==> IsFile(s.tree, q) || Child(w, q)
    requires forall q :: IsDir(s.tree, q) && q in r ==> r[q] == s.tree[q] || r[q] == Dir(s.now)
    ensures Unmixed(r) && FilesBelowNamespace(r) && WritersFresh(r, s.live)
  {
  }

  /** A name of one part is a file directly in the bundle directory. */
  lemma OnePart(t: Tree, w: Path, name: Path, blob: Blob, now: int)
    requires WellFormed(t) && IsDir(t, w) && |name| == 1 && CanWriteAt(t, w, name)
    ensures Harmless(name) && Position(w, name) == w + name && Parent(w + name) == w
    ensures !IsDir(t, w + name) && WriteAt(t, w, name, blob, now) == PutFile(t, w + name, blob, now)
  {
    assert name == [name[0]] && ".." !in name;
    PlainWay(name);
    InsidePosition(w, name);
    assert name[..0] == [] && VisitTree(t, w, [], now) == Mkdirs(t, w, now);
    assert Within(w, w);
  }

  lemma WriteKeepsFlat(s: State, w: Path, name: Path, blob: Blob)
    requires FlatInv(s) && |name| == 1 && w in s.live && CanWriteAt(s.tree, w, name)
    ensures FlatInv(Next(s, Write(w, name, blob)))
  {
    OnePart(s.tree, w, name, blob, s.now);
    NextWrite(s, w, name, blob);
    NextKeepsInv(s, Write(w, name, blob));
    PutFileFrame(s.tree, w + name, blob, s.now);
    FileInWriterKeepsFlat(s, w, PutFile(s.tree, w + name, blob, s.now));
  }

  lemma WriteTmpKeepsFlat(s: State, w: Path, blob: Blob)
    requires FlatInv(s) && w in s.live && !IsDir(s.tree, w + [META_TMP])
    ensures FlatInv(Next(s, WriteTmp(w, blob)))
  {
    NextKeepsInv(s, WriteTmp(w, blob));
    assert Parent(w + [META_TMP]) == w;
    PutFileFrame(s.tree, w + [META_TMP], blob, s.now);
    FileInWriterKeepsFlat(s, w, Next(s, WriteTmp(w, blob)).tree);
  }

  lemma CommitKeepsFlat(s: State, w: Path, meta: Meta)
    requires FlatInv(s) && w in s.live && CanCommit(s.tree, w)
    ensures FlatInv(Next(s, Commit(w, meta)))
  {
    NextKeepsInv(s, Commit(w, meta));
    CommitFrame(s.tree, w, meta, s.now);
    assert Child(w, w + [META]) && Child(w, w + [META_TMP]);
    FileInWriterKeepsFlat(s, w, CommitTree(s.tree, w, meta, s.now));
  }

  /** Removing subtrees that no remaining writer is in. */
  lemma FewerNodesKeepFlat(s: State, r: State)
    requires FlatInv(s) && Inv(r)
    requires forall q :: IsDir(r.tree, q) ==> IsDir(s.tree, q)
    requires forall q :: IsFile(r.tree, q) ==> IsFile(s.tree, q)
    requires forall q :: IsDir(r.tree, q) && q in s.tree ==> r.tree[q] == s.tree[q] || r.tree[q] == Dir(s.now)
    requires r.live.Keys <= s.live.Keys && forall w <- r.live.Keys :: r.live[w] == s.live[w]
    ensures FlatInv(r)
  {
  }

  lemma RemoveKeepsFlat(s: State, step: Step)
    requires FlatInv(s) && FlatStep(s, step) && (step.Abort? || step.Delete?)
    ensures FlatInv(Next(s, step))
  {
    NextKeepsInv(s, step);
    var p := if step.Abort? then step.writer else step.path;
    if p != [] && p in s.tree { RemoveFrame(s.tree, p, s.now); }
    FewerNodesKeepFlat(s, Next(s, step));
  }

  // ---- The sweep -----------------------------------------------------------

  /** What a sweep of one namespace deletes touches no bundle, committed or in flight. */
  lemma SweptIsNoBundle(s: State, base: Path, minAge: int, b: Path, q: Path)
    requires FlatInv(s) && FlatStep(s, Sweep(minAge)) && IsBundle(s, b) && Within(b, q)
    requires q in s.tree
    ensures !Swept(s.tree, base, q, s.now, minAge)
  {
    if Swept(s.tree, base, q, s.now, minAge) {
      var o :| AgedOrphan(s.tree, base, o, s.now, minAge) && Within(o, q);
      AncestorsCompare(b, o, q);
      if HasMeta(s.tree, b) { AboveChild(b, b, META); }
      if o != b {
        if Above(o, b) {
          NothingBeneathFiles(s.tree, o, b);
        } else {
          AboveTransitive(b, o, o);
          NothingBeneathWriterOrBundle(s, b, o);
        }
      }
    }
  }

  lemma NothingBeneathWriterOrBundle(s: State, b: Path, d: Path)
    requires FlatInv(s) && IsBundle(s, b) && Above(b, d)
    ensures !IsDir(s.tree, d)
  {
    if IsDir(s.tree, d) {
      var c := ChildToward(b, d);
      assert IsDir(s.tree, c) && Parent(c) == b;
      if HasMeta(s.tree, b) {
        MetaIsDirectFile(s.tree, b);
        NothingBeneathFiles(s.tree, b, c);
      }
    }
  }

  /** A bundle's directory loses no child either, so it keeps its very mtime. */
  lemma BundleLosesNoChild(s: State, base: Path, minAge: int, b: Path, q: Path)
    requires FlatInv(s) && IsBundle(s, b) && Within(b, q)
    ensures !LosesChild(s.tree, base, q, s.now, minAge)
  {
    if LosesChild(s.tree, base, q, s.now, minAge) {
      var o :| AgedOrphan(s.tree, base, o, s.now, minAge) && Child(q, o);
      ChildIsJustBelow(q, o);
      if b != q { AboveTransitive(b, q, o); }
      NothingBeneathWriterOrBundle(s, b, o);
    }
  }

  lemma SweepNamespaceKeepsFlat(s: State, base: Path, minAge: int)
    requires FlatInv(s) && FlatStep(s, Sweep(minAge))
    ensures FlatInv(s.(tree := SweepNamespace(s.tree, base, s.now, minAge)))
    ensures forall b, q :: IsBundle(s, b) && Within(b, q) && q in s.tree ==>
      && q in SweepNamespace(s.tree, base, s.now, minAge)
      && SweepNamespace(s.tree, base, s.now, minAge)[q] == s.tree[q]
  {
    var r := s.(tree := SweepNamespace(s.tree, base, s.now, minAge));
    SweepNamespaceFrame(s.tree, base, s.now, minAge);
    forall b, q | IsBundle(s, b) && Within(b, q) && q in s.tree
      ensures q in r.tree && r.tree[q] == s.tree[q]
    {
      SweptIsNoBundle(s, base, minAge, b, q);
      BundleLosesNoChild(s, base, minAge, b, q);
    }
    forall w <- s.live.Keys
      ensures IsDir(r.tree, w)
    {
      assert IsBundle(s, w) && Within(w, w);
    }
    SameManifests(s, r.tree);
    FewerNodesKeepFlat(s, r);
  }

  lemma SweepKeepsFlat(s: State, minAge: int)
    requires FlatInv(s) && FlatStep(s, Sweep(minAge))
    ensures FlatInv(Next(s, Sweep(minAge)))
  {
    SweepNamespaceKeepsFlat(s, INBOX, minAge);
    SweepNamespaceKeepsFlat(s.(tree := SweepNamespace(s.tree, INBOX, s.now, minAge)), STORE, minAge);
  }

  lemma SweepKeepsBundle(s: State, minAge: int, b: Path, q: Path)
    requires FlatInv(s) && FlatStep(s, Sweep(minAge)) && IsBundle(s, b) && Within(b, q) && q in s.tree
    ensures q in SweepTree(s.tree, s.now, minAge) && SweepTree(s.tree, s.now, minAge)[q] == s.tree[q]
  {
    var m := s.(tree := SweepNamespace(s.tree, INBOX, s.now, minAge));
    SweepNamespaceKeepsFlat(s, INBOX, minAge);
    SweepNamespaceKeepsFlat(m, STORE, minAge);
    if HasMeta(s.tree, b) {
      AboveChild(b, b, META);
      assert Within(b, b + [META]);
    }
    assert IsBundle(m, b);
  }

  lemma NextKeepsFlat(s: State, step: Step)
    requires FlatInv(s) && FlatStep(s, step)
    ensures FlatInv(Next(s, step))
  {
    match step
    case Sweep(minAge) => SweepKeepsFlat(s, minAge);
    case Abort(_) => RemoveKeepsFlat(s, step);
    case Delete(_) => RemoveKeepsFlat(s, step);
    case Open(p) =>
      if CanOpen(s.tree, p) { OpenKeepsFlat(s, p); }
    case MakeParents(p, upTo) =>
      NextKeepsInv(s, step);
      if CanOpen(s.tree, p) && upTo < |p| { MkdirsKeepsFlat(s, p, upTo); }
    case Write(w, name, blob) =>
      if w in s.live && CanWriteAt(s.tree, w, name) { WriteKeepsFlat(s, w, name, blob); }
    case WriteParents(w, name, upTo) =>
      NextKeepsInv(s, step);
      if w in s.live && upTo == 0 { assert name[..0] == [] && VisitTree(s.tree, w, [], s.now) == s.tree; }
    case Stray(_) =>
    case WriteTmp(w, blob) =>
      if w in s.live && !IsDir(s.tree, w + [META_TMP]) { WriteTmpKeepsFlat(s, w, blob); }
    case Commit(w, meta) =>
      if w in s.live && CanCommit(s.tree, w) { CommitKeepsFlat(s, w, meta); }
    case Tick(_) => NextKeepsInv(s, step);
    case Lose(_) => NextKeepsInv(s, step);
    case Crash => NextKeepsInv(s, step);
  }

  lemma {:induction false} RunKeepsFlat(s: State, steps: seq<Step>)
    requires FlatInv(s) && FlatRun(s, steps)
    ensures FlatInv(Exec(s, steps))
    decreases |steps|
  {
    if steps != [] {
      NextKeepsFlat(s, steps[0]);
      RunKeepsFlat(Next(s, steps[0]), steps[1..]);
    }
  }

  lemma StartFlat(now: int)
    ensures FlatInv(Start(now))
  {
  }

  // ---- Main results --------------------------------------------------------

  /** All of `o` is gone if it was old enough, and all of it is as it was if not. */
  ghost predicate FateOf(t: Tree, r: Tree, o: Path, age: int, minAge: int) {
    if age >= minAge then forall q :: Within(o, q) ==> q !in r
    else forall q :: Within(o, q) && q in t ==> q in r && r[q] == t[q]
  }

  /** A sweep after any flat run: every bundle keeps every node, and an orphan's age decides about all of it. */
  lemma SweepIsSafe(now: int, steps: seq<Step>, minAge: int)
    requires FlatRun(Start(now), steps)
    requires FlatStep(Exec(Start(now), steps), Sweep(minAge))
    ensures var s := Exec(Start(now), steps); SafelySwept(s, SweepTree(s.tree, s.now, minAge), minAge)
  {
    StartFlat(now);
    RunKeepsFlat(Start(now), steps);
    FlatSweepIsSafe(Exec(Start(now), steps), minAge);
  }

  ghost predicate SafelySwept(s: State, t: Tree, minAge: int) {
    && (forall b, q :: IsBundle(s, b) && Within(b, q) && q in s.tree ==> q in t && t[q] == s.tree[q])
    && (forall o :: ListedOrphan(s.tree, ["inbox"], o) || ListedOrphan(s.tree, ["store"], o) ==>
          FateOf(s.tree, t, o, s.now - s.tree[o].mtime, minAge))
  }

  lemma FlatSweepIsSafe(s: State, minAge: int)
    requires FlatInv(s) && FlatStep(s, Sweep(minAge))
    ensures SafelySwept(s, SweepTree(s.tree, s.now, minAge), minAge)
  {
    forall b, q | IsBundle(s, b) && Within(b, q) && q in s.tree
      ensures q in SweepTree(s.tree, s.now, minAge) && SweepTree(s.tree, s.now, minAge)[q] == s.tree[q]
    {
      SweepKeepsBundle(s, minAge, b, q);
    }
    forall o | ListedOrphan(s.tree, INBOX, o) || ListedOrphan(s.tree, STORE, o)
      ensures FateOf(s.tree, SweepTree(s.tree, s.now, minAge), o, s.now - s.tree[o].mtime, minAge)
    {
      if ListedOrphan(s.tree, INBOX, o) {
        InboxOrphanFate(s, o, minAge);
      } else {
        StoreOrphanFate(s, o, minAge);
      }
    }
  }

  /** One pass decides about each orphan that it lists by its age alone. */
  lemma PassDecides(t: Tree, base: Path, o: Path, now: int, minAge: int)
    requires ListedOrphan(t, base, o)
    ensures FateOf(t, SweepNamespace(t, base, now, minAge), o, now - t[o].mtime, minAge)
  {
    forall other, q | AgedOrphan(t, base, other, now, minAge) && Within(o, q) && (Within(other, q) || Child(q, other))
      ensures other == o
    {
      ListedAreApart(t, base, o, other);
      ListedAreApart(t, base, other, o);
      ChildIsJustBelow(q, other);
      if Child(q, other) {
        assert Above(q, other);
        WithinTransitive(o, q, other);
      } else {
        AncestorsCompare(o, other, q);
      }
    }
    assert forall q :: Within(o, q) ==> !Child(q, o);
  }

  lemma ListedAreApart(t: Tree, base: Path, a: Path, b: Path)
    requires Listed(t, base, a) && Listed(t, base, b)
    ensures !Above(a, b)
  {
  }

  lemma InboxOrphanFate(s: State, o: Path, minAge: int)
    requires WellFormed(s.tree) && ListedOrphan(s.tree, INBOX, o)
    ensures FateOf(s.tree, SweepTree(s.tree, s.now, minAge), o, s.now - s.tree[o].mtime, minAge)
  {
    var m := SweepNamespace(s.tree, INBOX, s.now, minAge);
    PassDecides(s.tree, INBOX, o, s.now, minAge);
    forall q | Within(o, q) && q in m
      ensures q in SweepTree(s.tree, s.now, minAge) && SweepTree(s.tree, s.now, minAge)[q] == m[q]
    {
      AboveTransitive(INBOX, o, q);
      InboxUntouchedByStore(m, q, s.now, minAge);
    }
  }

  lemma StoreUntouchedByInbox(t: Tree, q: Path, now: int, minAge: int)
    requires Within(STORE, q) && q in t
    ensures q in SweepNamespace(t, INBOX, now, minAge) && SweepNamespace(t, INBOX, now, minAge)[q] == t[q]
  {
    assert q[0] == "store";
    forall o | Above(INBOX, o)
      ensures !Within(o, q) && !Child(q, o)
    {
      assert o[0] == "inbox";
      ChildIsJustBelow(q, o);
    }
  }

  lemma InboxUntouchedByStore(t: Tree, q: Path, now: int, minAge: int)
    requires Within(INBOX, q) && q in t
    ensures q in SweepNamespace(t, STORE, now, minAge) && SweepNamespace(t, STORE, now, minAge)[q] == t[q]
  {
    assert q[0] == "inbox";
    forall o | Above(STORE, o)
      ensures !Within(o, q) && !Child(q, o)
    {
      assert o[0] == "store";
      ChildIsJustBelow(q, o);
    }
  }

  /** Sweeping `inbox/` first does not change what `store/` lists. */
  lemma StoreOrphanStays(s: State, o: Path, minAge: int)
    requires FlatInv(s) && ListedOrphan(s.tree, STORE, o)
    ensures
      var m := SweepNamespace(s.tree, INBOX, s.now, minAge);
      ListedOrphan(m, STORE, o) && m[o] == s.tree[o]
  {
    var m := SweepNamespace(s.tree, INBOX, s.now, minAge);
    SweepNamespaceFrame(s.tree, INBOX, s.now, minAge);
    StoreUntouchedByInbox(s.tree, o, s.now, minAge);
    var f :| IsFile(s.tree, f) && Child(o, f);
    ChildIsJustBelow(o, f);
    AboveTransitive(STORE, o, f);
    StoreUntouchedByInbox(s.tree, f, s.now, minAge);
    assert HasDirectFile(m, o);
    forall q | Above(STORE, q) && Above(q, o)
      ensures !HasDirectFile(m, q)
    {
      assert !HasDirectFile(s.tree, q);
    }
  }

  lemma StoreOrphanFate(s: State, o: Path, minAge: int)
    requires FlatInv(s) && ListedOrphan(s.tree, STORE, o)
    ensures FateOf(s.tree, SweepTree(s.tree, s.now, minAge), o, s.now - s.tree[o].mtime, minAge)
  {
    var m := SweepNamespace(s.tree, INBOX, s.now, minAge);
    StoreOrphanStays(s, o, minAge);
    PassDecides(m, STORE, o, s.now, minAge);
    forall q | Within(o, q) && q in s.tree
      ensures q in m && m[q] == s.tree[q]
    {
      AboveTransitive(STORE, o, q);
      StoreUntouchedByInbox(s.tree, q, s.now, minAge);
    }
  }

  /** After any flat run a listing is exactly the directories below the prefix that hold a manifest. */
  lemma ListingIsTheSimpleOne(now: int, steps: seq<Step>, base: Path, p: Path)
    requires FlatRun(Start(now), steps)
    ensures var t := Exec(Start(now), steps).tree; Listed(t, base, p) && HasMeta(t, p) <==> BundleBelow(t, base, p)
  {
    var t := Exec(Start(now), steps).tree;
    StartFlat(now);
    RunKeepsFlat(Start(now), steps);
    FlatTreesHideNothing(t, base);
    WalkFindsAllIffNothingHidden(t, base);
  }
}
