/** Names that no manifest check has seen: where one leads that climbs out of its bundle. */
module StrayNames {
  import opened Strings
  import opened Tree
  import opened BundleTree
  import opened Storage
  import opened BundleContents
  import opened Wrappers

  predicate PlainPath(p: Path) {
    forall part <- p :: part != "" && part != "." && part != ".." && '/' !in part
  }

  function Climb(n: nat): (parts: Path)
    ensures |parts| == n && forall part <- parts :: part == ".."
  {
    seq(n, _ => "..")
  }

  /** Up from one path to the data root, and down to another. */
  function Detour(dir: Path, f: Path): Path {
    Climb(|dir|) + f
  }

  function NameFromTo(from: Path, to: Path): string {
    JoinSlash(Detour(from, to))
  }

  lemma {:induction false} WayUp(n: nat)
    ensures WayOf(Climb(n)) == Way(n, [])
  {
    if n > 0 {
      assert Climb(n)[..n - 1] == Climb(n - 1);
      WayUp(n - 1);
    }
  }

  lemma {:induction false} WayUpAndDown(n: nat, to: Path)
    requires PlainPath(to)
    ensures WayOf(Climb(n) + to) == Way(n, to)
  {
    if to == [] {
      WayUp(n);
      assert Climb(n) + to == Climb(n);
    } else {
      var front := to[..|to| - 1];
      var parts := Climb(n) + to;
      assert to == front + [to[|to| - 1]] && parts[..|parts| - 1] == Climb(n) + front;
      assert to[|to| - 1] in to && forall part <- front :: part in to;
      WayUpAndDown(n, front);
    }
  }

  /** Such a name leads from the one to the other, and does not stay inside. */
  lemma NameLeads(from: Path, to: Path)
    requires PlainPath(to) && from != []
    ensures Segments(NameFromTo(from, to)) == Detour(from, to)
    ensures Target(from, NameFromTo(from, to)) == to && !StaysInside(NameFromTo(from, to))
    ensures InTree(from, NameFromTo(from, to))
  {
    var parts := Detour(from, to);
    forall part <- parts
      ensures part != "" && part != "." && '/' !in part
    {
      assert part in Climb(|from|) || part in to;
    }
    SplitJoin(parts);
    DropDotsKeepsAll(parts);
    WayUpAndDown(|from|, to);
    assert from[..0] + to == to;
    if Absolute(NameFromTo(from, to)) { AbsoluteHasEmptyPart(NameFromTo(from, to)); }
  }

  /** All directories on the way from one directory to another one are there. */
  lemma OnTheWay(t: Tree, dir: Path, to: Path, k: nat)
    requires WellFormed(t) && IsDir(t, dir) && IsDir(t, to) && PlainPath(to) && k <= |dir| + |to|
    ensures IsDir(t, Position(dir, Detour(dir, to)[..k]))
  {
    var parts := Detour(dir, to);
    if k <= |dir| {
      assert parts[..k] == Climb(k);
      WayUp(k);
      var place := dir[..|dir| - k];
      assert place + [] == place && Within(place, dir);
    } else {
      var down := to[..k - |dir|];
      assert parts[..k] == Climb(|dir|) + down;
      assert forall part <- down :: part in to;
      WayUpAndDown(|dir|, down);
      assert dir[..0] + down == down && Within(down, to);
    }
  }

  lemma WayIsThere(t: Tree, dir: Path, to: Path)
    requires WellFormed(t) && IsDir(t, dir) && IsDir(t, to) && PlainPath(to)
    ensures CanVisit(t, dir, Detour(dir, to)) && forall q :: Visited(dir, Detour(dir, to), q) ==> IsDir(t, q)
  {
    var parts := Detour(dir, to);
    CanMkdirsHere(t, dir);
    WayUpAndDown(|dir|, to);
    forall k: nat | k <= |parts|
      ensures IsDir(t, Position(dir, parts[..k]))
    {
      OnTheWay(t, dir, to, k);
    }
  }

  lemma DetourLeads(dir: Path, to: Path, x: string)
    requires PlainPath(to + [x])
    ensures
      var parts := Detour(dir, to + [x]);
      && parts != [] && parts[|parts| - 1] == x && parts[..|parts| - 1] == Detour(dir, to) && x != ".."
      && InRoot(dir, parts) && Position(dir, parts) == to + [x] && PlainPath(to)
  {
    var f := to + [x];
    assert x in f && forall part <- to :: part in f;
    WayUpAndDown(|dir|, f);
    assert dir[..0] + f == f;
    assert Detour(dir, f) == Detour(dir, to) + [x];
  }

  /** From any directory some name leads to any file whose path is plain, and a write goes through. */
  lemma EveryFileIsInReach(t: Tree, dir: Path, to: Path, x: string)
    requires WellFormed(t) && IsDir(t, dir) && IsFile(t, to + [x]) && PlainPath(to + [x])
    ensures CanWriteAt(t, dir, Detour(dir, to + [x])) && Position(dir, Detour(dir, to + [x])) == to + [x]
  {
    DetourLeads(dir, to, x);
    AboveChild(to, to, x);
    WayIsThere(t, dir, to);
    assert !Visited(dir, Detour(dir, to), to + [x]);
  }

  /** A file that is there is not below a path that is free, and is read by its own name. */
  lemma FileElsewhere(t: Tree, pa: Path, x: string, pb: Path)
    requires WellFormed(t) && pb !in t && IsFile(t, pa + [x]) && x != ".."
    ensures !Within(pb, pa + [x]) && IsDir(t, pa) && pa != pb
    ensures Position(pa, [x]) == pa + [x]
    ensures forall r: Tree :: HasMeta(r, pa) && IsDir(r, pa) && IsFile(r, pa + [x]) ==>
      ReadFile(r, pa, [x]) == Some(r[pa + [x]].blob)
  {
    AboveChild(pa, pa, x);
    PlainPosition(pa, [x], 0);
    PlainPosition(pa, [x], 1);
    assert [x][..0] == [] && [x][..1] == [x] && pa + [] == pa;
  }

  /** The write changes that one file, and makes no directory. */
  ghost predicate StrayWritten(t: Tree, w: Tree, pb: Path, f: Path, data: Bytes) {
    && WellFormed(w) && f in w && w[f] == File(Data(data))
    && (forall q :: IsFile(w, q) <==> IsFile(t, q))
    && (forall q :: IsDir(w, q) <==> IsDir(t, q) || Within(q, pb))
  }

  lemma StrayWrite(t: Tree, pb: Path, pa: Path, x: string, data: Bytes, openedAt: int, now: int)
    requires WellFormed(t) && CanOpen(t, pb) && IsFile(t, pa + [x]) && PlainPath(pa + [x])
    ensures
      var s, parts := OpenTree(t, pb, openedAt), Detour(pb, pa + [x]);
      CanWriteAt(s, pb, parts) && StrayWritten(t, TryWrite(s, pb, parts, Data(data), now), pb, pa + [x], data)
  {
    var s, f := OpenTree(t, pb, openedAt), pa + [x];
    CanOpenIsMkdirs(t, pb);
    MkdirsFrame(t, pb, openedAt);
    EveryFileIsInReach(s, pb, pa, x);
    AboveChild(pa, pa, x);
    WriteInPlace(s, pb, pa, x, Data(data), now);
  }

  lemma WriteInPlace(s: Tree, dir: Path, to: Path, x: string, blob: Blob, now: int)
    requires WellFormed(s) && IsDir(s, dir) && IsFile(s, to + [x]) && PlainPath(to + [x])
    requires CanWriteAt(s, dir, Detour(dir, to + [x]))
    ensures
      var w := TryWrite(s, dir, Detour(dir, to + [x]), blob, now);
      && WellFormed(w) && GainsFile(s, w, to + [x], blob) && forall q :: IsDir(w, q) <==> IsDir(s, q)
  {
    DetourLeads(dir, to, x);
    WriteFrame(s, dir, Detour(dir, to + [x]), blob, now);
    AboveChild(to, to, x);
    NoNewDirectories(s, dir, to);
  }

  lemma NoNewDirectories(s: Tree, dir: Path, to: Path)
    requires WellFormed(s) && IsDir(s, dir) && IsDir(s, to) && PlainPath(to)
    ensures forall q :: IsDir(s, q) || Visited(dir, Detour(dir, to), q) <==> IsDir(s, q)
  {
    WayIsThere(s, dir, to);
  }

  /** Neither a commit nor an abort brings the file back. */
  lemma StrayStays(t: Tree, w: Tree, pa: Path, x: string, pb: Path, data: Bytes, meta: Meta, now: int)
    requires WellFormed(t) && pb != [] && pb !in t && HasMeta(t, pa) && IsFile(t, pa + [x]) && x != ".."
    requires StrayWritten(t, w, pb, pa + [x], data)
    ensures CanCommit(w, pb)
    ensures ReadFile(CommitTree(w, pb, meta, now), pa, [x]) == Some(Data(data))
    ensures ReadFile(Remove(w, pb, now), pa, [x]) == Some(Data(data))
  {
    FileElsewhere(t, pa, x, pb);
    FileElsewhere(t, pa, META, pb);
    NothingBelow(t, pb, META);
    NothingBelow(t, pb, META_TMP);
    assert Within(pb, pb);
    CommitFrame(w, pb, meta, now);
    RemoveFrame(w, pb, now);
  }

  lemma NothingBelow(t: Tree, pb: Path, n: string)
    requires WellFormed(t) && pb !in t
    ensures pb + [n] !in t && !Within(pb + [n], pb) && pb + [n] != pb && Within(pb, pb + [n])
  {
    AboveChild(pb, pb, n);
  }

  /**
   * So one part of an upload to `pb` can replace a file of the bundle at `pa`, and that stays so
   * whether the upload is committed or aborted.
   */
  lemma StrayPartReachesAnotherBundle(
      t: Tree, pa: Path, x: string, pb: Path, data: Bytes, meta: Meta, openedAt: int, now: int)
    requires WellFormed(t) && CanOpen(t, pb) && HasMeta(t, pa) && IsFile(t, pa + [x]) && PlainPath(pa + [x])
    ensures
      var s, name := OpenTree(t, pb, openedAt), NameFromTo(pb, pa + [x]);
      var w := TryWrite(s, pb, Segments(name), Data(data), now);
      && CanWriteAt(s, pb, Segments(name)) && Target(pb, name) == pa + [x] && !StaysInside(name)
      && CanCommit(w, pb)
      && ReadFile(CommitTree(w, pb, meta, now), pa, [x]) == Some(Data(data))
      && ReadFile(Remove(w, pb, now), pa, [x]) == Some(Data(data))
      && (t[pa + [x]] != File(Data(data)) ==> !RolledBack(t, Remove(w, pb, now), pb))
  {
    var s, f := OpenTree(t, pb, openedAt), pa + [x];
    NameLeads(pb, f);
    StrayWrite(t, pb, pa, x, data, openedAt, now);
    var w := TryWrite(s, pb, Segments(NameFromTo(pb, f)), Data(data), now);
    assert x in f;
    StrayStays(t, w, pa, x, pb, data, meta, now);
    FileElsewhere(t, pa, x, pb);
    if t[f] != File(Data(data)) { NotRolledBack(t, Remove(w, pb, now), pa, x, pb, data); }
  }

  lemma NotRolledBack(t: Tree, r: Tree, pa: Path, x: string, pb: Path, data: Bytes)
    requires IsFile(t, pa + [x]) && ReadFile(r, pa, [x]) == Some(Data(data)) && Position(pa, [x]) == pa + [x]
    requires t[pa + [x]] != File(Data(data))
    ensures !RolledBack(t, r, pb)
  {
  }
}
