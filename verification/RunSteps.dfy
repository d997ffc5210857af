/** What each step of a run leaves in the tree, file by file and directory by directory, and which writers stay. */
module RunSteps {
  import opened Strings
  import opened Tree
  import opened BundleTree
  import opened BundleRuns
  import opened Wrappers

  ghost predicate SameDirs(t: Tree, r: Tree) {
    forall q :: IsDir(r, q) <==> IsDir(t, q)
  }

  /** The directories from the data root down to `p` are there, and everything that was. */
  ghost predicate GainsWay(t: Tree, r: Tree, p: Path) {
    KeepsFiles(t, r) && forall q :: IsDir(r, q) <==> IsDir(t, q) || Within(q, p)
  }

  /** The subtree at `p` is gone, and nothing else. */
  ghost predicate LosesTree(t: Tree, r: Tree, p: Path) {
    && (forall q :: IsFile(r, q) <==> IsFile(t, q) && !Within(p, q))
    && (forall q :: IsFile(r, q) ==> r[q] == t[q])
    && (forall q :: IsDir(r, q) <==> IsDir(t, q) && !Within(p, q))
  }

  /** An open cut short after some of its directories. */
  lemma MakeParentsMakes(s: State, p: Path, upTo: nat)
    requires WellFormed(s.tree) && CanOpen(s.tree, p) && upTo < |p|
    ensures
      var r := Next(s, MakeParents(p, upTo));
      GainsWay(s.tree, r.tree, p[..upTo]) && r.live == s.live && r.now == s.now
  {
    CanOpenIsMkdirs(s.tree, p);
    FrontCanBeMade(s.tree, p, p[..upTo]);
    MkdirsFrame(s.tree, p[..upTo], s.now);
  }

  lemma FrontCanBeMade(t: Tree, p: Path, front: Path)
    requires CanMkdirs(t, p) && Above(front, p)
    ensures CanMkdirs(t, front)
  {
    forall q | Within(q, front)
      ensures Within(q, p)
    {
      WithinTransitive(q, front, p);
    }
  }

  lemma OpenMakes(s: State, p: Path)
    requires WellFormed(s.tree) && CanOpen(s.tree, p)
    ensures
      var r := Next(s, Open(p));
      && GainsWay(s.tree, r.tree, p) && p !in s.tree && p in r.live && r.live[p] == s.now
      && r.live.Keys == s.live.Keys + {p} && r.now == s.now
      && forall w <- s.live.Keys :: w != p ==> r.live[w] == s.live[w]
  {
    CanOpenIsMkdirs(s.tree, p);
    MkdirsFrame(s.tree, p, s.now);
  }

  /** A write cut short after some of the directories on its way. */
  lemma WriteParentsMakes(s: State, w: Path, name: Path, upTo: nat)
    requires WellFormed(s.tree) && w in s.live && upTo < |name| && CanVisit(s.tree, w, name[..upTo])
    ensures
      var r := Next(s, WriteParents(w, name, upTo));
      && KeepsFiles(s.tree, r.tree) && GainsDirs(s.tree, r.tree, w, name[..upTo])
      && r.live == s.live && r.now == s.now
  {
    VisitFrame(s.tree, w, name[..upTo], s.now);
  }

  lemma WriteMakes(s: State, w: Path, name: Path, blob: Blob)
    requires WellFormed(s.tree) && w in s.live && CanWriteAt(s.tree, w, name)
    ensures
      var r := Next(s, Write(w, name, blob));
      && GainsFile(s.tree, r.tree, Position(w, name), blob) && GainsDirs(s.tree, r.tree, w, name[..|name| - 1])
      && r.live == s.live && r.now == s.now
  {
    NextWrite(s, w, name, blob);
    WriteFrame(s.tree, w, name, blob, s.now);
  }

  /** A commit cut short: whatever of the manifest was written lies beside the files. */
  lemma WriteTmpMakes(s: State, w: Path, blob: Blob)
    requires WellFormed(s.tree) && w in s.live && IsDir(s.tree, w) && !IsDir(s.tree, w + [".meta.json.tmp"])
    ensures
      var r := Next(s, WriteTmp(w, blob));
      && GainsFile(s.tree, r.tree, w + [".meta.json.tmp"], blob) && SameDirs(s.tree, r.tree)
      && r.live == s.live && r.now == s.now
  {
    assert Parent(w + [META_TMP]) == w;
    PutFileFrame(s.tree, w + [META_TMP], blob, s.now);
  }

  lemma CommitMakes(s: State, w: Path, meta: Meta)
    requires WellFormed(s.tree) && w in s.live && CanCommit(s.tree, w)
    ensures
      var r := Next(s, Commit(w, meta));
      var tmp, final := w + [".meta.json.tmp"], w + ["meta.json"];
      && (forall q :: IsFile(r.tree, q) <==> (IsFile(s.tree, q) && q != tmp) || q == final)
      && (forall q :: IsFile(s.tree, q) && q != tmp && q != final ==> r.tree[q] == s.tree[q])
      && r.tree[final] == File(Json(meta)) && SameDirs(s.tree, r.tree)
      && r.live == s.live - {w} && r.now == s.now
  {
    CommitFrame(s.tree, w, meta, s.now);
  }

  lemma AbortRemoves(s: State, w: Path)
    requires WellFormed(s.tree) && w in s.live && w != [] && w in s.tree
    ensures
      var r := Next(s, Abort(w));
      LosesTree(s.tree, r.tree, w) && r.live == s.live - {w} && r.now == s.now
  {
    RemoveFrame(s.tree, w, s.now);
  }

  lemma DeleteRemoves(s: State, p: Path)
    requires WellFormed(s.tree) && p != [] && IsDir(s.tree, p)
    ensures
      var r := Next(s, Delete(p));
      LosesTree(s.tree, r.tree, p) && r.live == s.live && r.now == s.now
  {
    RemoveFrame(s.tree, p, s.now);
  }

  /** A cancelled or crashed upload leaves its directory, and no writer to remove it. */
  lemma LosingAWriterLeavesItsFiles(s: State, w: Path, step: Step)
    requires step == Lose(w) || step == Crash
    ensures Next(s, step).tree == s.tree && Next(s, step).now == s.now
    ensures w !in Next(s, step).live && (step == Crash ==> Next(s, step).live == map[])
    ensures step == Lose(w) ==> Next(s, step).live == s.live - {w}
  {
  }

  /** The clock goes on, and a sweep takes both namespaces in turn and no writer. */
  lemma TickAndSweep(s: State, elapsed: nat, minAge: int)
    ensures Next(s, Tick(elapsed)) == State(s.tree, s.live, s.now + elapsed)
    ensures Next(s, Sweep(minAge)) ==
      State(SweepNamespace(SweepNamespace(s.tree, ["inbox"], s.now, minAge), ["store"], s.now, minAge), s.live, s.now)
  {
  }

  // ---- Modification times ------------------------------------------------------

  ghost predicate SameEntries(t: Tree, r: Tree, d: Path) {
    forall q :: Child(d, q) ==> (q in t <==> q in r)
  }

  ghost predicate TouchedRightly(t: Tree, r: Tree, now: int, d: Path) {
    && (IsDir(t, d) && IsDir(r, d) ==> if SameEntries(t, r, d) then r[d] == t[d] else r[d] == Dir(now))
    && (IsDir(r, d) && d !in t ==> r[d] == Dir(now))
  }

  /** A directory's time is that of the last change of its entries, or of its making. */
  ghost predicate Touches(t: Tree, r: Tree, now: int) {
    forall d :: TouchedRightly(t, r, now, d)
  }

  lemma MkdirsTouches(t: Tree, p: Path, now: int)
    requires WellFormed(t) && CanMkdirs(t, p)
    ensures Touches(t, Mkdirs(t, p, now), now)
  {
    var r := Mkdirs(t, p, now);
    forall d
      ensures TouchedRightly(t, r, now, d)
    {
      if Above(d, p) {
        var c := p[..|d| + 1];
        assert Parent(c) == d && Child(d, c) && Within(c, p);
      }
      forall q | Child(d, q) && q !in t && q in r
        ensures q == p[..|d| + 1] && Above(d, p)
      {
        ChildIsJustBelow(d, q);
        AboveTransitive(d, q, p);
      }
    }
  }

  lemma PutFileTouches(t: Tree, p: Path, blob: Blob, now: int)
    requires WellFormed(t) && p != [] && IsDir(t, Parent(p)) && !IsDir(t, p)
    ensures Touches(t, PutFile(t, p, blob, now), now)
  {
    var r := PutFile(t, p, blob, now);
    assert Parent(p) != p && Child(Parent(p), p);
    forall d
      ensures TouchedRightly(t, r, now, d)
    {
      assert d != Parent(p) ==> SameEntries(t, r, d);
    }
  }

  lemma RemoveTouches(t: Tree, p: Path, now: int)
    requires WellFormed(t) && p != [] && p in t
    ensures Touches(t, Remove(t, p, now), now)
  {
    var r := Remove(t, p, now);
    assert Child(Parent(p), p) && Within(p, p);
    forall d
      ensures TouchedRightly(t, r, now, d)
    {
      forall q | Child(d, q) && q in t && q !in r && d in r
        ensures d == Parent(p)
      {
        ChildIsJustBelow(d, q);
        if q != p {
          assert q == d + [q[|d|]];
          AboveChild(p, d, q[|d|]);
        }
      }
    }
  }

  lemma RenameTouches(t: Tree, src: Path, dst: Path, now: int)
    requires WellFormed(t) && src != [] && dst != [] && src != dst && Parent(src) == Parent(dst)
    requires IsFile(t, src) && !IsDir(t, dst)
    ensures Touches(t, Rename(t, src, dst, now), now)
  {
    var r := Rename(t, src, dst, now);
    assert Child(Parent(src), src) && |Parent(src)| < |src| && |Parent(dst)| < |dst|;
    forall d
      ensures TouchedRightly(t, r, now, d)
    {
      assert d != Parent(src) ==> SameEntries(t, r, d);
    }
  }
}
