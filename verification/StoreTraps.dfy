/** Why the conditions on runs are there: runs that break one of them and lose or nest a bundle. */
module StoreTraps {
  import opened Strings
  import opened Tree
  import opened BundleTree
  import opened BundleRuns
  import opened Wrappers

  /** A committed bundle is swept away exactly when an aged orphan is listed above it. */
  lemma SweepLosesBundleIff(t: Tree, base: Path, b: Path, now: int, minAge: int)
    requires WellFormed(t) && HasMeta(t, b)
    ensures !HasMeta(SweepNamespace(t, base, now, minAge), b) <==>
      exists o :: AgedOrphan(t, base, o, now, minAge) && Above(o, b)
  {
    SweepNamespaceFrame(t, base, now, minAge);
    var meta := b + [META];
    if o :| AgedOrphan(t, base, o, now, minAge) && Within(o, meta) {
      AboveChild(o, b, META);
    }
    forall o | AgedOrphan(t, base, o, now, minAge) && Above(o, b)
      ensures Swept(t, base, meta, now, minAge)
    {
      AboveChild(o, b, META);
    }
  }

  // ---- Reaching a state by a run -------------------------------------------

  ghost predicate Reachable(s: State) {
    exists steps, now :: OrderlyRun(Start(now), steps) && Exec(Start(now), steps) == s
  }

  lemma {:induction false} RunOneMore(s: State, steps: seq<Step>, step: Step)
    ensures Exec(s, steps + [step]) == Next(Exec(s, steps), step)
    ensures OrderlyRun(s, steps + [step]) <==> OrderlyRun(s, steps) && Orderly(Exec(s, steps), step)
    decreases |steps|
  {
    if steps == [] {
      assert [] + [step] == [step];
      assert [step][1..] == [];
    } else {
      assert (steps + [step])[1..] == steps[1..] + [step];
      RunOneMore(Next(s, steps[0]), steps[1..], step);
    }
  }

  lemma ReachNext(s: State, step: Step)
    requires Reachable(s) && Orderly(s, step)
    ensures Reachable(Next(s, step))
  {
    var steps, now :| OrderlyRun(Start(now), steps) && Exec(Start(now), steps) == s;
    RunOneMore(Start(now), steps, step);
  }

  lemma ReachStart(now: int)
    ensures Reachable(Start(now))
  {
    assert OrderlyRun(Start(now), []) && Exec(Start(now), []) == Start(now);
  }

  // ---- The pieces of the runs ----------------------------------------------

  /** `w` is a path directly in the store, `x` one directly inside `w`. */
  predicate Nested(w: Path, x: Path) {
    Child(STORE, w) && Child(w, x)
  }

  predicate TouchedNow(s: State, w: Path) {
    w in s.tree && s.tree[w] == Dir(s.now)
  }

  lemma NestedFacts(w: Path, x: Path)
    requires Nested(w, x)
    ensures |w| == 2 && |x| == 3 && NamespaceDepth(w) == 1 == NamespaceDepth(x)
    ensures Above(STORE, w) && Above(w, x)
    ensures forall q :: Above(q, x) <==> Within(q, w)
  {
    ChildIsJustBelow(STORE, w);
    ChildIsJustBelow(w, x);
    assert w[0] == STORE[0] == "store";
    forall q
      ensures Above(q, x) <==> Within(q, w)
    {
      AboveChild(q, w, x[2]);
    }
  }

  /** A first writer, on an empty store. */
  lemma OpenFirst(now: int, w: Path, x: Path) returns (s: State)
    requires Nested(w, x)
    ensures Reachable(s) && s.live.Keys == {w} && s.now == now
    ensures WellFormed(s.tree) && TouchedNow(s, w)
    ensures forall q :: q in s.tree <==> Within(q, w)
    ensures forall q :: !IsFile(s.tree, q)
  {
    NestedFacts(w, x);
    ReachStart(now);
    var s0 := Start(now);
    assert forall q: Path :: q in s0.tree <==> q == [];
    assert CanOpen(s0.tree, w);
    CanOpenIsMkdirs(s0.tree, w);
    MkdirsFrame(s0.tree, w, now);
    s := Next(s0, Open(w));
    ReachNext(s0, Open(w));
    assert Within(w, w);
  }

  lemma OpenInside(s: State, w: Path, x: Path) returns (r: State)
    requires Nested(w, x) && WellFormed(s.tree) && CanOpen(s.tree, x)
    ensures r == Next(s, Open(x))
    ensures WellFormed(r.tree) && r.live == s.live[x := s.now] && r.now == s.now
    ensures forall q :: IsFile(r.tree, q) <==> IsFile(s.tree, q)
    ensures forall q :: IsDir(r.tree, q) <==> IsDir(s.tree, q) || Within(q, x)
    ensures TouchedNow(r, w)
  {
    NestedFacts(w, x);
    CanOpenIsMkdirs(s.tree, x);
    MkdirsFrame(s.tree, x, s.now);
    assert x[..3] == x;
    r := Next(s, Open(x));
  }

  lemma CommitInside(s: State, w: Path, x: Path, meta: Meta) returns (r: State)
    requires Nested(w, x) && WellFormed(s.tree) && IsDir(s.tree, x) && TouchedNow(s, w) && x in s.live
    requires !IsDir(s.tree, x + [META]) && x + [META_TMP] !in s.tree
    ensures r == Next(s, Commit(x, meta))
    ensures WellFormed(r.tree) && HasMeta(r.tree, x) && r.live == s.live - {x} && r.now == s.now
    ensures forall q :: IsFile(r.tree, q) <==> IsFile(s.tree, q) || q == x + [META]
    ensures forall q :: IsDir(r.tree, q) <==> IsDir(s.tree, q)
    ensures TouchedNow(r, w)
  {
    NestedFacts(w, x);
    CommitFrame(s.tree, x, meta, s.now);
    r := Next(s, Commit(x, meta));
    assert w != x + [META] && w != x + [META_TMP];
  }

  /** Open and commit a bundle inside `w` (files of its own play no part). */
  lemma UploadInside(s: State, w: Path, x: Path, meta: Meta) returns (r: State)
    requires Nested(w, x) && WellFormed(s.tree) && CanOpen(s.tree, x)
    ensures r == Next(Next(s, Open(x)), Commit(x, meta))
    ensures WellFormed(r.tree) && HasMeta(r.tree, x) && r.live == s.live - {x} && r.now == s.now
    ensures forall q :: IsFile(r.tree, q) <==> IsFile(s.tree, q) || q == x + [META]
    ensures forall q :: IsDir(r.tree, q) <==> IsDir(s.tree, q) || Within(q, x)
    ensures TouchedNow(r, w)
  {
    var s1 := OpenInside(s, w, x);
    AboveChild(x, x, META);
    AboveChild(x, x, META_TMP);
    assert Within(x, x);
    r := CommitInside(s1, w, x, meta);
    assert r.live == s.live - {x};
  }

  /** With no bundle at `w`, a path inside it can be opened. */
  lemma FreeToOpenInside(t: Tree, w: Path, x: Path)
    requires Nested(w, x) && WellFormed(t) && IsDir(t, w) && x !in t && !LooksLikeBundle(t, w)
    ensures CanOpen(t, x)
  {
    NestedFacts(w, x);
    assert NoBundleAbove(t, x) by {
      forall a | Above(a, x) && |a| > 1
        ensures a == w
      {
      }
    }
    assert Parent(x) == w;
    assert CanMkdirs(t, w);
  }

  // ---- 1. An empty live directory does not block a bundle beneath it ---------

  ghost predicate AbortTakesBundle(s: State, w: Path, x: Path) {
    IsBundle(s, w) && HasMeta(s.tree, x) && !HasMeta(Next(s, Abort(w)).tree, x)
  }

  /** Aborting the outer upload then removes the committed inner bundle. */
  lemma OpeningBeneathAWriterLosesABundle(w: Path, x: Path, meta: Meta)
    requires Nested(w, x)
    ensures exists s :: Reachable(s) && AbortTakesBundle(Next(Next(s, Open(x)), Commit(x, meta)), w, x)
  {
    NestedFacts(w, x);
    var s := OpenFirst(0, w, x);
    assert Within(w, w);
    assert !LooksLikeBundle(s.tree, w);
    FreeToOpenInside(s.tree, w, x);
    var r := UploadInside(s, w, x, meta);
    AbortRemovesAllBeneath(r, w, x);
  }

  lemma AbortRemovesAllBeneath(s: State, w: Path, x: Path)
    requires w in s.live && w != [] && w in s.tree && Above(w, x) && HasMeta(s.tree, x)
    ensures AbortTakesBundle(s, w, x)
  {
    AboveChild(w, x, META);
  }

  // ---- 2. Deleting a live writer's directory ---------------------------------

  /** A first writer at `x`, whose parent is then deleted: an empty store is left. */
  lemma DeleteAboveWriter(now: int, w: Path, x: Path) returns (r: State)
    requires Nested(w, x)
    ensures r == Next(Next(Start(now), Open(x)), Delete(w))
    ensures WellFormed(r.tree) && x in r.live && r.now == now
    ensures forall q :: q in r.tree ==> Within(q, STORE) && !IsFile(r.tree, q)
    ensures IsDir(r.tree, STORE)
  {
    NestedFacts(w, x);
    var s := OpenOnEmpty(now, w, x);
    r := Next(s, Delete(w));
    DeleteLeavesNamespace(s, w, x);
  }

  lemma DeleteLeavesNamespace(s: State, w: Path, x: Path)
    requires Nested(w, x) && WellFormed(s.tree)
    requires forall q :: (q in s.tree <==> Within(q, x)) && !IsFile(s.tree, q)
    ensures Next(s, Delete(w)) == s.(tree := Remove(s.tree, w, s.now)) && WellFormed(Next(s, Delete(w)).tree)
    ensures forall q :: q in Next(s, Delete(w)).tree ==> Within(q, STORE) && !IsFile(Next(s, Delete(w)).tree, q)
    ensures IsDir(Next(s, Delete(w)).tree, STORE)
  {
    NestedFacts(w, x);
    assert Within(w, x) && Above(STORE, x);
    RemoveFrame(s.tree, w, s.now);
    forall q | q in Remove(s.tree, w, s.now)
      ensures Within(q, STORE)
    {
      LeftAbove(w, x, q);
    }
  }

  lemma LeftAbove(w: Path, x: Path, q: Path)
    requires Nested(w, x) && Within(q, x) && !Within(w, q)
    ensures Within(q, STORE)
  {
    NestedFacts(w, x);
    AncestorsCompare(q, w, x);
    AboveChild(q, STORE, w[1]);
    assert w == STORE + [w[1]];
  }

  lemma OpenOnEmpty(now: int, w: Path, x: Path) returns (s: State)
    requires Nested(w, x)
    ensures s == Next(Start(now), Open(x)) && s.now == now && x in s.live
    ensures WellFormed(s.tree) && forall q :: !IsFile(s.tree, q)
    ensures forall q :: q in s.tree <==> Within(q, x)
  {
    var t := Start(now);
    assert forall q: Path :: q in t.tree <==> q == [];
    assert CanOpen(t.tree, x);
    CanOpenIsMkdirs(t.tree, x);
    MkdirsFrame(t.tree, x, now);
    s := Next(t, Open(x));
  }

  /** The writer recreates its directory, by then inside another live bundle. */
  lemma DeletingALiveWriterNestsBundles(now: int, w: Path, x: Path, name: string, blob: Blob)
    requires Nested(w, x) && name != ".."
    ensures
      var s := Next(Next(Next(Next(Start(now), Open(x)), Delete(w)), Open(w)), Write(x, [name], blob));
      IsBundle(s, w) && IsBundle(s, x) && IsDir(s.tree, w) && IsDir(s.tree, x) && Above(w, x)
  {
    NestedFacts(w, x);
    var s := DeleteAboveWriter(now, w, x);
    var s1 := OpenAgain(s, w);
    WriteRecreates(s1, x, name, blob);
  }

  lemma WriteRecreates(s: State, x: Path, name: string, blob: Blob)
    requires WellFormed(s.tree) && x in s.live && x + [name] !in s.tree && name != ".."
    requires forall q :: !IsFile(s.tree, q)
    ensures IsDir(Next(s, Write(x, [name], blob)).tree, x)
    ensures forall q :: IsDir(s.tree, q) ==> IsDir(Next(s, Write(x, [name], blob)).tree, q)
    ensures Next(s, Write(x, [name], blob)).live == s.live
  {
    WritableAmongDirectories(s.tree, x, name);
    NextWrite(s, x, [name], blob);
    WriteFrame(s.tree, x, [name], blob, s.now);
    assert Visited(x, [name][..0], x);
  }

  lemma WritableAmongDirectories(t: Tree, x: Path, name: string)
    requires x + [name] !in t && name != ".." && forall q :: !IsFile(t, q)
    ensures CanWriteAt(t, x, [name])
  {
    forall q | q in t
      ensures t[q].Dir?
    {
      assert !IsFile(t, q);
    }
    PlainCanWrite(t, x, [name]);
    assert [name][..0] == [] && x + [] == x;
  }

  lemma OpenAgain(s: State, w: Path) returns (r: State)
    requires Child(STORE, w) && WellFormed(s.tree)
    requires forall q :: q in s.tree ==> Within(q, STORE) && !IsFile(s.tree, q)
    ensures r == Next(s, Open(w)) && r.live == s.live[w := s.now] && r.now == s.now
    ensures WellFormed(r.tree) && IsDir(r.tree, w)
    ensures forall q :: q in r.tree ==> Within(q, w) && !IsFile(r.tree, q)
  {
    ChildIsJustBelow(STORE, w);
    assert w == STORE + [w[1]];
    forall q
      ensures Above(q, w) <==> Within(q, STORE)
    {
      AboveChild(q, STORE, w[1]);
    }
    assert CanOpen(s.tree, w);
    CanOpenIsMkdirs(s.tree, w);
    MkdirsFrame(s.tree, w, s.now);
    assert Within(w, w);
    r := Next(s, Open(w));
  }

  // ---- 3. Nested file names: the reaper takes a committed bundle -------------

  /** What a writer leaves when it dies after storing `a` and `d/b`: a file beside a directory. */
  ghost predicate CrashedUpload(s: State, w: Path, a: Path, d: Path, b: Path) {
    && WellFormed(s.tree) && s.live == map[]
    && (forall q :: IsFile(s.tree, q) <==> q == a || q == b)
    && (forall q :: IsDir(s.tree, q) <==> Within(q, w) || q == d)
  }

  predicate PlainName(n: string) {
    n != ".." && n != META
  }

  lemma WriteFirst(s: State, w: Path, an: string, blob: Blob) returns (r: State)
    requires Reachable(s) && WellFormed(s.tree) && w in s.live && PlainName(an)
    requires forall q :: q in s.tree <==> Within(q, w)
    requires forall q :: !IsFile(s.tree, q)
    ensures Reachable(r) && WellFormed(r.tree) && r.live == s.live
    ensures forall q :: IsFile(r.tree, q) <==> q == w + [an]
    ensures forall q :: IsDir(r.tree, q) <==> Within(q, w)
  {
    FirstFile(s.tree, w, an, blob, s.now);
    NextWrite(s, w, [an], blob);
    PlainWay([an]);
    r := Next(s, Write(w, [an], blob));
    ReachNext(s, Write(w, [an], blob));
  }

  lemma FirstFile(t: Tree, w: Path, an: string, blob: Blob, now: int)
    requires WellFormed(t) && PlainName(an)
    requires forall q :: q in t <==> Within(q, w)
    requires forall q :: !IsFile(t, q)
    ensures CanWriteAt(t, w, [an]) && Position(w, [an]) != []
    ensures
      var r := WriteAt(t, w, [an], blob, now);
      && WellFormed(r) && (forall q :: IsFile(r, q) <==> q == w + [an]) && (forall q :: IsDir(r, q) <==> Within(q, w))
  {
    assert Parent(w + [an]) == w && !Within(w + [an], w);
    WritableAmongDirectories(t, w, an);
    PlainCanWrite(t, w, [an]);
    WriteFrame(t, w, [an], blob, now);
    OneStepDown(w, an);
    forall q
      ensures IsDir(t, q) <==> Within(q, w)
    {
      assert !IsFile(t, q);
    }
  }

  lemma OneStepDown(w: Path, an: string)
    ensures forall q :: Visited(w, [an][..|[an]| - 1], q) <==> Within(q, w)
  {
    assert [an][..|[an]| - 1] == [] && w + [] == w;
    forall q
      ensures Visited(w, [], q) <==> Within(q, w)
    {
      PlainVisited(w, [], q);
    }
  }

  lemma CrashAfterTwoFiles(w: Path, x: Path, an: string, dn: string, bn: string, blob: Blob) returns (r: State)
    requires Nested(w, x) && PlainName(an) && PlainName(dn) && PlainName(bn) && an != dn
    ensures Reachable(r) && CrashedUpload(r, w, w + [an], w + [dn], w + [dn, bn])
  {
    var s0 := OpenFirst(0, w, x);
    var s := WriteFirst(s0, w, an, blob);
    var a, d, b := w + [an], w + [dn], w + [dn, bn];
    assert a[|w|] == an && d[|w|] == dn;
    assert Parent(b) == d && b == d + [bn];
    forall q
      ensures Within(q, d) <==> Within(q, w) || q == d
    {
      AboveChild(q, w, dn);
    }
    assert CanMkdirs(s.tree, d) by {
      forall q | Within(q, d) && q in s.tree ensures s.tree[q].Dir? { assert !IsFile(s.tree, q); }
    }
    assert !IsDir(s.tree, b);
    var name := [dn, bn];
    assert name[..1] == [dn] && w + name == b;
    PlainCanWrite(s.tree, w, name);
    forall q
      ensures Visited(w, [dn], q) <==> Within(q, d)
    {
      PlainVisited(w, [dn], q);
    }
    WriteFrame(s.tree, w, name, blob, s.now);
    NextWrite(s, w, name, blob);
    PlainWay(name);
    r := WriteThenCrash(s, w, [dn, bn], blob);
  }

  lemma WriteThenCrash(s: State, w: Path, name: Path, blob: Blob) returns (r: State)
    requires Reachable(s) && Orderly(s, Write(w, name, blob))
    ensures Reachable(r) && r == Next(s, Write(w, name, blob)).(live := map[])
  {
    var s1 := Next(s, Write(w, name, blob));
    ReachNext(s, Write(w, name, blob));
    r := Next(s1, Crash);
    ReachNext(s1, Crash);
  }

  /** The mixed directory counts as a namespace for the collision check. */
  lemma MixedDirectoryDoesNotBlock(s: State, w: Path, x: Path, a: Path, d: Path, b: Path)
    requires Nested(w, x) && CrashedUpload(s, w, a, d, b)
    requires Child(w, a) && Child(w, d) && Child(d, b) && x != a && x != d && !HasMeta(s.tree, w)
    ensures CanOpen(s.tree, x)
  {
    NestedFacts(w, x);
    ChildIsJustBelow(w, d);
    ChildIsJustBelow(d, b);
    assert IsDir(s.tree, d) && IsDir(s.tree, w);
    assert !IsFile(s.tree, x) && !IsDir(s.tree, x);
    assert !LooksLikeBundle(s.tree, w);
    FreeToOpenInside(s.tree, w, x);
  }

  /** And as an orphan for the walk, once it is old enough. */
  lemma MixedDirectoryIsAnAgedOrphan(s: State, w: Path, x: Path, a: Path, age: int)
    requires Nested(w, x) && WellFormed(s.tree) && IsFile(s.tree, a) && Child(w, a) && !HasMeta(s.tree, w)
    requires w in s.tree && s.tree[w] == Dir(s.now - age)
    ensures AgedOrphan(s.tree, STORE, w, s.now, age)
  {
    NestedFacts(w, x);
    ChildIsJustBelow(w, a);
    forall q
      ensures !(Above(STORE, q) && Above(q, w))
    {
    }
  }

  /**
    The run is orderly and no writer is alive at the sweep, only the file names are nested:
    the committed bundle is gone after it.
   */
  lemma NestedNamesDefeatTheReaper(
      w: Path, x: Path, an: string, dn: string, bn: string, blob: Blob, meta: Meta, age: nat)
    requires Nested(w, x) && PlainName(an) && PlainName(dn) && PlainName(bn)
    requires an != dn && x != w + [an] && x != w + [dn]
    ensures exists s ::
      Reachable(s) && s.live == map[] && HasMeta(s.tree, x) && !HasMeta(SweepNamespace(s.tree, STORE, s.now, age), x)
  {
    var s0 := CrashAfterTwoFiles(w, x, an, dn, bn, blob);
    var s1 := UploadBesideTheMess(s0, w, x, an, dn, bn, meta);
    var s2 := Next(s1, Tick(age));
    ReachNext(s1, Tick(age));
    MixedDirectoryIsAnAgedOrphan(s2, w, x, w + [an], age);
    NestedFacts(w, x);
    SweepLosesBundleIff(s2.tree, STORE, x, s2.now, age);
  }

  lemma UploadBesideTheMess(s: State, w: Path, x: Path, an: string, dn: string, bn: string, meta: Meta)
      returns (r: State)
    requires Nested(w, x) && PlainName(an) && an != dn && x != w + [an] && x != w + [dn]
    requires Reachable(s) && CrashedUpload(s, w, w + [an], w + [dn], w + [dn, bn])
    ensures Reachable(r) && WellFormed(r.tree) && r.live == map[]
    ensures HasMeta(r.tree, x) && !HasMeta(r.tree, w) && IsFile(r.tree, w + [an]) && TouchedNow(r, w)
  {
    assert !HasMeta(s.tree, w) by {
      assert (w + [META])[|w|] == META && (w + [an])[|w|] == an && |w + [dn, bn]| == |w| + 2;
    }
    assert CanOpen(s.tree, x) by {
      assert Child(w, w + [an]) && Child(w, w + [dn]) && Child(w + [dn], w + [dn, bn]);
      MixedDirectoryDoesNotBlock(s, w, x, w + [an], w + [dn], w + [dn, bn]);
    }
    r := UploadInside(s, w, x, meta);
    NestedFacts(w, x);
    UploadReachable(s, x, meta);
    assert w + [META] != x + [META] by { assert |x + [META]| == 4; }
  }

  lemma UploadReachable(s: State, x: Path, meta: Meta)
    requires Reachable(s) && BelowNamespaceRoot(x) && forall v <- s.live.Keys :: !Above(v, x)
    ensures Reachable(Next(Next(s, Open(x)), Commit(x, meta)))
  {
    ReachNext(s, Open(x));
    ReachNext(Next(s, Open(x)), Commit(x, meta));
  }
}
