/** Whole runs of the bundle store: writers, crashes, deletes and the reaper, in any order. */
module BundleRuns {
  import opened Strings
  import opened Tree
  import opened BundleTree
  import opened Wrappers

  /** `live` maps the directory of each writer still in use to the time it was opened. */
  datatype State = State(tree: Tree, live: map<Path, int>, now: int)

  /**
    Each step is what one coroutine does without suspending, or a part of it that a
    crash can leave behind: `MakeParents`, `WriteParents` and `WriteTmp` are interrupted
    opens, writes and commits; an interrupted copy is a `Write` of fewer bytes. `name` is
    the parts of a relative name, which may climb. `Stray` is a write whose name leads out
    of the data root: it may come back anywhere.
   */
  datatype Step =
    | Tick(elapsed: nat)
    | MakeParents(path: Path, upTo: nat)
    | Open(path: Path)
    | WriteParents(writer: Path, name: Path, upTo: nat)
    | Write(writer: Path, name: Path, blob: Blob)
    | Stray(after: Tree)
    | WriteTmp(writer: Path, blob: Blob)
    | Commit(writer: Path, meta: Meta)
    | Abort(writer: Path)
    | Lose(writer: Path)
    | Crash
    | Delete(path: Path)
    | Sweep(minAge: int)

  /** An operation that raises an error changes nothing. */
  ghost function Next(s: State, step: Step): State {
    match step
    case Tick(elapsed) => s.(now := s.now + elapsed)
    case MakeParents(p, upTo) =>
      if CanOpen(s.tree, p) && upTo < |p| then s.(tree := Mkdirs(s.tree, p[..upTo], s.now)) else s
    case Open(p) =>
      if CanOpen(s.tree, p) then State(OpenTree(s.tree, p, s.now), s.live[p := s.now], s.now) else s
    case WriteParents(w, name, upTo) =>
      if w in s.live && upTo < |name| && CanVisit(s.tree, w, name[..upTo])
      then s.(tree := VisitTree(s.tree, w, name[..upTo], s.now)) else s
    case Write(w, name, blob) =>
      if w in s.live then s.(tree := TryWrite(s.tree, w, name, blob, s.now)) else s
    case Stray(after) => s.(tree := after)
    case WriteTmp(w, blob) =>
      if w in s.live && IsDir(s.tree, w) && !IsDir(s.tree, w + [META_TMP])
      then s.(tree := PutFile(s.tree, w + [META_TMP], blob, s.now)) else s
    case Commit(w, meta) =>
      if w in s.live && CanCommit(s.tree, w)
      then State(CommitTree(s.tree, w, meta, s.now), s.live - {w}, s.now) else s
    case Abort(w) =>
      if w in s.live
      then State(if w != [] && w in s.tree then Remove(s.tree, w, s.now) else s.tree, s.live - {w}, s.now) else s
    case Lose(w) => s.(live := s.live - {w})
    case Crash => s.(live := map[])
    case Delete(p) =>
      if p != [] && IsDir(s.tree, p) then s.(tree := Remove(s.tree, p, s.now)) else s
    case Sweep(minAge) => s.(tree := SweepTree(s.tree, s.now, minAge))
  }

  ghost function Exec(s: State, steps: seq<Step>): State
    decreases |steps|
  {
    if steps == [] then s else Exec(Next(s, steps[0]), steps[1..])
  }

  function Start(now: int): State {
    State(map[[] := Dir(now)], map[], now)
  }

  // ---- Runs in which bundles never nest ------------------------------------

  /** The name stays inside the bundle and does not end at a manifest in a directory of its own. */
  predicate Harmless(name: Path) {
    WayOf(name).up == 0 && (|name| > 0 && name[|name| - 1] == META ==> |WayOf(name).down| <= 1)
  }

  /** The callers' part: where they open and delete, and which file names they pass. */
  predicate Orderly(s: State, step: Step) {
    match step
    case Open(p) =>
      |p| >= 2 && (p[0] == "inbox" ==> |p| >= 3) && forall w <- s.live.Keys :: !Above(w, p)
    case Write(_, name, _) => Harmless(name)
    case Delete(p) => forall w <- s.live.Keys :: !Within(p, w)
    case Stray(_) => false
    case Sweep(_) => false
    case _ => true
  }

  ghost predicate OrderlyRun(s: State, steps: seq<Step>)
    decreases |steps|
  {
    steps == [] || (Orderly(s, steps[0]) && OrderlyRun(Next(s, steps[0]), steps[1..]))
  }

  /** A committed bundle, or one being written. */
  predicate IsBundle(s: State, p: Path) {
    HasMeta(s.tree, p) || p in s.live
  }

  ghost predicate LiveInv(s: State) {
    forall w <- s.live.Keys ::
      IsDir(s.tree, w) && BelowNamespaceRoot(w) && s.live[w] <= s.now
  }

  ghost predicate Antichain(s: State) {
    forall a, b :: IsBundle(s, a) && IsBundle(s, b) ==> !Above(a, b)
  }

  ghost predicate Inv(s: State) {
    && WellFormed(s.tree)
    && LiveInv(s)
    && (forall b :: HasMeta(s.tree, b) ==> BelowNamespaceRoot(b))
    && Antichain(s)
  }

  /** A tree with no manifest but in bundles keeps the invariant. */
  lemma SameManifests(s: State, t: Tree)
    requires Inv(s) && WellFormed(t)
    requires forall w <- s.live.Keys :: IsDir(t, w)
    requires forall b :: HasMeta(t, b) ==> IsBundle(s, b)
    ensures Inv(s.(tree := t))
  {
    forall a, b | IsBundle(s.(tree := t), a) && IsBundle(s.(tree := t), b)
      ensures !Above(a, b)
    {
      assert IsBundle(s, a) && IsBundle(s, b);
    }
  }

  /** A harmless name puts a manifest nowhere but in the writer's own directory. */
  lemma ManifestOnlyAtTop(w: Path, name: Path, b: Path)
    requires name != [] && name[|name| - 1] != ".." && Harmless(name) && b + [META] == Position(w, name)
    ensures b == w
  {
    InsidePosition(w, name);
    var down := WayOf(name).down;
    assert down[|down| - 1] == name[|name| - 1];
    assert (w + down)[|w + down| - 1] == META && b == (b + [META])[..|b|];
  }

  /** The collision check keeps a new writer out of committed bundles, mkdir out of everything below it. */
  lemma OpenedAlone(s: State, p: Path, b: Path)
    requires Inv(s) && Orderly(s, Open(p)) && CanOpen(s.tree, p) && IsBundle(s, b)
    ensures !Within(p, b) && !Above(b, p)
  {
    AboveChild(p, b, META);
    if Above(b, p) {
      assert HasMeta(s.tree, b);
      assert b[0] == p[0];
      AboveChild(b, b, META);
    }
  }

  lemma OpenKeepsInv(s: State, p: Path)
    requires Inv(s) && Orderly(s, Open(p)) && CanOpen(s.tree, p)
    ensures Inv(Next(s, Open(p)))
  {
    var r := Next(s, Open(p));
    CanOpenIsMkdirs(s.tree, p);
    MkdirsFrame(s.tree, p, s.now);
    assert forall b :: HasMeta(r.tree, b) <==> HasMeta(s.tree, b);
    assert !HasMeta(r.tree, p) by { AboveChild(p, p, META); }
    forall a, b | IsBundle(r, a) && IsBundle(r, b)
      ensures !Above(a, b)
    {
      if a != p { OpenedAlone(s, p, a); }
      if b != p { OpenedAlone(s, p, b); }
    }
  }

  lemma RemoveKeepsInv(s: State, p: Path, live: map<Path, int>)
    requires Inv(s) && p != [] && p in s.tree
    requires live.Keys <= s.live.Keys && forall w <- live.Keys :: live[w] == s.live[w] && !Within(p, w)
    ensures Inv(State(Remove(s.tree, p, s.now), live, s.now))
  {
    RemoveFrame(s.tree, p, s.now);
    var r := State(Remove(s.tree, p, s.now), live, s.now);
    assert forall b :: HasMeta(r.tree, b) ==> HasMeta(s.tree, b);
    forall a, b | IsBundle(r, a) && IsBundle(r, b)
      ensures !Above(a, b)
    {
      assert IsBundle(s, a) && IsBundle(s, b);
    }
  }

  lemma CommitKeepsInv(s: State, w: Path, meta: Meta)
    requires Inv(s) && w in s.live && CanCommit(s.tree, w)
    ensures Inv(Next(s, Commit(w, meta)))
  {
    var r := Next(s, Commit(w, meta));
    CommitFrame(s.tree, w, meta, s.now);
    forall b
      ensures HasMeta(r.tree, b) <==> HasMeta(s.tree, b) || b == w
    {
      assert (b + [META])[|b|] == META;
      assert (w + [META_TMP])[|w|] == META_TMP;
      if b + [META] == w + [META] { assert b == (b + [META])[..|b|] == (w + [META])[..|w|] == w; }
    }
    forall a, b | IsBundle(r, a) && IsBundle(r, b)
      ensures !Above(a, b)
    {
      assert IsBundle(s, a) && IsBundle(s, b);
    }
  }

  lemma WriteKeepsInv(s: State, w: Path, name: Path, blob: Blob)
    requires Inv(s) && w in s.live && CanWriteAt(s.tree, w, name) && Harmless(name)
    ensures Inv(Next(s, Write(w, name, blob)))
  {
    NextWrite(s, w, name, blob);
    var t := WriteAt(s.tree, w, name, blob, s.now);
    WriteFrame(s.tree, w, name, blob, s.now);
    forall b | HasMeta(t, b)
      ensures IsBundle(s, b)
    {
      if b + [META] == Position(w, name) { ManifestOnlyAtTop(w, name, b); }
    }
    assert forall v <- s.live.Keys :: IsDir(t, v);
    SameManifests(s, t);
  }

  lemma NextWrite(s: State, w: Path, name: Path, blob: Blob)
    requires w in s.live && CanWriteAt(s.tree, w, name)
    ensures Position(w, name) != []
    ensures Next(s, Write(w, name, blob)) == s.(tree := WriteAt(s.tree, w, name, blob, s.now))
  {
    NextTries(s, w, name, blob);
    TryWorks(s.tree, w, name, blob, s.now);
  }

  lemma NextTries(s: State, w: Path, name: Path, blob: Blob)
    requires w in s.live
    ensures Next(s, Write(w, name, blob)) == s.(tree := TryWrite(s.tree, w, name, blob, s.now))
  {
  }

  lemma TryWorks(t: Tree, w: Path, name: Path, blob: Blob, now: int)
    requires CanWriteAt(t, w, name)
    ensures Position(w, name) != [] && TryWrite(t, w, name, blob, now) == WriteAt(t, w, name, blob, now)
  {
    var r := TryWrite(t, w, name, blob, now);
  }

  lemma NextKeepsInv(s: State, step: Step)
    requires Inv(s) && Orderly(s, step)
    ensures Inv(Next(s, step))
  {
    match step
    case Tick(_) =>
      SameManifests(s, s.tree);
    case MakeParents(p, upTo) =>
      if CanOpen(s.tree, p) && upTo < |p| {
        CanOpenIsMkdirs(s.tree, p);
        assert forall q :: Within(q, p[..upTo]) ==> Within(q, p) by {
          forall q | Within(q, p[..upTo]) ensures Within(q, p) { WithinTransitive(q, p[..upTo], p); }
        }
        MkdirsFrame(s.tree, p[..upTo], s.now);
        SameManifests(s, Next(s, step).tree);
      }
    case Open(p) =>
      if CanOpen(s.tree, p) { OpenKeepsInv(s, p); }
    case WriteParents(w, name, upTo) =>
      if w in s.live && upTo < |name| && CanVisit(s.tree, w, name[..upTo]) {
        VisitFrame(s.tree, w, name[..upTo], s.now);
        SameManifests(s, Next(s, step).tree);
      }
    case Write(w, name, blob) =>
      if w in s.live && CanWriteAt(s.tree, w, name) { WriteKeepsInv(s, w, name, blob); }
    case Stray(_) =>
    case WriteTmp(w, blob) =>
      if w in s.live && IsDir(s.tree, w) && !IsDir(s.tree, w + [META_TMP]) {
        assert Parent(w + [META_TMP]) == w;
        PutFileFrame(s.tree, w + [META_TMP], blob, s.now);
        forall b
          ensures b + [META] != w + [META_TMP]
        {
          assert (b + [META])[|b|] == META && (w + [META_TMP])[|w|] == META_TMP;
        }
        SameManifests(s, Next(s, step).tree);
      }
    case Commit(w, meta) =>
      if w in s.live && CanCommit(s.tree, w) { CommitKeepsInv(s, w, meta); }
    case Abort(w) =>
      if w in s.live {
        assert IsBundle(s, w);
        forall v <- (s.live - {w}).Keys
          ensures !Within(w, v)
        {
          assert IsBundle(s, v);
        }
        RemoveKeepsInv(s, w, s.live - {w});
      }
    case Lose(w) =>
      FewerWriters(s, s.live - {w});
    case Crash =>
      FewerWriters(s, map[]);
    case Delete(p) =>
      if p != [] && IsDir(s.tree, p) { RemoveKeepsInv(s, p, s.live); }
    case Sweep(_) =>
  }

  // ---- The conditions are exact --------------------------------------------

  /** The step is carried out, and it is neither a sweep nor a write that climbs. */
  ghost predicate Happens(s: State, step: Step) {
    match step
    case Open(p) => CanOpen(s.tree, p)
    case Write(w, name, _) => w in s.live && CanWriteAt(s.tree, w, name) && WayOf(name).up == 0
    case Delete(p) => p != [] && IsDir(s.tree, p)
    case Stray(_) => false
    case Sweep(_) => false
    case _ => true
  }

  /** A step that happens keeps the invariant if and only if the callers did their part. */
  lemma OrderlyIsExact(s: State, step: Step)
    requires Inv(s) && Happens(s, step)
    ensures Inv(Next(s, step)) <==> Orderly(s, step)
  {
    if Orderly(s, step) {
      NextKeepsInv(s, step);
    } else if step.Open? {
      DisorderlyOpen(s, step.path);
    } else if step.Delete? {
      DisorderlyDelete(s, step.path);
    } else if step.Write? {
      DisorderlyWrite(s, step.writer, step.name, step.blob);
    }
  }

  lemma DisorderlyOpen(s: State, p: Path)
    requires Inv(s) && CanOpen(s.tree, p) && !Orderly(s, Open(p))
    ensures !Inv(Next(s, Open(p)))
  {
    var r := Next(s, Open(p));
    assert p in r.live;
    if w :| w in s.live && Above(w, p) { assert IsBundle(r, w) && IsBundle(r, p); }
  }

  lemma DisorderlyDelete(s: State, p: Path)
    requires Inv(s) && p != [] && IsDir(s.tree, p) && !Orderly(s, Delete(p))
    ensures !Inv(Next(s, Delete(p)))
  {
    var w :| w in s.live && Within(p, w);
    assert w !in Next(s, Delete(p)).tree;
  }

  /** A manifest in a directory of the bundle's own makes a bundle inside the bundle. */
  lemma DisorderlyWrite(s: State, w: Path, name: Path, blob: Blob)
    requires Inv(s) && w in s.live && CanWriteAt(s.tree, w, name) && WayOf(name).up == 0 && !Harmless(name)
    ensures !Inv(Next(s, Write(w, name, blob)))
  {
    NextWrite(s, w, name, blob);
    WriteFrame(s.tree, w, name, blob, s.now);
    InsidePosition(w, name);
    var down := WayOf(name).down;
    var b := w + down[..|down| - 1];
    assert down == down[..|down| - 1] + [META];
    assert b + [META] == Position(w, name);
    assert b[..|w|] == w && Above(w, b);
    assert IsBundle(Next(s, Write(w, name, blob)), w) && IsBundle(Next(s, Write(w, name, blob)), b);
  }

  lemma FewerWriters(s: State, live: map<Path, int>)
    requires Inv(s) && live.Keys <= s.live.Keys && forall w <- live.Keys :: live[w] == s.live[w]
    ensures Inv(s.(live := live))
  {
    var r := s.(live := live);
    forall a, b | IsBundle(r, a) && IsBundle(r, b)
      ensures !Above(a, b)
    {
      assert IsBundle(s, a) && IsBundle(s, b);
    }
  }

  lemma {:induction false} RunKeepsInv(s: State, steps: seq<Step>)
    requires Inv(s) && OrderlyRun(s, steps)
    ensures Inv(Exec(s, steps))
    decreases |steps|
  {
    if steps != [] {
      NextKeepsInv(s, steps[0]);
      RunKeepsInv(Next(s, steps[0]), steps[1..]);
    }
  }

  lemma StartInv(now: int)
    ensures Inv(Start(now))
  {
  }

  /** After any orderly run, no bundle directory lies inside another. */
  lemma BundlesNeverNest(now: int, steps: seq<Step>, a: Path, b: Path)
    requires OrderlyRun(Start(now), steps)
    requires IsBundle(Exec(Start(now), steps), a) && IsBundle(Exec(Start(now), steps), b)
    ensures !Above(a, b)
  {
    StartInv(now);
    RunKeepsInv(Start(now), steps);
  }

  /** So removing one bundle leaves every other with all that is in it. */
  lemma RemovingOneKeepsTheOthers(now: int, steps: seq<Step>, gone: Path, other: Path, q: Path)
    requires OrderlyRun(Start(now), steps)
    requires var s := Exec(Start(now), steps); IsBundle(s, gone) && IsBundle(s, other) && gone != other
    requires Within(other, q)
    ensures gone != []
    ensures var s := Exec(Start(now), steps); var t := Remove(s.tree, gone, s.now);
      (q in s.tree <==> q in t) && (q in s.tree ==> t[q] == s.tree[q])
  {
    var s := Exec(Start(now), steps);
    StartInv(now);
    RunKeepsInv(Start(now), steps);
    assert !Above(gone, other) && !Above(other, gone);
    if Within(gone, q) { AncestorsCompare(gone, other, q); }
    if q == Parent(gone) { AboveTransitive(other, q, gone); }
  }
}
