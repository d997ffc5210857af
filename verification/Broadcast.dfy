/** Broadcast: one payload to the inboxes of all visible agents, each label accounted for once. */
module Broadcast {
  import opened Wrappers
  import opened Strings
  import opened Sorting
  import opened Tree
  import opened BundleTree
  import opened Storage
  import opened BundleContents
  import opened Upload

  /** What the alias resolver does with a label: its bundle paths, or nothing, or an exception. */
  datatype Resolution = ResolverRaises | Unknown | Targets(paths: seq<Path>)

  datatype Check = CheckRaises | Refused | Allowed

  datatype DenyReason = CheckError | AccessDenied

  datatype FailReason = ResolverError | ResolverUnknown | WriteFailure

  datatype Denial = Denial(target: string, reason: DenyReason)

  datatype Failure = Failure(target: string, reason: FailReason)

  datatype Tag = Noop | Success | Partial | ErrorTag

  datatype Report = Report(lists: Lists, tag: Tag)

  function PartRows(parts: seq<Item>): seq<FileEntry> {
    seq(|parts|, i requires 0 <= i < |parts| => FileEntry(parts[i].name, |parts[i].data|))
  }

  // ---- One bundle ------------------------------------------------------------

  /** Everything one write needs in order to commit. */
  ghost predicate InboxWriteSucceeds(t: Tree, path: Path, parts: seq<Item>, disk: nat -> Disk) {
    CanOpen(t, path) && parts != [] && Storable(parts) && RoomForManifest(parts) && AllHealthy(disk, |parts| + 1)
  }

  lemma PartsAreDeclared(parts: seq<Item>)
    requires Storable(parts)
    ensures DeclaredAsWritten(PartRows(parts), WrittenBy(parts)) <==> parts != []
  {
    var rows := PartRows(parts);
    PartNames(parts);
    forall i | 0 <= i < |parts|
      ensures rows[i].name in WrittenBy(parts) && rows[i].size == WrittenBy(parts)[rows[i].name]
    {
      WrittenSize(parts, i);
    }
  }

  lemma PartNames(parts: seq<Item>)
    ensures (set f <- PartRows(parts) :: f.name) == WrittenBy(parts).Keys
  {
    var rows := PartRows(parts);
    WrittenNames(parts);
    forall name
      ensures name in (set f <- rows :: f.name) <==> name in WrittenBy(parts)
    {
      if name in WrittenBy(parts) {
        var i: nat :| i < |parts| && parts[i].name == name;
        assert rows[i] in rows;
      }
      if f :| f in rows && f.name == name {
        var i :| 0 <= i < |rows| && rows[i] == f;
        assert parts[i].name == name;
      }
    }
  }

  /** The names of the parts come from the request as they are; what is promised is for those that stay inside. */
  method WriteInboxBundle(
      backend: FilesystemBackend, path: Path, bundleId: string, createdAt: string, parts: seq<Item>,
      disk: nat -> Disk, now: int)
      returns (ok: bool)
    requires WellFormed(backend.tree) && path != []
    modifies backend`tree
    ensures AllInside(parts) ==> (ok <==> InboxWriteSucceeds(old(backend.tree), path, parts, disk))
    ensures AllInside(parts) && ok ==>
      CommittedAs(old(backend.tree), backend.tree, path, parts, Meta(bundleId, createdAt, PartRows(parts)))
    ensures AllInside(parts) && !ok ==>
      backend.tree == old(backend.tree) || RolledBack(old(backend.tree), backend.tree, path)
    ensures !CanOpen(old(backend.tree), path) ==> !ok && backend.tree == old(backend.tree)
    ensures WellFormed(backend.tree)
  {
    var attempt := backend.OpenBundleWrite(path, now);
    if attempt.Err? { return false; }
    OpenedHoldsNothing(old(backend.tree), path, now);
    if Storable(parts) { PartsAreDeclared(parts); }
    var r := CompleteItems(
      attempt.value, old(backend.tree), now, parts, Meta(bundleId, createdAt, PartRows(parts)), disk, now);
    return r.Ok?;
  }

  // ---- One target: replace what is there -------------------------------------

  /** The payload is committed at the path and reads back, as far as its names allow. */
  ghost predicate HoldsPayload(t: Tree, path: Path, parts: seq<Item>) {
    && ReadMeta(t, path).Some? && ReadMeta(t, path).value.files == PartRows(parts)
    && (DistinctPlaces(parts) ==>
          forall i :: 0 <= i < |parts| ==> (ReadsBack(t, path, parts[i]) <==> !ReservedPlace(Down(parts[i].name))))
  }

  ghost predicate SameBelow(t: Tree, r: Tree, path: Path) {
    forall q :: Within(path, q) ==> (q in r <==> q in t) && (q in t ==> r[q] == t[q])
  }

  lemma PayloadStays(t: Tree, r: Tree, path: Path, parts: seq<Item>)
    requires HoldsPayload(t, path, parts) && AllInside(parts) && SameBelow(t, r, path)
    ensures HoldsPayload(r, path, parts)
  {
    InsideBundle(path, [META]);
    forall i | 0 <= i < |parts|
      ensures ReadsBack(r, path, parts[i]) <==> ReadsBack(t, path, parts[i])
    {
      SameReading(t, r, path, Segments(parts[i].name));
    }
  }

  /** What is read through a name that stays inside depends on what is below the path alone. */
  lemma SameReading(t: Tree, r: Tree, path: Path, parts: Path)
    requires WayOf(parts).up == 0 && SameBelow(t, r, path)
    ensures ReadFile(r, path, parts) == ReadFile(t, path, parts)
  {
    InsideBundle(path, [META]);
    InsidePosition(path, parts);
    forall k: nat | k < |parts|
      ensures Within(path, Position(path, parts[..k]))
    {
      assert Passes(path, parts, Position(path, parts[..k]));
      InsidePasses(path, parts, Position(path, parts[..k]));
    }
  }

  /** Nothing changed but at, below or above the path. */
  ghost predicate OnlyAround(t: Tree, r: Tree, path: Path) {
    forall q :: !Within(path, q) && !Above(q, path) ==> (q in r <==> q in t) && (q in t ==> r[q] == t[q])
  }

  /** The same files, but for those below the path. */
  ghost predicate FilesElsewhere(t: Tree, r: Tree, path: Path) {
    && (forall q :: !Within(path, q) ==> (IsFile(r, q) <==> IsFile(t, q)))
    && (IsFile(r, path) ==> IsFile(t, path))
  }

  lemma CommittedFilesElsewhere(t: Tree, r: Tree, path: Path, parts: seq<Item>, meta: Meta)
    requires WellFormed(t) && CanOpen(t, path) && CommittedAs(t, r, path, parts, meta)
    ensures FilesElsewhere(t, r, path)
  {
    CanOpenIsMkdirs(t, path);
    AboveChild(path, path, META);
    forall q | Above(q, path)
      ensures IsDir(r, q) && !IsFile(t, q)
    {
      AboveChild(q, path, META);
    }
  }

  function Cleared(t: Tree, path: Path, now: int): Tree
    requires path != []
  {
    if IsDir(t, path) then Remove(t, path, now) else t
  }

  lemma ClearedIsElsewhere(t: Tree, path: Path, now: int)
    requires WellFormed(t) && path != []
    ensures WellFormed(Cleared(t, path, now))
    ensures OnlyAround(t, Cleared(t, path, now), path) && FilesElsewhere(t, Cleared(t, path, now), path)
  {
    if IsDir(t, path) { RemoveFrame(t, path, now); }
    AboveChild(Parent(path), Parent(path), path[|path| - 1]);
    assert path == Parent(path) + [path[|path| - 1]];
  }

  lemma RolledBackIsElsewhere(t: Tree, r: Tree, path: Path)
    requires t == r || RolledBack(t, r, path)
    ensures OnlyAround(t, r, path) && FilesElsewhere(t, r, path)
  {
  }

  lemma ElsewhereTwice(t: Tree, s: Tree, r: Tree, path: Path)
    requires OnlyAround(t, s, path) && FilesElsewhere(t, s, path)
    requires OnlyAround(s, r, path) && FilesElsewhere(s, r, path)
    ensures OnlyAround(t, r, path) && FilesElsewhere(t, r, path)
  {
  }

  lemma CommittedHolds(t: Tree, r: Tree, path: Path, parts: seq<Item>, bundleId: string, createdAt: string)
    requires WellFormed(t) && CanOpen(t, path)
    requires CommittedAs(t, r, path, parts, Meta(bundleId, createdAt, PartRows(parts)))
    ensures HoldsPayload(r, path, parts) && OnlyAround(t, r, path) && FilesElsewhere(t, r, path)
  {
    CommittedFilesElsewhere(t, r, path, parts, Meta(bundleId, createdAt, PartRows(parts)));
  }

  /** Delete the bundle that may be there, then write the new one. */
  method ReplaceBundle(
      backend: FilesystemBackend, path: Path, bundleId: string, createdAt: string, parts: seq<Item>,
      disk: nat -> Disk, now: int)
      returns (ok: bool)
    requires WellFormed(backend.tree) && path != []
    modifies backend`tree
    ensures WellFormed(backend.tree)
    ensures AllInside(parts) ==>
      && (ok <==> InboxWriteSucceeds(Cleared(old(backend.tree), path, now), path, parts, disk))
      && (ok ==> HoldsPayload(backend.tree, path, parts))
      && OnlyAround(old(backend.tree), backend.tree, path) && FilesElsewhere(old(backend.tree), backend.tree, path)
  {
    ghost var start := backend.tree;
    ClearedIsElsewhere(start, path, now);
    var found := backend.DeleteBundle(path, now);
    ghost var cleared := backend.tree;
    ok := WriteInboxBundle(backend, path, bundleId, createdAt, parts, disk, now);
    if AllInside(parts) {
      if ok {
        CommittedHolds(cleared, backend.tree, path, parts, bundleId, createdAt);
      } else {
        RolledBackIsElsewhere(cleared, backend.tree, path);
      }
      ElsewhereTwice(start, cleared, backend.tree, path);
    }
  }

  // ---- All targets of one label ----------------------------------------------

  /** No path is the data root itself. */
  predicate Proper(paths: seq<Path>) {
    forall i :: 0 <= i < |paths| ==> paths[i] != []
  }

  predicate Separate(p: Path, q: Path) {
    !Within(p, q) && !Within(q, p)
  }

  /** Distinct and not nested. */
  predicate AllSeparate(paths: seq<Path>) {
    forall i, j :: 0 <= i < j < |paths| ==> Separate(paths[i], paths[j])
  }

  predicate AwayFrom(others: seq<Path>, path: Path) {
    forall i :: 0 <= i < |others| ==> Separate(others[i], path)
  }

  /** The paths are apart, and the parts stay in the bundles. */
  predicate Undisturbed(paths: seq<Path>, parts: seq<Item>) {
    AllSeparate(paths) && AllInside(parts)
  }

  ghost predicate AllHold(t: Tree, paths: seq<Path>, parts: seq<Item>) {
    forall i :: 0 <= i < |paths| ==> HoldsPayload(t, paths[i], parts)
  }

  /** A write around one path leaves everything at a separate path as it is. */
  lemma AroundIsElsewhere(t: Tree, r: Tree, path: Path, other: Path)
    requires OnlyAround(t, r, path) && Separate(path, other)
    ensures SameBelow(t, r, other)
  {
    forall q | Within(other, q)
      ensures !Within(path, q) && !Above(q, path)
    {
      if Within(path, q) {
        AncestorsCompare(other, path, q);
      } else if Above(q, path) {
        WithinTransitive(other, q, path);
      }
    }
  }

  lemma OthersKeepThePayload(t: Tree, r: Tree, path: Path, others: seq<Path>, parts: seq<Item>)
    requires OnlyAround(t, r, path) && AllInside(parts) && AllHold(t, others, parts)
    requires AwayFrom(others, path)
    ensures AllHold(r, others, parts)
  {
    forall i | 0 <= i < |others|
      ensures HoldsPayload(r, others[i], parts)
    {
      AroundIsElsewhere(t, r, path, others[i]);
      PayloadStays(t, r, others[i], parts);
    }
  }

  /** The path is free to be written: directories at most on the way and at it, and no files beside the way. */
  ghost predicate Ready(t: Tree, path: Path) {
    path != [] && CanMkdirs(t, path) && forall a :: Above(a, path) ==> !HasDirectFile(t, a)
  }

  ghost predicate AllReady(t: Tree, paths: seq<Path>) {
    forall i :: 0 <= i < |paths| ==> Ready(t, paths[i])
  }

  /** The parts can be stored side by side and committed. */
  ghost predicate PartsFit(parts: seq<Item>) {
    parts != [] && Storable(parts) && RoomForManifest(parts)
  }

  lemma ReadyCanOpen(t: Tree, path: Path, now: int)
    requires WellFormed(t) && Ready(t, path)
    ensures CanOpen(Cleared(t, path, now), path)
  {
    var r := Cleared(t, path, now);
    assert path == Parent(path) + [path[|path| - 1]];
    if IsDir(t, path) { RemoveFrame(t, path, now); }
    assert Within(path, path);
    forall q | Within(q, Parent(path)) && q in r
      ensures r[q].Dir?
    {
      AboveChild(q, Parent(path), path[|path| - 1]);
    }
    forall a | Above(a, path)
      ensures !LooksLikeBundle(r, a)
    {
      NoFilesNoBundle(t, r, a);
    }
  }

  lemma NoFilesNoBundle(t: Tree, r: Tree, a: Path)
    requires !HasDirectFile(t, a) && forall q :: IsFile(r, q) ==> IsFile(t, q)
    ensures !LooksLikeBundle(r, a)
  {
    if HasMeta(r, a) { MetaIsDirectFile(r, a); }
  }

  lemma ReadyStays(t: Tree, r: Tree, path: Path, other: Path)
    requires FilesElsewhere(t, r, path) && Separate(path, other) && Ready(t, other)
    ensures Ready(r, other)
  {
    forall q | Within(q, other) && q in r
      ensures r[q].Dir?
    {
      if Within(path, q) { WithinTransitive(path, q, other); }
      assert !IsFile(t, q);
    }
    forall a, f | Above(a, other) && Child(a, f)
      ensures !IsFile(r, f)
    {
      assert !HasDirectFile(t, a);
      ChildIsJustBelow(a, f);
      if Above(path, f) {
        AboveChild(path, a, f[|a|]);
        WithinTransitive(path, a, other);
      }
    }
  }

  /** One target, while others that are apart from it already hold the payload. */
  method ReplaceAmong(
      backend: FilesystemBackend, ghost others: seq<Path>, path: Path, bundleId: string, createdAt: string,
      parts: seq<Item>, disk: nat -> Disk, now: int)
      returns (ok: bool)
    requires WellFormed(backend.tree) && path != []
    modifies backend`tree
    ensures WellFormed(backend.tree)
    ensures AllInside(parts) && ok ==> HoldsPayload(backend.tree, path, parts)
    ensures AllInside(parts) && AllHold(old(backend.tree), others, parts) && AwayFrom(others, path) ==>
      AllHold(backend.tree, others, parts)
    ensures Ready(old(backend.tree), path) && PartsFit(parts) && AllHealthy(disk, |parts| + 1) ==> ok
    ensures AllInside(parts) ==> FilesElsewhere(old(backend.tree), backend.tree, path)
  {
    ghost var t := backend.tree;
    ok := ReplaceBundle(backend, path, bundleId, createdAt, parts, disk, now);
    if Ready(t, path) { ReadyCanOpen(t, path, now); }
    if AllInside(parts) && AllHold(t, others, parts) && AwayFrom(others, path) {
      OthersKeepThePayload(t, backend.tree, path, others, parts);
    }
  }

  lemma OthersStayReady(t: Tree, r: Tree, path: Path, others: seq<Path>)
    requires FilesElsewhere(t, r, path) && AllReady(t, others)
    requires forall i :: 0 <= i < |others| ==> Separate(path, others[i])
    ensures AllReady(r, others)
  {
    forall i | 0 <= i < |others|
      ensures Ready(r, others[i])
    {
      ReadyStays(t, r, path, others[i]);
    }
  }

  /** The paths are separate, and each is free to be written. */
  ghost predicate WayOpen(t: Tree, paths: seq<Path>) {
    AllSeparate(paths) && AllReady(t, paths)
  }

  /** One of some separate paths is written: those after it stay ready, down to the last ones. */
  lemma NextStaysReady(t: Tree, r: Tree, todo: seq<Path>, i: nat, last: seq<Path>)
    requires i < |todo| && WayOpen(t, todo[i..]) && FilesElsewhere(t, r, todo[i])
    requires |last| <= |todo| - i - 1 && todo[|todo| - |last|..] == last
    ensures WayOpen(r, todo[i + 1..]) && AllReady(r, last)
  {
    var rest := todo[i + 1..];
    forall k | 0 <= k < |rest|
      ensures Separate(todo[i], rest[k]) && Ready(t, rest[k])
    {
      assert rest[k] == todo[i..][k + 1] && todo[i] == todo[i..][0];
    }
    OthersStayReady(t, r, todo[i], rest);
    forall k, l | 0 <= k < l < |rest|
      ensures Separate(rest[k], rest[l])
    {
      assert rest[k] == todo[i..][k + 1] && rest[l] == todo[i..][l + 1];
    }
    forall k | 0 <= k < |last|
      ensures Ready(r, last[k])
    {
      assert last[k] == rest[|rest| - |last| + k];
    }
  }

  /** Nothing stands in the way of any write. */
  ghost predicate DiskHolds(disk: nat -> nat -> Disk, targets: nat, parts: seq<Item>) {
    forall i: nat :: i < targets ==> AllHealthy(disk(i), |parts| + 1)
  }

  /** The first `i` targets are written. */
  ghost predicate Writing(
      t: Tree, earlier: seq<Path>, targets: seq<Path>, i: nat, coming: seq<Path>, free: bool, parts: seq<Item>)
    requires i <= |targets|
  {
    && (Undisturbed(earlier + targets, parts) ==> AllHold(t, earlier + targets[..i], parts))
    && (free ==> AllInside(parts) && WayOpen(t, (targets + coming)[i..]))
  }

  /** One round of the loop over the targets. */
  method WriteRound(
      backend: FilesystemBackend, ghost earlier: seq<Path>, targets: seq<Path>, i: nat, ghost coming: seq<Path>,
      ghost free: bool, bundleId: string, createdAt: string, parts: seq<Item>, disk: nat -> Disk, now: int)
      returns (ok: bool)
    requires i < |targets| && WellFormed(backend.tree) && targets[i] != []
    requires Writing(backend.tree, earlier, targets, i, coming, free, parts)
    modifies backend`tree
    ensures WellFormed(backend.tree)
    ensures ok ==> Writing(backend.tree, earlier, targets, i + 1, coming, free, parts)
    ensures Undisturbed(earlier + targets, parts) ==> AllHold(backend.tree, earlier, parts)
    ensures free ==> AllReady(backend.tree, coming)
    ensures free && PartsFit(parts) && AllHealthy(disk, |parts| + 1) ==> ok
  {
    ghost var t, todo := backend.tree, targets + coming;
    assert todo[i] == targets[i];
    if free { assert todo[i..][0] == targets[i]; }
    if Undisturbed(earlier + targets, parts) { BeforeIsSeparate(earlier, targets, i); }
    ok := ReplaceAmong(backend, earlier + targets[..i], targets[i], bundleId, createdAt, parts, disk, now);
    if Undisturbed(earlier + targets, parts) { HoldAfterOne(backend.tree, earlier, targets, i, ok, parts); }
    if free { NextStaysReady(t, backend.tree, todo, i, coming); }
  }

  /** All targets in turn; `earlier` are the paths served before, `coming` those of later labels. */
  method WriteTargets(
      backend: FilesystemBackend, ghost earlier: seq<Path>, targets: seq<Path>, ghost coming: seq<Path>,
      ids: nat -> string, createdAt: string, parts: seq<Item>, disk: nat -> nat -> Disk, now: int)
      returns (ok: bool)
    requires WellFormed(backend.tree) && Proper(targets)
    requires AllHold(backend.tree, earlier, parts)
    modifies backend`tree
    ensures WellFormed(backend.tree)
    ensures Undisturbed(earlier + targets, parts) ==> AllHold(backend.tree, earlier, parts)
    ensures Undisturbed(earlier + targets, parts) && ok ==> AllHold(backend.tree, earlier + targets, parts)
    ensures WayOpen(old(backend.tree), targets + coming) && AllInside(parts) ==> AllReady(backend.tree, coming)
    ensures WayOpen(old(backend.tree), targets + coming) && PartsFit(parts) && DiskHolds(disk, |targets|, parts) ==> ok
  {
    var i := 0;
    ghost var todo := targets + coming;
    ghost var free := AllInside(parts) && WayOpen(backend.tree, todo);
    assert earlier + targets[..0] == earlier && todo[0..] == todo;
    while i < |targets|
      invariant i <= |targets| && WellFormed(backend.tree)
      invariant Writing(backend.tree, earlier, targets, i, coming, free, parts)
    {
      ok := WriteRound(
        backend, earlier, targets, i, coming, free, ids(i), createdAt, parts, disk(i), now);
      if !ok { return false; }
      i := i + 1;
    }
    assert targets[..i] == targets && todo[i..] == coming;
    if Undisturbed(earlier + targets, parts) { KeepsEarlier(backend.tree, earlier, targets, parts); }
    return true;
  }

  lemma HoldAfterOne(t: Tree, earlier: seq<Path>, targets: seq<Path>, i: nat, ok: bool, parts: seq<Item>)
    requires i < |targets| && AllHold(t, earlier + targets[..i], parts)
    requires ok ==> HoldsPayload(t, targets[i], parts)
    ensures AllHold(t, earlier, parts)
    ensures ok ==> AllHold(t, earlier + targets[..i + 1], parts)
  {
    KeepsEarlier(t, earlier, targets[..i], parts);
    if ok { HoldOneMore(t, earlier, targets, i, parts); }
  }

  lemma BeforeIsSeparate(earlier: seq<Path>, targets: seq<Path>, i: nat)
    requires i < |targets| && AllSeparate(earlier + targets)
    ensures AwayFrom(earlier + targets[..i], targets[i])
  {
    var all := earlier + targets;
    forall k | 0 <= k < |earlier + targets[..i]|
      ensures Separate((earlier + targets[..i])[k], targets[i])
    {
      assert (earlier + targets[..i])[k] == all[k] && targets[i] == all[|earlier| + i];
    }
  }

  lemma KeepsEarlier(t: Tree, earlier: seq<Path>, more: seq<Path>, parts: seq<Item>)
    requires AllHold(t, earlier + more, parts)
    ensures AllHold(t, earlier, parts)
  {
    forall i | 0 <= i < |earlier|
      ensures HoldsPayload(t, earlier[i], parts)
    {
      assert (earlier + more)[i] == earlier[i];
    }
  }

  lemma HoldOneMore(t: Tree, earlier: seq<Path>, targets: seq<Path>, i: nat, parts: seq<Item>)
    requires i < |targets| && HoldsPayload(t, targets[i], parts)
    ensures AllHold(t, earlier + targets[..i], parts) ==> AllHold(t, earlier + targets[..i + 1], parts)
  {
    var sofar := earlier + targets[..i];
    OneMoreTarget(earlier, targets, i);
    if AllHold(t, sofar, parts) { HoldWithLast(t, sofar, targets[i], parts); }
  }

  lemma OneMoreTarget(earlier: seq<Path>, targets: seq<Path>, i: nat)
    requires i < |targets|
    ensures earlier + targets[..i + 1] == (earlier + targets[..i]) + [targets[i]]
  {
  }

  lemma HoldWithLast(t: Tree, sofar: seq<Path>, last: Path, parts: seq<Item>)
    requires AllHold(t, sofar, parts) && HoldsPayload(t, last, parts)
    ensures AllHold(t, sofar + [last], parts)
  {
    forall k | 0 <= k < |sofar + [last]|
      ensures HoldsPayload(t, (sofar + [last])[k], parts)
    {
      assert (sofar + [last])[k] == if k < |sofar| then sofar[k] else last;
    }
  }

  // ---- The broadcast ---------------------------------------------------------

  /** The paths written for an agent: none unless it resolves and the policy allows it. */
  function TargetsOf(agent: string, resolve: string -> Resolution, check: string -> Check): seq<Path> {
    if resolve(agent).Targets? && check(agent).Allowed? then resolve(agent).paths else []
  }

  function AllTargets(labels: seq<string>, resolve: string -> Resolution, check: string -> Check): seq<Path> {
    if labels == [] then [] else TargetsOf(labels[0], resolve, check) + AllTargets(labels[1..], resolve, check)
  }

  /** Leaving out the paths of a label that was not served. */
  lemma SeparateWithout(a: seq<Path>, b: seq<Path>, c: seq<Path>)
    requires AllSeparate(a + (b + c))
    ensures AllSeparate(a + b) && AllSeparate(a + c) && AllSeparate((a + b) + c)
  {
    var all := a + (b + c);
    assert (a + b) + c == all;
    forall i, j | 0 <= i < j < |a + b|
      ensures Separate((a + b)[i], (a + b)[j])
    {
      assert (a + b)[i] == all[i] && (a + b)[j] == all[j];
    }
    forall i, j | 0 <= i < j < |a + c|
      ensures Separate((a + c)[i], (a + c)[j])
    {
      var k := if i < |a| then i else i + |b|;
      var l := if j < |a| then j else j + |b|;
      assert (a + c)[i] == all[k] && (a + c)[j] == all[l];
    }
  }

  function DeniedLabels(denied: seq<Denial>): seq<string> {
    seq(|denied|, i requires 0 <= i < |denied| => denied[i].target)
  }

  function FailedLabels(failed: seq<Failure>): seq<string> {
    seq(|failed|, i requires 0 <= i < |failed| => failed[i].target)
  }

  /** What became of one agent. */
  datatype Outcome = Delivered | IsDenied(why: DenyReason) | IsFailed(cause: FailReason)

  predicate Fits(agent: string, outcome: Outcome, resolve: string -> Resolution, check: string -> Check) {
    match outcome
    case Delivered => resolve(agent).Targets? && check(agent).Allowed?
    case IsDenied(CheckError) => resolve(agent).Targets? && check(agent).CheckRaises?
    case IsDenied(AccessDenied) => resolve(agent).Targets? && check(agent).Refused?
    case IsFailed(ResolverError) => resolve(agent).ResolverRaises?
    case IsFailed(ResolverUnknown) => resolve(agent).Unknown?
    case IsFailed(WriteFailure) => resolve(agent).Targets? && check(agent).Allowed?
  }

  /** One agent; `earlier` are the paths at which earlier labels were served. */
  method ServeLabel(
      backend: FilesystemBackend, ghost earlier: seq<Path>, agent: string, ghost coming: seq<Path>,
      resolve: string -> Resolution, check: string -> Check, ids: nat -> string, createdAt: string,
      parts: seq<Item>, disk: nat -> nat -> Disk, now: int)
      returns (outcome: Outcome)
    requires WellFormed(backend.tree) && AllHold(backend.tree, earlier, parts)
    requires Proper(TargetsOf(agent, resolve, check))
    modifies backend`tree
    ensures WellFormed(backend.tree) && Fits(agent, outcome, resolve, check)
    ensures Undisturbed(earlier + TargetsOf(agent, resolve, check), parts) ==> AllHold(backend.tree, earlier, parts)
    ensures Undisturbed(earlier + TargetsOf(agent, resolve, check), parts) && outcome.Delivered? ==>
      AllHold(backend.tree, earlier + TargetsOf(agent, resolve, check), parts)
    ensures WayOpen(old(backend.tree), TargetsOf(agent, resolve, check) + coming) && AllInside(parts) ==>
      AllReady(backend.tree, coming)
    ensures
      (&& WayOpen(old(backend.tree), TargetsOf(agent, resolve, check) + coming)
       && PartsFit(parts) && DiskHolds(disk, |TargetsOf(agent, resolve, check)|, parts)) ==>
        outcome != IsFailed(WriteFailure)
  {
    assert [] + coming == coming;
    var resolved := resolve(agent);
    if resolved.ResolverRaises? { return IsFailed(ResolverError); }
    if resolved.Unknown? { return IsFailed(ResolverUnknown); }
    var allowed := check(agent);
    if allowed.CheckRaises? { return IsDenied(CheckError); }
    if allowed.Refused? { return IsDenied(AccessDenied); }
    var ok := WriteTargets(backend, earlier, resolved.paths, coming, ids, createdAt, parts, disk, now);
    return if ok then Delivered else IsFailed(WriteFailure);
  }

  /** The three lists of the report. */
  datatype Lists = Lists(delivered: seq<string>, denied: seq<Denial>, failed: seq<Failure>)

  function Noted(lists: Lists, agent: string, outcome: Outcome): Lists {
    match outcome
    case Delivered => lists.(delivered := lists.delivered + [agent])
    case IsDenied(why) => lists.(denied := lists.denied + [Denial(agent, why)])
    case IsFailed(cause) => lists.(failed := lists.failed + [Failure(agent, cause)])
  }

  /** The lists split the labels: none lost, repeated or invented. */
  predicate Splits(lists: Lists, labels: seq<string>) {
    multiset(lists.delivered) + multiset(DeniedLabels(lists.denied)) + multiset(FailedLabels(lists.failed))
      == multiset(labels)
  }

  /** Each label is on its list for the reason stated there. */
  predicate Rightly(lists: Lists, resolve: string -> Resolution, check: string -> Check) {
    && (forall k :: 0 <= k < |lists.delivered| ==> Fits(lists.delivered[k], Delivered, resolve, check))
    && (forall k :: 0 <= k < |lists.denied| ==>
          Fits(lists.denied[k].target, IsDenied(lists.denied[k].reason), resolve, check))
    && (forall k :: 0 <= k < |lists.failed| ==>
          Fits(lists.failed[k].target, IsFailed(lists.failed[k].reason), resolve, check))
  }

  lemma NotedSplits(lists: Lists, labels: seq<string>, i: nat, outcome: Outcome)
    requires i < |labels| && Splits(lists, labels[..i])
    ensures Splits(Noted(lists, labels[i], outcome), labels[..i + 1])
  {
    assert labels[..i + 1] == labels[..i] + [labels[i]];
    match outcome
    case Delivered =>
    case IsDenied(why) =>
      assert DeniedLabels(lists.denied + [Denial(labels[i], why)]) == DeniedLabels(lists.denied) + [labels[i]];
    case IsFailed(cause) =>
      assert FailedLabels(lists.failed + [Failure(labels[i], cause)]) == FailedLabels(lists.failed) + [labels[i]];
  }

  lemma NotedRightly(
      lists: Lists, agent: string, outcome: Outcome, resolve: string -> Resolution, check: string -> Check)
    requires Rightly(lists, resolve, check) && Fits(agent, outcome, resolve, check)
    ensures Rightly(Noted(lists, agent, outcome), resolve, check)
  {
  }

  /** The paths of the delivered labels all hold the payload. */
  ghost predicate DeliveredHold(
      t: Tree, delivered: seq<string>, parts: seq<Item>, resolve: string -> Resolution, check: string -> Check)
  {
    forall k :: 0 <= k < |delivered| ==> AllHold(t, TargetsOf(delivered[k], resolve, check), parts)
  }

  ghost predicate AllServed(
      delivered: seq<string>, served: seq<Path>, resolve: string -> Resolution, check: string -> Check)
  {
    forall k :: 0 <= k < |delivered| ==> Among(TargetsOf(delivered[k], resolve, check), served)
  }

  predicate Among(paths: seq<Path>, served: seq<Path>) {
    forall i :: 0 <= i < |paths| ==> paths[i] in served
  }

  lemma ServedHold(
      t: Tree, delivered: seq<string>, served: seq<Path>, parts: seq<Item>,
      resolve: string -> Resolution, check: string -> Check)
    requires AllServed(delivered, served, resolve, check) && AllHold(t, served, parts)
    ensures DeliveredHold(t, delivered, parts, resolve, check)
  {
    forall k, i | 0 <= k < |delivered| && 0 <= i < |TargetsOf(delivered[k], resolve, check)|
      ensures HoldsPayload(t, TargetsOf(delivered[k], resolve, check)[i], parts)
    {
      assert Among(TargetsOf(delivered[k], resolve, check), served);
      var j :| 0 <= j < |served| && served[j] == TargetsOf(delivered[k], resolve, check)[i];
    }
  }

  lemma OneMoreServed(
      delivered: seq<string>, served: seq<Path>, agent: string, resolve: string -> Resolution, check: string -> Check)
    requires AllServed(delivered, served, resolve, check)
    ensures AllServed(delivered + [agent], served + TargetsOf(agent, resolve, check), resolve, check)
  {
    var more := served + TargetsOf(agent, resolve, check);
    forall k | 0 <= k < |delivered + [agent]|
      ensures Among(TargetsOf((delivered + [agent])[k], resolve, check), more)
    {
      if k < |delivered| { assert Among(TargetsOf(delivered[k], resolve, check), served); }
    }
  }

  /** The result tag as a function of the three counts. */
  function TagOf(visibilityFailed: bool, delivered: nat, others: nat): Tag {
    if visibilityFailed then ErrorTag
    else if delivered + others == 0 then Noop
    else if delivered > 0 && others > 0 then Partial
    else if delivered > 0 then Success
    else ErrorTag
  }

  /** The paths served so far, those of the labels to come, and what the former hold. */
  ghost predicate OnCourse(
      t: Tree, served: seq<Path>, delivered: seq<string>, coming: seq<string>, parts: seq<Item>,
      resolve: string -> Resolution, check: string -> Check)
  {
    && AllInside(parts) && AllHold(t, served, parts) && AllServed(delivered, served, resolve, check)
    && AllSeparate(served + AllTargets(coming, resolve, check))
  }

  lemma NextLabel(
      served: seq<Path>, labels: seq<string>, i: nat, resolve: string -> Resolution, check: string -> Check)
    requires i < |labels| && AllSeparate(served + AllTargets(labels[i..], resolve, check))
    ensures
      var paths := TargetsOf(labels[i], resolve, check);
      var coming := AllTargets(labels[i + 1..], resolve, check);
      AllSeparate(served + paths) && AllSeparate(served + coming) && AllSeparate((served + paths) + coming)
  {
    assert labels[i..][1..] == labels[i + 1..];
    SeparateWithout(served, TargetsOf(labels[i], resolve, check), AllTargets(labels[i + 1..], resolve, check));
  }

  lemma LastAreSeparate(labels: seq<string>, i: nat, resolve: string -> Resolution, check: string -> Check)
    requires i < |labels|
    requires AllSeparate(TargetsOf(labels[i], resolve, check) + AllTargets(labels[i + 1..], resolve, check))
    ensures AllSeparate(AllTargets(labels[i + 1..], resolve, check))
  {
    var paths, coming := TargetsOf(labels[i], resolve, check), AllTargets(labels[i + 1..], resolve, check);
    assert [] + (paths + coming) == paths + coming && [] + coming == coming;
    SeparateWithout([], paths, coming);
  }

  /** One round of the loop. */
  method ServeNext(
      backend: FilesystemBackend, ghost served: seq<Path>, ghost delivered: seq<string>, labels: seq<string>, i: nat,
      resolve: string -> Resolution, check: string -> Check, ids: nat -> string, createdAt: string,
      parts: seq<Item>, disk: nat -> nat -> Disk, now: int)
      returns (outcome: Outcome, ghost servedNow: seq<Path>)
    requires WellFormed(backend.tree) && i < |labels|
    requires Proper(TargetsOf(labels[i], resolve, check))
    modifies backend`tree
    ensures WellFormed(backend.tree) && Fits(labels[i], outcome, resolve, check)
    ensures OnCourse(old(backend.tree), served, delivered, labels[i..], parts, resolve, check) ==>
      OnCourse(backend.tree, servedNow, if outcome.Delivered? then delivered + [labels[i]] else delivered,
               labels[i + 1..], parts, resolve, check)
    ensures WayOpen(old(backend.tree), AllTargets(labels[i..], resolve, check)) && AllInside(parts) ==>
      WayOpen(backend.tree, AllTargets(labels[i + 1..], resolve, check))
    ensures
      (&& WayOpen(old(backend.tree), AllTargets(labels[i..], resolve, check))
       && PartsFit(parts) && DiskHolds(disk, |TargetsOf(labels[i], resolve, check)|, parts)) ==>
        outcome != IsFailed(WriteFailure)
  {
    ghost var good := OnCourse(backend.tree, served, delivered, labels[i..], parts, resolve, check);
    ghost var earlier := if good then served else [];
    ghost var coming := AllTargets(labels[i + 1..], resolve, check);
    assert labels[i..][1..] == labels[i + 1..];
    if AllSeparate(TargetsOf(labels[i], resolve, check) + coming) { LastAreSeparate(labels, i, resolve, check); }
    outcome := ServeLabel(backend, earlier, labels[i], coming, resolve, check, ids, createdAt, parts, disk, now);
    servedNow := if outcome.Delivered? then served + TargetsOf(labels[i], resolve, check) else served;
    if good {
      NextLabel(served, labels, i, resolve, check);
      OneMoreServed(delivered, served, labels[i], resolve, check);
    }
  }

  /** All paths are separate and free, the parts fit, and the disk takes everything. */
  ghost predicate NothingInTheWay(
      t: Tree, labels: seq<string>, parts: seq<Item>, disk: nat -> nat -> nat -> Disk,
      resolve: string -> Resolution, check: string -> Check)
  {
    && WayOpen(t, AllTargets(labels, resolve, check)) && PartsFit(parts)
    && forall i: nat :: i < |labels| ==> DiskHolds(disk(i), |TargetsOf(labels[i], resolve, check)|, parts)
  }

  predicate NoWriteFailed(lists: Lists) {
    forall k :: 0 <= k < |lists.failed| ==> !lists.failed[k].reason.WriteFailure?
  }

  lemma NotedWriteFailure(lists: Lists, agent: string, outcome: Outcome)
    requires NoWriteFailed(lists) && outcome != IsFailed(WriteFailure)
    ensures NoWriteFailed(Noted(lists, agent, outcome))
  {
  }

  /** What holds once the first `i` labels are served. */
  ghost predicate Serving(
      t: Tree, lists: Lists, labels: seq<string>, i: nat, served: seq<Path>, apart: bool, free: bool,
      parts: seq<Item>, resolve: string -> Resolution, check: string -> Check)
    requires i <= |labels|
  {
    && Splits(lists, labels[..i]) && Rightly(lists, resolve, check)
    && (free ==> WayOpen(t, AllTargets(labels[i..], resolve, check)) && NoWriteFailed(lists))
    && (apart ==> OnCourse(t, served, lists.delivered, labels[i..], parts, resolve, check))
  }

  /** The lists after one more label. */
  lemma NotedServing(
      t: Tree, r: Tree, lists: Lists, labels: seq<string>, i: nat, outcome: Outcome, served: seq<Path>,
      servedNow: seq<Path>, apart: bool, free: bool, parts: seq<Item>,
      resolve: string -> Resolution, check: string -> Check)
    requires i < |labels| && Serving(t, lists, labels, i, served, apart, free, parts, resolve, check)
    requires Fits(labels[i], outcome, resolve, check)
    requires free ==> WayOpen(r, AllTargets(labels[i + 1..], resolve, check)) && outcome != IsFailed(WriteFailure)
    requires apart ==> OnCourse(
      r, servedNow, if outcome.Delivered? then lists.delivered + [labels[i]] else lists.delivered,
      labels[i + 1..], parts, resolve, check)
    ensures Serving(r, Noted(lists, labels[i], outcome), labels, i + 1, servedNow, apart, free, parts, resolve, check)
  {
    NotedSplits(lists, labels, i, outcome);
    NotedRightly(lists, labels[i], outcome, resolve, check);
    if free { NotedWriteFailure(lists, labels[i], outcome); }
  }

  /** One round of the loop over the labels. */
  method ServeRound(
      backend: FilesystemBackend, lists: Lists, labels: seq<string>, i: nat, ghost served: seq<Path>,
      ghost apart: bool, ghost free: bool, resolve: string -> Resolution, check: string -> Check,
      ids: nat -> string, createdAt: string, parts: seq<Item>, disk: nat -> nat -> Disk, now: int)
      returns (more: Lists, ghost servedNow: seq<Path>)
    requires WellFormed(backend.tree) && i < |labels| && Proper(TargetsOf(labels[i], resolve, check))
    requires Serving(backend.tree, lists, labels, i, served, apart, free, parts, resolve, check)
    requires free ==> PartsFit(parts) && DiskHolds(disk, |TargetsOf(labels[i], resolve, check)|, parts)
    modifies backend`tree
    ensures WellFormed(backend.tree)
    ensures Serving(backend.tree, more, labels, i + 1, servedNow, apart, free, parts, resolve, check)
  {
    ghost var t := backend.tree;
    var outcome;
    outcome, servedNow := ServeNext(
      backend, served, lists.delivered, labels, i, resolve, check, ids, createdAt, parts, disk, now);
    more := Noted(lists, labels[i], outcome);
    NotedServing(
      t, backend.tree, lists, labels, i, outcome, served, servedNow, apart, free, parts, resolve, check);
  }

  /** The fan-out loop over the visible labels. */
  method ServeAll(
      backend: FilesystemBackend, labels: seq<string>, resolve: string -> Resolution, check: string -> Check,
      ids: nat -> nat -> string, createdAt: string, parts: seq<Item>, disk: nat -> nat -> nat -> Disk, now: int)
      returns (lists: Lists)
    requires WellFormed(backend.tree) && forall agent: string :: Proper(TargetsOf(agent, resolve, check))
    modifies backend`tree
    ensures Splits(lists, labels) && Rightly(lists, resolve, check)
    ensures Undisturbed(AllTargets(labels, resolve, check), parts) ==>
      DeliveredHold(backend.tree, lists.delivered, parts, resolve, check)
    ensures NothingInTheWay(old(backend.tree), labels, parts, disk, resolve, check) ==> NoWriteFailed(lists)
  {
    lists := Lists([], [], []);
    ghost var apart, served: seq<Path> := Undisturbed(AllTargets(labels, resolve, check), parts), [];
    ghost var free := NothingInTheWay(backend.tree, labels, parts, disk, resolve, check);
    assert labels[0..] == labels && labels[..0] == [];
    assert served + AllTargets(labels, resolve, check) == AllTargets(labels, resolve, check);
    var i := 0;
    while i < |labels|
      invariant i <= |labels| && WellFormed(backend.tree)
      invariant Serving(backend.tree, lists, labels, i, served, apart, free, parts, resolve, check)
    {
      lists, served := ServeRound(
        backend, lists, labels, i, served, apart, free, resolve, check, ids(i), createdAt, parts, disk(i), now);
      i := i + 1;
    }
    assert labels[..i] == labels;
    if apart { ServedHold(backend.tree, lists.delivered, served, parts, resolve, check); }
  }

  /** `visible` is what the visibility policy lets through, `None` if it raised. Above the cap nothing is written. */
  method Broadcast(
      backend: FilesystemBackend, candidates: seq<string>, maxTargets: int, visible: Option<seq<string>>,
      resolve: string -> Resolution, check: string -> Check, ids: nat -> nat -> string, createdAt: string,
      parts: seq<Item>, disk: nat -> nat -> nat -> Disk, now: int)
      returns (r: Option<Report>)
    requires WellFormed(backend.tree) && forall agent: string :: Proper(TargetsOf(agent, resolve, check))
    modifies backend`tree
    ensures r.None? <==> |candidates| > maxTargets
    ensures r.None? ==> backend.tree == old(backend.tree)
    ensures r.Some? ==>
      var labels := if visible.Some? then visible.value else [];
      && Splits(r.value.lists, labels) && Rightly(r.value.lists, resolve, check)
      && r.value.tag == TagOf(visible.None?, |r.value.lists.delivered|,
                              |r.value.lists.denied| + |r.value.lists.failed|)
      && (Undisturbed(AllTargets(labels, resolve, check), parts) ==>
            DeliveredHold(backend.tree, r.value.lists.delivered, parts, resolve, check))
      && (NothingInTheWay(old(backend.tree), labels, parts, disk, resolve, check) ==>
            NoWriteFailed(r.value.lists))
  {
    if |candidates| > maxTargets { return None; }
    var labels := if visible.Some? then visible.value else [];
    var lists := ServeAll(backend, labels, resolve, check, ids, createdAt, parts, disk, now);
    SplitCounts(lists, labels);
    return Some(Report(lists, ResultTag(visible.None?, labels, lists)));
  }

  /** The chain of tests that chooses the tag. */
  function ResultTag(visibilityFailed: bool, labels: seq<string>, lists: Lists): Tag {
    if visibilityFailed then ErrorTag
    else if labels == [] then Noop
    else if lists.delivered != [] && (lists.denied != [] || lists.failed != []) then Partial
    else if lists.delivered != [] then Success
    else ErrorTag
  }

  lemma SplitCounts(lists: Lists, labels: seq<string>)
    requires Splits(lists, labels)
    ensures |lists.delivered| + |lists.denied| + |lists.failed| == |labels|
  {
    assert |multiset(lists.delivered)| == |lists.delivered| && |multiset(labels)| == |labels|;
    assert |multiset(DeniedLabels(lists.denied))| == |lists.denied|;
    assert |multiset(FailedLabels(lists.failed))| == |lists.failed|;
  }
}
