/** The batch upload: the stream, the bridge and the commit, all or nothing unless the bridge hangs. */
module BatchUpload {
  import opened Strings
  import opened Tree
  import opened BundleTree
  import opened Manifest
  import opened Storage
  import opened BundleContents
  import opened Upload
  import opened UploadBridge
  import opened Wrappers

  /**
   * The request body as the bridge sees it: how many items it puts into the queue, how many of
   * them the parser has taken when it asks for its write `j` or leaves after as many, and whether
   * receiving the body ends in an error.
   */
  datatype Body = Body(items: nat, taken: nat -> nat, fails: bool)

  ghost function PlanOf(
      body: Body, entries: seq<TarEntry>, ending: TarEnd, files: seq<FileEntry>, perFileMax: Option<int>,
      disk: nat -> Disk): Plan
  {
    Plan(body.items, body.taken, Asks(entries, 0, files, EffectiveCap(perFileMax), disk),
         Returns(entries, ending, files, EffectiveCap(perFileMax), disk))
  }

  /** `stop` is what some schedule of the bridge makes of this upload. */
  ghost predicate Scheduled(plan: Plan, stop: Stop) {
    ValidPlan(plan) && Possible(plan, stop)
  }

  /**
   * The request hung, and the bundle is there, neither committed nor rolled back: with the items
   * before the write that never comes, or with all of them after an accepted archive.
   */
  ghost predicate LeftOpen(
      t: Tree, r: Tree, path: Path, entries: seq<TarEntry>, stop: Stop, returned: bool, now: int)
  {
    && WellFormed(r) && IsDir(r, path) && SameOutside(OpenTree(t, path, now), r, path)
    && (stop.AtWrite? ==> stop.j <= |entries| && Holds(r, path, Items(entries)[..stop.j]))
    && (stop.AtEnd? && returned ==> Holds(r, path, Items(entries)))
  }

  /**
   * `None` if the request never ends. It ends under every schedule exactly if the body fits, and
   * if it ends, the upload is all or nothing.
   */
  method UploadBundle(
      backend: FilesystemBackend, path: Path, bundleId: string, createdAt: string, files: seq<FileEntry>,
      entries: seq<TarEntry>, ending: TarEnd, perFileMax: Option<int>, body: Body, disk: nat -> Disk, stop: Stop,
      now: int)
      returns (r: Option<Result<nat, UploadError>>)
    requires WellFormed(backend.tree) && path != [] && NamesInside(files)
    requires Scheduled(PlanOf(body, entries, ending, files, perFileMax, disk), stop)
    modifies backend`tree
    ensures r.None? <==> CanOpen(old(backend.tree), path) && !stop.Never?
    ensures Fits(PlanOf(body, entries, ending, files, perFileMax, disk)) ==> r.Some?
    ensures r.None? ==>
      LeftOpen(old(backend.tree), backend.tree, path, entries, stop,
               Returns(entries, ending, files, EffectiveCap(perFileMax), disk), now)
    ensures r.Some? ==>
      (r.value.Ok? <==>
         UploadSucceeds(old(backend.tree), path, files, entries, ending, perFileMax, disk) && !body.fails)
    ensures r.Some? && r.value.Ok? ==>
      && CommittedAs(old(backend.tree), backend.tree, path, Items(entries), Meta(bundleId, createdAt, files))
      && r.value.value == BytesIn(Items(entries))
      && forall i :: 0 <= i < |entries| ==>
           |entries[i].data| <= if perFileMax.Some? then perFileMax.value else 104_857_600
    ensures r.Some? && r.value.Err? ==>
      backend.tree == old(backend.tree) || RolledBack(old(backend.tree), backend.tree, path)
    ensures !CanOpen(old(backend.tree), path) ==> r.Some? && r.value.Err? && r.value.error.CannotOpen?
    ensures r.Some? && r.value.Err? && CanOpen(old(backend.tree), path) ==>
      UploadFault(r.value.error, files, entries, ending, perFileMax, body, disk)
  {
    PossibleIff(PlanOf(body, entries, ending, files, perFileMax, disk), stop);
    var attempt := backend.OpenBundleWrite(path, now);
    if attempt.Err? { return Some(Err(CannotOpen(attempt.error))); }
    OpenedHoldsNothing(old(backend.tree), path, now);
    r := CompleteUpload(
      attempt.value, old(backend.tree), Meta(bundleId, createdAt, files), entries, ending, perFileMax, body, disk,
      stop, now);
    if r.Some? && r.value.Ok? { FilesWithinCap(entries, files, perFileMax); }
  }

  lemma FilesWithinCap(entries: seq<TarEntry>, files: seq<FileEntry>, perFileMax: Option<int>)
    requires TarAccepted(entries, files, EffectiveCap(perFileMax))
    ensures forall i :: 0 <= i < |entries| ==>
      |entries[i].data| <= if perFileMax.Some? then perFileMax.value else 104_857_600
  {
    forall i | 0 <= i < |entries|
      ensures |entries[i].data| <= if perFileMax.Some? then perFileMax.value else 104_857_600
    {
      assert EntryPasses(entries[i], files, EffectiveCap(perFileMax));
    }
  }

  /** The error of an upload that was opened is that of a fault that is there. */
  ghost predicate UploadFault(
      error: UploadError, files: seq<FileEntry>, entries: seq<TarEntry>, ending: TarEnd, perFileMax: Option<int>,
      body: Body, disk: nat -> Disk)
  {
    var cap := EffectiveCap(perFileMax);
    if error.CommitFailed? then Returns(entries, ending, files, cap, disk) && !body.fails
    else if error.BodyBroken? then Returns(entries, ending, files, cap, disk) && body.fails
    else StreamFault(error, entries, ending, files, cap, disk)
  }

  /** Once the parser has returned, only the manifest can be refused. */
  lemma SucceedsIff(
      t: Tree, path: Path, files: seq<FileEntry>, entries: seq<TarEntry>, ending: TarEnd, perFileMax: Option<int>,
      disk: nat -> Disk)
    requires CanOpen(t, path)
    ensures UploadSucceeds(t, path, files, entries, ending, perFileMax, disk) <==>
      && Returns(entries, ending, files, EffectiveCap(perFileMax), disk)
      && DeclaredAsWritten(files, WrittenBy(Items(entries))) && RoomForManifest(Items(entries))
      && disk(|entries|).Healthy?
  {
    if Returns(entries, ending, files, EffectiveCap(perFileMax), disk) {
      TarCommits(entries, files, EffectiveCap(perFileMax));
    }
  }

  /** Stream the entries into the open writer, join the pump, then commit; any failure aborts. */
  method CompleteUpload(
      writer: FilesystemBundleWriter, ghost before: Tree, meta: Meta, entries: seq<TarEntry>, ending: TarEnd,
      perFileMax: Option<int>, body: Body, disk: nat -> Disk, stop: Stop, now: int)
      returns (r: Option<Result<nat, UploadError>>)
    requires WellFormed(before) && CanOpen(before, writer.dir) && writer.dir != []
    requires writer.backend.tree == OpenTree(before, writer.dir, now) && JustOpened(writer) && NamesInside(meta.files)
    requires stop.AtWrite? ==> stop.j < Asks(entries, 0, meta.files, EffectiveCap(perFileMax), disk)
    modifies writer, writer.backend`tree
    ensures r.None? <==> !stop.Never?
    ensures r.None? ==>
      && LeftOpen(before, writer.backend.tree, writer.dir, entries, stop,
                  Returns(entries, ending, meta.files, EffectiveCap(perFileMax), disk), now)
      && !writer.committed
    ensures r.Some? ==>
      (r.value.Ok? <==>
         UploadSucceeds(before, writer.dir, meta.files, entries, ending, perFileMax, disk) && !body.fails)
    ensures r.Some? && r.value.Ok? ==>
      && CommittedAs(before, writer.backend.tree, writer.dir, Items(entries), meta)
      && r.value.value == BytesIn(Items(entries))
    ensures r.Some? && r.value.Err? ==>
      && RolledBack(before, writer.backend.tree, writer.dir)
      && UploadFault(r.value.error, meta.files, entries, ending, perFileMax, body, disk)
  {
    var streamed := StreamTarIntoWriter(writer, entries, ending, meta.files, perFileMax, disk, stop, now);
    if streamed.None? || stop.AtEnd? { return None; }
    var finished := FinishUpload(writer, before, meta, entries, ending, perFileMax, streamed.value, body, disk, now);
    return Some(finished);
  }

  /** What became of the parser and of the body decides between commit and abort. */
  method FinishUpload(
      writer: FilesystemBundleWriter, ghost before: Tree, meta: Meta, entries: seq<TarEntry>,
      ghost ending: TarEnd, ghost perFileMax: Option<int>, streamed: Result<nat, UploadError>, body: Body,
      disk: nat -> Disk, now: int)
      returns (r: Result<nat, UploadError>)
    requires WellFormed(before) && CanOpen(before, writer.dir) && writer.dir != [] && !writer.committed
    requires WellFormed(writer.backend.tree) && IsDir(writer.backend.tree, writer.dir)
    requires SameOutside(OpenTree(before, writer.dir, now), writer.backend.tree, writer.dir)
    requires streamed.Ok? <==> Returns(entries, ending, meta.files, EffectiveCap(perFileMax), disk)
    requires streamed.Ok? ==> HasStored(writer, Items(entries)) && streamed.value == BytesIn(Items(entries))
    requires streamed.Err? ==> StreamFault(streamed.error, entries, ending, meta.files, EffectiveCap(perFileMax), disk)
    modifies writer, writer.backend`tree
    ensures
      r.Ok? <==> UploadSucceeds(before, writer.dir, meta.files, entries, ending, perFileMax, disk) && !body.fails
    ensures r.Ok? ==>
      && CommittedAs(before, writer.backend.tree, writer.dir, Items(entries), meta)
      && r.value == BytesIn(Items(entries))
    ensures r.Err? ==>
      && RolledBack(before, writer.backend.tree, writer.dir)
      && UploadFault(r.error, meta.files, entries, ending, perFileMax, body, disk)
  {
    SucceedsIff(before, writer.dir, meta.files, entries, ending, perFileMax, disk);
    var stored := streamed.Ok? && !body.fails;
    var settled := Settle(writer, true, before, now, Items(entries), stored, meta, disk(|entries|), now);
    if streamed.Err? { return streamed; }
    if body.fails { return Err(BodyBroken); }
    if settled.value.Err? { return Err(CommitFailed(settled.value.error)); }
    return streamed;
  }

  // ---- The per-file cap ------------------------------------------------------

  /** A whole entry as it was declared, whatever its size. */
  predicate AsDeclared(e: TarEntry, files: seq<FileEntry>) {
    e.regular && |e.data| == e.size && FileEntry(e.name, e.size) in files
  }

  /** The first `k` entries are as declared and within the cap, and stored. */
  ghost predicate StoredUpTo(entries: seq<TarEntry>, k: nat, files: seq<FileEntry>, cap: int, disk: nat -> Disk)
    requires k <= |entries|
  {
    && (forall i :: 0 <= i < k ==> AsDeclared(entries[i], files) && entries[i].size <= cap)
    && Storable(Items(entries)[..k]) && AllHealthy(disk, k)
  }

  /** Of an archive whose entries are as declared, the first one above the cap is what the upload is refused for. */
  lemma OversizeIsRefused(
      t: Tree, path: Path, files: seq<FileEntry>, entries: seq<TarEntry>, ending: TarEnd, perFileMax: Option<int>,
      body: Body, disk: nat -> Disk, k: nat, error: UploadError)
    requires DistinctNames(files) && k < |entries|
    requires
      var cap := if perFileMax.Some? then perFileMax.value else 104_857_600;
      StoredUpTo(entries, k, files, cap, disk) && AsDeclared(entries[k], files) && entries[k].size > cap
    ensures !UploadSucceeds(t, path, files, entries, ending, perFileMax, disk)
    ensures UploadFault(error, files, entries, ending, perFileMax, body, disk) ==>
      error == PerFileCap(if perFileMax.Some? then perFileMax.value else 104_857_600, entries[k].size)
  {
    var cap := EffectiveCap(perFileMax);
    forall i | 0 <= i <= k
      ensures EntryError(entries[i], files, cap) ==
        if entries[i].size > cap then Some(PerFileCap(cap, entries[i].size)) else None
    {
      DeclaredEntry(entries[i], files, cap);
    }
    assert ThroughTo(entries, k, files, cap, disk);
    if UploadFault(error, files, entries, ending, perFileMax, body, disk) {
      FirstFaultCounts(entries, ending, files, cap, disk, k, error);
    }
  }

  lemma DeclaredEntry(e: TarEntry, files: seq<FileEntry>, cap: int)
    requires DistinctNames(files) && AsDeclared(e, files)
    ensures EntryError(e, files, cap) == if e.size > cap then Some(PerFileCap(cap, e.size)) else None
  {
    assert FileEntry(e.name, e.size).name in NamesOf(files);
    ByNameRow(files, FileEntry(e.name, e.size));
  }

  /** The first entry that is refused decides about the error. */
  lemma FirstFaultCounts(
      entries: seq<TarEntry>, ending: TarEnd, files: seq<FileEntry>, cap: int, disk: nat -> Disk, k: nat,
      error: UploadError)
    requires k < |entries| && ThroughTo(entries, k, files, cap, disk) && !EntryPasses(entries[k], files, cap)
    requires StreamFault(error, entries, ending, files, cap, disk)
    ensures EntryError(entries[k], files, cap) == Some(error)
  {
    assert !AllPass(entries, |entries|, files, cap);
    forall i: nat | i < |entries|
      ensures !(ThroughTo(entries, i, files, cap, disk) && StoreFails(entries, i, files, cap, disk))
      ensures ThroughTo(entries, i, files, cap, disk) && EntryError(entries[i], files, cap).Some? ==> i == k
    {
      if i < k { NoFaultBefore(entries, i, k, files, cap, disk); }
    }
  }

  lemma NoFaultBefore(entries: seq<TarEntry>, i: nat, k: nat, files: seq<FileEntry>, cap: int, disk: nat -> Disk)
    requires i < k <= |entries| && ThroughTo(entries, k, files, cap, disk)
    ensures !StoreFails(entries, i, files, cap, disk) && EntryError(entries[i], files, cap).None?
  {
    assert Items(entries)[..k][..i + 1] == Items(entries)[..i + 1];
    StorablePrefix(Items(entries)[..k], i + 1);
  }
}
