/** Batch and inline uploads: checked entries into a writer, then a commit, or an abort. */
module Upload {
  import opened Strings
  import opened Sorting
  import opened Tree
  import opened BundleTree
  import opened Manifest
  import opened Storage
  import opened BundleContents
  import opened Wrappers
  import opened UploadBridge

  /** A tar member: `data` is what reading its body yields. */
  datatype TarEntry = TarEntry(name: string, regular: bool, size: nat, data: Bytes)

  /** How iterating the archive ends: at its end, or with a TarError. */
  datatype TarEnd = EndOfArchive | TarBroken

  datatype Violation = NonRegularEntry | ExtraFile | WrongSize | MissingFile | BadEncoding

  datatype UploadError =
    | Violated(why: Violation, name: string)
    | TarParseError
    | PerFileCap(limit: int, observed: int)
    | CannotOpen(reason: OpenError)
    | WriteFailed(write: WriteError)
    | CommitFailed(commit: CommitError)
    | BodyBroken

  const DEFAULT_PER_FILE_MAX: int := 100 * 1024 * 1024

  function EffectiveCap(perFileMax: Option<int>): int {
    if perFileMax.Some? then perFileMax.value else DEFAULT_PER_FILE_MAX
  }

  /** `{f["name"]: f for f in files}`: of two rows with one name the later stays. */
  function ByName(files: seq<FileEntry>): (m: map<string, int>)
    ensures m.Keys == NamesOf(files)
  {
    if files == [] then map[]
    else
      var n := |files| - 1;
      assert files == files[..n] + [files[n]];
      assert NamesOf(files) == NamesOf(files[..n]) + {files[n].name};
      ByName(files[..n])[files[n].name := files[n].size]
  }

  predicate DistinctNames(files: seq<FileEntry>) {
    forall i, j :: 0 <= i < j < |files| ==> files[i].name != files[j].name
  }

  function Items(entries: seq<TarEntry>): seq<Item> {
    seq(|entries|, i requires 0 <= i < |entries| => Item(entries[i].name, entries[i].data))
  }

  function BytesIn(items: seq<Item>): nat {
    if items == [] then 0 else BytesIn(items[..|items| - 1]) + |items[|items| - 1].data|
  }

  predicate EntryPasses(e: TarEntry, files: seq<FileEntry>, cap: int) {
    && e.regular && e.name in ByName(files) && e.size == ByName(files)[e.name]
    && e.size <= cap && |e.data| == e.size
  }

  predicate TarAccepted(entries: seq<TarEntry>, files: seq<FileEntry>, cap: int) {
    && (forall i :: 0 <= i < |entries| ==> EntryPasses(entries[i], files, cap))
    && (forall f <- files :: exists i :: 0 <= i < |entries| && entries[i].name == f.name)
  }

  predicate AllHealthy(disk: nat -> Disk, n: nat) {
    forall i :: 0 <= i < n ==> disk(i).Healthy?
  }

  /** A writer whose directory is as the open left it. */
  ghost predicate JustOpened(writer: FilesystemBundleWriter)
    reads writer, writer.backend
  {
    Holds(writer.backend.tree, writer.dir, []) && writer.written == map[] && !writer.committed
  }

  /** The writer has stored exactly these items. */
  ghost predicate HasStored(writer: FilesystemBundleWriter, items: seq<Item>)
    reads writer, writer.backend
  {
    && Holds(writer.backend.tree, writer.dir, items)
    && writer.written == WrittenBy(items)
    && Storable(items)
  }

  /** The items before this one are stored, and nothing outside the bundle changed since `start`. */
  ghost predicate ReadyFor(writer: FilesystemBundleWriter, start: Tree, items: seq<Item>, i: nat)
    reads writer, writer.backend
  {
    && i < |items| && StaysInside(items[i].name) && HasStored(writer, items[..i])
    && SameOutside(start, writer.backend.tree, writer.dir)
  }

  /**
   * One write of the upload loops: the next of the items goes into the writer's directory. What
   * is promised beyond a sound tree is promised for names that stay `inside`.
   */
  method WriteItem(
      writer: FilesystemBundleWriter, ghost inside: bool, ghost start: Tree, ghost items: seq<Item>, ghost i: nat,
      item: Item, disk: Disk, now: int)
      returns (r: Result<nat, WriteError>)
    requires WellFormed(writer.backend.tree) && IsDir(writer.backend.tree, writer.dir) && writer.dir != []
    requires i < |items| && items[i] == item && (inside ==> ReadyFor(writer, start, items, i))
    modifies writer`written, writer.backend`tree
    ensures inside ==> (r.Ok? <==> Storable(items[..i + 1]) && disk.Healthy?)
    ensures inside && r.Ok? ==> HasStored(writer, items[..i + 1]) && r.value == |item.data|
    ensures inside && r.Err? ==> !Storable(items) || disk.FailsAfter?
    ensures inside ==> SameOutside(start, writer.backend.tree, writer.dir)
    ensures WellFormed(writer.backend.tree) && IsDir(writer.backend.tree, writer.dir)
  {
    if inside { ItemStores(writer.backend.tree, writer.dir, items, i, now); }
    r := writer.WriteFile(item.name, item.data, disk, now);
    if inside { SameOutsideTransitive(start, old(writer.backend.tree), writer.backend.tree, writer.dir); }
  }

  lemma ItemStores(t: Tree, dir: Path, items: seq<Item>, i: nat, now: int)
    requires i < |items| && StaysInside(items[i].name) && Storable(items[..i]) && Holds(t, dir, items[..i])
    ensures InTree(dir, items[i].name) && (Storable(items) ==> Storable(items[..i + 1]))
    ensures items[..i + 1] == items[..i] + [items[i]] && items[..i + 1][..i] == items[..i]
    ensures
      Storable(items[..i + 1]) <==>
        items[i].name != "" && items[i].name !in WrittenBy(items[..i]) && CanWriteAt(t, dir, Segments(items[i].name))
    ensures CanWriteAt(t, dir, Segments(items[i].name)) ==>
      Holds(TryWrite(t, dir, Segments(items[i].name), Data(items[i].data), now), dir, items[..i + 1])
  {
    var before, item := items[..i], items[i];
    assert items[..i + 1] == before + [item] && (before + [item])[..i] == before;
    StorablePrefixes(items, i + 1);
    NextStorable(t, dir, before, item);
    InsidePosition(dir, Segments(item.name));
    if CanWriteAt(t, dir, Segments(item.name)) { StoreHolds(t, dir, before, item, now); }
  }

  lemma StorablePrefixes(items: seq<Item>, n: nat)
    requires n <= |items|
    ensures Storable(items) ==> Storable(items[..n])
  {
    if Storable(items) { StorablePrefix(items, n); }
  }

  /** The first `i` of the items are stored, and nothing outside the bundle changed since `start`. */
  ghost predicate Storing(
      writer: FilesystemBundleWriter, start: Tree, items: seq<Item>, i: nat, disk: nat -> Disk)
    reads writer, writer.backend
  {
    && i <= |items| && HasStored(writer, items[..i]) && AllHealthy(disk, i)
    && SameOutside(start, writer.backend.tree, writer.dir)
  }

  /** The tree is sound, and the first `i` of the items are stored if their names stay inside. */
  ghost predicate StoringAny(
      writer: FilesystemBundleWriter, start: Tree, items: seq<Item>, i: nat, disk: nat -> Disk)
    reads writer, writer.backend
  {
    && WellFormed(writer.backend.tree) && IsDir(writer.backend.tree, writer.dir) && writer.dir != []
    && (AllInside(items) ==> Storing(writer, start, items, i, disk))
  }

  /** Why the loop stopped: if all names stay inside, one could not be stored. */
  ghost predicate StoppedAny(
      writer: FilesystemBundleWriter, start: Tree, items: seq<Item>, disk: nat -> Disk)
    reads writer, writer.backend
  {
    && WellFormed(writer.backend.tree) && IsDir(writer.backend.tree, writer.dir)
    && (AllInside(items) ==>
          && !(Storable(items) && AllHealthy(disk, |items|))
          && SameOutside(start, writer.backend.tree, writer.dir))
  }

  /** One round of the loop that writes one item after the other. */
  method StoreNext(
      writer: FilesystemBundleWriter, ghost start: Tree, items: seq<Item>, i: nat, disk: nat -> Disk, now: int)
      returns (r: Result<nat, WriteError>)
    requires i < |items| && StoringAny(writer, start, items, i, disk)
    modifies writer`written, writer.backend`tree
    ensures r.Ok? ==> StoringAny(writer, start, items, i + 1, disk)
    ensures r.Err? ==> StoppedAny(writer, start, items, disk)
  {
    r := WriteItem(writer, AllInside(items), start, items, i, items[i], disk(i), now);
  }

  /** Writes one item after the other, up to the first that fails. */
  method StoreItems(writer: FilesystemBundleWriter, items: seq<Item>, disk: nat -> Disk, now: int)
      returns (r: Result<(), WriteError>)
    requires JustOpened(writer)
    modifies writer`written, writer.backend`tree
    ensures AllInside(items) ==> (r.Ok? <==> Storable(items) && AllHealthy(disk, |items|))
    ensures AllInside(items) && r.Ok? ==> HasStored(writer, items)
    ensures AllInside(items) ==> SameOutside(old(writer.backend.tree), writer.backend.tree, writer.dir)
    ensures WellFormed(writer.backend.tree) && IsDir(writer.backend.tree, writer.dir)
  {
    ghost var start := writer.backend.tree;
    NothingStored(writer, items, disk);
    var i := 0;
    while i < |items|
      invariant i <= |items| && StoringAny(writer, start, items, i, disk)
    {
      var w := StoreNext(writer, start, items, i, disk, now);
      if w.Err? { return Err(w.error); }
      i := i + 1;
    }
    AllAreStored(writer, start, items, disk);
    return Ok(());
  }

  lemma NothingStored(writer: FilesystemBundleWriter, items: seq<Item>, disk: nat -> Disk)
    requires JustOpened(writer)
    ensures Storing(writer, writer.backend.tree, items, 0, disk)
    ensures StoringAny(writer, writer.backend.tree, items, 0, disk)
  {
  }

  lemma AllAreStored(writer: FilesystemBundleWriter, start: Tree, items: seq<Item>, disk: nat -> Disk)
    requires StoringAny(writer, start, items, |items|, disk)
    ensures AllInside(items) ==>
      && HasStored(writer, items) && Storable(items) && AllHealthy(disk, |items|)
      && SameOutside(start, writer.backend.tree, writer.dir)
  {
    assert items[..|items|] == items;
  }

  /** The checks made before an entry's bytes are stored, in order. */
  function EntryError(e: TarEntry, files: seq<FileEntry>, cap: int): (error: Option<UploadError>)
    ensures error.None? <==> EntryPasses(e, files, cap)
  {
    var byName := ByName(files);
    if !e.regular then Some(Violated(NonRegularEntry, e.name))
    else if e.name !in byName then Some(Violated(ExtraFile, e.name))
    else if e.size != byName[e.name] then Some(Violated(WrongSize, e.name))
    else if e.size > cap then Some(PerFileCap(cap, e.size))
    else if |e.data| != byName[e.name] then Some(Violated(WrongSize, e.name))
    else None
  }

  /** The first `n` entries passed and are stored. */
  ghost predicate ThroughTo(entries: seq<TarEntry>, n: nat, files: seq<FileEntry>, cap: int, disk: nat -> Disk)
    requires n <= |entries|
  {
    AllPass(entries, n, files, cap) && Storable(Items(entries)[..n]) && AllHealthy(disk, n)
  }

  /** The entry at `i` passes, but cannot be stored beside those before it. */
  ghost predicate StoreFails(entries: seq<TarEntry>, i: nat, files: seq<FileEntry>, cap: int, disk: nat -> Disk)
    requires i < |entries|
  {
    EntryPasses(entries[i], files, cap) && (!Storable(Items(entries)[..i + 1]) || disk(i).FailsAfter?)
  }

  /** The one error that the stream reports: of the first entry that fails, or of the archive as a whole. */
  ghost predicate StreamFault(
      error: UploadError, entries: seq<TarEntry>, ending: TarEnd, files: seq<FileEntry>, cap: int, disk: nat -> Disk)
  {
    match error
    case WriteFailed(_) =>
      exists i: nat ::
        i < |entries| && ThroughTo(entries, i, files, cap, disk) && StoreFails(entries, i, files, cap, disk)
    case TarParseError => ending.TarBroken? && ThroughTo(entries, |entries|, files, cap, disk)
    case Violated(MissingFile, name) =>
      && ending.EndOfArchive? && ThroughTo(entries, |entries|, files, cap, disk)
      && IsMissing(entries, files, name)
      && forall f <- files :: IsMissing(entries, files, f.name) ==> LessEq(name, f.name)
    case _ =>
      exists i: nat ::
        i < |entries| && ThroughTo(entries, i, files, cap, disk) && EntryError(entries[i], files, cap) == Some(error)
  }

  predicate IsMissing(entries: seq<TarEntry>, files: seq<FileEntry>, name: string) {
    name in NamesOf(files) && forall i :: 0 <= i < |entries| ==> entries[i].name != name
  }

  predicate AllPass(entries: seq<TarEntry>, n: nat, files: seq<FileEntry>, cap: int)
    requires n <= |entries|
  {
    forall i :: 0 <= i < n ==> EntryPasses(entries[i], files, cap)
  }

  /** The names of a signed manifest stay inside the bundle. */
  predicate NamesInside(files: seq<FileEntry>) {
    forall f <- files :: StaysInside(f.name)
  }

  lemma PassingNamesInside(files: seq<FileEntry>)
    requires NamesPass(files)
    ensures NamesInside(files)
  {
    forall f <- files
      ensures StaysInside(f.name)
    {
      AcceptedStaysInside(f.name);
    }
  }

  lemma DeclaredStaysInside(files: seq<FileEntry>, name: string)
    requires NamesInside(files) && name in ByName(files)
    ensures StaysInside(name)
  {
    assert name in NamesOf(files);
  }

  /** How many writes the parser asks for, from entry `i` on, before it returns or raises. */
  ghost function Asks(entries: seq<TarEntry>, i: nat, files: seq<FileEntry>, cap: int, disk: nat -> Disk): nat
    requires i <= |entries|
    decreases |entries| - i
  {
    if i == |entries| || !EntryPasses(entries[i], files, cap) then i
    else if !Storable(Items(entries)[..i + 1]) || disk(i).FailsAfter? then i + 1
    else Asks(entries, i + 1, files, cap, disk)
  }

  /** The parser returns: everything was declared, stored and complete. */
  ghost predicate Returns(
      entries: seq<TarEntry>, ending: TarEnd, files: seq<FileEntry>, cap: int, disk: nat -> Disk)
  {
    TarAccepted(entries, files, cap) && ending.EndOfArchive? && Storable(Items(entries)) && AllHealthy(disk, |entries|)
  }

  /**
   * How the stream ends. It never does if the loop does not serve a write that is asked for: then
   * the items before it are stored. If it returns, all items are.
   */
  ghost predicate StreamEnds(
      writer: FilesystemBundleWriter, start: Tree, entries: seq<TarEntry>, ending: TarEnd, files: seq<FileEntry>,
      cap: int, disk: nat -> Disk, stop: Stop, r: Option<Result<nat, UploadError>>)
    reads writer, writer.backend
  {
    && WellFormed(writer.backend.tree) && IsDir(writer.backend.tree, writer.dir)
    && SameOutside(start, writer.backend.tree, writer.dir)
    && (r.None? <==> stop.AtWrite? && stop.j < Asks(entries, 0, files, cap, disk))
    && match r
       case None => stop.j <= |entries| && HasStored(writer, Items(entries)[..stop.j])
       case Some(Ok(bytes)) =>
         && Returns(entries, ending, files, cap, disk) && HasStored(writer, Items(entries))
         && bytes == BytesIn(Items(entries))
       case Some(Err(error)) =>
         !Returns(entries, ending, files, cap, disk) && StreamFault(error, entries, ending, files, cap, disk)
  }

  /** The loop over the archive's entries, unless the event loop stops serving its writes. */
  method StreamTarIntoWriter(
      writer: FilesystemBundleWriter, entries: seq<TarEntry>, ending: TarEnd,
      files: seq<FileEntry>, perFileMax: Option<int>, disk: nat -> Disk, stop: Stop, now: int)
      returns (r: Option<Result<nat, UploadError>>)
    requires JustOpened(writer) && NamesInside(files)
    modifies writer`written, writer.backend`tree
    ensures StreamEnds(
      writer, old(writer.backend.tree), entries, ending, files, EffectiveCap(perFileMax), disk, stop, r)
  {
    var cap := if perFileMax.None? then DEFAULT_PER_FILE_MAX else perFileMax.value;
    var seen: set<string> := {};
    var bytesTotal: nat := 0;
    ghost var start := writer.backend.tree;
    NoneStreamed(writer, entries, files, cap, disk, stop);
    var i := 0;
    while i < |entries|
      invariant Streamed(writer, start, entries, i, files, cap, disk, stop, seen, bytesTotal)
    {
      var info := entries[i];
      if stop == AtWrite(i) && EntryError(info, files, cap).None? {
        LeftHere(writer, start, entries, i, ending, files, cap, disk, stop, seen, bytesTotal);
        return None;
      }
      var error := StreamEntry(writer, start, entries, i, files, cap, disk, stop, seen, bytesTotal, now);
      if error.Some? {
        StoppedHere(writer, start, error.value, entries, i, ending, files, cap, disk, stop);
        return Some(Err(error.value));
      }
      seen := seen + {info.name};
      bytesTotal := bytesTotal + |info.data|;
      i := i + 1;
    }
    var result := EndOfStream(writer, start, entries, ending, files, cap, disk, stop, seen, bytesTotal);
    return Some(result);
  }

  lemma LeftHere(
      writer: FilesystemBundleWriter, start: Tree, entries: seq<TarEntry>, i: nat, ending: TarEnd,
      files: seq<FileEntry>, cap: int, disk: nat -> Disk, stop: Stop, seen: set<string>, bytesTotal: nat)
    requires i < |entries| && Streamed(writer, start, entries, i, files, cap, disk, stop, seen, bytesTotal)
    requires stop == AtWrite(i) && EntryPasses(entries[i], files, cap)
    ensures StreamEnds(writer, start, entries, ending, files, cap, disk, stop, None)
  {
    AsksHere(entries, i, files, cap, disk);
  }

  lemma NoneStreamed(
      writer: FilesystemBundleWriter, entries: seq<TarEntry>, files: seq<FileEntry>, cap: int, disk: nat -> Disk,
      stop: Stop)
    requires JustOpened(writer)
    ensures Streamed(writer, writer.backend.tree, entries, 0, files, cap, disk, stop, {}, 0)
  {
    NothingStored(writer, Items(entries), disk);
  }

  lemma AllThrough(
      writer: FilesystemBundleWriter, start: Tree, entries: seq<TarEntry>, files: seq<FileEntry>, cap: int,
      disk: nat -> Disk, stop: Stop, seen: set<string>, bytesTotal: nat)
    requires Streamed(writer, start, entries, |entries|, files, cap, disk, stop, seen, bytesTotal)
    ensures HasStored(writer, Items(entries)) && bytesTotal == BytesIn(Items(entries))
    ensures AllStored(entries, files, cap, disk, seen)
    ensures stop.AtWrite? ==> Asks(entries, 0, files, cap, disk) <= stop.j
    ensures SameOutside(start, writer.backend.tree, writer.dir)
  {
    assert Items(entries)[..|entries|] == Items(entries);
  }

  /** All entries passed and are stored, and these are their names. */
  ghost predicate AllStored(
      entries: seq<TarEntry>, files: seq<FileEntry>, cap: int, disk: nat -> Disk, seen: set<string>)
  {
    && AllPass(entries, |entries|, files, cap) && Storable(Items(entries)) && AllHealthy(disk, |entries|)
    && seen == set k: nat | k < |entries| :: entries[k].name
  }

  /** After the last entry: the archive's end, and the check for missing names. */
  method EndOfStream(
      ghost writer: FilesystemBundleWriter, ghost start: Tree, ghost entries: seq<TarEntry>, ending: TarEnd,
      files: seq<FileEntry>, ghost cap: int, ghost disk: nat -> Disk, ghost stop: Stop, seen: set<string>,
      bytesTotal: nat)
      returns (r: Result<nat, UploadError>)
    requires Streamed(writer, start, entries, |entries|, files, cap, disk, stop, seen, bytesTotal)
    ensures StreamEnds(writer, start, entries, ending, files, cap, disk, stop, Some(r))
  {
    AllThrough(writer, start, entries, files, cap, disk, stop, seen, bytesTotal);
    if ending.TarBroken? { return Err(TarParseError); }
    var missing := FirstMissing(files, seen);
    WhatIsMissing(entries, files, seen, missing);
    if missing.Some? { return Err(Violated(MissingFile, missing.value)); }
    return Ok(bytesTotal);
  }

  lemma WhatIsMissing(entries: seq<TarEntry>, files: seq<FileEntry>, seen: set<string>, missing: Option<string>)
    requires seen == set k: nat | k < |entries| :: entries[k].name
    requires missing.None? <==> forall f <- files :: f.name in seen
    requires missing.Some? ==> missing.value in NamesOf(files) - seen
    requires missing.Some? ==> forall other <- NamesOf(files) - seen :: LessEq(missing.value, other)
    ensures missing.None? <==>
      forall f <- files :: exists i :: 0 <= i < |entries| && entries[i].name == f.name
    ensures missing.Some? ==>
      && IsMissing(entries, files, missing.value)
      && forall f <- files :: IsMissing(entries, files, f.name) ==> LessEq(missing.value, f.name)
  {
    SeenMeansFound(entries, files, seen);
    forall f <- files
      ensures f.name in NamesOf(files) && (IsMissing(entries, files, f.name) <==> f.name !in seen)
    {
    }
  }

  lemma AsksHere(entries: seq<TarEntry>, i: nat, files: seq<FileEntry>, cap: int, disk: nat -> Disk)
    requires i < |entries|
    ensures Asks(entries, i, files, cap, disk) >= i
    ensures EntryPasses(entries[i], files, cap) <==> Asks(entries, i, files, cap, disk) > i
    ensures !Storable(Items(entries)[..i + 1]) || disk(i).FailsAfter? ==> Asks(entries, i, files, cap, disk) <= i + 1
    decreases |entries| - i
  {
    if i + 1 < |entries| { AsksHere(entries, i + 1, files, cap, disk); }
  }

  /** What holds when the first `i` entries are through. */
  ghost predicate Streamed(
      writer: FilesystemBundleWriter, start: Tree, entries: seq<TarEntry>, i: nat, files: seq<FileEntry>, cap: int,
      disk: nat -> Disk, stop: Stop, seen: set<string>, bytesTotal: nat)
    reads writer, writer.backend
  {
    && i <= |entries| && Storing(writer, start, Items(entries), i, disk)
    && PassedSoFar(entries, i, files, cap, seen, bytesTotal)
    && Asks(entries, i, files, cap, disk) == Asks(entries, 0, files, cap, disk)
    && (stop.AtWrite? ==> i <= stop.j)
  }

  /** The body of the loop over the entries, unless the loop stops here. */
  method StreamEntry(
      writer: FilesystemBundleWriter, ghost start: Tree, entries: seq<TarEntry>, i: nat, files: seq<FileEntry>,
      cap: int, disk: nat -> Disk, ghost stop: Stop, ghost seen: set<string>, ghost bytesTotal: nat, now: int)
      returns (error: Option<UploadError>)
    requires i < |entries| && Streamed(writer, start, entries, i, files, cap, disk, stop, seen, bytesTotal)
    requires NamesInside(files) && (stop == AtWrite(i) ==> !EntryPasses(entries[i], files, cap))
    modifies writer`written, writer.backend`tree
    ensures error.None? ==>
      Streamed(writer, start, entries, i + 1, files, cap, disk, stop, seen + {entries[i].name},
               bytesTotal + |entries[i].data|)
    ensures error.Some? ==> StoppedAt(writer, start, error.value, entries, i, files, cap, disk, stop)
    ensures WellFormed(writer.backend.tree) && IsDir(writer.backend.tree, writer.dir)
  {
    var info := entries[i];
    AsksHere(entries, i, files, cap, disk);
    error := CheckEntry(info, files, cap);
    if error.Some? { return; }
    DeclaredStaysInside(files, info.name);
    var w := WriteItem(writer, true, start, Items(entries), i, Item(info.name, info.data), disk(i), now);
    if w.Err? { return Some(WriteFailed(w.error)); }
    PassOneMore(entries, i, files, cap, seen, bytesTotal);
  }

  method CheckEntry(info: TarEntry, files: seq<FileEntry>, cap: int) returns (error: Option<UploadError>)
    ensures error == EntryError(info, files, cap)
  {
    var byName := ByName(files);
    if !info.regular { return Some(Violated(NonRegularEntry, info.name)); }
    if info.name !in byName { return Some(Violated(ExtraFile, info.name)); }
    if info.size != byName[info.name] { return Some(Violated(WrongSize, info.name)); }
    if info.size > cap { return Some(PerFileCap(cap, info.size)); }
    if |info.data| != byName[info.name] { return Some(Violated(WrongSize, info.name)); }
    return None;
  }

  /** The entry is the first that fails, and this is its error. */
  ghost predicate StoppedAt(
      writer: FilesystemBundleWriter, start: Tree, error: UploadError, entries: seq<TarEntry>, i: nat,
      files: seq<FileEntry>, cap: int, disk: nat -> Disk, stop: Stop)
    requires i < |entries|
    reads writer, writer.backend
  {
    && ThroughTo(entries, i, files, cap, disk)
    && (EntryError(entries[i], files, cap) == Some(error)
        || (error.WriteFailed? && StoreFails(entries, i, files, cap, disk)))
    && (stop.AtWrite? ==> Asks(entries, 0, files, cap, disk) <= stop.j)
    && SameOutside(start, writer.backend.tree, writer.dir)
  }

  lemma StoppedHere(
      writer: FilesystemBundleWriter, start: Tree, error: UploadError, entries: seq<TarEntry>, i: nat,
      ending: TarEnd, files: seq<FileEntry>, cap: int, disk: nat -> Disk, stop: Stop)
    requires WellFormed(writer.backend.tree) && IsDir(writer.backend.tree, writer.dir)
    requires i < |entries| && StoppedAt(writer, start, error, entries, i, files, cap, disk, stop)
    ensures StreamEnds(writer, start, entries, ending, files, cap, disk, stop, Some(Err(error)))
  {
    if EntryError(entries[i], files, cap) == Some(error) {
      assert !EntryPasses(entries[i], files, cap);
    } else {
      StorablePrefixes(Items(entries), i + 1);
    }
  }

  ghost predicate PassedSoFar(
      entries: seq<TarEntry>, n: nat, files: seq<FileEntry>, cap: int, seen: set<string>, bytesTotal: nat)
  {
    && n <= |entries|
    && bytesTotal == BytesIn(Items(entries)[..n])
    && AllPass(entries, n, files, cap)
    && seen == (set k: nat | k < n :: entries[k].name)
  }

  lemma PassOneMore(
      entries: seq<TarEntry>, n: nat, files: seq<FileEntry>, cap: int, seen: set<string>, bytesTotal: nat)
    requires n < |entries| && PassedSoFar(entries, n, files, cap, seen, bytesTotal)
    requires EntryPasses(entries[n], files, cap)
    ensures PassedSoFar(entries, n + 1, files, cap, seen + {entries[n].name}, bytesTotal + |entries[n].data|)
  {
    var items := Items(entries);
    assert items[..n + 1][..n] == items[..n];
  }

  lemma SeenMeansFound(entries: seq<TarEntry>, files: seq<FileEntry>, seen: set<string>)
    requires seen == set k: nat | k < |entries| :: entries[k].name
    ensures (forall f <- files :: f.name in seen) <==>
      (forall f <- files :: exists i :: 0 <= i < |entries| && entries[i].name == f.name)
  {
  }

  lemma SameOutsideTransitive(a: Tree, b: Tree, c: Tree, p: Path)
    requires SameOutside(a, b, p) && SameOutside(b, c, p)
    ensures SameOutside(a, c, p)
  {
  }

  /** The alphabetically first declared name that was not seen. */
  method FirstMissing(files: seq<FileEntry>, seen: set<string>) returns (name: Option<string>)
    ensures name.None? <==> forall f <- files :: f.name in seen
    ensures name.Some? ==> name.value in NamesOf(files) - seen
    ensures name.Some? ==> forall other <- NamesOf(files) - seen :: LessEq(name.value, other)
  {
    var missing := ByName(files).Keys - seen;
    if missing == {} {
      forall f <- files
        ensures f.name in seen
      {
        assert f.name in NamesOf(files) && f.name !in missing;
      }
      return None;
    }
    var names := SortedNames(missing);
    var some :| some in missing;
    assert some in names;
    assert names[0] in missing;
    forall other | other in missing
      ensures LessEq(names[0], other)
    {
      assert other in names;
      var k :| 0 <= k < |names| && names[k] == other;
      LessIrreflexive(other);
      if k > 0 { LessAsymmetric(names[0], other); }
    }
    return Some(names[0]);
  }

  /** Everything the batch upload needs in order to commit. */
  ghost predicate UploadSucceeds(
      t: Tree, path: Path, files: seq<FileEntry>, entries: seq<TarEntry>, ending: TarEnd,
      perFileMax: Option<int>, disk: nat -> Disk)
  {
    && CanOpen(t, path)
    && files != [] && DistinctNames(files)
    && TarAccepted(entries, files, EffectiveCap(perFileMax)) && ending.EndOfArchive?
    && Storable(Items(entries)) && RoomForManifest(Items(entries))
    && AllHealthy(disk, |entries| + 1)
  }

  /** The state of the tree after a commit of these items at `path`. */
  ghost predicate CommittedAs(t: Tree, r: Tree, path: Path, items: seq<Item>, meta: Meta) {
    && WellFormed(r)
    && ReadMeta(r, path) == Some(meta)
    && (DistinctPlaces(items) ==>
          forall i :: 0 <= i < |items| ==> (ReadsBack(r, path, items[i]) <==> !ReservedPlace(Down(items[i].name))))
    && (forall q :: !Within(path, q) && !Above(q, path) ==> (q in r <==> q in t) && (q in t ==> r[q] == t[q]))
  }

  /** Nothing outside the bundle changed since it was opened in the tree `before`. */
  ghost predicate OpenSince(writer: FilesystemBundleWriter, before: Tree, openedAt: int)
    reads writer, writer.backend
  {
    && WellFormed(before) && CanOpen(before, writer.dir) && !writer.committed
    && SameOutside(OpenTree(before, writer.dir, openedAt), writer.backend.tree, writer.dir)
  }

  /** The last part of all uploads: commit what is stored, or abort. */
  method CommitOrAbort(
      writer: FilesystemBundleWriter, ghost inside: bool, ghost before: Tree, ghost openedAt: int,
      ghost items: seq<Item>, meta: Meta, disk: Disk, now: int)
      returns (r: Result<(), CommitError>)
    requires WellFormed(writer.backend.tree) && IsDir(writer.backend.tree, writer.dir) && writer.dir != []
    requires inside ==> OpenSince(writer, before, openedAt) && HasStored(writer, items)
    modifies writer`committed, writer.backend`tree
    ensures inside ==>
      (r.Ok? <==> DeclaredAsWritten(meta.files, WrittenBy(items)) && RoomForManifest(items) && disk.Healthy?)
    ensures inside && r.Ok? ==> CommittedAs(before, writer.backend.tree, writer.dir, items, meta)
    ensures inside && r.Err? ==>
      && RolledBack(before, writer.backend.tree, writer.dir)
      && CommitFault(r.error, meta.files, WrittenBy(items), old(writer.backend.tree), writer.dir, disk)
    ensures WellFormed(writer.backend.tree)
  {
    if inside { CanCommitIff(writer.backend.tree, writer.dir, items); }
    ghost var stored := writer.backend.tree;
    r := writer.Commit(meta, disk, now);
    if r.Err? {
      AbortIsSound(before, writer.backend.tree, writer.dir, inside, openedAt, now);
      writer.Abort(now);
    } else if inside {
      CommitIsAll(before, stored, writer.dir, items, meta, openedAt, now);
    }
  }

  lemma AbortIsSound(t: Tree, r: Tree, p: Path, inside: bool, openedAt: int, now: int)
    requires WellFormed(r) && IsDir(r, p) && p != []
    requires inside ==> WellFormed(t) && CanOpen(t, p) && SameOutside(OpenTree(t, p, openedAt), r, p)
    ensures WellFormed(Remove(r, p, now)) && (inside ==> RolledBack(t, Remove(r, p, now), p))
  {
    RemoveFrame(r, p, now);
    if inside { AbortRollsBack(t, r, p, openedAt, now); }
  }

  lemma CommitIsAll(t: Tree, stored: Tree, dir: Path, items: seq<Item>, meta: Meta, openedAt: int, now: int)
    requires WellFormed(t) && CanOpen(t, dir) && SameOutside(OpenTree(t, dir, openedAt), stored, dir)
    requires Holds(stored, dir, items) && CanCommit(stored, dir)
    ensures CommittedAs(t, CommitTree(stored, dir, meta, now), dir, items, meta)
  {
    var r := CommitTree(stored, dir, meta, now);
    RenameInside(stored, dir, meta, now);
    CommitElsewhere(t, r, dir, openedAt);
    CommitFrame(stored, dir, meta, now);
    if DistinctPlaces(items) {
      forall i | 0 <= i < |items|
        ensures ReadsBack(r, dir, items[i]) <==> !ReservedPlace(Down(items[i].name))
      {
        ReadsBackIff(stored, dir, items, i, meta, now);
      }
    }
  }

  /** The end of every upload: if all is stored, commit; if not, or if that fails, abort. */
  method Settle(
      writer: FilesystemBundleWriter, ghost inside: bool, ghost before: Tree, ghost openedAt: int,
      ghost items: seq<Item>, stored: bool, meta: Meta, disk: Disk, now: int)
      returns (r: Option<Result<(), CommitError>>)
    requires WellFormed(writer.backend.tree) && IsDir(writer.backend.tree, writer.dir) && writer.dir != []
    requires inside ==> OpenSince(writer, before, openedAt) && (stored ==> HasStored(writer, items))
    modifies writer`committed, writer.backend`tree
    ensures r.Some? <==> stored
    ensures inside && r.Some? ==>
      (r.value.Ok? <==> DeclaredAsWritten(meta.files, WrittenBy(items)) && RoomForManifest(items) && disk.Healthy?)
    ensures inside && r.Some? && r.value.Ok? ==> CommittedAs(before, writer.backend.tree, writer.dir, items, meta)
    ensures inside && (r.None? || r.value.Err?) ==> RolledBack(before, writer.backend.tree, writer.dir)
    ensures WellFormed(writer.backend.tree)
  {
    if stored {
      var committed := CommitOrAbort(writer, inside, before, openedAt, items, meta, disk, now);
      return Some(committed);
    }
    AbortIsSound(before, writer.backend.tree, writer.dir, inside, openedAt, now);
    writer.Abort(now);
    return None;
  }

  lemma StillOpen(writer: FilesystemBundleWriter, t: Tree, before: Tree, openedAt: int)
    requires WellFormed(before) && CanOpen(before, writer.dir) && !writer.committed
    requires SameOutside(OpenTree(before, writer.dir, openedAt), t, writer.dir)
    requires SameOutside(t, writer.backend.tree, writer.dir)
    ensures OpenSince(writer, before, openedAt)
  {
  }

  /** The items can be stored side by side, they are the declared ones, and the disk takes everything. */
  ghost predicate ItemsCommit(items: seq<Item>, files: seq<FileEntry>, disk: nat -> Disk) {
    && Storable(items) && AllHealthy(disk, |items| + 1)
    && DeclaredAsWritten(files, WrittenBy(items)) && RoomForManifest(items)
  }

  /** Items in memory into a writer just opened: stored one by one and committed, or rolled back. */
  method CompleteItems(
      writer: FilesystemBundleWriter, ghost before: Tree, ghost openedAt: int, items: seq<Item>, meta: Meta,
      disk: nat -> Disk, now: int)
      returns (r: Result<(), UploadError>)
    requires JustOpened(writer) && OpenSince(writer, before, openedAt)
    modifies writer`written, writer`committed, writer.backend`tree
    ensures AllInside(items) ==> (r.Ok? <==> ItemsCommit(items, meta.files, disk))
    ensures AllInside(items) && r.Ok? ==> CommittedAs(before, writer.backend.tree, writer.dir, items, meta)
    ensures AllInside(items) && r.Err? ==> RolledBack(before, writer.backend.tree, writer.dir)
    ensures r.Err? ==> r.error.WriteFailed? || r.error.CommitFailed?
    ensures WellFormed(writer.backend.tree)
  {
    var stored := StoreOpened(writer, before, openedAt, items, disk, now);
    var settled := Settle(writer, AllInside(items), before, openedAt, items, stored.Ok?, meta, disk(|items|), now);
    return ItemsError(stored, settled);
  }

  method StoreOpened(
      writer: FilesystemBundleWriter, ghost before: Tree, ghost openedAt: int, items: seq<Item>, disk: nat -> Disk,
      now: int)
      returns (r: Result<(), WriteError>)
    requires JustOpened(writer) && OpenSince(writer, before, openedAt)
    modifies writer`written, writer.backend`tree
    ensures AllInside(items) ==> OpenSince(writer, before, openedAt) && (r.Ok? ==> HasStored(writer, items))
    ensures AllInside(items) ==> (r.Ok? <==> Storable(items) && AllHealthy(disk, |items|))
    ensures WellFormed(writer.backend.tree) && IsDir(writer.backend.tree, writer.dir) && writer.dir != []
  {
    r := StoreItems(writer, items, disk, now);
    if AllInside(items) { StillOpen(writer, old(writer.backend.tree), before, openedAt); }
  }

  function ItemsError(stored: Result<(), WriteError>, settled: Option<Result<(), CommitError>>): Result<(), UploadError>
    requires stored.Ok? ==> settled.Some?
  {
    if stored.Err? then Err(WriteFailed(stored.error))
    else if settled.value.Err? then Err(CommitFailed(settled.value.error))
    else Ok(())
  }

  lemma {:induction false} ByNameRow(files: seq<FileEntry>, f: FileEntry)
    requires DistinctNames(files) && f in files
    ensures ByName(files)[f.name] == f.size
  {
    var n := |files| - 1;
    assert files == files[..n] + [files[n]];
    if f != files[n] {
      assert f in files[..n];
      var k :| 0 <= k < n && files[k] == f;
      ByNameRow(files[..n], f);
    }
  }

  /** Of several rows with one name the last one counts. */
  lemma {:induction false} LastRowCounts(files: seq<FileEntry>, k: nat)
    requires k < |files| && forall j :: k < j < |files| ==> files[j].name != files[k].name
    ensures ByName(files)[files[k].name] == files[k].size
  {
    var n := |files| - 1;
    if k < n {
      assert files[..n][k] == files[k];
      LastRowCounts(files[..n], k);
    }
  }

  lemma {:induction false} WrittenSize(items: seq<Item>, i: nat)
    requires i < |items|
    requires forall k, l :: 0 <= k < l < |items| ==> items[k].name != items[l].name
    ensures items[i].name in WrittenBy(items) && WrittenBy(items)[items[i].name] == |items[i].data|
  {
    var n := |items| - 1;
    if i < n { WrittenSize(items[..n], i); }
  }

  lemma AcceptedNames(entries: seq<TarEntry>, files: seq<FileEntry>, cap: int)
    requires TarAccepted(entries, files, cap)
    ensures (set f <- files :: f.name) == WrittenBy(Items(entries)).Keys
  {
    var items := Items(entries);
    WrittenNames(items);
    forall f <- files
      ensures f.name in WrittenBy(items)
    {
      var i: nat :| i < |entries| && entries[i].name == f.name;
      assert items[i].name == f.name;
    }
    forall name <- WrittenBy(items).Keys
      ensures name in NamesOf(files)
    {
      var i: nat :| i < |items| && items[i].name == name;
      assert EntryPasses(entries[i], files, cap);
    }
  }

  lemma AcceptedSizes(entries: seq<TarEntry>, files: seq<FileEntry>, cap: int, f: FileEntry)
    requires TarAccepted(entries, files, cap) && DistinctNames(files) && f in files
    requires forall k, l :: 0 <= k < l < |entries| ==> entries[k].name != entries[l].name
    ensures f.name in WrittenBy(Items(entries)) && f.size == WrittenBy(Items(entries))[f.name]
  {
    var i :| 0 <= i < |entries| && entries[i].name == f.name;
    WrittenSize(Items(entries), i);
    ByNameRow(files, f);
    assert EntryPasses(entries[i], files, cap);
  }

  lemma StorableNamesDiffer(entries: seq<TarEntry>)
    requires Storable(Items(entries))
    ensures forall k, l :: 0 <= k < l < |entries| ==> entries[k].name != entries[l].name
  {
    var items := Items(entries);
    forall k, l | 0 <= k < l < |entries|
      ensures entries[k].name != entries[l].name
    {
      assert items[k].name != items[l].name;
    }
  }

  /** What the stream accepts and the writer stored, the commit finds as declared. */
  lemma TarCommits(entries: seq<TarEntry>, files: seq<FileEntry>, cap: int)
    requires TarAccepted(entries, files, cap) && Storable(Items(entries))
    ensures DeclaredAsWritten(files, WrittenBy(Items(entries))) <==> files != [] && DistinctNames(files)
  {
    AcceptedNames(entries, files, cap);
    StorableNamesDiffer(entries);
    if DistinctNames(files) {
      forall f <- files
        ensures f.name in WrittenBy(Items(entries)) && f.size == WrittenBy(Items(entries))[f.name]
      {
        AcceptedSizes(entries, files, cap, f);
      }
    }
  }
}
