/** What acceptance of a tar stream means, what its bytes amount to, and the inline upload. */
module UploadProperties {
  import opened Strings
  import opened Sorting
  import opened Tree
  import opened BundleTree
  import opened Manifest
  import opened Limits
  import opened Storage
  import opened BundleContents
  import opened Upload
  import opened Wrappers

  // ---- Acceptance is a permutation -----------------------------------------

  function Row(e: TarEntry): FileEntry {
    FileEntry(e.name, e.size)
  }

  function Rows(entries: seq<TarEntry>): seq<FileEntry> {
    seq(|entries|, i requires 0 <= i < |entries| => Row(entries[i]))
  }

  /** Each entry on its own: a regular file, read in full, within the cap. */
  predicate Sound(entries: seq<TarEntry>, cap: int) {
    forall i :: 0 <= i < |entries| ==> entries[i].regular && |entries[i].data| == entries[i].size <= cap
  }

  lemma SameElementsSameBag(xs: seq<FileEntry>, ys: seq<FileEntry>)
    requires Distinct(xs) && Distinct(ys) && forall x :: x in xs <==> x in ys
    ensures multiset(xs) == multiset(ys)
  {
    forall x
      ensures multiset(xs)[x] == multiset(ys)[x]
    {
      DistinctCount(xs, x);
      DistinctCount(ys, x);
      assert x in xs <==> x in multiset(xs);
      assert x in ys <==> x in multiset(ys);
    }
  }

  lemma AcceptedHasTheRows(entries: seq<TarEntry>, files: seq<FileEntry>, cap: int, x: FileEntry)
    requires DistinctNames(files) && TarAccepted(entries, files, cap)
    ensures x in Rows(entries) <==> x in files
  {
    if x in files {
      var i :| 0 <= i < |entries| && entries[i].name == x.name;
      ByNameRow(files, x);
      assert EntryPasses(entries[i], files, cap);
      assert Rows(entries)[i] == x;
    }
    if x in Rows(entries) {
      var i :| 0 <= i < |entries| && Rows(entries)[i] == x;
      assert EntryPasses(entries[i], files, cap);
      var f :| f in files && f.name == x.name;
      ByNameRow(files, f);
    }
  }

  lemma SameMembers(xs: seq<FileEntry>, ys: seq<FileEntry>)
    requires multiset(xs) == multiset(ys)
    ensures forall x :: x in xs <==> x in ys
  {
    forall x
      ensures x in xs <==> x in ys
    {
      assert x in xs <==> x in multiset(xs);
      assert x in ys <==> x in multiset(ys);
    }
  }

  lemma PermutationHasDistinctNames(entries: seq<TarEntry>, files: seq<FileEntry>)
    requires DistinctNames(files) && multiset(Rows(entries)) == multiset(files)
    ensures forall i, j :: 0 <= i < j < |entries| ==> entries[i].name != entries[j].name
  {
    var rows := Rows(entries);
    SameMembers(rows, files);
    DistinctPermutation(files, rows);
    forall i, j | 0 <= i < j < |entries|
      ensures entries[i].name != entries[j].name
    {
      assert rows[i] != rows[j];
      assert rows[i] in files && rows[j] in files;
      var k :| 0 <= k < |files| && files[k] == rows[i];
      var l :| 0 <= l < |files| && files[l] == rows[j];
    }
  }

  lemma PermutationIsAccepted(entries: seq<TarEntry>, files: seq<FileEntry>, cap: int)
    requires DistinctNames(files) && Sound(entries, cap) && multiset(Rows(entries)) == multiset(files)
    ensures TarAccepted(entries, files, cap)
  {
    var rows := Rows(entries);
    SameMembers(rows, files);
    forall i | 0 <= i < |entries|
      ensures EntryPasses(entries[i], files, cap)
    {
      assert rows[i] in rows;
      assert rows[i].name in NamesOf(files);
      ByNameRow(files, rows[i]);
    }
    forall f <- files
      ensures exists i :: 0 <= i < |entries| && entries[i].name == f.name
    {
      assert f in rows;
      var i :| 0 <= i < |rows| && rows[i] == f;
      assert entries[i].name == f.name;
    }
  }

  /** For a manifest with distinct names, acceptance without repeats is exactly a permutation. */
  lemma AcceptanceIsPermutation(entries: seq<TarEntry>, files: seq<FileEntry>, cap: int)
    requires DistinctNames(files)
    ensures
      (&& TarAccepted(entries, files, cap)
       && (forall i, j :: 0 <= i < j < |entries| ==> entries[i].name != entries[j].name))
      <==> (Sound(entries, cap) && multiset(Rows(entries)) == multiset(files))
  {
    if TarAccepted(entries, files, cap)
      && (forall i, j :: 0 <= i < j < |entries| ==> entries[i].name != entries[j].name)
    {
      forall i | 0 <= i < |entries|
        ensures entries[i].regular && |entries[i].data| == entries[i].size <= cap
      {
        assert EntryPasses(entries[i], files, cap);
      }
      assert Distinct(Rows(entries)) && Distinct(files);
      forall x
        ensures x in Rows(entries) <==> x in files
      {
        AcceptedHasTheRows(entries, files, cap, x);
      }
      SameElementsSameBag(Rows(entries), files);
    }
    if Sound(entries, cap) && multiset(Rows(entries)) == multiset(files) {
      PermutationIsAccepted(entries, files, cap);
      PermutationHasDistinctNames(entries, files);
    }
  }

  /** Whether the directory layout allows a manifest's names side by side with `meta.json`. */
  ghost predicate LayoutAllows(files: seq<FileEntry>) {
    && (forall k :: 0 <= k < |files| ==> StaysInside(files[k].name) && EndsInFile(files[k].name))
    && (forall k, l :: 0 <= k < |files| && 0 <= l < |files| ==> !Through(files[k].name, Down(files[l].name)))
    && (forall k :: 0 <= k < |files| ==> !Through(files[k].name, [META]) && !Through(files[k].name, [META_TMP]))
  }

  ghost predicate Declares(files: seq<FileEntry>, name: string) {
    exists k :: 0 <= k < |files| && files[k].name == name
  }

  ghost predicate Supplies(items: seq<Item>, name: string) {
    exists i :: 0 <= i < |items| && items[i].name == name
  }

  /** The same names occur among the items as in the manifest. */
  ghost predicate SameNames(items: seq<Item>, files: seq<FileEntry>) {
    && (forall i :: 0 <= i < |items| ==> Declares(files, items[i].name))
    && (forall k :: 0 <= k < |files| ==> Supplies(items, files[k].name))
  }

  lemma PermutationHasSameNames(entries: seq<TarEntry>, files: seq<FileEntry>)
    requires multiset(Rows(entries)) == multiset(files)
    ensures SameNames(Items(entries), files)
  {
    var rows, items := Rows(entries), Items(entries);
    forall k | 0 <= k < |files|
      ensures Supplies(items, files[k].name)
    {
      var i := WhereIn(files, k, rows);
      assert items[i].name == files[k].name;
    }
    forall i | 0 <= i < |items|
      ensures Declares(files, items[i].name)
    {
      var k := WhereIn(rows, i, files);
      assert files[k].name == items[i].name;
    }
  }

  /** Where an element of one list stands in a rearrangement of it. */
  lemma WhereIn(xs: seq<FileEntry>, i: nat, ys: seq<FileEntry>) returns (k: nat)
    requires multiset(xs) == multiset(ys) && i < |xs|
    ensures k < |ys| && ys[k] == xs[i]
  {
    SameItems(xs, ys);
    k :| k < |ys| && ys[k] == xs[i];
  }

  lemma LayoutMeansStorable(items: seq<Item>, files: seq<FileEntry>)
    requires SameNames(items, files) && LayoutAllows(files)
    requires forall i, j :: 0 <= i < j < |items| ==> items[i].name != items[j].name
    ensures Storable(items) && RoomForManifest(items)
  {
    assert Segments("") == DropDots([""]) == [];
    forall i, j | 0 <= i < |items| && 0 <= j < |items|
      ensures items[i].name != "" && StaysInside(items[i].name) && EndsInFile(items[i].name)
      ensures !Through(items[i].name, Down(items[j].name))
      ensures !Through(items[i].name, [META]) && !Through(items[i].name, [META_TMP])
    {
      var k :| 0 <= k < |files| && files[k].name == items[i].name;
      var l :| 0 <= l < |files| && files[l].name == items[j].name;
    }
  }

  lemma StorableMeansLayout(items: seq<Item>, files: seq<FileEntry>)
    requires SameNames(items, files) && Storable(items) && RoomForManifest(items)
    ensures LayoutAllows(files)
  {
    forall k, l | 0 <= k < |files| && 0 <= l < |files|
      ensures StaysInside(files[k].name) && EndsInFile(files[k].name)
      ensures !Through(files[k].name, Down(files[l].name))
      ensures !Through(files[k].name, [META]) && !Through(files[k].name, [META_TMP])
    {
      var i :| 0 <= i < |items| && items[i].name == files[k].name;
      var j :| 0 <= j < |items| && items[j].name == files[l].name;
    }
  }

  lemma LayoutIffStorable(items: seq<Item>, files: seq<FileEntry>)
    requires SameNames(items, files)
    requires forall i, j :: 0 <= i < j < |items| ==> items[i].name != items[j].name
    ensures LayoutAllows(files) <==> Storable(items) && RoomForManifest(items)
  {
    if LayoutAllows(files) { LayoutMeansStorable(items, files); }
    if Storable(items) && RoomForManifest(items) { StorableMeansLayout(items, files); }
  }

  lemma LayoutOfPermutation(entries: seq<TarEntry>, files: seq<FileEntry>)
    requires multiset(Rows(entries)) == multiset(files) && DistinctNames(files)
    ensures LayoutAllows(files) <==> Storable(Items(entries)) && RoomForManifest(Items(entries))
  {
    PermutationHasSameNames(entries, files);
    PermutationHasDistinctNames(entries, files);
    LayoutIffStorable(Items(entries), files);
  }

  /**
    On a healthy disk, the batch upload of a non-empty manifest with distinct names commits
    exactly when the path is free, the layout allows the names, and the archive is complete
    and its entries are a permutation of the manifest, within the cap.
   */
  lemma UploadIsPermutation(
      t: Tree, path: Path, files: seq<FileEntry>, entries: seq<TarEntry>, ending: TarEnd,
      perFileMax: Option<int>, disk: nat -> Disk)
    requires files != [] && DistinctNames(files) && AllHealthy(disk, |entries| + 1)
    ensures UploadSucceeds(t, path, files, entries, ending, perFileMax, disk) <==>
      && CanOpen(t, path) && LayoutAllows(files) && ending.EndOfArchive?
      && Sound(entries, EffectiveCap(perFileMax)) && multiset(Rows(entries)) == multiset(files)
  {
    AcceptanceIsPermutation(entries, files, EffectiveCap(perFileMax));
    if Sound(entries, EffectiveCap(perFileMax)) && multiset(Rows(entries)) == multiset(files) {
      PermutationIsAccepted(entries, files, EffectiveCap(perFileMax));
      LayoutOfPermutation(entries, files);
    }
    if UploadSucceeds(t, path, files, entries, ending, perFileMax, disk) {
      forall i, j | 0 <= i < j < |entries|
        ensures entries[i].name != entries[j].name
      {
        assert Items(entries)[i].name != Items(entries)[j].name;
      }
    }
  }

  // ---- The bytes -----------------------------------------------------------

  lemma {:induction false} TotalOfConcat(a: seq<FileEntry>, b: seq<FileEntry>)
    ensures TotalSize(a + b) == TotalSize(a) + TotalSize(b)
  {
    if a == [] {
      assert a + b == b;
    } else {
      assert (a + b)[1..] == a[1..] + b;
      TotalOfConcat(a[1..], b);
    }
  }

  /** Taking one row out of a list takes its size out of the total. */
  lemma TotalWithout(b: seq<FileEntry>, k: nat)
    requires k < |b|
    ensures TotalSize(b) == b[k].size + TotalSize(b[..k] + b[k + 1..])
  {
    var front, row, back := b[..k], [b[k]], b[k + 1..];
    assert b == front + (row + back);
    TotalOfConcat(front, row + back);
    TotalOfConcat(row, back);
    TotalOfConcat(front, back);
  }

  lemma RowsWithout(b: seq<FileEntry>, k: nat)
    requires k < |b|
    ensures multiset(b) == multiset{b[k]} + multiset(b[..k] + b[k + 1..])
  {
    assert b == b[..k] + ([b[k]] + b[k + 1..]);
  }

  lemma HeadAndRest(a: seq<FileEntry>)
    requires a != []
    ensures multiset(a) == multiset{a[0]} + multiset(a[1..])
  {
    assert a == [a[0]] + a[1..];
  }

  lemma Cancel(common: multiset<FileEntry>, a: multiset<FileEntry>, b: multiset<FileEntry>)
    requires common + a == common + b
    ensures a == b
  {
    forall row ensures a[row] == b[row] {
      assert (common + a)[row] == common[row] + a[row];
    }
  }

  lemma {:induction false} TotalOfPermutation(a: seq<FileEntry>, b: seq<FileEntry>)
    requires multiset(a) == multiset(b)
    ensures TotalSize(a) == TotalSize(b)
  {
    if a == [] {
      assert |b| == |multiset(b)| == 0;
    } else {
      HeadAndRest(a);
      var k := WhereIn(a, 0, b);
      var rest := b[..k] + b[k + 1..];
      RowsWithout(b, k);
      TotalWithout(b, k);
      Cancel(multiset{a[0]}, multiset(a[1..]), multiset(rest));
      TotalOfPermutation(a[1..], rest);
    }
  }

  lemma {:induction false} BytesAreRows(entries: seq<TarEntry>)
    requires forall i :: 0 <= i < |entries| ==> |entries[i].data| == entries[i].size
    ensures BytesIn(Items(entries)) == TotalSize(Rows(entries))
  {
    if entries != [] {
      var n := |entries| - 1;
      BytesAreRows(entries[..n]);
      assert Items(entries)[..n] == Items(entries[..n]);
      assert Rows(entries) == Rows(entries[..n]) + [Row(entries[n])];
      TotalOfConcat(Rows(entries[..n]), [Row(entries[n])]);
    }
  }

  lemma SucceedsMeansPermutation(
      t: Tree, path: Path, files: seq<FileEntry>, entries: seq<TarEntry>, ending: TarEnd,
      perFileMax: Option<int>, disk: nat -> Disk)
    requires UploadSucceeds(t, path, files, entries, ending, perFileMax, disk)
    ensures Sound(entries, EffectiveCap(perFileMax)) && multiset(Rows(entries)) == multiset(files)
  {
    forall i, j | 0 <= i < j < |entries|
      ensures entries[i].name != entries[j].name
    {
      assert Items(entries)[i].name != Items(entries)[j].name;
    }
    AcceptanceIsPermutation(entries, files, EffectiveCap(perFileMax));
  }

  /** A committed upload stored exactly the declared total, so the caps checked at signing bind it. */
  lemma CommittedWithinCaps(
      t: Tree, path: Path, files: seq<FileEntry>, entries: seq<TarEntry>, ending: TarEnd,
      perFileMax: Option<int>, disk: nat -> Disk, limits: LimitsConfig)
    requires UploadSucceeds(t, path, files, entries, ending, perFileMax, disk)
    ensures BytesIn(Items(entries)) == TotalSize(files) && |entries| == |files|
    ensures CheckManifest(|files|, files, limits).Mode? ==>
      && !Over(BytesIn(Items(entries)), limits.totalMax) && !Over(|entries|, limits.countMax)
      && (forall i :: 0 <= i < |entries| ==> !Over(|entries[i].data|, limits.perFileMax))
      && (EvaluateDownload(BytesIn(Items(entries)), limits) == ServeInline <==>
            CheckManifest(|files|, files, limits) == Mode(Inline))
  {
    SucceedsMeansPermutation(t, path, files, entries, ending, perFileMax, disk);
    assert BytesIn(Items(entries)) == TotalSize(files) by {
      BytesAreRows(entries);
      TotalOfPermutation(Rows(entries), files);
    }
    assert |entries| == |Rows(entries)| == |multiset(Rows(entries))| == |multiset(files)| == |files|;
    DecisionBindsTotal(|files|, files, limits);
    if CheckManifest(|files|, files, limits).Mode? { SizesWithinCap(entries, files, limits); }
  }

  lemma SizesWithinCap(entries: seq<TarEntry>, files: seq<FileEntry>, limits: LimitsConfig)
    requires CheckManifest(|files|, files, limits).Mode?
    requires multiset(Rows(entries)) == multiset(files)
    requires forall i :: 0 <= i < |entries| ==> |entries[i].data| == entries[i].size
    ensures forall i :: 0 <= i < |entries| ==> !Over(|entries[i].data|, limits.perFileMax)
  {
    NoneOver(files, limits.perFileMax);
    SameMembers(Rows(entries), files);
    forall i | 0 <= i < |entries|
      ensures !Over(|entries[i].data|, limits.perFileMax)
    {
      assert Rows(entries)[i] in Rows(entries);
    }
  }

  // ---- Inline --------------------------------------------------------------

  /** One file of an inline call; None is content that cannot be decoded. */
  datatype InlineFile = InlineFile(name: string, content: Option<Bytes>)

  predicate PayloadPasses(p: InlineFile, files: seq<FileEntry>) {
    p.name in ByName(files) && p.content.Some? && |p.content.value| == ByName(files)[p.name]
  }

  /** Of two payload files with one name the later one counts. */
  function Decoded(payload: seq<InlineFile>): map<string, Bytes> {
    if payload == [] then map[]
    else
      var n := |payload| - 1;
      if payload[n].content.None? then Decoded(payload[..n])
      else Decoded(payload[..n])[payload[n].name := payload[n].content.value]
  }

  lemma {:induction false} DecodedSizes(payload: seq<InlineFile>, files: seq<FileEntry>)
    requires forall i :: 0 <= i < |payload| ==> PayloadPasses(payload[i], files)
    ensures forall name <- Decoded(payload) ::
      name in ByName(files) && |Decoded(payload)[name]| == ByName(files)[name]
  {
    if payload != [] {
      var n := |payload| - 1;
      assert PayloadPasses(payload[n], files);
      DecodedSizes(payload[..n], files);
    }
  }

  function InlineItems(files: seq<FileEntry>, decoded: map<string, Bytes>): seq<Item>
    requires forall i :: 0 <= i < |files| ==> files[i].name in decoded
  {
    seq(|files|, i requires 0 <= i < |files| => Item(files[i].name, decoded[files[i].name]))
  }

  predicate PayloadAccepted(payload: seq<InlineFile>, files: seq<FileEntry>) {
    && (forall i :: 0 <= i < |payload| ==> PayloadPasses(payload[i], files))
    && (forall i :: 0 <= i < |files| ==> files[i].name in Decoded(payload))
  }

  ghost predicate InlineSucceeds(
      t: Tree, path: Path, files: seq<FileEntry>, payload: seq<InlineFile>, disk: nat -> Disk)
  {
    && PayloadAccepted(payload, files) && CanOpen(t, path)
    && files != [] && DistinctNames(files)
    && Storable(InlineItems(files, Decoded(payload))) && RoomForManifest(InlineItems(files, Decoded(payload)))
    && AllHealthy(disk, |files| + 1)
  }

  /** What the first failing payload file is refused for. */
  function PayloadError(p: InlineFile, files: seq<FileEntry>): (error: Option<UploadError>)
    ensures error.None? <==> PayloadPasses(p, files)
  {
    if p.name !in ByName(files) then Some(Violated(ExtraFile, p.name))
    else if p.content.None? then Some(Violated(BadEncoding, p.name))
    else if |p.content.value| != ByName(files)[p.name] then Some(Violated(WrongSize, p.name))
    else None
  }

  /** The error is that of the first failing file, or names the first declared name that is missing. */
  ghost predicate PayloadFault(error: UploadError, payload: seq<InlineFile>, files: seq<FileEntry>) {
    || (exists i: nat :: i < |payload| && PayloadError(payload[i], files) == Some(error)
          && forall k :: 0 <= k < i ==> PayloadPasses(payload[k], files))
    || (error.Violated? && error.why.MissingFile? && error.name in NamesOf(files) && error.name !in Decoded(payload)
        && forall k :: 0 <= k < |payload| ==> PayloadPasses(payload[k], files))
  }

  method DecodePayload(files: seq<FileEntry>, payload: seq<InlineFile>)
      returns (r: Result<map<string, Bytes>, UploadError>)
    ensures r.Ok? <==> PayloadAccepted(payload, files)
    ensures r.Ok? ==> r.value == Decoded(payload)
    ensures r.Err? ==> PayloadFault(r.error, payload, files)
  {
    var byName := ByName(files);
    var decoded: map<string, Bytes> := map[];
    var i := 0;
    while i < |payload|
      invariant i <= |payload|
      invariant forall k :: 0 <= k < i ==> PayloadPasses(payload[k], files)
      invariant decoded == Decoded(payload[..i])
    {
      var entry := payload[i];
      if entry.name !in byName { return Err(Violated(ExtraFile, entry.name)); }
      if entry.content.None? { return Err(Violated(BadEncoding, entry.name)); }
      if |entry.content.value| != byName[entry.name] { return Err(Violated(WrongSize, entry.name)); }
      assert payload[..i + 1][..i] == payload[..i];
      decoded := decoded[entry.name := entry.content.value];
      i := i + 1;
    }
    assert payload[..i] == payload;
    var missing := FirstMissing(files, decoded.Keys);
    if missing.Some? {
      var k :| 0 <= k < |files| && files[k].name == missing.value;
      return Err(Violated(MissingFile, missing.value));
    }
    forall k | 0 <= k < |files|
      ensures files[k].name in decoded
    {
      assert files[k] in files;
    }
    return Ok(decoded);
  }

  method SendInline(
      backend: FilesystemBackend, path: Path, bundleId: string, createdAt: string, files: seq<FileEntry>,
      payload: seq<InlineFile>, disk: nat -> Disk, now: int)
      returns (r: Result<(), UploadError>)
    requires WellFormed(backend.tree) && path != [] && NamesInside(files)
    modifies backend`tree
    ensures r.Ok? <==> InlineSucceeds(old(backend.tree), path, files, payload, disk)
    ensures r.Ok? ==> CommittedAs(
      old(backend.tree), backend.tree, path, InlineItems(files, Decoded(payload)), Meta(bundleId, createdAt, files))
    ensures r.Err? ==> backend.tree == old(backend.tree) || RolledBack(old(backend.tree), backend.tree, path)
  {
    var decoding := DecodePayload(files, payload);
    if decoding.Err? { return Err(decoding.error); }
    var attempt := backend.OpenBundleWrite(path, now);
    if attempt.Err? { return Err(CannotOpen(attempt.error)); }
    OpenedHoldsNothing(old(backend.tree), path, now);
    var items := InlineItems(files, decoding.value);
    InlineStaysInside(files, items);
    if Storable(items) { InlineCommits(files, payload); }
    r := CompleteItems(
      attempt.value, old(backend.tree), now, items, Meta(bundleId, createdAt, files), disk, now);
  }

  lemma InlineStaysInside(files: seq<FileEntry>, items: seq<Item>)
    requires NamesInside(files) && |items| == |files|
    requires forall i :: 0 <= i < |files| ==> items[i].name == files[i].name
    ensures AllInside(items)
  {
    forall i | 0 <= i < |items|
      ensures StaysInside(items[i].name)
    {
      assert files[i] in files;
    }
  }

  lemma InlineCommits(files: seq<FileEntry>, payload: seq<InlineFile>)
    requires PayloadAccepted(payload, files) && Storable(InlineItems(files, Decoded(payload)))
    ensures DistinctNames(files)
    ensures DeclaredAsWritten(files, WrittenBy(InlineItems(files, Decoded(payload)))) <==> files != []
  {
    InlineNames(files, Decoded(payload));
    forall i | 0 <= i < |files|
      ensures files[i].name in WrittenBy(InlineItems(files, Decoded(payload)))
      ensures files[i].size == WrittenBy(InlineItems(files, Decoded(payload)))[files[i].name]
    {
      InlineRow(files, payload, i);
    }
  }

  lemma InlineNames(files: seq<FileEntry>, decoded: map<string, Bytes>)
    requires (forall i :: 0 <= i < |files| ==> files[i].name in decoded) && Storable(InlineItems(files, decoded))
    ensures DistinctNames(files)
    ensures WrittenBy(InlineItems(files, decoded)).Keys == set f <- files :: f.name
  {
    var items := InlineItems(files, decoded);
    SameNamesWritten(files, items);
    forall i, j | 0 <= i < j < |files|
      ensures files[i].name != files[j].name
    {
      assert items[i].name != items[j].name;
    }
  }

  lemma {:induction false} SameNamesWritten(files: seq<FileEntry>, items: seq<Item>)
    requires |items| == |files| && forall i :: 0 <= i < |files| ==> items[i].name == files[i].name
    ensures WrittenBy(items).Keys == set f <- files :: f.name
  {
    WrittenNames(items);
    forall name
      ensures name in (set f <- files :: f.name) <==> name in WrittenBy(items)
    {
      if name in WrittenBy(items) {
        var i: nat :| i < |items| && items[i].name == name;
        assert files[i] in files;
      }
      if f :| f in files && f.name == name {
        var i :| 0 <= i < |files| && files[i] == f;
        assert items[i].name == name;
      }
    }
  }

  lemma InlineRow(files: seq<FileEntry>, payload: seq<InlineFile>, i: nat)
    requires PayloadAccepted(payload, files) && DistinctNames(files) && i < |files|
    ensures var written := WrittenBy(InlineItems(files, Decoded(payload)));
      files[i].name in written && files[i].size == written[files[i].name]
  {
    var items := InlineItems(files, Decoded(payload));
    WrittenSize(items, i);
    DecodedSizes(payload, files);
    ByNameRow(files, files[i]);
  }
}
