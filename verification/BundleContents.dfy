/** What a bundle directory holds while its writer is at work, and after the commit. */
module BundleContents {
  import opened Strings
  import opened Tree
  import opened BundleTree
  import opened Storage
  import opened Wrappers

  /** A file to store: its name and its bytes. */
  datatype Item = Item(name: string, data: Bytes)

  function Target(dir: Path, name: string): Path {
    Position(dir, Segments(name))
  }

  /** Where a name leads, seen from the bundle directory. */
  function Down(name: string): Path {
    Target([], name)
  }

  /** A directory below the bundle directory that following the name goes through. */
  ghost predicate Through(name: string, v: Path) {
    Passes([], Segments(name), v)
  }

  /** Names that stay inside mean the same below every directory. */
  lemma TargetIsDown(dir: Path, name: string)
    requires StaysInside(name)
    ensures Target(dir, name) == dir + Down(name) && Within(dir, Target(dir, name))
  {
    InsidePosition(dir, Segments(name));
    InsidePosition([], Segments(name));
    assert [] + WayOf(Segments(name)).down == WayOf(Segments(name)).down;
  }

  lemma PassesBelow(dir: Path, name: string, v: Path)
    requires StaysInside(name)
    ensures Passes(dir, Segments(name), dir + v) <==> Through(name, v)
  {
    var parts := Segments(name);
    forall k: nat | k < |parts|
      ensures Position(dir, parts[..k]) == dir + v <==> Position([], parts[..k]) == v
    {
      PlaceBelow(dir, parts, k, v);
    }
  }

  lemma PlaceBelow(dir: Path, parts: Path, k: nat, v: Path)
    requires k <= |parts| && WayOf(parts).up == 0
    ensures Position(dir, parts[..k]) == dir + v <==> Position([], parts[..k]) == v
  {
    ClimbsOnly(parts, k);
    InsidePosition(dir, parts[..k]);
    InsidePosition([], parts[..k]);
    var down := WayOf(parts[..k]).down;
    assert [] + down == down;
    if dir + down == dir + v { assert down == (dir + down)[|dir|..] == (dir + v)[|dir|..] == v; }
  }

  /** The name ends in a file name of its own. */
  predicate EndsInFile(name: string) {
    Segments(name) != [] && Segments(name)[|Segments(name)| - 1] != ".."
  }

  // ---- Storing a list of items ---------------------------------------------

  function Stored(dir: Path, items: seq<Item>): map<Path, Bytes> {
    if items == [] then map[]
    else Stored(dir, items[..|items| - 1])[Target(dir, items[|items| - 1].name) := items[|items| - 1].data]
  }

  function WrittenBy(items: seq<Item>): map<string, nat> {
    if items == [] then map[]
    else WrittenBy(items[..|items| - 1])[items[|items| - 1].name := |items[|items| - 1].data|]
  }

  /** Some item's name leads to this place. */
  ghost predicate EndsAt(dir: Path, items: seq<Item>, q: Path) {
    exists i :: 0 <= i < |items| && Leads(dir, items[i], q)
  }

  predicate Leads(dir: Path, item: Item, q: Path) {
    Target(dir, item.name) == q
  }

  ghost predicate Any<T>(xs: seq<T>, p: T -> bool) {
    exists i :: 0 <= i < |xs| && p(xs[i])
  }

  lemma LastOrBefore<T>(xs: seq<T>, p: T -> bool)
    requires xs != []
    ensures Any(xs, p) <==> Any(xs[..|xs| - 1], p) || p(xs[|xs| - 1])
  {
    var front := xs[..|xs| - 1];
    if i :| 0 <= i < |xs| && p(xs[i]) {
      if i < |front| { assert p(front[i]); }
    }
    if i :| 0 <= i < |front| && p(front[i]) { assert p(xs[i]); }
  }

  lemma EndsAtAny(dir: Path, items: seq<Item>, q: Path)
    ensures EndsAt(dir, items, q) <==> Any(items, item => Leads(dir, item, q))
  {
    var p := (item: Item) => Leads(dir, item, q);
    if i :| 0 <= i < |items| && Leads(dir, items[i], q) { assert p(items[i]); }
    if i :| 0 <= i < |items| && p(items[i]) { assert Leads(dir, items[i], q); }
  }

  lemma EndsAtStep(dir: Path, items: seq<Item>, q: Path)
    requires items != []
    ensures EndsAt(dir, items, q) <==>
      EndsAt(dir, items[..|items| - 1], q) || Leads(dir, items[|items| - 1], q)
  {
    EndsAtAny(dir, items, q);
    EndsAtAny(dir, items[..|items| - 1], q);
    LastOrBefore(items, item => Leads(dir, item, q));
  }

  lemma {:induction false} StoredAt(dir: Path, items: seq<Item>, q: Path)
    ensures q in Stored(dir, items) <==> EndsAt(dir, items, q)
  {
    if items != [] {
      StoredAt(dir, items[..|items| - 1], q);
      EndsAtStep(dir, items, q);
    }
  }

  lemma {:induction false} WrittenNames(items: seq<Item>)
    ensures WrittenBy(items).Keys == set i: nat | i < |items| :: items[i].name
  {
    if items != [] { WrittenNames(items[..|items| - 1]); }
  }

  /** The directories that storing the items makes. */
  ghost predicate Made(dir: Path, items: seq<Item>, q: Path) {
    exists i :: 0 <= i < |items| && Passes(dir, Segments(items[i].name), q)
  }

  predicate AllInside(items: seq<Item>) {
    forall i :: 0 <= i < |items| ==> StaysInside(items[i].name)
  }

  /** The directory holds exactly these files, and only the directories on their ways. */
  ghost predicate Holds(t: Tree, dir: Path, items: seq<Item>) {
    && WellFormed(t) && IsDir(t, dir) && dir != [] && AllInside(items)
    && (forall q :: Within(dir, q) ==> HoldsAt(t, dir, items, q))
  }

  ghost predicate HoldsAt(t: Tree, dir: Path, items: seq<Item>, q: Path) {
    && (IsFile(t, q) <==> q in Stored(dir, items))
    && (q in Stored(dir, items) ==> t[q] == File(Data(Stored(dir, items)[q])))
    && (IsDir(t, q) <==> q == dir || Made(dir, items, q))
  }

  lemma OpenedHoldsNothing(t: Tree, dir: Path, now: int)
    requires WellFormed(t) && CanOpen(t, dir)
    ensures Holds(OpenTree(t, dir, now), dir, [])
  {
    CanOpenIsMkdirs(t, dir);
    MkdirsFrame(t, dir, now);
    assert Within(dir, dir);
    forall q | Within(dir, q)
      ensures !IsFile(OpenTree(t, dir, now), q) && (IsDir(OpenTree(t, dir, now), q) <==> q == dir)
    {
      assert q !in t;
    }
  }

  /** For a name that stays inside, what a write visits below the directory is what the name passes. */
  lemma VisitedBelow(dir: Path, parts: Path, q: Path)
    requires parts != [] && WayOf(parts).up == 0 && Within(dir, q)
    ensures Visited(dir, parts[..|parts| - 1], q) <==> Passes(dir, parts, q)
  {
    assert Position(dir, parts[..0]) == dir;
    if Passes(dir, parts, q) { PassedIsVisited(dir, parts, q); }
    if Visited(dir, parts[..|parts| - 1], q) && !Within(q, dir) { VisitedIsPassed(dir, parts, q); }
  }

  lemma PassedIsVisited(dir: Path, parts: Path, q: Path)
    requires parts != [] && Passes(dir, parts, q)
    ensures Visited(dir, parts[..|parts| - 1], q)
  {
    var k: nat :| k < |parts| && q == Position(dir, parts[..k]);
    assert parts[..|parts| - 1][..k] == parts[..k];
  }

  lemma VisitedIsPassed(dir: Path, parts: Path, q: Path)
    requires parts != [] && Visited(dir, parts[..|parts| - 1], q) && !Within(q, dir)
    ensures Passes(dir, parts, q)
  {
    var front := parts[..|parts| - 1];
    var k: nat :| k <= |front| && q == Position(dir, front[..k]);
    assert front[..k] == parts[..k];
  }

  /** A file can be stored unless its name passes a stored file, or ends at a directory. */
  lemma CanStoreIff(t: Tree, dir: Path, items: seq<Item>, name: string)
    requires Holds(t, dir, items) && StaysInside(name)
    ensures CanWriteAt(t, dir, Segments(name)) <==>
      && EndsInFile(name)
      && PassesNoFile(dir, items, Segments(name))
      && !Made(dir, items, Target(dir, name)) && !Passes(dir, Segments(name), Target(dir, name))
  {
    var parts := Segments(name);
    TargetIsDown(dir, name);
    if EndsInFile(name) {
      var front := parts[..|parts| - 1];
      ClimbsOnly(parts, |parts| - 1);
      InsidePosition(dir, parts);
      assert HoldsAt(t, dir, items, Target(dir, name));
      VisitedBelow(dir, parts, Target(dir, name));
      assert Position(dir, parts[..0]) == dir;
      WayIsFree(t, dir, items, parts);
    }
  }

  lemma StoredIsFile(t: Tree, dir: Path, items: seq<Item>, f: Path)
    requires Holds(t, dir, items) && f in Stored(dir, items)
    ensures IsFile(t, f)
  {
    StoredAt(dir, items, f);
    var i :| 0 <= i < |items| && Leads(dir, items[i], f);
    TargetIsDown(dir, items[i].name);
    assert HoldsAt(t, dir, items, f);
  }

  ghost predicate PassesNoFile(dir: Path, items: seq<Item>, parts: Path) {
    forall f <- Stored(dir, items).Keys :: !Passes(dir, parts, f)
  }

  lemma WayIsFree(t: Tree, dir: Path, items: seq<Item>, parts: Path)
    requires Holds(t, dir, items) && parts != [] && WayOf(parts).up == 0
    ensures CanVisit(t, dir, parts[..|parts| - 1]) <==> PassesNoFile(dir, items, parts)
  {
    if CanVisit(t, dir, parts[..|parts| - 1]) { FreeWayPassesNoFile(t, dir, items, parts); }
    if PassesNoFile(dir, items, parts) { WayWithoutFiles(t, dir, items, parts); }
  }

  lemma FreeWayPassesNoFile(t: Tree, dir: Path, items: seq<Item>, parts: Path)
    requires Holds(t, dir, items) && parts != [] && CanVisit(t, dir, parts[..|parts| - 1])
    ensures PassesNoFile(dir, items, parts)
  {
    forall f | f in Stored(dir, items).Keys
      ensures !Passes(dir, parts, f)
    {
      StoredIsFile(t, dir, items, f);
      VisitedIsNoFile(t, dir, parts, f);
    }
  }

  lemma WayWithoutFiles(t: Tree, dir: Path, items: seq<Item>, parts: Path)
    requires Holds(t, dir, items) && parts != [] && WayOf(parts).up == 0 && PassesNoFile(dir, items, parts)
    ensures CanVisit(t, dir, parts[..|parts| - 1])
  {
    var front := parts[..|parts| - 1];
    ClimbsOnly(parts, |parts| - 1);
    CanMkdirsHere(t, dir);
    forall k: nat | k <= |front|
      ensures !IsFile(t, Position(dir, front[..k]))
    {
      assert front[..k] == parts[..k];
      PassedIsNoFile(t, dir, items, parts, k);
    }
  }

  lemma VisitedIsNoFile(t: Tree, dir: Path, parts: Path, f: Path)
    requires parts != [] && CanVisit(t, dir, parts[..|parts| - 1]) && IsFile(t, f)
    ensures !Passes(dir, parts, f)
  {
    var front := parts[..|parts| - 1];
    forall k: nat | k < |parts|
      ensures Position(dir, parts[..k]) != f
    {
      assert front[..k] == parts[..k];
    }
  }

  lemma CanMkdirsHere(t: Tree, dir: Path)
    requires WellFormed(t) && IsDir(t, dir)
    ensures CanMkdirs(t, dir)
  {
    forall q | Within(q, dir) && q in t
      ensures t[q].Dir?
    {
    }
  }

  lemma PassedIsNoFile(t: Tree, dir: Path, items: seq<Item>, parts: Path, k: nat)
    requires Holds(t, dir, items) && k < |parts| && WayOf(parts).up == 0
    requires PassesNoFile(dir, items, parts)
    ensures !IsFile(t, Position(dir, parts[..k]))
  {
    var q := Position(dir, parts[..k]);
    ClimbsOnly(parts, k);
    InsidePosition(dir, parts[..k]);
    assert Passes(dir, parts, q) && HoldsAt(t, dir, items, q);
  }

  lemma StoreHolds(t: Tree, dir: Path, items: seq<Item>, item: Item, now: int)
    requires Holds(t, dir, items) && StaysInside(item.name) && CanWriteAt(t, dir, Segments(item.name))
    ensures Holds(TryWrite(t, dir, Segments(item.name), Data(item.data), now), dir, items + [item])
  {
    var parts := Segments(item.name);
    var r := TryWrite(t, dir, parts, Data(item.data), now);
    WriteFrame(t, dir, parts, Data(item.data), now);
    assert Visited(dir, parts[..|parts| - 1], dir);
    forall q | Within(dir, q)
      ensures HoldsAt(r, dir, items + [item], q)
    {
      assert HoldsAt(t, dir, items, q);
      StoreHoldsAt(t, r, dir, items, item, q);
    }
  }

  lemma StoreHoldsAt(t: Tree, r: Tree, dir: Path, items: seq<Item>, item: Item, q: Path)
    requires HoldsAt(t, dir, items, q) && StaysInside(item.name) && Within(dir, q) && Segments(item.name) != []
    requires GainsFile(t, r, Target(dir, item.name), Data(item.data))
    requires GainsDirs(t, r, dir, Segments(item.name)[..|Segments(item.name)| - 1])
    ensures HoldsAt(r, dir, items + [item], q)
  {
    StoredMore(dir, items, item);
    VisitedBelow(dir, Segments(item.name), q);
    MadeStep(dir, items, item, q);
    assert Position(dir, Segments(item.name)[..0]) == dir;
  }

  lemma StoredMore(dir: Path, items: seq<Item>, item: Item)
    ensures Stored(dir, items + [item]) == Stored(dir, items)[Target(dir, item.name) := item.data]
  {
    assert (items + [item])[..|items|] == items;
  }

  lemma MadeStep(dir: Path, items: seq<Item>, item: Item, q: Path)
    ensures Made(dir, items + [item], q) <==> Made(dir, items, q) || Passes(dir, Segments(item.name), q)
  {
    var more := items + [item];
    if i :| 0 <= i < |items| && Passes(dir, Segments(items[i].name), q) { assert more[i] == items[i]; }
    assert more[|items|] == item;
  }

  /** Names denote files inside the bundle, and none ends where another one passes. */
  ghost predicate Storable(items: seq<Item>) {
    && AllInside(items)
    && (forall i :: 0 <= i < |items| ==> items[i].name != "" && EndsInFile(items[i].name))
    && (forall i, j :: 0 <= i < |items| && 0 <= j < |items| ==> !Through(items[i].name, Down(items[j].name)))
    && (forall i, j :: 0 <= i < j < |items| ==> items[i].name != items[j].name)
  }

  /** A new name is apart from itself and from all earlier ones. */
  ghost predicate Apart(before: seq<Item>, name: string) {
    && !Through(name, Down(name))
    && forall i :: 0 <= i < |before| ==>
         !Through(before[i].name, Down(name)) && !Through(name, Down(before[i].name))
  }

  lemma CanStoreNext(t: Tree, dir: Path, before: seq<Item>, name: string)
    requires Holds(t, dir, before) && StaysInside(name)
    ensures CanWriteAt(t, dir, Segments(name)) <==> EndsInFile(name) && Apart(before, name)
  {
    CanStoreIff(t, dir, before, name);
    forall f
      ensures f in Stored(dir, before) <==> EndsAt(dir, before, f)
    {
      StoredAt(dir, before, f);
    }
    TargetIsDown(dir, name);
    PassesBelow(dir, name, Down(name));
    forall i | 0 <= i < |before|
      ensures EndsAt(dir, before, Target(dir, before[i].name))
      ensures Passes(dir, Segments(name), Target(dir, before[i].name)) <==> Through(name, Down(before[i].name))
      ensures Passes(dir, Segments(before[i].name), Target(dir, name)) <==> Through(before[i].name, Down(name))
    {
      assert Leads(dir, before[i], Target(dir, before[i].name));
      TargetIsDown(dir, before[i].name);
      PassesBelow(dir, name, Down(before[i].name));
      PassesBelow(dir, before[i].name, Down(name));
    }
  }

  lemma StorableExtends(before: seq<Item>, item: Item)
    requires Storable(before) && StaysInside(item.name)
    ensures Storable(before + [item]) <==>
      item.name != "" && EndsInFile(item.name) && Apart(before, item.name)
      && forall i :: 0 <= i < |before| ==> before[i].name != item.name
  {
    var all := before + [item];
    assert all[|before|] == item;
    if Storable(all) {
      forall i | 0 <= i < |before|
        ensures before[i].name != item.name
        ensures !Through(before[i].name, Down(item.name)) && !Through(item.name, Down(before[i].name))
      {
        assert all[i] == before[i];
      }
    }
  }

  /** The next item can be stored exactly when the list so far stays storable. */
  lemma NextStorable(t: Tree, dir: Path, before: seq<Item>, item: Item)
    requires Storable(before) && Holds(t, dir, before) && StaysInside(item.name)
    ensures (item.name != "" && item.name !in WrittenBy(before) && CanWriteAt(t, dir, Segments(item.name))) <==>
      Storable(before + [item])
  {
    CanStoreNext(t, dir, before, item.name);
    StorableExtends(before, item);
    WrittenNames(before);
  }

  lemma StorablePrefix(items: seq<Item>, n: nat)
    requires n <= |items| && Storable(items)
    ensures Storable(items[..n])
  {
  }

  // ---- After the commit ----------------------------------------------------

  /** No name needs a directory where the manifest or its temporary file goes. */
  ghost predicate RoomForManifest(items: seq<Item>) {
    forall i :: 0 <= i < |items| ==> !Through(items[i].name, [META]) && !Through(items[i].name, [META_TMP])
  }

  lemma CanCommitIff(t: Tree, dir: Path, items: seq<Item>)
    requires Holds(t, dir, items)
    ensures CanCommit(t, dir) <==> RoomForManifest(items)
  {
    InsideBundle(dir, [META]);
    InsideBundle(dir, [META_TMP]);
    assert HoldsAt(t, dir, items, dir + [META]) && HoldsAt(t, dir, items, dir + [META_TMP]);
    assert dir + [META] != dir && dir + [META_TMP] != dir;
    forall i | 0 <= i < |items|
      ensures Passes(dir, Segments(items[i].name), dir + [META]) <==> Through(items[i].name, [META])
      ensures Passes(dir, Segments(items[i].name), dir + [META_TMP]) <==> Through(items[i].name, [META_TMP])
    {
      PassesBelow(dir, items[i].name, [META]);
      PassesBelow(dir, items[i].name, [META_TMP]);
    }
  }

  ghost predicate ReadsBack(t: Tree, dir: Path, item: Item) {
    ReadFile(t, dir, Segments(item.name)) == Some(Data(item.data))
  }

  /** No two names lead to one place; canonical names do not. */
  predicate DistinctPlaces(items: seq<Item>) {
    forall i, j :: 0 <= i < j < |items| ==> Down(items[i].name) != Down(items[j].name)
  }

  lemma CanonicalPlaces(items: seq<Item>)
    requires forall i :: 0 <= i < |items| ==> Canonical(items[i].name)
    requires forall i, j :: 0 <= i < j < |items| ==> items[i].name != items[j].name
    ensures AllInside(items) && DistinctPlaces(items)
    ensures forall i :: 0 <= i < |items| ==> Down(items[i].name) == Segments(items[i].name)
  {
    forall i | 0 <= i < |items|
      ensures StaysInside(items[i].name) && Down(items[i].name) == Segments(items[i].name)
      ensures WayOf(Segments(items[i].name)) == Way(0, Segments(items[i].name))
    {
      CanonicalParts(items[i].name);
      InsidePosition([], Segments(items[i].name));
      assert [] + Segments(items[i].name) == Segments(items[i].name);
    }
    forall i, j | 0 <= i < j < |items|
      ensures Down(items[i].name) != Down(items[j].name)
    {
      if Segments(items[i].name) == Segments(items[j].name) {
        CanonicalNamesAreDistinctPaths(items[i].name, items[j].name);
      }
    }
  }

  lemma PlacesDiffer(dir: Path, a: string, b: string)
    requires StaysInside(a) && StaysInside(b) && Down(a) != Down(b)
    ensures Target(dir, a) != Target(dir, b)
  {
    TargetIsDown(dir, a);
    TargetIsDown(dir, b);
    assert (dir + Down(a))[|dir|..] == Down(a) && (dir + Down(b))[|dir|..] == Down(b);
  }

  /** The last item stored at a place is the one found there. */
  lemma {:induction false} StoredDistinct(dir: Path, items: seq<Item>, i: nat)
    requires i < |items| && AllInside(items) && DistinctPlaces(items)
    ensures Target(dir, items[i].name) in Stored(dir, items)
    ensures Stored(dir, items)[Target(dir, items[i].name)] == items[i].data
  {
    var n := |items| - 1;
    if i < n {
      var front := items[..n];
      assert front[i] == items[i];
      StoredDistinct(dir, front, i);
      PlacesDiffer(dir, items[i].name, items[n].name);
    }
  }

  /** A place for the bundle's own files. */
  predicate ReservedPlace(v: Path) {
    v == [META] || v == [META_TMP]
  }

  /** If no two names lead to one place, a committed item reads back exactly when its place is not reserved. */
  lemma ReadsBackIff(t: Tree, dir: Path, items: seq<Item>, i: nat, meta: Meta, now: int)
    requires Holds(t, dir, items) && CanCommit(t, dir) && i < |items| && DistinctPlaces(items)
    ensures ReadsBack(CommitTree(t, dir, meta, now), dir, items[i]) <==> !ReservedPlace(Down(items[i].name))
    ensures ReadMeta(CommitTree(t, dir, meta, now), dir) == Some(meta)
  {
    var r := CommitTree(t, dir, meta, now);
    CommitFrame(t, dir, meta, now);
    WayStays(t, r, dir, items, i);
    TargetIsDown(dir, items[i].name);
    FoundInPlace(t, dir, items, i);
    FoundAfterCommit(t, r, dir, Down(items[i].name), items[i].data, meta);
  }

  lemma WayStays(t: Tree, r: Tree, dir: Path, items: seq<Item>, i: nat)
    requires Holds(t, dir, items) && i < |items| && forall q :: IsDir(r, q) <==> IsDir(t, q)
    ensures CanFollow(r, dir, Segments(items[i].name))
  {
    WayIsThere(t, dir, items, i);
  }

  lemma FoundInPlace(t: Tree, dir: Path, items: seq<Item>, i: nat)
    requires Holds(t, dir, items) && i < |items| && DistinctPlaces(items)
    ensures IsFile(t, dir + Down(items[i].name)) && t[dir + Down(items[i].name)] == File(Data(items[i].data))
  {
    StoredDistinct(dir, items, i);
    TargetIsDown(dir, items[i].name);
    assert HoldsAt(t, dir, items, Target(dir, items[i].name));
  }

  /** A commit replaces the file at the manifest's place and takes away that at the temporary one. */
  lemma FoundAfterCommit(t: Tree, r: Tree, dir: Path, v: Path, data: Bytes, meta: Meta)
    requires IsFile(t, dir + v) && t[dir + v] == File(Data(data))
    requires forall q :: IsFile(r, q) <==> (IsFile(t, q) && q != dir + [META_TMP]) || q == dir + [META]
    requires forall q :: IsFile(t, q) && q != dir + [META_TMP] && q != dir + [META] ==> q in r && r[q] == t[q]
    requires dir + [META] in r && r[dir + [META]] == File(Json(meta))
    ensures (IsFile(r, dir + v) && r[dir + v] == File(Data(data))) <==> !ReservedPlace(v)
  {
    assert (dir + v)[|dir|..] == v;
    assert (dir + [META])[|dir|..] == [META] && (dir + [META_TMP])[|dir|..] == [META_TMP];
    assert META != META_TMP;
  }

  lemma WayIsThere(t: Tree, dir: Path, items: seq<Item>, i: nat)
    requires Holds(t, dir, items) && i < |items|
    ensures CanFollow(t, dir, Segments(items[i].name))
    ensures forall k: nat :: k < |Segments(items[i].name)| ==> IsDir(t, Position(dir, Segments(items[i].name)[..k]))
  {
    var parts := Segments(items[i].name);
    InsidePosition(dir, parts);
    forall k: nat | k < |parts|
      ensures IsDir(t, Position(dir, parts[..k]))
    {
      var q := Position(dir, parts[..k]);
      ClimbsOnly(parts, k);
      InsidePosition(dir, parts[..k]);
      assert Passes(dir, parts, q) && HoldsAt(t, dir, items, q);
    }
  }

  // ---- Rolling back --------------------------------------------------------

  /** As before an open at `p`, except that directories above `p` may be new or touched. */
  ghost predicate RolledBack(t: Tree, r: Tree, p: Path) {
    && (forall q :: !Above(q, p) ==> (q in r <==> q in t) && (q in t ==> r[q] == t[q]))
    && (forall q :: Above(q, p) ==> IsDir(r, q) && (q in t ==> IsDir(t, q)))
  }

  lemma AbortRollsBack(t: Tree, r: Tree, p: Path, openedAt: int, now: int)
    requires WellFormed(t) && CanOpen(t, p) && WellFormed(r) && IsDir(r, p)
    requires SameOutside(OpenTree(t, p, openedAt), r, p)
    ensures RolledBack(t, Remove(r, p, now), p)
  {
    CanOpenIsMkdirs(t, p);
    MkdirsFrame(t, p, openedAt);
    RemoveFrame(r, p, now);
    assert Above(Parent(p), p);
    forall q | Within(p, q)
      ensures q !in t && !Above(q, p)
    {
    }
    forall q | Above(q, p)
      ensures IsDir(Remove(r, p, now), q)
    {
      assert IsDir(r, q);
    }
  }

  /** A committed upload changed nothing outside its own directory either. */
  lemma CommitElsewhere(t: Tree, r: Tree, p: Path, openedAt: int)
    requires WellFormed(t) && CanOpen(t, p) && SameOutside(OpenTree(t, p, openedAt), r, p)
    ensures forall q :: !Within(p, q) && !Above(q, p) ==> (q in r <==> q in t) && (q in t ==> r[q] == t[q])
  {
  }
}
