/** Python string comparison, and the slash-separated names the storage layer turns into paths. */
module Strings {

  /** Code-point order: the first difference decides, and a proper prefix comes first. */
  predicate Less(a: string, b: string) {
    if b == "" then false
    else if a == "" then true
    else a[0] < b[0] || (a[0] == b[0] && Less(a[1..], b[1..]))
  }

  predicate LessEq(a: string, b: string) {
    !Less(b, a)
  }

  lemma {:induction false} LessIrreflexive(a: string)
    ensures !Less(a, a)
  {
    if a != "" { LessIrreflexive(a[1..]); }
  }

  lemma {:induction false} LessTransitive(a: string, b: string, c: string)
    requires Less(a, b) && Less(b, c)
    ensures Less(a, c)
  {
    if a != "" && a[0] == b[0] == c[0] { LessTransitive(a[1..], b[1..], c[1..]); }
  }

  lemma {:induction false} LessTotal(a: string, b: string)
    ensures Less(a, b) || a == b || Less(b, a)
  {
    if a != "" && b != "" && a[0] == b[0] {
      LessTotal(a[1..], b[1..]);
      assert a == [a[0]] + a[1..] && b == [b[0]] + b[1..];
    }
  }

  lemma LessAsymmetric(a: string, b: string)
    requires Less(a, b)
    ensures !Less(b, a)
  {
    if Less(b, a) {
      LessTransitive(a, b, a);
      LessIrreflexive(a);
    }
  }

  lemma LessEqTransitive(a: string, b: string, c: string)
    requires LessEq(a, b) && LessEq(b, c)
    ensures LessEq(a, c)
  {
    LessTotal(a, b);
    LessTotal(b, c);
    if Less(c, a) {
      if a == b || b == c {
      } else {
        LessTransitive(a, b, c);
        LessAsymmetric(a, c);
      }
    }
  }

  /** A common prefix does not matter to the comparison. */
  lemma {:induction false} LessAfterPrefix(p: string, a: string, b: string)
    ensures Less(p + a, p + b) <==> Less(a, b)
  {
    if p == "" {
      assert p + a == a && p + b == b;
    } else {
      assert (p + a)[1..] == p[1..] + a && (p + b)[1..] == p[1..] + b;
      LessAfterPrefix(p[1..], a, b);
    }
  }

  // ---- Names as paths ------------------------------------------------------

  function SplitSlash(s: string): (parts: seq<string>)
    ensures |parts| >= 1
  {
    if s == "" then [""]
    else
      var rest := SplitSlash(s[1..]);
      if s[0] == '/' then [""] + rest else [[s[0]] + rest[0]] + rest[1..]
  }

  function JoinSlash(parts: seq<string>): string {
    if parts == [] then ""
    else if |parts| == 1 then parts[0]
    else parts[0] + "/" + JoinSlash(parts[1..])
  }

  /** pathlib drops empty and "." parts when a name is appended to a directory. */
  function DropDots(parts: seq<string>): (kept: seq<string>)
    ensures forall k :: 0 <= k < |kept| ==> kept[k] in parts && kept[k] != "" && kept[k] != "."
  {
    if parts == [] then []
    else if parts[0] == "" || parts[0] == "." then DropDots(parts[1..])
    else [parts[0]] + DropDots(parts[1..])
  }

  /** The parts that pathlib appends to a directory for a relative name. */
  function Segments(name: string): seq<string> {
    DropDots(SplitSlash(name))
  }

  /** pathlib forgets the directory when such a name is appended to it. */
  predicate Absolute(name: string) {
    name != "" && name[0] == '/'
  }

  /** No empty, "." or ".." part, so the name spells its path in only one way. */
  predicate Canonical(name: string) {
    forall part <- SplitSlash(name) :: part != "" && part != "." && part != ".."
  }

  // ---- Where parts lead ------------------------------------------------------

  /** How far above its start a walk climbs, and the path it then goes down. */
  datatype Way = Way(up: nat, down: seq<string>)

  function Follow(w: Way, part: string): Way {
    if part != ".." then w.(down := w.down + [part])
    else if w.down != [] then w.(down := w.down[..|w.down| - 1])
    else w.(up := w.up + 1)
  }

  /** The operating system follows the parts one by one. */
  function WayOf(parts: seq<string>): Way {
    if parts == [] then Way(0, []) else Follow(WayOf(parts[..|parts| - 1]), parts[|parts| - 1])
  }

  /** A relative name whose walk never climbs above its start. */
  predicate StaysInside(name: string) {
    !Absolute(name) && WayOf(Segments(name)).up == 0
  }

  /** A walk that has climbed stays climbed. */
  lemma {:induction false} ClimbsOnly(parts: seq<string>, k: nat)
    requires k <= |parts|
    ensures WayOf(parts[..k]).up <= WayOf(parts).up
  {
    var n := |parts| - 1;
    if k <= n {
      ClimbsOnly(parts[..n], k);
      assert parts[..n][..k] == parts[..k];
    } else {
      assert parts[..k] == parts;
    }
  }

  /** Every part of the way down is a part of the name. */
  lemma {:induction false} DownIsFromParts(parts: seq<string>)
    ensures forall part <- WayOf(parts).down :: part in parts && part != ".."
  {
    if parts != [] {
      var n := |parts| - 1;
      DownIsFromParts(parts[..n]);
      assert parts == parts[..n] + [parts[n]];
    }
  }

  /** Without ".." a walk goes straight down. */
  lemma {:induction false} PlainWay(parts: seq<string>)
    requires ".." !in parts
    ensures WayOf(parts) == Way(0, parts)
  {
    if parts != [] {
      var n := |parts| - 1;
      assert parts == parts[..n] + [parts[n]];
      assert ".." !in parts[..n];
      PlainWay(parts[..n]);
    }
  }

  lemma CanonicalParts(name: string)
    requires Canonical(name)
    ensures Segments(name) == SplitSlash(name) && ".." !in Segments(name)
    ensures StaysInside(name) && WayOf(Segments(name)).down == Segments(name)
  {
    DropDotsKeepsAll(SplitSlash(name));
    PlainWay(Segments(name));
    if Absolute(name) { AbsoluteHasEmptyPart(name); }
  }

  lemma AbsoluteHasEmptyPart(name: string)
    requires Absolute(name)
    ensures "" in SplitSlash(name)
  {
    assert SplitSlash(name)[0] == "";
  }

  lemma JoinPrependChar(c: char, parts: seq<string>)
    requires parts != []
    ensures JoinSlash([[c] + parts[0]] + parts[1..]) == [c] + JoinSlash(parts)
  {
    assert ([[c] + parts[0]] + parts[1..])[1..] == parts[1..];
  }

  lemma {:induction false} JoinSplit(s: string)
    ensures JoinSlash(SplitSlash(s)) == s
  {
    if s != "" {
      JoinSplit(s[1..]);
      var rest := SplitSlash(s[1..]);
      assert s == [s[0]] + s[1..];
      if s[0] == '/' {
        assert ([""] + rest)[1..] == rest;
        assert s == "" + "/" + JoinSlash(rest);
      } else {
        JoinPrependChar(s[0], rest);
      }
    }
  }

  lemma {:induction false} DropDotsKeepsAll(parts: seq<string>)
    requires forall part <- parts :: part != "" && part != "."
    ensures DropDots(parts) == parts
  {
    if parts != [] {
      assert parts[0] in parts;
      assert forall part <- parts[1..] :: part in parts;
      DropDotsKeepsAll(parts[1..]);
    }
  }

  /** Distinct canonical names denote distinct paths. */
  lemma CanonicalNamesAreDistinctPaths(a: string, b: string)
    requires Canonical(a) && Canonical(b)
    requires WayOf(Segments(a)) == WayOf(Segments(b))
    ensures a == b
  {
    CanonicalParts(a);
    CanonicalParts(b);
    JoinSplit(a);
    JoinSplit(b);
  }

  lemma {:induction false} SplitWithoutSlash(a: string)
    requires '/' !in a
    ensures SplitSlash(a) == [a]
  {
    if a != "" {
      assert a[0] in a && forall c <- a[1..] :: c in a;
      SplitWithoutSlash(a[1..]);
      assert a == [a[0]] + a[1..];
    }
  }

  lemma {:induction false} SplitAtFirstSlash(a: string, b: string)
    requires '/' !in a
    ensures SplitSlash(a + "/" + b) == [a] + SplitSlash(b)
  {
    var s := a + "/" + b;
    if a == "" {
      assert s[1..] == b;
    } else {
      assert a[0] in a && forall c <- a[1..] :: c in a;
      assert s[1..] == a[1..] + "/" + b;
      SplitAtFirstSlash(a[1..], b);
      assert a == [a[0]] + a[1..];
    }
  }

  lemma {:induction false} SplitJoin(parts: seq<string>)
    requires parts != [] && forall part <- parts :: '/' !in part
    ensures SplitSlash(JoinSlash(parts)) == parts
  {
    assert parts[0] in parts;
    if |parts| == 1 {
      SplitWithoutSlash(parts[0]);
    } else {
      assert forall part <- parts[1..] :: part in parts;
      SplitJoin(parts[1..]);
      SplitAtFirstSlash(parts[0], JoinSlash(parts[1..]));
    }
  }
}

/** Python's stable `sorted`, ascending or with `reverse=True`, by a string key. */
module Sorting {
  import opened Strings

  /** May an item with key `a` stand before one with key `b`? */
  predicate Before(a: string, b: string, descending: bool) {
    if descending then LessEq(b, a) else LessEq(a, b)
  }

  lemma BeforeTransitive(a: string, b: string, c: string, descending: bool)
    requires Before(a, b, descending) && Before(b, c, descending)
    ensures Before(a, c, descending)
  {
    if descending { LessEqTransitive(c, b, a); } else { LessEqTransitive(a, b, c); }
  }

  lemma BeforeTotal(a: string, b: string, descending: bool)
    ensures Before(a, b, descending) || Before(b, a, descending)
    ensures Before(a, a, descending)
  {
    LessTotal(a, b);
    LessIrreflexive(a);
    if Less(a, b) { LessAsymmetric(a, b); }
    if Less(b, a) { LessAsymmetric(b, a); }
  }

  predicate Sorted<T(!new)>(xs: seq<T>, key: T -> string, descending: bool) {
    forall i, j :: 0 <= i < j < |xs| ==> Before(key(xs[i]), key(xs[j]), descending)
  }

  /** Inserts `x` behind every item that may stand before it. */
  function Insert<T>(x: T, xs: seq<T>, key: T -> string, descending: bool): (r: seq<T>)
    ensures |r| == |xs| + 1
  {
    if xs == [] then [x]
    else if Before(key(xs[0]), key(x), descending) then [xs[0]] + Insert(x, xs[1..], key, descending)
    else [x] + xs
  }

  /** Items are taken from the left, so equal keys keep their order. */
  function StableSort<T>(xs: seq<T>, key: T -> string, descending: bool): (r: seq<T>)
    ensures |r| == |xs|
  {
    if xs == [] then []
    else Insert(xs[|xs| - 1], StableSort(xs[..|xs| - 1], key, descending), key, descending)
  }

  lemma {:induction false} InsertKeepsItems<T>(x: T, xs: seq<T>, key: T -> string, descending: bool)
    ensures multiset(Insert(x, xs, key, descending)) == multiset(xs) + multiset{x}
  {
    if xs != [] {
      assert xs == [xs[0]] + xs[1..];
      if Before(key(xs[0]), key(x), descending) { InsertKeepsItems(x, xs[1..], key, descending); }
    }
  }

  lemma {:induction false} StableSortKeepsItems<T>(xs: seq<T>, key: T -> string, descending: bool)
    ensures multiset(StableSort(xs, key, descending)) == multiset(xs)
  {
    if xs != [] {
      var n := |xs| - 1;
      assert xs == xs[..n] + [xs[n]];
      StableSortKeepsItems(xs[..n], key, descending);
      InsertKeepsItems(xs[n], StableSort(xs[..n], key, descending), key, descending);
    }
  }

  lemma {:induction false} InsertSorted<T(!new)>(x: T, xs: seq<T>, key: T -> string, descending: bool)
    requires Sorted(xs, key, descending)
    ensures Sorted(Insert(x, xs, key, descending), key, descending)
  {
    var r := Insert(x, xs, key, descending);
    if xs == [] {
    } else if Before(key(xs[0]), key(x), descending) {
      var tail := Insert(x, xs[1..], key, descending);
      InsertSorted(x, xs[1..], key, descending);
      InsertKeepsItems(x, xs[1..], key, descending);
      forall j | 0 < j < |r|
        ensures Before(key(r[0]), key(r[j]), descending)
      {
        assert r[j] == tail[j - 1] && tail[j - 1] in multiset(tail);
        assert multiset(tail) == multiset(xs[1..]) + multiset{x};
      }
    } else {
      BeforeTotal(key(xs[0]), key(x), descending);
      forall j | 0 < j < |r|
        ensures Before(key(r[0]), key(r[j]), descending)
      {
        if j > 1 { BeforeTransitive(key(x), key(xs[0]), key(xs[j - 1]), descending); }
      }
    }
  }

  lemma {:induction false} StableSortSorted<T(!new)>(xs: seq<T>, key: T -> string, descending: bool)
    ensures Sorted(StableSort(xs, key, descending), key, descending)
  {
    if xs != [] {
      var n := |xs| - 1;
      StableSortSorted(xs[..n], key, descending);
      InsertSorted(xs[n], StableSort(xs[..n], key, descending), key, descending);
    }
  }

  /** The items with this key, in order. */
  function WithKey<T>(xs: seq<T>, key: T -> string, v: string): seq<T> {
    if xs == [] then []
    else (if key(xs[0]) == v then [xs[0]] else []) + WithKey(xs[1..], key, v)
  }

  lemma {:induction false} WithKeyAtEnd<T>(xs: seq<T>, x: T, key: T -> string, v: string)
    ensures WithKey(xs + [x], key, v) == WithKey(xs, key, v) + if key(x) == v then [x] else []
  {
    if xs == [] {
      assert xs + [x] == [x] && [x][1..] == [];
    } else {
      assert (xs + [x])[1..] == xs[1..] + [x];
      WithKeyAtEnd(xs[1..], x, key, v);
    }
  }

  lemma {:induction false} NoneWithKey<T(!new)>(xs: seq<T>, key: T -> string, v: string)
    requires forall i :: 0 <= i < |xs| ==> key(xs[i]) != v
    ensures WithKey(xs, key, v) == []
  {
    if xs != [] { NoneWithKey(xs[1..], key, v); }
  }

  /** Where a new item goes to the front, no tie is behind it. */
  lemma NoTieBehind<T(!new)>(x: T, xs: seq<T>, key: T -> string, descending: bool)
    requires Sorted(xs, key, descending) && xs != [] && !Before(key(xs[0]), key(x), descending)
    ensures forall i :: 0 <= i < |xs| ==> key(xs[i]) != key(x)
  {
    BeforeTotal(key(xs[0]), key(xs[0]), descending);
    forall i | 0 <= i < |xs|
      ensures Before(key(xs[0]), key(xs[i]), descending)
    {
    }
  }

  lemma WithKeyAtFront<T>(x: T, xs: seq<T>, key: T -> string, v: string)
    ensures WithKey([x] + xs, key, v) == (if key(x) == v then [x] else []) + WithKey(xs, key, v)
  {
    assert ([x] + xs)[1..] == xs;
  }

  lemma SortedRest<T(!new)>(xs: seq<T>, key: T -> string, descending: bool)
    requires Sorted(xs, key, descending) && xs != []
    ensures Sorted(xs[1..], key, descending)
  {
  }

  lemma {:induction false} InsertKeepsTies<T(!new)>(x: T, xs: seq<T>, key: T -> string, descending: bool, v: string)
    requires Sorted(xs, key, descending)
    ensures WithKey(Insert(x, xs, key, descending), key, v) == WithKey(xs, key, v) + if key(x) == v then [x] else []
  {
    if xs == [] {
      assert Insert(x, xs, key, descending)[1..] == [];
    } else if Before(key(xs[0]), key(x), descending) {
      SortedRest(xs, key, descending);
      InsertKeepsTies(x, xs[1..], key, descending, v);
      WithKeyAtFront(xs[0], Insert(x, xs[1..], key, descending), key, v);
    } else {
      if key(x) == v {
        NoTieBehind(x, xs, key, descending);
        NoneWithKey(xs, key, v);
      }
      WithKeyAtFront(x, xs, key, v);
    }
  }

  /** Items with equal keys keep their order. */
  lemma {:induction false} StableSortKeepsTies<T(!new)>(xs: seq<T>, key: T -> string, descending: bool, v: string)
    ensures WithKey(StableSort(xs, key, descending), key, v) == WithKey(xs, key, v)
  {
    if xs != [] {
      var n := |xs| - 1;
      assert xs == xs[..n] + [xs[n]];
      StableSortKeepsTies(xs[..n], key, descending, v);
      StableSortSorted(xs[..n], key, descending);
      InsertKeepsTies(xs[n], StableSort(xs[..n], key, descending), key, descending, v);
      WithKeyAtEnd(xs[..n], xs[n], key, v);
    }
  }

  lemma SameItems<T>(xs: seq<T>, ys: seq<T>)
    requires multiset(xs) == multiset(ys)
    ensures forall i :: 0 <= i < |xs| ==> exists j :: 0 <= j < |ys| && ys[j] == xs[i]
  {
    forall i | 0 <= i < |xs|
      ensures exists j :: 0 <= j < |ys| && ys[j] == xs[i]
    {
      assert xs[i] in multiset(xs);
      assert xs[i] in multiset(ys);
      var j :| 0 <= j < |ys| && ys[j] == xs[i];
    }
  }

  predicate Distinct<T(==)>(xs: seq<T>) {
    forall i, j :: 0 <= i < j < |xs| ==> xs[i] != xs[j]
  }

  lemma {:induction false} DistinctCount<T>(xs: seq<T>, x: T)
    requires Distinct(xs)
    ensures multiset(xs)[x] <= 1
  {
    if xs != [] {
      assert xs == [xs[0]] + xs[1..];
      DistinctCount(xs[1..], x);
      if x == xs[0] { assert x !in xs[1..]; }
    }
  }

  lemma DistinctPermutation<T>(xs: seq<T>, ys: seq<T>)
    requires Distinct(xs) && multiset(xs) == multiset(ys)
    ensures Distinct(ys)
  {
    forall i, j | 0 <= i < j < |ys|
      ensures ys[i] != ys[j]
    {
      assert ys == ys[..i] + [ys[i]] + ys[i + 1..j] + [ys[j]] + ys[j + 1..];
      DistinctCount(xs, ys[i]);
      assert multiset(ys)[ys[i]] <= 1;
    }
  }

  /** The first item that no other item must precede. */
  predicate FirstBest<T(!new)>(xs: seq<T>, k: nat, key: T -> string, descending: bool)
    requires k < |xs|
  {
    && (forall i :: 0 <= i < |xs| ==> Before(key(xs[k]), key(xs[i]), descending))
    && (forall i :: 0 <= i < k ==> !Before(key(xs[i]), key(xs[k]), descending))
  }

  /** The sort is stable where it matters here: its head is the first best item. */
  lemma {:induction false} HeadIsFirstBest<T(!new)>(xs: seq<T>, k: nat, key: T -> string, descending: bool)
    requires k < |xs| && FirstBest(xs, k, key, descending)
    ensures StableSort(xs, key, descending)[0] == xs[k]
  {
    var n := |xs| - 1;
    var front := StableSort(xs[..n], key, descending);
    assert StableSort(xs, key, descending) == Insert(xs[n], front, key, descending);
    if n > 0 {
      if k < n {
        assert FirstBest(xs[..n], k, key, descending);
        HeadIsFirstBest(xs[..n], k, key, descending);
      } else {
        StableSortKeepsItems(xs[..n], key, descending);
        assert front[0] in multiset(front);
        var i :| 0 <= i < n && front[0] == xs[i];
      }
    }
  }
}
