/** Timestamps as text, the choice of the "latest" bundle, and the sorted inbox listing. */
module Latest {
  import opened Wrappers
  import opened Strings
  import opened Sorting

  // ---- Timestamps (compare section 5.1 of RFC 3339) ----------------------------

  /** A UTC instant by its calendar fields. */
  datatype Moment = Moment(year: int, month: int, day: int, hour: int, minute: int, second: int, micro: int)

  predicate ValidMoment(m: Moment) {
    && 0 <= m.year < 10_000 && 1 <= m.month <= 12 && 1 <= m.day <= 31
    && 0 <= m.hour < 24 && 0 <= m.minute < 60 && 0 <= m.second < 60 && 0 <= m.micro < 1_000_000
  }

  function Fields(m: Moment): seq<int> {
    [m.year, m.month, m.day, m.hour, m.minute, m.second, m.micro]
  }

  /** The first field that differs decides. */
  predicate Earlier(a: seq<int>, b: seq<int>)
    requires |a| == |b|
  {
    a != [] && (a[0] < b[0] || (a[0] == b[0] && Earlier(a[1..], b[1..])))
  }

  function Digits(n: int, width: nat): string
    requires n >= 0
  {
    if width == 0 then "" else Digits(n / 10, width - 1) + [(n % 10 + '0' as int) as char]
  }

  function Pow10(width: nat): int {
    if width == 0 then 1 else 10 * Pow10(width - 1)
  }

  /** The fraction is left out when it is zero. */
  function Fraction(micro: int): string
    requires micro >= 0
  {
    if micro == 0 then "+00:00" else "." + (Digits(micro, 6) + "+00:00")
  }

  /** Each field in its width, followed by its separator. */
  function IsoFormat(m: Moment): string
    requires ValidMoment(m)
  {
    Digits(m.year, 4) + ("-" + (Digits(m.month, 2) + ("-" + (Digits(m.day, 2) + ("T" +
    (Digits(m.hour, 2) + (":" + (Digits(m.minute, 2) + (":" + (Digits(m.second, 2) + Fraction(m.micro)))))))))))
  }

  /** Of two numbers in the same width, the smaller one sorts first, whatever follows. */
  lemma {:induction false} DigitsOrder(a: int, b: int, width: nat, x: string, y: string)
    requires 0 <= a < b < Pow10(width)
    ensures Less(Digits(a, width) + x, Digits(b, width) + y)
  {
    var u, v := [(a % 10 + '0' as int) as char], [(b % 10 + '0' as int) as char];
    assert Digits(a, width) + x == Digits(a / 10, width - 1) + (u + x);
    assert Digits(b, width) + y == Digits(b / 10, width - 1) + (v + y);
    if a / 10 < b / 10 {
      DigitsOrder(a / 10, b / 10, width - 1, u + x, v + y);
    } else {
      LessAfterPrefix(Digits(a / 10, width - 1), u + x, v + y);
    }
  }

  /** One field and what follows it. */
  lemma FieldOrder(a: int, b: int, width: nat, x: string, y: string)
    requires 0 <= a < Pow10(width) && 0 <= b < Pow10(width)
    ensures Less(Digits(a, width) + x, Digits(b, width) + y) <==> a < b || (a == b && Less(x, y))
  {
    if a < b {
      DigitsOrder(a, b, width, x, y);
    } else if b < a {
      DigitsOrder(b, a, width, y, x);
      LessAsymmetric(Digits(b, width) + y, Digits(a, width) + x);
    } else {
      LessAfterPrefix(Digits(a, width), x, y);
    }
  }

  /** A field, its separator, and the rest. */
  lemma SeparatedOrder(a: int, b: int, width: nat, separator: string, x: string, y: string)
    requires 0 <= a < Pow10(width) && 0 <= b < Pow10(width)
    ensures Less(Digits(a, width) + (separator + x), Digits(b, width) + (separator + y)) <==>
      a < b || (a == b && Less(x, y))
  {
    FieldOrder(a, b, width, separator + x, separator + y);
    LessAfterPrefix(separator, x, y);
  }

  lemma Powers()
    ensures Pow10(2) == 100 && Pow10(4) == 10_000 && Pow10(6) == 1_000_000
  {
    assert Pow10(3) == 1_000;
    assert Pow10(5) == 100_000;
  }

  /** A plus sign sorts before a point, so a whole second comes before its fractions. */
  lemma FractionOrder(a: int, b: int)
    requires 0 <= a < 1_000_000 && 0 <= b < 1_000_000
    ensures Less(Fraction(a), Fraction(b)) <==> a < b
  {
    Powers();
    LessIrreflexive(Fraction(a));
    if a != 0 && b != 0 {
      LessAfterPrefix(".", Digits(a, 6) + "+00:00", Digits(b, 6) + "+00:00");
      FieldOrder(a, b, 6, "+00:00", "+00:00");
      LessIrreflexive("+00:00");
    } else {
      assert Fraction(0)[0] == '+';
      assert a != 0 ==> Fraction(a)[0] == '.';
      assert b != 0 ==> Fraction(b)[0] == '.';
    }
  }

  function TimeOfDay(m: Moment): string
    requires ValidMoment(m)
  {
    Digits(m.hour, 2) + (":" + (Digits(m.minute, 2) + (":" + (Digits(m.second, 2) + Fraction(m.micro)))))
  }

  lemma TimeOfDayOrder(a: Moment, b: Moment)
    requires ValidMoment(a) && ValidMoment(b)
    ensures Less(TimeOfDay(a), TimeOfDay(b)) <==>
      Earlier([a.hour, a.minute, a.second, a.micro], [b.hour, b.minute, b.second, b.micro])
  {
    Powers();
    var sa, sb := Digits(a.second, 2) + Fraction(a.micro), Digits(b.second, 2) + Fraction(b.micro);
    var ma, mb := Digits(a.minute, 2) + (":" + sa), Digits(b.minute, 2) + (":" + sb);
    FractionOrder(a.micro, b.micro);
    FieldOrder(a.second, b.second, 2, Fraction(a.micro), Fraction(b.micro));
    SeparatedOrder(a.minute, b.minute, 2, ":", sa, sb);
    SeparatedOrder(a.hour, b.hour, 2, ":", ma, mb);
    assert Earlier([a.micro], [b.micro]) <==> a.micro < b.micro;
    EarlierStep(a.second, [a.micro], b.second, [b.micro]);
    EarlierStep(a.minute, [a.second, a.micro], b.minute, [b.second, b.micro]);
    EarlierStep(a.hour, [a.minute, a.second, a.micro], b.hour, [b.minute, b.second, b.micro]);
  }

  lemma EarlierStep(a: int, x: seq<int>, b: int, y: seq<int>)
    requires |x| == |y|
    ensures Earlier([a] + x, [b] + y) <==> a < b || (a == b && Earlier(x, y))
  {
    assert ([a] + x)[1..] == x && ([b] + y)[1..] == y;
  }

  /** The text of timestamps sorts as time does, with or without microseconds. */
  lemma TextSortsAsTime(a: Moment, b: Moment)
    requires ValidMoment(a) && ValidMoment(b)
    ensures Less(IsoFormat(a), IsoFormat(b)) <==> Earlier(Fields(a), Fields(b))
  {
    Powers();
    var ta, tb := TimeOfDay(a), TimeOfDay(b);
    var da, db := Digits(a.day, 2) + ("T" + ta), Digits(b.day, 2) + ("T" + tb);
    var ma, mb := Digits(a.month, 2) + ("-" + da), Digits(b.month, 2) + ("-" + db);
    TimeOfDayOrder(a, b);
    SeparatedOrder(a.day, b.day, 2, "T", ta, tb);
    SeparatedOrder(a.month, b.month, 2, "-", da, db);
    SeparatedOrder(a.year, b.year, 4, "-", ma, mb);
    var ra, rb := [a.hour, a.minute, a.second, a.micro], [b.hour, b.minute, b.second, b.micro];
    EarlierStep(a.day, ra, b.day, rb);
    EarlierStep(a.month, [a.day] + ra, b.month, [b.day] + rb);
    EarlierStep(a.year, [a.month] + ([a.day] + ra), b.year, [b.month] + ([b.day] + rb));
    assert Fields(a) == [a.year] + ([a.month] + ([a.day] + ra));
    assert Fields(b) == [b.year] + ([b.month] + ([b.day] + rb));
  }

  lemma {:induction false} DigitsWidth(n: int, width: nat)
    requires n >= 0
    ensures |Digits(n, width)| == width && forall c <- Digits(n, width) :: '0' <= c <= '9'
  {
    if width > 0 { DigitsWidth(n / 10, width - 1); }
  }

  /** Three fields, two separators, and the rest, place by place. */
  lemma PlacesOf(a: string, p: string, b: string, q: string, c: string, rest: string)
    requires |p| == 1 && |q| == 1
    ensures
      var s := a + (p + (b + (q + (c + rest))));
      var i, j := |a| + 1, |a| + |b| + 2;
      && |s| >= j + |c| && s[..|a|] == a && s[|a|] == p[0] && s[i..i + |b|] == b && s[i + |b|] == q[0]
      && s[j..j + |c|] == c && s[j + |c|..] == rest
  {
    var s := a + (p + (b + (q + (c + rest))));
    assert s == (a + p) + (b + (q + (c + rest)));
    assert s == (a + p + b + q) + (c + rest);
    assert s == (a + p + b + q + c) + rest;
  }

  /** Dashes between the fields of the date, and a T before the time. */
  lemma DateShape(m: Moment)
    requires ValidMoment(m)
    ensures
      var s := IsoFormat(m);
      && |s| >= 11 && s[4] == '-' && s[7] == '-' && s[10] == 'T' && s[11..] == TimeOfDay(m)
      && s[..4] == Digits(m.year, 4) && s[5..7] == Digits(m.month, 2) && s[8..10] == Digits(m.day, 2)
  {
    DigitsWidth(m.year, 4);
    DigitsWidth(m.month, 2);
    DigitsWidth(m.day, 2);
    var rest := "T" + TimeOfDay(m);
    PlacesOf(Digits(m.year, 4), "-", Digits(m.month, 2), "-", Digits(m.day, 2), rest);
    assert IsoFormat(m)[10..] == rest;
    assert rest[1..] == TimeOfDay(m);
  }

  /** Colons, six digits behind a point where there are microseconds, and the UTC offset. */
  lemma TimeShape(m: Moment)
    requires ValidMoment(m)
    ensures
      var s := TimeOfDay(m);
      && |s| >= 8 && s[2] == ':' && s[5] == ':'
      && s[..2] == Digits(m.hour, 2) && s[3..5] == Digits(m.minute, 2) && s[6..8] == Digits(m.second, 2)
      && s[8..] == if m.micro == 0 then "+00:00" else "." + (Digits(m.micro, 6) + "+00:00")
  {
    DigitsWidth(m.hour, 2);
    DigitsWidth(m.minute, 2);
    DigitsWidth(m.second, 2);
    PlacesOf(Digits(m.hour, 2), ":", Digits(m.minute, 2), ":", Digits(m.second, 2), Fraction(m.micro));
  }

  // ---- The scan and the listing ----------------------------------------------

  /** A listed bundle with its manifest's timestamp, `None` if there is no manifest to read. */
  datatype Found = Found(path: string, createdAt: Option<string>)

  datatype Entry = Entry(path: string, createdAt: string)

  /** What the text denotes, in seconds, and `None` where parsing it fails. */
  datatype Clock = Clock(now: int, ttl: int, parse: string -> Option<int>)

  /** The age check fails on text that is not a timestamp. */
  predicate Unparsable(f: Found, c: Clock) {
    f.createdAt.Some? && c.ttl > 0 && c.parse(f.createdAt.value).None?
  }

  predicate Expired(f: Found, c: Clock) {
    && f.createdAt.Some? && c.ttl > 0
    && (c.parse(f.createdAt.value).None? || c.now - c.parse(f.createdAt.value).value > c.ttl)
  }

  predicate AllParse(found: seq<Found>, hidden: set<string>, c: Clock) {
    forall i :: 0 <= i < |found| && found[i].path !in hidden ==> !Unparsable(found[i], c)
  }

  predicate Counts(f: Found, hidden: set<string>, c: Clock) {
    f.path !in hidden && f.createdAt.Some? && !Expired(f, c)
  }

  /** The bundles that the scan or the listing goes by, in path order. */
  function Unexpired(found: seq<Found>, hidden: set<string>, c: Clock): seq<Entry> {
    if found == [] then []
    else
      var f := found[|found| - 1];
      Unexpired(found[..|found| - 1], hidden, c) +
      if Counts(f, hidden, c) then [Entry(f.path, f.createdAt.value)] else []
  }

  function StampOf(e: Entry): string {
    e.createdAt
  }

  // The same in plain arithmetic.

  /** Not older than the time to live, if there is one. */
  predicate Alive(c: Clock, stamp: string) {
    c.ttl <= 0 || (c.parse(stamp).Some? && c.parse(stamp).value >= c.now - c.ttl)
  }

  predicate AliveAt(found: seq<Found>, hidden: set<string>, c: Clock, i: nat)
    requires i < |found|
  {
    found[i].path !in hidden && found[i].createdAt.Some? && Alive(c, found[i].createdAt.value)
  }

  /** Some found bundle has this path and timestamp, is not hidden, and not too old. */
  ghost predicate Shows(found: seq<Found>, hidden: set<string>, c: Clock, e: Entry) {
    exists i: nat :: i < |found| && found[i] == Found(e.path, Some(e.createdAt)) && AliveAt(found, hidden, c, i)
  }

  lemma {:induction false} UnexpiredAre(found: seq<Found>, hidden: set<string>, c: Clock, e: Entry)
    ensures e in Unexpired(found, hidden, c) <==> Shows(found, hidden, c, e)
  {
    if found != [] {
      var n := |found| - 1;
      UnexpiredAre(found[..n], hidden, c, e);
      if i: nat :| i < |found| && found[i] == Found(e.path, Some(e.createdAt)) && AliveAt(found, hidden, c, i) {
        if i < n { assert found[..n][i] == found[i] && AliveAt(found[..n], hidden, c, i); }
      }
      if i: nat :| i < n && found[..n][i] == Found(e.path, Some(e.createdAt)) && AliveAt(found[..n], hidden, c, i) {
        assert found[i] == Found(e.path, Some(e.createdAt)) && AliveAt(found, hidden, c, i);
      }
      if e == Entry(found[n].path, if found[n].createdAt.Some? then found[n].createdAt.value else "")
        && AliveAt(found, hidden, c, n)
      {
        assert found[n] == Found(e.path, Some(e.createdAt));
      }
    }
  }

  /** The first of those found that are alive and have the greatest timestamp. */
  ghost predicate NewestAt(found: seq<Found>, c: Clock, k: nat) {
    && k < |found| && AliveAt(found, {}, c, k) && found[k].createdAt.value != ""
    && (forall i :: 0 <= i < |found| && AliveAt(found, {}, c, i) ==>
          LessEq(found[i].createdAt.value, found[k].createdAt.value))
    && (forall i :: 0 <= i < k && AliveAt(found, {}, c, i) ==>
          Less(found[i].createdAt.value, found[k].createdAt.value))
  }

  /** The entry stands before, or after, the place `j`. */
  ghost predicate OnSide(all: seq<Entry>, j: nat, before: bool, e: Entry) {
    exists l :: 0 <= l < |all| && l != j && (l < j <==> before) && all[l] == e
  }

  /** Where an unexpired bundle was found: those before it and after it stay on their sides. */
  lemma {:induction false} FoundAt(found: seq<Found>, c: Clock, j: nat) returns (k: nat)
    requires j < |Unexpired(found, {}, c)|
    ensures k < |found| && AliveAt(found, {}, c, k)
    ensures Unexpired(found, {}, c)[j] == Entry(found[k].path, found[k].createdAt.value)
    ensures forall i :: 0 <= i < |found| && AliveAt(found, {}, c, i) && i != k ==>
      OnSide(Unexpired(found, {}, c), j, i < k, Entry(found[i].path, found[i].createdAt.value))
  {
    var n := |found| - 1;
    var all, front := Unexpired(found, {}, c), Unexpired(found[..n], {}, c);
    assert |front| <= |all| && forall l :: 0 <= l < |front| ==> all[l] == front[l];
    if j < |front| {
      k := FoundAt(found[..n], c, j);
      assert AliveAt(found, {}, c, k);
      forall i | 0 <= i < |found| && AliveAt(found, {}, c, i) && i != k
        ensures OnSide(all, j, i < k, Entry(found[i].path, found[i].createdAt.value))
      {
        var e := Entry(found[i].path, found[i].createdAt.value);
        if i < n {
          assert AliveAt(found[..n], {}, c, i);
          assert OnSide(front, j, i < k, Entry(found[..n][i].path, found[..n][i].createdAt.value));
          var l :| 0 <= l < |front| && l != j && (l < j <==> i < k) && front[l] == e;
          assert all[l] == front[l];
        } else {
          assert all[|front|] == e;
        }
      }
    } else {
      k := n;
      forall i | 0 <= i < n && AliveAt(found, {}, c, i)
        ensures OnSide(all, j, true, Entry(found[i].path, found[i].createdAt.value))
      {
        var e := Entry(found[i].path, found[i].createdAt.value);
        assert found[..n][i] == Found(e.path, Some(e.createdAt)) && AliveAt(found[..n], {}, c, i);
        UnexpiredAre(found[..n], {}, c, e);
        var l :| 0 <= l < |front| && front[l] == e;
        assert all[l] == front[l];
      }
    }
  }

  lemma LatestIsNewest(found: seq<Found>, c: Clock, latest: Option<Entry>)
    requires IsLatest(Unexpired(found, {}, c), latest)
    ensures latest.None? ==> forall e :: Shows(found, {}, c, e) ==> e.createdAt == ""
    ensures latest.Some? ==>
      exists k: nat :: NewestAt(found, c, k) && found[k] == Found(latest.value.path, Some(latest.value.createdAt))
  {
    var all := Unexpired(found, {}, c);
    if latest.None? {
      forall e | Shows(found, {}, c, e)
        ensures e.createdAt == ""
      {
        UnexpiredAre(found, {}, c, e);
      }
    } else {
      var j: nat :| j < |all| && all[j] == latest.value && FirstBest(all, j, StampOf, true);
      var k := FoundAt(found, c, j);
      forall i | 0 <= i < |found| && AliveAt(found, {}, c, i)
        ensures LessEq(found[i].createdAt.value, found[k].createdAt.value)
        ensures i < k ==> Less(found[i].createdAt.value, found[k].createdAt.value)
      {
        LessIrreflexive(found[k].createdAt.value);
        if i != k {
          assert OnSide(all, j, i < k, Entry(found[i].path, found[i].createdAt.value));
          var l :| 0 <= l < |all| && l != j && (l < j <==> i < k)
            && all[l] == Entry(found[i].path, found[i].createdAt.value);
          assert Before(StampOf(all[j]), StampOf(all[l]), true);
          assert l < j ==> !Before(StampOf(all[l]), StampOf(all[j]), true);
        }
      }
      assert NewestAt(found, c, k);
    }
  }

  /** Age alone never drops a bundle before an older one, and never brings one back. */
  lemma YoungerStaysLonger(c: Clock, later: int, a: string, b: string)
    requires c.now <= later && Alive(c.(now := later), b)
    requires c.parse(a).Some? && c.parse(b).Some? && c.parse(a).value >= c.parse(b).value
    ensures Alive(c.(now := later), a) && Alive(c, a) && Alive(c, b)
  {
  }

  lemma UnexpiredStep(found: seq<Found>, hidden: set<string>, c: Clock, i: nat)
    requires i < |found|
    ensures Unexpired(found[..i + 1], hidden, c) == Unexpired(found[..i], hidden, c) +
      if Counts(found[i], hidden, c) then [Entry(found[i].path, found[i].createdAt.value)] else []
  {
    assert found[..i + 1][..i] == found[..i];
  }

  /** The listing, newest first; `None` stands for the error that a timestamp does not parse. */
  method ListInbox(found: seq<Found>, hidden: set<string>, c: Clock) returns (r: Option<seq<Entry>>)
    ensures r.Some? <==> AllParse(found, hidden, c)
    ensures r.Some? ==> r.value == StableSort(Unexpired(found, hidden, c), StampOf, true)
    ensures r.Some? ==> forall e :: e in r.value <==> Shows(found, hidden, c, e)
    ensures r.Some? ==> forall i, j :: 0 <= i < j < |r.value| ==> LessEq(r.value[j].createdAt, r.value[i].createdAt)
  {
    var entries: seq<Entry> := [];
    var i := 0;
    while i < |found|
      invariant i <= |found| && AllParse(found[..i], hidden, c)
      invariant entries == Unexpired(found[..i], hidden, c)
    {
      var f := found[i];
      UnexpiredStep(found, hidden, c, i);
      i := i + 1;
      if f.path in hidden || f.createdAt.None? { continue; }
      if c.ttl > 0 {
        var created := c.parse(f.createdAt.value);
        if created.None? { return None; }
        if c.now - created.value > c.ttl { continue; }
      }
      entries := entries + [Entry(f.path, f.createdAt.value)];
    }
    assert found[..i] == found;
    ListingShows(found, hidden, c);
    return Some(StableSort(entries, StampOf, true));
  }

  lemma ListingShows(found: seq<Found>, hidden: set<string>, c: Clock)
    ensures
      var listing := StableSort(Unexpired(found, hidden, c), StampOf, true);
      && (forall e :: e in listing <==> Shows(found, hidden, c, e))
      && forall i, j :: 0 <= i < j < |listing| ==> LessEq(listing[j].createdAt, listing[i].createdAt)
  {
    var entries := Unexpired(found, hidden, c);
    var listing := StableSort(entries, StampOf, true);
    StableSortSorted(entries, StampOf, true);
    forall i, j | 0 <= i < j < |listing|
      ensures LessEq(listing[j].createdAt, listing[i].createdAt)
    {
      assert Before(StampOf(listing[i]), StampOf(listing[j]), true);
    }
    StableSortKeepsItems(entries, StampOf, true);
    forall e
      ensures e in listing <==> Shows(found, hidden, c, e)
    {
      UnexpiredAre(found, hidden, c, e);
      assert e in entries <==> e in multiset(entries);
      assert e in listing <==> e in multiset(listing);
    }
  }

  /** What the scan has to find among the unexpired bundles: the first of the newest. */
  predicate IsLatest(entries: seq<Entry>, latest: Option<Entry>) {
    if latest.None? then forall i :: 0 <= i < |entries| ==> entries[i].createdAt == ""
    else
      && latest.value.createdAt != ""
      && exists k: nat :: k < |entries| && entries[k] == latest.value && FirstBest(entries, k, StampOf, true)
  }

  lemma {:induction false} LatestStep(entries: seq<Entry>, latest: Option<Entry>, e: Entry)
    requires IsLatest(entries, latest)
    ensures IsLatest(entries + [e],
      if Less(if latest.None? then "" else latest.value.createdAt, e.createdAt) then Some(e) else latest)
  {
    var more := entries + [e];
    var best := if latest.None? then "" else latest.value.createdAt;
    if latest.Some? {
      var k: nat :| k < |entries| && entries[k] == latest.value && FirstBest(entries, k, StampOf, true);
      if Less(best, e.createdAt) {
        NewBest(entries, best, e);
        assert more[|entries|] == e;
      } else {
        assert more[k] == latest.value && FirstBest(more, k, StampOf, true);
      }
    } else if Less(best, e.createdAt) {
      NewBest(entries, best, e);
      assert more[|entries|] == e;
    }
  }

  lemma NewBest(entries: seq<Entry>, best: string, e: Entry)
    requires (forall i :: 0 <= i < |entries| ==> LessEq(entries[i].createdAt, best)) && Less(best, e.createdAt)
    ensures FirstBest(entries + [e], |entries|, StampOf, true)
  {
    var more := entries + [e];
    LessIrreflexive(e.createdAt);
    forall i | 0 <= i < |entries|
      ensures Less(entries[i].createdAt, e.createdAt)
    {
      LessTotal(entries[i].createdAt, best);
      if entries[i].createdAt != best { LessTransitive(entries[i].createdAt, best, e.createdAt); }
    }
    forall i | 0 <= i < |more|
      ensures Before(StampOf(more[|entries|]), StampOf(more[i]), true)
    {
      if i < |entries| { LessAsymmetric(entries[i].createdAt, e.createdAt); }
    }
  }

  /** The scan for `latest`: hidden bundles are not skipped; `None` is the parse error. */
  method ResolveLatest(found: seq<Found>, c: Clock) returns (r: Option<Option<Entry>>)
    ensures r.Some? <==> AllParse(found, {}, c)
    ensures r.Some? ==> IsLatest(Unexpired(found, {}, c), r.value)
    ensures r.Some? && r.value.None? ==> forall e :: Shows(found, {}, c, e) ==> e.createdAt == ""
    ensures r.Some? && r.value.Some? ==>
      exists k: nat :: NewestAt(found, c, k) && found[k] == Found(r.value.value.path, Some(r.value.value.createdAt))
  {
    var newest: Option<Entry> := None;
    var newestTime := "";
    var i := 0;
    while i < |found|
      invariant i <= |found| && AllParse(found[..i], {}, c)
      invariant newestTime == if newest.None? then "" else newest.value.createdAt
      invariant IsLatest(Unexpired(found[..i], {}, c), newest)
    {
      var f := found[i];
      UnexpiredStep(found, {}, c, i);
      ghost var sofar := Unexpired(found[..i], {}, c);
      assert sofar + [] == sofar;
      i := i + 1;
      if f.createdAt.None? { continue; }
      if c.ttl > 0 {
        var created := c.parse(f.createdAt.value);
        if created.None? { return None; }
        if c.now - created.value > c.ttl { continue; }
      }
      LatestStep(sofar, newest, Entry(f.path, f.createdAt.value));
      if Less(newestTime, f.createdAt.value) {
        newestTime := f.createdAt.value;
        newest := Some(Entry(f.path, f.createdAt.value));
      }
    }
    assert found[..i] == found;
    LatestIsNewest(found, c, newest);
    return Some(newest);
  }

  // ---- The choice against the listing ------------------------------------------

  lemma {:induction false} HiddenIsFilter(found: seq<Found>, hidden: set<string>, c: Clock)
    ensures Unexpired(found, hidden, c) == Shown(Unexpired(found, {}, c), hidden)
  {
    if found != [] {
      var n := |found| - 1;
      var f := found[n];
      HiddenIsFilter(found[..n], hidden, c);
      var front := Unexpired(found[..n], {}, c);
      assert front + [] == front && Shown(front, hidden) + [] == Shown(front, hidden);
      if Counts(f, {}, c) { ShownStep(front, Entry(f.path, f.createdAt.value), hidden); }
    }
  }

  function Shown(entries: seq<Entry>, hidden: set<string>): seq<Entry> {
    if entries == [] then []
    else
      var e := entries[|entries| - 1];
      Shown(entries[..|entries| - 1], hidden) + if e.path in hidden then [] else [e]
  }

  lemma ShownStep(entries: seq<Entry>, e: Entry, hidden: set<string>)
    ensures Shown(entries + [e], hidden) == Shown(entries, hidden) + if e.path in hidden then [] else [e]
  {
    assert (entries + [e])[..|entries|] == entries;
  }

  lemma {:induction false} ShownAre(entries: seq<Entry>, hidden: set<string>, e: Entry)
    ensures e in Shown(entries, hidden) <==> e in entries && e.path !in hidden
  {
    if entries != [] {
      var n := |entries| - 1;
      assert entries == entries[..n] + [entries[n]];
      ShownAre(entries[..n], hidden, e);
    }
  }

  /** Where the first of the newest stands once others are hidden. */
  lemma {:induction false} FirstBestStays(entries: seq<Entry>, k: nat, hidden: set<string>) returns (l: nat)
    requires k < |entries| && FirstBest(entries, k, StampOf, true) && entries[k].path !in hidden
    ensures l < |Shown(entries, hidden)| && Shown(entries, hidden)[l] == entries[k]
    ensures FirstBest(Shown(entries, hidden), l, StampOf, true)
  {
    var n := |entries| - 1;
    if k < n {
      assert FirstBest(entries[..n], k, StampOf, true);
      l := FirstBestStays(entries[..n], k, hidden);
    } else {
      l := |Shown(entries[..n], hidden)|;
      forall i | 0 <= i < l
        ensures Less(Shown(entries[..n], hidden)[i].createdAt, entries[n].createdAt)
      {
        ShownAre(entries[..n], hidden, Shown(entries[..n], hidden)[i]);
        var j :| 0 <= j < n && entries[j] == Shown(entries[..n], hidden)[i];
        assert !Before(StampOf(entries[j]), StampOf(entries[n]), true);
      }
      NewBestOf(Shown(entries[..n], hidden), entries[n]);
    }
  }

  lemma NewBestOf(entries: seq<Entry>, e: Entry)
    requires forall i :: 0 <= i < |entries| ==> Less(entries[i].createdAt, e.createdAt)
    ensures FirstBest(entries + [e], |entries|, StampOf, true)
  {
    var more := entries + [e];
    LessIrreflexive(e.createdAt);
    forall i | 0 <= i < |more|
      ensures Before(StampOf(more[|entries|]), StampOf(more[i]), true)
    {
      if i < |entries| { LessAsymmetric(entries[i].createdAt, e.createdAt); }
    }
  }

  /** What the scan picks heads the listing exactly when it is not hidden from it. */
  lemma LatestHeadsTheListingIff(found: seq<Found>, hidden: set<string>, c: Clock, latest: Entry)
    requires IsLatest(Unexpired(found, {}, c), Some(latest))
    ensures
      var listing := StableSort(Unexpired(found, hidden, c), StampOf, true);
      (listing != [] && listing[0] == latest) <==> latest.path !in hidden
  {
    var all := Unexpired(found, {}, c);
    var k: nat :| k < |all| && all[k] == latest && FirstBest(all, k, StampOf, true);
    HiddenIsFilter(found, hidden, c);
    var shown := Shown(all, hidden);
    var listing := StableSort(shown, StampOf, true);
    if latest.path !in hidden {
      var l := FirstBestStays(all, k, hidden);
      HeadIsFirstBest(shown, l, StampOf, true);
    } else if listing != [] && listing[0] == latest {
      StableSortKeepsItems(shown, StampOf, true);
      assert latest in multiset(listing);
      ShownAre(all, hidden, latest);
    }
  }

  /** With timestamps as the uploads write them, nothing unexpired is newer, and ties go to the first path. */
  lemma LatestIsNewestInTime(entries: seq<Entry>, latest: Entry, moments: seq<Moment>) returns (k: nat)
    requires IsLatest(entries, Some(latest)) && |moments| == |entries|
    requires forall i :: 0 <= i < |entries| ==>
      ValidMoment(moments[i]) && entries[i].createdAt == IsoFormat(moments[i])
    ensures k < |entries| && entries[k] == latest
    ensures forall i :: 0 <= i < |entries| ==> !Earlier(Fields(moments[k]), Fields(moments[i]))
    ensures forall i :: 0 <= i < k ==> Earlier(Fields(moments[i]), Fields(moments[k]))
  {
    k :| k < |entries| && entries[k] == latest && FirstBest(entries, k, StampOf, true);
    forall i | 0 <= i < |entries|
      ensures !Earlier(Fields(moments[k]), Fields(moments[i]))
      ensures i < k ==> Earlier(Fields(moments[i]), Fields(moments[k]))
    {
      TextSortsAsTime(moments[k], moments[i]);
      TextSortsAsTime(moments[i], moments[k]);
      assert Before(StampOf(entries[k]), StampOf(entries[i]), true);
    }
  }
}
