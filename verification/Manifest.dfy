/** Manifest validation: per-name checks, duplicates, and the adjacent-pair prefix check. */
module Manifest {
  import opened Strings
  import opened Sorting
  import opened Tree

  datatype Reason =
    | Empty | Absolute | Traversal | InvalidChar | ReservedName | Duplicate | PrefixCollision(conflictsWith: string)

  datatype Verdict = Accepted | Rejected(reason: Reason, name: string)

  const RESERVED_NAMES: set<string> := {"meta.json"}

  // ---- One name ------------------------------------------------------------

  predicate AllowedChar(c: char) {
    'a' <= c <= 'z' || 'A' <= c <= 'Z' || '0' <= c <= '9' || c in {'-', '_', '.', '/', '\''}
  }

  predicate AllIn(s: string, allowed: char -> bool) {
    forall c <- s :: allowed(c)
  }

  /** `$` in the pattern also matches before one trailing newline. */
  predicate MatchesCharset(s: string, allowed: char -> bool) {
    s != "" && (AllIn(s, allowed) || (|s| > 1 && s[|s| - 1] == '\n' && AllIn(s[..|s| - 1], allowed)))
  }

  function SlashForBackslash(s: string): string {
    seq(|s|, i requires 0 <= i < |s| => if s[i] == '\\' then '/' else s[i])
  }

  function CheckName(name: string): Verdict {
    if name == "" then Rejected(Empty, name)
    else if name[0] == '/' then Rejected(Absolute, name)
    else if ".." in SplitSlash(SlashForBackslash(name)) then Rejected(Traversal, name)
    else if !MatchesCharset(name, AllowedChar) then Rejected(InvalidChar, name)
    else Accepted
  }

  // The same character by character.

  /** A letter, a digit, or one of these five. */
  predicate Ordinary(c: char) {
    || 'a' <= c <= 'z' || 'A' <= c <= 'Z' || '0' <= c <= '9'
    || c == '-' || c == '_' || c == '.' || c == '/' || c == '\''
  }

  /** Some of the allowed characters, and perhaps one newline at the end. */
  ghost predicate WellSpelled(name: string, allowed: char -> bool) {
    exists body: string, end: string ::
      body != "" && AllIn(body, allowed) && (end == "" || end == "\n") && name == body + end
  }

  lemma CharsetIff(name: string, allowed: char -> bool)
    ensures MatchesCharset(name, allowed) <==> WellSpelled(name, allowed)
  {
    if MatchesCharset(name, allowed) {
      if AllIn(name, allowed) {
        assert name == name + "";
      } else {
        assert name == name[..|name| - 1] + "\n";
      }
    }
    if body: string, end: string :|
      body != "" && AllIn(body, allowed) && (end == "" || end == "\n") && name == body + end
    {
      assert end == "" ==> name == body;
      assert end == "\n" ==> name[..|name| - 1] == body;
    }
  }

  /** Two dots between slashes, or between a slash and an end. */
  predicate DotsAt(s: string, i: nat, slash: char -> bool) {
    && i + 2 <= |s| && s[i] == '.' && s[i + 1] == '.'
    && (i == 0 || slash(s[i - 1])) && (i + 2 == |s| || slash(s[i + 2]))
  }

  ghost predicate HasDots(s: string, slash: char -> bool) {
    exists i: nat :: DotsAt(s, i, slash)
  }

  predicate IsSlash(c: char) {
    c == '/'
  }

  predicate IsAnySlash(c: char) {
    c == '/' || c == '\\'
  }

  lemma FirstPart(s: string)
    ensures SplitSlash(s)[0] ==
      if s == "" || s[0] == '/' then "" else [s[0]] + SplitSlash(s[1..])[0]
  {
  }

  lemma Prepended(c: char, rest: string, d: char, back: string)
    ensures [c] + rest == [d] + back <==> c == d && rest == back
  {
    if [c] + rest == [d] + back {
      assert ([c] + rest)[0] == c && ([c] + rest)[1..] == rest && ([d] + back)[1..] == back;
    }
  }

  lemma FirstIsDots(s: string)
    ensures SplitSlash(s)[0] == ".." <==> DotsAt(s, 0, IsSlash)
  {
    FirstPart(s);
    if s != "" && s[0] != '/' {
      var one := SplitSlash(s[1..])[0];
      FirstPart(s[1..]);
      assert ".." == ['.'] + ".";
      Prepended(s[0], one, '.', ".");
      if |s| > 1 && s[1] != '/' {
        assert s[1..][1..] == s[2..];
        FirstPart(s[2..]);
        assert "." == ['.'] + "";
        Prepended(s[1], SplitSlash(s[2..])[0], '.', "");
      }
    }
  }

  lemma {:induction false} DotsIff(s: string)
    ensures ".." in SplitSlash(s) <==> HasDots(s, IsSlash)
    ensures ".." in SplitSlash(s)[1..] <==> exists i: nat :: i > 0 && DotsAt(s, i, IsSlash)
  {
    if s == "" {
      assert SplitSlash(s)[1..] == [];
    } else {
      DotsIff(s[1..]);
      FirstIsDots(s);
      FirstIsDots(s[1..]);
      RestOfParts(s);
      DotsLater(s);
      assert SplitSlash(s) == [SplitSlash(s)[0]] + SplitSlash(s)[1..];
    }
  }

  lemma RestOfParts(s: string)
    requires s != ""
    ensures SplitSlash(s)[1..] == if s[0] == '/' then SplitSlash(s[1..]) else SplitSlash(s[1..])[1..]
  {
  }

  /** Where dots come after the first character, in terms of the rest. */
  lemma DotsLater(s: string)
    requires s != ""
    ensures (exists i: nat :: i > 0 && DotsAt(s, i, IsSlash)) <==>
      || (exists i: nat :: i > 0 && DotsAt(s[1..], i, IsSlash))
      || (s[0] == '/' && DotsAt(s[1..], 0, IsSlash))
  {
    if i: nat :| i > 0 && DotsAt(s, i, IsSlash) {
      if i > 1 { assert DotsAt(s[1..], i - 1, IsSlash); }
    }
    if i: nat :| i > 0 && DotsAt(s[1..], i, IsSlash) { assert DotsAt(s, i + 1, IsSlash); }
    if s[0] == '/' && DotsAt(s[1..], 0, IsSlash) { assert DotsAt(s, 1, IsSlash); }
  }

  /** A backslash separates like a slash here. */
  lemma TraversalIff(s: string)
    ensures ".." in SplitSlash(SlashForBackslash(s)) <==> HasDots(s, IsAnySlash)
  {
    var t := SlashForBackslash(s);
    DotsIff(t);
    forall i: nat
      ensures DotsAt(t, i, IsSlash) <==> DotsAt(s, i, IsAnySlash)
    {
    }
  }

  /** What each name is refused for; an accepted one is none of this. */
  lemma VerdictIs(name: string)
    ensures CheckName(name) == Rejected(Empty, name) <==> name == ""
    ensures CheckName(name) == Rejected(Absolute, name) <==> "/" <= name
    ensures CheckName(name) == Rejected(Traversal, name) <==>
      name != "" && !("/" <= name) && HasDots(name, IsAnySlash)
    ensures CheckName(name) == Rejected(InvalidChar, name) <==>
      name != "" && !("/" <= name) && !HasDots(name, IsAnySlash) && !WellSpelled(name, Ordinary)
    ensures CheckName(name).Accepted? <==>
      !("/" <= name) && !HasDots(name, IsAnySlash) && WellSpelled(name, Ordinary)
  {
    CharsetIff(name, AllowedChar);
    SameCharset(name);
    TraversalIff(name);
  }

  lemma SameCharset(name: string)
    ensures WellSpelled(name, AllowedChar) <==> WellSpelled(name, Ordinary)
  {
    forall body
      ensures AllIn(body, AllowedChar) <==> AllIn(body, Ordinary)
    {
    }
  }

  /** A path of its own: relative, without "..", and of allowed characters. */
  predicate PathPasses(path: string, allowed: char -> bool) {
    && path != "" && path[0] != '/' && ".." !in SplitSlash(SlashForBackslash(path))
    && MatchesCharset(path, allowed)
  }

  lemma PathPassesIff(path: string, allowed: char -> bool)
    ensures PathPasses(path, allowed) <==>
      !("/" <= path) && !HasDots(path, IsAnySlash) && WellSpelled(path, allowed)
  {
    CharsetIff(path, allowed);
    TraversalIff(path);
  }

  /** Splitting at backslashes too leaves parts without one as they are. */
  lemma {:induction false} FinerSplit(s: string)
    ensures
      var parts, finer := SplitSlash(s), SplitSlash(SlashForBackslash(s));
      && ('\\' !in parts[0] ==> finer[0] == parts[0])
      && forall k :: 1 <= k < |parts| && '\\' !in parts[k] ==> parts[k] in finer[1..]
  {
    if s != "" {
      FinerSplit(s[1..]);
      var parts, rest := SplitSlash(s), SplitSlash(s[1..]);
      var finer, finerRest := SplitSlash(SlashForBackslash(s)), SplitSlash(SlashForBackslash(s[1..]));
      assert SlashForBackslash(s)[1..] == SlashForBackslash(s[1..]);
      assert s[0] in {'/', '\\'} ==> finer[1..] == finerRest;
      assert s[0] == '/' ==> parts[1..] == rest;
      forall k | 1 <= k < |parts| && '\\' !in parts[k]
        ensures parts[k] in finer[1..]
      {
        if s[0] == '/' {
          assert parts[k] == rest[k - 1];
          if k > 1 { assert parts[k] in finerRest[1..]; }
        } else {
          assert parts[k] == rest[k];
          assert parts[k] in finerRest[1..];
        }
      }
    }
  }

  /** A path that passes stays inside, whatever characters are allowed. */
  lemma PassingStaysInside(path: string, allowed: char -> bool)
    requires PathPasses(path, allowed)
    ensures StaysInside(path) && ".." !in Segments(path)
  {
    FinerSplit(path);
    PlainWay(Segments(path));
  }

  lemma AcceptedStaysInside(name: string)
    requires CheckName(name).Accepted?
    ensures StaysInside(name) && ".." !in Segments(name)
  {
    PassingStaysInside(name, AllowedChar);
  }

  // ---- The whole manifest --------------------------------------------------

  /** `q` lies inside a directory named `p`. */
  predicate Collides(p: string, q: string) {
    p + "/" <= q
  }

  function NamesOf(files: seq<FileEntry>): set<string> {
    set f <- files :: f.name
  }

  /** The checks the loop makes for entry `i`, the earlier names being `seen`. */
  function CheckEntry(name: string, seen: set<string>): Verdict {
    if CheckName(name).Rejected? then CheckName(name)
    else if name in RESERVED_NAMES then Rejected(ReservedName, name)
    else if name in seen then Rejected(Duplicate, name)
    else Accepted
  }

  /** Every name passes on its own, none is reserved, none occurs twice. */
  ghost predicate NamesPass(files: seq<FileEntry>) {
    && (forall f <- files :: CheckName(f.name).Accepted? && f.name !in RESERVED_NAMES)
    && (forall i, j :: 0 <= i < j < |files| ==> files[i].name != files[j].name)
  }

  /** A collision with nothing between the two names in sorted order. */
  ghost predicate AdjacentCollision(names: set<string>, p: string, q: string) {
    p in names && q in names && Collides(p, q) && forall x <- names :: !(Less(p, x) && Less(x, q))
  }

  method ValidateManifest(files: seq<FileEntry>) returns (v: Verdict)
    ensures v.Accepted? <==> NamesPass(files) && !exists p, q :: AdjacentCollision(NamesOf(files), p, q)
    ensures v.Rejected? && !v.reason.PrefixCollision? ==>
      exists i :: 0 <= i < |files| && NamesPass(files[..i]) && v == CheckEntry(files[i].name, NamesOf(files[..i]))
    ensures v.Rejected? && v.reason.PrefixCollision? ==>
      && NamesPass(files) && v.name in NamesOf(files) && v.reason.conflictsWith in NamesOf(files)
      && Collides(v.name, v.reason.conflictsWith)
  {
    var seen: set<string> := {};
    var i := 0;
    while i < |files|
      invariant i <= |files|
      invariant NamesPass(files[..i]) && seen == NamesOf(files[..i])
    {
      var name := files[i].name;
      if NamesPass(files) { PassingEntry(files, i); }
      v := CheckName(name);
      if v.Accepted? && name == "meta.json" { v := Rejected(ReservedName, name); }
      if v.Accepted? && name in seen { v := Rejected(Duplicate, name); }
      if v.Rejected? { return; }
      assert files[..i + 1] == files[..i] + [files[i]];
      forall k | 0 <= k < i
        ensures files[k].name != name
      {
        assert files[k] in files[..i];
      }
      seen := seen + {name};
      i := i + 1;
    }
    assert files[..i] == files;
    var names := SortedNames(seen);
    i := 1;
    while i < |names|
      invariant 0 < i
      invariant forall k :: 0 < k < i && k < |names| ==> !Collides(names[k - 1], names[k])
    {
      if names[i - 1] + "/" <= names[i] {
        AdjacentInOrder(seen, names, i);
        return Rejected(PrefixCollision(names[i]), names[i - 1]);
      }
      i := i + 1;
    }
    forall p, q | AdjacentCollision(seen, p, q)
      ensures false
    {
      NeighboursOf(seen, names, p, q);
    }
    return Accepted;
  }

  lemma PassingEntry(files: seq<FileEntry>, i: nat)
    requires NamesPass(files) && i < |files|
    ensures CheckEntry(files[i].name, NamesOf(files[..i])).Accepted?
  {
    assert files[i] in files;
    forall f | f in files[..i]
      ensures f.name != files[i].name
    {
      var k :| 0 <= k < i && files[..i][k] == f;
    }
  }

  // ---- Sorted names --------------------------------------------------------

  ghost predicate StrictlySorted(names: seq<string>) {
    forall i, j :: 0 <= i < j < |names| ==> Less(names[i], names[j])
  }

  /** Python's sorted() on a set. */
  method SortedNames(seen: set<string>) returns (names: seq<string>)
    ensures StrictlySorted(names) && (forall x :: x in names <==> x in seen)
  {
    var rest := seen;
    var listed: seq<string> := [];
    while rest != {}
      invariant rest <= seen && Distinct(listed)
      invariant forall x :: x in listed <==> x in seen - rest
      decreases rest
    {
      var x :| x in rest;
      assert x !in listed;
      listed := listed + [x];
      rest := rest - {x};
    }
    names := StableSort(listed, x => x, false);
    StableSortSorted(listed, x => x, false);
    StableSortKeepsItems(listed, x => x, false);
    DistinctPermutation(listed, names);
    forall x
      ensures x in names <==> x in listed
    {
      assert x in names <==> x in multiset(names);
      assert x in listed <==> x in multiset(listed);
    }
    forall i, j | 0 <= i < j < |names|
      ensures Less(names[i], names[j])
    {
      assert Before(names[i], names[j], false);
      LessTotal(names[i], names[j]);
    }
  }

  lemma AdjacentInOrder(seen: set<string>, names: seq<string>, i: nat)
    requires StrictlySorted(names) && (forall x :: x in names <==> x in seen)
    requires 0 < i < |names| && Collides(names[i - 1], names[i])
    ensures AdjacentCollision(seen, names[i - 1], names[i])
  {
    forall x | x in seen
      ensures !(Less(names[i - 1], x) && Less(x, names[i]))
    {
      var k :| 0 <= k < |names| && names[k] == x;
      LessIrreflexive(x);
      if k < i - 1 { LessAsymmetric(x, names[i - 1]); }
      if i < k { LessAsymmetric(names[i], x); }
    }
  }

  lemma NeighboursOf(seen: set<string>, names: seq<string>, p: string, q: string)
    requires StrictlySorted(names) && (forall x :: x in names <==> x in seen)
    requires AdjacentCollision(seen, p, q)
    ensures exists i :: 0 < i < |names| && Collides(names[i - 1], names[i])
  {
    var a :| 0 <= a < |names| && names[a] == p;
    var b :| 0 <= b < |names| && names[b] == q;
    CollidingSortsAfter(p, q);
    LessIrreflexive(p);
    if b < a { LessAsymmetric(p, q); }
    assert names[a + 1] in seen;
  }

  // ---- What the adjacent check finds ---------------------------------------

  lemma CollidingSortsAfter(p: string, q: string)
    requires Collides(p, q)
    ensures Less(p, q)
  {
    assert q == p + q[|p|..] && p == p + "";
    LessAfterPrefix(p, "", q[|p|..]);
  }

  /** Whatever sorts between a prefix and its extension extends the prefix. */
  lemma {:induction false} BetweenExtends(p: string, x: string, q: string)
    requires p <= q && Less(p, x) && Less(x, q)
    ensures p < x
  {
    if p != "" {
      BetweenExtends(p[1..], x[1..], q[1..]);
      assert p == [p[0]] + p[1..] && x == [x[0]] + x[1..];
    }
  }

  /** `x` extends `p` by something that sorts below a slash. */
  predicate CutsIn(p: string, x: string) {
    p < x && x[|p|] < '/'
  }

  lemma CutsInBetween(p: string, x: string, q: string)
    requires Collides(p, q) && CutsIn(p, x)
    ensures Less(p, x) && Less(x, q)
  {
    assert x == p + x[|p|..] && q == p + q[|p|..] && p == p + "";
    LessAfterPrefix(p, "", x[|p|..]);
    LessAfterPrefix(p, x[|p|..], q[|p|..]);
  }

  lemma BetweenCutsInOrCollides(p: string, x: string, q: string)
    requires Collides(p, q) && Less(p, x) && Less(x, q)
    ensures CutsIn(p, x) || Collides(p, x)
  {
    BetweenExtends(p, x, q);
    assert x == p + x[|p|..] && q == p + q[|p|..];
    LessAfterPrefix(p, x[|p|..], q[|p|..]);
  }

  /** Among finitely many names colliding with `p` one comes first. */
  lemma {:induction false} FirstCollision(names: set<string>, p: string, q: string) returns (first: string)
    requires q in names && Collides(p, q)
    ensures first in names && Collides(p, first)
    ensures forall x <- names :: Collides(p, x) ==> !Less(x, first)
    decreases names
  {
    LessIrreflexive(q);
    if x :| x in names && Collides(p, x) && Less(x, q) {
      var rest := names - {q};
      assert x != q;
      first := FirstCollision(rest, p, x);
      if Less(q, first) {
        LessTransitive(x, q, first);
      }
    } else {
      first := q;
    }
  }

  /**
    The check finds a collision exactly when some colliding name is not followed by one
    that extends it below a slash (as `a.b` extends `a`).
   */
  lemma AdjacentCheckFindsIff(names: set<string>)
    ensures (exists p, q :: AdjacentCollision(names, p, q)) <==>
      (exists p, q :: p in names && q in names && Collides(p, q) && forall x <- names :: !CutsIn(p, x))
  {
    forall p, q | AdjacentCollision(names, p, q)
      ensures forall x <- names :: !CutsIn(p, x)
    {
      forall x | x in names && CutsIn(p, x)
        ensures false
      {
        CutsInBetween(p, x, q);
      }
    }
    forall p, q | p in names && q in names && Collides(p, q) && forall x <- names :: !CutsIn(p, x)
      ensures exists q' :: AdjacentCollision(names, p, q')
    {
      var first := FirstCollision(names, p, q);
      forall x | x in names && Less(p, x) && Less(x, first)
        ensures false
      {
        BetweenCutsInOrCollides(p, x, first);
      }
      assert AdjacentCollision(names, p, first);
    }
  }

  /** So it is complete when no name has a character that sorts below a slash. */
  lemma CompleteAboveSlash(names: set<string>, p: string, q: string)
    requires forall x <- names :: forall c <- x :: '/' <= c
    requires p in names && q in names && Collides(p, q)
    ensures exists a, b :: AdjacentCollision(names, a, b)
  {
    forall x <- names
      ensures !CutsIn(p, x)
    {
      if p < x { assert x[|p|] in x; }
    }
    AdjacentCheckFindsIff(names);
  }

  /** And it misses a collision without that condition. */
  lemma MissedCollision()
    ensures var names := {"a", "a.b", "a/c"};
      Collides("a", "a/c") && !exists p, q :: AdjacentCollision(names, p, q)
  {
    var names := {"a", "a.b", "a/c"};
    assert CutsIn("a", "a.b");
    forall p, q | p in names && q in names && Collides(p, q)
      ensures p == "a"
    {
      assert |p| < |q|;
      if p == "a.b" { assert false; }
    }
    AdjacentCheckFindsIff(names);
  }
}
