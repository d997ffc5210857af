/** One pass over the claims: expired ones complete their bundle or release it. */
module ClaimSweep {
  import opened Wrappers
  import opened ClaimStorage
  import Protocol = ClaimProtocol

  /** What reading a manifest gives: its names, or an error other than "not found". */
  datatype Manifest = Names(names: set<string>) | Unreadable

  /** The bundles as the sweep sees them; deleting one takes no other away. */
  class Bundles {
    var present: map<string, Manifest>

    constructor (present: map<string, Manifest>)
      ensures this.present == present
    {
      this.present := present;
    }

    /** A bundle that cannot be deleted stays. */
    method Delete(path: string, stuck: set<string>)
      modifies this
      ensures present == if path in stuck then old(present) else old(present) - {path}
    {
      if path in stuck { return; }
      present := present - {path};
    }
  }

  // ---- What becomes of a claim -----------------------------------------------

  predicate IsExpired(claim: ClaimRecord, now: int, ttl: int) {
    claim.createdAt.None? || now - claim.createdAt.value >= ttl
  }

  predicate IsComplete(claim: ClaimRecord, m: Manifest) {
    m.Names? && m.names != {} && forall name <- m.names :: name in claim.filesFetched
  }

  /** A claim of unknown age is dropped unseen; an expired one unless its manifest resists reading. */
  predicate IsDropped(claim: ClaimRecord, present: map<string, Manifest>, now: int, ttl: int) {
    && IsExpired(claim, now, ttl)
    && (claim.createdAt.Some? && claim.bundlePath in present ==> present[claim.bundlePath].Names?)
  }

  predicate TakesBundle(claim: ClaimRecord, present: map<string, Manifest>, now: int, ttl: int) {
    && claim.createdAt.Some? && IsExpired(claim, now, ttl)
    && claim.bundlePath in present && IsComplete(claim, present[claim.bundlePath])
    && INBOX_PREFIX <= claim.bundlePath
  }

  function Dropped(claims: set<ClaimRecord>, present: map<string, Manifest>, now: int, ttl: int): set<ClaimRecord> {
    set claim <- claims | IsDropped(claim, present, now, ttl)
  }

  function Taken(claims: set<ClaimRecord>, present: map<string, Manifest>, now: int, ttl: int): set<string> {
    set claim <- claims | TakesBundle(claim, present, now, ttl) :: claim.bundlePath
  }

  function ClaimsOf(s: ClaimFiles): set<ClaimRecord> {
    set jti <- s.sidecars.Keys | s.sidecars[jti].Parsed? :: s.sidecars[jti].record
  }

  /** The claim files without these claims and their locks. */
  function Without(s: ClaimFiles, digest: string -> Digest, gone: set<ClaimRecord>): ClaimFiles {
    s.(locks := s.locks - (set claim <- gone :: digest(claim.bundlePath)),
       sidecars := s.sidecars - (set claim <- gone :: claim.jti))
  }

  /** The bundles and claims that a sweep leaves. */
  function SweptFiles(
      s: ClaimFiles, digest: string -> Digest, present: map<string, Manifest>, now: int, ttl: int): ClaimFiles
  {
    Without(s, digest, Dropped(ClaimsOf(s), present, now, ttl))
  }

  function SweptBundles(
      s: ClaimFiles, present: map<string, Manifest>, now: int, ttl: int, stuck: set<string>): map<string, Manifest>
  {
    present - (Taken(ClaimsOf(s), present, now, ttl) - stuck)
  }

  // ---- The sweep -------------------------------------------------------------

  method SweepClaims(store: FilesystemClaimStorage, bundles: Bundles, now: int, ttl: int, stuck: set<string>)
    requires store.Valid()
    modifies store`files, bundles
    ensures store.Valid()
    ensures store.files == SweptFiles(old(store.files), store.digest, old(bundles.present), now, ttl)
    ensures bundles.present == SweptBundles(old(store.files), old(bundles.present), now, ttl, stuck)
  {
    ghost var s, present := store.files, bundles.present;
    var claims := store.IterAll();
    ListedApart(s, store.digest, claims);
    NoneHandled(s, store.digest, claims, present, now, ttl, stuck);
    var i := 0;
    while i < |claims|
      invariant i <= |claims| && Handled(store, bundles, s, present, claims, i, now, ttl, stuck)
    {
      HandleNext(store, bundles, s, present, claims, i, now, ttl, stuck);
      i := i + 1;
    }
    AllListed(s, claims);
  }

  /** The first `i` of the claims are handled. */
  ghost predicate Handled(
      store: FilesystemClaimStorage, bundles: Bundles, s: ClaimFiles, present: map<string, Manifest>,
      claims: seq<ClaimRecord>, i: nat, now: int, ttl: int, stuck: set<string>)
    requires i <= |claims|
    reads store, bundles
  {
    && store.Valid() && store.files == FilesAfter(s, store.digest, claims, i, present, now, ttl)
    && bundles.present == BundlesAfter(claims, i, present, now, ttl, stuck)
  }

  method HandleNext(
      store: FilesystemClaimStorage, bundles: Bundles, ghost s: ClaimFiles, ghost present: map<string, Manifest>,
      claims: seq<ClaimRecord>, i: nat, now: int, ttl: int, stuck: set<string>)
    requires i < |claims| && Listing(s, store.digest, claims)
    requires Handled(store, bundles, s, present, claims, i, now, ttl, stuck)
    modifies store`files, bundles
    ensures Handled(store, bundles, s, present, claims, i + 1, now, ttl, stuck)
  {
    OneMoreClaim(s, store.digest, claims, i, present, now, ttl);
    OneMoreBundle(s, store.digest, claims, i, present, now, ttl, stuck);
    HandleClaim(store, bundles, claims[i], now, ttl, stuck);
  }

  /** The body of the loop over the claims. */
  method HandleClaim(
      store: FilesystemClaimStorage, bundles: Bundles, claim: ClaimRecord, now: int, ttl: int, stuck: set<string>)
    requires store.Valid()
    modifies store`files, bundles
    ensures store.Valid()
    ensures store.files ==
      if IsDropped(claim, old(bundles.present), now, ttl)
      then WithoutClaim(old(store.files), store.digest, claim.jti) else old(store.files)
    ensures bundles.present ==
      if TakesBundle(claim, old(bundles.present), now, ttl) && claim.bundlePath !in stuck
      then old(bundles.present) - {claim.bundlePath} else old(bundles.present)
  {
    if claim.createdAt.None? {
      store.Delete(claim.jti);
      return;
    }
    if now - claim.createdAt.value < ttl { return; }
    if claim.bundlePath !in bundles.present {
      store.Delete(claim.jti);
      return;
    }
    var meta := bundles.present[claim.bundlePath];
    if meta.Unreadable? { return; }
    if IsComplete(claim, meta) && INBOX_PREFIX <= claim.bundlePath {
      bundles.Delete(claim.bundlePath, stuck);
      store.Delete(claim.jti);
    } else {
      store.Delete(claim.jti);
    }
  }

  function FilesAfter(
      s: ClaimFiles, digest: string -> Digest, claims: seq<ClaimRecord>, n: nat, present: map<string, Manifest>,
      now: int, ttl: int): ClaimFiles
    requires n <= |claims|
  {
    Without(s, digest, Dropped(First(claims, n), present, now, ttl))
  }

  function BundlesAfter(
      claims: seq<ClaimRecord>, n: nat, present: map<string, Manifest>, now: int, ttl: int, stuck: set<string>)
      : map<string, Manifest>
    requires n <= |claims|
  {
    present - (Taken(First(claims, n), present, now, ttl) - stuck)
  }

  lemma NoneHandled(
      s: ClaimFiles, digest: string -> Digest, claims: seq<ClaimRecord>, present: map<string, Manifest>, now: int,
      ttl: int, stuck: set<string>)
    ensures FilesAfter(s, digest, claims, 0, present, now, ttl) == s
    ensures BundlesAfter(claims, 0, present, now, ttl, stuck) == present
  {
    NothingGone(s, digest);
    assert First(claims, 0) == {};
    assert Dropped({}, present, now, ttl) == {} && Taken({}, present, now, ttl) == {};
  }

  lemma SameDecision(claim: ClaimRecord, present: map<string, Manifest>, gone: set<string>, now: int, ttl: int)
    requires claim.bundlePath !in gone
    ensures IsDropped(claim, present - gone, now, ttl) <==> IsDropped(claim, present, now, ttl)
    ensures TakesBundle(claim, present - gone, now, ttl) <==> TakesBundle(claim, present, now, ttl)
  {
  }

  function First(claims: seq<ClaimRecord>, n: nat): set<ClaimRecord>
    requires n <= |claims|
  {
    set k | 0 <= k < n :: claims[k]
  }

  /** The listed claims are those of the files, with different paths and digests. */
  ghost predicate Listing(s: ClaimFiles, digest: string -> Digest, claims: seq<ClaimRecord>) {
    && (forall i :: 0 <= i < |claims| ==> IsClaim(s, claims[i].jti) && s.sidecars[claims[i].jti].record == claims[i])
    && (forall i, j :: 0 <= i < j < |claims| ==>
          claims[i].jti != claims[j].jti && digest(claims[i].bundlePath) != digest(claims[j].bundlePath))
  }

  lemma ListedApart(s: ClaimFiles, digest: string -> Digest, claims: seq<ClaimRecord>)
    requires Inv(s, digest)
    requires forall i :: 0 <= i < |claims| ==>
      IsClaim(s, claims[i].jti) && s.sidecars[claims[i].jti].record == claims[i]
    requires forall i, j :: 0 <= i < j < |claims| ==> claims[i].jti != claims[j].jti
    ensures Listing(s, digest, claims)
  {
    forall i, j | 0 <= i < j < |claims|
      ensures digest(claims[i].bundlePath) != digest(claims[j].bundlePath)
    {
      assert Owns(s, digest, claims[i].jti) && Owns(s, digest, claims[j].jti);
    }
  }

  lemma AllListed(s: ClaimFiles, claims: seq<ClaimRecord>)
    requires forall jti :: IsClaim(s, jti) ==> s.sidecars[jti].record in claims
    requires forall i :: 0 <= i < |claims| ==>
      IsClaim(s, claims[i].jti) && s.sidecars[claims[i].jti].record == claims[i]
    ensures First(claims, |claims|) == ClaimsOf(s)
  {
    forall claim
      ensures claim in First(claims, |claims|) <==> claim in ClaimsOf(s)
    {
      if claim in ClaimsOf(s) {
        var jti :| jti in s.sidecars && s.sidecars[jti].Parsed? && s.sidecars[jti].record == claim;
        assert IsClaim(s, jti);
      }
    }
  }

  /** The effect of handling one more claim, whichever branch it takes. */
  lemma OneMoreClaim(
      s: ClaimFiles, digest: string -> Digest, claims: seq<ClaimRecord>, i: nat, present: map<string, Manifest>,
      now: int, ttl: int)
    requires Listing(s, digest, claims) && i < |claims|
    ensures FilesAfter(s, digest, claims, i + 1, present, now, ttl) ==
      if IsDropped(claims[i], present, now, ttl)
      then WithoutClaim(FilesAfter(s, digest, claims, i, present, now, ttl), digest, claims[i].jti)
      else FilesAfter(s, digest, claims, i, present, now, ttl)
  {
    var few, more := First(claims, i), First(claims, i + 1);
    assert more == few + {claims[i]};
    var gone := Dropped(few, present, now, ttl);
    assert Dropped(more, present, now, ttl) ==
      gone + if IsDropped(claims[i], present, now, ttl) then {claims[i]} else {};
    StillClaimed(s, digest, claims, i, gone);
    if IsDropped(claims[i], present, now, ttl) { DropOne(s, digest, gone, claims[i]); }
  }

  /** Bundles of earlier claims are others, so the decision is as at the start. */
  lemma OneMoreBundle(
      s: ClaimFiles, digest: string -> Digest, claims: seq<ClaimRecord>, i: nat, present: map<string, Manifest>,
      now: int, ttl: int, stuck: set<string>)
    requires Listing(s, digest, claims) && i < |claims|
    ensures
      var sofar := BundlesAfter(claims, i, present, now, ttl, stuck);
      && (IsDropped(claims[i], sofar, now, ttl) <==> IsDropped(claims[i], present, now, ttl))
      && BundlesAfter(claims, i + 1, present, now, ttl, stuck) ==
           if TakesBundle(claims[i], sofar, now, ttl) && claims[i].bundlePath !in stuck
           then sofar - {claims[i].bundlePath} else sofar
  {
    var few, more := First(claims, i), First(claims, i + 1);
    var path := claims[i].bundlePath;
    assert more == few + {claims[i]};
    var taken := Taken(few, present, now, ttl);
    assert path !in taken;
    SameDecision(claims[i], present, taken - stuck, now, ttl);
    assert Taken(more, present, now, ttl) == taken + if TakesBundle(claims[i], present, now, ttl) then {path} else {};
    assert (taken + {path}) - stuck == (taken - stuck) + if path in stuck then {} else {path};
    assert present - ((taken - stuck) + {path}) == present - (taken - stuck) - {path};
  }

  lemma StillClaimed(s: ClaimFiles, digest: string -> Digest, claims: seq<ClaimRecord>, i: nat, gone: set<ClaimRecord>)
    requires Listing(s, digest, claims) && i < |claims| && gone <= First(claims, i)
    ensures IsClaim(Without(s, digest, gone), claims[i].jti)
    ensures Without(s, digest, gone).sidecars[claims[i].jti].record == claims[i]
  {
  }

  lemma DropOne(s: ClaimFiles, digest: string -> Digest, gone: set<ClaimRecord>, claim: ClaimRecord)
    requires IsClaim(Without(s, digest, gone), claim.jti)
    requires Without(s, digest, gone).sidecars[claim.jti].record == claim
    ensures Without(s, digest, gone + {claim}) == WithoutClaim(Without(s, digest, gone), digest, claim.jti)
  {
    var more := gone + {claim};
    assert (set x <- more :: x.jti) == (set x <- gone :: x.jti) + {claim.jti};
    assert (set x <- more :: digest(x.bundlePath)) ==
      (set x <- gone :: digest(x.bundlePath)) + {digest(claim.bundlePath)};
    var one, two := Without(s, digest, more), WithoutClaim(Without(s, digest, gone), digest, claim.jti);
    assert one.locks == two.locks && one.sidecars == two.sidecars;
  }

  /** The interleaved protocol takes the same decision about each claim. */
  lemma ProtocolDecidesAlike(c: Protocol.Config, s: Protocol.State, at: int, claims: seq<ClaimRecord>)
    requires claims != []
    ensures
      var present := map path | path in s.bundles :: Names(s.bundles[path]);
      var next := Protocol.Consider(c, s, at, claims);
      var ttl := c.ttl * Protocol.MICROS;
      && (next.SweepDeleting? <==> TakesBundle(claims[0], present, at, ttl))
      && (next.SweepDropping? <==>
            IsDropped(claims[0], present, at, ttl) && !TakesBundle(claims[0], present, at, ttl))
      && (next == Protocol.Sweeping(at, claims[1..]) <==> !IsDropped(claims[0], present, at, ttl))
  {
  }

  // ---- Where a sweep leads ---------------------------------------------------

  ghost predicate AllReadable(present: map<string, Manifest>) {
    forall path :: path in present ==> present[path].Names?
  }

  lemma DroppedIff(
      s: ClaimFiles, digest: string -> Digest, present: map<string, Manifest>, now: int, ttl: int, jti: string)
    requires Inv(s, digest) && IsClaim(s, jti)
    ensures IsClaim(SweptFiles(s, digest, present, now, ttl), jti) <==>
      !IsDropped(s.sidecars[jti].record, present, now, ttl)
  {
    var gone := Dropped(ClaimsOf(s), present, now, ttl);
    var claim := s.sidecars[jti].record;
    assert Owns(s, digest, jti) && claim in ClaimsOf(s);
    if !IsDropped(claim, present, now, ttl) && jti in (set x <- gone :: x.jti) {
      var x :| x in gone && x.jti == jti;
      var other :| other in s.sidecars && s.sidecars[other].Parsed? && s.sidecars[other].record == x;
      assert Owns(s, digest, other);
    }
  }

  /** After a sweep at `now`, exactly the claims younger than the limit are left. */
  lemma OnlyYoungClaimsAreLeft(
      s: ClaimFiles, digest: string -> Digest, present: map<string, Manifest>, now: int, ttl: int, jti: string)
    requires Inv(s, digest) && AllReadable(present)
    ensures IsClaim(SweptFiles(s, digest, present, now, ttl), jti) <==>
      IsClaim(s, jti) && !IsExpired(s.sidecars[jti].record, now, ttl)
  {
    if IsClaim(s, jti) { DroppedIff(s, digest, present, now, ttl, jti); }
  }

  /** A bundle goes exactly if it is an inbox bundle whose expired claim covers its whole manifest. */
  lemma BundleGoesIff(s: ClaimFiles, present: map<string, Manifest>, now: int, ttl: int, path: string)
    requires path in present
    ensures path !in SweptBundles(s, present, now, ttl, {}) <==>
      "inbox/" <= path && exists jti ::
        IsClaim(s, jti) && ClaimCovers(s.sidecars[jti].record, path, present[path], now, ttl)
  {
    var taken := Taken(ClaimsOf(s), present, now, ttl);
    if path in taken {
      var claim :| claim in ClaimsOf(s) && TakesBundle(claim, present, now, ttl) && claim.bundlePath == path;
      var jti :| jti in s.sidecars && s.sidecars[jti].Parsed? && s.sidecars[jti].record == claim;
      assert IsClaim(s, jti);
    }
    if jti :| IsClaim(s, jti) && ClaimCovers(s.sidecars[jti].record, path, present[path], now, ttl) {
      assert s.sidecars[jti].record in ClaimsOf(s);
    }
  }

  predicate ClaimCovers(claim: ClaimRecord, path: string, m: Manifest, now: int, ttl: int) {
    && claim.bundlePath == path && claim.createdAt.Some? && now - claim.createdAt.value >= ttl
    && IsComplete(claim, m)
  }

  /** An expired claim that does not cover its manifest frees the bundle: still there, unclaimed, pickable. */
  lemma IncompleteIsReleased(
      s: ClaimFiles, digest: string -> Digest, present: map<string, Manifest>, now: int, ttl: int,
      jti: string, newer: string)
    requires OneToOne(s, digest) && AllReadable(present) && IsClaim(s, jti) && newer !in s.sidecars
    requires s.sidecars[jti].record.bundlePath in present && IsExpired(s.sidecars[jti].record, now, ttl)
    requires !IsComplete(s.sidecars[jti].record, present[s.sidecars[jti].record.bundlePath])
    ensures
      var path := s.sidecars[jti].record.bundlePath;
      var r := SweptFiles(s, digest, present, now, ttl);
      && path in SweptBundles(s, present, now, ttl, {}) && CanIssue(r, digest(path), newer)
      && forall other :: IsClaim(r, other) ==> r.sidecars[other].record.bundlePath != path
  {
    var claim := s.sidecars[jti].record;
    var path := claim.bundlePath;
    var r := SweptFiles(s, digest, present, now, ttl);
    var gone := Dropped(ClaimsOf(s), present, now, ttl);
    assert Owns(s, digest, jti) && claim in ClaimsOf(s) && claim in gone;
    assert digest(path) in (set x <- gone :: digest(x.bundlePath));
    forall other | IsClaim(s, other) && s.sidecars[other].record.bundlePath == path
      ensures other == jti
    {
      assert Owns(s, digest, other);
    }
    DroppedIff(s, digest, present, now, ttl, jti);
    BundleGoesIff(s, present, now, ttl, path);
  }

  /** A second sweep at the same time changes nothing, whatever could not be read or deleted. */
  lemma SecondSweepChangesNothing(
      s: ClaimFiles, digest: string -> Digest, present: map<string, Manifest>, now: int, ttl: int, stuck: set<string>)
    requires Inv(s, digest)
    ensures
      var r := SweptFiles(s, digest, present, now, ttl);
      var left := SweptBundles(s, present, now, ttl, stuck);
      SweptFiles(r, digest, left, now, ttl) == r && SweptBundles(r, left, now, ttl, stuck) == left
  {
    var r := SweptFiles(s, digest, present, now, ttl);
    var left := SweptBundles(s, present, now, ttl, stuck);
    forall claim | claim in ClaimsOf(r)
      ensures !IsDropped(claim, left, now, ttl) && !TakesBundle(claim, left, now, ttl)
    {
      var jti :| jti in r.sidecars && r.sidecars[jti].Parsed? && r.sidecars[jti].record == claim;
      DroppedIff(s, digest, present, now, ttl, jti);
      assert IsClaim(s, jti) && Owns(s, digest, jti);
      if claim.bundlePath in present { NamesOrStays(s, present, now, ttl, stuck, claim.bundlePath); }
    }
    assert Dropped(ClaimsOf(r), left, now, ttl) == {};
    assert Taken(ClaimsOf(r), left, now, ttl) == {};
    NothingGone(r, digest);
  }

  lemma NamesOrStays(
      s: ClaimFiles, present: map<string, Manifest>, now: int, ttl: int, stuck: set<string>, path: string)
    requires path in present
    ensures present[path].Names? || path in SweptBundles(s, present, now, ttl, stuck)
  {
  }

  lemma NothingGone(s: ClaimFiles, digest: string -> Digest)
    ensures Without(s, digest, {}) == s
  {
    var r := Without(s, digest, {});
    assert r.locks == s.locks && r.sidecars == s.sidecars;
  }

  /** The sweep keeps locks and claims in one-to-one correspondence. */
  lemma SweepKeepsOneToOne(
      s: ClaimFiles, digest: string -> Digest, present: map<string, Manifest>, now: int, ttl: int)
    requires OneToOne(s, digest)
    ensures OneToOne(SweptFiles(s, digest, present, now, ttl), digest)
  {
    var r := SweptFiles(s, digest, present, now, ttl);
    var gone := Dropped(ClaimsOf(s), present, now, ttl);
    forall jti | IsClaim(r, jti)
      ensures Owns(r, digest, jti)
    {
      assert IsClaim(s, jti) && Owns(s, digest, jti);
      DroppedIff(s, digest, present, now, ttl, jti);
      LockGoesWithItsClaim(s, digest, gone, jti);
    }
    forall d | d in r.locks
      ensures OwnedLock(r, digest, d)
    {
      assert OwnedLock(s, digest, d);
      var jti := s.locks[d].value;
      assert Owns(s, digest, jti);
      assert s.sidecars[jti].record in ClaimsOf(s);
      DroppedIff(s, digest, present, now, ttl, jti);
    }
  }

  lemma LockGoesWithItsClaim(s: ClaimFiles, digest: string -> Digest, gone: set<ClaimRecord>, jti: string)
    requires Inv(s, digest) && IsClaim(s, jti) && gone <= ClaimsOf(s) && s.sidecars[jti].record !in gone
    ensures digest(s.sidecars[jti].record.bundlePath) !in (set x <- gone :: digest(x.bundlePath))
  {
    assert Owns(s, digest, jti);
    forall x | x in gone
      ensures digest(x.bundlePath) != digest(s.sidecars[jti].record.bundlePath)
    {
      var other :| other in s.sidecars && s.sidecars[other].Parsed? && s.sidecars[other].record == x;
      assert Owns(s, digest, other);
    }
  }
}
