/** Rotation of the signing key, and which keys verify at which time. */
module KeyRotation {
  import opened Wrappers

  type Key = Bytes

  const MIN_HS256_KEY_BYTES := 32

  /** The four fields of the slots holder, as a value. */
  datatype Slots = Slots(primary: Key, secondary: Option<Key>, lastRotation: Option<int>, overlap: int)

  function Secondary(s: Slots, now: int): Option<Key> {
    if s.lastRotation.None? || now - s.lastRotation.value < s.overlap then s.secondary else None
  }

  function AfterLookup(s: Slots, now: int): Slots {
    s.(secondary := Secondary(s, now))
  }

  /** `material` is what the key file decodes to, or `None` if it cannot be read or decoded. */
  function NewKey(material: Option<Bytes>): Option<Key> {
    if material.Some? && |material.value| >= MIN_HS256_KEY_BYTES then material else None
  }

  function AfterRotation(s: Slots, material: Option<Bytes>, now: int): Slots {
    if NewKey(material).None? || NewKey(material).value == s.primary then s
    else s.(primary := NewKey(material).value, secondary := Some(s.primary), lastRotation := Some(now))
  }

  class JWTKeySlots {
    var primary: Key
    var secondary: Option<Key>
    var lastRotation: Option<int>
    var overlap: int

    constructor (primary: Key, secondary: Option<Key>, overlap: int)
      ensures Value() == Slots(primary, secondary, None, overlap)
    {
      this.primary, this.secondary, lastRotation, this.overlap := primary, secondary, None, overlap;
    }

    ghost function Value(): Slots
      reads this
    {
      Slots(primary, secondary, lastRotation, overlap)
    }

    /** Drops the secondary once its time is over. */
    method ResolveSecondary(now: int) returns (r: Option<Key>)
      modifies this`secondary
      ensures r == Secondary(old(Value()), now)
      ensures Value() == AfterLookup(old(Value()), now)
    {
      var last, ttl := lastRotation, overlap;
      if last.None? { return secondary; }
      if now - last.value >= ttl {
        secondary := None;
        return None;
      }
      return secondary;
    }

    /** The configured overlap is fixed for the life of the process. */
    method HandleRotation(material: Option<Bytes>, now: int, configuredOverlap: int)
      requires configuredOverlap == overlap
      modifies this
      ensures Value() == AfterRotation(old(Value()), material, now)
    {
      if material.None? || |material.value| < 32 { return; }
      var newKey := material;
      if newKey.value == primary { return; }
      var previous := primary;
      primary := newKey.value;
      secondary := Some(previous);
      lastRotation := Some(now);
      overlap := configuredOverlap;
    }
  }

  // ---- Schedules -----------------------------------------------------------

  datatype Action = Rotate(material: Option<Bytes>) | Lookup

  datatype Event = Event(at: int, action: Action)

  function Happen(s: Slots, e: Event): Slots {
    match e.action
    case Rotate(material) => AfterRotation(s, material, e.at)
    case Lookup => AfterLookup(s, e.at)
  }

  function Run(s: Slots, events: seq<Event>): Slots {
    if events == [] then s else Happen(Run(s, events[..|events| - 1]), events[|events| - 1])
  }

  /** The clock never goes back, and `t` is not before the last event. */
  predicate InOrder(events: seq<Event>, t: int) {
    && (forall i, j :: 0 <= i < j < |events| ==> events[i].at <= events[j].at)
    && (forall i :: 0 <= i < |events| ==> events[i].at <= t)
  }

  /** A key verifies if it is the primary or the secondary a lookup would give. */
  predicate Accepted(s: Slots, key: Key, t: int) {
    key == s.primary || Secondary(s, t) == Some(key)
  }

  // ---- The history, told without any slots -----------------------------------

  /** The key installed last, or the boot key. */
  function PrimaryAfter(boot: Key, events: seq<Event>): Key {
    if events == [] then boot
    else
      var last := events[|events| - 1];
      if last.action.Rotate? && NewKey(last.action.material).Some? then NewKey(last.action.material).value
      else PrimaryAfter(boot, events[..|events| - 1])
  }

  /** The event at `i` installs a key other than the one in use. */
  predicate Effective(boot: Key, events: seq<Event>, i: nat) {
    && i < |events| && events[i].action.Rotate? && NewKey(events[i].action.material).Some?
    && NewKey(events[i].action.material).value != PrimaryAfter(boot, events[..i])
  }

  predicate LastEffective(boot: Key, events: seq<Event>, i: nat) {
    Effective(boot, events, i) && forall j :: i < j < |events| ==> !Effective(boot, events, j)
  }

  predicate NeverRotated(boot: Key, events: seq<Event>) {
    forall j :: 0 <= j < |events| ==> !Effective(boot, events, j)
  }

  ghost predicate AcceptedByHistory(
      boot: Key, bootSecondary: Option<Key>, events: seq<Event>, overlap: int, key: Key, t: int)
  {
    || key == PrimaryAfter(boot, events)
    || (NeverRotated(boot, events) && bootSecondary == Some(key))
    || exists i: nat ::
         LastEffective(boot, events, i) && DisplacedAt(boot, events, i, key) && t - events[i].at < overlap
  }

  predicate DisplacedAt(boot: Key, events: seq<Event>, i: nat, key: Key)
    requires i < |events|
  {
    key == PrimaryAfter(boot, events[..i])
  }

  function Booted(boot: Key, bootSecondary: Option<Key>, overlap: int): Slots {
    Slots(boot, bootSecondary, None, overlap)
  }

  /** What the slots hold, in terms of the history. */
  ghost predicate Tells(s: Slots, boot: Key, bootSecondary: Option<Key>, events: seq<Event>, overlap: int, t: int) {
    && s.primary == PrimaryAfter(boot, events)
    && s.overlap == overlap
    && (NeverRotated(boot, events) ==> s.lastRotation.None? && s.secondary == bootSecondary)
    && (forall i: nat :: LastEffective(boot, events, i) ==>
          TellsLast(s, events[i].at, PrimaryAfter(boot, events[..i]), overlap, t))
  }

  /** The last effective rotation was at `at`; the key it displaced is kept or out of time. */
  ghost predicate TellsLast(s: Slots, at: int, displaced: Key, overlap: int, t: int) {
    && s.lastRotation == Some(at)
    && (s.secondary == Some(displaced) || (s.secondary == None && t - at >= overlap))
  }

  lemma EffectiveInPrefix(boot: Key, events: seq<Event>, n: nat, i: nat)
    requires i < n <= |events|
    ensures Effective(boot, events[..n], i) <==> Effective(boot, events, i)
    ensures events[..n][..i] == events[..i]
  {
    assert events[..n][..i] == events[..i];
  }

  /** How the last event changes which rotation is the last effective one. */
  lemma LastEventDecides(boot: Key, events: seq<Event>)
    requires events != []
    ensures
      var n := |events| - 1;
      && (Effective(boot, events, n) ==> forall i: nat :: LastEffective(boot, events, i) <==> i == n)
      && (!Effective(boot, events, n) ==>
            forall i: nat :: LastEffective(boot, events, i) <==> LastEffective(boot, events[..n], i))
      && (NeverRotated(boot, events) <==> !Effective(boot, events, n) && NeverRotated(boot, events[..n]))
  {
    var n := |events| - 1;
    forall i: nat | i < n
      ensures Effective(boot, events[..n], i) <==> Effective(boot, events, i)
    {
      EffectiveInPrefix(boot, events, n, i);
    }
  }

  lemma {:induction false} RunTells(
      boot: Key, bootSecondary: Option<Key>, events: seq<Event>, overlap: int, t: int)
    requires InOrder(events, t)
    ensures Tells(Run(Booted(boot, bootSecondary, overlap), events), boot, bootSecondary, events, overlap, t)
  {
    if events != [] {
      var n := |events| - 1;
      RunTells(boot, bootSecondary, events[..n], overlap, events[n].at);
      var s := Run(Booted(boot, bootSecondary, overlap), events[..n]);
      if Effective(boot, events, n) {
        EffectiveEvent(s, boot, bootSecondary, events, overlap, t);
      } else {
        QuietEvent(s, boot, bootSecondary, events, overlap, t);
      }
    }
  }

  lemma EffectiveEvent(
      s: Slots, boot: Key, bootSecondary: Option<Key>, events: seq<Event>, overlap: int, t: int)
    requires events != [] && Effective(boot, events, |events| - 1)
    requires s.primary == PrimaryAfter(boot, events[..|events| - 1]) && s.overlap == overlap
    ensures Tells(Happen(s, events[|events| - 1]), boot, bootSecondary, events, overlap, t)
  {
    LastEventDecides(boot, events);
  }

  /** Any other event leaves the slots as they are, except for the lazy drop. */
  lemma QuietEvent(
      s: Slots, boot: Key, bootSecondary: Option<Key>, events: seq<Event>, overlap: int, t: int)
    requires events != [] && !Effective(boot, events, |events| - 1) && events[|events| - 1].at <= t
    requires Tells(s, boot, bootSecondary, events[..|events| - 1], overlap, events[|events| - 1].at)
    ensures Tells(Happen(s, events[|events| - 1]), boot, bootSecondary, events, overlap, t)
  {
    var n := |events| - 1;
    var r := Happen(s, events[n]);
    LastEventDecides(boot, events);
    assert r == s || r == AfterLookup(s, events[n].at);
    forall i: nat | LastEffective(boot, events, i)
      ensures TellsLast(r, events[i].at, PrimaryAfter(boot, events[..i]), overlap, t)
    {
      assert LastEffective(boot, events[..n], i);
      EffectiveInPrefix(boot, events, n, i);
      assert TellsLast(s, events[i].at, PrimaryAfter(boot, events[..i]), overlap, events[n].at);
    }
  }

  /** One of the two cases of the history holds. */
  lemma {:induction false} SomeLastEffective(boot: Key, events: seq<Event>)
    ensures NeverRotated(boot, events) || exists i: nat :: LastEffective(boot, events, i)
  {
    if events != [] {
      var n := |events| - 1;
      SomeLastEffective(boot, events[..n]);
      LastEventDecides(boot, events);
      if !Effective(boot, events, n) && !NeverRotated(boot, events) {
        var i: nat :| LastEffective(boot, events[..n], i);
        assert LastEffective(boot, events, i);
      } else if Effective(boot, events, n) {
        assert LastEffective(boot, events, n);
      }
    }
  }

  /** At any time after any schedule, exactly the keys that the history names are accepted. */
  lemma HistoryDecides(
      boot: Key, bootSecondary: Option<Key>, events: seq<Event>, overlap: int, key: Key, t: int)
    requires InOrder(events, t)
    ensures Accepted(Run(Booted(boot, bootSecondary, overlap), events), key, t) <==>
      AcceptedByHistory(boot, bootSecondary, events, overlap, key, t)
  {
    RunTells(boot, bootSecondary, events, overlap, t);
    SomeLastEffective(boot, events);
    if !NeverRotated(boot, events) {
      var i: nat :| LastEffective(boot, events, i);
      LastIsUnique(boot, events, i);
    }
  }

  lemma LastIsUnique(boot: Key, events: seq<Event>, i: nat)
    requires LastEffective(boot, events, i)
    ensures forall j: nat :: LastEffective(boot, events, j) ==> j == i
    ensures !NeverRotated(boot, events)
  {
    forall j: nat | LastEffective(boot, events, j)
      ensures j == i
    {
      assert Effective(boot, events, i) && Effective(boot, events, j);
    }
  }

  // ---- Lookups do not matter -------------------------------------------------

  function RotationsOnly(events: seq<Event>): seq<Event> {
    if events == [] then []
    else
      var last := events[|events| - 1];
      RotationsOnly(events[..|events| - 1]) + if last.action.Rotate? then [last] else []
  }

  /** Equal up to a secondary that is dropped in one and out of time in the other. */
  ghost predicate SameAnswers(a: Slots, b: Slots, t: int) {
    && a.(secondary := None) == b.(secondary := None)
    && forall u :: u >= t ==> Secondary(a, u) == Secondary(b, u)
  }

  /** The lazy drop never changes a later answer. */
  lemma {:induction false} LookupsDoNotMatter(s: Slots, events: seq<Event>, t: int)
    requires InOrder(events, t)
    ensures SameAnswers(Run(s, events), Run(s, RotationsOnly(events)), t)
    ensures forall key :: Accepted(Run(s, events), key, t) <==> Accepted(Run(s, RotationsOnly(events)), key, t)
  {
    if events != [] {
      var n := |events| - 1;
      var fewer := RotationsOnly(events[..n]);
      LookupsDoNotMatter(s, events[..n], events[n].at);
      if events[n].action.Rotate? {
        assert (fewer + [events[n]])[..|fewer|] == fewer;
      } else {
        assert RotationsOnly(events) == fewer;
      }
    }
  }

  // ---- A token lives until its expiry ----------------------------------------

  /** No two effective rotations are less than the overlap apart. */
  ghost predicate Spaced(boot: Key, events: seq<Event>, overlap: int) {
    forall i: nat, j: nat :: Effective(boot, events, i) && Effective(boot, events, j) && i < j ==>
      events[j].at - events[i].at >= overlap
  }

  lemma {:induction false} PrimaryUnchanged(boot: Key, events: seq<Event>, n: nat)
    requires n <= |events| && forall j :: n <= j < |events| ==> !Effective(boot, events, j)
    ensures PrimaryAfter(boot, events) == PrimaryAfter(boot, events[..n])
  {
    var m := |events| - 1;
    if n <= m {
      assert !Effective(boot, events, m);
      assert PrimaryAfter(boot, events) == PrimaryAfter(boot, events[..m]);
      forall j | n <= j < m
        ensures !Effective(boot, events[..m], j)
      {
        EffectiveInPrefix(boot, events, m, j);
      }
      assert events[..m][..n] == events[..n];
      PrimaryUnchanged(boot, events[..m], n);
    } else {
      assert events[..n] == events;
    }
  }

  /**
   * The key that was primary at time `u`, after the first `n` events, is still accepted
   * less than the overlap later, if rotations keep their distance.
   */
  lemma SigningKeyStaysAccepted(
      boot: Key, bootSecondary: Option<Key>, events: seq<Event>, overlap: int, n: nat, u: int, t: int)
    requires InOrder(events, t) && Spaced(boot, events, overlap) && n <= |events|
    requires (forall i :: n <= i < |events| ==> u <= events[i].at) && u <= t < u + overlap
    ensures Accepted(Run(Booted(boot, bootSecondary, overlap), events), PrimaryAfter(boot, events[..n]), t)
  {
    var key := PrimaryAfter(boot, events[..n]);
    HistoryDecides(boot, bootSecondary, events, overlap, key, t);
    SomeLastEffective(boot, events);
    if forall j :: n <= j < |events| ==> !Effective(boot, events, j) {
      PrimaryUnchanged(boot, events, n);
    } else {
      var i: nat :| LastEffective(boot, events, i);
      assert n <= i;
      forall j | n <= j < i
        ensures !Effective(boot, events[..i], j)
      {
        EffectiveInPrefix(boot, events, i, j);
      }
      assert events[..i][..n] == events[..n];
      PrimaryUnchanged(boot, events[..i], n);
      assert DisplacedAt(boot, events, i, key);
    }
  }

  /** The distance is needed: two rotations within the overlap leave no trace of the first key. */
  lemma TwoQuickRotationsDropAKey(
      boot: Key, bootSecondary: Option<Key>, second: Key, third: Key, overlap: int, t: int)
    requires |second| >= MIN_HS256_KEY_BYTES && |third| >= MIN_HS256_KEY_BYTES
    requires boot != second && second != third && boot != third
    ensures !Accepted(
      Run(Booted(boot, bootSecondary, overlap), [Event(t, Rotate(Some(second))), Event(t, Rotate(Some(third)))]),
      boot, t)
  {
    var s := Booted(boot, bootSecondary, overlap);
    var events := [Event(t, Rotate(Some(second))), Event(t, Rotate(Some(third)))];
    assert events[..1] == [events[0]] && events[..1][..0] == [];
    assert Run(s, events[..1]) == Happen(s, events[0]);
  }

  // ---- Verification of a token -----------------------------------------------

  /** A token as its parts: who signed it, and the claims the checks look at. */
  datatype Token =
    | Malformed
    | Signed(key: Key, exp: Option<int>, nbf: Option<int>, iat: Option<int>, jti: Option<string>)

  datatype TokenError = BadSignature | Expired | NotYetValid | MissingClaim | Undecodable | Revoked

  /** One try with one key: the signature first, then required claims, then times. */
  function DecodeWith(token: Token, key: Key, now: int): Result<string, TokenError> {
    if token.Malformed? then Err(Undecodable)
    else if token.key != key then Err(BadSignature)
    else if token.exp.None? || token.nbf.None? || token.iat.None? || token.jti.None? then Err(MissingClaim)
    else if token.iat.value > now || token.nbf.value > now then Err(NotYetValid)
    else if token.exp.value <= now then Err(Expired)
    else Ok(token.jti.value)
  }

  function Verify(
      token: Token, primary: Key, secondary: Option<Key>, revoked: set<string>, now: int): Result<string, TokenError>
  {
    var first := DecodeWith(token, primary, now);
    var decoded :=
      if first == Err(BadSignature) && secondary.Some? then DecodeWith(token, secondary.value, now) else first;
    if decoded.Ok? && decoded.value in revoked then Err(Revoked) else decoded
  }

  predicate InTime(token: Token, now: int)
    requires token.Signed?
  {
    && token.exp.Some? && token.nbf.Some? && token.iat.Some? && token.jti.Some?
    && token.iat.value <= now && token.nbf.value <= now < token.exp.value
  }

  /** Exactly the tokens signed by an accepted key, in time and not revoked, verify. */
  lemma VerifiesIff(token: Token, s: Slots, revoked: set<string>, now: int)
    ensures Verify(token, s.primary, Secondary(s, now), revoked, now).Ok? <==>
      token.Signed? && Accepted(s, token.key, now) && InTime(token, now) && token.jti.value !in revoked
    ensures Verify(token, s.primary, Secondary(s, now), revoked, now) == Err(BadSignature) <==>
      token.Signed? && !Accepted(s, token.key, now)
  {
  }

  predicate HasAllClaims(token: Token)
    requires token.Signed?
  {
    token.exp.Some? && token.nbf.Some? && token.iat.Some? && token.jti.Some?
  }

  /** What a token is refused for: the signature first, then missing claims, too early, too late, revoked. */
  lemma RefusedFor(token: Token, s: Slots, revoked: set<string>, now: int)
    ensures
      var answer := Verify(token, s.primary, Secondary(s, now), revoked, now);
      && (answer == Err(Undecodable) <==> token.Malformed?)
      && (token.Signed? ==>
            && (answer == Err(BadSignature) <==> !Accepted(s, token.key, now))
            && (Accepted(s, token.key, now) ==>
                  && (answer == Err(MissingClaim) <==> !HasAllClaims(token))
                  && (HasAllClaims(token) ==>
                        && (answer == Err(NotYetValid) <==> now < token.iat.value || now < token.nbf.value)
                        && (token.iat.value <= now && token.nbf.value <= now ==>
                              && (answer == Err(Expired) <==> token.exp.value <= now)
                              && (now < token.exp.value ==>
                                    answer == if token.jti.value in revoked then Err(Revoked)
                                              else Ok(token.jti.value))))))
  {
  }

  /** A token signed with the key that is primary at that time verifies until it expires. */
  lemma TokenVerifiesUntilExpiry(
      boot: Key, bootSecondary: Option<Key>, events: seq<Event>, overlap: int, n: nat, u: int, ttl: int,
      token: Token, revoked: set<string>, t: int)
    requires InOrder(events, t) && Spaced(boot, events, overlap) && ttl <= overlap && n <= |events|
    requires forall i :: n <= i < |events| ==> u <= events[i].at
    requires token.Signed? && token.key == PrimaryAfter(boot, events[..n])
    requires token.iat == token.nbf && token.iat.Some? && token.iat.value <= u && token.jti.Some?
    requires token.exp == Some(token.iat.value + ttl) && token.jti.value !in revoked
    requires u <= t < token.exp.value
    ensures
      var s := Run(Booted(boot, bootSecondary, overlap), events);
      Verify(token, s.primary, Secondary(s, t), revoked, t) == Ok(token.jti.value)
  {
    SigningKeyStaysAccepted(boot, bootSecondary, events, overlap, n, u, t);
    VerifiesIff(token, Run(Booted(boot, bootSecondary, overlap), events), revoked, t);
  }

  // ---- The signers keep using the boot key -----------------------------------

  /** How long tokens signed with the boot key are accepted once a rotation was effective. */
  lemma BootKeyAcceptedIff(
      boot: Key, bootSecondary: Option<Key>, events: seq<Event>, overlap: int, i: nat, t: int)
    requires InOrder(events, t) && LastEffective(boot, events, i)
    ensures Accepted(Run(Booted(boot, bootSecondary, overlap), events), boot, t) <==>
      || NewKey(events[i].action.material).value == boot
      || (PrimaryAfter(boot, events[..i]) == boot && t - events[i].at < overlap)
  {
    HistoryDecides(boot, bootSecondary, events, overlap, boot, t);
    LastIsUnique(boot, events, i);
    PrimaryUnchanged(boot, events, i + 1);
    assert events[..i + 1][..i] == events[..i];
    assert PrimaryAfter(boot, events[..i + 1]) == NewKey(events[i].action.material).value;
  }

  /** Signing with the boot key, every fresh token is refused once one rotation is an overlap old. */
  lemma FreshTokensAreRefused(
      boot: Key, bootSecondary: Option<Key>, events: seq<Event>, overlap: int, i: nat, t: int,
      token: Token, revoked: set<string>)
    requires InOrder(events, t) && LastEffective(boot, events, i)
    requires NewKey(events[i].action.material).value != boot && t - events[i].at >= overlap
    requires token.Signed? && token.key == boot
    ensures
      var s := Run(Booted(boot, bootSecondary, overlap), events);
      Verify(token, s.primary, Secondary(s, t), revoked, t) == Err(BadSignature)
  {
    BootKeyAcceptedIff(boot, bootSecondary, events, overlap, i, t);
    VerifiesIff(token, Run(Booted(boot, bootSecondary, overlap), events), revoked, t);
  }
}
