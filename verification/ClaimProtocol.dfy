/** Picks, downloads and claim sweeps, interleaved at their awaits. */
module ClaimProtocol {
  import opened Wrappers
  import opened ClaimStorage

  const MICROS := 1_000_000

  /** `ttl` in seconds; the digest may map different paths to one lock. */
  datatype Config = Config(digest: string -> Digest, ttl: int)

  /** A signed credential: `iat` in whole seconds, `pick` if it comes with a claim. */
  datatype Mint = Mint(path: string, names: set<string>, iat: int, pick: bool)

  /** What a suspended request or sweep does next. */
  datatype Task =
    | Picking(jti: string)
    | Streaming(jti: string, name: string, manifest: set<string>)
    | Accounting(jti: string, name: string, manifest: set<string>)
    | Marking(jti: string, name: string, manifest: set<string>)
    | Completing(jti: string)
    | Dropping(jti: string)
    | Listed(claims: seq<ClaimRecord>)
    | Sweeping(at: int, claims: seq<ClaimRecord>)
    | SweepDeleting(at: int, claims: seq<ClaimRecord>)
    | SweepDropping(at: int, claims: seq<ClaimRecord>)

  /** The clock is in microseconds. The last three parts are history. */
  datatype State = State(
    now: int, bundles: map<string, set<string>>, claims: ClaimFiles, tasks: map<nat, Task>,
    minted: map<string, Mint>, returned: set<string>, everClaimed: set<string>, streamed: set<(string, string)>)

  datatype Action =
    | Tick(micros: nat)
    | CommitBundle(path: string, names: set<string>)
    | RemoveBundle(path: string)                       // any other deletion: by a user, by age, by an inline pick
    | PickRead(id: nat, jti: string, path: string)
    | PickIssue(id: nat, left: ClaimFiles, ok: bool)   // `left` is what the issue leaves behind
    | MintWithoutClaim(jti: string, path: string)
    | StartDownload(id: nat, jti: string, name: string)
    | StreamDone(id: nat)
    | StartSweep(id: nat, found: seq<ClaimRecord>)
    | Continue(id: nat)
    | SkipClaim(id: nat)                               // the manifest cannot be read: on to the next claim
    | DeleteFails(id: nat)                             // the sweep drops the claim all the same
    | Abandon(id: nat)                                 // an error, a disconnect or a crash

  function Expiry(c: Config, m: Mint): int {
    (m.iat + c.ttl) * MICROS
  }

  /** The credential verifies at this time, as far as time goes. */
  predicate Live(c: Config, s: State, jti: string) {
    jti in s.minted && s.now < Expiry(c, s.minted[jti])
  }

  function NewRecord(s: State, jti: string): ClaimRecord
    requires jti in s.minted
  {
    ClaimRecord(jti, s.minted[jti].path, "", "", Some(s.now), [])
  }

  predicate Covers(names: set<string>, fetched: seq<string>) {
    forall name <- names :: name in fetched
  }

  predicate Expired(c: Config, claim: ClaimRecord, at: int) {
    claim.createdAt.None? || at - claim.createdAt.value >= c.ttl * MICROS
  }

  predicate Enabled(c: Config, s: State, a: Action) {
    match a
    case Tick(_) => true
    case CommitBundle(path, names) => path !in s.bundles && path !in s.everClaimed
    case RemoveBundle(path) => path in s.bundles
    case PickRead(id, jti, path) => id !in s.tasks && jti !in s.minted && path in s.bundles && INBOX_PREFIX <= path
    case PickIssue(id, left, ok) =>
      && id in s.tasks && s.tasks[id].Picking? && s.tasks[id].jti in s.minted
      && var claim := NewRecord(s, s.tasks[id].jti);
         && IssueLeaves(s.claims, c.digest(claim.bundlePath), claim, left)
         && (ok ==> CanIssue(s.claims, c.digest(claim.bundlePath), claim.jti)
                    && left == WithClaim(s.claims, c.digest(claim.bundlePath), claim))
    case MintWithoutClaim(jti, path) => jti !in s.minted && path in s.bundles
    case StartDownload(id, jti, name) =>
      && id !in s.tasks && jti in s.returned && Live(c, s, jti) && name in s.minted[jti].names
      && s.minted[jti].path in s.bundles && name in s.bundles[s.minted[jti].path]
    case StreamDone(id) => id in s.tasks && s.tasks[id].Streaming? && s.tasks[id].jti in s.minted
    case StartSweep(id, found) =>
      id !in s.tasks && forall i :: 0 <= i < |found| ==>
        IsClaim(s.claims, found[i].jti) && s.claims.sidecars[found[i].jti].record == found[i]
    case Continue(id) => id in s.tasks && !s.tasks[id].Picking? && !s.tasks[id].Streaming?
    case SkipClaim(id) => id in s.tasks && s.tasks[id].Sweeping? && s.tasks[id].claims != []
    case DeleteFails(id) => id in s.tasks && s.tasks[id].SweepDeleting?
    case Abandon(id) => id in s.tasks
  }

  function WithTask(s: State, id: nat, t: Task): State {
    s.(tasks := s.tasks[id := t])
  }

  function Ended(s: State, id: nat): State {
    s.(tasks := s.tasks - {id})
  }

  /** What the sweep does about the first of its claims. */
  function Consider(c: Config, s: State, at: int, claims: seq<ClaimRecord>): Task
    requires claims != []
  {
    var claim := claims[0];
    if claim.createdAt.None? then SweepDropping(at, claims)
    else if !Expired(c, claim, at) then Sweeping(at, claims[1..])
    else if claim.bundlePath !in s.bundles then SweepDropping(at, claims)
    else
      var names := s.bundles[claim.bundlePath];
      if names != {} && Covers(names, claim.filesFetched) && INBOX_PREFIX <= claim.bundlePath
      then SweepDeleting(at, claims) else SweepDropping(at, claims)
  }

  function Proceed(c: Config, s: State, id: nat): State
    requires id in s.tasks
  {
    match s.tasks[id]
    case Accounting(jti, name, manifest) =>
      if IsClaim(s.claims, jti) then WithTask(s, id, Marking(jti, name, manifest)) else Ended(s, id)
    case Marking(jti, name, manifest) =>
      if !IsClaim(s.claims, jti) then Ended(s, id)
      else
        var claims := WithFetched(s.claims, jti, name);
        var r := s.(claims := claims);
        if IsClaim(claims, jti) && Covers(manifest, claims.sidecars[jti].record.filesFetched)
        then WithTask(r, id, Completing(jti)) else Ended(r, id)
    case Completing(jti) =>
      if jti !in s.minted then Ended(s, id)
      else WithTask(s.(bundles := s.bundles - {s.minted[jti].path}), id, Dropping(jti))
    case Dropping(jti) => Ended(s.(claims := WithoutClaim(s.claims, c.digest, jti)), id)
    case Listed(claims) => WithTask(s, id, Sweeping(s.now, claims))
    case Sweeping(at, claims) =>
      if claims == [] then Ended(s, id) else WithTask(s, id, Consider(c, s, at, claims))
    case SweepDeleting(at, claims) =>
      if claims == [] then Ended(s, id)
      else WithTask(s.(bundles := s.bundles - {claims[0].bundlePath}), id, SweepDropping(at, claims))
    case SweepDropping(at, claims) =>
      if claims == [] then Ended(s, id)
      else WithTask(
        s.(claims := WithoutClaim(s.claims, c.digest, claims[0].jti)), id, Sweeping(at, claims[1..]))
    case _ => s
  }

  function Next(c: Config, s: State, a: Action): State
    requires Enabled(c, s, a)
  {
    match a
    case Tick(micros) => s.(now := s.now + micros)
    case CommitBundle(path, names) => s.(bundles := s.bundles[path := names])
    case RemoveBundle(path) => s.(bundles := s.bundles - {path})
    case PickRead(id, jti, path) =>
      WithTask(s.(minted := s.minted[jti := Mint(path, s.bundles[path], s.now / MICROS, true)]), id, Picking(jti))
    case PickIssue(id, left, ok) =>
      Ended(s.(claims := left,
               everClaimed :=
                 if IsClaim(left, s.tasks[id].jti) then s.everClaimed + {s.minted[s.tasks[id].jti].path}
                 else s.everClaimed,
               returned := if ok then s.returned + {s.tasks[id].jti} else s.returned), id)
    case MintWithoutClaim(jti, path) =>
      s.(minted := s.minted[jti := Mint(path, s.bundles[path], s.now / MICROS, false)], returned := s.returned + {jti})
    case StartDownload(id, jti, name) =>
      WithTask(s, id, Streaming(jti, name, s.bundles[s.minted[jti].path]))
    case StreamDone(id) =>
      var t := s.tasks[id];
      var r := s.(streamed := s.streamed + {(t.jti, t.name)});
      if INBOX_PREFIX <= s.minted[t.jti].path then WithTask(r, id, Accounting(t.jti, t.name, t.manifest))
      else Ended(r, id)
    case StartSweep(id, found) => WithTask(s, id, Listed(found))
    case Continue(id) => Proceed(c, s, id)
    case SkipClaim(id) => WithTask(s, id, Sweeping(s.tasks[id].at, s.tasks[id].claims[1..]))
    case DeleteFails(id) => WithTask(s, id, SweepDropping(s.tasks[id].at, s.tasks[id].claims))
    case Abandon(id) => Ended(s, id)
  }

  predicate IsStart(s: State) {
    && s.claims == ClaimFiles(map[], map[], {}) && s.tasks == map[] && s.minted == map[]
    && s.returned == {} && s.everClaimed == {} && s.streamed == {}
  }

  ghost predicate IsProtocolRun(c: Config, states: seq<State>, actions: seq<Action>) {
    && |states| == |actions| + 1 && IsStart(states[0])
    && forall i :: 0 <= i < |actions| ==> StepAt(c, states[i], actions[i], states[i + 1])
  }

  ghost predicate StepAt(c: Config, s: State, a: Action, r: State) {
    Enabled(c, s, a) && r == Next(c, s, a)
  }

  // ---- The invariant ---------------------------------------------------------

  predicate IsPick(s: State, jti: string) {
    jti in s.minted && s.minted[jti].pick
  }

  /** Every name was streamed in full with the credential `jti`. */
  predicate AllStreamed(s: State, jti: string, names: set<string>) {
    forall name <- names :: (jti, name) in s.streamed
  }

  predicate GoodRecord(s: State, claim: ClaimRecord) {
    && IsPick(s, claim.jti) && claim.bundlePath == s.minted[claim.jti].path
    && claim.bundlePath in s.everClaimed
    && claim.createdAt.Some? && s.minted[claim.jti].iat * MICROS <= claim.createdAt.value
    && (forall name <- claim.filesFetched :: (claim.jti, name) in s.streamed)
  }

  /** A pick's path is claimed, and the manifest seen is that of the bundle while it is there. */
  predicate Seen(s: State, jti: string, manifest: set<string>) {
    && jti in s.minted
    && (s.minted[jti].pick ==>
          && s.minted[jti].path in s.everClaimed
          && (s.minted[jti].path in s.bundles ==> s.bundles[s.minted[jti].path] == manifest))
  }

  predicate GoodClaims(s: State, at: int, claims: seq<ClaimRecord>) {
    at <= s.now && forall i :: 0 <= i < |claims| ==> GoodRecord(s, claims[i])
  }

  predicate GoodTask(c: Config, s: State, t: Task) {
    match t
    case Picking(jti) => IsPick(s, jti) && s.minted[jti].iat * MICROS <= s.now
    case Streaming(jti, name, manifest) => Seen(s, jti, manifest)
    case Accounting(jti, name, manifest) => Seen(s, jti, manifest) && (jti, name) in s.streamed
    case Marking(jti, name, manifest) => Seen(s, jti, manifest) && (jti, name) in s.streamed
    case Completing(jti) =>
      && IsPick(s, jti) && s.minted[jti].path in s.everClaimed
      && (s.minted[jti].path in s.bundles ==> AllStreamed(s, jti, s.bundles[s.minted[jti].path]))
    case Dropping(jti) => IsPick(s, jti) && s.minted[jti].path in s.everClaimed && s.minted[jti].path !in s.bundles
    case Listed(claims) => GoodClaims(s, s.now, claims)
    case Sweeping(at, claims) => GoodClaims(s, at, claims)
    case SweepDropping(at, claims) => GoodClaims(s, at, claims) && claims != [] && Expired(c, claims[0], at)
    case SweepDeleting(at, claims) =>
      && GoodClaims(s, at, claims) && claims != [] && Expired(c, claims[0], at)
      && (claims[0].bundlePath in s.bundles ==> AllStreamed(s, claims[0].jti, s.bundles[claims[0].bundlePath]))
  }

  ghost predicate Inv(c: Config, s: State) {
    && ClaimStorage.Inv(s.claims, c.digest)
    && (forall jti :: IsClaim(s.claims, jti) ==> GoodRecord(s, s.claims.sidecars[jti].record))
    && (forall id :: id in s.tasks ==> GoodTask(c, s, s.tasks[id]))
    && (forall jti :: jti in s.returned ==>
          jti in s.minted && (s.minted[jti].pick ==> s.minted[jti].path in s.everClaimed))
  }

  /** What no step takes back; a claimed path is never written again. */
  ghost predicate Later(s: State, r: State) {
    && s.now <= r.now
    && (forall jti :: jti in s.minted ==> jti in r.minted && r.minted[jti] == s.minted[jti])
    && s.everClaimed <= r.everClaimed && s.streamed <= r.streamed
    && (forall p :: p in s.everClaimed && p in r.bundles ==> p in s.bundles && r.bundles[p] == s.bundles[p])
  }

  lemma StepsGoForward(c: Config, s: State, a: Action)
    requires Enabled(c, s, a)
    ensures Later(s, Next(c, s, a))
  {
  }

  lemma RecordStaysGood(s: State, r: State, claim: ClaimRecord)
    requires Later(s, r) && GoodRecord(s, claim)
    ensures GoodRecord(r, claim)
  {
  }

  lemma TaskStaysGood(c: Config, s: State, r: State, t: Task)
    requires Later(s, r) && GoodTask(c, s, t)
    ensures GoodTask(c, r, t)
  {
    if t.Listed? || t.Sweeping? || t.SweepDropping? || t.SweepDeleting? {
      forall i | 0 <= i < |t.claims|
        ensures GoodRecord(r, t.claims[i])
      {
        RecordStaysGood(s, r, t.claims[i]);
      }
    }
  }

  /** The one task that a step creates or moves on. */
  function Touched(a: Action): Option<nat> {
    match a
    case Tick(_) => None
    case CommitBundle(_, _) => None
    case RemoveBundle(_) => None
    case MintWithoutClaim(_, _) => None
    case _ => Some(a.id)
  }

  lemma OtherTasksStay(c: Config, s: State, a: Action, id: nat)
    requires Enabled(c, s, a) && id in Next(c, s, a).tasks && Touched(a) != Some(id)
    ensures id in s.tasks && Next(c, s, a).tasks[id] == s.tasks[id]
  {
  }

  lemma ProceedForward(c: Config, s: State, id: nat)
    requires id in s.tasks
    ensures Later(s, Proceed(c, s, id))
  {
  }

  lemma RestIsGood(s: State, at: int, claims: seq<ClaimRecord>)
    requires GoodClaims(s, at, claims) && claims != []
    ensures GoodClaims(s, at, claims[1..]) && GoodRecord(s, claims[0])
  {
    forall i | 0 <= i < |claims[1..]|
      ensures GoodRecord(s, claims[1..][i])
    {
      assert claims[1..][i] == claims[i + 1];
    }
  }

  lemma ConsideredIsGood(c: Config, s: State, at: int, claims: seq<ClaimRecord>)
    requires GoodClaims(s, at, claims) && claims != []
    ensures GoodTask(c, s, Consider(c, s, at, claims))
  {
    RestIsGood(s, at, claims);
  }

  lemma MarkedTaskIsGood(c: Config, s: State, id: nat)
    requires Inv(c, s) && id in s.tasks && s.tasks[id].Marking? && id in Proceed(c, s, id).tasks
    ensures GoodTask(c, Proceed(c, s, id), Proceed(c, s, id).tasks[id])
  {
    var jti := s.tasks[id].jti;
    assert GoodTask(c, s, s.tasks[id]);
    if IsClaim(s.claims, jti) {
      assert Owns(s.claims, c.digest, jti) && GoodRecord(s, s.claims.sidecars[jti].record);
      MarkedIsGood(s, jti, s.tasks[id].name);
    }
  }

  lemma ProceedKeepsTaskGood(c: Config, s: State, id: nat)
    requires Inv(c, s) && id in s.tasks && id in Proceed(c, s, id).tasks
    ensures GoodTask(c, Proceed(c, s, id), Proceed(c, s, id).tasks[id])
  {
    var t, r := s.tasks[id], Proceed(c, s, id);
    assert GoodTask(c, s, t);
    ProceedForward(c, s, id);
    if t.Marking? {
      MarkedTaskIsGood(c, s, id);
    } else if !t.Completing? {
      if t.Sweeping? && t.claims != [] { ConsideredIsGood(c, s, t.at, t.claims); }
      if t.SweepDropping? { RestIsGood(s, t.at, t.claims); }
      TaskStaysGood(c, s, r, r.tasks[id]);
    }
  }

  /** Marking a streamed name keeps the record good. */
  lemma MarkedIsGood(s: State, jti: string, name: string)
    requires IsClaim(s.claims, jti) && GoodRecord(s, s.claims.sidecars[jti].record) && (jti, name) in s.streamed
    requires s.claims.sidecars[jti].record.jti == jti
    ensures IsClaim(WithFetched(s.claims, jti, name), jti)
    ensures GoodRecord(s, WithFetched(s.claims, jti, name).sidecars[jti].record)
  {
  }

  lemma TouchedTaskIsGood(c: Config, s: State, a: Action, id: nat)
    requires Inv(c, s) && Enabled(c, s, a) && Touched(a) == Some(id) && id in Next(c, s, a).tasks
    ensures GoodTask(c, Next(c, s, a), Next(c, s, a).tasks[id])
  {
    var r := Next(c, s, a);
    StepsGoForward(c, s, a);
    if id in s.tasks { TaskStaysGood(c, s, r, s.tasks[id]); }
    match a
    case Continue(_) => ProceedKeepsTaskGood(c, s, id);
    case StartDownload(_, jti, name) => assert jti in s.returned;
    case StartSweep(_, found) =>
      forall i | 0 <= i < |found|
        ensures GoodRecord(s, found[i])
      {
        assert IsClaim(s.claims, found[i].jti);
      }
    case _ =>
  }

  /** Where a claim comes from: it was there, or was issued, or got one more name. */
  lemma ClaimOrigin(c: Config, s: State, a: Action, jti: string)
    requires Enabled(c, s, a) && IsClaim(Next(c, s, a).claims, jti)
    ensures
      var claims := Next(c, s, a).claims;
      || (IsClaim(s.claims, jti) && claims.sidecars[jti] == s.claims.sidecars[jti])
      || (a.PickIssue? && s.tasks[a.id] == Picking(jti) && claims.sidecars[jti].record == NewRecord(s, jti))
      || (a.Continue? && s.tasks[a.id].Marking? && s.tasks[a.id].jti == jti && IsClaim(s.claims, jti)
          && claims == WithFetched(s.claims, jti, s.tasks[a.id].name))
  {
    if a.Continue? {
      match s.tasks[a.id]
      case Marking(_, _, _) =>
      case _ =>
    }
  }

  lemma ClaimsStayGood(c: Config, s: State, a: Action, jti: string)
    requires Inv(c, s) && Enabled(c, s, a) && IsClaim(Next(c, s, a).claims, jti)
    ensures GoodRecord(Next(c, s, a), Next(c, s, a).claims.sidecars[jti].record)
  {
    var r := Next(c, s, a);
    StepsGoForward(c, s, a);
    ClaimOrigin(c, s, a, jti);
    if IsClaim(s.claims, jti) && r.claims.sidecars[jti] == s.claims.sidecars[jti] {
      RecordStaysGood(s, r, s.claims.sidecars[jti].record);
    } else if a.PickIssue? {
      assert GoodTask(c, s, s.tasks[a.id]);
    } else {
      assert GoodTask(c, s, s.tasks[a.id]) && Owns(s.claims, c.digest, jti);
      MarkedIsGood(s, jti, s.tasks[a.id].name);
      RecordStaysGood(s, r, r.claims.sidecars[jti].record);
    }
  }

  lemma LocksStayOwned(c: Config, s: State, a: Action)
    requires Inv(c, s) && Enabled(c, s, a)
    ensures ClaimStorage.Inv(Next(c, s, a).claims, c.digest)
  {
    var r := Next(c, s, a);
    match a
    case PickIssue(id, left, ok) => IssueKeepsInv(s.claims, c.digest, NewRecord(s, s.tasks[id].jti), left);
    case Continue(id) =>
      match s.tasks[id] {
        case Marking(jti, name, _) => MoveKeepsInv(s.claims, c.digest, MarkStep(jti, name), r.claims);
        case Dropping(jti) => DeleteKeepsInv(s.claims, c.digest, jti);
        case SweepDropping(_, claims) =>
          if claims != [] { DeleteKeepsInv(s.claims, c.digest, claims[0].jti); }
        case _ =>
      }
    case _ =>
  }

  lemma StepKeepsInv(c: Config, s: State, a: Action)
    requires Inv(c, s) && Enabled(c, s, a)
    ensures Inv(c, Next(c, s, a))
  {
    var r := Next(c, s, a);
    LocksStayOwned(c, s, a);
    StepsGoForward(c, s, a);
    forall jti | IsClaim(r.claims, jti)
      ensures GoodRecord(r, r.claims.sidecars[jti].record)
    {
      ClaimsStayGood(c, s, a, jti);
    }
    forall id | id in r.tasks
      ensures GoodTask(c, r, r.tasks[id])
    {
      if Touched(a) == Some(id) {
        TouchedTaskIsGood(c, s, a, id);
      } else {
        OtherTasksStay(c, s, a, id);
        TaskStaysGood(c, s, r, s.tasks[id]);
      }
    }
    forall jti | jti in r.returned
      ensures jti in r.minted && (r.minted[jti].pick ==> r.minted[jti].path in r.everClaimed)
    {
      if jti in s.returned { assert jti in s.minted; }
    }
  }

  lemma {:induction false} RunKeepsInv(c: Config, states: seq<State>, actions: seq<Action>, n: nat)
    requires IsProtocolRun(c, states, actions) && n <= |actions|
    ensures Inv(c, states[n])
  {
    if n > 0 {
      RunKeepsInv(c, states, actions, n - 1);
      assert StepAt(c, states[n - 1], actions[n - 1], states[n]);
      StepKeepsInv(c, states[n - 1], actions[n - 1]);
    }
  }

  // ---- No bundle is lost -----------------------------------------------------

  /**
   * In every run, a bundle disappears only by a deletion from outside the protocol, or after
   * every name of its manifest was streamed in full under one and the same claim on its path.
   */
  lemma NoBundleIsLost(c: Config, states: seq<State>, actions: seq<Action>, n: nat, path: string)
    requires IsProtocolRun(c, states, actions) && n < |actions|
    requires path in states[n].bundles && path !in states[n + 1].bundles
    ensures actions[n] == RemoveBundle(path) ||
      exists jti :: IsPick(states[n], jti) && states[n].minted[jti].path == path
        && AllStreamed(states[n], jti, states[n].bundles[path])
  {
    var s, a := states[n], actions[n];
    RunKeepsInv(c, states, actions, n);
    assert StepAt(c, s, a, states[n + 1]);
    if a.Continue? {
      var t := s.tasks[a.id];
      assert GoodTask(c, s, t);
      if t.Completing? {
        assert IsPick(s, t.jti);
      } else if t.SweepDeleting? {
        assert GoodRecord(s, t.claims[0]) && IsPick(s, t.claims[0].jti);
      }
    }
  }

  /** A claim's progress changes only by accounting for a stream under its own credential. */
  lemma ProgressIsTheClaimsOwn(c: Config, states: seq<State>, actions: seq<Action>, n: nat, jti: string)
    requires IsProtocolRun(c, states, actions) && n < |actions|
    requires IsClaim(states[n].claims, jti) && IsClaim(states[n + 1].claims, jti)
    requires states[n].claims.sidecars[jti] != states[n + 1].claims.sidecars[jti]
    ensures actions[n].Continue? && states[n].tasks[actions[n].id].Marking?
    ensures
      var t := states[n].tasks[actions[n].id];
      && t.jti == jti && (jti, t.name) in states[n].streamed
      && states[n + 1].claims.sidecars[jti].record.filesFetched ==
           states[n].claims.sidecars[jti].record.filesFetched + [t.name]
  {
    var s, a := states[n], actions[n];
    RunKeepsInv(c, states, actions, n);
    assert StepAt(c, s, a, states[n + 1]);
    assert Owns(s.claims, c.digest, jti);
    if a.Continue? && s.tasks[a.id].Marking? { assert GoodTask(c, s, s.tasks[a.id]); }
  }

  // ---- What is streamed, and what else the steps do --------------------------

  /** A download that began under a live credential that had been handed out, for a name that it names. */
  ghost predicate Began(c: Config, s: State, a: Action, jti: string, name: string) {
    && a.StartDownload? && a.jti == jti && a.name == name && jti in s.returned && jti in s.minted
    && s.now < (s.minted[jti].iat + c.ttl) * 1_000_000
    && name in s.minted[jti].names && s.minted[jti].path in s.bundles && name in s.bundles[s.minted[jti].path]
  }

  ghost predicate BeganBefore(
      c: Config, states: seq<State>, actions: seq<Action>, n: nat, jti: string, name: string)
    requires n <= |actions| && |states| == |actions| + 1
  {
    exists i: nat :: i < n && Began(c, states[i], actions[i], jti, name)
  }

  /** So everything that is streamed was asked for in time, by the holder of a credential for it. */
  lemma {:induction false} StreamsBeganLive(
      c: Config, states: seq<State>, actions: seq<Action>, n: nat, jti: string, name: string)
    requires IsProtocolRun(c, states, actions) && n <= |actions|
    requires
      || (jti, name) in states[n].streamed
      || exists id :: id in states[n].tasks && states[n].tasks[id].Streaming?
           && states[n].tasks[id].jti == jti && states[n].tasks[id].name == name
    ensures BeganBefore(c, states, actions, n, jti, name)
  {
    var s, a := states[n - 1], actions[n - 1];
    assert StepAt(c, s, a, states[n]);
    if Began(c, s, a, jti, name) {
    } else {
      if (jti, name) in states[n].streamed && (jti, name) !in s.streamed {
        assert a.StreamDone? && s.tasks[a.id].Streaming?;
      } else if (jti, name) !in s.streamed {
        var id :| id in states[n].tasks && states[n].tasks[id].Streaming?
          && states[n].tasks[id].jti == jti && states[n].tasks[id].name == name;
        if Touched(a) == Some(id) { assert a.StartDownload?; } else { OtherTasksStay(c, s, a, id); }
      }
      StreamsBeganLive(c, states, actions, n - 1, jti, name);
    }
  }

  /** An answered pick is a claim made now, with nothing fetched, under a lock of its own. */
  lemma AnsweredPickIsAClaim(c: Config, s: State, a: Action)
    requires Inv(c, s) && Enabled(c, s, a) && a.PickIssue? && a.ok
    ensures
      var jti, r := s.tasks[a.id].jti, Next(c, s, a);
      var path := s.minted[jti].path;
      && c.digest(path) !in s.claims.locks && jti !in s.claims.sidecars
      && r.claims.locks == s.claims.locks[c.digest(path) := Some(jti)]
      && r.claims.sidecars == s.claims.sidecars[jti := Parsed(ClaimRecord(jti, path, "", "", Some(s.now), []))]
      && r.returned == s.returned + {jti} && r.bundles == s.bundles
  {
  }

  /** A pick reads an inbox bundle's names and the whole second; another credential is out at once. */
  lemma MintsSayWhatIsThere(c: Config, s: State, a: Action)
    requires Enabled(c, s, a)
    ensures a.PickRead? ==>
      && "inbox/" <= a.path && Next(c, s, a).returned == s.returned && Next(c, s, a).claims == s.claims
      && Next(c, s, a).minted == s.minted[a.jti := Mint(a.path, s.bundles[a.path], s.now / 1_000_000, true)]
    ensures a.MintWithoutClaim? ==>
      && Next(c, s, a).returned == s.returned + {a.jti} && Next(c, s, a).claims == s.claims
      && Next(c, s, a).minted == s.minted[a.jti := Mint(a.path, s.bundles[a.path], s.now / 1_000_000, false)]
  {
  }

  /** Bundles come by commits, and go by deletions and by the steps that the sweep and the accounting take. */
  lemma BundlesChangeBy(c: Config, s: State, a: Action)
    requires Enabled(c, s, a)
    ensures
      var r := Next(c, s, a);
      match a
      case CommitBundle(path, names) => path !in s.bundles && r.bundles == s.bundles[path := names]
      case RemoveBundle(path) => path in s.bundles && r.bundles == s.bundles - {path}
      case Continue(id) => r.bundles.Keys <= s.bundles.Keys
      case _ => r.bundles == s.bundles
  {
  }

  // ---- Releasing a claim means its credential is dead -------------------------

  /** A claim is dropped only when its bundle is gone for good, or its credential has expired. */
  lemma ReleaseMeansDeadCredential(c: Config, states: seq<State>, actions: seq<Action>, n: nat, jti: string)
    requires IsProtocolRun(c, states, actions) && n < |actions|
    requires IsClaim(states[n].claims, jti) && !IsClaim(states[n + 1].claims, jti)
    ensures
      || (states[n].claims.sidecars[jti].record.bundlePath !in states[n + 1].bundles
          && states[n].tasks[actions[n].id] == Dropping(jti))
      || !Live(c, states[n + 1], jti)
  {
    var s, a := states[n], actions[n];
    RunKeepsInv(c, states, actions, n);
    assert StepAt(c, s, a, states[n + 1]);
    assert Owns(s.claims, c.digest, jti) && GoodRecord(s, s.claims.sidecars[jti].record);
    if a.Continue? {
      var t := s.tasks[a.id];
      assert GoodTask(c, s, t);
      if t.SweepDropping? {
        assert GoodRecord(s, t.claims[0]);
        ExpiredClaimIsDead(c, s, t.claims[0], t.at);
      }
    }
  }

  /** The credential's expiry counts from a whole second before the claim was created. */
  lemma ExpiredClaimIsDead(c: Config, s: State, claim: ClaimRecord, at: int)
    requires GoodRecord(s, claim) && Expired(c, claim, at) && at <= s.now
    ensures !Live(c, s, claim.jti)
  {
    assert (s.minted[claim.jti].iat + c.ttl) * MICROS == s.minted[claim.jti].iat * MICROS + c.ttl * MICROS;
  }

  // ---- At most one live credential per path ------------------------------------

  /** A live pick credential has its claim, or its bundle is gone. */
  ghost predicate LiveIsClaimed(c: Config, s: State) {
    forall jti :: jti in s.returned && IsPick(s, jti) && Live(c, s, jti) ==>
      IsClaim(s.claims, jti) || s.minted[jti].path !in s.bundles
  }

  lemma StepKeepsLiveIsClaimed(c: Config, s: State, a: Action)
    requires Inv(c, s) && LiveIsClaimed(c, s) && Enabled(c, s, a)
    ensures LiveIsClaimed(c, Next(c, s, a))
  {
    var r := Next(c, s, a);
    StepsGoForward(c, s, a);
    forall jti | jti in r.returned && IsPick(r, jti) && Live(c, r, jti)
      ensures IsClaim(r.claims, jti) || r.minted[jti].path !in r.bundles
    {
      if jti in s.returned {
        assert jti in s.minted && r.minted[jti] == s.minted[jti];
        if IsClaim(s.claims, jti) && !IsClaim(r.claims, jti) { DropIsDead(c, s, a, jti); }
      }
    }
  }

  lemma DropIsDead(c: Config, s: State, a: Action, jti: string)
    requires Inv(c, s) && Enabled(c, s, a) && IsClaim(s.claims, jti) && !IsClaim(Next(c, s, a).claims, jti)
    ensures s.minted[jti].path !in Next(c, s, a).bundles || !Live(c, s, jti)
  {
    assert Owns(s.claims, c.digest, jti) && GoodRecord(s, s.claims.sidecars[jti].record);
    if a.Continue? {
      var t := s.tasks[a.id];
      assert GoodTask(c, s, t);
      if t.SweepDropping? {
        assert GoodRecord(s, t.claims[0]);
        ExpiredClaimIsDead(c, s, t.claims[0], t.at);
      }
    }
  }

  ghost predicate OneLivePerPath(c: Config, s: State) {
    forall a, b ::
      (a in s.returned && b in s.returned && IsPick(s, a) && IsPick(s, b) && s.minted[a].path == s.minted[b].path
       && Live(c, s, a) && Live(c, s, b)) ==>
        a == b
  }

  /** No claim is issued for a bundle that went away since its manifest was read. */
  predicate IssuesWhilePresent(s: State, a: Action) {
    a.PickIssue? && a.id in s.tasks && s.tasks[a.id].Picking? && s.tasks[a.id].jti in s.minted ==>
      s.minted[s.tasks[a.id].jti].path in s.bundles
  }

  lemma StepKeepsOneLive(c: Config, s: State, a: Action)
    requires Inv(c, s) && LiveIsClaimed(c, s) && OneLivePerPath(c, s)
    requires Enabled(c, s, a) && IssuesWhilePresent(s, a)
    ensures OneLivePerPath(c, Next(c, s, a))
  {
    var r := Next(c, s, a);
    StepsGoForward(c, s, a);
    forall x, y | x in r.returned && y in r.returned && IsPick(r, x) && IsPick(r, y)
      && r.minted[x].path == r.minted[y].path && Live(c, r, x) && Live(c, r, y)
      ensures x == y
    {
      if x != y {
        if x in s.returned && y in s.returned {
          assert Live(c, s, x) && Live(c, s, y);
        } else if x in s.returned {
          NewPickIsAlone(c, s, a, x, y);
        } else if y in s.returned {
          NewPickIsAlone(c, s, a, y, x);
        }
      }
    }
  }

  /** While an older credential is live its claim keeps the lock, so nothing new is issued. */
  lemma NewPickIsAlone(c: Config, s: State, a: Action, older: string, newer: string)
    requires Inv(c, s) && LiveIsClaimed(c, s) && Enabled(c, s, a) && IssuesWhilePresent(s, a)
    requires older in s.returned && newer !in s.returned && newer in Next(c, s, a).returned
    requires IsPick(Next(c, s, a), older) && IsPick(Next(c, s, a), newer)
    requires Next(c, s, a).minted[older].path == Next(c, s, a).minted[newer].path
    ensures !Live(c, Next(c, s, a), older)
  {
    assert older in s.minted;
    LiveHoldsTheLock(c, s, older);
  }

  lemma LiveHoldsTheLock(c: Config, s: State, jti: string)
    requires Inv(c, s) && LiveIsClaimed(c, s) && jti in s.returned && IsPick(s, jti)
    ensures Live(c, s, jti) && s.minted[jti].path in s.bundles ==> c.digest(s.minted[jti].path) in s.claims.locks
  {
    if Live(c, s, jti) && s.minted[jti].path in s.bundles {
      assert Owns(s.claims, c.digest, jti) && GoodRecord(s, s.claims.sidecars[jti].record);
    }
  }

  /** If picks do not suspend between reading and issuing, one path has one live pick credential. */
  lemma {:induction false} AtMostOneLiveCredential(c: Config, states: seq<State>, actions: seq<Action>, n: nat)
    requires IsProtocolRun(c, states, actions) && n <= |actions|
    requires forall i :: 0 <= i < n ==> IssuesWhilePresent(states[i], actions[i])
    ensures LiveIsClaimed(c, states[n]) && OneLivePerPath(c, states[n])
  {
    if n > 0 {
      AtMostOneLiveCredential(c, states, actions, n - 1);
      RunKeepsInv(c, states, actions, n - 1);
      assert StepAt(c, states[n - 1], actions[n - 1], states[n]);
      StepKeepsLiveIsClaimed(c, states[n - 1], actions[n - 1]);
      StepKeepsOneLive(c, states[n - 1], actions[n - 1]);
    }
  }

  /** Another live pick credential for the path of this one is out. */
  ghost predicate Rivalled(c: Config, s: State, jti: string)
    requires jti in s.minted
  {
    exists other :: other != jti && RivalOf(c, s, jti, other)
  }

  predicate RivalOf(c: Config, s: State, jti: string, other: string)
    requires jti in s.minted
  {
    other in s.returned && IsPick(s, other) && Live(c, s, other) && s.minted[other].path == s.minted[jti].path
  }

  /** No live credential is answered for a bundle that is gone while another one for its path is live. */
  ghost predicate IssuesAlone(c: Config, s: State, a: Action) {
    a.PickIssue? && a.ok && a.id in s.tasks && s.tasks[a.id].Picking? && s.tasks[a.id].jti in s.minted ==>
      var jti := s.tasks[a.id].jti;
      s.minted[jti].path in s.bundles || !Live(c, s, jti) || !Rivalled(c, s, jti)
  }

  /** What a step does to the credentials that are out. */
  lemma Answers(c: Config, s: State, a: Action)
    requires Inv(c, s) && Enabled(c, s, a)
    ensures
      a.PickIssue? && a.ok ==>
        && Next(c, s, a).returned == s.returned + {s.tasks[a.id].jti} && IsPick(s, s.tasks[a.id].jti)
        && Next(c, s, a).minted == s.minted && Next(c, s, a).now == s.now
    ensures
      !(a.PickIssue? && a.ok) ==>
        forall jti :: jti in Next(c, s, a).returned && IsPick(Next(c, s, a), jti) ==>
          jti in s.minted && jti in s.returned
  {
    if a.PickIssue? { assert GoodTask(c, s, s.tasks[a.id]); }
  }

  lemma PickAnsweredBesideARival(c: Config, s: State, a: Action)
    requires Inv(c, s) && Enabled(c, s, a) && a.PickIssue? && a.ok && Live(c, s, s.tasks[a.id].jti)
    requires Rivalled(c, s, s.tasks[a.id].jti)
    ensures !OneLivePerPath(c, Next(c, s, a))
  {
    Answers(c, s, a);
    var jti := s.tasks[a.id].jti;
    var other :| other != jti && RivalOf(c, s, jti, other);
    var r := Next(c, s, a);
    assert jti in r.returned && other in r.returned && Live(c, r, jti) && Live(c, r, other);
  }

  lemma PickAnsweredAlone(c: Config, s: State, a: Action)
    requires Inv(c, s) && OneLivePerPath(c, s) && Enabled(c, s, a)
    requires a.PickIssue? && a.ok ==> !Live(c, s, s.tasks[a.id].jti) || !Rivalled(c, s, s.tasks[a.id].jti)
    ensures OneLivePerPath(c, Next(c, s, a))
  {
    Answers(c, s, a);
    StepsGoForward(c, s, a);
    var r := Next(c, s, a);
    forall x, y | x in r.returned && y in r.returned && IsPick(r, x) && IsPick(r, y)
      && r.minted[x].path == r.minted[y].path && Live(c, r, x) && Live(c, r, y)
      ensures x == y
    {
      assert x in s.minted && y in s.minted && Live(c, s, x) && Live(c, s, y);
      if a.PickIssue? && a.ok {
        var jti := s.tasks[a.id].jti;
        assert x == jti && y != jti ==> RivalOf(c, s, jti, y);
        assert y == jti && x != jti ==> RivalOf(c, s, jti, x);
      }
    }
  }

  /** Exactly the issues beside a rival, and those only while the bundle is gone, break it. */
  lemma StepKeepsOneLiveIff(c: Config, s: State, a: Action)
    requires Inv(c, s) && LiveIsClaimed(c, s) && OneLivePerPath(c, s) && Enabled(c, s, a)
    ensures OneLivePerPath(c, Next(c, s, a)) <==> IssuesAlone(c, s, a)
  {
    if !IssuesAlone(c, s, a) {
      PickAnsweredBesideARival(c, s, a);
    } else if a.PickIssue? && a.ok && s.minted[s.tasks[a.id].jti].path in s.bundles {
      StepKeepsOneLive(c, s, a);
    } else {
      PickAnsweredAlone(c, s, a);
    }
  }

  ghost predicate OneLiveUpTo(c: Config, states: seq<State>, n: nat)
    requires n < |states|
  {
    forall i :: 0 <= i <= n ==> OneLivePerPath(c, states[i])
  }

  ghost predicate IssuesAloneUpTo(c: Config, states: seq<State>, actions: seq<Action>, n: nat)
    requires n <= |actions| < |states|
  {
    forall i :: 0 <= i < n ==> IssuesAlone(c, states[i], actions[i])
  }

  /** So a run has one live pick credential per path throughout exactly if it issues so throughout. */
  lemma {:induction false} OneLiveThroughoutIff(c: Config, states: seq<State>, actions: seq<Action>, n: nat)
    requires IsProtocolRun(c, states, actions) && n <= |actions|
    ensures LiveIsClaimed(c, states[n])
    ensures OneLiveUpTo(c, states, n) <==> IssuesAloneUpTo(c, states, actions, n)
  {
    if n > 0 {
      OneLiveThroughoutIff(c, states, actions, n - 1);
      OneMoreStep(c, states, actions, n - 1);
    }
  }

  lemma OneMoreStep(c: Config, states: seq<State>, actions: seq<Action>, n: nat)
    requires IsProtocolRun(c, states, actions) && n < |actions| && LiveIsClaimed(c, states[n])
    ensures LiveIsClaimed(c, states[n + 1])
    ensures OneLivePerPath(c, states[n]) ==>
      (OneLivePerPath(c, states[n + 1]) <==> IssuesAlone(c, states[n], actions[n]))
  {
    RunKeepsInv(c, states, actions, n);
    assert StepAt(c, states[n], actions[n], states[n + 1]);
    StepKeepsLiveIsClaimed(c, states[n], actions[n]);
    if OneLivePerPath(c, states[n]) { StepKeepsOneLiveIff(c, states[n], actions[n]); }
  }
}
