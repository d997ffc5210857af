/** Why a pick must not suspend between reading a manifest and issuing the claim. */
module ClaimTraps {
  import opened Wrappers
  import opened ClaimStorage
  import opened ClaimProtocol

  ghost predicate Reachable(c: Config, s: State) {
    exists states: seq<State>, actions: seq<Action> ::
      IsProtocolRun(c, states, actions) && states[|actions|] == s
  }

  lemma StartIsReachable(c: Config, s: State)
    requires IsStart(s)
    ensures Reachable(c, s)
  {
    var states, actions: seq<Action> := [s], [];
    assert IsProtocolRun(c, states, actions) && states[|actions|] == s;
  }

  lemma StepIsReachable(c: Config, s: State, a: Action, r: State)
    requires Reachable(c, s) && Enabled(c, s, a) && r == Next(c, s, a)
    ensures Reachable(c, r)
  {
    var states: seq<State>, actions: seq<Action> :| IsProtocolRun(c, states, actions) && states[|actions|] == s;
    var longer, more := states + [r], actions + [a];
    forall i | 0 <= i < |more|
      ensures StepAt(c, longer[i], more[i], longer[i + 1])
    {
      if i < |actions| { assert StepAt(c, states[i], actions[i], states[i + 1]); }
    }
    assert IsProtocolRun(c, longer, more) && longer[|more|] == r;
  }

  /** One pick, by task `id`, and the state in which it was answered. */
  function Picked(c: Config, s: State, id: nat, jti: string): State
    requires id in s.tasks && s.tasks[id] == Picking(jti) && jti in s.minted
  {
    var claim := NewRecord(s, jti);
    Ended(s.(claims := WithClaim(s.claims, c.digest(claim.bundlePath), claim),
             everClaimed := s.everClaimed + {claim.bundlePath}, returned := s.returned + {jti}), id)
  }

  lemma PickIsAnswered(c: Config, s: State, id: nat, jti: string)
    requires Reachable(c, s) && id in s.tasks && s.tasks[id] == Picking(jti) && jti in s.minted
    requires CanIssue(s.claims, c.digest(s.minted[jti].path), jti)
    ensures Reachable(c, Picked(c, s, id, jti))
  {
    var claim := NewRecord(s, jti);
    var left := WithClaim(s.claims, c.digest(claim.bundlePath), claim);
    StepIsReachable(c, s, PickIssue(id, left, true), Picked(c, s, id, jti));
  }

  /** The first credential is out, and a second pick has read the manifest. */
  ghost predicate SecondHasRead(c: Config, s: State, path: string, name: string, first: string, second: string) {
    && s.bundles == map[path := {name}] && s.minted.Keys == {first, second} && first != second
    && s.minted[first] == s.minted[second] == Mint(path, {name}, s.now / MICROS, true)
    && s.returned == {first} && s.tasks == map[1 := Picking(second)]
    && IsClaim(s.claims, first) && s.claims.sidecars.Keys == {first}
    && s.claims.sidecars[first].record.bundlePath == path && s.claims.sidecars[first].record.filesFetched == []
    && s.claims.locks.Keys == {c.digest(path)}
  }

  lemma FirstPickThenRead(c: Config, now: int, path: string, name: string, first: string, second: string)
      returns (s: State)
    requires INBOX_PREFIX <= path && first != second
    ensures Reachable(c, s) && s.now == now && SecondHasRead(c, s, path, name, first, second)
  {
    var s0 := State(now, map[], ClaimFiles(map[], map[], {}), map[], map[], {}, {}, {});
    StartIsReachable(c, s0);
    var s1 := s0.(bundles := map[path := {name}]);
    StepIsReachable(c, s0, CommitBundle(path, {name}), s1);
    var m := Mint(path, {name}, now / MICROS, true);
    var s2 := s1.(minted := map[first := m], tasks := map[0 := Picking(first)]);
    StepIsReachable(c, s1, PickRead(0, first, path), s2);
    PickIsAnswered(c, s2, 0, first);
    var s3 := Picked(c, s2, 0, first);
    s := s3.(minted := map[first := m, second := m], tasks := map[1 := Picking(second)]);
    StepIsReachable(c, s3, PickRead(1, second, path), s);
  }

  /** The first credential's download runs to its end and completes the claim. */
  ghost predicate FirstHasCompleted(c: Config, s: State, path: string, first: string, second: string) {
    && s.bundles == map[] && s.minted.Keys == {first, second} && s.minted[first] == s.minted[second]
    && s.minted[first].path == path && s.minted[first].pick && s.minted[first].iat == s.now / MICROS
    && s.returned == {first} && s.tasks == map[1 := Picking(second)]
    && s.claims.sidecars == map[] && s.claims.locks == map[]
  }

  lemma ContinueIsReachable(c: Config, s: State, id: nat, r: State)
    requires Reachable(c, s) && id in s.tasks && !s.tasks[id].Picking? && !s.tasks[id].Streaming?
    requires r == Proceed(c, s, id)
    ensures Reachable(c, r)
  {
    StepIsReachable(c, s, Continue(id), r);
  }

  /** A download of the only file, up to its accounting. */
  lemma Downloads(c: Config, s: State, id: nat, jti: string, name: string) returns (r: State)
    requires Reachable(c, s) && id !in s.tasks && jti in s.returned && Live(c, s, jti)
    requires name in s.minted[jti].names && s.minted[jti].path in s.bundles && INBOX_PREFIX <= s.minted[jti].path
    requires s.bundles[s.minted[jti].path] == {name}
    ensures Reachable(c, r)
    ensures r == WithTask(s.(streamed := s.streamed + {(jti, name)}), id, Accounting(jti, name, {name}))
  {
    var s1 := WithTask(s, id, Streaming(jti, name, {name}));
    StepIsReachable(c, s, StartDownload(id, jti, name), s1);
    r := WithTask(s.(streamed := s.streamed + {(jti, name)}), id, Accounting(jti, name, {name}));
    assert r.tasks == s1.tasks[id := Accounting(jti, name, {name})];
    StepIsReachable(c, s1, StreamDone(id), r);
  }

  /** The accounting finds the claim complete. */
  lemma Accounts(c: Config, s: State, id: nat, jti: string, name: string) returns (r: State)
    requires Reachable(c, s) && id in s.tasks && s.tasks[id] == Accounting(jti, name, {name})
    requires IsClaim(s.claims, jti) && s.claims.sidecars[jti].record.filesFetched == []
    ensures Reachable(c, r)
    ensures r == WithTask(s.(claims := WithFetched(s.claims, jti, name)), id, Completing(jti))
  {
    var s1 := WithTask(s, id, Marking(jti, name, {name}));
    ContinueIsReachable(c, s, id, s1);
    r := WithTask(s.(claims := WithFetched(s.claims, jti, name)), id, Completing(jti));
    assert r.tasks == s1.tasks[id := Completing(jti)];
    ContinueIsReachable(c, s1, id, r);
  }

  /** The bundle and the claim are deleted. */
  lemma Completes(c: Config, s: State, id: nat, jti: string) returns (r: State)
    requires Reachable(c, s) && id in s.tasks && s.tasks[id] == Completing(jti) && jti in s.minted
    ensures Reachable(c, r)
    ensures r == s.(bundles := s.bundles - {s.minted[jti].path}, claims := WithoutClaim(s.claims, c.digest, jti),
                    tasks := s.tasks - {id})
  {
    var s1 := WithTask(s.(bundles := s.bundles - {s.minted[jti].path}), id, Dropping(jti));
    ContinueIsReachable(c, s, id, s1);
    r := s.(bundles := s.bundles - {s.minted[jti].path}, claims := WithoutClaim(s.claims, c.digest, jti),
            tasks := s.tasks - {id});
    assert r.tasks == s1.tasks - {id};
    ContinueIsReachable(c, s1, id, r);
  }

  lemma FirstCompletes(
      c: Config, s: State, path: string, name: string, first: string, second: string)
      returns (r: State)
    requires Reachable(c, s) && SecondHasRead(c, s, path, name, first, second) && Live(c, s, first)
    requires INBOX_PREFIX <= path
    ensures Reachable(c, r) && r.now == s.now && FirstHasCompleted(c, r, path, first, second)
  {
    var s1 := Downloads(c, s, 2, first, name);
    var s2 := Accounts(c, s1, 2, first, name);
    r := Completes(c, s2, 2, first);
    assert r.tasks == s.tasks;
  }

  predicate TwoLive(c: Config, s: State, path: string, first: string, second: string) {
    && path !in s.bundles && {first, second} <= s.returned && Live(c, s, first) && Live(c, s, second)
    && s.minted[first].path == s.minted[second].path == path
  }

  /**
   * If a pick suspends between its read and its issue, another one may complete in between:
   * then two live credentials for one path are out, one of them for a bundle that is gone.
   */
  lemma SuspendedPickGivesTwoLiveCredentials(
      c: Config, now: int, path: string, name: string, first: string, second: string)
    requires c.ttl >= 1 && INBOX_PREFIX <= path && first != second
    ensures exists s :: Reachable(c, s) && TwoLive(c, s, path, first, second) && !OneLivePerPath(c, s)
  {
    var s := FirstPickThenRead(c, now, path, name, first, second);
    assert now < (now / MICROS + c.ttl) * MICROS;
    var r := FirstCompletes(c, s, path, name, first, second);
    PickIsAnswered(c, r, 1, second);
    var t := Picked(c, r, 1, second);
    assert IsPick(t, first) && IsPick(t, second) && t.minted[first].path == t.minted[second].path;
    assert Live(c, t, first) && Live(c, t, second);
  }
}
