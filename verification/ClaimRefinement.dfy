/** What the suspended tasks of the claim protocol do to bundles and claims, once they are carried to their ends. */
module ClaimRefinement {
  import opened Wrappers
  import opened ClaimStorage
  import opened ClaimProtocol
  import Loop = ClaimSweep

  // ---- The sweep -------------------------------------------------------------

  /** The next step of a sweep: some manifests resist reading, and some bundles resist deletion. */
  function OwnStep(c: Config, s: State, id: nat, unreadable: set<string>, stuck: set<string>): Action
    requires id in s.tasks
  {
    match s.tasks[id]
    case Sweeping(at, claims) =>
      if claims != [] && claims[0].createdAt.Some? && Expired(c, claims[0], at)
        && claims[0].bundlePath in s.bundles && claims[0].bundlePath in unreadable
      then SkipClaim(id) else Continue(id)
    case SweepDeleting(at, claims) =>
      if claims != [] && claims[0].bundlePath in stuck then DeleteFails(id) else Continue(id)
    case _ => Continue(id)
  }

  predicate IsSweep(t: Task) {
    t.Listed? || t.Sweeping? || t.SweepDeleting? || t.SweepDropping?
  }

  /** The state after `n` steps of the sweep alone, or where it has ended before. */
  function AfterSteps(
      c: Config, s: State, id: nat, unreadable: set<string>, stuck: set<string>, n: nat): State
    decreases n
  {
    if n == 0 || id !in s.tasks || !IsSweep(s.tasks[id]) then s
    else AfterSteps(c, Next(c, s, OwnStep(c, s, id, unreadable, stuck)), id, unreadable, stuck, n - 1)
  }

  lemma {:induction false} StepsAfterSteps(
      c: Config, s: State, id: nat, unreadable: set<string>, stuck: set<string>, m: nat, n: nat)
    ensures AfterSteps(c, s, id, unreadable, stuck, m + n) ==
      AfterSteps(c, AfterSteps(c, s, id, unreadable, stuck, m), id, unreadable, stuck, n)
    decreases m
  {
    if m > 0 && id in s.tasks && IsSweep(s.tasks[id]) {
      StepsAfterSteps(c, Next(c, s, OwnStep(c, s, id, unreadable, stuck)), id, unreadable, stuck, m - 1, n);
    }
  }

  /** The bundles as the loop of the sweep sees them. */
  function Present(bundles: map<string, set<string>>, unreadable: set<string>): map<string, Loop.Manifest> {
    map path | path in bundles :: if path in unreadable then Loop.Unreadable else Loop.Names(bundles[path])
  }

  lemma PresentWithout(bundles: map<string, set<string>>, unreadable: set<string>, gone: set<string>)
    ensures Present(bundles - gone, unreadable) == Present(bundles, unreadable) - gone
  {
  }

  /** The state with one more claim handled. */
  function Handled(
      c: Config, s: State, id: nat, unreadable: set<string>, stuck: set<string>, at: int, claims: seq<ClaimRecord>)
      : State
    requires claims != []
  {
    var claim, present, ttl := claims[0], Present(s.bundles, unreadable), c.ttl * MICROS;
    s.(claims :=
         if Loop.IsDropped(claim, present, at, ttl) then WithoutClaim(s.claims, c.digest, claim.jti) else s.claims,
       bundles :=
         if Loop.TakesBundle(claim, present, at, ttl) && claim.bundlePath !in stuck
         then s.bundles - {claim.bundlePath} else s.bundles,
       tasks := s.tasks[id := Sweeping(at, claims[1..])])
  }

  lemma DroppingEnds(
      c: Config, s: State, id: nat, unreadable: set<string>, stuck: set<string>, at: int, claims: seq<ClaimRecord>)
    requires id in s.tasks && s.tasks[id] == SweepDropping(at, claims) && claims != []
    ensures AfterSteps(c, s, id, unreadable, stuck, 1) ==
      s.(claims := WithoutClaim(s.claims, c.digest, claims[0].jti), tasks := s.tasks[id := Sweeping(at, claims[1..])])
  {
    var s1 := Next(c, s, OwnStep(c, s, id, unreadable, stuck));
    assert AfterSteps(c, s1, id, unreadable, stuck, 0) == s1;
  }

  lemma DeletingEnds(
      c: Config, s: State, id: nat, unreadable: set<string>, stuck: set<string>, at: int, claims: seq<ClaimRecord>)
    requires id in s.tasks && s.tasks[id] == SweepDeleting(at, claims) && claims != []
    ensures AfterSteps(c, s, id, unreadable, stuck, 2) ==
      s.(claims := WithoutClaim(s.claims, c.digest, claims[0].jti), tasks := s.tasks[id := Sweeping(at, claims[1..])],
         bundles :=
           if claims[0].bundlePath in stuck then s.bundles else s.bundles - {claims[0].bundlePath})
  {
    var s1 := Next(c, s, OwnStep(c, s, id, unreadable, stuck));
    DroppingEnds(c, s1, id, unreadable, stuck, at, claims);
    assert s1.tasks[id := Sweeping(at, claims[1..])] == s.tasks[id := Sweeping(at, claims[1..])];
  }

  /** One to three steps handle a claim as the body of the loop does. */
  lemma OneClaim(
      c: Config, s: State, id: nat, unreadable: set<string>, stuck: set<string>, at: int, claims: seq<ClaimRecord>)
      returns (n: nat)
    requires id in s.tasks && s.tasks[id] == Sweeping(at, claims) && claims != []
    ensures AfterSteps(c, s, id, unreadable, stuck, n) == Handled(c, s, id, unreadable, stuck, at, claims)
  {
    var s1 := Next(c, s, OwnStep(c, s, id, unreadable, stuck));
    assert s1 == WithTask(s, id, s1.tasks[id]);
    assert s1.tasks[id := Sweeping(at, claims[1..])] == s.tasks[id := Sweeping(at, claims[1..])];
    if s1.tasks[id].SweepDropping? {
      DroppingEnds(c, s1, id, unreadable, stuck, at, claims);
      n := 2;
    } else if s1.tasks[id].SweepDeleting? {
      DeletingEnds(c, s1, id, unreadable, stuck, at, claims);
      n := 3;
    } else {
      assert AfterSteps(c, s1, id, unreadable, stuck, 0) == s1;
      n := 1;
    }
    assert AfterSteps(c, s, id, unreadable, stuck, n) == AfterSteps(c, s1, id, unreadable, stuck, n - 1);
  }

  /** The files and bundles after the first `i` of the claims. */
  ghost predicate SweptTo(
      c: Config, s: State, r: State, id: nat, unreadable: set<string>, stuck: set<string>, at: int,
      claims: seq<ClaimRecord>, i: nat)
    requires i <= |claims|
  {
    var present, ttl := Present(s.bundles, unreadable), c.ttl * MICROS;
    && r.claims == Loop.FilesAfter(s.claims, c.digest, claims, i, present, at, ttl)
    && Present(r.bundles, unreadable) == Loop.BundlesAfter(claims, i, present, at, ttl, stuck)
    && r == s.(claims := r.claims, bundles := r.bundles, tasks := s.tasks[id := Sweeping(at, claims[i..])])
  }

  lemma OneMoreHandled(
      c: Config, s: State, r: State, id: nat, unreadable: set<string>, stuck: set<string>, at: int,
      claims: seq<ClaimRecord>, i: nat)
    requires Loop.Listing(s.claims, c.digest, claims) && i < |claims|
    requires SweptTo(c, s, r, id, unreadable, stuck, at, claims, i)
    ensures SweptTo(
      c, s, Handled(c, r, id, unreadable, stuck, at, claims[i..]), id, unreadable, stuck, at, claims, i + 1)
  {
    var present, ttl := Present(s.bundles, unreadable), c.ttl * MICROS;
    Loop.OneMoreClaim(s.claims, c.digest, claims, i, present, at, ttl);
    Loop.OneMoreBundle(s.claims, c.digest, claims, i, present, at, ttl, stuck);
    PresentWithout(r.bundles, unreadable, {claims[i].bundlePath});
    assert claims[i..][1..] == claims[i + 1..] && claims[i..][0] == claims[i];
    assert r.tasks[id := Sweeping(at, claims[i + 1..])] == s.tasks[id := Sweeping(at, claims[i + 1..])];
  }

  lemma {:induction false} SweepsTo(
      c: Config, s: State, id: nat, unreadable: set<string>, stuck: set<string>, at: int, claims: seq<ClaimRecord>,
      i: nat)
      returns (n: nat)
    requires id in s.tasks && s.tasks[id] == Sweeping(at, claims)
    requires Loop.Listing(s.claims, c.digest, claims) && i <= |claims|
    ensures SweptTo(c, s, AfterSteps(c, s, id, unreadable, stuck, n), id, unreadable, stuck, at, claims, i)
  {
    if i == 0 {
      n := 0;
      SweptToNone(c, s, id, unreadable, stuck, at, claims);
    } else {
      n := SweepsTo(c, s, id, unreadable, stuck, at, claims, i - 1);
      n := SweepsOneMore(c, s, id, unreadable, stuck, at, claims, i - 1, n);
    }
  }

  lemma SweptToNone(
      c: Config, s: State, id: nat, unreadable: set<string>, stuck: set<string>, at: int, claims: seq<ClaimRecord>)
    requires id in s.tasks && s.tasks[id] == Sweeping(at, claims)
    ensures SweptTo(c, s, s, id, unreadable, stuck, at, claims, 0)
  {
    Loop.NothingGone(s.claims, c.digest);
    assert claims[0..] == claims;
    assert s.tasks[id := Sweeping(at, claims)] == s.tasks;
  }

  lemma SweepsOneMore(
      c: Config, s: State, id: nat, unreadable: set<string>, stuck: set<string>, at: int, claims: seq<ClaimRecord>,
      i: nat, n: nat)
      returns (m: nat)
    requires Loop.Listing(s.claims, c.digest, claims) && i < |claims|
    requires SweptTo(c, s, AfterSteps(c, s, id, unreadable, stuck, n), id, unreadable, stuck, at, claims, i)
    ensures SweptTo(c, s, AfterSteps(c, s, id, unreadable, stuck, m), id, unreadable, stuck, at, claims, i + 1)
  {
    var r := AfterSteps(c, s, id, unreadable, stuck, n);
    var more := OneClaim(c, r, id, unreadable, stuck, at, claims[i..]);
    OneMoreHandled(c, s, r, id, unreadable, stuck, at, claims, i);
    StepsAfterSteps(c, s, id, unreadable, stuck, n, more);
    m := n + more;
  }

  /** The claims of the files, each once. */
  ghost predicate AllClaims(s: ClaimFiles, claims: seq<ClaimRecord>) {
    && (forall i :: 0 <= i < |claims| ==> IsClaim(s, claims[i].jti) && s.sidecars[claims[i].jti].record == claims[i])
    && (forall jti :: IsClaim(s, jti) ==> s.sidecars[jti].record in claims)
    && (forall i, j :: 0 <= i < j < |claims| ==> claims[i].jti != claims[j].jti)
  }

  /** The claims, locks and bundles are those that the loop leaves, and all else is as it was. */
  ghost predicate SweptAsTheLoop(
      c: Config, s: State, r: State, id: nat, unreadable: set<string>, stuck: set<string>, at: int)
  {
    var present, ttl := Present(s.bundles, unreadable), c.ttl * 1_000_000;
    && r.claims == Loop.SweptFiles(s.claims, c.digest, present, at, ttl)
    && Present(r.bundles, unreadable) == Loop.SweptBundles(s.claims, present, at, ttl, stuck)
    && r == s.(claims := r.claims, bundles := r.bundles, tasks := s.tasks - {id})
  }

  lemma SweptToTheEnd(
      c: Config, s: State, r: State, id: nat, unreadable: set<string>, stuck: set<string>, at: int,
      claims: seq<ClaimRecord>)
    requires SweptTo(c, s, r, id, unreadable, stuck, at, claims, |claims|)
    requires Loop.First(claims, |claims|) == Loop.ClaimsOf(s.claims)
    ensures SweptAsTheLoop(c, s, r.(tasks := r.tasks - {id}), id, unreadable, stuck, at)
  {
    assert r.tasks - {id} == s.tasks - {id};
  }

  lemma SweepEnds(
      c: Config, s: State, id: nat, unreadable: set<string>, stuck: set<string>, at: int, claims: seq<ClaimRecord>)
      returns (n: nat)
    requires ClaimStorage.Inv(s.claims, c.digest) && id in s.tasks && s.tasks[id] == Sweeping(at, claims)
    requires AllClaims(s.claims, claims)
    ensures SweptAsTheLoop(c, s, AfterSteps(c, s, id, unreadable, stuck, n), id, unreadable, stuck, at)
  {
    Loop.ListedApart(s.claims, c.digest, claims);
    Loop.AllListed(s.claims, claims);
    n := SweepsTo(c, s, id, unreadable, stuck, at, claims, |claims|);
    var r := AfterSteps(c, s, id, unreadable, stuck, n);
    assert claims[|claims|..] == [];
    SweptToTheEnd(c, s, r, id, unreadable, stuck, at, claims);
    NothingLeft(c, r, id, unreadable, stuck, at);
    StepsAfterSteps(c, s, id, unreadable, stuck, n, 1);
    n := n + 1;
  }

  lemma NothingLeft(c: Config, s: State, id: nat, unreadable: set<string>, stuck: set<string>, at: int)
    requires id in s.tasks && s.tasks[id] == Sweeping(at, [])
    ensures AfterSteps(c, s, id, unreadable, stuck, 1) == s.(tasks := s.tasks - {id})
  {
    var end := Next(c, s, OwnStep(c, s, id, unreadable, stuck));
    assert AfterSteps(c, end, id, unreadable, stuck, 0) == end;
  }

  /**
   * A sweep that nothing interrupts once it has listed the claims refines the loop: it comes to an
   * end, and leaves the claims, locks and bundles of the set description, and all else as it was.
   */
  lemma SweepRefinesTheLoop(
      c: Config, s: State, id: nat, unreadable: set<string>, stuck: set<string>, claims: seq<ClaimRecord>)
      returns (n: nat)
    requires ClaimProtocol.Inv(c, s) && Enabled(c, s, StartSweep(id, claims)) && AllClaims(s.claims, claims)
    ensures
      var r := AfterSteps(c, Next(c, s, StartSweep(id, claims)), id, unreadable, stuck, n);
      SweptAsTheLoop(c, s, r, id, unreadable, stuck, s.now)
  {
    var listed := Next(c, s, StartSweep(id, claims));
    StepKeepsInv(c, s, StartSweep(id, claims));
    var sweeping := Next(c, listed, Continue(id));
    StepKeepsInv(c, listed, Continue(id));
    n := SweepEnds(c, sweeping, id, unreadable, stuck, s.now, claims);
    assert sweeping.tasks - {id} == s.tasks - {id};
    assert AfterSteps(c, listed, id, unreadable, stuck, n + 1) == AfterSteps(c, sweeping, id, unreadable, stuck, n);
    n := n + 1;
  }

  /** Between the steps of other tasks, each step of a sweep takes away exactly this. */
  lemma SweepStepTakes(c: Config, s: State, id: nat)
    requires ClaimProtocol.Inv(c, s) && Enabled(c, s, Continue(id))
    ensures
      var t, r := s.tasks[id], Next(c, s, Continue(id));
      && (t.SweepDeleting? ==>
            && r.bundles.Keys == s.bundles.Keys - {t.claims[0].bundlePath} && r.claims == s.claims
            && id in r.tasks && r.tasks[id] == SweepDropping(t.at, t.claims))
      && (t.SweepDropping? ==>
            && r.bundles == s.bundles && r.claims.sidecars.Keys == s.claims.sidecars.Keys - {t.claims[0].jti}
            && r.claims.locks.Keys ==
                 (if IsClaim(s.claims, t.claims[0].jti)
                  then s.claims.locks.Keys - {c.digest(s.claims.sidecars[t.claims[0].jti].record.bundlePath)}
                  else s.claims.locks.Keys)
            && id in r.tasks && r.tasks[id] == Sweeping(t.at, t.claims[1..]))
      && (t.Sweeping? || t.Listed? ==> r.bundles == s.bundles && r.claims == s.claims)
  {
    assert GoodTask(c, s, s.tasks[id]);
  }

  // ---- The accounting of a download --------------------------------------------

  function AfterContinues(c: Config, s: State, id: nat, n: nat): State
    decreases n
  {
    if n == 0 || !Enabled(c, s, Continue(id)) then s else AfterContinues(c, Next(c, s, Continue(id)), id, n - 1)
  }

  function WithName(fetched: seq<string>, name: string): seq<string> {
    if name in fetched then fetched else fetched + [name]
  }

  /**
   * A streamed file whose accounting nothing interrupts: without a claim nothing changes; with one
   * it is noted once, and if the claim then covers the manifest the bundle, the claim and its lock go.
   */
  lemma AccountingEnds(c: Config, s: State, id: nat, jti: string, name: string, manifest: set<string>)
    requires ClaimProtocol.Inv(c, s) && id in s.tasks && s.tasks[id] == Accounting(jti, name, manifest)
    ensures
      var r := AfterContinues(c, s, id, 4);
      && r == s.(claims := r.claims, bundles := r.bundles, tasks := s.tasks - {id})
      && (!IsClaim(s.claims, jti) ==> r.claims == s.claims && r.bundles == s.bundles)
      && (IsClaim(s.claims, jti) ==>
            var record := s.claims.sidecars[jti].record;
            var fetched := WithName(record.filesFetched, name);
            if forall n <- manifest :: n in fetched
            then
              && r.bundles == s.bundles - {record.bundlePath}
              && r.claims.sidecars == s.claims.sidecars - {jti}
              && r.claims.locks == s.claims.locks - {c.digest(record.bundlePath)}
            else
              && r.bundles == s.bundles && r.claims.locks == s.claims.locks
              && r.claims.sidecars == s.claims.sidecars[jti := Parsed(record.(filesFetched := fetched))])
  {
    var r := AfterContinues(c, s, id, 4);
    assert GoodTask(c, s, s.tasks[id]);
    var s1 := Next(c, s, Continue(id));
    if !IsClaim(s.claims, jti) {
      assert AfterContinues(c, s1, id, 3) == s1;
    } else {
      assert Owns(s.claims, c.digest, jti) && GoodRecord(s, s.claims.sidecars[jti].record);
      AccountedFor(c, s, s1, id, jti, name, manifest);
      MarkingEnds(c, s1, id, jti, name, manifest);
      assert AfterContinues(c, s, id, 4) == AfterContinues(c, s1, id, 3);
    }
  }

  lemma AccountedFor(c: Config, s: State, r: State, id: nat, jti: string, name: string, manifest: set<string>)
    requires ClaimProtocol.Inv(c, s) && id in s.tasks && s.tasks[id] == Accounting(jti, name, manifest)
    requires IsClaim(s.claims, jti) && r == Next(c, s, Continue(id))
    ensures r == s.(tasks := s.tasks[id := Marking(jti, name, manifest)]) && ClaimProtocol.Inv(c, r)
  {
    StepKeepsInv(c, s, Continue(id));
  }

  lemma MarkingEnds(c: Config, s: State, id: nat, jti: string, name: string, manifest: set<string>)
    requires ClaimProtocol.Inv(c, s) && id in s.tasks && s.tasks[id] == Marking(jti, name, manifest)
    requires IsClaim(s.claims, jti)
    ensures
      var r := AfterContinues(c, s, id, 3);
      var record := s.claims.sidecars[jti].record;
      var fetched := WithName(record.filesFetched, name);
      && r == s.(claims := r.claims, bundles := r.bundles, tasks := s.tasks - {id})
      && if forall n <- manifest :: n in fetched
         then
           && r.bundles == s.bundles - {record.bundlePath}
           && r.claims.sidecars == s.claims.sidecars - {jti}
           && r.claims.locks == s.claims.locks - {c.digest(record.bundlePath)}
         else
           && r.bundles == s.bundles && r.claims.locks == s.claims.locks
           && r.claims.sidecars == s.claims.sidecars[jti := Parsed(record.(filesFetched := fetched))]
  {
    assert Owns(s.claims, c.digest, jti) && GoodRecord(s, s.claims.sidecars[jti].record);
    var record := s.claims.sidecars[jti].record;
    var fetched := WithName(record.filesFetched, name);
    var s1 := Next(c, s, Continue(id));
    assert s1.claims.sidecars == s.claims.sidecars[jti := Parsed(record.(filesFetched := fetched))];
    assert IsClaim(s1.claims, jti) && s1.claims.sidecars[jti].record.filesFetched == fetched;
    if forall n <- manifest :: n in fetched {
      CompletingEnds(c, s1, id, jti);
      assert s1.claims.sidecars - {jti} == s.claims.sidecars - {jti};
      assert s1.tasks - {id} == s.tasks - {id};
    } else {
      assert s1.tasks == s.tasks - {id};
      assert AfterContinues(c, s1, id, 2) == s1;
    }
    assert AfterContinues(c, s, id, 3) == AfterContinues(c, s1, id, 2);
  }

  /** The completion deletes the credential's bundle, then its claim. */
  lemma CompletingEnds(c: Config, s: State, id: nat, jti: string)
    requires id in s.tasks && s.tasks[id] == Completing(jti) && jti in s.minted && IsClaim(s.claims, jti)
    requires s.claims.sidecars[jti].record.bundlePath == s.minted[jti].path
    ensures
      var path := s.minted[jti].path;
      AfterContinues(c, s, id, 2) ==
        s.(bundles := s.bundles - {path}, tasks := s.tasks - {id},
           claims := s.claims.(sidecars := s.claims.sidecars - {jti}, locks := s.claims.locks - {c.digest(path)}))
  {
    var s1 := Next(c, s, Continue(id));
    var s2 := Next(c, s1, Continue(id));
    assert s2.tasks == s.tasks - {id};
    assert AfterContinues(c, s1, id, 1) == s2;
  }

  /** A download that nothing interrupts: outside the inbox only the stream itself is left to tell of. */
  lemma DownloadEnds(c: Config, s: State, id: nat, jti: string, name: string)
    requires ClaimProtocol.Inv(c, s) && Enabled(c, s, StartDownload(id, jti, name))
    ensures
      var streaming := Next(c, s, StartDownload(id, jti, name));
      Enabled(c, streaming, StreamDone(id))
      && var r := AfterContinues(c, Next(c, streaming, StreamDone(id)), id, 4);
         var path := s.minted[jti].path;
         && r == s.(claims := r.claims, bundles := r.bundles, streamed := s.streamed + {(jti, name)})
         && (!("inbox/" <= path) || !IsClaim(s.claims, jti) ==> r.claims == s.claims && r.bundles == s.bundles)
         && ("inbox/" <= path && IsClaim(s.claims, jti) ==>
               var record := s.claims.sidecars[jti].record;
               var fetched := WithName(record.filesFetched, name);
               if forall n <- s.bundles[path] :: n in fetched
               then
                 && r.bundles == s.bundles - {path} && r.claims.sidecars == s.claims.sidecars - {jti}
                 && r.claims.locks == s.claims.locks - {c.digest(path)}
               else
                 && r.bundles == s.bundles && r.claims.locks == s.claims.locks
                 && r.claims.sidecars == s.claims.sidecars[jti := Parsed(record.(filesFetched := fetched))])
  {
    var streaming := Next(c, s, StartDownload(id, jti, name));
    StepKeepsInv(c, s, StartDownload(id, jti, name));
    var done := Next(c, streaming, StreamDone(id));
    StepKeepsInv(c, streaming, StreamDone(id));
    assert streaming.tasks - {id} == s.tasks;
    if "inbox/" <= s.minted[jti].path {
      assert done.tasks - {id} == s.tasks;
      AccountingEnds(c, done, id, jti, name, s.bundles[s.minted[jti].path]);
      if IsClaim(s.claims, jti) {
        assert GoodRecord(s, s.claims.sidecars[jti].record) && Owns(s.claims, c.digest, jti);
      }
    } else {
      assert done.tasks == s.tasks;
      assert AfterContinues(c, done, id, 4) == done;
    }
  }
}
