/** Claim sidecars and the exclusive locks that keep claims on one bundle apart. */
module ClaimStorage {
  import opened Wrappers

  type Digest = string

  const INBOX_PREFIX := "inbox/"

  /** `createdAt` is the instant that the text denotes, `None` if it denotes none. */
  datatype ClaimRecord = ClaimRecord(
    jti: string, bundlePath: string, bundleId: string, recipient: string, createdAt: Option<int>,
    filesFetched: seq<string>)

  /** A sidecar that was not written to its end does not parse. */
  datatype Sidecar = Parsed(record: ClaimRecord) | Malformed

  /**
   * The claim directory: lock files by digest with the jti written into them (`None` while it is
   * not there in full), sidecars by jti, and leftover temporary files.
   */
  datatype ClaimFiles = ClaimFiles(
    locks: map<Digest, Option<string>>, sidecars: map<string, Sidecar>, temps: set<string>)

  predicate IsClaim(s: ClaimFiles, jti: string) {
    jti in s.sidecars && s.sidecars[jti].Parsed?
  }

  /** Whether the disk carries out a file operation, refuses it, or the process dies before it. */
  datatype Outcome = Works | Fails | Dies

  datatype IssueResult = Issued | BundleClaimed | IssueFailed | IssueDied

  datatype GetResult = Found(record: ClaimRecord) | NotFound | MalformedSidecar

  // ---- What the operations leave behind --------------------------------------

  function WithLock(s: ClaimFiles, d: Digest, content: Option<string>): ClaimFiles {
    s.(locks := s.locks[d := content])
  }

  function WithSidecar(s: ClaimFiles, jti: string, sidecar: Sidecar): ClaimFiles {
    s.(sidecars := s.sidecars[jti := sidecar])
  }

  /** An issue carried to its end. */
  function WithClaim(s: ClaimFiles, d: Digest, claim: ClaimRecord): ClaimFiles {
    WithSidecar(WithLock(s, d, Some(claim.jti)), claim.jti, Parsed(claim))
  }

  predicate CanIssue(s: ClaimFiles, d: Digest, jti: string) {
    d !in s.locks && jti !in s.sidecars
  }

  /** Everything an issue can leave behind, wherever it stops. */
  predicate IssueLeaves(s: ClaimFiles, d: Digest, claim: ClaimRecord, r: ClaimFiles) {
    || r == s
    || (d !in s.locks && (r == WithLock(s, d, None) || r == WithLock(s, d, Some(claim.jti))))
    || (CanIssue(s, d, claim.jti) &&
        (r == WithSidecar(WithLock(s, d, Some(claim.jti)), claim.jti, Malformed) || r == WithClaim(s, d, claim)))
  }

  function WithFetched(s: ClaimFiles, jti: string, name: string): ClaimFiles
    requires IsClaim(s, jti)
  {
    var current := s.sidecars[jti].record;
    if name in current.filesFetched then s
    else WithSidecar(s, jti, Parsed(current.(filesFetched := current.filesFetched + [name])))
  }

  /** A malformed sidecar does not say which lock goes with it. */
  function WithoutClaim(s: ClaimFiles, digest: string -> Digest, jti: string): ClaimFiles {
    s.(locks := if IsClaim(s, jti) then s.locks - {digest(s.sidecars[jti].record.bundlePath)} else s.locks,
       sidecars := s.sidecars - {jti})
  }

  class FilesystemClaimStorage {
    const digest: string -> Digest
    var files: ClaimFiles

    constructor (digest: string -> Digest)
      ensures Valid() && this.digest == digest && files == ClaimFiles(map[], map[], {})
    {
      this.digest := digest;
      files := ClaimFiles(map[], map[], {});
    }

    ghost predicate Valid()
      reads this
    {
      Inv(files, digest)
    }

    /**
     * The file operations in order: 0 create the lock, 1 write it, 2 create the sidecar,
     * 3 write it, and, when cleaning up, 4 remove the sidecar, 5 remove the lock.
     */
    method Issue(claim: ClaimRecord, disk: nat -> Outcome) returns (r: IssueResult)
      requires Valid()
      modifies this`files
      ensures Valid()
      ensures IssueLeaves(old(files), digest(claim.bundlePath), claim, files)
      ensures r.Issued? ==> files == WithClaim(old(files), digest(claim.bundlePath), claim)
      ensures r.Issued? ==> CanIssue(old(files), digest(claim.bundlePath), claim.jti)
      ensures r.BundleClaimed? ==> files == old(files) && !CanIssue(old(files), digest(claim.bundlePath), claim.jti)
      ensures (forall i :: 0 <= i <= 5 ==> disk(i).Works?) ==>
        r == if CanIssue(old(files), digest(claim.bundlePath), claim.jti) then Issued else BundleClaimed
      ensures NeverDies(disk) && disk(2).Works? && !r.Issued? ==> files == old(files)
      ensures NeverDies(disk) && disk(2).Fails? ==>
        (files == old(files) <==> digest(claim.bundlePath) in old(files).locks || !disk(0).Works? || !disk(1).Works?
                                  || claim.jti in old(files).sidecars)
    {
      forall r | IssueLeaves(files, digest(claim.bundlePath), claim, r)
        ensures Inv(r, digest)
      {
        IssueKeepsInv(files, digest, claim, r);
      }
      var d := digest(claim.bundlePath);
      if disk(0).Dies? { return IssueDied; }
      if disk(0).Fails? { return IssueFailed; }
      if d in files.locks { return BundleClaimed; }
      files := WithLock(files, d, None);
      if disk(1).Dies? { return IssueDied; }
      if disk(1).Fails? {
        if disk(5).Dies? { return IssueDied; }
        files := files.(locks := files.locks - {d});
        assert files.locks == old(files).locks;
        return IssueFailed;
      }
      files := WithLock(files, d, Some(claim.jti));
      if disk(2).Dies? { return IssueDied; }
      if claim.jti in files.sidecars {
        if disk(5).Dies? { return IssueDied; }
        files := files.(locks := files.locks - {d});
        assert files.locks == old(files).locks;
        return BundleClaimed;
      }
      // Only "file exists" is handled here; any other refusal leaves the lock.
      if disk(2).Fails? { return IssueFailed; }
      files := WithSidecar(files, claim.jti, Malformed);
      if disk(3).Dies? { return IssueDied; }
      if disk(3).Fails? {
        if disk(4).Dies? { return IssueDied; }
        files := files.(sidecars := files.sidecars - {claim.jti});
        assert files.sidecars == old(files).sidecars;
        if disk(5).Dies? { return IssueDied; }
        files := files.(locks := files.locks - {d});
        assert files.locks == old(files).locks;
        return IssueFailed;
      }
      files := WithSidecar(files, claim.jti, Parsed(claim));
      return Issued;
    }

    method Get(jti: string) returns (r: GetResult)
      ensures r.Found? <==> IsClaim(files, jti)
      ensures r.Found? ==> files.sidecars[jti] == Parsed(r.record)
      ensures r.NotFound? <==> jti !in files.sidecars
    {
      if jti !in files.sidecars { return NotFound; }
      match files.sidecars[jti]
      case Parsed(record) => return Found(record);
      case Malformed => return MalformedSidecar;
    }

    /** The new sidecar is written to a temporary file and then moved into place. */
    method MarkFetched(jti: string, name: string, write: Outcome, move: Outcome) returns (ok: bool)
      requires Valid()
      modifies this`files
      ensures Valid()
      ensures ok ==> IsClaim(old(files), jti) && files == WithFetched(old(files), jti, name)
      ensures !ok ==> files.(temps := {}) == old(files).(temps := {})
      ensures write.Works? && move.Works? ==> (ok <==> IsClaim(old(files), jti))
    {
      MoveKeepsInv(
        files, digest, MarkStep(jti, name), if IsClaim(files, jti) then WithFetched(files, jti, name) else files);
      TempsDoNotMatter(files, digest, files.temps + {jti});
      TempsDoNotMatter(files, digest, files.temps - {jti});
      var current := Get(jti);
      if !current.Found? { return false; }
      if name in current.record.filesFetched { return true; }
      if write.Dies? || move.Dies? {
        files := files.(temps := files.temps + {jti});
        return false;
      }
      if write.Fails? || move.Fails? {
        files := files.(temps := files.temps - {jti});
        return false;
      }
      var updated := current.record.(filesFetched := current.record.filesFetched + [name]);
      files := WithSidecar(files, jti, Parsed(updated));
      return true;
    }

    method Delete(jti: string)
      requires Valid()
      modifies this`files
      ensures Valid()
      ensures files == WithoutClaim(old(files), digest, jti)
    {
      DeleteKeepsInv(files, digest, jti);
      var record := Get(jti);
      if record.Found? {
        files := files.(locks := files.locks - {digest(record.record.bundlePath)});
      }
      files := files.(sidecars := files.sidecars - {jti});
    }

    /** Every sidecar that parses, in the order the directory happens to be read. */
    method IterAll() returns (claims: seq<ClaimRecord>)
      requires Valid()
      ensures forall i :: 0 <= i < |claims| ==>
        IsClaim(files, claims[i].jti) && files.sidecars[claims[i].jti].record == claims[i]
      ensures forall jti :: IsClaim(files, jti) ==> files.sidecars[jti].record in claims
      ensures forall i, j :: 0 <= i < j < |claims| ==> claims[i].jti != claims[j].jti
    {
      claims := [];
      var entries := files.sidecars.Keys;
      while entries != {}
        invariant entries <= files.sidecars.Keys
        invariant forall i :: 0 <= i < |claims| ==>
          && claims[i].jti in files.sidecars.Keys - entries
          && files.sidecars[claims[i].jti] == Parsed(claims[i])
        invariant forall jti :: IsClaim(files, jti) && jti !in entries ==> files.sidecars[jti].record in claims
        invariant forall i, j :: 0 <= i < j < |claims| ==> claims[i].jti != claims[j].jti
        decreases |entries|
      {
        var entry :| entry in entries;
        entries := entries - {entry};
        if files.sidecars[entry].Parsed? {
          assert IsClaim(files, entry) && Owns(files, digest, entry);
          claims := claims + [files.sidecars[entry].record];
        }
      }
    }

    /** The paths of claims younger than `ttl`, each with the claim's jti. */
    method IterActiveByBundlePath(now: int, ttl: int) returns (active: map<string, string>)
      requires Valid()
      ensures forall path :: path in active ==>
        IsClaim(files, active[path]) && ActiveFor(files.sidecars[active[path]].record, path, now, ttl)
      ensures forall jti :: IsClaim(files, jti) && ActiveFor(
        files.sidecars[jti].record, files.sidecars[jti].record.bundlePath, now, ttl) ==>
          files.sidecars[jti].record.bundlePath in active
    {
      active := map[];
      var claims := IterAll();
      var i := 0;
      while i < |claims|
        invariant i <= |claims|
        invariant forall path :: path in active ==>
          IsClaim(files, active[path]) && ActiveFor(files.sidecars[active[path]].record, path, now, ttl)
        invariant forall k :: 0 <= k < i && ActiveFor(claims[k], claims[k].bundlePath, now, ttl) ==>
          claims[k].bundlePath in active
      {
        var claim := claims[i];
        if claim.createdAt.Some? && now - claim.createdAt.value < ttl {
          active := active[claim.bundlePath := claim.jti];
        }
        i := i + 1;
      }
    }
  }

  predicate NeverDies(disk: nat -> Outcome) {
    forall i :: 0 <= i <= 5 ==> !disk(i).Dies?
  }

  predicate ActiveFor(claim: ClaimRecord, path: string, now: int, ttl: int) {
    claim.bundlePath == path && claim.createdAt.Some? && now - claim.createdAt.value < ttl
  }

  // ---- The lock invariant ----------------------------------------------------

  /** Every claim owns the lock of its path's digest. */
  ghost predicate Inv(s: ClaimFiles, digest: string -> Digest) {
    forall jti :: IsClaim(s, jti) ==> Owns(s, digest, jti)
  }

  predicate Owns(s: ClaimFiles, digest: string -> Digest, jti: string)
    requires IsClaim(s, jti)
  {
    var record := s.sidecars[jti].record;
    record.jti == jti && digest(record.bundlePath) in s.locks && s.locks[digest(record.bundlePath)] == Some(jti)
  }

  datatype Step =
    | IssueStep(claim: ClaimRecord)
    | MarkStep(jti: string, name: string)
    | DeleteStep(jti: string)
    | CrashedMark(jti: string)

  /** One call, with every way it can end. */
  predicate Moves(s: ClaimFiles, digest: string -> Digest, step: Step, r: ClaimFiles) {
    match step
    case IssueStep(claim) => IssueLeaves(s, digest(claim.bundlePath), claim, r)
    case MarkStep(jti, name) => if IsClaim(s, jti) then r == WithFetched(s, jti, name) else r == s
    case CrashedMark(jti) => r == s.(temps := s.temps + {jti})
    case DeleteStep(jti) => r == WithoutClaim(s, digest, jti)
  }

  /** A run: the states between the calls. */
  predicate IsRun(states: seq<ClaimFiles>, digest: string -> Digest, steps: seq<Step>) {
    && |states| == |steps| + 1 && states[0] == ClaimFiles(map[], map[], {})
    && forall i :: 0 <= i < |steps| ==> Moves(states[i], digest, steps[i], states[i + 1])
  }

  lemma IssueKeepsInv(s: ClaimFiles, digest: string -> Digest, claim: ClaimRecord, r: ClaimFiles)
    requires Inv(s, digest) && IssueLeaves(s, digest(claim.bundlePath), claim, r)
    ensures Inv(r, digest)
  {
    forall jti | IsClaim(r, jti)
      ensures Owns(r, digest, jti)
    {
      if jti != claim.jti || r.sidecars == s.sidecars { assert IsClaim(s, jti) && Owns(s, digest, jti); }
    }
  }

  lemma DeleteKeepsInv(s: ClaimFiles, digest: string -> Digest, gone: string)
    requires Inv(s, digest)
    ensures Inv(WithoutClaim(s, digest, gone), digest)
  {
    forall jti | IsClaim(WithoutClaim(s, digest, gone), jti)
      ensures Owns(WithoutClaim(s, digest, gone), digest, jti)
    {
      assert IsClaim(s, jti) && Owns(s, digest, jti);
      if IsClaim(s, gone) { assert Owns(s, digest, gone); }
    }
  }

  lemma TempsDoNotMatter(s: ClaimFiles, digest: string -> Digest, temps: set<string>)
    requires Inv(s, digest)
    ensures Inv(s.(temps := temps), digest)
  {
    forall jti | IsClaim(s.(temps := temps), jti)
      ensures Owns(s.(temps := temps), digest, jti)
    {
      assert IsClaim(s, jti) && Owns(s, digest, jti);
    }
  }

  lemma MoveKeepsInv(s: ClaimFiles, digest: string -> Digest, step: Step, r: ClaimFiles)
    requires Inv(s, digest) && Moves(s, digest, step, r)
    ensures Inv(r, digest)
  {
    match step
    case IssueStep(claim) => IssueKeepsInv(s, digest, claim, r);
    case DeleteStep(jti) => DeleteKeepsInv(s, digest, jti);
    case MarkStep(marked, name) =>
      forall jti | IsClaim(r, jti)
        ensures Owns(r, digest, jti)
      {
        assert IsClaim(s, jti) && Owns(s, digest, jti);
      }
    case CrashedMark(marked) => TempsDoNotMatter(s, digest, r.temps);
  }

  lemma {:induction false} RunKeepsInv(states: seq<ClaimFiles>, digest: string -> Digest, steps: seq<Step>, n: nat)
    requires IsRun(states, digest, steps) && n <= |steps|
    ensures Inv(states[n], digest)
  {
    if n > 0 {
      RunKeepsInv(states, digest, steps, n - 1);
      MoveKeepsInv(states[n - 1], digest, steps[n - 1], states[n]);
    }
  }

  /** Whatever calls were made and wherever an issue stopped: one claim per digest, and so per path. */
  lemma AtMostOneClaimPerPath(
      states: seq<ClaimFiles>, digest: string -> Digest, steps: seq<Step>, n: nat, a: string, b: string)
    requires IsRun(states, digest, steps) && n <= |steps|
    requires IsClaim(states[n], a) && IsClaim(states[n], b)
    requires digest(states[n].sidecars[a].record.bundlePath) == digest(states[n].sidecars[b].record.bundlePath)
    ensures a == b
  {
    RunKeepsInv(states, digest, steps, n);
    assert Owns(states[n], digest, a) && Owns(states[n], digest, b);
  }

  /** A path that is listed as claimed cannot be claimed again, by a claim of any jti. */
  lemma ListedPathsAreRefused(
      states: seq<ClaimFiles>, digest: string -> Digest, steps: seq<Step>, n: nat, jti: string, other: string)
    requires IsRun(states, digest, steps) && n <= |steps| && IsClaim(states[n], jti)
    ensures !CanIssue(states[n], digest(states[n].sidecars[jti].record.bundlePath), other)
  {
    RunKeepsInv(states, digest, steps, n);
    assert Owns(states[n], digest, jti);
  }

  // ---- Without crashes -------------------------------------------------------

  /** Sidecars and locks correspond one to one. */
  ghost predicate OneToOne(s: ClaimFiles, digest: string -> Digest) {
    && Inv(s, digest)
    && (forall jti :: jti in s.sidecars ==> s.sidecars[jti].Parsed?)
    && (forall d :: d in s.locks ==> OwnedLock(s, digest, d))
  }

  predicate OwnedLock(s: ClaimFiles, digest: string -> Digest, d: Digest)
    requires d in s.locks
  {
    && s.locks[d].Some? && IsClaim(s, s.locks[d].value)
    && digest(s.sidecars[s.locks[d].value].record.bundlePath) == d
  }

  /** No issue in part: neither a crash inside it nor a refused sidecar left anything behind. */
  predicate Clean(s: ClaimFiles, digest: string -> Digest, step: Step, r: ClaimFiles) {
    step.IssueStep? ==> r == s || r == WithClaim(s, digest(step.claim.bundlePath), step.claim)
  }

  lemma IssueKeepsOneToOneIff(s: ClaimFiles, digest: string -> Digest, claim: ClaimRecord, r: ClaimFiles)
    requires OneToOne(s, digest) && IssueLeaves(s, digest(claim.bundlePath), claim, r)
    ensures OneToOne(r, digest) <==> Clean(s, digest, IssueStep(claim), r)
  {
    var d := digest(claim.bundlePath);
    IssueKeepsInv(s, digest, claim, r);
    if r == s || r == WithClaim(s, d, claim) {
      forall e | e in r.locks
        ensures OwnedLock(r, digest, e)
      {
        if e in s.locks { assert OwnedLock(s, digest, e); }
      }
    } else if IsClaim(s, claim.jti) {
      assert Owns(s, digest, claim.jti);
      assert !OwnedLock(r, digest, d);
    } else {
      assert d in r.locks && !OwnedLock(r, digest, d);
    }
  }

  /** Given the correspondence, a call keeps it exactly if it is not an issue that stopped in between. */
  lemma MoveKeepsOneToOneIff(s: ClaimFiles, digest: string -> Digest, step: Step, r: ClaimFiles)
    requires OneToOne(s, digest) && Moves(s, digest, step, r)
    ensures OneToOne(r, digest) <==> Clean(s, digest, step, r)
  {
    if step.IssueStep? {
      IssueKeepsOneToOneIff(s, digest, step.claim, r);
    } else {
      MoveKeepsInv(s, digest, step, r);
      forall d | d in r.locks
        ensures OwnedLock(r, digest, d)
      {
        assert OwnedLock(s, digest, d);
      }
    }
  }

  ghost predicate OneToOneUpTo(states: seq<ClaimFiles>, digest: string -> Digest, n: nat)
    requires n < |states|
  {
    forall i :: 0 <= i <= n ==> OneToOne(states[i], digest)
  }

  predicate CleanUpTo(states: seq<ClaimFiles>, digest: string -> Digest, steps: seq<Step>, n: nat)
    requires n <= |steps| < |states|
  {
    forall i :: 0 <= i < n ==> Clean(states[i], digest, steps[i], states[i + 1])
  }

  /** So locks and sidecars correspond throughout a run exactly if every issue is carried out or undone. */
  lemma {:induction false} CleanRunsAreOneToOne(
      states: seq<ClaimFiles>, digest: string -> Digest, steps: seq<Step>, n: nat)
    requires IsRun(states, digest, steps) && n <= |steps|
    ensures OneToOneUpTo(states, digest, n) <==> CleanUpTo(states, digest, steps, n)
  {
    if n > 0 {
      CleanRunsAreOneToOne(states, digest, steps, n - 1);
      OneMoreMove(states, digest, steps, n - 1);
    }
  }

  lemma OneMoreMove(states: seq<ClaimFiles>, digest: string -> Digest, steps: seq<Step>, n: nat)
    requires IsRun(states, digest, steps) && n < |steps|
    ensures OneToOne(states[n], digest) ==>
      (OneToOne(states[n + 1], digest) <==> Clean(states[n], digest, steps[n], states[n + 1]))
  {
    if OneToOne(states[n], digest) { MoveKeepsOneToOneIff(states[n], digest, steps[n], states[n + 1]); }
  }

  /** An operating-system error other than "file exists" on creating the sidecar leaves its lock. */
  lemma FailedCreateLeaksTheLock(s: ClaimFiles, digest: string -> Digest, claim: ClaimRecord)
    requires OneToOne(s, digest) && CanIssue(s, digest(claim.bundlePath), claim.jti)
    ensures
      var r := WithLock(s, digest(claim.bundlePath), Some(claim.jti));
      && IssueLeaves(s, digest(claim.bundlePath), claim, r) && Inv(r, digest) && !OneToOne(r, digest)
      && forall other :: !CanIssue(r, digest(claim.bundlePath), other)
  {
    var r := WithLock(s, digest(claim.bundlePath), Some(claim.jti));
    IssueKeepsInv(s, digest, claim, r);
    assert !OwnedLock(r, digest, digest(claim.bundlePath));
  }

  /** A delete that stops between its two removals would let one path be claimed twice. */
  lemma InterruptedDeleteAllowsASecondClaim(
      s: ClaimFiles, digest: string -> Digest, jti: string, claim: ClaimRecord)
    requires Inv(s, digest) && IsClaim(s, jti) && claim.jti !in s.sidecars
    requires claim.bundlePath == s.sidecars[jti].record.bundlePath
    ensures
      var d := digest(claim.bundlePath);
      var interrupted := s.(locks := s.locks - {d});
      && CanIssue(interrupted, d, claim.jti)
      && IsClaim(WithClaim(interrupted, d, claim), jti) && IsClaim(WithClaim(interrupted, d, claim), claim.jti)
      && !Inv(WithClaim(interrupted, d, claim), digest)
  {
    var d := digest(claim.bundlePath);
    var r := WithClaim(s.(locks := s.locks - {d}), d, claim);
    assert IsClaim(r, jti) && !Owns(r, digest, jti);
  }
}
