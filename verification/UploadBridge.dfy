/** One upload on one event loop: the pump, the bounded queue, the parser thread and the handler. */
module UploadBridge {
  import opened Streaming

  /**
   * What the parser does with the body: of `items` queue items (the non-empty chunks and the end
   * mark) it has taken `taken(j)` when it asks the loop for its write `j`, and `taken(asks)` when
   * it leaves, accepting the archive or raising.
   */
  datatype Plan = Plan(items: nat, taken: nat -> nat, asks: nat, accepts: bool)

  ghost predicate ValidPlan(p: Plan) {
    && (forall j: nat :: j <= p.asks ==> p.taken(j) <= p.items)
    && (forall i: nat, j: nat :: i <= j <= p.asks ==> p.taken(i) <= p.taken(j))
  }

  datatype Parser = Working | Asking | Gone

  datatype Handler = Waiting | Joining | Finished

  /** `blocked`: the loop's thread sits in the pump's `put`, so that nothing else runs on the loop. */
  datatype State = State(
    queued: nat, toPut: nat, blocked: bool, got: nat, point: nat, parser: Parser, handler: Handler)

  datatype Step =
    | Put        // the loop runs the pump: one item into the queue, or into a `put` that blocks
    | Unblock    // a place got free, and the `put` returns
    | Take       // the parser takes an item
    | Ask        // the parser hands a write to the loop and waits for it
    | Serve      // the loop carries out the write
    | Leave      // the parser returns or raises
    | Resume     // the handler runs again: it joins the pump, after cancelling it if the parser raised
    | ResumeUnstarted // the same, cancelling a pump that has not run yet
    | Conclude   // the pump is done: the handler commits or aborts

  function Start(p: Plan): State {
    State(0, p.items, false, 0, 0, Working, Waiting)
  }

  predicate Enabled(p: Plan, s: State, step: Step) {
    match step
    case Put => !s.blocked && s.toPut > 0
    case Unblock => s.blocked && s.queued < QUEUE_SIZE
    case Take => s.parser.Working? && s.got < p.taken(s.point) && s.queued > 0
    case Ask => s.parser.Working? && s.point < p.asks && s.got == p.taken(s.point)
    case Serve => !s.blocked && s.parser.Asking?
    case Leave => s.parser.Working? && s.point == p.asks && s.got == p.taken(s.point)
    case Resume => !s.blocked && s.parser.Gone? && s.handler.Waiting?
    case ResumeUnstarted => !s.blocked && s.parser.Gone? && s.handler.Waiting? && !p.accepts && s.toPut == p.items
    case Conclude => !s.blocked && s.handler.Joining? && s.toPut == 0
  }

  /** A cancelled pump puts nothing more but the end mark. */
  function Next(p: Plan, s: State, step: Step): State {
    match step
    case Put => if s.queued < QUEUE_SIZE then Landed(s) else s.(blocked := true)
    case Unblock => Landed(s).(blocked := false)
    case Take => s.(queued := if s.queued > 0 then s.queued - 1 else 0, got := s.got + 1)
    case Ask => s.(parser := Asking)
    case Serve => s.(parser := Working, point := s.point + 1)
    case Leave => s.(parser := Gone)
    case Resume => s.(handler := Joining, toPut := if p.accepts || s.toPut <= 1 then s.toPut else 1)
    case ResumeUnstarted => s.(handler := Joining, toPut := 0)
    case Conclude => s.(handler := Finished)
  }

  function Landed(s: State): State {
    s.(queued := s.queued + 1, toPut := if s.toPut > 0 then s.toPut - 1 else 0)
  }

  predicate CanRun(p: Plan, s: State, steps: seq<Step>)
    decreases |steps|
  {
    steps == [] || (Enabled(p, s, steps[0]) && CanRun(p, Next(p, s, steps[0]), steps[1..]))
  }

  function Run(p: Plan, s: State, steps: seq<Step>): State
    decreases |steps|
  {
    if steps == [] then s else Run(p, Next(p, s, steps[0]), steps[1..])
  }

  ghost predicate Reachable(p: Plan, s: State) {
    exists steps :: CanRun(p, Start(p), steps) && Run(p, Start(p), steps) == s
  }

  /** The request never ends: nothing can happen any more. */
  ghost predicate Hangs(p: Plan, s: State) {
    !s.handler.Finished? && forall step :: !Enabled(p, s, step)
  }

  /** When the parser waits or leaves at this point, the rest of the body does not fit the queue of eight. */
  predicate Overfull(p: Plan, j: nat) {
    p.items > p.taken(j) + 8
  }

  /** At every write and at the end, what is not taken yet fits the queue. */
  ghost predicate Fits(p: Plan) {
    forall j: nat :: j <= p.asks ==> !Overfull(p, j)
  }

  // ---- Every step ------------------------------------------------------------

  predicate Inv(p: Plan, s: State) {
    && s.queued <= QUEUE_SIZE && s.point <= p.asks
    && s.queued + s.toPut + s.got <= p.items
    && (s.handler.Waiting? || p.accepts ==> s.queued + s.toPut + s.got == p.items)
    && (s.blocked ==> s.toPut > 0)
    && s.got <= p.taken(s.point) && (!s.parser.Working? ==> s.got == p.taken(s.point))
    && (s.parser.Asking? ==> s.point < p.asks) && (s.parser.Gone? ==> s.point == p.asks)
    && (!s.handler.Waiting? ==> s.parser.Gone?)
    && (s.handler.Finished? ==> s.toPut == 0 && !s.blocked)
  }

  lemma NextKeepsInv(p: Plan, s: State, step: Step)
    requires ValidPlan(p) && Inv(p, s) && Enabled(p, s, step)
    ensures Inv(p, Next(p, s, step))
  {
    if step.Serve? { assert p.taken(s.point) <= p.taken(s.point + 1); }
  }

  lemma {:induction false} RunKeepsInv(p: Plan, s: State, steps: seq<Step>)
    requires ValidPlan(p) && Inv(p, s) && CanRun(p, s, steps)
    ensures Inv(p, Run(p, s, steps))
    decreases |steps|
  {
    if steps != [] {
      NextKeepsInv(p, s, steps[0]);
      RunKeepsInv(p, Next(p, s, steps[0]), steps[1..]);
    }
  }

  lemma ReachableInv(p: Plan, s: State)
    requires ValidPlan(p) && Reachable(p, s)
    ensures Inv(p, s)
  {
    var steps :| CanRun(p, Start(p), steps) && Run(p, Start(p), steps) == s;
    assert p.taken(0) <= p.items;
    RunKeepsInv(p, Start(p), steps);
  }

  // ---- Runs end ----------------------------------------------------------------

  function Remaining(p: Plan, s: State): int {
    3 * s.toPut + (if s.blocked then 0 else 1)
    + (p.items - s.got) + 2 * (p.asks - s.point) + (if s.parser.Working? then 1 else 0)
    + (if s.handler.Waiting? then 2 else if s.handler.Joining? then 1 else 0)
  }

  lemma NextUsesUp(p: Plan, s: State, step: Step)
    requires ValidPlan(p) && Inv(p, s) && Enabled(p, s, step)
    ensures 0 <= Remaining(p, Next(p, s, step)) < Remaining(p, s)
  {
    NextKeepsInv(p, s, step);
    assert p.taken(s.point) <= p.items;
  }

  /** No schedule goes on for ever. */
  lemma {:induction false} RunsAreShort(p: Plan, s: State, steps: seq<Step>)
    requires ValidPlan(p) && Inv(p, s) && CanRun(p, s, steps)
    ensures |steps| <= Remaining(p, s)
    decreases |steps|
  {
    if steps != [] {
      NextUsesUp(p, s, steps[0]);
      NextKeepsInv(p, s, steps[0]);
      RunsAreShort(p, Next(p, s, steps[0]), steps[1..]);
    } else {
      assert p.taken(s.point) <= p.items;
    }
  }

  // ---- Where a run can hang ------------------------------------------------------

  /** A run hangs only where the parser waits or has left, with more to come than the queue takes. */
  lemma HangsOnlyIfOverfull(p: Plan, s: State)
    requires ValidPlan(p) && Reachable(p, s) && Hangs(p, s)
    ensures s.blocked && !s.parser.Working? && s.point <= p.asks && Overfull(p, s.point)
  {
    ReachableInv(p, s);
    assert !Enabled(p, s, Put) && !Enabled(p, s, Unblock) && !Enabled(p, s, Take) && !Enabled(p, s, Ask);
    assert !Enabled(p, s, Serve) && !Enabled(p, s, Leave) && !Enabled(p, s, Resume) && !Enabled(p, s, Conclude);
    assert p.taken(s.point) <= p.items;
  }

  lemma {:induction false} RunThenRun(p: Plan, s: State, a: seq<Step>, b: seq<Step>)
    requires CanRun(p, s, a) && CanRun(p, Run(p, s, a), b)
    ensures CanRun(p, s, a + b) && Run(p, s, a + b) == Run(p, Run(p, s, a), b)
    decreases |a|
  {
    if a == [] {
      assert a + b == b;
    } else {
      assert (a + b)[1..] == a[1..] + b;
      RunThenRun(p, Next(p, s, a[0]), a[1..], b);
    }
  }

  lemma StepOn(p: Plan, s: State, step: Step)
    requires Reachable(p, s) && Enabled(p, s, step)
    ensures Reachable(p, Next(p, s, step))
  {
    var steps :| CanRun(p, Start(p), steps) && Run(p, Start(p), steps) == s;
    assert [step][1..] == [];
    assert CanRun(p, Next(p, s, step), []) && Run(p, Next(p, s, step), []) == Next(p, s, step);
    assert CanRun(p, s, [step]) && Run(p, s, [step]) == Next(p, s, step);
    RunThenRun(p, Start(p), steps, [step]);
  }

  /** The schedule that gives the parser each item as it needs it. */
  function InStep(p: Plan, j: nat, got: nat): State {
    State(0, if got <= p.items then p.items - got else 0, false, got, j, Working, Waiting)
  }

  lemma {:induction false} TakesInStep(p: Plan, j: nat, got: nat, n: nat)
    requires ValidPlan(p) && j <= p.asks && got + n <= p.taken(j) && Reachable(p, InStep(p, j, got))
    ensures Reachable(p, InStep(p, j, got + n))
    decreases n
  {
    if n > 0 {
      var s := InStep(p, j, got);
      assert p.taken(j) <= p.items;
      StepOn(p, s, Put);
      StepOn(p, Next(p, s, Put), Take);
      assert Next(p, Next(p, s, Put), Take) == InStep(p, j, got + 1);
      TakesInStep(p, j, got + 1, n - 1);
    }
  }

  lemma {:induction false} ReachesPoint(p: Plan, j: nat)
    requires ValidPlan(p) && j <= p.asks
    ensures Reachable(p, InStep(p, j, p.taken(j)))
  {
    if j == 0 {
      assert CanRun(p, Start(p), []) && Run(p, Start(p), []) == Start(p) == InStep(p, 0, 0);
      TakesInStep(p, 0, 0, p.taken(0));
    } else {
      ReachesPoint(p, j - 1);
      var s := InStep(p, j - 1, p.taken(j - 1));
      StepOn(p, s, Ask);
      StepOn(p, Next(p, s, Ask), Serve);
      assert Next(p, Next(p, s, Ask), Serve) == InStep(p, j, p.taken(j - 1));
      assert p.taken(j - 1) <= p.taken(j);
      TakesInStep(p, j, p.taken(j - 1), p.taken(j) - p.taken(j - 1));
    }
  }

  /** While the parser waits or is gone, the pump fills the queue. */
  lemma {:induction false} FillsUp(p: Plan, s: State, n: nat) returns (r: State)
    requires Reachable(p, s) && !s.blocked && s.queued + n <= QUEUE_SIZE && s.toPut >= n
    ensures Reachable(p, r) && r == s.(queued := s.queued + n, toPut := s.toPut - n)
    decreases n
  {
    if n == 0 {
      r := s;
    } else {
      StepOn(p, s, Put);
      r := FillsUp(p, Next(p, s, Put), n - 1);
    }
  }

  /** Wherever the rest of the body does not fit the queue, some schedule hangs, at a write or at the end. */
  lemma HangIsReachable(p: Plan, j: nat) returns (r: State)
    requires ValidPlan(p) && j <= p.asks && Overfull(p, j)
    ensures Reachable(p, r) && Hangs(p, r) && r.point == j && r.parser == (if j < p.asks then Asking else Gone)
  {
    ReachesPoint(p, j);
    var s := InStep(p, j, p.taken(j));
    var waits := if j < p.asks then Ask else Leave;
    StepOn(p, s, waits);
    var full := FillsUp(p, Next(p, s, waits), QUEUE_SIZE);
    StepOn(p, full, Put);
    r := Next(p, full, Put);
    forall step
      ensures !Enabled(p, r, step)
    {
      match step
      case Put =>
      case _ =>
    }
  }

  /** So a body is safe under every schedule if and only if at no wait more is to come than the queue takes. */
  lemma NoScheduleHangsIff(p: Plan)
    requires ValidPlan(p)
    ensures (forall s :: Reachable(p, s) ==> !Hangs(p, s)) <==> Fits(p)
  {
    forall s | Reachable(p, s) && Hangs(p, s)
      ensures !Fits(p)
    {
      HangsOnlyIfOverfull(p, s);
    }
    if j: nat :| j <= p.asks && Overfull(p, j) { var r := HangIsReachable(p, j); }
  }

  /** In particular a body whose non-empty chunks and end mark fit the queue is. */
  lemma ShortBodiesFit(p: Plan)
    requires p.items <= QUEUE_SIZE
    ensures Fits(p)
  {
  }

  /** A pump that is cancelled before it has run puts nothing, and the handler goes on at once. */
  lemma CancelledUnstarted(p: Plan, s: State)
    requires Enabled(p, s, ResumeUnstarted)
    ensures
      var r := Next(p, s, ResumeUnstarted);
      r.queued == s.queued && Enabled(p, r, Conclude) && !Enabled(p, r, Put)
  {
  }

  /** An accepted archive with more behind it than the queue takes never ends, whatever the schedule. */
  lemma LongPaddingNeverEnds(p: Plan, s: State)
    requires ValidPlan(p) && p.accepts && Overfull(p, p.asks) && Reachable(p, s)
    ensures !s.handler.Finished?
  {
    ReachableInv(p, s);
  }

  // ---- How a request ends ----------------------------------------------------------

  /** It comes to its commit or abort, or it hangs at a write or after the last one. */
  datatype Stop = Never | AtWrite(j: nat) | AtEnd

  /** Some schedule brings this about. */
  ghost predicate Possible(p: Plan, stop: Stop) {
    exists s :: Reachable(p, s) && StopsSo(p, s, stop)
  }

  ghost predicate StopsSo(p: Plan, s: State, stop: Stop) {
    match stop
    case Never => s.handler.Finished?
    case AtWrite(j) => Hangs(p, s) && s.parser.Asking? && s.point == j
    case AtEnd => Hangs(p, s) && s.parser.Gone?
  }

  /** Exactly the overfull waits can be where it stops. */
  lemma PossibleIff(p: Plan, stop: Stop)
    requires ValidPlan(p)
    ensures stop.AtWrite? ==> (Possible(p, stop) <==> stop.j < p.asks && Overfull(p, stop.j))
    ensures stop.AtEnd? ==> (Possible(p, stop) <==> Overfull(p, p.asks))
    ensures stop.Never? ==> (Possible(p, stop) <==> !p.accepts || !Overfull(p, p.asks))
  {
    forall s | Reachable(p, s) && StopsSo(p, s, stop)
      ensures stop.AtWrite? ==> stop.j < p.asks && Overfull(p, stop.j)
      ensures stop.AtEnd? ==> Overfull(p, p.asks)
      ensures stop.Never? && p.accepts ==> !Overfull(p, p.asks)
    {
      ReachableInv(p, s);
      if !stop.Never? { HangsOnlyIfOverfull(p, s); }
    }
    if stop.AtWrite? && stop.j < p.asks && Overfull(p, stop.j) { var r := HangIsReachable(p, stop.j); }
    if stop.AtEnd? && Overfull(p, p.asks) { var r := HangIsReachable(p, p.asks); }
    if stop.Never? && (!p.accepts || !Overfull(p, p.asks)) {
      var r := EndIsReachable(p);
      assert StopsSo(p, r, stop);
    }
  }

  /** A pump that is cancelled, or whose rest fits the queue, lets the request end under some schedule. */
  lemma EndIsReachable(p: Plan) returns (r: State)
    requires ValidPlan(p) && (!p.accepts || !Overfull(p, p.asks))
    ensures Reachable(p, r) && r.handler.Finished?
  {
    ReachesPoint(p, p.asks);
    var s := InStep(p, p.asks, p.taken(p.asks));
    assert p.taken(p.asks) <= p.items;
    StepOn(p, s, Leave);
    var left := Next(p, s, Leave);
    StepOn(p, left, Resume);
    var joining := Next(p, left, Resume);
    var full := FillsUp(p, joining, joining.toPut);
    StepOn(p, full, Conclude);
    r := Next(p, full, Conclude);
  }

  /** Every run can be carried on until the request has ended or hangs. */
  lemma {:induction false} CarriesOn(p: Plan, s: State) returns (stop: Stop)
    requires ValidPlan(p) && Reachable(p, s)
    ensures Possible(p, stop)
    decreases Remaining(p, s)
  {
    ReachableInv(p, s);
    if s.handler.Finished? {
      stop := Never;
      assert StopsSo(p, s, stop);
    } else if step :| Enabled(p, s, step) {
      NextUsesUp(p, s, step);
      StepOn(p, s, step);
      stop := CarriesOn(p, Next(p, s, step));
    } else {
      HangsOnlyIfOverfull(p, s);
      stop := if s.parser.Asking? then AtWrite(s.point) else AtEnd;
      assert StopsSo(p, s, stop);
    }
  }

  /** So a body that fits always comes to its end, and any other body need not. */
  lemma AlwaysEndsIff(p: Plan)
    requires ValidPlan(p)
    ensures (forall stop :: Possible(p, stop) ==> stop.Never?) <==> Fits(p)
    ensures Fits(p) ==> Possible(p, Never)
  {
    assert CanRun(p, Start(p), []) && Run(p, Start(p), []) == Start(p);
    var some := CarriesOn(p, Start(p));
    forall stop | Possible(p, stop) && !stop.Never?
      ensures !Fits(p)
    {
      PossibleIff(p, stop);
    }
    if j: nat :| j <= p.asks && Overfull(p, j) {
      var stop := if j < p.asks then AtWrite(j) else AtEnd;
      PossibleIff(p, stop);
    }
  }
}
