/** The world both dial schedulers act on: a clock in milliseconds, the dial context, and the attempt
    goroutines, which are written identically in connect_dial.go and connect_dial_incremental.go.
    An attempt opens at most one connection, identified by the attempt's index. */
module Attempts {
  import opened Net

  const FALLBACK_DELAY := 250
  const MINIMUM_DELAY := 100
  const ATTEMPT_TIMEOUT := 5000

  datatype Result = Conn | Fail(error: DialError)

  /** Dialling; blocked handing over a result; result received by the scheduler; gave up on ctx.Done(). */
  datatype Phase = Dialling | Offering(result: Result) | Received(result: Result) | Abandoned

  datatype Attempt = Attempt(address: Address, startedAt: nat, phase: Phase, hasConn: bool, closes: nat)

  datatype World = World(now: nat, ctx: Option<DialError>, attempts: seq<Attempt>)

  datatype WorldStep =
    | Tick(elapsed: nat)
    | ContextEnds(error: DialError)
    | DialReturns(i: nat, conn: bool, dialError: Option<DialError>, attemptError: Option<DialError>)
    | Abandon(i: nat)

  predicate WorldEnabled(w: World, l: WorldStep) {
    match l
    case Tick(elapsed) => elapsed > 0
    case ContextEnds(_) => w.ctx.None?
    case DialReturns(i, _, _, attemptError) =>
      i < |w.attempts| && w.attempts[i].phase.Dialling? &&
      (attemptError.Some? ==> w.ctx.Some? || w.now >= w.attempts[i].startedAt + ATTEMPT_TIMEOUT)
    case Abandon(i) =>
      i < |w.attempts| && w.attempts[i].phase.Offering? && w.ctx.Some?
  }

  /** The attempt goroutine between the dial returning and the select. */
  function AfterDial(a: Attempt, conn: bool, error: Option<DialError>, attemptError: Option<DialError>): Attempt {
    var err := if attemptError.Some? then attemptError else error;
    var result := if err.Some? then Fail(err.value) else if conn then Conn else Fail(TargetConnectionFailed);
    Attempt(a.address, a.startedAt, Offering(result), conn, if err.Some? && conn then a.closes + 1 else a.closes)
  }

  function Closed(a: Attempt): Attempt {
    a.(closes := a.closes + 1)
  }

  function WorldApply(w: World, l: WorldStep): World
    requires WorldEnabled(w, l)
  {
    match l
    case Tick(elapsed) => w.(now := w.now + elapsed)
    case ContextEnds(e) => w.(ctx := Some(e))
    case DialReturns(i, conn, error, attemptError) =>
      w.(attempts := w.attempts[i := AfterDial(w.attempts[i], conn, error, attemptError)])
    case Abandon(i) =>
      var a := w.attempts[i];
      var b := if a.phase.result.Conn? then Closed(a) else a;
      w.(attempts := w.attempts[i := b.(phase := Abandoned)])
  }

  // ---------- What the schedulers do to the world ----------

  function Launched(w: World, address: Address): World {
    w.(attempts := w.attempts + [Attempt(address, w.now, Dialling, false, 0)])
  }

  predicate Offers(w: World, i: nat) {
    i < |w.attempts| && w.attempts[i].phase.Offering?
  }

  function Offer(w: World, i: nat): Result
    requires Offers(w, i)
  {
    w.attempts[i].phase.result
  }

  function Taken(w: World, i: nat): World
    requires Offers(w, i)
  {
    w.(attempts := w.attempts[i := w.attempts[i].(phase := Received(Offer(w, i)))])
  }

  /** Receiving a connection after the context ended: the scheduler closes it itself. */
  function TakenAndClosed(w: World, i: nat): World
    requires Offers(w, i)
  {
    w.(attempts := w.attempts[i := Closed(w.attempts[i]).(phase := Received(Offer(w, i)))])
  }

  /** The deferred cancel(). */
  function CancelledWorld(w: World): World {
    w.(ctx := if w.ctx.Some? then w.ctx else Some(Canceled))
  }

  datatype Outcome = Connected(attempt: nat) | ContextEnded(error: Error) | Exhausted(error: Error)

  // ---------- Connection ownership ----------

  /** Closed connections were closed once; a connection still on offer, or handed to the caller, never. */
  predicate Owned(a: Attempt, returned: bool) {
    match a.phase
    case Dialling => !a.hasConn && a.closes == 0
    case Offering(Conn) => a.hasConn && a.closes == 0
    case Received(Conn) => a.hasConn && a.closes == (if returned then 0 else 1)
    case _ => a.closes == (if a.hasConn then 1 else 0)
  }

  predicate Ended(a: Attempt) {
    a.phase.Received? || a.phase.Abandoned?
  }

  /** Nobody has received attempt i's result, or its connection went to exactly the stated place. */
  predicate Ownership(w: World, outcome: Option<Outcome>) {
    (forall i :: 0 <= i < |w.attempts| ==> Owned(w.attempts[i], outcome == Some(Connected(i)))) &&
    (forall i :: 0 <= i < |w.attempts| && w.attempts[i].phase == Received(Conn) ==>
       outcome.Some? && (outcome.value == Connected(i) || outcome.value.ContextEnded?)) &&
    (outcome.Some? && outcome.value.Connected? ==>
       outcome.value.attempt < |w.attempts| && w.attempts[outcome.value.attempt].phase == Received(Conn)) &&
    (forall i :: 0 <= i < |w.attempts| && w.attempts[i].phase.Abandoned? ==> w.ctx.Some?)
  }

  lemma WorldKeepsOwnership(w: World, l: WorldStep, outcome: Option<Outcome>)
    requires WorldEnabled(w, l) && Ownership(w, outcome)
    ensures Ownership(WorldApply(w, l), outcome)
  {
  }

  // ---------- Counting ----------

  /** Received results among the first n attempts. */
  function CountReceived(attempts: seq<Attempt>, n: nat): nat
    requires n <= |attempts|
  {
    if n == 0 then 0 else CountReceived(attempts, n - 1) + (if attempts[n - 1].phase.Received? then 1 else 0)
  }

  /** How far an attempt goroutine has got. */
  function PhaseRank(p: Phase): nat {
    match p
    case Dialling => 0
    case Offering(_) => 1
    case _ => 2
  }

  function Ranks(attempts: seq<Attempt>, n: nat): nat
    requires n <= |attempts|
  {
    if n == 0 then 0 else Ranks(attempts, n - 1) + PhaseRank(attempts[n - 1].phase)
  }

  lemma {:induction false} CountUpdate(attempts: seq<Attempt>, n: nat, i: nat, a: Attempt)
    requires n <= |attempts| && i < |attempts|
    ensures CountReceived(attempts[i := a], n) == CountReceived(attempts, n) +
              (if i >= n then 0 else (if a.phase.Received? then 1 else 0) - (if attempts[i].phase.Received? then 1 else 0))
    ensures Ranks(attempts[i := a], n) == Ranks(attempts, n) +
              (if i >= n then 0 else PhaseRank(a.phase) - PhaseRank(attempts[i].phase))
  {
    if n > 0 { CountUpdate(attempts, n - 1, i, a); }
  }

  lemma {:induction false} CountBounds(attempts: seq<Attempt>, n: nat)
    requires n <= |attempts|
    ensures CountReceived(attempts, n) <= n && Ranks(attempts, n) <= 2 * n
    ensures CountReceived(attempts, n) == n <==> forall i :: 0 <= i < n ==> attempts[i].phase.Received?
  {
    if n > 0 { CountBounds(attempts, n - 1); }
  }

  lemma {:induction false} CountAppend(attempts: seq<Attempt>, n: nat, a: Attempt)
    requires n <= |attempts|
    ensures CountReceived(attempts + [a], n) == CountReceived(attempts, n)
    ensures Ranks(attempts + [a], n) == Ranks(attempts, n)
  {
    if n > 0 { CountAppend(attempts, n - 1, a); }
  }

  /** Only Dialling and Offering attempts move, and never into the received phase. */
  lemma WorldKeepsCounts(w: World, l: WorldStep)
    requires WorldEnabled(w, l)
    ensures |WorldApply(w, l).attempts| == |w.attempts|
    ensures CountReceived(WorldApply(w, l).attempts, |w.attempts|) == CountReceived(w.attempts, |w.attempts|)
    ensures Ranks(WorldApply(w, l).attempts, |w.attempts|) == Ranks(w.attempts, |w.attempts|) + (if l.DialReturns? || l.Abandon? then 1 else 0)
  {
    match l
    case Tick(_) =>
    case ContextEnds(_) =>
    case DialReturns(i, _, _, _) => CountUpdate(w.attempts, |w.attempts|, i, WorldApply(w, l).attempts[i]);
    case Abandon(i) => CountUpdate(w.attempts, |w.attempts|, i, WorldApply(w, l).attempts[i]);
  }
}
