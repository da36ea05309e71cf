/** The incremental dial race (dialTCPIncremental in connect_dial_incremental.go) as a labelled
    transition system: two resolver goroutines, the closer, the attempt goroutines, the context, the
    clock and the scheduler loop. Each step is one critical section, one channel operation or one
    stretch of scheduler-local code. */
module DialRace {
  import opened Net
  import opened Candidates
  import opened FamilyFeed
  import opened Attempts
  import opened History

  /** In the lookup; admitted, the pulse and wg.Done() still to come; ended. */
  datatype Resolver = Looking | Admitted(answer: Answer, added: bool) | Resolved(answer: Answer)

  /** In wg.Wait(); feed closed but the pulse still to come; ended. */
  datatype Closer = Waiting | ClosedFeed | Pulsed

  datatype Dns = Dns(r4: Resolver, r6: Resolver, closer: Closer, feed: Feed, wake: bool)

  /** Where the scheduler is: at the loop head; holding `due`; holding a popped address; blocked in its
      select; past the return statement with the deferred calls still to run; returned. */
  datatype Pc =
    | Top
    | Check(due: bool)
    | Popped(address: Address)
    | Selecting
    | Returning(outcome: Outcome)
    | Returned(outcome: Outcome)

  /** The scheduler's locals; `iterations` and `saw`, the feed as the last advance left it, only record. */
  datatype Scheduler = Scheduler(
    pc: Pc, started: nat, pending: int, lastStart: nat, lastFamily: Option<Family>,
    nextReadyAt: Option<nat>, lastErr: Option<DialError>, timer: Option<nat>, iterations: nat, saw: Feed)

  datatype State = State(world: World, dns: Dns, sched: Scheduler, history: History)

  /** Steps of the resolver goroutines and the closer. */
  datatype DnsStep =
    | LookupReturns(family: Family, answer: Answer)
    | ResolverEnds(family: Family)
    | CloseFeed
    | PulseClosed

  /** Steps of the scheduler: local code, one select case each, and the deferred calls. */
  datatype SchedStep =
    | ReadClock
    | Advance
    | Launch
    | OnContext
    | OnResult(attempt: nat)
    | OnWake
    | OnTimer
    | RunDeferred

  datatype Label = Environment(world: WorldStep) | Resolution(dns: DnsStep) | Scheduling(sched: SchedStep)

  const INITIAL := State(
    World(0, None, []),
    Dns(Looking, Looking, Waiting, EMPTY_FEED, false),
    Scheduler(Top, 0, 0, 0, None, None, None, None, 0, EMPTY_FEED),
    Empty)

  function ResolverOf(d: Dns, family: Family): Resolver {
    if family == V4 then d.r4 else d.r6
  }

  function WithResolver(d: Dns, family: Family, r: Resolver): Dns {
    if family == V4 then d.(r4 := r) else d.(r6 := r)
  }

  function OutcomeOf(pc: Pc): Option<Outcome> {
    if pc.Returning? || pc.Returned? then Some(pc.outcome) else None
  }

  predicate DnsEnabled(d: Dns, l: DnsStep) {
    match l
    case LookupReturns(family, _) => ResolverOf(d, family).Looking?
    case ResolverEnds(family) => ResolverOf(d, family).Admitted?
    case CloseFeed => d.closer.Waiting? && d.r4.Resolved? && d.r6.Resolved?
    case PulseClosed => d.closer.ClosedFeed?
  }

  function DnsApply(cfg: Config, d: Dns, l: DnsStep): Dns
    requires DnsEnabled(d, l)
  {
    match l
    case LookupReturns(family, answer) =>
      var feed := Admit(cfg, family, d.feed, answer);
      WithResolver(d.(feed := feed), family, Admitted(answer, feed.seen != d.feed.seen))
    case ResolverEnds(family) =>
      var r := ResolverOf(d, family);
      WithResolver(d, family, Resolver.Resolved(r.answer)).(wake := d.wake || r.added)
    case CloseFeed => d.(closer := ClosedFeed, feed := d.feed.(closed := true))
    case PulseClosed => d.(closer := Pulsed, wake := true)
  }

  predicate SchedEnabled(s: State, l: SchedStep) {
    match l
    case ReadClock => s.sched.pc.Top?
    case Advance => s.sched.pc.Check?
    case Launch => s.sched.pc.Popped?
    case OnContext => s.sched.pc.Selecting? && s.world.ctx.Some?
    case OnResult(i) => s.sched.pc.Selecting? && Offers(s.world, i)
    case OnWake => s.sched.pc.Selecting? && s.dns.wake
    case OnTimer => s.sched.pc.Selecting? && s.sched.timer.Some? && s.world.now >= s.sched.timer.value
    case RunDeferred => s.sched.pc.Returning?
  }

  /** `due := nextReadyAt.IsZero() || !time.Now().Before(nextReadyAt)`. */
  predicate Due(k: Scheduler, now: nat) {
    k.nextReadyAt.None? || now >= k.nextReadyAt.value
  }

  function AfterAdvance(s: State): State
    requires s.sched.pc.Check?
  {
    var feed := s.dns.feed;
    if s.sched.pc.due && !IsEmpty(feed) then
      var (rest, a) := Pop(feed, s.sched.lastFamily);
      s.(dns := s.dns.(feed := rest), sched := s.sched.(pc := Popped(a), saw := rest))
    else if feed.closed && IsEmpty(feed) && s.sched.pending == 0 then
      s.(sched := s.sched.(pc := Returning(Exhausted(FinalError(feed, s.sched.started, s.sched.lastErr))), saw := feed))
    else
      s.(sched := s.sched.(pc := Selecting, saw := feed))
  }

  /** Counters, window and timer after a dial started. */
  function AfterStart(k: Scheduler, a: Address, now: nat): Scheduler {
    Scheduler(Top, k.started + 1, k.pending + 1, now, FamilyOf(a), Some(now + FALLBACK_DELAY), k.lastErr,
              Some(now + FALLBACK_DELAY), k.iterations, k.saw)
  }

  function AfterLaunch(s: State): State
    requires s.sched.pc.Popped?
  {
    if s.world.ctx.Some? then s.(sched := s.sched.(pc := Returning(ContextEnded(s.world.ctx.value))))
    else
      var a, now := s.sched.pc.address, s.world.now;
      State(Launched(s.world, a), s.dns, AfterStart(s.sched, a, now), Then(s.history, Start(a, now)))
  }

  /** A failed result shortens the window to lastStart + 100 ms, and re-arms the timer, only if that is earlier. */
  function AfterFailure(k: Scheduler, e: DialError, now: nat): Scheduler {
    var ready := k.lastStart + MINIMUM_DELAY;
    var failed := k.(pc := Top, pending := k.pending - 1, lastErr := Some(e));
    if k.nextReadyAt.Some? && ready < k.nextReadyAt.value
    then failed.(nextReadyAt := Some(ready), timer := Some(Max(now, ready)))
    else failed
  }

  function AfterResult(s: State, i: nat): State
    requires Offers(s.world, i)
  {
    match Offer(s.world, i)
    case Conn =>
      var outcome := if s.world.ctx.Some? then ContextEnded(s.world.ctx.value) else Connected(i);
      s.(world := if s.world.ctx.Some? then TakenAndClosed(s.world, i) else Taken(s.world, i),
         sched := s.sched.(pc := Returning(outcome), pending := s.sched.pending - 1),
         history := Then(s.history, Success(i)))
    case Fail(e) =>
      s.(world := Taken(s.world, i), sched := AfterFailure(s.sched, e, s.world.now),
         history := Then(s.history, Failure(i, e, s.world.now)))
  }

  function SchedApply(s: State, l: SchedStep): State
    requires SchedEnabled(s, l)
  {
    match l
    case ReadClock =>
      s.(sched := s.sched.(pc := Check(Due(s.sched, s.world.now)), iterations := s.sched.iterations + 1))
    case Advance => AfterAdvance(s)
    case Launch => AfterLaunch(s)
    case OnContext => s.(sched := s.sched.(pc := Returning(ContextEnded(s.world.ctx.value))))
    case OnResult(i) => AfterResult(s, i)
    case OnWake => State(s.world, s.dns.(wake := false), s.sched.(pc := Top), Then(s.history, Wake))
    case OnTimer => State(s.world, s.dns, s.sched.(pc := Top, timer := None), Then(s.history, Fire))
    case RunDeferred =>
      s.(world := CancelledWorld(s.world), sched := s.sched.(pc := Returned(s.sched.pc.outcome), timer := None))
  }

  predicate Enabled(s: State, l: Label) {
    match l
    case Environment(step) => WorldEnabled(s.world, step)
    case Resolution(step) => DnsEnabled(s.dns, step)
    case Scheduling(step) => SchedEnabled(s, step)
  }

  function Apply(cfg: Config, s: State, l: Label): State
    requires Enabled(s, l)
  {
    match l
    case Environment(step) => s.(world := WorldApply(s.world, step))
    case Resolution(step) => s.(dns := DnsApply(cfg, s.dns, step))
    case Scheduling(step) => SchedApply(s, step)
  }

  /** `labels` leads from s to t. */
  ghost predicate IsRun(cfg: Config, s: State, labels: seq<Label>, t: State)
    decreases |labels|
  {
    if labels == [] then s == t
    else Enabled(s, labels[0]) && IsRun(cfg, Apply(cfg, s, labels[0]), labels[1..], t)
  }

  ghost predicate Reachable(cfg: Config, s: State) {
    exists labels :: IsRun(cfg, INITIAL, labels, s)
  }

  lemma {:induction false} RunsCompose(cfg: Config, s: State, first: seq<Label>, t: State, second: seq<Label>, u: State)
    requires IsRun(cfg, s, first, t) && IsRun(cfg, t, second, u)
    ensures IsRun(cfg, s, first + second, u)
    decreases |first|
  {
    if first == [] {
      assert first + second == second;
    } else {
      RunsCompose(cfg, Apply(cfg, s, first[0]), first[1..], t, second, u);
      assert (first + second)[1..] == first[1..] + second;
    }
  }

  lemma {:induction false} ReachableRun(cfg: Config, s: State, labels: seq<Label>, t: State)
    requires Reachable(cfg, s) && IsRun(cfg, s, labels, t)
    ensures Reachable(cfg, t)
  {
    var before :| IsRun(cfg, INITIAL, before, s);
    RunsCompose(cfg, INITIAL, before, s, labels, t);
  }

  lemma {:induction false} TakeStep(cfg: Config, s: State, l: Label) returns (t: State)
    requires Reachable(cfg, s) && Enabled(s, l)
    ensures Reachable(cfg, t) && t == Apply(cfg, s, l)
  {
    t := Apply(cfg, s, l);
    assert [l][1..] == [] && IsRun(cfg, t, [], t);
    ReachableRun(cfg, s, [l], t);
  }
}
