/** What every step of the dial race keeps. */
module DialRaceInvariants {
  import opened Net
  import opened Candidates
  import opened FamilyFeed
  import opened Attempts
  import opened History
  import opened DialRace

  // ---------- Candidates ----------

  /** What a resolver has contributed so far. */
  function Contributed(cfg: Config, family: Family, r: Resolver): seq<Address> {
    if r.Looking? then [] else Contribution(cfg, family, r.answer)
  }

  function PoppedOf(pc: Pc, family: Family): seq<Address> {
    if pc.Popped? && FamilyOf(pc.address) == Some(family) then [pc.address] else []
  }

  function LookupErrorOf(r: Resolver): Option<Error> {
    if !r.Looking? && r.answer.LookupError? then Some(r.answer.error) else None
  }

  predicate Drops(pc: Pc) {
    OutcomeOf(pc).Some? && OutcomeOf(pc).value.ContextEnded?
  }

  /** Started candidates, then the popped one, then the queue, make up exactly the contribution; only a
      context error may drop the popped one. */
  predicate Parts(started: seq<Address>, popped: seq<Address>, queue: seq<Address>, all: seq<Address>, drops: bool) {
    started <= all && (!drops ==> started + popped + queue == all)
  }

  lemma {:induction false} PopMoves(started: seq<Address>, queue: seq<Address>, all: seq<Address>, drops: bool)
    requires Parts(started, [], queue, all, drops) && queue != []
    ensures Parts(started, [queue[0]], queue[1..], all, drops)
  {
    assert queue == [queue[0]] + queue[1..];
    assert !drops ==> started + [queue[0]] + queue[1..] == started + [] + queue;
  }

  lemma {:induction false} LaunchMoves(started: seq<Address>, popped: seq<Address>, queue: seq<Address>, all: seq<Address>)
    requires Parts(started, popped, queue, all, false)
    ensures Parts(started + popped, [], queue, all, false)
    ensures Parts(started, popped, queue, all, true)
  {
    assert started + popped + [] + queue == started + popped + queue;
    assert all[..|started + popped|] == started + popped;
  }

  predicate FamilyInv(cfg: Config, d: Dns, pc: Pc, h: History, family: Family) {
    AllOf(Queue(d.feed, family), family) &&
    Parts(StartsOf(h, family), PoppedOf(pc, family), Queue(d.feed, family),
          Contributed(cfg, family, ResolverOf(d, family)), Drops(pc))
  }

  /** The rest of the feed mirrors what the resolvers have reported. */
  predicate DnsInv(cfg: Config, d: Dns) {
    d.feed.seen == Elements(Contributed(cfg, V4, d.r4)) + Elements(Contributed(cfg, V6, d.r6)) &&
    d.feed.closed == !d.closer.Waiting? &&
    (d.feed.closed ==> d.r4.Resolved? && d.r6.Resolved?) &&
    d.feed.errV4 == LookupErrorOf(d.r4) && d.feed.errV6 == LookupErrorOf(d.r6) &&
    (d.feed.passedACL > 0 <==> Permits(cfg, d.r4) || Permits(cfg, d.r6))
  }

  predicate Permits(cfg: Config, r: Resolver) {
    !r.Looking? && SomeAllowed(cfg, r.answer)
  }

  predicate FeedInv(cfg: Config, d: Dns, pc: Pc, h: History) {
    FamilyInv(cfg, d, pc, h, V4) && FamilyInv(cfg, d, pc, h, V6) && DnsInv(cfg, d) &&
    (pc.Popped? ==> FamilyOf(pc.address).Some?) &&
    Starts(h) == |StartsOf(h, V4)| + |StartsOf(h, V6)|
  }

  lemma {:induction false} ContributionOfFamily(cfg: Config, family: Family, r: Resolver)
    ensures AllOf(Contributed(cfg, family, r), family) && Distinct(Contributed(cfg, family, r))
  {
    if !r.Looking? && r.answer.Records? {
      SelectOfFamily(cfg, family, r.answer.records);
      SelectedExactly(OneFamily(cfg, family), cfg.port, r.answer.records);
    }
  }

  lemma {:induction false} SeenOfOther(cfg: Config, d: Dns, family: Family)
    requires DnsInv(cfg, d) && ResolverOf(d, family).Looking?
    ensures forall a :: a in d.feed.seen ==> FamilyOf(a) == Some(Other(family))
  {
    ContributionOfFamily(cfg, V4, d.r4);
    ContributionOfFamily(cfg, V6, d.r6);
  }

  lemma {:induction false} DnsAfterLookup(cfg: Config, d: Dns, family: Family, answer: Answer)
    requires DnsInv(cfg, d) && ResolverOf(d, family).Looking?
    ensures var t := DnsApply(cfg, d, LookupReturns(family, answer));
            DnsInv(cfg, t) && Queue(t.feed, Other(family)) == Queue(d.feed, Other(family)) &&
            Queue(t.feed, family) == Queue(d.feed, family) + Contribution(cfg, family, answer) &&
            AllOf(Contribution(cfg, family, answer), family)
  {
    SeenOfOther(cfg, d, family);
    AdmitEffect(cfg, family, d.feed, answer);
    assert Elements(Contributed(cfg, family, Looking)) == {};
  }

  lemma {:induction false} PartsGrow(starts: seq<Address>, popped: seq<Address>, queue: seq<Address>, all: seq<Address>, drops: bool)
    requires Parts(starts, popped, queue, [], drops)
    ensures Parts(starts, popped, queue + all, all, drops)
  {
    if !drops {
      assert starts + popped + queue == [];
      assert starts == [] && popped == [] && queue == [];
    }
  }

  lemma {:induction false} FeedAfterLookup(cfg: Config, d: Dns, pc: Pc, h: History, family: Family, answer: Answer)
    requires FeedInv(cfg, d, pc, h) && ResolverOf(d, family).Looking?
    ensures FeedInv(cfg, DnsApply(cfg, d, LookupReturns(family, answer)), pc, h)
  {
    var t := DnsApply(cfg, d, LookupReturns(family, answer));
    DnsAfterLookup(cfg, d, family, answer);
    assert FamilyInv(cfg, d, pc, h, family) && FamilyInv(cfg, d, pc, h, Other(family));
    PartsGrow(StartsOf(h, family), PoppedOf(pc, family), Queue(d.feed, family), Contribution(cfg, family, answer), Drops(pc));
    assert FamilyInv(cfg, t, pc, h, family);
    assert FamilyInv(cfg, t, pc, h, Other(family));
  }

  lemma {:induction false} DnsInvAfterDns(cfg: Config, d: Dns, l: DnsStep)
    requires DnsInv(cfg, d) && DnsEnabled(d, l) && !l.LookupReturns?
    ensures DnsInv(cfg, DnsApply(cfg, d, l))
  {
  }

  lemma {:induction false} FamilyAfterDns(cfg: Config, d: Dns, pc: Pc, h: History, l: DnsStep, family: Family)
    requires FamilyInv(cfg, d, pc, h, family) && DnsEnabled(d, l) && !l.LookupReturns?
    ensures FamilyInv(cfg, DnsApply(cfg, d, l), pc, h, family)
  {
    var t := DnsApply(cfg, d, l);
    assert Queue(t.feed, family) == Queue(d.feed, family);
    assert Contributed(cfg, family, ResolverOf(t, family)) == Contributed(cfg, family, ResolverOf(d, family));
  }

  lemma {:induction false} FeedAfterDns(cfg: Config, d: Dns, pc: Pc, h: History, l: DnsStep)
    requires FeedInv(cfg, d, pc, h) && DnsEnabled(d, l)
    ensures FeedInv(cfg, DnsApply(cfg, d, l), pc, h)
  {
    if l.LookupReturns? {
      FeedAfterLookup(cfg, d, pc, h, l.family, l.answer);
    } else {
      DnsInvAfterDns(cfg, d, l);
      FamilyAfterDns(cfg, d, pc, h, l, V4);
      FamilyAfterDns(cfg, d, pc, h, l, V6);
    }
  }

  /** Taking the head of a queue moves it from the queue to the popped position. */
  lemma {:induction false} OwnFamilyAfterPop(cfg: Config, d: Dns, pc: Pc, h: History, family: Family)
    requires FamilyInv(cfg, d, pc, h, family) && pc.Check? && Queue(d.feed, family) != []
    ensures var q := Queue(d.feed, family);
            FamilyOf(q[0]) == Some(family) &&
            FamilyInv(cfg, d.(feed := WithQueue(d.feed, family, q[1..])), Popped(q[0]), h, family)
  {
    var q := Queue(d.feed, family);
    assert FamilyOf(q[0]) == Some(family);
    PopMoves(StartsOf(h, family), q, Contributed(cfg, family, ResolverOf(d, family)), false);
  }

  lemma {:induction false} OtherFamilyAfterPop(cfg: Config, d: Dns, pc: Pc, h: History, family: Family, a: Address)
    requires FamilyInv(cfg, d, pc, h, Other(family)) && pc.Check? && Queue(d.feed, family) != [] && FamilyOf(a) == Some(family)
    ensures FamilyInv(cfg, d.(feed := WithQueue(d.feed, family, Queue(d.feed, family)[1..])), Popped(a), h, Other(family))
  {
  }

  lemma {:induction false} FeedAfterPop(cfg: Config, d: Dns, pc: Pc, h: History, last: Option<Family>)
    requires FeedInv(cfg, d, pc, h) && pc.Check? && !IsEmpty(d.feed)
    ensures var (rest, a) := Pop(d.feed, last); FeedInv(cfg, d.(feed := rest), Popped(a), h)
  {
    var from := NextFamily(d.feed, last);
    OwnFamilyAfterPop(cfg, d, pc, h, from);
    OtherFamilyAfterPop(cfg, d, pc, h, from, Queue(d.feed, from)[0]);
    assert DnsInv(cfg, d.(feed := Pop(d.feed, last).0));
  }

  lemma {:induction false} FamilyAfterLaunch(cfg: Config, d: Dns, pc: Pc, h: History, at: nat, e: DialError, family: Family)
    requires FamilyInv(cfg, d, pc, h, family) && pc.Popped?
    ensures FamilyInv(cfg, d, Top, Then(h, Start(pc.address, at)), family)
    ensures FamilyInv(cfg, d, Returning(ContextEnded(e)), h, family)
  {
    LaunchMoves(StartsOf(h, family), PoppedOf(pc, family), Queue(d.feed, family), Contributed(cfg, family, ResolverOf(d, family)));
  }

  lemma {:induction false} StartsSplit(h: History, a: Address, at: nat)
    requires Starts(h) == |StartsOf(h, V4)| + |StartsOf(h, V6)| && FamilyOf(a).Some?
    ensures Starts(Then(h, Start(a, at))) == |StartsOf(Then(h, Start(a, at)), V4)| + |StartsOf(Then(h, Start(a, at)), V6)|
  {
    var family := FamilyOf(a).value;
    assert StartsOf(Then(h, Start(a, at)), family) == StartsOf(h, family) + [a];
    assert StartsOf(Then(h, Start(a, at)), Other(family)) == StartsOf(h, Other(family));
  }

  lemma {:induction false} FeedAfterLaunch(cfg: Config, d: Dns, pc: Pc, h: History, at: nat, e: DialError)
    requires FeedInv(cfg, d, pc, h) && pc.Popped?
    ensures FeedInv(cfg, d, Top, Then(h, Start(pc.address, at)))
    ensures FeedInv(cfg, d, Returning(ContextEnded(e)), h)
  {
    FamilyAfterLaunch(cfg, d, pc, h, at, e, V4);
    FamilyAfterLaunch(cfg, d, pc, h, at, e, V6);
    StartsSplit(h, pc.address, at);
  }

  lemma {:induction false} PartsFrame(starts: seq<Address>, queue: seq<Address>, all: seq<Address>, drops: bool, drops': bool)
    requires Parts(starts, [], queue, all, drops) && (drops ==> drops')
    ensures Parts(starts, [], queue, all, drops')
  {
  }

  lemma {:induction false} FamilyFrame(cfg: Config, d: Dns, wake: bool, pc: Pc, h: History, pc': Pc, h': History, family: Family)
    requires FamilyInv(cfg, d, pc, h, family) && !pc.Popped? && !pc'.Popped? && (Drops(pc) ==> Drops(pc'))
    requires StartsOf(h', family) == StartsOf(h, family)
    ensures FamilyInv(cfg, d.(wake := wake), pc', h', family)
  {
    PartsFrame(StartsOf(h, family), Queue(d.feed, family), Contributed(cfg, family, ResolverOf(d, family)), Drops(pc), Drops(pc'));
  }

  /** Whatever leaves candidates and starts alone keeps the feed invariant. */
  lemma {:induction false} FeedFrame(cfg: Config, d: Dns, wake: bool, pc: Pc, h: History, pc': Pc, h': History)
    requires FeedInv(cfg, d, pc, h) && !pc.Popped? && !pc'.Popped? && (Drops(pc) ==> Drops(pc'))
    requires h' == h || (h'.Then? && h'.past == h && !h'.event.Start?)
    ensures FeedInv(cfg, d.(wake := wake), pc', h')
  {
    FamilyFrame(cfg, d, wake, pc, h, pc', h', V4);
    FamilyFrame(cfg, d, wake, pc, h, pc', h', V6);
  }

  lemma {:induction false} FeedAfterOther(cfg: Config, s: State, l: SchedStep)
    requires FeedInv(cfg, s.dns, s.sched.pc, s.history) && SchedEnabled(s, l)
    requires !l.Launch? && !(l.Advance? && s.sched.pc.due && !IsEmpty(s.dns.feed))
    ensures var t := SchedApply(s, l); FeedInv(cfg, t.dns, t.sched.pc, t.history)
  {
    var t := SchedApply(s, l);
    assert t.dns == s.dns.(wake := t.dns.wake);
    FeedFrame(cfg, s.dns, t.dns.wake, s.sched.pc, s.history, t.sched.pc, t.history);
  }

  lemma {:induction false} FeedAfterSched(cfg: Config, s: State, l: SchedStep)
    requires FeedInv(cfg, s.dns, s.sched.pc, s.history) && SchedEnabled(s, l)
    ensures var t := SchedApply(s, l); FeedInv(cfg, t.dns, t.sched.pc, t.history)
  {
    if l.Advance? && s.sched.pc.due && !IsEmpty(s.dns.feed) {
      FeedAfterPop(cfg, s.dns, s.sched.pc, s.history, s.sched.lastFamily);
    } else if l.Launch? {
      FeedAfterLaunch(cfg, s.dns, s.sched.pc, s.history, s.world.now, if s.world.ctx.Some? then s.world.ctx.value else Canceled);
    } else {
      FeedAfterOther(cfg, s, l);
    }
  }

  // ---------- Attempts ----------

  predicate AttemptInv(w: World, k: Scheduler, h: History) {
    |w.attempts| == k.started == Starts(h) &&
    (forall i :: 0 <= i < |w.attempts| ==>
       w.attempts[i].address == StartAddresses(h)[i] && w.attempts[i].startedAt == StartTimes(h)[i]) &&
    k.pending + CountReceived(w.attempts, |w.attempts|) == k.started &&
    CountReceived(w.attempts, |w.attempts|) == Failures(h) + Successes(h) &&
    Ownership(w, OutcomeOf(k.pc)) &&
    (OutcomeOf(k.pc).None? || OutcomeOf(k.pc).value.Exhausted? ==> Successes(h) == 0) &&
    (LastError(h).Some? ==>
       LastFailed(h) < |w.attempts| && w.attempts[LastFailed(h)].phase == Received(Fail(LastError(h).value)))
  }

  lemma {:induction false} AttemptAfterWorld(w: World, step: WorldStep, k: Scheduler, h: History)
    requires AttemptInv(w, k, h) && WorldEnabled(w, step)
    ensures AttemptInv(WorldApply(w, step), k, h)
  {
    WorldKeepsOwnership(w, step, OutcomeOf(k.pc));
    WorldKeepsCounts(w, step);
  }

  lemma {:induction false} AttemptAfterStart(w: World, k: Scheduler, h: History, a: Address)
    requires AttemptInv(w, k, h) && k.pc.Popped?
    ensures AttemptInv(Launched(w, a), AfterStart(k, a, w.now), Then(h, Start(a, w.now)))
  {
    CountAppend(w.attempts, |w.attempts|, Attempt(a, w.now, Dialling, false, 0));
  }

  lemma {:induction false} AttemptAfterFailure(w: World, k: Scheduler, h: History, i: nat)
    requires AttemptInv(w, k, h) && k.pc.Selecting? && Offers(w, i) && Offer(w, i).Fail?
    ensures AttemptInv(Taken(w, i), AfterFailure(k, Offer(w, i).error, w.now), Then(h, Failure(i, Offer(w, i).error, w.now)))
  {
    CountUpdate(w.attempts, |w.attempts|, i, Taken(w, i).attempts[i]);
  }

  lemma {:induction false} AttemptAfterSuccess(s: State, i: nat)
    requires AttemptInv(s.world, s.sched, s.history) && SchedEnabled(s, OnResult(i)) && Offer(s.world, i).Conn?
    ensures var t := AfterResult(s, i); AttemptInv(t.world, t.sched, t.history)
  {
    CountUpdate(s.world.attempts, |s.world.attempts|, i, AfterResult(s, i).world.attempts[i]);
  }

  lemma {:induction false} OwnershipFrame(w: World, o: Option<Outcome>, o': Option<Outcome>)
    requires Ownership(w, o) && (o' == o || (o.None? && !o'.value.Connected?))
    ensures Ownership(w, o')
  {
  }

  /** Only the counters and the outcome matter to the attempts. */
  lemma {:induction false} AttemptFrame(w: World, k: Scheduler, h: History, k': Scheduler, h': History)
    requires AttemptInv(w, k, h) && k'.started == k.started && k'.pending == k.pending
    requires OutcomeOf(k'.pc) == OutcomeOf(k.pc) || (OutcomeOf(k.pc).None? && !OutcomeOf(k'.pc).value.Connected?)
    requires h' == h || h' == Then(h, Wake) || h' == Then(h, Fire)
    ensures AttemptInv(w, k', h')
  {
    OwnershipFrame(w, OutcomeOf(k.pc), OutcomeOf(k'.pc));
  }

  lemma {:induction false} AttemptAfterCancel(w: World, k: Scheduler, h: History)
    requires AttemptInv(w, k, h)
    ensures AttemptInv(CancelledWorld(w), k, h)
  {
    assert Ownership(CancelledWorld(w), OutcomeOf(k.pc));
  }

  lemma {:induction false} AttemptAfterLocal(s: State, l: SchedStep)
    requires AttemptInv(s.world, s.sched, s.history) && SchedEnabled(s, l)
    requires !l.OnResult? && !(l.Launch? && s.world.ctx.None?)
    ensures var t := SchedApply(s, l); AttemptInv(t.world, t.sched, t.history)
  {
    var t := SchedApply(s, l);
    AttemptFrame(s.world, s.sched, s.history, t.sched, t.history);
    AttemptAfterCancel(s.world, t.sched, t.history);
    assert t.world == s.world || t.world == CancelledWorld(s.world);
  }

  lemma {:induction false} AttemptAfterSched(s: State, l: SchedStep)
    requires AttemptInv(s.world, s.sched, s.history) && SchedEnabled(s, l)
    ensures var t := SchedApply(s, l); AttemptInv(t.world, t.sched, t.history)
  {
    if l.Launch? && s.world.ctx.None? {
      AttemptAfterStart(s.world, s.sched, s.history, s.sched.pc.address);
    } else if l.OnResult? {
      if Offer(s.world, l.attempt).Conn? {
        AttemptAfterSuccess(s, l.attempt);
      } else {
        AttemptAfterFailure(s.world, s.sched, s.history, l.attempt);
      }
    } else {
      AttemptAfterLocal(s, l);
    }
  }

  // ---------- Clock, window and timer ----------

  /** The scheduler's locals are the functions of the event history the window policy prescribes. */
  predicate LocalsInv(k: Scheduler, h: History) {
    k.started == Starts(h) &&
    (if Starts(h) > 0 then LastStart(h) == Some(k.lastStart) else LastStart(h).None?) &&
    k.lastFamily == LastFamily(h) && k.nextReadyAt == NextReady(h) && k.lastErr == LastError(h) &&
    (k.lastErr.Some? <==> Failures(h) > 0) && WellPaced(h)
  }

  /** Unless the timer is armed the window has elapsed, and it is armed for the end of the window. */
  predicate TimerInv(k: Scheduler, now: nat) {
    (k.timer.Some? ==> k.nextReadyAt.Some? && k.nextReadyAt.value <= k.timer.value <= Max(now, k.nextReadyAt.value)) &&
    (OutcomeOf(k.pc).None? && k.timer.None? ==> Due(k, now)) &&
    (k.pc.Check? ==> if k.pc.due then Due(k, now) else k.timer.Some?) &&
    (k.pc.Popped? ==> Due(k, now))
  }

  predicate ClockInv(k: Scheduler, h: History, now: nat) {
    LocalsInv(k, h) && TimerInv(k, now)
  }

  lemma {:induction false} ClockAfterFailure(k: Scheduler, h: History, now: nat, i: nat, e: DialError)
    requires ClockInv(k, h, now) && k.pc.Selecting? && k.started > 0
    ensures ClockInv(AfterFailure(k, e, now), Then(h, Failure(i, e, now)), now)
  {
  }

  lemma {:induction false} ClockAfterStart(k: Scheduler, h: History, now: nat, a: Address)
    requires ClockInv(k, h, now) && k.pc.Popped?
    ensures ClockInv(AfterStart(k, a, now), Then(h, Start(a, now)), now)
  {
  }

  lemma {:induction false} ClockAfterSched(s: State, l: SchedStep)
    requires s.sched.started == |s.world.attempts| && ClockInv(s.sched, s.history, s.world.now) && SchedEnabled(s, l)
    ensures var t := SchedApply(s, l); ClockInv(t.sched, t.history, t.world.now)
  {
    if l.OnResult? {
      if Offer(s.world, l.attempt).Fail? {
        ClockAfterFailure(s.sched, s.history, s.world.now, l.attempt, Offer(s.world, l.attempt).error);
      }
    } else if l.Launch? {
      if s.world.ctx.None? { ClockAfterStart(s.sched, s.history, s.world.now, s.sched.pc.address); }
    }
  }

  // ---------- Wake-ups ----------

  /** A resolver that has admitted something has not pulsed yet. */
  predicate PulseOwed(r: Resolver) {
    r.Admitted? && r.added
  }

  /** A resolver's pulse has been sent and not received, or is still to come. */
  predicate PulseComing(d: Dns) {
    d.wake || PulseOwed(d.r4) || PulseOwed(d.r6)
  }

  /** While the scheduler is blocked: whatever the last advance did not see has a pulse coming, and a
      candidate it saw and left has the timer. */
  predicate WakeInv(d: Dns, k: Scheduler) {
    k.pc.Selecting? ==>
      k.saw.seen <= d.feed.seen &&
      (if k.saw.seen == d.feed.seen then k.saw.v4 == d.feed.v4 && k.saw.v6 == d.feed.v6 else PulseComing(d)) &&
      (k.saw.closed != d.feed.closed ==> d.wake || d.closer.ClosedFeed?) &&
      (!IsEmpty(k.saw) ==> k.timer.Some?) &&
      (k.saw.closed && IsEmpty(k.saw) ==> k.pending != 0)
  }

  /** A resolver owes a pulse exactly when its answer contributed a candidate. */
  lemma {:induction false} AdmittingPulses(cfg: Config, d: Dns, family: Family, answer: Answer)
    requires DnsInv(cfg, d) && ResolverOf(d, family).Looking?
    ensures var t := DnsApply(cfg, d, LookupReturns(family, answer));
            PulseOwed(ResolverOf(t, family)) <==> Contribution(cfg, family, answer) != []
  {
    SeenOfOther(cfg, d, family);
    AdmitEffect(cfg, family, d.feed, answer);
    var c := Contribution(cfg, family, answer);
    if c != [] {
      assert FamilyOf(c[0]) == Some(family);
      assert c[0] in Elements(c) && c[0] !in d.feed.seen;
    } else {
      assert Elements(c) == {};
    }
  }

  lemma {:induction false} WakeAfterDns(cfg: Config, d: Dns, k: Scheduler, l: DnsStep)
    requires DnsInv(cfg, d) && WakeInv(d, k) && DnsEnabled(d, l)
    ensures WakeInv(DnsApply(cfg, d, l), k)
  {
    if l.LookupReturns? {
      AdmittingPulses(cfg, d, l.family, l.answer);
      DnsAfterLookup(cfg, d, l.family, l.answer);
    }
  }

  lemma {:induction false} WakeAfterSched(s: State, l: SchedStep)
    requires TimerInv(s.sched, s.world.now) && WakeInv(s.dns, s.sched) && SchedEnabled(s, l)
    ensures var t := SchedApply(s, l); WakeInv(t.dns, t.sched)
  {
  }

  // ---------- Bounds ----------

  /** Pulses a resolver may still send. */
  function PulsesLeft(r: Resolver): nat {
    if r.Looking? || PulseOwed(r) then 1 else 0
  }

  function Bit(b: bool): nat {
    if b then 1 else 0
  }

  /** Three pulses in all. */
  predicate PulseBound(d: Dns, h: History) {
    Wakes(h) + Bit(d.wake) + PulsesLeft(d.r4) + PulsesLeft(d.r6) + Bit(!d.closer.Pulsed?) <= 3
  }

  /** The timer is armed at most twice per start: at the start, and when the window is first shortened. */
  predicate FireBound(k: Scheduler, h: History) {
    Fires(h) + Bit(k.timer.Some?) + Bit(k.nextReadyAt.Some? && k.nextReadyAt.value == k.lastStart + FALLBACK_DELAY) <= 2 * Starts(h)
  }

  /** Each iteration but the last ends in one event. */
  predicate IterationInv(k: Scheduler, h: History) {
    Length(h) == Starts(h) + Failures(h) + Successes(h) + Wakes(h) + Fires(h) &&
    k.iterations <= Length(h) + Bit(!k.pc.Top?)
  }

  predicate BoundInv(s: State) {
    PulseBound(s.dns, s.history) && FireBound(s.sched, s.history) && IterationInv(s.sched, s.history)
  }

  lemma {:induction false} PulsesAfterSched(s: State, l: SchedStep)
    requires PulseBound(s.dns, s.history) && SchedEnabled(s, l)
    ensures PulseBound(SchedApply(s, l).dns, SchedApply(s, l).history)
  {
  }

  lemma {:induction false} FiresAfterFailure(k: Scheduler, h: History, now: nat, i: nat, e: DialError)
    requires FireBound(k, h) && LocalsInv(k, h)
    ensures FireBound(AfterFailure(k, e, now), Then(h, Failure(i, e, now)))
  {
  }

  lemma {:induction false} FiresAfterStart(k: Scheduler, h: History, now: nat, a: Address)
    requires FireBound(k, h)
    ensures FireBound(AfterStart(k, a, now), Then(h, Start(a, now)))
  {
  }

  lemma {:induction false} FiresFrame(k: Scheduler, h: History, k': Scheduler, h': History, fired: bool)
    requires FireBound(k, h) && k'.nextReadyAt == k.nextReadyAt && k'.lastStart == k.lastStart
    requires k'.timer.None? || k'.timer == k.timer
    requires fired ==> h' == Then(h, Fire) && k.timer.Some? && k'.timer.None?
    requires !fired ==> h' == h || (h'.Then? && h'.past == h && (h'.event.Wake? || h'.event.Success?))
    ensures FireBound(k', h')
  {
  }

  lemma {:induction false} FiresAfterSched(s: State, l: SchedStep)
    requires FireBound(s.sched, s.history) && LocalsInv(s.sched, s.history) && SchedEnabled(s, l)
    ensures FireBound(SchedApply(s, l).sched, SchedApply(s, l).history)
  {
    if l.OnResult? && Offer(s.world, l.attempt).Fail? {
      FiresAfterFailure(s.sched, s.history, s.world.now, l.attempt, Offer(s.world, l.attempt).error);
    } else if l.Launch? && s.world.ctx.None? {
      FiresAfterStart(s.sched, s.history, s.world.now, s.sched.pc.address);
    } else {
      FiresFrame(s.sched, s.history, SchedApply(s, l).sched, SchedApply(s, l).history, l.OnTimer?);
    }
  }

  lemma {:induction false} IterationsAfterSched(s: State, l: SchedStep)
    requires IterationInv(s.sched, s.history) && SchedEnabled(s, l)
    ensures IterationInv(SchedApply(s, l).sched, SchedApply(s, l).history)
  {
  }

  lemma {:induction false} BoundAfterSched(s: State, l: SchedStep)
    requires BoundInv(s) && LocalsInv(s.sched, s.history) && SchedEnabled(s, l)
    ensures BoundInv(SchedApply(s, l))
  {
    PulsesAfterSched(s, l);
    FiresAfterSched(s, l);
    IterationsAfterSched(s, l);
  }

  lemma {:induction false} BoundAfterDns(cfg: Config, d: Dns, h: History, l: DnsStep)
    requires PulseBound(d, h) && DnsEnabled(d, l)
    ensures PulseBound(DnsApply(cfg, d, l), h)
  {
  }

  // ---------- Exit ----------

  /** A non-context error is returned only from a closed, empty feed with nothing in flight. */
  predicate ExitInv(d: Dns, k: Scheduler) {
    OutcomeOf(k.pc).Some? && OutcomeOf(k.pc).value.Exhausted? ==>
      d.feed.closed && IsEmpty(d.feed) && k.pending == 0 &&
      OutcomeOf(k.pc).value.error == FinalError(d.feed, k.started, k.lastErr)
  }

  lemma {:induction false} ExitAfterSched(s: State, l: SchedStep)
    requires ExitInv(s.dns, s.sched) && SchedEnabled(s, l)
    ensures ExitInv(SchedApply(s, l).dns, SchedApply(s, l).sched)
  {
  }

  lemma {:induction false} ExitAfterDns(cfg: Config, d: Dns, k: Scheduler, l: DnsStep)
    requires ExitInv(d, k) && DnsInv(cfg, d) && DnsEnabled(d, l)
    ensures ExitInv(DnsApply(cfg, d, l), k)
  {
  }

  // ---------- Together ----------

  predicate Inv(cfg: Config, s: State) {
    FeedInv(cfg, s.dns, s.sched.pc, s.history) && AttemptInv(s.world, s.sched, s.history) && ClockInv(s.sched, s.history, s.world.now) &&
    WakeInv(s.dns, s.sched) && BoundInv(s) && ExitInv(s.dns, s.sched)
  }

  lemma {:induction false} InitialFeed(cfg: Config)
    ensures FeedInv(cfg, INITIAL.dns, Top, Empty)
  {
  }

  lemma {:induction false} InitialInv(cfg: Config)
    ensures Inv(cfg, INITIAL)
  {
    InitialFeed(cfg);
  }

  lemma {:induction false} EnvironmentKeepsInv(cfg: Config, s: State, l: WorldStep)
    requires Inv(cfg, s) && WorldEnabled(s.world, l)
    ensures Inv(cfg, s.(world := WorldApply(s.world, l)))
  {
    AttemptAfterWorld(s.world, l, s.sched, s.history);
  }

  lemma {:induction false} ResolutionKeepsInv(cfg: Config, s: State, l: DnsStep)
    requires Inv(cfg, s) && DnsEnabled(s.dns, l)
    ensures Inv(cfg, s.(dns := DnsApply(cfg, s.dns, l)))
  {
    FeedAfterDns(cfg, s.dns, s.sched.pc, s.history, l);
    WakeAfterDns(cfg, s.dns, s.sched, l);
    BoundAfterDns(cfg, s.dns, s.history, l);
    ExitAfterDns(cfg, s.dns, s.sched, l);
  }

  lemma {:induction false} SchedulingKeepsInv(cfg: Config, s: State, l: SchedStep)
    requires Inv(cfg, s) && SchedEnabled(s, l)
    ensures Inv(cfg, SchedApply(s, l))
  {
    FeedAfterSched(cfg, s, l);
    AttemptAfterSched(s, l);
    ClockAfterSched(s, l);
    WakeAfterSched(s, l);
    BoundAfterSched(s, l);
    ExitAfterSched(s, l);
  }

  lemma {:induction false} StepKeepsInv(cfg: Config, s: State, l: Label)
    requires Inv(cfg, s) && Enabled(s, l)
    ensures Inv(cfg, Apply(cfg, s, l))
  {
    match l
    case Environment(step) => EnvironmentKeepsInv(cfg, s, step);
    case Resolution(step) => ResolutionKeepsInv(cfg, s, step);
    case Scheduling(step) => SchedulingKeepsInv(cfg, s, step);
  }

  lemma {:induction false} RunKeepsInv(cfg: Config, s: State, labels: seq<Label>, t: State)
    requires Inv(cfg, s) && IsRun(cfg, s, labels, t)
    ensures Inv(cfg, t)
    decreases |labels|
  {
    if labels != [] {
      StepKeepsInv(cfg, s, labels[0]);
      RunKeepsInv(cfg, Apply(cfg, s, labels[0]), labels[1..], t);
    }
  }

  /** The invariant holds in every reachable state. */
  lemma {:induction false} ReachableInv(cfg: Config, s: State)
    requires Reachable(cfg, s)
    ensures Inv(cfg, s)
  {
    var labels :| IsRun(cfg, INITIAL, labels, s);
    InitialInv(cfg);
    RunKeepsInv(cfg, INITIAL, labels, s);
  }
}
