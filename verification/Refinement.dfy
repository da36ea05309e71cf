/** A run of the dial race is a run of the static scheduler on the interleaved v6-then-v4 list, with the
    same dials at the same times and the same outcome, exactly when its dials follow that list. Wake-ups,
    clock reads and idle timer firings are stuttering steps. */
module Refinement {
  import opened Net
  import opened Candidates
  import opened FamilyFeed
  import opened Attempts
  import opened History
  import opened DialRace
  import opened DialRaceInvariants
  import opened StaticDial

  // ---------- The abstraction ----------

  /** The static timer: re-armed at every start, and at every failure while addresses remain. */
  function StaticTimer(h: History, n: nat): Option<nat> {
    match h
    case Empty => None
    case Then(_, Start(_, at)) => Some(at + FALLBACK_DELAY)
    case Then(past, Failure(_, _, at)) =>
      if Starts(past) < n && LastStart(past).Some? then Some(Max(at, LastStart(past).value + MINIMUM_DELAY)) else StaticTimer(past, n)
    case Then(past, _) => StaticTimer(past, n)
  }

  /** No event lies in the future. */
  predicate Happened(h: History, now: nat) {
    match h
    case Empty => true
    case Then(past, Failure(_, _, at)) => at <= now && Happened(past, now)
    case Then(past, _) => Happened(past, now)
  }

  lemma {:induction false} HappenedLater(h: History, now: nat, later: nat)
    requires Happened(h, now) && now <= later
    ensures Happened(h, later)
  {
    match h
    case Empty =>
    case Then(past, _) => HappenedLater(past, now, later);
  }

  /** Once the window has elapsed the static timer has expired too. */
  lemma {:induction false} WindowCoversStaticTimer(h: History, n: nat, now: nat)
    requires Happened(h, now) && Starts(h) < n && LastStart(h).Some? && now >= NextReady(h).value
    ensures StaticTimer(h, n).Some? && StaticTimer(h, n).value <= now
  {
    match h
    case Then(past, Start(_, _)) =>
    case Then(past, Failure(_, _, _)) =>
    case Then(past, _) => WindowCoversStaticTimer(past, n, now);
  }

  function StaticPcOf(k: Scheduler): StaticPc {
    match k.pc
    case Returning(o) => Leaving(o)
    case Returned(o) => Left(o)
    case _ => if k.started == 0 then Begin else Looping
  }

  function StaticOf(s: State, n: nat): StaticState {
    var k := s.sched;
    StaticState(s.world, StaticPcOf(k), k.started, k.pending, if k.started == 0 then 0 else k.lastStart, StaticTimer(s.history, n), k.lastErr)
  }

  /** The last failure has been received, but the feed is not known to be closed yet. */
  predicate Held(k: Scheduler, n: nat) {
    OutcomeOf(k.pc).None? && k.started == n && k.pending == 0
  }

  predicate SameStarts(w: World, v: World) {
    |w.attempts| == |v.attempts| &&
    forall i :: 0 <= i < |w.attempts| ==>
      w.attempts[i].address == v.attempts[i].address && w.attempts[i].startedAt == v.attempts[i].startedAt
  }

  predicate Matched(s: State, t: StaticState, n: nat) {
    !Held(s.sched, n) && t == StaticOf(s, n)
  }

  /** The static scheduler has not yet received the failure that ends its race. */
  predicate HeldBack(s: State, t: StaticState, addresses: seq<Address>) {
    var i := LastFailed(s.history);
    Held(s.sched, |addresses|) && s.sched.lastErr.Some? && t.pc.Looping? && Offers(t.world, i) &&
    AfterStaticResult(addresses, t, i) == StaticOf(s, |addresses|).(pc := Leaving(Exhausted(s.sched.lastErr.value)))
  }

  /** The context ended the race while the last failure was held back. */
  predicate Parted(s: State, t: StaticState) {
    OutcomeOf(s.sched.pc).Some? && OutcomeOf(s.sched.pc).value.ContextEnded? &&
    t.pc == StaticPcOf(s.sched) && SameStarts(s.world, t.world)
  }

  predicate Related(s: State, t: StaticState, addresses: seq<Address>) {
    Matched(s, t, |addresses|) || HeldBack(s, t, addresses) || Parted(s, t)
  }

  // ---------- Hindsight ----------

  predicate BothAnswered(d: Dns) {
    !d.r4.Looking? && !d.r6.Looking?
  }

  /** The list the static scheduler is given once both answers are in. */
  function FullList(cfg: Config, d: Dns): seq<Address>
    requires BothAnswered(d)
  {
    Interleaved(cfg.network, Contribution(cfg, V6, d.r6.answer) + Contribution(cfg, V4, d.r4.answer))
  }

  /** An answer contributes nothing of a family the network excludes. */
  lemma {:induction false} ContributionFits(cfg: Config, family: Family, answer: Answer)
    ensures AllOf(Contribution(cfg, family, answer), family)
    ensures !Fits(cfg.network, family) ==> Contribution(cfg, family, answer) == []
  {
    if answer.Records? { SelectOfFamily(cfg, family, answer.records); }
  }

  lemma {:induction false} InterleavedContributions(cfg: Config, a4: Answer, a6: Answer)
    ensures Interleaved(cfg.network, Contribution(cfg, V6, a6) + Contribution(cfg, V4, a4)) ==
            Zip(Contribution(cfg, V6, a6), Contribution(cfg, V4, a4))
  {
    ContributionFits(cfg, V4, a4);
    ContributionFits(cfg, V6, a6);
    InterleavedByFamily(cfg.network, Contribution(cfg, V6, a6), Contribution(cfg, V4, a4), V6);
  }

  /** What the end of a run says about the states on the way: the dials so far follow the list, and once
      both answers are in they account for all of it. */
  predicate Foreseen(cfg: Config, s: State, addresses: seq<Address>) {
    addresses != [] && StartAddresses(s.history) <= addresses &&
    (BothAnswered(s.dns) ==>
       |Contribution(cfg, V4, s.dns.r4.answer)| + |Contribution(cfg, V6, s.dns.r6.answer)| == |addresses|)
  }

  /** Dials are only added, and answers stay. */
  lemma {:induction false} StepExtends(cfg: Config, s: State, l: Label)
    requires Enabled(s, l)
    ensures StartAddresses(s.history) <= StartAddresses(Apply(cfg, s, l).history)
    ensures forall f :: !ResolverOf(s.dns, f).Looking? ==>
              !ResolverOf(Apply(cfg, s, l).dns, f).Looking? && ResolverOf(Apply(cfg, s, l).dns, f).answer == ResolverOf(s.dns, f).answer
  {
  }

  lemma {:induction false} RunExtends(cfg: Config, s: State, labels: seq<Label>, u: State)
    requires IsRun(cfg, s, labels, u)
    ensures StartAddresses(s.history) <= StartAddresses(u.history)
    ensures forall f :: !ResolverOf(s.dns, f).Looking? ==>
              !ResolverOf(u.dns, f).Looking? && ResolverOf(u.dns, f).answer == ResolverOf(s.dns, f).answer
    decreases |labels|
  {
    if labels != [] {
      StepExtends(cfg, s, labels[0]);
      RunExtends(cfg, Apply(cfg, s, labels[0]), labels[1..], u);
    }
  }

  lemma {:induction false} Hindsight(cfg: Config, s: State, labels: seq<Label>, u: State, addresses: seq<Address>)
    requires IsRun(cfg, s, labels, u) && Foreseen(cfg, u, addresses)
    ensures Foreseen(cfg, s, addresses)
  {
    RunExtends(cfg, s, labels, u);
    assert BothAnswered(s.dns) ==> ResolverOf(u.dns, V4).answer == s.dns.r4.answer && ResolverOf(u.dns, V6).answer == s.dns.r6.answer;
  }

  /** An exhausted feed has dialled both contributions. */
  lemma {:induction false} ExhaustedFeed(cfg: Config, s: State)
    requires FeedInv(cfg, s.dns, s.sched.pc, s.history) && s.sched.pc.Check? && s.dns.feed.closed && IsEmpty(s.dns.feed)
    ensures BothAnswered(s.dns)
    ensures Starts(s.history) == |Contribution(cfg, V4, s.dns.r4.answer)| + |Contribution(cfg, V6, s.dns.r6.answer)|
  {
    assert FamilyInv(cfg, s.dns, s.sched.pc, s.history, V4) && FamilyInv(cfg, s.dns, s.sched.pc, s.history, V6);
  }

  // ---------- One step ----------

  /** t reaches t' in at most one step. */
  ghost predicate Follows(addresses: seq<Address>, t: StaticState, t': StaticState) {
    t == t' || exists l :: StaticEnabled(t, l) && t' == StaticApply(addresses, t, l)
  }

  lemma {:induction false} NothingInFlight(w: World, k: Scheduler, h: History)
    requires AttemptInv(w, k, h) && k.pending == 0
    ensures forall i :: 0 <= i < |w.attempts| ==> w.attempts[i].phase.Received?
  {
    CountBounds(w.attempts, |w.attempts|);
  }

  lemma {:induction false} WorldSimulates(s: State, step: WorldStep, t: StaticState, addresses: seq<Address>)
    returns (t': StaticState)
    requires AttemptInv(s.world, s.sched, s.history) && Related(s, t, addresses) && WorldEnabled(s.world, step)
    ensures Follows(addresses, t, t') && Related(s.(world := WorldApply(s.world, step)), t', addresses)
  {
    var s' := s.(world := WorldApply(s.world, step));
    if Matched(s, t, |addresses|) {
      assert StaticEnabled(t, Moves(step));
      t' := StaticApply(addresses, t, Moves(step));
      assert Matched(s', t', |addresses|);
    } else if HeldBack(s, t, addresses) {
      NothingInFlight(s.world, s.sched, s.history);
      assert step.Tick? || step.ContextEnds?;
      assert t.world.now == s.world.now && t.world.ctx == s.world.ctx;
      assert StaticEnabled(t, Moves(step));
      t' := StaticApply(addresses, t, Moves(step));
      assert HeldBack(s', t', addresses);
    } else {
      t' := t;
      assert Parted(s', t');
    }
  }

  /** The static steps that answer a context end. */
  lemma {:induction false} LeaveSimulates(s: State, t: StaticState, addresses: seq<Address>, s': State) returns (t': StaticState)
    requires addresses != [] && Related(s, t, addresses) && OutcomeOf(s.sched.pc).None? && s.world.ctx.Some?
    requires s' == s.(sched := s.sched.(pc := Returning(ContextEnded(s.world.ctx.value))))
    ensures Follows(addresses, t, t') && Related(s', t', addresses)
  {
    if Matched(s, t, |addresses|) {
      var l := if t.pc.Begin? then First else Context;
      assert StaticEnabled(t, l);
      t' := StaticApply(addresses, t, l);
      assert Matched(s', t', |addresses|);
    } else {
      assert StaticEnabled(t, Context);
      t' := StaticApply(addresses, t, Context);
      var i := LastFailed(s.history);
      assert Taken(t.world, i).attempts == s.world.attempts;
      assert SameStarts(s'.world, t'.world);
      assert Parted(s', t');
    }
  }

  /** While an address remains, the static timer has expired whenever the race's window has. */
  lemma {:induction false} TimerExpired(k: Scheduler, h: History, now: nat, n: nat)
    requires ClockInv(k, h, now) && Happened(h, now) && k.pc.Popped? && 0 < k.started < n
    ensures StaticTimer(h, n).Some? && StaticTimer(h, n).value <= now
  {
    WindowCoversStaticTimer(h, n, now);
  }

  lemma {:induction false} FirstStart(s: State, t: StaticState, addresses: seq<Address>)
    requires s.sched.pc.Popped? && s.world.ctx.None? && s.sched.started == 0 && s.sched.pending >= 0
    requires addresses != [] && addresses[0] == s.sched.pc.address && t == StaticOf(s, |addresses|)
    ensures StaticEnabled(t, First) && Matched(AfterLaunch(s), StaticApply(addresses, t, First), |addresses|)
  {
  }

  lemma {:induction false} LaterStart(s: State, t: StaticState, addresses: seq<Address>)
    requires s.sched.pc.Popped? && s.world.ctx.None? && 0 < s.sched.started < |addresses| && s.sched.pending >= 0
    requires addresses[s.sched.started] == s.sched.pc.address && t == StaticOf(s, |addresses|)
    requires t.timer.Some? && t.timer.value <= s.world.now
    ensures StaticEnabled(t, Timer) && Matched(AfterLaunch(s), StaticApply(addresses, t, Timer), |addresses|)
  {
  }

  /** The part of the invariant the simulation rests on. */
  predicate Core(s: State) {
    Happened(s.history, s.world.now) && AttemptInv(s.world, s.sched, s.history) && ClockInv(s.sched, s.history, s.world.now)
  }

  lemma {:induction false} StartSimulates(s: State, t: StaticState, addresses: seq<Address>) returns (t': StaticState)
    requires Core(s) && Related(s, t, addresses) && s.sched.pc.Popped? && s.world.ctx.None?
    requires StartAddresses(AfterLaunch(s).history) <= addresses
    ensures Follows(addresses, t, t') && Related(AfterLaunch(s), t', addresses)
  {
    var k := s.sched;
    assert StartAddresses(AfterLaunch(s).history)[k.started] == k.pc.address;
    assert Matched(s, t, |addresses|);
    assert k.pending >= 0 by { CountBounds(s.world.attempts, |s.world.attempts|); }
    if k.started == 0 {
      FirstStart(s, t, addresses);
      t' := StaticApply(addresses, t, First);
    } else {
      TimerExpired(k, s.history, s.world.now, |addresses|);
      LaterStart(s, t, addresses);
      t' := StaticApply(addresses, t, Timer);
    }
  }

  lemma {:induction false} FailureSimulates(s: State, t: StaticState, addresses: seq<Address>, i: nat) returns (t': StaticState)
    requires s.sched.started == |s.world.attempts| && LocalsInv(s.sched, s.history) && Matched(s, t, |addresses|)
    requires SchedEnabled(s, OnResult(i)) && Offer(s.world, i).Fail?
    ensures Follows(addresses, t, t') && Related(AfterResult(s, i), t', addresses)
  {
    var s' := AfterResult(s, i);
    assert s.sched.started > 0 && LocalsInv(s.sched, s.history);
    if Held(s'.sched, |addresses|) {
      t' := t;
      assert HeldBack(s', t', addresses);
    } else {
      assert StaticEnabled(t, Result(i));
      t' := StaticApply(addresses, t, Result(i));
      assert Matched(s', t', |addresses|);
    }
  }

  lemma {:induction false} ResultSimulates(s: State, t: StaticState, addresses: seq<Address>, i: nat) returns (t': StaticState)
    requires AttemptInv(s.world, s.sched, s.history) && LocalsInv(s.sched, s.history)
    requires Related(s, t, addresses) && SchedEnabled(s, OnResult(i))
    ensures Follows(addresses, t, t') && Related(AfterResult(s, i), t', addresses)
  {
    if s.sched.pending == 0 { NothingInFlight(s.world, s.sched, s.history); }
    assert Matched(s, t, |addresses|);
    if Offer(s.world, i).Fail? {
      t' := FailureSimulates(s, t, addresses, i);
    } else {
      assert s.sched.started > 0;
      assert StaticEnabled(t, Result(i));
      t' := StaticApply(addresses, t, Result(i));
      assert Matched(AfterResult(s, i), t', |addresses|);
    }
  }

  /** Steps that only move the scheduler inside its loop. */
  lemma {:induction false} Stutters(s: State, t: StaticState, addresses: seq<Address>, s': State)
    requires Related(s, t, addresses) && OutcomeOf(s.sched.pc).None? && OutcomeOf(s'.sched.pc).None? && s'.world == s.world
    requires s'.sched.started == s.sched.started && s'.sched.pending == s.sched.pending &&
             s'.sched.lastStart == s.sched.lastStart && s'.sched.lastErr == s.sched.lastErr
    requires s'.history == s.history || s'.history == Then(s.history, Wake) || s'.history == Then(s.history, Fire)
    ensures Related(s', t, addresses)
  {
    if Matched(s, t, |addresses|) {
      assert Matched(s', t, |addresses|);
    } else {
      assert HeldBack(s', t, addresses);
    }
  }

  lemma {:induction false} DeferredSimulates(s: State, t: StaticState, addresses: seq<Address>) returns (t': StaticState)
    requires Related(s, t, addresses) && s.sched.pc.Returning?
    ensures Follows(addresses, t, t') && Related(SchedApply(s, RunDeferred), t', addresses)
  {
    assert StaticEnabled(t, Deferred);
    t' := StaticApply(addresses, t, Deferred);
    if Matched(s, t, |addresses|) {
      assert Matched(SchedApply(s, RunDeferred), t', |addresses|);
    } else {
      assert Parted(SchedApply(s, RunDeferred), t');
    }
  }

  /** An exhausted feed is answered by the failure held back. */
  lemma {:induction false} AdvanceSimulates(s: State, t: StaticState, addresses: seq<Address>) returns (t': StaticState)
    requires Related(s, t, addresses) && s.sched.pc.Check? && addresses != []
    requires s.dns.feed.closed && IsEmpty(s.dns.feed) ==> s.sched.started == |addresses|
    ensures Follows(addresses, t, t') && Related(AfterAdvance(s), t', addresses)
  {
    var s' := AfterAdvance(s);
    if s'.sched.pc.Returning? {
      assert HeldBack(s, t, addresses);
      var i := LastFailed(s.history);
      assert StaticEnabled(t, Result(i));
      t' := StaticApply(addresses, t, Result(i));
      assert Matched(s', t', |addresses|);
    } else {
      t' := t;
      Stutters(s, t, addresses, s');
    }
  }

  lemma {:induction false} SchedSimulates(s: State, l: SchedStep, t: StaticState, addresses: seq<Address>)
    returns (t': StaticState)
    requires Core(s) && Related(s, t, addresses) && SchedEnabled(s, l) && addresses != []
    requires StartAddresses(SchedApply(s, l).history) <= addresses
    requires s.sched.pc.Check? && s.dns.feed.closed && IsEmpty(s.dns.feed) ==> s.sched.started == |addresses|
    ensures Follows(addresses, t, t') && Related(SchedApply(s, l), t', addresses)
  {
    t' := t;
    match l
    case ReadClock => Stutters(s, t, addresses, SchedApply(s, l));
    case OnWake => Stutters(s, t, addresses, SchedApply(s, l));
    case OnTimer => Stutters(s, t, addresses, SchedApply(s, l));
    case Advance => t' := AdvanceSimulates(s, t, addresses);
    case Launch =>
      if s.world.ctx.Some? {
        t' := LeaveSimulates(s, t, addresses, SchedApply(s, l));
      } else {
        t' := StartSimulates(s, t, addresses);
      }
    case OnContext => t' := LeaveSimulates(s, t, addresses, SchedApply(s, l));
    case OnResult(i) => t' := ResultSimulates(s, t, addresses, i);
    case RunDeferred => t' := DeferredSimulates(s, t, addresses);
  }

  lemma {:induction false} HappenedAfter(cfg: Config, s: State, l: Label)
    requires Happened(s.history, s.world.now) && Enabled(s, l)
    ensures Happened(Apply(cfg, s, l).history, Apply(cfg, s, l).world.now)
  {
    if l.Environment? { HappenedLater(s.history, s.world.now, WorldApply(s.world, l.world).now); }
  }

  /** A step that keeps to the list is answered by at most one step of the static scheduler. */
  lemma {:induction false} StepSimulates(cfg: Config, s: State, l: Label, t: StaticState, addresses: seq<Address>)
    returns (t': StaticState)
    requires Inv(cfg, s) && Happened(s.history, s.world.now) && Related(s, t, addresses) && Enabled(s, l)
    requires Foreseen(cfg, s, addresses) && Foreseen(cfg, Apply(cfg, s, l), addresses)
    ensures Follows(addresses, t, t') && Related(Apply(cfg, s, l), t', addresses)
  {
    match l
    case Environment(step) => t' := WorldSimulates(s, step, t, addresses);
    case Resolution(step) =>
      t' := t;
      var s' := Apply(cfg, s, l);
      assert s' == State(s.world, s'.dns, s.sched, s.history);
      assert Related(s', t', addresses);
    case Scheduling(step) =>
      if s.sched.pc.Check? && s.dns.feed.closed && IsEmpty(s.dns.feed) { ExhaustedFeed(cfg, s); }
      t' := SchedSimulates(s, step, t, addresses);
  }

  // ---------- Whole runs ----------

  lemma {:induction false} RunSimulates(
    cfg: Config, s: State, labels: seq<Label>, u: State, addresses: seq<Address>,
    t0: StaticState, done: seq<StaticLabel>, t: StaticState) returns (staticLabels: seq<StaticLabel>, v: StaticState)
    requires Inv(cfg, s) && Happened(s.history, s.world.now) && Related(s, t, addresses) && IsRun(cfg, s, labels, u)
    requires Foreseen(cfg, u, addresses) && IsStaticRun(addresses, t0, done, t)
    ensures IsStaticRun(addresses, t0, staticLabels, v) && Related(u, v, addresses)
    decreases |labels|
  {
    if labels == [] {
      staticLabels, v := done, t;
    } else {
      var s' := Apply(cfg, s, labels[0]);
      Hindsight(cfg, s, labels, u, addresses);
      Hindsight(cfg, s', labels[1..], u, addresses);
      var t' := StepSimulates(cfg, s, labels[0], t, addresses);
      StepKeepsInv(cfg, s, labels[0]);
      HappenedAfter(cfg, s, labels[0]);
      var more := done;
      if t' != t {
        var l :| StaticEnabled(t, l) && t' == StaticApply(addresses, t, l);
        ExtendRun(addresses, t0, done, t, l);
        more := done + [l];
      }
      staticLabels, v := RunSimulates(cfg, s', labels[1..], u, addresses, t0, more, t');
    }
  }

  lemma {:induction false} RelatedAgree(s: State, t: StaticState, addresses: seq<Address>)
    requires Related(s, t, addresses)
    ensures SameStarts(s.world, t.world)
    ensures s.sched.pc.Returned? ==> t.pc == Left(s.sched.pc.outcome)
  {
    if HeldBack(s, t, addresses) {
      assert Taken(t.world, LastFailed(s.history)).attempts == s.world.attempts;
    }
  }

  lemma {:induction false} NoTimerYet(h: History, n: nat, now: nat)
    requires Starts(h) == 0 && Failures(h) == 0
    ensures StaticTimer(h, n).None? && Happened(h, now)
  {
    match h
    case Empty =>
    case Then(past, _) => NoTimerYet(past, n, now);
  }

  /** Nothing has been dialled, nor an outcome reached. */
  predicate Fresh(s: State) {
    Starts(s.history) == 0 && OutcomeOf(s.sched.pc).None?
  }

  lemma {:induction false} FreshIsRelated(cfg: Config, s: State, addresses: seq<Address>)
    requires Inv(cfg, s) && Fresh(s) && addresses != []
    ensures Happened(s.history, s.world.now) && Related(s, StaticStart(s.world), addresses)
  {
    assert s.world.attempts == [] && s.sched.pending == 0 && s.sched.lastErr.None?;
    NoTimerYet(s.history, |addresses|, s.world.now);
    assert Matched(s, StaticStart(s.world), |addresses|);
  }

  /** The list holds both contributions. */
  lemma {:induction false} FullListLength(cfg: Config, d: Dns)
    requires BothAnswered(d)
    ensures |FullList(cfg, d)| == |Contribution(cfg, V4, d.r4.answer)| + |Contribution(cfg, V6, d.r6.answer)|
  {
    var c4, c6 := Contribution(cfg, V4, d.r4.answer), Contribution(cfg, V6, d.r6.answer);
    InterleavedContributions(cfg, d.r4.answer, d.r6.answer);
    ZipIsPermutation(c6, c4);
    assert |multiset(Zip(c6, c4))| == |multiset(c6) + multiset(c4)|;
  }

  /** Some run of the static scheduler has the dials of u, at the same times, and its outcome. */
  ghost predicate StaticRunLike(addresses: seq<Address>, w: World, u: State) {
    exists labels, v :: IsStaticRun(addresses, StaticStart(w), labels, v) && SameStarts(u.world, v.world) &&
      (u.sched.pc.Returned? ==> v.pc == Left(u.sched.pc.outcome))
  }

  /** A run whose dials follow the list is a run of the static scheduler on it. */
  lemma {:induction false} InOrderIsStatic(cfg: Config, s: State, labels: seq<Label>, u: State)
    requires Reachable(cfg, s) && Fresh(s) && IsRun(cfg, s, labels, u)
    requires BothAnswered(u.dns) && FullList(cfg, u.dns) != [] && StartAddresses(u.history) <= FullList(cfg, u.dns)
    ensures StaticRunLike(FullList(cfg, u.dns), s.world, u)
  {
    var addresses := FullList(cfg, u.dns);
    ReachableInv(cfg, s);
    FreshIsRelated(cfg, s, addresses);
    FullListLength(cfg, u.dns);
    var staticLabels, v := RunSimulates(cfg, s, labels, u, addresses, StaticStart(s.world), [], StaticStart(s.world));
    RelatedAgree(u, v, addresses);
  }

  // ---------- The static scheduler dials its list in order ----------

  predicate InOrder(t: StaticState, addresses: seq<Address>) {
    |t.world.attempts| <= |addresses| &&
    (forall i :: 0 <= i < |t.world.attempts| ==> t.world.attempts[i].address == addresses[i]) &&
    (t.pc.Begin? ==> t.world.attempts == []) &&
    (t.pc.Begin? || t.pc.Looping? ==> t.next == |t.world.attempts|) &&
    (addresses == [] ==> t.pc.Begin? || ((t.pc.Leaving? || t.pc.Left?) && t.pc.outcome == Exhausted(TargetConnectionFailed)))
  }

  lemma {:induction false} StaticStepInOrder(addresses: seq<Address>, t: StaticState, l: StaticLabel)
    requires InOrder(t, addresses) && StaticEnabled(t, l)
    ensures InOrder(StaticApply(addresses, t, l), addresses)
  {
  }

  lemma {:induction false} StaticRunInOrder(addresses: seq<Address>, t: StaticState, labels: seq<StaticLabel>, u: StaticState)
    requires IsStaticRun(addresses, t, labels, u) && InOrder(t, addresses)
    ensures InOrder(u, addresses)
    decreases |labels|
  {
    if labels != [] {
      StaticStepInOrder(addresses, t, labels[0]);
      StaticRunInOrder(addresses, StaticApply(addresses, t, labels[0]), labels[1..], u);
    }
  }

  /** A race with the dials of some static run on a list dials a prefix of it. */
  lemma {:induction false} SameStartsAreInOrder(cfg: Config, u: State, addresses: seq<Address>, w: World, labels: seq<StaticLabel>, v: StaticState)
    requires Reachable(cfg, u) && w.attempts == []
    requires IsStaticRun(addresses, StaticStart(w), labels, v) && SameStarts(u.world, v.world)
    ensures StartAddresses(u.history) <= addresses
  {
    StaticRunInOrder(addresses, StaticStart(w), labels, v);
    assert AttemptInv(u.world, u.sched, u.history) by { ReachableInv(cfg, u); }
  }

  // ---------- Exactly when ----------

  /** Once both answers are in, and hold something to dial, a run is a run of the static scheduler exactly
      when its dials are a prefix of the full list. */
  lemma {:induction false} StaticExactlyInOrder(cfg: Config, s: State, labels: seq<Label>, u: State)
    requires Reachable(cfg, s) && Fresh(s) && IsRun(cfg, s, labels, u)
    requires BothAnswered(u.dns) && FullList(cfg, u.dns) != []
    ensures StaticRunLike(FullList(cfg, u.dns), s.world, u) <==> StartAddresses(u.history) <= FullList(cfg, u.dns)
  {
    var addresses := FullList(cfg, u.dns);
    ReachableRun(cfg, s, labels, u);
    assert s.world.attempts == [] by { ReachableInv(cfg, s); }
    if StaticRunLike(addresses, s.world, u) {
      var staticLabels, v :| IsStaticRun(addresses, StaticStart(s.world), staticLabels, v) && SameStarts(u.world, v.world);
      SameStartsAreInOrder(cfg, u, addresses, s.world, staticLabels, v);
    }
    if StartAddresses(u.history) <= addresses { InOrderIsStatic(cfg, s, labels, u); }
  }

  /** With nothing to dial, a race that has returned is a static run exactly when it reports that the
      connection failed: the static scheduler has no other error, and does not look at the context first. */
  lemma {:induction false} NothingToDial(cfg: Config, w: World, u: State)
    requires Reachable(cfg, u) && BothAnswered(u.dns) && FullList(cfg, u.dns) == [] && w.attempts == []
    ensures StaticRunLike([], w, u) <==>
            (u.sched.pc.Returned? ==> u.sched.pc.outcome == Exhausted(TargetConnectionFailed))
  {
    assert u.world.attempts == [] by {
      ReachableInv(cfg, u);
      FullListLength(cfg, u.dns);
      assert FamilyInv(cfg, u.dns, u.sched.pc, u.history, V4) && FamilyInv(cfg, u.dns, u.sched.pc, u.history, V6);
    }
    if StaticRunLike([], w, u) {
      var labels, v :| IsStaticRun([], StaticStart(w), labels, v) && SameStarts(u.world, v.world) &&
        (u.sched.pc.Returned? ==> v.pc == Left(u.sched.pc.outcome));
      StaticRunInOrder([], StaticStart(w), labels, v);
    }
    var t0 := StaticStart(w);
    assert IsStaticRun([], t0, [], t0);
    ExtendRun([], t0, [], t0, First);
    var t1 := StaticApply([], t0, First);
    ExtendRun([], t0, [] + [First], t1, Deferred);
    assert SameStarts(u.world, StaticApply([], t1, Deferred).world);
  }

  /** For answers that respect the family asked for, that list is the legacy order of the merged answer. */
  lemma {:induction false} StaticListIsLegacyOrder(cfg: Config, a4: Answer, a6: Answer)
    requires Respects(RecordsOf(a4), V4) && Respects(RecordsOf(a6), V6)
    ensures Interleaved(cfg.network, Contribution(cfg, V6, a6) + Contribution(cfg, V4, a4)) ==
            Interleaved(cfg.network, Select(AnyFamily(cfg), cfg.port, RecordsOf(a6) + RecordsOf(a4)))
  {
    PerFamilyListsMatchMergedOrder(cfg, RecordsOf(a6), RecordsOf(a4));
    assert Contribution(cfg, V6, a6) == Select(OneFamily(cfg, V6), cfg.port, RecordsOf(a6));
    assert Contribution(cfg, V4, a4) == Select(OneFamily(cfg, V4), cfg.port, RecordsOf(a4));
    InterleavedContributions(cfg, a4, a6);
  }
}
