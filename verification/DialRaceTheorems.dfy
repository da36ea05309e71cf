/** What holds of every reachable state and every run of the dial race. */
module DialRaceTheorems {
  import opened Net
  import opened Policy
  import opened Candidates
  import opened FamilyFeed
  import opened Attempts
  import opened History
  import opened DialRace
  import opened DialRaceInvariants

  // ---------- Liveness ----------

  /** While the scheduler is blocked in its select:
      what was admitted since its last advance has a wake token or a pulse coming;
      a feed closed since then has a token or the closer's pulse coming;
      a candidate that advance saw and left has the timer armed;
      a queued candidate whose window has elapsed has a pulse coming or an expired timer;
      a closed, exhausted feed has a token or the closer's pulse coming;
      and a window that has not elapsed has the timer set for its end. */
  lemma {:induction false} NoLostWakeup(cfg: Config, s: State)
    requires Reachable(cfg, s) && s.sched.pc.Selecting?
    ensures s.dns.feed.seen != s.sched.saw.seen ==> PulseComing(s.dns)
    ensures s.dns.feed.closed != s.sched.saw.closed ==> s.dns.wake || s.dns.closer.ClosedFeed?
    ensures !IsEmpty(s.dns.feed) && s.dns.feed.seen == s.sched.saw.seen ==> s.sched.timer.Some?
    ensures !IsEmpty(s.dns.feed) && Due(s.sched, s.world.now) ==> PulseComing(s.dns) || SchedEnabled(s, OnTimer)
    ensures s.dns.feed.closed && IsEmpty(s.dns.feed) && s.sched.pending == 0 ==> s.dns.wake || s.dns.closer.ClosedFeed?
    ensures !Due(s.sched, s.world.now) ==> s.sched.timer == s.sched.nextReadyAt
  {
    assert WakeInv(s.dns, s.sched) && TimerInv(s.sched, s.world.now) && DnsInv(cfg, s.dns) by { ReachableInv(cfg, s); }
  }

  /** A step of this program: not a lookup or dial returning, not a context ending, and time passing
      only up to an armed timer. */
  predicate Internal(s: State, l: Label) {
    match l
    case Environment(Tick(d)) => s.sched.timer.Some? && s.world.now + d == s.sched.timer.value
    case Environment(_) => false
    case Resolution(step) => !step.LookupReturns?
    case Scheduling(_) => true
  }

  ghost predicate Waiting(s: State) {
    s.dns.r4.Looking? || s.dns.r6.Looking? ||
    exists i :: 0 <= i < |s.world.attempts| && s.world.attempts[i].phase.Dialling?
  }

  lemma {:induction false} PendingAttempt(w: World, k: Scheduler, h: History) returns (i: nat)
    requires AttemptInv(w, k, h) && k.pending > 0
    ensures i < |w.attempts| && !w.attempts[i].phase.Received?
  {
    CountBounds(w.attempts, |w.attempts|);
    i :| 0 <= i < |w.attempts| && !w.attempts[i].phase.Received?;
  }

  lemma {:induction false} BlockedHasStep(cfg: Config, s: State) returns (l: Label)
    requires Inv(cfg, s) && s.sched.pc.Selecting? && !Waiting(s)
    ensures Enabled(s, l) && Internal(s, l)
  {
    var d, k := s.dns, s.sched;
    if k.pending > 0 {
      var i := PendingAttempt(s.world, k, s.history);
      l := Scheduling(if s.world.attempts[i].phase.Offering? then OnResult(i) else OnContext);
    } else if d.wake {
      l := Scheduling(OnWake);
    } else if d.r4.Admitted? {
      l := Resolution(ResolverEnds(V4));
    } else if d.r6.Admitted? {
      l := Resolution(ResolverEnds(V6));
    } else if d.closer.Waiting? {
      l := Resolution(CloseFeed);
    } else if d.closer.ClosedFeed? {
      l := Resolution(PulseClosed);
    } else {
      CountBounds(s.world.attempts, |s.world.attempts|);
      assert k.timer.Some?;
      l := if s.world.now >= k.timer.value then Scheduling(OnTimer) else Environment(Tick(k.timer.value - s.world.now));
    }
  }

  lemma {:induction false} OwnStep(cfg: Config, s: State) returns (l: Label)
    requires Inv(cfg, s) && !s.sched.pc.Returned? && !Waiting(s)
    ensures Enabled(s, l) && Internal(s, l)
  {
    match s.sched.pc
    case Top => l := Scheduling(ReadClock);
    case Check(_) => l := Scheduling(Advance);
    case Popped(_) => l := Scheduling(Launch);
    case Selecting => l := BlockedHasStep(cfg, s);
    case Returning(_) => l := Scheduling(RunDeferred);
  }

  /** An unfinished race that waits for no lookup and no dial can always take a step of its own, without
      any help from the context. */
  lemma {:induction false} NeverStuck(cfg: Config, s: State)
    requires Reachable(cfg, s) && !s.sched.pc.Returned?
    ensures Waiting(s) || exists l :: Enabled(s, l) && Internal(s, l)
  {
    if !Waiting(s) {
      ReachableInv(cfg, s);
      var l := OwnStep(cfg, s);
    }
  }

  // ---------- Ownership ----------

  /** The connections still open are exactly the returned one; every other connection was closed once.
      This is so once all attempt goroutines have ended; the returned connection is never closed, and
      nothing is closed twice, at any time. */
  lemma {:induction false} ConnectionsOwnedOnce(cfg: Config, s: State)
    requires Reachable(cfg, s)
    ensures forall i :: 0 <= i < |s.world.attempts| ==> s.world.attempts[i].closes <= 1
    ensures s.sched.pc.Returned? && s.sched.pc.outcome.Connected? ==>
              s.sched.pc.outcome.attempt < |s.world.attempts| && s.world.attempts[s.sched.pc.outcome.attempt].hasConn
    ensures forall i :: 0 <= i < |s.world.attempts| && OutcomeOf(s.sched.pc) == Some(Connected(i)) ==> s.world.attempts[i].closes == 0
    ensures s.sched.pc.Returned? && (forall i :: 0 <= i < |s.world.attempts| ==> Ended(s.world.attempts[i])) ==>
              forall i :: 0 <= i < |s.world.attempts| && s.world.attempts[i].hasConn ==>
                s.world.attempts[i].closes == (if s.sched.pc.outcome == Connected(i) then 0 else 1)
  {
    ReachableInv(cfg, s);
  }

  /** After the return every attempt either still waits for its dial or can end at once. */
  lemma {:induction false} AttemptsWindDown(cfg: Config, s: State, i: nat)
    requires Reachable(cfg, s) && s.sched.pc.Returned? && i < |s.world.attempts|
    ensures Ended(s.world.attempts[i]) || s.world.attempts[i].phase.Dialling? || Enabled(s, Environment(Abandon(i)))
  {
    var labels :| IsRun(cfg, INITIAL, labels, s);
    ReturnedIsCancelled(cfg, INITIAL, labels, s);
  }

  lemma {:induction false} ReturnedIsCancelled(cfg: Config, s: State, labels: seq<Label>, t: State)
    requires IsRun(cfg, s, labels, t) && (s.sched.pc.Returned? ==> s.world.ctx.Some?)
    ensures t.sched.pc.Returned? ==> t.world.ctx.Some?
    decreases |labels|
  {
    if labels != [] {
      CancelledStep(cfg, s, labels[0]);
      ReturnedIsCancelled(cfg, Apply(cfg, s, labels[0]), labels[1..], t);
    }
  }

  lemma {:induction false} CancelledStep(cfg: Config, s: State, l: Label)
    requires Enabled(s, l) && (s.sched.pc.Returned? ==> s.world.ctx.Some?)
    ensures Apply(cfg, s, l).sched.pc.Returned? ==> Apply(cfg, s, l).world.ctx.Some?
  {
  }

  // ---------- Pacing ----------

  /** Whatever wakes arrive: any two dials i <= j are 250 ms apart per step less 150 ms for each failure
      received in between, and at least 100 ms per step. */
  lemma {:induction false} DialsArePaced(cfg: Config, s: State, i: nat, j: nat)
    requires Reachable(cfg, s) && i <= j < |s.world.attempts|
    ensures s.world.attempts[j].startedAt - s.world.attempts[i].startedAt
         >= 250 * (j - i) - 150 * FailuresBetween(s.history, i, j)
    ensures s.world.attempts[j].startedAt - s.world.attempts[i].startedAt >= 100 * (j - i)
  {
    ReachableInv(cfg, s);
    PacingOfHistory(s.history, i, j);
  }

  /** Two v4 candidates, the first dialled at time 0, the scheduler blocked. */
  lemma {:induction false} FirstOfTwoDialled(cfg: Config, first: IP, second: IP) returns (s: State)
    requires cfg.network == Tcp && first.family == V4 && second.family == V4 && first != second
    requires Allowed(cfg.rules, cfg.host, first) && Allowed(cfg.rules, cfg.host, second)
    ensures Reachable(cfg, s) && s.sched.pc.Selecting? && s.world.ctx.None? && s.world.now == 0
    ensures |s.world.attempts| == 1 && s.world.attempts[0].phase.Dialling? && s.world.attempts[0].startedAt == 0
    ensures s.dns.feed.v4 == [HostPort(second, cfg.port)] && s.dns.feed.v6 == [] && s.sched.lastFamily == Some(V4)
    ensures s.sched.nextReadyAt == Some(FALLBACK_DELAY) && s.sched.timer == Some(FALLBACK_DELAY) && s.sched.lastStart == 0
    ensures s.sched.started == 1
  {
    var answer := Answer.Records([Some(first)] + [Some(second)]);
    assert IsRun(cfg, INITIAL, [], INITIAL);
    s := TakeStep(cfg, INITIAL, Resolution(LookupReturns(V4, answer)));
    assert s.dns.feed.v4 == [HostPort(first, cfg.port)] + [HostPort(second, cfg.port)] && s.dns.feed.v6 == [] by {
      SingleContribution(cfg, first);
      SelectSnoc(OneFamily(cfg, V4), cfg.port, [Some(first)], second);
      AdmitEffect(cfg, V4, EMPTY_FEED, answer);
    }
    s := TakeStep(cfg, s, Scheduling(ReadClock));
    s := TakeStep(cfg, s, Scheduling(Advance));
    s := TakeStep(cfg, s, Scheduling(Launch));
    s := TakeStep(cfg, s, Scheduling(ReadClock));
    s := TakeStep(cfg, s, Scheduling(Advance));
  }

  /** When the timer fires at the end of the window, the next candidate is dialled at that moment. */
  lemma {:induction false} DialsWhenTimerFires(cfg: Config, s: State) returns (t: State)
    requires Reachable(cfg, s) && s.sched.pc.Selecting? && s.world.ctx.None?
    requires s.dns.feed.v4 != [] && s.dns.feed.v6 == [] && s.sched.lastFamily == Some(V4)
    requires s.sched.timer.Some? && s.sched.timer == s.sched.nextReadyAt && s.world.now < s.sched.timer.value
    ensures Reachable(cfg, t) && |t.world.attempts| == |s.world.attempts| + 1 && t.world.attempts[..|s.world.attempts|] == s.world.attempts
    ensures t.world.attempts[|s.world.attempts|].startedAt == s.sched.timer.value
    ensures FailuresBetween(t.history, 0, 1) == FailuresBetween(s.history, 0, 1)
  {
    t := TakeStep(cfg, s, Environment(Tick(s.sched.timer.value - s.world.now)));
    t := TakeStep(cfg, t, Scheduling(OnTimer));
    t := TakeStep(cfg, t, Scheduling(ReadClock));
    t := TakeStep(cfg, t, Scheduling(Advance));
    t := TakeStep(cfg, t, Scheduling(Launch));
  }

  /** The 250 ms bound is met: with no failure a second dial does start exactly 250 ms after the first. */
  lemma {:induction false} FallbackDelayIsMet(cfg: Config, first: IP, second: IP) returns (t: State)
    requires cfg.network == Tcp && first.family == V4 && second.family == V4 && first != second
    requires Allowed(cfg.rules, cfg.host, first) && Allowed(cfg.rules, cfg.host, second)
    ensures Reachable(cfg, t) && |t.world.attempts| == 2
    ensures t.world.attempts[0].phase.Dialling? && t.world.attempts[1].startedAt == t.world.attempts[0].startedAt + 250
  {
    var s := FirstOfTwoDialled(cfg, first, second);
    t := DialsWhenTimerFires(cfg, s);
    assert t.world.attempts[0] == t.world.attempts[..1][0];
  }

  /** The 100 ms bound is met: once the first dial has failed, the second does start exactly 100 ms after it. */
  lemma {:induction false} MinimumDelayIsMet(cfg: Config, first: IP, second: IP, e: DialError) returns (t: State)
    requires cfg.network == Tcp && first.family == V4 && second.family == V4 && first != second
    requires Allowed(cfg.rules, cfg.host, first) && Allowed(cfg.rules, cfg.host, second)
    ensures Reachable(cfg, t) && |t.world.attempts| == 2
    ensures t.world.attempts[0].phase == Received(Fail(e)) && t.world.attempts[1].startedAt == t.world.attempts[0].startedAt + 100
  {
    var s := FirstOfTwoDialled(cfg, first, second);
    s := TakeStep(cfg, s, Environment(DialReturns(0, false, Some(e), None)));
    s := TakeStep(cfg, s, Scheduling(OnResult(0)));
    s := TakeStep(cfg, s, Scheduling(ReadClock));
    s := TakeStep(cfg, s, Scheduling(Advance));
    t := DialsWhenTimerFires(cfg, s);
    assert t.world.attempts[0] == t.world.attempts[..1][0];
  }

  // ---------- Candidates ----------

  lemma {:induction false} StartInFamily(h: History, i: nat)
    requires i < Starts(h) && FamilyOf(StartAddresses(h)[i]).Some?
    ensures StartAddresses(h)[i] in StartsOf(h, FamilyOf(StartAddresses(h)[i]).value)
  {
    match h
    case Then(past, Start(a, _)) => if i < Starts(past) { StartInFamily(past, i); }
    case Then(past, _) => StartInFamily(past, i);
  }

  lemma {:induction false} StartsHaveFamily(h: History)
    ensures |StartsOf(h, V4)| + |StartsOf(h, V6)| <= Starts(h)
    ensures Starts(h) == |StartsOf(h, V4)| + |StartsOf(h, V6)| ==>
              forall i :: 0 <= i < Starts(h) ==> FamilyOf(StartAddresses(h)[i]).Some?
  {
    match h
    case Empty =>
    case Then(past, _) => StartsHaveFamily(past);
  }

  lemma {:induction false} DistinctStarts(h: History)
    requires Distinct(StartsOf(h, V4)) && Distinct(StartsOf(h, V6))
    requires Starts(h) == |StartsOf(h, V4)| + |StartsOf(h, V6)|
    ensures Distinct(StartAddresses(h))
  {
    match h
    case Empty =>
    case Then(past, Start(a, _)) =>
      StartsHaveFamily(past);
      StartsHaveFamily(h);
      assert StartAddresses(h)[Starts(past)] == a;
      var family := FamilyOf(a).value;
      var before := StartsOf(past, family);
      assert StartsOf(h, family) == before + [a];
      DistinctLast(before, a);
      DistinctStarts(past);
      forall i | 0 <= i < Starts(past) ensures StartAddresses(past)[i] != a {
        assert StartAddresses(past)[i] == StartAddresses(h)[i];
        StartInFamily(past, i);
      }
    case Then(past, _) => DistinctStarts(past);
  }

  lemma {:induction false} DistinctLast(s: seq<Address>, a: Address)
    requires Distinct(s + [a])
    ensures Distinct(s) && a !in s
  {
    DistinctPrefix(s, [a]);
    forall i | 0 <= i < |s| ensures s[i] != a {
      assert (s + [a])[i] != (s + [a])[|s|];
    }
  }

  lemma {:induction false} DistinctPrefix(s: seq<Address>, t: seq<Address>)
    requires Distinct(s + t)
    ensures Distinct(s)
  {
    forall i, j | 0 <= i < j < |s| ensures s[i] != s[j] {
      assert (s + t)[i] == s[i] && (s + t)[j] == s[j];
    }
  }

  /** The address was approved for the requested network and answered by its own family's lookup. */
  predicate Approved(cfg: Config, d: Dns, a: Address) {
    a.HostPort? && a.port == cfg.port && Allowed(cfg.rules, cfg.host, a.ip) &&
    (cfg.network == Tcp4 ==> a.ip.family == V4) && (cfg.network == Tcp6 ==> a.ip.family == V6) &&
    var r := ResolverOf(d, a.ip.family); !r.Looking? && r.answer.Records? && Some(a.ip) in r.answer.records
  }

  lemma {:induction false} ContributedAreApproved(cfg: Config, d: Dns, family: Family, a: Address)
    requires a in Contributed(cfg, family, ResolverOf(d, family))
    ensures Approved(cfg, d, a)
  {
    var r := ResolverOf(d, family);
    SelectedExactly(OneFamily(cfg, family), cfg.port, r.answer.records);
  }

  lemma {:induction false} StartIsContributed(cfg: Config, s: State, i: nat)
    requires Inv(cfg, s) && i < |s.world.attempts|
    ensures FamilyOf(s.world.attempts[i].address).Some?
    ensures var family := FamilyOf(s.world.attempts[i].address).value;
            s.world.attempts[i].address in Contributed(cfg, family, ResolverOf(s.dns, family))
  {
    StartsHaveFamily(s.history);
    StartInFamily(s.history, i);
    var family := FamilyOf(s.world.attempts[i].address).value;
    assert FamilyInv(cfg, s.dns, s.sched.pc, s.history, family);
  }

  lemma {:induction false} FamilyStartsAreDistinct(cfg: Config, s: State, family: Family)
    requires FamilyInv(cfg, s.dns, s.sched.pc, s.history, family)
    ensures Distinct(StartsOf(s.history, family))
  {
    var c, st := Contributed(cfg, family, ResolverOf(s.dns, family)), StartsOf(s.history, family);
    ContributionOfFamily(cfg, family, ResolverOf(s.dns, family));
    assert c == st + c[|st|..];
    DistinctPrefix(st, c[|st|..]);
  }

  lemma {:induction false} StartsAreDistinct(cfg: Config, s: State)
    requires FeedInv(cfg, s.dns, s.sched.pc, s.history)
    ensures Distinct(StartAddresses(s.history))
  {
    FamilyStartsAreDistinct(cfg, s, V4);
    FamilyStartsAreDistinct(cfg, s, V6);
    DistinctStarts(s.history);
  }

  /** Every dialled address passed the rules, fits the requested network and came from its own family's
      lookup; none is dialled twice; and each family is dialled in its filtered, de-duplicated resolver order. */
  lemma {:induction false} OnlyApprovedAddressesAreDialled(cfg: Config, s: State)
    requires Reachable(cfg, s)
    ensures forall i :: 0 <= i < |s.world.attempts| ==> Approved(cfg, s.dns, s.world.attempts[i].address)
    ensures forall i, j :: 0 <= i < j < |s.world.attempts| ==> s.world.attempts[i].address != s.world.attempts[j].address
    ensures StartsOf(s.history, V4) <= Contributed(cfg, V4, s.dns.r4)
    ensures StartsOf(s.history, V6) <= Contributed(cfg, V6, s.dns.r6)
  {
    ReachableInv(cfg, s);
    forall i | 0 <= i < |s.world.attempts| ensures Approved(cfg, s.dns, s.world.attempts[i].address) {
      StartIsContributed(cfg, s, i);
      ContributedAreApproved(cfg, s.dns, FamilyOf(s.world.attempts[i].address).value, s.world.attempts[i].address);
    }
    StartsAreDistinct(cfg, s);
    assert FamilyInv(cfg, s.dns, s.sched.pc, s.history, V4) && FamilyInv(cfg, s.dns, s.sched.pc, s.history, V6);
  }

  lemma {:induction false} NoStartStep(cfg: Config, s: State, l: Label)
    requires Enabled(s, l) && (s.world.ctx.Some? || OutcomeOf(s.sched.pc).Some?)
    ensures var t := Apply(cfg, s, l);
            (t.world.ctx.Some? || OutcomeOf(t.sched.pc).Some?) && StartAddresses(t.history) == StartAddresses(s.history)
  {
  }

  /** Once the context is done, or a winner or an error is being returned, no run starts another dial. */
  lemma {:induction false} NoStartAfterTheEnd(cfg: Config, s: State, labels: seq<Label>, t: State)
    requires IsRun(cfg, s, labels, t) && (s.world.ctx.Some? || OutcomeOf(s.sched.pc).Some?)
    ensures StartAddresses(t.history) == StartAddresses(s.history)
    decreases |labels|
  {
    if labels != [] {
      NoStartStep(cfg, s, labels[0]);
      NoStartAfterTheEnd(cfg, Apply(cfg, s, labels[0]), labels[1..], t);
    }
  }

  // ---------- Termination ----------

  lemma {:induction false} DistinctSize(s: seq<Address>)
    requires Distinct(s)
    ensures |Elements(s)| == |s|
  {
    if s == [] {
      assert Elements(s) == {};
    } else {
      var n := |s| - 1;
      assert s == s[..n] + [s[n]];
      DistinctPrefix(s[..n], [s[n]]);
      DistinctSize(s[..n]);
      assert s[n] !in s[..n];
      assert Elements(s) == Elements(s[..n]) + {s[n]};
    }
  }

  lemma {:induction false} StartsWithinSeen(cfg: Config, s: State)
    requires Inv(cfg, s)
    ensures Starts(s.history) <= |s.dns.feed.seen|
    ensures |s.dns.feed.seen| == |Contributed(cfg, V4, s.dns.r4)| + |Contributed(cfg, V6, s.dns.r6)|
  {
    var c4, c6 := Contributed(cfg, V4, s.dns.r4), Contributed(cfg, V6, s.dns.r6);
    ContributionOfFamily(cfg, V4, s.dns.r4);
    ContributionOfFamily(cfg, V6, s.dns.r6);
    DistinctSize(c4);
    DistinctSize(c6);
    assert forall a :: a in Elements(c4) ==> FamilyOf(a) == Some(V4);
    assert forall a :: a in Elements(c6) ==> FamilyOf(a) == Some(V6);
    assert Elements(c4) !! Elements(c6);
    assert FamilyInv(cfg, s.dns, s.sched.pc, s.history, V4) && FamilyInv(cfg, s.dns, s.sched.pc, s.history, V6);
  }

  /** With n admitted candidates the scheduler loop runs at most 4n + 4 times: n starts, n results,
      3 wakes, 2n timer firings and one exit. */
  lemma {:induction false} IterationBound(cfg: Config, s: State)
    requires Reachable(cfg, s)
    ensures Wakes(s.history) <= 3
    ensures Fires(s.history) <= 2 * |s.dns.feed.seen|
    ensures Failures(s.history) + Successes(s.history) <= Starts(s.history) <= |s.dns.feed.seen|
    ensures s.sched.iterations <= 4 * |s.dns.feed.seen| + 4
  {
    ReachableInv(cfg, s);
    StartsWithinSeen(cfg, s);
    CountBounds(s.world.attempts, |s.world.attempts|);
  }

  /** Work done so far: every step but the passing of time adds to it. */
  function Spent(s: State): int {
    ResolverRank(s.dns.r4) + ResolverRank(s.dns.r6) +
    (match s.dns.closer case Waiting => 0 case ClosedFeed => 1 case Pulsed => 2) +
    Bit(s.world.ctx.Some?) + Ranks(s.world.attempts, |s.world.attempts|) + 4 * s.sched.iterations - PcLeft(s.sched.pc)
  }

  function ResolverRank(r: Resolver): nat {
    match r
    case Looking => 0
    case Admitted(_, _) => 1
    case Resolved(_) => 2
  }

  function PcLeft(pc: Pc): nat {
    match pc
    case Top => 0
    case Check(_) => 3
    case Popped(_) => 2
    case Selecting => 2
    case Returning(_) => 1
    case Returned(_) => 0
  }

  function StepCount(labels: seq<Label>): nat {
    if labels == [] then 0
    else (if labels[0].Environment? && labels[0].world.Tick? then 0 else 1) + StepCount(labels[1..])
  }

  lemma {:induction false} SchedSpends(s: State, l: SchedStep)
    requires SchedEnabled(s, l)
    ensures Spent(SchedApply(s, l)) > Spent(s)
  {
    if l.Launch? && s.world.ctx.None? {
      CountAppend(s.world.attempts, |s.world.attempts|, Attempt(s.sched.pc.address, s.world.now, Dialling, false, 0));
    } else if l.OnResult? {
      CountUpdate(s.world.attempts, |s.world.attempts|, l.attempt, SchedApply(s, l).world.attempts[l.attempt]);
    }
  }

  lemma {:induction false} StepSpends(cfg: Config, s: State, l: Label)
    requires Enabled(s, l)
    ensures Spent(Apply(cfg, s, l)) >= Spent(s) + (if l.Environment? && l.world.Tick? then 0 else 1)
  {
    match l
    case Environment(step) => WorldKeepsCounts(s.world, step);
    case Resolution(step) =>
    case Scheduling(step) => SchedSpends(s, step);
  }

  lemma {:induction false} RunSpends(cfg: Config, s: State, labels: seq<Label>, t: State)
    requires IsRun(cfg, s, labels, t)
    ensures StepCount(labels) <= Spent(t) - Spent(s)
    decreases |labels|
  {
    if labels != [] {
      StepSpends(cfg, s, labels[0]);
      RunSpends(cfg, Apply(cfg, s, labels[0]), labels[1..], t);
    }
  }

  lemma {:induction false} SpentBound(cfg: Config, s: State)
    requires Reachable(cfg, s)
    ensures Spent(s) <= 18 * |s.dns.feed.seen| + 23
  {
    IterationBound(cfg, s);
    assert |s.world.attempts| == Starts(s.history) by { ReachableInv(cfg, s); }
    CountBounds(s.world.attempts, |s.world.attempts|);
  }

  /** Every run is finite but for the passing of time: all goroutines together take at most 18n + 23
      steps, n being the number of admitted candidates. */
  lemma {:induction false} StepBound(cfg: Config, labels: seq<Label>, t: State)
    requires IsRun(cfg, INITIAL, labels, t)
    ensures StepCount(labels) <= 18 * |t.dns.feed.seen| + 23
  {
    RunSpends(cfg, INITIAL, labels, t);
    SpentBound(cfg, t);
  }

  /** A lookup or a dial answers, as `lookups` and `dials` say. */
  predicate Answers(l: Label, lookups: Family -> Answer, dials: nat -> (bool, Option<DialError>)) {
    match l
    case Resolution(LookupReturns(family, answer)) => answer == lookups(family)
    case Environment(DialReturns(i, conn, error, attemptError)) => (conn, error) == dials(i) && attemptError.None?
    case _ => false
  }

  function StillLooking(d: Dns): nat {
    Bit(d.r4.Looking?) + Bit(d.r6.Looking?)
  }

  /** Time can pass up to the armed timer. */
  predicate CanTick(s: State) {
    s.sched.timer.Some? && s.world.now < s.sched.timer.value
  }

  /** Each such step leaves fewer lookups, does some of the bounded work, or uses up the time to the timer. */
  lemma {:induction false} StepProgresses(cfg: Config, s: State, l: Label,
                                          lookups: Family -> Answer, dials: nat -> (bool, Option<DialError>))
    requires Enabled(s, l) && (Internal(s, l) || Answers(l, lookups, dials))
    ensures var t := Apply(cfg, s, l);
            StillLooking(t.dns) < StillLooking(s.dns) ||
            (StillLooking(t.dns) == StillLooking(s.dns) && t.dns.feed.seen == s.dns.feed.seen &&
             (Spent(t) > Spent(s) || (Spent(t) == Spent(s) && CanTick(s) && !CanTick(t))))
    ensures Internal(s, l) ==> StillLooking(Apply(cfg, s, l).dns) == StillLooking(s.dns)
  {
    StepSpends(cfg, s, l);
  }

  ghost predicate IsInternalRun(cfg: Config, s: State, labels: seq<Label>, t: State)
    decreases |labels|
  {
    if labels == [] then s == t
    else Enabled(s, labels[0]) && Internal(s, labels[0]) && IsInternalRun(cfg, Apply(cfg, s, labels[0]), labels[1..], t)
  }

  /** Left to itself, the race comes to wait for a lookup or a dial, or returns. */
  lemma {:induction false} RunsUntilItWaits(cfg: Config, s: State) returns (labels: seq<Label>, t: State)
    requires Reachable(cfg, s)
    ensures IsInternalRun(cfg, s, labels, t) && (Waiting(t) || t.sched.pc.Returned?)
    decreases 18 * |s.dns.feed.seen| + 23 - Spent(s), CanTick(s)
  {
    if Waiting(s) || s.sched.pc.Returned? {
      labels, t := [], s;
    } else {
      ReachableInv(cfg, s);
      var l := OwnStep(cfg, s);
      var next := TakeStep(cfg, s, l);
      StepProgresses(cfg, s, l, _ => LookupError(Canceled), _ => (false, None));
      SpentBound(cfg, next);
      var rest;
      rest, t := RunsUntilItWaits(cfg, next);
      labels := [l] + rest;
      assert labels[1..] == rest;
    }
  }

  ghost predicate IsAnsweredRun(cfg: Config, s: State, labels: seq<Label>, t: State,
                                lookups: Family -> Answer, dials: nat -> (bool, Option<DialError>))
    decreases |labels|
  {
    if labels == [] then s == t
    else Enabled(s, labels[0]) && (Internal(s, labels[0]) || Answers(labels[0], lookups, dials)) &&
         IsAnsweredRun(cfg, Apply(cfg, s, labels[0]), labels[1..], t, lookups, dials)
  }

  /** What the race waits for can answer. */
  lemma {:induction false} AnswerStep(s: State, lookups: Family -> Answer, dials: nat -> (bool, Option<DialError>))
    returns (l: Label)
    requires Waiting(s)
    ensures Enabled(s, l) && Answers(l, lookups, dials)
  {
    if s.dns.r4.Looking? {
      l := Resolution(LookupReturns(V4, lookups(V4)));
    } else if s.dns.r6.Looking? {
      l := Resolution(LookupReturns(V6, lookups(V6)));
    } else {
      var i :| 0 <= i < |s.world.attempts| && s.world.attempts[i].phase.Dialling?;
      l := Environment(DialReturns(i, dials(i).0, dials(i).1, None));
    }
  }

  /** Whatever the lookups and dials answer, the race goes on from every reachable state to its return. */
  lemma {:induction false} RaceReturns(cfg: Config, s: State, lookups: Family -> Answer, dials: nat -> (bool, Option<DialError>))
    returns (labels: seq<Label>, t: State)
    requires Reachable(cfg, s)
    ensures IsAnsweredRun(cfg, s, labels, t, lookups, dials) && t.sched.pc.Returned?
    decreases StillLooking(s.dns), 18 * |s.dns.feed.seen| + 23 - Spent(s), CanTick(s)
  {
    if s.sched.pc.Returned? {
      labels, t := [], s;
    } else {
      var l;
      if Waiting(s) {
        l := AnswerStep(s, lookups, dials);
      } else {
        ReachableInv(cfg, s);
        l := OwnStep(cfg, s);
      }
      var next := TakeStep(cfg, s, l);
      StepProgresses(cfg, s, l, lookups, dials);
      SpentBound(cfg, next);
      var rest;
      rest, t := RaceReturns(cfg, next, lookups, dials);
      labels := [l] + rest;
      assert labels[1..] == rest;
    }
  }

  // ---------- Failure ----------

  lemma {:induction false} ExhaustedStarts(cfg: Config, s: State, family: Family)
    requires Inv(cfg, s) && OutcomeOf(s.sched.pc).Some? && OutcomeOf(s.sched.pc).value.Exhausted?
    ensures StartsOf(s.history, family) == Contributed(cfg, family, ResolverOf(s.dns, family))
  {
    assert FamilyInv(cfg, s.dns, s.sched.pc, s.history, family);
    var st := StartsOf(s.history, family);
    assert st + [] + [] == st;
  }

  /** A non-context error is returned only after both lookups completed and every admitted candidate was
      dialled and failed; if anything was dialled, the error is the failure received last, so the nil
      fallback is never used. */
  lemma {:induction false} FailureIsExhaustive(cfg: Config, s: State)
    requires Reachable(cfg, s) && s.sched.pc.Returned? && s.sched.pc.outcome.Exhausted?
    ensures s.dns.r4.Resolved? && s.dns.r6.Resolved?
    ensures StartsOf(s.history, V4) == Contribution(cfg, V4, s.dns.r4.answer)
    ensures StartsOf(s.history, V6) == Contribution(cfg, V6, s.dns.r6.answer)
    ensures forall i :: 0 <= i < |s.world.attempts| ==> s.world.attempts[i].phase.Received? && s.world.attempts[i].phase.result.Fail?
    ensures |s.world.attempts| > 0 ==>
              LastFailed(s.history) < |s.world.attempts| &&
              s.world.attempts[LastFailed(s.history)].phase.result.error == s.sched.pc.outcome.error
  {
    ReachableInv(cfg, s);
    ExhaustedStarts(cfg, s, V4);
    ExhaustedStarts(cfg, s, V6);
    CountBounds(s.world.attempts, |s.world.attempts|);
  }

  /** With no dial started the error is the one of the legacy path, for answers that respect the family
      asked for; without that, it is exactly when no dialable address was hidden in the wrong answer. */
  lemma {:induction false} RefusalMatchesLegacy(cfg: Config, s: State)
    requires Reachable(cfg, s) && s.sched.pc.Returned? && s.sched.pc.outcome.Exhausted? && |s.world.attempts| == 0
    ensures s.dns.r4.Resolved? && s.dns.r6.Resolved?
    ensures var a4, a6 := s.dns.r4.answer, s.dns.r6.answer;
            (Respects(RecordsOf(a4), V4) && Respects(RecordsOf(a6), V6) ==>
               LegacyVerdict(cfg, Merged(a4, a6)) == Refuses(s.sched.pc.outcome.error)) &&
            (LegacyVerdict(cfg, Merged(a4, a6)) == Refuses(s.sched.pc.outcome.error) <==>
               !Dialable(cfg, RecordsOf(a6) + RecordsOf(a4)))
  {
    ReachableInv(cfg, s);
    FailureIsExhaustive(cfg, s);
    var a4, a6 := s.dns.r4.answer, s.dns.r6.answer;
    BothAdmittedContents(cfg, a4, a6, true);
    assert FinalError(s.dns.feed, 0, None) == FinalError(BothAdmitted(cfg, a4, a6, true), 0, None);
    RefusalIsLegacyExactlyWithoutStrays(cfg, a4, a6, true);
    if Respects(RecordsOf(a4), V4) && Respects(RecordsOf(a6), V6) {
      RaceVerdictIsLegacy(cfg, a4, a6, true);
    }
  }

  /** Both lookups answer before the scheduler moves, and contribute nothing. */
  lemma {:induction false} NothingContributed(cfg: Config, a4: Answer, a6: Answer) returns (s: State)
    requires Contribution(cfg, V4, a4) == [] && Contribution(cfg, V6, a6) == []
    ensures Reachable(cfg, s) && s.world == INITIAL.world && s.sched == INITIAL.sched
    ensures IsEmpty(s.dns.feed) && s.dns.feed.closed
    ensures s.dns.r4 == Resolver.Resolved(a4) && s.dns.r6 == Resolver.Resolved(a6)
  {
    assert IsRun(cfg, INITIAL, [], INITIAL);
    s := TakeStep(cfg, INITIAL, Resolution(LookupReturns(V4, a4)));
    s := TakeStep(cfg, s, Resolution(LookupReturns(V6, a6)));
    BothAdmittedContents(cfg, a4, a6, true);
    s := TakeStep(cfg, s, Resolution(ResolverEnds(V4)));
    s := TakeStep(cfg, s, Resolution(ResolverEnds(V6)));
    s := TakeStep(cfg, s, Resolution(CloseFeed));
  }

  lemma {:induction false} RefusesAtOnce(cfg: Config, s: State) returns (t: State)
    requires Reachable(cfg, s) && s.world == INITIAL.world && s.sched == INITIAL.sched
    requires IsEmpty(s.dns.feed) && s.dns.feed.closed
    ensures Reachable(cfg, t) && t.dns == s.dns && |t.world.attempts| == 0
    ensures t.sched.pc.Returned? && t.sched.pc.outcome.Exhausted?
  {
    t := TakeStep(cfg, s, Scheduling(ReadClock));
    t := TakeStep(cfg, t, Scheduling(Advance));
    t := TakeStep(cfg, t, Scheduling(RunDeferred));
  }

  /** That case exists: an allowed v6 address in the v4 answer alone leaves the race with nothing to dial
      and an error the legacy path, which dials the address, does not give. */
  lemma {:induction false} StrayRefusalDiffers(cfg: Config, ip: IP) returns (s: State)
    requires cfg.network == Tcp && ip.family == V6 && Allowed(cfg.rules, cfg.host, ip)
    ensures Reachable(cfg, s) && s.sched.pc.Returned? && s.sched.pc.outcome.Exhausted? && |s.world.attempts| == 0
    ensures s.dns.r4 == Resolver.Resolved(Records([Some(ip)])) && s.dns.r6 == Resolver.Resolved(Records([]))
    ensures LegacyVerdict(cfg, Merged(s.dns.r4.answer, s.dns.r6.answer)) != Refuses(s.sched.pc.outcome.error)
  {
    var a4, a6 := Answer.Records([Some(ip)]), Answer.Records([]);
    NothingSelected(OneFamily(cfg, V4), cfg.port, a4.records);
    s := NothingContributed(cfg, a4, a6);
    s := RefusesAtOnce(cfg, s);
    assert Dialable(cfg, RecordsOf(a6) + RecordsOf(a4)) by { assert (RecordsOf(a6) + RecordsOf(a4))[0] == Some(ip); }
    RefusalMatchesLegacy(cfg, s);
  }

  // ---------- Status codes ----------

  /** `tcpDialError`. */
  function TcpDialStatus(e: Error): nat {
    if e == DeadlineExceeded || (e.NetError? && e.timeout) then 504 else 502
  }

  /** A deadline, or an error of the network that says it is a timeout. */
  predicate TimedOut(e: Error) {
    match e
    case DeadlineExceeded => true
    case NetError(_, timeout) => timeout
    case _ => false
  }

  /** The error mapping of `dialContextCheckACL`. */
  function HttpStatus(e: Error): nat {
    match e
    case LookupFailed(cause) => TcpDialStatus(cause)
    case NoAllowedAddress => 403
    case _ => TcpDialStatus(e)
  }

  /** The status of a failed race: 403 exactly when nothing was dialled, a lookup succeeded and every
      answered address was denied; when both lookups failed the v4 error alone decides 504 or 502; after
      failed dials the failure received last decides. */
  lemma {:induction false} StatusOfFailure(cfg: Config, s: State)
    requires Reachable(cfg, s) && s.sched.pc.Returned? && s.sched.pc.outcome.Exhausted?
    ensures s.dns.r4.Resolved? && s.dns.r6.Resolved?
    ensures var a4, a6, status := s.dns.r4.answer, s.dns.r6.answer, HttpStatus(s.sched.pc.outcome.error);
            (status == 403 <==> !(a4.LookupError? && a6.LookupError?) && !SomeAllowed(cfg, a4) && !SomeAllowed(cfg, a6)) &&
            (a4.LookupError? && a6.LookupError? ==> status == (if TimedOut(a4.error) then 504 else 502)) &&
            (|s.world.attempts| == 0 && (SomeAllowed(cfg, a4) || SomeAllowed(cfg, a6)) ==> status == 502) &&
            (|s.world.attempts| > 0 ==>
               LastFailed(s.history) < |s.world.attempts| && s.world.attempts[LastFailed(s.history)].phase.Received? &&
               var result := s.world.attempts[LastFailed(s.history)].phase.result;
               result.Fail? && status == (if TimedOut(result.error) then 504 else 502))
  {
    FailureIsExhaustive(cfg, s);
    var d, e := s.dns, s.sched.pc.outcome.error;
    assert DnsInv(cfg, d) && e == FinalError(d.feed, |s.world.attempts|, s.sched.lastErr) by { ReachableInv(cfg, s); }
    if |s.world.attempts| > 0 { DialledMeansAllowed(cfg, s); }
  }

  lemma {:induction false} DialledMeansAllowed(cfg: Config, s: State)
    requires Reachable(cfg, s) && |s.world.attempts| > 0
    ensures Permits(cfg, s.dns.r4) || Permits(cfg, s.dns.r6)
  {
    OnlyApprovedAddressesAreDialled(cfg, s);
    var a := s.world.attempts[0].address;
    var r := ResolverOf(s.dns, a.ip.family);
    var k :| 0 <= k < |r.answer.records| && r.answer.records[k] == Some(a.ip);
    assert SomeAllowed(cfg, r.answer);
  }
}
