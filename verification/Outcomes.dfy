/** What a race returns, told by what its lookups, dials and context reported along the run. */
module Outcomes {
  import opened Net
  import opened Candidates
  import opened FamilyFeed
  import opened Attempts
  import opened History
  import opened DialRace
  import opened DialRaceInvariants
  import opened DialRaceTheorems

  // ---------- One dial ----------

  /** What a dial reported: whether it gave a connection, its error, and the error of its own context. */
  datatype Report = Report(conn: bool, dialError: Option<DialError>, attemptError: Option<DialError>)

  predicate Connects(r: Report) {
    r.conn && r.dialError.None? && r.attemptError.None?
  }

  /** The error of a dial that does not connect: that of its context comes first, and a dial that reports
      neither an error nor a connection has failed. */
  function ErrorOf(r: Report): DialError {
    match r
    case Report(_, _, Some(e)) => e
    case Report(_, Some(e), None) => e
    case Report(_, None, None) => TargetConnectionFailed
  }

  predicate Tells(result: Result, r: Report) {
    if Connects(r) then result == Conn else result == Fail(ErrorOf(r))
  }

  /** When a dial returns, its attempt offers the connection exactly when there is one and no error, and
      otherwise the error; a connection that comes with an error is closed at once, and only then. */
  lemma {:induction false} DialIsOffered(w: World, i: nat, r: Report)
    requires WorldEnabled(w, DialReturns(i, r.conn, r.dialError, r.attemptError))
    ensures var a, b := w.attempts[i], WorldApply(w, DialReturns(i, r.conn, r.dialError, r.attemptError)).attempts[i];
            b.phase.Offering? && Tells(b.phase.result, r) && b.hasConn == r.conn &&
            b.closes == a.closes + (if r.conn && !Connects(r) then 1 else 0) &&
            b.address == a.address && b.startedAt == a.startedAt
  {
  }

  /** An attempt reports an error of its context only once the dial context has ended or five seconds after it
      started, and then it may. */
  lemma {:induction false} AttemptTimesOut(w: World, i: nat, conn: bool, error: Option<DialError>, e: DialError)
    requires i < |w.attempts| && w.attempts[i].phase.Dialling?
    ensures WorldEnabled(w, DialReturns(i, conn, error, Some(e))) <==> w.ctx.Some? || w.now >= w.attempts[i].startedAt + 5000
    ensures WorldEnabled(w, DialReturns(i, conn, error, None))
  {
  }

  // ---------- Reports along a run ----------

  /** What the i-th dial reported in these steps. */
  function ReportOf(labels: seq<Label>, i: nat): Option<Report> {
    if labels == [] then None
    else
      var n := |labels| - 1;
      match labels[n]
      case Environment(DialReturns(j, conn, dialError, attemptError)) =>
        if j == i then Some(Report(conn, dialError, attemptError)) else ReportOf(labels[..n], i)
      case _ => ReportOf(labels[..n], i)
  }

  /** The attempt stands where its report left it. */
  predicate Told(a: Attempt, r: Option<Report>) {
    match a.phase
    case Dialling => r.None?
    case Offering(result) => r.Some? && Tells(result, r.value)
    case Received(result) => r.Some? && Tells(result, r.value)
    case Abandoned => r.Some?
  }

  ghost predicate AttemptsTold(past: seq<Label>, attempts: seq<Attempt>) {
    (forall i :: 0 <= i < |attempts| ==> Told(attempts[i], ReportOf(past, i))) &&
    (forall i: nat :: i >= |attempts| ==> ReportOf(past, i).None?)
  }

  lemma {:induction false} ReportAfter(past: seq<Label>, l: Label, i: nat)
    ensures ReportOf(past + [l], i) ==
            if l.Environment? && l.world.DialReturns? && l.world.i == i
            then Some(Report(l.world.conn, l.world.dialError, l.world.attemptError)) else ReportOf(past, i)
  {
    assert (past + [l])[..|past|] == past;
  }

  lemma {:induction false} ToldAfterWorld(past: seq<Label>, w: World, l: WorldStep)
    requires AttemptsTold(past, w.attempts) && WorldEnabled(w, l)
    ensures AttemptsTold(past + [Environment(l)], WorldApply(w, l).attempts)
  {
    var after := WorldApply(w, l).attempts;
    forall i | 0 <= i < |after| ensures Told(after[i], ReportOf(past + [Environment(l)], i)) {
      ReportAfter(past, Environment(l), i);
      assert Told(w.attempts[i], ReportOf(past, i));
    }
    forall i: nat | i >= |after| ensures ReportOf(past + [Environment(l)], i).None? {
      ReportAfter(past, Environment(l), i);
    }
  }

  lemma {:induction false} ToldAfterOther(past: seq<Label>, attempts: seq<Attempt>, l: Label, after: seq<Attempt>)
    requires AttemptsTold(past, attempts) && !l.Environment? && |attempts| <= |after| <= |attempts| + 1
    requires forall i :: 0 <= i < |attempts| ==>
               after[i].phase == attempts[i].phase || (attempts[i].phase.Offering? && after[i].phase == Received(attempts[i].phase.result))
    requires |after| > |attempts| ==> after[|attempts|].phase.Dialling?
    ensures AttemptsTold(past + [l], after)
  {
    forall i | 0 <= i < |after| ensures Told(after[i], ReportOf(past + [l], i)) {
      ReportAfter(past, l, i);
      if i < |attempts| { assert Told(attempts[i], ReportOf(past, i)); }
    }
    forall i: nat | i >= |after| ensures ReportOf(past + [l], i).None? { ReportAfter(past, l, i); }
  }

  lemma {:induction false} ToldStep(cfg: Config, past: seq<Label>, s: State, l: Label)
    requires AttemptsTold(past, s.world.attempts) && Enabled(s, l)
    ensures AttemptsTold(past + [l], Apply(cfg, s, l).world.attempts)
  {
    match l
    case Environment(step) => ToldAfterWorld(past, s.world, step);
    case _ => ToldAfterOther(past, s.world.attempts, l, Apply(cfg, s, l).world.attempts);
  }

  /** A context that has ended was ended by the environment, unless the return itself cancelled it. */
  predicate ContextTold(past: seq<Label>, s: State) {
    (s.world.ctx.Some? ==> Environment(ContextEnds(s.world.ctx.value)) in past || (s.sched.pc.Returned? && !s.sched.pc.outcome.ContextEnded?)) &&
    (OutcomeOf(s.sched.pc).Some? && OutcomeOf(s.sched.pc).value.ContextEnded? ==>
       s.world.ctx.Some? && s.world.ctx.value == OutcomeOf(s.sched.pc).value.error)
  }

  lemma {:induction false} ContextStep(cfg: Config, past: seq<Label>, s: State, l: Label)
    requires ContextTold(past, s) && Enabled(s, l)
    ensures ContextTold(past + [l], Apply(cfg, s, l))
  {
    assert forall x :: x in past ==> x in past + [l];
    assert l in past + [l];
  }

  lemma {:induction false} ToldRun(cfg: Config, past: seq<Label>, s: State, labels: seq<Label>, t: State)
    requires AttemptsTold(past, s.world.attempts) && ContextTold(past, s) && IsRun(cfg, s, labels, t)
    ensures AttemptsTold(past + labels, t.world.attempts) && ContextTold(past + labels, t)
    decreases |labels|
  {
    if labels == [] {
      assert past + labels == past;
    } else {
      ToldStep(cfg, past, s, labels[0]);
      ContextStep(cfg, past, s, labels[0]);
      ToldRun(cfg, past + [labels[0]], Apply(cfg, s, labels[0]), labels[1..], t);
      assert past + [labels[0]] + labels[1..] == past + labels;
    }
  }

  lemma {:induction false} RunIsTold(cfg: Config, labels: seq<Label>, t: State)
    requires IsRun(cfg, INITIAL, labels, t)
    ensures AttemptsTold(labels, t.world.attempts) && ContextTold(labels, t)
  {
    ToldRun(cfg, [], INITIAL, labels, t);
    assert [] + labels == labels;
  }

  // ---------- The outcome of a run ----------

  /** The dial that was returned did connect. */
  lemma {:induction false} WinnerConnected(cfg: Config, labels: seq<Label>, t: State)
    requires IsRun(cfg, INITIAL, labels, t) && t.sched.pc.Returned? && t.sched.pc.outcome.Connected?
    ensures var i := t.sched.pc.outcome.attempt;
            i < |t.world.attempts| && ReportOf(labels, i).Some? && Connects(ReportOf(labels, i).value)
  {
    RunIsTold(cfg, labels, t);
    assert Ownership(t.world, OutcomeOf(t.sched.pc)) by { ReachableInv(cfg, t); }
    var i := t.sched.pc.outcome.attempt;
    assert Told(t.world.attempts[i], ReportOf(labels, i));
  }

  /** A race is exhausted only if no dial connected, and its error is that of the dial received last. */
  lemma {:induction false} ExhaustedMeansNoneConnected(cfg: Config, labels: seq<Label>, t: State)
    requires IsRun(cfg, INITIAL, labels, t) && t.sched.pc.Returned? && t.sched.pc.outcome.Exhausted?
    ensures forall i :: 0 <= i < |t.world.attempts| ==> ReportOf(labels, i).Some? && !Connects(ReportOf(labels, i).value)
    ensures |t.world.attempts| > 0 ==>
              LastFailed(t.history) < |t.world.attempts| &&
              t.sched.pc.outcome.error == ErrorOf(ReportOf(labels, LastFailed(t.history)).value)
  {
    RunIsTold(cfg, labels, t);
    FailureIsExhaustive(cfg, t);
    forall i | 0 <= i < |t.world.attempts| ensures ReportOf(labels, i).Some? && !Connects(ReportOf(labels, i).value) {
      assert Told(t.world.attempts[i], ReportOf(labels, i));
    }
    if |t.world.attempts| > 0 {
      assert Told(t.world.attempts[LastFailed(t.history)], ReportOf(labels, LastFailed(t.history)));
    }
  }

  /** A race returns its context's error only if the context ended with it. */
  lemma {:induction false} ContextErrorIsReported(cfg: Config, labels: seq<Label>, t: State)
    requires IsRun(cfg, INITIAL, labels, t) && t.sched.pc.Returned? && t.sched.pc.outcome.ContextEnded?
    ensures exists e: DialError :: Environment(ContextEnds(e)) in labels && t.sched.pc.outcome.error == e
  {
    RunIsTold(cfg, labels, t);
    assert Environment(ContextEnds(t.world.ctx.value)) in labels;
  }

  /** With a candidate admitted, and all dials that return connecting, a race whose context does not end
      returns a connection. */
  lemma {:induction false} ConnectingRaceConnects(cfg: Config, labels: seq<Label>, t: State)
    requires IsRun(cfg, INITIAL, labels, t) && t.sched.pc.Returned? && t.dns.feed.seen != {}
    requires forall i: nat :: ReportOf(labels, i).Some? ==> Connects(ReportOf(labels, i).value)
    requires forall e: DialError :: Environment(ContextEnds(e)) !in labels
    ensures t.sched.pc.outcome.Connected?
  {
    match t.sched.pc.outcome
    case Connected(_) =>
    case ContextEnded(_) => ContextErrorIsReported(cfg, labels, t);
    case Exhausted(_) =>
      ExhaustedMeansNoneConnected(cfg, labels, t);
      ExhaustedDialledAll(cfg, t);
  }

  lemma {:induction false} ExhaustedDialledAll(cfg: Config, t: State)
    requires Reachable(cfg, t) && t.sched.pc.Returned? && t.sched.pc.outcome.Exhausted?
    ensures |t.world.attempts| == |t.dns.feed.seen|
  {
    ReachableInv(cfg, t);
    FailureIsExhaustive(cfg, t);
    StartsWithinSeen(cfg, t);
  }

  // ---------- Answered runs ----------

  lemma {:induction false} AnsweredIsRun(cfg: Config, s: State, labels: seq<Label>, t: State,
                                         lookups: Family -> Answer, dials: nat -> (bool, Option<DialError>))
    requires IsAnsweredRun(cfg, s, labels, t, lookups, dials)
    ensures IsRun(cfg, s, labels, t)
    ensures forall k :: 0 <= k < |labels| && labels[k].Environment? ==>
              labels[k].world.Tick? || (labels[k].world.DialReturns? && Answers(labels[k], lookups, dials))
    decreases |labels|
  {
    if labels != [] {
      AnsweredIsRun(cfg, Apply(cfg, s, labels[0]), labels[1..], t, lookups, dials);
      forall k | 0 <= k < |labels| && labels[k].Environment?
        ensures labels[k].world.Tick? || (labels[k].world.DialReturns? && Answers(labels[k], lookups, dials))
      {
        if k > 0 { assert labels[k] == labels[1..][k - 1]; }
      }
    }
  }

  lemma {:induction false} ReportIsAnswer(labels: seq<Label>, i: nat, lookups: Family -> Answer, dials: nat -> (bool, Option<DialError>))
    requires forall k :: 0 <= k < |labels| && labels[k].Environment? ==>
               labels[k].world.Tick? || (labels[k].world.DialReturns? && Answers(labels[k], lookups, dials))
    ensures ReportOf(labels, i).Some? ==> ReportOf(labels, i).value == Report(dials(i).0, dials(i).1, None)
  {
    if labels != [] { ReportIsAnswer(labels[..|labels| - 1], i, lookups, dials); }
  }

  /** A race answered by `lookups` and `dials` that has returned: the connection it returns is one `dials` gives;
      if it is exhausted, no dialled address connects and the error is that of the dial received last; and if all
      dials connect and there is something to dial, it returns a connection. */
  lemma {:induction false} AnsweredOutcome(cfg: Config, labels: seq<Label>, t: State,
                                           lookups: Family -> Answer, dials: nat -> (bool, Option<DialError>))
    requires IsAnsweredRun(cfg, INITIAL, labels, t, lookups, dials) && t.sched.pc.Returned?
    ensures !t.sched.pc.outcome.ContextEnded?
    ensures t.sched.pc.outcome.Connected? ==> dials(t.sched.pc.outcome.attempt) == (true, None)
    ensures t.sched.pc.outcome.Exhausted? ==> forall i :: 0 <= i < |t.world.attempts| ==> dials(i) != (true, None)
    ensures t.sched.pc.outcome.Exhausted? && |t.world.attempts| > 0 ==>
              var answer := dials(LastFailed(t.history)).1;
              t.sched.pc.outcome.error == (if answer.Some? then answer.value else TargetConnectionFailed)
    ensures (forall i: nat :: dials(i) == (true, None)) && t.dns.feed.seen != {} ==> t.sched.pc.outcome.Connected?
  {
    AnsweredIsRun(cfg, INITIAL, labels, t, lookups, dials);
    forall i: nat ensures ReportOf(labels, i).Some? ==> ReportOf(labels, i).value == Report(dials(i).0, dials(i).1, None) {
      ReportIsAnswer(labels, i, lookups, dials);
    }
    if t.sched.pc.outcome.ContextEnded? { ContextErrorIsReported(cfg, labels, t); }
    if t.sched.pc.outcome.Connected? { WinnerConnected(cfg, labels, t); }
    if t.sched.pc.outcome.Exhausted? {
      ExhaustedMeansNoneConnected(cfg, labels, t);
      ExhaustedDialledAll(cfg, t);
    }
  }

  // ---------- Cancellation ----------

  ghost predicate IsSchedulerRun(cfg: Config, s: State, labels: seq<Label>, t: State)
    decreases |labels|
  {
    if labels == [] then s == t
    else labels[0].Scheduling? && Enabled(s, labels[0]) && IsSchedulerRun(cfg, Apply(cfg, s, labels[0]), labels[1..], t)
  }

  function StepsToReturn(pc: Pc): nat {
    match pc
    case Top => 4
    case Check(_) => 3
    case Popped(_) => 2
    case Selecting => 2
    case Returning(_) => 1
    case Returned(_) => 0
  }

  /** Once its context has ended the scheduler returns in at most four steps of its own, whatever the lookups
      and dials still in flight do. */
  lemma {:induction false} CancelledRaceReturns(cfg: Config, s: State) returns (labels: seq<Label>, t: State)
    requires s.world.ctx.Some?
    ensures IsSchedulerRun(cfg, s, labels, t) && t.sched.pc.Returned? && |labels| <= 4
    ensures |labels| <= StepsToReturn(s.sched.pc)
    decreases StepsToReturn(s.sched.pc)
  {
    if s.sched.pc.Returned? {
      labels, t := [], s;
    } else {
      var l := Scheduling(match s.sched.pc
                          case Top => ReadClock
                          case Check(_) => Advance
                          case Popped(_) => Launch
                          case Selecting => OnContext
                          case Returning(_) => RunDeferred);
      var rest;
      rest, t := CancelledRaceReturns(cfg, Apply(cfg, s, l));
      labels := [l] + rest;
      assert labels[1..] == rest;
    }
  }
}
