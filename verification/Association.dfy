/** The lifecycle of a CONNECT-UDP association (run in native_udp_association.go) as a transition system: two
    pump goroutines, the results channel, the activity channel, the idle timer and the run loop. */
module Association {
  import opened Net

  datatype Cause = PumpError(code: nat) | AssociationClosed | IdleExpired | Ended(code: nat)

  /** Pumping; returned but not yet sent on the results channel; sent. */
  datatype Pump = Running | Returned(error: Option<Cause>) | Sent(error: Option<Cause>)

  datatype Action = Cancel | CancelRead | CancelWrite | CloseUdp | Drained | CloseStream

  /** In the select loop; carrying out the k-th shutdown call; receiving the outstanding results; returned. */
  datatype Pc = Looping | Closing(k: nat) | Draining | Finished

  datatype State = State(
    now: nat, parent: Option<Cause>, stream: Option<Cause>, toUdp: Pump, toH3: Pump, results: seq<Option<Cause>>,
    activity: bool, timer: Option<nat>, pc: Pc, completed: nat, result: Option<Cause>, actions: seq<Action>,
    lastActivity: nat, lastConsumed: nat)

  datatype Label =
    | Tick(elapsed: nat)
    | ParentEnds(code: nat)
    | StreamEnds(code: nat)
    | Notify(first: bool)
    | PumpReturns(first: bool, error: Option<Cause>)
    | PumpSends(first: bool)
    | OnResult
    | OnActivity
    | OnTimer
    | OnParent
    | OnStream
    | Shut
    | Drain
    | Finish

  const RESULTS_CAPACITY := 2
  const SHUTDOWN := [Cancel, CancelRead, CancelWrite, CloseUdp]

  function Initial(idle: nat): State {
    State(0, None, None, Running, Running, [], false, Some(idle), Looping, 0, None, [], 0, 0)
  }

  function PumpOf(s: State, first: bool): Pump {
    if first then s.toUdp else s.toH3
  }

  function WithPump(s: State, first: bool, p: Pump): State {
    if first then s.(toUdp := p) else s.(toH3 := p)
  }

  predicate Enabled(s: State, l: Label) {
    match l
    case Tick(elapsed) => elapsed > 0
    case ParentEnds(_) => s.parent.None?
    case StreamEnds(_) => s.stream.None?
    case Notify(first) => PumpOf(s, first).Running?
    case PumpReturns(first, _) => PumpOf(s, first).Running?
    case PumpSends(first) => PumpOf(s, first).Returned? && |s.results| < RESULTS_CAPACITY
    case OnResult => s.pc.Looping? && s.results != []
    case OnActivity => s.pc.Looping? && s.activity
    case OnTimer => s.pc.Looping? && s.timer.Some? && s.now >= s.timer.value
    case OnParent => s.pc.Looping? && s.parent.Some?
    case OnStream => s.pc.Looping? && s.stream.Some?
    case Shut => s.pc.Closing?
    case Drain => s.pc.Draining? && s.completed < 2 && s.results != []
    case Finish => s.pc.Draining? && s.completed >= 2
  }

  function Leave(s: State, cause: Cause): State {
    s.(result := Some(cause), pc := Closing(0))
  }

  function Apply(idle: nat, s: State, l: Label): State
    requires Enabled(s, l)
  {
    match l
    case Tick(elapsed) => s.(now := s.now + elapsed)
    case ParentEnds(code) => s.(parent := Some(Ended(code)))
    case StreamEnds(code) => s.(stream := Some(Ended(code)))
    case Notify(_) => s.(activity := true, lastActivity := s.now)
    case PumpReturns(first, error) => WithPump(s, first, Returned(error))
    case PumpSends(first) => WithPump(s, first, Sent(PumpOf(s, first).error)).(results := s.results + [PumpOf(s, first).error])
    case OnResult =>
      var cause := if s.results[0].Some? then s.results[0].value else AssociationClosed;
      Leave(s.(results := s.results[1..], completed := s.completed + 1), cause)
    case OnActivity => s.(activity := false, timer := Some(s.now + idle), lastConsumed := s.now)
    case OnTimer => Leave(s.(timer := None), IdleExpired)
    case OnParent => Leave(s, s.parent.value)
    case OnStream => Leave(s, s.stream.value)
    case Shut =>
      var k := s.pc.k;
      if k >= |SHUTDOWN| then s.(pc := Draining)
      else s.(actions := s.actions + [SHUTDOWN[k]], pc := if k == |SHUTDOWN| - 1 then Draining else Closing(k + 1))
    case Drain => s.(results := s.results[1..], completed := s.completed + 1, actions := s.actions + [Drained])
    case Finish => s.(pc := Finished, actions := s.actions + [CloseStream])
  }

  ghost predicate IsRun(idle: nat, s: State, labels: seq<Label>, t: State)
    decreases |labels|
  {
    if labels == [] then s == t else Enabled(s, labels[0]) && IsRun(idle, Apply(idle, s, labels[0]), labels[1..], t)
  }

  ghost predicate Reachable(idle: nat, s: State) {
    exists labels :: IsRun(idle, Initial(idle), labels, s)
  }

  // ---------- Invariant ----------

  function Bit(b: bool): nat {
    if b then 1 else 0
  }

  /** Results received plus results waiting are the pumps that have sent. */
  predicate ResultsInv(s: State) {
    s.completed + |s.results| == Bit(s.toUdp.Sent?) + Bit(s.toH3.Sent?)
  }

  /** The shutdown calls come in their fixed order, the drain after them, the stream close last. */
  predicate OrderInv(pc: Pc, actions: seq<Action>, completed: nat, result: Option<Cause>) {
    (pc.Looping? <==> result.None?) &&
    match pc
    case Looping => actions == [] && completed == 0
    case Closing(k) => k < |SHUTDOWN| && actions == SHUTDOWN[..k] && completed <= 1
    case Draining => completed <= 2 && DrainedAfterShutdown(actions)
    case Finished => completed == 2 && |actions| > 0 && actions[|actions| - 1] == CloseStream && DrainedAfterShutdown(actions[..|actions| - 1])
  }

  /** The four shutdown calls followed by received results only. */
  predicate DrainedAfterShutdown(actions: seq<Action>) {
    |SHUTDOWN| <= |actions| && actions[..|SHUTDOWN|] == SHUTDOWN &&
    forall i :: |SHUTDOWN| <= i < |actions| ==> actions[i] == Drained
  }

  /** While looping the timer is armed for the idle timeout after the last consumed activity, and every
      notification not consumed is still pending. */
  predicate IdleInv(idle: nat, s: State) {
    (s.pc.Looping? ==> s.timer == Some(s.lastConsumed + idle)) &&
    s.lastConsumed <= s.now && s.lastActivity <= s.now &&
    (!s.activity ==> s.lastActivity <= s.lastConsumed)
  }

  predicate Inv(idle: nat, s: State) {
    ResultsInv(s) && OrderInv(s.pc, s.actions, s.completed, s.result) && IdleInv(idle, s)
  }

  lemma {:induction false} ShutKeepsOrder(k: nat, actions: seq<Action>, completed: nat, result: Option<Cause>)
    requires OrderInv(Closing(k), actions, completed, result)
    ensures OrderInv(if k == |SHUTDOWN| - 1 then Draining else Closing(k + 1), actions + [SHUTDOWN[k]], completed, result)
  {
    assert SHUTDOWN[..k] + [SHUTDOWN[k]] == SHUTDOWN[..k + 1];
  }

  /** Until the shutdown starts, a step leaves the order alone or begins the shutdown. */
  lemma {:induction false} OrderBeforeShutdown(idle: nat, s: State, l: Label)
    requires OrderInv(s.pc, s.actions, s.completed, s.result) && Enabled(s, l) && !l.Shut? && !l.Drain? && !l.Finish?
    ensures var t := Apply(idle, s, l); OrderInv(t.pc, t.actions, t.completed, t.result)
  {
    var t := Apply(idle, s, l);
    if s.pc.Looping? && t.pc.Closing? {
      assert t.actions == SHUTDOWN[..0];
    } else {
      assert t.pc == s.pc && t.actions == s.actions && t.completed == s.completed && t.result == s.result;
    }
  }

  lemma {:induction false} OrderPreserved(idle: nat, s: State, l: Label)
    requires OrderInv(s.pc, s.actions, s.completed, s.result) && Enabled(s, l)
    ensures var t := Apply(idle, s, l); OrderInv(t.pc, t.actions, t.completed, t.result)
  {
    if l.Shut? {
      ShutKeepsOrder(s.pc.k, s.actions, s.completed, s.result);
    } else if l.Finish? {
      assert (s.actions + [CloseStream])[..|s.actions|] == s.actions;
    } else if !l.Drain? {
      OrderBeforeShutdown(idle, s, l);
    }
  }

  lemma {:induction false} ResultsPreserved(idle: nat, s: State, l: Label)
    requires ResultsInv(s) && Enabled(s, l)
    ensures ResultsInv(Apply(idle, s, l))
  {
  }

  lemma {:induction false} IdlePreserved(idle: nat, s: State, l: Label)
    requires IdleInv(idle, s) && Enabled(s, l)
    ensures IdleInv(idle, Apply(idle, s, l))
  {
  }

  lemma {:induction false} StepKeepsInv(idle: nat, s: State, l: Label)
    requires Inv(idle, s) && Enabled(s, l)
    ensures Inv(idle, Apply(idle, s, l))
  {
    OrderPreserved(idle, s, l);
    ResultsPreserved(idle, s, l);
    IdlePreserved(idle, s, l);
  }

  lemma {:induction false} RunKeepsInv(idle: nat, s: State, labels: seq<Label>, t: State)
    requires Inv(idle, s) && IsRun(idle, s, labels, t)
    ensures Inv(idle, t)
    decreases |labels|
  {
    if labels != [] {
      StepKeepsInv(idle, s, labels[0]);
      RunKeepsInv(idle, Apply(idle, s, labels[0]), labels[1..], t);
    }
  }

  lemma {:induction false} ReachableInv(idle: nat, s: State)
    requires Reachable(idle, s)
    ensures Inv(idle, s)
  {
    var labels :| IsRun(idle, Initial(idle), labels, s);
    RunKeepsInv(idle, Initial(idle), labels, s);
  }

  // ---------- Theorems ----------

  /** Whatever ended it, the association returns a non-nil result, only after both pumps have reported, with
      the UDP side closed before the drain and the stream after it. */
  lemma {:induction false} ShutdownOrder(idle: nat, s: State)
    requires Reachable(idle, s) && s.pc.Finished?
    ensures s.result.Some? && s.toUdp.Sent? && s.toH3.Sent? && s.results == []
    ensures |s.actions| > 4 && s.actions[..4] == [Cancel, CancelRead, CancelWrite, CloseUdp]
    ensures forall i :: 4 <= i < |s.actions| - 1 ==> s.actions[i] == Drained
    ensures s.actions[|s.actions| - 1] == CloseStream
  {
    ReachableInv(idle, s);
    var before := s.actions[..|s.actions| - 1];
    assert s.actions[..4] == before[..4];
    forall i | 4 <= i < |s.actions| - 1 ensures s.actions[i] == Drained { assert s.actions[i] == before[i]; }
  }

  // ---------- The result ----------

  lemma {:induction false} ResultKept(idle: nat, s: State, labels: seq<Label>, t: State)
    requires IsRun(idle, s, labels, t) && !s.pc.Looping?
    ensures !t.pc.Looping? && t.result == s.result
    decreases |labels|
  {
    if labels != [] { ResultKept(idle, Apply(idle, s, labels[0]), labels[1..], t); }
  }

  /** What ends the loop is what `run` returns, through the whole shutdown: the deadline for the idle timer, a
      pump's error or errConnectUDPClosed if it had none, the parent's cause, or the stream's. */
  lemma {:induction false} ResultIsTheCause(idle: nat, s: State, l: Label, labels: seq<Label>, t: State)
    requires s.pc.Looping? && Enabled(s, l) && IsRun(idle, Apply(idle, s, l), labels, t)
    ensures l.OnTimer? ==> t.result == Some(IdleExpired)
    ensures l.OnResult? ==> t.result == Some(if s.results[0].Some? then s.results[0].value else AssociationClosed)
    ensures l.OnParent? ==> t.result == s.parent
    ensures l.OnStream? ==> t.result == s.stream
  {
    if l.OnTimer? || l.OnResult? || l.OnParent? || l.OnStream? {
      ResultKept(idle, Apply(idle, s, l), labels, t);
    }
  }

  /** Every association that has left its loop left it in one of these four ways. */
  lemma {:induction false} SomethingEndsTheLoop(idle: nat, s: State, labels: seq<Label>, t: State)
    returns (m: State, l: Label, rest: seq<Label>)
    requires IsRun(idle, s, labels, t) && s.pc.Looping? && !t.pc.Looping?
    ensures m.pc.Looping? && Enabled(m, l) && IsRun(idle, Apply(idle, m, l), rest, t)
    ensures l.OnTimer? || l.OnResult? || l.OnParent? || l.OnStream?
    decreases |labels|
  {
    var next := Apply(idle, s, labels[0]);
    if next.pc.Looping? {
      m, l, rest := SomethingEndsTheLoop(idle, next, labels[1..], t);
    } else {
      m, l, rest := s, labels[0], labels[1..];
    }
  }

  predicate EndsTraced(past: seq<Label>, s: State) {
    (s.parent.Some? ==> s.parent.value.Ended? && ParentEnds(s.parent.value.code) in past) &&
    (s.stream.Some? ==> s.stream.value.Ended? && StreamEnds(s.stream.value.code) in past)
  }

  predicate PumpsTraced(past: seq<Label>, s: State) {
    (s.toUdp.Returned? ==> PumpReturns(true, s.toUdp.error) in past) &&
    (s.toH3.Returned? ==> PumpReturns(false, s.toH3.error) in past)
  }

  predicate ByPump(past: seq<Label>, r: Option<Cause>) {
    PumpReturns(true, r) in past || PumpReturns(false, r) in past
  }

  predicate ResultsTraced(past: seq<Label>, results: seq<Option<Cause>>) {
    forall k :: 0 <= k < |results| ==> ByPump(past, results[k])
  }

  /** The causes a state holds are those reported by the steps that led to it. */
  predicate Traced(past: seq<Label>, s: State) {
    EndsTraced(past, s) && PumpsTraced(past, s) && ResultsTraced(past, s.results)
  }

  lemma {:induction false} TracedLonger(past: seq<Label>, s: State, l: Label)
    requires Traced(past, s)
    ensures Traced(past + [l], s)
  {
    assert forall x :: x in past ==> x in past + [l];
    forall k | 0 <= k < |s.results| ensures ByPump(past + [l], s.results[k]) { assert ByPump(past, s.results[k]); }
  }

  lemma {:induction false} EndsStep(idle: nat, past: seq<Label>, s: State, l: Label)
    requires EndsTraced(past, s) && Enabled(s, l) && l in past
    ensures EndsTraced(past, Apply(idle, s, l))
  {
  }

  lemma {:induction false} PumpsStep(idle: nat, past: seq<Label>, s: State, l: Label)
    requires PumpsTraced(past, s) && Enabled(s, l) && l in past
    ensures PumpsTraced(past, Apply(idle, s, l))
  {
  }

  lemma {:induction false} ResultsStep(idle: nat, past: seq<Label>, s: State, l: Label)
    requires PumpsTraced(past, s) && ResultsTraced(past, s.results) && Enabled(s, l)
    ensures ResultsTraced(past, Apply(idle, s, l).results)
  {
    if l.PumpSends? {
      assert ByPump(past, PumpOf(s, l.first).error);
    } else {
      assert Apply(idle, s, l).results == s.results || (s.results != [] && Apply(idle, s, l).results == s.results[1..]);
    }
  }

  lemma {:induction false} TracedStep(idle: nat, past: seq<Label>, s: State, l: Label)
    requires Traced(past, s) && Enabled(s, l) && l in past
    ensures Traced(past, Apply(idle, s, l))
  {
    EndsStep(idle, past, s, l);
    PumpsStep(idle, past, s, l);
    ResultsStep(idle, past, s, l);
  }

  lemma {:induction false} TracedRun(idle: nat, past: seq<Label>, s: State, labels: seq<Label>, t: State)
    requires Traced(past, s) && IsRun(idle, s, labels, t)
    ensures Traced(past + labels, t)
    decreases |labels|
  {
    if labels == [] {
      assert past + labels == past;
    } else {
      TracedLonger(past, s, labels[0]);
      TracedStep(idle, past + [labels[0]], s, labels[0]);
      TracedRun(idle, past + [labels[0]], Apply(idle, s, labels[0]), labels[1..], t);
      assert past + [labels[0]] + labels[1..] == past + labels;
    }
  }

  /** Nothing is made up on the way: what the loop can leave with was reported by a pump, the parent or the
      stream of this very run. */
  lemma {:induction false} CausesWereReported(idle: nat, labels: seq<Label>, s: State)
    requires IsRun(idle, Initial(idle), labels, s)
    ensures Traced(labels, s)
  {
    TracedRun(idle, [], Initial(idle), labels, s);
    assert [] + labels == labels;
  }

  // ---------- Progress ----------

  /** No pump ever blocks on reporting: the results channel has room for it. */
  lemma {:induction false} PumpsNeverBlock(idle: nat, s: State, first: bool)
    requires Reachable(idle, s) && PumpOf(s, first).Returned?
    ensures Enabled(s, PumpSends(first))
  {
    ReachableInv(idle, s);
  }

  /** Short of a pump still at work, the association can always move on; while looping the idle timer is armed
      for the timeout after the last consumed activity, and each event the loop waits for can end its wait. */
  lemma {:induction false} NeverStuck(idle: nat, s: State)
    requires Reachable(idle, s) && !s.pc.Finished?
    ensures s.pc.Looping? ==> s.timer == Some(s.lastConsumed + idle)
    ensures s.pc.Looping? ==>
              (s.now >= s.lastConsumed + idle <==> Enabled(s, OnTimer)) && (s.activity <==> Enabled(s, OnActivity)) &&
              (s.parent.Some? <==> Enabled(s, OnParent)) && (s.stream.Some? <==> Enabled(s, OnStream)) &&
              (s.results != [] <==> Enabled(s, OnResult))
    ensures !s.pc.Looping? && !s.toUdp.Running? && !s.toH3.Running? ==>
              Enabled(s, Shut) || Enabled(s, Drain) || Enabled(s, Finish) || Enabled(s, PumpSends(true)) || Enabled(s, PumpSends(false))
  {
    ReachableInv(idle, s);
  }

  /** Steps taken without any outside event, except that time passes up to the idle timer while looping, and
      that pumps return once the shutdown has begun. */
  predicate Unaided(s: State, l: Label) {
    match l
    case Tick(elapsed) => s.pc.Looping? && s.timer.Some? && s.now + elapsed == s.timer.value
    case PumpReturns(_, _) => !s.pc.Looping?
    case ParentEnds(_) => false
    case StreamEnds(_) => false
    case Notify(_) => false
    case _ => true
  }

  ghost predicate IsUnaidedRun(idle: nat, s: State, labels: seq<Label>, t: State)
    decreases |labels|
  {
    if labels == [] then s == t
    else Enabled(s, labels[0]) && Unaided(s, labels[0]) && IsUnaidedRun(idle, Apply(idle, s, labels[0]), labels[1..], t)
  }

  function PcRank(pc: Pc): nat {
    match pc
    case Looping => 6
    case Closing(k) => if k < 4 then 5 - k else 2
    case Draining => 1
    case Finished => 0
  }

  function PumpRank(p: Pump): nat {
    match p
    case Running => 2
    case Returned(_) => 1
    case Sent(_) => 0
  }

  predicate CanTick(s: State) {
    s.timer.Some? && s.now < s.timer.value
  }

  lemma {:induction false} UnaidedStep(idle: nat, s: State) returns (l: Label)
    requires Inv(idle, s) && !s.pc.Finished?
    ensures Enabled(s, l) && Unaided(s, l)
    ensures var t := Apply(idle, s, l);
            PcRank(t.pc) < PcRank(s.pc) ||
            (t.pc == s.pc && t.completed <= 2 && s.completed <= 2 &&
             var a, b := PumpRank(s.toUdp) + PumpRank(s.toH3) + 2 - s.completed, PumpRank(t.toUdp) + PumpRank(t.toH3) + 2 - t.completed;
             b < a || (b == a && CanTick(s) && !CanTick(t)))
  {
    match s.pc
    case Looping => l := if CanTick(s) then Tick(s.timer.value - s.now) else OnTimer;
    case Closing(_) => l := Shut;
    case Draining =>
      if s.completed >= 2 {
        l := Finish;
      } else if s.results != [] {
        l := Drain;
      } else {
        var first := !s.toUdp.Sent?;
        l := if PumpOf(s, first).Running? then PumpReturns(first, None) else PumpSends(first);
      }
  }

  /** Left alone, with pumps that return once they are cancelled, every association comes to its return. */
  lemma {:induction false} AssociationFinishes(idle: nat, s: State) returns (labels: seq<Label>, t: State)
    requires Inv(idle, s)
    ensures IsUnaidedRun(idle, s, labels, t) && t.pc.Finished?
    decreases PcRank(s.pc), PumpRank(s.toUdp) + PumpRank(s.toH3) + 2 - s.completed, CanTick(s)
  {
    if s.pc.Finished? {
      labels, t := [], s;
    } else {
      var l := UnaidedStep(idle, s);
      StepKeepsInv(idle, s, l);
      var rest;
      rest, t := AssociationFinishes(idle, Apply(idle, s, l));
      labels := [l] + rest;
      assert labels[1..] == rest;
    }
  }

  /** The same from every reachable state. */
  lemma {:induction false} RunReturns(idle: nat, s: State) returns (labels: seq<Label>, t: State)
    requires Reachable(idle, s)
    ensures IsUnaidedRun(idle, s, labels, t) && t.pc.Finished?
  {
    ReachableInv(idle, s);
    labels, t := AssociationFinishes(idle, s);
  }

  /** The idle branch never fires sooner than the idle timeout after the last consumed activity; it fires
      sooner than that after the last activity only if a notification is still waiting to be consumed. */
  lemma {:induction false} IdleExpiryIsNotEarly(idle: nat, s: State)
    requires Reachable(idle, s) && Enabled(s, OnTimer)
    ensures s.now >= s.lastConsumed + idle
    ensures s.now < s.lastActivity + idle ==> s.activity
  {
    ReachableInv(idle, s);
  }

  /** It does happen: a notification waiting when the timer expires does not save the association. */
  lemma {:induction false} PendingActivityCanBeIgnored(idle: nat)
    requires idle > 0
    ensures exists s :: Reachable(idle, s) && Enabled(s, OnTimer) && s.now < s.lastActivity + idle
  {
    var s0 := Initial(idle);
    var s1 := Apply(idle, s0, Tick(idle));
    var s2 := Apply(idle, s1, Notify(true));
    var labels := [Tick(idle), Notify(true)];
    assert labels[1..] == [Notify(true)] && labels[1..][1..] == [];
    assert IsRun(idle, s2, [], s2);
    assert IsRun(idle, s1, labels[1..], s2);
    assert IsRun(idle, s0, labels, s2);
    assert Reachable(idle, s2);
  }
}
