/** The static scheduler (dialTCPAddresses in connect_dial.go) over an already ordered address list, acting
    on the same world as the dial race. */
module StaticDial {
  import opened Net
  import opened Attempts

  /** Before the first dial; in the select loop; past the return statement; returned. */
  datatype StaticPc = Begin | Looping | Leaving(outcome: Outcome) | Left(outcome: Outcome)

  datatype StaticState = StaticState(
    world: World, pc: StaticPc, next: nat, pending: int, lastStart: nat, timer: Option<nat>, lastErr: Option<DialError>)

  datatype StaticLabel =
    | Moves(step: WorldStep)
    | First
    | Context
    | Result(attempt: nat)
    | Timer
    | Deferred

  function StaticStart(w: World): StaticState {
    StaticState(w, Begin, 0, 0, 0, None, None)
  }

  predicate StaticEnabled(t: StaticState, l: StaticLabel) {
    match l
    case Moves(step) => WorldEnabled(t.world, step)
    case First => t.pc.Begin?
    case Context => t.pc.Looping? && t.world.ctx.Some?
    case Result(i) => t.pc.Looping? && Offers(t.world, i)
    case Timer => t.pc.Looping? && t.timer.Some? && t.world.now >= t.timer.value
    case Deferred => t.pc.Leaving?
  }

  function Dialled(t: StaticState, a: Address): StaticState {
    var now := t.world.now;
    StaticState(Launched(t.world, a), Looping, t.next + 1, t.pending + 1, now, Some(now + FALLBACK_DELAY), t.lastErr)
  }

  function AfterStaticResult(addresses: seq<Address>, t: StaticState, i: nat): StaticState
    requires Offers(t.world, i)
  {
    match Offer(t.world, i)
    case Conn =>
      if t.world.ctx.Some?
      then t.(world := TakenAndClosed(t.world, i), pending := t.pending - 1, pc := Leaving(ContextEnded(t.world.ctx.value)))
      else t.(world := Taken(t.world, i), pending := t.pending - 1, pc := Leaving(Connected(i)))
    case Fail(e) =>
      var u := t.(world := Taken(t.world, i), pending := t.pending - 1, lastErr := Some(e));
      if u.next == |addresses| && u.pending == 0 then u.(pc := Leaving(Exhausted(e)))
      else if u.next < |addresses| then u.(timer := Some(Max(t.world.now, t.lastStart + MINIMUM_DELAY)))
      else u
  }

  function StaticApply(addresses: seq<Address>, t: StaticState, l: StaticLabel): StaticState
    requires StaticEnabled(t, l)
  {
    match l
    case Moves(step) => t.(world := WorldApply(t.world, step))
    case First =>
      if addresses == [] then t.(pc := Leaving(Exhausted(TargetConnectionFailed)))
      else if t.world.ctx.Some? then t.(pc := Leaving(ContextEnded(t.world.ctx.value)))
      else Dialled(t, addresses[0])
    case Context => t.(pc := Leaving(ContextEnded(t.world.ctx.value)))
    case Result(i) => AfterStaticResult(addresses, t, i)
    case Timer =>
      var u := t.(timer := None);
      if t.next >= |addresses| then u
      else if t.world.ctx.Some? then u.(pc := Leaving(ContextEnded(t.world.ctx.value)))
      else Dialled(u, addresses[t.next])
    case Deferred => t.(world := CancelledWorld(t.world), pc := Left(t.pc.outcome))
  }

  ghost predicate IsStaticRun(addresses: seq<Address>, t: StaticState, labels: seq<StaticLabel>, u: StaticState)
    decreases |labels|
  {
    if labels == [] then t == u
    else StaticEnabled(t, labels[0]) && IsStaticRun(addresses, StaticApply(addresses, t, labels[0]), labels[1..], u)
  }

  lemma {:induction false} ExtendRun(addresses: seq<Address>, t: StaticState, labels: seq<StaticLabel>, u: StaticState, l: StaticLabel)
    requires IsStaticRun(addresses, t, labels, u) && StaticEnabled(u, l)
    ensures IsStaticRun(addresses, t, labels + [l], StaticApply(addresses, u, l))
    decreases |labels|
  {
    if labels == [] {
      assert [l][1..] == [];
      assert labels + [l] == [l];
    } else {
      ExtendRun(addresses, StaticApply(addresses, t, labels[0]), labels[1..], u, l);
      assert (labels + [l])[1..] == labels[1..] + [l];
    }
  }
}
