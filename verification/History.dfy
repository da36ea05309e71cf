/** The events a dial scheduler acts on, in order, and what they determine. */
module History {
  import opened Net
  import opened Attempts

  datatype Event =
    | Start(address: Address, at: nat)
    | Failure(attempt: nat, error: DialError, at: nat)
    | Success(attempt: nat)
    | Wake
    | Fire

  datatype History = Empty | Then(past: History, event: Event)

  function Starts(h: History): nat {
    match h
    case Empty => 0
    case Then(past, Start(_, _)) => Starts(past) + 1
    case Then(past, _) => Starts(past)
  }

  function StartTimes(h: History): (r: seq<nat>)
    ensures |r| == Starts(h)
  {
    match h
    case Empty => []
    case Then(past, Start(_, at)) => StartTimes(past) + [at]
    case Then(past, _) => StartTimes(past)
  }

  function StartAddresses(h: History): (r: seq<Address>)
    ensures |r| == Starts(h)
  {
    match h
    case Empty => []
    case Then(past, Start(a, _)) => StartAddresses(past) + [a]
    case Then(past, _) => StartAddresses(past)
  }

  function StartsOf(h: History, family: Family): seq<Address> {
    match h
    case Empty => []
    case Then(past, Start(a, _)) => if FamilyOf(a) == Some(family) then StartsOf(past, family) + [a] else StartsOf(past, family)
    case Then(past, _) => StartsOf(past, family)
  }

  function Failures(h: History): nat {
    match h
    case Empty => 0
    case Then(past, Failure(_, _, _)) => Failures(past) + 1
    case Then(past, _) => Failures(past)
  }

  function Successes(h: History): nat {
    match h
    case Empty => 0
    case Then(past, Success(_)) => Successes(past) + 1
    case Then(past, _) => Successes(past)
  }

  function Wakes(h: History): nat {
    match h
    case Empty => 0
    case Then(past, Wake) => Wakes(past) + 1
    case Then(past, _) => Wakes(past)
  }

  function Fires(h: History): nat {
    match h
    case Empty => 0
    case Then(past, Fire) => Fires(past) + 1
    case Then(past, _) => Fires(past)
  }

  function Length(h: History): nat {
    if h.Empty? then 0 else Length(h.past) + 1
  }

  function LastStart(h: History): Option<nat> {
    match h
    case Empty => None
    case Then(_, Start(_, at)) => Some(at)
    case Then(past, _) => LastStart(past)
  }

  function LastFamily(h: History): Option<Family> {
    match h
    case Empty => None
    case Then(_, Start(a, _)) => FamilyOf(a)
    case Then(past, _) => LastFamily(past)
  }

  function LastError(h: History): Option<DialError> {
    match h
    case Empty => None
    case Then(_, Failure(_, e, _)) => Some(e)
    case Then(past, _) => LastError(past)
  }

  /** The attempt whose failure was received last. */
  function LastFailed(h: History): nat {
    match h
    case Empty => 0
    case Then(_, Failure(i, _, _)) => i
    case Then(past, _) => LastFailed(past)
  }

  /** Failures received since the last start. */
  function FailuresSinceStart(h: History): nat {
    match h
    case Empty => 0
    case Then(_, Start(_, _)) => 0
    case Then(past, Failure(_, _, _)) => FailuresSinceStart(past) + 1
    case Then(past, _) => FailuresSinceStart(past)
  }

  /** The window policy: 250 ms after the last start, or 100 ms once a failure has been received. */
  function NextReady(h: History): Option<nat> {
    if LastStart(h).None? then None
    else Some(LastStart(h).value + (if FailuresSinceStart(h) > 0 then MINIMUM_DELAY else FALLBACK_DELAY))
  }

  /** Every start respects the window its past leaves. */
  predicate WellPaced(h: History) {
    match h
    case Empty => true
    case Then(past, Start(_, at)) => WellPaced(past) && (NextReady(past).Some? ==> at >= NextReady(past).value)
    case Then(past, _) => WellPaced(past)
  }

  /** Failures received after the i-th start and before the j-th (starts are counted from 0). */
  function FailuresBetween(h: History, i: nat, j: nat): nat {
    match h
    case Empty => 0
    case Then(past, Failure(_, _, _)) => FailuresBetween(past, i, j) + (if i < Starts(past) <= j then 1 else 0)
    case Then(past, _) => FailuresBetween(past, i, j)
  }

  lemma {:induction false} FailuresSplit(h: History, i: nat, j: nat)
    requires i < j == Starts(h)
    ensures FailuresBetween(h, i, j) == FailuresBetween(h, i, j - 1) + FailuresSinceStart(h)
  {
    match h
    case Empty =>
    case Then(past, Start(_, _)) => NoFailuresYet(past, i, j);
    case Then(past, _) => FailuresSplit(past, i, j);
  }

  lemma {:induction false} NoFailuresYet(h: History, i: nat, j: nat)
    requires Starts(h) < j
    ensures FailuresBetween(h, i, j) == FailuresBetween(h, i, j - 1)
  {
    match h
    case Empty =>
    case Then(past, _) => NoFailuresYet(past, i, j);
  }

  lemma {:induction false} LastStartIsLast(h: History)
    ensures Starts(h) == 0 <==> LastStart(h).None?
    ensures Starts(h) > 0 ==> LastStart(h) == Some(StartTimes(h)[Starts(h) - 1])
  {
    match h
    case Empty =>
    case Then(past, _) => LastStartIsLast(past);
  }

  /** Pacing over a whole history: any two starts are 250 ms apart per step, less 150 ms for every
      failure received in between, and never closer than 100 ms per step. */
  lemma {:induction false} PacingOfHistory(h: History, i: nat, j: nat)
    requires WellPaced(h) && i <= j < Starts(h)
    ensures StartTimes(h)[j] - StartTimes(h)[i] >= 250 * (j - i) - 150 * FailuresBetween(h, i, j)
    ensures StartTimes(h)[j] - StartTimes(h)[i] >= 100 * (j - i)
  {
    match h {
      case Empty =>
      case Then(past, Start(_, _)) =>
        if j < Starts(past) {
          PacingOfHistory(past, i, j);
        } else if i < j {
          PacingOfHistory(past, i, j - 1);
          LastStartIsLast(past);
          FailuresSplit(past, i, j);
        }
      case Then(past, _) => PacingOfHistory(past, i, j);
    }
  }
}
