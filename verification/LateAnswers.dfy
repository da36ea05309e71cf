/** Which late answers keep the dial race a run of the static scheduler. */
module LateAnswers {
  import opened Net
  import opened Policy
  import opened Candidates
  import opened FamilyFeed
  import opened Attempts
  import opened History
  import opened DialRace
  import opened DialRaceInvariants
  import opened DialRaceTheorems
  import opened StaticDial
  import opened Refinement

  // ---------- The order still to be dialled ----------

  /** What remains to be popped, given the last family. */
  function Upcoming(f: Feed, last: Option<Family>): seq<Address> {
    if last == Some(V6) then Zip(f.v4, f.v6) else Zip(f.v6, f.v4)
  }

  lemma {:induction false} UpcomingPops(f: Feed, last: Option<Family>)
    requires Pure(f) && !IsEmpty(f)
    ensures var (rest, a) := Pop(f, last); Upcoming(f, last) == [a] + Upcoming(rest, FamilyOf(a))
  {
    var family := NextFamily(f, last);
    var mine, theirs := Queue(f, family), Queue(f, Other(family));
    assert FamilyOf(mine[0]) == Some(family);
    ZipSwap(mine, theirs);
  }

  /** The dials so far follow the list, and what is left of it is what the feed will give. */
  predicate OrderInv(s: State, addresses: seq<Address>) {
    var k, f := s.sched, s.dns.feed;
    BothAnswered(s.dns) && Pure(f) && k.started == Starts(s.history) && StartAddresses(s.history) <= addresses &&
    (k.pc.Popped? ==> addresses[k.started..] == [k.pc.address] + Upcoming(f, FamilyOf(k.pc.address))) &&
    (OutcomeOf(k.pc).None? && !k.pc.Popped? ==> addresses[k.started..] == Upcoming(f, k.lastFamily))
  }

  lemma {:induction false} OrderAfterPop(s: State, addresses: seq<Address>)
    requires OrderInv(s, addresses) && s.sched.pc.Check? && s.sched.pc.due && !IsEmpty(s.dns.feed)
    ensures OrderInv(AfterAdvance(s), addresses)
  {
    UpcomingPops(s.dns.feed, s.sched.lastFamily);
  }

  lemma {:induction false} OrderAfterStart(s: State, addresses: seq<Address>)
    requires OrderInv(s, addresses) && s.sched.pc.Popped? && s.world.ctx.None?
    ensures OrderInv(AfterLaunch(s), addresses)
  {
    assert addresses[s.sched.started..][1..] == addresses[s.sched.started + 1..];
    assert addresses[s.sched.started] == addresses[s.sched.started..][0];
  }

  lemma {:induction false} OrderAfterSched(s: State, l: SchedStep, addresses: seq<Address>)
    requires OrderInv(s, addresses) && SchedEnabled(s, l)
    ensures OrderInv(SchedApply(s, l), addresses)
  {
    if l.Advance? && s.sched.pc.due && !IsEmpty(s.dns.feed) {
      OrderAfterPop(s, addresses);
    } else if l.Launch? && s.world.ctx.None? {
      OrderAfterStart(s, addresses);
    }
  }

  lemma {:induction false} OrderAfterDns(cfg: Config, s: State, l: DnsStep, addresses: seq<Address>)
    requires OrderInv(s, addresses) && DnsEnabled(s.dns, l)
    ensures OrderInv(s.(dns := DnsApply(cfg, s.dns, l)), addresses)
    ensures !l.LookupReturns?
  {
  }

  lemma {:induction false} RunKeepsOrder(cfg: Config, s: State, labels: seq<Label>, u: State, addresses: seq<Address>)
    requires OrderInv(s, addresses) && IsRun(cfg, s, labels, u)
    ensures OrderInv(u, addresses)
    decreases |labels|
  {
    if labels != [] {
      match labels[0] {
        case Environment(_) =>
        case Resolution(step) => OrderAfterDns(cfg, s, step, addresses);
        case Scheduling(step) => OrderAfterSched(s, step, addresses);
      }
      RunKeepsOrder(cfg, Apply(cfg, s, labels[0]), labels[1..], u, addresses);
    }
  }

  // ---------- The candidates chosen so far ----------

  function InHand(pc: Pc): seq<Address> {
    if pc.Popped? then [pc.address] else []
  }

  /** The dialled candidates and the one in the scheduler's hand. */
  function Chosen(s: State): seq<Address> {
    StartAddresses(s.history) + InHand(s.sched.pc)
  }

  /** The candidate in hand is dialled next, or the context ends the race and nothing more is dialled. */
  lemma {:induction false} ChosenComeFirst(cfg: Config, s: State, labels: seq<Label>, u: State)
    requires IsRun(cfg, s, labels, u)
    ensures Chosen(s) <= StartAddresses(u.history) || StartAddresses(u.history) == StartAddresses(s.history)
    decreases |labels|
  {
    RunExtends(cfg, s, labels, u);
    if s.sched.pc.Popped? && labels != [] {
      var t := Apply(cfg, s, labels[0]);
      if labels[0] != Scheduling(Launch) {
        ChosenComeFirst(cfg, t, labels[1..], u);
      } else if s.world.ctx.Some? {
        NoStartAfterTheEnd(cfg, t, labels[1..], u);
      } else {
        RunExtends(cfg, t, labels[1..], u);
      }
    }
  }

  lemma {:induction false} StartsOfOneFamily(h: History, family: Family)
    requires Starts(h) == |StartsOf(h, V4)| + |StartsOf(h, V6)| && StartsOf(h, Other(family)) == []
    ensures StartAddresses(h) == StartsOf(h, family)
  {
    match h
    case Empty =>
    case Then(past, _) =>
      StartsHaveFamily(past);
      StartsOfOneFamily(past, family);
  }

  /** A family's dials and the candidate in hand begin its contribution; the queue holds the rest. */
  lemma {:induction false} FamilyParts(cfg: Config, d: Dns, pc: Pc, h: History, family: Family)
    requires FamilyInv(cfg, d, pc, h, family)
    ensures var c, n := Contributed(cfg, family, ResolverOf(d, family)), |StartsOf(h, family)| + |PoppedOf(pc, family)|;
            AllOf(Queue(d.feed, family), family) && StartsOf(h, family) <= c &&
            (!Drops(pc) ==> StartsOf(h, family) + PoppedOf(pc, family) <= c && Queue(d.feed, family) == c[n..])
  {
  }

  lemma {:induction false} NoneOfFamily(cfg: Config, d: Dns, pc: Pc, h: History, family: Family)
    requires FamilyInv(cfg, d, pc, h, family) && Contributed(cfg, family, ResolverOf(d, family)) == []
    ensures StartsOf(h, family) == [] && PoppedOf(pc, family) == []
  {
    FamilyParts(cfg, d, pc, h, family);
  }

  lemma {:induction false} InHandHasFamily(pc: Pc, family: Family)
    requires pc.Popped? ==> FamilyOf(pc.address).Some?
    ensures InHand(pc) == PoppedOf(pc, family) + PoppedOf(pc, Other(family))
  {
    if pc.Popped? {
      assert FamilyOf(pc.address).value == family || FamilyOf(pc.address).value == Other(family);
    }
  }

  /** What is chosen while only `family` has contributed begins that contribution. */
  lemma {:induction false} OneFamilyChosen(cfg: Config, d: Dns, pc: Pc, h: History, family: Family)
    requires StartsOf(h, Other(family)) == [] && PoppedOf(pc, Other(family)) == [] && FamilyInv(cfg, d, pc, h, family)
    requires Starts(h) == |StartsOf(h, V4)| + |StartsOf(h, V6)| && (pc.Popped? ==> FamilyOf(pc.address).Some?)
    ensures StartAddresses(h) + InHand(pc) <= Contributed(cfg, family, ResolverOf(d, family))
  {
    StartsOfOneFamily(h, family);
    InHandHasFamily(pc, family);
    FamilyParts(cfg, d, pc, h, family);
  }

  /** Until a family answers, all that is chosen comes from the other one, in its order. */
  lemma {:induction false} ChosenBeforeAnswer(cfg: Config, s: State, family: Family)
    requires FeedInv(cfg, s.dns, s.sched.pc, s.history) && ResolverOf(s.dns, family).Looking?
    ensures Chosen(s) <= Contributed(cfg, Other(family), ResolverOf(s.dns, Other(family)))
  {
    NoneOfFamily(cfg, s.dns, s.sched.pc, s.history, family);
    OneFamilyChosen(cfg, s.dns, s.sched.pc, s.history, Other(family));
  }

  // ---------- The late answer ----------

  /** How many candidates of the other family may be chosen before a late answer of this one: the list
      starts with a v6 address, and a v4 address comes second. */
  function Allowance(family: Family): nat {
    if family == V4 then 1 else 0
  }

  /** s admits the second of the two answers. */
  predicate Completes(s: State, family: Family) {
    ResolverOf(s.dns, family).Looking? && !ResolverOf(s.dns, Other(family)).Looking?
  }

  function Completed(cfg: Config, s: State, family: Family, answer: Answer): State
    requires Completes(s, family)
  {
    Apply(cfg, s, Resolution(LookupReturns(family, answer)))
  }

  lemma {:induction false} LateList(cfg: Config, d: Dns)
    requires BothAnswered(d)
    ensures FullList(cfg, d) == Zip(Contribution(cfg, V6, d.r6.answer), Contribution(cfg, V4, d.r4.answer))
  {
    InterleavedContributions(cfg, d.r4.answer, d.r6.answer);
  }

  /** An answer that contributes nothing leaves the other family's order. */
  lemma {:induction false} NothingLate(cfg: Config, u: State, family: Family)
    requires FeedInv(cfg, u.dns, u.sched.pc, u.history) && BothAnswered(u.dns)
    requires Contribution(cfg, family, ResolverOf(u.dns, family).answer) == []
    ensures StartAddresses(u.history) <= FullList(cfg, u.dns)
  {
    FamilyParts(cfg, u.dns, u.sched.pc, u.history, family);
    FamilyParts(cfg, u.dns, u.sched.pc, u.history, Other(family));
    StartsOfOneFamily(u.history, Other(family));
    LateList(cfg, u.dns);
  }

  lemma {:induction false} NoFamilyYet(h: History)
    requires Starts(h) == 0
    ensures LastFamily(h).None? && LastStart(h).None?
    ensures StartsOf(h, V4) == [] && StartsOf(h, V6) == []
  {
    match h
    case Empty =>
    case Then(past, _) => NoFamilyYet(past);
  }

  lemma {:induction false} LastFamilyIsLast(h: History)
    requires Starts(h) > 0
    ensures LastFamily(h) == FamilyOf(StartAddresses(h)[Starts(h) - 1])
  {
    match h
    case Then(_, Start(_, _)) =>
    case Then(past, _) => LastFamilyIsLast(past);
  }

  predicate FeedAndLocals(cfg: Config, s: State) {
    FeedInv(cfg, s.dns, s.sched.pc, s.history) && LocalsInv(s.sched, s.history)
  }

  /** With both answers in and nothing chosen, the feed gives the full list. */
  lemma {:induction false} NothingChosen(cfg: Config, t: State)
    requires FeedAndLocals(cfg, t) && BothAnswered(t.dns) && Chosen(t) == []
    ensures OrderInv(t, FullList(cfg, t.dns))
  {
    var addresses := FullList(cfg, t.dns);
    LateList(cfg, t.dns);
    NoFamilyYet(t.history);
    FamilyParts(cfg, t.dns, t.sched.pc, t.history, V4);
    FamilyParts(cfg, t.dns, t.sched.pc, t.history, V6);
    assert addresses[0..] == addresses;
  }

  /** With both answers in and one v6 candidate in hand, the feed gives the rest of the full list. */
  lemma {:induction false} OneV6InHand(cfg: Config, t: State)
    requires FeedAndLocals(cfg, t) && BothAnswered(t.dns)
    requires t.sched.pc.Popped? && Starts(t.history) == 0 && FamilyOf(t.sched.pc.address) == Some(V6)
    ensures OrderInv(t, FullList(cfg, t.dns))
  {
    var c4, c6, addresses := Contribution(cfg, V4, t.dns.r4.answer), Contribution(cfg, V6, t.dns.r6.answer), FullList(cfg, t.dns);
    LateList(cfg, t.dns);
    NoFamilyYet(t.history);
    FamilyParts(cfg, t.dns, t.sched.pc, t.history, V4);
    FamilyParts(cfg, t.dns, t.sched.pc, t.history, V6);
    assert c6[0] == t.sched.pc.address;
    ZipSwap(c6, c4);
    assert addresses[0..] == addresses;
  }

  lemma {:induction false} OrderAfterOneV6(t: State, c6: seq<Address>, c4: seq<Address>)
    requires BothAnswered(t.dns) && Pure(t.dns.feed) && !t.sched.pc.Popped?
    requires t.sched.started == Starts(t.history) == 1 && c6 != [] && StartAddresses(t.history)[0] == c6[0]
    requires t.sched.lastFamily == Some(V6)
    requires OutcomeOf(t.sched.pc).None? ==> t.dns.feed.v4 == c4 && t.dns.feed.v6 == c6[1..]
    ensures OrderInv(t, Zip(c6, c4))
  {
    ZipSwap(c6, c4);
    assert Zip(c6, c4)[1..] == Zip(c4, c6[1..]);
  }

  /** The dial splits the two contributions into what is started and what is queued. */
  lemma {:induction false} QueuesAfterOneV6(cfg: Config, d: Dns, pc: Pc, h: History)
    requires FamilyInv(cfg, d, pc, h, V4) && FamilyInv(cfg, d, pc, h, V6) && !pc.Popped? && BothAnswered(d)
    requires Starts(h) == |StartsOf(h, V4)| + |StartsOf(h, V6)| == 1 && FamilyOf(StartAddresses(h)[0]) == Some(V6)
    ensures var c4, c6 := Contribution(cfg, V4, d.r4.answer), Contribution(cfg, V6, d.r6.answer);
            Pure(d.feed) && c6 != [] && StartAddresses(h)[0] == c6[0] &&
            (!Drops(pc) ==> d.feed.v4 == c4 && d.feed.v6 == c6[1..])
  {
    StartInFamily(h, 0);
    FamilyParts(cfg, d, pc, h, V4);
    FamilyParts(cfg, d, pc, h, V6);
  }

  /** The same with one v6 candidate dialled. */
  lemma {:induction false} OneV6Dialled(cfg: Config, t: State)
    requires FeedAndLocals(cfg, t) && BothAnswered(t.dns)
    requires !t.sched.pc.Popped? && Starts(t.history) == 1 && FamilyOf(StartAddresses(t.history)[0]) == Some(V6)
    ensures OrderInv(t, FullList(cfg, t.dns))
  {
    LastFamilyIsLast(t.history);
    QueuesAfterOneV6(cfg, t.dns, t.sched.pc, t.history);
    OrderAfterOneV6(t, Contribution(cfg, V6, t.dns.r6.answer), Contribution(cfg, V4, t.dns.r4.answer));
    LateList(cfg, t.dns);
  }

  /** A late contribution puts an address of its own where the other family's order goes on. */
  lemma {:induction false} LateListAt(cfg: Config, d: Dns, family: Family)
    requires BothAnswered(d) && Contribution(cfg, family, ResolverOf(d, family).answer) != []
    requires |Contribution(cfg, Other(family), ResolverOf(d, Other(family)).answer)| > Allowance(family)
    ensures |FullList(cfg, d)| > Allowance(family) && FamilyOf(FullList(cfg, d)[Allowance(family)]) == Some(family)
    ensures family == V4 ==> FullList(cfg, d)[0] == Contribution(cfg, V6, d.r6.answer)[0]
  {
    LateList(cfg, d);
    ContributionFits(cfg, family, ResolverOf(d, family).answer);
  }

  /** The answers stay as they were admitted. */
  lemma {:induction false} CompletedList(cfg: Config, s: State, family: Family, answer: Answer, labels: seq<Label>, u: State)
    requires Completes(s, family) && IsRun(cfg, Completed(cfg, s, family, answer), labels, u)
    ensures BothAnswered(u.dns) && ResolverOf(u.dns, family).answer == answer
    ensures ResolverOf(u.dns, Other(family)).answer == ResolverOf(s.dns, Other(family)).answer
    ensures FullList(cfg, u.dns) == FullList(cfg, Completed(cfg, s, family, answer).dns)
  {
    var t := Completed(cfg, s, family, answer);
    RunExtends(cfg, t, labels, u);
    assert !ResolverOf(u.dns, V4).Looking? && !ResolverOf(u.dns, V6).Looking?;
    assert ResolverOf(u.dns, V4).answer == ResolverOf(t.dns, V4).answer && ResolverOf(u.dns, V6).answer == ResolverOf(t.dns, V6).answer;
  }

  /** Dials that begin like c follow a list that first differs from c at k exactly as long as they do not
      pass k. */
  lemma {:induction false} PartingOfWays(dials: seq<Address>, before: seq<Address>, chosen: seq<Address>, c: seq<Address>, list: seq<Address>, k: nat)
    requires before <= chosen <= c && (chosen <= dials || dials == before)
    requires k < |chosen| && k < |list| && c[k] != list[k] && forall i :: 0 <= i < k ==> c[i] == list[i]
    ensures dials <= list <==> |dials| <= k
  {
    assert forall i :: 0 <= i < |dials| && i <= k ==> dials[i] == c[i];
  }

  /** Too many were chosen: the dials follow the list exactly as long as they do not pass the allowance. */
  lemma {:induction false} TooManyChosen(cfg: Config, s: State, family: Family, answer: Answer, labels: seq<Label>, u: State)
    requires Completes(s, family) && IsRun(cfg, Completed(cfg, s, family, answer), labels, u)
    requires Chosen(s) <= Contributed(cfg, Other(family), ResolverOf(s.dns, Other(family)))
    requires Contribution(cfg, family, answer) != [] && |Chosen(s)| > Allowance(family)
    ensures BothAnswered(u.dns)
    ensures StartAddresses(u.history) <= FullList(cfg, u.dns) <==> Starts(u.history) <= Allowance(family)
  {
    var t, g := Completed(cfg, s, family, answer), Other(family);
    var c := Contribution(cfg, g, ResolverOf(s.dns, g).answer);
    CompletedList(cfg, s, family, answer, labels, u);
    ChosenComeFirst(cfg, t, labels, u);
    LateListAt(cfg, u.dns, family);
    ContributionFits(cfg, g, ResolverOf(s.dns, g).answer);
    PartingOfWays(StartAddresses(u.history), StartAddresses(s.history), Chosen(s), c, FullList(cfg, u.dns), Allowance(family));
  }

  lemma {:induction false} FewChosen(cfg: Config, s: State, family: Family, answer: Answer, labels: seq<Label>, u: State)
    requires FeedAndLocals(cfg, s) && Completes(s, family) && IsRun(cfg, Completed(cfg, s, family, answer), labels, u)
    requires |Chosen(s)| <= Allowance(family)
    ensures BothAnswered(u.dns) && StartAddresses(u.history) <= FullList(cfg, u.dns)
  {
    var t := Completed(cfg, s, family, answer);
    FeedAfterDns(cfg, s.dns, s.sched.pc, s.history, LookupReturns(family, answer));
    CompletedList(cfg, s, family, answer, labels, u);
    if Chosen(s) == [] {
      NothingChosen(cfg, t);
    } else {
      ChosenBeforeAnswer(cfg, s, family);
      ContributionFits(cfg, V6, s.dns.r6.answer);
      assert FamilyOf(Chosen(s)[0]) == Some(V6);
      if s.sched.pc.Popped? { OneV6InHand(cfg, t); } else { OneV6Dialled(cfg, t); }
    }
    RunKeepsOrder(cfg, t, labels, u, FullList(cfg, t.dns));
  }

  /** The late answer keeps the list's order: it contributes nothing, few enough candidates were chosen
      before it, or the race never dials past those few. */
  predicate KeepsOrder(cfg: Config, s: State, family: Family, answer: Answer, u: State) {
    Contribution(cfg, family, answer) == [] || |Chosen(s)| <= Allowance(family) || Starts(u.history) <= Allowance(family)
  }

  lemma {:induction false} InOrderExactly(cfg: Config, s: State, family: Family, answer: Answer, labels: seq<Label>, u: State)
    requires Reachable(cfg, s) && Completes(s, family) && IsRun(cfg, Completed(cfg, s, family, answer), labels, u)
    ensures BothAnswered(u.dns)
    ensures StartAddresses(u.history) <= FullList(cfg, u.dns) <==> KeepsOrder(cfg, s, family, answer, u)
  {
    assert FeedAndLocals(cfg, s) by { ReachableInv(cfg, s); }
    CompletedList(cfg, s, family, answer, labels, u);
    if Contribution(cfg, family, answer) == [] {
      var t := TakeStep(cfg, s, Resolution(LookupReturns(family, answer)));
      ReachableRun(cfg, t, labels, u);
      assert FeedInv(cfg, u.dns, u.sched.pc, u.history) by { ReachableInv(cfg, u); }
      NothingLate(cfg, u, family);
    } else if |Chosen(s)| <= Allowance(family) {
      FewChosen(cfg, s, family, answer, labels, u);
    } else {
      ChosenBeforeAnswer(cfg, s, family);
      TooManyChosen(cfg, s, family, answer, labels, u);
    }
  }

  // ---------- Exactly when the race is a static run ----------

  /** The refinement theorem: with something to dial, a race in which `family` answers last is a run of the
      static scheduler, on the full list and from the start, exactly when that answer contributes nothing,
      comes before more than its allowance of candidates was chosen, or the dials stop at that allowance. */
  lemma {:induction false} RaceIsStaticExactly(cfg: Config, s: State, family: Family, answer: Answer, labels: seq<Label>, u: State)
    requires Reachable(cfg, s) && Completes(s, family) && IsRun(cfg, Completed(cfg, s, family, answer), labels, u)
    ensures BothAnswered(u.dns)
    ensures FullList(cfg, u.dns) != [] ==>
              (StaticRunLike(FullList(cfg, u.dns), INITIAL.world, u) <==> KeepsOrder(cfg, s, family, answer, u))
  {
    InOrderExactly(cfg, s, family, answer, labels, u);
    var t := TakeStep(cfg, s, Resolution(LookupReturns(family, answer)));
    ReachableRun(cfg, t, labels, u);
    var all :| IsRun(cfg, INITIAL, all, u);
    assert Reachable(cfg, INITIAL) by { assert IsRun(cfg, INITIAL, [], INITIAL); }
    if FullList(cfg, u.dns) != [] { StaticExactlyInOrder(cfg, INITIAL, all, u); }
  }

  /** The state in which the late answer is admitted decides: it contributes nothing, few enough candidates
      were chosen, or one too many is in hand and the context has ended, so that it will not be dialled. */
  predicate InTime(cfg: Config, s: State, family: Family, answer: Answer) {
    Contribution(cfg, family, answer) == [] || |Chosen(s)| <= Allowance(family) ||
    (Starts(s.history) <= Allowance(family) && s.world.ctx.Some?)
  }

  /** A run that shows it when the answer was not in time. */
  lemma {:induction false} TooLateRun(cfg: Config, s: State, family: Family, answer: Answer) returns (labels: seq<Label>, u: State)
    requires Completes(s, family) && !InTime(cfg, s, family, answer)
    ensures IsRun(cfg, Completed(cfg, s, family, answer), labels, u) && !KeepsOrder(cfg, s, family, answer, u)
  {
    var t := Completed(cfg, s, family, answer);
    if Starts(s.history) > Allowance(family) {
      labels, u := [], t;
    } else {
      var l := Scheduling(Launch);
      labels, u := [l], Apply(cfg, t, l);
      assert labels[1..] == [] && IsRun(cfg, u, [], u);
    }
  }

  /** Every state reached from t is one a static run on the full list reaches. */
  ghost predicate StaysStatic(cfg: Config, t: State)
    requires BothAnswered(t.dns)
  {
    forall labels, u :: IsRun(cfg, t, labels, u) ==> StaticRunLike(FullList(cfg, t.dns), INITIAL.world, u)
  }

  /** All runs that go on from the late answer are static runs exactly when it came in time. */
  lemma {:induction false} StaticWhateverFollows(cfg: Config, s: State, family: Family, answer: Answer)
    requires Reachable(cfg, s) && Completes(s, family) && FullList(cfg, Completed(cfg, s, family, answer).dns) != []
    ensures StaysStatic(cfg, Completed(cfg, s, family, answer)) <==> InTime(cfg, s, family, answer)
  {
    var t := Completed(cfg, s, family, answer);
    if InTime(cfg, s, family, answer) {
      forall labels, u | IsRun(cfg, t, labels, u) ensures StaticRunLike(FullList(cfg, t.dns), INITIAL.world, u) {
        CompletedList(cfg, s, family, answer, labels, u);
        RaceIsStaticExactly(cfg, s, family, answer, labels, u);
        if s.world.ctx.Some? { NoStartAfterTheEnd(cfg, t, labels, u); }
      }
    } else {
      var labels, u := TooLateRun(cfg, s, family, answer);
      CompletedList(cfg, s, family, answer, labels, u);
      RaceIsStaticExactly(cfg, s, family, answer, labels, u);
    }
  }

  /** Every race with both answers in has such a last answer. */
  lemma {:induction false} SomeAnswerCompletes(cfg: Config, s: State, labels: seq<Label>, u: State)
    returns (m: State, family: Family, answer: Answer, rest: seq<Label>)
    requires Reachable(cfg, s) && !BothAnswered(s.dns) && IsRun(cfg, s, labels, u) && BothAnswered(u.dns)
    ensures Reachable(cfg, m) && Completes(m, family) && IsRun(cfg, Completed(cfg, m, family, answer), rest, u)
    decreases |labels|
  {
    var t := TakeStep(cfg, s, labels[0]);
    if BothAnswered(t.dns) {
      m, family, answer, rest := s, labels[0].dns.family, labels[0].dns.answer, labels[1..];
    } else {
      m, family, answer, rest := SomeAnswerCompletes(cfg, t, labels[1..], u);
    }
  }

  /** Both lookups have been admitted, nothing has been chosen yet, and there is something to dial. */
  predicate ReadyToDial(s: State) {
    BothAnswered(s.dns) && s.sched.started == 0 && OutcomeOf(s.sched.pc).None? &&
    !s.sched.pc.Popped? && !IsEmpty(s.dns.feed)
  }

  lemma {:induction false} SameList(cfg: Config, t: State, labels: seq<Label>, u: State)
    requires BothAnswered(t.dns) && IsRun(cfg, t, labels, u)
    ensures BothAnswered(u.dns) && FullList(cfg, u.dns) == FullList(cfg, t.dns)
  {
    RunExtends(cfg, t, labels, u);
    assert ResolverOf(u.dns, V4).answer == t.dns.r4.answer && ResolverOf(u.dns, V6).answer == t.dns.r6.answer;
  }

  /** When both lookups complete before the first candidate is chosen, every run is a static run from there. */
  lemma {:induction false} RaceRefinesStaticScheduler(cfg: Config, s: State, labels: seq<Label>, u: State)
    requires Reachable(cfg, s) && ReadyToDial(s) && IsRun(cfg, s, labels, u)
    ensures StaticRunLike(FullList(cfg, s.dns), s.world, u)
  {
    assert FeedAndLocals(cfg, s) by { ReachableInv(cfg, s); }
    NothingChosen(cfg, s);
    RunKeepsOrder(cfg, s, labels, u, FullList(cfg, s.dns));
    SameList(cfg, s, labels, u);
    assert FullList(cfg, s.dns)[0..] != [] by { assert Upcoming(s.dns.feed, s.sched.lastFamily) != []; }
    InOrderIsStatic(cfg, s, labels, u);
  }

  // ---------- A late answer that breaks the order ----------

  /** The race after a v4 answer was dialled and a v6 answer came in late. */
  lemma {:induction false} LateV6Run(cfg: Config, ip4: IP, ip6: IP) returns (u: State)
    requires cfg.network == Tcp && ip4.family == V4 && ip6.family == V6
    requires Allowed(cfg.rules, cfg.host, ip4) && Allowed(cfg.rules, cfg.host, ip6)
    ensures Reachable(cfg, u) && BothAnswered(u.dns)
    ensures u.dns.r4.answer == Records([Some(ip4)]) && u.dns.r6.answer == Records([Some(ip6)])
    ensures |u.world.attempts| == 1 && u.world.attempts[0].address == HostPort(ip4, cfg.port)
  {
    var a4, a6 := Records([Some(ip4)]), Records([Some(ip6)]);
    assert IsRun(cfg, INITIAL, [], INITIAL);
    u := TakeStep(cfg, INITIAL, Resolution(LookupReturns(V4, a4)));
    assert u.dns.feed.v4 == [HostPort(ip4, cfg.port)] && u.dns.feed.v6 == [] by {
      SingleContribution(cfg, ip4);
      AdmitEffect(cfg, V4, EMPTY_FEED, a4);
    }
    u := TakeStep(cfg, u, Scheduling(ReadClock));
    u := TakeStep(cfg, u, Scheduling(Advance));
    u := TakeStep(cfg, u, Scheduling(Launch));
    u := TakeStep(cfg, u, Resolution(LookupReturns(V6, a6)));
  }

  /** The failing case exists: a v4 address dialled before a v6 answer arrives is a first dial that no
      static run on the full list makes, whatever world it starts in. */
  lemma {:induction false} LateV6IsNotStatic(cfg: Config, ip4: IP, ip6: IP) returns (u: State)
    requires cfg.network == Tcp && ip4.family == V4 && ip6.family == V6
    requires Allowed(cfg.rules, cfg.host, ip4) && Allowed(cfg.rules, cfg.host, ip6)
    ensures Reachable(cfg, u) && BothAnswered(u.dns)
    ensures forall w: World, labels, v | w.attempts == [] && IsStaticRun(FullList(cfg, u.dns), StaticStart(w), labels, v) ::
              !SameStarts(u.world, v.world)
  {
    u := LateV6Run(cfg, ip4, ip6);
    var addresses := FullList(cfg, u.dns);
    assert addresses[0] == HostPort(ip6, cfg.port) by {
      SingleContribution(cfg, ip6);
      SingleContribution(cfg, ip4);
      LateList(cfg, u.dns);
    }
    forall w: World, labels, v | w.attempts == [] && IsStaticRun(addresses, StaticStart(w), labels, v)
      ensures !SameStarts(u.world, v.world)
    {
      StaticRunInOrder(addresses, StaticStart(w), labels, v);
    }
  }
}
