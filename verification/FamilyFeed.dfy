/** The candidate feed of the dial race (tcpFamilyFeed in connect_dial_incremental.go): its value,
    the operations on that value, and the object whose methods carry them out under the lock. */
module FamilyFeed {
  import opened Net
  import opened Policy
  import opened Candidates

  datatype Feed = Feed(
    v4: seq<Address>, v6: seq<Address>, seen: set<Address>, closed: bool,
    errV4: Option<Error>, errV6: Option<Error>, passedACL: nat)

  const EMPTY_FEED := Feed([], [], {}, false, None, None, 0)

  function Queue(f: Feed, family: Family): seq<Address> {
    if family == V4 then f.v4 else f.v6
  }

  function WithQueue(f: Feed, family: Family, q: seq<Address>): Feed {
    if family == V4 then f.(v4 := q) else f.(v6 := q)
  }

  predicate IsEmpty(f: Feed) {
    f.v4 == [] && f.v6 == []
  }

  // ---------- Taking candidates ----------

  /** The family popLocked takes from; `last` None is "no dial started yet". */
  function NextFamily(f: Feed, last: Option<Family>): Family {
    match last
    case None => if f.v6 != [] then V6 else V4
    case Some(V4) => if f.v6 != [] then V6 else V4
    case Some(V6) => if f.v4 == [] then V6 else V4
  }

  function Pop(f: Feed, last: Option<Family>): (r: (Feed, Address))
    requires !IsEmpty(f)
  {
    var family := NextFamily(f, last);
    (WithQueue(f, family, Queue(f, family)[1..]), Queue(f, family)[0])
  }

  /** The order in which a feed that receives nothing more is emptied, the family of each popped
      address being fed back as the last family. */
  function Drain(f: Feed, last: Option<Family>): seq<Address>
    decreases |f.v4| + |f.v6|
  {
    if IsEmpty(f) then []
    else
      var (rest, a) := Pop(f, last);
      [a] + Drain(rest, FamilyOf(a))
  }

  predicate Pure(f: Feed) {
    AllOf(f.v4, V4) && AllOf(f.v6, V6)
  }

  /** Lazy popping equals static interleaving: v6 first with no history or after a v4 start,
      v4 first after a v6 start. */
  lemma {:induction false} DrainIsZip(f: Feed, last: Option<Family>)
    requires Pure(f)
    ensures last != Some(V6) ==> Drain(f, last) == Zip(f.v6, f.v4)
    ensures last == Some(V6) ==> Drain(f, last) == Zip(f.v4, f.v6)
    decreases |f.v4| + |f.v6|
  {
    if !IsEmpty(f) {
      var family := NextFamily(f, last);
      var (rest, a) := Pop(f, last);
      assert FamilyOf(a) == Some(family);
      DrainIsZip(rest, Some(family));
      var mine, theirs := Queue(f, family), Queue(f, Other(family));
      assert Drain(f, last) == [mine[0]] + Zip(theirs, mine[1..]);
      ZipSwap(mine, theirs);
    }
  }

  lemma {:induction false} ZipSwap(p: seq<Address>, q: seq<Address>)
    requires p != []
    ensures Zip(p, q) == [p[0]] + Zip(q, p[1..])
    decreases |p| + |q|
  {
    if q != [] {
      if p[1..] == [] {
        assert [p[0], q[0]] + q[1..] == [p[0]] + q;
      } else {
        ZipSwap(q, p[1..]);
        assert [p[0], q[0]] + Zip(p[1..], q[1..]) == [p[0]] + ([q[0]] + Zip(p[1..], q[1..]));
      }
    }
  }

  /** Draining a fixed feed is `interleaveTCPAddresses` of the v6-then-v4 list; starting after a v6 dial
      it is the same of the v4-then-v6 list. */
  lemma DrainIsInterleaved(f: Feed, network: Network)
    requires Pure(f)
    requires !Fits(network, V4) ==> f.v4 == []
    requires !Fits(network, V6) ==> f.v6 == []
    ensures Drain(f, None) == Interleaved(network, f.v6 + f.v4)
    ensures Drain(f, Some(V6)) == Interleaved(network, f.v4 + f.v6)
  {
    DrainIsZip(f, None);
    DrainIsZip(f, Some(V6));
    InterleavedByFamily(network, f.v6, f.v4, V6);
    InterleavedByFamily(network, f.v4, f.v6, V4);
  }

  // ---------- Admitting an answer ----------

  function AdmitRecord(cfg: Config, family: Family, f: Feed, record: Option<IP>): Feed {
    if record.None? || !Allowed(cfg.rules, cfg.host, record.value) then f
    else
      var g := f.(passedACL := f.passedACL + 1);
      var a := HostPort(record.value, cfg.port);
      if record.value.family != family || !Fits(cfg.network, record.value.family) || a in f.seen then g
      else WithQueue(g.(seen := g.seen + {a}), family, Queue(g, family) + [a])
  }

  function AdmitRecords(cfg: Config, family: Family, f: Feed, records: Records): Feed {
    if records == [] then f
    else
      var n := |records| - 1;
      AdmitRecord(cfg, family, AdmitRecords(cfg, family, f, records[..n]), records[n])
  }

  /** The critical section of one resolver goroutine. */
  function Admit(cfg: Config, family: Family, f: Feed, answer: Answer): Feed {
    match answer
    case LookupError(e) => if family == V4 then f.(errV4 := Some(e)) else f.(errV6 := Some(e))
    case Records(records) => AdmitRecords(cfg, family, f, records)
  }

  /** The addresses an answer contributes to the race. */
  function Contribution(cfg: Config, family: Family, answer: Answer): seq<Address> {
    if answer.LookupError? then [] else Select(OneFamily(cfg, family), cfg.port, answer.records)
  }

  lemma {:induction false} SingleContribution(cfg: Config, ip: IP)
    requires Allowed(cfg.rules, cfg.host, ip) && cfg.network == Tcp
    ensures Contribution(cfg, ip.family, Records([Some(ip)])) == [HostPort(ip, cfg.port)]
  {
    SelectSnoc(OneFamily(cfg, ip.family), cfg.port, [], ip);
    assert [] + [Some(ip)] == [Some(ip)];
  }

  /** Exactly which addresses an answer contributes: the allowed ones of the family asked for, and none of a
      family that an explicit tcp4 or tcp6 excludes. */
  lemma {:induction false} ContributionExactly(cfg: Config, family: Family, answer: Answer, a: Address)
    ensures a in Contribution(cfg, family, answer) <==>
            answer.Records? && a.HostPort? && a.port == cfg.port && Some(a.ip) in answer.records &&
            Allowed(cfg.rules, cfg.host, a.ip) && a.ip.family == family &&
            (cfg.network == Tcp || (cfg.network == Tcp4 && family == V4) || (cfg.network == Tcp6 && family == V6))
  {
    if answer.Records? { SelectedExactly(OneFamily(cfg, family), cfg.port, answer.records); }
  }

  predicate SomeAllowed(cfg: Config, answer: Answer) {
    answer.Records? &&
    exists i :: 0 <= i < |answer.records| && answer.records[i].Some? && Allowed(cfg.rules, cfg.host, answer.records[i].value)
  }

  lemma {:induction false} AdmitRecordsQueue(cfg: Config, family: Family, f: Feed, records: Records)
    requires forall a :: a in f.seen ==> FamilyOf(a) == Some(Other(family))
    ensures var g, s := AdmitRecords(cfg, family, f, records), Select(OneFamily(cfg, family), cfg.port, records);
            g == WithQueue(f, family, Queue(f, family) + s).(seen := f.seen + Elements(s), passedACL := g.passedACL)
  {
    if records != [] {
      var n := |records| - 1;
      AdmitRecordsQueue(cfg, family, f, records[..n]);
      var before := Select(OneFamily(cfg, family), cfg.port, records[..n]);
      if records[n].Some? && Passes(OneFamily(cfg, family), records[n].value) {
        var a := HostPort(records[n].value, cfg.port);
        assert a !in f.seen;
        assert Elements(before + [a]) == Elements(before) + {a};
        assert Queue(f, family) + before + [a] == Queue(f, family) + (before + [a]);
      }
    } else {
      assert Elements(Select(OneFamily(cfg, family), cfg.port, [])) == {};
    }
  }

  lemma {:induction false} AdmitRecordsCount(cfg: Config, family: Family, f: Feed, records: Records)
    ensures AdmitRecords(cfg, family, f, records).passedACL >= f.passedACL
    ensures AdmitRecords(cfg, family, f, records).passedACL > f.passedACL <==> SomeAllowed(cfg, Answer.Records(records))
  {
    if records != [] {
      var n := |records| - 1;
      AdmitRecordsCount(cfg, family, f, records[..n]);
      assert forall i :: 0 <= i < n ==> records[..n][i] == records[i];
    }
  }

  /** Admission appends the answer's approved, requested, not yet seen addresses to the tail of the
      family's queue and touches nothing of the other family. */
  lemma AdmitEffect(cfg: Config, family: Family, f: Feed, answer: Answer)
    requires forall a :: a in f.seen ==> FamilyOf(a) == Some(Other(family))
    ensures var g, s := Admit(cfg, family, f, answer), Contribution(cfg, family, answer);
            Queue(g, family) == Queue(f, family) + s && Queue(g, Other(family)) == Queue(f, Other(family)) &&
            g.seen == f.seen + Elements(s) && g.closed == f.closed && AllOf(s, family) && Distinct(s) &&
            g.errV4 == (if family == V4 && answer.LookupError? then Some(answer.error) else f.errV4) &&
            g.errV6 == (if family == V6 && answer.LookupError? then Some(answer.error) else f.errV6) &&
            g.passedACL >= f.passedACL && (g.passedACL > f.passedACL <==> SomeAllowed(cfg, answer))
  {
    if answer.Records? {
      AdmitRecordsQueue(cfg, family, f, answer.records);
      AdmitRecordsCount(cfg, family, f, answer.records);
      SelectOfFamily(cfg, family, answer.records);
      SelectedExactly(OneFamily(cfg, family), cfg.port, answer.records);
      assert answer == Answer.Records(answer.records);
    }
  }

  // ---------- Terminal errors ----------

  /** `finalError`. */
  function FinalError(f: Feed, started: nat, lastErr: Option<Error>): Error {
    if started > 0 then
      if lastErr.None? then TargetConnectionFailed else lastErr.value
    else if f.errV4.Some? && f.errV6.Some? then LookupFailed(f.errV4.value)
    else if f.passedACL == 0 then NoAllowedAddress
    else TargetConnectionFailed
  }

  datatype Verdict = Dials(order: seq<Address>) | Refuses(error: Error)

  function RecordsOf(answer: Answer): Records {
    if answer.LookupError? then [] else answer.records
  }

  /** One merged lookup fails only when both families failed. */
  function Merged(a4: Answer, a6: Answer): Answer {
    if a4.LookupError? && a6.LookupError? then a4 else Records(RecordsOf(a6) + RecordsOf(a4))
  }

  /** Legacy resolution followed by `dialTCPAddresses`' interleaving. */
  function LegacyVerdict(cfg: Config, merged: Answer): Verdict {
    if merged.LookupError? then Refuses(LookupFailed(merged.error))
    else
      var approved := Select(AnyFamily(cfg), cfg.port, merged.records);
      if approved == [] then Refuses(NoAllowedAddress)
      else if Interleaved(cfg.network, approved) == [] then Refuses(TargetConnectionFailed)
      else Dials(Interleaved(cfg.network, approved))
  }

  /** What the feed holds once both lookups have been admitted, v4 first or v6 first. */
  function BothAdmitted(cfg: Config, a4: Answer, a6: Answer, v4First: bool): Feed {
    if v4First then Admit(cfg, V6, Admit(cfg, V4, EMPTY_FEED, a4), a6)
    else Admit(cfg, V4, Admit(cfg, V6, EMPTY_FEED, a6), a4)
  }

  /** What the race does with a complete feed. */
  function RaceVerdict(f: Feed): Verdict {
    if IsEmpty(f) then Refuses(FinalError(f, 0, None)) else Dials(Drain(f, None))
  }

  lemma BothAdmittedContents(cfg: Config, a4: Answer, a6: Answer, v4First: bool)
    ensures var f := BothAdmitted(cfg, a4, a6, v4First);
            f.v4 == Contribution(cfg, V4, a4) && f.v6 == Contribution(cfg, V6, a6) && Pure(f) &&
            (f.errV4.Some? <==> a4.LookupError?) && (f.errV6.Some? <==> a6.LookupError?) &&
            (a4.LookupError? ==> f.errV4.value == a4.error) &&
            (f.passedACL == 0 <==> !SomeAllowed(cfg, a4) && !SomeAllowed(cfg, a6))
  {
    if v4First {
      AdmitEffect(cfg, V4, EMPTY_FEED, a4);
      AdmitEffect(cfg, V6, Admit(cfg, V4, EMPTY_FEED, a4), a6);
    } else {
      AdmitEffect(cfg, V6, EMPTY_FEED, a6);
      AdmitEffect(cfg, V4, Admit(cfg, V6, EMPTY_FEED, a6), a4);
    }
  }

  lemma ApprovedEmptiness(cfg: Config, a4: Answer, a6: Answer)
    ensures Select(AnyFamily(cfg), cfg.port, RecordsOf(a6) + RecordsOf(a4)) == [] <==>
            !SomeAllowed(cfg, a4) && !SomeAllowed(cfg, a6)
  {
    var records := RecordsOf(a6) + RecordsOf(a4);
    var s := Select(AnyFamily(cfg), cfg.port, records);
    SelectedExactly(AnyFamily(cfg), cfg.port, records);
    if s != [] {
      assert s[0] in s;
      var k :| 0 <= k < |records| && records[k] == Some(s[0].ip);
      if k < |RecordsOf(a6)| { assert RecordsOf(a6)[k] == records[k]; }
      else { assert RecordsOf(a4)[k - |RecordsOf(a6)|] == records[k]; }
    }
    if SomeAllowed(cfg, a4) {
      var i :| 0 <= i < |a4.records| && a4.records[i].Some? && Allowed(cfg.rules, cfg.host, a4.records[i].value);
      assert records[|RecordsOf(a6)| + i] == a4.records[i];
      assert HostPort(a4.records[i].value, cfg.port) in s;
    }
    if SomeAllowed(cfg, a6) {
      var i :| 0 <= i < |a6.records| && a6.records[i].Some? && Allowed(cfg.rules, cfg.host, a6.records[i].value);
      assert records[i] == a6.records[i];
      assert HostPort(a6.records[i].value, cfg.port) in s;
    }
  }

  /** For answers that respect the family asked for, the race dials the legacy order, or refuses with
      the legacy error, whichever family was admitted first. */
  lemma RaceVerdictIsLegacy(cfg: Config, a4: Answer, a6: Answer, v4First: bool)
    requires Respects(RecordsOf(a4), V4) && Respects(RecordsOf(a6), V6)
    ensures RaceVerdict(BothAdmitted(cfg, a4, a6, v4First)) == LegacyVerdict(cfg, Merged(a4, a6))
  {
    var f := BothAdmitted(cfg, a4, a6, v4First);
    BothAdmittedContents(cfg, a4, a6, v4First);
    PerFamilyListsMatchMergedOrder(cfg, RecordsOf(a6), RecordsOf(a4));
    ApprovedEmptiness(cfg, a4, a6);
    DrainIsZip(f, None);
    assert f.v6 == Select(OneFamily(cfg, V6), cfg.port, RecordsOf(a6));
    assert f.v4 == Select(OneFamily(cfg, V4), cfg.port, RecordsOf(a4));
    assert IsEmpty(f) <==> Zip(f.v6, f.v4) == [];
  }

  /** An address the legacy path would dial. */
  predicate Dialable(cfg: Config, records: Records) {
    exists i :: 0 <= i < |records| && records[i].Some? &&
      Allowed(cfg.rules, cfg.host, records[i].value) && Fits(cfg.network, records[i].value.family)
  }

  lemma DialableEmptiness(cfg: Config, records: Records)
    ensures Interleaved(cfg.network, Select(AnyFamily(cfg), cfg.port, records)) == [] <==> !Dialable(cfg, records)
  {
    var approved := Select(AnyFamily(cfg), cfg.port, records);
    SelectedExactly(AnyFamily(cfg), cfg.port, records);
    InterleavedEmptiness(cfg.network, approved);
    if Dialable(cfg, records) {
      var i :| 0 <= i < |records| && records[i].Some? &&
        Allowed(cfg.rules, cfg.host, records[i].value) && Fits(cfg.network, records[i].value.family);
      assert HostPort(records[i].value, cfg.port) in approved;
    }
    if a :| a in approved && a.HostPort? && Fits(cfg.network, a.ip.family) {
      var i :| 0 <= i < |records| && records[i] == Some(a.ip);
      assert Dialable(cfg, records);
    }
  }

  /** For any answers whatever: when the race has nothing to dial its error is the legacy one exactly
      when no dialable address was hidden in the wrong family's answer. */
  lemma {:induction false} RefusalIsLegacyExactlyWithoutStrays(cfg: Config, a4: Answer, a6: Answer, v4First: bool)
    requires IsEmpty(BothAdmitted(cfg, a4, a6, v4First))
    ensures RaceVerdict(BothAdmitted(cfg, a4, a6, v4First)) == LegacyVerdict(cfg, Merged(a4, a6)) <==>
            !Dialable(cfg, RecordsOf(a6) + RecordsOf(a4))
  {
    BothAdmittedContents(cfg, a4, a6, v4First);
    ApprovedEmptiness(cfg, a4, a6);
    DialableEmptiness(cfg, RecordsOf(a6) + RecordsOf(a4));
  }

  lemma {:induction false} FilteredEmptiness(network: Network, s: seq<Address>)
    ensures Filtered(network, s) == [] <==> forall a :: a in s && a.HostPort? ==> !Fits(network, a.ip.family)
  {
    if s != [] {
      FilteredEmptiness(network, s[..|s| - 1]);
      assert s == s[..|s| - 1] + [s[|s| - 1]];
    }
  }

  lemma InterleavedEmptiness(network: Network, s: seq<Address>)
    ensures Interleaved(network, s) == [] <==> forall a :: a in s && a.HostPort? ==> !Fits(network, a.ip.family)
  {
    FilteredEmptiness(network, s);
    FilteredAreParsed(network, s);
    if Filtered(network, s) != [] {
      InterleavedSpec(network, s);
    }
  }

  // ---------- The object ----------

  class TcpFamilyFeed {
    var v4: seq<Address>
    var v6: seq<Address>
    var seen: set<Address>
    var closed: bool
    var wake: bool
    var errV4: Option<Error>
    var errV6: Option<Error>
    var passedACL: nat

    ghost function View(): Feed
      reads this
    {
      Feed(v4, v6, seen, closed, errV4, errV6, passedACL)
    }

    constructor ()
      ensures View() == EMPTY_FEED && !wake
    {
      v4, v6, seen, closed, wake := [], [], {}, false, false;
      errV4, errV6, passedACL := None, None, 0;
    }

    /** A send on the capacity-1 wake channel that never blocks. */
    method Pulse()
      modifies this`wake
      ensures wake
    {
      if !wake { wake := true; }
    }

    method PopLocked(lastFamily: Option<Family>) returns (addr: Option<Address>)
      modifies this`v4, this`v6
      ensures old(IsEmpty(View())) ==> addr == None && View() == old(View())
      ensures !old(IsEmpty(View())) ==>
                View() == Pop(old(View()), lastFamily).0 && addr == Some(Pop(old(View()), lastFamily).1)
    {
      if |v4| == 0 && |v6| == 0 { return None; }
      var takeV6 := false;
      match lastFamily {
        case None => takeV6 := |v6| > 0;
        case Some(V4) => takeV6 := |v6| > 0;
        case Some(V6) => takeV6 := |v4| == 0;
      }
      if takeV6 {
        addr := Some(v6[0]);
        v6 := v6[1..];
      } else {
        addr := Some(v4[0]);
        v4 := v4[1..];
      }
    }

    method Advance(due: bool, lastFamily: Option<Family>) returns (addr: Option<Address>, isClosed: bool, empty: bool)
      modifies this`v4, this`v6
      ensures isClosed == closed
      ensures if due && !old(IsEmpty(View()))
              then View() == Pop(old(View()), lastFamily).0 && addr == Some(Pop(old(View()), lastFamily).1) && !empty
              else View() == old(View()) && addr == None && empty == IsEmpty(View())
    {
      empty := |v4| == 0 && |v6| == 0;
      if due && !empty {
        addr := PopLocked(lastFamily);
        return addr, closed, false;
      }
      return None, closed, empty;
    }

    /** The critical section of a resolver goroutine; `added` decides whether it pulses. */
    method AdmitAnswer(cfg: Config, family: Family, answer: Answer) returns (added: bool)
      modifies this`v4, this`v6, this`seen, this`errV4, this`errV6, this`passedACL
      ensures View() == Admit(cfg, family, old(View()), answer)
      ensures added <==> View().seen != old(View().seen)
    {
      added := false;
      if answer.LookupError? {
        if family == V6 { errV6 := Some(answer.error); } else { errV4 := Some(answer.error); }
        return;
      }
      var records := answer.records;
      for i := 0 to |records|
        invariant View() == AdmitRecords(cfg, family, old(View()), records[..i])
        invariant old(seen) <= seen
        invariant added <==> seen != old(seen)
      {
        assert records[..i + 1][..i] == records[..i];
        if records[i].None? { continue; }
        var ip := records[i].value;
        var allowed := HostIsAllowed(cfg.rules, cfg.host, ip);
        AllowedByIndex(cfg.rules, cfg.host, ip);
        if !allowed { continue; }
        passedACL := passedACL + 1;
        if ip.family != family { continue; }
        if !Fits(cfg.network, ip.family) { continue; }
        var addr := HostPort(ip, cfg.port);
        if addr in seen { continue; }
        assert addr !in old(seen);
        seen := seen + {addr};
        if family == V6 { v6 := v6 + [addr]; } else { v4 := v4 + [addr]; }
        added := true;
      }
      assert records[..|records|] == records;
    }

    method Close()
      modifies this`closed
      ensures View() == old(View()).(closed := true)
    {
      closed := true;
    }
  }
}
