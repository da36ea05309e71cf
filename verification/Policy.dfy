/** Target policy: the domain-only pre-pass, the full ordered scan, and how they compose
    (native_udp_protocol.go, forwardproxy.go). */
module Policy {
  import opened Net
  import opened Acl

  /** The decision of the first rule that matches, in list order. */
  function FirstMatch(rules: seq<Rule>, ip: Option<IP>, host: string): Decision {
    if rules == [] then NoMatch
    else if TryMatch(rules[0], ip, host) != NoMatch then TryMatch(rules[0], ip, host)
    else FirstMatch(rules[1..], ip, host)
  }

  predicate Allowed(rules: seq<Rule>, host: string, ip: IP) {
    FirstMatch(rules, Some(ip), host) == Allow
  }

  /** The pre-pass decision: only domain rules are consulted, and no address is known yet. */
  function FirstDomainMatch(rules: seq<Rule>, host: string): Decision {
    if rules == [] then NoMatch
    else if rules[0].DomainRule? && TryMatch(rules[0], None, host) != NoMatch then TryMatch(rules[0], None, host)
    else FirstDomainMatch(rules[1..], host)
  }

  predicate IsFirst(rules: seq<Rule>, ip: Option<IP>, host: string, i: int) {
    0 <= i < |rules| && Matches(rules[i], ip, host) && forall j :: 0 <= j < i ==> !Matches(rules[j], ip, host)
  }

  predicate IsFirstDomain(rules: seq<Rule>, host: string, i: int) {
    0 <= i < |rules| && rules[i].DomainRule? && Matches(rules[i], None, host) &&
    forall j :: 0 <= j < i && rules[j].DomainRule? ==> !Matches(rules[j], None, host)
  }

  /** What `dialContextCheckACL` grants: the pre-pass did not deny, and the scan allows the address. */
  predicate Granted(rules: seq<Rule>, host: string, ip: IP) {
    FirstDomainMatch(rules, host) != Deny && Allowed(rules, host, ip)
  }

  // ---------- The two scans as the loops of the source ----------

  method HostIsAllowed(rules: seq<Rule>, host: string, ip: IP) returns (ok: bool)
    ensures ok <==> exists i :: IsFirst(rules, Some(ip), host, i) && rules[i].allow
  {
    for i := 0 to |rules|
      invariant forall j :: 0 <= j < i ==> !Matches(rules[j], Some(ip), host)
    {
      match TryMatch(rules[i], Some(ip), host) {
        case Deny =>
          assert IsFirst(rules, Some(ip), host, i);
          return false;
        case Allow =>
          assert IsFirst(rules, Some(ip), host, i);
          return true;
        case NoMatch =>
      }
    }
    return false;
  }

  datatype Preparation = Prepared | Malformed | PortDenied | DomainDenied

  predicate PortPermitted(port: Option<int>, allowedPorts: seq<int>) {
    port.Some? && 1 <= port.value <= 65535 && (allowedPorts == [] || port.value in allowedPorts)
  }

  /** `portIsAllowed`; None is a port that is not a decimal number. */
  method PortIsAllowed(port: Option<int>, allowedPorts: seq<int>) returns (ok: bool)
    ensures ok <==> PortPermitted(port, allowedPorts)
  {
    if port.None? { return false; }
    if port.value <= 0 || port.value > 65535 { return false; }
    if |allowedPorts| == 0 { return true; }
    for i := 0 to |allowedPorts|
      invariant port.value !in allowedPorts[..i]
    {
      if allowedPorts[i] == port.value { return true; }
    }
    assert allowedPorts[..|allowedPorts|] == allowedPorts;
    return false;
  }

  /** `prepareTargetPolicy`; `target` is None when the host:port string does not split. */
  method PrepareTarget(rules: seq<Rule>, allowedPorts: seq<int>, target: Option<(string, Option<int>)>)
    returns (r: Preparation)
    ensures r == Malformed <==> target.None?
    ensures r == PortDenied <==> target.Some? && !PortPermitted(target.value.1, allowedPorts)
    ensures r == DomainDenied <==>
            target.Some? && PortPermitted(target.value.1, allowedPorts) &&
            exists i :: IsFirstDomain(rules, target.value.0, i) && !rules[i].allow
  {
    if target.None? { return Malformed; }
    var portOk := PortIsAllowed(target.value.1, allowedPorts);
    if !portOk { return PortDenied; }
    var host := target.value.0;
    for i := 0 to |rules|
      invariant forall j :: 0 <= j < i && rules[j].DomainRule? ==> !Matches(rules[j], None, host)
    {
      if rules[i].DomainRule? {
        match TryMatch(rules[i], None, host) {
          case Deny =>
            assert IsFirstDomain(rules, host, i);
            return DomainDenied;
          case Allow =>
            assert IsFirstDomain(rules, host, i);
            return Prepared;
          case NoMatch =>
        }
      }
    }
    return Prepared;
  }

  // ---------- Scans by index ----------

  lemma {:induction false} FirstMatchIndex(rules: seq<Rule>, ip: Option<IP>, host: string) returns (i: nat)
    ensures FirstMatch(rules, ip, host) == NoMatch <==> forall j :: 0 <= j < |rules| ==> !Matches(rules[j], ip, host)
    ensures FirstMatch(rules, ip, host) != NoMatch ==>
              IsFirst(rules, ip, host, i) && FirstMatch(rules, ip, host) == TryMatch(rules[i], ip, host)
  {
    i := 0;
    if rules != [] && !Matches(rules[0], ip, host) {
      var k := FirstMatchIndex(rules[1..], ip, host);
      i := k + 1;
      assert forall j :: 1 <= j < |rules| ==> rules[j] == rules[1..][j - 1];
    }
  }

  lemma {:induction false} FirstDomainIndex(rules: seq<Rule>, host: string) returns (i: nat)
    ensures FirstDomainMatch(rules, host) == NoMatch <==>
            forall j :: 0 <= j < |rules| && rules[j].DomainRule? ==> !Matches(rules[j], None, host)
    ensures FirstDomainMatch(rules, host) != NoMatch ==>
              IsFirstDomain(rules, host, i) && FirstDomainMatch(rules, host) == TryMatch(rules[i], None, host)
  {
    i := 0;
    if rules != [] && !(rules[0].DomainRule? && Matches(rules[0], None, host)) {
      var k := FirstDomainIndex(rules[1..], host);
      i := k + 1;
      assert forall j :: 1 <= j < |rules| ==> rules[j] == rules[1..][j - 1];
    }
  }

  /** The two passes deny something the single scan allows exactly when a matching non-domain allow
      rule precedes the first matching domain rule and that domain rule denies. They never allow more. */
  lemma TwoPassesVersusOneScan(rules: seq<Rule>, host: string, ip: IP)
    ensures Granted(rules, host, ip) ==> exists i :: IsFirst(rules, Some(ip), host, i) && rules[i].allow
    ensures Granted(rules, host, ip) != Allowed(rules, host, ip) <==>
            exists i, j :: i < j && IsFirst(rules, Some(ip), host, i) && IsFirstDomain(rules, host, j) &&
                           !rules[i].DomainRule? && rules[i].allow && !rules[j].allow
  {
    var i := FirstMatchIndex(rules, Some(ip), host);
    var j := FirstDomainIndex(rules, host);
    if FirstMatch(rules, Some(ip), host) == Allow && FirstDomainMatch(rules, host) == Deny {
      assert rules[j].DomainRule? && Matches(rules[j], Some(ip), host);
      assert i <= j;
      assert !rules[i].DomainRule?;
    }
    forall i', j' | i' < j' && IsFirst(rules, Some(ip), host, i') && IsFirstDomain(rules, host, j') &&
                    !rules[i'].DomainRule? && rules[i'].allow && !rules[j'].allow
      ensures Granted(rules, host, ip) != Allowed(rules, host, ip)
    {
      assert i' == i && j' == j;
    }
  }

  /** That case exists: a catch-all allow before a domain denial lets the scan allow every address of the
      host, and the pre-pass denies them all. */
  lemma {:induction false} PrePassDeniesWhatScanAllows(ip: IP)
    ensures var rules := [AllRule(true), DomainRule("d", false, false)];
            Allowed(rules, "d", ip) && !Granted(rules, "d", ip)
  {
    var rules := [AllRule(true), DomainRule("d", false, false)];
    assert IsFirst(rules, Some(ip), "d", 0);
    assert IsFirstDomain(rules, "d", 1);
    TwoPassesVersusOneScan(rules, "d", ip);
  }

  // ---------- Provision ----------

  /** The private and loopback networks that Provision denies after the operator's rules. */
  const DEFAULT_DENIED: seq<Cidr> := [
    Cidr(V4, 0x0A00_0000, 0x100_0000),
    Cidr(V4, 0x7F00_0000, 0x100_0000),
    Cidr(V4, 0xAC10_0000, 0x10_0000),
    Cidr(V4, 0xC0A8_0000, 0x1_0000),
    Cidr(V6, 1, 1),
    Cidr(V6, 0xFE80_0000_0000_0000_0000_0000_0000_0000, 0x40_0000_0000_0000_0000_0000_0000_0000)
  ]

  datatype AclEntry = AclEntry(subjects: seq<string>, allow: bool)

  /** The rule list built from the operator's rules: defaults, then a catch-all allow. */
  function Provisioned(operator: seq<Rule>): seq<Rule> {
    operator + Denials(DEFAULT_DENIED) + [AllRule(true)]
  }

  function Denials(nets: seq<Cidr>): (r: seq<Rule>)
    ensures |r| == |nets| && forall k :: 0 <= k < |nets| ==> r[k] == IpRule(nets[k], false)
  {
    if nets == [] then [] else Denials(nets[..|nets| - 1]) + [IpRule(nets[|nets| - 1], false)]
  }

  function SubjectRules(parseNet: string -> Option<Cidr>, subjects: seq<string>, allow: bool): Option<seq<Rule>> {
    if subjects == [] then Some([])
    else
      var n := |subjects| - 1;
      var before := SubjectRules(parseNet, subjects[..n], allow);
      var last := NewRule(parseNet, subjects[n], allow);
      if before.Some? && last.Some? then Some(before.value + [last.value]) else None
  }

  function OperatorRules(parseNet: string -> Option<Cidr>, acl: seq<AclEntry>): Option<seq<Rule>> {
    if acl == [] then Some([])
    else
      var n := |acl| - 1;
      var before := OperatorRules(parseNet, acl[..n]);
      var last := SubjectRules(parseNet, acl[n].subjects, acl[n].allow);
      if before.Some? && last.Some? then Some(before.value + last.value) else None
  }

  lemma {:induction false} SubjectPrefixParses(parseNet: string -> Option<Cidr>, subjects: seq<string>, allow: bool, k: nat)
    requires k <= |subjects|
    requires SubjectRules(parseNet, subjects[..k], allow).None?
    ensures SubjectRules(parseNet, subjects, allow).None?
    decreases |subjects|
  {
    if k < |subjects| {
      var n := |subjects| - 1;
      assert subjects[..n][..k] == subjects[..k];
      SubjectPrefixParses(parseNet, subjects[..n], allow, k);
    } else {
      assert subjects[..k] == subjects;
    }
  }

  lemma {:induction false} EntryPrefixParses(parseNet: string -> Option<Cidr>, acl: seq<AclEntry>, k: nat)
    requires k <= |acl|
    requires OperatorRules(parseNet, acl[..k]).None?
    ensures OperatorRules(parseNet, acl).None?
    decreases |acl|
  {
    if k < |acl| {
      var n := |acl| - 1;
      assert acl[..n][..k] == acl[..k];
      EntryPrefixParses(parseNet, acl[..n], k);
    } else {
      assert acl[..k] == acl;
    }
  }

  // ---------- What the operator's rules say ----------

  /** One subject with the decision of its entry. */
  datatype Subject = Subject(text: string, allow: bool)

  function EntrySubjects(entry: AclEntry): (r: seq<Subject>)
    ensures |r| == |entry.subjects|
    ensures forall k :: 0 <= k < |r| ==> r[k] == Subject(entry.subjects[k], entry.allow)
  {
    seq(|entry.subjects|, k requires 0 <= k < |entry.subjects| => Subject(entry.subjects[k], entry.allow))
  }

  /** All subjects, entry by entry. */
  function Subjects(acl: seq<AclEntry>): seq<Subject> {
    if acl == [] then [] else Subjects(acl[..|acl| - 1]) + EntrySubjects(acl[|acl| - 1])
  }

  predicate Parses(parseNet: string -> Option<Cidr>, s: Subject) {
    NewRule(parseNet, s.text, s.allow).Some?
  }

  /** One rule per subject, in order. */
  predicate RulesFor(parseNet: string -> Option<Cidr>, subjects: seq<Subject>, rules: seq<Rule>) {
    |rules| == |subjects| &&
    forall k :: 0 <= k < |rules| ==> NewRule(parseNet, subjects[k].text, subjects[k].allow) == Some(rules[k])
  }

  lemma {:induction false} SubjectRulesAre(parseNet: string -> Option<Cidr>, subjects: seq<string>, allow: bool)
    ensures var list := EntrySubjects(AclEntry(subjects, allow));
            (SubjectRules(parseNet, subjects, allow).Some? <==> forall k :: 0 <= k < |list| ==> Parses(parseNet, list[k])) &&
            (SubjectRules(parseNet, subjects, allow).Some? ==> RulesFor(parseNet, list, SubjectRules(parseNet, subjects, allow).value))
  {
    if subjects != [] {
      var n := |subjects| - 1;
      SubjectRulesAre(parseNet, subjects[..n], allow);
      var list, before := EntrySubjects(AclEntry(subjects, allow)), EntrySubjects(AclEntry(subjects[..n], allow));
      assert list == before + [Subject(subjects[n], allow)];
      assert Parses(parseNet, list[n]) <==> NewRule(parseNet, subjects[n], allow).Some?;
      assert forall k :: 0 <= k < n ==> list[k] == before[k];
    }
  }

  lemma {:induction false} RulesForConcat(parseNet: string -> Option<Cidr>, s: seq<Subject>, r: seq<Rule>, s': seq<Subject>, r': seq<Rule>)
    requires RulesFor(parseNet, s, r) && RulesFor(parseNet, s', r')
    ensures RulesFor(parseNet, s + s', r + r')
  {
  }

  /** The operator's rules exist exactly when every subject parses, and are then one rule per subject, in entry
      order and subject order. */
  lemma {:induction false} OperatorRulesAre(parseNet: string -> Option<Cidr>, acl: seq<AclEntry>)
    ensures OperatorRules(parseNet, acl).Some? <==> forall k :: 0 <= k < |Subjects(acl)| ==> Parses(parseNet, Subjects(acl)[k])
    ensures OperatorRules(parseNet, acl).Some? ==> RulesFor(parseNet, Subjects(acl), OperatorRules(parseNet, acl).value)
  {
    if acl != [] {
      var n := |acl| - 1;
      var before, last := Subjects(acl[..n]), EntrySubjects(acl[n]);
      OperatorRulesAre(parseNet, acl[..n]);
      SubjectRulesAre(parseNet, acl[n].subjects, acl[n].allow);
      assert acl[n] == AclEntry(acl[n].subjects, acl[n].allow);
      assert forall k :: 0 <= k < |before| ==> Subjects(acl)[k] == before[k];
      assert forall k :: 0 <= k < |last| ==> Subjects(acl)[|before| + k] == last[k];
      if OperatorRules(parseNet, acl).Some? {
        RulesForConcat(parseNet, before, OperatorRules(parseNet, acl[..n]).value, last, SubjectRules(parseNet, acl[n].subjects, acl[n].allow).value);
      }
    }
  }

  // ---------- The loops of Provision ----------

  /** The inner ACL loop: the rules of one entry. */
  method AppendSubjects(parseNet: string -> Option<Cidr>, entry: AclEntry, start: seq<Rule>) returns (r: Option<seq<Rule>>)
    ensures var parsed := SubjectRules(parseNet, entry.subjects, entry.allow);
            r == if parsed.None? then None else Some(start + parsed.value)
  {
    var rules, subjects := start, entry.subjects;
    for k := 0 to |subjects|
      invariant SubjectRules(parseNet, subjects[..k], entry.allow).Some?
      invariant rules == start + SubjectRules(parseNet, subjects[..k], entry.allow).value
    {
      assert subjects[..k + 1][..k] == subjects[..k];
      var rule := NewRule(parseNet, subjects[k], entry.allow);
      if rule.None? {
        SubjectPrefixParses(parseNet, subjects, entry.allow, k + 1);
        return None;
      }
      rules := rules + [rule.value];
    }
    assert subjects[..|subjects|] == subjects;
    return Some(rules);
  }

  /** The outer ACL loop: every entry of the operator's list. */
  method AppendOperatorRules(parseNet: string -> Option<Cidr>, acl: seq<AclEntry>) returns (r: Option<seq<Rule>>)
    ensures r == OperatorRules(parseNet, acl)
  {
    var rules: seq<Rule> := [];
    for i := 0 to |acl|
      invariant OperatorRules(parseNet, acl[..i]) == Some(rules)
    {
      assert acl[..i + 1][..i] == acl[..i];
      var more := AppendSubjects(parseNet, acl[i], rules);
      if more.None? {
        EntryPrefixParses(parseNet, acl, i + 1);
        return None;
      }
      rules := more.value;
    }
    assert acl[..|acl|] == acl;
    return Some(rules);
  }

  /** The ACL-building part of Provision: it fails exactly when some subject does not parse; otherwise the rules
      are one per subject, in entry order and subject order, then six denials and a catch-all. */
  method Provision(parseNet: string -> Option<Cidr>, acl: seq<AclEntry>) returns (r: Option<seq<Rule>>)
    ensures r.None? <==> exists k :: 0 <= k < |Subjects(acl)| && !Parses(parseNet, Subjects(acl)[k])
    ensures r.Some? ==> OperatorRules(parseNet, acl).Some? && r.value == Provisioned(OperatorRules(parseNet, acl).value)
    ensures r.Some? ==> |r.value| == |Subjects(acl)| + 7 && RulesFor(parseNet, Subjects(acl), r.value[..|Subjects(acl)|])
  {
    OperatorRulesAre(parseNet, acl);
    var operator := AppendOperatorRules(parseNet, acl);
    if operator.None? { return None; }
    var rules := operator.value;
    for k := 0 to |DEFAULT_DENIED|
      invariant rules == operator.value + Denials(DEFAULT_DENIED[..k])
    {
      assert DEFAULT_DENIED[..k + 1][..k] == DEFAULT_DENIED[..k];
      rules := rules + [IpRule(DEFAULT_DENIED[k], false)];
    }
    assert DEFAULT_DENIED[..|DEFAULT_DENIED|] == DEFAULT_DENIED;
    rules := rules + [AllRule(true)];
    assert rules[..|operator.value|] == operator.value;
    return Some(rules);
  }

  /** After Provision some rule always matches, and an address of a default-denied network is allowed
      only when an operator rule is the first to match it, and allows it. */
  lemma ProvisionedScanIsTotal(operator: seq<Rule>, host: string, ip: IP)
    ensures FirstMatch(Provisioned(operator), Some(ip), host) != NoMatch
    ensures (exists k :: 0 <= k < |DEFAULT_DENIED| && Contains(DEFAULT_DENIED[k], ip)) ==>
            (Allowed(Provisioned(operator), host, ip) <==> FirstMatch(operator, Some(ip), host) == Allow)
  {
    var rules, n := Provisioned(operator), |operator|;
    assert Matches(rules[n + |DEFAULT_DENIED|], Some(ip), host);
    var i := FirstMatchIndex(rules, Some(ip), host);
    var o := FirstMatchIndex(operator, Some(ip), host);
    assert forall j :: 0 <= j < n ==> rules[j] == operator[j];
    if FirstMatch(operator, Some(ip), host) != NoMatch {
      assert Matches(rules[o], Some(ip), host);
      assert i == o;
    } else if k :| 0 <= k < |DEFAULT_DENIED| && Contains(DEFAULT_DENIED[k], ip) {
      assert rules[n + k] == IpRule(DEFAULT_DENIED[k], false);
      assert Matches(rules[n + k], Some(ip), host);
      assert n <= i <= n + k;
      assert rules[i] == IpRule(DEFAULT_DENIED[i - n], false);
    }
  }

  // ---------- The policy in force ----------

  /** 10.0.0.0/8, 127.0.0.0/8, 172.16.0.0/12, 192.168.0.0/16, ::1 and fe80::/10. */
  predicate PrivateOrLocal(ip: IP) {
    if ip.family == V4 then
      0x0A00_0000 <= ip.bits <= 0x0AFF_FFFF || 0x7F00_0000 <= ip.bits <= 0x7FFF_FFFF ||
      0xAC10_0000 <= ip.bits <= 0xAC1F_FFFF || 0xC0A8_0000 <= ip.bits <= 0xC0A8_FFFF
    else
      ip.bits == 1 ||
      0xFE80_0000_0000_0000_0000_0000_0000_0000 <= ip.bits <= 0xFEBF_FFFF_FFFF_FFFF_FFFF_FFFF_FFFF_FFFF
  }

  lemma {:induction false} DefaultDenialsAreRanges(ip: IP)
    ensures (exists k :: 0 <= k < |DEFAULT_DENIED| && Contains(DEFAULT_DENIED[k], ip)) <==> PrivateOrLocal(ip)
  {
    assert Contains(DEFAULT_DENIED[0], ip) <==> ip.family == V4 && 0x0A00_0000 <= ip.bits <= 0x0AFF_FFFF;
    assert Contains(DEFAULT_DENIED[1], ip) <==> ip.family == V4 && 0x7F00_0000 <= ip.bits <= 0x7FFF_FFFF;
    assert Contains(DEFAULT_DENIED[2], ip) <==> ip.family == V4 && 0xAC10_0000 <= ip.bits <= 0xAC1F_FFFF;
    assert Contains(DEFAULT_DENIED[3], ip) <==> ip.family == V4 && 0xC0A8_0000 <= ip.bits <= 0xC0A8_FFFF;
    assert Contains(DEFAULT_DENIED[4], ip) <==> ip.family == V6 && ip.bits == 1;
    assert Contains(DEFAULT_DENIED[5], ip) <==>
      ip.family == V6 && 0xFE80_0000_0000_0000_0000_0000_0000_0000 <= ip.bits <= 0xFEBF_FFFF_FFFF_FFFF_FFFF_FFFF_FFFF_FFFF;
  }

  /** The first subject, in entry order and subject order, that matches. */
  predicate IsFirstSubject(parseNet: string -> Option<Cidr>, subjects: seq<Subject>, ip: IP, host: string, k: int) {
    0 <= k < |subjects| && SubjectMatches(parseNet, subjects[k].text, ip, host) &&
    forall j :: 0 <= j < k ==> !SubjectMatches(parseNet, subjects[j].text, ip, host)
  }

  /** What the scan decides after Provision: the entry of the first matching subject; with none, everything is
      allowed but the private and local ranges. */
  lemma {:induction false} FirstSubjectDecides(parseNet: string -> Option<Cidr>, acl: seq<AclEntry>, host: string, ip: IP)
    requires OperatorRules(parseNet, acl).Some?
    ensures var rules, subjects := Provisioned(OperatorRules(parseNet, acl).value), Subjects(acl);
            (forall k :: IsFirstSubject(parseNet, subjects, ip, host, k) ==> (Allowed(rules, host, ip) <==> subjects[k].allow)) &&
            ((forall k :: 0 <= k < |subjects| ==> !SubjectMatches(parseNet, subjects[k].text, ip, host)) ==>
               (Allowed(rules, host, ip) <==> !PrivateOrLocal(ip)))
  {
    var operator, subjects := OperatorRules(parseNet, acl).value, Subjects(acl);
    OperatorRulesAre(parseNet, acl);
    forall k | 0 <= k < |subjects|
      ensures operator[k].allow == subjects[k].allow
      ensures Matches(operator[k], Some(ip), host) <==> SubjectMatches(parseNet, subjects[k].text, ip, host)
    {
      ParsedRule(parseNet, subjects[k].text, subjects[k].allow, ip, host);
    }
    OperatorThenDefaults(operator, host, ip);
    DefaultDenialsAreRanges(ip);
    var i := FirstMatchIndex(operator, Some(ip), host);
    forall k | IsFirstSubject(parseNet, subjects, ip, host, k)
      ensures Allowed(Provisioned(operator), host, ip) <==> subjects[k].allow
    {
      assert IsFirst(operator, Some(ip), host, k) && i == k;
    }
  }

  lemma {:induction false} OperatorThenDefaults(operator: seq<Rule>, host: string, ip: IP)
    ensures Allowed(Provisioned(operator), host, ip) <==>
            (match FirstMatch(operator, Some(ip), host)
             case Allow => true
             case Deny => false
             case NoMatch => !exists k :: 0 <= k < |DEFAULT_DENIED| && Contains(DEFAULT_DENIED[k], ip))
  {
    var rules, n := Provisioned(operator), |operator|;
    var i := FirstMatchIndex(rules, Some(ip), host);
    var o := FirstMatchIndex(operator, Some(ip), host);
    assert Matches(rules[n + |DEFAULT_DENIED|], Some(ip), host);
    assert forall j :: 0 <= j < n ==> rules[j] == operator[j];
    assert forall k :: 0 <= k < |DEFAULT_DENIED| ==> rules[n + k] == IpRule(DEFAULT_DENIED[k], false);
    if FirstMatch(operator, Some(ip), host) != NoMatch {
      assert Matches(rules[o], Some(ip), host);
      assert i == o;
    } else {
      assert n <= i;
      if i < n + |DEFAULT_DENIED| {
        assert rules[i] == IpRule(DEFAULT_DENIED[i - n], false);
      } else {
        forall k | 0 <= k < |DEFAULT_DENIED| ensures !Contains(DEFAULT_DENIED[k], ip) {
          assert rules[n + k] == IpRule(DEFAULT_DENIED[k], false) && !Matches(rules[n + k], Some(ip), host);
        }
      }
    }
  }

  /** `deny all` denies every address and `allow all` allows every one, private or not. */
  lemma {:induction false} AllEntryDecides(parseNet: string -> Option<Cidr>, allow: bool, host: string, ip: IP)
    ensures var operator := OperatorRules(parseNet, [AclEntry(["all"], allow)]);
            operator.Some? && (Allowed(Provisioned(operator.value), host, ip) <==> allow)
  {
    var entry := AclEntry(["all"], allow);
    var acl := [entry];
    assert acl[..0] == [] && Subjects(acl) == EntrySubjects(entry);
    OperatorRulesAre(parseNet, acl);
    ParsedRule(parseNet, "all", allow, ip, host);
    assert forall k :: 0 <= k < |Subjects(acl)| ==> Parses(parseNet, Subjects(acl)[k]);
    FirstSubjectDecides(parseNet, acl, host, ip);
    assert IsFirstSubject(parseNet, Subjects(acl), ip, host, 0);
  }
}
