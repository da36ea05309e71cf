/** Access control rules (acl.go): CIDR, domain and catch-all subjects. */
module Acl {
  import opened Net

  /** An IP network: the block of `size` addresses, a power of two, that holds `base`. */
  datatype Cidr = Cidr(family: Family, base: nat, size: Size)

  type Size = n: nat | n > 0 witness 1

  predicate Contains(net: Cidr, ip: IP) {
    ip.family == net.family && ip.bits / net.size == net.base / net.size
  }

  lemma {:induction false} QuotientInBlock(x: nat, size: Size, q: nat)
    ensures x / size == q <==> q * size <= x < q * size + size
  {
    var p, r := x / size, x % size;
    assert x == p * size + r && r < size;
    if p < q {
      assert p * size + size == (p + 1) * size <= q * size;
    } else if p > q {
      assert q * size + size == (q + 1) * size <= p * size;
    }
  }

  /** A network holds exactly the addresses of its family in the aligned block of its base. */
  lemma {:induction false} ContainsBlock(net: Cidr, ip: IP)
    ensures var start := net.base - net.base % net.size;
            Contains(net, ip) <==> ip.family == net.family && start <= ip.bits < start + net.size
  {
    QuotientInBlock(ip.bits, net.size, net.base / net.size);
  }

  datatype Rule =
    | IpRule(net: Cidr, allow: bool)
    | DomainRule(domain: string, subdomains: bool, allow: bool)
    | AllRule(allow: bool)

  datatype Decision = Allow | Deny | NoMatch

  function TrimDot(host: string): string {
    if |host| > 0 && host[0] == '.' then host[1..] else host
  }

  predicate HasSuffix(s: string, suffix: string) {
    |suffix| <= |s| && s[|s| - |suffix|..] == suffix
  }

  predicate Matches(rule: Rule, ip: Option<IP>, host: string) {
    match rule
    case IpRule(net, _) => ip.Some? && Contains(net, ip.value)
    case DomainRule(domain, subdomains, _) =>
      TrimDot(host) == domain || (subdomains && HasSuffix(TrimDot(host), "." + domain))
    case AllRule(_) => true
  }

  function TryMatch(rule: Rule, ip: Option<IP>, host: string): Decision {
    if !Matches(rule, ip, host) then NoMatch else if rule.allow then Allow else Deny
  }

  // ---------- Domain names as lists of labels ----------

  function Labels(s: string): (r: seq<string>)
    ensures |r| > 0
  {
    if s == "" then [""]
    else
      var rest := Labels(s[1..]);
      if s[0] == '.' then [""] + rest else [[s[0]] + rest[0]] + rest[1..]
  }

  function JoinLabels(labels: seq<string>): string
    requires |labels| > 0
  {
    if |labels| == 1 then labels[0] else labels[0] + "." + JoinLabels(labels[1..])
  }

  predicate IsLabelSuffix(labels: seq<string>, of: seq<string>) {
    |labels| <= |of| && of[|of| - |labels|..] == labels
  }

  lemma {:induction false} LabelsConcat(x: string, d: string)
    ensures Labels(x + "." + d) == Labels(x) + Labels(d)
  {
    if x == "" {
      assert x + "." + d == "." + d;
      assert ("." + d)[1..] == d;
    } else {
      assert (x + "." + d)[1..] == x[1..] + "." + d;
      LabelsConcat(x[1..], d);
    }
  }

  lemma {:induction false} JoinInvertsLabels(s: string)
    ensures JoinLabels(Labels(s)) == s
  {
    if s != "" {
      JoinInvertsLabels(s[1..]);
      var rest := Labels(s[1..]);
      if s[0] == '.' {
        assert ([""] + rest)[1..] == rest;
        assert "" + "." + s[1..] == s;
      } else {
        var all := [[s[0]] + rest[0]] + rest[1..];
        assert all[1..] == rest[1..];
        assert JoinLabels(all) == [s[0]] + JoinLabels(rest);
      }
    }
  }

  lemma {:induction false} JoinConcat(a: seq<string>, b: seq<string>)
    requires |a| > 0 && |b| > 0
    ensures JoinLabels(a + b) == JoinLabels(a) + "." + JoinLabels(b)
  {
    assert (a + b)[1..] == a[1..] + b;
    if |a| > 1 {
      JoinConcat(a[1..], b);
    } else {
      assert a[1..] + b == b;
    }
  }

  lemma {:induction false} SuffixGivesLabelSuffix(h: string, domain: string)
    requires HasSuffix(h, "." + domain)
    ensures IsLabelSuffix(Labels(domain), Labels(h))
  {
    var x := h[..|h| - |domain| - 1];
    assert h == x + ("." + domain);
    assert h == x + "." + domain;
    LabelsConcat(x, domain);
  }

  lemma ConcatHasSuffix(x: string, y: string)
    ensures HasSuffix(x + y, y)
  {
    assert (x + y)[|x|..] == y;
  }

  lemma {:induction false} LabelSuffixGivesSuffix(h: string, domain: string)
    requires IsLabelSuffix(Labels(domain), Labels(h))
    ensures h == domain || HasSuffix(h, "." + domain)
  {
    var dl, hl := Labels(domain), Labels(h);
    var a := hl[..|hl| - |dl|];
    assert hl == a + dl;
    JoinInvertsLabels(h);
    JoinInvertsLabels(domain);
    if |a| > 0 {
      JoinConcat(a, dl);
      assert JoinLabels(a) + "." + domain == JoinLabels(a) + ("." + domain);
      ConcatHasSuffix(JoinLabels(a), "." + domain);
    } else {
      assert hl == dl;
    }
  }

  predicate StartsWithDot(host: string) {
    host != "" && host[0] == '.'
  }

  /** A `*.d` rule matches exactly the hosts whose label list ends with d's labels, one leading dot of the
      host not counting. */
  lemma SubdomainRuleMatchesLabelSuffix(domain: string, allow: bool, ip: Option<IP>, host: string)
    ensures Matches(DomainRule(domain, true, allow), ip, host)
       <==> IsLabelSuffix(Labels(domain), Labels(TrimDot(host)))
    ensures !StartsWithDot(host) ==>
              (Matches(DomainRule(domain, true, allow), ip, host) <==> IsLabelSuffix(Labels(domain), Labels(host)))
    ensures Matches(DomainRule(domain, true, allow), ip, "." + host) <==> IsLabelSuffix(Labels(domain), Labels(host))
  {
    SubdomainByLabels(domain, allow, ip, host);
    SubdomainByLabels(domain, allow, ip, "." + host);
    assert ("." + host)[1..] == host;
  }

  lemma {:induction false} SubdomainByLabels(domain: string, allow: bool, ip: Option<IP>, host: string)
    ensures Matches(DomainRule(domain, true, allow), ip, host)
       <==> IsLabelSuffix(Labels(domain), Labels(TrimDot(host)))
  {
    var h := TrimDot(host);
    if HasSuffix(h, "." + domain) {
      SuffixGivesLabelSuffix(h, domain);
    }
    if IsLabelSuffix(Labels(domain), Labels(h)) {
      LabelSuffixGivesSuffix(h, domain);
    }
  }

  /** A plain domain rule matches exactly one label list. */
  lemma ExactRuleMatchesSameLabels(domain: string, allow: bool, ip: Option<IP>, host: string)
    ensures Matches(DomainRule(domain, false, allow), ip, host)
       <==> Labels(TrimDot(host)) == Labels(domain)
    ensures !StartsWithDot(host) ==> (Matches(DomainRule(domain, false, allow), ip, host) <==> Labels(host) == Labels(domain))
    ensures Matches(DomainRule(domain, false, allow), ip, "." + host) <==> Labels(host) == Labels(domain)
  {
    JoinInvertsLabels(TrimDot(host));
    JoinInvertsLabels(host);
    JoinInvertsLabels(domain);
    assert ("." + host)[1..] == host;
  }

  // ---------- Parsing rule subjects ----------

  predicate IsDomainChar(c: char) {
    'a' <= c <= 'z' || 'A' <= c <= 'Z' || c == '_' || '0' <= c <= '9' || c == '-' || c == '.'
  }

  /** `isValidDomainLite`. */
  predicate IsValidDomainLite(domain: string) {
    (forall i :: 0 <= i < |domain| ==> IsDomainChar(domain[i])) &&
    (forall k :: 0 <= k < |Labels(domain)| ==> 1 <= |Labels(domain)[k]| <= 63)
  }

  /** The two loops of `isValidDomainLite`: over the characters, and over the sections between dots. */
  method CheckDomain(domain: string) returns (ok: bool)
    ensures ok <==> IsValidDomainLite(domain)
  {
    for i := 0 to |domain|
      invariant forall j :: 0 <= j < i ==> IsDomainChar(domain[j])
    {
      var c := domain[i];
      if 'a' <= c <= 'z' || 'A' <= c <= 'Z' || c == '_' || '0' <= c <= '9' || c == '-' || c == '.' { continue; }
      return false;
    }
    var sections := Labels(domain);
    for k := 0 to |sections|
      invariant forall j :: 0 <= j < k ==> 1 <= |sections[j]| <= 63
    {
      if |sections[k]| == 0 { return false; }
      if |sections[k]| > 63 { return false; }
    }
    return true;
  }

  /** `newACLRule`; `parseNet` stands for ParseCIDR with the single-address fallback. None is an error. */
  function NewRule(parseNet: string -> Option<Cidr>, subject: string, allow: bool): Option<Rule> {
    if subject == "all" then Some(AllRule(allow))
    else if parseNet(subject).Some? then Some(IpRule(parseNet(subject).value, allow))
    else
      var wild := |subject| >= 2 && subject[..2] == "*.";
      var domain := if wild then subject[2..] else subject;
      if IsValidDomainLite(domain) then Some(DomainRule(domain, wild, allow)) else None
  }

  /** A subject that parses as a domain is that domain, or `*.` before it; the domain has proper labels
      only, and the rule then matches by labels: exactly, or as a suffix for `*.`. */
  lemma {:induction false} ParsedDomainRule(parseNet: string -> Option<Cidr>, subject: string, allow: bool, host: string)
    requires NewRule(parseNet, subject, allow).Some? && NewRule(parseNet, subject, allow).value.DomainRule?
    ensures var r := NewRule(parseNet, subject, allow).value;
            subject == (if r.subdomains then "*." + r.domain else r.domain) && r.allow == allow &&
            (forall k :: 0 <= k < |Labels(r.domain)| ==> 1 <= |Labels(r.domain)[k]| <= 63) &&
            (Matches(r, None, host) <==>
               if r.subdomains then IsLabelSuffix(Labels(r.domain), Labels(TrimDot(host)))
               else Labels(TrimDot(host)) == Labels(r.domain))
  {
    var r := NewRule(parseNet, subject, allow).value;
    if r.subdomains {
      SubdomainRuleMatchesLabelSuffix(r.domain, allow, None, host);
      assert subject == subject[..2] + subject[2..];
    } else {
      ExactRuleMatchesSameLabels(r.domain, allow, None, host);
    }
  }

  /** What a subject of an ACL entry is meant to match: everything, a network, a domain with its subdomains, or
      one domain. */
  predicate SubjectMatches(parseNet: string -> Option<Cidr>, subject: string, ip: IP, host: string) {
    if subject == "all" then true
    else if parseNet(subject).Some? then Contains(parseNet(subject).value, ip)
    else if HasPrefix(subject, "*.") then IsLabelSuffix(Labels(subject[2..]), Labels(TrimDot(host)))
    else Labels(TrimDot(host)) == Labels(subject)
  }

  predicate HasPrefix(s: string, prefix: string) {
    |prefix| <= |s| && s[..|prefix|] == prefix
  }

  /** Every subject: its rule carries the entry's decision and matches what the subject means; there is no rule
      exactly when the subject is not "all", no network, and no domain with or without `*.` before it. */
  lemma {:induction false} ParsedRule(parseNet: string -> Option<Cidr>, subject: string, allow: bool, ip: IP, host: string)
    ensures var r := NewRule(parseNet, subject, allow);
            (r.Some? ==> r.value.allow == allow && (Matches(r.value, Some(ip), host) <==> SubjectMatches(parseNet, subject, ip, host))) &&
            (r.None? <==> subject != "all" && parseNet(subject).None? &&
                          !IsValidDomainLite(if HasPrefix(subject, "*.") then subject[2..] else subject))
  {
    if subject != "all" && parseNet(subject).None? {
      if HasPrefix(subject, "*.") {
        SubdomainRuleMatchesLabelSuffix(subject[2..], allow, Some(ip), host);
      } else {
        ExactRuleMatchesSameLabels(subject, allow, Some(ip), host);
      }
    }
  }
}
