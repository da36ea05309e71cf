/** Which addresses an answer contributes, and in which order they are tried
    (resolveTargetCheckACL in native_udp_protocol.go, interleaveTCPAddresses in connect_dial.go). */
module Candidates {
  import opened Net
  import opened Acl
  import opened Policy

  /** One dial: the network asked for, the target, and the rules in force. */
  datatype Config = Config(network: Network, host: string, port: string, rules: seq<Rule>)

  /** Which addresses of an answer are kept: `family` None keeps both. */
  datatype Filter = Filter(rules: seq<Rule>, host: string, network: Network, family: Option<Family>)

  predicate Passes(f: Filter, ip: IP) {
    Allowed(f.rules, f.host, ip) && Fits(f.network, ip.family) && (f.family.Some? ==> ip.family == f.family.value)
  }

  function AnyFamily(cfg: Config): Filter {
    Filter(cfg.rules, cfg.host, Tcp, None)
  }

  function OneFamily(cfg: Config, family: Family): Filter {
    Filter(cfg.rules, cfg.host, cfg.network, Some(family))
  }

  /** The kept addresses in resolver order, each once. */
  function Select(f: Filter, port: string, records: Records): seq<Address> {
    if records == [] then []
    else
      var n := |records| - 1;
      var before := Select(f, port, records[..n]);
      var last := records[n];
      if last.None? || !Passes(f, last.value) || HostPort(last.value, port) in before then before
      else before + [HostPort(last.value, port)]
  }

  lemma {:induction false} SelectedExactly(f: Filter, port: string, records: Records)
    ensures Distinct(Select(f, port, records))
    ensures forall a :: a in Select(f, port, records) <==>
              a.HostPort? && a.port == port && Passes(f, a.ip) && Some(a.ip) in records
  {
    if records != [] {
      var n := |records| - 1;
      SelectedExactly(f, port, records[..n]);
      assert records == records[..n] + [records[n]];
    }
  }

  lemma {:induction false} NothingSelected(f: Filter, port: string, records: Records)
    requires forall i :: 0 <= i < |records| && records[i].Some? ==> !Passes(f, records[i].value)
    ensures Select(f, port, records) == []
  {
    if records != [] { NothingSelected(f, port, records[..|records| - 1]); }
  }

  lemma {:induction false} SelectSnoc(f: Filter, port: string, records: Records, ip: IP)
    requires Passes(f, ip) && HostPort(ip, port) !in Select(f, port, records)
    ensures Select(f, port, records + [Some(ip)]) == Select(f, port, records) + [HostPort(ip, port)]
  {
    assert (records + [Some(ip)])[..|records|] == records;
  }

  /** Later records only add to the end: the first occurrence of an address fixes its place. */
  lemma {:induction false} SelectInResolverOrder(f: Filter, port: string, records: Records, k: nat)
    requires k <= |records|
    ensures Select(f, port, records[..k]) <= Select(f, port, records)
    decreases |records|
  {
    if k < |records| {
      var n := |records| - 1;
      assert records[..n][..k] == records[..k];
      SelectInResolverOrder(f, port, records[..n], k);
    } else {
      assert records[..k] == records;
    }
  }

  lemma SelectOfFamily(cfg: Config, family: Family, records: Records)
    ensures AllOf(Select(OneFamily(cfg, family), cfg.port, records), family)
    ensures !Fits(cfg.network, family) ==> Select(OneFamily(cfg, family), cfg.port, records) == []
  {
    var s := Select(OneFamily(cfg, family), cfg.port, records);
    SelectedExactly(OneFamily(cfg, family), cfg.port, records);
    forall i | 0 <= i < |s| ensures FamilyOf(s[i]) == Some(family) && Fits(cfg.network, family) {
      assert s[i] in s;
    }
  }

  datatype Resolution = Resolved(addresses: seq<Address>) | Refused(error: Error)

  /** `resolveTargetCheckACL` after the pre-pass. */
  method ResolveTarget(cfg: Config, answer: Answer) returns (r: Resolution)
    ensures answer.LookupError? ==> r == Refused(LookupFailed(answer.error))
    ensures answer.Records? ==>
              (r == Refused(NoAllowedAddress) <==> forall ip :: Some(ip) in answer.records ==> !Allowed(cfg.rules, cfg.host, ip))
    ensures answer.Records? && r != Refused(NoAllowedAddress) ==>
              r == Resolved(Select(AnyFamily(cfg), cfg.port, answer.records))
  {
    if answer.LookupError? { return Refused(LookupFailed(answer.error)); }
    var records, f := answer.records, AnyFamily(cfg);
    var seen: set<Address>, addresses: seq<Address> := {}, [];
    for i := 0 to |records|
      invariant addresses == Select(f, cfg.port, records[..i])
      invariant seen == Elements(addresses)
    {
      assert records[..i + 1][..i] == records[..i];
      if records[i].None? { continue; }
      var allowed := HostIsAllowed(cfg.rules, cfg.host, records[i].value);
      AllowedByIndex(cfg.rules, cfg.host, records[i].value);
      if !allowed { continue; }
      var address := HostPort(records[i].value, cfg.port);
      if address in seen { continue; }
      seen := seen + {address};
      addresses := addresses + [address];
    }
    assert records[..|records|] == records;
    SelectedExactly(f, cfg.port, records);
    if addresses == [] {
      forall ip | Some(ip) in records ensures !Allowed(cfg.rules, cfg.host, ip) {
        assert HostPort(ip, cfg.port) !in addresses;
      }
      return Refused(NoAllowedAddress);
    }
    assert addresses[0] in addresses;
    return Resolved(addresses);
  }

  lemma AllowedByIndex(rules: seq<Rule>, host: string, ip: IP)
    ensures Allowed(rules, host, ip) <==> exists i :: IsFirst(rules, Some(ip), host, i) && rules[i].allow
  {
    var i := FirstMatchIndex(rules, Some(ip), host);
  }

  // ---------- Static interleaving ----------

  function Filtered(network: Network, addresses: seq<Address>): seq<Address> {
    if addresses == [] then []
    else
      var n := |addresses| - 1;
      var before := Filtered(network, addresses[..n]);
      if addresses[n].HostPort? && Fits(network, addresses[n].ip.family) then before + [addresses[n]] else before
  }

  /** The addresses of one family, in order. */
  function OfFamily(addresses: seq<Address>, family: Family): seq<Address> {
    if addresses == [] then []
    else
      var n := |addresses| - 1;
      var before := OfFamily(addresses[..n], family);
      if FamilyOf(addresses[n]) == Some(family) then before + [addresses[n]] else before
  }

  function Other(family: Family): Family {
    if family == V4 then V6 else V4
  }

  /** One of each, primary first, until one side runs out. */
  function Zip(primary: seq<Address>, fallback: seq<Address>): seq<Address> {
    if primary == [] then fallback
    else if fallback == [] then primary
    else [primary[0], fallback[0]] + Zip(primary[1..], fallback[1..])
  }

  /** The order `interleaveTCPAddresses` produces. */
  function Interleaved(network: Network, addresses: seq<Address>): seq<Address> {
    var kept := Filtered(network, addresses);
    if kept == [] || kept[0].Unparsed? then []
    else Zip(OfFamily(kept, kept[0].ip.family), OfFamily(kept, Other(kept[0].ip.family)))
  }

  lemma {:induction false} FilteredAreParsed(network: Network, addresses: seq<Address>)
    ensures forall i :: 0 <= i < |Filtered(network, addresses)| ==>
              Filtered(network, addresses)[i].HostPort? && Fits(network, Filtered(network, addresses)[i].ip.family)
  {
    if addresses != [] {
      FilteredAreParsed(network, addresses[..|addresses| - 1]);
    }
  }

  /** `interleaveTCPAddresses`: the partition by family, then the alternation. */
  method InterleaveTCPAddresses(network: Network, addresses: seq<Address>) returns (ordered: seq<Address>)
    ensures ordered == Interleaved(network, addresses)
  {
    var primary, fallback := Partition(network, addresses);
    ordered := Alternate(primary, fallback);
    FilteredAreParsed(network, addresses);
    assert exists family :: Partitioned(Filtered(network, addresses), primary, fallback, family);
  }

  /** The kept addresses split by family, the first one's family being primary. */
  predicate Partitioned(kept: seq<Address>, primary: seq<Address>, fallback: seq<Address>, family: Family) {
    primary == OfFamily(kept, family) && fallback == OfFamily(kept, Other(family)) &&
    (primary == [] <==> kept == []) && (kept != [] ==> FamilyOf(kept[0]) == Some(family))
  }

  lemma {:induction false} FirstIsPrimary(a: Address)
    requires a.HostPort?
    ensures Partitioned([a], [a], [], a.ip.family)
  {
    OfFamilySnoc([], a, a.ip.family);
    OfFamilySnoc([], a, Other(a.ip.family));
    assert [] + [a] == [a];
  }

  lemma {:induction false} NextIsPlaced(kept: seq<Address>, primary: seq<Address>, fallback: seq<Address>, family: Family, a: Address)
    requires Partitioned(kept, primary, fallback, family) && primary != [] && a.HostPort?
    ensures a.ip.family == family ==> Partitioned(kept + [a], primary + [a], fallback, family)
    ensures a.ip.family != family ==> Partitioned(kept + [a], primary, fallback + [a], family)
  {
    OfFamilySnoc(kept, a, family);
    OfFamilySnoc(kept, a, Other(family));
  }

  method Partition(network: Network, addresses: seq<Address>) returns (primary: seq<Address>, fallback: seq<Address>)
    ensures exists family :: Partitioned(Filtered(network, addresses), primary, fallback, family)
  {
    primary, fallback := [], [];
    var primaryFamily := V6;
    for i := 0 to |addresses|
      invariant Partitioned(Filtered(network, addresses[..i]), primary, fallback, primaryFamily)
    {
      var address := addresses[i];
      ghost var kept := Filtered(network, addresses[..i]);
      assert addresses[..i + 1] == addresses[..i] + [address];
      FilteredSnoc(network, addresses[..i], address);
      if address.Unparsed? { continue; }
      if !Fits(network, address.ip.family) { continue; }
      if primary == [] {
        FirstIsPrimary(address);
        assert kept + [address] == [address] && fallback == [];
        primaryFamily := address.ip.family;
      } else {
        NextIsPlaced(kept, primary, fallback, primaryFamily, address);
      }
      if address.ip.family == primaryFamily {
        primary := primary + [address];
      } else {
        fallback := fallback + [address];
      }
    }
    assert addresses[..|addresses|] == addresses;
  }

  method Alternate(primary: seq<Address>, fallback: seq<Address>) returns (ordered: seq<Address>)
    ensures ordered == Zip(primary, fallback)
  {
    ordered := [];
    var i := 0;
    while i < |primary| || i < |fallback|
      invariant 0 <= i <= Max(|primary|, |fallback|)
      invariant ordered + Zip(From(primary, i), From(fallback, i)) == Zip(primary, fallback)
      decreases Max(|primary|, |fallback|) - i
    {
      ghost var p, f, before := From(primary, i), From(fallback, i), ordered;
      if i < |primary| { ordered := ordered + [primary[i]]; }
      if i < |fallback| { ordered := ordered + [fallback[i]]; }
      assert ordered == before + Heads(p, f);
      i := i + 1;
      ZipStep(p, f);
      assert From(p, 1) == From(primary, i) && From(f, 1) == From(fallback, i);
      ConcatAssociates(before, Heads(p, f), Zip(From(p, 1), From(f, 1)));
    }
    assert From(primary, i) == [] && From(fallback, i) == [];
  }

  function Heads(p: seq<Address>, f: seq<Address>): seq<Address> {
    (if p == [] then [] else [p[0]]) + (if f == [] then [] else [f[0]])
  }

  lemma ZipStep(p: seq<Address>, f: seq<Address>)
    ensures Zip(p, f) == Heads(p, f) + Zip(From(p, 1), From(f, 1))
  {
    if p == [] || f == [] { assert From(p, 1) == [] || From(f, 1) == []; }
  }

  lemma ConcatAssociates<T>(a: seq<T>, b: seq<T>, c: seq<T>)
    ensures (a + b) + c == a + (b + c)
  {
  }

  function From(s: seq<Address>, i: nat): seq<Address> {
    if i <= |s| then s[i..] else []
  }

  // ---------- What the interleaving guarantees ----------

  lemma {:induction false} ZipIsPermutation(p: seq<Address>, f: seq<Address>)
    ensures multiset(Zip(p, f)) == multiset(p) + multiset(f)
  {
    if p != [] && f != [] {
      ZipIsPermutation(p[1..], f[1..]);
      assert p == [p[0]] + p[1..] && f == [f[0]] + f[1..];
    }
  }

  lemma {:induction false} OfFamilyConcat(a: seq<Address>, b: seq<Address>, family: Family)
    ensures OfFamily(a + b, family) == OfFamily(a, family) + OfFamily(b, family)
  {
    if b == [] {
      assert a + b == a;
    } else {
      var n := |b| - 1;
      assert (a + b)[..|a + b| - 1] == a + b[..n];
      OfFamilyConcat(a, b[..n], family);
    }
  }

  lemma {:induction false} OfOwnFamily(s: seq<Address>, family: Family)
    requires AllOf(s, family)
    ensures OfFamily(s, family) == s && OfFamily(s, Other(family)) == []
  {
    if s != [] {
      OfOwnFamily(s[..|s| - 1], family);
      assert s == s[..|s| - 1] + [s[|s| - 1]];
    }
  }

  lemma {:induction false} OfFamilyIsPure(s: seq<Address>, family: Family)
    ensures AllOf(OfFamily(s, family), family)
  {
    if s != [] { OfFamilyIsPure(s[..|s| - 1], family); }
  }

  lemma {:induction false} OfFamilySnoc(s: seq<Address>, a: Address, family: Family)
    ensures OfFamily(s + [a], family) == if FamilyOf(a) == Some(family) then OfFamily(s, family) + [a] else OfFamily(s, family)
  {
    assert (s + [a])[..|s|] == s;
  }

  lemma {:induction false} FilteredSnoc(network: Network, s: seq<Address>, a: Address)
    ensures Filtered(network, s + [a]) ==
            if a.HostPort? && Fits(network, a.ip.family) then Filtered(network, s) + [a] else Filtered(network, s)
  {
    assert (s + [a])[..|s|] == s;
  }

  lemma {:induction false} OfFamilyPair(a: Address, b: Address, family: Family)
    requires FamilyOf(a) == Some(family) && FamilyOf(b) == Some(Other(family))
    ensures OfFamily([a, b], family) == [a] && OfFamily([a, b], Other(family)) == [b]
  {
    assert [a, b] == [a] + [b] && [a] == [] + [a];
    OfFamilySnoc([a], b, family);
    OfFamilySnoc([a], b, Other(family));
    OfFamilySnoc([], a, family);
    OfFamilySnoc([], a, Other(family));
  }

  lemma {:induction false} ZipKeepsFamilyOrder(p: seq<Address>, f: seq<Address>, family: Family)
    requires AllOf(p, family) && AllOf(f, Other(family))
    ensures OfFamily(Zip(p, f), family) == p && OfFamily(Zip(p, f), Other(family)) == f
  {
    if p == [] {
      OfOwnFamily(f, Other(family));
    } else if f == [] {
      OfOwnFamily(p, family);
    } else {
      var rest := Zip(p[1..], f[1..]);
      ZipKeepsFamilyOrder(p[1..], f[1..], family);
      OfFamilyConcat([p[0], f[0]], rest, family);
      OfFamilyConcat([p[0], f[0]], rest, Other(family));
      OfFamilyPair(p[0], f[0], family);
      assert p == [p[0]] + p[1..] && f == [f[0]] + f[1..];
    }
  }

  /** Two neighbours of one family are followed by that family only. */
  ghost predicate Alternates(r: seq<Address>) {
    forall i, j, k :: 0 <= i < j < k < |r| && j == i + 1 && FamilyOf(r[i]) == FamilyOf(r[j]) ==> FamilyOf(r[k]) == FamilyOf(r[i])
  }

  lemma {:induction false} ZipAlternates(p: seq<Address>, f: seq<Address>, family: Family)
    requires AllOf(p, family) && AllOf(f, Other(family))
    ensures Alternates(Zip(p, f))
  {
    if p != [] && f != [] {
      var rest := Zip(p[1..], f[1..]);
      var r := [p[0], f[0]] + rest;
      ZipAlternates(p[1..], f[1..], family);
      forall i, j, k | 0 <= i < j < k < |r| && j == i + 1 && FamilyOf(r[i]) == FamilyOf(r[j])
        ensures FamilyOf(r[k]) == FamilyOf(r[i])
      {
        if i >= 2 {
          assert rest[i - 2] == r[i] && rest[j - 2] == r[j] && rest[k - 2] == r[k];
        } else if i == 1 {
          assert rest[0] == r[2];
          assert p[1..] == [];
        }
      }
    }
  }

  /** The interleaving starts with the first kept address, reorders exactly the kept addresses without
      changing the order within a family, and repeats a family only once the other one is exhausted. */
  lemma InterleavedSpec(network: Network, addresses: seq<Address>)
    ensures var r, kept := Interleaved(network, addresses), Filtered(network, addresses);
            OfFamily(r, V4) == OfFamily(kept, V4) && OfFamily(r, V6) == OfFamily(kept, V6) &&
            multiset(r) == multiset(OfFamily(kept, V4)) + multiset(OfFamily(kept, V6)) &&
            (kept != [] ==> r != [] && r[0] == kept[0]) &&
            Alternates(r)
  {
    var r, kept := Interleaved(network, addresses), Filtered(network, addresses);
    FilteredAreParsed(network, addresses);
    if kept != [] {
      var fam := kept[0].ip.family;
      var p, f := OfFamily(kept, fam), OfFamily(kept, Other(fam));
      OfFamilyIsPure(kept, fam);
      OfFamilyIsPure(kept, Other(fam));
      ZipIsPermutation(p, f);
      ZipKeepsFamilyOrder(p, f, fam);
      FirstOfFamily(kept, fam);
      ZipAlternates(p, f, fam);
    }
  }

  lemma FirstOfFamily(s: seq<Address>, family: Family)
    requires s != [] && FamilyOf(s[0]) == Some(family)
    ensures OfFamily(s, family) != [] && OfFamily(s, family)[0] == s[0]
  {
    assert s == s[..1] + s[1..];
    OfFamilyConcat(s[..1], s[1..], family);
    OfOwnFamily(s[..1], family);
  }

  lemma {:induction false} InFamily(s: seq<Address>, family: Family, a: Address)
    ensures a in OfFamily(s, family) <==> a in s && FamilyOf(a) == Some(family)
  {
    if s != [] {
      InFamily(s[..|s| - 1], family, a);
      assert s == s[..|s| - 1] + [s[|s| - 1]];
    }
  }

  lemma {:induction false} InFiltered(network: Network, s: seq<Address>, a: Address)
    ensures a in Filtered(network, s) <==>
            (a in s && a.HostPort? &&
             (network == Tcp || (network == Tcp4 && a.ip.family == V4) || (network == Tcp6 && a.ip.family == V6)))
  {
    if s != [] {
      InFiltered(network, s[..|s| - 1], a);
      assert s == s[..|s| - 1] + [s[|s| - 1]];
    }
  }

  /** What is dialled: every numeric address, unless tcp4 or tcp6 was asked for and it is of the other family. */
  lemma {:induction false} InterleavedExactly(network: Network, addresses: seq<Address>, a: Address)
    ensures a in Interleaved(network, addresses) <==>
            (a in addresses && a.HostPort? &&
             (network == Tcp || (network == Tcp4 && a.ip.family == V4) || (network == Tcp6 && a.ip.family == V6)))
  {
    var r, kept := Interleaved(network, addresses), Filtered(network, addresses);
    InterleavedSpec(network, addresses);
    InFiltered(network, addresses, a);
    InFamily(kept, V4, a);
    InFamily(kept, V6, a);
    assert a in r <==> a in multiset(r);
    assert a in OfFamily(kept, V4) <==> a in multiset(OfFamily(kept, V4));
    assert a in OfFamily(kept, V6) <==> a in multiset(OfFamily(kept, V6));
    assert a.HostPort? ==> a.ip.family == V4 || a.ip.family == V6;
  }

  // ---------- Interleaving two per-family lists ----------

  lemma {:induction false} FilteredConcat(network: Network, a: seq<Address>, b: seq<Address>)
    ensures Filtered(network, a + b) == Filtered(network, a) + Filtered(network, b)
  {
    if b == [] {
      assert a + b == a;
    } else {
      assert (a + b)[..|a + b| - 1] == a + b[..|b| - 1];
      FilteredConcat(network, a, b[..|b| - 1]);
    }
  }

  lemma {:induction false} FilteredOfFamily(network: Network, s: seq<Address>, family: Family)
    requires AllOf(s, family)
    ensures Filtered(network, s) == if Fits(network, family) then s else []
  {
    if s != [] {
      FilteredOfFamily(network, s[..|s| - 1], family);
      assert s == s[..|s| - 1] + [s[|s| - 1]];
    }
  }

  lemma {:induction false} InterleavedOfKept(
    network: Network, addresses: seq<Address>, p: seq<Address>, f: seq<Address>, family: Family)
    requires AllOf(p, family) && AllOf(f, Other(family))
    requires Filtered(network, addresses) == p + f
    ensures Interleaved(network, addresses) == Zip(p, f)
  {
    SplitByFamily(p, f, family);
    var kept := p + f;
    if p != [] {
      assert kept[0] == p[0] && FamilyOf(p[0]) == Some(family);
    } else if f != [] {
      assert kept[0] == f[0] && FamilyOf(f[0]) == Some(Other(family));
    }
  }

  /** Interleaving a list that is one family followed by the other. */
  lemma {:induction false} InterleavedByFamily(network: Network, p: seq<Address>, f: seq<Address>, family: Family)
    requires AllOf(p, family) && AllOf(f, Other(family))
    ensures Interleaved(network, p + f) ==
            Zip(if Fits(network, family) then p else [], if Fits(network, Other(family)) then f else [])
  {
    FilteredConcat(network, p, f);
    FilteredOfFamily(network, p, family);
    FilteredOfFamily(network, f, Other(family));
    InterleavedOfKept(network, p + f, Filtered(network, p), Filtered(network, f), family);
  }

  lemma {:induction false} SplitByFamily(p: seq<Address>, f: seq<Address>, family: Family)
    requires AllOf(p, family) && AllOf(f, Other(family))
    ensures OfFamily(p + f, family) == p && OfFamily(p + f, Other(family)) == f
  {
    OfFamilyConcat(p, f, family);
    OfFamilyConcat(p, f, Other(family));
    OfOwnFamily(p, family);
    OfOwnFamily(f, Other(family));
  }

  /** An answer in which every address belongs to the family that was asked. */
  predicate Respects(records: Records, family: Family) {
    forall i :: 0 <= i < |records| && records[i].Some? ==> records[i].value.family == family
  }

  lemma {:induction false} SelectFits(cfg: Config, family: Family, records: Records)
    requires Respects(records, family)
    ensures Select(OneFamily(cfg, family), cfg.port, records) ==
            if Fits(cfg.network, family) then Select(AnyFamily(cfg), cfg.port, records) else []
  {
    if records != [] {
      SelectFits(cfg, family, records[..|records| - 1]);
      assert Some(records[|records| - 1]) == Some(records[|records| - 1]);
    }
  }

  lemma {:induction false} SelectConcat(cfg: Config, v6: Records, v4: Records)
    requires Respects(v6, V6) && Respects(v4, V4)
    ensures Select(AnyFamily(cfg), cfg.port, v6 + v4) ==
            Select(AnyFamily(cfg), cfg.port, v6) + Select(AnyFamily(cfg), cfg.port, v4)
  {
    if v4 == [] {
      assert v6 + v4 == v6;
    } else {
      var n := |v4| - 1;
      assert (v6 + v4)[..|v6 + v4| - 1] == v6 + v4[..n];
      SelectConcat(cfg, v6, v4[..n]);
      SelectedExactly(AnyFamily(cfg), cfg.port, v6);
      if v4[n].Some? {
        var a := HostPort(v4[n].value, cfg.port);
        assert a !in Select(AnyFamily(cfg), cfg.port, v6);
      }
    }
  }

  /** The per-family candidate lists, zipped v6 first, are the legacy order of the merged answer. */
  lemma PerFamilyListsMatchMergedOrder(cfg: Config, v6: Records, v4: Records)
    requires Respects(v6, V6) && Respects(v4, V4)
    ensures Zip(Select(OneFamily(cfg, V6), cfg.port, v6), Select(OneFamily(cfg, V4), cfg.port, v4)) ==
            Interleaved(cfg.network, Select(AnyFamily(cfg), cfg.port, v6 + v4))
  {
    var s6, s4 := Select(AnyFamily(cfg), cfg.port, v6), Select(AnyFamily(cfg), cfg.port, v4);
    SelectConcat(cfg, v6, v4);
    SelectFits(cfg, V6, v6);
    SelectFits(cfg, V4, v4);
    SelectedExactly(AnyFamily(cfg), cfg.port, v6);
    SelectedExactly(AnyFamily(cfg), cfg.port, v4);
    RespectingSelection(s6, v6, V6);
    RespectingSelection(s4, v4, V4);
    InterleavedByFamily(cfg.network, s6, s4, V6);
  }

  lemma RespectingSelection(s: seq<Address>, records: Records, family: Family)
    requires Respects(records, family)
    requires forall a :: a in s ==> a.HostPort? && Some(a.ip) in records
    ensures AllOf(s, family)
  {
    forall i | 0 <= i < |s| ensures FamilyOf(s[i]) == Some(family) {
      assert s[i] in s;
      var k :| 0 <= k < |records| && records[k] == Some(s[i].ip);
    }
  }
}
