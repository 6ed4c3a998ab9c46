/** The inbound 5-tuple gate: a compiled, direction-swapped table against the source policies, and the
    selection of the policy of an outgoing packet. */
module PolicyGate {
  import opened Helpers
  const MAX_POLICIES: nat := 128
  const PROTO_ANY: nat := 0
  const PROTO_TCP_UDP: nat := 254

  datatype Policy = Policy(id: int, priority: int, protocol: nat, srcFrom: int, srcTo: int, dstFrom: int, dstTo: int,
                           srcAny: bool, dstAny: bool, srcNegate: bool, dstNegate: bool,
                           srcNet: bv32, srcMask: bv32, dstNet: bv32, dstMask: bv32)

  datatype Tuple = Tuple(srcIp: bv32, dstIp: bv32, srcPort: nat, dstPort: nat, proto: nat)

  function Swap(t: Tuple): Tuple {
    Tuple(t.dstIp, t.srcIp, t.dstPort, t.srcPort, t.proto)
  }

  predicate TupleOk(t: Tuple) {
    t.srcPort <= 65535 && t.dstPort <= 65535
  }

  /* ---- matching a source policy ---- */

  function Masked(ip: bv32, mask: bv32): bv32 {
    ip & mask
  }

  predicate CidrMatch(any: bool, negate: bool, ip: bv32, net: bv32, mask: bv32) {
    any || (if negate then Masked(ip, mask) != Masked(net, mask) else Masked(ip, mask) == Masked(net, mask))
  }

  predicate ProtoMatch(policy: nat, proto: nat) {
    if policy == PROTO_TCP_UDP then proto == 6 || proto == 17 else policy == PROTO_ANY || policy == proto
  }

  predicate PortMatch(from: int, to: int, port: nat) {
    from >= 0 && to >= 0 ==> from <= port <= to
  }

  /** `crypto_policy_match_packet` */
  predicate Matches(p: Policy, t: Tuple) {
    ProtoMatch(p.protocol, t.proto) && AddressAndPort(p, t)
  }

  predicate AddressAndPort(p: Policy, t: Tuple) {
    && CidrMatch(p.srcAny, p.srcNegate, t.srcIp, p.srcNet, p.srcMask)
    && CidrMatch(p.dstAny, p.dstNegate, t.dstIp, p.dstNet, p.dstMask)
    && PortMatch(p.srcFrom, p.srcTo, t.srcPort)
    && PortMatch(p.dstFrom, p.dstTo, t.dstPort)
  }

  predicate PortIsAny(from: int, to: int) {
    from < 0 || to < 0 || (from <= 0 && to >= 65535)
  }

  predicate IsCatchAll(p: Policy) {
    p.srcAny && p.dstAny && p.protocol == PROTO_ANY && PortIsAny(p.srcFrom, p.srcTo) && PortIsAny(p.dstFrom, p.dstTo)
  }

  /** What the protocol field of a policy means, with the rest of the policy as it is: 0 leaves the protocol
      open, 254 stands for TCP or UDP, and any other number for itself. */
  lemma ProtocolMeaning(p: Policy, t: Tuple)
    ensures var open := Matches(p.(protocol := 0), t);
            && (p.protocol == 254 ==> (Matches(p, t) <==> open && (t.proto == 6 || t.proto == 17)))
            && (p.protocol == 254 ==>
                  (Matches(p, t) <==> Matches(p.(protocol := 6), t) || Matches(p.(protocol := 17), t)))
            && (p.protocol != 0 && p.protocol != 254 ==> (Matches(p, t) <==> open && t.proto == p.protocol))
            && (t.proto != 254 ==> (open <==> Matches(p.(protocol := t.proto), t)))
  {
    hide AddressAndPort;
    BesideProtocol(p, 0, t);
    BesideProtocol(p, 6, t);
    BesideProtocol(p, 17, t);
    BesideProtocol(p, t.proto, t);
  }

  lemma BesideProtocol(p: Policy, n: nat, t: Tuple)
    ensures AddressAndPort(p.(protocol := n), t) <==> AddressAndPort(p, t)
  {
    hide CidrMatch, PortMatch;
  }

  /** A prefix mask: ones, then zeros. */
  predicate PrefixMask(mask: bv32) {
    !mask & (!mask + 1) == 0
  }

  /** Two addresses differ in none of the leading bits: what differs is no larger than the open part. */
  predicate SamePrefix(ip: bv32, net: bv32, mask: bv32) {
    ip ^ net <= !mask
  }

  lemma EqualBits(ip: bv32, net: bv32, m: bv32)
    requires !m & (!m + 1) == 0 && ip & m == net & m
    ensures ip ^ net <= !m
  {
  }

  lemma OpenBits(ip: bv32, net: bv32, m: bv32)
    requires !m & (!m + 1) == 0 && ip ^ net <= !m
    ensures ip & m == net & m
  {
  }

  lemma MaskedSame(ip: bv32, net: bv32, mask: bv32)
    requires PrefixMask(mask) && Masked(ip, mask) == Masked(net, mask)
    ensures SamePrefix(ip, net, mask)
  {
    EqualBits(ip, net, mask);
  }

  lemma SameMasked(ip: bv32, net: bv32, mask: bv32)
    requires PrefixMask(mask) && SamePrefix(ip, net, mask)
    ensures Masked(ip, mask) == Masked(net, mask)
  {
    OpenBits(ip, net, mask);
  }

  /** Under a prefix mask exactly the leading bits of an address decide. */
  lemma PrefixDecides(ip: bv32, net: bv32, mask: bv32)
    requires PrefixMask(mask)
    ensures Masked(ip, mask) == Masked(net, mask) <==> SamePrefix(ip, net, mask)
  {
    hide PrefixMask, SamePrefix, Masked;
    if SamePrefix(ip, net, mask) {
      SameMasked(ip, net, mask);
    } else if Masked(ip, mask) == Masked(net, mask) {
      MaskedSame(ip, net, mask);
    }
  }

  /** What the address fields of a policy mean: everything, the addresses that share the network's leading bits,
      or all others. */
  lemma AddressMeaning(p: Policy, t: Tuple)
    requires PrefixMask(p.srcMask) && PrefixMask(p.dstMask)
    ensures Matches(p, t) <==>
              && Matches(p.(srcAny := true, dstAny := true), t)
              && (p.srcAny || (SamePrefix(t.srcIp, p.srcNet, p.srcMask) != p.srcNegate))
              && (p.dstAny || (SamePrefix(t.dstIp, p.dstNet, p.dstMask) != p.dstNegate))
  {
    hide PrefixMask, PortMatch, ProtoMatch, SamePrefix, Masked;
    PrefixDecides(t.srcIp, p.srcNet, p.srcMask);
    PrefixDecides(t.dstIp, p.dstNet, p.dstMask);
  }

  /** What the port fields of a policy mean: a negative bound leaves the port open, otherwise both bounds are
      included; and with all fields open everything matches. */
  lemma PortMeaning(p: Policy, t: Tuple)
    ensures Matches(p, t) <==>
              && Matches(p.(srcFrom := -1, dstTo := -1), t)
              && (p.srcFrom < 0 || p.srcTo < 0 || p.srcFrom <= t.srcPort <= p.srcTo)
              && (p.dstFrom < 0 || p.dstTo < 0 || p.dstFrom <= t.dstPort <= p.dstTo)
    ensures Matches(p.(protocol := 0, srcAny := true, dstAny := true, srcFrom := -1, dstTo := -1), t)
  {
    hide ProtoMatch, CidrMatch;
    OpenMatches(p, t);
  }

  lemma OpenMatches(p: Policy, t: Tuple)
    ensures Matches(p.(protocol := 0, srcAny := true, dstAny := true, srcFrom := -1, dstTo := -1), t)
  {
    hide Masked, ProtoMatch;
    OpenProtocol(t.proto);
  }

  lemma OpenProtocol(proto: nat)
    ensures ProtoMatch(0, proto)
  {
  }

  /* ---- the compiled form ---- */

  /** A compiled rule: fields already swapped to the direction of the inbound packet. */
  datatype Rule = Rule(srcNet: bv32, srcMask: bv32, dstNet: bv32, dstMask: bv32, sportLo: nat, sportHi: nat,
                       dportLo: nat, dportHi: nat, proto: nat, srcNeg: bool, dstNeg: bool)

  function Clamp(v: int): int {
    if v > 65535 then 65535 else v
  }

  /** `pol_in_port_range` */
  function PortRange(from: int, to: int): (nat, nat) {
    if from < 0 || to < 0 then (0, 65535)
    else if Clamp(from) > Clamp(to) then (Clamp(to), Clamp(from))
    else (Clamp(from), Clamp(to))
  }

  function FillNet(any: bool, net: bv32, mask: bv32): bv32 {
    if any then 0 else Masked(net, mask)
  }

  function FillMask(any: bool, mask: bv32): bv32 {
    if any then 0 else mask
  }

  /** `pol_in_fill` */
  function Fill(p: Policy): Rule {
    var s := PortRange(p.dstFrom, p.dstTo);
    var d := PortRange(p.srcFrom, p.srcTo);
    Rule(FillNet(p.dstAny, p.dstNet, p.dstMask), FillMask(p.dstAny, p.dstMask),
         FillNet(p.srcAny, p.srcNet, p.srcMask), FillMask(p.srcAny, p.srcMask),
         s.0, s.1, d.0, d.1, p.protocol, !p.dstAny && p.dstNegate, !p.srcAny && p.srcNegate)
  }

  /** The compiled address test. */
  predicate AddrHits(ip: bv32, net: bv32, mask: bv32, neg: bool) {
    (Masked(ip, mask) == net) != neg
  }

  /** The compiled protocol test. */
  predicate ProtoHits(rule: nat, proto: nat) {
    match rule
    case 254 => proto == 6 || proto == 17
    case 0 => true
    case n => proto == n
  }

  predicate Hits(e: Rule, t: Tuple) {
    && ProtoHits(e.proto, t.proto)
    && AddrHits(t.srcIp, e.srcNet, e.srcMask, e.srcNeg)
    && AddrHits(t.dstIp, e.dstNet, e.dstMask, e.dstNeg)
    && e.sportLo <= t.srcPort <= e.sportHi
    && e.dportLo <= t.dstPort <= e.dportHi
  }

  /** A range that compiles faithfully: open, or in order and starting inside the port space. Both the
      loader's forms, -1/-1 and 0 <= from <= to <= 65535, are of this kind. */
  predicate RangeOk(from: int, to: int) {
    from < 0 || to < 0 || (from <= to && from <= 65535)
  }

  predicate InRange(r: (nat, nat), port: nat) {
    r.0 <= port <= r.1
  }

  /** A compiled range agrees with the policy on every port if and only if it is of that kind; a reversed
      range matches nothing in the policy but is silently turned around in the table. */
  lemma RangeIff(from: int, to: int)
    ensures (forall port: nat :: port <= 65535 ==> (InRange(PortRange(from, to), port) <==> PortMatch(from, to, port)))
            <==> RangeOk(from, to)
  {
    if !RangeOk(from, to) {
      var r := PortRange(from, to);
      assert InRange(r, r.1) && !PortMatch(from, to, r.1);
    }
  }

  predicate PolicyOk(p: Policy) {
    RangeOk(p.srcFrom, p.srcTo) && RangeOk(p.dstFrom, p.dstTo)
  }

  lemma ZeroMask(ip: bv32)
    ensures Masked(ip, 0) == 0
  {
  }

  lemma AddrFaithful(any: bool, negate: bool, ip: bv32, net: bv32, mask: bv32)
    ensures AddrHits(ip, FillNet(any, net, mask), FillMask(any, mask), !any && negate)
            <==> CidrMatch(any, negate, ip, net, mask)
  {
    hide Masked;
    ZeroMask(ip);
  }

  /** A compiled rule hits exactly the packets whose reverse the policy matches. */
  lemma FillFaithful(p: Policy, t: Tuple)
    requires PolicyOk(p) && TupleOk(t)
    ensures Hits(Fill(p), t) <==> Matches(p, Swap(t))
  {
    hide PortRange, PortMatch, CidrMatch, AddrHits, FillNet, FillMask;
    AddrFaithful(p.dstAny, p.dstNegate, t.srcIp, p.dstNet, p.dstMask);
    AddrFaithful(p.srcAny, p.srcNegate, t.dstIp, p.srcNet, p.srcMask);
    RangeIff(p.srcFrom, p.srcTo);
    RangeIff(p.dstFrom, p.dstTo);
    assert InRange(PortRange(p.dstFrom, p.dstTo), t.srcPort) <==> PortMatch(p.dstFrom, p.dstTo, t.srcPort);
    assert InRange(PortRange(p.srcFrom, p.srcTo), t.dstPort) <==> PortMatch(p.srcFrom, p.srcTo, t.dstPort);
  }

  lemma CatchAllMatches(p: Policy, t: Tuple)
    requires IsCatchAll(p) && TupleOk(t)
    ensures Matches(p, t)
  {
  }

  /* ---- a profile ---- */

  /** The policies a profile lists, in its order; indices outside the policy array are skipped. */
  function Listed(policies: seq<Policy>, indices: seq<int>): seq<Policy> {
    if |indices| == 0 then []
    else
      var rest := Listed(policies, indices[..|indices| - 1]);
      var i := indices[|indices| - 1];
      if 0 <= i < |policies| then rest + [policies[i]] else rest
  }

  /** The compiled gate of one profile. */
  class Gate {
    var anyFlag: bool
    var rules: seq<Rule>

    /** What the gate lets in. */
    predicate Admits(t: Tuple)
      reads this
    {
      anyFlag || exists i :: 0 <= i < |rules| && Hits(rules[i], t)
    }

    constructor ()
      ensures !anyFlag && rules == []
    {
      anyFlag, rules := false, [];
    }

    /** `config_refresh_policy_in_any`: look for a catch-all, otherwise compile every listed policy. */
    method Refresh(policies: seq<Policy>, indices: seq<int>)
      modifies this
      ensures var ps := Listed(policies, indices);
              && anyFlag == (exists i :: 0 <= i < |ps| && IsCatchAll(ps[i]))
              && (anyFlag ==> rules == [])
              && (!anyFlag ==> |rules| == (if |ps| <= MAX_POLICIES then |ps| else MAX_POLICIES)
                               && forall i :: 0 <= i < |rules| ==> rules[i] == Fill(ps[i]))
    {
      hide Fill;
      ghost var ps := Listed(policies, indices);
      anyFlag, rules := false, [];
      for i := 0 to |indices|
        modifies this`anyFlag
        invariant rules == [] && !anyFlag
        invariant forall k :: 0 <= k < |Listed(policies, indices[..i])| ==>
                    !IsCatchAll(Listed(policies, indices[..i])[k])
      {
        assert indices[..i + 1][..i] == indices[..i];
        var poli := indices[i];
        if 0 <= poli < |policies| && IsCatchAll(policies[poli]) {
          anyFlag := true;
          ListedMember(policies, indices, i);
          return;
        }
      }
      assert indices[..|indices|] == indices;
      for i := 0 to |indices|
        modifies this`rules
        invariant !anyFlag
        invariant var n := |Listed(policies, indices[..i])|; |rules| == (if n <= MAX_POLICIES then n else MAX_POLICIES)
        invariant forall k :: 0 <= k < |rules| ==> rules[k] == Fill(Listed(policies, indices[..i])[k])
      {
        assert indices[..i + 1][..i] == indices[..i];
        var poli := indices[i];
        if 0 <= poli < |policies| && |rules| < MAX_POLICIES {
          rules := rules + [Fill(policies[poli])];
        }
      }
    }

    /** Main gate theorem: a refreshed gate lets a packet in exactly when some policy of the profile matches
        it with source and destination exchanged. */
    lemma AdmitsIff(policies: seq<Policy>, indices: seq<int>, t: Tuple)
      requires var ps := Listed(policies, indices);
               && |ps| <= MAX_POLICIES && Compiled(ps, anyFlag, rules)
               && forall i :: 0 <= i < |ps| ==> PolicyOk(ps[i])
      requires TupleOk(t)
      ensures Admits(t) <==>
                exists i :: 0 <= i < |Listed(policies, indices)| && Matches(Listed(policies, indices)[i], Swap(t))
    {
      hide Listed, Compiled, PolicyOk, Matches, Hits;
      GateIff(Listed(policies, indices), anyFlag, rules, t);
    }

    /** Refreshing and asking, as the receive path does. */
    method RefreshAndAsk(policies: seq<Policy>, indices: seq<int>, t: Tuple) returns (ok: bool)
      requires TupleOk(t) && |Listed(policies, indices)| <= MAX_POLICIES
      requires forall i :: 0 <= i < |Listed(policies, indices)| ==> PolicyOk(Listed(policies, indices)[i])
      modifies this
      ensures ok == Admits(t)
      ensures ok <==> exists i :: 0 <= i < |Listed(policies, indices)| && Matches(Listed(policies, indices)[i], Swap(t))
    {
      hide Listed, Matches, Hits, Fill, IsCatchAll, PolicyOk;
      Refresh(policies, indices);
      AdmitsIff(policies, indices, t);
      ok := anyFlag;
      if !ok {
        ok := RuleHits(t);
      }
    }

    /** `config_policy_in_ok`: does a compiled rule hit? */
    method RuleHits(t: Tuple) returns (ok: bool)
      ensures ok == exists i :: 0 <= i < |rules| && Hits(rules[i], t)
    {
      hide Hits;
      for i := 0 to |rules|
        invariant forall k :: 0 <= k < i ==> !Hits(rules[k], t)
      {
        if Hits(rules[i], t) {
          return true;
        }
      }
      ok := false;
    }
  }

  lemma {:induction false} ListedMember(policies: seq<Policy>, indices: seq<int>, i: nat)
    requires i < |indices| && 0 <= indices[i] < |policies|
    ensures exists k :: 0 <= k < |Listed(policies, indices)| && Listed(policies, indices)[k] == policies[indices[i]]
  {
    var n := |indices| - 1;
    var ps := Listed(policies, indices);
    if i == n {
      assert ps[|ps| - 1] == policies[indices[i]];
    } else {
      ListedMember(policies, indices[..n], i);
      var init := Listed(policies, indices[..n]);
      var k :| 0 <= k < |init| && init[k] == policies[indices[..n][i]];
      assert ps[k] == init[k];
    }
  }

  /** A policy is listed exactly when a valid index names it. */
  lemma {:induction false} ListedIff(policies: seq<Policy>, indices: seq<int>, p: Policy)
    ensures p in Listed(policies, indices) <==>
              exists i :: 0 <= i < |indices| && 0 <= indices[i] < |policies| && policies[indices[i]] == p
  {
    if |indices| > 0 {
      var n := |indices| - 1;
      ListedIff(policies, indices[..n], p);
      if i :| 0 <= i < |indices| && 0 <= indices[i] < |policies| && policies[indices[i]] == p {
        assert i < n ==> indices[..n][i] == indices[i];
      }
    }
  }

  /** The list follows the order of the indices, one policy for each valid one. */
  lemma {:induction false} ListedInOrder(policies: seq<Policy>, a: seq<int>, i: int, b: seq<int>)
    ensures Listed(policies, a + [i] + b)
         == Listed(policies, a) + (if 0 <= i < |policies| then [policies[i]] else []) + Listed(policies, b)
  {
    var all := a + [i] + b;
    if |b| == 0 {
      assert all[..|all| - 1] == a;
    } else {
      var c := b[..|b| - 1];
      assert all[..|all| - 1] == a + [i] + c;
      ListedInOrder(policies, a, i, c);
    }
  }

  /** What `Refresh` leaves behind. */
  ghost predicate Compiled(ps: seq<Policy>, anyFlag: bool, rules: seq<Rule>) {
    && anyFlag == (exists i :: 0 <= i < |ps| && IsCatchAll(ps[i]))
    && (!anyFlag ==> |rules| == |ps| && forall i :: 0 <= i < |rules| ==> rules[i] == Fill(ps[i]))
  }

  /** The catch-all flag or a compiled hit admits a packet exactly when some policy of
      the profile matches it with source and destination exchanged. */
  lemma GateIff(ps: seq<Policy>, anyFlag: bool, rules: seq<Rule>, t: Tuple)
    requires Compiled(ps, anyFlag, rules) && TupleOk(t)
    requires forall i :: 0 <= i < |ps| ==> PolicyOk(ps[i])
    ensures anyFlag || (exists i :: 0 <= i < |rules| && Hits(rules[i], t))
            <==> exists i :: 0 <= i < |ps| && Matches(ps[i], Swap(t))
  {
    hide Fill, Hits, Matches, IsCatchAll, PolicyOk;
    if anyFlag {
      var i :| 0 <= i < |ps| && IsCatchAll(ps[i]);
      SwapOk(t);
      CatchAllMatches(ps[i], Swap(t));
    } else {
      forall i | 0 <= i < |ps| ensures Hits(rules[i], t) <==> Matches(ps[i], Swap(t)) {
        FillFaithful(ps[i], t);
      }
    }
  }

  lemma SwapOk(t: Tuple)
    requires TupleOk(t)
    ensures TupleOk(Swap(t))
  {
  }

  /** A concrete disagreement outside that condition: a reversed port range is refused by the policy on
      every packet, but its compiled rule admits one. */
  lemma ReversedRangeAdmits()
    ensures var p := Policy(1, 1, 17, -1, -1, 20, 10, true, true, false, false, 0, 0, 0, 0);
            var t := Tuple(1, 2, 15, 5, 17);
            !PolicyOk(p) && Hits(Fill(p), t) && !Matches(p, Swap(t))
  {
    ZeroMask(1);
    ZeroMask(2);
  }

  /* ---- choosing the policy of an outgoing packet ---- */

  predicate Before(a: Policy, b: Policy) {
    a.priority < b.priority || (a.priority == b.priority && a.id < b.id)
  }

  /** `config_select_crypto_policy`: of the listed policies that match, the one with the smallest priority
      and then the smallest id; the first of several equal ones. */
  method Select(policies: seq<Policy>, indices: seq<int>, t: Tuple) returns (best: Option<nat>)
    ensures best.None? <==>
              forall i :: 0 <= i < |Listed(policies, indices)| ==> !Matches(Listed(policies, indices)[i], t)
    ensures best.Some? ==>
              var ps := Listed(policies, indices);
              && best.value < |ps| && Matches(ps[best.value], t)
              && (forall i :: 0 <= i < |ps| && Matches(ps[i], t) ==>
                    var b := ps[best.value];
                    b.priority < ps[i].priority
                    || (b.priority == ps[i].priority && (b.id < ps[i].id || (b.id == ps[i].id && best.value <= i))))
  {
    hide Matches;
    best := None;
    var chosen: Option<Policy> := None;
    var seen := 0;
    for i := 0 to |indices|
      invariant seen == |Listed(policies, indices[..i])|
      invariant best.None? <==> chosen.None?
      invariant best.None? ==> forall k :: 0 <= k < seen ==> !Matches(Listed(policies, indices[..i])[k], t)
      invariant best.Some? ==>
                  && best.value < seen && chosen.value == Listed(policies, indices[..i])[best.value]
                  && Matches(chosen.value, t)
                  && (forall k :: 0 <= k < seen && Matches(Listed(policies, indices[..i])[k], t) ==>
                        !Before(Listed(policies, indices[..i])[k], chosen.value))
                  && (forall k :: 0 <= k < best.value && Matches(Listed(policies, indices[..i])[k], t) ==>
                        Before(chosen.value, Listed(policies, indices[..i])[k]))
    {
      assert indices[..i + 1][..i] == indices[..i];
      var pi := indices[i];
      if 0 <= pi < |policies| {
        var cp := policies[pi];
        if Matches(cp, t) && (chosen.None? || Before(cp, chosen.value)) {
          best, chosen := Some(seen), Some(cp);
        }
        seen := seen + 1;
      }
    }
    assert indices[..|indices|] == indices;
  }
}
