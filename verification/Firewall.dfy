/** internal/firewall: the compiled rule list, what it does to a packet, and how
    each backend spells a rule. */
module Firewall {
  import opened Ipv4
  import opened StableSort
  import opened Wrappers

  datatype Protocol = Unset | Tcp | Udp

  /** One persisted rule. An empty interface is no interface match. */
  datatype UserRule = UserRule(action: string, protocol: Protocol, portFrom: int, portTo: int,
                               source: Option<Prefix>, iface: string, priority: int)

  datatype Target = ACCEPT | DROP

  /** A resolved rule; port 0 is no port match. */
  datatype ChainRule = ChainRule(target: Target, protocol: Protocol, portFrom: int, portTo: int,
                                 source: Option<Prefix>, iface: string, established: bool)

  const LAN_PORT := 8443

  const RFC1918: seq<Prefix> :=
    [Prefix(0x0A00_0000, 0x100_0000), Prefix(0xAC10_0000, 0x10_0000), Prefix(0xC0A8_0000, 0x1_0000)]

  const KEEP_ESTABLISHED := ChainRule(ACCEPT, Unset, 0, 0, None, "", true)
  const KEEP_LOOPBACK := ChainRule(ACCEPT, Unset, 0, 0, None, "lo", false)
  const KEEP_SSH := ChainRule(ACCEPT, Tcp, 22, 22, None, "", false)

  function KeepLan(p: Prefix): ChainRule {
    ChainRule(ACCEPT, Tcp, LAN_PORT, LAN_PORT, Some(p), "", false)
  }

  const LOCKDOWN_TAIL := ChainRule(DROP, Unset, 0, 0, None, "", false)

  function Baseline(): seq<ChainRule> {
    [KEEP_ESTABLISHED, KEEP_LOOPBACK, KEEP_SSH, KeepLan(RFC1918[0]), KeepLan(RFC1918[1]), KeepLan(RFC1918[2])]
  }

  function Resolved(r: UserRule): ChainRule {
    ChainRule(if r.action == "allow" then ACCEPT else DROP, r.protocol, r.portFrom, r.portTo, r.source, r.iface, false)
  }

  function ResolvedAll(rs: seq<UserRule>): seq<ChainRule> {
    seq(|rs|, i requires 0 <= i < |rs| => Resolved(rs[i]))
  }

  const BY_PRIORITY: UserRule -> int := (r: UserRule) => r.priority

  function Ruleset(rules: seq<UserRule>, lockdown: bool): seq<ChainRule> {
    Baseline() + ResolvedAll(Sort(rules, BY_PRIORITY)) + (if lockdown then [LOCKDOWN_TAIL] else [])
  }

  /** Between the baseline and the tail: every user rule once, priorities
      ascending, ties in order of arrival. */
  lemma UserRulesInOrder(rules: seq<UserRule>, lockdown: bool) returns (sorted: seq<UserRule>)
    ensures Ruleset(rules, lockdown) == Baseline() + ResolvedAll(sorted) + (if lockdown then [LOCKDOWN_TAIL] else [])
    ensures SortedBy(sorted, BY_PRIORITY) && multiset(sorted) == multiset(rules)
    ensures forall k :: WithKey(sorted, BY_PRIORITY, k) == WithKey(rules, BY_PRIORITY, k)
  {
    sorted := Sort(rules, BY_PRIORITY);
    SortKeeps(rules, BY_PRIORITY);
  }

  /** Rules with pairwise distinct priorities compile the same in any order of arrival. */
  lemma ArrivalOrderIrrelevant(a: seq<UserRule>, b: seq<UserRule>, lockdown: bool)
    requires multiset(a) == multiset(b) && DistinctKeys(a, BY_PRIORITY)
    ensures Ruleset(a, lockdown) == Ruleset(b, lockdown)
  {
    OrderIrrelevant(a, b, BY_PRIORITY);
  }

  // ---- packets ----

  datatype Transport = IsTcp | IsUdp | IsOther

  datatype Packet = Packet(iface: string, transport: Transport, src: Addr, dport: nat, established: bool)

  /** One match of a rule as a backend spells it. */
  datatype Cond =
    | InInterface(name: string)
    | CtEstablished
    | Source(p: Prefix)
    | ProtocolIs(protocol: Protocol)
    | DportIs(lo: int, hi: int)
    | ProtocolDport(protocol: Protocol, lo: int, hi: int)

  predicate Speaks(pkt: Packet, p: Protocol) {
    match p
    case Unset => true
    case Tcp => pkt.transport == IsTcp
    case Udp => pkt.transport == IsUdp
  }

  predicate Holds(c: Cond, pkt: Packet) {
    match c
    case InInterface(name) => pkt.iface == name
    case CtEstablished => pkt.established
    case Source(p) => p.Contains(pkt.src)
    case ProtocolIs(p) => Speaks(pkt, p)
    case DportIs(lo, hi) => pkt.transport != IsOther && lo <= pkt.dport <= hi
    case ProtocolDport(p, lo, hi) => Speaks(pkt, p) && pkt.transport != IsOther && lo <= pkt.dport <= hi
  }

  datatype Compiled = Compiled(conds: seq<Cond>, target: Target)

  predicate AllHold(conds: seq<Cond>, pkt: Packet) {
    forall i :: 0 <= i < |conds| ==> Holds(conds[i], pkt)
  }

  predicate Matches(c: Compiled, pkt: Packet) {
    AllHold(c.conds, pkt)
  }

  datatype Verdict = Decided(t: Target) | FallsThrough

  /** First match wins. */
  function Judge(chain: seq<Compiled>, pkt: Packet): Verdict {
    if chain == [] then FallsThrough
    else if Matches(chain[0], pkt) then Decided(chain[0].target)
    else Judge(chain[1..], pkt)
  }

  // ---- the two spellings ----

  datatype Dialect = Nft | Iptables

  function When(c: bool, x: Cond): seq<Cond> {
    if c then [x] else []
  }

  function SourceCond(r: ChainRule): seq<Cond> {
    if r.source.Some? then [Source(r.source.value)] else []
  }

  /** nftRuleArgs: no protocol match at all unless there is a port. */
  function NftConds(r: ChainRule): seq<Cond> {
    When(r.iface != "", InInterface(r.iface))
    + When(r.established, CtEstablished)
    + SourceCond(r)
    + When(r.protocol != Unset && r.portFrom != 0, ProtocolDport(r.protocol, r.portFrom, r.portTo))
  }

  /** iptablesRuleArgs: protocol and port are matched separately. */
  function IptablesConds(r: ChainRule): seq<Cond> {
    When(r.iface != "", InInterface(r.iface))
    + When(r.established, CtEstablished)
    + When(r.protocol != Unset, ProtocolIs(r.protocol))
    + SourceCond(r)
    + When(r.portFrom != 0, DportIs(r.portFrom, r.portTo))
  }

  function Spell(d: Dialect, r: ChainRule): Compiled {
    Compiled(if d == Nft then NftConds(r) else IptablesConds(r), r.target)
  }

  function SpellAll(d: Dialect, rs: seq<ChainRule>): seq<Compiled> {
    seq(|rs|, i requires 0 <= i < |rs| => Spell(d, rs[i]))
  }

  /** A port range as both tools want it. */
  predicate PortRange(lo: int, hi: int) {
    0 <= lo <= hi <= 65535
  }

  predicate InRange(c: Cond) {
    match c
    case DportIs(lo, hi) => PortRange(lo, hi)
    case ProtocolDport(_, lo, hi) => PortRange(lo, hi)
    case _ => true
  }

  /** Whether the backend's tool takes the rule: iptables has no --dport without -p, and
      neither tool takes a reversed range or a port that there is not. */
  predicate Accepts(c: Compiled) {
    && (forall i :: 0 <= i < |c.conds| ==> InRange(c.conds[i]))
    && ((exists i :: 0 <= i < |c.conds| && c.conds[i].DportIs?) ==>
          exists j :: 0 <= j < |c.conds| && c.conds[j].ProtocolIs?)
  }

  /** What it takes, by the rule: a port that is spelled is in range, and for iptables
      comes with a protocol. */
  predicate Takes(d: Dialect, r: ChainRule) {
    if d == Nft then r.protocol != Unset && r.portFrom != 0 ==> PortRange(r.portFrom, r.portTo)
    else r.portFrom != 0 ==> r.protocol != Unset && PortRange(r.portFrom, r.portTo)
  }

  lemma AcceptsExactly(d: Dialect, r: ChainRule)
    ensures Accepts(Spell(d, r)) <==> Takes(d, r)
  {
    if d == Iptables {
      IptablesTakes(r);
    } else {
      NftTakes(r);
    }
  }

  lemma NftTakes(r: ChainRule)
    ensures Accepts(Compiled(NftConds(r), r.target)) <==> Takes(Nft, r)
  {
    var conds := NftConds(r);
    if r.protocol != Unset && r.portFrom != 0 {
      assert conds[|conds| - 1] == ProtocolDport(r.protocol, r.portFrom, r.portTo);
    }
  }

  lemma IptablesTakes(r: ChainRule)
    ensures Accepts(Compiled(IptablesConds(r), r.target)) <==> Takes(Iptables, r)
  {
    var conds := IptablesConds(r);
    if r.portFrom != 0 {
      assert conds[|conds| - 1] == DportIs(r.portFrom, r.portTo);
      if r.protocol != Unset {
        assert conds[(if r.iface != "" then 1 else 0) + (if r.established then 1 else 0)].ProtocolIs?;
      }
    }
  }

  ghost predicate AllAccepted(chain: seq<Compiled>) {
    forall i :: 0 <= i < |chain| ==> Accepts(chain[i])
  }

  predicate AllTaken(d: Dialect, rs: seq<ChainRule>) {
    forall i :: 0 <= i < |rs| ==> Takes(d, rs[i])
  }

  predicate RulesTaken(d: Dialect, rules: seq<UserRule>) {
    forall i :: 0 <= i < |rules| ==> Takes(d, Resolved(rules[i]))
  }

  lemma SpelledAccepted(d: Dialect, rs: seq<ChainRule>)
    ensures AllAccepted(SpellAll(d, rs)) <==> AllTaken(d, rs)
  {
    forall i | 0 <= i < |rs| ensures Accepts(SpellAll(d, rs)[i]) <==> Takes(d, rs[i]) {
      AcceptsExactly(d, rs[i]);
    }
    if AllAccepted(SpellAll(d, rs)) {
      forall i | 0 <= i < |rs| ensures Takes(d, rs[i]) {
        assert Accepts(SpellAll(d, rs)[i]);
      }
    }
  }

  lemma TakenTogether(d: Dialect, a: seq<ChainRule>, b: seq<ChainRule>)
    ensures AllTaken(d, a + b) <==> AllTaken(d, a) && AllTaken(d, b)
  {
    if AllTaken(d, a + b) {
      forall i | 0 <= i < |a| ensures Takes(d, a[i]) { assert (a + b)[i] == a[i]; }
      forall i | 0 <= i < |b| ensures Takes(d, b[i]) { assert (a + b)[|a| + i] == b[i]; }
    }
  }

  lemma ResolvedTaken(d: Dialect, rs: seq<UserRule>)
    ensures AllTaken(d, ResolvedAll(rs)) <==> RulesTaken(d, rs)
  {
    assert forall i :: 0 <= i < |rs| ==> ResolvedAll(rs)[i] == Resolved(rs[i]);
    if AllTaken(d, ResolvedAll(rs)) {
      forall i | 0 <= i < |rs| ensures Takes(d, Resolved(rs[i])) {
        assert Takes(d, ResolvedAll(rs)[i]);
      }
    }
  }

  lemma TakenInAnyOrder(d: Dialect, a: seq<UserRule>, b: seq<UserRule>)
    requires multiset(a) == multiset(b) && RulesTaken(d, a)
    ensures RulesTaken(d, b)
  {
    forall i | 0 <= i < |b| ensures Takes(d, Resolved(b[i])) {
      assert b[i] in multiset(a);
    }
  }

  lemma SortedTaken(d: Dialect, rules: seq<UserRule>)
    ensures RulesTaken(d, Sort(rules, BY_PRIORITY)) <==> RulesTaken(d, rules)
  {
    SortKeeps(rules, BY_PRIORITY);
    if RulesTaken(d, rules) {
      TakenInAnyOrder(d, rules, Sort(rules, BY_PRIORITY));
    } else if RulesTaken(d, Sort(rules, BY_PRIORITY)) {
      TakenInAnyOrder(d, Sort(rules, BY_PRIORITY), rules);
    }
  }

  lemma BaselineTaken(d: Dialect)
    ensures AllTaken(d, Baseline()) && AllTaken(d, [LOCKDOWN_TAIL])
  {
  }

  lemma RulesetTaken(d: Dialect, rules: seq<UserRule>, lockdown: bool)
    ensures AllTaken(d, Ruleset(rules, lockdown)) <==> RulesTaken(d, rules)
  {
    var middle := ResolvedAll(Sort(rules, BY_PRIORITY));
    TakenTogether(d, Baseline() + middle, if lockdown then [LOCKDOWN_TAIL] else []);
    TakenTogether(d, Baseline(), middle);
    BaselineTaken(d);
    ResolvedTaken(d, Sort(rules, BY_PRIORITY));
    SortedTaken(d, rules);
  }

  /** A whole list is taken exactly when each of the user's rules is. */
  lemma RulesetAcceptedExactly(d: Dialect, rules: seq<UserRule>, lockdown: bool)
    ensures AllAccepted(SpellAll(d, Ruleset(rules, lockdown))) <==> RulesTaken(d, rules)
  {
    SpelledAccepted(d, Ruleset(rules, lockdown));
    RulesetTaken(d, rules, lockdown);
  }

  predicate CommonPart(r: ChainRule, pkt: Packet) {
    && (r.iface != "" ==> pkt.iface == r.iface)
    && (r.established ==> pkt.established)
    && (r.source.Some? ==> r.source.value.Contains(pkt.src))
  }

  predicate InPorts(r: ChainRule, pkt: Packet) {
    pkt.transport != IsOther && r.portFrom <= pkt.dport <= r.portTo
  }

  lemma AllHoldConcat(a: seq<Cond>, b: seq<Cond>, pkt: Packet)
    ensures AllHold(a + b, pkt) <==> AllHold(a, pkt) && AllHold(b, pkt)
  {
    if AllHold(a + b, pkt) {
      forall i | 0 <= i < |a| ensures Holds(a[i], pkt) { assert (a + b)[i] == a[i]; }
      forall i | 0 <= i < |b| ensures Holds(b[i], pkt) { assert (a + b)[|a| + i] == b[i]; }
    }
  }

  lemma AllHoldWhen(c: bool, x: Cond, pkt: Packet)
    ensures AllHold(When(c, x), pkt) <==> (c ==> Holds(x, pkt))
  {
    assert c ==> When(c, x)[0] == x;
  }

  /** The part in which the two spellings do not differ. */
  lemma CommonHolds(r: ChainRule, pkt: Packet)
    ensures CommonPart(r, pkt) <==>
      && AllHold(When(r.iface != "", InInterface(r.iface)), pkt)
      && AllHold(When(r.established, CtEstablished), pkt)
      && AllHold(SourceCond(r), pkt)
  {
    AllHoldWhen(r.iface != "", InInterface(r.iface), pkt);
    AllHoldWhen(r.established, CtEstablished, pkt);
    if r.source.Some? {
      AllHoldWhen(true, Source(r.source.value), pkt);
    }
  }

  lemma NftCommon(r: ChainRule, pkt: Packet)
    ensures CommonPart(r, pkt) <==>
      AllHold(When(r.iface != "", InInterface(r.iface)) + When(r.established, CtEstablished) + SourceCond(r), pkt)
  {
    var a, b, c := When(r.iface != "", InInterface(r.iface)), When(r.established, CtEstablished), SourceCond(r);
    AllHoldConcat(a + b, c, pkt);
    AllHoldConcat(a, b, pkt);
    CommonHolds(r, pkt);
  }

  lemma NftMatches(r: ChainRule, pkt: Packet)
    ensures Matches(Spell(Nft, r), pkt) <==>
      CommonPart(r, pkt) && (r.protocol != Unset && r.portFrom != 0 ==> Speaks(pkt, r.protocol) && InPorts(r, pkt))
  {
    var common := When(r.iface != "", InInterface(r.iface)) + When(r.established, CtEstablished) + SourceCond(r);
    var ported, ports := r.protocol != Unset && r.portFrom != 0, ProtocolDport(r.protocol, r.portFrom, r.portTo);
    AllHoldConcat(common, When(ported, ports), pkt);
    AllHoldWhen(ported, ports, pkt);
    NftCommon(r, pkt);
  }

  /** For the rules that iptables takes. */
  lemma IptablesMatches(r: ChainRule, pkt: Packet)
    ensures Matches(Spell(Iptables, r), pkt) <==>
      CommonPart(r, pkt) && Speaks(pkt, r.protocol) && (r.portFrom != 0 ==> InPorts(r, pkt))
  {
    var a, b := When(r.iface != "", InInterface(r.iface)), When(r.established, CtEstablished);
    var c, d := When(r.protocol != Unset, ProtocolIs(r.protocol)), SourceCond(r);
    var e := When(r.portFrom != 0, DportIs(r.portFrom, r.portTo));
    AllHoldConcat(a + b + c + d, e, pkt);
    AllHoldConcat(a + b + c, d, pkt);
    AllHoldConcat(a + b, c, pkt);
    AllHoldConcat(a, b, pkt);
    CommonHolds(r, pkt);
    AllHoldWhen(r.protocol != Unset, ProtocolIs(r.protocol), pkt);
    AllHoldWhen(r.portFrom != 0, DportIs(r.portFrom, r.portTo), pkt);
  }

  /** The guard under which the two spellings agree. */
  predicate PortsIffProtocol(r: ChainRule) {
    r.protocol == Unset <==> r.portFrom == 0
  }

  /** A rule that some packet can meet, port match aside. */
  predicate Satisfiable(r: ChainRule) {
    r.source.Some? ==> r.source.value.size > 0
  }

  /** Both backends take a rule and spell it to the same effect exactly when it has
      neither a port nor a protocol, or has both and a port range that there is. */
  lemma SpellingsAgreeExactly(r: ChainRule)
    requires Satisfiable(r)
    ensures PortsIffProtocol(r) && (r.portFrom != 0 ==> PortRange(r.portFrom, r.portTo)) <==>
      && Accepts(Spell(Nft, r)) && Accepts(Spell(Iptables, r))
      && forall pkt :: Matches(Spell(Nft, r), pkt) == Matches(Spell(Iptables, r), pkt)
  {
    AcceptsExactly(Nft, r);
    AcceptsExactly(Iptables, r);
    if PortsIffProtocol(r) {
      forall pkt ensures Matches(Spell(Nft, r), pkt) == Matches(Spell(Iptables, r), pkt) {
        RuleAgrees(r, pkt);
      }
    } else {
      DifferentVerdict(r);
    }
  }

  lemma DifferentVerdict(r: ChainRule)
    requires Satisfiable(r) && !PortsIffProtocol(r)
    ensures exists pkt :: Matches(Spell(Nft, r), pkt) != Matches(Spell(Iptables, r), pkt)
  {
    var pkt := Packet(r.iface, IsOther, if r.source.Some? then r.source.value.base else 0, 0, true);
    NftMatches(r, pkt);
    IptablesMatches(r, pkt);
    assert Matches(Spell(Nft, r), pkt) != Matches(Spell(Iptables, r), pkt);
  }

  lemma SpellTail(d: Dialect, rs: seq<ChainRule>)
    requires rs != []
    ensures SpellAll(d, rs)[1..] == SpellAll(d, rs[1..])
  {
    forall i | 0 <= i < |rs| - 1 ensures SpellAll(d, rs)[1..][i] == SpellAll(d, rs[1..])[i] {
      assert rs[1..][i] == rs[i + 1];
    }
  }

  lemma {:induction false} JudgeAgrees(rs: seq<ChainRule>, pkt: Packet)
    requires forall r :: r in rs ==> PortsIffProtocol(r)
    ensures Judge(SpellAll(Nft, rs), pkt) == Judge(SpellAll(Iptables, rs), pkt)
  {
    if rs == [] {
    } else {
      SpellTail(Nft, rs);
      SpellTail(Iptables, rs);
      RuleAgrees(rs[0], pkt);
      JudgeAgrees(rs[1..], pkt);
    }
  }

  lemma RuleAgrees(r: ChainRule, pkt: Packet)
    requires PortsIffProtocol(r)
    ensures Matches(Spell(Nft, r), pkt) <==> Matches(Spell(Iptables, r), pkt)
  {
    NftMatches(r, pkt);
    IptablesMatches(r, pkt);
  }

  /** Whatever the rules, as long as each has a protocol if and only if it has a port:
      one verdict. */
  lemma BackendsAgree(rules: seq<UserRule>, lockdown: bool, pkt: Packet)
    requires forall r :: r in rules ==> (r.protocol == Unset <==> r.portFrom == 0)
    ensures Judge(SpellAll(Nft, Ruleset(rules, lockdown)), pkt)
      == Judge(SpellAll(Iptables, Ruleset(rules, lockdown)), pkt)
  {
    SortKeeps(rules, BY_PRIORITY);
    var sorted := Sort(rules, BY_PRIORITY);
    forall r | r in Ruleset(rules, lockdown) ensures PortsIffProtocol(r) {
      if r in ResolvedAll(sorted) {
        var i :| 0 <= i < |sorted| && ResolvedAll(sorted)[i] == r;
        assert sorted[i] in multiset(sorted);
      }
    }
    JudgeAgrees(Ruleset(rules, lockdown), pkt);
  }

  // ---- the baseline ----

  /** What must never be dropped. */
  predicate Vital(pkt: Packet) {
    || pkt.established
    || pkt.iface == "lo"
    || (pkt.transport == IsTcp && pkt.dport == 22)
    || (pkt.transport == IsTcp && pkt.dport == 8443 && IsPrivate(pkt.src))
  }

  lemma PortedMatches(d: Dialect, r: ChainRule, pkt: Packet)
    requires PortsIffProtocol(r)
    ensures Matches(Spell(d, r), pkt) <==>
      CommonPart(r, pkt) && (r.portFrom != 0 ==> Speaks(pkt, r.protocol) && InPorts(r, pkt))
  {
    NftMatches(r, pkt);
    IptablesMatches(r, pkt);
  }

  /** The packets that each rule of the baseline is about. */
  predicate Kept(i: nat, pkt: Packet)
    requires i < 6
  {
    match i
    case 0 => pkt.established
    case 1 => pkt.iface == "lo"
    case 2 => pkt.transport == IsTcp && pkt.dport == 22
    case _ => pkt.transport == IsTcp && pkt.dport == LAN_PORT && RFC1918[i - 3].Contains(pkt.src)
  }

  lemma BaselineMatches(d: Dialect, i: nat, pkt: Packet)
    requires i < 6
    ensures |Baseline()| == 6 && (Matches(Spell(d, Baseline()[i]), pkt) <==> Kept(i, pkt))
  {
    var kept := if i == 0 then KEEP_ESTABLISHED else if i == 1 then KEEP_LOOPBACK
                else if i == 2 then KEEP_SSH else KeepLan(RFC1918[i - 3]);
    assert Baseline()[i] == kept;
    PortedMatches(d, kept, pkt);
  }

  lemma PrivateExactly(a: Addr)
    ensures IsPrivate(a) <==> RFC1918[0].Contains(a) || RFC1918[1].Contains(a) || RFC1918[2].Contains(a)
  {
    assert RFC1918[0].Contains(a) <==> a / 0x100_0000 == 10;
    assert RFC1918[1].Contains(a) <==> a / 0x10_0000 == 172 * 0x10 + 1;
    assert RFC1918[2].Contains(a) <==> a / 0x1_0000 == 192 * 0x100 + 168;
  }

  lemma VitalExactly(pkt: Packet)
    ensures Vital(pkt) <==> exists i :: 0 <= i < 6 && Kept(i, pkt)
  {
    var lan := pkt.transport == IsTcp && pkt.dport == 8443;
    PrivateExactly(pkt.src);
    assert Kept(0, pkt) <==> pkt.established;
    assert Kept(1, pkt) <==> pkt.iface == "lo";
    assert Kept(2, pkt) <==> pkt.transport == IsTcp && pkt.dport == 22;
    assert Kept(3, pkt) <==> lan && RFC1918[0].Contains(pkt.src);
    assert Kept(4, pkt) <==> lan && RFC1918[1].Contains(pkt.src);
    assert Kept(5, pkt) <==> lan && RFC1918[2].Contains(pkt.src);
  }

  lemma KeepsVital(d: Dialect, pkt: Packet) returns (i: nat)
    requires Vital(pkt)
    ensures i < |Baseline()| && Matches(Spell(d, Baseline()[i]), pkt)
  {
    VitalExactly(pkt);
    i :| i < 6 && Kept(i, pkt);
    BaselineMatches(d, i, pkt);
  }

  lemma {:induction false} AcceptedEarly(chain: seq<Compiled>, n: nat, pkt: Packet)
    requires n <= |chain|
    requires forall i :: 0 <= i < n ==> chain[i].target == ACCEPT
    requires n == |chain| || exists i :: 0 <= i < n && Matches(chain[i], pkt)
    ensures Judge(chain, pkt) != Decided(DROP)
    ensures (exists i :: 0 <= i < n && Matches(chain[i], pkt)) ==> Judge(chain, pkt) == Decided(ACCEPT)
  {
    if chain == [] || Matches(chain[0], pkt) {
    } else {
      if n > 0 {
        if i :| 0 <= i < n && Matches(chain[i], pkt) {
          assert chain[1..][i - 1] == chain[i];
        }
        AcceptedEarly(chain[1..], n - 1, pkt);
        forall i | 0 <= i < n && Matches(chain[i], pkt) ensures Judge(chain, pkt) == Decided(ACCEPT) {
          assert chain[1..][i - 1] == chain[i];
        }
      }
    }
  }

  lemma BaselineSpelled(d: Dialect, rules: seq<UserRule>, lockdown: bool, i: nat)
    requires i < |Baseline()|
    ensures |SpellAll(d, Ruleset(rules, lockdown))| >= |Baseline()|
    ensures SpellAll(d, Ruleset(rules, lockdown))[i] == Spell(d, Baseline()[i])
    ensures SpellAll(d, Ruleset(rules, lockdown))[i].target == ACCEPT
  {
  }

  /** A compiled list, or any beginning of one, drops nothing vital; a whole one accepts it. */
  lemma VitalSurvives(d: Dialect, rules: seq<UserRule>, lockdown: bool, chain: seq<Compiled>, pkt: Packet)
    requires chain <= SpellAll(d, Ruleset(rules, lockdown)) && Vital(pkt)
    ensures Judge(chain, pkt) != Decided(DROP)
    ensures chain == SpellAll(d, Ruleset(rules, lockdown)) ==> Judge(chain, pkt) == Decided(ACCEPT)
  {
    var full := SpellAll(d, Ruleset(rules, lockdown));
    var n := |Baseline()|;
    var k := KeepsVital(d, pkt);
    BaselineSpelled(d, rules, lockdown, k);
    forall i | 0 <= i < n && i < |chain| ensures chain[i].target == ACCEPT {
      BaselineSpelled(d, rules, lockdown, i);
    }
    if |chain| <= n {
      AcceptedEarly(chain, |chain|, pkt);
    } else {
      assert Matches(chain[k], pkt);
      AcceptedEarly(chain, n, pkt);
    }
  }

  // ---- what the user's rules come to ----

  /** Whether a rule as the user wrote it is about a packet. Nft looks at the protocol
      only together with a port. */
  predicate Meets(d: Dialect, r: UserRule, pkt: Packet) {
    && (r.iface != "" ==> pkt.iface == r.iface)
    && (r.source.Some? ==> r.source.value.base <= pkt.src < r.source.value.base + r.source.value.size)
    && (d == Iptables || r.portFrom != 0 ==>
          (r.protocol == Tcp ==> pkt.transport == IsTcp) && (r.protocol == Udp ==> pkt.transport == IsUdp))
    && (r.portFrom != 0 && (d == Iptables || r.protocol != Unset) ==>
          pkt.transport != IsOther && r.portFrom <= pkt.dport <= r.portTo)
  }

  /** The first of the user's rules that is about the packet, by priority and then by
      arrival. */
  ghost predicate Foremost(d: Dialect, rules: seq<UserRule>, pkt: Packet, i: int) {
    && 0 <= i < |rules| && Meets(d, rules[i], pkt)
    && forall j :: 0 <= j < |rules| && Meets(d, rules[j], pkt) ==>
         rules[i].priority < rules[j].priority || (rules[i].priority == rules[j].priority && i <= j)
  }

  /** What a chain is to do for the user: accept what is vital, and otherwise obey the
      foremost rule, or without one let the packet through unless locked down. */
  ghost predicate Meant(chain: seq<Compiled>, d: Dialect, rules: seq<UserRule>, lockdown: bool, pkt: Packet) {
    if Vital(pkt) then Judge(chain, pkt) == Decided(ACCEPT)
    else
      && (forall i :: Foremost(d, rules, pkt, i) ==>
            Judge(chain, pkt) == Decided(if rules[i].action == "allow" then ACCEPT else DROP))
      && ((forall i :: 0 <= i < |rules| ==> !Meets(d, rules[i], pkt)) ==>
            Judge(chain, pkt) == if lockdown then Decided(DROP) else FallsThrough)
  }

  /** Where any rule is about the packet, one is foremost. */
  lemma {:induction false} SomeForemost(d: Dialect, rules: seq<UserRule>, pkt: Packet) returns (i: int)
    requires exists j :: 0 <= j < |rules| && Meets(d, rules[j], pkt)
    ensures Foremost(d, rules, pkt, i)
  {
    var rest := rules[1..];
    if exists j :: 0 <= j < |rest| && Meets(d, rest[j], pkt) {
      var k := SomeForemost(d, rest, pkt);
      i := if Meets(d, rules[0], pkt) && rules[0].priority <= rest[k].priority then 0 else k + 1;
      forall j | 0 <= j < |rules| && Meets(d, rules[j], pkt)
        ensures rules[i].priority < rules[j].priority || (rules[i].priority == rules[j].priority && i <= j)
      {
        if j > 0 { assert rest[j - 1] == rules[j]; }
      }
    } else {
      i := 0;
      forall j | 0 < j < |rules| ensures !Meets(d, rules[j], pkt) {
        assert rest[j - 1] == rules[j];
      }
    }
  }

  lemma ResolvedMeets(d: Dialect, r: UserRule, pkt: Packet)
    ensures Matches(Spell(d, Resolved(r)), pkt) <==> Meets(d, r, pkt)
  {
    NftMatches(Resolved(r), pkt);
    IptablesMatches(Resolved(r), pkt);
  }

  /** The first rule of a list that is about the packet. */
  function FirstMet(d: Dialect, rules: seq<UserRule>, pkt: Packet): Option<UserRule> {
    if rules == [] then None
    else if Meets(d, rules[0], pkt) then Some(rules[0])
    else FirstMet(d, rules[1..], pkt)
  }

  lemma {:induction false} FirstMetIsMet(d: Dialect, rules: seq<UserRule>, pkt: Packet)
    ensures FirstMet(d, rules, pkt).Some? ==>
      FirstMet(d, rules, pkt).value in rules && Meets(d, FirstMet(d, rules, pkt).value, pkt)
    ensures FirstMet(d, rules, pkt).None? <==> forall i :: 0 <= i < |rules| ==> !Meets(d, rules[i], pkt)
  {
    if rules == [] {
    } else {
      FirstMetIsMet(d, rules[1..], pkt);
      assert forall i :: 0 < i < |rules| ==> rules[i] == rules[1..][i - 1];
      if FirstMet(d, rules, pkt).None? {
        forall i | 0 <= i < |rules| ensures !Meets(d, rules[i], pkt) {
          if i > 0 { assert !Meets(d, rules[1..][i - 1], pkt); }
        }
      }
    }
  }

  /** Inserting a rule ahead of its ties. */
  lemma {:induction false} FirstMetInserted(d: Dialect, s: seq<UserRule>, x: UserRule, pkt: Packet)
    requires SortedBy(s, BY_PRIORITY)
    ensures FirstMet(d, InsertBefore(s, x, BY_PRIORITY), pkt) ==
      var was := FirstMet(d, s, pkt);
      if Meets(d, x, pkt) && (was.None? || x.priority <= was.value.priority) then Some(x) else was
  {
    FirstMetIsMet(d, s, pkt);
    if s == [] || x.priority <= s[0].priority {
      assert ([x] + s)[1..] == s;
    } else {
      FirstMetInserted(d, s[1..], x, pkt);
      var tail := InsertBefore(s[1..], x, BY_PRIORITY);
      assert ([s[0]] + tail)[1..] == tail;
    }
  }

  /** Sorted by priority, ties in order of arrival, the first is the foremost. */
  lemma {:induction false} ForemostIsFirst(d: Dialect, rules: seq<UserRule>, pkt: Packet, i: int)
    requires Foremost(d, rules, pkt, i)
    ensures FirstMet(d, Sort(rules, BY_PRIORITY), pkt) == Some(rules[i])
  {
    var x, rest := rules[0], rules[1..];
    var sorted := Sort(rest, BY_PRIORITY);
    SortKeeps(rest, BY_PRIORITY);
    FirstMetInserted(d, sorted, x, pkt);
    if i == 0 {
      FirstMetIsMet(d, sorted, pkt);
      if FirstMet(d, sorted, pkt).Some? {
        MetInRest(rules, FirstMet(d, sorted, pkt).value);
      }
    } else {
      forall j | 0 <= j < |rest| && Meets(d, rest[j], pkt)
        ensures rest[i - 1].priority < rest[j].priority || (rest[i - 1].priority == rest[j].priority && i - 1 <= j)
      {
        assert rest[j] == rules[j + 1];
      }
      ForemostIsFirst(d, rest, pkt, i - 1);
    }
  }

  lemma MetInRest(rules: seq<UserRule>, r: UserRule)
    requires rules != [] && r in Sort(rules[1..], BY_PRIORITY)
    ensures exists j :: 0 <= j < |rules| && rules[j] == r
  {
    SortKeeps(rules[1..], BY_PRIORITY);
    assert r in multiset(Sort(rules[1..], BY_PRIORITY));
    var j :| 0 <= j < |rules| - 1 && rules[1..][j] == r;
    assert rules[j + 1] == r;
  }

  lemma NoneMetSorted(d: Dialect, rules: seq<UserRule>, pkt: Packet)
    requires forall i :: 0 <= i < |rules| ==> !Meets(d, rules[i], pkt)
    ensures FirstMet(d, Sort(rules, BY_PRIORITY), pkt) == None
  {
    FirstMetIsMet(d, Sort(rules, BY_PRIORITY), pkt);
    SortKeeps(rules, BY_PRIORITY);
    forall r | r in Sort(rules, BY_PRIORITY) ensures !Meets(d, r, pkt) {
      assert r in multiset(rules);
    }
  }

  lemma ResolvedTail(s: seq<UserRule>)
    requires s != []
    ensures ResolvedAll(s)[0] == Resolved(s[0]) && ResolvedAll(s)[1..] == ResolvedAll(s[1..])
  {
  }

  function ByAction(r: UserRule): Verdict {
    Decided(if r.action == "allow" then ACCEPT else DROP)
  }

  lemma {:induction false} JudgeUsers(d: Dialect, s: seq<UserRule>, pkt: Packet)
    ensures Judge(SpellAll(d, ResolvedAll(s)), pkt)
         == if FirstMet(d, s, pkt).Some? then ByAction(FirstMet(d, s, pkt).value) else FallsThrough
  {
    if s == [] {
    } else {
      JudgeUsers(d, s[1..], pkt);
      ResolvedMeets(d, s[0], pkt);
      ResolvedTail(s);
      SpellTail(d, ResolvedAll(s));
    }
  }

  lemma {:induction false} JudgeJoined(a: seq<Compiled>, b: seq<Compiled>, pkt: Packet)
    ensures Judge(a + b, pkt) == if Judge(a, pkt) == FallsThrough then Judge(b, pkt) else Judge(a, pkt)
  {
    if a == [] {
      assert a + b == b;
    } else {
      JudgeJoined(a[1..], b, pkt);
      assert (a + b)[1..] == a[1..] + b;
    }
  }

  lemma {:induction false} JudgeNone(a: seq<Compiled>, pkt: Packet)
    requires forall i :: 0 <= i < |a| ==> !Matches(a[i], pkt)
    ensures Judge(a, pkt) == FallsThrough
  {
    if a == [] {
    } else {
      JudgeNone(a[1..], pkt);
    }
  }

  lemma OnlyVitalKept(d: Dialect, pkt: Packet, i: nat)
    requires i < |Baseline()| && Matches(Spell(d, Baseline()[i]), pkt)
    ensures Vital(pkt)
  {
    assert |Baseline()| == 6;
    BaselineMatches(d, i, pkt);
    VitalExactly(pkt);
  }

  lemma SpellParts(d: Dialect, a: seq<ChainRule>, b: seq<ChainRule>)
    ensures SpellAll(d, a + b) == SpellAll(d, a) + SpellAll(d, b)
  {
  }

  lemma TailJudged(d: Dialect, lockdown: bool, pkt: Packet)
    ensures Judge(SpellAll(d, if lockdown then [LOCKDOWN_TAIL] else []), pkt)
         == if lockdown then Decided(DROP) else FallsThrough
  {
    NftMatches(LOCKDOWN_TAIL, pkt);
    IptablesMatches(LOCKDOWN_TAIL, pkt);
  }

  lemma BaselinePassed(d: Dialect, pkt: Packet)
    requires !Vital(pkt)
    ensures Judge(SpellAll(d, Baseline()), pkt) == FallsThrough
  {
    forall i | 0 <= i < |Baseline()| ensures !Matches(SpellAll(d, Baseline())[i], pkt) {
      if Matches(Spell(d, Baseline()[i]), pkt) {
        OnlyVitalKept(d, pkt, i);
      }
    }
    JudgeNone(SpellAll(d, Baseline()), pkt);
  }

  lemma RulesetJudged(d: Dialect, rules: seq<UserRule>, lockdown: bool, pkt: Packet)
    requires !Vital(pkt)
    ensures var first := FirstMet(d, Sort(rules, BY_PRIORITY), pkt);
      Judge(SpellAll(d, Ruleset(rules, lockdown)), pkt) ==
      if first.Some? then ByAction(first.value) else if lockdown then Decided(DROP) else FallsThrough
  {
    var users, tail := ResolvedAll(Sort(rules, BY_PRIORITY)), if lockdown then [LOCKDOWN_TAIL] else [];
    SpellParts(d, Baseline() + users, tail);
    SpellParts(d, Baseline(), users);
    JudgeJoined(SpellAll(d, Baseline()) + SpellAll(d, users), SpellAll(d, tail), pkt);
    JudgeJoined(SpellAll(d, Baseline()), SpellAll(d, users), pkt);
    BaselinePassed(d, pkt);
    JudgeUsers(d, Sort(rules, BY_PRIORITY), pkt);
    TailJudged(d, lockdown, pkt);
  }

  /** Every compiled list does what it is to do, in either spelling. */
  lemma RulesetMeans(d: Dialect, rules: seq<UserRule>, lockdown: bool, pkt: Packet)
    ensures Meant(SpellAll(d, Ruleset(rules, lockdown)), d, rules, lockdown, pkt)
  {
    if Vital(pkt) {
      VitalSurvives(d, rules, lockdown, SpellAll(d, Ruleset(rules, lockdown)), pkt);
    } else {
      RulesetJudged(d, rules, lockdown, pkt);
      forall i | Foremost(d, rules, pkt, i)
        ensures FirstMet(d, Sort(rules, BY_PRIORITY), pkt) == Some(rules[i])
      {
        ForemostIsFirst(d, rules, pkt, i);
      }
      if forall i :: 0 <= i < |rules| ==> !Meets(d, rules[i], pkt) {
        NoneMetSorted(d, rules, pkt);
      }
    }
  }

  lemma AllMean(rules: seq<UserRule>, lockdown: bool)
    ensures forall d, pkt :: Meant(SpellAll(d, Ruleset(rules, lockdown)), d, rules, lockdown, pkt)
  {
    forall d, pkt ensures Meant(SpellAll(d, Ruleset(rules, lockdown)), d, rules, lockdown, pkt) {
      RulesetMeans(d, rules, lockdown, pkt);
    }
  }

  /** buildRuleset */
  method BuildRuleset(rules: seq<UserRule>, lockdown: bool) returns (out: seq<ChainRule>)
    ensures out == Ruleset(rules, lockdown)
    ensures forall d, pkt :: Meant(SpellAll(d, out), d, rules, lockdown, pkt)
  {
    out := [KEEP_ESTABLISHED, KEEP_LOOPBACK, KEEP_SSH];
    for i := 0 to |RFC1918|
      invariant out == Baseline()[..3 + i]
    {
      out := out + [KeepLan(RFC1918[i])];
    }
    var sorted := Sort(rules, BY_PRIORITY);
    for i := 0 to |sorted|
      invariant out == Baseline() + ResolvedAll(sorted)[..i]
    {
      out := out + [Resolved(sorted[i])];
    }
    if lockdown {
      out := out + [LOCKDOWN_TAIL];
    }
    AllMean(rules, lockdown);
  }
}
