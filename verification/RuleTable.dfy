/** The kernel's `ip rule` table as policy routing reads it: an ordered list of
    (priority, selector, action), looked up first-match with fall-through, and
    the rules that internal/vpn/exit.go, tailscale and the kernel put in it. */
module RuleTable {
  import opened Ipv4

  /** 100.64.0.0/10, the mesh's address range. */
  const MESH := Prefix(0x6440_0000, 0x40_0000)

  /** By its first octets: 100, and one of 64 to 127. */
  lemma MeshExactly(a: Addr)
    ensures MESH.Contains(a) <==> a / 0x100_0000 == 100 && 64 <= a / 0x1_0000 % 0x100 <= 127
  {
    assert a / 0x1_0000 == a / 0x100_0000 * 0x100 + a / 0x1_0000 % 0x100;
  }

  const MESH_PRIORITY := 5259
  const EXCLUSION_PRIORITY := 5260
  const CONTAINER_PRIORITY := 5261
  const BYPASS_PRIORITY := 5265

  /** In the order in which they are cleared: the host bypass goes last. */
  const ROUTE_PRIORITIES: seq<nat> := [MESH_PRIORITY, EXCLUSION_PRIORITY, CONTAINER_PRIORITY, BYPASS_PRIORITY]

  datatype Table = Local | Main | Default | Mesh52

  datatype Selector = All | Marked | From(p: Prefix) | To(p: Prefix)

  datatype Action = Lookup(table: Table) | Unreachable

  datatype Rule = Rule(priority: nat, selector: Selector, action: Action)

  /** `marked` is tailscaled's own fwmark. */
  datatype Packet = Packet(src: Addr, dst: Addr, marked: bool)

  /** Which destinations each table has a route for. Table 52 holds the peers,
      and a default exactly while an exit gate is selected. */
  datatype Routes = Routes(local: Addr -> bool, main: Addr -> bool, fallback: Addr -> bool,
                           peers: Addr -> bool, gate: bool) {
    predicate Has(t: Table, a: Addr) {
      match t
      case Local => local(a)
      case Main => main(a)
      case Default => fallback(a)
      case Mesh52 => peers(a) || gate
    }

    ghost predicate PeersInMesh() {
      forall a: Addr :: peers(a) ==> MESH.Contains(a)
    }
  }

  datatype Verdict = Via(table: Table) | Rejected | NoRoute

  predicate Matches(s: Selector, pkt: Packet) {
    match s
    case All => true
    case Marked => pkt.marked
    case From(p) => p.Contains(pkt.src)
    case To(p) => p.Contains(pkt.dst)
  }

  /** Whether a rule settles a packet: it matches, and its table has a route. */
  predicate Settles(r: Rule, routes: Routes, pkt: Packet) {
    Matches(r.selector, pkt) && (r.action.Lookup? ==> routes.Has(r.action.table, pkt.dst))
  }

  function Outcome(a: Action): Verdict {
    match a
    case Lookup(t) => Via(t)
    case Unreachable => Rejected
  }

  /** The first rule that settles the packet decides. */
  function Resolve(rules: seq<Rule>, routes: Routes, pkt: Packet): Verdict {
    if rules == [] then NoRoute
    else if Settles(rules[0], routes, pkt) then Outcome(rules[0].action)
    else Resolve(rules[1..], routes, pkt)
  }

  // ---- the rules this module installs, and everybody else's ----

  const BYPASS := Rule(BYPASS_PRIORITY, All, Lookup(Main))
  const MESH_PRESERVE := Rule(MESH_PRIORITY, To(MESH), Lookup(Mesh52))

  function ExclusionRule(p: Prefix): Rule {
    Rule(EXCLUSION_PRIORITY, To(p), Lookup(Main))
  }

  function ContainerRule(p: Prefix): Rule {
    Rule(CONTAINER_PRIORITY, From(p), Lookup(Mesh52))
  }

  datatype RoutePlan = RoutePlan(containers: seq<Prefix>, exclusions: seq<Prefix>)

  function ExclusionRules(plan: RoutePlan): seq<Rule> {
    seq(|plan.exclusions|, i requires 0 <= i < |plan.exclusions| => ExclusionRule(plan.exclusions[i]))
  }

  function ContainerRules(plan: RoutePlan): seq<Rule> {
    seq(|plan.containers|, i requires 0 <= i < |plan.containers| => ContainerRule(plan.containers[i]))
  }

  /** The rules of a plan, in the order they are installed. */
  function PlanRules(plan: RoutePlan): seq<Rule> {
    [BYPASS] + ([MESH_PRESERVE] + (ExclusionRules(plan) + ContainerRules(plan)))
  }

  predicate Owned(r: Rule) {
    || r.priority == MESH_PRIORITY || r.priority == EXCLUSION_PRIORITY
    || r.priority == CONTAINER_PRIORITY || r.priority == BYPASS_PRIORITY
  }

  const LOCAL_RULE := Rule(0, All, Lookup(Local))
  const MARKED_MAIN := Rule(5210, Marked, Lookup(Main))
  const MARKED_DEFAULT := Rule(5230, Marked, Lookup(Default))
  const MARKED_STOP := Rule(5250, Marked, Unreachable)
  const CATCH_ALL := Rule(5270, All, Lookup(Mesh52))
  const MAIN_RULE := Rule(32766, All, Lookup(Main))
  const DEFAULT_RULE := Rule(32767, All, Lookup(Default))

  /** The kernel's own three rules and, when tailscale runs, its four. */
  function BaseRules(tailscale: bool): seq<Rule> {
    if tailscale then [LOCAL_RULE, MARKED_MAIN, MARKED_DEFAULT, MARKED_STOP, CATCH_ALL, MAIN_RULE, DEFAULT_RULE]
    else [LOCAL_RULE, MAIN_RULE, DEFAULT_RULE]
  }

  // ---- the table as a data structure ----

  ghost predicate Sorted(rules: seq<Rule>) {
    forall i, j :: 0 <= i < j < |rules| ==> rules[i].priority <= rules[j].priority
  }

  /** `ip rule add`: after every rule of the same or a lower priority number. */
  function Insert(rules: seq<Rule>, r: Rule): seq<Rule> {
    if rules == [] || r.priority < rules[0].priority then [r] + rules
    else [rules[0]] + Insert(rules[1..], r)
  }

  function InsertAll(rules: seq<Rule>, rs: seq<Rule>): seq<Rule>
    decreases rs
  {
    if rs == [] then rules else InsertAll(Insert(rules, rs[0]), rs[1..])
  }

  /** The table once its first `d` rules at `p` are gone, or all of them when there are fewer. */
  function Drop(rules: seq<Rule>, p: nat, d: nat): seq<Rule> {
    if d == 0 || rules == [] then rules
    else if rules[0].priority == p then Drop(rules[1..], p, d - 1)
    else [rules[0]] + Drop(rules[1..], p, d)
  }

  /** `ip rule del priority p`: the first rule at that priority. */
  function DeleteFirst(rules: seq<Rule>, p: nat): seq<Rule> {
    Drop(rules, p, 1)
  }

  function AtPriority(rules: seq<Rule>, p: nat): seq<Rule> {
    if rules == [] then []
    else if rules[0].priority == p then [rules[0]] + AtPriority(rules[1..], p)
    else AtPriority(rules[1..], p)
  }

  /** The rules that are not at one of these priorities, in order. */
  function Without(rules: seq<Rule>, ps: seq<nat>): seq<Rule> {
    if rules == [] then []
    else if rules[0].priority in ps then Without(rules[1..], ps)
    else [rules[0]] + Without(rules[1..], ps)
  }

  /** Everybody else's rules, in order. */
  function Foreign(rules: seq<Rule>): seq<Rule> {
    Without(rules, ROUTE_PRIORITIES)
  }

  lemma {:induction false} InsertMembers(rules: seq<Rule>, r: Rule)
    ensures forall x :: x in Insert(rules, r) <==> x in rules || x == r
  {
    if rules == [] || r.priority < rules[0].priority {
    } else {
      InsertMembers(rules[1..], r);
      assert rules == [rules[0]] + rules[1..];
    }
  }

  lemma {:induction false} InsertSorted(rules: seq<Rule>, r: Rule)
    requires Sorted(rules)
    ensures Sorted(Insert(rules, r))
  {
    if rules == [] || r.priority < rules[0].priority {
    } else {
      InsertSorted(rules[1..], r);
      InsertMembers(rules[1..], r);
      var tail := Insert(rules[1..], r);
      forall i | 0 <= i < |tail| ensures rules[0].priority <= tail[i].priority {
        assert tail[i] in tail;
      }
    }
  }

  /** An insertion is appended to its own priority and seen by no other. */
  lemma {:induction false} InsertAtPriority(rules: seq<Rule>, r: Rule, p: nat)
    requires Sorted(rules)
    ensures AtPriority(Insert(rules, r), p) == AtPriority(rules, p) + (if r.priority == p then [r] else [])
  {
    if rules == [] {
    } else if r.priority < rules[0].priority {
      if r.priority == p { NoneAtPriority(rules, p); }
      assert ([r] + rules)[1..] == rules;
    } else {
      InsertAtPriority(rules[1..], r, p);
      assert ([rules[0]] + Insert(rules[1..], r))[1..] == Insert(rules[1..], r);
    }
  }

  lemma {:induction false} InsertWithout(rules: seq<Rule>, r: Rule, ps: seq<nat>)
    requires r.priority in ps
    ensures Without(Insert(rules, r), ps) == Without(rules, ps)
  {
    if rules == [] || r.priority < rules[0].priority {
      assert ([r] + rules)[1..] == rules;
    } else {
      InsertWithout(rules[1..], r, ps);
      assert ([rules[0]] + Insert(rules[1..], r))[1..] == Insert(rules[1..], r);
    }
  }

  lemma {:induction false} NoneAtPriority(rules: seq<Rule>, p: nat)
    ensures AtPriority(rules, p) == [] <==> forall r :: r in rules ==> r.priority != p
  {
    if rules == [] {
    } else {
      NoneAtPriority(rules[1..], p);
      assert rules == [rules[0]] + rules[1..];
    }
  }

  lemma {:induction false} AtPriorityMembers(rules: seq<Rule>, p: nat)
    ensures forall r :: r in AtPriority(rules, p) <==> r in rules && r.priority == p
  {
    if rules == [] {
    } else {
      AtPriorityMembers(rules[1..], p);
      assert rules == [rules[0]] + rules[1..];
    }
  }

  lemma {:induction false} WithoutMembers(rules: seq<Rule>, ps: seq<nat>)
    ensures forall r :: r in Without(rules, ps) <==> r in rules && r.priority !in ps
  {
    if rules == [] {
    } else {
      WithoutMembers(rules[1..], ps);
      assert rules == [rules[0]] + rules[1..];
    }
  }

  lemma ForeignMembers(rules: seq<Rule>)
    ensures forall r :: r in Foreign(rules) <==> r in rules && !Owned(r)
  {
    WithoutMembers(rules, ROUTE_PRIORITIES);
    forall r | r in rules ensures Owned(r) <==> r.priority in ROUTE_PRIORITIES {
      OwnedListed(r);
    }
  }

  lemma OwnedListed(r: Rule)
    ensures Owned(r) <==> r.priority in ROUTE_PRIORITIES
  {
  }

  lemma {:induction false} ForeignAlready(rules: seq<Rule>)
    requires forall r :: r in rules ==> !Owned(r)
    ensures Foreign(rules) == rules
  {
    if rules == [] {
    } else {
      OwnedListed(rules[0]);
      ForeignAlready(rules[1..]);
    }
  }

  lemma {:induction false} WithoutNothing(rules: seq<Rule>, ps: seq<nat>)
    requires forall r :: r in rules ==> r.priority !in ps
    ensures Without(rules, ps) == rules
  {
    if rules == [] {
    } else {
      WithoutNothing(rules[1..], ps);
    }
  }

  lemma {:induction false} WithoutTwice(rules: seq<Rule>, ps: seq<nat>, qs: seq<nat>)
    ensures Without(Without(rules, ps), qs) == Without(rules, ps + qs)
  {
    if rules == [] {
    } else {
      WithoutTwice(rules[1..], ps, qs);
      if rules[0].priority !in ps {
        assert ([rules[0]] + Without(rules[1..], ps))[1..] == Without(rules[1..], ps);
      }
    }
  }

  lemma {:induction false} WithoutMore(rules: seq<Rule>, ps: seq<nat>, qs: seq<nat>)
    requires forall p :: p in ps ==> p in qs
    ensures Without(rules, ps + qs) == Without(rules, qs)
  {
    if rules == [] {
    } else {
      WithoutMore(rules[1..], ps, qs);
    }
  }

  lemma {:induction false} WithoutSorted(rules: seq<Rule>, ps: seq<nat>)
    requires Sorted(rules)
    ensures Sorted(Without(rules, ps))
  {
    if rules == [] {
    } else {
      WithoutSorted(rules[1..], ps);
      WithoutMembers(rules[1..], ps);
      var tail := Without(rules[1..], ps);
      forall i | 0 <= i < |tail| ensures rules[0].priority <= tail[i].priority {
        assert tail[i] in tail;
      }
    }
  }

  lemma {:induction false} WithoutAtPriority(rules: seq<Rule>, ps: seq<nat>, p: nat)
    ensures AtPriority(Without(rules, ps), p) == if p in ps then [] else AtPriority(rules, p)
  {
    if rules == [] {
    } else {
      WithoutAtPriority(rules[1..], ps, p);
      if rules[0].priority !in ps {
        assert ([rules[0]] + Without(rules[1..], ps))[1..] == Without(rules[1..], ps);
      }
    }
  }

  /** Deletions drop the first rules of one priority and touch nothing else. */
  lemma {:induction false} DropParts(rules: seq<Rule>, p: nat, d: nat, ps: seq<nat>)
    ensures forall q :: q != p ==> AtPriority(Drop(rules, p, d), q) == AtPriority(rules, q)
    ensures AtPriority(Drop(rules, p, d), p) == if d <= |AtPriority(rules, p)| then AtPriority(rules, p)[d..] else []
    ensures p in ps ==> Without(Drop(rules, p, d), ps) == Without(rules, ps)
    ensures forall r :: r in Drop(rules, p, d) ==> r in rules
  {
    if d == 0 || rules == [] {
    } else {
      if rules[0].priority == p {
        DropParts(rules[1..], p, d - 1, ps);
      } else {
        DropParts(rules[1..], p, d, ps);
        var tail := Drop(rules[1..], p, d);
        assert ([rules[0]] + tail)[1..] == tail;
      }
    }
  }

  lemma {:induction false} DropSorted(rules: seq<Rule>, p: nat, d: nat)
    requires Sorted(rules)
    ensures Sorted(Drop(rules, p, d))
  {
    if d == 0 || rules == [] {
    } else {
      if rules[0].priority == p {
        DropSorted(rules[1..], p, d - 1);
      } else {
        DropSorted(rules[1..], p, d);
        DropParts(rules[1..], p, d, []);
        var tail := Drop(rules[1..], p, d);
        forall i | 0 <= i < |tail| ensures rules[0].priority <= tail[i].priority {
          assert tail[i] in tail;
        }
      }
    }
  }

  lemma {:induction false} DropOneMore(rules: seq<Rule>, p: nat, d: nat)
    ensures DeleteFirst(Drop(rules, p, d), p) == Drop(rules, p, d + 1)
  {
    if d == 0 || rules == [] {
    } else {
      if rules[0].priority == p {
        DropOneMore(rules[1..], p, d - 1);
      } else {
        DropOneMore(rules[1..], p, d);
        var tail := Drop(rules[1..], p, d);
        assert ([rules[0]] + tail)[1..] == tail;
      }
    }
  }

  lemma {:induction false} DropAll(rules: seq<Rule>, p: nat, d: nat)
    requires d >= |AtPriority(rules, p)|
    ensures Drop(rules, p, d) == Without(rules, [p])
  {
    if rules == [] {
    } else {
      if rules[0].priority == p {
        DropAll(rules[1..], p, d - 1);
      } else {
        DropAll(rules[1..], p, d);
      }
      if d == 0 {
        NoneAtPriority(rules, p);
        WithoutNothing(rules, [p]);
      }
    }
  }

  lemma AtPriorityTail(rules: seq<Rule>, p: nat)
    requires rules != []
    ensures AtPriority(rules[1..], p)
         == if rules[0].priority == p then AtPriority(rules, p)[1..] else AtPriority(rules, p)
  {
  }

  /** A sorted table is determined by what stands at each priority. */
  lemma {:induction false} TableDetermined(a: seq<Rule>, b: seq<Rule>)
    requires Sorted(a) && Sorted(b)
    requires forall p :: AtPriority(a, p) == AtPriority(b, p)
    ensures a == b
  {
    if a == [] {
      if b != [] {
        NoneAtPriority(b, b[0].priority);
        assert false;
      }
    } else {
      var p := a[0].priority;
      NoneAtPriority(b, p);
      var q := b[0].priority;
      NoneAtPriority(a, q);
      assert AtPriority(a, p)[0] == a[0];
      assert AtPriority(b, q)[0] == b[0];
      assert p == q;
      forall r: nat ensures AtPriority(a[1..], r) == AtPriority(b[1..], r) {
        assert AtPriority(a, r) == AtPriority(b, r);
        AtPriorityTail(a, r);
        AtPriorityTail(b, r);
      }
      TableDetermined(a[1..], b[1..]);
    }
  }
}
