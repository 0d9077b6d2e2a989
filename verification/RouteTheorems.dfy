/** What the rule table does to packets, in every state that ApplyRoutes can
    leave and for every packet. */
module RouteTheorems {
  import opened Ipv4
  import opened RuleTable
  import opened RouteEngine
  import opened RouteInstall
  import opened Wrappers

  // ---- the host is held still ----

  /** Nobody else diverts unmarked packets ahead of the bypass. */
  ghost predicate Benign(foreign: seq<Rule>) {
    forall r :: r in foreign && r.priority <= BYPASS_PRIORITY ==> r.selector == Marked || r.action == Lookup(Local)
  }

  /** What diverts marked packets ahead of the bypass comes behind a rule that sends
      them to the main table. */
  ghost predicate MarkedToMain(foreign: seq<Rule>) {
    forall r :: r in foreign && r.priority <= BYPASS_PRIORITY
                && r.action != Lookup(Local) && r.action != Lookup(Main) ==>
      exists m :: m in foreign && m.priority < r.priority && m.selector == Marked && m.action == Lookup(Main)
  }

  predicate FromContainer(plan: RoutePlan, a: Addr) {
    exists p :: p in plan.containers && p.Contains(a)
  }

  predicate Excluded(plan: RoutePlan, a: Addr) {
    exists p :: p in plan.exclusions && p.Contains(a)
  }

  /** A rule that can only keep the packet on the host's own tables. */
  predicate Harmless(r: Rule, pkt: Packet) {
    !Matches(r.selector, pkt) || r.action == Lookup(Local) || r.action == Lookup(Main)
  }

  /** A rule that keeps the packet at home, or comes behind one that does. */
  ghost predicate Shielded(rules: seq<Rule>, r: Rule, routes: Routes, pkt: Packet) {
    || Harmless(r, pkt)
    || exists m :: m in rules && m.priority < r.priority && Settles(m, routes, pkt)
  }

  lemma {:induction false} ReachesBypass(rules: seq<Rule>, routes: Routes, pkt: Packet)
    requires Sorted(rules) && BYPASS in rules && routes.main(pkt.dst)
    requires forall r :: r in rules && r.priority <= BYPASS_PRIORITY ==> Shielded(rules, r, routes, pkt)
    ensures Resolve(rules, routes, pkt) in {Via(Local), Via(Main)}
    ensures !routes.local(pkt.dst) ==> Resolve(rules, routes, pkt) == Via(Main)
  {
    assert rules[0].priority <= BYPASS_PRIORITY;
    if Settles(rules[0], routes, pkt) {
      assert Shielded(rules, rules[0], routes, pkt);
    } else {
      assert rules[0] != BYPASS;
      forall r | r in rules[1..] && r.priority <= BYPASS_PRIORITY ensures Shielded(rules[1..], r, routes, pkt) {
        assert Shielded(rules, r, routes, pkt);
      }
      ReachesBypass(rules[1..], routes, pkt);
    }
  }

  /** While the bypass is in the table, host traffic that leaves the mesh alone
      stays on the host's own tables, whether or not table 52 has a default. */
  lemma HostHeld(s: seq<Rule>, foreign: seq<Rule>, plan: RoutePlan, routes: Routes, pkt: Packet)
    requires Foreign(s) == foreign && Benign(foreign) && (pkt.marked ==> MarkedToMain(foreign))
    requires HostSafe(s, PlanRules(plan)) && BYPASS in s
    requires !FromContainer(plan, pkt.src) && !MESH.Contains(pkt.dst)
    requires routes.main(pkt.dst)
    ensures Resolve(s, routes, pkt) in {Via(Local), Via(Main)}
    ensures !routes.local(pkt.dst) ==> Resolve(s, routes, pkt) == Via(Main)
  {
    ForeignMembers(s);
    assert Owned(BYPASS);
    forall r | r in s && r.priority <= BYPASS_PRIORITY ensures Shielded(s, r, routes, pkt) {
      if Owned(r) {
        assert r in PlanRules(plan);
        assert Harmless(r, pkt);
      } else {
        ForeignShielded(s, foreign, r, routes, pkt);
      }
    }
    ReachesBypass(s, routes, pkt);
  }

  lemma ForeignShielded(s: seq<Rule>, foreign: seq<Rule>, r: Rule, routes: Routes, pkt: Packet)
    requires Benign(foreign) && (pkt.marked ==> MarkedToMain(foreign)) && routes.main(pkt.dst)
    requires r in foreign && r.priority <= BYPASS_PRIORITY && forall x :: x in foreign ==> x in s
    ensures Shielded(s, r, routes, pkt)
  {
    if !Harmless(r, pkt) {
      var m :| m in foreign && m.priority < r.priority && m.selector == Marked && m.action == Lookup(Main);
      assert m in s && Settles(m, routes, pkt);
    }
  }

  /** The packet stays on the host's own tables. */
  predicate Held(s: seq<Rule>, routes: Routes, pkt: Packet) {
    Resolve(s, routes, pkt) == Via(Main) || (routes.local(pkt.dst) && Resolve(s, routes, pkt) == Via(Local))
  }

  lemma StageHasBypass(foreign: seq<Rule>, rs: seq<Rule>, m: nat)
    requires Ready(foreign, rs) && 0 < m <= |rs|
    ensures BYPASS in Stage(foreign, rs, m)
  {
    StageIsSafe(foreign, rs, m);
    AtPriorityMembers(Stage(foreign, rs, m), BYPASS_PRIORITY);
    assert BYPASS in AtPriority(Stage(foreign, rs, m), BYPASS_PRIORITY);
  }

  /** Before the rule that failed, every state has the bypass. */
  lemma ClimbHasBypass(foreign: seq<Rule>, rs: seq<Rule>, ok: bool, at: nat, steps: States, j: nat)
    requires Ready(foreign, rs) && IsInstallation(foreign, rs, ok, at, steps)
    requires j < |steps| && (ok || j < at)
    ensures BYPASS in steps[j]
  {
    var m := if ok then |rs| else at;
    ClimbLength(foreign, rs, m);
    assert steps[j] == Climb(foreign, rs, m)[j];
    StageHasBypass(foreign, rs, j + 1);
  }

  /** From the rule that failed on, what is gone stays gone. */
  lemma FallFades(foreign: seq<Rule>, rs: seq<Rule>, m: nat, fall: States, r: Rule, j: nat, l: nat)
    requires FellBack(foreign, rs, m, fall) && j <= l < |fall| && r !in fall[j]
    ensures r !in fall[l]
  {
    var reached: nat, back: States :| m <= reached <= m + 1 && reached <= |rs| &&
      fall == [Stage(foreign, rs, reached)] + back && Unwinding(Stage(foreign, rs, reached), back);
    assert Fading(fall[0], fall);
    GoneSince(fall[0], fall, r, j, l);
  }

  lemma BypassGoesForGood(foreign: seq<Rule>, rs: seq<Rule>, ok: bool, at: nat, steps: States, j: nat, l: nat)
    requires Ready(foreign, rs) && IsInstallation(foreign, rs, ok, at, steps)
    requires j <= l < |steps| && BYPASS !in steps[j]
    ensures !ok && at <= j && steps[l] == foreign
  {
    if ok || j < at {
      ClimbHasBypass(foreign, rs, ok, at, steps, j);
    } else {
      assert steps[at..][j - at] == steps[j] && steps[at..][l - at] == steps[l];
      FallFades(foreign, rs, at, steps[at..], BYPASS, j - at, l - at);
      RunIsSafe(foreign, rs, at, steps);
      assert steps[l] in steps;
      ForeignAlready(steps[l]);
    }
  }

  /** The host is held without a gap. Over the states of an installation, from the first
      add to the last command of a rollback, and with whatever routes table 52 has at
      that moment: a state that has the bypass holds the packet; one that has it not
      comes only in a rollback, after which it and every later state are other people's
      rules alone. So from the first state with the bypass on, the host is held until
      the rollback deletes the bypass, which never comes back. */
  lemma HostHeldThroughout(foreign: seq<Rule>, plan: RoutePlan, ok: bool, at: nat, steps: States, j: nat,
                           routes: Routes, pkt: Packet)
    requires Sorted(foreign) && Unloaded(foreign) && Benign(foreign) && (pkt.marked ==> MarkedToMain(foreign))
    requires IsInstallation(foreign, PlanRules(plan), ok, at, steps) && j < |steps|
    requires !FromContainer(plan, pkt.src) && !MESH.Contains(pkt.dst) && routes.main(pkt.dst)
    ensures (BYPASS in steps[j] && Held(steps[j], routes, pkt)) ||
      (forall l :: j <= l < |steps| ==> steps[l] == foreign)
    ensures ok || j < at ==> BYPASS in steps[j] && Held(steps[j], routes, pkt)
  {
    var rs := PlanRules(plan);
    ForeignAlready(foreign);
    PlanIsReady(foreign, plan);
    if BYPASS in steps[j] {
      RunIsSafe(foreign, rs, at, steps);
      assert steps[j] in steps;
      HostHeld(steps[j], foreign, plan, routes, pkt);
    } else {
      forall l | j <= l < |steps| ensures steps[l] == foreign {
        BypassGoesForGood(foreign, rs, ok, at, steps, j, l);
      }
      BypassGoesForGood(foreign, rs, ok, at, steps, j, j);
    }
  }

  /** The bypass, once in, is there until a rollback takes it out: there is no state
      without it between two with it. */
  lemma BypassWithoutGaps(foreign: seq<Rule>, plan: RoutePlan, ok: bool, at: nat, steps: States, j: nat, l: nat)
    requires Sorted(foreign) && Unloaded(foreign)
    requires IsInstallation(foreign, PlanRules(plan), ok, at, steps) && j <= l < |steps|
    requires BYPASS in steps[l]
    ensures BYPASS in steps[j]
    ensures at > 0 || ok ==> BYPASS in steps[0]
  {
    ForeignAlready(foreign);
    PlanIsReady(foreign, plan);
    if BYPASS !in steps[j] {
      BypassGoesForGood(foreign, PlanRules(plan), ok, at, steps, j, l);
    }
    if at > 0 || ok {
      ClimbHasBypass(foreign, PlanRules(plan), ok, at, steps, 0);
    }
  }

  // ---- which rule decides ----

  /** A rule that settles the packet decides when every rule at or ahead of its
      priority that also settles it has the same outcome. */
  lemma {:induction false} Decides(rules: seq<Rule>, routes: Routes, pkt: Packet, r: Rule)
    requires Sorted(rules) && r in rules && Settles(r, routes, pkt)
    requires forall x :: x in rules && x.priority <= r.priority && Settles(x, routes, pkt) ==>
      Outcome(x.action) == Outcome(r.action)
    ensures Resolve(rules, routes, pkt) == Outcome(r.action)
  {
    assert rules[0].priority <= r.priority;
    if !Settles(rules[0], routes, pkt) {
      Decides(rules[1..], routes, pkt, r);
    }
  }

  lemma {:induction false} NothingDecides(rules: seq<Rule>, routes: Routes, pkt: Packet)
    requires forall x :: x in rules ==> !Settles(x, routes, pkt)
    ensures Resolve(rules, routes, pkt) == NoRoute
  {
    if rules == [] {
    } else {
      NothingDecides(rules[1..], routes, pkt);
    }
  }

  predicate OfBase(r: Rule, tailscale: bool) {
    || r == LOCAL_RULE || r == MAIN_RULE || r == DEFAULT_RULE
    || (tailscale && (r == MARKED_MAIN || r == MARKED_DEFAULT || r == MARKED_STOP || r == CATCH_ALL))
  }

  predicate OfPlan(r: Rule, plan: RoutePlan) {
    || r == BYPASS || r == MESH_PRESERVE
    || (r.selector.To? && r.selector.p in plan.exclusions && r == ExclusionRule(r.selector.p))
    || (r.selector.From? && r.selector.p in plan.containers && r == ContainerRule(r.selector.p))
  }

  lemma BaseMembers(tailscale: bool)
    ensures forall r :: r in BaseRules(tailscale) <==> OfBase(r, tailscale)
  {
  }

  lemma BaseIsForeign(tailscale: bool)
    ensures Sorted(BaseRules(tailscale)) && Unloaded(BaseRules(tailscale))
    ensures Foreign(BaseRules(tailscale)) == BaseRules(tailscale)
    ensures Benign(BaseRules(tailscale))
  {
    ForeignAlready(BaseRules(tailscale));
  }

  lemma BaseMarkedToMain(tailscale: bool)
    ensures MarkedToMain(BaseRules(tailscale))
  {
    BaseMembers(tailscale);
    var base := BaseRules(tailscale);
    forall r | r in base && r.priority <= BYPASS_PRIORITY && r.action != Lookup(Local) && r.action != Lookup(Main)
      ensures exists m :: m in base && m.priority < r.priority && m.selector == Marked && m.action == Lookup(Main)
    {
      assert OfBase(MARKED_MAIN, tailscale) && MARKED_MAIN.priority < r.priority;
    }
  }

  lemma PlanMembers(plan: RoutePlan)
    ensures forall r :: r in PlanRules(plan) ==> OfPlan(r, plan)
    ensures forall p :: p in plan.exclusions ==> ExclusionRule(p) in PlanRules(plan)
    ensures forall p :: p in plan.containers ==> ContainerRule(p) in PlanRules(plan)
  {
    forall p | p in plan.exclusions ensures ExclusionRule(p) in PlanRules(plan) {
      var i :| 0 <= i < |plan.exclusions| && plan.exclusions[i] == p;
      assert ExclusionRules(plan)[i] in ExclusionRules(plan);
    }
    forall p | p in plan.containers ensures ContainerRule(p) in PlanRules(plan) {
      var i :| 0 <= i < |plan.containers| && plan.containers[i] == p;
      assert ContainerRules(plan)[i] in ContainerRules(plan);
    }
  }

  /** A safe state over the base table, rule by rule. */
  lemma SafeMembers(s: seq<Rule>, tailscale: bool, plan: RoutePlan)
    requires Foreign(s) == BaseRules(tailscale) && HostSafe(s, PlanRules(plan)) && BYPASS in s
    ensures Sorted(s)
    ensures forall r :: r in s ==> OfBase(r, tailscale) || OfPlan(r, plan)
    ensures forall r :: OfBase(r, tailscale) ==> r in s
  {
    BaseMembers(tailscale);
    PlanMembers(plan);
    ForeignMembers(s);
    assert Owned(BYPASS);
  }

  /** In a safe state a rule that is there decides, if every rule of the base table or
      the plan, at or ahead of it, that settles the packet agrees with it. */
  lemma DecidesSafe(s: seq<Rule>, plan: RoutePlan, routes: Routes, pkt: Packet, r: Rule)
    requires Foreign(s) == BaseRules(true) && HostSafe(s, PlanRules(plan)) && BYPASS in s
    requires (OfBase(r, true) || r in s) && Settles(r, routes, pkt)
    requires forall x :: OfBase(x, true) && x.priority <= r.priority && Settles(x, routes, pkt) ==>
      Outcome(x.action) == Outcome(r.action)
    requires forall x :: x in s && OfPlan(x, plan) && x.priority <= r.priority && Settles(x, routes, pkt) ==>
      Outcome(x.action) == Outcome(r.action)
    ensures Resolve(s, routes, pkt) == Outcome(r.action)
  {
    SafeMembers(s, true, plan);
    Decides(s, routes, pkt, r);
  }

  lemma NothingDecidesSafe(s: seq<Rule>, plan: RoutePlan, routes: Routes, pkt: Packet)
    requires Foreign(s) == BaseRules(true) && HostSafe(s, PlanRules(plan)) && BYPASS in s
    requires forall x :: OfBase(x, true) || OfPlan(x, plan) ==> !Settles(x, routes, pkt)
    ensures Resolve(s, routes, pkt) == NoRoute
  {
    SafeMembers(s, true, plan);
    NothingDecides(s, routes, pkt);
  }

  /** No container rule in the table takes the packet. */
  ghost predicate FromNoContainer(s: seq<Rule>, pkt: Packet) {
    forall r :: r in s && r.priority == CONTAINER_PRIORITY ==> !Matches(r.selector, pkt)
  }

  /** An exclusion in the table takes the packet. */
  ghost predicate ExcludedIn(s: seq<Rule>, pkt: Packet) {
    exists r :: r in s && r.priority == EXCLUSION_PRIORITY && Matches(r.selector, pkt)
  }

  /** Any of this module's rules, over the base table: which rule decides. */
  lemma DecidesAmongOurs(s: seq<Rule>, routes: Routes, pkt: Packet, r: Rule)
    requires Sorted(s) && Foreign(s) == BaseRules(true) && r in s && Settles(r, routes, pkt)
    requires forall x :: x in s && Owned(x) ==> OwnShape(x)
    requires forall x :: OfBase(x, true) && x.priority <= r.priority && Settles(x, routes, pkt) ==>
      Outcome(x.action) == Outcome(r.action)
    requires forall x :: x in s && OwnShape(x) && x.priority <= r.priority && Settles(x, routes, pkt) ==>
      Outcome(x.action) == Outcome(r.action)
    ensures Resolve(s, routes, pkt) == Outcome(r.action)
  {
    LeftoverMembers(s, true);
    Decides(s, routes, pkt, r);
  }

  lemma MarkedNeverLeaks(s: seq<Rule>, routes: Routes, pkt: Packet)
    requires Sorted(s) && Foreign(s) == BaseRules(true) && forall x :: x in s && Owned(x) ==> OwnShape(x)
    requires pkt.marked
    ensures Resolve(s, routes, pkt) != Via(Mesh52)
  {
    LeftoverMembers(s, true);
    var r := if routes.local(pkt.dst) then LOCAL_RULE
             else if routes.main(pkt.dst) then MARKED_MAIN
             else if routes.fallback(pkt.dst) then MARKED_DEFAULT
             else MARKED_STOP;
    DecidesAmongOurs(s, routes, pkt, r);
  }

  lemma HeldByOurs(s: seq<Rule>, routes: Routes, pkt: Packet)
    requires Sorted(s) && Foreign(s) == BaseRules(true) && forall x :: x in s && Owned(x) ==> OwnShape(x)
    requires FromNoContainer(s, pkt) && !MESH.Contains(pkt.dst) && !pkt.marked
    requires routes.main(pkt.dst) && !routes.local(pkt.dst) && (BYPASS in s || ExcludedIn(s, pkt))
    ensures Resolve(s, routes, pkt) == Via(Main)
  {
    if BYPASS in s {
      DecidesAmongOurs(s, routes, pkt, BYPASS);
    } else {
      var r :| r in s && r.priority == EXCLUSION_PRIORITY && Matches(r.selector, pkt);
      DecidesAmongOurs(s, routes, pkt, r);
    }
  }

  lemma LeftToTheBase(s: seq<Rule>, routes: Routes, pkt: Packet)
    requires Sorted(s) && Foreign(s) == BaseRules(true) && forall x :: x in s && Owned(x) ==> OwnShape(x)
    requires FromNoContainer(s, pkt) && !MESH.Contains(pkt.dst) && !pkt.marked && routes.PeersInMesh()
    requires !routes.local(pkt.dst) && (routes.main(pkt.dst) ==> BYPASS !in s && !ExcludedIn(s, pkt))
    ensures Resolve(s, routes, pkt) == Via(Mesh52) <==> routes.gate
  {
    if routes.gate {
      LeftoverMembers(s, true);
      DecidesAmongOurs(s, routes, pkt, CATCH_ALL);
    } else {
      LeftoverVerdict(s, true, routes, pkt);
    }
  }

  /** When a host packet goes into the tunnel, whatever rules of this module are in the
      table: a gate is selected, and neither the local table carries it, nor main under
      the bypass or an exclusion. */
  lemma HostLeaksExactly(s: seq<Rule>, routes: Routes, pkt: Packet)
    requires Sorted(s) && Foreign(s) == BaseRules(true) && forall x :: x in s && Owned(x) ==> OwnShape(x)
    requires FromNoContainer(s, pkt) && !MESH.Contains(pkt.dst) && routes.PeersInMesh()
    ensures Resolve(s, routes, pkt) == Via(Mesh52) <==>
      && routes.gate && !pkt.marked && !routes.local(pkt.dst)
      && !(routes.main(pkt.dst) && (BYPASS in s || ExcludedIn(s, pkt)))
  {
    LeftoverMembers(s, true);
    if pkt.marked {
      MarkedNeverLeaks(s, routes, pkt);
    } else if routes.local(pkt.dst) {
      DecidesAmongOurs(s, routes, pkt, LOCAL_RULE);
    } else if routes.main(pkt.dst) && (BYPASS in s || ExcludedIn(s, pkt)) {
      HeldByOurs(s, routes, pkt);
    } else {
      LeftToTheBase(s, routes, pkt);
    }
  }

  /** What the opening clear leaves of an earlier plan at any moment. */
  lemma OpeningStates(earlier: RoutePlan, s: seq<Rule>)
    requires Unwound(Installed(BaseRules(true), earlier), s)
    ensures Sorted(s) && Foreign(s) == BaseRules(true) && forall x :: x in s && Owned(x) ==> OfPlan(x, earlier)
    ensures BYPASS in s || Bare(s)
  {
    var before := Installed(BaseRules(true), earlier);
    BaseIsForeign(true);
    InstalledHolds(BaseRules(true), earlier);
    UnwoundParts(before, s);
    OwnedIsPlanned(earlier, s);
    AtPriorityMembers(s, BYPASS_PRIORITY);
    assert AtPriority(before, BYPASS_PRIORITY) == [BYPASS];
    assert BYPASS in [BYPASS];
  }

  lemma OwnedIsPlanned(earlier: RoutePlan, s: seq<Rule>)
    requires forall r :: r in s ==> r in Installed(BaseRules(true), earlier)
    ensures forall x :: x in s && Owned(x) ==> OfPlan(x, earlier)
  {
    InstalledShapes(earlier);
    forall x | x in s && Owned(x) ensures OfPlan(x, earlier) {
      assert x in Installed(BaseRules(true), earlier);
    }
  }

  /** The window of a re-application: while the opening clear takes an earlier plan out,
      a host packet goes into the tunnel if and only if a gate is selected, the local
      table does not carry it, and the bypass is gone or main has no route. */
  lemma OpeningWindowExactly(earlier: RoutePlan, s: seq<Rule>, routes: Routes, pkt: Packet)
    requires Unwound(Installed(BaseRules(true), earlier), s)
    requires !FromContainer(earlier, pkt.src) && !MESH.Contains(pkt.dst) && !pkt.marked && routes.PeersInMesh()
    ensures Resolve(s, routes, pkt) == Via(Mesh52) <==>
      routes.gate && !routes.local(pkt.dst) && (BYPASS !in s || !routes.main(pkt.dst))
  {
    OpeningStates(earlier, s);
    HostLeaksExactly(s, routes, pkt);
  }

  /** Such a window: an earlier plan with a gate selected, taken out to the last rule,
      and a host packet that main could carry. */
  lemma ReapplicationLeaks(earlier: RoutePlan) returns (s: seq<Rule>, routes: Routes, pkt: Packet)
    ensures Unwound(Installed(BaseRules(true), earlier), s)
    ensures pkt == Packet(0xC0A8_0102, 0x0101_0101, false) && !MESH.Contains(pkt.dst)
    ensures routes.gate && routes.main(pkt.dst) && !routes.local(pkt.dst)
    ensures Resolve(s, routes, pkt) == Via(Mesh52)
  {
    s, pkt := BaseRules(true), Packet(0xC0A8_0102, 0x0101_0101, false);
    routes := Routes(_ => false, _ => true, _ => false, _ => false, true);
    BaseIsForeign(true);
    ClearedIsUnwound(BaseRules(true), earlier);
    BaseMembers(true);
    Decides(s, routes, pkt, CATCH_ALL);
  }

  lemma ClearedIsUnwound(foreign: seq<Rule>, plan: RoutePlan)
    requires Sorted(foreign) && Unloaded(foreign)
    ensures Unwound(Installed(foreign, plan), foreign)
  {
    var before := Installed(foreign, plan);
    InstalledHolds(foreign, plan);
    UptoEnds(before);
    NextPriority(before, 3);
    DropAll(Upto(before, 3), BYPASS_PRIORITY, 1);
    assert foreign == Partial(before, 3, 1);
  }

  /** Such a host: a gate selected, and a main table without a default, in which a
      public destination has no route. */
  lemma HostWithoutMainRouteLeaks() returns (s: seq<Rule>, plan: RoutePlan, routes: Routes, pkt: Packet)
    ensures Foreign(s) == BaseRules(true) && s == Installed(BaseRules(true), plan) && BYPASS in s
    ensures pkt == Packet(0xC0A8_0102, 0x0101_0101, false) && plan == RoutePlan([], []) && !MESH.Contains(pkt.dst)
    ensures routes.gate && !routes.main(pkt.dst) && routes.PeersInMesh()
    ensures Resolve(s, routes, pkt) == Via(Mesh52)
  {
    plan, pkt := RoutePlan([], []), Packet(0xC0A8_0102, 0x0101_0101, false);
    s := Installed(BaseRules(true), plan);
    routes := Routes(_ => false, _ => false, _ => false, _ => false, true);
    BaseIsForeign(true);
    InstalledHolds(BaseRules(true), plan);
    InstalledPresent(plan, BYPASS);
    InstalledMeansPolicy(plan, routes, pkt);
  }

  /** Under the bypass, and with a main-table route for it, a peer is reached
      through table 52 exactly while the mesh rule is in the table. */
  lemma MeshHeldExactly(s: seq<Rule>, plan: RoutePlan, routes: Routes, pkt: Packet)
    requires Foreign(s) == BaseRules(true) && HostSafe(s, PlanRules(plan)) && BYPASS in s
    requires !pkt.marked && !FromContainer(plan, pkt.src) && MESH.Contains(pkt.dst) && routes.peers(pkt.dst)
    requires !routes.local(pkt.dst) && routes.main(pkt.dst)
    ensures Resolve(s, routes, pkt) == if MESH_PRESERVE in s then Via(Mesh52) else Via(Main)
  {
    if MESH_PRESERVE in s {
      DecidesSafe(s, plan, routes, pkt, MESH_PRESERVE);
    } else {
      DecidesSafe(s, plan, routes, pkt, BYPASS);
    }
  }

  // ---- leftovers are inert ----

  /** The shapes of rule that this module ever installs. */
  predicate OwnShape(r: Rule) {
    || r == BYPASS || r == MESH_PRESERVE
    || (r.selector.To? && r == ExclusionRule(r.selector.p))
    || (r.selector.From? && r == ContainerRule(r.selector.p))
  }

  /** Any collection of this module's rules, left behind over the base table,
      routes every non-mesh packet as if it were not there, as long as table 52
      has no default. */
  lemma LeftoversInert(s: seq<Rule>, tailscale: bool, routes: Routes, pkt: Packet)
    requires Sorted(s) && Foreign(s) == BaseRules(tailscale)
    requires forall r :: r in s && Owned(r) ==> OwnShape(r)
    requires !routes.gate && routes.PeersInMesh() && !MESH.Contains(pkt.dst)
    ensures Resolve(s, routes, pkt) == Resolve(BaseRules(tailscale), routes, pkt)
  {
    BaseIsForeign(tailscale);
    LeftoverVerdict(s, tailscale, routes, pkt);
    LeftoverVerdict(BaseRules(tailscale), tailscale, routes, pkt);
  }

  /** What the base table alone makes of a non-mesh packet without a gate. */
  function PlainVerdict(tailscale: bool, routes: Routes, pkt: Packet): Verdict {
    if routes.local(pkt.dst) then Via(Local)
    else if routes.main(pkt.dst) then Via(Main)
    else if routes.fallback(pkt.dst) then Via(Default)
    else if tailscale && pkt.marked then Rejected
    else NoRoute
  }

  lemma LeftoverMembers(s: seq<Rule>, tailscale: bool)
    requires Foreign(s) == BaseRules(tailscale)
    requires forall r :: r in s && Owned(r) ==> OwnShape(r)
    ensures forall r :: r in s ==> OfBase(r, tailscale) || OwnShape(r)
    ensures forall r :: OfBase(r, tailscale) ==> r in s
  {
    BaseMembers(tailscale);
    ForeignMembers(s);
  }

  lemma DecidesLeftover(s: seq<Rule>, tailscale: bool, routes: Routes, pkt: Packet, r: Rule)
    requires Sorted(s) && Foreign(s) == BaseRules(tailscale) && OfBase(r, tailscale) && Settles(r, routes, pkt)
    requires forall x :: x in s && Owned(x) ==> OwnShape(x)
    requires forall x :: OfBase(x, tailscale) && x.priority <= r.priority && Settles(x, routes, pkt) ==>
      Outcome(x.action) == Outcome(r.action)
    requires forall x :: OwnShape(x) && x.priority <= r.priority && Settles(x, routes, pkt) ==>
      Outcome(x.action) == Outcome(r.action)
    ensures Resolve(s, routes, pkt) == Outcome(r.action)
  {
    LeftoverMembers(s, tailscale);
    Decides(s, routes, pkt, r);
  }

  lemma LeftoverVerdict(s: seq<Rule>, tailscale: bool, routes: Routes, pkt: Packet)
    requires Sorted(s) && Foreign(s) == BaseRules(tailscale)
    requires forall r :: r in s && Owned(r) ==> OwnShape(r)
    requires !routes.gate && routes.PeersInMesh() && !MESH.Contains(pkt.dst)
    ensures Resolve(s, routes, pkt) == PlainVerdict(tailscale, routes, pkt)
  {
    var stopped := tailscale && pkt.marked;
    if routes.local(pkt.dst) {
      DecidesLeftover(s, tailscale, routes, pkt, LOCAL_RULE);
    } else if routes.main(pkt.dst) {
      DecidesLeftover(s, tailscale, routes, pkt, if stopped then MARKED_MAIN else MAIN_RULE);
    } else if routes.fallback(pkt.dst) {
      DecidesLeftover(s, tailscale, routes, pkt, if stopped then MARKED_DEFAULT else DEFAULT_RULE);
    } else if stopped {
      DecidesLeftover(s, tailscale, routes, pkt, MARKED_STOP);
    } else {
      LeftoverMembers(s, tailscale);
      NothingDecides(s, routes, pkt);
    }
  }

  // ---- what a completed installation is ----

  lemma {:induction false} AllAtPriority(rs: seq<Rule>, q: nat, p: nat)
    requires forall r :: r in rs ==> r.priority == q
    ensures AtPriority(rs, p) == if p == q then rs else []
  {
    if rs == [] {
    } else {
      AllAtPriority(rs[1..], q, p);
    }
  }

  /** The plan's rules, priority by priority. */
  function PlannedAt(plan: RoutePlan, p: nat): seq<Rule> {
    if p == BYPASS_PRIORITY then [BYPASS]
    else if p == MESH_PRIORITY then [MESH_PRESERVE]
    else if p == EXCLUSION_PRIORITY then ExclusionRules(plan)
    else if p == CONTAINER_PRIORITY then ContainerRules(plan)
    else []
  }

  lemma PlanAtPriority(plan: RoutePlan, p: nat)
    ensures AtPriority(PlanRules(plan), p) == PlannedAt(plan, p)
  {
    var es, cs := ExclusionRules(plan), ContainerRules(plan);
    AtPriorityConcat([BYPASS], [MESH_PRESERVE] + (es + cs), p);
    AtPriorityConcat([MESH_PRESERVE], es + cs, p);
    AtPriorityConcat(es, cs, p);
    AllAtPriority([BYPASS], BYPASS_PRIORITY, p);
    AllAtPriority([MESH_PRESERVE], MESH_PRIORITY, p);
    AllAtPriority(es, EXCLUSION_PRIORITY, p);
    AllAtPriority(cs, CONTAINER_PRIORITY, p);
  }

  /** Exactly the plan's rules at the owned priorities, and everybody else's
      rules in order: a table is the installed one if and only if it is that. */
  ghost predicate HoldsExactly(t: seq<Rule>, foreign: seq<Rule>, plan: RoutePlan) {
    && Sorted(t) && Foreign(t) == foreign
    && forall p :: p in ROUTE_PRIORITIES ==> AtPriority(t, p) == PlannedAt(plan, p)
  }

  lemma InstalledHolds(foreign: seq<Rule>, plan: RoutePlan)
    requires Sorted(foreign) && Unloaded(foreign)
    ensures HoldsExactly(Installed(foreign, plan), foreign, plan)
  {
    InsertAllParts(foreign, PlanRules(plan));
    PlanMembers(plan);
    InsertAllForeign(foreign, PlanRules(plan));
    ForeignAlready(foreign);
    forall p | p in ROUTE_PRIORITIES ensures AtPriority(Installed(foreign, plan), p) == PlannedAt(plan, p) {
      PlanAtPriority(plan, p);
      NoneAtPriority(foreign, p);
    }
  }

  lemma InstalledExactly(t: seq<Rule>, foreign: seq<Rule>, plan: RoutePlan)
    requires Sorted(foreign) && Unloaded(foreign)
    ensures t == Installed(foreign, plan) <==> HoldsExactly(t, foreign, plan)
  {
    InstalledHolds(foreign, plan);
    var u := Installed(foreign, plan);
    if HoldsExactly(t, foreign, plan) {
      forall p: nat ensures AtPriority(t, p) == AtPriority(u, p) {
        WithoutAtPriority(t, ROUTE_PRIORITIES, p);
        WithoutAtPriority(u, ROUTE_PRIORITIES, p);
      }
      TableDetermined(t, u);
    }
  }

  /** Applying twice equals applying once, and clearing restores what was there. */
  lemma ReapplyChangesNothing(foreign: seq<Rule>, plan: RoutePlan, other: RoutePlan)
    requires Sorted(foreign) && Unloaded(foreign)
    ensures Foreign(Installed(foreign, plan)) == foreign
    ensures Installed(Foreign(Installed(foreign, plan)), plan) == Installed(foreign, plan)
    ensures Installed(Foreign(Installed(foreign, other)), plan) == Installed(foreign, plan)
  {
    InstalledHolds(foreign, plan);
    InstalledHolds(foreign, other);
  }

  /** An installed plan can be cleared, or replaced, by an undisturbed run exactly
      when it has at most 63 exclusions and at most 63 container networks. */
  lemma InstalledClearableExactly(foreign: seq<Rule>, plan: RoutePlan)
    requires Sorted(foreign) && Unloaded(foreign)
    ensures Clearable(Installed(foreign, plan), |ROUTE_PRIORITIES|)
      <==> |plan.exclusions| <= 63 && |plan.containers| <= 63
    ensures Clearable(PlanRules(plan), |ROUTE_PRIORITIES|) <==> |plan.exclusions| <= 63 && |plan.containers| <= 63
  {
    InstalledHolds(foreign, plan);
    var t := Installed(foreign, plan);
    forall i | 0 <= i < |ROUTE_PRIORITIES|
      ensures AtPriority(t, ROUTE_PRIORITIES[i]) == AtPriority(PlanRules(plan), ROUTE_PRIORITIES[i])
        == PlannedAt(plan, ROUTE_PRIORITIES[i])
    {
      PlanAtPriority(plan, ROUTE_PRIORITIES[i]);
    }
    assert ROUTE_PRIORITIES[1] == EXCLUSION_PRIORITY && ROUTE_PRIORITIES[2] == CONTAINER_PRIORITY;
  }

  // ---- when a failed installation is rolled back ----

  /** Whatever rule fails, an undisturbed rollback is complete, if and only if the plan
      has at most 63 exclusions and at most 63 container networks. */
  lemma EveryRollbackCompleteExactly(foreign: seq<Rule>, plan: RoutePlan)
    requires Sorted(foreign) && Unloaded(foreign)
    ensures (forall m :: 0 <= m <= |PlanRules(plan)| ==>
      Clearable(Stage(foreign, PlanRules(plan), m), |ROUTE_PRIORITIES|))
            <==> |plan.exclusions| <= 63 && |plan.containers| <= 63
  {
    var rs := PlanRules(plan);
    ForeignAlready(foreign);
    PlanIsReady(foreign, plan);
    InstalledClearableExactly(foreign, plan);
    if Clearable(rs, |ROUTE_PRIORITIES|) {
      forall m | 0 <= m <= |rs| ensures Clearable(Stage(foreign, rs, m), |ROUTE_PRIORITIES|) {
        StageClearable(foreign, rs, m);
      }
    }
    assert Stage(foreign, rs, |rs|) == Installed(foreign, plan);
  }

  /** 64 exclusions and one container network. */
  function LargePlan(): (plan: RoutePlan)
    ensures |plan.exclusions| == 64 && |plan.containers| == 1
  {
    RoutePlan([Prefix(0xAC11_0000, 0x1_0000)], seq(64, i requires 0 <= i < 64 => Host(i)))
  }

  lemma LargeStages(foreign: seq<Rule>)
    requires Sorted(foreign) && Unloaded(foreign)
    ensures |PlanRules(LargePlan())| == 67
    ensures !Clearable(Stage(foreign, PlanRules(LargePlan()), 66), |ROUTE_PRIORITIES|)
    ensures !Clearable(Stage(foreign, PlanRules(LargePlan()), 67), |ROUTE_PRIORITIES|)
  {
    InstalledClearableExactly(foreign, LargePlan());
    assert PlanRules(LargePlan())[..67] == PlanRules(LargePlan());
    LargeStageNotClearable(foreign);
  }

  lemma LargeStageNotClearable(foreign: seq<Rule>)
    requires Sorted(foreign) && Unloaded(foreign)
    ensures |PlanRules(LargePlan())| == 67
    ensures !Clearable(Stage(foreign, PlanRules(LargePlan()), 66), |ROUTE_PRIORITIES|)
  {
    LargePlanExclusions();
    InsertAllParts(foreign, PlanRules(LargePlan())[..66]);
    NoneAtPriority(foreign, EXCLUSION_PRIORITY);
    assert ROUTE_PRIORITIES[1] == EXCLUSION_PRIORITY;
  }

  lemma LargePlanExclusions()
    ensures |PlanRules(LargePlan())| == 67
    ensures |AtPriority(PlanRules(LargePlan())[..66], EXCLUSION_PRIORITY)| == 64
  {
    var plan := LargePlan();
    var rs := PlanRules(plan);
    PlanLists(plan);
    var last := [ContainerRule(plan.containers[0])];
    assert rs == rs[..66] + last;
    AtPriorityConcat(rs[..66], last, EXCLUSION_PRIORITY);
    PlanAtPriority(plan, EXCLUSION_PRIORITY);
    AllAtPriority(last, CONTAINER_PRIORITY, EXCLUSION_PRIORITY);
  }

  /** An input on which the set is not rolled back, over any cleared table: the kernel
      refuses the container rule of that plan and carries out everything else, and the
      bypass stays. */
  method RollbackStopsHalfWay(foreign: seq<Rule>) returns (ok: bool, left: seq<Rule>)
    requires Sorted(foreign) && Unloaded(foreign)
    ensures !ok && BYPASS in left && left != foreign
  {
    ForeignAlready(foreign);
    PlanIsReady(foreign, LargePlan());
    LargeStages(foreign);
    var k := new RuleKernel(foreign, t => if t == 66 then Refused else Obeyed);
    ghost var rs := PlanRules(LargePlan());
    ghost var steps, at, undone;
    ok, steps, at, undone := InstallAll(k, LargePlan(), foreign, rs);
    left := k.rules;
    assert k.fate(66) != Obeyed;
    if !ok {
      StartsFromEither(foreign, rs, at, steps);
    }
  }

  lemma StartsFromEither(foreign: seq<Rule>, rs: seq<Rule>, m: nat, steps: States)
    requires m < |steps| && ClimbedAndFell(foreign, rs, m, steps)
    ensures steps[m] == Stage(foreign, rs, m) || steps[m] == Stage(foreign, rs, m + 1)
  {
    assert steps[m] == steps[m..][0];
  }

  // ---- what it does to packets ----

  /** The policy a selection stands for, with a gate selected: the mesh and then
      the excluded destinations first, then the containers, then the host. */
  function Policy(plan: RoutePlan, routes: Routes, pkt: Packet): Verdict {
    if routes.local(pkt.dst) then Via(Local)
    else if pkt.marked && routes.main(pkt.dst) then Via(Main)
    else if pkt.marked && routes.fallback(pkt.dst) then Via(Default)
    else if pkt.marked then Rejected
    else if MESH.Contains(pkt.dst) then Via(Mesh52)
    else if Excluded(plan, pkt.dst) && routes.main(pkt.dst) then Via(Main)
    else if FromContainer(plan, pkt.src) then Via(Mesh52)
    else if routes.main(pkt.dst) then Via(Main)
    else Via(Mesh52)
  }

  lemma InstalledShapes(plan: RoutePlan)
    ensures Sorted(Installed(BaseRules(true), plan))
    ensures forall r :: r in Installed(BaseRules(true), plan) ==> OfBase(r, true) || OfPlan(r, plan)
  {
    BaseIsForeign(true);
    BaseMembers(true);
    PlanMembers(plan);
    InsertAllParts(BaseRules(true), PlanRules(plan));
  }

  /** The rules that the table is sure to hold. */
  predicate Present(r: Rule, plan: RoutePlan) {
    || OfBase(r, true) || r == BYPASS || r == MESH_PRESERVE
    || (exists p :: p in plan.exclusions && r == ExclusionRule(p))
    || (exists p :: p in plan.containers && r == ContainerRule(p))
  }

  lemma InstalledPresent(plan: RoutePlan, r: Rule)
    requires Present(r, plan)
    ensures r in Installed(BaseRules(true), plan)
  {
    BaseMembers(true);
    PlanMembers(plan);
    InsertAllParts(BaseRules(true), PlanRules(plan));
    assert PlanRules(plan)[0] == BYPASS && PlanRules(plan)[1] == MESH_PRESERVE;
  }

  /** In the installed table a rule that is there decides, if every rule of the base
      table or the plan, at or ahead of it, that settles the packet agrees with it. */
  lemma DecidesInstalled(plan: RoutePlan, routes: Routes, pkt: Packet, r: Rule)
    requires Present(r, plan) && Settles(r, routes, pkt)
    requires forall x :: OfBase(x, true) && x.priority <= r.priority && Settles(x, routes, pkt) ==>
      Outcome(x.action) == Outcome(r.action)
    requires forall x :: OfPlan(x, plan) && x.priority <= r.priority && Settles(x, routes, pkt) ==>
      Outcome(x.action) == Outcome(r.action)
    ensures Resolve(Installed(BaseRules(true), plan), routes, pkt) == Outcome(r.action)
  {
    InstalledPresent(plan, r);
    InstalledShapes(plan);
    Decides(Installed(BaseRules(true), plan), routes, pkt, r);
  }

  /** The host's own and tailscaled's marked packets are settled ahead of this module's rules. */
  lemma SettledAhead(plan: RoutePlan, routes: Routes, pkt: Packet)
    requires routes.local(pkt.dst) || pkt.marked
    ensures Resolve(Installed(BaseRules(true), plan), routes, pkt) == Policy(plan, routes, pkt)
  {
    DecidesInstalled(plan, routes, pkt,
            if routes.local(pkt.dst) then LOCAL_RULE
            else if routes.main(pkt.dst) then MARKED_MAIN
            else if routes.fallback(pkt.dst) then MARKED_DEFAULT
            else MARKED_STOP);
  }

  /** Destinations decide before sources do. */
  lemma SettledByDestination(plan: RoutePlan, routes: Routes, pkt: Packet)
    requires routes.gate && !routes.local(pkt.dst) && !pkt.marked
    requires MESH.Contains(pkt.dst) || (Excluded(plan, pkt.dst) && routes.main(pkt.dst))
    ensures Resolve(Installed(BaseRules(true), plan), routes, pkt) == Policy(plan, routes, pkt)
  {
    if MESH.Contains(pkt.dst) {
      DecidesInstalled(plan, routes, pkt, MESH_PRESERVE);
    } else {
      var p :| p in plan.exclusions && p.Contains(pkt.dst);
      assert Present(ExclusionRule(p), plan);
      DecidesInstalled(plan, routes, pkt, ExclusionRule(p));
    }
  }

  lemma SettledBySource(plan: RoutePlan, routes: Routes, pkt: Packet)
    requires routes.gate && !routes.local(pkt.dst) && !pkt.marked && !MESH.Contains(pkt.dst)
    requires !(Excluded(plan, pkt.dst) && routes.main(pkt.dst)) && FromContainer(plan, pkt.src)
    ensures Resolve(Installed(BaseRules(true), plan), routes, pkt) == Via(Mesh52)
  {
    var p :| p in plan.containers && p.Contains(pkt.src);
    assert Present(ContainerRule(p), plan);
    DecidesInstalled(plan, routes, pkt, ContainerRule(p));
  }

  lemma SettledForTheHost(plan: RoutePlan, routes: Routes, pkt: Packet)
    requires routes.gate && !routes.local(pkt.dst) && !pkt.marked && !MESH.Contains(pkt.dst)
    requires !(Excluded(plan, pkt.dst) && routes.main(pkt.dst)) && !FromContainer(plan, pkt.src)
    ensures Resolve(Installed(BaseRules(true), plan), routes, pkt)
         == if routes.main(pkt.dst) then Via(Main) else Via(Mesh52)
  {
    DecidesInstalled(plan, routes, pkt, if routes.main(pkt.dst) then BYPASS else CATCH_ALL);
  }

  lemma InstalledMeansPolicy(plan: RoutePlan, routes: Routes, pkt: Packet)
    requires routes.gate
    ensures Resolve(Installed(BaseRules(true), plan), routes, pkt) == Policy(plan, routes, pkt)
  {
    if routes.local(pkt.dst) || pkt.marked {
      SettledAhead(plan, routes, pkt);
    } else if MESH.Contains(pkt.dst) || (Excluded(plan, pkt.dst) && routes.main(pkt.dst)) {
      SettledByDestination(plan, routes, pkt);
    } else if FromContainer(plan, pkt.src) {
      SettledBySource(plan, routes, pkt);
    } else {
      SettledForTheHost(plan, routes, pkt);
    }
  }
}
