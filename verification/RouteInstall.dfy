/** internal/vpn/exit.go's ApplyRoutes: clear, then install the host bypass, the
    mesh rule, the exclusions and the container rules, undoing everything at the
    first error. */
module RouteInstall {
  import opened RuleTable
  import opened RouteEngine
  import opened Sequences
  import opened Wrappers

  // ---- the states a sequence of installs goes through ----

  ghost predicate Unloaded(rules: seq<Rule>) {
    forall r :: r in rules ==> !Owned(r)
  }

  /** Everybody else's rules, and a sequence of owned ones of which the bypass is the first. */
  ghost predicate Ready(foreign: seq<Rule>, rs: seq<Rule>) {
    && Sorted(foreign) && Unloaded(foreign)
    && rs != [] && rs[0] == BYPASS
    && (forall r :: r in rs ==> Owned(r))
    && (forall r :: r in rs[1..] ==> r.priority != BYPASS_PRIORITY)
  }

  /** The host is held still: the bypass is in force, beside this plan's rules only. */
  ghost predicate Pinned(rules: seq<Rule>, rs: seq<Rule>) {
    Sorted(rules) && BYPASS in rules && forall r :: r in rules && Owned(r) ==> r in rs
  }

  /** No state has a rule of this module without the bypass. */
  ghost predicate HostSafe(rules: seq<Rule>, rs: seq<Rule>) {
    Pinned(rules, rs) || Unloaded(rules)
  }

  /** A stretch of states in which the host stays safe and nobody else's rules change. */
  ghost predicate SafeStates(foreign: seq<Rule>, rs: seq<Rule>, states: States) {
    forall s :: s in states ==> Foreign(s) == foreign && HostSafe(s, rs)
  }

  /** The table after the first `m` installs. */
  function Stage(foreign: seq<Rule>, rs: seq<Rule>, m: nat): seq<Rule>
    requires m <= |rs|
  {
    InsertAll(foreign, rs[..m])
  }

  /** The states an undisturbed installation goes through. */
  function Climb(foreign: seq<Rule>, rs: seq<Rule>, m: nat): States
    requires m <= |rs|
  {
    if m == 0 then [] else Climb(foreign, rs, m - 1) + [Stage(foreign, rs, m)]
  }

  lemma {:induction false} InsertAllStep(rules: seq<Rule>, rs: seq<Rule>, r: Rule)
    ensures InsertAll(rules, rs + [r]) == Insert(InsertAll(rules, rs), r)
    decreases rs
  {
    if rs != [] {
      InsertAllStep(Insert(rules, rs[0]), rs[1..], r);
      assert (rs + [r])[1..] == rs[1..] + [r];
    } else {
      assert ([r])[1..] == [];
    }
  }

  lemma NextStage(foreign: seq<Rule>, rs: seq<Rule>, m: nat)
    requires m < |rs|
    ensures Insert(Stage(foreign, rs, m), rs[m]) == Stage(foreign, rs, m + 1)
  {
    InsertAllStep(foreign, rs[..m], rs[m]);
    assert rs[..m] + [rs[m]] == rs[..m + 1];
  }

  lemma {:induction false} InsertAllParts(rules: seq<Rule>, rs: seq<Rule>)
    requires Sorted(rules)
    ensures Sorted(InsertAll(rules, rs))
    ensures forall p :: AtPriority(InsertAll(rules, rs), p) == AtPriority(rules, p) + AtPriority(rs, p)
    ensures forall r :: r in InsertAll(rules, rs) <==> r in rules || r in rs
    decreases rs
  {
    if rs == [] {
    } else {
      InsertSorted(rules, rs[0]);
      InsertMembers(rules, rs[0]);
      InsertAllParts(Insert(rules, rs[0]), rs[1..]);
      assert rs == [rs[0]] + rs[1..];
      forall p: nat ensures AtPriority(InsertAll(rules, rs), p) == AtPriority(rules, p) + AtPriority(rs, p) {
        InsertAtPriority(rules, rs[0], p);
      }
    }
  }

  lemma {:induction false} InsertAllForeign(rules: seq<Rule>, rs: seq<Rule>)
    requires forall r :: r in rs ==> Owned(r)
    ensures Foreign(InsertAll(rules, rs)) == Foreign(rules)
    decreases rs
  {
    if rs == [] {
    } else {
      OwnedListed(rs[0]);
      InsertWithout(rules, rs[0], ROUTE_PRIORITIES);
      InsertAllForeign(Insert(rules, rs[0]), rs[1..]);
    }
  }

  /** The bypass is the first rule in and stays alone at its priority. */
  lemma StageIsSafe(foreign: seq<Rule>, rs: seq<Rule>, m: nat)
    requires Ready(foreign, rs) && m <= |rs|
    ensures AtPriority(Stage(foreign, rs, m), BYPASS_PRIORITY) == if m == 0 then [] else [BYPASS]
    ensures Sorted(Stage(foreign, rs, m)) && Foreign(Stage(foreign, rs, m)) == foreign
    ensures HostSafe(Stage(foreign, rs, m), rs)
    ensures forall r :: r in Stage(foreign, rs, m) && Owned(r) ==> r in rs && m > 0
  {
    InsertAllParts(foreign, rs[..m]);
    InsertAllForeign(foreign, rs[..m]);
    ForeignAlready(foreign);
    NoneAtPriority(foreign, BYPASS_PRIORITY);
    if m > 0 {
      NoneAtPriority(rs[..m][1..], BYPASS_PRIORITY);
      assert rs[..m] == [BYPASS] + rs[1..m];
    }
  }

  /** Every state of a rollback is safe, whichever of its deletions fail. */
  lemma RollbackIsSafe(foreign: seq<Rule>, rs: seq<Rule>, m: nat, s: seq<Rule>)
    requires Ready(foreign, rs) && m <= |rs| && Unwound(Stage(foreign, rs, m), s)
    ensures Foreign(s) == foreign && HostSafe(s, rs)
  {
    StageIsSafe(foreign, rs, m);
    UnwoundParts(Stage(foreign, rs, m), s);
    AtPriorityMembers(s, BYPASS_PRIORITY);
    AtPriorityMembers(Stage(foreign, rs, m), BYPASS_PRIORITY);
  }

  lemma {:induction false} ClimbIsSafe(foreign: seq<Rule>, rs: seq<Rule>, m: nat, more: States)
    requires Ready(foreign, rs) && m <= |rs| && SafeStates(foreign, rs, more)
    ensures SafeStates(foreign, rs, Climb(foreign, rs, m) + more)
  {
    if m > 0 {
      StageIsSafe(foreign, rs, m);
      ClimbIsSafe(foreign, rs, m - 1, [Stage(foreign, rs, m)] + more);
      assert Climb(foreign, rs, m) + more == Climb(foreign, rs, m - 1) + ([Stage(foreign, rs, m)] + more);
    } else {
      assert Climb(foreign, rs, 0) + more == more;
    }
  }

  lemma {:induction false} AtPriorityConcat(a: seq<Rule>, b: seq<Rule>, p: nat)
    ensures AtPriority(a + b, p) == AtPriority(a, p) + AtPriority(b, p)
  {
    if a == [] {
      assert a + b == b;
    } else {
      AtPriorityConcat(a[1..], b, p);
      assert (a + b)[1..] == a[1..] + b;
    }
  }

  /** A partly installed sequence can be cleared when the sequence is short enough. */
  lemma StageClearable(foreign: seq<Rule>, rs: seq<Rule>, m: nat)
    requires Ready(foreign, rs) && m <= |rs| && Clearable(rs, |ROUTE_PRIORITIES|)
    ensures Clearable(Stage(foreign, rs, m), |ROUTE_PRIORITIES|)
  {
    InsertAllParts(foreign, rs[..m]);
    forall i | 0 <= i < |ROUTE_PRIORITIES|
      ensures |AtPriority(Stage(foreign, rs, m), ROUTE_PRIORITIES[i])| <= 63
    {
      NoneAtPriority(foreign, ROUTE_PRIORITIES[i]);
      AtPriorityConcat(rs[..m], rs[m..], ROUTE_PRIORITIES[i]);
      assert rs[..m] + rs[m..] == rs;
    }
  }

  /** The table once a plan is installed over everybody else's rules. */
  function Installed(foreign: seq<Rule>, plan: RoutePlan): seq<Rule> {
    InsertAll(foreign, PlanRules(plan))
  }

  // ---- the methods ----

  /** How a failed installation of rule `m` went on from the stage before it: the add
      left that stage or the next, and one rollback unwound it from there. */
  ghost predicate FellBack(foreign: seq<Rule>, rs: seq<Rule>, m: nat, steps: States) {
    exists reached: nat, back: States :: m <= reached <= m + 1 && reached <= |rs| &&
      steps == [Stage(foreign, rs, reached)] + back && Unwinding(Stage(foreign, rs, reached), back)
  }

  /** A failed run: the stages before the rule that failed, one after the other, and
      then the one rollback. */
  ghost predicate ClimbedAndFell(foreign: seq<Rule>, rs: seq<Rule>, m: nat, steps: States) {
    m < |rs| && m <= |steps| && steps[..m] == Climb(foreign, rs, m) && FellBack(foreign, rs, m, steps[m..])
  }

  lemma {:induction false} ClimbLength(foreign: seq<Rule>, rs: seq<Rule>, m: nat)
    requires m <= |rs|
    ensures |Climb(foreign, rs, m)| == m
    ensures forall i :: 0 <= i < m ==> Climb(foreign, rs, m)[i] == Stage(foreign, rs, i + 1)
  {
    if m == 0 {
    } else {
      ClimbLength(foreign, rs, m - 1);
    }
  }

  lemma UnwindingIsSafe(foreign: seq<Rule>, rs: seq<Rule>, m: nat, steps: States)
    requires Ready(foreign, rs) && m <= |rs| && Unwinding(Stage(foreign, rs, m), steps)
    ensures SafeStates(foreign, rs, steps)
  {
    forall s | s in steps ensures Foreign(s) == foreign && HostSafe(s, rs) {
      RollbackIsSafe(foreign, rs, m, s);
    }
  }

  lemma FallIsSafe(foreign: seq<Rule>, rs: seq<Rule>, m: nat, steps: States)
    requires Ready(foreign, rs) && m < |rs| && FellBack(foreign, rs, m, steps)
    ensures SafeStates(foreign, rs, steps)
  {
    var reached: nat, back: States :| m <= reached <= m + 1 && reached <= |rs| &&
      steps == [Stage(foreign, rs, reached)] + back && Unwinding(Stage(foreign, rs, reached), back);
    StageIsSafe(foreign, rs, reached);
    UnwindingIsSafe(foreign, rs, reached, back);
  }

  lemma RunIsSafe(foreign: seq<Rule>, rs: seq<Rule>, m: nat, steps: States)
    requires Ready(foreign, rs)
    requires ClimbedAndFell(foreign, rs, m, steps) || steps == Climb(foreign, rs, |rs|)
    ensures SafeStates(foreign, rs, steps)
  {
    if steps == Climb(foreign, rs, |rs|) {
      ClimbIsSafe(foreign, rs, |rs|, []);
    } else {
      FallIsSafe(foreign, rs, m, steps[m..]);
      ClimbIsSafe(foreign, rs, m, steps[m..]);
      assert steps == steps[..m] + steps[m..];
    }
  }

  /** What an undisturbed rollback comes to: it is complete if and only if the state it
      starts from can be cleared, and an incomplete one leaves the bypass behind. */
  ghost predicate RolledBack(start: seq<Rule>, now: seq<Rule>, undone: bool) {
    (undone <==> Clearable(start, |ROUTE_PRIORITIES|)) && (!undone ==> BYPASS in now)
  }

  lemma HalfWayKeepsBypass(foreign: seq<Rule>, rs: seq<Rule>, m: nat, now: seq<Rule>)
    requires Ready(foreign, rs) && m <= |rs| && StoppedHalfWay(Stage(foreign, rs, m), now)
    ensures BYPASS in now
  {
    var start := Stage(foreign, rs, m);
    var n: nat :| n < |ROUTE_PRIORITIES| && |AtPriority(start, ROUTE_PRIORITIES[n])| > 63 &&
      now == Partial(start, n, 64);
    StageIsSafe(foreign, rs, m);
    assert rs[..0] == [];
    if m == 0 {
      NoneAtPriority(foreign, ROUTE_PRIORITIES[n]);
    }
    PartialKeepsBypass(start, n, 64);
    AtPriorityMembers(now, BYPASS_PRIORITY);
    assert BYPASS in AtPriority(now, BYPASS_PRIORITY);
  }

  /** The closure `rollback`: clear everything, whatever that reports. */
  method Rollback(k: RuleKernel, ghost foreign: seq<Rule>, ghost rs: seq<Rule>, ghost m: nat)
    returns (ghost steps: States, ghost undone: bool)
    requires k.Valid() && Ready(foreign, rs) && m <= |rs| && k.rules == Stage(foreign, rs, m)
    modifies k
    ensures k.Valid() && k.history == old(k.history) + steps && k.clock == old(k.clock) + |steps|
    ensures k.rules == Last(steps, old(k.rules)) && Unwinding(Stage(foreign, rs, m), steps)
    ensures SafeStates(foreign, rs, steps)
    ensures undone ==> k.rules == foreign
    ensures k.ObedientFrom(old(k.clock)) ==> RolledBack(old(k.rules), k.rules, undone)
    ensures k.ObedientFrom(old(k.clock)) && Clearable(rs, |ROUTE_PRIORITIES|) ==> undone
  {
    var _, ok, cleared := ClearRouteRules(k);
    steps, undone := cleared, ok;
    StageIsSafe(foreign, rs, m);
    UnwindingIsSafe(foreign, rs, m, steps);
    if !ok && k.ObedientFrom(old(k.clock)) {
      HalfWayKeepsBypass(foreign, rs, m, k.rules);
    }
    if Clearable(rs, |ROUTE_PRIORITIES|) {
      StageClearable(foreign, rs, m);
    }
  }

  /** One `ip rule add` of the sequence, rolled back when it reports an error. */
  method Install(k: RuleKernel, r: Rule, ghost foreign: seq<Rule>, ghost rs: seq<Rule>, ghost m: nat)
    returns (ok: bool, ghost steps: States, ghost undone: bool)
    requires k.Valid() && Ready(foreign, rs)
    requires m < |rs| && r == rs[m] && k.rules == Stage(foreign, rs, m)
    modifies k
    ensures k.Valid() && k.history == old(k.history) + steps && k.clock == old(k.clock) + |steps|
    ensures ok <==> k.fate(old(k.clock)) == Obeyed
    ensures ok ==> k.rules == Stage(foreign, rs, m + 1) && steps == [k.rules]
    ensures !ok ==> steps != [] && FellBack(foreign, rs, m, steps) && SafeStates(foreign, rs, steps)
    ensures !ok && undone ==> k.rules == foreign
    ensures !ok && k.ObedientFrom(old(k.clock) + 1) ==> RolledBack(steps[0], k.rules, undone)
    ensures !ok && k.ObedientFrom(old(k.clock) + 1) && Clearable(rs, |ROUTE_PRIORITIES|) ==> undone
  {
    NextStage(foreign, rs, m);
    ok := k.Add(r);
    steps, undone := [k.rules], false;
    if !ok {
      ghost var at := if k.rules == Stage(foreign, rs, m) then m else m + 1;
      assert k.rules == Stage(foreign, rs, at);
      ghost var more;
      more, undone := Rollback(k, foreign, rs, at);
      Regroup(old(k.history), steps, more);
      steps := steps + more;
      FallIsSafe(foreign, rs, m, steps);
    }
  }

  /** The plan's rules in order, without their definition. */
  ghost predicate Lists(rs: seq<Rule>, plan: RoutePlan) {
    && |rs| == 2 + |plan.exclusions| + |plan.containers|
    && rs[0] == BYPASS && rs[1] == MESH_PRESERVE
    && (forall i :: 0 <= i < |plan.exclusions| ==> rs[2 + i] == ExclusionRule(plan.exclusions[i]))
    && (forall i :: 0 <= i < |plan.containers| ==> rs[2 + |plan.exclusions| + i] == ContainerRule(plan.containers[i]))
  }

  /** Where the installation stands after the first `m` rules. */
  ghost predicate Climbed(foreign: seq<Rule>, rs: seq<Rule>, m: nat, now: seq<Rule>, steps: States)
    requires m <= |rs|
  {
    now == Stage(foreign, rs, m) && steps == Climb(foreign, rs, m)
  }

  /** The next `n` commands from the t-th are carried out and said to be. */
  ghost predicate AllObeyed(fate: nat -> Fate, t: nat, n: nat) {
    forall u :: t <= u < t + n ==> fate(u) == Obeyed
  }

  /** The next rule of the installation, added to the states so far. */
  method InstallNext(k: RuleKernel, r: Rule, ghost foreign: seq<Rule>, ghost rs: seq<Rule>, ghost m: nat,
                     ghost past: States, ghost steps: States)
    returns (ok: bool, ghost onward: States, ghost undone: bool)
    requires k.Valid() && Ready(foreign, rs) && m < |rs| && r == rs[m]
    requires Climbed(foreign, rs, m, k.rules, steps) && k.history == past + steps
    modifies k
    ensures k.Valid() && k.history == past + onward && k.clock == old(k.clock) + |onward| - m
    ensures ok <==> k.fate(old(k.clock)) == Obeyed
    ensures ok ==> |onward| == m + 1 && Climbed(foreign, rs, m + 1, k.rules, onward)
    ensures !ok ==> |onward| > m && ClimbedAndFell(foreign, rs, m, onward)
    ensures !ok && undone ==> k.rules == foreign
    ensures !ok && k.ObedientFrom(old(k.clock) + 1) ==> RolledBack(onward[m], k.rules, undone)
    ensures !ok && k.ObedientFrom(old(k.clock) + 1) && Clearable(rs, |ROUTE_PRIORITIES|) ==> undone
  {
    ghost var more;
    ok, more, undone := Install(k, r, foreign, rs, m);
    Regroup(past, steps, more);
    onward := steps + more;
    ClimbLength(foreign, rs, m);
    assert onward[..m] == steps && onward[m..] == more;
  }

  /** A loop over the exclusions or the containers: their rules one by one, up to the
      first that fails. */
  method InstallEach(k: RuleKernel, rules: seq<Rule>, ghost foreign: seq<Rule>, ghost rs: seq<Rule>, ghost m: nat,
                     ghost past: States, ghost steps: States)
    returns (ok: bool, ghost onward: States, ghost at: nat, ghost undone: bool)
    requires k.Valid() && Ready(foreign, rs) && m + |rules| <= |rs| && rs[m..m + |rules|] == rules
    requires |steps| == m && Climbed(foreign, rs, m, k.rules, steps) && k.history == past + steps
    modifies k
    ensures k.Valid() && k.history == past + onward && k.clock == old(k.clock) + |onward| - m
    ensures ok ==> |onward| == m + |rules| && Climbed(foreign, rs, m + |rules|, k.rules, onward)
    ensures !ok ==> m <= at < m + |rules| && at < |onward| && ClimbedAndFell(foreign, rs, at, onward)
    ensures !ok ==> k.fate(old(k.clock) + at - m) != Obeyed
    ensures AllObeyed(k.fate, old(k.clock), if ok then |rules| else at - m)
    ensures !ok && undone ==> k.rules == foreign
    ensures !ok && k.ObedientFrom(old(k.clock) + at - m + 1) ==> RolledBack(onward[at], k.rules, undone)
    ensures !ok && Clearable(rs, |ROUTE_PRIORITIES|) && k.ObedientFrom(old(k.clock) + at - m + 1) ==> undone
  {
    ok, onward, at, undone := true, steps, m, false;
    for i := 0 to |rules|
      invariant ok && k.Valid() && k.history == past + onward && k.clock == old(k.clock) + i
      invariant |onward| == m + i && Climbed(foreign, rs, m + i, k.rules, onward)
      invariant AllObeyed(k.fate, old(k.clock), i)
    {
      at := m + i;
      assert rules[i] == rs[m..m + |rules|][i];
      ok, onward, undone := InstallNext(k, rules[i], foreign, rs, at, past, onward);
      if !ok {
        return;
      }
    }
  }

  method InstallAll(k: RuleKernel, plan: RoutePlan, ghost foreign: seq<Rule>, ghost rs: seq<Rule>)
    returns (ok: bool, ghost steps: States, ghost at: nat, ghost undone: bool)
    requires k.Valid() && Ready(foreign, rs) && Lists(rs, plan) && k.rules == Stage(foreign, rs, 0)
    modifies k
    ensures k.Valid() && k.history == old(k.history) + steps && k.clock == old(k.clock) + |steps|
    ensures SafeStates(foreign, rs, steps)
    ensures ok ==> Climbed(foreign, rs, |rs|, k.rules, steps)
    ensures !ok ==> at < |steps| && ClimbedAndFell(foreign, rs, at, steps)
    ensures !ok && undone ==> k.rules == foreign
    ensures !ok ==> at < |rs| && k.fate(old(k.clock) + at) != Obeyed
    ensures AllObeyed(k.fate, old(k.clock), if ok then |rs| else at)
    ensures !ok && k.ObedientFrom(old(k.clock) + at + 1) ==> RolledBack(steps[at], k.rules, undone)
    ensures !ok && Clearable(rs, |ROUTE_PRIORITIES|) && k.ObedientFrom(old(k.clock) + at + 1) ==> undone
  {
    ghost var past := k.history;
    ok, steps, at, undone := InstallPins(k, foreign, rs, past);
    if ok {
      ok, steps, at, undone := InstallListed(k, plan, foreign, rs, past, steps);
    }
    RunIsSafe(foreign, rs, at, steps);
  }

  /** The exclusions, and then the containers. */
  method InstallListed(k: RuleKernel, plan: RoutePlan, ghost foreign: seq<Rule>, ghost rs: seq<Rule>,
                       ghost past: States, ghost steps: States)
    returns (ok: bool, ghost onward: States, ghost at: nat, ghost undone: bool)
    requires k.Valid() && Ready(foreign, rs) && Lists(rs, plan)
    requires |steps| == 2 && Climbed(foreign, rs, 2, k.rules, steps) && k.history == past + steps
    modifies k
    ensures k.Valid() && k.history == past + onward && k.clock == old(k.clock) + |onward| - 2
    ensures ok ==> |onward| == |rs| && Climbed(foreign, rs, |rs|, k.rules, onward)
    ensures !ok ==> 2 <= at < |rs| && at < |onward| && ClimbedAndFell(foreign, rs, at, onward)
    ensures !ok ==> k.fate(old(k.clock) + at - 2) != Obeyed
    ensures AllObeyed(k.fate, old(k.clock), if ok then |rs| - 2 else at - 2)
    ensures !ok && undone ==> k.rules == foreign
    ensures !ok && k.ObedientFrom(old(k.clock) + at - 1) ==> RolledBack(onward[at], k.rules, undone)
    ensures !ok && Clearable(rs, |ROUTE_PRIORITIES|) && k.ObedientFrom(old(k.clock) + at - 1) ==> undone
  {
    ListedParts(rs, plan);
    ok, onward, at, undone := InstallEach(k, ExclusionRules(plan), foreign, rs, 2, past, steps);
    if ok {
      ok, onward, at, undone := InstallEach(k, ContainerRules(plan), foreign, rs, 2 + |plan.exclusions|, past, onward);
    }
  }

  /** The bypass first, and then the mesh rule. */
  method InstallPins(k: RuleKernel, ghost foreign: seq<Rule>, ghost rs: seq<Rule>, ghost past: States)
    returns (ok: bool, ghost steps: States, ghost at: nat, ghost undone: bool)
    requires k.Valid() && Ready(foreign, rs) && |rs| >= 2 && rs[1] == MESH_PRESERVE
    requires k.rules == Stage(foreign, rs, 0) && k.history == past
    modifies k
    ensures k.Valid() && k.history == past + steps && k.clock == old(k.clock) + |steps|
    ensures ok ==> |steps| == 2 && Climbed(foreign, rs, 2, k.rules, steps)
    ensures !ok ==> at < 2 && at < |steps| && ClimbedAndFell(foreign, rs, at, steps)
    ensures !ok ==> k.fate(old(k.clock) + at) != Obeyed
    ensures AllObeyed(k.fate, old(k.clock), if ok then 2 else at)
    ensures !ok && k.ObedientFrom(old(k.clock) + at + 1) ==> RolledBack(steps[at], k.rules, undone)
    ensures !ok && undone ==> k.rules == foreign
    ensures !ok && Clearable(rs, |ROUTE_PRIORITIES|) && k.ObedientFrom(old(k.clock) + at + 1) ==> undone
  {
    at := 0;
    ok, steps, undone := InstallNext(k, BYPASS, foreign, rs, 0, past, []);
    if ok {
      at := 1;
      ok, steps, undone := InstallNext(k, MESH_PRESERVE, foreign, rs, 1, past, steps);
    }
  }

  lemma ListedParts(rs: seq<Rule>, plan: RoutePlan)
    requires Lists(rs, plan)
    ensures rs[2..2 + |ExclusionRules(plan)|] == ExclusionRules(plan)
    ensures var n := 2 + |plan.exclusions|; rs[n..n + |ContainerRules(plan)|] == ContainerRules(plan)
  {
  }

  /** The rules of a plan as the commands spell them, in the order of the commands. */
  lemma PlanByNumber(plan: RoutePlan)
    ensures var rs, n := PlanRules(plan), 2 + |plan.exclusions|;
      && |rs| == n + |plan.containers|
      && rs[0] == Rule(5265, All, Lookup(Main))
      && rs[1] == Rule(5259, To(MESH), Lookup(Mesh52))
      && (forall i :: 0 <= i < |plan.exclusions| ==> rs[2 + i] == Rule(5260, To(plan.exclusions[i]), Lookup(Main)))
      && (forall i :: 0 <= i < |plan.containers| ==> rs[n + i] == Rule(5261, From(plan.containers[i]), Lookup(Mesh52)))
  {
    PlanLists(plan);
  }

  lemma PlanLists(plan: RoutePlan)
    ensures Lists(PlanRules(plan), plan)
    ensures forall i :: 0 <= i < |PlanRules(plan)| ==> Owned(PlanRules(plan)[i])
    ensures forall i :: 0 < i < |PlanRules(plan)| ==> PlanRules(plan)[i].priority != BYPASS_PRIORITY
  {
    var rs, n := PlanRules(plan), 2 + |plan.exclusions|;
    forall i | 0 <= i < |plan.exclusions| ensures rs[2 + i] == ExclusionRule(plan.exclusions[i]) {}
    forall i | 0 <= i < |plan.containers| ensures rs[n + i] == ContainerRule(plan.containers[i]) {}
    forall i | 2 <= i < |rs| ensures Owned(rs[i]) && rs[i].priority != BYPASS_PRIORITY {
      if i < n {
        assert rs[i] == ExclusionRule(plan.exclusions[i - 2]);
      } else {
        assert rs[i] == ContainerRule(plan.containers[i - n]);
      }
    }
  }

  lemma PlanIsReady(rules: seq<Rule>, plan: RoutePlan)
    requires Sorted(rules)
    ensures Ready(Foreign(rules), PlanRules(plan)) && Lists(PlanRules(plan), plan)
    ensures Stage(Foreign(rules), PlanRules(plan), 0) == Foreign(rules)
    ensures Stage(Foreign(rules), PlanRules(plan), |PlanRules(plan)|) == Installed(Foreign(rules), plan)
  {
    WithoutSorted(rules, ROUTE_PRIORITIES);
    ForeignMembers(rules);
    PlanLists(plan);
    assert PlanRules(plan)[..|PlanRules(plan)|] == PlanRules(plan);
  }

  /** The states of an installation, from the first add to the last command: all the
      stages in order, or those before the rule that failed and one rollback. */
  ghost predicate IsInstallation(foreign: seq<Rule>, rs: seq<Rule>, ok: bool, at: nat, steps: States) {
    if ok then steps == Climb(foreign, rs, |rs|) else ClimbedAndFell(foreign, rs, at, steps)
  }

  /** Clears, then installs. `opening` are the states of the clear, `steps` those
      after it, and `at` the rule whose installation failed. */
  method ApplyRoutes(k: RuleKernel, plan: RoutePlan)
    returns (ok: bool, ghost opening: States, ghost steps: States, ghost at: nat, ghost undone: bool)
    requires k.Valid()
    modifies k
    ensures k.Valid() && k.history == old(k.history) + opening + steps
    ensures k.clock == old(k.clock) + |opening| + |steps|
    ensures Unwinding(old(k.rules), opening)
    ensures steps != [] ==> Last(opening, old(k.rules)) == Foreign(old(k.rules))
    ensures steps != [] ==> IsInstallation(Foreign(old(k.rules)), PlanRules(plan), ok, at, steps)
    ensures SafeStates(Foreign(old(k.rules)), PlanRules(plan), steps)
    ensures ok ==> k.rules == Installed(Foreign(old(k.rules)), plan)
    ensures ok ==> steps == Climb(Foreign(old(k.rules)), PlanRules(plan), |PlanRules(plan)|)
    ensures steps != [] ==> |opening| == |old(k.rules)| - |Foreign(old(k.rules))| + |ROUTE_PRIORITIES|
    ensures steps != [] ==> AllObeyed(k.fate, old(k.clock) + |opening|, if ok then |PlanRules(plan)| else at)
    ensures !ok && steps != [] ==> at < |steps| && k.fate(old(k.clock) + |opening| + at) != Obeyed
    ensures !ok && steps != [] && k.ObedientFrom(old(k.clock) + |opening| + at + 1) ==>
      RolledBack(steps[at], k.rules, undone)
    ensures !ok && undone ==> k.rules == Foreign(old(k.rules))
    ensures !ok && steps != [] && k.ObedientFrom(old(k.clock) + |opening| + at + 1) ==>
      Clearable(PlanRules(plan), |ROUTE_PRIORITIES|) ==> undone
    ensures k.ObedientFrom(old(k.clock)) ==> (ok <==> Clearable(old(k.rules), |ROUTE_PRIORITIES|))
  {
    PlanIsReady(k.rules, plan);
    ghost var foreign := Foreign(k.rules);
    at, steps, undone := 0, [], false;
    var removed;
    removed, ok, opening := ClearRouteRules(k);
    if ok {
      ok, steps, at, undone := InstallAll(k, plan, foreign, PlanRules(plan));
    }
  }
}
