/** internal/vpn/exit.go's edits to the live rule table: one `ip rule` command
    at a time, any of which may fail, with a rollback on failure. */
module RouteEngine {
  import opened RuleTable
  import opened Sequences
  import opened Wrappers

  datatype Reply = Done | NoSuchRule | Failed

  /** A stretch of successive states of the table. */
  type States = seq<seq<Rule>>

  /** The live table, the fate of each command in turn, and every state so far. */
  class RuleKernel {
    var rules: seq<Rule>
    const fate: nat -> Fate
    var clock: nat
    ghost var history: States

    ghost predicate Valid() reads this {
      Sorted(rules)
    }

    /** From the t-th command on, the environment carries everything out. */
    ghost predicate ObedientFrom(t: nat) {
      forall u: nat :: t <= u ==> fate(u) == Obeyed
    }

    lemma StillObedient(t: nat, u: nat)
      requires ObedientFrom(t) && t <= u
      ensures ObedientFrom(u)
    {
    }

    constructor (rules: seq<Rule>, fate: nat -> Fate)
      requires Sorted(rules)
      ensures Valid() && this.rules == rules && this.fate == fate && clock == 0 && history == []
    {
      this.rules, this.fate, clock, history := rules, fate, 0, [];
    }

    /** `ip rule add` */
    method Add(r: Rule) returns (ok: bool)
      requires Valid()
      modifies this
      ensures Valid() && clock == old(clock) + 1 && history == old(history) + [rules]
      ensures rules == if fate(old(clock)) == Refused then old(rules) else Insert(old(rules), r)
      ensures ok <==> fate(old(clock)) == Obeyed
    {
      var f := fate(clock);
      if f != Refused {
        InsertSorted(rules, r);
        rules := Insert(rules, r);
      }
      clock, history := clock + 1, history + [rules];
      ok := f == Obeyed;
    }

    /** `ip rule del priority p`. Only the kernel says that there is no such rule. */
    method Delete(p: nat) returns (reply: Reply)
      requires Valid()
      modifies this
      ensures Valid() && clock == old(clock) + 1 && history == old(history) + [rules]
      ensures rules == if fate(old(clock)) == Refused || AtPriority(old(rules), p) == [] then old(rules)
                       else DeleteFirst(old(rules), p)
      ensures reply == if fate(old(clock)) != Obeyed then Failed
                       else if AtPriority(old(rules), p) == [] then NoSuchRule else Done
    {
      var f := fate(clock);
      var present := AtPriority(rules, p) != [];
      if f != Refused && present {
        DropSorted(rules, p, 1);
        rules := DeleteFirst(rules, p);
      }
      clock, history := clock + 1, history + [rules];
      reply := if f != Obeyed then Failed else if present then Done else NoSuchRule;
    }
  }

  function Last<T>(s: seq<T>, default: T): T {
    if s == [] then default else s[|s| - 1]
  }

  // ---- clearing one priority ----

  /** One deletion per command; the last command may have deleted nothing. */
  ghost predicate Trimming(before: seq<Rule>, steps: States, p: nat) {
    forall i :: 0 <= i < |steps| ==>
      steps[i] == Drop(before, p, i + 1) || (i == |steps| - 1 && steps[i] == Drop(before, p, i))
  }

  /** The deletion after `i` of them. */
  method DeleteNext(k: RuleKernel, p: nat, ghost before: seq<Rule>, ghost i: nat) returns (reply: Reply)
    requires k.Valid() && k.rules == Drop(before, p, i) && i <= |AtPriority(before, p)|
    modifies k
    ensures k.Valid() && k.clock == old(k.clock) + 1 && k.history == old(k.history) + [k.rules]
    ensures reply == Done ==> k.rules == Drop(before, p, i + 1) && i < |AtPriority(before, p)|
    ensures reply == NoSuchRule ==>
      k.rules == Drop(before, p, i) == Without(before, [p]) && i == |AtPriority(before, p)|
    ensures k.rules == Drop(before, p, i) || k.rules == Drop(before, p, i + 1)
    ensures reply == Failed <==> k.fate(old(k.clock)) != Obeyed
  {
    DropParts(before, p, i, []);
    DropOneMore(before, p, i);
    reply := k.Delete(p);
    if reply == NoSuchRule {
      DropAll(before, p, i);
    }
  }

  /** At most 64 deletions, the last of which has to find nothing: success means
      that there were at most 63 rules, and an undisturbed run with 64 or more
      removes 64 and still reports an error. */
  method ClearRulesAtPriority(k: RuleKernel, p: nat) returns (removed: nat, ok: bool, ghost steps: States)
    requires k.Valid()
    modifies k
    ensures k.Valid() && k.history == old(k.history) + steps && k.clock == old(k.clock) + |steps|
    ensures k.rules == Last(steps, old(k.rules)) && Trimming(old(k.rules), steps, p)
    ensures ok ==> k.rules == Without(old(k.rules), [p]) && removed == |AtPriority(old(k.rules), p)| <= 63
    ensures ok ==> |steps| == removed + 1
    ensures k.ObedientFrom(old(k.clock)) ==>
      && (ok <==> |AtPriority(old(k.rules), p)| <= 63)
      && removed == (if ok then |AtPriority(old(k.rules), p)| else 64)
      && k.rules == Drop(old(k.rules), p, removed)
  {
    removed, steps := 0, [];
    ghost var before := k.rules;
    for i := 0 to 64
      invariant k.Valid() && k.history == old(k.history) + steps && k.clock == old(k.clock) + |steps|
      invariant k.rules == Last(steps, before) == Drop(before, p, i)
      invariant forall j :: 0 <= j < |steps| ==> steps[j] == Drop(before, p, j + 1)
      invariant removed == i == |steps| <= |AtPriority(before, p)|
    {
      var reply := DeleteNext(k, p, before, i);
      steps := steps + [k.rules];
      if reply != Done {
        return removed, reply == NoSuchRule, steps;
      }
      removed := removed + 1;
    }
    return removed, false, steps;
  }

  // ---- clearing every owned priority ----

  /** The table when the first `n` priorities are clear. */
  function Upto(before: seq<Rule>, n: nat): seq<Rule>
    requires n <= |ROUTE_PRIORITIES|
  {
    Without(before, ROUTE_PRIORITIES[..n])
  }

  lemma UptoEnds(before: seq<Rule>)
    ensures Upto(before, 0) == before && Upto(before, |ROUTE_PRIORITIES|) == Foreign(before)
  {
    WithoutNothing(before, []);
    assert ROUTE_PRIORITIES[..|ROUTE_PRIORITIES|] == ROUTE_PRIORITIES;
  }

  /** The table when the first `n` priorities are clear and `d` rules of the next are gone. */
  function Partial(before: seq<Rule>, n: nat, d: nat): seq<Rule>
    requires n < |ROUTE_PRIORITIES|
  {
    Drop(Upto(before, n), ROUTE_PRIORITIES[n], d)
  }

  ghost predicate Unwound(before: seq<Rule>, now: seq<Rule>) {
    exists n: nat, d: nat :: n < |ROUTE_PRIORITIES| && now == Partial(before, n, d)
  }

  /** One command of a clear: it deletes the first rule at an owned priority, or nothing. */
  ghost predicate Fades(now: seq<Rule>, next: seq<Rule>) {
    next == now || exists i :: 0 <= i < |ROUTE_PRIORITIES| && next == DeleteFirst(now, ROUTE_PRIORITIES[i])
  }

  ghost predicate Fading(start: seq<Rule>, steps: States)
    decreases steps
  {
    steps == [] || (Fades(start, steps[0]) && Fading(steps[0], steps[1..]))
  }

  /** Successive states of a clear: deletions only, one after the other, in the order
      of the priorities. */
  ghost predicate Unwinding(before: seq<Rule>, steps: States) {
    Fading(before, steps) && forall s :: s in steps ==> Unwound(before, s)
  }

  lemma FadesOnly(now: seq<Rule>, next: seq<Rule>, r: Rule)
    requires Fades(now, next) && r !in now
    ensures r !in next
  {
    if next != now {
      var i :| 0 <= i < |ROUTE_PRIORITIES| && next == DeleteFirst(now, ROUTE_PRIORITIES[i]);
      DropParts(now, ROUTE_PRIORITIES[i], 1, []);
    }
  }

  /** What is gone stays gone. */
  lemma {:induction false} GoneForGood(start: seq<Rule>, steps: States, r: Rule, j: nat)
    requires Fading(start, steps) && r !in start && j < |steps|
    ensures r !in steps[j]
    decreases steps
  {
    FadesOnly(start, steps[0], r);
    if j > 0 {
      GoneForGood(steps[0], steps[1..], r, j - 1);
    }
  }

  lemma {:induction false} FadingOn(start: seq<Rule>, steps: States, i: nat)
    requires Fading(start, steps) && i < |steps|
    ensures Fading(steps[i], steps[i + 1..])
    decreases steps
  {
    if i == 0 {
    } else {
      FadingOn(steps[0], steps[1..], i - 1);
      assert steps[1..][i..] == steps[i + 1..];
    }
  }

  lemma GoneSince(start: seq<Rule>, steps: States, r: Rule, i: nat, j: nat)
    requires Fading(start, steps) && i <= j < |steps| && r !in steps[i]
    ensures r !in steps[j]
  {
    if i < j {
      FadingOn(start, steps, i);
      GoneForGood(steps[i], steps[i + 1..], r, j - i - 1);
    }
  }

  lemma {:induction false} TrimmingFades(before: seq<Rule>, p: nat, start: seq<Rule>, steps: States, d: nat)
    requires p in ROUTE_PRIORITIES && start == Drop(before, p, d)
    requires forall i :: 0 <= i < |steps| ==>
      steps[i] == Drop(before, p, d + i + 1) || (i == |steps| - 1 && steps[i] == Drop(before, p, d + i))
    ensures Fading(start, steps)
    decreases steps
  {
    if steps == [] {
    } else {
      DropOneMore(before, p, d);
      var i :| 0 <= i < |ROUTE_PRIORITIES| && ROUTE_PRIORITIES[i] == p;
      assert Fades(start, steps[0]);
      if |steps| > 1 {
        assert forall k :: 0 <= k < |steps| - 1 ==> steps[1..][k] == steps[k + 1];
        TrimmingFades(before, p, steps[0], steps[1..], d + 1);
      }
    }
  }

  lemma {:induction false} FadingConcat(start: seq<Rule>, steps: States, more: States)
    requires Fading(start, steps) && Fading(Last(steps, start), more)
    ensures Fading(start, steps + more)
    decreases steps
  {
    if steps == [] {
      assert steps + more == more;
    } else {
      FadingConcat(steps[0], steps[1..], more);
      assert (steps + more)[1..] == steps[1..] + more;
    }
  }

  /** No rule of this module but perhaps the bypass. */
  ghost predicate Bare(rules: seq<Rule>) {
    forall r :: r in rules && Owned(r) ==> r.priority == BYPASS_PRIORITY
  }

  lemma PrioritiesAscend(n: nat)
    requires n < |ROUTE_PRIORITIES|
    ensures forall p :: p in ROUTE_PRIORITIES[..n] ==> p < ROUTE_PRIORITIES[n] <= BYPASS_PRIORITY
    ensures n < 3 ==> ROUTE_PRIORITIES[n] < BYPASS_PRIORITY
  {
    forall p | p in ROUTE_PRIORITIES[..n] ensures p < ROUTE_PRIORITIES[n] {
      var i :| 0 <= i < n && ROUTE_PRIORITIES[..n][i] == p;
      assert ROUTE_PRIORITIES[i] < ROUTE_PRIORITIES[n];
    }
  }

  lemma PartialForeign(before: seq<Rule>, n: nat, d: nat)
    requires n < |ROUTE_PRIORITIES|
    ensures Foreign(Partial(before, n, d)) == Foreign(before)
  {
    var ps := ROUTE_PRIORITIES[..n];
    DropParts(Without(before, ps), ROUTE_PRIORITIES[n], d, ROUTE_PRIORITIES);
    WithoutTwice(before, ps, ROUTE_PRIORITIES);
    WithoutMore(before, ps, ROUTE_PRIORITIES);
  }

  lemma PartialMembers(before: seq<Rule>, n: nat, d: nat)
    requires n < |ROUTE_PRIORITIES|
    ensures forall r :: r in Partial(before, n, d) ==> r in before
    ensures Sorted(before) ==> Sorted(Partial(before, n, d))
  {
    var ps := ROUTE_PRIORITIES[..n];
    DropParts(Without(before, ps), ROUTE_PRIORITIES[n], d, []);
    WithoutMembers(before, ps);
    if Sorted(before) {
      WithoutSorted(before, ps);
      DropSorted(Without(before, ps), ROUTE_PRIORITIES[n], d);
    }
  }

  /** While one of the first three priorities is being cleared, the bypass is as it was. */
  lemma PartialKeepsBypass(before: seq<Rule>, n: nat, d: nat)
    requires n < 3
    ensures AtPriority(Partial(before, n, d), BYPASS_PRIORITY) == AtPriority(before, BYPASS_PRIORITY)
  {
    var ps := ROUTE_PRIORITIES[..n];
    DropParts(Without(before, ps), ROUTE_PRIORITIES[n], d, []);
    PrioritiesAscend(n);
    WithoutAtPriority(before, ps, BYPASS_PRIORITY);
  }

  lemma PartialBypass(before: seq<Rule>, n: nat, d: nat)
    requires n < |ROUTE_PRIORITIES|
    ensures Bare(Partial(before, n, d)) ||
      AtPriority(Partial(before, n, d), BYPASS_PRIORITY) == AtPriority(before, BYPASS_PRIORITY)
  {
    var ps := ROUTE_PRIORITIES[..n];
    DropParts(Without(before, ps), ROUTE_PRIORITIES[n], d, []);
    if n < 3 {
      PartialKeepsBypass(before, n, d);
    } else {
      WithoutMembers(before, ps);
      assert ps == [MESH_PRIORITY, EXCLUSION_PRIORITY, CONTAINER_PRIORITY];
    }
  }

  /** What a clear may leave at any moment: nobody else's rules change, nothing
      appears, and the bypass is only touched once the other three are gone. */
  lemma UnwoundParts(before: seq<Rule>, now: seq<Rule>)
    requires Unwound(before, now)
    ensures Foreign(now) == Foreign(before)
    ensures forall r :: r in now ==> r in before
    ensures Sorted(before) ==> Sorted(now)
    ensures Bare(now) || AtPriority(now, BYPASS_PRIORITY) == AtPriority(before, BYPASS_PRIORITY)
  {
    var n: nat, d: nat :| n < |ROUTE_PRIORITIES| && now == Partial(before, n, d);
    PartialForeign(before, n, d);
    PartialMembers(before, n, d);
    PartialBypass(before, n, d);
  }

  lemma UnwindingConcat(before: seq<Rule>, steps: States, start: seq<Rule>, more: States, n: nat)
    requires n < |ROUTE_PRIORITIES| && start == Upto(before, n) == Last(steps, before)
    requires Unwinding(before, steps) && Trimming(start, more, ROUTE_PRIORITIES[n])
    ensures Unwinding(before, steps + more) && Last(steps + more, before) == Last(more, start)
  {
    TrimmingFades(start, ROUTE_PRIORITIES[n], start, more, 0);
    FadingConcat(before, steps, more);
    forall i | 0 <= i < |more| ensures Unwound(before, more[i]) {
      assert more[i] == Partial(before, n, i + 1) || more[i] == Partial(before, n, i);
    }
  }

  lemma {:induction false} WithoutCounts(rules: seq<Rule>, p: nat)
    ensures |Without(rules, [p])| + |AtPriority(rules, p)| == |rules|
  {
    if rules == [] {
    } else {
      WithoutCounts(rules[1..], p);
    }
  }

  lemma NextPriority(before: seq<Rule>, n: nat)
    requires n < |ROUTE_PRIORITIES|
    ensures AtPriority(Upto(before, n), ROUTE_PRIORITIES[n]) == AtPriority(before, ROUTE_PRIORITIES[n])
    ensures Without(Upto(before, n), [ROUTE_PRIORITIES[n]]) == Upto(before, n + 1)
    ensures |Upto(before, n + 1)| == |Upto(before, n)| - |AtPriority(before, ROUTE_PRIORITIES[n])|
  {
    WithoutCounts(Without(before, ROUTE_PRIORITIES[..n]), ROUTE_PRIORITIES[n]);
    WithoutAtPriority(before, ROUTE_PRIORITIES[..n], ROUTE_PRIORITIES[n]);
    WithoutTwice(before, ROUTE_PRIORITIES[..n], [ROUTE_PRIORITIES[n]]);
    assert ROUTE_PRIORITIES[..n] + [ROUTE_PRIORITIES[n]] == ROUTE_PRIORITIES[..n + 1];
  }

  /** Few enough leftovers at each of the first `n` priorities for the clear to get through. */
  ghost predicate Clearable(rules: seq<Rule>, n: nat)
    requires n <= |ROUTE_PRIORITIES|
  {
    forall i :: 0 <= i < n ==> |AtPriority(rules, ROUTE_PRIORITIES[i])| <= 63
  }

  /** Where an undisturbed clear gives up: 64 rules of the first priority that has more
      than 63 are gone, and those of the priorities after it are all there. */
  ghost predicate StoppedHalfWay(before: seq<Rule>, now: seq<Rule>) {
    exists n: nat :: n < |ROUTE_PRIORITIES| && |AtPriority(before, ROUTE_PRIORITIES[n])| > 63 &&
      now == Partial(before, n, 64)
  }

  lemma NotClearable(rules: seq<Rule>, n: nat)
    requires n < |ROUTE_PRIORITIES|
    ensures |AtPriority(rules, ROUTE_PRIORITIES[n])| > 63 ==> !Clearable(rules, |ROUTE_PRIORITIES|)
  {
  }

  /** Clears each priority in turn and stops at the first that reports an error. */
  method ClearRouteRules(k: RuleKernel) returns (total: nat, ok: bool, ghost steps: States)
    requires k.Valid()
    modifies k
    ensures k.Valid() && k.history == old(k.history) + steps && k.clock == old(k.clock) + |steps|
    ensures k.rules == Last(steps, old(k.rules)) && Unwinding(old(k.rules), steps)
    ensures ok ==> k.rules == Foreign(old(k.rules)) && total == |old(k.rules)| - |k.rules|
    ensures ok ==> |steps| == total + |ROUTE_PRIORITIES|
    ensures k.ObedientFrom(old(k.clock)) && !ok ==> StoppedHalfWay(old(k.rules), k.rules)
    ensures k.ObedientFrom(old(k.clock)) ==> (ok <==> Clearable(old(k.rules), |ROUTE_PRIORITIES|))
  {
    total, steps := 0, [];
    ghost var before, obedient := k.rules, k.ObedientFrom(k.clock);
    UptoEnds(before);
    for n := 0 to |ROUTE_PRIORITIES|
      invariant k.Valid() && k.history == old(k.history) + steps && k.clock == old(k.clock) + |steps|
      invariant k.rules == Last(steps, before) == Upto(before, n)
      invariant Unwinding(before, steps)
      invariant total == |before| - |k.rules| && |steps| == total + n
      invariant obedient ==> Clearable(before, n)
    {
      ghost var start := k.rules;
      if obedient {
        k.StillObedient(old(k.clock), k.clock);
      }
      NextPriority(before, n);
      var removed, cleared, more := ClearRulesAtPriority(k, ROUTE_PRIORITIES[n]);
      UnwindingConcat(before, steps, start, more, n);
      Regroup(old(k.history), steps, more);
      total, steps := total + removed, steps + more;
      if !cleared {
        NotClearable(before, n);
        if obedient {
          assert k.rules == Partial(before, n, 64);
        }
        return total, false, steps;
      }
    }
    ok := true;
  }
}
