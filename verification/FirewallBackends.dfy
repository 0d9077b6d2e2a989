/** internal/firewall/iptables.go and nft.go: a full desired state is pushed by
    flushing and appending, one command at a time, any of which may fail. */
module FirewallBackends {
  import opened Wrappers
  import opened Firewall
  import opened Sequences

  const CHAIN_IN := "AW-FW-IN"
  const CHAIN_FWD := "AW-FW-FWD"

  predicate OwnChain(name: string) {
    name == CHAIN_IN || name == CHAIN_FWD
  }

  type Chains = map<string, seq<Compiled>>

  /** An entry of a hook chain: a jump to a chain, or somebody else's rule. */
  datatype HookEntry = Jump(chain: string) | Somebody(rule: nat)

  type Hooks = map<string, seq<HookEntry>>

  predicate Jumps(hooks: Hooks, hook: string, chain: string) {
    hook in hooks && Jump(chain) in hooks[hook]
  }

  /** The live packet filter, the fate of each command in turn, and every state so far. */
  class Netfilter {
    const dialect: Dialect
    const fate: nat -> Fate
    var clock: nat
    var table: bool
    var chains: Chains
    var hooks: Hooks
    ghost var history: seq<Chains>

    constructor (dialect: Dialect, fate: nat -> Fate, table: bool, chains: Chains, hooks: Hooks)
      ensures this.dialect == dialect && this.fate == fate && clock == 0 && this.table == table
      ensures this.chains == chains && this.hooks == hooks && history == []
    {
      this.dialect, this.fate, clock, history := dialect, fate, 0, [];
      this.table, this.chains, this.hooks := table, chains, hooks;
    }

    ghost predicate ObedientFrom(t: nat) {
      forall u: nat :: t <= u ==> fate(u) == Obeyed
    }

    /** A command that wants to leave the chains as `next`, and can when `able`. */
    method Attempt(able: bool, next: Chains) returns (ok: bool)
      modifies this`clock, this`chains, this`history
      ensures clock == old(clock) + 1 && history == old(history) + [chains]
      ensures chains == if able && fate(old(clock)) != Refused then next else old(chains)
      ensures ok <==> able && fate(old(clock)) == Obeyed
    {
      var f := fate(clock);
      if able && f != Refused {
        chains := next;
      }
      clock, history := clock + 1, history + [chains];
      ok := able && f == Obeyed;
    }

    /** `nft add table` */
    method AddTable() returns (ok: bool)
      modifies this`clock, this`table, this`history
      ensures clock == old(clock) + 1 && history == old(history) + [chains]
      ensures table == (old(table) || fate(old(clock)) != Refused)
      ensures ok <==> fate(old(clock)) == Obeyed
    {
      var f := fate(clock);
      table, clock, history := table || f != Refused, clock + 1, history + [chains];
      ok := f == Obeyed;
    }

    /** `iptables -I hook -j chain` */
    method InsertJump(hook: string, chain: string) returns (ok: bool)
      modifies this`clock, this`hooks, this`history
      ensures clock == old(clock) + 1 && history == old(history) + [chains]
      ensures hooks == if hook in old(hooks) && fate(old(clock)) != Refused
                       then old(hooks)[hook := [Jump(chain)] + old(hooks)[hook]] else old(hooks)
      ensures ok <==> hook in old(hooks) && fate(old(clock)) == Obeyed
    {
      var f := fate(clock);
      ok := hook in hooks && f == Obeyed;
      if hook in hooks && f != Refused {
        hooks := hooks[hook := [Jump(chain)] + hooks[hook]];
      }
      clock, history := clock + 1, history + [chains];
    }

    /** A command that reads, or touches no chain: only its reply matters here. */
    method Ask(answer: bool) returns (ok: bool)
      modifies this`clock, this`history
      ensures clock == old(clock) + 1 && history == old(history) + [chains]
      ensures ok <==> answer && fate(old(clock)) == Obeyed
    {
      ok := answer && fate(clock) == Obeyed;
      clock, history := clock + 1, history + [chains];
    }
  }

  /** A beginning of what some call compiles to. */
  ghost predicate Sound(d: Dialect, chain: seq<Compiled>) {
    exists rules: seq<UserRule>, lockdown: bool :: chain <= SpellAll(d, Ruleset(rules, lockdown))
  }

  /** What may become of the chains: an owned one keeps what it held or holds a
      beginning of a compiled list, and nobody else's chain changes. */
  ghost predicate Evolves(d: Dialect, before: Chains, now: Chains) {
    && (forall c :: c in before ==> c in now)
    && (forall c :: c in now ==>
          (c in before && now[c] == before[c]) || (OwnChain(c) && Sound(d, now[c])))
  }

  ghost predicate AllEvolve(d: Dialect, before: Chains, steps: seq<Chains>) {
    forall s :: s in steps ==> Evolves(d, before, s)
  }

  lemma EvolvesTwice(d: Dialect, a: Chains, b: Chains, c: Chains)
    requires Evolves(d, a, b) && Evolves(d, b, c)
    ensures Evolves(d, a, c)
  {
    forall n | n in c ensures (n in a && c[n] == a[n]) || (OwnChain(n) && Sound(d, c[n])) {
      if n in b && c[n] == b[n] {}
    }
  }

  lemma AllEvolveOnward(d: Dialect, a: Chains, b: Chains, steps: seq<Chains>)
    requires Evolves(d, a, b) && AllEvolve(d, b, steps)
    ensures AllEvolve(d, a, steps)
  {
    forall s | s in steps ensures Evolves(d, a, s) {
      EvolvesTwice(d, a, b, s);
    }
  }

  lemma PrefixSound(d: Dialect, rules: seq<UserRule>, lockdown: bool, chain: seq<Compiled>)
    requires chain <= SpellAll(d, Ruleset(rules, lockdown))
    ensures Sound(d, chain)
  {
  }

  lemma OneChainEvolves(d: Dialect, before: Chains, name: string, chain: seq<Compiled>)
    requires OwnChain(name) && Sound(d, chain)
    ensures Evolves(d, before, before[name := chain])
  {
  }

  lemma EmptyIsSound(d: Dialect)
    ensures Sound(d, [])
  {
    assert [] <= SpellAll(d, Ruleset([], false));
  }

  /** iptables: create, or else flush. */
  method EnsureIptablesChain(k: Netfilter, name: string) returns (ok: bool, ghost steps: seq<Chains>)
    requires OwnChain(name)
    modifies k`clock, k`chains, k`history
    ensures k.history == old(k.history) + steps && k.clock == old(k.clock) + |steps|
    ensures AllEvolve(k.dialect, old(k.chains), steps) && Evolves(k.dialect, old(k.chains), k.chains)
    ensures ok ==> k.chains == old(k.chains)[name := []]
    ensures ok <==>
      || (name !in old(k.chains) && k.fate(old(k.clock)) == Obeyed)
      || ((name in old(k.chains) || k.fate(old(k.clock)) == Garbled) && k.fate(old(k.clock) + 1) == Obeyed)
  {
    EmptyIsSound(k.dialect);
    OneChainEvolves(k.dialect, k.chains, name, []);
    ghost var before := k.chains;
    ok := k.Attempt(name !in k.chains, k.chains[name := []]);
    steps := [k.chains];
    if !ok {
      OneChainEvolves(k.dialect, before, name, []);
      ok := k.Attempt(name in k.chains, k.chains[name := []]);
      steps := steps + [k.chains];
    }
  }

  /** nft: create, ignoring the reply, then flush. A chain needs its table. */
  method EnsureNftChain(k: Netfilter, name: string) returns (ok: bool, ghost steps: seq<Chains>)
    requires OwnChain(name)
    modifies k`clock, k`chains, k`history
    ensures k.history == old(k.history) + steps && k.clock == old(k.clock) + |steps|
    ensures AllEvolve(k.dialect, old(k.chains), steps) && Evolves(k.dialect, old(k.chains), k.chains)
    ensures ok ==> k.chains == old(k.chains)[name := []]
    ensures ok <==>
      (name in old(k.chains) || (k.table && k.fate(old(k.clock)) != Refused)) && k.fate(old(k.clock) + 1) == Obeyed
  {
    EmptyIsSound(k.dialect);
    OneChainEvolves(k.dialect, k.chains, name, []);
    ghost var before := k.chains;
    var _ := k.Attempt(k.table && name !in k.chains, k.chains[name := []]);
    steps := [k.chains];
    OneChainEvolves(k.dialect, before, name, []);
    ok := k.Attempt(name in k.chains, k.chains[name := []]);
    steps := steps + [k.chains];
  }

  lemma PrefixEvolves(d: Dialect, before: Chains, name: string, full: seq<Compiled>, i: nat)
    requires OwnChain(name) && Sound(d, full) && i <= |full|
    ensures Evolves(d, before, before[name := full[..i]])
  {
    var rules, lockdown :| full <= SpellAll(d, Ruleset(rules, lockdown));
    PrefixSound(d, rules, lockdown, full[..i]);
  }

  lemma AppendOne(before: Chains, name: string, full: seq<Compiled>, i: nat)
    requires i < |full|
    ensures before[name := full[..i]][name := full[..i] + [full[i]]] == before[name := full[..i + 1]]
  {
    assert full[..i] + [full[i]] == full[..i + 1];
  }

  /** The chain holds a beginning of the list, and the other chains are as they were. */
  ghost predicate Filling(before: Chains, name: string, full: seq<Compiled>, now: Chains) {
    exists i :: 0 <= i <= |full| && now == before[name := full[..i]]
  }

  lemma FillingEvolves(d: Dialect, before: Chains, name: string, full: seq<Compiled>, now: Chains)
    requires OwnChain(name) && Sound(d, full) && Filling(before, name, full, now)
    ensures Evolves(d, before, now)
  {
    var i :| 0 <= i <= |full| && now == before[name := full[..i]];
    PrefixEvolves(d, before, name, full, i);
  }

  /** One append to a chain that holds the first `i` rules; a rule that the tool does
      not take is an error. */
  method AppendNext(k: Netfilter, name: string, full: seq<Compiled>, i: nat, ghost before: Chains) returns (ok: bool)
    requires i < |full| && k.chains == before[name := full[..i]]
    modifies k`clock, k`chains, k`history
    ensures k.history == old(k.history) + [k.chains] && k.clock == old(k.clock) + 1
    ensures k.chains == before[name := full[..i]] || k.chains == before[name := full[..i + 1]]
    ensures ok ==> k.chains == before[name := full[..i + 1]] && Accepts(full[i])
    ensures k.fate(old(k.clock)) == Obeyed ==> (ok <==> Accepts(full[i]))
  {
    AppendOne(before, name, full, i);
    ok := k.Attempt(Accepts(full[i]), k.chains[name := k.chains[name] + [full[i]]]);
  }

  /** Appends a list, rule by rule, to an empty chain. */
  method Fill(k: Netfilter, name: string, full: seq<Compiled>) returns (ok: bool, ghost steps: seq<Chains>)
    requires name in k.chains && k.chains[name] == []
    modifies k`clock, k`chains, k`history
    ensures k.history == old(k.history) + steps && k.clock == old(k.clock) + |steps|
    ensures forall s :: s in steps ==> Filling(old(k.chains), name, full, s)
    ensures Filling(old(k.chains), name, full, k.chains)
    ensures ok ==> k.chains == old(k.chains)[name := full] && AllAccepted(full)
    ensures k.ObedientFrom(old(k.clock)) ==> (ok <==> AllAccepted(full))
  {
    steps := [];
    ghost var before := k.chains;
    assert before == before[name := full[..0]];
    for i := 0 to |full|
      invariant k.history == old(k.history) + steps && k.clock == old(k.clock) + |steps|
      invariant forall s :: s in steps ==> Filling(before, name, full, s)
      invariant k.chains == before[name := full[..i]]
      invariant forall j :: 0 <= j < i ==> Accepts(full[j])
    {
      ok := AppendNext(k, name, full, i, before);
      Regroup(old(k.history), steps, [k.chains]);
      steps := steps + [k.chains];
      if !ok {
        return;
      }
    }
    assert full[..|full|] == full;
    ok := true;
  }

  /** Appends a compiled list: the chains evolve throughout. */
  method AppendAll(k: Netfilter, name: string, full: seq<Compiled>) returns (ok: bool, ghost steps: seq<Chains>)
    requires OwnChain(name) && name in k.chains && k.chains[name] == [] && Sound(k.dialect, full)
    modifies k`clock, k`chains, k`history
    ensures k.history == old(k.history) + steps && k.clock == old(k.clock) + |steps|
    ensures AllEvolve(k.dialect, old(k.chains), steps) && Evolves(k.dialect, old(k.chains), k.chains)
    ensures ok ==> k.chains == old(k.chains)[name := full] && AllAccepted(full)
    ensures k.ObedientFrom(old(k.clock)) ==> (ok <==> AllAccepted(full))
  {
    ghost var before := k.chains;
    ok, steps := Fill(k, name, full);
    forall s | s in steps ensures Evolves(k.dialect, before, s) {
      FillingEvolves(k.dialect, before, name, full, s);
    }
    FillingEvolves(k.dialect, before, name, full, k.chains);
  }

  // ---- jumps from the hooks ----

  /** The hooks after a check and, unless it says yes, an insert at the head. */
  function Jumped(hooks: Hooks, hook: string, chain: string, check: Fate, insert: Fate): Hooks {
    if Jumps(hooks, hook, chain) && check == Obeyed then hooks
    else if hook in hooks && insert != Refused then hooks[hook := [Jump(chain)] + hooks[hook]]
    else hooks
  }

  /** One check for a jump, and when it was made. */
  datatype JumpCheck = JumpCheck(hook: string, chain: string, at: nat)

  function JumpedAll(fate: nat -> Fate, hooks: Hooks, checks: seq<JumpCheck>): Hooks {
    if checks == [] then hooks
    else
      var last := checks[|checks| - 1];
      Jumped(JumpedAll(fate, hooks, checks[..|checks| - 1]), last.hook, last.chain, fate(last.at), fate(last.at + 1))
  }

  lemma JumpedMore(fate: nat -> Fate, hooks: Hooks, checks: seq<JumpCheck>, c: JumpCheck)
    ensures JumpedAll(fate, hooks, checks + [c])
         == Jumped(JumpedAll(fate, hooks, checks), c.hook, c.chain, fate(c.at), fate(c.at + 1))
  {
    assert (checks + [c])[..|checks|] == checks;
  }

  lemma {:induction false} JumpedOnward(fate: nat -> Fate, hooks: Hooks, a: seq<JumpCheck>, b: seq<JumpCheck>)
    ensures JumpedAll(fate, JumpedAll(fate, hooks, a), b) == JumpedAll(fate, hooks, a + b)
  {
    if b == [] {
      assert a + b == a;
    } else {
      var front, last := b[..|b| - 1], b[|b| - 1];
      assert b == front + [last] && a + b == (a + front) + [last];
      JumpedOnward(fate, hooks, a, front);
      JumpedMore(fate, JumpedAll(fate, hooks, a), front, last);
      JumpedMore(fate, hooks, a + front, last);
    }
  }

  /** No hook jumps to a chain twice. */
  ghost predicate OneJump(hooks: Hooks) {
    forall h :: h in hooks ==> NoJumpTwice(hooks[h])
  }

  ghost predicate NoJumpTwice(entries: seq<HookEntry>) {
    forall i, j :: 0 <= i < j < |entries| && entries[i].Jump? ==> entries[i] != entries[j]
  }

  /** Hooks only gain jumps to this module's chains, at the head. */
  ghost predicate Grown(before: Hooks, now: Hooks) {
    now.Keys == before.Keys && forall h :: h in before ==> Extended(before[h], now[h])
  }

  ghost predicate Extended(before: seq<HookEntry>, now: seq<HookEntry>) {
    now == before || (now != [] && now[0].Jump? && OwnChain(now[0].chain) && Extended(before, now[1..]))
  }

  lemma {:induction false} ExtendedTwice(a: seq<HookEntry>, b: seq<HookEntry>, c: seq<HookEntry>)
    requires Extended(a, b) && Extended(b, c)
    ensures Extended(a, c)
  {
    if c != b {
      ExtendedTwice(a, b, c[1..]);
    }
  }

  lemma GrownTwice(a: Hooks, b: Hooks, c: Hooks)
    requires Grown(a, b) && Grown(b, c)
    ensures Grown(a, c)
  {
    forall h | h in a ensures Extended(a[h], c[h]) {
      ExtendedTwice(a[h], b[h], c[h]);
    }
  }

  lemma JumpedGrows(hooks: Hooks, hook: string, chain: string, check: Fate, insert: Fate)
    requires OwnChain(chain)
    ensures Grown(hooks, Jumped(hooks, hook, chain, check, insert))
  {
    var now := Jumped(hooks, hook, chain, check, insert);
    forall h | h in hooks ensures Extended(hooks[h], now[h]) {
      assert now[h] == hooks[h] || now[h][1..] == hooks[h];
    }
  }

  lemma GrownMore(before: Hooks, now: Hooks, hook: string, chain: string, check: Fate, insert: Fate)
    requires OwnChain(chain) && Grown(before, now)
    ensures Grown(before, Jumped(now, hook, chain, check, insert))
  {
    JumpedGrows(now, hook, chain, check, insert);
    GrownTwice(before, now, Jumped(now, hook, chain, check, insert));
  }

  /** A jump is put in beside one that is there. */
  ghost predicate Doubles(hooks: Hooks, hook: string, chain: string, check: Fate, insert: Fate) {
    Jumps(hooks, hook, chain) && check != Obeyed && insert != Refused
  }

  lemma HeadJump(entries: seq<HookEntry>, chain: string)
    ensures NoJumpTwice([Jump(chain)] + entries) <==> NoJumpTwice(entries) && Jump(chain) !in entries
  {
    var more := [Jump(chain)] + entries;
    assert forall i :: 0 <= i < |entries| ==> more[i + 1] == entries[i];
    if NoJumpTwice(more) {
      forall i, j | 0 <= i < j < |entries| && entries[i].Jump? ensures entries[i] != entries[j] {
        assert more[i + 1] != more[j + 1];
      }
      forall i | 0 <= i < |entries| ensures entries[i] != Jump(chain) {
        assert more[0] != more[i + 1];
      }
    }
  }

  lemma JumpedOnceExactly(hooks: Hooks, hook: string, chain: string, check: Fate, insert: Fate)
    ensures OneJump(Jumped(hooks, hook, chain, check, insert))
       <==> OneJump(hooks) && !Doubles(hooks, hook, chain, check, insert)
  {
    var now := Jumped(hooks, hook, chain, check, insert);
    if now != hooks {
      HeadJump(hooks[hook], chain);
      assert forall h :: h in hooks && h != hook ==> now[h] == hooks[h];
      if OneJump(now) {
        assert NoJumpTwice(now[hook]);
        assert forall h :: h in hooks ==> NoJumpTwice(now[h]);
      }
    }
  }

  /** The check at `i` finds a jump there, goes wrong, and lets a second one in. */
  ghost predicate DoublesAt(fate: nat -> Fate, hooks: Hooks, checks: seq<JumpCheck>, i: nat)
    requires i < |checks|
  {
    Doubles(JumpedAll(fate, hooks, checks[..i]), checks[i].hook, checks[i].chain, fate(checks[i].at),
            fate(checks[i].at + 1))
  }

  lemma DoublesEarlier(fate: nat -> Fate, hooks: Hooks, checks: seq<JumpCheck>, n: nat, i: nat)
    requires i < n <= |checks|
    ensures DoublesAt(fate, hooks, checks[..n], i) <==> DoublesAt(fate, hooks, checks, i)
  {
    assert checks[..n][..i] == checks[..i];
  }

  /** Over any run of checks and inserts, the hooks keep one jump each exactly when no check
      that goes wrong lets a second one in. */
  lemma {:induction false} OneJumpExactly(fate: nat -> Fate, hooks: Hooks, checks: seq<JumpCheck>)
    ensures OneJump(JumpedAll(fate, hooks, checks))
       <==> OneJump(hooks) && forall i :: 0 <= i < |checks| ==> !DoublesAt(fate, hooks, checks, i)
  {
    if checks == [] {
    } else {
      var n := |checks| - 1;
      var front, last := checks[..n], checks[n];
      OneJumpExactly(fate, hooks, front);
      JumpedOnceExactly(JumpedAll(fate, hooks, front), last.hook, last.chain, fate(last.at), fate(last.at + 1));
      forall i | 0 <= i < n ensures DoublesAt(fate, hooks, front, i) <==> DoublesAt(fate, hooks, checks, i) {
        DoublesEarlier(fate, hooks, checks, n, i);
      }
      assert DoublesAt(fate, hooks, checks, n) <==>
        Doubles(JumpedAll(fate, hooks, front), last.hook, last.chain, fate(last.at), fate(last.at + 1));
    }
  }

  lemma {:induction false} JumpsGrow(fate: nat -> Fate, hooks: Hooks, checks: seq<JumpCheck>)
    requires forall c :: c in checks ==> OwnChain(c.chain)
    ensures Grown(hooks, JumpedAll(fate, hooks, checks))
  {
    if checks == [] {
    } else {
      var front, last := checks[..|checks| - 1], checks[|checks| - 1];
      JumpsGrow(fate, hooks, front);
      GrownMore(hooks, JumpedAll(fate, hooks, front), last.hook, last.chain, fate(last.at), fate(last.at + 1));
    }
  }

  /** Check, or else insert at the head. */
  method EnsureJump(k: Netfilter, hook: string, chain: string) returns (ok: bool, ghost steps: seq<Chains>)
    modifies k`clock, k`hooks, k`history
    ensures k.history == old(k.history) + steps && k.clock == old(k.clock) + |steps|
    ensures steps != [] && forall s :: s in steps ==> s == k.chains
    ensures k.hooks == Jumped(old(k.hooks), hook, chain, k.fate(old(k.clock)), k.fate(old(k.clock) + 1))
    ensures ok ==> Jumps(k.hooks, hook, chain)
    ensures k.fate(old(k.clock)) == Obeyed && Jumps(old(k.hooks), hook, chain) ==> ok
    ensures k.ObedientFrom(old(k.clock)) && hook in old(k.hooks) ==> ok
  {
    ok := k.Ask(Jumps(k.hooks, hook, chain));
    steps := [k.chains];
    if !ok {
      ok := k.InsertJump(hook, chain);
      steps := steps + [k.chains];
    }
  }

  lemma StandingStillEvolves(d: Dialect, chains: Chains, steps: seq<Chains>)
    requires forall s :: s in steps ==> s == chains
    ensures AllEvolve(d, chains, steps)
  {
  }

  /** The stretch `more`, run from `now`, added to one run from `before` to `now`. */
  lemma Onward(d: Dialect, before: Chains, steps: seq<Chains>, now: Chains, more: seq<Chains>, next: Chains)
    requires AllEvolve(d, before, steps) && Evolves(d, before, now)
    requires AllEvolve(d, now, more) && Evolves(d, now, next)
    ensures AllEvolve(d, before, steps + more) && Evolves(d, before, next)
  {
    AllEvolveOnward(d, before, now, more);
    EvolvesTwice(d, before, now, next);
  }

  /** The chain does to every packet what the user's rules mean. */
  ghost predicate InForce(chain: seq<Compiled>, d: Dialect, rules: seq<UserRule>, lockdown: bool) {
    forall pkt :: Meant(chain, d, rules, lockdown, pkt)
  }

  /** buildRuleset, spelled for the backend. */
  method Compile(d: Dialect, rules: seq<UserRule>, lockdown: bool) returns (full: seq<Compiled>)
    ensures full == SpellAll(d, Ruleset(rules, lockdown)) && Sound(d, full)
    ensures AllAccepted(full) <==> RulesTaken(d, rules)
    ensures InForce(full, d, rules, lockdown)
  {
    var ruleset := BuildRuleset(rules, lockdown);
    full := SpellAll(d, ruleset);
    PrefixSound(d, rules, lockdown, full);
    RulesetAcceptedExactly(d, rules, lockdown);
    assert InForce(full, d, rules, lockdown);
  }

  /** The hooks are the same ones, and all but these hold what they held. */
  ghost predicate Untouched(before: Hooks, now: Hooks, but: set<string>) {
    now.Keys == before.Keys && forall h :: h in before && h !in but ==> now[h] == before[h]
  }

  lemma {:induction false} JumpedUntouched(fate: nat -> Fate, hooks: Hooks, checks: seq<JumpCheck>, but: set<string>)
    requires forall c :: c in checks ==> c.hook in but
    ensures Untouched(hooks, JumpedAll(fate, hooks, checks), but)
  {
    if checks == [] {
    } else {
      var front, last := checks[..|checks| - 1], checks[|checks| - 1];
      assert last in checks;
      JumpedUntouched(fate, hooks, front, but);
    }
  }

  /** The chain created or flushed, and hooked. */
  method HookUp(k: Netfilter, hook: string, name: string)
    returns (ok: bool, ghost steps: seq<Chains>, ghost checks: seq<JumpCheck>)
    requires OwnChain(name)
    modifies k`clock, k`chains, k`hooks, k`history
    ensures k.history == old(k.history) + steps && k.clock == old(k.clock) + |steps|
    ensures AllEvolve(k.dialect, old(k.chains), steps) && Evolves(k.dialect, old(k.chains), k.chains)
    ensures ok ==> k.chains == old(k.chains)[name := []] && Jumps(k.hooks, hook, name)
    ensures checks == [] || exists at :: old(k.clock) <= at < k.clock && checks == [JumpCheck(hook, name, at)]
    ensures k.hooks == JumpedAll(k.fate, old(k.hooks), checks)
    ensures k.ObedientFrom(old(k.clock)) && hook in old(k.hooks) ==> ok
  {
    ghost var before, past, hooks := k.chains, k.history, k.hooks;
    ok, steps := EnsureIptablesChain(k, name);
    checks := [];
    if !ok {
      return;
    }
    ghost var more;
    checks := [JumpCheck(hook, name, k.clock)];
    ok, more := EnsureJump(k, hook, name);
    StandingStillEvolves(k.dialect, k.chains, more);
    Onward(k.dialect, before, steps, k.chains, more, k.chains);
    Regroup(past, steps, more);
    steps := steps + more;
  }

  /** One chain of the iptables backend: created or flushed, hooked, filled. */
  method ApplyIptablesChain(k: Netfilter, hook: string, name: string, full: seq<Compiled>)
    returns (ok: bool, ghost steps: seq<Chains>, ghost checks: seq<JumpCheck>)
    requires OwnChain(name) && Sound(k.dialect, full)
    modifies k`clock, k`chains, k`hooks, k`history
    ensures k.history == old(k.history) + steps && k.clock == old(k.clock) + |steps|
    ensures AllEvolve(k.dialect, old(k.chains), steps) && Evolves(k.dialect, old(k.chains), k.chains)
    ensures ok ==> k.chains == old(k.chains)[name := full] && Jumps(k.hooks, hook, name)
    ensures checks == [] || exists at :: old(k.clock) <= at < k.clock && checks == [JumpCheck(hook, name, at)]
    ensures k.hooks == JumpedAll(k.fate, old(k.hooks), checks)
    ensures ok ==> AllAccepted(full)
    ensures k.ObedientFrom(old(k.clock)) && hook in old(k.hooks) ==> (ok <==> AllAccepted(full))
  {
    ghost var before, past := k.chains, k.history;
    ok, steps, checks := HookUp(k, hook, name);
    if !ok {
      return;
    }
    ghost var now, more := k.chains, [];
    ok, more := AppendAll(k, name, full);
    Onward(k.dialect, before, steps, now, more, k.chains);
    Regroup(past, steps, more);
    steps := steps + more;
  }

  lemma {:induction false} EntriesStay(before: seq<HookEntry>, now: seq<HookEntry>, e: HookEntry)
    requires Extended(before, now) && e in before
    ensures e in now
  {
    if now != before {
      EntriesStay(before, now[1..], e);
    }
  }

  /** A jump that is there stays there. */
  lemma JumpsStay(before: Hooks, now: Hooks, hook: string, chain: string)
    requires Grown(before, now) && Jumps(before, hook, chain)
    ensures Jumps(now, hook, chain)
  {
    EntriesStay(before[hook], now[hook], Jump(chain));
  }

  ghost predicate ChecksWithin(checks: seq<JumpCheck>, lo: nat, hi: nat) {
    forall c :: c in checks ==> OwnChain(c.chain) && lo <= c.at < hi
  }

  /** Only these hooks are looked at. */
  ghost predicate ChecksAt(checks: seq<JumpCheck>, hooks: set<string>) {
    forall c :: c in checks ==> c.hook in hooks
  }

  /** Checks made one after another: what is hooked up by the first stays so. */
  lemma HookedOnward(fate: nat -> Fate, hooks: Hooks, a: seq<JumpCheck>, b: seq<JumpCheck>, hook: string, chain: string)
    requires forall c :: c in a || c in b ==> OwnChain(c.chain)
    ensures JumpedAll(fate, JumpedAll(fate, hooks, a), b) == JumpedAll(fate, hooks, a + b)
    ensures JumpedAll(fate, hooks, a).Keys == hooks.Keys
    ensures Jumps(JumpedAll(fate, hooks, a), hook, chain) ==> Jumps(JumpedAll(fate, hooks, a + b), hook, chain)
  {
    JumpsGrow(fate, hooks, a);
    JumpsGrow(fate, JumpedAll(fate, hooks, a), b);
    JumpedOnward(fate, hooks, a, b);
    if Jumps(JumpedAll(fate, hooks, a), hook, chain) {
      JumpsStay(JumpedAll(fate, hooks, a), JumpedAll(fate, hooks, a + b), hook, chain);
    }
  }

  /** The hook of the forward chain: DOCKER-USER where the question whether that is there
      is answered with yes, and FORWARD otherwise. */
  method ApplyForward(k: Netfilter, full: seq<Compiled>)
    returns (ok: bool, ghost steps: seq<Chains>, ghost checks: seq<JumpCheck>)
    requires Sound(k.dialect, full)
    modifies k`clock, k`chains, k`hooks, k`history
    ensures k.history == old(k.history) + steps && k.clock == old(k.clock) + |steps| && steps != []
    ensures AllEvolve(k.dialect, old(k.chains), steps) && Evolves(k.dialect, old(k.chains), k.chains)
    ensures ok ==> k.chains == old(k.chains)[CHAIN_FWD := full] && AllAccepted(full)
    ensures k.fate(old(k.clock)) == Obeyed && "DOCKER-USER" in old(k.hooks) ==>
      && (ok ==> Jumps(k.hooks, "DOCKER-USER", CHAIN_FWD))
      && ChecksAt(checks, {"DOCKER-USER"}) && Untouched(old(k.hooks), k.hooks, {"DOCKER-USER"})
    ensures k.fate(old(k.clock)) != Obeyed || "DOCKER-USER" !in old(k.hooks) ==>
      && (ok ==> Jumps(k.hooks, "FORWARD", CHAIN_FWD))
      && ChecksAt(checks, {"FORWARD"}) && Untouched(old(k.hooks), k.hooks, {"FORWARD"})
    ensures ChecksWithin(checks, old(k.clock), k.clock)
    ensures k.hooks == JumpedAll(k.fate, old(k.hooks), checks)
    ensures k.ObedientFrom(old(k.clock)) && "FORWARD" in old(k.hooks) ==> (ok <==> AllAccepted(full))
  {
    ghost var before, past, hooks := k.chains, k.history, k.hooks;
    var docker := k.Ask("DOCKER-USER" in k.hooks);
    StandingStillEvolves(k.dialect, before, [before]);
    ghost var more;
    var hook := if docker then "DOCKER-USER" else "FORWARD";
    ok, more, checks := ApplyIptablesChain(k, hook, CHAIN_FWD, full);
    JumpedUntouched(k.fate, hooks, checks, {hook});
    Onward(k.dialect, before, [before], before, more, k.chains);
    Regroup(past, [before], more);
    steps := [before] + more;
  }

  /** Both chains of the iptables backend; `asked` is when it asks for DOCKER-USER, if it
      gets there. */
  method ApplyIptablesChains(k: Netfilter, full: seq<Compiled>)
    returns (ok: bool, ghost steps: seq<Chains>, ghost checks: seq<JumpCheck>, ghost asked: nat)
    requires Sound(k.dialect, full)
    modifies k`clock, k`chains, k`hooks, k`history
    ensures k.history == old(k.history) + steps && k.clock == old(k.clock) + |steps|
    ensures AllEvolve(k.dialect, old(k.chains), steps) && Evolves(k.dialect, old(k.chains), k.chains)
    ensures ok ==> k.chains == old(k.chains)[CHAIN_IN := full][CHAIN_FWD := full] && AllAccepted(full)
    ensures ok ==> Jumps(k.hooks, "INPUT", CHAIN_IN) && old(k.clock) <= asked < k.clock
    ensures k.fate(asked) == Obeyed && "DOCKER-USER" in old(k.hooks) ==>
      (ok ==> Jumps(k.hooks, "DOCKER-USER", CHAIN_FWD)) && ChecksAt(checks, {"INPUT", "DOCKER-USER"})
    ensures k.fate(asked) != Obeyed || "DOCKER-USER" !in old(k.hooks) ==>
      (ok ==> Jumps(k.hooks, "FORWARD", CHAIN_FWD)) && ChecksAt(checks, {"INPUT", "FORWARD"})
    ensures ChecksWithin(checks, old(k.clock), k.clock)
    ensures k.hooks == JumpedAll(k.fate, old(k.hooks), checks)
    ensures k.ObedientFrom(old(k.clock)) && "INPUT" in old(k.hooks) && "FORWARD" in old(k.hooks) ==>
      (ok <==> AllAccepted(full))
  {
    ghost var before, past, hooks := k.chains, k.history, k.hooks;
    ok, steps, checks := ApplyIptablesChain(k, "INPUT", CHAIN_IN, full);
    asked := k.clock;
    if !ok {
      return;
    }
    HookedOnward(k.fate, hooks, checks, [], "INPUT", CHAIN_IN);
    ghost var now, more, again := k.chains, [], [];
    ok, more, again := ApplyForward(k, full);
    HookedOnward(k.fate, hooks, checks, again, "INPUT", CHAIN_IN);
    checks := checks + again;
    Onward(k.dialect, before, steps, now, more, k.chains);
    Regroup(past, steps, more);
    steps := steps + more;
  }

  /** iptablesBackend.Apply */
  method ApplyIptables(k: Netfilter, rules: seq<UserRule>, lockdown: bool)
    returns (ok: bool, ghost steps: seq<Chains>, ghost checks: seq<JumpCheck>, ghost asked: nat)
    requires k.dialect == Iptables
    modifies k`clock, k`chains, k`hooks, k`history
    ensures k.history == old(k.history) + steps && k.clock == old(k.clock) + |steps|
    ensures AllEvolve(Iptables, old(k.chains), steps) && Evolves(Iptables, old(k.chains), k.chains)
    ensures ok ==> var full := SpellAll(Iptables, Ruleset(rules, lockdown));
      k.chains == old(k.chains)[CHAIN_IN := full][CHAIN_FWD := full]
    ensures ok ==> InForce(k.chains[CHAIN_IN], Iptables, rules, lockdown)
    ensures ok ==> InForce(k.chains[CHAIN_FWD], Iptables, rules, lockdown)
    ensures ok ==> Jumps(k.hooks, "INPUT", CHAIN_IN) && old(k.clock) <= asked < k.clock
    ensures k.fate(asked) == Obeyed && "DOCKER-USER" in old(k.hooks) ==>
      (ok ==> Jumps(k.hooks, "DOCKER-USER", CHAIN_FWD)) && Untouched(old(k.hooks), k.hooks, {"INPUT", "DOCKER-USER"})
    ensures k.fate(asked) != Obeyed || "DOCKER-USER" !in old(k.hooks) ==>
      (ok ==> Jumps(k.hooks, "FORWARD", CHAIN_FWD)) && Untouched(old(k.hooks), k.hooks, {"INPUT", "FORWARD"})
    ensures ChecksWithin(checks, old(k.clock), k.clock)
    ensures k.hooks == JumpedAll(k.fate, old(k.hooks), checks)
    ensures ok ==> RulesTaken(Iptables, rules)
    ensures k.ObedientFrom(old(k.clock)) && "INPUT" in old(k.hooks) && "FORWARD" in old(k.hooks) ==>
      (ok <==> RulesTaken(Iptables, rules))
  {
    var full := Compile(Iptables, rules, lockdown);
    ghost var hooks := k.hooks;
    ok, steps, checks, asked := ApplyIptablesChains(k, full);
    JumpedUntouched(k.fate, hooks, checks,
      if k.fate(asked) == Obeyed && "DOCKER-USER" in hooks then {"INPUT", "DOCKER-USER"} else {"INPUT", "FORWARD"});
  }

  /** One chain of the nft backend. */
  method ApplyNftChain(k: Netfilter, name: string, full: seq<Compiled>) returns (ok: bool, ghost steps: seq<Chains>)
    requires OwnChain(name) && Sound(k.dialect, full)
    modifies k`clock, k`chains, k`history
    ensures k.history == old(k.history) + steps && k.clock == old(k.clock) + |steps|
    ensures AllEvolve(k.dialect, old(k.chains), steps) && Evolves(k.dialect, old(k.chains), k.chains)
    ensures ok ==> k.chains == old(k.chains)[name := full] && AllAccepted(full)
    ensures k.ObedientFrom(old(k.clock)) && k.table ==> (ok <==> AllAccepted(full))
  {
    ghost var before, past := k.chains, k.history;
    ok, steps := EnsureNftChain(k, name);
    if !ok {
      return;
    }
    ghost var now, more := k.chains, [];
    ok, more := AppendAll(k, name, full);
    Onward(k.dialect, before, steps, now, more, k.chains);
    Regroup(past, steps, more);
    steps := steps + more;
  }

  /** Both chains of the nft backend. */
  method ApplyNftChains(k: Netfilter, full: seq<Compiled>) returns (ok: bool, ghost steps: seq<Chains>)
    requires Sound(k.dialect, full)
    modifies k`clock, k`chains, k`history
    ensures k.history == old(k.history) + steps && k.clock == old(k.clock) + |steps|
    ensures AllEvolve(k.dialect, old(k.chains), steps) && Evolves(k.dialect, old(k.chains), k.chains)
    ensures ok ==> k.chains == old(k.chains)[CHAIN_IN := full][CHAIN_FWD := full] && AllAccepted(full)
    ensures k.ObedientFrom(old(k.clock)) && k.table ==> (ok <==> AllAccepted(full))
  {
    ghost var before, past := k.chains, k.history;
    ok, steps := ApplyNftChain(k, CHAIN_IN, full);
    if !ok {
      return;
    }
    ghost var now, more := k.chains, [];
    ok, more := ApplyNftChain(k, CHAIN_FWD, full);
    Onward(k.dialect, before, steps, now, more, k.chains);
    Regroup(past, steps, more);
    steps := steps + more;
  }

  /** A failed modprobe is ignored. */
  method EnsureTable(k: Netfilter) returns (ok: bool, ghost steps: seq<Chains>)
    modifies k`clock, k`table, k`history
    ensures k.history == old(k.history) + steps && k.clock == old(k.clock) + |steps| && |steps| == 2
    ensures forall s :: s in steps ==> s == k.chains
    ensures ok ==> k.table
    ensures ok <==> k.fate(old(k.clock) + 1) == Obeyed
  {
    var _ := k.Ask(true);
    ok := k.AddTable();
    steps := [k.chains, k.chains];
  }

  /** nftBackend.Apply */
  method ApplyNft(k: Netfilter, rules: seq<UserRule>, lockdown: bool) returns (ok: bool, ghost steps: seq<Chains>)
    requires k.dialect == Nft
    modifies k`clock, k`table, k`chains, k`history
    ensures k.history == old(k.history) + steps && k.clock == old(k.clock) + |steps|
    ensures AllEvolve(Nft, old(k.chains), steps) && Evolves(Nft, old(k.chains), k.chains)
    ensures ok ==> var full := SpellAll(Nft, Ruleset(rules, lockdown));
      k.chains == old(k.chains)[CHAIN_IN := full][CHAIN_FWD := full]
    ensures ok ==> InForce(k.chains[CHAIN_IN], Nft, rules, lockdown)
    ensures ok ==> InForce(k.chains[CHAIN_FWD], Nft, rules, lockdown)
    ensures ok ==> RulesTaken(Nft, rules)
    ensures k.ObedientFrom(old(k.clock) + 1) ==> (ok <==> RulesTaken(Nft, rules))
  {
    ghost var before, past := k.chains, k.history;
    ok, steps := EnsureTable(k);
    StandingStillEvolves(Nft, before, steps);
    if !ok {
      return;
    }
    var full := Compile(Nft, rules, lockdown);
    ghost var more;
    ok, more := ApplyNftChains(k, full);
    Onward(Nft, before, steps, before, more, k.chains);
    Regroup(past, steps, more);
    steps := steps + more;
  }

  // ---- over a whole run ----

  datatype Call = Call(rules: seq<UserRule>, lockdown: bool)

  ghost predicate SoundChains(d: Dialect, chains: Chains) {
    forall c :: c in chains && OwnChain(c) ==> Sound(d, chains[c])
  }

  ghost predicate Answered(fate: nat -> Fate, checks: seq<JumpCheck>) {
    forall c :: c in checks ==> fate(c.at) == Obeyed
  }

  /** As long as every check is answered, no hook comes to jump to a chain twice, and in any
      case hooks only gain jumps to the two chains. */
  lemma HooksOverRun(fate: nat -> Fate, hooks: Hooks, checks: seq<JumpCheck>, lo: nat, hi: nat)
    requires ChecksWithin(checks, lo, hi)
    ensures Grown(hooks, JumpedAll(fate, hooks, checks))
    ensures OneJump(hooks) && Answered(fate, checks) ==>
      OneJump(JumpedAll(fate, hooks, checks))
  {
    JumpsGrow(fate, hooks, checks);
    OneJumpExactly(fate, hooks, checks);
  }

  /** Any sequence of Apply calls, each of which may fail anywhere. */
  method ApplyMany(k: Netfilter, calls: seq<Call>) returns (ghost steps: seq<Chains>, ghost checks: seq<JumpCheck>)
    modifies k
    ensures k.history == old(k.history) + steps && k.clock == old(k.clock) + |steps|
    ensures AllEvolve(k.dialect, old(k.chains), steps) && Evolves(k.dialect, old(k.chains), k.chains)
    ensures ChecksWithin(checks, old(k.clock), k.clock)
    ensures k.hooks == JumpedAll(k.fate, old(k.hooks), checks)
    ensures Grown(old(k.hooks), k.hooks)
    ensures old(OneJump(k.hooks)) && Answered(k.fate, checks) ==> OneJump(k.hooks)
  {
    steps, checks := [], [];
    ghost var before, past, hooks := k.chains, k.history, k.hooks;
    for i := 0 to |calls|
      invariant k.history == past + steps && k.clock == old(k.clock) + |steps|
      invariant AllEvolve(k.dialect, before, steps) && Evolves(k.dialect, before, k.chains)
      invariant ChecksWithin(checks, old(k.clock), k.clock)
      invariant k.hooks == JumpedAll(k.fate, hooks, checks)
    {
      ghost var now, more, again := k.chains, [], [];
      var ok;
      if k.dialect == Nft {
        ok, more := ApplyNft(k, calls[i].rules, calls[i].lockdown);
      } else {
        ghost var asked;
        ok, more, again, asked := ApplyIptables(k, calls[i].rules, calls[i].lockdown);
      }
      JumpedOnward(k.fate, hooks, checks, again);
      checks := checks + again;
      Onward(k.dialect, before, steps, now, more, k.chains);
      Regroup(past, steps, more);
      steps := steps + more;
    }
    HooksOverRun(k.fate, hooks, checks, old(k.clock), k.clock);
  }

  /** From chains that hold a beginning of some compiled list, or do not exist,
      no state of any such run drops a vital packet. */
  lemma NeverDropsVital(d: Dialect, before: Chains, steps: seq<Chains>, s: Chains, c: string, pkt: Packet)
    requires SoundChains(d, before) && AllEvolve(d, before, steps) && s in steps
    requires OwnChain(c) && c in s && Vital(pkt)
    ensures Judge(s[c], pkt) != Decided(DROP)
  {
    assert Evolves(d, before, s);
    assert Sound(d, s[c]);
    var rules, lockdown :| s[c] <= SpellAll(d, Ruleset(rules, lockdown));
    VitalSurvives(d, rules, lockdown, s[c], pkt);
  }
}
