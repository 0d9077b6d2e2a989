/** internal/vpn/deadman.go: the detached revert that undoes an unconfirmed exit,
    the record through which it is stood down, and the processes around it. */
module Deadman {
  import opened Wrappers

  type Pid = nat

  /** A running process: one of our switches or not, and whether its command line
      carries the marker. A switch gains the marker when its shell has started. */
  datatype Proc = Proc(isSwitch: bool, marked: bool)

  /** The record on disk; broken when it does not parse. */
  datatype Record = Absent | Broken | Saved(pid: Pid)

  datatype World = World(procs: map<Pid, Proc>, record: Record, killed: seq<Proc>)

  /** What goes well in one Disarm: reading the record, reading the command line of
      the recorded process, killing its group, removing the record. */
  datatype DisarmLuck = DisarmLuck(loads: bool, identifies: bool, kills: bool, removes: bool)

  datatype SaveLuck = Written | Untouched | LeftBroken | WrittenButReported

  /** What happens in one Arm. `polls` are the answers while waiting for the marker,
      `marked` whether the command line carries it by the end, `cleans` whether a
      kill after a failure works. */
  datatype ArmLuck = ArmLuck(before: DisarmLuck, opensLog: bool, starts: bool, pid: Pid,
                             polls: seq<bool>, marked: bool, cleans: bool, save: SaveLuck)

  datatype ArmSpec = ArmSpec(afterSeconds: int, hasTailscale: bool, hasRevert: bool)

  datatype Refusal = BadSpec | Unreadable | NotKilled | NotRemoved | NoLog | NotStarted | NotVisible | NotSaved

  // ---- the specification ----

  predicate Identified(w: World, p: Pid, identifies: bool) {
    p in w.procs && w.procs[p].marked && identifies
  }

  function Kill(w: World, p: Pid): World {
    if p in w.procs then w.(procs := w.procs - {p}, killed := w.killed + [w.procs[p]]) else w
  }

  function Disarmed(w: World, d: DisarmLuck): (World, Result<bool, Refusal>) {
    if !d.loads || w.record.Broken? then (w, Failure(Unreadable))
    else if w.record.Absent? then (w, Success(false))
    else
      var p := w.record.pid;
      var found := p > 0 && Identified(w, p, d.identifies);
      if found && !d.kills then (w, Failure(NotKilled))
      else
        var after := if found then Kill(w, p) else w;
        if !d.removes then (after, Failure(NotRemoved)) else (after.(record := Absent), Success(found))
  }

  predicate Seen(polls: seq<bool>) {
    true in polls
  }

  function Started(w: World, a: ArmLuck): World {
    w.(procs := w.procs[a.pid := Proc(true, a.marked)])
  }

  function SavedBy(w: World, a: ArmLuck): World {
    match a.save
    case Untouched => w
    case LeftBroken => w.(record := Broken)
    case _ => w.(record := Saved(a.pid))
  }

  function CleanedUp(w: World, a: ArmLuck): World {
    if a.cleans then Kill(w, a.pid) else w
  }

  function Armed(w: World, spec: ArmSpec, a: ArmLuck): (World, Result<Pid, Refusal>) {
    if spec.afterSeconds <= 0 || !(spec.hasTailscale || spec.hasRevert) then (w, Failure(BadSpec))
    else
      var (w1, stood) := Disarmed(w, a.before);
      if stood.Failure? then (w1, Failure(stood.error))
      else if !a.opensLog then (w1, Failure(NoLog))
      else if !a.starts then (w1, Failure(NotStarted))
      else if !Seen(a.polls) then (CleanedUp(Started(w1, a), a), Failure(NotVisible))
      else if a.save == Written then (SavedBy(Started(w1, a), a), Success(a.pid))
      else (CleanedUp(SavedBy(Started(w1, a), a), a), Failure(NotSaved))
  }

  // ---- the code ----

  class Host {
    var world: World

    constructor (world: World)
      ensures this.world == world
    {
      this.world := world;
    }

    method KillGroup(p: Pid, works: bool) returns (ok: bool)
      modifies this
      ensures ok == works && world == if works then Kill(old(world), p) else old(world)
    {
      ok := works;
      if works {
        world := Kill(world, p);
      }
    }

    method Disarm(d: DisarmLuck) returns (r: Result<bool, Refusal>)
      modifies this
      ensures (world, r) == Disarmed(old(world), d)
    {
      if !d.loads || world.record.Broken? {
        return Failure(Unreadable);
      }
      if world.record.Absent? {
        return Success(false);
      }
      var pid := world.record.pid;
      var killed := false;
      if pid > 0 && Identified(world, pid, d.identifies) {
        var ok := KillGroup(pid, d.kills);
        if !ok {
          return Failure(NotKilled);
        }
        killed := true;
      }
      if !d.removes {
        return Failure(NotRemoved);
      }
      world := world.(record := Absent);
      return Success(killed);
    }

    /** Each poll before the deadline, and the one that finds it passed. */
    method AwaitVisible(polls: seq<bool>) returns (ok: bool)
      ensures ok == Seen(polls)
      ensures ok <==> exists i :: 0 <= i < |polls| && polls[i]
    {
      for i := 0 to |polls|
        invariant true !in polls[..i]
      {
        if polls[i] {
          return true;
        }
      }
      return false;
    }

    method Arm(spec: ArmSpec, a: ArmLuck) returns (r: Result<Pid, Refusal>)
      requires a.pid > 0 && a.pid !in world.procs
      modifies this
      ensures (world, r) == Armed(old(world), spec, a)
    {
      if spec.afterSeconds <= 0 {
        return Failure(BadSpec);
      }
      if !spec.hasTailscale && !spec.hasRevert {
        return Failure(BadSpec);
      }
      var stood := Disarm(a.before);
      if stood.Failure? {
        return Failure(stood.error);
      }
      if !a.opensLog {
        return Failure(NoLog);
      }
      if !a.starts {
        return Failure(NotStarted);
      }
      world := Started(world, a);
      var visible := AwaitVisible(a.polls);
      if !visible {
        var _ := KillGroup(a.pid, a.cleans);
        return Failure(NotVisible);
      }
      world := SavedBy(world, a);
      if a.save != Written {
        var _ := KillGroup(a.pid, a.cleans);
        return Failure(NotSaved);
      }
      return Success(a.pid);
    }
  }

  /** What a disarm answers: it fails for a record it cannot read, a switch that will not
      be killed, or a record that cannot be removed, in that order. */
  lemma DisarmAnswersExactly(w: World, d: DisarmLuck)
    ensures var r := Disarmed(w, d).1;
      && (r == Failure(Unreadable) <==> !d.loads || w.record == Broken)
      && (r == Failure(NotKilled) <==>
            d.loads && w.record.Saved? && w.record.pid > 0 && Identified(w, w.record.pid, d.identifies) && !d.kills)
      && (r == Failure(NotRemoved) <==> !d.removes && d.loads && w.record.Saved?
                                        && (w.record.pid > 0 && Identified(w, w.record.pid, d.identifies) ==> d.kills))
      && (r.Failure? ==> r.error in {Unreadable, NotKilled, NotRemoved} && Disarmed(w, d).0.record == w.record)
  {
  }

  /** What an arm answers: each failure by the first thing that goes wrong. */
  lemma ArmAnswersExactly(w: World, spec: ArmSpec, a: ArmLuck)
    ensures var r, good, stood := Armed(w, spec, a).1, spec.afterSeconds > 0 && (spec.hasTailscale || spec.hasRevert),
                                  Disarmed(w, a.before).1;
      && (r == Failure(BadSpec) <==> !good)
      && (good && stood.Failure? ==> r == Failure(stood.error))
      && (r == Failure(NoLog) <==> good && stood.Success? && !a.opensLog)
      && (r == Failure(NotStarted) <==> good && stood.Success? && a.opensLog && !a.starts)
      && (r == Failure(NotVisible) <==> good && stood.Success? && a.opensLog && a.starts && true !in a.polls)
      && (r == Failure(NotSaved) <==>
            good && stood.Success? && a.opensLog && a.starts && true in a.polls && a.save != Written)
      && (r.Success? ==> r == Success(a.pid))
  {
    DisarmAnswersExactly(w, a.before);
  }

  // ---- runs ----

  /** What can happen to a machine: the two commands, a switch that fires and ends,
      and other processes coming and going, on any free process id. */
  datatype Event =
    | ArmIt(spec: ArmSpec, arming: ArmLuck)
    | DisarmIt(standing: DisarmLuck)
    | Ends(pid: Pid)
    | Spawns(newPid: Pid, marked: bool)

  predicate Possible(w: World, e: Event) {
    match e
    case ArmIt(_, a) =>
      && a.pid > 0 && a.pid !in w.procs
      && (Seen(a.polls) ==> a.marked)
    case DisarmIt(_) => true
    case Ends(p) => p in w.procs
    case Spawns(p, _) => p > 0 && p !in w.procs
  }

  function Next(w: World, e: Event): World
    requires Possible(w, e)
  {
    match e
    case ArmIt(spec, a) => Armed(w, spec, a).0
    case DisarmIt(d) => Disarmed(w, d).0
    case Ends(p) => w.(procs := w.procs - {p})
    case Spawns(p, marked) => w.(procs := w.procs[p := Proc(false, marked)])
  }

  ghost predicate LiveSwitch(w: World, p: Pid) {
    p in w.procs && w.procs[p].isSwitch
  }

  /** Every live switch is the one on record, so there is at most one, and it can be
      identified. */
  ghost predicate OnRecord(w: World) {
    forall p :: LiveSwitch(w, p) ==> p > 0 && w.record == Saved(p) && w.procs[p].marked
  }

  /** Whether standing down would drop the record of a switch it failed to identify. */
  ghost predicate Misses(w: World, d: DisarmLuck) {
    w.record.Saved? && LiveSwitch(w, w.record.pid) && d.loads && !d.identifies && d.removes
  }

  /** A disarm keeps every live switch on record exactly when it does not take a live
      switch, whose command line it could not read, for a stranger. */
  lemma DisarmKeepsExactly(w: World, d: DisarmLuck)
    requires OnRecord(w)
    ensures OnRecord(Disarmed(w, d).0) <==> !Misses(w, d)
  {
    if Misses(w, d) {
      assert LiveSwitch(Disarmed(w, d).0, w.record.pid);
    } else {
      forall p | LiveSwitch(Disarmed(w, d).0, p)
        ensures p > 0 && Disarmed(w, d).0.record == Saved(p) && Disarmed(w, d).0.procs[p].marked
      {
        assert LiveSwitch(w, p);
      }
    }
  }

  /** Such a disarm: it reports success, with nothing stood down, and leaves the switch
      live and off the record. */
  lemma MissedSwitchStaysLive(p: Pid)
    requires p > 0
    ensures var w := World(map[p := Proc(true, true)], Saved(p), []); var d := DisarmLuck(true, false, true, true);
      && OnRecord(w) && Disarmed(w, d).1 == Success(false)
      && LiveSwitch(Disarmed(w, d).0, p) && Disarmed(w, d).0.record == Absent && !OnRecord(Disarmed(w, d).0)
  {
    var w := World(map[p := Proc(true, true)], Saved(p), []);
    var after := Disarmed(w, DisarmLuck(true, false, true, true)).0;
    assert LiveSwitch(after, p);
  }

  /** A disarm that succeeds leaves no live switch at all, unless it misses one. */
  lemma DisarmLeavesNone(w: World, d: DisarmLuck)
    requires OnRecord(w) && Disarmed(w, d).1.Success? && !Misses(w, d)
    ensures forall p :: !LiveSwitch(Disarmed(w, d).0, p)
    ensures Disarmed(w, d).0.record == Absent
    ensures Disarmed(w, d).1.value <==> w.record.Saved? && Identified(w, w.record.pid, d.identifies) && w.record.pid > 0
  {
    forall p ensures !LiveSwitch(Disarmed(w, d).0, p) {
      assert LiveSwitch(Disarmed(w, d).0, p) ==> LiveSwitch(w, p);
    }
  }

  /** Whether arming leaves behind a switch it started and could not record or kill. */
  ghost predicate Strands(w: World, spec: ArmSpec, a: ArmLuck) {
    && spec.afterSeconds > 0 && (spec.hasTailscale || spec.hasRevert)
    && Disarmed(w, a.before).1.Success? && a.opensLog && a.starts && !a.cleans
    && (!Seen(a.polls) || a.save == Untouched || a.save == LeftBroken)
  }

  /** An arm keeps every live switch on record exactly when its own standing down
      misses none and it strands none. */
  lemma ArmKeepsExactly(w: World, spec: ArmSpec, a: ArmLuck)
    requires OnRecord(w) && Possible(w, ArmIt(spec, a))
    ensures OnRecord(Armed(w, spec, a).0) <==>
      && !(spec.afterSeconds > 0 && (spec.hasTailscale || spec.hasRevert) && Misses(w, a.before))
      && !Strands(w, spec, a)
  {
    if spec.afterSeconds > 0 && (spec.hasTailscale || spec.hasRevert) {
      DisarmKeepsExactly(w, a.before);
      var w1 := Disarmed(w, a.before).0;
      var w2 := Armed(w, spec, a).0;
      if Misses(w, a.before) {
        assert LiveSwitch(w1, w.record.pid) && LiveSwitch(w2, w.record.pid);
      } else if Disarmed(w, a.before).1.Success? {
        DisarmLeavesNone(w, a.before);
        if Strands(w, spec, a) {
          assert LiveSwitch(w2, a.pid);
        }
        forall p | LiveSwitch(w2, p) ensures p == a.pid {
          assert !LiveSwitch(w1, p);
        }
      }
    }
  }

  /** An arm that succeeds leaves exactly one live switch, the one it says, on record. */
  lemma ArmLeavesOne(w: World, spec: ArmSpec, a: ArmLuck)
    requires OnRecord(w) && Possible(w, ArmIt(spec, a)) && Armed(w, spec, a).1.Success? && !Misses(w, a.before)
    ensures Armed(w, spec, a).1.value == a.pid && Armed(w, spec, a).0.record == Saved(a.pid)
    ensures forall p :: LiveSwitch(Armed(w, spec, a).0, p) <==> p == a.pid
  {
    DisarmLeavesNone(w, a.before);
    forall p ensures LiveSwitch(Armed(w, spec, a).0, p) <==> p == a.pid {
      assert !LiveSwitch(Disarmed(w, a.before).0, p);
    }
  }

  /** Nothing goes unseen and no clean-up fails. */
  ghost predicate Sound(w: World, e: Event) {
    match e
    case ArmIt(spec, a) => !Misses(w, a.before) && !Strands(w, spec, a)
    case DisarmIt(d) => !Misses(w, d)
    case _ => true
  }

  predicate IsRun(w: World, events: seq<Event>)
    decreases events
  {
    events == [] || (Possible(w, events[0]) && IsRun(Next(w, events[0]), events[1..]))
  }

  ghost predicate AllSound(w: World, events: seq<Event>)
    requires IsRun(w, events)
    decreases events
  {
    events == [] || (Sound(w, events[0]) && AllSound(Next(w, events[0]), events[1..]))
  }

  function After(w: World, events: seq<Event>): World
    requires IsRun(w, events)
    decreases events
  {
    if events == [] then w else After(Next(w, events[0]), events[1..])
  }

  lemma StepKeepsOnRecord(w: World, e: Event)
    requires OnRecord(w) && Possible(w, e) && Sound(w, e)
    ensures OnRecord(Next(w, e))
  {
    match e
    case ArmIt(spec, a) => ArmKeepsExactly(w, spec, a);
    case DisarmIt(d) => DisarmKeepsExactly(w, d);
    case Ends(q) =>
      forall p | LiveSwitch(Next(w, e), p) ensures LiveSwitch(w, p) {}
    case Spawns(q, _) =>
      forall p | LiveSwitch(Next(w, e), p) ensures LiveSwitch(w, p) {}
  }

  /** Over every run in which nothing goes unseen and no clean-up fails, every live
      switch is the one on record. */
  lemma {:induction false} RunKeepsOnRecord(w: World, events: seq<Event>)
    requires OnRecord(w) && IsRun(w, events) && AllSound(w, events)
    ensures OnRecord(After(w, events))
    decreases events
  {
    if events == [] {
    } else {
      StepKeepsOnRecord(w, events[0]);
      RunKeepsOnRecord(Next(w, events[0]), events[1..]);
    }
  }

  lemma AtMostOne(w: World, events: seq<Event>, p: Pid, q: Pid)
    requires OnRecord(w) && IsRun(w, events) && AllSound(w, events)
    requires LiveSwitch(After(w, events), p) && LiveSwitch(After(w, events), q)
    ensures p == q
  {
    RunKeepsOnRecord(w, events);
  }

  // ---- who is killed ----

  /** A stranger without the marker. */
  predicate Innocent(x: Proc) {
    !x.isSwitch && !x.marked
  }

  ghost predicate SparesInnocents(before: World, after: World) {
    before.killed <= after.killed && forall i :: |before.killed| <= i < |after.killed| ==> !Innocent(after.killed[i])
  }

  ghost predicate KeepsInnocents(before: World, after: World) {
    forall p :: p in before.procs && Innocent(before.procs[p]) ==> p in after.procs && after.procs[p] == before.procs[p]
  }

  lemma DisarmSpares(w: World, d: DisarmLuck)
    ensures SparesInnocents(w, Disarmed(w, d).0) && KeepsInnocents(w, Disarmed(w, d).0)
  {
  }

  lemma ArmSpares(w: World, spec: ArmSpec, a: ArmLuck)
    requires a.pid !in w.procs
    ensures SparesInnocents(w, Armed(w, spec, a).0) && KeepsInnocents(w, Armed(w, spec, a).0)
  {
    DisarmSpares(w, a.before);
    var w1 := Disarmed(w, a.before).0;
    CleanUpSpares(w1, Started(w1, a), a);
    CleanUpSpares(w1, SavedBy(Started(w1, a), a), a);
  }

  lemma CleanUpSpares(w: World, s: World, a: ArmLuck)
    requires s.procs == w.procs[a.pid := Proc(true, a.marked)] && s.killed == w.killed
    ensures SparesInnocents(w, CleanedUp(s, a))
    ensures forall p :: p in w.procs && p != a.pid ==>
      p in CleanedUp(s, a).procs && CleanedUp(s, a).procs[p] == w.procs[p]
  {
  }

  /** Whatever goes wrong, and whoever has the recorded process id by now, a command
      kills no stranger without the marker. */
  lemma NoInnocentKilled(w: World, e: Event)
    requires Possible(w, e)
    ensures SparesInnocents(w, Next(w, e))
    ensures !e.Ends? ==> KeepsInnocents(w, Next(w, e))
  {
    match e
    case ArmIt(spec, a) => ArmSpares(w, spec, a);
    case DisarmIt(d) => DisarmSpares(w, d);
    case _ =>
  }

  lemma {:induction false} NoInnocentKilledEver(w: World, events: seq<Event>)
    requires IsRun(w, events)
    ensures SparesInnocents(w, After(w, events))
    decreases events
  {
    if events == [] {
    } else {
      NoInnocentKilled(w, events[0]);
      NoInnocentKilledEver(Next(w, events[0]), events[1..]);
      var mid, end := Next(w, events[0]), After(w, events);
      forall i | |w.killed| <= i < |end.killed| ensures !Innocent(end.killed[i]) {
        assert i < |mid.killed| ==> end.killed[i] == mid.killed[i];
      }
    }
  }
}
