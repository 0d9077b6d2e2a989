/** internal/ops/ops_exec.go: one tracked job under its waiter, its deadline and any
    number of kills, as interleaved steps; and the buffers its output goes to. */
module ExecJobs {
  import opened Sequences
  import opened Wrappers

  datatype Status = Running | Exited | Killed | TimedOut

  /** What cmd.Wait comes back with. */
  datatype WaitResult = Clean | ExitError(code: int) | OtherError

  /** Why the job's context ended, if it has: the first reason stays. */
  datatype Ctx = Live | DeadlineExceeded | Canceled

  datatype JobView = JobView(status: Status, exitCode: Option<int>, finished: bool)

  function CodeOf(w: WaitResult): int {
    match w
    case Clean => 0
    case ExitError(code) => code
    case OtherError => -1
  }

  /** The waiter's verdict on a job. */
  function Recorded(j: JobView, ctx: Ctx, w: WaitResult): JobView {
    if ctx == DeadlineExceeded then JobView(TimedOut, j.exitCode, true)
    else if j.status == Killed then j.(finished := true)
    else JobView(Exited, Some(CodeOf(w)), true)
  }

  function KillAsked(j: JobView): JobView {
    if j.status == Running then j.(status := Killed) else j
  }

  class Job {
    var status: Status
    var exitCode: Option<int>
    var finished: bool

    function View(): JobView
      reads this
    {
      JobView(status, exitCode, finished)
    }

    constructor ()
      ensures View() == JobView(Running, None, false)
    {
      status, exitCode, finished := Running, None, false;
    }

    /** The waiter's critical section, once cmd.Wait has returned. */
    method Record(ctx: Ctx, w: WaitResult)
      modifies this
      ensures View() == Recorded(old(View()), ctx, w)
    {
      finished := true;
      if ctx == DeadlineExceeded {
        status := TimedOut;
      } else if status == Killed {
      } else if w == Clean {
        exitCode := Some(0);
        status := Exited;
      } else {
        var code := -1;
        if w.ExitError? {
          code := w.code;
        }
        exitCode := Some(code);
        status := Exited;
      }
    }

    /** ExecKill's critical section, and its answer. */
    method AskKill() returns (killed: bool)
      modifies this
      ensures View() == KillAsked(old(View()))
      ensures killed == (old(status) == Running)
    {
      var alreadyDone := status != Running;
      if !alreadyDone {
        status := Killed;
      }
      killed := !alreadyDone;
    }
  }

  // ---- the interleaving ----

  datatype Waiter = Waiting | Returned(result: WaitResult) | Decided(result: WaitResult) | Released

  /** `answers[k]` is what kill k was told; `canceling` are the kills that were told
      yes and have not yet cancelled the context. */
  datatype State = State(job: JobView, ctx: Ctx, waiter: Waiter, done: bool, answers: seq<bool>, canceling: set<nat>)

  datatype Step =
    | Deadline
    | ProcessEnds(result: WaitResult)
    | Record
    | WaiterCancels
    | CloseDone
    | Kill
    | KillCancels(k: nat)

  const START := State(JobView(Running, None, false), Live, Waiting, false, [], {})

  predicate Enabled(s: State, step: Step) {
    match step
    case Deadline => true
    case ProcessEnds(_) => s.waiter == Waiting
    case Record => s.waiter.Returned?
    case WaiterCancels => s.waiter.Decided?
    case CloseDone => s.waiter == Released && !s.done
    case Kill => true
    case KillCancels(k) => k in s.canceling
  }

  function Ended(ctx: Ctx, reason: Ctx): Ctx {
    if ctx == Live then reason else ctx
  }

  function Next(s: State, step: Step): State
    requires Enabled(s, step)
  {
    match step
    case Deadline => s.(ctx := Ended(s.ctx, DeadlineExceeded))
    case ProcessEnds(result) => s.(waiter := Returned(result))
    case Record => s.(job := Recorded(s.job, s.ctx, s.waiter.result), waiter := Decided(s.waiter.result))
    case WaiterCancels => s.(ctx := Ended(s.ctx, Canceled), waiter := Released)
    case CloseDone => s.(done := true)
    case Kill =>
      var yes := s.job.status == Running;
      s.(job := KillAsked(s.job), answers := s.answers + [yes],
         canceling := if yes then s.canceling + {|s.answers|} else s.canceling)
    case KillCancels(k) => s.(ctx := Ended(s.ctx, Canceled), canceling := s.canceling - {k})
  }

  predicate IsRun(s: State, steps: seq<Step>)
    decreases steps
  {
    steps == [] || (Enabled(s, steps[0]) && IsRun(Next(s, steps[0]), steps[1..]))
  }

  function After(s: State, steps: seq<Step>): State
    requires IsRun(s, steps)
    decreases steps
  {
    if steps == [] then s else After(Next(s, steps[0]), steps[1..])
  }

  // ---- what every run keeps ----

  predicate DecidedYet(s: State) {
    s.waiter.Decided? || s.waiter == Released
  }

  function Yeses(answers: seq<bool>): nat {
    if answers == [] then 0 else Yeses(answers[..|answers| - 1]) + if answers[|answers| - 1] then 1 else 0
  }

  ghost predicate Inv(s: State) {
    && (s.job.exitCode.Some? <==> s.job.status == Exited)
    && (s.job.finished <==> DecidedYet(s))
    && (s.job.status == Exited || s.job.status == TimedOut ==> DecidedYet(s))
    && (DecidedYet(s) ==> s.job.status != Running)
    && (s.done ==> s.waiter == Released)
    && (s.job.status == TimedOut ==> s.ctx == DeadlineExceeded)
    && (s.waiter.Decided? && s.job.status == Exited ==> s.job.exitCode == Some(CodeOf(s.waiter.result)))
    && Yeses(s.answers) <= 1
    && (Yeses(s.answers) == 1 ==> s.job.status == Killed || s.job.status == TimedOut)
    && (s.job.status == Killed ==> Yeses(s.answers) == 1)
    && (s.job.status == Running ==> Yeses(s.answers) == 0)
    && (s.canceling != {} ==> Yeses(s.answers) == 1)
    && (s.ctx == Canceled ==> s.waiter == Released || Yeses(s.answers) == 1)
  }

  lemma YesesMore(answers: seq<bool>, yes: bool)
    ensures Yeses(answers + [yes]) == Yeses(answers) + if yes then 1 else 0
  {
    assert (answers + [yes])[..|answers|] == answers;
  }

  lemma StepKeepsInv(s: State, step: Step)
    requires Inv(s) && Enabled(s, step)
    ensures Inv(Next(s, step))
  {
    YesesMore(s.answers, s.job.status == Running);
  }

  lemma {:induction false} RunKeepsInv(s: State, steps: seq<Step>)
    requires Inv(s) && IsRun(s, steps)
    ensures Inv(After(s, steps))
    decreases steps
  {
    if steps == [] {
    } else {
      StepKeepsInv(s, steps[0]);
      RunKeepsInv(Next(s, steps[0]), steps[1..]);
    }
  }

  /** Under every interleaving: an exit code exists exactly for an exited job; a kill is
      told yes at most once, and that job never ends as exited; a timeout means the
      deadline passed first. */
  lemma EveryRun(steps: seq<Step>)
    requires IsRun(START, steps)
    ensures var s := After(START, steps);
      && (s.job.exitCode.Some? <==> s.job.status == Exited)
      && Yeses(s.answers) <= 1
      && (Yeses(s.answers) == 1 ==> s.job.status == Killed || s.job.status == TimedOut)
      && (s.job.status == Killed ==> Yeses(s.answers) == 1)
      && (s.job.status == TimedOut ==> s.ctx == DeadlineExceeded)
      && (s.done ==> s.job.finished && s.job.status != Running)
  {
    RunKeepsInv(START, steps);
  }

  /** Once the waiter has decided, and so once `done` is closed, nothing about the
      job changes, whatever kills and deadlines come after. */
  lemma {:induction false} DecidedIsFinal(s: State, steps: seq<Step>)
    requires Inv(s) && DecidedYet(s) && IsRun(s, steps)
    ensures After(s, steps).job == s.job
    decreases steps
  {
    if steps == [] {
    } else {
      StepKeepsInv(s, steps[0]);
      DecidedIsFinal(Next(s, steps[0]), steps[1..]);
    }
  }

  lemma DoneIsFinal(steps: seq<Step>, more: seq<Step>)
    requires IsRun(START, steps) && After(START, steps).done && IsRun(After(START, steps), more)
    ensures After(After(START, steps), more).job == After(START, steps).job
    ensures After(START, steps).job.status != Running
  {
    RunKeepsInv(START, steps);
    DecidedIsFinal(After(START, steps), more);
  }

  /** The code recorded, if one is, is what cmd.Wait came back with. */
  lemma {:induction false} CodeIsWhatWaitSays(s: State, w: WaitResult, steps: seq<Step>)
    requires Inv(s) && s.waiter == Returned(w) && IsRun(s, steps)
    ensures After(s, steps).job.exitCode.Some? ==> After(s, steps).job.exitCode == Some(CodeOf(w))
    decreases steps
  {
    if steps == [] {
    } else {
      StepKeepsInv(s, steps[0]);
      if steps[0].Record? {
        DecidedIsFinal(Next(s, steps[0]), steps[1..]);
      } else {
        CodeIsWhatWaitSays(Next(s, steps[0]), w, steps[1..]);
      }
    }
  }

  // ---- the verdict, by what came before it ----

  /** A deadline passed before any kill got round to cancelling. */
  ghost predicate DeadlineFirst(steps: seq<Step>) {
    exists i :: 0 <= i < |steps| && steps[i] == Deadline && forall k :: 0 <= k < i ==> !steps[k].KillCancels?
  }

  ghost predicate SomeKill(steps: seq<Step>) {
    exists i :: 0 <= i < |steps| && steps[i].Kill?
  }

  lemma DeadlineFirstHead(steps: seq<Step>)
    requires steps != []
    ensures DeadlineFirst(steps) <==>
      steps[0] == Deadline || (!steps[0].KillCancels? && DeadlineFirst(steps[1..]))
  {
    if steps[0] != Deadline && !steps[0].KillCancels? && DeadlineFirst(steps[1..]) {
      var i :| 0 <= i < |steps| - 1 && steps[1..][i] == Deadline
               && forall k :: 0 <= k < i ==> !steps[1..][k].KillCancels?;
      assert steps[i + 1] == Deadline;
      assert forall k :: 0 < k < i + 1 ==> steps[k] == steps[1..][k - 1];
    }
    if DeadlineFirst(steps) && steps[0] != Deadline {
      var i :| 0 <= i < |steps| && steps[i] == Deadline && forall k :: 0 <= k < i ==> !steps[k].KillCancels?;
      assert steps[1..][i - 1] == Deadline;
      assert forall k :: 0 <= k < i - 1 ==> steps[1..][k] == steps[k + 1];
    }
  }

  lemma SomeKillHead(steps: seq<Step>)
    requires steps != []
    ensures SomeKill(steps) <==> steps[0].Kill? || SomeKill(steps[1..])
  {
    if SomeKill(steps[1..]) {
      var i :| 0 <= i < |steps| - 1 && steps[1..][i].Kill?;
      assert steps[i + 1].Kill?;
    }
    if SomeKill(steps) && !steps[0].Kill? {
      var i :| 0 <= i < |steps| && steps[i].Kill?;
      assert steps[1..][i - 1].Kill?;
    }
  }

  /** Up to the verdict: why the context ended, and whether a kill was told yes. */
  lemma {:induction false} UpToTheVerdict(s: State, steps: seq<Step>)
    requires Inv(s) && !DecidedYet(s) && IsRun(s, steps) && forall i :: 0 <= i < |steps| ==> steps[i] != Record
    ensures var t := After(s, steps);
      && !DecidedYet(t)
      && (t.ctx == DeadlineExceeded <==> s.ctx == DeadlineExceeded || (s.ctx == Live && DeadlineFirst(steps)))
      && (t.job.status == Killed <==> s.job.status == Killed || SomeKill(steps))
      && t.job.exitCode == None
    decreases steps
  {
    if steps == [] {
    } else {
      DeadlineFirstHead(steps);
      SomeKillHead(steps);
      StepKeepsInv(s, steps[0]);
      assert steps[0] != Record;
      assert forall i :: 0 <= i < |steps| - 1 ==> steps[1..][i] == steps[i + 1];
      UpToTheVerdict(Next(s, steps[0]), steps[1..]);
    }
  }

  lemma {:induction false} RunSplits(s: State, steps: seq<Step>, n: nat)
    requires IsRun(s, steps) && n <= |steps|
    ensures IsRun(s, steps[..n]) && IsRun(After(s, steps[..n]), steps[n..])
    ensures After(s, steps) == After(After(s, steps[..n]), steps[n..])
    decreases n
  {
    if n == 0 {
      assert steps[..0] == [] && steps[0..] == steps;
    } else {
      RunSplits(Next(s, steps[0]), steps[1..], n - 1);
      assert steps[..n][0] == steps[0] && steps[..n][1..] == steps[1..][..n - 1];
      assert steps[1..][n - 1..] == steps[n..];
    }
  }

  lemma {:induction false} OneVerdict(s: State, steps: seq<Step>, r: nat)
    requires IsRun(s, steps) && r < |steps| && steps[r] == Record
    ensures forall i :: 0 <= i < r ==> steps[i] != Record
    ensures !DecidedYet(s)
    decreases steps
  {
    if r > 0 {
      OneVerdict(Next(s, steps[0]), steps[1..], r - 1);
      forall i | 0 <= i < r ensures steps[i] != Record {
        assert i > 0 ==> steps[i] == steps[1..][i - 1];
      }
    }
  }

  /** Once the waiter has given its verdict, the job timed out if and only if a deadline
      came before that, ahead of any kill's cancelling, and then there is no exit code;
      otherwise it was killed if and only if somebody asked for that before, and else it
      exited with what cmd.Wait said. */
  lemma VerdictExactly(steps: seq<Step>, r: nat)
    requires IsRun(START, steps) && r < |steps| && steps[r] == Record
    ensures var job := After(START, steps).job;
      && (job.status == TimedOut <==> DeadlineFirst(steps[..r]))
      && (job.status == Killed <==> !DeadlineFirst(steps[..r]) && SomeKill(steps[..r]))
      && (job.status == Exited <==> !DeadlineFirst(steps[..r]) && !SomeKill(steps[..r]))
      && (job.exitCode == None <==> DeadlineFirst(steps[..r]) || SomeKill(steps[..r]))
      && job.finished
  {
    OneVerdict(START, steps, r);
    RunSplits(START, steps, r);
    RunKeepsInv(START, steps[..r]);
    UpToTheVerdict(START, steps[..r]);
    var s := After(START, steps[..r]);
    assert steps[r..][0] == Record;
    StepKeepsInv(s, Record);
    DecidedIsFinal(Next(s, Record), steps[r..][1..]);
  }

  predicate Disturbs(step: Step) {
    step.Deadline? || step.Kill?
  }

  /** With neither a deadline nor a kill before the verdict, a job that has ended has
      exited. */
  lemma {:induction false} UndisturbedExits(s: State, steps: seq<Step>)
    requires Inv(s) && IsRun(s, steps) && s.ctx == Live && s.job.status == Running
    requires forall i :: 0 <= i < |steps| ==> !Disturbs(steps[i])
    ensures After(s, steps).job.finished ==> After(s, steps).job.status == Exited
    decreases steps
  {
    if steps == [] {
    } else {
      StepKeepsInv(s, steps[0]);
      assert !Disturbs(steps[0]);
      if steps[0].Record? {
        DecidedIsFinal(Next(s, steps[0]), steps[1..]);
      } else {
        assert forall i :: 0 <= i < |steps| - 1 ==> steps[1..][i] == steps[i + 1];
        UndisturbedExits(Next(s, steps[0]), steps[1..]);
      }
    }
  }

  /** A status of killed may still turn into a timeout: a kill answered yes whose
      cancel comes after the deadline. */
  lemma KilledMayEndAsTimeout() returns (steps: seq<Step>, more: seq<Step>)
    ensures IsRun(START, steps) && After(START, steps).job.status == Killed
    ensures IsRun(After(START, steps), more) && After(After(START, steps), more).job.status == TimedOut
    ensures After(START, steps).answers == [true]
  {
    steps, more := [Kill], [Deadline, ProcessEnds(ExitError(-1)), Record];
    var s1 := Next(START, Kill);
    assert steps[1..] == [] && After(START, steps) == After(s1, []);
    var s2 := Next(s1, Deadline);
    var s3 := Next(s2, ProcessEnds(ExitError(-1)));
    var s4 := Next(s3, Record);
    assert more[1..] == [ProcessEnds(ExitError(-1)), Record];
    assert more[1..][1..] == [Record] && more[1..][1..][1..] == [];
    assert IsRun(s3, [Record]) && After(s3, [Record]) == s4;
    assert IsRun(s2, more[1..]) && After(s2, more[1..]) == s4;
  }

  // ---- the output ----

  type Bytes = seq<bv8>

  const OUTPUT_CAP := 1024 * 1024

  function Capped(s: Bytes): Bytes {
    if |s| <= OUTPUT_CAP then s else s[..OUTPUT_CAP]
  }

  /** What cmd's copy loop sees: a count that falls short of what it gave. */
  predicate ComesShort(had: nat, given: nat) {
    had < OUTPUT_CAP && OUTPUT_CAP < had + given
  }

  class CapBuffer {
    var buf: Bytes

    constructor ()
      ensures buf == []
    {
      buf := [];
    }

    method Write(p: Bytes) returns (n: nat)
      requires |buf| <= OUTPUT_CAP
      modifies this
      ensures buf == Capped(old(buf) + p)
      ensures n == if ComesShort(|old(buf)|, |p|) then OUTPUT_CAP - |old(buf)| else |p|
    {
      var room := OUTPUT_CAP - |buf|;
      if room <= 0 {
        assert (buf + p)[..OUTPUT_CAP] == buf;
        return |p|;
      }
      var q := p;
      if |q| > room {
        q := q[..room];
        assert (buf + p)[..OUTPUT_CAP] == buf + q;
      }
      buf := buf + q;
      return |q|;
    }
  }

  lemma CappedTwice(a: Bytes, b: Bytes)
    ensures Capped(Capped(a) + b) == Capped(a + b)
  {
    if |a| > OUTPUT_CAP {
      assert (Capped(a) + b)[..OUTPUT_CAP] == a[..OUTPUT_CAP] == (a + b)[..OUTPUT_CAP];
    }
  }

  /** Some write begins short of the cap and ends past it. */
  predicate Straddles(chunks: seq<Bytes>) {
    chunks != [] &&
    (Straddles(chunks[..|chunks| - 1]) || ComesShort(|Flat(chunks[..|chunks| - 1])|, |chunks[|chunks| - 1]|))
  }

  /** Any writes: what is kept is the start of all that was written, up to the cap;
      and a write is answered with a short count exactly when it straddles the cap. */
  method WriteAll(b: CapBuffer, chunks: seq<Bytes>) returns (short: bool)
    requires b.buf == []
    modifies b
    ensures b.buf == Capped(Flat(chunks))
    ensures b.buf <= Flat(chunks) && |b.buf| <= OUTPUT_CAP
    ensures short <==> Straddles(chunks)
  {
    short := false;
    for i := 0 to |chunks|
      invariant b.buf == Capped(Flat(chunks[..i]))
      invariant short <==> Straddles(chunks[..i])
    {
      assert chunks[..i + 1][..i] == chunks[..i];
      CappedTwice(Flat(chunks[..i]), chunks[i]);
      var n := b.Write(chunks[i]);
      short := short || n != |chunks[i]|;
    }
    assert chunks[..|chunks|] == chunks;
  }

  /** The writes up to some point come to exactly the cap. */
  predicate MeetsTheCap(chunks: seq<Bytes>) {
    |Flat(chunks)| == OUTPUT_CAP || (chunks != [] && MeetsTheCap(chunks[..|chunks| - 1]))
  }

  /** No count comes short exactly when the output stays within the cap, or the
      writes meet it on the byte. */
  lemma {:induction false} NeverShortExactly(chunks: seq<Bytes>)
    ensures !Straddles(chunks) <==> |Flat(chunks)| <= OUTPUT_CAP || MeetsTheCap(chunks)
    ensures MeetsTheCap(chunks) ==> |Flat(chunks)| >= OUTPUT_CAP
  {
    if chunks == [] {
    } else {
      NeverShortExactly(chunks[..|chunks| - 1]);
    }
  }

  /** io.Copy into the buffer: it goes on to the first count that comes short, and
      reports that. Nothing is lost to the buffer, which is full by then. */
  method Pump(b: CapBuffer, chunks: seq<Bytes>) returns (failed: bool)
    requires b.buf == []
    modifies b
    ensures b.buf == Capped(Flat(chunks))
    ensures failed <==> Straddles(chunks)
  {
    for i := 0 to |chunks|
      invariant b.buf == Capped(Flat(chunks[..i])) && !Straddles(chunks[..i])
    {
      assert chunks[..i + 1][..i] == chunks[..i];
      CappedTwice(Flat(chunks[..i]), chunks[i]);
      var n := b.Write(chunks[i]);
      if n != |chunks[i]| {
        FullStaysFull(chunks, i + 1);
        return true;
      }
    }
    assert chunks[..|chunks|] == chunks;
    return false;
  }

  /** Once the cap is passed, what comes after changes neither the buffer nor the failure. */
  lemma {:induction false} FullStaysFull(chunks: seq<Bytes>, n: nat)
    requires n <= |chunks| && |Flat(chunks[..n])| >= OUTPUT_CAP && Straddles(chunks[..n])
    ensures Capped(Flat(chunks)) == Capped(Flat(chunks[..n])) && Straddles(chunks)
    decreases |chunks| - n
  {
    if n == |chunks| {
      assert chunks[..n] == chunks;
    } else {
      assert chunks[..n + 1][..n] == chunks[..n];
      FullStaysFull(chunks, n + 1);
    }
  }

  // ---- from the process to the record ----

  /** What cmd.Wait makes of a process: its exit status counts first (-1 when a signal
      ended it), and of one that succeeded, a copy that failed. `out` and `err` are the
      reads of its two streams, both of which end before the wait delay does. */
  function WaitedFor(status: int, out: seq<Bytes>, err: seq<Bytes>): WaitResult {
    if status != 0 then ExitError(status)
    else if Straddles(out) || Straddles(err) then OtherError
    else Clean
  }

  /** A job that is recorded as exited has its process's exit status on record if and
      only if the process failed or no write of a stream straddled the cap: a process
      that succeeds with too much output is recorded as having failed. */
  lemma CodeIsTheProcessesExactly(before: seq<Step>, status: int, out: seq<Bytes>, err: seq<Bytes>, more: seq<Step>)
    requires IsRun(START, before) && After(START, before).waiter == Waiting
    requires IsRun(Next(After(START, before), ProcessEnds(WaitedFor(status, out, err))), more)
    requires After(Next(After(START, before), ProcessEnds(WaitedFor(status, out, err))), more).job.status == Exited
    ensures var end := After(Next(After(START, before), ProcessEnds(WaitedFor(status, out, err))), more);
      end.job.exitCode == Some(status) <==> status != 0 || (!Straddles(out) && !Straddles(err))
  {
    RunKeepsInv(START, before);
    var s := Next(After(START, before), ProcessEnds(WaitedFor(status, out, err)));
    StepKeepsInv(After(START, before), ProcessEnds(WaitedFor(status, out, err)));
    RunKeepsInv(s, more);
    CodeIsWhatWaitSays(s, WaitedFor(status, out, err), more);
  }

  /** Such output exists, and a run on which it counts: one byte short of the cap, then
      two more, from a process that succeeds. */
  lemma SuccessRecordedAsFailure() returns (out: seq<Bytes>, steps: seq<Step>)
    ensures Straddles(out) && |Flat(out)| == 1024 * 1024 + 1
    ensures steps == [ProcessEnds(WaitedFor(0, out, [])), Record]
    ensures IsRun(START, steps) && After(START, steps).job == JobView(Exited, Some(-1), true)
  {
    var first, second: Bytes := seq(OUTPUT_CAP - 1, _ => 0), [0, 0];
    out := [first, second];
    assert out[..1] == [first] && [first][..0] == [];
    assert Flat([first]) == first;
    steps := [ProcessEnds(WaitedFor(0, out, [])), Record];
    var s1 := Next(START, steps[0]);
    var s2 := Next(s1, Record);
    assert steps[1..] == [Record] && [Record][1..] == [];
    assert IsRun(s1, [Record]) && After(s1, [Record]) == After(s2, []) == s2;
  }
}
