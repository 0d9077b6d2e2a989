/** internal/tunnelproxy and internal/link: goroutines, one per request or ws
    session, writing reply frames through one serialising frame writer. */
module TunnelFrames {
  import opened Sequences
  import opened Wrappers

  type Id = string
  type Bytes = seq<bv8>

  datatype Frame =
    | HttpHead(id: Id, status: int)
    | HttpChunk(id: Id, data: Bytes)
    | HttpEnd(id: Id)
    | WsOpenOk(id: Id)
    | WsMsg(id: Id, data: Bytes, isText: bool)
    | WsClose(id: Id)

  /** Where a goroutine is. An upstream that cannot be asked or reached is
      answered with head 502, one explanatory chunk and end. */
  datatype Place =
    | Calling
    | HeadDue(reached: bool, status: int)
    | ReadingBody
    | ChunkDue(chunk: Bytes, last: bool)
    | EndDue
    | WsDialling
    | WsFailed
    | AckDue
    | WsReading
    | MsgDue(msg: Bytes, isText: bool)
    | Done

  /** What became of the request upstream, or of the dial, which has no status. */
  datatype Answer = Answer(reached: bool, status: int)

  datatype Message = Message(data: Bytes, isText: bool)

  /** `out` are the frames this goroutine has handed to the writer; `body` what it
      has read of the response, or the explanation it sends instead; `answer` and
      `heard` what it has learnt from its upstream. */
  datatype Thread = Thread(http: bool, place: Place, out: seq<Frame>, body: Bytes, answer: Option<Answer>,
                           heard: seq<Message>)

  /** A broken connection swallows every later frame: the writer's error is ignored. */
  datatype State = State(threads: map<Id, Thread>, wire: seq<Frame>, broken: bool)

  datatype Step =
    | StartHttp(id: Id)
    | StartWs(id: Id)
    | Answered(id: Id, reached: bool, status: int)
    | ReadBody(id: Id, data: Bytes, over: bool)
    | WsDialled(id: Id, ok: bool)
    | WsRead(id: Id, msg: Bytes, isText: bool)
    | WsEnds(id: Id)
    | Write(id: Id, explanation: Bytes)
    | Break

  const START := State(map[], [], false)

  predicate Writing(p: Place) {
    p.HeadDue? || p.ChunkDue? || p == EndDue || p == WsFailed || p == AckDue || p.MsgDue?
  }

  predicate At(s: State, id: Id, p: Place) {
    id in s.threads && s.threads[id].place == p
  }

  predicate Enabled(s: State, step: Step) {
    match step
    case StartHttp(id) => id !in s.threads
    case StartWs(id) => id !in s.threads
    case Answered(id, _, _) => At(s, id, Calling)
    case ReadBody(id, _, _) => At(s, id, ReadingBody)
    case WsDialled(id, _) => At(s, id, WsDialling)
    case WsRead(id, _, _) => At(s, id, WsReading)
    case WsEnds(id) => At(s, id, WsReading)
    case Write(id, text) => id in s.threads && Writing(s.threads[id].place) && text != []
    case Break => true
  }

  /** The frame a writing goroutine hands over, and where it goes next. An empty
      read produces no frame. */
  function Due(id: Id, t: Thread): seq<Frame>
    requires Writing(t.place)
  {
    match t.place
    case HeadDue(reached, status) => [HttpHead(id, if reached then status else 502)]
    case ChunkDue(chunk, _) => if chunk == [] then [] else [HttpChunk(id, chunk)]
    case EndDue => [HttpEnd(id)]
    case WsFailed => [WsClose(id)]
    case AckDue => [WsOpenOk(id)]
    case MsgDue(msg, isText) => [WsMsg(id, msg, isText)]
  }

  function AfterWrite(t: Thread, text: Bytes): Thread
    requires Writing(t.place)
  {
    match t.place
    case HeadDue(reached, _) =>
      if reached then t.(place := ReadingBody) else t.(place := ChunkDue(text, true), body := text)
    case ChunkDue(_, last) => t.(place := if last then EndDue else ReadingBody)
    case EndDue => t.(place := Done)
    case WsFailed => t.(place := Done)
    case AckDue => t.(place := WsReading)
    case MsgDue(_, _) => t.(place := WsReading)
  }

  function Next(s: State, step: Step): State
    requires Enabled(s, step)
  {
    match step
    case StartHttp(id) => s.(threads := s.threads[id := Thread(true, Calling, [], [], None, [])])
    case StartWs(id) => s.(threads := s.threads[id := Thread(false, WsDialling, [], [], None, [])])
    case Answered(id, reached, status) =>
      var answer := Answer(reached, status);
      s.(threads := s.threads[id := s.threads[id].(place := HeadDue(reached, status), answer := Some(answer))])
    case ReadBody(id, data, over) =>
      s.(threads := s.threads[id := s.threads[id].(place := ChunkDue(data, over), body := s.threads[id].body + data)])
    case WsDialled(id, ok) =>
      var place := if ok then AckDue else WsFailed;
      s.(threads := s.threads[id := s.threads[id].(place := place, answer := Some(Answer(ok, 0)))])
    case WsRead(id, msg, isText) =>
      var heard := s.threads[id].heard + [Message(msg, isText)];
      s.(threads := s.threads[id := s.threads[id].(place := MsgDue(msg, isText), heard := heard)])
    case WsEnds(id) => s.(threads := s.threads[id := s.threads[id].(place := Done)])
    case Write(id, text) =>
      var t := s.threads[id];
      var frames := Due(id, t);
      s.(threads := s.threads[id := AfterWrite(t, text).(out := t.out + frames)],
         wire := if s.broken then s.wire else s.wire + frames)
    case Break => s.(broken := true)
  }

  // ---- one goroutine's own sequence of frames ----

  /** The body bytes carried by a sequence of frames. */
  function Carried(frames: seq<Frame>): Bytes {
    if frames == [] then []
    else
      var f := frames[|frames| - 1];
      Carried(frames[..|frames| - 1]) + (if f.HttpChunk? then f.data else [])
  }

  predicate Chunks(frames: seq<Frame>) {
    forall f :: f in frames ==> f.HttpChunk? && f.data != []
  }

  /** One head, then chunks, then one end. */
  predicate HttpShape(out: seq<Frame>, ended: bool) {
    if ended then |out| >= 2 && out[0].HttpHead? && Chunks(out[1..|out| - 1]) && out[|out| - 1].HttpEnd?
    else |out| >= 1 && out[0].HttpHead? && Chunks(out[1..])
  }

  /** The status that the requester is shown. */
  function Status(a: Answer): int {
    if a.reached then a.status else 502
  }

  /** The first frame tells what became of the request. */
  predicate Headed(out: seq<Frame>, answer: Option<Answer>) {
    out != [] && out[0].HttpHead? && answer.Some? && out[0].status == Status(answer.value)
  }

  predicate HttpWellFormed(t: Thread) {
    match t.place
    case Calling => t.out == [] && t.body == [] && t.answer == None
    case HeadDue(reached, status) => t.out == [] && t.body == [] && t.answer == Some(Answer(reached, status))
    case ReadingBody =>
      && HttpShape(t.out, false) && Headed(t.out, t.answer) && Carried(t.out) == t.body
      && t.answer.value.reached
    case ChunkDue(chunk, last) =>
      && HttpShape(t.out, false) && Headed(t.out, t.answer) && Carried(t.out) + chunk == t.body
      && (t.answer.value.reached || last)
    case EndDue => HttpShape(t.out, false) && Headed(t.out, t.answer) && Carried(t.out) == t.body
    case Done => HttpShape(t.out, true) && Headed(t.out, t.answer) && Carried(t.out) == t.body
    case _ => false
  }

  /** The messages that a sequence of frames tells. */
  function Said(frames: seq<Frame>): seq<Message> {
    if frames == [] then []
    else
      var f := frames[|frames| - 1];
      Said(frames[..|frames| - 1]) + (if f.WsMsg? then [Message(f.data, f.isText)] else [])
  }

  lemma SaidMore(out: seq<Frame>, f: Frame)
    ensures Said(out + [f]) == Said(out) + (if f.WsMsg? then [Message(f.data, f.isText)] else [])
  {
    assert (out + [f])[..|out|] == out;
  }

  predicate Messages(frames: seq<Frame>) {
    forall f :: f in frames ==> f.WsMsg?
  }

  predicate Acknowledged(out: seq<Frame>) {
    out != [] && out[0].WsOpenOk? && Messages(out[1..])
  }

  /** An acknowledgement and messages after a dial that succeeded, one close after one
      that failed. */
  predicate Opened(out: seq<Frame>, dialled: bool) {
    if dialled then Acknowledged(out) else |out| == 1 && out[0].WsClose?
  }

  predicate WsWellFormed(t: Thread) {
    match t.place
    case WsDialling => t.out == [] && t.heard == [] && t.answer == None
    case WsFailed => t.out == [] && t.heard == [] && t.answer == Some(Answer(false, 0))
    case AckDue => t.out == [] && t.heard == [] && t.answer == Some(Answer(true, 0))
    case WsReading => Acknowledged(t.out) && Said(t.out) == t.heard && t.answer == Some(Answer(true, 0))
    case MsgDue(msg, isText) =>
      && Acknowledged(t.out) && Said(t.out) + [Message(msg, isText)] == t.heard
      && t.answer == Some(Answer(true, 0))
    case Done => t.answer.Some? && Opened(t.out, t.answer.value.reached) && Said(t.out) == t.heard
    case _ => false
  }

  predicate WellFormed(t: Thread) {
    if t.http then HttpWellFormed(t) else WsWellFormed(t)
  }

  // ---- the wire, id by id ----

  function OnWire(wire: seq<Frame>, id: Id): seq<Frame> {
    if wire == [] then []
    else
      var f := wire[|wire| - 1];
      OnWire(wire[..|wire| - 1], id) + (if f.id == id then [f] else [])
  }

  lemma {:induction false} OnWireConcat(a: seq<Frame>, b: seq<Frame>, id: Id)
    ensures OnWire(a + b, id) == OnWire(a, id) + OnWire(b, id)
  {
    if b == [] {
      assert a + b == a;
    } else {
      OnWireConcat(a, b[..|b| - 1], id);
      assert (a + b)[..|a + b| - 1] == a + b[..|b| - 1];
    }
  }

  /** What an id shows on the wire is what its goroutine wrote, cut short by a break. */
  predicate Shown(s: State, id: Id) {
    if id in s.threads then
      && WellFormed(s.threads[id])
      && (forall f :: f in s.threads[id].out ==> f.id == id)
      && OnWire(s.wire, id) <= s.threads[id].out
      && (!s.broken ==> OnWire(s.wire, id) == s.threads[id].out)
    else
      OnWire(s.wire, id) == []
  }

  ghost predicate Inv(s: State) {
    forall id :: Shown(s, id)
  }

  lemma CarriedMore(out: seq<Frame>, f: Frame)
    ensures Carried(out + [f]) == Carried(out) + (if f.HttpChunk? then f.data else [])
  {
    assert (out + [f])[..|out|] == out;
  }

  lemma HeadOpens(f: Frame)
    requires f.HttpHead?
    ensures HttpShape([f], false) && Carried([f]) == []
  {
    CarriedMore([], f);
    assert [] + [f] == [f];
  }

  lemma ChunkExtends(out: seq<Frame>, f: Frame)
    requires HttpShape(out, false) && f.HttpChunk? && f.data != []
    ensures HttpShape(out + [f], false) && Carried(out + [f]) == Carried(out) + f.data
  {
    CarriedMore(out, f);
    assert (out + [f])[1..] == out[1..] + [f];
  }

  lemma EndCloses(out: seq<Frame>, f: Frame)
    requires HttpShape(out, false) && f.HttpEnd?
    ensures HttpShape(out + [f], true) && Carried(out + [f]) == Carried(out)
  {
    CarriedMore(out, f);
    assert (out + [f])[1..|out|] == out[1..];
  }

  lemma HttpWriteKeeps(id: Id, t: Thread, text: Bytes)
    requires t.http && HttpWellFormed(t) && Writing(t.place) && text != []
    ensures HttpWellFormed(AfterWrite(t, text).(out := t.out + Due(id, t)))
  {
    var out := t.out + Due(id, t);
    match t.place
    case HeadDue(reached, status) =>
      HeadOpens(Due(id, t)[0]);
      assert out == [Due(id, t)[0]];
    case ChunkDue(chunk, _) =>
      if chunk != [] {
        ChunkExtends(t.out, HttpChunk(id, chunk));
      } else {
        assert out == t.out;
      }
    case EndDue =>
      EndCloses(t.out, HttpEnd(id));
  }

  lemma FirstSays(f: Frame)
    requires !f.WsMsg?
    ensures Said([f]) == []
  {
    SaidMore([], f);
    assert [] + [f] == [f];
  }

  lemma MessageExtends(out: seq<Frame>, f: Frame)
    requires Acknowledged(out) && f.WsMsg?
    ensures Acknowledged(out + [f]) && Said(out + [f]) == Said(out) + [Message(f.data, f.isText)]
  {
    SaidMore(out, f);
    assert (out + [f])[1..] == out[1..] + [f];
  }

  lemma FirstWritten(t: Thread, f: Frame, place: Place)
    requires !t.http && t.out == [] && t.heard == [] && t.answer.Some? && t.answer.value.status == 0
    requires if t.answer.value.reached then f.WsOpenOk? && place == WsReading else f.WsClose? && place == Done
    ensures WsWellFormed(t.(place := place, out := t.out + [f]))
  {
    FirstSays(f);
    assert t.out + [f] == [f];
  }

  lemma MessageWritten(t: Thread, f: Frame)
    requires !t.http && t.place.MsgDue? && WsWellFormed(t)
    requires f.WsMsg? && f.data == t.place.msg && f.isText == t.place.isText
    ensures WsWellFormed(t.(place := WsReading, out := t.out + [f]))
  {
    MessageExtends(t.out, f);
  }

  lemma WsWriteKeeps(id: Id, t: Thread, text: Bytes)
    requires !t.http && WsWellFormed(t) && Writing(t.place)
    ensures WsWellFormed(AfterWrite(t, text).(out := t.out + Due(id, t)))
  {
    match t.place
    case WsFailed => FirstWritten(t, WsClose(id), Done);
    case AckDue => FirstWritten(t, WsOpenOk(id), WsReading);
    case MsgDue(msg, isText) => MessageWritten(t, WsMsg(id, msg, isText));
  }

  /** The goroutine itself: each of its own steps keeps its sequence well formed. */
  lemma OwnStepKeeps(s: State, step: Step)
    requires Enabled(s, step) && step != Break
    requires step.id in s.threads ==> WellFormed(s.threads[step.id])
    ensures WellFormed(Next(s, step).threads[step.id])
  {
    match step
    case Write(id, text) =>
      if s.threads[id].http {
        HttpWriteKeeps(id, s.threads[id], text);
      } else {
        WsWriteKeeps(id, s.threads[id], text);
      }
    case ReadBody(id, data, over) =>
      var t := s.threads[id];
      assert Carried(t.out) + data == t.body + data;
    case StartHttp(id) =>
    case StartWs(id) =>
    case Answered(id, reached, status) =>
    case WsDialled(id, ok) =>
    case WsRead(id, msg, isText) =>
    case WsEnds(id) =>
  }

  lemma DueOnWire(id: Id, t: Thread, other: Id)
    requires Writing(t.place)
    ensures OnWire(Due(id, t), other) == if other == id then Due(id, t) else []
    ensures forall f :: f in Due(id, t) ==> f.id == id
  {
    var fs := Due(id, t);
    if fs != [] {
      assert fs[..0] == [];
      assert OnWire(fs, other) == OnWire(fs[..0], other) + (if fs[0].id == other then [fs[0]] else []);
    }
  }

  lemma WriteKeepsShown(s: State, id: Id, text: Bytes, other: Id)
    requires Shown(s, id) && Shown(s, other) && Enabled(s, Write(id, text))
    ensures Shown(Next(s, Write(id, text)), other)
  {
    DueOnWire(id, s.threads[id], other);
    OnWireConcat(s.wire, Due(id, s.threads[id]), other);
    if other == id {
      OwnStepKeeps(s, Write(id, text));
      MoreShown(s, id, text);
    } else if other in s.threads {
      assert Next(s, Write(id, text)).threads[other] == s.threads[other];
    }
  }

  lemma MoreShown(s: State, id: Id, text: Bytes)
    requires Shown(s, id) && Enabled(s, Write(id, text))
    ensures var next := Next(s, Write(id, text));
      && OnWire(next.wire, id) <= next.threads[id].out
      && (!next.broken ==> OnWire(next.wire, id) == next.threads[id].out)
      && forall f :: f in next.threads[id].out ==> f.id == id
  {
    var due := Due(id, s.threads[id]);
    DueOnWire(id, s.threads[id], id);
    OnWireConcat(s.wire, due, id);
  }

  lemma ReadKeepsShown(s: State, step: Step, id: Id)
    requires Enabled(s, step) && !step.Write? && step != Break && Shown(s, id) && Shown(s, step.id)
    ensures Shown(Next(s, step), id)
  {
    OwnStepKeeps(s, step);
    if id != step.id && id in s.threads {
      assert Next(s, step).threads[id] == s.threads[id];
    }
  }

  lemma StepKeepsShown(s: State, step: Step, id: Id)
    requires Inv(s) && Enabled(s, step)
    ensures Shown(Next(s, step), id)
  {
    assert Shown(s, id);
    if step.Write? {
      assert Shown(s, step.id);
      WriteKeepsShown(s, step.id, step.explanation, id);
    } else if step != Break {
      assert Shown(s, step.id);
      ReadKeepsShown(s, step, id);
    }
  }

  lemma StepKeepsInv(s: State, step: Step)
    requires Inv(s) && Enabled(s, step)
    ensures Inv(Next(s, step))
  {
    forall id ensures Shown(Next(s, step), id) {
      StepKeepsShown(s, step, id);
    }
  }

  ghost predicate Run(s: State, steps: seq<Step>)
    decreases steps
  {
    steps == [] || (Enabled(s, steps[0]) && Run(Next(s, steps[0]), steps[1..]))
  }

  function After(s: State, steps: seq<Step>): State
    requires Run(s, steps)
    decreases steps
  {
    if steps == [] then s else After(Next(s, steps[0]), steps[1..])
  }

  lemma {:induction false} RunKeepsInv(s: State, steps: seq<Step>)
    requires Inv(s) && Run(s, steps)
    ensures Inv(After(s, steps))
    decreases steps
  {
    if steps == [] {
    } else {
      StepKeepsInv(s, steps[0]);
      RunKeepsInv(Next(s, steps[0]), steps[1..]);
    }
  }

  // ---- what a run brought ----

  /** The messages that a ws goroutine reads in a run. */
  function MessagesRead(steps: seq<Step>, id: Id): seq<Message> {
    if steps == [] then []
    else
      var first := steps[0];
      (if first.WsRead? && first.id == id then [Message(first.msg, first.isText)] else [])
      + MessagesRead(steps[1..], id)
  }

  /** The bytes that an http goroutine reads of its response in a run. */
  function BytesRead(steps: seq<Step>, id: Id): Bytes {
    if steps == [] then []
    else
      var first := steps[0];
      (if first.ReadBody? && first.id == id then first.data else []) + BytesRead(steps[1..], id)
  }

  /** The answer that a goroutine gets in a run. */
  function AnswerIn(steps: seq<Step>, id: Id): Option<Answer> {
    if steps == [] then None
    else if steps[0].Answered? && steps[0].id == id then Some(Answer(steps[0].reached, steps[0].status))
    else if steps[0].WsDialled? && steps[0].id == id then Some(Answer(steps[0].ok, 0))
    else AnswerIn(steps[1..], id)
  }

  function HeardBy(s: State, id: Id): seq<Message> {
    if id in s.threads then s.threads[id].heard else []
  }

  function BodyOf(s: State, id: Id): Bytes {
    if id in s.threads then s.threads[id].body else []
  }

  function AnswerOf(s: State, id: Id): Option<Answer> {
    if id in s.threads then s.threads[id].answer else None
  }

  predicate Unreached(s: State, id: Id) {
    AnswerOf(s, id).Some? && !AnswerOf(s, id).value.reached
  }

  lemma StepHeard(s: State, step: Step, id: Id)
    requires Inv(s) && Enabled(s, step)
    ensures HeardBy(Next(s, step), id)
         == HeardBy(s, id) + if step.WsRead? && step.id == id then [Message(step.msg, step.isText)] else []
  {
    assert Shown(s, id);
  }

  lemma StepAnswer(s: State, step: Step, id: Id)
    requires Inv(s) && Enabled(s, step)
    ensures AnswerOf(s, id).Some? ==> AnswerOf(Next(s, step), id) == AnswerOf(s, id)
    ensures AnswerOf(s, id).None? ==>
      AnswerOf(Next(s, step), id)
      == AnswerIn([step], id)
  {
    assert Shown(s, id);
    assert [step][1..] == [];
  }

  lemma StepBody(s: State, step: Step, id: Id)
    requires Inv(s) && Enabled(s, step) && !Unreached(Next(s, step), id)
    ensures BodyOf(Next(s, step), id) == BodyOf(s, id) + if step.ReadBody? && step.id == id then step.data else []
  {
    assert Shown(s, id);
  }

  lemma {:induction false} RunHeard(s: State, steps: seq<Step>, id: Id)
    requires Inv(s) && Run(s, steps)
    ensures HeardBy(After(s, steps), id) == HeardBy(s, id) + MessagesRead(steps, id)
    decreases steps
  {
    if steps == [] {
    } else {
      var first := steps[0];
      StepHeard(s, first, id);
      StepKeepsInv(s, first);
      RunHeard(Next(s, first), steps[1..], id);
      Regroup(HeardBy(s, id), if first.WsRead? && first.id == id then [Message(first.msg, first.isText)] else [],
              MessagesRead(steps[1..], id));
    }
  }

  lemma {:induction false} RunAnswer(s: State, steps: seq<Step>, id: Id)
    requires Inv(s) && Run(s, steps)
    ensures AnswerOf(After(s, steps), id) == if AnswerOf(s, id).Some? then AnswerOf(s, id) else AnswerIn(steps, id)
    decreases steps
  {
    if steps == [] {
    } else {
      StepAnswer(s, steps[0], id);
      StepKeepsInv(s, steps[0]);
      RunAnswer(Next(s, steps[0]), steps[1..], id);
    }
  }

  lemma {:induction false} RunBody(s: State, steps: seq<Step>, id: Id)
    requires Inv(s) && Run(s, steps) && !Unreached(After(s, steps), id)
    ensures BodyOf(After(s, steps), id) == BodyOf(s, id) + BytesRead(steps, id)
    decreases steps
  {
    if steps == [] {
    } else {
      var first, next := steps[0], Next(s, steps[0]);
      StepKeepsInv(s, first);
      RunAnswer(next, steps[1..], id);
      StepBody(s, first, id);
      RunBody(next, steps[1..], id);
      Regroup(BodyOf(s, id), if first.ReadBody? && first.id == id then first.data else [], BytesRead(steps[1..], id));
    }
  }

  /** Where an upstream was not reached and the requester has been told so. */
  predicate Explaining(s: State, id: Id) {
    Unreached(s, id) && s.threads[id].http && !s.threads[id].place.HeadDue?
  }

  lemma StepExplains(s: State, step: Step, id: Id)
    requires Inv(s) && Enabled(s, step)
    ensures Explaining(s, id) ==> Explaining(Next(s, step), id) && BodyOf(Next(s, step), id) == BodyOf(s, id)
    ensures !Explaining(s, id) && Explaining(Next(s, step), id) ==> step == Write(id, BodyOf(Next(s, step), id))
  {
    assert Shown(s, id);
  }

  /** What it is told is the explanation that came with a write. */
  lemma {:induction false} RunExplains(s: State, steps: seq<Step>, id: Id)
    requires Inv(s) && Run(s, steps) && Explaining(After(s, steps), id)
    ensures Explaining(s, id) ==> BodyOf(After(s, steps), id) == BodyOf(s, id)
    ensures !Explaining(s, id) ==> Write(id, BodyOf(After(s, steps), id)) in steps
    decreases steps
  {
    if steps == [] {
    } else {
      StepExplains(s, steps[0], id);
      StepKeepsInv(s, steps[0]);
      RunExplains(Next(s, steps[0]), steps[1..], id);
    }
  }

  lemma HeadShown(s: State, id: Id)
    requires Shown(s, id) && id in s.threads && s.threads[id].http && OnWire(s.wire, id) != []
    ensures Headed(OnWire(s.wire, id), s.threads[id].answer) && OnWire(s.wire, id)[0].id == id
  {
    var out := s.threads[id].out;
    assert OnWire(s.wire, id)[0] == out[0] && out[0] in out;
  }

  /** In any interleaving, a finished request shows on an unbroken wire as one head with
      the status answered, or else 502, the chunks of exactly the bytes it read, or of an
      explanation, and one end. */
  lemma HttpOnTheWire(steps: seq<Step>, id: Id)
    requires Run(START, steps)
    requires var s := After(START, steps); !s.broken && At(s, id, Done) && s.threads[id].http
    ensures var shown, answer := OnWire(After(START, steps).wire, id), AnswerIn(steps, id);
      && HttpShape(shown, true) && answer.Some?
      && shown[0] == HttpHead(id, if answer.value.reached then answer.value.status else 502)
      && Carried(shown) == After(START, steps).threads[id].body
      && (answer.value.reached ==> Carried(shown) == BytesRead(steps, id))
      && (!answer.value.reached ==> Write(id, Carried(shown)) in steps)
  {
    RunKeepsInv(START, steps);
    assert Shown(After(START, steps), id);
    HeadShown(After(START, steps), id);
    RunAnswer(START, steps, id);
    if Unreached(After(START, steps), id) {
      RunExplains(START, steps, id);
    } else {
      RunBody(START, steps, id);
    }
  }

  /** At any moment, broken or not, what a request shows is a beginning of that. */
  lemma HttpSoFar(steps: seq<Step>, id: Id)
    requires Run(START, steps)
    requires var s := After(START, steps); id in s.threads && s.threads[id].http
    ensures var shown, answer := OnWire(After(START, steps).wire, id), AnswerIn(steps, id);
      && (shown == [] || HttpShape(shown, false) || HttpShape(shown, true))
      && (shown != [] ==> answer.Some?)
      && (shown != [] ==> shown[0] == HttpHead(id, if answer.value.reached then answer.value.status else 502))
      && Carried(shown) <= After(START, steps).threads[id].body
      && (answer.Some? && answer.value.reached ==> Carried(shown) <= BytesRead(steps, id))
  {
    RunKeepsInv(START, steps);
    RunAnswer(START, steps, id);
    var s := After(START, steps);
    if !Unreached(s, id) {
      RunBody(START, steps, id);
    }
    assert Shown(s, id);
    CarriedBeginning(s.threads[id].out, OnWire(s.wire, id));
    if OnWire(s.wire, id) != [] {
      HttpBeginning(s.threads[id].out, OnWire(s.wire, id));
      HeadShown(s, id);
    }
  }

  lemma {:induction false} CarriedBeginning(out: seq<Frame>, shown: seq<Frame>)
    requires shown <= out
    ensures Carried(shown) <= Carried(out)
  {
    if shown == out {
    } else {
      CarriedBeginning(out[..|out| - 1], shown);
    }
  }

  lemma HttpBeginning(out: seq<Frame>, shown: seq<Frame>)
    requires shown <= out && shown != [] && (HttpShape(out, false) || HttpShape(out, true))
    ensures HttpShape(shown, false) || HttpShape(shown, true)
  {
    if |shown| == |out| {
      assert shown == out;
    } else {
      var chunks := if HttpShape(out, false) then out[1..] else out[1..|out| - 1];
      forall f | f in shown[1..] ensures f in chunks {
        var i :| 0 <= i < |shown| - 1 && shown[1..][i] == f;
        assert chunks[i] == f;
      }
    }
  }

  lemma WsBeginning(out: seq<Frame>, shown: seq<Frame>, dialled: bool)
    requires shown <= out && (out == [] || Opened(out, dialled))
    ensures shown == [] || Opened(shown, dialled)
  {
    if shown != [] {
      forall f | f in shown[1..] ensures f in out[1..] {
        var i :| 0 <= i < |shown| - 1 && shown[1..][i] == f;
        assert out[1..][i] == f;
      }
    }
  }

  lemma {:induction false} SaidBeginning(out: seq<Frame>, shown: seq<Frame>)
    requires shown <= out
    ensures Said(shown) <= Said(out)
  {
    if shown == out {
    } else {
      SaidBeginning(out[..|out| - 1], shown);
    }
  }

  lemma HeardFromStart(steps: seq<Step>, id: Id)
    requires Run(START, steps) && id in After(START, steps).threads
    ensures After(START, steps).threads[id].heard == MessagesRead(steps, id)
  {
    StartInv();
    RunHeard(START, steps, id);
    assert [] + MessagesRead(steps, id) == MessagesRead(steps, id);
  }

  lemma StartInv()
    ensures Inv(START)
  {
  }

  /** What of the messages heard has been handed on: all but one that is still due. */
  function HandedOn(heard: seq<Message>, place: Place): seq<Message> {
    if place.MsgDue? && heard != [] then heard[..|heard| - 1] else heard
  }

  lemma AllHandedOn(t: Thread)
    requires !t.http && WsWellFormed(t)
    ensures Said(t.out) == HandedOn(t.heard, t.place)
  {
    if t.place.MsgDue? {
      assert t.heard == Said(t.out) + [t.heard[|t.heard| - 1]];
    }
  }

  lemma WsShown(s: State, id: Id)
    requires Inv(s) && id in s.threads && !s.threads[id].http
    ensures OnWire(s.wire, id) == []
            || (s.threads[id].answer.Some? && Opened(OnWire(s.wire, id), s.threads[id].answer.value.reached))
    ensures Said(OnWire(s.wire, id)) <= HandedOn(s.threads[id].heard, s.threads[id].place)
    ensures !s.broken ==> Said(OnWire(s.wire, id)) == HandedOn(s.threads[id].heard, s.threads[id].place)
  {
    var t := s.threads[id];
    assert Shown(s, id);
    if t.answer.Some? {
      WsBeginning(t.out, OnWire(s.wire, id), t.answer.value.reached);
    }
    SaidBeginning(t.out, OnWire(s.wire, id));
    AllHandedOn(t);
  }

  /** On a ws id the acknowledgement of a dial that succeeded precedes every message, and
      the close of one that failed stands alone; the messages are those read so far, but
      for one not yet handed on, in order, with their bytes and kind, cut short by a break. */
  lemma WsOnTheWire(steps: seq<Step>, id: Id)
    requires Run(START, steps)
    requires var s := After(START, steps); id in s.threads && !s.threads[id].http
    ensures var shown, dialled := OnWire(After(START, steps).wire, id), AnswerIn(steps, id);
      shown == [] || (dialled.Some? && Opened(shown, dialled.value.reached))
    ensures var s, shown := After(START, steps), OnWire(After(START, steps).wire, id);
      && Said(shown) <= HandedOn(MessagesRead(steps, id), s.threads[id].place)
      && (!s.broken ==> Said(shown) == HandedOn(MessagesRead(steps, id), s.threads[id].place))
  {
    StartInv();
    RunKeepsInv(START, steps);
    var s := After(START, steps);
    HeardFromStart(steps, id);
    RunAnswer(START, steps, id);
    WsShown(s, id);
    assert s.threads[id].heard == MessagesRead(steps, id);
  }

  // ---- the loop inside one request ----

  /** A reply so far: its head and chunks that carry this much of the body. */
  ghost predicate Serving(out: seq<Frame>, id: Id, status: int, body: Bytes, ended: bool) {
    && HttpShape(out, ended) && out[0] == HttpHead(id, status) && Carried(out) == body
    && forall f :: f in out ==> f.id == id
  }

  lemma HeadServed(id: Id, status: int)
    ensures Serving([HttpHead(id, status)], id, status, [], false)
  {
    HeadOpens(HttpHead(id, status));
  }

  lemma OneMoreChunk(out: seq<Frame>, id: Id, status: int, body: Bytes, data: Bytes)
    requires Serving(out, id, status, body, false) && data != []
    ensures Serving(out + [HttpChunk(id, data)], id, status, body + data, false)
  {
    ChunkExtends(out, HttpChunk(id, data));
  }

  lemma Closed(out: seq<Frame>, id: Id, status: int, body: Bytes)
    requires Serving(out, id, status, body, false)
    ensures Serving(out + [HttpEnd(id)], id, status, body, true)
  {
    EndCloses(out, HttpEnd(id));
  }

  /** ServeHTTP by itself: `arrivals` are what the reads of the body bring, up to and
      including the one that fails; an upstream that cannot be asked or reached is
      explained instead. */
  method ServeHttp(id: Id, reached: bool, status: int, arrivals: seq<Bytes>, explanation: Bytes)
    returns (out: seq<Frame>)
    requires explanation != []
    ensures reached ==> Serving(out, id, status, Flat(arrivals), true)
    ensures !reached ==> Serving(out, id, 502, explanation, true)
  {
    if !reached {
      HeadServed(id, 502);
      OneMoreChunk([HttpHead(id, 502)], id, 502, [], explanation);
      assert [] + explanation == explanation;
      out := [HttpHead(id, 502)] + [HttpChunk(id, explanation)];
      Closed(out, id, 502, explanation);
    } else {
      HeadServed(id, status);
      out := [HttpHead(id, status)];
      for i := 0 to |arrivals|
        invariant Serving(out, id, status, Flat(arrivals[..i]), false)
      {
        FlatMore(arrivals[..i], arrivals[i]);
        assert arrivals[..i + 1] == arrivals[..i] + [arrivals[i]];
        if |arrivals[i]| > 0 {
          OneMoreChunk(out, id, status, Flat(arrivals[..i]), arrivals[i]);
          out := out + [HttpChunk(id, arrivals[i])];
        }
      }
      assert arrivals[..|arrivals|] == arrivals;
      Closed(out, id, status, Flat(arrivals));
    }
    out := out + [HttpEnd(id)];
  }
}
