/** internal/tcpproxy: the session table of one link, as interleaved steps of
    opens, read loops, closes and close-alls. A step is what happens between two
    points at which another goroutine can run: one critical section, one read,
    one callback or one Close. */
module TcpSessions {
  import opened Sequences

  type Conn = nat
  type Bytes = seq<bv8>

  const READ_CHUNK := 32768

  /** Where a connection's own goroutine is: in OpenTCP before the session is
      stored, then in the read loop, and after a read error on its way out. */
  datatype Place =
    | Opening
    | Reading
    | Sending(chunk: Bytes, ended: bool)
    | Ended
    | Reporting
    | Closing
    | Finished

  /** `arrived` is what Read returned, `sent` the chunks given to sendData and
      `eofs` the number of onEOF calls. */
  datatype Session = Session(id: string, place: Place, closed: bool, arrived: Bytes, sent: seq<Bytes>, eofs: nat)

  /** The map `conns`, every connection ever dialled, and the connections a
      CloseTCP or CloseAllTCP has taken out of the map and not yet closed. */
  datatype State = State(conns: map<string, Conn>, sessions: map<Conn, Session>, taken: set<Conn>)

  datatype Step =
    | Dial(c: Conn, id: string)
    | Store(c: Conn)
    | Read(c: Conn, data: Bytes, failed: bool)
    | Send(c: Conn)
    | Remove(c: Conn)
    | Report(c: Conn)
    | ReaderClose(c: Conn)
    | TakeOne(id: string)
    | TakeAll
    | CloseTaken(c: Conn)

  const START := State(map[], map[], {})

  predicate Enabled(s: State, step: Step) {
    match step
    case Dial(c, _) => c !in s.sessions
    case Store(c) => c in s.sessions && s.sessions[c].place == Opening
    case Read(c, data, _) => c in s.sessions && s.sessions[c].place == Reading && |data| <= READ_CHUNK
    case Send(c) => c in s.sessions && s.sessions[c].place.Sending?
    case Remove(c) => c in s.sessions && s.sessions[c].place == Ended
    case Report(c) => c in s.sessions && s.sessions[c].place == Reporting
    case ReaderClose(c) => c in s.sessions && s.sessions[c].place == Closing
    case TakeOne(_) => true
    case TakeAll => true
    case CloseTaken(c) => c in s.taken
  }

  function Put(s: State, c: Conn, x: Session): State {
    s.(sessions := s.sessions[c := x])
  }

  function Close(s: State, c: Conn): State {
    if c in s.sessions then Put(s, c, s.sessions[c].(closed := true)) else s
  }

  function Next(s: State, step: Step): State
    requires Enabled(s, step)
  {
    match step
    case Dial(c, id) => Put(s, c, Session(id, Opening, false, [], [], 0))
    case Store(c) =>
      // a repeated id closes the previous connection in the same critical section
      var id := s.sessions[c].id;
      var t := if id in s.conns then Close(s, s.conns[id]) else s;
      EnterMap(t, c)
    case Read(c, data, failed) =>
      Put(s, c, s.sessions[c].(place := Sending(data, failed), arrived := s.sessions[c].arrived + data))
    case Send(c) =>
      var x := s.sessions[c];
      Put(s, c, x.(place := if x.place.ended then Ended else Reading,
                   sent := if x.place.chunk == [] then x.sent else x.sent + [x.place.chunk]))
    case Remove(c) =>
      var x := s.sessions[c];
      var still := x.id in s.conns;
      var t := if still && s.conns[x.id] == c then s.(conns := s.conns - {x.id}) else s;
      Put(t, c, x.(place := if still then Reporting else Closing))
    case Report(c) => Put(s, c, s.sessions[c].(place := Closing, eofs := s.sessions[c].eofs + 1))
    case ReaderClose(c) => Put(s, c, s.sessions[c].(place := Finished, closed := true))
    case TakeOne(id) =>
      if id in s.conns then s.(conns := s.conns - {id}, taken := s.taken + {s.conns[id]}) else s
    case TakeAll => s.(conns := map[], taken := s.taken + s.conns.Values)
    case CloseTaken(c) => Close(s, c).(taken := s.taken - {c})
  }

  // ---- the invariant ----

  predicate InMap(s: State, c: Conn) {
    c in s.sessions && s.sessions[c].id in s.conns && s.conns[s.sessions[c].id] == c
  }

  /** The read loop is past its critical section and not yet past its Close. */
  predicate ReaderAboutToClose(x: Session) {
    x.place == Reporting || x.place == Closing
  }

  /** A stored connection is in the map, or closed, or about to be closed by
      whoever took it out of the map. */
  ghost predicate Accounted(s: State, c: Conn)
    requires c in s.sessions
  {
    || s.sessions[c].place == Opening
    || InMap(s, c)
    || s.sessions[c].closed
    || c in s.taken
    || ReaderAboutToClose(s.sessions[c])
  }

  predicate SmallChunks(chunks: seq<Bytes>) {
    forall b :: b in chunks ==> 0 < |b| <= READ_CHUNK
  }

  predicate Faithful(x: Session) {
    && Flat(x.sent) + (if x.place.Sending? then x.place.chunk else []) == x.arrived
    && SmallChunks(x.sent)
    && (x.place.Sending? ==> |x.place.chunk| <= READ_CHUNK)
    && x.eofs <= (if x.place == Closing || x.place == Finished then 1 else 0)
    && (x.place == Finished ==> x.closed)
    && (x.place == Opening ==> !x.closed)
  }

  ghost predicate Inv(s: State) {
    && (forall id :: id in s.conns ==>
      s.conns[id] in s.sessions && s.sessions[s.conns[id]].id == id && s.sessions[s.conns[id]].place != Opening)
    && (forall c :: c in s.taken ==> c in s.sessions && s.sessions[c].place != Opening)
    && (forall c :: c in s.sessions ==> Accounted(s, c) && Faithful(s.sessions[c]))
  }

  /** An update of one session that keeps its identity and its account keeps the invariant. */
  lemma PutKeepsInv(s: State, c: Conn, x: Session)
    requires Inv(s) && c in s.sessions && x.id == s.sessions[c].id && Faithful(x)
    requires s.sessions[c].place != Opening && x.place != Opening
    requires s.sessions[c].closed ==> x.closed
    requires ReaderAboutToClose(s.sessions[c]) ==> ReaderAboutToClose(x) || x.closed
    ensures Inv(Put(s, c, x))
  {
    var t := Put(s, c, x);
    forall d | d in t.sessions ensures Accounted(t, d) && Faithful(t.sessions[d]) {
      assert Accounted(s, d);
      assert InMap(s, d) ==> InMap(t, d);
    }
  }

  function EnterMap(t: State, c: Conn): State
    requires c in t.sessions
  {
    Put(t, c, t.sessions[c].(place := Reading)).(conns := t.conns[t.sessions[c].id := c])
  }

  lemma OpenedStaysFaithful(x: Session)
    requires Faithful(x) && x.place == Opening
    ensures Faithful(x.(place := Reading))
  {
  }

  lemma EnterMapAccounts(t: State, c: Conn, d: Conn)
    requires c in t.sessions && t.sessions[c].place == Opening && d in t.sessions && Accounted(t, d)
    requires var id := t.sessions[c].id; id in t.conns ==> t.conns[id] in t.sessions && t.sessions[t.conns[id]].closed
    ensures Accounted(EnterMap(t, c), d)
  {
    if d != c && InMap(t, d) && t.sessions[d].id != t.sessions[c].id {
      assert InMap(EnterMap(t, c), d);
    }
  }

  lemma EnterMapKeepsInv(t: State, c: Conn)
    requires Inv(t) && c in t.sessions && t.sessions[c].place == Opening
    requires var id := t.sessions[c].id; id in t.conns ==> t.sessions[t.conns[id]].closed
    ensures Inv(EnterMap(t, c))
  {
    OpenedStaysFaithful(t.sessions[c]);
    forall d | d in t.sessions ensures Accounted(EnterMap(t, c), d) {
      EnterMapAccounts(t, c, d);
    }
  }

  lemma StoreKeepsInv(s: State, c: Conn)
    requires Inv(s) && Enabled(s, Store(c))
    ensures Inv(Next(s, Store(c)))
  {
    var id := s.sessions[c].id;
    if id in s.conns {
      PutKeepsInv(s, s.conns[id], s.sessions[s.conns[id]].(closed := true));
    }
    EnterMapKeepsInv(if id in s.conns then Close(s, s.conns[id]) else s, c);
  }

  lemma RemoveKeepsInv(s: State, c: Conn)
    requires Inv(s) && Enabled(s, Remove(c))
    ensures Inv(Next(s, Remove(c)))
  {
    var u := Next(s, Remove(c));
    forall d | d in u.sessions ensures Accounted(u, d) && Faithful(u.sessions[d]) {
      assert Accounted(s, d) && Faithful(s.sessions[d]);
      assert d != c && InMap(s, d) ==> InMap(u, d);
    }
  }

  lemma TakeKeepsInv(s: State, step: Step)
    requires Inv(s) && Enabled(s, step) && (step.TakeOne? || step.TakeAll?)
    ensures Inv(Next(s, step))
  {
    var u := Next(s, step);
    forall d | d in u.sessions ensures Accounted(u, d) && Faithful(u.sessions[d]) {
      assert Accounted(s, d) && Faithful(s.sessions[d]);
      assert InMap(s, d) ==> InMap(u, d) || d in u.taken;
    }
    forall c | c in u.taken ensures c in u.sessions && u.sessions[c].place != Opening {
      if c !in s.taken && step.TakeAll? {
        var id :| id in s.conns && s.conns[id] == c;
      }
    }
  }

  lemma DialKeepsInv(s: State, c: Conn, id: string)
    requires Inv(s) && Enabled(s, Dial(c, id))
    ensures Inv(Next(s, Dial(c, id)))
  {
    var u := Next(s, Dial(c, id));
    forall d | d in u.sessions ensures Accounted(u, d) && Faithful(u.sessions[d]) {
      if d != c {
        assert Accounted(s, d) && Faithful(s.sessions[d]);
        assert InMap(s, d) ==> InMap(u, d);
      }
    }
  }

  lemma CloseTakenKeepsInv(s: State, c: Conn)
    requires Inv(s) && Enabled(s, CloseTaken(c))
    ensures Inv(Next(s, CloseTaken(c)))
  {
    PutKeepsInv(s, c, s.sessions[c].(closed := true));
    var t, u := Close(s, c), Next(s, CloseTaken(c));
    forall d | d in u.sessions ensures Accounted(u, d) && Faithful(u.sessions[d]) {
      assert Accounted(t, d) && Faithful(t.sessions[d]);
      assert InMap(t, d) ==> InMap(u, d);
    }
  }

  lemma SentFaithful(x: Session)
    requires Faithful(x) && x.place.Sending?
    ensures Faithful(x.(place := if x.place.ended then Ended else Reading,
                        sent := if x.place.chunk == [] then x.sent else x.sent + [x.place.chunk]))
  {
    FlatMore(x.sent, x.place.chunk);
    assert Flat(x.sent) + [] == Flat(x.sent);
  }

  lemma SendKeepsInv(s: State, c: Conn)
    requires Inv(s) && Enabled(s, Send(c))
    ensures Inv(Next(s, Send(c)))
  {
    assert Faithful(s.sessions[c]);
    SentFaithful(s.sessions[c]);
    PutKeepsInv(s, c, Next(s, Send(c)).sessions[c]);
  }

  lemma ReadFaithful(x: Session, data: Bytes, failed: bool)
    requires Faithful(x) && x.place == Reading && |data| <= READ_CHUNK
    ensures Faithful(x.(place := Sending(data, failed), arrived := x.arrived + data))
  {
  }

  lemma ReportFaithful(x: Session)
    requires Faithful(x) && x.place == Reporting
    ensures Faithful(x.(place := Closing, eofs := x.eofs + 1))
  {
  }

  lemma CloseFaithful(x: Session)
    requires Faithful(x) && x.place == Closing
    ensures Faithful(x.(place := Finished, closed := true))
  {
  }

  lemma ReadKeepsInv(s: State, c: Conn, data: Bytes, failed: bool)
    requires Inv(s) && Enabled(s, Read(c, data, failed))
    ensures Inv(Next(s, Read(c, data, failed)))
  {
    var x := s.sessions[c];
    var y := x.(place := Sending(data, failed), arrived := x.arrived + data);
    ReadFaithful(x, data, failed);
    assert Next(s, Read(c, data, failed)) == Put(s, c, y);
    PutKeepsInv(s, c, y);
  }

  lemma ReportKeepsInv(s: State, c: Conn)
    requires Inv(s) && Enabled(s, Report(c))
    ensures Inv(Next(s, Report(c)))
  {
    var x := s.sessions[c];
    var y := x.(place := Closing, eofs := x.eofs + 1);
    ReportFaithful(x);
    assert Next(s, Report(c)) == Put(s, c, y);
    PutKeepsInv(s, c, y);
  }

  lemma ReaderCloseKeepsInv(s: State, c: Conn)
    requires Inv(s) && Enabled(s, ReaderClose(c))
    ensures Inv(Next(s, ReaderClose(c)))
  {
    var x := s.sessions[c];
    var y := x.(place := Finished, closed := true);
    CloseFaithful(x);
    assert Next(s, ReaderClose(c)) == Put(s, c, y);
    PutKeepsInv(s, c, y);
  }

  lemma StepKeepsInv(s: State, step: Step)
    requires Inv(s) && Enabled(s, step)
    ensures Inv(Next(s, step))
  {
    match step
    case Dial(c, id) => DialKeepsInv(s, c, id);
    case Store(c) => StoreKeepsInv(s, c);
    case Remove(c) => RemoveKeepsInv(s, c);
    case TakeOne(_) => TakeKeepsInv(s, step);
    case TakeAll => TakeKeepsInv(s, step);
    case CloseTaken(c) => CloseTakenKeepsInv(s, c);
    case Send(c) => SendKeepsInv(s, c);
    case Read(c, data, failed) => ReadKeepsInv(s, c, data, failed);
    case Report(c) => ReportKeepsInv(s, c);
    case ReaderClose(c) => ReaderCloseKeepsInv(s, c);
  }

  // ---- over every run ----

  ghost predicate Run(s: State, steps: seq<Step>)
    decreases steps
  {
    steps == [] || (Enabled(s, steps[0]) && Run(Next(s, steps[0]), steps[1..]))
  }

  function After(s: State, steps: seq<Step>): State
    requires Run(s, steps)
    decreases steps
  {
    if steps == [] then s else After(Next(s, steps[0]), steps[1..])
  }

  lemma {:induction false} RunKeepsInv(s: State, steps: seq<Step>)
    requires Inv(s) && Run(s, steps)
    ensures Inv(After(s, steps))
    decreases steps
  {
    if steps == [] {
    } else {
      StepKeepsInv(s, steps[0]);
      RunKeepsInv(Next(s, steps[0]), steps[1..]);
    }
  }

  /** No interleaving loses a connection, reports its end twice, or changes what it carried. */
  lemma EveryRun(steps: seq<Step>, c: Conn)
    requires Run(START, steps) && c in After(START, steps).sessions
    ensures var s := After(START, steps); var x := s.sessions[c];
      && Accounted(s, c)
      && (forall id :: id in s.conns && s.conns[id] == c ==> id == x.id)
      && x.eofs <= 1
      && Flat(x.sent) <= x.arrived
      && (forall b :: b in x.sent ==> 0 < |b| <= 32 * 1024)
      && (!x.place.Sending? ==> Flat(x.sent) == x.arrived)
  {
    RunKeepsInv(START, steps);
  }

  /** Once nobody is between taking a connection out and closing it, every
      connection outside the map is closed. */
  lemma NothingLeaks(steps: seq<Step>, c: Conn)
    requires Run(START, steps) && c in After(START, steps).sessions
    requires After(START, steps).taken == {}
    requires var x := After(START, steps).sessions[c]; x.place != Opening && !ReaderAboutToClose(x)
    ensures InMap(After(START, steps), c) || After(START, steps).sessions[c].closed
  {
    RunKeepsInv(START, steps);
    var s := After(START, steps);
    assert Accounted(s, c);
  }

  // ---- the end of a link ----

  /** A connection in the map is open, and nobody is about to close it. */
  ghost predicate Alive(s: State) {
    forall c :: InMap(s, c) ==> AliveAt(s, c)
  }

  ghost predicate AliveAt(s: State, c: Conn)
    requires c in s.sessions
  {
    !s.sessions[c].closed && c !in s.taken && !ReaderAboutToClose(s.sessions[c]) && s.sessions[c].place != Finished
  }

  lemma WasInMap(s: State, step: Step, c: Conn)
    requires Inv(s) && Enabled(s, step) && InMap(Next(s, step), c) && step != Store(c)
    ensures InMap(s, c)
  {
  }

  lemma StaysAlive(s: State, step: Step, c: Conn)
    requires Inv(s) && Enabled(s, step) && InMap(s, c) && InMap(Next(s, step), c) && step != Store(c)
    requires AliveAt(s, c)
    ensures AliveAt(Next(s, step), c)
  {
  }

  lemma StoredAlive(s: State, c: Conn)
    requires Inv(s) && Enabled(s, Store(c))
    ensures c in Next(s, Store(c)).sessions && AliveAt(Next(s, Store(c)), c)
  {
    assert Accounted(s, c) && Faithful(s.sessions[c]);
  }

  lemma StepKeepsAlive(s: State, step: Step)
    requires Inv(s) && Alive(s) && Enabled(s, step)
    ensures Alive(Next(s, step))
  {
    forall c | InMap(Next(s, step), c) ensures AliveAt(Next(s, step), c) {
      if step == Store(c) {
        StoredAlive(s, c);
      } else {
        WasInMap(s, step, c);
        StaysAlive(s, step, c);
      }
    }
  }

  /** The connections in the map, and those about to be put there, were in flight at `t`. */
  ghost predicate OnlyInFlight(t: State, s: State) {
    && (forall c :: InMap(s, c) ==> c in t.sessions && t.sessions[c].place == Opening)
    && (forall c :: c in s.sessions && s.sessions[c].place == Opening ==>
      c in t.sessions && t.sessions[c].place == Opening)
  }

  lemma StepKeepsOnlyInFlight(t: State, s: State, step: Step)
    requires Inv(s) && OnlyInFlight(t, s) && Enabled(s, step) && !step.Dial?
    ensures OnlyInFlight(t, Next(s, step))
  {
    var next := Next(s, step);
    forall c | InMap(next, c) ensures c in t.sessions && t.sessions[c].place == Opening {
      assert step == Store(c) || InMap(s, c);
    }
  }

  lemma {:induction false} WithoutDials(t: State, s: State, steps: seq<Step>)
    requires Inv(s) && Alive(s) && OnlyInFlight(t, s) && Run(s, steps)
    requires forall i :: 0 <= i < |steps| ==> !steps[i].Dial?
    ensures Inv(After(s, steps)) && Alive(After(s, steps)) && OnlyInFlight(t, After(s, steps))
    decreases steps
  {
    if steps == [] {
    } else {
      StepKeepsInv(s, steps[0]);
      StepKeepsAlive(s, steps[0]);
      StepKeepsOnlyInFlight(t, s, steps[0]);
      assert forall i :: 0 <= i < |steps| - 1 ==> steps[1..][i] == steps[i + 1];
      WithoutDials(t, Next(s, steps[0]), steps[1..]);
    }
  }

  lemma {:induction false} RunKeepsAlive(s: State, steps: seq<Step>)
    requires Inv(s) && Alive(s) && Run(s, steps)
    ensures Alive(After(s, steps))
    decreases steps
  {
    if steps == [] {
    } else {
      StepKeepsInv(s, steps[0]);
      StepKeepsAlive(s, steps[0]);
      RunKeepsAlive(Next(s, steps[0]), steps[1..]);
    }
  }

  /** Nobody is at work on a connection: none is in flight, taken, or on its way out. */
  ghost predicate Settled(s: State) {
    s.taken == {} && forall c :: c in s.sessions ==>
      s.sessions[c].place != Opening && !ReaderAboutToClose(s.sessions[c])
  }

  /** When a link goes down: after the close-all, with no dial begun since and everybody
      done, every connection there ever was is closed if and only if none of the dials in
      flight at the close-all has put its connection in the map and left it there. */
  lemma CloseAllExactly(steps: seq<Step>, more: seq<Step>)
    requires Run(START, steps) && Run(Next(After(START, steps), TakeAll), more)
    requires forall i :: 0 <= i < |more| ==> !more[i].Dial?
    requires Settled(After(Next(After(START, steps), TakeAll), more))
    ensures var t := After(START, steps); var end := After(Next(t, TakeAll), more);
      (forall c :: c in end.sessions ==> end.sessions[c].closed) <==>
      (forall c :: c in t.sessions && t.sessions[c].place == Opening ==> !InMap(end, c))
    ensures var t := After(START, steps); var end := After(Next(t, TakeAll), more);
      (forall c :: c in t.sessions ==> t.sessions[c].place != Opening) ==>
        (forall c :: c in end.sessions ==> end.sessions[c].closed)
  {
    var t := After(START, steps);
    var down := Next(t, TakeAll);
    RunKeepsInv(START, steps);
    RunKeepsAlive(START, steps);
    StepKeepsInv(t, TakeAll);
    StepKeepsAlive(t, TakeAll);
    WithoutDials(t, down, more);
    var end := After(down, more);
    forall c | c in end.sessions ensures end.sessions[c].closed <==> !InMap(end, c) {
      assert Accounted(end, c);
    }
    forall c | InMap(end, c) ensures c in t.sessions && t.sessions[c].place == Opening {}
  }

  // ---- the other half: a dial in flight can always end up open ----

  function At(s: State, place: Place): set<Conn> {
    set c | c in s.sessions && s.sessions[c].place == place
  }

  /** Something that is still to be done before a state is settled, apart from storing `c`. */
  ghost predicate Owes(s: State, c: Conn, step: Step) {
    && Enabled(s, step)
    && match step
       case CloseTaken(_) => true
       case Store(d) => d != c
       case Report(_) => true
       case ReaderClose(_) => true
       case _ => false
  }

  /** Only one connection moves, to a place of its own. */
  ghost predicate Moves(s: State, t: State, d: Conn, place: Place) {
    && t.sessions.Keys == s.sessions.Keys && d in s.sessions && t.sessions[d].place == place
    && forall x :: x in s.sessions && x != d ==> t.sessions[x].place == s.sessions[x].place
  }

  function Destination(s: State, step: Step): Place
    requires Enabled(s, step) && (step.CloseTaken? ==> step.c in s.sessions)
  {
    match step
    case Store(_) => Reading
    case Report(_) => Closing
    case ReaderClose(_) => Finished
    case CloseTaken(d) => s.sessions[d].place
    case _ => Reading
  }

  lemma StoreMoves(s: State, d: Conn)
    requires Inv(s) && Enabled(s, Store(d))
    ensures Moves(s, Next(s, Store(d)), d, Reading) && Next(s, Store(d)).taken == s.taken
  {
  }

  lemma CloseTakenMoves(s: State, d: Conn)
    requires Inv(s) && Enabled(s, CloseTaken(d))
    ensures d in s.sessions && Moves(s, Next(s, CloseTaken(d)), d, s.sessions[d].place)
    ensures s.sessions[d].place != Opening && Next(s, CloseTaken(d)).taken == s.taken - {d}
  {
  }

  lemma OwedMoves(s: State, c: Conn, step: Step)
    requires Inv(s) && c in s.sessions && s.sessions[c].place == Opening && Owes(s, c, step)
    ensures step.c in s.sessions && Moves(s, Next(s, step), step.c, Destination(s, step))
    ensures step.c != c && Next(s, step).taken == if step.CloseTaken? then s.taken - {step.c} else s.taken
  {
    match step
    case Store(d) => StoreMoves(s, d);
    case CloseTaken(d) => CloseTakenMoves(s, d);
    case Report(_) =>
    case ReaderClose(_) =>
  }

  lemma AtMoved(s: State, t: State, d: Conn, place: Place, q: Place)
    requires Moves(s, t, d, place) && q != place
    ensures At(t, q) == At(s, q) - {d}
    ensures s.sessions[d].place != q ==> At(t, q) == At(s, q)
    ensures s.sessions[d].place == q ==> |At(t, q)| < |At(s, q)|
  {
    assert s.sessions[d].place == q ==> d in At(s, q);
  }

  /** The end is nearer: fewer are taken, or else in flight, or reporting, or closing. */
  ghost predicate Nearer(s: State, t: State) {
    || |t.taken| < |s.taken|
    || (t.taken == s.taken && |At(t, Opening)| < |At(s, Opening)|)
    || (t.taken == s.taken && At(t, Opening) == At(s, Opening) && |At(t, Reporting)| < |At(s, Reporting)|)
    || (t.taken == s.taken && At(t, Opening) == At(s, Opening) && At(t, Reporting) == At(s, Reporting)
        && |At(t, Closing)| < |At(s, Closing)|)
  }

  lemma MoveIsNearer(s: State, t: State, d: Conn, place: Place)
    requires Moves(s, t, d, place) && t.taken == s.taken
    requires var was := s.sessions[d].place;
      || (was == Opening && place == Reading)
      || (was == Reporting && place == Closing)
      || (was == Closing && place == Finished)
    ensures Nearer(s, t)
  {
    AtMoved(s, t, d, place, Opening);
    if s.sessions[d].place == Reporting {
      AtMoved(s, t, d, place, Reporting);
    } else if s.sessions[d].place == Closing {
      AtMoved(s, t, d, place, Reporting);
      AtMoved(s, t, d, place, Closing);
    }
  }

  /** Doing it brings the end nearer. */
  lemma OwedStep(s: State, c: Conn, step: Step)
    requires Inv(s) && c in s.sessions && s.sessions[c].place == Opening && Owes(s, c, step)
    ensures c in Next(s, step).sessions && Next(s, step).sessions[c].place == Opening
    ensures Nearer(s, Next(s, step))
  {
    OwedMoves(s, c, step);
    if step.CloseTaken? {
      assert |s.taken - {step.c}| < |s.taken|;
    } else {
      MoveIsNearer(s, Next(s, step), step.c, Destination(s, step));
    }
  }

  /** Something is owed, unless only the storing of `c` is left. */
  lemma SomethingOwed(s: State, c: Conn) returns (step: Step)
    requires Inv(s) && c in s.sessions && s.sessions[c].place == Opening
    requires !(s.taken == {} && At(s, Opening) == {c} && At(s, Reporting) == {} && At(s, Closing) == {})
    ensures Owes(s, c, step)
  {
    if s.taken != {} {
      var d :| d in s.taken;
      step := CloseTaken(d);
    } else if At(s, Opening) != {c} {
      assert c in At(s, Opening);
      var d :| d in At(s, Opening) && d != c;
      step := Store(d);
    } else if At(s, Reporting) != {} {
      var d :| d in At(s, Reporting);
      step := Report(d);
    } else {
      var d :| d in At(s, Closing);
      step := ReaderClose(d);
    }
  }

  /** With nothing owed but the storing of `c`, that leaves it open in the map. */
  lemma StoredLast(s: State, c: Conn)
    requires Inv(s) && c in s.sessions && s.sessions[c].place == Opening
    requires s.taken == {} && At(s, Opening) == {c} && At(s, Reporting) == {} && At(s, Closing) == {}
    ensures Run(s, [Store(c)]) && Settled(After(s, [Store(c)]))
    ensures InMap(After(s, [Store(c)]), c) && !After(s, [Store(c)]).sessions[c].closed
  {
    assert Accounted(s, c) && Faithful(s.sessions[c]);
    var t := Next(s, Store(c));
    Unroll(s, [Store(c)]);
    assert [Store(c)][1..] == [];
    forall d | d in t.sessions ensures t.sessions[d].place != Opening && !ReaderAboutToClose(t.sessions[d]) {
      assert d in s.sessions;
      if d != c {
        assert d !in At(s, Opening) && d !in At(s, Reporting) && d !in At(s, Closing);
      }
    }
  }

  /** From any reachable state with a dial in flight, everybody can finish, without
      another dial, so that its connection is open in the map. */
  lemma CanEndOpen(s: State, c: Conn) returns (more: seq<Step>)
    requires Inv(s) && c in s.sessions && s.sessions[c].place == Opening
    ensures Run(s, more) && forall i :: 0 <= i < |more| ==> !more[i].Dial?
    ensures Settled(After(s, more)) && InMap(After(s, more), c) && !After(s, more).sessions[c].closed
    decreases |s.taken|, |At(s, Opening)|, |At(s, Reporting)|, |At(s, Closing)|
  {
    if s.taken == {} && At(s, Opening) == {c} && At(s, Reporting) == {} && At(s, Closing) == {} {
      StoredLast(s, c);
      more := [Store(c)];
    } else {
      var step := SomethingOwed(s, c);
      OwedStep(s, c, step);
      StepKeepsInv(s, step);
      var rest := CanEndOpen(Next(s, step), c);
      more := [step] + rest;
      assert more[1..] == rest;
      Unroll(s, more);
    }
  }

  /** Everybody done after a close-all, however they went on, without another dial. */
  ghost predicate GoesOn(t: State, more: seq<Step>) {
    Run(t, more) && (forall i :: 0 <= i < |more| ==> !more[i].Dial?) && Settled(After(t, more))
  }

  ghost predicate AllClosed(s: State) {
    forall c :: c in s.sessions ==> s.sessions[c].closed
  }

  /** What a close-all is worth, by what is known when it is called: however everybody
      goes on and finishes, every connection there ever was is closed, if and only if no
      dial is in flight at that moment. */
  lemma CloseAllSufficesExactly(steps: seq<Step>)
    requires Run(START, steps)
    ensures (forall more :: GoesOn(Next(After(START, steps), TakeAll), more) ==>
              AllClosed(After(Next(After(START, steps), TakeAll), more)))
            <==> At(After(START, steps), Opening) == {}
  {
    var s := After(START, steps);
    var t := Next(s, TakeAll);
    if At(s, Opening) == {} {
      forall more | GoesOn(t, more) ensures AllClosed(After(t, more)) {
        forall c | c in s.sessions ensures s.sessions[c].place != Opening {
          assert c !in At(s, Opening);
        }
        CloseAllExactly(steps, more);
      }
    } else {
      var c :| c in At(s, Opening);
      RunKeepsInv(START, steps);
      StepKeepsInv(s, TakeAll);
      var more := CanEndOpen(t, c);
      assert GoesOn(t, more) && !AllClosed(After(t, more));
    }
  }

  /** A dial in flight at the close-all does stay open in the map of the dead link. */
  lemma DialInFlightStaysOpen(id: string)
    ensures var steps := [Dial(0, id), TakeAll, Store(0)];
      && Run(START, steps) && Settled(After(START, steps))
      && InMap(After(START, steps), 0) && !After(START, steps).sessions[0].closed
  {
    var s1 := Next(START, Dial(0, id));
    var s2 := Next(s1, TakeAll);
    Unroll(s2, [Store(0)]);
    Unroll(s1, [TakeAll, Store(0)]);
    Unroll(START, [Dial(0, id), TakeAll, Store(0)]);
  }

  /** A read loop changes no entry of the map but its own connection's. */
  lemma ReaderTouchesOnlyItsOwn(s: State, step: Step, id: string)
    requires Enabled(s, step) && (step.Read? || step.Send? || step.Remove? || step.Report? || step.ReaderClose?)
    requires id in s.conns && (id !in Next(s, step).conns || Next(s, step).conns[id] != s.conns[id])
    ensures s.conns[id] == step.c
  {
  }

  /** A read loop that has failed calls onEOF exactly when its id names some
      session at that moment, and that session is its own only if nobody has
      stored another one under the same id. */
  lemma ReportsExactly(s: State, c: Conn)
    requires Enabled(s, Remove(c))
    ensures Next(s, Remove(c)).sessions[c].place == Reporting <==> s.sessions[c].id in s.conns
    ensures InMap(s, c) ==> Next(s, Remove(c)).conns == s.conns - {s.sessions[c].id}
    ensures !InMap(s, c) ==> Next(s, Remove(c)).conns == s.conns
  {
  }

  /** So onEOF is not a report about the live session: once another connection
      is stored under its id, a loop that fails reports the end of an id that is alive. */
  lemma StaleReport(s: State, c: Conn, d: Conn)
    requires Inv(s) && c in s.sessions && s.sessions[c].place == Reading
    requires InMap(s, d) && s.sessions[d].id == s.sessions[c].id && c != d && !s.sessions[d].closed
    ensures var steps := [Read(c, [], true), Send(c), Remove(c), Report(c)];
      && Run(s, steps) && c in After(s, steps).sessions
      && After(s, steps).sessions[c].eofs == 1
      && InMap(After(s, steps), d) && !After(s, steps).sessions[d].closed
  {
    assert Faithful(s.sessions[c]);
    var s1 := Next(s, Read(c, [], true));
    var s2 := Next(s1, Send(c));
    var s3 := Next(s2, Remove(c));
    Unroll(s3, [Report(c)]);
    Unroll(s2, [Remove(c), Report(c)]);
    Unroll(s1, [Send(c), Remove(c), Report(c)]);
    Unroll(s, [Read(c, [], true), Send(c), Remove(c), Report(c)]);
  }

  /** Such states are reachable: two opens under one id. */
  lemma RepeatedIdReachable(id: string)
    ensures var steps := [Dial(0, id), Store(0), Dial(1, id), Store(1)];
      && Run(START, steps) && 0 in After(START, steps).sessions
      && After(START, steps).sessions[0] == Session(id, Reading, true, [], [], 0)
      && InMap(After(START, steps), 1) && After(START, steps).sessions[1] == Session(id, Reading, false, [], [], 0)
  {
    var s1 := Next(START, Dial(0, id));
    var s2 := Next(s1, Store(0));
    var s3 := Next(s2, Dial(1, id));
    Unroll(s3, [Store(1)]);
    Unroll(s2, [Dial(1, id), Store(1)]);
    Unroll(s1, [Store(0), Dial(1, id), Store(1)]);
    Unroll(START, [Dial(0, id), Store(0), Dial(1, id), Store(1)]);
  }

  lemma Unroll(s: State, steps: seq<Step>)
    requires steps != [] && Enabled(s, steps[0])
    ensures Run(s, steps) <==> Run(Next(s, steps[0]), steps[1..])
    ensures Run(s, steps) ==> After(s, steps) == After(Next(s, steps[0]), steps[1..])
  {
  }

  // ---- the code, each goroutine by itself ----

  lemma {:induction false} RunsJoin(s: State, a: seq<Step>, b: seq<Step>)
    requires Run(s, a) && Run(After(s, a), b)
    ensures Run(s, a + b) && After(s, a + b) == After(After(s, a), b)
    decreases a
  {
    if a == [] {
      assert a + b == b;
    } else {
      RunsJoin(Next(s, a[0]), a[1..], b);
      assert (a + b)[0] == a[0] && (a + b)[1..] == a[1..] + b;
    }
  }

  /** The run so far, with one more step. */
  lemma OneMoreStep(s: State, steps: seq<Step>, step: Step)
    requires Run(s, steps) && Enabled(After(s, steps), step)
    ensures Run(s, steps + [step]) && After(s, steps + [step]) == Next(After(s, steps), step)
  {
    var t := After(s, steps);
    Unroll(t, [step]);
    RunsJoin(s, steps, [step]);
  }

  /** The handler, with the connections of the world around it. What its methods do
      between two points at which another goroutine can run is one step. */
  class Handler {
    var conns: map<string, Conn>
    var sessions: map<Conn, Session>
    var taken: set<Conn>

    function View(): State
      reads this
    {
      State(conns, sessions, taken)
    }

    constructor ()
      ensures View() == START
    {
      conns, sessions, taken := map[], map[], {};
    }

    method Shut(c: Conn)
      modifies this`sessions
      ensures View() == Close(old(View()), c)
    {
      if c in sessions {
        sessions := sessions[c := sessions[c].(closed := true)];
      }
    }

    /** OpenTCP once the dial has answered: a previous connection under the id is closed. */
    method StoreSession(c: Conn)
      requires Enabled(View(), Store(c))
      modifies this
      ensures View() == Next(old(View()), Store(c))
    {
      var id := sessions[c].id;
      if id in conns {
        Shut(conns[id]);
      }
      conns := conns[id := c];
      sessions := sessions[c := sessions[c].(place := Reading)];
    }

    /** The critical section of a read loop that has failed. */
    method Forget(c: Conn) returns (still: bool)
      requires Enabled(View(), Remove(c))
      modifies this
      ensures View() == Next(old(View()), Remove(c))
      ensures still == (old(sessions)[c].id in old(conns))
    {
      var id := sessions[c].id;
      still := id in conns;
      if still && conns[id] == c {
        conns := conns - {id};
      }
      sessions := sessions[c := sessions[c].(place := if still then Reporting else Closing)];
    }

    /** One turn of the read loop: a read, and its bytes sent on if there are any. */
    method ReadOnce(c: Conn, data: Bytes, failed: bool) returns (ghost steps: seq<Step>)
      requires c in sessions && sessions[c].place == Reading && |data| <= READ_CHUNK
      modifies this`sessions
      ensures Run(old(View()), steps) && View() == After(old(View()), steps)
      ensures c in sessions && sessions[c].place == if failed then Ended else Reading
      ensures sessions[c].arrived == old(sessions)[c].arrived + data
    {
      ghost var start := View();
      OneMoreStep(start, [], Read(c, data, failed));
      steps := [] + [Read(c, data, failed)];
      sessions := sessions[c := sessions[c].(place := Sending(data, failed), arrived := sessions[c].arrived + data)];
      OneMoreStep(start, steps, Send(c));
      steps := steps + [Send(c)];
      var x := sessions[c];
      var place := if failed then Ended else Reading;
      var sent := if |data| > 0 then x.sent + [data] else x.sent;
      sessions := sessions[c := x.(place := place, sent := sent)];
    }

    /** The read loop: every read that brings bytes is sent on, and the first that
        fails ends it. `arrivals` are the reads, the last of them the failing one. */
    method ReadLoop(c: Conn, arrivals: seq<Bytes>) returns (ghost steps: seq<Step>)
      requires c in sessions && sessions[c].place == Reading && arrivals != []
      requires forall i :: 0 <= i < |arrivals| ==> |arrivals[i]| <= READ_CHUNK
      modifies this
      ensures Run(old(View()), steps) && View() == After(old(View()), steps)
      ensures c in sessions && sessions[c].place == Finished && sessions[c].closed
      ensures sessions[c].arrived == old(sessions)[c].arrived + Flat(arrivals)
    {
      steps := [];
      ghost var start := View();
      var n := 0;
      while n < |arrivals|
        invariant n <= |arrivals| && Run(start, steps) && View() == After(start, steps)
        invariant c in sessions && sessions[c].place == if n < |arrivals| then Reading else Ended
        invariant sessions[c].arrived == start.sessions[c].arrived + Flat(arrivals[..n])
      {
        ghost var more := ReadOnce(c, arrivals[n], n == |arrivals| - 1);
        RunsJoin(start, steps, more);
        steps := steps + more;
        FlatMore(arrivals[..n], arrivals[n]);
        Regroup(start.sessions[c].arrived, Flat(arrivals[..n]), arrivals[n]);
        assert arrivals[..n + 1] == arrivals[..n] + [arrivals[n]];
        n := n + 1;
      }
      assert arrivals[..n] == arrivals;
      ghost var read, more := steps, [];
      more := WindUp(c);
      RunsJoin(start, read, more);
      steps := read + more;
    }

    /** A failed read loop: forget the session, report if the id named one, close. */
    method WindUp(c: Conn) returns (ghost steps: seq<Step>)
      requires c in sessions && sessions[c].place == Ended
      modifies this
      ensures Run(old(View()), steps) && View() == After(old(View()), steps)
      ensures c in sessions && sessions[c].place == Finished && sessions[c].closed
      ensures sessions[c].arrived == old(sessions)[c].arrived
    {
      ghost var start := View();
      OneMoreStep(start, [], Remove(c));
      steps := [] + [Remove(c)];
      var still := Forget(c);
      if still {
        OneMoreStep(start, steps, Report(c));
        steps := steps + [Report(c)];
        sessions := sessions[c := sessions[c].(place := Closing, eofs := sessions[c].eofs + 1)];
      }
      OneMoreStep(start, steps, ReaderClose(c));
      steps := steps + [ReaderClose(c)];
      sessions := sessions[c := sessions[c].(place := Finished, closed := true)];
    }

    /** One session taken out and closed; nothing when there is none. */
    method CloseTCP(id: string) returns (ghost steps: seq<Step>)
      modifies this
      ensures Run(old(View()), steps) && View() == After(old(View()), steps)
      ensures conns == old(conns) - {id}
      ensures id in old(conns) && old(conns)[id] in old(sessions) ==>
        old(conns)[id] in sessions && sessions[old(conns)[id]].closed
    {
      ghost var start := View();
      steps := [TakeOne(id)];
      OneMoreStep(start, [], TakeOne(id));
      assert [] + [TakeOne(id)] == [TakeOne(id)];
      if id in conns {
        var c := conns[id];
        conns, taken := conns - {id}, taken + {c};
        OneMoreStep(start, steps, CloseTaken(c));
        steps := steps + [CloseTaken(c)];
        Shut(c);
        taken := taken - {c};
      }
    }

    /** Every session taken out in one critical section, and closed one by one. */
    method CloseAllTCP() returns (ghost steps: seq<Step>)
      modifies this
      ensures Run(old(View()), steps) && View() == After(old(View()), steps)
      ensures conns == map[]
      ensures forall c :: c in old(conns).Values && c in old(sessions) ==> c in sessions && sessions[c].closed
    {
      ghost var start := View();
      steps := [TakeAll];
      OneMoreStep(start, [], TakeAll);
      assert [] + [TakeAll] == [TakeAll];
      var left := conns.Values;
      ghost var all := left;
      conns, taken := map[], taken + left;
      while left != {}
        invariant Run(start, steps) && View() == After(start, steps)
        invariant conns == map[] && left <= taken && left <= all
        invariant forall c :: c in start.sessions ==> c in sessions
        invariant forall c :: c in all && c !in left && c in start.sessions ==> sessions[c].closed
      {
        var c :| c in left;
        OneMoreStep(start, steps, CloseTaken(c));
        steps := steps + [CloseTaken(c)];
        Shut(c);
        left, taken := left - {c}, taken - {c};
      }
    }
  }
}
