/** internal/link's reconnect loop and internal/tunnelproxy's bounded dial retry. */
module Reconnect {
  import opened Wrappers

  // ---- the backoff ----

  function Pow2(n: nat): nat {
    if n == 0 then 1 else 2 * Pow2(n - 1)
  }

  function Min(a: int, b: int): int {
    if a <= b then a else b
  }

  /** nextBackoff */
  function NextBackoff(cur: int, max: int): int {
    if cur * 2 > max then max else cur * 2
  }

  /** The n-th wait of a streak: the first is never capped. */
  function Wait(min: int, max: int, n: nat): int
    requires n >= 1
  {
    if n == 1 then min else Min(max, min * Pow2(n - 1))
  }

  lemma WaitStep(min: int, max: int, n: nat)
    requires min > 0 && max > 0 && n >= 1
    ensures NextBackoff(Wait(min, max, n), max) == Wait(min, max, n + 1)
  {
    assert Pow2(n) == 2 * Pow2(n - 1);
    assert min * Pow2(n) == 2 * (min * Pow2(n - 1));
  }

  /** The promised form min(Max, Min * 2^(n-1)) holds from the second wait on, and
      of the first exactly when the minimum does not exceed the maximum. */
  lemma WaitIsCappedExactly(min: int, max: int, n: nat)
    requires min > 0 && max > 0 && n >= 1
    ensures Wait(min, max, n) == Min(max, min * Pow2(n - 1)) <==> n >= 2 || min <= max
  {
  }

  // ---- the loop ----

  /** A token by its identity; EMPTY is the empty string. */
  type Token = nat
  const EMPTY: Token := 0

  datatype Outcome = Registered | Declined | Failed

  /** What the environment does in one turn: whether the context was cancelled
      before it, the credential on disk, the answers to the first and to a second
      connection attempt, and whether a later wait is cut short. */
  datatype Turn = Turn(cancelled: bool, stored: Option<Token>, first: Outcome, second: Outcome,
                       cancelledAfter: bool, waitCut: bool)

  datatype Event =
    | Try(operators: bool, presented: Token, stored: Option<Token>, outcome: Outcome)
    | Up
    | Sleep(d: int)

  datatype End = Running | Cancelled | NoToken | DeclinedEnd

  /** An empty operator token is none. */
  datatype Client = Client(token: Token, min: int, max: int) {
    ghost predicate Valid() {
      min > 0 && max > 0
    }
  }

  predicate HasCredential(stored: Option<Token>) {
    stored.Some? && stored.value != EMPTY
  }

  /** Waits since the start or the last registration. */
  function Streak(trace: seq<Event>): nat {
    if trace == [] then 0
    else
      match trace[|trace| - 1]
      case Up => 0
      case Sleep(_) => Streak(trace[..|trace| - 1]) + 1
      case Try(_, _, _, _) => Streak(trace[..|trace| - 1])
  }

  ghost predicate NotRefused(trace: seq<Event>) {
    forall e :: e in trace && e.Try? ==> e.outcome != Declined
  }

  predicate FallsBack(c: Client, e: Event) {
    e.Try? && e.outcome == Failed && c.token != EMPTY && c.token != e.presented
  }

  /** What has to follow an event: a registration comes up, and an attempt with
      another token than the operator's that failed is followed by the operator's. */
  predicate CallsFor(c: Client, e: Event, next: Event) {
    e.Try? ==>
      && (e.outcome == Registered ==> next == Up)
      && (FallsBack(c, e) ==> next.Try? && next.operators && next.stored == e.stored)
  }

  /** What may be attempted. The operator's token is presented only when no
      credential is stored, or right after the stored one failed without being
      refused; otherwise the stored one is. */
  predicate MayTry(c: Client, last: Option<Event>, operators: bool, presented: Token, stored: Option<Token>) {
    if operators then
      && presented == c.token != EMPTY
      && (HasCredential(stored) ==> last == Some(Try(false, stored.value, stored, Failed)) && stored.value != c.token)
    else HasCredential(stored) && presented == stored.value
  }

  function LastOf(trace: seq<Event>): Option<Event> {
    if trace == [] then None else Some(trace[|trace| - 1])
  }

  /** What may follow a stretch of trace. A wait follows an attempt and has the
      length its place in the streak calls for; nothing is attempted after a refusal. */
  ghost predicate MayFollow(c: Client, before: seq<Event>, e: Event) {
    && (before != [] ==> CallsFor(c, LastOf(before).value, e))
    && match e
       case Up => LastOf(before).Some? && LastOf(before).value.Try? && LastOf(before).value.outcome == Registered
       case Sleep(d) =>
         && LastOf(before).Some? && !LastOf(before).value.Sleep?
         && d == Wait(c.min, c.max, Streak(before) + 1)
       case Try(operators, presented, stored, _) =>
         NotRefused(before) && MayTry(c, LastOf(before), operators, presented, stored)
  }

  ghost predicate GoodTrace(c: Client, trace: seq<Event>) {
    trace != [] ==>
      GoodTrace(c, trace[..|trace| - 1]) && MayFollow(c, trace[..|trace| - 1], trace[|trace| - 1])
  }

  lemma {:induction false} GoodAt(c: Client, trace: seq<Event>, i: nat)
    requires GoodTrace(c, trace) && i < |trace|
    ensures MayFollow(c, trace[..i], trace[i])
  {
    if i == |trace| - 1 {
    } else {
      GoodAt(c, trace[..|trace| - 1], i);
      assert trace[..|trace| - 1][..i] == trace[..i];
    }
  }

  /** Nothing is left to follow: the last attempt was answered for, or refused. */
  predicate AtRest(trace: seq<Event>) {
    LastOf(trace).Some? && LastOf(trace).value.Try? ==> LastOf(trace).value.outcome == Declined
  }

  function Waits(trace: seq<Event>): nat {
    if trace == [] then 0
    else Waits(trace[..|trace| - 1]) + (if trace[|trace| - 1].Sleep? then 1 else 0)
  }

  /** The connection attempts of a trace. */
  function Tries(trace: seq<Event>): seq<Event> {
    if trace == [] then []
    else Tries(trace[..|trace| - 1]) + (if trace[|trace| - 1].Try? then [trace[|trace| - 1]] else [])
  }

  // ---- what the turns call for ----

  predicate HasToken(c: Client, turn: Turn) {
    HasCredential(turn.stored) || c.token != EMPTY
  }

  function FirstTry(c: Client, turn: Turn): Event
    requires HasToken(c, turn)
  {
    if HasCredential(turn.stored) then Try(false, turn.stored.value, turn.stored, turn.first)
    else Try(true, c.token, turn.stored, turn.first)
  }

  /** The attempts of one turn, with the credential it finds and the answers it gets. */
  function TurnTries(c: Client, turn: Turn): seq<Event> {
    if turn.cancelled || !HasToken(c, turn) then []
    else if FallsBack(c, FirstTry(c, turn)) then [FirstTry(c, turn), Try(true, c.token, turn.stored, turn.second)]
    else [FirstTry(c, turn)]
  }

  function TurnOutcome(c: Client, turn: Turn): Outcome
    requires HasToken(c, turn)
  {
    if FallsBack(c, FirstTry(c, turn)) then turn.second else turn.first
  }

  /** Whether and how a turn ends the loop. */
  function TurnEnd(c: Client, turn: Turn): End {
    if turn.cancelled then Cancelled
    else if !HasToken(c, turn) then NoToken
    else if TurnOutcome(c, turn) == Declined then DeclinedEnd
    else if (TurnOutcome(c, turn) == Registered && turn.cancelledAfter) || turn.waitCut then Cancelled
    else Running
  }

  /** How a turn ends, by its attempts: cancelled before them, in the wait after them, or
      when a registration goes down; without a token; or by the refusal of the last one. */
  lemma TurnEndsExactly(c: Client, turn: Turn)
    ensures var tries, end := TurnTries(c, turn), TurnEnd(c, turn);
      && (end == NoToken <==>
            !turn.cancelled && (turn.stored == None || turn.stored == Some(EMPTY)) && c.token == EMPTY)
      && (end == DeclinedEnd <==> tries != [] && tries[|tries| - 1].outcome == Declined)
      && (end == Cancelled <==>
            || turn.cancelled
            || (tries != [] && tries[|tries| - 1].outcome != Declined && turn.waitCut)
            || (tries != [] && tries[|tries| - 1].outcome == Registered && turn.cancelledAfter))
  {
  }

  function AllTries(c: Client, turns: seq<Turn>): seq<Event> {
    if turns == [] then [] else AllTries(c, turns[..|turns| - 1]) + TurnTries(c, turns[|turns| - 1])
  }

  /** Nothing in a turn stops the loop. */
  predicate Uneventful(c: Client, turn: Turn) {
    && !turn.cancelled && !turn.waitCut && !turn.cancelledAfter
    && (HasCredential(turn.stored) || c.token != EMPTY)
    && turn.first != Declined && turn.second != Declined
  }

  lemma Appended(c: Client, trace: seq<Event>, e: Event)
    requires GoodTrace(c, trace) && MayFollow(c, trace, e)
    ensures GoodTrace(c, trace + [e])
    ensures Streak(trace + [e]) == if e == Up then 0 else if e.Sleep? then Streak(trace) + 1 else Streak(trace)
    ensures NotRefused(trace + [e]) <==> NotRefused(trace) && !(e.Try? && e.outcome == Declined)
    ensures Waits(trace + [e]) == Waits(trace) + (if e.Sleep? then 1 else 0)
    ensures Tries(trace + [e]) == if e.Try? then Tries(trace) + [e] else Tries(trace)
  {
    assert (trace + [e])[..|trace|] == trace;
    assert forall x :: x in trace + [e] <==> x in trace || x == e;
  }

  /** The trace with one more event. */
  method Record(c: Client, trace: seq<Event>, e: Event) returns (longer: seq<Event>)
    requires GoodTrace(c, trace) && MayFollow(c, trace, e)
    ensures GoodTrace(c, longer) && LastOf(longer) == Some(e)
    ensures |longer| == |trace| + 1 && trace <= longer
    ensures Streak(longer) == if e == Up then 0 else if e.Sleep? then Streak(trace) + 1 else Streak(trace)
    ensures NotRefused(longer) <==> NotRefused(trace) && !(e.Try? && e.outcome == Declined)
    ensures Waits(longer) == Waits(trace) + (if e.Sleep? then 1 else 0)
    ensures Tries(longer) == if e.Try? then Tries(trace) + [e] else Tries(trace)
  {
    Appended(c, trace, e);
    longer := trace + [e];
  }

  /** The loop may go on from here. */
  ghost predicate SoFar(c: Client, trace: seq<Event>) {
    && GoodTrace(c, trace) && NotRefused(trace)
    && (LastOf(trace).Some? ==> var e := LastOf(trace).value; !FallsBack(c, e) && (e.Try? ==> e.outcome != Registered))
  }

  /** One turn's connection attempts: the token at hand, then at most once the
      operator's. A registration is recorded as coming up. */
  method Connect(c: Client, turn: Turn, operators: bool, token: Token, before: seq<Event>)
    returns (outcome: Outcome, trace: seq<Event>)
    requires SoFar(c, before) && token != EMPTY && !turn.cancelled
    requires operators == !HasCredential(turn.stored) && token == if operators then c.token else turn.stored.value
    ensures outcome == if turn.first == Failed && c.token != EMPTY && c.token != token then turn.second else turn.first
    ensures outcome != Declined ==> SoFar(c, trace)
    ensures outcome == Declined ==> GoodTrace(c, trace) && AtRest(trace) && !NotRefused(trace)
    ensures outcome == Registered ==> AtRest(trace)
    ensures LastOf(trace).Some? && !LastOf(trace).value.Sleep?
    ensures Streak(trace) == if outcome == Registered then 0 else Streak(before)
    ensures Waits(trace) == Waits(before)
    ensures HasToken(c, turn) && outcome == TurnOutcome(c, turn)
    ensures Tries(trace) == Tries(before) + TurnTries(c, turn)
  {
    outcome := turn.first;
    trace := Record(c, before, Try(operators, token, turn.stored, outcome));
    if outcome == Failed && c.token != EMPTY && c.token != token {
      outcome := turn.second;
      trace := Record(c, trace, Try(true, c.token, turn.stored, outcome));
    }
    if outcome == Registered {
      trace := Record(c, trace, Up);
    }
  }

  lemma MoreTries(c: Client, turns: seq<Turn>, t: nat)
    requires t < |turns|
    ensures AllTries(c, turns[..t + 1]) == AllTries(c, turns[..t]) + TurnTries(c, turns[t])
  {
    assert turns[..t + 1][..t] == turns[..t];
  }

  /** One turn of the loop: connect, fall back once to the operator's token, wait. */
  method TakeTurn(c: Client, turn: Turn, before: seq<Event>, backoff: int)
    returns (end: End, trace: seq<Event>, next: int)
    requires c.Valid() && SoFar(c, before) && AtRest(before)
    requires backoff == Wait(c.min, c.max, Streak(before) + 1)
    ensures end == TurnEnd(c, turn) && Tries(trace) == Tries(before) + TurnTries(c, turn)
    ensures GoodTrace(c, trace) && AtRest(trace)
    ensures end == DeclinedEnd <==> !NotRefused(trace)
    ensures end == Running ==> SoFar(c, trace) && Waits(trace) == Waits(before) + 1
    ensures end == Running ==> next == Wait(c.min, c.max, Streak(trace) + 1)
    ensures (end == NoToken ==> c.token == EMPTY) && (Uneventful(c, turn) ==> end == Running)
  {
    trace, next := before, backoff;
    if turn.cancelled {
      return Cancelled, trace, next;
    }
    var operators := !HasCredential(turn.stored);
    var token := if operators then c.token else turn.stored.value;
    if token == EMPTY {
      return NoToken, trace, next;
    }
    var outcome;
    outcome, trace := Connect(c, turn, operators, token, trace);
    if outcome == Declined {
      return DeclinedEnd, trace, next;
    }
    if outcome == Registered {
      next := c.min;
      if turn.cancelledAfter {
        return Cancelled, trace, next;
      }
    }
    trace := Record(c, trace, Sleep(next));
    if turn.waitCut {
      return Cancelled, trace, next;
    }
    WaitStep(c.min, c.max, Streak(trace));
    next := NextBackoff(next, c.max);
    end := Running;
  }

  /** Run: turn after turn, to the first that ends it. The attempts are those that the
      turns call for, with the credentials they find and the answers they get. */
  method Run(c: Client, turns: seq<Turn>) returns (end: End, trace: seq<Event>, ghost n: nat)
    requires c.Valid()
    ensures n <= |turns| && Tries(trace) == AllTries(c, turns[..n])
    ensures forall t :: 0 <= t < n ==> TurnEnd(c, turns[t]) == if t == n - 1 then end else Running
    ensures if end == Running then n == |turns| else n > 0
    ensures GoodTrace(c, trace) && AtRest(trace)
    ensures end == DeclinedEnd <==> !NotRefused(trace)
    ensures end == NoToken ==> c.token == EMPTY
    ensures end == Running ==> Waits(trace) == |turns|
    ensures (forall t :: 0 <= t < |turns| ==> Uneventful(c, turns[t])) ==> end == Running
  {
    trace, n := [], 0;
    var backoff := c.min;
    for t := 0 to |turns|
      invariant n == t && Tries(trace) == AllTries(c, turns[..t])
      invariant forall u :: 0 <= u < t ==> TurnEnd(c, turns[u]) == Running
      invariant SoFar(c, trace) && AtRest(trace) && Waits(trace) == t
      invariant backoff == Wait(c.min, c.max, Streak(trace) + 1)
    {
      MoreTries(c, turns, t);
      end, trace, backoff := TakeTurn(c, turns[t], trace, backoff);
      n := t + 1;
      if end != Running {
        assert !Uneventful(c, turns[t]);
        return;
      }
    }
    end := Running;
  }

  // ---- the bounded dial retry ----

  /** dialContext: at most `attempts` dials, none after a success or after the
      caller has hung up, with the same doubling waits in between. */
  method DialContext(attempts: nat, min: int, max: int, answers: nat -> bool, hangsUp: nat -> bool)
    returns (connected: bool, dials: nat, waits: seq<int>)
    requires attempts > 0 && min > 0 && max > 0
    ensures 1 <= dials <= attempts
    ensures connected <==> answers(dials)
    ensures forall k :: 1 <= k < dials ==> !answers(k) && !hangsUp(k)
    ensures !connected && dials < attempts ==> hangsUp(dials)
    ensures |waits| == if connected || dials == attempts then dials - 1 else dials
    ensures forall k :: 0 <= k < |waits| ==> waits[k] == Wait(min, max, k + 1)
  {
    var backoff := min;
    waits, dials := [], 0;
    for attempt := 1 to attempts + 1
      invariant |waits| == attempt - 1
      invariant backoff == Wait(min, max, attempt)
      invariant forall k :: 1 <= k < attempt ==> !answers(k) && !hangsUp(k)
      invariant forall k :: 0 <= k < |waits| ==> waits[k] == Wait(min, max, k + 1)
      invariant attempt <= attempts
    {
      dials := attempt;
      if answers(attempt) {
        return true, dials, waits;
      }
      if attempt == attempts {
        return false, dials, waits;
      }
      waits := waits + [backoff];
      if hangsUp(attempt) {
        return false, dials, waits;
      }
      WaitStep(min, max, attempt);
      backoff := NextBackoff(backoff, max);
    }
  }
}
