/** internal/vpn/exit.go's PlanExclusions: which prefixes stay out of the tunnel, and
    why. */
module Exclusions {
  import opened Ipv4
  import opened RuleTable
  import opened RouteInstall
  import opened RouteTheorems
  import opened Wrappers

  datatype Refusal = NoControlPlaneHost | Unresolvable | NoAddress | BadExclude

  /** What the control-plane URL comes to: no host, an IPv4 literal, or a name and
      the resolver's answer for it (None when the lookup itself fails). */
  datatype Endpoint = NoHost | Literal(ip: Addr) | Named(answer: Option<seq<Addr>>)

  /** What TrimSpace and normalisePrefix make of one --exclude value. */
  datatype ExcludeArg = Blank | Malformed | Given(p: Prefix)

  datatype Reason = ControlPlane | Attached | Private | Requested

  datatype Exclusion = Exclusion(prefix: Prefix, reason: Reason)

  /** 10/8, 172.16/12, 192.168/16 and 169.254/16. */
  const PRIVATE_BLOCKS: seq<Prefix> :=
    [Prefix(0x0A00_0000, 0x100_0000), Prefix(0xAC10_0000, 0x10_0000),
     Prefix(0xC0A8_0000, 0x1_0000), Prefix(0xA9FE_0000, 0x1_0000)]

  /** An address of the control plane. */
  ghost predicate AddressOf(e: Endpoint, a: Addr) {
    e == Literal(a) || (e.Named? && e.answer.Some? && a in e.answer.value)
  }

  function ResolveControlPlane(e: Endpoint): (r: Result<seq<Addr>, Refusal>)
    ensures r.Success? ==> r.value != [] && forall a :: a in r.value <==> AddressOf(e, a)
    ensures r == Failure(NoControlPlaneHost) <==> e == NoHost
    ensures r == Failure(Unresolvable) <==> e == Named(None)
    ensures r == Failure(NoAddress) <==> e == Named(Some([]))
    ensures r != Failure(BadExclude)
  {
    match e
    case NoHost => Failure(NoControlPlaneHost)
    case Literal(ip) => Success([ip])
    case Named(None) => Failure(Unresolvable)
    case Named(Some(ips)) => if ips == [] then Failure(NoAddress) else Success(ips)
  }

  function Because(ps: seq<Prefix>, reason: Reason): seq<Exclusion> {
    seq(|ps|, i requires 0 <= i < |ps| => Exclusion(ps[i], reason))
  }

  function Hosts(ips: seq<Addr>): seq<Prefix> {
    seq(|ips|, i requires 0 <= i < |ips| => Host(ips[i]))
  }

  function Requests(extra: seq<ExcludeArg>): seq<Prefix> {
    if extra == [] then []
    else if extra[0].Given? then [extra[0].p] + Requests(extra[1..])
    else Requests(extra[1..])
  }

  predicate Covers(xs: seq<Exclusion>, p: Prefix) {
    exists x :: x in xs && x.prefix == p
  }

  /** The closure `add`: a prefix already present keeps its first reason. */
  function Add(xs: seq<Exclusion>, x: Exclusion): seq<Exclusion> {
    if Covers(xs, x.prefix) then xs else xs + [x]
  }

  function AddAll(xs: seq<Exclusion>, more: seq<Exclusion>): seq<Exclusion>
    decreases more
  {
    if more == [] then xs else AddAll(Add(xs, more[0]), more[1..])
  }

  ghost predicate OncePerPrefix(xs: seq<Exclusion>) {
    forall i, j :: 0 <= i < j < |xs| ==> xs[i].prefix != xs[j].prefix
  }

  /** The first candidate for its prefix, in order of candidates. */
  ghost predicate IsFirst(candidates: seq<Exclusion>, x: Exclusion) {
    exists i :: 0 <= i < |candidates| && candidates[i] == x
                && forall j :: 0 <= j < i ==> candidates[j].prefix != x.prefix
  }

  /** Every prefix asked for is there exactly once, for the first reason given. */
  lemma {:induction false} AddAllKeepsFirsts(done: seq<Exclusion>, more: seq<Exclusion>, xs: seq<Exclusion>)
    requires OncePerPrefix(xs)
    requires forall x :: x in xs <==> IsFirst(done, x)
    requires forall p :: Covers(done, p) ==> Covers(xs, p)
    ensures OncePerPrefix(AddAll(xs, more))
    ensures forall x :: x in AddAll(xs, more) <==> IsFirst(done + more, x)
    ensures forall x :: x in done + more ==> Covers(AddAll(xs, more), x.prefix)
    ensures xs <= AddAll(xs, more)
    decreases more
  {
    if more == [] {
      assert done + more == done;
      forall x | x in done ensures Covers(xs, x.prefix) {
        assert Covers(done, x.prefix);
      }
    } else {
      var x := more[0];
      var next := done + [x];
      assert done + more == next + more[1..];
      FirstsOfOneMore(done, x, xs);
      AddAllKeepsFirsts(next, more[1..], Add(xs, x));
    }
  }

  lemma FirstsOfOneMore(done: seq<Exclusion>, x: Exclusion, xs: seq<Exclusion>)
    requires OncePerPrefix(xs)
    requires forall y :: y in xs <==> IsFirst(done, y)
    requires forall p :: Covers(done, p) ==> Covers(xs, p)
    ensures OncePerPrefix(Add(xs, x))
    ensures forall y :: y in Add(xs, x) <==> IsFirst(done + [x], y)
    ensures forall p :: Covers(done + [x], p) ==> Covers(Add(xs, x), p)
  {
    var next := done + [x];
    assert Covers(xs, x.prefix) <==> Covers(done, x.prefix);
    if !Covers(done, x.prefix) {
      forall j | 0 <= j < |done| ensures next[j].prefix != x.prefix {
        assert done[j] in done;
      }
      assert next[|done|] == x;
      assert IsFirst(next, x);
    }
    forall y ensures y in Add(xs, x) <==> IsFirst(next, y) {
      if IsFirst(done, y) {
        var i :| 0 <= i < |done| && done[i] == y && forall j :: 0 <= j < i ==> done[j].prefix != y.prefix;
        assert next[i] == y;
      }
      if IsFirst(next, y) {
        var i :| 0 <= i < |next| && next[i] == y && forall j :: 0 <= j < i ==> next[j].prefix != y.prefix;
        if i < |done| {
          assert done[i] == y && forall j :: 0 <= j < i ==> done[j] == next[j];
          assert IsFirst(done, y);
        } else {
          assert forall j :: 0 <= j < i ==> done[j] == next[j];
          assert !Covers(xs, x.prefix);
        }
      }
    }
    forall p | Covers(next, p) ensures Covers(Add(xs, x), p) {
      var e :| e in next && e.prefix == p;
      if e in done { assert Covers(done, p); }
    }
  }

  lemma {:induction false} AddAllConcat(xs: seq<Exclusion>, a: seq<Exclusion>, b: seq<Exclusion>)
    ensures AddAll(xs, a + b) == AddAll(AddAll(xs, a), b)
    decreases a
  {
    if a == [] {
      assert a + b == b;
    } else {
      AddAllConcat(Add(xs, a[0]), a[1..], b);
      assert (a + b)[1..] == a[1..] + b;
    }
  }

  function Candidates(ips: seq<Addr>, locals: seq<Prefix>, extra: seq<ExcludeArg>): seq<Exclusion> {
    Because(Hosts(ips), ControlPlane) + Because(locals, Attached)
    + Because(PRIVATE_BLOCKS, Private) + Because(Requests(extra), Requested)
  }

  method AddEach(xs: seq<Exclusion>, ps: seq<Prefix>, reason: Reason) returns (r: seq<Exclusion>)
    ensures r == AddAll(xs, Because(ps, reason))
  {
    r := xs;
    for i := 0 to |ps|
      invariant r == AddAll(xs, Because(ps[..i], reason))
    {
      AddAllConcat(xs, Because(ps[..i], reason), [Exclusion(ps[i], reason)]);
      assert Because(ps[..i + 1], reason) == Because(ps[..i], reason) + [Exclusion(ps[i], reason)];
      assert [Exclusion(ps[i], reason)][1..] == [];
      r := Add(r, Exclusion(ps[i], reason));
    }
    assert ps[..|ps|] == ps;
  }

  /** The operator's own list: blanks are skipped, a malformed value ends it. */
  method AddRequests(xs: seq<Exclusion>, extra: seq<ExcludeArg>) returns (ok: bool, r: seq<Exclusion>)
    ensures ok <==> Malformed !in extra
    ensures ok ==> r == AddAll(xs, Because(Requests(extra), Requested))
  {
    r := xs;
    for i := 0 to |extra|
      invariant Malformed !in extra[..i]
      invariant r == AddAll(xs, Because(Requests(extra[..i]), Requested))
    {
      RequestsStep(extra, i);
      match extra[i] {
        case Blank =>
          assert Requests(extra[..i]) + [] == Requests(extra[..i]);
        case Malformed =>
          return false, r;
        case Given(p) =>
          AddOne(xs, Requests(extra[..i]), p);
          r := Add(r, Exclusion(p, Requested));
      }
    }
    assert extra[..|extra|] == extra;
    ok := true;
  }

  lemma AddOne(xs: seq<Exclusion>, ps: seq<Prefix>, p: Prefix)
    ensures AddAll(xs, Because(ps + [p], Requested)) == Add(AddAll(xs, Because(ps, Requested)), Exclusion(p, Requested))
  {
    AddAllConcat(xs, Because(ps, Requested), [Exclusion(p, Requested)]);
    assert Because(ps + [p], Requested) == Because(ps, Requested) + [Exclusion(p, Requested)];
    assert [Exclusion(p, Requested)][1..] == [];
  }

  /** Every prefix asked for, once, for the first reason it was given, the control plane first. */
  ghost predicate Planned(xs: seq<Exclusion>, ips: seq<Addr>, locals: seq<Prefix>, extra: seq<ExcludeArg>)
    requires ips != []
  {
    && OncePerPrefix(xs)
    && (forall x :: x in xs <==> IsFirst(Candidates(ips, locals, extra), x))
    && (forall x :: x in Candidates(ips, locals, extra) ==> Covers(xs, x.prefix))
    && [Exclusion(Host(ips[0]), ControlPlane)] <= xs
  }

  /** Who asks for a prefix, and on what grounds. */
  ghost predicate AskedFor(e: Endpoint, locals: seq<Prefix>, extra: seq<ExcludeArg>, reason: Reason, p: Prefix) {
    match reason
    case ControlPlane => p.size == 1 && AddressOf(e, p.base)
    case Attached => p in locals
    case Private => p in PRIVATE_BLOCKS
    case Requested => Given(p) in extra
  }

  predicate Before(a: Reason, b: Reason) {
    match b
    case ControlPlane => false
    case Attached => a == ControlPlane
    case Private => a == ControlPlane || a == Attached
    case Requested => a != Requested
  }

  /** Every prefix asked for is there once and no other, for the first of the reasons it
      was asked for, and the list begins with the control plane. */
  ghost predicate PlannedFor(xs: seq<Exclusion>, e: Endpoint, locals: seq<Prefix>, extra: seq<ExcludeArg>) {
    && OncePerPrefix(xs)
    && (forall reason, p :: AskedFor(e, locals, extra, reason, p) ==> Covers(xs, p))
    && (forall x :: x in xs ==> AskedFor(e, locals, extra, x.reason, x.prefix))
    && (forall x, reason :: x in xs && Before(reason, x.reason) ==> !AskedFor(e, locals, extra, reason, x.prefix))
    && xs != [] && xs[0].reason == ControlPlane
  }

  /** Refused without a resolvable control plane or with a malformed --exclude;
      otherwise every prefix asked for, once, for the first reason it was given. */
  method PlanExclusions(e: Endpoint, locals: seq<Prefix>, extra: seq<ExcludeArg>)
    returns (r: Result<seq<Exclusion>, Refusal>)
    ensures r == Failure(NoControlPlaneHost) <==> e == NoHost
    ensures r == Failure(Unresolvable) <==> e == Named(None)
    ensures r == Failure(NoAddress) <==> e == Named(Some([]))
    ensures r == Failure(BadExclude) <==>
      e != NoHost && e != Named(None) && e != Named(Some([])) && Malformed in extra
    ensures r.Success? ==> PlannedFor(r.value, e, locals, extra)
    ensures r.Success? ==> forall a :: AddressOf(e, a) ==> Exclusion(Host(a), ControlPlane) in r.value
  {
    var resolved := ResolveControlPlane(e);
    if resolved.Failure? {
      return Failure(resolved.error);
    }
    var ips := resolved.value;
    var xs := AddEach([], Hosts(ips), ControlPlane);
    xs := AddEach(xs, locals, Attached);
    xs := AddEach(xs, PRIVATE_BLOCKS, Private);
    var ok;
    ok, xs := AddRequests(xs, extra);
    if !ok {
      return Failure(BadExclude);
    }
    FoldIsPlanned(ips, locals, extra);
    PlannedIsFor(xs, e, ips, locals, extra);
    return Success(xs);
  }

  lemma {:induction false} RequestsConcat(a: seq<ExcludeArg>, b: seq<ExcludeArg>)
    ensures Requests(a + b) == Requests(a) + Requests(b)
  {
    if a == [] {
      assert a + b == b;
    } else {
      RequestsConcat(a[1..], b);
      assert (a + b)[1..] == a[1..] + b;
    }
  }

  lemma RequestsStep(extra: seq<ExcludeArg>, i: nat)
    requires i < |extra|
    ensures Requests(extra[..i + 1]) == Requests(extra[..i]) + (if extra[i].Given? then [extra[i].p] else [])
  {
    RequestsConcat(extra[..i], [extra[i]]);
    assert extra[..i + 1] == extra[..i] + [extra[i]];
    assert [extra[i]][1..] == [];
  }

  lemma FoldIsPlanned(ips: seq<Addr>, locals: seq<Prefix>, extra: seq<ExcludeArg>)
    requires ips != []
    ensures Planned(AddAll(AddAll(AddAll(AddAll([], Because(Hosts(ips), ControlPlane)), Because(locals, Attached)),
                                  Because(PRIVATE_BLOCKS, Private)), Because(Requests(extra), Requested)),
                    ips, locals, extra)
  {
    FoldedInOrder(ips, locals, extra);
    AddAllKeepsFirsts([], Candidates(ips, locals, extra), []);
    assert [] + Candidates(ips, locals, extra) == Candidates(ips, locals, extra);
    ControlPlaneFirst(ips, locals, extra);
  }

  lemma FoldedInOrder(ips: seq<Addr>, locals: seq<Prefix>, extra: seq<ExcludeArg>)
    ensures AddAll([], Candidates(ips, locals, extra)) ==
            AddAll(AddAll(AddAll(AddAll([], Because(Hosts(ips), ControlPlane)), Because(locals, Attached)),
                          Because(PRIVATE_BLOCKS, Private)), Because(Requests(extra), Requested))
  {
    var a, b := Because(Hosts(ips), ControlPlane), Because(locals, Attached);
    var c, d := Because(PRIVATE_BLOCKS, Private), Because(Requests(extra), Requested);
    AddAllConcat([], a + b + c, d);
    AddAllConcat([], a + b, c);
    AddAllConcat([], a, b);
  }

  lemma ControlPlaneFirst(ips: seq<Addr>, locals: seq<Prefix>, extra: seq<ExcludeArg>)
    requires ips != []
    ensures [Exclusion(Host(ips[0]), ControlPlane)] <= AddAll([], Candidates(ips, locals, extra))
  {
    var first := [Exclusion(Host(ips[0]), ControlPlane)];
    var cs := Candidates(ips, locals, extra);
    assert cs[0] == first[0];
    assert cs == first + cs[1..];
    AddAllConcat([], first, cs[1..]);
    assert first[1..] == [];
    assert AddAll([], first) == first;
    AddAllExtends(first, cs[1..]);
  }

  lemma {:induction false} AddAllExtends(xs: seq<Exclusion>, more: seq<Exclusion>)
    ensures xs <= AddAll(xs, more)
    decreases more
  {
    if more == [] {
    } else {
      AddAllExtends(Add(xs, more[0]), more[1..]);
    }
  }

  // ---- the plan by who asks for what ----

  function CandidatesFor(reason: Reason, ips: seq<Addr>, locals: seq<Prefix>, extra: seq<ExcludeArg>): seq<Exclusion> {
    match reason
    case ControlPlane => Because(Hosts(ips), ControlPlane)
    case Attached => Because(locals, Attached)
    case Private => Because(PRIVATE_BLOCKS, Private)
    case Requested => Because(Requests(extra), Requested)
  }

  lemma BecauseMembers(ps: seq<Prefix>, reason: Reason)
    ensures forall x :: x in Because(ps, reason) <==> x.prefix in ps && x.reason == reason
  {
    forall x: Exclusion | x.prefix in ps && x.reason == reason ensures x in Because(ps, reason) {
      var i :| 0 <= i < |ps| && ps[i] == x.prefix;
      assert Because(ps, reason)[i] == x;
    }
  }

  lemma {:induction false} RequestsMembers(extra: seq<ExcludeArg>)
    ensures forall p :: p in Requests(extra) <==> Given(p) in extra
  {
    if extra == [] {
    } else {
      RequestsMembers(extra[1..]);
      assert extra == [extra[0]] + extra[1..];
    }
  }

  lemma HostsMembers(ips: seq<Addr>)
    ensures forall p :: p in Hosts(ips) <==> p.size == 1 && p.base in ips
  {
    forall p: Prefix | p.size == 1 && p.base in ips ensures p in Hosts(ips) {
      var i :| 0 <= i < |ips| && ips[i] == p.base;
      assert Hosts(ips)[i] == p;
    }
  }

  lemma CandidatesAsked(e: Endpoint, ips: seq<Addr>, locals: seq<Prefix>, extra: seq<ExcludeArg>, reason: Reason)
    requires forall a :: a in ips <==> AddressOf(e, a)
    ensures forall x :: x in CandidatesFor(reason, ips, locals, extra) <==>
      x.reason == reason && AskedFor(e, locals, extra, reason, x.prefix)
  {
    BecauseMembers(Hosts(ips), ControlPlane);
    BecauseMembers(locals, Attached);
    BecauseMembers(PRIVATE_BLOCKS, Private);
    BecauseMembers(Requests(extra), Requested);
    RequestsMembers(extra);
    HostsMembers(ips);
  }

  /** The candidates stand reason by reason. */
  lemma CandidatesMembers(ips: seq<Addr>, locals: seq<Prefix>, extra: seq<ExcludeArg>)
    ensures forall x :: x in Candidates(ips, locals, extra) <==> x in CandidatesFor(x.reason, ips, locals, extra)
  {
    BecauseMembers(Hosts(ips), ControlPlane);
    BecauseMembers(locals, Attached);
    BecauseMembers(PRIVATE_BLOCKS, Private);
    BecauseMembers(Requests(extra), Requested);
  }

  lemma CandidatesByReason(ips: seq<Addr>, locals: seq<Prefix>, extra: seq<ExcludeArg>, i: nat, j: nat)
    requires i < |Candidates(ips, locals, extra)| && j < |Candidates(ips, locals, extra)|
    requires Before(Candidates(ips, locals, extra)[i].reason, Candidates(ips, locals, extra)[j].reason)
    ensures i < j
  {
  }

  lemma PlannedIsFor(xs: seq<Exclusion>, e: Endpoint, ips: seq<Addr>, locals: seq<Prefix>, extra: seq<ExcludeArg>)
    requires ips != [] && Planned(xs, ips, locals, extra)
    requires forall a :: a in ips <==> AddressOf(e, a)
    ensures PlannedFor(xs, e, locals, extra)
    ensures forall a :: AddressOf(e, a) ==> Exclusion(Host(a), ControlPlane) in xs
  {
    var cs := Candidates(ips, locals, extra);
    CandidatesMembers(ips, locals, extra);
    forall reason, p | AskedFor(e, locals, extra, reason, p) ensures Covers(xs, p) && Exclusion(p, reason) in cs {
      CandidatesAsked(e, ips, locals, extra, reason);
      assert Exclusion(p, reason) in cs;
    }
    forall x | x in xs ensures AskedFor(e, locals, extra, x.reason, x.prefix) {
      CandidatesAsked(e, ips, locals, extra, x.reason);
    }
    forall x, reason | x in xs && Before(reason, x.reason) ensures !AskedFor(e, locals, extra, reason, x.prefix) {
      FirstReason(ips, locals, extra, x, reason);
      CandidatesAsked(e, ips, locals, extra, reason);
    }
    forall a | AddressOf(e, a) ensures Exclusion(Host(a), ControlPlane) in xs {
      assert AskedFor(e, locals, extra, ControlPlane, Host(a));
      var x :| x in xs && x.prefix == Host(a);
      assert !Before(ControlPlane, x.reason);
    }
  }

  lemma FirstReason(ips: seq<Addr>, locals: seq<Prefix>, extra: seq<ExcludeArg>, x: Exclusion, reason: Reason)
    requires IsFirst(Candidates(ips, locals, extra), x) && Before(reason, x.reason)
    ensures Exclusion(x.prefix, reason) !in CandidatesFor(reason, ips, locals, extra)
  {
    var cs := Candidates(ips, locals, extra);
    var j :| 0 <= j < |cs| && cs[j] == x && forall i :: 0 <= i < j ==> cs[i].prefix != x.prefix;
    CandidatesMembers(ips, locals, extra);
    forall i | 0 <= i < |cs| ensures cs[i] != Exclusion(x.prefix, reason) {
      if cs[i] == Exclusion(x.prefix, reason) {
        CandidatesByReason(ips, locals, extra, i, j);
      }
    }
  }

  // ---- what the plan does for containers ----

  function Prefixes(xs: seq<Exclusion>): seq<Prefix> {
    seq(|xs|, i requires 0 <= i < |xs| => xs[i].prefix)
  }

  /** 169.254/16, by its first octets. */
  predicate IsLinkLocal(a: Addr) {
    a / 0x1_0000 == 169 * 0x100 + 254
  }

  lemma PrivateBlocksExactly(a: Addr)
    ensures (exists b :: b in PRIVATE_BLOCKS && b.Contains(a)) <==> IsPrivate(a) || IsLinkLocal(a)
  {
    assert PRIVATE_BLOCKS[0].Contains(a) <==> a / 0x100_0000 == 10;
    assert PRIVATE_BLOCKS[1].Contains(a) <==> a / 0x10_0000 == 172 * 0x10 + 1;
    assert PRIVATE_BLOCKS[2].Contains(a) <==> a / 0x1_0000 == 192 * 0x100 + 168;
    assert PRIVATE_BLOCKS[3].Contains(a) <==> IsLinkLocal(a);
  }

  /** With a plan built here in force and a gate selected, traffic to any address of the
      control plane and to private space stays on the main table wherever it comes from,
      except that an address inside the mesh is always reached through the mesh. */
  lemma ProtectedDestinations(e: Endpoint, locals: seq<Prefix>, extra: seq<ExcludeArg>, xs: seq<Exclusion>,
                              containers: seq<Prefix>, routes: Routes, pkt: Packet)
    requires PlannedFor(xs, e, locals, extra)
    requires AddressOf(e, pkt.dst) || IsPrivate(pkt.dst) || IsLinkLocal(pkt.dst)
    requires routes.gate && !pkt.marked && !routes.local(pkt.dst) && routes.main(pkt.dst)
    ensures Resolve(Installed(BaseRules(true), RoutePlan(containers, Prefixes(xs))), routes, pkt) ==
            if MESH.Contains(pkt.dst) then Via(Mesh52) else Via(Main)
    ensures !AddressOf(e, pkt.dst) ==> !MESH.Contains(pkt.dst)
  {
    var plan := RoutePlan(containers, Prefixes(xs));
    InstalledMeansPolicy(plan, routes, pkt);
    var p := PrefixFor(e, locals, extra, pkt.dst);
    assert Covers(xs, p);
    var x :| x in xs && x.prefix == p;
    var i :| 0 <= i < |xs| && xs[i] == x;
    assert Prefixes(xs)[i] == p;
    assert Excluded(plan, pkt.dst);
  }

  lemma PrefixFor(e: Endpoint, locals: seq<Prefix>, extra: seq<ExcludeArg>, a: Addr) returns (p: Prefix)
    requires AddressOf(e, a) || IsPrivate(a) || IsLinkLocal(a)
    ensures p.Contains(a) && exists reason :: AskedFor(e, locals, extra, reason, p)
  {
    if AddressOf(e, a) {
      p := Host(a);
      assert AskedFor(e, locals, extra, ControlPlane, p);
    } else {
      PrivateBlocksExactly(a);
      p :| p in PRIVATE_BLOCKS && p.Contains(a);
      assert AskedFor(e, locals, extra, Private, p);
    }
  }
}
