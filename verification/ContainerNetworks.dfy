/** internal/vpn/containers.go: the IPv4 subnets in a runtime's `network inspect`
    document, and the distinct prefixes the container rules are built from. */
module ContainerNetworks {
  import opened Ipv4
  import opened JsonValues
  import opened Sequences
  import opened StableSort
  import opened Wrappers

  /** The library calls: whether a key case-folds to "subnet", what a string comes
      to as a masked IPv4 CIDR, and where a CIDR's text sorts. */
  datatype Reader = Reader(named: string -> bool, cidr: string -> Option<Prefix>, rank: Prefix -> int) {
    ghost predicate Ranks() {
      forall p, q :: rank(p) == rank(q) ==> p == q
    }
  }

  predicate IsSubnet(f: Field, rd: Reader) {
    f.value.Text? && rd.named(f.key)
  }

  /** The CIDRs anywhere in the document under a key named subnet. */
  ghost function Subnets(node: Json, rd: Reader): iset<Prefix> {
    match node
    case Obj(fields) =>
      iset f, p | f in fields && p in SubnetsOf(f, rd) :: p
    case List(items) =>
      iset n, p | n in items && p in Subnets(n, rd) :: p
    case _ => iset{}
  }

  ghost function SubnetsOf(f: Field, rd: Reader): iset<Prefix> {
    if IsSubnet(f, rd) then (if rd.cidr(f.value.s).Some? then iset{rd.cidr(f.value.s).value} else iset{})
    else Subnets(f.value, rd)
  }

  /** The value at a place in the document, by the way there from its root. */
  function At(node: Json, way: seq<nat>): Option<Json>
    decreases way
  {
    if way == [] then Some(node)
    else
      match node
      case Obj(fields) => if way[0] < |fields| then At(fields[way[0]].value, way[1..]) else None
      case List(items) => if way[0] < |items| then At(items[way[0]], way[1..]) else None
      case _ => None
  }

  /** At that place is an object whose i-th field is named subnet and holds the CIDR. */
  ghost predicate Tells(doc: Json, rd: Reader, way: seq<nat>, i: nat, p: Prefix) {
    && At(doc, way).Some? && At(doc, way).value.Obj? && i < |At(doc, way).value.fields|
    && var f := At(doc, way).value.fields[i];
       f.value.Text? && rd.named(f.key) && rd.cidr(f.value.s) == Some(p)
  }

  lemma {:induction false} SubnetsAreTold(doc: Json, rd: Reader, p: Prefix) returns (way: seq<nat>, i: nat)
    requires p in Subnets(doc, rd)
    ensures Tells(doc, rd, way, i, p)
    decreases doc
  {
    match doc
    case Obj(fields) =>
      var f :| f in fields && p in SubnetsOf(f, rd);
      var j: nat :| j < |fields| && fields[j] == f;
      if IsSubnet(f, rd) {
        way, i := [], j;
      } else {
        way, i := SubnetsAreTold(f.value, rd, p);
        way := [j] + way;
      }
    case List(items) =>
      var n :| n in items && p in Subnets(n, rd);
      var j: nat :| j < |items| && items[j] == n;
      way, i := SubnetsAreTold(n, rd, p);
      way := [j] + way;
  }

  lemma {:induction false} ToldIsSubnet(doc: Json, rd: Reader, way: seq<nat>, i: nat, p: Prefix)
    requires Tells(doc, rd, way, i, p)
    ensures p in Subnets(doc, rd)
    decreases way
  {
    if way == [] {
      assert doc.fields[i] in doc.fields && p in SubnetsOf(doc.fields[i], rd);
    } else {
      match doc
      case Obj(fields) =>
        ToldIsSubnet(fields[way[0]].value, rd, way[1..], i, p);
        assert !IsSubnet(fields[way[0]], rd) && p in SubnetsOf(fields[way[0]], rd);
      case List(items) =>
        ToldIsSubnet(items[way[0]], rd, way[1..], i, p);
    }
  }

  /** The subnets of a document are the CIDRs under a key named subnet, however deep
      in it. */
  lemma SubnetsExactly(doc: Json, rd: Reader, p: Prefix)
    ensures p in Subnets(doc, rd) <==> exists way, i: nat :: Tells(doc, rd, way, i, p)
  {
    if p in Subnets(doc, rd) {
      var way, i := SubnetsAreTold(doc, rd, p);
    }
    forall way, i: nat | Tells(doc, rd, way, i, p) ensures p in Subnets(doc, rd) {
      ToldIsSubnet(doc, rd, way, i, p);
    }
  }

  ghost predicate Adds(before: seq<Prefix>, after: seq<Prefix>, more: iset<Prefix>) {
    NoRepeats(after) && forall p :: p in after <==> p in before || p in more
  }

  /** One value, once. */
  method Note(found: seq<Prefix>, p: Prefix) returns (r: seq<Prefix>)
    requires NoRepeats(found)
    ensures Adds(found, r, iset{p})
  {
    r := if p in found then found else found + [p];
  }

  /** The recursive walk: every subnet in the document, once, and nothing else. */
  method Walk(node: Json, rd: Reader, found: seq<Prefix>) returns (r: seq<Prefix>)
    requires NoRepeats(found)
    ensures Adds(found, r, Subnets(node, rd))
    decreases node
  {
    r := found;
    match node {
      case Obj(fields) =>
        for i := 0 to |fields|
          invariant NoRepeats(r)
          invariant forall p :: p in r <==> p in found || exists j :: 0 <= j < i && p in SubnetsOf(fields[j], rd)
        {
          var f := fields[i];
          if IsSubnet(f, rd) {
            if rd.cidr(f.value.s).Some? {
              r := Note(r, rd.cidr(f.value.s).value);
            }
          } else {
            r := Walk(f.value, rd, r);
          }
        }
      case List(items) =>
        for i := 0 to |items|
          invariant NoRepeats(r)
          invariant forall p :: p in r <==> p in found || exists j :: 0 <= j < i && p in Subnets(items[j], rd)
        {
          r := Walk(items[i], rd, r);
        }
      case _ =>
    }
  }

  method ParseNetworkSubnets(doc: Json, rd: Reader) returns (r: seq<Prefix>)
    ensures NoRepeats(r) && SortedBy(r, rd.rank)
    ensures forall p :: p in r <==> p in Subnets(doc, rd)
  {
    var found := Walk(doc, rd, []);
    r := Sort(found, rd.rank);
    SortKeeps(found, rd.rank);
    PermutedNoRepeats(found, r);
  }

  /** The distinct prefixes of all networks, sorted. */
  method ContainerSubnets(nets: seq<seq<Prefix>>, rd: Reader) returns (r: seq<Prefix>)
    ensures NoRepeats(r) && SortedBy(r, rd.rank)
    ensures forall p :: p in r <==> exists n :: n in nets && p in n
  {
    var out: seq<Prefix> := [];
    for i := 0 to |nets|
      invariant NoRepeats(out)
      invariant forall p :: p in out <==> exists j :: 0 <= j < i && p in nets[j]
    {
      ghost var before := out;
      for m := 0 to |nets[i]|
        invariant NoRepeats(out)
        invariant forall p :: p in out <==> p in before || p in nets[i][..m]
      {
        out := Note(out, nets[i][m]);
      }
      assert nets[i][..|nets[i]|] == nets[i];
    }
    r := Sort(out, rd.rank);
    SortKeeps(out, rd.rank);
    PermutedNoRepeats(out, r);
  }

  /** The order in which maps and networks are iterated never shows: a sorted list
      without repeats is determined by its members. */
  lemma MembersDetermine(a: seq<Prefix>, b: seq<Prefix>, rd: Reader)
    requires rd.Ranks()
    requires NoRepeats(a) && SortedBy(a, rd.rank) && NoRepeats(b) && SortedBy(b, rd.rank)
    requires forall p :: p in a <==> p in b
    ensures a == b
  {
    forall k ensures WithKey(a, rd.rank, k) == WithKey(b, rd.rank, k) {
      WithKeyMembers(a, rd.rank, k);
      WithKeyMembers(b, rd.rank, k);
      assert forall i, j :: 0 <= i < j < |a| ==> rd.rank(a[i]) != rd.rank(a[j]);
      assert forall i, j :: 0 <= i < j < |b| ==> rd.rank(b[i]) != rd.rank(b[j]);
      WithKeyAtMostOne(a, rd.rank, k);
      WithKeyAtMostOne(b, rd.rank, k);
      var x, y := WithKey(a, rd.rank, k), WithKey(b, rd.rank, k);
      if x != [] {
        assert x[0] in x && x[0] in y;
      }
      if y != [] {
        assert y[0] in y && y[0] in x;
      }
    }
    Determined(a, b, rd.rank);
  }
}
