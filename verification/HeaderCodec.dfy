/** internal/link/link.go's headers on the wire: one field with every value, and a
    legacy field with one value a name. */
module HeaderCodec {
  import opened JsonValues
  import opened Sequences
  import opened StableSort
  import opened Wrappers

  type Headers = map<string, seq<string>>

  type Pair = (string, string)

  /** The two fields of a frame, as they were decoded. */
  datatype Frame = Frame(multi: Option<Json>, legacy: Option<Json>)

  function Name(p: Pair): string { p.0 }

  function Same(name: string): string { name }

  /** The values the pairs give a name, in order, names compared after `canon`. */
  function ValuesOf(pairs: seq<Pair>, canon: string -> string, name: string): seq<string> {
    if pairs == [] then []
    else
      var p := pairs[|pairs| - 1];
      ValuesOf(pairs[..|pairs| - 1], canon, name) + if canon(p.0) == name then [p.1] else []
  }

  /** The headers hold exactly what the pairs say. */
  ghost predicate Collects(h: Headers, pairs: seq<Pair>, canon: string -> string) {
    forall name :: (name in h <==> ValuesOf(pairs, canon, name) != []) &&
      (name in h ==> h[name] == ValuesOf(pairs, canon, name))
  }

  lemma CollectedOnce(a: Headers, b: Headers, pairs: seq<Pair>, canon: string -> string)
    requires Collects(a, pairs, canon) && Collects(b, pairs, canon)
    ensures a == b
  {
    forall name ensures name in a <==> name in b {
      assert name in a <==> ValuesOf(pairs, canon, name) != [];
    }
  }

  lemma OneMoreValue(pairs: seq<Pair>, p: Pair, canon: string -> string, name: string)
    ensures ValuesOf(pairs + [p], canon, name)
         == ValuesOf(pairs, canon, name) + if canon(p.0) == name then [p.1] else []
  {
    assert (pairs + [p])[..|pairs|] == pairs;
  }

  // ---- decoding ----

  /** A list of two strings, the first not empty. */
  function Usable(p: Json): Option<Pair> {
    if p.List? && |p.items| == 2 && p.items[0].Text? && p.items[1].Text? && p.items[0].s != "" then
      Some((p.items[0].s, p.items[1].s))
    else
      None
  }

  function UsablePairs(items: seq<Json>): seq<Pair> {
    if items == [] then []
    else
      var p := Usable(items[|items| - 1]);
      UsablePairs(items[..|items| - 1]) + if p.Some? then [p.value] else []
  }

  function TextFields(fields: seq<Field>): seq<Pair> {
    if fields == [] then []
    else
      var f := fields[|fields| - 1];
      TextFields(fields[..|fields| - 1]) + if f.value.Text? then [(f.key, f.value.s)] else []
  }

  /** What a frame says: the pairs that can be used, or else the legacy object. */
  function Said(f: Frame): seq<Pair> {
    if f.multi.Some? && f.multi.value.List? && UsablePairs(f.multi.value.items) != [] then
      UsablePairs(f.multi.value.items)
    else if f.legacy.Some? && f.legacy.value.Obj? then
      TextFields(f.legacy.value.fields)
    else
      []
  }

  lemma {:induction false} UsableExactly(items: seq<Json>, p: Pair)
    ensures p in UsablePairs(items) <==> p.0 != "" && List([Text(p.0), Text(p.1)]) in items
  {
    if items == [] {
    } else {
      var n := |items| - 1;
      UsableExactly(items[..n], p);
      assert items == items[..n] + [items[n]];
      assert items[n] == List([Text(p.0), Text(p.1)]) && p.0 != "" <==> Usable(items[n]) == Some(p);
    }
  }

  lemma {:induction false} TextsExactly(fields: seq<Field>, p: Pair)
    ensures p in TextFields(fields) <==> Field(p.0, Text(p.1)) in fields
  {
    if fields == [] {
    } else {
      var n := |fields| - 1;
      TextsExactly(fields[..n], p);
      assert fields == fields[..n] + [fields[n]];
    }
  }

  /** A frame says a value of a name if it has that pair, the name not empty; a frame
      without any such pair says it if its legacy object does. */
  lemma SaysExactly(f: Frame, p: Pair)
    ensures p in Said(f) <==>
      || (p.0 != "" && f.multi.Some? && f.multi.value.List? && List([Text(p.0), Text(p.1)]) in f.multi.value.items)
      || (f.legacy.Some? && f.legacy.value.Obj? && Field(p.0, Text(p.1)) in f.legacy.value.fields
          && !(f.multi.Some? && f.multi.value.List?
               && exists q: Pair :: q.0 != "" && List([Text(q.0), Text(q.1)]) in f.multi.value.items))
  {
    if f.multi.Some? && f.multi.value.List? {
      forall q: Pair
        ensures q in UsablePairs(f.multi.value.items) <==>
          q.0 != "" && List([Text(q.0), Text(q.1)]) in f.multi.value.items
      {
        UsableExactly(f.multi.value.items, q);
      }
      if UsablePairs(f.multi.value.items) != [] {
        assert UsablePairs(f.multi.value.items)[0] in UsablePairs(f.multi.value.items);
      }
    }
    if f.legacy.Some? && f.legacy.value.Obj? {
      TextsExactly(f.legacy.value.fields, p);
    }
  }

  /** http.Header.Add. */
  method Add(h: Headers, name: string, value: string, canon: string -> string, ghost pairs: seq<Pair>)
    returns (r: Headers)
    requires Collects(h, pairs, canon)
    ensures Collects(r, pairs + [(name, value)], canon)
  {
    var key := canon(name);
    r := h[key := (if key in h then h[key] else []) + [value]];
    forall n ensures (n in r <==> ValuesOf(pairs + [(name, value)], canon, n) != []) &&
                     (n in r ==> r[n] == ValuesOf(pairs + [(name, value)], canon, n))
    {
      OneMoreValue(pairs, (name, value), canon, n);
    }
  }

  lemma OneMoreUsable(items: seq<Json>, i: nat)
    requires i < |items|
    ensures UsablePairs(items[..i + 1]) ==
            if Usable(items[i]).Some? then UsablePairs(items[..i]) + [Usable(items[i]).value]
            else UsablePairs(items[..i])
  {
    assert items[..i + 1][..i] == items[..i];
  }

  lemma OneMoreText(fields: seq<Field>, i: nat)
    requires i < |fields|
    ensures TextFields(fields[..i + 1]) ==
            if fields[i].value.Text? then TextFields(fields[..i]) + [(fields[i].key, fields[i].value.s)]
            else TextFields(fields[..i])
  {
    assert fields[..i + 1][..i] == fields[..i];
  }

  method FromPairs(items: seq<Json>, canon: string -> string) returns (h: Headers, n: nat)
    ensures n == |UsablePairs(items)| && Collects(h, UsablePairs(items), canon)
  {
    h, n := map[], 0;
    for i := 0 to |items|
      invariant n == |UsablePairs(items[..i])|
      invariant Collects(h, UsablePairs(items[..i]), canon)
    {
      var p := Usable(items[i]);
      OneMoreUsable(items, i);
      if p.None? {
        continue;
      }
      h := Add(h, p.value.0, p.value.1, canon, UsablePairs(items[..i]));
      n := n + 1;
    }
    assert items[..|items|] == items;
  }

  method FromLegacy(fields: seq<Field>, canon: string -> string) returns (h: Headers)
    ensures Collects(h, TextFields(fields), canon)
  {
    h := map[];
    for i := 0 to |fields|
      invariant Collects(h, TextFields(fields[..i]), canon)
    {
      OneMoreText(fields, i);
      if fields[i].value.Text? {
        h := Add(h, fields[i].key, fields[i].value.s, canon, TextFields(fields[..i]));
      }
    }
    assert fields[..|fields|] == fields;
  }

  /** headersFromFrame. */
  method HeadersFromFrame(f: Frame, canon: string -> string) returns (h: Headers)
    ensures Collects(h, Said(f), canon)
  {
    if f.multi.Some? && f.multi.value.List? {
      var n;
      h, n := FromPairs(f.multi.value.items, canon);
      if n > 0 {
        return;
      }
    }
    h := map[];
    if f.legacy.Some? && f.legacy.value.Obj? {
      h := FromLegacy(f.legacy.value.fields, canon);
    }
  }

  // ---- encoding ----

  ghost predicate Ascending(multi: seq<Pair>, rank: string -> int) {
    forall i, j :: 0 <= i < j < |multi| ==> rank(multi[i].0) <= rank(multi[j].0)
  }

  ghost predicate Gives(multi: seq<Pair>, name: string, values: seq<string>) {
    ValuesOf(multi, Same, name) == values
  }

  /** Every value of every name, a name's values in order, the names in theirs. */
  ghost predicate Lists(multi: seq<Pair>, h: Headers, rank: string -> int) {
    && Ascending(multi, rank)
    && forall name :: Gives(multi, name, if name in h then h[name] else [])
  }

  ghost predicate FirstValues(legacy: map<string, string>, h: Headers) {
    && (forall k :: k in legacy <==> k in h && h[k] != [])
    && (forall k :: k in legacy ==> legacy[k] == h[k][0])
  }

  /** A map's keys, in whatever order it gives them. */
  method Keys(h: Headers) returns (names: seq<string>)
    ensures forall k :: k in names <==> k in h
    ensures NoRepeats(names)
  {
    var left := h.Keys;
    names := [];
    while left != {}
      invariant left <= h.Keys && NoRepeats(names)
      invariant forall k :: k in names <==> k in h && k !in left
    {
      var k :| k in left;
      left, names := left - {k}, names + [k];
    }
  }

  /** The state of the encoding when it has dealt with these names, and with the
      first `j` values of the next one. */
  ghost predicate ListsSome(multi: seq<Pair>, h: Headers, names: seq<string>, k: string, j: nat, rank: string -> int)
    requires k in h && j <= |h[k]|
  {
    && Ascending(multi, rank)
    && (forall i :: 0 <= i < |multi| ==> multi[i].0 in names || multi[i].0 == k)
    && forall name :: Gives(multi, name, Given(h, names, k, j, name))
  }

  function Given(h: Headers, names: seq<string>, k: string, j: nat, name: string): seq<string>
    requires k in h && j <= |h[k]|
  {
    if name == k then h[k][..j] else if name in names && name in h then h[name] else []
  }

  lemma GivesOneMore(multi: seq<Pair>, h: Headers, names: seq<string>, k: string, j: nat, name: string)
    requires k in h && j < |h[k]| && Gives(multi, name, Given(h, names, k, j, name))
    ensures Gives(multi + [(k, h[k][j])], name, Given(h, names, k, j + 1, name))
  {
    OneMoreValue(multi, (k, h[k][j]), Same, name);
    assert h[k][..j + 1] == h[k][..j] + [h[k][j]];
  }

  lemma AscendsOneMore(multi: seq<Pair>, names: seq<string>, p: Pair, rank: string -> int)
    requires Ascending(multi, rank) && forall i :: 0 <= i < |multi| ==> multi[i].0 in names || multi[i].0 == p.0
    requires forall n :: n in names ==> rank(n) <= rank(p.0)
    ensures Ascending(multi + [p], rank)
  {
  }

  lemma ListsOneMore(multi: seq<Pair>, h: Headers, names: seq<string>, k: string, j: nat, rank: string -> int)
    requires k in h && j < |h[k]| && ListsSome(multi, h, names, k, j, rank)
    requires forall n :: n in names ==> rank(n) <= rank(k)
    ensures ListsSome(multi + [(k, h[k][j])], h, names, k, j + 1, rank)
  {
    var r, next := multi + [(k, h[k][j])], j + 1;
    AscendsOneMore(multi, names, (k, h[k][j]), rank);
    forall name ensures Gives(r, name, Given(h, names, k, next, name)) {
      GivesOneMore(multi, h, names, k, j, name);
    }
  }

  method AddValues(multi: seq<Pair>, h: Headers, names: seq<string>, k: string, rank: string -> int)
    returns (r: seq<Pair>)
    requires k in h && ListsSome(multi, h, names, k, 0, rank)
    requires forall n :: n in names ==> rank(n) <= rank(k)
    ensures ListsSome(r, h, names, k, |h[k]|, rank)
  {
    r := multi;
    for j := 0 to |h[k]|
      invariant ListsSome(r, h, names, k, j, rank)
    {
      ListsOneMore(r, h, names, k, j, rank);
      r := r + [(k, h[k][j])];
    }
  }

  /** Done with one name is about to start on the next. */
  lemma NextName(multi: seq<Pair>, h: Headers, names: seq<string>, k: string, next: string, rank: string -> int)
    requires k in h && next in h && next !in names && next != k && ListsSome(multi, h, names, k, |h[k]|, rank)
    ensures ListsSome(multi, h, names + [k], next, 0, rank)
  {
    forall name ensures Gives(multi, name, Given(h, names + [k], next, 0, name)) {
      assert Gives(multi, name, Given(h, names, k, |h[k]|, name));
    }
  }

  lemma AllNames(multi: seq<Pair>, h: Headers, names: seq<string>, k: string, rank: string -> int)
    requires k in h && ListsSome(multi, h, names, k, |h[k]|, rank)
    requires forall n :: n in h <==> n in names || n == k
    ensures Lists(multi, h, rank)
  {
    forall name ensures Gives(multi, name, if name in h then h[name] else []) {
      assert Gives(multi, name, Given(h, names, k, |h[k]|, name));
    }
  }

  ghost predicate FirstsSome(legacy: map<string, string>, h: Headers, names: seq<string>) {
    && (forall k :: k in legacy <==> k in names && k in h && h[k] != [])
    && (forall k :: k in legacy ==> legacy[k] == h[k][0])
  }

  lemma FirstsOneMore(legacy: map<string, string>, h: Headers, names: seq<string>, i: nat)
    requires i < |names| && names[i] in h && FirstsSome(legacy, h, names[..i])
    ensures FirstsSome(if h[names[i]] != [] then legacy[names[i] := h[names[i]][0]] else legacy, h, names[..i + 1])
  {
    assert names[..i + 1] == names[..i] + [names[i]];
  }

  /** headersWire; `rank` is where a string sorts. */
  method HeadersWire(h: Headers, rank: string -> int) returns (legacy: map<string, string>, multi: seq<Pair>)
    ensures FirstValues(legacy, h) && Lists(multi, h, rank)
  {
    var names := SortedKeys(h, rank);
    legacy, multi := map[], [];
    if names == [] {
      NoNames(h, rank);
    } else {
      FirstName(h, names[0], rank);
      assert names[..0] == [];
    }
    for i := 0 to |names|
      invariant FirstsSome(legacy, h, names[..i])
      invariant WireAt(multi, h, names, i, rank)
    {
      var k := names[i];
      FirstsOneMore(legacy, h, names, i);
      InTheirPlace(names, rank, i);
      if |h[k]| > 0 {
        legacy := legacy[k := h[k][0]];
      }
      multi := AddValues(multi, h, names[..i], k, rank);
      WireNext(multi, h, names, i, rank);
    }
  }

  /** Where the encoding stands when it has dealt with `i` of the names. */
  ghost predicate WireAt(multi: seq<Pair>, h: Headers, names: seq<string>, i: nat, rank: string -> int)
    requires i <= |names| && forall k :: k in names ==> k in h
  {
    if i == |names| then Lists(multi, h, rank) else ListsSome(multi, h, names[..i], names[i], 0, rank)
  }

  lemma WireNext(multi: seq<Pair>, h: Headers, names: seq<string>, i: nat, rank: string -> int)
    requires i < |names| && NoRepeats(names) && SortedBy(names, rank) && forall k :: k in names <==> k in h
    requires ListsSome(multi, h, names[..i], names[i], |h[names[i]]|, rank)
    ensures WireAt(multi, h, names, i + 1, rank)
  {
    InTheirPlace(names, rank, i);
    assert names[..i + 1] == names[..i] + [names[i]];
    if i + 1 < |names| {
      NextName(multi, h, names[..i], names[i], names[i + 1], rank);
    } else {
      assert names == names[..i] + [names[i]];
      AllNames(multi, h, names[..i], names[i], rank);
    }
  }

  lemma NoNames(h: Headers, rank: string -> int)
    requires forall k :: k !in h
    ensures Lists([], h, rank)
  {
  }

  lemma FirstName(h: Headers, k: string, rank: string -> int)
    requires k in h
    ensures ListsSome([], h, [], k, 0, rank)
  {
  }

  lemma InTheirPlace(names: seq<string>, rank: string -> int, i: nat)
    requires i < |names| && NoRepeats(names) && SortedBy(names, rank)
    ensures forall n :: n in names[..i] ==> rank(n) <= rank(names[i])
    ensures i + 1 < |names| ==> names[i + 1] !in names[..i] && names[i + 1] != names[i]
  {
  }

  method SortedKeys(h: Headers, rank: string -> int) returns (names: seq<string>)
    ensures NoRepeats(names) && SortedBy(names, rank) && forall k :: k in names <==> k in h
  {
    var arrived := Keys(h);
    names := Sort(arrived, rank);
    SortKeeps(arrived, rank);
    PermutedNoRepeats(arrived, names);
  }

  // ---- what goes over the wire and comes back ----

  lemma {:induction false} NamedIn(pairs: seq<Pair>, canon: string -> string, name: string)
    ensures ValuesOf(pairs, canon, name) != [] <==> exists i :: 0 <= i < |pairs| && canon(pairs[i].0) == name
  {
    if pairs == [] {
    } else {
      var n := |pairs| - 1;
      NamedIn(pairs[..n], canon, name);
      assert forall i :: 0 <= i < n ==> pairs[i] == pairs[..n][i];
    }
  }

  ghost predicate SameValues(a: seq<Pair>, b: seq<Pair>) {
    forall name :: Gives(a, name, ValuesOf(b, Same, name))
  }

  lemma LastRanksFirst(a: seq<Pair>, b: seq<Pair>, rank: string -> int)
    requires a != [] && b != [] && Ascending(b, rank) && SameValues(a, b)
    ensures rank(a[|a| - 1].0) <= rank(b[|b| - 1].0)
  {
    var name := a[|a| - 1].0;
    NamedIn(b, Same, name);
    assert Gives(a, name, ValuesOf(b, Same, name));
  }

  lemma SameLast(a: seq<Pair>, b: seq<Pair>, rank: string -> int)
    requires forall x, y :: rank(x) == rank(y) ==> x == y
    requires a != [] && b != [] && Ascending(a, rank) && Ascending(b, rank) && SameValues(a, b)
    ensures a[|a| - 1] == b[|b| - 1]
  {
    var m, n := |a| - 1, |b| - 1;
    LastRanksFirst(a, b, rank);
    forall name ensures Gives(b, name, ValuesOf(a, Same, name)) {
      assert Gives(a, name, ValuesOf(b, Same, name));
    }
    LastRanksFirst(b, a, rank);
    assert Gives(a, a[m].0, ValuesOf(b, Same, a[m].0));
    DropLast(ValuesOf(a[..m], Same, a[m].0), ValuesOf(b[..n], Same, a[m].0), a[m].1, b[n].1, true);
  }

  lemma SameFronts(a: seq<Pair>, b: seq<Pair>)
    requires a != [] && b != [] && a[|a| - 1] == b[|b| - 1] && SameValues(a, b)
    ensures SameValues(a[..|a| - 1], b[..|b| - 1])
  {
    var m, n := |a| - 1, |b| - 1;
    forall x ensures Gives(a[..m], x, ValuesOf(b[..n], Same, x)) {
      assert Gives(a, x, ValuesOf(b, Same, x));
      DropLast(ValuesOf(a[..m], Same, x), ValuesOf(b[..n], Same, x), a[m].1, b[n].1, a[m].0 == x);
    }
  }

  /** Order by name, and a name's values, determine the pairs. */
  lemma {:induction false} PairsDetermined(a: seq<Pair>, b: seq<Pair>, rank: string -> int)
    requires forall x, y :: rank(x) == rank(y) ==> x == y
    requires Ascending(a, rank) && Ascending(b, rank) && SameValues(a, b)
    ensures a == b
  {
    if a == [] {
      forall name ensures ValuesOf(b, Same, name) == [] {
        assert Gives(a, name, ValuesOf(b, Same, name));
      }
      NoValues(b);
    } else if b == [] {
      forall name ensures ValuesOf(a, Same, name) == [] {
        assert Gives(a, name, ValuesOf(b, Same, name));
      }
      NoValues(a);
    } else {
      SameLast(a, b, rank);
      SameFronts(a, b);
      PairsDetermined(a[..|a| - 1], b[..|b| - 1], rank);
      assert a == a[..|a| - 1] + [a[|a| - 1]] && b == b[..|b| - 1] + [b[|b| - 1]];
    }
  }

  lemma NoValues(a: seq<Pair>)
    requires forall name :: ValuesOf(a, Same, name) == []
    ensures a == []
  {
    if a != [] {
      NamedIn(a, Same, a[|a| - 1].0);
    }
  }

  /** The pairs sent depend on the headers only, not on the order a map is read in. */
  lemma WireDetermined(a: seq<Pair>, b: seq<Pair>, h: Headers, rank: string -> int)
    requires forall x, y :: rank(x) == rank(y) ==> x == y
    requires Lists(a, h, rank) && Lists(b, h, rank)
    ensures a == b
  {
    forall name ensures Gives(a, name, ValuesOf(b, Same, name)) {
      assert Gives(a, name, if name in h then h[name] else []);
      assert Gives(b, name, if name in h then h[name] else []);
    }
    PairsDetermined(a, b, rank);
  }

  lemma DropLast(u: seq<string>, v: seq<string>, x: string, y: string, both: bool)
    requires if both then u + [x] == v + [y] else u + [] == v + []
    ensures u == v && (both ==> x == y)
  {
    if both {
      assert |u| == |v| && (u + [x])[|u|] == x && (v + [y])[|v|] == y;
      assert u == (u + [x])[..|u|] && v == (v + [y])[..|v|];
    } else {
      assert u + [] == u && v + [] == v;
    }
  }

  function Encoded(multi: seq<Pair>): seq<Json> {
    if multi == [] then []
    else
      var p := multi[|multi| - 1];
      Encoded(multi[..|multi| - 1]) + [List([Text(p.0), Text(p.1)])]
  }

  ghost predicate FieldsOf(fields: seq<Field>, legacy: map<string, string>) {
    && (forall i, j :: 0 <= i < j < |fields| ==> fields[i].key != fields[j].key)
    && (forall i :: 0 <= i < |fields| ==> fields[i].key in legacy && fields[i].value == Text(legacy[fields[i].key]))
  }

  /** The legacy object with its fields in some order. */
  ghost predicate IsObject(fields: seq<Field>, legacy: map<string, string>) {
    FieldsOf(fields, legacy) && forall k :: k in legacy ==> HasField(fields, k)
  }

  predicate HasField(fields: seq<Field>, k: string) {
    exists i :: 0 <= i < |fields| && fields[i].key == k
  }

  lemma {:induction false} AllUsable(multi: seq<Pair>)
    requires forall i :: 0 <= i < |multi| ==> multi[i].0 != ""
    ensures UsablePairs(Encoded(multi)) == multi
  {
    if multi == [] {
    } else {
      var n := |multi| - 1;
      AllUsable(multi[..n]);
      var items := Encoded(multi);
      assert items[..|items| - 1] == Encoded(multi[..n]);
    }
  }

  function Sent(multi: seq<Pair>, fields: seq<Field>): Frame {
    Frame(Some(List(Encoded(multi))), Some(Obj(fields)))
  }

  /** A frame carrying both fields says what was sent. */
  lemma SaysWhatWasSent(multi: seq<Pair>, legacy: map<string, string>, fields: seq<Field>, h: Headers,
                        rank: string -> int)
    requires Lists(multi, h, rank) && FirstValues(legacy, h) && IsObject(fields, legacy) && "" !in h
    ensures Said(Sent(multi, fields)) == multi
  {
    forall i | 0 <= i < |multi| ensures multi[i].0 in h {
      assert Gives(multi, multi[i].0, if multi[i].0 in h then h[multi[i].0] else []);
      NamedIn(multi, Same, multi[i].0);
    }
    AllUsable(multi);
    if fields != [] {
      var k := fields[0].key;
      assert Gives(multi, k, h[k]);
      assert multi != [];
    }
  }

  lemma {:induction false} AllCanonical(pairs: seq<Pair>, canon: string -> string, name: string)
    requires forall i :: 0 <= i < |pairs| ==> canon(pairs[i].0) == pairs[i].0
    ensures ValuesOf(pairs, canon, name) == ValuesOf(pairs, Same, name)
  {
    if pairs == [] {
    } else {
      AllCanonical(pairs[..|pairs| - 1], canon, name);
    }
  }

  lemma CanonicalComesBack(h: Headers, multi: seq<Pair>, out: Headers, canon: string -> string, rank: string -> int)
    requires Lists(multi, h, rank) && Collects(out, multi, canon)
    requires forall k :: k in h ==> canon(k) == k && h[k] != []
    ensures out == h
  {
    forall i | 0 <= i < |multi| ensures canon(multi[i].0) == multi[i].0 {
      NamedIn(multi, Same, multi[i].0);
      assert Gives(multi, multi[i].0, if multi[i].0 in h then h[multi[i].0] else []);
    }
    forall name ensures (name in out <==> name in h) && (name in out ==> out[name] == h[name]) {
      AllCanonical(multi, canon, name);
      assert Gives(multi, name, if name in h then h[name] else []);
    }
  }

  /** Sent and decoded, the headers are what they were exactly when every name is
      canonical and has a value; a name's values keep their order. */
  lemma RoundTripExactly(h: Headers, multi: seq<Pair>, legacy: map<string, string>, fields: seq<Field>, out: Headers,
                         canon: string -> string, rank: string -> int)
    requires forall n :: canon(canon(n)) == canon(n)
    requires Lists(multi, h, rank) && FirstValues(legacy, h) && IsObject(fields, legacy) && "" !in h
    requires Collects(out, Said(Sent(multi, fields)), canon)
    ensures out == h <==> forall k :: k in h ==> canon(k) == k && h[k] != []
  {
    SaysWhatWasSent(multi, legacy, fields, h, rank);
    if out == h {
      forall k | k in h ensures canon(k) == k && h[k] != [] {
        assert h[k] == ValuesOf(multi, canon, k) != [];
        NamedIn(multi, canon, k);
      }
    } else if forall k :: k in h ==> canon(k) == k && h[k] != [] {
      CanonicalComesBack(h, multi, out, canon, rank);
    }
  }

  /** A name's value in the first fields of a legacy object. */
  function Value(fields: seq<Field>, legacy: map<string, string>, name: string): seq<string> {
    if name in legacy && HasField(fields, name) then [legacy[name]] else []
  }

  lemma ValueMore(fields: seq<Field>, legacy: map<string, string>, name: string)
    requires fields != [] && FieldsOf(fields, legacy)
    ensures var n := |fields| - 1;
      Value(fields, legacy, name)
      == Value(fields[..n], legacy, name) + if fields[n].key == name then [fields[n].value.s] else []
  {
    var n := |fields| - 1;
    assert forall i :: 0 <= i < n ==> fields[..n][i] == fields[i];
    if fields[n].key == name {
      assert !HasField(fields[..n], name);
    } else {
      assert HasField(fields, name) <==> HasField(fields[..n], name);
    }
  }

  ghost predicate CanonicalKeys(fields: seq<Field>, canon: string -> string) {
    forall i :: 0 <= i < |fields| ==> canon(fields[i].key) == fields[i].key
  }

  lemma TextFieldsMore(front: seq<Field>, f: Field)
    requires f.value.Text?
    ensures TextFields(front + [f]) == TextFields(front) + [(f.key, f.value.s)]
  {
    assert (front + [f])[..|front|] == front;
  }

  lemma {:induction false} OneField(fields: seq<Field>, legacy: map<string, string>, canon: string -> string,
                                    name: string)
    requires FieldsOf(fields, legacy) && CanonicalKeys(fields, canon)
    ensures ValuesOf(TextFields(fields), canon, name) == Value(fields, legacy, name)
  {
    if fields == [] {
    } else {
      var n := |fields| - 1;
      var front, f := fields[..n], fields[n];
      OneField(front, legacy, canon, name);
      ValueMore(fields, legacy, name);
      assert fields == front + [f] && canon(f.key) == f.key;
      TextFieldsMore(front, f);
      OneMoreValue(TextFields(front), (f.key, f.value.s), canon, name);
    }
  }

  /** A reader that knows only the legacy field gets each name's first value. */
  lemma LegacyGivesFirstValues(h: Headers, legacy: map<string, string>, fields: seq<Field>, out: Headers,
                               canon: string -> string)
    requires FirstValues(legacy, h) && IsObject(fields, legacy) && forall k :: k in h ==> canon(k) == k
    requires Collects(out, Said(Frame(None, Some(Obj(fields)))), canon)
    ensures forall k :: k in out <==> k in h && h[k] != []
    ensures forall k :: k in out ==> out[k] == [h[k][0]]
  {
    forall k ensures (k in out <==> k in h && h[k] != []) && (k in out ==> out[k] == [h[k][0]]) {
      OneField(fields, legacy, canon, k);
      assert k in legacy ==> HasField(fields, k);
    }
  }
}
