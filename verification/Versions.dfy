/** internal/state/state.go's version order and downgrade guard, and the bootstrap in
    internal/ops/ops.go that asks the guard and records the version. */
module Versions {
  import opened Wrappers

  /** The library calls: strings.TrimSpace and strconv.Atoi. */
  datatype Library = Library(trim: string -> string, atoi: string -> Option<int>)

  type Version = seq<nat>

  // ---- parsing ----

  function Split(s: string, sep: char): (parts: seq<string>)
    ensures parts != []
  {
    if s == "" then [""]
    else
      var rest := Split(s[1..], sep);
      if s[0] == sep then [""] + rest else [[s[0]] + rest[0]] + rest[1..]
  }

  function WithoutV(s: string): string {
    if s != "" && s[0] == 'v' then s[1..] else s
  }

  predicate IsNumber(lib: Library, part: string) {
    lib.atoi(part).Some? && lib.atoi(part).value >= 0
  }

  ghost predicate Parses(lib: Library, text: string) {
    var body := WithoutV(lib.trim(text));
    body != "" && forall i :: 0 <= i < |Split(body, '.')| ==> IsNumber(lib, Split(body, '.')[i])
  }

  function Number(lib: Library, part: string): nat
    requires IsNumber(lib, part)
  {
    lib.atoi(part).value
  }

  function Numbers(lib: Library, parts: seq<string>): Version
    requires forall i :: 0 <= i < |parts| ==> IsNumber(lib, parts[i])
  {
    seq(|parts|, i requires 0 <= i < |parts| && IsNumber(lib, parts[i]) => Number(lib, parts[i]))
  }

  ghost function Parsed(lib: Library, text: string): Option<Version> {
    if Parses(lib, text) then Some(Numbers(lib, Split(WithoutV(lib.trim(text)), '.'))) else None
  }

  method ParseVersion(lib: Library, text: string) returns (r: Option<Version>)
    ensures r == Parsed(lib, text)
  {
    var body := WithoutV(lib.trim(text));
    if body == "" {
      return None;
    }
    var parts := Split(body, '.');
    var nums: Version := [];
    for i := 0 to |parts|
      invariant |nums| == i
      invariant forall j :: 0 <= j < i ==> IsNumber(lib, parts[j]) && nums[j] == lib.atoi(parts[j]).value
    {
      var n := lib.atoi(parts[i]);
      if n.None? || n.value < 0 {
        assert !IsNumber(lib, parts[i]);
        return None;
      }
      nums := nums + [n.value];
    }
    assert nums == Numbers(lib, parts);
    return Some(nums);
  }

  // ---- which texts are versions ----

  /** Parts put together, with the separator between them. */
  function Joined(parts: seq<string>, sep: char): string
    requires parts != []
  {
    if |parts| == 1 then parts[0] else parts[0] + [sep] + Joined(parts[1..], sep)
  }

  lemma JoinedGrows(first: string, parts: seq<string>, sep: char, c: char)
    requires parts != []
    ensures Joined([[c] + parts[0]] + parts[1..], sep) == [c] + Joined(parts, sep)
    ensures Joined([first] + parts, sep) == first + [sep] + Joined(parts, sep)
  {
    var longer := [[c] + parts[0]] + parts[1..];
    assert longer[1..] == parts[1..];
    assert ([first] + parts)[1..] == parts;
    if |parts| > 1 {
      assert ([c] + parts[0]) + [sep] + Joined(parts[1..], sep) == [c] + (parts[0] + [sep] + Joined(parts[1..], sep));
    }
  }

  /** The parts are the text cut at every separator, ... */
  lemma {:induction false} SplitJoins(s: string, sep: char)
    ensures Joined(Split(s, sep), sep) == s && forall p :: p in Split(s, sep) ==> sep !in p
  {
    if s == "" {
    } else {
      var rest := Split(s[1..], sep);
      SplitJoins(s[1..], sep);
      JoinedGrows("", rest, sep, s[0]);
      assert s == [s[0]] + s[1..];
      if s[0] != sep {
        assert rest[0] in rest;
        assert forall p :: p in rest[1..] ==> p in rest;
      }
    }
  }

  /** ... and the only such ones. */
  lemma {:induction false} JoinedSplits(parts: seq<string>, sep: char)
    requires parts != [] && forall p :: p in parts ==> sep !in p
    ensures Split(Joined(parts, sep), sep) == parts
    decreases |parts|, |parts[0]|
  {
    var s := Joined(parts, sep);
    if parts[0] != "" {
      var c, shorter := parts[0][0], [parts[0][1..]] + parts[1..];
      assert parts[0] in parts;
      assert forall p :: p in shorter ==> p == parts[0][1..] || p in parts;
      JoinedGrows("", shorter, sep, c);
      assert [c] + shorter[0] == parts[0] && shorter[1..] == parts[1..];
      assert [[c] + shorter[0]] + shorter[1..] == parts;
      JoinedSplits(shorter, sep);
      assert s[1..] == Joined(shorter, sep);
    } else if |parts| > 1 {
      JoinedSplits(parts[1..], sep);
      assert s[1..] == Joined(parts[1..], sep);
      assert parts == [""] + parts[1..];
    }
  }

  /** The parts are those numbers. */
  ghost predicate Spells(lib: Library, parts: seq<string>, v: Version) {
    |parts| == |v| && forall i :: 0 <= i < |v| ==> '.' !in parts[i] && lib.atoi(parts[i]) == Some(v[i])
  }

  /** With one leading v, or with none. */
  predicate Bears(text: string, body: string) {
    body != "" && (text == "v" + body || (text == body && body[0] != 'v'))
  }

  /** A text is a version if and only if, trimmed, it is an optional v and the numbers of
      the version with dots between them. */
  lemma ParsedExactly(lib: Library, text: string, v: Version)
    ensures Parsed(lib, text) == Some(v) <==>
      exists parts :: parts != [] && Spells(lib, parts, v) && Bears(lib.trim(text), Joined(parts, '.'))
  {
    var body := WithoutV(lib.trim(text));
    if Parsed(lib, text) == Some(v) {
      var parts := Split(body, '.');
      SplitJoins(body, '.');
      assert forall i :: 0 <= i < |parts| ==>
        parts[i] in parts && IsNumber(lib, parts[i]) && v[i] == Number(lib, parts[i]);
      assert Spells(lib, parts, v) && Bears(lib.trim(text), Joined(parts, '.'));
    }
    forall parts | parts != [] && Spells(lib, parts, v) && Bears(lib.trim(text), Joined(parts, '.'))
      ensures Parsed(lib, text) == Some(v)
    {
      JoinedSplits(parts, '.');
      assert body == Joined(parts, '.');
      assert forall i :: 0 <= i < |parts| ==> IsNumber(lib, parts[i]) && Number(lib, parts[i]) == v[i];
      assert Numbers(lib, parts) == v;
    }
  }

  // ---- the order ----

  /** The i-th number, with zeros for the ones left out. */
  function At(v: Version, i: nat): nat {
    if i < |v| then v[i] else 0
  }

  ghost predicate SameUpTo(a: Version, b: Version, n: nat) {
    forall j: nat :: j < n ==> At(a, j) == At(b, j)
  }

  /** The first number in which they differ is smaller. */
  ghost predicate Less(a: Version, b: Version) {
    exists i: nat :: SameUpTo(a, b, i) && At(a, i) < At(b, i)
  }

  ghost predicate Same(a: Version, b: Version) {
    forall i: nat :: At(a, i) == At(b, i)
  }

  method CompareVersions(lib: Library, a: string, b: string) returns (cmp: int, ok: bool)
    ensures ok <==> Parsed(lib, a).Some? && Parsed(lib, b).Some?
    ensures !ok ==> cmp == 0
    ensures ok ==> -1 <= cmp <= 1
    ensures ok ==> (cmp == -1 <==> Less(Parsed(lib, a).value, Parsed(lib, b).value))
    ensures ok ==> (cmp == 0 <==> Same(Parsed(lib, a).value, Parsed(lib, b).value))
    ensures ok ==> (cmp == 1 <==> Less(Parsed(lib, b).value, Parsed(lib, a).value))
  {
    var pa := ParseVersion(lib, a);
    var pb := ParseVersion(lib, b);
    if pa.None? || pb.None? {
      return 0, false;
    }
    var x, y := pa.value, pb.value;
    OnlyOne(x, y);
    OnlyOne(y, x);
    var n := if |y| > |x| then |y| else |x|;
    for i := 0 to n
      invariant SameUpTo(x, y, i)
    {
      var va, vb := At(x, i), At(y, i);
      if va != vb {
        assert SameUpTo(y, x, i);
        if va < vb {
          return -1, true;
        }
        return 1, true;
      }
    }
    forall i: nat ensures At(x, i) == At(y, i) {}
    return 0, true;
  }

  /** Two versions that differ do so in one way. */
  lemma OnlyOne(a: Version, b: Version)
    ensures !(Less(a, b) && Less(b, a))
    ensures !(Less(a, b) && Same(a, b))
  {
    if Less(a, b) {
      var i: nat :| SameUpTo(a, b, i) && At(a, i) < At(b, i);
      forall j: nat ensures !(SameUpTo(b, a, j) && At(b, j) < At(a, j)) {
        assert SameUpTo(b, a, j) && i < j ==> At(b, i) == At(a, i);
        assert j < i ==> At(a, j) == At(b, j);
      }
    }
  }

  lemma {:induction false} FirstDifference(a: Version, b: Version, n: nat)
    ensures SameUpTo(a, b, n) || Less(a, b) || Less(b, a)
  {
    if n == 0 {
    } else {
      FirstDifference(a, b, n - 1);
      if SameUpTo(a, b, n - 1) && At(a, n - 1) != At(b, n - 1) {
        assert SameUpTo(b, a, n - 1);
      }
    }
  }

  lemma OneOfThree(a: Version, b: Version)
    ensures Less(a, b) || Same(a, b) || Less(b, a)
  {
    FirstDifference(a, b, if |b| > |a| then |b| else |a|);
  }

  lemma LessSame(a: Version, b: Version, c: Version)
    requires Same(a, b)
    ensures Less(a, c) <==> Less(b, c)
    ensures Less(c, a) <==> Less(c, b)
  {
    LessSameOneWay(a, b, c);
    LessSameOneWay(b, a, c);
  }

  lemma LessSameOneWay(a: Version, b: Version, c: Version)
    requires Same(a, b)
    ensures Less(a, c) ==> Less(b, c)
    ensures Less(c, a) ==> Less(c, b)
  {
    if Less(a, c) {
      var i: nat :| SameUpTo(a, c, i) && At(a, i) < At(c, i);
      assert SameUpTo(b, c, i) && At(b, i) < At(c, i);
    }
    if Less(c, a) {
      var i: nat :| SameUpTo(c, a, i) && At(c, i) < At(a, i);
      assert SameUpTo(c, b, i) && At(c, i) < At(b, i);
    }
  }

  lemma LessChains(a: Version, b: Version, c: Version)
    requires Less(a, b) && Less(b, c)
    ensures Less(a, c)
  {
    var i: nat :| SameUpTo(a, b, i) && At(a, i) < At(b, i);
    var j: nat :| SameUpTo(b, c, j) && At(b, j) < At(c, j);
    var k := if i < j then i else j;
    assert SameUpTo(a, c, k);
    assert At(a, k) < At(c, k);
  }

  ghost predicate AtMost(a: Version, b: Version) {
    !Less(b, a)
  }

  /** The order is a total preorder: any two versions compare, comparisons chain, and
      two that are each at most the other have the same numbers up to zeros. */
  lemma TotalPreorder(a: Version, b: Version, c: Version)
    ensures AtMost(a, b) || AtMost(b, a)
    ensures AtMost(a, b) && AtMost(b, c) ==> AtMost(a, c)
    ensures AtMost(a, b) && AtMost(b, a) <==> Same(a, b)
  {
    OnlyOne(a, b);
    OnlyOne(b, a);
    OneOfThree(a, b);
    OneOfThree(b, c);
    if AtMost(a, b) && AtMost(b, c) && Less(c, a) {
      if Same(a, b) {
        LessSame(a, b, c);
      } else {
        LessChains(c, a, b);
      }
    }
  }

  lemma TrailingZeros(a: Version, n: nat)
    ensures Same(a, a + seq(n, _ => 0))
  {
  }

  // ---- the recorded version ----

  /** state.json: unreadable, or what it says; a missing file says nothing. */
  datatype Store = Broken | File(last: string, provisioned: bool)

  datatype SaveLuck = Written | Untouched | LeftBroken

  /** What goes well in one bootstrap: reading the state before and after, the
      modules, and the two saves. */
  datatype Luck = Luck(checks: bool, manifest: bool, modules: seq<bool>, reloads: bool, provisions: SaveLuck,
                       rereads: bool, records: SaveLuck)

  datatype Options = Options(full: bool, hasPath: bool, version: string, force: bool)

  predicate Unordered(version: string) {
    version == "" || version == "dev"
  }

  /** `a` is an older release than `b`. */
  ghost predicate Older(lib: Library, a: string, b: string) {
    && Parsed(lib, a).Some? && Parsed(lib, b).Some?
    && Less(Parsed(lib, a).value, Parsed(lib, b).value)
  }

  function SavedAs(s: Store, next: Store, luck: SaveLuck): Store {
    match luck
    case Written => next
    case Untouched => s
    case LeftBroken => Broken
  }

  ghost predicate Allowed(lib: Library, s: Store, o: Options, readable: bool) {
    || o.force
    || Unordered(lib.trim(o.version))
    || (readable && s.File? && (s.last == "" || !Older(lib, lib.trim(o.version), s.last)))
  }

  function RecordedIn(lib: Library, s: Store, version: string, readable: bool, luck: SaveLuck): Store {
    if Unordered(lib.trim(version)) || !readable || s.Broken? then s
    else SavedAs(s, s.(last := lib.trim(version)), luck)
  }

  function ProvisionedIn(s: Store, readable: bool, luck: SaveLuck): Store {
    if readable && s.File? && !s.provisioned then SavedAs(s, s.(provisioned := true), luck) else s
  }

  ghost predicate Completes(lib: Library, s: Store, o: Options, l: Luck) {
    && (o.full && o.hasPath ==> Allowed(lib, s, o, l.checks))
    && l.manifest && false !in l.modules
  }

  ghost function Bootstrapped(lib: Library, s: Store, o: Options, l: Luck): Store {
    if Completes(lib, s, o, l) && o.full && o.hasPath then
      RecordedIn(lib, ProvisionedIn(s, l.reloads, l.provisions), o.version, l.rereads, l.records)
    else
      s
  }

  class StateFile {
    var store: Store

    constructor (store: Store)
      ensures this.store == store
    {
      this.store := store;
    }

    method Save(next: Store, luck: SaveLuck)
      requires next.File?
      modifies this
      ensures store == SavedAs(old(store), next, luck)
    {
      match luck {
        case Written => store := next;
        case Untouched =>
        case LeftBroken => store := Broken;
      }
    }

    method CheckDowngrade(lib: Library, o: Options, readable: bool) returns (ok: bool)
      ensures ok <==> Allowed(lib, store, o, readable)
      ensures !ok <==>
        && !o.force && lib.trim(o.version) != "" && lib.trim(o.version) != "dev"
        && (!readable || store.Broken? || (store.last != "" && Older(lib, lib.trim(o.version), store.last)))
    {
      if o.force {
        return true;
      }
      var running := lib.trim(o.version);
      if Unordered(running) {
        return true;
      }
      if !readable || store.Broken? {
        return false;
      }
      if store.last == "" {
        return true;
      }
      var cmp, comparable := CompareVersions(lib, running, store.last);
      return !comparable || cmp >= 0;
    }

    method RecordBootstrapVersion(lib: Library, version: string, readable: bool, luck: SaveLuck)
      modifies this
      ensures store == RecordedIn(lib, old(store), version, readable, luck)
    {
      var running := lib.trim(version);
      if Unordered(running) {
        return;
      }
      if !readable || store.Broken? {
        return;
      }
      Save(store.(last := running), luck);
    }

    /** runModulesWithEnv. */
    method RunModules(lib: Library, o: Options, l: Luck) returns (ok: bool)
      modifies this
      ensures ok <==> Completes(lib, old(store), o, l)
      ensures store == Bootstrapped(lib, old(store), o, l)
    {
      if o.full && o.hasPath {
        var allowed := CheckDowngrade(lib, o, l.checks);
        if !allowed {
          return false;
        }
      }
      if !l.manifest {
        return false;
      }
      for i := 0 to |l.modules|
        invariant false !in l.modules[..i]
      {
        if !l.modules[i] {
          return false;
        }
      }
      if o.full && o.hasPath {
        if l.reloads && store.File? && !store.provisioned {
          Save(store.(provisioned := true), l.provisions);
        }
        RecordBootstrapVersion(lib, o.version, l.rereads, l.records);
      }
      return true;
    }
  }

  // ---- the guard at work ----

  /** Nothing recorded, or a release. */
  ghost predicate Ordered(lib: Library, s: Store) {
    s.File? ==> s.last == "" || Parsed(lib, s.last).Some?
  }

  ghost predicate Release(lib: Library, version: string) {
    Unordered(lib.trim(version)) || Parsed(lib, lib.trim(version)).Some?
  }

  /** What an undisturbed full bootstrap that the guard lets through records: its own
      version, or none if it is blank or a development build. */
  lemma RecordsExactly(lib: Library, s: Store, o: Options, l: Luck)
    requires s.File? && o.full && o.hasPath && Allowed(lib, s, o, l.checks)
    requires l.manifest && false !in l.modules
    requires l.reloads && l.provisions == Written && l.rereads && l.records == Written
    ensures Bootstrapped(lib, s, o, l) == File(
      if lib.trim(o.version) == "" || lib.trim(o.version) == "dev" then s.last else lib.trim(o.version), true)
  {
  }

  /** A bootstrap that is not full, has no state file, is refused, or breaks off records
      nothing at all. */
  lemma RecordsNothing(lib: Library, s: Store, o: Options, l: Luck)
    requires !o.full || !o.hasPath || !Allowed(lib, s, o, l.checks) || !l.manifest || false in l.modules
    ensures Bootstrapped(lib, s, o, l) == s
  {
  }

  /** What was recorded is still recorded or has given way to a release no older,
      unless the file was spoilt. */
  ghost predicate NoOlder(lib: Library, a: Store, b: Store) {
    b.File? && a.File? && a.last != "" ==> b.last != "" && !Older(lib, b.last, a.last)
  }

  /** One bootstrap puts an older release on record exactly when it is forced to, runs
      to the end and gets to record it. */
  lemma LowersExactly(lib: Library, s: Store, o: Options, l: Luck)
    requires s.File? && s.last != ""
    ensures Bootstrapped(lib, s, o, l).File? && Older(lib, Bootstrapped(lib, s, o, l).last, s.last) <==>
            && o.force && o.full && o.hasPath && l.manifest && false !in l.modules
            && !(l.reloads && !s.provisioned && l.provisions == LeftBroken)
            && l.rereads && l.records == Written
            && !Unordered(lib.trim(o.version)) && Older(lib, lib.trim(o.version), s.last)
  {
    NeverOlder(lib, s.last);
  }

  lemma NeverOlder(lib: Library, a: string)
    ensures !Older(lib, a, a)
  {
    if Parsed(lib, a).Some? {
      OnlyOne(Parsed(lib, a).value, Parsed(lib, a).value);
    }
  }

  lemma UnforcedNeverLowers(lib: Library, s: Store, o: Options, l: Luck)
    requires !o.force && Ordered(lib, s) && Release(lib, o.version)
    ensures NoOlder(lib, s, Bootstrapped(lib, s, o, l))
    ensures Ordered(lib, Bootstrapped(lib, s, o, l))
    ensures s.Broken? ==> Bootstrapped(lib, s, o, l).Broken?
  {
    if s.File? {
      NeverOlder(lib, s.last);
    }
  }

  lemma NoOlderChains(lib: Library, a: Store, b: Store, c: Store)
    requires NoOlder(lib, a, b) && NoOlder(lib, b, c) && (b.Broken? ==> c.Broken?)
    requires Ordered(lib, a) && Ordered(lib, b) && Ordered(lib, c)
    ensures NoOlder(lib, a, c)
  {
    if a.File? && b.File? && c.File? && a.last != "" {
      var x, y, z := Parsed(lib, a.last).value, Parsed(lib, b.last).value, Parsed(lib, c.last).value;
      TotalPreorder(x, y, z);
    }
  }

  ghost function Run(lib: Library, s: Store, runs: seq<(Options, Luck)>): Store
    decreases runs
  {
    if runs == [] then s else Run(lib, Bootstrapped(lib, s, runs[0].0, runs[0].1), runs[1..])
  }

  /** Over any run of unforced bootstraps of releases or development builds, whatever
      fails in them, the recorded version never goes down. */
  lemma {:induction false} RecordNeverGoesDown(lib: Library, s: Store, runs: seq<(Options, Luck)>)
    requires Ordered(lib, s)
    requires forall i :: 0 <= i < |runs| ==> !runs[i].0.force && Release(lib, runs[i].0.version)
    ensures NoOlder(lib, s, Run(lib, s, runs)) && Ordered(lib, Run(lib, s, runs))
    ensures s.Broken? ==> Run(lib, s, runs).Broken?
    decreases runs
  {
    if runs == [] {
      if s.File? {
        NeverOlder(lib, s.last);
      }
    } else {
      var next := Bootstrapped(lib, s, runs[0].0, runs[0].1);
      UnforcedNeverLowers(lib, s, runs[0].0, runs[0].1);
      assert forall i :: 0 <= i < |runs| - 1 ==> runs[1..][i] == runs[i + 1];
      RecordNeverGoesDown(lib, next, runs[1..]);
      NoOlderChains(lib, s, next, Run(lib, next, runs[1..]));
    }
  }

  /** A version that is no release makes the guard forget: an unforced bootstrap of it,
      then one of any release, and an older one is on record. */
  lemma GarbledVersionForgets(lib: Library, s: Store, odd: string, older: string, l: Luck)
    requires s.File? && s.last != "" && Older(lib, lib.trim(older), s.last)
    requires Parsed(lib, lib.trim(odd)).None? && !Unordered(lib.trim(odd)) && !Unordered(lib.trim(older))
    requires l == Luck(true, true, [], true, Written, true, Written)
    ensures var runs := [(Options(true, true, odd, false), l), (Options(true, true, older, false), l)];
      Run(lib, s, runs).File? && Run(lib, s, runs).last == lib.trim(older)
  {
    var first, second := (Options(true, true, odd, false), l), (Options(true, true, older, false), l);
    var s1 := Bootstrapped(lib, s, first.0, l);
    var s2 := Bootstrapped(lib, s1, second.0, l);
    assert s1.File? && s1.last == lib.trim(odd);
    assert [first, second][1..] == [second] && [second][1..] == [];
    assert Run(lib, s1, [second]) == Run(lib, s2, []) == s2;
  }
}
