/** internal/ops/ops.go's workspace sync: each entry an image ships replaces the
    installed one, by a recursive copy, and nothing else is touched. */
module TreeSync {
  import opened Sequences

  type Name = string
  type Path = seq<Name>

  datatype Node = Dir | Link(target: string) | File(content: seq<bv8>)

  type Tree = map<Path, Node>

  /** What becomes of one file-system call. One that fails may have done part of
      its work: removed or created only some paths, or written only `cut` bytes. */
  datatype Luck = Fine | Trouble(part: Path -> bool, cut: nat)

  ghost predicate SameAt(a: Tree, b: Tree, q: Path) {
    (q in a <==> q in b) && (q in a ==> a[q] == b[q])
  }

  predicate Above(q: Path, p: Path) {
    q <= p && q != p
  }

  /** Nothing changes but at and below `p`, and directories that appear above it. */
  ghost predicate OnlyBelow(a: Tree, b: Tree, p: Path) {
    forall q: Path :: !(p <= q) ==>
      SameAt(a, b, q) || (Above(q, p) && q !in a && q in b && b[q] == Dir)
  }

  ghost predicate Vacant(t: Tree, p: Path) {
    forall q :: q in t ==> !(p <= q)
  }

  /** `p` and everything above it are directories. */
  ghost predicate Standing(t: Tree, p: Path) {
    forall q :: q <= p ==> q in t && t[q] == Dir
  }

  class Disk {
    var tree: Tree
    const luck: nat -> Luck
    var clock: nat

    constructor (tree: Tree, luck: nat -> Luck)
      ensures this.tree == tree && this.luck == luck && clock == 0
    {
      this.tree, this.luck, clock := tree, luck, 0;
    }

    /** No call goes wrong but for what it finds. */
    ghost predicate Lucky() {
      forall t: nat :: luck(t).Fine?
    }

    /** A call that only reads. */
    method Look() returns (ok: bool)
      modifies this`clock
      ensures clock == old(clock) + 1 && ok == luck(old(clock)).Fine?
    {
      ok := luck(clock).Fine?;
      clock := clock + 1;
    }

    method RemoveAll(p: Path) returns (ok: bool)
      modifies this
      ensures clock == old(clock) + 1
      ensures OnlyBelow(old(tree), tree, p)
      ensures ok ==> Vacant(tree, p)
      ensures luck(old(clock)).Fine? ==> ok
    {
      var l := luck(clock);
      clock := clock + 1;
      ok := l.Fine?;
      if ok {
        tree := map q | q in tree && !(p <= q) :: tree[q];
      } else {
        tree := map q | q in tree && (!(p <= q) || l.part(q)) :: tree[q];
      }
    }

    /** Fails when something on the way is not a directory. */
    method MkdirAll(p: Path) returns (ok: bool)
      modifies this
      ensures clock == old(clock) + 1
      ensures OnlyBelow(old(tree), tree, p)
      ensures forall q :: p <= q && q != p ==> SameAt(old(tree), tree, q)
      ensures ok ==> Standing(tree, p)
      ensures Lucky() && (forall q :: q <= p && q in old(tree) ==> old(tree)[q] == Dir) ==> ok
    {
      var l := luck(clock);
      clock := clock + 1;
      if i :| 0 <= i <= |p| && p[..i] in tree && tree[p[..i]] != Dir {
        return false;
      }
      ok := l.Fine?;
      ghost var before := tree;
      var missing := set i | 0 <= i <= |p| && p[..i] !in tree && (ok || l.part(p[..i])) :: p[..i];
      tree := tree + map q | q in missing :: Dir;
      forall q | q <= p && ok ensures q in tree && tree[q] == Dir {
        assert q == p[..|q|];
      }
    }

    method Symlink(target: string, p: Path) returns (ok: bool)
      requires p != []
      modifies this
      ensures clock == old(clock) + 1
      ensures tree == if ok then old(tree)[p := Link(target)] else old(tree)
      ensures forall q :: q != p ==> SameAt(old(tree), tree, q)
      ensures ok ==> p !in old(tree)
      ensures Lucky() && p !in old(tree) && Standing(old(tree), Parent(p)) ==> ok
    {
      var l := luck(clock);
      clock := clock + 1;
      ok := l.Fine? && p !in tree && Parent(p) in tree && tree[Parent(p)] == Dir;
      if ok {
        tree := tree[p := Link(target)];
      }
    }

    /** Create or truncate, then write. */
    method WriteFile(p: Path, content: seq<bv8>) returns (ok: bool)
      requires p != []
      modifies this
      ensures clock == old(clock) + 1
      ensures forall q :: q != p ==> SameAt(old(tree), tree, q)
      ensures ok ==> tree == old(tree)[p := File(content)]
      ensures Lucky() && p !in old(tree) && Standing(old(tree), Parent(p)) ==> ok
    {
      var l := luck(clock);
      clock := clock + 1;
      if Parent(p) !in tree || tree[Parent(p)] != Dir || (p in tree && !tree[p].File?) {
        return false;
      }
      ok := l.Fine?;
      if ok {
        tree := tree[p := File(content)];
      } else if l.part(p) {
        tree := tree[p := File(if l.cut < |content| then content[..l.cut] else content)];
      }
    }
  }

  function Parent(p: Path): Path
    requires p != []
  {
    p[..|p| - 1]
  }

  /** Every path below `p` hangs together: what it goes through are directories. */
  ghost predicate Rooted(t: Tree, p: Path) {
    forall q, i :: q in t && p <= q && |p| <= i < |q| ==> q[..i] in t && t[q[..i]] == Dir
  }

  function Below(t: Tree, p: Path): set<Path> {
    set q | q in t && p <= q
  }

  /** The same entries, kinds, contents and link targets below `a` as below `b`. */
  ghost predicate SameSubtree(t: Tree, a: Path, b: Path) {
    forall rel: Path :: (a + rel in t <==> b + rel in t) && (a + rel in t ==> t[a + rel] == t[b + rel])
  }

  predicate Apart(a: Path, b: Path) {
    !(a <= b) && !(b <= a)
  }

  // ---- frames ----

  lemma Untouched(a: Tree, b: Tree, p: Path, q: Path)
    requires OnlyBelow(a, b, p) && Apart(q, p)
    ensures forall rel: Path :: SameAt(a, b, q + rel)
  {
    forall rel: Path ensures SameAt(a, b, q + rel) {
      if p <= q + rel {
        PrefixesCompare(p, q, p, q + rel);
      }
      if Above(q + rel, p) {
        PrefixesCompare(q, p, q + rel, p);
      }
    }
  }

  lemma OnlyBelowTwice(a: Tree, b: Tree, c: Tree, p: Path)
    requires OnlyBelow(a, b, p) && OnlyBelow(b, c, p)
    ensures OnlyBelow(a, c, p)
  {
    forall q: Path | !(p <= q)
      ensures SameAt(a, c, q) || (Above(q, p) && q !in a && q in c && c[q] == Dir)
    {
      assert SameAt(a, b, q) || (Above(q, p) && q !in a && q in b && b[q] == Dir);
      assert SameAt(b, c, q) || (Above(q, p) && q !in b && q in c && c[q] == Dir);
    }
  }

  lemma AboveChild(q: Path, p: Path, n: Name)
    requires Above(q, p + [n])
    ensures q <= p
  {
    assert q == (p + [n])[..|q|];
    assert p == (p + [n])[..|p|];
  }

  lemma AtIsBelow(a: Tree, b: Tree, p: Path)
    requires forall q :: q != p ==> SameAt(a, b, q)
    ensures OnlyBelow(a, b, p)
  {
  }

  /** What stays below a child of an existing directory stays below the directory,
      and leaves the directory itself as it is. */
  lemma ChildFrame(a: Tree, b: Tree, dst: Path, n: Name)
    requires OnlyBelow(a, b, dst + [n]) && dst in a
    ensures OnlyBelow(a, b, dst) && SameAt(a, b, dst)
  {
    forall q: Path | !(dst <= q)
      ensures SameAt(a, b, q) || (Above(q, dst) && q !in a && q in b && b[q] == Dir)
    {
      assert !(dst + [n] <= q);
      if Above(q, dst + [n]) {
        AboveChild(q, dst, n);
      }
    }
  }

  lemma SubtreeKept(a: Tree, b: Tree, p: Path, x: Path, y: Path)
    requires OnlyBelow(a, b, p) && Apart(x, p) && Apart(y, p) && SameSubtree(a, x, y)
    ensures SameSubtree(b, x, y)
  {
    Untouched(a, b, p, x);
    Untouched(a, b, p, y);
    forall rel: Path ensures (x + rel in b <==> y + rel in b) && (x + rel in b ==> b[x + rel] == b[y + rel]) {
      assert SameAt(a, b, x + rel) && SameAt(a, b, y + rel);
    }
  }

  lemma SiblingsApart(p: Path, m: Name, n: Name)
    requires m != n
    ensures Apart(p + [m], p + [n])
  {
    assert (p + [m])[|p|] != (p + [n])[|p|];
  }

  lemma ChildApart(p: Path, q: Path, m: Name, n: Name)
    requires Apart(p, q)
    ensures Apart(p + [m], q + [n]) && Apart(p, q + [n]) && Apart(p + [m], q)
  {
    if p + [m] <= q + [n] {
      PrefixesCompare(p, q, p + [m], q + [n]);
    }
    if p <= q + [n] {
      PrefixesCompare(p, q, p, q + [n]);
    }
    if p + [m] <= q {
      PrefixesCompare(p, q, p + [m], q);
    }
    if q + [n] <= p + [m] {
      PrefixesCompare(q, p, q + [n], p + [m]);
    }
    if q + [n] <= p {
      PrefixesCompare(q, p, q + [n], p);
    }
    if q <= p + [m] {
      PrefixesCompare(q, p, q, p + [m]);
    }
  }

  lemma PrefixesCompare(p: Path, q: Path, x: Path, y: Path)
    requires p <= x <= y && q <= y
    ensures p <= q || q <= p
  {
    assert p == y[..|p|] && q == y[..|q|];
    if |p| <= |q| {
      assert q[..|p|] == p;
    } else {
      assert p[..|q|] == q;
    }
  }

  // ---- the copy ----

  lemma BelowShrinks(t: Tree, src: Path, n: Name)
    requires src in t
    ensures |Below(t, src + [n])| < |Below(t, src)|
  {
    forall q | q in Below(t, src + [n]) ensures q in Below(t, src) - {src} {
      assert src == (src + [n])[..|src|] == q[..|src|];
    }
    SubsetSmaller(Below(t, src + [n]), Below(t, src) - {src});
  }

  lemma SubsetSmaller<T>(a: set<T>, b: set<T>)
    requires a <= b
    ensures |a| <= |b|
  {
    if a != {} {
      var x :| x in a;
      SubsetSmaller(a - {x}, b - {x});
    }
  }

  lemma BelowKept(a: Tree, b: Tree, p: Path, src: Path)
    requires OnlyBelow(a, b, p) && Apart(src, p)
    ensures Below(a, src) == Below(b, src) && SameAt(a, b, src)
    ensures forall names :: OnlyChildren(a, src, names) ==> OnlyChildren(b, src, names)
    ensures Rooted(a, src) ==> Rooted(b, src)
  {
    Untouched(a, b, p, src);
    forall q: Path | src <= q ensures SameAt(a, b, q) {
      assert q == src + q[|src|..];
    }
    assert SameAt(a, b, src);
    if Rooted(a, src) {
      forall q, i | q in b && src <= q && |src| <= i < |q| ensures q[..i] in b && b[q[..i]] == Dir {
        assert src <= q[..i];
        assert SameAt(a, b, q) && SameAt(a, b, q[..i]);
      }
    }
  }

  lemma RootedChild(t: Tree, src: Path, n: Name)
    requires Rooted(t, src)
    ensures Rooted(t, src + [n])
  {
    forall q, i | q in t && src + [n] <= q && |src + [n]| <= i < |q| ensures q[..i] in t && t[q[..i]] == Dir {
      assert src == (src + [n])[..|src|] == q[..|src|];
    }
  }

  /** ReadDir: the names of the entries, each once. */
  method ReadDir(t: Tree, src: Path) returns (names: seq<Name>)
    ensures forall n :: n in names <==> src + [n] in t
    ensures NoRepeats(names)
  {
    var left := set q | q in t && src <= q && |q| == |src| + 1 :: q[|src|];
    ghost var all := left;
    names := [];
    while left != {}
      invariant forall n :: n in names <==> n in all && n !in left
      invariant left <= all
      invariant NoRepeats(names)
    {
      var n :| n in left;
      left, names := left - {n}, names + [n];
    }
    forall n ensures n in all <==> src + [n] in t {
      if src + [n] in t {
        assert src <= src + [n] && (src + [n])[|src|] == n;
      }
      if n in all {
        var q :| q in t && src <= q && |q| == |src| + 1 && q[|src|] == n;
        assert q == src + [n];
      }
    }
  }

  /** Below `p` there is nothing but `p` itself and what is below these children of it. */
  ghost predicate OnlyChildren(t: Tree, p: Path, names: seq<Name>) {
    forall q :: q in t && p <= q && q != p ==> q[|p|] in names
  }

  lemma ReadDirIsAll(t: Tree, src: Path, names: seq<Name>)
    requires Rooted(t, src) && forall n :: n in names <==> src + [n] in t
    ensures OnlyChildren(t, src, names)
  {
    forall q | q in t && src <= q && q != src ensures q[|src|] in names {
      var child := q[..|src| + 1];
      assert child == src + [q[|src|]];
      if child != q {
        assert child in t;
      }
    }
  }

  lemma Assembled(t: Tree, src: Path, dst: Path, names: seq<Name>)
    requires src in t && dst in t && t[src] == t[dst]
    requires OnlyChildren(t, src, names) && OnlyChildren(t, dst, names)
    requires forall n :: n in names ==> SameSubtree(t, src + [n], dst + [n])
    ensures SameSubtree(t, src, dst)
  {
    forall rel: Path ensures (src + rel in t <==> dst + rel in t) && (src + rel in t ==> t[src + rel] == t[dst + rel]) {
      if rel == [] {
        assert src + rel == src && dst + rel == dst;
      } else if rel[0] in names {
        assert src + rel == src + [rel[0]] + rel[1..];
        assert dst + rel == dst + [rel[0]] + rel[1..];
      } else {
        assert src <= src + rel && (src + rel)[|src|] == rel[0];
        assert dst <= dst + rel && (dst + rel)[|dst|] == rel[0];
      }
    }
  }

  lemma LeafCopied(t: Tree, src: Path, dst: Path)
    requires Rooted(t, src) && src in t && t[src] != Dir && dst in t && t[dst] == t[src]
    requires forall q :: q in t && dst <= q ==> q == dst
    ensures SameSubtree(t, src, dst)
  {
    forall rel: Path ensures (src + rel in t <==> dst + rel in t) && (src + rel in t ==> t[src + rel] == t[dst + rel]) {
      if rel == [] {
        assert src + rel == src && dst + rel == dst;
      } else {
        assert src <= src + rel && (src + rel)[..|src|] == src;
        assert dst <= dst + rel && dst + rel != dst;
      }
    }
  }

  /** Where the loop over a directory's entries stands: it has done the first `i`. */
  ghost predicate Copying(before: Tree, now: Tree, src: Path, dst: Path, names: seq<Name>, i: nat)
    requires i <= |names|
  {
    && OnlyBelow(before, now, dst)
    && dst in now && now[dst] == Dir
    && OnlyChildren(now, dst, names[..i])
    && (forall j :: 0 <= j < i ==> SameSubtree(now, src + [names[j]], dst + [names[j]]))
  }

  lemma WayClear(t: Tree, dst: Path)
    requires dst != [] && Vacant(t, dst)
    ensures Standing(t, Parent(dst)) ==> forall q :: q <= dst && q in t ==> t[q] == Dir
  {
    if Standing(t, Parent(dst)) {
      forall q | q <= dst && q in t ensures t[q] == Dir {
        assert q <= Parent(dst);
      }
    }
  }

  lemma StandingKept(a: Tree, b: Tree, dst: Path, n: Name)
    requires Standing(a, dst) && OnlyBelow(a, b, dst + [n])
    ensures Standing(b, dst)
  {
    forall q | q <= dst ensures q in b && b[q] == Dir {
      assert !(dst + [n] <= q) && q in a;
      assert SameAt(a, b, q);
    }
  }

  lemma StillListed(a: Tree, b: Tree, src: Path, names: seq<Name>)
    requires Below(a, src) == Below(b, src) && forall n :: n in names ==> src + [n] in a
    ensures forall n :: n in names ==> src + [n] in b
  {
    forall n | n in names ensures src + [n] in b {
      assert src + [n] in Below(a, src);
    }
  }

  lemma MadeEmpty(before: Tree, now: Tree, dst: Path)
    requires Vacant(before, dst)
    requires forall q :: dst <= q && q != dst ==> SameAt(before, now, q)
    ensures OnlyChildren(now, dst, [])
  {
    forall q | dst <= q && q != dst ensures q !in now {
      assert SameAt(before, now, q);
    }
  }

  lemma CopiedOneMore(before: Tree, now: Tree, next: Tree, src: Path, dst: Path, names: seq<Name>, i: nat)
    requires i < |names| && Copying(before, now, src, dst, names, i) && Apart(src, dst)
    requires NoRepeats(names)
    requires OnlyBelow(now, next, dst + [names[i]])
    ensures OnlyBelow(before, next, dst)
    ensures SameSubtree(next, src + [names[i]], dst + [names[i]]) ==> Copying(before, next, src, dst, names, i + 1)
  {
    var n := names[i];
    ChildFrame(now, next, dst, n);
    OnlyBelowTwice(before, now, next, dst);
    forall j | 0 <= j < i ensures SameSubtree(next, src + [names[j]], dst + [names[j]]) {
      SiblingsApart(dst, names[j], n);
      ChildApart(src, dst, names[j], n);
      SubtreeKept(now, next, dst + [n], src + [names[j]], dst + [names[j]]);
    }
    forall q | q in next && dst <= q && q != dst ensures q[|dst|] in names[..i + 1] {
      if !(dst + [n] <= q) {
        if Above(q, dst + [n]) {
          AboveChild(q, dst, n);
        }
        assert SameAt(now, next, q);
      } else {
        assert q[|dst|] == n;
      }
    }
  }

  /** A directory with these entries. */
  ghost predicate Listed(t: Tree, src: Path, names: seq<Name>) {
    src in t && t[src] == Dir && OnlyChildren(t, src, names) && forall n :: n in names ==> src + [n] in t
  }

  lemma ReadyToCopy(before: Tree, now: Tree, src: Path, dst: Path, names: seq<Name>, i: nat)
    requires i < |names| && NoRepeats(names) && Apart(src, dst) && Rooted(before, src) && Listed(now, src, names)
    requires Copying(before, now, src, dst, names, i)
    ensures Apart(src + [names[i]], dst + [names[i]]) && Rooted(now, src + [names[i]]) && Vacant(now, dst + [names[i]])
    ensures |Below(now, src + [names[i]])| < |Below(before, src)|
  {
    BelowKept(before, now, dst, src);
    RootedChild(now, src, names[i]);
    ChildApart(src, dst, names[i], names[i]);
    BelowShrinks(now, src, names[i]);
    forall q | q in now ensures !(dst + [names[i]] <= q) {
      if dst <= q && q != dst {
        assert q[|dst|] in names[..i];
        assert (dst + [names[i]])[|dst|] == names[i];
      }
    }
  }

  lemma CopyGoesOn(before: Tree, now: Tree, next: Tree, src: Path, dst: Path, names: seq<Name>, i: nat)
    requires i < |names| && NoRepeats(names) && Apart(src, dst) && Listed(now, src, names) && Standing(now, dst)
    requires Copying(before, now, src, dst, names, i) && OnlyBelow(now, next, dst + [names[i]])
    ensures OnlyBelow(before, next, dst) && Listed(next, src, names) && Standing(next, dst)
    ensures SameSubtree(next, src + [names[i]], dst + [names[i]]) ==> Copying(before, next, src, dst, names, i + 1)
  {
    CopiedOneMore(before, now, next, src, dst, names, i);
    StandingKept(now, next, dst, names[i]);
    ChildApart(src, dst, names[i], names[i]);
    BelowKept(now, next, dst + [names[i]], src);
    StillListed(now, next, src, names);
  }

  /** copyPath: an entry is copied with everything below it, links not followed.
      `dst` is vacant, as the caller has just removed it. */
  method CopyPath(k: Disk, src: Path, dst: Path) returns (ok: bool)
    requires dst != [] && Apart(src, dst) && Vacant(k.tree, dst) && Rooted(k.tree, src)
    modifies k
    ensures OnlyBelow(old(k.tree), k.tree, dst)
    ensures ok ==> src in k.tree && SameSubtree(k.tree, src, dst)
    ensures k.Lucky() && src in old(k.tree) && Standing(old(k.tree), Parent(dst)) ==> ok
    decreases |Below(k.tree, src)|
  {
    var before := k.tree;
    ok := k.Look();
    if !ok || src !in k.tree {
      return false;
    }
    match k.tree[src] {
      case Dir =>
        ok := CopyDirectory(k, src, dst);
      case Link(target) =>
        ok := k.Look();
        if ok {
          ok := k.Symlink(target, dst);
          AtIsBelow(before, k.tree, dst);
          if ok {
            BelowKept(before, k.tree, dst, src);
            LeafCopied(k.tree, src, dst);
          }
        }
      case File(content) =>
        ok := k.Look();
        if ok {
          assert k.tree == before;
          ok := k.WriteFile(dst, content);
          AtIsBelow(before, k.tree, dst);
          if ok {
            BelowKept(before, k.tree, dst, src);
            LeafCopied(k.tree, src, dst);
          }
        }
    }
  }

  method CopyDirectory(k: Disk, src: Path, dst: Path) returns (ok: bool)
    requires dst != [] && Apart(src, dst) && Vacant(k.tree, dst) && Rooted(k.tree, src)
    requires src in k.tree && k.tree[src] == Dir
    modifies k
    ensures OnlyBelow(old(k.tree), k.tree, dst)
    ensures ok ==> src in k.tree && SameSubtree(k.tree, src, dst)
    ensures k.Lucky() && src in old(k.tree) && Standing(old(k.tree), Parent(dst)) ==> ok
    decreases |Below(k.tree, src)|, 0
  {
    ghost var before := k.tree;
    WayClear(before, dst);
    ok := k.MkdirAll(dst);
    if !ok {
      return false;
    }
    BelowKept(before, k.tree, dst, src);
    MadeEmpty(before, k.tree, dst);
    ok := k.Look();
    if !ok {
      return false;
    }
    var names := ReadDir(k.tree, src);
    ReadDirIsAll(k.tree, src, names);
    for i := 0 to |names|
      invariant Copying(before, k.tree, src, dst, names, i)
      invariant Listed(k.tree, src, names) && Standing(k.tree, dst)
    {
      ghost var now := k.tree;
      ReadyToCopy(before, now, src, dst, names, i);
      ok := CopyPath(k, src + [names[i]], dst + [names[i]]);
      CopyGoesOn(before, now, k.tree, src, dst, names, i);
      if !ok {
        return false;
      }
    }
    assert names[..|names|] == names;
    Assembled(k.tree, src, dst, names);
    ok := true;
  }

  // ---- the sync ----

  /** Names that belong to the running workspace, whatever an image ships. */
  const PROTECTED: set<Name> := {".aw-workspace", "apps", ".claude", ".claude.json", ".codex", ".copilot", ".cursor"}

  /** What of an image is installed: every name it ships but the protected ones. */
  ghost predicate Installs(t: Tree, src: Path, n: Name) {
    src + [n] in t && n !in PROTECTED
  }

  lemma InstallsExactly(t: Tree, src: Path, n: Name)
    ensures Installs(t, src, n) <==>
      && src + [n] in t
      && n != ".aw-workspace" && n != "apps" && n != ".claude" && n != ".claude.json"
      && n != ".codex" && n != ".copilot" && n != ".cursor"
  {
  }

  /** `q` is no installed entry and nothing inside one. */
  ghost predicate Spared(t: Tree, src: Path, dst: Path, q: Path) {
    forall n :: Installs(t, src, n) ==> !(dst + [n] <= q)
  }

  /** Nothing outside the installed entries changes, but for directories that
      appear where the way to them was missing. */
  ghost predicate SparesTheRest(a: Tree, b: Tree, src: Path, dst: Path) {
    forall q :: Spared(a, src, dst, q) ==>
      SameAt(a, b, q) || (q <= dst && q !in a && q in b && b[q] == Dir)
  }

  /** The paths of the installed entries, in the order the directory was read. */
  function Targets(dst: Path, names: seq<Name>): (written: seq<Path>)
    ensures forall p :: p in written <==> exists n :: n in names && n !in PROTECTED && p == dst + [n]
  {
    if names == [] then []
    else
      var rest := Targets(dst, names[..|names| - 1]);
      var n := names[|names| - 1];
      assert names == names[..|names| - 1] + [n];
      if n in PROTECTED then rest else rest + [dst + [n]]
  }

  lemma SparesTwice(a: Tree, b: Tree, c: Tree, src: Path, dst: Path, n: Name)
    requires SparesTheRest(a, b, src, dst) && OnlyBelow(b, c, dst + [n]) && Installs(a, src, n)
    ensures SparesTheRest(a, c, src, dst)
  {
    forall q | Spared(a, src, dst, q)
      ensures SameAt(a, c, q) || (q <= dst && q !in a && q in c && c[q] == Dir)
    {
      assert !(dst + [n] <= q);
      if Above(q, dst + [n]) {
        AboveChild(q, dst, n);
      }
    }
  }

  lemma SourceSpared(a: Tree, b: Tree, src: Path, dst: Path)
    requires Apart(src, dst) && SparesTheRest(a, b, src, dst)
    ensures forall q :: src <= q ==> SameAt(a, b, q)
  {
    forall q | src <= q ensures SameAt(a, b, q) {
      forall n | Installs(a, src, n) ensures !(dst + [n] <= q) {
        ChildApart(src, dst, n, n);
        if dst + [n] <= q {
          PrefixesCompare(src, dst + [n], src, q);
        }
      }
      assert q <= dst ==> src <= dst;
    }
  }

  /** Everything under a protected name, or under one the image does not ship, is
      as it was. */
  lemma ProtectedUntouched(a: Tree, b: Tree, src: Path, dst: Path, n: Name, rel: Path)
    requires SparesTheRest(a, b, src, dst) && !Installs(a, src, n)
    ensures SameAt(a, b, dst + [n] + rel)
  {
    forall m | Installs(a, src, m) ensures !(dst + [m] <= dst + [n] + rel) {
      assert (dst + [m])[|dst|] == m && (dst + [n] + rel)[|dst|] == n;
    }
    assert Spared(a, src, dst, dst + [n] + rel);
  }

  /** The state of the sync when it has dealt with the first `i` names. */
  ghost predicate Synced(a: Tree, b: Tree, src: Path, dst: Path, names: seq<Name>, i: nat)
    requires i <= |names|
  {
    && SparesTheRest(a, b, src, dst)
    && (forall j :: 0 <= j < i && names[j] !in PROTECTED ==> SameSubtree(b, src + [names[j]], dst + [names[j]]))
  }

  lemma SyncedOneMore(a: Tree, b: Tree, c: Tree, src: Path, dst: Path, names: seq<Name>, i: nat)
    requires i < |names| && Synced(a, b, src, dst, names, i) && Apart(src, dst)
    requires NoRepeats(names)
    requires Installs(a, src, names[i]) && OnlyBelow(b, c, dst + [names[i]])
    ensures SparesTheRest(a, c, src, dst)
    ensures SameSubtree(c, src + [names[i]], dst + [names[i]]) ==> Synced(a, c, src, dst, names, i + 1)
  {
    var n := names[i];
    SparesTwice(a, b, c, src, dst, n);
    forall j | 0 <= j < i && names[j] !in PROTECTED ensures SameSubtree(c, src + [names[j]], dst + [names[j]]) {
      SiblingsApart(dst, names[j], n);
      ChildApart(src, dst, names[j], n);
      SubtreeKept(b, c, dst + [n], src + [names[j]], dst + [names[j]]);
    }
  }

  lemma RootedKept(a: Tree, b: Tree, src: Path)
    requires Rooted(a, src) && forall q :: src <= q ==> SameAt(a, b, q)
    ensures Rooted(b, src)
  {
    forall q, i | q in b && src <= q && |src| <= i < |q| ensures q[..i] in b && b[q[..i]] == Dir {
      assert src <= q[..i];
      assert SameAt(a, b, q) && SameAt(a, b, q[..i]);
    }
  }

  /** Replace one entry: remove what is there, copy the fresh one in. */
  method ReplaceEntry(k: Disk, src: Path, dst: Path, n: Name) returns (ok: bool)
    requires Apart(src, dst) && Rooted(k.tree, src)
    modifies k
    ensures OnlyBelow(old(k.tree), k.tree, dst + [n])
    ensures ok ==> SameSubtree(k.tree, src + [n], dst + [n])
    ensures k.Lucky() && src + [n] in old(k.tree) && Standing(old(k.tree), dst) ==> ok
  {
    ghost var before := k.tree;
    RootedChild(before, src, n);
    ChildApart(src, dst, n, n);
    ok := k.RemoveAll(dst + [n]);
    if ok {
      ghost var cleared := k.tree;
      BelowKept(before, cleared, dst + [n], src + [n]);
      if Standing(before, dst) {
        StandingKept(before, cleared, dst, n);
      }
      ok := CopyPath(k, src + [n], dst + [n]);
      OnlyBelowTwice(before, cleared, k.tree, dst + [n]);
    }
  }

  /** The names in a directory, each once. */
  ghost predicate IsListing(t: Tree, src: Path, names: seq<Name>) {
    NoRepeats(names) && forall n :: n in names <==> src + [n] in t
  }

  /** One turn of the loop: a protected name is skipped, any other is replaced. */
  method SyncName(k: Disk, src: Path, dst: Path, names: seq<Name>, i: nat, written: seq<Path>, ghost before: Tree)
    returns (ok: bool, longer: seq<Path>)
    requires i < |names| && Apart(src, dst) && Rooted(before, src) && IsListing(before, src, names)
    requires Synced(before, k.tree, src, dst, names, i) && written == Targets(dst, names[..i])
    modifies k
    ensures SparesTheRest(before, k.tree, src, dst)
    ensures ok ==> Synced(before, k.tree, src, dst, names, i + 1) && longer == Targets(dst, names[..i + 1])
    ensures Standing(old(k.tree), dst) ==> Standing(k.tree, dst)
    ensures k.Lucky() && Standing(old(k.tree), dst) ==> ok
  {
    ghost var now := k.tree;
    SourceSpared(before, now, src, dst);
    RootedKept(before, now, src);
    TargetsOneMore(dst, names, i);
    ok, longer := true, written;
    if names[i] !in PROTECTED {
      assert SameAt(before, now, src + [names[i]]);
      ok := ReplaceEntry(k, src, dst, names[i]);
      SyncedOneMore(before, now, k.tree, src, dst, names, i);
      if Standing(now, dst) {
        StandingKept(now, k.tree, dst, names[i]);
      }
      longer := written + [dst + [names[i]]];
    }
  }

  /** syncWorkspaceSource. However it ends, only the entries it installs are touched;
      when it succeeds each of them is what the image ships, and the list returned
      names each of them once. It does succeed when no call goes wrong and both
      directories are there. */
  method SyncWorkspaceSource(k: Disk, src: Path, dst: Path) returns (ok: bool, written: seq<Path>)
    requires Apart(src, dst) && Rooted(k.tree, src)
    modifies k
    ensures SparesTheRest(old(k.tree), k.tree, src, dst)
    ensures forall q :: src <= q ==> SameAt(old(k.tree), k.tree, q)
    ensures ok ==> forall n :: Installs(old(k.tree), src, n) ==> SameSubtree(k.tree, src + [n], dst + [n])
    ensures ok ==> forall p :: p in written <==> exists n :: Installs(old(k.tree), src, n) && p == dst + [n]
    ensures NoRepeats(written)
    ensures !ok ==> written == []
    ensures k.Lucky() && src in old(k.tree) && old(k.tree)[src] == Dir && Standing(old(k.tree), dst) ==> ok
  {
    ghost var before := k.tree;
    SourceSpared(before, before, src, dst);
    ok := k.Look();
    if !ok || src !in k.tree || k.tree[src] != Dir {
      return false, [];
    }
    var names := ReadDir(k.tree, src);
    written := [];
    for i := 0 to |names|
      invariant Synced(before, k.tree, src, dst, names, i)
      invariant written == Targets(dst, names[..i])
      invariant Standing(before, dst) ==> Standing(k.tree, dst)
    {
      ok, written := SyncName(k, src, dst, names, i, written, before);
      if !ok {
        SourceSpared(before, k.tree, src, dst);
        return false, [];
      }
    }
    assert names[..|names|] == names;
    TargetsDistinct(dst, names);
    SourceSpared(before, k.tree, src, dst);
    ok := true;
  }

  lemma TargetsOneMore(dst: Path, names: seq<Name>, i: nat)
    requires i < |names|
    ensures Targets(dst, names[..i + 1]) ==
            Targets(dst, names[..i]) + if names[i] in PROTECTED then [] else [dst + [names[i]]]
  {
    assert names[..i + 1][..i] == names[..i];
  }

  lemma {:induction false} TargetsDistinct(dst: Path, names: seq<Name>)
    requires NoRepeats(names)
    ensures NoRepeats(Targets(dst, names))
  {
    if names == [] {
    } else {
      var front, n := names[..|names| - 1], names[|names| - 1];
      TargetsDistinct(dst, front);
      forall m | m in front ensures dst + [m] != dst + [n] {
        assert (dst + [n])[|dst|] == n && (dst + [m])[|dst|] == m;
      }
      assert dst + [n] !in Targets(dst, front);
    }
  }
}
