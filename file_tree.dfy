/** `createTree`, the `isDir` rule and the sibling order of the file browser
    (src/components/FileTreeView.jsx). The nested `{ _files, _meta }` objects
    form an arena: node `k` has the child map `files[k]` (name to node) and the
    entry `meta[k]`, `None` where `_meta` was never assigned. Node 0 is the
    top-level object `tree` itself, which only ever serves as a child map. */
module FileTreeView {
  import opened Wrappers
  import opened Strings
  import opened Repo

  datatype TreeArena = TreeArena(files: seq<map<string, nat>>, meta: seq<Option<Entry>>)

  /** `const tree = {}`. */
  const Empty: TreeArena := TreeArena([map[]], [None])

  /** One entry per node, and every child created after its parent. */
  ghost predicate Valid(t: TreeArena)
  {
    && |t.files| == |t.meta| >= 1
    && (forall k, x :: 0 <= k < |t.files| && x in t.files[k] ==> k < t.files[k][x] < |t.files|)
  }

  /** `r` is `t` with nodes appended and children added, none removed or
      redirected; entries may have been assigned. */
  ghost predicate Grows(t: TreeArena, r: TreeArena)
  {
    && |t.files| <= |r.files| == |r.meta|
    && (forall k, x :: 0 <= k < |t.files| && x in t.files[k] ==> x in r.files[k] && r.files[k][x] == t.files[k][x])
  }

  /** `if (!acc[part]) acc[part] = { _files: {} }`. */
  function Ensure(t: TreeArena, node: nat, part: string): (r: TreeArena)
    requires Valid(t) && node < |t.files|
    ensures Valid(r) && Grows(t, r) && part in r.files[node]
    ensures part in t.files[node] ==> r == t
    ensures part !in t.files[node] ==>
      && |r.files| == |t.files| + 1 && r.files[node][part] == |t.files|
      && r.files[|t.files|] == map[] && r.meta == t.meta + [None]
      && (forall k :: 0 <= k < |t.files| && k != node ==> r.files[k] == t.files[k])
  {
    if part in t.files[node] then t
    else
      var m: map<string, nat> := t.files[node][part := |t.files|];
      TreeArena(t.files[node := m] + [map[]], t.meta + [None])
  }

  /** The node reached from `node` by following the names `segs`, if any. */
  function Walk(t: TreeArena, node: nat, segs: seq<string>): (r: Option<nat>)
    requires Valid(t) && node < |t.files|
    ensures r.Some? ==> node <= r.value < |t.files|
    ensures r.Some? && segs != [] ==> node < r.value
    decreases |segs|
  {
    if segs == [] then Some(node)
    else if segs[0] in t.files[node] then Walk(t, t.files[node][segs[0]], segs[1..])
    else None
  }

  /** One `reduce` over the parts of a path from `node`: every part's node is
      created when missing and the last one's `_meta` is set to the entry.
      Afterwards the path leads to a node holding `f`; every other node keeps
      its entry, and the other nodes created on the way have none. */
  function Place(t: TreeArena, node: nat, segs: seq<string>, f: Entry): (r: TreeArena)
    requires Valid(t) && node < |t.files| && segs != []
    ensures Valid(r) && Grows(t, r)
    ensures Walk(r, node, segs).Some? && r.meta[Walk(r, node, segs).value] == Some(f)
    ensures forall j :: 0 <= j < |r.meta| && Some(j) != Walk(r, node, segs) ==>
      r.meta[j] == if j < |t.meta| then t.meta[j] else None
    decreases |segs|
  {
    var t1 := Ensure(t, node, segs[0]);
    var c := t1.files[node][segs[0]];
    if |segs| == 1 then
      var r := t1.(meta := t1.meta[c := Some(f)]);
      assert segs[1..] == [] && Walk(r, node, segs) == Some(c);
      r
    else
      var r := Place(t1, c, segs[1..], f);
      assert Walk(r, node, segs) == Walk(r, c, segs[1..]);
      GrowsTransitive(t, t1, r);
      r
  }

  /** One step of Place, as the builder takes it. */
  lemma PlaceUnfold(t: TreeArena, node: nat, segs: seq<string>, f: Entry)
    requires Valid(t) && node < |t.files| && segs != []
    ensures var t1 := Ensure(t, node, segs[0]);
      var c := t1.files[node][segs[0]];
      Place(t, node, segs, f) == if |segs| == 1 then t1.(meta := t1.meta[c := Some(f)]) else Place(t1, c, segs[1..], f)
  {
  }

  /** Growing twice is growing. */
  lemma GrowsTransitive(t: TreeArena, t1: TreeArena, r: TreeArena)
    requires Grows(t, t1) && Grows(t1, r)
    ensures Grows(t, r)
  {
  }

  /** The tree of a list of entries, each placed from the top in list order. */
  function Create(entries: seq<Entry>): (t: TreeArena)
    ensures Valid(t)
    decreases |entries|
  {
    if entries == [] then Empty
    else
      var last := entries[|entries| - 1];
      Place(Create(entries[..|entries| - 1]), 0, Split(last.path, '/'), last)
  }

  /** `createTree(fileList)`: the empty tree for a missing list. */
  function CreateTree(fileList: Option<seq<Entry>>): (t: TreeArena)
    ensures fileList.None? ==> t == Empty
  {
    if fileList.None? then Empty else Create(fileList.value)
  }

  /** The entry of the last element of `entries` whose path leads to node `k`. */
  ghost function LastAt(t: TreeArena, entries: seq<Entry>, k: nat): Option<Entry>
    requires Valid(t)
    decreases |entries|
  {
    if entries == [] then None
    else
      var last := entries[|entries| - 1];
      if Walk(t, 0, Split(last.path, '/')) == Some(k) then Some(last)
      else LastAt(t, entries[..|entries| - 1], k)
  }

  /** A walk that succeeds keeps its target in every tree grown from it. */
  lemma {:induction false} WalkStable(t: TreeArena, r: TreeArena, node: nat, segs: seq<string>)
    requires Valid(t) && Valid(r) && Grows(t, r) && node < |t.files|
    requires Walk(t, node, segs).Some?
    ensures Walk(r, node, segs) == Walk(t, node, segs)
    decreases |segs|
  {
    if segs != [] {
      WalkStable(t, r, t.files[node][segs[0]], segs[1..]);
    }
  }

  /** Every entry's path traces a chain of nodes from the top. */
  lemma {:induction false} CreateChains(entries: seq<Entry>, i: nat)
    requires i < |entries|
    ensures Walk(Create(entries), 0, Split(entries[i].path, '/')).Some?
    decreases |entries|
  {
    var init := entries[..|entries| - 1];
    if i < |entries| - 1 {
      assert init[i] == entries[i];
      CreateChains(init, i);
      WalkStable(Create(init), Create(entries), 0, Split(entries[i].path, '/'));
    }
  }

  /** When every entry's path already leads somewhere in `t`, the last entry
      leading to `k` is the same in any tree grown from `t`, and none leads to a
      node created after `t`. */
  lemma {:induction false} LastAtStable(t: TreeArena, r: TreeArena, entries: seq<Entry>, k: nat)
    requires Valid(t) && Valid(r) && Grows(t, r)
    requires forall i :: 0 <= i < |entries| ==> Walk(t, 0, Split(entries[i].path, '/')).Some?
    ensures LastAt(r, entries, k) == if k < |t.files| then LastAt(t, entries, k) else None
    decreases |entries|
  {
    if entries != [] {
      var init := entries[..|entries| - 1];
      var last := entries[|entries| - 1];
      WalkStable(t, r, 0, Split(last.path, '/'));
      assert forall i :: 0 <= i < |init| ==> init[i] == entries[i];
      LastAtStable(t, r, init, k);
    }
  }

  /** Last writer wins: the `_meta` of every node is the last entry whose path
      leads to it, and a node no entry's path ends at has no `_meta`. */
  lemma {:induction false} CreateMeta(entries: seq<Entry>, k: nat)
    requires k < |Create(entries).meta|
    ensures Create(entries).meta[k] == LastAt(Create(entries), entries, k)
    decreases |entries|
  {
    if entries != [] {
      var init := entries[..|entries| - 1];
      var last := entries[|entries| - 1];
      var t := Create(init);
      var r := Create(entries);
      var target := Walk(r, 0, Split(last.path, '/'));
      if target != Some(k) {
        forall i | 0 <= i < |init|
          ensures Walk(t, 0, Split(init[i].path, '/')).Some?
        {
          CreateChains(init, i);
        }
        LastAtStable(t, r, init, k);
        if k < |t.files| {
          CreateMeta(init, k);
        }
      }
    }
  }

  /** A node other than the top with no children: a file. */
  predicate IsLeaf(t: TreeArena, k: nat)
    requires k < |t.files|
  {
    0 < k && t.files[k] == map[]
  }

  /** Every leaf carries an entry, except possibly `open`, the node a walk is
      about to continue from. */
  ghost predicate LeavesCarryMeta(t: TreeArena, open: nat)
    requires |t.files| == |t.meta|
  {
    forall k :: 0 <= k < |t.files| && k != open && IsLeaf(t, k) ==> t.meta[k].Some?
  }

  /** Placing a path gives its starting node a child and leaves no leaf
      without an entry. */
  lemma {:induction false} PlaceLeaves(t: TreeArena, node: nat, segs: seq<string>, f: Entry)
    requires Valid(t) && node < |t.files| && segs != []
    requires LeavesCarryMeta(t, node)
    ensures LeavesCarryMeta(Place(t, node, segs, f), 0)
    decreases |segs|
  {
    var t1 := Ensure(t, node, segs[0]);
    var c := t1.files[node][segs[0]];
    if |segs| > 1 {
      PlaceLeaves(t1, c, segs[1..], f);
    }
  }

  /** A file item's button always has an entry to open: `isDir` is false
      exactly for leaves, and every leaf of a built tree has `_meta`. */
  lemma {:induction false} CreateLeavesCarryMeta(entries: seq<Entry>)
    ensures LeavesCarryMeta(Create(entries), 0)
    decreases |entries|
  {
    if entries != [] {
      var init := entries[..|entries| - 1];
      var last := entries[|entries| - 1];
      CreateLeavesCarryMeta(init);
      PlaceLeaves(Create(init), 0, Split(last.path, '/'), last);
    }
  }

  /** Placing a path that can already be followed creates no node. */
  lemma {:induction false} PlacePresent(t: TreeArena, node: nat, segs: seq<string>, f: Entry)
    requires Valid(t) && node < |t.files| && segs != []
    requires Walk(t, node, segs).Some?
    ensures Place(t, node, segs, f).files == t.files
    decreases |segs|
  {
    if |segs| > 1 {
      PlacePresent(t, t.files[node][segs[0]], segs[1..], f);
    }
  }

  /** `Object.keys(item._files).length > 0`: only the child map decides,
      `_meta` plays no part. */
  predicate IsDir(t: TreeArena, k: nat)
    requires k < |t.files|
  {
    |t.files[k]| > 0
  }

  /** A tree entry listed without entries below it becomes a node with an
      empty child map: `isDir` is false for it, and its item opens the entry
      like a file's. */
  lemma ChildlessDirectoryIsFile(f: Entry)
    requires f.kind == Tree && '/' !in f.path
    ensures Walk(Create([f]), 0, [f.path]) == Some(1)
    ensures !IsDir(Create([f]), 1) && Create([f]).meta[1] == Some(f)
  {
    assert Split(f.path, '/') == [f.path];
    assert [f][..0] == [];
  }

  /** Ordinal string order, standing in for `localeCompare`: `a` is a proper
      prefix of `b`, or has the smaller character where they first differ. */
  predicate LexLess(a: string, b: string)
    decreases |a|
  {
    if |a| == 0 then |b| > 0
    else if |b| == 0 then false
    else if a[0] == b[0] then LexLess(a[1..], b[1..])
    else a[0] < b[0]
  }

  lemma {:induction false} LexIrreflexive(a: string)
    ensures !LexLess(a, a)
    decreases |a|
  {
    if |a| > 0 {
      LexIrreflexive(a[1..]);
    }
  }

  lemma {:induction false} LexTransitive(a: string, b: string, c: string)
    requires LexLess(a, b) && LexLess(b, c)
    ensures LexLess(a, c)
    decreases |a|
  {
    if |a| > 0 && a[0] == b[0] && b[0] == c[0] {
      LexTransitive(a[1..], b[1..], c[1..]);
    }
  }

  lemma {:induction false} LexTotal(a: string, b: string)
    requires a != b
    ensures LexLess(a, b) || LexLess(b, a)
    decreases |a|
  {
    if |a| > 0 && |b| > 0 && a[0] == b[0] {
      assert a == [a[0]] + a[1..] && b == [b[0]] + b[1..];
      LexTotal(a[1..], b[1..]);
    }
  }

  /** The `FileTree` comparator as a strict order, `dirs` being the siblings
      that are directories: directories first, then by name. */
  predicate Before(dirs: set<string>, a: string, b: string)
  {
    (a in dirs && b !in dirs) || ((a in dirs) == (b in dirs) && LexLess(a, b))
  }

  lemma BeforeStrictTotal(dirs: set<string>, a: string, b: string, c: string)
    ensures !Before(dirs, a, a)
    ensures a != b ==> Before(dirs, a, b) || Before(dirs, b, a)
    ensures Before(dirs, a, b) ==> !Before(dirs, b, a)
    ensures Before(dirs, a, b) && Before(dirs, b, c) ==> Before(dirs, a, c)
  {
    LexIrreflexive(a);
    if a != b {
      LexTotal(a, b);
    }
    if LexLess(a, b) && LexLess(b, a) {
      LexTransitive(a, b, a);
    }
    if LexLess(a, b) && LexLess(b, c) {
      LexTransitive(a, b, c);
    }
  }

  predicate SortedBy(dirs: set<string>, s: seq<string>)
  {
    forall i, j :: 0 <= i < j < |s| ==> Before(dirs, s[i], s[j])
  }

  /** Inserting `x` into its place in a sorted list. */
  function Insert(dirs: set<string>, x: string, s: seq<string>): (r: seq<string>)
    requires SortedBy(dirs, s) && x !in s
    ensures SortedBy(dirs, r) && multiset(r) == multiset(s) + multiset{x}
    decreases |s|
  {
    if s == [] then [x]
    else if Before(dirs, x, s[0]) then
      assert forall j :: 0 < j < |s| ==> Before(dirs, s[0], s[j]);
      forall j | 0 <= j < |s| ensures Before(dirs, x, s[j]) {
        BeforeStrictTotal(dirs, x, s[0], s[j]);
      }
      [x] + s
    else
      var rest := Insert(dirs, x, s[1..]);
      InsertAfterHead(dirs, x, s, rest);
      [s[0]] + rest
  }

  /** When `x` does not go first, the head stays first. */
  lemma InsertAfterHead(dirs: set<string>, x: string, s: seq<string>, rest: seq<string>)
    requires SortedBy(dirs, s) && s != [] && x !in s && !Before(dirs, x, s[0])
    requires SortedBy(dirs, rest) && multiset(rest) == multiset(s[1..]) + multiset{x}
    ensures SortedBy(dirs, [s[0]] + rest)
    ensures multiset([s[0]] + rest) == multiset(s) + multiset{x}
  {
    BeforeStrictTotal(dirs, x, s[0], s[0]);
    forall y | y in rest
      ensures Before(dirs, s[0], y)
    {
      assert y in multiset(rest);
      if y != x {
        assert y in multiset(s[1..]);
        var k :| 0 <= k < |s[1..]| && s[1..][k] == y;
        assert s[k + 1] == y;
      }
    }
    var r := [s[0]] + rest;
    forall i, j | 0 <= i < j < |r|
      ensures Before(dirs, r[i], r[j])
    {
      assert r[j] == rest[j - 1];
      if i > 0 {
        assert r[i] == rest[i - 1];
      }
    }
    assert s == [s[0]] + s[1..];
  }

  /** `Object.keys(node).sort(comparator)` for the keys listed in `keys`. */
  function SortKeys(dirs: set<string>, keys: seq<string>): (r: seq<string>)
    requires forall i, j :: 0 <= i < j < |keys| ==> keys[i] != keys[j]
    ensures SortedBy(dirs, r) && multiset(r) == multiset(keys)
    decreases |keys|
  {
    if keys == [] then []
    else
      var init := keys[..|keys| - 1];
      var last := keys[|keys| - 1];
      var sorted := SortKeys(dirs, init);
      assert last !in multiset(sorted);
      assert keys == init + [last];
      Insert(dirs, last, sorted)
  }

  /** Two sorted lists with the same elements are equal: the comparator fixes
      the order of the siblings whatever order the keys came in. */
  lemma {:induction false} SortedUnique(dirs: set<string>, s: seq<string>, u: seq<string>)
    requires SortedBy(dirs, s) && SortedBy(dirs, u) && multiset(s) == multiset(u)
    ensures s == u
    decreases |s|
  {
    if s != [] {
      assert |u| == |multiset(u)| == |s|;
      SortedHeads(dirs, s, u);
      assert s == [s[0]] + s[1..] && u == [u[0]] + u[1..];
      assert multiset(s) == multiset{s[0]} + multiset(s[1..]);
      assert multiset(u) == multiset{u[0]} + multiset(u[1..]);
      assert multiset(s[1..]) == multiset(s) - multiset{s[0]};
      assert multiset(u[1..]) == multiset(u) - multiset{u[0]};
      SortedUnique(dirs, s[1..], u[1..]);
    }
  }

  /** Two sorted lists with the same elements start with the same element. */
  lemma SortedHeads(dirs: set<string>, s: seq<string>, u: seq<string>)
    requires SortedBy(dirs, s) && SortedBy(dirs, u) && multiset(s) == multiset(u)
    requires s != [] && u != []
    ensures s[0] == u[0]
  {
    assert s[0] in multiset(u) && u[0] in multiset(s);
    var i :| 0 <= i < |u| && u[i] == s[0];
    var j :| 0 <= j < |s| && s[j] == u[0];
    if s[0] != u[0] {
      assert Before(dirs, u[0], u[i]);
      assert Before(dirs, s[0], s[j]);
      BeforeStrictTotal(dirs, s[0], u[0], s[0]);
      assert false;
    }
  }

  /** The directories among the children of node `k`. */
  ghost function DirChildren(t: TreeArena, k: nat): set<string>
    requires Valid(t) && k < |t.files|
  {
    set x | x in t.files[k] && IsDir(t, t.files[k][x])
  }

  /** The rendered order of the children of `k`: every child exactly once,
      directories before files, names ascending within each group, and the
      same whatever order the keys are enumerated in. */
  lemma SiblingOrder(t: TreeArena, k: nat, keys1: seq<string>, keys2: seq<string>)
    requires Valid(t) && k < |t.files|
    requires forall i, j :: 0 <= i < j < |keys1| ==> keys1[i] != keys1[j]
    requires forall i, j :: 0 <= i < j < |keys2| ==> keys2[i] != keys2[j]
    requires multiset(keys1) == multiset(keys2)
    ensures SortKeys(DirChildren(t, k), keys1) == SortKeys(DirChildren(t, k), keys2)
  {
    SortedUnique(DirChildren(t, k), SortKeys(DirChildren(t, k), keys1), SortKeys(DirChildren(t, k), keys2));
  }

  /** What `FileTreeView` shows. */
  datatype Shown = NoFilesMessage | TreeShown(tree: TreeArena)

  /** The "No files found" message for a missing or empty list, the tree of
      the entries otherwise. */
  function Render(files: Option<seq<Entry>>): (v: Shown)
    ensures v.NoFilesMessage? <==> files.None? || files.value == []
    ensures v.TreeShown? ==> v.tree == CreateTree(files) && |v.tree.files| > 1
  {
    if files.None? || |files.value| == 0 then NoFilesMessage
    else
      var fs := files.value;
      var last := fs[|fs| - 1];
      assert Create(fs) == Place(Create(fs[..|fs| - 1]), 0, Split(last.path, '/'), last);
      TreeShown(CreateTree(files))
  }

  /** The tree object under construction: one field per arena column. */
  class TreeBuilder {
    var files: seq<map<string, nat>>
    var meta: seq<Option<Entry>>

    function Model(): TreeArena
      reads this
    {
      TreeArena(files, meta)
    }

    constructor ()
      ensures Model() == Empty
    {
      files := [map[]];
      meta := [None];
    }

    /** `if (!acc[part]) acc[part] = { _files: {} }` on the child map of
        node `acc`, returning the node of `acc[part]`. */
    method EnsureChild(acc: nat, part: string) returns (child: nat)
      requires Valid(Model()) && acc < |files|
      modifies this
      ensures Model() == Ensure(old(Model()), acc, part)
      ensures part in files[acc] && child == files[acc][part]
    {
      if part !in files[acc] {
        var m: map<string, nat> := files[acc][part := |files|];
        files := files[acc := m] + [map[]];
        meta := meta + [None];
      }
      child := files[acc][part];
    }

    /** The `reduce` over the parts of one path, `acc` being the child map it
        carries from part to part. */
    method PlacePath(segs: seq<string>, f: Entry)
      requires Valid(Model()) && segs != []
      modifies this
      ensures Model() == Place(old(Model()), 0, segs, f)
    {
      var acc: nat := 0;
      ghost var goal := Place(Model(), 0, segs, f);
      for i := 0 to |segs|
        invariant Valid(Model()) && acc < |files|
        invariant i < |segs| ==> Place(Model(), acc, segs[i..], f) == goal
        invariant i == |segs| ==> Model() == goal
      {
        ghost var before := Model();
        var child := EnsureChild(acc, segs[i]);
        PlaceUnfold(before, acc, segs[i..], f);
        if i == |segs| - 1 {
          meta := meta[child := Some(f)];
        } else {
          assert segs[i..][1..] == segs[i + 1..];
        }
        acc := child;
      }
    }
  }

  /** `createTree(fileList)`, building through a TreeBuilder. */
  method CreateTreeOf(fileList: Option<seq<Entry>>) returns (t: TreeArena)
    ensures t == CreateTree(fileList)
  {
    var b := new TreeBuilder();
    if fileList.None? {
      return b.Model();
    }
    var fs := fileList.value;
    for i := 0 to |fs|
      invariant b.Model() == Create(fs[..i])
    {
      assert fs[..i + 1][..i] == fs[..i];
      b.PlacePath(Split(fs[i].path, '/'), fs[i]);
    }
    assert fs[..|fs|] == fs;
    return b.Model();
  }
}
