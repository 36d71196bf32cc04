/** `createHierarchyData` (src/pages/Dashboard.jsx): folds the flat list of
    tree entries into the `{ name, children }` objects the radial tree and the
    force graph lay out. The objects form an arena: node `i` is the object
    with name `names[i]` and children `kids[i]`, `None` standing for a node
    that has no `children` array; node 0 is the root. */
module HierarchyData {
  import opened Wrappers
  import opened Strings
  import opened Repo

  datatype Arena = Arena(names: seq<string>, kids: seq<Option<seq<nat>>>)

  /** `{ name: "root", children: [] }`. */
  const Root: Arena := Arena(["root"], [Some([])])

  /** The children of node `i`, the empty list when it has no array. */
  function Kids(a: Arena, i: nat): seq<nat>
    requires i < |a.kids|
  {
    if a.kids[i].Some? then a.kids[i].value else []
  }

  /** The shape every hierarchy has: the root carries a children array;
      children are created after their parent; every node but the root has a
      parent and no node has two; siblings never share a name; and a node
      other than the root has a children array only once something was
      inserted under it. */
  ghost predicate Valid(a: Arena)
  {
    && |a.names| == |a.kids| >= 1
    && a.kids[0].Some?
    && ChildrenAfter(a)
    && DistinctSiblings(a)
    && SingleParent(a)
    && Rooted(a)
    && (forall i :: 0 < i < |a.kids| && a.kids[i].Some? ==> a.kids[i].value != [])
  }

  ghost predicate ChildrenAfter(a: Arena)
    requires |a.names| == |a.kids|
  {
    forall i, j :: 0 <= i < |a.kids| && 0 <= j < |Kids(a, i)| ==> i < Kids(a, i)[j] < |a.kids|
  }

  ghost predicate DistinctSiblings(a: Arena)
    requires |a.names| == |a.kids| && ChildrenAfter(a)
  {
    forall i, j, k :: 0 <= i < |a.kids| && 0 <= j < k < |Kids(a, i)| ==>
      a.names[Kids(a, i)[j]] != a.names[Kids(a, i)[k]]
  }

  ghost predicate SingleParent(a: Arena)
  {
    forall i1, j1, i2, j2 ::
      (0 <= i1 < |a.kids| && 0 <= i2 < |a.kids| && 0 <= j1 < |Kids(a, i1)| && 0 <= j2 < |Kids(a, i2)|
       && Kids(a, i1)[j1] == Kids(a, i2)[j2]) ==> i1 == i2
  }

  /** Node `i` sits in the children of some node created before it. */
  ghost predicate Parented(a: Arena, i: nat)
    requires i < |a.kids|
  {
    exists p, j :: 0 <= p < i && 0 <= j < |Kids(a, p)| && Kids(a, p)[j] == i
  }

  /** Every node but the root was pushed under a parent. */
  ghost predicate Rooted(a: Arena)
  {
    forall i :: 0 < i < |a.kids| ==> Parented(a, i)
  }

  /** `r` is `a` with nodes appended and children pushed, nothing removed. */
  ghost predicate Extends(a: Arena, r: Arena)
  {
    && |a.names| == |a.kids| <= |r.names| == |r.kids|
    && r.names[..|a.names|] == a.names
    && (forall i :: 0 <= i < |a.kids| ==> Kids(a, i) <= Kids(r, i))
  }

  /** `children.find(c => c.name === name)`: the first child with that name. */
  function FindIn(a: Arena, cs: seq<nat>, name: string): (r: Option<nat>)
    requires forall j :: 0 <= j < |cs| ==> cs[j] < |a.names|
    ensures r.Some? ==> r.value in cs && a.names[r.value] == name
    ensures r.None? ==> forall j :: 0 <= j < |cs| ==> a.names[cs[j]] != name
    decreases |cs|
  {
    if cs == [] then None
    else if a.names[cs[0]] == name then Some(cs[0])
    else FindIn(a, cs[1..], name)
  }

  /** The child found is the first with the name: none before it has it. */
  lemma {:induction false} FindInFirst(a: Arena, cs: seq<nat>, name: string)
    requires forall j :: 0 <= j < |cs| ==> cs[j] < |a.names|
    requires FindIn(a, cs, name).Some?
    ensures exists j :: 0 <= j < |cs| && cs[j] == FindIn(a, cs, name).value && NoneNamedBefore(a, cs, name, j)
    decreases |cs|
  {
    if a.names[cs[0]] == name {
      assert NoneNamedBefore(a, cs, name, 0);
    } else {
      FindInFirst(a, cs[1..], name);
      var j :| 0 <= j < |cs| - 1 && cs[1..][j] == FindIn(a, cs[1..], name).value && NoneNamedBefore(a, cs[1..], name, j);
      assert NoneNamedBefore(a, cs, name, j + 1);
    }
  }

  /** No child before position `j` of `cs` is named `name`. */
  predicate NoneNamedBefore(a: Arena, cs: seq<nat>, name: string, j: int)
    requires forall i :: 0 <= i < |cs| ==> cs[i] < |a.names|
    requires j <= |cs|
  {
    forall i :: 0 <= i < j ==> a.names[cs[i]] != name
  }

  /** A fresh node `{ name }` pushed under `node`, creating its children array
      when it has none. */
  function AddChild(a: Arena, node: nat, name: string): (r: Arena)
    requires Valid(a) && node < |a.kids|
    requires FindIn(a, Kids(a, node), name).None?
    ensures Valid(r) && Extends(a, r)
    ensures |r.names| == |a.names| + 1 && r.names[|a.names|] == name
    ensures Kids(r, node) == Kids(a, node) + [|a.names|]
  {
    var r := Arena(a.names + [name], a.kids[node := Some(Kids(a, node) + [|a.names|])] + [None]);
    AddChildValid(a, node, name, r);
    r
  }

  /** The new node is a fresh index, so pushing it keeps every part of Valid. */
  lemma AddChildValid(a: Arena, node: nat, name: string, r: Arena)
    requires Valid(a) && node < |a.kids|
    requires FindIn(a, Kids(a, node), name).None?
    requires r == Arena(a.names + [name], a.kids[node := Some(Kids(a, node) + [|a.names|])] + [None])
    ensures Valid(r) && Extends(a, r)
  {
    AddChildKids(a, node, name, r);
    AddChildAfter(a, node, name, r);
    AddChildDistinct(a, node, name, r);
    AddChildSingleParent(a, node, name, r);
    AddChildRooted(a, node, name, r);
  }

  lemma AddChildKids(a: Arena, node: nat, name: string, r: Arena)
    requires Valid(a) && node < |a.kids|
    requires r == Arena(a.names + [name], a.kids[node := Some(Kids(a, node) + [|a.names|])] + [None])
    ensures forall i :: 0 <= i < |r.kids| ==>
      Kids(r, i) == if i == node then Kids(a, node) + [|a.names|] else if i < |a.names| then Kids(a, i) else []
    ensures forall i :: 0 < i < |r.kids| && r.kids[i].Some? ==> r.kids[i].value != []
  {
  }

  lemma AddChildAfter(a: Arena, node: nat, name: string, r: Arena)
    requires Valid(a) && node < |a.kids|
    requires r == Arena(a.names + [name], a.kids[node := Some(Kids(a, node) + [|a.names|])] + [None])
    ensures ChildrenAfter(r)
  {
    AddChildKids(a, node, name, r);
    forall i, j | 0 <= i < |r.kids| && 0 <= j < |Kids(r, i)|
      ensures i < Kids(r, i)[j] < |r.kids|
    {
      if !(i == node && j == |Kids(a, node)|) {
        assert Kids(r, i)[j] == Kids(a, i)[j];
      }
    }
  }

  lemma AddChildDistinct(a: Arena, node: nat, name: string, r: Arena)
    requires Valid(a) && node < |a.kids|
    requires FindIn(a, Kids(a, node), name).None?
    requires r == Arena(a.names + [name], a.kids[node := Some(Kids(a, node) + [|a.names|])] + [None])
    requires ChildrenAfter(r)
    ensures DistinctSiblings(r)
  {
    AddChildKids(a, node, name, r);
    forall i, j, k | 0 <= i < |r.kids| && 0 <= j < k < |Kids(r, i)|
      ensures r.names[Kids(r, i)[j]] != r.names[Kids(r, i)[k]]
    {
      assert Kids(r, i)[j] == Kids(a, i)[j];
      if i == node && k == |Kids(a, node)| {
        assert a.names[Kids(a, node)[j]] != name;
      } else {
        assert Kids(r, i)[k] == Kids(a, i)[k];
      }
    }
  }

  lemma AddChildSingleParent(a: Arena, node: nat, name: string, r: Arena)
    requires Valid(a) && node < |a.kids|
    requires r == Arena(a.names + [name], a.kids[node := Some(Kids(a, node) + [|a.names|])] + [None])
    ensures SingleParent(r)
  {
    AddChildKids(a, node, name, r);
    forall i1, j1, i2, j2 |
      0 <= i1 < |r.kids| && 0 <= i2 < |r.kids| && 0 <= j1 < |Kids(r, i1)| && 0 <= j2 < |Kids(r, i2)|
      && Kids(r, i1)[j1] == Kids(r, i2)[j2]
      ensures i1 == i2
    {
      var new1 := i1 == node && j1 == |Kids(a, node)|;
      var new2 := i2 == node && j2 == |Kids(a, node)|;
      if !new1 { assert Kids(r, i1)[j1] == Kids(a, i1)[j1]; }
      if !new2 { assert Kids(r, i2)[j2] == Kids(a, i2)[j2]; }
    }
  }

  lemma AddChildRooted(a: Arena, node: nat, name: string, r: Arena)
    requires Valid(a) && node < |a.kids|
    requires r == Arena(a.names + [name], a.kids[node := Some(Kids(a, node) + [|a.names|])] + [None])
    ensures Rooted(r)
  {
    AddChildKids(a, node, name, r);
    forall i | 0 < i < |r.kids|
      ensures Parented(r, i)
    {
      if i == |a.names| {
        assert Kids(r, node)[|Kids(a, node)|] == i;
      } else {
        assert Parented(a, i);
        var p, j :| 0 <= p < i && 0 <= j < |Kids(a, p)| && Kids(a, p)[j] == i;
        assert Kids(r, p)[j] == i;
      }
    }
  }

  /** Inserting the path segments `segs` below `node`: reuse the first child
      of each name, create it when missing. */
  function InsertFrom(a: Arena, node: nat, segs: seq<string>): (r: Arena)
    requires Valid(a) && node < |a.kids|
    ensures Valid(r) && Extends(a, r)
    decreases |segs|
  {
    if segs == [] then a
    else
      match FindIn(a, Kids(a, node), segs[0])
      case Some(k) => InsertFrom(a, k, segs[1..])
      case None => InsertFrom(AddChild(a, node, segs[0]), |a.names|, segs[1..])
  }

  /** The node reached from `node` by following the names `segs`, if any. */
  function Walk(a: Arena, node: nat, segs: seq<string>): (r: Option<nat>)
    requires |a.names| == |a.kids| && ChildrenAfter(a) && node < |a.kids|
    ensures r.Some? ==> r.value < |a.kids|
    decreases |segs|
  {
    if segs == [] then Some(node)
    else
      match FindIn(a, Kids(a, node), segs[0])
      case None => None
      case Some(k) => Walk(a, k, segs[1..])
  }

  /** The hierarchy of a list of entries: each path, split at `/`, inserted
      from the root in list order. */
  function Build(files: seq<Entry>): (r: Arena)
    ensures Valid(r)
    decreases |files|
  {
    if files == [] then Root
    else InsertFrom(Build(files[..|files| - 1]), 0, Split(files[|files| - 1].path, '/'))
  }

  /** What `createHierarchyData` returns for a possibly missing list. */
  function HierarchyOf(files: Option<seq<Entry>>): (r: Arena)
    ensures Valid(r)
    ensures files.None? || files.value == [] ==> r == Root
  {
    if files.None? then Root else Build(files.value)
  }

  /** The first match in a list is still the first match once the list and
      the arena grow. */
  lemma {:induction false} FindInPrefix(a: Arena, r: Arena, cs: seq<nat>, more: seq<nat>, name: string)
    requires forall j :: 0 <= j < |cs| ==> cs[j] < |a.names|
    requires forall j :: 0 <= j < |cs + more| ==> (cs + more)[j] < |r.names|
    requires |a.names| <= |r.names| && r.names[..|a.names|] == a.names
    requires FindIn(a, cs, name).Some?
    ensures FindIn(r, cs + more, name) == FindIn(a, cs, name)
    decreases |cs|
  {
    assert cs[0] < |a.names| && r.names[cs[0]] == r.names[..|a.names|][cs[0]];
    assert (cs + more)[0] == cs[0];
    if a.names[cs[0]] != name {
      assert (cs + more)[1..] == cs[1..] + more;
      FindInPrefix(a, r, cs[1..], more, name);
    }
  }

  /** A walk that succeeds in an arena succeeds, to the same node, in every
      extension of it. */
  lemma {:induction false} WalkStable(a: Arena, r: Arena, node: nat, segs: seq<string>)
    requires Valid(a) && Valid(r) && Extends(a, r) && node < |a.kids|
    requires Walk(a, node, segs).Some?
    ensures Walk(r, node, segs) == Walk(a, node, segs)
    decreases |segs|
  {
    if segs != [] {
      var k := FindIn(a, Kids(a, node), segs[0]).value;
      FindStable(a, r, node, segs[0]);
      WalkStable(a, r, k, segs[1..]);
    }
  }

  /** A child found in an arena is still the one found in an extension. */
  lemma FindStable(a: Arena, r: Arena, node: nat, name: string)
    requires Valid(a) && Valid(r) && Extends(a, r) && node < |a.kids|
    requires FindIn(a, Kids(a, node), name).Some?
    ensures FindIn(r, Kids(r, node), name) == FindIn(a, Kids(a, node), name)
  {
    var cs := Kids(a, node);
    var more := Kids(r, node)[|cs|..];
    assert Kids(r, node) == cs + more;
    FindInPrefix(a, r, cs, more, name);
  }

  /** After inserting a path, following it from the same node succeeds. */
  lemma {:induction false} InsertWalks(a: Arena, node: nat, segs: seq<string>)
    requires Valid(a) && node < |a.kids|
    ensures Walk(InsertFrom(a, node, segs), node, segs).Some?
    decreases |segs|
  {
    if segs != [] {
      var r := InsertFrom(a, node, segs);
      var cs := Kids(a, node);
      var found := FindIn(a, cs, segs[0]);
      if found.Some? {
        var k := found.value;
        assert r == InsertFrom(a, k, segs[1..]);
        InsertWalks(a, k, segs[1..]);
        FindStable(a, r, node, segs[0]);
      } else {
        var a1 := AddChild(a, node, segs[0]);
        var n := |a.names|;
        assert r == InsertFrom(a1, n, segs[1..]);
        InsertWalks(a1, n, segs[1..]);
        FindNew(a1, cs, n, segs[0]);
        FindStable(a1, r, node, segs[0]);
      }
    }
  }

  /** A child pushed after siblings of other names is the first match. */
  lemma {:induction false} FindNew(a: Arena, cs: seq<nat>, n: nat, name: string)
    requires forall j :: 0 <= j < |cs| ==> cs[j] < |a.names|
    requires n < |a.names| && a.names[n] == name
    requires forall j :: 0 <= j < |cs| ==> a.names[cs[j]] != name
    ensures FindIn(a, cs + [n], name) == Some(n)
    decreases |cs|
  {
    if cs != [] {
      assert (cs + [n])[1..] == cs[1..] + [n];
      FindNew(a, cs[1..], n, name);
    }
  }

  /** Inserting a path that can already be followed changes nothing. */
  lemma {:induction false} InsertPresentUnchanged(a: Arena, node: nat, segs: seq<string>)
    requires Valid(a) && node < |a.kids|
    requires Walk(a, node, segs).Some?
    ensures InsertFrom(a, node, segs) == a
    decreases |segs|
  {
    if segs != [] {
      var k := FindIn(a, Kids(a, node), segs[0]).value;
      InsertPresentUnchanged(a, k, segs[1..]);
    }
  }

  /** Every prefix of a path that can be followed can be followed too. */
  lemma {:induction false} WalkPrefix(a: Arena, node: nat, segs: seq<string>, k: nat)
    requires |a.names| == |a.kids| && ChildrenAfter(a) && node < |a.kids| && k <= |segs|
    requires Walk(a, node, segs).Some?
    ensures Walk(a, node, segs[..k]).Some?
    decreases |segs|
  {
    if k > 0 {
      var pre := segs[..k];
      var found := FindIn(a, Kids(a, node), segs[0]);
      assert found.Some? && Walk(a, node, segs) == Walk(a, found.value, segs[1..]);
      assert pre[0] == segs[0] && pre[1..] == segs[1..][..k - 1];
      assert Walk(a, node, pre) == Walk(a, found.value, pre[1..]);
      WalkPrefix(a, found.value, segs[1..], k - 1);
    }
  }

  /** Every entry's path traces a chain of nodes from the root. */
  lemma {:induction false} BuildContainsPath(files: seq<Entry>, i: nat)
    requires i < |files|
    ensures Walk(Build(files), 0, Split(files[i].path, '/')).Some?
    decreases |files|
  {
    var init := files[..|files| - 1];
    var last := files[|files| - 1];
    var r := Build(files);
    if i == |files| - 1 {
      InsertWalks(Build(init), 0, Split(last.path, '/'));
    } else {
      assert init[i] == files[i];
      BuildContainsPath(init, i);
      WalkStable(Build(init), r, 0, Split(files[i].path, '/'));
    }
  }

  /** Re-inserting the path of an entry already in the list, or a prefix of
      it, adds no node. */
  lemma BuildIdempotent(files: seq<Entry>, i: nat, f: Entry, k: nat)
    requires i < |files| && k <= |Split(files[i].path, '/')|
    requires Split(f.path, '/') == Split(files[i].path, '/')[..k]
    ensures Build(files + [f]) == Build(files)
  {
    var segs := Split(files[i].path, '/');
    BuildContainsPath(files, i);
    WalkPrefix(Build(files), 0, segs, k);
    assert (files + [f])[..|files|] == files;
    InsertPresentUnchanged(Build(files), 0, Split(f.path, '/'));
  }

  /** The object `createHierarchyData` mutates, one field per arena column. */
  class Builder {
    var names: seq<string>
    var kids: seq<Option<seq<nat>>>

    function Model(): Arena
      reads this
    {
      Arena(names, kids)
    }

    constructor ()
      ensures Model() == Root
    {
      names := ["root"];
      kids := [Some([])];
    }

    /** `currentNode.children?.find(c => c.name === name)`. */
    method FindChild(node: nat, name: string) returns (r: Option<nat>)
      requires Valid(Model()) && node < |kids|
      ensures r == FindIn(Model(), Kids(Model(), node), name)
    {
      var cs := Kids(Model(), node);
      var j := 0;
      while j < |cs|
        invariant 0 <= j <= |cs|
        invariant FindIn(Model(), cs[j..], name) == FindIn(Model(), cs, name)
      {
        assert cs[j..][1..] == cs[j + 1..];
        if names[cs[j]] == name {
          return Some(cs[j]);
        }
        j := j + 1;
      }
      return None;
    }

    /** `childNode = { name }`, then `children` created when missing and the
        child pushed onto it. */
    method PushChild(node: nat, name: string) returns (n: nat)
      requires Valid(Model()) && node < |kids|
      requires FindIn(Model(), Kids(Model(), node), name).None?
      modifies this
      ensures Model() == AddChild(old(Model()), node, name)
      ensures n == old(|names|)
    {
      ghost var before := Model();
      n := |names|;
      names := names + [name];
      kids := kids + [None];
      if kids[node].None? {
        kids := kids[node := Some([])];
      }
      kids := kids[node := Some(kids[node].value + [n])];
      assert kids == before.kids[node := Some(Kids(before, node) + [n])] + [None];
    }

    /** The inner `forEach` over the parts of one path, moving the
        `currentNode` cursor down. */
    method InsertPath(segs: seq<string>)
      requires Valid(Model())
      modifies this
      ensures Model() == InsertFrom(old(Model()), 0, segs)
    {
      var current: nat := 0;
      for i := 0 to |segs|
        invariant Valid(Model()) && current < |kids|
        invariant InsertFrom(Model(), current, segs[i..]) == InsertFrom(old(Model()), 0, segs)
      {
        assert segs[i..][0] == segs[i] && segs[i..][1..] == segs[i + 1..];
        var child := FindChild(current, segs[i]);
        if child.None? {
          var n := PushChild(current, segs[i]);
          child := Some(n);
        }
        current := child.value;
      }
    }
  }

  /** `createHierarchyData(files)`. */
  method CreateHierarchyData(files: Option<seq<Entry>>) returns (root: Arena)
    ensures root == HierarchyOf(files)
  {
    var b := new Builder();
    if files.None? || |files.value| == 0 {
      return b.Model();
    }
    var fs := files.value;
    assert fs[..0] == [];
    for i := 0 to |fs|
      invariant b.Model() == Build(fs[..i])
    {
      assert fs[..i + 1][..i] == fs[..i];
      b.InsertPath(Split(fs[i].path, '/'));
    }
    assert fs[..|fs|] == fs;
    return b.Model();
  }
}
