/** The hierarchy: a tree of labelled nodes found by the path of labels that leads to them. */
module Hierarchies {
  import opened Wrappers

  type Label = string
  type Path = seq<Label>
  type Data = int

  class Node {
    const tag: Label
    const up: Node?
    var data: Option<Data>
    var branches: seq<Node>

    constructor (tag: Label, data: Option<Data>, up: Node?)
      ensures this.tag == tag && this.data == data && this.up == up && branches == []
    {
      this.tag, this.data, this.up, branches := tag, data, up, [];
    }

    /** The first branch with this label. */
    method GetByLabel(tag: Label) returns (ret: Node?)
      ensures ret != null ==> ret in branches && ret.tag == tag
      ensures ret == null ==> forall i :: 0 <= i < |branches| ==> branches[i].tag != tag
    {
      ret := null;
      var i := 0;
      while ret == null && i < |branches|
        invariant 0 <= i <= |branches|
        invariant if ret == null then forall j :: 0 <= j < i ==> branches[j].tag != tag
                  else ret in branches && ret.tag == tag
      {
        if tag == branches[i].tag {
          ret := branches[i];
        }
        i := i + 1;
      }
    }

    /** Takes a branch out of the list. */
    method RemoveBranch(leaf: Node, ghost k: nat)
      requires k < |branches| && branches[k] == leaf
      requires forall i :: 0 <= i < k ==> branches[i] != leaf
      modifies `branches
      ensures branches == old(branches)[..k] + old(branches)[k + 1..]
    {
      var i := 0;
      var done := false;
      while !done && i < |branches|
        invariant !done ==> i <= k && branches == old(branches)
        invariant done ==> branches == old(branches)[..k] + old(branches)[k + 1..]
        decreases !done, |branches| - i
      {
        if leaf == branches[i] {
          branches := branches[..i] + branches[i + 1..];
          done := true;
        } else {
          i := i + 1;
        }
      }
    }
  }

  function Parent(p: Path): Path
    requires p != []
  {
    p[..|p| - 1]
  }

  /** The branches of the node at `p` are at `p` and their labels, and have different labels. */
  ghost predicate Branches(at: map<Path, Node>, kids: map<Path, seq<Node>>, p: Path)
    requires p in kids
  {
    && (forall c :: c in kids[p] ==> p + [c.tag] in at && at[p + [c.tag]] == c)
    && (forall i, j :: 0 <= i < j < |kids[p]| ==> kids[p][i].tag != kids[p][j].tag)
  }

  /** The node at `p` is a branch of the one above it. */
  ghost predicate Child(at: map<Path, Node>, kids: map<Path, seq<Node>>, p: Path)
    requires p in at && p != [] && at.Keys == kids.Keys
  {
    && Parent(p) in at
    && at[p].tag == p[|p| - 1] && at[p].up == at[Parent(p)]
    && at[p] in kids[Parent(p)]
  }

  /** Every node is at one path: the root at the empty one, and a branch at its parent's path and its own
      label. */
  ghost predicate Tree(at: map<Path, Node>, kids: map<Path, seq<Node>>) {
    && at.Keys == kids.Keys && [] in at && at[[]].up == null
    && (forall p, q :: p in at && q in at && at[p] == at[q] ==> p == q)
    && (forall p :: p in at ==> Branches(at, kids, p))
    && (forall p :: p in at && p != [] ==> Child(at, kids, p))
  }

  lemma AppendBranches(at: map<Path, Node>, kids: map<Path, seq<Node>>, p: Path, node: Node, q: Path)
    requires at.Keys == kids.Keys && p in at && p + [node.tag] !in at
    requires q in at && Branches(at, kids, q)
    ensures Branches(at[p + [node.tag] := node], kids[p + [node.tag] := []][p := kids[p] + [node]], q)
  {
    forall c | c in kids[q] ensures q + [c.tag] != p + [node.tag] {
      assert q + [c.tag] in at;
    }
    forall i | q == p && 0 <= i < |kids[p]| ensures kids[p][i].tag != node.tag {
      assert kids[p][i] in kids[p];
    }
  }

  lemma NoBranches(at: map<Path, Node>, kids: map<Path, seq<Node>>, p: Path)
    requires p in kids && kids[p] == []
    ensures Branches(at, kids, p)
  {
  }

  lemma AppendChild(at: map<Path, Node>, kids: map<Path, seq<Node>>, p: Path, node: Node, q: Path)
    requires at.Keys == kids.Keys && p in at && p + [node.tag] !in at && node.up == at[p]
    requires q != [] && if q in at then Child(at, kids, q) else q == p + [node.tag]
    ensures Child(at[p + [node.tag] := node], kids[p + [node.tag] := []][p := kids[p] + [node]], q)
  {
    if q !in at {
      assert Parent(q) == p;
      assert (kids[p] + [node])[|kids[p]|] == node;
    }
  }

  /** A new branch keeps the tree, provided there is none with its label. */
  lemma AppendKeepsTree(at: map<Path, Node>, kids: map<Path, seq<Node>>, p: Path, node: Node)
    requires Tree(at, kids) && p in at && p + [node.tag] !in at && node.up == at[p] && node !in at.Values
    ensures Tree(at[p + [node.tag] := node], kids[p + [node.tag] := []][p := kids[p] + [node]])
  {
    hide Branches, Child;
    var at', kids' := at[p + [node.tag] := node], kids[p + [node.tag] := []][p := kids[p] + [node]];
    forall q | q in at' ensures Branches(at', kids', q) {
      if q in at { AppendBranches(at, kids, p, node, q); } else { NoBranches(at', kids', q); }
    }
    forall q | q in at' && q != [] ensures Child(at', kids', q) { AppendChild(at, kids, p, node, q); }
    assert forall q :: q in at ==> at[q] in at.Values;
  }

  /** The paths that do not go through `name`. */
  ghost function Pruned<V>(m: map<Path, V>, name: Path): map<Path, V> {
    map p | p in m && !(name <= p) :: m[p]
  }

  lemma RemoveBranches(at: map<Path, Node>, kids: map<Path, seq<Node>>, name: Path, k: nat, q: Path)
    requires at.Keys == kids.Keys && name in at && name != []
    requires q in at && Branches(at, kids, q) && Child(at, kids, name)
    requires Parent(name) in kids && k < |kids[Parent(name)]| && kids[Parent(name)][k] == at[name]
    requires q in at && !(name <= q)
    ensures var bs := kids[Parent(name)];
            Branches(Pruned(at, name), Pruned(kids[Parent(name) := bs[..k] + bs[k + 1..]], name), q)
  {
    hide Pruned;
    var p, bs := Parent(name), kids[Parent(name)];
    var cs := if q == p then bs[..k] + bs[k + 1..] else kids[q];
    var kids' := kids[p := bs[..k] + bs[k + 1..]];
    if q == p { OthersDiffer(bs, k); }
    forall c | c in cs ensures c in kids[q] && !(name <= q + [c.tag]) {
      Through(name, q, c.tag);
    }
    PrunedBranches(at, kids', name, q);
  }

  lemma PrunedBranches(at: map<Path, Node>, kids: map<Path, seq<Node>>, name: Path, q: Path)
    requires q in kids && !(name <= q) && Branches(at, kids, q)
    requires forall c :: c in kids[q] ==> !(name <= q + [c.tag])
    ensures Branches(Pruned(at, name), Pruned(kids, name), q)
  {
    assert Pruned(kids, name)[q] == kids[q];
  }

  lemma Through(name: Path, q: Path, tag: Label)
    requires name != [] && !(name <= q)
    ensures name <= q + [tag] <==> q == Parent(name) && tag == name[|name| - 1]
  {
    if name <= q + [tag] {
      assert name == q + [tag];
    } else if q == Parent(name) {
      assert q + [name[|name| - 1]] == name;
    }
  }

  lemma OthersDiffer(bs: seq<Node>, k: nat)
    requires k < |bs| && forall i, j :: 0 <= i < j < |bs| ==> bs[i].tag != bs[j].tag
    ensures forall c :: c in bs[..k] + bs[k + 1..] ==> c in bs && c.tag != bs[k].tag
    ensures var cs := bs[..k] + bs[k + 1..]; forall i, j :: 0 <= i < j < |cs| ==> cs[i].tag != cs[j].tag
  {
    var cs := bs[..k] + bs[k + 1..];
    forall j | 0 <= j < |cs| ensures cs[j] in bs && cs[j].tag != bs[k].tag {
      assert cs[j] == bs[if j < k then j else j + 1];
    }
  }

  lemma RemoveChild(at: map<Path, Node>, kids: map<Path, seq<Node>>, name: Path, k: nat, q: Path)
    requires at.Keys == kids.Keys && name in at && name != []
    requires q in at && q != [] && at[q] != at[name] && Child(at, kids, q)
    requires Parent(name) in kids && k < |kids[Parent(name)]| && kids[Parent(name)][k] == at[name]
    requires q in at && !(name <= q) && q != []
    ensures var bs := kids[Parent(name)];
            Child(Pruned(at, name), Pruned(kids[Parent(name) := bs[..k] + bs[k + 1..]], name), q)
  {
    var p, bs := Parent(name), kids[Parent(name)];
    if Parent(q) == p {
      var j :| 0 <= j < |bs| && bs[j] == at[q];
      var cs := bs[..k] + bs[k + 1..];
      assert j != k;
      assert cs[if j < k then j else j - 1] == at[q];
    }
  }

  /** Taking out a branch keeps the tree: what goes is what has a path through it. */
  lemma RemoveKeepsTree(at: map<Path, Node>, kids: map<Path, seq<Node>>, name: Path, k: nat)
    requires Tree(at, kids) && name in at && name != []
    requires Parent(name) in kids && k < |kids[Parent(name)]| && kids[Parent(name)][k] == at[name]
    ensures var bs := kids[Parent(name)];
            Tree(Pruned(at, name), Pruned(kids[Parent(name) := bs[..k] + bs[k + 1..]], name))
  {
    hide Branches, Child;
    var bs := kids[Parent(name)];
    var at', kids' := Pruned(at, name), Pruned(kids[Parent(name) := bs[..k] + bs[k + 1..]], name);
    forall q | q in at' ensures Branches(at', kids', q) { RemoveBranches(at, kids, name, k, q); }
    forall q | q in at' && q != [] ensures Child(at', kids', q) { RemoveChild(at, kids, name, k, q); }
  }

  lemma BranchAt(at: map<Path, Node>, kids: map<Path, seq<Node>>, p: Path, tag: Label)
    requires Tree(at, kids) && p in at
    ensures Branches(at, kids, p)
    ensures p + [tag] in at ==> at[p + [tag]] in kids[p] && at[p + [tag]].tag == tag
  {
    if p + [tag] in at {
      assert Child(at, kids, p + [tag]) && Parent(p + [tag]) == p;
    }
  }

  /** How many labels of a name lead on from the root. */
  ghost function Depth<V>(at: map<Path, V>, name: Path): (k: nat)
    ensures k <= |name|
  {
    if name == [] || name in at then |name| else Depth(at, Parent(name))
  }

  lemma {:induction false} DepthIs(at: map<Path, Node>, kids: map<Path, seq<Node>>, name: Path, k: nat)
    requires Tree(at, kids) && k <= |name| && name[..k] in at && (k < |name| ==> name[..k + 1] !in at)
    ensures Depth(at, name) == k
  {
    if name in at {
      if k < |name| { PrefixIn(at, kids, name, k + 1); }
      assert name[..|name|] == name;
    } else if name != [] {
      assert k < |name| by { assert name[..|name|] == name; }
      assert Parent(name)[..k] == name[..k];
      assert k < |name| - 1 ==> Parent(name)[..k + 1] == name[..k + 1];
      DepthIs(at, kids, Parent(name), k);
    }
  }

  lemma {:induction false} PrefixIn(at: map<Path, Node>, kids: map<Path, seq<Node>>, name: Path, i: nat)
    requires Tree(at, kids) && name in at && i <= |name|
    ensures name[..i] in at
  {
    if i == |name| {
      assert name[..i] == name;
    } else {
      assert Child(at, kids, name);
      PrefixIn(at, kids, Parent(name), i);
      assert Parent(name)[..i] == name[..i];
    }
  }

  class Hierarchy {
    const root: Node
    ghost var at: map<Path, Node>

    ghost function Kids(): map<Path, seq<Node>>
      reads this, at.Values
    {
      map p | p in at :: at[p].branches
    }

    ghost predicate Valid()
      reads this, at.Values
    {
      [] in at && at[[]] == root && Tree(at, Kids())
    }

    /** The data at every path. */
    ghost function Contents(): map<Path, Option<Data>>
      reads this, at.Values
    {
      map p | p in at :: at[p].data
    }

    constructor ()
      ensures Valid() && Contents() == map[[] := None]
    {
      root := new Node("/", None, null);
      at := map[[] := root];
    }

    /** One label on from the node at `p`. */
    method Down(node: Node, tag: Label, ghost p: Path) returns (child: Node?)
      requires Valid() && p in at && node == at[p]
      ensures if p + [tag] in at then child == at[p + [tag]] else child == null
    {
      BranchAt(at, Kids(), p, tag);
      child := node.GetByLabel(tag);
    }

    /** The node the longest part of the name leads to, and how long that is. */
    method Match(name: Path) returns (node: Node, lost: nat)
      requires Valid()
      ensures lost == Depth(Contents(), name) && name[..lost] in at && node == at[name[..lost]]
    {
      hide Tree;
      node, lost := root, 0;
      assert name[..0] == [];
      while lost < |name|
        invariant 0 <= lost <= |name|
        invariant name[..lost] in at && node == at[name[..lost]]
      {
        assert name[..lost + 1] == name[..lost] + [name[lost]];
        var child := Down(node, name[lost], name[..lost]);
        if child == null {
          break;
        }
        node, lost := child, lost + 1;
      }
      DepthIs(at, Kids(), name, lost);
      SameDepth(at, Contents(), name);
    }

    /** The node at a name, found if and only if the whole name leads to one. */
    method Find(name: Path) returns (node: Node?)
      requires Valid()
      ensures node != null <==> Depth(Contents(), name) == |name|
      ensures if name in at then node == at[name] else node == null
      ensures node != null ==> node.data == Contents()[name]
    {
      hide Tree;
      node := root;
      var ix := 0;
      assert name[..0] == [] && name[..|name|] == name;
      while ix < |name|
        invariant 0 <= ix <= |name|
        invariant name[..ix] in at && node == at[name[..ix]]
      {
        assert name[..ix + 1] == name[..ix] + [name[ix]];
        var child := Down(node, name[ix], name[..ix]);
        if child == null {
          DepthIs(at, Kids(), name, ix);
          FullDepth(at, Kids(), name);
          SameDepth(at, Contents(), name);
          return null;
        }
        node, ix := child, ix + 1;
      }
      DepthIs(at, Kids(), name, ix);
      SameDepth(at, Contents(), name);
    }

    /** A new branch of the node at `p`. */
    method Append(up: Node, tag: Label, ghost p: Path) returns (node: Node)
      requires Valid() && p in at && up == at[p] && p + [tag] !in at
      modifies `at, up`branches
      ensures Valid() && fresh(node)
      ensures at == old(at)[p + [tag] := node]
      ensures Contents() == old(Contents())[p + [tag] := None]
    {
      hide Tree;
      OnePath(at, Kids(), p);
      node := new Node(tag, None, up);
      AppendKeepsTree(at, Kids(), p, node);
      ghost var kids := Kids()[p + [tag] := []][p := Kids()[p] + [node]];
      up.branches := up.branches + [node];
      at := at[p + [tag] := node];
      assert Kids() == kids;
    }

    /** One label on from the node at `p`, to a new node if there is none. */
    method Enter(up: Node, tag: Label, ghost p: Path) returns (node: Node)
      requires Valid() && p in at && up == at[p]
      modifies `at, up`branches
      ensures Valid() && p + [tag] in at && node == at[p + [tag]]
      ensures forall n :: n in at.Values ==> n in old(at).Values || fresh(n)
      ensures Contents() == if p + [tag] in old(at) then old(Contents()) else old(Contents())[p + [tag] := None]
    {
      hide Tree;
      var child := Down(up, tag, p);
      if child == null {
        node := Append(up, tag, p);
      } else {
        node := child;
      }
    }

    /** The name comes to have this data; where nodes were missing on the way to it they come without any. */
    method Insert(name: Path, data: Option<Data>) returns (node: Node)
      requires Valid()
      modifies `at, at.Values
      ensures Valid() && name in at && node == at[name]
      ensures Contents() == Inserted(old(Contents()), name, data)
    {
      hide Tree;
      node := root;
      var ix := 0;
      ghost var was := at;
      assert name[..0] == [];
      while ix < |name|
        invariant 0 <= ix <= |name| && Valid()
        invariant name[..ix] in at && node == at[name[..ix]]
        invariant Contents() == WithPath(old(Contents()), name, ix)
        invariant forall n :: n in at.Values ==> n in was.Values || fresh(n)
      {
        assert name[..ix + 1] == name[..ix] + [name[ix]];
        node := Enter(node, name[ix], name[..ix]);
        ix := ix + 1;
      }
      assert name[..ix] == name && node in at.Values;
      OnePath(at, Kids(), name);
      ghost var contents, kids := Contents(), Kids();
      node.data := data;
      assert Kids() == kids;
      assert Contents() == contents[name := data];
    }

    /** Everything at a name and beyond it goes, and nothing else changes; the root stays. */
    method Remove(name: Path) returns (ok: bool)
      requires Valid()
      modifies `at, at.Values
      ensures Valid()
      ensures ok <==> name != [] && name in old(at)
      ensures Contents() == if ok then Pruned(old(Contents()), name) else old(Contents())
    {
      hide Tree, Branches, Child;
      if name == [] {
        return false;
      }
      var leaf := Find(name);
      if leaf == null {
        return false;
      }
      ghost var p := Parent(name);
      ghost var k := PlaceOf(at, Kids(), name);
      var up := leaf.up;
      RemoveKeepsTree(at, Kids(), name, k);
      OnePath(at, Kids(), p);
      assert up in at.Values;
      ghost var bs := up.branches;
      ghost var kids := Pruned(Kids()[p := bs[..k] + bs[k + 1..]], name);
      up.RemoveBranch(leaf, k);
      at := Pruned(at, name);
      assert Kids() == kids;
      assert !(name <= []);
      ok := true;
    }
  }

  /** Where a node is among its siblings. */
  lemma PlaceOf(at: map<Path, Node>, kids: map<Path, seq<Node>>, name: Path) returns (k: nat)
    requires Tree(at, kids) && name in at && name != []
    ensures var p := Parent(name);
            && p in at && p in kids && at[name].up == at[p]
            && k < |kids[p]| && kids[p][k] == at[name]
            && forall i :: 0 <= i < k ==> kids[p][i] != at[name]
  {
    var p := Parent(name);
    assert Child(at, kids, name) && Branches(at, kids, p);
    k :| 0 <= k < |kids[p]| && kids[p][k] == at[name];
  }

  /** The first `n` nodes on the way to a name, where they are missing. */
  ghost function WithPath(m: map<Path, Option<Data>>, name: Path, n: nat): map<Path, Option<Data>>
    requires n <= |name|
  {
    if n == 0 then m
    else
      var before := WithPath(m, name, n - 1);
      if name[..n] in before then before else before[name[..n] := None]
  }

  ghost function Inserted(m: map<Path, Option<Data>>, name: Path, data: Option<Data>): map<Path, Option<Data>> {
    WithPath(m, name, |name|)[name := data]
  }

  /** Inserting changes what is at the name and nothing else there was; what is new besides lies on the
      way to the name, and has no data. */
  lemma InsertedIs(m: map<Path, Option<Data>>, name: Path, data: Option<Data>)
    requires [] in m
    ensures var after := Inserted(m, name, data);
            && after[name] == data
            && (forall p :: p in after <==> p in m || p <= name)
            && (forall p :: p in m && p != name ==> after[p] == m[p])
            && (forall p :: p in after && p !in m && p != name ==> after[p] == None)
  {
    WithPathIs(m, name, |name|);
    forall p | p <= name ensures p in WithPath(m, name, |name|) {
      assert p == name[..|p|];
    }
  }

  lemma {:induction false} WithPathIs(m: map<Path, Option<Data>>, name: Path, n: nat)
    requires [] in m && n <= |name|
    ensures var after := WithPath(m, name, n);
            && (forall i :: 0 <= i <= n ==> name[..i] in after)
            && (forall p :: p in after ==> p in m || p <= name)
            && (forall p :: p in m ==> p in after && after[p] == m[p])
            && (forall p :: p in after && p !in m ==> after[p] == None)
  {
    if n == 0 {
      assert name[..0] == [];
    } else {
      WithPathIs(m, name, n - 1);
    }
  }

  /** Removing undoes inserting at a name that led nowhere before, but for the nodes on the way to it. */
  lemma RemoveUndoesInsert(m: map<Path, Option<Data>>, name: Path, data: Option<Data>)
    requires [] in m && name != []
    requires forall p :: p in m ==> !(name <= p)
    ensures Pruned(Inserted(m, name, data), name) == WithPath(m, name, |name| - 1)
  {
    var before := WithPath(m, name, |name| - 1);
    OnlyShorter(m, name, |name| - 1);
    assert name[..|name|] == name && name <= name;
    assert Inserted(m, name, data) == before[name := data];
    PrunedLast(before, name, data);
  }

  lemma PrunedLast(m: map<Path, Option<Data>>, name: Path, data: Option<Data>)
    requires forall p :: p in m ==> !(name <= p)
    ensures Pruned(m[name := data], name) == m
  {
  }

  lemma {:induction false} OnlyShorter(m: map<Path, Option<Data>>, name: Path, n: nat)
    requires n < |name| && forall p :: p in m ==> !(name <= p)
    ensures forall p :: p in WithPath(m, name, n) ==> !(name <= p)
  {
    if n > 0 { OnlyShorter(m, name, n - 1); }
  }

  lemma {:induction false} SameDepth<V, W>(a: map<Path, V>, b: map<Path, W>, name: Path)
    requires a.Keys == b.Keys
    ensures Depth(a, name) == Depth(b, name)
  {
    if name != [] && name !in a {
      assert name !in b.Keys;
      SameDepth(a, b, Parent(name));
    } else if name in a.Keys {
      assert name in b.Keys;
    }
  }

  lemma OnePath(at: map<Path, Node>, kids: map<Path, seq<Node>>, p: Path)
    requires Tree(at, kids) && p in at
    ensures forall q :: q in at && q != p ==> at[q] != at[p]
  {
  }

  lemma FullDepth(at: map<Path, Node>, kids: map<Path, seq<Node>>, name: Path)
    requires Tree(at, kids)
    ensures Depth(at, name) == |name| <==> name in at
  {
    if name in at {
    } else if name != [] {
      assert Depth(at, Parent(name)) <= |name| - 1;
    }
  }
}
