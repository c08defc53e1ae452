/** The doubly linked list between two sentinels. A list's chain is the head sentinel, the data nodes
    and the tail sentinel, in order. */
module LinkedLists {
  import opened Wrappers

  /** What a node points at; sentinels have data too, but nobody asks for it. */
  type Data = int

  class Node {
    var list: List?
    var prev: Node?
    var next: Node?
    var data: Data

    constructor (data: Data)
      ensures this.data == data && list == null
    {
      this.data, list, prev, next := data, null, null, null;
    }
  }

  function At(chain: seq<Node>, i: int): Node? {
    if 0 <= i < |chain| then chain[i] else null
  }

  lemma AtIs(chain: seq<Node>, i: int)
    ensures At(chain, i) == if 0 <= i < |chain| then chain[i] else null
  {
  }

  lemma AtSlice(chain: seq<Node>, lo: int, hi: int, i: int)
    requires 0 <= lo <= hi <= |chain|
    ensures 0 <= i < hi - lo ==> At(chain[lo..hi], i) == At(chain, lo + i) == chain[lo..hi][i] == chain[lo + i]
  {
  }

  lemma AtConcat(a: seq<Node>, b: seq<Node>, i: int)
    ensures 0 <= i < |a| ==> At(a + b, i) == At(a, i) == (a + b)[i] == a[i]
    ensures 0 <= i < |b| ==> At(a + b, |a| + i) == At(b, i) == (a + b)[|a| + i] == b[i]
  {
  }

  ghost predicate Distinct(chain: seq<Node>) {
    forall i, j :: 0 <= i < j < |chain| ==> chain[i] != chain[j]
  }

  /** Each node points at its neighbours; where the first one's `prev` and the last one's `next`
      point is left open. */
  ghost predicate Links(chain: seq<Node>)
    reads chain
  {
    forall i :: 0 <= i < |chain| ==>
      && (i < |chain| - 1 ==> chain[i].next == At(chain, i + 1))
      && (i > 0 ==> chain[i].prev == At(chain, i - 1))
  }

  lemma LinksSlice(chain: seq<Node>, lo: int, hi: int)
    requires 0 <= lo <= hi <= |chain| && Links(chain)
    ensures Links(chain[lo..hi])
  {
    hide At;
    var part := chain[lo..hi];
    forall i | 0 <= i < |part|
      ensures i < |part| - 1 ==> part[i].next == At(part, i + 1)
      ensures i > 0 ==> part[i].prev == At(part, i - 1)
    {
      AtSlice(chain, lo, hi, i);
      AtSlice(chain, lo, hi, i + 1);
      AtSlice(chain, lo, hi, i - 1);
      var j := lo + i;
      assert i < |part| - 1 ==> chain[j].next == At(chain, j + 1);
      assert i > 0 ==> chain[j].prev == At(chain, j - 1);
    }
  }

  lemma LinksGlue(a: seq<Node>, b: seq<Node>)
    requires a != [] && b != [] && Links(a) && Links(b)
    requires a[|a| - 1].next == b[0] && b[0].prev == a[|a| - 1]
    ensures Links(a + b)
  {
    hide At;
    var chain := a + b;
    forall i | 0 <= i < |chain|
      ensures i < |chain| - 1 ==> chain[i].next == At(chain, i + 1)
      ensures i > 0 ==> chain[i].prev == At(chain, i - 1)
    {
      if i < |a| {
        AtConcat(a, b, i);
        AtConcat(a, b, i + 1);
        AtConcat(a, b, i - 1);
        AtConcat(a, b, 0);
        AtIs(b, 0);
        assert i < |a| - 1 ==> a[i].next == At(a, i + 1);
        assert i > 0 ==> a[i].prev == At(a, i - 1);
      } else {
        var j := i - |a|;
        AtConcat(a, b, j);
        AtConcat(a, b, j + 1);
        AtConcat(a, b, j - 1);
        AtConcat(a, b, |a| - 1);
        AtIs(a, |a| - 1);
        assert j < |b| - 1 ==> b[j].next == At(b, j + 1);
        assert j > 0 ==> b[j].prev == At(b, j - 1);
      }
    }
  }

  twostate lemma LinksKept(chain: seq<Node>)
    requires old(Links(chain))
    requires forall i :: 0 <= i < |chain| - 1 ==> chain[i].next == old(chain[i].next)
    requires forall i :: 0 < i < |chain| ==> chain[i].prev == old(chain[i].prev)
    ensures Links(chain)
  {
  }

  function Newcomers(chain: seq<Node>, was: seq<Node>): set<Node> {
    set n | n in chain && n !in was
  }

  class List {
    const head: Node
    const tail: Node
    var size: nat
    ghost var chain: seq<Node>

    /** The list is its chain: linked both ways from sentinel to sentinel, every node with this list for
        its owner, and the size counting the data nodes. */
    ghost predicate Valid()
      reads this, chain
    {
      && |chain| >= 2 && chain[0] == head && chain[|chain| - 1] == tail
      && Distinct(chain) && Links(chain)
      && head.prev == null && tail.next == null
      && (forall i :: 0 <= i < |chain| ==> chain[i].list == this)
      && size == |chain| - 2
    }

    /** The data nodes. */
    ghost function Nodes(): seq<Node>
      requires |chain| >= 2
      reads this
    {
      chain[1..|chain| - 1]
    }

    constructor ()
      ensures Valid() && |chain| == 2 && Nodes() == [] && fresh(head) && fresh(tail) && chain == [head, tail]
    {
      head := new Node(0);
      tail := new Node(0);
      size := 0;
      new;
      head.next, tail.prev := tail, head;
      head.list, tail.list := this, this;
      head.prev, tail.next := null, null;
      chain := [head, tail];
    }

    /** A node comes to stand between two neighbours. */
    method Link(node: Node, left: Node, right: Node, ghost k: nat)
      requires Valid() && 0 < k < |chain| && left == chain[k - 1] && right == chain[k]
      requires node !in chain && node.list == this
      modifies `size, `chain, node`prev, node`next, left`next, right`prev
      ensures Valid() && chain == old(chain[..k] + [node] + chain[k..])
    {
      hide Links, At, Distinct;
      ghost var a, b := chain[..k], chain[k..];
      assert chain == a + b;
      DistinctSides(a, b);
      LinksSlice(chain, 0, k);
      LinksSlice(chain, k, |chain|);
      assert chain[0..k] == a && chain[k..|chain|] == b;
      label before:
      node.prev := left;
      node.next := right;
      node.prev.next := node;
      node.next.prev := node;
      size := size + 1;
      LinksKept@before(a);
      LinksKept@before(b);
      assert Links([node]) by { OneLinks(node); }
      LinksGlue(a, [node]);
      LinksGlue(a + [node], b);
      DistinctInsert(a, node, b);
      chain := a + [node] + b;
      forall i | 0 <= i < |chain| ensures chain[i].list == this {
        assert chain[i] in a || chain[i] == node || chain[i] in b;
      }
    }

    method CreateNode(data: Data) returns (node: Node)
      ensures fresh(node) && node.data == data && node.list == this
    {
      node := new Node(data);
      node.list := this;
    }

    method Append(data: Data) returns (node: Node)
      requires Valid()
      modifies this, chain
      ensures Valid() && fresh(node) && node.data == data && Nodes() == old(Nodes()) + [node]
    {
      hide Links, At;
      LinksEnds(chain);
      node := CreateNode(data);
      ghost var was := chain;
      Link(node, tail.prev, tail, |chain| - 1);
      assert chain == was[..|was| - 1] + [node, tail];
      assert Nodes() == was[1..|was| - 1] + [node];
    }

    method Unshift(data: Data) returns (node: Node)
      requires Valid()
      modifies this, chain
      ensures Valid() && fresh(node) && node.data == data && Nodes() == [node] + old(Nodes())
    {
      hide Links, At;
      LinksEnds(chain);
      node := CreateNode(data);
      ghost var was := chain;
      Link(node, head, head.next, 1);
      assert chain == [head, node] + was[1..];
      assert Nodes() == [node] + was[1..|was| - 1];
    }

    /** A data node drops out from between its neighbours. */
    method Unlink(left: Node, right: Node, ghost k: nat)
      requires Valid() && 0 < k < |chain| - 1 && left == chain[k - 1] && right == chain[k + 1]
      modifies `size, `chain, left`next, right`prev
      ensures Valid() && chain == old(chain[..k] + chain[k + 1..])
    {
      hide Links, At, Distinct;
      ghost var a, b := chain[..k], chain[k + 1..];
      DistinctRemove(chain, k);
      DistinctSides(a, b);
      LinksSlice(chain, 0, k);
      LinksSlice(chain, k + 1, |chain|);
      assert chain[0..k] == a && chain[k + 1..|chain|] == b;
      label before:
      left.next := right;
      right.prev := left;
      size := size - 1;
      LinksKept@before(a);
      LinksKept@before(b);
      LinksGlue(a, b);
      chain := a + b;
      assert forall i :: 0 <= i < |chain| ==> chain[i] in a || chain[i] in b;
    }

    method Shift() returns (data: Option<Data>)
      requires Valid()
      modifies this, chain
      ensures Valid()
      ensures if old(Nodes()) == [] then data == None && Nodes() == []
              else data == Some(old(Nodes()[0].data)) && Nodes() == old(Nodes())[1..]
    {
      hide Links, At, Distinct;
      LinksEnds(chain);
      if |chain| > 2 { LinksAt(chain, 1); }
      var node := head.next;
      if node.prev != null && node.next != null {
        data := Some(node.data);
        Unlink(head, node.next, 1);
        assert Nodes() == old(Nodes())[1..];
      } else {
        data := None;
      }
    }

    method Pop() returns (data: Option<Data>)
      requires Valid()
      modifies this, chain
      ensures Valid()
      ensures var n := |old(Nodes())| - 1;
              if n < 0 then data == None && Nodes() == []
              else data == Some(old(Nodes()[|Nodes()| - 1].data)) && Nodes() == old(Nodes())[..n]
    {
      hide Links, At, Distinct;
      LinksEnds(chain);
      if |chain| > 2 { LinksAt(chain, |chain| - 2); }
      var node := tail.prev;
      if node.prev != null && node.next != null {
        assert node == Nodes()[|Nodes()| - 1];
        data := Some(node.data);
        Unlink(node.prev, tail, |chain| - 2);
        assert Nodes() == old(Nodes())[..|old(Nodes())| - 1];
      } else {
        data := None;
      }
    }

    /** The nodes from `start` to `end` come behind the data nodes, and to this list. */
    method AppendFragment(start: Node, end: Node, ghost frag: seq<Node>) returns (count: nat)
      requires Valid() && frag != [] && start == frag[0] && end == frag[|frag| - 1]
      requires Links(frag) && Distinct(frag) && forall n :: n in frag ==> n !in chain
      modifies `size, `chain, chain`next, chain`prev, frag`next, frag`prev, frag`list
      ensures Valid() && chain == old(chain[..|chain| - 1] + frag + [tail])
      ensures count == |frag|
    {
      hide Links, At, Distinct;
      ghost var was, a := chain, chain[..|chain| - 1];
      LinksEnds(chain);
      assert a + [tail] == was;
      DistinctFragment(a, frag, tail);
      FragmentEnds(was);
      label before:
      count := TakeOver(start, end, frag);
      forall i | 0 <= i < |was| ensures was[i] !in frag && was[i] in was {}
      LinksKept@before(was);
      Attach(start, end, was[|was| - 2], was, frag);
      size := size + count;
      chain := a + frag + [tail];
      forall i | 0 <= i < |chain| ensures chain[i].list == this {
        assert chain[i] in a || chain[i] in frag || chain[i] == tail;
        assert chain[i] in a ==> chain[i] in was;
      }
    }

    /** Links a fragment in between the last node and the tail sentinel. */
    method Attach(start: Node, end: Node, ghost left: Node, ghost was: seq<Node>, ghost frag: seq<Node>)
      requires |was| >= 2 && Links(was) && was[|was| - 1] == tail && was[|was| - 2] == left
      requires frag != [] && Links(frag) && start == frag[0] && end == frag[|frag| - 1]
      requires Distinct(was[..|was| - 1] + frag + [tail])
      modifies start`prev, end`next, left`next, tail`prev
      ensures Links(was[..|was| - 1] + frag + [tail])
    {
      hide Links, At, Distinct;
      ghost var a := was[..|was| - 1];
      LinksSlice(was, 0, |a|);
      LinksEnds(was);
      assert was[0..|a|] == a;
      DistinctParts(a, frag, tail);
      label before:
      start.prev := tail.prev;
      end.next := tail;
      tail.prev.next := start;
      tail.prev := end;
      LinksKept@before(a);
      LinksKept@before(frag);
      assert Links([tail]) by { OneLinks(tail); }
      LinksGlue(a, frag);
      LinksGlue(a + frag, [tail]);
    }

    /** Detaches a fragment from where it was, counts its nodes and makes this list their owner. */
    method TakeOver(start: Node, end: Node, ghost frag: seq<Node>) returns (count: nat)
      requires frag != [] && start == frag[0] && end == frag[|frag| - 1] && Links(frag) && Distinct(frag)
      modifies frag`next, frag`prev, frag`list
      ensures Links(frag) && count == |frag| && forall n :: n in frag ==> n.list == this
    {
      hide Links, At, Distinct;
      FragmentEnds(frag);
      label before:
      start.prev := null;
      end.next := null;
      LinksKept@before(frag);
      count := Own(start, frag);
      LinksKept@before(frag);
    }

    /** Counts the nodes of a fragment and makes this list their owner. */
    method Own(start: Node, ghost frag: seq<Node>) returns (count: nat)
      requires frag != [] && Links(frag) && Distinct(frag) && start == frag[0]
      requires frag[|frag| - 1].next == null
      modifies frag`list
      ensures count == |frag| && forall n :: n in frag ==> n.list == this
    {
      hide Links, At;
      AtIs(frag, 0);
      var w: Node? := start;
      count := 0;
      while w != null
        invariant 0 <= count <= |frag| && w == At(frag, count)
        invariant Links(frag) && frag[|frag| - 1].next == null
        invariant forall i :: 0 <= i < count ==> frag[i].list == this
        decreases |frag| - count
      {
        AtIs(frag, count);
        LinksNext(frag, count);
        count := count + 1;
        label before:
        w.list := this;
        LinksKept@before(frag);
        w := w.next;
      }
      AtIs(frag, count);
    }

    /** Cuts the chain in front of `at`: the tail sentinel closes the gap, and the nodes from `at` on are a
        fragment of their own. */
    method CutTail(at: Node, ghost k: nat) returns (end: Node, ghost frag: seq<Node>)
      requires Valid() && 0 < k < |chain| - 1 && at == chain[k]
      modifies `chain, chain`next, chain`prev
      ensures frag == old(chain)[k..|old(chain)| - 1] && frag != [] && end == frag[|frag| - 1]
      ensures chain == old(chain)[..k] + [tail]
      ensures Links(frag) && Links(chain) && Distinct(frag) && Distinct(chain) && forall n :: n in frag ==> n !in chain
      ensures head.prev == null && tail.next == null
    {
      hide Links, At, Distinct;
      ghost var a := chain[..k];
      frag := chain[k..|chain| - 1];
      LinksEnds(chain);
      LinksAt(chain, k);
      LinksSlice(chain, 0, k);
      assert chain[0..k] == a;
      LinksSlice(chain, k, |chain| - 1);
      assert a + frag + [tail] == chain;
      DistinctParts(a, frag, tail);
      DistinctPieces(a, frag, tail);
      label before:
      end := tail.prev;
      at.prev.next := tail;
      tail.prev := at.prev;
      LinksKept@before(a);
      LinksKept@before(frag);
      assert Links([tail]) by { OneLinks(tail); }
      LinksGlue(a, [tail]);
      chain := a + [tail];
    }

    /** Moves the nodes from `at` on to an empty list. */
    method MoveTail(ret: List, at: Node, ghost k: nat)
      requires Valid() && 0 < k < |chain| - 1 && at == chain[k]
      requires ret.Valid() && ret != this && |ret.chain| == 2
      modifies `size, `chain, chain`next, chain`prev, chain`list
      modifies ret`size, ret`chain, ret.chain`next, ret.chain`prev
      ensures Valid() && chain == old(chain)[..k] + [tail]
      ensures ret.Valid() && ret.chain == [ret.head] + old(chain)[k..|old(chain)| - 1] + [ret.tail]
    {
      hide Links, At, Distinct;
      ghost var was, other := chain, ret.chain;
      forall i, j | 0 <= i < |was| && 0 <= j < |other| ensures was[i] != other[j] {
        assert was[i].list == this && other[j].list == ret;
      }
      label start:
      var end, frag := CutTail(at, k);
      assert forall n :: n in frag ==> n in was;
      assert forall n :: n in chain ==> n in was;
      LinksKept@start(other);
      forall i | 0 <= i < |chain| ensures chain[i] !in other && chain[i] !in frag && chain[i].list == this {
        assert chain[i] in was;
      }
      assert head == chain[0] && tail == chain[|chain| - 1];
      label cut:
      var count := ret.AppendFragment(at, end, frag);
      size := size - count;
      LinksKept@cut(chain);
    }

    /** Splits the list in front of the node an iterator is on: this list keeps the nodes before it, and
        the new list gets it and those behind it. On a sentinel there is nothing to split off. */
    method Split(at: Node, ghost k: nat) returns (ret: List)
      requires Valid() && k < |chain| && at == chain[k]
      modifies this, chain`next, chain`prev, chain`list
      ensures Valid() && ret.Valid() && fresh(ret)
      ensures if 0 < k < |old(chain)| - 1
              then Nodes() == old(Nodes())[..k - 1] && ret.Nodes() == old(Nodes())[k - 1..]
              else Nodes() == old(Nodes()) && ret.Nodes() == []
      ensures Newcomers(chain, old(chain)) == {} && fresh(Newcomers(ret.chain, old(chain)))
    {
      hide Valid, Newcomers;
      DataNodes(at, k);
      ghost var was := chain;
      ret := new List();
      ret.Sentinels();
      NoNewcomers(was);
      if at.prev != null && at.next != null {
        MoveTail(ret, at, k);
        NewcomersAre(was, k, ret.head, ret.tail);
      } else {
        NewcomersTwo(was, ret.head, ret.tail);
      }
    }

    /** The nodes that have neighbours on both sides are the data nodes. */
    lemma DataNodes(at: Node, k: nat)
      requires Valid() && k < |chain| && at == chain[k]
      ensures |chain| >= 2 && chain[|chain| - 1] == tail
      ensures at.prev != null && at.next != null <==> 0 < k < |chain| - 1
    {
      hide Links, At, Distinct;
      if 0 < k < |chain| - 1 { LinksAt(chain, k); }
    }

    lemma Sentinels()
      requires Valid()
      ensures |chain| >= 2 && |Nodes()| == |chain| - 2
      ensures Nodes() == [] ==> chain == [head, tail]
    {
      hide Links, At, Distinct;
    }

    /** Takes over all nodes of another list, which is left without any. */
    method Join(src: List)
      requires Valid() && src.Valid() && src != this
      modifies this, src, chain`next, chain`prev, chain`list, src.chain`next, src.chain`prev, src.chain`list
      ensures Valid() && Nodes() == old(Nodes()) + old(src.Nodes())
    {
      hide Links, At, Distinct;
      LinksEnds(src.chain);
      var start, end := src.head.next, src.tail.prev;
      if src.size > 0 {
        ghost var from := src.chain;
        ghost var frag := from[1..|from| - 1];
        LinksSlice(from, 1, |from| - 1);
        assert from == [src.head] + frag + [src.tail];
        DistinctParts([src.head], frag, src.tail);
        DistinctPieces([src.head], frag, src.tail);
        label before:
        src.head.next := src.tail;
        src.tail.prev := src.head;
        src.size := 0;
        LinksKept@before(frag);
        LinksKept@before(chain);
        forall n | n in frag ensures n !in chain { assert n in from; }
        var count := AppendFragment(start, end, frag);
      }
    }

    /** Splitting and joining again restores the list, node by node. */
    method SplitAndJoin(at: Node, ghost k: nat)
      requires Valid() && k < |chain| && at == chain[k]
      modifies this, chain`next, chain`prev, chain`list
      ensures Valid() && Nodes() == old(Nodes())
    {
      hide Valid, Links, At, Distinct;
      ghost var was := chain;
      var rest := Split(at, k);
      assert forall n :: n in chain && n !in was ==> n in Newcomers(chain, was);
      assert forall n :: n in rest.chain && n !in was ==> n in Newcomers(rest.chain, was);
      assert forall i :: 0 <= i < |rest.chain| ==> rest.chain[i] in old(chain) || fresh(rest.chain[i]);
      assert forall i :: 0 <= i < |chain| ==> chain[i] in old(chain);
      Join(rest);
    }
  }

  /** An iterator is on some node of its list's chain. */
  class ListIterator {
    const list: List
    var current: Node
    ghost var k: nat

    ghost predicate Valid()
      reads this, list, list.chain
    {
      list.Valid() && k < |list.chain| && current == list.chain[k]
    }

    constructor (list: List)
      requires list.Valid()
      ensures Valid() && this.list == list && k == 0
    {
      this.list, current, k := list, list.head, 0;
    }

    method HasNext() returns (has: bool)
      requires Valid()
      ensures has <==> k + 1 < |list.chain| - 1
    {
      if k + 2 < |list.chain| { LinksAt(list.chain, k + 1); }
      LinksFrom(list.chain, k);
      has := current.next != null && current.next.next != null && current.next.prev != null;
    }

    /** The next data node, if there is one; otherwise the iterator stays where it is. */
    method Next() returns (data: Option<Data>)
      requires Valid()
      modifies this
      ensures Valid()
      ensures if old(k) + 1 < |list.chain| - 1
              then k == old(k) + 1 && data == Some(list.chain[k].data)
              else k == old(k) && data == None
    {
      hide Links, At, Distinct;
      var has := HasNext();
      data := None;
      if has {
        LinksFrom(list.chain, k);
        current, k := current.next, k + 1;
        data := Some(current.data);
      }
    }

    /** Inserts behind the current node, and moves there; nothing goes behind the tail sentinel. */
    method Insert(data: Data) returns (ok: bool)
      requires Valid()
      modifies this`current, this`k, list, list.chain
      ensures Valid()
      ensures ok <==> old(k) < |old(list.chain)| - 1
      ensures ok ==> k == old(k) + 1 && current.data == data && fresh(current)
                     && list.chain == old(list.chain)[..old(k) + 1] + [current] + old(list.chain)[old(k) + 1..]
      ensures !ok ==> list.chain == old(list.chain) && k == old(k)
    {
      hide Links, At, Distinct;
      ok := false;
      LinksFrom(list.chain, k);
      if current.next != null {
        var node := list.CreateNode(data);
        list.Link(node, current, current.next, k + 1);
        current, k := node, k + 1;
        ok := true;
      }
    }

    /** Removes the current data node, and moves to the one behind it. */
    method Remove()
      requires Valid()
      modifies this`current, list, list.chain
      ensures Valid() && k == old(k)
      ensures list.chain == if 0 < k < |old(list.chain)| - 1
                            then old(list.chain[..k] + list.chain[k + 1..]) else old(list.chain)
    {
      hide Links, At;
      LinksFrom(list.chain, k);
      if current.next != null && current.prev != null {
        var node := current;
        list.Unlink(node.prev, node.next, k);
        current := node.next;
      }
    }
  }

  lemma LinksFrom(chain: seq<Node>, k: nat)
    requires k < |chain| && Links(chain)
    ensures k < |chain| - 1 ==> chain[k].next == chain[k + 1]
    ensures k > 0 ==> chain[k].prev == chain[k - 1]
  {
  }

  lemma NoNewcomers(was: seq<Node>)
    ensures Newcomers(was, was) == {}
  {
  }

  lemma NewcomersAre(was: seq<Node>, k: nat, head: Node, tail: Node)
    requires 0 < k < |was| - 1
    ensures Newcomers(was[..k] + [was[|was| - 1]], was) == {}
    ensures Newcomers([head] + was[k..|was| - 1] + [tail], was) <= {head, tail}
  {
  }

  lemma NewcomersTwo(was: seq<Node>, head: Node, tail: Node)
    ensures Newcomers([head, tail], was) <= {head, tail}
  {
  }

  lemma DistinctPieces(a: seq<Node>, frag: seq<Node>, tail: Node)
    requires Distinct(a + frag + [tail])
    ensures Distinct(a + [tail]) && Distinct(frag) && forall n :: n in frag ==> n !in a + [tail]
  {
    var b, c := a + [tail], a + frag + [tail];
    forall i, j | 0 <= i < j < |b| ensures b[i] != b[j] {
      assert b[i] == c[i];
      assert b[j] == if j < |a| then c[j] else c[|a| + |frag|];
    }
    forall i, j | 0 <= i < j < |frag| ensures frag[i] != frag[j] {
      assert c[|a| + i] == frag[i] && c[|a| + j] == frag[j];
    }
    forall i, j | 0 <= i < |frag| && 0 <= j < |b| ensures frag[i] != b[j] {
      assert c[|a| + i] == frag[i];
      assert b[j] == if j < |a| then c[j] else c[|a| + |frag|];
    }
  }

  lemma DistinctFragment(a: seq<Node>, frag: seq<Node>, tail: Node)
    requires Distinct(a + [tail]) && Distinct(frag) && forall n :: n in frag ==> n !in a + [tail]
    ensures Distinct(a + frag + [tail])
  {
    var b, c := a + [tail], a + frag + [tail];
    forall i, j | 0 <= i < j < |c| ensures c[i] != c[j] {
      var inI, inJ := |a| <= i < |a| + |frag|, |a| <= j < |a| + |frag|;
      assert inI ==> c[i] == frag[i - |a|] && c[i] !in b;
      assert inJ ==> c[j] == frag[j - |a|] && c[j] !in b;
      assert !inI ==> c[i] == b[if i < |a| then i else |a|] && c[i] in b;
      assert !inJ ==> c[j] == b[if j < |a| then j else |a|] && c[j] in b;
    }
  }

  /** Only the ends of `a` and of the fragment are among the ends. */
  lemma DistinctParts(a: seq<Node>, frag: seq<Node>, tail: Node)
    requires a != [] && frag != [] && Distinct(a + frag + [tail])
    ensures forall i :: 0 <= i < |a| ==> a[i] != tail && a[i] !in frag
    ensures forall i :: 0 <= i < |a| - 1 ==> a[i] != a[|a| - 1]
    ensures forall i :: 0 <= i < |frag| ==> frag[i] != tail && frag[i] !in a
    ensures forall i :: 0 <= i < |frag| - 1 ==> frag[i] != frag[|frag| - 1]
    ensures forall i :: 0 < i < |frag| ==> frag[i] != frag[0]
  {
    var c := a + frag + [tail];
    assert forall i :: 0 <= i < |a| ==> c[i] == a[i];
    assert forall i :: 0 <= i < |frag| ==> c[|a| + i] == frag[i];
    assert c[|a| + |frag|] == tail;
    forall i, j | 0 <= i < |a| && 0 <= j < |frag| ensures a[i] != frag[j] {
      assert c[i] != c[|a| + j];
    }
    forall i, j | 0 <= i < j < |frag| ensures frag[i] != frag[j] {
      assert c[|a| + i] != c[|a| + j];
    }
  }

  lemma DistinctSides(a: seq<Node>, b: seq<Node>)
    requires a != [] && b != [] && Distinct(a + b)
    ensures forall i :: 0 <= i < |a| ==> a[i] != b[0]
    ensures forall i :: 0 <= i < |b| ==> b[i] != a[|a| - 1]
    ensures forall i :: 0 <= i < |a| - 1 ==> a[i] != a[|a| - 1]
    ensures forall i :: 0 < i < |b| ==> b[i] != b[0]
  {
    var c := a + b;
    assert forall i :: 0 <= i < |a| ==> c[i] == a[i];
    forall i | 0 <= i < |b| ensures b[i] != a[|a| - 1] && (i > 0 ==> b[i] != b[0]) {
      assert c[|a| + i] == b[i] && c[|a| + 0] == b[0];
    }
    assert c[|a|] == b[0];
  }

  lemma FragmentEnds(frag: seq<Node>)
    requires frag != [] && Distinct(frag)
    ensures forall i :: 0 <= i < |frag| - 1 ==> frag[i] != frag[|frag| - 1]
    ensures forall i :: 0 < i < |frag| ==> frag[i] != frag[0]
  {
  }

  lemma LinksNext(chain: seq<Node>, k: nat)
    requires k < |chain| && Links(chain) && chain[|chain| - 1].next == null
    ensures chain[k].next == At(chain, k + 1)
  {
  }

  /** The ends' only neighbours. */
  lemma LinksEnds(chain: seq<Node>)
    requires |chain| >= 2 && Links(chain)
    ensures chain[0].next == chain[1] && chain[|chain| - 1].prev == chain[|chain| - 2]
  {
  }

  lemma LinksAt(chain: seq<Node>, k: nat)
    requires 0 < k < |chain| - 1 && Links(chain)
    ensures chain[k].prev == chain[k - 1] && chain[k].next == chain[k + 1]
  {
  }

  lemma DistinctRemove(c: seq<Node>, k: nat)
    requires k < |c| && Distinct(c)
    ensures Distinct(c[..k] + c[k + 1..])
  {
    var d := c[..k] + c[k + 1..];
    forall i, j | 0 <= i < j < |d| ensures d[i] != d[j] {
      assert d[i] == c[if i < k then i else i + 1];
      assert d[j] == c[if j < k then j else j + 1];
    }
  }

  lemma DistinctInsert(a: seq<Node>, node: Node, b: seq<Node>)
    requires Distinct(a + b) && node !in a + b
    ensures Distinct(a + [node] + b)
  {
    var c, d := a + b, a + [node] + b;
    forall i, j | 0 <= i < j < |d| ensures d[i] != d[j] {
      assert i != |a| ==> d[i] == c[if i < |a| then i else i - 1];
      assert j != |a| ==> d[j] == c[if j < |a| then j else j - 1];
    }
  }

  lemma OneLinks(node: Node)
    ensures Links([node])
  {
  }
}
