/** The generic doubly linked list of gll.c. */
module LinkedLists {

  /** The null data pointer, which is also what failing calls return. */
  const NULL: nat := 0
  const C_OK := 0
  const C_NOK := -1

  class Node {
    var data: nat
    var prev: Node?
    var next: Node?

    /** gll_initNode */
    constructor (data: nat)
      ensures this.data == data && prev == null && next == null
    {
      this.data, prev, next := data, null, null;
    }
  }

  function InsertAt<T>(s: seq<T>, k: nat, x: T): (r: seq<T>)
    requires k <= |s|
    ensures |r| == |s| + 1 && forall y :: y in r ==> y == x || y in s
  {
    s[..k] + [x] + s[k..]
  }

  function RemoveAt<T>(s: seq<T>, k: nat): (r: seq<T>)
    requires k < |s|
    ensures |r| == |s| - 1 && forall y :: y in r ==> y in s
  {
    s[..k] + s[k + 1..]
  }

  lemma AtFront<T>(s: seq<T>, x: T)
    ensures InsertAt(s, 0, x) == [x] + s
  {
  }

  lemma AtBack<T>(s: seq<T>, x: T)
    ensures InsertAt(s, |s|, x) == s + [x]
  {
  }

  /** Where gll_add puts an element: positions past the front fall through to the end. */
  function Target(pos: int, size: nat): nat
  {
    if 0 <= pos < size then pos else size
  }

  function Reversed<T>(s: seq<T>): (r: seq<T>)
    ensures |r| == |s| && forall i :: 0 <= i < |s| ==> r[i] == s[|s| - 1 - i]
  {
    if s == [] then [] else Reversed(s[1..]) + [s[0]]
  }

  ghost function DataOf(nodes: seq<Node>): (d: seq<nat>)
    reads nodes
    ensures |d| == |nodes| && forall i :: 0 <= i < |d| ==> d[i] == nodes[i].data
  {
    seq(|nodes|, i requires 0 <= i < |nodes| reads nodes => nodes[i].data)
  }

  ghost function Prevs(nodes: seq<Node>): (d: seq<Node?>)
    reads nodes
    ensures |d| == |nodes| && forall i :: 0 <= i < |d| ==> d[i] == nodes[i].prev
  {
    seq(|nodes|, i requires 0 <= i < |nodes| reads nodes => nodes[i].prev)
  }

  ghost function Nexts(nodes: seq<Node>): (d: seq<Node?>)
    reads nodes
    ensures |d| == |nodes| && forall i :: 0 <= i < |d| ==> d[i] == nodes[i].next
  {
    seq(|nodes|, i requires 0 <= i < |nodes| reads nodes => nodes[i].next)
  }

  ghost predicate Distinct(nodes: seq<Node>)
  {
    forall i, j :: 0 <= i < j < |nodes| ==> nodes[i] != nodes[j]
  }

  /** prev and next are mutually inverse: node i is between nodes i - 1 and i + 1. */
  ghost predicate Chained(nodes: seq<Node>, prevs: seq<Node?>, nexts: seq<Node?>)
  {
    && |prevs| == |nexts| == |nodes|
    && (forall i :: 0 <= i < |nodes| ==> prevs[i] == Before(nodes, i))
    && forall i :: 0 <= i < |nodes| ==> nexts[i] == After(nodes, i)
  }

  ghost function Before(nodes: seq<Node>, i: int): Node?
    requires 0 <= i <= |nodes|
  {
    if i == 0 then null else nodes[i - 1]
  }

  ghost function After(nodes: seq<Node>, i: int): Node?
    requires -1 <= i < |nodes|
  {
    if i == |nodes| - 1 then null else nodes[i + 1]
  }

  lemma Neighbours(nodes: seq<Node>, p: seq<Node?>, n: seq<Node?>, k: nat)
    requires Chained(nodes, p, n) && k < |nodes|
    ensures |p| == |n| == |nodes| && p[k] == Before(nodes, k) && n[k] == After(nodes, k)
  {
  }

  /** Adding a node to the sequence of nodes adds its fields. */
  lemma FieldsInsert(nodes: seq<Node>, k: nat, x: Node)
    requires k <= |nodes| && x !in nodes && Distinct(nodes)
    ensures var z := InsertAt(nodes, k, x);
      && |z| == |nodes| + 1 && Prevs(z) == InsertAt(Prevs(nodes), k, x.prev)
      && Nexts(z) == InsertAt(Nexts(nodes), k, x.next)
      && DataOf(z) == InsertAt(DataOf(nodes), k, x.data) && Distinct(z)
  {
  }

  lemma FieldsRemove(nodes: seq<Node>, k: nat)
    requires k < |nodes| && Distinct(nodes)
    ensures var z := RemoveAt(nodes, k);
      && |z| == |nodes| - 1 && Prevs(z) == RemoveAt(Prevs(nodes), k) && Nexts(z) == RemoveAt(Nexts(nodes), k)
      && DataOf(z) == RemoveAt(DataOf(nodes), k) && Distinct(z)
  {
  }

  lemma SingleNode(x: Node)
    requires x.prev == null && x.next == null
    ensures Distinct([x]) && Chained([x], Prevs([x]), Nexts([x])) && DataOf([x]) == [x.data]
    ensures After([x], -1) == x && Before([x], 1) == x
  {
  }

  /** The first and the last node after an insertion or a removal. */
  lemma EndsInsert(nodes: seq<Node>, k: nat, x: Node)
    requires k <= |nodes|
    ensures After(InsertAt(nodes, k, x), -1) == if k == 0 then x else After(nodes, -1)
    ensures Before(InsertAt(nodes, k, x), |nodes| + 1) == if k == |nodes| then x else Before(nodes, |nodes|)
  {
  }

  lemma EndsRemove(nodes: seq<Node>, k: nat)
    requires k < |nodes|
    ensures After(RemoveAt(nodes, k), -1) == if k == 0 then After(nodes, 0) else After(nodes, -1)
    ensures Before(RemoveAt(nodes, k), |nodes| - 1) ==
      if k == |nodes| - 1 then Before(nodes, k) else Before(nodes, |nodes|)
  {
  }

  /** The new node x is linked in at index k. */
  lemma ChainInsert(nodes: seq<Node>, p: seq<Node?>, n: seq<Node?>, k: nat, x: Node, p1: seq<Node?>, n1: seq<Node?>)
    requires Chained(nodes, p, n) && k <= |nodes| && |p1| == |n1| == |nodes|
    requires forall i :: 0 <= i < |nodes| ==> p1[i] == if i == k then x else p[i]
    requires forall i :: 0 <= i < |nodes| ==> n1[i] == if i == k - 1 then x else n[i]
    ensures Chained(InsertAt(nodes, k, x), InsertAt(p1, k, Before(nodes, k)), InsertAt(n1, k, After(nodes, k - 1)))
  {
  }

  /** The node at index k is linked out. */
  lemma ChainRemove(nodes: seq<Node>, p: seq<Node?>, n: seq<Node?>, k: nat, p1: seq<Node?>, n1: seq<Node?>)
    requires Chained(nodes, p, n) && k < |nodes| && |p1| == |n1| == |nodes|
    requires forall i :: 0 <= i < |nodes| ==> p1[i] == if i == k + 1 then p[k] else p[i]
    requires forall i :: 0 <= i < |nodes| ==> n1[i] == if i == k - 1 then n[k] else n[i]
    ensures Chained(RemoveAt(nodes, k), RemoveAt(p1, k), RemoveAt(n1, k))
  {
  }

  class List {
    var size: int
    var first: Node?
    var last: Node?
    ghost var nodes: seq<Node>

    ghost predicate Valid()
      reads this, nodes
    {
      size == |nodes| && Whole()
    }

    /** The elements of the list. */
    ghost function Data(): (d: seq<nat>)
      reads this, nodes
      ensures |d| == |nodes| && forall i :: 0 <= i < |d| ==> d[i] == nodes[i].data
    {
      DataOf(nodes)
    }

    /** The nodes of the list are those it had, or new. */
    twostate predicate OldOrFresh(was: seq<Node>)
      reads `nodes
    {
      forall n :: n in nodes ==> n in was || fresh(n)
    }

    /** gll_init */
    constructor ()
      ensures Valid() && Data() == []
    {
      size, first, last, nodes := 0, null, null, [];
    }

    /** gll_findNode: the node at pos, walking from the nearer end; null outside the list. */
    method FindNode(pos: int) returns (node: Node?)
      requires Valid()
      ensures node == if 0 <= pos < |nodes| then nodes[pos] else null
    {
      hide Chained;
      if pos > size { return null; }
      var half := if size == 0 then 0 else (size - 1) / 2;
      var reverse := pos > half;
      var currPos := if reverse then size - 1 else 0;
      node := if reverse then last else first;
      while node != null
        invariant -1 <= currPos <= size
        invariant node == if 0 <= currPos < size then nodes[currPos] else null
        invariant if reverse then pos <= currPos || pos >= size else currPos <= pos || pos < 0
        invariant reverse ==> pos > half >= 0
        decreases if reverse then currPos + 1 else size - currPos
      {
        if currPos == pos { break; }
        Neighbours(nodes, Prevs(nodes), Nexts(nodes), currPos);
        assert node.prev == Prevs(nodes)[currPos] && node.next == Nexts(nodes)[currPos];
        node := if reverse then node.prev else node.next;
        currPos := if reverse then currPos - 1 else currPos + 1;
      }
    }

    /** gll_get */
    method Get(pos: int) returns (data: nat)
      requires Valid()
      ensures data == if 0 <= pos < |Data()| then Data()[pos] else NULL
    {
      hide Chained;
      var node := FindNode(pos);
      return if node != null then node.data else NULL;
    }

    /** gll_first */
    method First() returns (data: nat)
      requires Valid()
      ensures data == if Data() != [] then Data()[0] else NULL
    {
      hide Chained;
      return if first == null then NULL else first.data;
    }

    /** gll_last */
    method Last() returns (data: nat)
      requires Valid()
      ensures data == if Data() != [] then Data()[|Data()| - 1] else NULL
    {
      hide Chained;
      return if last == null then NULL else last.data;
    }

    /** gll_add */
    method Add(data: nat, pos: int) returns (status: int)
      requires Valid()
      modifies this, nodes
      ensures Valid() && OldOrFresh(old(nodes))
      ensures pos > old(size) ==> status == C_NOK && nodes == old(nodes) && Data() == old(Data())
      ensures pos <= old(size) ==> status == C_OK && Data() == InsertAt(old(Data()), Target(pos, old(size)), data)
    {
      hide Whole, Chained, Distinct, InsertAt, RemoveAt;
      if pos > size { return C_NOK; }
      var newNode := new Node(data);
      if size == 0 {
        first := newNode;
        last := newNode;
        nodes := [newNode];
        ShowSingle(newNode);
        size := size + 1;
        return C_OK;
      }
      var currNode := FindNode(pos);
      ghost var k := Target(pos, size);
      if currNode != null {
        LinkBefore(newNode, currNode, k);
      } else {
        LinkLast(newNode);
      }
      size := size + 1;
      status := C_OK;
    }

    /** What every change of the links establishes. */
    ghost predicate Whole()
      reads `first, `last, `nodes, nodes
    {
      && Distinct(nodes) && Chained(nodes, Prevs(nodes), Nexts(nodes))
      && first == After(nodes, -1) && last == Before(nodes, |nodes|)
    }

    lemma ShowSingle(x: Node)
      requires nodes == [x] && first == x && last == x && x.prev == null && x.next == null
      ensures Whole() && DataOf(nodes) == [x.data] == InsertAt([], 0, x.data)
    {
      SingleNode(x);
    }

    lemma ShowWhole()
      requires Whole()
      ensures Distinct(nodes) && Chained(nodes, Prevs(nodes), Nexts(nodes))
      ensures first == After(nodes, -1) && last == Before(nodes, |nodes|)
      ensures nodes != [] ==> first == nodes[0] && last == nodes[|nodes| - 1]
    {
    }

    lemma MakeWhole()
      requires Distinct(nodes) && Chained(nodes, Prevs(nodes), Nexts(nodes))
      requires first == After(nodes, -1) && last == Before(nodes, |nodes|)
      ensures Whole()
    {
    }

    /** The ghost sequence follows the links. */
    ghost method SetNodes(z: seq<Node>)
      modifies this`nodes
      ensures nodes == z && Prevs(z) == old(Prevs(z)) && Nexts(z) == old(Nexts(z)) && DataOf(z) == old(DataOf(z))
    {
      nodes := z;
    }

    /** gll_add in front of a node. */
    method LinkBefore(newNode: Node, currNode: Node, ghost k: nat)
      requires Whole() && k < |nodes| && currNode == nodes[k] && newNode !in nodes
      modifies this`first, this`nodes, nodes, newNode
      ensures Whole() && nodes == InsertAt(old(nodes), k, newNode)
      ensures DataOf(nodes) == InsertAt(old(DataOf(nodes)), k, old(newNode.data))
    {
      hide Whole, Chained, Distinct, InsertAt, RemoveAt, Prevs, Nexts, DataOf;
      ShowWhole();
      ghost var p, n := Prevs(nodes), Nexts(nodes);
      Neighbours(nodes, p, n, k);
      SpliceBefore(newNode, currNode, k);
      ChainInsert(nodes, p, n, k, newNode, Prevs(nodes), Nexts(nodes));
      FieldsInsert(nodes, k, newNode);
      EndsInsert(nodes, k, newNode);
      SetNodes(InsertAt(nodes, k, newNode));
      MakeWhole();
    }

    method SpliceBefore(newNode: Node, currNode: Node, ghost k: nat)
      requires Distinct(nodes) && k < |nodes| && currNode == nodes[k] && newNode !in nodes
      requires currNode.prev == Before(nodes, k)
      modifies this`first, nodes, newNode
      ensures first == if k == 0 then newNode else old(first)
      ensures newNode.prev == Before(nodes, k) && newNode.next == currNode && newNode.data == old(newNode.data)
      ensures Prevs(nodes) == old(Prevs(nodes))[k := newNode]
      ensures Nexts(nodes) == if k == 0 then old(Nexts(nodes)) else old(Nexts(nodes))[k - 1 := newNode]
      ensures DataOf(nodes) == old(DataOf(nodes))
    {
      hide DataOf, Prevs, Nexts;
      newNode.prev := currNode.prev;
      newNode.next := currNode;
      PointForward(newNode, currNode, k);
      PointBack(newNode, currNode, k);
    }

    /** Whatever pointed to currNode points to the new node. */
    method PointForward(newNode: Node, currNode: Node, ghost k: nat)
      requires Distinct(nodes) && k < |nodes| && currNode == nodes[k] && newNode !in nodes
      requires currNode.prev == Before(nodes, k)
      modifies this`first, nodes`next
      ensures first == if k == 0 then newNode else old(first)
      ensures newNode.next == old(newNode.next)
      ensures Nexts(nodes) == if k == 0 then old(Nexts(nodes)) else old(Nexts(nodes))[k - 1 := newNode]
      ensures Prevs(nodes) == old(Prevs(nodes)) && DataOf(nodes) == old(DataOf(nodes))
    {
      if currNode.prev == null {
        first := newNode;
      } else {
        currNode.prev.next := newNode;
      }
    }

    method PointBack(newNode: Node, currNode: Node, ghost k: nat)
      requires Distinct(nodes) && k < |nodes| && currNode == nodes[k] && newNode !in nodes
      modifies currNode`prev
      ensures Prevs(nodes) == old(Prevs(nodes))[k := newNode]
      ensures Nexts(nodes) == old(Nexts(nodes)) && DataOf(nodes) == old(DataOf(nodes))
    {
      currNode.prev := newNode;
    }

    /** The end of a list that is not empty. */
    method LinkLast(newNode: Node)
      requires Whole() && nodes != [] && newNode !in nodes && newNode.next == null
      modifies this`last, this`nodes, nodes, newNode
      ensures Whole() && nodes == InsertAt(old(nodes), |old(nodes)|, newNode)
      ensures DataOf(nodes) == InsertAt(old(DataOf(nodes)), |old(nodes)|, old(newNode.data))
    {
      hide Whole, Chained, Distinct, InsertAt, RemoveAt, Prevs, Nexts, DataOf;
      ShowWhole();
      ghost var p, n, k := Prevs(nodes), Nexts(nodes), |nodes|;
      SpliceLast(newNode);
      ChainInsert(nodes, p, n, k, newNode, Prevs(nodes), Nexts(nodes));
      FieldsInsert(nodes, k, newNode);
      EndsInsert(nodes, k, newNode);
      nodes := InsertAt(nodes, k, newNode);
      MakeWhole();
    }

    method SpliceLast(newNode: Node)
      requires Distinct(nodes) && nodes != [] && last == nodes[|nodes| - 1] && newNode !in nodes
      modifies this`last, nodes, newNode
      ensures last == newNode && newNode.prev == nodes[|nodes| - 1]
      ensures newNode.next == old(newNode.next) && newNode.data == old(newNode.data)
      ensures Prevs(nodes) == old(Prevs(nodes)) && Nexts(nodes) == old(Nexts(nodes))[|nodes| - 1 := newNode]
      ensures DataOf(nodes) == old(DataOf(nodes))
    {
      last.next := newNode;
      newNode.prev := last;
      last := newNode;
    }

    /** The front of a list that is not empty. */
    method LinkFirst(newNode: Node)
      requires Whole() && nodes != [] && newNode !in nodes && newNode.prev == null
      modifies this`first, this`nodes, nodes, newNode
      ensures Whole() && nodes == InsertAt(old(nodes), 0, newNode)
      ensures DataOf(nodes) == InsertAt(old(DataOf(nodes)), 0, old(newNode.data))
    {
      hide Whole, Chained, Distinct, InsertAt, RemoveAt, Prevs, Nexts, DataOf;
      ShowWhole();
      ghost var p, n := Prevs(nodes), Nexts(nodes);
      SpliceFirst(newNode);
      ChainInsert(nodes, p, n, 0, newNode, Prevs(nodes), Nexts(nodes));
      FieldsInsert(nodes, 0, newNode);
      EndsInsert(nodes, 0, newNode);
      nodes := InsertAt(nodes, 0, newNode);
      MakeWhole();
    }

    method SpliceFirst(newNode: Node)
      requires Distinct(nodes) && nodes != [] && first == nodes[0] && newNode !in nodes
      modifies this`first, nodes, newNode
      ensures first == newNode && newNode.next == nodes[0]
      ensures newNode.prev == old(newNode.prev) && newNode.data == old(newNode.data)
      ensures Prevs(nodes) == old(Prevs(nodes))[0 := newNode] && Nexts(nodes) == old(Nexts(nodes))
      ensures DataOf(nodes) == old(DataOf(nodes))
    {
      first.prev := newNode;
      newNode.next := first;
      first := newNode;
    }

    /** gll_push */
    method Push(data: nat) returns (status: int)
      requires Valid()
      modifies this, nodes
      ensures Valid() && OldOrFresh(old(nodes)) && status == C_OK && Data() == [data] + old(Data())
    {
      hide Whole, Chained, Distinct, InsertAt;
      ghost var was := Data();
      var newNode := new Node(data);
      if size == 0 {
        last := newNode;
        first := newNode;
        nodes := [newNode];
        ShowSingle(newNode);
      } else {
        LinkFirst(newNode);
      }
      size := size + 1;
      AtFront(was, data);
      return C_OK;
    }

    /** gll_pushBack */
    method PushBack(data: nat) returns (status: int)
      requires Valid()
      modifies this, nodes
      ensures Valid() && OldOrFresh(old(nodes)) && status == C_OK && Data() == old(Data()) + [data]
    {
      hide Whole, Chained, Distinct, InsertAt;
      ghost var was := Data();
      var newNode := new Node(data);
      if size == 0 {
        first := newNode;
        last := newNode;
        nodes := [newNode];
        ShowSingle(newNode);
      } else {
        LinkLast(newNode);
      }
      size := size + 1;
      AtBack(was, data);
      return C_OK;
    }

    /** gll_set */
    method Set(data: nat, pos: int) returns (oldData: nat)
      requires Valid()
      modifies nodes
      ensures Valid()
      ensures if 0 <= pos < |old(Data())| then oldData == old(Data())[pos] && Data() == old(Data())[pos := data]
              else oldData == NULL && Data() == old(Data())
    {
      hide Chained;
      var currNode := FindNode(pos);
      if currNode == null { return NULL; }
      ghost var p, n, d := Prevs(nodes), Nexts(nodes), Data();
      oldData := currNode.data;
      currNode.data := data;
      assert Prevs(nodes) == p && Nexts(nodes) == n;
      assert Data() == d[pos := data];
    }

    /** gll_remove */
    method Remove(pos: int) returns (data: nat)
      requires Valid()
      modifies this, nodes
      ensures Valid() && OldOrFresh(old(nodes))
      ensures if 0 <= pos < |old(Data())| then data == old(Data())[pos] && Data() == RemoveAt(old(Data()), pos)
              else data == NULL && Data() == old(Data())
    {
      hide Whole, Chained, Distinct, InsertAt, RemoveAt;
      var currNode := FindNode(pos);
      if currNode == null { return NULL; }
      data := currNode.data;
      Unlink(currNode, pos);
      size := size - 1;
    }

    /** gll_remove once the node is found. */
    method Unlink(currNode: Node, ghost k: nat)
      requires Whole() && k < |nodes| && currNode == nodes[k]
      modifies this`first, this`last, this`nodes, nodes
      ensures Whole() && nodes == RemoveAt(old(nodes), k)
      ensures DataOf(nodes) == RemoveAt(old(DataOf(nodes)), k)
    {
      hide Whole, Chained, Distinct, InsertAt, RemoveAt, Prevs, Nexts, DataOf;
      ShowWhole();
      ghost var p, n := Prevs(nodes), Nexts(nodes);
      Neighbours(nodes, p, n, k);
      SpliceOut(currNode, k);
      ChainRemove(nodes, p, n, k, Prevs(nodes), Nexts(nodes));
      FieldsRemove(nodes, k);
      EndsRemove(nodes, k);
      nodes := RemoveAt(nodes, k);
      MakeWhole();
    }

    method SpliceOut(currNode: Node, ghost k: nat)
      requires Distinct(nodes) && k < |nodes| && currNode == nodes[k]
      requires currNode.prev == Before(nodes, k) && currNode.next == After(nodes, k)
      modifies this`first, this`last, nodes
      ensures first == if k == 0 then After(nodes, 0) else old(first)
      ensures last == if k == |nodes| - 1 then Before(nodes, k) else old(last)
      ensures Prevs(nodes) ==
        if k == |nodes| - 1 then old(Prevs(nodes)) else old(Prevs(nodes))[k + 1 := Before(nodes, k)]
      ensures Nexts(nodes) == if k == 0 then old(Nexts(nodes)) else old(Nexts(nodes))[k - 1 := After(nodes, k)]
      ensures DataOf(nodes) == old(DataOf(nodes))
    {
      if currNode.prev == null {
        first := currNode.next;
      } else {
        currNode.prev.next := currNode.next;
      }
      if currNode.next == null {
        last := currNode.prev;
      } else {
        currNode.next.prev := currNode.prev;
      }
    }

    /** gll_pop */
    method Pop() returns (data: nat)
      requires Valid()
      modifies this, nodes
      ensures Valid()
      ensures if old(Data()) == [] then data == NULL && Data() == []
              else data == old(Data())[0] && Data() == old(Data())[1..]
    {
      hide Whole, Chained, Distinct, Prevs, Nexts;
      ShowWhole();
      if first == null { return NULL; }
      data := first.data;
      var removed := Remove(0);
      if removed == NULL { return NULL; }
    }

    /** gll_popBack */
    method PopBack() returns (data: nat)
      requires Valid()
      modifies this, nodes
      ensures Valid()
      ensures if old(Data()) == [] then data == NULL && Data() == []
              else data == old(Data())[|old(Data())| - 1] && Data() == old(Data())[..|old(Data())| - 1]
    {
      hide Whole, Chained, Distinct, Prevs, Nexts;
      ShowWhole();
      if last == null { return NULL; }
      data := last.data;
      var removed := Remove(size - 1);
      if removed == NULL { return NULL; }
    }

    /** gll_each: what the function that it is given sees. */
    method Each() returns (seen: seq<nat>)
      requires Valid()
      ensures seen == Data()
    {
      hide Chained;
      seen := [];
      var currNode := first;
      ghost var i := 0;
      while currNode != null
        invariant 0 <= i <= |nodes| && seen == Data()[..i]
        invariant currNode == if i < |nodes| then nodes[i] else null
        decreases |nodes| - i
      {
        seen := seen + [currNode.data];
        Neighbours(nodes, Prevs(nodes), Nexts(nodes), i);
        assert currNode.next == Nexts(nodes)[i];
        currNode := currNode.next;
        i := i + 1;
      }
    }

    /** gll_eachReverse */
    method EachReverse() returns (seen: seq<nat>)
      requires Valid()
      ensures seen == Reversed(Data())
    {
      hide Chained;
      seen := [];
      var currNode := last;
      ghost var i := |nodes|;
      while currNode != null
        invariant 0 <= i <= |nodes| && |seen| == |nodes| - i
        invariant forall j :: 0 <= j < |seen| ==> seen[j] == Data()[|nodes| - 1 - j]
        invariant currNode == if i > 0 then nodes[i - 1] else null
        decreases i
      {
        seen := seen + [currNode.data];
        Neighbours(nodes, Prevs(nodes), Nexts(nodes), i - 1);
        assert currNode.prev == Prevs(nodes)[i - 1];
        currNode := currNode.prev;
        i := i - 1;
      }
    }

    /** gll_clear */
    method Clear()
      requires Valid()
      modifies this
      ensures Valid() && Data() == []
    {
      first := null;
      last := null;
      size := 0;
      nodes := [];
    }
  }
}
