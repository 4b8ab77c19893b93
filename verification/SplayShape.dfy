/**
 * The shape of a splay tree as a value: which nodes are where in key order, and how they are linked.
 * Each operation of the tree is a function on shapes that keeps the links consistent.
 */
module SplayShapes {
  // ---------- nodes and shapes ----------

  /** The null record pointer. */
  const NULL: nat := 0

  class Node {
    const key: int
    const record: nat
    var left: Node?
    var right: Node?
    var parent: Node?

    constructor (key: int, record: nat, parent: Node?)
      ensures this.key == key && this.record == record && this.parent == parent && left == null && right == null
    {
      this.key, this.record, this.parent := key, record, parent;
      left, right := null, null;
    }
  }

  /** Where a node is in the key order: its index, and the indices [lo, hi) of its subtree. */
  datatype Place = Place(pos: nat, lo: nat, hi: nat)

  /** The three pointers of a node. */
  datatype Links = Links(left: Node?, right: Node?, parent: Node?)

  /** A linked tree as a value: the root, the nodes in key order, their places and their pointers. */
  datatype Shape = Shape(root: Node?, nodes: seq<Node>, at: map<Node, Place>, links: map<Node, Links>)
  {
    /** c is the child of n that has the nodes [lo, hi). */
    ghost predicate Child(n: Node, c: Node?, lo: nat, hi: nat)
    {
      (c == null <==> lo == hi) &&
      (c != null ==> c in at && c in links && links[c].parent == n && at[c].lo == lo && at[c].hi == hi)
    }

    ghost predicate Down(n: Node)
    {
      && n in at && n in links
      && at[n].lo <= at[n].pos < at[n].hi <= |nodes| && nodes[at[n].pos] == n
      && Child(n, links[n].left, at[n].lo, at[n].pos) && Child(n, links[n].right, at[n].pos + 1, at[n].hi)
    }

    ghost predicate Up(n: Node)
    {
      && n in links
      && (links[n].parent == null ==> n == root)
      && (links[n].parent != null ==>
            links[n].parent in links && (links[links[n].parent].left == n || links[links[n].parent].right == n))
    }

    ghost predicate NodeOK(n: Node)
    {
      Down(n) && Up(n)
    }

    ghost predicate Listed()
    {
      forall i :: 0 <= i < |nodes| ==> nodes[i] in at && at[nodes[i]].pos == i
    }

    ghost predicate RootOK()
    {
      && (root == null <==> nodes == [])
      && (root != null ==> root in at && root in links && links[root].parent == null)
      && (root != null ==> root in at && at[root].lo == 0 && at[root].hi == |nodes|)
    }

    /** Child, parent and root pointers agree, and the in-order sequence is `nodes`. */
    ghost predicate Linked()
    {
      && links.Keys == at.Keys
      && (forall n {:trigger NodeOK(n)} :: n in at ==> NodeOK(n))
      && Listed() && RootOK()
    }
  }

  /** A node and its neighbours are in order. */
  ghost predicate Near(s: Shape, n: Node)
  {
    && s.NodeOK(n) && (s.links[n].left != null ==> s.NodeOK(s.links[n].left))
    && (s.links[n].right != null ==> s.NodeOK(s.links[n].right))
    && (s.links[n].parent != null ==> s.NodeOK(s.links[n].parent))
  }

  lemma AllNear(s: Shape, n: Node)
    requires s.Linked() && n in s.at
    ensures Near(s, n)
  {
    assert s.NodeOK(n);
  }

  lemma NearParts(s: Shape, n: Node)
    requires Near(s, n)
    ensures s.Down(n) && s.Up(n)
    ensures s.links[n].left != null ==> s.Up(s.links[n].left)
    ensures s.links[n].right != null ==> s.Up(s.links[n].right)
    ensures s.links[n].parent != null ==> s.Down(s.links[n].parent)
  {
    hide Shape.Down, Shape.Up;
  }

  lemma NearChildren(s: Shape, n: Node)
    requires Near(s, n)
    ensures n in s.links && (s.links[n].left != null ==> s.Down(s.links[n].left))
    ensures s.links[n].right != null ==> s.Down(s.links[n].right)
  {
    hide Shape.Up, Shape.Child;
  }

  lemma ShowLinked(s: Shape)
    requires s.Linked()
    ensures s.links.Keys == s.at.Keys && s.Listed() && s.RootOK()
  {
  }

  lemma MakeLinked(s: Shape)
    requires s.links.Keys == s.at.Keys && s.Listed() && s.RootOK()
    requires forall n :: n in s.at ==> s.NodeOK(n)
    ensures s.Linked()
  {
  }

  lemma MakeNodeOK(s: Shape, n: Node)
    requires s.Down(n) && s.Up(n)
    ensures s.NodeOK(n)
  {
  }

  /** A node with a parent is one of its children. */
  lemma ParentOf(s: Shape, x: Node)
    requires s.Linked() && x in s.at
    ensures s.links.Keys == s.at.Keys
    ensures var p := s.links[x].parent;
      p != null ==> p in s.at && p in s.links && (s.links[p].left == x || s.links[p].right == x)
  {
    AllNear(s, x);
  }

  /** A child is on one side only. */
  lemma OneSide(s: Shape, g: Node, x: Node)
    requires s.Linked() && g in s.at && x in s.at
    ensures g in s.links && !(s.links[g].left == x && s.links[g].right == x)
  {
    AllNear(s, g);
  }

  lemma SizeBound(s: Shape, x: Node)
    requires s.Linked() && x in s.at
    ensures 0 < s.at[x].hi - s.at[x].lo <= |s.nodes|
  {
    AllNear(s, x);
  }

  lemma IndexOf(s: Shape, z: Node) returns (k: nat)
    requires s.Linked() && z in s.at
    ensures k < |s.nodes| && s.nodes[k] == z && k == s.at[z].pos
  {
    AllNear(s, z);
    k := s.at[z].pos;
  }

  ghost function LinksOf(s: set<Node>): (l: map<Node, Links>)
    reads s
    ensures l.Keys == s
  {
    map n | n in s :: Links(n.left, n.right, n.parent)
  }

  lemma LinksAt(s: set<Node>, n: Node)
    requires n in s
    ensures LinksOf(s)[n] == Links(n.left, n.right, n.parent)
  {
  }

  ghost function Without(l: map<Node, Links>, z: Node): map<Node, Links>
  {
    map n | n in l && n != z :: l[n]
  }

  lemma DropNode(s: set<Node>, z: Node)
    ensures LinksOf(s - {z}) == Without(LinksOf(s), z)
  {
  }

  /** p's pointer to x, made to point to y. */
  ghost function Repoint(l: Links, x: Node?, y: Node?): Links
  {
    if l.left == x then l.(left := y) else l.(right := y)
  }

  /** Pointers when x's parent points to v in its place. */
  ghost function Repointed(links: map<Node, Links>, x: Node, v: Node?): map<Node, Links>
    requires x in links && (links[x].parent != null ==> links[x].parent in links)
  {
    var p := links[x].parent;
    if p == null then links else links[p := Repoint(links[p], x, v)]
  }

  ghost function Replaced(l: map<Node, Links>, u: Node, v: Node?): map<Node, Links>
    requires u in l && (l[u].parent != null ==> l[u].parent in l)
  {
    var m := Repointed(l, u, v);
    if v != null && v in m then m[v := m[v].(parent := m[u].parent)] else m
  }

  // ---------- keys ----------

  ghost predicate Ordered(nodes: seq<Node>)
  {
    forall i, j :: 0 <= i < j < |nodes| ==> nodes[i].key < nodes[j].key
  }

  predicate HasKey(nodes: seq<Node>, key: int)
  {
    exists i :: 0 <= i < |nodes| && nodes[i].key == key
  }

  /** Only the nodes [lo, hi) can have the key. */
  predicate Between(nodes: seq<Node>, key: int, lo: nat, hi: nat)
  {
    && lo <= hi <= |nodes|
    && (forall i :: 0 <= i < lo ==> nodes[i].key < key) && forall i :: hi <= i < |nodes| ==> nodes[i].key > key
  }

  /** nodes[i] has the largest key that is not above `key`. */
  predicate IsNearest(nodes: seq<Node>, key: int, i: int)
  {
    && 0 <= i < |nodes| && nodes[i].key <= key
    && forall j :: 0 <= j < |nodes| && nodes[j].key <= key ==> nodes[j].key <= nodes[i].key
  }

  lemma NotThere(nodes: seq<Node>, key: int, k: nat)
    requires Between(nodes, key, k, k)
    ensures !HasKey(nodes, key)
  {
  }

  lemma KeysRise(nodes: seq<Node>, i: nat, j: nat)
    requires Ordered(nodes) && i < j < |nodes|
    ensures nodes[i].key < nodes[j].key
  {
  }

  lemma NearestIs(nodes: seq<Node>, key: int, i: nat)
    requires Ordered(nodes) && i < |nodes| && nodes[i].key == key
    ensures IsNearest(nodes, key, i) && !forall j :: 0 <= j < |nodes| ==> nodes[j].key > key
  {
  }

  lemma NearestEnd(nodes: seq<Node>, key: int, k: nat)
    requires Ordered(nodes) && Between(nodes, key, k, k)
    ensures k == 0 ==> forall j :: 0 <= j < |nodes| ==> nodes[j].key > key
    ensures k > 0 ==> IsNearest(nodes, key, k - 1) && !forall j :: 0 <= j < |nodes| ==> nodes[j].key > key
  {
  }

  /** `nodes` is `was` with z added at index k. */
  ghost predicate InsertedAt(was: seq<Node>, z: Node, k: nat, nodes: seq<Node>)
  {
    k <= |was| && nodes == was[..k] + [z] + was[k..]
  }

  /** `nodes` is `was` without z, which was at index k. */
  ghost predicate RemovedAt(was: seq<Node>, z: Node, k: nat, nodes: seq<Node>)
  {
    k < |was| && was[k] == z && nodes == was[..k] + was[k + 1..]
  }

  lemma OrderedGrown(was: seq<Node>, z: Node, k: nat, nodes: seq<Node>)
    requires Ordered(was) && Between(was, z.key, k, k) && InsertedAt(was, z, k, nodes)
    ensures Ordered(nodes) && |nodes| == |was| + 1
  {
  }

  lemma OrderedCut(was: seq<Node>, z: Node, k: nat, nodes: seq<Node>)
    requires Ordered(was) && RemovedAt(was, z, k, nodes)
    ensures Ordered(nodes) && |nodes| == |was| - 1
  {
  }

  // ---------- the in-order traversal ----------

  /** The nodes below n in the order of an in-order traversal. */
  ghost function InOrder(s: Shape, n: Node?): seq<Node>
    requires s.Linked() && (n != null ==> n in s.at)
    decreases if n != null then s.at[n].hi - s.at[n].lo else 0
  {
    if n == null then []
    else
      assert s.NodeOK(n);
      InOrder(s, s.links[n].left) + [n] + InOrder(s, s.links[n].right)
  }

  /** `nodes` is the in-order traversal, and every subtree is a contiguous part of it. */
  lemma {:induction false} InOrderIsNodes(s: Shape, n: Node)
    requires s.Linked() && n in s.at
    ensures s.at[n].lo <= s.at[n].hi <= |s.nodes| && InOrder(s, n) == s.nodes[s.at[n].lo..s.at[n].hi]
    decreases if n in s.at then s.at[n].hi - s.at[n].lo else 0
  {
    assert s.NodeOK(n);
    hide Shape.Linked;
    var l, r, a := s.links[n].left, s.links[n].right, s.at[n];
    if l != null { InOrderIsNodes(s, l); }
    if r != null { InOrderIsNodes(s, r); }
    Slices(s.nodes, a.lo, a.pos, a.hi);
  }

  lemma Slices(q: seq<Node>, lo: nat, pos: nat, hi: nat)
    requires lo <= pos < hi <= |q|
    ensures q[lo..pos] + [q[pos]] + q[pos + 1..hi] == q[lo..hi]
  {
  }

  lemma TraversalIsNodes(s: Shape)
    requires s.Linked()
    ensures InOrder(s, s.root) == s.nodes
  {
    if s.root != null { InOrderIsNodes(s, s.root); }
  }

  // ---------- left_rotate ----------

  ghost predicate LeftReady(s: Shape, x: Node, y: Node)
  {
    && s.NodeOK(x) && s.NodeOK(y) && s.links[x].right == y
    && (s.links[y].left != null ==> s.NodeOK(s.links[y].left))
    && (s.links[x].parent != null ==> s.NodeOK(s.links[x].parent))
  }

  /** left_rotate as a change of the shape: y is the right child of x, b the left child of y. */
  ghost function LeftRotated(s: Shape, x: Node, y: Node): Shape
    requires LeftReady(s, x, y)
  {
    var b, p := s.links[y].left, s.links[x].parent;
    var l := s.links[x := s.links[x].(right := b, parent := y)][y := s.links[y].(left := x, parent := p)];
    var l1 := if b != null && b in l then l[b := l[b].(parent := x)] else l;
    var l2 := if p != null && p in l1 then l1[p := Repoint(l1[p], x, y)] else l1;
    Shape(if p == null then y else s.root, s.nodes,
          s.at[x := s.at[x].(hi := s.at[y].pos)][y := s.at[y].(lo := s.at[x].lo, hi := s.at[x].hi)], l2)
  }

  /** The pointers of n after the rotation. */
  ghost function LeftLinks(s: Shape, x: Node, y: Node, n: Node): Links
    requires n in s.links && x in s.links && y in s.links
  {
    var b, p := s.links[y].left, s.links[x].parent;
    if n == x then Links(s.links[x].left, b, y)
    else if n == y then Links(x, s.links[y].right, p)
    else if n == b then s.links[n].(parent := x)
    else if n == p then Repoint(s.links[n], x, y)
    else s.links[n]
  }

  ghost function LeftPlace(s: Shape, x: Node, y: Node, n: Node): Place
    requires n in s.at && x in s.at && y in s.at
  {
    if n == x then s.at[x].(hi := s.at[y].pos)
    else if n == y then s.at[y].(lo := s.at[x].lo, hi := s.at[x].hi)
    else s.at[n]
  }

  lemma LeftAt(s: Shape, x: Node, y: Node, n: Node)
    requires LeftReady(s, x, y) && n in s.links && n in s.at
    ensures x in s.links && y in s.links && x in s.at && y in s.at
    ensures var z := LeftRotated(s, x, y);
      n in z.links && z.links[n] == LeftLinks(s, x, y, n) && n in z.at && z.at[n] == LeftPlace(s, x, y, n)
  {
    LeftLinksAt(s, x, y, n);
    hide LeftLinks;
  }

  /** n and its neighbours after the rotation. */
  ghost predicate LeftSeen(s: Shape, x: Node, y: Node, n: Node?)
    requires LeftReady(s, x, y)
  {
    var z := LeftRotated(s, x, y);
    n == null || (n in s.links && n in s.at && n in z.links && n in z.at &&
      z.links[n] == LeftLinks(s, x, y, n) && z.at[n] == LeftPlace(s, x, y, n))
  }

  lemma LeftAll(s: Shape, x: Node, y: Node, n: Node)
    requires LeftReady(s, x, y) && Near(s, n)
    ensures LeftSeen(s, x, y, n) && LeftSeen(s, x, y, s.links[n].left) && LeftSeen(s, x, y, s.links[n].right)
    ensures LeftSeen(s, x, y, s.links[n].parent)
    ensures LeftRotated(s, x, y).nodes == s.nodes
  {
    LeftAt(s, x, y, n);
    var l, r, p := s.links[n].left, s.links[n].right, s.links[n].parent;
    if l != null { LeftAt(s, x, y, l); }
    if r != null { LeftAt(s, x, y, r); }
    if p != null { LeftAt(s, x, y, p); }
    hide LeftRotated;
  }

  lemma LeftReadyParts(s: Shape, x: Node, y: Node)
    requires LeftReady(s, x, y)
    ensures s.Down(x) && s.Up(x) && s.Down(y) && s.Up(y) && s.links[x].right == y
    ensures s.links[y].left != null ==> s.Up(s.links[y].left)
    ensures s.links[x].parent != null ==> s.Down(s.links[x].parent)
  {
    hide Shape.Down, Shape.Up;
  }

  lemma LeftX(s: Shape, x: Node, y: Node)
    requires LeftReady(s, x, y) && Near(s, x)
    ensures LeftRotated(s, x, y).NodeOK(x)
  {
  }

  lemma LeftY(s: Shape, x: Node, y: Node)
    requires LeftReady(s, x, y) && Near(s, y)
    ensures LeftRotated(s, x, y).NodeOK(y)
  {
  }

  lemma LeftB(s: Shape, x: Node, y: Node, b: Node)
    requires LeftReady(s, x, y) && Near(s, b) && b == s.links[y].left
    ensures LeftRotated(s, x, y).NodeOK(b)
  {
  }

  lemma LeftPDown(s: Shape, x: Node, y: Node, p: Node)
    requires LeftReady(s, x, y) && Near(s, p) && p == s.links[x].parent
    ensures LeftRotated(s, x, y).Down(p)
  {
    hide LeftReady, Near, LeftRotated, Shape.NodeOK;
    LeftNames(s, x, y);
    NearParts(s, p);
    LeftReadyParts(s, x, y);
    LeftAll(s, x, y, p);
    LeftAt(s, x, y, y);
  }

  lemma LeftPUp(s: Shape, x: Node, y: Node, p: Node)
    requires LeftReady(s, x, y) && Near(s, p) && p == s.links[x].parent
    ensures LeftRotated(s, x, y).Up(p)
  {
    hide LeftReady, Near, LeftRotated, Shape.NodeOK, Shape.Down;
    LeftNames(s, x, y);
    NearParts(s, p);
    LeftAbove(s, x, y, p);
    LeftAll(s, x, y, p);
  }

  /** The parent of p takes no part in the rotation. */
  lemma LeftAbove(s: Shape, x: Node, y: Node, p: Node)
    requires LeftReady(s, x, y) && Near(s, p) && p == s.links[x].parent
    ensures var q := s.links[p].parent; q == null || (q != x && q != y && q != s.links[y].left && q != p)
  {
    LeftReadyParts(s, x, y);
    NearParts(s, p);
    hide LeftReady, Near;
  }

  lemma LeftP(s: Shape, x: Node, y: Node, p: Node)
    requires LeftReady(s, x, y) && Near(s, p) && p == s.links[x].parent
    ensures LeftRotated(s, x, y).NodeOK(p)
  {
    hide LeftRotated, RightRotated, LeftReady, RightReady, Near, Shape.Down, Shape.Up;
    LeftPDown(s, x, y, p);
    LeftPUp(s, x, y, p);
  }

  lemma LeftOtherDown(s: Shape, x: Node, y: Node, n: Node)
    requires LeftReady(s, x, y) && Near(s, n)
    requires n != x && n != y && n != s.links[y].left && n != s.links[x].parent
    ensures LeftRotated(s, x, y).Down(n)
  {
    hide LeftReady, Near, LeftRotated, Shape.NodeOK;
    LeftAll(s, x, y, n);
    LeftNames(s, x, y);
    NearParts(s, n);
    LeftReadyParts(s, x, y);
  }

  lemma LeftOtherUp(s: Shape, x: Node, y: Node, n: Node)
    requires LeftReady(s, x, y) && Near(s, n)
    requires n != x && n != y && n != s.links[y].left && n != s.links[x].parent
    ensures LeftRotated(s, x, y).Up(n)
  {
    hide LeftReady, Near, LeftRotated, Shape.NodeOK;
    LeftAll(s, x, y, n);
    LeftNames(s, x, y);
    NearParts(s, n);
    LeftReadyParts(s, x, y);
  }

  lemma LeftOther(s: Shape, x: Node, y: Node, n: Node)
    requires LeftReady(s, x, y) && Near(s, n)
    requires n != x && n != y && n != s.links[y].left && n != s.links[x].parent
    ensures LeftRotated(s, x, y).NodeOK(n)
  {
    hide LeftRotated, RightRotated, LeftReady, RightReady, Near, Shape.Down, Shape.Up;
    LeftOtherDown(s, x, y, n);
    LeftOtherUp(s, x, y, n);
  }

  lemma LeftKeys(s: Shape, x: Node, y: Node)
    requires LeftReady(s, x, y) && s.links.Keys == s.at.Keys && s.Listed() && s.RootOK()
    ensures LeftRotated(s, x, y).links.Keys == LeftRotated(s, x, y).at.Keys == s.at.Keys
    ensures LeftRotated(s, x, y).Listed() && LeftRotated(s, x, y).RootOK()
  {
  }

  lemma LeftIsReady(s: Shape, x: Node, y: Node)
    requires s.Linked() && x in s.at && s.links[x].right == y
    ensures LeftReady(s, x, y)
  {
    AllNear(s, x);
    AllNear(s, y);
  }

  /** left_rotate keeps the links consistent and the in-order sequence as it was. */
  lemma LeftRotatedLinked(s: Shape, x: Node, y: Node)
    requires s.Linked() && x in s.at && s.links[x].right == y
    ensures LeftReady(s, x, y) && LeftRotated(s, x, y).Linked()
  {
    LeftIsReady(s, x, y);
    hide *;
    ShowLinked(s);
    LeftKeys(s, x, y);
    var z := LeftRotated(s, x, y);
    forall n | n in z.at ensures z.NodeOK(n) {
      AllNear(s, n);
      if n == x { LeftX(s, x, y); }
      else if n == y { LeftY(s, x, y); }
      else if n == s.links[y].left { LeftB(s, x, y, n); }
      else if n == s.links[x].parent { LeftP(s, x, y, n); }
      else { LeftOther(s, x, y, n); }
    }
    MakeLinked(z);
  }

  /** A rotation anywhere in the tree keeps the in-order traversal. */
  lemma LeftRotateKeepsOrder(s: Shape, x: Node, y: Node)
    requires s.Linked() && x in s.at && s.links[x].right == y
    ensures LeftReady(s, x, y) && LeftRotated(s, x, y).Linked()
    ensures InOrder(LeftRotated(s, x, y), LeftRotated(s, x, y).root) == InOrder(s, s.root)
  {
    hide InOrder;
    TraversalIsNodes(s);
    LeftRotatedLinked(s, x, y);
    TraversalIsNodes(LeftRotated(s, x, y));
  }

  ghost function LeftMoved(l: map<Node, Links>, x: Node, y: Node): map<Node, Links>
    requires x in l && y in l
  {
    var b := l[y].left;
    var l1 := l[x := l[x].(right := b)][y := l[y].(parent := l[x].parent)];
    if b != null && b in l1 then l1[b := l1[b].(parent := x)] else l1
  }

  ghost function LeftSwung(l: map<Node, Links>, x: Node, y: Node): map<Node, Links>
    requires x in l && y in l && (l[x].parent != null ==> l[x].parent in l)
  {
    var l1 := Repointed(l, x, y);
    l1[y := l1[y].(left := x)][x := l1[x].(parent := y)]
  }

  lemma LeftNames(s: Shape, x: Node, y: Node)
    requires LeftReady(s, x, y)
    ensures var b, p := s.links[y].left, s.links[x].parent;
      && x != y && b != x && b != y && p != x && p != y && (p != null ==> b != p)
      && (b != null ==> b in s.links) && (p != null ==> p in s.links)
      && x in s.links && y in s.links && LeftRotated(s, x, y).at.Keys == s.at.Keys
      && LeftMoved(s.links, x, y).Keys == s.links.Keys && LeftMoved(s.links, x, y)[x].parent == p
      && LeftRotated(s, x, y).root == (if p == null then y else s.root)
  {
  }

  ghost predicate LeftDone(l: map<Node, Links>, x: Node, y: Node, z: map<Node, Links>)
  {
    && x in l && y in l && x in LeftMoved(l, x, y) && y in LeftMoved(l, x, y)
    && (LeftMoved(l, x, y)[x].parent != null ==> LeftMoved(l, x, y)[x].parent in LeftMoved(l, x, y))
    && z == LeftSwung(LeftMoved(l, x, y), x, y)
  }

  lemma IsLeftDone(l: map<Node, Links>, x: Node, y: Node, m: map<Node, Links>, z: map<Node, Links>)
    requires x in l && y in l && m == LeftMoved(l, x, y) && x in m && y in m
    requires (m[x].parent != null ==> m[x].parent in m) && z == LeftSwung(m, x, y)
    ensures LeftDone(l, x, y, z)
  {
  }

  lemma LeftEffect(s: Shape, x: Node, y: Node, z: Shape)
    requires LeftReady(s, x, y) && z.nodes == s.nodes && z.at == LeftRotated(s, x, y).at
    requires z.root == if s.links[x].parent == null then y else s.root
    requires LeftDone(s.links, x, y, z.links)
    ensures z == LeftRotated(s, x, y)
  {
    hide LeftReady, LeftRotated, LeftDone, LeftLinks;
    LeftNames(s, x, y);
    LeftLinksKeys(s, x, y, z.links);
    var r := LeftRotated(s, x, y);
    forall n | n in s.links ensures z.links[n] == r.links[n] {
      LeftLinksAt(s, x, y, n);
      LeftDoneAt(s, x, y, z.links, n);
    }
    assert z.links == r.links;
  }

  lemma LeftLinksKeys(s: Shape, x: Node, y: Node, l: map<Node, Links>)
    requires LeftReady(s, x, y) && LeftDone(s.links, x, y, l)
    ensures LeftRotated(s, x, y).links.Keys == s.links.Keys == l.Keys && LeftRotated(s, x, y).nodes == s.nodes
  {
    hide LeftReady, LeftRotated;
    LeftNames(s, x, y);
    LeftRotatedKeys(s, x, y);
    hide LeftMoved;
  }

  lemma LeftRotatedKeys(s: Shape, x: Node, y: Node)
    requires LeftReady(s, x, y)
    ensures LeftRotated(s, x, y).links.Keys == s.links.Keys && LeftRotated(s, x, y).nodes == s.nodes
  {
    LeftNames(s, x, y);
    hide LeftReady;
  }

  lemma LeftLinksAt(s: Shape, x: Node, y: Node, n: Node)
    requires LeftReady(s, x, y) && n in s.links
    ensures x in s.links && y in s.links
    ensures n in LeftRotated(s, x, y).links && LeftRotated(s, x, y).links[n] == LeftLinks(s, x, y, n)
  {
    LeftNames(s, x, y);
    hide LeftReady;
  }

  /** The assignments of left_rotate, seen at one node. */
  lemma LeftDoneAt(s: Shape, x: Node, y: Node, l: map<Node, Links>, n: Node)
    requires LeftReady(s, x, y) && n in s.links && LeftDone(s.links, x, y, l)
    ensures x in s.links && y in s.links && n in l && l[n] == LeftLinks(s, x, y, n)
  {
    LeftNames(s, x, y);
    hide LeftReady, LeftRotated;
  }

  // ---------- right_rotate ----------

  ghost predicate RightReady(s: Shape, x: Node, y: Node)
  {
    && s.NodeOK(x) && s.NodeOK(y) && s.links[x].left == y
    && (s.links[y].right != null ==> s.NodeOK(s.links[y].right))
    && (s.links[x].parent != null ==> s.NodeOK(s.links[x].parent))
  }

  /** right_rotate as a change of the shape: y is the left child of x, b the right child of y. */
  ghost function RightRotated(s: Shape, x: Node, y: Node): Shape
    requires RightReady(s, x, y)
  {
    var b, p := s.links[y].right, s.links[x].parent;
    var l := s.links[x := s.links[x].(left := b, parent := y)][y := s.links[y].(right := x, parent := p)];
    var l1 := if b != null && b in l then l[b := l[b].(parent := x)] else l;
    var l2 := if p != null && p in l1 then l1[p := Repoint(l1[p], x, y)] else l1;
    Shape(if p == null then y else s.root, s.nodes,
          s.at[x := s.at[x].(lo := s.at[y].pos + 1)][y := s.at[y].(lo := s.at[x].lo, hi := s.at[x].hi)], l2)
  }

  /** The pointers of n after the rotation. */
  ghost function RightLinks(s: Shape, x: Node, y: Node, n: Node): Links
    requires n in s.links && x in s.links && y in s.links
  {
    var b, p := s.links[y].right, s.links[x].parent;
    if n == x then Links(b, s.links[x].right, y)
    else if n == y then Links(s.links[y].left, x, p)
    else if n == b then s.links[n].(parent := x)
    else if n == p then Repoint(s.links[n], x, y)
    else s.links[n]
  }

  ghost function RightPlace(s: Shape, x: Node, y: Node, n: Node): Place
    requires n in s.at && x in s.at && y in s.at
  {
    if n == x then s.at[x].(lo := s.at[y].pos + 1)
    else if n == y then s.at[y].(lo := s.at[x].lo, hi := s.at[x].hi)
    else s.at[n]
  }

  lemma RightAt(s: Shape, x: Node, y: Node, n: Node)
    requires RightReady(s, x, y) && n in s.links && n in s.at
    ensures x in s.links && y in s.links && x in s.at && y in s.at
    ensures var z := RightRotated(s, x, y);
      n in z.links && z.links[n] == RightLinks(s, x, y, n) && n in z.at && z.at[n] == RightPlace(s, x, y, n)
  {
    RightLinksAt(s, x, y, n);
    hide RightLinks;
  }

  /** n and its neighbours after the rotation. */
  ghost predicate RightSeen(s: Shape, x: Node, y: Node, n: Node?)
    requires RightReady(s, x, y)
  {
    var z := RightRotated(s, x, y);
    n == null || (n in s.links && n in s.at && n in z.links && n in z.at &&
      z.links[n] == RightLinks(s, x, y, n) && z.at[n] == RightPlace(s, x, y, n))
  }

  lemma RightAll(s: Shape, x: Node, y: Node, n: Node)
    requires RightReady(s, x, y) && Near(s, n)
    ensures RightSeen(s, x, y, n) && RightSeen(s, x, y, s.links[n].right) && RightSeen(s, x, y, s.links[n].left)
    ensures RightSeen(s, x, y, s.links[n].parent)
    ensures RightRotated(s, x, y).nodes == s.nodes
  {
    RightAt(s, x, y, n);
    var l, r, p := s.links[n].right, s.links[n].left, s.links[n].parent;
    if l != null { RightAt(s, x, y, l); }
    if r != null { RightAt(s, x, y, r); }
    if p != null { RightAt(s, x, y, p); }
    hide RightRotated;
  }

  lemma RightReadyParts(s: Shape, x: Node, y: Node)
    requires RightReady(s, x, y)
    ensures s.Down(x) && s.Up(x) && s.Down(y) && s.Up(y) && s.links[x].left == y
    ensures s.links[y].right != null ==> s.Up(s.links[y].right)
    ensures s.links[x].parent != null ==> s.Down(s.links[x].parent)
  {
    hide Shape.Down, Shape.Up;
  }

  lemma RightX(s: Shape, x: Node, y: Node)
    requires RightReady(s, x, y) && Near(s, x)
    ensures RightRotated(s, x, y).NodeOK(x)
  {
  }

  lemma RightY(s: Shape, x: Node, y: Node)
    requires RightReady(s, x, y) && Near(s, y)
    ensures RightRotated(s, x, y).NodeOK(y)
  {
  }

  lemma RightB(s: Shape, x: Node, y: Node, b: Node)
    requires RightReady(s, x, y) && Near(s, b) && b == s.links[y].right
    ensures RightRotated(s, x, y).NodeOK(b)
  {
  }

  lemma RightPDown(s: Shape, x: Node, y: Node, p: Node)
    requires RightReady(s, x, y) && Near(s, p) && p == s.links[x].parent
    ensures RightRotated(s, x, y).Down(p)
  {
    hide RightReady, Near, RightRotated, Shape.NodeOK;
    RightNames(s, x, y);
    NearParts(s, p);
    RightReadyParts(s, x, y);
    RightAll(s, x, y, p);
    RightAt(s, x, y, y);
  }

  lemma RightPUp(s: Shape, x: Node, y: Node, p: Node)
    requires RightReady(s, x, y) && Near(s, p) && p == s.links[x].parent
    ensures RightRotated(s, x, y).Up(p)
  {
    hide RightReady, Near, RightRotated, Shape.NodeOK, Shape.Down;
    RightNames(s, x, y);
    NearParts(s, p);
    RightAbove(s, x, y, p);
    RightAll(s, x, y, p);
  }

  /** The parent of p takes no part in the rotation. */
  lemma RightAbove(s: Shape, x: Node, y: Node, p: Node)
    requires RightReady(s, x, y) && Near(s, p) && p == s.links[x].parent
    ensures var q := s.links[p].parent; q == null || (q != x && q != y && q != s.links[y].right && q != p)
  {
    RightReadyParts(s, x, y);
    NearParts(s, p);
    hide RightReady, Near;
  }

  lemma RightP(s: Shape, x: Node, y: Node, p: Node)
    requires RightReady(s, x, y) && Near(s, p) && p == s.links[x].parent
    ensures RightRotated(s, x, y).NodeOK(p)
  {
    hide LeftRotated, RightRotated, LeftReady, RightReady, Near, Shape.Down, Shape.Up;
    RightPDown(s, x, y, p);
    RightPUp(s, x, y, p);
  }

  lemma RightOtherDown(s: Shape, x: Node, y: Node, n: Node)
    requires RightReady(s, x, y) && Near(s, n)
    requires n != x && n != y && n != s.links[y].right && n != s.links[x].parent
    ensures RightRotated(s, x, y).Down(n)
  {
    hide RightReady, Near, RightRotated, Shape.NodeOK;
    RightAll(s, x, y, n);
    RightNames(s, x, y);
    NearParts(s, n);
    RightReadyParts(s, x, y);
  }

  lemma RightOtherUp(s: Shape, x: Node, y: Node, n: Node)
    requires RightReady(s, x, y) && Near(s, n)
    requires n != x && n != y && n != s.links[y].right && n != s.links[x].parent
    ensures RightRotated(s, x, y).Up(n)
  {
    hide RightReady, Near, RightRotated, Shape.NodeOK;
    RightAll(s, x, y, n);
    RightNames(s, x, y);
    NearParts(s, n);
    RightReadyParts(s, x, y);
  }

  lemma RightOther(s: Shape, x: Node, y: Node, n: Node)
    requires RightReady(s, x, y) && Near(s, n)
    requires n != x && n != y && n != s.links[y].right && n != s.links[x].parent
    ensures RightRotated(s, x, y).NodeOK(n)
  {
    hide LeftRotated, RightRotated, LeftReady, RightReady, Near, Shape.Down, Shape.Up;
    RightOtherDown(s, x, y, n);
    RightOtherUp(s, x, y, n);
  }

  lemma RightKeys(s: Shape, x: Node, y: Node)
    requires RightReady(s, x, y) && s.links.Keys == s.at.Keys && s.Listed() && s.RootOK()
    ensures RightRotated(s, x, y).links.Keys == RightRotated(s, x, y).at.Keys == s.at.Keys
    ensures RightRotated(s, x, y).Listed() && RightRotated(s, x, y).RootOK()
  {
  }

  lemma RightIsReady(s: Shape, x: Node, y: Node)
    requires s.Linked() && x in s.at && s.links[x].left == y
    ensures RightReady(s, x, y)
  {
    AllNear(s, x);
    AllNear(s, y);
  }

  /** right_rotate keeps the links consistent and the in-order sequence as it was. */
  lemma RightRotatedLinked(s: Shape, x: Node, y: Node)
    requires s.Linked() && x in s.at && s.links[x].left == y
    ensures RightReady(s, x, y) && RightRotated(s, x, y).Linked()
  {
    RightIsReady(s, x, y);
    hide *;
    ShowLinked(s);
    RightKeys(s, x, y);
    var z := RightRotated(s, x, y);
    forall n | n in z.at ensures z.NodeOK(n) {
      AllNear(s, n);
      if n == x { RightX(s, x, y); }
      else if n == y { RightY(s, x, y); }
      else if n == s.links[y].right { RightB(s, x, y, n); }
      else if n == s.links[x].parent { RightP(s, x, y, n); }
      else { RightOther(s, x, y, n); }
    }
    MakeLinked(z);
  }

  lemma RightRotateKeepsOrder(s: Shape, x: Node, y: Node)
    requires s.Linked() && x in s.at && s.links[x].left == y
    ensures RightReady(s, x, y) && RightRotated(s, x, y).Linked()
    ensures InOrder(RightRotated(s, x, y), RightRotated(s, x, y).root) == InOrder(s, s.root)
  {
    hide InOrder;
    TraversalIsNodes(s);
    RightRotatedLinked(s, x, y);
    TraversalIsNodes(RightRotated(s, x, y));
  }

  ghost function RightMoved(l: map<Node, Links>, x: Node, y: Node): map<Node, Links>
    requires x in l && y in l
  {
    var b := l[y].right;
    var l1 := l[x := l[x].(left := b)][y := l[y].(parent := l[x].parent)];
    if b != null && b in l1 then l1[b := l1[b].(parent := x)] else l1
  }

  ghost function RightSwung(l: map<Node, Links>, x: Node, y: Node): map<Node, Links>
    requires x in l && y in l && (l[x].parent != null ==> l[x].parent in l)
  {
    var l1 := Repointed(l, x, y);
    l1[y := l1[y].(right := x)][x := l1[x].(parent := y)]
  }

  lemma RightNames(s: Shape, x: Node, y: Node)
    requires RightReady(s, x, y)
    ensures var b, p := s.links[y].right, s.links[x].parent;
      && x != y && b != x && b != y && p != x && p != y && (p != null ==> b != p)
      && (b != null ==> b in s.links) && (p != null ==> p in s.links)
      && x in s.links && y in s.links && RightRotated(s, x, y).at.Keys == s.at.Keys
      && RightMoved(s.links, x, y).Keys == s.links.Keys && RightMoved(s.links, x, y)[x].parent == p
      && RightRotated(s, x, y).root == (if p == null then y else s.root)
  {
  }

  ghost predicate RightDone(l: map<Node, Links>, x: Node, y: Node, z: map<Node, Links>)
  {
    && x in l && y in l && x in RightMoved(l, x, y) && y in RightMoved(l, x, y)
    && (RightMoved(l, x, y)[x].parent != null ==> RightMoved(l, x, y)[x].parent in RightMoved(l, x, y))
    && z == RightSwung(RightMoved(l, x, y), x, y)
  }

  lemma IsRightDone(l: map<Node, Links>, x: Node, y: Node, m: map<Node, Links>, z: map<Node, Links>)
    requires x in l && y in l && m == RightMoved(l, x, y) && x in m && y in m
    requires (m[x].parent != null ==> m[x].parent in m) && z == RightSwung(m, x, y)
    ensures RightDone(l, x, y, z)
  {
  }

  lemma RightEffect(s: Shape, x: Node, y: Node, z: Shape)
    requires RightReady(s, x, y) && z.nodes == s.nodes && z.at == RightRotated(s, x, y).at
    requires z.root == if s.links[x].parent == null then y else s.root
    requires RightDone(s.links, x, y, z.links)
    ensures z == RightRotated(s, x, y)
  {
    hide RightReady, RightRotated, RightDone, RightLinks;
    RightNames(s, x, y);
    RightLinksKeys(s, x, y, z.links);
    var r := RightRotated(s, x, y);
    forall n | n in s.links ensures z.links[n] == r.links[n] {
      RightLinksAt(s, x, y, n);
      RightDoneAt(s, x, y, z.links, n);
    }
    assert z.links == r.links;
  }

  lemma RightLinksKeys(s: Shape, x: Node, y: Node, l: map<Node, Links>)
    requires RightReady(s, x, y) && RightDone(s.links, x, y, l)
    ensures RightRotated(s, x, y).links.Keys == s.links.Keys == l.Keys && RightRotated(s, x, y).nodes == s.nodes
  {
    hide RightReady, RightRotated;
    RightNames(s, x, y);
    RightRotatedKeys(s, x, y);
    hide RightMoved;
  }

  lemma RightRotatedKeys(s: Shape, x: Node, y: Node)
    requires RightReady(s, x, y)
    ensures RightRotated(s, x, y).links.Keys == s.links.Keys && RightRotated(s, x, y).nodes == s.nodes
  {
    RightNames(s, x, y);
    hide RightReady;
  }

  lemma RightLinksAt(s: Shape, x: Node, y: Node, n: Node)
    requires RightReady(s, x, y) && n in s.links
    ensures x in s.links && y in s.links
    ensures n in RightRotated(s, x, y).links && RightRotated(s, x, y).links[n] == RightLinks(s, x, y, n)
  {
    RightNames(s, x, y);
    hide RightReady;
  }

  /** The assignments of right_rotate, seen at one node. */
  lemma RightDoneAt(s: Shape, x: Node, y: Node, l: map<Node, Links>, n: Node)
    requires RightReady(s, x, y) && n in s.links && RightDone(s.links, x, y, l)
    ensures x in s.links && y in s.links && n in l && l[n] == RightLinks(s, x, y, n)
  {
    RightNames(s, x, y);
    hide RightReady, RightRotated;
  }

  // ---------- what splaying needs of a rotation ----------

  /** y took the place of its parent x. */
  ghost predicate Rotation(s: Shape, x: Node, y: Node, z: Shape)
  {
    && x in s.links && y in s.links && z.links.Keys == s.links.Keys && z.at.Keys == s.at.Keys && z.nodes == s.nodes
    && x in z.at && y in z.at && z.links[x].parent == y && z.links[y].parent == s.links[x].parent
    && z.at[y].lo == s.at[x].lo && z.at[y].hi == s.at[x].hi && s.at[y].lo < s.at[y].hi
    && s.at[y].hi - s.at[y].lo < s.at[x].hi - s.at[x].lo
    && (s.links[x].parent != null ==>
          s.links[x].parent in z.links && z.links[s.links[x].parent] == Repoint(s.links[s.links[x].parent], x, y))
  }

  ghost predicate SameNode(s: Shape, z: Shape, n: Node)
  {
    n in s.links && n in z.links && z.links[n] == s.links[n] && n in s.at && n in z.at && z.at[n] == s.at[n]
  }

  /** What a splay step needs to know about a left rotation. */
  lemma LeftFacts(s: Shape, x: Node, y: Node)
    requires s.Linked() && x in s.at && s.links[x].right == y
    ensures LeftReady(s, x, y)
    ensures Rotation(s, x, y, LeftRotated(s, x, y))
    ensures y in LeftRotated(s, x, y).links && y in s.links && LeftRotated(s, x, y).links[y].right == s.links[y].right
    ensures s.links[y].right != null ==> SameNode(s, LeftRotated(s, x, y), s.links[y].right)
  {
    LeftIsReady(s, x, y);
    AllNear(s, y);
    hide Shape.Linked;
    LeftRotation(s, x, y);
    LeftOuter(s, x, y);
  }

  lemma LeftRotation(s: Shape, x: Node, y: Node)
    requires LeftReady(s, x, y)
    ensures Rotation(s, x, y, LeftRotated(s, x, y))
  {
  }

  lemma LeftOuter(s: Shape, x: Node, y: Node)
    requires LeftReady(s, x, y) && Near(s, y)
    ensures y in LeftRotated(s, x, y).links && y in s.links && LeftRotated(s, x, y).links[y].right == s.links[y].right
    ensures s.links[y].right != null ==> SameNode(s, LeftRotated(s, x, y), s.links[y].right)
  {
  }

  /** What a splay step needs to know about a right rotation. */
  lemma RightFacts(s: Shape, x: Node, y: Node)
    requires s.Linked() && x in s.at && s.links[x].left == y
    ensures RightReady(s, x, y)
    ensures Rotation(s, x, y, RightRotated(s, x, y))
    ensures y in RightRotated(s, x, y).links && y in s.links && RightRotated(s, x, y).links[y].left == s.links[y].left
    ensures s.links[y].left != null ==> SameNode(s, RightRotated(s, x, y), s.links[y].left)
  {
    RightIsReady(s, x, y);
    AllNear(s, y);
    hide Shape.Linked;
    RightRotation(s, x, y);
    RightOuter(s, x, y);
  }

  lemma RightRotation(s: Shape, x: Node, y: Node)
    requires RightReady(s, x, y)
    ensures Rotation(s, x, y, RightRotated(s, x, y))
  {
  }

  lemma RightOuter(s: Shape, x: Node, y: Node)
    requires RightReady(s, x, y) && Near(s, y)
    ensures y in RightRotated(s, x, y).links && y in s.links && RightRotated(s, x, y).links[y].left == s.links[y].left
    ensures s.links[y].left != null ==> SameNode(s, RightRotated(s, x, y), s.links[y].left)
  {
  }

  lemma ShowSame(s: Shape, z: Shape, n: Node)
    requires SameNode(s, z, n)
    ensures n in s.links && n in z.links && z.links[n] == s.links[n] && n in s.at && n in z.at && z.at[n] == s.at[n]
  {
  }

  /** The node above a rotation points to y where it pointed to x. */
  lemma ShowAbove(s: Shape, x: Node, y: Node, z: Shape)
    requires Rotation(s, x, y, z) && s.links[x].parent != null && s.links[x].parent in s.links
    ensures var g := s.links[x].parent;
      g in z.links && (if s.links[g].left == x then z.links[g].left == y else z.links[g].right == y)
  {
  }

  lemma ShowRotation(s: Shape, x: Node, y: Node, z: Shape)
    requires Rotation(s, x, y, z) && x in s.at && y in s.at
    ensures x in s.links && y in s.links && z.at.Keys == s.at.Keys && z.nodes == s.nodes
    ensures x in z.links && y in z.links && x in z.at && y in z.at
    ensures z.links[x].parent == y && z.links[y].parent == s.links[x].parent
    ensures z.at[y].lo == s.at[x].lo && z.at[y].hi == s.at[x].hi
    ensures s.at[y].lo < s.at[y].hi && s.at[y].hi - s.at[y].lo < s.at[x].hi - s.at[x].lo
  {
  }

  // ---------- the shape after an insertion ----------

  /** Index x when index k is new: the index itself, and the first and the last of a subtree. */
  function Shift(x: nat, k: nat, atK: bool): nat
  {
    if x > k || (x == k && atK) then x + 1 else x
  }

  ghost function GrownPlace(a: Place, k: nat, onRight: bool): Place
  {
    Place(Shift(a.pos, k, true), Shift(a.lo, k, onRight), Shift(a.hi, k, onRight))
  }

  ghost function LinksGrown(links: map<Node, Links>, p: Node?, z: Node, onRight: bool): map<Node, Links>
  {
    var l := if p != null && p in links then
               links[p := if onRight then links[p].(right := z) else links[p].(left := z)] else links;
    l[z := Links(null, null, p)]
  }

  /** z, a new node without children, is put under p, at index k. */
  ghost function Grown(s: Shape, p: Node?, z: Node, k: nat, onRight: bool): Shape
    requires k <= |s.nodes|
  {
    Shape(if p == null then z else s.root, s.nodes[..k] + [z] + s.nodes[k..],
          map n | n in s.at.Keys + {z} :: if n == z then Place(k, k, k + 1) else GrownPlace(s.at[n], k, onRight),
          LinksGrown(s.links, p, z, onRight))
  }

  ghost predicate CanGrow(s: Shape, p: Node?, z: Node, k: nat, onRight: bool)
  {
    && z !in s.at && z !in s.links && k <= |s.nodes|
    && (p == null ==> s.nodes == [] && k == 0)
    && (p != null ==> s.NodeOK(p))
    && (p != null && onRight ==> s.links[p].right == null && k == s.at[p].pos + 1)
    && (p != null && !onRight ==> s.links[p].left == null && k == s.at[p].pos)
  }

  lemma CanGrowIndex(s: Shape, p: Node?, z: Node, k: nat, onRight: bool)
    requires CanGrow(s, p, z, k, onRight)
    ensures k <= |s.nodes|
  {
  }

  lemma GrownNew(s: Shape, p: Node?, z: Node, k: nat, onRight: bool)
    requires CanGrow(s, p, z, k, onRight)
    ensures Grown(s, p, z, k, onRight).NodeOK(z)
  {
  }

  lemma GrownUnder(s: Shape, p: Node, z: Node, k: nat, onRight: bool)
    requires CanGrow(s, p, z, k, onRight) && Near(s, p)
    ensures Grown(s, p, z, k, onRight).Down(p)
  {
  }

  lemma GrownAt(s: Shape, p: Node, z: Node, k: nat, onRight: bool, n: Node)
    requires CanGrow(s, p, z, k, onRight) && n in s.links && n in s.at && n != p && s.at[n].pos < |s.nodes|
    ensures var t := Grown(s, p, z, k, onRight);
      && n in t.links && t.links[n] == s.links[n] && n in t.at && t.at[n] == GrownPlace(s.at[n], k, onRight)
      && |t.nodes| == |s.nodes| + 1 && t.nodes[t.at[n].pos] == s.nodes[s.at[n].pos]
  {
    hide Shape.NodeOK;
  }

  lemma GrownChild(s: Shape, p: Node, z: Node, k: nat, onRight: bool, n: Node, c: Node?)
    requires CanGrow(s, p, z, k, onRight) && n != p
    requires (c != null ==> c in s.links && c in s.at && s.links[c].parent == n)
    ensures var t := Grown(s, p, z, k, onRight); c != null ==>
      c in t.links && t.links[c].parent == n && c in t.at && t.at[c] == GrownPlace(s.at[c], k, onRight)
  {
    hide Shape.NodeOK, GrownPlace;
  }

  /** Below another node nothing changes but the indices. */
  lemma GrownAway(s: Shape, p: Node, z: Node, k: nat, onRight: bool, n: Node)
    requires CanGrow(s, p, z, k, onRight) && Near(s, n) && n != p
    ensures Grown(s, p, z, k, onRight).Down(n)
  {
    hide Grown, Near, Shape.Up;
    NearParts(s, n);
    assert s.at[n].pos != s.at[p].pos;
    GrownAt(s, p, z, k, onRight, n);
    GrownChild(s, p, z, k, onRight, n, s.links[n].left);
    GrownChild(s, p, z, k, onRight, n, s.links[n].right);
  }

  lemma GrownOldDown(s: Shape, p: Node, z: Node, k: nat, onRight: bool, n: Node)
    requires CanGrow(s, p, z, k, onRight) && Near(s, n)
    ensures Grown(s, p, z, k, onRight).Down(n)
  {
    if n == p {
      GrownUnder(s, p, z, k, onRight);
    } else {
      GrownAway(s, p, z, k, onRight, n);
    }
  }

  lemma GrownOldUp(s: Shape, p: Node, z: Node, k: nat, onRight: bool, n: Node)
    requires CanGrow(s, p, z, k, onRight) && Near(s, n)
    ensures Grown(s, p, z, k, onRight).Up(n)
  {
  }

  lemma GrownKeys(s: Shape, p: Node?, z: Node, k: nat, onRight: bool, n: Node)
    requires s.Linked() && CanGrow(s, p, z, k, onRight) && n in Grown(s, p, z, k, onRight).at && n != z
    ensures p != null && n in s.at
  {
    assert s.NodeOK(n);
  }

  lemma GrownRest(s: Shape, p: Node?, z: Node, k: nat, onRight: bool)
    requires CanGrow(s, p, z, k, onRight) && s.links.Keys == s.at.Keys && s.Listed() && s.RootOK()
    ensures var t := Grown(s, p, z, k, onRight); t.links.Keys == t.at.Keys && t.Listed() && t.RootOK()
  {
  }

  lemma GrownLinked(s: Shape, p: Node?, z: Node, k: nat, onRight: bool)
    requires s.Linked() && CanGrow(s, p, z, k, onRight)
    ensures k <= |s.nodes| && Grown(s, p, z, k, onRight).Linked()
  {
    hide *;
    ShowLinked(s);
    CanGrowIndex(s, p, z, k, onRight);
    GrownRest(s, p, z, k, onRight);
    var t := Grown(s, p, z, k, onRight);
    forall n | n in t.at ensures t.NodeOK(n) {
      if n == z {
        GrownNew(s, p, z, k, onRight);
      } else {
        GrownKeys(s, p, z, k, onRight, n);
        AllNear(s, n);
        GrownOldDown(s, p, z, k, onRight, n);
        GrownOldUp(s, p, z, k, onRight, n);
        MakeNodeOK(t, n);
      }
    }
    MakeLinked(t);
  }

  lemma ShowGrown(s: Shape, p: Node?, z: Node, k: nat, onRight: bool)
    requires s.Linked() && z !in s.at && k <= |s.nodes|
    requires (p == null ==> s.nodes == [] && k == 0) && (p != null ==> p in s.at)
    requires p != null && onRight ==> s.links[p].right == null && k == s.at[p].pos + 1
    requires p != null && !onRight ==> s.links[p].left == null && k == s.at[p].pos
    ensures CanGrow(s, p, z, k, onRight) && Grown(s, p, z, k, onRight).Linked()
    ensures InsertedAt(s.nodes, z, k, Grown(s, p, z, k, onRight).nodes)
    ensures Grown(s, p, z, k, onRight).at.Keys == s.at.Keys + {z}
  {
    if p != null { AllNear(s, p); }
    GrownLinked(s, p, z, k, onRight);
  }

  lemma IsGrown(s: Shape, p: Node?, z: Node, k: nat, onRight: bool, t: Shape)
    requires k <= |s.nodes| && t.nodes == Grown(s, p, z, k, onRight).nodes && t.at == Grown(s, p, z, k, onRight).at
    requires t.root == (if p == null then z else s.root) && t.links == LinksGrown(s.links, p, z, onRight)
    ensures t == Grown(s, p, z, k, onRight)
  {
  }

  // ---------- the shape after a removal at the end ----------

  /** Below the root, every subtree is on one side of it. */
  lemma {:induction false} OneSideOfRoot(s: Shape, r: Node, n: Node)
    requires s.Linked() && s.root == r && n in s.at && n != r
    ensures r in s.at && (s.at[n].hi <= s.at[r].pos || s.at[n].lo > s.at[r].pos)
    decreases |s.nodes| - (if n in s.at then s.at[n].hi - s.at[n].lo else 0)
  {
    AllNear(s, n);
    AllNear(s, r);
    var p := s.links[n].parent;
    if p != r {
      AllNear(s, p);
      OneSideOfRoot(s, r, p);
    }
  }

  ghost predicate RootOf(s: Shape, r: Node)
  {
    s.root == r && s.NodeOK(r) && s.RootOK()
  }

  lemma RootFacts(s: Shape, r: Node)
    requires s.Linked() && s.root == r && r in s.at
    ensures s.links.Keys == s.at.Keys && s.links[r].parent == null && RootOf(s, r) && s.nodes != [] && Near(s, r)
    ensures s.links[r].left != null ==> s.links[r].left in s.at
    ensures s.links[r].right != null ==> s.links[r].right in s.at
    ensures s.links[r].left != r && s.links[r].right != r
    ensures s.links[r].left == null <==> s.at[r].pos == 0
    ensures s.links[r].right == null <==> s.at[r].pos == |s.nodes| - 1
  {
    AllNear(s, r);
  }

  function Pred(x: nat): nat { if x > 0 then x - 1 else 0 }

  /** The root r has no left child: its right child becomes the root. */
  ghost function CutFirst(s: Shape, r: Node): Shape
    requires r in s.links && s.links.Keys == s.at.Keys && s.nodes != []
  {
    var v := s.links[r].right;
    Shape(v, s.nodes[1..],
          map n | n in s.at.Keys - {r} :: Place(Pred(s.at[n].pos), Pred(s.at[n].lo), Pred(s.at[n].hi)),
          map n | n in s.links.Keys - {r} :: if n == v then s.links[n].(parent := null) else s.links[n])
  }

  /** The root r has no right child: its left child becomes the root. */
  ghost function CutLast(s: Shape, r: Node): Shape
    requires r in s.links && s.links.Keys == s.at.Keys && s.nodes != []
  {
    var v := s.links[r].left;
    Shape(v, s.nodes[..|s.nodes| - 1],
          map n | n in s.at.Keys - {r} :: s.at[n],
          map n | n in s.links.Keys - {r} :: if n == v then s.links[n].(parent := null) else s.links[n])
  }

  lemma CutKeys(s: Shape, r: Node, n: Node)
    requires r in s.links && s.links.Keys == s.at.Keys && s.nodes != [] && s.at[r].pos < |s.nodes|
    ensures n in CutFirst(s, r).at || n in CutLast(s, r).at ==> n in s.at && n != r
  {
  }

  lemma CutFirstNode(s: Shape, r: Node, n: Node)
    requires s.links.Keys == s.at.Keys && s.nodes != [] && RootOf(s, r) && s.links[r].left == null && Near(s, n)
    requires n != r
    requires s.at[n].hi <= s.at[r].pos || s.at[n].lo > s.at[r].pos
    ensures CutFirst(s, r).NodeOK(n)
  {
  }

  lemma CutFirstRest(s: Shape, r: Node)
    requires s.links.Keys == s.at.Keys && s.nodes != [] && RootOf(s, r) && s.links[r].left == null && s.Listed()
    ensures var t := CutFirst(s, r); t.links.Keys == t.at.Keys && t.Listed() && t.RootOK()
  {
  }

  lemma CutFirstLinked(s: Shape, r: Node)
    requires s.Linked() && s.root == r && r in s.at && s.links[r].left == null
    ensures s.links.Keys == s.at.Keys && s.nodes != [] && CutFirst(s, r).Linked()
  {
    hide *;
    ShowLinked(s);
    RootFacts(s, r);
    CutFirstRest(s, r);
    var t := CutFirst(s, r);
    forall n | n in t.at ensures t.NodeOK(n) {
      CutKeys(s, r, n);
      AllNear(s, n);
      OneSideOfRoot(s, r, n);
      CutFirstNode(s, r, n);
    }
    MakeLinked(t);
  }

  lemma CutFirstKeys(s: Shape, r: Node)
    requires s.links.Keys == s.at.Keys && s.nodes != [] && RootOf(s, r) && s.links[r].left == null
    ensures CutFirst(s, r).at.Keys == s.at.Keys - {r} && RemovedAt(s.nodes, r, s.at[r].pos, CutFirst(s, r).nodes)
  {
  }

  lemma IsCutFirst(s: Shape, r: Node, done: map<Node, Links>, t: Shape)
    requires RootOf(s, r) && s.links.Keys == s.at.Keys && s.nodes != []
    requires (s.links[r].right != null ==> s.links[r].right in s.links)
    requires done == Replaced(s.links, r, s.links[r].right) && s.links[r].right != r
    requires t.root == s.links[r].right && t.nodes == CutFirst(s, r).nodes && t.at == CutFirst(s, r).at
    requires t.links == Without(done, r)
    ensures t == CutFirst(s, r)
  {
  }

  lemma CutLastNode(s: Shape, r: Node, n: Node)
    requires s.links.Keys == s.at.Keys && s.nodes != [] && RootOf(s, r) && s.links[r].right == null && Near(s, n)
    requires n != r
    requires s.at[n].hi <= s.at[r].pos || s.at[n].lo > s.at[r].pos
    ensures CutLast(s, r).NodeOK(n)
  {
  }

  lemma CutLastRest(s: Shape, r: Node)
    requires s.links.Keys == s.at.Keys && s.nodes != [] && RootOf(s, r) && s.links[r].right == null && s.Listed()
    ensures var t := CutLast(s, r); t.links.Keys == t.at.Keys && t.Listed() && t.RootOK()
  {
  }

  lemma CutLastLinked(s: Shape, r: Node)
    requires s.Linked() && s.root == r && r in s.at && s.links[r].right == null
    ensures s.links.Keys == s.at.Keys && s.nodes != [] && CutLast(s, r).Linked()
  {
    hide *;
    ShowLinked(s);
    RootFacts(s, r);
    CutLastRest(s, r);
    var t := CutLast(s, r);
    forall n | n in t.at ensures t.NodeOK(n) {
      CutKeys(s, r, n);
      AllNear(s, n);
      OneSideOfRoot(s, r, n);
      CutLastNode(s, r, n);
    }
    MakeLinked(t);
  }

  lemma CutLastKeys(s: Shape, r: Node)
    requires s.links.Keys == s.at.Keys && s.nodes != [] && RootOf(s, r) && s.links[r].right == null
    ensures CutLast(s, r).at.Keys == s.at.Keys - {r} && RemovedAt(s.nodes, r, s.at[r].pos, CutLast(s, r).nodes)
  {
  }

  lemma IsCutLast(s: Shape, r: Node, done: map<Node, Links>, t: Shape)
    requires RootOf(s, r) && s.links.Keys == s.at.Keys && s.nodes != []
    requires (s.links[r].left != null ==> s.links[r].left in s.links)
    requires done == Replaced(s.links, r, s.links[r].left) && s.links[r].left != r
    requires t.root == s.links[r].left && t.nodes == CutLast(s, r).nodes && t.at == CutLast(s, r).at
    requires t.links == Without(done, r)
    ensures t == CutLast(s, r)
  {
  }

  // ---------- the shape after a removal in the middle ----------

  ghost predicate CanJoin(s: Shape, r: Node, y: Node)
  {
    && s.links.Keys == s.at.Keys && RootOf(s, r) && s.links[r].left != null && s.links[r].right != null
    && Near(s, r) && Near(s, y) && s.at[y].pos == s.at[r].pos + 1 && s.links[y].left == null && y != r
  }

  lemma CanJoinKeys(s: Shape, r: Node, y: Node)
    requires CanJoin(s, r, y)
    ensures {r, y} <= s.links.Keys && s.links.Keys == s.at.Keys && s.at[r].pos < |s.nodes| && s.root == r
  {
  }

  ghost function JoinedPlace(s: Shape, k: nat, y: Node, n: Node): Place
    requires n in s.at
  {
    var a := s.at[n];
    if n == y then Place(k, 0, Pred(|s.nodes|))
    else if a.pos < k then a
    else Place(Pred(a.pos), if a.lo > k + 1 then a.lo - 1 else k + 1, Pred(a.hi))
  }

  ghost function JoinedLinks(s: Shape, r: Node, y: Node, n: Node): Links
    requires {r, y, n} <= s.links.Keys
  {
    var l, q, v := s.links[n], s.links[y].parent, s.links[y].right;
    if n == y then Links(s.links[r].left, if q == r then v else s.links[r].right, null)
    else if q == r then (if n == s.links[r].left then l.(parent := y) else l)
    else Links(if n == q then v else l.left, l.right,
               if n == s.links[r].left || n == s.links[r].right then y else if n == v then q else l.parent)
  }

  /** The root r has two children: y, the first node of the right subtree, takes its place. */
  ghost function Joined(s: Shape, r: Node, y: Node): Shape
    requires {r, y} <= s.links.Keys && s.links.Keys == s.at.Keys && s.at[r].pos < |s.nodes|
  {
    var k := s.at[r].pos;
    Shape(y, s.nodes[..k] + s.nodes[k + 1..],
          map n | n in s.at.Keys - {r} :: JoinedPlace(s, k, y, n),
          map n | n in s.links.Keys - {r} :: JoinedLinks(s, r, y, n))
  }

  lemma JoinedKeys(s: Shape, r: Node, y: Node, n: Node)
    requires {r, y} <= s.links.Keys && s.links.Keys == s.at.Keys && s.at[r].pos < |s.nodes|
    ensures n in Joined(s, r, y).at ==> n in s.at && n != r
  {
  }

  lemma JoinedY(s: Shape, r: Node, y: Node)
    requires CanJoin(s, r, y)
    ensures Joined(s, r, y).NodeOK(y)
  {
  }

  lemma JoinedLeft(s: Shape, r: Node, y: Node, n: Node)
    requires CanJoin(s, r, y) && Near(s, n) && n != r && n != y && s.at[n].hi <= s.at[r].pos
    ensures Joined(s, r, y).Down(n)
  {
    hide CanJoin, Near, Joined, Shape.NodeOK;
    CanJoinKeys(s, r, y);
    CanJoinParts(s, r, y);
    NearParts(s, n);
    NearChildren(s, n);
    JoinedAt(s, r, y, n);
    var l, c := s.links[n].left, s.links[n].right;
    if l != null { JoinedAt(s, r, y, l); }
    if c != null { JoinedAt(s, r, y, c); }
    NotAbove(s, r, y, n, l);
    NotAbove(s, r, y, n, c);
  }

  lemma JoinedAbove(s: Shape, r: Node, y: Node, n: Node)
    requires CanJoin(s, r, y) && Near(s, n) && n != r && n != y && s.at[n].lo > s.at[r].pos
    requires n == s.links[y].parent
    ensures Joined(s, r, y).Down(n)
  {
  }

  lemma JoinedRight(s: Shape, r: Node, y: Node, n: Node)
    requires CanJoin(s, r, y) && Near(s, n) && n != r && n != y && s.at[n].lo > s.at[r].pos
    requires n != s.links[y].parent
    ensures Joined(s, r, y).Down(n)
  {
    hide CanJoin, Near, Joined, Shape.NodeOK;
    CanJoinKeys(s, r, y);
    CanJoinParts(s, r, y);
    NearParts(s, n);
    NearChildren(s, n);
    var t := Joined(s, r, y);
    JoinedAt(s, r, y, n);
    var l, c := s.links[n].left, s.links[n].right;
    if l != null { JoinedAt(s, r, y, l); }
    if c != null { JoinedAt(s, r, y, c); }
    NotAbove(s, r, y, n, l);
    NotAbove(s, r, y, n, c);
  }

  /** A child whose parent is neither the root nor y nor y's parent is in no way changed. */
  lemma NotAbove(s: Shape, r: Node, y: Node, n: Node, c: Node?)
    requires s.Down(n) && s.Down(r) && s.Down(y) && s.Up(y) && s.at[y].pos == s.at[r].pos + 1
    requires if s.at[n].hi <= s.at[r].pos then true else s.at[n].lo > s.at[r].pos && n != s.links[y].parent
    requires n != r && n != y && (c != null ==> s.links[n].left == c || s.links[n].right == c)
    ensures c == null || (c != y && c != r && c != s.links[r].left && c != s.links[r].right && c != s.links[y].right)
  {
  }

  lemma JoinedAt(s: Shape, r: Node, y: Node, n: Node)
    requires {r, y} <= s.links.Keys && s.links.Keys == s.at.Keys && s.at[r].pos < |s.nodes|
    requires n in s.links
    ensures var t := Joined(s, r, y);
      t.root == y && t.nodes == s.nodes[..s.at[r].pos] + s.nodes[s.at[r].pos + 1..] &&
      (n != r ==> n in t.links && n in t.at && t.links[n] == JoinedLinks(s, r, y, n)
                  && t.at[n] == JoinedPlace(s, s.at[r].pos, y, n))
  {
    hide JoinedLinks, JoinedPlace;
  }

  lemma CanJoinParts(s: Shape, r: Node, y: Node)
    requires CanJoin(s, r, y)
    ensures s.Down(r) && s.Up(r) && s.Down(y) && s.Up(y) && s.at[r].lo == 0 && s.at[r].hi == |s.nodes|
    ensures s.at[y].pos == s.at[r].pos + 1 && s.links[y].left == null && y != r && s.links[r].parent == null
    ensures s.links[r].left != null && s.links[r].right != null
  {
    hide Shape.Down, Shape.Up;
  }

  lemma JoinedNodeDown(s: Shape, r: Node, y: Node, n: Node)
    requires CanJoin(s, r, y) && Near(s, n) && n != r && n != y
    requires s.at[n].hi <= s.at[r].pos || s.at[n].lo > s.at[r].pos
    ensures Joined(s, r, y).Down(n)
  {
    if s.at[n].hi <= s.at[r].pos {
      JoinedLeft(s, r, y, n);
    } else if n == s.links[y].parent {
      JoinedAbove(s, r, y, n);
    } else {
      JoinedRight(s, r, y, n);
    }
  }

  lemma JoinedNodeUp(s: Shape, r: Node, y: Node, n: Node)
    requires CanJoin(s, r, y) && Near(s, n) && n != r && n != y
    requires s.at[n].hi <= s.at[r].pos || s.at[n].lo > s.at[r].pos
    ensures Joined(s, r, y).Up(n)
  {
    hide CanJoin, Near, Joined, Shape.NodeOK;
    CanJoinKeys(s, r, y);
    CanJoinParts(s, r, y);
    NearParts(s, n);
    JoinedAt(s, r, y, n);
    JoinedAt(s, r, y, y);
    var p, q := s.links[n].parent, s.links[y].parent;
    if p != null && p != r { JoinedAt(s, r, y, p); }
    if q != null && q != r { JoinedAt(s, r, y, q); }
  }

  lemma JoinedRest(s: Shape, r: Node, y: Node)
    requires CanJoin(s, r, y) && s.Listed()
    ensures var t := Joined(s, r, y); t.links.Keys == t.at.Keys && t.Listed() && t.RootOK()
  {
  }

  lemma JoinedLinked(s: Shape, r: Node, y: Node)
    requires s.Linked() && CanJoin(s, r, y)
    ensures {r, y} <= s.links.Keys && s.links.Keys == s.at.Keys && s.at[r].pos < |s.nodes| && Joined(s, r, y).Linked()
  {
    hide *;
    ShowLinked(s);
    JoinedRest(s, r, y);
    CanJoinKeys(s, r, y);
    var t := Joined(s, r, y);
    forall n | n in t.at ensures t.NodeOK(n) {
      JoinedKeys(s, r, y, n);
      if n == y {
        JoinedY(s, r, y);
      } else {
        AllNear(s, n);
        OneSideOfRoot(s, r, n);
        JoinedNodeDown(s, r, y, n);
        JoinedNodeUp(s, r, y, n);
        MakeNodeOK(t, n);
      }
    }
    MakeLinked(t);
  }

  lemma JoinFacts(s: Shape, r: Node, y: Node)
    requires s.Linked() && s.root == r && r in s.at && s.links[r].left != null && s.links[r].right != null && y in s.at
    requires s.at[y].pos == s.at[r].pos + 1 && s.links[y].left == null
    ensures CanJoin(s, r, y)
  {
    AllNear(s, y);
    AllNear(s, r);
  }

  lemma JoinedParts(s: Shape, r: Node, y: Node)
    requires {r, y} <= s.links.Keys && s.links.Keys == s.at.Keys && s.at[r].pos < |s.nodes| && CanJoin(s, r, y)
    ensures Joined(s, r, y).at.Keys == s.at.Keys - {r}
    ensures RemovedAt(s.nodes, r, s.at[r].pos, Joined(s, r, y).nodes)
  {
  }

  /** The first node of the right subtree follows the root. */
  lemma RightFirst(s: Shape, r: Node, y: Node)
    requires s.Linked() && s.root == r && r in s.at && s.links[r].right != null && s.links[r].right in s.at
    requires y in s.at && s.at[y].pos == s.at[s.links[r].right].lo
    ensures s.at[y].pos == s.at[r].pos + 1
  {
    AllNear(s, r);
  }

  ghost predicate CanLift(l: map<Node, Links>, z: Node, y: Node)
  {
    && z in l && y in l && y != z && l[y].parent != null && l[y].parent in l && (l[y].right != null ==> l[y].right in l)
    && l[z].right != null && l[z].right in l
    && (l[y].parent != z ==> l[y].right != z && l[y].right != y && l[y].parent != y)
    && (l[y].parent != z ==> l[z].right != y && l[z].right != z)
  }

  ghost function Lifted(l: map<Node, Links>, z: Node, y: Node): map<Node, Links>
    requires CanLift(l, z, y)
  {
    if l[y].parent == z then l
    else
      var m := Replaced(l, y, l[y].right);
      var m1 := m[y := m[y].(right := l[z].right)];
      m1[l[z].right := m1[l[z].right].(parent := y)]
  }

  ghost function Hung(l: map<Node, Links>, z: Node, y: Node): map<Node, Links>
    requires z in l && y in l && l[z].left != null && l[z].left in l && l[z].parent == null
  {
    var m := Replaced(l, z, y);
    var m1 := m[y := m[y].(left := l[z].left)];
    m1[l[z].left := m1[l[z].left].(parent := y)]
  }

  ghost predicate JoinReady(l: map<Node, Links>, z: Node, y: Node)
  {
    CanLift(l, z, y) && z in l && y in l && y != z &&
    var m := Lifted(l, z, y);
    m.Keys == l.Keys && m[z].left != null && m[z].left in m && m[z].left != y && m[z].parent == null
  }

  ghost predicate JoinDone(l: map<Node, Links>, z: Node, y: Node, done: map<Node, Links>)
  {
    JoinReady(l, z, y) && done == Hung(Lifted(l, z, y), z, y)
  }

  /** The pointer assignments of tree_remove for two children, taken together. */
  lemma JoinSteps(s: Shape, r: Node, y: Node)
    requires CanJoin(s, r, y)
    ensures JoinReady(s.links, r, y)
  {
  }

  lemma MiddleFacts(s: Shape, r: Node, y: Node)
    requires s.Linked() && s.root == r && r in s.at && s.links.Keys == s.at.Keys && s.links[r].left != null
    requires s.links[r].right != null && s.links[r].right in s.at && y in s.at
    requires s.at[y].pos == s.at[s.links[r].right].lo && s.links[y].left == null
    ensures CanJoin(s, r, y) && JoinReady(s.links, r, y)
    ensures {r, y} <= s.links.Keys && s.at[r].pos < |s.nodes| && Joined(s, r, y).Linked()
    ensures Joined(s, r, y).at.Keys == s.at.Keys - {r}
    ensures RemovedAt(s.nodes, r, s.at[r].pos, Joined(s, r, y).nodes)
  {
    hide *;
    RightFirst(s, r, y);
    JoinFacts(s, r, y);
    JoinedLinked(s, r, y);
    JoinSteps(s, r, y);
    CanJoinKeys(s, r, y);
    JoinedParts(s, r, y);
  }

  /** The pointers after y has left its place. */
  ghost function LiftedLinks(s: Shape, r: Node, y: Node, n: Node): Links
    requires {r, y, n} <= s.links.Keys
  {
    var l, q, v, c := s.links[n], s.links[y].parent, s.links[y].right, s.links[r].right;
    if q == r then l
    else Links(if n == q then v else l.left, if n == y then c else l.right,
               if n == c then y else if n == v then q else l.parent)
  }

  lemma LiftedAt(s: Shape, r: Node, y: Node, n: Node)
    requires CanJoin(s, r, y) && CanLift(s.links, r, y) && n in s.links
    ensures n in Lifted(s.links, r, y) && {r, y, n} <= s.links.Keys
    ensures Lifted(s.links, r, y)[n] == LiftedLinks(s, r, y, n)
  {
  }

  lemma HungAt(l: map<Node, Links>, z: Node, y: Node, n: Node)
    requires z in l && y in l && n in l && y != z && l[z].left != null && l[z].left in l && l[z].left != y
    requires l[z].parent == null
    ensures n in Hung(l, z, y)
    ensures Hung(l, z, y)[n] ==
      if n == y then Links(l[z].left, l[y].right, null) else if n == l[z].left then l[n].(parent := y) else l[n]
  {
  }

  lemma JoinEffect(s: Shape, r: Node, y: Node, n: Node)
    requires CanJoin(s, r, y) && JoinReady(s.links, r, y) && n in s.links && n != r
    requires n in Hung(Lifted(s.links, r, y), r, y)
    ensures Hung(Lifted(s.links, r, y), r, y)[n] == JoinedLinks(s, r, y, n)
  {
    hide CanJoin, CanLift, Lifted, Hung;
    CanJoinKeys(s, r, y);
    CanJoinParts(s, r, y);
    LiftedAt(s, r, y, n);
    LiftedAt(s, r, y, y);
    LiftedAt(s, r, y, r);
    HungAt(Lifted(s.links, r, y), r, y, n);
  }

  lemma IsJoined(s: Shape, r: Node, y: Node, t: Shape, done: map<Node, Links>)
    requires CanJoin(s, r, y) && {r, y} <= s.links.Keys && s.links.Keys == s.at.Keys && s.at[r].pos < |s.nodes|
    requires t.root == y && t.nodes == Joined(s, r, y).nodes && t.at == Joined(s, r, y).at
    requires t.links.Keys == t.at.Keys && JoinDone(s.links, r, y, done) && t.links == Without(done, r)
    ensures t == Joined(s, r, y)
  {
    hide CanJoin, JoinedLinks, JoinedPlace, Hung, Lifted, JoinReady;
    forall n | n in t.links ensures t.links[n] == JoinedLinks(s, r, y, n) {
      JoinEffect(s, r, y, n);
    }
  }
}
