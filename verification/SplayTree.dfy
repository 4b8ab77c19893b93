/** The splay tree of stree.c: binary search tree nodes linked to their children and parents. */
module SplayTrees {
  import opened SplayShapes
  import opened SplaySteps

  class Tree {
    var root: Node?
    var nodeCount: nat
    var comparisonCount: nat
    ghost var nodes: seq<Node>        // in key order
    ghost var at: map<Node, Place>

    ghost function View(): Shape
      reads `root, `nodes, `at, at.Keys
    {
      Shape(root, nodes, at, LinksOf(at.Keys))
    }

    /** The pointer to x, in its parent or in the tree, is made to point to v. */
    method PointParent(x: Node, v: Node?)
      requires x in at && (x.parent != null ==> x.parent in at)
      modifies this`root, at.Keys
      ensures root == if old(x.parent) == null then v else old(root)
      ensures LinksOf(at.Keys) == Repointed(old(LinksOf(at.Keys)), x, v)
    {
      if x.parent == null {
        root := v;
      } else if x == x.parent.left {
        x.parent.left := v;
      } else {
        x.parent.right := v;
      }
    }

    lemma ShowFields()
      ensures View().root == root && View().nodes == nodes && View().at == at && View().links == LinksOf(at.Keys)
    {
    }

    lemma ShowView()
      ensures View().root == root && View().nodes == nodes && View().at == at && View().links == LinksOf(at.Keys)
      ensures forall n :: n in at ==> View().links[n] == Links(n.left, n.right, n.parent)
    {
    }

    // ---------- rotations ----------

    /** The ghost fields follow the pointers. */
    ghost method SetPlaces(places: map<Node, Place>)
      modifies this`at
      ensures at == places && View() == Shape(root, nodes, places, old(LinksOf(places.Keys)))
    {
      at := places;
    }

    ghost method SetOrder(t: Shape)
      modifies this`nodes, this`at
      ensures nodes == t.nodes && at == t.at && View() == Shape(root, t.nodes, t.at, old(LinksOf(t.at.Keys)))
    {
      nodes, at := t.nodes, t.at;
    }

    /** left_rotate: the right child of x takes its place. */
    method LeftRotate(x: Node)
      requires View().Linked() && x in at && x.right != null
      modifies this`root, this`at, at.Keys
      ensures View().Linked() && LeftReady(old(View()), x, old(x.right))
      ensures View() == LeftRotated(old(View()), x, old(x.right))
    {
      hide *;
      ghost var s := View();
      ShowView();
      var y := x.right;
      LeftRotatedLinked(s, x, y);
      LeftNames(s, x, y);
      TurnLeft(x, y);
      SetPlaces(LeftRotated(s, x, y).at);
      LeftEffect(s, x, y, View());
    }

    /** The pointer assignments of left_rotate. */
    method TurnLeft(x: Node, y: Node)
      requires x in at && y in at && x != y && y.left != x && y.left != y && (y.left != null ==> y.left in at)
      requires x.parent != x && x.parent != y && (x.parent != null ==> x.parent in at)
      requires LeftMoved(LinksOf(at.Keys), x, y).Keys == at.Keys
      requires LeftMoved(LinksOf(at.Keys), x, y)[x].parent == x.parent
      modifies this`root, at.Keys
      ensures root == if old(x.parent) == null then y else old(root)
      ensures LeftDone(old(LinksOf(at.Keys)), x, y, LinksOf(at.Keys))
    {
      hide *;
      ghost var l0 := LinksOf(at.Keys);
      MoveLeft(x, y);
      ghost var l := LinksOf(at.Keys);
      LinksAt(at.Keys, x);
      SwingLeft(x, y);
      IsLeftDone(l0, x, y, l, LinksOf(at.Keys));
    }

    /** The left subtree of y becomes the right subtree of x, and y hangs from x's parent. */
    method MoveLeft(x: Node, y: Node)
      requires x in at && y in at && x != y && y.left != x && y.left != y && (y.left != null ==> y.left in at)
      modifies at.Keys
      ensures LinksOf(at.Keys) == LeftMoved(old(LinksOf(at.Keys)), x, y)
    {
      x.right := y.left;
      if y.left != null { y.left.parent := x; }
      y.parent := x.parent;
    }

    method SwingLeft(x: Node, y: Node)
      requires x in at && y in at && x != y && x.parent != x && x.parent != y && (x.parent != null ==> x.parent in at)
      modifies this`root, at.Keys
      ensures root == if old(x.parent) == null then y else old(root)
      ensures LinksOf(at.Keys) == LeftSwung(old(LinksOf(at.Keys)), x, y)
    {
      hide Repointed;
      PointParent(x, y);
      y.left := x;
      x.parent := y;
    }

    /** right_rotate: the left child of x takes its place. */
    method RightRotate(x: Node)
      requires View().Linked() && x in at && x.left != null
      modifies this`root, this`at, at.Keys
      ensures View().Linked() && RightReady(old(View()), x, old(x.left))
      ensures View() == RightRotated(old(View()), x, old(x.left))
    {
      hide *;
      ghost var s := View();
      ShowView();
      var y := x.left;
      RightRotatedLinked(s, x, y);
      RightNames(s, x, y);
      TurnRight(x, y);
      SetPlaces(RightRotated(s, x, y).at);
      RightEffect(s, x, y, View());
    }

    /** The pointer assignments of right_rotate. */
    method TurnRight(x: Node, y: Node)
      requires x in at && y in at && x != y && y.right != x && y.right != y && (y.right != null ==> y.right in at)
      requires x.parent != x && x.parent != y && (x.parent != null ==> x.parent in at)
      requires RightMoved(LinksOf(at.Keys), x, y).Keys == at.Keys
      requires RightMoved(LinksOf(at.Keys), x, y)[x].parent == x.parent
      modifies this`root, at.Keys
      ensures root == if old(x.parent) == null then y else old(root)
      ensures RightDone(old(LinksOf(at.Keys)), x, y, LinksOf(at.Keys))
    {
      hide *;
      ghost var l0 := LinksOf(at.Keys);
      MoveRight(x, y);
      ghost var l := LinksOf(at.Keys);
      LinksAt(at.Keys, x);
      SwingRight(x, y);
      IsRightDone(l0, x, y, l, LinksOf(at.Keys));
    }

    /** The right subtree of y becomes the left subtree of x, and y hangs from x's parent. */
    method MoveRight(x: Node, y: Node)
      requires x in at && y in at && x != y && y.right != x && y.right != y && (y.right != null ==> y.right in at)
      modifies at.Keys
      ensures LinksOf(at.Keys) == RightMoved(old(LinksOf(at.Keys)), x, y)
    {
      x.left := y.right;
      if y.right != null { y.right.parent := x; }
      y.parent := x.parent;
    }

    method SwingRight(x: Node, y: Node)
      requires x in at && y in at && x != y && x.parent != x && x.parent != y && (x.parent != null ==> x.parent in at)
      modifies this`root, at.Keys
      ensures root == if old(x.parent) == null then y else old(root)
      ensures LinksOf(at.Keys) == RightSwung(old(LinksOf(at.Keys)), x, y)
    {
      hide Repointed;
      PointParent(x, y);
      y.right := x;
      x.parent := y;
    }

    // ---------- splaying ----------

    /** Subtree x is larger than it was in s, and the tree is otherwise the same one. */
    ghost predicate Raised(s: Shape, x: Node)
      reads `root, `nodes, `at, at.Keys
    {
      && View().Linked() && nodes == s.nodes && at.Keys == s.at.Keys && x in at && x in s.at
      && at[x].hi - at[x].lo > s.at[x].hi - s.at[x].lo
    }

    method Zig(x: Node)
      requires View().Linked() && x in at && x.parent != null
      modifies this`root, this`at, at.Keys
      requires x.parent.parent == null
      ensures Raised(old(View()), x) && Stepped(old(View()), x, View())
    {
      hide *;
      ghost var s, p := View(), x.parent;
      ShowView();
      FamilyOf(s, x);
      if x.parent.left == x {
        RightFacts(s, x.parent, x);
        RightTurn(s, x.parent, x);
        RightRotate(x.parent);
      } else {
        LeftFacts(s, x.parent, x);
        LeftTurn(s, x.parent, x);
        LeftRotate(x.parent);
      }
      ShowView();
      ShowRotation(s, p, x, View());
      MakeRaised(s, x);
      OneTurn(s, x, p, View());
    }

    /** x is a left child of a left child: two right rotations, the grandparent first. */
    method TwiceRight(x: Node)
      requires View().Linked() && x in at && x.parent != null && x.parent.parent != null
      requires x.parent.left == x && x.parent.parent.left == x.parent
      modifies this`root, this`at, at.Keys
      ensures Raised(old(View()), x) && Stepped(old(View()), x, View())
    {
      hide *;
      ghost var s, g, q := View(), x.parent.parent, x.parent;
      ShowView();
      FamilyOf(s, x);
      ParentOf(s, q);
      RightFacts(s, g, q);
      RightTurn(s, g, q);
      RightRotate(x.parent.parent);
      ghost var s1 := View();
      ShowView();
      ShowRotation(s, g, q, s1);
      ShowSame(s, s1, x);
      RightFacts(s1, q, x);
      RightTurn(s1, q, x);
      RightRotate(x.parent);
      ShowView();
      ShowRotation(s1, q, x, View());
      MakeRaised(s, x);
      TwiceRightSteps(s, s1, x, q, g, View());
    }

    /** x is a right child of a right child: two left rotations, the grandparent first. */
    method TwiceLeft(x: Node)
      requires View().Linked() && x in at && x.parent != null && x.parent.parent != null
      requires x.parent.right == x && x.parent.parent.right == x.parent
      modifies this`root, this`at, at.Keys
      ensures Raised(old(View()), x) && Stepped(old(View()), x, View())
    {
      hide *;
      ghost var s, g, q := View(), x.parent.parent, x.parent;
      ShowView();
      FamilyOf(s, x);
      ParentOf(s, q);
      LeftFacts(s, g, q);
      LeftTurn(s, g, q);
      LeftRotate(x.parent.parent);
      ghost var s1 := View();
      ShowView();
      ShowRotation(s, g, q, s1);
      ShowSame(s, s1, x);
      LeftFacts(s1, q, x);
      LeftTurn(s1, q, x);
      LeftRotate(x.parent);
      ShowView();
      ShowRotation(s1, q, x, View());
      MakeRaised(s, x);
      TwiceLeftSteps(s, s1, x, q, g, View());
    }

    /** x is a left child of a right child: a right rotation at the parent, then a left one above. */
    method RightThenLeft(x: Node)
      requires View().Linked() && x in at && x.parent != null && x.parent.parent != null
      requires x.parent.left == x && x.parent.parent.right == x.parent && x.parent.parent.left != x.parent
      modifies this`root, this`at, at.Keys
      ensures Raised(old(View()), x) && Stepped(old(View()), x, View())
    {
      hide *;
      ghost var s, g, q := View(), x.parent.parent, x.parent;
      ShowView();
      FamilyOf(s, x);
      ParentOf(s, q);
      RightFacts(s, q, x);
      RightTurn(s, q, x);
      RightRotate(x.parent);
      ghost var s1 := View();
      ShowView();
      ShowRotation(s, q, x, s1);
      ShowAbove(s, q, x, s1);
      ParentOf(s1, x);
      LeftFacts(s1, g, x);
      LeftTurn(s1, g, x);
      LeftRotate(x.parent);
      ShowView();
      ShowRotation(s1, g, x, View());
      MakeRaised(s, x);
      RightLeftSteps(s, s1, x, q, g, View());
    }

    /** x is a right child of a left child: a left rotation at the parent, then a right one above. */
    method LeftThenRight(x: Node)
      requires View().Linked() && x in at && x.parent != null && x.parent.parent != null
      requires x.parent.right == x && x.parent.parent.left == x.parent && x.parent.parent.right != x.parent
      modifies this`root, this`at, at.Keys
      ensures Raised(old(View()), x) && Stepped(old(View()), x, View())
    {
      hide *;
      ghost var s, g, q := View(), x.parent.parent, x.parent;
      ShowView();
      FamilyOf(s, x);
      ParentOf(s, q);
      LeftFacts(s, q, x);
      LeftTurn(s, q, x);
      LeftRotate(x.parent);
      ghost var s1 := View();
      ShowView();
      ShowRotation(s, q, x, s1);
      ShowAbove(s, q, x, s1);
      ParentOf(s1, x);
      RightFacts(s1, g, x);
      RightTurn(s1, g, x);
      RightRotate(x.parent);
      ShowView();
      ShowRotation(s1, g, x, View());
      MakeRaised(s, x);
      LeftRightSteps(s, s1, x, q, g, View());
    }

    /** One turn of the loop of splay. */
    method SplayStep(x: Node)
      requires View().Linked() && x in at && x.parent != null
      modifies this`root, this`at, at.Keys
      ensures Raised(old(View()), x) && Stepped(old(View()), x, View())
    {
      hide *;
      ghost var s := View();
      ShowView();
      ParentOf(s, x);
      if x.parent.parent == null {
        Zig(x);
      } else {
        ParentOf(s, x.parent);
        if x.parent.left == x && x.parent.parent.left == x.parent {
          TwiceRight(x);
        } else if x.parent.right == x && x.parent.parent.right == x.parent {
          TwiceLeft(x);
        } else if x.parent.left == x && x.parent.parent.right == x.parent {
          OneSide(s, x.parent.parent, x.parent);
          RightThenLeft(x);
        } else {
          OneSide(s, x.parent.parent, x.parent);
          LeftThenRight(x);
        }
      }
    }

    /** splay: x becomes the root; the in-order sequence stays as it is. */
    method Splay(x: Node) returns (ghost path: seq<Shape>)
      requires View().Linked() && x in at
      modifies this`root, this`at, at.Keys
      ensures View().Linked() && nodes == old(nodes) && at.Keys == old(at.Keys) && root == x
      ensures Splayed(old(View()), x, path, View())
    {
      hide Shape.Linked, Stepped;
      path := [View()];
      while x.parent != null
        invariant View().Linked() && nodes == old(nodes) && at.Keys == old(at.Keys)
        invariant Splaying(path, x) && path[0] == old(View()) && path[|path| - 1] == View()
        decreases |nodes| - (at[x].hi - at[x].lo)
      {
        ghost var s := View();
        SizeBound(s, x);
        SplayStep(x);
        SizeBound(View(), x);
        path := path + [View()];
      }
      AllNear(View(), x);
    }

    lemma MakeRaised(s: Shape, x: Node)
      requires View().Linked() && nodes == s.nodes && at.Keys == s.at.Keys && x in at && x in s.at
      requires at[x].hi - at[x].lo > s.at[x].hi - s.at[x].lo
      ensures Raised(s, x)
    {
    }

    // ---------- searching ----------

    ghost predicate Valid()
      reads `root, `nodes, `at, `nodeCount, at.Keys
    {
      View().Linked() && Ordered(nodes) && nodeCount == |nodes|
    }

    /** tree_new */
    constructor ()
      ensures Valid() && nodes == [] && comparisonCount == 0
    {
      root, nodeCount, comparisonCount := null, 0, 0;
      nodes, at := [], map[];
    }

    /** The search is at z, whose subtree is where the key would be. */
    ghost predicate At(z: Node?, key: int, lo: nat, hi: nat)
      reads `nodes, `at
    {
      && lo <= hi <= |nodes| && Between(nodes, key, lo, hi) && (z == null <==> lo == hi)
      && (z != null ==> z in at && at[z].lo == lo && at[z].hi == hi)
    }

    lemma StartSearch(key: int)
      requires Valid()
      ensures At(root, key, 0, |nodes|) && Ordered(nodes)
    {
    }

    lemma Descend(z: Node, key: int, lo: nat, hi: nat)
      requires Valid() && At(z, key, lo, hi)
      ensures lo <= at[z].pos < hi && nodes[at[z].pos] == z
      ensures z.key < key ==> At(z.right, key, at[z].pos + 1, hi)
      ensures key < z.key ==> At(z.left, key, lo, at[z].pos)
    {
      assert View().NodeOK(z);
    }

    /** tree_find: the record of the key, or the null pointer. */
    method Find(key: int) returns (record: nat)
      requires Valid()
      modifies this`comparisonCount
      ensures HasKey(nodes, key) ==> exists i :: 0 <= i < |nodes| && nodes[i].key == key && record == nodes[i].record
      ensures !HasKey(nodes, key) ==> record == NULL
      ensures old(comparisonCount) <= comparisonCount <= old(comparisonCount) + 2 * |nodes|
    {
      hide Valid, Ordered, Between;
      var z := root;
      ghost var lo: nat, hi: nat := 0, |nodes|;
      StartSearch(key);
      while z != null
        invariant Valid() && At(z, key, lo, hi) && hi - lo <= |nodes|
        invariant old(comparisonCount) <= comparisonCount <= old(comparisonCount) + 2 * (|nodes| - (hi - lo))
        decreases hi - lo
      {
        Descend(z, key, lo, hi);
        comparisonCount := comparisonCount + 1;
        if key == z.key {
          assert nodes[at[z].pos].key == key && HasKey(nodes, key);
          return z.record;
        }
        comparisonCount := comparisonCount + 1;
        if key > z.key {
          lo := at[z].pos + 1;
          z := z.right;
        } else {
          hi := at[z].pos;
          z := z.left;
        }
      }
      NotThere(nodes, key, lo);
      record := NULL;
    }

    /** tree_find_nearest: the record of the largest key that is not above the given one. */
    method FindNearest(key: int) returns (record: nat)
      requires Valid()
      modifies this`comparisonCount
      ensures (forall i :: 0 <= i < |nodes| ==> nodes[i].key > key) ==> record == NULL
      ensures !(forall i :: 0 <= i < |nodes| ==> nodes[i].key > key) ==>
        exists i :: IsNearest(nodes, key, i) && record == nodes[i].record
      ensures old(comparisonCount) <= comparisonCount <= old(comparisonCount) + 2 * |nodes|
    {
      hide Valid, Ordered, Between, IsNearest;
      var z := root;
      var n: Node? := null;
      ghost var lo: nat, hi: nat := 0, |nodes|;
      StartSearch(key);
      while z != null
        invariant Valid() && At(z, key, lo, hi) && hi - lo <= |nodes|
        invariant if n == null then lo == 0 else 0 < lo && n == nodes[lo - 1]
        invariant old(comparisonCount) <= comparisonCount <= old(comparisonCount) + 2 * (|nodes| - (hi - lo))
        decreases hi - lo
      {
        Descend(z, key, lo, hi);
        comparisonCount := comparisonCount + 1;
        if key == z.key {
          NearestIs(nodes, key, at[z].pos);
          return z.record;
        }
        comparisonCount := comparisonCount + 1;
        if key > z.key {
          if n != null { KeysRise(nodes, lo - 1, at[z].pos); }
          if n == null || n.key < z.key {
            n := z;
          }
          lo := at[z].pos + 1;
          z := z.right;
        } else {
          hi := at[z].pos;
          z := z.left;
        }
      }
      NearestEnd(nodes, key, lo);
      return if n != null then n.record else NULL;
    }

    // ---------- inserting ----------

    /** tree_insert: false if the key is there; else the new node gets its place in key order and becomes the root. */
    method Insert(key: int, record: nat) returns (added: bool)
      requires Valid()
      modifies this, at.Keys
      ensures Valid() && added == !HasKey(old(nodes), key)
      ensures !added ==> nodes == old(nodes) && root == old(root) && LinksOf(at.Keys) == old(LinksOf(at.Keys))
      ensures added ==> root != null && fresh(root) && root.key == key && root.record == record
      ensures added ==> exists k :: InsertedAt(old(nodes), root, k, nodes)
      ensures added ==>
        exists p, k, onRight, path :: GrownAndSplayed(old(View()), p, root, k, onRight, path, View())
      ensures old(comparisonCount) <= comparisonCount <= old(comparisonCount) + 2 * |old(nodes)|
    {
      hide *;
      var p, k := FindPlace(key);
      if p != null && p.key == key {
        return false;
      }
      ghost var was := nodes;
      ShowValid();
      NotThere(nodes, key, k);
      ghost var path := InsertNode(p, key, record, k);
      nodeCount := nodeCount + 1;
      OrderedGrown(was, root, k, nodes);
      MakeValid();
      return true;
    }

    /** tree_insert once the place is found. */
    method InsertNode(p: Node?, key: int, record: nat, ghost k: nat) returns (ghost path: seq<Shape>)
      requires View().Linked() && k <= |nodes| && (p == null ==> nodes == [] && k == 0) && (p != null ==> p in at)
      requires p != null && p.key < key ==> p.right == null && k == at[p].pos + 1
      requires p != null && p.key >= key ==> p.left == null && k == at[p].pos
      modifies this`root, this`nodes, this`at, at.Keys
      ensures root != null && fresh(root) && root.key == key && root.record == record && View().Linked()
      ensures at.Keys == old(at.Keys) + {root} && InsertedAt(old(nodes), root, k, nodes)
      ensures GrownAndSplayed(old(View()), p, root, k, p != null && p.key < key, path, View())
    {
      hide *;
      ShowFields();
      var z := Attach(p, key, record, k);
      path := Splay(z);
      IsGrownAndSplayed(old(View()), p, z, k, p != null && p.key < key, path, View());
    }

    lemma ShowValid()
      requires Valid()
      ensures View().Linked() && Ordered(nodes) && nodeCount == |nodes|
    {
    }

    lemma MakeValid()
      requires View().Linked() && Ordered(nodes) && nodeCount == |nodes|
      ensures Valid()
    {
    }

    /** The new node of tree_insert, before it is splayed. */
    method Attach(p: Node?, key: int, record: nat, ghost k: nat) returns (z: Node)
      requires View().Linked() && k <= |nodes| && (p == null ==> nodes == [] && k == 0) && (p != null ==> p in at)
      requires p != null && p.key < key ==> p.right == null && k == at[p].pos + 1
      requires p != null && p.key >= key ==> p.left == null && k == at[p].pos
      modifies this`root, this`nodes, this`at, at.Keys
      ensures fresh(z) && z.key == key && z.record == record && View().Linked()
      ensures at.Keys == old(at.Keys) + {z} && InsertedAt(old(nodes), z, k, nodes)
      ensures CanGrow(old(View()), p, z, k, p != null && p.key < key)
      ensures View() == Grown(old(View()), p, z, k, p != null && p.key < key)
    {
      hide *;
      ghost var s, onRight := View(), p != null && p.key < key;
      ShowFields();
      if p != null { LinksAt(at.Keys, p); }
      z := LinkNew(p, key, record);
      ShowGrown(s, p, z, k, onRight);
      SetOrder(Grown(s, p, z, k, onRight));
      IsGrown(s, p, z, k, onRight, View());
    }

    /** The pointer assignments of tree_insert. */
    method LinkNew(p: Node?, key: int, record: nat) returns (z: Node)
      requires p != null ==> p in at
      modifies this`root, at.Keys
      ensures fresh(z) && z.key == key && z.record == record && z !in at
      ensures root == if p == null then z else old(root)
      ensures LinksOf(at.Keys + {z}) == LinksGrown(old(LinksOf(at.Keys)), p, z, p != null && p.key < key)
    {
      z := new Node(key, record, p);
      if p == null {
        root := z;
      } else if p.key < z.key {
        p.right := z;
      } else {
        p.left := z;
      }
    }

    /** The search of tree_insert: where the key is, or under which node it goes. */
    method FindPlace(key: int) returns (p: Node?, ghost k: nat)
      requires Valid()
      modifies this`comparisonCount
      ensures Valid() && (p == null <==> nodes == []) && (p != null ==> p in at)
      ensures p != null && p.key == key ==> HasKey(nodes, key)
      ensures p == null || p.key != key ==> k <= |nodes| && Between(nodes, key, k, k)
      ensures p != null && p.key < key ==> p.right == null && k == at[p].pos + 1
      ensures p != null && p.key > key ==> p.left == null && k == at[p].pos
      ensures p == null ==> k == 0
      ensures old(comparisonCount) <= comparisonCount <= old(comparisonCount) + 2 * |nodes|
    {
      hide Valid, Ordered, Between;
      var z := root;
      p := null;
      k := 0;
      ghost var lo: nat, hi: nat := 0, |nodes|;
      StartSearch(key);
      while z != null
        invariant Valid() && At(z, key, lo, hi)
        invariant old(comparisonCount) <= comparisonCount <= old(comparisonCount) + 2 * (|nodes| - (hi - lo))
        invariant p == null ==> z == root && lo == 0 && hi == |nodes|
        invariant p != null ==> p in at && p.key != key && nodes != []
        invariant p != null && p.key < key ==> z == p.right && lo == at[p].pos + 1
        invariant p != null && p.key > key ==> z == p.left && hi == at[p].pos
        decreases hi - lo
      {
        p := z;
        Descend(z, key, lo, hi);
        comparisonCount := comparisonCount + 1;
        if key == z.key {
          assert nodes[at[z].pos].key == key && HasKey(nodes, key);
          return;
        }
        comparisonCount := comparisonCount + 1;
        if key > z.key {
          lo := at[z].pos + 1;
          z := z.right;
        } else {
          hi := at[z].pos;
          z := z.left;
        }
      }
      k := lo;
    }

    // ---------- removing ----------

    /** tree_remove: the record of the key, which leaves the tree, or the null pointer. */
    method Remove(key: int) returns (record: nat)
      requires Valid()
      modifies this, at.Keys
      ensures Valid()
      ensures !HasKey(old(nodes), key) ==>
        record == NULL && nodes == old(nodes) && root == old(root) && LinksOf(at.Keys) == old(LinksOf(at.Keys))
      ensures HasKey(old(nodes), key) ==>
        exists z: Node, k: nat :: RemovedAt(old(nodes), z, k, nodes) && z.key == key && z.record == record
      ensures HasKey(old(nodes), key) ==>
        exists z: Node, path: seq<Shape> :: z.key == key && SplayedAndTaken(old(View()), z, path, View())
      ensures old(comparisonCount) <= comparisonCount <= old(comparisonCount) + |old(nodes)|
    {
      hide *;
      var z := FindNode(key);
      if z == null {
        return NULL;
      }
      ShowValid();
      ghost var was := nodes;
      ghost var k, path := RemoveNode(z);
      record := z.record;
      OrderedCut(was, z, k, nodes);
      nodeCount := nodeCount - 1;
      MakeValid();
    }

    /** tree_remove once the node is found. */
    method RemoveNode(z: Node) returns (ghost k: nat, ghost path: seq<Shape>)
      requires View().Linked() && z in at
      modifies this`root, this`nodes, this`at, at.Keys
      ensures View().Linked() && at.Keys == old(at.Keys) - {z}
      ensures RemovedAt(old(nodes), z, k, nodes)
      ensures SplayedAndTaken(old(View()), z, path, View())
    {
      hide *;
      path := Splay(z);
      ghost var s := View();
      ShowView();
      k := IndexOf(View(), z);
      TakeRoot(z);
      IsSplayedAndTaken(old(View()), z, path, s, View());
    }

    /** The search of tree_remove. */
    method FindNode(key: int) returns (z: Node?)
      requires Valid()
      modifies this`comparisonCount
      ensures z == null <==> !HasKey(nodes, key)
      ensures z != null ==> z in at && z.key == key
      ensures old(comparisonCount) <= comparisonCount <= old(comparisonCount) + |nodes|
    {
      hide Valid, Ordered, Between;
      z := root;
      ghost var lo: nat, hi: nat := 0, |nodes|;
      StartSearch(key);
      while z != null && z.key != key
        invariant At(z, key, lo, hi)
        invariant old(comparisonCount) <= comparisonCount <= old(comparisonCount) + (|nodes| - (hi - lo))
        decreases hi - lo
      {
        Descend(z, key, lo, hi);
        comparisonCount := comparisonCount + 1;
        if key > z.key {
          lo := at[z].pos + 1;
          z := z.right;
        } else {
          hi := at[z].pos;
          z := z.left;
        }
      }
      if z == null {
        NotThere(nodes, key, lo);
      } else {
        Descend(z, key, lo, hi);
        assert nodes[at[z].pos].key == key;
      }
    }

    /** replace: v comes where u was, as far as u's parent and v are concerned. */
    method Replace(u: Node, v: Node?)
      requires u in at && (u.parent != null ==> u.parent in at) && (v != null ==> v in at)
      modifies this`root, at.Keys
      ensures root == if old(u.parent) == null then v else old(root)
      ensures LinksOf(at.Keys) == Replaced(old(LinksOf(at.Keys)), u, v)
    {
      hide Repointed;
      PointParent(u, v);
      if v != null { v.parent := u.parent; }
    }

    /** The three cases of tree_remove, for a key at the root. */
    method TakeRoot(z: Node)
      requires View().Linked() && root == z && z in at
      modifies this`root, this`nodes, this`at, at.Keys
      ensures View().Linked() && at.Keys == old(at.Keys) - {z}
      ensures RemovedAt(old(nodes), z, old(at)[z].pos, nodes) && RootTaken(old(View()), z, View())
    {
      hide *;
      if z.left == null {
        TakeFirst(z);
      } else if z.right == null {
        TakeLast(z);
      } else {
        TakeMiddle(z);
      }
    }

    method TakeFirst(z: Node)
      requires View().Linked() && root == z && z in at && z.left == null
      modifies this`root, this`nodes, this`at, at.Keys
      ensures View().Linked() && at.Keys == old(at.Keys) - {z} && RemovedAt(old(nodes), z, old(at)[z].pos, nodes)
      ensures RootTaken(old(View()), z, View())
    {
      hide *;
      ghost var s := View();
      ShowView();
      RootFacts(s, z);
      CutFirstLinked(s, z);
      Replace(z, z.right);
      ghost var done := LinksOf(at.Keys);
      DropNode(at.Keys, z);
      SetOrder(CutFirst(s, z));
      CutFirstKeys(s, z);
      IsCutFirst(s, z, done, View());
      FirstTaken(s, z, View());
    }

    method TakeLast(z: Node)
      requires View().Linked() && root == z && z in at && z.left != null && z.right == null
      modifies this`root, this`nodes, this`at, at.Keys
      ensures View().Linked() && at.Keys == old(at.Keys) - {z} && RemovedAt(old(nodes), z, old(at)[z].pos, nodes)
      ensures RootTaken(old(View()), z, View())
    {
      hide *;
      ghost var s := View();
      ShowView();
      RootFacts(s, z);
      CutLastLinked(s, z);
      Replace(z, z.left);
      ghost var done := LinksOf(at.Keys);
      DropNode(at.Keys, z);
      SetOrder(CutLast(s, z));
      CutLastKeys(s, z);
      IsCutLast(s, z, done, View());
      LastTaken(s, z, View());
    }

    method TakeMiddle(z: Node)
      requires View().Linked() && root == z && z in at && z.left != null && z.right != null
      modifies this`root, this`nodes, this`at, at.Keys
      ensures View().Linked() && at.Keys == old(at.Keys) - {z}
      ensures RemovedAt(old(nodes), z, old(at)[z].pos, nodes) && RootTaken(old(View()), z, View())
    {
      hide *;
      ghost var s := View();
      ShowView();
      RootFacts(s, z);
      var y := Minimum(z.right);
      MiddleFacts(s, z, y);
      Rewire(z, y);
      ghost var done := LinksOf(at.Keys);
      DropNode(at.Keys, z);
      SetOrder(Joined(s, z, y));
      IsJoined(s, z, y, View(), done);
      MiddleTaken(s, z, y, View());
    }

    /** The pointer assignments for two children. */
    method Rewire(z: Node, y: Node)
      requires JoinReady(LinksOf(at.Keys), z, y)
      modifies this`root, at.Keys
      ensures root == y && JoinDone(old(LinksOf(at.Keys)), z, y, LinksOf(at.Keys))
    {
      hide Lifted, Hung, CanLift;
      Lift(z, y);
      ghost var l := LinksOf(at.Keys);
      assert z.parent == l[z].parent && z.left == l[z].left;
      Hang(z, y);
    }

    /** y gives its place to its right child and takes the right subtree of z. */
    method Lift(z: Node, y: Node)
      requires CanLift(LinksOf(at.Keys), z, y)
      modifies this`root, at.Keys
      ensures root == old(root) && LinksOf(at.Keys) == Lifted(old(LinksOf(at.Keys)), z, y)
    {
      if y.parent != z {
        ghost var l := LinksOf(at.Keys);
        Replace(y, y.right);
        ghost var m := LinksOf(at.Keys);
        assert z.right == m[z].right && m[z] == l[z];
        AdoptRight(z, y);
      }
    }

    /** The right subtree of z goes to y. */
    method AdoptRight(z: Node, y: Node)
      requires z in at && y in at && z != y && z.right != null && z.right in at && z.right != z && z.right != y
      modifies at.Keys
      ensures var l := old(LinksOf(at.Keys)); var c := old(z.right);
        LinksOf(at.Keys) == l[y := l[y].(right := c)][c := l[c].(parent := y)]
    {
      y.right := z.right;
      y.right.parent := y;
    }

    /** y takes the place and the left subtree of z. */
    method Hang(z: Node, y: Node)
      requires z in at && y in at && y != z && z.left != null && z.left in at && z.left != y && z.parent == null
      modifies this`root, at.Keys
      ensures root == y && LinksOf(at.Keys) == Hung(old(LinksOf(at.Keys)), z, y)
    {
      Replace(z, y);
      y.left := z.left;
      y.left.parent := y;
    }

    /** subtree_minimum: the first node of the subtree of u. */
    method Minimum(u: Node) returns (y: Node)
      requires View().Linked() && u in at
      ensures y in at && y.left == null && at[y].pos == at[u].lo
    {
      y := u;
      while y.left != null
        invariant y in at && at[y].lo == at[u].lo
        decreases at[y].hi - at[y].lo
      {
        assert View().NodeOK(y);
        y := y.left;
        assert View().NodeOK(y);
      }
      assert View().NodeOK(y);
    }
  }
}
