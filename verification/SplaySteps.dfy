/**
 * What a step of splaying does to the pointers, and what splaying does to the depths: every node on the
 * path to the splayed node comes about twice as near to the root, and no node sinks by more than two.
 */
module SplaySteps {
  import opened SplayShapes

  // ---------- rotations, seen at the children ----------

  /** c, or x where c was g. */
  function Swapped(c: Node?, g: Node, x: Node): Node?
  {
    if c == g then x else c
  }

  /** n has the children it had, except that x is where g was. */
  ghost predicate KeepsChildren(l: map<Node, Links>, z: map<Node, Links>, n: Node, g: Node, x: Node)
  {
    n in l && n in z && z[n].left == Swapped(l[n].left, g, x) && z[n].right == Swapped(l[n].right, g, x)
  }

  ghost predicate Kids(z: map<Node, Links>, n: Node, left: Node?, right: Node?)
  {
    n in z && z[n].left == left && z[n].right == right
  }

  /** All but these nodes have the children they had, except that x is where g was. */
  ghost predicate OthersKeep(l: map<Node, Links>, z: map<Node, Links>, those: set<Node>, g: Node, x: Node)
  {
    forall n :: n in l && n !in those ==> KeepsChildren(l, z, n, g, x)
  }

  /** x came up from the left of p. */
  ghost predicate CameFromLeft(l: map<Node, Links>, p: Node, x: Node, z: map<Node, Links>)
  {
    && p in l && x in l && z.Keys == l.Keys && z[x].parent == l[p].parent && z[p].parent == x
    && Kids(z, x, l[x].left, p) && Kids(z, p, l[x].right, l[p].right) && OthersKeep(l, z, {p, x}, p, x)
  }

  /** x came up from the right of p. */
  ghost predicate CameFromRight(l: map<Node, Links>, p: Node, x: Node, z: map<Node, Links>)
  {
    && p in l && x in l && z.Keys == l.Keys && z[x].parent == l[p].parent && z[p].parent == x
    && Kids(z, x, p, l[x].right) && Kids(z, p, l[p].left, l[x].left) && OthersKeep(l, z, {p, x}, p, x)
  }

  /** The same two rotations, seen at the index ranges of the subtrees. */
  ghost predicate UpFromLeft(at: map<Node, Place>, p: Node, x: Node, bt: map<Node, Place>)
    requires p in at && x in at
  {
    bt == at[p := at[p].(lo := at[x].pos + 1)][x := at[x].(lo := at[p].lo, hi := at[p].hi)]
  }

  ghost predicate UpFromRight(at: map<Node, Place>, p: Node, x: Node, bt: map<Node, Place>)
    requires p in at && x in at
  {
    bt == at[p := at[p].(hi := at[x].pos)][x := at[x].(lo := at[p].lo, hi := at[p].hi)]
  }

  ghost predicate TurnedRight(s: Shape, p: Node, x: Node, t: Shape)
  {
    && p in s.at && x in s.at && t.nodes == s.nodes && CameFromLeft(s.links, p, x, t.links)
    && UpFromLeft(s.at, p, x, t.at)
  }

  ghost predicate TurnedLeft(s: Shape, p: Node, x: Node, t: Shape)
  {
    && p in s.at && x in s.at && t.nodes == s.nodes && CameFromRight(s.links, p, x, t.links)
    && UpFromRight(s.at, p, x, t.at)
  }

  /** Nobody but its parent has x as a child. */
  lemma OnlyParent(s: Shape, x: Node, n: Node)
    requires s.Linked() && x in s.at && n in s.at && n in s.links && x in s.links && s.links[x].parent != n
    ensures s.links[n].left != x && s.links[n].right != x
  {
    AllNear(s, n);
  }

  lemma RightTurn(s: Shape, p: Node, x: Node)
    requires s.Linked() && p in s.at && p in s.links && s.links[p].left == x
    ensures RightReady(s, p, x) && TurnedRight(s, p, x, RightRotated(s, p, x))
  {
    RightIsReady(s, p, x);
    RightNames(s, p, x);
    RightRotatedKeys(s, p, x);
    ShowLinked(s);
    hide Shape.Linked, RightReady;
    var t := RightRotated(s, p, x);
    forall n | n in s.links && n != p && n != x ensures KeepsChildren(s.links, t.links, n, p, x) {
      RightTurnAt(s, p, x, n);
    }
    RightLinksAt(s, p, x, p);
    RightLinksAt(s, p, x, x);
  }

  lemma RightTurnAt(s: Shape, p: Node, x: Node, n: Node)
    requires s.Linked() && p in s.at && RightReady(s, p, x) && n in s.links && n != p && n != x
    ensures KeepsChildren(s.links, RightRotated(s, p, x).links, n, p, x)
  {
    RightNames(s, p, x);
    RightLinksAt(s, p, x, n);
    ShowLinked(s);
    if s.links[p].parent != n { OnlyParent(s, p, n); } else { OneSide(s, n, p); }
  }

  lemma LeftTurn(s: Shape, p: Node, x: Node)
    requires s.Linked() && p in s.at && p in s.links && s.links[p].right == x
    ensures LeftReady(s, p, x) && TurnedLeft(s, p, x, LeftRotated(s, p, x))
  {
    LeftIsReady(s, p, x);
    LeftNames(s, p, x);
    LeftRotatedKeys(s, p, x);
    ShowLinked(s);
    hide Shape.Linked, LeftReady;
    var t := LeftRotated(s, p, x);
    forall n | n in s.links && n != p && n != x ensures KeepsChildren(s.links, t.links, n, p, x) {
      LeftTurnAt(s, p, x, n);
    }
    LeftLinksAt(s, p, x, p);
    LeftLinksAt(s, p, x, x);
  }

  lemma LeftTurnAt(s: Shape, p: Node, x: Node, n: Node)
    requires s.Linked() && p in s.at && LeftReady(s, p, x) && n in s.links && n != p && n != x
    ensures KeepsChildren(s.links, LeftRotated(s, p, x).links, n, p, x)
  {
    LeftNames(s, p, x);
    LeftLinksAt(s, p, x, n);
    ShowLinked(s);
    if s.links[p].parent != n { OnlyParent(s, p, n); } else { OneSide(s, n, p); }
  }

  // ---------- the steps ----------

  /** x has a parent p; the parent of p is g. */
  ghost predicate Family(l: map<Node, Links>, x: Node, p: Node, g: Node?)
  {
    && x in l && p in l && l[x].parent == p && l[p].parent == g && x != p
    && (g != null ==> g in l && g != x && g != p)
  }

  /** x is a child of the root p and takes its place. */
  ghost predicate RootStep(l: map<Node, Links>, x: Node, p: Node, z: map<Node, Links>)
    requires x in l && p in l
  {
    && OthersKeep(l, z, {x, p}, p, x)
    && if l[p].left == x then Kids(z, x, l[x].left, p) && Kids(z, p, l[x].right, l[p].right)
       else Kids(z, x, p, l[x].right) && Kids(z, p, l[p].left, l[x].left)
  }

  /** x takes the place of its grandparent; where everybody's subtrees go depends on the sides of x and p. */
  ghost predicate GrandStep(l: map<Node, Links>, x: Node, p: Node, g: Node, z: map<Node, Links>)
    requires x in l && p in l && g in l
  {
    && OthersKeep(l, z, {x, p, g}, g, x)
    && if l[p].left == x && l[g].left == p then
         Kids(z, x, l[x].left, p) && Kids(z, p, l[x].right, g) && Kids(z, g, l[p].right, l[g].right)
       else if l[p].left != x && l[g].left != p then
         Kids(z, x, p, l[x].right) && Kids(z, p, g, l[x].left) && Kids(z, g, l[g].left, l[p].left)
       else if l[p].left == x then
         Kids(z, x, g, p) && Kids(z, g, l[g].left, l[x].left) && Kids(z, p, l[x].right, l[p].right)
       else
         Kids(z, x, p, g) && Kids(z, p, l[p].left, l[x].left) && Kids(z, g, l[x].right, l[g].right)
  }

  /** The index ranges of the subtrees after a step, in the same cases. */
  ghost predicate RootPlaces(s: Shape, x: Node, p: Node, t: Shape)
    requires x in s.at && p in s.at && p in s.links
  {
    var up := s.at[x].(lo := s.at[p].lo, hi := s.at[p].hi);
    t.at == s.at[x := up]
      [p := if s.links[p].left == x then s.at[p].(lo := s.at[x].pos + 1) else s.at[p].(hi := s.at[x].pos)]
  }

  ghost predicate GrandPlaces(at: map<Node, Place>, x: Node, p: Node, g: Node, xLeft: bool, pLeft: bool,
                              bt: map<Node, Place>)
    requires x in at && p in at && g in at
  {
    var a, b, c := at[x], at[p], at[g];
    var up := at[x := a.(lo := c.lo, hi := c.hi)];
    bt ==
      if xLeft && pLeft then up[p := b.(lo := a.pos + 1, hi := c.hi)][g := c.(lo := b.pos + 1)]
      else if !xLeft && !pLeft then up[p := b.(lo := c.lo, hi := a.pos)][g := c.(hi := b.pos)]
      else if xLeft then up[p := b.(lo := a.pos + 1, hi := c.hi)][g := c.(hi := a.pos)]
      else up[p := b.(lo := c.lo, hi := a.pos)][g := c.(lo := a.pos + 1)]
  }

  ghost predicate RootStepped(s: Shape, x: Node, p: Node, t: Shape)
  {
    && s.Linked() && t.Linked() && x in s.at && p in s.at && Family(s.links, x, p, null)
    && t.nodes == s.nodes && RootStep(s.links, x, p, t.links) && RootPlaces(s, x, p, t)
  }

  ghost predicate GrandStepped(s: Shape, x: Node, p: Node, g: Node, t: Shape)
  {
    && s.Linked() && t.Linked() && x in s.at && p in s.at && g in s.at && Family(s.links, x, p, g)
    && t.nodes == s.nodes && GrandStep(s.links, x, p, g, t.links)
    && GrandPlaces(s.at, x, p, g, s.links[p].left == x, s.links[g].left == p, t.at)
  }

  /** One turn of the loop of splay leads from s to t. */
  ghost predicate Stepped(s: Shape, x: Node, t: Shape)
  {
    && x in s.links && s.links[x].parent != null
    && var p: Node := s.links[x].parent;
       && p in s.links
       && if s.links[p].parent == null then RootStepped(s, x, p, t)
          else GrandStepped(s, x, p, s.links[p].parent, t)
  }

  lemma FamilyOf(s: Shape, x: Node)
    requires s.Linked() && x in s.at && x in s.links && s.links[x].parent != null
    ensures var p := s.links[x].parent;
      p in s.at && p in s.links && Family(s.links, x, p, s.links[p].parent)
      && (s.links[p].parent != null ==> s.links[p].parent in s.at)
      && (s.links[p].left == x || s.links[p].right == x)
  {
    ShowLinked(s);
    ParentOf(s, x);
    var p := s.links[x].parent;
    ParentOf(s, p);
    ParentLarger(s, x);
    if s.links[p].parent != null { ParentLarger(s, p); }
  }

  /** A parent's subtree is larger, and contains the node's. */
  lemma ParentLarger(s: Shape, n: Node)
    requires s.Linked() && n in s.at && n in s.links && s.links[n].parent != null
    ensures var p := s.links[n].parent;
      p in s.at && p in s.links && s.at[p].lo <= s.at[n].lo <= s.at[n].pos < s.at[n].hi <= s.at[p].hi <= |s.nodes|
      && s.at[n].hi - s.at[n].lo < s.at[p].hi - s.at[p].lo
  {
    ParentOf(s, n);
    AllNear(s, n);
  }

  /** Each of the three is the child of one node only, and g is nobody's child here. */
  ghost predicate Apart(l: map<Node, Links>, x: Node, p: Node, g: Node)
  {
    && Family(l, x, p, g)
    && (forall n :: n in l && n != p ==> NotChild(l, n, x))
    && (forall n :: n in l && n != g ==> NotChild(l, n, p))
    && !(l[p].left == x && l[p].right == x) && !(l[g].left == p && l[g].right == p)
    && NotChild(l, x, g) && NotChild(l, p, g) && NotChild(l, g, g)
    && (l[p].left == x || l[p].right == x) && (l[g].left == p || l[g].right == p)
  }

  lemma ApartIn(s: Shape, x: Node, p: Node, g: Node)
    requires s.Linked() && x in s.at && p in s.at && g in s.at && Family(s.links, x, p, g)
    ensures Apart(s.links, x, p, g)
  {
    ShowLinked(s);
    forall n | n in s.links && n != p ensures NotChild(s.links, n, x) { OnlyParent(s, x, n); }
    forall n | n in s.links && n != g ensures NotChild(s.links, n, p) { OnlyParent(s, p, n); }
    OneSide(s, p, x);
    OneSide(s, g, p);
    ParentOf(s, x);
    ParentOf(s, p);
    TopIsNoChild(s, x, p, g);
  }

  ghost predicate NotChild(l: map<Node, Links>, n: Node, c: Node)
  {
    n in l && l[n].left != c && l[n].right != c
  }

  lemma TopIsNoChild(s: Shape, x: Node, p: Node, g: Node)
    requires s.Linked() && x in s.at && p in s.at && g in s.at && Family(s.links, x, p, g)
    ensures NotChild(s.links, x, g) && NotChild(s.links, p, g) && NotChild(s.links, g, g)
  {
    ParentLarger(s, x);
    ParentLarger(s, p);
    AllNear(s, x);
    AllNear(s, p);
    AllNear(s, g);
  }

  lemma TwoFromLeft(l: map<Node, Links>, m: map<Node, Links>, x: Node, p: Node, g: Node, z: map<Node, Links>)
    requires Apart(l, x, p, g) && l[p].left == x && l[g].left == p
    requires CameFromLeft(l, g, p, m) && CameFromLeft(m, p, x, z)
    ensures GrandStep(l, x, p, g, z)
  {
    assert KeepsChildren(l, m, x, g, p) && KeepsChildren(m, z, g, p, x);
    forall n | n in l && n !in {x, p, g} ensures KeepsChildren(l, z, n, g, x) {
      assert KeepsChildren(l, m, n, g, p) && KeepsChildren(m, z, n, p, x);
    }
  }

  lemma TwoFromRight(l: map<Node, Links>, m: map<Node, Links>, x: Node, p: Node, g: Node, z: map<Node, Links>)
    requires Apart(l, x, p, g) && l[p].right == x && l[g].right == p
    requires CameFromRight(l, g, p, m) && CameFromRight(m, p, x, z)
    ensures GrandStep(l, x, p, g, z)
  {
    assert KeepsChildren(l, m, x, g, p) && KeepsChildren(m, z, g, p, x);
    forall n | n in l && n !in {x, p, g} ensures KeepsChildren(l, z, n, g, x) {
      assert KeepsChildren(l, m, n, g, p) && KeepsChildren(m, z, n, p, x);
    }
  }

  lemma LeftThenUp(l: map<Node, Links>, m: map<Node, Links>, x: Node, p: Node, g: Node, z: map<Node, Links>)
    requires Apart(l, x, p, g) && l[p].left == x && l[g].right == p
    requires CameFromLeft(l, p, x, m) && CameFromRight(m, g, x, z)
    ensures GrandStep(l, x, p, g, z)
  {
    assert KeepsChildren(l, m, g, p, x) && KeepsChildren(m, z, p, g, x);
    forall n | n in l && n !in {x, p, g} ensures KeepsChildren(l, z, n, g, x) {
      assert KeepsChildren(l, m, n, p, x) && KeepsChildren(m, z, n, g, x);
    }
  }

  lemma RightThenUp(l: map<Node, Links>, m: map<Node, Links>, x: Node, p: Node, g: Node, z: map<Node, Links>)
    requires Apart(l, x, p, g) && l[p].right == x && l[g].left == p
    requires CameFromRight(l, p, x, m) && CameFromLeft(m, g, x, z)
    ensures GrandStep(l, x, p, g, z)
  {
    assert KeepsChildren(l, m, g, p, x) && KeepsChildren(m, z, p, g, x);
    forall n | n in l && n !in {x, p, g} ensures KeepsChildren(l, z, n, g, x) {
      assert KeepsChildren(l, m, n, p, x) && KeepsChildren(m, z, n, g, x);
    }
  }

  lemma OneTurn(s: Shape, x: Node, p: Node, t: Shape)
    requires s.Linked() && t.Linked() && x in s.at && p in s.at && Family(s.links, x, p, null)
    requires if s.links[p].left == x then TurnedRight(s, p, x, t) else TurnedLeft(s, p, x, t)
    ensures RootStepped(s, x, p, t) && Stepped(s, x, t)
  {
    hide Shape.Linked;
    assert t.at.Keys == s.at.Keys;
  }

  lemma ChildEdges(s: Shape, g: Node)
    requires s.Linked() && g in s.at
    ensures g in s.links
    ensures s.links[g].left != null ==> s.links[g].left in s.at && s.at[s.links[g].left].lo == s.at[g].lo
    ensures s.links[g].right != null ==> s.links[g].right in s.at && s.at[s.links[g].right].hi == s.at[g].hi
  {
    AllNear(s, g);
  }

  /** Two rotations, in the order in which splay makes them. */
  ghost predicate TwiceTurned(s: Shape, u: Shape, x: Node, p: Node, g: Node, t: Shape)
    requires p in s.links && g in s.links
  {
    if s.links[p].left == x && s.links[g].left == p then TurnedRight(s, g, p, u) && TurnedRight(u, p, x, t)
    else if s.links[p].left != x && s.links[g].left != p then TurnedLeft(s, g, p, u) && TurnedLeft(u, p, x, t)
    else if s.links[p].left == x then TurnedRight(s, p, x, u) && TurnedLeft(u, g, x, t)
    else TurnedLeft(s, p, x, u) && TurnedRight(u, g, x, t)
  }

  lemma TwoTurnsChildren(s: Shape, u: Shape, x: Node, p: Node, g: Node, t: Shape)
    requires s.Linked() && x in s.at && p in s.at && g in s.at && Family(s.links, x, p, g)
    requires TwiceTurned(s, u, x, p, g, t)
    ensures t.nodes == s.nodes && GrandStep(s.links, x, p, g, t.links)
  {
    ApartIn(s, x, p, g);
    hide Shape.Linked, CameFromLeft, CameFromRight, GrandStep;
    if s.links[p].left == x && s.links[g].left == p { TwoFromLeft(s.links, u.links, x, p, g, t.links); }
    else if s.links[p].left != x && s.links[g].left != p { TwoFromRight(s.links, u.links, x, p, g, t.links); }
    else if s.links[p].left == x { LeftThenUp(s.links, u.links, x, p, g, t.links); }
    else { RightThenUp(s.links, u.links, x, p, g, t.links); }
  }

  lemma TwoUps(at: map<Node, Place>, u: map<Node, Place>, x: Node, p: Node, g: Node, xLeft: bool, pLeft: bool,
               bt: map<Node, Place>)
    requires x in at && p in at && g in at && x != p && x != g && p != g
    requires if pLeft then at[p].lo == at[g].lo else at[p].hi == at[g].hi
    requires if xLeft then at[x].lo == at[p].lo else at[x].hi == at[p].hi
    requires x in u && p in u && g in u
    requires
      if xLeft && pLeft then UpFromLeft(at, g, p, u) && UpFromLeft(u, p, x, bt)
      else if !xLeft && !pLeft then UpFromRight(at, g, p, u) && UpFromRight(u, p, x, bt)
      else if xLeft then UpFromLeft(at, p, x, u) && UpFromRight(u, g, x, bt)
      else UpFromRight(at, p, x, u) && UpFromLeft(u, g, x, bt)
    ensures GrandPlaces(at, x, p, g, xLeft, pLeft, bt)
  {
  }

  lemma TwoTurnsPlaces(s: Shape, u: Shape, x: Node, p: Node, g: Node, t: Shape)
    requires s.Linked() && x in s.at && p in s.at && g in s.at && Family(s.links, x, p, g)
    requires TwiceTurned(s, u, x, p, g, t)
    ensures GrandPlaces(s.at, x, p, g, s.links[p].left == x, s.links[g].left == p, t.at)
  {
    ParentOf(s, x);
    ParentOf(s, p);
    ChildEdges(s, p);
    ChildEdges(s, g);
    hide Shape.Linked, CameFromLeft, CameFromRight, GrandPlaces;
    assert u.at.Keys == s.at.Keys;
    TwoUps(s.at, u.at, x, p, g, s.links[p].left == x, s.links[g].left == p, t.at);
  }

  lemma TwoTurns(s: Shape, u: Shape, x: Node, p: Node, g: Node, t: Shape)
    requires s.Linked() && t.Linked() && x in s.at && p in s.at && g in s.at && Family(s.links, x, p, g)
    requires TwiceTurned(s, u, x, p, g, t)
    ensures GrandStepped(s, x, p, g, t) && Stepped(s, x, t)
  {
    hide Shape.Linked, TwiceTurned, GrandStep, GrandPlaces;
    TwoTurnsChildren(s, u, x, p, g, t);
    TwoTurnsPlaces(s, u, x, p, g, t);
  }

  lemma TwiceRightSteps(s: Shape, u: Shape, x: Node, p: Node, g: Node, t: Shape)
    requires s.Linked() && t.Linked() && x in s.at && p in s.at && g in s.at && Family(s.links, x, p, g)
    requires s.links[p].left == x && s.links[g].left == p && TurnedRight(s, g, p, u) && TurnedRight(u, p, x, t)
    ensures Stepped(s, x, t)
  {
    hide Shape.Linked, TurnedLeft, TurnedRight;
    TwoTurns(s, u, x, p, g, t);
  }

  lemma TwiceLeftSteps(s: Shape, u: Shape, x: Node, p: Node, g: Node, t: Shape)
    requires s.Linked() && t.Linked() && x in s.at && p in s.at && g in s.at && Family(s.links, x, p, g)
    requires s.links[p].right == x && s.links[g].right == p && TurnedLeft(s, g, p, u) && TurnedLeft(u, p, x, t)
    ensures Stepped(s, x, t)
  {
    OneSide(s, p, x);
    OneSide(s, g, p);
    hide Shape.Linked, TurnedLeft, TurnedRight;
    TwoTurns(s, u, x, p, g, t);
  }

  lemma RightLeftSteps(s: Shape, u: Shape, x: Node, p: Node, g: Node, t: Shape)
    requires s.Linked() && t.Linked() && x in s.at && p in s.at && g in s.at && Family(s.links, x, p, g)
    requires s.links[p].left == x && s.links[g].right == p && TurnedRight(s, p, x, u) && TurnedLeft(u, g, x, t)
    ensures Stepped(s, x, t)
  {
    OneSide(s, g, p);
    hide Shape.Linked, TurnedLeft, TurnedRight;
    TwoTurns(s, u, x, p, g, t);
  }

  lemma LeftRightSteps(s: Shape, u: Shape, x: Node, p: Node, g: Node, t: Shape)
    requires s.Linked() && t.Linked() && x in s.at && p in s.at && g in s.at && Family(s.links, x, p, g)
    requires s.links[p].right == x && s.links[g].left == p && TurnedLeft(s, p, x, u) && TurnedRight(u, g, x, t)
    ensures Stepped(s, x, t)
  {
    OneSide(s, p, x);
    hide Shape.Linked, TurnedLeft, TurnedRight;
    TwoTurns(s, u, x, p, g, t);
  }

  // ---------- depths ----------

  /** The number of nodes above n. */
  ghost function Depth(s: Shape, n: Node): nat
    requires s.Linked() && n in s.at && n in s.links
    decreases if n in s.at then |s.nodes| - (s.at[n].hi - s.at[n].lo) else 0
  {
    if s.links[n].parent == null then 0 else (ParentLarger(s, n); 1 + Depth(s, s.links[n].parent))
  }

  predicate Covers(at: map<Node, Place>, m: Node, n: Node)
    requires m in at && n in at
  {
    at[m].lo <= at[n].pos < at[m].hi
  }

  /** The nodes in whose subtrees n is, without n. */
  ghost function Above(at: map<Node, Place>, n: Node): set<Node>
    requires n in at
  {
    set m | m in at && m != n && Covers(at, m, n)
  }

  /** Subtrees contain each other or are apart. */
  lemma {:induction false} Nested(s: Shape, m: Node, n: Node)
    requires s.Linked() && m in s.at && n in s.at && Covers(s.at, m, n)
    ensures n in s.links && s.at[m].lo <= s.at[n].lo && s.at[n].hi <= s.at[m].hi
    ensures n != m ==> s.links[n].parent != null && s.links[n].parent in s.at && Covers(s.at, m, s.links[n].parent)
    decreases if m in s.at then s.at[m].hi - s.at[m].lo else 0
  {
    AllNear(s, m);
    AllNear(s, n);
    if s.at[n].pos < s.at[m].pos {
      Nested(s, s.links[m].left, n);
    } else if s.at[n].pos > s.at[m].pos {
      Nested(s, s.links[m].right, n);
    }
  }

  lemma AboveParent(s: Shape, n: Node)
    requires s.Linked() && n in s.at && n in s.links
    ensures s.links[n].parent == null ==> Above(s.at, n) == {}
    ensures s.links[n].parent != null ==>
      s.links[n].parent in s.at && Above(s.at, n) == Above(s.at, s.links[n].parent) + {s.links[n].parent}
  {
    if s.links[n].parent == null {
      forall m | m in s.at && m != n ensures !Covers(s.at, m, n) { if Covers(s.at, m, n) { Nested(s, m, n); } }
    } else {
      var p := s.links[n].parent;
      ParentLarger(s, n);
      forall m | m in s.at && m != p ensures m in Above(s.at, n) <==> m in Above(s.at, p) {
        if m in Above(s.at, n) { Nested(s, m, n); }
        if m in Above(s.at, p) { Nested(s, m, p); }
      }
    }
  }

  lemma {:induction false} DepthIsAbove(s: Shape, n: Node)
    requires s.Linked() && n in s.at && n in s.links
    ensures Depth(s, n) == |Above(s.at, n)|
    decreases Depth(s, n)
  {
    AboveParent(s, n);
    var p := s.links[n].parent;
    if p != null {
      ParentLarger(s, n);
      DepthIsAbove(s, p);
      assert p !in Above(s.at, p);
    }
  }

  // ---------- what a step does to the depths ----------

  function Counts(at: map<Node, Place>, m: Node, n: Node): nat
    requires m in at && n in at
  {
    if m != n && Covers(at, m, n) then 1 else 0
  }

  function CountThree(at: map<Node, Place>, x: Node, p: Node, g: Node, n: Node): nat
    requires x in at && p in at && g in at && n in at
  {
    Counts(at, x, n) + Counts(at, p, n) + Counts(at, g, n)
  }

  ghost function AboveBut(at: map<Node, Place>, n: Node, those: set<Node>): set<Node>
    requires n in at
  {
    Above(at, n) - those
  }

  lemma AboveSplit(at: map<Node, Place>, n: Node, m: Node, those: set<Node>)
    requires n in at && m in at && m !in those
    ensures |AboveBut(at, n, those)| == |AboveBut(at, n, those + {m})| + Counts(at, m, n)
  {
    var a, b := AboveBut(at, n, those), AboveBut(at, n, those + {m});
    if m in Above(at, n) { assert a == b + {m}; } else { assert a == b; }
  }

  /** The places of these nodes at most have changed, and not their indices. */
  ghost predicate ElsewhereSame(at: map<Node, Place>, bt: map<Node, Place>, those: set<Node>)
  {
    && at.Keys == bt.Keys
    && forall m :: m in at ==> bt[m].pos == at[m].pos && (m !in those ==> bt[m] == at[m])
  }

  lemma AboveElsewhere(at: map<Node, Place>, bt: map<Node, Place>, n: Node, those: set<Node>)
    requires ElsewhereSame(at, bt, those) && n in at
    ensures AboveBut(bt, n, those) == AboveBut(at, n, those)
  {
    forall m ensures m in AboveBut(bt, n, those) <==> m in AboveBut(at, n, those) { }
  }

  /** A change at three nodes changes a depth by what these three count. */
  lemma DepthOfThree(s: Shape, t: Shape, x: Node, p: Node, g: Node, n: Node)
    requires s.Linked() && t.Linked() && x in s.at && p in s.at && g in s.at && n in s.at
    requires x != p && x != g && p != g && ElsewhereSame(s.at, t.at, {x, p, g})
    ensures n in s.links && n in t.links && n in t.at && x in t.at && p in t.at && g in t.at
    ensures Depth(t, n) + CountThree(s.at, x, p, g, n) == Depth(s, n) + CountThree(t.at, x, p, g, n)
  {
    ShowLinked(s);
    ShowLinked(t);
    DepthIsAbove(s, n);
    DepthIsAbove(t, n);
    hide Shape.Linked, Depth;
    ThreeSplit(s.at, x, p, g, n);
    ThreeSplit(t.at, x, p, g, n);
    AboveElsewhere(s.at, t.at, n, {x, p, g});
  }

  lemma ButNobody(at: map<Node, Place>, n: Node)
    requires n in at
    ensures AboveBut(at, n, {}) == Above(at, n)
  {
  }

  lemma ThreeSplit(at: map<Node, Place>, x: Node, p: Node, g: Node, n: Node)
    requires x in at && p in at && g in at && n in at && x != p && x != g && p != g
    ensures |Above(at, n)| == |AboveBut(at, n, {x, p, g})| + CountThree(at, x, p, g, n)
  {
    hide Above, AboveBut, Counts, Covers;
    ButNobody(at, n);
    AboveSplit(at, n, x, {});
    AboveSplit(at, n, p, {x});
    AboveSplit(at, n, g, {x, p});
    assert {} + {x} == {x} && {x} + {p} == {x, p} && {x, p} + {g} == {x, p, g};
  }

  lemma DepthOfTwo(s: Shape, t: Shape, x: Node, p: Node, n: Node)
    requires s.Linked() && t.Linked() && x in s.at && p in s.at && n in s.at
    requires x != p && ElsewhereSame(s.at, t.at, {x, p})
    ensures n in s.links && n in t.links && n in t.at && x in t.at && p in t.at
    ensures Depth(t, n) + Counts(s.at, x, n) + Counts(s.at, p, n)
      == Depth(s, n) + Counts(t.at, x, n) + Counts(t.at, p, n)
  {
    ShowLinked(s);
    ShowLinked(t);
    DepthIsAbove(s, n);
    DepthIsAbove(t, n);
    hide Shape.Linked, Depth;
    TwoSplit(s.at, x, p, n);
    TwoSplit(t.at, x, p, n);
    AboveElsewhere(s.at, t.at, n, {x, p});
  }

  lemma TwoSplit(at: map<Node, Place>, x: Node, p: Node, n: Node)
    requires x in at && p in at && n in at && x != p
    ensures |Above(at, n)| == |AboveBut(at, n, {x, p})| + Counts(at, x, n) + Counts(at, p, n)
  {
    hide Above, AboveBut, Counts, Covers;
    ButNobody(at, n);
    AboveSplit(at, n, x, {});
    AboveSplit(at, n, p, {x});
    assert {} + {x} == {x} && {x} + {p} == {x, p};
  }

  /** How the depth of n changes in one step; `top` is the node whose place x takes. */
  ghost predicate StepDepth(s: Shape, x: Node, top: Node, t: Shape, n: Node)
    requires s.Linked() && t.Linked() && x in s.at && x in s.links && n in s.at && n in s.links && top in s.at
    requires x in t.at && x in t.links && n in t.at && n in t.links
  {
    var double := Depth(s, x) >= 2;
    && Depth(t, x) == Depth(s, x) - (if double then 2 else 1)
    && t.at[x].lo == s.at[top].lo <= s.at[x].lo && t.at[x].hi == s.at[top].hi >= s.at[x].hi
    && t.at[x].pos == s.at[x].pos && t.at[n].pos == s.at[n].pos
    && (!Covers(s.at, top, n) ==> t.at[n] == s.at[n] && Depth(t, n) == Depth(s, n))
    && (Covers(s.at, top, n) ==> Depth(t, n) <= Depth(s, n) + 2)
    && (Covers(s.at, x, n) ==> Depth(t, n) <= Depth(s, n) - (if double then 1 else 0))
    && (n in Above(s.at, x) && Covers(s.at, top, n) ==> Depth(t, n) <= Depth(t, x) + 2 && Depth(t, x) <= Depth(s, n))
  }

  /** A child's place in its parent's. */
  lemma ChildPlace(s: Shape, p: Node, x: Node)
    requires s.Linked() && p in s.at && x in s.at && p in s.links && (s.links[p].left == x || s.links[p].right == x)
    ensures var a, b := s.at[x], s.at[p];
      && a.lo <= a.pos < a.hi && b.lo <= b.pos < b.hi
      && if s.links[p].left == x then a.lo == b.lo && a.hi == b.pos else a.lo == b.pos + 1 && a.hi == b.hi
  {
    AllNear(s, p);
    AllNear(s, x);
  }

  lemma IndexApart(s: Shape, m: Node, n: Node)
    requires s.Linked() && m in s.at && n in s.at && m != n
    ensures s.at[m].pos != s.at[n].pos
  {
    AllNear(s, m);
    AllNear(s, n);
  }

  /** On the path from top down to x there are only these. */
  lemma OnPathBetween(s: Shape, x: Node, p: Node, g: Node, n: Node)
    requires s.Linked() && x in s.at && p in s.at && g in s.at && Family(s.links, x, p, g)
    requires n in Above(s.at, x) && Covers(s.at, g, n)
    ensures n == p || n == g
  {
    if n != p && n != g {
      Nested(s, n, x);
      Nested(s, n, p);
      Nested(s, n, g);
      Nested(s, g, n);
      Nested(s, g, s.links[n].parent);
      ShowLinked(s);
      ParentLarger(s, n);
      assert false;
    }
  }

  /** How the places of x, p and g lie. */
  ghost predicate Lines(at: map<Node, Place>, x: Node, p: Node, xLeft: bool)
    requires x in at && p in at
  {
    var a, b := at[x], at[p];
    && a.lo <= a.pos < a.hi && b.lo <= b.pos < b.hi
    && if xLeft then a.lo == b.lo && a.hi == b.pos else a.lo == b.pos + 1 && a.hi == b.hi
  }

  /** What the three count before and after, at the three themselves and elsewhere. */
  lemma GrandCounts(at: map<Node, Place>, bt: map<Node, Place>, x: Node, p: Node, g: Node, xLeft: bool, pLeft: bool,
                    n: Node)
    requires x in at && p in at && g in at && n in at && x != p && x != g && p != g
    requires GrandPlaces(at, x, p, g, xLeft, pLeft, bt) && Lines(at, x, p, xLeft) && Lines(at, p, g, pLeft)
    requires n != x && n != p && n != g ==> at[n].pos != at[x].pos && at[n].pos != at[p].pos && at[n].pos != at[g].pos
    ensures ElsewhereSame(at, bt, {x, p, g}) && bt[x].pos == at[x].pos && bt[n].pos == at[n].pos
    ensures bt[x].lo == at[g].lo <= at[x].lo && bt[x].hi == at[g].hi >= at[x].hi
    ensures var old3, new3 := CountThree(at, x, p, g, n), CountThree(bt, x, p, g, n);
      && (!Covers(at, g, n) ==> bt[n] == at[n] && old3 == new3)
      && (Covers(at, g, n) ==> new3 <= old3 + 2)
      && (Covers(at, x, n) ==> new3 <= old3 - 1)
      && (n == x ==> new3 == old3 - 2) && (n == p ==> new3 == old3)
  {
  }

  lemma FamilyPlaces(s: Shape, x: Node, p: Node, n: Node)
    requires s.Linked() && x in s.at && p in s.at && n in s.at && x in s.links && s.links[x].parent == p
    ensures p in s.links && Depth(s, x) == Depth(s, p) + 1 && Lines(s.at, x, p, s.links[p].left == x)
    ensures (n != x ==> s.at[n].pos != s.at[x].pos) && (n != p ==> s.at[n].pos != s.at[p].pos)
  {
    ParentOf(s, x);
    ChildPlace(s, p, x);
    if n != x { IndexApart(s, n, x); }
    if n != p { IndexApart(s, n, p); }
  }

  lemma GrandDepth(s: Shape, x: Node, p: Node, g: Node, t: Shape, n: Node)
    requires GrandStepped(s, x, p, g, t) && n in s.at
    ensures n in s.links && x in s.links && x in t.at && x in t.links && n in t.at && n in t.links
    ensures StepDepth(s, x, g, t, n)
  {
    ShowLinked(s);
    ShowLinked(t);
    hide Shape.Linked, Depth, GrandStep, GrandPlaces, CountThree, Covers, ElsewhereSame, Above, Lines;
    FamilyPlaces(s, x, p, n);
    FamilyPlaces(s, p, g, n);
    if n in Above(s.at, x) && Covers(s.at, g, n) { OnPathBetween(s, x, p, g, n); }
    GrandCounts(s.at, t.at, x, p, g, s.links[p].left == x, s.links[g].left == p, n);
    GrandCounts(s.at, t.at, x, p, g, s.links[p].left == x, s.links[g].left == p, x);
    DepthOfThree(s, t, x, p, g, n);
    DepthOfThree(s, t, x, p, g, x);
  }

  lemma RootCounts(s: Shape, x: Node, p: Node, t: Shape, n: Node)
    requires x in s.at && p in s.at && n in s.at && x != p && p in s.links
    requires RootPlaces(s, x, p, t) && Lines(s.at, x, p, s.links[p].left == x)
    requires (n != x ==> s.at[n].pos != s.at[x].pos) && (n != p ==> s.at[n].pos != s.at[p].pos)
    ensures ElsewhereSame(s.at, t.at, {x, p}) && t.at[x].pos == s.at[x].pos && t.at[n].pos == s.at[n].pos
    ensures t.at[x].lo == s.at[p].lo <= s.at[x].lo && t.at[x].hi == s.at[p].hi >= s.at[x].hi
    ensures
      var old2, new2 := Counts(s.at, x, n) + Counts(s.at, p, n), Counts(t.at, x, n) + Counts(t.at, p, n);
      && (!Covers(s.at, p, n) ==> t.at[n] == s.at[n] && old2 == new2)
      && (Covers(s.at, p, n) ==> new2 <= old2 + 1)
      && (Covers(s.at, x, n) ==> new2 <= old2)
      && (n == x ==> new2 == old2 - 1)
  {
  }

  /** At the root nobody is above p. */
  lemma OnlyRootAbove(s: Shape, x: Node, p: Node, n: Node)
    requires s.Linked() && x in s.at && p in s.at && Family(s.links, x, p, null) && n in Above(s.at, x)
    ensures n == p && Depth(s, p) == 0
  {
    AboveParent(s, x);
    AboveParent(s, p);
  }

  lemma RootDepth(s: Shape, x: Node, p: Node, t: Shape, n: Node)
    requires RootStepped(s, x, p, t) && n in s.at
    ensures n in s.links && x in s.links && x in t.at && x in t.links && n in t.at && n in t.links
    ensures StepDepth(s, x, p, t, n)
  {
    ShowLinked(s);
    ShowLinked(t);
    assert Depth(s, p) == 0;
    hide Shape.Linked, Depth, RootStep, RootPlaces, Counts, Covers, ElsewhereSame, Above, Lines;
    FamilyPlaces(s, x, p, n);
    if n in Above(s.at, x) { OnlyRootAbove(s, x, p, n); }
    RootCounts(s, x, p, t, n);
    RootCounts(s, x, p, t, x);
    DepthOfTwo(s, t, x, p, n);
    DepthOfTwo(s, t, x, p, x);
  }

  // ---------- splaying ----------

  /** The shapes that the loop of splay goes through. */
  ghost predicate Splaying(path: seq<Shape>, x: Node)
  {
    path != [] && forall i :: 0 <= i < |path| - 1 ==> Stepped(path[i], x, path[i + 1])
  }

  /** From s to t, and x has become the root. */
  ghost predicate Splayed(s: Shape, x: Node, path: seq<Shape>, t: Shape)
  {
    Splaying(path, x) && path[0] == s && path[|path| - 1] == t && t.root == x
  }

  /** How the depth of n has changed since s, while x is on its way to the root. */
  ghost predicate NotDeep(s: Shape, x: Node, t: Shape, n: Node)
    requires s.Linked() && t.Linked() && x in s.at && n in s.at && n in s.links
    requires x in t.at && x in t.links && n in t.at && n in t.links
  {
    && t.at[n].pos == s.at[n].pos
    && (!Covers(t.at, x, n) ==> t.at[n] == s.at[n] && Depth(t, n) == Depth(s, n))
    && (Covers(t.at, x, n) ==> Depth(t, n) <= Depth(s, n) + 2)
    && (Covers(t.at, x, n) && n in Above(s.at, x) ==>
          2 * Depth(t, n) <= Depth(s, n) + 4 + if Depth(t, x) == 0 then 1 else Depth(t, x))
  }

  /** The law, along the way. */
  ghost predicate AllNotDeep(s: Shape, x: Node, t: Shape)
  {
    && s.Linked() && t.Linked() && x in s.at && t.at.Keys == s.at.Keys == s.links.Keys == t.links.Keys
    && forall n :: n in s.at ==> NotDeep(s, x, t, n)
  }

  lemma StepShape(s: Shape, x: Node, t: Shape) returns (top: Node)
    requires Stepped(s, x, t)
    ensures s.Linked() && t.Linked() && x in s.at && top in s.at
    ensures t.at.Keys == s.at.Keys == s.links.Keys == t.links.Keys
    ensures forall n :: n in s.at ==> StepDepth(s, x, top, t, n)
  {
    hide StepDepth, RootStep, GrandStep;
    var p: Node := s.links[x].parent;
    ShowLinked(s);
    ShowLinked(t);
    if s.links[p].parent == null {
      top := p;
      forall n | n in s.at ensures StepDepth(s, x, top, t, n) { RootDepth(s, x, p, t, n); }
    } else {
      top := s.links[p].parent;
      forall n | n in s.at ensures StepDepth(s, x, top, t, n) { GrandDepth(s, x, p, top, t, n); }
    }
  }

  lemma NotDeepStep(s: Shape, x: Node, t: Shape, top: Node, u: Shape, n: Node)
    requires AllNotDeep(s, x, t) && t.Linked() && u.Linked() && top in t.at && n in t.at
    requires u.at.Keys == t.at.Keys == u.links.Keys && StepDepth(t, x, top, u, n)
    ensures n in s.at && NotDeep(s, x, u, n)
  {
    assert NotDeep(s, x, t, n) && NotDeep(s, x, t, x);
    hide Depth, Shape.Linked;
  }

  lemma NotDeepAtStart(s: Shape, x: Node)
    requires s.Linked() && x in s.at
    ensures AllNotDeep(s, x, s)
  {
    ShowLinked(s);
    forall n | n in s.at ensures NotDeep(s, x, s, n) {
      if Covers(s.at, x, n) && n in Above(s.at, x) { TwoWays(s, x, n); }
    }
  }

  /** Two nodes are not in each other's subtrees. */
  lemma TwoWays(s: Shape, x: Node, n: Node)
    requires s.Linked() && x in s.at && n in s.at && n != x && Covers(s.at, n, x)
    ensures !Covers(s.at, x, n)
  {
    if Covers(s.at, x, n) {
      Nested(s, x, n);
      Nested(s, n, x);
      Nested(s, n, s.links[x].parent);
      ParentLarger(s, x);
    }
  }

  /** One more step keeps the law. */
  lemma AllNotDeepStep(s: Shape, x: Node, t: Shape, u: Shape)
    requires AllNotDeep(s, x, t) && Stepped(t, x, u)
    ensures AllNotDeep(s, x, u)
  {
    hide Stepped, NotDeep, StepDepth, Shape.Linked;
    var top := StepShape(t, x, u);
    forall n | n in s.at ensures NotDeep(s, x, u, n) { NotDeepStep(s, x, t, top, u, n); }
  }

  lemma {:induction false} NotDeepAlong(path: seq<Shape>, x: Node, i: nat)
    requires Splaying(path, x) && i < |path| && path[0].Linked() && x in path[0].at
    ensures AllNotDeep(path[0], x, path[i])
  {
    if i == 0 {
      NotDeepAtStart(path[0], x);
    } else {
      NotDeepAlong(path, x, i - 1);
      assert Stepped(path[i - 1], x, path[i - 1 + 1]);
      hide Stepped, Splaying, AllNotDeep;
      AllNotDeepStep(path[0], x, path[i - 1], path[i]);
    }
  }

  /**
   * Splaying halves the path: a node that was above x gets at most half as deep as it was, plus 5 / 2,
   * and no node gets more than 2 deeper.
   */
  lemma SplayHalves(s: Shape, x: Node, path: seq<Shape>, t: Shape, n: Node)
    requires Splayed(s, x, path, t) && s.Linked() && x in s.at && n in s.at
    ensures t.Linked() && n in s.links && n in t.at && n in t.links
    ensures n in Above(s.at, x) ==> 2 * Depth(t, n) <= Depth(s, n) + 5
    ensures Depth(t, n) <= Depth(s, n) + 2
  {
    NotDeepAlong(path, x, |path| - 1);
    assert NotDeep(s, x, t, n);
    AllNear(s, n);
    AllNear(t, x);
    AllNear(t, n);
  }

  // ---------- inserting and removing ----------

  /** z was put under p, at index k, and splayed. */
  ghost predicate GrownAndSplayed(s: Shape, p: Node?, z: Node, k: nat, onRight: bool, path: seq<Shape>, t: Shape)
  {
    CanGrow(s, p, z, k, onRight) && Splayed(Grown(s, p, z, k, onRight), z, path, t)
  }

  lemma {:induction false} GrownDepth(s: Shape, p: Node?, z: Node, k: nat, onRight: bool, n: Node)
    requires s.Linked() && CanGrow(s, p, z, k, onRight) && n in s.at && n in s.links
    ensures var t := Grown(s, p, z, k, onRight);
      t.Linked() && n in t.at && n in t.links && Depth(t, n) == Depth(s, n)
    decreases Depth(s, n)
  {
    GrownLinked(s, p, z, k, onRight);
    AllNear(s, n);
    var q := s.links[n].parent;
    if q != null {
      ParentLarger(s, n);
      GrownDepth(s, p, z, k, onRight, q);
    }
  }

  /**
   * An insertion halves the search path: the node p under which the new one comes, and the nodes above
   * p, get at most half as deep as they were, plus 5 / 2; no node gets more than 2 deeper.
   */
  lemma InsertHalves(s: Shape, p: Node, z: Node, k: nat, onRight: bool, path: seq<Shape>, t: Shape, n: Node)
    requires s.Linked() && p in s.at && n in s.at && GrownAndSplayed(s, p, z, k, onRight, path, t)
    ensures t.Linked() && n in s.links && n in t.at && n in t.links
    ensures n == p || n in Above(s.at, p) ==> 2 * Depth(t, n) <= Depth(s, n) + 5
    ensures Depth(t, n) <= Depth(s, n) + 2
  {
    var g := Grown(s, p, z, k, onRight);
    AllNear(s, n);
    AllNear(s, p);
    GrownLinked(s, p, z, k, onRight);
    GrownDepth(s, p, z, k, onRight, n);
    AllNear(g, z);
    SplayHalves(g, z, path, t, n);
    AboveParent(g, z);
    if n in Above(s.at, p) { Nested(s, n, p); assert n in Above(g.at, p); }
  }

  /** The root r has gone; with two children, its successor takes its place. */
  ghost predicate RootTaken(s: Shape, r: Node, t: Shape)
  {
    && r in s.links && s.links.Keys == s.at.Keys && s.nodes != [] && s.at[r].pos < |s.nodes|
    && if s.links[r].left == null then t == CutFirst(s, r)
       else if s.links[r].right == null then t == CutLast(s, r)
       else
         && s.at[r].pos + 1 < |s.nodes| && s.nodes[s.at[r].pos + 1] in s.links
         && t == Joined(s, r, s.nodes[s.at[r].pos + 1])
  }

  lemma FirstTaken(s: Shape, r: Node, t: Shape)
    requires s.Linked() && s.root == r && r in s.at && r in s.links && s.links[r].left == null
    requires s.links.Keys == s.at.Keys && s.nodes != [] && t == CutFirst(s, r)
    ensures RootTaken(s, r, t)
  {
    AllNear(s, r);
  }

  lemma LastTaken(s: Shape, r: Node, t: Shape)
    requires s.Linked() && s.root == r && r in s.at && r in s.links && s.links[r].left != null
    requires s.links[r].right == null
    requires s.links.Keys == s.at.Keys && s.nodes != [] && t == CutLast(s, r)
    ensures RootTaken(s, r, t)
  {
    AllNear(s, r);
  }

  lemma MiddleTaken(s: Shape, r: Node, y: Node, t: Shape)
    requires s.Linked() && s.root == r && s.links.Keys == s.at.Keys && {r, y} <= s.links.Keys
    requires s.links[r].left != null && s.links[r].right != null && s.links[r].right in s.at
    requires s.at[y].pos == s.at[s.links[r].right].lo && s.at[r].pos < |s.nodes| && t == Joined(s, r, y)
    ensures RootTaken(s, r, t)
  {
    AllNear(s, r);
    AllNear(s, y);
  }

  /** z was splayed and then taken from the root. */
  ghost predicate SplayedAndTaken(s: Shape, z: Node, path: seq<Shape>, t: Shape)
  {
    path != [] && Splayed(s, z, path, path[|path| - 1]) && RootTaken(path[|path| - 1], z, t)
  }

  lemma IsSplayedAndTaken(s: Shape, z: Node, path: seq<Shape>, u: Shape, t: Shape)
    requires Splayed(s, z, path, u) && RootTaken(u, z, t)
    ensures SplayedAndTaken(s, z, path, t)
  {
  }

  lemma IsGrownAndSplayed(s: Shape, p: Node?, z: Node, k: nat, onRight: bool, path: seq<Shape>, t: Shape)
    requires CanGrow(s, p, z, k, onRight) && k <= |s.nodes| && Splayed(Grown(s, p, z, k, onRight), z, path, t)
    ensures GrownAndSplayed(s, p, z, k, onRight, path, t)
  {
  }
}
