/** The heap of boundary-tagged blocks as a value: a sequence of 8-byte words.

    Addresses are word offsets from the start of the heap, 0 standing for NULL; sizes are
    counted in words. The first 36 words are the heads of the segregated free lists, then come
    10 + 15 words for the slab tables, and the first block starts at word 61, so that every
    payload is 16-byte aligned.

    The functions here are what the in-place methods of the allocator compute; the lemmas are
    the steps out of which malloc, free and realloc are made. */
module HeapBlocks {
  import opened Bits

  const LISTS := 36
  const SLABS16 := 36
  const SLABS32 := 46
  const GUARD := 60   // the 15th word of slabs32: reserved, never written, read as a footer
  const FIRST := 61
  const MAX_WORDS := 0x20_0000_0000   // 2^37 words, the 2^40 bytes of MAX_HEAP_SIZE

  datatype Blk = Blk(size: nat, free: bool)
  type Blocks = map<nat, Blk>

  /** The tag of a block: its size in bytes shifted left by 3, plus the allocated bit. */
  function Header(b: Blk): nat
  {
    64 * b.size + if b.free then 0 else 1
  }

  /** The allocated bits of a tag. */
  function TagValid(h: nat): nat { h % 8 }

  /** The size of a tag, in words. */
  function TagSize(h: nat): nat { h / 64 }

  lemma HeaderReads(b: Blk)
    ensures TagValid(Header(b)) == (if b.free then 0 else 1) && TagSize(Header(b)) == b.size
  {
    TagParts(b.size, if b.free then 0 else 1);
  }

  lemma TagParts(n: nat, k: nat)
    requires k < 8
    ensures (64 * n + k) / 64 == n && (64 * n + k) % 8 == k
  {
    var h := 64 * n + k;
    OneQuotient(h / 64, h % 64, n, k);
    OneRemainder(h / 8, h % 8, 8 * n, k);
  }

  lemma OneQuotient(d: int, r: nat, n: int, k: nat)
    requires 64 * d + r == 64 * n + k && r < 64 && k < 64
    ensures d == n
  {
  }

  lemma OneRemainder(d: int, r: nat, n: int, k: nat)
    requires 8 * d + r == 8 * n + k && r < 8 && k < 8
    ensures r == k
  {
    assert d == n;
  }

  /** The free list of a block of the given size; uint8_t arithmetic. */
  function GetIndex(size: nat): nat
  {
    (CeilLog2(8 * size) - 5) % 256
  }

  /** List i holds exactly the sizes (in bytes) in (2^(i+4), 2^(i+5)]. */
  lemma GetIndexClass(size: nat)
    requires 4 <= size <= MAX_WORDS
    ensures GetIndex(size) < LISTS
    ensures Pow2(GetIndex(size) + 4) < 8 * size <= Pow2(GetIndex(size) + 5)
  {
    hide Pow2, CeilLog2;
    CeilLog2Bounds(8 * size);
    Pow2Values();
    CeilLog2AtMost(8 * size, 40);
    AboveFour(CeilLog2(8 * size), 8 * size);
  }

  lemma AboveFour(c: nat, n: nat)
    requires 16 < n <= Pow2(c)
    ensures c >= 5
  {
    Pow2Values();
    if c <= 4 { Pow2Monotone(c, 4); }
  }

  /** A size of a later list is strictly larger than any size of an earlier one. */
  lemma LaterListLarger(small: nat, large: nat)
    requires 4 <= small <= MAX_WORDS && 4 <= large <= MAX_WORDS
    requires GetIndex(small) < GetIndex(large)
    ensures small < large
  {
    hide Pow2, GetIndex;
    GetIndexClass(small);
    GetIndexClass(large);
    Pow2Monotone(GetIndex(small) + 5, GetIndex(large) + 4);
  }

  // ---------- the well-formedness of a heap ----------

  /** Blocks lie end to end from the first block to brk. */
  ghost predicate Tiled(B: Blocks, brk: nat)
  {
    && FIRST <= brk
    && (FIRST < brk ==> FIRST in B)
    && (forall a :: a in B ==> FIRST <= a && 2 <= B[a].size && a + B[a].size <= brk)
    && (forall a, b :: a in B && b in B && a < b ==> a + B[a].size <= b)
    && (forall a {:trigger Followed(B, brk, a)} :: a in B ==> Followed(B, brk, a))
  }

  /** Sizes are multiples of 16 bytes and payloads are 16-byte aligned. */
  ghost predicate Aligned(B: Blocks)
  {
    forall a :: a in B ==> a % 2 == 1 && B[a].size % 2 == 0
  }

  ghost predicate Followed(B: Blocks, brk: nat, a: nat)
    requires a in B
  {
    a + B[a].size < brk ==> a + B[a].size in B
  }

  /** Header equals footer, and both say the size and the state of the block. */
  ghost predicate Tagged(m: seq<nat>, B: Blocks)
  {
    forall a :: a in B ==>
      && 1 <= B[a].size && a + B[a].size <= |m|
      && m[a] == Header(B[a]) && m[a + B[a].size - 1] == Header(B[a])
  }

  function At(s: seq<nat>, k: int): nat
  {
    if 0 <= k < |s| then s[k] else 0
  }

  ghost predicate Distinct(s: seq<nat>)
  {
    forall j, k :: 0 <= j < k < |s| ==> s[j] != s[k]
  }

  ghost predicate NodeLinked(m: seq<nat>, s: seq<nat>, k: nat)
    requires k < |s|
  {
    && 0 < s[k] && s[k] + 2 < |m|
    && m[s[k] + 1] == At(s, k - 1)
    && m[s[k] + 2] == At(s, k + 1)
  }

  /** The doubly linked list whose head is word i visits the blocks of s, in order. */
  ghost predicate Linked(m: seq<nat>, i: nat, s: seq<nat>)
  {
    && i < |m|
    && m[i] == At(s, 0)
    && forall k :: 0 <= k < |s| ==> NodeLinked(m, s, k)
  }

  /** A free block large enough to carry links. Blocks in det are for the moment off the lists. */
  predicate Listable(B: Blocks, det: set<nat>, a: nat)
  {
    a in B && B[a].free && B[a].size >= 4 && a !in det
  }

  ghost predicate Listed(B: Blocks, det: set<nat>, a: nat, i: nat)
  {
    Listable(B, det, a) && GetIndex(B[a].size) == i
  }

  /** A block is on list i exactly when it is free, larger than 16 bytes and of class i. */
  ghost predicate Members(B: Blocks, fl: seq<seq<nat>>, det: set<nat>)
  {
    && |fl| == LISTS
    && (forall i :: 0 <= i < LISTS ==> Distinct(fl[i]))
    && (forall i, a {:trigger Listed(B, det, a, i)} {:trigger a in fl[i]} ::
          0 <= i < LISTS ==> (a in fl[i] <==> Listed(B, det, a, i)))
    && (forall a :: Listable(B, det, a) ==> GetIndex(B[a].size) < LISTS)
  }

  ghost predicate AllLinked(m: seq<nat>, fl: seq<seq<nat>>)
  {
    |fl| == LISTS && forall i :: 0 <= i < LISTS ==> Linked(m, i, fl[i])
  }

  ghost predicate ListsOK(m: seq<nat>, B: Blocks, fl: seq<seq<nat>>, det: set<nat>)
  {
    Members(B, fl, det) && AllLinked(m, fl)
  }

  ghost predicate NoAdjacentFree(B: Blocks)
  {
    forall a {:trigger Separated(B, a)} :: a in B ==> Separated(B, a)
  }

  ghost predicate Separated(B: Blocks, a: nat)
    requires a in B
  {
    B[a].free && a + B[a].size in B ==> !B[a + B[a].size].free
  }

  /** The whole invariant of the block heap. */
  ghost predicate HeapOK(m: seq<nat>, brk: nat, B: Blocks, fl: seq<seq<nat>>)
  {
    && brk <= |m| <= MAX_WORDS
    && Tiled(B, brk) && Aligned(B)
    && Tagged(m, B)
    && ListsOK(m, B, fl, {})
    && NoAdjacentFree(B)
    && m[GUARD] == 0
    && (FIRST in B ==> B[FIRST].size >= 4)
  }

  /** The allocated blocks, with their sizes. */
  function Alloc(B: Blocks): map<nat, nat>
  {
    map a | a in B && !B[a].free :: B[a].size
  }

  /** No word of the given blocks, nor of the slab tables, differs between m and m'. */
  ghost predicate Keeps(m: seq<nat>, m': seq<nat>, A: map<nat, nat>)
  {
    && |m'| == |m|
    && (forall w :: SLABS16 <= w < FIRST && w < |m| ==> m'[w] == m[w])
    && (forall b, w {:trigger A[b], m'[w]} ::
          b in A && b <= w < b + A[b] && w < |m| ==> m'[w] == m[w])
  }

  lemma {:induction false} PrevBlock(B: Blocks, brk: nat, x: nat, a: nat) returns (p: nat)
    requires Tiled(B, brk)
    requires x in B && a in B && x < a
    ensures p in B && p + B[p].size == a
    decreases a - x
  {
    assert Followed(B, brk, x);
    if x + B[x].size == a {
      p := x;
    } else {
      p := PrevBlock(B, brk, x + B[x].size, a);
    }
  }

  /** Every word between the first block and brk belongs to exactly one block. */
  lemma {:induction false} BlockOf(B: Blocks, brk: nat, x: nat, w: nat) returns (b: nat)
    requires Tiled(B, brk)
    requires x in B && x <= w < brk
    ensures b in B && b <= w < b + B[b].size
    ensures forall c :: c in B && c <= w < c + B[c].size ==> c == b
    decreases brk - x
  {
    assert Followed(B, brk, x);
    if w < x + B[x].size {
      b := x;
    } else {
      b := BlockOf(B, brk, x + B[x].size, w);
    }
  }

  // ---------- the in-place primitives, as functions ----------

  /** addTags with valid 0 or 1: header and footer, and two cleared words if there is room. */
  function TagBlock(m: seq<nat>, a: nat, b: Blk): (r: seq<nat>)
    requires b.size >= 2 && a + b.size <= |m|
    ensures |r| == |m|
  {
    var t := m[a := Header(b)][a + b.size - 1 := Header(b)];
    if b.size > 2 then t[a + 1 := 0][a + 2 := 0] else t
  }

  function SetPred(m: seq<nat>, a: nat, pred: nat): (r: seq<nat>)
    requires a + 2 < |m|
    ensures |r| == |m|
  {
    if a == 0 then m else m[a + 1 := pred]
  }

  function SetSucc(m: seq<nat>, a: nat, succ: nat): (r: seq<nat>)
    requires a + 2 < |m|
    ensures |r| == |m|
  {
    if a == 0 then m else m[a + 2 := succ]
  }

  function ListDelete(m: seq<nat>, pred: nat, succ: nat, i: nat): (r: seq<nat>)
    requires i < |m| && pred + 2 < |m| && succ + 2 < |m|
    ensures |r| == |m|
  {
    if pred == 0 then SetPred(m[i := succ], succ, 0)
    else SetPred(SetSucc(m, pred, succ), succ, pred)
  }

  function ListAdd(m: seq<nat>, a: nat, i: nat): (r: seq<nat>)
    requires i < |m| && a + 2 < |m| && i < a && m[i] + 2 < |m|
    ensures |r| == |m|
  {
    SetPred(SetSucc(m, a, m[i]), m[i], a)[i := a]
  }

  // ---------- frames ----------

  /** Only list heads and the link words of free blocks differ. */
  ghost predicate LinksOnly(m: seq<nat>, m': seq<nat>, B: Blocks)
  {
    && |m'| == |m|
    && forall w :: LISTS <= w < |m| && m'[w] != m[w] ==>
         Listable(B, {}, w - 1) || Listable(B, {}, w - 2)
  }

  lemma SameBlock(brk: nat, B: Blocks, b: nat, f: nat, w: nat)
    requires Tiled(B, brk) && b in B && f in B
    requires b <= w < b + B[b].size && f <= w < f + B[f].size
    ensures b == f
  {
  }

  lemma LinkWordOf(m: seq<nat>, m': seq<nat>, brk: nat, B: Blocks, b: nat, w: nat)
    requires Tiled(B, brk) && LinksOnly(m, m', B)
    requires b in B && b <= w < b + B[b].size && w < |m| && m'[w] != m[w]
    ensures B[b].free && B[b].size >= 4 && (w == b + 1 || w == b + 2)
  {
    SameBlock(brk, B, b, if Listable(B, {}, w - 1) then w - 1 else w - 2, w);
  }

  lemma LinksFrame(m: seq<nat>, m': seq<nat>, brk: nat, B: Blocks)
    requires Tiled(B, brk) && Tagged(m, B) && LinksOnly(m, m', B)
    ensures Tagged(m', B) && Keeps(m, m', Alloc(B))
  {
    forall b, w | b in B && b <= w < b + B[b].size && m'[w] != m[w]
      ensures B[b].free && B[b].size >= 4 && (w == b + 1 || w == b + 2)
    {
      LinkWordOf(m, m', brk, B, b, w);
    }
    forall w | SLABS16 <= w < FIRST && w < |m| ensures m'[w] == m[w] {
      assert w - 1 !in B && w - 2 !in B;
    }
  }

  /** A list keeps its links when its head and the link words of its blocks are untouched. */
  lemma LinkedFrame(m: seq<nat>, m': seq<nat>, i: nat, s: seq<nat>)
    requires Linked(m, i, s) && |m'| == |m|
    requires m'[i] == m[i]
    requires forall a :: a in s ==> a + 2 < |m| && m'[a + 1] == m[a + 1] && m'[a + 2] == m[a + 2]
    ensures Linked(m', i, s)
  {
    forall k | 0 <= k < |s| ensures NodeLinked(m', s, k) {
      assert NodeLinked(m, s, k);
      assert s[k] in s;
    }
  }

  // ---------- taking a block off its list ----------

  ghost function IndexOf(s: seq<nat>, a: nat): (k: nat)
    requires a in s
    ensures k < |s| && s[k] == a
  {
    var k: nat :| k < |s| && s[k] == a;
    k
  }

  ghost function Without(s: seq<nat>, a: nat): seq<nat>
    requires a in s
  {
    s[..IndexOf(s, a)] + s[IndexOf(s, a) + 1..]
  }

  lemma WithoutElements(s: seq<nat>, a: nat)
    requires a in s && Distinct(s)
    ensures Distinct(Without(s, a))
    ensures forall x :: x in Without(s, a) <==> x in s && x != a
  {
    var k := IndexOf(s, a);
    var t := Without(s, a);
    forall x ensures x in t <==> x in s && x != a {
      if x in s && x != a {
        var j := IndexOf(s, x);
        assert t[if j < k then j else j - 1] == x;
      }
      if x in t {
        var j := IndexOf(t, x);
        assert x == s[if j < k then j else j + 1];
      }
    }
  }

  /** listDelete splices one block out of its list and leaves every other list alone. */
  lemma UnlinkOne(m: seq<nat>, i: nat, s: seq<nat>, a: nat)
    requires Linked(m, i, s) && Distinct(s) && a in s
    requires forall x, y :: x in s && y in s && x < y ==> x + 3 <= y
    requires forall x :: x in s ==> i < x
    ensures a + 2 < |m| && m[a + 1] + 2 < |m| && m[a + 2] + 2 < |m|
    ensures Linked(ListDelete(m, m[a + 1], m[a + 2], i), i, Without(s, a))
  {
    var k := IndexOf(s, a);
    assert NodeLinked(m, s, k);
    var pred, succ := m[a + 1], m[a + 2];
    if k > 0 { assert NodeLinked(m, s, k - 1); assert s[k - 1] in s; }
    if k + 1 < |s| { assert NodeLinked(m, s, k + 1); assert s[k + 1] in s; }
    var t := Without(s, a);
    forall j | 0 <= j < |t| ensures NodeLinked(ListDelete(m, pred, succ, i), t, j) {
      UnlinkNode(m, i, s, a, k, j);
    }
    UnlinkHead(m, i, s, a, k);
  }

  lemma UnlinkHead(m: seq<nat>, i: nat, s: seq<nat>, a: nat, k: nat)
    requires Linked(m, i, s) && Distinct(s) && k < |s| && s[k] == a && forall x :: x in s ==> i < x
    requires i < |m| && a + 2 < |m| && m[a + 1] + 2 < |m| && m[a + 2] + 2 < |m|
    ensures ListDelete(m, m[a + 1], m[a + 2], i)[i] == At(Without(s, a), 0)
  {
    assert NodeLinked(m, s, k);
    if |s| > 1 { WithoutAt(s, a, k, 0); }
    if k > 0 { assert s[k - 1] in s; }
    if k + 1 < |s| { assert s[k + 1] in s; }
  }

  lemma UnlinkNode(m: seq<nat>, i: nat, s: seq<nat>, a: nat, k: nat, j: nat)
    requires Linked(m, i, s) && Distinct(s) && k < |s| && s[k] == a && j < |Without(s, a)|
    requires forall x, y :: x in s && y in s && x < y ==> x + 3 <= y
    requires forall x :: x in s ==> i < x
    requires i < |m| && a + 2 < |m| && m[a + 1] + 2 < |m| && m[a + 2] + 2 < |m|
    ensures NodeLinked(ListDelete(m, m[a + 1], m[a + 2], i), Without(s, a), j)
  {
    var j' := if j < k then j else j + 1;
    WithoutAt(s, a, k, j);
    NeighboursApart(m, i, s, k, j');
    hide Without, Linked, ListDelete, Distinct;
    DeletedFields(m, i, m[a + 1], m[a + 2], s[j']);
  }

  /** A node of the list and the two neighbours of node k are the same or apart. */
  lemma NeighboursApart(m: seq<nat>, i: nat, s: seq<nat>, k: nat, j: nat)
    requires Linked(m, i, s) && Distinct(s) && k < |s| && j < |s| && j != k
    requires forall x, y :: x in s && y in s && x < y ==> x + 3 <= y
    requires forall x :: x in s ==> i < x
    ensures NodeLinked(m, s, k) && NodeLinked(m, s, j) && i < s[j]
    ensures SameOrApart(s[j], At(s, k - 1)) && SameOrApart(s[j], At(s, k + 1))
    ensures s[j] == At(s, k - 1) <==> j == k - 1
    ensures s[j] == At(s, k + 1) <==> j == k + 1
  {
    assert s[j] in s && NodeLinked(m, s, k) && NodeLinked(m, s, j);
    if k > 0 { assert s[k - 1] in s; }
    if k + 1 < |s| { assert s[k + 1] in s; }
  }

  predicate SameOrApart(x: nat, y: nat)
  {
    y == 0 || x == y || x + 3 <= y || y + 3 <= x
  }

  /** What listDelete makes of the links of node x. */
  lemma DeletedFields(m: seq<nat>, i: nat, pred: nat, succ: nat, x: nat)
    requires i < x && x + 2 < |m| && pred + 2 < |m| && succ + 2 < |m|
    requires SameOrApart(x, pred) && SameOrApart(x, succ)
    ensures var z := ListDelete(m, pred, succ, i);
      && z[x + 1] == (if x == succ then pred else m[x + 1])
      && z[x + 2] == (if x == pred then succ else m[x + 2])
  {
  }

  lemma WithoutAt(s: seq<nat>, a: nat, k: nat, j: nat)
    requires Distinct(s) && k < |s| && s[k] == a && j < |Without(s, a)|
    ensures |Without(s, a)| == |s| - 1 && Without(s, a)[j] == s[if j < k then j else j + 1]
    ensures At(Without(s, a), j - 1) == At(s, if j <= k then j - 1 else j)
    ensures At(Without(s, a), j + 1) == At(s, if j + 1 < k then j + 1 else j + 2)
  {
  }

  lemma DetachMembers(B: Blocks, fl: seq<seq<nat>>, det: set<nat>, a: nat)
    requires Members(B, fl, det) && Listable(B, det, a)
    ensures var i := GetIndex(B[a].size);
      i < LISTS && a in fl[i] && Members(B, fl[i := Without(fl[i], a)], det + {a})
  {
    var i := GetIndex(B[a].size);
    assert Listed(B, det, a, i);
    WithoutElements(fl[i], a);
    var fl', det' := fl[i := Without(fl[i], a)], det + {a};
    forall j: nat, x: nat | j < LISTS ensures x in fl'[j] <==> Listed(B, det', x, j) {
      assert x in fl[j] <==> Listed(B, det, x, j);
    }
  }

  /** The lists do not share blocks, and blocks large enough for links do not overlap. */
  lemma ListedApart(brk: nat, B: Blocks, fl: seq<seq<nat>>, det: set<nat>, i: nat, j: nat)
    requires Tiled(B, brk) && Members(B, fl, det) && i < LISTS && j < LISTS
    ensures forall x :: x in fl[i] ==> FIRST <= x
    ensures forall x, y :: x in fl[i] && y in fl[j] && x < y ==> x + 4 <= y
    ensures i != j ==> forall x, y :: x in fl[i] && y in fl[j] ==> x != y
  {
    forall x | x in fl[i] ensures x in B && B[x].size >= 4 && GetIndex(B[x].size) == i {
      assert Listed(B, det, x, i);
    }
    forall y | y in fl[j] ensures y in B && B[y].size >= 4 && GetIndex(B[y].size) == j {
      assert Listed(B, det, y, j);
    }
  }

  /** Nothing was written but the head of list i, the second link of p and the first of q; 0 stands for no block. */
  ghost predicate LinksSet(m: seq<nat>, m': seq<nat>, i: nat, p: nat, q: nat)
  {
    && |m'| == |m|
    && forall w :: 0 <= w < |m| && m'[w] != m[w] ==> w == i || (p != 0 && w == p + 2) || (q != 0 && w == q + 1)
  }

  lemma DeleteSets(m: seq<nat>, pred: nat, succ: nat, i: nat)
    requires i < |m| && pred + 2 < |m| && succ + 2 < |m|
    ensures LinksSet(m, ListDelete(m, pred, succ, i), i, pred, succ)
  {
  }

  lemma AddSets(m: seq<nat>, a: nat, i: nat)
    requires i < |m| && a + 2 < |m| && i < a && m[i] + 2 < |m|
    ensures LinksSet(m, ListAdd(m, a, i), i, a, m[i])
  {
  }

  lemma SetLinksOnly(m: seq<nat>, m': seq<nat>, B: Blocks, i: nat, p: nat, q: nat)
    requires LinksSet(m, m', i, p, q) && i < LISTS
    requires (p == 0 || Listable(B, {}, p)) && (q == 0 || Listable(B, {}, q))
    ensures LinksOnly(m, m', B)
  {
    hide Listable;
  }

  /** Blocks large enough for links do not overlap. */
  lemma ListableApart(brk: nat, B: Blocks, x: nat, y: nat)
    requires Tiled(B, brk) && Listable(B, {}, x) && Listable(B, {}, y)
    ensures FIRST <= x && (x == y || x + 4 <= y || y + 4 <= x)
  {
  }

  /** The blocks of every list but the i-th are apart from p. */
  ghost predicate OnlyOn(B: Blocks, fl: seq<seq<nat>>, det: set<nat>, i: nat, p: nat)
  {
    p == 0 || (Listable(B, {}, p) && forall j: nat :: j != i ==> !Listed(B, det, p, j))
  }

  /** List j is untouched by what was set for another one. */
  lemma OtherList(m: seq<nat>, m': seq<nat>, brk: nat, B: Blocks, fl: seq<seq<nat>>, det: set<nat>, i: nat,
                  p: nat, q: nat, j: nat)
    requires Tiled(B, brk) && Members(B, fl, det) && AllLinked(m, fl) && LinksSet(m, m', i, p, q)
    requires i < LISTS && j < LISTS && i != j && OnlyOn(B, fl, det, i, p) && OnlyOn(B, fl, det, i, q)
    ensures Linked(m', j, fl[j])
  {
    LinksInRange(m, j, fl[j]);
    hide Tiled, Linked;
    forall x | x in fl[j] ensures m'[x + 1] == m[x + 1] && m'[x + 2] == m[x + 2] {
      assert Listed(B, det, x, j);
      if p != 0 { ListableApart(brk, B, x, p); }
      if q != 0 { ListableApart(brk, B, x, q); }
    }
    if p != 0 { ListableApart(brk, B, p, p); }
    if q != 0 { ListableApart(brk, B, q, q); }
    LinkedFrame(m, m', j, fl[j]);
  }

  lemma ListedOnly(B: Blocks, fl: seq<seq<nat>>, det: set<nat>, i: nat, x: nat)
    requires Members(B, fl, det) && i < LISTS && x in fl[i]
    ensures Listable(B, {}, x) && OnlyOn(B, fl, det, i, x)
  {
    hide GetIndex;
    assert Listed(B, det, x, i);
  }

  lemma DetachLinks(m: seq<nat>, brk: nat, B: Blocks, fl: seq<seq<nat>>, det: set<nat>, i: nat, a: nat)
    requires brk <= |m| && Tiled(B, brk) && ListsOK(m, B, fl, det)
    requires i < LISTS && a in fl[i]
    ensures a + 2 < |m| && m[a + 1] != 1 && m[a + 1] + 2 < |m| && m[a + 2] + 2 < |m|
    ensures var m' := ListDelete(m, m[a + 1], m[a + 2], i);
      LinksOnly(m, m', B) && AllLinked(m', fl[i := Without(fl[i], a)])
  {
    var s := fl[i];
    ListedApart(brk, B, fl, det, i, i);
    UnlinkOne(m, i, s, a);
    hide Tiled, Members, Linked, ListDelete;
    var k := IndexOf(s, a);
    Neighbours(m, i, s, k);
    var pred, succ := m[a + 1], m[a + 2];
    var m' := ListDelete(m, pred, succ, i);
    DeleteSets(m, pred, succ, i);
    if pred != 0 { ListedOnly(B, fl, det, i, pred); }
    if succ != 0 { ListedOnly(B, fl, det, i, succ); }
    SetLinksOnly(m, m', B, i, pred, succ);
    forall j | 0 <= j < LISTS && j != i ensures Linked(m', j, fl[j]) {
      OtherList(m, m', brk, B, fl, det, i, pred, succ, j);
    }
  }

  lemma Neighbours(m: seq<nat>, i: nat, s: seq<nat>, k: nat)
    requires Linked(m, i, s) && k < |s|
    ensures s[k] + 2 < |m| && (m[s[k] + 1] == 0 || m[s[k] + 1] in s) && (m[s[k] + 2] == 0 || m[s[k] + 2] in s)
  {
    assert NodeLinked(m, s, k);
  }

  lemma LinksInRange(m: seq<nat>, i: nat, s: seq<nat>)
    requires Linked(m, i, s)
    ensures forall x :: x in s ==> x + 2 < |m|
  {
    forall x | x in s ensures x + 2 < |m| {
      assert NodeLinked(m, s, IndexOf(s, x));
    }
  }

  lemma Detach(m: seq<nat>, brk: nat, B: Blocks, fl: seq<seq<nat>>, det: set<nat>, a: nat)
    requires brk <= |m| && Tiled(B, brk) && Tagged(m, B) && ListsOK(m, B, fl, det)
    requires Listable(B, det, a)
    ensures var i := GetIndex(B[a].size);
      && i < LISTS && a in fl[i]
      && a + 2 < |m| && m[a + 1] != 1 && m[a + 1] + 2 < |m| && m[a + 2] + 2 < |m|
      && var m' := ListDelete(m, m[a + 1], m[a + 2], i);
      && LinksOnly(m, m', B) && Tagged(m', B) && Keeps(m, m', Alloc(B))
      && ListsOK(m', B, fl[i := Without(fl[i], a)], det + {a})
  {
    var i := GetIndex(B[a].size);
    DetachMembers(B, fl, det, a);
    DetachLinks(m, brk, B, fl, det, i, a);
    LinksFrame(m, ListDelete(m, m[a + 1], m[a + 2], i), brk, B);
  }

  // ---------- putting a block on its list ----------

  lemma AttachMembers(B: Blocks, fl: seq<seq<nat>>, det: set<nat>, a: nat)
    requires Members(B, fl, det) && a in det && a in B && B[a].free && B[a].size >= 4
    requires GetIndex(B[a].size) < LISTS
    ensures var i := GetIndex(B[a].size); Members(B, fl[i := [a] + fl[i]], det - {a})
  {
    var i := GetIndex(B[a].size);
    var fl', det' := fl[i := [a] + fl[i]], det - {a};
    assert a !in fl[i] by { assert !Listed(B, det, a, i); }
    assert Distinct(fl'[i]) by {
      assert forall k :: 0 <= k < |fl[i]| ==> fl[i][k] in fl[i];
    }
    forall j: nat, x: nat | j < LISTS ensures x in fl'[j] <==> Listed(B, det', x, j) {
      assert x in fl[j] <==> Listed(B, det, x, j);
    }
  }

  /** listAdd puts a in front of its list. */
  lemma AttachOwn(m: seq<nat>, i: nat, s: seq<nat>, a: nat)
    requires Linked(m, i, s) && Distinct(s) && i < a && a + 2 < |m| && m[a + 1] == 0
    requires forall x, y :: x in s && y in s && x < y ==> x + 4 <= y
    requires forall x :: x in s ==> i < x && (x + 4 <= a || a + 4 <= x)
    ensures m[i] + 2 < |m| && Linked(ListAdd(m, a, i), i, [a] + s)
  {
    if s != [] { assert NodeLinked(m, s, 0) && s[0] in s; }
    var t, m' := [a] + s, ListAdd(m, a, i);
    forall k | 0 <= k < |t| ensures NodeLinked(m', t, k) {
      if k > 0 {
        assert NodeLinked(m, s, k - 1) && s[k - 1] in s;
        if k > 1 { assert s[k - 1] != s[0]; }
      }
    }
  }

  lemma AttachLinks(m: seq<nat>, brk: nat, B: Blocks, fl: seq<seq<nat>>, det: set<nat>, i: nat, a: nat)
    requires brk <= |m| && Tiled(B, brk) && ListsOK(m, B, fl, det)
    requires i < LISTS && a in det && a in B && B[a].free && B[a].size >= 4
    requires m[a + 1] == 0
    ensures a + 2 < |m| && m[i] + 2 < |m|
    ensures var m' := ListAdd(m, a, i);
      LinksOnly(m, m', B) && AllLinked(m', fl[i := [a] + fl[i]])
  {
    var s, h := fl[i], m[i];
    ListedApart(brk, B, fl, det, i, i);
    forall x | x in s ensures x + 4 <= a || a + 4 <= x {
      assert Listed(B, det, x, i);
      ListableApart(brk, B, x, a);
    }
    ListableApart(brk, B, a, a);
    assert a + 2 < brk;
    assert OnlyOn(B, fl, det, i, a);
    hide Tiled, Listable;
    AttachOwn(m, i, s, a);
    Head(m, i, s);
    if h != 0 { ListedOnly(B, fl, det, i, h); }
    hide Members, Linked, ListAdd, OnlyOn;
    var m' := ListAdd(m, a, i);
    AddSets(m, a, i);
    SetLinksOnly(m, m', B, i, a, h);
    forall j | 0 <= j < LISTS && j != i ensures Linked(m', j, fl[j]) {
      OtherList(m, m', brk, B, fl, det, i, a, h, j);
    }
  }

  lemma Head(m: seq<nat>, i: nat, s: seq<nat>)
    requires Linked(m, i, s)
    ensures i < |m| && (m[i] == 0 || m[i] in s)
  {
  }

  lemma Attach(m: seq<nat>, brk: nat, B: Blocks, fl: seq<seq<nat>>, det: set<nat>, a: nat)
    requires brk <= |m| <= MAX_WORDS && Tiled(B, brk) && Tagged(m, B) && ListsOK(m, B, fl, det)
    requires a in det && a in B && B[a].free && B[a].size >= 4
    requires m[a + 1] == 0
    ensures var i := GetIndex(B[a].size);
      && i < LISTS && a + 2 < |m| && m[i] + 2 < |m|
      && var m' := ListAdd(m, a, i);
      && LinksOnly(m, m', B) && Tagged(m', B) && Keeps(m, m', Alloc(B))
      && ListsOK(m', B, fl[i := [a] + fl[i]], det - {a})
  {
    var i := GetIndex(B[a].size);
    GetIndexClass(B[a].size);
    AttachMembers(B, fl, det, a);
    AttachLinks(m, brk, B, fl, det, i, a);
    LinksFrame(m, ListAdd(m, a, i), brk, B);
  }

  // ---------- rewriting the tags of off-list blocks ----------

  /** The words of m and m' differ only within [lo, hi). */
  ghost predicate Within(m: seq<nat>, m': seq<nat>, lo: nat, hi: nat)
  {
    |m'| == |m| && forall w :: 0 <= w < |m| && m'[w] != m[w] ==> lo <= w < hi
  }

  /** Every block starting in [lo, hi) is off the lists. */
  ghost predicate OffLists(B: Blocks, det: set<nat>, lo: nat, hi: nat)
  {
    && (forall x :: x in B && lo <= x < hi ==> !Listable(B, det, x))
    && (forall x :: x in det ==> lo <= x < hi)
  }

  /** A boundary between blocks, or the end of the heap. */
  predicate Boundary(B: Blocks, brk: nat, e: nat)
  {
    e in B || e == brk
  }

  /** The blocks from a up to e become one. */
  function Fused(B: Blocks, a: nat, e: nat, free: bool): (r: Blocks)
    requires a <= e
  {
    (map x | x in B && !(a <= x < e) :: B[x])[a := Blk(e - a, free)]
  }

  /** Block a becomes two, the first of n words. */
  function Carved(B: Blocks, a: nat, n: nat, first: bool, second: bool): Blocks
    requires a in B && n <= B[a].size
  {
    B[a := Blk(n, first)][a + n := Blk(B[a].size - n, second)]
  }

  lemma BlocksEnd(B: Blocks, brk: nat, a: nat, e: nat)
    requires Tiled(B, brk) && a in B && a < e && Boundary(B, brk, e)
    ensures forall x :: x in B && x < a ==> x + B[x].size <= a
    ensures forall x :: x in B && x < e ==> x + B[x].size <= e
    ensures a + 2 <= e
  {
  }

  /** The block behind a, before the boundary e. */
  lemma NextBlock(B: Blocks, brk: nat, a: nat, e: nat)
    requires Tiled(B, brk) && Aligned(B) && a in B && a < e && Boundary(B, brk, e)
    ensures 2 <= B[a].size && B[a].size % 2 == 0 && a + B[a].size <= e
    ensures a + B[a].size < e ==> a + B[a].size in B
  {
    assert Followed(B, brk, a);
  }

  lemma {:induction false} EvenSpan(B: Blocks, brk: nat, a: nat, e: nat)
    requires Tiled(B, brk) && Aligned(B) && a in B && a <= e && Boundary(B, brk, e)
    ensures (e - a) % 2 == 0
    decreases e - a
  {
    hide *;
    if a < e {
      NextBlock(B, brk, a, e);
      var b := a + B[a].size;
      if b < e { EvenSpan(B, brk, b, e); }
      EvenParts(a, b, e);
    }
  }

  lemma EvenParts(a: nat, b: nat, e: nat)
    requires a <= b <= e && (b - a) % 2 == 0 && (e - b) % 2 == 0
    ensures (e - a) % 2 == 0
  {
  }

  /** Tags written inside [a, e) leave the lists and the other blocks alone. */
  lemma InnerFrame(m: seq<nat>, m': seq<nat>, brk: nat, B: Blocks, fl: seq<seq<nat>>, det: set<nat>,
                   a: nat, e: nat)
    requires brk <= |m| && Tiled(B, brk) && Tagged(m, B) && ListsOK(m, B, fl, det)
    requires a in B && a < e && Boundary(B, brk, e)
    requires OffLists(B, det, a, e) && Within(m, m', a, e)
    ensures AllLinked(m', fl)
    ensures forall x, w {:trigger B[x], m'[w]} ::
      x in B && !(a <= x < e) && x <= w < x + B[x].size ==> w < |m| && m'[w] == m[w]
  {
    BlocksEnd(B, brk, a, e);
    forall i | 0 <= i < LISTS ensures Linked(m', i, fl[i]) {
      forall x | x in fl[i] ensures x in B && B[x].size >= 4 && !(a <= x < e) {
        assert Listed(B, det, x, i);
      }
      LinksInRange(m, i, fl[i]);
      LinkedFrame(m, m', i, fl[i]);
    }
  }

  lemma FusedBlocks(B: Blocks, a: nat, e: nat, free: bool)
    requires a in B && a < e
    ensures var r := Fused(B, a, e, free);
      forall x {:trigger x in r} :: (x in r <==> x == a || (x in B && !(a <= x < e)))
        && (x in r ==> r[x] == if x == a then Blk(e - a, free) else B[x])
  {
  }

  lemma FusedTiled(brk: nat, B: Blocks, a: nat, e: nat, free: bool)
    requires Tiled(B, brk) && a in B && a < e && Boundary(B, brk, e)
    ensures e - a >= 2 && Tiled(Fused(B, a, e, free), brk)
  {
    BlocksEnd(B, brk, a, e);
    FusedBlocks(B, a, e, free);
    hide Tiled;
    RetiledTiled(brk, B, Fused(B, a, e, free), a, e);
  }

  ghost predicate SameOutside(B: Blocks, B': Blocks, a: nat, e: nat)
  {
    && (forall x :: x in B' && !(a <= x < e) ==> x in B && B'[x] == B[x])
    && (forall x :: x in B && !(a <= x < e) ==> x in B')
  }

  /** The blocks of [a, e) lie end to end. */
  ghost predicate TilesSpan(B: Blocks, a: nat, e: nat)
  {
    && a in B
    && (forall x {:trigger Followed(B, e, x)} :: x in B && a <= x < e ==>
          2 <= B[x].size && x + B[x].size <= e && Followed(B, e, x))
    && (forall x, y :: x in B && y in B && a <= x < y < e ==> x + B[x].size <= y)
  }

  /** What tiles [a, e) between untouched neighbours tiles the heap. */
  lemma RetiledTiled(brk: nat, B: Blocks, B': Blocks, a: nat, e: nat)
    requires Tiled(B, brk) && a in B && a < e && Boundary(B, brk, e)
    requires SameOutside(B, B', a, e) && TilesSpan(B', a, e)
    ensures Tiled(B', brk)
  {
    Extent(B, brk, a, e);
    hide *;
    forall x | x in B' ensures FIRST <= x && 2 <= B'[x].size && x + B'[x].size <= brk && Followed(B', brk, x) {
      RetiledBlock(brk, B, B', a, e, x);
    }
    forall x, y | x in B' && y in B' && x < y ensures x + B'[x].size <= y {
      RetiledPair(brk, B, B', a, e, x, y);
    }
    RetiledFirst(brk, B, B', a, e);
    MakeTiled(B', brk);
  }

  lemma Extent(B: Blocks, brk: nat, a: nat, e: nat)
    requires Tiled(B, brk) && a in B && a < e && Boundary(B, brk, e)
    ensures FIRST <= a < e <= brk
  {
  }

  lemma MakeTiled(B: Blocks, brk: nat)
    requires FIRST <= brk && (FIRST < brk ==> FIRST in B)
    requires forall x :: x in B ==> FIRST <= x && 2 <= B[x].size && x + B[x].size <= brk && Followed(B, brk, x)
    requires forall x, y :: x in B && y in B && x < y ==> x + B[x].size <= y
    ensures Tiled(B, brk)
  {
  }

  lemma RetiledFirst(brk: nat, B: Blocks, B': Blocks, a: nat, e: nat)
    requires Tiled(B, brk) && a in B && a < e && SameOutside(B, B', a, e) && TilesSpan(B', a, e)
    ensures FIRST <= brk && FIRST in B'
  {
    hide Followed;
  }

  lemma RetiledBlock(brk: nat, B: Blocks, B': Blocks, a: nat, e: nat, x: nat)
    requires Tiled(B, brk) && a in B && a < e <= brk && Boundary(B, brk, e)
    requires SameOutside(B, B', a, e) && TilesSpan(B', a, e) && x in B'
    ensures FIRST <= x && 2 <= B'[x].size && x + B'[x].size <= brk && Followed(B', brk, x)
  {
    if a <= x < e {
      assert Followed(B', e, x);
      assert FIRST <= a;
      if x + B'[x].size == e { assert e < brk ==> e in B; }
    } else {
      assert Followed(B, brk, x);
      BlocksEnd(B, brk, a, e);
    }
  }

  lemma RetiledPair(brk: nat, B: Blocks, B': Blocks, a: nat, e: nat, x: nat, y: nat)
    requires Tiled(B, brk) && a in B && a < e && Boundary(B, brk, e)
    requires SameOutside(B, B', a, e) && TilesSpan(B', a, e) && x in B' && y in B' && x < y
    ensures x + B'[x].size <= y
  {
    BlocksEnd(B, brk, a, e);
    if a <= x < e { assert Followed(B', e, x); }
  }

  lemma CarvedTiled(brk: nat, B: Blocks, a: nat, n: nat, first: bool, second: bool)
    requires Tiled(B, brk) && a in B && 2 <= n && n + 2 <= B[a].size
    ensures Tiled(Carved(B, a, n, first, second), brk)
  {
    BlockEnd(brk, B, a);
    CarvedSpan(B, a, n, first, second);
    hide *;
    RetiledTiled(brk, B, Carved(B, a, n, first, second), a, a + B[a].size);
  }

  lemma CarvedSpan(B: Blocks, a: nat, n: nat, first: bool, second: bool)
    requires a in B && 2 <= n && n + 2 <= B[a].size && forall x :: x in B && a < x ==> a + B[a].size <= x
    ensures SameOutside(B, Carved(B, a, n, first, second), a, a + B[a].size)
    ensures TilesSpan(Carved(B, a, n, first, second), a, a + B[a].size)
  {
  }

  /** m has the tags of block x of B. */
  ghost predicate TagAt(m: seq<nat>, B: Blocks, x: nat)
  {
    && x in B && 1 <= B[x].size && x + B[x].size <= |m|
    && m[x] == Header(B[x]) && m[x + B[x].size - 1] == Header(B[x])
  }

  /** The tags of B' hold where they were written, and elsewhere because nothing changed. */
  lemma RetiledTagged(m: seq<nat>, m': seq<nat>, brk: nat, B: Blocks, B': Blocks, a: nat, e: nat)
    requires Tiled(B, brk) && Tagged(m, B) && |m'| == |m|
    requires forall x :: x in B' && !(a <= x < e) ==> x in B && B'[x] == B[x]
    requires forall x, w {:trigger B[x], m'[w]} ::
      x in B && !(a <= x < e) && x <= w < x + B[x].size ==> w < |m| && m'[w] == m[w]
    requires forall x {:trigger TagAt(m', B', x)} :: x in B' && a <= x < e ==> TagAt(m', B', x)
    ensures Tagged(m', B')
  {
    forall x | x in B' ensures TagAt(m', B', x) {
      if !(a <= x < e) {
        assert m'[x] == m[x] && m'[x + B[x].size - 1] == m[x + B[x].size - 1];
      }
    }
  }

  /** Tags written for a block hold; they are the only words written, with the two link words. */
  lemma TagBlockTags(m: seq<nat>, a: nat, b: Blk)
    requires b.size >= 2 && b.size != 3 && a + b.size <= |m|
    ensures var r := TagBlock(m, a, b);
      && r[a] == Header(b) && r[a + b.size - 1] == Header(b)
      && (b.size > 2 ==> r[a + 1] == 0 && r[a + 2] == 0)
      && Within(m, r, a, a + b.size)
      && (forall w :: a + 3 <= w < a + b.size - 1 ==> r[w] == m[w])
  {
  }

  /** The effect on memory and lists of cutting [a, e) into blocks anew. */
  lemma Retile(m: seq<nat>, m': seq<nat>, brk: nat, B: Blocks, B': Blocks, fl: seq<seq<nat>>, det: set<nat>,
               a: nat, e: nat)
    requires brk <= |m| && Tiled(B, brk) && Tagged(m, B) && ListsOK(m, B, fl, det)
    requires a in B && a < e && Boundary(B, brk, e) && OffLists(B, det, a, e)
    requires Within(m, m', a, e)
    requires forall x :: x in B' && !(a <= x < e) ==> x in B && B'[x] == B[x]
    requires forall x {:trigger TagAt(m', B', x)} :: x in B' && a <= x < e ==> TagAt(m', B', x)
    ensures Tagged(m', B') && AllLinked(m', fl)
  {
    InnerFrame(m, m', brk, B, fl, det, a, e);
    RetiledTagged(m, m', brk, B, B', a, e);
  }

  /** The blocks from a up to e, all off the lists, become one block, on no list yet. */
  lemma Fuse(m: seq<nat>, m': seq<nat>, brk: nat, B: Blocks, fl: seq<seq<nat>>, det: set<nat>,
             a: nat, e: nat, free: bool)
    requires brk <= |m| && Tiled(B, brk) && Tagged(m, B) && ListsOK(m, B, fl, det)
    requires a in B && a < e && Boundary(B, brk, e) && OffLists(B, det, a, e)
    requires Within(m, m', a, e) && TagAt(m', Fused(B, a, e, free), a)
    ensures var B' := Fused(B, a, e, free);
      Tiled(B', brk) && Tagged(m', B') && ListsOK(m', B', fl, if free then {a} else {})
  {
    FusedTiled(brk, B, a, e, free);
    FusedMembers(B, fl, det, a, e, free);
    FusedBlocks(B, a, e, free);
    Retile(m, m', brk, B, Fused(B, a, e, free), fl, det, a, e);
  }

  lemma FusedMembers(B: Blocks, fl: seq<seq<nat>>, det: set<nat>, a: nat, e: nat, free: bool)
    requires Members(B, fl, det) && a in B && a < e && OffLists(B, det, a, e)
    ensures Members(Fused(B, a, e, free), fl, if free then {a} else {})
  {
    var B', det' := Fused(B, a, e, free), if free then {a} else {};
    forall j: nat, x: nat | j < LISTS ensures x in fl[j] <==> Listed(B', det', x, j) {
      assert x in fl[j] <==> Listed(B, det, x, j);
      assert x in B && a <= x < e ==> !Listable(B, det, x);
    }
    forall x | Listable(B', det', x) ensures GetIndex(B'[x].size) < LISTS {
      assert Listable(B, det, x);
    }
  }

  /** One off-list block becomes two. */
  lemma Carve(m: seq<nat>, m': seq<nat>, brk: nat, B: Blocks, fl: seq<seq<nat>>, det: set<nat>,
              a: nat, n: nat, first: bool, second: bool)
    requires brk <= |m| && Tiled(B, brk) && Tagged(m, B) && ListsOK(m, B, fl, det)
    requires a in B && 2 <= n && n + 2 <= B[a].size && OffLists(B, det, a, a + B[a].size)
    requires Within(m, m', a, a + B[a].size)
    requires var B' := Carved(B, a, n, first, second); TagAt(m', B', a) && TagAt(m', B', a + n)
    ensures var B' := Carved(B, a, n, first, second);
      && Tiled(B', brk) && Tagged(m', B')
      && ListsOK(m', B', fl, (if first then {a} else {}) + (if second then {a + n} else {}))
  {
    CarvedTiled(brk, B, a, n, first, second);
    BlockEnd(brk, B, a);
    CarvedMembers(B, fl, det, a, n, first, second);
    CarvedTags(m', B, a, n, first, second);
    hide Tiled, TagAt, Tagged, OffLists, Boundary, AllLinked, Members;
    Retile(m, m', brk, B, Carved(B, a, n, first, second), fl, det, a, a + B[a].size);
  }

  lemma CarvedTags(m': seq<nat>, B: Blocks, a: nat, n: nat, first: bool, second: bool)
    requires a in B && 2 <= n && n + 2 <= B[a].size && forall x :: x in B && a < x ==> a + B[a].size <= x
    requires var B' := Carved(B, a, n, first, second); TagAt(m', B', a) && TagAt(m', B', a + n)
    ensures var B' := Carved(B, a, n, first, second);
      && (forall x {:trigger TagAt(m', B', x)} :: x in B' && a <= x < a + B[a].size ==> TagAt(m', B', x))
      && forall x :: x in B' && !(a <= x < a + B[a].size) ==> x in B && B'[x] == B[x]
  {
    hide TagAt;
  }

  lemma BlockEnd(brk: nat, B: Blocks, a: nat)
    requires Tiled(B, brk) && a in B
    ensures Boundary(B, brk, a + B[a].size)
    ensures forall x :: x in B && a < x ==> a + B[a].size <= x
  {
    assert Followed(B, brk, a);
  }

  lemma CarvedMembers(B: Blocks, fl: seq<seq<nat>>, det: set<nat>, a: nat, n: nat, first: bool, second: bool)
    requires Members(B, fl, det) && a in B && 0 < n < B[a].size
    requires OffLists(B, det, a, a + B[a].size)
    requires forall x :: x in B && a < x ==> a + B[a].size <= x
    ensures Members(Carved(B, a, n, first, second), fl,
                    (if first then {a} else {}) + (if second then {a + n} else {}))
  {
    var B' := Carved(B, a, n, first, second);
    var det' := (if first then {a} else {}) + (if second then {a + n} else {});
    forall j: nat, x: nat | j < LISTS ensures x in fl[j] <==> Listed(B', det', x, j) {
      assert x in fl[j] <==> Listed(B, det, x, j);
      assert !Listable(B, det, a);
    }
    forall x | Listable(B', det', x) ensures GetIndex(B'[x].size) < LISTS {
      assert Listable(B, det, x);
    }
  }

  /** A new allocated block of n words at the end of the heap. */
  lemma Grow(m: seq<nat>, brk: nat, B: Blocks, fl: seq<seq<nat>>, n: nat)
    requires HeapOK(m, brk, B, fl) && (n >= 4 || FIRST < brk)
    requires 2 <= n && n % 2 == 0 && brk + n <= |m|
    ensures var m' := TagBlock(m, brk, Blk(n, false));
      && Within(m, m', brk, brk + n) && Keeps(m, m', Alloc(B))
      && HeapOK(m', brk + n, B[brk := Blk(n, false)], fl)
  {
    var m', B' := TagBlock(m, brk, Blk(n, false)), B[brk := Blk(n, false)];
    TagBlockTags(m, brk, Blk(n, false));
    GrownTiled(brk, B, n);
    GrownSeparated(brk, B, n);
    GrownMembers(brk, B, fl, n);
    GrownFrame(m, m', brk, B, fl, n);
    hide Tiled, Aligned, NoAdjacentFree, Members, AllLinked, Within, TagBlock, Tagged, Keeps;
    BrkBounds(m, brk, B, fl);
    assert ListsOK(m', B', fl, {});
  }

  lemma BrkBounds(m: seq<nat>, brk: nat, B: Blocks, fl: seq<seq<nat>>)
    requires HeapOK(m, brk, B, fl)
    ensures FIRST <= brk <= |m| <= MAX_WORDS && m[GUARD] == 0 && (FIRST in B ==> B[FIRST].size >= 4)
    ensures brk !in B && (FIRST < brk ==> FIRST in B)
  {
  }

  /** What is written behind the heap leaves it alone. */
  lemma GrownFrame(m: seq<nat>, m': seq<nat>, brk: nat, B: Blocks, fl: seq<seq<nat>>, n: nat)
    requires HeapOK(m, brk, B, fl) && Within(m, m', brk, brk + n) && 2 <= n && brk + n <= |m|
    requires m'[brk] == m'[brk + n - 1] == Header(Blk(n, false))
    ensures Tagged(m', B[brk := Blk(n, false)]) && AllLinked(m', fl) && Keeps(m, m', Alloc(B)) && m'[GUARD] == m[GUARD]
  {
    hide Header;
    forall i | 0 <= i < LISTS ensures Linked(m', i, fl[i]) {
      forall x | x in fl[i] ensures x in B && B[x].size >= 4 {
        assert Listed(B, {}, x, i);
      }
      LinksInRange(m, i, fl[i]);
      LinkedFrame(m, m', i, fl[i]);
    }
  }

  lemma GrownTiled(brk: nat, B: Blocks, n: nat)
    requires Tiled(B, brk) && Aligned(B) && 2 <= n && n % 2 == 0
    ensures var B' := B[brk := Blk(n, false)]; Tiled(B', brk + n) && Aligned(B')
  {
    var B' := B[brk := Blk(n, false)];
    BrkIsOdd(B, brk);
    forall x | x in B' ensures Followed(B', brk + n, x) {
      if x in B { assert Followed(B, brk, x); }
    }
  }

  lemma GrownSeparated(brk: nat, B: Blocks, n: nat)
    requires Tiled(B, brk) && NoAdjacentFree(B)
    ensures NoAdjacentFree(B[brk := Blk(n, false)])
  {
    var B' := B[brk := Blk(n, false)];
    forall x | x in B' ensures Separated(B', x) {
      if x in B && x != brk { assert Separated(B, x); }
    }
  }

  lemma GrownMembers(brk: nat, B: Blocks, fl: seq<seq<nat>>, n: nat)
    requires Tiled(B, brk) && Members(B, fl, {})
    ensures Members(B[brk := Blk(n, false)], fl, {})
  {
    hide GetIndex;
    var B' := B[brk := Blk(n, false)];
    assert brk !in B;
    forall x ensures Listable(B', {}, x) <==> Listable(B, {}, x) { }
    hide Tiled, Listable;
    forall j: nat, x: nat | j < LISTS ensures x in fl[j] <==> Listed(B', {}, x, j) {
      assert x in fl[j] <==> Listed(B, {}, x, j);
    }
  }

  lemma BrkIsOdd(B: Blocks, brk: nat)
    requires Tiled(B, brk) && Aligned(B)
    ensures brk % 2 == 1
  {
    if FIRST < brk { EvenSpan(B, brk, FIRST, brk); }
  }
}
