/** The steps of malloc and free on the block heap, from one well-formed heap to the next. */
module HeapSteps {
  import opened HeapBlocks

  // ---------- what stays the same ----------

  lemma KeepsTransitive(m: seq<nat>, m': seq<nat>, m'': seq<nat>, A: map<nat, nat>)
    requires Keeps(m, m', A) && Keeps(m', m'', A)
    ensures Keeps(m, m'', A)
  {
    forall b, w | b in A && b <= w < b + A[b] && w < |m| ensures m''[w] == m[w] {
      assert m'[w] == m[w];
    }
  }

  lemma KeepsFewer(m: seq<nat>, m': seq<nat>, A: map<nat, nat>, A': map<nat, nat>)
    requires Keeps(m, m', A)
    requires forall b :: b in A' ==> b in A && A[b] == A'[b]
    ensures Keeps(m, m', A')
  {
  }

  /** Writing inside [a, e) keeps every allocated block outside it. */
  lemma WithinKeeps(m: seq<nat>, m': seq<nat>, brk: nat, B: Blocks, a: nat, e: nat, A: map<nat, nat>)
    requires Tiled(B, brk) && a in B && a < e && Boundary(B, brk, e)
    requires Within(m, m', a, e)
    requires forall b :: b in A ==> b in B && B[b].size == A[b] && !(a <= b < e)
    ensures Keeps(m, m', A)
  {
    BlocksEnd(B, brk, a, e);
    forall b, w | b in A && b <= w < b + A[b] && w < |m| ensures m'[w] == m[w] { }
  }

  // ---------- malloc: a free block is found ----------

  /** A well-formed heap but for the free blocks in det, which are off the lists. */
  ghost predicate Loose(m: seq<nat>, brk: nat, B: Blocks, fl: seq<seq<nat>>, det: set<nat>)
  {
    && brk <= |m| <= MAX_WORDS
    && Tiled(B, brk) && Aligned(B) && Tagged(m, B) && NoAdjacentFree(B)
    && ListsOK(m, B, fl, det)
    && m[GUARD] == 0
    && (FIRST in B ==> B[FIRST].size >= 4)
  }

  lemma LooseIsOK(m: seq<nat>, brk: nat, B: Blocks, fl: seq<seq<nat>>)
    ensures HeapOK(m, brk, B, fl) <==> Loose(m, brk, B, fl, {})
  {
  }

  /** A heap in which one free block, r, is for the moment off the lists. */
  ghost predicate Pending(m: seq<nat>, brk: nat, B: Blocks, fl: seq<seq<nat>>, r: nat)
  {
    Loose(m, brk, B, fl, {r}) && r in B && B[r].free
  }

  lemma Take(m: seq<nat>, brk: nat, B: Blocks, fl: seq<seq<nat>>, det: set<nat>, a: nat)
    requires Loose(m, brk, B, fl, det) && Listable(B, det, a)
    ensures var i := GetIndex(B[a].size);
      && |fl| == LISTS && i < LISTS && a in fl[i] && i < |m|
      && a + 2 < |m| && m[a + 1] != 1 && m[a + 1] + 2 < |m| && m[a + 2] + 2 < |m|
      && var m' := ListDelete(m, m[a + 1], m[a + 2], i);
      && Loose(m', brk, B, fl[i := Without(fl[i], a)], det + {a}) && Keeps(m, m', Alloc(B))
  {
    Detach(m, brk, B, fl, det, a);
  }

  lemma CarvedSeparated(B: Blocks, brk: nat, a: nat, n: nat)
    requires Tiled(B, brk) && NoAdjacentFree(B) && a in B && B[a].free && 2 <= n && n + 2 <= B[a].size
    ensures NoAdjacentFree(Carved(B, a, n, false, true))
  {
    var B' := Carved(B, a, n, false, true);
    assert Separated(B, a);
    BlockEnd(brk, B, a);
    forall x | x in B' ensures Separated(B', x) {
      if x in B { assert Separated(B, x); }
    }
  }

  lemma CarvedAlloc(B: Blocks, a: nat, n: nat)
    requires a in B && B[a].free && 0 < n < B[a].size && a + n !in B
    ensures a !in Alloc(B) && Alloc(Carved(B, a, n, false, true)) == Alloc(B)[a := n]
  {
  }

  lemma CarvedAligned(B: Blocks, a: nat, n: nat)
    requires Aligned(B) && a in B && n % 2 == 0 && n <= B[a].size
    ensures Aligned(Carved(B, a, n, false, true))
  {
  }

  /** The chosen block is split: n words allocated, the rest free but not yet on a list. */
  lemma Split(m: seq<nat>, m': seq<nat>, brk: nat, B: Blocks, fl: seq<seq<nat>>, a: nat, n: nat)
    requires Pending(m, brk, B, fl, a) && 4 <= n && n % 2 == 0 && n + 2 <= B[a].size
    requires Within(m, m', a, a + B[a].size)
    requires var B' := Carved(B, a, n, false, true); TagAt(m', B', a) && TagAt(m', B', a + n)
    ensures Pending(m', brk, Carved(B, a, n, false, true), fl, a + n)
  {
    CarvedSeparated(B, brk, a, n);
    CarvedAligned(B, a, n);
    OffSelf(brk, B, a);
    hide Tiled, Aligned, Tagged, NoAdjacentFree, Members, AllLinked, OffLists, TagAt, Boundary;
    Carve(m, m', brk, B, fl, {a}, a, n, false, true);
    assert {} + {a + n} == {a + n};
  }

  lemma OffSelf(brk: nat, B: Blocks, a: nat)
    requires Tiled(B, brk) && a in B
    ensures OffLists(B, {a}, a, a + B[a].size)
  {
    BlockEnd(brk, B, a);
  }

  /** A remainder of at least 32 bytes goes on its list. */
  lemma ListPending(m: seq<nat>, brk: nat, B: Blocks, fl: seq<seq<nat>>, r: nat)
    requires Pending(m, brk, B, fl, r) && B[r].size >= 4 && m[r + 1] == 0
    ensures var i := GetIndex(B[r].size);
      && |fl| == LISTS && i < LISTS < r && r + 2 < |m| && m[i] + 2 < |m|
      && var m' := ListAdd(m, r, i);
      && HeapOK(m', brk, B, fl[i := [r] + fl[i]]) && Keeps(m, m', Alloc(B))
  {
    Attach(m, brk, B, fl, {r}, r);
    assert {r} - {r} == {};
  }

  /** A block too small for links needs no list. */
  lemma SmallNeedsNoList(m: seq<nat>, brk: nat, B: Blocks, fl: seq<seq<nat>>, r: nat)
    requires Pending(m, brk, B, fl, r) && B[r].size < 4
    ensures HeapOK(m, brk, B, fl)
  {
    forall j: nat, x: nat | j < LISTS ensures x in fl[j] <==> Listed(B, {}, x, j) {
      assert x in fl[j] <==> Listed(B, {r}, x, j);
    }
    forall x | Listable(B, {}, x) ensures GetIndex(B[x].size) < LISTS {
      assert Listable(B, {r}, x);
    }
  }

  lemma FusedSeparated(B: Blocks, brk: nat, a: nat, e: nat, free: bool)
    requires Tiled(B, brk) && NoAdjacentFree(B) && a in B && a < e && Boundary(B, brk, e)
    requires free ==> (e in B ==> !B[e].free)
    requires free ==> forall x :: x in B && x + B[x].size == a ==> !B[x].free
    ensures NoAdjacentFree(Fused(B, a, e, free))
  {
    FusedBlocks(B, a, e, free);
    BlocksEnd(B, brk, a, e);
    var B' := Fused(B, a, e, free);
    forall x | x in B' ensures Separated(B', x) {
      if x != a { assert Separated(B, x); }
    }
  }

  lemma FusedAligned(B: Blocks, brk: nat, a: nat, e: nat, free: bool)
    requires Tiled(B, brk) && Aligned(B) && a in B && a < e && Boundary(B, brk, e)
    ensures Aligned(Fused(B, a, e, free))
  {
    FusedBlocks(B, a, e, free);
    EvenSpan(B, brk, a, e);
  }

  lemma ExactAlloc(B: Blocks, brk: nat, a: nat)
    requires Tiled(B, brk) && a in B && B[a].free
    ensures a !in Alloc(B) && Alloc(Fused(B, a, a + B[a].size, false)) == Alloc(B)[a := B[a].size]
  {
    hide Fused, Tiled;
    var B' := Fused(B, a, a + B[a].size, false);
    SizeAt(B, brk, a);
    FusedBlocks(B, a, a + B[a].size, false);
    BlockEnd(brk, B, a);
    assert forall x :: x in B' <==> x in B;
  }

  lemma SizeAt(B: Blocks, brk: nat, a: nat)
    requires Tiled(B, brk) && a in B
    ensures B[a].size >= 2
  {
  }

  /** The chosen block fits exactly. */
  lemma TakeWhole(m: seq<nat>, m': seq<nat>, brk: nat, B: Blocks, fl: seq<seq<nat>>, a: nat)
    requires Pending(m, brk, B, fl, a) && B[a].size >= 4
    requires Within(m, m', a, a + B[a].size)
    requires TagAt(m', Fused(B, a, a + B[a].size, false), a)
    ensures HeapOK(m', brk, Fused(B, a, a + B[a].size, false), fl)
  {
    hide Tiled, Aligned, Tagged, NoAdjacentFree, Members, AllLinked, OffLists, TagAt, Fused;
    var e := a + B[a].size;
    OffSelf(brk, B, a);
    BlockEnd(brk, B, a);
    Extent(B, brk, a, e);
    FusedSeparated(B, brk, a, e, false);
    FusedAligned(B, brk, a, e, false);
    Fuse(m, m', brk, B, fl, {a}, a, e, false);
    FusedBlocks(B, a, e, false);
  }

  /** Writing inside a free block keeps all allocated blocks. */
  lemma FreeBlockKeeps(m: seq<nat>, m': seq<nat>, brk: nat, B: Blocks, a: nat)
    requires Tiled(B, brk) && a in B && B[a].free && Within(m, m', a, a + B[a].size)
    ensures Keeps(m, m', Alloc(B))
  {
    BlockEnd(brk, B, a);
    WithinKeeps(m, m', brk, B, a, a + B[a].size, Alloc(B));
  }

  /** What the two addTags calls of a split write. */
  lemma SplitTags(m: seq<nat>, B: Blocks, a: nat, n: nat)
    requires a in B && 4 <= n && n + 2 <= B[a].size != n + 3 && a + B[a].size <= |m|
    ensures var b1, b2 := Blk(n, false), Blk(B[a].size - n, true);
      && var m' := TagBlock(TagBlock(m, a, b1), a + n, b2);
      && var B' := Carved(B, a, n, false, true);
      && Within(m, m', a, a + B[a].size) && TagAt(m', B', a) && TagAt(m', B', a + n)
      && (B[a].size >= n + 4 ==> m'[a + n + 1] == 0)
  {
    TagBlockTags(m, a, Blk(n, false));
    TagBlockTags(TagBlock(m, a, Blk(n, false)), a + n, Blk(B[a].size - n, true));
    hide TagBlock;
  }

  lemma FuseTags(m: seq<nat>, B: Blocks, a: nat, e: nat, free: bool)
    requires a in B && a + 2 <= e != a + 3 && e <= |m|
    ensures var m' := TagBlock(m, a, Blk(e - a, free));
      && Within(m, m', a, e) && TagAt(m', Fused(B, a, e, free), a)
      && (e - a >= 4 ==> m'[a + 1] == 0)
  {
    TagBlockTags(m, a, Blk(e - a, free));
    FusedBlocks(B, a, e, free);
    hide TagBlock;
  }

  lemma PendingSizes(m: seq<nat>, brk: nat, B: Blocks, fl: seq<seq<nat>>, a: nat)
    requires Pending(m, brk, B, fl, a)
    ensures a in B && a >= FIRST && 2 <= B[a].size != 3 && a + B[a].size <= |m|
    ensures B[a].size % 2 == 0
  {
    hide Members, AllLinked, Tagged, NoAdjacentFree;
  }

  lemma PlaceSplit(m: seq<nat>, brk: nat, B: Blocks, fl: seq<seq<nat>>, a: nat, n: nat)
    requires Pending(m, brk, B, fl, a) && 4 <= n && n % 2 == 0 && n + 2 <= B[a].size
    ensures a + B[a].size <= |m|
    ensures var m' := TagBlock(TagBlock(m, a, Blk(n, false)), a + n, Blk(B[a].size - n, true));
      && var B' := Carved(B, a, n, false, true);
      && Pending(m', brk, B', fl, a + n) && Keeps(m, m', Alloc(B))
      && a !in Alloc(B) && Alloc(B') == Alloc(B)[a := n]
      && (B[a].size >= n + 4 ==> m'[a + n + 1] == 0)
      && a + n in B' && B'[a + n] == Blk(B[a].size - n, true)
  {
    PendingSizes(m, brk, B, fl, a);
    PendingApart(m, brk, B, fl, a);
    hide *;
    SplitTags(m, B, a, n);
    var m' := TagBlock(TagBlock(m, a, Blk(n, false)), a + n, Blk(B[a].size - n, true));
    Split(m, m', brk, B, fl, a, n);
    FreeBlockKeeps(m, m', brk, B, a);
    CarvedAlloc(B, a, n);
    CarvedRest(B, a, n);
  }

  lemma CarvedRest(B: Blocks, a: nat, n: nat)
    requires a in B && 0 < n <= B[a].size
    ensures var B' := Carved(B, a, n, false, true); a + n in B' && B'[a + n] == Blk(B[a].size - n, true)
  {
  }

  lemma PendingApart(m: seq<nat>, brk: nat, B: Blocks, fl: seq<seq<nat>>, a: nat)
    requires Pending(m, brk, B, fl, a)
    ensures Tiled(B, brk) && a in B && B[a].free
    ensures forall x :: x in B && a < x ==> a + B[a].size <= x
  {
    BlockEnd(brk, B, a);
  }

  lemma PlaceExact(m: seq<nat>, brk: nat, B: Blocks, fl: seq<seq<nat>>, a: nat)
    requires Pending(m, brk, B, fl, a) && B[a].size >= 4
    ensures a + B[a].size <= |m|
    ensures var n := B[a].size;
      && var m' := TagBlock(m, a, Blk(n, false));
      && var B' := Fused(B, a, a + n, false);
      && HeapOK(m', brk, B', fl) && Keeps(m, m', Alloc(B))
      && a !in Alloc(B) && Alloc(B') == Alloc(B)[a := n]
  {
    hide *;
    PendingSizes(m, brk, B, fl, a);
    PendingApart(m, brk, B, fl, a);
    var e := a + B[a].size;
    FuseTags(m, B, a, e, false);
    var m' := TagBlock(m, a, Blk(e - a, false));
    TakeWhole(m, m', brk, B, fl, a);
    FreeBlockKeeps(m, m', brk, B, a);
    ExactAlloc(B, brk, a);
  }

  // ---------- free ----------

  lemma FreedAlloc(B: Blocks, a: nat, e: nat, b: nat)
    requires a in B && a <= b < e && b in B
    requires forall x :: x in B && a <= x < e && !B[x].free ==> x == b
    ensures Alloc(Fused(B, a, e, true)) == Alloc(B) - {b}
  {
    FusedBlocks(B, a, e, true);
  }

  /** [lo, hi) is the allocated block b together with its free neighbours. */
  ghost predicate Span(B: Blocks, brk: nat, b: nat, lo: nat, hi: nat)
  {
    && b in B && lo in B && lo <= b < hi && Boundary(B, brk, hi)
    && (forall x :: x in B && lo <= x < hi ==> x == lo || x == b || x == b + B[b].size)
    && (forall x :: x in B && lo <= x < hi && !B[x].free ==> x == b)
    && (hi in B ==> !B[hi].free)
    && (forall x :: x in B && x + B[x].size == lo ==> !B[x].free)
  }

  /** Block b and its free neighbours, all off the lists, become the free block [lo, hi). */
  lemma Coalesce(m: seq<nat>, m': seq<nat>, brk: nat, B: Blocks, fl: seq<seq<nat>>, det: set<nat>,
                 lo: nat, hi: nat, b: nat)
    requires Loose(m, brk, B, fl, det) && Span(B, brk, b, lo, hi) && OffLists(B, det, lo, hi)
    requires Within(m, m', lo, hi) && TagAt(m', Fused(B, lo, hi, true), lo)
    requires lo == FIRST ==> hi - lo >= 4
    ensures Pending(m', brk, Fused(B, lo, hi, true), fl, lo)
    ensures Alloc(Fused(B, lo, hi, true)) == Alloc(B) - {b}
    ensures Keeps(m, m', Alloc(B) - {b})
  {
    hide Tiled, Aligned, Tagged, NoAdjacentFree, Members, AllLinked, Fused, OffLists, TagAt, Keeps;
    FreedAlloc(B, lo, hi, b);
    WithinKeeps(m, m', brk, B, lo, hi, Alloc(B) - {b});
    FusedSeparated(B, brk, lo, hi, true);
    FusedAligned(B, brk, lo, hi, true);
    Fuse(m, m', brk, B, fl, det, lo, hi, true);
    FusedBlocks(B, lo, hi, true);
    BlocksEnd(B, brk, lo, hi);
  }

  lemma SpanSizes(m: seq<nat>, brk: nat, B: Blocks, fl: seq<seq<nat>>, det: set<nat>, b: nat, lo: nat, hi: nat)
    requires Loose(m, brk, B, fl, det) && Span(B, brk, b, lo, hi)
    ensures lo in B && lo >= FIRST && lo + 2 <= hi != lo + 3 && hi <= |m| && (hi - lo) % 2 == 0
    ensures lo == FIRST ==> hi - lo >= 4
  {
    EvenSpan(B, brk, lo, hi);
    BlocksEnd(B, brk, lo, hi);
    BlockEnd(brk, B, lo);
  }

  /** The tags of the coalesced block are written. */
  lemma Release(m: seq<nat>, brk: nat, B: Blocks, fl: seq<seq<nat>>, det: set<nat>, b: nat, lo: nat, hi: nat)
    requires Loose(m, brk, B, fl, det) && Span(B, brk, b, lo, hi) && OffLists(B, det, lo, hi)
    ensures lo > 0 && lo + 2 <= hi <= |m|
    ensures var m' := TagBlock(m, lo, Blk(hi - lo, true));
      && var B' := Fused(B, lo, hi, true);
      && Pending(m', brk, B', fl, lo)
      && Alloc(B') == Alloc(B) - {b} && Keeps(m, m', Alloc(B) - {b})
      && lo in B' && B'[lo].size == hi - lo
      && (hi - lo >= 4 ==> m'[lo + 1] == 0)
  {
    SpanSizes(m, brk, B, fl, det, b, lo, hi);
    hide *;
    FuseTags(m, B, lo, hi, true);
    FusedBlocks(B, lo, hi, true);
    Coalesce(m, TagBlock(m, lo, Blk(hi - lo, true)), brk, B, fl, det, lo, hi, b);
  }

  ghost predicate FreeBefore(B: Blocks, p: nat, b: nat)
  {
    p in B && B[p].free && p + B[p].size == b
  }

  /** The start of the free block before b, or b. */
  ghost function SpanLo(B: Blocks, b: nat): nat
  {
    if exists p: nat :: FreeBefore(B, p, b) then
      var p: nat :| FreeBefore(B, p, b); p
    else b
  }

  /** The end of the free block after block b, or of b. */
  ghost function SpanHi(B: Blocks, b: nat): nat
    requires b in B
  {
    var nx := b + B[b].size;
    if nx in B && B[nx].free then nx + B[nx].size else nx
  }

  lemma OnlyOneBefore(B: Blocks, brk: nat, p: nat, b: nat)
    requires Tiled(B, brk) && p in B && b in B && p + B[p].size == b
    ensures forall x :: x in B && x + B[x].size == b ==> x == p
    ensures SpanLo(B, b) == if B[p].free then p else b
  {
    if B[p].free { assert FreeBefore(B, p, b); }
  }

  /** What the footer before block b says; the reserved word before the first block reads as free, size 0. */
  lemma Before(m: seq<nat>, brk: nat, B: Blocks, fl: seq<seq<nat>>, det: set<nat>, b: nat)
    requires Loose(m, brk, B, fl, det) && b in B
    ensures FIRST <= b <= |m| && TagSize(m[b - 1]) <= b && TagValid(m[b - 1]) <= 1
    ensures TagValid(m[b - 1]) == 0 ==> TagSize(m[b - 1]) == b - SpanLo(B, b)
    ensures TagValid(m[b - 1]) == 1 ==> SpanLo(B, b) == b
    ensures TagValid(m[b - 1]) == 0 && TagSize(m[b - 1]) == 0 ==> b == FIRST
    ensures SpanLo(B, b) <= b
  {
    if b == FIRST {
      assert SpanLo(B, b) == b;
    } else {
      var p := PrevBlock(B, brk, FIRST, b);
      HeaderReads(B[p]);
      OnlyOneBefore(B, brk, p, b);
      assert TagAt(m, B, p);
    }
    hide Members, AllLinked, Separated, Header;
  }

  lemma SpanLoFacts(B: Blocks, brk: nat, b: nat)
    requires Tiled(B, brk) && NoAdjacentFree(B) && b in B
    ensures var lo := SpanLo(B, b);
      && lo in B && lo <= b
      && (lo != b ==> B[lo].free && B[lo].size == b - lo)
      && (forall x :: x in B && lo <= x < b ==> x == lo)
      && (!B[b].free ==> forall x :: x in B && x + B[x].size == lo ==> !B[x].free)
  {
    if exists p: nat :: FreeBefore(B, p, b) {
      var p: nat :| FreeBefore(B, p, b);
      OnlyOneBefore(B, brk, p, b);
      NothingBefore(B, brk, p, b);
    } else if !B[b].free {
      forall x | x in B && x + B[x].size == b ensures !B[x].free {
        assert !FreeBefore(B, x, b);
      }
    }
  }

  /** What the header after block b says. */
  lemma After(m: seq<nat>, brk: nat, B: Blocks, fl: seq<seq<nat>>, det: set<nat>, b: nat)
    requires Loose(m, brk, B, fl, det) && b in B
    ensures var nx := b + B[b].size;
      && nx <= brk <= |m| && (nx < brk <==> nx in B)
      && (nx in B ==> 0 < nx && nx < |m| && TagSize(m[nx]) == B[nx].size && nx + B[nx].size <= |m|
                      && TagValid(m[nx]) == if B[nx].free then 0 else 1)
  {
    var nx := b + B[b].size;
    BlockEnd(brk, B, b);
    if nx in B {
      assert TagAt(m, B, nx);
      HeaderReads(B[nx]);
    }
    hide Members, AllLinked, Header;
  }

  lemma SpanHiFacts(B: Blocks, brk: nat, b: nat)
    requires Tiled(B, brk) && NoAdjacentFree(B) && b in B
    ensures var hi := SpanHi(B, b);
      && b < hi && Boundary(B, brk, hi)
      && (forall x :: x in B && b <= x < hi ==> x == b || x == b + B[b].size)
      && (forall x :: x in B && b < x < hi ==> B[x].free)
      && (hi in B ==> !B[hi].free)
  {
    var nx := b + B[b].size;
    BlockEnd(brk, B, b);
    if nx in B {
      assert Separated(B, nx);
      BlockEnd(brk, B, nx);
    }
  }

  /** free's span, and the neighbours it takes off the lists. */
  lemma Around(B: Blocks, brk: nat, b: nat, det: set<nat>)
    requires Tiled(B, brk) && NoAdjacentFree(B) && b in B && !B[b].free
    requires SpanLo(B, b) != b ==> SpanLo(B, b) in det
    requires SpanHi(B, b) != b + B[b].size ==> b + B[b].size in det
    requires forall x :: x in det ==> SpanLo(B, b) <= x < SpanHi(B, b)
    ensures Span(B, brk, b, SpanLo(B, b), SpanHi(B, b))
    ensures OffLists(B, det, SpanLo(B, b), SpanHi(B, b))
  {
    SpanLoFacts(B, brk, b);
    SpanHiFacts(B, brk, b);
    var nx := b + B[b].size;
    assert nx in B && nx < SpanHi(B, b) ==> nx in det;
    hide Tiled, NoAdjacentFree, SpanLo, SpanHi;
  }

  lemma NothingBefore(B: Blocks, brk: nat, p: nat, b: nat)
    requires Tiled(B, brk) && NoAdjacentFree(B) && p in B && b in B && p + B[p].size == b
    ensures B[p].free ==> forall x :: x in B && x + B[x].size == p ==> !B[x].free
  {
    forall x | x in B && x + B[x].size == p && B[p].free ensures !B[x].free {
      assert Separated(B, x);
    }
  }

  /** A small block counts as off the lists whether it is named or not. */
  lemma SmallIsLoose(m: seq<nat>, brk: nat, B: Blocks, fl: seq<seq<nat>>, det: set<nat>, x: nat)
    requires Loose(m, brk, B, fl, det) && x in B && B[x].size < 4
    ensures Loose(m, brk, B, fl, det + {x})
  {
    forall j: nat, y: nat | j < LISTS ensures y in fl[j] <==> Listed(B, det + {x}, y, j) {
      assert y in fl[j] <==> Listed(B, det, y, j);
    }
    forall y | Listable(B, det + {x}, y) ensures GetIndex(B[y].size) < LISTS {
      assert Listable(B, det, y);
    }
  }
}
