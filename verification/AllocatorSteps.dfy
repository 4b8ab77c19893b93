/**
 * What the steps of the allocator mean: the search of malloc, what free reads of the neighbours,
 * the slabs and their first free slots, and the contents that realloc moves.
 */
module AllocatorSteps {
  import opened Bits
  import opened HeapBlocks
  import opened HeapSteps
  import opened Slabs
  import opened SlabSteps
  import opened ReallocSteps
  import opened Contents

  /** align(size) + ALIGNMENT, in words. */
  function BlockWords(size: nat): nat
  {
    2 * ((size + 15) / 16) + 2
  }

  lemma BlockWordsRange(size: nat)
    ensures BlockWords(size) >= (if size == 0 then 2 else 4) && BlockWords(size) % 2 == 0
    ensures 8 * (BlockWords(size) - 2) >= size > 8 * (BlockWords(size) - 4)
  {
  }

  /** n words from lo on are free. */
  ghost predicate Gap(A: map<nat, nat>, brk: nat, lo: nat, n: nat)
  {
    FIRST <= lo && lo + n <= brk && forall a :: a in A ==> a + A[a] <= lo || lo + n <= a
  }

  /** A block of n words can be had: so many words in a row are free, or the break can rise. A block
      without payload, for malloc( 0 ), is always new. */
  ghost predicate Fits(A: map<nat, nat>, brk: nat, n: nat, limit: nat)
  {
    brk + n <= limit || (n >= 4 && exists lo :: Gap(A, brk, lo, n))
  }

  /** Free words in a row belong to one free block, because free blocks are never adjacent. */
  lemma GapIsFree(m: seq<nat>, brk: nat, B: Blocks, fl: seq<seq<nat>>, lo: nat, n: nat) returns (x: nat)
    requires HeapOK(m, brk, B, fl) && Gap(Alloc(B), brk, lo, n) && n >= 1
    ensures x in B && B[x].free && B[x].size >= n
  {
    hide Tagged, ListsOK, Aligned, Gap;
    assert FIRST <= lo < brk by { hide Tiled, NoAdjacentFree, Alloc; GapInside(Alloc(B), brk, lo, n); }
    x := BlockOf(B, brk, FIRST, lo);
    GapBlock(B, brk, lo, n, x);
    var e := x + B[x].size;
    assert Followed(B, brk, x) && Separated(B, x);
    if e < lo + n {
      assert e in B by { GapInside(Alloc(B), brk, lo, n); }
      GapBlock(B, brk, lo, n, e);
    }
  }

  lemma GapInside(A: map<nat, nat>, brk: nat, lo: nat, n: nat)
    requires Gap(A, brk, lo, n)
    ensures FIRST <= lo && lo + n <= brk
  {
  }

  /** A block that starts before the end of the gap and ends behind its start is free. */
  lemma GapBlock(B: Blocks, brk: nat, lo: nat, n: nat, x: nat)
    requires Gap(Alloc(B), brk, lo, n) && x in B && x < lo + n && lo < x + B[x].size
    ensures B[x].free
  {
    assert x in Alloc(B) <==> !B[x].free;
  }

  /** A free block of n words was taken, the smallest that fits; memory grows only if none fits. */
  ghost predicate FitFrom(brk: nat, B: Blocks, brk': nat, a: nat, n: nat)
  {
    if brk' == brk then
      a in B && B[a].free && B[a].size >= n &&
      forall x :: x in B && B[x].free && B[x].size >= n ==> B[a].size <= B[x].size
    else
      a == brk && brk' == brk + n &&
      (n >= 4 ==> forall x :: x in B && B[x].free ==> B[x].size < n)
  }

  /** malloc returned ptr: a new allocated block of n words, all others as they were. */
  ghost predicate Malloced(m: seq<nat>, brk: nat, B: Blocks, m': seq<nat>, brk': nat, B': Blocks,
                           ptr: nat, n: nat)
  {
    && 1 <= ptr && ptr - 1 !in Alloc(B) && Alloc(B') == Alloc(B)[ptr - 1 := n]
    && Keeps(m, m', Alloc(B))
    && FitFrom(brk, B, brk', ptr - 1, n)
  }

  /** No block on the first i lists is large enough. */
  ghost predicate NoFit(B: Blocks, i: nat, n: nat)
  {
    forall x :: x in B && B[x].free && B[x].size >= n && B[x].size >= 4 ==> GetIndex(B[x].size) >= i
  }

  lemma LengthAtMost(m: seq<nat>, brk: nat, B: Blocks, fl: seq<seq<nat>>)
    requires HeapOK(m, brk, B, fl)
    ensures 0 < brk <= |m| <= MAX_WORDS && |fl| == LISTS
    ensures forall x :: x in B ==> B[x].size <= MAX_WORDS
  {
  }

  lemma NoFitBelow(m: seq<nat>, brk: nat, B: Blocks, fl: seq<seq<nat>>, n: nat)
    requires HeapOK(m, brk, B, fl) && 4 <= n <= MAX_WORDS
    ensures |fl| == LISTS && NoFit(B, GetIndex(n), n)
  {
    LengthAtMost(m, brk, B, fl);
    hide GetIndex, HeapOK;
    forall x | x in B && B[x].free && B[x].size >= n ensures GetIndex(B[x].size) >= GetIndex(n) {
      if GetIndex(B[x].size) < GetIndex(n) { LaterListLarger(B[x].size, n); }
    }
  }

  /** Where the search of malloc starts. For a block without payload the index wraps around to 255,
      past all lists. */
  lemma StartAtIndex(m: seq<nat>, brk: nat, B: Blocks, fl: seq<seq<nat>>, n: nat)
    requires HeapOK(m, brk, B, fl) && Fits(Alloc(B), brk, n, |m|) && 2 <= n && n % 2 == 0
    ensures |fl| == LISTS && if n < 4 then GetIndex(n) >= LISTS else GetIndex(n) < LISTS && NoFit(B, GetIndex(n), n)
  {
    LengthAtMost(m, brk, B, fl);
    if n < 4 {
      IndexOfNothing();
    } else {
      hide GetIndex;
      GetIndexClass(n);
      NoFitBelow(m, brk, B, fl, n);
    }
  }

  lemma IndexOfNothing()
    ensures GetIndex(2) == 255
  {
    assert FloorLog2(15) == 1 + FloorLog2(7) == 2 + FloorLog2(3) == 3;
  }

  /** What the search of list i says about the whole heap. */
  lemma NextList(m: seq<nat>, brk: nat, B: Blocks, fl: seq<seq<nat>>, i: nat, n: nat, best: nat)
    requires HeapOK(m, brk, B, fl) && 4 <= n && i < LISTS && NoFit(B, i, n)
    requires BestOf(B, fl[i], n, best)
    ensures best == 0 ==> NoFit(B, i + 1, n)
    ensures best != 0 ==> GetIndex(B[best].size) == i && FitFrom(brk, B, brk, best, n)
  {
    hide GetIndex;
    forall x | x in B && B[x].free && B[x].size >= n && GetIndex(B[x].size) == i ensures x in fl[i] {
      assert Listed(B, {}, x, i);
    }
    if best != 0 {
      assert Listed(B, {}, best, i);
      forall x | x in B && B[x].free && B[x].size >= n ensures B[best].size <= B[x].size {
        if GetIndex(B[x].size) == i {
          assert x in fl[i];
        } else {
          LengthAtMost(m, brk, B, fl);
          LaterListLarger(B[best].size, B[x].size);
        }
      }
    }
  }

  lemma KeepsSame(m: seq<nat>, A: map<nat, nat>)
    ensures Keeps(m, m, A)
  {
  }

  lemma NotAllocated(B: Blocks, b: nat)
    requires b in B && B[b].free
    ensures Alloc(B) == Alloc(B) - {b}
  {
  }

  /** What getBlockInfo reads at the header of a block. */
  lemma ReadBlock(m: seq<nat>, brk: nat, B: Blocks, fl: seq<seq<nat>>, b: nat)
    requires HeapOK(m, brk, B, fl) && b in B
    ensures 0 < b < |m| && TagSize(m[b]) == B[b].size && b + B[b].size <= |m|
    ensures TagValid(m[b]) == if B[b].free then 0 else 1
  {
    HeaderReads(B[b]);
    hide Members, AllLinked, TagSize, TagValid, Header;
  }

  /** What free knows of the block before b: nothing but that it is not free when isPreValid is 1. */
  ghost predicate PrevRead(m: seq<nat>, B: Blocks, b: nat,
                           isPreValid: nat, preSize: nat, prePred: nat, preSucc: nat)
  {
    && isPreValid <= 1 && preSize <= b
    && (isPreValid == 1 ==> SpanLo(B, b) == b)
    && (isPreValid == 0 ==> b - preSize == SpanLo(B, b))
    && (isPreValid == 0 && preSize == 0 ==> b == FIRST)
    && (isPreValid == 0 && preSize > 2 ==>
          var lo := b - preSize;
          lo + 2 < |m| && prePred == m[lo + 1] && preSucc == m[lo + 2])
  }

  /** What free knows of the block after b. */
  ghost predicate NextRead(m: seq<nat>, B: Blocks, b: nat,
                           isPostValid: nat, postSize: nat, postPred: nat, postSucc: nat)
    requires b in B
  {
    var nx := b + B[b].size;
    && isPostValid <= 1
    && (isPostValid == 0 <==> nx in B && B[nx].free)
    && (isPostValid == 0 ==> B[nx].size == postSize)
    && (isPostValid == 0 && postSize > 2 ==>
          nx + 2 < |m| && postPred == m[nx + 1] && postSucc == m[nx + 2])
  }

  /** The span to be freed, in terms of what was read. */
  lemma SpanFacts(m: seq<nat>, brk: nat, B: Blocks, fl: seq<seq<nat>>, b: nat,
                  isPreValid: nat, preSize: nat, prePred: nat, preSucc: nat,
                  isPostValid: nat, postSize: nat, postPred: nat, postSucc: nat)
    requires Loose(m, brk, B, fl, {}) && b in B && !B[b].free
    requires PrevRead(m, B, b, isPreValid, preSize, prePred, preSucc)
    requires NextRead(m, B, b, isPostValid, postSize, postPred, postSucc)
    ensures isPostValid <= 1
    ensures isPreValid == 0 ==>
      preSize <= b && SpanLo(B, b) == b - preSize && (preSize == 0 ==> b == FIRST)
    ensures isPreValid == 0 && preSize > 0 ==>
      b - preSize in B && B[b - preSize].free && B[b - preSize].size == preSize
    ensures isPreValid == 1 ==> SpanLo(B, b) == b
    ensures var nx := b + B[b].size;
      && (isPostValid == 0 ==>
            && nx in B && B[nx].free && B[nx].size == postSize >= 2 && SpanHi(B, b) == nx + postSize
            && (postSize > 2 ==> nx + 2 < |m| && postPred == m[nx + 1] && postSucc == m[nx + 2]))
      && (isPostValid == 1 ==> SpanHi(B, b) == nx)
    ensures isPreValid == 0 || isPostValid == 0 ==> SpanHi(B, b) - SpanLo(B, b) >= 4
    ensures SpanLo(B, b) <= b < b + B[b].size <= SpanHi(B, b)
  {
    SpanLoFacts(B, brk, b);
    SpanHiFacts(B, brk, b);
  }

  lemma PrevIsBit(m: seq<nat>, B: Blocks, b: nat, isPreValid: nat, preSize: nat, prePred: nat, preSucc: nat)
    requires PrevRead(m, B, b, isPreValid, preSize, prePred, preSucc)
    ensures isPreValid <= 1
    ensures isPreValid == 1 ==> PrevRead(m, B, b, 1, 0, 0, 0)
  {
  }

  lemma SamePrev(m: seq<nat>, B: Blocks, b: nat, preSize: nat,
                 isPreValid: nat, preSize': nat, prePred: nat, preSucc: nat)
    requires PrevRead(m, B, b, isPreValid, preSize', prePred, preSucc)
    requires preSize <= b && SpanLo(B, b) == b - preSize && (preSize == 0 ==> b == FIRST)
    ensures PrevRead(m, B, b, 0, preSize, prePred, preSucc)
  {
  }

  lemma PrevLinks(m: seq<nat>, B: Blocks, b: nat, preSize: nat, prePred: nat, preSucc: nat)
    requires PrevRead(m, B, b, 0, preSize, prePred, preSucc)
    ensures preSize <= b
    ensures preSize > 2 ==>
      var lo := b - preSize; lo + 2 < |m| && prePred == m[lo + 1] && preSucc == m[lo + 2]
  {
  }

  lemma LooseAround(m: seq<nat>, brk: nat, B: Blocks, fl: seq<seq<nat>>, b: nat, det: set<nat>)
    requires Loose(m, brk, B, fl, det) && b in B && !B[b].free
    requires SpanLo(B, b) != b ==> SpanLo(B, b) in det
    requires SpanHi(B, b) != b + B[b].size ==> b + B[b].size in det
    requires forall x :: x in det ==> SpanLo(B, b) <= x < SpanHi(B, b)
    ensures Span(B, brk, b, SpanLo(B, b), SpanHi(B, b))
    ensures OffLists(B, det, SpanLo(B, b), SpanHi(B, b))
  {
    Around(B, brk, b, det);
  }

  lemma InsideHeap(m: seq<nat>, brk: nat, B: Blocks, fl: seq<seq<nat>>, det: set<nat>, b: nat)
    requires Loose(m, brk, B, fl, det) && b in B
    ensures b >= FIRST && brk <= |m| && b < brk
    ensures b + B[b].size < brk ==> b + B[b].size + 1 < brk
    ensures b + B[b].size in B ==> B[b + B[b].size].size >= 2
  {
    BlockEnd(brk, B, b);
  }

  lemma LooseSizes(m: seq<nat>, brk: nat, B: Blocks, fl: seq<seq<nat>>, det: set<nat>, x: nat)
    requires Loose(m, brk, B, fl, det) && x in B
    ensures 2 <= B[x].size != 3
  {
  }

  lemma IsListable(B: Blocks, det: set<nat>, x: nat)
    requires x in B && B[x].free && B[x].size >= 4 && x !in det
    ensures Listable(B, det, x)
  {
  }

  lemma LinksFacts(m: seq<nat>, B: Blocks, a: nat, size: nat, pred: nat, succ: nat)
    requires Links(m, B, a, size, pred, succ)
    ensures a in B && B[a].size == size
  {
  }

  lemma FoundIsMalloced(m: seq<nat>, brk: nat, B: Blocks, m': seq<nat>, B': Blocks, a: nat, n: nat)
    requires FitFrom(brk, B, brk, a, n)
    requires a !in Alloc(B) && Alloc(B') == Alloc(B)[a := n] && Keeps(m, m', Alloc(B))
    ensures Malloced(m, brk, B, m', brk, B', a + 1, n)
  {
  }

  lemma NothingFits(m: seq<nat>, brk: nat, B: Blocks, fl: seq<seq<nat>>, n: nat)
    requires HeapOK(m, brk, B, fl) && (n >= 4 ==> NoFit(B, LISTS, n)) && n >= 2 && Fits(Alloc(B), brk, n, |m|)
    ensures brk + n <= |m|
    ensures forall m' :: Keeps(m, m', Alloc(B)) ==>
      Malloced(m, brk, B, m', brk + n, B[brk := Blk(n, false)], brk + 1, n)
  {
    hide *;
    if n >= 4 { NoFreeFits(m, brk, B, fl, n); }
    BrkBounds(m, brk, B, fl);
    RoomLeft(m, brk, B, fl, n, |m|);
    GrownAlloc(brk, B, n);
    forall m' | Keeps(m, m', Alloc(B)) ensures Malloced(m, brk, B, m', brk + n, B[brk := Blk(n, false)], brk + 1, n) {
      GrownIsMalloced(m, brk, B, m', n);
    }
  }

  lemma NoFreeFits(m: seq<nat>, brk: nat, B: Blocks, fl: seq<seq<nat>>, n: nat)
    requires HeapOK(m, brk, B, fl) && n >= 4 && NoFit(B, LISTS, n)
    ensures forall x :: x in B && B[x].free ==> B[x].size < n
  {
    hide GetIndex, Tagged, AllLinked, Tiled, Aligned, NoAdjacentFree;
    forall x | x in B && B[x].free ensures B[x].size < n {
      assert B[x].size >= n ==> Listable(B, {}, x);
    }
  }

  lemma RoomLeft(m: seq<nat>, brk: nat, B: Blocks, fl: seq<seq<nat>>, n: nat, limit: nat)
    requires HeapOK(m, brk, B, fl) && Fits(Alloc(B), brk, n, limit)
    requires n >= 4 ==> forall x :: x in B && B[x].free ==> B[x].size < n
    ensures brk + n <= limit
  {
    hide HeapOK, Gap, Alloc;
    if brk + n > limit {
      var lo :| Gap(Alloc(B), brk, lo, n);
      var x := GapIsFree(m, brk, B, fl, lo, n);
    }
  }

  lemma GrownAlloc(brk: nat, B: Blocks, n: nat)
    requires brk !in B
    ensures brk !in Alloc(B) && Alloc(B[brk := Blk(n, false)]) == Alloc(B)[brk := n]
  {
  }

  lemma GrownIsMalloced(m: seq<nat>, brk: nat, B: Blocks, m': seq<nat>, n: nat)
    requires Keeps(m, m', Alloc(B)) && brk !in Alloc(B) && Alloc(B[brk := Blk(n, false)]) == Alloc(B)[brk := n]
    requires n >= 2
    requires n >= 4 ==> forall x :: x in B && B[x].free ==> B[x].size < n
    ensures Malloced(m, brk, B, m', brk + n, B[brk := Blk(n, false)], brk + 1, n)
  {
    hide Keeps, Alloc;
  }

  lemma TakeLinks(m: seq<nat>, brk: nat, B: Blocks, fl: seq<seq<nat>>,
                  a: nat, size: nat, pred: nat, succ: nat)
    requires HeapOK(m, brk, B, fl) && Links(m, B, a, size, pred, succ)
    ensures var i := GetIndex(size);
      && |fl| == LISTS && i < LISTS && a in fl[i] && i < |m|
      && a != 0 && a in B && B[a].size == size
      && pred != 1 && pred + 2 < |m| && succ + 2 < |m|
      && var m' := ListDelete(m, pred, succ, i);
      && Pending(m', brk, B, fl[i := Without(fl[i], a)], a) && Keeps(m, m', Alloc(B))
  {
    LooseIsOK(m, brk, B, fl);
    Take(m, brk, B, fl, {}, a);
    assert {} + {a} == {a};
  }

  /** The locals of the search: difference, best, bestSize, bestPred, bestSucc. */
  datatype Choice = Choice(difference: nat, best: nat, bestSize: nat, bestPred: nat, bestSucc: nat)

  const Nothing := Choice(MAX_WORDS, 0, 0, 0, 0)

  /** The free block a has this size and these links. */
  ghost predicate Links(m: seq<nat>, B: Blocks, a: nat, size: nat, pred: nat, succ: nat)
  {
    && Listable(B, {}, a) && B[a].size == size <= MAX_WORDS
    && a + 2 < |m| && pred == m[a + 1] && succ == m[a + 2]
  }

  /** best is the smallest block of at least n words in s; 0 if there is none. */
  ghost predicate BestOf(B: Blocks, s: seq<nat>, n: nat, best: nat)
  {
    && (forall j :: 0 <= j < |s| ==> Listable(B, {}, s[j]) && s[j] != 0)
    && if best == 0 then forall j :: 0 <= j < |s| ==> B[s[j]].size < n
       else
         && best in s && B[best].size >= n
         && forall j :: 0 <= j < |s| && B[s[j]].size >= n ==> B[best].size <= B[s[j]].size
  }

  /** The state of the search after k blocks of the list s. */
  ghost predicate Search(m: seq<nat>, B: Blocks, s: seq<nat>, k: nat, n: nat, c: Choice)
    requires k <= |s|
  {
    && (forall j :: 0 <= j < |s| ==> Listable(B, {}, s[j]) && s[j] != 0)
    && BestOf(B, s[..k], n, c.best)
    && if c.best == 0 then c == Nothing
       else
         && c.bestSize >= n && c.difference == c.bestSize - n
         && Links(m, B, c.best, c.bestSize, c.bestPred, c.bestSucc)
  }

  lemma SearchStep(m: seq<nat>, B: Blocks, s: seq<nat>, k: nat, n: nat, c: Choice, pred: nat, succ: nat)
    requires k < |s| && 4 <= n && Search(m, B, s, k, n, c)
    requires s[k] in B && Links(m, B, s[k], B[s[k]].size, pred, succ)
    ensures var size := B[s[k]].size;
      Search(m, B, s, k + 1, n,
             if size >= n && size - n < c.difference then Choice(size - n, s[k], size, pred, succ) else c)
  {
    assert forall j :: 0 <= j < k ==> s[..k][j] == s[j];
  }

  /** The search may stop at the end of the list, or at a block of exactly n words. */
  lemma SearchDone(m: seq<nat>, B: Blocks, s: seq<nat>, k: nat, n: nat, c: Choice)
    requires k <= |s| && (At(s, k) == 0 || c.difference == 0)
    requires Search(m, B, s, k, n, c)
    ensures BestOf(B, s, n, c.best)
    ensures c.best != 0 ==>
      && Links(m, B, c.best, c.bestSize, c.bestPred, c.bestSucc)
      && n <= c.bestSize && c.difference == c.bestSize - n
  {
    if k == |s| {
      assert s[..k] == s;
    } else {
      assert c.best in s;
    }
  }

  // ---------- first free slots ----------

  /** Every slot of slab t below n is handed out. */
  ghost predicate FullBefore(m: seq<nat>, t: nat, n: nat)
  {
    forall j: nat :: j < n ==> LiveSlot(m, t, j)
  }

  ghost predicate SlabFull(m: seq<nat>, t: nat)
  {
    FullBefore(m, t, 64 * Maps(t))
  }

  ghost predicate FirstFree(m: seq<nat>, t: nat, k: nat)
  {
    k < 64 * Maps(t) && !LiveSlot(m, t, k) && FullBefore(m, t, k)
  }

  /** findFirst0: the position of the highest one, found in 32-bit halves. */
  function FindFirst0(num: nat): nat
  {
    if num / 0x1_0000_0000 != 0 then FloorLog2(num / 0x1_0000_0000) + 32
    else FloorLog2(num % 0x1_0000_0000)
  }

  lemma FindFirst0IsLog(num: nat)
    ensures FindFirst0(num) == FloorLog2(num)
  {
    if num >= 0x1_0000_0000 {
      Pow2Values();
      FloorLog2HighPart(num, 32);
    }
  }

  lemma NothingBefore0(m: seq<nat>, t: nat)
    ensures FullBefore(m, t, 0)
  {
  }

  lemma FullMap(m: seq<nat>, A: map<nat, nat>, t: nat, j: nat)
    requires SlabsOK(m, A) && t < SLABS && Table(m, t) != 0 && j < Maps(t)
    requires Table(m, t) + j < |m| && m[Table(m, t) + j] == FULL && FullBefore(m, t, 64 * j)
    ensures FullBefore(m, t, 64 * (j + 1))
  {
    assert FIRST <= |m|;
    hide SlabsOK, Table, Bit, Pow2, LiveSlot, Maps;
    FullIsAllOnes();
    forall k: nat | 64 * j <= k < 64 * (j + 1) ensures LiveSlot(m, t, k) {
      SlotPlaceInMap(j, k - 64 * j);
      SlotBit(m, A, t, k);
      AllOnes(64, 63 - k % 64);
    }
  }

  /** The highest clear bit of the first map that is not full is the first free slot. */
  lemma FreeBitIsFirst(m: seq<nat>, A: map<nat, nat>, t: nat, j: nat, first0: nat) returns (k: nat)
    requires SlabsOK(m, A) && t < SLABS && Table(m, t) != 0 && j < Maps(t)
    requires Table(m, t) + j < |m| && m[Table(m, t) + j] < FULL && FullBefore(m, t, 64 * j)
    requires first0 == FindFirst0(FULL - m[Table(m, t) + j])
    ensures first0 < 64 && k == 64 * j + (63 - first0) && FirstFree(m, t, k)
    ensures k / 64 == j && 63 - k % 64 == first0 && k < 64 * Maps(t) && !LiveSlot(m, t, k)
  {
    assert FIRST <= |m|;
    hide *;
    HighestClear(m[Table(m, t) + j], first0);
    k := 64 * j + (63 - first0);
    SlotPlaceInMap(j, 63 - first0);
    SlotBit(m, A, t, k);
    forall i: nat | 64 * j <= i < k ensures LiveSlot(m, t, i) {
      SlotPlaceInMap(j, i - 64 * j);
      SlotBit(m, A, t, i);
    }
    FreeAfterFull(m, t, j, k);
  }

  /** The bit that the search finds in a map. */
  lemma HighestClear(w: nat, first0: nat)
    requires w < FULL && first0 == FindFirst0(FULL - w)
    ensures first0 < 64 && !Bit(w, first0) && forall i :: first0 < i < 64 ==> Bit(w, i)
  {
    hide Bit, Pow2, FloorLog2, FindFirst0;
    FullIsAllOnes();
    FindFirst0IsLog(FULL - w);
    HighestClearBit(w, 64);
  }

  lemma FreeAfterFull(m: seq<nat>, t: nat, j: nat, k: nat)
    requires FullBefore(m, t, 64 * j) && 64 * j <= k < 64 * Maps(t) && !LiveSlot(m, t, k)
    requires forall i: nat :: 64 * j <= i < k ==> LiveSlot(m, t, i)
    ensures FirstFree(m, t, k)
  {
    hide LiveSlot;
  }

  lemma SlotPlaceInMap(j: nat, r: nat)
    requires r < 64
    ensures (64 * j + r) / 64 == j && (64 * j + r) % 64 == r
  {
    var k := 64 * j + r;
    OneQuotient(k / 64, k % 64, j, r);
  }

  // ---------- new slabs ----------

  /** The request made for a slab yields a block of exactly its backing size. */
  lemma BackingBytes(t: nat)
    ensures BlockWords(8 * (SlotOffset(t, 64 * Maps(t)) + Maps(t))) == BackingSize(t) >= 4
    ensures 1 <= 8 * (SlotOffset(t, 64 * Maps(t)) + Maps(t))
    ensures BackingSize(t) >= Maps(t) + 4
  {
  }

  lemma MallocedMeans(m: seq<nat>, brk: nat, B: Blocks, m': seq<nat>, brk': nat, B': Blocks, ptr: nat, n: nat)
    requires Malloced(m, brk, B, m', brk', B', ptr, n)
    ensures 1 <= ptr && ptr - 1 !in Alloc(B) && Alloc(B') == Alloc(B)[ptr - 1 := n]
    ensures Keeps(m, m', Alloc(B)) && |m'| == |m|
    ensures ptr - 1 in Alloc(B') && Alloc(B')[ptr - 1] == n
  {
  }

  lemma BackingInside(m: seq<nat>, brk: nat, B: Blocks, fl: seq<seq<nat>>, live: map<nat, nat>, t: nat, s: nat)
    requires AllocatorOK(m, brk, B, fl, live) && ClientBlock(m, Alloc(B), s)
    requires Alloc(B)[s - 1] == BackingSize(t)
    ensures FIRST < s && s + Maps(t) < |m|
  {
    HeapApart(m, brk, B, fl);
    BackingBytes(t);
  }

  ghost predicate MadeUpTo(m: seq<nat>, m': seq<nat>, t: nat, s: nat, n: nat)
    requires t < SLABS && FIRST <= |m|
  {
    && |m'| == |m| && FIRST <= s && s < |m|
    && m'[SLABS16 + t] == s
    && m'[s] == Pow2(63)
    && (forall w :: s < w < s + n && w < |m| ==> m'[w] == 0)
    && (forall w :: 0 <= w < |m| && w != SLABS16 + t && !(s <= w < s + n) ==> m'[w] == m[w])
  }

  lemma MadeAll(m: seq<nat>, m': seq<nat>, t: nat, s: nat)
    requires t < SLABS && FIRST <= |m| && MadeUpTo(m, m', t, s, Maps(t)) && s + Maps(t) <= |m|
    ensures Made(m, m', t, s)
  {
    hide Pow2;
  }

  lemma KeptTables2(m: seq<nat>, m': seq<nat>, A: map<nat, nat>)
    requires FIRST <= |m| == |m'| && Keeps(m, m', A)
    ensures forall t :: 0 <= t < SLABS ==> Table(m', t) == Table(m, t)
  {
  }

  lemma LiveKeptTransitive(m: seq<nat>, m': seq<nat>, m'': seq<nat>, live: map<nat, nat>)
    requires LiveKept(m, m', live) && LiveKept(m', m'', live)
    ensures LiveKept(m, m'', live)
  {
    forall p, w | p in live && p <= w < p + live[p] && w < |m| ensures m''[w] == m[w] {
      assert m'[w] == m[w];
    }
  }

  // ---------- all slabs of one kind ----------

  /** More than any slab's backing block needs. */
  const MAX_BACKING := 8226   // the largest backing block

  lemma BackingAtMost(t: nat)
    requires t < SLABS
    ensures BackingSize(t) <= MAX_BACKING
  {
  }

  predicate OfKind(t: nat, size: nat)
  {
    t < SLABS && SlotWords(t) == size
  }

  /** Every slab there is for slots of this size is full. */
  ghost predicate AllFull(m: seq<nat>, size: nat)
    requires FIRST <= |m|
  {
    forall t: nat {:trigger SlabFull(m, t)} :: OfKind(t, size) && Table(m, t) != 0 ==> SlabFull(m, t)
  }

  ghost predicate AllPresent(m: seq<nat>, size: nat)
    requires FIRST <= |m|
  {
    forall t: nat {:trigger OfKind(t, size)} :: OfKind(t, size) ==> Table(m, t) != 0
  }

  /** slabAdd took ptr from a slab: the first free slot of the highest slab that has one. */
  ghost predicate SlotTaken(m: seq<nat>, size: nat, ptr: nat)
    requires FIRST <= |m|
  {
    exists t: nat, k: nat {:trigger FirstFree(m, t, k)} :: TakenAt(m, size, ptr, t, k) && FirstFree(m, t, k)
  }

  ghost predicate TakenAt(m: seq<nat>, size: nat, ptr: nat, t: nat, k: nat)
    requires FIRST <= |m|
  {
    && OfKind(t, size) && Table(m, t) != 0 && ptr == SlotPtr(m, t, k)
    && forall u: nat {:trigger SlabFull(m, u)} :: u > t && OfKind(u, size) && Table(m, u) != 0 ==> SlabFull(m, u)
  }

  /** slabAdd made a slab: the lowest one that was missing, in a best-fitting block; ptr is its first slot. */
  ghost predicate SlabTaken(m: seq<nat>, brk: nat, B: Blocks, m': seq<nat>, brk': nat, size: nat, ptr: nat)
    requires FIRST <= |m| == |m'|
  {
    exists t: nat {:trigger MissingFirst(m, size, t)} ::
      && MissingFirst(m, size, t) && Table(m', t) != 0 && ptr == SlotPtr(m', t, 0)
      && FitFrom(brk, B, brk', Table(m', t) - 1, BackingSize(t))
  }

  ghost predicate MissingFirst(m: seq<nat>, size: nat, t: nat)
    requires FIRST <= |m|
  {
    && OfKind(t, size) && Table(m, t) == 0
    && forall u: nat {:trigger OfKind(u, size)} :: u < t && OfKind(u, size) ==> Table(m, u) != 0
  }

  /** What slabAdd hands out: a slot of an existing slab if any has one free, else of a new slab. */
  ghost predicate Served(m: seq<nat>, brk: nat, B: Blocks, m': seq<nat>, brk': nat, size: nat, ptr: nat)
    requires FIRST <= |m| == |m'|
  {
    if AllFull(m, size) then SlabTaken(m, brk, B, m', brk', size, ptr) else brk' == brk && SlotTaken(m, size, ptr)
  }

  lemma TakenIsServed(m: seq<nat>, brk: nat, B: Blocks, m': seq<nat>, size: nat, ptr: nat, t: nat, k: nat)
    requires FIRST <= |m| == |m'| && TakenAt(m, size, ptr, t, k) && FirstFree(m, t, k)
    ensures Served(m, brk, B, m', brk, size, ptr)
  {
    hide LiveSlot, Table, SlotPtr;
    assert !SlabFull(m, t) by {
      assert k < 64 * Maps(t) && !LiveSlot(m, t, k);
    }
  }

  lemma MadeIsServed(m: seq<nat>, brk: nat, B: Blocks, m': seq<nat>, brk': nat, size: nat, ptr: nat, t: nat)
    requires FIRST <= |m| == |m'| && AllFull(m, size) && MissingFirst(m, size, t)
    requires Table(m', t) != 0 && ptr == SlotPtr(m', t, 0)
    requires FitFrom(brk, B, brk', Table(m', t) - 1, BackingSize(t))
    ensures Served(m, brk, B, m', brk', size, ptr)
  {
    hide AllFull, SlotPtr, Table, FitFrom;
  }

  lemma MadeTable(m: seq<nat>, m': seq<nat>, t: nat, s: nat)
    requires t < SLABS && FIRST <= |m| && Made(m, m', t, s)
    ensures FIRST <= |m'| && Table(m', t) == s != 0 && SlotPtr(m', t, 0) == s + Maps(t)
  {
  }

  lemma TablesInRange(m: seq<nat>, brk: nat, B: Blocks, fl: seq<seq<nat>>, live: map<nat, nat>)
    requires AllocatorOK(m, brk, B, fl, live)
    ensures FIRST <= |m|
  {
  }

  // ---------- slabDelete ----------

  /** mapIndex: the bitmap of the slot at this offset. */
  function MapIndex(t: nat, offset: int): nat
    requires offset >= 0
  {
    if t < 10 then offset / 128 else offset / 256
  }

  /** The position of the slot at this offset within its bitmap. */
  function SlotInMap(t: nat, offset: int): nat
    requires offset >= 0
  {
    if t < 10 then (offset - MapIndex(t, offset) * 128) / 2 else (offset - MapIndex(t, offset) * 256) / 4
  }

  /** slabDelete's address arithmetic inverts slabAdd's. */
  lemma AddressInverse(t: nat, k: nat)
    ensures MapIndex(t, SlotOffset(t, k)) == k / 64 && SlotInMap(t, SlotOffset(t, k)) == k % 64
  {
  }

  lemma DeleteStart(m: seq<nat>, brk: nat, B: Blocks, fl: seq<seq<nat>>, live: map<nat, nat>,
                    t: nat, k: nat, addr: nat)
    requires AllocatorOK(m, brk, B, fl, live) && SlotAt(m, t, k, addr)
    ensures t < SLABS && FIRST <= |m| && k < 64 * Maps(t) && Table(m, t) != 0 && LiveSlot(m, t, k)
    ensures addr == SlotPtr(m, t, k) == Table(m, t) + Maps(t) + SlotOffset(t, k)
    ensures 0 <= SLABS16 + t < |m| && m[SLABS16 + t] == Table(m, t)
    ensures addr in live && Table(m, t) + Maps(t) <= |m| && k / 64 < Maps(t)
    ensures Table(m, t) >= FIRST
  {
    SlotInside(m, Alloc(B), t, k);
    HeapApart(m, brk, B, fl);
    assert Handed(m, Alloc(B), addr, SlotWords(t));
    hide HeapOK, Bit;
  }

  lemma OneSlotLess(m: seq<nat>, m': seq<nat>, t: nat, k: nat)
    requires FIRST <= |m| == |m'| && forall u :: 0 <= u < SLABS ==> Table(m', u) == Table(m, u)
    requires forall u: nat, j: nat :: LiveSlot(m', u, j) <==> LiveSlot(m, u, j) && !(u == t && j == k)
    ensures OthersStay(m, m', t)
  {
    hide LiveSlot, Table;
  }

  /** No slot of a slab whose maps are all zero is live. */
  lemma ZeroMapsDead(m: seq<nat>, t: nat)
    requires t < SLABS && FIRST <= |m| && Table(m, t) + Maps(t) <= |m|
    requires forall j :: Table(m, t) <= j < Table(m, t) + Maps(t) ==> m[j] == 0
    ensures forall j: nat :: !LiveSlot(m, t, j)
  {
    forall j: nat ensures !LiveSlot(m, t, j) {
      if j < 64 * Maps(t) {
        assert m[Table(m, t) + j / 64] == 0;
        ZeroBits(63 - j % 64);
      }
      hide Bit;
    }
  }

  /** A well-formed slab has a live slot. */
  lemma SomeSlotLeft(m: seq<nat>, brk: nat, B: Blocks, fl: seq<seq<nat>>, live: map<nat, nat>, t: nat)
    requires AllocatorOK(m, brk, B, fl, live) && t < SLABS && FIRST <= |m| && Table(m, t) != 0
    ensures exists j: nat :: LiveSlot(m, t, j)
  {
    assert SlabOK(m, Alloc(B), t);
    SlabHasSlot(m, Alloc(B), t);
    hide HeapOK, SlabsOK, LiveOK, LiveSlot;
  }

  lemma SlabHasSlot(m: seq<nat>, A: map<nat, nat>, t: nat)
    requires t < SLABS && FIRST <= |m| && SlabOK(m, A, t) && Table(m, t) != 0
    ensures exists j: nat :: LiveSlot(m, t, j)
  {
    hide Bit, Pow2;
    var s := Table(m, t);
    var x :| s <= x < s + Maps(t) && m[x] != 0;
    FullIsAllOnes();
    var b := NonZeroHasBit(m[x], 64);
    SlotOfBit(x - s, b);
    assert LiveSlot(m, t, 64 * (x - s) + (63 - b));
  }

  lemma SlotOfBit(j: nat, b: nat)
    requires b < 64
    ensures var k := 64 * j + (63 - b); k / 64 == j && 63 - k % 64 == b
  {
    SlotPlaceInMap(j, 63 - b);
  }

  lemma UnmadeRoutes(m0: seq<nat>, m1: seq<nat>, A: map<nat, nat>, brk: nat, p: nat, t: nat)
    requires SlabsOK(m0, A) && Apart(A, brk) && t < SLABS && Table(m0, t) == p != 0 && |m1| == |m0|
    requires forall u :: 0 <= u < SLABS ==> Table(m1, u) == Table(m0, u)
    ensures forall u :: 0 <= u < SLABS ==> !InRange(m1, u, p)
  {
    assert SlabOK(m0, A, t);
    forall u | 0 <= u < SLABS ensures !InRange(m1, u, p) {
      BlockNotInRange(m0, A, brk, p, u);
    }
  }

  lemma KeepsWithoutEntry(m: seq<nat>, m': seq<nat>, A: map<nat, nat>, t: nat)
    requires Keeps(m, m', A) && t < SLABS && FIRST <= |m|
    requires forall a :: a in A ==> FIRST <= a
    ensures Keeps(m[SLABS16 + t := 0], m'[SLABS16 + t := 0], A)
  {
  }

  lemma LiveKeptFewer(m: seq<nat>, m': seq<nat>, live: map<nat, nat>, live': map<nat, nat>)
    requires LiveKept(m, m', live) && forall p :: p in live' ==> p in live && live'[p] == live[p]
    ensures LiveKept(m, m', live')
  {
  }

  // ---------- malloc and free ----------

  /** What mem_sbrk must be able to give for a request of this size. */
  function Room(size: nat): nat
  {
    if size <= 32 then MAX_BACKING else BlockWords(size)
  }

  /** The slabs that serve requests of `size` bytes have slots of this many words. */
  function SlotSize(size: nat): nat
  {
    if size <= 16 then 2 else 4
  }

  ghost predicate FromSlabs(m: seq<nat>, brk: nat, B: Blocks, m': seq<nat>, brk': nat, size: nat, ptr: nat)
    requires FIRST <= |m| == |m'|
  {
    Served(m, brk, B, m', brk', SlotSize(size), ptr)
  }

  /** Where malloc finds a request's memory: in the slabs as long as they have room, else in a best-fitting block. */
  ghost predicate FoundIn(m: seq<nat>, brk: nat, B: Blocks, m': seq<nat>, brk': nat, size: nat, ptr: nat)
  {
    && FIRST <= |m| == |m'| && ptr != 0
    && if size <= 32 && !NoSlot(m, size) then FromSlabs(m, brk, B, m', brk', size, ptr)
       else FitFrom(brk, B, brk', ptr - 1, BlockWords(size))
  }

  ghost predicate NoSlot(m: seq<nat>, size: nat)
    requires FIRST <= |m|
  {
    AllFull(m, SlotSize(size)) && AllPresent(m, SlotSize(size))
  }

  /** The number of words that malloc hands out. */
  ghost function MallocWords(m: seq<nat>, size: nat): nat
    requires FIRST <= |m|
  {
    if size <= 32 && !NoSlot(m, size) then SlotSize(size) else BlockWords(size) - 2
  }

  /** They depend on the size alone, but for a request of 0 bytes. */
  lemma MallocWordsMeans(m: seq<nat>, size: nat)
    requires FIRST <= |m|
    ensures 8 * MallocWords(m, size) >= size && (size >= 1 ==> MallocWords(m, size) == BlockWords(size) - 2)
  {
    hide NoSlot;
  }

  /** If slabAdd has to make a slab, its backing block can be had. */
  ghost predicate SlabRoom(m: seq<nat>, A: map<nat, nat>, brk: nat, size: nat, limit: nat)
    requires FIRST <= |m|
  {
    forall t {:trigger MissingFirst(m, size, t)} ::
      AllFull(m, size) && MissingFirst(m, size, t) ==> Fits(A, brk, BackingSize(t), limit)
  }

  /** malloc does not ask mem_sbrk for more than it has, when A are the allocated blocks. */
  ghost predicate CanServe(m: seq<nat>, A: map<nat, nat>, brk: nat, size: nat, limit: nat)
    requires FIRST <= |m|
  {
    && (size <= 32 ==> SlabRoom(m, A, brk, SlotSize(size), limit))
    && (size > 32 || NoSlot(m, size) ==> Fits(A, brk, BlockWords(size), limit))
  }

  /** Enough at any time. */
  lemma RoomServes(m: seq<nat>, A: map<nat, nat>, brk: nat, size: nat, limit: nat)
    requires FIRST <= |m| && brk + Room(size) <= limit
    ensures CanServe(m, A, brk, size, limit)
  {
    forall t {:trigger MissingFirst(m, SlotSize(size), t)} | size <= 32 && MissingFirst(m, SlotSize(size), t)
      ensures Fits(A, brk, BackingSize(t), limit)
    {
      BackingAtMost(t);
    }
  }

  /** What slabAdd hands out comes from a slab that had room, or from one that was missing. */
  lemma ServedMeans(m: seq<nat>, brk: nat, B: Blocks, m': seq<nat>, brk': nat, size: nat, ptr: nat)
    requires FIRST <= |m| == |m'| && Served(m, brk, B, m', brk', size, ptr)
    ensures !(AllFull(m, size) && AllPresent(m, size))
  {
    hide AllFull, SlotTaken;
  }

  /** With a slab in place the heap is not empty. */
  lemma PresentMeansHeap(m: seq<nat>, brk: nat, B: Blocks, fl: seq<seq<nat>>, size: nat)
    requires HeapOK(m, brk, B, fl) && SlabsOK(m, Alloc(B)) && AllPresent(m, SlotSize(size))
    ensures FIRST < brk
  {
    HeapApart(m, brk, B, fl);
    hide HeapOK;
    var t := if size <= 16 then 0 else 10;
    assert OfKind(t, SlotSize(size)) && SlabOK(m, Alloc(B), t);
  }

  lemma SlabServes(m: seq<nat>, A: map<nat, nat>, brk: nat, size: nat, limit: nat)
    requires FIRST <= |m| && CanServe(m, A, brk, size, limit) && size <= 32
    ensures SlotSize(size) == (if size <= 16 then 2 else 4) && SlabRoom(m, A, brk, SlotSize(size), limit)
  {
    hide SlabRoom, NoSlot, Fits;
  }

  lemma FoundSlot(m: seq<nat>, brk: nat, B: Blocks, m': seq<nat>, brk': nat, size: nat, ptr: nat)
    requires FIRST <= |m| == |m'| && size <= 32 && ptr != 0 && Served(m, brk, B, m', brk', SlotSize(size), ptr)
    ensures FoundIn(m, brk, B, m', brk', size, ptr) && MallocWords(m, size) == SlotSize(size)
    ensures Room(size) == MAX_BACKING
  {
    ServedMeans(m, brk, B, m', brk', SlotSize(size), ptr);
    hide Served, AllFull, AllPresent;
  }

  /** What malloc asks of the block heap when the slabs have nothing to offer. */
  lemma BlockServes(m: seq<nat>, brk: nat, B: Blocks, fl: seq<seq<nat>>, size: nat, limit: nat)
    requires HeapOK(m, brk, B, fl) && SlabsOK(m, Alloc(B)) && FIRST <= |m|
    requires CanServe(m, Alloc(B), brk, size, limit)
    requires size <= 32 ==> AllFull(m, SlotSize(size)) && AllPresent(m, SlotSize(size))
    ensures Fits(Alloc(B), brk, BlockWords(size), limit) && (size >= 1 || FIRST < brk)
    ensures MallocWords(m, size) == BlockWords(size) - 2 && BlockWords(size) >= 2
  {
    BlockWordsRange(size);
    hide SlabRoom, Fits, HeapOK, SlabsOK, AllFull;
    if size <= 32 { PresentMeansHeap(m, brk, B, fl, size); }
  }

  lemma FoundBlock(m: seq<nat>, brk: nat, B: Blocks, m': seq<nat>, brk': nat, size: nat, ptr: nat)
    requires FIRST <= |m| == |m'| && 1 <= ptr && FitFrom(brk, B, brk', ptr - 1, BlockWords(size))
    requires size <= 32 ==> AllFull(m, SlotSize(size)) && AllPresent(m, SlotSize(size))
    ensures FoundIn(m, brk, B, m', brk', size, ptr) && brk <= brk' <= brk + Room(size)
  {
    hide AllFull, AllPresent;
  }

  lemma FitBounds(brk: nat, B: Blocks, brk': nat, a: nat, n: nat)
    requires FitFrom(brk, B, brk', a, n)
    ensures brk <= brk' <= brk + n
  {
  }

  lemma MallocedFit(m: seq<nat>, brk: nat, B: Blocks, m': seq<nat>, brk': nat, B': Blocks, ptr: nat, n: nat)
    requires Malloced(m, brk, B, m', brk', B', ptr, n)
    ensures 1 <= ptr && FitFrom(brk, B, brk', ptr - 1, n)
  {
  }

  lemma LiveKeptSame(m: seq<nat>, live: map<nat, nat>)
    ensures LiveKept(m, m, live)
  {
  }

  /** The range tests send every live slot to its own slab and every live block past the slabs. */
  lemma RouteMeans(m: seq<nat>, A: map<nat, nat>, brk: nat, live: map<nat, nat>, ptr: nat, t: nat)
    requires SlabsOK(m, A) && Apart(A, brk) && LiveOK(m, A, live) && ptr in live && FIRST <= |m|
    requires t <= SLABS && forall u :: 0 <= u < t ==> !InRange(m, u, ptr)
    requires t < SLABS ==> InRange(m, t, ptr)
    ensures t < SLABS ==> exists k: nat :: SlotAt(m, t, k, ptr)
    ensures t == SLABS <==> ClientBlock(m, A, ptr)
  {
    assert Handed(m, A, ptr, live[ptr]);
    hide SlabOK, InRange;
    if ClientBlock(m, A, ptr) {
      if t < SLABS { BlockNotInRange(m, A, brk, ptr, t); }
    } else {
      var u: nat, k: nat :| SlotAt(m, u, k, ptr);
      SlotInRange(m, A, brk, u, k, u);
      if t < SLABS { SlotInRange(m, A, brk, u, k, t); }
    }
  }

  lemma ClientIsBlock(m: seq<nat>, B: Blocks, p: nat)
    requires ClientBlock(m, Alloc(B), p)
    ensures 1 <= p && p - 1 in B && !B[p - 1].free
  {
  }

  // ---------- realloc ----------

  /** No new block is needed: a slot of the right kind, or a block that does not grow. */
  ghost predicate StaysPut(m: seq<nat>, A: map<nat, nat>, live: map<nat, nat>, p: nat, size: nat)
    requires p in live
  {
    if ClientBlock(m, A, p) then BlockWords(size) - 2 <= live[p]
    else size <= 32 && live[p] == SlotSize(size)
  }

  /** The allocated blocks after free( p ): a slot's block goes with its last slot. */
  ghost function AfterFree(m: seq<nat>, A: map<nat, nat>, p: nat): map<nat, nat>
  {
    if SharesSlab(m, p) then A else map a | a in A && !(a < p < a + A[a]) :: A[a]
  }

  lemma AfterFreeBlock(m: seq<nat>, A: map<nat, nat>, brk: nat, p: nat)
    requires SlabsOK(m, A) && Apart(A, brk) && ClientBlock(m, A, p)
    ensures AfterFree(m, A, p) == A - {p - 1}
  {
    if SharesSlab(m, p) {
      var t: nat, k: nat, j: nat :| SlotAt(m, t, k, p) && LiveSlot(m, t, j) && j != k;
      SlotPlace(m, A, brk, t, k);
    }
    hide SlabsOK, SharesSlab;
  }

  lemma AfterFreeSlot(m: seq<nat>, A: map<nat, nat>, brk: nat, t: nat, k: nat, p: nat)
    requires SlabsOK(m, A) && Apart(A, brk) && SlotAt(m, t, k, p)
    ensures t < SLABS && FIRST <= |m| && Table(m, t) >= 1
    ensures SharesSlab(m, p) <==> !(forall j: nat :: LiveSlot(m, t, j) ==> j == k)
    ensures AfterFree(m, A, p) == if SharesSlab(m, p) then A else A - {Table(m, t) - 1}
  {
    LiveSlotRange(m, t, k);
    SlotPlace(m, A, brk, t, k);
    hide SlabsOK, LiveSlot, SlotPtr;
    if SharesSlab(m, p) { SharesMeans(m, A, brk, t, k, p); }
    hide SharesSlab;
  }

  lemma SharesMeans(m: seq<nat>, A: map<nat, nat>, brk: nat, t: nat, k: nat, p: nat)
    requires SlabsOK(m, A) && Apart(A, brk) && SlotAt(m, t, k, p) && SharesSlab(m, p)
    ensures exists j: nat :: LiveSlot(m, t, j) && j != k
  {
    var u: nat, i: nat, j: nat :| SlotAt(m, u, i, p) && LiveSlot(m, u, j) && j != i;
    LiveSlotRange(m, t, k);
    LiveSlotRange(m, u, i);
    hide SlabsOK, Apart, LiveSlot, SlotPtr;
    SlotUnique(m, A, brk, t, k, u, i);
  }

  /**
   * What realloc needs: if the payload moves, that malloc can be served once the old one is free. A
   * size of 0 must not be asked for the first block of the heap: a first block without payload whose
   * next block is allocated cannot be freed, because free takes the guard word for a free block before
   * it and indexes the lists with 255. Nor for a slot of 32 bytes while no slot of 16 bytes can be had,
   * because realloc then copies 16 bytes into an empty payload.
   */
  ghost predicate CanResize(m: seq<nat>, brk: nat, B: Blocks, live: map<nat, nat>, p: nat, size: nat, limit: nat)
    requires p in live
  {
    && FIRST <= |m|
    && (StaysPut(m, Alloc(B), live, p, size) || CanServe(m, AfterFree(m, Alloc(B), p), brk, size, limit))
    && (size == 0 ==> if ClientBlock(m, Alloc(B), p) then p != FIRST + 1 else live[p] == 2 || !NoSlot(m, 0))
  }

  lemma EnoughRoom(m: seq<nat>, brk: nat, B: Blocks, fl: seq<seq<nat>>, live: map<nat, nat>, p: nat, size: nat,
                   limit: nat)
    requires AllocatorOK(m, brk, B, fl, live) && p in live && size >= 1 && brk + Room(size) <= limit
    ensures CanResize(m, brk, B, live, p, size, limit) && FIRST <= |m|
  {
    TablesInRange(m, brk, B, fl, live);
    hide AllocatorOK, CanServe, AfterFree, StaysPut, ClientBlock;
    RoomServes(m, AfterFree(m, Alloc(B), p), brk, size, limit);
  }

  /** Slabs of another kind than t, or all of them if t is none, offer what they offered before. */
  lemma ServesAfter(m: seq<nat>, m': seq<nat>, A: map<nat, nat>, brk: nat, size: nat, limit: nat, t: nat)
    requires OthersStay(m, m', t) && CanServe(m, A, brk, size, limit)
    requires size > 32 || t >= SLABS || SlotWords(t) != SlotSize(size)
    ensures FIRST <= |m'| && CanServe(m', A, brk, size, limit)
  {
    hide Fits, LiveSlot, Table;
    if size <= 32 {
      SameKind(m, m', t, SlotSize(size));
      forall u {:trigger MissingFirst(m', SlotSize(size), u)} |
        AllFull(m', SlotSize(size)) && MissingFirst(m', SlotSize(size), u) ensures Fits(A, brk, BackingSize(u), limit)
      {
        assert MissingFirst(m, SlotSize(size), u);
      }
    }
  }

  lemma SameKind(m: seq<nat>, m': seq<nat>, t: nat, w: nat)
    requires OthersStay(m, m', t) && (t >= SLABS || SlotWords(t) != w)
    ensures FIRST <= |m| == |m'| && (AllFull(m', w) <==> AllFull(m, w)) && (AllPresent(m', w) <==> AllPresent(m, w))
    ensures forall u {:trigger MissingFirst(m', w, u)} :: MissingFirst(m', w, u) ==> MissingFirst(m, w, u)
  {
    hide LiveSlot, Table;
    forall u: nat | OfKind(u, w) ensures Table(m', u) == Table(m, u) && (SlabFull(m', u) <==> SlabFull(m, u)) {
    }
  }

  /** The number of words that realloc hands out. */
  ghost function ReallocWords(m: seq<nat>, A: map<nat, nat>, p: nat, size: nat): nat
  {
    if size == 0 && !ClientBlock(m, A, p) then 2 else BlockWords(size) - 2
  }

  /** A request of size bytes was given this many words. */
  predicate Grant(words: nat, size: nat)
  {
    words == BlockWords(size) - 2 || (size == 0 && words == 2)
  }

  /** The sizes for which realloc takes a slot away from the slots of its size. */
  predicate LeavesKind(was: nat, size: nat)
  {
    was <= 32 && !(size <= 32 && SlotSize(size) == SlotSize(was))
  }

  /**
   * How a slot moves: it is freed, a new payload is found, and then its words are copied from where
   * they were, whatever became of that place.
   */
  ghost predicate Relocated(brk: nat, live: map<nat, nat>, p: nat, m': seq<nat>, brk': nat, B': Blocks,
                            fl': seq<seq<nat>>, live': map<nat, nat>, p': nat, size: nat)
    requires p in live
  {
    exists m1, B1, fl1, m2 ::
      && AllocatorOK(m1, brk, B1, fl1, live - {p})
      && FoundIn(m1, brk, B1, m2, brk', size, p')
      && AllocatorOK(m2, brk', B', fl', live')
      && CopiedOver(m2, p, m', p', CopyWidth(live[p], size))
  }

  /** How many words of a slot realloc copies. */
  function CopyWidth(words: nat, size: nat): nat
  {
    if words == 2 || size <= 16 then 2 else 4
  }

  /** What the code asks of slab and size is whether the slot may stay. */
  lemma SlotStaysPut(m: seq<nat>, A: map<nat, nat>, live: map<nat, nat>, t: nat, p: nat, size: nat)
    requires p in live && live[p] == SlotWords(t) && !ClientBlock(m, A, p)
    ensures StaysPut(m, A, live, p, size) <==> if t < 10 then size <= 16 else 16 < size <= 32
    ensures StaysPut(m, A, live, p, size) ==> ReallocWords(m, A, p, size) == live[p]
    ensures ContentsMove(m, A, live, p, size) <==> SharesSlab(m, p) || StaysPut(m, A, live, p, size)
  {
    hide SharesSlab, ClientBlock;
  }

  /** After the free there is memory for the new payload, which is at least as large as what is copied. */
  lemma MoveFits(m: seq<nat>, m': seq<nat>, brk: nat, B: Blocks, A': map<nat, nat>, live: map<nat, nat>, t: nat, p: nat,
                 size: nat, limit: nat)
    requires p in live && !ClientBlock(m, Alloc(B), p) && CanResize(m, brk, B, live, p, size, limit)
    requires live[p] == SlotWords(t) && !StaysPut(m, Alloc(B), live, p, size) && OthersStay(m, m', t)
    requires A' == AfterFree(m, Alloc(B), p)
    ensures FIRST <= |m'| && CanServe(m', A', brk, size, limit)
    ensures var w := MallocWords(m', size);
      && w == ReallocWords(m, Alloc(B), p, size) && w != live[p]
      && CopyWidth(live[p], size) <= w && CopyWidth(live[p], size) <= live[p]
      && Min(8 * live[p], size) <= 8 * CopyWidth(live[p], size)
  {
    hide ClientBlock, NoSlot, CanServe, OthersStay, AfterFree;
    ServesAfter(m, m', A', brk, size, limit, t);
    if size == 0 { OthersStayFull(m, m', t, size); }
    MallocWordsMeans(m', size);
  }

  lemma IsRelocated(m1: seq<nat>, B1: Blocks, fl1: seq<seq<nat>>, m2: seq<nat>, brk: nat, live: map<nat, nat>, p: nat,
                    m': seq<nat>, brk': nat, B': Blocks, fl': seq<seq<nat>>, live': map<nat, nat>, p': nat, size: nat)
    requires p in live && AllocatorOK(m1, brk, B1, fl1, live - {p})
    requires FoundIn(m1, brk, B1, m2, brk', size, p') && AllocatorOK(m2, brk', B', fl', live')
    requires CopiedOver(m2, p, m', p', CopyWidth(live[p], size))
    ensures Relocated(brk, live, p, m', brk', B', fl', live', p', size)
  {
    hide AllocatorOK, FoundIn, CopiedOver;
  }

  lemma OthersStayFull(m: seq<nat>, m': seq<nat>, t: nat, size: nat)
    requires OthersStay(m, m', t) && SlotWords(t) != SlotSize(size) && !NoSlot(m, size)
    ensures !NoSlot(m', size)
  {
    hide LiveSlot, Table;
    if NoSlot(m', size) {
      forall u: nat | OfKind(u, SlotSize(size)) ensures Table(m, u) != 0 && SlabFull(m, u) {
        assert SlabFull(m', u);
      }
    }
  }

  /** The slab of the slot p has another live slot. */
  ghost predicate SharesSlab(m: seq<nat>, p: nat)
  {
    exists t: nat, k: nat, j: nat :: SlotAt(m, t, k, p) && LiveSlot(m, t, j) && j != k
  }

  /** The contents survive realloc: of a block, and of a slot that stays or whose slab does. */
  ghost predicate ContentsMove(m: seq<nat>, A: map<nat, nat>, live: map<nat, nat>, p: nat, size: nat)
    requires p in live
  {
    ClientBlock(m, A, p) || SharesSlab(m, p) || StaysPut(m, A, live, p, size)
  }

  /** Only a slot can lose its contents, and only by leaving the slots of its size. */
  lemma LostMeans(m: seq<nat>, brk: nat, B: Blocks, fl: seq<seq<nat>>, live: map<nat, nat>, p: nat, was: nat, size: nat)
    requires AllocatorOK(m, brk, B, fl, live) && p in live && Grant(live[p], was)
    requires !ContentsMove(m, Alloc(B), live, p, size)
    ensures LeavesKind(was, size)
  {
    hide SharesSlab;
    assert Handed(m, Alloc(B), p, live[p]);
    assert live[p] == 2 || live[p] == 4;
    hide AllocatorOK, Handed, ClientBlock;
    BlockWordsRange(was);
  }

  lemma LiveInside(m: seq<nat>, brk: nat, B: Blocks, fl: seq<seq<nat>>, live: map<nat, nat>, p: nat)
    requires AllocatorOK(m, brk, B, fl, live) && p in live
    ensures 0 < p && p < brk <= |m| && p + live[p] <= |m|
  {
    HeapApart(m, brk, B, fl);
    assert Handed(m, Alloc(B), p, live[p]);
    var a := HandedPlace(m, Alloc(B), brk, p, live[p]);
  }

  lemma SlotLive(m: seq<nat>, brk: nat, B: Blocks, fl: seq<seq<nat>>, live: map<nat, nat>, t: nat, k: nat, p: nat)
    requires AllocatorOK(m, brk, B, fl, live) && SlotAt(m, t, k, p)
    ensures t < SLABS && p in live && live[p] == SlotWords(t) && p + live[p] <= |m| && 0 < p
  {
    assert Handed(m, Alloc(B), p, SlotWords(t));
    LiveInside(m, brk, B, fl, live, p);
  }

  /** What realloc returns unmoved keeps its contents. */
  lemma StaysHere(m: seq<nat>, live: map<nat, nat>, p: nat, size: nat)
    requires p in live && p + live[p] <= |m|
    ensures live == (live - {p})[p := live[p]]
    ensures LiveKept(m, m, live - {p}) && SameBytes(m, p, m, p, Min(8 * live[p], size))
  {
    SameWords(m, p, m, p, live[p]);
    SameBytesFewer(m, p, m, p, live[p], Min(8 * live[p], size));
  }

  lemma RestoredWithin(m: seq<nat>, m': seq<nat>, p: nat, n: nat, k: nat)
    requires |m'| == |m| && k <= n
    requires forall w :: 0 <= w < |m| && !(p <= w < p + k) ==> m'[w] == m[w]
    ensures Within(m, m', p, p + n)
  {
  }

  /** A slot that shares its slab leaves another live slot behind. */
  lemma SharedStays(m: seq<nat>, brk: nat, B: Blocks, fl: seq<seq<nat>>, live: map<nat, nat>, t: nat, k: nat, p: nat)
    requires AllocatorOK(m, brk, B, fl, live) && SlotAt(m, t, k, p) && SharesSlab(m, p)
    ensures t < SLABS && FIRST <= |m| && Table(m, t) != 0
    ensures !(forall j: nat :: LiveSlot(m, t, j) ==> j == k)
  {
    Parts(m, brk, B, fl, live);
    var u: nat, i: nat, j: nat :| SlotAt(m, u, i, p) && LiveSlot(m, u, j) && j != i;
    LiveSlotRange(m, t, k);
    LiveSlotRange(m, u, i);
    hide HeapOK, SlabsOK, LiveOK, Apart, LiveSlot, SlotPtr;
    SlotUnique(m, Alloc(B), brk, t, k, u, i);
  }

  /** The words of a slot no longer live stay as they were, and apart from the new pointer. */
  lemma SlotContents(m: seq<nat>, m': seq<nat>, brk: nat, B: Blocks, fl: seq<seq<nat>>, live: map<nat, nat>,
                     t: nat, k: nat, p: nat, q: nat, words: nat)
    requires SlotsKept(m, m') && SlotAt(m, t, k, p) && t < SLABS && words <= SlotWords(t)
    requires AllocatorOK(m', brk, B, fl, live) && q in live && words <= live[q] && live[q] != SlotWords(t)
    requires p + SlotWords(t) <= |m|
    ensures SameBytes(m, p, m', p, 8 * words)
    ensures p + words <= q || q + words <= p
  {
    hide *;
    Parts(m', brk, B, fl, live);
    SlotWordsKept(m, m', t, k, p, words);
    LiveIsHanded(m', Alloc(B), live, q);
    ElsewhereThanSlab(m', Alloc(B), brk, t, q, live[q]);
  }

  lemma SlotWordsKept(m: seq<nat>, m': seq<nat>, t: nat, k: nat, p: nat, words: nat)
    requires SlotsKept(m, m') && SlotAt(m, t, k, p) && t < SLABS && words <= SlotWords(t) && p + SlotWords(t) <= |m|
    ensures FIRST <= |m| == |m'| && Table(m', t) == Table(m, t) != 0
    ensures Table(m, t) <= p && p + words <= Table(m, t) - 1 + BackingSize(t)
    ensures SameBytes(m, p, m', p, 8 * words)
  {
    LiveSlotRange(m, t, k);
    hide LiveSlot, SameBytes;
    forall w | p <= w < p + words ensures m'[w] == m[w] { assert InSlots(m, t, w); }
    assert m'[p..p + words] == m[p..p + words];
    SameWords(m, p, m', p, words);
  }

  /** What is handed out in a size other than slab t's slots lies outside slab t. */
  lemma ElsewhereThanSlab(m: seq<nat>, A: map<nat, nat>, brk: nat, t: nat, q: nat, w: nat)
    requires SlabsOK(m, A) && Apart(A, brk) && Handed(m, A, q, w) && t < SLABS && Table(m, t) != 0
    requires w != SlotWords(t)
    ensures q + w <= Table(m, t) - 1 || Table(m, t) - 1 + BackingSize(t) <= q
  {
    var o := HandedPlace(m, A, brk, q, w);
    assert SlabOK(m, A, t);
    if !ClientBlock(m, A, q) {
      var u: nat, k: nat :| SlotAt(m, u, k, q) && o + 1 == Table(m, u) && w == SlotWords(u);
      assert u != t;
    }
    hide Handed, HandedIn;
  }

  /** What realloc( p, size ) did, when it returned p'. */
  ghost predicate Reallocated(m: seq<nat>, brk: nat, B: Blocks, live: map<nat, nat>, p: nat, size: nat,
                              m': seq<nat>, brk': nat, B': Blocks, fl': seq<seq<nat>>, live': map<nat, nat>, p': nat)
    requires p in live
  {
    && p' !in live - {p}
    && live' == (live - {p})[p' := ReallocWords(m, Alloc(B), p, size)]
    && LiveKept(m, m', live - {p})
    && (ContentsMove(m, Alloc(B), live, p, size) ==> SameBytes(m, p, m', p', Min(8 * live[p], size)))
    && (if StaysPut(m, Alloc(B), live, p, size) then p' == p && brk' == brk
        else ClientBlock(m, Alloc(B), p) || Relocated(brk, live, p, m', brk', B', fl', live', p', size))
    && brk <= brk' <= brk + Room(size)
  }

  lemma ReallocatedMeans(m: seq<nat>, brk: nat, B: Blocks, live: map<nat, nat>, p: nat, size: nat,
                         m': seq<nat>, brk': nat, B': Blocks, fl': seq<seq<nat>>, live': map<nat, nat>, p': nat)
    requires p in live && Reallocated(m, brk, B, live, p, size, m', brk', B', fl', live', p')
    ensures p' !in live - {p} && live' == (live - {p})[p' := ReallocWords(m, Alloc(B), p, size)]
    ensures LiveKept(m, m', live - {p}) && brk <= brk' <= brk + Room(size)
    ensures ContentsMove(m, Alloc(B), live, p, size) ==> SameBytes(m, p, m', p', Min(8 * live[p], size))
    ensures !StaysPut(m, Alloc(B), live, p, size) && !ClientBlock(m, Alloc(B), p) ==>
      Relocated(brk, live, p, m', brk', B', fl', live', p', size)
  {
    hide ContentsMove, StaysPut, ClientBlock, LiveKept, SameBytes, Relocated, ReallocWords, Room;
  }

  /** What a block's new size asks for, and how many bytes the old and the new payload share. */
  lemma BlockResize(m: seq<nat>, brk: nat, B: Blocks, live: map<nat, nat>, p: nat, size: nat, limit: nat)
    requires p in live && ClientBlock(m, Alloc(B), p) && CanResize(m, brk, B, live, p, size, limit)
    ensures FIRST <= |m|
    ensures live[p] < BlockWords(size) - 2 ==> CanServe(m, AfterFree(m, Alloc(B), p), brk, size, limit)
    ensures size >= 1 || p != FIRST + 1
    ensures BlockWords(size) - 2 <= live[p] ==> Min(8 * live[p], size) == size
    ensures BlockWords(size) - 2 > live[p] && live[p] % 2 == 0 ==> Min(8 * live[p], size) == 8 * live[p]
  {
    hide ClientBlock, NoSlot, CanServe, AfterFree;
  }

  lemma BlockIsLive(m: seq<nat>, brk: nat, B: Blocks, fl: seq<seq<nat>>, live: map<nat, nat>, p: nat)
    requires AllocatorOK(m, brk, B, fl, live) && ClientBlock(m, Alloc(B), p)
    ensures p in live && 1 <= p && p - 1 in B && !B[p - 1].free && live[p] == B[p - 1].size - 2
    ensures p + live[p] <= |m| && B[p - 1].size >= 2 && B[p - 1].size % 2 == 0
    ensures p - 1 < |m| && TagValid(m[p - 1]) == 1 && TagSize(m[p - 1]) == B[p - 1].size && p - 1 > 0
  {
    HeapApart(m, brk, B, fl);
    assert Handed(m, Alloc(B), p, Alloc(B)[p - 1] - 2);
    LiveInside(m, brk, B, fl, live, p);
    ReadBlock(m, brk, B, fl, p - 1);
  }

  /** A block of the right size stays where it is. */
  lemma BlockStart(m: seq<nat>, brk: nat, B: Blocks, fl: seq<seq<nat>>, a: nat)
    requires HeapOK(m, brk, B, fl) && a in B
    ensures 0 < a && a + B[a].size <= |m|
  {
  }

  lemma TailRoutes(m: seq<nat>, m': seq<nat>, B: Blocks, brk: nat, p: nat, q: nat)
    requires SlabsOK(m, Alloc(B)) && Apart(Alloc(B), brk) && ClientBlock(m, Alloc(B), p) && |m'| == |m|
    requires p <= q < p - 1 + B[p - 1].size
    requires Within(m, m', p - 1, p - 1 + B[p - 1].size)
    ensures FIRST <= |m| && forall u :: 0 <= u < SLABS ==> !InRange(m', u, q)
  {
    forall u | 0 <= u < SLABS ensures !InRange(m', u, q) {
      InnerNotInRange(m, Alloc(B), brk, p, q, u);
      assert Table(m', u) == Table(m, u);
    }
  }

  // ---------- mm_init ----------

  lemma EmptyHeap(m: seq<nat>, fl: seq<seq<nat>>)
    requires FIRST <= |m| <= MAX_WORDS && forall w :: 0 <= w < FIRST ==> m[w] == 0
    requires |fl| == LISTS && forall i :: 0 <= i < LISTS ==> fl[i] == []
    ensures AllocatorOK(m, FIRST, map[], fl, map[])
  {
    EmptyLists(m, fl);
    assert Alloc(map[]) == map[];
    forall t: nat, k: nat ensures !LiveSlot(m, t, k) { }
    forall p: nat, w: nat ensures !Handed(m, map[], p, w) { }
    hide Handed, LiveSlot, ListsOK;
  }

  lemma EmptyLists(m: seq<nat>, fl: seq<seq<nat>>)
    requires FIRST <= |m| && forall w :: 0 <= w < FIRST ==> m[w] == 0
    requires |fl| == LISTS && forall i :: 0 <= i < LISTS ==> fl[i] == []
    ensures ListsOK(m, map[], fl, {})
  {
    forall i | 0 <= i < LISTS ensures Linked(m, i, fl[i]) { }
  }

  // ---------- mm_checkheap ----------

  /**
   * What mm_checkheap tests of a block: its payload is aligned, header and footer are the same, it
   * and the block after it are not both free, and it is on the list of its size class exactly when it
   * is free and larger than 16 bytes. The blocks tile the heap, and lists hold only free blocks.
   */
  lemma CheckheapHolds(m: seq<nat>, brk: nat, B: Blocks, fl: seq<seq<nat>>, b: nat)
    requires HeapOK(m, brk, B, fl) && b in B
    ensures |fl| == LISTS && (b + 1) % 2 == 0 && B[b].size % 2 == 0 && FIRST <= b < b + B[b].size <= brk <= |m|
    ensures m[b] == m[b + B[b].size - 1] && TagSize(m[b]) == B[b].size && (TagValid(m[b]) == 0 <==> B[b].free)
    ensures b + B[b].size == brk || (b + B[b].size in B && !(B[b].free && B[b + B[b].size].free))
    ensures forall i :: 0 <= i < LISTS ==> (b in fl[i] <==> B[b].free && B[b].size > 2 && i == GetIndex(B[b].size))
  {
    hide Tiled, Aligned, Tagged, NoAdjacentFree, Members, AllLinked, GetIndex, TagSize, TagValid;
    ReadBlock(m, brk, B, fl, b);
    TagsAgree(m, B, b);
    AtBlock(brk, B, b);
    OnItsList(B, fl, b);
  }

  lemma TagsAgree(m: seq<nat>, B: Blocks, b: nat)
    requires Tagged(m, B) && b in B
    ensures b + B[b].size <= |m| && B[b].size >= 1 && m[b] == m[b + B[b].size - 1]
  {
    hide Header;
  }

  lemma AtBlock(brk: nat, B: Blocks, b: nat)
    requires Tiled(B, brk) && Aligned(B) && NoAdjacentFree(B) && b in B
    ensures (b + 1) % 2 == 0 && B[b].size % 2 == 0 && FIRST <= b < b + B[b].size <= brk
    ensures b + B[b].size == brk || (b + B[b].size in B && !(B[b].free && B[b + B[b].size].free))
  {
    assert Followed(B, brk, b) && Separated(B, b);
  }

  lemma OnItsList(B: Blocks, fl: seq<seq<nat>>, b: nat)
    requires Members(B, fl, {}) && b in B && B[b].size % 2 == 0
    ensures |fl| == LISTS
    ensures forall i :: 0 <= i < LISTS ==> (b in fl[i] <==> B[b].free && B[b].size > 2 && i == GetIndex(B[b].size))
  {
    hide GetIndex;
    forall i: nat | i < LISTS ensures b in fl[i] <==> B[b].free && B[b].size > 2 && i == GetIndex(B[b].size) {
      assert b in fl[i] <==> Listed(B, {}, b, i);
    }
  }
}
