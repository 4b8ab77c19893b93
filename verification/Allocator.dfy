/** The allocator proper: malloc, free and realloc writing the heap words in place. */
module Allocators {
  import opened Bits
  import opened HeapBlocks
  import opened HeapSteps
  import opened Slabs
  import opened SlabSteps
  import opened ReallocSteps
  import opened Contents
  import opened AllocatorSteps

  class Allocator {
    var mem: array<nat>            // the heap, word by word
    var brk: nat                   // mem_brk: words handed out by mem_sbrk
    ghost var B: Blocks            // the blocks that tile the heap
    ghost var fl: seq<seq<nat>>    // the blocks on each free list, in list order
    ghost var live: map<nat, nat>  // the pointers handed out and not freed, with their words

    /** A heap area of the given number of words, zero as mmap delivers it, and not yet set up. */
    constructor (words: nat)
      requires FIRST <= words <= MAX_WORDS
      ensures fresh(mem) && mem.Length == words && brk == 0 && mem[GUARD] == 0
    {
      mem := new nat[words](_ => 0);
      brk := 0;
      B, fl, live := map[], [], map[];
    }

    /** mm_init: three tables, all entries NULL. The last word of slabs32 is not written. */
    method MmInit()
      requires FIRST <= mem.Length <= MAX_WORDS && brk == 0 && mem[GUARD] == 0
      modifies mem, this`brk, this`B, this`fl, this`live
      ensures AllocatorOK(mem[..], brk, B, fl, live)
      ensures live == map[] && B == map[] && brk == FIRST
    {
      hide HeapOK, SlabsOK, LiveOK;
      var lists := Sbrk(LISTS);
      var slabs16 := Sbrk(10);
      var slabs32 := Sbrk(15);
      assert lists == 0 && slabs16 == SLABS16 && slabs32 == SLABS32;
      for i := 0 to 36
        invariant brk == FIRST && mem[GUARD] == 0
        invariant forall w :: 0 <= w < i ==> mem[w] == 0
      {
        mem[lists + i] := 0;
      }
      for i := 0 to 10
        invariant brk == FIRST && mem[GUARD] == 0
        invariant forall w :: 0 <= w < SLABS16 + i ==> mem[w] == 0
      {
        mem[slabs16 + i] := 0;
      }
      for i := 0 to 14
        invariant brk == FIRST && mem[GUARD] == 0
        invariant forall w :: 0 <= w < SLABS32 + i ==> mem[w] == 0
      {
        mem[slabs32 + i] := 0;
      }
      B, fl, live := map[], seq(LISTS, _ => []), map[];
      EmptyHeap(mem[..], fl);
    }

    // ---------- tags and lists ----------

    /** getBlockInfo: by header when given one, else by footer; the defaults are the callers'. */
    method GetBlockInfo(blockHead: nat, blockFoot: nat)
      returns (isValid: nat, size: nat, pred: nat, succ: nat)
      requires blockHead != 0 ==>
        && blockHead < mem.Length
        && (TagValid(mem[blockHead]) == 0 ==> blockHead + TagSize(mem[blockHead]) <= mem.Length)
      requires blockHead == 0 && blockFoot != 0 ==>
        1 <= blockFoot <= mem.Length && TagSize(mem[blockFoot - 1]) <= blockFoot
      ensures var h := if blockHead != 0 then mem[blockHead]
                       else if blockFoot != 0 then mem[blockFoot - 1] else 1;
        && isValid == TagValid(h) && size == TagSize(h)
        && var head := if blockHead != 0 then blockHead else blockFoot - size;
        && if isValid == 0 && size > 2
           then head + 2 < mem.Length && pred == mem[head + 1] && succ == mem[head + 2]
           else pred == 0 && succ == 0
    {
      isValid, size, pred, succ := 1, 0, 0, 0;
      if blockHead != 0 {
        var header := mem[blockHead];
        isValid := TagValid(header);
        size := TagSize(header);
        if TagValid(header) == 0 && TagSize(header) > 2 {
          pred := mem[blockHead + 1];
          succ := mem[blockHead + 2];
        }
      } else if blockFoot != 0 {
        var header := mem[blockFoot - 1];
        isValid := TagValid(header);
        size := TagSize(header);
        if TagValid(header) == 0 && TagSize(header) > 2 {
          pred := mem[blockFoot - size + 1];
          succ := mem[blockFoot - size + 2];
        }
      }
    }

    /** addTags; pred 1 or succ 1 with valid 2 asks for the other link alone to be written. */
    method AddTags(block: nat, valid: nat, fullSize: nat, pred: nat, succ: nat)
      requires block != 0 && valid <= 1 ==> 2 <= fullSize && block + fullSize <= mem.Length
      requires block != 0 && valid == 2 ==> block + 2 < mem.Length
      modifies mem
      ensures block != 0 && valid == 1 ==> mem[..] == old(TagBlock(mem[..], block, Blk(fullSize, false)))
      ensures block != 0 && valid == 0 && pred == 0 && succ == 0 ==>
        mem[..] == old(TagBlock(mem[..], block, Blk(fullSize, true)))
      ensures block != 0 && valid == 0 && (pred != 0 || succ != 0) ==>
        var m := TagBlock(old(mem[..]), block, Blk(fullSize, true));
        mem[..] == if fullSize > 2 then SetSucc(SetPred(m, block, pred), block, succ) else m
      ensures valid == 2 && block + 2 < mem.Length && pred == 1 ==>
        mem[..] == old(SetSucc(mem[..], block, succ))
      ensures valid == 2 && block + 2 < mem.Length && pred != 1 && succ == 1 ==>
        mem[..] == old(SetPred(mem[..], block, pred))
      ensures block == 0 || valid > 2 || (valid == 2 && pred != 1 && succ != 1) ==> mem[..] == old(mem[..])
    {
      if block == 0 { return; }
      var header := 64 * fullSize;
      if valid == 1 {
        header := header + 1;
        mem[block] := header;
        mem[block + fullSize - 1] := header;
        if fullSize > 2 {
          mem[block + 1] := 0;
          mem[block + 2] := 0;
        }
      } else if valid == 0 {
        mem[block] := header;
        mem[block + fullSize - 1] := header;
        if fullSize > 2 {
          mem[block + 1] := pred;
          mem[block + 2] := succ;
        }
      } else if valid == 2 {
        if pred == 1 {
          mem[block + 2] := succ;
        } else if succ == 1 {
          mem[block + 1] := pred;
        }
      }
    }

    method ListDeleteAt(pred: nat, succ: nat, index: nat)
      requires index < mem.Length && pred + 2 < mem.Length && succ + 2 < mem.Length
      requires pred != 1
      modifies mem
      ensures mem[..] == old(ListDelete(mem[..], pred, succ, index))
    {
      if pred == 0 {
        mem[index] := succ;
        assert mem[..] == old(mem[..])[index := succ];
        AddTags(succ, 2, 0, 0, 1);
      } else {
        AddTags(pred, 2, 0, 1, succ);
        AddTags(succ, 2, 0, pred, 1);
      }
    }

    method ListAddAt(addr: nat, index: nat)
      requires index < addr && addr + 2 < mem.Length && mem[index] + 2 < mem.Length
      requires addr != 1
      modifies mem
      ensures mem[..] == old(ListAdd(mem[..], addr, index))
    {
      AddTags(addr, 2, 0, 1, mem[index]);
      assert mem[index] == old(mem[index]);
      AddTags(mem[index], 2, 0, addr, 1);
      mem[index] := addr;
    }

    // ---------- malloc on the block heap ----------

    /** What getBlockInfo reads at the k-th block of a list. */
    lemma NodeOnList(i: nat, k: nat)
      requires HeapOK(mem[..], brk, B, fl) && i < LISTS && k < |fl[i]|
      ensures |fl| == LISTS && var x := fl[i][k];
        && x != 0 && x + 2 < mem.Length && x in B && x + B[x].size <= mem.Length
        && TagValid(mem[x]) == 0 && TagSize(mem[x]) == B[x].size >= 4
        && Links(mem[..], B, x, B[x].size, mem[x + 1], mem[x + 2])
        && mem[x + 2] == At(fl[i], k + 1)
    {
      var x := fl[i][k];
      assert Listed(B, {}, x, i) && NodeLinked(mem[..], fl[i], k) by {
        assert Linked(mem[..], i, fl[i]) && fl[i][k] in fl[i];
      }
      HeaderReads(B[x]);
      hide TagValid, TagSize, Header;
    }

    lemma StartSearch(i: nat, n: nat)
      requires HeapOK(mem[..], brk, B, fl) && i < LISTS
      ensures |fl| == LISTS && mem.Length > i && mem[i] == At(fl[i], 0)
      ensures Search(mem[..], B, fl[i], 0, n, Nothing)
    {
      assert Linked(mem[..], i, fl[i]);
      forall j | 0 <= j < |fl[i]| ensures Listable(B, {}, fl[i][j]) && fl[i][j] != 0 {
        NodeOnList(i, j);
      }
    }

    /** One turn of the inner search loop of malloc: looks at the block ptr. */
    method Consider(ptr: nat, newsize: nat, c: Choice, ghost i: nat, ghost k: nat)
      returns (c': Choice, succ: nat)
      requires HeapOK(mem[..], brk, B, fl) && i < LISTS && k < |fl[i]| && ptr == fl[i][k] && 4 <= newsize
      requires Search(mem[..], B, fl[i], k, newsize, c)
      ensures succ == At(fl[i], k + 1)
      ensures Search(mem[..], B, fl[i], k + 1, newsize, c')
    {
      hide *;
      NodeOnList(i, k);
      SearchStep(mem[..], B, fl[i], k, newsize, c, mem[ptr + 1], mem[ptr + 2]);
      c' := c;
      var isValid, size, pred;
      isValid, size, pred, succ := GetBlockInfo(ptr, 0);
      if isValid == 0 && size >= newsize {
        if size - newsize < c.difference {
          c' := Choice(size - newsize, ptr, size, pred, succ);
        }
      }
    }

    /** The inner search loop of malloc: the best fit on one list. */
    method BestInList(i: nat, newsize: nat) returns (c: Choice)
      requires HeapOK(mem[..], brk, B, fl) && i < LISTS && 4 <= newsize
      ensures BestOf(B, fl[i], newsize, c.best)
      ensures c.best != 0 ==>
        && Links(mem[..], B, c.best, c.bestSize, c.bestPred, c.bestSucc)
        && newsize <= c.bestSize && c.difference == c.bestSize - newsize
    {
      hide HeapOK, Search, BestOf, Links;
      StartSearch(i, newsize);
      c := Nothing;
      var ptr := mem[i];
      ghost var k: nat := 0;
      while ptr != 0
        invariant k <= |fl[i]| && ptr == At(fl[i], k)
        invariant Search(mem[..], B, fl[i], k, newsize, c)
        decreases |fl[i]| - k
      {
        c, ptr := Consider(ptr, newsize, c, i, k);
        k := k + 1;
        if c.difference == 0 { break; }
      }
      SearchDone(mem[..], B, fl[i], k, newsize, c);
    }

    /** Lines 643-660 of malloc: the chosen block leaves its list and is cut to size. */
    method Place(c: Choice, i: nat, newsize: nat) returns (ptr: nat)
      requires HeapOK(mem[..], brk, B, fl) && i < LISTS && c.best != 0
      requires Links(mem[..], B, c.best, c.bestSize, c.bestPred, c.bestSucc)
      requires GetIndex(c.bestSize) == i
      requires 4 <= newsize <= c.bestSize && newsize % 2 == 0 && c.difference == c.bestSize - newsize
      modifies mem, this`B, this`fl
      ensures HeapOK(mem[..], brk, B, fl) && ptr == c.best + 1
      ensures c.best !in old(Alloc(B)) && Alloc(B) == old(Alloc(B))[c.best := newsize]
      ensures Keeps(old(mem[..]), mem[..], old(Alloc(B)))
    {
      hide *;
      var best := c.best;
      ghost var m0 := mem[..];
      TakeLinks(mem[..], brk, B, fl, best, c.bestSize, c.bestPred, c.bestSucc);
      ListDeleteAt(c.bestPred, c.bestSucc, i);
      fl := fl[i := Without(fl[i], best)];
      ghost var m1 := mem[..];
      PendingSizes(m1, brk, B, fl, best);
      ghost var A := Alloc(B);
      AddTags(best, 1, newsize, 0, 0);
      if c.bestSize - newsize >= 4 {
        AddTags(best + newsize, 0, c.difference, 0, 0);
        PlaceSplit(m1, brk, B, fl, best, newsize);
        B := Carved(B, best, newsize, false, true);
        KeepsTransitive(m0, m1, mem[..], A);
        ghost var m2 := mem[..];
        ListPending(m2, brk, B, fl, best + newsize);
        ListAddAt(best + newsize, GetIndex(c.difference));
        fl := fl[GetIndex(c.difference) := [best + newsize] + fl[GetIndex(c.difference)]];
        KeepsFewer(m2, mem[..], Alloc(B), A);
        KeepsTransitive(m0, m2, mem[..], A);
      } else if c.bestSize > newsize {
        AddTags(best + newsize, 0, c.difference, 0, 0);
        PlaceSplit(m1, brk, B, fl, best, newsize);
        B := Carved(B, best, newsize, false, true);
        KeepsTransitive(m0, m1, mem[..], A);
        SmallNeedsNoList(mem[..], brk, B, fl, best + newsize);
      } else {
        PlaceExact(m1, brk, B, fl, best);
        B := Fused(B, best, best + newsize, false);
        KeepsTransitive(m0, m1, mem[..], A);
      }
      return best + 1;
    }

    /** mem_sbrk: the words from the old break up to the new one. */
    method Sbrk(incr: nat) returns (p: nat)
      requires brk + incr <= mem.Length
      modifies this`brk
      ensures p == old(brk) && brk == p + incr
    {
      p := brk;
      brk := brk + incr;
    }

    /** malloc past the slabs: the smallest free block that fits, or else new memory. */
    method MallocBlock(size: nat) returns (ptr: nat)
      requires HeapOK(mem[..], brk, B, fl) && Fits(Alloc(B), brk, BlockWords(size), mem.Length)
      requires size >= 1 || FIRST < brk
      modifies mem, this`brk, this`B, this`fl
      ensures HeapOK(mem[..], brk, B, fl)
      ensures Malloced(old(mem[..]), old(brk), old(B), mem[..], brk, B, ptr, BlockWords(size))
    {
      hide *;
      var newsize := BlockWords(size);
      ghost var m0, A := mem[..], Alloc(B);
      BlockWordsRange(size);
      LengthAtMost(m0, brk, B, fl);
      StartAtIndex(m0, brk, B, fl, newsize);
      var i := GetIndex(newsize);
      while i < LISTS
        invariant newsize >= 4 ==> i <= LISTS && NoFit(B, i, newsize)
        invariant newsize < 4 ==> i >= LISTS
        invariant HeapOK(m0, brk, B, fl) && mem[..] == m0
        invariant brk == old(brk) && B == old(B) && fl == old(fl)
      {
        var c := BestInList(i, newsize);
        NextList(m0, brk, B, fl, i, newsize, c.best);
        if c.best != 0 {
          LinksFacts(m0, B, c.best, c.bestSize, c.bestPred, c.bestSucc);
          ptr := Place(c, i, newsize);
          FoundIsMalloced(m0, old(brk), old(B), mem[..], B, c.best, newsize);
          return;
        }
        i := i + 1;
      }
      NothingFits(m0, brk, B, fl, newsize);
      Grow(m0, brk, B, fl, newsize);
      ghost var a := brk;
      ptr := Sbrk(newsize);
      assert mem[..] == m0;
      ptr := ptr + 1;
      AddTags(ptr - 1, 1, newsize, 0, 0);
      assert mem[..] == TagBlock(m0, a, Blk(newsize, false));
      B := B[a := Blk(newsize, false)];
      assert Keeps(m0, mem[..], A);
    }

    // ---------- free on the block heap ----------

    /** in_heap, on byte addresses. */
    function InHeap(p: int): bool
      reads this
    {
      p <= 8 * brk - 1 && p >= 0
    }

    /** free's guarded listDelete of a neighbour x of the given size and links; size 0 if there is none. */
    method Unlist(pred: nat, succ: nat, size: nat, ghost x: nat, ghost det: set<nat>)
      requires Loose(mem[..], brk, B, fl, det)
      requires size > 0 ==> x in B && B[x].free && x !in det && size == B[x].size
      requires size > 2 ==> x + 2 < mem.Length && pred == mem[x + 1] && succ == mem[x + 2]
      modifies mem, this`fl
      ensures Loose(mem[..], brk, B, fl, if size == 0 then det else det + {x})
      ensures Keeps(old(mem[..]), mem[..], Alloc(B))
      ensures size <= 2 ==> mem[..] == old(mem[..])
    {
      hide *;
      if size > 2 {
        LooseSizes(mem[..], brk, B, fl, det, x);
        IsListable(B, det, x);
        Take(mem[..], brk, B, fl, det, x);
        ListDeleteAt(pred, succ, GetIndex(size));
        fl := fl[GetIndex(size) := Without(fl[GetIndex(size)], x)];
      } else {
        if size > 0 { SmallIsLoose(mem[..], brk, B, fl, det, x); }
        KeepsSame(mem[..], Alloc(B));
      }
    }

    /** free's addTags on the coalesced block [lo, lo + size). */
    method TagFreed(lo: nat, size: nat, ghost det: set<nat>, ghost b: nat)
      requires Loose(mem[..], brk, B, fl, det)
      requires Span(B, brk, b, lo, lo + size) && OffLists(B, det, lo, lo + size)
      modifies mem, this`B
      ensures Pending(mem[..], brk, B, fl, lo) && lo in B && B[lo].size == size != 3
      ensures size > 2 ==> lo + 1 < mem.Length && mem[lo + 1] == 0
      ensures Alloc(B) == old(Alloc(B)) - {b} && Keeps(old(mem[..]), mem[..], Alloc(B))
    {
      hide *;
      Release(mem[..], brk, B, fl, det, b, lo, lo + size);
      AddTags(lo, 0, size, 0, 0);
      B := Fused(B, lo, lo + size, true);
      PendingSizes(mem[..], brk, B, fl, lo);
    }

    /** free's listAdd of the coalesced block. */
    method ListFreed(lo: nat, size: nat)
      requires Pending(mem[..], brk, B, fl, lo) && lo in B && 4 <= size == B[lo].size
      requires lo + 1 < mem.Length && mem[lo + 1] == 0
      modifies mem, this`fl
      ensures HeapOK(mem[..], brk, B, fl) && Keeps(old(mem[..]), mem[..], Alloc(B))
    {
      hide *;
      ListPending(mem[..], brk, B, fl, lo);
      ListAddAt(lo, GetIndex(size));
      fl := fl[GetIndex(size) := [lo] + fl[GetIndex(size)]];
    }

    /** free's look at the footer before the block. */
    method ReadPrev(ptr: nat, ghost det: set<nat>)
      returns (isPreValid: nat, preSize: nat, prePred: nat, preSucc: nat)
      requires Loose(mem[..], brk, B, fl, det) && 1 <= ptr && ptr - 1 in B
      ensures PrevRead(mem[..], B, ptr - 1, isPreValid, preSize, prePred, preSucc)
    {
      hide Loose, TagSize, TagValid, SpanLo;
      Before(mem[..], brk, B, fl, det, ptr - 1);
      InsideHeap(mem[..], brk, B, fl, det, ptr - 1);
      isPreValid, preSize, prePred, preSucc := 1, 0, 0, 0;
      if InHeap(8 * ptr - 17) {
        isPreValid, preSize, prePred, preSucc := GetBlockInfo(0, ptr - 1);
      }
    }

    /** free's look at the header after the block. */
    method ReadNext(ptr: nat, size: nat)
      returns (isPostValid: nat, postSize: nat, postPred: nat, postSucc: nat)
      requires Loose(mem[..], brk, B, fl, {}) && 1 <= ptr && ptr - 1 in B && size == B[ptr - 1].size
      ensures NextRead(mem[..], B, ptr - 1, isPostValid, postSize, postPred, postSucc)
    {
      hide Loose, TagSize, TagValid;
      ghost var b := ptr - 1;
      After(mem[..], brk, B, fl, {}, b);
      InsideHeap(mem[..], brk, B, fl, {}, b);
      isPostValid, postSize, postPred, postSucc := 1, 0, 0, 0;
      if InHeap(8 * (ptr + size)) {
        isPostValid, postSize, postPred, postSucc := GetBlockInfo(ptr + size - 1, 0);
      }
    }

    /** free's last two calls, where the block is known to be larger than 16 bytes. */
    method TagAndList(lo: nat, size: nat, ghost det: set<nat>, ghost b: nat)
      requires Loose(mem[..], brk, B, fl, det) && size >= 4
      requires Span(B, brk, b, lo, lo + size) && OffLists(B, det, lo, lo + size)
      modifies mem, this`B, this`fl
      ensures HeapOK(mem[..], brk, B, fl)
      ensures Alloc(B) == old(Alloc(B)) - {b} && Keeps(old(mem[..]), mem[..], Alloc(B))
    {
      hide *;
      TagFreed(lo, size, det, b);
      ghost var m1 := mem[..];
      ListFreed(lo, size);
      KeepsTransitive(old(mem[..]), m1, mem[..], Alloc(B));
    }

    /** free when the block before is free, or there is none. */
    method CoalesceWithPrev(ptr: nat, blockSize: nat, preSize: nat, pred: nat, succ: nat,
                            isPostValid: nat, postSize: nat, postPred: nat, postSucc: nat)
      requires Loose(mem[..], brk, B, fl, {}) && 1 <= ptr && ptr - 1 in B && !B[ptr - 1].free
      requires blockSize == B[ptr - 1].size
      requires PrevRead(mem[..], B, ptr - 1, 0, preSize, pred, succ)
      requires NextRead(mem[..], B, ptr - 1, isPostValid, postSize, postPred, postSucc)
      modifies mem, this`B, this`fl
      ensures HeapOK(mem[..], brk, B, fl)
      ensures Alloc(B) == old(Alloc(B)) - {ptr - 1} && Keeps(old(mem[..]), mem[..], Alloc(B))
    {
      hide *;
      ghost var b, nx := ptr - 1, ptr - 1 + blockSize;
      ghost var m0, A := mem[..], Alloc(B);
      ghost var det: set<nat> := {};
      var size, prePred, preSucc := blockSize, pred, succ;
      SpanFacts(m0, brk, B, fl, b, 0, preSize, pred, succ, isPostValid, postSize, postPred, postSucc);
      KeepsSame(m0, A);
      if isPostValid == 0 {
        size := size + postSize;
        Unlist(postPred, postSucc, postSize, nx, det);
        det := det + {nx};
        if postSize > 2 {
          var isPreValid, preSize';
          isPreValid, preSize', prePred, preSucc := ReadPrev(ptr, det);
          SamePrev(mem[..], B, b, preSize, isPreValid, preSize', prePred, preSucc);
        }
      }
      ghost var m1 := mem[..];
      size := size + preSize;
      PrevLinks(m1, B, b, preSize, prePred, preSucc);
      Unlist(prePred, preSucc, preSize, b - preSize, det);
      det := if preSize == 0 then det else det + {b - preSize};
      ghost var m2 := mem[..];
      KeepsTransitive(m0, m1, m2, A);
      LooseAround(m2, brk, B, fl, b, det);
      TagAndList(ptr - 1 - preSize, size, det, b);
      KeepsFewer(m0, m2, A, Alloc(B));
      KeepsTransitive(m0, m2, mem[..], Alloc(B));
    }

    /** free when only the block after is free, or no neighbour is. */
    method CoalesceWithNext(ptr: nat, blockSize: nat,
                            isPostValid: nat, postSize: nat, postPred: nat, postSucc: nat)
      requires Loose(mem[..], brk, B, fl, {}) && 1 <= ptr && ptr - 1 in B && !B[ptr - 1].free
      requires blockSize == B[ptr - 1].size
      requires PrevRead(mem[..], B, ptr - 1, 1, 0, 0, 0)
      requires NextRead(mem[..], B, ptr - 1, isPostValid, postSize, postPred, postSucc)
      modifies mem, this`B, this`fl
      ensures HeapOK(mem[..], brk, B, fl)
      ensures Alloc(B) == old(Alloc(B)) - {ptr - 1} && Keeps(old(mem[..]), mem[..], Alloc(B))
    {
      hide *;
      ghost var b, nx := ptr - 1, ptr - 1 + blockSize;
      ghost var m0, A := mem[..], Alloc(B);
      ghost var det: set<nat> := {};
      var size := blockSize;
      SpanFacts(m0, brk, B, fl, b, 1, 0, 0, 0, isPostValid, postSize, postPred, postSucc);
      if isPostValid == 0 {
        size := size + postSize;
        Unlist(postPred, postSucc, postSize, nx, det);
        det := det + {nx};
        ghost var m2 := mem[..];
        LooseAround(m2, brk, B, fl, b, det);
        TagAndList(ptr - 1, size, det, b);
        KeepsFewer(m0, m2, A, Alloc(B));
        KeepsTransitive(m0, m2, mem[..], Alloc(B));
      } else {
        LooseAround(m0, brk, B, fl, b, det);
        TagFreed(ptr - 1, size, det, b);
        ghost var m2 := mem[..];
        if size > 2 {
          ListFreed(ptr - 1, size);
          KeepsTransitive(m0, m2, mem[..], Alloc(B));
        } else {
          SmallNeedsNoList(mem[..], brk, B, fl, ptr - 1);
        }
      }
    }

    /** free past the slabs: coalesces an allocated block with its free neighbours.
        A pointer to a block that is already free is ignored. */
    method FreeBlock(ptr: nat)
      requires HeapOK(mem[..], brk, B, fl) && 1 <= ptr && ptr - 1 in B
      modifies mem, this`B, this`fl
      ensures HeapOK(mem[..], brk, B, fl)
      ensures Alloc(B) == old(Alloc(B)) - {ptr - 1}
      ensures Keeps(old(mem[..]), mem[..], Alloc(B))
      ensures old(ptr - 1 in B && B[ptr - 1].free) ==> mem[..] == old(mem[..]) && B == old(B)
    {
      hide *;
      ghost var b, m0 := ptr - 1, mem[..];
      ReadBlock(m0, brk, B, fl, b);
      LooseIsOK(m0, brk, B, fl);
      var isValid, size, pred, succ := GetBlockInfo(ptr - 1, 0);
      if isValid == 1 {
        var isPreValid, preSize, prePred, preSucc := ReadPrev(ptr, {});
        var isPostValid, postSize, postPred, postSucc := ReadNext(ptr, size);
        PrevIsBit(m0, B, b, isPreValid, preSize, prePred, preSucc);
        if isPreValid == 0 {
          CoalesceWithPrev(ptr, size, preSize, prePred, preSucc, isPostValid, postSize, postPred, postSucc);
        } else {
          CoalesceWithNext(ptr, size, isPostValid, postSize, postPred, postSucc);
        }
      } else {
        KeepsSame(m0, Alloc(B));
        NotAllocated(B, b);
      }
    }

    // ---------- slabs ----------

    /** The inner loop of slabAdd: the first free slot of slab t, or 0. */
    method TakeSlot(t: nat) returns (ptr: nat, ghost k: nat)
      requires AllocatorOK(mem[..], brk, B, fl, live) && t < SLABS && Table(mem[..], t) != 0
      modifies mem, this`live
      ensures AllocatorOK(mem[..], brk, B, fl, live)
      ensures ptr == 0 ==> mem[..] == old(mem[..]) && live == old(live) && SlabFull(mem[..], t)
      ensures ptr != 0 ==>
        && FirstFree(old(mem[..]), t, k) && ptr == SlotPtr(old(mem[..]), t, k)
        && ptr !in old(live) && live == old(live)[ptr := SlotWords(t)]
        && LiveKept(old(mem[..]), mem[..], old(live))
        && SlotsKept(old(mem[..]), mem[..])
    {
      hide AllocatorOK, HeapOK, SlabsOK, LiveOK, Apart, SlotsKept, FullBefore, FirstFree, LiveKept, LiveSlot,
           Bit, Pow2, FloorLog2, FindFirst0, Alloc, BackingSize;
      ghost var m0 := mem[..];
      Parts(m0, brk, B, fl, live);
      NothingBefore0(m0, t);
      var s, num := mem[SLABS16 + t], Maps(t);
      for j := 0 to num
        invariant mem[..] == m0 && live == old(live)
        invariant FullBefore(m0, t, 64 * j)
      {
        SlotBit(m0, Alloc(B), t, 64 * j);
        var bitmap: nat := mem[s + j];
        if bitmap != FULL {
          var first0 := FindFirst0(FULL - bitmap);
          k := FreeBitIsFirst(m0, Alloc(B), t, j, first0);
          SlotSet(m0, brk, B, fl, live, t, k);
          MapKeepsSlots(m0, Alloc(B), brk, t, j, bitmap + Pow2(first0));
          bitmap := bitmap + Pow2(first0);
          mem[s + j] := bitmap;
          assert mem[..] == m0[s + j := bitmap];
          ptr := s + num + SlotOffset(t, 64 * j) + SlotOffset(t, 63 - first0);
          live := live[ptr := SlotWords(t)];
          return;
        }
        FullMap(m0, Alloc(B), t, j);
      }
      ptr, k := 0, 0;
    }

    /** The table entry of a new slab, and its maps: only the first slot is taken. */
    method InitMaps(t: nat, s: nat)
      requires t < SLABS && FIRST < s && s + Maps(t) < mem.Length
      modifies mem
      ensures Made(old(mem[..]), mem[..], t, s)
    {
      hide Pow2;
      ghost var m1 := mem[..];
      mem[SLABS16 + t] := s;
      mem[s] := Pow2(63);
      for j := 1 to Maps(t)
        invariant MadeUpTo(m1, mem[..], t, s, j)
      {
        mem[s + j] := 0;
      }
      MadeAll(m1, mem[..], t, s);
    }

    /** A fresh block becomes slab t, its first slot handed out. */
    method MakeSlab(t: nat, s: nat) returns (ptr: nat)
      requires AllocatorOK(mem[..], brk, B, fl, live) && ClientBlock(mem[..], Alloc(B), s)
      requires t < SLABS && FIRST <= mem.Length && Table(mem[..], t) == 0 && Alloc(B)[s - 1] == BackingSize(t)
      modifies mem, this`live
      ensures AllocatorOK(mem[..], brk, B, fl, live)
      ensures ptr !in old(live) && live == (old(live) - {s})[ptr := SlotWords(t)]
      ensures LiveKept(old(mem[..]), mem[..], old(live) - {s}) && SlotsKept(old(mem[..]), mem[..])
      ensures s != 0 && Table(mem[..], t) == s && ptr == SlotPtr(mem[..], t, 0) != 0
    {
      hide *;
      ghost var m1 := mem[..];
      Parts(m1, brk, B, fl, live);
      BackingInside(m1, brk, B, fl, live, t, s);
      InitMaps(t, s);
      MadeTable(m1, mem[..], t, s);
      MadeKeepsSlots(m1, mem[..], Alloc(B), brk, t, s);
      SlabMade(m1, mem[..], brk, B, fl, live, t, s);
      ptr := s + Maps(t);
      live := (live - {s})[ptr := SlotWords(t)];
    }

    /** The last part of slabAdd: a new slab, whose first slot is handed out. */
    method NewSlab(t: nat) returns (ptr: nat)
      requires AllocatorOK(mem[..], brk, B, fl, live) && t < SLABS && Table(mem[..], t) == 0
      requires Fits(Alloc(B), brk, BackingSize(t), mem.Length)
      modifies mem, this`brk, this`B, this`fl, this`live
      ensures AllocatorOK(mem[..], brk, B, fl, live)
      ensures ptr != 0 && ptr !in old(live) && live == old(live)[ptr := SlotWords(t)]
      ensures LiveKept(old(mem[..]), mem[..], old(live)) && SlotsKept(old(mem[..]), mem[..])
      ensures FIRST <= mem.Length && Table(mem[..], t) != 0 && ptr == SlotPtr(mem[..], t, 0)
      ensures old(brk) <= brk <= old(brk) + BackingSize(t)
      ensures FitFrom(old(brk), old(B), brk, Table(mem[..], t) - 1, BackingSize(t))
    {
      hide *;
      ghost var m0, live0, brk0, B0, n := mem[..], live, brk, B, BackingSize(t);
      Parts(m0, brk, B, fl, live);
      BackingBytes(t);
      var num := Maps(t);
      var s := MallocBlock(8 * (SlotOffset(t, 64 * num) + num));
      ghost var m1 := mem[..];
      MallocedMeans(m0, brk0, B0, m1, brk, B, s, n);
      MallocedFit(m0, brk0, B0, m1, brk, B, s, n);
      FitBounds(brk0, B0, brk, s - 1, n);
      BlockMalloced(m0, brk0, B0, old(fl), live, m1, brk, B, fl, s - 1, n);
      live := live[s := n - 2];
      assert live - {s} == live0;
      KeptTables2(m0, m1, Alloc(B0));
      BlocksKeepSlots(m0, m1, Alloc(B0));
      ptr := MakeSlab(t, s);
      SlotsKeptTransitive(m0, m1, mem[..]);
      LiveKeptTransitive(m0, m1, mem[..], live0);
    }

    /** slabAdd, for slots of 2 or of 4 words: the first free slot of the highest slab that has
        one; a new slab only when every slab there is full; 0 when there is no room for one. */
    method SlabAdd(size: nat) returns (ptr: nat)
      requires AllocatorOK(mem[..], brk, B, fl, live) && (size == 2 || size == 4)
      requires FIRST <= mem.Length && SlabRoom(mem[..], Alloc(B), brk, size, mem.Length)
      modifies mem, this`brk, this`B, this`fl, this`live
      ensures AllocatorOK(mem[..], brk, B, fl, live)
      ensures ptr == 0 ==>
        && mem[..] == old(mem[..]) && brk == old(brk) && B == old(B) && live == old(live)
        && AllFull(mem[..], size) && AllPresent(mem[..], size)
      ensures ptr != 0 ==>
        && ptr !in old(live) && live == old(live)[ptr := size]
        && LiveKept(old(mem[..]), mem[..], old(live)) && SlotsKept(old(mem[..]), mem[..])
        && FIRST <= mem.Length && Served(old(mem[..]), old(brk), old(B), mem[..], brk, size, ptr)
      ensures old(brk) <= brk <= old(brk) + MAX_BACKING
    {
      hide AllocatorOK, LiveKept, Served, SlotsKept, FullBefore, SlabFull, FirstFree, SlotPtr, BackingSize;
      ghost var m0 := mem[..];
      TablesInRange(m0, brk, B, fl, live);
      var lo, hi := if size == 2 then 0 else 10, if size == 2 then 10 else SLABS;
      var toBeAlloc := false;
      for i := hi downto lo
        invariant mem[..] == m0 && live == old(live) && brk == old(brk) && B == old(B) && fl == old(fl)
        invariant forall t :: i <= t < hi && Table(m0, t) != 0 ==> SlabFull(m0, t)
        invariant toBeAlloc <==> exists t :: i <= t < hi && Table(m0, t) == 0
      {
        if mem[SLABS16 + i] != 0 {
          ghost var k;
          ptr, k := TakeSlot(i);
          if ptr != 0 {
            TakenIsServed(m0, brk, B, mem[..], size, ptr, i, k);
            return;
          }
        } else {
          toBeAlloc := true;
        }
      }
      if toBeAlloc {
        for i := lo to hi
          invariant mem[..] == m0 && live == old(live) && brk == old(brk) && B == old(B) && fl == old(fl)
          invariant forall t :: lo <= t < i ==> Table(m0, t) != 0
        {
          if mem[SLABS16 + i] == 0 {
            assert AllFull(m0, size) && MissingFirst(m0, size, i);
            ptr := NewSlab(i);
            BackingAtMost(i);
            MadeIsServed(m0, old(brk), old(B), mem[..], brk, size, ptr, i);
            return;
          }
        }
      }
      ptr := 0;
    }

    /** The range tests of free and realloc: the slab that ptr lies in, or SLABS. */
    method Route(ptr: nat) returns (t: nat)
      requires FIRST <= mem.Length
      ensures t <= SLABS && forall u :: 0 <= u < t ==> !InRange(mem[..], u, ptr)
      ensures t < SLABS ==> InRange(mem[..], t, ptr)
    {
      for i := 0 to SLABS
        invariant forall u :: 0 <= u < i ==> !InRange(mem[..], u, ptr)
      {
        var s, num := mem[SLABS16 + i], Maps(i);
        if s != 0 && ptr > s && ptr < s + SlotOffset(i, 64 * num) + num {
          return i;
        }
      }
      return SLABS;
    }

    /** slabDelete's loop: are all maps of the slab at s zero? */
    method AllZero(s: nat, num: nat) returns (isFree: bool)
      requires s + num <= mem.Length
      ensures isFree <==> forall j :: s <= j < s + num ==> mem[j] == 0
    {
      for i := 0 to num
        invariant forall j :: s <= j < s + i ==> mem[j] == 0
      {
        if mem[s + i] != 0 { return false; }
      }
      return true;
    }

    /** slabDelete's last step: free( slab ) past the range tests, none of which it meets, and the table entry. */
    method Dissolve(t: nat, ghost k: nat, ghost m0: seq<nat>)
      requires AllocatorOK(m0, brk, B, fl, live) && t < SLABS && FIRST <= |m0| && LiveSlot(m0, t, k)
      requires HeapOK(mem[..], brk, B, fl) && LiveKept(m0, mem[..], live) && mem.Length == |m0|
      requires forall u :: 0 <= u < SLABS ==> Table(mem[..], u) == Table(m0, u)
      requires forall u :: 0 <= u < SLABS && u != t ==> SlabOK(mem[..], Alloc(B), u)
      requires forall u: nat, j: nat :: LiveSlot(mem[..], u, j) <==> LiveSlot(m0, u, j) && !(u == t && j == k)
      requires forall j: nat :: !LiveSlot(mem[..], t, j)
      modifies mem, this`B, this`fl, this`live
      ensures AllocatorOK(mem[..], brk, B, fl, live)
      ensures SlotPtr(m0, t, k) in old(live) && live == old(live) - {SlotPtr(m0, t, k)}
      ensures LiveKept(m0, mem[..], live) && OthersStay(m0, mem[..], t)
      ensures Table(mem[..], t) == 0 && Alloc(B) == old(Alloc(B)) - {Table(m0, t) - 1}
    {
      hide AllocatorOK, HeapOK, SlabsOK, LiveOK, Apart, SlabOK, LiveKept, LiveSlot, SlotPtr, Bit, Alloc, BackingSize,
           ClientBlock, Keeps, InRange;
      ghost var m1, live0, p := mem[..], live, SlotPtr(m0, t, k);
      var slab := mem[SLABS16 + t];
      BackingBytes(t);
      ghost var n: nat := BackingSize(t) - 2;
      Parts(m0, brk, B, fl, live);
      LiveSlotRange(m0, t, k);
      SlabUnmade(m0, m1, brk, B, fl, live, t, k);
      ghost var m1' := m1[SLABS16 + t := 0];
      UnmadeRoutes(m0, m1, Alloc(B), brk, slab, t);
      ClientIsBlock(m1', B, slab);
      var r := Route(slab);
      assert r == SLABS;
      ghost var B0, fl0 := B, fl;
      FreeBlock(slab);
      ghost var m2 := mem[..];
      mem[SLABS16 + t] := 0;
      assert mem[..] == m2[SLABS16 + t := 0];
      UnmadeHeap(m2, brk, B, fl, t);
      KeepsWithoutEntry(m1, m2, Alloc(B), t);
      BlockFreed(m1', brk, B0, fl0, (live0 - {p})[slab := n], mem[..], B, fl, slab);
      live := live - {p};
      assert (live0 - {p})[slab := n] - {slab} == live0 - {p};
      LiveKeptTransitive(m0, m1', mem[..], live);
    }

    /** slabDelete: clears the slot's bit, and frees the slab with its last slot. */
    method SlabDelete(addr: nat, t: nat, ghost k: nat)
      requires AllocatorOK(mem[..], brk, B, fl, live) && SlotAt(mem[..], t, k, addr)
      modifies mem, this`B, this`fl, this`live
      ensures AllocatorOK(mem[..], brk, B, fl, live)
      ensures addr in old(live) && live == old(live) - {addr}
      ensures LiveKept(old(mem[..]), mem[..], live) && OthersStay(old(mem[..]), mem[..], t)
      ensures mem.Length >= FIRST && t < SLABS
      ensures Table(mem[..], t) == 0 <==> forall j: nat :: LiveSlot(old(mem[..]), t, j) ==> j == k
      ensures Table(mem[..], t) == 0 ==>
        0 <= Table(old(mem[..]), t) - 1 && Alloc(B) == old(Alloc(B)) - {Table(old(mem[..]), t) - 1}
      ensures Table(mem[..], t) != 0 ==>
        && SlotsKept(old(mem[..]), mem[..]) && brk == old(brk) && B == old(B)
        && forall u :: 0 <= u < SLABS ==> Table(mem[..], u) == Table(old(mem[..]), u)
    {
      hide *;
      ghost var m0, live0 := mem[..], live;
      Parts(m0, brk, B, fl, live);
      DeleteStart(m0, brk, B, fl, live, t, k, addr);
      var num, s := Maps(t), mem[SLABS16 + t];
      AddressInverse(t, k);
      var mapIndex := MapIndex(t, addr - s - num);
      var tmp := Pow2(63 - SlotInMap(t, addr - s - num));
      SlotClear(m0, brk, B, fl, live, t, k);
      mem[s + mapIndex] := mem[s + mapIndex] - tmp;
      ghost var m1 := mem[..];
      assert m1 == m0[s + k / 64 := m0[s + k / 64] - tmp];
      var isFree := AllZero(s, num);
      if isFree {
        ZeroMapsDead(m1, t);
        Dissolve(t, k, m0);
      } else {
        OneSlotLess(m0, m1, t, k);
        live := live - {addr};
        SomeSlotLeft(m1, brk, B, fl, live, t);
        MapKeepsSlots(m0, Alloc(B), brk, t, k / 64, m0[s + k / 64] - tmp);
        LiveKeptFewer(m0, m1, live0, live);
      }
    }

    // ---------- malloc and free ----------

    /** malloc: a slot for at most 32 bytes if the slabs have room, else a block. */
    method Malloc(size: nat) returns (ptr: nat)
      requires AllocatorOK(mem[..], brk, B, fl, live)
      requires FIRST <= mem.Length && CanServe(mem[..], Alloc(B), brk, size, mem.Length)
      modifies mem, this`brk, this`B, this`fl, this`live
      ensures AllocatorOK(mem[..], brk, B, fl, live)
      ensures ptr != 0 && ptr !in old(live)
      ensures live == old(live)[ptr := MallocWords(old(mem[..]), size)]
      ensures LiveKept(old(mem[..]), mem[..], old(live)) && SlotsKept(old(mem[..]), mem[..])
      ensures FoundIn(old(mem[..]), old(brk), old(B), mem[..], brk, size, ptr)
      ensures old(brk) <= brk <= old(brk) + Room(size)
    {
      hide *;
      ghost var m0, brk0, B0, fl0 := mem[..], brk, B, fl;
      ptr := 0;
      if size <= 16 {
        SlabServes(m0, Alloc(B), brk, size, mem.Length);
        ptr := SlabAdd(2);
      } else if size <= 32 {
        SlabServes(m0, Alloc(B), brk, size, mem.Length);
        ptr := SlabAdd(4);
      }
      if ptr != 0 {
        FoundSlot(m0, brk0, B0, mem[..], brk, size, ptr);
        return;
      }
      Parts(m0, brk, B, fl, live);
      BlockServes(m0, brk, B, fl, size, mem.Length);
      ptr := MallocBlock(size);
      ghost var n := BlockWords(size);
      MallocedMeans(m0, brk0, B0, mem[..], brk, B, ptr, n);
      MallocedFit(m0, brk0, B0, mem[..], brk, B, ptr, n);
      FoundBlock(m0, brk0, B0, mem[..], brk, size, ptr);
      BlockMalloced(m0, brk0, B0, fl0, live, mem[..], brk, B, fl, ptr - 1, n);
      BlocksKeepSlots(m0, mem[..], Alloc(B0));
      live := live[ptr := n - 2];
    }

    /** free: a slot goes back to its slab, a block to the free lists; NULL is ignored. */
    method Free(ptr: nat)
      requires AllocatorOK(mem[..], brk, B, fl, live) && (ptr == 0 || ptr in live)
      modifies mem, this`B, this`fl, this`live
      ensures AllocatorOK(mem[..], brk, B, fl, live)
      ensures ptr == 0 ==> mem[..] == old(mem[..]) && live == old(live)
      ensures ptr != 0 ==> live == old(live) - {ptr} && Alloc(B) == AfterFree(old(mem[..]), old(Alloc(B)), ptr)
      ensures ptr != 0 && ClientBlock(old(mem[..]), old(Alloc(B)), ptr) ==> OthersStay(old(mem[..]), mem[..], SLABS)
      ensures LiveKept(old(mem[..]), mem[..], live)
    {
      hide AllocatorOK, LiveKept, SlotsKept, HeapOK, SlabsOK, LiveOK, Apart, Alloc, InRange, LiveSlot, SlotPtr,
        ClientBlock, Keeps;
      ghost var m0, B0, fl0 := mem[..], B, fl;
      LiveKeptSame(m0, live);
      if ptr == 0 { return; }
      Parts(m0, brk, B, fl, live);
      var t := Route(ptr);
      assert mem[..] == m0;
      RouteMeans(m0, Alloc(B), brk, live, ptr, t);
      if t < SLABS {
        ghost var k :| SlotAt(m0, t, k, ptr);
        AfterFreeSlot(m0, Alloc(B), brk, t, k, ptr);
        SlabDelete(ptr, t, k);
        return;
      }
      ClientIsBlock(m0, B, ptr);
      FreeBlock(ptr);
      BlockFreed(m0, brk, B0, fl0, live, mem[..], B, fl, ptr);
      AfterFreeBlock(m0, Alloc(B0), brk, ptr);
      live := live - {ptr};
    }

    // ---------- realloc ----------

    /** realloc: the new pointer takes the place of the old one, with the old contents up to the
        smaller of the two sizes; for a slot that has to move, only when its slab keeps another slot. */
    method Realloc(oldptr: nat, size: nat) returns (ptr: nat)
      requires AllocatorOK(mem[..], brk, B, fl, live)
      requires oldptr == 0 || (oldptr in live && CanResize(mem[..], brk, B, live, oldptr, size, mem.Length))
      modifies mem, this`brk, this`B, this`fl, this`live
      ensures AllocatorOK(mem[..], brk, B, fl, live)
      ensures oldptr == 0 ==> ptr == 0 && mem[..] == old(mem[..]) && brk == old(brk) && live == old(live)
      ensures oldptr != 0 ==>
        Reallocated(old(mem[..]), old(brk), old(B), old(live), oldptr, size, mem[..], brk, B, fl, live, ptr)
    {
      hide AllocatorOK, LiveKept, SlotsKept, HeapOK, SlabsOK, LiveOK, Apart, Alloc, InRange, LiveSlot, SlotPtr,
           ClientBlock, SameBytes, SharesSlab;
      ghost var m0 := mem[..];
      ptr := 0;
      if oldptr == 0 { return; }
      Parts(m0, brk, B, fl, live);
      LiveInside(m0, brk, B, fl, live, oldptr);
      if InHeap(8 * oldptr) {
        var t := Route(oldptr);
        assert mem[..] == m0;
        RouteMeans(m0, Alloc(B), brk, live, oldptr, t);
        if t < SLABS {
          ptr := ReallocSlot(oldptr, size, t);
        } else {
          ptr := ReallocBlock(oldptr, size);
        }
      }
    }

    /** realloc of a pointer into slab t. */
    method ReallocSlot(oldptr: nat, size: nat, t: nat) returns (ptr: nat)
      requires AllocatorOK(mem[..], brk, B, fl, live) && oldptr in live && !ClientBlock(mem[..], Alloc(B), oldptr)
      requires CanResize(mem[..], brk, B, live, oldptr, size, mem.Length)
      requires t < SLABS && exists k: nat :: SlotAt(mem[..], t, k, oldptr)
      modifies mem, this`brk, this`B, this`fl, this`live
      ensures AllocatorOK(mem[..], brk, B, fl, live)
      ensures ptr !in old(live) - {oldptr}
      ensures live == (old(live) - {oldptr})[ptr := ReallocWords(old(mem[..]), Alloc(old(B)), oldptr, size)]
      ensures LiveKept(old(mem[..]), mem[..], old(live) - {oldptr})
      ensures ContentsMove(old(mem[..]), Alloc(old(B)), old(live), oldptr, size) ==>
        SameBytes(old(mem[..]), oldptr, mem[..], ptr, Min(8 * old(live)[oldptr], size))
      ensures if StaysPut(old(mem[..]), Alloc(old(B)), old(live), oldptr, size) then ptr == oldptr && brk == old(brk)
              else Relocated(old(brk), old(live), oldptr, mem[..], brk, B, fl, live, ptr, size)
      ensures old(brk) <= brk <= old(brk) + Room(size)
    {
      hide *;
      ghost var m0, A0 := mem[..], Alloc(B);
      ghost var k :| SlotAt(m0, t, k, oldptr);
      SlotLive(m0, brk, B, fl, live, t, k, oldptr);
      SlotStaysPut(m0, A0, live, t, oldptr, size);
      if t < 10 {
        if size <= 16 {
          StaysHere(m0, live, oldptr, size);
          return oldptr;
        }
      } else {
        if size > 16 && size <= 32 {
          StaysHere(m0, live, oldptr, size);
          return oldptr;
        }
      }
      ptr := MoveSlot(oldptr, size, t, k);
    }

    /** realloc's free, malloc and copy of a slot. */
    method MoveSlot(oldptr: nat, size: nat, t: nat, ghost k: nat) returns (ptr: nat)
      requires AllocatorOK(mem[..], brk, B, fl, live) && oldptr in live && !ClientBlock(mem[..], Alloc(B), oldptr)
      requires CanResize(mem[..], brk, B, live, oldptr, size, mem.Length)
      requires SlotAt(mem[..], t, k, oldptr) && live[oldptr] == SlotWords(t) && oldptr + SlotWords(t) <= mem.Length
      requires !StaysPut(mem[..], Alloc(B), live, oldptr, size)
      modifies mem, this`brk, this`B, this`fl, this`live
      ensures AllocatorOK(mem[..], brk, B, fl, live)
      ensures ptr !in old(live) - {oldptr}
      ensures live == (old(live) - {oldptr})[ptr := ReallocWords(old(mem[..]), Alloc(old(B)), oldptr, size)]
      ensures LiveKept(old(mem[..]), mem[..], old(live) - {oldptr})
      ensures SharesSlab(old(mem[..]), oldptr) ==>
        SameBytes(old(mem[..]), oldptr, mem[..], ptr, Min(8 * old(live)[oldptr], size))
      ensures Relocated(old(brk), old(live), oldptr, mem[..], brk, B, fl, live, ptr, size)
      ensures old(brk) <= brk <= old(brk) + Room(size)
    {
      hide *;
      ghost var m0, live0, brk0, B0, fl0 := mem[..], live, brk, B, fl;
      Parts(m0, brk, B, fl, live);
      AfterFreeSlot(m0, Alloc(B), brk, t, k, oldptr);
      SlabDelete(oldptr, t, k);
      ghost var m1, live1, B1, fl1 := mem[..], live, B, fl;
      MoveFits(m0, m1, brk, B0, Alloc(B1), live0, t, oldptr, size, mem.Length);
      ptr := Malloc(size);
      ghost var m2 := mem[..];
      LiveInside(m2, brk, B, fl, live, ptr);
      var words := CopyWidth(SlotWords(t), size);
      CopyWords(mem, ptr, oldptr, words);
      IsRelocated(m1, B1, fl1, m2, brk0, live0, oldptr, mem[..], brk, B, fl, live, ptr, size);
      RestoredWithin(m2, mem[..], ptr, live[ptr], words);
      PayloadWritten(m2, mem[..], brk, B, fl, live, ptr);
      LiveKeptFewer(m2, mem[..], live - {ptr}, live1);
      LiveKeptTransitive(m0, m1, m2, live1);
      LiveKeptTransitive(m0, m2, mem[..], live1);
      if SharesSlab(m0, oldptr) {
        SharedStays(m0, brk0, B0, fl0, live0, t, k, oldptr);
        SlotsKeptTransitive(m0, m1, m2);
        SlotContents(m0, m2, brk, B, fl, live, t, k, oldptr, ptr, words);
        CopiedApart(m2, oldptr, mem[..], ptr, words);
        SameBytesTransitive(m0, oldptr, m2, oldptr, mem[..], ptr, 8 * words);
        SameBytesFewer(m0, oldptr, mem[..], ptr, words, Min(8 * live0[oldptr], size));
      }
    }

    /** realloc of a block pointer: nothing to do, shrink in place, or move. */
    method ReallocBlock(oldptr: nat, size: nat) returns (ptr: nat)
      requires AllocatorOK(mem[..], brk, B, fl, live) && oldptr in live && ClientBlock(mem[..], Alloc(B), oldptr)
      requires CanResize(mem[..], brk, B, live, oldptr, size, mem.Length)
      modifies mem, this`brk, this`B, this`fl, this`live
      ensures AllocatorOK(mem[..], brk, B, fl, live)
      ensures ptr !in old(live) - {oldptr}
      ensures live == (old(live) - {oldptr})[ptr := BlockWords(size) - 2]
      ensures LiveKept(old(mem[..]), mem[..], old(live) - {oldptr})
      ensures SameBytes(old(mem[..]), oldptr, mem[..], ptr, Min(8 * old(live)[oldptr], size))
      ensures BlockWords(size) - 2 <= old(live)[oldptr] ==> ptr == oldptr && brk == old(brk)
      ensures old(brk) <= brk <= old(brk) + Room(size)
    {
      hide *;
      ghost var m0 := mem[..];
      ptr := 0;
      BlockResize(m0, brk, B, live, oldptr, size, mem.Length);
      Parts(m0, brk, B, fl, live);
      BlockIsLive(m0, brk, B, fl, live, oldptr);
      BlockWordsRange(size);
      var isOldValid, oldsize, _, _ := GetBlockInfo(oldptr - 1, 0);
      if isOldValid == 1 {
        var newsize := BlockWords(size);
        if oldsize == newsize {
          StaysHere(m0, live, oldptr, size);
          ptr := oldptr;
        } else if oldsize > newsize {
          ShrinkBlock(oldptr, oldsize, size);
          ptr := oldptr;
        } else {
          ptr := MoveBlock(oldptr, oldsize, size);
        }
      }
    }

    /** realloc when the old block is larger: its tail is freed, its contents written back. */
    method ShrinkBlock(oldptr: nat, oldsize: nat, size: nat)
      requires AllocatorOK(mem[..], brk, B, fl, live) && oldptr in live && (size >= 1 || oldptr != FIRST + 1)
      requires ClientBlock(mem[..], Alloc(B), oldptr) && 1 <= oldptr && oldptr - 1 in B && !B[oldptr - 1].free
      requires oldsize == B[oldptr - 1].size > BlockWords(size) && oldsize % 2 == 0
      requires live[oldptr] == oldsize - 2
      modifies mem, this`B, this`fl, this`live
      ensures AllocatorOK(mem[..], brk, B, fl, live)
      ensures live == (old(live) - {oldptr})[oldptr := BlockWords(size) - 2]
      ensures LiveKept(old(mem[..]), mem[..], old(live) - {oldptr})
      ensures SameBytes(old(mem[..]), oldptr, mem[..], oldptr, size)
    {
      hide *;
      ghost var m0, live0 := mem[..], live;
      BlockWordsRange(size);
      LiveInside(m0, brk, B, fl, live, oldptr);
      var newsize := BlockWords(size);
      var temp := SaveBytes(mem, oldptr, size);
      Shrink(oldptr, oldsize, newsize);
      ghost var m1 := mem[..];
      RestoreBytes(mem, oldptr, temp, size);
      RestoredWithin(m1, mem[..], oldptr, newsize - 2, (size + 7) / 8);
      PayloadWritten(m1, mem[..], brk, B, fl, live, oldptr);
      SameBytesTransitive(m0, oldptr, temp, 0, mem[..], oldptr, size);
      LiveKeptFewer(m1, mem[..], live - {oldptr}, live0 - {oldptr});
      LiveKeptTransitive(m0, m1, mem[..], live0 - {oldptr});
      assert live == (live0 - {oldptr})[oldptr := newsize - 2];
    }

    /** realloc when the old block is too small: its contents move to a new pointer. */
    method MoveBlock(oldptr: nat, oldsize: nat, size: nat) returns (ptr: nat)
      requires AllocatorOK(mem[..], brk, B, fl, live) && oldptr in live && oldptr != 0
      requires ClientBlock(mem[..], Alloc(B), oldptr)
      requires FIRST <= mem.Length && CanServe(mem[..], AfterFree(mem[..], Alloc(B), oldptr), brk, size, mem.Length)
      requires 2 <= oldsize < BlockWords(size) && live[oldptr] == oldsize - 2
      modifies mem, this`brk, this`B, this`fl, this`live
      ensures AllocatorOK(mem[..], brk, B, fl, live)
      ensures ptr !in old(live) - {oldptr}
      ensures live == (old(live) - {oldptr})[ptr := BlockWords(size) - 2]
      ensures LiveKept(old(mem[..]), mem[..], old(live) - {oldptr})
      ensures SameBytes(old(mem[..]), oldptr, mem[..], ptr, 8 * (oldsize - 2))
      ensures old(brk) <= brk <= old(brk) + Room(size)
    {
      hide *;
      ghost var m0 := mem[..];
      var bytes := 8 * (oldsize - 2);
      LiveInside(m0, brk, B, fl, live, oldptr);
      BlockWordsRange(size);
      assert size >= 1;
      var temp := SaveBytes(mem, oldptr, bytes);
      Free(oldptr);
      ghost var m1, live1 := mem[..], live;
      ServesAfter(m0, m1, Alloc(B), brk, size, mem.Length, SLABS);
      MallocWordsMeans(m1, size);
      ptr := Malloc(size);
      ghost var m2 := mem[..];
      LiveInside(m2, brk, B, fl, live, ptr);
      RestoreBytes(mem, ptr, temp, bytes);
      RestoredWithin(m2, mem[..], ptr, BlockWords(size) - 2, oldsize - 2);
      PayloadWritten(m2, mem[..], brk, B, fl, live, ptr);
      SameBytesTransitive(m0, oldptr, temp, 0, mem[..], ptr, bytes);
      LiveKeptFewer(m2, mem[..], live - {ptr}, live1);
      LiveKeptTransitive(m0, m1, m2, live1);
      LiveKeptTransitive(m0, m2, mem[..], live1);
    }

    /** realloc's shrinking: the tags of both parts, then free of the tail. */
    method Shrink(oldptr: nat, oldsize: nat, newsize: nat)
      requires AllocatorOK(mem[..], brk, B, fl, live) && oldptr in live
      requires ClientBlock(mem[..], Alloc(B), oldptr) && 1 <= oldptr && oldptr - 1 in B && !B[oldptr - 1].free
      requires oldsize == B[oldptr - 1].size && 2 <= newsize && newsize % 2 == 0 && newsize + 2 <= oldsize
      requires newsize >= 4 || oldptr != FIRST + 1
      modifies mem, this`B, this`fl, this`live
      ensures AllocatorOK(mem[..], brk, B, fl, live)
      ensures live == old(live)[oldptr := newsize - 2]
      ensures LiveKept(old(mem[..]), mem[..], old(live) - {oldptr})
    {
      hide AllocatorOK, LiveKept, HeapOK, SlabsOK, LiveOK, Apart, Alloc, ClientBlock, Keeps, Carved, TagBlock,
        InRange, Within;
      ghost var m0, live0, B0, fl0, a := mem[..], live, B, fl, oldptr - 1;
      Parts(m0, brk, B, fl, live);
      SplitAllocated(m0, brk, B, fl, a, newsize);
      BlockStart(m0, brk, B, fl, a);
      AddTags(oldptr - 1, 1, newsize, 0, 0);
      AddTags(oldptr - 1 + newsize, 1, oldsize - newsize, 0, 0);
      assert mem[..] == BothTagged(m0, a, newsize, oldsize - newsize);
      B := Carved(B0, a, newsize, false, false);
      ghost var m1 := mem[..];
      ghost var A := Alloc(B0);
      var tail := oldptr + newsize;
      TailRoutes(m0, m1, B0, brk, oldptr, tail);
      var r := Route(tail);
      assert mem[..] == m1;
      assert r == SLABS;
      FreeBlock(tail);
      KeepsFewer(m1, mem[..], Alloc(B), A - {a});
      KeepsTransitive(m0, m1, mem[..], A - {a});
      BlockResized(m0, brk, B0, fl0, live0, mem[..], B, fl, oldptr, newsize);
      live := live[oldptr := newsize - 2];
    }
  }
}
