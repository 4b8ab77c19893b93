/**
 * When realloc keeps the contents. A slot that is alone in its slab takes the slab with it: realloc frees
 * the slot before it reads the contents, and what malloc writes in between can lie where they were. For
 * every pair of sizes that makes a slot leave the slots of its size there is a run on which this happens.
 */
module LoneSlot {
  import opened Bits
  import opened HeapBlocks
  import opened Slabs
  import opened SlabSteps
  import opened ReallocSteps
  import opened Contents
  import opened AllocatorSteps
  import opened Allocators

  // ---------- the shape of a heap, read off what is live ----------

  /** In every allocated block something is live: a slot of a slab, or the block itself. */
  lemma HandedInBlock(m: seq<nat>, A: map<nat, nat>, brk: nat, live: map<nat, nat>, a: nat) returns (p: nat)
    requires SlabsOK(m, A) && Apart(A, brk) && LiveOK(m, A, live) && FIRST <= |m| && a in A
    ensures p in live && a < p < a + A[a]
    ensures live[p] == 2 || live[p] == 4 || (p == a + 1 && A[a] == live[p] + 2)
  {
    hide SlabOK, LiveSlot, Apart;
    if ClientBlock(m, A, a + 1) {
      p := a + 1;
      BlockSize(A, brk, a);
      assert Handed(m, A, p, A[a] - 2);
    } else {
      var t :| 0 <= t < SLABS && Table(m, t) == a + 1;
      SlabEntry(m, A, t);
      p := SlotInSlab(m, A, live, t);
    }
  }

  lemma SlotInSlab(m: seq<nat>, A: map<nat, nat>, live: map<nat, nat>, t: nat) returns (p: nat)
    requires SlabsOK(m, A) && LiveOK(m, A, live) && FIRST <= |m| && t < SLABS && Table(m, t) != 0
    ensures p in live && Table(m, t) <= p < Table(m, t) - 1 + BackingSize(t) && (live[p] == 2 || live[p] == 4)
  {
    hide SlabOK, LiveSlot;
    SlabHasSlot(m, A, t);
    var k: nat :| LiveSlot(m, t, k);
    LiveSlotRange(m, t, k);
    SlotInside(m, A, t, k);
    p := SlotPtr(m, t, k);
    assert SlotAt(m, t, k, p) && Handed(m, A, p, SlotWords(t));
  }

  lemma SlabEntry(m: seq<nat>, A: map<nat, nat>, t: nat)
    requires SlabsOK(m, A) && FIRST <= |m| && t < SLABS && Table(m, t) != 0
    ensures Table(m, t) - 1 in A && A[Table(m, t) - 1] == BackingSize(t)
  {
    assert SlabOK(m, A, t);
  }

  lemma BlockSize(A: map<nat, nat>, brk: nat, a: nat)
    requires Apart(A, brk) && a in A
    ensures A[a] >= 2
  {
  }

  lemma BlockHasLive(m: seq<nat>, brk: nat, B: Blocks, fl: seq<seq<nat>>, live: map<nat, nat>, a: nat) returns (p: nat)
    requires AllocatorOK(m, brk, B, fl, live) && a in Alloc(B)
    ensures p in live && a < p < a + Alloc(B)[a]
    ensures live[p] == 2 || live[p] == 4 || (p == a + 1 && Alloc(B)[a] == live[p] + 2)
  {
    hide *;
    Parts(m, brk, B, fl, live);
    p := HandedInBlock(m, Alloc(B), brk, live, a);
  }

  /** Without live slots there are no slabs. */
  lemma NoSlabs(m: seq<nat>, brk: nat, B: Blocks, fl: seq<seq<nat>>, live: map<nat, nat>)
    requires AllocatorOK(m, brk, B, fl, live) && forall p :: p in live ==> live[p] != 2 && live[p] != 4
    ensures FIRST <= |m| && forall t :: 0 <= t < SLABS ==> Table(m, t) == 0
  {
    hide AllocatorOK;
    Parts(m, brk, B, fl, live);
    hide SlabsOK, LiveOK, Apart, HeapOK, Table;
    forall t | 0 <= t < SLABS ensures Table(m, t) == 0 {
      if Table(m, t) != 0 { var p := SlotInSlab(m, Alloc(B), live, t); }
    }
  }

  /** What is live with a size that no slot has is a block. */
  lemma BlockOfLive(m: seq<nat>, brk: nat, B: Blocks, fl: seq<seq<nat>>, live: map<nat, nat>, p: nat)
    requires AllocatorOK(m, brk, B, fl, live) && p in live && live[p] != 2 && live[p] != 4
    ensures 1 <= p && p - 1 in Alloc(B) && Alloc(B)[p - 1] == live[p] + 2 && ClientBlock(m, Alloc(B), p)
  {
    assert Handed(m, Alloc(B), p, live[p]);
    hide HeapOK, SlabsOK, LiveSlot;
  }

  lemma SlabIsBlock(m: seq<nat>, brk: nat, B: Blocks, fl: seq<seq<nat>>, live: map<nat, nat>, t: nat)
    requires AllocatorOK(m, brk, B, fl, live) && t < SLABS && FIRST <= |m| && Table(m, t) != 0
    ensures Table(m, t) - 1 in Alloc(B) && Alloc(B)[Table(m, t) - 1] == BackingSize(t)
  {
    hide HeapOK, LiveOK;
    SlabEntry(m, Alloc(B), t);
  }

  /** A slot is no block. */
  lemma SlotIsNoBlock(m: seq<nat>, brk: nat, B: Blocks, fl: seq<seq<nat>>, live: map<nat, nat>, t: nat)
    requires AllocatorOK(m, brk, B, fl, live) && t < SLABS && FIRST <= |m| && Table(m, t) != 0
    ensures !ClientBlock(m, Alloc(B), SlotPtr(m, t, 0))
  {
    HeapApart(m, brk, B, fl);
    hide HeapOK, LiveOK;
    assert SlabOK(m, Alloc(B), t);
    hide SlabsOK;
  }

  /** A free block with no allocated block behind it reaches the end. */
  lemma FreeToTheEnd(m: seq<nat>, brk: nat, B: Blocks, fl: seq<seq<nat>>, x: nat)
    requires HeapOK(m, brk, B, fl) && x in B && forall a :: a in Alloc(B) ==> a < x
    ensures B[x] == Blk(brk - x, true) && forall y :: y in B ==> y <= x
  {
    hide Tagged, ListsOK, Aligned;
    var e := x + B[x].size;
    assert x !in Alloc(B) && Followed(B, brk, x) && Separated(B, x);
    assert e < brk ==> e !in Alloc(B);
  }

  /** The only block on the lists carries no links. */
  lemma AloneOnList(m: seq<nat>, brk: nat, B: Blocks, fl: seq<seq<nat>>, x: nat)
    requires HeapOK(m, brk, B, fl) && Listable(B, {}, x) && forall y :: Listable(B, {}, y) ==> y == x
    ensures x + 2 < |m| && m[x + 1] == 0 && m[x + 2] == 0
  {
    hide Tagged, Tiled, GetIndex;
    var i := GetIndex(B[x].size);
    assert Listed(B, {}, x, i);
    var s := fl[i];
    var k: nat :| k < |s| && s[k] == x;
    forall j | 0 <= j < |s| ensures s[j] == x { assert s[j] in s && Listed(B, {}, s[j], i); }
    assert |s| <= 1 || At(s, 0) == At(s, 1);
    assert Linked(m, i, s) && NodeLinked(m, s, k);
  }

  /** What lies between the allocated blocks at FIRST and x, and the end. */
  lemma BehindTheFirst(m: seq<nat>, brk: nat, B: Blocks, fl: seq<seq<nat>>, n: nat)
    requires HeapOK(m, brk, B, fl) && FIRST in Alloc(B) && Alloc(B)[FIRST] == n && FIRST + n < brk
    requires forall a :: a in Alloc(B) ==> a < FIRST + n
    ensures FIRST + n in B && B[FIRST + n] == Blk(brk - (FIRST + n), true)
    ensures forall y :: y in B ==> y == FIRST || y == FIRST + n
  {
    hide Tagged, ListsOK, Aligned;
    assert Followed(B, brk, FIRST);
    FreeToTheEnd(m, brk, B, fl, FIRST + n);
  }

  // ---------- the run ----------

  /** The slab that serves the first request of its kind. */
  function KindOf(size: nat): nat
  {
    if size <= 16 then 0 else 10
  }

  /** The words of the block that malloc takes for a request, if no slab serves its kind yet. */
  function TakenWords(size: nat): nat
  {
    if size > 32 then BlockWords(size) else BackingSize(KindOf(size))
  }

  lemma TakenEven(size: nat)
    ensures TakenWords(size) >= 8 && TakenWords(size) % 2 == 0
    ensures BlockWords(8 * (TakenWords(size) - 2)) == TakenWords(size) && 8 * (TakenWords(size) - 2) > 32
  {
  }

  /** The first request of a kind makes the first slab of that kind. */
  lemma FirstOfKind(m: seq<nat>, brk: nat, B: Blocks, m': seq<nat>, brk': nat, size: nat, p: nat)
    requires FIRST <= |m| && size <= 32 && forall t :: 0 <= t < SLABS ==> Table(m, t) == 0
    requires FoundIn(m, brk, B, m', brk', size, p)
    ensures FIRST <= |m'| && Table(m', KindOf(size)) != 0 && p == SlotPtr(m', KindOf(size), 0)
    ensures FitFrom(brk, B, brk', Table(m', KindOf(size)) - 1, BackingSize(KindOf(size)))
  {
    hide FitFrom, Table, BackingSize;
    var w := SlotSize(size);
    assert OfKind(KindOf(size), w) && AllFull(m, w);
    hide AllFull;
    var t: nat :| MissingFirst(m, w, t) && Table(m', t) != 0 && p == SlotPtr(m', t, 0)
      && FitFrom(brk, B, brk', Table(m', t) - 1, BackingSize(t));
  }

  /** A heap that is full grows. */
  lemma GrowsAtEnd(brk: nat, B: Blocks, brk': nat, a: nat, n: nat)
    requires FitFrom(brk, B, brk', a, n) && forall x :: x in B ==> !B[x].free
    ensures a == brk && brk' == brk + n
  {
  }

  /** The only free block is taken if it is large enough. */
  lemma TakesOnlyFree(brk: nat, B: Blocks, brk': nat, a: nat, n: nat, x: nat)
    requires FitFrom(brk, B, brk', a, n) && n >= 4 && x in B && B[x].free && B[x].size >= n
    requires forall y :: y in B && B[y].free ==> y == x
    ensures a == x && brk' == brk
  {
  }

  /** First, a block X of n words at the start. */
  lemma FullHeap(m: seq<nat>, brk: nat, B: Blocks, fl: seq<seq<nat>>, n: nat)
    requires n >= 8 && brk == FIRST + n && AllocatorOK(m, brk, B, fl, map[FIRST + 1 := n - 2])
    ensures forall x :: x in B ==> !B[x].free
  {
    BlockOfLive(m, brk, B, fl, map[FIRST + 1 := n - 2], FIRST + 1);
    hide AllocatorOK;
    Parts(m, brk, B, fl, map[FIRST + 1 := n - 2]);
    hide SlabsOK, LiveOK, Tagged, ListsOK, Aligned;
  }

  /** Then the slot's slab; with X free again, the slab has n free words before it. */
  lemma FreeBeforeSlab(m: seq<nat>, brk: nat, B: Blocks, fl: seq<seq<nat>>, n: nat, t: nat, w: nat)
    requires t < SLABS && FIRST <= |m| && n >= 8 && Table(m, t) == FIRST + n + 1 && brk == FIRST + n + BackingSize(t)
    requires AllocatorOK(m, brk, B, fl, map[SlotPtr(m, t, 0) := w])
    ensures FIRST in B && B[FIRST] == Blk(n, true) && forall y :: y in B && B[y].free ==> y == FIRST
  {
    var live := map[SlotPtr(m, t, 0) := w];
    SlabIsBlock(m, brk, B, fl, live, t);
    forall a | a in Alloc(B) ensures a == FIRST + n { OnlySlab(m, brk, B, fl, live, t, a); }
    Parts(m, brk, B, fl, live);
    hide AllocatorOK, SlabsOK, LiveOK, BackingSize;
    OneFreeBefore(m, brk, B, fl, n);
  }

  lemma OnlySlab(m: seq<nat>, brk: nat, B: Blocks, fl: seq<seq<nat>>, live: map<nat, nat>, t: nat, a: nat)
    requires AllocatorOK(m, brk, B, fl, live) && t < SLABS && FIRST <= |m| && Table(m, t) != 0 && a in Alloc(B)
    requires forall p :: p in live ==> p == SlotPtr(m, t, 0)
    ensures a + 1 == Table(m, t)
  {
    hide AllocatorOK, HeapOK, SlabsOK, LiveOK, Apart;
    var p := BlockHasLive(m, brk, B, fl, live, a);
    SlabIsBlock(m, brk, B, fl, live, t);
    Parts(m, brk, B, fl, live);
    InOneBlock(Alloc(B), brk, a, Table(m, t) - 1, p);
  }

  lemma InOneBlock(A: map<nat, nat>, brk: nat, a: nat, b: nat, p: nat)
    requires Apart(A, brk) && a in A && b in A && a < p < a + A[a] && b < p < b + A[b]
    ensures a == b
  {
  }

  lemma OneFreeBefore(m: seq<nat>, brk: nat, B: Blocks, fl: seq<seq<nat>>, n: nat)
    requires HeapOK(m, brk, B, fl) && n >= 2 && FIRST + n in Alloc(B) && FIRST + n + Alloc(B)[FIRST + n] == brk
    requires forall a :: a in Alloc(B) ==> a == FIRST + n
    ensures FIRST in B && B[FIRST] == Blk(n, true) && forall y :: y in B && B[y].free ==> y == FIRST
  {
    hide Tagged, ListsOK, Aligned;
    assert FIRST in B && FIRST !in Alloc(B) && FIRST + B[FIRST].size <= FIRST + n;
    var e := FIRST + B[FIRST].size;
    assert Followed(B, brk, FIRST) && Separated(B, FIRST);
    assert e in B && (e in Alloc(B) <==> !B[e].free);
    forall y | y in B && B[y].free ensures y == FIRST {
      assert y !in Alloc(B);
    }
  }

  /** Then a block Y of 8 words in front of them: freeing the slot leaves Y alone. */
  lemma LoneInSlab(m: seq<nat>, brk: nat, B: Blocks, fl: seq<seq<nat>>, live: map<nat, nat>, n: nat, t: nat, w: nat)
    requires t < SLABS && FIRST <= |m| && n >= 8 && Table(m, t) == FIRST + n + 1 && (w == 2 || w == 4)
    requires live == map[FIRST + 1 := 6][SlotPtr(m, t, 0) := w] && AllocatorOK(m, brk, B, fl, live)
    ensures AfterFree(m, Alloc(B), SlotPtr(m, t, 0)) == map[FIRST := 8]
    ensures forall u :: 0 <= u < SLABS && u != t ==> Table(m, u) == 0
    ensures !ClientBlock(m, Alloc(B), SlotPtr(m, t, 0))
  {
    hide AllocatorOK, HeapOK, SlabsOK, LiveOK, Apart, LiveSlot, BackingSize, AfterFree, SharesSlab, ClientBlock, Alloc,
         Maps, Table, SlotAt;
    var p, A := SlotPtr(m, t, 0), Alloc(B);
    assert p > FIRST + 1;
    hide SlotPtr;
    SlotIsNoBlock(m, brk, B, fl, live, t);
    SlabIsBlock(m, brk, B, fl, live, t);
    BlockOfLive(m, brk, B, fl, live, FIRST + 1);
    Parts(m, brk, B, fl, live);
    OwnSlot(m, A, brk, live, t);
    AfterFreeSlot(m, A, brk, t, 0, p);
    forall j: nat | LiveSlot(m, t, j) ensures j == 0 { OneLiveSlot(m, A, live, t, j); }
    forall a | a in A ensures a == FIRST || a == FIRST + n { TwoBlocks(m, brk, B, fl, live, n, t, a); }
    assert A - {FIRST + n} == map[FIRST := 8];
    forall u | 0 <= u < SLABS && u != t ensures Table(m, u) == 0 { NoOtherSlab(m, A, brk, live, t, u); }
  }

  /** The live slot p is the one that its slab has in this place. */
  lemma OwnSlot(m: seq<nat>, A: map<nat, nat>, brk: nat, live: map<nat, nat>, t: nat)
    requires SlabsOK(m, A) && Apart(A, brk) && LiveOK(m, A, live) && FIRST <= |m| && t < SLABS && Table(m, t) != 0
    requires SlotPtr(m, t, 0) in live && !ClientBlock(m, A, SlotPtr(m, t, 0))
    ensures SlotAt(m, t, 0, SlotPtr(m, t, 0))
  {
    hide SlabOK, LiveSlot, SlotPtr, ClientBlock;
    var p := SlotPtr(m, t, 0);
    assert Handed(m, A, p, live[p]);
    var u: nat, k: nat :| SlotAt(m, u, k, p);
    LiveSlotRange(m, u, k);
    SlotUnique(m, A, brk, u, k, t, 0);
  }

  lemma OneLiveSlot(m: seq<nat>, A: map<nat, nat>, live: map<nat, nat>, t: nat, j: nat)
    requires LiveOK(m, A, live) && LiveSlot(m, t, j) && FIRST <= |m| && t < SLABS && Table(m, t) > FIRST + 1
    requires forall p :: p in live ==> p == FIRST + 1 || p == SlotPtr(m, t, 0)
    ensures j == 0
  {
    hide LiveSlot;
    assert SlotAt(m, t, j, SlotPtr(m, t, j)) && Handed(m, A, SlotPtr(m, t, j), SlotWords(t));
  }

  lemma TwoBlocks(m: seq<nat>, brk: nat, B: Blocks, fl: seq<seq<nat>>, live: map<nat, nat>, n: nat, t: nat, a: nat)
    requires AllocatorOK(m, brk, B, fl, live) && t < SLABS && FIRST <= |m| && Table(m, t) == FIRST + n + 1
    requires forall p :: p in live ==> p == FIRST + 1 || p == SlotPtr(m, t, 0)
    requires a in Alloc(B)
    ensures a == FIRST || a == FIRST + n
  {
    hide AllocatorOK, HeapOK, SlabsOK, LiveOK, Apart;
    var p := BlockHasLive(m, brk, B, fl, live, a);
    SlabIsBlock(m, brk, B, fl, live, t);
    Parts(m, brk, B, fl, live);
    if p == FIRST + 1 {
      AtLeastFirst(Alloc(B), brk, a);
    } else {
      InOneBlock(Alloc(B), brk, a, Table(m, t) - 1, p);
    }
  }

  lemma AtLeastFirst(A: map<nat, nat>, brk: nat, a: nat)
    requires Apart(A, brk) && a in A
    ensures a >= FIRST
  {
  }

  lemma NoOtherSlab(m: seq<nat>, A: map<nat, nat>, brk: nat, live: map<nat, nat>, t: nat, u: nat)
    requires SlabsOK(m, A) && Apart(A, brk) && LiveOK(m, A, live) && FIRST <= |m|
    requires t < SLABS && u < SLABS && u != t && Table(m, t) != 0
    requires forall p :: p in live ==> p == SlotPtr(m, t, 0) || (live[p] != 2 && live[p] != 4)
    ensures Table(m, u) == 0
  {
    hide SlabsOK, Apart, LiveOK, Table, SlotPtr;
    if Table(m, u) != 0 {
      var p := SlotInSlab(m, A, live, u);
      SlabOfSlot(m, A, brk, t, u);
    }
  }

  lemma SlabOfSlot(m: seq<nat>, A: map<nat, nat>, brk: nat, t: nat, u: nat)
    requires SlabsOK(m, A) && Apart(A, brk) && FIRST <= |m| && t < SLABS && u < SLABS
    requires Table(m, t) != 0 && Table(m, u) != 0
    requires Table(m, u) <= SlotPtr(m, t, 0) < Table(m, u) - 1 + BackingSize(u)
    ensures u == t
  {
    SlabEntry(m, A, t);
    SlabEntry(m, A, u);
    SlotInside(m, A, t, 0);
    hide SlabOK, BackingSize, Apart;
    InOneBlock(A, brk, Table(m, t) - 1, Table(m, u) - 1, SlotPtr(m, t, 0));
  }

  /** Behind Y there is room for what malloc takes. */
  lemma RoomBehind(m: seq<nat>, brk: nat, size: nat, limit: nat, t: nat)
    requires FIRST <= |m| && FIRST + 8 + TakenWords(size) <= brk && t < SLABS
    requires forall u :: 0 <= u < SLABS && u != t ==> Table(m, u) == 0
    requires size > 32 || SlotWords(t) != SlotSize(size)
    ensures CanServe(m, map[FIRST := 8], brk, size, limit)
  {
    TakenEven(size);
    assert Gap(map[FIRST := 8], brk, FIRST + 8, TakenWords(size));
    hide Gap, BackingSize, Table;
    if size <= 32 {
      assert OfKind(KindOf(size), SlotSize(size));
      forall u {:trigger MissingFirst(m, SlotSize(size), u)} | MissingFirst(m, SlotSize(size), u)
        ensures Fits(map[FIRST := 8], brk, BackingSize(u), limit)
      {
        assert u == KindOf(size);
      }
    }
  }

  /** Behind the blocks of 8 and of n words lies one free block, whose links are 0. */
  lemma TailLinks(m: seq<nat>, brk: nat, B: Blocks, fl: seq<seq<nat>>, live: map<nat, nat>, n: nat)
    requires AllocatorOK(m, brk, B, fl, live) && FIRST + 8 + n + 4 <= brk
    requires forall p :: p in live ==> p <= FIRST + 8 + n
    requires FIRST in Alloc(B) && Alloc(B)[FIRST] == 8 && FIRST + 8 in Alloc(B) && Alloc(B)[FIRST + 8] == n
    ensures FIRST + 8 + n + 1 < |m| && m[FIRST + 8 + n + 1] == 0
  {
    hide AllocatorOK;
    var x := FIRST + 8 + n;
    forall a | a in Alloc(B) ensures a < x { var p := BlockHasLive(m, brk, B, fl, live, a); }
    Parts(m, brk, B, fl, live);
    TailBlock(m, brk, B, fl, n);
    AloneOnList(m, brk, B, fl, x);
  }

  lemma TailBlock(m: seq<nat>, brk: nat, B: Blocks, fl: seq<seq<nat>>, n: nat)
    requires HeapOK(m, brk, B, fl) && FIRST + 8 + n + 4 <= brk
    requires FIRST in Alloc(B) && Alloc(B)[FIRST] == 8 && FIRST + 8 in Alloc(B) && Alloc(B)[FIRST + 8] == n
    requires forall a :: a in Alloc(B) ==> a < FIRST + 8 + n
    ensures Listable(B, {}, FIRST + 8 + n) && forall y :: Listable(B, {}, y) ==> y == FIRST + 8 + n
  {
    hide Tagged, ListsOK, Aligned;
    var x := FIRST + 8 + n;
    assert Followed(B, brk, FIRST + 8) && x in B;
    FreeToTheEnd(m, brk, B, fl, x);
    forall y | Listable(B, {}, y) ensures y == x {
      assert y != FIRST && y != FIRST + 8;
    }
  }

  /** With Y alone, what is behind it is free. */
  lemma BehindY(m: seq<nat>, brk: nat, B: Blocks, fl: seq<seq<nat>>)
    requires AllocatorOK(m, brk, B, fl, map[FIRST + 1 := 6]) && FIRST + 8 < brk
    ensures FIRST <= |m| && forall t :: 0 <= t < SLABS ==> Table(m, t) == 0
    ensures FIRST + 8 in B && B[FIRST + 8] == Blk(brk - (FIRST + 8), true)
    ensures forall y :: y in B && B[y].free ==> y == FIRST + 8
  {
    var live := map[FIRST + 1 := 6];
    NoSlabs(m, brk, B, fl, live);
    BlockOfLive(m, brk, B, fl, live, FIRST + 1);
    hide AllocatorOK, Table;
    forall a | a in Alloc(B) ensures a < FIRST + 8 { var p := BlockHasLive(m, brk, B, fl, live, a); }
    Parts(m, brk, B, fl, live);
    BehindTheFirst(m, brk, B, fl, 8);
    assert FIRST in Alloc(B) && !B[FIRST].free;
  }

  /** Where malloc then goes: a block, */
  lemma BlockBehindY(m: seq<nat>, brk: nat, B: Blocks, fl: seq<seq<nat>>, m': seq<nat>, brk': nat, size: nat, p': nat)
    requires AllocatorOK(m, brk, B, fl, map[FIRST + 1 := 6]) && FIRST + 8 + TakenWords(size) + 4 <= brk && size > 32
    requires FoundIn(m, brk, B, m', brk', size, p')
    ensures brk' == brk && p' == FIRST + 9
  {
    TakenEven(size);
    BehindY(m, brk, B, fl);
    hide AllocatorOK, BlockWords;
    TakesOnlyFree(brk, B, brk', p' - 1, TakenWords(size), FIRST + 8);
  }

  /** or a slab. */
  lemma SlabBehindY(m: seq<nat>, brk: nat, B: Blocks, fl: seq<seq<nat>>, m': seq<nat>, brk': nat, size: nat, p': nat)
    requires AllocatorOK(m, brk, B, fl, map[FIRST + 1 := 6]) && FIRST + 8 + TakenWords(size) + 4 <= brk && size <= 32
    requires FoundIn(m, brk, B, m', brk', size, p')
    ensures brk' == brk && FIRST <= |m'| && Table(m', KindOf(size)) == FIRST + 9 && p' == FIRST + 17
  {
    TakenEven(size);
    BehindY(m, brk, B, fl);
    hide AllocatorOK, FoundIn, Table;
    FirstOfKind(m, brk, B, m', brk', size, p');
    TakesOnlyFree(brk, B, brk', Table(m', KindOf(size)) - 1, TakenWords(size), FIRST + 8);
  }

  lemma TakesBehindY(m: seq<nat>, brk: nat, B: Blocks, fl: seq<seq<nat>>, m': seq<nat>, brk': nat, B': Blocks,
                     fl': seq<seq<nat>>, live': map<nat, nat>, size: nat, p': nat)
    requires AllocatorOK(m, brk, B, fl, map[FIRST + 1 := 6]) && FIRST + 8 + TakenWords(size) + 4 <= brk && size >= 1
    requires FoundIn(m, brk, B, m', brk', size, p') && AllocatorOK(m', brk', B', fl', live')
    requires live' == map[FIRST + 1 := 6][p' := BlockWords(size) - 2]
    ensures brk' == brk && p' == (if size > 32 then FIRST + 9 else FIRST + 17)
    ensures FIRST in Alloc(B') && Alloc(B')[FIRST] == 8
    ensures FIRST + 8 in Alloc(B') && Alloc(B')[FIRST + 8] == TakenWords(size)
  {
    hide AllocatorOK, FoundIn, BlockWords, Table, Alloc;
    TakenEven(size);
    if size > 32 {
      BlockBehindY(m, brk, B, fl, m', brk', size, p');
      BlockOfLive(m', brk', B', fl', live', p');
    } else {
      SlabBehindY(m, brk, B, fl, m', brk', size, p');
      SlabIsBlock(m', brk', B', fl', live', KindOf(size));
    }
    BlockOfLive(m', brk', B', fl', live', FIRST + 1);
  }

  /** Where the slot was is now the link of a free block, and that is what realloc copies. */
  lemma NothingLeft(brk: nat, live: map<nat, nat>, p: nat, m': seq<nat>, brk': nat, B': Blocks, fl': seq<seq<nat>>,
                    live': map<nat, nat>, p': nat, size: nat)
    requires p == FIRST + TakenWords(size) + 9 && FIRST + 8 + TakenWords(size) + 4 <= brk && size >= 1
    requires p in live && live - {p} == map[FIRST + 1 := 6] && (live[p] == 2 || live[p] == 4)
    requires Relocated(brk, live, p, m', brk', B', fl', live', p', size)
    requires live' == map[FIRST + 1 := 6][p' := BlockWords(size) - 2]
    ensures p' < |m'| && m'[p'] == 0
  {
    hide AllocatorOK, SameBytes, FoundIn, BlockWords, TakenWords, CopiedOver;
    var m1, B1, fl1, m2 :|
      && AllocatorOK(m1, brk, B1, fl1, live - {p})
      && FoundIn(m1, brk, B1, m2, brk', size, p')
      && AllocatorOK(m2, brk', B', fl', live')
      && CopiedOver(m2, p, m', p', CopyWidth(live[p], size));
    TakenEven(size);
    TakesBehindY(m1, brk, B1, fl1, m2, brk', B', fl', live', size, p');
    Apart17(size);
    TailLinks(m2, brk', B', fl', live', TakenWords(size));
    CopiedApart(m2, p, m', p', CopyWidth(live[p], size));
    FirstWord(m2, p, m', p', CopyWidth(live[p], size));
  }

  /** A new slab is larger than its maps. */
  lemma Apart17(size: nat)
    ensures size <= 32 ==> TakenWords(size) >= 1034
  {
  }

  lemma FirstWord(m: seq<nat>, p: nat, m': seq<nat>, p': nat, words: nat)
    requires SameBytes(m, p, m', p', 8 * words) && words >= 1
    ensures p < |m| && p' < |m'| && m'[p'] == m[p]
  {
    hide LowBytes;
    assert 8 * words / 8 == words && (8 * words + 7) / 8 == words;
    assert m[p..p + words][0] == m'[p'..p' + words][0];
  }

  /** A free block is room for what is not larger. */
  lemma FreeIsGap(m: seq<nat>, brk: nat, B: Blocks, fl: seq<seq<nat>>, x: nat, n: nat)
    requires HeapOK(m, brk, B, fl) && x in B && B[x].free && 1 <= n <= B[x].size
    ensures Gap(Alloc(B), brk, x, n)
  {
    hide Tagged, ListsOK, Aligned, NoAdjacentFree;
  }

  lemma BlockRoom(m: seq<nat>, A: map<nat, nat>, brk: nat, size: nat, limit: nat)
    requires FIRST <= |m| && size > 32
    requires brk + BlockWords(size) <= limit || exists lo :: Gap(A, brk, lo, BlockWords(size))
    ensures CanServe(m, A, brk, size, limit) && MallocWords(m, size) == BlockWords(size) - 2
  {
    hide Gap;
    BlockWordsRange(size);
  }

  lemma FirstSlabRoom(m: seq<nat>, A: map<nat, nat>, brk: nat, size: nat, limit: nat)
    requires FIRST <= |m| && size <= 32 && forall t :: 0 <= t < SLABS ==> Table(m, t) == 0
    requires brk + BackingSize(KindOf(size)) <= limit
    ensures CanServe(m, A, brk, size, limit) && MallocWords(m, size) == SlotSize(size)
  {
    hide BackingSize, Table, Gap;
    assert OfKind(KindOf(size), SlotSize(size));
    forall u {:trigger MissingFirst(m, SlotSize(size), u)} | MissingFirst(m, SlotSize(size), u)
      ensures Fits(A, brk, BackingSize(u), limit)
    {
      assert u == KindOf(size);
    }
  }

  /** An arena that has room for the run: the block that realloc will ask for, and the slab. */
  predicate Holds(words: nat, was: nat, size: nat)
  {
    FIRST + TakenWords(size) + BackingSize(KindOf(was)) <= words <= MAX_WORDS
  }

  /** X of n words, and behind it the first slot of the first slab of its kind. */
  method SlotBehind(words: nat, was: nat, size: nat) returns (a: Allocator, p: nat)
    requires was <= 32 && Holds(words, was, size)
    ensures AllocatorOK(a.mem[..], a.brk, a.B, a.fl, a.live) && FIRST <= a.mem.Length == words
    ensures fresh(a) && fresh(a.mem)
    ensures a.live == map[FIRST + 1 := TakenWords(size) - 2][p := SlotSize(was)]
    ensures Table(a.mem[..], KindOf(was)) == FIRST + TakenWords(size) + 1 && p == SlotPtr(a.mem[..], KindOf(was), 0)
    ensures a.brk == FIRST + TakenWords(size) + BackingSize(KindOf(was))
  {
    hide AllocatorOK, CanServe, FoundIn, LiveKept, SlotsKept, BlockWords, BackingSize, Table, SlotPtr, MallocWords,
      Gap, Alloc;
    ghost var n := TakenWords(size);
    TakenEven(size);
    hide TakenWords;
    a := new Allocator(words);
    a.MmInit();
    ghost var m0 := a.mem[..];
    BlockRoom(m0, Alloc(a.B), a.brk, 8 * (n - 2), words);
    var x := a.Malloc(8 * (TakenWords(size) - 2));
    ghost var m1, brk1, B1 := a.mem[..], a.brk, a.B;
    FirstBlock(m0, m1, brk1, 8 * (n - 2), x);
    FullHeap(m1, brk1, B1, a.fl, n);
    NoSlabs(m1, brk1, B1, a.fl, a.live);
    FirstSlabRoom(m1, Alloc(B1), brk1, was, words);
    p := a.Malloc(was);
    FirstOfKind(m1, brk1, B1, a.mem[..], a.brk, was, p);
    GrowsAtEnd(brk1, B1, a.brk, Table(a.mem[..], KindOf(was)) - 1, BackingSize(KindOf(was)));
  }

  lemma FirstBlock(m: seq<nat>, m': seq<nat>, brk': nat, size: nat, p: nat)
    requires FoundIn(m, FIRST, map[], m', brk', size, p) && size > 32
    ensures p == FIRST + 1 && brk' == FIRST + BlockWords(size)
  {
  }

  /** X is freed; what it was is the only free block. */
  method FreeX(a: Allocator, ghost n: nat, ghost t: nat, ghost w: nat, ghost p: nat)
    requires AllocatorOK(a.mem[..], a.brk, a.B, a.fl, a.live) && n >= 8 && (w == 2 || w == 4) && t < SLABS
    requires a.live == map[FIRST + 1 := n - 2][p := w] && p != FIRST + 1 && FIRST <= a.mem.Length
    requires Table(a.mem[..], t) == FIRST + n + 1 && p == SlotPtr(a.mem[..], t, 0)
    requires a.brk == FIRST + n + BackingSize(t)
    modifies a.mem, a`B, a`fl, a`live
    ensures AllocatorOK(a.mem[..], a.brk, a.B, a.fl, a.live) && a.live == map[p := w]
    ensures Table(a.mem[..], t) == FIRST + n + 1 && p == SlotPtr(a.mem[..], t, 0)
    ensures OnlyFront(a.B) && CanServe(a.mem[..], Alloc(a.B), a.brk, 48, a.mem.Length)
  {
    hide AllocatorOK, CanServe, LiveKept, BackingSize, Table, SlotPtr, Gap, Alloc, ClientBlock, OthersStay, AfterFree;
    ghost var m0 := a.mem[..];
    BlockOfLive(m0, a.brk, a.B, a.fl, a.live, FIRST + 1);
    a.Free(FIRST + 1);
    ghost var m1 := a.mem[..];
    AllTablesStay(m0, m1, t);
    assert a.live == map[p := w];
    FreeBeforeSlab(m1, a.brk, a.B, a.fl, n, t, w);
    Parts(m1, a.brk, a.B, a.fl, a.live);
    FreeIsGap(m1, a.brk, a.B, a.fl, FIRST, 8);
    BlockRoom(m1, Alloc(a.B), a.brk, 48, a.mem.Length);
  }

  /** The heap begins with a free block of at least 8 words, and no other block is free. */
  ghost predicate OnlyFront(B: Blocks)
  {
    && FIRST in B && B[FIRST].free && B[FIRST].size >= 8
    && forall x :: x in B && B[x].free ==> x == FIRST
  }

  /** X is freed, and a block Y of 8 words takes its place; the rest of X, if any, stays free. */
  method YInFront(a: Allocator, ghost n: nat, ghost t: nat, ghost w: nat, ghost p: nat)
    requires AllocatorOK(a.mem[..], a.brk, a.B, a.fl, a.live) && n >= 8 && (w == 2 || w == 4) && t < SLABS
    requires a.live == map[FIRST + 1 := n - 2][p := w] && p != FIRST + 1 && FIRST <= a.mem.Length
    requires Table(a.mem[..], t) == FIRST + n + 1 && p == SlotPtr(a.mem[..], t, 0)
    requires a.brk == FIRST + n + BackingSize(t)
    modifies a.mem, a`brk, a`B, a`fl, a`live
    ensures AllocatorOK(a.mem[..], a.brk, a.B, a.fl, a.live) && a.live == map[FIRST + 1 := 6][p := w]
    ensures Table(a.mem[..], t) == FIRST + n + 1 && p == SlotPtr(a.mem[..], t, 0) && a.brk == old(a.brk)
  {
    hide AllocatorOK, CanServe, FoundIn, LiveKept, SlotsKept, BackingSize, Table, SlotPtr, MallocWords, Gap, Alloc,
         OnlyFront;
    FreeX(a, n, t, w, p);
    ghost var m1, B1 := a.mem[..], a.B;
    var y := a.Malloc(48);
    TakesFirst(m1, old(a.brk), B1, a.mem[..], a.brk, y);
    TableKept(m1, a.mem[..], t);
    FortyEight(m1);
  }

  lemma FortyEight(m: seq<nat>)
    requires FIRST <= |m|
    ensures MallocWords(m, 48) == 6
  {
  }

  lemma AllTablesStay(m: seq<nat>, m': seq<nat>, t: nat)
    requires OthersStay(m, m', SLABS) && t < SLABS
    ensures FIRST <= |m| == |m'| && Table(m', t) == Table(m, t) && SlotPtr(m', t, 0) == SlotPtr(m, t, 0)
  {
  }

  lemma TableKept(m: seq<nat>, m': seq<nat>, t: nat)
    requires SlotsKept(m, m') && t < SLABS && FIRST <= |m| && Table(m, t) != 0
    ensures FIRST <= |m'| && Table(m', t) == Table(m, t) && SlotPtr(m', t, 0) == SlotPtr(m, t, 0)
  {
  }

  lemma TakesFirst(m: seq<nat>, brk: nat, B: Blocks, m': seq<nat>, brk': nat, y: nat)
    requires FoundIn(m, brk, B, m', brk', 48, y) && OnlyFront(B)
    ensures y == FIRST + 1 && brk' == brk
  {
    TakesOnlyFree(brk, B, brk', y - 1, 8, FIRST);
  }

  // ---------- the exact condition ----------

  datatype Snapshot = Snapshot(mem: seq<nat>, brk: nat, B: Blocks, fl: seq<seq<nat>>, live: map<nat, nat>)
  {
    ghost predicate OK() { AllocatorOK(mem, brk, B, fl, live) }
  }

  ghost function Now(a: Allocator): Snapshot
    reads a, a.mem
  {
    Snapshot(a.mem[..], a.brk, a.B, a.fl, a.live)
  }

  /** From s to z realloc( p, size ) gave p', and byte o of the payload of `was` bytes is not what it was. */
  ghost predicate LosesByte(words: nat, was: nat, size: nat, s: Snapshot, p: nat, z: Snapshot, p': nat, o: nat)
  {
    && |s.mem| == words && s.OK() && p in s.live && Grant(s.live[p], was)
    && CanResize(s.mem, s.brk, s.B, s.live, p, size, words)
    && z.OK() && Reallocated(s.mem, s.brk, s.B, s.live, p, size, z.mem, z.brk, z.B, z.fl, z.live, p')
    && o < was && o < size && p + o / 8 < |s.mem| && p' + o / 8 < |z.mem|
    && ByteAt(s.mem, p, o) != ByteAt(z.mem, p', o)
  }

  /** In an arena of so many words realloc of a payload of `was` bytes to `size` bytes can lose a byte. */
  ghost predicate Loses(words: nat, was: nat, size: nat)
  {
    exists s, p, z, p', o :: LosesByte(words, was, size, s, p, z, p', o)
  }

  /** In no state of the heap, reached or not, a byte is lost unless the slot leaves its kind. */
  lemma LossMeans(words: nat, was: nat, size: nat)
    requires Loses(words, was, size)
    ensures LeavesKind(was, size)
  {
    hide LosesByte, LeavesKind;
    var s, p, z, p', o :| LosesByte(words, was, size, s, p, z, p', o);
    ByteLossMeans(words, was, size, s, p, z, p', o);
  }

  lemma ByteLossMeans(words: nat, was: nat, size: nat, s: Snapshot, p: nat, z: Snapshot, p': nat, o: nat)
    requires LosesByte(words, was, size, s, p, z, p', o)
    ensures LeavesKind(was, size)
  {
    hide AllocatorOK, Reallocated, CanResize, ContentsMove, ByteAt, LeavesKind, Alloc, SameBytes;
    var w := s.live[p];
    ReallocatedMeans(s.mem, s.brk, s.B, s.live, p, size, z.mem, z.brk, z.B, z.fl, z.live, p');
    GrantBytes(w, was);
    if ContentsMove(s.mem, Alloc(s.B), s.live, p, size) {
      KeptByte(s.mem, p, z.mem, p', w, size, o);
    } else {
      LostMeans(s.mem, s.brk, s.B, s.fl, s.live, p, was, size);
    }
  }

  lemma GrantBytes(words: nat, size: nat)
    requires Grant(words, size)
    ensures 8 * words >= size
  {
    BlockWordsRange(size);
  }

  lemma KeptByte(m: seq<nat>, p: nat, m': seq<nat>, p': nat, words: nat, size: nat, o: nat)
    requires SameBytes(m, p, m', p', Min(8 * words, size)) && o < 8 * words && o < size
    ensures p + o / 8 < |m| && p' + o / 8 < |m'| && ByteAt(m, p, o) == ByteAt(m', p', o)
  {
    hide SameBytes, ByteAt;
    SameBytesAt(m, p, m', p', Min(8 * words, size), o);
  }

  lemma SlotAddress(m: seq<nat>, t: nat, n: nat)
    requires (t == 0 || t == 10) && FIRST <= |m| && Table(m, t) == FIRST + n + 1
    ensures SlotPtr(m, t, 0) == FIRST + n + 9
  {
  }

  lemma KindFacts(was: nat, size: nat)
    requires 1 <= was && LeavesKind(was, size)
    ensures was <= 32 && (KindOf(was) == 0 || KindOf(was) == 10) && SlotWords(KindOf(was)) == SlotSize(was)
    ensures (SlotSize(was) == 2 || SlotSize(was) == 4) && Grant(SlotSize(was), was)
    ensures size > 32 || SlotSize(size) != SlotSize(was)
    ensures BackingSize(KindOf(was)) >= 12
  {
  }

  /** The run has come to the realloc. */
  ghost predicate Prepared(s: Snapshot, was: nat, size: nat, p: nat)
  {
    && s.OK() && FIRST <= |s.mem| && KindOf(was) < SLABS
    && s.live == map[FIRST + 1 := 6][p := SlotSize(was)] && p == FIRST + TakenWords(size) + 9
    && Table(s.mem, KindOf(was)) == FIRST + TakenWords(size) + 1 && p == SlotPtr(s.mem, KindOf(was), 0)
    && s.brk == FIRST + TakenWords(size) + BackingSize(KindOf(was))
  }

  lemma ReadyToMove(s: Snapshot, was: nat, size: nat, p: nat)
    requires Prepared(s, was, size, p) && 1 <= was && 1 <= size && LeavesKind(was, size)
    ensures p in s.live && s.live - {p} == map[FIRST + 1 := 6] && s.live[p] == SlotSize(was)
    ensures CanResize(s.mem, s.brk, s.B, s.live, p, size, |s.mem|)
    ensures !StaysPut(s.mem, Alloc(s.B), s.live, p, size) && !ClientBlock(s.mem, Alloc(s.B), p)
    ensures ReallocWords(s.mem, Alloc(s.B), p, size) == BlockWords(size) - 2
  {
    hide AllocatorOK, AfterFree, ClientBlock, CanServe, Table, SlotPtr, BackingSize, TakenWords, BlockWords;
    var n, t := TakenWords(size), KindOf(was);
    KindFacts(was, size);
    TakenEven(size);
    LoneInSlab(s.mem, s.brk, s.B, s.fl, s.live, n, t, SlotSize(was));
    RoomBehind(s.mem, s.brk, size, |s.mem|, t);
    assert s.live - {p} == map[FIRST + 1 := 6];
  }

  /** The run up to the realloc. */
  method PrepareLoss(words: nat, was: nat, size: nat, b: Byte) returns (a: Allocator, p: nat)
    requires 1 <= was && 1 <= size && LeavesKind(was, size) && Holds(words, was, size)
    ensures fresh(a) && fresh(a.mem) && a.mem.Length == words && Prepared(Now(a), was, size, p)
    ensures p < |a.mem[..]| && ByteAt(a.mem[..], p, 0) == b
  {
    hide AllocatorOK, Table, SlotPtr, LeavesKind, ByteOf, WithByte;
    KindFacts(was, size);
    ghost var n, t, w := TakenWords(size), KindOf(was), SlotSize(was);
    TakenEven(size);
    hide TakenWords, BackingSize, KindOf, SlotSize;
    a, p := SlotBehind(words, was, size);
    SlotAddress(a.mem[..], t, n);
    YInFront(a, n, t, w, p);
    ghost var m := a.mem[..];
    LiveInside(m, a.brk, a.B, a.fl, a.live, p);
    a.mem[p] := WithByte(a.mem[p], 0, b);
    RestoredWithin(m, a.mem[..], p, w, 1);
    PayloadWritten(m, a.mem[..], a.brk, a.B, a.fl, a.live, p);
    SlotAddress(a.mem[..], t, n);
    ByteWritten(m[p], 0, b, 0);
  }

  /**
   * And whenever it does, there is a run from a new heap on which a byte is lost: X, a slot, X freed, Y in
   * its place, the first byte b of the slot written, and realloc. Whatever b is, the first byte is then 0.
   */
  method LoseContents(words: nat, was: nat, size: nat, b: Byte) returns (a: Allocator, ptr: nat)
    requires 1 <= was && 1 <= size && LeavesKind(was, size) && Holds(words, was, size)
    ensures AllocatorOK(a.mem[..], a.brk, a.B, a.fl, a.live) && ptr in a.live
    ensures ptr < a.mem.Length && ByteAt(a.mem[..], ptr, 0) == 0
    ensures b != 0 ==> Loses(words, was, size)
  {
    hide AllocatorOK, CanResize, ClientBlock, StaysPut, Relocated, Reallocated, ReallocWords, ByteOf, LosesByte, Loses,
         LeavesKind, BlockWords;
    var p;
    a, p := PrepareLoss(words, was, size, b);
    ghost var s := Now(a);
    ReadyToMove(s, was, size, p);
    KindFacts(was, size);
    hide TakenWords, BackingSize, Table, SlotPtr;
    ptr := a.Realloc(p, size);
    ghost var z := Now(a);
    ReallocatedMeans(s.mem, s.brk, s.B, s.live, p, size, z.mem, z.brk, z.B, z.fl, z.live, ptr);
    NothingLeft(s.brk, s.live, p, z.mem, z.brk, z.B, z.fl, z.live, ptr, size);
    ZeroByte(z.mem, ptr);
    if b != 0 { IsLost(words, was, size, s, p, z, ptr); }
  }

  lemma ZeroByte(m: seq<nat>, p: nat)
    requires p < |m| && m[p] == 0
    ensures ByteAt(m, p, 0) == 0
  {
  }

  lemma IsLost(words: nat, was: nat, size: nat, s: Snapshot, p: nat, z: Snapshot, p': nat)
    requires |s.mem| == words && s.OK() && p in s.live && Grant(s.live[p], was) && z.OK() && 1 <= was && 1 <= size
    requires CanResize(s.mem, s.brk, s.B, s.live, p, size, words)
    requires Reallocated(s.mem, s.brk, s.B, s.live, p, size, z.mem, z.brk, z.B, z.fl, z.live, p')
    requires p < |s.mem| && p' < |z.mem| && ByteAt(s.mem, p, 0) != ByteAt(z.mem, p', 0)
    ensures Loses(words, was, size)
  {
    hide AllocatorOK, CanResize, Reallocated, Grant, ByteAt;
    assert LosesByte(words, was, size, s, p, z, p', 0);
  }

  /** The exact condition: the sizes alone decide whether realloc can lose what was written. */
  method LosesExactly(words: nat, was: nat, size: nat) returns (lost: bool)
    requires 1 <= was && 1 <= size && (LeavesKind(was, size) ==> Holds(words, was, size))
    ensures lost <==> LeavesKind(was, size)
    ensures lost <==> Loses(words, was, size)
  {
    hide Loses, LeavesKind, Holds;
    lost := LeavesKind(was, size);
    if lost {
      var a, ptr := LoseContents(words, was, size, 1);
    } else if Loses(words, was, size) {
      LossMeans(words, was, size);
    }
  }
}
