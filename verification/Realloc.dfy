/** What realloc needs beyond malloc and free: writing a live payload, and resizing a block in place. */
module ReallocSteps {
  import opened HeapBlocks
  import opened HeapSteps
  import opened Slabs
  import opened SlabSteps

  /** Writing words of one live payload disturbs nothing else. */
  lemma PayloadWritten(m: seq<nat>, m': seq<nat>, brk: nat, B: Blocks, fl: seq<seq<nat>>, live: map<nat, nat>, p: nat)
    requires AllocatorOK(m, brk, B, fl, live) && p in live && Within(m, m', p, p + live[p])
    ensures AllocatorOK(m', brk, B, fl, live) && LiveKept(m, m', live - {p})
    ensures FIRST <= |m| == |m'| && forall t :: 0 <= t < SLABS ==> Table(m', t) == Table(m, t)
  {
    hide *;
    Parts(m, brk, B, fl, live);
    var A := Alloc(B);
    LiveIsHanded(m, A, live, p);
    PayloadHeap(m, m', brk, B, fl, live[p], p);
    WrittenSlabs(m, m', A, brk, p, live[p]);
    WrittenLive(m, m', A, live);
    Whole(m', brk, B, fl, live);
    OthersKept(m, m', brk, B, fl, live, p);
  }

  lemma LiveIsHanded(m: seq<nat>, A: map<nat, nat>, live: map<nat, nat>, p: nat)
    requires LiveOK(m, A, live) && p in live
    ensures Handed(m, A, p, live[p])
  {
  }

  lemma PayloadHeap(m: seq<nat>, m': seq<nat>, brk: nat, B: Blocks, fl: seq<seq<nat>>, w: nat, p: nat)
    requires HeapOK(m, brk, B, fl) && SlabsOK(m, Alloc(B)) && Handed(m, Alloc(B), p, w)
    requires Within(m, m', p, p + w)
    ensures HeapOK(m', brk, B, fl)
  {
    HeapApart(m, brk, B, fl);
    var a := HandedPlace(m, Alloc(B), brk, p, w);
    hide HeapOK, SlabsOK, Handed, HandedIn, ClientBlock, Apart;
    PayloadFrame(m, m', brk, B, fl, a);
  }

  lemma WrittenSlabs(m: seq<nat>, m': seq<nat>, A: map<nat, nat>, brk: nat, p: nat, w: nat)
    requires SlabsOK(m, A) && Apart(A, brk) && brk <= |m| && Handed(m, A, p, w) && Within(m, m', p, p + w)
    ensures SlabsOK(m', A) && FIRST <= |m| == |m'|
    ensures forall t: nat, k: nat :: LiveSlot(m', t, k) <==> LiveSlot(m, t, k)
    ensures forall t :: 0 <= t < SLABS ==> Table(m', t) == Table(m, t)
  {
    var a := HandedPlace(m, A, brk, p, w);
    TablesAllocated(m, A);
    forall t, x | 0 <= t < SLABS && Table(m, t) != 0 && Table(m, t) <= x < Table(m, t) + Maps(t) && x < |m|
      ensures m'[x] == m[x]
    {
      NotInMaps(m, A, brk, p, w, t, x);
    }
    hide Handed, HandedIn, ClientBlock;
    SlabsKept(m, m', A, A, brk);
  }

  lemma WrittenLive(m: seq<nat>, m': seq<nat>, A: map<nat, nat>, live: map<nat, nat>)
    requires LiveOK(m, A, live) && FIRST <= |m| == |m'|
    requires forall t: nat, k: nat :: LiveSlot(m', t, k) <==> LiveSlot(m, t, k)
    requires forall t :: 0 <= t < SLABS ==> Table(m', t) == Table(m, t)
    ensures LiveOK(m', A, live)
  {
    forall q: nat, w: nat ensures Handed(m', A, q, w) <==> q in live && live[q] == w {
      assert ClientBlock(m', A, q) <==> ClientBlock(m, A, q);
      HandedBlocks(m, m', A, A, q, w);
    }
  }

  lemma OthersKept(m: seq<nat>, m': seq<nat>, brk: nat, B: Blocks, fl: seq<seq<nat>>, live: map<nat, nat>, p: nat)
    requires AllocatorOK(m, brk, B, fl, live) && p in live && Within(m, m', p, p + live[p])
    ensures LiveKept(m, m', live - {p})
  {
    forall q | q in live && q != p ensures q + live[q] <= p || p + live[p] <= q {
      if q < p { LiveApart(m, brk, B, fl, live, q, p); } else { LiveApart(m, brk, B, fl, live, p, q); }
    }
    hide AllocatorOK;
  }

  /** A client block changes size in place. */
  lemma BlockResized(m: seq<nat>, brk: nat, B: Blocks, fl: seq<seq<nat>>, live: map<nat, nat>,
                     m': seq<nat>, B': Blocks, fl': seq<seq<nat>>, p: nat, n: nat)
    requires AllocatorOK(m, brk, B, fl, live) && HeapOK(m', brk, B', fl') && n >= 2
    requires ClientBlock(m, Alloc(B), p)
    requires Alloc(B') == Alloc(B)[p - 1 := n] && Keeps(m, m', Alloc(B) - {p - 1})
    ensures AllocatorOK(m', brk, B', fl', live[p := n - 2]) && LiveKept(m, m', live - {p}) && p in live
  {
    hide AllocatorOK, HeapOK, SlabsOK, LiveOK, Apart, Alloc, Keeps, LiveSlot;
    Parts(m, brk, B, fl, live);
    var A, A' := Alloc(B), Alloc(B');
    ClientNoTable(m, A, p);
    KeptTables(m, m', A, A - {p - 1}, brk);
    KeptPayloads(m, m', A, A - {p - 1}, brk, live, live - {p});
    SlabsKept(m, m', A, A', brk);
    ResizedLive(m, m', A, A', brk, live, p, n);
    Whole(m', brk, B', fl', live[p := n - 2]);
  }

  lemma ResizedLive(m: seq<nat>, m': seq<nat>, A: map<nat, nat>, A': map<nat, nat>, brk: nat,
                    live: map<nat, nat>, p: nat, n: nat)
    requires SlabsOK(m, A) && Apart(A, brk) && LiveOK(m, A, live) && FIRST <= |m| == |m'|
    requires ClientBlock(m, A, p) && A' == A[p - 1 := n] && n >= 2
    requires forall t :: 0 <= t < SLABS ==> Table(m', t) == Table(m, t)
    requires forall t: nat, k: nat :: LiveSlot(m', t, k) <==> LiveSlot(m, t, k)
    ensures LiveOK(m', A', live[p := n - 2]) && p in live
  {
    var live' := live[p := n - 2];
    assert Handed(m, A, p, A[p - 1] - 2);
    forall q: nat, w: nat ensures Handed(m', A', q, w) <==> q in live' && live'[q] == w {
      if q == p {
        forall t: nat, k: nat ensures !SlotAt(m', t, k, p) {
          if SlotAt(m, t, k, p) { SlotPlace(m, A, brk, t, k); }
        }
      } else {
        assert ClientBlock(m', A', q) <==> ClientBlock(m, A, q);
        HandedBlocks(m, m', A, A', q, w);
      }
    }
  }

  // ---------- splitting an allocated block ----------

  /** The tags of both parts. */
  function BothTagged(m: seq<nat>, a: nat, n: nat, rest: nat): (r: seq<nat>)
    requires n >= 2 && rest >= 2 && a + n + rest <= |m|
    ensures |r| == |m|
  {
    TagBlock(TagBlock(m, a, Blk(n, false)), a + n, Blk(rest, false))
  }

  /** Both parts of an allocated block stay allocated. */
  lemma SplitAllocated(m: seq<nat>, brk: nat, B: Blocks, fl: seq<seq<nat>>, a: nat, n: nat)
    requires HeapOK(m, brk, B, fl) && a in B && !B[a].free && 2 <= n && n % 2 == 0 && n + 2 <= B[a].size
    requires n >= 4 || a != FIRST
    ensures a + B[a].size <= |m|
    ensures var m', B' := BothTagged(m, a, n, B[a].size - n), Carved(B, a, n, false, false);
      && HeapOK(m', brk, B', fl)
      && a + n in B' && !B'[a + n].free
      && Keeps(m, m', Alloc(B) - {a})
      && Alloc(B') - {a + n} == Alloc(B)[a := n]
      && Within(m, m', a, a + B[a].size)
  {
    hide *;
    var e := a + B[a].size;
    BlockFacts(m, brk, B, fl, a);
    var m' := BothTagged(m, a, n, B[a].size - n);
    SplitTagsBoth(m, B, a, n);
    WithinKeeps(m, m', brk, B, a, e, Alloc(B) - {a});
    CarvedAllocated(B, a, n);
    CarvedHeap(m, m', brk, B, fl, a, n);
  }

  lemma BlockFacts(m: seq<nat>, brk: nat, B: Blocks, fl: seq<seq<nat>>, a: nat)
    requires HeapOK(m, brk, B, fl) && a in B
    ensures Tiled(B, brk) && Boundary(B, brk, a + B[a].size) && a + B[a].size <= |m|
    ensures forall x :: x in B && a < x ==> a + B[a].size <= x
    ensures forall b :: b in Alloc(B) - {a} ==> b in B && B[b].size == (Alloc(B) - {a})[b] && !(a <= b < a + B[a].size)
    ensures B[a].size % 2 == 0
  {
    BlockEnd(brk, B, a);
  }

  lemma SplitTagsBoth(m: seq<nat>, B: Blocks, a: nat, n: nat)
    requires a in B && 2 <= n && n + 2 <= B[a].size && B[a].size % 2 == 0 && n % 2 == 0 && a + B[a].size <= |m|
    ensures var m', B' := BothTagged(m, a, n, B[a].size - n), Carved(B, a, n, false, false);
      && Within(m, m', a, a + B[a].size) && TagAt(m', B', a) && TagAt(m', B', a + n)
  {
    TagBlockTags(m, a, Blk(n, false));
    TagBlockTags(TagBlock(m, a, Blk(n, false)), a + n, Blk(B[a].size - n, false));
    hide TagBlock;
  }

  lemma CarvedAllocated(B: Blocks, a: nat, n: nat)
    requires a in B && !B[a].free && 0 < n < B[a].size
    requires forall x :: x in B && a < x ==> a + B[a].size <= x
    ensures var B' := Carved(B, a, n, false, false);
      Alloc(B') - {a + n} == Alloc(B)[a := n] && a + n in B' && !B'[a + n].free
  {
  }

  lemma CarvedHeap(m: seq<nat>, m': seq<nat>, brk: nat, B: Blocks, fl: seq<seq<nat>>, a: nat, n: nat)
    requires HeapOK(m, brk, B, fl) && a in B && !B[a].free && 2 <= n && n % 2 == 0 && n + 2 <= B[a].size
    requires n >= 4 || a != FIRST
    requires Within(m, m', a, a + B[a].size)
    requires var B' := Carved(B, a, n, false, false); TagAt(m', B', a) && TagAt(m', B', a + n)
    ensures HeapOK(m', brk, Carved(B, a, n, false, false), fl)
  {
    hide Tiled, Aligned, Tagged, NoAdjacentFree, Members, AllLinked, OffLists, TagAt, Boundary;
    BlockEnd(brk, B, a);
    CarvedAllocSeparated(B, brk, a, n);
    CarvedAllocAligned(B, a, n);
    AllocatedOff(B, brk, a);
    Carve(m, m', brk, B, fl, {}, a, n, false, false);
    var none: set<nat> := {};
    assert none + none == none;
  }

  lemma AllocatedOff(B: Blocks, brk: nat, a: nat)
    requires Tiled(B, brk) && a in B && !B[a].free
    ensures OffLists(B, {}, a, a + B[a].size) && FIRST <= a < brk
  {
    BlockEnd(brk, B, a);
  }

  lemma CarvedAllocSeparated(B: Blocks, brk: nat, a: nat, n: nat)
    requires Tiled(B, brk) && NoAdjacentFree(B)
    requires a in B && !B[a].free && 2 <= n && n + 2 <= B[a].size
    ensures NoAdjacentFree(Carved(B, a, n, false, false))
  {
    var B' := Carved(B, a, n, false, false);
    BlockEnd(brk, B, a);
    forall x | x in B' ensures Separated(B', x) {
      if x in B { assert Separated(B, x); }
    }
  }

  lemma CarvedAllocAligned(B: Blocks, a: nat, n: nat)
    requires Aligned(B) && a in B && n % 2 == 0 && n <= B[a].size
    ensures Aligned(Carved(B, a, n, false, false))
  {
  }

  /** No slab covers any part of a client block. */
  lemma InnerNotInRange(m: seq<nat>, A: map<nat, nat>, brk: nat, p: nat, q: nat, u: nat)
    requires SlabsOK(m, A) && Apart(A, brk) && u < SLABS && ClientBlock(m, A, p)
    requires p <= q < p - 1 + A[p - 1]
    ensures !InRange(m, u, q)
  {
    assert SlabOK(m, A, u);
  }
}
