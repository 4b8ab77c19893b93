/** How each change of the heap words moves the set of live pointers. */
module SlabSteps {
  import opened Bits
  import opened HeapBlocks
  import opened Slabs

  /** The words of every live payload are the same in m and m'. */
  ghost predicate LiveKept(m: seq<nat>, m': seq<nat>, live: map<nat, nat>)
  {
    && |m'| == |m|
    && forall p, w {:trigger live[p], m'[w]} :: p in live && p <= w < p + live[p] && w < |m| ==> m'[w] == m[w]
  }

  /** Slabs other than t stay, with the same slots handed out. */
  ghost predicate OthersStay(m: seq<nat>, m': seq<nat>, t: nat)
  {
    && FIRST <= |m| == |m'|
    && (forall u :: 0 <= u < SLABS && u != t ==> Table(m', u) == Table(m, u))
    && forall u: nat, j: nat :: u != t ==> (LiveSlot(m', u, j) <==> LiveSlot(m, u, j))
  }

  // ---------- writes outside the block structure ----------

  /** Only slab-table words and payload words of the allocated block a differ. */
  ghost predicate PayloadOnly(m: seq<nat>, m': seq<nat>, B: Blocks, a: nat)
  {
    && |m'| == |m|
    && forall w :: 0 <= w < |m| && m'[w] != m[w] ==>
         SLABS16 <= w < GUARD || (a in B && !B[a].free && a < w < a + B[a].size - 1)
  }

  lemma PayloadFrame(m: seq<nat>, m': seq<nat>, brk: nat, B: Blocks, fl: seq<seq<nat>>, a: nat)
    requires HeapOK(m, brk, B, fl) && PayloadOnly(m, m', B, a)
    ensures HeapOK(m', brk, B, fl)
  {
    PayloadTags(m, m', brk, B, a);
    PayloadLists(m, m', brk, B, fl, a);
    hide Tiled, Tagged, Members, AllLinked, NoAdjacentFree, Aligned;
  }

  lemma PayloadTags(m: seq<nat>, m': seq<nat>, brk: nat, B: Blocks, a: nat)
    requires Tiled(B, brk) && Tagged(m, B) && PayloadOnly(m, m', B, a)
    ensures Tagged(m', B)
  {
    forall x | x in B ensures m'[x] == m[x] && m'[x + B[x].size - 1] == m[x + B[x].size - 1] {
    }
  }

  lemma PayloadLists(m: seq<nat>, m': seq<nat>, brk: nat, B: Blocks, fl: seq<seq<nat>>, a: nat)
    requires brk <= |m| && Tiled(B, brk) && ListsOK(m, B, fl, {}) && PayloadOnly(m, m', B, a)
    ensures AllLinked(m', fl)
  {
    forall i | 0 <= i < LISTS ensures Linked(m', i, fl[i]) {
      forall x | x in fl[i] ensures x in B && B[x].size >= 4 && B[x].free {
        assert Listed(B, {}, x, i);
      }
      LinksInRange(m, i, fl[i]);
      LinkedFrame(m, m', i, fl[i]);
    }
  }

  // ---------- block malloc and block free ----------

  /** Slabs read the same wherever their blocks and the tables are kept. */
  lemma SlabKept(m: seq<nat>, m': seq<nat>, A: map<nat, nat>, A': map<nat, nat>, t: nat)
    requires t < SLABS && FIRST <= |m| == |m'| && SlabOK(m, A, t) && Table(m', t) == Table(m, t)
    requires Table(m, t) != 0 ==> Table(m, t) - 1 in A' && A'[Table(m, t) - 1] == BackingSize(t)
    requires Table(m, t) != 0 ==>
      forall w :: Table(m, t) <= w < Table(m, t) + Maps(t) && w < |m| ==> m'[w] == m[w]
    ensures SlabOK(m', A', t)
  {
    var s := Table(m, t);
    if s != 0 {
      var j :| s <= j < s + Maps(t) && m[j] != 0;
      assert m'[j] == m[j];
    }
  }

  lemma SlabsKept(m: seq<nat>, m': seq<nat>, A: map<nat, nat>, A': map<nat, nat>, brk: nat)
    requires SlabsOK(m, A) && Apart(A, brk) && brk <= |m| && |m'| == |m|
    requires forall w :: SLABS16 <= w < GUARD ==> m'[w] == m[w]
    requires forall t, w {:trigger Table(m, t), m'[w]} ::
      0 <= t < SLABS && Table(m, t) != 0 && Table(m, t) <= w < Table(m, t) + Maps(t) && w < |m| ==> m'[w] == m[w]
    requires forall t :: 0 <= t < SLABS && Table(m, t) != 0 ==>
      Table(m, t) - 1 in A' && A'[Table(m, t) - 1] == BackingSize(t)
    ensures SlabsOK(m', A')
    ensures forall t: nat, k: nat :: LiveSlot(m', t, k) <==> LiveSlot(m, t, k)
    ensures forall t :: 0 <= t < SLABS ==> Table(m', t) == Table(m, t)
  {
    forall t | 0 <= t < SLABS ensures Table(m', t) == Table(m, t) { }
    forall t | 0 <= t < SLABS ensures SlabOK(m', A', t) {
      SlabKept(m, m', A, A', t);
    }
    forall t: nat, k: nat ensures LiveSlot(m', t, k) <==> LiveSlot(m, t, k) {
      if t < SLABS && k < 64 * Maps(t) && Table(m, t) != 0 {
        SlotInside(m, A, t, k);
        assert m'[Table(m, t) + k / 64] == m[Table(m, t) + k / 64];
      }
    }
  }

  lemma KeptTables(m: seq<nat>, m': seq<nat>, A: map<nat, nat>, A': map<nat, nat>, brk: nat)
    requires SlabsOK(m, A) && Apart(A, brk) && brk <= |m| && Keeps(m, m', A')
    requires forall t :: 0 <= t < SLABS && Table(m, t) != 0 ==> Table(m, t) - 1 in A'
    requires forall a :: a in A' && a in A ==> A'[a] == A[a]
    ensures forall w :: SLABS16 <= w < GUARD ==> m'[w] == m[w]
    ensures forall t, w {:trigger Table(m, t), m'[w]} ::
      0 <= t < SLABS && Table(m, t) != 0 && Table(m, t) <= w < Table(m, t) + Maps(t) && w < |m| ==> m'[w] == m[w]
    ensures forall t :: 0 <= t < SLABS && Table(m, t) != 0 ==> A'[Table(m, t) - 1] == BackingSize(t)
  {
    forall t | 0 <= t < SLABS && Table(m, t) != 0
      ensures A'[Table(m, t) - 1] == BackingSize(t)
      ensures forall w :: Table(m, t) <= w < Table(m, t) + Maps(t) && w < |m| ==> m'[w] == m[w]
    {
      assert SlabOK(m, A, t);
      var a := Table(m, t) - 1;
      assert A'[a] == BackingSize(t);
    }
  }

  /** Words of live payloads are kept when their blocks are. */
  lemma KeptPayloads(m: seq<nat>, m': seq<nat>, A: map<nat, nat>, A': map<nat, nat>, brk: nat,
                     live: map<nat, nat>, live': map<nat, nat>)
    requires SlabsOK(m, A) && Apart(A, brk) && brk <= |m| && LiveOK(m, A, live) && Keeps(m, m', A')
    requires forall a :: a in A' ==> a in A && A'[a] == A[a]
    requires forall p :: p in live' ==> p in live && live'[p] == live[p] && !(ClientBlock(m, A, p) && p - 1 !in A')
    requires forall t :: 0 <= t < SLABS && Table(m, t) != 0 ==> Table(m, t) - 1 in A'
    ensures LiveKept(m, m', live')
  {
    forall p, w | p in live' && p <= w < p + live'[p] && w < |m| ensures m'[w] == m[w] {
      var a := OwnerKept(m, A, A', brk, live, p);
      assert A'[a] == A[a];
    }
  }

  lemma OwnerKept(m: seq<nat>, A: map<nat, nat>, A': map<nat, nat>, brk: nat, live: map<nat, nat>, p: nat)
    returns (a: nat)
    requires SlabsOK(m, A) && Apart(A, brk) && LiveOK(m, A, live)
    requires p in live && !(ClientBlock(m, A, p) && p - 1 !in A')
    requires forall t :: 0 <= t < SLABS && Table(m, t) != 0 ==> Table(m, t) - 1 in A'
    ensures a in A && a in A' && a < p && p + live[p] <= a + A[a] - 1
  {
    assert Handed(m, A, p, live[p]);
    hide SlabsOK, LiveOK, Handed, ClientBlock, Apart;
    a := HandedPlace(m, A, brk, p, live[p]);
    if !ClientBlock(m, A, p) {
      var t: nat, k: nat :| SlotAt(m, t, k, p) && a + 1 == Table(m, t) && live[p] == SlotWords(t);
    }
  }

  /** The handed-out pointers, when the slots are the same and the client blocks differ by p. */
  lemma HandedBlocks(m: seq<nat>, m': seq<nat>, A: map<nat, nat>, A': map<nat, nat>, p: nat, w: nat)
    requires FIRST <= |m| == |m'|
    requires forall t :: 0 <= t < SLABS ==> Table(m', t) == Table(m, t)
    requires forall t: nat, k: nat :: LiveSlot(m', t, k) <==> LiveSlot(m, t, k)
    requires ClientBlock(m', A', p) <==> ClientBlock(m, A, p)
    requires ClientBlock(m, A, p) ==> A'[p - 1] == A[p - 1]
    ensures Handed(m', A', p, w) <==> Handed(m, A, p, w)
  {
    assert forall t: nat, k: nat :: SlotAt(m', t, k, p) <==> SlotAt(m, t, k, p);
  }

  /** A new allocated block a of n words is a new live pointer. */
  lemma BlockMalloced(m: seq<nat>, brk: nat, B: Blocks, fl: seq<seq<nat>>, live: map<nat, nat>,
                      m': seq<nat>, brk': nat, B': Blocks, fl': seq<seq<nat>>, a: nat, n: nat)
    requires AllocatorOK(m, brk, B, fl, live) && HeapOK(m', brk', B', fl') && n >= 2
    requires a !in Alloc(B) && Alloc(B') == Alloc(B)[a := n] && Keeps(m, m', Alloc(B))
    ensures a + 1 !in live && AllocatorOK(m', brk', B', fl', live[a + 1 := n - 2])
    ensures LiveKept(m, m', live)
    ensures ClientBlock(m', Alloc(B'), a + 1)
  {
    var A, A' := Alloc(B), Alloc(B');
    HeapApart(m, brk, B, fl);
    HeapApart(m', brk', B', fl');
    hide HeapOK, Alloc;
    NewIsNotLive(m, A, brk, A', brk', live, a);
    TablesAllocated(m, A);
    KeptTables(m, m', A, A, brk);
    KeptPayloads(m, m', A, A, brk, live, live);
    SlabsKept(m, m', A, A', brk);
    BlockAddedLive(m, m', A, A', live, a, n);
  }

  lemma TablesAllocated(m: seq<nat>, A: map<nat, nat>)
    requires SlabsOK(m, A)
    ensures forall t :: 0 <= t < SLABS && Table(m, t) != 0 ==>
      Table(m, t) - 1 in A && A[Table(m, t) - 1] == BackingSize(t)
  {
    forall t | 0 <= t < SLABS && Table(m, t) != 0
      ensures Table(m, t) - 1 in A && A[Table(m, t) - 1] == BackingSize(t)
    {
      assert SlabOK(m, A, t);
    }
  }

  lemma NewIsNotLive(m: seq<nat>, A: map<nat, nat>, brk: nat, A': map<nat, nat>, brk': nat,
                     live: map<nat, nat>, a: nat)
    requires SlabsOK(m, A) && Apart(A, brk) && LiveOK(m, A, live) && Apart(A', brk')
    requires a !in A && a in A' && forall x :: x in A ==> x in A' && A'[x] == A[x]
    ensures a + 1 !in live
  {
    if a + 1 in live {
      assert Handed(m, A, a + 1, live[a + 1]);
      hide SlabsOK, LiveOK, Handed;
      var o := HandedPlace(m, A, brk, a + 1, live[a + 1]);
    }
  }

  lemma BlockAddedLive(m: seq<nat>, m': seq<nat>, A: map<nat, nat>, A': map<nat, nat>, live: map<nat, nat>,
                       a: nat, n: nat)
    requires SlabsOK(m, A) && LiveOK(m, A, live) && FIRST <= |m| == |m'|
    requires a !in A && A' == A[a := n] && n >= 2 && a + 1 !in live
    requires forall t :: 0 <= t < SLABS ==> Table(m', t) == Table(m, t)
    requires forall t: nat, k: nat :: LiveSlot(m', t, k) <==> LiveSlot(m, t, k)
    ensures LiveOK(m', A', live[a + 1 := n - 2]) && ClientBlock(m', A', a + 1)
  {
    TablesAllocated(m, A);
    var live' := live[a + 1 := n - 2];
    assert ClientBlock(m', A', a + 1);
    forall p: nat, w: nat ensures Handed(m', A', p, w) <==> p in live' && live'[p] == w {
      if p == a + 1 {
        assert !Handed(m, A, p, w);
        assert forall t: nat, k: nat :: SlotAt(m', t, k, p) <==> SlotAt(m, t, k, p);
      } else {
        assert ClientBlock(m', A', p) <==> ClientBlock(m, A, p);
        HandedBlocks(m, m', A, A', p, w);
      }
    }
  }

  /** Freeing a client block takes its pointer out of the live set. */
  lemma BlockFreed(m: seq<nat>, brk: nat, B: Blocks, fl: seq<seq<nat>>, live: map<nat, nat>,
                   m': seq<nat>, B': Blocks, fl': seq<seq<nat>>, p: nat)
    requires AllocatorOK(m, brk, B, fl, live) && HeapOK(m', brk, B', fl')
    requires ClientBlock(m, Alloc(B), p)
    requires Alloc(B') == Alloc(B) - {p - 1} && Keeps(m, m', Alloc(B'))
    ensures AllocatorOK(m', brk, B', fl', live - {p}) && LiveKept(m, m', live - {p})
    ensures FIRST <= |m| == |m'| && forall u :: 0 <= u < SLABS ==> Table(m', u) == Table(m, u)
    ensures forall u: nat, j: nat :: LiveSlot(m', u, j) <==> LiveSlot(m, u, j)
  {
    hide AllocatorOK, HeapOK, SlabsOK, LiveOK, Apart, Alloc, Keeps, LiveSlot;
    Parts(m, brk, B, fl, live);
    var A, A' := Alloc(B), Alloc(B');
    ClientNoTable(m, A, p);
    KeptTables(m, m', A, A', brk);
    KeptPayloads(m, m', A, A', brk, live, live - {p});
    SlabsKept(m, m', A, A', brk);
    BlockRemovedLive(m, m', A, A', brk, live, p);
    Whole(m', brk, B', fl', live - {p});
  }

  lemma ClientNoTable(m: seq<nat>, A: map<nat, nat>, p: nat)
    requires SlabsOK(m, A) && ClientBlock(m, A, p)
    ensures forall t :: 0 <= t < SLABS && Table(m, t) != 0 ==>
      Table(m, t) - 1 in A - {p - 1} && A[Table(m, t) - 1] == BackingSize(t)
  {
    TablesAllocated(m, A);
  }

  lemma BlockRemovedLive(m: seq<nat>, m': seq<nat>, A: map<nat, nat>, A': map<nat, nat>, brk: nat,
                         live: map<nat, nat>, p: nat)
    requires SlabsOK(m, A) && Apart(A, brk) && LiveOK(m, A, live) && FIRST <= |m| == |m'|
    requires ClientBlock(m, A, p) && A' == A - {p - 1}
    requires forall t :: 0 <= t < SLABS ==> Table(m', t) == Table(m, t)
    requires forall t: nat, k: nat :: LiveSlot(m', t, k) <==> LiveSlot(m, t, k)
    ensures LiveOK(m', A', live - {p})
  {
    var live' := live - {p};
    forall q: nat, w: nat ensures Handed(m', A', q, w) <==> q in live' && live'[q] == w {
      if q == p {
        forall t: nat, k: nat ensures !SlotAt(m', t, k, p) {
          if SlotAt(m, t, k, p) { SlotPlace(m, A, brk, t, k); }
        }
      } else {
        assert ClientBlock(m', A', q) <==> ClientBlock(m, A, q);
        HandedBlocks(m, m', A, A', q, w);
      }
    }
  }

  // ---------- setting and clearing one bit ----------

  lemma FullIsAllOnes()
    ensures Pow2(64) - 1 == FULL
  {
    Pow2Values();
  }

  /** Different slots have different addresses. */
  lemma SlotUnique(m: seq<nat>, A: map<nat, nat>, brk: nat, t: nat, k: nat, u: nat, j: nat)
    requires SlabsOK(m, A) && Apart(A, brk) && t < SLABS && u < SLABS
    requires Table(m, t) != 0 && k < 64 * Maps(t) && Table(m, u) != 0 && j < 64 * Maps(u)
    requires FIRST <= |m| && SlotPtr(m, t, k) == SlotPtr(m, u, j)
    ensures t == u && k == j
  {
    hide SlabsOK, Apart, SlotPtr;
    SlotInRange(m, A, brk, t, k, u);
    SlotInRange(m, A, brk, u, j, u);
    if k < j { SlotsApart(m, t, k, j); }
    if j < k { SlotsApart(m, t, j, k); }
    SlotWordsPositive(t);
  }

  lemma SlotWordsPositive(t: nat)
    ensures SlotWords(t) >= 2
  {
  }

  /** One bitmap word changes: it lies in no live payload, and decides only its own 64 slots. */
  lemma MapChanged(m: seq<nat>, brk: nat, B: Blocks, fl: seq<seq<nat>>, t: nat, k: nat, v: nat)
    requires HeapOK(m, brk, B, fl) && SlabsOK(m, Alloc(B)) && t < SLABS && k < 64 * Maps(t) && Table(m, t) != 0
    requires v <= FULL
    ensures Table(m, t) + k / 64 < |m|
    ensures var m' := m[Table(m, t) + k / 64 := v];
      && HeapOK(m', brk, B, fl)
      && (forall u :: 0 <= u < SLABS ==> Table(m', u) == Table(m, u))
      && (forall u :: 0 <= u < SLABS && u != t ==> SlabOK(m', Alloc(B), u))
      && (forall u: nat, j: nat :: u != t || j / 64 != k / 64 ==> (LiveSlot(m', u, j) <==> LiveSlot(m, u, j)))
      && (forall j: nat :: j / 64 == k / 64 ==> (LiveSlot(m', t, j) <==> Bit(v, 63 - j % 64)))
  {
    hide *;
    HeapApart(m, brk, B, fl);
    MapPlace(m, brk, B, t, k, v);
    var x := Table(m, t) + k / 64;
    PayloadWord(m, B, Table(m, t) - 1, x, v);
    PayloadFrame(m, m[x := v], brk, B, fl, Table(m, t) - 1);
    MapElsewhere(m, Alloc(B), brk, t, k, v);
  }

  /** The word of a bitmap lies in the payload of the slab's block. */
  lemma MapPlace(m: seq<nat>, brk: nat, B: Blocks, t: nat, k: nat, v: nat)
    requires SlabsOK(m, Alloc(B)) && Apart(Alloc(B), brk) && t < SLABS && k < 64 * Maps(t) && Table(m, t) != 0
    requires FIRST <= |m|
    ensures var s, x := Table(m, t), Table(m, t) + k / 64;
      && x < |m| && 1 <= s && s - 1 in B && !B[s - 1].free && s - 1 < x < s - 1 + B[s - 1].size - 1
      && forall u :: 0 <= u < SLABS ==> Table(m[x := v], u) == Table(m, u)
  {
    SlotInside(m, Alloc(B), t, k);
    hide SlabsOK, Apart, SlotPtr;
  }

  lemma PayloadWord(m: seq<nat>, B: Blocks, a: nat, x: nat, v: nat)
    requires a in B && !B[a].free && a < x < a + B[a].size - 1 && x < |m|
    ensures PayloadOnly(m, m[x := v], B, a)
  {
  }

  lemma MapElsewhere(m: seq<nat>, A: map<nat, nat>, brk: nat, t: nat, k: nat, v: nat)
    requires SlabsOK(m, A) && Apart(A, brk) && t < SLABS && k < 64 * Maps(t) && Table(m, t) != 0
    requires Table(m, t) + k / 64 < |m|
    ensures var m' := m[Table(m, t) + k / 64 := v];
      && (forall u :: 0 <= u < SLABS && u != t ==> SlabOK(m', A, u))
      && (forall u: nat, j: nat :: u != t || j / 64 != k / 64 ==> (LiveSlot(m', u, j) <==> LiveSlot(m, u, j)))
      && (forall j: nat :: j / 64 == k / 64 ==> (LiveSlot(m', t, j) <==> Bit(v, 63 - j % 64)))
  {
    var m' := m[Table(m, t) + k / 64 := v];
    assert SlabOK(m, A, t);
    assert Table(m', t) == Table(m, t);
    forall u | 0 <= u < SLABS && u != t ensures SlabOK(m', A, u) {
      OtherSlab(m, A, brk, t, k, v, u);
    }
    hide Bit;
    forall u: nat, j: nat | u != t || j / 64 != k / 64 ensures LiveSlot(m', u, j) <==> LiveSlot(m, u, j) {
      if u < SLABS && u != t {
        OtherSlab(m, A, brk, t, k, v, u);
        assert LiveSlot(m', u, j) <==> LiveSlot(m, u, j);
      }
    }
  }

  lemma OtherSlab(m: seq<nat>, A: map<nat, nat>, brk: nat, t: nat, k: nat, v: nat, u: nat)
    requires SlabsOK(m, A) && Apart(A, brk) && t < SLABS && k < 64 * Maps(t) && Table(m, t) != 0
    requires Table(m, t) + k / 64 < |m| && u < SLABS && u != t
    ensures var m' := m[Table(m, t) + k / 64 := v];
      SlabOK(m', A, u) && forall j: nat :: LiveSlot(m', u, j) <==> LiveSlot(m, u, j)
  {
    var m', x := m[Table(m, t) + k / 64 := v], Table(m, t) + k / 64;
    assert SlabOK(m, A, t) && SlabOK(m, A, u);
    assert Table(m', u) == Table(m, u);
    if Table(m, u) != 0 {
      assert Table(m, u) != Table(m, t);
      assert x < Table(m, u) || Table(m, u) + Maps(u) <= x;
    }
    SlabKept(m, m', A, A, u);
    hide Bit;
    forall j: nat ensures LiveSlot(m', u, j) <==> LiveSlot(m, u, j) {
      if j < 64 * Maps(u) { assert j / 64 < Maps(u); }
    }
  }

  // ---------- the live set and one slot ----------

  function WordsOf(live: map<nat, nat>, p: nat): nat
  {
    if p in live then live[p] else 0
  }

  lemma SlotAddedLive(m: seq<nat>, m': seq<nat>, A: map<nat, nat>, brk: nat, live: map<nat, nat>, t: nat, k: nat)
    requires SlabsOK(m, A) && SlabsOK(m', A) && Apart(A, brk) && LiveOK(m, A, live) && |m'| == |m|
    requires t < SLABS && !LiveSlot(m, t, k) && LiveSlot(m', t, k)
    requires forall u :: 0 <= u < SLABS ==> Table(m', u) == Table(m, u)
    requires forall u: nat, j: nat :: LiveSlot(m', u, j) <==> LiveSlot(m, u, j) || (u == t && j == k)
    ensures SlotPtr(m, t, k) !in live
    ensures LiveOK(m', A, live[SlotPtr(m, t, k) := SlotWords(t)])
  {
    var q := SlotPtr(m, t, k);
    SlotPlace(m', A, brk, t, k);
    assert SlotAt(m', t, k, q);
    forall u: nat, j: nat ensures SlotAt(m, u, j, q) ==> false {
      if SlotAt(m, u, j, q) { SlotUnique(m', A, brk, t, k, u, j); }
    }
    forall p: nat ensures ClientBlock(m', A, p) <==> ClientBlock(m, A, p) { }
    assert forall w: nat :: !Handed(m, A, q, w);
    var was := WordsOf(live, q);
    assert !Handed(m, A, q, was);
    forall p: nat, w: nat
      ensures Handed(m', A, p, w) <==> if p == q then w == SlotWords(t) else Handed(m, A, p, w)
    {
      if p == q {
        forall u: nat, j: nat ensures SlotAt(m', u, j, q) ==> u == t {
          assert SlotAt(m', u, j, q) ==> (u == t && j == k) || SlotAt(m, u, j, q);
        }
        assert SlotAt(m', t, k, q);
      } else {
        assert forall u: nat, j: nat :: SlotAt(m', u, j, p) <==> SlotAt(m, u, j, p);
      }
    }
  }

  lemma SlotRemovedLive(m: seq<nat>, m': seq<nat>, A: map<nat, nat>, brk: nat, live: map<nat, nat>, t: nat, k: nat)
    requires SlabsOK(m, A) && Apart(A, brk) && LiveOK(m, A, live) && |m'| == |m|
    requires t < SLABS && LiveSlot(m, t, k)
    requires forall u :: 0 <= u < SLABS ==> Table(m', u) == Table(m, u)
    requires forall u: nat, j: nat :: LiveSlot(m', u, j) <==> LiveSlot(m, u, j) && !(u == t && j == k)
    ensures LiveOK(m', A, live - {SlotPtr(m, t, k)})
  {
    var q := SlotPtr(m, t, k);
    SlotPlace(m, A, brk, t, k);
    forall p: nat ensures ClientBlock(m', A, p) <==> ClientBlock(m, A, p) { }
    forall p: nat, w: nat ensures Handed(m', A, p, w) <==> p != q && Handed(m, A, p, w) {
      if p == q {
        forall u: nat, j: nat ensures !SlotAt(m', u, j, q) {
          if SlotAt(m', u, j, q) { SlotUnique(m, A, brk, t, k, u, j); }
        }
      } else {
        assert forall u: nat, j: nat :: SlotAt(m', u, j, p) <==> SlotAt(m, u, j, p);
      }
    }
  }

  /** Setting the bit of a free slot hands the slot out. */
  lemma SlotSet(m: seq<nat>, brk: nat, B: Blocks, fl: seq<seq<nat>>, live: map<nat, nat>, t: nat, k: nat)
    requires AllocatorOK(m, brk, B, fl, live)
    requires t < SLABS && k < 64 * Maps(t) && Table(m, t) != 0 && !LiveSlot(m, t, k)
    ensures var x := Table(m, t) + k / 64;
      && x < |m|
      && var m' := m[x := m[x] + Pow2(63 - k % 64)];
      && SlotPtr(m, t, k) !in live
      && AllocatorOK(m', brk, B, fl, live[SlotPtr(m, t, k) := SlotWords(t)])
      && LiveKept(m, m', live)
  {
    hide *;
    Parts(m, brk, B, fl, live);
    var A, x, b := Alloc(B), Table(m, t) + k / 64, 63 - k % 64;
    SlotBit(m, A, t, k);
    FullIsAllOnes();
    SetBitBound(m[x], b, 64);
    var v := m[x] + Pow2(b);
    var m' := m[x := v];
    MapChanged(m, brk, B, fl, t, k, v);
    BitsAdded(m, m', t, k, v);
    ThisSlabOK(m, m', A, t, k, v);
    AllSlabsOK(m, m', A, t);
    assert LiveSlot(m', t, k);
    SlotAddedLive(m, m', A, brk, live, t, k);
    MapKept(m, A, brk, live, t, k, v);
    Whole(m', brk, B, fl, live[SlotPtr(m, t, k) := SlotWords(t)]);
  }

  lemma Parts(m: seq<nat>, brk: nat, B: Blocks, fl: seq<seq<nat>>, live: map<nat, nat>)
    requires AllocatorOK(m, brk, B, fl, live)
    ensures HeapOK(m, brk, B, fl) && SlabsOK(m, Alloc(B)) && LiveOK(m, Alloc(B), live)
    ensures Apart(Alloc(B), brk) && brk <= |m| && FIRST <= |m|
  {
    HeapApart(m, brk, B, fl);
  }

  lemma Whole(m: seq<nat>, brk: nat, B: Blocks, fl: seq<seq<nat>>, live: map<nat, nat>)
    requires HeapOK(m, brk, B, fl) && SlabsOK(m, Alloc(B)) && LiveOK(m, Alloc(B), live)
    ensures AllocatorOK(m, brk, B, fl, live)
  {
  }

  /** Slot k is live when its bit of its map is set. */
  lemma SlotBit(m: seq<nat>, A: map<nat, nat>, t: nat, k: nat)
    requires SlabsOK(m, A) && t < SLABS && k < 64 * Maps(t) && Table(m, t) != 0
    ensures var x := Table(m, t) + k / 64;
      && x < |m| && m[x] <= FULL && k / 64 < Maps(t)
      && (LiveSlot(m, t, k) <==> Bit(m[x], 63 - k % 64))
  {
    assert SlabOK(m, A, t);
    hide Bit;
  }

  lemma AllSlabsOK(m: seq<nat>, m': seq<nat>, A: map<nat, nat>, t: nat)
    requires SlabsOK(m, A) && t < SLABS && FIRST <= |m| == |m'|
    requires forall u :: 0 <= u < SLABS ==> Table(m', u) == Table(m, u)
    requires forall u :: 0 <= u < SLABS && u != t ==> SlabOK(m', A, u)
    requires SlabOK(m', A, t)
    ensures SlabsOK(m', A)
  {
    forall u | 0 <= u < SLABS ensures SlabOK(m', A, u) { }
    hide SlabOK;
  }

  lemma BitsAdded(m: seq<nat>, m': seq<nat>, t: nat, k: nat, v: nat)
    requires t < SLABS && k < 64 * Maps(t) && FIRST <= |m| == |m'| && Table(m, t) != 0
    requires Table(m, t) + k / 64 < |m| && Table(m', t) == Table(m, t)
    requires !LiveSlot(m, t, k) && v == m[Table(m, t) + k / 64] + Pow2(63 - k % 64)
    requires forall u: nat, j: nat :: u != t || j / 64 != k / 64 ==> (LiveSlot(m', u, j) <==> LiveSlot(m, u, j))
    requires forall j: nat :: j / 64 == k / 64 ==> (LiveSlot(m', t, j) <==> Bit(v, 63 - j % 64))
    ensures forall u: nat, j: nat :: LiveSlot(m', u, j) <==> LiveSlot(m, u, j) || (u == t && j == k)
  {
    hide Bit, Pow2;
    forall j: nat | j / 64 == k / 64 ensures LiveSlot(m', t, j) <==> LiveSlot(m, t, j) || j == k {
      SetBit(m[Table(m, t) + k / 64], 63 - k % 64, 63 - j % 64);
    }
  }

  /** The slab stays well formed when its changed map is not zero. */
  lemma ThisSlabOK(m: seq<nat>, m': seq<nat>, A: map<nat, nat>, t: nat, k: nat, v: nat)
    requires SlabsOK(m, A) && t < SLABS && k < 64 * Maps(t) && Table(m, t) != 0
    requires Table(m, t) + k / 64 < |m| && m' == m[Table(m, t) + k / 64 := v]
    requires Table(m', t) == Table(m, t) && v <= FULL
    requires v != 0 || exists j :: Table(m, t) <= j < Table(m, t) + Maps(t) && j < |m| && m'[j] != 0
    ensures SlabOK(m', A, t)
  {
    assert SlabOK(m, A, t);
    if v != 0 { assert m'[Table(m, t) + k / 64] != 0; }
  }

  /** No map word lies in a live payload. */
  lemma MapKept(m: seq<nat>, A: map<nat, nat>, brk: nat, live: map<nat, nat>, t: nat, k: nat, v: nat)
    requires SlabsOK(m, A) && Apart(A, brk) && LiveOK(m, A, live)
    requires t < SLABS && k < 64 * Maps(t) && Table(m, t) != 0 && Table(m, t) + k / 64 < |m|
    ensures LiveKept(m, m[Table(m, t) + k / 64 := v], live)
  {
    var x := Table(m, t) + k / 64;
    forall p | p in live ensures !(p <= x < p + live[p]) {
      assert Handed(m, A, p, live[p]);
      NotInMaps(m, A, brk, p, live[p], t, x);
    }
  }

  lemma NotInMaps(m: seq<nat>, A: map<nat, nat>, brk: nat, p: nat, w: nat, t: nat, x: nat)
    requires SlabsOK(m, A) && Apart(A, brk) && Handed(m, A, p, w)
    requires t < SLABS && Table(m, t) != 0 && Table(m, t) <= x < Table(m, t) + Maps(t)
    ensures !(p <= x < p + w)
  {
    assert SlabOK(m, A, t);
    var o := HandedPlace(m, A, brk, p, w);
    if o == Table(m, t) - 1 && !ClientBlock(m, A, p) {
      var u: nat, k: nat :| SlotAt(m, u, k, p) && o + 1 == Table(m, u) && w == SlotWords(u);
      assert u == t;
    }
    hide Handed;
  }

  /** Clearing the bit of a live slot takes it back, as long as the slab keeps a live slot. */
  lemma SlotClear(m: seq<nat>, brk: nat, B: Blocks, fl: seq<seq<nat>>, live: map<nat, nat>, t: nat, k: nat)
    requires AllocatorOK(m, brk, B, fl, live) && t < SLABS && LiveSlot(m, t, k)
    ensures var x := Table(m, t) + k / 64;
      && x < |m| && Pow2(63 - k % 64) <= m[x]
      && var m' := m[x := m[x] - Pow2(63 - k % 64)];
      && HeapOK(m', brk, B, fl) && LiveKept(m, m', live)
      && (forall u :: 0 <= u < SLABS ==> Table(m', u) == Table(m, u))
      && (forall u :: 0 <= u < SLABS && u != t ==> SlabOK(m', Alloc(B), u))
      && (forall u: nat, j: nat :: LiveSlot(m', u, j) <==> LiveSlot(m, u, j) && !(u == t && j == k))
      && ((exists j :: Table(m, t) <= j < Table(m, t) + Maps(t) && j < |m| && m'[j] != 0) ==>
            AllocatorOK(m', brk, B, fl, live - {SlotPtr(m, t, k)}))
  {
    hide *;
    Parts(m, brk, B, fl, live);
    var A, x, b := Alloc(B), Table(m, t) + k / 64, 63 - k % 64;
    LiveSlotRange(m, t, k);
    SlotBit(m, A, t, k);
    ClearBit(m[x], b, b);
    var v := m[x] - Pow2(b);
    var m' := m[x := v];
    MapChanged(m, brk, B, fl, t, k, v);
    BitsRemoved(m, m', t, k, v);
    MapKept(m, A, brk, live, t, k, v);
    SlotRemovedLive(m, m', A, brk, live, t, k);
    if exists j :: Table(m, t) <= j < Table(m, t) + Maps(t) && j < |m| && m'[j] != 0 {
      ThisSlabOK(m, m', A, t, k, v);
      AllSlabsOK(m, m', A, t);
      Whole(m', brk, B, fl, live - {SlotPtr(m, t, k)});
    }
  }

  lemma LiveSlotRange(m: seq<nat>, t: nat, k: nat)
    requires LiveSlot(m, t, k)
    ensures t < SLABS && FIRST <= |m| && k < 64 * Maps(t) && Table(m, t) != 0
  {
  }

  lemma BitsRemoved(m: seq<nat>, m': seq<nat>, t: nat, k: nat, v: nat)
    requires t < SLABS && FIRST <= |m| == |m'| && LiveSlot(m, t, k) && Table(m', t) == Table(m, t)
    requires Pow2(63 - k % 64) <= m[Table(m, t) + k / 64]
    requires v == m[Table(m, t) + k / 64] - Pow2(63 - k % 64)
    requires forall u: nat, j: nat :: u != t || j / 64 != k / 64 ==> (LiveSlot(m', u, j) <==> LiveSlot(m, u, j))
    requires forall j: nat :: j / 64 == k / 64 ==> (LiveSlot(m', t, j) <==> Bit(v, 63 - j % 64))
    ensures forall u: nat, j: nat :: LiveSlot(m', u, j) <==> LiveSlot(m, u, j) && !(u == t && j == k)
  {
    hide Bit, Pow2;
    forall j: nat | j / 64 == k / 64 ensures LiveSlot(m', t, j) <==> LiveSlot(m, t, j) && j != k {
      ClearBit(m[Table(m, t) + k / 64], 63 - k % 64, 63 - j % 64);
    }
  }

  // ---------- making and dissolving a slab ----------

  lemma {:induction false} ZeroBits(k: nat)
    ensures !Bit(0, k)
  {
    if k > 0 { ZeroBits(k - 1); }
  }

  /** m' is m with the client block s turned into slab t, its first slot handed out. */
  ghost predicate Made(m: seq<nat>, m': seq<nat>, t: nat, s: nat)
    requires t < SLABS && FIRST <= |m|
  {
    && |m'| == |m| && s + Maps(t) <= |m| && FIRST <= s
    && m'[SLABS16 + t] == s
    && m'[s] == Pow2(63)
    && (forall w :: s < w < s + Maps(t) ==> m'[w] == 0)
    && (forall w :: 0 <= w < |m| && w != SLABS16 + t && !(s <= w < s + Maps(t)) ==> m'[w] == m[w])
  }

  lemma SlabMade(m: seq<nat>, m': seq<nat>, brk: nat, B: Blocks, fl: seq<seq<nat>>, live: map<nat, nat>,
                 t: nat, s: nat)
    requires AllocatorOK(m, brk, B, fl, live) && t < SLABS && Table(m, t) == 0
    requires ClientBlock(m, Alloc(B), s) && Alloc(B)[s - 1] == BackingSize(t) && Made(m, m', t, s)
    ensures SlotPtr(m', t, 0) == s + Maps(t) && s + Maps(t) !in live
    ensures AllocatorOK(m', brk, B, fl, (live - {s})[s + Maps(t) := SlotWords(t)])
    ensures LiveKept(m, m', live - {s})
  {
    hide *;
    Parts(m, brk, B, fl, live);
    var A := Alloc(B);
    MadeHeap(m, m', brk, B, fl, t, s);
    MadeSlabs(m, m', A, brk, t, s);
    MadeLive(m, m', A, brk, live, t, s);
    Whole(m', brk, B, fl, (live - {s})[s + Maps(t) := SlotWords(t)]);
  }

  lemma MadeHeap(m: seq<nat>, m': seq<nat>, brk: nat, B: Blocks, fl: seq<seq<nat>>, t: nat, s: nat)
    requires HeapOK(m, brk, B, fl) && t < SLABS && ClientBlock(m, Alloc(B), s)
    requires FIRST <= |m| && Alloc(B)[s - 1] == BackingSize(t) && Made(m, m', t, s)
    ensures HeapOK(m', brk, B, fl)
  {
    hide *;
    MadePayload(m, m', B, t, s);
    PayloadFrame(m, m', brk, B, fl, s - 1);
  }

  lemma MadePayload(m: seq<nat>, m': seq<nat>, B: Blocks, t: nat, s: nat)
    requires t < SLABS && FIRST <= |m| && ClientBlock(m, Alloc(B), s)
    requires Alloc(B)[s - 1] == BackingSize(t) && Made(m, m', t, s)
    ensures 1 <= s && PayloadOnly(m, m', B, s - 1)
  {
    hide Pow2;
  }

  lemma MadeSlabs(m: seq<nat>, m': seq<nat>, A: map<nat, nat>, brk: nat, t: nat, s: nat)
    requires SlabsOK(m, A) && Apart(A, brk) && t < SLABS && Table(m, t) == 0
    requires ClientBlock(m, A, s) && A[s - 1] == BackingSize(t) && Made(m, m', t, s)
    ensures SlabsOK(m', A)
    ensures forall u :: 0 <= u < SLABS ==> Table(m', u) == if u == t then s else Table(m, u)
    ensures forall u: nat, j: nat :: LiveSlot(m', u, j) <==> if u == t then j == 0 else LiveSlot(m, u, j)
  {
    forall u | 0 <= u < SLABS ensures Table(m', u) == if u == t then s else Table(m, u) {
    }
    FullIsAllOnes();
    Pow2Monotone(63, 64);
    NewSlabOK(m', A, t, s);
    forall u | 0 <= u < SLABS && u != t
      ensures SlabOK(m', A, u)
      ensures forall j: nat :: LiveSlot(m', u, j) <==> LiveSlot(m, u, j)
    {
      UntouchedSlab(m, m', A, brk, t, s, u);
    }
    hide Bit, Pow2, SlabOK;
    forall u: nat, j: nat ensures LiveSlot(m', u, j) <==> if u == t then j == 0 else LiveSlot(m, u, j) {
      if u < SLABS && u != t { UntouchedSlab(m, m', A, brk, t, s, u); }
    }
  }

  lemma NewSlabOK(m: seq<nat>, A: map<nat, nat>, t: nat, s: nat)
    requires t < SLABS && FIRST <= |m| && Table(m, t) == s != 0 && s + Maps(t) <= |m|
    requires s - 1 in A && A[s - 1] == BackingSize(t)
    requires m[s] == Pow2(63) <= FULL && forall w :: s < w < s + Maps(t) ==> m[w] == 0
    ensures SlabOK(m, A, t)
    ensures forall j: nat :: LiveSlot(m, t, j) <==> j == 0
  {
    hide Bit, Pow2, LiveSlot;
    assert m[s] != 0;
    forall j: nat ensures LiveSlot(m, t, j) <==> j == 0 { OnlyFirstSlot(m, t, s, j); }
  }

  lemma OnlyFirstSlot(m: seq<nat>, t: nat, s: nat, j: nat)
    requires t < SLABS && FIRST <= |m| && Table(m, t) == s != 0 && s + Maps(t) <= |m|
    requires m[s] == Pow2(63) && forall w :: s < w < s + Maps(t) ==> m[w] == 0
    ensures LiveSlot(m, t, j) <==> j == 0
  {
    hide Bit, Pow2;
    if j < 64 {
      ZeroBits(63);
      ZeroBits(63 - j);
      SetBit(0, 63, 63 - j);
    } else if j < 64 * Maps(t) {
      ZeroBits(63 - j % 64);
      assert m[s + j / 64] == 0;
    }
  }

  lemma UntouchedSlab(m: seq<nat>, m': seq<nat>, A: map<nat, nat>, brk: nat, t: nat, s: nat, u: nat)
    requires SlabsOK(m, A) && Apart(A, brk) && t < SLABS && u < SLABS && u != t
    requires ClientBlock(m, A, s) && A[s - 1] == BackingSize(t) && Made(m, m', t, s)
    requires Table(m', u) == Table(m, u)
    ensures SlabOK(m', A, u)
    ensures forall j: nat :: LiveSlot(m', u, j) <==> LiveSlot(m, u, j)
  {
    assert SlabOK(m, A, u);
    if Table(m, u) != 0 { assert Table(m, u) != s; }
    hide Bit, Pow2;
    SlabKept(m, m', A, A, u);
    forall j: nat ensures LiveSlot(m', u, j) <==> LiveSlot(m, u, j) {
      if j < 64 * Maps(u) && Table(m, u) != 0 { assert j / 64 < Maps(u); }
    }
  }

  lemma MadeLive(m: seq<nat>, m': seq<nat>, A: map<nat, nat>, brk: nat, live: map<nat, nat>, t: nat, s: nat)
    requires SlabsOK(m, A) && SlabsOK(m', A) && Apart(A, brk) && LiveOK(m, A, live)
    requires t < SLABS && Table(m, t) == 0 && ClientBlock(m, A, s) && A[s - 1] == BackingSize(t) && Made(m, m', t, s)
    requires forall u :: 0 <= u < SLABS ==> Table(m', u) == if u == t then s else Table(m, u)
    requires forall u: nat, j: nat :: LiveSlot(m', u, j) <==> if u == t then j == 0 else LiveSlot(m, u, j)
    ensures SlotPtr(m', t, 0) == s + Maps(t) && s + Maps(t) !in live
    ensures LiveOK(m', A, (live - {s})[s + Maps(t) := SlotWords(t)])
    ensures LiveKept(m, m', live - {s})
  {
    var q, live' := s + Maps(t), (live - {s})[s + Maps(t) := SlotWords(t)];
    assert SlotAt(m', t, 0, q);
    forall w: nat ensures !Handed(m, A, q, w) {
      if Handed(m, A, q, w) { InnerNotHanded(m, A, brk, s, q, w); }
    }
    var was := WordsOf(live, q);
    assert !Handed(m, A, q, was);
    forall p: nat, w: nat ensures Handed(m', A, p, w) <==> p in live' && live'[p] == w {
      MadeHanded(m, m', A, brk, t, s, p, w);
      assert Handed(m, A, p, w) <==> p in live && live[p] == w;
    }
    forall p, w | p in live - {s} && p <= w < p + live[p] && w < |m| ensures m'[w] == m[w] {
      assert Handed(m, A, p, live[p]);
      ApartFromBlock(m, A, brk, s, p, live[p]);
    }
  }

  /** No pointer but the payload itself lies in a client block. */
  lemma InnerNotHanded(m: seq<nat>, A: map<nat, nat>, brk: nat, s: nat, q: nat, w: nat)
    requires SlabsOK(m, A) && Apart(A, brk) && ClientBlock(m, A, s) && Handed(m, A, q, w)
    requires s - 1 <= q < s - 1 + A[s - 1]
    ensures q == s
  {
    var o := HandedPlace(m, A, brk, q, w);
  }

  lemma ApartFromBlock(m: seq<nat>, A: map<nat, nat>, brk: nat, s: nat, p: nat, w: nat)
    requires SlabsOK(m, A) && Apart(A, brk) && ClientBlock(m, A, s) && Handed(m, A, p, w) && p != s
    ensures FIRST < p && (p + w <= s - 1 || s - 1 + A[s - 1] <= p)
  {
    var o := HandedPlace(m, A, brk, p, w);
  }

  lemma MadeHanded(m: seq<nat>, m': seq<nat>, A: map<nat, nat>, brk: nat, t: nat, s: nat, p: nat, w: nat)
    requires SlabsOK(m, A) && SlabsOK(m', A) && Apart(A, brk)
    requires t < SLABS && Table(m, t) == 0 && ClientBlock(m, A, s) && A[s - 1] == BackingSize(t) && |m'| == |m|
    requires forall u :: 0 <= u < SLABS ==> Table(m', u) == if u == t then s else Table(m, u)
    requires forall u: nat, j: nat :: LiveSlot(m', u, j) <==> if u == t then j == 0 else LiveSlot(m, u, j)
    requires p == s + Maps(t) ==> !Handed(m, A, p, w)
    ensures Handed(m', A, p, w) <==>
      if p == s + Maps(t) then w == SlotWords(t) else p != s && Handed(m, A, p, w)
  {
    assert ClientBlock(m', A, p) <==> p != s && ClientBlock(m, A, p) by {
      if p != s && ClientBlock(m, A, p) { assert forall u :: 0 <= u < SLABS ==> Table(m', u) != p; }
      if ClientBlock(m', A, p) { assert forall u :: 0 <= u < SLABS ==> Table(m', u) != p; assert Table(m', t) == s; }
    }
    assert LiveSlot(m', t, 0);
    forall u: nat, j: nat
      ensures SlotAt(m', u, j, p) <==> if u == t then j == 0 && p == s + Maps(t) else SlotAt(m, u, j, p)
    {
    }
    if p == s {
      forall u: nat, j: nat ensures !SlotAt(m', u, j, s) {
        if SlotAt(m', u, j, s) { SlotPlace(m', A, brk, u, j); SlotInside(m', A, u, j); }
      }
    }
    if p == s + Maps(t) {
      assert SlotAt(m', t, 0, p);
      forall u: nat, j: nat ensures u != t ==> !SlotAt(m', u, j, p) {
        if u != t && SlotAt(m', u, j, p) { SlotUnique(m', A, brk, t, 0, u, j); }
      }
    } else {
      assert forall u: nat, j: nat :: SlotAt(m', u, j, p) <==> SlotAt(m, u, j, p);
    }
  }

  // ---------- dissolving a slab ----------

  /** With its last bit cleared and its table entry dropped, slab t is a client block again. */
  lemma SlabUnmade(m: seq<nat>, m1: seq<nat>, brk: nat, B: Blocks, fl: seq<seq<nat>>, live: map<nat, nat>,
                   t: nat, k: nat)
    requires AllocatorOK(m, brk, B, fl, live) && t < SLABS && LiveSlot(m, t, k)
    requires HeapOK(m1, brk, B, fl) && LiveKept(m, m1, live)
    requires forall u :: 0 <= u < SLABS ==> Table(m1, u) == Table(m, u)
    requires forall u :: 0 <= u < SLABS && u != t ==> SlabOK(m1, Alloc(B), u)
    requires forall u: nat, j: nat :: LiveSlot(m1, u, j) <==> LiveSlot(m, u, j) && !(u == t && j == k)
    requires forall j: nat :: !LiveSlot(m1, t, j)
    ensures var s, p := Table(m, t), SlotPtr(m, t, k);
      var m' := m1[SLABS16 + t := 0];
      && AllocatorOK(m', brk, B, fl, (live - {p})[s := BackingSize(t) - 2])
      && ClientBlock(m', Alloc(B), s) && s !in live && p in live
      && OthersStay(m, m', t)
      && LiveKept(m, m', live - {p})
  {
    hide AllocatorOK, HeapOK, SlabsOK, LiveOK, Apart, SlabOK, LiveSlot, ClientBlock, SlotPtr;
    Parts(m, brk, B, fl, live);
    LiveSlotRange(m, t, k);
    var A, s, p := Alloc(B), Table(m, t), SlotPtr(m, t, k);
    var m' := m1[SLABS16 + t := 0];
    UnmadeHeap(m1, brk, B, fl, t);
    UnmadeSlabs(m, m1, A, brk, t);
    UnmadeLive(m, m', A, brk, live, t, k);
    Whole(m', brk, B, fl, (live - {p})[s := BackingSize(t) - 2]);
    UnmadeKept(m, m1, A, brk, live, t, p);
  }

  lemma UnmadeHeap(m: seq<nat>, brk: nat, B: Blocks, fl: seq<seq<nat>>, t: nat)
    requires HeapOK(m, brk, B, fl) && t < SLABS && FIRST <= |m|
    ensures HeapOK(m[SLABS16 + t := 0], brk, B, fl)
  {
    PayloadFrame(m, m[SLABS16 + t := 0], brk, B, fl, 0);
  }

  lemma UnmadeSlabs(m: seq<nat>, m1: seq<nat>, A: map<nat, nat>, brk: nat, t: nat)
    requires SlabsOK(m, A) && Apart(A, brk) && t < SLABS && |m1| == |m|
    requires forall u :: 0 <= u < SLABS ==> Table(m1, u) == Table(m, u)
    requires forall u :: 0 <= u < SLABS && u != t ==> SlabOK(m1, A, u)
    requires forall j: nat :: !LiveSlot(m1, t, j)
    ensures var m' := m1[SLABS16 + t := 0];
      && SlabsOK(m', A)
      && (forall u :: 0 <= u < SLABS ==> Table(m', u) == if u == t then 0 else Table(m, u))
      && (forall u: nat, j: nat :: LiveSlot(m', u, j) <==> u != t && LiveSlot(m1, u, j))
  {
    var m' := m1[SLABS16 + t := 0];
    forall u | 0 <= u < SLABS ensures Table(m', u) == if u == t then 0 else Table(m, u) { }
    forall u | 0 <= u < SLABS ensures SlabOK(m', A, u) {
      assert SlabOK(m, A, u);
      if u != t { TableApart(m1, A, t, u); }
    }
    hide Bit, SlabOK;
    forall u: nat, j: nat ensures LiveSlot(m', u, j) <==> u != t && LiveSlot(m1, u, j) {
      if u < SLABS && u != t {
        TablesAllocated(m, A);
        TableApart(m1, A, t, u);
      }
    }
  }

  /** Changing a table entry leaves the maps of another slab alone. */
  lemma TableApart(m: seq<nat>, A: map<nat, nat>, t: nat, u: nat)
    requires t < SLABS && u < SLABS && u != t && FIRST <= |m| && SlabOK(m, A, u)
    requires Table(m, u) == 0 || FIRST < Table(m, u)
    ensures var m' := m[SLABS16 + t := 0];
      SlabOK(m', A, u) && forall j: nat :: LiveSlot(m', u, j) <==> LiveSlot(m, u, j)
  {
    var m' := m[SLABS16 + t := 0];
    assert Table(m', u) == Table(m, u);
    hide Bit;
    SlabKept(m, m', A, A, u);
    forall j: nat ensures LiveSlot(m', u, j) <==> LiveSlot(m, u, j) { }
  }

  lemma UnmadeLive(m: seq<nat>, m': seq<nat>, A: map<nat, nat>, brk: nat, live: map<nat, nat>, t: nat, k: nat)
    requires SlabsOK(m, A) && SlabsOK(m', A) && Apart(A, brk) && LiveOK(m, A, live) && |m'| == |m|
    requires t < SLABS && LiveSlot(m, t, k)
    requires forall u :: 0 <= u < SLABS ==> Table(m', u) == if u == t then 0 else Table(m, u)
    requires forall u: nat, j: nat :: LiveSlot(m', u, j) <==> u != t && LiveSlot(m, u, j)
    requires forall j: nat :: LiveSlot(m, t, j) ==> j == k
    ensures var s, p := Table(m, t), SlotPtr(m, t, k);
      && LiveOK(m', A, (live - {p})[s := BackingSize(t) - 2])
      && ClientBlock(m', A, s) && s !in live && p in live
  {
    var s, q := Table(m, t), SlotPtr(m, t, k);
    var live' := (live - {q})[s := BackingSize(t) - 2];
    SlotInside(m, A, t, k);
    assert forall u :: 0 <= u < SLABS ==> Table(m', u) != s;
    assert ClientBlock(m', A, s);
    assert SlotAt(m, t, k, q);
    assert Handed(m, A, q, SlotWords(t));
    forall p: nat, w: nat ensures Handed(m', A, p, w) <==>
      if p == s then w == BackingSize(t) - 2 else p != q && Handed(m, A, p, w)
    {
      UnmadeHanded(m, m', A, brk, t, k, p, w);
    }
    forall w: nat ensures !Handed(m, A, s, w) { UnmadeBase(m, A, brk, t, s, w); }
    var was := WordsOf(live, s);
    assert !Handed(m, A, s, was);
    forall p: nat, w: nat ensures Handed(m', A, p, w) <==> p in live' && live'[p] == w {
      assert Handed(m, A, p, w) <==> p in live && live[p] == w;
    }
  }

  /** The start of a slab is not handed out. */
  lemma UnmadeBase(m: seq<nat>, A: map<nat, nat>, brk: nat, t: nat, s: nat, w: nat)
    requires SlabsOK(m, A) && Apart(A, brk) && t < SLABS && Table(m, t) == s != 0
    ensures !Handed(m, A, s, w)
  {
    assert SlabOK(m, A, t);
    forall u: nat, j: nat ensures !SlotAt(m, u, j, s) {
      if SlotAt(m, u, j, s) {
        SlotInRange(m, A, brk, u, j, u);
        BlockNotInRange(m, A, brk, s, u);
      }
    }
  }

  lemma UnmadeHanded(m: seq<nat>, m': seq<nat>, A: map<nat, nat>, brk: nat, t: nat, k: nat, p: nat, w: nat)
    requires SlabsOK(m, A) && SlabsOK(m', A) && Apart(A, brk) && |m'| == |m|
    requires t < SLABS && LiveSlot(m, t, k)
    requires forall u :: 0 <= u < SLABS ==> Table(m', u) == if u == t then 0 else Table(m, u)
    requires forall u: nat, j: nat :: LiveSlot(m', u, j) <==> u != t && LiveSlot(m, u, j)
    requires forall j: nat :: LiveSlot(m, t, j) ==> j == k
    requires ClientBlock(m', A, Table(m, t)) && A[Table(m, t) - 1] == BackingSize(t)
    ensures Handed(m', A, p, w) <==>
      if p == Table(m, t) then w == BackingSize(t) - 2 else p != SlotPtr(m, t, k) && Handed(m, A, p, w)
  {
    var s, q := Table(m, t), SlotPtr(m, t, k);
    forall u: nat, j: nat ensures SlotAt(m', u, j, p) <==> p != q && SlotAt(m, u, j, p) {
      if SlotAt(m, u, j, p) && p == q { SlotUnique(m, A, brk, t, k, u, j); }
    }
    if p == s {
      UnmadeBase(m, A, brk, t, s, w);
      forall u: nat, j: nat ensures !SlotAt(m', u, j, s) {
        NoSlotAtBase(m, A, brk, t, u, j);
      }
    } else {
      assert ClientBlock(m', A, p) <==> ClientBlock(m, A, p);
      if p == q { SlotPlace(m, A, brk, t, k); }
      assert HandedSlot(m', p, w) <==> p != q && HandedSlot(m, p, w);
    }
  }

  lemma NoSlotAtBase(m: seq<nat>, A: map<nat, nat>, brk: nat, t: nat, u: nat, j: nat)
    requires SlabsOK(m, A) && Apart(A, brk) && t < SLABS && Table(m, t) != 0
    ensures !SlotAt(m, u, j, Table(m, t))
  {
    assert SlabOK(m, A, t);
    if SlotAt(m, u, j, Table(m, t)) {
      SlotInRange(m, A, brk, u, j, u);
      BlockNotInRange(m, A, brk, Table(m, t), u);
    }
  }

  lemma UnmadeKept(m: seq<nat>, m1: seq<nat>, A: map<nat, nat>, brk: nat, live: map<nat, nat>, t: nat, p: nat)
    requires SlabsOK(m, A) && Apart(A, brk) && LiveOK(m, A, live) && LiveKept(m, m1, live) && t < SLABS
    ensures LiveKept(m, m1[SLABS16 + t := 0], live - {p})
  {
    forall q | q in live ensures FIRST <= q {
      assert Handed(m, A, q, live[q]);
      var o := HandedPlace(m, A, brk, q, live[q]);
    }
    var m' := m1[SLABS16 + t := 0];
    forall q, w | q in live - {p} && q <= w < q + (live - {p})[q] && w < |m| ensures m'[w] == m[w] {
      assert live[q] == (live - {p})[q];
      assert m1[w] == m[w];
    }
  }

  // ---------- slot contents ----------

  /** The slot area of every slab, live slots or not, is the same in m and m'. */
  ghost predicate SlotsKept(m: seq<nat>, m': seq<nat>)
  {
    && FIRST <= |m| == |m'|
    && (forall t :: 0 <= t < SLABS && Table(m, t) != 0 ==> Table(m', t) == Table(m, t))
    && forall t, w {:trigger Table(m, t), m'[w]} ::
         0 <= t < SLABS && w < |m| && InSlots(m, t, w) ==> m'[w] == m[w]
  }

  ghost predicate InSlots(m: seq<nat>, t: nat, w: int)
    requires t < SLABS && FIRST <= |m|
  {
    Table(m, t) != 0 && Table(m, t) + Maps(t) <= w < Table(m, t) + BackingSize(t) - 2
  }

  lemma SlotsKeptTransitive(m: seq<nat>, m': seq<nat>, m'': seq<nat>)
    requires SlotsKept(m, m') && SlotsKept(m', m'')
    ensures SlotsKept(m, m'')
  {
    forall t, w | 0 <= t < SLABS && w < |m| && InSlots(m, t, w)
      ensures m''[w] == m[w]
    {
      assert Table(m', t) == Table(m, t);
      assert m'[w] == m[w];
    }
  }

  /** Keeping the allocated blocks keeps their slots. */
  lemma BlocksKeepSlots(m: seq<nat>, m': seq<nat>, A: map<nat, nat>)
    requires SlabsOK(m, A) && Keeps(m, m', A)
    ensures SlotsKept(m, m')
  {
    assert forall t :: 0 <= t < SLABS ==> Table(m', t) == Table(m, t);
    forall t, w | 0 <= t < SLABS && w < |m| && InSlots(m, t, w)
      ensures m'[w] == m[w]
    {
      assert SlabOK(m, A, t);
      var a: nat := Table(m, t) - 1;
      assert A[a] == BackingSize(t) && a <= w < a + A[a];
    }
  }

  /** A bitmap word is in no slot. */
  lemma MapKeepsSlots(m: seq<nat>, A: map<nat, nat>, brk: nat, t: nat, j: nat, v: nat)
    requires SlabsOK(m, A) && Apart(A, brk) && t < SLABS && Table(m, t) != 0 && j < Maps(t)
    requires Table(m, t) + j < |m|
    ensures SlotsKept(m, m[Table(m, t) + j := v])
  {
    var x := Table(m, t) + j;
    assert SlabOK(m, A, t);
    forall u | 0 <= u < SLABS ensures !InSlots(m, u, x) {
      assert SlabOK(m, A, t) && SlabOK(m, A, u);
      assert u != t && Table(m, u) != 0 ==> Table(m, u) != Table(m, t);
    }
    var m' := m[x := v];
    assert forall u :: 0 <= u < SLABS && Table(m, u) != 0 ==> Table(m', u) == Table(m, u);
    forall u, w | 0 <= u < SLABS && w < |m| && InSlots(m, u, w) ensures m'[w] == m[w] {
      assert InSlots(m, u, x) || w != x;
    }
  }

  /** Making slab t of a client block leaves the slots of the others alone. */
  lemma MadeKeepsSlots(m: seq<nat>, m': seq<nat>, A: map<nat, nat>, brk: nat, t: nat, s: nat)
    requires SlabsOK(m, A) && Apart(A, brk) && t < SLABS && Table(m, t) == 0
    requires ClientBlock(m, A, s) && A[s - 1] == BackingSize(t) && Made(m, m', t, s)
    ensures SlotsKept(m, m')
  {
    assert forall u :: 0 <= u < SLABS && Table(m, u) != 0 ==> Table(m', u) == Table(m, u);
    forall u, w | 0 <= u < SLABS && w < |m| && InSlots(m, u, w)
      ensures m'[w] == m[w]
    {
      assert SlabOK(m, A, u);
      assert Table(m, u) != s;
    }
    hide Pow2;
  }
}
