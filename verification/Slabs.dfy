/** The slabs for requests of 16 and of 32 bytes, as a view of the heap words.

    Slab t is the t-th entry of the two tables, which lie one after the other: 0-9 hold slots of
    16 bytes (2 words), 10-23 hold slots of 32 bytes (4 words). The payload of a slab's backing
    block starts with its bitmaps; slot k belongs to bit 63 - k % 64 of map k / 64. */
module Slabs {
  import opened Bits
  import opened HeapBlocks

  const SLABS: nat := 24
  const FULL := 0xFFFF_FFFF_FFFF_FFFF

  function SlotWords(t: nat): nat
  {
    if t < 10 then 2 else 4
  }

  /** The number of bitmaps of slab t. */
  function Maps(t: nat): nat
  {
    if (if t < 10 then t else t - 10) > 8 then 32 else 8
  }

  function SlotOffset(t: nat, k: nat): nat
  {
    if t < 10 then 2 * k else 4 * k
  }

  /** The size in words of the backing block, tags included. */
  function BackingSize(t: nat): nat
  {
    Maps(t) + SlotOffset(t, 64 * Maps(t)) + 2
  }

  function Table(m: seq<nat>, t: nat): nat
    requires t < SLABS && FIRST <= |m|
  {
    m[SLABS16 + t]
  }

  function SlotPtr(m: seq<nat>, t: nat, k: nat): nat
    requires t < SLABS && FIRST <= |m|
  {
    Table(m, t) + Maps(t) + SlotOffset(t, k)
  }

  /** Slot k of slab t is handed out: its bit is set. */
  ghost predicate LiveSlot(m: seq<nat>, t: nat, k: nat)
  {
    && t < SLABS && FIRST <= |m| && k < 64 * Maps(t)
    && Table(m, t) != 0 && Table(m, t) + k / 64 < |m|
    && Bit(m[Table(m, t) + k / 64], 63 - k % 64)
  }

  /** A slab is absent, or it is an allocated block with 64-bit maps, not all of them zero. */
  ghost predicate SlabOK(m: seq<nat>, A: map<nat, nat>, t: nat)
    requires t < SLABS && FIRST <= |m|
  {
    var s := Table(m, t);
    s != 0 ==>
      && s - 1 in A && A[s - 1] == BackingSize(t) && s + Maps(t) <= |m|
      && (forall j :: s <= j < s + Maps(t) ==> m[j] <= FULL)
      && (exists j :: s <= j < s + Maps(t) && m[j] != 0)
  }

  ghost predicate SlabsOK(m: seq<nat>, A: map<nat, nat>)
  {
    && FIRST <= |m|
    && (forall t :: 0 <= t < SLABS ==> SlabOK(m, A, t))
    && (forall t, u :: 0 <= t < SLABS && 0 <= u < SLABS && t != u && Table(m, t) != 0 ==>
          Table(m, t) != Table(m, u))
  }

  /** Allocated blocks are aligned, inside the heap and apart. */
  ghost predicate Apart(A: map<nat, nat>, brk: nat)
  {
    && (forall a :: a in A ==> FIRST <= a && a % 2 == 1 && 2 <= A[a] && A[a] % 2 == 0 && a + A[a] <= brk)
    && (forall a, b :: a in A && b in A && a < b ==> a + A[a] <= b)
  }

  lemma HeapApart(m: seq<nat>, brk: nat, B: Blocks, fl: seq<seq<nat>>)
    requires HeapOK(m, brk, B, fl)
    ensures Apart(Alloc(B), brk) && brk <= |m| && FIRST <= |m|
  {
  }

  /** p is the payload of an allocated block that is no slab. */
  ghost predicate ClientBlock(m: seq<nat>, A: map<nat, nat>, p: nat)
  {
    && FIRST <= |m| && 1 <= p && p - 1 in A
    && forall t :: 0 <= t < SLABS ==> Table(m, t) != p
  }

  ghost predicate SlotAt(m: seq<nat>, t: nat, k: nat, p: nat)
  {
    LiveSlot(m, t, k) && SlotPtr(m, t, k) == p
  }

  ghost predicate HandedSlot(m: seq<nat>, p: nat, w: nat)
  {
    exists t: nat, k: nat :: SlotAt(m, t, k, p) && w == SlotWords(t)
  }

  /** p is handed out with w words: a client block, or a slot whose bit is set. */
  ghost predicate Handed(m: seq<nat>, A: map<nat, nat>, p: nat, w: nat)
  {
    (ClientBlock(m, A, p) && A[p - 1] == w + 2) || HandedSlot(m, p, w)
  }

  /** live records exactly what is handed out, each pointer with its number of words. */
  ghost predicate LiveOK(m: seq<nat>, A: map<nat, nat>, live: map<nat, nat>)
  {
    forall p: nat, w: nat {:trigger Handed(m, A, p, w)} :: Handed(m, A, p, w) <==> p in live && live[p] == w
  }

  /** The whole invariant: blocks, lists, slabs and live pointers. */
  ghost predicate AllocatorOK(m: seq<nat>, brk: nat, B: Blocks, fl: seq<seq<nat>>, live: map<nat, nat>)
  {
    HeapOK(m, brk, B, fl) && SlabsOK(m, Alloc(B)) && LiveOK(m, Alloc(B), live)
  }

  // ---------- geometry ----------

  /** A slot lies inside the backing block, after the maps and before the footer. */
  lemma SlotInside(m: seq<nat>, A: map<nat, nat>, t: nat, k: nat)
    requires SlabsOK(m, A) && t < SLABS && Table(m, t) != 0 && k < 64 * Maps(t)
    ensures var s := Table(m, t);
      && s - 1 in A && A[s - 1] == BackingSize(t)
      && s + Maps(t) <= SlotPtr(m, t, k)
      && SlotPtr(m, t, k) + SlotWords(t) <= s - 1 + BackingSize(t) - 1
      && s + k / 64 < s + Maps(t) <= |m|
  {
    assert SlabOK(m, A, t);
  }

  lemma SlotsApart(m: seq<nat>, t: nat, k: nat, j: nat)
    requires t < SLABS && FIRST <= |m| && k < j
    ensures SlotPtr(m, t, k) + SlotWords(t) <= SlotPtr(m, t, j)
  {
  }

  /** The range test of free and realloc: p lies strictly inside slab t. */
  predicate InRange(m: seq<nat>, t: nat, p: nat)
    requires t < SLABS && FIRST <= |m|
  {
    Table(m, t) != 0 && Table(m, t) < p < Table(m, t) + BackingSize(t) - 2
  }

  /** Every slot passes the range test of its own slab and of no other. */
  lemma SlotInRange(m: seq<nat>, A: map<nat, nat>, brk: nat, t: nat, k: nat, u: nat)
    requires SlabsOK(m, A) && Apart(A, brk) && t < SLABS && u < SLABS
    requires Table(m, t) != 0 && k < 64 * Maps(t)
    ensures InRange(m, u, SlotPtr(m, t, k)) <==> u == t
  {
    SlotInside(m, A, t, k);
    if u != t && Table(m, u) != 0 {
      assert SlabOK(m, A, u);
    }
  }

  /** The payload of any allocated block, client block or slab, fails every range test. */
  lemma BlockNotInRange(m: seq<nat>, A: map<nat, nat>, brk: nat, p: nat, u: nat)
    requires SlabsOK(m, A) && Apart(A, brk) && u < SLABS && 1 <= p && p - 1 in A
    ensures !InRange(m, u, p)
  {
    assert SlabOK(m, A, u);
  }

  // ---------- the pointers handed out ----------

  /** Where a handed-out pointer lies: in the allocated block owner, in words that only it uses. */
  lemma HandedPlace(m: seq<nat>, A: map<nat, nat>, brk: nat, p: nat, w: nat) returns (owner: nat)
    requires SlabsOK(m, A) && Apart(A, brk) && Handed(m, A, p, w)
    ensures owner in A && owner < p && p + w <= owner + A[owner] - 1
    ensures p % 2 == 0
    ensures if ClientBlock(m, A, p) then owner == p - 1 else HandedIn(m, owner, p, w)
    ensures ClientBlock(m, A, p) <==> ClientBlock(m, A, owner + 1)
  {
    if ClientBlock(m, A, p) && A[p - 1] == w + 2 {
      owner := p - 1;
    } else {
      var t: nat, k: nat :| SlotAt(m, t, k, p) && w == SlotWords(t);
      hide SlabOK, Handed;
      SlotPlace(m, A, brk, t, k);
      owner := Table(m, t) - 1;
    }
  }

  ghost predicate HandedIn(m: seq<nat>, owner: nat, p: nat, w: nat)
  {
    exists t: nat, k: nat :: SlotAt(m, t, k, p) && owner + 1 == Table(m, t) && w == SlotWords(t)
  }

  lemma SlotPlace(m: seq<nat>, A: map<nat, nat>, brk: nat, t: nat, k: nat)
    requires SlabsOK(m, A) && Apart(A, brk) && LiveSlot(m, t, k)
    ensures var p, s := SlotPtr(m, t, k), Table(m, t);
      && s - 1 in A && s <= p && p + SlotWords(t) <= s - 1 + A[s - 1] - 1
      && p % 2 == 0 && !ClientBlock(m, A, s) && !ClientBlock(m, A, p)
  {
    SlotInside(m, A, t, k);
    assert (Table(m, t) - 1) % 2 == 1;
    SlotEven(m, t, k);
    hide SlotPtr, Table, LiveSlot, SlabOK, BackingSize, SlotWords;
  }

  lemma SlotEven(m: seq<nat>, t: nat, k: nat)
    requires t < SLABS && FIRST <= |m| && Table(m, t) % 2 == 0
    ensures SlotPtr(m, t, k) % 2 == 0
  {
    assert SlotPtr(m, t, k) == Table(m, t) + Maps(t) + 2 * (if t < 10 then k else 2 * k);
    EvenSum(Table(m, t), Maps(t), if t < 10 then k else 2 * k);
  }

  lemma EvenSum(a: nat, b: nat, k: nat)
    requires a % 2 == 0 && b % 2 == 0
    ensures (a + b + 2 * k) % 2 == 0
  {
    assert a + b + 2 * k == 2 * (a / 2 + b / 2 + k);
  }

  /** The allocated block that a live payload lies in. */
  lemma LivePlace(m: seq<nat>, brk: nat, B: Blocks, fl: seq<seq<nat>>, live: map<nat, nat>, p: nat) returns (a: nat)
    requires AllocatorOK(m, brk, B, fl, live) && p in live
    ensures a in Alloc(B) && FIRST <= a < p && p + live[p] < a + Alloc(B)[a] <= brk <= |m| && p % 2 == 0
    ensures if ClientBlock(m, Alloc(B), p) then a == p - 1 else HandedIn(m, a, p, live[p])
    ensures ClientBlock(m, Alloc(B), p) <==> ClientBlock(m, Alloc(B), a + 1)
    ensures Apart(Alloc(B), brk)
  {
    HeapApart(m, brk, B, fl);
    assert Handed(m, Alloc(B), p, live[p]);
    hide HeapOK, SlabsOK, LiveOK, Handed, HandedIn, ClientBlock, Alloc;
    a := HandedPlace(m, Alloc(B), brk, p, live[p]);
    assert a + Alloc(B)[a] <= brk;
  }

  lemma BlocksApart(A: map<nat, nat>, brk: nat, a: nat, b: nat)
    requires Apart(A, brk) && a in A && b in A && a != b
    ensures a + A[a] <= b || b + A[b] <= a
  {
  }

  lemma SlabsSlotsApart(m: seq<nat>, a: nat, p: nat, w: nat, q: nat, v: nat)
    requires HandedIn(m, a, p, w) && HandedIn(m, a, q, v) && p < q && FIRST <= |m|
    requires forall t, u :: 0 <= t < SLABS && 0 <= u < SLABS && t != u && Table(m, t) != 0 ==>
      Table(m, t) != Table(m, u)
    ensures p + w <= q
  {
    hide Bit, SlotWords, SlotPtr;
    var t: nat, k: nat :| SlotAt(m, t, k, p) && a + 1 == Table(m, t) && w == SlotWords(t);
    var u: nat, j: nat :| SlotAt(m, u, j, q) && a + 1 == Table(m, u);
    if k < j { SlotsApart(m, t, k, j); } else if j < k { SlotsApart(m, t, j, k); }
  }

  lemma TablesDiffer(m: seq<nat>, brk: nat, B: Blocks, fl: seq<seq<nat>>, live: map<nat, nat>)
    requires AllocatorOK(m, brk, B, fl, live)
    ensures FIRST <= |m|
    ensures forall t, u :: 0 <= t < SLABS && 0 <= u < SLABS && t != u && Table(m, t) != 0 ==> Table(m, t) != Table(m, u)
  {
  }

  /** One live payload is aligned and inside the heap. */
  lemma LiveAlone(m: seq<nat>, brk: nat, B: Blocks, fl: seq<seq<nat>>, live: map<nat, nat>, p: nat)
    requires AllocatorOK(m, brk, B, fl, live) && p in live
    ensures p % 2 == 0 && FIRST < p && p + live[p] <= brk <= |m|
  {
    hide *;
    var a := LivePlace(m, brk, B, fl, live, p);
  }

  /** Live payloads are 16-byte aligned, inside the heap and pairwise disjoint. */
  lemma LiveApart(m: seq<nat>, brk: nat, B: Blocks, fl: seq<seq<nat>>, live: map<nat, nat>, p: nat, q: nat)
    requires AllocatorOK(m, brk, B, fl, live) && p in live && q in live && p < q
    ensures p % 2 == 0 && FIRST < p && q + live[q] <= brk <= |m|
    ensures p + live[p] <= q
  {
    hide *;
    var a := LivePlace(m, brk, B, fl, live, p);
    var b := LivePlace(m, brk, B, fl, live, q);
    if a != b {
      BlocksApart(Alloc(B), brk, a, b);
    } else if !ClientBlock(m, Alloc(B), p) {
      TablesDiffer(m, brk, B, fl, live);
      SlabsSlotsApart(m, a, p, live[p], q, live[q]);
    }
  }
}
