/** The TLB, the frame table and the page tables of all processes, and how they agree. */
module Memory {
  import opened PageTables

  const NOTHING: nat := 0xFFFF_FFFF   // -1 in a uint32_t

  datatype TLBEntry = TLBEntry(valid: bool, time: nat, vpn: nat, ppn: nat)

  const EMPTY := TLBEntry(false, 0, NOTHING, NOTHING)

  datatype Owner = Nobody | Process(p: nat)

  /** A frame of DRAM; `time` is a time stamp under LRU and the reference bit under clock. */
  datatype Frame = Frame(time: nat, owner: Owner, vpn: nat)

  /** Page tables by process, the frame table, the TLB, the finished processes, and who ran last. */
  datatype Mem = Mem(tables: seq<Node>, dram: seq<Frame>, tlb: seq<TLBEntry>, done: set<nat>, last: nat)

  // ---------- agreement ----------

  /** Every page in a page table is in the frame that its entry names. */
  ghost predicate Recorded(c: Layout, tables: seq<Node>, dram: seq<Frame>)
    requires c.Sound()
  {
    forall p: nat, v: nat :: p < |tables| && v < c.Pages() && Walk(c, tables[p], v) != FAULT ==>
      Walk(c, tables[p], v) < |dram| && Holds(dram[Walk(c, tables[p], v)], p, v)
  }

  predicate Holds(f: Frame, p: nat, v: nat)
  {
    f.owner == Process(p) && f.vpn == v
  }

  /** Frame f, if a process that is not finished owns it, is where that process's page table says. */
  ghost predicate Mapped(c: Layout, m: Mem, f: nat)
    requires c.Sound() && f < |m.dram|
  {
    m.dram[f].owner.Process? && m.dram[f].owner.p !in m.done ==>
      && m.dram[f].owner.p < |m.tables| && m.dram[f].vpn < c.Pages()
      && Walk(c, m.tables[m.dram[f].owner.p], m.dram[f].vpn) == f
  }

  ghost predicate AllMapped(c: Layout, m: Mem)
    requires c.Sound()
  {
    forall f: nat :: f < |m.dram| ==> Mapped(c, m, f)
  }

  ghost predicate TablesOK(c: Layout, m: Mem)
    requires c.Sound()
  {
    && (forall p: nat :: p < |m.tables| ==> TableOK(c, m.tables[p]))
    && forall p: nat :: p < |m.tables| && p in m.done ==> m.tables[p] == Null
  }

  /** findPTE(p, v) = f exactly when DRAM[f] records (p, v), for processes that are not finished. */
  ghost predicate Inverse(c: Layout, m: Mem)
    requires c.Sound()
  {
    TablesOK(c, m) && Recorded(c, m.tables, m.dram) && AllMapped(c, m)
  }

  /** Valid TLB entries have distinct page numbers. */
  ghost predicate Distinct(tlb: seq<TLBEntry>)
  {
    forall i: nat, j: nat :: i < j < |tlb| && tlb[i].valid && tlb[j].valid ==> tlb[i].vpn != tlb[j].vpn
  }

  predicate EntryOf(c: Layout, n: Node, e: TLBEntry)
    requires c.Sound()
  {
    e.valid ==> e.vpn < c.Pages() && e.ppn != FAULT && Walk(c, n, e.vpn) == e.ppn
  }

  /** Every valid TLB entry is what the page table of the process that ran last says. */
  ghost predicate Coherent(c: Layout, m: Mem)
    requires c.Sound()
  {
    m.last < |m.tables| && m.last !in m.done ==>
      forall i :: 0 <= i < |m.tlb| ==> EntryOf(c, m.tables[m.last], m.tlb[i])
  }

  ghost predicate MemOK(c: Layout, m: Mem)
    requires c.Sound()
  {
    Inverse(c, m) && Distinct(m.tlb) && Coherent(c, m)
  }

  /** The same, said once more as a property of frames and pages. */
  lemma InverseMeans(c: Layout, m: Mem, p: nat, v: nat, f: nat)
    requires c.Sound() && Inverse(c, m) && p < |m.tables| && p !in m.done && v < c.Pages() && f < |m.dram|
    ensures Walk(c, m.tables[p], v) == f <==> Holds(m.dram[f], p, v)
  {
    assert Mapped(c, m, f);
  }

  /** So two pages never share a frame. */
  lemma NoSharedFrame(c: Layout, m: Mem, p: nat, v: nat, q: nat, w: nat)
    requires c.Sound() && Inverse(c, m) && p < |m.tables| && q < |m.tables| && v < c.Pages() && w < c.Pages()
    requires Walk(c, m.tables[p], v) == Walk(c, m.tables[q], w) != FAULT
    ensures p == q && v == w
  {
  }

  // ---------- changes that only touch time stamps ----------

  predicate SameFrames(a: seq<Frame>, b: seq<Frame>)
  {
    |a| == |b| && forall f :: 0 <= f < |a| ==> a[f].owner == b[f].owner && a[f].vpn == b[f].vpn
  }

  predicate SameEntries(a: seq<TLBEntry>, b: seq<TLBEntry>)
  {
    |a| == |b| && forall i :: 0 <= i < |a| ==> a[i].(time := 0) == b[i].(time := 0)
  }

  lemma TimesDoNotMatter(c: Layout, m: Mem, z: Mem)
    requires c.Sound() && MemOK(c, m) && z == m.(dram := z.dram, tlb := z.tlb)
    requires SameFrames(m.dram, z.dram) && SameEntries(m.tlb, z.tlb)
    ensures MemOK(c, z)
  {
    forall f: nat | f < |z.dram| ensures Mapped(c, z, f) { assert Mapped(c, m, f); }
    forall i | 0 <= i < |z.tlb| ensures m.tlb[i].(time := 0) == z.tlb[i].(time := 0) { }
    if m.last < |m.tables| && m.last !in m.done {
      forall i | 0 <= i < |z.tlb| ensures EntryOf(c, m.tables[m.last], z.tlb[i]) {
        assert EntryOf(c, m.tables[m.last], m.tlb[i]) && m.tlb[i].(time := 0) == z.tlb[i].(time := 0);
      }
    }
  }

  // ---------- the TLB ----------

  /** The entry that TLBadd takes: the first invalid one, else the first of the least recently used. */
  predicate IsTLBVictim(tlb: seq<TLBEntry>, k: nat)
  {
    && k < |tlb|
    && if tlb[k].valid then
         && (forall i :: 0 <= i < |tlb| ==> tlb[i].valid && tlb[k].time <= tlb[i].time)
         && forall i :: 0 <= i < k ==> tlb[k].time < tlb[i].time
       else
         forall i :: 0 <= i < k ==> tlb[i].valid
  }

  lemma TLBAdded(c: Layout, m: Mem, k: nat, e: TLBEntry)
    requires c.Sound() && MemOK(c, m) && k < |m.tlb| && m.last < |m.tables|
    requires e.valid && EntryOf(c, m.tables[m.last], e)
    requires forall i :: 0 <= i < |m.tlb| ==> !(m.tlb[i].valid && m.tlb[i].vpn == e.vpn)
    ensures MemOK(c, m.(tlb := m.tlb[k := e]))
  {
    var z := m.(tlb := m.tlb[k := e]);
    forall f: nat | f < |z.dram| ensures Mapped(c, z, f) { assert Mapped(c, m, f); }
  }

  /** TLBdelete */
  function WithoutPage(tlb: seq<TLBEntry>, vpn: nat): (s: seq<TLBEntry>)
    ensures |s| == |tlb|
    ensures forall i :: 0 <= i < |s| ==> s[i] == if tlb[i].vpn == vpn then EMPTY else tlb[i]
  {
    seq(|tlb|, i requires 0 <= i < |tlb| => if tlb[i].vpn == vpn then EMPTY else tlb[i])
  }

  lemma Flushed(c: Layout, m: Mem, tlb: seq<TLBEntry>, last: nat)
    requires c.Sound() && MemOK(c, m) && forall i :: 0 <= i < |tlb| ==> tlb[i] == EMPTY
    ensures MemOK(c, m.(tlb := tlb, last := last))
  {
    var z := m.(tlb := tlb, last := last);
    forall f: nat | f < |z.dram| ensures Mapped(c, z, f) { assert Mapped(c, m, f); }
  }

  // ---------- bringing a page in ----------

  /** What DRAMadd does before it takes frame f: its page leaves the page table and the TLB. */
  function Evicted(c: Layout, m: Mem, f: nat): (z: Mem)
    requires c.Sound() && f < |m.dram|
    ensures z.dram == m.dram && z.done == m.done && z.last == m.last && |z.tables| == |m.tables|
  {
    if m.dram[f].owner.Process? && m.dram[f].owner.p < |m.tables| then
      var q, u := m.dram[f].owner.p, m.dram[f].vpn;
      m.(tables := m.tables[q := DeletePTE(c, m.tables[q], u, |m.dram|)], tlb := WithoutPage(m.tlb, u))
    else m
  }

  /** No page table names frame f, and everything else is in order. */
  ghost predicate Vacant(c: Layout, m: Mem, f: nat)
    requires c.Sound()
  {
    && TablesOK(c, m) && Recorded(c, m.tables, m.dram) && Distinct(m.tlb) && Coherent(c, m)
    && f < |m.dram| && (forall g: nat :: g < |m.dram| && g != f ==> Mapped(c, m, g))
    && Unnamed(c, m.tables, f)
  }

  ghost predicate Unnamed(c: Layout, tables: seq<Node>, f: nat)
    requires c.Sound()
  {
    forall p: nat, v: nat :: p < |tables| && v < c.Pages() ==> Walk(c, tables[p], v) != f
  }

  ghost predicate OwnersKnown(m: Mem)
  {
    forall f :: 0 <= f < |m.dram| ==> m.dram[f].owner.Process? ==> m.dram[f].owner.p < |m.tables|
  }

  lemma WalksBelow(c: Layout, m: Mem, p: nat)
    requires c.Sound() && Recorded(c, m.tables, m.dram) && p < |m.tables|
    ensures forall w: nat :: w < c.Pages() ==> Walk(c, m.tables[p], w) < |m.dram|
  {
  }

  lemma EvictedIsVacant(c: Layout, m: Mem, f: nat)
    requires c.Sound() && MemOK(c, m) && f < |m.dram| && OwnersKnown(m)
    ensures Vacant(c, Evicted(c, m, f), f)
  {
    if m.dram[f].owner.Process? {
      var q, u := m.dram[f].owner.p, m.dram[f].vpn;
      if q in m.done {
        EvictDead(c, m, f);
      } else {
        assert Mapped(c, m, f);
        WalksBelow(c, m, q);
        DeleteRefinesMap(c, m.tables[q], u, |m.dram|);
        EvictLive(c, m, f, q, u, DeletePTE(c, m.tables[q], u, |m.dram|));
      }
    }
  }

  /** A frame of a finished process is named nowhere: that process has no page table. */
  lemma EvictDead(c: Layout, m: Mem, f: nat)
    requires c.Sound() && MemOK(c, m) && f < |m.dram| && OwnersKnown(m)
    requires m.dram[f].owner.Process? && m.dram[f].owner.p in m.done
    ensures Vacant(c, Evicted(c, m, f), f)
  {
    var q, u := m.dram[f].owner.p, m.dram[f].vpn;
    var z := Evicted(c, m, f);
    assert DeletePTE(c, Null, u, |m.dram|) == Null;
    assert z.tables == m.tables;
    forall g: nat | g < |m.dram| && g != f ensures Mapped(c, z, g) { assert Mapped(c, m, g); }
    forall v: nat | v < c.Pages() ensures Walk(c, m.tables[q], v) == FAULT { EmptyTable(c, v); }
  }

  lemma EvictLive(c: Layout, m: Mem, f: nat, q: nat, u: nat, t: Node)
    requires c.Sound() && MemOK(c, m) && f < |m.dram| && q < |m.tables| && q !in m.done && u < c.Pages()
    requires Holds(m.dram[f], q, u) && TableOK(c, t)
    requires forall w: nat :: w < c.Pages() ==> Walk(c, t, w) == if w == u then FAULT else Walk(c, m.tables[q], w)
    ensures Vacant(c, m.(tables := m.tables[q := t], tlb := WithoutPage(m.tlb, u)), f)
  {
    hide Walk, Layout.Sound, Layout.Pages, TableOK;
    var z := m.(tables := m.tables[q := t], tlb := WithoutPage(m.tlb, u));
    assert Mapped(c, m, f);
    forall g: nat | g < |m.dram| && g != f ensures Mapped(c, z, g) {
      assert Mapped(c, m, g);
    }
    assert Unnamed(c, z.tables, f) by {
      forall p: nat, v: nat | p < |z.tables| && v < c.Pages() ensures Walk(c, z.tables[p], v) != f {
        if Walk(c, m.tables[p], v) == f { assert Holds(m.dram[f], p, v); }
      }
    }
  }

  lemma EvictionAddsNoPage(c: Layout, m: Mem, f: nat, p: nat, v: nat)
    requires c.Sound() && MemOK(c, m) && f < |m.dram| && OwnersKnown(m)
    requires p < |m.tables| && v < c.Pages() && Walk(c, m.tables[p], v) == FAULT
    ensures Walk(c, Evicted(c, m, f).tables[p], v) == FAULT
  {
    if m.dram[f].owner.Process? && m.dram[f].owner.p == p {
      if p in m.done {
        assert DeletePTE(c, Null, m.dram[f].vpn, |m.dram|) == Null;
      } else {
        assert Mapped(c, m, f);
        WalksBelow(c, m, p);
        DeleteRefinesMap(c, m.tables[p], m.dram[f].vpn, |m.dram|);
      }
    }
  }

  /** DRAMadd's assignment to frame f, and addPTE. */
  function Filled(c: Layout, m: Mem, f: nat, p: nat, v: nat, time: nat): Mem
    requires c.Sound() && f < |m.dram| && p < |m.tables| && v < c.Pages() && Shaped(m.tables[p], c.Sizes())
  {
    m.(dram := m.dram[f := Frame(time, Process(p), v)], tables := m.tables[p := AddPTE(c, m.tables[p], v, f)])
  }

  lemma FilledIsOK(c: Layout, m: Mem, f: nat, p: nat, v: nat, time: nat)
    requires c.Sound() && Vacant(c, m, f) && p < |m.tables| && p !in m.done && v < c.Pages()
    requires Walk(c, m.tables[p], v) == FAULT
    ensures MemOK(c, Filled(c, m, f, p, v, time))
    ensures Walk(c, Filled(c, m, f, p, v, time).tables[p], v) == f
  {
    AddRefinesMap(c, m.tables[p], v, f);
    FillWith(c, m, f, p, v, time, AddPTE(c, m.tables[p], v, f));
  }

  lemma FillWith(c: Layout, m: Mem, f: nat, p: nat, v: nat, time: nat, t: Node)
    requires c.Sound() && Vacant(c, m, f) && p < |m.tables| && p !in m.done && v < c.Pages()
    requires Walk(c, m.tables[p], v) == FAULT && TableOK(c, t)
    requires forall w: nat :: w < c.Pages() ==> Walk(c, t, w) == if w == v then f else Walk(c, m.tables[p], w)
    ensures MemOK(c, m.(dram := m.dram[f := Frame(time, Process(p), v)], tables := m.tables[p := t]))
  {
    hide Walk, Layout.Sound, Layout.Pages, TableOK;
    var z := m.(dram := m.dram[f := Frame(time, Process(p), v)], tables := m.tables[p := t]);
    forall g: nat | g < |z.dram| ensures Mapped(c, z, g) {
      if g != f { assert Mapped(c, m, g); }
    }
    if m.last < |m.tables| && m.last !in m.done {
      forall i | 0 <= i < |z.tlb| ensures EntryOf(c, z.tables[z.last], z.tlb[i]) {
        assert EntryOf(c, m.tables[m.last], m.tlb[i]);
      }
    }
  }

  /** What bringing in a page does: z is the frame table when frame f was chosen. */
  function PagedIn(c: Layout, m: Mem, z: seq<Frame>, f: nat, p: nat, v: nat, time: nat): Mem
    requires c.Sound() && f < |z| && p < |m.tables| && v < c.Pages()
    requires Shaped(Evicted(c, m.(dram := z), f).tables[p], c.Sizes())
  {
    Filled(c, Evicted(c, m.(dram := z), f), f, p, v, time)
  }

  lemma PagedInShaped(c: Layout, m: Mem, z: seq<Frame>, f: nat, p: nat)
    requires c.Sound() && MemOK(c, m) && OwnersKnown(m) && SameFrames(m.dram, z) && f < |z| && p < |m.tables|
    ensures Vacant(c, Evicted(c, m.(dram := z), f), f)
    ensures MemOK(c, m.(dram := z))
    ensures Shaped(Evicted(c, m.(dram := z), f).tables[p], c.Sizes())
    ensures Evicted(c, m.(dram := z), f) == Evicted(c, m, f).(dram := z)
  {
    hide Recorded, AllMapped, Distinct, Coherent, Walk, DeletePTE, Unnamed, Mapped;
    TimesDoNotMatter(c, m, m.(dram := z));
    EvictedIsVacant(c, m.(dram := z), f);
  }

  lemma PagedInOK(c: Layout, m: Mem, z: seq<Frame>, f: nat, p: nat, v: nat, time: nat)
    requires c.Sound() && MemOK(c, m) && OwnersKnown(m) && SameFrames(m.dram, z)
    requires f < |z| && p < |m.tables| && p !in m.done && v < c.Pages() && Walk(c, m.tables[p], v) == FAULT
    requires Shaped(Evicted(c, m.(dram := z), f).tables[p], c.Sizes())
    ensures MemOK(c, PagedIn(c, m, z, f, p, v, time)) && OwnersKnown(PagedIn(c, m, z, f, p, v, time))
    ensures Walk(c, PagedIn(c, m, z, f, p, v, time).tables[p], v) == f
  {
    hide MemOK, Vacant, Walk, DeletePTE, AddPTE, WithoutPage;
    PagedInShaped(c, m, z, f, p);
    EvictionAddsNoPage(c, m.(dram := z), f, p, v);
    FilledIsOK(c, Evicted(c, m.(dram := z), f), f, p, v, time);
  }

  // ---------- a process ends ----------

  /** cleanUpProcess frees the page tables; frames and TLB entries stay behind. */
  function Ended(m: Mem, p: nat): Mem
    requires p < |m.tables|
  {
    m.(tables := m.tables[p := Null], done := m.done + {p})
  }

  lemma EndedIsOK(c: Layout, m: Mem, p: nat)
    requires c.Sound() && MemOK(c, m) && p < |m.tables|
    ensures MemOK(c, Ended(m, p))
  {
    hide Walk, Layout.Sound, Layout.Pages, TableOK;
    var z := Ended(m, p);
    EmptyTables(c);
    forall g: nat | g < |z.dram| ensures Mapped(c, z, g) { assert Mapped(c, m, g); }
    if z.last < |z.tables| && z.last !in z.done {
      forall i | 0 <= i < |z.tlb| ensures EntryOf(c, z.tables[z.last], z.tlb[i]) {
        assert EntryOf(c, m.tables[m.last], m.tlb[i]);
      }
    }
  }

  lemma EmptyTables(c: Layout)
    requires c.Sound()
    ensures TableOK(c, Null) && forall v: nat :: Walk(c, Null, v) == FAULT
  {
  }

  // ---------- which frame DRAMadd takes ----------

  /** LRU: the first free frame, else the first of the least recently used. */
  predicate IsLRUVictim(dram: seq<Frame>, f: nat)
  {
    && f < |dram|
    && if dram[f].time != 0 then
         && (forall g :: 0 <= g < |dram| ==> dram[f].time <= dram[g].time)
         && forall g :: 0 <= g < f ==> dram[f].time < dram[g].time
       else
         forall g :: 0 <= g < f ==> dram[g].time != 0
  }

  /** clockHand is a uint16_t: it never gets past this cell. */
  const HAND_LIMIT := 0x1_0000

  /** How many frames the hand goes round. */
  function Round(frames: nat): nat
  {
    if frames < HAND_LIMIT then frames else HAND_LIMIT
  }

  /** The cell that the hand points to after j moves. */
  function Cell(hand: nat, j: nat, round: nat): nat
    requires hand < round && j <= round
  {
    if hand + j < round then hand + j else hand + j - round
  }

  /** The frame table after the hand passed j cells, clearing their reference bits. */
  ghost predicate Passed(dram: seq<Frame>, hand: nat, j: nat, z: seq<Frame>)
    requires hand < Round(|dram|) && j <= Round(|dram|)
  {
    && |z| == |dram|
    && (forall i :: 0 <= i < j ==> dram[Cell(hand, i, Round(|dram|))].time != 0)
    && forall g :: 0 <= g < |z| ==>
         z[g] == if HandPassed(hand, j, Round(|dram|), g) then dram[g].(time := 0) else dram[g]
  }

  predicate HandPassed(hand: nat, j: nat, round: nat, g: nat)
  {
    if hand + j <= round then hand <= g < hand + j else hand <= g < round || g < hand + j - round
  }

  /**
   * Clock: the first frame in circular order from the hand with reference bit 0, or the frame under
   * the hand after a full sweep if there is none; exactly the frames passed lose their bit.
   */
  ghost predicate IsClockVictim(dram: seq<Frame>, hand: nat, f: nat, z: seq<Frame>)
  {
    && hand < Round(|dram|)
    && exists j: nat :: j <= Round(|dram|) && f == Cell(hand, j, Round(|dram|)) && Passed(dram, hand, j, z)
         && (j < Round(|dram|) ==> dram[f].time == 0)
  }


  lemma EmptyMemOK(c: Layout, m: Mem)
    requires c.Sound() && m.done == {}
    requires forall p :: 0 <= p < |m.tables| ==> m.tables[p] == Null
    requires forall f :: 0 <= f < |m.dram| ==> m.dram[f].owner == Nobody
    requires forall i :: 0 <= i < |m.tlb| ==> m.tlb[i] == EMPTY
    ensures MemOK(c, m) && OwnersKnown(m)
  {
    EmptyTables(c);
  }
}
