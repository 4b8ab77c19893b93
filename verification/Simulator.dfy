/** The paging simulator: one processor, round-robin scheduling, demand paging. */
module Simulators {
  import opened PageTables
  import opened Memory
  import opened Processes

  const TWO64: nat := 0x1_0000_0000_0000_0000

  /** A value stored into a uint64_t. */
  function U64(x: int): nat
  {
    x % TWO64
  }

  /** System parameters; `lru` is page_replacement_policy == 0. */
  datatype Params = Params(layout: Layout, tlbSize: nat, frames: nat, lru: bool,
                           nonMemLength: nat, tlbLatency: nat, dramLatency: nat, swapLatency: nat,
                           trapTime: nat, interruptTime: nat)
  {
    predicate Sound()
    {
      && layout.Sound() && tlbSize >= 1 && 1 <= frames
      && 1 <= tlbLatency + dramLatency && tlbLatency + 2 * dramLatency < TWO64
    }

    /** The time of an access that hits the TLB, and of one that walks. */
    function Fast(): nat { tlbLatency + dramLatency }
    function Slow(): nat { tlbLatency + 2 * dramLatency }
  }

  const CONTEXT_SWITCH_TIME: nat := 1000
  const QUANTUM: nat := 10000

  /** The first of q, q + QUANTUM, q + 2 * QUANTUM, ... that is not before t. */
  function NextQuantum(q: nat, t: nat): (r: nat)
    ensures q <= r && t <= r && (r == q || r < t + QUANTUM) && (r - q) % QUANTUM == 0
    decreases if q < t then t - q else 0
  {
    if q >= t then q else NextQuantum(q + QUANTUM, t)
  }

  /** The control blocks that init makes from the trace file. */
  function NewProcs(starts: seq<nat>, traces: seq<seq<Instr>>): (procs: seq<PCB>)
    requires |traces| == |starts|
    ensures |procs| == |starts|
    ensures forall p :: 0 <= p < |procs| ==> procs[p] == PCB(starts[p], traces[p], [], Null, 0, 0, ZERO)
  {
    seq(|starts|, p requires 0 <= p < |starts| && |traces| == |starts| =>
      PCB(starts[p], traces[p], [], Null, 0, 0, ZERO))
  }

  /** The process side of the invariant, over values. */
  ghost predicate ProcsFine(procs: seq<PCB>, executed: seq<seq<Instr>>, q: Queues, stats: seq<Stats>, total: Counters,
                            pages: nat, now: nat, last: nat)
  {
    && Partition(|procs|, q) && ProcsOK(procs, executed, q, stats, total, pages, now)
    && last < |procs| && (Front(q.running).Process? ==> Front(q.running).p == last)
  }

  /** The running process is on no other list, and the page of its next access is one of its table. */
  lemma RunningFacts(procs: seq<PCB>, executed: seq<seq<Instr>>, q: Queues, stats: seq<Stats>, total: Counters,
                     pages: nat, now: nat, last: nat, p: nat)
    requires ProcsFine(procs, executed, q, stats, total, pages, now, last) && Front(q.running) == Process(p)
    ensures p < |procs| && p !in q.finished && p !in q.blocked && p !in q.waiting
    ensures procs[p].memReq != [] && procs[p].memReq[0].Access? ==> procs[p].memReq[0].vpn < pages
    ensures p < |executed| && Accesses(executed[p]) <= Found(procs[p])
  {
    hide Partition, ProcsOK;
    Exclusive(|procs|, q, p);
    AccessesCounted(procs, executed, q, stats, total, pages, now);
    if procs[p].memReq != [] && procs[p].memReq[0].Access? {
      FirstPage(procs, executed, q, stats, total, pages, now, p);
    }
  }

  /** A blocked process has a memory access to do. */
  lemma BlockedFacts(procs: seq<PCB>, executed: seq<seq<Instr>>, q: Queues, stats: seq<Stats>, total: Counters,
                     pages: nat, now: nat, last: nat)
    requires ProcsFine(procs, executed, q, stats, total, pages, now, last) && q.blocked != []
    ensures var p := q.blocked[0];
      && p < |procs| && p !in Ids(stats) && procs[p].memReq != [] && procs[p].memReq[0].Access?
      && procs[p].memReq[0].vpn < pages && procs[p].blockOccur <= now && now > 0
  {
    hide Partition, ProcsOK;
    BlockedIsFaulting(procs, executed, q, stats, total, pages, now);
  }

  lemma BlockedApart(procs: seq<PCB>, executed: seq<seq<Instr>>, q: Queues, stats: seq<Stats>, total: Counters,
                     pages: nat, now: nat, last: nat)
    requires ProcsFine(procs, executed, q, stats, total, pages, now, last)
    ensures forall i :: 0 <= i < |q.blocked| ==> q.blocked[i] !in q.blocked[..i]
  {
    hide Partition, ProcsOK;
    forall i | 0 <= i < |q.blocked| ensures q.blocked[i] !in q.blocked[..i] { BlockedOnce(|procs|, q, i); }
  }

  lemma WaitingFacts(procs: seq<PCB>, executed: seq<seq<Instr>>, q: Queues, stats: seq<Stats>, total: Counters,
                     pages: nat, now: nat, last: nat)
    requires ProcsFine(procs, executed, q, stats, total, pages, now, last) && q.waiting != []
    ensures q.waiting[0] < |procs|
  {
    hide Partition, ProcsOK;
    WaitingAreProcesses(|procs|, q, 0);
  }

  class Simulator {
    const params: Params
    const TLB: array<TLBEntry>
    const DRAM: array<Frame>
    var clockHand: nat
    var now: nat
    var nextQuanta: nat
    var lastStop: nat
    var procs: seq<PCB>
    var processList: seq<nat>
    var ready: seq<nat>
    var running: seq<Owner>
    var blocked: seq<nat>
    var stats: seq<Stats>
    var executionOrder: seq<nat>
    var total: Counters
    ghost var executed: seq<seq<Instr>>

    /** init, and simulate up to its loop: the first process arrives at time 0 and runs. */
    constructor (params: Params, starts: seq<nat>, traces: seq<seq<Instr>>)
      requires params.Sound() && |traces| == |starts| > 0 && starts[0] == 0
      requires forall p :: 0 <= p < |traces| ==> PagesOf(traces[p], params.layout.Pages())
      ensures Valid() && executionOrder == [0] && running == [Process(0)] && fresh(TLB) && fresh(DRAM)
      ensures this.params == params && |procs| == |starts| && now == 0
      ensures forall p :: 0 <= p < |procs| ==> procs[p].trace == traces[p] && procs[p].startTime == starts[p]
    {
      hide *;
      this.params := params;
      TLB := new TLBEntry[params.tlbSize](_ => EMPTY);
      DRAM := new Frame[params.frames](_ => Frame(0, Nobody, 0));
      clockHand, now, nextQuanta, lastStop := 0, 0, QUANTUM, 0;
      procs := NewProcs(starts, traces);
      processList, ready, running, blocked, stats := Iota(|starts|), [], [], [], [];
      executionOrder := [];
      total := ZERO;
      executed := seq(|starts|, _ => []);
      new;
      ShowStart(starts, traces);
      FirstArrivals(starts, traces);
      StartFirst();
    }

    /** At time 0 the first process arrives first. */
    method FirstArrivals(ghost starts: seq<nat>, ghost traces: seq<seq<Instr>>)
      requires Valid() && |traces| == |starts| > 0 && starts[0] == 0
      requires procs == NewProcs(starts, traces) && processList == Iota(|starts|) && ready == [] && now == 0
      modifies this`procs, this`processList, this`ready
      ensures Valid() && ready != [] && ready[0] == 0 && |procs| == |starts|
      ensures forall p :: 0 <= p < |procs| ==> procs[p].trace == traces[p] && procs[p].startTime == starts[p]
    {
      hide MemOK, ProcsOK, Partition, OwnersKnown, Clocked, Layout.Pages;
      ArriveAll();
      assert forall p :: 0 <= p < |procs| ==> procs[p].trace == traces[p] && procs[p].startTime == starts[p] by {
        assert SameTraces(old(procs), procs);
      }
      FirstReady(ready, processList, procs);
    }

    /** The state that init builds before the first arrivals. */
    lemma ShowStart(starts: seq<nat>, traces: seq<seq<Instr>>)
      requires params.Sound() && |traces| == |starts| > 0
      requires forall p :: 0 <= p < |traces| ==> PagesOf(traces[p], params.layout.Pages())
      requires TLB.Length == params.tlbSize && forall i :: 0 <= i < TLB.Length ==> TLB[i] == EMPTY
      requires DRAM.Length == params.frames && forall f :: 0 <= f < DRAM.Length ==> DRAM[f] == Frame(0, Nobody, 0)
      requires clockHand == 0 && now == 0 && nextQuanta == QUANTUM && procs == NewProcs(starts, traces)
      requires total == ZERO && stats == []
      requires processList == Iota(|starts|) && ready == [] && running == [] && blocked == [] && executionOrder == []
      requires |executed| == |starts| && forall p :: 0 <= p < |executed| ==> executed[p] == []
      ensures Valid()
    {
      hide MemOK, ProcsOK, Partition, OwnersKnown, Layout.Pages, PagesOf;
      EmptyMemOK(params.layout, View());
      forall p: nat | p < |procs|
        ensures procs[p].memReq == [] && executed[p] == [] && PagesOf(procs[p].trace, Pages())
      {
        assert procs[p] == PCB(starts[p], traces[p], [], Null, 0, 0, ZERO);
        assert PagesOf(traces[p], params.layout.Pages());
      }
      InitialOK(procs, executed, Lists(), Pages());
    }

    /** The first ready process runs. */
    method StartFirst()
      requires Valid() && ready != [] && running == [] && executionOrder == [] && ready[0] == 0
      modifies this`running, this`ready, this`executionOrder
      ensures Valid() && executionOrder == [old(ready)[0]] && running == [Process(old(ready)[0])]
    {
      hide MemOK, ProcsOK, Partition, OwnersKnown, Clocked, Layout.Pages;
      ghost var q := Lists();
      DispatchPlaces(|procs|, q);
      running := running + [Process(ready[0])];
      assert running == [Process(ready[0])] + q.running;
      executionOrder := [ready[0]];
      ready := ready[1..];
      MoveOK(procs, executed, q, Lists(), stats, total, Pages(), now, now);
    }

    // ---------- the TLB ----------

    /** TLBflush */
    method TLBFlush()
      modifies TLB
      ensures forall i :: 0 <= i < TLB.Length ==> TLB[i] == EMPTY
    {
      var i := 0;
      while i < TLB.Length
        invariant 0 <= i <= TLB.Length
        invariant forall j :: 0 <= j < i ==> TLB[j] == EMPTY
      {
        TLB[i] := EMPTY;
        i := i + 1;
      }
    }

    /** The search loop of readPage: the valid entry for vpn, or TLB.Length. */
    method TLBFind(vpn: nat) returns (i: nat)
      ensures i <= TLB.Length
      ensures i < TLB.Length ==> TLB[i].valid && TLB[i].vpn == vpn
      ensures i == TLB.Length ==> forall j :: 0 <= j < TLB.Length ==> !(TLB[j].valid && TLB[j].vpn == vpn)
    {
      i := 0;
      while i < TLB.Length && !(TLB[i].valid && TLB[i].vpn == vpn)
        invariant 0 <= i <= TLB.Length
        invariant forall j :: 0 <= j < i ==> !(TLB[j].valid && TLB[j].vpn == vpn)
      {
        i := i + 1;
      }
    }

    /** TLBadd */
    method TLBAdd(vpn: nat, ppn: nat) returns (ghost k: nat)
      requires TLB.Length >= 1 && forall i :: 0 <= i < TLB.Length ==> TLB[i].time <= now
      modifies TLB
      ensures IsTLBVictim(old(TLB[..]), k)
      ensures TLB[..] == old(TLB[..])[k := TLBEntry(true, now, vpn, ppn)]
    {
      var replace, minTime := 0, now + 1;
      var i := 0;
      while i < TLB.Length
        invariant 0 <= i <= TLB.Length && TLB[..] == old(TLB[..])
        invariant forall j :: 0 <= j < i ==> TLB[j].valid && minTime <= TLB[j].time
        invariant i > 0 ==> replace < i && minTime == TLB[replace].time
        invariant i == 0 ==> minTime == now + 1
        invariant forall j :: 0 <= j < replace && i > 0 ==> minTime < TLB[j].time
      {
        if !TLB[i].valid {
          k := i;
          TLB[i] := TLBEntry(true, now, vpn, ppn);
          return;
        }
        if TLB[i].time < minTime {
          minTime := TLB[i].time;
          replace := i;
        }
        i := i + 1;
      }
      k := replace;
      TLB[replace] := TLBEntry(TLB[replace].valid, now, vpn, ppn);
    }

    /** TLBdelete */
    method TLBDelete(vpn: nat)
      modifies TLB
      ensures TLB[..] == WithoutPage(old(TLB[..]), vpn)
    {
      ghost var was := TLB[..];
      var i := 0;
      while i < TLB.Length
        invariant 0 <= i <= TLB.Length
        invariant forall j :: 0 <= j < i ==> TLB[j] == if was[j].vpn == vpn then EMPTY else was[j]
        invariant forall j :: i <= j < TLB.Length ==> TLB[j] == was[j]
      {
        if TLB[i].vpn == vpn {
          TLB[i] := EMPTY;
        }
        i := i + 1;
      }
    }

    // ---------- the frame table ----------

    /** The search loop of DRAMadd under LRU. */
    method FindLRU() returns (f: nat)
      requires DRAM.Length >= 1 && forall g :: 0 <= g < DRAM.Length ==> DRAM[g].time <= now
      ensures IsLRUVictim(DRAM[..], f)
    {
      var minTime := now + 1;
      f := 0;
      var i := 0;
      while i < DRAM.Length
        invariant 0 <= i <= DRAM.Length
        invariant forall j :: 0 <= j < i ==> DRAM[j].time != 0 && minTime <= DRAM[j].time
        invariant i > 0 ==> f < i && minTime == DRAM[f].time
        invariant i == 0 ==> minTime == now + 1
        invariant forall j :: 0 <= j < f && i > 0 ==> minTime < DRAM[j].time
      {
        if DRAM[i].time == 0 {
          return i;
        }
        if DRAM[i].time < minTime {
          minTime := DRAM[i].time;
          f := i;
        }
        i := i + 1;
      }
    }

    /** The loop of DRAMadd under clock; the hand stays where the frame was found. */
    method FindClock()
      requires clockHand < Round(DRAM.Length)
      requires forall g :: 0 <= g < DRAM.Length ==> DRAM[g].time <= 1
      modifies DRAM, this`clockHand
      ensures clockHand < Round(DRAM.Length) && DRAM[clockHand].time == 0
      ensures IsClockVictim(old(DRAM[..]), old(clockHand), clockHand, DRAM[..])
    {
      ghost var was, hand, j, round := DRAM[..], clockHand, 0, Round(DRAM.Length);
      while DRAM[clockHand].time != 0
        invariant j <= round && clockHand == Cell(hand, j, round) && Passed(was, hand, j, DRAM[..])
        decreases round - j
      {
        assert DRAM[..][hand] == if HandPassed(hand, j, round, hand) then was[hand].(time := 0) else was[hand];
        assert j < round;
        DRAM[clockHand] := DRAM[clockHand].(time := DRAM[clockHand].time - 1);
        if clockHand + 1 < DRAM.Length {
          clockHand := (clockHand + 1) % HAND_LIMIT;
        } else {
          clockHand := 0;
        }
        j := j + 1;
      }
    }

    // ---------- the state ----------

    function Pages(): nat { params.layout.Pages() }

    /** Who was put into executionOrder last. */
    function Last(): nat
      reads this
    {
      if executionOrder == [] then 0 else executionOrder[|executionOrder| - 1]
    }

    ghost function View(): Mem
      reads this, TLB, DRAM
    {
      Mem(Tables(procs), DRAM[..], TLB[..], Done(Ids(stats)), Last())
    }

    function Lists(): Queues
      reads this
    {
      Queues(processList, ready, running, blocked, Ids(stats))
    }

    /** The memory side of the invariant. */
    ghost predicate MemValid()
      reads this, TLB, DRAM
    {
      && params.Sound() && TLB.Length == params.tlbSize && DRAM.Length == params.frames
      && clockHand < Round(DRAM.Length)
      && MemOK(params.layout, View()) && OwnersKnown(View()) && Clocked(params.lru, now, DRAM[..], TLB[..])
    }

    /** The process side. */
    ghost predicate ProcsValid()
      reads this
    {
      ProcsFine(procs, executed, Lists(), stats, total, Pages(), now, Last())
    }

    ghost predicate Valid()
      reads this, TLB, DRAM
    {
      params.Sound() && MemValid() && ProcsValid() && nextQuanta <= now + QUANTUM
    }

    // ---------- bringing a page in ----------

    /** DRAMadd; `z` is the frame table when the frame was chosen. */
    method DRAMAdd(p: nat, vpn: nat) returns (f: nat, ghost z: seq<Frame>)
      requires MemValid()
      modifies DRAM, TLB, this`procs, this`clockHand
      ensures f < DRAM.Length && clockHand < Round(DRAM.Length)
      ensures SameFrames(old(DRAM[..]), z)
      ensures params.lru ==> clockHand == old(clockHand) && z == old(DRAM[..]) && IsLRUVictim(z, f)
      ensures !params.lru ==> clockHand == f && IsClockVictim(old(DRAM[..]), old(clockHand), f, z)
      ensures DRAM[..] == z[f := Frame(if params.lru then now else 1, Process(p), vpn)]
      ensures Tables(procs) == Evicted(params.layout, old(View()), f).tables
      ensures TLB[..] == Evicted(params.layout, old(View()), f).tlb
      ensures |procs| == |old(procs)|
      ensures forall q :: 0 <= q < |procs| ==> procs[q] == old(procs)[q].(table := procs[q].table)
    {
      hide MemOK, IsClockVictim;
      if params.lru {
        f := FindLRU();
        z := DRAM[..];
        if DRAM[f].time == 0 {
          DRAM[f] := Frame(now, Process(p), vpn);
          return;
        }
        Evict(f);
        DRAM[f] := Frame(now, Process(p), vpn);
      } else {
        FindClock();
        f := clockHand;
        z := DRAM[..];
        ClockKeepsFrames(old(DRAM[..]), old(clockHand), f, z);
        if DRAM[f].owner != Nobody {
          Evict(f);
        }
        DRAM[f] := Frame(1, Process(p), vpn);
      }
    }

    /** DRAMadd and addPTE for a page that is not in memory. */
    method PageIn(p: nat, vpn: nat) returns (f: nat, ghost z: seq<Frame>)
      requires Valid() && now > 0 && p < |procs| && p !in Ids(stats) && vpn < Pages()
      requires Walk(params.layout, procs[p].table, vpn) == FAULT
      modifies DRAM, TLB, this`procs, this`clockHand
      ensures Valid()
      ensures f < DRAM.Length == |z| && Walk(params.layout, procs[p].table, vpn) == f
      ensures params.lru ==> clockHand == old(clockHand) && z == old(DRAM[..]) && IsLRUVictim(z, f)
      ensures !params.lru ==> clockHand == f && IsClockVictim(old(DRAM[..]), old(clockHand), f, z)
      ensures DRAM[..] == z[f := Frame(if params.lru then now else 1, Process(p), vpn)]
      ensures SameButTables(old(procs), procs)
      ensures forall q :: 0 <= q < |procs| ==> procs[q].fracLeft == old(procs)[q].fracLeft
    {
      hide MemOK, Clocked, ProcsOK, Partition, IsClockVictim, IsLRUVictim, OwnersKnown, Evicted, Walk, Layout.Pages;
      ghost var m := View();
      f, z := DRAMAdd(p, vpn);
      PagedInShaped(params.layout, m, z, f, p);
      var b := procs[p].(table := AddPTE(params.layout, procs[p].table, vpn, f));
      TablesUpdate(procs, p, b);
      procs := procs[p := b];
      ghost var stamp := if params.lru then now else 1;
      assert View() == PagedIn(params.layout, m, z, f, p, vpn, stamp);
      PagedInOK(params.layout, m, z, f, p, vpn, stamp);
      PageInClocked(params, now, m, old(clockHand), f, z, p, vpn);
      TablesChangeOK(old(procs), procs, executed, Lists(), stats, total, Pages(), now);
    }

    /** deletePTE and TLBdelete for the page in frame f. */
    method Evict(f: nat)
      requires params.Sound() && f < DRAM.Length && DRAM.Length == params.frames
      requires DRAM[f].owner.Process? ==> DRAM[f].owner.p < |procs|
      modifies TLB, this`procs
      ensures DRAM[f].owner.Process? ==> Tables(procs) == Evicted(params.layout, old(View()), f).tables
      ensures DRAM[f].owner.Process? ==> TLB[..] == Evicted(params.layout, old(View()), f).tlb
      ensures |procs| == |old(procs)|
      ensures forall q :: 0 <= q < |procs| ==> procs[q] == old(procs)[q].(table := procs[q].table)
    {
      if DRAM[f].owner.Process? {
        var q := DRAM[f].owner.p;
        var b := procs[q].(table := DeletePTE(params.layout, procs[q].table, DRAM[f].vpn, DRAM.Length));
        TablesUpdate(procs, q, b);
        procs := procs[q := b];
      }
      TLBDelete(DRAM[f].vpn);
    }

    // ---------- one instruction ----------

    /** A lookup of p found the frame for an access that is not executed yet. */
    ghost predicate FoundMore(p: nat)
      reads this
    {
      p < |procs| && p < |executed| && Accesses(executed[p]) < Found(procs[p])
    }

    /** Time that passes in user mode for process p. */
    method Charge(p: nat, t: nat)
      requires Valid() && p < |procs| && p !in Ids(stats)
      modifies this`procs, this`total, this`now
      ensures Valid() && now == old(now) + t
      ensures procs == old(procs)[p := old(procs)[p].(count := procs[p].count)]
      ensures Found(procs[p]) == Found(old(procs)[p])
      ensures total == old(total).(userTime := old(total).userTime + t)
    {
      Count(p, ZERO.(userTime := t), t);
    }

    /** Counters of process p and of the whole run go up together; t is the time that passes. */
    method Count(p: nat, more: Counters, t: nat)
      requires Valid() && p < |procs| && p !in Ids(stats)
      modifies this`procs, this`total, this`now
      ensures Valid() && now == old(now) + t
      ensures procs == old(procs)[p := old(procs)[p].(count := procs[p].count)]
      ensures procs[p].count == old(procs)[p].count.Plus(more) && total == old(total).Plus(more)
    {
      hide MemOK, Clocked, ProcsOK, Partition, OwnersKnown, Layout.Pages, Counters.Plus;
      var b := procs[p].(count := procs[p].count.Plus(more));
      TablesSame(procs, p, b);
      ClockedLater(params.lru, now, now + t, DRAM[..], TLB[..]);
      ChargeOK(procs, executed, Lists(), stats, total, Pages(), now, p, b, more, now + t);
      procs := procs[p := b];
      total := total.Plus(more);
      now := now + t;
    }

    /** Change the remaining time of the current instruction or transfer of process p. */
    method SetFracLeft(p: nat, t: nat)
      requires Valid() && p < |procs|
      modifies this`procs
      ensures Valid() && procs == old(procs)[p := old(procs)[p].(fracLeft := t)]
    {
      hide MemOK, Clocked, ProcsOK, Partition, OwnersKnown, Layout.Pages;
      var b := procs[p].(fracLeft := t);
      TablesSame(procs, p, b);
      TablesChangeOK(procs, procs[p := b], executed, Lists(), stats, total, Pages(), now);
      procs := procs[p := b];
    }

    /** gll_pop(p->memReq) */
    method PopInstr(p: nat)
      requires Valid() && Front(running) == Process(p) && p < |procs| && procs[p].memReq != []
      requires procs[p].memReq[0].Access? ==> FoundMore(p)
      modifies this`procs, this`executed
      ensures Valid() && procs == old(procs)[p := old(procs)[p].(memReq := old(procs)[p].memReq[1..])]
      ensures Grew(old(executed), executed)
    {
      hide MemOK, Clocked, ProcsOK, Partition, OwnersKnown, Layout.Pages;
      var b := procs[p].(memReq := procs[p].memReq[1..]);
      Exclusive(|procs|, Lists(), p);
      TablesSame(procs, p, b);
      PopOK(procs, executed, Lists(), stats, total, Pages(), now, p, b);
      ExecutedLength(procs, executed, Lists(), stats, total, Pages(), now);
      executed := executed[p := executed[p] + [procs[p].memReq[0]]];
      procs := procs[p := b];
    }

    /** A TLB entry is used. */
    method TouchTLB(i: nat)
      requires Valid() && i < TLB.Length
      modifies TLB
      ensures Valid() && TLB[..] == old(TLB[..])[i := old(TLB[i]).(time := now)]
    {
      hide MemOK, ProcsOK, Partition, OwnersKnown, Layout.Pages;
      ghost var m := View();
      TLB[i] := TLB[i].(time := now);
      TimesDoNotMatter(params.layout, m, View());
      OwnersStay(m, View());
    }

    /** The page in frame f is used. */
    method TouchFrame(f: nat)
      requires Valid() && now > 0 && f < DRAM.Length && DRAM[f].owner != Nobody
      modifies DRAM
      ensures Valid() && DRAM[..] == old(DRAM[..])[f := old(DRAM[f]).(time := if params.lru then now else 1)]
    {
      hide MemOK, ProcsOK, Partition, OwnersKnown, Layout.Pages;
      ghost var m := View();
      if params.lru {
        DRAM[f] := DRAM[f].(time := now);
      } else {
        DRAM[f] := DRAM[f].(time := 1);
      }
      TimesDoNotMatter(params.layout, m, View());
      OwnersStay(m, View());
    }

    /** TLBadd for the page of the running process that was just looked up. */
    method CacheWalk(p: nat, vpn: nat, ppn: nat) returns (ghost k: nat)
      requires Valid() && Front(running) == Process(p) && vpn < Pages()
      requires Walk(params.layout, procs[p].table, vpn) == ppn
      requires !InTLB(TLB[..], vpn)
      modifies TLB
      ensures Valid() && IsTLBVictim(old(TLB[..]), k)
      ensures TLB[..] == old(TLB[..])[k := TLBEntry(true, now, vpn, ppn)]
    {
      hide MemOK, ProcsOK, Partition, OwnersKnown, IsTLBVictim;
      ghost var m := View();
      k := TLBAdd(vpn, ppn);
      VictimInRange(old(TLB[..]), k);
      NotInTLB(m.tlb, vpn);
      TLBAdded(params.layout, m, k, TLBEntry(true, now, vpn, ppn));
      assert View() == m.(tlb := m.tlb[k := TLBEntry(true, now, vpn, ppn)]);
      OwnersStay(m, View());
    }

    /** The access itself: the page in frame f is touched and the instruction is done. */
    method Access(p: nat, f: nat)
      requires Valid() && Front(running) == Process(p) && procs[p].memReq != [] && procs[p].memReq[0].Access?
      requires f == Walk(params.layout, procs[p].table, procs[p].memReq[0].vpn) && now + params.dramLatency > 0
      requires FoundMore(p)
      modifies DRAM, this`procs, this`total, this`now, this`executed
      ensures Valid() && now == old(now) + params.dramLatency
      ensures Grew(old(executed), executed)
      ensures f < DRAM.Length
      ensures DRAM[..] == old(DRAM[..])[f := old(DRAM[f]).(time := if params.lru then now else 1)]
      ensures procs == old(procs)[p := old(procs)[p].(count := procs[p].count, memReq := old(procs)[p].memReq[1..])]
      ensures total == old(total).(userTime := old(total).userTime + params.dramLatency)
    {
      hide MemOK, ProcsOK, Partition, OwnersKnown, Clocked, Walk, Layout.Pages;
      Exclusive(|procs|, Lists(), p);
      FirstPage(procs, executed, Lists(), stats, total, Pages(), now, p);
      WalkHolds(params.layout, View(), p, procs[p].memReq[0].vpn);
      Charge(p, params.dramLatency);
      TouchFrame(f);
      PopInstr(p);
    }

    /** The time slice runs out. */
    method Stall(p: nat, stopTime: nat)
      requires Valid() && p < |procs| && p !in Ids(stats) && now <= stopTime
      modifies this`procs, this`total, this`now
      ensures Valid() && now == stopTime
      ensures procs == old(procs)[p := old(procs)[p].(count := procs[p].count)]
      ensures total == old(total).(userTime := old(total).userTime + (stopTime - old(now)))
    {
      Charge(p, stopTime - now);
    }

    /** A page fault: p will wait for the page. */
    method Fault(p: nat)
      requires Valid() && p < |procs| && p !in Ids(stats) && p !in blocked
      modifies this`procs, this`total, this`now
      ensures Valid() && now == old(now) + params.trapTime
      ensures procs ==
        old(procs)[p := old(procs)[p].(count := procs[p].count, fracLeft := params.swapLatency, blockOccur := now)]
      ensures total == old(total).(faults := old(total).faults + 1)
    {
      hide MemOK, Clocked, ProcsOK, Partition, OwnersKnown, Layout.Pages;
      Count(p, ZERO.(faults := 1), params.trapTime);
      var b := procs[p].(fracLeft := params.swapLatency, blockOccur := now);
      TablesSame(procs, p, b);
      BlockOccurOK(procs, executed, Lists(), stats, total, Pages(), now, p, b);
      procs := procs[p := b];
    }

    /** The end of an access whose frame is known: do it if there is time, else run out the slice. */
    method AccessOrStall(p: nat, f: nat, timeAvailable: nat, stopTime: nat)
      requires Valid() && Front(running) == Process(p) && procs[p].memReq != [] && procs[p].memReq[0].Access?
      requires f == Walk(params.layout, procs[p].table, procs[p].memReq[0].vpn) && now + params.dramLatency > 0
      requires timeAvailable < params.dramLatency ==> now <= stopTime
      requires FoundMore(p)
      modifies DRAM, this`procs, this`total, this`now, this`executed
      ensures Valid() && old(now) <= now && OnlyProcess(p, old(procs), procs)
      ensures Grew(old(executed), executed)
      ensures Accessed(p, timeAvailable >= params.dramLatency, stopTime, now, old(procs), procs)
      ensures timeAvailable >= params.dramLatency ==> now == old(now) + params.dramLatency
      ensures total == old(total).(userTime := old(total).userTime + (now - old(now)))
      ensures procs[p].memReq != old(procs)[p].memReq ==>
        f < DRAM.Length && DRAM[..] == old(DRAM[..])[f := old(DRAM[..])[f].(time := if params.lru then now else 1)]
      ensures procs[p].memReq == old(procs)[p].memReq ==> DRAM[..] == old(DRAM[..])
    {
      hide MemValid, ProcsFine, Layout.Pages, Walk;
      RunningFacts(procs, executed, Lists(), stats, total, Pages(), now, Last(), p);
      if timeAvailable >= params.dramLatency {
        Access(p, f);
      } else {
        Stall(p, stopTime);
      }
    }

    /** readPage after a TLB miss; `now` includes the TLB latency. */
    method ReadMiss(p: nat, timeLeft: nat, stopTime: nat) returns (r: int)
      requires Valid() && Front(running) == Process(p) && procs[p].memReq != [] && procs[p].memReq[0].Access?
      requires !InTLB(TLB[..], procs[p].memReq[0].vpn) && now + params.dramLatency > 0
      requires timeLeft < 2 * params.dramLatency ==> now + timeLeft <= stopTime
      modifies TLB, DRAM, this`procs, this`total, this`now, this`executed
      ensures Valid() && old(now) <= now && OnlyProcess(p, old(procs), procs) && (r == 1 || r == -1)
      ensures Grew(old(executed), executed)
      ensures var f := Walk(params.layout, old(procs)[p].table, old(procs)[p].memReq[0].vpn);
        && (r == -1 <==> timeLeft >= params.dramLatency && f == FAULT)
        && total == old(total).(userTime := total.userTime, tlbMisses := old(total).tlbMisses + 1,
             hits := old(total).hits + (if timeLeft >= params.dramLatency && f != FAULT then 1 else 0),
             faults := old(total).faults + if r == -1 then 1 else 0)
      ensures var vpn := old(procs)[p].memReq[0].vpn; var f := Walk(params.layout, old(procs)[p].table, vpn);
        if timeLeft >= params.dramLatency && f != FAULT
        then CachedEntry(old(TLB[..]), TLB[..], old(now) + params.dramLatency, vpn, f) else TLB[..] == old(TLB[..])
      ensures total.userTime + (if r == -1 then params.trapTime else 0) == old(total).userTime + (now - old(now))
      ensures r == 1 ==> Accessed(p, timeLeft >= 2 * params.dramLatency, stopTime, now, old(procs), procs)
      ensures r == 1 && timeLeft >= 2 * params.dramLatency ==> now == old(now) + 2 * params.dramLatency
      ensures r == -1 ==> procs[p].memReq == old(procs)[p].memReq && procs[p].blockOccur == now > 0
      ensures r == -1 ==>
        now == old(now) + params.dramLatency + params.trapTime &&
        procs[p].fracLeft == params.swapLatency
      ensures Touched(procs[p].memReq != old(procs)[p].memReq,
        Walk(params.layout, old(procs)[p].table, old(procs)[p].memReq[0].vpn), params.lru, now, old(DRAM[..]), DRAM[..])
    {
      hide MemValid, ProcsFine, InTLB, Walk, Layout.Pages, CachedEntry;
      RunningFacts(procs, executed, Lists(), stats, total, Pages(), now, Last(), p);
      var vpn, timeAvailable := procs[p].memReq[0].vpn, timeLeft;
      Count(p, ZERO.(tlbMisses := 1), 0);
      if timeAvailable >= params.dramLatency {
        Charge(p, params.dramLatency);
        timeAvailable := timeAvailable - params.dramLatency;
        var ppn := Walk(params.layout, procs[p].table, vpn);
        if ppn == FAULT {
          Fault(p);
          return -1;
        }
        ReadFound(p, ppn, timeAvailable, stopTime);
      } else {
        Stall(p, stopTime);
      }
      return 1;
    }

    /** readPage when the walk of the page table found the page in frame f. */
    method ReadFound(p: nat, f: nat, timeLeft: nat, stopTime: nat)
      requires Valid() && Front(running) == Process(p) && procs[p].memReq != [] && procs[p].memReq[0].Access?
      requires f == Walk(params.layout, procs[p].table, procs[p].memReq[0].vpn)
      requires !InTLB(TLB[..], procs[p].memReq[0].vpn) && now + params.dramLatency > 0
      requires timeLeft < params.dramLatency ==> now <= stopTime
      modifies TLB, DRAM, this`procs, this`total, this`now, this`executed
      ensures Valid() && old(now) <= now && OnlyProcess(p, old(procs), procs)
      ensures Grew(old(executed), executed)
      ensures Accessed(p, timeLeft >= params.dramLatency, stopTime, now, old(procs), procs)
      ensures timeLeft >= params.dramLatency ==> now == old(now) + params.dramLatency
      ensures CachedEntry(old(TLB[..]), TLB[..], old(now), old(procs)[p].memReq[0].vpn, f)
      ensures total == old(total).(userTime := old(total).userTime + (now - old(now)), hits := old(total).hits + 1)
      ensures Touched(procs[p].memReq != old(procs)[p].memReq, f, params.lru, now, old(DRAM[..]), DRAM[..])
    {
      hide MemValid, ProcsFine, Walk, Layout.Pages, IsTLBVictim, InTLB;
      RunningFacts(procs, executed, Lists(), stats, total, Pages(), now, Last(), p);
      Count(p, ZERO.(hits := 1), 0);
      ghost var k := CacheWalk(p, procs[p].memReq[0].vpn, f);
      VictimInRange(old(TLB[..]), k);
      AccessOrStall(p, f, timeLeft, stopTime);
    }

    /** readPage after a TLB hit in entry i. */
    method ReadHit(p: nat, i: nat, timeLeft: nat, stopTime: nat)
      requires Valid() && Front(running) == Process(p) && procs[p].memReq != [] && procs[p].memReq[0].Access?
      requires i < TLB.Length && TLB[i].valid && TLB[i].vpn == procs[p].memReq[0].vpn && now + params.dramLatency > 0
      requires timeLeft < params.dramLatency ==> now <= stopTime
      modifies TLB, DRAM, this`procs, this`total, this`now, this`executed
      ensures Valid() && old(now) <= now && OnlyProcess(p, old(procs), procs)
      ensures Grew(old(executed), executed)
      ensures Accessed(p, timeLeft >= params.dramLatency, stopTime, now, old(procs), procs)
      ensures timeLeft >= params.dramLatency ==> now == old(now) + params.dramLatency
      ensures UsedEntry(old(TLB[..]), TLB[..], old(now), old(procs)[p].memReq[0].vpn)
      ensures total ==
        old(total).(userTime := old(total).userTime + (now - old(now)), tlbHits := old(total).tlbHits + 1)
      ensures Walk(params.layout, old(procs)[p].table, old(procs)[p].memReq[0].vpn) != FAULT
      ensures Touched(procs[p].memReq != old(procs)[p].memReq,
        Walk(params.layout, old(procs)[p].table, old(procs)[p].memReq[0].vpn), params.lru, now, old(DRAM[..]), DRAM[..])
    {
      hide MemOK, ProcsOK, Partition, OwnersKnown, Clocked, Walk, Layout.Pages;
      RunningFacts(procs, executed, Lists(), stats, total, Pages(), now, Last(), p);
      HitIsWalk(params.layout, View(), i);
      TouchTLB(i);
      Count(p, ZERO.(tlbHits := 1), 0);
      AccessOrStall(p, TLB[i].ppn, timeLeft, stopTime);
    }

    /**
     * Whether `a` cycles are taken to be enough for the TLB and then `latency`. Fewer cycles than
     * the TLB latency are: the difference wraps around.
     */
    predicate Enough(a: int, latency: nat)
    {
      a < params.tlbLatency || params.tlbLatency + latency <= a
    }

    /**
     * readPage for a memory access: 1 to go on, -1 for a page fault. Through the TLB or not, the
     * frame that is touched is the one that a walk of the page table gives.
     */
    method ReadMem(p: nat, stopTime: nat) returns (r: int)
      requires Valid() && Front(running) == Process(p) && now < stopTime < now + TWO64
      requires procs[p].memReq != [] && procs[p].memReq[0].Access?
      modifies TLB, DRAM, this`procs, this`total, this`now, this`executed
      ensures Valid() && old(now) <= now && OnlyProcess(p, old(procs), procs) && (r == 1 || r == -1)
      ensures Grew(old(executed), executed)
      ensures InTLB(old(TLB[..]), old(procs)[p].memReq[0].vpn) ==>
        && r == 1 && Accessed(p, Enough(stopTime - old(now), params.dramLatency), stopTime, now, old(procs), procs)
        && (Enough(stopTime - old(now), params.dramLatency) ==>
          now == old(now) + params.tlbLatency + params.dramLatency)
        && total == old(total).(userTime := old(total).userTime + (now - old(now)), tlbHits := old(total).tlbHits + 1)
        && Walk(params.layout, old(procs)[p].table, old(procs)[p].memReq[0].vpn) != FAULT
      ensures !InTLB(old(TLB[..]), old(procs)[p].memReq[0].vpn) ==>
        var f, enough := Walk(params.layout, old(procs)[p].table, old(procs)[p].memReq[0].vpn),
          Enough(stopTime - old(now), params.dramLatency);
        && (r == -1 <==> enough && f == FAULT)
        && total == old(total).(userTime := total.userTime, tlbMisses := old(total).tlbMisses + 1,
             hits := old(total).hits + (if enough && f != FAULT then 1 else 0),
             faults := old(total).faults + if r == -1 then 1 else 0)
      ensures var vpn, start := old(procs)[p].memReq[0].vpn, old(now) + params.tlbLatency;
        var f := Walk(params.layout, old(procs)[p].table, vpn);
        if InTLB(old(TLB[..]), vpn) then UsedEntry(old(TLB[..]), TLB[..], start, vpn)
        else if Enough(stopTime - old(now), params.dramLatency) && f != FAULT
        then CachedEntry(old(TLB[..]), TLB[..], start + params.dramLatency, vpn, f) else TLB[..] == old(TLB[..])
      ensures total.userTime + (if r == -1 then params.trapTime else 0) == old(total).userTime + (now - old(now))
      ensures !InTLB(old(TLB[..]), old(procs)[p].memReq[0].vpn) && r == 1 ==>
        && Accessed(p, Enough(stopTime - old(now), 2 * params.dramLatency), stopTime, now, old(procs), procs)
        && (Enough(stopTime - old(now), 2 * params.dramLatency) ==>
          now == old(now) + params.tlbLatency + 2 * params.dramLatency)
      ensures r == -1 ==> procs[p].memReq == old(procs)[p].memReq && procs[p].blockOccur == now > 0
      ensures r == -1 ==>
        now == old(now) + params.tlbLatency + params.dramLatency + params.trapTime &&
          procs[p].fracLeft == params.swapLatency
      ensures r == 1 ==>
        Spent(params, old(procs)[p].memReq, old(procs)[p].fracLeft, procs[p].memReq, procs[p].fracLeft,
              now - old(now), now >= stopTime)
      ensures r == 1 ==> now <= stopTime || now <= old(now) + params.Slow()
      ensures Touched(procs[p].memReq != old(procs)[p].memReq,
        Walk(params.layout, old(procs)[p].table, old(procs)[p].memReq[0].vpn), params.lru, now, old(DRAM[..]), DRAM[..])
    {
      hide MemValid, ProcsFine, Layout.Pages, Touched, Walk, U64, CachedEntry, UsedEntry, Spent;
      ghost var start := now;
      RunningFacts(procs, executed, Lists(), stats, total, Pages(), now, Last(), p);
      var timeAvailable := stopTime - now;
      Charge(p, params.tlbLatency);
      timeAvailable := U64(timeAvailable - params.tlbLatency);
      TimeLeft(stopTime, start, params.tlbLatency, params.dramLatency);
      var i := TLBFind(procs[p].memReq[0].vpn);
      if i == TLB.Length {
        r := ReadMiss(p, timeAvailable, stopTime);
      } else {
        ReadHit(p, i, timeAvailable, stopTime);
        r := 1;
      }
      ghost var b := old(procs)[p];
      if r == 1 { SpentAccess(params, b.memReq, b.fracLeft, procs[p].memReq, now - start, now >= stopTime); }
    }

    /** readPage for an instruction that does not touch memory. */
    method RunNonMem(p: nat, stopTime: nat) returns (r: int)
      requires Valid() && Front(running) == Process(p) && now < stopTime
      requires procs[p].memReq != [] && procs[p].memReq[0] == NonMem
      modifies this`procs, this`total, this`now, this`executed
      ensures Valid() && old(now) <= now && OnlyProcess(p, old(procs), procs)
      ensures Grew(old(executed), executed)
      ensures var need := if old(procs)[p].fracLeft > 0 then old(procs)[p].fracLeft else params.nonMemLength;
        if stopTime - old(now) < need then
          now == stopTime && procs[p].memReq == old(procs)[p].memReq &&
            procs[p].fracLeft == need - (stopTime - old(now))
        else
          now == old(now) + need && procs[p].memReq == old(procs)[p].memReq[1..] && procs[p].fracLeft == 0
      ensures r == if procs[p].memReq == [] then 0 else 1
      ensures total == old(total).(userTime := old(total).userTime + (now - old(now)))
      ensures Spent(params, old(procs)[p].memReq, old(procs)[p].fracLeft, procs[p].memReq, procs[p].fracLeft,
                    now - old(now), now >= stopTime)
    {
      hide MemValid, ProcsFine, Layout.Pages, Spent;
      RunningFacts(procs, executed, Lists(), stats, total, Pages(), now, Last(), p);
      var timeAvailable := stopTime - now;
      var timeNeeded := if procs[p].fracLeft > 0 then procs[p].fracLeft else params.nonMemLength;
      if timeAvailable < timeNeeded {
        Charge(p, timeAvailable);
        SetFracLeft(p, timeNeeded - timeAvailable);
      } else {
        PopInstr(p);
        Charge(p, timeNeeded);
        SetFracLeft(p, 0);
      }
      ghost var b := old(procs)[p];
      SpentNonMem(params, b.memReq, b.fracLeft, procs[p].memReq, procs[p].fracLeft, now - old(now), now >= stopTime);
      return if procs[p].memReq == [] then 0 else 1;
    }

    /** readPage: one instruction of p; 0 if its trace is done, -1 for a page fault, else 1. */
    method ReadPage(p: nat, stopTime: nat) returns (r: int)
      requires Valid() && Front(running) == Process(p) && now < stopTime < now + TWO64
      modifies TLB, DRAM, this`procs, this`total, this`now, this`executed
      ensures Valid() && old(now) <= now && OnlyProcess(p, old(procs), procs) && (r == 0 || r == 1 || r == -1)
      ensures Grew(old(executed), executed)
      ensures old(procs)[p].memReq == [] ==> r == 0 && now == old(now) && procs == old(procs) && total == old(total)
      ensures old(procs)[p].memReq == [] || old(procs)[p].memReq[0] == NonMem ==>
        && r == (if procs[p].memReq == [] then 0 else 1) && TLB[..] == old(TLB[..]) && DRAM[..] == old(DRAM[..])
        && total == old(total).(userTime := old(total).userTime + (now - old(now)))
      ensures old(procs)[p].memReq != [] && old(procs)[p].memReq[0] == NonMem ==>
        var need := if old(procs)[p].fracLeft > 0 then old(procs)[p].fracLeft else params.nonMemLength;
        procs[p].memReq != old(procs)[p].memReq <==> need <= stopTime - old(now)
      ensures Accessing(old(procs)[p].memReq) ==>
        var f := Walk(params.layout, old(procs)[p].table, old(procs)[p].memReq[0].vpn);
        var inTLB, enough := InTLB(old(TLB[..]), old(procs)[p].memReq[0].vpn),
          Enough(stopTime - old(now), params.dramLatency);
        && r != 0 && (r == -1 <==> enough && f == FAULT)
        && total == old(total).(userTime := total.userTime,
             tlbHits := old(total).tlbHits + (if inTLB then 1 else 0),
             tlbMisses := old(total).tlbMisses + (if inTLB then 0 else 1),
             hits := old(total).hits + (if !inTLB && enough && f != FAULT then 1 else 0),
             faults := old(total).faults + if r == -1 then 1 else 0)
        && (r == 1 ==> (procs[p].memReq != old(procs)[p].memReq <==>
             Enough(stopTime - old(now), if inTLB then params.dramLatency else 2 * params.dramLatency)))
        && Touched(procs[p].memReq != old(procs)[p].memReq, f, params.lru, now, old(DRAM[..]), DRAM[..])
      ensures Accessing(old(procs)[p].memReq) ==>
        var vpn, start := old(procs)[p].memReq[0].vpn, old(now) + params.tlbLatency;
        var f := Walk(params.layout, old(procs)[p].table, vpn);
        if InTLB(old(TLB[..]), vpn) then UsedEntry(old(TLB[..]), TLB[..], start, vpn)
        else if Enough(stopTime - old(now), params.dramLatency) && f != FAULT
        then CachedEntry(old(TLB[..]), TLB[..], start + params.dramLatency, vpn, f) else TLB[..] == old(TLB[..])
      ensures total.userTime + (if r == -1 then params.trapTime else 0) == old(total).userTime + (now - old(now))
      ensures r != -1 ==>
        Spent(params, old(procs)[p].memReq, old(procs)[p].fracLeft, procs[p].memReq, procs[p].fracLeft,
              now - old(now), now >= stopTime)
      ensures r != -1 ==> now <= stopTime || now <= old(now) + params.Slow()
      ensures r == -1 ==> now == old(now) + params.Fast() + params.trapTime
      ensures r == 1 ==> Left(procs[p], now, stopTime) < Left(old(procs)[p], old(now), stopTime)
      ensures r == -1 ==>
        && procs[p].memReq == old(procs)[p].memReq != [] && procs[p].memReq[0].Access?
        && Walk(params.layout, procs[p].table, procs[p].memReq[0].vpn) == FAULT && procs[p].blockOccur == now > 0
      ensures procs[p].memReq == old(procs)[p].memReq || procs[p].memReq == Rest(old(procs)[p].memReq)
    {
      hide MemValid, ProcsFine, Layout.Pages, Touched, InTLB, Walk, Spent, Enough, UsedEntry, CachedEntry;
      RunningFacts(procs, executed, Lists(), stats, total, Pages(), now, Last(), p);
      if procs[p].memReq == [] {
        NothingSpent(params, procs[p].memReq, procs[p].fracLeft, now >= stopTime);
        return 0;
      }
      if procs[p].memReq[0] == NonMem {
        r := RunNonMem(p, stopTime);
      } else {
        r := ReadMem(p, stopTime);
      }
    }

    /** What a time slice has left: instructions of the process and time. */
    function Left(b: PCB, time: nat, stopTime: nat): nat
    {
      |b.memReq| + if time < stopTime then stopTime - time else 0
    }

    /**
     * The loop of processSimulator: p runs until stopTime (1), the end of its trace (0) or a page fault
     * (-1). `frac` is what was left of its first instruction then; a fault writes over it.
     */
    method RunUntil(p: nat, stopTime: nat) returns (read: int, ghost frac: nat)
      requires Valid() && Front(running) == Process(p) && stopTime < now + TWO64
      modifies TLB, DRAM, this`procs, this`total, this`now, this`executed
      ensures Valid() && old(now) <= now && OnlyProcess(p, old(procs), procs) && Grew(old(executed), executed)
      ensures read == 0 || read == 1 || read == -1
      ensures read == 0 ==> procs[p].memReq == []
      ensures read == 1 ==> stopTime <= now && (now <= stopTime + params.Slow() || now == old(now))
      ensures read == -1 ==>
        && Accessing(procs[p].memReq) && procs[p].blockOccur == now > 0
        && old(now) + params.Fast() + params.trapTime <= now
        && Walk(params.layout, procs[p].table, procs[p].memReq[0].vpn) == FAULT
      ensures read != -1 ==> frac == procs[p].fracLeft
      ensures total.faults == old(total).faults + if read == -1 then 1 else 0
      ensures total.userTime + (if read == -1 then params.trapTime else 0) == old(total).userTime + (now - old(now))
      ensures
        Spent(params, old(procs)[p].memReq, old(procs)[p].fracLeft, procs[p].memReq, frac,
              now - old(now) - (if read == -1 then params.Fast() + params.trapTime else 0), read == 1)
      ensures stopTime <= old(now) ==> read == 1 && now == old(now) && procs == old(procs)
    {
      hide MemValid, ProcsFine, Layout.Pages, Walk, Touched, InTLB, Spent, Enough;
      RunningFacts(procs, executed, Lists(), stats, total, Pages(), now, Last(), p);
      ghost var b := procs[p];
      NothingSpent(params, b.memReq, b.fracLeft, now >= stopTime);
      while now < stopTime
        invariant Valid() && old(now) <= now && OnlyProcess(p, old(procs), procs) && Grew(old(executed), executed)
        invariant total.faults == old(total).faults && total.userTime == old(total).userTime + (now - old(now))
        invariant
          Spent(params, b.memReq, b.fracLeft, procs[p].memReq, procs[p].fracLeft, now - old(now), now >= stopTime)
        invariant now <= stopTime + params.Slow() || now == old(now)
        invariant stopTime <= old(now) ==> now == old(now) && procs == old(procs)
        decreases Left(procs[p], now, stopTime)
      {
        ghost var before, start := procs[p], now;
        read := ReadPage(p, stopTime);
        if read == -1 {
          frac := before.fracLeft;
          return;
        }
        SpentMore(params, b.memReq, b.fracLeft, before.memReq, before.fracLeft, start - old(now),
                  procs[p].memReq, procs[p].fracLeft, now - start, now >= stopTime);
        if read == 0 {
          SpentAll(params, b.memReq, b.fracLeft, procs[p].fracLeft, now - old(now), now >= stopTime);
          frac := procs[p].fracLeft;
          return;
        }
      }
      read, frac := 1, procs[p].fracLeft;
    }

    /** Where processSimulator stops: at the end of the quantum, or at the first disk interrupt before it. */
    function StopTime(): nat
      reads this
    {
      if blocked != [] && blocked[0] < |procs| && now + procs[blocked[0]].fracLeft < nextQuanta
      then now + procs[blocked[0]].fracLeft else nextQuanta
    }

    /** How long p was at work in a slice that ended with this pause. */
    ghost predicate Worked(b: PCB, rest: seq<Instr>, frac: nat, t: int, pause: int)
    {
      Spent(params, b.memReq, b.fracLeft, rest, frac,
        t - (if pause == 0 then params.Fast() + params.trapTime else 0), pause == 1 || pause == 4)
    }

    /** processSimulator when p runs. */
    method RunFront(p: nat) returns (pause: int, ghost frac: nat)
      requires Valid() && Front(running) == Process(p)
      modifies TLB, DRAM, this`procs, this`total, this`now, this`executed, this`blocked, this`running
      ensures Valid() && old(now) <= now && OnlyProcess(p, old(procs), procs) && Grew(old(executed), executed)
      ensures pause == 0 || pause == 1 || pause == 4 || pause == -1
      ensures pause == 1 || pause == 4 ==>
        && old(StopTime()) <= now && (now <= old(StopTime()) + params.Slow() || now == old(now))
        && pause == if old(StopTime()) < nextQuanta then 4 else 1
      ensures total.faults == old(total).faults + if pause == 0 then 1 else 0
      ensures total.userTime + (if pause == 0 then params.trapTime else 0) == old(total).userTime + (now - old(now))
      ensures Worked(old(procs)[p], procs[p].memReq, frac, now - old(now), pause)
      ensures pause == 0 ==> old(now) < now && running == old(running)[1..] && blocked == old(blocked) + [p]
      ensures pause == 0 ==> Front(running) == Nobody
      ensures pause != 0 ==> blocked == old(blocked) && running == old(running) && procs[p].fracLeft == frac
      ensures pause == -1 ==> procs[p].memReq == []
    {
      hide MemValid, ProcsFine, Layout.Pages, Walk, Spent;
      RunningFacts(procs, executed, Lists(), stats, total, Pages(), now, Last(), p);
      if blocked != [] { BlockedFacts(procs, executed, Lists(), stats, total, Pages(), now, Last()); }
      var stopTime := nextQuanta;
      pause := 1;
      if blocked != [] {
        var nextDiskInt := now + procs[blocked[0]].fracLeft;
        if nextQuanta > nextDiskInt {
          stopTime := nextDiskInt;
          pause := 4;
        }
      }
      var read;
      read, frac := RunUntil(p, stopTime);
      if read == 0 {
        pause := -1;
      } else if read == -1 {
        Block(p);
        pause := 0;
      }
    }

    /** processSimulator: 1 at the end of the quantum, 4 at a disk interrupt, 0 page fault, -1 trace done, 2 idle. */
    method ProcessSimulator() returns (pause: int, ghost frac: nat)
      requires Valid()
      modifies TLB, DRAM, this`procs, this`total, this`now, this`executed, this`blocked, this`running
      ensures Valid() && old(now) <= now && |procs| == |old(procs)| && Grew(old(executed), executed)
      ensures pause == 0 || pause == 1 || pause == 4 || pause == -1 || pause == 2
      ensures pause == 2 <==> Front(old(running)) == Nobody
      ensures pause == 2 ==>
        && now == old(now) && procs == old(procs) && total == old(total)
        && DRAM[..] == old(DRAM[..]) && TLB[..] == old(TLB[..])
      ensures pause == 1 || pause == 4 ==>
        && old(StopTime()) <= now && (now <= old(StopTime()) + params.Slow() || now == old(now))
        && pause == if old(StopTime()) < nextQuanta then 4 else 1
      ensures total.faults == old(total).faults + if pause == 0 then 1 else 0
      ensures total.userTime + (if pause == 0 then params.trapTime else 0) == old(total).userTime + (now - old(now))
      ensures Front(old(running)).Process? ==>
        var p := Front(old(running)).p;
        && p < |procs| && Worked(old(procs)[p], procs[p].memReq, frac, now - old(now), pause)
        && (pause != 0 ==> procs[p].fracLeft == frac) && (pause == -1 ==> procs[p].memReq == [])
        && (pause == 0 ==> old(now) < now && blocked == old(blocked) + [p])
      ensures pause == 0 ==> old(running) != [] && running == old(running)[1..] && Front(running) == Nobody
      ensures pause != 0 ==> blocked == old(blocked) && running == old(running)
      ensures forall q :: 0 <= q < |procs| && Front(old(running)) != Process(q) ==> procs[q] == old(procs)[q]
    {
      hide MemValid, ProcsFine, Layout.Pages, Walk, Spent, Worked;
      if Front(running) == Nobody {
        return 2, 0;
      }
      pause, frac := RunFront(Front(running).p);
    }

    /** A process that faulted leaves the processor. */
    method Block(p: nat)
      requires Valid() && Front(running) == Process(p) && now > 0 && procs[p].blockOccur <= now
      requires procs[p].memReq != [] && procs[p].memReq[0].Access?
      modifies this`blocked, this`running
      ensures Valid() && blocked == old(blocked) + [p] && running == old(running)[1..] && Front(running) == Nobody
    {
      hide MemOK, ProcsOK, Partition, OwnersKnown, Clocked, Layout.Pages;
      ghost var q := Lists();
      BlockPlaces(|procs|, q, p);
      blocked := blocked + [p];
      running := running[1..];
      MoveOK(procs, executed, q, Lists(), stats, total, Pages(), now, now);
    }

    // ---------- the scheduler ----------

    /** Another process than the last one will run: its TLB entries would be wrong. */
    method SwitchTo(p: nat)
      requires Valid() && Front(running) == Nobody && p < |procs|
      modifies TLB, this`executionOrder
      ensures Valid() && executionOrder == old(executionOrder) + [p]
      ensures forall i :: 0 <= i < TLB.Length ==> TLB[i] == EMPTY
    {
      hide MemOK, ProcsOK, Partition, OwnersKnown, Clocked, Layout.Pages;
      ghost var m := View();
      TLBFlush();
      executionOrder := executionOrder + [p];
      Flushed(params.layout, m, TLB[..], p);
      FlushedClocked(params.lru, now, DRAM[..], m.tlb, TLB[..]);
      OwnersStay(m, View());
    }

    /** The first ready process gets the processor, or nobody does. */
    method Dispatch(next: Owner, rest: seq<nat>)
      requires Valid() && Front(running) == Nobody && rest == Rest(ready)
      requires if ready == [] then next == Nobody
        else next == Process(ready[0]) && executionOrder != [] && Last() == ready[0]
      modifies this`running, this`ready, this`now
      ensures Valid() && ready == rest && running == [next] + old(running)
      ensures now == old(now) + if next == Nobody then 0 else CONTEXT_SWITCH_TIME
    {
      hide MemOK, ProcsOK, Partition, OwnersKnown, Clocked, Layout.Pages;
      ghost var q := Lists();
      DispatchPlaces(|procs|, q);
      var t := if next == Nobody then 0 else CONTEXT_SWITCH_TIME;
      ClockedLater(params.lru, now, now + t, DRAM[..], TLB[..]);
      running := [next] + running;
      ready := rest;
      MoveOK(procs, executed, q, Lists(), stats, total, Pages(), now, now + t);
      now := now + t;
    }

    /**
     * schedulingRR. The first ready process runs; with none, a null pointer goes onto the running
     * list. The TLB is flushed exactly when it is not the process that ran last.
     */
    method SchedulingRR()
      requires Valid() && Front(running) == Nobody && executionOrder != []
      modifies TLB, this`running, this`ready, this`now, this`executionOrder
      ensures Valid() && executionOrder != [] && ready == Rest(old(ready))
      ensures old(ready) == [] ==> running == [Nobody] + old(running) && now == old(now)
      ensures old(ready) == [] || old(ready)[0] == old(Last()) ==>
        executionOrder == old(executionOrder) && TLB[..] == old(TLB[..])
      ensures old(ready) != [] ==> running == [Process(old(ready)[0])] + old(running)
      ensures old(ready) != [] ==> now == old(now) + CONTEXT_SWITCH_TIME
      ensures old(ready) != [] && old(ready)[0] != old(Last()) ==>
        executionOrder == old(executionOrder) + [old(ready)[0]] && forall i :: 0 <= i < TLB.Length ==> TLB[i] == EMPTY
    {
      hide MemOK, ProcsOK, Partition, OwnersKnown, Clocked, Layout.Pages;
      if ready == [] {
        Dispatch(Nobody, ready);
      } else {
        var p := ready[0];
        DispatchPlaces(|procs|, Lists());
        if Last() != p { SwitchTo(p); }
        Dispatch(Process(p), ready[1..]);
      }
    }

    /** The running process goes to the end of the ready list. */
    method Requeue(p: nat)
      requires Valid() && Front(running) == Process(p)
      modifies this`running, this`ready
      ensures Valid() && ready == old(ready) + [p] && running == old(running)[1..] && Front(running) == Nobody
    {
      hide MemOK, ProcsOK, Partition, OwnersKnown, Clocked, Layout.Pages;
      ghost var q := Lists();
      RequeuePlaces(|procs|, q, p);
      ready := ready + [p];
      running := running[1..];
      MoveOK(procs, executed, q, Lists(), stats, total, Pages(), now, now);
    }

    /** cleanUpProcess for the running process, which then leaves the running list. */
    method CleanUpProcess(p: nat)
      requires Valid() && Front(running) == Process(p) && p < |procs| && procs[p].memReq == []
      modifies this`procs, this`stats, this`running
      ensures Valid() && procs == old(procs)[p := old(procs)[p].(table := Null)]
      ensures stats == old(stats) + [Stats(p, procs[p].count)]
      ensures running == old(running)[1..] && Front(running) == Nobody
    {
      hide MemOK, ProcsOK, Partition, OwnersKnown, Clocked, Layout.Pages;
      ghost var q, m := Lists(), View();
      var b := procs[p].(table := Null);
      EndOK(procs, executed, q, q.(running := q.running[1..], finished := q.finished + [p]), stats, total, Pages(),
        now, p);
      EndedIsOK(params.layout, m, p);
      TablesUpdate(procs, p, b);
      IdsAppend(stats, Stats(p, procs[p].count));
      RunningRest(|procs|, q);
      procs := procs[p := b];
      stats := stats + [Stats(p, procs[p].count)];
      running := running[1..];
      assert View() == Ended(m, p);
      OwnersStay(m, View());
    }

    // ---------- arrivals ----------

    /** The first waiting process arrives: its trace is read, and it is ready. */
    method Arrive()
      requires Valid() && processList != []
      modifies this`procs, this`processList, this`ready
      ensures Valid() && |procs| == |old(procs)| && processList == old(processList)[1..]
      ensures ready == old(ready) + [old(processList)[0]]
      ensures forall p: nat :: p < |procs| && p != old(processList)[0] ==> procs[p] == old(procs)[p]
      ensures SameTraces(old(procs), procs)
    {
      hide MemOK, ProcsOK, Partition, OwnersKnown, Clocked, Layout.Pages;
      ghost var q := Lists();
      WaitingAreProcesses(|procs|, q, 0);
      var p := processList[0];
      var b := procs[p].(memReq := procs[p].memReq + procs[p].trace);
      TablesSame(procs, p, b);
      ArriveOK(procs, executed, q, q.(waiting := q.waiting[1..], ready := q.ready + [p]), stats, total, Pages(), now,
        b);
      procs := procs[p := b];
      processList := processList[1..];
      ready := ready + [p];
    }

    /** The next arrival, if there is one, is in the future. */
    ghost predicate ArrivalsAhead()
      reads this
    {
      Ahead(procs, processList, now)
    }

    /** Everyone whose time has come arrives, in list order. */
    method ArriveAll()
      requires Valid()
      modifies this`procs, this`processList, this`ready
      ensures Valid() && |procs| == |old(procs)|
      ensures old(ready) <= ready && old(processList) == ready[|old(ready)|..] + processList
      ensures ArrivalsAhead() && SameTraces(old(procs), procs) && SameBut(old(procs), procs, old(processList))
      ensures AllDue(procs, ready, |old(ready)|, now)
    {
      hide MemValid, ProcsFine, Layout.Pages, SameTraces, SameBut, Moved, AllDue;
      ghost var k := 0;
      if processList != [] { WaitingFacts(procs, executed, Lists(), stats, total, Pages(), now, Last()); }
      Unarrived(procs, processList, ready, now);
      NotMoved(processList, ready);
      while processList != [] && procs[processList[0]].startTime <= now
        invariant Valid() && |procs| == |old(procs)| && Moved(old(processList), old(ready), k, processList, ready)
        invariant processList != [] ==> processList[0] < |procs|
        invariant SameTraces(old(procs), procs) && SameBut(old(procs), procs, old(processList))
        invariant AllDue(procs, ready, |old(ready)|, now)
        decreases |processList|
      {
        ghost var before := procs;
        OneMoreMoved(old(processList), old(ready), k, processList, ready);
        OneMoreDue(procs, ready, |old(ready)|, processList[0], now);
        Arrive();
        DueLater(before, procs, ready, |old(ready)|, now);
        OneMoreArrived(old(procs), before, procs, old(processList), k);
        k := k + 1;
        if processList != [] { WaitingFacts(procs, executed, Lists(), stats, total, Pages(), now, Last()); }
      }
      MovedMeans(old(processList), old(ready), k, processList, ready);
    }

    // ---------- the disk ----------

    /** The first blocked process becomes ready. */
    method Unblock()
      requires Valid() && blocked != []
      modifies this`blocked, this`ready
      ensures Valid() && blocked == old(blocked)[1..] && ready == old(ready) + [old(blocked)[0]]
    {
      hide MemOK, ProcsOK, Partition, OwnersKnown, Clocked, Layout.Pages;
      ghost var q := Lists();
      UnblockPlaces(|procs|, q);
      ready := ready + [blocked[0]];
      blocked := blocked[1..];
      MoveOK(procs, executed, q, Lists(), stats, total, Pages(), now, now);
    }

    /** The page of the first blocked process has come from disk. */
    method FinishTransfer(p: nat, vpn: nat)
      requires Valid() && blocked != [] && p == blocked[0] && p < |procs| && p !in Ids(stats)
      requires procs[p].blockOccur <= now && now > 0 && vpn < Pages()
      requires Walk(params.layout, procs[p].table, vpn) == FAULT
      modifies DRAM, TLB, this`procs, this`clockHand, this`ready, this`blocked, this`total, this`now
      ensures Valid() && now == old(now) + params.interruptTime && |procs| == |old(procs)|
      ensures blocked == old(blocked)[1..] && ready == old(ready) + [p]
      ensures 0 <= Walk(params.layout, procs[p].table, vpn) < DRAM.Length
      ensures Holds(DRAM[Walk(params.layout, procs[p].table, vpn)], p, vpn)
      ensures total == old(total).(blockedTime := old(total).blockedTime + (old(now) - old(procs)[p].blockOccur))
      ensures SameWork(old(procs), procs)
    {
      hide MemOK, ProcsOK, Partition, OwnersKnown, Clocked, Layout.Pages, Walk, IsLRUVictim, IsClockVictim;
      ghost var b := procs[p];
      var f, _ := PageIn(p, vpn);
      assert DRAM[f] == DRAM[..][f] && Holds(DRAM[f], p, vpn);
      assert procs[p] == b.(table := procs[p].table);
      Unblock();
      Count(p, ZERO.(blockedTime := now - procs[p].blockOccur), params.interruptTime);
    }

    /** The transfer for the first blocked process is up to date, and not at its end. */
    ghost predicate Resting()
      reads this
    {
      blocked != [] ==>
        params.Sound() && blocked[0] < |procs| && !Resident(params.layout, procs, blocked[0]) && lastStop == now
    }

    /**
     * diskToMemory: the first k blocked processes, whose page is there, go on; then the transfer for
     * the next one advances by the time since the last transfer or since its fault. It ends when
     * nothing is left of it, and then the page is resident and the process is ready.
     */
    method DiskToMemory() returns (ghost k: nat)
      requires Valid()
      modifies DRAM, TLB, this`procs, this`clockHand, this`ready, this`blocked, this`total, this`now, this`lastStop
      ensures Valid() && old(now) <= now && |procs| == |old(procs)|
      ensures old(ready) <= ready && old(blocked) == ready[|old(ready)|..] + blocked
      ensures ready == old(ready) ==> now == old(now)
      ensures ready == old(ready) ==> Resting()
      ensures SameWork(old(procs), procs) && total.faults == old(total).faults
      ensures k <= |old(blocked)| && forall i :: 0 <= i < k ==> Resident(params.layout, old(procs), old(blocked)[i])
      ensures k == |old(blocked)| ==>
        blocked == [] && now == old(now) && DRAM[..] == old(DRAM[..]) &&
        total == old(total)
      ensures k < |old(blocked)| ==>
        var p := old(blocked)[k];
        && p < |procs| && !Resident(params.layout, old(procs), p) && lastStop == old(now)
        && var left := Remaining(old(procs)[p], old(lastStop), old(now));
           if left != 0 then
             && blocked == old(blocked)[k..] && now == old(now) && procs[p].fracLeft == left
             && DRAM[..] == old(DRAM[..]) && total == old(total)
           else
             && blocked == old(blocked)[k + 1..] && now == old(now) + params.interruptTime
             && Resident(params.layout, procs, p)
             && total == old(total).(blockedTime := old(total).blockedTime + (old(now) - old(procs)[p].blockOccur))
    {
      hide MemValid, ProcsFine, Layout.Pages, Walk, Remaining, Resident, SameWork;
      k := SkipResident();
      if blocked == [] {
        return;
      }
      ghost var mid := procs;
      TransferFirst();
      SameWorkTwice(old(procs), mid, procs);
      Leftover(old(blocked), k);
      SameTables(params.layout, old(procs), mid, old(blocked), k);
    }

    /** The data transfer of diskToMemory, for the first blocked process. */
    method TransferFirst()
      requires Valid() && blocked != [] && blocked[0] < |procs| && !Resident(params.layout, procs, blocked[0])
      modifies DRAM, TLB, this`procs, this`clockHand, this`ready, this`blocked, this`total, this`now, this`lastStop
      ensures Valid() && SameWork(old(procs), procs) && |procs| == |old(procs)| && lastStop == old(now)
      ensures var p := old(blocked)[0];
        if Remaining(old(procs)[p], old(lastStop), old(now)) != 0 then
          && blocked == old(blocked) && ready == old(ready) && now == old(now) && Resting()
          && procs[p].fracLeft == Remaining(old(procs)[p], old(lastStop), old(now))
          && DRAM[..] == old(DRAM[..]) && total == old(total)
        else
          && blocked == old(blocked)[1..] && ready == old(ready) + [p] && now == old(now) + params.interruptTime
          && Resident(params.layout, procs, p)
          && total == old(total).(blockedTime := old(total).blockedTime + (old(now) - old(procs)[p].blockOccur))
    {
      hide MemValid, ProcsFine, Layout.Pages, Walk, Remaining;
      BlockedFacts(procs, executed, Lists(), stats, total, Pages(), now, Last());
      var p := blocked[0];
      var vpn := procs[p].memReq[0].vpn;
      AdvanceTransfer(p);
      if procs[p].fracLeft == 0 {
        FinishTransfer(p, vpn);
      }
    }

    /** The time since the last transfer, or since the fault, goes off the remaining time of p. */
    method AdvanceTransfer(p: nat)
      requires Valid() && p < |procs|
      modifies this`procs, this`lastStop
      ensures Valid() && lastStop == now && SameWork(old(procs), procs)
      ensures procs == old(procs)[p := old(procs)[p].(fracLeft := Remaining(old(procs)[p], old(lastStop), now))]
    {
      hide MemOK, ProcsOK, Partition, OwnersKnown, Clocked, Layout.Pages;
      var runTime := if lastStop < procs[p].blockOccur then now - procs[p].blockOccur else now - lastStop;
      SetFracLeft(p, U64(procs[p].fracLeft - runTime));
      lastStop := now;
    }

    /** The loop of diskToMemory over blocked processes whose page is in memory after all. */
    method SkipResident() returns (ghost k: nat)
      requires Valid()
      modifies this`procs, this`ready, this`blocked
      ensures Valid() && SameWork(old(procs), procs) && Skipped(params.layout, old(procs), procs, old(blocked), k)
      ensures blocked == old(blocked)[k..] && ready == old(ready) + old(blocked)[..k]
      ensures k < |old(blocked)| ==>
        && old(blocked)[k] < |procs| && !Resident(params.layout, procs, old(blocked)[k])
        && procs[old(blocked)[k]] == old(procs)[old(blocked)[k]]
    {
      hide MemValid, ProcsFine, Layout.Pages, Walk, Moved, SameWork, Skipped;
      k := 0;
      NotMoved(blocked, ready);
      NoneSkipped(params.layout, procs, blocked);
      if blocked != [] { BlockedFacts(procs, executed, Lists(), stats, total, Pages(), now, Last()); }
      BlockedApart(procs, executed, Lists(), stats, total, Pages(), now, Last());
      while blocked != [] && Walk(params.layout, procs[blocked[0]].table, procs[blocked[0]].memReq[0].vpn) != FAULT
        invariant Valid() && SameWork(old(procs), procs) && Skipped(params.layout, old(procs), procs, old(blocked), k)
        invariant Moved(old(blocked), old(ready), k, blocked, ready)
        invariant blocked != [] ==>
          blocked[0] < |procs| && procs[blocked[0]].memReq != [] && procs[blocked[0]].memReq[0].Access?
        invariant params.layout.Sound()
        decreases |blocked|
      {
        OneMoreMoved(old(blocked), old(ready), k, blocked, ready);
        OneMoreSkipped(params.layout, old(procs), procs, old(blocked), k);
        SetFracLeft(blocked[0], 0);
        Unblock();
        k := k + 1;
        if blocked != [] { BlockedFacts(procs, executed, Lists(), stats, total, Pages(), now, Last()); }
      }
      MovedMeans(old(blocked), old(ready), k, blocked, ready);
      if blocked != [] { NextStays(params.layout, old(procs), procs, old(blocked), k); }
    }

    // ---------- the main loop ----------

    method SkipQuanta()
      requires Valid()
      modifies this`nextQuanta
      ensures Valid() && nextQuanta == NextQuantum(old(nextQuanta), now + 1) > now
    {
      hide MemOK, ProcsOK, Partition, OwnersKnown, Clocked, Layout.Pages;
      while now >= nextQuanta
        invariant Valid() && NextQuantum(nextQuanta, now + 1) == NextQuantum(old(nextQuanta), now + 1)
        decreases now - nextQuanta
      {
        nextQuanta := nextQuanta + QUANTUM;
      }
    }

    /** What follows a pause of the processor: the running process ends or gives the processor up. */
    method LeaveProcessor(pause: int)
      requires Valid() && (pause == 0 || pause == 2 ==> Front(running) == Nobody)
      requires pause == -1 ==>
        Front(running).Process? && Front(running).p < |procs| &&
        procs[Front(running).p].memReq == []
      requires pause == 0 || pause == 1 || pause == 4 || pause == -1 || pause == 2
      modifies this`procs, this`stats, this`running, this`ready, this`nextQuanta
      ensures Valid() && Front(running) == Nobody && SameWork(old(procs), procs)
      ensures ready == old(ready) +
        if (pause == 1 || pause == 4) && Front(old(running)).Process? then [Front(old(running)).p] else []
      ensures nextQuanta == if pause == 1 then now + QUANTUM else old(nextQuanta)
      ensures pause == -1 ==>
        var p := Front(old(running)).p;
        && p < |procs| && stats == old(stats) + [Stats(p, procs[p].count)]
        && procs == old(procs)[p := old(procs)[p].(table := Null)]
      ensures old(stats) <= stats && |stats| == |old(stats)| + if pause == -1 then 1 else 0
      ensures Ids(stats) == Ids(old(stats)) + if pause == -1 then [Front(old(running)).p] else []
      ensures pause != -1 ==> stats == old(stats) && procs == old(procs)
    {
      hide MemOK, ProcsOK, Partition, OwnersKnown, Clocked, Layout.Pages;
      if pause == -1 {
        IdsAppend(stats, Stats(Front(running).p, procs[Front(running).p].count));
        CleanUpProcess(Front(running).p);
      }
      if pause == 1 || pause == 4 {
        if Front(running) != Nobody {
          Requeue(Front(running).p);
        }
        if pause == 1 {
          nextQuanta := now + QUANTUM;
        }
      }
    }

    /** The loop of simulate up to the scheduler. */
    method RunAndLeave() returns (ghost slice: Slice)
      requires Valid() && executionOrder != []
      modifies this, TLB, DRAM
      ensures Valid() && executionOrder != [] && old(now) <= now && |procs| == |old(procs)|
      ensures Grew(old(executed), executed) && executionOrder == old(executionOrder)
      ensures Front(running) == Nobody && (ready == [] ==> ArrivalsAhead())
      ensures slice.Follows(old(Lists()), Front(old(running)), [], Lists())
      ensures ready == slice.Queue(old(ready), Front(old(running)))
      ensures slice.unblocked == [] && blocked != [] ==> lastStop == now
      ensures old(stats) <= stats && |stats| == |old(stats)| + if slice.pause == -1 then 1 else 0
      ensures total.faults == old(total).faults + if slice.pause == 0 then 1 else 0
      ensures slice.pause == 0 ==> old(now) < now
    {
      hide MemValid, ProcsFine, Layout.Pages, Walk, Resident, Remaining, Front, Slice.Follows, Slice.Queue, Ids, Ahead,
        SameWork;
      ghost var q, front := Lists(), Front(running);
      var simPause;
      ghost var arrived;
      simPause, arrived := RunSlice();
      ghost var a, was, time := Lists(), procs, now;
      ghost var b := UnblockAndLeave(simPause);
      slice := Slice(simPause, arrived, b.ready[|a.ready|..]);
      SliceEnds(slice, q, front, a, b, Lists());
      AheadStill(was, procs, processList, time);
    }

    /** Transfers advance, and the process that ran leaves the processor; b has the lists in between. */
    method UnblockAndLeave(simPause: int) returns (ghost b: Queues)
      requires Valid() && executionOrder != [] && (simPause == 0 || simPause == 2 ==> Front(running) == Nobody)
      requires simPause == 0 || simPause == 1 || simPause == 4 || simPause == -1 || simPause == 2
      requires simPause == -1 ==>
        Front(running).Process? && Front(running).p < |procs| && procs[Front(running).p].memReq == []
      modifies DRAM, TLB, this`procs, this`clockHand, this`ready, this`blocked, this`total, this`now, this`lastStop,
               this`stats, this`running, this`nextQuanta
      ensures Valid() && old(now) <= now && Front(running) == Nobody
      ensures SameWork(old(procs), procs) && |procs| == |old(procs)|
      ensures b == old(Lists()).(ready := b.ready, blocked := b.blocked) && blocked == b.blocked
      ensures old(ready) <= b.ready && old(blocked) == b.ready[|old(ready)|..] + blocked
      ensures ready == b.ready +
        if (simPause == 1 || simPause == 4) && Front(old(running)).Process? then [Front(old(running)).p] else []
      ensures b.ready == old(ready) ==> now == old(now) && (blocked != [] ==> lastStop == now)
      ensures Ids(stats) == Ids(old(stats)) + if simPause == -1 then [Front(old(running)).p] else []
      ensures old(stats) <= stats && |stats| == |old(stats)| + if simPause == -1 then 1 else 0
      ensures total.faults == old(total).faults
    {
      hide MemValid, ProcsFine, Layout.Pages, Walk, Resident, Remaining, Front, Ids, SameWork;
      ghost var was := procs;
      var _ := DiskToMemory();
      b := Lists();
      ghost var mid := procs;
      if simPause == -1 { SameRequests(was, procs, Front(running).p); }
      LeaveProcessor(simPause);
      SameWorkTwice(was, mid, procs);
    }

    /** The running process runs until something stops it, and whoever is due arrives. */
    method RunSlice() returns (simPause: int, ghost arrived: seq<nat>)
      requires Valid()
      modifies this, TLB, DRAM
      ensures Valid() && executionOrder == old(executionOrder) && stats == old(stats)
      ensures Grew(old(executed), executed) && old(now) <= now && |procs| == |old(procs)| && ArrivalsAhead()
      ensures ready == old(ready) + arrived && old(processList) == arrived + processList
      ensures simPause == 0 || simPause == 1 || simPause == 4 || simPause == -1 || simPause == 2
      ensures simPause == 2 <==> Front(old(running)) == Nobody
      ensures simPause == 0 ==> Front(running) == Nobody && old(now) < now
      ensures simPause == 0 ==>
        Front(old(running)).Process? && blocked == old(blocked) + [Front(old(running)).p]
      ensures simPause != 0 ==> running == old(running) && blocked == old(blocked)
      ensures simPause == -1 ==> Front(running).p < |procs| && procs[Front(running).p].memReq == []
      ensures total.faults == old(total).faults + if simPause == 0 then 1 else 0
      ensures now < nextQuanta == NextQuantum(old(nextQuanta), now + 1)
    {
      hide MemValid, ProcsFine, Layout.Pages, Walk, NextQuantum, SameTraces;
      ghost var frac;
      simPause, frac := ProcessSimulator();
      SkipQuanta();
      if Front(running).Process? {
        RunningFacts(procs, executed, Lists(), stats, total, Pages(), now, Last(), Front(running).p);
      }
      ghost var n := |ready|;
      ArriveAll();
      arrived := ready[n..];
    }

    /** The loop of simulate up to the test for an idle processor. The first of the queue runs. */
    method Turn() returns (ghost slice: Slice, ghost queue: seq<nat>)
      requires Valid() && executionOrder != []
      modifies this, TLB, DRAM
      ensures Valid() && executionOrder != [] && |procs| == |old(procs)| && Grew(old(executed), executed)
      ensures old(executionOrder) <= executionOrder && |executionOrder| <= |old(executionOrder)| + 1
      ensures queue == slice.Queue(old(ready), Front(old(running)))
      ensures Front(running) == if queue == [] then Nobody else Process(queue[0])
      ensures Rest(queue) <= ready && slice.Follows(old(Lists()), Front(old(running)), ready[|Rest(queue)|..], Lists())
      ensures now >= old(now) + if queue == [] then 0 else CONTEXT_SWITCH_TIME
      ensures total.faults == old(total).faults + if slice.pause == 0 then 1 else 0
      ensures old(stats) <= stats && |stats| == |old(stats)| + if slice.pause == -1 then 1 else 0
      ensures slice.pause == 0 ==> old(now) < now
      ensures Front(running) == Nobody && ready == [] ==> ArrivalsAhead()
      ensures ready == Rest(queue) ==> Resting()
    {
      hide MemValid, ProcsFine, Layout.Pages, Walk, Resident, Remaining, NextQuantum, SameTraces, Slice.Follows,
        Slice.Queue, Ids, Resting, Front, SameWork, Ahead, Rest;
      ghost var q, front := Lists(), Front(running);
      slice := RunAndLeave();
      queue := ready;
      ghost var b, was, time := Lists(), procs, now;
      Schedule();
      if queue == [] { AheadStill(was, procs, processList, time); }
      FollowsLate(slice, q, front, b, ready[|Rest(queue)|..], Lists());
    }

    /** The scheduler, and the look at the disk after it. */
    method Schedule()
      requires Valid() && Front(running) == Nobody && executionOrder != []
      modifies DRAM, TLB, this`procs, this`clockHand, this`ready, this`blocked, this`total, this`now, this`lastStop,
               this`running, this`executionOrder
      ensures Valid() && executionOrder != [] && SameWork(old(procs), procs) && |procs| == |old(procs)|
      ensures old(executionOrder) <= executionOrder && |executionOrder| <= |old(executionOrder)| + 1
      ensures Front(running) == if old(ready) == [] then Nobody else Process(old(ready)[0])
      ensures Rest(old(ready)) <= ready && old(blocked) == ready[|Rest(old(ready))|..] + blocked
      ensures now >= old(now) + if old(ready) == [] then 0 else CONTEXT_SWITCH_TIME
      ensures old(ready) == [] && ready == [] ==> now == old(now)
      ensures ready == Rest(old(ready)) ==> Resting()
      ensures total.faults == old(total).faults
    {
      hide MemValid, ProcsFine, Layout.Pages, Walk, Resident, Remaining, Resting, Front, SameWork, Rest;
      ghost var queue, run := ready, running;
      SchedulingRR();
      FrontOf(run, queue);
      RestOf(queue);
      ghost var k := DiskToMemory();
    }

    /**
     * Nothing runs and nothing is ready: time jumps to the next arrival or to the end of the transfer for
     * the first blocked process, whatever is first, and that one becomes ready.
     */
    method Idle()
      requires Valid() && Front(running) == Nobody && ready == [] && ArrivalsAhead() && Resting()
      requires blocked != [] || processList != []
      modifies this`procs, this`clockHand, this`ready, this`blocked, this`total, this`now, this`lastStop,
               this`processList, this`nextQuanta, TLB, DRAM
      ensures Valid() && old(now) <= now && |procs| == |old(procs)|
      ensures if old(ArrivesFirst()) then
          && ready == [old(processList)[0]] && processList == old(processList)[1..] && blocked == old(blocked)
          && now == old(procs[processList[0]].startTime)
        else
          && ready == [old(blocked)[0]] && blocked == old(blocked)[1..] && processList == old(processList)
          && now == old(now + procs[blocked[0]].fracLeft) + params.interruptTime
      ensures total.faults == old(total).faults
    {
      hide MemValid, ProcsFine, Layout.Pages, Walk, Resident, NextQuantum, SameTraces;
      if blocked == [] {
        ArriveIdle();
      } else {
        if blocked != [] { BlockedFacts(procs, executed, Lists(), stats, total, Pages(), now, Last()); }
        var interrupt := now + procs[blocked[0]].fracLeft;
        if processList == [] || procs[processList[0]].startTime >= interrupt {
          TransferEnds(procs[blocked[0]], lastStop, interrupt);
          AdvanceTo(interrupt);
          SkipQuantaTo(now);
          ghost var k := DiskToMemory();
        } else {
          ArriveIdle();
        }
      }
    }

    /** The next event of an idle processor is an arrival. */
    ghost predicate ArrivesFirst()
      reads this
    {
      blocked == [] ||
      (processList != [] && blocked[0] < |procs| && processList[0] < |procs| &&
       procs[processList[0]].startTime < now + procs[blocked[0]].fracLeft)
    }

    /** The next process arrives early, and time jumps to when it was due. */
    method ArriveIdle()
      requires Valid() && processList != [] && ArrivalsAhead()
      modifies this`procs, this`processList, this`ready, this`now, this`nextQuanta
      ensures Valid() && old(now) <= now && |procs| == |old(procs)| && now == old(procs[processList[0]].startTime)
      ensures processList == old(processList)[1..] && ready == old(ready) + [old(processList)[0]]
    {
      hide MemValid, ProcsFine, Layout.Pages, Walk;
      var p := processList[0];
      Arrive();
      JumpTo(procs[p].startTime);
    }

    /** Time jumps to t, quantum by quantum. */
    method JumpTo(t: nat)
      requires Valid() && now <= t
      modifies this`now, this`nextQuanta
      ensures Valid() && now == t && nextQuanta == NextQuantum(old(nextQuanta), t)
    {
      hide MemOK, ProcsOK, Partition, OwnersKnown, Clocked, Layout.Pages;
      ghost var before := now;
      while nextQuanta < t
        invariant NextQuantum(nextQuanta, t) == NextQuantum(old(nextQuanta), t)
        invariant nextQuanta < t + QUANTUM || nextQuanta == old(nextQuanta)
        decreases t - nextQuanta
      {
        now := nextQuanta;
        nextQuanta := now + QUANTUM;
      }
      now := t;
      ClockedLater(params.lru, before, t, DRAM[..], TLB[..]);
      MoveOK(procs, executed, Lists(), Lists(), stats, total, Pages(), before, t);
    }

    /** The quantum that t lies in ends next. */
    method SkipQuantaTo(t: nat)
      requires Valid() && t <= now
      modifies this`nextQuanta
      ensures Valid() && nextQuanta == NextQuantum(old(nextQuanta), t)
    {
      hide MemOK, ProcsOK, Partition, OwnersKnown, Clocked, Layout.Pages;
      while nextQuanta < t
        invariant Valid() && NextQuantum(nextQuanta, t) == NextQuantum(old(nextQuanta), t)
        decreases t - nextQuanta
      {
        nextQuanta := nextQuanta + QUANTUM;
      }
    }

    method AdvanceTo(t: nat)
      requires Valid() && now <= t
      modifies this`now
      ensures Valid() && now == t
    {
      hide MemOK, ProcsOK, Partition, OwnersKnown, Clocked, Layout.Pages;
      ClockedLater(params.lru, now, t, DRAM[..], TLB[..]);
      MoveOK(procs, executed, Lists(), Lists(), stats, total, Pages(), now, t);
      now := t;
    }

    /**
     * One iteration of the loop of simulate; `more` is false when it breaks out. The first of the ready
     * list runs, and otherwise somebody runs or is ready, so that nothing ever stands still.
     */
    method Iterate() returns (more: bool)
      requires Valid() && executionOrder != []
      modifies this, TLB, DRAM
      ensures Valid() && executionOrder != [] && old(now) <= now && |procs| == |old(procs)|
      ensures Grew(old(executed), executed) && IsTail(processList, old(processList))
      ensures old(stats) <= stats && old(executionOrder) <= executionOrder
      ensures |executionOrder| <= |old(executionOrder)| + 1
      ensures !more ==> processList == [] && ready == [] && blocked == [] && Front(running) == Nobody
      ensures more ==> NextLists(old(Lists()), Lists())
      ensures Front(old(running)).Process? || old(ready) != [] ==> old(now) < now || |old(stats)| < |stats|
    {
      hide MemValid, ProcsFine, Layout.Pages, Walk, Resident, Slice.Follows, Slice.Queue, IsTail, NextLists, Front,
        Grew, Ahead, Resting;
      ghost var q, front := Lists(), Front(running);
      ghost var slice, queue := Turn();
      TurnMeans(slice, q, front, queue, ready[|Rest(queue)|..], Lists());
      if Front(running) == Nobody && ready == [] {
        if blocked == [] && processList == [] {
          return false;
        }
        ghost var z := Lists();
        Idle();
        IdleMeans(q, z, Lists());
      }
      return true;
    }

    /**
     * simulate, for at most n iterations; `history` has the lists after each. When it ends, every process
     * has run its whole trace. No access was executed that was not found in the TLB or by a walk.
     */
    method Simulate(n: nat) returns (ended: bool, ghost history: seq<Queues>)
      requires Valid() && executionOrder != []
      modifies this, TLB, DRAM
      ensures Valid() && executionOrder != [] && |procs| == |old(procs)|
      ensures |executed| == |procs| && AllAccesses(executed) <= total.tlbHits + total.hits
      ensures ended ==> forall p: nat :: p < |procs| ==> executed[p] == procs[p].trace && p in Ids(stats)
      ensures History(history) && history[0] == old(Lists()) && |history| <= n + 1
      ensures !ended ==> |history| == n + 1 && history[n] == Lists()
    {
      hide MemOK, ProcsOK, Partition, OwnersKnown, Clocked, Layout.Pages, NextLists;
      ended := false;
      history := [Lists()];
      for i := 0 to n
        invariant Valid() && executionOrder != [] && |procs| == |old(procs)|
        invariant History(history) && history[0] == old(Lists()) && |history| == i + 1 && history[i] == Lists()
      {
        var more := Iterate();
        if !more {
          AccessesCounted(procs, executed, Lists(), stats, total, Pages(), now);
          forall p: nat | p < |procs| ensures executed[p] == procs[p].trace && p in Ids(stats) {
            AllFinished(procs, executed, Lists(), stats, total, Pages(), now, p);
          }
          return true, history;
        }
        history := history + [Lists()];
      }
      AccessesCounted(procs, executed, Lists(), stats, total, Pages(), now);
    }
  }

  /** Round robin, as the lists show it: the first ready process runs next, the others move up. */
  ghost predicate NextLists(q: Queues, z: Queues)
  {
    && (q.ready != [] ==> Front(z.running) == Process(q.ready[0]) && q.ready[1..] <= z.ready)
    && (Front(z.running).Process? || z.ready != [])
  }

  lemma TurnMeans(slice: Slice, q: Queues, front: Owner, queue: seq<nat>, late: seq<nat>, z: Queues)
    requires slice.Follows(q, front, late, z) && queue == slice.Queue(q.ready, front) && z.ready == Rest(queue) + late
    requires front == Front(q.running) && Front(z.running) == if queue == [] then Nobody else Process(queue[0])
    ensures IsTail(z.waiting, q.waiting) && (q.ready != [] ==> queue != [])
    ensures Front(z.running) != Nobody || z.ready != [] ==> NextLists(q, z)
    ensures Front(z.running) == Nobody ==> q.ready == []
    ensures front.Process? && queue == [] ==> slice.pause == 0 || slice.pause == -1
  {
  }

  lemma IdleMeans(q: Queues, y: Queues, z: Queues)
    requires q.ready == [] && IsTail(y.waiting, q.waiting) && z.ready != []
    requires z.waiting == y.waiting || (y.waiting != [] && z.waiting == y.waiting[1..])
    ensures NextLists(q, z) && IsTail(z.waiting, q.waiting)
  {
  }

  ghost predicate History(h: seq<Queues>)
  {
    h != [] && forall i :: 0 <= i < |h| - 1 ==> NextLists(h[i], h[i + 1])
  }

  /** Nobody starves: who is k-th on the ready list runs k + 1 iterations later. */
  lemma {:induction false} RunsSoon(h: seq<Queues>, i: nat, k: nat)
    requires History(h) && i < |h| && k < |h[i].ready| && i + k + 1 < |h|
    ensures Front(h[i + k + 1].running) == Process(h[i].ready[k])
    decreases k
  {
    assert NextLists(h[i], h[i + 1]);
    if k > 0 {
      assert h[i + 1].ready[k - 1] == h[i].ready[1..][k - 1];
      RunsSoon(h, i + 1, k - 1);
    }
  }

  ghost predicate SameTraces(was: seq<PCB>, procs: seq<PCB>)
  {
    |procs| == |was| &&
    forall p :: 0 <= p < |procs| ==> procs[p].trace == was[p].trace && procs[p].startTime == was[p].startTime
  }

  /** The first k have gone from the one list to the end of the other. */
  ghost predicate Moved(from: seq<nat>, to: seq<nat>, k: nat, from': seq<nat>, to': seq<nat>)
  {
    k <= |from| && from' == from[k..] && to' == to + from[..k]
  }

  lemma NotMoved(from: seq<nat>, to: seq<nat>)
    ensures Moved(from, to, 0, from, to)
  {
  }

  lemma OneMoreMoved(from: seq<nat>, to: seq<nat>, k: nat, from': seq<nat>, to': seq<nat>)
    requires Moved(from, to, k, from', to') && from' != []
    ensures k < |from| && from'[0] == from[k] && Moved(from, to, k + 1, from'[1..], to' + [from'[0]])
  {
  }

  lemma MovedMeans(from: seq<nat>, to: seq<nat>, k: nat, from': seq<nat>, to': seq<nat>)
    requires Moved(from, to, k, from', to')
    ensures k <= |from| && from' == from[k..] && to' == to + from[..k]
    ensures to <= to' && from == to'[|to|..] + from'
  {
  }

  ghost predicate Ahead(procs: seq<PCB>, waiting: seq<nat>, now: nat)
  {
    waiting != [] ==> waiting[0] < |procs| && procs[waiting[0]].startTime > now
  }

  lemma AheadStill(was: seq<PCB>, procs: seq<PCB>, waiting: seq<nat>, now: nat)
    requires Ahead(was, waiting, now) && SameWork(was, procs)
    ensures Ahead(procs, waiting, now)
  {
  }

  lemma SameRequests(was: seq<PCB>, procs: seq<PCB>, p: nat)
    requires SameWork(was, procs) && p < |was|
    ensures p < |procs| && procs[p].memReq == was[p].memReq
  {
  }

  lemma SameWorkTwice(was: seq<PCB>, mid: seq<PCB>, procs: seq<PCB>)
    requires SameWork(was, mid) && SameWork(mid, procs)
    ensures SameWork(was, procs) && |procs| == |was|
  {
  }

  /** Only the listed processes may differ. */
  ghost predicate SameBut(was: seq<PCB>, procs: seq<PCB>, list: seq<nat>)
  {
    |procs| == |was| && forall p: nat :: p < |procs| && p !in list ==> procs[p] == was[p]
  }

  /** The time of those who are ready, but for the first n, has come. */
  ghost predicate AllDue(procs: seq<PCB>, ready: seq<nat>, n: nat, now: nat)
  {
    forall i :: n <= i < |ready| ==> ready[i] < |procs| && procs[ready[i]].startTime <= now
  }

  lemma OneMoreDue(procs: seq<PCB>, ready: seq<nat>, n: nat, p: nat, now: nat)
    requires AllDue(procs, ready, n, now) && p < |procs| && procs[p].startTime <= now
    ensures AllDue(procs, ready + [p], n, now)
  {
  }

  lemma DueLater(was: seq<PCB>, procs: seq<PCB>, ready: seq<nat>, n: nat, now: nat)
    requires AllDue(was, ready, n, now) && SameTraces(was, procs)
    ensures AllDue(procs, ready, n, now)
  {
  }

  lemma Unarrived(procs: seq<PCB>, list: seq<nat>, ready: seq<nat>, now: nat)
    ensures SameTraces(procs, procs) && SameBut(procs, procs, list) && AllDue(procs, ready, |ready|, now)
  {
  }

  lemma OneMoreArrived(was: seq<PCB>, procs: seq<PCB>, procs': seq<PCB>, list: seq<nat>, k: nat)
    requires SameTraces(was, procs) && SameBut(was, procs, list)
    requires k < |list| && SameTraces(procs, procs')
    requires forall p: nat :: p < |procs'| && p != list[k] ==> procs'[p] == procs[p]
    ensures SameTraces(was, procs') && SameBut(was, procs', list)
  {
  }

  /** The page that p has to access first is in memory. */
  ghost predicate Resident(c: Layout, procs: seq<PCB>, p: nat)
    requires c.Sound()
  {
    && p < |procs| && procs[p].memReq != [] && procs[p].memReq[0].Access?
    && Walk(c, procs[p].table, procs[p].memReq[0].vpn) != FAULT
  }

  /** The first k blocked processes were found resident; nothing else changed but their remaining times. */
  ghost predicate Skipped(c: Layout, was: seq<PCB>, procs: seq<PCB>, blocked: seq<nat>, k: nat)
    requires c.Sound()
  {
    && k <= |blocked| && |procs| == |was|
    && (forall i :: 0 <= i < k ==> Resident(c, was, blocked[i]))
    && forall p :: 0 <= p < |procs| ==>
         procs[p] == was[p].(fracLeft := procs[p].fracLeft) && (p !in blocked[..k] ==> procs[p] == was[p])
  }

  lemma NoneSkipped(c: Layout, procs: seq<PCB>, blocked: seq<nat>)
    requires c.Sound()
    ensures SameWork(procs, procs) && Skipped(c, procs, procs, blocked, 0)
  {
  }

  lemma OneMoreSkipped(c: Layout, was: seq<PCB>, procs: seq<PCB>, blocked: seq<nat>, k: nat)
    requires c.Sound() && SameWork(was, procs) && Skipped(c, was, procs, blocked, k)
    requires k < |blocked| && blocked[k] !in blocked[..k] && Resident(c, procs, blocked[k])
    ensures var p := blocked[k]; var procs' := procs[p := procs[p].(fracLeft := 0)];
      SameWork(was, procs') && Skipped(c, was, procs', blocked, k + 1)
  {
    assert blocked[..k + 1] == blocked[..k] + [blocked[k]];
  }

  lemma NextStays(c: Layout, was: seq<PCB>, procs: seq<PCB>, blocked: seq<nat>, k: nat)
    requires c.Sound() && Skipped(c, was, procs, blocked, k)
    requires k < |blocked| && blocked[k] < |procs| && blocked[k] !in blocked[..k]
    ensures |procs| == |was| && procs[blocked[k]] == was[blocked[k]]
  {
  }

  lemma Leftover(list: seq<nat>, k: nat)
    requires k < |list|
    ensures list[k..][0] == list[k] && list[k..][1..] == list[k + 1..] && list[..k] + [list[k]] + list[k + 1..] == list
  {
  }

  /** The next one has the same page to wait for as before. */
  lemma SameTables(c: Layout, was: seq<PCB>, procs: seq<PCB>, blocked: seq<nat>, k: nat)
    requires c.Sound() && Skipped(c, was, procs, blocked, k) && k < |blocked| && blocked[k] < |procs|
    requires !Resident(c, procs, blocked[k])
    ensures blocked[k] < |was| && !Resident(c, was, blocked[k])
    ensures forall i :: 0 <= i < k ==> Resident(c, was, blocked[i])
  {
  }

  /** What is left of the transfer for process b after the time since the last one, as an unsigned difference. */
  function Remaining(b: PCB, lastStop: nat, now: nat): nat
  {
    U64(b.fracLeft - Elapsed(b, lastStop, now))
  }

  /** The time since the last look at a transfer, or since its fault. */
  function Elapsed(b: PCB, lastStop: nat, now: nat): int
  {
    if lastStop < b.blockOccur then now - b.blockOccur else now - lastStop
  }

  /** A transfer whose end was passed between two looks does not end: what is left wraps around. */
  lemma TransferOvershot(b: PCB, lastStop: nat, now: nat)
    requires b.fracLeft < TWO64 && 0 <= Elapsed(b, lastStop, now) < TWO64
    ensures Remaining(b, lastStop, now) == 0 <==> Elapsed(b, lastStop, now) == b.fracLeft
    ensures Remaining(b, lastStop, now) <= b.fracLeft <==> Elapsed(b, lastStop, now) <= b.fracLeft
  {
    var x := b.fracLeft - Elapsed(b, lastStop, now);
    assert x < 0 ==> U64(x) == x + TWO64;
    assert x >= 0 ==> U64(x) == x;
  }

  /** When the time that is left has passed since the last look, nothing is left. */
  lemma TransferEnds(b: PCB, lastStop: nat, interrupt: nat)
    requires b.blockOccur <= lastStop && interrupt == lastStop + b.fracLeft
    ensures Remaining(b, lastStop, interrupt) == 0
  {
  }

  lemma BlockedOnce(n: nat, q: Queues, i: nat)
    requires Partition(n, q) && i < |q.blocked|
    ensures q.blocked[i] !in q.blocked[..i]
  {
    var p := q.blocked[i];
    Exclusive(n, q, p);
    assert q.blocked == q.blocked[..i] + [p] + q.blocked[i + 1..];
  }

  ghost predicate SameWork(was: seq<PCB>, procs: seq<PCB>)
  {
    |procs| == |was| && forall p :: 0 <= p < |procs| ==>
      procs[p].startTime == was[p].startTime && procs[p].memReq == was[p].memReq
  }

  lemma UnblockPlaces(n: nat, q: Queues)
    requires Partition(n, q) && q.blocked != []
    ensures Partition(n, q.(ready := q.ready + [q.blocked[0]], blocked := q.blocked[1..]))
  {
    PopBag(q.blocked);
    PushBag(q.ready, q.blocked[0]);
    SamePlaces(n, q, q.(ready := q.ready + [q.blocked[0]], blocked := q.blocked[1..]));
  }

  /** A blocked process has a memory access to do. */
  lemma BlockedIsFaulting(procs: seq<PCB>, executed: seq<seq<Instr>>, q: Queues, stats: seq<Stats>, total: Counters,
                          pages: nat, now: nat)
    requires ProcsOK(procs, executed, q, stats, total, pages, now) && Partition(|procs|, q) && q.blocked != []
    ensures var p := q.blocked[0];
      && p < |procs| && p !in Ids(stats) && procs[p].memReq != [] && procs[p].memReq[0].Access?
      && procs[p].memReq[0].vpn < pages && procs[p].blockOccur <= now && now > 0
  {
    var p := q.blocked[0];
    BlockedAreProcesses(|procs|, q, 0);
    assert p in q.blocked;
    assert Progress(procs[p], executed[p], p, q, pages, now);
    assert procs[p].memReq != [] && procs[p].memReq[0].Access?;
    FirstPage(procs, executed, q, stats, total, pages, now, p);
  }

  lemma FirstReady(ready: seq<nat>, waiting: seq<nat>, procs: seq<PCB>)
    requires |procs| > 0 && ready + waiting == Iota(|procs|) && procs[0].startTime == 0
    requires waiting != [] ==> waiting[0] < |procs| && procs[waiting[0]].startTime > 0
    ensures ready != [] && ready[0] == 0
  {
    assert (ready + waiting)[0] == 0;
  }

  lemma DispatchPlaces(n: nat, q: Queues)
    requires Partition(n, q) && Front(q.running) == Nobody
    ensures q.ready == [] ==> Partition(n, q.(running := [Nobody] + q.running))
    ensures q.ready != [] ==> q.ready[0] < n
    ensures q.ready != [] ==> Partition(n, q.(running := [Process(q.ready[0])] + q.running, ready := q.ready[1..]))
  {
    if q.ready == [] {
      SamePlaces(n, q, q.(running := [Nobody] + q.running));
    } else {
      PopBag(q.ready);
      SamePlaces(n, q, q.(running := [Process(q.ready[0])] + q.running, ready := q.ready[1..]));
      Exclusive(n, q, q.ready[0]);
    }
  }

  lemma RequeuePlaces(n: nat, q: Queues, p: nat)
    requires Partition(n, q) && Front(q.running) == Process(p)
    ensures Partition(n, q.(running := q.running[1..], ready := q.ready + [p])) && Front(q.running[1..]) == Nobody
  {
    var z := q.(running := q.running[1..], ready := q.ready + [p]);
    PushBag(q.ready, p);
    LeaveRunning(q.running);
    SamePlaces(n, q, z);
  }

  lemma RunningRest(n: nat, q: Queues)
    requires Partition(n, q) && q.running != []
    ensures Front(q.running[1..]) == Nobody
  {
    LeaveRunning(q.running);
  }

  lemma WaitingAreProcesses(n: nat, q: Queues, i: nat)
    requires Partition(n, q) && i < |q.waiting|
    ensures q.waiting[i] < n
  {
    Exclusive(n, q, q.waiting[i]);
    assert q.waiting[i] in multiset(q.waiting);
  }

  lemma FlushedClocked(lru: bool, now: nat, dram: seq<Frame>, was: seq<TLBEntry>, tlb: seq<TLBEntry>)
    requires Clocked(lru, now, dram, was) && forall i :: 0 <= i < |tlb| ==> tlb[i] == EMPTY
    ensures Clocked(lru, now, dram, tlb)
  {
  }

  lemma BlockPlaces(n: nat, q: Queues, p: nat)
    requires Partition(n, q) && Front(q.running) == Process(p)
    ensures Partition(n, q.(running := q.running[1..], blocked := q.blocked + [p])) && Front(q.running[1..]) == Nobody
  {
    var z := q.(running := q.running[1..], blocked := q.blocked + [p]);
    PushBag(q.blocked, p);
    LeaveRunning(q.running);
    SamePlaces(n, q, z);
  }

  lemma BlockedAreProcesses(n: nat, q: Queues, i: nat)
    requires Partition(n, q) && i < |q.blocked|
    ensures q.blocked[i] < n && q.blocked[i] !in q.finished && q.blocked[i] !in q.waiting
  {
    Exclusive(n, q, q.blocked[i]);
    assert q.blocked[i] in multiset(q.blocked);
  }

  /** Only process p changed, and neither its page table nor its trace. */
  ghost predicate OnlyProcess(p: nat, was: seq<PCB>, procs: seq<PCB>)
  {
    && p < |was| == |procs| && procs == was[p := procs[p]]
    && procs[p].table == was[p].table && procs[p].trace == was[p].trace && procs[p].startTime == was[p].startTime
  }

  /** The access was done and the instruction is executed, or the time slice ran out. */
  ghost predicate Accessed(p: nat, done: bool, stopTime: nat, now: nat, was: seq<PCB>, procs: seq<PCB>)
    requires p < |was| && p < |procs| && was[p].memReq != []
  {
    && procs[p].fracLeft == was[p].fracLeft
    && if done then procs[p].memReq == was[p].memReq[1..] else procs[p].memReq == was[p].memReq && now == stopTime
  }

  /** An entry for the page was used at this time. */
  ghost predicate UsedEntry(was: seq<TLBEntry>, tlb: seq<TLBEntry>, now: nat, vpn: nat)
  {
    exists i :: 0 <= i < |was| && was[i].valid && was[i].vpn == vpn && tlb == was[i := was[i].(time := now)]
  }

  /** The translation took the place of the entry that the replacement chooses. */
  ghost predicate CachedEntry(was: seq<TLBEntry>, tlb: seq<TLBEntry>, now: nat, vpn: nat, ppn: int)
  {
    ppn >= 0 && exists k: nat :: IsTLBVictim(was, k) && k < |was| && tlb == was[k := TLBEntry(true, now, vpn, ppn)]
  }

  /** If the access was done, frame f got a new time stamp or reference bit; nothing else changed in DRAM. */
  ghost predicate Touched(done: bool, f: int, lru: bool, now: nat, was: seq<Frame>, dram: seq<Frame>)
  {
    if done then 0 <= f < |was| && dram == was[f := was[f].(time := if lru then now else 1)] else dram == was
  }

  /** timeAvailable wraps around when the TLB latency exceeds it; then it is large. */
  /** What a turn of the loop did with the processes: why the slice ended, who arrived, and who was unblocked. */
  datatype Slice = Slice(pause: int, arrived: seq<nat>, unblocked: seq<nat>)
  {
    /** The one that ran goes on waiting for the processor. */
    function Preempted(front: Owner): seq<nat>
    {
      if (pause == 1 || pause == 4) && front.Process? then [front.p] else []
    }

    function Faulted(front: Owner): seq<nat>
    {
      if pause == 0 && front.Process? then [front.p] else []
    }

    function Ended(front: Owner): seq<nat>
    {
      if pause == -1 && front.Process? then [front.p] else []
    }

    /** The ready list that the scheduler finds. */
    function Queue(ready: seq<nat>, front: Owner): seq<nat>
    {
      ready + arrived + unblocked + Preempted(front)
    }

    /** Where everybody else is after the turn; `late` are those who were unblocked after the scheduler ran. */
    ghost predicate Follows(q: Queues, front: Owner, late: seq<nat>, z: Queues)
    {
      && (pause == 0 || pause == 1 || pause == 4 || pause == -1 || pause == 2) && (pause == 2 <==> front == Nobody)
      && q.waiting == arrived + z.waiting && z.finished == q.finished + Ended(front)
      && q.blocked + Faulted(front) == unblocked + late + z.blocked
    }
  }

  lemma RestOf(queue: seq<nat>)
    ensures queue == [] ==> Rest(queue) == []
  {
  }

  lemma FrontOf(running: seq<Owner>, queue: seq<nat>)
    ensures Front([Nobody] + running) == Nobody
    ensures queue != [] ==> Front([Process(queue[0])] + running) == Process(queue[0])
  {
  }

  lemma FollowsLate(slice: Slice, q: Queues, front: Owner, b: Queues, late: seq<nat>, z: Queues)
    requires slice.Follows(q, front, [], b) && b.waiting == z.waiting && b.finished == z.finished
    requires b.blocked == late + z.blocked
    ensures slice.Follows(q, front, late, z)
  {
    assert slice.unblocked + [] + b.blocked == slice.unblocked + late + z.blocked;
  }

  lemma SliceEnds(slice: Slice, q: Queues, front: Owner, a: Queues, b: Queues, z: Queues)
    requires (slice.pause == 2 <==> front == Nobody)
    requires slice.pause == 0 || slice.pause == 1 || slice.pause == 4 || slice.pause == -1 || slice.pause == 2
    requires a.ready == q.ready + slice.arrived && q.waiting == slice.arrived + a.waiting && a.finished == q.finished
    requires a.blocked == q.blocked + if slice.pause == 0 then [front.p] else []
    requires b == a.(ready := b.ready, blocked := b.blocked) && a.ready <= b.ready
    requires slice.unblocked == b.ready[|a.ready|..] && a.blocked == slice.unblocked + b.blocked
    requires z == b.(ready := z.ready, finished := z.finished, running := z.running)
    requires z.ready == b.ready + if slice.pause == 1 || slice.pause == 4 then [front.p] else []
    requires z.finished == b.finished + if slice.pause == -1 then [front.p] else []
    ensures slice.Follows(q, front, [], z) && z.ready == slice.Queue(q.ready, front)
  {
  }

  lemma TimeLeft(stopTime: nat, start: nat, tlbLatency: nat, dramLatency: nat)
    requires start < stopTime < start + TWO64 && tlbLatency + 2 * dramLatency < TWO64
    ensures var t, a := U64(stopTime - start - tlbLatency), stopTime - start;
      && (t < 2 * dramLatency ==> start + tlbLatency + t == stopTime)
      && (t >= dramLatency <==> a < tlbLatency || tlbLatency + dramLatency <= a)
      && (t >= 2 * dramLatency <==> a < tlbLatency || tlbLatency + 2 * dramLatency <= a)
  {
    var x := stopTime - start - tlbLatency;
    assert x < 0 ==> U64(x) == x + TWO64;
    assert x >= 0 ==> U64(x) == x;
  }

  predicate InTLB(tlb: seq<TLBEntry>, vpn: nat)
  {
    exists i :: 0 <= i < |tlb| && tlb[i].valid && tlb[i].vpn == vpn
  }

  lemma VictimInRange(tlb: seq<TLBEntry>, k: nat)
    requires IsTLBVictim(tlb, k)
    ensures k < |tlb|
  {
  }

  lemma NotInTLB(tlb: seq<TLBEntry>, vpn: nat)
    requires !InTLB(tlb, vpn)
    ensures forall i :: 0 <= i < |tlb| ==> !(tlb[i].valid && tlb[i].vpn == vpn)
  {
  }

  lemma FirstPage(procs: seq<PCB>, executed: seq<seq<Instr>>, q: Queues, stats: seq<Stats>, total: Counters,
                  pages: nat, now: nat, p: nat)
    requires ProcsOK(procs, executed, q, stats, total, pages, now) && p < |procs|
    requires procs[p].memReq != [] && procs[p].memReq[0].Access?
    ensures procs[p].memReq[0].vpn < pages
  {
    assert Progress(procs[p], executed[p], p, q, pages, now);
    assert procs[p].trace[|executed[p]|] == procs[p].memReq[0];
  }

  /** The time that `req` takes, `frac` of it the rest of its first instruction, at a given time for an access. */
  function Work(req: seq<Instr>, frac: nat, nonMem: nat, access: nat): nat
  {
    if req == [] then 0
    else if req[0] == NonMem then (if frac > 0 then frac else nonMem) + Work(req[1..], 0, nonMem, access)
    else access + Work(req[1..], frac, nonMem, access)
  }

  /**
   * Time t was spent on what has gone from `req` when `rest` is left: as much as it takes when accesses
   * are fast, at most as much as when they are slow, and at most one slow access that was not finished.
   */
  ghost predicate Spent(params: Params, req: seq<Instr>, frac: nat, rest: seq<Instr>, fracLeft: nat, t: int,
                        stopped: bool)
  {
    && Work(req, frac, params.nonMemLength, params.Fast())
       <= Work(rest, fracLeft, params.nonMemLength, params.Fast()) + t
    && Work(req, frac, params.nonMemLength, params.Slow()) + (if stopped && Accessing(rest) then params.Slow() else 0)
       >= Work(rest, fracLeft, params.nonMemLength, params.Slow()) + t
  }

  predicate Accessing(req: seq<Instr>) { req != [] && req[0].Access? }

  lemma SpentNonMem(params: Params, req: seq<Instr>, frac: nat, rest: seq<Instr>, fracLeft: nat, t: int, stopped: bool)
    requires req != [] && req[0] == NonMem
    requires var need := if frac > 0 then frac else params.nonMemLength;
      if rest == req then 0 < fracLeft == need - t else t == need && rest == req[1..] && fracLeft == 0
    ensures Spent(params, req, frac, rest, fracLeft, t, stopped)
  {
  }

  lemma SpentAccess(params: Params, req: seq<Instr>, frac: nat, rest: seq<Instr>, t: int, stopped: bool)
    requires Accessing(req)
    requires if rest == req then stopped && 0 <= t <= params.Slow()
      else rest == req[1..] && params.Fast() <= t <= params.Slow()
    ensures Spent(params, req, frac, rest, frac, t, stopped)
  {
  }

  lemma NothingSpent(params: Params, req: seq<Instr>, frac: nat, stopped: bool)
    ensures Spent(params, req, frac, req, frac, 0, stopped)
  {
  }

  /** When nothing is left, no access was broken off. */
  lemma SpentAll(params: Params, req: seq<Instr>, frac: nat, fracLeft: nat, t: int, stopped: bool)
    requires Spent(params, req, frac, [], fracLeft, t, stopped)
    ensures Spent(params, req, frac, [], fracLeft, t, false)
  {
  }

  lemma SpentMore(params: Params, req: seq<Instr>, frac: nat, mid: seq<Instr>, midFrac: nat, t: int,
                  rest: seq<Instr>, fracLeft: nat, more: int, stopped: bool)
    requires Spent(params, req, frac, mid, midFrac, t, false)
    requires Spent(params, mid, midFrac, rest, fracLeft, more, stopped)
    ensures Spent(params, req, frac, rest, fracLeft, t + more, stopped)
  {
  }

  /** Lookups of p that found a frame, through the TLB or by a walk. */
  function Found(b: PCB): nat
  {
    b.count.tlbHits + b.count.hits
  }

  lemma WalkHolds(c: Layout, m: Mem, p: nat, v: nat)
    requires c.Sound() && MemOK(c, m) && p < |m.tables| && v < c.Pages() && Walk(c, m.tables[p], v) != FAULT
    ensures Walk(c, m.tables[p], v) < |m.dram| && m.dram[Walk(c, m.tables[p], v)].owner == Process(p)
  {
  }

  /** The TLB-hit path uses the frame that a page-table walk would give. */
  lemma HitIsWalk(c: Layout, m: Mem, i: nat)
    requires c.Sound() && MemOK(c, m) && m.last < |m.tables| && m.last !in m.done && i < |m.tlb| && m.tlb[i].valid
    ensures m.tlb[i].vpn < c.Pages() && Walk(c, m.tables[m.last], m.tlb[i].vpn) == m.tlb[i].ppn != FAULT
  {
    assert EntryOf(c, m.tables[m.last], m.tlb[i]);
  }

  lemma BlockOccurOK(procs: seq<PCB>, executed: seq<seq<Instr>>, q: Queues, stats: seq<Stats>, total: Counters,
                     pages: nat, now: nat, p: nat, b: PCB)
    requires ProcsOK(procs, executed, q, stats, total, pages, now) && p < |procs| && p !in q.blocked
    requires b == procs[p].(fracLeft := b.fracLeft, blockOccur := b.blockOccur)
    ensures ProcsOK(procs[p := b], executed, q, stats, total, pages, now)
  {
    SumSame(procs, p, b);
    forall r: nat | r < |procs| ensures Progress(procs[p := b][r], executed[r], r, q, pages, now) {
      assert Progress(procs[r], executed[r], r, q, pages, now);
    }
  }

  /** Instructions are executed one after the other and never taken back. */
  ghost predicate Grew(was: seq<seq<Instr>>, executed: seq<seq<Instr>>)
  {
    |executed| == |was| && forall p :: 0 <= p < |was| ==> was[p] <= executed[p]
  }

  /** Processes leave the waiting list from the front and never come back to it. */
  ghost predicate IsTail(s: seq<nat>, was: seq<nat>)
  {
    |s| <= |was| && s == was[|was| - |s|..]
  }

  lemma ClockedLater(lru: bool, now: nat, later: nat, dram: seq<Frame>, tlb: seq<TLBEntry>)
    requires Clocked(lru, now, dram, tlb) && now <= later
    ensures Clocked(lru, later, dram, tlb)
  {
  }

  lemma OwnersStay(m: Mem, z: Mem)
    requires OwnersKnown(m) && SameFrames(m.dram, z.dram) && |z.tables| == |m.tables|
    ensures OwnersKnown(z)
  {
  }

  lemma ExecutedLength(procs: seq<PCB>, executed: seq<seq<Instr>>, q: Queues, stats: seq<Stats>, total: Counters,
                       pages: nat, now: nat)
    requires ProcsOK(procs, executed, q, stats, total, pages, now)
    ensures |executed| == |procs|
  {
  }

  lemma ClockKeepsFrames(dram: seq<Frame>, hand: nat, f: nat, z: seq<Frame>)
    requires IsClockVictim(dram, hand, f, z)
    ensures SameFrames(dram, z)
  {
  }

  lemma PageInClocked(params: Params, now: nat, m: Mem, hand: nat, f: nat, z: seq<Frame>, p: nat, vpn: nat)
    requires params.Sound() && Clocked(params.lru, now, m.dram, m.tlb) && now > 0 && f < |z| == |m.dram|
    requires params.lru ==> z == m.dram
    requires !params.lru ==> IsClockVictim(m.dram, hand, f, z)
    ensures Clocked(params.lru, now, z[f := Frame(if params.lru then now else 1, Process(p), vpn)],
                    Evicted(params.layout, m, f).tlb)
  {
  }
}
