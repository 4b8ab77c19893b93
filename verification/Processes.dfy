/** Processes of the paging simulator: their control blocks, their queues, and their statistics. */
module Processes {
  import opened PageTables
  import opened Memory

  /** A line of a trace; for a memory access, the virtual page number of its address. */
  datatype Instr = NonMem | Access(vpn: nat)

  datatype Counters = Counters(hits: nat, faults: nat, tlbHits: nat, tlbMisses: nat, userTime: nat, blockedTime: nat)
  {
    function Plus(o: Counters): Counters
    {
      Counters(hits + o.hits, faults + o.faults, tlbHits + o.tlbHits, tlbMisses + o.tlbMisses,
               userTime + o.userTime, blockedTime + o.blockedTime)
    }
  }

  const ZERO := Counters(0, 0, 0, 0, 0, 0)

  /** struct PCB; `trace` is what the process's trace file holds. */
  datatype PCB = PCB(startTime: nat, trace: seq<Instr>, memReq: seq<Instr>, table: Node,
                     fracLeft: nat, blockOccur: nat, count: Counters)

  /** What cleanUpProcess puts into perProcessStats. */
  datatype Stats = Stats(p: nat, count: Counters)

  function Tables(procs: seq<PCB>): (t: seq<Node>)
    ensures |t| == |procs| && forall p :: 0 <= p < |t| ==> t[p] == procs[p].table
  {
    seq(|procs|, p requires 0 <= p < |procs| => procs[p].table)
  }

  lemma TablesUpdate(procs: seq<PCB>, p: nat, b: PCB)
    requires p < |procs|
    ensures Tables(procs[p := b]) == Tables(procs)[p := b.table]
  {
  }

  lemma TablesSame(procs: seq<PCB>, p: nat, b: PCB)
    requires p < |procs| && b.table == procs[p].table
    ensures Tables(procs[p := b]) == Tables(procs)
  {
  }

  // ---------- totals ----------

  function Sum(procs: seq<PCB>): Counters
  {
    if procs == [] then ZERO else procs[0].count.Plus(Sum(procs[1..]))
  }

  /** What is charged to one process is charged to the total. */
  lemma {:induction false} SumUpdate(procs: seq<PCB>, p: nat, b: PCB, more: Counters)
    requires p < |procs| && b.count == procs[p].count.Plus(more)
    ensures Sum(procs[p := b]) == Sum(procs).Plus(more)
  {
    if p == 0 {
      assert procs[p := b][1..] == procs[1..];
    } else {
      assert procs[p := b][1..] == procs[1..][p - 1 := b];
      SumUpdate(procs[1..], p - 1, b, more);
    }
  }

  lemma SumSame(procs: seq<PCB>, p: nat, b: PCB)
    requires p < |procs| && b.count == procs[p].count
    ensures Sum(procs[p := b]) == Sum(procs)
  {
    SumUpdate(procs, p, b, ZERO);
  }

  // ---------- queues ----------

  /** The state machine: which process is on which list. A running list may hold null pointers. */
  datatype Queues = Queues(
    waiting: seq<nat>, ready: seq<nat>, running: seq<Owner>, blocked: seq<nat>, finished: seq<nat>)

  /** gll_first of the running list. */
  function Front(running: seq<Owner>): Owner
  {
    if running == [] then Nobody else running[0]
  }

  function Rest<T>(s: seq<T>): seq<T>
  {
    if s == [] then [] else s[1..]
  }

  function Bag(o: Owner): multiset<nat>
  {
    if o.Process? then multiset{o.p} else multiset{}
  }

  function Everyone(q: Queues): multiset<nat>
  {
    multiset(q.waiting) + multiset(q.ready) + Bag(Front(q.running)) + multiset(q.blocked) + multiset(q.finished)
  }

  /** Every process is in exactly one place, and at most one runs. */
  ghost predicate Partition(n: nat, q: Queues)
  {
    && (forall p: nat :: Everyone(q)[p] == if p < n then 1 else 0)
    && forall i :: 0 < i < |q.running| ==> q.running[i] == Nobody
  }

  lemma PopPush(a: seq<nat>, b: seq<nat>)
    requires a != []
    ensures multiset(a[1..]) + multiset(b + [a[0]]) == multiset(a) + multiset(b)
  {
    assert a == [a[0]] + a[1..];
  }

  lemma PopBag(a: seq<nat>)
    requires a != []
    ensures multiset(a[1..]) + multiset{a[0]} == multiset(a)
  {
    assert a == [a[0]] + a[1..];
  }

  lemma PushBag(a: seq<nat>, p: nat)
    ensures multiset(a + [p]) == multiset(a) + multiset{p}
  {
  }

  lemma SamePlaces(n: nat, q: Queues, z: Queues)
    requires Partition(n, q) && Everyone(z) == Everyone(q)
    requires forall i :: 0 < i < |z.running| ==> z.running[i] == Nobody
    ensures Partition(n, z)
  {
  }

  /** The lists exclude each other, and their members are processes. */
  lemma Exclusive(n: nat, q: Queues, p: nat)
    requires Partition(n, q)
    ensures multiset(q.waiting)[p] + multiset(q.ready)[p] + Bag(Front(q.running))[p] + multiset(q.blocked)[p]
            + multiset(q.finished)[p] == if p < n then 1 else 0
  {
    assert Everyone(q)[p] == if p < n then 1 else 0;
  }

  function Ids(stats: seq<Stats>): (s: seq<nat>)
    ensures |s| == |stats| && forall i :: 0 <= i < |s| ==> s[i] == stats[i].p
  {
    seq(|stats|, i requires 0 <= i < |stats| => stats[i].p)
  }

  lemma IdsAppend(stats: seq<Stats>, x: Stats)
    ensures Ids(stats + [x]) == Ids(stats) + [x.p]
  {
  }

  function Done(finished: seq<nat>): (d: set<nat>)
    ensures forall p :: p in d <==> p in finished
  {
    set p | p in finished
  }

  // ---------- progress ----------

  ghost predicate PagesOf(trace: seq<Instr>, pages: nat)
  {
    forall i :: 0 <= i < |trace| ==> trace[i].Access? ==> trace[i].vpn < pages
  }

  /** How many instructions of s access memory. */
  function Accesses(s: seq<Instr>): nat
  {
    if s == [] then 0 else Accesses(s[..|s| - 1]) + if s[|s| - 1].Access? then 1 else 0
  }

  lemma AccessesAppend(s: seq<Instr>, i: Instr)
    ensures Accesses(s + [i]) == Accesses(s) + if i.Access? then 1 else 0
  {
    assert (s + [i])[..|s|] == s;
  }

  /**
   * Executed instructions followed by memReq are the trace; a finished process has executed it all. Every
   * access that was executed had been found in the TLB or by a walk.
   */
  ghost predicate Progress(b: PCB, executed: seq<Instr>, p: nat, q: Queues, pages: nat, now: nat)
  {
    && PagesOf(b.trace, pages) && Accesses(executed) <= b.count.tlbHits + b.count.hits
    && (if p in q.waiting then executed == [] && b.memReq == [] else executed + b.memReq == b.trace)
    && (p in q.finished ==> b.memReq == [])
    && (p in q.blocked ==> b.memReq != [] && b.memReq[0].Access? && b.blockOccur <= now && now > 0)
  }

  ghost predicate AllProgress(procs: seq<PCB>, executed: seq<seq<Instr>>, q: Queues, pages: nat, now: nat)
  {
    |executed| == |procs| && forall p: nat :: p < |procs| ==> Progress(procs[p], executed[p], p, q, pages, now)
  }

  ghost predicate StatsOK(procs: seq<PCB>, stats: seq<Stats>)
  {
    forall i :: 0 <= i < |stats| ==> stats[i].p < |procs| && stats[i].count == procs[stats[i].p].count
  }

  // ---------- time stamps ----------

  /** Stamps are not in the future; under LRU a frame is free when its stamp is 0, under clock it is a bit. */
  ghost predicate Clocked(lru: bool, now: nat, dram: seq<Frame>, tlb: seq<TLBEntry>)
  {
    && (forall i :: 0 <= i < |tlb| ==> tlb[i].time <= now)
    && forall f :: 0 <= f < |dram| ==>
         if lru then dram[f].time <= now && (dram[f].time == 0 <==> dram[f].owner == Nobody)
         else dram[f].time <= 1
  }

  /** Everything about the control blocks and statistics. */
  ghost predicate ProcsOK(procs: seq<PCB>, executed: seq<seq<Instr>>, q: Queues, stats: seq<Stats>, total: Counters,
                          pages: nat, now: nat)
  {
    && AllProgress(procs, executed, q, pages, now) && StatsOK(procs, stats) && Sum(procs) == total
    && q.finished == Ids(stats)
  }

  /** Time passes, and something is charged to a process that is not finished. */
  lemma ChargeOK(procs: seq<PCB>, executed: seq<seq<Instr>>, q: Queues, stats: seq<Stats>, total: Counters,
                 pages: nat, now: nat, p: nat, b: PCB, more: Counters, later: nat)
    requires ProcsOK(procs, executed, q, stats, total, pages, now) && p < |procs| && p !in q.finished
    requires now <= later && b.trace == procs[p].trace && b.memReq == procs[p].memReq
    requires b.blockOccur == procs[p].blockOccur && b.count == procs[p].count.Plus(more)
    ensures ProcsOK(procs[p := b], executed, q, stats, total.Plus(more), pages, later)
  {
    SumUpdate(procs, p, b, more);
    forall i | 0 <= i < |stats| ensures stats[i].p != p { assert Ids(stats)[i] in q.finished; }
    forall r: nat | r < |procs| ensures Progress(procs[p := b][r], executed[r], r, q, pages, later) {
      assert Progress(procs[r], executed[r], r, q, pages, now);
    }
  }

  /** The first instruction of a running process is executed. */
  lemma PopOK(procs: seq<PCB>, executed: seq<seq<Instr>>, q: Queues, stats: seq<Stats>, total: Counters,
              pages: nat, now: nat, p: nat, b: PCB)
    requires ProcsOK(procs, executed, q, stats, total, pages, now) && p < |procs|
    requires p !in q.finished && p !in q.waiting && p !in q.blocked && procs[p].memReq != []
    requires b.trace == procs[p].trace && b.count == procs[p].count && b.memReq == procs[p].memReq[1..]
    requires procs[p].memReq[0].Access? ==>
      p < |executed| && Accesses(executed[p]) < procs[p].count.tlbHits + procs[p].count.hits
    ensures ProcsOK(procs[p := b], executed[p := executed[p] + [procs[p].memReq[0]]], q, stats, total, pages, now)
  {
    SumSame(procs, p, b);
    AccessesAppend(executed[p], procs[p].memReq[0]);
    var e := executed[p := executed[p] + [procs[p].memReq[0]]];
    forall r: nat | r < |procs| ensures Progress(procs[p := b][r], e[r], r, q, pages, now) {
      assert Progress(procs[r], executed[r], r, q, pages, now);
      if r == p { assert executed[p] + [procs[p].memReq[0]] + b.memReq == executed[p] + procs[p].memReq; }
    }
  }

  /** Equal but for page tables and remaining times. */
  ghost predicate SameButTables(procs: seq<PCB>, z: seq<PCB>)
  {
    |z| == |procs| && forall q :: 0 <= q < |z| ==> z[q] == procs[q].(table := z[q].table, fracLeft := z[q].fracLeft)
  }

  lemma {:induction false} SumTables(procs: seq<PCB>, z: seq<PCB>)
    requires SameButTables(procs, z)
    ensures Sum(z) == Sum(procs)
  {
    if procs != [] { SumTables(procs[1..], z[1..]); }
  }

  lemma TablesChangeOK(procs: seq<PCB>, z: seq<PCB>, executed: seq<seq<Instr>>, q: Queues, stats: seq<Stats>,
                       total: Counters, pages: nat, now: nat)
    requires ProcsOK(procs, executed, q, stats, total, pages, now) && SameButTables(procs, z)
    ensures ProcsOK(z, executed, q, stats, total, pages, now)
  {
    SumTables(procs, z);
    forall r: nat | r < |procs| ensures Progress(z[r], executed[r], r, q, pages, now) {
      assert Progress(procs[r], executed[r], r, q, pages, now);
    }
  }

  /** Processes move between lists, but not to or from the waiting and finished ones. */
  lemma MoveOK(procs: seq<PCB>, executed: seq<seq<Instr>>, q: Queues, z: Queues, stats: seq<Stats>, total: Counters,
               pages: nat, now: nat, later: nat)
    requires ProcsOK(procs, executed, q, stats, total, pages, now) && now <= later
    requires z.waiting == q.waiting && z.finished == q.finished
    requires forall p :: p in z.blocked && p < |procs| && p !in q.blocked ==>
      procs[p].memReq != [] && procs[p].memReq[0].Access? && procs[p].blockOccur <= later && later > 0
    ensures ProcsOK(procs, executed, z, stats, total, pages, later)
  {
    forall r: nat | r < |procs| ensures Progress(procs[r], executed[r], r, z, pages, later) {
      assert Progress(procs[r], executed[r], r, q, pages, now);
    }
  }

  /** A process arrives, and its trace is read. */
  lemma ArriveOK(procs: seq<PCB>, executed: seq<seq<Instr>>, q: Queues, z: Queues, stats: seq<Stats>, total: Counters,
                 pages: nat, now: nat, b: PCB)
    requires ProcsOK(procs, executed, q, stats, total, pages, now) && Partition(|procs|, q)
    requires q.waiting != [] && q.waiting[0] < |procs|
    requires b == procs[q.waiting[0]].(memReq := procs[q.waiting[0]].memReq + procs[q.waiting[0]].trace)
    requires z == q.(waiting := q.waiting[1..], ready := q.ready + [q.waiting[0]])
    ensures Partition(|procs|, z)
    ensures ProcsOK(procs[q.waiting[0] := b], executed, z, stats, total, pages, now)
  {
    var p := q.waiting[0];
    PopPush(q.waiting, q.ready);
    SamePlaces(|procs|, q, z);
    Exclusive(|procs|, q, p);
    Exclusive(|procs|, z, p);
    SumSame(procs, p, b);
    assert q.waiting == [p] + q.waiting[1..];
    forall i | 0 <= i < |stats| ensures stats[i].p != p { assert Ids(stats)[i] in q.finished; }
    forall r: nat | r < |procs| ensures Progress(procs[p := b][r], executed[r], r, z, pages, now) {
      assert Progress(procs[r], executed[r], r, q, pages, now);
    }
  }

  /** The running process ends: its page table is freed and its counters are kept. */
  lemma EndOK(procs: seq<PCB>, executed: seq<seq<Instr>>, q: Queues, z: Queues, stats: seq<Stats>, total: Counters,
              pages: nat, now: nat, p: nat)
    requires ProcsOK(procs, executed, q, stats, total, pages, now) && Partition(|procs|, q)
    requires Front(q.running) == Process(p) && p < |procs| && procs[p].memReq == []
    requires z == q.(running := q.running[1..], finished := q.finished + [p])
    ensures Partition(|procs|, z)
    ensures ProcsOK(procs[p := procs[p].(table := Null)], executed, z, stats + [Stats(p, procs[p].count)], total,
      pages, now)
  {
    var b := procs[p].(table := Null);
    EndPlaces(|procs|, q, z, p);
    IdsAppend(stats, Stats(p, procs[p].count));
    SumSame(procs, p, b);
    forall r: nat | r < |procs| ensures Progress(procs[p := b][r], executed[r], r, z, pages, now) {
      assert Progress(procs[r], executed[r], r, q, pages, now);
    }
  }

  lemma EndPlaces(n: nat, q: Queues, z: Queues, p: nat)
    requires Partition(n, q) && Front(q.running) == Process(p)
    requires z == q.(running := q.running[1..], finished := q.finished + [p])
    ensures Partition(n, z) && p !in q.waiting && p !in q.blocked && p !in q.finished
  {
    PushBag(q.finished, p);
    LeaveRunning(q.running);
    SamePlaces(n, q, z);
    Exclusive(n, q, p);
  }

  lemma LeaveRunning(running: seq<Owner>)
    requires running != [] && forall i :: 0 < i < |running| ==> running[i] == Nobody
    ensures Front(running[1..]) == Nobody && forall i :: 0 < i < |running[1..]| ==> running[1..][i] == Nobody
  {
  }

  // ---------- the beginning and the end ----------

  /** 0, 1, ..., n - 1: the order of the trace file. */
  function Iota(n: nat): (s: seq<nat>)
    ensures |s| == n && forall i :: 0 <= i < n ==> s[i] == i
  {
    seq(n, i requires 0 <= i => i)
  }

  lemma {:induction false} IotaBag(n: nat, p: nat)
    ensures multiset(Iota(n))[p] == if p < n then 1 else 0
  {
    if n > 0 {
      IotaBag(n - 1, p);
      assert Iota(n) == Iota(n - 1) + [n - 1];
      PushBag(Iota(n - 1), n - 1);
    }
  }

  lemma {:induction false} FreshSum(procs: seq<PCB>)
    requires forall p :: 0 <= p < |procs| ==> procs[p].count == ZERO
    ensures Sum(procs) == ZERO
  {
    if procs != [] {
      FreshSum(procs[1..]);
      assert procs[0].count == ZERO;
    }
  }

  lemma InitialPlaces(n: nat, q: Queues)
    requires q == Queues(Iota(n), [], [], [], [])
    ensures Partition(n, q)
  {
    forall p: nat ensures Everyone(q)[p] == if p < n then 1 else 0 { IotaBag(n, p); }
  }

  lemma InitialOK(procs: seq<PCB>, executed: seq<seq<Instr>>, q: Queues, pages: nat)
    requires q == Queues(Iota(|procs|), [], [], [], []) && |executed| == |procs|
    requires forall p :: 0 <= p < |procs| ==> procs[p].count == ZERO
    requires forall p: nat :: p < |procs| ==>
      procs[p].memReq == [] && executed[p] == [] && PagesOf(procs[p].trace, pages)
    ensures Partition(|procs|, q) && ProcsOK(procs, executed, q, [], ZERO, pages, 0)
  {
    hide PagesOf, Sum;
    InitialPlaces(|procs|, q);
    FreshSum(procs);
    forall r: nat | r < |procs| ensures Progress(procs[r], executed[r], r, q, pages, 0) {
      assert q.waiting[r] == r;
    }
  }

  /** When nobody waits, is ready, runs or is blocked, every process has run its whole trace. */
  lemma AllFinished(procs: seq<PCB>, executed: seq<seq<Instr>>, q: Queues, stats: seq<Stats>, total: Counters,
                    pages: nat, now: nat, p: nat)
    requires ProcsOK(procs, executed, q, stats, total, pages, now) && Partition(|procs|, q) && p < |procs|
    requires q.waiting == [] && q.ready == [] && q.blocked == [] && Front(q.running) == Nobody
    ensures |executed| == |procs| && executed[p] == procs[p].trace && p in Ids(stats)
  {
    Exclusive(|procs|, q, p);
    assert Progress(procs[p], executed[p], p, q, pages, now);
  }

  /** The accesses that were executed, of all processes together. */
  function AllAccesses(executed: seq<seq<Instr>>): nat
  {
    if executed == [] then 0 else Accesses(executed[0]) + AllAccesses(executed[1..])
  }

  lemma {:induction false} AccessesSum(procs: seq<PCB>, executed: seq<seq<Instr>>)
    requires |executed| == |procs|
    requires forall p :: 0 <= p < |procs| ==> Accesses(executed[p]) <= procs[p].count.tlbHits + procs[p].count.hits
    ensures AllAccesses(executed) <= Sum(procs).tlbHits + Sum(procs).hits
  {
    if procs != [] { AccessesSum(procs[1..], executed[1..]); }
  }

  /** No access is executed but through the TLB or a walk that found its page. */
  lemma AccessesCounted(procs: seq<PCB>, executed: seq<seq<Instr>>, q: Queues, stats: seq<Stats>, total: Counters,
                        pages: nat, now: nat)
    requires ProcsOK(procs, executed, q, stats, total, pages, now)
    ensures AllAccesses(executed) <= total.tlbHits + total.hits && |executed| == |procs|
    ensures forall p: nat :: p < |procs| ==> Accesses(executed[p]) <= procs[p].count.tlbHits + procs[p].count.hits
  {
    forall p: nat | p < |procs| ensures Accesses(executed[p]) <= procs[p].count.tlbHits + procs[p].count.hits {
      assert Progress(procs[p], executed[p], p, q, pages, now);
    }
    AccessesSum(procs, executed);
  }

  /** A process is finished only when its whole trace was executed. */
  lemma FinishedRanAll(procs: seq<PCB>, executed: seq<seq<Instr>>, q: Queues, stats: seq<Stats>, total: Counters,
                       pages: nat, now: nat, p: nat)
    requires ProcsOK(procs, executed, q, stats, total, pages, now) && Partition(|procs|, q)
    requires p < |procs| && p in q.finished
    ensures |executed| == |procs| && executed[p] == procs[p].trace
  {
    Exclusive(|procs|, q, p);
    assert p in multiset(q.finished);
    assert Progress(procs[p], executed[p], p, q, pages, now);
  }
}
