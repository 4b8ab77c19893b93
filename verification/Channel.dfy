/**
 * The channel protocol as a machine over steps. A critical section is one step, because everything
 * between lock and unlock (or the wait that releases the lock) runs under chmutex; the signals that
 * follow the unlock are steps of their own, so any interleaving can come between.
 */
module Channel {
  import opened Bits
  import opened Messages

  /** Where a thread stands. Senders wait on chconrec, receivers on chconsend. */
  datatype PC =
    | Idle                        // has made no call yet
    | SendLock(m: Message)        // buffer_send, before the lock
    | SendWait(m: Message)        // asleep on chconrec
    | SendWoken(m: Message)       // woken, has still to get the lock back
    | SendSignal                  // unlocked; chconsend to signal
    | ReceiveLock
    | ReceiveWait                 // asleep on chconsend
    | ReceiveWoken
    | ReceiveSignal(data: seq<Byte>) // unlocked; chconrec to signal
    | CloseLock
    | CloseSignals(status: Status)   // unlocked; chconrec, then chconsend to signal
    | CloseSignal(status: Status)    // unlocked; chconsend to signal
    | Done(status: Status)

  datatype State = State(
    ch: Chan,
    pcs: seq<PC>,
    accepted: seq<Message>,   // every message put on the ring, in lock order
    received: seq<Message>)   // every message taken off, in lock order

  datatype Step =
    | CallSend(t: nat, m: Message)
    | CallReceive(t: nat)
    | CallClose(t: nat)
    | Section(t: nat)          // a critical section
    | Signal(t: nat, w: nat)   // pthread_cond_signal that wakes w
    | SignalNobody(t: nat)     // pthread_cond_signal with nobody waiting
    | Spurious(w: nat)         // pthread_cond_wait returns on its own

  ghost predicate Start(s: State)
  {
    && s.ch.size >= 1 && s.ch.isopen && s.ch.queue == [] && s.accepted == [] && s.received == []
    && forall t :: 0 <= t < |s.pcs| ==> s.pcs[t] == Idle
  }

  predicate CanCall(pc: PC) { pc.Idle? || pc.Done? }

  predicate AtSection(pc: PC)
  {
    pc.SendLock? || pc.SendWoken? || pc.ReceiveLock? || pc.ReceiveWoken? || pc.CloseLock?
  }

  predicate AtSignal(pc: PC)
  {
    pc.SendSignal? || pc.ReceiveSignal? || pc.CloseSignals? || pc.CloseSignal?
  }

  predicate Waiting(pc: PC) { pc.SendWait? || pc.ReceiveWait? }

  predicate Sends(pc: PC) { pc.SendLock? || pc.SendWait? || pc.SendWoken? }

  /** Whether the next signal of a thread at `pc` goes to the condition that `w` waits on. */
  predicate Reaches(pc: PC, w: PC)
    requires AtSignal(pc)
  {
    if pc.ReceiveSignal? || pc.CloseSignals? then w.SendWait? else w.ReceiveWait?
  }

  predicate Enabled(s: State, a: Step)
  {
    match a
    case CallSend(t, _) => t < |s.pcs| && CanCall(s.pcs[t])
    case CallReceive(t) => t < |s.pcs| && CanCall(s.pcs[t])
    case CallClose(t) => t < |s.pcs| && CanCall(s.pcs[t])
    case Section(t) => t < |s.pcs| && AtSection(s.pcs[t])
    case Signal(t, w) =>
      && t < |s.pcs| && AtSignal(s.pcs[t])
      && w < |s.pcs| && Reaches(s.pcs[t], s.pcs[w])
    case SignalNobody(t) =>
      && t < |s.pcs| && AtSignal(s.pcs[t])
      && forall w :: 0 <= w < |s.pcs| ==> !Reaches(s.pcs[t], s.pcs[w])
    case Spurious(w) => w < |s.pcs| && Waiting(s.pcs[w])
  }

  /** The critical section that a thread at `pc` runs once it holds the lock. */
  function Enter(ch: Chan, pc: PC): (Chan, Outcome)
    requires AtSection(pc)
  {
    match pc
    case SendLock(m) => SendEnter(ch, m)
    case SendWoken(m) => SendResume(ch, m)
    case ReceiveLock => ReceiveEnter(ch)
    case ReceiveWoken => ReceiveResume(ch)
    case CloseLock => CloseSection(ch)
  }

  function AfterSection(pc: PC, o: Outcome): PC
  {
    match o
    case Returned(status) => Done(status)
    case Sleeps => if pc.SendLock? || pc.SendWoken? then SendWait(pc.m) else ReceiveWait
    case SignalsBoth(status) => CloseSignals(status)
    case Sent => SendSignal
    case Received(data) => ReceiveSignal(data)
  }

  function AfterSignal(pc: PC): PC
    requires AtSignal(pc)
  {
    match pc
    case SendSignal => Done(Success)
    case ReceiveSignal(data) => Done(ReceiveStatus(data))
    case CloseSignals(status) => CloseSignal(status)
    case CloseSignal(status) => Done(status)
  }

  function Woken(pc: PC): PC
    requires Waiting(pc)
  {
    if pc.SendWait? then SendWoken(pc.m) else ReceiveWoken
  }

  function Apply(s: State, a: Step): State
    requires Enabled(s, a)
  {
    match a
    case CallSend(t, m) => s.(pcs := s.pcs[t := SendLock(m)])
    case CallReceive(t) => s.(pcs := s.pcs[t := ReceiveLock])
    case CallClose(t) => s.(pcs := s.pcs[t := CloseLock])
    case Section(t) =>
      var (ch, o) := Enter(s.ch, s.pcs[t]);
      State(ch, s.pcs[t := AfterSection(s.pcs[t], o)],
            if o.Sent? && Sends(s.pcs[t]) then s.accepted + [s.pcs[t].m] else s.accepted,
            if o.Received? && |s.ch.queue| > 0 then s.received + [s.ch.queue[0]] else s.received)
    case Signal(t, w) => s.(pcs := s.pcs[t := AfterSignal(s.pcs[t])][w := Woken(s.pcs[w])])
    case SignalNobody(t) => s.(pcs := s.pcs[t := AfterSignal(s.pcs[t])])
    case Spurious(w) => s.(pcs := s.pcs[w := Woken(s.pcs[w])])
  }

  /** `steps` can be taken from `s`, one after the other, and end in `z`. */
  predicate Run(s: State, steps: seq<Step>, z: State)
    decreases |steps|
  {
    if steps == [] then s == z
    else Enabled(s, steps[0]) && Run(Apply(s, steps[0]), steps[1..], z)
  }

  // ---------- counting threads ----------

  function Sum(pcs: seq<PC>, f: PC -> nat): nat
  {
    if pcs == [] then 0 else f(pcs[0]) + Sum(pcs[1..], f)
  }

  lemma {:induction false} SumUpdate(pcs: seq<PC>, t: nat, pc: PC, f: PC -> nat)
    requires t < |pcs|
    ensures Sum(pcs[t := pc], f) == Sum(pcs, f) - f(pcs[t]) + f(pc)
  {
    if t == 0 {
      assert pcs[t := pc][1..] == pcs[1..];
    } else {
      assert pcs[t := pc][1..] == pcs[1..][t - 1 := pc];
      SumUpdate(pcs[1..], t - 1, pc, f);
    }
  }

  lemma {:induction false} SumAtLeast(pcs: seq<PC>, t: nat, f: PC -> nat)
    requires t < |pcs|
    ensures f(pcs[t]) <= Sum(pcs, f)
  {
    if t > 0 { SumAtLeast(pcs[1..], t - 1, f); }
  }

  lemma {:induction false} SumWitness(pcs: seq<PC>, f: PC -> nat) returns (t: nat)
    requires Sum(pcs, f) > 0
    ensures t < |pcs| && f(pcs[t]) > 0
  {
    if f(pcs[0]) > 0 {
      t := 0;
    } else {
      var k := SumWitness(pcs[1..], f);
      t := k + 1;
    }
  }

  /** What one step does to a sum over the threads. */
  lemma SumStep(s: State, a: Step, f: PC -> nat)
    requires Enabled(s, a)
    ensures var z := Apply(s, a); |z.pcs| == |s.pcs| && Sum(z.pcs, f) == Sum(s.pcs, f) + Change(s, a, f)
  {
    var t := if a.Spurious? then a.w else a.t;
    var z := Apply(s, a);
    if a.Signal? {
      SumUpdate(s.pcs, t, AfterSignal(s.pcs[t]), f);
      SumUpdate(s.pcs[t := AfterSignal(s.pcs[t])], a.w, Woken(s.pcs[a.w]), f);
    } else {
      SumUpdate(s.pcs, t, z.pcs[t], f);
    }
  }

  function Change(s: State, a: Step, f: PC -> nat): int
    requires Enabled(s, a)
  {
    match a
    case CallSend(t, m) => f(SendLock(m)) - f(s.pcs[t])
    case CallReceive(t) => f(ReceiveLock) - f(s.pcs[t])
    case CallClose(t) => f(CloseLock) - f(s.pcs[t])
    case Section(t) => f(AfterSection(s.pcs[t], Enter(s.ch, s.pcs[t]).1)) - f(s.pcs[t])
    case Signal(t, w) => f(AfterSignal(s.pcs[t])) - f(s.pcs[t]) + f(Woken(s.pcs[w])) - f(s.pcs[w])
    case SignalNobody(t) => f(AfterSignal(s.pcs[t])) - f(s.pcs[t])
    case Spurious(w) => f(Woken(s.pcs[w])) - f(s.pcs[w])
  }

  /** Nobody is left for a signal that wakes nobody. */
  lemma NobodyWaits(s: State, t: nat, f: PC -> nat)
    requires Enabled(s, SignalNobody(t))
    requires forall pc :: f(pc) > 0 ==> Reaches(s.pcs[t], pc)
    ensures Sum(s.pcs, f) == 0
  {
    if Sum(s.pcs, f) > 0 {
      var w := SumWitness(s.pcs, f);
      assert false;
    }
  }

  function WaitingSenders(pc: PC): nat { if pc.SendWait? then 1 else 0 }
  function WaitingReceivers(pc: PC): nat { if pc.ReceiveWait? then 1 else 0 }

  /** Threads through which a receiver is going to look at the queue. */
  function ReceiverHope(pc: PC): nat { if pc.ReceiveWoken? || pc.SendSignal? then 1 else 0 }

  /** Threads through which a sender is going to look at the room. */
  function SenderHope(pc: PC): nat { if pc.SendWoken? || pc.ReceiveSignal? then 1 else 0 }

  /** After the close: threads that will signal chconrec, and threads that will signal chconsend. */
  function SignalsSenders(pc: PC): nat
  {
    if pc.ReceiveSignal? || pc.CloseSignals? || pc.SendWoken? || pc.ReceiveWoken? then 1 else 0
  }

  function SignalsReceivers(pc: PC): nat
  {
    if pc.SendSignal? || pc.CloseSignals? || pc.CloseSignal? || pc.SendWoken? || pc.ReceiveWoken? then 1 else 0
  }

  // ---------- what every step keeps ----------

  /** Messages leave in the order they came, nothing is lost, and the ring is never overrun. */
  ghost predicate InOrder(s: State)
  {
    && s.accepted == s.received + s.ch.queue && Used(s.ch.queue) < s.ch.size
    && forall i :: 0 <= i < |s.accepted| ==> MsgSize(s.accepted[i]) < s.ch.size
  }

  /** No receiver's wakeup is lost while the channel is open. */
  ghost predicate ReceiversHeard(s: State)
  {
    s.ch.isopen && Sum(s.pcs, WaitingReceivers) > 0 ==> |s.ch.queue| <= Sum(s.pcs, ReceiverHope)
  }

  /** No sender's wakeup is lost while the channel is open and empty. */
  ghost predicate SendersHeard(s: State)
  {
    s.ch.isopen && s.ch.queue == [] && Sum(s.pcs, WaitingSenders) > 0 ==> Sum(s.pcs, SenderHope) > 0
  }

  /** After the close every waiting thread is going to be signalled. */
  ghost predicate Drains(s: State)
  {
    !s.ch.isopen ==>
      && (Sum(s.pcs, WaitingSenders) > 0 ==> Sum(s.pcs, SignalsSenders) > 0)
      && (Sum(s.pcs, WaitingReceivers) > 0 ==> Sum(s.pcs, SignalsReceivers) > 0)
  }

  /** A thread hears of a close only when there was one. */
  ghost predicate NoFalseAlarm(s: State)
  {
    s.ch.isopen ==> forall t :: 0 <= t < |s.pcs| ==>
      !s.pcs[t].CloseSignals? && !s.pcs[t].CloseSignal? && s.pcs[t] != Done(ClosedError)
  }

  /** Every message being sent fits into an empty ring. */
  ghost predicate AllFit(s: State)
  {
    forall t :: 0 <= t < |s.pcs| ==> Sends(s.pcs[t]) ==> MsgSize(s.pcs[t].m) < s.ch.size
  }

  lemma InOrderStep(s: State, a: Step)
    requires InOrder(s) && Enabled(s, a)
    ensures InOrder(Apply(s, a))
  {
    if a.Section? && s.pcs[a.t] != CloseLock {
      if Sends(s.pcs[a.t]) { InOrderSend(s, a.t); } else { InOrderReceive(s, a.t); }
    }
  }

  lemma InOrderSend(s: State, t: nat)
    requires InOrder(s) && Enabled(s, Section(t)) && Sends(s.pcs[t])
    ensures InOrder(Apply(s, Section(t)))
  {
    UsedAppend(s.ch.queue, s.pcs[t].m);
    assert s.received + (s.ch.queue + [s.pcs[t].m]) == s.accepted + [s.pcs[t].m];
  }

  lemma InOrderReceive(s: State, t: nat)
    requires InOrder(s) && Enabled(s, Section(t)) && (s.pcs[t].ReceiveLock? || s.pcs[t].ReceiveWoken?)
    ensures InOrder(Apply(s, Section(t)))
  {
    var q := s.ch.queue;
    if q != [] { assert s.received + [q[0]] + q[1..] == s.received + q; }
  }

  lemma ReceiversHeardStep(s: State, a: Step)
    requires ReceiversHeard(s) && Enabled(s, a)
    ensures ReceiversHeard(Apply(s, a))
  {
    SumStep(s, a, WaitingReceivers);
    SumStep(s, a, ReceiverHope);
    if a.SignalNobody? && s.pcs[a.t].SendSignal? {
      NobodyWaits(s, a.t, WaitingReceivers);
    } else if a.Section? {
      SumAtLeast(s.pcs, a.t, ReceiverHope);
      EmptyIsAvail(s.ch);
    }
  }

  lemma SendersHeardStep(s: State, a: Step)
    requires SendersHeard(s) && AllFit(s) && Enabled(s, a)
    ensures SendersHeard(Apply(s, a))
  {
    SumStep(s, a, WaitingSenders);
    SumStep(s, a, SenderHope);
    if a.SignalNobody? && s.pcs[a.t].ReceiveSignal? {
      NobodyWaits(s, a.t, WaitingSenders);
    } else if a.Signal? {
      SumAtLeast(s.pcs, a.w, WaitingSenders);
    }
  }

  /** The test of buffer_receive is a test for an empty queue. */
  lemma EmptyIsAvail(c: Chan)
    ensures Avail(c) >= c.size <==> c.queue == []
  {
  }

  lemma DrainsStep(s: State, a: Step)
    requires Drains(s) && Enabled(s, a)
    ensures Drains(Apply(s, a))
  {
    if !Apply(s, a).ch.isopen {
      DrainsSendersStep(s, a);
      DrainsReceiversStep(s, a);
    }
  }

  lemma DrainsSendersStep(s: State, a: Step)
    requires Drains(s) && Enabled(s, a) && !Apply(s, a).ch.isopen
    ensures Sum(Apply(s, a).pcs, WaitingSenders) > 0 ==> Sum(Apply(s, a).pcs, SignalsSenders) > 0
  {
    SumStep(s, a, WaitingSenders);
    SumStep(s, a, SignalsSenders);
    if a.SignalNobody? && (s.pcs[a.t].ReceiveSignal? || s.pcs[a.t].CloseSignals?) {
      NobodyWaits(s, a.t, WaitingSenders);
    } else if a.Section? {
      SumAtLeast(Apply(s, a).pcs, a.t, SignalsSenders);
    }
  }

  lemma DrainsReceiversStep(s: State, a: Step)
    requires Drains(s) && Enabled(s, a) && !Apply(s, a).ch.isopen
    ensures Sum(Apply(s, a).pcs, WaitingReceivers) > 0 ==> Sum(Apply(s, a).pcs, SignalsReceivers) > 0
  {
    SumStep(s, a, WaitingReceivers);
    SumStep(s, a, SignalsReceivers);
    if a.SignalNobody? && (s.pcs[a.t].SendSignal? || s.pcs[a.t].CloseSignal?) {
      NobodyWaits(s, a.t, WaitingReceivers);
    } else if a.Section? {
      SumAtLeast(Apply(s, a).pcs, a.t, SignalsReceivers);
    }
  }

  lemma NoFalseAlarmStep(s: State, a: Step)
    requires NoFalseAlarm(s) && Enabled(s, a)
    ensures NoFalseAlarm(Apply(s, a))
  {
  }

  /** What no step can break, whatever the sizes. */
  ghost predicate Safe(s: State)
  {
    InOrder(s) && ReceiversHeard(s) && Drains(s) && NoFalseAlarm(s)
  }

  lemma {:induction false} StartSums(pcs: seq<PC>, f: PC -> nat)
    requires forall t :: 0 <= t < |pcs| ==> pcs[t] == Idle
    requires f(Idle) == 0
    ensures Sum(pcs, f) == 0
  {
    if pcs != [] { StartSums(pcs[1..], f); }
  }

  lemma StartIsSafe(s: State)
    requires Start(s)
    ensures Safe(s) && SendersHeard(s) && AllFit(s)
  {
    StartSums(s.pcs, WaitingSenders);
    StartSums(s.pcs, WaitingReceivers);
  }

  lemma {:induction false} SafeRun(s: State, steps: seq<Step>, z: State)
    requires Safe(s) && Run(s, steps, z)
    ensures Safe(z)
    decreases |steps|
  {
    if steps != [] {
      SafeStep(s, steps[0]);
      SafeRun(Apply(s, steps[0]), steps[1..], z);
    }
  }

  /** In every run the received messages are a prefix of the accepted ones, in lock order. */
  lemma ReceivedInOrder(s: State, steps: seq<Step>, z: State)
    requires Start(s) && Run(s, steps, z)
    ensures z.received <= z.accepted && z.ch.queue == z.accepted[|z.received|..]
    ensures Used(z.ch.queue) < z.ch.size
  {
    hide Run, Start;
    StartIsSafe(s);
    SafeRun(s, steps, z);
  }

  lemma SafeStep(s: State, a: Step)
    requires Safe(s) && Enabled(s, a)
    ensures Safe(Apply(s, a))
  {
    hide *;
    ShowSafe(s);
    InOrderStep(s, a);
    ReceiversHeardStep(s, a);
    DrainsStep(s, a);
    NoFalseAlarmStep(s, a);
    MakeSafe(Apply(s, a));
  }

  lemma ShowSafe(s: State)
    requires Safe(s)
    ensures InOrder(s) && ReceiversHeard(s) && Drains(s) && NoFalseAlarm(s)
  {
  }

  lemma MakeSafe(s: State)
    requires InOrder(s) && ReceiversHeard(s) && Drains(s) && NoFalseAlarm(s)
    ensures Safe(s)
  {
  }

  // ---------- the channel is open: no standoff ----------

  /** Nobody holds or awaits the lock, and no signal is pending. */
  ghost predicate Quiescent(s: State)
  {
    forall t :: 0 <= t < |s.pcs| ==> !AtSection(s.pcs[t]) && !AtSignal(s.pcs[t])
  }

  ghost predicate SenderWaits(s: State)
  {
    exists t :: 0 <= t < |s.pcs| && s.pcs[t].SendWait?
  }

  ghost predicate ReceiverWaits(s: State)
  {
    exists t :: 0 <= t < |s.pcs| && s.pcs[t].ReceiveWait?
  }

  /** Every message that the run is asked to send has a framed size with property `p`. */
  ghost predicate Asked(steps: seq<Step>, p: nat -> bool)
  {
    forall i :: 0 <= i < |steps| ==> steps[i].CallSend? ==> p(MsgSize(steps[i].m))
  }

  lemma {:induction false} SizesStay(s: State, steps: seq<Step>, z: State)
    requires Run(s, steps, z)
    ensures z.ch.size == s.ch.size && |z.pcs| == |s.pcs|
    decreases |steps|
  {
    if steps != [] { SizesStay(Apply(s, steps[0]), steps[1..], z); }
  }

  lemma {:induction false} SendersHeardRun(s: State, steps: seq<Step>, z: State)
    requires SendersHeard(s) && AllFit(s) && Run(s, steps, z) && Asked(steps, k => k < s.ch.size)
    ensures SendersHeard(z) && AllFit(z)
    decreases |steps|
  {
    if steps != [] {
      SendersHeardStep(s, steps[0]);
      AllFitStep(s, steps[0]);
      SendersHeardRun(Apply(s, steps[0]), steps[1..], z);
    }
  }

  lemma AllFitStep(s: State, a: Step)
    requires AllFit(s) && Enabled(s, a) && (a.CallSend? ==> MsgSize(a.m) < s.ch.size)
    ensures AllFit(Apply(s, a)) && Apply(s, a).ch.size == s.ch.size
  {
  }

  lemma QuiescentSums(s: State, f: PC -> nat)
    requires Quiescent(s)
    requires forall pc :: f(pc) > 0 ==> AtSection(pc) || AtSignal(pc)
    ensures Sum(s.pcs, f) == 0
  {
    if Sum(s.pcs, f) > 0 {
      var t := SumWitness(s.pcs, f);
      assert false;
    }
  }

  /**
   * Without a close, threads that wait with nobody able to move wait for a reason: receivers for a
   * message, senders for room. So when every message fits into an empty ring, senders and receivers
   * are never stuck together.
   */
  lemma NoStandoff(s: State, steps: seq<Step>, z: State)
    requires Start(s) && Run(s, steps, z) && Quiescent(z) && z.ch.isopen
    ensures ReceiverWaits(z) ==> z.ch.queue == []
    ensures Asked(steps, k => k < s.ch.size) && SenderWaits(z) ==> z.ch.queue != []
    ensures Asked(steps, k => k < s.ch.size) ==> !(SenderWaits(z) && ReceiverWaits(z))
  {
    hide Safe, Run, Start, Sum;
    StartIsSafe(s);
    SafeRun(s, steps, z);
    ShowSafe(z);
    if ReceiverWaits(z) {
      var t :| 0 <= t < |z.pcs| && z.pcs[t].ReceiveWait?;
      SumAtLeast(z.pcs, t, WaitingReceivers);
      QuiescentSums(z, ReceiverHope);
    }
    if Asked(steps, k => k < s.ch.size) && SenderWaits(z) {
      var t :| 0 <= t < |z.pcs| && z.pcs[t].SendWait?;
      SumAtLeast(z.pcs, t, WaitingSenders);
      SendersHeardRun(s, steps, z);
      QuiescentSums(z, SenderHope);
    }
  }

  /** The run sends no other messages than these. */
  ghost predicate OnlyOf(steps: seq<Step>, ms: iset<Message>)
  {
    forall i :: 0 <= i < |steps| ==> steps[i].CallSend? ==> steps[i].m in ms
  }

  /** Reachable by a run that sends only messages of ms. */
  ghost predicate Reachable(ms: iset<Message>, z: State)
  {
    exists s, steps :: Start(s) && OnlyOf(steps, ms) && Run(s, steps, z)
  }

  lemma {:induction false} RunOn(s: State, steps: seq<Step>, y: State, a: Step)
    requires Run(s, steps, y) && Enabled(y, a)
    ensures Run(s, steps + [a], Apply(y, a))
    decreases |steps|
  {
    if steps == [] {
      assert Run(Apply(y, a), [], Apply(y, a));
    } else {
      RunOn(Apply(s, steps[0]), steps[1..], y, a);
      assert (steps + [a])[1..] == steps[1..] + [a];
    }
  }

  lemma ReachOn(ms: iset<Message>, y: State, a: Step)
    requires Reachable(ms, y) && Enabled(y, a) && (a.CallSend? ==> a.m in ms)
    ensures Reachable(ms, Apply(y, a))
  {
    var s, steps :| Start(s) && OnlyOf(steps, ms) && Run(s, steps, y);
    RunOn(s, steps, y, a);
    assert OnlyOf(steps + [a], ms);
  }

  lemma ReachStart(ms: iset<Message>, z: State)
    requires Start(z)
    ensures Reachable(ms, z)
  {
    assert OnlyOf([], ms) && Run(z, [], z);
  }

  /** A send from an idle thread, up to the end of its first critical section. */
  lemma ReachSend(ms: iset<Message>, y: State, t: nat, m: Message) returns (z: State)
    requires Reachable(ms, y) && y.ch.isopen && t < |y.pcs| && CanCall(y.pcs[t]) && m in ms
    ensures Reachable(ms, z)
    ensures Avail(y.ch) <= MsgSize(m) ==> z == y.(pcs := y.pcs[t := SendWait(m)])
    ensures Avail(y.ch) > MsgSize(m) ==>
      z == State(y.ch.(queue := y.ch.queue + [m]), y.pcs[t := SendSignal], y.accepted + [m], y.received)
  {
    hide Reachable;
    ReachOn(ms, y, CallSend(t, m));
    z := Apply(y, CallSend(t, m));
    ReachOn(ms, z, Section(t));
    z := Apply(z, Section(t));
    assert y.pcs[t := SendLock(m)][t := z.pcs[t]] == y.pcs[t := z.pcs[t]];
  }

  /** A whole send, when there is room and nobody waits for the message. */
  lemma ReachSent(ms: iset<Message>, y: State, t: nat, m: Message) returns (z: State)
    requires Reachable(ms, y) && y.ch.isopen && t < |y.pcs| && CanCall(y.pcs[t]) && m in ms
    requires Avail(y.ch) > MsgSize(m) && forall w :: 0 <= w < |y.pcs| ==> !y.pcs[w].ReceiveWait?
    ensures Reachable(ms, z)
    ensures z == State(y.ch.(queue := y.ch.queue + [m]), y.pcs[t := Done(Success)], y.accepted + [m], y.received)
  {
    hide Reachable;
    z := ReachSend(ms, y, t, m);
    ReachOn(ms, z, SignalNobody(t));
    z := Apply(z, SignalNobody(t));
    assert y.pcs[t := SendSignal][t := Done(Success)] == y.pcs[t := Done(Success)];
  }

  /** A receive, in the same way. */
  lemma ReachReceive(ms: iset<Message>, y: State, t: nat) returns (z: State)
    requires Reachable(ms, y) && y.ch.isopen && t < |y.pcs| && CanCall(y.pcs[t])
    ensures Reachable(ms, z)
    ensures y.ch.queue == [] ==> z == y.(pcs := y.pcs[t := ReceiveWait])
    ensures y.ch.queue != [] ==>
      z == State(y.ch.(queue := y.ch.queue[1..]), y.pcs[t := ReceiveSignal(y.ch.queue[0] + [0])],
                 y.accepted, y.received + [y.ch.queue[0]])
  {
    hide Reachable;
    ReachOn(ms, y, CallReceive(t));
    z := Apply(y, CallReceive(t));
    ReachOn(ms, z, Section(t));
    z := Apply(z, Section(t));
    assert y.pcs[t := ReceiveLock][t := z.pcs[t]] == y.pcs[t := z.pcs[t]];
  }

  /** The size condition of NoStandoff is needed: one message that cannot fit gives a standoff. */
  lemma StandoffWhenTooBig(size: nat, m: Message) returns (z: State)
    requires 1 <= size <= MsgSize(m)
    ensures Standoff(size, iset{m}, z)
  {
    z := State(Chan(size, true, []), [Idle, Idle], [], []);
    ReachStart(iset{m}, z);
    z := ReachSend(iset{m}, z, 0, m);
    z := ReachReceive(iset{m}, z, 1);
    assert z.pcs[0] == SendWait(m) && z.pcs[1] == ReceiveWait;
  }

  /** Senders and receivers wait together, and nobody can move. */
  ghost predicate Standoff(size: nat, ms: iset<Message>, z: State)
  {
    && Reachable(ms, z) && z.ch.size == size && z.ch.isopen && Quiescent(z)
    && SenderWaits(z) && ReceiverWaits(z)
  }

  lemma ReachableMore(ms: iset<Message>, more: iset<Message>, z: State)
    requires Reachable(ms, z) && ms <= more
    ensures Reachable(more, z)
  {
    var s, steps :| Start(s) && OnlyOf(steps, ms) && Run(s, steps, z);
    assert OnlyOf(steps, more);
  }

  /** On a ring of this size messages of ms can lead to a standoff exactly when one of them does not fit. */
  lemma StandoffExactlyWhenTooBig(size: nat, ms: iset<Message>)
    requires size >= 1
    ensures (exists z :: Standoff(size, ms, z)) <==> (exists m :: m in ms && MsgSize(m) >= size)
  {
    if m :| m in ms && MsgSize(m) >= size {
      var z := StandoffWhenTooBig(size, m);
      ReachableMore(iset{m}, ms, z);
      assert Standoff(size, ms, z);
    } else if z :| Standoff(size, ms, z) {
      var s, steps :| Start(s) && OnlyOf(steps, ms) && Run(s, steps, z);
      hide Run;
      SizesStay(s, steps, z);
      assert Asked(steps, k => k < s.ch.size);
      NoStandoff(s, steps, z);
    }
  }

  /** And that sender is never served: until a close its call cannot return. */
  lemma {:induction false} TooBigNeverSent(s: State, steps: seq<Step>, z: State, t: nat)
    requires Run(s, steps, z) && z.ch.isopen && t < |s.pcs|
    requires Sends(s.pcs[t]) && MsgSize(s.pcs[t].m) >= s.ch.size
    ensures t < |z.pcs| && Sends(z.pcs[t]) && z.pcs[t].m == s.pcs[t].m
    decreases |steps|
  {
    if steps != [] {
      OpenBefore(Apply(s, steps[0]), steps[1..], z);
      TooBigNeverSent(Apply(s, steps[0]), steps[1..], z, t);
    }
  }

  /** A closed channel is never opened again. */
  lemma {:induction false} OpenBefore(s: State, steps: seq<Step>, z: State)
    requires Run(s, steps, z) && z.ch.isopen
    ensures s.ch.isopen
    decreases |steps|
  {
    if steps != [] { OpenBefore(Apply(s, steps[0]), steps[1..], z); }
  }

  // ---------- the channel is closed: it drains ----------

  /** After a close nobody starts to wait. */
  lemma NobodyStartsWaiting(s: State, a: Step, t: nat)
    requires !s.ch.isopen && Enabled(s, a) && t < |s.pcs| && Waiting(Apply(s, a).pcs[t])
    ensures s.pcs[t] == Apply(s, a).pcs[t]
  {
  }

  /** What is left for a thread to do once the channel is closed. */
  function Weight(pc: PC): nat
  {
    match pc
    case Idle | Done(_) => 0
    case SendLock(_) | ReceiveLock | SendSignal | ReceiveSignal(_) => 1
    case CloseSignal(_) => 2
    case CloseSignals(_) => 3
    case CloseLock | SendWoken(_) | ReceiveWoken => 4
    case SendWait(_) | ReceiveWait => 5
  }

  predicate IsCall(a: Step) { a.CallSend? || a.CallReceive? || a.CallClose? }

  function Calls(steps: seq<Step>): nat
  {
    if steps == [] then 0 else (if IsCall(steps[0]) then 1 else 0) + Calls(steps[1..])
  }

  lemma ClosedStep(s: State, a: Step)
    requires !s.ch.isopen && Enabled(s, a)
    ensures !Apply(s, a).ch.isopen
    ensures Sum(Apply(s, a).pcs, Weight) + 1 <= Sum(s.pcs, Weight) + if IsCall(a) then 5 else 0
  {
    hide Sum, Enter, AfterSection, Weight;
    SumStep(s, a, Weight);
    if a.Section? { ClosedSection(s.ch, s.pcs[a.t]); } else { ClosedChange(s, a); }
  }

  /** A critical section on a closed channel leaves it closed, and the thread with less to do. */
  lemma ClosedSection(c: Chan, pc: PC)
    requires !c.isopen && AtSection(pc)
    ensures !Enter(c, pc).0.isopen && Weight(AfterSection(pc, Enter(c, pc).1)) + 1 <= Weight(pc)
  {
  }

  lemma ClosedChange(s: State, a: Step)
    requires Enabled(s, a) && !a.Section?
    ensures Change(s, a, Weight) + 1 <= if IsCall(a) then 5 else 0
  {
  }

  /** After a close a run is bounded: by what was going on, and five steps for each new call. */
  lemma {:induction false} ClosedRunsEnd(s: State, steps: seq<Step>, z: State)
    requires !s.ch.isopen && Run(s, steps, z)
    ensures !z.ch.isopen
    ensures |steps| + Sum(z.pcs, Weight) <= Sum(s.pcs, Weight) + 5 * Calls(steps)
    decreases |steps|
  {
    if steps != [] {
      ClosedStep(s, steps[0]);
      ClosedRunsEnd(Apply(s, steps[0]), steps[1..], z);
    }
  }

  /** And while anybody waits, somebody can move without a new call or a spurious wakeup. */
  lemma ClosedCanMove(s: State) returns (a: Step)
    requires Safe(s) && !s.ch.isopen && (SenderWaits(s) || ReceiverWaits(s))
    ensures Enabled(s, a) && (a.Section? || a.Signal? || a.SignalNobody?)
  {
    var t: nat;
    if SenderWaits(s) {
      var w :| 0 <= w < |s.pcs| && s.pcs[w].SendWait?;
      SumAtLeast(s.pcs, w, WaitingSenders);
      t := SumWitness(s.pcs, SignalsSenders);
    } else {
      var w :| 0 <= w < |s.pcs| && s.pcs[w].ReceiveWait?;
      SumAtLeast(s.pcs, w, WaitingReceivers);
      t := SumWitness(s.pcs, SignalsReceivers);
    }
    if AtSection(s.pcs[t]) {
      a := Section(t);
    } else if w :| 0 <= w < |s.pcs| && Reaches(s.pcs[t], s.pcs[w]) {
      a := Signal(t, w);
    } else {
      a := SignalNobody(t);
    }
  }

  /** On its way out with CLOSED_ERROR. */
  predicate Leaving(pc: PC)
  {
    || Waiting(pc) || pc.SendWoken? || pc.ReceiveWoken?
    || pc == CloseSignals(ClosedError) || pc == CloseSignal(ClosedError) || pc == Done(ClosedError)
  }

  lemma {:induction false} LeavingRun(s: State, steps: seq<Step>, z: State, t: nat)
    requires !s.ch.isopen && Run(s, steps, z) && t < |s.pcs| && Leaving(s.pcs[t])
    requires forall i :: 0 <= i < |steps| ==> !(IsCall(steps[i]) && steps[i].t == t)
    ensures t < |z.pcs| && Leaving(z.pcs[t])
    decreases |steps|
  {
    if steps != [] {
      assert !(IsCall(steps[0]) && steps[0].t == t);
      LeavingRun(Apply(s, steps[0]), steps[1..], z, t);
    }
  }

  /** Close drains everyone: in every run, when nobody can move, who waited has CLOSED_ERROR. */
  lemma WaitersAreDrained(s: State, steps: seq<Step>, z: State, t: nat)
    requires Safe(s) && !s.ch.isopen && Run(s, steps, z) && t < |s.pcs| && Waiting(s.pcs[t])
    requires forall i :: 0 <= i < |steps| ==> !(IsCall(steps[i]) && steps[i].t == t)
    requires Quiescent(z)
    ensures t < |z.pcs| && z.pcs[t] == Done(ClosedError)
  {
    hide Safe, Run, Sum, Enabled, Apply, Drains;
    LeavingRun(s, steps, z, t);
    SafeRun(s, steps, z);
    ClosedRunsEnd(s, steps, z);
    if SenderWaits(z) || ReceiverWaits(z) {
      var a := ClosedCanMove(z);
      StuckMeansDone(z, a);
    }
  }

  lemma StuckMeansDone(s: State, a: Step)
    requires Quiescent(s) && Enabled(s, a)
    ensures !(a.Section? || a.Signal? || a.SignalNobody?)
  {
  }
}
