/**
 * What the calls return. A ledger goes along with a run: for every thread the call that it is in and what
 * this call has done to the channel, and for every call that ended its status and its data. The ledger is
 * written from what happens to the channel, the results come out of the threads; they agree in every run.
 */
module ChannelResults {
  import opened Bits
  import opened Messages
  import opened Channel

  datatype Call = NoCall | SendCall(m: Message) | ReceiveCall | CloseCall

  /** What a call has done under the lock. */
  datatype Effect =
    | Nothing
    | Put(i: nat)     // its message is the i-th accepted one
    | Took(i: nat)    // it took off the i-th received message
    | Shut(j: nat)    // it found j closes before it

  datatype Job = Job(call: Call, effect: Effect)

  /** How a call of thread t ended; `data` is what buffer_receive stores for its caller. */
  datatype Result = Result(t: nat, job: Job, status: Status, data: seq<Byte>)

  datatype Ledger = Ledger(s: State, jobs: seq<Job>, results: seq<Result>, closes: nat)

  ghost predicate Opened(r: Ledger)
  {
    && Start(r.s) && |r.jobs| == |r.s.pcs| && r.results == [] && r.closes == 0
    && forall t :: 0 <= t < |r.jobs| ==> r.jobs[t] == Job(NoCall, Nothing)
  }

  /** What thread t did in a critical section that led from s to z. */
  function EffectOf(s: State, z: State, t: nat, closes: nat, before: Effect): Effect
    requires t < |s.pcs|
  {
    if |z.accepted| > |s.accepted| then Put(|s.accepted|)
    else if |z.received| > |s.received| then Took(|s.received|)
    else if s.pcs[t].CloseLock? then Shut(closes)
    else before
  }

  /** The data in the hands of a thread. */
  function DataAt(pc: PC): seq<Byte>
  {
    if pc.ReceiveSignal? then pc.data else []
  }

  function JobsAfter(r: Ledger, a: Step): seq<Job>
    requires Enabled(r.s, a) && |r.jobs| == |r.s.pcs|
  {
    match a
    case CallSend(t, m) => r.jobs[t := Job(SendCall(m), Nothing)]
    case CallReceive(t) => r.jobs[t := Job(ReceiveCall, Nothing)]
    case CallClose(t) => r.jobs[t := Job(CloseCall, Nothing)]
    case Section(t) =>
      r.jobs[t := r.jobs[t].(effect := EffectOf(r.s, Apply(r.s, a), t, r.closes, r.jobs[t].effect))]
    case _ => r.jobs
  }

  /** The thread whose critical section or signal this is. */
  predicate Acts(a: Step) { a.Section? || a.Signal? || a.SignalNobody? }

  /** One step, entered into the ledger. */
  function Entered(r: Ledger, a: Step): (z: Ledger)
    requires Enabled(r.s, a) && |r.jobs| == |r.s.pcs|
    ensures z.s == Apply(r.s, a) && |z.jobs| == |z.s.pcs|
  {
    var s, jobs := Apply(r.s, a), JobsAfter(r, a);
    var results :=
      if Acts(a) && s.pcs[a.t].Done? then
        r.results + [Result(a.t, jobs[a.t], s.pcs[a.t].status, DataAt(r.s.pcs[a.t]))]
      else r.results;
    Ledger(s, jobs, results, if a.Section? && r.s.pcs[a.t].CloseLock? then r.closes + 1 else r.closes)
  }

  /** The ledger z after the steps. */
  predicate Kept(r: Ledger, steps: seq<Step>, z: Ledger)
    requires |r.jobs| == |r.s.pcs|
    decreases |steps|
  {
    if steps == [] then r == z
    else Enabled(r.s, steps[0]) && Kept(Entered(r, steps[0]), steps[1..], z)
  }

  /** A ledger can be kept of every run. */
  lemma {:induction false} EveryRunIsKept(r: Ledger, steps: seq<Step>, s: State) returns (z: Ledger)
    requires |r.jobs| == |r.s.pcs| && Run(r.s, steps, s)
    ensures Kept(r, steps, z) && z.s == s
    decreases |steps|
  {
    z := r;
    if steps != [] { z := EveryRunIsKept(Entered(r, steps[0]), steps[1..], s); }
  }

  // ---------- what the calls return ----------

  /** The text that buffer_receive answers with SPECIAL_MESSAGE. */
  const SPECIAL: Message := [115, 112, 108, 109, 115, 103]

  /** A result is right: it says what the call did. */
  ghost predicate Right(s: State, x: Result)
  {
    match x.job.call
    case NoCall => false
    case SendCall(m) =>
      && (x.status == Success <==> x.job.effect.Put?)
      && (x.status == ClosedError <==> x.job.effect == Nothing)
      && (x.status == Success ==> x.job.effect.i < |s.accepted| && s.accepted[x.job.effect.i] == m)
      && (x.status == Success || (x.status == ClosedError && !s.ch.isopen))
    case ReceiveCall =>
      && (x.status == ClosedError <==> x.job.effect == Nothing)
      && (x.status == ClosedError ==> !s.ch.isopen && x.data == [])
      && (x.status != ClosedError ==>
            && x.job.effect.Took? && x.job.effect.i < |s.received|
            && x.data == s.received[x.job.effect.i] + [0]
            && x.status == if s.received[x.job.effect.i] == SPECIAL then SpecialMessage else Success)
    case CloseCall =>
      x.job.effect.Shut? && x.status == if x.job.effect.j == 0 then Success else ClosedError
  }

  /** Where a thread stands, its call and what the call did fit together. */
  ghost predicate InStep(s: State, pc: PC, job: Job)
  {
    match pc
    case Idle => job == Job(NoCall, Nothing)
    case SendLock(m) => job == Job(SendCall(m), Nothing)
    case SendWait(m) => job == Job(SendCall(m), Nothing)
    case SendWoken(m) => job == Job(SendCall(m), Nothing)
    case SendSignal =>
      && job.call.SendCall? && job.effect.Put?
      && job.effect.i < |s.accepted| && s.accepted[job.effect.i] == job.call.m
    case ReceiveLock => job == Job(ReceiveCall, Nothing)
    case ReceiveWait => job == Job(ReceiveCall, Nothing)
    case ReceiveWoken => job == Job(ReceiveCall, Nothing)
    case ReceiveSignal(data) =>
      && job.call.ReceiveCall? && job.effect.Took?
      && job.effect.i < |s.received| && data == s.received[job.effect.i] + [0]
    case CloseLock => job == Job(CloseCall, Nothing)
    case CloseSignals(status) => Leaves(s, job, status)
    case CloseSignal(status) => Leaves(s, job, status)
    case Done(_) => true
  }

  /** On the way out through both signals. */
  ghost predicate Leaves(s: State, job: Job, status: Status)
  {
    if job.call.CloseCall? then job.effect.Shut? && status == if job.effect.j == 0 then Success else ClosedError
    else (job.call.SendCall? || job.call.ReceiveCall?) && job.effect == Nothing && status == ClosedError && !s.ch.isopen
  }

  ghost predicate Agrees(z: Ledger)
  {
    && |z.jobs| == |z.s.pcs|
    && (z.s.ch.isopen <==> z.closes == 0)
    && (forall t :: 0 <= t < |z.jobs| ==> InStep(z.s, z.s.pcs[t], z.jobs[t]))
    && forall k :: 0 <= k < |z.results| ==> Right(z.s, z.results[k])
  }

  lemma OpenedAgrees(r: Ledger)
    requires Opened(r)
    ensures Agrees(r)
  {
  }

  /** The histories grow, and a closed channel stays closed. */
  ghost predicate Longer(s: State, z: State)
  {
    s.accepted <= z.accepted && s.received <= z.received && (!s.ch.isopen ==> !z.ch.isopen)
  }

  lemma StepIsLonger(s: State, a: Step)
    requires Enabled(s, a)
    ensures Longer(s, Apply(s, a))
  {
  }

  lemma InStepLater(s: State, z: State, pc: PC, job: Job)
    requires InStep(s, pc, job) && Longer(s, z)
    ensures InStep(z, pc, job)
  {
  }

  lemma RightLater(s: State, z: State, x: Result)
    requires Right(s, x) && Longer(s, z)
    ensures Right(z, x)
  {
  }

  /** What the acting thread of a step leaves behind. */
  ghost predicate ActorRight(r: Ledger, a: Step)
    requires Enabled(r.s, a) && Acts(a) && |r.jobs| == |r.s.pcs|
  {
    var z := Entered(r, a);
    && InStep(z.s, z.s.pcs[a.t], z.jobs[a.t])
    && (z.s.pcs[a.t].Done? ==>
          Right(z.s, Result(a.t, z.jobs[a.t], z.s.pcs[a.t].status, DataAt(r.s.pcs[a.t]))))
  }

  lemma SendActs(r: Ledger, t: nat)
    requires Agrees(r) && Enabled(r.s, Section(t)) && Sends(r.s.pcs[t])
    ensures ActorRight(r, Section(t))
  {
    assert InStep(r.s, r.s.pcs[t], r.jobs[t]);
  }

  lemma ReceiveActs(r: Ledger, t: nat)
    requires Agrees(r) && Enabled(r.s, Section(t)) && (r.s.pcs[t].ReceiveLock? || r.s.pcs[t].ReceiveWoken?)
    ensures ActorRight(r, Section(t))
  {
    assert InStep(r.s, r.s.pcs[t], r.jobs[t]);
  }

  lemma CloseActs(r: Ledger, t: nat)
    requires Agrees(r) && Enabled(r.s, Section(t)) && r.s.pcs[t].CloseLock?
    ensures ActorRight(r, Section(t))
  {
    assert InStep(r.s, r.s.pcs[t], r.jobs[t]);
  }

  lemma SpecialMeans(m: Message)
    ensures ReceiveStatus(m + [0]) == if m == SPECIAL then SpecialMessage else Success
  {
    if m + [0] == SPLMSG { assert m == (m + [0])[..|m|] == SPECIAL; }
  }

  lemma SignalLeads(s: State, pc: PC, job: Job, t: nat)
    requires InStep(s, pc, job) && AtSignal(pc)
    ensures var pc' := AfterSignal(pc);
      && InStep(s, pc', job)
      && (pc'.Done? ==> Right(s, Result(t, job, pc'.status, DataAt(pc))))
  {
    if pc.ReceiveSignal? { SpecialMeans(s.received[job.effect.i]); }
  }

  lemma SignalActs(r: Ledger, a: Step)
    requires Agrees(r) && Enabled(r.s, a) && (a.Signal? || a.SignalNobody?)
    ensures ActorRight(r, a)
  {
    var pc, job, z := r.s.pcs[a.t], r.jobs[a.t], Apply(r.s, a);
    assert InStep(r.s, pc, job);
    hide InStep, Right, ReceiveStatus;
    SignalLeads(r.s, pc, job, a.t);
    InStepLater(r.s, z, AfterSignal(pc), job);
    if AfterSignal(pc).Done? { RightLater(r.s, z, Result(a.t, job, AfterSignal(pc).status, DataAt(pc))); }
  }

  /** The thread that a section or a signal belongs to. */
  lemma ActorInStep(r: Ledger, a: Step)
    requires Agrees(r) && Enabled(r.s, a) && Acts(a)
    ensures ActorRight(r, a)
  {
    if !a.Section? { SignalActs(r, a); }
    else if Sends(r.s.pcs[a.t]) { SendActs(r, a.t); }
    else if r.s.pcs[a.t].CloseLock? { CloseActs(r, a.t); }
    else { ReceiveActs(r, a.t); }
  }

  lemma OtherInStep(r: Ledger, a: Step, t: nat)
    requires Agrees(r) && Enabled(r.s, a) && t < |r.jobs| && !(Acts(a) && a.t == t)
    ensures var z := Entered(r, a); InStep(z.s, z.s.pcs[t], z.jobs[t])
  {
    assert InStep(r.s, r.s.pcs[t], r.jobs[t]);
    StepIsLonger(r.s, a);
    InStepLater(r.s, Apply(r.s, a), r.s.pcs[t], r.jobs[t]);
  }

  /** Every step keeps the agreement. */
  lemma AgreesStep(r: Ledger, a: Step)
    requires Agrees(r) && Enabled(r.s, a)
    ensures Agrees(Entered(r, a))
  {
    var z := Entered(r, a);
    StepIsLonger(r.s, a);
    forall t: nat | t < |z.jobs| ensures InStep(z.s, z.s.pcs[t], z.jobs[t]) {
      if Acts(a) && a.t == t { ActorInStep(r, a); } else { OtherInStep(r, a, t); }
    }
    forall k: nat | k < |z.results| ensures Right(z.s, z.results[k]) {
      if k < |r.results| { RightLater(r.s, z.s, r.results[k]); } else { ActorInStep(r, a); }
    }
  }

  /** What goes onto the ring or comes off it belongs to one call, which had done nothing before. */
  lemma OnePerCall(r: Ledger, a: Step)
    requires Agrees(r) && Enabled(r.s, a)
    ensures var z := Entered(r, a);
      && (z.s.accepted == r.s.accepted ||
            (a.Section? && r.jobs[a.t].call.SendCall? && r.jobs[a.t].effect == Nothing &&
             z.s.accepted == r.s.accepted + [r.jobs[a.t].call.m] && z.jobs[a.t].effect == Put(|r.s.accepted|)))
      && (z.s.received == r.s.received ||
            (a.Section? && r.jobs[a.t] == Job(ReceiveCall, Nothing) &&
             |z.s.received| == |r.s.received| + 1 && z.jobs[a.t].effect == Took(|r.s.received|)))
  {
    if a.Section? { assert InStep(r.s, r.s.pcs[a.t], r.jobs[a.t]); }
  }

  lemma {:induction false} AgreesRun(r: Ledger, steps: seq<Step>, z: Ledger)
    requires Agrees(r) && Kept(r, steps, z)
    ensures Agrees(z)
    decreases |steps|
  {
    if steps != [] {
      AgreesStep(r, steps[0]);
      AgreesRun(Entered(r, steps[0]), steps[1..], z);
    }
  }

  /** In every run every call returned what it did. */
  lemma EveryResultIsRight(r: Ledger, steps: seq<Step>, z: Ledger, k: nat)
    requires Opened(r) && Kept(r, steps, z) && k < |z.results|
    ensures Right(z.s, z.results[k])
  {
    OpenedAgrees(r);
    AgreesRun(r, steps, z);
  }
}
