/**
 * When a sender is left waiting although its message fits. A receive signals one sender only; if that
 * one still lacks room, the signal is lost for the others. This happens exactly when messages are sent
 * of which the ring holds different numbers.
 */
module ChannelRoom {
  import opened Bits
  import opened Messages
  import opened Channel

  /** How many messages like m the ring holds. */
  function Capacity(size: nat, m: Message): nat
    requires size >= 1
  {
    (size - 1) / MsgSize(m)
  }

  /** A sender waits for room that it has, and nobody can move. */
  ghost predicate Stranded(size: nat, ms: iset<Message>, z: State, t: nat)
  {
    && Reachable(ms, z) && z.ch.size == size && z.ch.isopen && Quiescent(z)
    && t < |z.pcs| && z.pcs[t].SendWait? && MsgSize(z.pcs[t].m) < Avail(z.ch)
  }

  // ---------- equal capacities: no sender is stranded ----------

  ghost predicate AllOfCapacity(q: seq<Message>, size: nat, n: nat)
    requires size >= 1
  {
    forall i :: 0 <= i < |q| ==> Capacity(size, q[i]) == n
  }

  lemma Quotient(x: nat, k: nat, n: nat)
    requires k > 0 && x / k == n
    ensures k * n <= x && k * (n + 1) >= x + 1
  {
    assert x == k * (x / k) + x % k;
    Times(k, n);
  }

  lemma Times(k: nat, n: nat)
    ensures k * (n + 1) == k * n + k
  {
  }

  lemma Distribute(a: nat, b: nat, c: nat)
    ensures (a + b) * c == a * c + b * c
  {
  }

  /** The frames of |q| messages of capacity n take between |q| / (n + 1) and |q| / n of the ring. */
  lemma {:induction false} UsedBounds(q: seq<Message>, size: nat, n: nat)
    requires size >= 1 && AllOfCapacity(q, size, n)
    ensures Used(q) * n <= |q| * (size - 1) && Used(q) * (n + 1) >= |q| * size
  {
    if q != [] {
      var k, rest := MsgSize(q[0]), Used(q[1..]);
      Quotient(size - 1, k, n);
      UsedBounds(q[1..], size, n);
      Distribute(k, rest, n);
      Distribute(k, rest, n + 1);
      Distribute(1, |q| - 1, size - 1);
      Distribute(1, |q| - 1, size);
    }
  }

  lemma MulMono(a: nat, b: nat, c: nat)
    requires a <= b
    ensures a * c <= b * c
  {
  }

  lemma MulStrict(a: nat, b: nat, c: nat)
    requires a < b && c > 0
    ensures a * c < b * c
  {
    MulMono(a + 1, b, c);
    Distribute(a, 1, c);
  }

  lemma CancelLess(a: nat, b: nat, c: nat)
    requires a * c <= b * c && c > 0
    ensures a <= b
  {
    if a > b { MulStrict(b, a, c); }
  }

  lemma CancelStrict(a: nat, b: nat, c: nat)
    requires a * c < b * c
    ensures a < b
  {
    if a >= b { MulMono(b, a, c); }
  }

  /** Messages of capacity n fit together exactly when there are at most n. */
  lemma FitTogether(q: seq<Message>, size: nat, n: nat)
    requires size >= 1 && AllOfCapacity(q, size, n)
    ensures Used(q) < size <==> |q| <= n
  {
    UsedBounds(q, size, n);
    if |q| <= n {
      if n > 0 {
        MulMono(|q|, n, size - 1);
        assert n * (size - 1) == (size - 1) * n;
        CancelLess(Used(q), size - 1, n);
      }
    } else {
      MulMono(n + 1, |q|, size);
      assert (n + 1) * size == size * (n + 1);
      CancelLess(size, Used(q), n + 1);
    }
  }

  /** So a sender has room exactly when fewer than n messages are queued. */
  lemma RoomMeans(c: Chan, m: Message, n: nat)
    requires c.size >= 1 && AllOfCapacity(c.queue, c.size, n) && Capacity(c.size, m) == n
    ensures Avail(c) > MsgSize(m) <==> |c.queue| < n
  {
    FitTogether(c.queue + [m], c.size, n);
    UsedAppend(c.queue, m);
  }

  ghost predicate SameCapacity(s: State, n: nat)
    requires s.ch.size >= 1
  {
    && AllOfCapacity(s.ch.queue, s.ch.size, n)
    && forall t :: 0 <= t < |s.pcs| ==> Sends(s.pcs[t]) ==> Capacity(s.ch.size, s.pcs[t].m) == n
  }

  /** No sender's wakeup is lost: while one waits, the room is at most woken senders plus pending signals. */
  ghost predicate RoomHeard(s: State, n: nat)
  {
    s.ch.isopen && Sum(s.pcs, WaitingSenders) > 0 ==> n - |s.ch.queue| <= Sum(s.pcs, SenderHope)
  }

  lemma SameCapacityStep(s: State, a: Step, n: nat)
    requires s.ch.size >= 1 && SameCapacity(s, n) && Enabled(s, a) && (a.CallSend? ==> Capacity(s.ch.size, a.m) == n)
    ensures Apply(s, a).ch.size == s.ch.size && SameCapacity(Apply(s, a), n)
  {
    hide Capacity;
  }

  lemma RoomHeardStep(s: State, a: Step, n: nat)
    requires s.ch.size >= 1 && SameCapacity(s, n) && RoomHeard(s, n) && Enabled(s, a)
    ensures RoomHeard(Apply(s, a), n)
  {
    hide Avail, Capacity, MsgSize;
    SumStep(s, a, WaitingSenders);
    SumStep(s, a, SenderHope);
    if a.Section? && Sends(s.pcs[a.t]) {
      RoomMeans(s.ch, s.pcs[a.t].m, n);
    } else if a.SignalNobody? && s.pcs[a.t].ReceiveSignal? {
      NobodyWaits(s, a.t, WaitingSenders);
    } else if a.Signal? {
      SumAtLeast(s.pcs, a.w, WaitingSenders);
    }
  }

  lemma {:induction false} RoomHeardRun(s: State, steps: seq<Step>, z: State, n: nat)
    requires s.ch.size >= 1 && SameCapacity(s, n) && RoomHeard(s, n) && Run(s, steps, z)
    requires Asked(steps, k => k > 0 && (s.ch.size - 1) / k == n)
    ensures z.ch.size == s.ch.size && SameCapacity(z, n) && RoomHeard(z, n)
    decreases |steps|
  {
    if steps != [] {
      SameCapacityStep(s, steps[0], n);
      RoomHeardStep(s, steps[0], n);
      RoomHeardRun(Apply(s, steps[0]), steps[1..], z, n);
    }
  }

  /** If the ring holds the same number of every message, a sender that waits while nobody can move has no room. */
  lemma NoSenderStranded(s: State, steps: seq<Step>, z: State, t: nat, n: nat)
    requires Start(s) && Run(s, steps, z) && Quiescent(z) && z.ch.isopen
    requires Asked(steps, k => k > 0 && (s.ch.size - 1) / k == n) && t < |z.pcs| && z.pcs[t].SendWait?
    ensures Avail(z.ch) <= MsgSize(z.pcs[t].m)
  {
    StartSums(s.pcs, WaitingSenders);
    RoomHeardRun(s, steps, z, n);
    SumAtLeast(z.pcs, t, WaitingSenders);
    QuiescentSums(z, SenderHope);
    RoomMeans(z.ch, z.pcs[t].m, n);
  }

  // ---------- different capacities: a run that strands a sender ----------

  /** x can be filled with a's and b's so that what is left takes an a but no b. */
  lemma {:induction false} Mix(x: nat, a: nat, b: nat) returns (n: nat, m: nat)
    requires 0 < a < b && x / a > x / b
    ensures n * a + m * b <= x && a <= x - (n * a + m * b) < b
    decreases x
  {
    var r := x % b;
    assert x == x / b * b + r;
    if r >= a {
      n, m := 0, x / b;
    } else {
      OneLess(x, a, b);
      var n', m' := Mix(x - a, a, b);
      n, m := n' + 1, m';
      Distribute(n', 1, a);
    }
  }

  lemma DropOne(x: nat, a: nat)
    requires a > 0 && x / a >= 1
    ensures x >= a && (x - a) / a == x / a - 1
  {
    var q, r := x / a, x % a;
    assert x == q * a + r;
    Distribute(q - 1, 1, a);
    MulMono(1, q, a);
    DivUnique(x - a, a, q - 1, r);
  }

  lemma DropPart(x: nat, a: nat, b: nat, q: nat, r: nat)
    requires 0 < a < b && x >= a && r < a && x == q * b + r
    ensures q > 0 && (x - a) / b == q - 1
  {
    if q > 0 {
      Distribute(q - 1, 1, b);
      DivUnique(x - a, b, q - 1, r + b - a);
    }
  }

  /** Taking an a away when the remainder by b is too small for it costs one b. */
  lemma OneLess(x: nat, a: nat, b: nat)
    requires 0 < a < b && x / a > x / b && x % b < a
    ensures x >= a && (x - a) / a == x / a - 1 && (x - a) / b == x / b - 1
    ensures (x - a) / a > (x - a) / b >= 0
  {
    DropOne(x, a);
    DropPart(x, a, b, x / b, x % b);
  }

  lemma QuotientShrinks(x: nat, b: nat, a: nat)
    requires 0 < b <= a
    ensures x / a <= x / b
  {
    Quotient(x, a, x / a);
    MulMono(b, a, x / a);
    Quotient(x, b, x / b);
    assert (x / a) * b < (x / b + 1) * b;
    CancelStrict(x / a, x / b + 1, b);
  }

  lemma LargerQuotient(x: nat, a: nat, b: nat)
    requires a > 0 && b > 0 && x / a > x / b
    ensures a < b
  {
    if a >= b { QuotientShrinks(x, b, a); }
  }

  function Copies(n: nat, m: Message): (q: seq<Message>)
    ensures |q| == n && forall i :: 0 <= i < n ==> q[i] == m
  {
    seq(n, _ => m)
  }

  lemma {:induction false} UsedCopies(n: nat, m: Message)
    ensures Used(Copies(n, m)) == n * MsgSize(m)
  {
    if n > 0 {
      UsedCopies(n - 1, m);
      assert Copies(n, m)[1..] == Copies(n - 1, m);
      Distribute(n - 1, 1, MsgSize(m));
    }
  }

  lemma {:induction false} UsedConcat(p: seq<Message>, q: seq<Message>)
    ensures Used(p + q) == Used(p) + Used(q)
  {
    if p == [] {
      assert p + q == q;
    } else {
      assert (p + q)[1..] == p[1..] + q;
      UsedConcat(p[1..], q);
    }
  }

  /** Four threads: one fills the ring, two send, one receives. */
  function Four(ch: Chan, p0: PC, p1: PC, p2: PC, p3: PC, accepted: seq<Message>, received: seq<Message>): State
  {
    State(ch, [p0, p1, p2, p3], accepted, received)
  }

  /** Thread 0 sends the messages of q, one after the other. */
  lemma {:induction false} Fill(ms: iset<Message>, size: nat, q: seq<Message>) returns (z: State)
    requires size >= 1 && Used(q) < size && forall i :: 0 <= i < |q| ==> q[i] in ms
    ensures Reachable(ms, z)
    ensures z == Four(Chan(size, true, q), if q == [] then Idle else Done(Success), Idle, Idle, Idle, q, [])
  {
    if q == [] {
      z := Four(Chan(size, true, []), Idle, Idle, Idle, Idle, [], []);
      ReachStart(ms, z);
    } else {
      var n := |q| - 1;
      assert q == q[..n] + [q[n]];
      UsedAppend(q[..n], q[n]);
      var y := Fill(ms, size, q[..n]);
      hide Reachable, Used;
      z := ReachSent(ms, y, 0, q[n]);
    }
  }

  /** One receive whose signal goes to the sender of the big message, which still lacks room. */
  lemma Turn(ms: iset<Message>, y: State, p0: PC, big: Message, small: Message, p3: PC, size: nat, q: seq<Message>,
             acc: seq<Message>, rec: seq<Message>) returns (z: State, status: Status)
    requires Reachable(ms, y) && y == Four(Chan(size, true, q), p0, SendWait(big), SendWait(small), p3, acc, rec)
    requires CanCall(p3) && q != [] && size - Used(q[1..]) <= MsgSize(big)
    ensures Reachable(ms, z)
    ensures z == Four(Chan(size, true, q[1..]), p0, SendWait(big), SendWait(small), Done(status), acc, rec + [q[0]])
  {
    hide Reachable, Used;
    var data := q[0] + [0];
    var y1 := ReachReceive(ms, y, 3);
    assert y1.pcs == [p0, SendWait(big), SendWait(small), ReceiveSignal(data)];
    ReachOn(ms, y1, Signal(3, 1));
    var y2 := Apply(y1, Signal(3, 1));
    status := ReceiveStatus(data);
    assert y2.pcs == [p0, SendWoken(big), SendWait(small), Done(status)];
    ReachOn(ms, y2, Section(1));
    z := Apply(y2, Section(1));
    assert z.pcs == [p0, SendWait(big), SendWait(small), Done(status)];
  }

  /** j such receives. */
  lemma {:induction false} Turns(ms: iset<Message>, y: State, p0: PC, big: Message, small: Message, p3: PC, size: nat,
                                 j: nat, q: seq<Message>, acc: seq<Message>, rec: seq<Message>) returns (z: State)
    requires Reachable(ms, y) && y == Four(Chan(size, true, q), p0, SendWait(big), SendWait(small), p3, acc, rec)
    requires CanCall(p3) && j <= |q| && size - Used(q[j..]) <= MsgSize(big)
    ensures Reachable(ms, z) && |z.pcs| == 4 && z.ch == Chan(size, true, q[j..])
    ensures z.pcs[0] == p0 && z.pcs[1] == SendWait(big) && z.pcs[2] == SendWait(small) && CanCall(z.pcs[3])
    decreases j
  {
    if j == 0 {
      z := y;
    } else {
      assert q[1..][j - 1..] == q[j..];
      UsedConcat(q[1..][..j - 1], q[j..]);
      assert q[1..] == q[1..][..j - 1] + q[j..];
      var y1, status := Turn(ms, y, p0, big, small, p3, size, q, acc, rec);
      hide Reachable, Used;
      z := Turns(ms, y1, p0, big, small, Done(status), size, j - 1, q[1..], acc, rec + [q[0]]);
    }
  }

  /** What the ring holds before and after the j receives. */
  lemma UsedOfMix(j: nat, n: nat, m: nat, small: Message, big: Message)
    ensures var last := Copies(n, small) + Copies(m, big);
      && Used(last) == n * MsgSize(small) + m * MsgSize(big)
      && Used(Copies(j, small) + last) == j * MsgSize(small) + Used(last)
      && (Copies(j, small) + last)[j..] == last
  {
    UsedCopies(j, small);
    UsedCopies(n, small);
    UsedCopies(m, big);
    UsedConcat(Copies(n, small), Copies(m, big));
    UsedConcat(Copies(j, small), Copies(n, small) + Copies(m, big));
  }

  /** With the ring this full both senders wait. */
  lemma BothWait(ms: iset<Message>, y: State, p0: PC, size: nat, q: seq<Message>, small: Message, big: Message)
    returns (z: State)
    requires Reachable(ms, y) && y == Four(Chan(size, true, q), p0, Idle, Idle, Idle, q, [])
    requires small in ms && big in ms && size - Used(q) <= MsgSize(small) <= MsgSize(big)
    ensures Reachable(ms, z)
    ensures z == Four(Chan(size, true, q), p0, SendWait(big), SendWait(small), Idle, q, [])
  {
    hide Reachable, Used, MsgSize;
    var y1 := ReachSend(ms, y, 1, big);
    assert y1.pcs == [p0, SendWait(big), Idle, Idle];
    z := ReachSend(ms, y1, 2, small);
    assert z.pcs == [p0, SendWait(big), SendWait(small), Idle];
  }

  /** A ring that takes j small messages in front of `last`, and no big one even behind `last` alone. */
  lemma StrandedBehind(size: nat, j: nat, last: seq<Message>, small: Message, big: Message) returns (z: State)
    requires forall i :: 0 <= i < |last| ==> last[i] in iset{small, big}
    requires var q := Copies(j, small) + last; Used(q) < size && size - Used(q) <= MsgSize(small)
    requires MsgSize(small) < size - Used(last) <= MsgSize(big)
    ensures Stranded(size, iset{small, big}, z, 2) && z.pcs[2] == SendWait(small)
  {
    hide Reachable, Used, MsgSize;
    var ms, q := iset{small, big}, Copies(j, small) + last;
    var p0 := if q == [] then Idle else Done(Success);
    var y := Fill(ms, size, q);
    y := BothWait(ms, y, p0, size, q, small, big);
    assert q[j..] == last;
    z := Turns(ms, y, p0, big, small, Idle, size, j, q, q, []);
    assert Quiescent(z);
  }

  /** Any two messages of different capacities strand the sender of the smaller one. */
  lemma StrandedWhenCapacitiesDiffer(size: nat, small: Message, big: Message) returns (z: State)
    requires size >= 1 && Capacity(size, small) > Capacity(size, big)
    ensures Stranded(size, iset{small, big}, z, 2) && z.pcs[2] == SendWait(small)
  {
    var x, a, b := size - 1, MsgSize(small), MsgSize(big);
    LargerQuotient(x, a, b);
    var n, m := Mix(x, a, b);
    var left := x - (n * a + m * b);
    var j := left / a;
    Quotient(left, a, j);
    Times(a, j);
    assert a * j == j * a;
    UsedOfMix(j, n, m, small, big);
    hide *;
    z := StrandedBehind(size, j, Copies(n, small) + Copies(m, big), small, big);
  }

  /**
   * The exact condition: on a ring of this size messages of ms can strand a sender exactly when it
   * holds different numbers of two of them.
   */
  lemma StrandedExactlyWhenCapacitiesDiffer(size: nat, ms: iset<Message>)
    requires size >= 1
    ensures (exists z, t :: Stranded(size, ms, z, t)) <==>
      exists a, b :: a in ms && b in ms && Capacity(size, a) != Capacity(size, b)
  {
    if a, b :| a in ms && b in ms && Capacity(size, a) > Capacity(size, b) {
      var z := StrandedWhenCapacitiesDiffer(size, a, b);
      ReachableMore(iset{a, b}, ms, z);
      assert Stranded(size, ms, z, 2);
    } else if z, t :| Stranded(size, ms, z, t) {
      NoneStranded(size, ms, z, t);
      assert false;
    }
  }

  lemma NoneStranded(size: nat, ms: iset<Message>, z: State, t: nat)
    requires size >= 1 && forall a, b :: a in ms && b in ms ==> Capacity(size, a) == Capacity(size, b)
    ensures !Stranded(size, ms, z, t)
  {
    if Stranded(size, ms, z, t) {
      var s, steps :| Start(s) && OnlyOf(steps, ms) && Run(s, steps, z);
      SizesStay(s, steps, z);
      var n := if m :| m in ms then Capacity(size, m) else 0;
      hide Run;
      NoSenderStranded(s, steps, z, t, n);
    }
  }

  /** For instance, a ring of 11 bytes holds two empty messages but one message of one byte. */
  lemma SmallSenderStranded() returns (z: State)
    ensures Stranded(11, iset{[], [1]}, z, 2) && z.pcs[2] == SendWait([])
  {
    z := StrandedWhenCapacitiesDiffer(11, [], [1]);
  }
}
