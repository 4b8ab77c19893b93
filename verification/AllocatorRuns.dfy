/** Whole runs of the allocator: any sequence of requests and writes that a client makes. */
module AllocatorRuns {
  import opened Bits
  import opened HeapBlocks
  import opened Slabs
  import opened SlabSteps
  import opened ReallocSteps
  import opened Contents
  import opened AllocatorSteps
  import opened Allocators

  /** i names what the i-th request returned. */
  datatype Request =
    | Allocate(size: nat)                        // malloc
    | Release(i: nat)                            // free
    | Resize(i: nat, size: nat)                  // realloc, whose pointer takes the place of the old one
    | Store(i: nat, offset: nat, value: Byte)    // the client writes one byte of its payload

  datatype Answer =
    | Granted
    | Lost       // granted, but the old contents are not promised
    | Refused

  // ---------- what the client knows ----------

  /** A payload of size bytes, of which these have been written. */
  datatype Holding = Nothing | Holding(size: nat, bytes: map<nat, Byte>)

  /** What the client knows of a payload resized to n bytes. */
  function Moved(bytes: map<nat, Byte>, n: nat, a: Answer): map<nat, Byte>
  {
    if a.Lost? then map[] else map o | o in bytes && o < n :: bytes[o]
  }

  function Changed(held: seq<Holding>, r: Request, a: Answer): (h: seq<Holding>)
    ensures |h| == |held|
  {
    match r
    case Allocate(_) => held
    case Release(i) => if i < |held| then held[i := Nothing] else held
    case Resize(i, size) =>
      if i < |held| && held[i].Holding? then
        held[i := Holding(size, Moved(held[i].bytes, size, a))]
      else held
    case Store(i, o, b) =>
      if i < |held| && held[i].Holding? then held[i := held[i].(bytes := held[i].bytes[o := b])] else held
  }

  /** One more request, and what it leaves the client with. */
  function Next(held: seq<Holding>, r: Request, a: Answer): (h: seq<Holding>)
    ensures |h| == |held| + 1
  {
    if a.Refused? then held + [Nothing]
    else Changed(held, r, a) + [if r.Allocate? then Holding(r.size, map[]) else Nothing]
  }

  function Held(reqs: seq<Request>, answers: seq<Answer>): (h: seq<Holding>)
    requires |answers| == |reqs|
    ensures |h| == |reqs|
  {
    if reqs == [] then []
    else var n := |reqs| - 1; Next(Held(reqs[..n], answers[..n]), reqs[n], answers[n])
  }

  /** Nothing but a later write, a release, or a shrinking or lost realloc takes a byte away. */
  predicate Leaves(r: Request, a: Answer, i: nat, o: nat)
  {
    a.Refused? ||
    match r
    case Allocate(_) => true
    case Release(x) => x != i
    case Resize(x, size) => x != i || (o < size && !a.Lost?)
    case Store(x, o', _) => x != i || o' != o
  }

  /** A byte is known to be what was last written there. */
  lemma {:induction false} LastWritten(reqs: seq<Request>, answers: seq<Answer>, k: nat, i: nat, o: nat, b: Byte)
    requires |answers| == |reqs| && k < |reqs| && reqs[k] == Store(i, o, b) && !answers[k].Refused? && i < k
    requires Held(reqs[..k], answers[..k])[i].Holding?
    requires forall j :: k < j < |reqs| ==> Leaves(reqs[j], answers[j], i, o)
    ensures var h := Held(reqs, answers)[i]; h.Holding? && o in h.bytes && h.bytes[o] == b
    decreases |reqs|
  {
    var n := |reqs| - 1;
    if k < n {
      assert reqs[..n][..k] == reqs[..k] && answers[..n][..k] == answers[..k];
      LastWritten(reqs[..n], answers[..n], k, i, o, b);
    }
  }

  /** A request that the client has no right to make, or that runs do not cover: a realloc to 0 bytes. */
  predicate Improper(held: seq<Holding>, r: Request)
  {
    match r
    case Allocate(_) => false
    case Release(i) => i >= |held|
    case Resize(i, size) => i >= |held| || held[i].Nothing? || size == 0
    case Store(i, o, _) => i >= |held| || held[i].Nothing? || o >= held[i].size
  }

  /** What a request may add to the break. */
  function Demand(r: Request): nat
  {
    if r.Allocate? || r.Resize? then Room(r.size) else 0
  }

  function Demands(reqs: seq<Request>): nat
  {
    if reqs == [] then 0 else var n := |reqs| - 1; Demands(reqs[..n]) + Demand(reqs[n])
  }

  /** A realloc that leaves the slots of its kind is the only one that may lose contents. */
  predicate MayLose(held: seq<Holding>, r: Request)
  {
    r.Resize? && r.i < |held| && held[r.i].Holding? && LeavesKind(held[r.i].size, r.size)
  }

  // ---------- what the memory holds ----------

  datatype Handle = Handle(ptr: nat, size: nat)

  /** What a client may rely on between two requests. */
  ghost predicate Intact(brk: nat, live: map<nat, nat>)
  {
    && (forall p :: p in live ==> p % 2 == 0 && FIRST < p && p + live[p] <= brk)
    && forall p, q :: p in live && q in live && p < q ==> p + live[p] <= q
  }

  lemma InvariantMeansIntact(m: seq<nat>, brk: nat, B: Blocks, fl: seq<seq<nat>>, live: map<nat, nat>)
    requires AllocatorOK(m, brk, B, fl, live)
    ensures Intact(brk, live)
  {
    hide AllocatorOK;
    forall p | p in live ensures p % 2 == 0 && FIRST < p && p + live[p] <= brk {
      LiveAlone(m, brk, B, fl, live, p);
    }
    forall p, q | p in live && q in live && p < q ensures p + live[p] <= q {
      LiveApart(m, brk, B, fl, live, p, q);
    }
  }

  ghost predicate Owns(h: Handle, k: Holding, live: map<nat, nat>, others: map<nat, nat>)
  {
    if k.Nothing? then h.ptr == 0
    else
      && h.ptr != 0 && h.ptr in live && h.ptr !in others && h.size == k.size && Grant(live[h.ptr], k.size)
      && forall o :: o in k.bytes ==> o < k.size
  }

  /** The handles stand for different live pointers, none of which others hold. */
  ghost predicate Owned(handles: seq<Handle>, held: seq<Holding>, live: map<nat, nat>, others: map<nat, nat>)
  {
    && |handles| == |held|
    && (forall i :: 0 <= i < |held| ==> Owns(handles[i], held[i], live, others))
    && (forall i, j :: 0 <= i < j < |held| && handles[i].ptr != 0 ==> handles[i].ptr != handles[j].ptr)
    && forall p :: p in others ==> p in live && live[p] == others[p]
  }

  ghost predicate Remembers(m: seq<nat>, p: nat, bytes: map<nat, Byte>)
  {
    forall o :: o in bytes ==> p + o / 8 < |m| && ByteAt(m, p, o) == bytes[o]
  }

  /** The memory holds what the client has written. */
  ghost predicate Faithful(m: seq<nat>, handles: seq<Handle>, held: seq<Holding>)
  {
    forall i {:trigger held[i]} ::
      0 <= i < |held| && i < |handles| && held[i].Holding? ==> Remembers(m, handles[i].ptr, held[i].bytes)
  }

  lemma GrantHolds(words: nat, size: nat, o: nat)
    requires Grant(words, size) && o < size
    ensures o / 8 < words
  {
    BlockWordsRange(size);
  }

  lemma StillRemembers(m: seq<nat>, m': seq<nat>, live: map<nat, nat>, h: Handle, k: Holding, others: map<nat, nat>)
    requires LiveKept(m, m', live) && k.Holding? && Owns(h, k, live, others) && Remembers(m, h.ptr, k.bytes)
    ensures Remembers(m', h.ptr, k.bytes)
  {
    hide ByteOf, Grant;
    forall o | o in k.bytes ensures h.ptr + o / 8 < |m'| && ByteAt(m', h.ptr, o) == k.bytes[o] {
      GrantHolds(live[h.ptr], k.size, o);
      assert m'[h.ptr + o / 8] == m[h.ptr + o / 8];
    }
  }

  /** All handles but the x-th keep their contents. */
  lemma RestFaithful(m: seq<nat>, m': seq<nat>, handles: seq<Handle>, held: seq<Holding>, live: map<nat, nat>,
                     others: map<nat, nat>, kept: map<nat, nat>, x: nat)
    requires Owned(handles, held, live, others) && Faithful(m, handles, held) && LiveKept(m, m', kept)
    requires if x < |handles| && handles[x].ptr != 0 then kept == live - {handles[x].ptr} else kept == live
    ensures forall i {:trigger held[i]} ::
      0 <= i < |held| && i != x && held[i].Holding? ==> Remembers(m', handles[i].ptr, held[i].bytes)
  {
    hide Remembers, LiveKept, Grant;
    forall i | 0 <= i < |held| && i != x && held[i].Holding? ensures Remembers(m', handles[i].ptr, held[i].bytes) {
      assert Owns(handles[i], held[i], live, others);
      assert Owns(handles[i], held[i], kept, others);
      StillRemembers(m, m', kept, handles[i], held[i], others);
    }
  }

  // ---------- what a request does to the handles ----------

  lemma OwnedAppend(handles: seq<Handle>, held: seq<Holding>, live: map<nat, nat>, others: map<nat, nat>)
    requires Owned(handles, held, live, others)
    ensures Owned(handles + [Handle(0, 0)], held + [Nothing], live, others)
  {
    hide Grant;
  }

  lemma OwnedAllocate(handles: seq<Handle>, held: seq<Holding>, live: map<nat, nat>, others: map<nat, nat>,
                      ptr: nat, words: nat, size: nat)
    requires Owned(handles, held, live, others) && ptr != 0 && ptr !in live && Grant(words, size)
    ensures Owned(handles + [Handle(ptr, size)], held + [Holding(size, map[])], live[ptr := words], others)
  {
    hide Grant;
    forall i | 0 <= i < |held| ensures Owns(handles[i], held[i], live[ptr := words], others) {
      assert Owns(handles[i], held[i], live, others);
    }
  }

  lemma OwnedRelease(handles: seq<Handle>, held: seq<Holding>, live: map<nat, nat>, others: map<nat, nat>, x: nat)
    requires Owned(handles, held, live, others) && x < |handles|
    ensures handles[x].ptr == 0 || handles[x].ptr in live
    ensures Owned(handles[x := Handle(0, 0)], held[x := Nothing],
                  if handles[x].ptr == 0 then live else live - {handles[x].ptr}, others)
  {
    hide Grant;
    assert Owns(handles[x], held[x], live, others);
    var left := if handles[x].ptr == 0 then live else live - {handles[x].ptr};
    forall i | 0 <= i < |held| && i != x ensures Owns(handles[i], held[i], left, others) {
      assert Owns(handles[i], held[i], live, others);
    }
  }

  lemma OwnedResize(handles: seq<Handle>, held: seq<Holding>, live: map<nat, nat>, others: map<nat, nat>, x: nat,
                    ptr: nat, words: nat, size: nat, bytes: map<nat, Byte>)
    requires Owned(handles, held, live, others) && x < |handles| && handles[x].ptr != 0
    requires ptr != 0 && ptr !in live - {handles[x].ptr} && Grant(words, size)
    requires forall o :: o in bytes ==> o < size
    ensures Owned(handles[x := Handle(ptr, size)], held[x := Holding(size, bytes)],
                  (live - {handles[x].ptr})[ptr := words], others)
  {
    hide Grant;
    assert Owns(handles[x], held[x], live, others);
    var left := (live - {handles[x].ptr})[ptr := words];
    forall i | 0 <= i < |held| && i != x ensures Owns(handles[i], held[i], left, others) {
      assert Owns(handles[i], held[i], live, others);
    }
  }

  lemma OwnedStore(handles: seq<Handle>, held: seq<Holding>, live: map<nat, nat>, others: map<nat, nat>, x: nat,
                   o: nat, b: Byte)
    requires Owned(handles, held, live, others) && x < |handles| && held[x].Holding? && o < held[x].size
    ensures Owned(handles, held[x := held[x].(bytes := held[x].bytes[o := b])], live, others)
  {
    hide Grant;
    assert Owns(handles[x], held[x], live, others);
  }

  lemma OwnsMeans(handles: seq<Handle>, held: seq<Holding>, live: map<nat, nat>, others: map<nat, nat>, x: nat)
    requires Owned(handles, held, live, others) && x < |handles|
    ensures held[x].Nothing? <==> handles[x].ptr == 0
    ensures held[x].Holding? ==> handles[x].size == held[x].size
    ensures held[x].Holding? ==> handles[x].ptr in live && Grant(live[handles[x].ptr], held[x].size)
    ensures held[x].Holding? ==> forall o :: o in held[x].bytes ==> o < held[x].size
  {
    hide Grant;
    assert Owns(handles[x], held[x], live, others);
  }

  /** realloc keeps what the client remembers, up to the new size. */
  lemma PrefixMoves(m: seq<nat>, p: nat, m': seq<nat>, p': nat, bytes: map<nat, Byte>, words: nat, size: nat)
    requires Remembers(m, p, bytes) && SameBytes(m, p, m', p', Min(8 * words, size))
    requires forall o :: o in bytes ==> o / 8 < words
    ensures Remembers(m', p', Moved(bytes, size, Granted))
  {
    hide SameBytes, ByteAt;
    forall o | o in bytes && o < size ensures p' + o / 8 < |m'| && ByteAt(m', p', o) == bytes[o] {
      SameBytesAt(m, p, m', p', Min(8 * words, size), o);
    }
  }

  /** One byte written, and the others of the word as they were. */
  lemma ByteStored(m: seq<nat>, p: nat, o: nat, b: Byte, bytes: map<nat, Byte>)
    requires Remembers(m, p, bytes) && p + o / 8 < |m|
    ensures Remembers(m[p + o / 8 := WithByte(m[p + o / 8], o % 8, b)], p, bytes[o := b])
  {
    hide ByteOf, WithByte;
    var x := p + o / 8;
    var m' := m[x := WithByte(m[x], o % 8, b)];
    forall j | j in bytes[o := b] ensures p + j / 8 < |m'| && ByteAt(m', p, j) == bytes[o := b][j] {
      if j / 8 == o / 8 { ByteWritten(m[x], o % 8, b, j % 8); }
    }
  }

  // ---------- serving requests ----------

  /** The invariant of a run. */
  ghost predicate Good(m: seq<nat>, brk: nat, B: Blocks, fl: seq<seq<nat>>, live: map<nat, nat>,
                       handles: seq<Handle>, held: seq<Holding>, m0: seq<nat>, others: map<nat, nat>)
  {
    && AllocatorOK(m, brk, B, fl, live) && LiveKept(m0, m, others)
    && Owned(handles, held, live, others) && Faithful(m, handles, held)
  }

  /** LiveKept for the pointers of others, which are all still live. */
  lemma KeptOn(m0: seq<nat>, m: seq<nat>, m': seq<nat>, kept: map<nat, nat>, others: map<nat, nat>)
    requires LiveKept(m0, m, others) && LiveKept(m, m', kept)
    requires forall p :: p in others ==> p in kept && kept[p] == others[p]
    ensures LiveKept(m0, m', others)
  {
    LiveKeptFewer(m, m', kept, others);
    LiveKeptTransitive(m0, m, m', others);
  }

  /** What every request has to show: its own handle x, and everything else follows. */
  lemma GoodAgain(m: seq<nat>, m': seq<nat>, brk: nat, B: Blocks, fl: seq<seq<nat>>, live: map<nat, nat>,
                  brk': nat, B': Blocks, fl': seq<seq<nat>>, live': map<nat, nat>,
                  handles: seq<Handle>, held: seq<Holding>, handles': seq<Handle>, held': seq<Holding>,
                  m0: seq<nat>, others: map<nat, nat>, kept: map<nat, nat>, x: nat)
    requires Good(m, brk, B, fl, live, handles, held, m0, others)
    requires AllocatorOK(m', brk', B', fl', live') && Owned(handles', held', live', others) && LiveKept(m, m', kept)
    requires if x < |handles| && handles[x].ptr != 0 then kept == live - {handles[x].ptr} else kept == live
    requires |handles'| >= |handles|
    requires forall i :: 0 <= i < |handles'| && i != x ==>
      if i < |handles| then handles'[i] == handles[i] && held'[i] == held[i] else held'[i] == Nothing
    requires x < |handles'| && held'[x].Holding? ==> Remembers(m', handles'[x].ptr, held'[x].bytes)
    ensures Good(m', brk', B', fl', live', handles', held', m0, others)
  {
    hide AllocatorOK, LiveKept, Remembers, Owns, Grant;
    RestFaithful(m, m', handles, held, live, others, kept, x);
    if x < |handles| { NotOthers(handles, held, live, others, x); }
    KeptOn(m0, m, m', kept, others);
  }

  lemma NotOthers(handles: seq<Handle>, held: seq<Holding>, live: map<nat, nat>, others: map<nat, nat>, x: nat)
    requires Owned(handles, held, live, others) && x < |handles|
    ensures handles[x].ptr != 0 ==> handles[x].ptr !in others
  {
    hide Grant;
    assert Owns(handles[x], held[x], live, others);
  }

  method Allocated(a: Allocator, size: nat, handles: seq<Handle>, ghost held: seq<Holding>,
                   ghost m0: seq<nat>, ghost others: map<nat, nat>) returns (h: Handle)
    requires Good(a.mem[..], a.brk, a.B, a.fl, a.live, handles, held, m0, others)
    requires a.brk + Room(size) <= a.mem.Length
    modifies a.mem, a`brk, a`B, a`fl, a`live
    ensures Good(a.mem[..], a.brk, a.B, a.fl, a.live, handles + [h], held + [Holding(size, map[])], m0, others)
    ensures a.brk <= old(a.brk) + Room(size)
  {
    hide *;
    ghost var m, live, brk, B, fl := a.mem[..], a.live, a.brk, a.B, a.fl;
    GoodMeans(m, brk, B, fl, live, handles, held, m0, others);
    TablesInRange(m, brk, B, fl, live);
    RoomServes(m, Alloc(B), brk, size, a.mem.Length);
    MallocGrants(m, size);
    var ptr := a.Malloc(size);
    h := Handle(ptr, size);
    OwnedAllocate(handles, held, live, others, ptr, MallocWords(m, size), size);
    NothingWritten(a.mem[..], ptr);
    GoodAgain(m, a.mem[..], brk, B, fl, live, a.brk, a.B, a.fl, a.live, handles, held,
              handles + [h], held + [Holding(size, map[])], m0, others, live, |handles|);
  }

  lemma GoodMeans(m: seq<nat>, brk: nat, B: Blocks, fl: seq<seq<nat>>, live: map<nat, nat>,
                  handles: seq<Handle>, held: seq<Holding>, m0: seq<nat>, others: map<nat, nat>)
    requires Good(m, brk, B, fl, live, handles, held, m0, others)
    ensures AllocatorOK(m, brk, B, fl, live) && LiveKept(m0, m, others) && |handles| == |held|
    ensures Owned(handles, held, live, others) && Faithful(m, handles, held)
  {
    hide AllocatorOK, LiveKept, Faithful;
  }

  lemma MallocGrants(m: seq<nat>, size: nat)
    requires FIRST <= |m|
    ensures Grant(MallocWords(m, size), size)
  {
    hide NoSlot;
  }

  lemma NothingWritten(m: seq<nat>, p: nat)
    ensures Remembers(m, p, map[])
  {
  }

  method Released(a: Allocator, i: nat, handles: seq<Handle>, ghost held: seq<Holding>,
                  ghost m0: seq<nat>, ghost others: map<nat, nat>)
    requires Good(a.mem[..], a.brk, a.B, a.fl, a.live, handles, held, m0, others) && i < |handles| == |held|
    modifies a.mem, a`B, a`fl, a`live
    ensures Good(a.mem[..], a.brk, a.B, a.fl, a.live, handles[i := Handle(0, 0)], held[i := Nothing], m0, others)
  {
    hide *;
    ghost var m, live, B, fl := a.mem[..], a.live, a.B, a.fl;
    GoodMeans(m, a.brk, B, fl, live, handles, held, m0, others);
    OwnedRelease(handles, held, live, others, i);
    a.Free(handles[i].ptr);
    GoodAgain(m, a.mem[..], a.brk, B, fl, live, a.brk, a.B, a.fl, a.live, handles, held,
              handles[i := Handle(0, 0)], held[i := Nothing], m0, others, a.live, i);
  }

  lemma ReallocGrants(m: seq<nat>, A: map<nat, nat>, p: nat, size: nat)
    ensures Grant(ReallocWords(m, A, p, size), size)
  {
  }

  /** The contents after realloc, as far as the client knows them. */
  lemma ResizedMemory(m: seq<nat>, m': seq<nat>, handles: seq<Handle>, held: seq<Holding>, live: map<nat, nat>,
                      others: map<nat, nat>, i: nat, p': nat, size: nat, answer: Answer)
    requires Owned(handles, held, live, others) && Faithful(m, handles, held) && i < |handles| && held[i].Holding?
    requires handles[i].ptr in live && !answer.Refused?
    requires answer.Granted? ==> SameBytes(m, handles[i].ptr, m', p', Min(8 * live[handles[i].ptr], size))
    ensures Remembers(m', p', Moved(held[i].bytes, size, answer))
    ensures Changed(held, Resize(i, size), answer) == held[i := Holding(size, Moved(held[i].bytes, size, answer))]
    ensures forall o :: o in Moved(held[i].bytes, size, answer) ==> o < size
  {
    if answer.Granted? {
      OwnsMeans(handles, held, live, others, i);
      var words := live[handles[i].ptr];
      hide SameBytes, Remembers, Grant;
      forall o | o in held[i].bytes ensures o / 8 < words { GrantHolds(words, held[i].size, o); }
      PrefixMoves(m, handles[i].ptr, m', p', held[i].bytes, words, size);
    }
  }

  method Resized(a: Allocator, i: nat, size: nat, handles: seq<Handle>, ghost held: seq<Holding>,
                 ghost m0: seq<nat>, ghost others: map<nat, nat>) returns (h: Handle, ghost answer: Answer)
    requires Good(a.mem[..], a.brk, a.B, a.fl, a.live, handles, held, m0, others) && i < |handles| == |held|
    requires held[i].Holding? && size >= 1 && a.brk + Room(size) <= a.mem.Length
    modifies a.mem, a`brk, a`B, a`fl, a`live
    ensures Good(a.mem[..], a.brk, a.B, a.fl, a.live, handles[i := h], Changed(held, Resize(i, size), answer), m0,
      others)
    ensures !answer.Refused? && (answer.Lost? ==> MayLose(held, Resize(i, size))) && a.brk <= old(a.brk) + Room(size)
  {
    hide *;
    ghost var m, live, brk, B, fl := a.mem[..], a.live, a.brk, a.B, a.fl;
    GoodMeans(m, brk, B, fl, live, handles, held, m0, others);
    OwnsMeans(handles, held, live, others, i);
    var p := handles[i].ptr;
    EnoughRoom(m, brk, B, fl, live, p, size, a.mem.Length);
    answer := if ContentsMove(m, Alloc(B), live, p, size) then Granted else Lost;
    if answer.Lost? { LossMeans(m, brk, B, fl, live, p, held, i, size); }
    ReallocGrants(m, Alloc(B), p, size);
    var ptr := a.Realloc(p, size);
    ReallocatedMeans(m, brk, B, live, p, size, a.mem[..], a.brk, a.B, a.fl, a.live, ptr);
    h := Handle(ptr, size);
    LiveInside(a.mem[..], a.brk, a.B, a.fl, a.live, ptr);
    ResizedMemory(m, a.mem[..], handles, held, live, others, i, ptr, size, answer);
    ghost var bytes := Moved(held[i].bytes, size, answer);
    OwnedResize(handles, held, live, others, i, ptr, ReallocWords(m, Alloc(B), p, size), size, bytes);
    GoodAgain(m, a.mem[..], brk, B, fl, live, a.brk, a.B, a.fl, a.live, handles, held,
              handles[i := h], held[i := Holding(size, bytes)], m0, others, live - {p}, i);
  }

  method Stored(a: Allocator, i: nat, o: nat, b: Byte, handles: seq<Handle>, ghost held: seq<Holding>,
                ghost m0: seq<nat>, ghost others: map<nat, nat>)
    requires Good(a.mem[..], a.brk, a.B, a.fl, a.live, handles, held, m0, others) && i < |handles| == |held|
    requires held[i].Holding? && o < held[i].size
    modifies a.mem
    ensures Good(a.mem[..], a.brk, a.B, a.fl, a.live, handles, Changed(held, Store(i, o, b), Granted), m0, others)
  {
    hide *;
    ghost var m, live, brk, B, fl := a.mem[..], a.live, a.brk, a.B, a.fl;
    GoodMeans(m, brk, B, fl, live, handles, held, m0, others);
    OwnsMeans(handles, held, live, others, i);
    var p := handles[i].ptr;
    GrantHolds(live[p], held[i].size, o);
    LiveInside(m, brk, B, fl, live, p);
    ghost var bytes := held[i].bytes[o := b];
    StoredMemory(m, handles, held, i, o, b);
    a.mem[p + o / 8] := WithByte(a.mem[p + o / 8], o % 8, b);
    assert a.mem[..] == m[p + o / 8 := WithByte(m[p + o / 8], o % 8, b)];
    RestoredWithin(m, a.mem[..], p, live[p], live[p]);
    PayloadWritten(m, a.mem[..], brk, B, fl, live, p);
    OwnedStore(handles, held, live, others, i, o, b);
    GoodAgain(m, a.mem[..], brk, B, fl, live, brk, B, fl, live, handles, held,
              handles, held[i := held[i].(bytes := bytes)], m0, others, live - {p}, i);
  }

  lemma StoredMemory(m: seq<nat>, handles: seq<Handle>, held: seq<Holding>, i: nat, o: nat, b: Byte)
    requires Faithful(m, handles, held) && i < |handles| == |held| && held[i].Holding? && handles[i].ptr + o / 8 < |m|
    ensures var x := handles[i].ptr + o / 8;
      Remembers(m[x := WithByte(m[x], o % 8, b)], handles[i].ptr, held[i].bytes[o := b])
    ensures Changed(held, Store(i, o, b), Granted) == held[i := held[i].(bytes := held[i].bytes[o := b])]
  {
    hide Remembers, WithByte;
    ByteStored(m, handles[i].ptr, o, b, held[i].bytes);
  }

  lemma LossMeans(m: seq<nat>, brk: nat, B: Blocks, fl: seq<seq<nat>>, live: map<nat, nat>, p: nat,
                  held: seq<Holding>, i: nat, size: nat)
    requires AllocatorOK(m, brk, B, fl, live) && p in live && i < |held| && held[i].Holding?
    requires Grant(live[p], held[i].size) && !ContentsMove(m, Alloc(B), live, p, size)
    ensures MayLose(held, Resize(i, size))
  {
    hide AllocatorOK, ContentsMove, Grant;
    LostMeans(m, brk, B, fl, live, p, held[i].size, size);
  }

  lemma GoodAppend(m: seq<nat>, brk: nat, B: Blocks, fl: seq<seq<nat>>, live: map<nat, nat>,
                   handles: seq<Handle>, held: seq<Holding>, m0: seq<nat>, others: map<nat, nat>)
    requires Good(m, brk, B, fl, live, handles, held, m0, others)
    ensures Good(m, brk, B, fl, live, handles + [Handle(0, 0)], held + [Nothing], m0, others)
  {
    hide AllocatorOK, Owned, LiveKept, Remembers;
    GoodMeans(m, brk, B, fl, live, handles, held, m0, others);
    OwnedAppend(handles, held, live, others);
  }

  /** A request that returned no pointer. */
  method Appended(a: Allocator, before: seq<Handle>, ghost held: seq<Holding>,
                  ghost m0: seq<nat>, ghost others: map<nat, nat>) returns (handles: seq<Handle>)
    requires Good(a.mem[..], a.brk, a.B, a.fl, a.live, before, held, m0, others)
    ensures Good(a.mem[..], a.brk, a.B, a.fl, a.live, handles, held + [Nothing], m0, others)
    ensures handles == before + [Handle(0, 0)]
  {
    hide *;
    GoodAppend(a.mem[..], a.brk, a.B, a.fl, a.live, before, held, m0, others);
    handles := before + [Handle(0, 0)];
  }

  /** One request: refused if the client has no right to it, or if mem_sbrk might have no room for it. */
  method ServeOne(a: Allocator, r: Request, before: seq<Handle>, ghost held: seq<Holding>,
                  ghost m0: seq<nat>, ghost others: map<nat, nat>) returns (handles: seq<Handle>, ghost answer: Answer)
    requires Good(a.mem[..], a.brk, a.B, a.fl, a.live, before, held, m0, others)
    modifies a.mem, a`brk, a`B, a`fl, a`live
    ensures Good(a.mem[..], a.brk, a.B, a.fl, a.live, handles, Next(held, r, answer), m0, others)
    ensures answer.Refused? <==> Improper(held, r) || (Demand(r) > 0 && old(a.brk) + Demand(r) > a.mem.Length)
    ensures answer.Lost? ==> MayLose(held, r)
    ensures a.brk <= old(a.brk) + Demand(r)
  {
    hide Good, AllocatorOK, Owned, Faithful, LiveKept, MayLose, Moved;
    GoodMeans(a.mem[..], a.brk, a.B, a.fl, a.live, before, held, m0, others);
    answer := Refused;
    match r
    case Allocate(size) =>
      if a.brk + Room(size) <= a.mem.Length {
        var h := Allocated(a, size, before, held, m0, others);
        answer := Granted;
        handles := before + [h];
      } else {
        handles := Appended(a, before, held, m0, others);
      }
    case Release(i) =>
      if i < |before| {
        Released(a, i, before, held, m0, others);
        handles := Appended(a, before[i := Handle(0, 0)], held[i := Nothing], m0, others);
        answer := Granted;
      } else {
        handles := Appended(a, before, held, m0, others);
      }
    case Resize(i, size) =>
      if i < |before| { OwnsMeans(before, held, a.live, others, i); }
      if i < |before| && before[i].ptr != 0 && size >= 1 && a.brk + Room(size) <= a.mem.Length {
        var h;
        h, answer := Resized(a, i, size, before, held, m0, others);
        handles := Appended(a, before[i := h], Changed(held, r, answer), m0, others);
      } else {
        handles := Appended(a, before, held, m0, others);
      }
    case Store(i, o, b) =>
      if i < |before| { OwnsMeans(before, held, a.live, others, i); }
      if i < |before| && before[i].ptr != 0 && o < before[i].size {
        Stored(a, i, o, b, before, held, m0, others);
        answer := Granted;
        handles := Appended(a, before, Changed(held, r, answer), m0, others);
      } else {
        handles := Appended(a, before, held, m0, others);
      }
  }

  /** What the k-th answer says. With memory enough for all requests only improper ones are refused. */
  ghost predicate Answered(reqs: seq<Request>, answers: seq<Answer>, k: nat, plenty: bool)
    requires k < |reqs| && k < |answers|
  {
    var held := Held(reqs[..k], answers[..k]);
    && (Improper(held, reqs[k]) ==> answers[k].Refused?)
    && (answers[k].Refused? && plenty ==> Improper(held, reqs[k]))
    && (answers[k].Lost? ==> MayLose(held, reqs[k]))
  }

  ghost predicate AllAnswered(reqs: seq<Request>, answers: seq<Answer>, plenty: bool)
  {
    |answers| <= |reqs| && forall k :: 0 <= k < |answers| ==> Answered(reqs, answers, k, plenty)
  }

  /**
   * Over every sequence of requests the invariant holds, so live payloads stay aligned, inside the
   * heap and apart; every handle has as many bytes as were asked for, and its memory holds what the
   * client knows of it; and memory that others hold keeps its contents.
   */
  method Serve(a: Allocator, reqs: seq<Request>) returns (handles: seq<Handle>, ghost answers: seq<Answer>)
    requires AllocatorOK(a.mem[..], a.brk, a.B, a.fl, a.live)
    modifies a.mem, a`brk, a`B, a`fl, a`live
    ensures AllocatorOK(a.mem[..], a.brk, a.B, a.fl, a.live) && Intact(a.brk, a.live)
    ensures LiveKept(old(a.mem[..]), a.mem[..], old(a.live))
    ensures |handles| == |answers| == |reqs| && Owned(handles, Held(reqs, answers), a.live, old(a.live))
    ensures Faithful(a.mem[..], handles, Held(reqs, answers))
    ensures AllAnswered(reqs, answers, old(a.brk) + Demands(reqs) <= a.mem.Length)
  {
    hide *;
    handles, answers := [], [];
    ghost var m0, others, brk0 := a.mem[..], a.live, a.brk;
    GoodStart(m0, a.brk, a.B, a.fl, others, reqs);
    for i := 0 to |reqs|
      invariant |answers| == i && a.brk <= brk0 + Demands(reqs[..i])
      invariant Good(a.mem[..], a.brk, a.B, a.fl, a.live, handles, Held(reqs[..i], answers), m0, others)
      invariant AllAnswered(reqs, answers, brk0 + Demands(reqs) <= a.mem.Length)
    {
      ghost var held := Held(reqs[..i], answers);
      ghost var answer;
      handles, answer := ServeOne(a, reqs[i], handles, held, m0, others);
      OneMore(reqs, answers, answer, i, brk0, a.mem.Length);
      answers := answers + [answer];
    }
    assert reqs[..|reqs|] == reqs;
    GoodMeans(a.mem[..], a.brk, a.B, a.fl, a.live, handles, Held(reqs, answers), m0, others);
    InvariantMeansIntact(a.mem[..], a.brk, a.B, a.fl, a.live);
  }

  lemma GoodStart(m: seq<nat>, brk: nat, B: Blocks, fl: seq<seq<nat>>, live: map<nat, nat>, reqs: seq<Request>)
    requires AllocatorOK(m, brk, B, fl, live)
    ensures Good(m, brk, B, fl, live, [], Held(reqs[..0], []), m, live) && Demands(reqs[..0]) == 0
    ensures forall plenty :: AllAnswered(reqs, [], plenty)
  {
    hide AllocatorOK;
  }

  lemma {:induction false} DemandsMore(reqs: seq<Request>, i: nat)
    requires i <= |reqs|
    ensures Demands(reqs[..i]) <= Demands(reqs)
  {
    if i < |reqs| {
      var n := |reqs| - 1;
      assert reqs[..n][..i] == reqs[..i];
      DemandsMore(reqs[..n], i);
    } else {
      assert reqs[..i] == reqs;
    }
  }

  lemma OneMore(reqs: seq<Request>, answers: seq<Answer>, answer: Answer, i: nat, brk: nat, limit: nat)
    requires i < |reqs| && |answers| == i && AllAnswered(reqs, answers, brk + Demands(reqs) <= limit)
    requires var held := Held(reqs[..i], answers);
      && (Improper(held, reqs[i]) ==> answer.Refused?)
      && (answer.Refused? && !Improper(held, reqs[i]) ==> brk + Demands(reqs[..i]) + Demand(reqs[i]) > limit)
      && (answer.Lost? ==> MayLose(held, reqs[i]))
    ensures Held(reqs[..i + 1], answers + [answer]) == Next(Held(reqs[..i], answers), reqs[i], answer)
    ensures Demands(reqs[..i + 1]) == Demands(reqs[..i]) + Demand(reqs[i])
    ensures AllAnswered(reqs, answers + [answer], brk + Demands(reqs) <= limit)
  {
    hide Improper, MayLose, Next, Demand, Answered;
    var answers', plenty := answers + [answer], brk + Demands(reqs) <= limit;
    assert reqs[..i + 1][..i] == reqs[..i] && answers'[..i] == answers;
    DemandsMore(reqs, i + 1);
    forall k | 0 <= k < i + 1 ensures Answered(reqs, answers', k, plenty) {
      if k < i {
        SameAnswer(reqs, answers, answer, k, plenty);
      } else {
        LastAnswer(reqs, answers, answer, plenty);
      }
    }
  }

  lemma SameAnswer(reqs: seq<Request>, answers: seq<Answer>, answer: Answer, k: nat, plenty: bool)
    requires k < |answers| <= |reqs| && Answered(reqs, answers, k, plenty)
    ensures Answered(reqs, answers + [answer], k, plenty)
  {
    hide Improper, MayLose, Held;
    assert (answers + [answer])[..k] == answers[..k];
  }

  lemma LastAnswer(reqs: seq<Request>, answers: seq<Answer>, answer: Answer, plenty: bool)
    requires |answers| < |reqs|
    requires var k := |answers|; var held := Held(reqs[..k], answers);
      && (Improper(held, reqs[k]) ==> answer.Refused?) && (answer.Refused? && plenty ==> Improper(held, reqs[k]))
      && (answer.Lost? ==> MayLose(held, reqs[k]))
    ensures Answered(reqs, answers + [answer], |answers|, plenty)
  {
    hide Improper, MayLose, Held;
    assert (answers + [answer])[..|answers|] == answers;
  }
}
