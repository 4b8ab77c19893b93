/** memlib.c: the arena behind the heap, and its copying and filling a word at a time. */
module MemLib {
  import opened Bits

  const WORD := 8

  /** A little-endian number. */
  function Value(s: seq<Byte>): nat
  {
    if s == [] then 0 else s[0] + 256 * Value(s[1..])
  }

  /** The low k bytes of a number. */
  function Bytes(val: nat, k: nat): (s: seq<Byte>)
    ensures |s| == k
  {
    if k == 0 then [] else [val % 256] + Bytes(val / 256, k - 1)
  }

  function Pow256(k: nat): (p: nat)
    ensures p >= 1
  {
    if k == 0 then 1 else 256 * Pow256(k - 1)
  }

  lemma LowByte(s: seq<Byte>)
    requires s != []
    ensures Value(s) % 256 == s[0] && Value(s) / 256 == Value(s[1..])
  {
    DivUnique(Value(s), 256, Value(s[1..]), s[0]);
  }

  lemma {:induction false} BytesOfValue(s: seq<Byte>, k: nat)
    requires k <= |s|
    ensures Bytes(Value(s), k) == s[..k]
  {
    if k > 0 {
      BytesOfValue(s[1..], k - 1);
      LowByte(s);
      hide Value;
      assert s[..k] == [s[0]] + s[1..][..k - 1];
    }
  }

  /** Masking a number to k bytes keeps its low k bytes. */
  lemma {:induction false} BytesMasked(val: nat, k: nat)
    ensures Bytes(val % Pow256(k), k) == Bytes(val, k)
  {
    if k > 0 {
      ModSplit(val, Pow256(k - 1));
      BytesMasked(val / 256, k - 1);
    }
  }

  lemma {:induction false} ValueBound(s: seq<Byte>)
    ensures Value(s) < Pow256(|s|)
  {
    if s != [] { ValueBound(s[1..]); }
  }

  function Repeat(b: Byte, k: nat): (s: seq<Byte>)
    ensures |s| == k && forall i :: 0 <= i < k ==> s[i] == b
  {
    seq(k, _ => b)
  }

  lemma {:induction false} ValueAppend(s: seq<Byte>, b: Byte)
    ensures Value(s + [b]) == Value(s) + b * Pow256(|s|)
  {
    if s == [] {
      assert s + [b] == [b];
      assert Value([b]) == b + 256 * Value([]);
    } else {
      ValueAppend(s[1..], b);
      assert (s + [b])[1..] == s[1..] + [b];
      assert 256 * (b * Pow256(|s| - 1)) == b * (256 * Pow256(|s| - 1));
    }
  }

  /** The memory with the n bytes from dst on replaced by s. */
  function Written(m: seq<Byte>, dst: nat, s: seq<Byte>): (z: seq<Byte>)
    requires dst + |s| <= |m|
    ensures |z| == |m|
  {
    m[..dst] + s + m[dst + |s|..]
  }

  // ---------- copying a word at a time ----------

  /** The memory after n bytes were copied word by word, first to last. */
  function WordCopied(m: seq<Byte>, dst: nat, src: nat, n: nat): (z: seq<Byte>)
    requires dst + n <= |m| && src + n <= |m|
    ensures |z| == |m|
    decreases n
  {
    if n < WORD then Written(m, dst, m[src..src + n])
    else WordCopied(Written(m, dst, m[src..src + WORD]), dst + WORD, src + WORD, n - WORD)
  }

  /** The target lies behind the source and in it, and the copy takes more than one word. */
  predicate CopyClobbers(dst: nat, src: nat, n: nat)
  {
    src < dst < src + n && n > WORD
  }

  lemma CopyFirst(m: seq<Byte>, dst: nat, src: nat, n: nat)
    requires dst + n <= |m| && src + n <= |m| && n >= WORD
    ensures WordCopied(m, dst, src, n) ==
      WordCopied(Written(m, dst, m[src..src + WORD]), dst + WORD, src + WORD, n - WORD)
  {
  }

  lemma CopyTail(m: seq<Byte>, dst: nat, src: nat, n: nat)
    requires dst + n <= |m| && src + n <= |m| && n < WORD
    ensures WordCopied(m, dst, src, n) == Written(m, dst, m[src..src + n]) &&
      (n == 0 ==> WordCopied(m, dst, src, n) == m)
  {
  }

  lemma WrittenAt(m: seq<Byte>, dst: nat, s: seq<Byte>, x: nat)
    requires dst + |s| <= |m| && x < |m|
    ensures Written(m, dst, s)[x] == if dst <= x < dst + |s| then s[x - dst] else m[x]
  {
  }

  /** Bytes in front of the target stay. */
  lemma {:induction false} CopyKeepsBefore(m: seq<Byte>, dst: nat, src: nat, n: nat, x: nat)
    requires dst + n <= |m| && src + n <= |m| && x < dst
    ensures WordCopied(m, dst, src, n)[x] == m[x]
    decreases n
  {
    hide Written;
    WrittenAt(m, dst, m[src..src + if n < WORD then n else WORD], x);
    if n >= WORD { CopyKeepsBefore(Written(m, dst, m[src..src + WORD]), dst + WORD, src + WORD, n - WORD, x); }
  }

  /** Then the copy is the byte-wise one. */
  lemma {:induction false} CopyIsBytewise(m: seq<Byte>, dst: nat, src: nat, n: nat)
    requires dst + n <= |m| && src + n <= |m| && !CopyClobbers(dst, src, n)
    ensures WordCopied(m, dst, src, n) == Written(m, dst, m[src..src + n])
    decreases n
  {
    hide Written, WordCopied;
    if n >= WORD {
      CopyFirst(m, dst, src, n);
      CopyIsBytewise(Written(m, dst, m[src..src + WORD]), dst + WORD, src + WORD, n - WORD);
      WrittenTwice(m, dst, src, n);
    } else {
      CopyTail(m, dst, src, n);
    }
  }

  lemma WrittenTwice(m: seq<Byte>, dst: nat, src: nat, n: nat)
    requires dst + n <= |m| && src + n <= |m| && !CopyClobbers(dst, src, n) && n >= WORD
    ensures var m1 := Written(m, dst, m[src..src + WORD]);
      Written(m1, dst + WORD, m1[src + WORD..src + n]) == Written(m, dst, m[src..src + n])
  {
    var m1 := Written(m, dst, m[src..src + WORD]);
    assert m1[src + WORD..src + n] == m[src + WORD..src + n];
  }

  /** A byte of the source in front of the target is copied as it is. */
  lemma {:induction false} CopyOfBefore(m: seq<Byte>, dst: nat, src: nat, n: nat, o: nat)
    requires dst + n <= |m| && src + n <= |m| && o < n && src + o < dst
    ensures WordCopied(m, dst, src, n)[dst + o] == m[src + o]
    decreases n
  {
    hide Written;
    var first := m[src..src + if n < WORD then n else WORD];
    WrittenAt(m, dst, first, dst + o);
    WrittenAt(m, dst, first, src + o);
    if n >= WORD {
      var m1 := Written(m, dst, m[src..src + WORD]);
      if o < WORD {
        CopyKeepsBefore(m1, dst + WORD, src + WORD, n - WORD, dst + o);
      } else {
        CopyOfBefore(m1, dst + WORD, src + WORD, n - WORD, o - WORD);
      }
    }
  }

  /** A byte that the first word has overwritten is copied as the first word left it. */
  lemma CopySecondHand(m: seq<Byte>, dst: nat, src: nat, n: nat, o: nat)
    requires dst + n <= |m| && src + n <= |m| && src < dst && WORD <= o < n && 0 <= o - (dst - src) < WORD
    ensures WordCopied(m, dst, src, n)[dst + o] == m[src + (o - (dst - src))]
  {
    hide Written;
    var m1 := Written(m, dst, m[src..src + WORD]);
    WrittenAt(m, dst, m[src..src + WORD], src + o);
    CopyOfBefore(m1, dst + WORD, src + WORD, n - WORD, o - WORD);
  }

  lemma CopyClobbered(len: nat, dst: nat, src: nat, n: nat) returns (m: seq<Byte>)
    requires dst + n <= len && src + n <= len && CopyClobbers(dst, src, n)
    ensures |m| == len && WordCopied(m, dst, src, n) != Written(m, dst, m[src..src + n])
  {
    hide Written, WordCopied;
    var d := dst - src;
    var o := if d < WORD then WORD else d;
    m := seq(len, i => if i == src + o - d then 1 else 0);
    CopySecondHand(m, dst, src, n, o);
    WrittenAt(m, dst, m[src..src + n], dst + o);
  }

  /** On these ranges of an arena the copy is byte-wise for all contents exactly when it does not clobber its source. */
  lemma CopyExactlyWhen(len: nat, dst: nat, src: nat, n: nat)
    requires dst + n <= len && src + n <= len
    ensures !CopyClobbers(dst, src, n) <==>
      forall m: seq<Byte> :: |m| == len ==> WordCopied(m, dst, src, n) == Written(m, dst, m[src..src + n])
  {
    hide Written, WordCopied;
    if CopyClobbers(dst, src, n) {
      var m := CopyClobbered(len, dst, src, n);
    } else {
      forall m: seq<Byte> | |m| == len ensures WordCopied(m, dst, src, n) == Written(m, dst, m[src..src + n]) {
        CopyIsBytewise(m, dst, src, n);
      }
    }
  }

  class Memory {
    const heap: array<Byte>
    var brk: nat       // mem_brk - heap; mem_max_addr is the end of the array

    constructor (size: nat)
      ensures heap.Length == size && brk == 0 && fresh(heap)
    {
      heap := new Byte[size](_ => 0);
      brk := 0;
    }

    /** mem_sbrk: the start of the new area, or -1; the heap never shrinks and never outgrows the arena. */
    method Sbrk(incr: int) returns (start: int)
      requires brk <= heap.Length
      modifies this`brk
      ensures old(brk) <= brk <= heap.Length
      ensures 0 <= incr <= heap.Length - old(brk) ==> start == old(brk) && brk == old(brk) + incr
      ensures !(0 <= incr <= heap.Length - old(brk)) ==> start == -1 && brk == old(brk)
    {
      var oldBrk := brk;
      var ok := true;
      if incr < 0 {
        ok := false;
      } else if brk + incr > heap.Length {
        ok := false;
      }
      if ok {
        brk := brk + incr;
        return oldBrk;
      } else {
        return -1;
      }
    }

    /** mem_read: always a load of eight bytes, masked to len. */
    method Read(addr: nat, len: nat) returns (rdata: nat)
      requires addr + WORD <= heap.Length && len <= WORD
      ensures Bytes(rdata, len) == heap[addr..addr + len] && rdata < Pow256(len)
    {
      hide Pow256;
      rdata := Value(heap[addr..addr + WORD]);
      BytesOfValue(heap[addr..addr + WORD], len);
      ValueBound(heap[addr..addr + WORD]);
      if len < WORD {
        BytesMasked(rdata, len);
        rdata := rdata % Pow256(len);
      }
      assert heap[addr..addr + WORD][..len] == heap[addr..addr + len];
    }

    /** mem_write: the low len bytes of val, one store of the machine. */
    method Write(addr: nat, val: nat, len: nat)
      requires addr + len <= heap.Length && len <= WORD
      modifies heap
      ensures heap[..] == Written(old(heap[..]), addr, Bytes(val, len))
    {
      var s := Bytes(val, len);
      forall i | 0 <= i < len { heap[addr + i] := s[i]; }
    }

    /**
     * mem_memcpy: whole words, then a masked tail. Loads are of whole words, so the source is readable
     * to a word's end.
     */
    method Memcpy(dst: nat, src: nat, n: nat)
      requires dst + n <= heap.Length && src + (n + WORD - 1) / WORD * WORD <= heap.Length
      modifies heap
      ensures heap[..] == WordCopied(old(heap[..]), dst, src, n)
      ensures !CopyClobbers(dst, src, n) ==> heap[..] == Written(old(heap[..]), dst, old(heap[..])[src..src + n])
    {
      hide WordCopied, Written, CopyClobbers;
      ghost var was := heap[..];
      var d: nat, s: nat, left: nat := dst, src, n;
      while left >= WORD
        invariant d + left <= heap.Length && s + (left + WORD - 1) / WORD * WORD <= heap.Length
        invariant WordCopied(heap[..], d, s, left) == WordCopied(was, dst, src, n)
        decreases left
      {
        CopyFirst(heap[..], d, s, left);
        CopyWord(d, s, WORD);
        left := left - WORD;
        s := s + WORD;
        d := d + WORD;
      }
      CopyTail(heap[..], d, s, left);
      if left > 0 {
        CopyWord(d, s, left);
      }
      if !CopyClobbers(dst, src, n) { CopyIsBytewise(was, dst, src, n); }
    }

    /** A load and a store of the same bytes. */
    method CopyWord(dst: nat, src: nat, len: nat)
      requires src + WORD <= heap.Length && len <= WORD && dst + len <= heap.Length
      modifies heap
      ensures heap[..] == Written(old(heap[..]), dst, old(heap[..])[src..src + len])
    {
      hide Written, Bytes;
      var data := Read(src, len);
      assert heap[src..src + len] == heap[..][src..src + len];
      Write(dst, data, len);
    }

    /** mem_memset */
    method Memset(dst: nat, c: int, n: nat)
      requires dst + n <= heap.Length
      modifies heap
      ensures heap[..] == Written(old(heap[..]), dst, Repeat(c % 256, n))
    {
      hide Written, Bytes, Repeat;
      ghost var was := heap[..];
      var byte: Byte := c % 256;
      var data := FillWord(byte);
      var d, left := dst, n;
      FilledNothing(was, dst, byte);
      while left >= WORD
        invariant 0 <= left <= n && d == dst + (n - left)
        invariant heap[..] == Written(was, dst, Repeat(byte, n - left))
        decreases left
      {
        FillStep(was, dst, byte, n - left, WORD);
        Write(d, data, WORD);
        left := left - WORD;
        d := d + WORD;
      }
      if left > 0 {
        BytesFewer(data, left, WORD);
        RepeatFewer(byte, left, WORD);
        FillStep(was, dst, byte, n - left, left);
        Write(d, data, left);
      }
    }

    /** The loop that fills a word; the bits or-ed in do not overlap, so they add up. */
    method FillWord(byte: Byte) returns (data: nat)
      ensures Bytes(data, WORD) == Repeat(byte, WORD)
    {
      data := 0;
      for i := 0 to WORD
        invariant data == Value(Repeat(byte, i))
      {
        ValueAppend(Repeat(byte, i), byte);
        assert Repeat(byte, i) + [byte] == Repeat(byte, i + 1);
        data := data + byte * Pow256(i);
      }
      BytesOfValue(Repeat(byte, WORD), WORD);
    }
  }

  lemma FilledNothing(was: seq<Byte>, dst: nat, byte: Byte)
    requires dst <= |was|
    ensures Written(was, dst, Repeat(byte, 0)) == was
  {
  }

  lemma RepeatFewer(byte: Byte, j: nat, k: nat)
    requires j <= k
    ensures Repeat(byte, k)[..j] == Repeat(byte, j)
  {
  }

  lemma FillStep(was: seq<Byte>, dst: nat, byte: Byte, k: nat, w: nat)
    requires dst + k + w <= |was|
    ensures Written(Written(was, dst, Repeat(byte, k)), dst + k, Repeat(byte, w)) ==
      Written(was, dst, Repeat(byte, k + w))
  {
  }

  lemma {:induction false} BytesFewer(val: nat, j: nat, k: nat)
    requires j <= k
    ensures Bytes(val, j) == Bytes(val, k)[..j]
  {
    if j > 0 { BytesFewer(val / 256, j - 1, k - 1); }
  }
}
