/** The contents of memory, byte by byte, and the word-wise copies that realloc makes of them. */
module Contents {
  import opened Bits

  /** The low r bytes of a word: what mem_read( src, r ) returns for r < 8. */
  function LowBytes(w: nat, r: nat): nat
  {
    w % Pow2(8 * r)
  }

  /** What mem_write( dst, val, r ) makes of the word w: the low r bytes become those of val. */
  function WithLowBytes(w: nat, val: nat, r: nat): (v: nat)
  {
    Spliced(w, val, Pow2(8 * r))
  }

  function Spliced(w: nat, val: nat, p: nat): (v: nat)
    requires p >= 1
    ensures v % p == val % p
  {
    Splice(w / p, val % p, p);
    w / p * p + val % p
  }

  lemma Splice(high: nat, low: nat, p: nat)
    requires low < p
    ensures high * p + low >= 0 && (high * p + low) % p == low
  {
    DivUnique(high * p + low, p, high, low);
  }

  lemma LowBytesTwice(w: nat, r: nat)
    ensures LowBytes(LowBytes(w, r), r) == LowBytes(w, r)
  {
    var p := Pow2(8 * r);
    DivUnique(w % p, p, 0, w % p);
  }

  lemma LowBytesWritten(w: nat, val: nat, r: nat)
    ensures LowBytes(WithLowBytes(w, val, r), r) == LowBytes(val, r)
  {
    hide Pow2, Spliced;
  }

  /** The first n bytes from word p of m are the first n bytes from word p' of m':
      whole words agree, and so do the low bytes of the last word. */
  ghost predicate SameBytes(m: seq<nat>, p: nat, m': seq<nat>, p': nat, n: nat)
  {
    && p + (n + 7) / 8 <= |m| && p' + (n + 7) / 8 <= |m'|
    && m[p..p + n / 8] == m'[p'..p' + n / 8]
    && (n % 8 != 0 ==> LowBytes(m[p + n / 8], n % 8) == LowBytes(m'[p' + n / 8], n % 8))
  }

  lemma SameBytesTransitive(m: seq<nat>, p: nat, m': seq<nat>, p': nat, m'': seq<nat>, p'': nat, n: nat)
    requires SameBytes(m, p, m', p', n) && SameBytes(m', p', m'', p'', n)
    ensures SameBytes(m, p, m'', p'', n)
  {
  }

  /** Whole words that agree also agree on any fewer bytes. */
  lemma SameBytesFewer(m: seq<nat>, p: nat, m': seq<nat>, p': nat, words: nat, n: nat)
    requires SameBytes(m, p, m', p', 8 * words) && n <= 8 * words
    ensures SameBytes(m, p, m', p', n)
  {
    hide LowBytes;
    assert 8 * words / 8 == words && 8 * words % 8 == 0;
    var a, b := m[p..p + words], m'[p'..p' + words];
    assert m[p..p + n / 8] == a[..n / 8] && m'[p'..p' + n / 8] == b[..n / 8];
    if n % 8 != 0 {
      assert m[p + n / 8] == a[n / 8] && m'[p' + n / 8] == b[n / 8];
    }
  }

  lemma SameWords(m: seq<nat>, p: nat, m': seq<nat>, p': nat, words: nat)
    requires p + words <= |m| && p' + words <= |m'| && m[p..p + words] == m'[p'..p' + words]
    ensures SameBytes(m, p, m', p', 8 * words)
  {
    hide LowBytes;
    assert 8 * words / 8 == words && (8 * words + 7) / 8 == words;
  }

  // ---------- single bytes ----------

  /** Byte j of a word, counted from the least significant. */
  function ByteOf(w: nat, j: nat): Byte
  {
    if j == 0 then w % 256 else ByteOf(w / 256, j - 1)
  }

  /** What mem_write( dst + j, b, 1 ) makes of the word w at dst. */
  function WithByte(w: nat, j: nat, b: Byte): nat
  {
    if j == 0 then w / 256 * 256 + b else WithByte(w / 256, j - 1, b) * 256 + w % 256
  }

  lemma {:induction false} ByteWritten(w: nat, j: nat, b: Byte, i: nat)
    ensures ByteOf(WithByte(w, j, b), i) == if i == j then b else ByteOf(w, i)
    decreases j
  {
    var v := WithByte(w, j, b);
    if j == 0 {
      DivUnique(v, 256, w / 256, b);
    } else {
      DivUnique(v, 256, WithByte(w / 256, j - 1, b), w % 256);
      if i > 0 { ByteWritten(w / 256, j - 1, b, i - 1); }
    }
  }

  /** Words with the same r low bytes agree in each of these bytes. */
  lemma {:induction false} BytesAgree(w: nat, v: nat, r: nat, j: nat)
    requires LowBytes(w, r) == LowBytes(v, r) && j < r
    ensures ByteOf(w, j) == ByteOf(v, j)
    decreases j
  {
    Pow2Add(8, 8 * (r - 1));
    Pow2Values();
    ModSplit(w, Pow2(8 * (r - 1)));
    ModSplit(v, Pow2(8 * (r - 1)));
    if j > 0 { BytesAgree(w / 256, v / 256, r - 1, j - 1); }
  }

  /** Byte o of the memory from word p on. */
  function ByteAt(m: seq<nat>, p: nat, o: nat): Byte
    requires p + o / 8 < |m|
  {
    ByteOf(m[p + o / 8], o % 8)
  }

  /** Memory with the same first n bytes agrees in each of them. */
  lemma SameBytesAt(m: seq<nat>, p: nat, m': seq<nat>, p': nat, n: nat, o: nat)
    requires SameBytes(m, p, m', p', n) && o < n
    ensures p + o / 8 < |m| && p' + o / 8 < |m'| && ByteAt(m, p, o) == ByteAt(m', p', o)
  {
    hide ByteOf;
    if o / 8 < n / 8 {
      assert m[p..p + n / 8][o / 8] == m'[p'..p' + n / 8][o / 8];
    } else {
      assert o / 8 == n / 8 && o % 8 < n % 8;
      BytesAgree(m[p + n / 8], m'[p' + n / 8], n % 8, o % 8);
    }
  }

  /** mem_memcpy of n bytes out of the heap, into a local array. */
  method SaveBytes(mem: array<nat>, src: nat, n: nat) returns (temp: seq<nat>)
    requires src + (n + 7) / 8 <= mem.Length
    ensures |temp| == (n + 7) / 8 && SameBytes(mem[..], src, temp, 0, n)
  {
    hide LowBytes;
    temp := [];
    var left: nat := n;
    while left >= 8
      invariant left <= n && 8 * |temp| == n - left
      invariant src + |temp| <= mem.Length && temp == mem[src..src + |temp|]
    {
      temp := temp + [mem[src + |temp|]];
      left := left - 8;
    }
    assert |temp| == n / 8 && left == n % 8;
    ghost var whole := temp;
    if left > 0 {
      temp := temp + [LowBytes(mem[src + |temp|], left)];
      LowBytesTwice(mem[src + n / 8], left);
    }
    assert temp[0..n / 8] == whole == mem[..][src..src + n / 8];
  }

  /** mem_memcpy of n bytes from a local array into the heap. */
  method RestoreBytes(mem: array<nat>, dst: nat, temp: seq<nat>, n: nat)
    requires |temp| == (n + 7) / 8 && dst + |temp| <= mem.Length
    modifies mem
    ensures SameBytes(temp, 0, mem[..], dst, n)
    ensures forall w :: 0 <= w < mem.Length && !(dst <= w < dst + |temp|) ==> mem[w] == old(mem[w])
  {
    hide LowBytes, WithLowBytes;
    var i, left: nat := 0, n;
    while left >= 8
      invariant left <= n && 8 * i == n - left
      invariant i <= |temp| && mem[dst..dst + i] == temp[..i]
      invariant forall w :: 0 <= w < mem.Length && !(dst <= w < dst + i) ==> mem[w] == old(mem[w])
    {
      mem[dst + i] := temp[i];
      i := i + 1;
      left := left - 8;
    }
    assert i == n / 8 && left == n % 8;
    if left > 0 {
      LowBytesWritten(mem[dst + i], temp[i], left);
      mem[dst + i] := WithLowBytes(mem[dst + i], temp[i], left);
    }
    assert mem[..][dst..dst + n / 8] == temp[0..n / 8];
  }

  /** Words copied one by one; when the two ranges overlap, nothing is said. */
  ghost predicate CopiedOver(m: seq<nat>, p: nat, m': seq<nat>, p': nat, words: nat)
  {
    p + words <= p' || p' + words <= p ==> SameBytes(m, p, m', p', 8 * words)
  }

  lemma CopiedApart(m: seq<nat>, p: nat, m': seq<nat>, p': nat, words: nat)
    requires CopiedOver(m, p, m', p', words) && (p + words <= p' || p' + words <= p)
    ensures SameBytes(m, p, m', p', 8 * words)
  {
  }

  /** mem_memcpy of whole words within the heap. */
  method CopyWords(mem: array<nat>, dst: nat, src: nat, words: nat)
    requires src + words <= mem.Length && dst + words <= mem.Length
    modifies mem
    ensures forall w :: 0 <= w < mem.Length && !(dst <= w < dst + words) ==> mem[w] == old(mem[w])
    ensures CopiedOver(old(mem[..]), src, mem[..], dst, words)
  {
    for i := 0 to words
      invariant forall w :: 0 <= w < mem.Length && !(dst <= w < dst + i) ==> mem[w] == old(mem[w])
      invariant dst + words <= src || src + words <= dst ==> mem[dst..dst + i] == old(mem[src..src + i])
    {
      mem[dst + i] := mem[src + i];
    }
    if dst + words <= src || src + words <= dst {
      assert mem[..][dst..dst + words] == mem[dst..dst + words];
      SameWords(old(mem[..]), src, mem[..], dst, words);
    }
  }
}
