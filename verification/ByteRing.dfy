/** The byte ring: a FIFO of bytes in a circular buffer that keeps one cell free. */
module ByteRing {
  import opened Bits

  class Fifo {
    var buf: array<Byte>
    var head: nat
    var tail: nat
    var size: nat
    var avilSize: int

    /** The indices are inside the buffer. */
    ghost predicate Ring()
      reads `buf, `head, `tail, `size
    {
      buf.Length == size && head < size && tail < size
    }

    /** The bytes written and not yet read, oldest first. */
    ghost function Stored(): (s: seq<Byte>)
      requires Ring()
      reads `buf, `head, `tail, `size, buf
      ensures |s| < size
    {
      if tail <= head then buf[tail..head] else buf[tail..] + buf[..head]
    }

    /** Their number is the distance from tail to head around the ring. */
    lemma StoredLength()
      requires Ring()
      ensures |Stored()| == (head - tail) % size
    {
      if tail <= head { WrapNone(head - tail, size); } else { WrapOnce(head - tail, size); }
    }

    /** avilSize counts the bytes not stored; one of them is never used. */
    ghost predicate Consistent()
      requires Ring()
      reads this, buf
    {
      avilSize == size - |Stored()|
    }

    constructor Init(size: nat)
      requires size >= 1
      ensures Ring() && Consistent() && Stored() == [] && this.size == size && fresh(buf)
    {
      this.head := 0;
      this.tail := 0;
      this.size := size;
      this.avilSize := size;
      this.buf := new Byte[size](_ => 0);
    }

    /**
     * fifo_read: the oldest nbytes bytes, or all there are; avilSize changes only in the first case.
     * A request of nbytes < 0 reads nothing and still moves avilSize.
     */
    method Read(nbytes: int) returns (p: seq<Byte>, n: int)
      requires Ring()
      modifies this`tail, this`avilSize
      ensures Ring()
      ensures nbytes >= 0 ==> n == |p| == Min(nbytes, |old(Stored())|)
      ensures nbytes < 0 ==> n == nbytes && p == []
      ensures p == old(Stored())[..|p|] && Stored() == old(Stored())[|p|..]
      ensures avilSize == old(avilSize) + if n == nbytes then nbytes else 0
    {
      hide Stored;
      ghost var s0 := Stored();
      p := [];
      var i := 0;
      while i < nbytes
        invariant Ring() && avilSize == old(avilSize)
        invariant 0 <= i <= |s0| && (i <= nbytes || i == 0) && p == s0[..i] && Stored() == s0[i..]
      {
        EmptyMeans();
        if tail != head {
          var b := Take();
          p := p + [b];
          i := i + 1;
        } else {
          return p, i;
        }
      }
      avilSize := avilSize + nbytes;
      return p, nbytes;
    }

    /** fifo_write: as much of p as fits; avilSize shrinks only when all of it does. */
    method Write(p: seq<Byte>) returns (n: nat)
      requires Ring()
      modifies this`head, this`avilSize, buf
      ensures Ring()
      ensures n == Min(|p|, size - 1 - |old(Stored())|)
      ensures Stored() == old(Stored()) + p[..n]
      ensures avilSize == old(avilSize) - if n == |p| then |p| else 0
    {
      hide Stored;
      ghost var s0 := Stored();
      for i := 0 to |p|
        invariant Ring() && avilSize == old(avilSize)
        invariant |s0| + i < size && Stored() == s0 + p[..i]
      {
        FullMeans();
        if head + 1 == tail || (head + 1 == size && tail == 0) {
          return i;
        }
        Put(p[i]);
        assert s0 + p[..i] + [p[i]] == s0 + p[..i + 1];
      }
      avilSize := avilSize - |p|;
      assert p[..|p|] == p;
      return |p|;
    }

    /** The test of fifo_write is true exactly when one cell is left. */
    lemma FullMeans()
      requires Ring()
      ensures (head + 1 == tail || (head + 1 == size && tail == 0)) <==> |Stored()| == size - 1
    {
    }

    /** The test of fifo_read. */
    lemma EmptyMeans()
      requires Ring()
      ensures tail != head <==> Stored() != []
    {
    }

    /** The body of fifo_read's loop, when there is something to read. */
    method Take() returns (b: Byte)
      requires Ring() && tail != head
      modifies this`tail
      ensures Ring() && old(Stored()) != [] && b == old(Stored())[0] && Stored() == old(Stored())[1..]
    {
      ghost var s := Stored();
      b := buf[tail];
      tail := tail + 1;
      if tail == size { tail := 0; }
      assert Stored() == s[1..];
    }

    /** The body of fifo_write's loop, when there is room. */
    method Put(b: Byte)
      requires Ring() && !(head + 1 == tail || (head + 1 == size && tail == 0))
      modifies this`head, buf
      ensures Ring() && Stored() == old(Stored()) + [b]
    {
      ghost var s := Stored();
      buf[head] := b;
      head := head + 1;
      if head == size { head := 0; }
      assert Stored() == s + [b];
    }

    method AvailSize() returns (n: int)
      ensures n == avilSize
    {
      n := avilSize;
    }
  }

  lemma WrapNone(x: int, n: int)
    requires 0 <= x < n
    ensures x % n == x
  {
  }

  lemma WrapOnce(x: int, n: int)
    requires -n < x < 0
    ensures x % n == x + n
  {
    var q, r := x / n, x % n;
    assert (-1 - q) * n == r - (x + n);
    SmallMultiple(-1 - q, n, r - (x + n));
  }
}
