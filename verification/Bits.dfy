/** Powers of two, integer logarithms and the bits of a natural number.
    Logarithms replace the floating-point log2 of the allocator: floor and ceiling
    agree with it on every size and every 32-bit half that the allocator passes. */
module Bits {

  type Byte = b: nat | b < 256

  function Min(a: nat, b: nat): nat
  {
    if a <= b then a else b
  }

  function Pow2(k: nat): (p: nat)
    ensures p >= 1
  {
    if k == 0 then 1 else 2 * Pow2(k - 1)
  }

  lemma {:induction false} Pow2Monotone(j: nat, k: nat)
    requires j <= k
    ensures Pow2(j) <= Pow2(k)
    decreases k
  {
    if j < k { Pow2Monotone(j, k - 1); }
  }

  lemma {:induction false} Pow2Add(j: nat, k: nat)
    ensures Pow2(j + k) == Pow2(j) * Pow2(k)
  {
    if j > 0 {
      Pow2Add(j - 1, k);
      assert Pow2(j) * Pow2(k) == 2 * (Pow2(j - 1) * Pow2(k));
    }
  }

  lemma Pow2Four()
    ensures Pow2(0) == 1 && Pow2(4) == 16
  {
    assert Pow2(2) == 4;
  }

  /** The powers of two that masks, maps and sizes are made of. */
  lemma Pow2Values()
    ensures Pow2(4) == 16 && Pow2(8) == 0x100 && Pow2(32) == 0x1_0000_0000 && Pow2(40) == 0x100_0000_0000
    ensures Pow2(64) == 0x1_0000_0000_0000_0000
  {
    hide Pow2;
    Pow2Four();
    Pow2Add(4, 4);
    Pow2Add(8, 8);
    Pow2Add(16, 16);
    Pow2Add(8, 32);
    Pow2Add(32, 32);
  }

  /** Floor of the base-2 logarithm; 0 for 0. */
  function FloorLog2(n: nat): nat
  {
    if n < 2 then 0 else 1 + FloorLog2(n / 2)
  }

  /** Ceiling of the base-2 logarithm; 0 for 0. */
  function CeilLog2(n: nat): nat
  {
    if n <= 1 then 0 else 1 + FloorLog2(n - 1)
  }

  lemma {:induction false} FloorLog2Bounds(n: nat)
    requires n >= 1
    ensures Pow2(FloorLog2(n)) <= n < Pow2(FloorLog2(n) + 1)
  {
    if n >= 2 {
      FloorLog2Bounds(n / 2);
    } else {
      assert Pow2(1) == 2;
    }
  }

  lemma CeilLog2Bounds(n: nat)
    requires n >= 2
    ensures CeilLog2(n) >= 1 && Pow2(CeilLog2(n) - 1) < n <= Pow2(CeilLog2(n))
  {
    FloorLog2Bounds(n - 1);
  }

  lemma {:induction false} CeilLog2AtMost(n: nat, k: nat)
    requires n <= Pow2(k)
    ensures CeilLog2(n) <= k
  {
    if n >= 2 && CeilLog2(n) > k {
      CeilLog2Bounds(n);
      Pow2Monotone(k, CeilLog2(n) - 1);
    }
  }

  /** A logarithm can be taken on the high part alone, as long as that part is not zero. */
  lemma {:induction false} FloorLog2HighPart(n: nat, k: nat)
    requires n >= Pow2(k)
    ensures n / Pow2(k) >= 1 && FloorLog2(n) == FloorLog2(n / Pow2(k)) + k
    decreases k
  {
    if k > 0 {
      var half := Pow2(k - 1);
      assert n / 2 >= half;
      FloorLog2HighPart(n / 2, k - 1);
      assert n / 2 / half == n / (2 * half) by { DivDiv(n, half); }
    }
  }

  lemma DivDiv(n: nat, d: nat)
    requires d >= 1
    ensures n / 2 / d == n / (2 * d)
  {
    var q, r := n / 2 / d, n / 2 % d;
    var t := n % 2;
    assert n == 2 * (n / 2) + t;
    assert n / 2 == q * d + r;
    assert n == q * (2 * d) + (2 * r + t);
    assert 2 * r + t < 2 * d;
    DivUnique(n, 2 * d, q, 2 * r + t);
  }

  lemma DivUnique(n: nat, d: nat, q: nat, r: nat)
    requires d >= 1 && r < d && n == q * d + r
    ensures n / d == q && n % d == r
  {
    var q', r' := n / d, n % d;
    assert (q - q') * d == q * d - q' * d;
    SmallMultiple(q - q', d, r' - r);
  }

  /** The low byte of a remainder by 256 * p, and the rest of it. */
  lemma ModSplit(val: nat, p: nat)
    requires p >= 1
    ensures val % (256 * p) % 256 == val % 256 && val % (256 * p) / 256 == val / 256 % p
  {
    var q, r := val / 256, val % 256;
    var a, b := q / p, q % p;
    assert val == a * (256 * p) + (256 * b + r) by {
      assert q == a * p + b;
      assert 256 * q == a * (256 * p) + 256 * b;
    }
    DivUnique(val, 256 * p, a, 256 * b + r);
  }

  lemma SmallMultiple(k: int, d: int, x: int)
    requires d >= 1 && -d < x < d
    requires k * d == x
    ensures k == 0
  {
    assert k >= 1 ==> k * d >= d;
    assert k <= -1 ==> k * d <= -d;
  }

  /** Bit k of w, counted from the least significant. */
  predicate Bit(w: nat, k: nat)
  {
    if k == 0 then w % 2 == 1 else Bit(w / 2, k - 1)
  }

  /** Halving, on numbers alone. */
  lemma HalfPlus(w: nat, p: nat)
    ensures (w + 2 * p) / 2 == w / 2 + p && (w + 2 * p) % 2 == w % 2
  {
    DivUnique(w + 2 * p, 2, w / 2 + p, w % 2);
  }

  lemma HalfMinus(w: nat, p: nat)
    requires p <= w / 2
    ensures 2 * p <= w && (w - 2 * p) / 2 == w / 2 - p && (w - 2 * p) % 2 == w % 2
  {
    assert w == 2 * (w / 2) + w % 2;
    DivUnique(w - 2 * p, 2, w / 2 - p, w % 2);
  }

  lemma HalfBelow(w: nat, h: nat)
    ensures w < 2 * h ==> w / 2 < h
    ensures w < 2 * h && w % 2 == 0 ==> w + 1 < 2 * h
  {
    assert w == 2 * (w / 2) + w % 2;
  }

  lemma DoubleBelow(w: nat, p: nat, h: nat)
    requires w / 2 + p < h
    ensures w + 2 * p < 2 * h
  {
    assert w == 2 * (w / 2) + w % 2;
  }

  lemma Pow2Twice(k: nat)
    requires k > 0
    ensures Pow2(k) == 2 * Pow2(k - 1)
  {
  }

  lemma Pow2Zero()
    ensures Pow2(0) == 1
  {
  }

  lemma {:induction false} SetBit(w: nat, k: nat, j: nat)
    requires !Bit(w, k)
    ensures Bit(w + Pow2(k), j) <==> j == k || Bit(w, j)
    decreases k
  {
    hide Pow2;
    if k > 0 {
      Pow2Twice(k);
      HalfPlus(w, Pow2(k - 1));
      if j > 0 { SetBit(w / 2, k - 1, j - 1); }
    } else {
      Pow2Zero();
      assert (w + 1) / 2 == w / 2;
    }
  }

  lemma {:induction false} BitAtLeast(w: nat, k: nat)
    requires Bit(w, k)
    ensures Pow2(k) <= w
  {
    if k > 0 { BitAtLeast(w / 2, k - 1); }
  }

  lemma {:induction false} ClearBit(w: nat, k: nat, j: nat)
    requires Bit(w, k)
    ensures Pow2(k) <= w
    ensures Bit(w - Pow2(k), j) <==> j != k && Bit(w, j)
    decreases k
  {
    hide Pow2;
    BitAtLeast(w, k);
    if k > 0 {
      Pow2Twice(k);
      BitAtLeast(w / 2, k - 1);
      HalfMinus(w, Pow2(k - 1));
      if j > 0 { ClearBit(w / 2, k - 1, j - 1); }
    } else {
      Pow2Zero();
      assert (w - 1) / 2 == w / 2;
    }
  }

  lemma {:induction false} SetBitBound(w: nat, k: nat, n: nat)
    requires k < n && w < Pow2(n) && !Bit(w, k)
    ensures w + Pow2(k) < Pow2(n)
    decreases n
  {
    hide Pow2;
    Pow2Twice(n);
    HalfBelow(w, Pow2(n - 1));
    if k == 0 {
      Pow2Zero();
    } else {
      SetBitBound(w / 2, k - 1, n - 1);
      Pow2Twice(k);
      DoubleBelow(w, Pow2(k - 1), Pow2(n - 1));
    }
  }

  lemma {:induction false} NonZeroHasBit(w: nat, n: nat) returns (k: nat)
    requires 0 < w < Pow2(n)
    ensures k < n && Bit(w, k)
  {
    if w % 2 == 1 {
      k := 0;
      assert n > 0;
    } else {
      k := NonZeroHasBit(w / 2, n - 1);
      k := k + 1;
    }
  }

  /** The highest one of the complement of w is the highest zero of w. */
  lemma {:induction false} HighestClearBit(w: nat, n: nat)
    requires w < Pow2(n) - 1
    ensures var f := FloorLog2(Pow2(n) - 1 - w);
            f < n && !Bit(w, f) && forall j :: f < j < n ==> Bit(w, j)
  {
    var c := Pow2(n) - 1 - w;
    if n == 1 {
      assert w == 0;
    } else if c == 1 {
      AllOnesButLowest(w, n);
    } else {
      var h := w / 2;
      assert Pow2(n) == 2 * Pow2(n - 1);
      assert c / 2 == Pow2(n - 1) - 1 - h;
      HighestClearBit(h, n - 1);
      var f := FloorLog2(c / 2);
      assert FloorLog2(c) == f + 1;
      forall j | f + 1 < j < n ensures Bit(w, j) {
        assert Bit(h, j - 1);
      }
    }
  }

  lemma {:induction false} AllOnesButLowest(w: nat, n: nat)
    requires n >= 1 && w == Pow2(n) - 2
    ensures !Bit(w, 0) && forall j :: 0 < j < n ==> Bit(w, j)
  {
    assert Pow2(n) == 2 * Pow2(n - 1);
    forall j | 0 < j < n ensures Bit(w, j) {
      assert w / 2 == Pow2(n - 1) - 1;
      AllOnes(n - 1, j - 1);
    }
  }

  lemma {:induction false} AllOnes(n: nat, j: nat)
    requires j < n
    ensures Bit(Pow2(n) - 1, j)
  {
    if j > 0 {
      assert (Pow2(n) - 1) / 2 == Pow2(n - 1) - 1;
      AllOnes(n - 1, j - 1);
    }
  }
}
