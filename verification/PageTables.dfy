/** Page tables of one, two or three levels, as trees: a null pointer, a page table entry, or a table. */
module PageTables {
  import opened Bits

  datatype Node =
    | Null
    | Entry(valid: bool, ppn: nat)
    | Table(slots: seq<Node>)

  const FAULT := -1

  // ---------- the index split of a virtual page number ----------

  /** Num_pagetable_levels and the index widths in bits; a level that is not there has width 0. */
  datatype Layout = Layout(levels: nat, n1: nat, n2: nat, n3: nat)
  {
    predicate Sound()
    {
      && 1 <= levels <= 3 && (levels < 3 ==> n3 == 0) && (levels < 2 ==> n2 == 0)
      && n1 + n2 + n3 <= 32 && n2 + n3 < 32
    }

    /** One more than the largest virtual page number that the tables can hold. */
    function Pages(): nat { Pow2(n1) * Pow2(n2) * Pow2(n3) }

    function Sizes(): (s: seq<nat>)
      requires levels <= 3
      ensures |s| == levels
    {
      [Pow2(n1), Pow2(n2), Pow2(n3)][..levels]
    }

    /** firstLvlIndex, secondLvlIndex and thirdLvlIndex; a shift by k is a division by 2^k. */
    function Path(vpn: nat): (path: seq<int>)
      requires levels <= 3
      ensures |path| == levels
    {
      var first := vpn / Pow2(n2 + n3);
      var second := (vpn - first * Pow2(n2 + n3)) / Pow2(n3);
      var third := vpn - first * Pow2(n2 + n3) - second * Pow2(n3);
      [first, second, third][..levels]
    }

    function Join(path: seq<int>): int
      requires |path| == levels
    {
      (if levels > 0 then path[0] * Pow2(n2 + n3) else 0) +
      (if levels > 1 then path[1] * Pow2(n3) else 0) +
      (if levels > 2 then path[2] else 0)
    }
  }

  predicate Fits(path: seq<int>, sizes: seq<nat>)
  {
    |path| == |sizes| && forall i :: 0 <= i < |path| ==> 0 <= path[i] < sizes[i]
  }

  lemma DivRange(x: nat, a: nat, b: nat)
    requires a > 0 && x < b * a
    ensures 0 <= x / a < b && 0 <= x - x / a * a < a
  {
    if x / a >= b {
      MulMonotone(b, x / a, a);
    }
  }

  lemma MulMonotone(a: int, b: int, k: nat)
    requires a <= b
    ensures a * k <= b * k
  {
  }

  /** The divisions give three digits, and the digits give the number back. */
  lemma SplitDigits(vpn: nat, p1: nat, p2: nat, p3: nat) returns (i1: nat, i2: nat, i3: nat)
    requires p2 > 0 && p3 > 0 && vpn < p1 * (p2 * p3)
    ensures p2 * p3 > 0 && Splits(vpn, i1, i2, i3, p2 * p3, p3) && i1 < p1 && i2 < p2 && i3 < p3
  {
    MulMonotone(1, p2, p3);
    DivRange(vpn, p2 * p3, p1);
    i1 := vpn / (p2 * p3);
    var rest := vpn - i1 * (p2 * p3);
    DivRange(rest, p3, p2);
    i2 := rest / p3;
    i3 := rest - i2 * p3;
  }

  lemma NumberDigits(c: Layout, vpn: nat) returns (i1: nat, i2: nat, i3: nat)
    requires c.Sound() && vpn < c.Pages()
    ensures Splits(vpn, i1, i2, i3, Pow2(c.n2 + c.n3), Pow2(c.n3))
    ensures i1 < Pow2(c.n1) && i2 < Pow2(c.n2) && i3 < Pow2(c.n3)
  {
    hide Pow2, Splits, Layout.Pages;
    Pow2Add(c.n2, c.n3);
    PagesAre(c);
    i1, i2, i3 := SplitDigits(vpn, Pow2(c.n1), Pow2(c.n2), Pow2(c.n3));
  }

  /** Every page number below Pages() has in-range indices, and they determine it. */
  lemma SplitIsInverse(c: Layout, vpn: nat)
    requires c.Sound() && vpn < c.Pages()
    ensures Fits(c.Path(vpn), c.Sizes()) && c.Join(c.Path(vpn)) == vpn
  {
    hide Pow2, Splits, Layout.Path, Layout.Pages, Layout.Join;
    Pow2Zero();
    var i1, i2, i3 := NumberDigits(c, vpn);
    PathOfNumber(c, [i1, i2, i3][..c.levels], vpn, i1, i2, i3);
  }

  /** Every list of in-range indices is the split of one page number: the split is onto. */
  lemma JoinIsInverse(c: Layout, path: seq<int>)
    requires c.Sound() && Fits(path, c.Sizes())
    ensures 0 <= c.Join(path) < c.Pages() && c.Path(c.Join(path)) == path
  {
    hide Pow2, Splits, Layout.Path, Layout.Pages, Layout.Join;
    var i1 := path[0];
    var i2 := if c.levels > 1 then path[1] else 0;
    var i3 := if c.levels > 2 then path[2] else 0;
    Pow2Zero();
    var vpn := DigitsNumber(c, i1, i2, i3);
    PathOfNumber(c, path, vpn, i1, i2, i3);
  }

  /** vpn has these digits, as Path computes them. */
  predicate Splits(vpn: int, i1: int, i2: int, i3: int, p23: nat, p3: nat)
  {
    && p23 > 0 && p3 > 0 && vpn == i1 * p23 + i2 * p3 + i3
    && vpn / p23 == i1 && (vpn - i1 * p23) / p3 == i2
  }

  lemma PagesAre(c: Layout)
    ensures c.Pages() == Pow2(c.n1) * (Pow2(c.n2) * Pow2(c.n3)) == Pow2(c.n1 + (c.n2 + c.n3))
  {
    hide Pow2;
    Pow2Add(c.n2, c.n3);
    Pow2Add(c.n1, c.n2 + c.n3);
  }

  lemma DigitsNumber(c: Layout, i1: nat, i2: nat, i3: nat) returns (vpn: nat)
    requires c.Sound() && i1 < Pow2(c.n1) && i2 < Pow2(c.n2) && i3 < Pow2(c.n3)
    ensures vpn < c.Pages() && Splits(vpn, i1, i2, i3, Pow2(c.n2 + c.n3), Pow2(c.n3))
  {
    hide Pow2, Layout.Pages;
    Pow2Add(c.n2, c.n3);
    PagesAre(c);
    Digits(i1, i2, i3, Pow2(c.n1), Pow2(c.n2), Pow2(c.n3));
    vpn := i1 * (Pow2(c.n2) * Pow2(c.n3)) + i2 * Pow2(c.n3) + i3;
  }

  lemma PathOfNumber(c: Layout, path: seq<int>, vpn: nat, i1: int, i2: int, i3: int)
    requires c.Sound() && path == [i1, i2, i3][..c.levels]
    requires (c.levels < 2 ==> i2 == 0) && (c.levels < 3 ==> i3 == 0)
    requires Splits(vpn, i1, i2, i3, Pow2(c.n2 + c.n3), Pow2(c.n3))
    ensures c.Join(path) == vpn && c.Path(vpn) == path
  {
    hide Pow2;
  }

  /** Three digits and the divisions that get them back. */
  lemma Digits(i1: nat, i2: nat, i3: nat, p1: nat, p2: nat, p3: nat)
    requires i1 < p1 && i2 < p2 && i3 < p3
    ensures var p23 := p2 * p3; var vpn := i1 * p23 + i2 * p3 + i3;
      && p23 > 0 && vpn < p1 * p23 && vpn / p23 == i1
      && (vpn - i1 * p23) / p3 == i2 && vpn - i1 * p23 - i2 * p3 == i3
  {
    JoinDigit(i2, i3, p2, p3);
    JoinDigit(i1, i2 * p3 + i3, p1, p2 * p3);
  }

  lemma JoinDigit(high: nat, low: nat, highs: nat, lows: nat)
    requires high < highs && low < lows
    ensures high * lows + low < highs * lows && (high * lows + low) / lows == high
  {
    MulMonotone(high + 1, highs, lows);
    var x := high * lows + low;
    DivUnique(x, lows, high, low);
  }

  // ---------- walking, adding and deleting ----------

  /** The node has the form of a page table with these table sizes. */
  predicate Shaped(n: Node, sizes: seq<nat>)
    decreases |sizes|
  {
    if sizes == [] then !n.Table?
    else n.Null? ||
         (n.Table? && |n.slots| == sizes[0] &&
          forall i :: 0 <= i < |n.slots| ==> Shaped(n.slots[i], sizes[1..]))
  }

  /** findPTE from one level down: the ppn, or FAULT. */
  function Find(n: Node, path: seq<int>): (ppn: int)
    ensures ppn >= FAULT
    decreases |path|
  {
    if path == [] then (if n.Entry? && n.valid then n.ppn else FAULT)
    else if n.Table? && 0 <= path[0] < |n.slots| then Find(n.slots[path[0]], path[1..])
    else FAULT
  }

  function Nulls(size: nat): (s: seq<Node>)
    ensures |s| == size && forall i :: 0 <= i < size ==> s[i] == Null
  {
    seq(size, _ => Null)
  }

  /** addPTE from one level down: missing tables are made on the way. */
  function Insert(n: Node, path: seq<int>, sizes: seq<nat>, ppn: nat): Node
    requires Fits(path, sizes) && Shaped(n, sizes)
    decreases |path|
  {
    if path == [] then Entry(true, ppn)
    else
      var slots := if n.Table? then n.slots else Nulls(sizes[0]);
      Table(slots[path[0] := Insert(slots[path[0]], path[1..], sizes[1..], ppn)])
  }

  predicate AllNull(slots: seq<Node>)
  {
    forall i :: 0 <= i < |slots| ==> slots[i] == Null
  }

  /** Entries that are not valid, or beyond the frame table, are thrown away. */
  function Sweep(slots: seq<Node>, frames: nat): (s: seq<Node>)
    ensures |s| == |slots|
    ensures forall i :: 0 <= i < |s| ==>
      s[i] == if slots[i].Entry? && (slots[i].ppn >= frames || !slots[i].valid) then Null else slots[i]
  {
    seq(|slots|, i requires 0 <= i < |slots| =>
      if slots[i].Entry? && (slots[i].ppn >= frames || !slots[i].valid) then Null else slots[i])
  }

  /**
   * deletePTE from one level down. A table that is left without entries is freed unless it is the
   * top-level one; the lowest table of three levels is swept first.
   */
  function Delete(n: Node, path: seq<int>, frames: nat, sweeps: bool, top: bool): Node
    decreases |path|
  {
    if Find(n, path) == FAULT then n
    else if path == [] then Null
    else
      var s := n.slots[path[0] := Delete(n.slots[path[0]], path[1..], frames, sweeps, false)];
      var left := if sweeps && |path| == 1 then Sweep(s, frames) else s;
      if AllNull(left) && !top then Null else Table(left)
  }

  /** No table below this one is empty. */
  predicate Pruned(n: Node)
  {
    n.Table? ==> forall i :: 0 <= i < |n.slots| ==>
      Pruned(n.slots[i]) && (n.slots[i].Table? ==> !AllNull(n.slots[i].slots))
  }

  lemma TailFits(path: seq<int>, sizes: seq<nat>)
    requires Fits(path, sizes) && path != []
    ensures Fits(path[1..], sizes[1..]) && 0 <= path[0] < sizes[0]
  {
  }

  lemma {:induction false} InsertShaped(n: Node, path: seq<int>, sizes: seq<nat>, ppn: nat)
    requires Fits(path, sizes) && Shaped(n, sizes)
    ensures Shaped(Insert(n, path, sizes, ppn), sizes)
    decreases |path|
  {
    if path != [] {
      var slots := if n.Table? then n.slots else Nulls(sizes[0]);
      InsertShaped(slots[path[0]], path[1..], sizes[1..], ppn);
    }
  }

  /** A walk after an add: the new frame at that page, and at every other page what was there. */
  lemma {:induction false} FindInsert(n: Node, path: seq<int>, sizes: seq<nat>, ppn: nat, other: seq<int>)
    requires Fits(path, sizes) && Fits(other, sizes) && Shaped(n, sizes)
    ensures Find(Insert(n, path, sizes, ppn), other) == if other == path then ppn else Find(n, other)
    decreases |path|
  {
    if path == [] {
      assert other == path;
    } else {
      var slots := if n.Table? then n.slots else Nulls(sizes[0]);
      TailFits(path, sizes);
      TailFits(other, sizes);
      if other[0] == path[0] {
        FindInsert(slots[path[0]], path[1..], sizes[1..], ppn, other[1..]);
        assert other == path <==> other[1..] == path[1..] by { HeadTail(other, path); }
      }
      if !n.Table? { FindNull(other[1..]); }
    }
  }

  lemma HeadTail(a: seq<int>, b: seq<int>)
    requires |a| == |b| > 0 && a[0] == b[0]
    ensures a == b <==> a[1..] == b[1..]
  {
    assert a == [a[0]] + a[1..] && b == [b[0]] + b[1..];
  }

  lemma FindNull(path: seq<int>)
    ensures Find(Null, path) == FAULT
  {
  }

  lemma {:induction false} DeleteShaped(n: Node, path: seq<int>, sizes: seq<nat>, frames: nat, sweeps: bool, top: bool)
    requires Fits(path, sizes) && Shaped(n, sizes)
    ensures Shaped(Delete(n, path, frames, sweeps, top), sizes)
    decreases |path|
  {
    if path != [] && Find(n, path) != FAULT {
      DeleteShaped(n.slots[path[0]], path[1..], sizes[1..], frames, sweeps, false);
    }
  }

  /** A walk after a delete: a fault at that page, and at every other page what was there. */
  lemma {:induction false} FindDelete(n: Node, path: seq<int>, sizes: seq<nat>, frames: nat, sweeps: bool, top: bool,
                                      other: seq<int>)
    requires Fits(path, sizes) && Fits(other, sizes) && Shaped(n, sizes) && Find(n, other) < frames
    ensures Find(Delete(n, path, frames, sweeps, top), other) == if other == path then FAULT else Find(n, other)
    decreases |path|
  {
    if Find(n, path) == FAULT || path == [] {
      assert path == [] ==> other == path;
    } else {
      TailFits(path, sizes);
      TailFits(other, sizes);
      var s := n.slots[path[0] := Delete(n.slots[path[0]], path[1..], frames, sweeps, false)];
      if other[0] == path[0] {
        FindDelete(n.slots[path[0]], path[1..], sizes[1..], frames, sweeps, false, other[1..]);
        HeadTail(other, path);
      }
      assert Find(Table(s), other) == if other == path then FAULT else Find(n, other);
      if sweeps && |path| == 1 {
        FindSweep(s, frames, other);
      }
      var left := if sweeps && |path| == 1 then Sweep(s, frames) else s;
      if AllNull(left) { FindNull(other[1..]); }
    }
  }

  lemma FindSweep(slots: seq<Node>, frames: nat, path: seq<int>)
    requires |path| == 1 && Find(Table(slots), path) < frames
    ensures Find(Table(Sweep(slots, frames)), path) == Find(Table(slots), path)
  {
  }

  /** Pruning: an add and a delete leave no empty table below the top. */
  lemma {:induction false} InsertPruned(n: Node, path: seq<int>, sizes: seq<nat>, ppn: nat)
    requires Fits(path, sizes) && Shaped(n, sizes) && Pruned(n)
    ensures Pruned(Insert(n, path, sizes, ppn))
    ensures path != [] ==> !AllNull(Insert(n, path, sizes, ppn).slots)
    decreases |path|
  {
    if path != [] {
      var slots := if n.Table? then n.slots else Nulls(sizes[0]);
      InsertPruned(slots[path[0]], path[1..], sizes[1..], ppn);
      var z := Insert(n, path, sizes, ppn).slots;
      assert z[path[0]] != Null;
    }
  }

  lemma {:induction false} DeletePruned(n: Node, path: seq<int>, sizes: seq<nat>, frames: nat, sweeps: bool, top: bool)
    requires Fits(path, sizes) && Shaped(n, sizes) && Pruned(n)
    ensures Pruned(Delete(n, path, frames, sweeps, top))
    ensures !top && Delete(n, path, frames, sweeps, top).Table? && Find(n, path) != FAULT ==>
      !AllNull(Delete(n, path, frames, sweeps, top).slots)
    decreases |path|
  {
    if path != [] && Find(n, path) != FAULT {
      DeletePruned(n.slots[path[0]], path[1..], sizes[1..], frames, sweeps, false);
    }
  }

  // ---------- a page table as a map from page numbers to frames ----------

  /** findPTE */
  function Walk(c: Layout, n: Node, vpn: nat): (ppn: int)
    requires c.Sound()
    ensures ppn >= FAULT
  {
    Find(n, c.Path(vpn))
  }

  /** addPTE */
  function AddPTE(c: Layout, n: Node, vpn: nat, ppn: nat): Node
    requires c.Sound() && vpn < c.Pages() && Shaped(n, c.Sizes())
  {
    SplitIsInverse(c, vpn);
    Insert(n, c.Path(vpn), c.Sizes(), ppn)
  }

  /** deletePTE; `frames` is the size of the frame table. */
  function DeletePTE(c: Layout, n: Node, vpn: nat, frames: nat): Node
    requires c.Sound()
  {
    Delete(n, c.Path(vpn), frames, c.levels == 3, true)
  }

  ghost predicate TableOK(c: Layout, n: Node)
    requires c.Sound()
  {
    Shaped(n, c.Sizes()) && Pruned(n)
  }

  lemma PathsDiffer(c: Layout, v: nat, w: nat)
    requires c.Sound() && v < c.Pages() && w < c.Pages()
    ensures c.Path(v) == c.Path(w) <==> v == w
  {
    SplitIsInverse(c, v);
    SplitIsInverse(c, w);
  }

  /** addPTE updates the map at one page and keeps the table well formed and pruned. */
  lemma AddRefinesMap(c: Layout, n: Node, vpn: nat, ppn: nat)
    requires c.Sound() && vpn < c.Pages() && TableOK(c, n)
    ensures TableOK(c, AddPTE(c, n, vpn, ppn))
    ensures forall w: nat :: w < c.Pages() ==>
      Walk(c, AddPTE(c, n, vpn, ppn), w) == if w == vpn then ppn else Walk(c, n, w)
  {
    SplitIsInverse(c, vpn);
    InsertShaped(n, c.Path(vpn), c.Sizes(), ppn);
    InsertPruned(n, c.Path(vpn), c.Sizes(), ppn);
    forall w: nat | w < c.Pages()
      ensures Walk(c, AddPTE(c, n, vpn, ppn), w) == if w == vpn then ppn else Walk(c, n, w)
    {
      SplitIsInverse(c, w);
      PathsDiffer(c, vpn, w);
      FindInsert(n, c.Path(vpn), c.Sizes(), ppn, c.Path(w));
    }
  }

  /** deletePTE takes one page out of the map, as long as every entry is in the frame table. */
  lemma DeleteRefinesMap(c: Layout, n: Node, vpn: nat, frames: nat)
    requires c.Sound() && vpn < c.Pages() && TableOK(c, n)
    requires forall w: nat :: w < c.Pages() ==> Walk(c, n, w) < frames
    ensures TableOK(c, DeletePTE(c, n, vpn, frames))
    ensures forall w: nat :: w < c.Pages() ==>
      Walk(c, DeletePTE(c, n, vpn, frames), w) == if w == vpn then FAULT else Walk(c, n, w)
  {
    SplitIsInverse(c, vpn);
    DeleteShaped(n, c.Path(vpn), c.Sizes(), frames, c.levels == 3, true);
    DeletePruned(n, c.Path(vpn), c.Sizes(), frames, c.levels == 3, true);
    forall w: nat | w < c.Pages()
      ensures Walk(c, DeletePTE(c, n, vpn, frames), w) == if w == vpn then FAULT else Walk(c, n, w)
    {
      SplitIsInverse(c, w);
      PathsDiffer(c, vpn, w);
      assert Walk(c, n, w) < frames;
      FindDelete(n, c.Path(vpn), c.Sizes(), frames, c.levels == 3, true, c.Path(w));
    }
  }

  lemma EmptyTable(c: Layout, vpn: nat)
    requires c.Sound()
    ensures TableOK(c, Null) && Walk(c, Null, vpn) == FAULT && DeletePTE(c, Null, vpn, 0) == Null
  {
  }
}
