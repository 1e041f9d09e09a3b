/** The blocked, packed, register-tiled matrix multiply of mxm.c against the plain i-k-j loop of mxm2.c, on 32-bit
    words. */
module MatMul {
  import opened NumberTheory
  import opened MachineWords

  const BLOCK := 128

  // ---- row-major matrices ----------------------------------------------------------------------------------------

  /** The position of cell (i, j). */
  function V(i: nat, j: nat, cols: nat): nat {
    i * cols + j
  }

  lemma VBelow(i: nat, j: nat, rows: nat, cols: nat)
    requires i < rows && j < cols
    ensures V(i, j, cols) < rows * cols
  {
    MulMonotone(i + 1, cols, rows, cols);
  }

  /** The position, and i * cols on the way to it, stay in a signed 32-bit int for every cell exactly if the matrix has
      at most 2^31 cells. */
  lemma PositionsFit(rows: nat, cols: nat)
    requires rows > 0 && cols > 0
    ensures (forall i: nat, j: nat :: i < rows && j < cols ==> i * cols <= V(i, j, cols) < 0x8000_0000)
       <==> rows * cols <= 0x8000_0000
  {
    if rows * cols <= 0x8000_0000 {
      forall i: nat, j: nat | i < rows && j < cols ensures i * cols <= V(i, j, cols) < 0x8000_0000 {
        VBelow(i, j, rows, cols);
      }
    } else {
      assert V(rows - 1, cols - 1, cols) == rows * cols - 1;
    }
  }

  lemma VInjective(i: nat, j: nat, p: nat, q: nat, cols: nat)
    requires j < cols && q < cols && V(i, j, cols) == V(p, q, cols)
    ensures i == p && j == q
  {
    DivModUnique(cols, i, j);
    DivModUnique(cols, p, q);
  }

  /** Rows lie one after the other, each from its first column to its last. */
  lemma RowMajor(i: nat, j: nat, cols: nat)
    requires j < cols
    ensures V(i, j, cols) / cols == i && V(i, j, cols) % cols == j
  {
    DivModUnique(cols, i, j);
  }

  lemma VOnto(x: nat, rows: nat, cols: nat)
    requires x < rows * cols
    ensures cols > 0 && x / cols < rows && x % cols < cols && V(x / cols, x % cols, cols) == x
  {
    assert cols > 0;
    assert x == x / cols * cols + x % cols;
    if x / cols >= rows {
      MulMonotone(rows, cols, x / cols, cols);
    }
  }

  /** The factors: a has depth columns, b has cols. */
  datatype Factors = Factors(a: seq<U32>, b: seq<U32>, rows: nat, depth: nat, cols: nat)

  predicate Fits(m: Factors, c: seq<U32>) {
    |m.a| == m.rows * m.depth && |m.b| == m.depth * m.cols && |c| == m.rows * m.cols
  }

  function At(c: seq<U32>, i: nat, j: nat, rows: nat, cols: nat): U32
    requires i < rows && j < cols && |c| == rows * cols
  {
    VBelow(i, j, rows, cols);
    c[V(i, j, cols)]
  }

  /** The exact sum over k0 <= k < k1 of a[i][k] * b[k][j]. */
  function Dot(m: Factors, i: nat, j: nat, k0: nat, k1: nat): nat
    requires |m.a| == m.rows * m.depth && |m.b| == m.depth * m.cols
    requires i < m.rows && j < m.cols && k1 <= m.depth
    decreases k1
  {
    if k0 >= k1 then 0
    else Dot(m, i, j, k0, k1 - 1) + At(m.a, i, k1 - 1, m.rows, m.depth) * At(m.b, k1 - 1, j, m.depth, m.cols)
  }

  lemma {:induction false} DotSplit(m: Factors, i: nat, j: nat, k0: nat, k1: nat, k2: nat)
    requires |m.a| == m.rows * m.depth && |m.b| == m.depth * m.cols
    requires i < m.rows && j < m.cols && k0 <= k1 <= k2 <= m.depth
    ensures Dot(m, i, j, k0, k2) == Dot(m, i, j, k0, k1) + Dot(m, i, j, k1, k2)
  {
    if k1 < k2 {
      DotSplit(m, i, j, k0, k1, k2 - 1);
    }
  }

  /** Column j of b is zero but for a one in row q. */
  predicate UnitColumn(m: Factors, j: nat, q: nat)
    requires |m.b| == m.depth * m.cols && j < m.cols
  {
    forall k: nat :: k < m.depth ==> At(m.b, k, j, m.depth, m.cols) == if k == q then 1 else 0
  }

  /** Multiplied with such a column, row i of a gives its entry q, as it lies in memory. */
  lemma {:induction false} DotOfUnit(m: Factors, i: nat, j: nat, q: nat, k1: nat)
    requires |m.a| == m.rows * m.depth && |m.b| == m.depth * m.cols
    requires i < m.rows && j < m.cols && q < m.depth && k1 <= m.depth && UnitColumn(m, j, q)
    ensures i * m.depth + q < |m.a| && Dot(m, i, j, 0, k1) == if q < k1 then m.a[i * m.depth + q] else 0
  {
    VBelow(i, q, m.rows, m.depth);
    if k1 > 0 {
      DotOfUnit(m, i, j, q, k1 - 1);
      assert At(m.b, k1 - 1, j, m.depth, m.cols) == if k1 - 1 == q then 1 else 0;
      hide UnitColumn;
    }
  }

  // ---- word arithmetic -------------------------------------------------------------------------------------------

  /** t += x * y on 32-bit words. */
  function MulAdd(t: U32, x: U32, y: U32): U32 {
    Add32(t, Mul32(x, y))
  }

  /** c plus an exact sum, reduced once. */
  function Plus(c: U32, d: nat): U32 {
    (c + d) % TWO_32
  }

  lemma PlusPlus(c: U32, d: nat, e: nat)
    ensures Plus(Plus(c, d), e) == Plus(c, d + e)
  {
    ReduceInside(TWO_32, e, c + d);
  }

  lemma MulAddIsPlus(t: U32, x: U32, y: U32)
    ensures MulAdd(t, x, y) == Plus(t, x * y)
  {
    ReduceInside(TWO_32, t, x * y);
  }

  // ---- what a stretch of the computation adds -------------------------------------------------------------------------

  /** d is c with the products over k0 <= k < k1 added to exactly the cells [i0, i1) x [j0, j1). */
  ghost predicate Added(m: Factors, c: seq<U32>, d: seq<U32>, i0: nat, i1: nat, j0: nat, j1: nat, k0: nat, k1: nat) {
    && Fits(m, c) && Fits(m, d) && k1 <= m.depth
    && forall i, j :: 0 <= i < m.rows && 0 <= j < m.cols ==>
         At(d, i, j, m.rows, m.cols)
         == if i0 <= i < i1 && j0 <= j < j1 then Plus(At(c, i, j, m.rows, m.cols), Dot(m, i, j, k0, k1))
            else At(c, i, j, m.rows, m.cols)
  }

  lemma NothingAdded(m: Factors, c: seq<U32>, i0: nat, i1: nat, j0: nat, j1: nat, k0: nat, k1: nat)
    requires Fits(m, c) && k1 <= m.depth && (i0 >= i1 || j0 >= j1 || k0 >= k1)
    ensures Added(m, c, c, i0, i1, j0, j1, k0, k1)
  {
    forall i, j | 0 <= i < m.rows && 0 <= j < m.cols && k0 >= k1
      ensures Plus(At(c, i, j, m.rows, m.cols), Dot(m, i, j, k0, k1)) == At(c, i, j, m.rows, m.cols)
    {
    }
  }

  lemma AddRows(m: Factors, c: seq<U32>, d: seq<U32>, e: seq<U32>,
                i0: nat, i1: nat, i2: nat, j0: nat, j1: nat, k0: nat, k1: nat)
    requires i0 <= i1 <= i2 && Added(m, c, d, i0, i1, j0, j1, k0, k1) && Added(m, d, e, i1, i2, j0, j1, k0, k1)
    ensures Added(m, c, e, i0, i2, j0, j1, k0, k1)
  {
    hide At, Dot, Plus, Fits;
  }

  lemma AddCols(m: Factors, c: seq<U32>, d: seq<U32>, e: seq<U32>,
                i0: nat, i1: nat, j0: nat, j1: nat, j2: nat, k0: nat, k1: nat)
    requires j0 <= j1 <= j2 && Added(m, c, d, i0, i1, j0, j1, k0, k1) && Added(m, d, e, i0, i1, j1, j2, k0, k1)
    ensures Added(m, c, e, i0, i1, j0, j2, k0, k1)
  {
    hide At, Dot, Plus, Fits;
  }

  lemma AddDepth(m: Factors, c: seq<U32>, d: seq<U32>, e: seq<U32>,
                 i0: nat, i1: nat, j0: nat, j1: nat, k0: nat, k1: nat, k2: nat)
    requires k0 <= k1 <= k2 && Added(m, c, d, i0, i1, j0, j1, k0, k1) && Added(m, d, e, i0, i1, j0, j1, k1, k2)
    ensures Added(m, c, e, i0, i1, j0, j1, k0, k2)
  {
    hide At, Dot, Plus;
    forall i, j | 0 <= i < m.rows && 0 <= j < m.cols && i0 <= i < i1 && j0 <= j < j1
      ensures At(e, i, j, m.rows, m.cols) == Plus(At(c, i, j, m.rows, m.cols), Dot(m, i, j, k0, k2))
    {
      DotSplit(m, i, j, k0, k1, k2);
      PlusPlus(At(c, i, j, m.rows, m.cols), Dot(m, i, j, k0, k1), Dot(m, i, j, k1, k2));
    }
  }

  lemma AddedUnique(m: Factors, c: seq<U32>, d: seq<U32>, e: seq<U32>)
    requires Added(m, c, d, 0, m.rows, 0, m.cols, 0, m.depth) && Added(m, c, e, 0, m.rows, 0, m.cols, 0, m.depth)
    ensures d == e
  {
    hide Dot, Plus, V;
    forall x | 0 <= x < |d| ensures d[x] == e[x] {
      VOnto(x, m.rows, m.cols);
      assert At(d, x / m.cols, x % m.cols, m.rows, m.cols) == At(e, x / m.cols, x % m.cols, m.rows, m.cols);
    }
  }

  lemma Accumulate(m: Factors, c: U32, i: nat, j: nat, k0: nat, k: nat)
    requires |m.a| == m.rows * m.depth && |m.b| == m.depth * m.cols
    requires i < m.rows && j < m.cols && k0 <= k < m.depth
    ensures MulAdd(Plus(c, Dot(m, i, j, k0, k)), At(m.a, i, k, m.rows, m.depth), At(m.b, k, j, m.depth, m.cols))
         == Plus(c, Dot(m, i, j, k0, k + 1))
  {
    hide At, MulAdd, Plus;
    var x: nat, y: nat := At(m.a, i, k, m.rows, m.depth), At(m.b, k, j, m.depth, m.cols);
    MulAddIsPlus(Plus(c, Dot(m, i, j, k0, k)), x, y);
    PlusPlus(c, Dot(m, i, j, k0, k), x * y);
  }

  /** c with cell (i, j) replaced. */
  function Put(c: seq<U32>, i: nat, j: nat, rows: nat, cols: nat, x: U32): (d: seq<U32>)
    requires i < rows && j < cols && |c| == rows * cols
    ensures |d| == |c|
  {
    VBelow(i, j, rows, cols);
    c[V(i, j, cols) := x]
  }

  lemma PutAt(c: seq<U32>, i: nat, j: nat, rows: nat, cols: nat, x: U32)
    requires i < rows && j < cols && |c| == rows * cols
    ensures forall p, q :: 0 <= p < rows && 0 <= q < cols ==>
              At(Put(c, i, j, rows, cols, x), p, q, rows, cols) == if p == i && q == j then x else At(c, p, q, rows, cols)
  {
    hide V;
    forall p, q | 0 <= p < rows && 0 <= q < cols
      ensures At(Put(c, i, j, rows, cols, x), p, q, rows, cols) == if p == i && q == j then x else At(c, p, q, rows, cols)
    {
      VBelow(p, q, rows, cols);
      VBelow(i, j, rows, cols);
      if V(p, q, cols) == V(i, j, cols) { VInjective(p, q, i, j, cols); }
    }
  }

  // ---- mxm2: i, k, j ------------------------------------------------------------------------------------------------

  method MultiplyPlain(c: array<U32>, m: Factors)
    requires Fits(m, c[..])
    modifies c
    ensures Added(m, old(c[..]), c[..], 0, m.rows, 0, m.cols, 0, m.depth)
  {
    hide At, Dot, Plus, V, Added;
    ghost var c0 := c[..];
    NothingAdded(m, c0, 0, 0, 0, m.cols, 0, m.depth);
    for i := 0 to m.rows
      invariant Added(m, c0, c[..], 0, i, 0, m.cols, 0, m.depth)
    {
      ghost var c1 := c[..];
      AddedFits(m, c0, c1, 0, i, 0, m.cols, 0, m.depth);
      NothingAdded(m, c1, i, i + 1, 0, m.cols, 0, 0);
      for k := 0 to m.depth
        invariant Added(m, c1, c[..], i, i + 1, 0, m.cols, 0, k)
      {
        ghost var c2 := c[..];
        AddedFits(m, c1, c2, i, i + 1, 0, m.cols, 0, k);
        PlainRow(c, m, i, k);
        AddDepth(m, c1, c2, c[..], i, i + 1, 0, m.cols, 0, k, k + 1);
      }
      AddRows(m, c0, c1, c[..], 0, i, i + 1, 0, m.cols, 0, m.depth);
    }
  }

  lemma AddedFits(m: Factors, c: seq<U32>, d: seq<U32>, i0: nat, i1: nat, j0: nat, j1: nat, k0: nat, k1: nat)
    requires Added(m, c, d, i0, i1, j0, j1, k0, k1)
    ensures Fits(m, c) && Fits(m, d) && k1 <= m.depth
  {
  }

  /** The innermost loop: one multiple of row k of b is added to row i of c. */
  method PlainRow(c: array<U32>, m: Factors, i: nat, k: nat)
    requires Fits(m, c[..]) && i < m.rows && k < m.depth
    modifies c
    ensures Added(m, old(c[..]), c[..], i, i + 1, 0, m.cols, k, k + 1)
  {
    hide At, Dot, Plus, V, Added;
    ghost var c0 := c[..];
    NothingAdded(m, c0, i, i + 1, 0, 0, k, k + 1);
    for j := 0 to m.cols
      invariant Added(m, c0, c[..], i, i + 1, 0, j, k, k + 1)
    {
      ghost var c1 := c[..];
      AddedFits(m, c0, c1, i, i + 1, 0, j, k, k + 1);
      PlainCell(c, m, i, j, k);
      AddCols(m, c0, c1, c[..], i, i + 1, 0, j, j + 1, k, k + 1);
    }
  }

  method PlainCell(c: array<U32>, m: Factors, i: nat, j: nat, k: nat)
    requires Fits(m, c[..]) && i < m.rows && j < m.cols && k < m.depth
    modifies c
    ensures Added(m, old(c[..]), c[..], i, i + 1, j, j + 1, k, k + 1)
  {
    hide Plus, V, Dot;
    VBelow(i, k, m.rows, m.depth);
    VBelow(k, j, m.depth, m.cols);
    VBelow(i, j, m.rows, m.cols);
    var v := V(i, j, m.cols);
    ghost var t := c[v];
    c[v] := MulAdd(c[v], m.a[V(i, k, m.depth)], m.b[V(k, j, m.cols)]);
    assert c[..] == Put(old(c[..]), i, j, m.rows, m.cols, c[v]);
    PutAt(old(c[..]), i, j, m.rows, m.cols, c[v]);
    Accumulate(m, t, i, j, k, k);
    NoProducts(m, t, i, j, k);
  }

  lemma NoProducts(m: Factors, t: U32, i: nat, j: nat, k: nat)
    requires |m.a| == m.rows * m.depth && |m.b| == m.depth * m.cols
    requires i < m.rows && j < m.cols && k <= m.depth
    ensures Plus(t, Dot(m, i, j, k, k)) == t
  {
  }

  // ---- mxm: blocks of 128, packed, in 2 x 2 tiles ------------------------------------------------------------------------

  /** BB is the block of b at (kk, jj), transposed. */
  ghost predicate Packed(m: Factors, bb: array2<U32>, jj: nat, kk: nat)
    reads bb
  {
    && |m.b| == m.depth * m.cols && jj + BLOCK <= m.cols && kk + BLOCK <= m.depth
    && bb.Length0 == bb.Length1 == BLOCK
    && forall p, q :: 0 <= p < BLOCK && 0 <= q < BLOCK ==> bb[p, q] == At(m.b, kk + q, jj + p, m.depth, m.cols)
  }

  method Pack(m: Factors, jj: nat, kk: nat) returns (bb: array2<U32>)
    requires |m.b| == m.depth * m.cols && jj + BLOCK <= m.cols && kk + BLOCK <= m.depth
    ensures fresh(bb) && Packed(m, bb, jj, kk)
  {
    hide V;
    bb := new U32[BLOCK, BLOCK];
    var jb := 0;
    for j := jj to jj + BLOCK
      invariant jb == j - jj
      invariant forall p, q :: 0 <= p < jb && 0 <= q < BLOCK ==> bb[p, q] == At(m.b, kk + q, jj + p, m.depth, m.cols)
    {
      var kb := 0;
      for k := kk to kk + BLOCK
        invariant kb == k - kk
        invariant forall p, q :: 0 <= p < jb && 0 <= q < BLOCK ==> bb[p, q] == At(m.b, kk + q, jj + p, m.depth, m.cols)
        invariant forall q :: 0 <= q < kb ==> bb[jb, q] == At(m.b, kk + q, j, m.depth, m.cols)
      {
        VBelow(k, j, m.depth, m.cols);
        bb[jb, kb] := m.b[V(k, j, m.cols)];
        kb := kb + 1;
      }
      jb := jb + 1;
    }
  }

  /** The innermost loop: four sums in temporaries. */
  method Sums(c: array<U32>, m: Factors, bb: array2<U32>, i: nat, j: nat, jj: nat, kk: nat)
    returns (t00: U32, t01: U32, t10: U32, t11: U32)
    requires Fits(m, c[..]) && Packed(m, bb, jj, kk) && i + 2 <= m.rows && jj <= j && j + 2 <= jj + BLOCK
    ensures t00 == Plus(At(c[..], i, j, m.rows, m.cols), Dot(m, i, j, kk, kk + BLOCK))
    ensures t01 == Plus(At(c[..], i, j + 1, m.rows, m.cols), Dot(m, i, j + 1, kk, kk + BLOCK))
    ensures t10 == Plus(At(c[..], i + 1, j, m.rows, m.cols), Dot(m, i + 1, j, kk, kk + BLOCK))
    ensures t11 == Plus(At(c[..], i + 1, j + 1, m.rows, m.cols), Dot(m, i + 1, j + 1, kk, kk + BLOCK))
  {
    hide V, Plus, Dot, MulAdd;
    VBelow(i, j, m.rows, m.cols);
    VBelow(i, j + 1, m.rows, m.cols);
    VBelow(i + 1, j, m.rows, m.cols);
    VBelow(i + 1, j + 1, m.rows, m.cols);
    t00 := c[V(i, j, m.cols)];
    t01 := c[V(i, j + 1, m.cols)];
    t10 := c[V(i + 1, j, m.cols)];
    t11 := c[V(i + 1, j + 1, m.cols)];
    ghost var c00, c01, c10, c11 := t00, t01, t10, t11;
    NoProducts(m, c00, i, j, kk);
    NoProducts(m, c01, i, j + 1, kk);
    NoProducts(m, c10, i + 1, j, kk);
    NoProducts(m, c11, i + 1, j + 1, kk);
    var jb := j - jj;
    var kb := 0;
    for k := kk to kk + BLOCK
      invariant kb == k - kk
      invariant t00 == Plus(c00, Dot(m, i, j, kk, k)) && t01 == Plus(c01, Dot(m, i, j + 1, kk, k))
      invariant t10 == Plus(c10, Dot(m, i + 1, j, kk, k)) && t11 == Plus(c11, Dot(m, i + 1, j + 1, kk, k))
    {
      VBelow(i, k, m.rows, m.depth);
      VBelow(i + 1, k, m.rows, m.depth);
      Accumulate(m, c00, i, j, kk, k);
      Accumulate(m, c01, i, j + 1, kk, k);
      Accumulate(m, c10, i + 1, j, kk, k);
      Accumulate(m, c11, i + 1, j + 1, kk, k);
      t00 := MulAdd(t00, m.a[V(i, k, m.depth)], bb[jb, kb]);
      t01 := MulAdd(t01, m.a[V(i, k, m.depth)], bb[jb + 1, kb]);
      t10 := MulAdd(t10, m.a[V(i + 1, k, m.depth)], bb[jb, kb]);
      t11 := MulAdd(t11, m.a[V(i + 1, k, m.depth)], bb[jb + 1, kb]);
      kb := kb + 1;
    }
  }

  method Quad(c: array<U32>, m: Factors, bb: array2<U32>, i: nat, j: nat, jj: nat, kk: nat)
    requires Fits(m, c[..]) && Packed(m, bb, jj, kk) && i + 2 <= m.rows && jj <= j && j + 2 <= jj + BLOCK
    modifies c
    ensures Added(m, old(c[..]), c[..], i, i + 2, j, j + 2, kk, kk + BLOCK)
  {
    hide V, Plus, Dot, MulAdd;
    ghost var s0 := c[..];
    var t00, t01, t10, t11 := Sums(c, m, bb, i, j, jj, kk);
    PutCell(c, m, i, j, t00);
    PutCell(c, m, i, j + 1, t01);
    PutCell(c, m, i + 1, j, t10);
    PutCell(c, m, i + 1, j + 1, t11);
  }

  method PutCell(c: array<U32>, m: Factors, i: nat, j: nat, t: U32)
    requires Fits(m, c[..]) && i < m.rows && j < m.cols
    modifies c
    ensures Fits(m, c[..])
    ensures forall p, q :: 0 <= p < m.rows && 0 <= q < m.cols ==>
              At(c[..], p, q, m.rows, m.cols) == if p == i && q == j then t else At(old(c[..]), p, q, m.rows, m.cols)
  {
    hide V, At;
    VBelow(i, j, m.rows, m.cols);
    c[V(i, j, m.cols)] := t;
    assert c[..] == Put(old(c[..]), i, j, m.rows, m.cols, t);
    PutAt(old(c[..]), i, j, m.rows, m.cols, t);
  }

  method RowPair(c: array<U32>, m: Factors, bb: array2<U32>, i: nat, jj: nat, kk: nat)
    requires Fits(m, c[..]) && Packed(m, bb, jj, kk) && i + 2 <= m.rows
    modifies c
    ensures Added(m, old(c[..]), c[..], i, i + 2, jj, jj + BLOCK, kk, kk + BLOCK)
  {
    hide V, Plus, Dot, At, Added;
    ghost var c0 := c[..];
    NothingAdded(m, c0, i, i + 2, jj, jj, kk, kk + BLOCK);
    var j := jj;
    while j < jj + BLOCK
      invariant jj <= j <= jj + BLOCK && (j - jj) % 2 == 0
      invariant Added(m, c0, c[..], i, i + 2, jj, j, kk, kk + BLOCK)
    {
      ghost var c1 := c[..];
      AddedFits(m, c0, c1, i, i + 2, jj, j, kk, kk + BLOCK);
      Quad(c, m, bb, i, j, jj, kk);
      AddCols(m, c0, c1, c[..], i, i + 2, jj, j, j + 2, kk, kk + BLOCK);
      j := j + 2;
    }
  }

  /** One block of the product against one packed block. */
  method Block(c: array<U32>, m: Factors, bb: array2<U32>, ii: nat, jj: nat, kk: nat)
    requires Fits(m, c[..]) && Packed(m, bb, jj, kk) && ii + BLOCK <= m.rows
    modifies c
    ensures Added(m, old(c[..]), c[..], ii, ii + BLOCK, jj, jj + BLOCK, kk, kk + BLOCK)
  {
    hide V, Plus, Dot, At, Added;
    ghost var c0 := c[..];
    NothingAdded(m, c0, ii, ii, jj, jj + BLOCK, kk, kk + BLOCK);
    var i := ii;
    while i < ii + BLOCK
      invariant ii <= i <= ii + BLOCK && (i - ii) % 2 == 0
      invariant Added(m, c0, c[..], ii, i, jj, jj + BLOCK, kk, kk + BLOCK)
    {
      ghost var c1 := c[..];
      AddedFits(m, c0, c1, ii, i, jj, jj + BLOCK, kk, kk + BLOCK);
      RowPair(c, m, bb, i, jj, kk);
      AddRows(m, c0, c1, c[..], ii, i, i + 2, jj, jj + BLOCK, kk, kk + BLOCK);
      i := i + 2;
    }
  }

  ghost predicate Blocked(n: nat, at: nat) {
    n % BLOCK == 0 && at % BLOCK == 0 && at <= n
  }

  lemma NextBlock(n: nat, at: nat)
    requires Blocked(n, at) && at < n
    ensures at + BLOCK <= n && Blocked(n, at + BLOCK)
  {
  }

  method BlockDepth(c: array<U32>, m: Factors, ii: nat, jj: nat)
    requires Fits(m, c[..]) && ii + BLOCK <= m.rows && jj + BLOCK <= m.cols && Blocked(m.depth, 0)
    modifies c
    ensures Added(m, old(c[..]), c[..], ii, ii + BLOCK, jj, jj + BLOCK, 0, m.depth)
  {
    hide V, Plus, Dot, At, Added, Blocked;
    ghost var c0 := c[..];
    NothingAdded(m, c0, ii, ii + BLOCK, jj, jj + BLOCK, 0, 0);
    var kk := 0;
    while kk < m.depth
      invariant Blocked(m.depth, kk) && kk <= m.depth
      invariant Added(m, c0, c[..], ii, ii + BLOCK, jj, jj + BLOCK, 0, kk)
    {
      ghost var c1 := c[..];
      NextBlock(m.depth, kk);
      AddedFits(m, c0, c1, ii, ii + BLOCK, jj, jj + BLOCK, 0, kk);
      var bb := Pack(m, jj, kk);
      Block(c, m, bb, ii, jj, kk);
      AddDepth(m, c0, c1, c[..], ii, ii + BLOCK, jj, jj + BLOCK, 0, kk, kk + BLOCK);
      kk := kk + BLOCK;
    }
  }

  method BlockRow(c: array<U32>, m: Factors, ii: nat)
    requires Fits(m, c[..]) && ii + BLOCK <= m.rows && Blocked(m.cols, 0) && Blocked(m.depth, 0)
    modifies c
    ensures Added(m, old(c[..]), c[..], ii, ii + BLOCK, 0, m.cols, 0, m.depth)
  {
    hide V, Plus, Dot, At, Added, Blocked;
    ghost var c0 := c[..];
    NothingAdded(m, c0, ii, ii + BLOCK, 0, 0, 0, m.depth);
    var jj := 0;
    while jj < m.cols
      invariant Blocked(m.cols, jj) && jj <= m.cols
      invariant Added(m, c0, c[..], ii, ii + BLOCK, 0, jj, 0, m.depth)
    {
      ghost var c1 := c[..];
      NextBlock(m.cols, jj);
      AddedFits(m, c0, c1, ii, ii + BLOCK, 0, jj, 0, m.depth);
      BlockDepth(c, m, ii, jj);
      AddCols(m, c0, c1, c[..], ii, ii + BLOCK, 0, jj, jj + BLOCK, 0, m.depth);
      jj := jj + BLOCK;
    }
  }

  method MultiplyBlocked(c: array<U32>, m: Factors)
    requires Fits(m, c[..]) && Blocked(m.rows, 0) && Blocked(m.cols, 0) && Blocked(m.depth, 0)
    modifies c
    ensures Added(m, old(c[..]), c[..], 0, m.rows, 0, m.cols, 0, m.depth)
  {
    hide V, Plus, Dot, At, Added, Blocked;
    ghost var c0 := c[..];
    NothingAdded(m, c0, 0, 0, 0, m.cols, 0, m.depth);
    var ii := 0;
    while ii < m.rows
      invariant Blocked(m.rows, ii) && ii <= m.rows
      invariant Added(m, c0, c[..], 0, ii, 0, m.cols, 0, m.depth)
    {
      ghost var c1 := c[..];
      NextBlock(m.rows, ii);
      AddedFits(m, c0, c1, 0, ii, 0, m.cols, 0, m.depth);
      BlockRow(c, m, ii);
      AddRows(m, c0, c1, c[..], 0, ii, ii + BLOCK, 0, m.cols, 0, m.depth);
      ii := ii + BLOCK;
    }
  }

  /** Run on equal products, the two programs leave equal results. */
  method SameProduct(c: array<U32>, d: array<U32>, m: Factors)
    requires c != d && c[..] == d[..] && Fits(m, c[..])
    requires Blocked(m.rows, 0) && Blocked(m.cols, 0) && Blocked(m.depth, 0)
    modifies c, d
    ensures c[..] == d[..]
  {
    hide Added;
    ghost var c0 := c[..];
    MultiplyBlocked(c, m);
    MultiplyPlain(d, m);
    AddedUnique(m, c0, c[..], d[..]);
  }
}
