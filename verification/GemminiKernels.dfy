/**
 The accelerator's reference kernels over exact numbers, and the matrix forms that must
 agree with them.
 */
module GemminiKernels {
  import opened Tensors

  // ---------------------------------------------------------------- sums in two and three levels

  /** `p[at] + ... + p[at + n - 1]`. */
  function Sum(p: seq<real>, at: nat, n: nat): real
    requires at + n <= |p|
  {
    if n == 0 then 0.0 else Sum(p, at, n - 1) + p[at + n - 1]
  }

  /** Row by row, `rows` rows of length `b`. */
  function SumRows(p: seq<real>, at: nat, b: nat, rows: nat): real
    requires at + Times(rows, b) <= |p|
  {
    if rows == 0 then 0.0 else SumRows(p, at, b, rows - 1) + Sum(p, at + Times(rows - 1, b), b)
  }

  /** Plane by plane, `planes` planes of `b` rows of length `b`. */
  function SumPlanes(p: seq<real>, b: nat, planes: nat): real
    requires Times(planes, Times(b, b)) <= |p|
  {
    if planes == 0 then 0.0 else SumPlanes(p, b, planes - 1) + SumRows(p, Times(planes - 1, Times(b, b)), b, b)
  }

  lemma {:induction false} SumSplits(p: seq<real>, at: nat, n: nat, d: nat)
    requires at + n + d <= |p|
    ensures Sum(p, at, n + d) == Sum(p, at, n) + Sum(p, at + n, d)
    decreases d
  {
    if d > 0 { SumSplits(p, at, n, d - 1); }
  }

  lemma {:induction false} RowsAreFlat(p: seq<real>, at: nat, b: nat, rows: nat)
    requires at + Times(rows, b) <= |p|
    ensures SumRows(p, at, b, rows) == Sum(p, at, Times(rows, b))
    decreases rows
  {
    if rows > 0 {
      RowsAreFlat(p, at, b, rows - 1);
      SumSplits(p, at, Times(rows - 1, b), b);
    }
  }

  lemma {:induction false} PlanesAreFlat(p: seq<real>, b: nat, planes: nat)
    requires Times(planes, Times(b, b)) <= |p|
    ensures SumPlanes(p, b, planes) == Sum(p, 0, Times(planes, Times(b, b)))
    decreases planes
  {
    if planes > 0 {
      PlanesAreFlat(p, b, planes - 1);
      RowsAreFlat(p, Times(planes - 1, Times(b, b)), b, b);
      SumSplits(p, 0, Times(planes - 1, Times(b, b)), Times(b, b));
    }
  }

  // ---------------------------------------------------------------- the matrix form

  /** `a[at..]` times `k`, over the first `n` entries. */
  function Dot(a: seq<real>, at: nat, k: seq<real>, n: nat): real
    requires at + n <= |a| && n <= |k|
  {
    if n == 0 then 0.0 else Dot(a, at, k, n - 1) + a[at + n - 1] * k[n - 1]
  }

  /** Only cell `at` may differ. */
  predicate OnlyAt(o: seq<real>, o': seq<real>, at: nat) {
    |o'| == |o| && forall r :: 0 <= r < |o| && r != at ==> o'[r] == o[r]
  }

  method GemmCell(a: array<real>, k: array<real>, o: array<real>, kSize: nat, i: nat)
    requires o != a && o != k && Times(i, kSize) + kSize <= a.Length && kSize <= k.Length && i < o.Length
    modifies o
    ensures o[i] == Dot(a[..], Times(i, kSize), k[..], kSize) && OnlyAt(old(o[..]), o[..], i)
  {
    o[i] := 0.0;
    for j := 0 to kSize
      invariant o[i] == Dot(a[..], Times(i, kSize), k[..], j) && OnlyAt(old(o[..]), o[..], i)
    {
      o[i] := o[i] + a[Times(i, kSize) + j] * k[j];
    }
  }

  /** Row `i` of the matrix product. */
  predicate GemmRow(a: seq<real>, k: seq<real>, o: seq<real>, kSize: nat, i: nat) {
    && Times(i, kSize) + kSize <= |a| && kSize <= |k| && i < |o|
    && o[i] == Dot(a, Times(i, kSize), k, kSize)
  }

  ghost predicate GemmRows(a: seq<real>, k: seq<real>, o: seq<real>, kSize: nat, n: nat) {
    forall i :: 0 <= i < n ==> GemmRow(a, k, o, kSize, i)
  }

  lemma GemmRowsGrow(a: seq<real>, k: seq<real>, o: seq<real>, o': seq<real>, kSize: nat, n: nat)
    requires GemmRows(a, k, o, kSize, n) && OnlyAt(o, o', n) && GemmRow(a, k, o', kSize, n)
    ensures GemmRows(a, k, o', kSize, n + 1)
  {
    forall i | 0 <= i < n + 1 ensures GemmRow(a, k, o', kSize, i) {
      if i < n { assert GemmRow(a, k, o, kSize, i); }
    }
  }

  method BaseConvGemm(a: array<real>, k: array<real>, o: array<real>, oSize: nat, kSize: nat)
    requires o != a && o != k && Times(oSize, kSize) <= a.Length && kSize <= k.Length && oSize <= o.Length
    modifies o
    ensures GemmRows(a[..], k[..], o[..], kSize, oSize)
  {
    for i := 0 to oSize
      invariant GemmRows(a[..], k[..], o[..], kSize, i)
    {
      TimesMonotone(i, oSize, kSize);
      ghost var before := o[..];
      GemmCell(a, k, o, kSize, i);
      GemmRowsGrow(a[..], k[..], before, o[..], kSize, i);
    }
  }

  // ---------------------------------------------------------------- two dimensions

  /** The image extended by zeros. */
  function Pad2(m: seq<real>, n: nat, y: int, x: int): real
    requires |m| == Times(n, n)
  {
    if 0 <= y < n && 0 <= x < n then CellBelow(y, n, x); m[Times(y, n) + x] else 0.0
  }

  lemma CellBelow(y: nat, n: nat, x: nat)
    requires y < n && x < n
    ensures Times(y, n) + x < Times(n, n)
  {
    TimesMonotone(y, n, n);
  }

  function Tap2(m: seq<real>, k: seq<real>, n: nat, ks: nat, i: nat, j: nat, w: nat, x: nat): real
    requires |m| == Times(n, n) && |k| == Times(ks, ks) && w < ks && x < ks
  {
    CellBelow(w, ks, x);
    Pad2(m, n, i + w - ks / 2, j + x - ks / 2) * k[Times(w, ks) + x]
  }

  function Row2(m: seq<real>, k: seq<real>, n: nat, ks: nat, i: nat, j: nat, w: nat, c: nat): real
    requires |m| == Times(n, n) && |k| == Times(ks, ks) && w < ks && c <= ks
    decreases c
  {
    if c == 0 then 0.0 else Row2(m, k, n, ks, i, j, w, c - 1) + Tap2(m, k, n, ks, i, j, w, c - 1)
  }

  /** The centred convolution at `(i, j)`, over the first `r` kernel rows. */
  function Conv2(m: seq<real>, k: seq<real>, n: nat, ks: nat, i: nat, j: nat, r: nat): real
    requires |m| == Times(n, n) && |k| == Times(ks, ks) && r <= ks
    decreases r
  {
    if r == 0 then 0.0 else Conv2(m, k, n, ks, i, j, r - 1) + Row2(m, k, n, ks, i, j, r - 1, ks)
  }

  /** `a` holds, from `at` on, the padded image under the kernel centred at `(i, j)`. */
  predicate Patch2(a: seq<real>, at: nat, m: seq<real>, n: nat, ks: nat, i: nat, j: nat)
    requires |m| == Times(n, n)
  {
    && at + Times(ks, ks) <= |a|
    && forall w: nat, x: nat :: w < ks && x < ks ==> PatchCell2(a, at, m, n, ks, i, j, w, x)
  }

  predicate PatchCell2(a: seq<real>, at: nat, m: seq<real>, n: nat, ks: nat, i: nat, j: nat, w: nat, x: nat)
    requires |m| == Times(n, n)
  {
    at + Times(w, ks) + x < |a| && a[at + Times(w, ks) + x] == Pad2(m, n, i + w - ks / 2, j + x - ks / 2)
  }

  /** The matrix whose row for each output cell lists the padded image under the kernel there. */
  predicate IsIm2col2(a: seq<real>, m: seq<real>, n: nat, ks: nat) {
    && |m| == Times(n, n)
    && forall i: nat, j: nat :: i < n && j < n ==> RowIsPatch2(a, m, n, ks, i, j)
  }

  predicate RowIsPatch2(a: seq<real>, m: seq<real>, n: nat, ks: nat, i: nat, j: nat)
    requires |m| == Times(n, n)
  {
    Patch2(a, Times(Times(i, n) + j, Times(ks, ks)), m, n, ks, i, j)
  }

  /** The products of a matrix row with the kernel. */
  function Products(a: seq<real>, at: nat, k: seq<real>): (p: seq<real>)
    requires at + |k| <= |a|
    ensures |p| == |k|
  {
    seq(|k|, t requires 0 <= t < |k| => a[at + t] * k[t])
  }

  lemma {:induction false} DotIsSum(a: seq<real>, at: nat, k: seq<real>, n: nat)
    requires at + |k| <= |a| && n <= |k|
    ensures Dot(a, at, k, n) == Sum(Products(a, at, k), 0, n)
    decreases n
  {
    if n > 0 { DotIsSum(a, at, k, n - 1); }
  }

  lemma ProductIsTap2(a: seq<real>, at: nat, m: seq<real>, k: seq<real>, n: nat, ks: nat, i: nat, j: nat, w: nat, x: nat)
    requires |m| == Times(n, n) && |k| == Times(ks, ks) && Patch2(a, at, m, n, ks, i, j) && w < ks && x < ks
    ensures Times(w, ks) + x < |k| && Products(a, at, k)[Times(w, ks) + x] == Tap2(m, k, n, ks, i, j, w, x)
  {
    CellBelow(w, ks, x);
    assert PatchCell2(a, at, m, n, ks, i, j, w, x);
    assert at + (Times(w, ks) + x) == at + Times(w, ks) + x;
  }

  lemma {:induction false} Row2IsSum(a: seq<real>, at: nat, m: seq<real>, k: seq<real>, n: nat, ks: nat, i: nat, j: nat, w: nat, c: nat)
    requires |m| == Times(n, n) && |k| == Times(ks, ks) && Patch2(a, at, m, n, ks, i, j) && w < ks && c <= ks
    ensures Times(w, ks) + c <= |k| && Row2(m, k, n, ks, i, j, w, c) == Sum(Products(a, at, k), Times(w, ks), c)
    decreases c
  {
    TimesMonotone(w, ks, ks);
    if c > 0 {
      Row2IsSum(a, at, m, k, n, ks, i, j, w, c - 1);
      ProductIsTap2(a, at, m, k, n, ks, i, j, w, c - 1);
    }
  }

  lemma {:induction false} Conv2IsSum(a: seq<real>, at: nat, m: seq<real>, k: seq<real>, n: nat, ks: nat, i: nat, j: nat, r: nat)
    requires |m| == Times(n, n) && |k| == Times(ks, ks) && Patch2(a, at, m, n, ks, i, j) && r <= ks
    ensures Times(r, ks) <= |k| && Conv2(m, k, n, ks, i, j, r) == SumRows(Products(a, at, k), 0, ks, r)
    decreases r
  {
    TimesMonotone(r, ks, ks);
    if r > 0 {
      Conv2IsSum(a, at, m, k, n, ks, i, j, r - 1);
      Row2IsSum(a, at, m, k, n, ks, i, j, r - 1, ks);
    }
  }

  /** On the unrolled image, the matrix product computes the two-dimensional convolution. */
  lemma GemmIsConv2(a: seq<real>, m: seq<real>, k: seq<real>, n: nat, ks: nat, i: nat, j: nat)
    requires IsIm2col2(a, m, n, ks) && |k| == Times(ks, ks) && i < n && j < n
    ensures Times(Times(i, n) + j, Times(ks, ks)) + Times(ks, ks) <= |a|
    ensures Dot(a, Times(Times(i, n) + j, Times(ks, ks)), k, Times(ks, ks)) == Conv2(m, k, n, ks, i, j, ks)
  {
    var at := Times(Times(i, n) + j, Times(ks, ks));
    assert RowIsPatch2(a, m, n, ks, i, j);
    DotIsSum(a, at, k, |k|);
    RowsAreFlat(Products(a, at, k), 0, ks, ks);
    Conv2IsSum(a, at, m, k, n, ks, i, j, ks);
  }

  // ---------------------------------------------------------------- the two-dimensional loops

  method TapAt2(m: array<real>, k: array<real>, n: nat, ks: nat, i: nat, j: nat, w: nat, x: nat) returns (term: real)
    requires m.Length == Times(n, n) && k.Length == Times(ks, ks) && w < ks && x < ks
    ensures term == Tap2(m[..], k[..], n, ks, i, j, w, x)
  {
    CellBelow(w, ks, x);
    var mi, mj := i + w - ks / 2, j + x - ks / 2;
    if mi < 0 || mi >= n || mj < 0 || mj >= n { return 0.0; }
    CellBelow(mi, n, mj);
    term := m[Times(mi, n) + mj] * k[Times(w, ks) + x];
  }

  method AddRow2(m: array<real>, k: array<real>, o: array<real>, n: nat, ks: nat, i: nat, j: nat, w: nat, at: nat)
    requires o != m && o != k && m.Length == Times(n, n) && k.Length == Times(ks, ks) && w < ks && at < o.Length
    modifies o
    ensures o[at] == old(o[at]) + Row2(m[..], k[..], n, ks, i, j, w, ks) && OnlyAt(old(o[..]), o[..], at)
  {
    for x := 0 to ks
      invariant o[at] == old(o[at]) + Row2(m[..], k[..], n, ks, i, j, w, x) && OnlyAt(old(o[..]), o[..], at)
    {
      var term := TapAt2(m, k, n, ks, i, j, w, x);
      o[at] := o[at] + term;
    }
  }

  method Cell2(m: array<real>, k: array<real>, o: array<real>, n: nat, ks: nat, i: nat, j: nat, at: nat)
    requires o != m && o != k && m.Length == Times(n, n) && k.Length == Times(ks, ks) && at < o.Length
    modifies o
    ensures o[at] == Conv2(m[..], k[..], n, ks, i, j, ks) && OnlyAt(old(o[..]), o[..], at)
  {
    o[at] := 0.0;
    for w := 0 to ks
      invariant o[at] == Conv2(m[..], k[..], n, ks, i, j, w) && OnlyAt(old(o[..]), o[..], at)
    {
      AddRow2(m, k, o, n, ks, i, j, w, at);
    }
  }

  predicate Convolved2(m: seq<real>, k: seq<real>, o: seq<real>, n: nat, ks: nat, i: nat, j: nat)
    requires |m| == Times(n, n) && |k| == Times(ks, ks)
  {
    Times(i, n) + j < |o| && o[Times(i, n) + j] == Conv2(m, k, n, ks, i, j, ks)
  }

  /** The first `end` cells are convolved. */
  ghost predicate Done2(m: seq<real>, k: seq<real>, o: seq<real>, n: nat, ks: nat, end: nat)
    requires |m| == Times(n, n) && |k| == Times(ks, ks)
  {
    forall i: nat, j: nat :: i < n && j < n && Times(i, n) + j < end ==> Convolved2(m, k, o, n, ks, i, j)
  }

  lemma Done2Grows(m: seq<real>, k: seq<real>, o: seq<real>, o': seq<real>, n: nat, ks: nat, i: nat, j: nat)
    requires |m| == Times(n, n) && |k| == Times(ks, ks) && i < n && j < n && Times(i, n) + j < |o|
    requires Done2(m, k, o, n, ks, Times(i, n) + j) && OnlyAt(o, o', Times(i, n) + j) && Convolved2(m, k, o', n, ks, i, j)
    ensures Done2(m, k, o', n, ks, Times(i, n) + j + 1)
  {
    forall i': nat, j': nat | i' < n && j' < n && Times(i', n) + j' < Times(i, n) + j + 1 ensures Convolved2(m, k, o', n, ks, i', j') {
      RowOrder(i, j, i', j', n);
      if Times(i', n) + j' != Times(i, n) + j { assert Convolved2(m, k, o, n, ks, i', j'); }
    }
  }

  method BaseConv2D(m: array<real>, k: array<real>, o: array<real>, n: nat, ks: nat)
    requires o != m && o != k && m.Length == Times(n, n) && k.Length == Times(ks, ks) && o.Length == Times(n, n)
    modifies o
    ensures forall i: nat, j: nat :: i < n && j < n ==> Convolved2(m[..], k[..], o[..], n, ks, i, j)
  {
    for i := 0 to n
      invariant Done2(m[..], k[..], o[..], n, ks, Times(i, n))
    {
      for j := 0 to n
        invariant Done2(m[..], k[..], o[..], n, ks, Times(i, n) + j)
      {
        ghost var before := o[..];
        CellBelow(i, n, j);
        Cell2(m, k, o, n, ks, i, j, Times(i, n) + j);
        Done2Grows(m[..], k[..], before, o[..], n, ks, i, j);
      }
      assert Times(i + 1, n) == Times(i, n) + n;
    }
    forall i: nat, j: nat | i < n && j < n ensures Convolved2(m[..], k[..], o[..], n, ks, i, j) { CellBelow(i, n, j); }
  }

  // ---------------------------------------------------------------- matrix product

  function Product(a: seq<real>, b: seq<real>, n: nat, i: nat, j: nat, w: nat): real
    requires |a| == Times(n, n) && |b| == Times(n, n) && i < n && j < n && w <= n
    decreases w
  {
    if w == 0 then 0.0
    else
      CellBelow(i, n, w - 1);
      CellBelow(w - 1, n, j);
      Product(a, b, n, i, j, w - 1) + a[Times(i, n) + w - 1] * b[Times(w - 1, n) + j]
  }

  /** The same with the right operand stored by columns. */
  function ProductByColumns(a: seq<real>, b: seq<real>, n: nat, i: nat, j: nat, w: nat): real
    requires |a| == Times(n, n) && |b| == Times(n, n) && i < n && j < n && w <= n
    decreases w
  {
    if w == 0 then 0.0
    else
      CellBelow(i, n, w - 1);
      CellBelow(j, n, w - 1);
      ProductByColumns(a, b, n, i, j, w - 1) + a[Times(i, n) + w - 1] * b[Times(j, n) + w - 1]
  }

  predicate SwappedAt(b: seq<real>, t: seq<real>, n: nat, i: nat, j: nat) {
    Times(i, n) + j < |b| && Times(j, n) + i < |t| && b[Times(i, n) + j] == t[Times(j, n) + i]
  }

  predicate Transposed(b: seq<real>, t: seq<real>, n: nat) {
    |b| == Times(n, n) && |t| == Times(n, n) && forall i: nat, j: nat :: i < n && j < n ==> SwappedAt(b, t, n, i, j)
  }

  /** On a transposed right operand the column form computes the product. */
  lemma {:induction false} GemmIsProduct(a: seq<real>, b: seq<real>, t: seq<real>, n: nat, i: nat, j: nat, w: nat)
    requires |a| == Times(n, n) && Transposed(b, t, n) && i < n && j < n && w <= n
    ensures ProductByColumns(a, t, n, i, j, w) == Product(a, b, n, i, j, w)
    decreases w
  {
    if w > 0 {
      GemmIsProduct(a, b, t, n, i, j, w - 1);
      assert SwappedAt(b, t, n, w - 1, j);
    }
  }

  function Entry(a: seq<real>, b: seq<real>, n: nat, i: nat, j: nat, byColumns: bool): real
    requires |a| == Times(n, n) && |b| == Times(n, n) && i < n && j < n
  {
    if byColumns then ProductByColumns(a, b, n, i, j, n) else Product(a, b, n, i, j, n)
  }

  method MultiplyCell(a: array<real>, b: array<real>, c: array<real>, n: nat, i: nat, j: nat, byColumns: bool, at: nat)
    requires c != a && c != b && a.Length == Times(n, n) && b.Length == Times(n, n) && i < n && j < n && at < c.Length
    modifies c
    ensures c[at] == Entry(a[..], b[..], n, i, j, byColumns) && OnlyAt(old(c[..]), c[..], at)
  {
    c[at] := 0.0;
    for w := 0 to n
      invariant c[at] == if byColumns then ProductByColumns(a[..], b[..], n, i, j, w) else Product(a[..], b[..], n, i, j, w)
      invariant OnlyAt(old(c[..]), c[..], at)
    {
      CellBelow(i, n, w);
      CellBelow(w, n, j);
      CellBelow(j, n, w);
      var right := if byColumns then b[Times(j, n) + w] else b[Times(w, n) + j];
      c[at] := c[at] + a[Times(i, n) + w] * right;
    }
  }

  predicate Multiplied(a: seq<real>, b: seq<real>, c: seq<real>, n: nat, byColumns: bool, i: nat, j: nat)
    requires |a| == Times(n, n) && |b| == Times(n, n) && i < n && j < n
  {
    Times(i, n) + j < |c| && c[Times(i, n) + j] == Entry(a, b, n, i, j, byColumns)
  }

  ghost predicate DoneProduct(a: seq<real>, b: seq<real>, c: seq<real>, n: nat, byColumns: bool, end: nat)
    requires |a| == Times(n, n) && |b| == Times(n, n)
  {
    forall i: nat, j: nat :: i < n && j < n && Times(i, n) + j < end ==> Multiplied(a, b, c, n, byColumns, i, j)
  }

  lemma DoneProductGrows(a: seq<real>, b: seq<real>, c: seq<real>, c': seq<real>, n: nat, byColumns: bool, i: nat, j: nat)
    requires |a| == Times(n, n) && |b| == Times(n, n) && i < n && j < n && Times(i, n) + j < |c|
    requires DoneProduct(a, b, c, n, byColumns, Times(i, n) + j) && OnlyAt(c, c', Times(i, n) + j)
    requires Multiplied(a, b, c', n, byColumns, i, j)
    ensures DoneProduct(a, b, c', n, byColumns, Times(i, n) + j + 1)
  {
    forall i': nat, j': nat | i' < n && j' < n && Times(i', n) + j' < Times(i, n) + j + 1
      ensures Multiplied(a, b, c', n, byColumns, i', j')
    {
      RowOrder(i, j, i', j', n);
      if Times(i', n) + j' != Times(i, n) + j { assert Multiplied(a, b, c, n, byColumns, i', j'); }
    }
  }

  /** Both product kernels; `byColumns` is the one that reads the right operand by columns. */
  method Multiply(a: array<real>, b: array<real>, c: array<real>, n: nat, byColumns: bool)
    requires c != a && c != b && a.Length == Times(n, n) && b.Length == Times(n, n) && c.Length == Times(n, n)
    modifies c
    ensures forall i: nat, j: nat :: i < n && j < n ==> Multiplied(a[..], b[..], c[..], n, byColumns, i, j)
  {
    for i := 0 to n
      invariant DoneProduct(a[..], b[..], c[..], n, byColumns, Times(i, n))
    {
      for j := 0 to n
        invariant DoneProduct(a[..], b[..], c[..], n, byColumns, Times(i, n) + j)
      {
        ghost var before := c[..];
        CellBelow(i, n, j);
        MultiplyCell(a, b, c, n, i, j, byColumns, Times(i, n) + j);
        DoneProductGrows(a[..], b[..], before, c[..], n, byColumns, i, j);
      }
      assert Times(i + 1, n) == Times(i, n) + n;
    }
    forall i: nat, j: nat | i < n && j < n ensures Multiplied(a[..], b[..], c[..], n, byColumns, i, j) { CellBelow(i, n, j); }
  }
}
