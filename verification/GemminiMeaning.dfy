/**
 The accelerator's kernels and buffer sizes against plain arithmetic: sums over explicit
 indices for the kernels, products of the programmed sizes for the buffers.
 */
module GemminiMeaning {
  import opened Bits
  import opened Tensors
  import opened GemminiKernels
  import opened GemminiConv3
  import opened GemminiDevice

  // ---------------------------------------------------------------- sums and elements

  /** `f(0) + ... + f(n - 1)`. */
  function Total(n: nat, f: nat -> real): real {
    if n == 0 then 0.0 else Total(n - 1, f) + f(n - 1)
  }

  /** Element `i`, and 0 outside. */
  function At(s: seq<real>, i: int): real { if 0 <= i < |s| then s[i] else 0.0 }

  // ---------------------------------------------------------------- two dimensions

  /** Pixel `(y, x)` of an image of `n` by `n`, and 0 around it. */
  function Pixel2(m: seq<real>, n: nat, y: int, x: int): real { if 0 <= y < n && 0 <= x < n then At(m, y * n + x) else 0.0 }

  function Taps2(m: seq<real>, k: seq<real>, n: nat, ks: nat, i: nat, j: nat, w: nat): nat -> real {
    (x: nat) => Pixel2(m, n, i + w - ks / 2, j + x - ks / 2) * At(k, w * ks + x)
  }

  function Rows2(m: seq<real>, k: seq<real>, n: nat, ks: nat, i: nat, j: nat): nat -> real {
    (w: nat) => Total(ks, Taps2(m, k, n, ks, i, j, w))
  }

  /** The centred convolution of an `n` by `n` image with a `ks` by `ks` kernel, at `(i, j)`. */
  function Window2(m: seq<real>, k: seq<real>, n: nat, ks: nat, i: nat, j: nat): real { Total(ks, Rows2(m, k, n, ks, i, j)) }

  lemma Tap2Is(m: seq<real>, k: seq<real>, n: nat, ks: nat, i: nat, j: nat, w: nat, x: nat)
    requires |m| == Times(n, n) && |k| == Times(ks, ks) && w < ks && x < ks
    ensures Tap2(m, k, n, ks, i, j, w, x) == Taps2(m, k, n, ks, i, j, w)(x)
  {
    CellBelow(w, ks, x);
    TimesIsProduct(w, ks);
    Pixel2Is(m, n, i + w - ks / 2, j + x - ks / 2);
  }

  lemma Pixel2Is(m: seq<real>, n: nat, y: int, x: int)
    requires |m| == Times(n, n)
    ensures Pad2(m, n, y, x) == Pixel2(m, n, y, x)
  {
    if 0 <= y < n && 0 <= x < n {
      CellBelow(y, n, x);
      TimesIsProduct(y, n);
    }
  }

  lemma {:induction false} Row2Is(m: seq<real>, k: seq<real>, n: nat, ks: nat, i: nat, j: nat, w: nat, c: nat)
    requires |m| == Times(n, n) && |k| == Times(ks, ks) && w < ks && c <= ks
    ensures Row2(m, k, n, ks, i, j, w, c) == Total(c, Taps2(m, k, n, ks, i, j, w))
    decreases c
  {
    if c > 0 {
      Row2Is(m, k, n, ks, i, j, w, c - 1);
      Tap2Is(m, k, n, ks, i, j, w, c - 1);
    }
  }

  lemma {:induction false} Conv2Is(m: seq<real>, k: seq<real>, n: nat, ks: nat, i: nat, j: nat, r: nat)
    requires |m| == Times(n, n) && |k| == Times(ks, ks) && r <= ks
    ensures Conv2(m, k, n, ks, i, j, r) == Total(r, Rows2(m, k, n, ks, i, j))
    decreases r
  {
    if r > 0 {
      Conv2Is(m, k, n, ks, i, j, r - 1);
      Row2Is(m, k, n, ks, i, j, r - 1, ks);
    }
  }

  /** What the two-dimensional kernel leaves in a cell is the convolution. */
  lemma Convolved2Is(m: seq<real>, k: seq<real>, o: seq<real>, n: nat, ks: nat, i: nat, j: nat)
    requires |m| == Times(n, n) && |k| == Times(ks, ks) && Convolved2(m, k, o, n, ks, i, j)
    ensures |m| == n * n && |k| == ks * ks && i * n + j < |o| && o[i * n + j] == Window2(m, k, n, ks, i, j)
  {
    TimesIsProduct(n, n);
    TimesIsProduct(ks, ks);
    TimesIsProduct(i, n);
    Conv2Is(m, k, n, ks, i, j, ks);
  }

  /** The unrolled image: row `i * n + j` lists, row by row, the pixels under the kernel centred there. */
  lemma Im2col2Is(a: seq<real>, m: seq<real>, n: nat, ks: nat, i: nat, j: nat, w: nat, x: nat)
    requires IsIm2col2(a, m, n, ks) && i < n && j < n && w < ks && x < ks
    ensures At(a, (i * n + j) * (ks * ks) + w * ks + x) == Pixel2(m, n, i + w - ks / 2, j + x - ks / 2)
  {
    var row, area := Times(i, n) + j, Times(ks, ks);
    assert RowIsPatch2(a, m, n, ks, i, j) && PatchCell2(a, Times(row, area), m, n, ks, i, j, w, x);
    TimesIsProduct(i, n);
    TimesIsProduct(ks, ks);
    TimesIsProduct(row, area);
    TimesIsProduct(w, ks);
    Pixel2Is(m, n, i + w - ks / 2, j + x - ks / 2);
  }

  // ---------------------------------------------------------------- three dimensions

  /** Element `(y, x, z)` of a volume of side `n`, and 0 around it. */
  function Pixel3(m: seq<real>, n: nat, y: int, x: int, z: int): real {
    if 0 <= y < n && 0 <= x < n && 0 <= z < n then At(m, y * (n * n) + x * n + z) else 0.0
  }

  function Taps3(m: seq<real>, k: seq<real>, s: Spot, x: nat, y: nat): nat -> real {
    (z: nat) => Pixel3(m, s.n, s.i + x - s.ks / 2, s.j + y - s.ks / 2, s.w + z - s.ks / 2) * At(k, x * (s.ks * s.ks) + y * s.ks + z)
  }

  function Rows3(m: seq<real>, k: seq<real>, s: Spot, x: nat): nat -> real { (y: nat) => Total(s.ks, Taps3(m, k, s, x, y)) }

  function Planes3(m: seq<real>, k: seq<real>, s: Spot): nat -> real { (x: nat) => Total(s.ks, Rows3(m, k, s, x)) }

  function Window3(m: seq<real>, k: seq<real>, s: Spot): real { Total(s.ks, Planes3(m, k, s)) }

  lemma At3Is(n: nat, y: nat, x: nat, z: nat)
    ensures At3(n, y, x, z) == y * (n * n) + x * n + z
  {
    TimesIsProduct(n, n);
    TimesIsProduct(y, Times(n, n));
    TimesIsProduct(x, n);
  }

  lemma Pixel3Is(m: seq<real>, n: nat, y: int, x: int, z: int)
    requires |m| == Cube(n)
    ensures Pad3(m, n, y, x, z) == Pixel3(m, n, y, x, z)
  {
    if 0 <= y < n && 0 <= x < n && 0 <= z < n {
      Below3(n, y, x, z);
      At3Is(n, y, x, z);
    }
  }

  lemma Tap3Is(m: seq<real>, k: seq<real>, s: Spot, x: nat, y: nat, z: nat)
    requires |m| == Cube(s.n) && |k| == Cube(s.ks) && x < s.ks && y < s.ks && z < s.ks
    ensures Tap3(m, k, s, x, y, z) == Taps3(m, k, s, x, y)(z)
  {
    Below3(s.ks, x, y, z);
    At3Is(s.ks, x, y, z);
    Pixel3Is(m, s.n, s.i + x - s.ks / 2, s.j + y - s.ks / 2, s.w + z - s.ks / 2);
  }

  lemma {:induction false} Row3Is(m: seq<real>, k: seq<real>, s: Spot, x: nat, y: nat, c: nat)
    requires |m| == Cube(s.n) && |k| == Cube(s.ks) && x < s.ks && y < s.ks && c <= s.ks
    ensures Row3(m, k, s, x, y, c) == Total(c, Taps3(m, k, s, x, y))
    decreases c
  {
    if c > 0 {
      Row3Is(m, k, s, x, y, c - 1);
      Tap3Is(m, k, s, x, y, c - 1);
    }
  }

  lemma {:induction false} Plane3Is(m: seq<real>, k: seq<real>, s: Spot, x: nat, r: nat)
    requires |m| == Cube(s.n) && |k| == Cube(s.ks) && x < s.ks && r <= s.ks
    ensures Plane3(m, k, s, x, r) == Total(r, Rows3(m, k, s, x))
    decreases r
  {
    if r > 0 {
      Plane3Is(m, k, s, x, r - 1);
      Row3Is(m, k, s, x, r - 1, s.ks);
    }
  }

  lemma {:induction false} Conv3Is(m: seq<real>, k: seq<real>, s: Spot, p: nat)
    requires |m| == Cube(s.n) && |k| == Cube(s.ks) && p <= s.ks
    ensures Conv3(m, k, s, p) == Total(p, Planes3(m, k, s))
    decreases p
  {
    if p > 0 {
      Conv3Is(m, k, s, p - 1);
      Plane3Is(m, k, s, p - 1, s.ks);
    }
  }

  /** What the three-dimensional kernel leaves in a cell is the convolution. */
  lemma Convolved3Is(m: seq<real>, k: seq<real>, o: seq<real>, n: nat, ks: nat, i: nat, j: nat, w: nat)
    requires |m| == Cube(n) && |k| == Cube(ks) && Convolved3(m, k, o, n, ks, i, j, w)
    ensures var c: int := i * (n * n) + j * n + w; 0 <= c < |o| && o[c] == Window3(m, k, Spot(n, ks, i, j, w))
  {
    At3Is(n, i, j, w);
    Conv3Is(m, k, Spot(n, ks, i, j, w), ks);
  }

  lemma CubeIs(n: nat)
    ensures Cube(n) == n * (n * n)
  {
    TimesIsProduct(n, n);
    TimesIsProduct(n, Times(n, n));
  }

  /** The unrolled volume: one row per element, listing the volume under the kernel centred there. */
  lemma Im2col3Is(a: seq<real>, m: seq<real>, s: Spot, x: nat, y: nat, z: nat)
    requires IsIm2col3(a, m, s.n, s.ks) && s.i < s.n && s.j < s.n && s.w < s.n && x < s.ks && y < s.ks && z < s.ks
    ensures var row, cell := s.i * (s.n * s.n) + s.j * s.n + s.w, x * (s.ks * s.ks) + y * s.ks + z;
            At(a, row * (s.ks * (s.ks * s.ks)) + cell) ==
              Pixel3(m, s.n, s.i + x - s.ks / 2, s.j + y - s.ks / 2, s.w + z - s.ks / 2)
  {
    var row, cell := At3(s.n, s.i, s.j, s.w), At3(s.ks, x, y, z);
    assert RowIsPatch3(a, m, Spot(s.n, s.ks, s.i, s.j, s.w)) && PatchCell3(a, Times(row, Cube(s.ks)), m, s, x, y, z);
    Pixel3Is(m, s.n, s.i + x - s.ks / 2, s.j + y - s.ks / 2, s.w + z - s.ks / 2);
    assert row == s.i * (s.n * s.n) + s.j * s.n + s.w by { At3Is(s.n, s.i, s.j, s.w); }
    assert cell == x * (s.ks * s.ks) + y * s.ks + z by { At3Is(s.ks, x, y, z); }
    assert Times(row, Cube(s.ks)) == row * (s.ks * (s.ks * s.ks)) by {
      CubeIs(s.ks);
      TimesIsProduct(row, Cube(s.ks));
    }
  }

  // ---------------------------------------------------------------- the matrix forms compute the convolutions

  /** On the unrolled image, the matrix kernel leaves the two-dimensional convolution. */
  lemma GemmConvolves2(a: seq<real>, m: seq<real>, k: seq<real>, o: seq<real>, n: nat, ks: nat, i: nat, j: nat)
    requires IsIm2col2(a, m, n, ks) && |k| == Times(ks, ks) && i < n && j < n && GemmRow(a, k, o, Times(ks, ks), Times(i, n) + j)
    ensures i * n + j < |o| && o[i * n + j] == Window2(m, k, n, ks, i, j)
  {
    GemmIsConv2(a, m, k, n, ks, i, j);
    Conv2Is(m, k, n, ks, i, j, ks);
    TimesIsProduct(i, n);
  }

  lemma GemmConvolves3(a: seq<real>, m: seq<real>, k: seq<real>, o: seq<real>, s: Spot)
    requires IsIm2col3(a, m, s.n, s.ks) && |k| == Cube(s.ks) && s.i < s.n && s.j < s.n && s.w < s.n
    requires GemmRow(a, k, o, Cube(s.ks), At3(s.n, s.i, s.j, s.w))
    ensures var c: int := s.i * (s.n * s.n) + s.j * s.n + s.w; 0 <= c < |o| && o[c] == Window3(m, k, s)
  {
    GemmIsConv3(a, m, k, s);
    Conv3Is(m, k, s, s.ks);
    At3Is(s.n, s.i, s.j, s.w);
  }

  // ---------------------------------------------------------------- matrix products

  /** Row `i` of `a` with column `j` of `b`, or with row `j` of `b` when it is stored by columns. */
  function Terms(a: seq<real>, b: seq<real>, n: nat, i: nat, j: nat, byColumns: bool): nat -> real {
    (w: nat) => At(a, i * n + w) * At(b, if byColumns then j * n + w else w * n + j)
  }

  lemma Same(x: real, y: real, x': real, y': real)
    requires x == x' && y == y'
    ensures x * y == x' * y'
  {}

  lemma ElementIs(s: seq<real>, n: nat, y: nat, x: nat)
    requires Times(y, n) + x < |s|
    ensures At(s, y * n + x) == s[Times(y, n) + x]
  {
    TimesIsProduct(y, n);
  }

  /** The term of the kernel's own sum. */
  function KernelTerm(a: seq<real>, b: seq<real>, n: nat, i: nat, j: nat, byColumns: bool, w: nat): real
    requires |a| == Times(n, n) && |b| == Times(n, n) && i < n && j < n && w < n
  {
    CellBelow(i, n, w);
    CellBelow(w, n, j);
    CellBelow(j, n, w);
    a[Times(i, n) + w] * b[if byColumns then Times(j, n) + w else Times(w, n) + j]
  }

  lemma TermAt(a: seq<real>, b: seq<real>, n: nat, i: nat, j: nat, byColumns: bool, w: nat, p: nat, q: nat)
    requires p == i * n + w && q == (if byColumns then j * n + w else w * n + j) && p < |a| && q < |b|
    ensures Terms(a, b, n, i, j, byColumns)(w) == a[p] * b[q]
  {}

  lemma TermIs(a: seq<real>, b: seq<real>, n: nat, i: nat, j: nat, byColumns: bool, w: nat)
    requires |a| == Times(n, n) && |b| == Times(n, n) && i < n && j < n && w < n
    ensures Terms(a, b, n, i, j, byColumns)(w) == KernelTerm(a, b, n, i, j, byColumns, w)
  {
    var p, q := Times(i, n) + w, if byColumns then Times(j, n) + w else Times(w, n) + j;
    assert p < |a| && q < |b| by {
      CellBelow(i, n, w);
      CellBelow(w, n, j);
      CellBelow(j, n, w);
    }
    assert p == i * n + w by { TimesIsProduct(i, n); }
    assert q == if byColumns then j * n + w else w * n + j by { if byColumns { TimesIsProduct(j, n); } else { TimesIsProduct(w, n); } }
    TermAt(a, b, n, i, j, byColumns, w, p, q);
  }

  lemma {:induction false} RowsProductIs(a: seq<real>, b: seq<real>, n: nat, i: nat, j: nat, f: nat -> real, w: nat)
    requires |a| == Times(n, n) && |b| == Times(n, n) && i < n && j < n && w <= n
    requires forall v: nat :: v < n ==> f(v) == KernelTerm(a, b, n, i, j, false, v)
    ensures Product(a, b, n, i, j, w) == Total(w, f)
    decreases w
  {
    if w > 0 {
      RowsProductIs(a, b, n, i, j, f, w - 1);
      assert Times(i, n) + w - 1 == Times(i, n) + (w - 1);
      assert Product(a, b, n, i, j, w) == Product(a, b, n, i, j, w - 1) + KernelTerm(a, b, n, i, j, false, w - 1);
    }
  }

  lemma {:induction false} ColumnsProductIs(a: seq<real>, b: seq<real>, n: nat, i: nat, j: nat, f: nat -> real, w: nat)
    requires |a| == Times(n, n) && |b| == Times(n, n) && i < n && j < n && w <= n
    requires forall v: nat :: v < n ==> f(v) == KernelTerm(a, b, n, i, j, true, v)
    ensures ProductByColumns(a, b, n, i, j, w) == Total(w, f)
    decreases w
  {
    if w > 0 {
      ColumnsProductIs(a, b, n, i, j, f, w - 1);
      assert Times(i, n) + w - 1 == Times(i, n) + (w - 1) && Times(j, n) + w - 1 == Times(j, n) + (w - 1);
      assert ProductByColumns(a, b, n, i, j, w) == ProductByColumns(a, b, n, i, j, w - 1) + KernelTerm(a, b, n, i, j, true, w - 1);
    }
  }

  /** What the product kernels leave in a cell. */
  lemma MultipliedIs(a: seq<real>, b: seq<real>, c: seq<real>, n: nat, byColumns: bool, i: nat, j: nat)
    requires |a| == Times(n, n) && |b| == Times(n, n) && i < n && j < n && Multiplied(a, b, c, n, byColumns, i, j)
    ensures i * n + j < |c| && c[i * n + j] == Total(n, Terms(a, b, n, i, j, byColumns))
  {
    var f := Terms(a, b, n, i, j, byColumns);
    forall v: nat | v < n ensures f(v) == KernelTerm(a, b, n, i, j, byColumns, v) { TermIs(a, b, n, i, j, byColumns, v); }
    if byColumns { ColumnsProductIs(a, b, n, i, j, f, n); } else { RowsProductIs(a, b, n, i, j, f, n); }
    assert Times(i, n) == i * n by { TimesIsProduct(i, n); }
  }

  function GemmTerms(a: seq<real>, k: seq<real>, kSize: nat, i: nat): nat -> real { (t: nat) => At(a, i * kSize + t) * At(k, t) }

  lemma GemmTermIs(a: seq<real>, k: seq<real>, kSize: nat, i: nat, t: nat)
    requires Times(i, kSize) + kSize <= |a| && kSize <= |k| && t < kSize
    ensures GemmTerms(a, k, kSize, i)(t) == a[Times(i, kSize) + t] * k[t]
  {
    ElementIs(a, kSize, i, t);
    Same(At(a, i * kSize + t), At(k, t), a[Times(i, kSize) + t], k[t]);
  }

  lemma {:induction false} DotIs(a: seq<real>, k: seq<real>, kSize: nat, i: nat, n: nat)
    requires Times(i, kSize) + kSize <= |a| && kSize <= |k| && n <= kSize
    ensures Dot(a, Times(i, kSize), k, n) == Total(n, GemmTerms(a, k, kSize, i))
    decreases n
  {
    if n > 0 {
      DotIs(a, k, kSize, i, n - 1);
      GemmTermIs(a, k, kSize, i, n - 1);
      assert Times(i, kSize) + n - 1 == Times(i, kSize) + (n - 1);
    }
  }

  /** What the matrix form of a convolution leaves in output `i`. */
  lemma GemmRowIs(a: seq<real>, k: seq<real>, o: seq<real>, kSize: nat, i: nat)
    requires GemmRow(a, k, o, kSize, i)
    ensures o[i] == Total(kSize, GemmTerms(a, k, kSize, i))
  {
    DotIs(a, k, kSize, i, kSize);
  }

  // ---------------------------------------------------------------- buffer sizes

  /** The product of the factors. */
  function Volume(fs: seq<nat>): nat { if fs == [] then 1 else Volume(fs[..|fs| - 1]) * fs[|fs| - 1] }

  /** The factors of each buffer's element count, by opcode. */
  function FactorsM(j: Job): seq<nat> {
    var m, k := j.sizeM as nat, j.sizeK as nat;
    if j.opcode == 1 then [m, m, k, k] else if j.opcode == 2 then [m, m, m] else if j.opcode == 3 then [m, m, m, k, k, k] else [m, m]
  }

  function FactorsK(j: Job): seq<nat> {
    var m, k := j.sizeM as nat, j.sizeK as nat;
    if j.opcode <= 1 then [k, k] else if j.opcode <= 3 then [k, k, k] else if j.opcode <= 6 then [0] else [m, m]
  }

  lemma WrapsOnce(a: nat, b: nat)
    ensures Mul64(a % TWO64, b) == a * b % TWO64 && Mul64(b, a % TWO64) == a * b % TWO64
  {
    var q, r := a / TWO64, a % TWO64;
    assert a == q * TWO64 + r;
    assert a * b == (q * b) * TWO64 + r * b;
    Shifts(r * b, q * b);
    assert b * r == r * b;
  }

  lemma Shifts(x: nat, k: nat)
    ensures (k * TWO64 + x) % TWO64 == x % TWO64
    decreases k
  {
    if k > 0 {
      Shifts(x, k - 1);
      assert k * TWO64 + x == ((k - 1) * TWO64 + x) + TWO64;
    }
  }

  lemma WrapsTwice(a: nat, b: nat)
    ensures Mul64(a % TWO64, b % TWO64) == a * b % TWO64
  {
    var u := b % TWO64;
    WrapsOnce(a, u);
    WrapsOnce(b, a);
    assert Mul64(a, u) == a * u % TWO64;
    assert a * b == b * a;
  }

  lemma VolumeNext(fs: seq<nat>, f: nat)
    ensures Volume(fs + [f]) == Volume(fs) * f
  {
    assert (fs + [f])[..|fs|] == fs;
  }

  /** `v` is the product of the factors modulo 2^64. */
  predicate Counts(v: nat, fs: seq<nat>) { v == Volume(fs) % TWO64 }

  lemma CountsTwo(x: nat, y: nat)
    ensures Counts(Mul64(x, y), [x, y])
  {
    VolumeNext([], x);
    VolumeNext([x], y);
    assert [] + [x] == [x] && [x] + [y] == [x, y];
  }

  /** One more factor. */
  lemma CountsMore(v: nat, fs: seq<nat>, f: nat)
    requires Counts(v, fs)
    ensures Counts(Mul64(v, f), fs + [f])
  {
    VolumeNext(fs, f);
    WrapsOnce(Volume(fs), f);
  }

  lemma {:induction false} VolumeConcat(fs: seq<nat>, gs: seq<nat>)
    ensures Volume(fs + gs) == Volume(fs) * Volume(gs)
    decreases gs
  {
    if gs == [] {
      assert fs + gs == fs;
    } else {
      var front, last := gs[..|gs| - 1], gs[|gs| - 1];
      VolumeConcat(fs, front);
      assert fs + gs == (fs + front) + [last] && gs == front + [last];
      VolumeNext(fs + front, last);
      assert Volume(fs) * Volume(front) * last == Volume(fs) * (Volume(front) * last);
    }
  }

  /** The product of two counts. */
  lemma CountsBoth(v: nat, fs: seq<nat>, u: nat, gs: seq<nat>)
    requires Counts(v, fs) && Counts(u, gs)
    ensures Counts(Mul64(v, u), fs + gs)
  {
    VolumeConcat(fs, gs);
    WrapsTwice(Volume(fs), Volume(gs));
  }

  lemma ElementsMIs(j: Job)
    ensures Counts(ElementsM(j), FactorsM(j))
  {
    var m, k := j.sizeM as nat, j.sizeK as nat;
    CountsTwo(m, m);
    CountsTwo(k, k);
    CountsMore(Mul64(m, m), [m, m], m);
    CountsMore(Mul64(k, k), [k, k], k);
    assert [m, m] + [m] == [m, m, m] && [k, k] + [k] == [k, k, k];
    if j.opcode == 1 {
      CountsBoth(Mul64(m, m), [m, m], Mul64(k, k), [k, k]);
      assert [m, m] + [k, k] == [m, m, k, k];
    } else if j.opcode == 3 {
      CountsBoth(Mul64(Mul64(m, m), m), [m, m, m], Mul64(Mul64(k, k), k), [k, k, k]);
      assert [m, m, m] + [k, k, k] == [m, m, m, k, k, k];
    }
  }

  lemma ElementsKIs(j: Job)
    requires j.opcode <= 8
    ensures Counts(ElementsK(j), FactorsK(j))
  {
    var m, k := j.sizeM as nat, j.sizeK as nat;
    CountsTwo(m, m);
    CountsTwo(k, k);
    CountsMore(Mul64(k, k), [k, k], k);
    assert [k, k] + [k] == [k, k, k];
    VolumeNext([], 0);
    assert [] + [0] == [0];
  }

  lemma ElementsOIs(j: Job)
    requires Startable(j)
    ensures j.opcode == 2 || j.opcode == 3 ==> Counts(ElementsO(j), [j.sizeM, j.sizeM, j.sizeM])
    ensures j.opcode == 4 || j.opcode == 5 ==> j.sizeK > 0 && ElementsO(j) == j.sizeM * j.sizeM % TWO64 / j.sizeK / j.sizeK
    ensures j.opcode < 2 || j.opcode > 5 ==> Counts(ElementsO(j), [j.sizeM, j.sizeM])
  {
    var m := j.sizeM as nat;
    CountsTwo(m, m);
    CountsMore(Mul64(m, m), [m, m], m);
    assert [m, m] + [m] == [m, m, m];
  }

  /**
   The bytes of a started job's buffers: four per element, modulo 2^64.  The image or its
   unrolled form, the kernel or the second matrix (none for pooling and rectification), and the output.
   */
  lemma PlanSizes(j: Job)
    requires Startable(j)
    ensures var p := PlanOf(j);
            && p.job == j && Counts(p.m, FactorsM(j) + [4]) && Counts(p.k, FactorsK(j) + [4])
            && (if j.opcode == 4 || j.opcode == 5 then j.sizeK > 0 && p.o == j.sizeM * j.sizeM % TWO64 / j.sizeK / j.sizeK * 4 % TWO64
                else Counts(p.o, (if j.opcode == 2 || j.opcode == 3 then [j.sizeM, j.sizeM, j.sizeM] else [j.sizeM, j.sizeM]) + [4]))
  {
    ElementsMIs(j);
    ElementsKIs(j);
    ElementsOIs(j);
    CountsMore(ElementsM(j), FactorsM(j), 4);
    CountsMore(ElementsK(j), FactorsK(j), 4);
    if j.opcode == 2 || j.opcode == 3 {
      CountsMore(ElementsO(j), [j.sizeM, j.sizeM, j.sizeM], 4);
    } else if j.opcode < 2 || j.opcode > 5 {
      CountsMore(ElementsO(j), [j.sizeM, j.sizeM], 4);
    }
  }
}
