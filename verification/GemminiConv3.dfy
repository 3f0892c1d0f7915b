/** The three-dimensional convolution kernel and its matrix form. */
module GemminiConv3 {
  import opened Tensors
  import opened GemminiKernels

  function Cube(n: nat): nat { Times(n, Times(n, n)) }

  function At3(n: nat, y: nat, x: nat, z: nat): nat { Times(y, Times(n, n)) + Times(x, n) + z }

  lemma Below3(n: nat, y: nat, x: nat, z: nat)
    requires y < n && x < n && z < n
    ensures At3(n, y, x, z) < Cube(n)
  {
    CellBelow(x, n, z);
    TimesMonotone(y, n, Times(n, n));
  }

  /** The volume extended by zeros. */
  function Pad3(m: seq<real>, n: nat, y: int, x: int, z: int): real
    requires |m| == Cube(n)
  {
    if 0 <= y < n && 0 <= x < n && 0 <= z < n then Below3(n, y, x, z); m[At3(n, y, x, z)] else 0.0
  }

  /** An output cell and the geometry around it. */
  datatype Spot = Spot(n: nat, ks: nat, i: nat, j: nat, w: nat)

  function Under(m: seq<real>, s: Spot, x: nat, y: nat, z: nat): real
    requires |m| == Cube(s.n)
  {
    Pad3(m, s.n, s.i + x - s.ks / 2, s.j + y - s.ks / 2, s.w + z - s.ks / 2)
  }

  function Tap3(m: seq<real>, k: seq<real>, s: Spot, x: nat, y: nat, z: nat): real
    requires |m| == Cube(s.n) && |k| == Cube(s.ks) && x < s.ks && y < s.ks && z < s.ks
  {
    Below3(s.ks, x, y, z);
    Under(m, s, x, y, z) * k[At3(s.ks, x, y, z)]
  }

  function Row3(m: seq<real>, k: seq<real>, s: Spot, x: nat, y: nat, c: nat): real
    requires |m| == Cube(s.n) && |k| == Cube(s.ks) && x < s.ks && y < s.ks && c <= s.ks
    decreases c
  {
    if c == 0 then 0.0 else Row3(m, k, s, x, y, c - 1) + Tap3(m, k, s, x, y, c - 1)
  }

  function Plane3(m: seq<real>, k: seq<real>, s: Spot, x: nat, r: nat): real
    requires |m| == Cube(s.n) && |k| == Cube(s.ks) && x < s.ks && r <= s.ks
    decreases r
  {
    if r == 0 then 0.0 else Plane3(m, k, s, x, r - 1) + Row3(m, k, s, x, r - 1, s.ks)
  }

  /** The centred convolution at the spot, over the first `p` kernel planes. */
  function Conv3(m: seq<real>, k: seq<real>, s: Spot, p: nat): real
    requires |m| == Cube(s.n) && |k| == Cube(s.ks) && p <= s.ks
    decreases p
  {
    if p == 0 then 0.0 else Conv3(m, k, s, p - 1) + Plane3(m, k, s, p - 1, s.ks)
  }

  // ---------------------------------------------------------------- the matrix form

  predicate PatchCell3(a: seq<real>, at: nat, m: seq<real>, s: Spot, x: nat, y: nat, z: nat)
    requires |m| == Cube(s.n)
  {
    at + At3(s.ks, x, y, z) < |a| && a[at + At3(s.ks, x, y, z)] == Under(m, s, x, y, z)
  }

  /** `a` holds, from `at` on, the padded volume under the kernel centred at the spot. */
  predicate Patch3(a: seq<real>, at: nat, m: seq<real>, s: Spot)
    requires |m| == Cube(s.n)
  {
    && at + Cube(s.ks) <= |a|
    && forall x: nat, y: nat, z: nat :: x < s.ks && y < s.ks && z < s.ks ==> PatchCell3(a, at, m, s, x, y, z)
  }

  predicate RowIsPatch3(a: seq<real>, m: seq<real>, s: Spot)
    requires |m| == Cube(s.n)
  {
    Patch3(a, Times(At3(s.n, s.i, s.j, s.w), Cube(s.ks)), m, s)
  }

  predicate IsIm2col3(a: seq<real>, m: seq<real>, n: nat, ks: nat) {
    && |m| == Cube(n)
    && forall i: nat, j: nat, w: nat :: i < n && j < n && w < n ==> RowIsPatch3(a, m, Spot(n, ks, i, j, w))
  }

  lemma ProductIsTap3(a: seq<real>, at: nat, m: seq<real>, k: seq<real>, s: Spot, x: nat, y: nat, z: nat)
    requires |m| == Cube(s.n) && |k| == Cube(s.ks) && Patch3(a, at, m, s) && x < s.ks && y < s.ks && z < s.ks
    ensures At3(s.ks, x, y, z) < |k| && Products(a, at, k)[At3(s.ks, x, y, z)] == Tap3(m, k, s, x, y, z)
  {
    Below3(s.ks, x, y, z);
    assert PatchCell3(a, at, m, s, x, y, z);
  }

  lemma {:induction false} Row3IsSum(a: seq<real>, at: nat, m: seq<real>, k: seq<real>, s: Spot, x: nat, y: nat, c: nat)
    requires |m| == Cube(s.n) && |k| == Cube(s.ks) && Patch3(a, at, m, s) && x < s.ks && y < s.ks && c <= s.ks
    ensures At3(s.ks, x, y, 0) + c <= |k| && Row3(m, k, s, x, y, c) == Sum(Products(a, at, k), At3(s.ks, x, y, 0), c)
    decreases c
  {
    Below3(s.ks, x, y, s.ks - 1);
    if c > 0 {
      Row3IsSum(a, at, m, k, s, x, y, c - 1);
      ProductIsTap3(a, at, m, k, s, x, y, c - 1);
      assert At3(s.ks, x, y, c - 1) == At3(s.ks, x, y, 0) + (c - 1);
    }
  }

  lemma PlaneInside(ks: nat, x: nat, r: nat)
    requires x < ks && r <= ks
    ensures Times(x, Times(ks, ks)) + Times(r, ks) <= Cube(ks)
  {
    TimesMonotone(r, ks, ks);
    TimesMonotone(x, ks, Times(ks, ks));
  }

  /** Row `(x, y)` of the kernel adds up as a run of `p`. */
  predicate RowSummed(p: seq<real>, m: seq<real>, k: seq<real>, s: Spot, x: nat, y: nat)
    requires |m| == Cube(s.n) && |k| == Cube(s.ks) && x < s.ks && y < s.ks
  {
    At3(s.ks, x, y, 0) + s.ks <= |p| && Row3(m, k, s, x, y, s.ks) == Sum(p, At3(s.ks, x, y, 0), s.ks)
  }

  lemma {:induction false} Plane3IsSum(p: seq<real>, m: seq<real>, k: seq<real>, s: Spot, x: nat, r: nat)
    requires |m| == Cube(s.n) && |k| == Cube(s.ks) && |p| == |k| && x < s.ks && r <= s.ks
    requires forall y: nat :: y < s.ks ==> RowSummed(p, m, k, s, x, y)
    ensures Times(x, Times(s.ks, s.ks)) + Times(r, s.ks) <= |p|
    ensures Plane3(m, k, s, x, r) == SumRows(p, Times(x, Times(s.ks, s.ks)), s.ks, r)
    decreases r
  {
    PlaneInside(s.ks, x, r);
    if r > 0 {
      Plane3IsSum(p, m, k, s, x, r - 1);
      assert RowSummed(p, m, k, s, x, r - 1);
      PlaneNext(p, m, k, s, x, r - 1);
    }
  }

  lemma PlaneNext(p: seq<real>, m: seq<real>, k: seq<real>, s: Spot, x: nat, r: nat)
    requires |m| == Cube(s.n) && |k| == Cube(s.ks) && |p| == |k| && x < s.ks && r < s.ks && RowSummed(p, m, k, s, x, r)
    requires Times(x, Times(s.ks, s.ks)) + Times(r + 1, s.ks) <= |p|
    requires Plane3(m, k, s, x, r) == SumRows(p, Times(x, Times(s.ks, s.ks)), s.ks, r)
    ensures Plane3(m, k, s, x, r + 1) == SumRows(p, Times(x, Times(s.ks, s.ks)), s.ks, r + 1)
  {
    assert At3(s.ks, x, r, 0) == Times(x, Times(s.ks, s.ks)) + Times(r, s.ks);
  }

  lemma {:induction false} Conv3IsSum(a: seq<real>, at: nat, m: seq<real>, k: seq<real>, s: Spot, p: nat)
    requires |m| == Cube(s.n) && |k| == Cube(s.ks) && Patch3(a, at, m, s) && p <= s.ks
    ensures Times(p, Times(s.ks, s.ks)) <= |k| && Conv3(m, k, s, p) == SumPlanes(Products(a, at, k), s.ks, p)
    decreases p
  {
    TimesMonotone(p, s.ks, Times(s.ks, s.ks));
    if p > 0 {
      Conv3IsSum(a, at, m, k, s, p - 1);
      var q, ps := p - 1, Products(a, at, k);
      forall y: nat | y < s.ks ensures RowSummed(ps, m, k, s, q, y) { Row3IsSum(a, at, m, k, s, q, y, s.ks); }
      Plane3IsSum(ps, m, k, s, q, s.ks);
    }
  }

  /** On the unrolled volume, the matrix product computes the three-dimensional convolution. */
  lemma GemmIsConv3(a: seq<real>, m: seq<real>, k: seq<real>, s: Spot)
    requires IsIm2col3(a, m, s.n, s.ks) && |k| == Cube(s.ks) && s.i < s.n && s.j < s.n && s.w < s.n
    ensures Times(At3(s.n, s.i, s.j, s.w), Cube(s.ks)) + Cube(s.ks) <= |a|
    ensures Dot(a, Times(At3(s.n, s.i, s.j, s.w), Cube(s.ks)), k, Cube(s.ks)) == Conv3(m, k, s, s.ks)
  {
    var at := Times(At3(s.n, s.i, s.j, s.w), Cube(s.ks));
    assert RowIsPatch3(a, m, Spot(s.n, s.ks, s.i, s.j, s.w));
    DotIsSum(a, at, k, |k|);
    PlanesAreFlat(Products(a, at, k), s.ks, s.ks);
    Conv3IsSum(a, at, m, k, s, s.ks);
  }

  // ---------------------------------------------------------------- the loops

  method TapAt3(m: array<real>, k: array<real>, s: Spot, x: nat, y: nat, z: nat) returns (term: real)
    requires m.Length == Cube(s.n) && k.Length == Cube(s.ks) && x < s.ks && y < s.ks && z < s.ks
    ensures term == Tap3(m[..], k[..], s, x, y, z)
  {
    Below3(s.ks, x, y, z);
    var mi, mj, mw := s.i + x - s.ks / 2, s.j + y - s.ks / 2, s.w + z - s.ks / 2;
    if mi < 0 || mi >= s.n || mj < 0 || mj >= s.n || mw < 0 || mw >= s.n { return 0.0; }
    Below3(s.n, mi, mj, mw);
    term := m[At3(s.n, mi, mj, mw)] * k[At3(s.ks, x, y, z)];
  }

  method AddRow3(m: array<real>, k: array<real>, o: array<real>, s: Spot, x: nat, y: nat, at: nat)
    requires o != m && o != k && m.Length == Cube(s.n) && k.Length == Cube(s.ks) && x < s.ks && y < s.ks && at < o.Length
    modifies o
    ensures o[at] == old(o[at]) + Row3(m[..], k[..], s, x, y, s.ks) && OnlyAt(old(o[..]), o[..], at)
  {
    for z := 0 to s.ks
      invariant o[at] == old(o[at]) + Row3(m[..], k[..], s, x, y, z) && OnlyAt(old(o[..]), o[..], at)
    {
      var term := TapAt3(m, k, s, x, y, z);
      o[at] := o[at] + term;
    }
  }

  method AddPlane3(m: array<real>, k: array<real>, o: array<real>, s: Spot, x: nat, at: nat)
    requires o != m && o != k && m.Length == Cube(s.n) && k.Length == Cube(s.ks) && x < s.ks && at < o.Length
    modifies o
    ensures o[at] == old(o[at]) + Plane3(m[..], k[..], s, x, s.ks) && OnlyAt(old(o[..]), o[..], at)
  {
    for y := 0 to s.ks
      invariant o[at] == old(o[at]) + Plane3(m[..], k[..], s, x, y) && OnlyAt(old(o[..]), o[..], at)
    {
      AddRow3(m, k, o, s, x, y, at);
    }
  }

  method ConvolveSpot(m: array<real>, k: array<real>, o: array<real>, s: Spot, at: nat)
    requires o != m && o != k && m.Length == Cube(s.n) && k.Length == Cube(s.ks) && at < o.Length
    modifies o
    ensures o[at] == Conv3(m[..], k[..], s, s.ks) && OnlyAt(old(o[..]), o[..], at)
  {
    o[at] := 0.0;
    for x := 0 to s.ks
      invariant o[at] == Conv3(m[..], k[..], s, x) && OnlyAt(old(o[..]), o[..], at)
    {
      AddPlane3(m, k, o, s, x, at);
    }
  }

  predicate Convolved3(m: seq<real>, k: seq<real>, o: seq<real>, n: nat, ks: nat, i: nat, j: nat, w: nat)
    requires |m| == Cube(n) && |k| == Cube(ks)
  {
    At3(n, i, j, w) < |o| && o[At3(n, i, j, w)] == Conv3(m, k, Spot(n, ks, i, j, w), ks)
  }

  ghost predicate Done3(m: seq<real>, k: seq<real>, o: seq<real>, n: nat, ks: nat, end: nat)
    requires |m| == Cube(n) && |k| == Cube(ks)
  {
    forall i: nat, j: nat, w: nat :: i < n && j < n && w < n && At3(n, i, j, w) < end ==> Convolved3(m, k, o, n, ks, i, j, w)
  }

  lemma At3Injective(n: nat, i: nat, j: nat, w: nat, i': nat, j': nat, w': nat)
    requires i < n && j < n && w < n && i' < n && j' < n && w' < n && At3(n, i, j, w) == At3(n, i', j', w')
    ensures i == i' && j == j' && w == w'
  {
    CellBelow(j, n, w);
    CellBelow(j', n, w');
    RowOrder(i, Times(j, n) + w, i', Times(j', n) + w', Times(n, n));
    RowOrder(j, w, j', w', n);
  }

  lemma Done3Grows(m: seq<real>, k: seq<real>, o: seq<real>, o': seq<real>, n: nat, ks: nat, i: nat, j: nat, w: nat)
    requires |m| == Cube(n) && |k| == Cube(ks) && i < n && j < n && w < n && At3(n, i, j, w) < |o|
    requires Done3(m, k, o, n, ks, At3(n, i, j, w)) && OnlyAt(o, o', At3(n, i, j, w)) && Convolved3(m, k, o', n, ks, i, j, w)
    ensures Done3(m, k, o', n, ks, At3(n, i, j, w) + 1)
  {
    forall i': nat, j': nat, w': nat | i' < n && j' < n && w' < n && At3(n, i', j', w') < At3(n, i, j, w) + 1
      ensures Convolved3(m, k, o', n, ks, i', j', w')
    {
      if At3(n, i', j', w') == At3(n, i, j, w) {
        At3Injective(n, i, j, w, i', j', w');
      } else {
        assert Convolved3(m, k, o, n, ks, i', j', w');
      }
    }
  }

  method ConvolveLine(m: array<real>, k: array<real>, o: array<real>, n: nat, ks: nat, i: nat, j: nat)
    requires o != m && o != k && m.Length == Cube(n) && k.Length == Cube(ks) && o.Length == Cube(n) && i < n && j < n
    requires Done3(m[..], k[..], o[..], n, ks, At3(n, i, j, 0))
    modifies o
    ensures Done3(m[..], k[..], o[..], n, ks, At3(n, i, j + 1, 0))
  {
    for w := 0 to n
      invariant Done3(m[..], k[..], o[..], n, ks, At3(n, i, j, w))
    {
      Below3(n, i, j, w);
      ghost var before := o[..];
      ConvolveSpot(m, k, o, Spot(n, ks, i, j, w), At3(n, i, j, w));
      Done3Grows(m[..], k[..], before, o[..], n, ks, i, j, w);
    }
    assert Times(j + 1, n) == Times(j, n) + n;
  }

  method BaseConv3D(m: array<real>, k: array<real>, o: array<real>, n: nat, ks: nat)
    requires o != m && o != k && m.Length == Cube(n) && k.Length == Cube(ks) && o.Length == Cube(n)
    modifies o
    ensures forall i: nat, j: nat, w: nat :: i < n && j < n && w < n ==> Convolved3(m[..], k[..], o[..], n, ks, i, j, w)
  {
    for i := 0 to n
      invariant Done3(m[..], k[..], o[..], n, ks, At3(n, i, 0, 0))
    {
      for j := 0 to n
        invariant Done3(m[..], k[..], o[..], n, ks, At3(n, i, j, 0))
      {
        ConvolveLine(m, k, o, n, ks, i, j);
      }
      assert Times(i + 1, Times(n, n)) == Times(i, Times(n, n)) + Times(n, n);
    }
    forall i: nat, j: nat, w: nat | i < n && j < n && w < n ensures Convolved3(m[..], k[..], o[..], n, ks, i, j, w) {
      Below3(n, i, j, w);
    }
  }
}
