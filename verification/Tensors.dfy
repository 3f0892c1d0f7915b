/** Dense four-dimensional tensors: row-major indices, their bounds and their order. */
module Tensors {

  datatype Shape = Shape(n: nat, h: nat, w: nat, c: nat)

  /** The product, as a running sum, so that index arithmetic stays linear. */
  function Times(a: nat, b: nat): nat { if a == 0 then 0 else Times(a - 1, b) + b }

  lemma {:induction false} TimesIsProduct(a: nat, b: nat)
    ensures Times(a, b) == a * b
  {
    if a > 0 {
      TimesIsProduct(a - 1, b);
      assert a * b == (a - 1) * b + b;
    }
  }

  lemma {:induction false} TimesMonotone(a: nat, a': nat, b: nat)
    requires a <= a'
    ensures Times(a, b) <= Times(a', b)
    ensures a < a' ==> Times(a, b) + b <= Times(a', b)
    decreases a'
  {
    if a < a' { TimesMonotone(a, a' - 1, b); }
  }

  predicate Within(s: Shape, n: nat, h: nat, w: nat, c: nat) { n < s.n && h < s.h && w < s.w && c < s.c }

  /** `((n * H + h) * W + w) * C + c`. */
  function Index(s: Shape, n: nat, h: nat, w: nat, c: nat): nat {
    Times(Times(Times(n, s.h) + h, s.w) + w, s.c) + c
  }

  function Volume(s: Shape): nat { Index(s, s.n, 0, 0, 0) }

  lemma IndexIsProduct(s: Shape, n: nat, h: nat, w: nat, c: nat)
    ensures Index(s, n, h, w, c) == ((n * s.h + h) * s.w + w) * s.c + c
    ensures Volume(s) == s.n * s.h * s.w * s.c
  {
    TimesIsProduct(n, s.h);
    TimesIsProduct(Times(n, s.h) + h, s.w);
    TimesIsProduct(Times(Times(n, s.h) + h, s.w) + w, s.c);
    TimesIsProduct(s.n, s.h);
    TimesIsProduct(Times(s.n, s.h), s.w);
    TimesIsProduct(Times(Times(s.n, s.h), s.w), s.c);
  }

  /** Two levels: a row of length `b` holds its cells and ends where the next begins. */
  lemma RowOrder(q: nat, r: nat, q': nat, r': nat, b: nat)
    requires r < b && r' < b
    ensures q < q' ==> Times(q, b) + r < Times(q', b) + r'
    ensures Times(q, b) + r == Times(q', b) + r' ==> q == q' && r == r'
  {
    if q < q' { TimesMonotone(q, q', b); }
    if q' < q { TimesMonotone(q', q, b); }
  }

  lemma IndexInVolume(s: Shape, n: nat, h: nat, w: nat, c: nat)
    requires Within(s, n, h, w, c)
    ensures Index(s, n, h, w, c) < Volume(s)
  {
    TimesMonotone(n, s.n, s.h);
    TimesMonotone(Times(n, s.h) + h, Times(s.n, s.h), s.w);
    TimesMonotone(Times(Times(n, s.h) + h, s.w) + w, Times(Times(s.n, s.h), s.w), s.c);
  }

  /** Different cells have different indices. */
  lemma IndexInjective(s: Shape, n: nat, h: nat, w: nat, c: nat, n': nat, h': nat, w': nat, c': nat)
    requires Within(s, n, h, w, c) && Within(s, n', h', w', c') && Index(s, n, h, w, c) == Index(s, n', h', w', c')
    ensures n == n' && h == h' && w == w' && c == c'
  {
    var q, q' := Times(n, s.h) + h, Times(n', s.h) + h';
    RowOrder(Times(q, s.w) + w, c, Times(q', s.w) + w', c', s.c);
    RowOrder(q, w, q', w', s.w);
    RowOrder(n, h, n', h', s.h);
  }

  /** Past the last cell of a row comes the first cell of the next. */
  lemma IndexCarries(s: Shape, n: nat, h: nat, w: nat)
    ensures Index(s, n, h, w, s.c) == Index(s, n, h, w + 1, 0)
    ensures Index(s, n, h, s.w, 0) == Index(s, n, h + 1, 0, 0)
    ensures Index(s, n, s.h, 0, 0) == Index(s, n + 1, 0, 0, 0)
  {}
}
