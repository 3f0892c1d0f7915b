/** Subtracting a list of plain ranges from a range and from a list of ranges. */
module AddrExclude {
  import opened Bits
  import opened Sorting
  import opened AddrRanges

  /** A range without interleaving. */
  predicate Plain(r: AddrRange) {
    r.masks == [] && r.intlvMatch == 0
  }

  /** An exclusion with its start after its end, which holds nothing, does no harm where it is skipped. */
  predicate Harmless(r: AddrRange, e: AddrRange)
    requires Plain(r)
  {
    Plain(e) && (e.start <= e.end || !Intersects(r, e))
  }

  predicate AllHarmless(r: AddrRange, rs: seq<AddrRange>)
    requires Plain(r)
  {
    forall i :: 0 <= i < |rs| ==> Harmless(r, rs[i])
  }

  /** Some range of the list contains the address. */
  predicate Covered(rs: seq<AddrRange>, a: nat) {
    exists i :: 0 <= i < |rs| && In(rs[i], a)
  }

  /** Non-empty, in increasing order, without overlap, and between `lo` and `hi`. */
  predicate Chain(rs: seq<AddrRange>, lo: nat, hi: nat) {
    (forall i :: 0 <= i < |rs| ==> Plain(rs[i]) && lo <= rs[i].start < rs[i].end <= hi) &&
    forall i, j :: 0 <= i < j < |rs| ==> rs[i].end <= rs[j].start
  }

  function StartOf(r: AddrRange): int { r.start }

  lemma PlainIn(r: AddrRange, a: nat)
    requires Plain(r)
    ensures In(r, a) <==> r.start <= a < r.end
  {}

  lemma CoveredNext(rs: seq<AddrRange>, r: AddrRange, a: nat)
    ensures Covered(rs + [r], a) <==> Covered(rs, a) || In(r, a)
  {
    var t := rs + [r];
    if Covered(rs, a) { var i :| 0 <= i < |rs| && In(rs[i], a); assert In(t[i], a); }
    if In(r, a) { assert In(t[|rs|], a); }
    if Covered(t, a) && !In(r, a) { var i :| 0 <= i < |t| && In(t[i], a); assert In(rs[i], a); }
  }

  lemma CoveredJoin(rs: seq<AddrRange>, ss: seq<AddrRange>, a: nat)
    ensures Covered(rs + ss, a) <==> Covered(rs, a) || Covered(ss, a)
  {
    var t := rs + ss;
    if Covered(rs, a) { var i :| 0 <= i < |rs| && In(rs[i], a); assert In(t[i], a); }
    if Covered(ss, a) { var i :| 0 <= i < |ss| && In(ss[i], a); assert In(t[|rs| + i], a); }
    if Covered(t, a) {
      var i :| 0 <= i < |t| && In(t[i], a);
      if i < |rs| { assert In(rs[i], a); } else { assert In(ss[i - |rs|], a); }
    }
  }

  lemma CoveredSorted(rs: seq<AddrRange>, a: nat)
    ensures Covered(SortBy(rs, StartOf), a) <==> Covered(rs, a)
  {
    var s := SortBy(rs, StartOf);
    if Covered(rs, a) { var i :| 0 <= i < |rs| && In(rs[i], a); assert rs[i] in s; }
    if Covered(s, a) { var i :| 0 <= i < |s| && In(s[i], a); assert s[i] in rs; }
  }

  predicate Intersects(r: AddrRange, e: AddrRange)
    requires Plain(r) && Plain(e)
  {
    !(r.start >= e.end || r.end <= e.start)
  }

  /**
   Where the loop stands after some exclusions: below `next` the output is exact, from
   `next` on nothing is output and nothing processed so far excludes anything.
   */
  predicate Progress(r: AddrRange, done: seq<AddrRange>, out: seq<AddrRange>, next: nat, a: nat) {
    (a < next ==> (Covered(out, a) <==> In(r, a) && !Covered(done, a))) &&
    (a >= next ==> !Covered(out, a) && (In(r, a) ==> !Covered(done, a)))
  }

  lemma ChainEnd(out: seq<AddrRange>, lo: nat, hi: nat, a: nat)
    requires Chain(out, lo, hi) && a >= hi
    ensures !Covered(out, a)
  {}

  /** One exclusion, in each of the three ways the loop body can treat it. */
  lemma ProgressStep(r: AddrRange, done: seq<AddrRange>, e: AddrRange, out: seq<AddrRange>,
                     from: nat, next: Addr, a: nat)
    requires Plain(r) && Harmless(r, e) && r.start <= from <= next && Chain(out, r.start, from)
    requires out == [] || from <= e.start
    requires Progress(r, done, out, next, a)
    ensures !Intersects(r, e) ==> Progress(r, done + [e], out, next, a)
    ensures e.start <= next ==> Progress(r, done + [e], out, if next < e.end then e.end else next, a)
    ensures Intersects(r, e) && next < e.start ==>
              Progress(r, done + [e], out + [AddrRange(next, e.start, [], 0)], e.end, a)
  {
    CoveredNext(done, e, a);
    CoveredNext(out, AddrRange(next, e.start, [], 0), a);
    PlainIn(e, a);
    PlainIn(r, a);
    if a >= from { ChainEnd(out, r.start, from, a); }
  }

  /** The loop stops once `next` has reached the end: what is left to exclude changes nothing. */
  lemma ProgressEnds(r: AddrRange, done: seq<AddrRange>, rest: seq<AddrRange>, out: seq<AddrRange>,
                     from: nat, next: nat, a: nat)
    requires Plain(r) && AllHarmless(r, rest) && r.end <= next && Chain(out, r.start, from)
    requires forall i :: 0 <= i < |rest| ==> from <= rest[i].start
    requires Progress(r, done, out, next, a)
    ensures Covered(out, a) <==> In(r, a) && !Covered(done + rest, a)
  {
    CoveredJoin(done, rest, a);
    if Covered(rest, a) {
      var i :| 0 <= i < |rest| && In(rest[i], a);
      ChainEnd(out, r.start, from, a);
    }
  }

  /** The loop invariant: `from` bounds the output so far and starts the rest of the list. */
  ghost predicate State(r: AddrRange, sorted: seq<AddrRange>, i: nat, out: seq<AddrRange>, from: nat, next: Addr)
    requires i <= |sorted|
  {
    r.start <= from <= next && Chain(out, r.start, from) && (out == [] || next < r.end) &&
    (out == [] || forall j :: i <= j < |sorted| ==> from <= sorted[j].start) &&
    forall a: nat :: Progress(r, sorted[..i], out, next, a)
  }

  ghost predicate Difference(out: seq<AddrRange>, r: AddrRange, excluded: seq<AddrRange>) {
    forall a: nat :: Covered(out, a) <==> In(r, a) && !Covered(excluded, a)
  }

  lemma StateStep(r: AddrRange, sorted: seq<AddrRange>, i: nat, out: seq<AddrRange>, from: nat, next: Addr)
    requires Plain(r) && AllHarmless(r, sorted) && SortedBy(sorted, StartOf) && i < |sorted|
    requires State(r, sorted, i, out, from, next)
    ensures var e := sorted[i]; !Intersects(r, e) ==> State(r, sorted, i + 1, out, from, next)
    ensures var e := sorted[i]; Intersects(r, e) && e.start <= next && e.end < r.end ==>
              State(r, sorted, i + 1, out, from, if next < e.end then e.end else next)
    ensures var e := sorted[i]; Intersects(r, e) && next < e.start && e.end < r.end ==>
              State(r, sorted, i + 1, out + [AddrRange(next, e.start, [], 0)], e.start, e.end)
  {
    var e := sorted[i];
    assert sorted[..i + 1] == sorted[..i] + [e];
    assert forall j :: i < j < |sorted| ==> StartOf(e) <= StartOf(sorted[j]);
    var next' := if next < e.end then e.end else next;
    var done := sorted[..i + 1];
    if !Intersects(r, e) {
      forall a: nat ensures Progress(r, done, out, next, a) { ProgressStep(r, sorted[..i], e, out, from, next, a); }
    } else if e.start <= next {
      forall a: nat ensures Progress(r, done, out, next', a) { ProgressStep(r, sorted[..i], e, out, from, next, a); }
    } else {
      var out' := out + [AddrRange(next, e.start, [], 0)];
      forall a: nat ensures Progress(r, done, out', e.end, a) { ProgressStep(r, sorted[..i], e, out, from, next, a); }
    }
  }

  lemma StateExit(r: AddrRange, sorted: seq<AddrRange>, i: nat, out: seq<AddrRange>, from: nat, next: Addr)
    requires Plain(r) && AllHarmless(r, sorted) && SortedBy(sorted, StartOf) && i < |sorted|
    requires State(r, sorted, i, out, from, next)
    ensures var e := sorted[i]; Intersects(r, e) && e.start <= next && e.end >= r.end ==> Difference(out, r, sorted)
    ensures var e := sorted[i]; Intersects(r, e) && next < e.start && e.end >= r.end ==>
              var out' := out + [AddrRange(next, e.start, [], 0)];
              Chain(out', r.start, r.end) && Difference(out', r, sorted)
  {
    var e, rest := sorted[i], sorted[i + 1..];
    assert sorted[..i + 1] == sorted[..i] + [e];
    assert sorted == sorted[..i + 1] + rest;
    assert forall j :: i < j < |sorted| ==> StartOf(e) <= StartOf(sorted[j]);
    var next' := if next < e.end then e.end else next;
    var out' := out + [AddrRange(next, e.start, [], 0)];
    if Intersects(r, e) && e.end >= r.end {
      forall a: nat ensures e.start <= next ==> (Covered(out, a) <==> In(r, a) && !Covered(sorted, a))
                    ensures next < e.start ==> (Covered(out', a) <==> In(r, a) && !Covered(sorted, a))
      {
        ProgressStep(r, sorted[..i], e, out, from, next, a);
        if e.start <= next {
          ProgressEnds(r, sorted[..i + 1], rest, out, if out == [] then 0 else from, next', a);
        } else {
          ProgressEnds(r, sorted[..i + 1], rest, out', e.start, e.end, a);
        }
      }
    }
  }

  lemma StateEnd(r: AddrRange, sorted: seq<AddrRange>, out: seq<AddrRange>, from: nat, next: Addr)
    requires Plain(r) && State(r, sorted, |sorted|, out, from, next)
    ensures next < r.end ==> Difference(out + [AddrRange(next, r.end, [], 0)], r, sorted)
    ensures next >= r.end ==> Difference(out, r, sorted)
  {
    assert sorted[..|sorted|] == sorted;
    forall a: nat
      ensures next < r.end ==> (Covered(out + [AddrRange(next, r.end, [], 0)], a) <==> In(r, a) && !Covered(sorted, a))
      ensures next >= r.end ==> (Covered(out, a) <==> In(r, a) && !Covered(sorted, a))
    {
      assert Progress(r, sorted[..|sorted|], out, next, a);
      CoveredNext(out, AddrRange(next, r.end, [], 0), a);
      PlainIn(r, a);
    }
  }

  method Exclude(r: AddrRange, excluded: seq<AddrRange>) returns (out: seq<AddrRange>)
    requires Plain(r) && AllHarmless(r, excluded)
    ensures Chain(out, r.start, r.end)
    ensures forall a: nat :: Covered(out, a) <==> In(r, a) && !Covered(excluded, a)
  {
    var sorted := SortBy(excluded, StartOf);
    forall i | 0 <= i < |sorted| ensures Harmless(r, sorted[i]) { assert sorted[i] in excluded; }
    forall a: nat ensures Covered(sorted, a) <==> Covered(excluded, a) { CoveredSorted(excluded, a); }
    out := [];
    var nextStart: Addr := r.start;
    ghost var from: nat := r.start;
    for i := 0 to |sorted|
      invariant State(r, sorted, i, out, from, nextStart)
    {
      var e := sorted[i];
      StateStep(r, sorted, i, out, from, nextStart);
      StateExit(r, sorted, i, out, from, nextStart);
      if !Intersects(r, e) { continue; }
      if e.start <= nextStart {
        if e.end < r.end {
          if nextStart < e.end { nextStart := e.end; }
        } else {
          return;
        }
      } else {
        out := out + [AddrRange(nextStart, e.start, [], 0)];
        from := e.start;
        if e.end < r.end {
          nextStart := e.end;
        } else {
          return;
        }
      }
    }
    StateEnd(r, sorted, out, from, nextStart);
    if nextStart < r.end {
      out := out + [AddrRange(nextStart, r.end, [], 0)];
    }
  }

  /** The list form is set difference, address by address. */
  method ExcludeList(base: seq<AddrRange>, excluded: seq<AddrRange>) returns (out: seq<AddrRange>)
    requires forall i :: 0 <= i < |base| ==> Plain(base[i]) && AllHarmless(base[i], excluded)
    ensures forall a: nat :: Covered(out, a) <==> Covered(base, a) && !Covered(excluded, a)
    ensures forall i :: 0 <= i < |out| ==> Plain(out[i]) && out[i].start < out[i].end
  {
    var sorted := SortBy(excluded, StartOf);
    out := [];
    for i := 0 to |base|
      invariant forall a: nat :: Covered(out, a) <==> Covered(base[..i], a) && !Covered(excluded, a)
      invariant forall j :: 0 <= j < |out| ==> Plain(out[j]) && out[j].start < out[j].end
    {
      forall j | 0 <= j < |sorted| ensures Harmless(base[i], sorted[j]) { assert sorted[j] in excluded; }
      var part := Exclude(base[i], sorted);
      assert base[..i + 1] == base[..i] + [base[i]];
      forall a: nat ensures Covered(out + part, a) <==> Covered(base[..i + 1], a) && !Covered(excluded, a) {
        CoveredSorted(excluded, a);
        CoveredJoin(out, part, a);
        CoveredNext(base[..i], base[i], a);
      }
      out := out + part;
    }
    assert base[..|base|] == base;
  }
}
