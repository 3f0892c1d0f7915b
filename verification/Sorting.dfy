/** A stable sort by an integer key: what `std::sort` and `std::list::sort` promise. */
module Sorting {

  predicate SortedBy<T>(s: seq<T>, key: T -> int) {
    forall i, j :: 0 <= i < j < |s| ==> key(s[i]) <= key(s[j])
  }

  predicate Distinct<T(==)>(s: seq<T>) {
    forall i, j :: 0 <= i < j < |s| ==> s[i] != s[j]
  }

  function Insert<T(==, !new)>(x: T, s: seq<T>, key: T -> int): (r: seq<T>)
    requires SortedBy(s, key)
    ensures SortedBy(r, key)
    ensures |r| == |s| + 1
    ensures forall y :: y in r <==> y == x || y in s
  {
    if s == [] then [x]
    else if key(x) <= key(s[0]) then [x] + s
    else
      var t := Insert(x, s[1..], key);
      assert forall j :: 0 <= j < |t| ==> t[j] in t;
      assert forall y :: y in s[1..] ==> key(s[0]) <= key(y);
      [s[0]] + t
  }

  function SortBy<T(==, !new)>(s: seq<T>, key: T -> int): (r: seq<T>)
    ensures SortedBy(r, key)
    ensures |r| == |s|
    ensures forall y :: y in r <==> y in s
  {
    if s == [] then [] else Insert(s[0], SortBy(s[1..], key), key)
  }

  lemma {:induction false} InsertPermutes<T(!new)>(x: T, s: seq<T>, key: T -> int)
    requires SortedBy(s, key)
    ensures multiset(Insert(x, s, key)) == multiset(s) + multiset{x}
    decreases s
  {
    if s != [] {
      if key(x) > key(s[0]) { InsertPermutes(x, s[1..], key); }
      assert s == [s[0]] + s[1..];
    }
  }

  lemma {:induction false} InsertDistinct<T(!new)>(x: T, s: seq<T>, key: T -> int)
    requires SortedBy(s, key) && Distinct(s) && x !in s
    ensures Distinct(Insert(x, s, key))
    decreases s
  {
    if s != [] && key(x) > key(s[0]) {
      InsertDistinct(x, s[1..], key);
      var t := Insert(x, s[1..], key);
      assert s[0] !in t;
      assert forall j :: 0 <= j < |t| ==> t[j] in t;
    }
  }

  /** Sorting permutes, and so keeps distinct elements distinct. */
  lemma {:induction false} SortPermutes<T(!new)>(s: seq<T>, key: T -> int)
    ensures multiset(SortBy(s, key)) == multiset(s)
    ensures Distinct(s) ==> Distinct(SortBy(s, key))
    decreases s
  {
    if s != [] {
      SortPermutes(s[1..], key);
      InsertPermutes(s[0], SortBy(s[1..], key), key);
      if Distinct(s) { InsertDistinct(s[0], SortBy(s[1..], key), key); }
      assert s == [s[0]] + s[1..];
    }
  }
}
