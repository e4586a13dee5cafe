/** The list operations the protocol takes from the C++ library, with the facts used about them. */
module Lists {
  import opened Types

  // The elements of s that satisfy p, in order.
  function Filter<T(!new)>(s: seq<T>, p: T -> bool): (r: seq<T>)
    ensures forall x :: x in r <==> x in s && p(x)
    ensures |r| <= |s|
  {
    if s == [] then [] else (if p(s[0]) then [s[0]] else []) + Filter(s[1..], p)
  }

  lemma {:induction false} FilterAppend<T(!new)>(s: seq<T>, x: T, p: T -> bool)
    ensures Filter(s + [x], p) == Filter(s, p) + (if p(x) then [x] else [])
  {
    if s == [] {
      assert s + [x] == [x];
    } else {
      assert (s + [x])[1..] == s[1..] + [x];
      FilterAppend(s[1..], x, p);
    }
  }

  // One step of a loop that filters.
  lemma FilterStep<T(!new)>(s: seq<T>, k: nat, p: T -> bool)
    requires k < |s|
    ensures Filter(s[..k + 1], p) == Filter(s[..k], p) + (if p(s[k]) then [s[k]] else [])
    ensures s[k] in s
  {
    assert s[..k + 1] == s[..k] + [s[k]];
    FilterAppend(s[..k], s[k], p);
  }

  lemma {:induction false} FilterAll<T(!new)>(s: seq<T>, p: T -> bool)
    requires forall x :: x in s ==> p(x)
    ensures Filter(s, p) == s
  {
    if s != [] {
      FilterAll(s[1..], p);
    }
  }

  lemma {:induction false} FilterConcat<T(!new)>(s: seq<T>, t: seq<T>, p: T -> bool)
    ensures Filter(s + t, p) == Filter(s, p) + Filter(t, p)
  {
    if s == [] {
      assert s + t == t;
    } else {
      assert (s + t)[1..] == s[1..] + t;
      FilterConcat(s[1..], t, p);
    }
  }

  ghost predicate SortedBy<T>(s: seq<T>, key: T -> int) {
    forall i, j :: 0 <= i < j < |s| ==> key(s[i]) <= key(s[j])
  }

  ghost predicate DistinctBy<T>(s: seq<T>, key: T -> int) {
    forall i, j :: 0 <= i < j < |s| ==> key(s[i]) != key(s[j])
  }

  // x placed before the first element whose key is not smaller.
  function InsertBy<T(!new)>(x: T, s: seq<T>, key: T -> int): (r: seq<T>)
    ensures forall y :: y in r <==> y == x || y in s
    ensures |r| == |s| + 1
  {
    if s == [] || key(x) <= key(s[0]) then [x] + s else [s[0]] + InsertBy(x, s[1..], key)
  }

  lemma {:induction false} InsertBySorts<T(!new)>(x: T, s: seq<T>, key: T -> int)
    requires SortedBy(s, key)
    ensures SortedBy(InsertBy(x, s, key), key)
  {
    if s != [] && key(x) > key(s[0]) {
      InsertBySorts(x, s[1..], key);
      var rest := InsertBy(x, s[1..], key);
      assert forall y :: y in rest ==> key(s[0]) <= key(y);
    }
  }

  lemma {:induction false} InsertByDistinct<T(!new)>(x: T, s: seq<T>, key: T -> int)
    requires DistinctBy(s, key)
    requires forall y :: y in s ==> key(y) != key(x)
    ensures DistinctBy(InsertBy(x, s, key), key)
  {
    if s != [] && key(x) > key(s[0]) {
      InsertByDistinct(x, s[1..], key);
      var rest := InsertBy(x, s[1..], key);
      assert forall y :: y in rest ==> key(s[0]) != key(y);
    }
  }

  lemma {:induction false} InsertByPermutes<T(!new)>(x: T, s: seq<T>, key: T -> int)
    ensures multiset(InsertBy(x, s, key)) == multiset(s) + multiset{x}
  {
    if s != [] && key(x) > key(s[0]) {
      InsertByPermutes(x, s[1..], key);
      assert s == [s[0]] + s[1..];
    }
  }

  // std::list::sort: a stable sort by key.
  function SortBy<T(!new)>(s: seq<T>, key: T -> int): (r: seq<T>)
    ensures forall y :: y in r <==> y in s
    ensures |r| == |s|
  {
    if s == [] then [] else InsertBy(s[0], SortBy(s[1..], key), key)
  }

  lemma {:induction false} SortBySorts<T(!new)>(s: seq<T>, key: T -> int)
    ensures SortedBy(SortBy(s, key), key)
    ensures multiset(SortBy(s, key)) == multiset(s)
  {
    if s != [] {
      SortBySorts(s[1..], key);
      InsertBySorts(s[0], SortBy(s[1..], key), key);
      InsertByPermutes(s[0], SortBy(s[1..], key), key);
      assert s == [s[0]] + s[1..];
    }
  }

  lemma {:induction false} SortByDistinct<T(!new)>(s: seq<T>, key: T -> int)
    requires DistinctBy(s, key)
    ensures DistinctBy(SortBy(s, key), key)
  {
    if s != [] {
      SortByDistinct(s[1..], key);
      InsertByDistinct(s[0], SortBy(s[1..], key), key);
    }
  }

  // The least element of a non-empty set of addresses.
  ghost function Least(s: set<Address>): (m: Address)
    requires s != {}
    ensures m in s && forall x :: x in s ==> m <= x
  {
    var x :| x in s;
    if s == {x} then x
    else
      var m := Least(s - {x});
      assert forall y :: y in s ==> y == x || y in s - {x};
      if x <= m then x else m
  }

  // std::map::begin.
  method Begin(s: set<Address>) returns (m: Address)
    requires s != {}
    ensures m == Least(s)
  {
    ghost var least := Least(s);
    m :| m in s && forall x :: x in s ==> m <= x;
  }

  // The elements of a set in increasing order: the order in which a std::map is traversed.
  ghost function Ascending(s: set<Address>): (r: seq<Address>)
    ensures forall x :: x in r <==> x in s
    ensures |r| == |s|
  {
    if s == {} then [] else
      var m := Least(s);
      assert s == {m} + (s - {m});
      [m] + Ascending(s - {m})
  }

  lemma AscendingStep(s: set<Address>)
    requires s != {}
    ensures Ascending(s)[0] == Least(s) && Ascending(s)[1..] == Ascending(s - {Least(s)})
  {
  }

  ghost predicate Increasing(s: seq<Address>) {
    forall i, j :: 0 <= i < j < |s| ==> s[i] < s[j]
  }

  lemma IncreasingCons(m: Address, s: seq<Address>)
    requires Increasing(s)
    requires forall y :: y in s ==> m < y
    ensures Increasing([m] + s)
  {
    forall i, j | 0 <= i < j < |s| + 1
      ensures ([m] + s)[i] < ([m] + s)[j]
    {
      assert s[j - 1] in s;
      assert ([m] + s)[j] == s[j - 1];
    }
  }

  lemma {:induction false} AscendingIncreases(s: set<Address>)
    ensures Increasing(Ascending(s))
  {
    if s != {} {
      var m := Least(s);
      var rest := Ascending(s - {m});
      AscendingIncreases(s - {m});
      forall y | y in rest
        ensures m < y
      {
        assert y in s - {m};
      }
      IncreasingCons(m, rest);
    }
  }
}
