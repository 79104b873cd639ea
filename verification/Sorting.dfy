/** Stable sorting by an integer key, as the library's `sorted` does it. */
module Sorting {

  predicate SortedBy<T>(s: seq<T>, key: T -> int) {
    forall i, j :: 0 <= i < j < |s| ==> key(s[i]) <= key(s[j])
  }

  /** Insert after every element whose key is not larger. */
  function InsertBy<T>(s: seq<T>, x: T, key: T -> int): (r: seq<T>)
    ensures |r| == |s| + 1
  {
    if s == [] || key(s[|s| - 1]) <= key(x) then s + [x]
    else InsertBy(s[..|s| - 1], x, key) + [s[|s| - 1]]
  }

  function SortBy<T>(s: seq<T>, key: T -> int): (r: seq<T>)
    ensures |r| == |s|
  {
    if s == [] then [] else InsertBy(SortBy(s[..|s| - 1], key), s[|s| - 1], key)
  }

  lemma {:induction false} InsertKeepsAll<T>(s: seq<T>, x: T, key: T -> int)
    ensures multiset(InsertBy(s, x, key)) == multiset(s) + multiset{x}
  {
    if !(s == [] || key(s[|s| - 1]) <= key(x)) {
      var init, last := s[..|s| - 1], s[|s| - 1];
      InsertKeepsAll(init, x, key);
      assert s == init + [last];
    }
  }

  lemma {:induction false} InsertKeepsOrder<T>(s: seq<T>, x: T, key: T -> int)
    requires SortedBy(s, key)
    ensures SortedBy(InsertBy(s, x, key), key)
    ensures forall y :: y in InsertBy(s, x, key) ==> y == x || y in s
  {
    if !(s == [] || key(s[|s| - 1]) <= key(x)) {
      var init, last := s[..|s| - 1], s[|s| - 1];
      InsertKeepsOrder(init, x, key);
      var r := InsertBy(init, x, key);
      forall i | 0 <= i < |r|
        ensures key(r[i]) <= key(last)
      {
        assert r[i] in r;
      }
    }
  }

  /** Sorting orders the elements and neither loses nor invents any. */
  lemma {:induction false} SortByContract<T>(s: seq<T>, key: T -> int)
    ensures SortedBy(SortBy(s, key), key)
    ensures multiset(SortBy(s, key)) == multiset(s)
  {
    if s != [] {
      var init, last := s[..|s| - 1], s[|s| - 1];
      SortByContract(init, key);
      InsertKeepsOrder(SortBy(init, key), last, key);
      InsertKeepsAll(SortBy(init, key), last, key);
      assert s == init + [last];
    }
  }

  predicate StrictlySorted<T>(s: seq<T>, key: T -> int) {
    forall i, j :: 0 <= i < j < |s| ==> key(s[i]) < key(s[j])
  }

  lemma {:induction false} InsertStaysStrict<T>(s: seq<T>, x: T, key: T -> int)
    requires StrictlySorted(s, key) && forall i :: 0 <= i < |s| ==> key(s[i]) != key(x)
    ensures StrictlySorted(InsertBy(s, x, key), key)
  {
    if !(s == [] || key(s[|s| - 1]) <= key(x)) {
      var init, last := s[..|s| - 1], s[|s| - 1];
      InsertStaysStrict(init, x, key);
      InsertKeepsOrder(init, x, key);
      var r := InsertBy(init, x, key);
      forall i | 0 <= i < |r|
        ensures key(r[i]) < key(last)
      {
        assert r[i] in r;
      }
    }
  }

  /** Elements whose keys all differ come out in strictly ascending order. */
  lemma {:induction false} DistinctKeysSortStrictly<T>(s: seq<T>, key: T -> int)
    requires forall i, j :: 0 <= i < j < |s| ==> key(s[i]) != key(s[j])
    ensures StrictlySorted(SortBy(s, key), key)
  {
    if s != [] {
      var init, last := s[..|s| - 1], s[|s| - 1];
      DistinctKeysSortStrictly(init, key);
      SortByContract(init, key);
      var r := SortBy(init, key);
      forall i | 0 <= i < |r|
        ensures key(r[i]) != key(last)
      {
        assert r[i] in multiset(r);
        assert r[i] in init;
      }
      InsertStaysStrict(r, last, key);
    }
  }

  predicate AllDiffer<T>(s: seq<T>, key: T -> int) { forall i, j :: 0 <= i < j < |s| ==> key(s[i]) != key(s[j]) }

  lemma {:induction false} InsertKeepsDiffering<T>(s: seq<T>, x: T, key: T -> int, other: T -> int)
    requires AllDiffer(s, other) && forall i :: 0 <= i < |s| ==> other(s[i]) != other(x)
    ensures AllDiffer(InsertBy(s, x, key), other)
  {
    if !(s == [] || key(s[|s| - 1]) <= key(x)) {
      var init, last := s[..|s| - 1], s[|s| - 1];
      InsertKeepsDiffering(init, x, key, other);
      InsertKeepsAll(init, x, key);
      var r := InsertBy(init, x, key);
      forall i | 0 <= i < |r|
        ensures other(r[i]) != other(last)
      {
        assert r[i] in multiset(r);
        assert r[i] == x || r[i] in init;
      }
    }
  }

  /** Sorting by one key keeps the elements apart under another. */
  lemma {:induction false} SortKeepsDiffering<T>(s: seq<T>, key: T -> int, other: T -> int)
    requires AllDiffer(s, other)
    ensures AllDiffer(SortBy(s, key), other)
  {
    if s != [] {
      var init, last := s[..|s| - 1], s[|s| - 1];
      SortKeepsDiffering(init, key, other);
      SortByContract(init, key);
      var r := SortBy(init, key);
      forall i | 0 <= i < |r|
        ensures other(r[i]) != other(last)
      {
        assert r[i] in multiset(r);
        assert r[i] in init;
      }
      InsertKeepsDiffering(r, last, key, other);
    }
  }

  /** Sorting what is sorted changes nothing. */
  lemma {:induction false} SortOfSorted<T>(s: seq<T>, key: T -> int)
    requires SortedBy(s, key)
    ensures SortBy(s, key) == s
  {
    if s != [] {
      var init, last := s[..|s| - 1], s[|s| - 1];
      SortOfSorted(init, key);
      assert s == init + [last];
    }
  }
}
