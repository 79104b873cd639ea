/** Overlap checks by marking pixels one at a time, and why they decide whether intervals are disjoint. */
module PixelSets {
  import opened Util

  /** The pixels `lo` to `hi - 1` of one strip or node. */
  datatype Range<K> = Range(key: K, lo: int, hi: int)

  /** No pixel in common. */
  predicate Apart<K(==)>(a: Range<K>, b: Range<K>) {
    a.key == b.key ==> a.hi <= b.lo || b.hi <= a.lo
  }

  predicate AllApart<K(==)>(ranges: seq<Range<K>>) {
    forall i, j :: 0 <= i < j < |ranges| ==> Apart(ranges[i], ranges[j])
  }

  predicate NonEmpty<K>(ranges: seq<Range<K>>) {
    forall i :: 0 <= i < |ranges| ==> ranges[i].lo < ranges[i].hi
  }

  /** The integers from `lo` to `hi - 1`. */
  function Span(lo: int, hi: int): (r: set<int>)
    ensures forall x :: x in r <==> lo <= x < hi
    decreases hi - lo
  {
    if hi <= lo then {} else Span(lo, hi - 1) + {hi - 1}
  }

  /** The pixels of one key that a list of ranges uses. */
  function Used<K(==)>(ranges: seq<Range<K>>, key: K): set<int> {
    if ranges == [] then {}
    else
      var before, last := Used(ranges[..|ranges| - 1], key), ranges[|ranges| - 1];
      if last.key == key then before + Span(last.lo, last.hi) else before
  }

  /** The bookkeeping dictionary holds exactly the pixels used so far. */
  ghost predicate Records<K(!new)>(used: map<K, set<int>>, ranges: seq<Range<K>>) {
    forall key :: (if key in used then used[key] else {}) == Used(ranges, key)
  }

  lemma SpansApart(a: int, b: int, c: int, d: int)
    requires a < b && c < d
    ensures Span(a, b) !! Span(c, d) <==> b <= c || d <= a
  {
    if !(b <= c || d <= a) {
      assert Max(a, c) in Span(a, b) && Max(a, c) in Span(c, d);
    }
  }

  /** A range is free of marked pixels exactly when it is apart from every range that was marked. */
  lemma {:induction false} FreeMeansApart<K>(ranges: seq<Range<K>>, r: Range<K>)
    requires r.lo < r.hi && NonEmpty(ranges)
    ensures Span(r.lo, r.hi) !! Used(ranges, r.key) <==> forall i :: 0 <= i < |ranges| ==> Apart(ranges[i], r)
  {
    if ranges != [] {
      var init, last := ranges[..|ranges| - 1], ranges[|ranges| - 1];
      FreeMeansApart(init, r);
      SpansApart(last.lo, last.hi, r.lo, r.hi);
      assert forall i :: 0 <= i < |ranges| ==> ranges[i] == if i < |init| then init[i] else last;
    }
  }

  lemma UsedGrows<K>(ranges: seq<Range<K>>, r: Range<K>, key: K)
    ensures Used(ranges + [r], key) == if r.key == key then Used(ranges, key) + Span(r.lo, r.hi) else Used(ranges, key)
  {
    assert (ranges + [r])[..|ranges|] == ranges;
  }

  /** Mark the pixels of a new range, refusing it at the first pixel already marked. */
  method Occupy<K(==, !new)>(used: map<K, set<int>>, r: Range<K>, ghost ranges: seq<Range<K>>)
    returns (now: Option<map<K, set<int>>>)
    requires Records(used, ranges) && NonEmpty(ranges) && r.lo < r.hi
    ensures now.Some? <==> forall i :: 0 <= i < |ranges| ==> Apart(ranges[i], r)
    ensures now.Some? ==> Records(now.value, ranges + [r])
  {
    hide Used;
    FreeMeansApart(ranges, r);
    var before := if r.key in used then used[r.key] else {};
    assert before == Used(ranges, r.key);
    var occupied := before;
    for pixel := r.lo to r.hi
      invariant Span(r.lo, pixel) !! before
      invariant occupied == before + Span(r.lo, pixel)
    {
      if pixel in occupied {
        assert pixel in Span(r.lo, r.hi) && pixel in before;
        return None;
      }
      occupied := occupied + {pixel};
    }
    now := Some(used[r.key := occupied]);
    forall key
      ensures (if key in now.value then now.value[key] else {}) == Used(ranges + [r], key)
    {
      UsedGrows(ranges, r, key);
      assert (if key in used then used[key] else {}) == Used(ranges, key);
    }
  }

  lemma AllApartGrows<K>(ranges: seq<Range<K>>, r: Range<K>)
    ensures AllApart(ranges + [r]) <==> AllApart(ranges) && forall i :: 0 <= i < |ranges| ==> Apart(ranges[i], r)
  {
    hide Apart;
    var s := ranges + [r];
    assert forall i :: 0 <= i < |ranges| ==> s[i] == ranges[i];
    assert s[|ranges|] == r;
  }

  lemma AllApartPrefix<K>(ranges: seq<Range<K>>, k: nat)
    requires k <= |ranges|
    ensures AllApart(ranges) ==> AllApart(ranges[..k])
  {
    hide Apart;
  }
}
