/** Lists without repetition. */
module Lists {

  predicate Distinct<T(==)>(s: seq<T>) { forall i, j :: 0 <= i < j < |s| ==> s[i] != s[j] }

  function Elements<T>(s: seq<T>): set<T> { set x | x in s }

  // --- prefixes, for loops that check one item after another -------------------------------------

  lemma DistinctGrows<T>(s: seq<T>, x: T)
    ensures Distinct(s + [x]) <==> Distinct(s) && x !in s
  {
    var t := s + [x];
    assert forall i :: 0 <= i < |s| ==> t[i] == s[i];
    assert t[|s|] == x;
  }

  lemma DistinctPrefix<T>(s: seq<T>, k: nat)
    requires k <= |s|
    ensures Distinct(s) ==> Distinct(s[..k])
  {
  }

  lemma DistinctEmpty<T>()
    ensures Distinct<T>([])
  {
  }

  /** `len(set(s)) == len(s)` says that nothing repeats. */
  lemma {:induction false} DistinctBySize<T>(s: seq<T>)
    ensures |Elements(s)| <= |s| && (Distinct(s) <==> |Elements(s)| == |s|)
  {
    hide Distinct;
    if s == [] {
      DistinctEmpty<T>();
    } else {
      var init, last := s[..|s| - 1], s[|s| - 1];
      DistinctBySize(init);
      assert s == init + [last];
      assert Elements(s) == Elements(init) + {last};
      DistinctGrows(init, last);
    }
  }
}
