// Elements, repetition and size of finite collections.
module Collections {
  predicate Distinct<T(==)>(s: seq<T>) {
    forall i, j :: 0 <= i < j < |s| ==> s[i] != s[j]
  }

  function Elements<T>(s: seq<T>): set<T> {
    set x | x in s
  }

  // Elements are distinct exactly when there are as many of them as places.
  lemma {:induction false} DistinctBySize<T>(s: seq<T>)
    ensures |Elements(s)| <= |s| && (Distinct(s) <==> |Elements(s)| == |s|)
  {
    if s == [] {
      assert Elements(s) == {};
    } else {
      var init, last := s[..|s| - 1], s[|s| - 1];
      DistinctBySize(init);
      assert Elements(s) == Elements(init) + {last};
      if last in init {
        assert Elements(s) == Elements(init);
        var i :| 0 <= i < |init| && init[i] == last;
        assert s[i] == s[|s| - 1];
      }
    }
  }

  lemma {:induction false} SubsetSize<T>(small: set<T>, big: set<T>)
    requires small <= big
    ensures |small| <= |big|
  {
    assert big == small + (big - small);
  }

  // A nonempty set has an element to pick.
  lemma {:induction false} Inhabited<T(!new)>(values: set<T>)
    ensures values == {} || exists x :: x in values
  {
    if forall x :: x !in values {
      assert values == {};
    }
  }

  lemma {:induction false} InhabitedInts(values: set<int>)
    ensures values == {} || exists x :: x in values
  {
    if forall x :: x !in values {
      assert values == {};
    }
  }
}
