// Sorting values with distinct integer keys: the order is determined by the set of values.
module KeyedSort {
  import opened Collections

  ghost predicate StrictBy<T(!new)>(key: T -> int, s: seq<T>) {
    forall i, j :: 0 <= i < j < |s| ==> key(s[i]) < key(s[j])
  }

  ghost predicate DistinctKeys<T(!new)>(key: T -> int, values: set<T>) {
    forall x, y :: x in values && y in values && key(x) == key(y) ==> x == y
  }

  ghost predicate Lists<T(!new)>(s: seq<T>, values: set<T>) {
    forall x :: x in s <==> x in values
  }

  lemma {:induction false} WithoutLast<T(!new)>(key: T -> int, a: seq<T>, x: T)
    requires StrictBy(key, a) && a != []
    ensures x in a[..|a| - 1] <==> x in a && x != a[|a| - 1]
  {
    var last := a[|a| - 1];
    assert a == a[..|a| - 1] + [last];
    if x in a[..|a| - 1] {
      var i :| 0 <= i < |a| - 1 && a[i] == x;
      assert key(a[i]) < key(last);
    }
  }

  lemma {:induction false} SameLast<T(!new)>(key: T -> int, a: seq<T>, b: seq<T>)
    requires StrictBy(key, a) && StrictBy(key, b) && a != [] && b != []
    requires forall x :: x in a <==> x in b
    ensures a[|a| - 1] == b[|b| - 1]
  {
    var x, y := a[|a| - 1], b[|b| - 1];
    assert x in b && y in a;
    var i :| 0 <= i < |b| && b[i] == x;
    var j :| 0 <= j < |a| && a[j] == y;
    assert i < |b| - 1 ==> key(x) < key(y);
    assert j < |a| - 1 ==> key(y) < key(x);
  }

  // A strictly sorted listing of a set is unique.
  lemma {:induction false} UniqueListing<T(!new)>(key: T -> int, a: seq<T>, b: seq<T>)
    requires StrictBy(key, a) && StrictBy(key, b)
    requires forall x :: x in a <==> x in b
    ensures a == b
  {
    assert a != [] ==> a[0] in b;
    assert b != [] ==> b[0] in a;
    if a != [] && b != [] {
      SameLast(key, a, b);
      var n, m := |a| - 1, |b| - 1;
      forall x ensures x in a[..n] <==> x in b[..m] {
        WithoutLast(key, a, x);
        WithoutLast(key, b, x);
      }
      UniqueListing(key, a[..n], b[..m]);
      assert a == a[..n] + [a[n]] && b == b[..m] + [b[m]];
    }
  }

  // Insertion into a strictly sorted listing.
  method Insert<T(!new)>(key: T -> int, s: seq<T>, x: T) returns (r: seq<T>)
    requires StrictBy(key, s) && forall y :: y in s ==> key(y) != key(x)
    ensures StrictBy(key, r) && forall y :: y in r <==> y in s || y == x
  {
    var i := 0;
    while i < |s| && key(s[i]) < key(x)
      invariant 0 <= i <= |s|
      invariant forall j :: 0 <= j < i ==> key(s[j]) < key(x)
    {
      i := i + 1;
    }
    r := s[..i] + [x] + s[i..];
    InsertedAt(key, s, x, i);
  }

  lemma {:induction false} InsertedAt<T(!new)>(key: T -> int, s: seq<T>, x: T, i: nat)
    requires StrictBy(key, s) && (forall y :: y in s ==> key(y) != key(x)) && i <= |s|
    requires (forall j :: 0 <= j < i ==> key(s[j]) < key(x)) && (i < |s| ==> key(s[i]) >= key(x))
    ensures StrictBy(key, s[..i] + [x] + s[i..])
    ensures forall y :: y in s[..i] + [x] + s[i..] <==> y in s || y == x
  {
    var r := s[..i] + [x] + s[i..];
    assert s == s[..i] + s[i..];
    forall j | i <= j < |s| ensures key(x) < key(s[j]) {
      assert s[i] in s;
    }
    forall a, b | 0 <= a < b < |r| ensures key(r[a]) < key(r[b]) {
      assert r[a] == if a < i then s[a] else if a == i then x else s[a - 1];
      assert r[b] == if b < i then s[b] else if b == i then x else s[b - 1];
    }
  }

  method SortByKey<T(==,!new)>(key: T -> int, values: set<T>) returns (r: seq<T>)
    requires DistinctKeys(key, values)
    ensures StrictBy(key, r) && Lists(r, values)
  {
    r := [];
    var rest := values;
    while rest != {}
      invariant rest <= values && StrictBy(key, r)
      invariant forall x :: x in r <==> x in values && x !in rest
      decreases |rest|
    {
      Inhabited(rest);
      var x :| x in rest;
      r := Insert(key, r, x);
      rest := rest - {x};
    }
  }
}
