/** Array.prototype.sort with a comparator `(a, b) => key(a).localeCompare(key(b))`.
    ECMAScript (since 2019) requires the sort to be stable, so its result is
    determined: ordered by key, and elements with equal keys keep their
    relative order. StableSort is that result written as an insertion sort;
    StableSortCharacterised shows it is the only such sequence, and
    SortInPlace computes it on an array in place. */
module Sorting {
  import opened Text

  /** The elements of s whose key is k, in their order in s. */
  function WithKey<T>(s: seq<T>, key: T -> string, k: string): seq<T> {
    if s == [] then []
    else (if key(s[0]) == k then [s[0]] else []) + WithKey(s[1..], key, k)
  }

  /** Every element's key is no larger than the key of any later element. */
  predicate SortedBy<T>(s: seq<T>, key: T -> string) {
    forall i, j :: 0 <= i < j < |s| ==> Le(key(s[i]), key(s[j]))
  }

  /** t holds the elements of every key in the same order as s does. */
  ghost predicate SameKeyOrder<T>(t: seq<T>, s: seq<T>, key: T -> string) {
    forall k :: WithKey(t, key, k) == WithKey(s, key, k)
  }

  /** Inserts x after every element whose key is not larger than x's. */
  function Insert<T>(x: T, s: seq<T>, key: T -> string): seq<T> {
    if s == [] then [x]
    else if Lt(key(x), key(s[0])) then [x] + s
    else [s[0]] + Insert(x, s[1..], key)
  }

  /** The stable sort of s by key. */
  function StableSort<T>(s: seq<T>, key: T -> string): seq<T> {
    if s == [] then []
    else Insert(s[|s| - 1], StableSort(s[..|s| - 1], key), key)
  }

  lemma {:induction false} WithKeyConcat<T>(a: seq<T>, b: seq<T>, key: T -> string, k: string)
    ensures WithKey(a + b, key, k) == WithKey(a, key, k) + WithKey(b, key, k)
  {
    if a == [] {
      assert a + b == b;
    } else {
      var ab := a + b;
      assert ab[0] == a[0];
      assert ab[1..] == a[1..] + b;
      WithKeyConcat(a[1..], b, key, k);
      var head := if key(a[0]) == k then [a[0]] else [];
      assert WithKey(ab, key, k) == head + WithKey(ab[1..], key, k);
      assert WithKey(a, key, k) == head + WithKey(a[1..], key, k);
    }
  }

  lemma {:induction false} WithKeyNone<T>(s: seq<T>, key: T -> string, k: string)
    requires forall i :: 0 <= i < |s| ==> key(s[i]) != k
    ensures WithKey(s, key, k) == []
  {
    if s != [] {
      WithKeyNone(s[1..], key, k);
    }
  }

  lemma {:induction false} WithKeyNonEmpty<T>(s: seq<T>, key: T -> string, k: string)
    requires WithKey(s, key, k) != []
    ensures exists i :: 0 <= i < |s| && key(s[i]) == k
  {
    if key(s[0]) != k {
      WithKeyNonEmpty(s[1..], key, k);
      var i :| 0 <= i < |s[1..]| && key(s[1..][i]) == k;
      assert key(s[i + 1]) == k;
    }
  }

  lemma WithKeyOwnKey<T>(s: seq<T>, key: T -> string)
    ensures s != [] ==> WithKey(s, key, key(s[0])) != []
  {
  }

  lemma {:induction false} WithKeyMember<T>(s: seq<T>, key: T -> string, k: string, i: int)
    requires 0 <= i < |s| && key(s[i]) == k
    ensures s[i] in WithKey(s, key, k)
  {
    if i > 0 {
      WithKeyMember(s[1..], key, k, i - 1);
    }
  }

  lemma {:induction false} WithKeyKeys<T>(s: seq<T>, key: T -> string, k: string)
    ensures forall x :: x in WithKey(s, key, k) ==> x in s && key(x) == k
  {
    if s != [] {
      WithKeyKeys(s[1..], key, k);
    }
  }

  lemma {:induction false} InsertPermutes<T>(x: T, s: seq<T>, key: T -> string)
    ensures multiset(Insert(x, s, key)) == multiset(s) + multiset{x}
  {
    if s != [] && !Lt(key(x), key(s[0])) {
      InsertPermutes(x, s[1..], key);
      assert s == [s[0]] + s[1..];
    }
  }

  lemma {:induction false} InsertSorted<T>(x: T, s: seq<T>, key: T -> string)
    requires SortedBy(s, key)
    ensures SortedBy(Insert(x, s, key), key)
  {
    if s == [] {
    } else if Lt(key(x), key(s[0])) {
      LeTotal(key(x), key(s[0]));
      forall j | 0 <= j < |s|
        ensures Le(key(x), key(s[j]))
      {
        if j > 0 {
          LeTransitive(key(x), key(s[0]), key(s[j]));
        }
      }
    } else {
      var rest := Insert(x, s[1..], key);
      InsertSorted(x, s[1..], key);
      InsertPermutes(x, s[1..], key);
      forall j | 0 <= j < |rest|
        ensures Le(key(s[0]), key(rest[j]))
      {
        var y := rest[j];
        assert y in multiset(rest);
        if y != x {
          var m :| 0 <= m < |s[1..]| && s[1..][m] == y;
          assert s[m + 1] == y;
        }
      }
      SortedCons(s[0], rest, key);
    }
  }

  /** An element no larger than every element of an ordered sequence can
      go in front of it. */
  lemma SortedCons<T>(h: T, rest: seq<T>, key: T -> string)
    requires SortedBy(rest, key)
    requires forall j :: 0 <= j < |rest| ==> Le(key(h), key(rest[j]))
    ensures SortedBy([h] + rest, key)
  {
    var r := [h] + rest;
    forall i, j | 0 <= i < j < |r|
      ensures Le(key(r[i]), key(r[j]))
    {
      assert r[j] == rest[j - 1];
      if i > 0 {
        assert r[i] == rest[i - 1];
      }
    }
  }

  lemma {:induction false} InsertKeepsKeyOrder<T>(x: T, s: seq<T>, key: T -> string, k: string)
    requires SortedBy(s, key)
    ensures WithKey(Insert(x, s, key), key, k)
         == WithKey(s, key, k) + (if key(x) == k then [x] else [])
  {
    if s == [] {
    } else if Lt(key(x), key(s[0])) {
      WithKeyConcat([x], s, key, k);
      assert [x][1..] == [];
      if key(x) == k {
        KeyBelowAll(x, s, key);
      }
    } else {
      var rest := Insert(x, s[1..], key);
      InsertKeepsKeyOrder(x, s[1..], key, k);
      assert ([s[0]] + rest)[0] == s[0] && ([s[0]] + rest)[1..] == rest;
    }
  }

  /** No element of an ordered sequence shares the key of an element that
      sorts before all of them. */
  lemma KeyBelowAll<T>(x: T, s: seq<T>, key: T -> string)
    requires SortedBy(s, key) && s != [] && Lt(key(x), key(s[0]))
    ensures WithKey(s, key, key(x)) == []
  {
    LeReflexive(key(x));
    forall i | 0 <= i < |s|
      ensures key(s[i]) != key(x)
    {
      if i > 0 {
        assert Le(key(s[0]), key(s[i]));
      }
    }
    WithKeyNone(s, key, key(x));
  }

  /** The stable sort is ordered by key. */
  lemma {:induction false} StableSortSorted<T>(s: seq<T>, key: T -> string)
    ensures SortedBy(StableSort(s, key), key)
  {
    if s != [] {
      StableSortSorted(s[..|s| - 1], key);
      InsertSorted(s[|s| - 1], StableSort(s[..|s| - 1], key), key);
    }
  }

  /** The stable sort is a permutation of its input. */
  lemma {:induction false} StableSortPermutes<T>(s: seq<T>, key: T -> string)
    ensures |StableSort(s, key)| == |s|
    ensures multiset(StableSort(s, key)) == multiset(s)
  {
    if s != [] {
      StableSortPermutes(s[..|s| - 1], key);
      InsertPermutes(s[|s| - 1], StableSort(s[..|s| - 1], key), key);
      assert s == s[..|s| - 1] + [s[|s| - 1]];
    }
    assert |StableSort(s, key)| == |multiset(StableSort(s, key))|;
  }

  /** The stable sort keeps the relative order of the elements of each key. */
  lemma {:induction false} StableSortStable<T>(s: seq<T>, key: T -> string, k: string)
    ensures WithKey(StableSort(s, key), key, k) == WithKey(s, key, k)
  {
    if s != [] {
      var init, last := s[..|s| - 1], s[|s| - 1];
      StableSortStable(init, key, k);
      StableSortSorted(init, key);
      InsertKeepsKeyOrder(last, StableSort(init, key), key, k);
      assert s == init + [last];
      WithKeyConcat(init, [last], key, k);
    }
  }

  /** Two sequences ordered by key, with the same elements of each key in the
      same order, are equal. */
  lemma {:induction false} SortedByKeyOrderUnique<T>(t: seq<T>, u: seq<T>, key: T -> string)
    requires SortedBy(t, key) && SortedBy(u, key)
    requires SameKeyOrder(t, u, key)
    ensures t == u
    decreases |t| + |u|
  {
    if t == [] || u == [] {
      WithKeyOwnKey(t, key);
      WithKeyOwnKey(u, key);
      if t != [] || u != [] {
        assert false;
      }
    } else {
      var kt, ku := key(t[0]), key(u[0]);
      assert WithKey(t, key, kt) != [];
      WithKeyNonEmpty(u, key, kt);
      var j :| 0 <= j < |u| && key(u[j]) == kt;
      assert Le(ku, kt) by {
        if j > 0 {
          assert Le(key(u[0]), key(u[j]));
        } else {
          LeReflexive(ku);
        }
      }
      assert WithKey(u, key, ku) != [];
      WithKeyNonEmpty(t, key, ku);
      var i :| 0 <= i < |t| && key(t[i]) == ku;
      assert Le(kt, ku) by {
        if i > 0 {
          assert Le(key(t[0]), key(t[i]));
        } else {
          LeReflexive(kt);
        }
      }
      LeAntisymmetric(kt, ku);
      var wt, wu := WithKey(t[1..], key, kt), WithKey(u[1..], key, kt);
      assert WithKey(t, key, kt) == [t[0]] + wt;
      assert WithKey(u, key, kt) == [u[0]] + wu;
      assert ([t[0]] + wt)[0] == t[0] && ([u[0]] + wu)[0] == u[0];
      assert t[0] == u[0];
      assert wt == ([t[0]] + wt)[1..] && wu == ([u[0]] + wu)[1..];
      forall k
        ensures WithKey(t[1..], key, k) == WithKey(u[1..], key, k)
      {
        assert WithKey(t, key, k) == WithKey(u, key, k);
        if k != kt {
          assert WithKey(t, key, k) == WithKey(t[1..], key, k);
          assert WithKey(u, key, k) == WithKey(u[1..], key, k);
        }
      }
      SortedByKeyOrderUnique(t[1..], u[1..], key);
      assert t == [t[0]] + t[1..] && u == [u[0]] + u[1..];
    }
  }

  /** StableSort(s) is exactly the sequence that is ordered by key and keeps,
      for every key, the elements of s with that key in their order in s. */
  lemma {:induction false} StableSortCharacterised<T>(s: seq<T>, t: seq<T>, key: T -> string)
    ensures t == StableSort(s, key) <==> SortedBy(t, key) && SameKeyOrder(t, s, key)
  {
    var r := StableSort(s, key);
    StableSortSorted(s, key);
    forall k
      ensures WithKey(r, key, k) == WithKey(s, key, k)
    {
      StableSortStable(s, key, k);
    }
    if SortedBy(t, key) && SameKeyOrder(t, s, key) {
      forall k
        ensures WithKey(t, key, k) == WithKey(r, key, k)
      {
        assert WithKey(t, key, k) == WithKey(s, key, k);
      }
      SortedByKeyOrderUnique(t, r, key);
    }
    if t == r {
      assert SortedBy(t, key);
      forall k
        ensures WithKey(t, key, k) == WithKey(s, key, k)
      {
        StableSortStable(s, key, k);
      }
    }
  }

  /** No element occurs twice. */
  ghost predicate Distinct<T>(s: seq<T>) {
    forall i, j :: 0 <= i < j < |s| ==> s[i] != s[j]
  }

  lemma {:induction false} DistinctOccursOnce<T>(s: seq<T>, x: T)
    requires Distinct(s)
    ensures multiset(s)[x] <= 1
  {
    if s != [] {
      DistinctOccursOnce(s[1..], x);
      assert s == [s[0]] + s[1..];
      if s[0] == x {
        assert x !in s[1..];
      }
    }
  }

  lemma OccursTwice<T>(t: seq<T>, i: int, j: int)
    ensures 0 <= i < j < |t| && t[i] == t[j] ==> multiset(t)[t[i]] >= 2
  {
    if 0 <= i < j < |t| && t[i] == t[j] {
      assert t == t[..j] + [t[j]] + t[j + 1..];
      assert t[i] in multiset(t[..j]);
    }
  }

  /** A permutation of a sequence without repetitions has none either. */
  lemma DistinctPermutation<T>(s: seq<T>, t: seq<T>)
    requires Distinct(s) && multiset(s) == multiset(t)
    ensures Distinct(t)
  {
    forall i, j | 0 <= i < j < |t|
      ensures t[i] != t[j]
    {
      if t[i] == t[j] {
        DistinctOccursOnce(s, t[i]);
        OccursTwice(t, i, j);
        assert false;
      }
    }
  }

  /** Places a[..b + 1] in order, given that a[..b] is StableSort(a0[..b]). */
  lemma {:induction false} InsertAt<T>(x: T, s: seq<T>, j: int, key: T -> string)
    requires SortedBy(s, key)
    requires 0 <= j <= |s|
    requires j > 0 ==> Le(key(s[j - 1]), key(x))
    requires forall m :: j <= m < |s| ==> Lt(key(x), key(s[m]))
    ensures Insert(x, s, key) == s[..j] + [x] + s[j..]
  {
    if j == 0 {
      assert s[..0] == [] && s[0..] == s;
    } else {
      assert Le(key(s[0]), key(x)) by {
        if j - 1 > 0 {
          LeTransitive(key(s[0]), key(s[j - 1]), key(x));
        }
      }
      InsertAt(x, s[1..], j - 1, key);
      assert s[1..][..j - 1] == s[1..j] && s[1..][j - 1..] == s[j..];
      assert s[..j] == [s[0]] + s[1..j];
    }
  }

  /** Moves a[i] left past the elements of the ordered prefix a[..i] whose
      key is larger, leaving a[..i + 1] == Insert(a[i], a[..i]). */
  method InsertInPlace<T>(a: array<T>, i: int, key: T -> string)
    requires 0 <= i < a.Length
    requires SortedBy(a[..i], key)
    modifies a
    ensures a[..i + 1] == Insert(old(a[i]), old(a[..i]), key)
    ensures a[i + 1..] == old(a[i + 1..])
  {
    ghost var s, x, rest := a[..i], a[i], a[i + 1..];
    var j := ShiftLeft(a, i, key);
    InsertAt(x, s, j, key);
    assert a[..i + 1] == s[..j] + [x] + s[j..];
    assert a[i + 1..] == rest;
  }

  /** The swap loop: a[i] moves left while its key is smaller than its left
      neighbour's, and ends at position j. */
  method ShiftLeft<T>(a: array<T>, i: int, key: T -> string) returns (j: int)
    requires 0 <= i < a.Length
    modifies a
    ensures 0 <= j <= i && a[j] == old(a[i])
    ensures forall m :: 0 <= m < j ==> a[m] == old(a[m])
    ensures forall m :: j < m <= i ==> a[m] == old(a[m - 1])
    ensures forall m :: i < m < a.Length ==> a[m] == old(a[m])
    ensures j > 0 ==> Le(key(old(a[j - 1])), key(old(a[i])))
    ensures forall m :: j <= m < i ==> Lt(key(old(a[i])), key(old(a[m])))
  {
    ghost var s := a[..];
    var x := a[i];
    j := i;
    while j > 0 && Lt(key(a[j]), key(a[j - 1]))
      invariant 0 <= j <= i
      invariant a[j] == x
      invariant forall m :: 0 <= m < j ==> a[m] == s[m]
      invariant forall m :: j < m <= i ==> a[m] == s[m - 1]
      invariant forall m :: i < m < a.Length ==> a[m] == s[m]
      invariant forall m :: j <= m < i ==> Lt(key(x), key(s[m]))
    {
      a[j - 1], a[j] := a[j], a[j - 1];
      j := j - 1;
    }
  }

  /** Sorts a in place, stably, by key: insertion sort by adjacent swaps. */
  method SortInPlace<T>(a: array<T>, key: T -> string)
    modifies a
    ensures a[..] == StableSort(old(a[..]), key)
  {
    ghost var a0 := a[..];
    var i := 0;
    while i < a.Length
      invariant 0 <= i <= a.Length
      invariant a[..i] == StableSort(a0[..i], key)
      invariant a[i..] == a0[i..]
    {
      StableSortSorted(a0[..i], key);
      assert a[i] == a0[i];
      InsertInPlace(a, i, key);
      assert a0[..i + 1][..i] == a0[..i];
      i := i + 1;
    }
    assert a[..] == a[..a.Length] && a0 == a0[..a.Length];
  }
}
