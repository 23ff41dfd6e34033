/** The order in which a plain JavaScript object lists its own string keys
    (Object.keys, for-in): first the keys
    that are array indices, in ascending numeric order, then every other key
    in the order in which it was created (ECMAScript, section 10.1.11.1,
    OrdinaryOwnPropertyKeys). */
module PropertyKeys {
  import opened Text
  import opened Sorting

  /** The elements of s that satisfy p, in their order in s. */
  function Filter<T>(s: seq<T>, p: T -> bool): seq<T> {
    if s == [] then []
    else (if p(s[0]) then [s[0]] else []) + Filter(s[1..], p)
  }

  predicate IsDigit(c: char) {
    '0' <= c <= '9'
  }

  /** The value of one decimal digit. */
  function Digit(c: char): nat {
    if IsDigit(c) then c as int - '0' as int else 0
  }

  /** The number written by a string of decimal digits. */
  function DecimalValue(k: string): nat {
    if k == "" then 0
    else
      var d := k[|k| - 1];
      DecimalValue(k[..|k| - 1]) * 10 + Digit(d)
  }

  /** k is the canonical decimal form of an integer below 2^32 - 1. */
  predicate IsArrayIndex(k: string) {
    && 0 < |k| <= 10
    && (forall i :: 0 <= i < |k| ==> IsDigit(k[i]))
    && (k[0] == '0' ==> k == "0")
    && DecimalValue(k) < 0xFFFF_FFFF
  }

  predicate IsNamedKey(k: string) {
    !IsArrayIndex(k)
  }

  function Zeros(n: nat): (z: string)
    ensures |z| == n
  {
    if n == 0 then "" else "0" + Zeros(n - 1)
  }

  /** An array index padded to ten digits, so that the character order of the
      padded forms is the numeric order of the indices. */
  function NumericOrder(k: string): string {
    if |k| <= 10 then Zeros(10 - |k|) + k else k
  }

  /** The own-key order of an object whose keys were created in the order
      listed by `created`. */
  function PropertyOrder(created: seq<string>): seq<string> {
    StableSort(Filter(created, IsArrayIndex), NumericOrder) + Filter(created, IsNamedKey)
  }

  lemma {:induction false} FilterSplits<T>(s: seq<T>, p: T -> bool, q: T -> bool)
    requires forall x :: q(x) == !p(x)
    ensures multiset(Filter(s, p)) + multiset(Filter(s, q)) == multiset(s)
  {
    if s != [] {
      var x, rest := s[0], s[1..];
      FilterSplits(rest, p, q);
      assert s == [x] + rest;
      assert q(x) == !p(x);
      var fp, fq := Filter(rest, p), Filter(rest, q);
      if p(x) {
        assert Filter(s, p) == [x] + fp && Filter(s, q) == fq;
      } else {
        assert Filter(s, p) == fp && Filter(s, q) == [x] + fq;
      }
    }
  }

  lemma {:induction false} FilterAll<T>(s: seq<T>, p: T -> bool)
    requires forall i :: 0 <= i < |s| ==> p(s[i])
    ensures Filter(s, p) == s
  {
    if s != [] {
      FilterAll(s[1..], p);
      assert s == [s[0]] + s[1..];
    }
  }

  lemma {:induction false} FilterNone<T>(s: seq<T>, p: T -> bool)
    requires forall i :: 0 <= i < |s| ==> !p(s[i])
    ensures Filter(s, p) == []
  {
    if s != [] {
      FilterNone(s[1..], p);
    }
  }

  /** Listing an object's keys neither loses nor repeats a key. */
  lemma PropertyOrderPermutes(created: seq<string>)
    ensures multiset(PropertyOrder(created)) == multiset(created)
  {
    StableSortPermutes(Filter(created, IsArrayIndex), NumericOrder);
    FilterSplits(created, IsArrayIndex, IsNamedKey);
  }

  /** Without array-index keys, an object lists its keys in creation order. */
  lemma PropertyOrderOfNamedKeys(created: seq<string>)
    requires forall i :: 0 <= i < |created| ==> IsNamedKey(created[i])
    ensures PropertyOrder(created) == created
  {
    FilterNone(created, IsArrayIndex);
    FilterAll(created, IsNamedKey);
  }

  /** Among keys of one character, exactly the ten digits are array indices. */
  lemma SingleCharacterIndex(k: string)
    requires |k| == 1
    ensures IsArrayIndex(k) <==> IsDigit(k[0])
  {
    assert k[..0] == "";
    assert DecimalValue(k) <= 9;
    assert k[0] == '0' ==> k == "0";
  }

  // ----- Padding to ten digits keeps the numeric order -----

  function Pow10(n: nat): (p: nat)
    ensures p >= 1
  {
    if n == 0 then 1 else 10 * Pow10(n - 1)
  }

  predicate AllDigits(s: string) {
    forall i :: 0 <= i < |s| ==> IsDigit(s[i])
  }

  /** A string of n digits writes a number below 10^n. */
  lemma {:induction false} DecimalBound(s: string)
    requires AllDigits(s)
    ensures DecimalValue(s) < Pow10(|s|)
  {
    if s != "" {
      DecimalBound(s[..|s| - 1]);
    }
  }

  /** The leading digit of s stands for Digit(s[0]) * 10^(|s| - 1). */
  lemma {:induction false} DecimalFront(s: string)
    requires s != ""
    ensures DecimalValue(s) == Digit(s[0]) * Pow10(|s| - 1) + DecimalValue(s[1..])
  {
    if |s| == 1 {
      assert s[..0] == "" && s[1..] == "";
    } else {
      var init, tail := s[..|s| - 1], s[1..];
      DecimalFront(init);
      assert init[0] == s[0];
      assert init[1..] == tail[..|tail| - 1];
      assert tail[|tail| - 1] == s[|s| - 1];
      ShiftDigit(Digit(s[0]), Pow10(|s| - 2), DecimalValue(init[1..]), Digit(s[|s| - 1]));
    }
  }

  /** Appending a digit multiplies the leading digit's weight by ten. */
  lemma ShiftDigit(d: nat, p: nat, rest: nat, last: nat)
    ensures (d * p + rest) * 10 + last == d * (10 * p) + (rest * 10 + last)
  {
    calc {
      (d * p + rest) * 10 + last;
      d * p * 10 + rest * 10 + last;
      d * (10 * p) + (rest * 10 + last);
    }
  }

  /** Leading zeros do not change the number. */
  lemma ZerosValue(n: nat, k: string)
    ensures DecimalValue(Zeros(n) + k) == DecimalValue(k)
  {
    ZerosAreZero(n);
    LeadingZerosValue(Zeros(n), k);
  }

  lemma {:induction false} ZerosAreZero(n: nat)
    ensures forall i :: 0 <= i < |Zeros(n)| ==> Zeros(n)[i] == '0'
  {
    if n > 0 {
      ZerosAreZero(n - 1);
      assert Zeros(n) == "0" + Zeros(n - 1);
    }
  }

  lemma {:induction false} AllZerosValue(z: string)
    requires forall i :: 0 <= i < |z| ==> z[i] == '0'
    ensures DecimalValue(z) == 0
  {
    if z != "" {
      AllZerosValue(z[..|z| - 1]);
    }
  }

  lemma {:induction false} LeadingZerosValue(z: string, k: string)
    requires forall i :: 0 <= i < |z| ==> z[i] == '0'
    ensures DecimalValue(z + k) == DecimalValue(k)
  {
    if k == "" {
      assert z + k == z;
      AllZerosValue(z);
    } else {
      var t, init := z + k, k[..|k| - 1];
      LeadingZerosValue(z, init);
      assert t[..|t| - 1] == z + init;
      assert t[|t| - 1] == k[|k| - 1];
    }
  }

  lemma ZerosDigits(n: nat)
    ensures AllDigits(Zeros(n))
  {
    ZerosAreZero(n);
  }

  /** A smaller leading digit makes the smaller number. */
  lemma LeadingDigitDecides(x: nat, y: nat, u: nat, v: nat, p: nat)
    requires x < y && u < p
    ensures x * p + u < y * p + v
  {
    assert (y - x) * p >= p by {
      assert y - x >= 1;
    }
    assert y * p == x * p + (y - x) * p;
  }

  /** Between digit strings of one length, character order is numeric order. */
  lemma {:induction false} SameLengthDigits(a: string, b: string)
    requires |a| == |b| && AllDigits(a) && AllDigits(b)
    ensures Le(a, b) <==> DecimalValue(a) <= DecimalValue(b)
  {
    if a != "" {
      var n := |a| - 1;
      DecimalFront(a);
      DecimalFront(b);
      assert AllDigits(a[1..]) && AllDigits(b[1..]);
      DecimalBound(a[1..]);
      DecimalBound(b[1..]);
      if a[0] == b[0] {
        SameLengthDigits(a[1..], b[1..]);
      } else if a[0] < b[0] {
        LeadingDigitDecides(Digit(a[0]), Digit(b[0]), DecimalValue(a[1..]), DecimalValue(b[1..]), Pow10(n));
      } else {
        LeadingDigitDecides(Digit(b[0]), Digit(a[0]), DecimalValue(b[1..]), DecimalValue(a[1..]), Pow10(n));
      }
    }
  }

  /** The padded form of an array index is ten digits writing the same number. */
  lemma PaddedIndex(k: string)
    requires IsArrayIndex(k)
    ensures |NumericOrder(k)| == 10 && AllDigits(NumericOrder(k))
    ensures DecimalValue(NumericOrder(k)) == DecimalValue(k)
  {
    ZerosDigits(10 - |k|);
    ZerosValue(10 - |k|, k);
  }

  /** Ordering array indices by their padded forms orders them by value, as
      OrdinaryOwnPropertyKeys lists them. */
  lemma NumericOrderIsNumeric(a: string, b: string)
    requires IsArrayIndex(a) && IsArrayIndex(b)
    ensures Le(NumericOrder(a), NumericOrder(b)) <==> DecimalValue(a) <= DecimalValue(b)
  {
    PaddedIndex(a);
    PaddedIndex(b);
    SameLengthDigits(NumericOrder(a), NumericOrder(b));
  }
}
