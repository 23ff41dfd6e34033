/** Strings as the handlers see them: ASCII case mapping (toUpperCase,
    toLowerCase), charAt, and the lexicographic order of code points that stands in
    for the default Array.prototype.sort order and for localeCompare. */
module Text {

  /** toUpperCase of one character, restricted to ASCII letters. */
  function UpperChar(c: char): char {
    if 'a' <= c <= 'z' then (c as int - 32) as char else c
  }

  /** toLowerCase of one character, restricted to ASCII letters. */
  function LowerChar(c: char): char {
    if 'A' <= c <= 'Z' then (c as int + 32) as char else c
  }

  function ToUpper(s: string): (r: string)
    ensures |r| == |s|
  {
    seq(|s|, i requires 0 <= i < |s| => UpperChar(s[i]))
  }

  function ToLower(s: string): (r: string)
    ensures |r| == |s|
  {
    seq(|s|, i requires 0 <= i < |s| => LowerChar(s[i]))
  }

  /** String.prototype.charAt: the character at i, or "" outside the string. */
  function CharAt(s: string, i: int): string {
    if 0 <= i < |s| then [s[i]] else ""
  }

  /** `translation.charAt(0).toUpperCase()`: the bucket key of a translation. */
  function FirstLetter(s: string): (k: string)
    ensures |k| <= 1
    ensures k == "" <==> s == ""
    ensures s != "" ==> k == [UpperChar(s[0])]
    ensures s != "" && 'a' <= s[0] <= 'z' ==> 'A' <= k[0] <= 'Z'
  {
    ToUpper(CharAt(s, 0))
  }

  /** a sorts no later than b in lexicographic order of code points. */
  predicate Le(a: string, b: string) {
    if a == "" then true
    else if b == "" then false
    else if a[0] != b[0] then a[0] < b[0]
    else Le(a[1..], b[1..])
  }

  /** a sorts strictly before b. */
  predicate Lt(a: string, b: string) {
    !Le(b, a)
  }

  lemma {:induction false} LeReflexive(a: string)
    ensures Le(a, a)
  {
    if a != "" {
      LeReflexive(a[1..]);
    }
  }

  lemma {:induction false} LeTotal(a: string, b: string)
    ensures Le(a, b) || Le(b, a)
  {
    if a != "" && b != "" && a[0] == b[0] {
      LeTotal(a[1..], b[1..]);
    }
  }

  lemma {:induction false} LeAntisymmetric(a: string, b: string)
    requires Le(a, b) && Le(b, a)
    ensures a == b
  {
    if a != "" && b != "" {
      LeAntisymmetric(a[1..], b[1..]);
      assert a == [a[0]] + a[1..] && b == [b[0]] + b[1..];
    }
  }

  lemma {:induction false} LeTransitive(a: string, b: string, c: string)
    requires Le(a, b) && Le(b, c)
    ensures Le(a, c)
  {
    if a != "" && b != "" && c != "" && a[0] == b[0] == c[0] {
      LeTransitive(a[1..], b[1..], c[1..]);
    }
  }

  /** Lt is the strict part of Le: before, and not equal. */
  lemma LtIsStrictLe(a: string, b: string)
    ensures Lt(a, b) <==> Le(a, b) && a != b
  {
    LeTotal(a, b);
    LeReflexive(a);
    if Le(a, b) && Le(b, a) {
      LeAntisymmetric(a, b);
    }
  }
}
