/**
 * The two string operations the log relies on: upper-casing of free text
 * (Python's `str.upper`, restricted to ASCII letters) and the ordering of
 * strings that `sort_values` uses for the Timestamp column (Python's
 * code-point-by-code-point comparison).
 */
module Text {

  predicate IsLower(c: char)
  {
    'a' <= c <= 'z'
  }

  /** One character of `str.upper`: a lower-case ASCII letter becomes its capital. */
  function UpperChar(c: char): (u: char)
    ensures !IsLower(u)
    ensures IsLower(c) ==> u as int + 32 == c as int
    ensures !IsLower(c) ==> u == c
  {
    if IsLower(c) then (c as int - 32) as char else c
  }

  /** `s.upper()`: every lower-case letter replaced by its capital, nothing else touched. */
  function Upper(s: string): (u: string)
    ensures |u| == |s|
    ensures forall i :: 0 <= i < |s| ==> u[i] == UpperChar(s[i])
  {
    if s == [] then [] else [UpperChar(s[0])] + Upper(s[1..])
  }

  /** Text with no lower-case letter left in it. */
  predicate IsUpperCase(s: string)
  {
    forall i :: 0 <= i < |s| ==> !IsLower(s[i])
  }

  /** Upper-casing yields upper-case text of the same length, and blank only from blank. */
  lemma UpperIsUpperCase(s: string)
    ensures IsUpperCase(Upper(s))
    ensures |Upper(s)| == |s|
    ensures Upper(s) == [] <==> s == []
  {
  }

  /** Text that is already upper-case is left as it is. */
  lemma {:induction false} UpperFixesUpperCase(s: string)
    requires IsUpperCase(s)
    ensures Upper(s) == s
  {
    if s != [] {
      UpperFixesUpperCase(s[1..]);
    }
  }

  /** Upper-casing twice is upper-casing once. */
  lemma UpperIdempotent(s: string)
    ensures Upper(Upper(s)) == Upper(s)
  {
    UpperIsUpperCase(s);
    UpperFixesUpperCase(Upper(s));
  }

  /** Python's `a <= b` on strings: compare code points left to right; a proper prefix is smaller. */
  predicate AtMost(a: string, b: string)
  {
    if a == [] then true
    else if b == [] then false
    else if a[0] != b[0] then a[0] < b[0]
    else AtMost(a[1..], b[1..])
  }

  lemma {:induction false} AtMostReflexive(a: string)
    ensures AtMost(a, a)
  {
    if a != [] {
      AtMostReflexive(a[1..]);
    }
  }

  /** Any two strings are comparable. */
  lemma {:induction false} AtMostTotal(a: string, b: string)
    ensures AtMost(a, b) || AtMost(b, a)
  {
    if a != [] && b != [] && a[0] == b[0] {
      AtMostTotal(a[1..], b[1..]);
    }
  }

  lemma {:induction false} AtMostTransitive(a: string, b: string, c: string)
    requires AtMost(a, b) && AtMost(b, c)
    ensures AtMost(a, c)
  {
    if a != [] && b != [] && c != [] && a[0] == b[0] && b[0] == c[0] {
      AtMostTransitive(a[1..], b[1..], c[1..]);
    }
  }

  lemma {:induction false} AtMostAntisymmetric(a: string, b: string)
    requires AtMost(a, b) && AtMost(b, a)
    ensures a == b
  {
    if a != [] && b != [] {
      AtMostAntisymmetric(a[1..], b[1..]);
      assert a == [a[0]] + a[1..] && b == [b[0]] + b[1..];
    }
  }
}
