/**
 * Timestamps as the handler writes them, 'YYYY-MM-DD HH:MM' (strftime
 * '%Y-%m-%d %H:%M'). Because every field has a fixed width, comparing two
 * such strings as text orders them by date and time.
 */
module Timestamp {
  import opened Text

  predicate IsDigit(c: char)
  {
    '0' <= c <= '9'
  }

  predicate AllDigits(s: string)
  {
    forall i :: 0 <= i < |s| ==> IsDigit(s[i])
  }

  function Pow10(n: nat): (p: nat)
    ensures p >= 1
  {
    if n == 0 then 1 else 10 * Pow10(n - 1)
  }

  /** The number a string of decimal digits spells, most significant digit first. */
  function Value(s: string): (v: nat)
    requires AllDigits(s)
    ensures v < Pow10(|s|)
  {
    if s == [] then 0
    else
      var d := s[0] as int - '0' as int;
      var p := Pow10(|s| - 1);
      assert d * p + p <= 10 * p by {
        MulMonotone(d + 1, 10, p);
      }
      d * p + Value(s[1..])
  }

  lemma MulMonotone(x: nat, y: nat, p: nat)
    requires x <= y
    ensures x * p <= y * p
  {
  }

  /** A larger leading digit outweighs any tail: d*p + p <= e*p when d < e. */
  lemma MulStep(d: nat, e: nat, p: nat)
    requires d < e
    ensures d * p + p <= e * p
  {
    MulMonotone(d + 1, e, p);
    assert (d + 1) * p == d * p + p;
  }

  /** The leading digit's share of a digit string's value. */
  lemma ValueFront(s: string) returns (d: nat, p: nat)
    requires AllDigits(s) && s != []
    ensures d == s[0] as int - '0' as int && p == Pow10(|s| - 1)
    ensures Value(s) == d * p + Value(s[1..]) && Value(s[1..]) < p
  {
    d, p := s[0] as int - '0' as int, Pow10(|s| - 1);
  }

  /** Among digit strings of one width, text order is numeric order, and equal values mean equal strings. */
  lemma {:induction false} DigitsOrder(a: string, b: string)
    requires AllDigits(a) && AllDigits(b) && |a| == |b|
    ensures AtMost(a, b) <==> Value(a) <= Value(b)
    ensures Value(a) == Value(b) ==> a == b
  {
    if a != [] {
      var da, p := ValueFront(a);
      var db, _ := ValueFront(b);
      if da < db {
        MulStep(da, db, p);
      } else if db < da {
        MulStep(db, da, p);
      } else {
        DigitsOrder(a[1..], b[1..]);
        assert a == [a[0]] + a[1..] && b == [b[0]] + b[1..];
      }
    }
  }

  /** Text order decides on the first k characters unless they agree, and then on the rest. */
  lemma {:induction false} AtMostSplit(a: string, b: string, k: nat)
    requires k <= |a| && k <= |b|
    ensures AtMost(a, b) <==>
      if a[..k] == b[..k] then AtMost(a[k..], b[k..]) else AtMost(a[..k], b[..k])
  {
    if k > 0 && a[0] == b[0] {
      AtMostSplit(a[1..], b[1..], k - 1);
      assert a[1..][..k - 1] == a[1..k] && b[1..][..k - 1] == b[1..k];
      assert a[1..][k - 1..] == a[k..] && b[1..][k - 1..] == b[k..];
      assert a[..k] == [a[0]] + a[1..k] && b[..k] == [b[0]] + b[1..k];
      assert a[..k][1..] == a[1..k] && b[..k][1..] == b[1..k];
    }
  }

  /** A field of width k followed by a separator both strings share. */
  lemma FieldThenRest(a: string, b: string, k: nat)
    requires k < |a| && k < |b| && a[k] == b[k]
    ensures AtMost(a, b) <==>
      if a[..k] == b[..k] then AtMost(a[k + 1..], b[k + 1..]) else AtMost(a[..k], b[..k])
  {
    AtMostSplit(a, b, k);
    assert a[k..][1..] == a[k + 1..] && b[k..][1..] == b[k + 1..];
  }

  /** 'YYYY-MM-DD HH:MM'. */
  predicate IsTimestamp(s: string)
  {
    && |s| == 16
    && AllDigits(s[0..4]) && s[4] == '-'
    && AllDigits(s[5..7]) && s[7] == '-'
    && AllDigits(s[8..10]) && s[10] == ' '
    && AllDigits(s[11..13]) && s[13] == ':'
    && AllDigits(s[14..16])
  }

  function Year(s: string): nat requires IsTimestamp(s) { Value(s[0..4]) }
  function Month(s: string): nat requires IsTimestamp(s) { Value(s[5..7]) }
  function Day(s: string): nat requires IsTimestamp(s) { Value(s[8..10]) }
  function Hour(s: string): nat requires IsTimestamp(s) { Value(s[11..13]) }
  function Minute(s: string): nat requires IsTimestamp(s) { Value(s[14..16]) }

  /** `a` is not later than `b`: comparison field by field, year first. */
  predicate NotLater(a: string, b: string)
    requires IsTimestamp(a) && IsTimestamp(b)
  {
    if Year(a) != Year(b) then Year(a) < Year(b)
    else if Month(a) != Month(b) then Month(a) < Month(b)
    else if Day(a) != Day(b) then Day(a) < Day(b)
    else if Hour(a) != Hour(b) then Hour(a) < Hour(b)
    else Minute(a) <= Minute(b)
  }

  /** One digit field of width w at the front, then a shared separator. */
  lemma FieldStep(a: string, b: string, w: nat)
    requires w < |a| && w < |b| && a[w] == b[w]
    requires AllDigits(a[..w]) && AllDigits(b[..w])
    ensures AtMost(a, b) <==>
      if Value(a[..w]) != Value(b[..w]) then Value(a[..w]) < Value(b[..w])
      else AtMost(a[w + 1..], b[w + 1..])
  {
    FieldThenRest(a, b, w);
    DigitsOrder(a[..w], b[..w]);
  }

  /** For timestamps in the handler's format, text order is date-and-time order. */
  lemma TextOrderIsTimeOrder(a: string, b: string)
    requires IsTimestamp(a) && IsTimestamp(b)
    ensures AtMost(a, b) <==> NotLater(a, b)
  {
    var a1, b1 := a[5..], b[5..];
    var a2, b2 := a[8..], b[8..];
    var a3, b3 := a[11..], b[11..];
    var a4, b4 := a[14..], b[14..];
    assert a[..4] == a[0..4] && b[..4] == b[0..4];
    assert a1[..2] == a[5..7] && b1[..2] == b[5..7] && a1[3..] == a2 && b1[3..] == b2;
    assert a2[..2] == a[8..10] && b2[..2] == b[8..10] && a2[3..] == a3 && b2[3..] == b3;
    assert a3[..2] == a[11..13] && b3[..2] == b[11..13] && a3[3..] == a4 && b3[3..] == b4;
    assert a4 == a[14..16] && b4 == b[14..16];
    FieldStep(a, b, 4);
    FieldStep(a1, b1, 2);
    FieldStep(a2, b2, 2);
    FieldStep(a3, b3, 2);
    DigitsOrder(a4, b4);
  }
}
