/**
 * Hexadecimal digits and the value of a digit string, read most significant
 * digit first. This is the reference against which every hex field the
 * controller code writes or parses is checked.
 */
module HexDigits {

  /** A hexadecimal digit of either case (what Python's hex parsers accept). */
  predicate IsHexDigit(c: char) {
    ('0' <= c <= '9') || ('a' <= c <= 'f') || ('A' <= c <= 'F')
  }

  predicate IsLowerHexDigit(c: char) {
    ('0' <= c <= '9') || ('a' <= c <= 'f')
  }

  predicate IsUpperHexDigit(c: char) {
    ('0' <= c <= '9') || ('A' <= c <= 'F')
  }

  predicate AllHex(s: string) {
    forall i :: 0 <= i < |s| ==> IsHexDigit(s[i])
  }

  predicate AllLowerHex(s: string) {
    forall i :: 0 <= i < |s| ==> IsLowerHexDigit(s[i])
  }

  predicate AllUpperHex(s: string) {
    forall i :: 0 <= i < |s| ==> IsUpperHexDigit(s[i])
  }

  function DigitValue(c: char): (d: nat)
    requires IsHexDigit(c)
    ensures d < 16
    ensures '0' <= c <= '9' ==> d < 10
  {
    if '0' <= c <= '9' then c as int - '0' as int
    else if 'a' <= c <= 'f' then c as int - 'a' as int + 10
    else c as int - 'A' as int + 10
  }

  /** The lowercase digit for a value below 16. */
  function LowerDigit(d: nat): (c: char)
    requires d < 16
    ensures IsLowerHexDigit(c) && IsHexDigit(c) && DigitValue(c) == d
  {
    if d < 10 then ('0' as int + d) as char else ('a' as int + d - 10) as char
  }

  /** An uppercase digit is determined by its value. */
  lemma {:induction false} UpperDigitInjective(a: char, b: char)
    requires IsUpperHexDigit(a) && IsUpperHexDigit(b)
    requires DigitValue(a) == DigitValue(b)
    ensures a == b
  {
  }

  function Pow16(k: nat): (p: nat)
    ensures p >= 1
  {
    if k == 0 then 1 else 16 * Pow16(k - 1)
  }

  /** The unsigned big-endian value of a string of hex digits. */
  function HexValue(s: string): (v: nat)
    requires AllHex(s)
    ensures v < Pow16(|s|)
  {
    if s == [] then 0
    else
      var v0 := HexValue(s[..|s| - 1]);
      var d := DigitValue(s[|s| - 1]);
      assert v0 * 16 + d < Pow16(|s| - 1) * 16 by {
        assert v0 + 1 <= Pow16(|s| - 1);
        assert (v0 + 1) * 16 <= Pow16(|s| - 1) * 16;
      }
      v0 * 16 + d
  }

  /** Concatenating digit strings shifts the left part by the width of the right part. */
  lemma {:induction false} HexValueAppend(a: string, b: string)
    requires AllHex(a) && AllHex(b)
    ensures AllHex(a + b)
    ensures HexValue(a + b) == HexValue(a) * Pow16(|b|) + HexValue(b)
  {
    if b == [] {
      assert a + b == a;
    } else {
      var b0 := b[..|b| - 1];
      assert (a + b)[..|a + b| - 1] == a + b0;
      HexValueAppend(a, b0);
      var d := DigitValue(b[|b| - 1]);
      assert (a + b)[|a + b| - 1] == b[|b| - 1];
      assert HexValue(a + b) == HexValue(a + b0) * 16 + d;
      assert HexValue(b) == HexValue(b0) * 16 + d;
      Shift(HexValue(a + b), HexValue(b), Pow16(|b|), HexValue(a), Pow16(|b0|), HexValue(b0), d);
    }
  }

  lemma {:induction false} Shift(ab: int, bv: int, pb: int, x: int, p: int, y: int, d: int)
    requires ab == (x * p + y) * 16 + d && bv == y * 16 + d && pb == p * 16
    ensures ab == x * pb + bv
  {
  }

  /** Two digit strings of equal length whose digits agree in value have equal values. */
  lemma {:induction false} HexValueDigitwise(s: string, t: string)
    requires AllHex(s) && AllHex(t) && |s| == |t|
    requires forall i :: 0 <= i < |s| ==> DigitValue(s[i]) == DigitValue(t[i])
    ensures HexValue(s) == HexValue(t)
  {
    if s != [] {
      HexValueDigitwise(s[..|s| - 1], t[..|t| - 1]);
    }
  }

  /** Two uppercase digit strings of equal length and equal value are the same string. */
  lemma {:induction false} UpperHexInjective(s: string, t: string)
    requires AllUpperHex(s) && AllUpperHex(t) && AllHex(s) && AllHex(t) && |s| == |t|
    requires HexValue(s) == HexValue(t)
    ensures s == t
  {
    if s != [] {
      var n := |s| - 1;
      assert HexValue(s) % 16 == DigitValue(s[n]) && HexValue(s) / 16 == HexValue(s[..n]);
      assert HexValue(t) % 16 == DigitValue(t[n]) && HexValue(t) / 16 == HexValue(t[..n]);
      UpperDigitInjective(s[n], t[n]);
      UpperHexInjective(s[..n], t[..n]);
      assert s == s[..n] + [s[n]] && t == t[..n] + [t[n]];
    }
  }

  function Zeros(k: nat): (z: string)
    ensures |z| == k && AllHex(z)
    ensures forall i :: 0 <= i < k ==> z[i] == '0'
  {
    if k == 0 then [] else ['0'] + Zeros(k - 1)
  }

  /** Leading zeros do not change the value. */
  lemma {:induction false} ZeroPaddedValue(k: nat, s: string)
    requires AllHex(s)
    ensures AllHex(Zeros(k) + s) && HexValue(Zeros(k) + s) == HexValue(s)
  {
    HexValueAppend(Zeros(k), s);
    ZeroValue(k);
  }

  lemma {:induction false} ZeroValue(k: nat)
    ensures HexValue(Zeros(k)) == 0
  {
    if k > 0 {
      var z := Zeros(k);
      assert z[..k - 1] == Zeros(k - 1) by {
        assert forall i {:trigger Zeros(k - 1)[i]} :: 0 <= i < k - 1 ==> z[..k - 1][i] == Zeros(k - 1)[i];
      }
      ZeroValue(k - 1);
    }
  }
}
