/**
 * Python's `int(x, base)` on a byte string, for the two bases the controller
 * code uses (10 and 16), following CPython's grammar: optional ASCII
 * whitespace around the number, an optional sign, in base 16 an optional
 * `0x`/`0X` prefix that may be followed by one underscore, then digits in
 * which single underscores may separate digits. `None` where Python raises
 * `ValueError`. The text is scanned by index, the way CPython walks the
 * buffer.
 */
module PyInt {
  import opened Wrappers
  import opened HexDigits

  type Base = b: nat | b == 10 || b == 16 witness 10

  /** The bytes CPython skips as whitespace around a number: space, tab, LF, VT, FF, CR. */
  predicate IsSpace(c: char) {
    c == ' ' || ('\t' <= c <= '\r')
  }

  predicate IsDigitIn(c: char, base: Base) {
    if base == 16 then IsHexDigit(c) else '0' <= c <= '9'
  }

  predicate IsSign(c: char) {
    c == '+' || c == '-'
  }

  /** Every character that may appear anywhere in an accepted number. */
  predicate Allowed(c: char, base: Base) {
    IsDigitIn(c, base) || IsSpace(c) || IsSign(c) || c == '_' || (base == 16 && (c == 'x' || c == 'X'))
  }

  /** Index of the first non-space byte at or after `i`. */
  function SkipSpaces(s: string, i: nat): (j: nat)
    requires i <= |s|
    ensures i <= j <= |s|
    ensures j == |s| || !IsSpace(s[j])
    decreases |s| - i
  {
    if i < |s| && IsSpace(s[i]) then SkipSpaces(s, i + 1) else i
  }

  /** End of the text in `s[lo..hi]` once trailing spaces are dropped. */
  function DropTrailingSpaces(s: string, lo: nat, hi: nat): (j: nat)
    requires lo <= hi <= |s|
    ensures lo <= j <= hi
    ensures j == lo || !IsSpace(s[j - 1])
    decreases hi
  {
    if lo < hi && IsSpace(s[hi - 1]) then DropTrailingSpaces(s, lo, hi - 1) else hi
  }

  /** Length of the sign at `s[lo]`, if the text `s[lo..hi]` starts with one. */
  function SignLength(s: string, lo: nat, hi: nat): (n: nat)
    requires lo <= hi <= |s|
    ensures lo + n <= hi
  {
    if lo < hi && IsSign(s[lo]) then 1 else 0
  }

  /** Length of a base-16 `0x` prefix at `s[lo]`, together with the one underscore allowed after it. */
  function PrefixLength(s: string, lo: nat, hi: nat, base: Base): (n: nat)
    requires lo <= hi <= |s|
    ensures lo + n <= hi
  {
    if base == 16 && lo + 2 <= hi && s[lo] == '0' && (s[lo + 1] == 'x' || s[lo + 1] == 'X') then
      (if lo + 3 <= hi && s[lo + 2] == '_' then 3 else 2)
    else 0
  }

  /**
   * The value of the digit group `s[lo..hi]`: digits with single underscores
   * between them and nothing else, read from the right; `None` for anything
   * else (empty, a leading, trailing or doubled underscore, a foreign byte).
   */
  function Group(s: string, lo: nat, hi: nat, base: Base): Option<nat>
    requires lo <= hi <= |s|
    decreases hi - lo
  {
    if hi == lo || !IsDigitIn(s[hi - 1], base) then None
    else if hi - 1 == lo then Some(DigitValue(s[lo]))
    else
      match Group(s, lo, if s[hi - 2] == '_' then hi - 2 else hi - 1, base)
      case None => None
      case Some(v) => Some(v * base + DigitValue(s[hi - 1]))
  }

  /** `int(s, base)`. */
  function Parse(s: string, base: Base): Option<int> {
    var lo := SkipSpaces(s, 0);
    var hi := DropTrailingSpaces(s, lo, |s|);
    var n := SignLength(s, lo, hi);
    match Group(s, lo + n + PrefixLength(s, lo + n, hi, base), hi, base)
    case None => None
    case Some(v) => Some(if n == 1 && s[lo] == '-' then 0 - v else v)
  }

  /** Only spaces are skipped. */
  lemma {:induction false} SkippedAreSpaces(s: string, i: nat)
    requires i <= |s|
    ensures forall k :: i <= k < SkipSpaces(s, i) ==> IsSpace(s[k])
    decreases |s| - i
  {
    if i < |s| && IsSpace(s[i]) {
      SkippedAreSpaces(s, i + 1);
    }
  }

  /** Only spaces are dropped. */
  lemma {:induction false} DroppedAreSpaces(s: string, lo: nat, hi: nat)
    requires lo <= hi <= |s|
    ensures forall k :: DropTrailingSpaces(s, lo, hi) <= k < hi ==> IsSpace(s[k])
    decreases hi
  {
    if lo < hi && IsSpace(s[hi - 1]) {
      DroppedAreSpaces(s, lo, hi - 1);
    }
  }

  /** An accepted group holds only digits and underscores, and ends in a digit. */
  lemma {:induction false} GroupAccepted(s: string, lo: nat, hi: nat, base: Base)
    requires lo <= hi <= |s| && Group(s, lo, hi, base).Some?
    ensures lo < hi && IsDigitIn(s[hi - 1], base)
    ensures forall k :: lo <= k < hi ==> IsDigitIn(s[k], base) || s[k] == '_'
    decreases hi - lo
  {
    if hi - 1 != lo {
      GroupAccepted(s, lo, if s[hi - 2] == '_' then hi - 2 else hi - 1, base);
    }
  }

  /** A non-empty run of hex digits is a base-16 group worth its hex value. */
  lemma {:induction false} GroupHex(s: string, lo: nat, hi: nat)
    requires lo < hi <= |s| && AllHex(s[lo..hi])
    ensures Group(s, lo, hi, 16) == Some(HexValue(s[lo..hi]))
    decreases hi - lo
  {
    HexValueLast(s, lo, hi);
    if hi - 1 != lo {
      assert IsHexDigit(s[lo..hi][hi - 2 - lo]);
      GroupHex(s, lo, hi - 1);
    } else {
      assert s[lo..lo] == [];
    }
  }

  /** The value of a run of hex digits is the value of all but its last digit, shifted, plus the last. */
  lemma {:induction false} HexValueLast(s: string, lo: nat, hi: nat)
    requires lo < hi <= |s| && AllHex(s[lo..hi])
    ensures AllHex(s[lo..hi - 1]) && IsHexDigit(s[hi - 1])
    ensures HexValue(s[lo..hi]) == HexValue(s[lo..hi - 1]) * 16 + DigitValue(s[hi - 1])
  {
    var w := s[lo..hi];
    assert w[..|w| - 1] == s[lo..hi - 1];
    assert w[|w| - 1] == s[hi - 1];
  }

  /** A non-empty string of hex digits parses, in base 16, to its hex value. */
  lemma {:induction false} ParseHexDigits(s: string)
    requires |s| > 0 && AllHex(s)
    ensures Parse(s, 16) == Some(HexValue(s))
  {
    assert !IsSpace(s[0]) && !IsSpace(s[|s| - 1]) && !IsSign(s[0]);
    assert SkipSpaces(s, 0) == 0 && DropTrailingSpaces(s, 0, |s|) == |s|;
    assert |s| >= 2 ==> s[1] != 'x' && s[1] != 'X';
    assert PrefixLength(s, 0, |s|, 16) == 0;
    assert s[0..|s|] == s;
    GroupHex(s, 0, |s|);
  }

  /** Two decimal digits parse, in base 10, to their decimal value (leading zero allowed). */
  lemma {:induction false} ParseTwoDecimalDigits(a: char, b: char)
    requires '0' <= a <= '9' && '0' <= b <= '9'
    ensures Parse([a, b], 10) == Some(10 * (a as int - '0' as int) + (b as int - '0' as int))
  {
    var s := [a, b];
    assert SkipSpaces(s, 0) == 0 && DropTrailingSpaces(s, 0, 2) == 2;
    assert SignLength(s, 0, 2) == 0 && PrefixLength(s, 0, 2, 10) == 0;
    assert Group(s, 0, 1, 10) == Some(DigitValue(a));
    assert Group(s, 0, 2, 10) == Some(DigitValue(a) * 10 + DigitValue(b));
  }

  /** Spaces, a sign, a prefix and a group leave every character allowed. */
  lemma {:induction false} AllowedAround(s: string, lo: nat, start: nat, hi: nat, base: Base)
    requires lo <= start <= hi <= |s|
    requires forall k :: 0 <= k < lo ==> IsSpace(s[k])
    requires forall k :: hi <= k < |s| ==> IsSpace(s[k])
    requires forall k :: lo <= k < start ==> Allowed(s[k], base)
    requires forall k :: start <= k < hi ==> IsDigitIn(s[k], base) || s[k] == '_'
    ensures forall k :: 0 <= k < |s| ==> Allowed(s[k], base)
  {
  }

  /**
   * What an accepted number looks like: every character is allowed for the
   * base and at least one is a digit. So an empty string, or one holding any
   * other character, is refused.
   */
  lemma {:induction false} ParseAccepted(s: string, base: Base)
    requires Parse(s, base).Some?
    ensures forall k :: 0 <= k < |s| ==> Allowed(s[k], base)
    ensures exists k :: 0 <= k < |s| && IsDigitIn(s[k], base)
  {
    var lo := SkipSpaces(s, 0);
    var hi := DropTrailingSpaces(s, lo, |s|);
    var n := SignLength(s, lo, hi);
    var start := lo + n + PrefixLength(s, lo + n, hi, base);
    SkippedAreSpaces(s, 0);
    DroppedAreSpaces(s, lo, |s|);
    GroupAccepted(s, start, hi, base);
    AllowedAround(s, lo, start, hi, base);
  }
}
