/**
 * The Python text and byte built-ins that the controller code composes:
 * `hex(n)[2:]`, `str.zfill`, `str.upper`, `codecs.decode(data, 'hex')`
 * and `sum` over the decoded bytes. A `string` stands for a Python `bytes`
 * or `str` value, one character per byte.
 */
module PyText {
  import opened Wrappers
  import opened HexDigits

  /** `hex(n)[2:]` for a non-negative `n`: the shortest lowercase digit string, "0" for zero. */
  function HexString(n: nat): (r: string)
    ensures |r| >= 1 && AllLowerHex(r) && AllHex(r)
    decreases n
  {
    if n < 16 then [LowerDigit(n)] else HexString(n / 16) + [LowerDigit(n % 16)]
  }

  /** The digits of `hex(n)` parse back to `n`. */
  lemma {:induction false} HexStringValue(n: nat)
    ensures HexValue(HexString(n)) == n
    decreases n
  {
    if n >= 16 {
      HexStringValue(n / 16);
      var r := HexString(n);
      assert r[..|r| - 1] == HexString(n / 16);
    }
  }

  /** `hex(n)` has at most `k` digits exactly when `n` is below 16^k. */
  lemma {:induction false} HexStringLength(n: nat, k: nat)
    requires k >= 1
    ensures |HexString(n)| <= k <==> n < Pow16(k)
    decreases n
  {
    if n < 16 {
      assert Pow16(k) >= 16 by { assert Pow16(k) == 16 * Pow16(k - 1); }
    } else if k == 1 {
      assert |HexString(n)| >= 2;
    } else {
      HexStringLength(n / 16, k - 1);
      assert n / 16 < Pow16(k - 1) <==> n < Pow16(k) by {
        assert Pow16(k) == 16 * Pow16(k - 1);
      }
    }
  }

  /**
   * `s.zfill(width)` for a string without a leading sign (every string this
   * model pads is a digit string): zeros on the left up to `width`.
   */
  function ZFill(s: string, width: nat): (r: string)
    ensures |r| == if |s| >= width then |s| else width
    ensures r[|r| - |s|..] == s
    ensures forall i :: 0 <= i < |r| - |s| ==> r[i] == '0'
  {
    if |s| >= width then s else Zeros(width - |s|) + s
  }

  /** Zero padding keeps hex digits hex digits, of the same case, and keeps their value. */
  lemma {:induction false} ZFillHex(s: string, width: nat)
    requires AllHex(s)
    ensures AllHex(ZFill(s, width)) && HexValue(ZFill(s, width)) == HexValue(s)
    ensures AllLowerHex(s) ==> AllLowerHex(ZFill(s, width))
  {
    if |s| < width {
      ZeroPaddedValue(width - |s|, s);
    }
  }

  function UpperChar(c: char): char {
    if 'a' <= c <= 'z' then (c as int - 'a' as int + 'A' as int) as char else c
  }

  /** `s.upper()` on ASCII text. */
  function ToUpper(s: string): (r: string)
    ensures |r| == |s|
    ensures forall i :: 0 <= i < |s| ==> r[i] == UpperChar(s[i])
  {
    if s == [] then [] else [UpperChar(s[0])] + ToUpper(s[1..])
  }

  /** Upper-casing turns hex digits into uppercase hex digits of the same value. */
  lemma {:induction false} ToUpperHex(s: string)
    requires AllHex(s)
    ensures AllHex(ToUpper(s)) && AllUpperHex(ToUpper(s))
    ensures HexValue(ToUpper(s)) == HexValue(s)
  {
    var u := ToUpper(s);
    assert forall i :: 0 <= i < |s| ==> IsHexDigit(u[i]) && IsUpperHexDigit(u[i]) && DigitValue(u[i]) == DigitValue(s[i]);
    HexValueDigitwise(s, u);
  }

  /** Zero padding then upper-casing turns hex digits into uppercase hex digits of the same value. */
  lemma {:induction false} UpperPaddedHex(s: string, width: nat)
    requires AllHex(s)
    ensures AllHex(ToUpper(ZFill(s, width))) && AllUpperHex(ToUpper(ZFill(s, width)))
    ensures HexValue(ToUpper(ZFill(s, width))) == HexValue(s)
  {
    ZFillHex(s, width);
    ToUpperHex(ZFill(s, width));
  }

  /**
   * `codecs.decode(data, 'hex')`: the bytes spelled by the hex digit pairs of
   * `data`; `None` where Python raises (odd length, a character that is not a
   * hex digit of either case).
   */
  function Unhexlify(data: string): (r: Option<seq<nat>>)
    ensures r.Some? <==> |data| % 2 == 0 && AllHex(data)
    ensures r.Some? ==> |r.value| == |data| / 2
  {
    if |data| == 0 then Some([])
    else if |data| == 1 || !IsHexDigit(data[0]) || !IsHexDigit(data[1]) then None
    else
      var tail := data[2..];
      assert AllHex(data) <==> AllHex(tail) by {
        assert forall i :: 2 <= i < |data| ==> data[i] == tail[i - 2];
      }
      match Unhexlify(tail)
      case None => None
      case Some(rest) => Some([16 * DigitValue(data[0]) + DigitValue(data[1])] + rest)
  }

  /** Each decoded byte is the value of its digit pair, so below 256. */
  lemma {:induction false} UnhexlifyBytes(data: string, k: nat)
    requires Unhexlify(data).Some? && k < |Unhexlify(data).value|
    ensures AllHex(data[2 * k..2 * k + 2])
    ensures Unhexlify(data).value[k] == HexValue(data[2 * k..2 * k + 2]) < 256
  {
    if k == 0 {
      var pair := data[..2];
      assert pair[..1] == [data[0]];
      assert HexValue(pair) == 16 * DigitValue(data[0]) + DigitValue(data[1]);
    } else {
      var tail := data[2..];
      assert AllHex(tail) by {
        assert forall i :: 2 <= i < |data| ==> data[i] == tail[i - 2];
      }
      UnhexlifyBytes(tail, k - 1);
      assert tail[2 * (k - 1)..2 * (k - 1) + 2] == data[2 * k..2 * k + 2];
    }
  }

  /** Python's `sum` over a byte sequence. */
  function ByteSum(b: seq<nat>): nat {
    if b == [] then 0 else b[0] + ByteSum(b[1..])
  }
}
