/**
 * The longitudinal redundancy check of Modbus ASCII as the `OmegaCN740`
 * client computes it: the two's complement of the sum of the bytes spelled
 * by the hex body, kept to one byte and written as two uppercase hex digits.
 */
module CN740Lrc {
  import opened Wrappers
  import opened HexDigits
  import opened PyText

  // ---------------------------------------------------------------------
  // LRC

  /** The two's complement of the byte sum, kept to its low byte (`& 0x0ff`). */
  function LowByte(x: int): (b: nat)
    ensures b < 256
  {
    x % 256
  }

  /** `hex((256 - bytesum) & 0x0ff)[2:].zfill(2).upper()`. */
  function LrcDigits(bytesum: int): string {
    ToUpper(ZFill(HexString(LowByte(256 - bytesum)), 2))
  }

  /**
   * `lrc` is two uppercase hex digits whose value, added to `bytesum`, is 0
   * modulo 256: what a receiver checks.
   */
  predicate Cancels(lrc: string, bytesum: int) {
    |lrc| == 2 && AllHex(lrc) && AllUpperHex(lrc) && (HexValue(lrc) + bytesum) % 256 == 0
  }

  /** The rendered LRC cancels the byte sum, whatever the sum (also above 255 or negative). */
  lemma {:induction false} LrcDigitsCancelSum(bytesum: int)
    ensures Cancels(LrcDigits(bytesum), bytesum)
  {
    var x := LowByte(256 - bytesum);
    HexStringLength(x, 2);
    assert Pow16(2) == 256;
    HexStringValue(x);
    UpperPaddedHex(HexString(x), 2);
    assert HexValue(LrcDigits(bytesum)) == x;
  }

  /** At most one string cancels a given sum. */
  lemma {:induction false} CancelsUnique(a: string, b: string, bytesum: int)
    requires Cancels(a, bytesum) && Cancels(b, bytesum)
    ensures a == b
  {
    assert HexValue(a) < 256 && HexValue(b) < 256 by {
      assert Pow16(2) == 256;
    }
    SameResidue(HexValue(a), HexValue(b), bytesum);
    UpperHexInjective(a, b);
  }

  /** `_compute_lrc`: decode the hex body, sum its bytes, render the negated sum. */
  function ComputeLrc(data: string): Option<string> {
    match Unhexlify(data)
    case None => None
    case Some(bytes) => Some(LrcDigits(ByteSum(bytes)))
  }

  /** `lrc` is a valid LRC for `body`: it cancels the sum of the bytes the body spells. */
  ghost predicate ChecksumFor(body: string, lrc: string) {
    Unhexlify(body).Some? && Cancels(lrc, ByteSum(Unhexlify(body).value))
  }

  /**
   * The LRC exists exactly for even-length hex bodies, and then it is a valid
   * checksum, whatever the byte sum (also above 255).
   */
  lemma {:induction false} LrcCorrect(data: string)
    ensures ComputeLrc(data).Some? <==> |data| % 2 == 0 && AllHex(data)
    ensures ComputeLrc(data).Some? ==> ChecksumFor(data, ComputeLrc(data).value)
  {
    if Unhexlify(data).Some? {
      var sum := ByteSum(Unhexlify(data).value);
      LrcOfSum(data, sum);
      LrcDigitsCancelSum(sum);
    }
  }

  lemma {:induction false} LrcOfSum(data: string, sum: int)
    requires Unhexlify(data).Some? && sum == ByteSum(Unhexlify(data).value)
    ensures ComputeLrc(data) == Some(LrcDigits(sum))
  {
  }

  /** Only one two-digit uppercase string is a valid LRC, so it is the computed one. */
  lemma {:induction false} LrcUnique(body: string, lrc: string)
    requires ChecksumFor(body, lrc)
    ensures ComputeLrc(body) == Some(lrc)
  {
    var sum := ByteSum(Unhexlify(body).value);
    LrcOfSum(body, sum);
    LrcDigitsCancelSum(sum);
    CancelsUnique(lrc, LrcDigits(sum), sum);
  }

  lemma {:induction false} SameResidue(a: int, b: int, s: int)
    requires 0 <= a < 256 && 0 <= b < 256
    requires (a + s) % 256 == 0 && (b + s) % 256 == 0
    ensures a == b
  {
  }
}
