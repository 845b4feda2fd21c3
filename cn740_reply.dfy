/**
 * The decoding of the line the controller sends back, as `_ask` does it:
 * find the unit address followed by function code 03, skip four characters,
 * drop the last four (LRC and CR LF, never checked), then read the byte
 * count in decimal and the data fields in hex.
 */
module CN740Reply {
  import opened Wrappers
  import opened HexDigits
  import opened PySeq
  import PyInt
  import opened CN740Requests

  /** A decoded reply. With byte count 2 the temperature is the raw, unscaled register value. */
  datatype Reading = Reading(temperature: real, setpoint: Option<real>)

  /** Where the Python code raises instead of returning. */
  datatype Failure =
    | RequestNotEncodable     // the request body is not hex of even length, so the LRC cannot be computed
    | MarkerNotFound          // `bytes.index` finds no slave + "03"
    | CountNotInteger         // `int()` refuses the byte-count field
    | CountUnsupported(count: int)  // neither 2 nor 4: the results are never bound
    | DataNotHex              // `int(_, 16)` refuses a data field (also an empty one)

  // ---------------------------------------------------------------------
  // Reply

  /** What the reply is searched for: the slave field followed by function code 03. */
  function Marker(slave: nat): string {
    SlaveField(slave) + ReadFunction
  }

  /**
   * The decode half of `_ask`. The text from four characters past the first
   * marker up to the last four characters (LRC and CR LF, never checked) is
   * the message.
   */
  function DecodeReply(slave: nat, response: string): Result<Reading, Failure> {
    DecodeAfter(response, Marker(slave))
  }

  /** The decode after a search for any marker; the message starts four characters past it. */
  function DecodeAfter(response: string, marker: string): Result<Reading, Failure> {
    match Index(response, marker)
    case None => Err(MarkerNotFound)
    case Some(i) => DecodeMessage(Slice(response, i + 4, -4))
  }

  /**
   * The message: its first two characters are the byte count, read as a
   * DECIMAL integer; with count 4 the next two 4-character fields are
   * temperature and setpoint in tenths; with count 2 the next field is the
   * temperature, not scaled. Any other count leaves the results unbound.
   */
  function DecodeMessage(message: string): (r: Result<Reading, Failure>)
    ensures r != Err(MarkerNotFound) && r != Err(RequestNotEncodable)
  {
    DecodeFields(PyInt.Parse(Slice(message, 0, 2), 10),
                 PyInt.Parse(Slice(message, 2, 6), 16),
                 PyInt.Parse(Slice(message, 6, 10), 16))
  }

  /**
   * The branches of `_ask` on what `int()` made of the count field and the
   * two data fields (`None` where it raised); the second field only matters
   * for count 4.
   */
  function DecodeFields(count: Option<int>, temp: Option<int>, setpoint: Option<int>): (r: Result<Reading, Failure>)
    ensures r != Err(MarkerNotFound) && r != Err(RequestNotEncodable)
  {
    match count
    case None => Err(CountNotInteger)
    case Some(n) =>
      if n == 4 then
        match (temp, setpoint)
        case (Some(t), Some(s)) => Ok(Reading(t as real / 10.0, Some(s as real / 10.0)))
        case _ => Err(DataNotHex)
      else if n == 2 then
        match temp
        case Some(t) => Ok(Reading(t as real, None))
        case None => Err(DataNotHex)
      else Err(CountUnsupported(n))
  }

  /** The decoder fails with `MarkerNotFound` exactly when slave + "03" occurs nowhere in the response. */
  lemma {:induction false} DecodeMarkerAbsent(slave: nat, response: string)
    ensures DecodeReply(slave, response) == Err(MarkerNotFound) <==> forall j :: !OccursAt(response, Marker(slave), j)
  {
    IndexIsFirst(response, Marker(slave), 0);
  }

  /**
   * The marker carries the lowercase slave field, so a unit whose field holds
   * a letter (10 to 15, 26 to 31, ...) is never found in a response written
   * without lowercase hex letters, such as a controller answering "0A03...".
   */
  lemma {:induction false} UppercaseReplyNotFound(slave: nat, response: string, k: nat)
    requires k < |SlaveField(slave)| && 'a' <= SlaveField(slave)[k] <= 'f'
    requires forall j :: 0 <= j < |response| ==> !('a' <= response[j] <= 'f')
    ensures DecodeReply(slave, response) == Err(MarkerNotFound)
  {
    LetterAbsent(response, Marker(slave), k);
    DecodeMarkerAbsent(slave, response);
  }

  /** A pattern holding a lowercase hex letter occurs nowhere in text without one. */
  lemma {:induction false} LetterAbsent(response: string, pat: string, k: nat)
    requires k < |pat| && 'a' <= pat[k] <= 'f'
    requires forall j :: 0 <= j < |response| ==> !('a' <= response[j] <= 'f')
    ensures forall j :: !OccursAt(response, pat, j)
  {
    forall j | 0 <= j && j + |pat| <= |response|
      ensures !OccursAt(response, pat, j)
    {
      assert response[j..j + |pat|][k] == response[j + k];
    }
  }

  /** A reply `':' + slave + "03" + payload + trailer`, with a four-character trailer (LRC and CR LF). */
  function Reply(slave: nat, payload: string, trailer: string): string {
    ":" + SlaveField(slave) + ReadFunction + payload + trailer
  }

  /**
   * In such a reply, for a slave up to 255, the marker is first found right
   * after the colon and the message the decoder reads is the payload.
   */
  lemma {:induction false} ReplyMessage(slave: nat, payload: string, trailer: string)
    requires slave <= 255 && |trailer| == 4
    ensures Index(Reply(slave, payload, trailer), Marker(slave)) == Some(1)
    ensures Slice(Reply(slave, payload, trailer), 1 + 4, -4) == payload
    ensures DecodeReply(slave, Reply(slave, payload, trailer)) == DecodeMessage(payload)
  {
    SlaveFieldHex(slave);
    ReplyLayout(SlaveField(slave), ReadFunction, payload, trailer);
  }

  /**
   * The layout behind `ReplyMessage`, for any two-character unit field that
   * starts with a hex digit (so the colon cannot start the marker).
   */
  lemma {:induction false} ReplyLayout(sf: string, fc: string, payload: string, trailer: string)
    requires |sf| == 2 && IsHexDigit(sf[0]) && |fc| == 2 && |trailer| == 4
    ensures Index(":" + sf + fc + payload + trailer, sf + fc) == Some(1)
    ensures Slice(":" + sf + fc + payload + trailer, 1 + 4, -4) == payload
  {
    var f := ":" + sf + fc + payload + trailer;
    var m := sf + fc;
    assert f[1..5] == m;
    assert !OccursAt(f, m, 0) by {
      assert f[0] == ':';
    }
    IndexIsFirst(f, m, 1);
    assert forall i :: 0 <= i < |payload| ==> f[5 + i] == payload[i];
    assert f[5..|f| - 4] == payload;
  }

  /** The byte count and the two data fields of a message sit where the decoder slices. */
  lemma {:induction false} MessageFields(count: string, temp: string, setpoint: string)
    requires |count| == 2 && |temp| == 4
    ensures Slice(count + temp + setpoint, 0, 2) == count
    ensures Slice(count + temp + setpoint, 2, 6) == temp
    ensures |setpoint| <= 4 ==> Slice(count + temp + setpoint, 6, 10) == setpoint
  {
    var m := count + temp + setpoint;
    assert m[0..2] == count;
    assert m[2..6] == temp;
    if |setpoint| == 4 {
      assert m[6..10] == setpoint;
    } else if |setpoint| < 4 {
      assert m[6..] == setpoint;
    }
  }

  /** A 16-bit value field is four hex digits worth the value; a narrower restatement of `ValueFieldParsesBack` that keeps the decode proofs small. */
  lemma {:induction false} ValueFieldValue(raw: nat)
    requires raw <= 0xFFFF
    ensures |ValueField(raw)| == 4 && AllHex(ValueField(raw)) && HexValue(ValueField(raw)) == raw
  {
    ValueFieldParsesBack(raw);
  }

  /**
   * Any message whose count field is "04" and whose fields `m[2:6]` and
   * `m[6:10]` are non-empty hex digits of either case, worth `t` and `s`,
   * decodes to `t` and `s` divided by 10. What follows index 10 is never
   * read, and a setpoint field cut short is read as it stands.
   */
  lemma {:induction false} DecodeFourByteFields(m: string, t: nat, s: nat)
    requires |m| >= 7 && Slice(m, 0, 2) == "04"
    requires AllHex(Slice(m, 2, 6)) && HexValue(Slice(m, 2, 6)) == t
    requires AllHex(Slice(m, 6, 10)) && HexValue(Slice(m, 6, 10)) == s
    ensures DecodeMessage(m) == Ok(Reading(t as real / 10.0, Some(s as real / 10.0)))
  {
    assert "04" == ['0', '4'];
    PyInt.ParseTwoDecimalDigits('0', '4');
    PyInt.ParseHexDigits(Slice(m, 2, 6));
    PyInt.ParseHexDigits(Slice(m, 6, 10));
    CountFourMessage(m, t, s);
  }

  /**
   * Any message whose count field is "02" and whose field `m[2:6]` is
   * non-empty hex digits of either case, worth `t`, decodes to `t`,
   * unscaled, and no setpoint. What follows index 6 is never read.
   */
  lemma {:induction false} DecodeTwoByteFields(m: string, t: nat)
    requires |m| >= 3 && Slice(m, 0, 2) == "02"
    requires AllHex(Slice(m, 2, 6)) && HexValue(Slice(m, 2, 6)) == t
    ensures DecodeMessage(m) == Ok(Reading(t as real, None))
  {
    assert "02" == ['0', '2'];
    PyInt.ParseTwoDecimalDigits('0', '2');
    PyInt.ParseHexDigits(Slice(m, 2, 6));
  }

  /** A count-4 message carrying two 4-digit fields decodes to both values divided by 10. */
  lemma {:induction false} DecodeFourByteMessage(t: nat, s: nat)
    requires t <= 0xFFFF && s <= 0xFFFF
    ensures DecodeMessage("04" + ValueField(t) + ValueField(s)) == Ok(Reading(t as real / 10.0, Some(s as real / 10.0)))
  {
    ValueFieldValue(t);
    ValueFieldValue(s);
    MessageFields("04", ValueField(t), ValueField(s));
    DecodeFourByteFields("04" + ValueField(t) + ValueField(s), t, s);
  }

  /** The count-4 branch of the decoder, given what the three fields parse to; an unfolding step kept apart so that the callers' proofs stay small. */
  lemma {:induction false} CountFourMessage(m: string, t: int, s: int)
    requires PyInt.Parse(Slice(m, 0, 2), 10) == Some(4)
    requires PyInt.Parse(Slice(m, 2, 6), 16) == Some(t)
    requires PyInt.Parse(Slice(m, 6, 10), 16) == Some(s)
    ensures DecodeMessage(m) == Ok(Reading(t as real / 10.0, Some(s as real / 10.0)))
  {
  }

  /**
   * A setpoint field of one to three hex digits (a reply cut short) is still
   * read: the slice is shorter and `int(_, 16)` accepts it.
   */
  lemma {:induction false} DecodeShortSetpoint(t: nat, sp: string, v: nat)
    requires t <= 0xFFFF && 1 <= |sp| < 4 && AllHex(sp) && HexValue(sp) == v
    ensures DecodeMessage("04" + ValueField(t) + sp) == Ok(Reading(t as real / 10.0, Some(v as real / 10.0)))
  {
    ValueFieldValue(t);
    MessageFields("04", ValueField(t), sp);
    DecodeFourByteFields("04" + ValueField(t) + sp, t, v);
  }

  /**
   * Round trip of a byte-count-4 reply: temperature and setpoint written as
   * four hex digits come back divided by 10, whatever the trailer holds.
   */
  lemma {:induction false} DecodeFourByteReply(slave: nat, t: nat, s: nat, trailer: string)
    requires slave <= 255 && t <= 0xFFFF && s <= 0xFFFF && |trailer| == 4
    ensures DecodeReply(slave, Reply(slave, "04" + ValueField(t) + ValueField(s), trailer))
         == Ok(Reading(t as real / 10.0, Some(s as real / 10.0)))
  {
    ReplyMessage(slave, "04" + ValueField(t) + ValueField(s), trailer);
    DecodeFourByteMessage(t, s);
  }

  /** A count-2 message carrying one 4-digit field decodes to that value, unscaled. */
  lemma {:induction false} DecodeTwoByteMessage(t: nat)
    requires t <= 0xFFFF
    ensures DecodeMessage("02" + ValueField(t)) == Ok(Reading(t as real, None))
  {
    ValueFieldValue(t);
    MessageFields("02", ValueField(t), []);
    assert "02" + ValueField(t) + [] == "02" + ValueField(t);
    DecodeTwoByteFields("02" + ValueField(t), t);
  }

  /** Round trip of a byte-count-2 reply: the temperature comes back unscaled and there is no setpoint. */
  lemma {:induction false} DecodeTwoByteReply(slave: nat, t: nat, trailer: string)
    requires slave <= 255 && t <= 0xFFFF && |trailer| == 4
    ensures DecodeReply(slave, Reply(slave, "02" + ValueField(t), trailer)) == Ok(Reading(t as real, None))
  {
    ReplyMessage(slave, "02" + ValueField(t), trailer);
    DecodeTwoByteMessage(t);
  }

  /**
   * No checksum is verified on receive: once the marker occurs in `p`, the
   * last four characters (LRC and terminator) never change the result.
   */
  lemma {:induction false} DecodeIgnoresTrailer(slave: nat, p: string, c1: string, c2: string)
    requires Index(p, Marker(slave)).Some? && |c1| == 4 && |c2| == 4
    ensures DecodeReply(slave, p + c1) == DecodeReply(slave, p + c2)
  {
    var i := Index(p, Marker(slave)).value;
    DecodeBeforeTail(Marker(slave), p, c1, i);
    DecodeBeforeTail(Marker(slave), p, c2, i);
  }

  /** Once `m` occurs in `p`, the message read from `p + c` is the text of `p` from four past the marker on. */
  lemma {:induction false} DecodeBeforeTail(m: string, p: string, c: string, i: nat)
    requires Index(p, m) == Some(i) && |c| == 4
    ensures DecodeAfter(p + c, m) == DecodeMessage(Slice(p, i + 4, |p|))
  {
    IndexExtend(p, c, m);
    SliceBeforeTail(p, c, i + 4);
    var message := Slice(p + c, i + 4, -4);
    assert message == Slice(p, i + 4, |p|);
    assert DecodeAfter(p + c, m) == DecodeMessage(message);
  }

  /** Cutting four characters off the end of `p + c`, with `|c| == 4`, leaves a slice of `p`. */
  lemma {:induction false} SliceBeforeTail(p: string, c: string, lo: nat)
    requires |c| == 4
    ensures Slice(p + c, lo, -4) == Slice(p, lo, |p|)
  {
    if lo < |p| {
      assert (p + c)[lo..|p|] == p[lo..];
    }
  }

  /** Some character of `s` can never belong to a number `int(_, base)` accepts. */
  predicate HasForeignChar(s: string, base: PyInt.Base) {
    exists k :: 0 <= k < |s| && !PyInt.Allowed(s[k], base)
  }

  lemma {:induction false} ParseRefusesForeign(s: string, base: PyInt.Base)
    requires HasForeignChar(s, base) || s == []
    ensures PyInt.Parse(s, base).None?
  {
    if PyInt.Parse(s, base).Some? {
      PyInt.ParseAccepted(s, base);
    }
  }

  /** A byte count holding a character no decimal number may hold (such as "0A") fails the decode. */
  lemma {:induction false} DecodeRejectsNonDecimalCount(slave: nat, count: string, rest: string, trailer: string)
    requires slave <= 255 && |count| == 2 && |trailer| == 4 && HasForeignChar(count, 10)
    ensures DecodeReply(slave, Reply(slave, count + rest, trailer)) == Err(CountNotInteger)
  {
    ReplyMessage(slave, count + rest, trailer);
    assert Slice(count + rest, 0, 2) == count;
    ParseRefusesForeign(count, 10);
  }

  /**
   * A decimal byte count other than 2 and 4 fails the decode with that count;
   * the count is read in decimal, so "10" is ten.
   */
  lemma {:induction false} DecodeRejectsOtherCounts(slave: nat, a: char, b: char, rest: string, trailer: string)
    requires slave <= 255 && |trailer| == 4
    requires '0' <= a <= '9' && '0' <= b <= '9'
    requires var n := 10 * (a as int - '0' as int) + (b as int - '0' as int); n != 2 && n != 4
    ensures DecodeReply(slave, Reply(slave, [a, b] + rest, trailer))
         == Err(CountUnsupported(10 * (a as int - '0' as int) + (b as int - '0' as int)))
  {
    ReplyMessage(slave, [a, b] + rest, trailer);
    OtherCountMessage(a, b, rest);
  }

  lemma {:induction false} OtherCountMessage(a: char, b: char, rest: string)
    requires '0' <= a <= '9' && '0' <= b <= '9'
    requires var n := 10 * (a as int - '0' as int) + (b as int - '0' as int); n != 2 && n != 4
    ensures DecodeMessage([a, b] + rest) == Err(CountUnsupported(10 * (a as int - '0' as int) + (b as int - '0' as int)))
  {
    assert Slice([a, b] + rest, 0, 2) == [a, b];
    PyInt.ParseTwoDecimalDigits(a, b);
  }

  /**
   * Any message whose count field is "02" or "04" fails the decode when a
   * data field it reads is one `int(_, 16)` refuses: the field `m[2:6]` is
   * empty or holds a character no base-16 number may hold, or, for count 4,
   * so is the field `m[6:10]`. The fields are taken as Python slices, so a
   * field cut short counts as it stands.
   */
  lemma {:induction false} DecodeNonHexFields(m: string)
    requires |m| >= 2 && (Slice(m, 0, 2) == "02" || Slice(m, 0, 2) == "04")
    requires Slice(m, 2, 6) == [] || HasForeignChar(Slice(m, 2, 6), 16)
          || (Slice(m, 0, 2) == "04" && (Slice(m, 6, 10) == [] || HasForeignChar(Slice(m, 6, 10), 16)))
    ensures DecodeMessage(m) == Err(DataNotHex)
  {
    assert Slice(m, 0, 2) == [m[0], m[1]];
    PyInt.ParseTwoDecimalDigits(m[0], m[1]);
    if Slice(m, 2, 6) == [] || HasForeignChar(Slice(m, 2, 6), 16) {
      ParseRefusesForeign(Slice(m, 2, 6), 16);
    } else {
      ParseRefusesForeign(Slice(m, 6, 10), 16);
    }
  }

  /**
   * A data field holding a character no base-16 number may hold fails the
   * decode: the temperature field for either count, whatever follows it, or
   * the setpoint field of up to four characters for count 4. A temperature
   * field cut short by the end of the message counts as it stands.
   */
  lemma {:induction false} DecodeRejectsNonHexData(slave: nat, count: string, temp: string, setpoint: string, trailer: string)
    requires slave <= 255 && |trailer| == 4
    requires count == "02" || count == "04"
    requires |temp| == 4 || (|temp| < 4 && setpoint == [])
    requires HasForeignChar(temp, 16) || (count == "04" && |setpoint| <= 4 && HasForeignChar(setpoint, 16))
    ensures DecodeReply(slave, Reply(slave, count + temp + setpoint, trailer)) == Err(DataNotHex)
  {
    ReplyMessage(slave, count + temp + setpoint, trailer);
    NonHexDataMessage(count, temp, setpoint);
  }

  /** The message-level half of `DecodeRejectsNonHexData`, by `DecodeNonHexFields`. */
  lemma {:induction false} NonHexDataMessage(count: string, temp: string, setpoint: string)
    requires count == "02" || count == "04"
    requires |temp| == 4 || (|temp| < 4 && setpoint == [])
    requires HasForeignChar(temp, 16) || (count == "04" && |setpoint| <= 4 && HasForeignChar(setpoint, 16))
    ensures DecodeMessage(count + temp + setpoint) == Err(DataNotHex)
  {
    var payload := count + temp + setpoint;
    assert Slice(payload, 0, 2) == count by {
      assert payload[0..2] == count;
    }
    if |temp| == 4 {
      MessageFields(count, temp, setpoint);
    } else {
      assert payload == count + temp;
      assert Slice(payload, 2, 6) == temp by {
        assert payload[2..] == temp;
      }
    }
    DecodeNonHexFields(payload);
  }

  /**
   * Missing data fails the decode: nothing after a count of 2, or no setpoint
   * character after a count of 4 (a shorter setpoint is still read, see
   * `DecodeShortSetpoint`).
   */
  lemma {:induction false} DecodeRejectsMissingData(slave: nat, count: string, data: string, trailer: string)
    requires slave <= 255 && |trailer| == 4
    requires (count == "02" && data == []) || (count == "04" && |data| <= 4)
    ensures DecodeReply(slave, Reply(slave, count + data, trailer)) == Err(DataNotHex)
  {
    var payload := count + data;
    ReplyMessage(slave, payload, trailer);
    assert Slice(payload, 0, 2) == [count[0], count[1]];
    PyInt.ParseTwoDecimalDigits(count[0], count[1]);
    ParseRefusesForeign([], 16);
    if count == "02" {
      assert Slice(payload, 2, 6) == [];
    } else {
      assert Slice(payload, 6, 10) == [];
    }
  }

  /** A message of at most two characters holds no data field, so it never decodes. */
  lemma {:induction false} ShortMessageFails(message: string)
    requires |message| <= 2
    ensures DecodeMessage(message).Err?
  {
    assert Slice(message, 2, 6) == [];
    ParseRefusesForeign([], 16);
  }

  /** In an echoed write frame the read marker slave + "03" cannot start before index 7. */
  lemma {:induction false} EchoMarkerLate(sf: string, vf: string, lrc: string)
    requires |sf| == 2 && IsHexDigit(sf[0]) && |vf| == 4 && |lrc| == 2
    ensures forall j :: 0 <= j < 7 ==> !OccursAt(":" + sf + "06" + "4701" + vf + lrc + "\r\n", sf + "03", j)
  {
    var f := ":" + sf + "06" + "4701" + vf + lrc + "\r\n";
    var m := sf + "03";
    assert f[0] == ':' && f[3] == '0' && f[4] == '6' && f[5] == '4' && f[6] == '7' && f[7] == '0' && f[8] == '1';
    assert m[0] == sf[0] && m[2] == '0' && m[3] == '3';
    forall j | 0 <= j < 7
      ensures !OccursAt(f, m, j)
    {
      assert f[j] != m[0] || f[j + 2] != m[2] || f[j + 3] != m[3];
    }
  }

  /**
   * The controller answers a Write Single Register request with an echo of
   * the request. The decoder looks for slave + "03" only, so for every slave
   * up to 255, every 16-bit value and whatever LRC the echo carries, the echo
   * never decodes: `write_setpoint` cannot return normally.
   */
  lemma {:induction false} WriteEchoNeverDecodes(slave: nat, raw: nat, lrc: string)
    requires slave <= 255 && raw <= 0xFFFF && |lrc| == 2
    ensures DecodeReply(slave, ":" + WriteSetpointBody(slave, raw) + lrc + Terminator).Err?
  {
    var f := ":" + WriteSetpointBody(slave, raw) + lrc + Terminator;
    var m := Marker(slave);
    SlaveFieldHex(slave);
    ValueFieldHex(raw);
    EchoMarkerLate(SlaveField(slave), ValueField(raw), lrc);
    assert f == ":" + SlaveField(slave) + "06" + "4701" + ValueField(raw) + lrc + "\r\n";
    assert m == SlaveField(slave) + "03";
    assert |f| == 17;
    match Index(f, m)
    case None =>
    case Some(i) =>
      IndexIsFirst(f, m, i);
      assert 7 <= i;
      assert |Slice(f, i + 4, -4)| <= 2;
      ShortMessageFails(Slice(f, i + 4, -4));
  }
}
