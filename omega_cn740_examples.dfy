/**
 * Concrete frames for unit 3: the read request, the write request with raw
 * value 255 (a setpoint of 25.5 degrees), replies of both byte counts, and
 * the write echo the decoder rejects. Each frame is first derived in pieces
 * (":" + body + LRC + CR LF) and then joined into one literal.
 */
module OmegaCN740Examples {
  import opened Wrappers
  import opened HexDigits
  import opened PyText
  import opened PySeq
  import PyInt
  import opened CN740Lrc
  import opened CN740Requests
  import opened CN740Reply
  import opened OmegaCN740

  // ---------------------------------------------------------------------
  // Helpers for computing on literals

  /** One step of `codecs.decode(_, 'hex')` and `sum`: the first two digits add the first byte. */
  lemma {:induction false} UnhexlifySum(data: string, rest: string)
    requires |data| >= 2 && IsHexDigit(data[0]) && IsHexDigit(data[1])
    requires data[2..] == rest && Unhexlify(rest).Some?
    ensures Unhexlify(data).Some?
    ensures ByteSum(Unhexlify(data).value) == 16 * DigitValue(data[0]) + DigitValue(data[1]) + ByteSum(Unhexlify(rest).value)
  {
    var u := Unhexlify(data).value;
    assert u[1..] == Unhexlify(rest).value;
  }

  /** The rendered LRC of a byte sum is the one uppercase digit pair that cancels it. */
  lemma {:induction false} LrcDigitsAre(bytesum: int, lrc: string)
    requires Cancels(lrc, bytesum)
    ensures LrcDigits(bytesum) == lrc
  {
    LrcDigitsCancelSum(bytesum);
    CancelsUnique(lrc, LrcDigits(bytesum), bytesum);
  }

  /** With the LRC known, the frame is colon, body, LRC and CR LF: an unfolding of `Frame` that splits the example proofs into small steps. */
  lemma {:induction false} FrameOf(body: string, lrc: string)
    requires ComputeLrc(body) == Some(lrc)
    ensures Frame(body) == Some(":" + body + lrc + "\r\n")
  {
  }

  // ---------------------------------------------------------------------
  // Fields

  lemma {:induction false} SlaveThree()
    ensures SlaveField(3) == "03"
  {
    assert HexString(3) == "3";
  }

  /** Slave 10 is sent as lowercase "0a". */
  lemma {:induction false} SlaveTen()
    ensures SlaveField(10) == "0a"
  {
    assert HexString(10) == "a";
  }

  /** Slave 256 needs three digits. */
  lemma {:induction false} SlaveTooLong()
    ensures |SlaveField(256)| == 3
  {
    assert HexString(256) == "100";
  }

  /** No request can be built for slave 256: its odd-length body makes the LRC raise. */
  lemma {:induction false} SlaveTooLarge()
    ensures ReadTempRequest(256) == None
  {
    SlaveTooLong();
    ReadTempRequestDefined(256);
  }

  lemma {:induction false} ValueField255()
    ensures ValueField(255) == "00FF"
  {
    assert HexString(255) == "ff";
  }

  lemma {:induction false} ValueField1200()
    ensures ValueField(1200) == "04B0"
  {
    assert HexString(1200) == "4b0";
  }

  lemma {:induction false} ValueField300()
    ensures ValueField(300) == "012C"
  {
    assert HexString(300) == "12c";
  }

  lemma {:induction false} ValueField1()
    ensures ValueField(1) == "0001"
  {
    assert HexString(1) == "1";
  }

  // ---------------------------------------------------------------------
  // The read request

  lemma {:induction false} ReadBodyThree()
    ensures ReadTempBody(3) == "030347000002"
  {
    SlaveThree();
  }

  /** 00 + 00 + 02 in hex is 2. */
  lemma {:induction false} ReadCountSum()
    ensures Unhexlify("000002").Some? && ByteSum(Unhexlify("000002").value) == 2
  {
    assert Unhexlify("") == Some([]);
    UnhexlifySum("02", "");
    UnhexlifySum("0002", "02");
    UnhexlifySum("000002", "0002");
  }

  /** 03 + 03 + 47 + 00 + 00 + 02 in hex is 79. */
  lemma {:induction false} ReadRegisterSum()
    ensures Unhexlify("47000002").Some? && ByteSum(Unhexlify("47000002").value) == 73
  {
    ReadCountSum();
    UnhexlifySum("47000002", "000002");
  }

  lemma {:induction false} ReadBodySum()
    ensures Unhexlify("030347000002").Some? && ByteSum(Unhexlify("030347000002").value) == 79
  {
    ReadRegisterSum();
    UnhexlifySum("0347000002", "47000002");
    UnhexlifySum("030347000002", "0347000002");
  }

  /** 256 - 79 = 177 = 0xB1. */
  lemma {:induction false} LrcOf79()
    ensures LrcDigits(79) == "B1"
  {
    assert "B1"[..1] == "B" && "B"[..0] == "";
    assert HexValue("B1") == 177;
    LrcDigitsAre(79, "B1");
  }

  lemma {:induction false} ReadLrc()
    ensures ComputeLrc("030347000002") == Some("B1")
  {
    ReadBodySum();
    LrcOf79();
  }

  lemma {:induction false} ReadRequestPieces()
    ensures ReadTempRequest(3) == Some(":" + "030347000002" + "B1" + "\r\n")
  {
    ReadBodyThree();
    ReadLrc();
    FrameOf("030347000002", "B1");
  }

  lemma {:induction false} ReadRequestJoined()
    ensures ":" + "030347000002" + "B1" + "\r\n" == ":030347000002B1\r\n"
  {
  }

  /** The read request for unit 3. */
  lemma {:induction false} ReadRequestExample()
    ensures ReadTempRequest(3) == Some(":030347000002B1\r\n")
  {
    ReadRequestPieces();
    ReadRequestJoined();
  }

  // ---------------------------------------------------------------------
  // The write request

  lemma {:induction false} WriteBodyThree()
    ensures WriteSetpointBody(3, 255) == "0306470100FF"
  {
    SlaveThree();
    ValueField255();
  }

  /** 01 + 00 + FF in hex is 256. */
  lemma {:induction false} WriteValueSum()
    ensures Unhexlify("0100FF").Some? && ByteSum(Unhexlify("0100FF").value) == 256
  {
    assert Unhexlify("") == Some([]);
    UnhexlifySum("FF", "");
    UnhexlifySum("00FF", "FF");
    UnhexlifySum("0100FF", "00FF");
  }

  /** 03 + 06 + 47 + 01 + 00 + FF in hex is 336, above one byte. */
  lemma {:induction false} WriteRegisterSum()
    ensures Unhexlify("470100FF").Some? && ByteSum(Unhexlify("470100FF").value) == 327
  {
    WriteValueSum();
    UnhexlifySum("470100FF", "0100FF");
  }

  lemma {:induction false} WriteBodySum()
    ensures Unhexlify("0306470100FF").Some? && ByteSum(Unhexlify("0306470100FF").value) == 336
  {
    WriteRegisterSum();
    UnhexlifySum("06470100FF", "470100FF");
    UnhexlifySum("0306470100FF", "06470100FF");
  }

  /** (256 - 336) & 0xff = 176 = 0xB0. */
  lemma {:induction false} LrcOf336()
    ensures LrcDigits(336) == "B0"
  {
    assert "B0"[..1] == "B" && "B"[..0] == "";
    assert HexValue("B0") == 176;
    LrcDigitsAre(336, "B0");
  }

  lemma {:induction false} WriteLrc()
    ensures ComputeLrc("0306470100FF") == Some("B0")
  {
    WriteBodySum();
    LrcOf336();
  }

  lemma {:induction false} WriteRequestPieces()
    ensures WriteSetpointRequest(3, 255) == Some(":" + "0306470100FF" + "B0" + "\r\n")
  {
    WriteBodyThree();
    WriteLrc();
    FrameOf("0306470100FF", "B0");
  }

  lemma {:induction false} WriteRequestJoined()
    ensures ":" + "0306470100FF" + "B0" + "\r\n" == ":0306470100FFB0\r\n"
  {
  }

  /** The write request for unit 3 and raw value 255. */
  lemma {:induction false} WriteRequestExample()
    ensures WriteSetpointRequest(3, 255) == Some(":0306470100FFB0\r\n")
  {
    WriteRequestPieces();
    WriteRequestJoined();
  }

  /** Unit 3 echoing that write request back makes `write_setpoint` fail. */
  lemma {:induction false} WriteEchoExample()
    ensures WriteSetpoint(3, 255, ":0306470100FFB0\r\n").Err?
  {
    WriteRequestExample();
    WriteSetpointOwnEcho(3, 255);
  }

  // ---------------------------------------------------------------------
  // Replies

  lemma {:induction false} FourByteReplyPieces()
    ensures ReadTemp(3, Reply(3, "04" + "04B0" + "012C", "15\r\n")) == Ok(Reading(120.0, Some(30.0)))
  {
    ValueField1200();
    ValueField300();
    ReadTempRoundTrip(3, 1200, 300, "15\r\n");
  }

  lemma {:induction false} FourByteReplyJoined()
    ensures Reply(3, "04" + "04B0" + "012C", "15\r\n") == ":03030404B0012C15\r\n"
  {
    SlaveThree();
    assert ":" + "03" + "03" + ("04" + "04B0" + "012C") + "15\r\n" == ":03030404B0012C15\r\n";
  }

  /** A count-4 reply: 0x04B0 = 1200 and 0x012C = 300 tenths of a degree. */
  lemma {:induction false} FourByteReplyExample()
    ensures ReadTemp(3, ":03030404B0012C15\r\n") == Ok(Reading(120.0, Some(30.0)))
  {
    FourByteReplyPieces();
    FourByteReplyJoined();
  }

  lemma {:induction false} TwoByteReplyPieces()
    ensures DecodeReply(3, Reply(3, "02" + "0001", "F7\r\n")) == Ok(Reading(1.0, None))
  {
    ValueField1();
    DecodeTwoByteReply(3, 1, "F7\r\n");
  }

  lemma {:induction false} TwoByteReplyJoined()
    ensures Reply(3, "02" + "0001", "F7\r\n") == ":0303020001F7\r\n"
  {
    SlaveThree();
    assert ":" + "03" + "03" + ("02" + "0001") + "F7\r\n" == ":0303020001F7\r\n";
  }

  /** A count-2 reply: the value is taken as it stands, not divided by 10. */
  lemma {:induction false} TwoByteReplyExample()
    ensures DecodeReply(3, ":0303020001F7\r\n") == Ok(Reading(1.0, None))
  {
    TwoByteReplyPieces();
    TwoByteReplyJoined();
  }

  /** A foreign character in the temperature fails the decode, whatever the length of the setpoint after it. */
  lemma {:induction false} NonHexTemperatureExample()
    ensures DecodeReply(3, Reply(3, "04" + "0G00" + "12", "15\r\n")) == Err(DataNotHex)
  {
    assert !PyInt.Allowed("0G00"[1], 16);
    DecodeRejectsNonHexData(3, "04", "0G00", "12", "15\r\n");
  }

  /**
   * A line cut short by the read timeout: its last four characters are taken
   * as LRC and CR LF, so the message left is "0404", with no setpoint.
   */
  lemma {:induction false} CutShortReplyExample()
    ensures DecodeReply(3, ":03030404B001") == Err(DataNotHex)
  {
    SlaveThree();
    assert Reply(3, "04" + "04", "B001") == ":03030404B001";
    DecodeRejectsMissingData(3, "04", "04", "B001");
  }

  /** Unit 10 is searched for as "0a03", so an uppercase reply for it is never found. */
  lemma {:induction false} UppercaseTenExample()
    ensures DecodeReply(10, ":0A03020001F0\r\n") == Err(MarkerNotFound)
  {
    SlaveTen();
    UppercaseReplyNotFound(10, ":0A03020001F0\r\n", 1);
  }

  /** A byte count of "10" is ten, neither 2 nor 4. */
  lemma {:induction false} CountTenExample()
    ensures DecodeReply(3, Reply(3, "10" + "04B0", "15\r\n")) == Err(CountUnsupported(10))
  {
    assert "10" + "04B0" == ['1', '0'] + "04B0";
    DecodeRejectsOtherCounts(3, '1', '0', "04B0", "15\r\n");
  }

  // ---------------------------------------------------------------------
  // int()

  /** Surrounding whitespace is skipped: a count field " 4" is four. */
  lemma {:induction false} ParseSpaced()
    ensures PyInt.Parse(" 4", 10) == Some(4)
  {
  }

  /** A hex digit in a decimal count is refused. */
  lemma {:induction false} ParseHexInDecimal()
    ensures PyInt.Parse("4B", 10) == None
  {
    assert !PyInt.Allowed("4B"[1], 10);
    ParseRefusesForeign("4B", 10);
  }

  /** In base 16 a `0x` prefix is accepted. */
  lemma {:induction false} ParsePrefixed()
    ensures PyInt.Parse("0x1F", 16) == Some(31)
  {
    var s := "0x1F";
    assert PyInt.SkipSpaces(s, 0) == 0 && PyInt.DropTrailingSpaces(s, 0, 4) == 4;
    assert PyInt.SignLength(s, 0, 4) == 0 && PyInt.PrefixLength(s, 0, 4, 16) == 2;
    assert PyInt.Group(s, 2, 3, 16) == Some(1);
    assert PyInt.Group(s, 2, 4, 16) == Some(31);
  }

  /** A single underscore between digits is skipped. */
  lemma {:induction false} ParseUnderscore()
    ensures PyInt.Parse("1_0", 10) == Some(10)
  {
    var s := "1_0";
    assert PyInt.SkipSpaces(s, 0) == 0 && PyInt.DropTrailingSpaces(s, 0, 3) == 3;
    assert PyInt.SignLength(s, 0, 3) == 0 && PyInt.PrefixLength(s, 0, 3, 10) == 0;
    assert PyInt.Group(s, 0, 1, 10) == Some(1);
    assert PyInt.Group(s, 0, 3, 10) == Some(10);
  }
}
