/**
 * The request frames the `OmegaCN740` client sends: `':' + body + LRC +
 * "\r\n"`, where the body is the unit address, a function code, a
 * register address and a register count or value, all hex text.
 */
module CN740Requests {
  import opened Wrappers
  import opened HexDigits
  import opened PyText
  import opened CN740Lrc

  /** Function code 03, Read Holding Registers. */
  const ReadFunction: string := "03"
  /** Function code 06, Write Single Register. */
  const WriteFunction: string := "06"
  /** The process value register; it is followed by the setpoint register. */
  const TemperatureRegister: string := "4700"
  /** Two registers are always requested: temperature and setpoint. */
  const RegisterCount: string := "0002"
  /** The setpoint register. */
  const SetpointRegister: string := "4701"
  const Terminator: string := "\r\n"

  // ---------------------------------------------------------------------
  // Unit address

  /** The slave field: `hex(slave)[2:].zfill(2)`, lowercase. */
  function SlaveField(slave: nat): string {
    ZFill(HexString(slave), 2)
  }

  /** The slave field is lowercase hex that parses back to the slave number; it is two digits exactly up to 255. */
  lemma {:induction false} SlaveFieldParsesBack(slave: nat)
    ensures AllHex(SlaveField(slave)) && AllLowerHex(SlaveField(slave))
    ensures HexValue(SlaveField(slave)) == slave
    ensures |SlaveField(slave)| >= 2
    ensures |SlaveField(slave)| == 2 <==> slave <= 255
  {
    HexStringValue(slave);
    ZFillHex(HexString(slave), 2);
    HexStringLength(slave, 2);
  }

  // ---------------------------------------------------------------------
  // Requests

  /**
   * `frame` is `':' + body + lrc + "\r\n"` with a valid LRC for `body`, the
   * shape of every frame the client sends.
   */
  ghost predicate IsFrameFor(frame: string, body: string) {
    && |frame| == |body| + 5
    && frame[0] == ':'
    && frame[1..|body| + 1] == body
    && ChecksumFor(body, frame[|body| + 1..|body| + 3])
    && frame[|body| + 3..] == Terminator
  }

  function Frame(body: string): Option<string> {
    match ComputeLrc(body)
    case None => None
    case Some(lrc) => Some(":" + body + lrc + Terminator)
  }

  /** A frame can be built exactly for an even-length hex body. */
  lemma {:induction false} FrameDefined(body: string)
    ensures Frame(body).Some? <==> |body| % 2 == 0 && AllHex(body)
  {
    LrcCorrect(body);
  }

  /** Every frame built is `':' + body + LRC + "\r\n"` with a valid LRC. */
  lemma {:induction false} FrameShape(body: string)
    requires Frame(body).Some?
    ensures IsFrameFor(Frame(body).value, body)
  {
    LrcCorrect(body);
    var f := Frame(body).value;
    var lrc := ComputeLrc(body).value;
    assert f[1..|body| + 1] == body;
    assert f[|body| + 1..|body| + 3] == lrc;
    assert f[|body| + 3..] == Terminator;
  }

  lemma {:induction false} FixedFieldsHex()
    ensures AllHex(ReadFunction) && AllHex(WriteFunction) && AllHex(TemperatureRegister)
    ensures AllHex(SetpointRegister) && AllHex(RegisterCount)
  {
  }

  /** The fixed fields, read as hex numbers. */
  lemma {:induction false} FixedFieldValues()
    ensures AllHex(ReadFunction) && HexValue(ReadFunction) == 3
    ensures AllHex(WriteFunction) && HexValue(WriteFunction) == 6
    ensures AllHex(TemperatureRegister) && HexValue(TemperatureRegister) == 0x4700
    ensures AllHex(SetpointRegister) && HexValue(SetpointRegister) == 0x4701
    ensures AllHex(RegisterCount) && HexValue(RegisterCount) == 2
  {
    assert "03"[..1] == "0" && "06"[..1] == "0" && "0"[..0] == "";
    assert "4700"[..3] == "470" && "4701"[..3] == "470" && "470"[..2] == "47";
    assert "47"[..1] == "4" && "4"[..0] == "";
    assert "0002"[..3] == "000" && "000"[..2] == "00" && "00"[..1] == "0";
  }

  /** The four fields of a 12-digit body sit at fixed positions of its frame. */
  lemma {:induction false} FrameFields(f: string, a: string, b: string, c: string, d: string)
    requires |a| == 2 && |b| == 2 && |c| == 4 && |d| == 4
    requires |f| == 17 && f[1..13] == a + b + c + d
    ensures f[1..3] == a && f[3..5] == b && f[5..9] == c && f[9..13] == d
  {
    var body := a + b + c + d;
    assert body[0..2] == a && body[2..4] == b && body[4..8] == c && body[8..12] == d;
    assert forall i :: 1 <= i < 13 ==> f[i] == body[i - 1];
    assert f[1..3] == body[0..2] && f[3..5] == body[2..4];
    assert f[5..9] == body[4..8] && f[9..13] == body[8..12];
  }

  /**
   * The part of `SlaveFieldParsesBack` the frame proofs need, without the
   * value: a smaller fact keeps those proofs cheap.
   */
  lemma {:induction false} SlaveFieldHex(slave: nat)
    ensures AllHex(SlaveField(slave))
    ensures |SlaveField(slave)| == 2 <==> slave <= 255
  {
    ZFillHex(HexString(slave), 2);
    HexStringLength(slave, 2);
  }

  /** The part of `ValueFieldParsesBack` the frame proofs need, kept small for the same reason. */
  lemma {:induction false} ValueFieldHex(raw: nat)
    ensures AllHex(ValueField(raw))
    ensures |ValueField(raw)| == 4 <==> raw <= 0xFFFF
  {
    UpperPaddedHex(HexString(raw), 4);
    ValueFieldLength(raw);
  }

  /** The value field has at least four digits, and exactly four up to 0xFFFF (the length half of `ValueFieldParsesBack`). */
  lemma {:induction false} ValueFieldLength(raw: nat)
    ensures |ValueField(raw)| >= 4
    ensures |ValueField(raw)| == 4 <==> raw <= 0xFFFF
  {
    HexStringLength(raw, 4);
    assert Pow16(4) == 0x10000;
  }

  /** Four hex fields, of which only the first and last vary in length, make a hex body whose parity is theirs. */
  lemma {:induction false} BodyOfFields(a: string, b: string, c: string, d: string)
    requires AllHex(a) && AllHex(b) && AllHex(c) && AllHex(d) && |b| == 2 && |c| == 4
    ensures AllHex(a + b + c + d)
    ensures |a + b + c + d| % 2 == (|a| + |d|) % 2
  {
    HexConcat(a, b);
    HexConcat(a + b, c);
    HexConcat(a + b + c, d);
  }

  /** Hex text followed by hex text is hex. */
  lemma {:induction false} HexConcat(a: string, b: string)
    requires AllHex(a) && AllHex(b)
    ensures AllHex(a + b)
  {
    assert forall i :: |a| <= i < |a + b| ==> (a + b)[i] == b[i - |a|];
  }

  function ReadTempBody(slave: nat): string {
    SlaveField(slave) + ReadFunction + TemperatureRegister + RegisterCount
  }

  /** `_read_temp`: the request for the temperature and setpoint registers; `None` where the LRC raises. */
  function ReadTempRequest(slave: nat): Option<string> {
    Frame(ReadTempBody(slave))
  }

  /**
   * The read request is built exactly when the slave field has even length,
   * which it has for every slave up to 255.
   */
  lemma {:induction false} ReadTempRequestDefined(slave: nat)
    ensures ReadTempRequest(slave).Some? <==> |SlaveField(slave)| % 2 == 0
    ensures slave <= 255 ==> ReadTempRequest(slave).Some?
  {
    SlaveFieldHex(slave);
    FixedFieldsHex();
    BodyOfFields(SlaveField(slave), ReadFunction, TemperatureRegister, RegisterCount);
    assert (|SlaveField(slave)| + |RegisterCount|) % 2 == |SlaveField(slave)| % 2;
    FrameDefined(ReadTempBody(slave));
  }

  /**
   * A read request is a checked frame around slave + 03 + 4700 + 0002:
   * apart from the slave field and the LRC every read request is the same.
   */
  lemma {:induction false} ReadTempRequestShape(slave: nat)
    requires ReadTempRequest(slave).Some?
    ensures IsFrameFor(ReadTempRequest(slave).value, SlaveField(slave) + "03" + "4700" + "0002")
  {
    FrameShape(ReadTempBody(slave));
  }

  /**
   * For a slave up to 255 the read request is 17 characters whose fields
   * parse back to the slave, function 3, register 0x4700 and count 2.
   */
  lemma {:induction false} ReadTempRequestFields(slave: nat)
    requires slave <= 255
    ensures ReadTempRequest(slave).Some?
    ensures var f := ReadTempRequest(slave).value;
      && |f| == 17
      && AllHex(f[1..3]) && HexValue(f[1..3]) == slave
      && AllHex(f[3..5]) && HexValue(f[3..5]) == 3
      && AllHex(f[5..9]) && HexValue(f[5..9]) == 0x4700
      && AllHex(f[9..13]) && HexValue(f[9..13]) == 2
  {
    ReadTempRequestDefined(slave);
    ReadTempRequestShape(slave);
    SlaveFieldParsesBack(slave);
    FixedFieldValues();
    var f := ReadTempRequest(slave).value;
    FrameFields(f, SlaveField(slave), ReadFunction, TemperatureRegister, RegisterCount);
  }

  /** The value field: `hex(raw)[2:].zfill(4).upper()`. */
  function ValueField(raw: nat): string {
    ToUpper(ZFill(HexString(raw), 4))
  }

  /** The value field is uppercase hex that parses back to the raw value; it is four digits exactly up to 0xFFFF. */
  lemma {:induction false} ValueFieldParsesBack(raw: nat)
    ensures AllHex(ValueField(raw)) && AllUpperHex(ValueField(raw))
    ensures HexValue(ValueField(raw)) == raw
    ensures |ValueField(raw)| >= 4
    ensures |ValueField(raw)| == 4 <==> raw <= 0xFFFF
  {
    HexStringValue(raw);
    UpperPaddedHex(HexString(raw), 4);
    ValueFieldLength(raw);
  }

  function WriteSetpointBody(slave: nat, raw: nat): string {
    SlaveField(slave) + WriteFunction + SetpointRegister + ValueField(raw)
  }

  /** `_write_setpoint`: the request writing `raw` (tenths of a degree) to the setpoint register. */
  function WriteSetpointRequest(slave: nat, raw: nat): Option<string> {
    Frame(WriteSetpointBody(slave, raw))
  }

  /**
   * The write request is built exactly when slave field and value field
   * together have even length, which they have for every slave up to 255 and
   * every raw value up to 0xFFFF.
   */
  lemma {:induction false} WriteSetpointRequestDefined(slave: nat, raw: nat)
    ensures WriteSetpointRequest(slave, raw).Some? <==> (|SlaveField(slave)| + |ValueField(raw)|) % 2 == 0
    ensures slave <= 255 && raw <= 0xFFFF ==> WriteSetpointRequest(slave, raw).Some?
  {
    SlaveFieldHex(slave);
    ValueFieldHex(raw);
    FixedFieldsHex();
    BodyOfFields(SlaveField(slave), WriteFunction, SetpointRegister, ValueField(raw));
    FrameDefined(WriteSetpointBody(slave, raw));
  }

  /** A write request is a checked frame around slave + 06 + 4701 + value. */
  lemma {:induction false} WriteSetpointRequestShape(slave: nat, raw: nat)
    requires WriteSetpointRequest(slave, raw).Some?
    ensures IsFrameFor(WriteSetpointRequest(slave, raw).value, SlaveField(slave) + "06" + "4701" + ValueField(raw))
  {
    FrameShape(WriteSetpointBody(slave, raw));
  }

  /**
   * For a slave up to 255 and a 16-bit raw value the write request is 17
   * characters whose fields parse back to the slave, function 6, register
   * 0x4701 and `raw`.
   */
  lemma {:induction false} WriteSetpointRequestFields(slave: nat, raw: nat)
    requires slave <= 255 && raw <= 0xFFFF
    ensures WriteSetpointRequest(slave, raw).Some?
    ensures var f := WriteSetpointRequest(slave, raw).value;
      && |f| == 17
      && AllHex(f[1..3]) && HexValue(f[1..3]) == slave
      && AllHex(f[3..5]) && HexValue(f[3..5]) == 6
      && AllHex(f[5..9]) && HexValue(f[5..9]) == 0x4701
      && AllHex(f[9..13]) && HexValue(f[9..13]) == raw
  {
    WriteSetpointRequestDefined(slave, raw);
    WriteSetpointRequestShape(slave, raw);
    SlaveFieldParsesBack(slave);
    ValueFieldParsesBack(raw);
    FixedFieldValues();
    var f := WriteSetpointRequest(slave, raw).value;
    FrameFields(f, SlaveField(slave), WriteFunction, SetpointRegister, ValueField(raw));
  }
}
