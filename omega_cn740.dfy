/**
 * The `OmegaCN740` client's two public operations, each building a request
 * and decoding the line read back. Port I/O is not modelled: the line read
 * from the port is a parameter.
 */
module OmegaCN740 {
  import opened Wrappers
  import opened CN740Lrc
  import opened CN740Requests
  import opened CN740Reply

  /** `read_temp`: build the read request (which may raise), then decode the line read back. */
  function ReadTemp(slave: nat, response: string): Result<Reading, Failure> {
    if ReadTempRequest(slave).None? then Err(RequestNotEncodable) else DecodeReply(slave, response)
  }

  /** `write_setpoint` on a raw value: build the write request, then decode the line read back as `_ask` does. */
  function WriteSetpoint(slave: nat, raw: nat, response: string): Result<Reading, Failure> {
    if WriteSetpointRequest(slave, raw).None? then Err(RequestNotEncodable) else DecodeReply(slave, response)
  }

  /**
   * `read_temp` fails before any exchange exactly when the read request cannot
   * be built; otherwise its result is the decode of the response. For slaves
   * up to 255 the request is always built.
   */
  lemma {:induction false} ReadTempComposition(slave: nat, response: string)
    ensures ReadTemp(slave, response) == Err(RequestNotEncodable) <==> |SlaveField(slave)| % 2 == 1
    ensures |SlaveField(slave)| % 2 == 0 ==> ReadTemp(slave, response) == DecodeReply(slave, response)
    ensures slave <= 255 ==> ReadTemp(slave, response) == DecodeReply(slave, response)
  {
    ReadTempRequestDefined(slave);
  }

  /** `read_temp` against a count-4 reply returns temperature and setpoint in degrees. */
  lemma {:induction false} ReadTempRoundTrip(slave: nat, t: nat, s: nat, trailer: string)
    requires slave <= 255 && t <= 0xFFFF && s <= 0xFFFF && |trailer| == 4
    ensures ReadTemp(slave, Reply(slave, "04" + ValueField(t) + ValueField(s), trailer))
         == Ok(Reading(t as real / 10.0, Some(s as real / 10.0)))
  {
    ReadTempComposition(slave, Reply(slave, "04" + ValueField(t) + ValueField(s), trailer));
    DecodeFourByteReply(slave, t, s, trailer);
  }

  /**
   * `write_setpoint` fails before any exchange exactly when the write request
   * cannot be built; otherwise its result is the decode of the response.
   */
  lemma {:induction false} WriteSetpointComposition(slave: nat, raw: nat, response: string)
    ensures WriteSetpoint(slave, raw, response) == Err(RequestNotEncodable)
        <==> (|SlaveField(slave)| + |ValueField(raw)|) % 2 == 1
    ensures (|SlaveField(slave)| + |ValueField(raw)|) % 2 == 0 ==>
      WriteSetpoint(slave, raw, response) == DecodeReply(slave, response)
    ensures slave <= 255 && raw <= 0xFFFF ==> WriteSetpoint(slave, raw, response) == DecodeReply(slave, response)
  {
    WriteSetpointRequestDefined(slave, raw);
  }

  /**
   * A controller that echoes the write request makes `write_setpoint` fail:
   * for every slave up to 255 and every 16-bit value the decode of its own
   * request as the response is an error.
   */
  lemma {:induction false} WriteSetpointOwnEcho(slave: nat, raw: nat)
    requires slave <= 255 && raw <= 0xFFFF
    ensures WriteSetpointRequest(slave, raw).Some?
    ensures WriteSetpoint(slave, raw, WriteSetpointRequest(slave, raw).value).Err?
  {
    var body := WriteSetpointBody(slave, raw);
    WriteSetpointRequestDefined(slave, raw);
    LrcCorrect(body);
    var lrc := ComputeLrc(body).value;
    assert WriteSetpointRequest(slave, raw).value == ":" + body + lrc + Terminator;
    WriteEchoNeverDecodes(slave, raw, lrc);
  }
}
