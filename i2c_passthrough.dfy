/**
 * I2C passthrough over the EC: the request layout of `i2c_read` and
 * `i2c_write` (a 2-byte header, 4-byte message descriptors, then the
 * register address and any data) and the status check on the reply.
 */
module I2cPassthrough {
  import opened Common
  import opened EcResult
  import EcCommand
  import Text

  /** Largest transfer the chip supports in one transaction. */
  const MAX_I2C_CHUNK: nat := 128
  /** Set in a message's address to mark it as a read. */
  const I2C_READ_FLAG: u16 := 0x8000
  /** `size_of::<EcParamsI2cPassthru>()`: port and message count. */
  const PARAMS_LEN: nat := 2
  /** `size_of::<EcParamsI2cPassthruMsg>()`: address-and-flags and length, both u16. */
  const MSG_LEN: nat := 4
  /** `size_of::<_EcI2cPassthruResponse>()`: status and message count. */
  const RESPONSE_HEADER_LEN: nat := 2

  /** `EcI2cPassthruResponse`: the I2C status byte and the bytes read. */
  datatype I2cResponse = I2cResponse(i2cStatus: u8, data: seq<u8>)

  /** Bit 0 of the status: the transfer was not acknowledged. */
  predicate NotAcknowledged(status: u8)
  {
    (status as bv8) & 1 != 0
  }

  /** Bit 1 of the status: the transfer timed out. */
  predicate TimedOut(status: u8)
  {
    (status as bv8) & 2 != 0
  }

  const STATUS_PANIC: string := "assertion failed: i2c_status == 0"

  /**
   * `is_successful`: bit 0 and then bit 1 are reported as errors; any other
   * non-zero status fails the assertion that it is 0.
   */
  function IsSuccessful(r: I2cResponse): (o: Outcome<Result<(), EcError>>)
  {
    if NotAcknowledged(r.i2cStatus) then Returns(Err(DeviceError("I2C Transfer not acknowledged")))
    else if TimedOut(r.i2cStatus) then Returns(Err(DeviceError("I2C Transfer timeout")))
    else if r.i2cStatus != 0 then Panics(STATUS_PANIC)
    else Returns(Ok(()))
  }

  /**
   * A transfer succeeds exactly when the status is 0, is an error exactly
   * when bit 0 or bit 1 is set, and panics on any other status.
   */
  lemma IsSuccessfulCases(r: I2cResponse)
    ensures IsSuccessful(r) == Returns(Ok(())) <==> r.i2cStatus == 0
    ensures IsSuccessful(r).Returns? && IsSuccessful(r).value.Err? <==> r.i2cStatus % 4 != 0
    ensures IsSuccessful(r).Panics? <==> r.i2cStatus % 4 == 0 && r.i2cStatus != 0
  {
    assert NotAcknowledged(r.i2cStatus) <==> r.i2cStatus % 2 == 1;
    assert TimedOut(r.i2cStatus) <==> (r.i2cStatus / 2) % 2 == 1;
  }

  /** The register address: one byte below 0xFF, otherwise both bytes little-endian. */
  function AddrBytes(addr: u16): (r: seq<u8>)
    ensures |r| == 1 <==> addr < 0xFF
    ensures |r| == 1 || |r| == 2
    ensures if |r| == 1 then r[0] == addr else Le16At(r, 0) == addr
  {
    if addr < 0xFF then [addr] else Le16Bytes(addr)
  }

  /** `EcParamsI2cPassthruMsg`, packed. */
  function Msg(addrAndFlags: u16, transferLen: u16): (r: seq<u8>)
    ensures |r| == MSG_LEN && Le16At(r, 0) == addrAndFlags && Le16At(r, 2) == transferLen
  {
    Le16Bytes(addrAndFlags) + Le16Bytes(transferLen)
  }

  /**
   * The read request: port and 2 messages, a write of the address bytes to
   * `i2c_addr`, a read of `len` bytes from `i2c_addr` with the read flag
   * (u16 addition, so it wraps for addresses at or above 0x8000), then the
   * address bytes.
   */
  function ReadRequest(port: u8, i2cAddr: u16, addr: u16, len: u16): seq<u8>
  {
    [port, 2] + Msg(i2cAddr, |AddrBytes(addr)|) + Msg((i2cAddr + I2C_READ_FLAG) % 0x1_0000, len) + AddrBytes(addr)
  }

  /** The read request's fields, offset by offset. */
  lemma ReadRequestLayout(port: u8, i2cAddr: u16, addr: u16, len: u16)
    ensures var r := ReadRequest(port, i2cAddr, addr, len);
      && |r| == PARAMS_LEN + 2 * MSG_LEN + |AddrBytes(addr)|
      && r[0] == port && r[1] == 2
      && Le16At(r, 2) == i2cAddr && Le16At(r, 4) == |AddrBytes(addr)|
      && Le16At(r, 6) == (i2cAddr + I2C_READ_FLAG) % 0x1_0000 && Le16At(r, 8) == len
      && r[10..] == AddrBytes(addr)
  {
    var r := ReadRequest(port, i2cAddr, addr, len);
    var m1 := Msg(i2cAddr, |AddrBytes(addr)|);
    var m2 := Msg((i2cAddr + I2C_READ_FLAG) % 0x1_0000, len);
    assert r[2..6] == m1 && r[6..10] == m2;
    assert Le16At(r, 2) == Le16At(m1, 0) && Le16At(r, 4) == Le16At(m1, 2);
    assert Le16At(r, 6) == Le16At(m2, 0) && Le16At(r, 8) == Le16At(m2, 2);
  }

  /**
   * The write request: port and 1 message of `2 + |data|` bytes (truncated
   * to u16) to `i2c_addr`, the address as two little-endian bytes, then the
   * data.
   */
  function WriteRequest(port: u8, i2cAddr: u16, addr: u16, data: seq<u8>): seq<u8>
  {
    [port, 1] + Msg(i2cAddr, (2 + |data|) % 0x1_0000) + Le16Bytes(addr) + data
  }

  lemma WriteRequestLayout(port: u8, i2cAddr: u16, addr: u16, data: seq<u8>)
    ensures var r := WriteRequest(port, i2cAddr, addr, data);
      && |r| == PARAMS_LEN + MSG_LEN + 2 + |data|
      && r[0] == port && r[1] == 1
      && Le16At(r, 2) == i2cAddr && Le16At(r, 4) == (2 + |data|) % 0x1_0000
      && Le16At(r, 6) == addr && r[8..] == data
  {
    var r := WriteRequest(port, i2cAddr, addr, data);
    var m := Msg(i2cAddr, (2 + |data|) % 0x1_0000);
    assert r[2..6] == m && r[6..8] == Le16Bytes(addr);
    assert Le16At(r, 2) == Le16At(m, 0) && Le16At(r, 4) == Le16At(m, 2);
    assert Le16At(r, 6) == Le16At(Le16Bytes(addr), 0);
  }

  /** `buffer[at..at + |src|].copy_from_slice(src)`. */
  method CopyInto(buffer: array<u8>, at: nat, src: seq<u8>)
    requires at + |src| <= buffer.Length
    modifies buffer
    ensures buffer[..] == old(buffer[..])[..at] + src + old(buffer[..])[at + |src|..]
  {
    forall i | at <= i < at + |src| {
      buffer[i] := src[i - at];
    }
  }

  /**
   * The reply to a passthrough command: its header is read as the response
   * struct, which needs at least its 2 bytes.
   */
  const SHORT_REPLY_PANIC: string := "reply shorter than its header"

  const TOO_LONG: string := "i2c_read too long. Must be <128, is: "

  /** What `i2c_read` returns, as a function of the transport. */
  function I2cReadOf(send: EcCommand.Transport, port: u8, i2cAddr: u16, addr: u16, len: u16)
    : (r: Outcome<Result<I2cResponse, EcError>>)
    ensures len > MAX_I2C_CHUNK ==> r == Returns(Err(DeviceError(TOO_LONG + Text.FormatDec(len))))
  {
    if len > MAX_I2C_CHUNK then Returns(Err(DeviceError(TOO_LONG + Text.FormatDec(len))))
    else ReadReply(send(EcCommand.Id(EcCommand.I2cPassthrough), 0, ReadRequest(port, i2cAddr, addr, len)))
  }

  /** What `i2c_write` returns, as a function of the transport. */
  function I2cWriteOf(send: EcCommand.Transport, port: u8, i2cAddr: u16, addr: u16, data: seq<u8>)
    : Outcome<Result<I2cResponse, EcError>>
  {
    WriteReply(send(EcCommand.Id(EcCommand.I2cPassthrough), 0, WriteRequest(port, i2cAddr, addr, data)))
  }

  /**
   * `i2c_read`: an over-long read is refused before anything is sent;
   * otherwise the request is assembled in a zeroed buffer and sent as
   * command `I2cPassthrough` version 0, and the reply's status and the data
   * after its 2-byte header are returned.
   */
  method I2cRead(send: EcCommand.Transport, port: u8, i2cAddr: u16, addr: u16, len: u16)
    returns (r: Outcome<Result<I2cResponse, EcError>>, ghost sent: Option<seq<u8>>)
    ensures sent.None? <==> len > MAX_I2C_CHUNK
    ensures sent.None? ==> r == Returns(Err(DeviceError(TOO_LONG + Text.FormatDec(len))))
    ensures sent.Some? ==> sent.value == ReadRequest(port, i2cAddr, addr, len)
    ensures sent.Some? ==> r == ReadReply(send(EcCommand.Id(EcCommand.I2cPassthrough), 0, sent.value))
    ensures r == I2cReadOf(send, port, i2cAddr, addr, len)
  {
    if len > MAX_I2C_CHUNK {
      return Returns(Err(DeviceError(TOO_LONG + Text.FormatDec(len)))), None;
    }
    var addrBytes := AddrBytes(addr);
    var msgs := Msg(i2cAddr, |addrBytes|) + Msg((i2cAddr + I2C_READ_FLAG) % 0x1_0000, len);
    var params := [port, 2];
    var buffer := new u8[PARAMS_LEN + |msgs| + |addrBytes|](_ => 0);
    CopyInto(buffer, 0, params);
    CopyInto(buffer, PARAMS_LEN, msgs);
    CopyInto(buffer, PARAMS_LEN + |msgs|, addrBytes);
    assert buffer[..] == params + msgs + addrBytes;
    sent := Some(buffer[..]);
    var data := send(EcCommand.Id(EcCommand.I2cPassthrough), 0, buffer[..]);
    r := ReadReply(data);
  }

  /** What `i2c_read` makes of the transport's answer. */
  function ReadReply(data: Result<seq<u8>, EcError>): (r: Outcome<Result<I2cResponse, EcError>>)
    ensures data.Err? ==> r == Returns(Err(data.error))
    ensures data.Ok? && |data.value| >= RESPONSE_HEADER_LEN ==>
      r == Returns(Ok(I2cResponse(data.value[0], data.value[RESPONSE_HEADER_LEN..])))
    ensures r.Returns? && r.value.Ok? ==>
      data.Ok? && |data.value| >= RESPONSE_HEADER_LEN &&
      data.value == [r.value.value.i2cStatus, data.value[1]] + r.value.value.data
  {
    match data
    case Err(e) => Returns(Err(e))
    case Ok(bytes) =>
      if |bytes| < RESPONSE_HEADER_LEN then Panics(SHORT_REPLY_PANIC)
      else Returns(Ok(I2cResponse(bytes[0], bytes[RESPONSE_HEADER_LEN..])))
  }

  /**
   * `i2c_write`: the request is assembled in a zeroed buffer and sent as
   * command `I2cPassthrough` version 0; the reply's status is returned with
   * no data.
   */
  method I2cWrite(send: EcCommand.Transport, port: u8, i2cAddr: u16, addr: u16, data: seq<u8>)
    returns (r: Outcome<Result<I2cResponse, EcError>>, ghost sent: seq<u8>)
    ensures sent == WriteRequest(port, i2cAddr, addr, data)
    ensures r == WriteReply(send(EcCommand.Id(EcCommand.I2cPassthrough), 0, sent))
    ensures r == I2cWriteOf(send, port, i2cAddr, addr, data)
  {
    var addrBytes := [addr % 0x100, addr / 0x100];
    var msgs := Msg(i2cAddr, (|addrBytes| + |data|) % 0x1_0000);
    var params := [port, 1];
    var buffer := new u8[PARAMS_LEN + |msgs| + |addrBytes| + |data|](_ => 0);
    CopyInto(buffer, 0, params);
    CopyInto(buffer, PARAMS_LEN, msgs);
    CopyInto(buffer, PARAMS_LEN + |msgs|, addrBytes);
    CopyInto(buffer, PARAMS_LEN + |msgs| + |addrBytes|, data);
    assert buffer[..] == params + msgs + addrBytes + data;
    sent := buffer[..];
    var reply := send(EcCommand.Id(EcCommand.I2cPassthrough), 0, buffer[..]);
    r := WriteReply(reply);
  }

  /** What `i2c_write` makes of the transport's answer: the status only. */
  function WriteReply(reply: Result<seq<u8>, EcError>): (r: Outcome<Result<I2cResponse, EcError>>)
    ensures reply.Err? ==> r == Returns(Err(reply.error))
    ensures r.Returns? && r.value.Ok? ==>
      r.value.value.data == [] && reply.Ok? && |reply.value| >= RESPONSE_HEADER_LEN &&
      reply.value[0] == r.value.value.i2cStatus
    ensures reply.Ok? && |reply.value| >= RESPONSE_HEADER_LEN ==> r.Returns? && r.value.Ok?
  {
    match reply
    case Err(e) => Returns(Err(e))
    case Ok(bytes) =>
      if |bytes| < RESPONSE_HEADER_LEN then Panics(SHORT_REPLY_PANIC)
      else Returns(Ok(I2cResponse(bytes[0], [])))
  }
}
