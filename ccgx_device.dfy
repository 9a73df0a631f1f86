/**
 * Talking to a CCGx PD controller through the EC's I2C passthrough: the
 * controller's I2C address and EC port, the register read request, the
 * status check on the reply, and the decoders of the device-mode, silicon
 * ID and firmware-version registers.
 */
module CcgxDevice {
  import opened Common
  import opened EcResult
  import EcCommand
  import I2cPassthrough
  import Ccgx
  import Config

  /** `ControlRegisters`: HPI register addresses. */
  const DEVICE_MODE: u16 := 0
  const SILICON_ID: u16 := 2
  const BOOT_LOADER_VERSION: u16 := 0x10
  const FIRMWARE1_VERSION: u16 := 0x18
  const FIRMWARE2_VERSION: u16 := 0x20

  const EC_CMD_I2C_PASSTHROUGH: u16 := 0x9e
  const I2C_READ_FLAG: u16 := 0x8000
  /** Largest register read the controller supports. */
  const CHUNK_LEN: u16 := 128

  const UNSUPPORTED_PANIC: string := "Unsupported platform"
  const UNWRAP_PANIC: string := "called `Option::unwrap()` on a `None` value"
  const INDEX_PANIC: string := "index out of bounds"
  const ASSERT_PANIC: string := "assertion failed"
  const RESERVED_PANIC: string := "Reserved"

  /** `PdPort::i2c_address`: the controller's SMBus address. */
  function I2cAddress(port: Ccgx.PdPort): (a: u16)
    ensures a == 0x08 <==> port == Ccgx.Left01
    ensures a == 0x40 <==> port == Ccgx.Right23
  {
    match port
    case Left01 => 0x08
    case Right23 => 0x40
  }

  /**
   * `PdPort::i2c_port`: the EC I2C port of the controller, from the
   * configured platform.  No configuration is an unwrap panic, and only
   * the 11th and 12th generation Intel platforms are supported.
   */
  function I2cPort(platform: Option<Config.Platform>, port: Ccgx.PdPort): (r: Outcome<u8>)
    ensures r.Returns? <==> platform == Some(Config.IntelGen11) || platform == Some(Config.IntelGen12)
    ensures r.Returns? ==> (r.value == 7 <==> platform == Some(Config.IntelGen12) && port == Ccgx.Right23)
    ensures r.Returns? ==> r.value == 6 || r.value == 7
  {
    match platform
    case None => Panics(UNWRAP_PANIC)
    case Some(p) =>
      match (p, port)
      case (IntelGen11, _) => Returns(6)
      case (IntelGen12, Left01) => Returns(6)
      case (IntelGen12, Right23) => Returns(7)
      case (_, _) => Panics(UNSUPPORTED_PANIC)
  }

  /** `passthrough_offset`: device `i`'s commands live at `i * 0x4000`, in u16 arithmetic. */
  function PassthroughOffset(devIndex: u16): (r: u16)
    ensures devIndex < 4 ==> r == devIndex * 0x4000
  {
    (devIndex * 0x4000) % 0x1_0000
  }

  /** The command id `send_ec_command` uses: code plus the device offset, in u16 arithmetic. */
  function CommandId(code: u16, devIndex: u16): (r: u16)
    ensures code < 0x4000 && devIndex < 4 ==> r == code + devIndex * 0x4000 && r / 0x4000 == devIndex && r % 0x4000 == code
  {
    (code + PassthroughOffset(devIndex)) % 0x1_0000
  }

  /**
   * The request `i2c_read` assembles: port and 2 messages, a 2-byte write of
   * the register address to the controller, a read of `len` bytes with the
   * read flag, then the register address little-endian.
   */
  function ReadRequest(i2cPort: u8, i2cAddr: u16, addr: u16, len: u16): seq<u8>
  {
    [i2cPort, 2] + I2cPassthrough.Msg(i2cAddr, 2) + I2cPassthrough.Msg((i2cAddr + I2C_READ_FLAG) % 0x1_0000, len)
    + [addr % 0x100, addr / 0x100]
  }

  /** The request's fields, offset by offset. */
  lemma ReadRequestLayout(i2cPort: u8, i2cAddr: u16, addr: u16, len: u16)
    ensures var r := ReadRequest(i2cPort, i2cAddr, addr, len);
      && |r| == 12 && r[0] == i2cPort && r[1] == 2
      && Le16At(r, 2) == i2cAddr && Le16At(r, 4) == 2
      && Le16At(r, 6) == (i2cAddr + I2C_READ_FLAG) % 0x1_0000 && Le16At(r, 8) == len
      && Le16At(r, 10) == addr
  {
    var r := ReadRequest(i2cPort, i2cAddr, addr, len);
    var m1 := I2cPassthrough.Msg(i2cAddr, 2);
    var m2 := I2cPassthrough.Msg((i2cAddr + I2C_READ_FLAG) % 0x1_0000, len);
    assert r[2..6] == m1 && r[6..10] == m2;
    assert Le16At(r, 2) == Le16At(m1, 0) && Le16At(r, 4) == Le16At(m1, 2);
    assert Le16At(r, 6) == Le16At(m2, 0) && Le16At(r, 8) == Le16At(m2, 2);
  }

  /**
   * What `i2c_read` makes of the EC's answer: a failed command is no
   * response; otherwise the status byte and everything after the 2-byte
   * header (a shorter answer cannot be sliced and panics).
   */
  function ReadReply(reply: Result<seq<u8>, EcError>): (r: Outcome<Option<I2cPassthrough.I2cResponse>>)
    ensures reply.Err? ==> r == Returns(None)
    ensures reply.Ok? ==> (r.Returns? <==> |reply.value| >= 2)
    ensures r.Returns? && r.value.Some? ==>
      reply.Ok? && reply.value == [r.value.value.i2cStatus, reply.value[1]] + r.value.value.data
  {
    match reply
    case Err(_) => Returns(None)
    case Ok(data) =>
      if |data| < 2 then Panics(INDEX_PANIC)
      else Returns(Some(I2cPassthrough.I2cResponse(data[0], data[2..])))
  }

  /** `i2c_read` as a function of the transport. */
  function I2cReadOf(send: EcCommand.Transport, platform: Option<Config.Platform>, port: Ccgx.PdPort,
                     addr: u16, len: u16): Outcome<Option<I2cPassthrough.I2cResponse>>
  {
    var i2cPort :- I2cPort(platform, port);
    ReadReply(send(CommandId(EC_CMD_I2C_PASSTHROUGH, 0), 0, ReadRequest(i2cPort, I2cAddress(port), addr, len)))
  }

  /**
   * `PdController::i2c_read`: the request is assembled in a zeroed buffer
   * and sent as the passthrough command of device 0, version 0.
   */
  method I2cRead(send: EcCommand.Transport, platform: Option<Config.Platform>, port: Ccgx.PdPort,
                 addr: u16, len: u16) returns (r: Outcome<Option<I2cPassthrough.I2cResponse>>)
    ensures r == I2cReadOf(send, platform, port, addr, len)
  {
    var i2cAddr := I2cAddress(port);
    var messages := I2cPassthrough.Msg(i2cAddr, 2) + I2cPassthrough.Msg((i2cAddr + I2C_READ_FLAG) % 0x1_0000, len);
    var i2cPort := I2cPort(platform, port);
    if i2cPort.Panics? {
      return Panics(i2cPort.reason);
    }
    var params := [i2cPort.value, 2];
    var addrBytes := [addr % 0x100, addr / 0x100];
    var buffer := new u8[|params| + |messages| + |addrBytes|](_ => 0);
    I2cPassthrough.CopyInto(buffer, 0, params);
    I2cPassthrough.CopyInto(buffer, |params|, messages);
    I2cPassthrough.CopyInto(buffer, |params| + |messages|, addrBytes);
    assert buffer[..] == ReadRequest(i2cPort.value, i2cAddr, addr, len);
    var data := send(CommandId(EC_CMD_I2C_PASSTHROUGH, 0), 0, buffer[..]);
    r := ReadReply(data);
  }

  /**
   * `EcI2cPassthruResponse::is_successful`: bit 0 (not acknowledged) or
   * bit 1 (timeout) make it false; any other non-zero status fails the
   * assertion that the status is 0.
   */
  function IsSuccessful(status: u8): (r: Outcome<bool>)
    ensures r == Returns(true) <==> status == 0
    ensures r == Returns(false) <==> status % 4 != 0
  {
    if status % 2 == 1 then Returns(false)
    else if (status / 2) % 2 == 1 then Returns(false)
    else if status != 0 then Panics(ASSERT_PANIC)
    else Returns(true)
  }

  /** The controller's check agrees with the EC passthrough's own, outcome for outcome. */
  lemma IsSuccessfulAgrees(resp: I2cPassthrough.I2cResponse)
    ensures IsSuccessful(resp.i2cStatus) == Returns(true) <==> I2cPassthrough.IsSuccessful(resp) == Returns(Ok(()))
    ensures IsSuccessful(resp.i2cStatus) == Returns(false) <==>
              I2cPassthrough.IsSuccessful(resp).Returns? && I2cPassthrough.IsSuccessful(resp).value.Err?
    ensures IsSuccessful(resp.i2cStatus).Panics? <==> I2cPassthrough.IsSuccessful(resp).Panics?
  {
    I2cPassthrough.IsSuccessfulCases(resp);
  }

  /**
   * `ccgx_read`: at most 128 bytes (a longer request fails an assertion);
   * no response or an unsuccessful one is `None`, otherwise the data read.
   */
  function CcgxRead(send: EcCommand.Transport, platform: Option<Config.Platform>, port: Ccgx.PdPort,
                    addr: u16, len: u16): (r: Outcome<Option<seq<u8>>>)
    ensures len > CHUNK_LEN ==> r == Panics(ASSERT_PANIC)
    ensures len <= CHUNK_LEN ==>
      var resp := I2cReadOf(send, platform, port, addr, len);
      && (resp.Panics? ==> r == Panics(resp.reason))
      && (resp == Returns(None) ==> r == Returns(None))
      && (resp.Returns? && resp.value.Some? ==>
            var status := resp.value.value.i2cStatus;
            && (status == 0 ==> r == Returns(Some(resp.value.value.data)))
            && (status % 4 != 0 ==> r == Returns(None))
            && (status != 0 && status % 4 == 0 ==> r == Panics(ASSERT_PANIC)))
    ensures r.Returns? && r.value.Some? ==>
      var resp := I2cReadOf(send, platform, port, addr, len);
      && len <= CHUNK_LEN && resp.Returns? && resp.value.Some?
      && resp.value.value.i2cStatus == 0 && r.value.value == resp.value.value.data
  {
    if len > CHUNK_LEN then Panics(ASSERT_PANIC)
    else
      var resp :- I2cReadOf(send, platform, port, addr, Min(CHUNK_LEN, len));
      match resp
      case None => Returns(None)
      case Some(response) =>
        var ok :- IsSuccessful(response.i2cStatus);
        if !ok then Returns(None) else Returns(Some(response.data))
  }

  /**
   * `get_silicon_id`: the little-endian u16 of the first two bytes of
   * register 2; a failed read is `None` and a reply of fewer than two bytes
   * fails the assertion.
   */
  function GetSiliconId(send: EcCommand.Transport, platform: Option<Config.Platform>, port: Ccgx.PdPort): (r: Outcome<Option<u16>>)
    ensures var data := CcgxRead(send, platform, port, SILICON_ID, 2);
      && (data.Panics? ==> r == Panics(data.reason))
      && (data == Returns(None) ==> r == Returns(None))
      && (data.Returns? && data.value.Some? && |data.value.value| < 2 ==> r == Panics(ASSERT_PANIC))
      && (data.Returns? && data.value.Some? && |data.value.value| >= 2 ==>
            r == Returns(Some(Le16At(data.value.value, 0))))
    ensures r.Returns? && r.value.Some? ==>
      var data := CcgxRead(send, platform, port, SILICON_ID, 2);
      data.Returns? && data.value.Some? && |data.value.value| >= 2 && r.value.value == Le16At(data.value.value, 0)
  {
    var read :- CcgxRead(send, platform, port, SILICON_ID, 2);
    match read
    case None => Returns(None)
    case Some(data) =>
      if |data| < 2 then Panics(ASSERT_PANIC)
      else Returns(Some(Le16(data[0], data[1])))
  }

  /** `FwMode`: the firmware the controller is running. */
  datatype FwMode = BootLoader | BackupFw | MainFw

  /**
   * The device-mode byte: bits 0-1 are the running firmware (3 is no
   * answer), bits 4-5 the flash row size (0 = 128, 1 = 256, 3 = 64, and the
   * reserved 2 panics).
   */
  function DeviceInfoOf(mode: u8): (r: Outcome<Option<(FwMode, u16)>>)
    ensures r == Returns(None) <==> mode % 4 == 3
    ensures r.Panics? <==> mode % 4 != 3 && (mode / 16) % 4 == 2
    ensures r.Returns? && r.value.Some? ==> var (fw, rowSize) := r.value.value;
      && (fw == BootLoader <==> mode % 4 == 0) && (fw == BackupFw <==> mode % 4 == 1)
      && (fw == MainFw <==> mode % 4 == 2)
      && rowSize == (if (mode / 16) % 4 == 0 then 128 else if (mode / 16) % 4 == 1 then 256 else 64)
  {
    var fwBits := mode % 4;
    if fwBits == 3 then Returns(None)
    else
      var fwMode := if fwBits == 0 then BootLoader else if fwBits == 1 then BackupFw else MainFw;
      var rowBits := (mode / 16) % 4;
      if rowBits == 2 then Panics(RESERVED_PANIC)
      else Returns(Some((fwMode, if rowBits == 0 then 128 else if rowBits == 1 then 256 else 64)))
  }

  /** The device-mode byte a running firmware and row size are reported as, with HPI v2 (bit 7) set. */
  function DeviceModeByte(fw: FwMode, rowSize: u16): u8
    requires rowSize == 64 || rowSize == 128 || rowSize == 256
  {
    var fwBits := match fw case BootLoader => 0 case BackupFw => 1 case MainFw => 2;
    var rowBits := if rowSize == 128 then 0 else if rowSize == 256 then 1 else 3;
    0x80 + rowBits * 16 + fwBits
  }

  /** Decoding recovers every firmware mode and row size the byte can report. */
  lemma DeviceInfoRoundTrip(fw: FwMode, rowSize: u16)
    requires rowSize == 64 || rowSize == 128 || rowSize == 256
    ensures DeviceInfoOf(DeviceModeByte(fw, rowSize)) == Returns(Some((fw, rowSize)))
  {
  }

  /** `get_device_info`: register 0's first byte, decoded; an empty answer is an index panic. */
  function GetDeviceInfo(send: EcCommand.Transport, platform: Option<Config.Platform>, port: Ccgx.PdPort)
    : (r: Outcome<Option<(FwMode, u16)>>)
    ensures var read := CcgxRead(send, platform, port, DEVICE_MODE, 1);
      (read.Panics? ==> r == Panics(read.reason)) &&
      (read == Returns(None) ==> r == Returns(None)) &&
      (read == Returns(Some([])) ==> r == Panics(INDEX_PANIC)) &&
      (read.Returns? && read.value.Some? && |read.value.value| >= 1 ==> r == DeviceInfoOf(read.value.value[0]))
  {
    var read :- CcgxRead(send, platform, port, DEVICE_MODE, 1);
    match read
    case None => Returns(None)
    case Some(data) => if |data| == 0 then Panics(INDEX_PANIC) else DeviceInfoOf(data[0])
  }

  /**
   * `get_fw_versions`: the 8 bytes of the firmware 1 version register as a
   * base and an application version; fewer bytes panic.
   */
  function GetFwVersions(send: EcCommand.Transport, platform: Option<Config.Platform>, port: Ccgx.PdPort)
    : (r: Outcome<Option<Ccgx.ControllerVersion>>)
    ensures var read := CcgxRead(send, platform, port, FIRMWARE1_VERSION, 8);
      (read.Panics? ==> r == Panics(read.reason)) &&
      (read == Returns(None) ==> r == Returns(None)) &&
      (read.Returns? && read.value.Some? ==>
        (r.Returns? <==> |read.value.value| >= 8) &&
        (r.Returns? ==> r.value == Some(Ccgx.ControllerVersionOf(read.value.value).value)))
  {
    var read :- CcgxRead(send, platform, port, FIRMWARE1_VERSION, 8);
    match read
    case None => Returns(None)
    case Some(data) =>
      var v :- Ccgx.ControllerVersionOf(data);
      Returns(Some(v))
  }

  /**
   * `get_pd_controller_versions` over real controllers: both must answer,
   * the left one is asked first.
   */
  function PdControllerVersions(send: EcCommand.Transport, platform: Option<Config.Platform>)
    : (r: Outcome<Option<Ccgx.PdVersions>>)
    ensures r.Returns? && r.value.Some? ==>
      GetFwVersions(send, platform, Ccgx.Left01) == Returns(Some(r.value.value.controller01)) &&
      GetFwVersions(send, platform, Ccgx.Right23) == Returns(Some(r.value.value.controller23))
  {
    Ccgx.GetPdControllerVersions((p: Ccgx.PdPort) => GetFwVersions(send, platform, p))
  }
}
