/**
 * The smart battery behind the EC's I2C passthrough: register numbers from
 * section 5.1 of the Smart Battery Data Specification 1.1 and the
 * manufacturer-access block, and the framing of the reads and writes
 * `SmartBattery` performs.
 */
module Battery {
  import opened Common
  import opened EcResult
  import EcCommand
  import I2cPassthrough
  import Utf8
  import Text

  /** `SmartBatReg`: standard smart-battery registers. */
  datatype SmartBatReg =
    | Mode | Temp | Voltage | ManufactureDate | SerialNum | CycleCount
    | ManufacturerName | DeviceName | Soh
    | CellVoltage1 | CellVoltage2 | CellVoltage3 | CellVoltage4

  function SmartBatRegAddr(reg: SmartBatReg): u16
  {
    match reg
    case Mode => 0x03
    case Temp => 0x08
    case Voltage => 0x09
    case ManufactureDate => 0x1B
    case SerialNum => 0x1C
    case CycleCount => 0x17
    case ManufacturerName => 0x20
    case DeviceName => 0x21
    case Soh => 0x4F
    case CellVoltage1 => 0x3C
    case CellVoltage2 => 0x3D
    case CellVoltage3 => 0x3E
    case CellVoltage4 => 0x3F
  }

  /** `ManufReg`: registers of the manufacturer-access block, readable once unsealed. */
  datatype ManufReg =
    | SafetyAlert | SafetyStatus | PFAlert
    | LifeTimeDataBlock1 | LifeTimeDataBlock2 | LifeTimeDataBlock3 | LifeTimeDataBlock4 | LifeTimeDataBlock5
    | ManufSoh

  function ManufRegAddr(reg: ManufReg): u16
  {
    match reg
    case SafetyAlert => 0x50
    case SafetyStatus => 0x51
    case PFAlert => 0x52
    case LifeTimeDataBlock1 => 0x60
    case LifeTimeDataBlock2 => 0x61
    case LifeTimeDataBlock3 => 0x62
    case LifeTimeDataBlock4 => 0x63
    case LifeTimeDataBlock5 => 0x64
    case ManufSoh => 0x77
  }

  /** Every register has its own number, in either set. */
  lemma RegistersDistinct(a: SmartBatReg, b: SmartBatReg, m: ManufReg, n: ManufReg)
    ensures SmartBatRegAddr(a) == SmartBatRegAddr(b) <==> a == b
    ensures ManufRegAddr(m) == ManufRegAddr(n) <==> m == n
    ensures SmartBatRegAddr(a) != ManufRegAddr(m)
  {
  }

  /** `SmartBattery`: the EC's I2C port and the battery's 8-bit address. */
  datatype SmartBattery = SmartBattery(i2cPort: u8, i2cAddr: u16)

  /** `SmartBattery::new`: port 3 on every Nuvoton EC, 8-bit address 0x16. */
  function NewBattery(): (b: SmartBattery)
    ensures b.i2cPort == 3 && BusAddress(b) == 0x0B
  {
    SmartBattery(3, 0x16)
  }

  /** Transfers use the 7-bit address, `i2c_addr >> 1`. */
  function BusAddress(b: SmartBattery): (r: u16)
    ensures 2 * r == b.i2cAddr || 2 * r + 1 == b.i2cAddr
  {
    b.i2cAddr / 2
  }

  const INDEX_PANIC: string := "index out of bounds"

  /**
   * The first two steps of every read: a transport error and an
   * unsuccessful transfer are returned as errors (`?`), and what remains
   * is the data the battery sent.
   */
  function SuccessfulData(read: Outcome<Result<I2cPassthrough.I2cResponse, EcError>>)
    : (r: Outcome<Result<seq<u8>, EcError>>)
    ensures (r.Returns? && r.value.Ok?) <==> (read.Returns? && read.value.Ok? && read.value.value.i2cStatus == 0)
    ensures r.Returns? && r.value.Ok? ==> r.value.value == read.value.value.data
    ensures read.Panics? ==> r.Panics?
    ensures read.Returns? && read.value.Err? ==> r == Returns(Err(read.value.error))
  {
    var response :- read;
    if response.Err? then Returns(Err(response.error))
    else
      I2cPassthrough.IsSuccessfulCases(response.value);
      var status :- I2cPassthrough.IsSuccessful(response.value);
      if status.Err? then Returns(Err(status.error)) else Returns(Ok(response.value.data))
  }

  /**
   * `read_bytes`: reads `len + 1` bytes (u16 addition, which a release
   * build wraps), checks the transfer and drops the leading byte, the
   * block's byte count.  An empty reply panics on the slice.
   */
  function ReadBytes(b: SmartBattery, send: EcCommand.Transport, addr: u16, len: u16)
    : (r: Outcome<Result<seq<u8>, EcError>>)
    ensures var data := SuccessfulData(I2cPassthrough.I2cReadOf(send, b.i2cPort, BusAddress(b), addr, (len + 1) % 0x1_0000));
      (r.Returns? && r.value.Ok?) <==> (data.Returns? && data.value.Ok? && |data.value.value| >= 1)
    ensures var data := SuccessfulData(I2cPassthrough.I2cReadOf(send, b.i2cPort, BusAddress(b), addr, (len + 1) % 0x1_0000));
      r.Returns? && r.value.Ok? ==> data.value.value == [data.value.value[0]] + r.value.value
  {
    var data :- SuccessfulData(I2cPassthrough.I2cReadOf(send, b.i2cPort, BusAddress(b), addr, (len + 1) % 0x1_0000));
    if data.Err? then Returns(Err(data.error))
    else if |data.value| == 0 then Panics(INDEX_PANIC)
    else Returns(Ok(data.value[1..]))
  }

  /**
   * `read_i16`: reads 2 bytes, checks the transfer and returns their
   * little-endian value; a reply with fewer than 2 data bytes panics.
   */
  function ReadI16(b: SmartBattery, send: EcCommand.Transport, addr: u16)
    : (r: Outcome<Result<u16, EcError>>)
    ensures var data := SuccessfulData(I2cPassthrough.I2cReadOf(send, b.i2cPort, BusAddress(b), addr, 2));
      (r.Returns? && r.value.Ok?) <==> (data.Returns? && data.value.Ok? && |data.value.value| >= 2)
    ensures var data := SuccessfulData(I2cPassthrough.I2cReadOf(send, b.i2cPort, BusAddress(b), addr, 2));
      r.Returns? && r.value.Ok? ==> Le16Bytes(r.value.value) == data.value.value[..2]
  {
    var data :- SuccessfulData(I2cPassthrough.I2cReadOf(send, b.i2cPort, BusAddress(b), addr, 2));
    if data.Err? then Returns(Err(data.error))
    else if |data.value| < 2 then Panics(INDEX_PANIC)
    else
      Le16BytesOfLe16At(data.value, 0);
      Returns(Ok(Le16At(data.value, 0)))
  }

  /** The fixed length `read_string` asks for. */
  const STRING_READ_LEN: u16 := 32

  /**
   * `read_string`: reads 32 bytes, checks the status, takes the first byte
   * as the string's length L and decodes bytes 1..=L lossily as UTF-8.
   * A reply with no byte, or with fewer than L + 1, panics on the slice.
   */
  function ReadString(b: SmartBattery, send: EcCommand.Transport, addr: u16)
    : (r: Outcome<Result<string, EcError>>)
    ensures var data := SuccessfulData(I2cPassthrough.I2cReadOf(send, b.i2cPort, BusAddress(b), addr, STRING_READ_LEN));
      (r.Returns? && r.value.Ok?) <==>
        (data.Returns? && data.value.Ok? && |data.value.value| >= 1 && data.value.value[0] as nat < |data.value.value|)
    ensures var data := SuccessfulData(I2cPassthrough.I2cReadOf(send, b.i2cPort, BusAddress(b), addr, STRING_READ_LEN));
      r.Returns? && r.value.Ok? ==>
        r.value.value == Utf8.Lossy(data.value.value[1..data.value.value[0] as nat + 1])
  {
    var data :- SuccessfulData(I2cPassthrough.I2cReadOf(send, b.i2cPort, BusAddress(b), addr, STRING_READ_LEN));
    if data.Err? then Returns(Err(data.error))
    else if |data.value| == 0 || data.value[0] as nat >= |data.value| then Panics(INDEX_PANIC)
    else Returns(Ok(Utf8.Lossy(data.value[1..data.value[0] as nat + 1])))
  }

  /**
   * Asking for 128 bytes or more is refused before anything is sent (the
   * request counts the extra byte); only 0xFFFF, whose `len + 1` wraps to
   * 0, gets past the check.
   */
  lemma ReadBytesTooLong(b: SmartBattery, send: EcCommand.Transport, addr: u16, len: u16)
    requires I2cPassthrough.MAX_I2C_CHUNK <= len < 0xFFFF
    ensures ReadBytes(b, send, addr, len) ==
      Returns(Err(DeviceError(I2cPassthrough.TOO_LONG + Text.FormatDec(len + 1))))
  {
    var n: u16 := len + 1;
    assert (len + 1) % 0x1_0000 == n;
    var read := I2cPassthrough.I2cReadOf(send, b.i2cPort, BusAddress(b), addr, n);
    assert read == Returns(Err(DeviceError(I2cPassthrough.TOO_LONG + Text.FormatDec(n))));
  }

  /** A successful block read returns the block without its count byte. */
  lemma ReadBytesOfBlock(b: SmartBattery, send: EcCommand.Transport, addr: u16, len: u16, count: u8, block: seq<u8>)
    requires I2cPassthrough.I2cReadOf(send, b.i2cPort, BusAddress(b), addr, (len + 1) % 0x1_0000)
             == Returns(Ok(I2cPassthrough.I2cResponse(0, [count] + block)))
    ensures ReadBytes(b, send, addr, len) == Returns(Ok(block))
  {
    assert ([count] + block)[1..] == block;
  }

  /** A successful word read returns the value whose little-endian bytes the battery sent. */
  lemma ReadI16OfWord(b: SmartBattery, send: EcCommand.Transport, addr: u16, value: u16, rest: seq<u8>)
    requires I2cPassthrough.I2cReadOf(send, b.i2cPort, BusAddress(b), addr, 2)
             == Returns(Ok(I2cPassthrough.I2cResponse(0, Le16Bytes(value) + rest)))
    ensures ReadI16(b, send, addr) == Returns(Ok(value))
  {
    var r := ReadI16(b, send, addr);
    assert Le16Bytes(r.value.value) == Le16Bytes(value);
    assert Le16At(Le16Bytes(r.value.value), 0) == Le16At(Le16Bytes(value), 0);
  }

  /**
   * A string the battery sends as its UTF-8 length, its UTF-8 bytes and any
   * padding is read back unchanged.
   */
  lemma ReadStringOfText(b: SmartBattery, send: EcCommand.Transport, addr: u16, text: string, pad: seq<u8>)
    requires |Utf8.Encode(text)| < 0x100
    requires I2cPassthrough.I2cReadOf(send, b.i2cPort, BusAddress(b), addr, STRING_READ_LEN)
             == Returns(Ok(I2cPassthrough.I2cResponse(0, [|Utf8.Encode(text)|] + Utf8.Encode(text) + pad)))
    ensures ReadString(b, send, addr) == Returns(Ok(text))
  {
    var bytes := Utf8.Encode(text);
    var data := [|bytes|] + bytes + pad;
    assert data[1..data[0] as nat + 1] == bytes;
    Utf8.LossyEncode(text);
  }

  /** A length byte past the end of the reply panics rather than returning an error. */
  lemma ReadStringOverlong(b: SmartBattery, send: EcCommand.Transport, addr: u16, data: seq<u8>)
    requires |data| >= 1 && data[0] as nat >= |data|
    requires I2cPassthrough.I2cReadOf(send, b.i2cPort, BusAddress(b), addr, STRING_READ_LEN)
             == Returns(Ok(I2cPassthrough.I2cResponse(0, data)))
    ensures ReadString(b, send, addr).Panics?
  {
  }

  /** `i2c_write_block` is not part of this model: it is a parameter. */
  type BlockWriter = (u8, u16, u16, seq<u8>) -> Outcome<Result<(), EcError>>

  /**
   * `unseal`: writes `key1` and then `key2`, little-endian, to register 0
   * of the battery; the second write happens only if the first succeeded.
   */
  function Unseal(b: SmartBattery, writeBlock: BlockWriter, key1: u16, key2: u16)
    : (r: Outcome<Result<(), EcError>>)
    ensures var first := writeBlock(b.i2cPort, BusAddress(b), 0, Le16Bytes(key1));
      var second := writeBlock(b.i2cPort, BusAddress(b), 0, Le16Bytes(key2));
      (r.Returns? && r.value.Ok? <==> first.Returns? && first.value.Ok? && second.Returns? && second.value.Ok?) &&
      (!(first.Returns? && first.value.Ok?) ==> r == first)
  {
    match writeBlock(b.i2cPort, BusAddress(b), 0, Le16Bytes(key1))
    case Panics(why) => Panics(why)
    case Returns(Err(e)) => Returns(Err(e))
    case Returns(Ok(_)) => writeBlock(b.i2cPort, BusAddress(b), 0, Le16Bytes(key2))
  }

  /** The command `seal` writes: 0x0030, little-endian, to register 0. */
  const SEAL_COMMAND: seq<u8> := [0x30, 0x00]

  /**
   * `seal`: writes the seal command to register 0; only a transport error
   * fails it, since the transfer's status is not looked at.
   */
  function Seal(b: SmartBattery, send: EcCommand.Transport): (r: Outcome<Result<(), EcError>>)
    ensures var w := I2cPassthrough.I2cWriteOf(send, b.i2cPort, BusAddress(b), 0, SEAL_COMMAND);
      (r == Returns(Ok(())) <==> w.Returns? && w.value.Ok?) &&
      (w.Returns? && w.value.Err? ==> r == Returns(Err(w.value.error)))
  {
    var written :- I2cPassthrough.I2cWriteOf(send, b.i2cPort, BusAddress(b), 0, SEAL_COMMAND);
    if written.Err? then Returns(Err(written.error)) else Returns(Ok(()))
  }

  /**
   * What `seal` sends on the new battery: one 4-byte write (the 16-bit
   * register number, then 0x0030 little-endian) to address 0x0B on port 3.
   */
  lemma SealRequest()
    ensures I2cPassthrough.WriteRequest(3, 0x0B, 0, SEAL_COMMAND) == [3, 1, 0x0B, 0, 4, 0, 0, 0, 0x30, 0]
  {
    assert I2cPassthrough.Msg(0x0B, 4) == [0x0B, 0, 4, 0];
  }

  /** `seal` reports success whatever status the battery answers with. */
  lemma SealIgnoresStatus(send: EcCommand.Transport, status: u8, ignored: u8)
    requires send(EcCommand.Id(EcCommand.I2cPassthrough), 0,
                  I2cPassthrough.WriteRequest(3, 0x0B, 0, SEAL_COMMAND)) == Ok([status, ignored])
    ensures Seal(NewBattery(), send) == Returns(Ok(()))
  {
    var w := I2cPassthrough.I2cWriteOf(send, 3, 0x0B, 0, SEAL_COMMAND);
    assert w == Returns(Ok(I2cPassthrough.I2cResponse(status, [])));
  }
}
