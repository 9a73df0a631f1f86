/**
 * The ILI touchscreen controller's HID protocol: which HID collection is
 * the controller, how a command is framed into a 64-byte report, which
 * bytes of the 64-byte answer are the reply, and how the version and
 * protocol replies are rendered.  Both transports (hidapi and the native
 * Windows one) frame commands the same way.
 */
module Touchscreen {
  import opened Common
  import Text

  const ILI_VID: u16 := 0x222A
  const ILI_PID: u16 := 0x5539
  const USI_BITMAP: u8 := 2
  const MPP_BITMAP: u8 := 4
  const VENDOR_USAGE_PAGE: u16 := 0xFF00

  const REPORT_ID: u8 := 0x03
  const REPORT_LEN: nat := 0x40
  /** Room for command data after the five header bytes. */
  const MAX_DATA: nat := REPORT_LEN - 5

  const INDEX_PANIC: string := "index out of bounds"
  const SLICE_PANIC: string := "range end index out of range for slice"
  const UNWRAP_PANIC: string := "called `Result::unwrap()` on an `Err` value"

  // ---------------------------------------------------------------------
  // Device selection

  datatype HidDeviceInfo = HidDeviceInfo(vendorId: u16, productId: u16, usagePage: u16)

  predicate IsController(d: HidDeviceInfo)
  {
    d.vendorId == ILI_VID && d.usagePage == VENDOR_USAGE_PAGE
  }

  /** Index of the first HID collection with ILI's vendor ID on the vendor usage page. */
  function SelectDevice(devices: seq<HidDeviceInfo>): (r: Option<nat>)
    ensures r.None? <==> forall i :: 0 <= i < |devices| ==> !IsController(devices[i])
    ensures r.Some? ==>
      && r.value < |devices| && IsController(devices[r.value])
      && (forall j :: 0 <= j < r.value ==> !IsController(devices[j]))
  {
    if devices == [] then None
    else if IsController(devices[0]) then Some(0)
    else match SelectDevice(devices[1..])
      case None => None
      case Some(i) => Some(i + 1)
  }

  /** A product ID other than 0x5539 only draws a warning: it never changes the choice. */
  lemma {:induction false} ProductIdIgnored(devices: seq<HidDeviceInfo>, other: seq<HidDeviceInfo>)
    requires |other| == |devices|
    requires forall i :: 0 <= i < |devices| ==>
      other[i].vendorId == devices[i].vendorId && other[i].usagePage == devices[i].usagePage
    ensures SelectDevice(other) == SelectDevice(devices)
  {
    if devices != [] {
      ProductIdIgnored(devices[1..], other[1..]);
    }
  }

  /**
   * `HidapiTouchScreen::open_device`: None when hidapi cannot start or no
   * collection matches; the chosen one is opened with `unwrap`, which
   * panics when opening fails.
   */
  function OpenDevice(apiOk: bool, devices: seq<HidDeviceInfo>, opens: nat -> bool): (r: Outcome<Option<nat>>)
    ensures r == Returns(None) <==> !apiOk || SelectDevice(devices).None?
    ensures r.Returns? && r.value.Some? ==> r.value == SelectDevice(devices) && opens(r.value.value)
  {
    if !apiOk then Returns(None)
    else match SelectDevice(devices)
      case None => Returns(None)
      case Some(i) => if opens(i) then Returns(Some(i)) else Panics(UNWRAP_PANIC)
  }

  // ---------------------------------------------------------------------
  // Framing

  /** The outgoing report: ID 03h, A3h, data length, reply length, message ID, data, zeros. */
  function Report(messageId: u8, readLen: nat, data: seq<u8>): (r: seq<u8>)
    requires |data| <= MAX_DATA
    ensures |r| == REPORT_LEN
  {
    [REPORT_ID, 0xA3, |data| % 0x100, readLen % 0x100, messageId] + data + seq(MAX_DATA - |data|, _ => 0)
  }

  /** A device reads the command back out of the report: ID, lengths, message and data. */
  lemma ReportFields(messageId: u8, readLen: nat, data: seq<u8>)
    requires |data| <= MAX_DATA && readLen < 0x100
    ensures var r := Report(messageId, readLen, data);
      && r[0] == REPORT_ID && r[1] == 0xA3 && r[3] == readLen && r[4] == messageId
      && r[2] == |data| && r[5..5 + r[2]] == data
      && forall k :: 5 + |data| <= k < REPORT_LEN ==> r[k] == 0
  {
    var r := Report(messageId, readLen, data);
    assert r[5..5 + |data|] == data;
  }

  /**
   * Filling the zeroed 64-byte `msg` as `send_message` does; `msg[5 + i]`
   * panics once the data reaches past the report.
   */
  method BuildReport(messageId: u8, readLen: nat, data: seq<u8>) returns (msg: array<u8>, overflow: bool)
    ensures fresh(msg) && msg.Length == REPORT_LEN
    ensures overflow <==> |data| > MAX_DATA
    ensures !overflow ==> msg[..] == Report(messageId, readLen, data)
  {
    msg := new u8[REPORT_LEN](_ => 0);
    msg[0] := REPORT_ID;
    msg[1] := 0xA3;
    msg[2] := |data| % 0x100;
    msg[3] := readLen % 0x100;
    msg[4] := messageId;
    var i := 0;
    while i < |data|
      invariant 0 <= i <= |data| && i <= MAX_DATA
      invariant msg[..5] == [REPORT_ID, 0xA3, |data| % 0x100, readLen % 0x100, messageId]
      invariant forall k :: 0 <= k < i ==> msg[5 + k] == data[k]
      invariant forall k :: 5 + i <= k < REPORT_LEN ==> msg[k] == 0
    {
      if 5 + i >= REPORT_LEN {
        return msg, true;
      }
      msg[5 + i] := data[i];
      i := i + 1;
    }
    overflow := false;
    var want := Report(messageId, readLen, data);
    forall k | 0 <= k < REPORT_LEN ensures msg[k] == want[k] {
      if k < 5 {
        assert msg[k] == msg[..5][k];
      }
    }
    assert msg[..] == want;
  }

  /**
   * The reply inside a 64-byte answer: nothing is read for a zero reply
   * length; otherwise `read_len` bytes from offset 3 + data length, which
   * panics when that runs past the buffer.
   */
  function Reply(buf: seq<u8>, dataLen: nat, readLen: nat): (r: Outcome<seq<u8>>)
    requires |buf| == REPORT_LEN
    ensures readLen == 0 ==> r == Returns([])
    ensures readLen > 0 ==> (r.Returns? <==> 3 + dataLen + readLen <= REPORT_LEN)
    ensures r.Returns? ==> |r.value| == readLen
    ensures r.Returns? && readLen > 0 ==> r.value == buf[3 + dataLen..3 + dataLen + readLen]
  {
    if readLen == 0 then Returns([])
    else if 3 + dataLen + readLen > REPORT_LEN then Panics(SLICE_PANIC)
    else Returns(buf[3 + dataLen..3 + dataLen + readLen])
  }

  /** The outcome of `send_message` once the report is built. */
  function Answer(writeOk: bool, buf: seq<u8>, dataLen: nat, readLen: nat): (r: Outcome<Option<seq<u8>>>)
    requires |buf| == REPORT_LEN
    ensures !writeOk ==> r == Returns(None)
    ensures writeOk ==> (r.Returns? <==> Reply(buf, dataLen, readLen).Returns?)
    ensures writeOk && r.Returns? ==> r.value == Some(Reply(buf, dataLen, readLen).value)
  {
    if !writeOk then Returns(None)
    else
      var reply :- Reply(buf, dataLen, readLen);
      Returns(Some(reply))
  }

  /**
   * `HidapiTouchScreen::send_message`: frame the command, send it as a
   * feature report (None if that fails), then take the reply out of the
   * 64 bytes read back.  `writeOk` and `received` are the device's side.
   */
  method SendMessage(messageId: u8, readLen: nat, data: seq<u8>, writeOk: bool, received: seq<u8>)
    returns (sent: array<u8>, r: Outcome<Option<seq<u8>>>)
    requires |received| == REPORT_LEN
    ensures fresh(sent) && sent.Length == REPORT_LEN
    ensures |data| > MAX_DATA ==> r == Panics(INDEX_PANIC)
    ensures |data| <= MAX_DATA ==>
      sent[..] == Report(messageId, readLen, data) && r == Answer(writeOk, received, |data|, readLen)
  {
    var overflow;
    sent, overflow := BuildReport(messageId, readLen, data);
    if overflow {
      return sent, Panics(INDEX_PANIC);
    }
    if !writeOk {
      return sent, Returns(None);
    }
    if readLen == 0 {
      return sent, Returns(Some([]));
    }
    var msgLen := 3 + |data|;
    var buf := new u8[REPORT_LEN](_ => 0);
    forall k | 0 <= k < REPORT_LEN {
      buf[k] := received[k];
    }
    assert buf[..] == received;
    if msgLen + readLen > REPORT_LEN {
      return sent, Panics(SLICE_PANIC);
    }
    r := Returns(Some(buf[msgLen..msgLen + readLen]));
  }

  /** The length passed to `HidD_SetOutputReport`: one byte more than the report. */
  const WIN_OUTPUT_REPORT_LEN: nat := REPORT_LEN + 1

  /**
   * `NativeWinTouchScreen::send_message`: the same framing, sent with a
   * length of 65; neither the send's nor the read's success is checked, so
   * it never gives None.  `buf` starts as the report ID and zeros, and
   * `received` is what `ReadFile` left there (None: it wrote nothing).
   */
  method SendMessageWin(messageId: u8, readLen: nat, data: seq<u8>, received: Option<seq<u8>>)
    returns (sent: array<u8>, sentLen: nat, r: Outcome<Option<seq<u8>>>)
    requires received.Some? ==> |received.value| == REPORT_LEN
    ensures fresh(sent) && sent.Length == REPORT_LEN && sentLen == WIN_OUTPUT_REPORT_LEN
    ensures |data| > MAX_DATA ==> r == Panics(INDEX_PANIC)
    ensures |data| <= MAX_DATA ==>
      sent[..] == Report(messageId, readLen, data) && r == Answer(true, WinBuffer(received), |data|, readLen)
    ensures r.Returns? ==> r.value.Some?
  {
    var overflow;
    sent, overflow := BuildReport(messageId, readLen, data);
    sentLen := sent.Length + 1;
    if overflow {
      return sent, sentLen, Panics(INDEX_PANIC);
    }
    var msgLen := 3 + |data|;
    var buf := new u8[REPORT_LEN](_ => 0);
    buf[0] := REPORT_ID;
    if readLen == 0 {
      return sent, sentLen, Returns(Some([]));
    }
    if received.Some? {
      forall k | 0 <= k < REPORT_LEN {
        buf[k] := received.value[k];
      }
    }
    assert buf[..] == WinBuffer(received);
    if msgLen + readLen > REPORT_LEN {
      return sent, sentLen, Panics(SLICE_PANIC);
    }
    r := Returns(Some(buf[msgLen..msgLen + readLen]));
  }

  /** The Windows read buffer after `ReadFile`. */
  function WinBuffer(received: Option<seq<u8>>): (buf: seq<u8>)
    requires received.Some? ==> |received.value| == REPORT_LEN
    ensures |buf| == REPORT_LEN
  {
    if received.Some? then received.value else [REPORT_ID] + seq(REPORT_LEN - 1, _ => 0)
  }

  /** The report ID in the first byte never shows in a reply, which starts at offset 3 or later. */
  lemma WinReplySkipsReportId(dataLen: nat, readLen: nat)
    requires 0 < readLen && 3 + dataLen + readLen <= REPORT_LEN
    ensures Reply(WinBuffer(None), dataLen, readLen) == Returns(seq(readLen, _ => 0))
  {
    var buf := WinBuffer(None);
    assert forall k :: 1 <= k < REPORT_LEN ==> buf[k] == 0;
    assert buf[3 + dataLen..3 + dataLen + readLen] == seq(readLen, _ => 0);
  }

  // ---------------------------------------------------------------------
  // Versions and protocol bits

  /** One reply byte: `{:02X}` in the protocol version, `{}` in the firmware version. */
  function Field(x: u8, hex: bool): string
  {
    if hex then Text.PadZeros(Text.FormatRadix(x, 16, true), 2) else Text.FormatDec(x)
  }

  /** The fold in `check_fw_version`: the first byte's field, then "." and each further byte's. */
  function Dotted(res: seq<u8>, hex: bool): string
    requires |res| >= 1
  {
    if |res| == 1 then Field(res[0], hex)
    else Dotted(res[..|res| - 1], hex) + "." + Field(res[|res| - 1], hex)
  }

  function Fields(res: seq<u8>, hex: bool): (r: seq<string>)
    ensures |r| == |res| && forall i :: 0 <= i < |res| ==> r[i] == Field(res[i], hex)
  {
    if res == [] then [] else Fields(res[..|res| - 1], hex) + [Field(res[|res| - 1], hex)]
  }

  /** Joining one more piece on the right. */
  lemma {:induction false} JoinSnoc(p: seq<string>, x: string, sep: char)
    requires |p| >= 1
    ensures Text.Join(p + [x], sep) == Text.Join(p, sep) + [sep] + x
  {
    if |p| > 1 {
      assert (p + [x])[1..] == p[1..] + [x];
      JoinSnoc(p[1..], x, sep);
    }
  }

  /** The fold is the bytes' fields joined with '.'. */
  lemma {:induction false} DottedIsJoin(res: seq<u8>, hex: bool)
    requires |res| >= 1
    ensures Dotted(res, hex) == Text.Join(Fields(res, hex), '.')
  {
    if |res| > 1 {
      var init := res[..|res| - 1];
      DottedIsJoin(init, hex);
      assert Fields(res, hex) == Fields(init, hex) + [Field(res[|res| - 1], hex)];
      JoinSnoc(Fields(init, hex), Field(res[|res| - 1], hex), '.');
    }
  }

  /** Each field is a digit string without '.' that reads back as the byte. */
  lemma FieldParses(x: u8, hex: bool)
    ensures '.' !in Field(x, hex)
    ensures Text.ParseUnsigned(Field(x, hex), if hex then 16 else 10, U8_MAX) == Some(x)
  {
    if hex {
      Text.Pow2Add(0);
      Text.Pow2Add(4);
      Text.HexField(x, 2, true);
      Text.ParseFormatHex(x, 2, true, U8_MAX);
    } else {
      Text.FormatRadixValue(x, 10, false);
      Text.DigitsAscii(Text.FormatDec(x), 10);
      Text.ParseFormatDec(x, U8_MAX);
    }
  }

  /**
   * A version string such as "06.00.0A" or "1.2.3.4" splits at '.' into
   * one field per reply byte, each parsing back to that byte.
   */
  lemma DottedRoundTrip(res: seq<u8>, hex: bool)
    requires |res| >= 1
    ensures var pieces := Text.Split(Dotted(res, hex), '.');
      && |pieces| == |res|
      && forall i :: 0 <= i < |res| ==> Text.ParseUnsigned(pieces[i], if hex then 16 else 10, U8_MAX) == Some(res[i])
  {
    var f := Fields(res, hex);
    forall i | 0 <= i < |res| ensures '.' !in f[i] && Text.ParseUnsigned(f[i], if hex then 16 else 10, U8_MAX) == Some(res[i]) {
      FieldParses(res[i], hex);
    }
    DottedIsJoin(res, hex);
    Text.SplitJoin(f, '.');
  }

  datatype FwInfo = FwInfo(protocolVersion: string, firmwareVersion: string, usi: bool, mpp: bool)

  /**
   * `check_fw_version` on the replies to messages 42h (3 bytes), 40h
   * (8 bytes) and 20h (16 bytes): None as soon as one is None; USI and MPP
   * support are bits 1 and 2 of byte 15 of the last.
   */
  function CheckFwVersion(protocol: Option<seq<u8>>, firmware: Option<seq<u8>>, features: Option<seq<u8>>): (r: Option<FwInfo>)
    requires protocol.Some? ==> |protocol.value| == 3
    requires firmware.Some? ==> |firmware.value| == 8
    requires features.Some? ==> |features.value| == 16
    ensures r.Some? <==> protocol.Some? && firmware.Some? && features.Some?
    ensures r.Some? ==>
      && r.value.protocolVersion == Dotted(protocol.value, true)
      && r.value.firmwareVersion == Dotted(firmware.value, false)
      && (r.value.usi <==> Bit(features.value[15], 1))
      && (r.value.mpp <==> Bit(features.value[15], 2))
  {
    if protocol.None? || firmware.None? || features.None? then None
    else
      var flags := features.value[15];
      BitMask(flags);
      Some(FwInfo(Dotted(protocol.value, true), Dotted(firmware.value, false),
        Masked(flags, USI_BITMAP), Masked(flags, MPP_BITMAP)))
  }

  /** `(x & mask) > 0` on bytes. */
  predicate Masked(x: u8, mask: u8)
  {
    (x as bv8 & mask as bv8) != 0
  }

  /** `x & (1 << n) > 0` tests bit n. */
  lemma BitMask(x: u8)
    ensures Masked(x, USI_BITMAP) <==> Bit(x, 1)
    ensures Masked(x, MPP_BITMAP) <==> Bit(x, 2)
  {
    assert Pow2(1) == 2 && Pow2(2) == 4;
    assert (x as bv8 & 2) != 0 <==> x / 2 % 2 == 1 by {
      assert (x as bv8 & 2) == ((x / 2 % 2) * 2) as bv8;
    }
    assert (x as bv8 & 4) != 0 <==> x / 4 % 2 == 1 by {
      assert (x as bv8 & 4) == ((x / 4 % 2) * 4) as bv8;
    }
  }

  /** `enable_touch`: message 38h, no reply, data [!enable, 0]. */
  function EnableTouchCommand(enable: bool): (c: (u8, nat, seq<u8>))
    ensures c.0 == 0x38 && c.1 == 0 && |c.2| == 2 && c.2[1] == 0
    ensures c.2[0] == 0 <==> enable
  {
    (0x38, 0, [if enable then 0 else 1, 0])
  }
}
