/**
 * Firmware detection for the SSD expansion card: decoding the Windows
 * storage bus type, the two DeviceIoControl codes, the strings of a
 * STORAGE_DEVICE_DESCRIPTOR and of ATA IDENTIFY DEVICE data, and the
 * ATA PASS-THROUGH (12) command block that asks for that data.
 */
module SsdExpansionCard {
  import opened Common
  import Text
  import Utf8

  /** `STORAGE_BUS_TYPE`, discriminants 0..19 in declaration order. */
  datatype StorageBusType =
    | Unknown | Scsi | Atapi | Ata | Ieee1394 | Ssa | Fibre | Usb | Raid | IScsi
    | Sas | Sata | Sd | Mmc | Virtual | FileBackedVirtual | Spaces | Nvme | Scm | Ufs

  /** `StorageBusType::from(u32)`: 0..19 in order, anything else Unknown. */
  function StorageBusTypeFrom(value: u32): (r: StorageBusType)
    ensures value > 19 ==> r == Unknown
  {
    match value
    case 0 => Unknown
    case 1 => Scsi
    case 2 => Atapi
    case 3 => Ata
    case 4 => Ieee1394
    case 5 => Ssa
    case 6 => Fibre
    case 7 => Usb
    case 8 => Raid
    case 9 => IScsi
    case 10 => Sas
    case 11 => Sata
    case 12 => Sd
    case 13 => Mmc
    case 14 => Virtual
    case 15 => FileBackedVirtual
    case 16 => Spaces
    case 17 => Nvme
    case 18 => Scm
    case 19 => Ufs
    case _ => Unknown
  }

  /** The `#[repr(u32)]` discriminant of a bus type. */
  function BusTypeValue(t: StorageBusType): (v: u32)
    ensures v <= 19
  {
    match t
    case Unknown => 0
    case Scsi => 1
    case Atapi => 2
    case Ata => 3
    case Ieee1394 => 4
    case Ssa => 5
    case Fibre => 6
    case Usb => 7
    case Raid => 8
    case IScsi => 9
    case Sas => 10
    case Sata => 11
    case Sd => 12
    case Mmc => 13
    case Virtual => 14
    case FileBackedVirtual => 15
    case Spaces => 16
    case Nvme => 17
    case Scm => 18
    case Ufs => 19
  }

  /** `from` inverts the discriminant, and on 0..19 the discriminant inverts `from`. */
  lemma StorageBusTypeRoundTrip(t: StorageBusType, value: u32)
    ensures StorageBusTypeFrom(BusTypeValue(t)) == t
    ensures value <= 19 ==> BusTypeValue(StorageBusTypeFrom(value)) == value
  {
  }

  // ---------------------------------------------------------------------
  // DeviceIoControl codes

  /** The Windows `CTL_CODE(DeviceType, Function, Method, Access)` macro, with its four fields side by side. */
  function CtlCode(deviceType: nat, function_: nat, method_: nat, access: nat): (code: nat)
    requires function_ < 0x1000 && method_ < 4 && access < 4
  {
    deviceType * 0x1_0000 + access * 0x4000 + function_ * 4 + method_
  }

  /** The four fields can be read back from a control code. */
  lemma CtlCodeFields(deviceType: nat, function_: nat, method_: nat, access: nat)
    requires function_ < 0x1000 && method_ < 4 && access < 4
    ensures var code := CtlCode(deviceType, function_, method_, access);
      && code / 0x1_0000 == deviceType
      && code / 0x4000 % 4 == access
      && code / 4 % 0x1000 == function_
      && code % 4 == method_
  {
    var code := CtlCode(deviceType, function_, method_, access);
    var low := access * 0x4000 + function_ * 4 + method_;
    assert code == deviceType * 0x1_0000 + low && low < 0x1_0000;
    assert code / 0x4000 == deviceType * 4 + access;
    assert code / 4 == deviceType * 0x4000 + access * 0x1000 + function_;
  }

  const METHOD_BUFFERED: nat := 0
  const FILE_ANY_ACCESS: nat := 0
  const FILE_READ_WRITE_ACCESS: nat := 3
  const IOCTL_STORAGE_BASE: nat := 0x2D
  const IOCTL_SCSI_BASE: nat := 0x04

  /** The two codes as the source writes them, with shifts and ors. */
  const IOCTL_STORAGE_QUERY_PROPERTY: u32 := ((0x2D as bv32 << 16) | (0x0500 as bv32 << 2)) as int
  const IOCTL_SCSI_PASS_THROUGH: u32 := ((0x04 as bv32 << 16) | (0x03 as bv32 << 14) | (0x0401 as bv32 << 2)) as int

  /** Both codes are the `CTL_CODE` values their comments name. */
  lemma IoctlCodes()
    ensures IOCTL_STORAGE_QUERY_PROPERTY == CtlCode(IOCTL_STORAGE_BASE, 0x0500, METHOD_BUFFERED, FILE_ANY_ACCESS)
    ensures IOCTL_SCSI_PASS_THROUGH == CtlCode(IOCTL_SCSI_BASE, 0x0401, METHOD_BUFFERED, FILE_READ_WRITE_ACCESS)
  {
    assert (0x2D as bv32 << 16) == 0x2D_0000;
    assert (0x0500 as bv32 << 2) == 0x1400;
    assert (0x2D_0000 as bv32 | 0x1400) == 0x2D_1400;
    assert (0x04 as bv32 << 16) == 0x4_0000;
    assert (0x03 as bv32 << 14) == 0xC000;
    assert (0x0401 as bv32 << 2) == 0x1004;
    assert (0x4_0000 as bv32 | 0xC000) == 0x4_C000;
    assert (0x4_C000 as bv32 | 0x1004) == 0x4_D004;
  }

  // ---------------------------------------------------------------------
  // extract_string

  /** Index of the first NUL at or after `from`, or the end of the buffer. */
  function NulOrEnd(b: seq<u8>, from: nat): (e: nat)
    requires from <= |b|
    ensures from <= e <= |b| && (e < |b| ==> b[e] == 0)
    ensures forall k :: from <= k < e ==> b[k] != 0
    decreases |b| - from
  {
    if from == |b| || b[from] == 0 then from else NulOrEnd(b, from + 1)
  }

  /**
   * `extract_string`: the NUL-terminated string at a descriptor offset,
   * lossily decoded and trimmed.  Offset 0 means "absent", and an offset
   * at or past the end gives the empty string too.
   */
  function ExtractString(buffer: seq<u8>, offset: u32): (r: string)
    ensures offset == 0 || offset >= |buffer| ==> r == []
  {
    if offset == 0 then []
    else if offset >= |buffer| then []
    else Text.Trim(Utf8.Lossy(buffer[offset..NulOrEnd(buffer, offset)]))
  }

  /** Text that survives the round trip: ASCII, no NUL, no white space at either end. */
  predicate PlainText(s: string)
  {
    (forall i :: 0 <= i < |s| ==> 0 < s[i] as int < 0x80) && Text.Trimmed(s)
  }

  /** A plain string written NUL-terminated at a non-zero offset is read back. */
  lemma ExtractStringOfText(buffer: seq<u8>, offset: u32, s: string)
    requires 0 < offset && PlainText(s)
    requires offset + |s| < |buffer| && buffer[offset..offset + |s|] == Ascii(s) && buffer[offset + |s|] == 0
    ensures ExtractString(buffer, offset) == s
  {
    var b := buffer[offset..offset + |s|];
    ExtractText(buffer, offset, s, b);
    DecodePlain(b, s);
  }

  /** The text's bytes hold no NUL, so the string runs up to the terminator after them. */
  lemma ExtractText(buffer: seq<u8>, offset: u32, s: string, b: seq<u8>)
    requires 0 < offset && PlainText(s)
    requires offset + |s| < |buffer| && b == buffer[offset..offset + |s|] && b == Ascii(s) && buffer[offset + |s|] == 0
    ensures ExtractString(buffer, offset) == Text.Trim(Utf8.Lossy(b))
  {
    TextHasNoNul(buffer, offset as nat, s);
    NulOrEndAt(buffer, offset, offset + |s|);
  }

  /** The bytes of plain text decode and trim to it. */
  lemma DecodePlain(b: seq<u8>, s: string)
    requires PlainText(s) && b == Ascii(s)
    ensures Text.Trim(Utf8.Lossy(b)) == s
  {
    Utf8.LossyAscii(s);
    Text.TrimPadded(s, []);
    assert s + [] == s;
  }

  lemma TextHasNoNul(buffer: seq<u8>, offset: nat, s: string)
    requires PlainText(s) && offset + |s| <= |buffer| && buffer[offset..offset + |s|] == Ascii(s)
    ensures forall k :: offset <= k < offset + |s| ==> buffer[k] != 0
  {
    forall k | offset <= k < offset + |s| ensures buffer[k] != 0 {
      assert buffer[k] == buffer[offset..offset + |s|][k - offset] == Ascii(s)[k - offset];
    }
  }

  /** The terminator search stops at the first NUL. */
  lemma NulOrEndAt(b: seq<u8>, from: nat, e: nat)
    requires from <= e < |b| && b[e] == 0
    requires forall k :: from <= k < e ==> b[k] != 0
    ensures NulOrEnd(b, from) == e
  {
  }

  // ---------------------------------------------------------------------
  // extract_ata_string

  /** The bytes with the two bytes of every 16-bit word exchanged. */
  function SwapPairs(b: seq<u8>): (r: seq<u8>)
    requires |b| % 2 == 0
    ensures |r| == |b|
    ensures forall i :: 0 <= i < |b| ==> r[i] == if i % 2 == 0 then b[i + 1] else b[i - 1]
  {
    if b == [] then []
    else SwapPairs(b[..|b| - 2]) + [b[|b| - 1], b[|b| - 2]]
  }

  /** Swapping one more word appends its two bytes in exchanged order. */
  lemma SwapPairsStep(b: seq<u8>, n: nat)
    requires n % 2 == 0 && n + 2 <= |b|
    ensures SwapPairs(b[..n + 2]) == SwapPairs(b[..n]) + [b[n + 1], b[n]]
  {
    assert b[..n + 2][..n] == b[..n];
  }

  lemma Even(n: nat)
    ensures (n + n) % 2 == 0 && (n * 2) % 2 == 0
  {
  }

  /** Swapping twice restores the bytes. */
  lemma {:induction false} SwapPairsInvolution(b: seq<u8>)
    requires |b| % 2 == 0
    ensures SwapPairs(SwapPairs(b)) == b
  {
    var t := SwapPairs(b);
    var r := SwapPairs(t);
    forall i | 0 <= i < |b| ensures r[i] == b[i] {
      if i % 2 == 0 {
        assert r[i] == t[i + 1];
        assert (i + 1) % 2 == 1;
      } else {
        assert r[i] == t[i - 1];
        assert (i - 1) % 2 == 0;
      }
    }
  }

  /** What `extract_ata_string` returns: "" past the data, else the swapped words decoded and trimmed. */
  function AtaString(data: seq<u8>, wordOffset: nat, wordLen: nat): string
  {
    var byteOffset, byteLen := wordOffset * 2, wordLen * 2;
    if byteOffset + byteLen > |data| then []
    else Text.Trim(Utf8.Lossy(SwapPairs(data[byteOffset..byteOffset + byteLen])))
  }

  lemma AtaStringOfSwapped(data: seq<u8>, wordOffset: nat, wordLen: nat, swapped: seq<u8>)
    requires wordOffset * 2 + wordLen * 2 <= |data|
    requires swapped == SwapPairs(data[wordOffset * 2..wordOffset * 2 + wordLen * 2])
    ensures AtaString(data, wordOffset, wordLen) == Text.Trim(Utf8.Lossy(swapped))
  {
  }

  /** `extract_ata_string`: push the second then the first byte of each word, then decode and trim. */
  method ExtractAtaString(data: seq<u8>, wordOffset: nat, wordLen: nat) returns (s: string)
    ensures s == AtaString(data, wordOffset, wordLen)
  {
    var byteOffset := wordOffset * 2;
    var byteLen := wordLen * 2;
    if byteOffset + byteLen > |data| {
      return [];
    }
    ghost var words := data[byteOffset..byteOffset + byteLen];
    var result: seq<u8> := [];
    for i := 0 to wordLen
      invariant result == SwapPairs(words[..2 * i])
    {
      var idx := byteOffset + i * 2;
      SwapPairsStep(words, 2 * i);
      result := result + [data[idx + 1]];
      result := result + [data[idx]];
    }
    assert words[..2 * wordLen] == words;
    AtaStringOfSwapped(data, wordOffset, wordLen, result);
    s := Text.Trim(Utf8.Lossy(result));
  }

  /**
   * ATA strings are space-padded to a whole number of words with each
   * word's bytes exchanged; a plain string stored that way is read back.
   */
  lemma AtaStringOfText(data: seq<u8>, wordOffset: nat, wordLen: nat, s: string, spaces: string)
    requires PlainText(s) && |s| + |spaces| == wordLen + wordLen
    requires forall i :: 0 <= i < |spaces| ==> spaces[i] == ' '
    requires wordOffset * 2 + wordLen * 2 <= |data|
    requires data[wordOffset * 2..wordOffset * 2 + wordLen * 2] == SwapPairs(Ascii(s + spaces))
    ensures AtaString(data, wordOffset, wordLen) == s
  {
    var padded := s + spaces;
    forall i | 0 <= i < |padded| ensures padded[i] as int < 0x80 {
      if i >= |s| {
        assert padded[i] == spaces[i - |s|];
      }
    }
    var stored := Ascii(padded);
    Even(wordLen);
    SwapPairsInvolution(stored);
    Utf8.LossyAscii(padded);
    Text.TrimPadded(s, spaces);
  }

  /** Word offsets and lengths of the IDENTIFY DEVICE strings, per the ATA Command Set. */
  const ATA_IDENT_SERIAL_OFFSET: nat := 10
  const ATA_IDENT_SERIAL_LEN: nat := 10
  const ATA_IDENT_FW_REV_OFFSET: nat := 23
  const ATA_IDENT_FW_REV_LEN: nat := 4
  const ATA_IDENT_MODEL_OFFSET: nat := 27
  const ATA_IDENT_MODEL_LEN: nat := 20
  const IDENTIFY_DATA_LEN: nat := 512

  datatype AtaDeviceInfo = AtaDeviceInfo(serialNumber: string, firmwareRevision: string, modelNumber: string)

  /**
   * The decoding half of `get_ata_device_info`: a non-zero SCSI status is
   * an error, otherwise serial number (words 10-19), firmware revision
   * (words 23-26) and model (words 27-46) are read from the 512-byte data.
   */
  function AtaDeviceInfoOf(scsiStatus: u8, data: seq<u8>): (r: Result<AtaDeviceInfo, string>)
    requires |data| == IDENTIFY_DATA_LEN
    ensures r.Ok? <==> scsiStatus == 0
    ensures r.Ok? ==> r.value.firmwareRevision == AtaString(data, 23, 4)
  {
    if scsiStatus != 0 then Err("SCSI command failed with status: " + Text.FormatDec(scsiStatus))
    else Ok(AtaDeviceInfo(
      AtaString(data, ATA_IDENT_SERIAL_OFFSET, ATA_IDENT_SERIAL_LEN),
      AtaString(data, ATA_IDENT_FW_REV_OFFSET, ATA_IDENT_FW_REV_LEN),
      AtaString(data, ATA_IDENT_MODEL_OFFSET, ATA_IDENT_MODEL_LEN)))
  }

  /** The three fields lie inside the 512-byte sector, in order and without overlap. */
  lemma AtaFieldsLayout()
    ensures ATA_IDENT_SERIAL_OFFSET + ATA_IDENT_SERIAL_LEN <= ATA_IDENT_FW_REV_OFFSET
    ensures ATA_IDENT_FW_REV_OFFSET + ATA_IDENT_FW_REV_LEN <= ATA_IDENT_MODEL_OFFSET
    ensures (ATA_IDENT_MODEL_OFFSET + ATA_IDENT_MODEL_LEN) * 2 <= IDENTIFY_DATA_LEN
  {
  }

  /** A firmware revision stored in words 23-26 comes back from `get_ata_device_info`. */
  lemma FirmwareRevisionOfText(data: seq<u8>, fw: string, spaces: string)
    requires |data| == IDENTIFY_DATA_LEN && PlainText(fw) && |fw| + |spaces| == 8
    requires forall i :: 0 <= i < |spaces| ==> spaces[i] == ' '
    requires data[46..54] == SwapPairs(Ascii(fw + spaces))
    ensures AtaDeviceInfoOf(0, data) == Ok(AtaDeviceInfo(
      AtaString(data, 10, 10), fw, AtaString(data, 27, 20)))
  {
    AtaStringOfText(data, 23, 4, fw, spaces);
  }

  // ---------------------------------------------------------------------
  // The ATA PASS-THROUGH (12) command block

  const SCSI_ATA_PASS_THROUGH_12: u8 := 0xA1
  const ATA_IDENTIFY_DEVICE: u8 := 0xEC
  const CDB_LEN: nat := 16

  /**
   * The command block `get_ata_device_info` fills field by field in a
   * zeroed 16-byte array; only the first 12 bytes are used, and of those
   * only the operation code, protocol, flags, sector count and command
   * are non-zero.
   */
  method BuildIdentifyCdb() returns (cdb: array<u8>)
    ensures fresh(cdb) && cdb.Length == CDB_LEN
    ensures cdb[..] == IDENTIFY_CDB
  {
    cdb := new u8[CDB_LEN](_ => 0);
    // Features, LBA, device and control bytes stay zero.
    cdb[0] := SCSI_ATA_PASS_THROUGH_12;
    cdb[1] := 4 * 2;
    cdb[2] := 0x2E;
    cdb[4] := 1;
    cdb[9] := ATA_IDENTIFY_DEVICE;
    assert forall i | 0 <= i < CDB_LEN :: cdb[i] == IDENTIFY_CDB[i];
  }

  /** The block `BuildIdentifyCdb` fills in. */
  const IDENTIFY_CDB: seq<u8> := [0xA1, 0x08, 0x2E, 0, 1, 0, 0, 0, 0, 0xEC, 0, 0, 0, 0, 0, 0]

  /**
   * Read through the SAT-4 layout, the block asks for IDENTIFY DEVICE with
   * protocol 4 (PIO Data-In), transfer from the device (T_DIR), a length
   * in blocks (BYT_BLOK) taken from the sector count (T_LENGTH = 2), and a
   * sector count of one.
   */
  lemma IdentifyCdbFields(cdb: seq<u8>)
    requires cdb == IDENTIFY_CDB
    ensures cdb[0] == SCSI_ATA_PASS_THROUGH_12 && cdb[9] == ATA_IDENTIFY_DEVICE
    ensures cdb[1] / 2 % 16 == 4 && cdb[1] % 2 == 0
    ensures Bit(cdb[2], 3) && Bit(cdb[2], 2) && cdb[2] % 4 == 2
    ensures cdb[4] == 1
  {
    assert Pow2(2) == 4 && Pow2(3) == 8;
  }
}
