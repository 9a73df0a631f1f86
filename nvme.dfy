/**
 * NVMe firmware version lookup: one Identify Controller admin command
 * (CNS 01h, section 5.17 of the NVM Express Base Specification) and the
 * two strings read from its 4096-byte answer.
 */
module Nvme {
  import opened Common
  import Text
  import Utf8

  /** Layout of the Identify Controller data structure. */
  const IDENTIFY_BUFFER_SIZE: nat := 4096
  const MODEL_NUMBER_OFFSET: nat := 24
  const MODEL_NUMBER_LEN: nat := 40
  const FIRMWARE_REV_OFFSET: nat := 64
  const FIRMWARE_REV_LEN: nat := 8

  const NVME_ADMIN_IDENTIFY_OPCODE: u8 := 0x06
  /** The CNS value that selects "Identify Controller". */
  const NVME_IDENTIFY_CNS_CTRL: u32 := 0x01

  const SLICE_PANIC: string := "range end index out of range for slice"

  /**
   * `parse_string`: bytes [offset, offset + len), decoded lossily, with
   * trailing NULs removed and then white space trimmed.  The slice panics
   * when the range runs past the buffer.
   */
  function ParseString(buffer: seq<u8>, offset: nat, len: nat): (r: Outcome<string>)
    ensures r.Returns? <==> offset + len <= |buffer|
    ensures r.Returns? ==> Text.Trimmed(r.value)
  {
    if offset + len > |buffer| then Panics(SLICE_PANIC)
    else Returns(Text.Trim(Text.TrimEndMatches(Utf8.Lossy(buffer[offset..offset + len]), 0 as char)))
  }

  /** ASCII text with no NUL and no white space at either end. */
  predicate PlainText(s: string)
  {
    (forall i :: 0 <= i < |s| ==> 0 < s[i] as int < 0x80) && Text.Trimmed(s)
  }

  /** A field is plain text padded on the right with spaces and then NULs. */
  predicate PaddedField(field: string, s: string, spaces: nat)
  {
    && |s| + spaces <= |field|
    && field[..|s|] == s
    && (forall i :: |s| <= i < |s| + spaces ==> field[i] == ' ')
    && (forall i :: |s| + spaces <= i < |field| ==> field[i] == 0 as char)
  }

  /**
   * A string stored in a field padded with spaces (as the NVMe
   * specification pads its ASCII fields) or NULs is read back exactly.
   */
  lemma ParseStringOfText(buffer: seq<u8>, offset: nat, len: nat, field: string, s: string, spaces: nat)
    requires PlainText(s) && PaddedField(field, s, spaces) && |field| == len
    requires offset + len <= |buffer|
    requires forall i :: 0 <= i < |field| ==> field[i] as int < 0x80
    requires buffer[offset..offset + len] == Ascii(field)
    ensures ParseString(buffer, offset, len) == Returns(s)
  {
    Utf8.LossyAscii(field);
    TrimPaddedField(field, s, spaces);
  }

  /** Removing trailing NULs and then white space from a padded field leaves the text. */
  lemma TrimPaddedField(field: string, s: string, spaces: nat)
    requires PlainText(s) && PaddedField(field, s, spaces)
    ensures Text.Trim(Text.TrimEndMatches(field, 0 as char)) == s
  {
    var padded := field[..|s| + spaces];
    var nuls := field[|s| + spaces..];
    assert field == padded + nuls;
    assert padded == [] || padded[|padded| - 1] != 0 as char by {
      if padded != [] {
        if spaces == 0 {
          assert padded[|padded| - 1] == s[|s| - 1];
        } else {
          assert padded[|padded| - 1] == ' ';
        }
      }
    }
    Text.TrimEndMatchesPadded(padded, nuls, 0 as char);
    var blanks := padded[|s|..];
    assert padded == s + blanks;
    forall i | 0 <= i < |blanks| ensures Text.IsWhitespace(blanks[i]) {
      assert blanks[i] == field[|s| + i];
    }
    Text.TrimPadded(s, blanks);
  }

  /** The fields of `NvmeAdminCmd` that the Identify command sets; all others are zero. */
  datatype AdminCmd = AdminCmd(opcode: u8, dataLen: u32, cdw10: u32)

  /** The Identify Controller command for a buffer of `bufferLen` bytes. */
  function IdentifyCommand(bufferLen: u32): (cmd: AdminCmd)
    ensures cmd.opcode == NVME_ADMIN_IDENTIFY_OPCODE && cmd.cdw10 == NVME_IDENTIFY_CNS_CTRL
    ensures cmd.dataLen == bufferLen
  {
    AdminCmd(NVME_ADMIN_IDENTIFY_OPCODE, bufferLen, NVME_IDENTIFY_CNS_CTRL)
  }

  datatype NvmeInfo = NvmeInfo(modelNumber: string, firmwareVersion: string)

  /** `{:#x}` of the ioctl's `c_int` status: two's complement for a negative value. */
  function HexStatus(status: int): (r: string)
    requires -0x8000_0000 <= status < 0x8000_0000
    ensures |r| >= 3 && r[..2] == "0x"
  {
    "0x" + Text.FormatRadix(if status < 0 then status + 0x1_0000_0000 else status, 16, false)
  }

  /**
   * The decoding half of `get_nvme_firmware_version`: a non-zero status is
   * an error; otherwise the model number (bytes 24..64) and firmware
   * revision (bytes 64..72) of the 4096-byte Identify data.
   */
  function NvmeInfoOf(status: int, buffer: seq<u8>): (r: Result<NvmeInfo, string>)
    requires -0x8000_0000 <= status < 0x8000_0000
    requires |buffer| == IDENTIFY_BUFFER_SIZE
    ensures r.Ok? <==> status == 0
    ensures r.Ok? ==>
      && Returns(r.value.modelNumber) == ParseString(buffer, MODEL_NUMBER_OFFSET, MODEL_NUMBER_LEN)
      && Returns(r.value.firmwareVersion) == ParseString(buffer, FIRMWARE_REV_OFFSET, FIRMWARE_REV_LEN)
  {
    if status != 0 then Err("NVMe command failed with status code: " + HexStatus(status))
    else
      var model := ParseString(buffer, MODEL_NUMBER_OFFSET, MODEL_NUMBER_LEN);
      var firmware := ParseString(buffer, FIRMWARE_REV_OFFSET, FIRMWARE_REV_LEN);
      Ok(NvmeInfo(model.value, firmware.value))
  }

  /** The two fields lie inside the Identify data, side by side. */
  lemma IdentifyLayout()
    ensures MODEL_NUMBER_OFFSET + MODEL_NUMBER_LEN == FIRMWARE_REV_OFFSET
    ensures FIRMWARE_REV_OFFSET + FIRMWARE_REV_LEN <= IDENTIFY_BUFFER_SIZE
  {
  }

  /** A firmware revision such as "UHFM00.1" written into bytes 64..72 is what the lookup reports. */
  lemma FirmwareVersionOfText(buffer: seq<u8>, field: string, fw: string, spaces: nat)
    requires |buffer| == IDENTIFY_BUFFER_SIZE
    requires PlainText(fw) && PaddedField(field, fw, spaces) && |field| == FIRMWARE_REV_LEN
    requires forall i :: 0 <= i < |field| ==> field[i] as int < 0x80
    requires buffer[64..72] == Ascii(field)
    ensures NvmeInfoOf(0, buffer).Ok? && NvmeInfoOf(0, buffer).value.firmwareVersion == fw
  {
    ParseStringOfText(buffer, FIRMWARE_REV_OFFSET, FIRMWARE_REV_LEN, field, fw, spaces);
  }
}
