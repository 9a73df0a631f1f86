/**
 * The older PD flash reader: the same metadata and firmware blocks as the
 * CCGx reader, but with a caller-chosen row size, the second image's
 * metadata always in row 0x1FD, no bounds check on the 256-byte reads, and
 * only the application version's major.minor.patch kept.
 */
module PdBinary {
  import opened Common
  import Text
  import Ccgx
  import CcgxBinary

  const FW1_METADATA_ROW: u32 := 0x1FE
  const FW2_METADATA_ROW: u32 := 0x1FD
  const APP_VERSION_OFFSET: nat := 0xE4
  const APP_VERSION_PATCH_BYTE: nat := 0x02
  const APP_MAJOR_MINOR_BYTE: nat := 0x03

  const SLICE_PANIC: string := "range end index out of range for slice"

  /** `PdFirmware`: an image's version, location and size. */
  datatype PdFirmware = PdFirmware(
    siliconId: u16,
    major: u8,
    minor: u8,
    patch: u8,
    startRow: u32,
    size: u32,
    rowSize: u32)

  datatype PdFirmwareFile = PdFirmwareFile(first: PdFirmware, second: PdFirmware)

  /**
   * `read_256_bytes`: the 256 bytes at the given row; a read past the end
   * of the file panics on the slice.
   */
  function Read256Bytes(file: seq<u8>, rowNo: u32, rowSize: u32): (r: Outcome<seq<u8>>)
    ensures r.Returns? <==> CcgxBinary.Read256Bytes(file, rowNo, rowSize).Some?
    ensures r.Returns? ==> r.value == CcgxBinary.Read256Bytes(file, rowNo, rowSize).value
  {
    var p := CcgxBinary.ReadPointer(rowNo, rowSize);
    if p + CcgxBinary.BLOCK_LEN > |file| then Panics(SLICE_PANIC)
    else Returns(file[p..p + CcgxBinary.BLOCK_LEN])
  }

  /**
   * `read_metadata`: the same decoding as the CCGx reader, except that a
   * metadata row past the end of the file panics instead of giving None.
   */
  function ReadMetadata(file: seq<u8>, rowSize: u32, metadataRow: u32): (r: Outcome<Option<(u32, u32)>>)
    ensures r.Panics? <==> CcgxBinary.Read256Bytes(file, metadataRow, rowSize).None?
    ensures r.Returns? ==> r.value == CcgxBinary.ReadMetadata(file, rowSize, metadataRow)
  {
    var block :- Read256Bytes(file, metadataRow, rowSize);
    Returns(CcgxBinary.MetadataOf(block))
  }

  /**
   * The high nibble, `(b & 0xF0) >> 4`: on a byte, clearing the low four
   * bits and shifting them out is the quotient by 16.
   */
  function HighNibble(b: u8): (r: u8)
  {
    b / 16
  }

  /** The low nibble, `b & 0x0F`: the remainder modulo 16. */
  function LowNibble(b: u8): (r: u8)
  {
    b % 16
  }

  /** The two nibbles are below 16 and put the byte back together. */
  lemma NibblesSplit(b: u8)
    ensures HighNibble(b) < 16 && LowNibble(b) < 16
    ensures HighNibble(b) * 16 + LowNibble(b) == b
  {
  }

  /**
   * `read_version`: the firmware block's application version gives
   * major (high nibble of byte 3), minor (low nibble) and patch (byte 2);
   * the silicon id is the little-endian u16 at 0xEA.
   */
  function ReadVersion(file: seq<u8>, rowSize: u32, metadataRow: u32): (r: Outcome<Option<PdFirmware>>)
    ensures r == Returns(None) <==> ReadMetadata(file, rowSize, metadataRow) == Returns(None)
    ensures r.Returns? && r.value.Some? ==>
      CcgxBinary.ReadMetadata(file, rowSize, metadataRow).Some? &&
      CcgxBinary.Read256Bytes(file, CcgxBinary.ReadMetadata(file, rowSize, metadataRow).value.0, rowSize).Some?
    ensures r.Returns? && r.value.Some? ==>
      var (start, size) := CcgxBinary.ReadMetadata(file, rowSize, metadataRow).value;
      var block := CcgxBinary.Read256Bytes(file, start, rowSize).value;
      var fw := r.value.value;
      && fw.major * 16 + fw.minor == block[0xE7] && fw.minor < 16
      && fw.patch == block[0xE6]
      && Le16Bytes(fw.siliconId) == block[0xEA..0xEC]
      && fw.startRow == start && fw.size == size && fw.rowSize == rowSize
  {
    var meta :- ReadMetadata(file, rowSize, metadataRow);
    match meta
    case None => Returns(None)
    case Some((start, size)) =>
      var data :- Read256Bytes(file, start, rowSize);
      var app := data[APP_VERSION_OFFSET..];
      Returns(Some(PdFirmware(CcgxBinary.SiliconIdOf(data), HighNibble(app[APP_MAJOR_MINOR_BYTE]),
                              LowNibble(app[APP_MAJOR_MINOR_BYTE]), app[APP_VERSION_PATCH_BYTE],
                              start, size, rowSize)))
  }

  /**
   * `read_versions`: the first image from the metadata in row 0x1FE and
   * the second from row 0x1FD; None if either has no valid metadata.
   */
  function ReadVersions(file: seq<u8>, rowSize: u32): (r: Outcome<Option<PdFirmwareFile>>)
    ensures r.Returns? && r.value.Some? <==>
      && ReadVersion(file, rowSize, FW1_METADATA_ROW).Returns? && ReadVersion(file, rowSize, FW1_METADATA_ROW).value.Some?
      && ReadVersion(file, rowSize, FW2_METADATA_ROW).Returns? && ReadVersion(file, rowSize, FW2_METADATA_ROW).value.Some?
    ensures r.Returns? && r.value.Some? ==>
      r.value.value == PdFirmwareFile(ReadVersion(file, rowSize, FW1_METADATA_ROW).value.value,
                                      ReadVersion(file, rowSize, FW2_METADATA_ROW).value.value)
  {
    var first :- ReadVersion(file, rowSize, FW1_METADATA_ROW);
    if first.None? then Returns(None)
    else
      var second :- ReadVersion(file, rowSize, FW2_METADATA_ROW);
      if second.None? then Returns(None)
      else Returns(Some(PdFirmwareFile(first.value, second.value)))
  }

  /**
   * Where both readers succeed they agree: this reader's major, minor and
   * patch are the CCGx reader's application major, minor and circuit, and
   * location, size and silicon id are the same.
   */
  lemma ReadVersionAgrees(file: seq<u8>, rowSize: u32, metadataRow: u32)
    requires ReadVersion(file, rowSize, metadataRow).Returns?
    requires ReadVersion(file, rowSize, metadataRow).value.Some?
    ensures CcgxBinary.ReadVersion(file, rowSize, metadataRow).Some?
    ensures var fw := ReadVersion(file, rowSize, metadataRow).value.value;
      var other := CcgxBinary.ReadVersion(file, rowSize, metadataRow).value;
      && fw.major == other.appVersion.major && fw.minor == other.appVersion.minor
      && fw.patch == other.appVersion.circuit && fw.siliconId == other.siliconId
      && fw.startRow == other.startRow && fw.size == other.size && fw.rowSize == other.rowSize
  {
    var (start, size) := CcgxBinary.ReadMetadata(file, rowSize, metadataRow).value;
    var block := CcgxBinary.Read256Bytes(file, start, rowSize).value;
    var fw := ReadVersion(file, rowSize, metadataRow).value.value;
    var other := CcgxBinary.ReadVersion(file, rowSize, metadataRow).value;
    assert block[APP_VERSION_OFFSET..][3] == block[0xE7];
    assert Le16At(Le16Bytes(fw.siliconId), 0) == Le16At(Le16Bytes(other.siliconId), 0);
  }

  /** This reader with CCG6 row size reads the same rows as the CCGx reader for CCG6. */
  lemma ReadVersionsAgreeCcg6(file: seq<u8>)
    requires ReadVersions(file, 0x80).Returns? && ReadVersions(file, 0x80).value.Some?
    ensures CcgxBinary.ReadVersions(file, CcgxBinary.Ccg6).Some?
  {
    ReadVersionAgrees(file, 0x80, FW1_METADATA_ROW);
    ReadVersionAgrees(file, 0x80, FW2_METADATA_ROW);
  }

  /** `format_pd_app_ver`: "major.minor.pp", the patch as two or more lower-case hex digits. */
  function FormatPdAppVer(fw: PdFirmware): string
  {
    Text.Join([Text.FormatDec(fw.major), Text.FormatDec(fw.minor), Text.PadZeros(Text.FormatRadix(fw.patch, 16, false), 2)], '.')
  }

  /** Reading a rendered application version back. */
  function ParsePdAppVer(s: string): (r: Option<(u8, u8, u8)>)
  {
    ParsePdAppVerFields(Text.Split(s, '.'))
  }

  /** Three fields: decimal major, decimal minor, hexadecimal patch. */
  function ParsePdAppVerFields(parts: seq<string>): (r: Option<(u8, u8, u8)>)
  {
    if |parts| != 3 then None
    else
      var major := Text.ParseUnsigned(parts[0], 10, 0xFF);
      var minor := Text.ParseUnsigned(parts[1], 10, 0xFF);
      var patch := Text.ParseUnsigned(parts[2], 16, 0xFF);
      if major.None? || minor.None? || patch.None? then None
      else Some((major.value, minor.value, patch.value))
  }

  /** A padded hexadecimal rendering has no '.' in it. */
  lemma HexHasNoDot(n: nat)
    ensures '.' !in Text.PadZeros(Text.FormatRadix(n, 16, false), 2)
  {
    var f := Text.FormatRadix(n, 16, false);
    var s := Text.PadZeros(f, 2);
    Text.FormatRadixValue(n, 16, false);
    forall i | 0 <= i < |s| ensures s[i] != '.' {
      if i < |s| - |f| {
        assert s[i] == '0';
      } else {
        assert s[i] == f[i - (|s| - |f|)];
        assert Text.DigitValue(f[i - (|s| - |f|)], 16).Some?;
      }
    }
  }

  /** The rendering splits at its dots into the three fields. */
  lemma FormatPdAppVerFields(fw: PdFirmware)
    ensures Text.Split(FormatPdAppVer(fw), '.') ==
      [Text.FormatDec(fw.major), Text.FormatDec(fw.minor), Text.PadZeros(Text.FormatRadix(fw.patch, 16, false), 2)]
  {
    var pieces := [Text.FormatDec(fw.major), Text.FormatDec(fw.minor), Text.PadZeros(Text.FormatRadix(fw.patch, 16, false), 2)];
    Ccgx.DecimalHasNoDot(fw.major);
    Ccgx.DecimalHasNoDot(fw.minor);
    HexHasNoDot(fw.patch);
    assert forall k :: 0 <= k < |pieces| ==> '.' !in pieces[k];
    Text.SplitJoin(pieces, '.');
  }

  /** The rendering loses nothing: major, minor and patch are recovered from it. */
  lemma FormatPdAppVerRoundTrip(fw: PdFirmware)
    ensures ParsePdAppVer(FormatPdAppVer(fw)) == Some((fw.major, fw.minor, fw.patch))
  {
    var pieces := [Text.FormatDec(fw.major), Text.FormatDec(fw.minor), Text.PadZeros(Text.FormatRadix(fw.patch, 16, false), 2)];
    FormatPdAppVerFields(fw);
    Text.ParseFormatDec(fw.major, 0xFF);
    Text.ParseFormatDec(fw.minor, 0xFF);
    Text.ParseFormatHex(fw.patch, 2, false, 0xFF);
    assert ParsePdAppVerFields(pieces) == Some((fw.major, fw.minor, fw.patch));
  }
}
