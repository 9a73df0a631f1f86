/**
 * Reading the two firmware images out of a CCG5/CCG6 PD flash file: each
 * image has a metadata block at offset 0xC0 of a fixed row (magic bytes
 * 0x59 0x43, the last bootloader row and the firmware size), and the row
 * after the bootloader holds the image's version records and silicon id.
 */
module CcgxBinary {
  import opened Common
  import Ccgx

  const FW1_METADATA_ROW: u32 := 0x1FE
  const FW2_METADATA_ROW_CCG5: u32 := 0x1FF
  const FW2_METADATA_ROW_CCG6: u32 := 0x1FD
  const LAST_BOOTLOADER_ROW: nat := 0x05
  const FW_SIZE_OFFSET: nat := 0x09
  const METADATA_OFFSET: nat := 0xC0
  const METADATA_MAGIC_OFFSET: nat := 0x16
  const METADATA_MAGIC_1: u8 := 0x59
  const METADATA_MAGIC_2: u8 := 0x43
  const SILICON_ID_OFFSET: nat := 0xE8
  const SILICON_FAMILY_BYTE: nat := 0x02
  const BASE_VERSION_OFFSET: nat := 0xE0
  const APP_VERSION_OFFSET: nat := 0xE4

  /** Every read takes one 256-byte block of the file. */
  const BLOCK_LEN: nat := 256

  /** `CcgX`: the controller generation, which fixes the flash geometry. */
  datatype CcgX = Ccg5 | Ccg6

  /** `PdFirmware`: what one image's metadata and version block say. */
  datatype PdFirmware = PdFirmware(
    siliconId: u16,
    baseVersion: Ccgx.BaseVersion,
    appVersion: Ccgx.AppVersion,
    startRow: u32,
    size: u32,
    rowSize: u32)

  datatype PdFirmwareFile = PdFirmwareFile(first: PdFirmware, second: PdFirmware)

  /** `row_no * flash_row_size` as a u32 product, which a release build wraps. */
  function ReadPointer(rowNo: u32, rowSize: u32): u32
  {
    (rowNo * rowSize) % 0x1_0000_0000
  }

  /**
   * `read_256_bytes`: the 256 bytes starting at the given row, or None if
   * they would run past the end of the file.
   */
  function Read256Bytes(file: seq<u8>, rowNo: u32, rowSize: u32): (r: Option<seq<u8>>)
    ensures r.Some? <==> ReadPointer(rowNo, rowSize) + BLOCK_LEN <= |file|
    ensures r.Some? ==> (|r.value| == BLOCK_LEN &&
      forall i :: 0 <= i < BLOCK_LEN ==> r.value[i] == file[ReadPointer(rowNo, rowSize) + i])
  {
    var p := ReadPointer(rowNo, rowSize);
    if p + BLOCK_LEN > |file| then None else Some(file[p..p + BLOCK_LEN])
  }

  /** The metadata block carries the magic bytes 0x59 0x43 at 0x16 and 0x17. */
  predicate HasMagic(block: seq<u8>)
    requires |block| == BLOCK_LEN
  {
    block[METADATA_OFFSET + METADATA_MAGIC_OFFSET] == METADATA_MAGIC_1 &&
    block[METADATA_OFFSET + METADATA_MAGIC_OFFSET + 1] == METADATA_MAGIC_2
  }

  /**
   * The metadata part of `read_metadata`: with the magic present, the
   * firmware starts in the row after the last bootloader row (a little-
   * endian u16 at 0x05) and its size is the little-endian u32 at 0x09.
   */
  function MetadataOf(block: seq<u8>): (r: Option<(u32, u32)>)
    requires |block| == BLOCK_LEN
    ensures r.Some? <==> HasMagic(block)
    ensures r.Some? ==> r.value.0 >= 1
  {
    var m := block[METADATA_OFFSET..];
    if m[METADATA_MAGIC_OFFSET] == METADATA_MAGIC_1 && m[METADATA_MAGIC_OFFSET + 1] == METADATA_MAGIC_2 then
      var rowStart := m[LAST_BOOTLOADER_ROW] as nat + 0x100 * m[LAST_BOOTLOADER_ROW + 1] as nat + 1;
      var size := m[FW_SIZE_OFFSET] as nat + 0x100 * m[FW_SIZE_OFFSET + 1] as nat
                  + 0x1_0000 * m[FW_SIZE_OFFSET + 2] as nat + 0x100_0000 * m[FW_SIZE_OFFSET + 3] as nat;
      Some((rowStart, size))
    else None
  }

  /**
   * The metadata fields are the bytes they are stored as, in both
   * directions: a block that stores `lastRow` and `size` with the magic
   * decodes to them, and a decoded block stores what it decoded to.
   */
  lemma MetadataLayout(block: seq<u8>, lastRow: u16, size: u32)
    requires |block| == BLOCK_LEN
    ensures HasMagic(block) && block[0xC5..0xC7] == Le16Bytes(lastRow) && block[0xC9..0xCD] == Le32Bytes(size)
            ==> MetadataOf(block) == Some((lastRow + 1, size))
    ensures MetadataOf(block).Some? ==>
            block[0xC5..0xC7] == Le16Bytes(MetadataOf(block).value.0 - 1) &&
            block[0xC9..0xCD] == Le32Bytes(MetadataOf(block).value.1)
  {
    if HasMagic(block) {
      var r := MetadataOf(block).value;
      assert r.0 - 1 == Le16At(block, 0xC5);
      assert r.1 == Le32At(block, 0xC9);
      Le16BytesOfLe16At(block, 0xC5);
      Le32BytesOfLe32At(block, 0xC9);
      if block[0xC5..0xC7] == Le16Bytes(lastRow) && block[0xC9..0xCD] == Le32Bytes(size) {
        assert Le16At(Le16Bytes(lastRow), 0) == lastRow;
        assert Le32At(Le32Bytes(size), 0) == size;
        assert Le16At(block, 0xC5) == Le16At(block[0xC5..0xC7], 0);
        assert Le32At(block, 0xC9) == Le32At(block[0xC9..0xCD], 0);
      }
    }
  }

  /** `read_metadata`: the firmware's start row and size, from the metadata in `metadataRow`. */
  function ReadMetadata(file: seq<u8>, rowSize: u32, metadataRow: u32): (r: Option<(u32, u32)>)
    ensures r.Some? <==> Read256Bytes(file, metadataRow, rowSize).Some? && HasMagic(Read256Bytes(file, metadataRow, rowSize).value)
    ensures r.Some? ==> r == MetadataOf(Read256Bytes(file, metadataRow, rowSize).value)
  {
    match Read256Bytes(file, metadataRow, rowSize)
    case None => None
    case Some(block) => MetadataOf(block)
  }

  /** The silicon id: the little-endian u16 two bytes into the silicon-id field, at 0xEA. */
  function SiliconIdOf(block: seq<u8>): (r: u16)
    requires |block| == BLOCK_LEN
    ensures Le16Bytes(r) == block[0xEA..0xEC]
  {
    var s := block[SILICON_ID_OFFSET..];
    Le16BytesOfLe16At(block, 0xEA);
    s[SILICON_FAMILY_BYTE] as nat + 0x100 * s[SILICON_FAMILY_BYTE + 1] as nat
  }

  /** The firmware block's records: base version at 0xE0, application version at 0xE4. */
  function FirmwareOf(block: seq<u8>, startRow: u32, size: u32, rowSize: u32): (r: PdFirmware)
    requires |block| == BLOCK_LEN
    ensures Ccgx.BaseVersionOf(block[BASE_VERSION_OFFSET..]) == Returns(r.baseVersion)
    ensures Ccgx.AppVersionOf(block[APP_VERSION_OFFSET..]) == Returns(r.appVersion)
    ensures Le16Bytes(r.siliconId) == block[0xEA..0xEC]
    ensures r.startRow == startRow && r.size == size && r.rowSize == rowSize
  {
    PdFirmware(SiliconIdOf(block), Ccgx.BaseVersionOf(block[BASE_VERSION_OFFSET..]).value,
               Ccgx.AppVersionOf(block[APP_VERSION_OFFSET..]).value, startRow, size, rowSize)
  }

  /**
   * `read_version`: the metadata locates the firmware, whose first block
   * holds the version records; None if either read runs off the file or
   * the metadata has no magic.
   */
  function ReadVersion(file: seq<u8>, rowSize: u32, metadataRow: u32): (r: Option<PdFirmware>)
    ensures r.Some? <==>
      ReadMetadata(file, rowSize, metadataRow).Some? &&
      Read256Bytes(file, ReadMetadata(file, rowSize, metadataRow).value.0, rowSize).Some?
    ensures r.Some? ==>
      var (start, size) := ReadMetadata(file, rowSize, metadataRow).value;
      r.value == FirmwareOf(Read256Bytes(file, start, rowSize).value, start, size, rowSize)
  {
    match ReadMetadata(file, rowSize, metadataRow)
    case None => None
    case Some((start, size)) =>
      match Read256Bytes(file, start, rowSize)
      case None => None
      case Some(block) => Some(FirmwareOf(block, start, size, rowSize))
  }

  /** The row size and the second image's metadata row of each generation. */
  function Geometry(ccgx: CcgX): (r: (u32, u32))
    ensures r.1 != FW1_METADATA_ROW
  {
    match ccgx
    case Ccg5 => (0x100, FW2_METADATA_ROW_CCG5)
    case Ccg6 => (0x80, FW2_METADATA_ROW_CCG6)
  }

  /**
   * `read_versions`: both images, the first from the metadata in row
   * 0x1FE and the second from row 0x1FF (CCG5) or 0x1FD (CCG6); None if
   * either is unreadable.
   */
  function ReadVersions(file: seq<u8>, ccgx: CcgX): (r: Option<PdFirmwareFile>)
    ensures var (rowSize, fw2Row) := Geometry(ccgx);
      (r.Some? <==> ReadVersion(file, rowSize, FW1_METADATA_ROW).Some? && ReadVersion(file, rowSize, fw2Row).Some?) &&
      (r.Some? ==> r.value.first == ReadVersion(file, rowSize, FW1_METADATA_ROW).value &&
                   r.value.second == ReadVersion(file, rowSize, fw2Row).value)
    ensures r.Some? ==> r.value.first.rowSize == r.value.second.rowSize == (if ccgx == Ccg5 then 0x100 else 0x80)
  {
    var (rowSize, fw2Row) := Geometry(ccgx);
    match ReadVersion(file, rowSize, FW1_METADATA_ROW)
    case None => None
    case Some(first) =>
      match ReadVersion(file, rowSize, fw2Row)
      case None => None
      case Some(second) => Some(PdFirmwareFile(first, second))
  }

  /**
   * A file whose metadata row stores `lastRow` and `size` with the magic,
   * and whose firmware row stores base version `v` and silicon id `sid`,
   * reads back as exactly that firmware.
   */
  lemma ReadVersionOfImage(file: seq<u8>, rowSize: u32, metadataRow: u32, lastRow: u16, size: u32,
                           v: Ccgx.BaseVersion, sid: u16)
    requires Ccgx.NibblesFit(v.major, v.minor)
    requires var m := ReadPointer(metadataRow, rowSize);
      && m + BLOCK_LEN <= |file|
      && file[m + 0xD6] == METADATA_MAGIC_1 && file[m + 0xD7] == METADATA_MAGIC_2
      && file[m + 0xC5..m + 0xC7] == Le16Bytes(lastRow) && file[m + 0xC9..m + 0xCD] == Le32Bytes(size)
    requires var p := ReadPointer(lastRow + 1, rowSize);
      && p + BLOCK_LEN <= |file|
      && file[p + 0xE0..p + 0xE4] == Ccgx.BaseVersionBytes(v)
      && file[p + 0xEA..p + 0xEC] == Le16Bytes(sid)
    ensures ReadVersion(file, rowSize, metadataRow).Some?
    ensures var fw := ReadVersion(file, rowSize, metadataRow).value;
      fw.baseVersion == v && fw.siliconId == sid && fw.startRow == lastRow + 1 && fw.size == size && fw.rowSize == rowSize
  {
    var m := ReadPointer(metadataRow, rowSize);
    var meta := Read256Bytes(file, metadataRow, rowSize).value;
    assert meta == file[m..m + BLOCK_LEN];
    assert meta[0xC5..0xC7] == file[m + 0xC5..m + 0xC7];
    assert meta[0xC9..0xCD] == file[m + 0xC9..m + 0xCD];
    MetadataLayout(meta, lastRow, size);
    var p := ReadPointer(lastRow + 1, rowSize);
    var block := Read256Bytes(file, lastRow + 1, rowSize).value;
    assert block == file[p..p + BLOCK_LEN];
    assert block[0xE0..0xE4] == file[p + 0xE0..p + 0xE4];
    assert block[0xEA..0xEC] == file[p + 0xEA..p + 0xEC];
    var fw := FirmwareOf(block, lastRow + 1, size, rowSize);
    Ccgx.BaseVersionRoundTrip(v, block[0xE0..0xE4]);
    assert block[BASE_VERSION_OFFSET..][..4] == Ccgx.BaseVersionBytes(v);
    assert Le16At(Le16Bytes(fw.siliconId), 0) == Le16At(Le16Bytes(sid), 0);
  }
}
