/**
 * UEFI capsule headers: the `EFI_CAPSULE_HEADER` at the start of a capsule,
 * its validity test against the file it was read from, the capsule flag
 * bits of section 8.5.3 of the UEFI Specification, and the Windows UX
 * "display capsule" that carries a boot-time image.
 *
 * The source reads both headers by reinterpreting the first bytes of the
 * file; the model decodes them field by field, little-endian and packed.
 */
module Capsule {
  import opened Common
  import Guid

  /** `size_of::<EfiCapsuleHeader>()`: a 16-byte GUID and three u32. */
  const HEADER_LEN: nat := 28
  /** `size_of::<DisplayCapsule>()`: the capsule header and its packed 16-byte payload header. */
  const DISPLAY_CAPSULE_LEN: nat := 44
  /** `usize` arithmetic wraps modulo 2^64 in a release build. */
  const USIZE_LIMIT: nat := 0x1_0000_0000_0000_0000

  const CAPSULE_FLAGS_PERSIST_ACROSS_RESET: u32 := 0x0001_0000
  const CAPSULE_FLAGS_POPULATE_SYSTEM_TABLE: u32 := 0x0002_0000
  const CAPSULE_FLAGS_INITIATE_RESET: u32 := 0x0004_0000

  const SLICE_PANIC: string := "range end index out of range for slice"
  const SLICE_ORDER_PANIC: string := "slice index starts after its end"

  datatype EfiCapsuleHeader = EfiCapsuleHeader(
    capsuleGuid: Guid.CGuid,
    headerSize: u32,
    flags: u32,
    capsuleImageSize: u32)

  datatype DisplayPayload = DisplayPayload(
    version: u8,
    checksum: u8,
    imageType: u8,
    reserved: u8,
    mode: u32,
    offsetX: u32,
    offsetY: u32)

  datatype DisplayCapsule = DisplayCapsule(capsuleHeader: EfiCapsuleHeader, imagePayload: DisplayPayload)

  /** A `CGuid` as it lies in memory: a, b and c little-endian, then d. */
  function GuidAt(b: seq<u8>, at: nat): Guid.CGuid
    requires at + 16 <= |b|
  {
    Guid.CGuid(Le32At(b, at), Le16At(b, at + 4), Le16At(b, at + 6), b[at + 8..at + 16])
  }

  function GuidBytes(g: Guid.CGuid): (r: seq<u8>)
    ensures |r| == 16
  {
    Le32Bytes(g.a) + Le16Bytes(g.b) + Le16Bytes(g.c) + g.d
  }

  /** The capsule header read from the first 28 bytes. */
  function HeaderAt(b: seq<u8>): EfiCapsuleHeader
    requires HEADER_LEN <= |b|
  {
    EfiCapsuleHeader(GuidAt(b, 0), Le32At(b, 16), Le32At(b, 20), Le32At(b, 24))
  }

  /** The in-memory bytes of a capsule header. */
  function HeaderBytes(h: EfiCapsuleHeader): (r: seq<u8>)
    ensures |r| == HEADER_LEN
  {
    GuidBytes(h.capsuleGuid) + Le32Bytes(h.headerSize) + Le32Bytes(h.flags) + Le32Bytes(h.capsuleImageSize)
  }

  /** Reading a header back from its own bytes, followed by anything, gives the header. */
  lemma HeaderRoundTrip(h: EfiCapsuleHeader, rest: seq<u8>)
    ensures HeaderAt(HeaderBytes(h) + rest) == h
  {
    var b := HeaderBytes(h) + rest;
    var g := h.capsuleGuid;
    assert b[0..4] == Le32Bytes(g.a);
    assert b[4..6] == Le16Bytes(g.b);
    assert b[6..8] == Le16Bytes(g.c);
    assert b[8..16] == g.d;
    assert b[16..20] == Le32Bytes(h.headerSize);
    assert b[20..24] == Le32Bytes(h.flags);
    assert b[24..28] == Le32Bytes(h.capsuleImageSize);
    Le32At4(b, 0, g.a);
    Le16At2(b, 4, g.b);
    Le16At2(b, 6, g.c);
    Le32At4(b, 16, h.headerSize);
    Le32At4(b, 20, h.flags);
    Le32At4(b, 24, h.capsuleImageSize);
  }

  lemma Le32At4(b: seq<u8>, at: nat, x: u32)
    requires at + 4 <= |b| && b[at..at + 4] == Le32Bytes(x)
    ensures Le32At(b, at) == x
  {
    assert Le32At(b, at) == Le32At(b[at..at + 4], 0);
  }

  lemma Le16At2(b: seq<u8>, at: nat, x: u16)
    requires at + 2 <= |b| && b[at..at + 2] == Le16Bytes(x)
    ensures Le16At(b, at) == x
  {
    assert Le16At(b, at) == Le16At(b[at..at + 2], 0);
  }

  /**
   * `EfiCapsuleHeader::is_valid`: the declared image size is the length of
   * the data (as a u32, so modulo 2^32), and the header size lies between
   * the size of the header structure and the image size.
   */
  predicate IsValid(h: EfiCapsuleHeader, data: seq<u8>)
  {
    && h.capsuleImageSize == |data| % 0x1_0000_0000
    && h.headerSize <= h.capsuleImageSize
    && h.headerSize >= HEADER_LEN
  }

  /**
   * `parse_capsule_header`: the header in the first 28 bytes when it is
   * valid for the data, else None; data shorter than a header panics on
   * the slice.
   */
  function ParseCapsuleHeader(data: seq<u8>): (r: Outcome<Option<EfiCapsuleHeader>>)
    ensures r.Panics? <==> |data| < HEADER_LEN
    ensures r.Returns? ==> (r.value.Some? <==> IsValid(HeaderAt(data), data))
    ensures r.Returns? && r.value.Some? ==> r.value.value == HeaderAt(data)
  {
    if |data| < HEADER_LEN then Panics(SLICE_PANIC)
    else
      var header := HeaderAt(data);
      if IsValid(header, data) then Returns(Some(header)) else Returns(None)
  }

  /**
   * A file that starts with the bytes of a header whose sizes fit the file
   * parses to that header; with any of the three size conditions broken it
   * parses to None.
   */
  lemma ParseOfHeaderBytes(h: EfiCapsuleHeader, rest: seq<u8>)
    ensures var data := HeaderBytes(h) + rest;
      ParseCapsuleHeader(data) == Returns(if IsValid(h, data) then Some(h) else None)
  {
    HeaderRoundTrip(h, rest);
  }

  /** A valid header is never larger than the data it describes when the data fits a u32. */
  lemma ValidHeaderWithinData(h: EfiCapsuleHeader, data: seq<u8>)
    requires IsValid(h, data) && |data| < 0x1_0000_0000
    ensures HEADER_LEN <= h.headerSize <= |data| && h.capsuleImageSize == |data|
  {
  }

  /** The winux.bin test header: the Windows UX GUID, a 28-byte header, flag 0x10000 and 676898 bytes. */
  function WinuxExpectedHeader(winux: Guid.CGuid): EfiCapsuleHeader
  {
    EfiCapsuleHeader(winux, 28, 65536, 676898)
  }

  /** Any 676898-byte file that starts with that header parses to it. */
  lemma WinuxHeaderParses(winux: Guid.CGuid, rest: seq<u8>)
    requires |rest| == 676898 - HEADER_LEN
    ensures ParseCapsuleHeader(HeaderBytes(WinuxExpectedHeader(winux)) + rest) == Returns(Some(WinuxExpectedHeader(winux)))
  {
    var h := WinuxExpectedHeader(winux);
    var data := HeaderBytes(h) + rest;
    ParseOfHeaderBytes(h, rest);
    SmallLength(data);
    assert IsValid(h, data);
  }

  /** The winux.bin header's only capsule flag is "persist across reset". */
  lemma WinuxFlags()
    ensures ReportedFlags(65536) == [CAPSULE_FLAGS_PERSIST_ACROSS_RESET]
  {
    assert HasFlag(65536, CAPSULE_FLAGS_PERSIST_ACROSS_RESET);
    assert !HasFlag(65536, CAPSULE_FLAGS_POPULATE_SYSTEM_TABLE);
    assert !HasFlag(65536, CAPSULE_FLAGS_INITIATE_RESET);
  }

  /** `data.len() as u32` is the length itself below 2^32. */
  lemma SmallLength(data: seq<u8>)
    requires |data| < 0x1_0000_0000
    ensures |data| % 0x1_0000_0000 == |data|
  {
  }

  // ---------------------------------------------------------------------
  // Capsule flags

  /** `flags & mask != 0` for a single-bit mask. */
  predicate HasFlag(flags: u32, mask: u32)
  {
    ((flags as bv32) & (mask as bv32)) != 0
  }

  /** The flags `print_capsule_flags` reports, in the order it prints them. */
  function ReportedFlags(flags: u32): (r: seq<u32>)
    ensures forall m :: m in r <==> m in {CAPSULE_FLAGS_PERSIST_ACROSS_RESET, CAPSULE_FLAGS_POPULATE_SYSTEM_TABLE,
                                          CAPSULE_FLAGS_INITIATE_RESET} && HasFlag(flags, m)
  {
    (if HasFlag(flags, CAPSULE_FLAGS_PERSIST_ACROSS_RESET) then [CAPSULE_FLAGS_PERSIST_ACROSS_RESET] else []) +
    (if HasFlag(flags, CAPSULE_FLAGS_POPULATE_SYSTEM_TABLE) then [CAPSULE_FLAGS_POPULATE_SYSTEM_TABLE] else []) +
    (if HasFlag(flags, CAPSULE_FLAGS_INITIATE_RESET) then [CAPSULE_FLAGS_INITIATE_RESET] else [])
  }

  /** The three flags are bits 16, 17 and 18 of the flags word. */
  lemma FlagBits(flags: u32)
    ensures HasFlag(flags, CAPSULE_FLAGS_PERSIST_ACROSS_RESET) <==> Bit(flags, 16)
    ensures HasFlag(flags, CAPSULE_FLAGS_POPULATE_SYSTEM_TABLE) <==> Bit(flags, 17)
    ensures HasFlag(flags, CAPSULE_FLAGS_INITIATE_RESET) <==> Bit(flags, 18)
  {
    Pow2Bits();
  }

  lemma Pow2Bits()
    ensures Pow2(16) == 0x1_0000 && Pow2(17) == 0x2_0000 && Pow2(18) == 0x4_0000
  {
    assert Pow2(4) == 16;
    assert Pow2(8) == 256 by { assert Pow2(8) == 16 * Pow2(4); }
    assert Pow2(12) == 0x1000 by { assert Pow2(12) == 16 * Pow2(8); }
    assert Pow2(16) == 0x1_0000 by { assert Pow2(16) == 16 * Pow2(12); }
  }

  // ---------------------------------------------------------------------
  // Display capsules

  /** The display capsule read from the first 44 bytes. */
  function DisplayCapsuleAt(b: seq<u8>): DisplayCapsule
    requires DISPLAY_CAPSULE_LEN <= |b|
  {
    DisplayCapsule(HeaderAt(b),
      DisplayPayload(b[28], b[29], b[30], b[31], Le32At(b, 32), Le32At(b, 36), Le32At(b, 40)))
  }

  /** `parse_ux_header`: the first 44 bytes, unchecked; shorter data panics on the slice. */
  function ParseUxHeader(data: seq<u8>): (r: Outcome<DisplayCapsule>)
    ensures r.Panics? <==> |data| < DISPLAY_CAPSULE_LEN
    ensures r.Returns? ==> r.value.capsuleHeader == HeaderAt(data)
    ensures r.Returns? ==> r.value.imagePayload.version == data[28] && r.value.imagePayload.imageType == data[30]
    ensures r.Returns? ==> r.value.imagePayload.offsetY == Le32At(data, 40)
  {
    if |data| < DISPLAY_CAPSULE_LEN then Panics(SLICE_PANIC) else Returns(DisplayCapsuleAt(data))
  }

  /**
   * The image size `print_ux_header` and `dump_winux_image` compute: the
   * capsule image size less the 44-byte display capsule header, as usize
   * (wrapping in a release build when the capsule is shorter than that).
   */
  function UxImageSize(header: DisplayCapsule): (r: nat)
    ensures r < USIZE_LIMIT
    ensures header.capsuleHeader.capsuleImageSize >= DISPLAY_CAPSULE_LEN ==>
      r + DISPLAY_CAPSULE_LEN == header.capsuleHeader.capsuleImageSize
  {
    var size := header.capsuleHeader.capsuleImageSize;
    if size >= DISPLAY_CAPSULE_LEN then size - DISPLAY_CAPSULE_LEN else size - DISPLAY_CAPSULE_LEN + USIZE_LIMIT
  }

  /**
   * The image `dump_winux_image` writes, as written: `data[44..image_size]`,
   * which uses the image's length as the slice's end; it panics unless
   * 44 <= image_size <= |data|.
   */
  function WinuxImageAsWritten(data: seq<u8>, header: DisplayCapsule): (r: Outcome<seq<u8>>)
    ensures r.Returns? <==> DISPLAY_CAPSULE_LEN <= UxImageSize(header) <= |data|
    ensures r.Returns? ==> |r.value| == UxImageSize(header) - DISPLAY_CAPSULE_LEN
  {
    var imageSize := UxImageSize(header);
    if imageSize > |data| then Panics(SLICE_PANIC)
    else if imageSize < DISPLAY_CAPSULE_LEN then Panics(SLICE_ORDER_PANIC)
    else Returns(data[DISPLAY_CAPSULE_LEN..imageSize])
  }

  /**
   * The image as evidently intended: the `image_size` bytes that follow the
   * display capsule header, which for a valid capsule is everything after
   * the header up to the end of the file.
   */
  function WinuxImage(data: seq<u8>, header: DisplayCapsule): (r: Outcome<seq<u8>>)
    ensures r.Returns? <==> DISPLAY_CAPSULE_LEN <= header.capsuleHeader.capsuleImageSize <= |data|
    ensures r.Returns? ==> |r.value| == UxImageSize(header)
    ensures r.Returns? ==> DISPLAY_CAPSULE_LEN + |r.value| == header.capsuleHeader.capsuleImageSize
  {
    var size := header.capsuleHeader.capsuleImageSize;
    if size < DISPLAY_CAPSULE_LEN || size > |data| then Panics(SLICE_PANIC)
    else Returns(data[DISPLAY_CAPSULE_LEN..size])
  }

  /**
   * For a display capsule whose header is valid for the file, the intended
   * image is the whole rest of the file after the 44-byte header.
   */
  lemma WinuxImageIsRest(data: seq<u8>, header: DisplayCapsule)
    requires DISPLAY_CAPSULE_LEN <= |data| < 0x1_0000_0000
    requires IsValid(header.capsuleHeader, data)
    ensures WinuxImage(data, header) == Returns(data[DISPLAY_CAPSULE_LEN..])
    ensures data[..DISPLAY_CAPSULE_LEN] + WinuxImage(data, header).value == data
  {
    SmallLength(data);
    var size := header.capsuleHeader.capsuleImageSize;
    assert data[DISPLAY_CAPSULE_LEN..size] == data[DISPLAY_CAPSULE_LEN..];
  }

  /**
   * The source as written drops the last 44 bytes of the image: for a
   * display capsule valid for a 100-byte file it writes 12 bytes where the
   * image has 56.
   */
  lemma WinuxImageAsWrittenShort(data: seq<u8>, header: DisplayCapsule)
    requires |data| == 100 && IsValid(header.capsuleHeader, data)
    ensures WinuxImageAsWritten(data, header) == Returns(data[44..56])
    ensures WinuxImage(data, header) == Returns(data[44..])
  {
    SmallLength(data);
    assert UxImageSize(header) == 56;
    assert data[44..header.capsuleHeader.capsuleImageSize] == data[44..];
  }
}
