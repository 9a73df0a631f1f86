/**
 * Version and payload lookups inside Framework's BIOS capsules: each finds
 * a marker with a first-occurrence search and reads fixed offsets after
 * it.  A missing marker gives None; a marker too close to the end of the
 * data makes the slice after it panic.
 */
module CapsuleContent {
  import opened Common
  import Utf8
  import EcBinary

  const SLICE_PANIC: string := "range end index out of range for slice"

  /** "$_RETIMER_PARAM_" */
  const RETIMER_NEEDLE: seq<u8> := [0x24, 0x5F, 0x52, 0x45, 0x54, 0x49, 0x4D, 0x45, 0x52, 0x5F, 0x50, 0x41, 0x52, 0x41, 0x4D, 0x5F]
  /** "$BVDT" */
  const BVDT_NEEDLE: seq<u8> := [0x24, 0x42, 0x56, 0x44, 0x54]
  /** "$_IFLASH_EC_IMG_" */
  const EC_NEEDLE: seq<u8> := [0x24, 0x5F, 0x49, 0x46, 0x4C, 0x41, 0x53, 0x48, 0x5F, 0x45, 0x43, 0x5F, 0x49, 0x4D, 0x47, 0x5F]
  /** The first bytes of a CCG5, CCG6 and CCG8 PD image. */
  const CCG5_NEEDLE: seq<u8> := [0x00, 0x20, 0x00, 0x20, 0x11, 0x00]
  const CCG6_NEEDLE: seq<u8> := [0x00, 0x40, 0x00, 0x20, 0x11, 0x00]
  const CCG8_NEEDLE: seq<u8> := [0x00, 0x80, 0x00, 0x20, 0xAD, 0x0C]

  /** `data[from..from + len]`, which panics past the end of the data. */
  function Slice(data: seq<u8>, from: nat, len: nat): (r: Outcome<seq<u8>>)
    ensures r.Returns? <==> from + len <= |data|
    ensures r.Returns? ==> r.value == data[from..from + len]
  {
    if from + len <= |data| then Returns(data[from..from + len]) else Panics(SLICE_PANIC)
  }

  /**
   * `find_retimer_version`: the little-endian u16 that lies 8 bytes after
   * the end of the first "$_RETIMER_PARAM_".
   */
  function FindRetimerVersion(data: seq<u8>): (r: Outcome<Option<u16>>)
    ensures Find(data, RETIMER_NEEDLE).None? ==> r == Returns(None)
    ensures Find(data, RETIMER_NEEDLE).Some? ==>
      var at := Find(data, RETIMER_NEEDLE).value + 8 + |RETIMER_NEEDLE|;
      && (r.Returns? <==> at + 2 <= |data|)
      && (r.Returns? ==> r.value.Some? && Le16Bytes(r.value.value) == data[at..at + 2])
  {
    match Find(data, RETIMER_NEEDLE)
    case None => Returns(None)
    case Some(found) =>
      var offset := found + 0x8 + |RETIMER_NEEDLE|;
      var bytes :- Slice(data, offset, 2);
      Le16BytesOfLe16At(bytes, 0);
      Returns(Some(Le16At(bytes, 0)))
  }

  datatype BiosCapsule = BiosCapsule(platform: string, version: string)

  /**
   * `find_bios_version`: after the first "$BVDT", the platform is the 5
   * bytes at offset 14 and the version the 5 bytes at offset 20, each
   * decoded as UTF-8; an undecodable field gives None.  The platform is
   * sliced and decoded before the version is sliced.
   */
  function FindBiosVersion(data: seq<u8>): (r: Outcome<Option<BiosCapsule>>)
    ensures Find(data, BVDT_NEEDLE).None? ==> r == Returns(None)
    ensures r.Returns? && r.value.Some? ==>
      && Find(data, BVDT_NEEDLE).Some?
      && var found := Find(data, BVDT_NEEDLE).value;
      && found + 25 <= |data|
      && Utf8.Decode(data[found + 14..found + 19]) == Some(r.value.value.platform)
      && Utf8.Decode(data[found + 20..found + 25]) == Some(r.value.value.version)
    ensures Find(data, BVDT_NEEDLE).Some? ==>
      var found := Find(data, BVDT_NEEDLE).value;
      r.Panics? <==> found + 19 > |data| || (Utf8.Decode(data[found + 14..found + 19]).Some? && found + 25 > |data|)
  {
    match Find(data, BVDT_NEEDLE)
    case None => Returns(None)
    case Some(found) =>
      var platformOffset := found + 0xA + |BVDT_NEEDLE| - 1;
      var platformBytes :- Slice(data, platformOffset, 5);
      match Utf8.Decode(platformBytes)
      case None => Returns(None)
      case Some(platform) =>
        var verOffset := found + 0x10 + |BVDT_NEEDLE| - 1;
        var versionBytes :- Slice(data, verOffset, 5);
        match Utf8.Decode(versionBytes)
        case None => Returns(None)
        case Some(version) => Returns(Some(BiosCapsule(platform, version)))
  }

  /**
   * A capsule that holds "$BVDT" with an ASCII platform and version at
   * offsets 14 and 20 (as "HFW30" and "03.04" are) reports exactly those
   * strings.
   */
  lemma BiosVersionOfAscii(data: seq<u8>, found: nat, platform: string, version: string)
    requires Find(data, BVDT_NEEDLE) == Some(found) && found + 25 <= |data|
    requires forall i :: 0 <= i < |platform| ==> platform[i] as int < 0x80
    requires forall i :: 0 <= i < |version| ==> version[i] as int < 0x80
    requires data[found + 14..found + 19] == Ascii(platform) && data[found + 20..found + 25] == Ascii(version)
    ensures FindBiosVersion(data) == Returns(Some(BiosCapsule(platform, version)))
  {
    Utf8.EncodeAscii(platform);
    Utf8.EncodeAscii(version);
    Utf8.DecodeEncode(platform);
    Utf8.DecodeEncode(version);
  }

  /**
   * `find_ec_in_bios_cap`: the EC_LEN bytes that start 9 bytes before the
   * end of the first "$_IFLASH_EC_IMG_" plus one (offset found + 24).
   */
  function FindEcInBiosCap(data: seq<u8>): (r: Outcome<Option<seq<u8>>>)
    ensures Find(data, EC_NEEDLE).None? ==> r == Returns(None)
    ensures Find(data, EC_NEEDLE).Some? ==>
      var at := Find(data, EC_NEEDLE).value + 24;
      && (r.Returns? <==> at + EcBinary.EC_LEN <= |data|)
      && (r.Returns? ==> r.value == Some(data[at..at + EcBinary.EC_LEN]))
  {
    match Find(data, EC_NEEDLE)
    case None => Returns(None)
    case Some(found) =>
      var ecOffset := found + 0x9 + |EC_NEEDLE| - 1;
      var image :- Slice(data, ecOffset, EcBinary.EC_LEN);
      Returns(Some(image))
  }

  /** Image lengths of the three PD generations (defined outside the modelled files). */
  datatype PdLengths = PdLengths(ccg5: nat, ccg6: nat, ccg8: nat)

  /** The PD image of length `len` at `at`, as `Some`. */
  function PdAt(data: seq<u8>, at: nat, len: nat): (r: Outcome<Option<seq<u8>>>)
    ensures r.Returns? <==> at + len <= |data|
    ensures r.Returns? ==> r.value == Some(data[at..at + len])
  {
    var image :- Slice(data, at, len);
    Returns(Some(image))
  }

  /**
   * `find_pd_in_bios_cap`: the image at the first CCG5 signature if there
   * is one anywhere, else at the first CCG6 signature, else at the first
   * CCG8 signature; None when none occurs.  An image always starts with the
   * signature it was found by.
   */
  function FindPdInBiosCap(data: seq<u8>, lens: PdLengths): (r: Outcome<Option<seq<u8>>>)
    ensures r == Returns(None) <==>
      Find(data, CCG5_NEEDLE).None? && Find(data, CCG6_NEEDLE).None? && Find(data, CCG8_NEEDLE).None?
    ensures Find(data, CCG5_NEEDLE).Some? ==> r == PdAt(data, Find(data, CCG5_NEEDLE).value, lens.ccg5)
    ensures Find(data, CCG5_NEEDLE).None? && Find(data, CCG6_NEEDLE).Some? ==>
      r == PdAt(data, Find(data, CCG6_NEEDLE).value, lens.ccg6)
    ensures Find(data, CCG5_NEEDLE).None? && Find(data, CCG6_NEEDLE).None? && Find(data, CCG8_NEEDLE).Some? ==>
      r == PdAt(data, Find(data, CCG8_NEEDLE).value, lens.ccg8)
  {
    if Find(data, CCG5_NEEDLE).Some? then PdAt(data, Find(data, CCG5_NEEDLE).value, lens.ccg5)
    else if Find(data, CCG6_NEEDLE).Some? then PdAt(data, Find(data, CCG6_NEEDLE).value, lens.ccg6)
    else if Find(data, CCG8_NEEDLE).Some? then PdAt(data, Find(data, CCG8_NEEDLE).value, lens.ccg8)
    else Returns(None)
  }

  /** A PD image found in a capsule starts with the signature it was found by. */
  lemma PdImageSignature(data: seq<u8>, lens: PdLengths)
    requires lens.ccg5 >= 6 && lens.ccg6 >= 6 && lens.ccg8 >= 6
    requires FindPdInBiosCap(data, lens).Returns? && FindPdInBiosCap(data, lens).value.Some?
    ensures FindPdInBiosCap(data, lens).value.value[..6] in {CCG5_NEEDLE, CCG6_NEEDLE, CCG8_NEEDLE}
  {
    var image := FindPdInBiosCap(data, lens).value.value;
    if Find(data, CCG5_NEEDLE).Some? {
      var at := Find(data, CCG5_NEEDLE).value;
      assert image[..6] == data[at..at + 6] == CCG5_NEEDLE;
    } else if Find(data, CCG6_NEEDLE).Some? {
      var at := Find(data, CCG6_NEEDLE).value;
      assert image[..6] == data[at..at + 6] == CCG6_NEEDLE;
    } else {
      var at := Find(data, CCG8_NEEDLE).value;
      assert image[..6] == data[at..at + 6] == CCG8_NEEDLE;
    }
  }
}
