/**
 * The version record of a Chrome EC firmware image: a packed structure at
 * offset 0x1158 framed by two cookies, whose 32-byte version string
 * ("hx30_v0.0.1-7a61a89") names the board, a three-digit version and the
 * commit it was built from.
 */
module EcBinary {
  import opened Common
  import Text
  import Utf8

  const CROS_EC_IMAGE_DATA_COOKIE1: u32 := 0xce77_8899
  const CROS_EC_IMAGE_DATA_COOKIE2: u32 := 0xceaa_bbdd
  /** Absolute offset of the version structure in the image. */
  const EC_VERSION_OFFSET: nat := 0x1158
  /** Size of a full EC image. */
  const EC_LEN: nat := 0x8_0000
  const VERSION_LEN: nat := 32
  /** `_ImageVersionData` packed: cookie, 32 version bytes, size, rollback version, cookie. */
  const IMAGE_DATA_LEN: nat := 48

  const SLICE_PANIC: string := "range start index out of range for slice"
  const UNWRAP_PANIC: string := "called `Option::unwrap()` on a `None` value"

  /** `_ImageVersionData`, field by field (little-endian). */
  datatype RawImageVersionData = RawImageVersionData(
    cookie1: u32, version: seq<u8>, size: u32, rollbackVersion: u32, cookie2: u32)

  /** `ImageVersionDetails`: what the version string says. */
  datatype ImageVersionDetails = ImageVersionDetails(
    platform: string, major: u32, minor: u32, patch: u32, commit: string)

  /** `ImageVersionData`. */
  datatype ImageVersionData = ImageVersionData(
    version: string, details: ImageVersionDetails, size: u32, rollbackVersion: u32)

  /** Reading the version structure, packed, from the bytes at its offset. */
  function RawOf(b: seq<u8>): (r: RawImageVersionData)
    requires |b| >= IMAGE_DATA_LEN
    ensures |r.version| == VERSION_LEN
  {
    RawImageVersionData(Le32At(b, 0), b[4..36], Le32At(b, 36), Le32At(b, 40), Le32At(b, 44))
  }

  /** A packed version structure's bytes. */
  function RawBytes(r: RawImageVersionData): (b: seq<u8>)
    requires |r.version| == VERSION_LEN
    ensures |b| == IMAGE_DATA_LEN
  {
    Le32Bytes(r.cookie1) + r.version + Le32Bytes(r.size) + Le32Bytes(r.rollbackVersion) + Le32Bytes(r.cookie2)
  }

  /** The structure's layout is read back exactly, in both directions. */
  lemma RawRoundTrip(r: RawImageVersionData, b: seq<u8>)
    requires |r.version| == VERSION_LEN && |b| == IMAGE_DATA_LEN
    ensures RawOf(RawBytes(r)) == r
    ensures RawBytes(RawOf(b)) == b
  {
    ReadRawBytes(r);
    WriteRawOf(b);
  }

  /** Reading the bytes written for a structure gives the structure. */
  lemma ReadRawBytes(r: RawImageVersionData)
    requires |r.version| == VERSION_LEN
    ensures RawOf(RawBytes(r)) == r
  {
    var e := RawBytes(r);
    assert e[0..4] == Le32Bytes(r.cookie1) && e[4..36] == r.version;
    assert e[36..40] == Le32Bytes(r.size) && e[40..44] == Le32Bytes(r.rollbackVersion);
    assert e[44..48] == Le32Bytes(r.cookie2);
    assert Le32At(e, 0) == Le32At(e[0..4], 0);
    assert Le32At(e, 36) == Le32At(e[36..40], 0);
    assert Le32At(e, 40) == Le32At(e[40..44], 0);
    assert Le32At(e, 44) == Le32At(e[44..48], 0);
  }

  /** Writing the structure read from 48 bytes gives those bytes. */
  lemma WriteRawOf(b: seq<u8>)
    requires |b| == IMAGE_DATA_LEN
    ensures RawBytes(RawOf(b)) == b
  {
    Le32BytesOfLe32At(b, 0);
    Le32BytesOfLe32At(b, 36);
    Le32BytesOfLe32At(b, 40);
    Le32BytesOfLe32At(b, 44);
    assert b == b[0..4] + b[4..36] + b[36..40] + b[40..44] + b[44..48];
  }

  // The pattern ([a-z0-9]+)_v([0-9])\.([0-9])\.([0-9])-([0-9a-f]+), unanchored.

  predicate IsPlatformChar(c: char) { 'a' <= c <= 'z' || '0' <= c <= '9' }

  predicate IsDigit(c: char) { '0' <= c <= '9' }

  predicate IsCommitChar(c: char) { '0' <= c <= '9' || 'a' <= c <= 'f' }

  /** End of the run of platform characters starting at `i`. */
  function PlatformRunEnd(s: string, i: nat): (r: nat)
    requires i <= |s|
    ensures i <= r <= |s| && (r == |s| || !IsPlatformChar(s[r]))
    ensures forall k :: i <= k < r ==> IsPlatformChar(s[k])
    decreases |s| - i
  {
    if i < |s| && IsPlatformChar(s[i]) then PlatformRunEnd(s, i + 1) else i
  }

  /** End of the run of lower-case hexadecimal characters starting at `i`. */
  function CommitRunEnd(s: string, i: nat): (r: nat)
    requires i <= |s|
    ensures i <= r <= |s| && (r == |s| || !IsCommitChar(s[r]))
    ensures forall k :: i <= k < r ==> IsCommitChar(s[k])
    decreases |s| - i
  {
    if i < |s| && IsCommitChar(s[i]) then CommitRunEnd(s, i + 1) else i
  }

  function DigitOf(c: char): (n: u32)
    requires IsDigit(c)
    ensures n < 10
  {
    c as int - '0' as int
  }

  /**
   * The match starting at `i`, if any.  Both repetitions are greedy and
   * neither can be followed by a character of its own class, so the
   * platform is the whole run of [a-z0-9] from `i` and the commit the whole
   * run of [0-9a-f] after the '-'.
   */
  function MatchAt(s: string, i: nat): (r: Option<ImageVersionDetails>)
    requires i <= |s|
    ensures r.Some? ==> |r.value.platform| >= 1 && |r.value.commit| >= 1
  {
    var j := PlatformRunEnd(s, i);
    if j == i || j + 9 > |s| then None
    else if !(s[j] == '_' && s[j + 1] == 'v' && IsDigit(s[j + 2]) && s[j + 3] == '.' && IsDigit(s[j + 4])
              && s[j + 5] == '.' && IsDigit(s[j + 6]) && s[j + 7] == '-') then None
    else
      var k := CommitRunEnd(s, j + 8);
      if k == j + 8 then None
      else Some(ImageVersionDetails(s[i..j], DigitOf(s[j + 2]), DigitOf(s[j + 4]), DigitOf(s[j + 6]), s[j + 8..k]))
  }

  /** The leftmost position at or after `from` where the pattern matches. */
  function FindMatch(s: string, from: nat): (r: Option<nat>)
    requires from <= |s|
    ensures r.Some? ==> from <= r.value <= |s| && MatchAt(s, r.value).Some?
    ensures r.Some? ==> forall j :: from <= j < r.value ==> MatchAt(s, j).None?
    ensures r.None? ==> forall j :: from <= j <= |s| ==> MatchAt(s, j).None?
    decreases |s| - from
  {
    if MatchAt(s, from).Some? then Some(from)
    else if from == |s| then None
    else FindMatch(s, from + 1)
  }

  /**
   * `parse_ec_version_str`: the captures of the leftmost match; no match
   * panics on `unwrap`.  Every capture group takes part in a match and a
   * single digit always parses, so the `?`s never return None.
   */
  function ParseEcVersionStr(version: string): (r: Outcome<Option<ImageVersionDetails>>)
    ensures r.Returns? <==> exists i :: 0 <= i <= |version| && MatchAt(version, i).Some?
    ensures r.Returns? ==> r.value.Some? && r.value == MatchAt(version, FindMatch(version, 0).value)
  {
    match FindMatch(version, 0)
    case None => Panics(UNWRAP_PANIC)
    case Some(i) => Returns(MatchAt(version, i))
  }

  /** Details that a version string can express. */
  predicate WellFormedDetails(d: ImageVersionDetails)
  {
    && |d.platform| >= 1 && (forall k :: 0 <= k < |d.platform| ==> IsPlatformChar(d.platform[k]))
    && d.major < 10 && d.minor < 10 && d.patch < 10
    && |d.commit| >= 1 && (forall k :: 0 <= k < |d.commit| ==> IsCommitChar(d.commit[k]))
  }

  function DigitChar(n: nat): (c: char)
    requires n < 10
    ensures IsDigit(c) && DigitOf(c) == n
  {
    ('0' as int + n) as char
  }

  /** The version string the build writes: board "_v" X "." Y "." Z "-" commit. */
  function Render(d: ImageVersionDetails): (s: string)
    requires WellFormedDetails(d)
  {
    d.platform + Separator(d) + d.commit
  }

  /** The eight characters between board and commit: "_v" X "." Y "." Z "-". */
  function Separator(d: ImageVersionDetails): string
    requires WellFormedDetails(d)
  {
    ['_', 'v', DigitChar(d.major), '.', DigitChar(d.minor), '.', DigitChar(d.patch), '-']
  }

  /**
   * Parsing a rendered version string, followed by anything that does not
   * continue the commit hash, gives the details back.
   */
  lemma ParseRendered(d: ImageVersionDetails, suffix: string)
    requires WellFormedDetails(d)
    requires suffix == [] || !IsCommitChar(suffix[0])
    ensures ParseEcVersionStr(Render(d) + suffix) == Returns(Some(d))
  {
    MatchRendered(d, suffix);
  }

  /** The pattern matches a rendered version string at its start, capturing the details. */
  lemma MatchRendered(d: ImageVersionDetails, suffix: string)
    requires WellFormedDetails(d)
    requires suffix == [] || !IsCommitChar(suffix[0])
    ensures MatchAt(Render(d) + suffix, 0) == Some(d)
  {
    var sep := Separator(d);
    var s := Render(d) + suffix;
    var n := |d.platform|;
    Pieces(d.platform, sep, d.commit, suffix);
    PlatformRunOf(d.platform, sep + d.commit + suffix);
    CommitRunOf(d.platform + sep, d.commit, suffix);
    var mid := s[n..n + 8];
    assert s[n] == mid[0] && s[n + 1] == mid[1] && s[n + 2] == mid[2] && s[n + 3] == mid[3];
    assert s[n + 4] == mid[4] && s[n + 5] == mid[5] && s[n + 6] == mid[6] && s[n + 7] == mid[7];
  }

  /** The slices of four concatenated pieces. */
  lemma Pieces(a: string, b: string, c: string, e: string)
    ensures var s, i, j, k := a + b + c + e, |a|, |a| + |b|, |a| + |b| + |c|;
      && s[0..i] == a && s[i..j] == b && s[j..k] == c && s[k..] == e
      && a + (b + c + e) == s && (a + b) + c + e == s
  {
  }

  /** The platform run of a platform followed by '_' is the platform. */
  lemma PlatformRunOf(platform: string, rest: string)
    requires forall k :: 0 <= k < |platform| ==> IsPlatformChar(platform[k])
    requires |rest| > 0 && rest[0] == '_'
    ensures PlatformRunEnd(platform + rest, 0) == |platform|
  {
    PlatformRunAt(platform + rest, 0, |platform|);
  }

  /** The commit run of a commit placed after `pre` and before a non-commit character is the commit. */
  lemma CommitRunOf(pre: string, commit: string, suffix: string)
    requires forall k :: 0 <= k < |commit| ==> IsCommitChar(commit[k])
    requires suffix == [] || !IsCommitChar(suffix[0])
    ensures CommitRunEnd(pre + commit + suffix, |pre|) == |pre| + |commit|
  {
    CommitRunAt(pre + commit + suffix, |pre|, |pre| + |commit|);
  }

  /** A run of platform characters ending before a non-platform character is the run. */
  lemma {:induction false} PlatformRunAt(s: string, i: nat, e: nat)
    requires i <= e <= |s|
    requires forall k :: i <= k < e ==> IsPlatformChar(s[k])
    requires e == |s| || !IsPlatformChar(s[e])
    ensures PlatformRunEnd(s, i) == e
    decreases e - i
  {
    if i < e {
      PlatformRunAt(s, i + 1, e);
    }
  }

  /** A run of commit characters ending before a non-commit character is the run. */
  lemma {:induction false} CommitRunAt(s: string, i: nat, e: nat)
    requires i <= e <= |s|
    requires forall k :: i <= k < e ==> IsCommitChar(s[k])
    requires e == |s| || !IsCommitChar(s[e])
    ensures CommitRunEnd(s, i) == e
    decreases e - i
  {
    if i < e {
      CommitRunAt(s, i + 1, e);
    }
  }

  /** The example of the source's documentation. */
  lemma ParseExample()
    ensures ParseEcVersionStr("hx30_v0.0.1-7a61a89") ==
      Returns(Some(ImageVersionDetails("hx30", 0, 0, 1, "7a61a89")))
  {
    var d := ImageVersionDetails("hx30", 0, 0, 1, "7a61a89");
    assert Render(d) == "hx30_v0.0.1-7a61a89";
    ParseRendered(d, "");
    assert Render(d) + "" == Render(d);
  }

  /**
   * `parse_ec_version`: the version bytes must be UTF-8 (otherwise None);
   * trailing NULs are dropped; size and rollback version are copied.
   */
  function ParseEcVersion(raw: RawImageVersionData): (r: Outcome<Option<ImageVersionData>>)
    ensures Utf8.Decode(raw.version).None? ==> r == Returns(None)
    ensures r.Returns? && r.value.Some? ==>
      && Utf8.Decode(raw.version).Some?
      && r.value.value.version == Text.TrimEndMatches(Utf8.Decode(raw.version).value, '\0')
      && Returns(Some(r.value.value.details)) == ParseEcVersionStr(r.value.value.version)
      && r.value.value.size == raw.size && r.value.value.rollbackVersion == raw.rollbackVersion
  {
    match Utf8.Decode(raw.version)
    case None => Returns(None)
    case Some(text) =>
      var version := Text.TrimEndMatches(text, '\0');
      var details :- ParseEcVersionStr(version);
      match details
      case None => Returns(None)
      case Some(dt) => Returns(Some(ImageVersionData(version, dt, raw.size, raw.rollbackVersion)))
  }

  /** The details the UEFI build reports: it has no `regex`, so every field is empty or zero. */
  const NO_DETAILS := ImageVersionDetails("", 0, 0, 0, "")

  /**
   * `parse_ec_version` of the UEFI build: the version string without its
   * NUL padding, empty details, and the size and rollback version copied;
   * only bytes that are not UTF-8 give None.
   */
  function ParseEcVersionUefi(raw: RawImageVersionData): (r: Option<ImageVersionData>)
    ensures r.None? <==> Utf8.Decode(raw.version).None?
    ensures r.Some? ==>
      && r.value.version == Text.TrimEndMatches(Utf8.Decode(raw.version).value, '\0')
      && r.value.details == NO_DETAILS
      && r.value.size == raw.size && r.value.rollbackVersion == raw.rollbackVersion
  {
    match Utf8.Decode(raw.version)
    case None => None
    case Some(text) => Some(ImageVersionData(Text.TrimEndMatches(text, '\0'), NO_DETAILS, raw.size, raw.rollbackVersion))
  }

  /**
   * The two builds read the same structure alike except for the details:
   * whenever the full build parses a version, the UEFI build reports the
   * same string, size and rollback version, with empty details.
   */
  lemma UefiAgreesOnVersion(raw: RawImageVersionData)
    ensures ParseEcVersion(raw).Returns? && ParseEcVersion(raw).value.Some? ==>
      ParseEcVersionUefi(raw) == Some(ParseEcVersion(raw).value.value.(details := NO_DETAILS))
  {
  }

  /** Both cookies frame the structure. */
  predicate CookiesMatch(raw: RawImageVersionData)
  {
    raw.cookie1 == CROS_EC_IMAGE_DATA_COOKIE1 && raw.cookie2 == CROS_EC_IMAGE_DATA_COOKIE2
  }

  /**
   * `read_ec_version`: the structure at 0x1158, accepted only between the
   * two cookies.  An image shorter than the offset panics on the slice;
   * reading the structure from an image that ends inside it is undefined
   * behaviour in the source, which callers must avoid.
   */
  function ReadEcVersion(data: seq<u8>): (r: Outcome<Option<ImageVersionData>>)
    requires |data| < EC_VERSION_OFFSET || |data| >= EC_VERSION_OFFSET + IMAGE_DATA_LEN
    ensures r.Panics? <==> |data| < EC_VERSION_OFFSET || (CookiesMatch(RawOf(data[EC_VERSION_OFFSET..])) &&
                                                         ParseEcVersion(RawOf(data[EC_VERSION_OFFSET..])).Panics?)
    ensures r.Returns? && r.value.Some? ==>
      CookiesMatch(RawOf(data[EC_VERSION_OFFSET..])) && r == ParseEcVersion(RawOf(data[EC_VERSION_OFFSET..]))
  {
    if |data| < EC_VERSION_OFFSET then Panics(SLICE_PANIC)
    else
      var v := RawOf(data[EC_VERSION_OFFSET..]);
      if v.cookie1 != CROS_EC_IMAGE_DATA_COOKIE1 then Returns(None)
      else if v.cookie2 != CROS_EC_IMAGE_DATA_COOKIE2 then Returns(None)
      else ParseEcVersion(v)
  }

  /** `n` NUL characters. */
  function Nuls(n: nat): (s: string)
    ensures |s| == n && forall k :: 0 <= k < n ==> s[k] == '\0'
  {
    seq(n, _ => '\0')
  }

  /** Trailing NULs come off and nothing else does. */
  lemma {:induction false} TrimNuls(s: string, n: nat)
    requires s == [] || s[|s| - 1] != '\0'
    ensures Text.TrimEndMatches(s + Nuls(n), '\0') == s
  {
    if n > 0 {
      assert (s + Nuls(n))[..|s + Nuls(n)| - 1] == s + Nuls(n - 1);
      TrimNuls(s, n - 1);
    } else {
      assert s + Nuls(n) == s;
    }
  }

  /**
   * An image whose structure carries both cookies and a rendered version
   * string padded with NULs to 32 bytes reads back as that version, its
   * details, and the stored size and rollback version.
   */
  lemma ReadEcVersionOfImage(prefix: seq<u8>, d: ImageVersionDetails, size: u32, rollback: u32, rest: seq<u8>)
    requires |prefix| == EC_VERSION_OFFSET
    requires WellFormedDetails(d) && |Utf8.Encode(Render(d))| <= VERSION_LEN
    ensures var text := Render(d);
      var raw := RawImageVersionData(CROS_EC_IMAGE_DATA_COOKIE1,
                   Utf8.Encode(text + Nuls(VERSION_LEN - |Utf8.Encode(text)|)), size, rollback,
                   CROS_EC_IMAGE_DATA_COOKIE2);
      |raw.version| == VERSION_LEN &&
      ReadEcVersion(prefix + RawBytes(raw) + rest) == Returns(Some(ImageVersionData(text, d, size, rollback)))
  {
    var text := Render(d);
    var pad := Nuls(VERSION_LEN - |Utf8.Encode(text)|);
    Utf8.EncodeAppend(text, pad);
    Utf8.EncodeAscii(pad);
    var raw := RawImageVersionData(CROS_EC_IMAGE_DATA_COOKIE1, Utf8.Encode(text + pad), size, rollback,
                                   CROS_EC_IMAGE_DATA_COOKIE2);
    assert |raw.version| == VERSION_LEN;
    ReadPlaced(prefix, raw, rest);
    ParsePadded(d, pad, raw);
  }

  /** A structure with both cookies placed at 0x1158 is parsed as it stands. */
  lemma ReadPlaced(prefix: seq<u8>, raw: RawImageVersionData, rest: seq<u8>)
    requires |prefix| == EC_VERSION_OFFSET && |raw.version| == VERSION_LEN && CookiesMatch(raw)
    ensures ReadEcVersion(prefix + RawBytes(raw) + rest) == ParseEcVersion(raw)
  {
    var data := prefix + RawBytes(raw) + rest;
    assert data[EC_VERSION_OFFSET..][..IMAGE_DATA_LEN] == RawBytes(raw);
    RawRoundTrip(raw, RawBytes(raw));
    assert RawOf(data[EC_VERSION_OFFSET..]) == RawOf(RawBytes(raw)) by {
      RawOfPrefix(data[EC_VERSION_OFFSET..]);
    }
  }

  /** Version bytes holding a rendered version and NUL padding parse back to it. */
  lemma ParsePadded(d: ImageVersionDetails, pad: string, raw: RawImageVersionData)
    requires WellFormedDetails(d) && pad == Nuls(|pad|) && raw.version == Utf8.Encode(Render(d) + pad)
    ensures ParseEcVersion(raw) == Returns(Some(ImageVersionData(Render(d), d, raw.size, raw.rollbackVersion)))
  {
    var text := Render(d);
    LastOfAppend(d.platform + Separator(d), d.commit);
    assert ParseEcVersionStr(text) == Returns(Some(d)) by {
      ParseRendered(d, "");
      assert text + "" == text;
    }
    DecodePadded(raw, text, pad, d);
  }

  /** A sequence ends with the last element of its last non-empty part. */
  lemma LastOfAppend(a: string, c: string)
    requires |c| > 0
    ensures (a + c)[|a + c| - 1] == c[|c| - 1]
  {
  }

  /** Version bytes holding a version string and NUL padding decode and trim back to it. */
  lemma DecodePadded(raw: RawImageVersionData, text: string, pad: string, d: ImageVersionDetails)
    requires text == [] || text[|text| - 1] != '\0'
    requires pad == Nuls(|pad|) && raw.version == Utf8.Encode(text + pad)
    requires ParseEcVersionStr(text) == Returns(Some(d))
    ensures ParseEcVersion(raw) == Returns(Some(ImageVersionData(text, d, raw.size, raw.rollbackVersion)))
  {
    Utf8.DecodeEncode(text + pad);
    TrimNuls(text, |pad|);
    ParseDecoded(raw, text + pad, text, d);
  }

  /** Decoded, trimmed and parsed: the structure's version is that string with those details. */
  lemma ParseDecoded(raw: RawImageVersionData, s: string, version: string, d: ImageVersionDetails)
    requires Utf8.Decode(raw.version) == Some(s) && Text.TrimEndMatches(s, '\0') == version
    requires ParseEcVersionStr(version) == Returns(Some(d))
    ensures ParseEcVersion(raw) == Returns(Some(ImageVersionData(version, d, raw.size, raw.rollbackVersion)))
  {
  }

  /** Only the first 48 bytes matter to the structure. */
  lemma RawOfPrefix(b: seq<u8>)
    requires |b| >= IMAGE_DATA_LEN
    ensures RawOf(b) == RawOf(b[..IMAGE_DATA_LEN])
  {
    var p := b[..IMAGE_DATA_LEN];
    assert b[4..36] == p[4..36];
    assert Le32At(b, 0) == Le32At(p, 0) && Le32At(b, 36) == Le32At(p, 36);
    assert Le32At(b, 40) == Le32At(p, 40) && Le32At(b, 44) == Le32At(p, 44);
  }
}
