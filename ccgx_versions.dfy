/**
 * Version records of the Cypress CCGx PD controllers: the 4-byte base
 * version (build number, patch, major.minor nibbles), the 4-byte
 * application version (a two-letter application tag, circuit, major.minor
 * nibbles), their dotted renderings, and the two-controller query.
 */
module Ccgx {
  import opened Common
  import Text

  /** `BaseVersion`: X.Y.Z.BB. */
  datatype BaseVersion = BaseVersion(major: u8, minor: u8, patch: u8, buildNumber: u16)

  /** `Application`: the firmware's application tag. */
  datatype Application = Notebook | Monitor | Invalid

  /** `AppVersion`: X.Y.Z of the application firmware. */
  datatype AppVersion = AppVersion(application: Application, major: u8, minor: u8, circuit: u8)

  datatype ControllerVersion = ControllerVersion(base: BaseVersion, app: AppVersion)

  datatype PdVersions = PdVersions(controller01: ControllerVersion, controller23: ControllerVersion)

  /** `MainPdVersions`: what the EC reports about its PD controllers. */
  datatype MainPdVersions =
    | Single(only: ControllerVersion)
    | RightLeft(right: ControllerVersion, left: ControllerVersion)
    | Many(versions: seq<ControllerVersion>)

  /** `PdPort`: the controller serving the left ports 0/1 or the right ports 2/3. */
  datatype PdPort = Left01 | Right23

  const INDEX_PANIC: string := "index out of bounds"

  /** A version's major and minor nibbles fit in 4 bits each. */
  predicate NibblesFit(major: u8, minor: u8)
  {
    major < 16 && minor < 16
  }

  /**
   * `BaseVersion::from`: the build number is the little-endian u16 of bytes
   * 0 and 1, the patch is byte 2, and byte 3 holds major (high nibble) and
   * minor (low nibble).  Fewer than 4 bytes is an index panic.
   */
  function BaseVersionOf(data: seq<u8>): (r: Outcome<BaseVersion>)
    ensures r.Returns? <==> |data| >= 4
    ensures r.Returns? ==> var v := r.value;
      && v.buildNumber == Le16At(data, 0) && v.patch == data[2]
      && NibblesFit(v.major, v.minor) && v.major * 16 + v.minor == data[3]
  {
    if |data| < 4 then Panics(INDEX_PANIC)
    else Returns(BaseVersion(data[3] / 16, data[3] % 16, data[2], Le16(data[0], data[1])))
  }

  /** The 4 bytes a base version is stored as. */
  function BaseVersionBytes(v: BaseVersion): (r: seq<u8>)
    requires NibblesFit(v.major, v.minor)
    ensures |r| == 4
  {
    Le16Bytes(v.buildNumber) + [v.patch, v.major * 16 + v.minor]
  }

  /** Decoding is the inverse of the storage layout, in both directions. */
  lemma BaseVersionRoundTrip(v: BaseVersion, data: seq<u8>)
    ensures NibblesFit(v.major, v.minor) ==> BaseVersionOf(BaseVersionBytes(v)) == Returns(v)
    ensures |data| == 4 ==> BaseVersionBytes(BaseVersionOf(data).value) == data
  {
    if |data| == 4 {
      var b := BaseVersionBytes(BaseVersionOf(data).value);
      Le16BytesOfLe16At(data, 0);
      assert b[..2] == data[..2];
    }
  }

  /** The ASCII application tags "nb" and "md". */
  const TAG_NOTEBOOK: seq<u8> := [0x62, 0x6e]
  const TAG_MONITOR: seq<u8> := [0x64, 0x6d]

  /**
   * `AppVersion::from`: bytes 0..2 are the application tag, the ASCII name
   * stored as a little-endian u16 ("nb" notebook is 0x62 0x6E, "md" monitor
   * is 0x64 0x6D), anything else invalid, which only a debug build
   * asserts against), byte 2 the circuit and byte 3 the major/minor
   * nibbles.  Fewer than 4 bytes is an index panic.
   */
  function AppVersionOf(data: seq<u8>): (r: Outcome<AppVersion>)
    ensures r.Returns? <==> |data| >= 4
    ensures r.Returns? ==> var v := r.value;
      && (v.application == Notebook <==> data[..2] == TAG_NOTEBOOK)
      && (v.application == Monitor <==> data[..2] == TAG_MONITOR)
      && v.circuit == data[2]
      && NibblesFit(v.major, v.minor) && v.major * 16 + v.minor == data[3]
  {
    if |data| < 4 then Panics(INDEX_PANIC)
    else
      var application :=
        if data[0] == 0x62 && data[1] == 0x6e then Notebook
        else if data[0] == 0x64 && data[1] == 0x6d then Monitor
        else Invalid;
      Returns(AppVersion(application, data[3] / 16, data[3] % 16, data[2]))
  }

  /** Two version records, base then application, as the controller reports them. */
  function ControllerVersionOf(data: seq<u8>): (r: Outcome<ControllerVersion>)
    ensures r.Returns? <==> |data| >= 8
    ensures r.Returns? ==> r.value.base == BaseVersionOf(data[..4]).value && r.value.app == AppVersionOf(data[4..]).value
  {
    if |data| < 8 then Panics(INDEX_PANIC)
    else Returns(ControllerVersion(BaseVersionOf(data[..4]).value, AppVersionOf(data[4..]).value))
  }

  /** `Display for BaseVersion`: "major.minor.patch.build", all decimal. */
  function BaseVersionString(v: BaseVersion): string
  {
    Text.Join([Text.FormatDec(v.major), Text.FormatDec(v.minor), Text.FormatDec(v.patch),
               Text.FormatDec(v.buildNumber)], '.')
  }

  /** `Display for AppVersion`: "major.minor.circuit", all decimal; the tag is not shown. */
  function AppVersionString(v: AppVersion): string
  {
    Text.Join([Text.FormatDec(v.major), Text.FormatDec(v.minor), Text.FormatDec(v.circuit)], '.')
  }

  /** Reading a rendered base version back: four dot-separated decimal fields. */
  function ParseBaseVersion(s: string): (r: Option<BaseVersion>)
    ensures r.Some? ==> |Text.Split(s, '.')| == 4
  {
    var parts := Text.Split(s, '.');
    if |parts| != 4 then None
    else
      var major := Text.ParseUnsigned(parts[0], 10, 0xFF);
      var minor := Text.ParseUnsigned(parts[1], 10, 0xFF);
      var patch := Text.ParseUnsigned(parts[2], 10, 0xFF);
      var build := Text.ParseUnsigned(parts[3], 10, 0xFFFF);
      if major.None? || minor.None? || patch.None? || build.None? then None
      else Some(BaseVersion(major.value, minor.value, patch.value, build.value))
  }

  /** Reading a rendered application version back: three dot-separated decimal fields. */
  function ParseAppVersion(s: string, application: Application): (r: Option<AppVersion>)
    ensures r.Some? ==> |Text.Split(s, '.')| == 3 && r.value.application == application
  {
    var parts := Text.Split(s, '.');
    if |parts| != 3 then None
    else
      var major := Text.ParseUnsigned(parts[0], 10, 0xFF);
      var minor := Text.ParseUnsigned(parts[1], 10, 0xFF);
      var circuit := Text.ParseUnsigned(parts[2], 10, 0xFF);
      if major.None? || minor.None? || circuit.None? then None
      else Some(AppVersion(application, major.value, minor.value, circuit.value))
  }

  /** A decimal rendering has no '.' in it. */
  lemma DecimalHasNoDot(n: nat)
    ensures '.' !in Text.FormatDec(n)
  {
    var s := Text.FormatDec(n);
    Text.FormatRadixValue(n, 10, false);
    forall i | 0 <= i < |s| ensures s[i] != '.' {
      assert Text.DigitValue(s[i], 10).Some?;
    }
  }

  /** The rendering loses nothing: every field is recovered from the string. */
  lemma BaseVersionStringRoundTrip(v: BaseVersion)
    ensures ParseBaseVersion(BaseVersionString(v)) == Some(v)
  {
    var pieces := [Text.FormatDec(v.major), Text.FormatDec(v.minor), Text.FormatDec(v.patch),
                   Text.FormatDec(v.buildNumber)];
    DecimalHasNoDot(v.major);
    DecimalHasNoDot(v.minor);
    DecimalHasNoDot(v.patch);
    DecimalHasNoDot(v.buildNumber);
    Text.SplitJoin(pieces, '.');
    Text.ParseFormatDec(v.major, 0xFF);
    Text.ParseFormatDec(v.minor, 0xFF);
    Text.ParseFormatDec(v.patch, 0xFF);
    Text.ParseFormatDec(v.buildNumber, 0xFFFF);
  }

  /** The application rendering loses nothing but the tag. */
  lemma AppVersionStringRoundTrip(v: AppVersion)
    ensures ParseAppVersion(AppVersionString(v), v.application) == Some(v)
  {
    var pieces := [Text.FormatDec(v.major), Text.FormatDec(v.minor), Text.FormatDec(v.circuit)];
    DecimalHasNoDot(v.major);
    DecimalHasNoDot(v.minor);
    DecimalHasNoDot(v.circuit);
    Text.SplitJoin(pieces, '.');
    Text.ParseFormatDec(v.major, 0xFF);
    Text.ParseFormatDec(v.minor, 0xFF);
    Text.ParseFormatDec(v.circuit, 0xFF);
  }

  /**
   * `get_pd_controller_versions`: the left controller is queried first and
   * the right one only if that succeeded; either failure is the result.
   */
  function GetPdControllerVersions(query: PdPort -> Outcome<Option<ControllerVersion>>): (r: Outcome<Option<PdVersions>>)
    ensures r == Returns(None) <==>
      query(Left01) == Returns(None) || (query(Left01).Returns? && query(Left01).value.Some? && query(Right23) == Returns(None))
    ensures r.Returns? && r.value.Some? <==>
      query(Left01).Returns? && query(Left01).value.Some? && query(Right23).Returns? && query(Right23).value.Some?
    ensures r.Returns? && r.value.Some? ==>
      r.value.value == PdVersions(query(Left01).value.value, query(Right23).value.value)
  {
    match query(Left01)
    case Panics(why) => Panics(why)
    case Returns(None) => Returns(None)
    case Returns(Some(left)) =>
      match query(Right23)
      case Panics(why) => Panics(why)
      case Returns(None) => Returns(None)
      case Returns(Some(right)) => Returns(Some(PdVersions(left, right)))
  }
}
