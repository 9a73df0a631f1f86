/**
 * Framework serial numbers: "FRA", a 3-letter product, a 2-letter OEM,
 * two configuration characters, a year digit, a 2-digit week, a weekday
 * and a 4-character part, found anywhere in the input.  The pattern has a
 * fixed length and no alternatives, so the leftmost regex match is the
 * first position where every character is in its class.
 */
module Serialnum {
  import opened Common
  import Text

  datatype Cfg0 =
    | Sku | Poc1 | Proto1 | Proto2 | Evt1 | Evt2 | Reserved | Dvt1 | Dvt2 | Pvt
    | MassProduction | MassProductionB | MassProductionC | MassProductionD
    | MassProductionE | MassProductionF

  /** `Cfg0::from_u8`: the discriminants 0x00..0x0F, in declaration order. */
  function Cfg0FromU8(n: nat): (r: Option<Cfg0>)
    ensures r.Some? <==> n <= 0x0F
  {
    match n
    case 0 => Some(Sku)
    case 1 => Some(Poc1)
    case 2 => Some(Proto1)
    case 3 => Some(Proto2)
    case 4 => Some(Evt1)
    case 5 => Some(Evt2)
    case 6 => Some(Reserved)
    case 7 => Some(Dvt1)
    case 8 => Some(Dvt2)
    case 9 => Some(Pvt)
    case 10 => Some(MassProduction)
    case 11 => Some(MassProductionB)
    case 12 => Some(MassProductionC)
    case 13 => Some(MassProductionD)
    case 14 => Some(MassProductionE)
    case 15 => Some(MassProductionF)
    case _ => None
  }

  /** The discriminant of a `Cfg0`. */
  function Cfg0Value(c: Cfg0): (n: nat)
    ensures Cfg0FromU8(n) == Some(c)
  {
    match c
    case Sku => 0
    case Poc1 => 1
    case Proto1 => 2
    case Proto2 => 3
    case Evt1 => 4
    case Evt2 => 5
    case Reserved => 6
    case Dvt1 => 7
    case Dvt2 => 8
    case Pvt => 9
    case MassProduction => 10
    case MassProductionB => 11
    case MassProductionC => 12
    case MassProductionD => 13
    case MassProductionE => 14
    case MassProductionF => 15
  }

  datatype WeekDay = Monday | Tuesday | Wednesday | Thursday | Friday | Saturday | Sunday

  /** The day digit 1..7 as Monday..Sunday; anything else has no day. */
  function WeekDayFrom(n: nat): (r: Option<WeekDay>)
    ensures r.Some? <==> 1 <= n <= 7
  {
    match n
    case 1 => Some(Monday)
    case 2 => Some(Tuesday)
    case 3 => Some(Wednesday)
    case 4 => Some(Thursday)
    case 5 => Some(Friday)
    case 6 => Some(Saturday)
    case 7 => Some(Sunday)
    case _ => None
  }

  function WeekDayValue(d: WeekDay): (n: nat)
    ensures 1 <= n <= 7 && WeekDayFrom(n) == Some(d)
  {
    match d
    case Monday => 1
    case Tuesday => 2
    case Wednesday => 3
    case Thursday => 4
    case Friday => 5
    case Saturday => 6
    case Sunday => 7
  }

  datatype FrameworkSerial = FrameworkSerial(
    product: string,
    oem: string,
    cfg0: Cfg0,
    cfg1: char,
    year: u16,
    week: u8,
    day: WeekDay,
    part: string)

  // ---------------------------------------------------------------------
  // The pattern FRA([A-Z]{3})([A-Z]{2})([0-9A-F])([0-9A-F])([0-9A-Z])([0-9]{2})([0-7])([0-9A-Z]{4})

  datatype CharClass = Lit(c: char) | Upper | HexUpper | Alnum | Digit | DayDigit

  predicate InClass(c: char, k: CharClass)
  {
    match k
    case Lit(l) => c == l
    case Upper => 'A' <= c <= 'Z'
    case HexUpper => '0' <= c <= '9' || 'A' <= c <= 'F'
    case Alnum => '0' <= c <= '9' || 'A' <= c <= 'Z'
    case Digit => '0' <= c <= '9'
    case DayDigit => '0' <= c <= '7'
  }

  const SERIAL_LEN: nat := 18

  /** One class per character of a match. */
  const PATTERN: seq<CharClass> := [
    Lit('F'), Lit('R'), Lit('A'),
    Upper, Upper, Upper,
    Upper, Upper,
    HexUpper,
    HexUpper,
    Alnum,
    Digit, Digit,
    DayDigit,
    Alnum, Alnum, Alnum, Alnum]

  predicate MatchesAt(s: string, i: nat)
  {
    i + SERIAL_LEN <= |s| && forall k :: 0 <= k < SERIAL_LEN ==> InClass(s[i + k], PATTERN[k])
  }

  /** The leftmost match at or after `from`. */
  function FirstMatch(s: string, from: nat): (r: Option<nat>)
    ensures r.Some? ==> from <= r.value && MatchesAt(s, r.value)
    ensures forall j :: from <= j && (r.None? || j < r.value) ==> !MatchesAt(s, j)
    decreases |s| - from
  {
    if from + SERIAL_LEN > |s| then None
    else if MatchesAt(s, from) then Some(from)
    else FirstMatch(s, from + 1)
  }

  const INVALID_SERIAL: string := "Invalid Serial"
  const INVALID_CFG0: string := "Invalid CFG0 'None'"
  const INVALID_DAY: string := "Invalid Day"
  const UNWRAP_PANIC: string := "called `Result::unwrap()` on an `Err` value"

  /**
   * Everything `from_str` decodes from the 18 characters of a match, with
   * the part taken from `partStart..partStart + partLen` of the match.
   */
  function Decode(m: string, partStart: nat, partLen: nat): (r: Outcome<Result<FrameworkSerial, string>>)
    requires |m| == SERIAL_LEN && partStart + partLen <= SERIAL_LEN
  {
    var cfg0Digit := Text.ParseUnsigned([m[8]], 10, U8_MAX);
    var cfg0 := if cfg0Digit.Some? then Cfg0FromU8(cfg0Digit.value) else None;
    if cfg0.None? then Returns(Err(INVALID_CFG0))
    else
      var cfg1 := m[9];
      match Text.ParseUnsigned([m[10]], 10, U16_MAX)
      case None => Panics(UNWRAP_PANIC)
      case Some(yearDigit) =>
        var year := 2020 + yearDigit;
        match Text.ParseUnsigned(m[11..13], 10, U8_MAX)
        case None => Panics(UNWRAP_PANIC)
        case Some(week) =>
          match Text.ParseUnsigned([m[13]], 10, U8_MAX)
          case None => Panics(UNWRAP_PANIC)
          case Some(dayDigit) =>
            match WeekDayFrom(dayDigit)
            case None => Returns(Err(INVALID_DAY))
            case Some(day) =>
              if year > U16_MAX then Panics("attempt to add with overflow")
              else Returns(Ok(FrameworkSerial(m[3..6], m[6..8], cfg0.value, cfg1, year, week, day, m[partStart..partStart + partLen])))
  }

  /** `FrameworkSerial::from_str` as written: `part` is filled from capture 2, the OEM. */
  function FromStrAsWritten(s: string): (r: Outcome<Result<FrameworkSerial, string>>)
    ensures FirstMatch(s, 0).None? <==> r == Returns(Err(INVALID_SERIAL))
  {
    match FirstMatch(s, 0)
    case None => Returns(Err(INVALID_SERIAL))
    case Some(i) => Decode(s[i..i + SERIAL_LEN], 6, 2)
  }

  /** `FrameworkSerial::from_str` with `part` taken from capture 8, the four-character group. */
  function FromStr(s: string): (r: Outcome<Result<FrameworkSerial, string>>)
    ensures FirstMatch(s, 0).None? <==> r == Returns(Err(INVALID_SERIAL))
  {
    match FirstMatch(s, 0)
    case None => Returns(Err(INVALID_SERIAL))
    case Some(i) => Decode(s[i..i + SERIAL_LEN], 14, 4)
  }

  lemma SingleDigit(c: char)
    requires '0' <= c <= '9'
    ensures Text.ParseUnsigned([c], 10, U8_MAX) == Some(c as int - '0' as int)
    ensures Text.ParseUnsigned([c], 10, U16_MAX) == Some(c as int - '0' as int)
  {
    Text.ParseDigits([c], 10, U8_MAX);
    Text.ParseDigits([c], 10, U16_MAX);
  }

  lemma LetterNotDigit(c: char, max: nat)
    requires 'A' <= c <= 'Z'
    ensures Text.ParseUnsigned([c], 10, max) == None
  {
    assert Text.DigitValue(c, 10).None?;
  }

  /**
   * The configuration character admits the hex letters A-F, but it is
   * parsed as a decimal digit, so a serial whose first match carries a
   * letter there is rejected.
   */
  lemma Cfg0LetterRejected(s: string)
    requires FirstMatch(s, 0).Some?
    requires var i := FirstMatch(s, 0).value; 'A' <= s[i + 8] <= 'F'
    ensures FromStr(s) == Returns(Err(INVALID_CFG0))
  {
    var i := FirstMatch(s, 0).value;
    var m := s[i..i + SERIAL_LEN];
    assert m[8] == s[i + 8];
    LetterNotDigit(m[8], U8_MAX);
  }

  /** A letter in the year position passes the pattern but panics in the year parse. */
  lemma YearLetterPanics(s: string)
    requires FirstMatch(s, 0).Some?
    requires var i := FirstMatch(s, 0).value; '0' <= s[i + 8] <= '9' && 'A' <= s[i + 10] <= 'Z'
    ensures FromStr(s).Panics?
  {
    var i := FirstMatch(s, 0).value;
    var m := s[i..i + SERIAL_LEN];
    assert m[8] == s[i + 8] && m[10] == s[i + 10];
    SingleDigit(m[8]);
    LetterNotDigit(m[10], U16_MAX);
  }

  /** Day 0 passes the pattern [0-7] but is no weekday. */
  lemma DayZeroRejected(s: string)
    requires FirstMatch(s, 0).Some?
    requires var i := FirstMatch(s, 0).value; '0' <= s[i + 8] <= '9' && '0' <= s[i + 10] <= '9' && s[i + 13] == '0'
    ensures FromStr(s) == Returns(Err(INVALID_DAY))
  {
    var i := FirstMatch(s, 0).value;
    var m := s[i..i + SERIAL_LEN];
    assert m[8] == s[i + 8] && m[10] == s[i + 10] && m[13] == s[i + 13];
    assert InClass(s[i + 11], PATTERN[11]) && InClass(s[i + 12], PATTERN[12]);
    assert m[11..13] == [s[i + 11], s[i + 12]];
    WeekDigitsParse(s[i + 11], s[i + 12]);
    SingleDigit(m[8]);
    SingleDigit(m[10]);
    SingleDigit(m[13]);
  }

  /** Two decimal digits parse as a u8. */
  lemma WeekDigitsParse(a: char, b: char)
    requires '0' <= a <= '9' && '0' <= b <= '9'
    ensures Text.ParseUnsigned([a, b], 10, U8_MAX) == Some((a as int - '0' as int) * 10 + (b as int - '0' as int))
  {
    var t := [a, b];
    assert Text.DigitValue(a, 10) == Some(a as int - '0' as int);
    assert Text.DigitValue(b, 10) == Some(b as int - '0' as int);
    assert t[..1] == [a] && [a][..0] == [];
    assert Text.DigitsValue([a], 10) == a as int - '0' as int;
    assert Text.DigitsValue(t, 10) == (a as int - '0' as int) * 10 + (b as int - '0' as int);
    Text.ParseDigits(t, 10, U8_MAX);
  }

  // ---------------------------------------------------------------------
  // Rendering a serial, the inverse of the decoder

  predicate AllIn(s: string, k: CharClass)
  {
    forall i :: 0 <= i < |s| ==> InClass(s[i], k)
  }

  /**
   * A serial that has a text form: the classes and lengths of the
   * pattern, a configuration value that is a decimal digit, a year in
   * 2020..2029 and a two-digit week.
   */
  predicate Renderable(x: FrameworkSerial)
  {
    && |x.product| == 3 && AllIn(x.product, Upper)
    && |x.oem| == 2 && AllIn(x.oem, Upper)
    && Cfg0Value(x.cfg0) <= 9
    && InClass(x.cfg1, HexUpper)
    && 2020 <= x.year <= 2029
    && x.week <= 99
    && |x.part| == 4 && AllIn(x.part, Alnum)
  }

  function DigitOf(d: nat): (c: char)
    requires d <= 9
    ensures '0' <= c <= '9' && c as int - '0' as int == d
  {
    ('0' as int + d) as char
  }

  /** The serial's text form. */
  function Render(x: FrameworkSerial): (s: string)
    requires Renderable(x)
    ensures |s| == SERIAL_LEN
  {
    "FRA" + x.product + x.oem
    + [DigitOf(Cfg0Value(x.cfg0)), x.cfg1, DigitOf(x.year - 2020)]
    + [DigitOf(x.week / 10), DigitOf(x.week % 10), DigitOf(WeekDayValue(x.day))]
    + x.part
  }

  lemma RenderMatches(x: FrameworkSerial)
    requires Renderable(x)
    ensures FirstMatch(Render(x), 0) == Some(0)
  {
    var s := Render(x);
    forall k | 0 <= k < SERIAL_LEN
      ensures InClass(s[k], PATTERN[k])
    {
      if k < 3 {
      } else if k < 6 {
        assert s[k] == x.product[k - 3];
      } else if k < 8 {
        assert s[k] == x.oem[k - 6];
      } else if k >= 14 {
        assert s[k] == x.part[k - 14];
      }
    }
    assert MatchesAt(s, 0);
  }

  /** The two week digits parse back to the week. */
  lemma WeekDigits(w: nat)
    requires w <= 99
    ensures Text.ParseUnsigned([DigitOf(w / 10), DigitOf(w % 10)], 10, U8_MAX) == Some(w)
  {
    WeekDigitsParse(DigitOf(w / 10), DigitOf(w % 10));
  }

  /** Round trip: the corrected decoder reads every field of a rendered serial back. */
  lemma FromStrRender(x: FrameworkSerial)
    requires Renderable(x)
    ensures FromStr(Render(x)) == Returns(Ok(x))
  {
    var s := Render(x);
    RenderMatches(x);
    assert s[0..SERIAL_LEN] == s;
    SingleDigit(s[8]);
    SingleDigit(s[10]);
    SingleDigit(s[13]);
    WeekDigits(x.week);
    assert s[11..13] == [DigitOf(x.week / 10), DigitOf(x.week % 10)];
    assert s[3..6] == x.product && s[6..8] == x.oem && s[14..18] == x.part;
  }

  /**
   * As written, `part` is always the two-letter OEM code, so it never
   * holds the four-character group the field is documented to carry.
   */
  lemma AsWrittenPartIsOem(x: FrameworkSerial)
    requires Renderable(x)
    ensures FromStrAsWritten(Render(x)) == Returns(Ok(x.(part := x.oem)))
    ensures FromStrAsWritten(Render(x)) != Returns(Ok(x))
  {
    var s := Render(x);
    RenderMatches(x);
    assert s[0..SERIAL_LEN] == s;
    SingleDigit(s[8]);
    SingleDigit(s[10]);
    SingleDigit(s[13]);
    WeekDigits(x.week);
    assert s[11..13] == [DigitOf(x.week / 10), DigitOf(x.week % 10)];
    assert s[3..6] == x.product && s[6..8] == x.oem;
  }
}
