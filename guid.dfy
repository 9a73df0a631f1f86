/**
 * `CGuid`, the C-layout GUID (a u32, two u16 and eight bytes), its
 * canonical upper-case rendering and its conversions to and from the GUID
 * type of the `guid_create` crate.
 *
 * The same four-field layout is the `Guid` of the UEFI crate, whose
 * `Guid::from_values` is modelled here as `FromValues`.
 */
module Guid {
  import opened Common
  import Text

  type Bytes8 = s: seq<u8> | |s| == 8 witness [0, 0, 0, 0, 0, 0, 0, 0]

  /** Fields in declaration order: time low, time mid, time high and version, then clock sequence and node. */
  datatype CGuid = CGuid(a: u32, b: u16, c: u16, d: Bytes8)

  /** The derived `Default`: every field zero. */
  function Default(): (g: CGuid)
    ensures g.a == 0 && g.b == 0 && g.c == 0
    ensures forall i :: 0 <= i < 8 ==> g.d[i] == 0
  {
    CGuid(0, 0, 0, [0, 0, 0, 0, 0, 0, 0, 0])
  }

  /** `x.to_be_bytes()` for a u16 and a u32. */
  function Be16Bytes(x: u16): (r: seq<u8>)
    ensures |r| == 2 && Be16At(r, 0) == x
  {
    [x / 0x100, x % 0x100]
  }

  function Be32Bytes(x: u32): (r: seq<u8>)
    ensures |r| == 4 && Be32At(r, 0) == x
  {
    Be16Bytes(x / 0x1_0000) + Be16Bytes(x % 0x1_0000)
  }

  const NODE_LIMIT: nat := 0x1_0000_0000_0000

  /** The low 48 bits of a node value, big-endian. */
  function Be48Bytes(x: nat): (r: seq<u8>)
    requires x < NODE_LIMIT
    ensures |r| == 6 && 0x1_0000 * Be32At(r, 0) + Be16At(r, 4) == x
  {
    Be32Bytes(x / 0x1_0000) + Be16Bytes(x % 0x1_0000)
  }

  /** The 48-bit node stored in the last six bytes. */
  function Node(g: CGuid): (n: nat)
    ensures n < NODE_LIMIT
  {
    0x1_0000 * Be32At(g.d, 2) + Be16At(g.d, 6)
  }

  /** The clock sequence stored in the first two bytes of `d`. */
  function ClockSeq(g: CGuid): u16
  {
    Be16At(g.d, 0)
  }

  /**
   * `Guid::from_values(time_low, time_mid, time_high, clock_seq, node)`:
   * the clock sequence big-endian in d[0..2] and the low 48 bits of the
   * node big-endian in d[2..8].
   */
  function FromValues(timeLow: u32, timeMid: u16, timeHigh: u16, clockSeq: u16, node: u64): (g: CGuid)
    ensures g.a == timeLow && g.b == timeMid && g.c == timeHigh
    ensures ClockSeq(g) == clockSeq && Node(g) == node % NODE_LIMIT
  {
    var d := Be16Bytes(clockSeq) + Be48Bytes(node % NODE_LIMIT);
    assert d[2..6] == Be48Bytes(node % NODE_LIMIT)[..4];
    assert d[6..8] == Be48Bytes(node % NODE_LIMIT)[4..];
    CGuid(timeLow, timeMid, timeHigh, d)
  }

  /** A GUID is determined by its five `from_values` fields. */
  lemma FromValuesOfFields(g: CGuid)
    ensures FromValues(g.a, g.b, g.c, ClockSeq(g), Node(g)) == g
  {
    var n := Node(g);
    Split16(Be16At(g.d, 6), Be32At(g.d, 2));
    assert n % NODE_LIMIT == n;
    Be32RoundTrip(g.d, 2);
    Be16RoundTrip(g.d, 6);
    Be16RoundTrip(g.d, 0);
    assert Be48Bytes(n) == g.d[2..6] + g.d[6..8];
    assert g.d == g.d[0..2] + g.d[2..6] + g.d[6..8];
  }

  // ---------------------------------------------------------------------
  // Display

  /** `{:0w$X}` (upper) or `{:0w$x}`: hexadecimal, zero-padded to w digits. */
  function Hex(n: nat, w: nat, upper: bool): string
  {
    Text.PadZeros(Text.FormatRadix(n, 16, upper), w)
  }

  /** The last group: BE32(d[2..6]) then BE16(d[6..8]). */
  function NodeGroup(g: CGuid, upper: bool): string
  {
    Hex(Be32At(g.d, 2), 8, upper) + Hex(Be16At(g.d, 6), 4, upper)
  }

  /** The five dash-separated groups of the rendering. */
  function Groups(g: CGuid, upper: bool): seq<string>
  {
    [Hex(g.a, 8, upper), Hex(g.b, 4, upper), Hex(g.c, 4, upper), Hex(Be16At(g.d, 0), 4, upper), NodeGroup(g, upper)]
  }

  /** The canonical 8-4-4-4-12 rendering in upper- or lower-case hexadecimal. */
  function Render(g: CGuid, upper: bool): string
  {
    Text.Join(Groups(g, upper), '-')
  }

  /**
   * `Display`: "{:08X}-{:04X}-{:04X}-{:04X}-{:08X}{:04X}" of a, b, c,
   * BE16(d[0..2]), BE32(d[2..6]) and BE16(d[6..8]).
   */
  function Display(g: CGuid): string
  {
    Render(g, true)
  }

  /** w ASCII hexadecimal digits, no dash among them. */
  predicate HexGroup(s: string, w: nat)
  {
    && |s| == w && '-' !in s && Text.AllDigits(s, 16)
    && forall i :: 0 <= i < |s| ==> s[i] as int < 0x80
  }

  lemma Pow2Widths()
    ensures Pow2(16) == 0x1_0000 && Pow2(32) == 0x1_0000_0000
  {
    Text.Pow2Add(0); Text.Pow2Add(4); Text.Pow2Add(8); Text.Pow2Add(12);
    Text.Pow2Add(16); Text.Pow2Add(20); Text.Pow2Add(24); Text.Pow2Add(28);
  }

  lemma HexOfGroup(n: nat, w: nat, upper: bool)
    requires w >= 1 && n < Pow2(4 * w)
    ensures HexGroup(Hex(n, w, upper), w)
    ensures Text.DigitsValue(Hex(n, w, upper), 16) == n
  {
    Text.HexField(n, w, upper);
  }

  lemma GroupShape(s: string, n: nat, w: nat, upper: bool)
    requires w >= 1 && n < Pow2(4 * w) && s == Hex(n, w, upper)
    ensures HexGroup(s, w)
  {
    HexOfGroup(n, w, upper);
  }

  /** The groups are 8, 4, 4, 4 and 12 ASCII hexadecimal digits with no dash. */
  lemma GroupsShape(g: CGuid, upper: bool)
    ensures var p := Groups(g, upper);
      HexGroup(p[0], 8) && HexGroup(p[1], 4) && HexGroup(p[2], 4) && HexGroup(p[3], 4) && HexGroup(p[4], 12)
  {
    FirstGroupShape(g, upper);
    SecondGroupShape(g, upper);
    MiddleGroupsShape(g, upper);
    LastGroupShape(g, upper);
  }

  lemma FirstGroupShape(g: CGuid, upper: bool)
    ensures HexGroup(Groups(g, upper)[0], 8)
  {
    Pow2Widths();
    GroupShape(Groups(g, upper)[0], g.a, 8, upper);
  }

  lemma SecondGroupShape(g: CGuid, upper: bool)
    ensures HexGroup(Groups(g, upper)[1], 4)
  {
    Pow2Widths();
    GroupShape(Groups(g, upper)[1], g.b, 4, upper);
  }

  lemma MiddleGroupsShape(g: CGuid, upper: bool)
    ensures var p := Groups(g, upper); HexGroup(p[2], 4) && HexGroup(p[3], 4)
  {
    Pow2Widths();
    var p := Groups(g, upper);
    GroupShape(p[2], g.c, 4, upper);
    GroupShape(p[3], Be16At(g.d, 0), 4, upper);
  }

  /** The last group reads as the node. */
  lemma LastGroupShape(g: CGuid, upper: bool)
    ensures var s := NodeGroup(g, upper); HexGroup(s, 12) && Text.DigitsValue(s, 16) == Node(g)
  {
    var hi: nat, lo: nat := Be32At(g.d, 2), Be16At(g.d, 6);
    var s := NodeGroup(g, upper);
    JoinedHex(s, hi, lo, upper);
    SameValue(s, hi * 0x1_0000 + lo, Node(g));
  }

  lemma SameValue(s: string, v: nat, n: nat)
    requires v == n && Text.AllDigits(s, 16) && Text.DigitsValue(s, 16) == v
    ensures Text.DigitsValue(s, 16) == n
  {
  }

  /** Eight digits of hi followed by four digits of lo read as hi * 2^16 + lo. */
  lemma JoinedHex(s: string, hi: nat, lo: nat, upper: bool)
    requires hi < 0x1_0000_0000 && lo < 0x1_0000
    requires s == Hex(hi, 8, upper) + Hex(lo, 4, upper)
    ensures HexGroup(s, 12) && Text.DigitsValue(s, 16) == hi * 0x1_0000 + lo
  {
    Pow2Widths();
    var x, y := Hex(hi, 8, upper), Hex(lo, 4, upper);
    HexOfGroup(hi, 8, upper);
    HexOfGroup(lo, 4, upper);
    JoinValue(x, y, hi, lo);
    Text.DigitsAscii(s, 16);
  }

  lemma JoinValue(x: string, y: string, hi: nat, lo: nat)
    requires Text.AllDigits(x, 16) && Text.AllDigits(y, 16) && |y| == 4
    requires Text.DigitsValue(x, 16) == hi && Text.DigitsValue(y, 16) == lo
    ensures Text.AllDigits(x + y, 16) && Text.DigitsValue(x + y, 16) == hi * 0x1_0000 + lo
  {
    Text.HexDigitsAppend(x, y);
    Pow2Widths();
  }

  /** The rendering is 36 characters with dashes at 8, 13, 18 and 23. */
  lemma DisplayShape(g: CGuid)
    ensures var s := Display(g);
      |s| == 36 && s[8] == '-' && s[13] == '-' && s[18] == '-' && s[23] == '-'
  {
    GroupsShape(g, true);
    DashLayout(Groups(g, true));
  }

  /** Five pieces of 8, 4, 4, 4 and 12 characters joined with dashes. */
  lemma DashLayout(p: seq<string>)
    requires |p| == 5 && |p[0]| == 8 && |p[1]| == 4 && |p[2]| == 4 && |p[3]| == 4 && |p[4]| == 12
    ensures var s := Text.Join(p, '-');
      |s| == 36 && s[8] == '-' && s[13] == '-' && s[18] == '-' && s[23] == '-'
  {
    assert Text.Join(p[4..], '-') == p[4];
    assert Text.Join(p[3..], '-') == p[3] + ['-'] + p[4];
    assert Text.Join(p[2..], '-') == p[2] + ['-'] + (p[3] + ['-'] + p[4]);
    assert Text.Join(p[1..], '-') == p[1] + ['-'] + (p[2] + ['-'] + (p[3] + ['-'] + p[4]));
  }

  /** Five pieces joined with dashes. */
  lemma JoinFive(p: seq<string>)
    requires |p| == 5
    ensures Text.Join(p, '-') == p[0] + "-" + p[1] + "-" + p[2] + "-" + p[3] + "-" + p[4]
  {
    assert Text.Join(p[4..], '-') == p[4];
    assert Text.Join(p[3..], '-') == p[3] + "-" + p[4];
    assert Text.Join(p[2..], '-') == p[2] + "-" + (p[3] + "-" + p[4]);
    assert Text.Join(p[1..], '-') == p[1] + "-" + (p[2] + "-" + (p[3] + "-" + p[4]));
  }

  lemma HexZero(w: nat)
    requires w >= 1
    ensures |Hex(0, w, true)| == w && forall i :: 0 <= i < w ==> Hex(0, w, true)[i] == '0'
  {
    assert Text.FormatRadix(0, 16, true) == "0";
  }

  /** The default GUID renders as all zeros. */
  lemma DisplayDefault()
    ensures Display(Default()) == "00000000-0000-0000-0000-000000000000"
  {
    HexZero(4);
    HexZero(8);
    var z4, z8 := Hex(0, 4, true), Hex(0, 8, true);
    assert z4 == "0000";
    assert z8 == "00000000";
    var g := Default();
    assert Be16At(g.d, 0) == 0 && Be32At(g.d, 2) == 0 && Be16At(g.d, 6) == 0;
    var p := Groups(g, true);
    assert p == [z8, z4, z4, z4, z8 + z4];
    JoinFive(p);
    ZerosLiteral();
  }

  lemma ZerosLiteral()
    ensures "00000000" + "-" + "0000" + "-" + "0000" + "-" + "0000" + "-" + ("00000000" + "0000")
      == "00000000-0000-0000-0000-000000000000"
  {
  }

  // ---------------------------------------------------------------------
  // Conversions to and from `guid_create::GUID`

  /**
   * The `guid_create` GUID, held as its sixteen bytes: data1, data2 and
   * data3 big-endian, then data4.
   */
  type Bytes16 = s: seq<u8> | |s| == 16 witness [0, 0, 0, 0, 0, 0, 0, 0, 0, 0, 0, 0, 0, 0, 0, 0]
  datatype Guid = Guid(bytes: Bytes16)

  /** `GUID::build_from_components(a, b, c, &d)`. */
  function BuildFromComponents(a: u32, b: u16, c: u16, d: Bytes8): (g: Guid)
    ensures g.bytes[8..] == d
  {
    Guid(Be32Bytes(a) + Be16Bytes(b) + Be16Bytes(c) + d)
  }

  /** `From<CGuid> for GUID`. */
  function ToGuid(item: CGuid): Guid
  {
    BuildFromComponents(item.a, item.b, item.c, item.d)
  }

  /** `From<GUID> for CGuid`: data1(), data2(), data3() and data4(). */
  function FromGuid(item: Guid): CGuid
  {
    CGuid(Be32At(item.bytes, 0), Be16At(item.bytes, 4), Be16At(item.bytes, 6), item.bytes[8..])
  }

  lemma Be16RoundTrip(b: seq<u8>, at: nat)
    requires at + 2 <= |b|
    ensures Be16Bytes(Be16At(b, at)) == b[at..at + 2]
  {
  }

  lemma Be32RoundTrip(b: seq<u8>, at: nat)
    requires at + 4 <= |b|
    ensures Be32Bytes(Be32At(b, at)) == b[at..at + 4]
  {
    Split16(Be16At(b, at + 2), Be16At(b, at));
    Be16RoundTrip(b, at);
    Be16RoundTrip(b, at + 2);
  }

  /** `CGuid` → `GUID` → `CGuid` preserves a, b, c and d. */
  lemma CGuidRoundTrip(g: CGuid)
    ensures FromGuid(ToGuid(g)) == g
  {
    var bytes := ToGuid(g).bytes;
    assert bytes[0..4] == Be32Bytes(g.a);
    assert bytes[4..6] == Be16Bytes(g.b);
    assert bytes[6..8] == Be16Bytes(g.c);
    Split16(g.a % 0x1_0000, g.a / 0x1_0000);
  }

  /** `GUID` → `CGuid` → `GUID` gives back every byte. */
  lemma GuidRoundTrip(g: Guid)
    ensures ToGuid(FromGuid(g)) == g
  {
    var b := g.bytes;
    Be32RoundTrip(b, 0);
    Be16RoundTrip(b, 4);
    Be16RoundTrip(b, 6);
    assert b == b[0..4] + b[4..6] + b[6..8] + b[8..];
  }
}
