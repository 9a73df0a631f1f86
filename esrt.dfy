/**
 * The EFI System Resource Table helpers: GUID text decoding, the known
 * Framework firmware GUIDs, the resource-type and update-status codes of
 * section 23.4 of the UEFI Specification, and the firmware-table lookup.
 */
module Esrt {
  import opened Common
  import Text
  import Guid
  import GuidMacros

  const INDEX_OUT_OF_BOUNDS: string := "index out of bounds"

  // ---------------------------------------------------------------------
  // guid_from_str

  /** `s.strip_suffix('\n').unwrap_or(s)`: at most one trailing newline removed. */
  function StripNewline(s: string): (r: string)
    ensures r == s || r + "\n" == s
    ensures r + "\n" == s <==> |s| > 0 && s[|s| - 1] == '\n'
  {
    if |s| > 0 && s[|s| - 1] == '\n' then s[..|s| - 1] else s
  }

  /** The dash-separated sections of the input. */
  function Sections(s: string): seq<string>
  {
    Text.Split(StripNewline(s), '-')
  }

  /** Largest value of each field: u32, then three u16, then the u64 node. */
  function FieldMax(k: nat): nat
    requires k < 5
  {
    [U32_MAX, U16_MAX, U16_MAX, U16_MAX, U64_MAX][k]
  }

  /** `u*::from_str_radix(sections[k], 16).ok()`, panicking when there is no section k. */
  function Section(sections: seq<string>, k: nat): (r: Outcome<Option<nat>>)
    requires k < 5
    ensures r.Panics? <==> k >= |sections|
    ensures r.Returns? ==> r.value == Text.ParseUnsigned(sections[k], 16, FieldMax(k))
  {
    if k < |sections| then Returns(Text.ParseUnsigned(sections[k], 16, FieldMax(k)))
    else Panics(INDEX_OUT_OF_BOUNDS)
  }

  /**
   * `guid_from_str` as written: the fields are read in order and the first
   * that does not parse gives None, but a missing section is an
   * out-of-range index, which panics.
   */
  function GuidFromStrAsWritten(s: string): Outcome<Option<Guid.CGuid>>
  {
    FromSectionsAsWritten(Sections(s))
  }

  function FromSectionsAsWritten(sections: seq<string>): Outcome<Option<Guid.CGuid>>
  {
    var timeLow :- Section(sections, 0);
    if timeLow.None? then Returns(None) else
    var timeMid :- Section(sections, 1);
    if timeMid.None? then Returns(None) else
    var timeHigh :- Section(sections, 2);
    if timeHigh.None? then Returns(None) else
    var clockSeq :- Section(sections, 3);
    if clockSeq.None? then Returns(None) else
    var node :- Section(sections, 4);
    if node.None? then Returns(None) else
    Returns(Some(Guid.FromValues(timeLow.value, timeMid.value, timeHigh.value, clockSeq.value, node.value)))
  }

  /** Field k of the sections, None when it is missing or does not parse. */
  function Field(sections: seq<string>, k: nat): (r: Option<nat>)
    requires k < 5
    ensures r.Some? <==> k < |sections| && Text.ParseUnsigned(sections[k], 16, FieldMax(k)).Some?
    ensures r.Some? ==> r.value <= FieldMax(k)
  {
    if k < |sections| then Text.ParseUnsigned(sections[k], 16, FieldMax(k)) else None
  }

  /** Every one of the five fields is present and parses. */
  predicate AllFields(sections: seq<string>)
  {
    forall k :: 0 <= k < 5 ==> Field(sections, k).Some?
  }

  /**
   * `guid_from_str` with the evident intent: None whenever the text does
   * not hold five parsable fields, a missing one included.
   */
  function GuidFromStr(s: string): Option<Guid.CGuid>
  {
    FromSections(Sections(s))
  }

  function FromSections(sections: seq<string>): (r: Option<Guid.CGuid>)
    ensures r.Some? <==> AllFields(sections)
    ensures r.Some? ==>
      && r.value.a == Field(sections, 0).value && r.value.b == Field(sections, 1).value
      && r.value.c == Field(sections, 2).value && Guid.ClockSeq(r.value) == Field(sections, 3).value
      && Guid.Node(r.value) == Field(sections, 4).value % Guid.NODE_LIMIT
  {
    if !AllFields(sections) then None
    else
      assert Field(sections, 0).Some? && Field(sections, 1).Some? && Field(sections, 2).Some?;
      assert Field(sections, 3).Some? && Field(sections, 4).Some?;
      Some(Guid.FromValues(Field(sections, 0).value, Field(sections, 1).value, Field(sections, 2).value,
        Field(sections, 3).value, Field(sections, 4).value))
  }

  /** The fields before section n all parse. */
  predicate LeadingFieldsParse(sections: seq<string>, n: nat)
    requires n <= 5
  {
    forall k :: 0 <= k < n ==> Field(sections, k).Some?
  }

  /**
   * Where the code as written returns, it agrees with the corrected
   * function, and it panics exactly when fewer than five sections are
   * present and every one of them parses.
   */
  lemma AsWrittenAgrees(sections: seq<string>)
    ensures FromSectionsAsWritten(sections).Returns? ==> FromSectionsAsWritten(sections).value == FromSections(sections)
    ensures FromSectionsAsWritten(sections).Panics? <==>
      |sections| < 5 && LeadingFieldsParse(sections, |sections|)
  {
    AsWrittenReturnsAgree(sections);
    AsWrittenPanicsExactly(sections);
  }

  /** Where the code as written returns, its answer is the corrected one. */
  lemma AsWrittenReturnsAgree(sections: seq<string>)
    ensures FromSectionsAsWritten(sections).Returns? ==> FromSectionsAsWritten(sections).value == FromSections(sections)
  {
    if !AllFields(sections) {
      NotAllAsWritten(sections);
    }
  }

  /** A missing or unparsable field makes the code as written return None, if it returns. */
  lemma NotAllAsWritten(sections: seq<string>)
    requires !AllFields(sections)
    ensures FromSectionsAsWritten(sections).Returns? ==> FromSectionsAsWritten(sections).value.None?
  {
    MissingField(sections);
    if Field(sections, 0).None? {
    } else if Field(sections, 1).None? {
    } else if Field(sections, 2).None? {
    } else if Field(sections, 3).None? {
    }
  }

  lemma MissingField(sections: seq<string>)
    requires !AllFields(sections)
    ensures Field(sections, 0).None? || Field(sections, 1).None? || Field(sections, 2).None?
      || Field(sections, 3).None? || Field(sections, 4).None?
  {
  }

  /** The code as written panics exactly when a section is missing and all present ones parse. */
  lemma AsWrittenPanicsExactly(sections: seq<string>)
    ensures FromSectionsAsWritten(sections).Panics? <==>
      |sections| < 5 && LeadingFieldsParse(sections, |sections|)
  {
    var r := FromSectionsAsWritten(sections);
    if |sections| == 0 {
    } else if Field(sections, 0).None? {
      assert r == Returns(None);
    } else if |sections| == 1 {
      assert r.Panics? && LeadingFieldsParse(sections, 1);
    } else if Field(sections, 1).None? {
      assert r == Returns(None);
    } else if |sections| == 2 {
      assert r.Panics? && LeadingFieldsParse(sections, 2);
    } else if Field(sections, 2).None? {
      assert r == Returns(None);
    } else if |sections| == 3 {
      assert r.Panics? && LeadingFieldsParse(sections, 3);
    } else if Field(sections, 3).None? {
      assert r == Returns(None);
    } else if |sections| == 4 {
      assert r.Panics? && LeadingFieldsParse(sections, 4);
    }
  }

  /** A single hexadecimal section with no dash: the as-written code panics on sections[1]. */
  lemma {:induction false} AsWrittenPanicsOnOneSection(s: string)
    requires s != [] && s[|s| - 1] != '\n' && '-' !in s
    requires Text.AllDigits(s, 16) && |s| <= 8
    ensures GuidFromStrAsWritten(s).Panics?
    ensures GuidFromStr(s).None?
  {
    Text.SplitJoin([s], '-');
    assert Sections(s) == [s];
    Text.HexDigitsBound(s);
    Guid.Pow2Widths();
    GuidMacros.Pow2Monotone(4 * |s|, 32);
    Text.ParseDigits(s, 16, U32_MAX);
    AsWrittenAgrees([s]);
  }

  /** The input "abc" makes the as-written code panic; the corrected one gives None. */
  lemma AbcPanics()
    ensures GuidFromStrAsWritten("abc").Panics?
    ensures GuidFromStr("abc") == None
  {
    assert Text.DigitValue('a', 16).Some? && Text.DigitValue('b', 16).Some? && Text.DigitValue('c', 16).Some?;
    AsWrittenPanicsOnOneSection("abc");
  }

  /** "invalid-guid" gives None: its first section is not hexadecimal. */
  lemma InvalidGuid()
    ensures GuidFromStrAsWritten("invalid-guid") == Returns(None)
    ensures GuidFromStr("invalid-guid") == None
  {
    InvalidGuidSections();
    InvalidNotHex();
    FirstFieldBad(["invalid", "guid"]);
  }

  lemma InvalidGuidSections()
    ensures Sections("invalid-guid") == ["invalid", "guid"]
  {
    Text.SplitJoin(["invalid", "guid"], '-');
    assert Text.Join(["invalid", "guid"], '-') == "invalid-guid";
  }

  lemma InvalidNotHex()
    ensures Text.ParseUnsigned("invalid", 16, U32_MAX).None?
  {
    assert Text.DigitValue('i', 16).None?;
  }

  /** A first section that does not parse gives None, as written and as intended. */
  lemma FirstFieldBad(sections: seq<string>)
    requires |sections| >= 1 && Field(sections, 0).None?
    ensures FromSectionsAsWritten(sections) == Returns(None)
    ensures FromSections(sections) == None
  {
  }

  /** The rendering never ends in a newline. */
  lemma RenderEnd(g: Guid.CGuid, upper: bool)
    ensures StripNewline(Guid.Render(g, upper)) == Guid.Render(g, upper)
    ensures StripNewline(Guid.Render(g, upper) + "\n") == Guid.Render(g, upper)
  {
    Guid.GroupsShape(g, upper);
    JoinNoNewline(Guid.Groups(g, upper));
  }

  lemma JoinNoNewline(p: seq<string>)
    requires |p| == 5 && Guid.HexGroup(p[4], 12)
    ensures StripNewline(Text.Join(p, '-')) == Text.Join(p, '-')
    ensures StripNewline(Text.Join(p, '-') + "\n") == Text.Join(p, '-')
  {
    var r := Text.Join(p, '-');
    Text.JoinEnd(p, '-');
    assert r[|r| - 1] == p[4][11];
    assert Text.DigitValue(p[4][11], 16).Some?;
    assert (r + "\n")[..|r|] == r;
  }

  /** Parsing the five rendered groups gives back the GUID's fields. */
  lemma RenderedFields(g: Guid.CGuid, upper: bool)
    ensures var p := Guid.Groups(g, upper);
      && AllFields(p) && Field(p, 0) == Some(g.a as nat) && Field(p, 1) == Some(g.b as nat)
      && Field(p, 2) == Some(g.c as nat) && Field(p, 3) == Some(Guid.ClockSeq(g) as nat)
      && Field(p, 4) == Some(Guid.Node(g))
  {
    GuidMacros.GroupParses(g, upper);
    FieldsOfParses(Guid.Groups(g, upper), g.a, g.b, g.c, Guid.ClockSeq(g), Guid.Node(g));
  }

  /** Five sections that parse as u64 values within the field widths give those fields. */
  lemma FieldsOfParses(p: seq<string>, a: u32, b: u16, c: u16, cs: u16, node: nat)
    requires |p| == 5 && node <= U64_MAX
    requires GuidMacros.GroupReads(p[0], 4, a as nat) && GuidMacros.GroupReads(p[1], 2, b as nat)
    requires GuidMacros.GroupReads(p[2], 2, c as nat) && GuidMacros.GroupReads(p[3], 2, cs as nat)
    requires GuidMacros.GroupReads(p[4], 6, node)
    ensures AllFields(p) && Field(p, 0) == Some(a as nat) && Field(p, 1) == Some(b as nat)
    ensures Field(p, 2) == Some(c as nat) && Field(p, 3) == Some(cs as nat) && Field(p, 4) == Some(node)
  {
    Text.ParseUnsignedWithin(p[0], 16, U64_MAX, U32_MAX);
    Text.ParseUnsignedWithin(p[1], 16, U64_MAX, U16_MAX);
    Text.ParseUnsignedWithin(p[2], 16, U64_MAX, U16_MAX);
    Text.ParseUnsignedWithin(p[3], 16, U64_MAX, U16_MAX);
    assert forall k :: 0 <= k < 5 ==> Field(p, k).Some?;
  }

  /**
   * The rendering in either case, with or without one trailing newline,
   * decodes back to the same GUID, by the code as written and by the
   * corrected function.
   */
  lemma GuidFromRender(g: Guid.CGuid, upper: bool, newline: bool)
    ensures var s := if newline then Guid.Render(g, upper) + "\n" else Guid.Render(g, upper);
      GuidFromStr(s) == Some(g) && GuidFromStrAsWritten(s) == Returns(Some(g))
  {
    var s := if newline then Guid.Render(g, upper) + "\n" else Guid.Render(g, upper);
    RenderEnd(g, upper);
    GuidMacros.SplitRender(g, upper);
    assert Sections(s) == Guid.Groups(g, upper);
    RenderedFields(g, upper);
    Guid.FromValuesOfFields(g);
    AsWrittenAgrees(Guid.Groups(g, upper));
  }

  /** Lower- and upper-case renderings decode to the same GUID. */
  lemma CaseInsensitive(g: Guid.CGuid)
    ensures GuidFromStr(Guid.Render(g, false)) == GuidFromStr(Guid.Render(g, true)) == Some(g)
  {
    GuidFromRender(g, false, false);
    GuidFromRender(g, true, false);
  }

  // ---------------------------------------------------------------------
  // Known GUIDs

  // Each GUID as its four fields; `GuidMacroValues` shows they are what `guid!` builds.
  const BIOS_GUID: Guid.CGuid := Guid.CGuid(0xa30a8cf3, 0x847f, 0x5e59, [0xbd, 0x59, 0xf9, 0xec, 0x14, 0x5c, 0x1a, 0x8c])
  const RETIMER01_GUID: Guid.CGuid := Guid.CGuid(0xa9c91b0c, 0xc0b8, 0x463d, [0xa7, 0xda, 0xa5, 0xd6, 0xec, 0x64, 0x63, 0x33])
  const RETIMER23_GUID: Guid.CGuid := Guid.CGuid(0xba2e4e6e, 0x3b0c, 0x4f25, [0x8a, 0x59, 0x4c, 0x55, 0x3f, 0xc8, 0x6e, 0xa2])
  const GEN13_RETIMER01_GUID: Guid.CGuid := Guid.CGuid(0x0c42b824, 0x818f, 0x428f, [0x86, 0x87, 0x5e, 0xfc, 0xaf, 0x05, 0x9b, 0xea])
  const GEN13_RETIMER23_GUID: Guid.CGuid := Guid.CGuid(0x268ccbde, 0xe087, 0x420b, [0xbf, 0x82, 0x22, 0x12, 0xbd, 0x3f, 0x9b, 0xfc])
  const FL16_BIOS_GUID: Guid.CGuid := Guid.CGuid(0x4496aebc, 0x2421, 0x5dfb, [0x9e, 0x75, 0x03, 0xec, 0x44, 0x24, 0x59, 0x94])
  const AMD13_BIOS_GUID: Guid.CGuid := Guid.CGuid(0x11111111, 0x1111, 0x1111, [0x11, 0x11, 0x11, 0x11, 0x11, 0x11, 0x11, 0x11])
  /** gWindowsUxCapsuleGuid. */
  const WINUX_GUID: Guid.CGuid := Guid.CGuid(0x3b8c8162, 0x188c, 0x46a4, [0xae, 0xc9, 0xbe, 0x43, 0xf1, 0xd6, 0x56, 0x97])
  /** gEfiSystemResourceTableGuid. */
  const SYSTEM_RESOURCE_TABLE_GUID: Guid.CGuid := Guid.CGuid(0xb122a263, 0x3661, 0x4f68, [0x99, 0x29, 0x78, 0xf8, 0xb0, 0xd6, 0x21, 0x80])

  /**
   * `Guid::from_values` of five field values, written out byte by byte: the
   * clock sequence and the 48-bit node big-endian.
   */
  lemma FromValuesBytes(a: u32, b: u16, c: u16, cs: u16, node: u64, d: seq<u8>)
    requires node < Guid.NODE_LIMIT && |d| == 8
    requires d[0] == cs / 0x100 && d[1] == cs % 0x100
    requires d[2] == node / 0x1_0000 / 0x1_0000 / 0x100 && d[3] == node / 0x1_0000 / 0x1_0000 % 0x100
    requires d[4] == node / 0x1_0000 % 0x1_0000 / 0x100 && d[5] == node / 0x1_0000 % 0x1_0000 % 0x100
    requires d[6] == node % 0x1_0000 / 0x100 && d[7] == node % 0x1_0000 % 0x100
    ensures Guid.FromValues(a, b, c, cs, node) == Guid.CGuid(a, b, c, d)
  {
    assert node % Guid.NODE_LIMIT == node;
    assert Guid.FromValues(a, b, c, cs, node).d == d;
  }

  /** `guid!` builds each constant with `Guid::from_values` of the five fields of its literal. */
  lemma GuidMacroValues()
    ensures BIOS_GUID == Guid.FromValues(0xa30a8cf3, 0x847f, 0x5e59, 0xbd59, 0xf9ec145c1a8c)
    ensures RETIMER01_GUID == Guid.FromValues(0xa9c91b0c, 0xc0b8, 0x463d, 0xa7da, 0xa5d6ec646333)
    ensures RETIMER23_GUID == Guid.FromValues(0xba2e4e6e, 0x3b0c, 0x4f25, 0x8a59, 0x4c553fc86ea2)
    ensures GEN13_RETIMER01_GUID == Guid.FromValues(0x0c42b824, 0x818f, 0x428f, 0x8687, 0x5efcaf059bea)
    ensures GEN13_RETIMER23_GUID == Guid.FromValues(0x268ccbde, 0xe087, 0x420b, 0xbf82, 0x2212bd3f9bfc)
    ensures FL16_BIOS_GUID == Guid.FromValues(0x4496aebc, 0x2421, 0x5dfb, 0x9e75, 0x03ec44245994)
    ensures AMD13_BIOS_GUID == Guid.FromValues(0x11111111, 0x1111, 0x1111, 0x1111, 0x111111111111)
    ensures WINUX_GUID == Guid.FromValues(0x3b8c8162, 0x188c, 0x46a4, 0xaec9, 0xbe43f1d65697)
    ensures SYSTEM_RESOURCE_TABLE_GUID == Guid.FromValues(0xb122a263, 0x3661, 0x4f68, 0x9929, 0x78f8b0d62180)
  {
    FromValuesBytes(0xa30a8cf3, 0x847f, 0x5e59, 0xbd59, 0xf9ec145c1a8c, BIOS_GUID.d);
    FromValuesBytes(0xa9c91b0c, 0xc0b8, 0x463d, 0xa7da, 0xa5d6ec646333, RETIMER01_GUID.d);
    FromValuesBytes(0xba2e4e6e, 0x3b0c, 0x4f25, 0x8a59, 0x4c553fc86ea2, RETIMER23_GUID.d);
    FromValuesBytes(0x0c42b824, 0x818f, 0x428f, 0x8687, 0x5efcaf059bea, GEN13_RETIMER01_GUID.d);
    FromValuesBytes(0x268ccbde, 0xe087, 0x420b, 0xbf82, 0x2212bd3f9bfc, GEN13_RETIMER23_GUID.d);
    FromValuesBytes(0x4496aebc, 0x2421, 0x5dfb, 0x9e75, 0x03ec44245994, FL16_BIOS_GUID.d);
    FromValuesBytes(0x11111111, 0x1111, 0x1111, 0x1111, 0x111111111111, AMD13_BIOS_GUID.d);
    FromValuesBytes(0x3b8c8162, 0x188c, 0x46a4, 0xaec9, 0xbe43f1d65697, WINUX_GUID.d);
    FromValuesBytes(0xb122a263, 0x3661, 0x4f68, 0x9929, 0x78f8b0d62180, SYSTEM_RESOURCE_TABLE_GUID.d);
  }

  datatype FrameworkGuidKind =
    | Bios | Retimer01 | Retimer23 | Gen13Retimer01 | Gen13Retimer23 | Fl16Bios | Amd13Bios | WinUx
    | Unknown

  /** The constant each known kind stands for. */
  function GuidOfKind(k: FrameworkGuidKind): Guid.CGuid
    requires !k.Unknown?
  {
    match k
    case Bios => BIOS_GUID
    case Retimer01 => RETIMER01_GUID
    case Retimer23 => RETIMER23_GUID
    case Gen13Retimer01 => GEN13_RETIMER01_GUID
    case Gen13Retimer23 => GEN13_RETIMER23_GUID
    case Fl16Bios => FL16_BIOS_GUID
    case Amd13Bios => AMD13_BIOS_GUID
    case WinUx => WINUX_GUID
  }

  /** The eight known GUIDs. */
  function KnownGuids(): seq<Guid.CGuid>
  {
    [BIOS_GUID, RETIMER01_GUID, RETIMER23_GUID, GEN13_RETIMER01_GUID, GEN13_RETIMER23_GUID,
     FL16_BIOS_GUID, AMD13_BIOS_GUID, WINUX_GUID]
  }

  /** `match_guid_kind`: the kind whose constant equals the GUID, else Unknown. */
  function MatchGuidKind(g: Guid.CGuid): (k: FrameworkGuidKind)
    ensures !k.Unknown? ==> GuidOfKind(k) == g
    ensures k.Unknown? <==> g !in KnownGuids()
  {
    if g == BIOS_GUID then Bios
    else if g == RETIMER01_GUID then Retimer01
    else if g == RETIMER23_GUID then Retimer23
    else if g == GEN13_RETIMER01_GUID then Gen13Retimer01
    else if g == GEN13_RETIMER23_GUID then Gen13Retimer23
    else if g == FL16_BIOS_GUID then Fl16Bios
    else if g == AMD13_BIOS_GUID then Amd13Bios
    else if g == WINUX_GUID then WinUx
    else Unknown
  }

  /**
   * `match_guid_kind` of the UEFI build: only BIOS, RETIMER01, RETIMER23 and
   * WINUX are recognised (the UEFI constants are the same four values), so
   * it agrees with `MatchGuidKind` on those and gives Unknown for the rest.
   */
  function UefiMatchGuidKind(g: Guid.CGuid): (k: FrameworkGuidKind)
    ensures k in {Bios, Retimer01, Retimer23, WinUx, Unknown}
    ensures k == (if MatchGuidKind(g) in {Bios, Retimer01, Retimer23, WinUx} then MatchGuidKind(g) else Unknown)
  {
    if g == BIOS_GUID then Bios
    else if g == RETIMER01_GUID then Retimer01
    else if g == RETIMER23_GUID then Retimer23
    else if g == WINUX_GUID then WinUx
    else Unknown
  }

  /** The known GUIDs are pairwise different (their first fields already differ). */
  lemma KnownGuidsDistinct()
    ensures forall i, j :: 0 <= i < j < |KnownGuids()| ==> KnownGuids()[i].a != KnownGuids()[j].a
  {
  }

  /** Each known kind is recognised from its own constant. */
  lemma MatchGuidOfKind(k: FrameworkGuidKind)
    requires !k.Unknown?
    ensures MatchGuidKind(GuidOfKind(k)) == k
  {
    KnownGuidsDistinct();
    var ks := KnownGuids();
    assert ks[0].a == 0xa30a8cf3 && ks[1].a == 0xa9c91b0c && ks[2].a == 0xba2e4e6e && ks[3].a == 0x0c42b824;
    assert ks[4].a == 0x268ccbde && ks[5].a == 0x4496aebc && ks[6].a == 0x11111111 && ks[7].a == 0x3b8c8162;
  }

  /** The ESRT table GUID is not one of the firmware GUIDs. */
  lemma SystemResourceTableUnknown()
    ensures MatchGuidKind(SYSTEM_RESOURCE_TABLE_GUID) == Unknown
  {
    assert SYSTEM_RESOURCE_TABLE_GUID.a == 0xb122a263;
    KnownGuidsDistinct();
    var ks := KnownGuids();
    assert ks[0].a == 0xa30a8cf3 && ks[1].a == 0xa9c91b0c && ks[2].a == 0xba2e4e6e && ks[3].a == 0x0c42b824;
    assert ks[4].a == 0x268ccbde && ks[5].a == 0x4496aebc && ks[6].a == 0x11111111 && ks[7].a == 0x3b8c8162;
  }

  // ---------------------------------------------------------------------
  // Resource type and update status codes

  datatype ResourceType =
    | UnknownType | SystemFirmware | DeviceFirmware | UefiDriver | Fmp | DellTpmFirmware

  /** The enum discriminants. */
  function ResourceTypeCode(t: ResourceType): u32
  {
    match t
    case UnknownType => 0
    case SystemFirmware => 1
    case DeviceFirmware => 2
    case UefiDriver => 3
    case Fmp => 4
    case DellTpmFirmware => 5
  }

  /** `ResourceType::from_int`: codes 1 to 5 name a type, every other code is Unknown. */
  function ResourceTypeFromInt(i: u32): (t: ResourceType)
    ensures 1 <= i <= 5 ==> ResourceTypeCode(t) == i
    ensures t.UnknownType? <==> !(1 <= i <= 5)
  {
    match i
    case 1 => SystemFirmware
    case 2 => DeviceFirmware
    case 3 => UefiDriver
    case 4 => Fmp
    case 5 => DellTpmFirmware
    case _ => UnknownType
  }

  /** Decoding a type's own code gives the type back. */
  lemma ResourceTypeRoundTrip(t: ResourceType)
    ensures ResourceTypeFromInt(ResourceTypeCode(t)) == t
  {
  }

  datatype UpdateStatus =
    | Success | Unsuccessful | InsufficientResources | IncorrectVersion | InvalidFormat
    | AuthError | PowerEventAc | PowerEventBattery | Reserved

  function UpdateStatusCode(u: UpdateStatus): u32
  {
    match u
    case Success => 0x00
    case Unsuccessful => 0x01
    case InsufficientResources => 0x02
    case IncorrectVersion => 0x03
    case InvalidFormat => 0x04
    case AuthError => 0x05
    case PowerEventAc => 0x06
    case PowerEventBattery => 0x07
    case Reserved => 0xFF
  }

  /** `UpdateStatus::from_int`: codes 0 to 7 name a status, every other code is Reserved. */
  function UpdateStatusFromInt(i: u32): (u: UpdateStatus)
    ensures i <= 7 ==> UpdateStatusCode(u) == i
    ensures u.Reserved? <==> i > 7
  {
    match i
    case 0 => Success
    case 1 => Unsuccessful
    case 2 => InsufficientResources
    case 3 => IncorrectVersion
    case 4 => InvalidFormat
    case 5 => AuthError
    case 6 => PowerEventAc
    case 7 => PowerEventBattery
    case _ => Reserved
  }

  lemma UpdateStatusRoundTrip(u: UpdateStatus)
    ensures UpdateStatusFromInt(UpdateStatusCode(u)) == u
  {
  }

  // ---------------------------------------------------------------------
  // The table

  datatype EsrtResourceEntry = EsrtResourceEntry(
    fwClass: Guid.CGuid,
    fwType: u32,
    fwVersion: u32,
    lowestSupportedFwVersion: u32,
    capsuleFlags: u32,
    lastAttemptVersion: u32,
    lastAttemptStatus: u32)

  /** The current entry version. */
  const ESRT_FIRMWARE_RESOURCE_VERSION: u64 := 1

  datatype Esrt = Esrt(resourceCount: u32, resourceCountMax: u32, resourceVersion: u64, entries: seq<EsrtResourceEntry>)

  /**
   * A packed `_Esrt` header at a configuration table's address, and the
   * entries that follow it in memory.
   */
  datatype RawEsrt = RawEsrt(resourceCount: u32, resourceCountMax: u32, resourceVersion: u64, memory: seq<EsrtResourceEntry>)

  /** A system configuration table: its vendor GUID and what its address points at. */
  datatype ConfigTable = ConfigTable(vendorGuid: Guid.CGuid, raw: RawEsrt)

  /** Table i is the first one carrying the ESRT GUID. */
  predicate FirstEsrtAt(tables: seq<ConfigTable>, i: nat)
  {
    && i < |tables| && tables[i].vendorGuid == SYSTEM_RESOURCE_TABLE_GUID
    && forall j :: 0 <= j < i ==> tables[j].vendorGuid != SYSTEM_RESOURCE_TABLE_GUID
  }

  /** The header fields copied unchanged and exactly resource_count entries read. */
  predicate CopiedFrom(e: Esrt, raw: RawEsrt)
  {
    && e.resourceCount == raw.resourceCount && e.resourceCountMax == raw.resourceCountMax
    && e.resourceVersion == raw.resourceVersion
    && raw.resourceCount as nat <= |raw.memory| && e.entries == raw.memory[..raw.resourceCount]
  }

  /**
   * `get_esrt` in UEFI: the first table with the ESRT GUID is read as the
   * header plus exactly resource_count entries; no such table gives None.
   * The entries are read straight from memory, so the firmware must have
   * placed at least resource_count of them there.
   */
  method GetEsrt(tables: seq<ConfigTable>) returns (r: Option<Esrt>)
    requires forall i: nat :: FirstEsrtAt(tables, i) ==> tables[i].raw.resourceCount as nat <= |tables[i].raw.memory|
    ensures r.None? <==> forall i :: 0 <= i < |tables| ==> tables[i].vendorGuid != SYSTEM_RESOURCE_TABLE_GUID
    ensures r.Some? ==> exists i: nat :: (FirstEsrtAt(tables, i) && CopiedFrom(r.value, tables[i].raw))
  {
    var i := 0;
    while i < |tables|
      invariant i <= |tables|
      invariant forall j :: 0 <= j < i ==> tables[j].vendorGuid != SYSTEM_RESOURCE_TABLE_GUID
    {
      if tables[i].vendorGuid == SYSTEM_RESOURCE_TABLE_GUID {
        assert FirstEsrtAt(tables, i);
        var raw := tables[i].raw;
        var esrt := Esrt(raw.resourceCount, raw.resourceCountMax, raw.resourceVersion, []);
        esrt := esrt.(entries := raw.memory[..raw.resourceCount]);
        return Some(esrt);
      }
      i := i + 1;
    }
    return None;
  }
}
