/**
 * The SMBIOS 2.1 (32-bit) entry point structure as the UEFI builds read
 * it, its checksum test, and the search of the UEFI configuration tables
 * for the SMBIOS structure table.  The two UEFI flavours of the library
 * (the `uefi` and `fw_uefi` modules) hold identical copies of both.
 */
module SmbiosEntry {
  import opened Common
  import Guid

  /** A packed `Smbios` struct: the entry point of section 5.2.1 of DMTF DSP0134. */
  datatype EntryPoint = EntryPoint(
    anchor: seq<u8>,
    checksum: u8,
    length: u8,
    majorVersion: u8,
    minorVersion: u8,
    maxStructureSize: u16,
    revision: u8,
    formatted: seq<u8>,
    interAnchor: seq<u8>,
    interChecksum: u8,
    tableLength: u16,
    tableAddress: u32,
    structureCount: u16,
    bcdRevision: u8)

  predicate WellFormed(e: EntryPoint)
  {
    |e.anchor| == 4 && |e.formatted| == 5 && |e.interAnchor| == 5
  }

  /** The four single-byte fields after the anchor. */
  function Fields(e: EntryPoint): (r: seq<u8>)
  {
    [e.checksum, e.length, e.majorVersion, e.minorVersion]
  }

  /** Bytes 00h-0Fh of the entry point, in memory order. */
  function Header(e: EntryPoint): (r: seq<u8>)
    requires WellFormed(e)
    ensures |r| == 16
  {
    e.anchor + Fields(e) + Le16Bytes(e.maxStructureSize) + [e.revision] + e.formatted
  }

  /** Bytes 10h-1Eh: the intermediate anchor "_DMI_" and the fields its own checksum covers. */
  function Intermediate(e: EntryPoint): (r: seq<u8>)
    requires WellFormed(e)
    ensures |r| == 15
  {
    e.interAnchor + [e.interChecksum] + Le16Bytes(e.tableLength) + Le32Bytes(e.tableAddress)
    + Le16Bytes(e.structureCount) + [e.bcdRevision]
  }

  /** The whole 31-byte (1Fh) entry point. */
  function Bytes(e: EntryPoint): (r: seq<u8>)
    requires WellFormed(e)
    ensures |r| == 31 && r[..16] == Header(e) && r[16..] == Intermediate(e)
  {
    Header(e) + Intermediate(e)
  }

  /** The header checksum rule: bytes 00h-0Fh add up to zero modulo 256. */
  predicate HeaderChecksumOk(e: EntryPoint)
    requires WellFormed(e)
  {
    Sum(Header(e)) % 0x100 == 0
  }

  /**
   * The bytes `checksum_valid` adds: the header, except that
   * `max_structure_size as u8` keeps only the low byte of that field.
   */
  function SummedAsWritten(e: EntryPoint): (r: seq<u8>)
    requires WellFormed(e)
    ensures |r| == 15
  {
    e.anchor + Fields(e) + [e.maxStructureSize % 0x100, e.revision] + e.formatted
  }

  lemma SumCons(x: u8, s: seq<u8>)
    ensures Sum([x] + s) == x + Sum(s)
  {
    SumAppend([x], s);
    assert [x][..0] == [];
  }

  lemma SumPair(x: u8, y: u8)
    ensures Sum([x, y]) == x + y
  {
    assert [x, y] == [x] + [y];
    SumCons(x, [y]);
    SumCons(y, []);
    assert [y] + [] == [y];
  }

  /** The sum of a sequence split in four. */
  lemma SumFour(a: seq<u8>, b: seq<u8>, c: seq<u8>, d: seq<u8>)
    ensures Sum(a + b + c + d) == Sum(a) + Sum(b) + Sum(c) + Sum(d)
  {
    SumAppend(a, b);
    SumAppend(a + b, c);
    SumAppend(a + b + c, d);
  }

  /** The header's sum is the as-written sum plus the high byte of max_structure_size. */
  lemma HeaderTotal(e: EntryPoint)
    requires WellFormed(e)
    ensures Sum(Header(e)) == Sum(SummedAsWritten(e)) + e.maxStructureSize / 0x100
  {
    var size := Le16Bytes(e.maxStructureSize);
    var tail: seq<u8> := [e.maxStructureSize % 0x100, e.revision];
    assert Header(e) == e.anchor + Fields(e) + (size + [e.revision]) + e.formatted;
    SumFour(e.anchor, Fields(e), size + [e.revision], e.formatted);
    SumFour(e.anchor, Fields(e), tail, e.formatted);
    SumAppend(size, [e.revision]);
    SumPair(size[0], size[1]);
    assert size == [size[0], size[1]];
    SumPair(tail[0], tail[1]);
    SumCons(e.revision, []);
    assert [e.revision] + [] == [e.revision];
  }

  /** `iter().sum::<u8>()`, adding with wrap-around. */
  method SumU8(bytes: seq<u8>) returns (sum: u8)
    ensures sum == Sum(bytes) % 0x100
  {
    sum := 0;
    for i := 0 to |bytes|
      invariant sum == Sum(bytes[..i]) % 0x100
    {
      assert bytes[..i + 1][..i] == bytes[..i];
      sum := (sum + bytes[i]) % 0x100;
    }
    assert bytes[..|bytes|] == bytes;
  }

  /** Adding to a value already reduced modulo 256. */
  lemma AddMod(a: nat, b: nat)
    ensures (a % 0x100 + b) % 0x100 == (a + b) % 0x100
  {
  }

  /**
   * The wrapping sum `checksum_valid` compares with zero: the anchor's sum,
   * then one `sum +=` per single-byte field and the low byte of
   * max_structure_size, then the formatted area's sum.
   */
  method ChecksumSum(e: EntryPoint) returns (sum: u8)
    requires WellFormed(e)
    ensures sum == Sum(SummedAsWritten(e)) % 0x100
  {
    sum := SumU8(e.anchor);
    ghost var total: nat := Sum(e.anchor);
    var fields: seq<u8> := Fields(e) + [e.maxStructureSize % 0x100, e.revision];
    for i := 0 to |fields|
      invariant total == Sum(e.anchor) + Sum(fields[..i]) && sum == total % 0x100
    {
      assert fields[..i + 1][..i] == fields[..i];
      AddMod(total, fields[i]);
      sum := (sum + fields[i]) % 0x100;
      total := total + fields[i];
    }
    var formatted := SumU8(e.formatted);
    AddMod(total, formatted);
    AddMod(Sum(e.formatted), total);
    sum := (sum + formatted) % 0x100;
    assert fields[..|fields|] == fields;
    SumAppend(e.anchor, fields);
    SumAppend(e.anchor + fields, e.formatted);
    assert e.anchor + fields + e.formatted == SummedAsWritten(e);
  }

  /** `Smbios::checksum_valid` as written, adding in a u8 that wraps (as a release build does). */
  method ChecksumValidAsWritten(e: EntryPoint) returns (valid: bool)
    requires WellFormed(e)
    ensures valid <==> Sum(SummedAsWritten(e)) % 0x100 == 0
  {
    var sum := ChecksumSum(e);
    valid := sum == 0;
  }

  /**
   * The corrected test: the high byte of max_structure_size is added too,
   * so it holds exactly under the header checksum rule.
   */
  method ChecksumValid(e: EntryPoint) returns (valid: bool)
    requires WellFormed(e)
    ensures valid <==> HeaderChecksumOk(e)
  {
    var partial := ChecksumSum(e);
    var sum := (partial + e.maxStructureSize / 0x100) % 0x100;
    AddMod(Sum(SummedAsWritten(e)), e.maxStructureSize / 0x100);
    HeaderTotal(e);
    valid := sum == 0;
  }

  /**
   * The two tests agree whenever max_structure_size fits in a byte, and
   * otherwise the as-written one is off by that high byte.
   */
  lemma AsWrittenAgreesBelow256(e: EntryPoint)
    requires WellFormed(e) && e.maxStructureSize < 0x100
    ensures (Sum(SummedAsWritten(e)) % 0x100 == 0) <==> HeaderChecksumOk(e)
  {
    HeaderTotal(e);
  }

  /** An entry point with the "_SM_" anchor, version 2.8 and a 256-byte largest structure. */
  const SAMPLE: EntryPoint := EntryPoint(
    [0x5F, 0x53, 0x4D, 0x5F], 0x78, 0x1F, 2, 8, 0x0100, 0, [0, 0, 0, 0, 0],
    [0x5F, 0x44, 0x4D, 0x49, 0x5F], 0, 0, 0, 0, 0)

  /**
   * The sample satisfies the header checksum rule, yet `checksum_valid`
   * reports it invalid, because the 01h at offset 09h is not added.
   */
  lemma AsWrittenRejectsValidEntry()
    ensures WellFormed(SAMPLE) && HeaderChecksumOk(SAMPLE)
    ensures Sum(SummedAsWritten(SAMPLE)) % 0x100 != 0
  {
    var e := SAMPLE;
    assert Sum(e.anchor) == 350 by {
      assert e.anchor == [0x5F, 0x53] + [0x4D, 0x5F];
      SumAppend([0x5F, 0x53], [0x4D, 0x5F]);
      SumPair(0x5F, 0x53);
      SumPair(0x4D, 0x5F);
    }
    assert Sum(Fields(e)) == 161 by {
      assert Fields(e) == [0x78, 0x1F] + [2, 8];
      SumAppend([0x78, 0x1F], [2, 8]);
      SumPair(0x78, 0x1F);
      SumPair(2, 8);
    }
    assert Sum([e.maxStructureSize % 0x100, e.revision]) == 0 by {
      SumPair(0, 0);
    }
    assert Sum(e.formatted) == 0 by {
      assert e.formatted == seq(5, _ => 0);
      SumZeros(5);
    }
    SumFour(e.anchor, Fields(e), [e.maxStructureSize % 0x100, e.revision], e.formatted);
    HeaderTotal(e);
  }

  /** The checksum byte that makes a header add up to zero. */
  function ChecksumFor(e: EntryPoint): (c: u8)
    requires WellFormed(e)
  {
    (0x100 - (Sum(Header(e)) - e.checksum) % 0x100) % 0x100
  }

  /** The checksum byte contributes itself to the header sum. */
  lemma HeaderWithChecksum(e: EntryPoint, c: u8)
    requires WellFormed(e)
    ensures Sum(Header(e.(checksum := c))) == Sum(Header(e)) - e.checksum + c
  {
    var f := e.(checksum := c);
    var rest := Le16Bytes(e.maxStructureSize) + [e.revision];
    assert Header(e) == e.anchor + Fields(e) + rest + e.formatted;
    assert Header(f) == e.anchor + Fields(f) + rest + e.formatted;
    SumFour(e.anchor, Fields(e), rest, e.formatted);
    SumFour(e.anchor, Fields(f), rest, e.formatted);
    var tail := [e.length, e.majorVersion, e.minorVersion];
    assert Fields(e) == [e.checksum] + tail && Fields(f) == [c] + tail;
    SumCons(e.checksum, tail);
    SumCons(c, tail);
  }

  /** Exactly one checksum byte makes an entry point pass: `ChecksumFor`. */
  lemma ChecksumForUnique(e: EntryPoint, c: u8)
    requires WellFormed(e)
    ensures HeaderChecksumOk(e.(checksum := c)) <==> c == ChecksumFor(e)
  {
    HeaderWithChecksum(e, c);
    assert Sum(Header(e)) >= e.checksum by {
      HeaderWithChecksum(e, 0);
    }
  }

  /**
   * Section 5.2.1 of DSP0134 checksums all Entry Point Length (1Fh)
   * bytes; when the intermediate checksum holds, that whole-structure rule
   * is equivalent to the header rule, so testing the header suffices.
   */
  lemma WholeEntryPointRule(e: EntryPoint)
    requires WellFormed(e) && Sum(Intermediate(e)) % 0x100 == 0
    ensures HeaderChecksumOk(e) <==> Sum(Bytes(e)) % 0x100 == 0
  {
    SumAppend(Header(e), Intermediate(e));
  }

  // ---------------------------------------------------------------------
  // smbios_data

  /** `SMBIOS_GUID` and `SMBIOS3_GUID`, as section 4.6 of the UEFI Specification defines them. */
  const SMBIOS_GUID: Guid.CGuid := Guid.CGuid(0xEB9D2D31, 0x2D88, 0x11D3, [0x9A, 0x16, 0x00, 0x90, 0x27, 0x3F, 0xC1, 0x4D])
  const SMBIOS3_GUID: Guid.CGuid := Guid.CGuid(0xF2FD1544, 0x9794, 0x4A2C, [0x99, 0x2E, 0xE5, 0xBB, 0xCF, 0x20, 0xE3, 0x94])

  /**
   * A configuration table entry.  `entry` holds the bytes at the entry's
   * address: an SMBIOS 3.0 entry point (table length u32 at 0Ch, table
   * address u64 at 10h) or an SMBIOS 2.1 one (table length u16 at 16h,
   * table address u32 at 18h).
   */
  datatype ConfigTable = ConfigTable(guid: Guid.CGuid, entry: seq<u8>)

  predicate IsSmbios(t: ConfigTable)
  {
    t.guid == SMBIOS3_GUID || t.guid == SMBIOS_GUID
  }

  /**
   * Where the structure table lies: (address, length).  `Smbios3` has no
   * `#[repr(C)]`; its fields are taken in declared order, the entry-point
   * layout of section 5.2.2 of DMTF DSP0134.
   */
  function TableRange(t: ConfigTable): (r: Option<(nat, nat)>)
    ensures r.Some? <==> IsSmbios(t) && |t.entry| >= (if t.guid == SMBIOS3_GUID then 24 else 0x1C)
  {
    if t.guid == SMBIOS3_GUID then
      if |t.entry| < 24 then None
      else Some((Le32At(t.entry, 0x10) + 0x1_0000_0000 * Le32At(t.entry, 0x14), Le32At(t.entry, 0x0C) as nat))
    else if t.guid == SMBIOS_GUID then
      if |t.entry| < 0x1C then None
      else Some((Le32At(t.entry, 0x18) as nat, Le16At(t.entry, 0x16) as nat))
    else None
  }

  /**
   * The entry's structure table can be read: the entry point is complete
   * and the table lies inside `memory`.  The source reads it through raw
   * addresses, so anything else is undefined behaviour there.
   */
  predicate Readable(t: ConfigTable, memory: seq<u8>)
  {
    TableRange(t).Some? && TableRange(t).value.0 + TableRange(t).value.1 <= |memory|
  }

  /** Index of the first SMBIOS or SMBIOS3 table. */
  function FirstSmbios(tables: seq<ConfigTable>): (r: Option<nat>)
    ensures r.None? <==> forall i :: 0 <= i < |tables| ==> !IsSmbios(tables[i])
    ensures r.Some? ==>
      && r.value < |tables| && IsSmbios(tables[r.value])
      && (forall j :: 0 <= j < r.value ==> !IsSmbios(tables[j]))
  {
    if tables == [] then None
    else if IsSmbios(tables[0]) then Some(0)
    else match FirstSmbios(tables[1..])
      case None => None
      case Some(i) => Some(i + 1)
  }

  /** The bytes of the table an entry points to. */
  function TableData(t: ConfigTable, memory: seq<u8>): (r: seq<u8>)
    requires Readable(t, memory)
    ensures |r| == TableRange(t).value.1
  {
    var (address, length) := TableRange(t).value;
    memory[address..address + length]
  }

  /**
   * `smbios_data`: a copy of the structure table of the first SMBIOS3 or
   * SMBIOS configuration table, or None when there is neither.  Only the
   * table it stops at is dereferenced.
   */
  method SmbiosData(tables: seq<ConfigTable>, memory: seq<u8>) returns (r: Option<seq<u8>>)
    requires FirstSmbios(tables).Some? ==> Readable(tables[FirstSmbios(tables).value], memory)
    ensures r.None? <==> FirstSmbios(tables).None?
    ensures r.Some? ==> r.value == TableData(tables[FirstSmbios(tables).value], memory)
  {
    for i := 0 to |tables|
      invariant forall j :: 0 <= j < i ==> !IsSmbios(tables[j])
    {
      if IsSmbios(tables[i]) {
        FirstIsSmbios(tables, i);
        return Some(TableData(tables[i], memory));
      }
    }
    return None;
  }

  /** An SMBIOS table with no SMBIOS table before it is the first one. */
  lemma FirstIsSmbios(tables: seq<ConfigTable>, i: nat)
    requires i < |tables| && IsSmbios(tables[i])
    requires forall j :: 0 <= j < i ==> !IsSmbios(tables[j])
    ensures FirstSmbios(tables) == Some(i)
  {
  }
}
