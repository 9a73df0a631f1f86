/**
 * The Intel CSME (Converged Security and Management Engine) firmware
 * version: its "platform:major.minor.hotfix.buildno" text form and the
 * sysfs reader that parses it from each MEI device's `fw_ver` file.
 */
module Csme {
  import opened Common
  import Text

  datatype CsmeInfo = CsmeInfo(
    enabled: bool,
    verPlatform: u32,
    verMajor: u32,
    verMinor: u32,
    verHotfix: u32,
    verBuildno: u32)

  /** `format_csme_ver`: "platform:major.minor.hotfix.buildno" in decimal. */
  function FormatCsmeVer(info: CsmeInfo): (r: string)
  {
    Text.FormatDec(info.verPlatform) + ":"
    + (Text.FormatDec(info.verMajor) + "." + Text.FormatDec(info.verMinor) + "."
       + Text.FormatDec(info.verHotfix) + "." + Text.FormatDec(info.verBuildno))
  }

  datatype Version = Version(platform: u32, major: u32, minor: u32, hotfix: u32, buildno: u32)

  const EXPECT_PANIC: string := "Unexpected value"
  const INDEX_PANIC: string := "index out of bounds"

  /** `s.parse::<u32>().expect("Unexpected value")`. */
  function ParseU32(s: string): (r: Outcome<u32>)
    ensures r.Returns? <==> Text.ParseUnsigned(s, 10, U32_MAX).Some?
    ensures r.Returns? ==> r.value == Text.ParseUnsigned(s, 10, U32_MAX).value
  {
    match Text.ParseUnsigned(s, 10, U32_MAX)
    case None => Panics(EXPECT_PANIC)
    case Some(n) => Returns(n)
  }

  /**
   * The version-string parse inside `csme_from_sysfs`: split on ':', then
   * the second piece on '.', and parse the first five numbers; only the
   * last is trimmed.  A missing piece is an index panic, a bad number an
   * `expect` panic, and pieces beyond those read are ignored.
   */
  function ParseFwVer(fwVer: string): (r: Outcome<Version>)
    ensures r.Returns? ==> |Text.Split(fwVer, ':')| >= 2 && |Text.Split(Text.Split(fwVer, ':')[1], '.')| >= 4
    ensures |Text.Split(fwVer, ':')| < 2 ==> r.Panics?
  {
    var sections := Text.Split(fwVer, ':');
    var first :- ParseU32(sections[0]);
    if |sections| < 2 then Panics(INDEX_PANIC)
    else ParseDotted(first, Text.Split(sections[1], '.'))
  }

  /** The pieces after the colon, split at '.': major, minor, hotfix, then the trimmed build number. */
  function ParseDotted(first: u32, right: seq<string>): (r: Outcome<Version>)
    ensures r.Returns? ==> |right| >= 4
  {
    if |right| < 1 then Panics(INDEX_PANIC)
    else
      var second :- ParseU32(right[0]);
      if |right| < 2 then Panics(INDEX_PANIC)
      else
        var third :- ParseU32(right[1]);
        if |right| < 3 then Panics(INDEX_PANIC)
        else
          var fourth :- ParseU32(right[2]);
          if |right| < 4 then Panics(INDEX_PANIC)
          else
            var fifth :- ParseU32(Text.Trim(right[3]));
            Returns(Version(first, second, third, fourth, fifth))
  }

  function VersionOf(info: CsmeInfo): Version
  {
    Version(info.verPlatform, info.verMajor, info.verMinor, info.verHotfix, info.verBuildno)
  }

  /** Four dot-free pieces joined with '.' split back into them. */
  lemma SplitDots(a: string, b: string, c: string, d: string)
    requires '.' !in a && '.' !in b && '.' !in c && '.' !in d
    ensures Text.Split(a + "." + b + "." + c + "." + d, '.') == [a, b, c, d]
  {
    JoinFour(a, b, c, d);
    Text.SplitJoin([a, b, c, d], '.');
  }

  /** Joining four pieces with '.' puts a dot between neighbours. */
  lemma JoinFour(a: string, b: string, c: string, d: string)
    ensures Text.Join([a, b, c, d], '.') == a + "." + b + "." + c + "." + d
  {
    var ps := [a, b, c, d];
    assert ps[1..] == [b, c, d] && ps[1..][1..] == [c, d] && ps[1..][1..][1..] == [d];
    assert Text.Join([c, d], '.') == c + "." + d;
    assert Text.Join([b, c, d], '.') == b + "." + (c + "." + d);
  }

  /** Two colon-free pieces joined with ':' split back into them. */
  lemma SplitColon(p: string, right: string)
    requires ':' !in p && ':' !in right
    ensures Text.Split(p + ":" + right, ':') == [p, right]
  {
    assert [p, right][1..] == [right];
    assert p + ":" + right == Text.Join([p, right], ':');
    Text.SplitJoin([p, right], ':');
  }

  /** A decimal numeral: digits only, and its value. */
  predicate Numeral(s: string, n: u32)
  {
    Text.AllDigits(s, 10) && Text.ParseUnsigned(s, 10, U32_MAX) == Some(n as nat)
  }

  /** A digit string holds neither separator. */
  lemma NumeralUnseparated(s: string)
    requires Text.AllDigits(s, 10)
    ensures ':' !in s && '.' !in s
  {
    Text.DigitsAscii(s, 10);
  }

  /** A digit string has no white space to trim. */
  lemma NumeralTrimmed(s: string)
    requires Text.AllDigits(s, 10)
    ensures Text.Trim(s) == s
  {
    Text.DigitsAscii(s, 10);
    if s != [] {
      Text.TrimUnchanged(s);
    }
  }

  /** Five numerals joined as "p:a.b.c.d" parse back to their values. */
  lemma ParseJoined(p: string, a: string, b: string, c: string, d: string, v: Version)
    requires Numeral(p, v.platform) && Numeral(a, v.major) && Numeral(b, v.minor)
    requires Numeral(c, v.hotfix) && Numeral(d, v.buildno)
    ensures ParseFwVer(p + ":" + (a + "." + b + "." + c + "." + d)) == Returns(v)
  {
    var right := a + "." + b + "." + c + "." + d;
    assert Text.Split(right, '.') == [a, b, c, d] by {
      NumeralUnseparated(a);
      NumeralUnseparated(b);
      NumeralUnseparated(c);
      NumeralUnseparated(d);
      SplitDots(a, b, c, d);
    }
    assert Text.Split(p + ":" + right, ':') == [p, right] by {
      NumeralUnseparated(p);
      DottedColonFree(a, b, c, d);
      SplitColon(p, right);
    }
    NumeralTrimmed(d);
    ParseSections(p + ":" + right, p, right, a, b, c, d, v);
  }

  /** Once the pieces are known, the five numbers are parsed from them in order. */
  lemma ParseSections(s: string, p: string, right: string, a: string, b: string, c: string, d: string, v: Version)
    requires Text.Split(s, ':') == [p, right] && Text.Split(right, '.') == [a, b, c, d]
    requires ParseU32(p) == Returns(v.platform) && ParseU32(a) == Returns(v.major) && ParseU32(b) == Returns(v.minor)
    requires ParseU32(c) == Returns(v.hotfix) && ParseU32(Text.Trim(d)) == Returns(v.buildno)
    ensures ParseFwVer(s) == Returns(v)
  {
    var sections := Text.Split(s, ':');
    assert sections[0] == p && sections[1] == right;
    var pieces := Text.Split(right, '.');
    assert pieces[0] == a && pieces[1] == b && pieces[2] == c && pieces[3] == d;
    DottedParses(pieces, v);
  }

  lemma DottedParses(right: seq<string>, v: Version)
    requires |right| == 4
    requires ParseU32(right[0]) == Returns(v.major) && ParseU32(right[1]) == Returns(v.minor)
    requires ParseU32(right[2]) == Returns(v.hotfix) && ParseU32(Text.Trim(right[3])) == Returns(v.buildno)
    ensures ParseDotted(v.platform, right) == Returns(v)
  {
  }

  /** Numerals joined with dots hold no colon. */
  lemma DottedColonFree(a: string, b: string, c: string, d: string)
    requires Text.AllDigits(a, 10) && Text.AllDigits(b, 10) && Text.AllDigits(c, 10) && Text.AllDigits(d, 10)
    ensures ':' !in a + "." + b + "." + c + "." + d
  {
    NumeralUnseparated(a);
    NumeralUnseparated(b);
    NumeralUnseparated(c);
    NumeralUnseparated(d);
    assert ':' !in "." && ':' !in a + ".";
    assert ':' !in a + "." + b;
    assert ':' !in a + "." + b + ".";
    assert ':' !in a + "." + b + "." + c;
    assert ':' !in a + "." + b + "." + c + ".";
  }

  /** `format!("{}", n)` is a numeral for n. */
  lemma DecimalNumeral(n: u32)
    ensures Numeral(Text.FormatDec(n), n)
  {
    Text.FormatRadixValue(n, 10, false);
    Text.ParseFormatDec(n, U32_MAX);
  }

  /** Round trip: parsing `format_csme_ver` output recovers all five numbers. */
  lemma ParseFormatCsmeVer(info: CsmeInfo)
    ensures ParseFwVer(FormatCsmeVer(info)) == Returns(VersionOf(info))
  {
    DecimalNumeral(info.verPlatform);
    DecimalNumeral(info.verMajor);
    DecimalNumeral(info.verMinor);
    DecimalNumeral(info.verHotfix);
    DecimalNumeral(info.verBuildno);
    ParseJoined(Text.FormatDec(info.verPlatform), Text.FormatDec(info.verMajor), Text.FormatDec(info.verMinor),
      Text.FormatDec(info.verHotfix), Text.FormatDec(info.verBuildno), VersionOf(info));
  }

  // ---------------------------------------------------------------------
  // csme_from_sysfs

  /** One entry of /sys/class/mei: whether it is a directory and the two files read from it. */
  datatype MeiEntry = MeiEntry(isDir: bool, devState: string, fwVer: string)

  const NOT_FOUND: string := "Failed to get CSME info from sysfs"
  const ASSERT_PANIC: string := "assertion failed"

  /**
   * What one device directory yields: enabled iff `dev_state` is exactly
   * "ENABLED"; every line of `fw_ver` must equal the first (asserted), and
   * the first is parsed.
   */
  function EntryInfo(e: MeiEntry): Outcome<CsmeInfo>
  {
    var enabled := e.devState == "ENABLED";
    var fwVers := Text.Lines(e.fwVer);
    if exists k :: 0 <= k < |fwVers| && fwVers[k] != fwVers[0] then Panics(ASSERT_PANIC)
    else if |fwVers| == 0 then Panics(INDEX_PANIC)
    else
      var v :- ParseFwVer(fwVers[0]);
      Returns(CsmeInfo(enabled, v.platform, v.major, v.minor, v.hotfix, v.buildno))
  }

  /**
   * An entry yields information only when its `fw_ver` lines all agree
   * and the first parses; the result carries that version and is enabled
   * exactly when `dev_state` reads "ENABLED".
   */
  lemma EntryInfoSpec(e: MeiEntry)
    ensures var r, lines := EntryInfo(e), Text.Lines(e.fwVer);
      && (r.Returns? ==> |lines| >= 1 && (forall k :: 0 <= k < |lines| ==> lines[k] == lines[0]))
      && (r.Returns? ==> ParseFwVer(lines[0]).Returns? && VersionOf(r.value) == ParseFwVer(lines[0]).value)
      && (r.Returns? ==> (r.value.enabled <==> e.devState == "ENABLED"))
      && (|lines| >= 1 && (forall k :: 0 <= k < |lines| ==> lines[k] == lines[0]) && ParseFwVer(lines[0]).Returns? ==> r.Returns?)
  {
  }

  /**
   * The loop of `csme_from_sysfs` from entry `i` on, with `info` found so
   * far: the "at most one device" assertion fires on any entry after a
   * device directory was read.
   */
  function ScanEntries(entries: seq<MeiEntry>, i: nat, info: Option<CsmeInfo>): Outcome<Option<CsmeInfo>>
    requires i <= |entries|
    decreases |entries| - i
  {
    if i == |entries| then Returns(info)
    else if info.Some? then Panics(ASSERT_PANIC)
    else if entries[i].isDir then
      var x :- EntryInfo(entries[i]);
      ScanEntries(entries, i + 1, Some(x))
    else ScanEntries(entries, i + 1, info)
  }

  /** `csme_from_sysfs` with the directory listing as input; I/O errors are not modelled. */
  function CsmeOf(dirExists: bool, entries: seq<MeiEntry>): Outcome<Result<CsmeInfo, string>>
  {
    var found :- if dirExists then ScanEntries(entries, 0, None) else Returns(None);
    if found.Some? then Returns(Ok(found.value)) else Returns(Err(NOT_FOUND))
  }

  /** `csme_from_sysfs`: the loop over the entries of /sys/class/mei. */
  method CsmeFromSysfs(dirExists: bool, entries: seq<MeiEntry>) returns (r: Outcome<Result<CsmeInfo, string>>)
    ensures r == CsmeOf(dirExists, entries)
  {
    var csmeInfo: Option<CsmeInfo> := None;
    if dirExists {
      var i := 0;
      while i < |entries|
        invariant i <= |entries|
        invariant ScanEntries(entries, 0, None) == ScanEntries(entries, i, csmeInfo)
      {
        if csmeInfo.Some? {
          return Panics(ASSERT_PANIC);
        }
        var entry := entries[i];
        if entry.isDir {
          var info := EntryInfo(entry);
          if info.Panics? {
            return Panics(info.reason);
          }
          csmeInfo := Some(info.value);
        }
        i := i + 1;
      }
    }
    if csmeInfo.Some? {
      r := Returns(Ok(csmeInfo.value));
    } else {
      r := Returns(Err(NOT_FOUND));
    }
  }

  /** Without device directories from `i` on, nothing is found. */
  lemma {:induction false} ScanNoDevice(entries: seq<MeiEntry>, i: nat)
    requires i <= |entries|
    requires forall k :: i <= k < |entries| ==> !entries[k].isDir
    ensures ScanEntries(entries, i, None) == Returns(None)
    decreases |entries| - i
  {
    if i < |entries| {
      ScanNoDevice(entries, i + 1);
    }
  }

  /** A device directory that is not the last entry trips the assertion (or panics while being read). */
  lemma {:induction false} ScanSecondEntryPanics(entries: seq<MeiEntry>, i: nat, k: nat)
    requires i <= k < |entries| - 1 && entries[k].isDir
    ensures ScanEntries(entries, i, None).Panics?
    decreases |entries| - i
  {
    if i < k && !entries[i].isDir {
      ScanSecondEntryPanics(entries, i + 1, k);
    }
  }

  /** What is found is read from the last entry, the only device directory from `i` on. */
  lemma {:induction false} ScanFoundLast(entries: seq<MeiEntry>, i: nat)
    requires i <= |entries|
    requires ScanEntries(entries, i, None).Returns? && ScanEntries(entries, i, None).value.Some?
    ensures i < |entries| && entries[|entries| - 1].isDir
    ensures forall k :: i <= k < |entries| - 1 ==> !entries[k].isDir
    ensures EntryInfo(entries[|entries| - 1]) == Returns(ScanEntries(entries, i, None).value.value)
    decreases |entries| - i
  {
    if !entries[i].isDir {
      ScanFoundLast(entries, i + 1);
      assert forall k :: i + 1 <= k < |entries| - 1 ==> !entries[k].isDir;
    } else {
      var e := EntryInfo(entries[i]);
      assert e.Returns?;
      assert ScanEntries(entries, i, None) == ScanEntries(entries, i + 1, Some(e.value));
      ScanAfterFound(entries, i + 1, e.value);
      assert i == |entries| - 1;
    }
  }

  /** Once a device was read, the scan only returns if no entry is left. */
  lemma ScanAfterFound(entries: seq<MeiEntry>, j: nat, x: CsmeInfo)
    requires j <= |entries|
    ensures ScanEntries(entries, j, Some(x)) == if j == |entries| then Returns(Some(x)) else Panics(ASSERT_PANIC)
  {
  }

  /**
   * At most one MEI device is supported: no directory or no device gives
   * NotFound, a device before the last entry panics, and a result is the
   * information read from the one device, the last entry.
   */
  lemma CsmeOfSpec(dirExists: bool, entries: seq<MeiEntry>)
    ensures !dirExists ==> CsmeOf(dirExists, entries) == Returns(Err(NOT_FOUND))
    ensures (forall k :: 0 <= k < |entries| ==> !entries[k].isDir) ==> CsmeOf(dirExists, entries) == Returns(Err(NOT_FOUND))
    ensures dirExists && (exists k :: 0 <= k < |entries| - 1 && entries[k].isDir) ==> CsmeOf(dirExists, entries).Panics?
    ensures var r := CsmeOf(dirExists, entries);
      r.Returns? && r.value.Ok? ==>
      && dirExists && |entries| > 0 && entries[|entries| - 1].isDir
      && (forall k :: 0 <= k < |entries| - 1 ==> !entries[k].isDir)
      && EntryInfo(entries[|entries| - 1]) == Returns(r.value.value)
  {
    if forall k :: 0 <= k < |entries| ==> !entries[k].isDir {
      ScanNoDevice(entries, 0);
    }
    if dirExists && exists k :: 0 <= k < |entries| - 1 && entries[k].isDir {
      var k :| 0 <= k < |entries| - 1 && entries[k].isDir;
      ScanSecondEntryPanics(entries, 0, k);
    }
    var r := CsmeOf(dirExists, entries);
    if r.Returns? && r.value.Ok? {
      ScanFoundLast(entries, 0);
    }
  }
}
