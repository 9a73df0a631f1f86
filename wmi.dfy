/**
 * Driver versions on Windows: the per-platform baseline of expected
 * versions, the decision to show an expected version next to the one
 * found, the collection of detected drivers from three WMI tables, and the
 * TOML baseline written from them.  The WMI queries themselves, the
 * embedded TOML files and their parser are parameters.
 */
module Wmi {
  import opened Common
  import Text
  import Config

  // ---------------------------------------------------------------------
  // Baselines

  /** `BaselineConfig.versions`: driver alias to expected version. */
  type Baseline = map<string, string>

  /** The platforms that ship a baseline file. */
  predicate HasBaselineFile(p: Config.Platform)
  {
    !p.GenericFramework? && !p.UnknownSystem?
  }

  /** The embedded baseline file of each platform that has one. */
  function BaselineFile(p: Config.Platform): string
    requires HasBaselineFile(p)
  {
    match p
    case Framework12IntelGen13 => "baselines/framework12_intel_gen13.toml"
    case IntelGen11 => "baselines/intel_gen11.toml"
    case IntelGen12 => "baselines/intel_gen12.toml"
    case IntelGen13 => "baselines/intel_gen13.toml"
    case IntelCoreUltra1 => "baselines/intel_core_ultra1.toml"
    case Framework13Amd7080 => "baselines/framework13_amd_7080.toml"
    case Framework13AmdAi300 => "baselines/framework13_amd_ai300.toml"
    case Framework16Amd7080 => "baselines/framework16_amd_7080.toml"
    case Framework16AmdAi300 => "baselines/framework16_amd_ai300.toml"
    case FrameworkDesktopAmdAiMax300 => "baselines/framework_desktop_amd_ai_max300.toml"
  }

  /**
   * `load_baseline_for_platform`: the parsed baseline file of the platform,
   * or no expected versions at all for a generic or unknown system and for
   * a file that does not parse.  `parsed` is the TOML parser applied to
   * the embedded file of that name.
   */
  function LoadBaseline(p: Config.Platform, parsed: string -> Option<Baseline>): (b: Baseline)
    ensures b != map[] ==> HasBaselineFile(p) && parsed(BaselineFile(p)) == Some(b)
    ensures HasBaselineFile(p) && parsed(BaselineFile(p)).Some? ==> b == parsed(BaselineFile(p)).value
  {
    if !HasBaselineFile(p) then map[]
    else match parsed(BaselineFile(p))
      case Some(b) => b
      case None => map[]
  }

  /** The baseline `print_drivers_with_baseline` compares with: none without a platform. */
  function BaselineFor(platform: Option<Config.Platform>, parsed: string -> Option<Baseline>): (b: Baseline)
    ensures platform.None? ==> b == map[]
    ensures platform.Some? ==> b == LoadBaseline(platform.value, parsed)
  {
    match platform
    case None => map[]
    case Some(p) => LoadBaseline(p, parsed)
  }

  /** The expected version that stands for "any version". */
  const ANY_VERSION: string := "0.0.0.0"

  /**
   * `print_version_with_baseline`: the expected version to print beside
   * the one found, if any.  It is shown exactly when the baseline lists
   * the alias, does not accept any version, and differs from the version
   * found.
   */
  function ExpectedShown(version: string, alias: string, baseline: Baseline): (r: Option<string>)
    ensures r.Some? <==> alias in baseline && baseline[alias] != ANY_VERSION && version != baseline[alias]
    ensures r.Some? ==> r.value == baseline[alias]
  {
    if alias in baseline then
      var expected := baseline[alias];
      if expected != ANY_VERSION && version != expected then Some(expected) else None
    else None
  }

  /** The line printed for a driver's version. */
  function VersionLine(version: string, alias: string, baseline: Baseline): (line: string)
    ensures Text.StartsWith(line, "    Version: " + version)
    ensures ExpectedShown(version, alias, baseline).None? <==> line == "    Version: " + version
  {
    match ExpectedShown(version, alias, baseline)
    case Some(expected) => "    Version: " + version + " (expected: " + expected + ")"
    case None => "    Version: " + version
  }

  /** Without a platform, or on a platform without a baseline, no version is ever flagged. */
  lemma NoBaselineNoMismatch(platform: Option<Config.Platform>, parsed: string -> Option<Baseline>,
                             version: string, alias: string)
    requires platform.None? || !HasBaselineFile(platform.value) || parsed(BaselineFile(platform.value)).None?
    ensures ExpectedShown(version, alias, BaselineFor(platform, parsed)).None?
  {
  }

  /** A version that matches its baseline entry is not flagged, whatever else the baseline holds. */
  lemma MatchingVersionNotFlagged(version: string, alias: string, baseline: Baseline)
    requires alias in baseline && baseline[alias] == version
    ensures ExpectedShown(version, alias, baseline).None?
  {
  }

  /** A "0.0.0.0" baseline entry accepts every version. */
  lemma AnyVersionAcceptsAll(version: string, alias: string, baseline: Baseline)
    requires alias in baseline && baseline[alias] == ANY_VERSION
    ensures ExpectedShown(version, alias, baseline).None?
  {
  }

  // ---------------------------------------------------------------------
  // Collecting drivers

  /** A WMI property value; only strings carry a name, path or version. */
  datatype Variant = VString(s: string) | VOther

  /** One row of a WMI query: property name to value. */
  type Row = map<string, Variant>

  /** `drivers.toml`: WMI names to driver aliases, per table. */
  datatype DriversConfig = DriversConfig(
    pnpDrivers: map<string, string>, products: map<string, string>, systemDrivers: map<string, string>)

  /** The detected drivers: alias to version. */
  datatype DetectedDrivers = DetectedDrivers(drivers: map<string, string>)

  /** The three tables `collect_drivers` queries, in order. */
  datatype Table = PnpSignedDriver | Product | SystemDriver

  /** Indexing a row by a property it lacks panics, as `HashMap`'s `Index` does. */
  const KEY_PANIC: string := "no entry found for key"

  function Property(row: Row, name: string): (r: Outcome<Variant>)
    ensures r.Returns? <==> name in row
    ensures r.Returns? ==> r.value == row[name]
  {
    if name in row then Returns(row[name]) else Panics(KEY_PANIC)
  }

  /** `path_name.replace("\\", "\\\\")`: every backslash doubled. */
  function DoubleBackslashes(s: string): (r: string)
    ensures |r| >= |s|
  {
    if s == [] then []
    else (if s[0] == '\\' then "\\\\" else [s[0]]) + DoubleBackslashes(s[1..])
  }

  /** Reading a doubled backslash as one backslash. */
  function UndoubleBackslashes(s: string): string
  {
    if s == [] then []
    else if s[0] == '\\' && |s| >= 2 && s[1] == '\\' then "\\" + UndoubleBackslashes(s[2..])
    else [s[0]] + UndoubleBackslashes(s[1..])
  }

  /** Doubling is undone exactly: different paths give different queries. */
  lemma {:induction false} UndoubleDouble(s: string)
    ensures UndoubleBackslashes(DoubleBackslashes(s)) == s
  {
    if s != [] {
      UndoubleDouble(s[1..]);
      if s[0] == '\\' {
        assert DoubleBackslashes(s) == "\\\\" + DoubleBackslashes(s[1..]);
        assert DoubleBackslashes(s)[2..] == DoubleBackslashes(s[1..]);
      } else {
        assert DoubleBackslashes(s) == [s[0]] + DoubleBackslashes(s[1..]);
        assert DoubleBackslashes(s)[1..] == DoubleBackslashes(s[1..]);
      }
    }
  }

  /** The query for the version of the file a system driver is loaded from. */
  function VersionQuery(path: string): (q: string)
    ensures Text.StartsWith(q, "SELECT Version FROM CIM_Datafile WHERE Name = '")
  {
    "SELECT Version FROM CIM_Datafile WHERE Name = '" + DoubleBackslashes(path) + "'"
  }

  /**
   * One row of the PnP-driver or product table: a row whose name or
   * version is not a string is skipped; a known name records its alias
   * with the version.
   */
  function NamedRowStep(table: map<string, string>, nameKey: string, versionKey: string,
                        drivers: map<string, string>, row: Row): Outcome<map<string, string>>
  {
    var name :- Property(row, nameKey);
    if !name.VString? then Returns(drivers)
    else
      var version :- Property(row, versionKey);
      if !version.VString? then Returns(drivers)
      else if name.s in table then Returns(drivers[table[name.s] := version.s])
      else Returns(drivers)
  }

  /**
   * One row of the system-driver table: besides a name and a path that
   * are strings, the path must start with "C:", the file query must
   * succeed with at least one row, and that row's version must be a
   * string.  `query` answers a query with its rows, or None for an error.
   */
  function SystemRowStep(table: map<string, string>, query: string -> Option<seq<Row>>,
                         drivers: map<string, string>, row: Row): Outcome<map<string, string>>
  {
    var name :- Property(row, "Name");
    if !name.VString? then Returns(drivers)
    else
      var path :- Property(row, "PathName");
      if !path.VString? || !Text.StartsWith(path.s, "C:") then Returns(drivers)
      else match query(VersionQuery(path.s))
        case None => Returns(drivers)
        case Some(results) =>
          if results == [] then Returns(drivers)
          else
            var version :- Property(results[0], "Version");
            if version.VString? && name.s in table then Returns(drivers[table[name.s] := version.s])
            else Returns(drivers)
  }

  /** The loop body of `collect_drivers` for a row of the given table. */
  function Step(config: DriversConfig, query: string -> Option<seq<Row>>, t: Table,
                drivers: map<string, string>, row: Row): Outcome<map<string, string>>
  {
    match t
    case PnpSignedDriver => NamedRowStep(config.pnpDrivers, "DeviceName", "DriverVersion", drivers, row)
    case Product => NamedRowStep(config.products, "Name", "Version", drivers, row)
    case SystemDriver => SystemRowStep(config.systemDrivers, query, drivers, row)
  }

  /** The drivers after the rows of one table, or the panic of the first row that panics. */
  function Rows(config: DriversConfig, query: string -> Option<seq<Row>>, t: Table,
                start: map<string, string>, rows: seq<Row>): Outcome<map<string, string>>
  {
    if rows == [] then Returns(start)
    else
      var drivers :- Rows(config, query, t, start, rows[..|rows| - 1]);
      Step(config, query, t, drivers, rows[|rows| - 1])
  }

  /** `collect_drivers` on the three tables' rows. */
  function CollectOf(config: DriversConfig, query: string -> Option<seq<Row>>,
                     pnp: seq<Row>, products: seq<Row>, system: seq<Row>): Outcome<DetectedDrivers>
  {
    var a :- Rows(config, query, PnpSignedDriver, map[], pnp);
    var b :- Rows(config, query, Product, a, products);
    var c :- Rows(config, query, SystemDriver, b, system);
    Returns(DetectedDrivers(c))
  }

  /** One loop of `collect_drivers`: the rows of table t, inserted into `drivers`. */
  method CollectTable(config: DriversConfig, query: string -> Option<seq<Row>>, t: Table,
                      start: map<string, string>, rows: seq<Row>) returns (r: Outcome<map<string, string>>)
    ensures r == Rows(config, query, t, start, rows)
  {
    var drivers := start;
    var i := 0;
    while i < |rows|
      invariant 0 <= i <= |rows|
      invariant Rows(config, query, t, start, rows[..i]) == Returns(drivers)
    {
      assert rows[..i + 1][..i] == rows[..i];
      var next := Step(config, query, t, drivers, rows[i]);
      if next.Panics? {
        PanicStays(config, query, t, start, rows, i + 1);
        return next;
      }
      drivers := next.value;
      i := i + 1;
    }
    assert rows[..i] == rows;
    return Returns(drivers);
  }

  /** Once a row panics, the whole table does. */
  lemma {:induction false} PanicStays(config: DriversConfig, query: string -> Option<seq<Row>>, t: Table,
                                      start: map<string, string>, rows: seq<Row>, n: nat)
    requires n <= |rows| && Rows(config, query, t, start, rows[..n]).Panics?
    ensures Rows(config, query, t, start, rows) == Rows(config, query, t, start, rows[..n])
    decreases |rows| - n
  {
    if n < |rows| {
      assert rows[..n + 1][..n] == rows[..n];
      PanicStays(config, query, t, start, rows, n + 1);
    } else {
      assert rows[..n] == rows;
    }
  }

  /** `collect_drivers`: the PnP drivers, then the products, then the system drivers. */
  method CollectDrivers(config: DriversConfig, query: string -> Option<seq<Row>>,
                        pnp: seq<Row>, products: seq<Row>, system: seq<Row>) returns (r: Outcome<DetectedDrivers>)
    ensures r == CollectOf(config, query, pnp, products, system)
  {
    var a := CollectTable(config, query, PnpSignedDriver, map[], pnp);
    if a.Panics? {
      return Panics(a.reason);
    }
    var b := CollectTable(config, query, Product, a.value, products);
    if b.Panics? {
      return Panics(b.reason);
    }
    var c := CollectTable(config, query, SystemDriver, b.value, system);
    if c.Panics? {
      return Panics(c.reason);
    }
    return Returns(DetectedDrivers(c.value));
  }

  /** A PnP or product row whose name or version is not a string changes nothing. */
  lemma NonStringRowSkipped(config: DriversConfig, query: string -> Option<seq<Row>>, t: Table,
                            drivers: map<string, string>, row: Row)
    requires t != SystemDriver
    requires var (nameKey, versionKey) := if t == PnpSignedDriver then ("DeviceName", "DriverVersion") else ("Name", "Version");
      nameKey in row && versionKey in row && (!row[nameKey].VString? || !row[versionKey].VString?)
    ensures Step(config, query, t, drivers, row) == Returns(drivers)
  {
  }

  /** A system driver loaded from outside drive C: is skipped without querying its file. */
  lemma OtherDriveSkipped(config: DriversConfig, query: string -> Option<seq<Row>>,
                          drivers: map<string, string>, row: Row)
    requires "Name" in row && "PathName" in row && row["PathName"].VString?
    requires !Text.StartsWith(row["PathName"].s, "C:")
    ensures Step(config, query, SystemDriver, drivers, row) == Returns(drivers)
  {
  }

  /** A row lacking the name property panics, whatever the table. */
  lemma MissingNamePanics(config: DriversConfig, query: string -> Option<seq<Row>>, t: Table,
                          drivers: map<string, string>, row: Row)
    requires (if t == PnpSignedDriver then "DeviceName" else "Name") !in row
    ensures Step(config, query, t, drivers, row) == Panics(KEY_PANIC)
  {
  }

  /** Whether a row of table t records `alias` with `version`. */
  ghost predicate Records(config: DriversConfig, query: string -> Option<seq<Row>>, t: Table, row: Row,
                    alias: string, version: string)
  {
    forall drivers: map<string, string> ::
      Step(config, query, t, drivers, row) == Returns(drivers[alias := version])
  }

  /** A PnP row naming a known device records that device's alias with its version. */
  lemma PnpRowRecords(config: DriversConfig, query: string -> Option<seq<Row>>, row: Row, name: string, version: string)
    requires "DeviceName" in row && row["DeviceName"] == VString(name)
    requires "DriverVersion" in row && row["DriverVersion"] == VString(version)
    requires name in config.pnpDrivers
    ensures Records(config, query, PnpSignedDriver, row, config.pnpDrivers[name], version)
  {
  }

  /** Of two rows for the same alias, the later one's version is kept. */
  lemma {:induction false} LaterRowWins(config: DriversConfig, query: string -> Option<seq<Row>>, t: Table,
                                        start: map<string, string>, rows: seq<Row>, row: Row,
                                        alias: string, version: string)
    requires Rows(config, query, t, start, rows).Returns?
    requires Records(config, query, t, row, alias, version)
    ensures Rows(config, query, t, start, rows + [row]).Returns?
    ensures Rows(config, query, t, start, rows + [row]).value[alias] == version
  {
    var all := rows + [row];
    assert all[..|all| - 1] == rows;
    var before := Rows(config, query, t, start, rows).value;
    assert Step(config, query, t, before, row) == Returns(before[alias := version]);
  }

  /** The aliases of one table in `drivers.toml`. */
  function Aliases(config: DriversConfig, t: Table): set<string>
  {
    match t
    case PnpSignedDriver => config.pnpDrivers.Values
    case Product => config.products.Values
    case SystemDriver => config.systemDrivers.Values
  }

  /** A step only ever records an alias of its table. */
  lemma StepRecordsAlias(config: DriversConfig, query: string -> Option<seq<Row>>, t: Table,
                         drivers: map<string, string>, row: Row)
    requires Step(config, query, t, drivers, row).Returns?
    ensures Step(config, query, t, drivers, row).value.Keys <= drivers.Keys + Aliases(config, t)
  {
  }

  /** After a table, every detected driver is one that was there before or an alias of that table. */
  lemma {:induction false} RowsRecordAliases(config: DriversConfig, query: string -> Option<seq<Row>>, t: Table,
                                             start: map<string, string>, rows: seq<Row>)
    requires Rows(config, query, t, start, rows).Returns?
    ensures Rows(config, query, t, start, rows).value.Keys <= start.Keys + Aliases(config, t)
  {
    if rows != [] {
      var prefix := rows[..|rows| - 1];
      RowsRecordAliases(config, query, t, start, prefix);
      StepRecordsAlias(config, query, t, Rows(config, query, t, start, prefix).value, rows[|rows| - 1]);
    }
  }

  /** Every collected driver is an alias listed in `drivers.toml`. */
  lemma CollectedAreAliases(config: DriversConfig, query: string -> Option<seq<Row>>,
                            pnp: seq<Row>, products: seq<Row>, system: seq<Row>)
    requires CollectOf(config, query, pnp, products, system).Returns?
    ensures CollectOf(config, query, pnp, products, system).value.drivers.Keys <=
      config.pnpDrivers.Values + config.products.Values + config.systemDrivers.Values
  {
    RowsRecordAliases(config, query, PnpSignedDriver, map[], pnp);
    var a := Rows(config, query, PnpSignedDriver, map[], pnp).value;
    RowsRecordAliases(config, query, Product, a, products);
    var b := Rows(config, query, Product, a, products).value;
    RowsRecordAliases(config, query, SystemDriver, b, system);
  }

  // ---------------------------------------------------------------------
  // Writing a baseline

  /** Byte order of UTF-8 strings, which is code-point order: Rust's `str` ordering. */
  predicate Before(a: string, b: string)
  {
    if a == [] then b != []
    else if b == [] then false
    else if a[0] != b[0] then a[0] < b[0]
    else Before(a[1..], b[1..])
  }

  lemma {:induction false} BeforeIrreflexive(a: string)
    ensures !Before(a, a)
  {
    if a != [] {
      BeforeIrreflexive(a[1..]);
    }
  }

  lemma {:induction false} BeforeTransitive(a: string, b: string, c: string)
    requires Before(a, b) && Before(b, c)
    ensures Before(a, c)
  {
    if a != [] && b != [] && c != [] && a[0] == b[0] && b[0] == c[0] {
      BeforeTransitive(a[1..], b[1..], c[1..]);
    }
  }

  lemma {:induction false} BeforeTotal(a: string, b: string)
    requires a != b
    ensures Before(a, b) || Before(b, a)
  {
    if a != [] && b != [] && a[0] == b[0] {
      assert a == [a[0]] + a[1..] && b == [b[0]] + b[1..];
      BeforeTotal(a[1..], b[1..]);
    }
  }

  /** `k` comes before every other name of `names`. */
  predicate Least(k: string, names: set<string>)
  {
    k in names && forall j :: j in names && j != k ==> Before(k, j)
  }

  lemma {:induction false} LeastExists(names: set<string>)
    requires names != {}
    ensures exists k :: Least(k, names)
    decreases |names|
  {
    var x :| x in names;
    if names != {x} {
      var rest := names - {x};
      LeastExists(rest);
      var m :| Least(m, rest);
      BeforeTotal(x, m);
      if Before(x, m) {
        forall j | j in names && j != x
          ensures Before(x, j)
        {
          if j != m {
            BeforeTransitive(x, m, j);
          }
        }
        assert Least(x, names);
      } else {
        assert Least(m, names);
      }
    } else {
      assert Least(x, names);
    }
  }

  lemma LeastUnique(k: string, l: string, names: set<string>)
    requires Least(k, names) && Least(l, names)
    ensures k == l
  {
    if k != l {
      BeforeTransitive(k, l, k);
      BeforeIrreflexive(k);
    }
  }

  /** The names in ascending order. */
  ghost function SortedNames(names: set<string>): (ks: seq<string>)
    ensures forall k :: k in ks ==> k in names
    decreases |names|
  {
    if names == {} then []
    else
      LeastExists(names);
      var k :| Least(k, names);
      [k] + SortedNames(names - {k})
  }

  /** `SortedNames` lists every name once, in ascending order. */
  lemma {:induction false} SortedNamesSpec(names: set<string>)
    ensures |SortedNames(names)| == |names|
    ensures forall k :: k in SortedNames(names) <==> k in names
    ensures forall i, j :: 0 <= i < j < |SortedNames(names)| ==> Before(SortedNames(names)[i], SortedNames(names)[j])
    decreases |names|
  {
    if names != {} {
      LeastExists(names);
      var k :| Least(k, names);
      SortedNamesFirst(names, k);
      var rest := SortedNames(names - {k});
      SortedNamesSpec(names - {k});
      assert forall i :: 0 <= i < |rest| ==> Before(k, rest[i]) by {
        forall i | 0 <= i < |rest| ensures Before(k, rest[i]) {
          assert rest[i] in names - {k};
        }
      }
    }
  }

  /** Taking the least name first and then the rest in order gives the names in order. */
  lemma SortedNamesFirst(names: set<string>, k: string)
    requires Least(k, names)
    ensures SortedNames(names) == [k] + SortedNames(names - {k})
  {
    var l :| Least(l, names) && SortedNames(names) == [l] + SortedNames(names - {l});
    LeastUnique(k, l, names);
  }

  /** The least of a non-empty set of names, which `SortedNames` puts first. */
  method PickLeast(names: set<string>) returns (k: string)
    requires names != {}
    ensures Least(k, names) && SortedNames(names) == [k] + SortedNames(names - {k})
  {
    LeastExists(names);
    k :| Least(k, names);
    SortedNamesFirst(names, k);
  }

  /** `sorted.sort_by_key(..)` on the map's entries: the names, least first. */
  method SortNames(drivers: map<string, string>) returns (ks: seq<string>)
    ensures ks == SortedNames(drivers.Keys)
    ensures forall k :: k in ks ==> k in drivers
  {
    ks := [];
    var rest := drivers.Keys;
    while rest != {}
      invariant rest <= drivers.Keys
      invariant ks + SortedNames(rest) == SortedNames(drivers.Keys)
      decreases |rest|
    {
      var k := PickLeast(rest);
      assert (ks + [k]) + SortedNames(rest - {k}) == ks + ([k] + SortedNames(rest - {k}));
      ks := ks + [k];
      rest := rest - {k};
    }
    assert ks + SortedNames(rest) == ks;
  }

  /** The header `to_toml` writes, with the date it is run on. */
  function Header(date: string): string
  {
    "# Driver baseline - auto-generated\n" + "# Last updated: " + date + "\n\n[versions]\n"
  }

  /** One `"name" = "version"` line. */
  function Entry(name: string, version: string): string
  {
    "\"" + name + "\" = \"" + version + "\"\n"
  }

  /** The lines for `names`, in that order. */
  function Entries(drivers: map<string, string>, names: seq<string>): string
    requires forall k :: k in names ==> k in drivers
  {
    if names == [] then ""
    else Entries(drivers, names[..|names| - 1]) + Entry(names[|names| - 1], drivers[names[|names| - 1]])
  }

  lemma {:induction false} EntriesAppend(drivers: map<string, string>, a: seq<string>, b: seq<string>)
    requires (forall k :: k in a ==> k in drivers) && (forall k :: k in b ==> k in drivers)
    ensures Entries(drivers, a + b) == Entries(drivers, a) + Entries(drivers, b)
  {
    if b == [] {
      assert a + b == a;
    } else {
      var c, last := b[..|b| - 1], b[|b| - 1];
      assert b == c + [last];
      assert a + b == (a + c) + [last];
      EntriesAppend(drivers, a, c);
      EntriesSnoc(drivers, a + c, last);
      EntriesSnoc(drivers, c, last);
    }
  }

  lemma EntriesSnoc(drivers: map<string, string>, names: seq<string>, name: string)
    requires forall k :: k in names + [name] ==> k in drivers
    ensures Entries(drivers, names + [name]) == Entries(drivers, names) + Entry(name, drivers[name])
  {
    assert (names + [name])[..|names|] == names;
  }

  lemma EntriesStep(drivers: map<string, string>, names: seq<string>, i: nat)
    requires i < |names| && forall k :: k in names ==> k in drivers
    ensures Entries(drivers, names[..i + 1]) == Entries(drivers, names[..i]) + Entry(names[i], drivers[names[i]])
  {
    assert names[..i + 1][..i] == names[..i];
  }

  /** `DetectedDrivers::to_toml`, with the date as a parameter. */
  method ToToml(detected: DetectedDrivers, date: string) returns (output: string)
    ensures output == Header(date) + Entries(detected.drivers, SortedNames(detected.drivers.Keys))
  {
    output := "";
    output := output + "# Driver baseline - auto-generated\n";
    output := output + "# Last updated: ";
    output := output + date;
    output := output + "\n\n[versions]\n";
    var sorted := SortNames(detected.drivers);
    output := AppendEntries(output, detected.drivers, sorted);
  }

  /** The loop of `to_toml`: one line per name, in the order given. */
  method AppendEntries(prefix: string, drivers: map<string, string>, names: seq<string>) returns (output: string)
    requires forall k :: k in names ==> k in drivers
    ensures output == prefix + Entries(drivers, names)
  {
    output := prefix;
    for i := 0 to |names|
      invariant output == prefix + Entries(drivers, names[..i])
    {
      EntriesStep(drivers, names, i);
      output := output + Entry(names[i], drivers[names[i]]);
    }
    assert names[..|names|] == names;
  }

  /**
   * Every detected driver has its line in the baseline, with the lines of
   * the names before it ahead of it and those after it behind it.
   */
  lemma ToTomlListsEveryDriver(detected: DetectedDrivers, name: string)
    requires name in detected.drivers
    ensures var names := SortedNames(detected.drivers.Keys);
      exists i :: 0 <= i < |names| && names[i] == name &&
        Entries(detected.drivers, names) ==
          Entries(detected.drivers, names[..i]) + Entry(name, detected.drivers[name]) + Entries(detected.drivers, names[i + 1..])
  {
    var d := detected.drivers;
    var names := SortedNames(d.Keys);
    SortedNamesSpec(d.Keys);
    var i :| 0 <= i < |names| && names[i] == name;
    var before, after := names[..i], names[i + 1..];
    var upTo := before + [name];
    assert names == upTo + after;
    EntriesSnoc(d, before, name);
    EntriesAppend(d, upTo, after);
  }
}
