/**
 * The command line of the UEFI shell build: `parse` walks the argument list
 * once, each recognised option sets its field of `Cli`, options that take a
 * value read the argument after them, and a later occurrence of an option
 * overwrites an earlier one.  Arguments are not consumed: a value is also
 * examined as an option in its own right.
 */
module CliUefi {
  import opened Common
  import Text
  import EcFacade

  datatype ConsoleArg = Recent | Follow

  /**
   * The fields of `Cli` that the UEFI parser sets, as the struct it fills in
   * place.  The thirteen boolean fields that an option only switches on
   * (`versions`, `paginate`, `help`, ...) are held as the set of those
   * options whose field is true.
   */
  class Cli {
    var flags: set<Opt>
    var dpHdmiInfo: bool, audioCardInfo: bool
    var pdBin: Option<string>, ecBin: Option<string>, capsule: Option<string>
    var dump: Option<string>, ho2Capsule: Option<string>
    var kblight: Option<Option<u8>>, console: Option<ConsoleArg>
    var driver: Option<EcFacade.CrosEcDriverType>
    var rawCommand: seq<string>

    /** The initial `Cli { .. }`: nothing set, the port-I/O driver, and help for an empty line. */
    constructor (args: seq<string>)
      ensures flags == if |args| == 0 then {Help} else {}
      ensures !dpHdmiInfo && !audioCardInfo
      ensures pdBin.None? && ecBin.None? && capsule.None? && dump.None? && ho2Capsule.None?
      ensures kblight.None? && console.None? && rawCommand == []
      ensures driver == Some(EcFacade.Portio)
    {
      flags := if |args| == 0 then {Help} else {};
      dpHdmiInfo, audioCardInfo := false, false;
      pdBin, ecBin, capsule, dump, ho2Capsule := None, None, None, None, None;
      kblight, console, rawCommand := None, None, [];
      driver := Some(EcFacade.Portio);
    }
  }

  /** The options `parse` recognises; every other argument is ignored. */
  datatype Opt =
    | Versions | Paginate | Esrt | Power | Pdports | Allupdate | Info | Intrusion
    | Inputmodules | Kblight | Console | Test | Help | PdInfo | Privacy
    | PdBin | EcBin | Capsule | Dump | Ho2Capsule | RawCommand | NotAnOption

  /** The spellings of each option. */
  function Names(o: Opt): (r: seq<string>)
  {
    match o
    case Versions => ["-v", "--versions"]
    case Paginate => ["-b"]
    case Esrt => ["--esrt"]
    case Power => ["--power"]
    case Pdports => ["--pdports"]
    case Allupdate => ["--allupdate"]
    case Info => ["--info"]
    case Intrusion => ["--intrusion"]
    case Inputmodules => ["--inputmodules"]
    case Kblight => ["--kblight"]
    case Console => ["--console"]
    case Test => ["-t", "--test"]
    case Help => ["-h", "--help"]
    case PdInfo => ["--pd-info"]
    case Privacy => ["--privacy"]
    case PdBin => ["--pd-bin"]
    case EcBin => ["--ec-bin"]
    case Capsule => ["--capsule"]
    case Dump => ["--dump"]
    case Ho2Capsule => ["--ho2-capsule"]
    case RawCommand => ["--raw-command"]
    case NotAnOption => []
  }

  /** The `if`/`else if` chain of the loop body: which option an argument is. */
  function Classify(arg: string): (r: Opt)
    ensures r != NotAnOption ==> arg in Names(r)
  {
    if arg == "-v" || arg == "--versions" then Versions
    else if arg == "-b" then Paginate
    else if arg == "--esrt" then Esrt
    else if arg == "--power" then Power
    else if arg == "--pdports" then Pdports
    else if arg == "--allupdate" then Allupdate
    else if arg == "--info" then Info
    else if arg == "--intrusion" then Intrusion
    else if arg == "--inputmodules" then Inputmodules
    else if arg == "--kblight" then Kblight
    else if arg == "--console" then Console
    else if arg == "-t" || arg == "--test" then Test
    else if arg == "-h" || arg == "--help" then Help
    else if arg == "--pd-info" then PdInfo
    else if arg == "--privacy" then Privacy
    else if arg == "--pd-bin" then PdBin
    else if arg == "--ec-bin" then EcBin
    else if arg == "--capsule" then Capsule
    else if arg == "--dump" then Dump
    else if arg == "--ho2-capsule" then Ho2Capsule
    else if arg == "--raw-command" then RawCommand
    else NotAnOption
  }

  /** The spellings of the first options of the chain select them. */
  lemma SpellingsEarly(arg: string)
    ensures arg in Names(Versions) ==> Classify(arg) == Versions
    ensures arg in Names(Paginate) ==> Classify(arg) == Paginate
    ensures arg in Names(Esrt) ==> Classify(arg) == Esrt
    ensures arg in Names(Power) ==> Classify(arg) == Power
    ensures arg in Names(Pdports) ==> Classify(arg) == Pdports
    ensures arg in Names(Allupdate) ==> Classify(arg) == Allupdate
  {
  }

  lemma SpellingsMiddle(arg: string)
    ensures arg in Names(Info) ==> Classify(arg) == Info
    ensures arg in Names(Intrusion) ==> Classify(arg) == Intrusion
    ensures arg in Names(Inputmodules) ==> Classify(arg) == Inputmodules
    ensures arg in Names(Kblight) ==> Classify(arg) == Kblight
    ensures arg in Names(Console) ==> Classify(arg) == Console
  {
  }

  lemma SpellingsLate(arg: string)
    ensures arg in Names(Test) ==> Classify(arg) == Test
    ensures arg in Names(Help) ==> Classify(arg) == Help
    ensures arg in Names(PdInfo) ==> Classify(arg) == PdInfo
    ensures arg in Names(Privacy) ==> Classify(arg) == Privacy
    ensures arg in Names(PdBin) ==> Classify(arg) == PdBin
  {
  }

  lemma SpellingsLast(arg: string)
    ensures arg in Names(EcBin) ==> Classify(arg) == EcBin
    ensures arg in Names(Capsule) ==> Classify(arg) == Capsule
    ensures arg in Names(Dump) ==> Classify(arg) == Dump
    ensures arg in Names(Ho2Capsule) ==> Classify(arg) == Ho2Capsule
    ensures arg in Names(RawCommand) ==> Classify(arg) == RawCommand
  {
  }

  /**
   * An argument is classified as option o exactly when it is one of o's
   * spellings: the spellings of different options never overlap, so the
   * chain's order does not matter.
   */
  lemma ClassifyNames(arg: string, o: Opt)
    ensures arg in Names(o) <==> o == Classify(arg) && o != NotAnOption
  {
    SpellingsEarly(arg);
    SpellingsMiddle(arg);
    SpellingsLate(arg);
    SpellingsLast(arg);
  }

  /** The classification of every argument. */
  function Kinds(args: seq<string>): (ks: seq<Opt>)
    ensures |ks| == |args|
    ensures forall k :: 0 <= k < |args| ==> ks[k] == Classify(args[k])
  {
    seq(|args|, k requires 0 <= k < |args| => Classify(args[k]))
  }

  /** Every option but `--raw-command` sets `found_an_option`. */
  predicate CountsAsFound(o: Opt)
  {
    o != RawCommand && o != NotAnOption
  }

  /** Whether option o occurs among the first n classified arguments. */
  predicate Seen(ks: seq<Opt>, n: nat, o: Opt)
    requires n <= |ks|
  {
    n > 0 && (ks[n - 1] == o || Seen(ks, n - 1, o))
  }

  lemma {:induction false} SeenSome(ks: seq<Opt>, n: nat, o: Opt)
    requires n <= |ks|
    ensures Seen(ks, n, o) <==> o in ks[..n]
  {
    if n > 0 {
      SeenSome(ks, n - 1, o);
      assert ks[..n] == ks[..n - 1] + [ks[n - 1]];
    }
  }

  /** Whether any option that counts occurs among the first n classified arguments. */
  predicate FoundAnOption(ks: seq<Opt>, n: nat)
    requires n <= |ks|
  {
    n > 0 && (CountsAsFound(ks[n - 1]) || FoundAnOption(ks, n - 1))
  }

  /** One more argument sets `found_an_option` exactly when its option counts. */
  lemma FoundStep(ks: seq<Opt>, i: nat)
    requires i < |ks|
    ensures FoundAnOption(ks, i + 1) <==> CountsAsFound(ks[i]) || FoundAnOption(ks, i)
  {
  }

  lemma {:induction false} FoundSome(ks: seq<Opt>, n: nat)
    requires n <= |ks|
    ensures FoundAnOption(ks, n) <==> exists k :: 0 <= k < n && CountsAsFound(ks[k])
  {
    if n > 0 {
      FoundSome(ks, n - 1);
    }
  }

  /** The index of the last occurrence of option o among the first n classified arguments. */
  function LastAt(ks: seq<Opt>, n: nat, o: Opt): (r: Option<nat>)
    requires n <= |ks|
    ensures r.Some? ==> r.value < n
  {
    if n == 0 then None
    else if ks[n - 1] == o then Some(n - 1)
    else LastAt(ks, n - 1, o)
  }

  /** LastAt finds nothing exactly when o does not occur, and otherwise an occurrence with none after it. */
  lemma {:induction false} LastAtSpec(ks: seq<Opt>, n: nat, o: Opt)
    requires n <= |ks|
    ensures LastAt(ks, n, o).None? <==> !Seen(ks, n, o)
    ensures LastAt(ks, n, o).Some? ==>
      var i := LastAt(ks, n, o).value;
      i < n && ks[i] == o && forall k :: i < k < n ==> ks[k] != o
  {
    if n > 0 && ks[n - 1] != o {
      LastAtSpec(ks, n - 1, o);
    }
  }

  /** `--kblight` at index i: the next argument as a u8, None if it is not one, Some(None) if there is none. */
  function KbLightAt(args: seq<string>, i: nat): Option<Option<u8>>
    requires i < |args|
  {
    if |args| > i + 1 then
      match Text.ParseUnsigned(args[i + 1], 10, U8_MAX)
      case Some(percent) => Some(Some(percent))
      case None => None
    else Some(None)
  }

  /** No value at the end of the line; None for a value that is not a u8 in decimal; otherwise that number. */
  lemma KbLightAtSpec(args: seq<string>, i: nat)
    requires i < |args|
    ensures KbLightAt(args, i) == Some(None) <==> i + 1 == |args|
    ensures KbLightAt(args, i).None? <==> i + 1 < |args| && Text.ParseUnsigned(args[i + 1], 10, U8_MAX).None?
    ensures KbLightAt(args, i).Some? && KbLightAt(args, i).value.Some? ==>
      i + 1 < |args| && Text.ParseUnsigned(args[i + 1], 10, U8_MAX) == Some(KbLightAt(args, i).value.value as nat)
  {
  }

  /** A decimal percentage after `--kblight` is read back; a number above 255 is rejected. */
  lemma KbLightDecimal(args: seq<string>, i: nat, n: nat)
    requires i + 1 < |args| && args[i + 1] == Text.FormatDec(n)
    ensures n <= U8_MAX ==> KbLightAt(args, i) == Some(Some(n))
    ensures n > U8_MAX ==> KbLightAt(args, i).None?
  {
    Text.ParseFormatDec(n, n);
    if n <= U8_MAX {
      Text.ParseFormatDec(n, U8_MAX);
    }
  }

  /** `--console` at index i: "recent" or "follow" next, otherwise None. */
  function ConsoleAt(args: seq<string>, i: nat): (r: Option<ConsoleArg>)
    requires i < |args|
    ensures r == Some(Recent) <==> i + 1 < |args| && args[i + 1] == "recent"
    ensures r == Some(Follow) <==> i + 1 < |args| && args[i + 1] == "follow"
  {
    if |args| > i + 1 then
      if args[i + 1] == "recent" then Some(Recent)
      else if args[i + 1] == "follow" then Some(Follow)
      else None
    else None
  }

  /** A path option at index i: the next argument, or None at the end of the line. */
  function PathAt(args: seq<string>, i: nat): (r: Option<string>)
    requires i < |args|
    ensures r.Some? <==> i + 1 < |args|
    ensures r.Some? ==> r.value == args[i + 1]
  {
    if |args| > i + 1 then Some(args[i + 1]) else None
  }

  /** What the last `--kblight` among the first n arguments sets, if any. */
  function KbLightOf(args: seq<string>, ks: seq<Opt>, n: nat): Option<Option<u8>>
    requires |ks| == |args| && n <= |args|
  {
    match LastAt(ks, n, Kblight)
    case None => None
    case Some(i) => KbLightAt(args, i)
  }

  function ConsoleOf(args: seq<string>, ks: seq<Opt>, n: nat): Option<ConsoleArg>
    requires |ks| == |args| && n <= |args|
  {
    match LastAt(ks, n, Console)
    case None => None
    case Some(i) => ConsoleAt(args, i)
  }

  function PathOf(args: seq<string>, ks: seq<Opt>, n: nat, o: Opt): Option<string>
    requires |ks| == |args| && n <= |args|
  {
    match LastAt(ks, n, o)
    case None => None
    case Some(i) => PathAt(args, i)
  }

  /**
   * Of several occurrences of a path option, the last one decides: any
   * argument list ending in `--pd-bin p` (say) sets the path to p, unless
   * p is `--pd-bin` itself, which then has no value.
   */
  lemma LastPathWins(args: seq<string>, o: Opt, flag: string, path: string)
    requires flag in Names(o) && path !in Names(o)
    ensures PathOf(args + [flag, path], Kinds(args + [flag, path]), |args| + 2, o) == Some(path)
  {
    var all := args + [flag, path];
    ClassifyNames(flag, o);
    ClassifyNames(path, o);
    assert Kinds(all)[|args|] == o;
    assert Kinds(all)[|args| + 1] != o;
    assert LastAt(Kinds(all), |args| + 1, o) == Some(|args|);
  }

  /** The options that only switch a flag on. */
  const FLAG_OPTIONS: seq<Opt> := [
    Versions, Paginate, Esrt, Power, Pdports, Allupdate, Info, Intrusion, Inputmodules,
    Test, Help, PdInfo, Privacy]

  predicate IsFlag(o: Opt)
  {
    o in FLAG_OPTIONS
  }

  /** The flags switched on after the first n arguments, starting from `start`. */
  function FlagsAfter(ks: seq<Opt>, n: nat, start: set<Opt>): set<Opt>
    requires n <= |ks|
  {
    if n == 0 then start
    else if IsFlag(ks[n - 1]) then FlagsAfter(ks, n - 1, start) + {ks[n - 1]}
    else FlagsAfter(ks, n - 1, start)
  }

  /** A flag is on after n arguments exactly when it was on at the start or its option occurred. */
  lemma {:induction false} FlagsAfterSeen(ks: seq<Opt>, n: nat, start: set<Opt>, o: Opt)
    requires n <= |ks|
    ensures o in FlagsAfter(ks, n, start) <==> o in start || (IsFlag(o) && Seen(ks, n, o))
  {
    if n > 0 {
      FlagsAfterSeen(ks, n - 1, start, o);
    }
  }

  /** The fields of `Cli` that hold a value rather than a flag. */
  datatype Values = Values(
    kblight: Option<Option<u8>>, console: Option<ConsoleArg>,
    pdBin: Option<string>, ecBin: Option<string>, capsule: Option<string>,
    dump: Option<string>, ho2Capsule: Option<string>, rawCommand: seq<string>)

  const NO_VALUES: Values := Values(None, None, None, None, None, None, None, [])

  function ValuesOf(cli: Cli): Values
    reads cli`kblight, cli`console, cli`pdBin, cli`ecBin, cli`capsule, cli`dump, cli`ho2Capsule, cli`rawCommand
  {
    Values(cli.kblight, cli.console, cli.pdBin, cli.ecBin, cli.capsule, cli.dump, cli.ho2Capsule, cli.rawCommand)
  }

  /** What the value option o at index i stores; other options store nothing. */
  function Store(v: Values, args: seq<string>, i: nat, o: Opt): Values
    requires i < |args|
  {
    match o
    case Kblight => v.(kblight := KbLightAt(args, i))
    case Console => v.(console := ConsoleAt(args, i))
    case PdBin => v.(pdBin := PathAt(args, i))
    case EcBin => v.(ecBin := PathAt(args, i))
    case Capsule => v.(capsule := PathAt(args, i))
    case Dump => v.(dump := PathAt(args, i))
    case Ho2Capsule => v.(ho2Capsule := PathAt(args, i))
    case RawCommand => v.(rawCommand := args[1..])
    case _ => v
  }

  /** The values after the first n arguments. */
  function ValuesAfter(args: seq<string>, ks: seq<Opt>, n: nat): Values
    requires |ks| == |args| && n <= |args|
  {
    if n == 0 then NO_VALUES else Store(ValuesAfter(args, ks, n - 1), args, n - 1, ks[n - 1])
  }

  /** Everything but the flags that the arguments set: each value comes from its option's last occurrence. */
  predicate Scanned(args: seq<string>, ks: seq<Opt>, n: nat, v: Values)
    requires |ks| == |args| && n <= |args|
  {
    && v.kblight == KbLightOf(args, ks, n)
    && v.console == ConsoleOf(args, ks, n)
    && v.pdBin == PathOf(args, ks, n, PdBin)
    && v.ecBin == PathOf(args, ks, n, EcBin)
    && v.capsule == PathOf(args, ks, n, Capsule)
    && v.dump == PathOf(args, ks, n, Dump)
    && v.ho2Capsule == PathOf(args, ks, n, Ho2Capsule)
    && v.rawCommand == (if Seen(ks, n, RawCommand) then args[1..] else [])
  }

  /** Each option stores into its own field only. */
  lemma StoreFields(v: Values, args: seq<string>, i: nat, o: Opt)
    requires i < |args|
    ensures Store(v, args, i, o).kblight == if o == Kblight then KbLightAt(args, i) else v.kblight
    ensures Store(v, args, i, o).console == if o == Console then ConsoleAt(args, i) else v.console
    ensures Store(v, args, i, o).pdBin == if o == PdBin then PathAt(args, i) else v.pdBin
    ensures Store(v, args, i, o).ecBin == if o == EcBin then PathAt(args, i) else v.ecBin
    ensures Store(v, args, i, o).capsule == if o == Capsule then PathAt(args, i) else v.capsule
    ensures Store(v, args, i, o).dump == if o == Dump then PathAt(args, i) else v.dump
    ensures Store(v, args, i, o).ho2Capsule == if o == Ho2Capsule then PathAt(args, i) else v.ho2Capsule
    ensures Store(v, args, i, o).rawCommand == if o == RawCommand then args[1..] else v.rawCommand
  {
  }

  /** A flag option stores no value. */
  lemma StoreFlag(v: Values, args: seq<string>, i: nat, o: Opt)
    requires i < |args| && IsFlag(o)
    ensures Store(v, args, i, o) == v
  {
  }

  /** The options that store a path. */
  const PATH_OPTIONS: seq<Opt> := [PdBin, EcBin, Capsule, Dump, Ho2Capsule]

  /** The field path option o stores into. */
  function PathField(v: Values, o: Opt): Option<string>
  {
    match o
    case PdBin => v.pdBin
    case EcBin => v.ecBin
    case Capsule => v.capsule
    case Dump => v.dump
    case Ho2Capsule => v.ho2Capsule
    case _ => None
  }

  lemma PathFields(v: Values)
    ensures PathField(v, PdBin) == v.pdBin && PathField(v, EcBin) == v.ecBin
    ensures PathField(v, Capsule) == v.capsule && PathField(v, Dump) == v.dump
    ensures PathField(v, Ho2Capsule) == v.ho2Capsule
  {
  }

  lemma PathFieldStore(v: Values, args: seq<string>, i: nat, k: Opt, o: Opt)
    requires i < |args| && o in PATH_OPTIONS
    ensures PathField(Store(v, args, i, k), o) == if k == o then PathAt(args, i) else PathField(v, o)
  {
    StoreFields(v, args, i, k);
  }

  /** Each path field holds the value after its option's last occurrence. */
  lemma {:induction false} PathAfter(args: seq<string>, ks: seq<Opt>, n: nat, o: Opt)
    requires |ks| == |args| && n <= |args| && o in PATH_OPTIONS
    ensures PathField(ValuesAfter(args, ks, n), o) == PathOf(args, ks, n, o)
  {
    if n > 0 {
      PathAfter(args, ks, n - 1, o);
      PathFieldStore(ValuesAfter(args, ks, n - 1), args, n - 1, ks[n - 1], o);
    }
  }

  lemma {:induction false} KbLightAfter(args: seq<string>, ks: seq<Opt>, n: nat)
    requires |ks| == |args| && n <= |args|
    ensures ValuesAfter(args, ks, n).kblight == KbLightOf(args, ks, n)
  {
    if n > 0 {
      KbLightAfter(args, ks, n - 1);
      StoreFields(ValuesAfter(args, ks, n - 1), args, n - 1, ks[n - 1]);
    }
  }

  lemma {:induction false} ConsoleAfter(args: seq<string>, ks: seq<Opt>, n: nat)
    requires |ks| == |args| && n <= |args|
    ensures ValuesAfter(args, ks, n).console == ConsoleOf(args, ks, n)
  {
    if n > 0 {
      ConsoleAfter(args, ks, n - 1);
      StoreFields(ValuesAfter(args, ks, n - 1), args, n - 1, ks[n - 1]);
    }
  }

  lemma {:induction false} RawCommandAfter(args: seq<string>, ks: seq<Opt>, n: nat)
    requires |ks| == |args| && n <= |args|
    ensures ValuesAfter(args, ks, n).rawCommand == if Seen(ks, n, RawCommand) then args[1..] else []
  {
    if n > 0 {
      RawCommandAfter(args, ks, n - 1);
      StoreFields(ValuesAfter(args, ks, n - 1), args, n - 1, ks[n - 1]);
    }
  }

  /** Storing argument by argument leaves each value option's last occurrence in place. */
  lemma ValuesAfterScanned(args: seq<string>, ks: seq<Opt>, n: nat)
    requires |ks| == |args| && n <= |args|
    ensures Scanned(args, ks, n, ValuesAfter(args, ks, n))
  {
    KbLightAfter(args, ks, n);
    ConsoleAfter(args, ks, n);
    RawCommandAfter(args, ks, n);
    PathFields(ValuesAfter(args, ks, n));
    PathAfter(args, ks, n, PdBin);
    PathAfter(args, ks, n, EcBin);
    PathAfter(args, ks, n, Capsule);
    PathAfter(args, ks, n, Dump);
    PathAfter(args, ks, n, Ho2Capsule);
  }

  /** The branches of the loop body for the options that store a value, and `--raw-command`. */
  method SetValue(cli: Cli, args: seq<string>, i: nat, o: Opt)
    requires i < |args| && !IsFlag(o)
    modifies cli
    ensures unchanged(cli`flags, cli`dpHdmiInfo, cli`audioCardInfo, cli`driver)
    ensures ValuesOf(cli) == Store(old(ValuesOf(cli)), args, i, o)
  {
    match o {
      case Kblight => cli.kblight := KbLightAt(args, i);
      case Console => cli.console := ConsoleAt(args, i);
      case PdBin => cli.pdBin := PathAt(args, i);
      case EcBin => cli.ecBin := PathAt(args, i);
      case Capsule => cli.capsule := PathAt(args, i);
      case Dump => cli.dump := PathAt(args, i);
      case Ho2Capsule => cli.ho2Capsule := PathAt(args, i);
      case RawCommand => cli.rawCommand := args[1..];
      case NotAnOption =>
    }
  }

  /** The loop body of `parse` for the argument at index i, whose option is o. */
  method Apply(cli: Cli, args: seq<string>, i: nat, o: Opt)
    requires i < |args|
    modifies cli
    ensures cli.flags == if IsFlag(o) then old(cli.flags) + {o} else old(cli.flags)
    ensures ValuesOf(cli) == Store(old(ValuesOf(cli)), args, i, o)
    ensures unchanged(cli`dpHdmiInfo, cli`audioCardInfo, cli`driver)
  {
    if IsFlag(o) {
      StoreFlag(ValuesOf(cli), args, i, o);
      cli.flags := cli.flags + {o};
    } else {
      SetValue(cli, args, i, o);
    }
  }

  /** A single argument switches paging on exactly when it is "-b". */
  lemma LoneB(args: seq<string>)
    requires |args| == 1
    ensures Seen(Kinds(args), 1, Paginate) <==> args[0] == "-b"
  {
    ClassifyNames(args[0], Paginate);
  }

  /** The loop of `parse` over the arguments and their classification `ks`: each sets what its option sets. */
  method Scan(args: seq<string>, ks: seq<Opt>) returns (cli: Cli, found: bool)
    requires |ks| == |args|
    ensures fresh(cli)
    ensures cli.flags == FlagsAfter(ks, |args|, if |args| == 0 then {Help} else {})
    ensures ValuesOf(cli) == ValuesAfter(args, ks, |args|)
    ensures !cli.dpHdmiInfo && !cli.audioCardInfo && cli.driver == Some(EcFacade.Portio)
    ensures found <==> FoundAnOption(ks, |args|)
  {
    cli := new Cli(args);
    ghost var start := cli.flags;
    found := false;
    var i := 0;
    while i < |args|
      invariant 0 <= i <= |args|
      invariant cli.flags == FlagsAfter(ks, i, start)
      invariant ValuesOf(cli) == ValuesAfter(args, ks, i)
      invariant !cli.dpHdmiInfo && !cli.audioCardInfo && cli.driver == Some(EcFacade.Portio)
      invariant found <==> FoundAnOption(ks, i)
    {
      Apply(cli, args, i, ks[i]);
      FoundStep(ks, i);
      found := found || CountsAsFound(ks[i]);
      i := i + 1;
    }
  }

  /**
   * `parse`: one pass over the arguments, each setting what its option
   * sets (and `found_an_option` for all but `--raw-command`); afterwards a
   * lone "-b" also asks for help.  `found` only decides whether a warning
   * is printed.  The values are those of `ValuesAfter`, which
   * `ValuesAfterScanned` shows come from each option's last occurrence.
   */
  method Parse(args: seq<string>) returns (cli: Cli, found: bool)
    ensures fresh(cli)
    ensures forall o :: o in cli.flags ==> IsFlag(o)
    ensures forall o :: IsFlag(o) && o != Help ==> (o in cli.flags <==> Seen(Kinds(args), |args|, o))
    ensures Help in cli.flags <==> |args| == 0 || Seen(Kinds(args), |args|, Help) || (|args| == 1 && args[0] == "-b")
    ensures ValuesOf(cli) == ValuesAfter(args, Kinds(args), |args|)
    ensures !cli.dpHdmiInfo && !cli.audioCardInfo && cli.driver == Some(EcFacade.Portio)
    ensures found <==> FoundAnOption(Kinds(args), |args|)
  {
    var ks := Kinds(args);
    cli, found := Scan(args, ks);
    ghost var values := ValuesOf(cli);
    ghost var scanned := cli.flags;
    if |args| == 1 {
      LoneB(args);
      if Paginate in cli.flags {
        cli.flags := cli.flags + {Help};
        found := true;
      }
    }
    assert ValuesOf(cli) == values;
    ghost var start: set<Opt> := if |args| == 0 then {Help} else {};
    forall o | true
      ensures o in scanned <==> o in start || (IsFlag(o) && Seen(ks, |args|, o))
    {
      FlagsAfterSeen(ks, |args|, start, o);
    }
  }
}
