/**
 * The platforms the library tells apart and `load_config`, which turns the
 * optional TOML configuration file into a generic Framework platform with
 * the I2C addresses and EC ports of its two PD controllers.
 */
module Config {
  import opened Common

  /**
   * `util::Platform`, with the variants this part of the library names;
   * a generic platform carries two PD I2C addresses, two EC I2C ports and
   * whether the EC is a Microchip MEC.
   */
  datatype Platform =
    | IntelGen11
    | IntelGen12
    | IntelGen13
    | IntelCoreUltra1
    | Framework12IntelGen13
    | Framework13Amd7080
    | Framework13AmdAi300
    | Framework16Amd7080
    | Framework16AmdAi300
    | FrameworkDesktopAmdAiMax300
    | GenericFramework(pdAddrs: (u16, u16), pdPorts: (u8, u8), hasMec: bool)
    | UnknownSystem

  /** The `[platform]` table of the configuration file. */
  datatype PlatformTable = PlatformTable(hasMec: bool, pdAddrs: seq<u16>, pdPorts: seq<u8>)

  /** The configuration file: an optional `[platform]` table. */
  datatype ConfigFile = ConfigFile(platform: Option<PlatformTable>)

  const UNWRAP_PANIC: string := "called `Option::unwrap()` on a `None` value"
  const PARSE_PANIC: string := "called `Result::unwrap()` on an `Err` value"
  const INDEX_PANIC: string := "index out of bounds"

  /**
   * `load_config`: no file means no configuration; a file that does not
   * parse, has no platform table or lists no address or no port panics.
   * The first PD is entry 0 of both lists; the second is entry 1, unless
   * either list has a single entry, in which case it repeats the first.
   */
  function LoadConfig(file: Option<string>, parse: string -> Option<ConfigFile>): (r: Outcome<Option<Platform>>)
    ensures file.None? <==> r == Returns(None)
    ensures file.Some? ==>
      (r.Panics? <==> parse(file.value).None? || parse(file.value).value.platform.None? ||
                      |parse(file.value).value.platform.value.pdAddrs| == 0 ||
                      |parse(file.value).value.platform.value.pdPorts| == 0)
    ensures r.Returns? && r.value.Some? ==>
      var t := parse(file.value).value.platform.value;
      && |t.pdAddrs| >= 1 && |t.pdPorts| >= 1
      && r.value.value.GenericFramework? && r.value.value.hasMec == t.hasMec
      && r.value.value.pdAddrs.0 == t.pdAddrs[0] && r.value.value.pdPorts.0 == t.pdPorts[0]
    ensures r.Returns? && r.value.Some? ==>
      var t := parse(file.value).value.platform.value;
      var p := r.value.value;
      p.GenericFramework? &&
      if |t.pdAddrs| == 1 || |t.pdPorts| == 1 then p.pdAddrs.1 == p.pdAddrs.0 && p.pdPorts.1 == p.pdPorts.0
      else p.pdAddrs.1 == t.pdAddrs[1] && p.pdPorts.1 == t.pdPorts[1]
  {
    match file
    case None => Returns(None)
    case Some(text) =>
      match parse(text)
      case None => Panics(PARSE_PANIC)
      case Some(decoded) =>
        match decoded.platform
        case None => Panics(UNWRAP_PANIC)
        case Some(t) =>
          if |t.pdAddrs| == 0 || |t.pdPorts| == 0 then Panics(INDEX_PANIC)
          else
            var first := (t.pdAddrs[0], t.pdPorts[0]);
            var second := if |t.pdAddrs| == 1 || |t.pdPorts| == 1 then first else (t.pdAddrs[1], t.pdPorts[1]);
            Returns(Some(GenericFramework((first.0, second.0), (first.1, second.1), t.hasMec)))
  }

  /** Every address and port the configured platform uses comes from the file's lists. */
  lemma LoadConfigUsesListedValues(file: Option<string>, parse: string -> Option<ConfigFile>)
    requires LoadConfig(file, parse).Returns? && LoadConfig(file, parse).value.Some?
    ensures var t := parse(file.value).value.platform.value;
      var p := LoadConfig(file, parse).value.value;
      p.pdAddrs.0 in t.pdAddrs && p.pdAddrs.1 in t.pdAddrs && p.pdPorts.0 in t.pdPorts && p.pdPorts.1 in t.pdPorts
  {
  }
}
