/**
 * The `CrosEc` facade: which driver is used, the memory-map bounds and
 * magic check, the command-version query, the ADC board-ID lookup, the
 * chunked flash erase/read/write loops and the keyboard-backlight duty
 * conversion.
 *
 * The drivers themselves are parameters: `Host.readMemory` and `Host.send`
 * stand for the `read_memory`/`send_command` of each compiled-in driver.
 */
module EcFacade {
  import opened Common
  import opened EcResult
  import EcCommand
  import Commands
  import Text

  /** The operating system the library is compiled for (`cfg(windows)`, `cfg(target_os = "linux")`, anything else). */
  datatype TargetOs = WindowsOs | LinuxOs | OtherOs

  /** `CrosEcDriverType`. */
  datatype CrosEcDriverType = Portio | CrosEc | Windows

  /** `CrosEc`: the facade holds nothing but its driver. */
  datatype CrosEcHandle = CrosEcHandle(driver: CrosEcDriverType)

  /**
   * Everything the facade consults outside itself: the build target,
   * whether /dev/cros_ec exists, whether SMBIOS says this is a Framework
   * machine, and each driver's memory read and command transport.
   */
  datatype Host = Host(
    os: TargetOs,
    crosEcDevPresent: bool,
    isFramework: bool,
    readMemory: (CrosEcDriverType, u16, u16) -> Result<seq<u8>, EcError>,
    send: CrosEcDriverType -> EcCommand.Transport)

  /** Total size of the EC memory-mapped region. */
  const EC_MEMMAP_SIZE: nat := 0xFF
  /** Offset of the two magic bytes 'E', 'C' in the memory map. */
  const EC_MEMMAP_ID: u16 := 0x20

  /** A driver whose arm of the dispatch `match` is compiled for `os`. */
  predicate Compiled(os: TargetOs, d: CrosEcDriverType)
  {
    match d
    case Portio => os != WindowsOs
    case Windows => os == WindowsOs
    case CrosEc => os == LinuxOs
  }

  /**
   * `available_drivers`: Windows on Windows, then the kernel driver on Linux
   * if its device node exists, then port I/O anywhere but Windows.
   */
  function AvailableDrivers(os: TargetOs, crosEcDevPresent: bool): (r: seq<CrosEcDriverType>)
    ensures Windows in r <==> os == WindowsOs
    ensures CrosEc in r <==> os == LinuxOs && crosEcDevPresent
    ensures Portio in r <==> os != WindowsOs
    ensures |r| >= 1
    ensures forall i, j :: 0 <= i < j < |r| ==> r[i] != r[j]
    ensures forall d :: d in r ==> Compiled(os, d)
  {
    (if os == WindowsOs then [Windows] else [])
    + (if os == LinuxOs && crosEcDevPresent then [CrosEc] else [])
    + (if os != WindowsOs then [Portio] else [])
  }

  /** `CrosEc::new`: the first available driver, with no probing. */
  function New(os: TargetOs, crosEcDevPresent: bool): (ec: CrosEcHandle)
    ensures ec.driver in AvailableDrivers(os, crosEcDevPresent)
    ensures ec.driver == (if os == WindowsOs then Windows
                          else if os == LinuxOs && crosEcDevPresent then CrosEc
                          else Portio)
  {
    CrosEcHandle(AvailableDrivers(os, crosEcDevPresent)[0])
  }

  /** `CrosEc::with`: the requested driver if it is available, otherwise nothing (no fallback). */
  function With(os: TargetOs, crosEcDevPresent: bool, d: CrosEcDriverType): (r: Option<CrosEcHandle>)
    ensures r.Some? <==> d in AvailableDrivers(os, crosEcDevPresent)
    ensures r.Some? ==> r.value.driver == d
  {
    if d in AvailableDrivers(os, crosEcDevPresent) then Some(CrosEcHandle(d)) else None
  }

  /**
   * A handle made by `New` or `With` always names a compiled-in driver, so
   * the "No EC driver available" arm of the dispatch is never taken.
   */
  lemma ConstructedHandlesAreCompiled(os: TargetOs, present: bool, d: CrosEcDriverType)
    ensures Compiled(os, New(os, present).driver)
    ensures With(os, present, d).Some? ==> Compiled(os, With(os, present, d).value.driver)
  {
  }

  /** `print_err(...)`: an error becomes `None`. */
  function OkOf<T>(r: Result<T, EcError>): (o: Option<T>)
    ensures o.Some? <==> r.Ok?
    ensures o.Some? ==> o.value == r.value
  {
    if r.Ok? then Some(r.value) else None
  }

  /** The dispatch shared by `read_memory` once its guards have passed. */
  function DispatchRead(ec: CrosEcHandle, host: Host, offset: u16, length: u16): Result<seq<u8>, EcError>
  {
    if Compiled(host.os, ec.driver) then host.readMemory(ec.driver, offset, length)
    else Err(DeviceError("No EC driver available"))
  }

  /**
   * `read_memory` as written: the bound `offset + length > EC_MEMMAP_SIZE`
   * is a u16 addition, which wraps in a release build.
   */
  function ReadMemoryAsWritten(ec: CrosEcHandle, host: Host, offset: u16, length: u16): Option<seq<u8>>
  {
    if !host.isFramework then None
    else if (offset + length) % 0x1_0000 > EC_MEMMAP_SIZE then None
    else OkOf(DispatchRead(ec, host, offset, length))
  }

  /** A request far beyond the memory map passes the wrapped bound check and reaches the driver. */
  lemma ReadMemoryBoundWraps(ec: CrosEcHandle, host: Host)
    requires host.isFramework && Compiled(host.os, ec.driver)
    requires host.readMemory(ec.driver, 0xFFFF, 2).Ok?
    ensures 0xFFFF + 2 > EC_MEMMAP_SIZE
    ensures ReadMemoryAsWritten(ec, host, 0xFFFF, 2) == Some(host.readMemory(ec.driver, 0xFFFF, 2).value)
  {
  }

  /**
   * `read_memory` with the bound it evidently intends: nothing is read off
   * a non-Framework machine or past the end of the memory map; otherwise the
   * active driver's answer, with an error turned into `None`.
   */
  function ReadMemory(ec: CrosEcHandle, host: Host, offset: u16, length: u16): (r: Option<seq<u8>>)
    ensures !host.isFramework ==> r.None?
    ensures offset + length > EC_MEMMAP_SIZE ==> r.None?
    ensures !Compiled(host.os, ec.driver) ==> r.None?
    ensures host.isFramework && offset + length <= EC_MEMMAP_SIZE && Compiled(host.os, ec.driver) ==>
              r == OkOf(host.readMemory(ec.driver, offset, length))
  {
    if !host.isFramework then None
    else if offset + length > EC_MEMMAP_SIZE then None
    else OkOf(DispatchRead(ec, host, offset, length))
  }

  /** Inside the memory map the corrected bound agrees with the one written. */
  lemma ReadMemoryAgreesInRange(ec: CrosEcHandle, host: Host, offset: u16, length: u16)
    requires offset + length < 0x1_0000
    ensures ReadMemory(ec, host, offset, length) == ReadMemoryAsWritten(ec, host, offset, length)
  {
  }

  /** `CrosEc::send_command`: refused off Framework hardware, otherwise the active driver's transport. */
  function Send(ec: CrosEcHandle, host: Host, command: u16, version: u8, data: seq<u8>): (r: Result<seq<u8>, EcError>)
    ensures !host.isFramework ==> r == Err(DeviceError("Not a Framework Laptop"))
    ensures host.isFramework && Compiled(host.os, ec.driver) ==> r == host.send(ec.driver)(command, version, data)
  {
    if !host.isFramework then Err(DeviceError("Not a Framework Laptop"))
    else if Compiled(host.os, ec.driver) then host.send(ec.driver)(command, version, data)
    else Err(DeviceError("No EC driver available"))
  }

  /** The facade as the transport of the typed command layer. */
  function Transport(ec: CrosEcHandle, host: Host): EcCommand.Transport
  {
    (command: u16, version: u8, data: seq<u8>) => Send(ec, host, command, version, data)
  }

  /** `send_command_extra` on Windows expects 20 more response bytes. */
  predicate OnWindows(host: Host)
  {
    host.os == WindowsOs
  }

  /** `MecFlashNotify::FlashPd` and `MecFlashNotify::FirmwareDone`. */
  const FLASH_NOTIFY_FLASH_PD: u8 := 0x16
  const FLASH_NOTIFY_FIRMWARE_DONE: u8 := 0x02

  /**
   * `lock_pd_bus`: one `FlashNotified` command carrying the lock or unlock
   * code; any response payload at all is an error.
   */
  function LockPdBus(ec: CrosEcHandle, host: Host, lock: bool): (r: Result<(), EcError>)
    ensures var reply := Send(ec, host, EcCommand.Id(EcCommand.FlashNotified), 0,
                              [if lock then FLASH_NOTIFY_FLASH_PD else FLASH_NOTIFY_FIRMWARE_DONE]);
            && (r.Ok? <==> reply == Ok([]))
            && (reply.Err? ==> r == Err(reply.error))
            && (reply.Ok? && reply.value != [] ==> r == Err(DeviceError("Didn't expect a response!")))
  {
    var reply := Send(ec, host, EcCommand.Id(EcCommand.FlashNotified), 0,
                      [if lock then FLASH_NOTIFY_FLASH_PD else FLASH_NOTIFY_FIRMWARE_DONE]);
    match reply
    case Ok(v) => if |v| != 0 then Err(DeviceError("Didn't expect a response!")) else Ok(())
    case Err(e) => Err(e)
  }

  /**
   * `check_mem_magic`: Ok exactly when the memory map yields the two bytes
   * 'E', 'C' at offset 0x20; every failure is a `DeviceError`.
   */
  function CheckMemMagic(ec: CrosEcHandle, host: Host): (r: Result<(), EcError>)
    ensures r.Ok? <==> ReadMemory(ec, host, EC_MEMMAP_ID, 2) == Some(['E' as u8, 'C' as u8])
    ensures r.Err? ==> r.error.DeviceError?
  {
    match ReadMemory(ec, host, EC_MEMMAP_ID, 2)
    case Some(id) =>
      if |id| != 2 then Err(DeviceError("  Unexpected length returned: " + Text.FormatDec(|id|)))
      else if id[0] != 'E' as u8 || id[1] != 'C' as u8 then
        Err(DeviceError("This machine doesn't look like it has a Framework EC"))
      else assert id == [id[0], id[1]]; Ok(())
    case None => Err(DeviceError("Failed to read EC ID from memory map"))
  }

  /** The magic check passes only on Framework hardware whose active driver reads the 'EC' signature. */
  lemma MagicNeedsFrameworkDriver(ec: CrosEcHandle, host: Host)
    requires CheckMemMagic(ec, host).Ok?
    ensures host.isFramework && Compiled(host.os, ec.driver)
    ensures host.readMemory(ec.driver, EC_MEMMAP_ID, 2) == Ok([0x45, 0x43])
  {
  }

  // ---------------------------------------------------------------------
  // Command versions

  /** Size of the version-mask response (`version_mask: u32`). */
  const CMD_VERSIONS_RESPONSE_SIZE: nat := 4

  /**
   * `mask & (1 << version) > 0` on a u32: a release build masks the shift
   * amount to its low five bits, so this tests bit `version % 32`.
   */
  predicate MaskHas(mask: u32, version: u8)
  {
    (mask as bv32) & ((1 as bv32) << (version % 32)) != 0
  }

  /** The mask `EC_VER_MASK(0) | EC_VER_MASK(1)` advertises versions 0 and 1 only (below 32). */
  lemma MaskOfTwoVersions(version: u8)
    requires version < 32
    ensures MaskHas(3, version) <==> version <= 1
  {
  }

  /** The V1 query carries the command as a u32. */
  function V1Query(cmd: u16): EcCommand.Request
  {
    Commands.ToRequest(Commands.GetCmdVersionsV1(cmd))
  }

  /** The V0 query carries the command truncated to a u8. */
  function V0Query(cmd: u16): EcCommand.Request
  {
    Commands.ToRequest(Commands.GetCmdVersionsV0(cmd % 0x100))
  }

  /** The answer `cmd_version_supported` gives for the two possible replies. */
  function VersionSupport(v1: Result<seq<u8>, EcError>, v0: Result<seq<u8>, EcError>, version: u8): (r: Result<bool, EcError>)
    requires v1.Ok? ==> |v1.value| == 4
    requires v0.Ok? ==> |v0.value| == 4
    ensures v1.Ok? ==> r == Ok(MaskHas(Le32At(v1.value, 0), version))
    ensures v1.Err? && v0.Err? ==> r == Err(v0.error)
    ensures v1.Err? && v0.Ok? ==> r == Ok(MaskHas(Le32At(v0.value, 0), version))
  {
    if v1.Ok? then Ok(MaskHas(Le32At(v1.value, 0), version))
    else if v0.Err? then Err(v0.error)
    else Ok(MaskHas(Le32At(v0.value, 0), version))
  }

  /**
   * `cmd_version_supported`: the V1 query first; the V0 query is sent only
   * when the V1 query fails. `sent` lists the queries in the order sent.
   */
  method CmdVersionSupported(ec: CrosEcHandle, host: Host, cmd: u16, version: u8)
    returns (r: Result<bool, EcError>, ghost sent: seq<EcCommand.Request>)
    ensures var send := Transport(ec, host);
            var v1 := EcCommand.CheckSize(send(V1Query(cmd).command, V1Query(cmd).version, V1Query(cmd).params),
                                          CMD_VERSIONS_RESPONSE_SIZE, OnWindows(host));
            var v0 := EcCommand.CheckSize(send(V0Query(cmd).command, V0Query(cmd).version, V0Query(cmd).params),
                                          CMD_VERSIONS_RESPONSE_SIZE, OnWindows(host));
            && r == VersionSupport(v1, v0, version)
            && sent == [V1Query(cmd)] + (if v1.Ok? then [] else [V0Query(cmd)])
  {
    var send := Transport(ec, host);
    var v1 := EcCommand.SendCommand(V1Query(cmd), CMD_VERSIONS_RESPONSE_SIZE, OnWindows(host), send);
    sent := [V1Query(cmd)];
    var mask: u32;
    if v1.Ok? {
      mask := Le32At(v1.value, 0);
    } else {
      var v0 := EcCommand.SendCommand(V0Query(cmd), CMD_VERSIONS_RESPONSE_SIZE, OnWindows(host), send);
      sent := sent + [V0Query(cmd)];
      if v0.Err? {
        return Err(v0.error), sent;
      }
      mask := Le32At(v0.value, 0);
    }
    r := Ok(MaskHas(mask, version));
  }

  // ---------------------------------------------------------------------
  // ADC board ID

  type i32 = x: int | -0x8000_0000 <= x < 0x8000_0000

  /** Upper thresholds (mV) of the sixteen board-ID bands. */
  const BOARD_VERSION: seq<i32> :=
    [85, 233, 360, 492, 649, 844, 965, 1094, 1380, 1562, 1710, 2040, 2197, 2557, 2766, 2814]

  /** The same for the boards read through the NPC daughterboard divider. */
  const BOARD_VERSION_NPC_DB: seq<i32> :=
    [100, 311, 521, 721, 931, 1131, 1341, 1551, 1751, 1961, 2171, 2370, 2580, 2780, 2990, 3200]

  predicate StrictlyIncreasing(table: seq<int>)
  {
    forall i, j :: 0 <= i < j < |table| ==> table[i] < table[j]
  }

  lemma BoardTablesIncreasing()
    ensures |BOARD_VERSION| == 16 && StrictlyIncreasing(BOARD_VERSION)
    ensures |BOARD_VERSION_NPC_DB| == 16 && StrictlyIncreasing(BOARD_VERSION_NPC_DB)
  {
  }

  /** The first index at or after `from` whose threshold exceeds `mv`. */
  function FirstAbove(mv: int, table: seq<int>, from: nat): (r: Option<nat>)
    decreases |table| - from
    ensures r.Some? ==> from <= r.value < |table| && mv < table[r.value]
    ensures r.Some? ==> forall j :: from <= j < r.value ==> table[j] <= mv
    ensures r.None? ==> forall j :: from <= j < |table| ==> table[j] <= mv
  {
    if from >= |table| then None
    else if mv < table[from] then Some(from)
    else FirstAbove(mv, table, from + 1)
  }

  /**
   * `read_board_id_raw` given the ADC reading: a negative reading is an
   * error; otherwise the first band whose threshold exceeds the reading,
   * where band 15 ("not installed") and bands 0 and 1 (undefined) give
   * `None`; a reading above every threshold is an error.
   */
  function ReadBoardIdRaw(adc: Result<i32, EcError>, channel: u8, table: seq<i32>): (r: Result<Option<u8>, EcError>)
    requires |table| == 16
    ensures adc.Err? ==> r == Err(adc.error)
    ensures adc.Ok? && adc.value < 0 ==> r.Err? && r.error.DeviceError?
    ensures adc.Ok? && adc.value >= 0 ==>
              (r.Ok? <==> exists i :: 0 <= i < 16 && adc.value < table[i])
    ensures r.Ok? && r.value.Some? ==>
              var id := r.value.value;
              2 <= id < 15 && adc.value < table[id] && forall j :: 0 <= j < id ==> table[j] <= adc.value
  {
    match adc
    case Err(e) => Err(e)
    case Ok(mv) =>
      if mv < 0 then Err(DeviceError("Failed to read ADC channel " + Text.FormatDec(channel)))
      else match FirstAbove(mv, table, 0)
        case Some(id) => Ok(if id == 15 || id < 2 then None else Some(id))
        case None => Err(DeviceError("Unknown board id. ADC mv: " + Text.FormatDec(mv)))
  }

  /**
   * With an increasing table, a reading is reported as board `id` exactly
   * when it lies in that band: at or above the previous threshold and below
   * its own.
   */
  lemma BoardIdBand(mv: i32, channel: u8, table: seq<i32>, id: u8)
    requires |table| == 16 && StrictlyIncreasing(table) && table[0] >= 0
    ensures ReadBoardIdRaw(Ok(mv), channel, table) == Ok(Some(id)) <==>
              2 <= id <= 14 && table[id - 1] <= mv < table[id]
  {
    if 2 <= id <= 14 && table[id - 1] <= mv < table[id] {
      assert table[0] <= table[id - 1];
      FirstAboveAt(mv, table, id);
    }
  }

  /** A reading of 1000 mV is board 7 in the standard table. */
  lemma BoardIdStandardExample()
    ensures ReadBoardIdRaw(Ok(1000), 0, BOARD_VERSION) == Ok(Some(7))
  {
    BoardTablesIncreasing();
    FirstAboveAt(1000, BOARD_VERSION, 7);
  }

  /** A reading of 1000 mV is board 5 in the daughterboard table. */
  lemma BoardIdDaughterboardExample()
    ensures ReadBoardIdRaw(Ok(1000), 0, BOARD_VERSION_NPC_DB) == Ok(Some(5))
  {
    BoardTablesIncreasing();
    FirstAboveAt(1000, BOARD_VERSION_NPC_DB, 5);
  }

  /** A reading in the last band means no board is installed. */
  lemma BoardIdNotInstalledExample()
    ensures ReadBoardIdRaw(Ok(2800), 0, BOARD_VERSION) == Ok(None)
  {
    BoardTablesIncreasing();
    FirstAboveAt(2800, BOARD_VERSION, 15);
  }

  /** A reading at or above the last threshold is an unknown board. */
  lemma BoardIdUnknownExample()
    ensures ReadBoardIdRaw(Ok(3200), 0, BOARD_VERSION_NPC_DB).Err?
  {
    BoardTablesIncreasing();
    var t := BOARD_VERSION_NPC_DB;
    forall j | 0 <= j < 16
      ensures t[j] <= 3200
    {
      assert t[j] <= t[15];
    }
  }

  /** In an increasing table the search stops at the first threshold above the reading. */
  lemma FirstAboveAt(mv: int, table: seq<int>, i: nat)
    requires StrictlyIncreasing(table) && i < |table| && mv < table[i]
    requires i == 0 || table[i - 1] <= mv
    ensures FirstAbove(mv, table, 0) == Some(i)
  {
  }

  /** The `adc_value: i32` of an ADC response, read little-endian two's complement. */
  function I32At(b: seq<u8>, at: nat): (v: i32)
    requires at + 4 <= |b|
    ensures v >= 0 <==> Le32At(b, at) < 0x8000_0000
  {
    var u := Le32At(b, at);
    if u < 0x8000_0000 then u else u - 0x1_0000_0000
  }

  function AdcValue(reply: Result<seq<u8>, EcError>): (r: Result<i32, EcError>)
    requires reply.Ok? ==> |reply.value| == 4
    ensures r.Ok? <==> reply.Ok?
  {
    match reply
    case Ok(b) => Ok(I32At(b, 0))
    case Err(e) => Err(e)
  }

  function AdcQuery(channel: u8): EcCommand.Request
  {
    EcCommand.Request(EcCommand.Id(EcCommand.AdcRead), 0, [channel])
  }

  /** `adc_read` followed by `read_board_id_raw`. */
  method ReadBoardId(ec: CrosEcHandle, host: Host, channel: u8, table: seq<i32>)
    returns (r: Result<Option<u8>, EcError>)
    requires |table| == 16
    ensures var reply := EcCommand.CheckSize(Transport(ec, host)(AdcQuery(channel).command, 0, [channel]), 4, OnWindows(host));
            r == ReadBoardIdRaw(AdcValue(reply), channel, table)
  {
    var reply := EcCommand.SendCommand(AdcQuery(channel), 4, OnWindows(host), Transport(ec, host));
    r := ReadBoardIdRaw(AdcValue(reply), channel, table);
  }

  // ---------------------------------------------------------------------
  // Flash erase

  /** The (offset, size) chunks `erase_ec_flash` erases from `cur` up to `end`. */
  function EraseChunks(cur: nat, end: nat, chunk: nat): seq<(nat, nat)>
    requires chunk > 0
    decreases end - cur
  {
    if cur < end then [(cur, Min(end - cur, chunk))] + EraseChunks(cur + chunk, end, chunk) else []
  }

  function SizeSum(chunks: seq<(nat, nat)>): nat
  {
    if chunks == [] then 0 else chunks[0].1 + SizeSum(chunks[1..])
  }

  /** The chunks follow one another without gap or overlap. */
  predicate Contiguous(chunks: seq<(nat, nat)>)
  {
    forall i :: 0 <= i < |chunks| - 1 ==> chunks[i].0 + chunks[i].1 == chunks[i + 1].0
  }

  /**
   * The erased chunks tile [cur, end) exactly: they start at `cur`, follow
   * one another, each is non-empty and at most `chunk` long, and their sizes
   * add up to the length of the range.
   */
  lemma EraseChunksCover(cur: nat, end: nat, chunk: nat)
    requires chunk > 0
    ensures var c := EraseChunks(cur, end, chunk);
            && (c == [] <==> cur >= end)
            && (c != [] ==> c[0].0 == cur)
            && Contiguous(c)
            && (forall i :: 0 <= i < |c| ==> 0 < c[i].1 <= chunk)
            && SizeSum(c) == (if cur < end then end - cur else 0)
  {
    EraseChunksSizes(cur, end, chunk);
    EraseChunksContiguous(cur, end, chunk);
    EraseChunksSum(cur, end, chunk);
  }

  lemma {:induction false} EraseChunksSizes(cur: nat, end: nat, chunk: nat)
    requires chunk > 0
    decreases end - cur
    ensures forall i :: 0 <= i < |EraseChunks(cur, end, chunk)| ==> 0 < EraseChunks(cur, end, chunk)[i].1 <= chunk
  {
    if cur < end {
      EraseChunksSizes(cur + chunk, end, chunk);
      var c := EraseChunks(cur, end, chunk);
      var rest := EraseChunks(cur + chunk, end, chunk);
      assert c == [(cur, Min(end - cur, chunk))] + rest;
      forall i | 0 <= i < |c|
        ensures 0 < c[i].1 <= chunk
      {
        if i > 0 {
          assert c[i] == rest[i - 1];
        }
      }
    }
  }

  lemma {:induction false} EraseChunksContiguous(cur: nat, end: nat, chunk: nat)
    requires chunk > 0
    decreases end - cur
    ensures var c := EraseChunks(cur, end, chunk);
            (c != [] ==> c[0].0 == cur) && Contiguous(c)
  {
    if cur < end {
      EraseChunksContiguous(cur + chunk, end, chunk);
      var c := EraseChunks(cur, end, chunk);
      var rest := EraseChunks(cur + chunk, end, chunk);
      assert c == [(cur, Min(end - cur, chunk))] + rest;
      if rest != [] {
        assert c[0].0 + c[0].1 == c[1].0;
      }
      forall i | 1 <= i < |c| - 1
        ensures c[i].0 + c[i].1 == c[i + 1].0
      {
        assert c[i] == rest[i - 1] && c[i + 1] == rest[i];
      }
    }
  }

  lemma {:induction false} EraseChunksSum(cur: nat, end: nat, chunk: nat)
    requires chunk > 0
    decreases end - cur
    ensures SizeSum(EraseChunks(cur, end, chunk)) == (if cur < end then end - cur else 0)
  {
    if cur < end {
      EraseChunksSum(cur + chunk, end, chunk);
      assert EraseChunks(cur, end, chunk)[1..] == EraseChunks(cur + chunk, end, chunk);
    }
  }

  /** Where `erase_ec_flash`'s cursor is after `n` passes of its loop, as written: it advances by `chunk` each pass. */
  function EraseCursorAfter(cur: nat, end: nat, chunk: nat, n: nat): (c: nat)
    decreases n
    ensures c >= cur
    ensures cur < end && n > 0 ==> c >= cur + chunk
  {
    if n == 0 || cur >= end then cur else EraseCursorAfter(cur + chunk, end, chunk, n - 1)
  }

  /**
   * With an erase block size of 0 the loop never ends: after any number of
   * passes the cursor has not moved and is still below the end, and every
   * pass asks to erase 0 bytes.
   */
  lemma {:induction false} ZeroChunkEraseNeverEnds(cur: nat, end: nat, n: nat)
    requires cur < end
    decreases n
    ensures EraseCursorAfter(cur, end, 0, n) == cur
    ensures EraseCursorAfter(cur, end, 0, n) < end
    ensures Min(end - EraseCursorAfter(cur, end, 0, n), 0) == 0
  {
    if n > 0 {
      ZeroChunkEraseNeverEnds(cur, end, n - 1);
    }
  }

  /** With a positive erase block size the loop is done after at most `end - cur` passes. */
  lemma {:induction false} EraseLoopEnds(cur: nat, end: nat, chunk: nat, n: nat)
    requires chunk > 0 && cur + n >= end
    decreases n
    ensures EraseCursorAfter(cur, end, chunk, n) >= end
  {
    if n > 0 && cur < end {
      EraseLoopEnds(cur + chunk, end, chunk, n - 1);
    }
  }

  /** The erase request for one chunk. */
  function EraseQuery(offset: u32, size: u32): EcCommand.Request
  {
    EcCommand.Request(EcCommand.Id(EcCommand.FlashErase), 0, Le32Bytes(offset) + Le32Bytes(size))
  }

  /** The checked reply to the erase request for one chunk (the response carries no data). */
  function EraseReply(send: EcCommand.Transport, windows: bool, offset: u32, size: u32): Result<seq<u8>, EcError>
  {
    var q := EraseQuery(offset, size);
    EcCommand.CheckSize(send(q.command, q.version, q.params), 0, windows)
  }

  /** The reply for each chunk, whose offset and size are u32 fields. */
  function EraseReplies(send: EcCommand.Transport, windows: bool): (nat, nat) -> Result<seq<u8>, EcError>
  {
    (offset: nat, size: nat) =>
      if offset < 0x1_0000_0000 && size < 0x1_0000_0000 then EraseReply(send, windows, offset, size)
      else EraseReply(send, windows, offset % 0x1_0000_0000, size % 0x1_0000_0000)
  }

  /** Erasing [cur, end) chunk by chunk: Ok when every chunk is erased, otherwise the first error. */
  function EraseFrom(reply: (nat, nat) -> Result<seq<u8>, EcError>, cur: nat, end: nat, chunk: nat): Result<(), EcError>
    requires chunk > 0
    decreases end - cur
  {
    if cur >= end then Ok(())
    else
      var one := reply(cur, Min(end - cur, chunk));
      if one.Err? then Err(one.error) else EraseFrom(reply, cur + chunk, end, chunk)
  }

  /** The chunks for which an erase request is sent: up to and including the first that fails. */
  function EraseSentFrom(reply: (nat, nat) -> Result<seq<u8>, EcError>, cur: nat, end: nat, chunk: nat): (r: seq<(nat, nat)>)
    requires chunk > 0
    decreases end - cur
  {
    if cur >= end then []
    else
      [(cur, Min(end - cur, chunk))] +
      (if reply(cur, Min(end - cur, chunk)).Err? then [] else EraseSentFrom(reply, cur + chunk, end, chunk))
  }

  /**
   * The requests sent are the planned chunks in order: all of them when the
   * erase succeeds, otherwise up to and including the chunk that failed.
   */
  lemma {:induction false} EraseSentIsPlan(reply: (nat, nat) -> Result<seq<u8>, EcError>, cur: nat, end: nat, chunk: nat)
    requires chunk > 0
    decreases end - cur
    ensures |EraseSentFrom(reply, cur, end, chunk)| <= |EraseChunks(cur, end, chunk)|
    ensures EraseSentFrom(reply, cur, end, chunk) ==
              EraseChunks(cur, end, chunk)[..|EraseSentFrom(reply, cur, end, chunk)|]
    ensures EraseFrom(reply, cur, end, chunk).Ok? ==> EraseSentFrom(reply, cur, end, chunk) == EraseChunks(cur, end, chunk)
  {
    if cur < end {
      EraseSentIsPlan(reply, cur + chunk, end, chunk);
      var plan := EraseChunks(cur, end, chunk);
      var restSent := EraseSentFrom(reply, cur + chunk, end, chunk);
      var restPlan := EraseChunks(cur + chunk, end, chunk);
      assert plan == [plan[0]] + restPlan;
      if reply(cur, Min(end - cur, chunk)).Ok? {
        assert plan[..1 + |restSent|] == [plan[0]] + restPlan[..|restSent|];
      } else {
        assert plan[..1] == [plan[0]];
      }
    }
  }

  /** When the erase fails, the last request sent is the one that failed, with the error returned. */
  lemma {:induction false} EraseStopsAtFailure(reply: (nat, nat) -> Result<seq<u8>, EcError>, cur: nat, end: nat, chunk: nat)
    requires chunk > 0
    requires EraseFrom(reply, cur, end, chunk).Err?
    decreases end - cur
    ensures EraseSentFrom(reply, cur, end, chunk) != []
    ensures var last := EraseSentFrom(reply, cur, end, chunk)[|EraseSentFrom(reply, cur, end, chunk)| - 1];
            reply(last.0, last.1) == Err(EraseFrom(reply, cur, end, chunk).error)
  {
    if reply(cur, Min(end - cur, chunk)).Ok? {
      EraseStopsAtFailure(reply, cur + chunk, end, chunk);
      var rest := EraseSentFrom(reply, cur + chunk, end, chunk);
      assert EraseSentFrom(reply, cur, end, chunk) == [(cur, Min(end - cur, chunk))] + rest;
      LastOfPrepended((cur, Min(end - cur, chunk)), rest);
    }
  }

  lemma LastOfPrepended<T>(x: T, rest: seq<T>)
    requires rest != []
    ensures ([x] + rest)[|[x] + rest| - 1] == rest[|rest| - 1]
  {
  }

  lemma EraseReplyAt(send: EcCommand.Transport, windows: bool, offset: u32, size: u32)
    ensures EraseReplies(send, windows)(offset, size) == EraseReply(send, windows, offset, size)
  {
  }

  /** One step of the erase loop: the outcome and the requests from `offset` on, once chunk `cur` is answered. */
  lemma EraseAdvance(replies: (nat, nat) -> Result<seq<u8>, EcError>, offset: nat, cur: nat, end: nat, chunk: nat, sent: seq<(nat, nat)>)
    requires chunk > 0 && cur < end
    requires EraseFrom(replies, offset, end, chunk) == EraseFrom(replies, cur, end, chunk)
    requires EraseSentFrom(replies, offset, end, chunk) == sent + EraseSentFrom(replies, cur, end, chunk)
    ensures replies(cur, Min(end - cur, chunk)).Ok? ==>
              EraseFrom(replies, offset, end, chunk) == EraseFrom(replies, cur + chunk, end, chunk) &&
              EraseSentFrom(replies, offset, end, chunk) == (sent + [(cur, Min(end - cur, chunk))]) + EraseSentFrom(replies, cur + chunk, end, chunk)
    ensures replies(cur, Min(end - cur, chunk)).Err? ==>
              EraseFrom(replies, offset, end, chunk) == Err(replies(cur, Min(end - cur, chunk)).error) &&
              EraseSentFrom(replies, offset, end, chunk) == sent + [(cur, Min(end - cur, chunk))]
  {
    var step := [(cur, Min(end - cur, chunk))];
    if replies(cur, Min(end - cur, chunk)).Ok? {
      assert EraseSentFrom(replies, cur, end, chunk) == step + EraseSentFrom(replies, cur + chunk, end, chunk);
      assert sent + (step + EraseSentFrom(replies, cur + chunk, end, chunk)) == (sent + step) + EraseSentFrom(replies, cur + chunk, end, chunk);
    } else {
      assert EraseSentFrom(replies, cur, end, chunk) == step + [];
    }
  }

  /**
   * `erase_ec_flash`: erases [offset, offset + size) in chunks of at most
   * `chunkSize`, stopping at the first error; a dry run sends nothing.
   * `sent` lists the chunks for which a request went out, in order.
   */
  method EraseEcFlash(ec: CrosEcHandle, host: Host, offset: u32, size: u32, dryRun: bool, chunkSize: u32)
    returns (r: Result<(), EcError>, ghost sent: seq<(nat, nat)>)
    requires chunkSize > 0 && offset + size + chunkSize <= 0x1_0000_0000
    ensures dryRun ==> r == Ok(()) && sent == []
    ensures !dryRun ==> r == EraseFrom(EraseReplies(Transport(ec, host), OnWindows(host)), offset, offset + size, chunkSize)
    ensures !dryRun ==> sent == EraseSentFrom(EraseReplies(Transport(ec, host), OnWindows(host)), offset, offset + size, chunkSize)
  {
    var send := Transport(ec, host);
    var windows := OnWindows(host);
    ghost var replies := EraseReplies(send, windows);
    var end := offset + size;
    var cur: nat := offset;
    sent := [];
    while cur < end
      invariant cur < end + chunkSize
      invariant dryRun ==> sent == []
      invariant !dryRun ==> EraseFrom(replies, offset, end, chunkSize) == EraseFrom(replies, cur, end, chunkSize)
      invariant !dryRun ==> EraseSentFrom(replies, offset, end, chunkSize) == sent + EraseSentFrom(replies, cur, end, chunkSize)
      decreases end - cur
    {
      var curSize := Min(end - cur, chunkSize);
      if !dryRun {
        var reply := EcCommand.SendCommand(EraseQuery(cur, curSize), 0, windows, send);
        EraseReplyAt(send, windows, cur, curSize);
        assert reply == replies(cur, curSize);
        EraseAdvance(replies, offset, cur, end, chunkSize, sent);
        sent := sent + [(cur, curSize)];
        if reply.Err? {
          return Err(reply.error), sent;
        }
      }
      cur := cur + chunkSize;
    }
    r := Ok(());
  }

  // ---------------------------------------------------------------------
  // Flash read

  const FLASH_CHUNK: nat := 0x80

  /**
   * The (offset, size) chunks `read_ec_flash` reads: one chunk of `size`
   * when `size` is at most 0x80, otherwise `size / 0x80` chunks of 0x80.
   * Offsets are u32 sums, which wrap in a release build.
   */
  function ReadPlan(offset: u32, size: u32): (plan: seq<(u32, u32)>)
  {
    seq(ReadChunkCount(size), (i: int) requires 0 <= i < ReadChunkCount(size) => ReadPlanEntry(offset, size, i))
  }

  /** The size of every chunk of a read: the whole read when it is at most 0x80 bytes, otherwise 0x80. */
  function ReadChunkSize(size: u32): u32
  {
    if size <= FLASH_CHUNK then size else FLASH_CHUNK
  }

  function ReadChunkCount(size: u32): nat
  {
    if size <= FLASH_CHUNK then 1 else size / FLASH_CHUNK
  }

  /** The chunks of a read start within it. */
  lemma ReadChunkWithin(size: u32, i: nat)
    requires i < ReadChunkCount(size)
    ensures i * ReadChunkSize(size) <= size
  {
    if size > FLASH_CHUNK {
      assert i * FLASH_CHUNK <= (size / FLASH_CHUNK) * FLASH_CHUNK <= size;
    }
  }

  /** Chunk `i` of the read plan: its u32 offset and its size. */
  function ReadPlanEntry(offset: u32, size: u32, i: nat): (u32, u32)
    requires i < ReadChunkCount(size)
  {
    ReadChunkWithin(size, i);
    ((offset + i * ReadChunkSize(size)) % 0x1_0000_0000, Min(ReadChunkSize(size), size - i * ReadChunkSize(size)))
  }

  lemma ReadPlanEntryIs(offset: u32, size: u32, i: nat, chunkSize: u32)
    requires i < ReadChunkCount(size) && chunkSize == ReadChunkSize(size)
    ensures i * chunkSize <= size
    ensures ReadPlanEntry(offset, size, i) == ((offset + i * chunkSize) % 0x1_0000_0000, Min(chunkSize, size - i * chunkSize))
  {
    ReadChunkWithin(size, i);
  }

  /** Total bytes requested by the chunks of `plan` from chunk `k` on. */
  function PlanSum(plan: seq<(u32, u32)>, k: nat): nat
    decreases |plan| - k
  {
    if k >= |plan| then 0 else plan[k].1 + PlanSum(plan, k + 1)
  }

  lemma {:induction false} PlanSumUniform(plan: seq<(u32, u32)>, c: u32, k: nat)
    requires k <= |plan|
    requires forall i :: k <= i < |plan| ==> plan[i].1 == c
    decreases |plan| - k
    ensures PlanSum(plan, k) == (|plan| - k) * c
  {
    if k < |plan| {
      PlanSumUniform(plan, c, k + 1);
    }
  }

  /**
   * Shape of the read plan: a small read is a single chunk; a larger one is
   * `size / 0x80` full chunks at consecutive 0x80 offsets, so the last
   * `size % 0x80` bytes are not read.
   */
  lemma ReadPlanShape(offset: u32, size: u32)
    ensures size <= FLASH_CHUNK ==> ReadPlan(offset, size) == [(offset, size)]
    ensures size > FLASH_CHUNK ==>
              var plan := ReadPlan(offset, size);
              && |plan| == size / FLASH_CHUNK
              && (forall i :: 0 <= i < |plan| ==> plan[i] == ((offset + i * FLASH_CHUNK) % 0x1_0000_0000, FLASH_CHUNK))
              && PlanSum(plan, 0) == size - size % FLASH_CHUNK
  {
    var plan := ReadPlan(offset, size);
    if size > FLASH_CHUNK {
      forall i | 0 <= i < |plan|
        ensures plan[i].1 == FLASH_CHUNK
      {
        assert i * FLASH_CHUNK + FLASH_CHUNK <= (size / FLASH_CHUNK) * FLASH_CHUNK <= size;
        assert plan[i] == ReadPlanEntry(offset, size, i);
      }
      PlanSumUniform(plan, FLASH_CHUNK, 0);
    } else {
      assert plan[0] == ReadPlanEntry(offset, size, 0);
      assert plan[0].1 == Min(size, size - 0 * size);
    }
  }

  function ReadQuery(offset: u32, size: u32): EcCommand.Request
  {
    EcCommand.Request(EcCommand.Id(EcCommand.FlashRead), 0, Le32Bytes(offset) + Le32Bytes(size))
  }

  /**
   * `read_ec_flash_chunk`: the raw reply cut to `size` bytes; a reply
   * shorter than that panics on the slice.
   */
  function ReadChunk(send: EcCommand.Transport, offset: u32, size: u32): (r: Outcome<Result<seq<u8>, EcError>>)
    ensures r.Returns? && r.value.Ok? ==> |r.value.value| == size
  {
    var q := ReadQuery(offset, size);
    match send(q.command, q.version, q.params)
    case Err(e) => Returns(Err(e))
    case Ok(data) =>
      if |data| < size then Panics("range end index out of range for slice")
      else Returns(Ok(data[..size]))
  }

  method ReadEcFlashChunk(ec: CrosEcHandle, host: Host, offset: u32, size: u32)
    returns (r: Outcome<Result<seq<u8>, EcError>>)
    ensures r == ReadChunk(Transport(ec, host), offset, size)
  {
    var reply := EcCommand.SendCommandVec(ReadQuery(offset, size), Transport(ec, host));
    if reply.Err? {
      return Returns(Err(reply.error));
    }
    if |reply.value| < size {
      return Panics("range end index out of range for slice");
    }
    r := Returns(Ok(reply.value[..size]));
  }

  /** `acc` in front of whatever `rest` collected, unless `rest` panicked. */
  function Prepend(acc: seq<u8>, rest: Outcome<seq<u8>>): Outcome<seq<u8>>
  {
    match rest
    case Panics(why) => Panics(why)
    case Returns(data) => Returns(acc + data)
  }

  /** What reading one chunk gives: a panic, a failed read, or the bytes read. */
  type ChunkReader = (u32, u32) -> Outcome<Result<seq<u8>, EcError>>

  /** `read_ec_flash_chunk` over a transport, as a chunk reader. */
  function ChunkReaderOf(send: EcCommand.Transport): ChunkReader
  {
    (offset: u32, size: u32) => ReadChunk(send, offset, size)
  }

  lemma ChunkReaderAt(send: EcCommand.Transport, offset: u32, size: u32)
    ensures ChunkReaderOf(send)(offset, size) == ReadChunk(send, offset, size)
  {
  }

  /** A chunk reader that returns exactly the bytes asked for whenever it succeeds. */
  ghost predicate ExactReader(read: ChunkReader)
  {
    forall offset, size :: read(offset, size).Returns? && read(offset, size).value.Ok? ==>
      |read(offset, size).value.value| == size
  }

  lemma ChunkReaderExact(send: EcCommand.Transport)
    ensures ExactReader(ChunkReaderOf(send))
  {
    forall offset: u32, size: u32 | ChunkReaderOf(send)(offset, size).Returns? && ChunkReaderOf(send)(offset, size).value.Ok?
      ensures |ChunkReaderOf(send)(offset, size).value.value| == size
    {
      assert ChunkReaderOf(send)(offset, size) == ReadChunk(send, offset, size);
    }
  }

  /**
   * The bytes collected for the chunks of `plan` from chunk `k` on: failed
   * chunks are skipped, and the first panic ends the read.
   */
  function ReadFrom(read: ChunkReader, plan: seq<(u32, u32)>, k: nat): (r: Outcome<seq<u8>>)
    decreases |plan| - k
    ensures ExactReader(read) && r.Returns? ==> |r.value| <= PlanSum(plan, k)
  {
    if k >= |plan| then Returns([])
    else match read(plan[k].0, plan[k].1)
      case Panics(why) => Panics(why)
      case Returns(Err(_)) => ReadFrom(read, plan, k + 1)
      case Returns(Ok(data)) => Prepend(data, ReadFrom(read, plan, k + 1))
  }

  /** When every chunk reads, all requested bytes are returned. */
  lemma {:induction false} ReadFromComplete(read: ChunkReader, plan: seq<(u32, u32)>, k: nat)
    requires ExactReader(read)
    requires forall i :: k <= i < |plan| ==> read(plan[i].0, plan[i].1).Returns? && read(plan[i].0, plan[i].1).value.Ok?
    decreases |plan| - k
    ensures ReadFrom(read, plan, k).Returns? && |ReadFrom(read, plan, k).value| == PlanSum(plan, k)
  {
    if k < |plan| {
      ReadFromComplete(read, plan, k + 1);
    }
  }

  /** One step of the read loop: what chunk `k`, read as `c`, adds to the bytes collected so far. */
  lemma ReadAdvance(read: ChunkReader, plan: seq<(u32, u32)>, k: nat, acc: seq<u8>, c: Outcome<Result<seq<u8>, EcError>>)
    requires k < |plan| && c == read(plan[k].0, plan[k].1)
    requires ReadFrom(read, plan, 0) == Prepend(acc, ReadFrom(read, plan, k))
    ensures c.Panics? ==> ReadFrom(read, plan, 0) == Panics(c.reason)
    ensures c.Returns? && c.value.Err? ==> ReadFrom(read, plan, 0) == Prepend(acc, ReadFrom(read, plan, k + 1))
    ensures c.Returns? && c.value.Ok? ==> ReadFrom(read, plan, 0) == Prepend(acc + c.value.value, ReadFrom(read, plan, k + 1))
  {
    if c.Returns? && c.value.Ok? {
      var rest := ReadFrom(read, plan, k + 1);
      if rest.Returns? {
        assert acc + (c.value.value + rest.value) == (acc + c.value.value) + rest.value;
      }
    }
  }

  /**
   * `read_ec_flash`: reads the planned chunks in order, appending each one
   * that succeeds; a failing chunk is skipped, not fatal.
   */
  method ReadEcFlash(ec: CrosEcHandle, host: Host, offset: u32, size: u32) returns (r: Outcome<seq<u8>>)
    ensures r == ReadFrom(ChunkReaderOf(Transport(ec, host)), ReadPlan(offset, size), 0)
  {
    r := ReadPlanned(ec, host, offset, size, ReadPlan(offset, size));
  }

  /** The loop of `read_ec_flash`, over the chunks it computes. */
  method ReadPlanned(ec: CrosEcHandle, host: Host, offset: u32, size: u32, ghost plan: seq<(u32, u32)>)
    returns (r: Outcome<seq<u8>>)
    requires |plan| == ReadChunkCount(size)
    requires forall k {:trigger ReadPlanEntry(offset, size, k)} :: 0 <= k < |plan| ==> plan[k] == ReadPlanEntry(offset, size, k)
    ensures r == ReadFrom(ChunkReaderOf(Transport(ec, host)), plan, 0)
  {
    ghost var read := ChunkReaderOf(Transport(ec, host));
    var chunkSize, chunks := ReadChunkSize(size), ReadChunkCount(size);
    var flashBin: seq<u8> := [];
    var chunkNo := 0;
    PrependNothing(ReadFrom(read, plan, 0));
    while chunkNo < chunks
      invariant chunkNo <= chunks == |plan|
      invariant ReadFrom(read, plan, 0) == Prepend(flashBin, ReadFrom(read, plan, chunkNo))
    {
      ReadPlanEntryIs(offset, size, chunkNo, chunkSize);
      var chunkOffset := (offset + chunkNo * chunkSize) % 0x1_0000_0000;
      var curChunkSize := Min(chunkSize, size - chunkNo * chunkSize);
      assert plan[chunkNo] == ReadPlanEntry(offset, size, chunkNo) == (chunkOffset, curChunkSize);
      var chunk := ReadEcFlashChunk(ec, host, chunkOffset, curChunkSize);
      ChunkReaderAt(Transport(ec, host), chunkOffset, curChunkSize);
      ReadAdvance(read, plan, chunkNo, flashBin, chunk);
      if chunk.Panics? {
        return Panics(chunk.reason);
      }
      if chunk.value.Ok? {
        flashBin := flashBin + chunk.value.value;
      }
      chunkNo := chunkNo + 1;
    }
    r := Returns(flashBin);
    assert flashBin + [] == flashBin;
  }

  lemma PrependNothing(rest: Outcome<seq<u8>>)
    ensures Prepend([], rest) == rest
  {
    if rest.Returns? {
      assert [] + rest.value == rest.value;
    }
  }

  // ---------------------------------------------------------------------
  // Flash write

  /** Chunk `i` of a write of `len` bytes: its offset into the data and its size. */
  function WriteEntry(len: nat, i: nat): (nat, nat)
    requires i * FLASH_CHUNK <= len
  {
    (i * FLASH_CHUNK, Min(FLASH_CHUNK, len - i * FLASH_CHUNK))
  }

  /** The chunks `write_ec_flash` writes as written: `len / 0x80` chunks, so a partial last chunk is never written. */
  function WritePlanAsWritten(len: nat): (plan: seq<(nat, nat)>)
    ensures |plan| == len / FLASH_CHUNK
  {
    seq(len / FLASH_CHUNK, (i: int) requires 0 <= i < len / FLASH_CHUNK => WriteEntry(len, i))
  }

  /** Data of 0x81 bytes is written as a single 0x80-byte chunk; its last byte is dropped. */
  lemma WriteDropsTail()
    ensures WritePlanAsWritten(0x81) == [(0, 0x80)]
  {
    assert WritePlanAsWritten(0x81)[0] == WriteEntry(0x81, 0);
  }

  function WriteChunkCount(len: nat): nat
  {
    (len + FLASH_CHUNK - 1) / FLASH_CHUNK
  }

  lemma WriteChunkInData(len: nat, i: nat)
    requires i < WriteChunkCount(len)
    ensures i * FLASH_CHUNK < len
  {
  }

  /**
   * The chunks `write_ec_flash` evidently intends ("current chunk might be
   * smaller if it's the last"): enough 0x80-byte chunks to cover the data,
   * the last one possibly shorter.
   */
  function WritePlan(len: nat): (plan: seq<(nat, nat)>)
    ensures |plan| == WriteChunkCount(len)
  {
    seq(WriteChunkCount(len), (i: int) requires 0 <= i < WriteChunkCount(len) =>
      WriteChunkInData(len, i); WriteEntry(len, i))
  }

  /** The shipped plan and the intended one agree exactly when the data is a whole number of 0x80-byte chunks. */
  lemma WritePlanAgreesIff(len: nat)
    ensures WritePlanAsWritten(len) == WritePlan(len) <==> len % FLASH_CHUNK == 0
  {
    if len % FLASH_CHUNK == 0 {
      assert WriteChunkCount(len) == len / FLASH_CHUNK;
      forall i | 0 <= i < len / FLASH_CHUNK
        ensures WritePlanAsWritten(len)[i] == WritePlan(len)[i]
      {
        assert WritePlanAsWritten(len)[i] == WriteEntry(len, i);
      }
    } else {
      assert WriteChunkCount(len) == len / FLASH_CHUNK + 1;
      assert |WritePlanAsWritten(len)| != |WritePlan(len)|;
    }
  }

  /** Sizes of the RO and RW regions that `reflash` writes. */
  const FLASH_RO_SIZE: nat := 0x3C000
  const FLASH_RW_SIZE: nat := 0x39000

  /** Both regions are whole multiples of 0x80 bytes, so `reflash` writes them completely despite the shortened plan. */
  lemma ReflashRegionsWrittenWhole()
    ensures WritePlanAsWritten(FLASH_RO_SIZE) == WritePlan(FLASH_RO_SIZE)
    ensures WritePlanAsWritten(FLASH_RW_SIZE) == WritePlan(FLASH_RW_SIZE)
  {
    WritePlanAgreesIff(FLASH_RO_SIZE);
    WritePlanAgreesIff(FLASH_RW_SIZE);
  }

  /** The intended plan tiles [0, len): contiguous, non-empty chunks of at most 0x80 bytes adding up to `len`. */
  lemma WritePlanCovers(len: nat)
    ensures var plan := WritePlan(len);
            && (plan != [] ==> plan[0].0 == 0)
            && Contiguous(plan)
            && (forall i :: 0 <= i < |plan| ==> 0 < plan[i].1 <= FLASH_CHUNK)
            && SizeSum(plan) == len
  {
    var plan := WritePlan(len);
    forall i | 0 <= i < |plan|
      ensures 0 < plan[i].1 <= FLASH_CHUNK
    {
      WriteChunkInData(len, i);
      assert plan[i] == WriteEntry(len, i);
    }
    forall i | 0 <= i < |plan| - 1
      ensures plan[i].0 + plan[i].1 == plan[i + 1].0
    {
      WriteChunkInData(len, i + 1);
      assert plan[i] == WriteEntry(len, i) && plan[i + 1] == WriteEntry(len, i + 1);
    }
    if plan != [] {
      assert plan[0] == WriteEntry(len, 0);
    }
    WritePlanSum(len, 0);
  }

  /** The sizes of the intended chunks from chunk `k` on add up to what is left of the data. */
  lemma {:induction false} WritePlanSum(len: nat, k: nat)
    requires k <= WriteChunkCount(len)
    decreases WriteChunkCount(len) - k
    ensures SizeSum(WritePlan(len)[k..]) == len - Min(len, k * FLASH_CHUNK)
  {
    var plan := WritePlan(len);
    if k == |plan| {
      assert plan[k..] == [];
      assert len <= k * FLASH_CHUNK;
    } else {
      WritePlanSum(len, k + 1);
      assert plan[k..][1..] == plan[k + 1..];
      WriteChunkInData(len, k);
      assert plan[k] == WriteEntry(len, k);
    }
  }

  /** The request writing `data` at flash offset `address` (`EcRequestFlashWrite`; the data follows it). Its size is `len as u32`. */
  function WriteQuery(address: u32, data: seq<u8>): EcCommand.Request
  {
    EcCommand.Request(EcCommand.Id(EcCommand.FlashWrite), 0, Le32Bytes(address) + Le32Bytes(|data| % 0x1_0000_0000))
  }

  /** Writing one chunk of data at an offset from the start of the write. */
  type ChunkWriter = (nat, seq<u8>) -> Result<seq<u8>, EcError>

  /** `write_ec_flash_chunk`: the write request at `offset`, followed by the chunk itself; no data comes back. */
  function WriteChunk(send: EcCommand.Transport, windows: bool, offset: u32, chunk: seq<u8>): Result<seq<u8>, EcError>
  {
    var q := WriteQuery(offset, chunk);
    EcCommand.CheckSize(send(q.command, q.version, q.params + chunk), 0, windows)
  }

  /** `write_ec_flash_chunk`, which asserts that the chunk is at most 0x80 bytes. */
  method WriteEcFlashChunk(ec: CrosEcHandle, host: Host, offset: u32, chunk: seq<u8>) returns (r: Result<seq<u8>, EcError>)
    requires |chunk| <= FLASH_CHUNK
    ensures r == WriteChunk(Transport(ec, host), OnWindows(host), offset, chunk)
    ensures r.Ok? ==> r.value == []
  {
    r := EcCommand.SendCommandExtra(WriteQuery(offset, chunk), chunk, 0, OnWindows(host), Transport(ec, host));
  }

  /** Writing at `address` plus an offset into the data (a u32 sum, which wraps in a release build). */
  function ChunkWriterOf(send: EcCommand.Transport, windows: bool, address: u32): ChunkWriter
  {
    (offset: nat, chunk: seq<u8>) => WriteChunk(send, windows, (address + offset) % 0x1_0000_0000, chunk)
  }

  lemma ChunkWriterAt(send: EcCommand.Transport, windows: bool, address: u32, offset: nat, chunk: seq<u8>)
    ensures ChunkWriterOf(send, windows, address)(offset, chunk) == WriteChunk(send, windows, (address + offset) % 0x1_0000_0000, chunk)
  {
  }

  /** The chunks of `plan` lie within the data and are at most 0x80 bytes. */
  predicate PlanInData(plan: seq<(nat, nat)>, len: nat)
  {
    forall i :: 0 <= i < |plan| ==> plan[i].1 <= FLASH_CHUNK && plan[i].0 + plan[i].1 <= len
  }

  /** Ok when every chunk of `plan` (from chunk `k` on) is written, otherwise the first error. */
  function WriteAll(write: ChunkWriter, data: seq<u8>, plan: seq<(nat, nat)>, k: nat): Result<(), EcError>
    requires PlanInData(plan, |data|)
    decreases |plan| - k
  {
    if k >= |plan| then Ok(())
    else
      var reply := write(plan[k].0, data[plan[k].0..plan[k].0 + plan[k].1]);
      if reply.Err? then Err(reply.error) else WriteAll(write, data, plan, k + 1)
  }

  /** One step of the write loop: the outcome from chunk `k` on, once that chunk is answered. */
  lemma WriteAdvance(write: ChunkWriter, data: seq<u8>, plan: seq<(nat, nat)>, k: nat, chunk: seq<u8>)
    requires PlanInData(plan, |data|) && k < |plan|
    requires chunk == data[plan[k].0..plan[k].0 + plan[k].1]
    ensures write(plan[k].0, chunk).Err? ==> WriteAll(write, data, plan, k) == Err(write(plan[k].0, chunk).error)
    ensures write(plan[k].0, chunk).Ok? ==> WriteAll(write, data, plan, k) == WriteAll(write, data, plan, k + 1)
  {
  }

  lemma WritePlanInData(len: nat)
    ensures PlanInData(WritePlan(len), len)
  {
    var plan := WritePlan(len);
    forall i | 0 <= i < |plan|
      ensures plan[i].1 <= FLASH_CHUNK && plan[i].0 + plan[i].1 <= len
    {
      WriteChunkInData(len, i);
      assert plan[i] == WriteEntry(len, i);
    }
  }

  /**
   * `write_ec_flash` with every chunk written: the data is sent in 0x80-byte
   * chunks (the last possibly shorter) at increasing offsets from `address`,
   * stopping at the first error; a dry run sends nothing.
   */
  method WriteEcFlash(ec: CrosEcHandle, host: Host, address: u32, data: seq<u8>, dryRun: bool)
    returns (r: Result<(), EcError>)
    ensures dryRun ==> r == Ok(())
    ensures !dryRun ==> (WritePlanInData(|data|);
                         r == WriteAll(ChunkWriterOf(Transport(ec, host), OnWindows(host), address), data, WritePlan(|data|), 0))
  {
    WritePlanInData(|data|);
    r := WritePlanned(ec, host, address, data, dryRun, WritePlan(|data|));
  }

  /** The loop of `write_ec_flash`, over the chunks it computes. */
  method WritePlanned(ec: CrosEcHandle, host: Host, address: u32, data: seq<u8>, dryRun: bool, ghost plan: seq<(nat, nat)>)
    returns (r: Result<(), EcError>)
    requires |plan| == WriteChunkCount(|data|) && PlanInData(plan, |data|)
    requires forall k {:trigger WriteEntry(|data|, k)} :: 0 <= k < |plan| ==> k * FLASH_CHUNK <= |data| && plan[k] == WriteEntry(|data|, k)
    ensures dryRun ==> r == Ok(())
    ensures !dryRun ==> r == WriteAll(ChunkWriterOf(Transport(ec, host), OnWindows(host), address), data, plan, 0)
  {
    ghost var send := Transport(ec, host);
    ghost var windows := OnWindows(host);
    ghost var write := ChunkWriterOf(send, windows, address);
    var chunks := (|data| + FLASH_CHUNK - 1) / FLASH_CHUNK;
    var chunkNo := 0;
    while chunkNo < chunks
      invariant chunkNo <= chunks == |plan|
      invariant !dryRun ==> WriteAll(write, data, plan, 0) == WriteAll(write, data, plan, chunkNo)
    {
      ghost var entry := WriteEntry(|data|, chunkNo);
      var offset := chunkNo * FLASH_CHUNK;
      var curChunkSize := Min(FLASH_CHUNK, |data| - offset);
      assert (offset, curChunkSize) == entry == plan[chunkNo];
      var chunk := data[offset..offset + curChunkSize];
      if !dryRun {
        var reply := WriteEcFlashChunk(ec, host, (address + offset) % 0x1_0000_0000, chunk);
        ChunkWriterAt(send, windows, address, offset, chunk);
        assert reply == write(offset, chunk);
        WriteAdvance(write, data, plan, chunkNo, chunk);
        if reply.Err? {
          return Err(reply.error);
        }
      }
      chunkNo := chunkNo + 1;
    }
    r := Ok(());
  }

  // ---------------------------------------------------------------------
  // Keyboard backlight

  /**
   * The duty `set_keyboard_backlight` requests: `percent` steps of
   * `pwmMaxDuty / 100`, a u16 product that wraps in a release build.
   */
  function DutyOfPercent(percent: u8, pwmMaxDuty: u16): (duty: u16)
    ensures percent <= 100 ==> duty <= pwmMaxDuty && duty == percent * (pwmMaxDuty / 100)
  {
    var step := pwmMaxDuty / 100;
    if percent <= 100 then MulMono(percent, 100, step); (percent * step) % 0x1_0000
    else (percent * step) % 0x1_0000
  }

  lemma MulMono(a: nat, b: nat, c: nat)
    requires a <= b
    ensures a * c <= b * c
  {
  }

  lemma MulDiv(a: nat, b: nat)
    requires b > 0
    ensures (a * b) / b == a
  {
    var q, m := (a * b) / b, (a * b) % b;
    assert a * b == q * b + m && 0 <= m < b;
    if q < a {
      assert (a - q) * b == a * b - q * b;
      MulMono(1, a - q, b);
    } else if q > a {
      assert (q - a) * b == q * b - a * b;
      MulMono(1, q - a, b);
    }
  }

  /**
   * The percentage `get_keyboard_backlight` reports for a duty: the number
   * of whole steps of `pwmMaxDuty / 100` in it, truncated to a u8.
   */
  function PercentOfDuty(duty: u16, pwmMaxDuty: u16): (percent: u8)
    requires pwmMaxDuty >= 100
    ensures duty / (pwmMaxDuty / 100) < 0x100 ==>
              percent * (pwmMaxDuty / 100) <= duty < (percent + 1) * (pwmMaxDuty / 100)
  {
    (duty / (pwmMaxDuty / 100)) % 0x100
  }

  /** Reading back a duty that was set from a percentage 0..100 gives that percentage. */
  lemma BacklightRoundTrip(percent: u8, pwmMaxDuty: u16)
    requires percent <= 100 && pwmMaxDuty >= 100
    ensures PercentOfDuty(DutyOfPercent(percent, pwmMaxDuty), pwmMaxDuty) == percent
  {
    var step := pwmMaxDuty / 100;
    assert DutyOfPercent(percent, pwmMaxDuty) == percent * step;
    MulDiv(percent, step);
  }

  /** `PwmType::KbLight`, index 0: the selector both requests carry. */
  function SetDutyQuery(percent: u8, pwmMaxDuty: u16, kbLight: u8): EcCommand.Request
  {
    EcCommand.Request(EcCommand.Id(EcCommand.PwmSetDuty), 0, Le16Bytes(DutyOfPercent(percent, pwmMaxDuty)) + [kbLight, 0])
  }

  function GetDutyQuery(kbLight: u8): EcCommand.Request
  {
    EcCommand.Request(EcCommand.Id(EcCommand.PwmGetDuty), 0, [kbLight, 0])
  }

  /** `set_keyboard_backlight`: sends the duty for `percent`; the reply is discarded. */
  method SetKeyboardBacklight(ec: CrosEcHandle, host: Host, percent: u8, pwmMaxDuty: u16, kbLight: u8)
    returns (ghost sent: EcCommand.Request)
    ensures sent == SetDutyQuery(percent, pwmMaxDuty, kbLight)
    ensures Le16At(sent.params, 0) == DutyOfPercent(percent, pwmMaxDuty)
  {
    var _ := EcCommand.SendCommand(SetDutyQuery(percent, pwmMaxDuty, kbLight), 0, OnWindows(host), Transport(ec, host));
    sent := SetDutyQuery(percent, pwmMaxDuty, kbLight);
  }

  /** The percentage reported for a duty reply, or the reply's error. */
  function BacklightOf(reply: Result<seq<u8>, EcError>, pwmMaxDuty: u16): (r: Result<u8, EcError>)
    requires pwmMaxDuty >= 100
    requires reply.Ok? ==> |reply.value| == 2
    ensures r.Ok? <==> reply.Ok?
    ensures reply.Err? ==> r == Err(reply.error)
  {
    match reply
    case Ok(b) => Ok(PercentOfDuty(Le16At(b, 0), pwmMaxDuty))
    case Err(e) => Err(e)
  }

  /** `get_keyboard_backlight`: queries the duty and converts it back to a percentage. */
  method GetKeyboardBacklight(ec: CrosEcHandle, host: Host, pwmMaxDuty: u16, kbLight: u8)
    returns (r: Result<u8, EcError>)
    requires pwmMaxDuty >= 100
    ensures var q := GetDutyQuery(kbLight);
            r == BacklightOf(EcCommand.CheckSize(Transport(ec, host)(q.command, q.version, q.params), 2, OnWindows(host)), pwmMaxDuty)
  {
    var reply := EcCommand.SendCommand(GetDutyQuery(kbLight), 2, OnWindows(host), Transport(ec, host));
    r := BacklightOf(reply, pwmMaxDuty);
  }

  /**
   * When the EC reports back the duty it was last set to, the reported
   * backlight is the percentage that was set.
   */
  lemma SetThenGet(percent: u8, pwmMaxDuty: u16, kbLight: u8)
    requires percent <= 100 && pwmMaxDuty >= 100
    ensures var setQuery := SetDutyQuery(percent, pwmMaxDuty, kbLight);
            BacklightOf(Ok(setQuery.params[..2]), pwmMaxDuty) == Ok(percent)
  {
    var duty := DutyOfPercent(percent, pwmMaxDuty);
    assert SetDutyQuery(percent, pwmMaxDuty, kbLight).params[..2] == Le16Bytes(duty);
    BacklightRoundTrip(percent, pwmMaxDuty);
  }
}
