/**
 * The typed command layer of the EC driver: the `EcCommands` identifiers,
 * a request as its command id, command version and packed parameter bytes,
 * and the two generic send paths (`send_command_vec_extra`, which appends
 * extra data to the parameters, and `send_command_extra`, which insists on
 * a response of exactly the response struct's size).
 */
module EcCommand {
  import opened Common
  import opened EcResult
  import Text

  /** `EcCommands`, in declaration order. */
  datatype EcCommands =
    | GetVersion
    | GetBuildInfo
    | ReadMemMap
    | GetCmdVersions
    | FlashInfo
    | FlashRead
    | FlashWrite
    | FlashErase
    | FlashProtect
    | PwmSetFanTargetRpm
    | PwmGetKeyboardBacklight
    | PwmSetKeyboardBacklight
    | PwmSetFanDuty
    | PwmSetDuty
    | MotionSense
    | PwmGetDuty
    | SetTabletMode
    | AutoFanCtrl
    | GpioGet
    | I2cPassthrough
    | ConsoleSnapshot
    | ConsoleRead
    | ChargeState
    | ChargeCurrentLimit
    | HibernationDelay
    | GetFeatures
    | Reboot
    | RebootEc
    | UsbPdPowerInfo
    | AdcRead
    | ApReset
    | LocateChip
    | RebootApOnG3
    | RgbKbdSetColor
    | RgbKbd
    | FlashNotified
    | ChargeLimitControl
    | DisablePs2Emulation
    | UpdateKeyboardMatrix
    | FpLedLevelControl
    | ChassisOpenCheck
    | ChassisIntrusion
    | AcpiNotify
    | ReadPdVersion
    | StandaloneMode
    | PriavcySwitchesCheckMode
    | ChassisCounter
    | CheckDeckState
    | GetSimpleVersion
    | GetActiveChargePdChip
    | UefiAppMode
    | UefiAppBtnStatus
    | ExpansionBayStatus
    | GetHwDiag
    | GetGpuSerial
    | GetGpuPcie
    | ProgramGpuEeprom

  /** The `#[repr(u16)]` discriminant of each command. */
  function Id(c: EcCommands): (id: u16)
  {
    match c
    case GetVersion => 0x02
    case GetBuildInfo => 0x04
    case ReadMemMap => 0x07
    case GetCmdVersions => 0x08
    case FlashInfo => 0x10
    case FlashRead => 0x11
    case FlashWrite => 0x12
    case FlashErase => 0x13
    case FlashProtect => 0x15
    case PwmSetFanTargetRpm => 0x0021
    case PwmGetKeyboardBacklight => 0x0022
    case PwmSetKeyboardBacklight => 0x0023
    case PwmSetFanDuty => 0x0024
    case PwmSetDuty => 0x0025
    case MotionSense => 0x002B
    case PwmGetDuty => 0x0026
    case SetTabletMode => 0x0031
    case AutoFanCtrl => 0x0052
    case GpioGet => 0x0093
    case I2cPassthrough => 0x009E
    case ConsoleSnapshot => 0x0097
    case ConsoleRead => 0x0098
    case ChargeState => 0x00A0
    case ChargeCurrentLimit => 0x00A1
    case HibernationDelay => 0x00A8
    case GetFeatures => 0x000D
    case Reboot => 0x00D1
    case RebootEc => 0x00D2
    case UsbPdPowerInfo => 0x0103
    case AdcRead => 0x0123
    case ApReset => 0x0125
    case LocateChip => 0x0126
    case RebootApOnG3 => 0x0127
    case RgbKbdSetColor => 0x013A
    case RgbKbd => 0x013B
    case FlashNotified => 0x3E01
    case ChargeLimitControl => 0x3E03
    case DisablePs2Emulation => 0x3E08
    case UpdateKeyboardMatrix => 0x3E0C
    case FpLedLevelControl => 0x3E0E
    case ChassisOpenCheck => 0x3E0F
    case ChassisIntrusion => 0x3E09
    case AcpiNotify => 0xE10
    case ReadPdVersion => 0x3E11
    case StandaloneMode => 0x3E13
    case PriavcySwitchesCheckMode => 0x3E14
    case ChassisCounter => 0x3E15
    case CheckDeckState => 0x3E16
    case GetSimpleVersion => 0x3E17
    case GetActiveChargePdChip => 0x3E18
    case UefiAppMode => 0x3E19
    case UefiAppBtnStatus => 0x3E1A
    case ExpansionBayStatus => 0x3E1B
    case GetHwDiag => 0x3E1C
    case GetGpuSerial => 0x3E1D
    case GetGpuPcie => 0x3E1E
    case ProgramGpuEeprom => 0x3E1F
  }

  /**
   * `FromPrimitive::from_u16`: the command whose discriminant is `n`, if
   * any, compared in declaration order (written in four parts of fifteen).
   */
  function FromId(n: nat): (r: Option<EcCommands>)
  {
    if n == 0x02 then Some(GetVersion)
    else if n == 0x04 then Some(GetBuildInfo)
    else if n == 0x07 then Some(ReadMemMap)
    else if n == 0x08 then Some(GetCmdVersions)
    else if n == 0x10 then Some(FlashInfo)
    else if n == 0x11 then Some(FlashRead)
    else if n == 0x12 then Some(FlashWrite)
    else if n == 0x13 then Some(FlashErase)
    else if n == 0x15 then Some(FlashProtect)
    else if n == 0x0021 then Some(PwmSetFanTargetRpm)
    else if n == 0x0022 then Some(PwmGetKeyboardBacklight)
    else if n == 0x0023 then Some(PwmSetKeyboardBacklight)
    else if n == 0x0024 then Some(PwmSetFanDuty)
    else if n == 0x0025 then Some(PwmSetDuty)
    else if n == 0x002B then Some(MotionSense)
    else FromIdPart2(n)
  }

  /** The comparisons of `from_u16` from the 16th variant on. */
  function FromIdPart2(n: nat): (r: Option<EcCommands>)
  {
    if n == 0x0026 then Some(PwmGetDuty)
    else if n == 0x0031 then Some(SetTabletMode)
    else if n == 0x0052 then Some(AutoFanCtrl)
    else if n == 0x0093 then Some(GpioGet)
    else if n == 0x009E then Some(I2cPassthrough)
    else if n == 0x0097 then Some(ConsoleSnapshot)
    else if n == 0x0098 then Some(ConsoleRead)
    else if n == 0x00A0 then Some(ChargeState)
    else if n == 0x00A1 then Some(ChargeCurrentLimit)
    else if n == 0x00A8 then Some(HibernationDelay)
    else if n == 0x000D then Some(GetFeatures)
    else if n == 0x00D1 then Some(Reboot)
    else if n == 0x00D2 then Some(RebootEc)
    else if n == 0x0103 then Some(UsbPdPowerInfo)
    else if n == 0x0123 then Some(AdcRead)
    else FromIdPart3(n)
  }

  /** The comparisons of `from_u16` from the 31st variant on. */
  function FromIdPart3(n: nat): (r: Option<EcCommands>)
  {
    if n == 0x0125 then Some(ApReset)
    else if n == 0x0126 then Some(LocateChip)
    else if n == 0x0127 then Some(RebootApOnG3)
    else if n == 0x013A then Some(RgbKbdSetColor)
    else if n == 0x013B then Some(RgbKbd)
    else if n == 0x3E01 then Some(FlashNotified)
    else if n == 0x3E03 then Some(ChargeLimitControl)
    else if n == 0x3E08 then Some(DisablePs2Emulation)
    else if n == 0x3E0C then Some(UpdateKeyboardMatrix)
    else if n == 0x3E0E then Some(FpLedLevelControl)
    else if n == 0x3E0F then Some(ChassisOpenCheck)
    else if n == 0x3E09 then Some(ChassisIntrusion)
    else if n == 0xE10 then Some(AcpiNotify)
    else if n == 0x3E11 then Some(ReadPdVersion)
    else if n == 0x3E13 then Some(StandaloneMode)
    else FromIdPart4(n)
  }

  /** The comparisons of `from_u16` from the 46th variant on. */
  function FromIdPart4(n: nat): (r: Option<EcCommands>)
  {
    if n == 0x3E14 then Some(PriavcySwitchesCheckMode)
    else if n == 0x3E15 then Some(ChassisCounter)
    else if n == 0x3E16 then Some(CheckDeckState)
    else if n == 0x3E17 then Some(GetSimpleVersion)
    else if n == 0x3E18 then Some(GetActiveChargePdChip)
    else if n == 0x3E19 then Some(UefiAppMode)
    else if n == 0x3E1A then Some(UefiAppBtnStatus)
    else if n == 0x3E1B then Some(ExpansionBayStatus)
    else if n == 0x3E1C then Some(GetHwDiag)
    else if n == 0x3E1D then Some(GetGpuSerial)
    else if n == 0x3E1E then Some(GetGpuPcie)
    else if n == 0x3E1F then Some(ProgramGpuEeprom)
    else None
  }

  /** Every discriminant decodes back to its command. */
  lemma IdInverse(c: EcCommands)
    ensures FromId(Id(c)) == Some(c)
  {
    if InPart1(c) {
      IdInversePart1(c);
    } else if InPart2(c) {
      IdInverseViaPart2(c);
    } else if InPart3(c) {
      IdInverseViaPart3(c);
    } else {
      IdInverseViaPart4(c);
    }
  }

  lemma IdInverseViaPart2(c: EcCommands)
    requires InPart2(c)
    ensures FromId(Id(c)) == Some(c)
  {
    IdInversePart2(c);
    SkipPart1(Id(c));
  }

  lemma IdInverseViaPart3(c: EcCommands)
    requires InPart3(c)
    ensures FromId(Id(c)) == Some(c)
  {
    IdInversePart3(c);
    SkipToPart3(Id(c));
  }

  lemma IdInverseViaPart4(c: EcCommands)
    requires !InPart1(c) && !InPart2(c) && !InPart3(c)
    ensures FromId(Id(c)) == Some(c)
  {
    IdInversePart4(c);
    SkipToPart3(Id(c));
    SkipPart3(Id(c));
  }

  /** Numbers from 0x125 up are none of the discriminants of parts 1 and 2. */
  lemma SkipToPart3(n: nat)
    requires 0x125 <= n
    ensures FromId(n) == FromIdPart3(n)
  {
    SkipPart1(n);
    SkipPart2(n);
  }

  /** The variants `FromId`, `FromIdPart2` and `FromIdPart3` compare against. */
  predicate InPart1(c: EcCommands)
  {
    c.GetVersion? || c.GetBuildInfo? || c.ReadMemMap? || c.GetCmdVersions?
    || c.FlashInfo? || c.FlashRead? || c.FlashWrite? || c.FlashErase?
    || c.FlashProtect? || c.PwmSetFanTargetRpm? || c.PwmGetKeyboardBacklight? || c.PwmSetKeyboardBacklight?
    || c.PwmSetFanDuty? || c.PwmSetDuty? || c.MotionSense?
  }

  predicate InPart2(c: EcCommands)
  {
    c.PwmGetDuty? || c.SetTabletMode? || c.AutoFanCtrl? || c.GpioGet?
    || c.I2cPassthrough? || c.ConsoleSnapshot? || c.ConsoleRead? || c.ChargeState?
    || c.ChargeCurrentLimit? || c.HibernationDelay? || c.GetFeatures? || c.Reboot?
    || c.RebootEc? || c.UsbPdPowerInfo? || c.AdcRead?
  }

  predicate InPart3(c: EcCommands)
  {
    c.ApReset? || c.LocateChip? || c.RebootApOnG3? || c.RgbKbdSetColor?
    || c.RgbKbd? || c.FlashNotified? || c.ChargeLimitControl? || c.DisablePs2Emulation?
    || c.UpdateKeyboardMatrix? || c.FpLedLevelControl? || c.ChassisOpenCheck? || c.ChassisIntrusion?
    || c.AcpiNotify? || c.ReadPdVersion? || c.StandaloneMode?
  }

  /** The discriminants each part compares against. */
  predicate IsPart1Id(n: nat)
  {
    n == 0x02 || n == 0x04 || n == 0x07 || n == 0x08 || n == 0x10
    || n == 0x11 || n == 0x12 || n == 0x13 || n == 0x15 || n == 0x0021
    || n == 0x0022 || n == 0x0023 || n == 0x0024 || n == 0x0025 || n == 0x002B
  }

  predicate IsPart2Id(n: nat)
  {
    n == 0x0026 || n == 0x0031 || n == 0x0052 || n == 0x0093 || n == 0x009E
    || n == 0x0097 || n == 0x0098 || n == 0x00A0 || n == 0x00A1 || n == 0x00A8
    || n == 0x000D || n == 0x00D1 || n == 0x00D2 || n == 0x0103 || n == 0x0123
  }

  predicate IsPart3Id(n: nat)
  {
    n == 0x0125 || n == 0x0126 || n == 0x0127 || n == 0x013A || n == 0x013B
    || n == 0x3E01 || n == 0x3E03 || n == 0x3E08 || n == 0x3E0C || n == 0x3E0E
    || n == 0x3E0F || n == 0x3E09 || n == 0xE10 || n == 0x3E11 || n == 0x3E13
  }

  /** A number that is no discriminant of part 1 falls through to the next part. */
  lemma SkipPart1(n: nat)
    requires !IsPart1Id(n)
    ensures FromId(n) == FromIdPart2(n)
  {
  }

  /** A number that is no discriminant of part 2 falls through to the next part. */
  lemma SkipPart2(n: nat)
    requires !IsPart2Id(n)
    ensures FromIdPart2(n) == FromIdPart3(n)
  {
  }

  /** A number that is no discriminant of part 3 falls through to the next part. */
  lemma SkipPart3(n: nat)
    requires !IsPart3Id(n)
    ensures FromIdPart3(n) == FromIdPart4(n)
  {
  }

  lemma IdInversePart1(c: EcCommands)
    requires InPart1(c)
    ensures FromId(Id(c)) == Some(c)
  {
  }

  lemma IdInversePart2(c: EcCommands)
    requires InPart2(c)
    ensures FromIdPart2(Id(c)) == Some(c)
    ensures !IsPart1Id(Id(c))
  {
  }

  /** Parts 3 and 4 use discriminants above every one of parts 1 and 2. */
  lemma IdInversePart3(c: EcCommands)
    requires InPart3(c)
    ensures FromIdPart3(Id(c)) == Some(c)
    ensures 0x125 <= Id(c)
  {
  }

  lemma IdInversePart4(c: EcCommands)
    requires !InPart1(c) && !InPart2(c) && !InPart3(c)
    ensures FromIdPart4(Id(c)) == Some(c)
    ensures 0x3E14 <= Id(c)
  {
  }

  /**
   * A request as the command layer sees it: the command id and version its
   * type declares (`command_id_u16`, `command_version`, 0 unless the type
   * overrides it) and its packed parameter struct (`format_request`).
   */
  datatype Request = Request(command: u16, version: u8, params: seq<u8>)

  /**
   * `CrosEc::send_command`: whichever driver is active turns a command id,
   * version and payload into the response bytes or an error.
   */
  type Transport = (u16, u8, seq<u8>) -> Result<seq<u8>, EcError>

  /**
   * The payload `send_command_vec_extra` builds: the parameters alone when
   * there is no extra data, otherwise a zeroed buffer of both lengths into
   * which the parameters and then the extra data are copied.
   */
  method Payload(params: seq<u8>, extra: seq<u8>) returns (request: seq<u8>)
    ensures |request| == |params| + |extra|
    ensures request[..|params|] == params && request[|params|..] == extra
  {
    if |extra| == 0 {
      return params;
    }
    var buffer := new u8[|params| + |extra|](_ => 0);
    forall i | 0 <= i < |params| {
      buffer[i] := params[i];
    }
    forall i | |params| <= i < buffer.Length {
      buffer[i] := extra[i - |params|];
    }
    request := buffer[..];
  }

  /** `send_command_vec_extra`: sends the parameters followed by `extra` and returns the raw response. */
  method SendCommandVecExtra(request: Request, extra: seq<u8>, send: Transport)
    returns (r: Result<seq<u8>, EcError>)
    ensures r == send(request.command, request.version, request.params + extra)
  {
    var payload := Payload(request.params, extra);
    assert payload == request.params + extra;
    r := send(request.command, request.version, payload);
  }

  /** `send_command_vec`: the same with no extra data, so exactly the parameters are sent. */
  method SendCommandVec(request: Request, send: Transport) returns (r: Result<seq<u8>, EcError>)
    ensures r == send(request.command, request.version, request.params)
  {
    r := SendCommandVecExtra(request, [], send);
    assert request.params + [] == request.params;
  }

  /** The response length `send_command_extra` accepts for a response struct of `size` bytes. */
  function ExpectedLength(size: nat, windows: bool): nat
  {
    if windows then size + 20 else size
  }

  /**
   * The check `send_command_extra` applies to a raw response before it
   * reinterprets the first `size` bytes as the response struct.
   */
  function CheckSize(response: Result<seq<u8>, EcError>, size: nat, windows: bool): (r: Result<seq<u8>, EcError>)
    ensures response.Err? ==> r == response
    ensures r.Ok? <==> response.Ok? && |response.value| == ExpectedLength(size, windows)
    ensures r.Ok? ==> |r.value| == size && r.value == response.value[..size]
    ensures response.Ok? && r.Err? ==> r.error.DeviceError?
  {
    match response
    case Err(e) => Err(e)
    case Ok(data) =>
      if |data| != ExpectedLength(size, windows) then
        Err(DeviceError("Returned data size (" + Text.FormatDec(|data|) + ") is not the expted size: " +
                        Text.FormatDec(size)))
      else
        Ok(data[..size])
  }

  /**
   * `send_command_extra`: sends the parameters followed by `extra`; a
   * transport error comes back unchanged, a response of the wrong length is
   * a `DeviceError`, otherwise the response struct's bytes are returned.
   */
  method SendCommandExtra(request: Request, extra: seq<u8>, size: nat, windows: bool, send: Transport)
    returns (r: Result<seq<u8>, EcError>)
    ensures r == CheckSize(send(request.command, request.version, request.params + extra), size, windows)
  {
    var response := SendCommandVecExtra(request, extra, send);
    if response.Err? {
      return Err(response.error);
    }
    if |response.value| != ExpectedLength(size, windows) {
      return Err(DeviceError("Returned data size (" + Text.FormatDec(|response.value|) +
                             ") is not the expted size: " + Text.FormatDec(size)));
    }
    r := Ok(response.value[..size]);
  }

  /** `send_command`: `send_command_extra` with no extra data. */
  method SendCommand(request: Request, size: nat, windows: bool, send: Transport)
    returns (r: Result<seq<u8>, EcError>)
    ensures r == CheckSize(send(request.command, request.version, request.params), size, windows)
  {
    r := SendCommandExtra(request, [], size, windows, send);
    assert request.params + [] == request.params;
  }
}
