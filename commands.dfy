/**
 * The request and response structs of the EC host commands: which command
 * id and version each request carries, how its fields are packed, and the
 * accessors the driver applies to the expansion-bay, hardware-diagnostics
 * and version responses.
 */
module Commands {
  import opened Common
  import EcCommand

  /** `DeckStateMode`, a `#[repr(u8)]` enum with the values 0, 1, 2 and 4. */
  datatype DeckStateMode = ReadOnly | Required | ForceOn | ForceOff

  function DeckStateModeByte(m: DeckStateMode): (b: u8)
  {
    match m
    case ReadOnly => 0x00
    case Required => 0x01
    case ForceOn => 0x02
    case ForceOff => 0x04
  }

  function DeckStateModeOf(b: u8): (m: Option<DeckStateMode>)
  {
    if b == 0x00 then Some(ReadOnly)
    else if b == 0x01 then Some(Required)
    else if b == 0x02 then Some(ForceOn)
    else if b == 0x04 then Some(ForceOff)
    else None
  }

  /** The request structs, each with its fields. */
  datatype EcRequest =
    | GetVersion
    | GetCmdVersionsV0(cmd: u8)
    | GetCmdVersionsV1(cmd32: u32)
    | PwmSetKeyboardBacklight(percent: u8)
    | PwmGetKeyboardBacklight
    | ConsoleSnapshot
    | ConsoleRead(subcmd: u8)
    | UsbPdPowerInfo(port: u8)
    | FlashNotify(flags: u8)
    | ChassisOpenCheck
    | ChassisIntrusionControl(clearMagic: u8, clearChassisStatus: u8)
    | ReadPdVersion
    | PrivacySwitches
    | DeckState(mode: DeckStateMode)
    | UefiAppMode(enable: u8)
    | UefiAppBtnStatus
    | ExpansionBayStatus
    | GetHwDiag
    | ChargeLimitControl(modes: u8, maxPercentage: u8, minPercentage: u8)
    | FpLedLevelControl(setLevel: u8, getLevel: u8)

  /** `EcRequest::command_id` of each request type. */
  function CommandOf(q: EcRequest): EcCommand.EcCommands
  {
    match q
    case GetVersion => EcCommand.GetVersion
    case GetCmdVersionsV0(_) => EcCommand.GetCmdVersions
    case GetCmdVersionsV1(_) => EcCommand.GetCmdVersions
    case PwmSetKeyboardBacklight(_) => EcCommand.PwmSetKeyboardBacklight
    case PwmGetKeyboardBacklight => EcCommand.PwmGetKeyboardBacklight
    case ConsoleSnapshot => EcCommand.ConsoleSnapshot
    case ConsoleRead(_) => EcCommand.ConsoleRead
    case UsbPdPowerInfo(_) => EcCommand.UsbPdPowerInfo
    case FlashNotify(_) => EcCommand.FlashNotified
    case ChassisOpenCheck => EcCommand.ChassisOpenCheck
    case ChassisIntrusionControl(_, _) => EcCommand.ChassisIntrusion
    case ReadPdVersion => EcCommand.ReadPdVersion
    case PrivacySwitches => EcCommand.PriavcySwitchesCheckMode
    case DeckState(_) => EcCommand.CheckDeckState
    case UefiAppMode(_) => EcCommand.UefiAppMode
    case UefiAppBtnStatus => EcCommand.UefiAppBtnStatus
    case ExpansionBayStatus => EcCommand.ExpansionBayStatus
    case GetHwDiag => EcCommand.GetHwDiag
    case ChargeLimitControl(_, _, _) => EcCommand.ChargeLimitControl
    case FpLedLevelControl(_, _) => EcCommand.FpLedLevelControl
  }

  /**
   * `EcRequest::command_version`: 0 unless the type overrides it; the V1
   * command-versions query and the console read override it with 1.
   */
  function VersionOf(q: EcRequest): (v: u8)
    ensures v != 0 <==> q.GetCmdVersionsV1? || q.ConsoleRead?
    ensures v == 0 || v == 1
  {
    match q
    case GetCmdVersionsV1(_) => 1
    case ConsoleRead(_) => 1
    case _ => 0
  }

  /** `format_request`: a struct's packed (little-endian) bytes. */
  function Params(q: EcRequest): seq<u8>
  {
    match q
    case GetCmdVersionsV0(cmd) => [cmd]
    case GetCmdVersionsV1(cmd) => Le32Bytes(cmd)
    case PwmSetKeyboardBacklight(percent) => [percent]
    case ConsoleRead(subcmd) => [subcmd]
    case UsbPdPowerInfo(port) => [port]
    case FlashNotify(flags) => [flags]
    case ChassisIntrusionControl(magic, clear) => [magic, clear]
    case DeckState(mode) => [DeckStateModeByte(mode)]
    case UefiAppMode(enable) => [enable]
    case ChargeLimitControl(modes, max, min) => [modes, max, min]
    case FpLedLevelControl(setLevel, getLevel) => [setLevel, getLevel]
    case _ => []
  }

  /** A request as the command layer sends it. */
  function ToRequest(q: EcRequest): (r: EcCommand.Request)
    ensures r.command == EcCommand.Id(CommandOf(q)) && r.version == VersionOf(q)
  {
    EcCommand.Request(EcCommand.Id(CommandOf(q)), VersionOf(q), Params(q))
  }

  /** The EC's view: the request struct a command id, version and payload stand for. */
  function FromRequest(r: EcCommand.Request): Option<EcRequest>
  {
    if r.command < 0x3E00 then FromChromeRequest(r)
    else if r.command < 0x3E10 then FromFrameworkRequest(r)
    else FromFrameworkStatusRequest(r)
  }

  /** The generic Chrome EC commands among the requests. */
  function FromChromeRequest(r: EcCommand.Request): Option<EcRequest>
  {
    var p, id := r.params, r.command;
    if id == 0x02 then (if p == [] then Some(GetVersion) else None)
    else if id == 0x08 then
      (if r.version == 0 && |p| == 1 then Some(GetCmdVersionsV0(p[0]))
       else if r.version == 1 && |p| == 4 then Some(GetCmdVersionsV1(Le32At(p, 0)))
       else None)
    else if id == 0x23 then (if |p| == 1 then Some(PwmSetKeyboardBacklight(p[0])) else None)
    else if id == 0x22 then (if p == [] then Some(PwmGetKeyboardBacklight) else None)
    else if id == 0x97 then (if p == [] then Some(ConsoleSnapshot) else None)
    else if id == 0x98 then (if r.version == 1 && |p| == 1 then Some(ConsoleRead(p[0])) else None)
    else if id == 0x103 then (if |p| == 1 then Some(UsbPdPowerInfo(p[0])) else None)
    else None
  }

  /** The Framework-specific commands 0x3E00..0x3E0F among the requests. */
  function FromFrameworkRequest(r: EcCommand.Request): Option<EcRequest>
  {
    var p, id := r.params, r.command;
    if id == 0x3E01 then (if |p| == 1 then Some(FlashNotify(p[0])) else None)
    else if id == 0x3E03 then (if |p| == 3 then Some(ChargeLimitControl(p[0], p[1], p[2])) else None)
    else if id == 0x3E09 then (if |p| == 2 then Some(ChassisIntrusionControl(p[0], p[1])) else None)
    else if id == 0x3E0E then (if |p| == 2 then Some(FpLedLevelControl(p[0], p[1])) else None)
    else if id == 0x3E0F then (if p == [] then Some(ChassisOpenCheck) else None)
    else None
  }

  /** The Framework-specific commands from 0x3E10 on among the requests. */
  function FromFrameworkStatusRequest(r: EcCommand.Request): Option<EcRequest>
  {
    var p, id := r.params, r.command;
    if id == 0x3E11 then (if p == [] then Some(ReadPdVersion) else None)
    else if id == 0x3E14 then (if p == [] then Some(PrivacySwitches) else None)
    else if id == 0x3E16 then
      (if |p| == 1 && DeckStateModeOf(p[0]).Some? then Some(DeckState(DeckStateModeOf(p[0]).value)) else None)
    else if id == 0x3E19 then (if |p| == 1 then Some(UefiAppMode(p[0])) else None)
    else if id == 0x3E1A then (if p == [] then Some(UefiAppBtnStatus) else None)
    else if id == 0x3E1B then (if p == [] then Some(ExpansionBayStatus) else None)
    else if id == 0x3E1C then (if p == [] then Some(GetHwDiag) else None)
    else None
  }

  /**
   * Packing is unambiguous: from the command id, version and payload
   * the EC recovers exactly the request struct that was sent.
   */
  lemma RequestRoundTrip(q: EcRequest)
    ensures FromRequest(ToRequest(q)) == Some(q)
  {
    if q.GetVersion? || q.GetCmdVersionsV0? || q.GetCmdVersionsV1? || q.PwmSetKeyboardBacklight? ||
       q.PwmGetKeyboardBacklight? || q.ConsoleSnapshot? || q.ConsoleRead? || q.UsbPdPowerInfo?
    {
      ChromeRoundTrip(q);
    } else if q.FlashNotify? || q.ChargeLimitControl? || q.ChassisIntrusionControl? ||
              q.FpLedLevelControl? || q.ChassisOpenCheck?
    {
      FrameworkRoundTrip(q);
    } else {
      FrameworkStatusRoundTrip(q);
    }
  }

  lemma ChromeRoundTrip(q: EcRequest)
    requires q.GetVersion? || q.GetCmdVersionsV0? || q.GetCmdVersionsV1? || q.PwmSetKeyboardBacklight? ||
             q.PwmGetKeyboardBacklight? || q.ConsoleSnapshot? || q.ConsoleRead? || q.UsbPdPowerInfo?
    ensures FromRequest(ToRequest(q)) == Some(q)
  {
    match q
    case GetVersion => assert ToRequest(q).command == 0x02;
    case GetCmdVersionsV0(_) => assert ToRequest(q).command == 0x08;
    case GetCmdVersionsV1(cmd) =>
      assert ToRequest(q).command == 0x08;
      assert Le32At(Le32Bytes(cmd), 0) == cmd;
    case PwmSetKeyboardBacklight(_) => assert ToRequest(q).command == 0x23;
    case PwmGetKeyboardBacklight => assert ToRequest(q).command == 0x22;
    case ConsoleSnapshot => assert ToRequest(q).command == 0x97;
    case ConsoleRead(_) => assert ToRequest(q).command == 0x98;
    case UsbPdPowerInfo(_) => assert ToRequest(q).command == 0x103;
  }

  lemma FrameworkRoundTrip(q: EcRequest)
    requires q.FlashNotify? || q.ChargeLimitControl? || q.ChassisIntrusionControl? ||
             q.FpLedLevelControl? || q.ChassisOpenCheck?
    ensures FromRequest(ToRequest(q)) == Some(q)
  {
    match q
    case FlashNotify(_) => assert ToRequest(q).command == 0x3E01;
    case ChargeLimitControl(_, _, _) => assert ToRequest(q).command == 0x3E03;
    case ChassisIntrusionControl(_, _) => assert ToRequest(q).command == 0x3E09;
    case FpLedLevelControl(_, _) => assert ToRequest(q).command == 0x3E0E;
    case ChassisOpenCheck => assert ToRequest(q).command == 0x3E0F;
  }

  lemma FrameworkStatusRoundTrip(q: EcRequest)
    requires q.ReadPdVersion? || q.PrivacySwitches? || q.DeckState? || q.UefiAppMode? ||
             q.UefiAppBtnStatus? || q.ExpansionBayStatus? || q.GetHwDiag?
    ensures FromRequest(ToRequest(q)) == Some(q)
  {
    match q
    case ReadPdVersion => assert ToRequest(q).command == 0x3E11;
    case PrivacySwitches => assert ToRequest(q).command == 0x3E14;
    case DeckState(mode) =>
      assert ToRequest(q).command == 0x3E16;
      assert DeckStateModeOf(DeckStateModeByte(mode)) == Some(mode);
    case UefiAppMode(_) => assert ToRequest(q).command == 0x3E19;
    case UefiAppBtnStatus => assert ToRequest(q).command == 0x3E1A;
    case ExpansionBayStatus => assert ToRequest(q).command == 0x3E1B;
    case GetHwDiag => assert ToRequest(q).command == 0x3E1C;
  }

  // ---- Responses -------------------------------------------------------

  /** `size_of::<EcResponseGetVersion>()`: three 32-byte strings and a u32. */
  const GET_VERSION_SIZE: nat := 32 + 32 + 32 + 4

  datatype GetVersionResponse = GetVersionResponse(
    versionStringRo: seq<u8>,
    versionStringRw: seq<u8>,
    reserved: seq<u8>,
    currentImage: u32)

  predicate WellSized(v: GetVersionResponse)
  {
    |v.versionStringRo| == 32 && |v.versionStringRw| == 32 && |v.reserved| == 32
  }

  /** Reading `EcResponseGetVersion` from its packed bytes. */
  function DecodeGetVersion(b: seq<u8>): (v: GetVersionResponse)
    requires |b| == GET_VERSION_SIZE
    ensures WellSized(v)
  {
    GetVersionResponse(b[0..32], b[32..64], b[64..96], Le32At(b, 96))
  }

  function EncodeGetVersion(v: GetVersionResponse): (b: seq<u8>)
    requires WellSized(v)
    ensures |b| == GET_VERSION_SIZE
  {
    v.versionStringRo + v.versionStringRw + v.reserved + Le32Bytes(v.currentImage)
  }

  /** Every 100-byte buffer is the layout of the response decoded from it. */
  lemma GetVersionEncodeDecode(b: seq<u8>)
    requires |b| == GET_VERSION_SIZE
    ensures EncodeGetVersion(DecodeGetVersion(b)) == b
  {
    Le32BytesOfLe32At(b, 96);
    assert b == b[0..32] + b[32..64] + b[64..96] + b[96..100];
  }

  /** Decoding the layout of a well-sized response gives the response back. */
  lemma GetVersionDecodeEncode(v: GetVersionResponse)
    requires WellSized(v)
    ensures DecodeGetVersion(EncodeGetVersion(v)) == v
  {
    var e := EncodeGetVersion(v);
    assert e[0..32] == v.versionStringRo;
    assert e[32..64] == v.versionStringRw;
    assert e[64..96] == v.reserved;
    assert e[96..100] == Le32Bytes(v.currentImage);
  }

  /** `EcResponseExpansionBayStatus`. */
  datatype ExpansionBayStatusResponse = ExpansionBayStatusResponse(state: u8, boardId0: u8, boardId1: u8)

  function DecodeExpansionBayStatus(b: seq<u8>): (s: ExpansionBayStatusResponse)
    requires |b| == 3
    ensures [s.state, s.boardId0, s.boardId1] == b
  {
    ExpansionBayStatusResponse(b[0], b[1], b[2])
  }

  /** `ExpansionByStates::ModuleEnabled` (0x01) is set in `state`. */
  predicate ModuleEnabled(s: ExpansionBayStatusResponse)
  {
    (s.state as bv8) & 0x01 != 0
  }

  /** `ExpansionByStates::ModuleFault` (0x02) is set in `state`. */
  predicate ModuleFault(s: ExpansionBayStatusResponse)
  {
    (s.state as bv8) & 0x02 != 0
  }

  /** `ExpansionByStates::HatchSwitchClosed` (0x04) is set in `state`. */
  predicate HatchSwitchClosed(s: ExpansionBayStatusResponse)
  {
    (s.state as bv8) & 0x04 != 0
  }

  /** The state byte an EC reports for the three flags (and no other bits). */
  function StateByte(enabled: bool, fault: bool, closed: bool): (b: u8)
    ensures b < 8
  {
    (if enabled then 1 else 0) + (if fault then 2 else 0) + (if closed then 4 else 0)
  }

  /**
   * The three accessors read bits 0, 1 and 2 of `state`: each reports
   * exactly its own flag, whatever the board IDs and the other bits are.
   */
  lemma StateFlags(s: ExpansionBayStatusResponse, enabled: bool, fault: bool, closed: bool, high: nat)
    requires s.state == StateByte(enabled, fault, closed) + 8 * high
    ensures ModuleEnabled(s) == enabled && ModuleFault(s) == fault && HatchSwitchClosed(s) == closed
  {
    LowBits(s.state);
    StateByteBits(enabled, fault, closed, high);
  }

  /** Masking bit 0, 1 or 2 of a byte reads that binary digit. */
  lemma LowBits(x: u8)
    ensures (x as bv8) & 0x01 != 0 <==> x % 2 == 1
    ensures (x as bv8) & 0x02 != 0 <==> (x / 2) % 2 == 1
    ensures (x as bv8) & 0x04 != 0 <==> (x / 4) % 2 == 1
  {
  }

  /** Bits 0, 1 and 2 of a state byte with any higher bits are its three flags. */
  lemma StateByteBits(enabled: bool, fault: bool, closed: bool, high: nat)
    ensures var x := StateByte(enabled, fault, closed) + 8 * high;
      && (x % 2 == 1 <==> enabled) && ((x / 2) % 2 == 1 <==> fault) && ((x / 4) % 2 == 1 <==> closed)
  {
    HighBitsIgnored(StateByte(enabled, fault, closed), high);
  }

  /** Adding multiples of 8 leaves the three lowest binary digits alone. */
  lemma HighBitsIgnored(b: nat, high: nat)
    requires b < 8
    ensures (b + 8 * high) % 2 == b % 2
    ensures ((b + 8 * high) / 2) % 2 == (b / 2) % 2
    ensures ((b + 8 * high) / 4) % 2 == (b / 4) % 2
  {
    var x := b + 8 * high;
    assert x == 2 * (b / 2 + 4 * high) + b % 2;
    assert x / 2 == b / 2 + 4 * high;
    assert x == 4 * (b / 4 + 2 * high) + b % 4;
    assert x / 4 == b / 4 + 2 * high;
  }

  datatype ExpansionBayBoard = DualInterposer | SingleInterposer | UmaFans

  datatype ExpansionBayIssue = NoModule | BadConnection(id0: u8, id1: u8)

  /** `expansion_bay_board`: which board the two board IDs identify. */
  function ExpansionBayBoardOf(s: ExpansionBayStatusResponse): (r: Result<ExpansionBayBoard, ExpansionBayIssue>)
  {
    match (s.boardId0, s.boardId1)
    case (12, 12) => Ok(DualInterposer)
    case (13, 15) => Ok(UmaFans)
    case (11, 15) => Ok(SingleInterposer)
    case (15, 15) => Err(NoModule)
    case _ => Err(BadConnection(s.boardId0, s.boardId1))
  }

  /** The board-ID pair each board is wired to report. */
  function BoardIds(b: ExpansionBayBoard): (u8, u8)
  {
    match b
    case DualInterposer => (12, 12)
    case UmaFans => (13, 15)
    case SingleInterposer => (11, 15)
  }

  /**
   * A board is recognised exactly when the IDs are its pair; (15, 15) means
   * no module; any other pair is a bad connection carrying both IDs.
   */
  lemma ExpansionBayBoardIff(s: ExpansionBayStatusResponse, b: ExpansionBayBoard)
    ensures ExpansionBayBoardOf(s) == Ok(b) <==> (s.boardId0, s.boardId1) == BoardIds(b)
    ensures ExpansionBayBoardOf(s) == Err(NoModule) <==> s.boardId0 == 15 && s.boardId1 == 15
    ensures ExpansionBayBoardOf(s).Err? && ExpansionBayBoardOf(s).error != NoModule ==>
      ExpansionBayBoardOf(s).error == BadConnection(s.boardId0, s.boardId1)
    ensures ExpansionBayBoardOf(s).Err? <==>
      (forall b' :: (s.boardId0, s.boardId1) != BoardIds(b'))
  {
    if ExpansionBayBoardOf(s).Err? {
      forall b' ensures (s.boardId0, s.boardId1) != BoardIds(b') {
      }
    } else {
      var b' := ExpansionBayBoardOf(s).value;
      assert (s.boardId0, s.boardId1) == BoardIds(b');
    }
  }

  const DIAGNOSTICS_NO_LEFT_FAN: nat := 7
  const DIAGNOSTICS_NO_RIGHT_FAN: nat := 8

  /** `EcResponseGetHwDiag`. */
  datatype HwDiagResponse = HwDiagResponse(hwDiag: u32, biosComplete: u8)

  function DecodeHwDiag(b: seq<u8>): (d: HwDiagResponse)
    requires |b| == 5
    ensures Le32Bytes(d.hwDiag) == b[..4] && d.biosComplete == b[4]
  {
    Le32BytesOfLe32At(b, 0);
    HwDiagResponse(Le32At(b, 0), b[4])
  }

  /** `fan_fault`: bits 7 (no left fan) and 8 (no right fan) of `hw_diag`. */
  function FanFault(d: HwDiagResponse): (r: (bool, bool))
    ensures r.0 <==> Bit(d.hwDiag, DIAGNOSTICS_NO_LEFT_FAN)
    ensures r.1 <==> Bit(d.hwDiag, DIAGNOSTICS_NO_RIGHT_FAN)
  {
    assert Pow2(7) == 0x80 && Pow2(8) == 0x100;
    ((d.hwDiag as bv32) & (1 << 7) != 0, (d.hwDiag as bv32) & (1 << 8) != 0)
  }

  /** `EcResponseDeckState`: one board ID per input-deck slot, then the deck state. */
  datatype DeckStateResponse = DeckStateResponse(boardId: seq<u8>, deckState: u8)

  const INPUT_DECK_SLOTS: nat := 8

  function DecodeDeckState(b: seq<u8>): (r: DeckStateResponse)
    requires |b| == INPUT_DECK_SLOTS + 1
    ensures |r.boardId| == INPUT_DECK_SLOTS && r.boardId + [r.deckState] == b
  {
    DeckStateResponse(b[..INPUT_DECK_SLOTS], b[INPUT_DECK_SLOTS])
  }
}
