/**
 * The Framework 16 input deck: the module type each slot's board ID stands
 * for, the deck's power state, and the status built from a deck-state
 * response.
 */
module InputDeck {
  import opened Common
  import Commands

  /** `InputDeckMux`: the slot index of each position. */
  const TOUCHPAD_SLOT: nat := 5

  /** `InputModuleType`, in code order 0..15. */
  datatype InputModuleType =
    | Short | Reserved1 | Reserved2 | Reserved3 | Reserved4 | Reserved5 | Reserved6 | Reserved7
    | GenericA | GenericB | GenericC | KeyboardB | KeyboardA | Touchpad | Reserved15 | Disconnected

  /** The board ID each module type reports. */
  function ModuleCode(t: InputModuleType): (n: u8)
    ensures n <= 15
  {
    match t
    case Short => 0
    case Reserved1 => 1
    case Reserved2 => 2
    case Reserved3 => 3
    case Reserved4 => 4
    case Reserved5 => 5
    case Reserved6 => 6
    case Reserved7 => 7
    case GenericA => 8
    case GenericB => 9
    case GenericC => 10
    case KeyboardB => 11
    case KeyboardA => 12
    case Touchpad => 13
    case Reserved15 => 14
    case Disconnected => 15
  }

  const MODULE_PANIC: string := "Invalid module type"

  /** `InputModuleType::from`: board IDs 0..15 in declaration order; anything larger panics. */
  function ModuleType(item: u8): (r: Outcome<InputModuleType>)
    ensures r.Returns? <==> item <= 15
  {
    if item == 0 then Returns(Short)
    else if item == 1 then Returns(Reserved1)
    else if item == 2 then Returns(Reserved2)
    else if item == 3 then Returns(Reserved3)
    else if item == 4 then Returns(Reserved4)
    else if item == 5 then Returns(Reserved5)
    else if item == 6 then Returns(Reserved6)
    else if item == 7 then Returns(Reserved7)
    else if item == 8 then Returns(GenericA)
    else if item == 9 then Returns(GenericB)
    else if item == 10 then Returns(GenericC)
    else if item == 11 then Returns(KeyboardB)
    else if item == 12 then Returns(KeyboardA)
    else if item == 13 then Returns(Touchpad)
    else if item == 14 then Returns(Reserved15)
    else if item == 15 then Returns(InputModuleType.Disconnected)
    else Panics(MODULE_PANIC)
  }

  /** Decoding a module's board ID gives the module back, and every decoded ID is that module's own. */
  lemma ModuleTypeInverse(t: InputModuleType, item: u8)
    ensures ModuleType(ModuleCode(t)) == Returns(t)
    ensures ModuleType(item).Returns? ==> ModuleCode(ModuleType(item).value) == item
  {
  }

  /** `InputDeckState`, in code order 0..6. */
  datatype InputDeckState = Off | Disconnected | TurningOn | On | ForceOff | ForceOn | NoDetection

  function StateCode(s: InputDeckState): (n: u8)
    ensures n <= 6
  {
    match s
    case Off => 0
    case Disconnected => 1
    case TurningOn => 2
    case On => 3
    case ForceOff => 4
    case ForceOn => 5
    case NoDetection => 6
  }

  const STATE_PANIC: string := "Invalid value"

  /** `InputDeckState::from`: 0..6 in declaration order; anything larger panics. */
  function DeckState(item: u8): (r: Outcome<InputDeckState>)
    ensures r.Returns? <==> item <= 6
  {
    if item == 0 then Returns(Off)
    else if item == 1 then Returns(InputDeckState.Disconnected)
    else if item == 2 then Returns(TurningOn)
    else if item == 3 then Returns(On)
    else if item == 4 then Returns(ForceOff)
    else if item == 5 then Returns(ForceOn)
    else if item == 6 then Returns(NoDetection)
    else Panics(STATE_PANIC)
  }

  lemma DeckStateInverse(s: InputDeckState, item: u8)
    ensures DeckState(StateCode(s)) == Returns(s)
    ensures DeckState(item).Returns? ==> StateCode(DeckState(item).value) == item
  {
  }

  /** `TopRowPositions`: the modules in top-row slots 0..4. */
  datatype TopRowPositions = TopRowPositions(
    pos0: InputModuleType, pos1: InputModuleType, pos2: InputModuleType,
    pos3: InputModuleType, pos4: InputModuleType)

  datatype InputDeckStatus = InputDeckStatus(state: InputDeckState, touchpadPresent: bool, topRow: TopRowPositions)

  /** The conversions of the five top-row slots, in field order; the first that panics decides. */
  function TopRow(boardId: seq<u8>): (r: Outcome<TopRowPositions>)
    requires |boardId| == Commands.INPUT_DECK_SLOTS
  {
    var p0 := ModuleType(boardId[0]);
    if p0.Panics? then Panics(p0.reason) else
    var p1 := ModuleType(boardId[1]);
    if p1.Panics? then Panics(p1.reason) else
    var p2 := ModuleType(boardId[2]);
    if p2.Panics? then Panics(p2.reason) else
    var p3 := ModuleType(boardId[3]);
    if p3.Panics? then Panics(p3.reason) else
    var p4 := ModuleType(boardId[4]);
    if p4.Panics? then Panics(p4.reason) else
    Returns(TopRowPositions(p0.value, p1.value, p2.value, p3.value, p4.value))
  }

  /**
   * `InputDeckStatus::from`: the fields are converted in declaration
   * order (state, the touchpad slot, then top-row slots 0..4), so the first
   * out-of-range value decides which panic is raised.
   */
  function Status(item: Commands.DeckStateResponse): (r: Outcome<InputDeckStatus>)
    requires |item.boardId| == Commands.INPUT_DECK_SLOTS
  {
    var state := DeckState(item.deckState);
    if state.Panics? then Panics(state.reason) else
    var touchpad := ModuleType(item.boardId[TOUCHPAD_SLOT]);
    if touchpad.Panics? then Panics(touchpad.reason) else
    var topRow := TopRow(item.boardId);
    if topRow.Panics? then Panics(topRow.reason) else
    Returns(InputDeckStatus(state.value, touchpad.value == Touchpad, topRow.value))
  }

  /**
   * The status exists exactly when the state is at most 6 and slots 0..5
   * hold IDs of at most 15 (slots 6 and 7 are never looked at); the
   * touchpad is present exactly when slot 5 holds 13, and top-row position
   * k is the module in slot k.
   */
  lemma StatusFields(item: Commands.DeckStateResponse)
    requires |item.boardId| == Commands.INPUT_DECK_SLOTS
    ensures Status(item).Returns? <==>
      item.deckState <= 6 && forall k :: 0 <= k <= 5 ==> item.boardId[k] <= 15
    ensures Status(item).Returns? ==>
      var s := Status(item).value;
      && StateCode(s.state) == item.deckState
      && (s.touchpadPresent <==> item.boardId[TOUCHPAD_SLOT] == 13)
      && ModuleCode(s.topRow.pos0) == item.boardId[0] && ModuleCode(s.topRow.pos1) == item.boardId[1]
      && ModuleCode(s.topRow.pos2) == item.boardId[2] && ModuleCode(s.topRow.pos3) == item.boardId[3]
      && ModuleCode(s.topRow.pos4) == item.boardId[4]
    ensures item.deckState > 6 ==> Status(item) == Panics(STATE_PANIC)
    ensures item.deckState <= 6 && !Status(item).Returns? ==> Status(item) == Panics(MODULE_PANIC)
  {
    var b := item.boardId;
    if Status(item).Returns? {
      var s := Status(item).value;
      ModuleTypeInverse(Touchpad, b[TOUCHPAD_SLOT]);
      DeckStateInverse(s.state, item.deckState);
      ModuleTypeInverse(s.topRow.pos0, b[0]);
      ModuleTypeInverse(s.topRow.pos1, b[1]);
      ModuleTypeInverse(s.topRow.pos2, b[2]);
      ModuleTypeInverse(s.topRow.pos3, b[3]);
      ModuleTypeInverse(s.topRow.pos4, b[4]);
      assert forall k :: 0 <= k <= 5 ==> b[k] <= 15 by {
        forall k | 0 <= k <= 5 ensures b[k] <= 15 {
          if k < 5 { assert ModuleType(b[k]).Returns?; }
        }
      }
    }
  }
}
