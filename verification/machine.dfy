/**
  The round as the user drives it: every event the rendered component can
  deliver, and what it does to the state. The reveal effect runs as the
  immediate consequence of the first pick, so a pick carries the host's
  random choice with it.
 */
module Machine {
  import opened Nullable
  import opened Doors
  import opened Round

  datatype Action =
    | ClickDoor(door: DoorId, revealChoice: nat)
    | PressSwitch
    | PressKeep
    | PressPlayAgain(carPosition: DoorId)

  /**
    The state after event `a`, or `None` when the event cannot happen: a click
    on a disabled door, a button that is not on screen, a handler that would
    throw (no valid state allows one), or a reveal choice no random draw gives.
   */
  function Step(g: Game, a: Action): (r: Option<Game>)
    requires WellFormed(g.doors)
    ensures r.Some? ==> WellFormed(r.value.doors)
    ensures r.Some? && !a.PressPlayAgain? ==> SamePrizes(g.doors, r.value.doors)
  {
    match a
    case ClickDoor(d, k) =>
      if Disabled(g, d) then None
      else
        var clicked := HandleDoorClick(g, d);
        if g.gameState == Initial then
          if k < |AvailableDoors(clicked.doors, d)| then Some(RevealGoatDoor(clicked, k)) else None
        else Some(clicked)
    case PressSwitch =>
      if g.gameState == DoorPicked && FindOther(g.doors, g.selectedDoor, g.revealedDoor).Some?
      then Some(SwitchButton(g)) else None
    case PressKeep =>
      if g.gameState == DoorPicked && g.selectedDoor.Some? then Some(KeepButton(g)) else None
    case PressPlayAgain(c) =>
      if g.gameState == GameOver then Some(ResetGame(c)) else None
  }

  /** The state after a sequence of events; events that cannot happen leave it unchanged. */
  function Run(g: Game, actions: seq<Action>): (r: Game)
    requires WellFormed(g.doors)
    ensures WellFormed(r.doors)
    decreases |actions|
  {
    if |actions| == 0 then g
    else
      match Step(g, actions[0])
      case None => Run(g, actions[1..])
      case Some(next) => Run(next, actions[1..])
  }

  lemma SamePrizesKeepCar(a: seq<Door>, b: seq<Door>, c: int)
    requires SamePrizes(a, b) && CarBehind(a, c)
    ensures CarBehind(b, c)
  {
  }

  /** Picking a door in a fresh round and letting the host open a goat door gives a valid `DoorPicked` state. */
  lemma PickKeepsValid(g: Game, d: DoorId, k: nat)
    requires Valid(g) && g.gameState == Initial
    requires k < |AvailableDoors(HandleDoorClick(g, d).doors, d)|
    ensures Valid(RevealGoatDoor(HandleDoorClick(g, d), k))
    ensures RevealGoatDoor(HandleDoorClick(g, d), k).gameState == DoorPicked
    ensures RevealGoatDoor(HandleDoorClick(g, d), k).selectedDoor == Some(d)
  {
    var clicked := HandleDoorClick(g, d);
    var r := RevealGoatDoor(clicked, k);
    var c :| 0 <= c < 3 && CarBehind(g.doors, c);
    SamePrizesKeepCar(g.doors, r.doors, c);
    CarBehindIsOneCar(r.doors, c);
  }

  /** The Switch button always finds its target in `DoorPicked` and ends in a valid `GameOver` state. */
  lemma SwitchKeepsValid(g: Game)
    requires Valid(g) && g.gameState == DoorPicked
    ensures FindOther(g.doors, g.selectedDoor, g.revealedDoor)
      == Some(g.doors[3 - g.selectedDoor.value - g.revealedDoor.value])
    ensures Valid(SwitchButton(g))
  {
    SwitchTargetUnique(g.doors, g.selectedDoor.value, g.revealedDoor.value);
    var r := SwitchButton(g);
    var c :| 0 <= c < 3 && CarBehind(g.doors, c);
    SamePrizesKeepCar(g.doors, r.doors, c);
    CarBehindIsOneCar(r.doors, c);
  }

  lemma KeepKeepsValid(g: Game)
    requires Valid(g) && g.gameState == DoorPicked
    ensures Valid(KeepButton(g))
  {
    var r := KeepButton(g);
    var c :| 0 <= c < 3 && CarBehind(g.doors, c);
    SamePrizesKeepCar(g.doors, r.doors, c);
    CarBehindIsOneCar(r.doors, c);
  }

  /** Every event keeps a round in one of its valid states. */
  lemma StepKeepsValid(g: Game, a: Action)
    requires Valid(g)
    ensures Step(g, a).Some? ==> Valid(Step(g, a).value)
  {
    match a
    case ClickDoor(d, k) =>
      if !Disabled(g, d) && k < |AvailableDoors(HandleDoorClick(g, d).doors, d)| {
        PickKeepsValid(g, d, k);
      }
    case PressSwitch =>
      if g.gameState == DoorPicked {
        SwitchKeepsValid(g);
      }
    case PressKeep =>
      if g.gameState == DoorPicked {
        KeepKeepsValid(g);
      }
    case PressPlayAgain(c) =>
  }

  /** Every sequence of events keeps a round in one of its valid states. */
  lemma {:induction false} RunKeepsValid(g: Game, actions: seq<Action>)
    requires Valid(g)
    ensures Valid(Run(g, actions))
    decreases |actions|
  {
    if |actions| > 0 {
      StepKeepsValid(g, actions[0]);
      match Step(g, actions[0])
      case None => RunKeepsValid(g, actions[1..]);
      case Some(next) => RunKeepsValid(next, actions[1..]);
    }
  }

  /**
    From a fresh round no sequence of events reaches `Switching`, so the
    second branch of `handleDoorClick` and `finishGame` never run.
   */
  lemma {:induction false} SwitchingUnreachable(carPosition: DoorId, actions: seq<Action>)
    ensures Valid(Run(ResetGame(carPosition), actions))
    ensures Run(ResetGame(carPosition), actions).gameState != Switching
  {
    RunKeepsValid(ResetGame(carPosition), actions);
  }

  /** In every valid state the doors accept clicks exactly in `Initial`. */
  lemma DisabledOutsideInitial(g: Game, d: DoorId)
    requires Valid(g)
    ensures !Disabled(g, d) <==> g.gameState == Initial
  {
  }

  /** Events the screen offers never fail in a valid state: the host always has a door to open. */
  lemma OfferedEventsHappen(g: Game, d: DoorId)
    requires Valid(g)
    ensures g.gameState == Initial ==> Step(g, ClickDoor(d, 0)).Some?
    ensures g.gameState == DoorPicked ==> Step(g, PressSwitch).Some? && Step(g, PressKeep).Some?
  {
    if g.gameState == Initial {
      var clicked := HandleDoorClick(g, d);
      var c :| 0 <= c < 3 && CarBehind(g.doors, c);
      SamePrizesKeepCar(g.doors, clicked.doors, c);
      RevealCandidates(clicked.doors, c, d);
    }
    if g.gameState == DoorPicked {
      SwitchKeepsValid(g);
    }
  }

  /**
    After the reveal, switching wins exactly when the first pick missed the
    car and keeping wins exactly when it hit it, so exactly one of the two wins.
   */
  lemma SwitchWinsIffPickMissed(g: Game, carPosition: DoorId)
    requires Valid(g) && g.gameState == DoorPicked && CarBehind(g.doors, carPosition)
    ensures Step(g, PressSwitch).Some? && Step(g, PressKeep).Some?
    ensures Step(g, PressSwitch).value.wonCar <==> g.selectedDoor.value != carPosition
    ensures Step(g, PressKeep).value.wonCar <==> g.selectedDoor.value == carPosition
    ensures Step(g, PressSwitch).value.wonCar != Step(g, PressKeep).value.wonCar
  {
    SwitchKeepsValid(g);
  }

  /**
    The guard of the `switching` branch: a click there ends the round exactly
    when it lands on the one door that is neither picked nor revealed.
   */
  lemma SwitchingClickGuard(g: Game, d: DoorId)
    requires WellFormed(g.doors) && g.gameState == Switching
    requires g.selectedDoor.Some? && g.revealedDoor.Some? && g.selectedDoor.value != g.revealedDoor.value
    ensures HandleDoorClick(g, d).gameState == GameOver <==> d == 3 - g.selectedDoor.value - g.revealedDoor.value
  {
  }

  /**
    The state a `switching` click produces as written: for a round with the
    car behind door 2, door 0 picked and door 1 opened, a click on door 2
    records door 2 as the pick but leaves door 0 highlighted.
   */
  lemma SwitchToAsWrittenKeepsOldHighlight()
    ensures
      var doors := [Door(0, false, false, true), Door(1, false, true, false), Door(2, true, false, false)];
      var g := Game(doors, Some(0), Some(1), Switching, false);
      var r := SwitchToAsWritten(g, 2);
      && r.selectedDoor == Some(2)
      && r.doors[0].isSelected && !r.doors[2].isSelected
      && !OnlySelected(r.doors, 2)
      && HandleDoorClick(g, 2) == r
      && SwitchTo(g, 2).doors[2].isSelected
  {
  }

  /**
    In general, a `switching` click as written moves `selectedDoor` to the
    new door but leaves the highlight on the old pick.
   */
  lemma SwitchToAsWrittenMissesHighlight(g: Game, s: DoorId, d: DoorId)
    requires WellFormed(g.doors) && g.selectedDoor == Some(s) && OnlySelected(g.doors, s)
    requires d != s
    ensures SwitchToAsWritten(g, d).selectedDoor == Some(d)
    ensures OnlySelected(SwitchToAsWritten(g, d).doors, s)
    ensures !OnlySelected(SwitchToAsWritten(g, d).doors, d)
  {
  }

  /** Car behind door 2, pick door 0: the host can only open door 1, and switching then wins. */
  lemma CarTwoPickZeroScenario()
    ensures
      var picked := Step(ResetGame(2), ClickDoor(0, 0));
      && picked.Some?
      && picked.value.revealedDoor == Some(1)
      && Step(ResetGame(2), ClickDoor(0, 1)).None?
      && Step(picked.value, PressSwitch).Some?
      && Step(picked.value, PressSwitch).value.selectedDoor == Some(2)
      && Step(picked.value, PressSwitch).value.wonCar
  {
    var g0 := ResetGame(2);
    var clicked := HandleDoorClick(g0, 0);
    SamePrizesKeepCar(g0.doors, clicked.doors, 2);
    RevealCandidates(clicked.doors, 2, 0);
    PickKeepsValid(g0, 0, 0);
    var g1 := RevealGoatDoor(clicked, 0);
    assert Step(g0, ClickDoor(0, 0)) == Some(g1);
    SamePrizesKeepCar(g0.doors, g1.doors, 2);
    SwitchWinsIffPickMissed(g1, 2);
  }
}
