/**
  One play-through of the game: the state the `Doors` component keeps in its
  hooks, and the handlers that change it, each as a pure transition.
  Randomness is an argument: the car position of a new round, and the index
  of the door the host opens among the candidates.
 */
module Round {
  import opened Nullable
  import opened Doors

  /** The component's `gameState`. `Switching` is compared against but never assigned. */
  datatype Phase = Initial | DoorPicked | Switching | GameOver

  datatype Game = Game(
    doors: seq<Door>,
    selectedDoor: Option<DoorId>,
    revealedDoor: Option<DoorId>,
    gameState: Phase,
    wonCar: bool)

  /**
    The states a round passes through. In `DoorPicked` the host has already
    opened one goat door; `Switching` is never part of a round.
   */
  predicate Valid(g: Game) {
    && WellFormed(g.doors)
    && OneCar(g.doors)
    && match g.gameState
       case Initial =>
         && g.selectedDoor.None? && g.revealedDoor.None? && !g.wonCar
         && NoneOpen(g.doors) && NoneSelected(g.doors)
       case DoorPicked =>
         && g.selectedDoor.Some? && g.revealedDoor.Some?
         && g.selectedDoor.value != g.revealedDoor.value
         && !g.doors[g.revealedDoor.value].hasCar
         && OnlySelected(g.doors, g.selectedDoor.value)
         && OnlyOpen(g.doors, g.revealedDoor.value)
         && !g.wonCar
       case Switching => false
       case GameOver =>
         && g.selectedDoor.Some? && g.revealedDoor.Some?
         && g.selectedDoor.value != g.revealedDoor.value
         && !g.doors[g.revealedDoor.value].hasCar
         && OnlySelected(g.doors, g.selectedDoor.value)
         && AllOpen(g.doors)
         && g.wonCar == g.doors[g.selectedDoor.value].hasCar
  }

  /** `resetGame`: a new round with the car behind `carPosition`, nothing picked or opened. */
  function ResetGame(carPosition: DoorId): (g: Game)
    ensures Valid(g)
    ensures g.gameState == Initial
    ensures CarBehind(g.doors, carPosition)
  {
    var doors := InitializeDoors(carPosition);
    CarBehindIsOneCar(doors, carPosition);
    Game(doors, None, None, Initial, false)
  }

  /** Marks door `d` as the only selected door and leaves everything else as it was. */
  function SelectOnly(doors: seq<Door>, d: int): (r: seq<Door>)
    requires WellFormed(doors)
    ensures WellFormed(r) && SamePrizes(doors, r)
    ensures OnlySelected(r, d)
    ensures forall i :: 0 <= i < |r| ==> r[i].isOpen == doors[i].isOpen
  {
    seq(|doors|, i requires 0 <= i < |doors| => doors[i].(isSelected := doors[i].id == d))
  }

  /** Opens every door and leaves everything else as it was. */
  function OpenAll(doors: seq<Door>): (r: seq<Door>)
    ensures SamePrizes(doors, r)
    ensures AllOpen(r)
    ensures forall i :: 0 <= i < |r| ==> r[i].isSelected == doors[i].isSelected
  {
    seq(|doors|, i requires 0 <= i < |doors| => doors[i].(isOpen := true))
  }

  /**
    `finishGame`: opens every door and records whether `finalDoorId` hides the
    car. It does not touch the selection.
   */
  function FinishGame(g: Game, finalDoorId: DoorId): (r: Game)
    requires WellFormed(g.doors)
    ensures WellFormed(r.doors) && SamePrizes(g.doors, r.doors)
    ensures AllOpen(r.doors)
    ensures forall i :: 0 <= i < 3 ==> r.doors[i].isSelected == g.doors[i].isSelected
    ensures r.wonCar <==> g.doors[finalDoorId].hasCar
    ensures r.gameState == GameOver
    ensures r.selectedDoor == g.selectedDoor && r.revealedDoor == g.revealedDoor
  {
    var finalDoors := OpenAll(g.doors);
    g.(doors := finalDoors, wonCar := finalDoors[finalDoorId].hasCar, gameState := GameOver)
  }

  /**
    The `switching` branch of `handleDoorClick` exactly as written: the
    selection update it queues is overwritten by `finishGame`, which stores
    the doors as they were before the click, so the highlight stays on the
    previous pick while `selectedDoor` names the new one.
   */
  function SwitchToAsWritten(g: Game, doorId: DoorId): (r: Game)
    requires WellFormed(g.doors)
    ensures WellFormed(r.doors) && SamePrizes(g.doors, r.doors)
    ensures r.selectedDoor == Some(doorId) && r.revealedDoor == g.revealedDoor
    ensures forall i :: 0 <= i < 3 ==> r.doors[i].isSelected == g.doors[i].isSelected
    ensures AllOpen(r.doors)
    ensures r.wonCar <==> g.doors[doorId].hasCar
    ensures r.gameState == GameOver
  {
    FinishGame(g.(selectedDoor := Some(doorId)), doorId)
  }

  /**
    The `switching` branch of `handleDoorClick` as intended: door `doorId`
    becomes the only selected door, every door opens, and the round is won
    exactly when the new door hides the car.
   */
  function SwitchTo(g: Game, doorId: DoorId): (r: Game)
    requires WellFormed(g.doors)
    ensures WellFormed(r.doors) && SamePrizes(g.doors, r.doors)
    ensures r.selectedDoor == Some(doorId) && r.revealedDoor == g.revealedDoor
    ensures OnlySelected(r.doors, doorId)
    ensures AllOpen(r.doors)
    ensures r.wonCar <==> g.doors[doorId].hasCar
    ensures r.gameState == GameOver
  {
    FinishGame(g.(selectedDoor := Some(doorId), doors := SelectOnly(g.doors, doorId)), doorId)
  }

  /**
    `handleDoorClick`: in `Initial` the clicked door becomes the pick; in
    `Switching` a click on the remaining door ends the round, as written, so
    the highlight stays where it was; otherwise the click does nothing.
   */
  function HandleDoorClick(g: Game, doorId: DoorId): (r: Game)
    requires WellFormed(g.doors)
    ensures WellFormed(r.doors) && SamePrizes(g.doors, r.doors)
    ensures g.gameState == Initial ==>
      && r.gameState == DoorPicked
      && r.selectedDoor == Some(doorId)
      && OnlySelected(r.doors, doorId)
      && (forall i :: 0 <= i < 3 ==> r.doors[i].isOpen == g.doors[i].isOpen)
      && r.revealedDoor == g.revealedDoor && r.wonCar == g.wonCar
    ensures g.gameState == Switching ==>
      if g.selectedDoor == Some(doorId) || g.revealedDoor == Some(doorId) then r == g
      else r.gameState == GameOver && r.selectedDoor == Some(doorId)
           && (forall i :: 0 <= i < 3 ==> r.doors[i].isSelected == g.doors[i].isSelected)
           && AllOpen(r.doors) && (r.wonCar <==> g.doors[doorId].hasCar)
    ensures g.gameState == DoorPicked || g.gameState == GameOver ==> r == g
  {
    match g.gameState
    case Initial =>
      g.(selectedDoor := Some(doorId), doors := SelectOnly(g.doors, doorId), gameState := DoorPicked)
    case Switching =>
      if g.selectedDoor == Some(doorId) || g.revealedDoor == Some(doorId) then g
      else SwitchToAsWritten(g, doorId)
    case _ => g
  }

  /**
    `revealGoatDoor`: opens candidate number `choice` among the doors that
    neither hide the car nor are the pick; the pick stays the only selected
    door.
   */
  function RevealGoatDoor(g: Game, choice: nat): (r: Game)
    requires WellFormed(g.doors) && g.selectedDoor.Some?
    requires choice < |AvailableDoors(g.doors, g.selectedDoor.value)|
    ensures WellFormed(r.doors) && SamePrizes(g.doors, r.doors)
    ensures r.revealedDoor.Some?
    ensures r.revealedDoor.value != g.selectedDoor.value
    ensures !g.doors[r.revealedDoor.value].hasCar
    ensures r.doors[r.revealedDoor.value].isOpen
    ensures r.doors[r.revealedDoor.value].isSelected == g.doors[r.revealedDoor.value].isSelected
    ensures forall i :: 0 <= i < 3 && i != r.revealedDoor.value ==>
      r.doors[i].isOpen == g.doors[i].isOpen && (r.doors[i].isSelected <==> i == g.selectedDoor.value)
    ensures r.gameState == g.gameState && r.selectedDoor == g.selectedDoor && r.wonCar == g.wonCar
  {
    var selected := g.selectedDoor.value;
    var doorToReveal := AvailableDoors(g.doors, selected)[choice];
    assert doorToReveal in g.doors;
    var newDoors := seq(|g.doors|, i requires 0 <= i < |g.doors| =>
      if g.doors[i].id == doorToReveal.id then g.doors[i].(isOpen := true)
      else g.doors[i].(isSelected := g.doors[i].id == selected));
    g.(revealedDoor := Some(doorToReveal.id), doors := newDoors)
  }

  /**
    The Switch button: the player moves to the door that is neither picked nor
    revealed, every door opens, and the round is won exactly when that door
    hides the car.
   */
  function SwitchButton(g: Game): (r: Game)
    requires WellFormed(g.doors)
    requires FindOther(g.doors, g.selectedDoor, g.revealedDoor).Some?
    ensures WellFormed(r.doors) && SamePrizes(g.doors, r.doors)
    ensures r.selectedDoor.Some? && IsOther(g.doors[r.selectedDoor.value], g.selectedDoor, g.revealedDoor)
    ensures OnlySelected(r.doors, r.selectedDoor.value)
    ensures AllOpen(r.doors)
    ensures r.wonCar <==> g.doors[r.selectedDoor.value].hasCar
    ensures r.gameState == GameOver && r.revealedDoor == g.revealedDoor
  {
    var newSelectedDoor := FindOther(g.doors, g.selectedDoor, g.revealedDoor).value;
    var newDoors := seq(|g.doors|, i requires 0 <= i < |g.doors| =>
      g.doors[i].(isOpen := true, isSelected := g.doors[i].id == newSelectedDoor.id));
    Game(newDoors, Some(newSelectedDoor.id), g.revealedDoor, GameOver, newSelectedDoor.hasCar)
  }

  /**
    The Keep button: every door opens, the pick stays, and the round is won
    exactly when the picked door hides the car.
   */
  function KeepButton(g: Game): (r: Game)
    requires WellFormed(g.doors) && g.selectedDoor.Some?
    ensures WellFormed(r.doors) && SamePrizes(g.doors, r.doors)
    ensures AllOpen(r.doors)
    ensures forall i :: 0 <= i < 3 ==> r.doors[i].isSelected == g.doors[i].isSelected
    ensures r.selectedDoor == g.selectedDoor && r.revealedDoor == g.revealedDoor
    ensures r.wonCar <==> g.doors[g.selectedDoor.value].hasCar
    ensures r.gameState == GameOver
  {
    g.(doors := OpenAll(g.doors), wonCar := g.doors[g.selectedDoor.value].hasCar, gameState := GameOver)
  }

  /** The `disabled` flag the component passes to the door with this id. */
  predicate Disabled(g: Game, id: DoorId) {
    g.gameState != Initial &&
    (g.gameState != Switching || g.selectedDoor == Some(id) || g.revealedDoor == Some(id))
  }
}
