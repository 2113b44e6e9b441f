/**
  The three door records of the Monty Hall game and the pure helpers the
  component applies to its door array: building a fresh array, filtering the
  doors the host may open, and finding the door a switching player moves to.
 */
module Doors {
  import opened Nullable

  /** A position on stage; `initializeDoors` draws the car position from this range. */
  type DoorId = i: int | 0 <= i < 3

  datatype Door = Door(id: int, hasCar: bool, isOpen: bool, isSelected: bool)

  /** The shape of every door array the component holds: three doors, each id equal to its index. */
  predicate WellFormed(doors: seq<Door>) {
    |doors| == 3 && forall i :: 0 <= i < |doors| ==> doors[i].id == i
  }

  /** The car is behind door `c` and behind no other door. */
  predicate CarBehind(doors: seq<Door>, c: int) {
    forall i :: 0 <= i < |doors| ==> (doors[i].hasCar <==> i == c)
  }

  /** Exactly one door hides the car. */
  predicate OneCar(doors: seq<Door>) {
    exists c :: 0 <= c < |doors| && CarBehind(doors, c)
  }

  lemma CarBehindIsOneCar(doors: seq<Door>, c: int)
    requires 0 <= c < |doors| && CarBehind(doors, c)
    ensures OneCar(doors)
  {
  }

  /** Two door arrays agree on which door is which and where the car is. */
  predicate SamePrizes(a: seq<Door>, b: seq<Door>) {
    |a| == |b| && forall i :: 0 <= i < |a| ==> a[i].id == b[i].id && a[i].hasCar == b[i].hasCar
  }

  /** Door `s` is the only selected door. */
  predicate OnlySelected(doors: seq<Door>, s: int) {
    forall i :: 0 <= i < |doors| ==> (doors[i].isSelected <==> i == s)
  }

  /** Door `v` is the only open door. */
  predicate OnlyOpen(doors: seq<Door>, v: int) {
    forall i :: 0 <= i < |doors| ==> (doors[i].isOpen <==> i == v)
  }

  predicate AllOpen(doors: seq<Door>) {
    forall i :: 0 <= i < |doors| ==> doors[i].isOpen
  }

  predicate NoneOpen(doors: seq<Door>) {
    forall i :: 0 <= i < |doors| ==> !doors[i].isOpen
  }

  predicate NoneSelected(doors: seq<Door>) {
    forall i :: 0 <= i < |doors| ==> !doors[i].isSelected
  }

  /** A fresh round's doors with the car behind door `carPosition`. */
  function InitializeDoors(carPosition: DoorId): (r: seq<Door>)
    ensures WellFormed(r)
    ensures CarBehind(r, carPosition)
    ensures NoneOpen(r) && NoneSelected(r)
  {
    seq(3, i requires 0 <= i < 3 => Door(i, i == carPosition, false, false))
  }

  /** A door the host may open: no car behind it, and not at the player's index. */
  predicate Revealable(door: Door, idx: int, selected: int) {
    !door.hasCar && idx != selected
  }

  /** The doors that the host may open once `selected` is picked. */
  function AvailableDoors(doors: seq<Door>, selected: int): (r: seq<Door>)
    ensures |r| <= |doors|
    ensures forall x :: x in r ==> x in doors && !x.hasCar
    ensures forall i :: 0 <= i < |doors| && Revealable(doors[i], i, selected) ==> doors[i] in r
    ensures (forall i :: 0 <= i < |doors| ==> doors[i].id == i) ==> forall x :: x in r ==> x.id != selected
    decreases |doors|
  {
    if |doors| == 0 then []
    else
      var last := |doors| - 1;
      var front := AvailableDoors(doors[..last], selected);
      assert forall i :: 0 <= i < last ==> doors[..last][i] == doors[i];
      if Revealable(doors[last], last, selected) then front + [doors[last]] else front
  }

  /** The host opens a door among one or two candidates: two when the pick hides the car, one otherwise. */
  lemma RevealCandidates(doors: seq<Door>, car: DoorId, selected: DoorId)
    requires WellFormed(doors) && CarBehind(doors, car)
    ensures |AvailableDoors(doors, selected)| == if selected == car then 2 else 1
    ensures forall i :: 0 <= i < 3 ==> (doors[i] in AvailableDoors(doors, selected) <==> i != car && i != selected)
  {
    assert doors[..3] == doors;
    assert doors[..2][..1] == doors[..1];
    assert doors[..1][..0] == doors[..0];
    var a0 := AvailableDoors(doors[..1], selected);
    var a1 := AvailableDoors(doors[..2], selected);
    assert |a0| == if Revealable(doors[0], 0, selected) then 1 else 0;
    assert |a1| == |a0| + if Revealable(doors[1], 1, selected) then 1 else 0;
  }

  /** A door the switching player may move to: neither the current pick nor the opened door. */
  predicate IsOther(door: Door, selected: Option<int>, revealed: Option<int>) {
    selected != Some(door.id) && revealed != Some(door.id)
  }

  /** The first door, in stage order, that is neither selected nor revealed. */
  function FindOther(doors: seq<Door>, selected: Option<int>, revealed: Option<int>): (r: Option<Door>)
    ensures r.Some? ==> r.value in doors && IsOther(r.value, selected, revealed)
    ensures r.None? ==> forall i :: 0 <= i < |doors| ==> !IsOther(doors[i], selected, revealed)
    ensures r.Some? ==>
      exists i :: 0 <= i < |doors| && doors[i] == r.value && forall j :: 0 <= j < i ==> !IsOther(doors[j], selected, revealed)
  {
    if |doors| == 0 then None
    else if IsOther(doors[0], selected, revealed) then Some(doors[0])
    else
      var rest := FindOther(doors[1..], selected, revealed);
      assert forall i :: 1 <= i < |doors| ==> doors[1..][i - 1] == doors[i];
      rest
  }

  /** After a reveal exactly one door is left to switch to, and the search finds it. */
  lemma SwitchTargetUnique(doors: seq<Door>, selected: DoorId, revealed: DoorId)
    requires WellFormed(doors) && selected != revealed
    ensures forall d: DoorId :: IsOther(doors[d], Some(selected), Some(revealed)) <==> d == 3 - selected - revealed
    ensures FindOther(doors, Some(selected), Some(revealed)) == Some(doors[3 - selected - revealed])
  {
  }
}
