# Monty Hall doors — a Dafny model

This project models the game logic inside the `Doors` React component of
`src/doors.jsx`. The logic is lifted out of the hooks and the JSX and written
as pure transitions over immutable values.

- **Round** (`doors.dfy`, `round.dfy`, `machine.dfy`). Three door records
  (`id`, `hasCar`, `isOpen`, `isSelected`) and the hook state `selectedDoor`,
  `revealedDoor`, `gameState` and `wonCar`. The round moves through
  `initial` → `doorPicked` → `gameOver`. It is driven by these events:
  - a door click, which runs `handleDoorClick` followed by the
    `revealGoatDoor` effect;
  - the Switch and Keep buttons;
  - Play Again, which runs `resetGame`.
- **Switching phase.** `gameState` is compared with `'switching'` but never
  set to it. `Round.HandleDoorClick` keeps that branch exactly as written
  (`Round.SwitchToAsWritten`), and the model proves the branch cannot be
  reached. `Round.SwitchTo` is the corrected version of the branch (see
  Findings).
- **Simulator** (`simulator.dfy`). The counting loop of `runSimulation`, the
  clamp on the trial-count input, and the results history, which keeps the
  newest result first and holds at most ten.
- **Agreement** (`agreement.dfy`). The simulator scores each trial with a
  shortcut rule: switching wins exactly when the first pick was wrong. The
  model plays the same trial through the round machine and proves both give
  the same result.

Randomness comes in as arguments:
- the car position of a new round (`DoorId`, 0..2);
- the host's choice, an index below the number of candidate doors;
- each trial's `(carDoor, initialPick)` pair.

A `Step` result of `None` means the event cannot happen. That covers a
disabled door, a button that is not on screen, and a handler that would
throw. No reachable state lets a handler throw (`Machine.OfferedEventsHappen`).

The component reports no errors. Instead:
- A click on a disabled door delivers no event.
- A click in `doorPicked` or `gameOver` falls through `handleDoorClick`
  unchanged.
- The Switch and Keep buttons are rendered only in `doorPicked`.
- A trial count below 1 is clamped to 1 rather than refused.

Once mounted, the component's door array is always the three doors built by
`initializeDoors`, with `id` equal to the index. The transitions require that
shape (`WellFormed`). Before the mount effect runs, no door is rendered, so
no event can arrive. The state after mounting equals `ResetGame(c)`: the
`useState` defaults are the same values `resetGame` sets.

## Model

| member | source | states |
|---|---|---|
| Doors.InitializeDoors | src/doors.jsx:95-103 | three doors with ids 0, 1, 2; the car is behind `carPosition` and behind no other door; all doors closed and unselected |
| Doors.AvailableDoors | src/doors.jsx:111-113 | every candidate is a door of the array without the car; every door without the car that is not at the picked index is a candidate; when ids equal indices, no candidate is the pick |
| Doors.RevealCandidates | src/doors.jsx:110-114 | the host has 2 candidates when the pick hides the car and 1 otherwise, so the candidate list is never empty; door i is a candidate iff it is neither the car nor the pick |
| Doors.FindOther | src/doors.jsx:225-227 | the door `find` returns is in the array and is neither the pick nor the revealed door, and every door before it is one of those two; when it returns nothing, every door is one of those two |
| Doors.SwitchTargetUnique | src/doors.jsx:224-227 | once a door other than the pick has been revealed, exactly one door is neither selected nor revealed, and `find` returns that door |
| Round.ResetGame | src/doors.jsx:159-166 | a new round is a valid `initial` state with nothing picked or revealed, no door open, `wonCar` false and the car behind the drawn position |
| Round.HandleDoorClick | src/doors.jsx:122-157 | in `initial` the clicked door becomes the only selected door and the phase becomes `doorPicked`, with doors and prizes otherwise unchanged; in `doorPicked` or `gameOver` nothing changes; in `switching` a click on the pick or the revealed door changes nothing, and any other click, as written, ends the round with every door open, `selectedDoor` naming the clicked door, `wonCar` iff it hides the car, and every door's highlight as it was before the click |
| Round.RevealGoatDoor | src/doors.jsx:110-120 | the revealed door is neither the pick nor the car; it becomes open while no other door opens or closes; the pick stays the only selected door; phase, pick and outcome are unchanged |
| Round.SwitchButton | src/doors.jsx:224-240 | the new pick is a door that was neither selected nor revealed; it becomes the only selected door; all doors open; `wonCar` iff that door hides the car; phase `gameOver` |
| Round.KeepButton | src/doors.jsx:246-254 | all doors open; the selection and the pick are unchanged; `wonCar` iff the picked door hides the car; phase `gameOver` |
| Round.FinishGame | src/doors.jsx:152-157 | all doors open; the selection is untouched; `wonCar` iff the final door hides the car; phase `gameOver` |
| Round.SwitchTo | src/doors.jsx:132-142 | the corrected switching click: the new door becomes the pick and the only selected door; all doors open; `wonCar` iff it hides the car |
| Round.SwitchToAsWritten | src/doors.jsx:132-157 | the switching click as written: `selectedDoor` names the new door, yet every door keeps its old `isSelected` flag; all doors open; the revealed door is unchanged; `wonCar` iff the new door hides the car |
| Machine.Step | src/doors.jsx:122-150 | every event keeps the door array well formed and, apart from Play Again, leaves door ids and car position unchanged |
| Machine.PickKeepsValid | src/doors.jsx:122-131 | a pick in a valid fresh round, followed by the reveal, gives a valid `doorPicked` state on that pick |
| Machine.SwitchKeepsValid | src/doors.jsx:224-240 | in a valid `doorPicked` state `find` returns the door numbered 3 − pick − revealed, and the Switch button leads to a valid `gameOver` state |
| Machine.KeepKeepsValid | src/doors.jsx:246-254 | the Keep button takes a valid `doorPicked` state to a valid `gameOver` state |
| Machine.StepKeepsValid | src/doors.jsx:122-166 | every event that can happen takes a valid state to a valid state |
| Machine.RunKeepsValid | src/doors.jsx:122-166 | every sequence of events keeps a valid state valid |
| Machine.SwitchingUnreachable | src/doors.jsx:132-142 | from a fresh round no sequence of events reaches `switching`, so that branch and `finishGame` never run |
| Machine.DisabledOutsideInitial | src/doors.jsx:208-211 | in every reachable state a door accepts clicks iff the phase is `initial` |
| Machine.OfferedEventsHappen | src/doors.jsx:110-115 | in a valid state every event the screen offers can happen: in `initial` the host always has a door to open, and in `doorPicked` neither button throws |
| Machine.SwitchWinsIffPickMissed | src/doors.jsx:224-254 | after the reveal, Switch wins iff the pick lacks the car, Keep wins iff it hides the car, and exactly one of the two wins |
| Machine.SwitchingClickGuard | src/doors.jsx:132-133 | in `switching` a click ends the round iff it lands on the one door that is neither the pick nor the revealed door |
| Machine.SwitchToAsWrittenKeepsOldHighlight | src/doors.jsx:132-157 | counterexample: with the car behind door 2, door 0 picked and door 1 revealed, a switching click on door 2 (`HandleDoorClick`, as written) records door 2 but leaves door 0 highlighted; the corrected `SwitchTo` highlights door 2 |
| Machine.SwitchToAsWrittenMissesHighlight | src/doors.jsx:132-157 | for any switching click away from the pick, as written, the old pick stays the only highlighted door |
| Machine.CarTwoPickZeroScenario | src/doors.jsx:110-120 | with the car behind door 2 and door 0 picked, the host can only open door 1 (choice index 1 is impossible), and Switch then moves to door 2 and wins |
| Simulator.Wins | src/doors.jsx:170-181 | the win count never exceeds the number of trials |
| Simulator.SwitchAndKeepWinsPartition | src/doors.jsx:176-180 | over the same trials, switch wins plus keep wins equals the trial count |
| Simulator.CountWins | src/doors.jsx:172-181 | the loop's count equals the number of trials the strategy wins, so it is at most `simCount` |
| Simulator.ClampSimCount | src/doors.jsx:287 | the trial count is always in 1..1000; an entry in range is kept; an unparsable or non-positive entry gives 1; an entry above 1000 gives 1000 |
| Simulator.PushResult | src/doors.jsx:191 | the new result comes first; the history grows by one up to ten; the rest is the previous history's prefix in the same order |
| Simulator.ReplayKeepsMostRecent | src/doors.jsx:191 | starting from an empty table, after any sequence of runs the table holds the last min(n, 10) results, newest first |
| Simulator.InitialPanel | src/doors.jsx:90-94 | the simulator starts with 100 trials, the Switch strategy and an empty history, in a valid panel state |
| Simulator.SetSimCount | src/doors.jsx:287 | editing the input sets a trial count in 1..1000 and changes nothing else |
| Simulator.SetStrategy | src/doors.jsx:292-296 | the toggle sets the strategy and changes nothing else |
| Simulator.RunSimulation | src/doors.jsx:168-193 | a run records `simCount` trials and their win count under the chosen strategy as the first history entry; the older entries follow in order, at most ten in all; every listed run has 1..1000 trials and at most that many wins, so no win rate divides by zero |
| Agreement.ShortcutAgreesWithRound | src/doors.jsx:176-180 | for every car position, pick, host choice and strategy, the shortcut rule gives the outcome of playing the full round (click, reveal, then Switch or Keep) |
| Agreement.ExactlyOneStrategyWins | src/doors.jsx:176-180 | played in full, exactly one of Switch and Keep wins any given round |
| Agreement.CountMatchesWins | src/doors.jsx:172-181 | outcomes that match the shortcut rule trial by trial add up to the simulator's win count |
| Agreement.SimulatorAgreesWithRounds | src/doors.jsx:170-181 | over any trials and host choices, the simulator's win count equals the number of fully played rounds the strategy wins |

## Left out

- `DoorAnimation` frame stepping with `setInterval`, and the highlight CSS
  classes (src/doors.jsx:3-68). These are timers and presentation.
- The `Toggle` component and all rendering (src/doors.jsx:70-82, 195-333).
  Only the `disabled` predicate, which buttons are on screen, and the
  `onClick`/`onChange` handlers are modelled.
- React scheduling. The mount effect (src/doors.jsx:106-108) is `ResetGame`.
  The reveal effect (src/doors.jsx:146-150) runs as part of the click that
  enters `doorPicked`. So the frame in which the Switch and Keep buttons
  show before the reveal is not modelled.
- `Math.random` (src/doors.jsx:96, 114, 173-174). It is replaced by explicit
  arguments, so the model says nothing about probabilities or uniformity.
- `Date.now()` result ids (src/doors.jsx:185). A `SimResult` has no id.
- `winPercentage` and its `toFixed(1)` formatting (src/doors.jsx:183). This
  is floating point; a `SimResult` keeps the integer `wins` and `runs`
  instead.
- Machine.Step: a Keep press with no pick, or a Switch press with no door
  left to move to, throws in the component. The model treats it as no
  event. No reachable state allows either press.
- `parseInt` of the input text (src/doors.jsx:287). It is a string parse;
  its result enters as `Option<int>`, with `None` for `NaN`.
- The `isSimulating` flag (src/doors.jsx:92, 169, 192). It is set and
  cleared within one synchronous handler and only disables the controls.

## Findings

| source | as written | input that shows it | evidently intended | confidence | as-written member | corrected member |
|---|---|---|---|---|---|---|
| src/doors.jsx:132-157 | In the `switching` branch, `handleDoorClick` queues a selection update. Then `finishGame` calls `setDoors` with an array built from the doors as rendered before the click, and that array replaces the queued update. | car behind door 2, door 0 picked, door 1 revealed, phase `switching`, click on door 2 | door 2 becomes the only highlighted door, as the Switch button's handler does; `Round.HandleDoorClick` keeps the code as written, and `Round.SwitchTo` is the corrected branch with that property proved | medium; not executed; relies on React applying queued updates in order; the branch cannot be reached from the UI | Machine.SwitchToAsWrittenKeepsOldHighlight | Round.SwitchTo |
