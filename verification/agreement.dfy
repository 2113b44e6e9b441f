/**
  The simulator counts a trial with a shortcut rule instead of playing the
  round. Here the round is played through the same events the screen
  offers, and the two are shown to agree on every trial and every host
  choice.
 */
module Agreement {
  import opened Nullable
  import opened Doors
  import opened Round
  import opened Machine
  import opened Simulator

  /** The button a player following `strategy` presses after the reveal. */
  function Decision(strategy: Strategy): Action {
    match strategy
    case Switch => PressSwitch
    case Keep => PressKeep
  }

  /** How many doors the host can choose from in this trial: two when the pick hides the car, one otherwise. */
  function HostChoices(t: Trial): nat {
    if t.initialPick == t.carDoor then 2 else 1
  }

  /** Plays a fresh round: car at `t.carDoor`, pick `t.initialPick`, host choice `revealChoice`, then the strategy's button. */
  function PlayRound(t: Trial, revealChoice: nat, strategy: Strategy): bool {
    Run(ResetGame(t.carDoor), [ClickDoor(t.initialPick, revealChoice), Decision(strategy)]).wonCar
  }

  /** The shortcut rule gives the outcome of the full round for every valid host choice. */
  lemma ShortcutAgreesWithRound(t: Trial, revealChoice: nat, strategy: Strategy)
    requires revealChoice < HostChoices(t)
    ensures PlayRound(t, revealChoice, strategy) == TrialWins(t, strategy)
  {
    var g0 := ResetGame(t.carDoor);
    var pick := ClickDoor(t.initialPick, revealChoice);
    var clicked := HandleDoorClick(g0, t.initialPick);
    SamePrizesKeepCar(g0.doors, clicked.doors, t.carDoor);
    RevealCandidates(g0.doors, t.carDoor, t.initialPick);
    RevealCandidates(clicked.doors, t.carDoor, t.initialPick);
    PickKeepsValid(g0, t.initialPick, revealChoice);
    var g1 := Step(g0, pick).value;
    SamePrizesKeepCar(g0.doors, g1.doors, t.carDoor);
    SwitchWinsIffPickMissed(g1, t.carDoor);
    var g2 := Step(g1, Decision(strategy)).value;
    var actions := [pick, Decision(strategy)];
    assert actions[1..] == [Decision(strategy)];
    assert actions[1..][1..] == [];
    assert Run(g0, actions) == Run(g1, [Decision(strategy)]) == g2;
  }

  /** Exactly one of the two strategies wins any round. */
  lemma ExactlyOneStrategyWins(t: Trial, revealChoice: nat)
    requires revealChoice < HostChoices(t)
    ensures PlayRound(t, revealChoice, Switch) != PlayRound(t, revealChoice, Keep)
  {
    ShortcutAgreesWithRound(t, revealChoice, Switch);
    ShortcutAgreesWithRound(t, revealChoice, Keep);
  }

  /** How many of the outcomes are wins. */
  function Count(outcomes: seq<bool>): (n: nat)
    ensures n <= |outcomes|
    decreases |outcomes|
  {
    if |outcomes| == 0 then 0
    else
      var last := |outcomes| - 1;
      Count(outcomes[..last]) + if outcomes[last] then 1 else 0
  }

  /** The outcome of every trial, each played in full with its own host choice. */
  function Outcomes(trials: seq<Trial>, choices: seq<nat>, strategy: Strategy): (r: seq<bool>)
    requires |choices| == |trials|
    ensures |r| == |trials|
  {
    seq(|trials|, i requires 0 <= i < |trials| => PlayRound(trials[i], choices[i], strategy))
  }

  /** The number of rounds a strategy wins when every trial is played in full. */
  function RoundWins(trials: seq<Trial>, choices: seq<nat>, strategy: Strategy): (n: nat)
    requires |choices| == |trials|
    ensures n <= |trials|
  {
    Count(Outcomes(trials, choices, strategy))
  }

  /** Outcomes that follow the shortcut rule trial by trial add up to the simulator's count. */
  lemma {:induction false} CountMatchesWins(trials: seq<Trial>, outcomes: seq<bool>, strategy: Strategy)
    requires |outcomes| == |trials|
    requires forall i :: 0 <= i < |trials| ==> outcomes[i] == TrialWins(trials[i], strategy)
    ensures Count(outcomes) == Wins(trials, strategy)
    decreases |trials|
  {
    if |trials| > 0 {
      var last := |trials| - 1;
      assert forall i :: 0 <= i < last ==> outcomes[..last][i] == outcomes[i] && trials[..last][i] == trials[i];
      CountMatchesWins(trials[..last], outcomes[..last], strategy);
    }
  }

  /** Over any sequence of trials and host choices the simulator's count equals the count of rounds won. */
  lemma SimulatorAgreesWithRounds(trials: seq<Trial>, choices: seq<nat>, strategy: Strategy)
    requires |choices| == |trials|
    requires forall i :: 0 <= i < |trials| ==> choices[i] < HostChoices(trials[i])
    ensures Wins(trials, strategy) == RoundWins(trials, choices, strategy)
  {
    var outcomes := Outcomes(trials, choices, strategy);
    forall i | 0 <= i < |trials|
      ensures outcomes[i] == TrialWins(trials[i], strategy)
    {
      ShortcutAgreesWithRound(trials[i], choices[i], strategy);
    }
    CountMatchesWins(trials, outcomes, strategy);
  }
}
