/**
  The batch strategy simulator of the `Doors` component: the trial-count
  input, the counting loop of `runSimulation`, and the history of the last
  ten runs. Each trial's random car position and first pick come in as a
  `Trial`.
 */
module Simulator {
  import opened Nullable
  import opened Doors

  datatype Strategy = Switch | Keep

  datatype Trial = Trial(carDoor: DoorId, initialPick: DoorId)

  /** One run as the results table shows it; the percentage is `wins / runs`. */
  datatype SimResult = SimResult(runs: int, strategy: Strategy, wins: nat)

  /** The simulator's part of the component state: `simCount`, `switchStrategy`, `simResults`. */
  datatype Panel = Panel(simCount: int, strategy: Strategy, simResults: seq<SimResult>)

  const MaxSimCount := 1000
  const MaxHistory := 10
  const DefaultSimCount := 100

  /** The shortcut rule: switching wins iff the first pick missed, keeping wins iff it hit. */
  predicate TrialWins(t: Trial, strategy: Strategy) {
    match strategy
    case Switch => t.initialPick != t.carDoor
    case Keep => t.initialPick == t.carDoor
  }

  /** The number of trials the strategy wins. */
  function Wins(trials: seq<Trial>, strategy: Strategy): (n: nat)
    ensures n <= |trials|
    decreases |trials|
  {
    if |trials| == 0 then 0
    else
      var last := |trials| - 1;
      Wins(trials[..last], strategy) + if TrialWins(trials[last], strategy) then 1 else 0
  }

  /** Every trial is won by exactly one of the two strategies. */
  lemma {:induction false} SwitchAndKeepWinsPartition(trials: seq<Trial>)
    ensures Wins(trials, Switch) + Wins(trials, Keep) == |trials|
    decreases |trials|
  {
    if |trials| > 0 {
      SwitchAndKeepWinsPartition(trials[..|trials| - 1]);
    }
  }

  /** The counting loop of `runSimulation`. */
  method CountWins(trials: seq<Trial>, strategy: Strategy) returns (wins: nat)
    ensures wins == Wins(trials, strategy)
    ensures wins <= |trials|
  {
    wins := 0;
    var i := 0;
    while i < |trials|
      invariant 0 <= i <= |trials|
      invariant wins == Wins(trials[..i], strategy)
    {
      var t := trials[i];
      match strategy {
        case Switch =>
          if t.initialPick != t.carDoor { wins := wins + 1; }
        case Keep =>
          if t.initialPick == t.carDoor { wins := wins + 1; }
      }
      assert trials[..i + 1][..i] == trials[..i];
      i := i + 1;
    }
    assert trials[..|trials|] == trials;
  }

  /** The trial-count input: an unparsable entry counts as 0, then the value is clamped to 1..1000. */
  function ClampSimCount(parsed: Option<int>): (n: int)
    ensures 1 <= n <= MaxSimCount
    ensures parsed.Some? && 1 <= parsed.value <= MaxSimCount ==> n == parsed.value
    ensures parsed.None? || parsed.value < 1 ==> n == 1
    ensures parsed.Some? && parsed.value > MaxSimCount ==> n == MaxSimCount
  {
    var entered := match parsed case Some(v) => v case None => 0;
    var atLeastOne := if entered > 1 then entered else 1;
    if atLeastOne < MaxSimCount then atLeastOne else MaxSimCount
  }

  /** The new result goes first and the history keeps at most ten entries, newest first. */
  function PushResult(history: seq<SimResult>, result: SimResult): (h: seq<SimResult>)
    ensures |h| == if |history| < MaxHistory then |history| + 1 else MaxHistory
    ensures h[0] == result
    ensures h[1..] == history[..|h| - 1]
  {
    var all := [result] + history;
    if |all| <= MaxHistory then all else all[..MaxHistory]
  }

  /** The history after the given runs, oldest first, starting from an empty table. */
  function Replay(results: seq<SimResult>): seq<SimResult>
    decreases |results|
  {
    if |results| == 0 then []
    else PushResult(Replay(results[..|results| - 1]), results[|results| - 1])
  }

  /** The table always lists the most recent runs, newest first, at most ten of them. */
  lemma {:induction false} ReplayKeepsMostRecent(results: seq<SimResult>)
    ensures |Replay(results)| == if |results| < MaxHistory then |results| else MaxHistory
    ensures forall i :: 0 <= i < |Replay(results)| ==> Replay(results)[i] == results[|results| - 1 - i]
    decreases |results|
  {
    if |results| > 0 {
      var front := results[..|results| - 1];
      ReplayKeepsMostRecent(front);
      var h := Replay(results);
      assert h == PushResult(Replay(front), results[|results| - 1]);
      forall i | 1 <= i < |h|
        ensures h[i] == results[|results| - 1 - i]
      {
        assert h[1..][i - 1] == h[i];
      }
    }
  }

  /** The panel's state always satisfies this: the win rate of every listed run has a non-zero denominator. */
  predicate PanelValid(p: Panel) {
    && 1 <= p.simCount <= MaxSimCount
    && |p.simResults| <= MaxHistory
    && forall i :: 0 <= i < |p.simResults| ==>
         1 <= p.simResults[i].runs <= MaxSimCount && p.simResults[i].wins <= p.simResults[i].runs
  }

  function InitialPanel(): (p: Panel)
    ensures PanelValid(p) && p.simResults == []
    ensures p.simCount == DefaultSimCount && p.strategy == Switch
  {
    Panel(DefaultSimCount, Switch, [])
  }

  /** The number input's `onChange`: the entered trial count, clamped. */
  function SetSimCount(p: Panel, parsed: Option<int>): (r: Panel)
    ensures PanelValid(p) ==> PanelValid(r)
    ensures 1 <= r.simCount <= MaxSimCount
    ensures r.strategy == p.strategy && r.simResults == p.simResults
  {
    p.(simCount := ClampSimCount(parsed))
  }

  /** The strategy toggle's `onChange`. */
  function SetStrategy(p: Panel, strategy: Strategy): (r: Panel)
    ensures PanelValid(p) ==> PanelValid(r)
    ensures r.simCount == p.simCount && r.simResults == p.simResults
    ensures r.strategy == strategy
  {
    p.(strategy := strategy)
  }

  /**
    `runSimulation`: plays one trial per entry of `trials` under the chosen
    strategy and puts the result first in the history.
   */
  method RunSimulation(p: Panel, trials: seq<Trial>) returns (r: Panel)
    requires PanelValid(p) && |trials| == p.simCount
    ensures PanelValid(r)
    ensures r.simCount == p.simCount && r.strategy == p.strategy
    ensures |r.simResults| == if |p.simResults| < MaxHistory then |p.simResults| + 1 else MaxHistory
    ensures r.simResults[0] == SimResult(|trials|, p.strategy, Wins(trials, p.strategy))
    ensures r.simResults[1..] == p.simResults[..|r.simResults| - 1]
  {
    var wins := CountWins(trials, p.strategy);
    var newResult := SimResult(p.simCount, p.strategy, wins);
    var history := PushResult(p.simResults, newResult);
    r := p.(simResults := history);
    assert forall i :: 1 <= i < |history| ==> history[i] == history[1..][i - 1] == p.simResults[i - 1];
  }
}
