/** The game's turn loop: the run-state machine stepped once per frame by
    `tick`, and the fixed order of passes in `run_systems`. */
module Turn {
  import opened Ecs
  import opened Components
  import opened Inventory

  /** The `RunState` resource. */
  datatype RunState = AwaitingInput | PreRun | PlayerTurn | MonsterTurn

  /** The steps a tick can run. Only item collection is modelled on the
      world; the others are recorded in the order they run. */
  datatype Pass =
    | Visibility | MonsterAI | MapIndexing | MeleeCombat | Damage
    | ItemCollection | Maintain | DeleteTheDead

  /** `run_systems`: the passes in the order they run, ending with the
      world's maintenance step. */
  function Pipeline(): seq<Pass>
  {
    [Visibility, MonsterAI, MapIndexing, MeleeCombat, Damage, ItemCollection, Maintain]
  }

  /** What the input handler does on a tick that awaits input: the run
      state it answers, and the positions, log and intent tables it leaves
      behind (it moves the player, queues the player's intents and logs
      messages). */
  datatype Input = Input(
    next: RunState,
    positions: map<Entity, Point>,
    log: seq<LogEntry>,
    wantsPickup: map<Entity, WantsToPickupItem>,
    wantsUse: map<Entity, WantsToUseItem>,
    wantsDrop: map<Entity, Entity>)

  /** Whether a tick in state `s` runs the pipeline. */
  predicate RunsPipeline(s: RunState)
  {
    s != AwaitingInput
  }

  /** The transition match of `tick`; `input` is what the input handler
      returns when the game awaits input. */
  function NextRunState(s: RunState, input: RunState): RunState
  {
    match s
    case PreRun => AwaitingInput
    case AwaitingInput => input
    case PlayerTurn => MonsterTurn
    case MonsterTurn => AwaitingInput
  }

  /** The passes one tick runs from state `s`: the pipeline when the state
      calls for it, then the dead-entity sweep, which runs on every tick. */
  function TickPasses(s: RunState): seq<Pass>
  {
    (if RunsPipeline(s) then Pipeline() else []) + [DeleteTheDead]
  }

  /** The states a run passes through, starting in `s`, when the input
      handler returns `inputs` in turn (one input per tick; it is only
      consulted while awaiting input). */
  function Trace(s: RunState, inputs: seq<RunState>): (t: seq<RunState>)
    ensures |t| == |inputs| + 1 && t[0] == s
    decreases |inputs|
  {
    if inputs == [] then [s] else [s] + Trace(NextRunState(s, inputs[0]), inputs[1..])
  }

  /** The passes a run executes along the trace of `s` and `inputs`. */
  function TracePasses(s: RunState, inputs: seq<RunState>): seq<Pass>
    decreases |inputs|
  {
    if inputs == [] then [] else TickPasses(s) + TracePasses(NextRunState(s, inputs[0]), inputs[1..])
  }

  /** Every tick's state follows from the one before by the transition
      match. */
  lemma {:induction false} TraceSteps(s: RunState, inputs: seq<RunState>, k: int)
    requires 0 <= k < |inputs|
    ensures Trace(s, inputs)[k + 1] == NextRunState(Trace(s, inputs)[k], inputs[k])
    decreases |inputs|
  {
    if k > 0 {
      TraceSteps(NextRunState(s, inputs[0]), inputs[1..], k - 1);
    }
  }

  /** A player turn is always followed by a monster turn, a monster turn
      always by awaiting input, and a monster turn is only ever entered from
      a player turn, or from awaiting input when the input handler itself
      answers `MonsterTurn`. */
  lemma MonsterTurnFollowsPlayerTurn(s: RunState, inputs: seq<RunState>, k: int)
    requires 0 <= k < |inputs|
    ensures Trace(s, inputs)[k] == PlayerTurn ==> Trace(s, inputs)[k + 1] == MonsterTurn
    ensures Trace(s, inputs)[k] == MonsterTurn ==> Trace(s, inputs)[k + 1] == AwaitingInput
    ensures Trace(s, inputs)[k + 1] == MonsterTurn <==>
      Trace(s, inputs)[k] == PlayerTurn || (Trace(s, inputs)[k] == AwaitingInput && inputs[k] == MonsterTurn)
  {
    TraceSteps(s, inputs, k);
  }

  /** Whatever the input handler answers, one of the first three states of a
      run awaits input: from any other state the game awaits input again
      within two ticks. */
  lemma {:induction false} BackToInput(s: RunState, inputs: seq<RunState>)
    requires |inputs| >= 2
    ensures AwaitingInput in Trace(s, inputs)[..3]
    ensures s != AwaitingInput ==> AwaitingInput in Trace(s, inputs)[1..3]
  {
    var t := Trace(s, inputs);
    TraceSteps(s, inputs, 0);
    TraceSteps(s, inputs, 1);
    if s != AwaitingInput && t[1] != AwaitingInput {
      assert s == PlayerTurn && t[1] == MonsterTurn;
      assert t[2] == AwaitingInput;
    }
  }

  /** `PreRun` is left on the first tick and never entered again unless the
      input handler answers it. */
  lemma {:induction false} PreRunOnlyFirst(s: RunState, inputs: seq<RunState>, k: int)
    requires PreRun !in inputs && 0 < k < |Trace(s, inputs)|
    ensures Trace(s, inputs)[k] != PreRun
  {
    TraceSteps(s, inputs, k - 1);
  }

  /** Over a run, the passes executed are the pipeline once for every tick
      not spent awaiting input, plus the dead-entity sweep once per tick. */
  lemma {:induction false} TracePassesCount(s: RunState, inputs: seq<RunState>)
    ensures |TracePasses(s, inputs)| == |inputs| + |Pipeline()| * PipelineTicks(Trace(s, inputs)[..|inputs|])
    decreases |inputs|
  {
    if inputs != [] {
      var next := NextRunState(s, inputs[0]);
      var rest := inputs[1..];
      TracePassesCount(next, rest);
      assert Trace(s, inputs)[..|inputs|] == [s] + Trace(next, rest)[..|rest|];
      assert ([s] + Trace(next, rest)[..|rest|])[1..] == Trace(next, rest)[..|rest|];
    }
  }

  /** The dead-entity sweep runs exactly once per tick, whatever the state. */
  lemma {:induction false} SweepEveryTick(s: RunState, inputs: seq<RunState>)
    ensures multiset(TracePasses(s, inputs))[DeleteTheDead] == |inputs|
    decreases |inputs|
  {
    if inputs != [] {
      var rest := TracePasses(NextRunState(s, inputs[0]), inputs[1..]);
      SweepEveryTick(NextRunState(s, inputs[0]), inputs[1..]);
      TickSweepsOnce(s);
      assert multiset(TickPasses(s) + rest) == multiset(TickPasses(s)) + multiset(rest);
    }
  }

  /** One tick runs the sweep once. */
  lemma TickSweepsOnce(s: RunState)
    ensures multiset(TickPasses(s))[DeleteTheDead] == 1
  {
    assert multiset(Pipeline())[DeleteTheDead] == 0;
  }

  /** The number of ticks among `states` that run the pipeline. */
  function PipelineTicks(states: seq<RunState>): nat
  {
    if states == [] then 0 else (if RunsPipeline(states[0]) then 1 else 0) + PipelineTicks(states[1..])
  }

  /** `State`: the world and its `RunState` resource. `passes` records the
      steps run so far, in order. */
  class State {
    const ecs: World
    var runState: RunState
    var passes: seq<Pass>

    constructor (ecs: World, runState: RunState)
      ensures this.ecs == ecs && this.runState == runState && passes == []
    {
      this.ecs := ecs;
      this.runState := runState;
      passes := [];
    }

    /** `State::run_systems`: the passes in pipeline order. Item collection
        runs on the world, and aborts the tick when the player picks up an
        unnamed item. The other passes are only recorded: their writes to
        the world are not part of this model. */
    method RunSystems() returns (ok: bool)
      modifies this`passes, ecs`positions, ecs`backpack, ecs`log, ecs`wantsPickup
      ensures ok <==> PickupsNamed(Pending(old(ecs.wantsPickup)), ecs.player, ecs.names)
      ensures ok ==> passes == old(passes) + Pipeline()
      ensures ok ==>
        var ps := Pending(old(ecs.wantsPickup));
        && ecs.positions == old(ecs.positions) - PickedItems(ps)
        && ecs.backpack == Stowed(old(ecs.backpack), ps)
        && ecs.log == old(ecs.log) + PickupLog(ps, ecs.player, ecs.names)
        && ecs.wantsPickup == map[]
    {
      passes := passes + [Visibility, MonsterAI, MapIndexing, MeleeCombat, Damage];
      ok := CollectItems(ecs);
      if !ok {
        return;
      }
      passes := passes + [ItemCollection, Maintain];
    }

    /** The input handler's writes to the world, as `input` gives them. */
    method ApplyInput(input: Input)
      modifies ecs`positions, ecs`log, ecs`wantsPickup, ecs`wantsUse, ecs`wantsDrop
      ensures ecs.positions == input.positions && ecs.log == input.log
      ensures ecs.wantsPickup == input.wantsPickup && ecs.wantsUse == input.wantsUse
      ensures ecs.wantsDrop == input.wantsDrop
    {
      ecs.positions, ecs.log := input.positions, input.log;
      ecs.wantsPickup, ecs.wantsUse, ecs.wantsDrop := input.wantsPickup, input.wantsUse, input.wantsDrop;
    }

    /** `GameState::tick` without drawing: runs the pipeline when the state
        calls for it, or lets the input handler act while awaiting input;
        moves to the next state, writes it back and sweeps the dead. An abort
        inside the pipeline ends the tick. */
    method Tick(input: Input) returns (ok: bool)
      modifies this`runState, this`passes
      modifies ecs`positions, ecs`backpack, ecs`log, ecs`wantsPickup, ecs`wantsUse, ecs`wantsDrop
      ensures ok <==> !RunsPipeline(old(runState)) || PickupsNamed(Pending(old(ecs.wantsPickup)), ecs.player, ecs.names)
      ensures ok ==> runState == NextRunState(old(runState), input.next)
      ensures ok ==> passes == old(passes) + TickPasses(old(runState))
      ensures !RunsPipeline(old(runState)) ==>
        && ecs.positions == input.positions && ecs.log == input.log
        && ecs.wantsPickup == input.wantsPickup && ecs.wantsUse == input.wantsUse
        && ecs.wantsDrop == input.wantsDrop && ecs.backpack == old(ecs.backpack)
      ensures RunsPipeline(old(runState)) && ok ==>
        var ps := Pending(old(ecs.wantsPickup));
        && ecs.positions == old(ecs.positions) - PickedItems(ps)
        && ecs.backpack == Stowed(old(ecs.backpack), ps)
        && ecs.log == old(ecs.log) + PickupLog(ps, ecs.player, ecs.names)
        && ecs.wantsPickup == map[]
        && ecs.wantsUse == old(ecs.wantsUse) && ecs.wantsDrop == old(ecs.wantsDrop)
    {
      var next := runState;
      ok := true;
      match runState {
        case PreRun =>
          ok := RunSystems();
          next := AwaitingInput;
        case AwaitingInput =>
          ApplyInput(input);
          next := input.next;
        case PlayerTurn =>
          ok := RunSystems();
          next := MonsterTurn;
        case MonsterTurn =>
          ok := RunSystems();
          next := AwaitingInput;
      }
      if !ok {
        return;
      }
      runState := next;
      passes := passes + [DeleteTheDead];
    }
  }
}
