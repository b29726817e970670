/** The shutdown protocol of one plant worker (internal/supervisor/supervisor.go): the
    worker loop, the request gate of each of its cycles, request callbacks running
    concurrently, and the final write-back of the plant state. Every step of every party
    may come in any order. */
module Shutdown {
  /** One cycle's gate and request context. waiting: Wait was called on the wait group;
      cancelled: the request context is cancelled; graceful: the cycle ends because the
      worker's own context was cancelled; expired: the grace period ran out;
      setupFailed: the cycle ended before its lifecycle could be built. */
  datatype Gate = Gate(
    accepting: bool,
    waiting: bool,
    cancelled: bool,
    graceful: bool,
    expired: bool,
    setupFailed: bool)

  const OPEN_GATE := Gate(true, false, false, false, false, false)

  /** A request between begin and done. */
  datatype Stage = Begun | Running | Committed | Returned | Panicked

  datatype Request = Request(gate: nat, stage: Stage)

  /** Where the worker stands. */
  datatype Pc =
    | Idle
    | Setup
    | Serving
    | Stopping
    | Hasty
    | Joined
    | Waiting
    | Finishing
    | CycleDone
    | FinalLoaded(state: int)
    | Stopped

  datatype World = World(
    pc: Pc,
    contextCancelled: bool,
    lifecycleDone: bool,
    panicPending: bool,
    gates: seq<Gate>,
    requests: map<nat, Request>,
    next: nat,
    cursor: int)

  datatype Action =
    | BeginCycle
    | SetupFails
    | StartLifecycle
    | CancelContext
    | LifecycleEnds
    | ObserveLifecycle
    | ObservePanic
    | ObserveContext
    | Join
    | CancelRequests
    | StartWait
    | Drained
    | GraceExpires
    | EndCycle
    | Restart
    | FinalLoad
    | FinalSave
    | Accept(gate: nat)
    | StartHandling(id: nat)
    | Commit(id: nat, value: int)
    | Return(id: nat)
    | Panic(id: nat)
    | Done(id: nat)

  predicate InFlight(w: World, gate: nat) {
    exists id | id in w.requests :: w.requests[id].gate == gate
  }

  predicate StageOf(w: World, id: nat, stages: set<Stage>) {
    id in w.requests && w.requests[id].stage in stages
  }

  predicate Enabled(w: World, a: Action) {
    match a
    case BeginCycle => w.pc.Idle? && !w.contextCancelled
    case SetupFails => w.pc.Setup? && w.gates != []
    case StartLifecycle => w.pc.Setup?
    case CancelContext => true
    case LifecycleEnds => w.pc.Serving? || w.pc.Stopping?
    case ObserveLifecycle => w.pc.Serving? && w.lifecycleDone && w.gates != []
    case ObservePanic => w.pc.Serving? && w.panicPending && w.gates != []
    case ObserveContext => w.pc.Serving? && w.contextCancelled && w.gates != []
    case Join => w.pc.Stopping? && w.lifecycleDone && w.gates != []
    case CancelRequests => w.pc.Hasty? && w.gates != []
    case StartWait => w.pc.Joined? && w.gates != []
    case Drained => w.pc.Waiting? && w.gates != [] && !InFlight(w, |w.gates| - 1)
    case GraceExpires => w.pc.Waiting? && w.gates != []
    case EndCycle => w.pc.Finishing? && w.gates != []
    case Restart => w.pc.CycleDone? && !w.contextCancelled
    case FinalLoad => w.pc.CycleDone? || w.pc.Idle?
    case FinalSave => w.pc.FinalLoaded?
    case Accept(gate) => gate < |w.gates| && w.gates[gate].accepting
    case StartHandling(id) => StageOf(w, id, {Begun}) && w.requests[id].gate < |w.gates|
    case Commit(id, _) => StageOf(w, id, {Running})
    case Return(id) => StageOf(w, id, {Running, Committed})
    case Panic(id) => StageOf(w, id, {Running, Committed})
    case Done(id) => StageOf(w, id, {Returned, Panicked})
  }

  function Last(w: World): nat
    requires w.gates != []
  {
    |w.gates| - 1
  }

  function SetGate(w: World, gate: Gate): World
    requires w.gates != []
  {
    w.(gates := w.gates[Last(w) := gate])
  }

  function SetStage(w: World, id: nat, stage: Stage): World
    requires id in w.requests
  {
    w.(requests := w.requests[id := w.requests[id].(stage := stage)])
  }

  function Step(w: World, a: Action): World
    requires Enabled(w, a)
  {
    match a
    case BeginCycle =>
      w.(pc := Setup, lifecycleDone := false, panicPending := false,
         gates := w.gates + [OPEN_GATE])
    case SetupFails => SetGate(w, w.gates[Last(w)].(cancelled := true, setupFailed := true)).(pc := CycleDone)
    case StartLifecycle => w.(pc := Serving)
    case CancelContext => w.(contextCancelled := true)
    case LifecycleEnds => w.(lifecycleDone := true)
    case ObserveLifecycle =>
      SetGate(w, w.gates[Last(w)].(accepting := false, graceful := w.contextCancelled))
        .(pc := if w.contextCancelled then Joined else Hasty)
    case ObservePanic => SetGate(w, w.gates[Last(w)].(accepting := false)).(pc := Stopping)
    case ObserveContext => SetGate(w, w.gates[Last(w)].(accepting := false, graceful := true)).(pc := Stopping)
    case Join => w.(pc := if w.gates[Last(w)].graceful then Joined else Hasty)
    case CancelRequests => SetGate(w, w.gates[Last(w)].(cancelled := true)).(pc := Joined)
    case StartWait => SetGate(w, w.gates[Last(w)].(waiting := true)).(pc := Waiting)
    case Drained => w.(pc := Finishing)
    case GraceExpires => SetGate(w, w.gates[Last(w)].(expired := true)).(pc := Finishing)
    case EndCycle => SetGate(w, w.gates[Last(w)].(cancelled := true)).(pc := CycleDone)
    case Restart => w.(pc := Idle)
    case FinalLoad => w.(pc := FinalLoaded(w.cursor))
    case FinalSave => w.(cursor := w.pc.state, pc := Stopped)
    case Accept(gate) => w.(requests := w.requests[w.next := Request(gate, Begun)], next := w.next + 1)
    case StartHandling(id) =>
      SetStage(w, id, if w.gates[w.requests[id].gate].cancelled then Returned else Running)
    case Commit(id, value) => SetStage(w, id, Committed).(cursor := value)
    case Return(id) => SetStage(w, id, Returned)
    case Panic(id) => SetStage(w, id, Panicked).(panicPending := w.panicPending || w.requests[id].gate + 1 == |w.gates|)
    case Done(id) => w.(requests := w.requests - {id})
  }

  // Invariant ---------------------------------------------------------------------------

  /** Between the moment a gate is closed and the end of its cycle. */
  predicate Closing(pc: Pc) {
    pc.Stopping? || pc.Hasty? || pc.Joined? || pc.Waiting? || pc.Finishing?
  }

  /** No cycle is running. */
  predicate Between(pc: Pc) {
    pc.Idle? || pc.CycleDone? || pc.FinalLoaded? || pc.Stopped?
  }

  ghost predicate RequestsGood(w: World) {
    forall id | id in w.requests :: id < w.next && w.requests[id].gate < |w.gates|
  }

  predicate GateGood(w: World, g: nat)
    requires g < |w.gates|
  {
    var gate := w.gates[g];
    && (gate.waiting ==> !gate.accepting)
    && (gate.graceful ==> !gate.accepting)
    && (gate.graceful && gate.cancelled && !gate.expired ==> !InFlight(w, g))
    && (g + 1 < |w.gates| || Between(w.pc) ==> gate.cancelled && (gate.accepting <==> gate.setupFailed))
  }

  /** The gate of the running cycle. */
  predicate CurrentGood(w: World) {
    (w.pc.Setup? || w.pc.Serving? || Closing(w.pc)) ==>
      && w.gates != []
      && var gate := w.gates[Last(w)];
         && (w.pc.Setup? || w.pc.Serving? ==> gate == OPEN_GATE)
         && (Closing(w.pc) ==> !gate.accepting && !gate.setupFailed && (gate.graceful ==> !gate.cancelled))
         && (w.pc.Hasty? ==> !gate.graceful)
         && (w.pc.Hasty? || w.pc.Joined? || w.pc.Waiting? || w.pc.Finishing? ==> w.lifecycleDone)
         && (w.pc.Joined? || w.pc.Waiting? || w.pc.Finishing? ==> (gate.graceful <==> !gate.cancelled))
         && (w.pc.Finishing? && !gate.expired ==> !InFlight(w, Last(w)))
  }

  ghost predicate Inv(w: World) {
    && RequestsGood(w)
    && CurrentGood(w)
    && forall g | 0 <= g < |w.gates| :: GateGood(w, g)
  }

  /** Steps of requests. */
  predicate ByRequest(a: Action) {
    a.Accept? || a.StartHandling? || a.Commit? || a.Return? || a.Panic? || a.Done?
  }

  /** A closed gate's in-flight set only shrinks. */
  lemma InFlightShrinks(w: World, a: Action, gate: nat)
    requires Enabled(w, a) && gate < |w.gates| && !w.gates[gate].accepting
    ensures InFlight(Step(w, a), gate) ==> InFlight(w, gate)
  {
    var w' := Step(w, a);
    if InFlight(w', gate) {
      var id :| id in w'.requests && w'.requests[id].gate == gate;
      assert id in w.requests && w.requests[id].gate == gate;
    }
  }

  lemma RequestStepKeeps(w: World, a: Action)
    requires Inv(w) && Enabled(w, a) && ByRequest(a)
    ensures Inv(Step(w, a))
  {
    var w' := Step(w, a);
    forall g | 0 <= g < |w'.gates| ensures GateGood(w', g) {
      assert GateGood(w, g);
      if !w.gates[g].accepting {
        InFlightShrinks(w, a, g);
      }
    }
    if Closing(w.pc) {
      InFlightShrinks(w, a, Last(w));
    }
  }

  lemma WorkerKeepsRequests(w: World, a: Action)
    requires RequestsGood(w) && Enabled(w, a) && !ByRequest(a)
    ensures RequestsGood(Step(w, a)) && Step(w, a).requests == w.requests
  {
  }

  lemma SameInFlight(w: World, w': World, g: nat)
    requires w'.requests == w.requests
    ensures InFlight(w', g) == InFlight(w, g)
  {
  }

  lemma GateCarriesOver(w: World, w': World, g: nat)
    requires g + 1 < |w.gates| <= |w'.gates| && w'.gates[g] == w.gates[g] && w'.requests == w.requests
    requires GateGood(w, g)
    ensures GateGood(w', g)
  {
    SameInFlight(w, w', g);
  }

  /** Gates of ended cycles are left alone. */
  lemma WorkerLeavesEarlier(w: World, a: Action, g: nat)
    requires Enabled(w, a) && !ByRequest(a) && g + 1 < |w.gates|
    ensures |w.gates| <= |Step(w, a).gates| && Step(w, a).gates[g] == w.gates[g]
    ensures Step(w, a).requests == w.requests
  {
  }

  lemma WorkerKeepsEarlier(w: World, a: Action, g: nat)
    requires Enabled(w, a) && !ByRequest(a) && g + 1 < |w.gates| && GateGood(w, g)
    ensures g + 1 < |Step(w, a).gates| && GateGood(Step(w, a), g)
  {
    WorkerLeavesEarlier(w, a, g);
    GateCarriesOver(w, Step(w, a), g);
  }

  /** The gate of the running cycle, or of the last one, four kinds of step at a time. */
  lemma StartKeepsLast(w: World, a: Action)
    requires CurrentGood(w) && Enabled(w, a) && w.gates != [] && GateGood(w, Last(w))
    requires a.SetupFails? || a.StartLifecycle? || a.CancelContext? || a.LifecycleEnds?
    ensures Last(w) < |Step(w, a).gates| && GateGood(Step(w, a), Last(w))
  {
    SameInFlight(w, Step(w, a), Last(w));
    match a
    case SetupFails =>
    case StartLifecycle =>
    case CancelContext =>
    case LifecycleEnds =>
    case _ =>
  }

  lemma CloseKeepsLast(w: World, a: Action)
    requires CurrentGood(w) && Enabled(w, a) && w.gates != [] && GateGood(w, Last(w))
    requires a.ObserveLifecycle? || a.ObservePanic? || a.ObserveContext? || a.Join?
    ensures Last(w) < |Step(w, a).gates| && GateGood(Step(w, a), Last(w))
  {
    SameInFlight(w, Step(w, a), Last(w));
    match a
    case ObserveLifecycle =>
    case ObservePanic =>
    case ObserveContext =>
    case Join =>
    case _ =>
  }

  lemma DrainKeepsLast(w: World, a: Action)
    requires CurrentGood(w) && Enabled(w, a) && w.gates != [] && GateGood(w, Last(w))
    requires a.CancelRequests? || a.StartWait? || a.Drained? || a.GraceExpires?
    ensures Last(w) < |Step(w, a).gates| && GateGood(Step(w, a), Last(w))
  {
    SameInFlight(w, Step(w, a), Last(w));
    match a
    case CancelRequests =>
    case StartWait =>
    case Drained =>
    case GraceExpires =>
    case _ =>
  }

  lemma EndKeepsLast(w: World, a: Action)
    requires CurrentGood(w) && Enabled(w, a) && w.gates != [] && GateGood(w, Last(w))
    requires a.EndCycle? || a.Restart? || a.FinalLoad? || a.FinalSave?
    ensures Last(w) < |Step(w, a).gates| && GateGood(Step(w, a), Last(w))
  {
    SameInFlight(w, Step(w, a), Last(w));
    match a
    case EndCycle =>
    case Restart =>
    case FinalLoad =>
    case FinalSave =>
    case _ =>
  }

  lemma WorkerKeepsLast(w: World, a: Action)
    requires CurrentGood(w) && Enabled(w, a) && !ByRequest(a) && w.gates != [] && GateGood(w, Last(w))
    ensures Last(w) < |Step(w, a).gates| && GateGood(Step(w, a), Last(w))
  {
    if a.BeginCycle? {
      SameInFlight(w, Step(w, a), Last(w));
    } else if a.SetupFails? || a.StartLifecycle? || a.CancelContext? || a.LifecycleEnds? {
      StartKeepsLast(w, a);
    } else if a.ObserveLifecycle? || a.ObservePanic? || a.ObserveContext? || a.Join? {
      CloseKeepsLast(w, a);
    } else if a.CancelRequests? || a.StartWait? || a.Drained? || a.GraceExpires? {
      DrainKeepsLast(w, a);
    } else {
      EndKeepsLast(w, a);
    }
  }

  lemma NewGateGood(w: World)
    requires RequestsGood(w) && Enabled(w, BeginCycle)
    ensures GateGood(Step(w, BeginCycle), |w.gates|)
  {
    assert !InFlight(w, |w.gates|);
    SameInFlight(w, Step(w, BeginCycle), |w.gates|);
  }

  lemma WorkerKeepsGates(w: World, a: Action, g: nat)
    requires Inv(w) && Enabled(w, a) && !ByRequest(a) && g < |Step(w, a).gates|
    ensures GateGood(Step(w, a), g)
  {
    if g + 1 < |w.gates| {
      WorkerKeepsEarlier(w, a, g);
    } else if g < |w.gates| {
      WorkerKeepsLast(w, a);
    } else {
      NewGateGood(w);
    }
  }

  lemma StartKeepsCurrent(w: World, a: Action)
    requires CurrentGood(w) && Enabled(w, a)
    requires a.SetupFails? || a.StartLifecycle? || a.CancelContext? || a.LifecycleEnds?
    ensures CurrentGood(Step(w, a))
  {
    if w.gates != [] {
      SameInFlight(w, Step(w, a), Last(w));
    }
    match a
    case SetupFails =>
    case StartLifecycle =>
    case CancelContext =>
    case LifecycleEnds =>
    case _ =>
  }

  lemma CloseKeepsCurrent(w: World, a: Action)
    requires CurrentGood(w) && Enabled(w, a)
    requires a.ObserveLifecycle? || a.ObservePanic? || a.ObserveContext? || a.Join?
    ensures CurrentGood(Step(w, a))
  {
    if w.gates != [] {
      SameInFlight(w, Step(w, a), Last(w));
    }
    match a
    case ObserveLifecycle =>
    case ObservePanic =>
    case ObserveContext =>
    case Join =>
    case _ =>
  }

  lemma DrainKeepsCurrent(w: World, a: Action)
    requires CurrentGood(w) && Enabled(w, a)
    requires a.CancelRequests? || a.StartWait? || a.Drained? || a.GraceExpires?
    ensures CurrentGood(Step(w, a))
  {
    if w.gates != [] {
      SameInFlight(w, Step(w, a), Last(w));
    }
    match a
    case CancelRequests =>
    case StartWait =>
    case Drained =>
    case GraceExpires =>
    case _ =>
  }

  lemma EndKeepsCurrent(w: World, a: Action)
    requires CurrentGood(w) && Enabled(w, a)
    requires a.EndCycle? || a.Restart? || a.FinalLoad? || a.FinalSave?
    ensures CurrentGood(Step(w, a))
  {
    if w.gates != [] {
      SameInFlight(w, Step(w, a), Last(w));
    }
    match a
    case EndCycle =>
    case Restart =>
    case FinalLoad =>
    case FinalSave =>
    case _ =>
  }

  lemma WorkerKeepsCurrent(w: World, a: Action)
    requires CurrentGood(w) && Enabled(w, a) && !ByRequest(a)
    ensures CurrentGood(Step(w, a))
  {
    if a.BeginCycle? {
    } else if a.SetupFails? || a.StartLifecycle? || a.CancelContext? || a.LifecycleEnds? {
      StartKeepsCurrent(w, a);
    } else if a.ObserveLifecycle? || a.ObservePanic? || a.ObserveContext? || a.Join? {
      CloseKeepsCurrent(w, a);
    } else if a.CancelRequests? || a.StartWait? || a.Drained? || a.GraceExpires? {
      DrainKeepsCurrent(w, a);
    } else {
      EndKeepsCurrent(w, a);
    }
  }

  lemma WorkerStepKeeps(w: World, a: Action)
    requires Inv(w) && Enabled(w, a) && !ByRequest(a)
    ensures Inv(Step(w, a))
  {
    WorkerKeepsRequests(w, a);
    WorkerKeepsCurrent(w, a);
    var w' := Step(w, a);
    forall g | 0 <= g < |w'.gates| ensures GateGood(w', g) {
      WorkerKeepsGates(w, a, g);
    }
  }

  lemma StepKeeps(w: World, a: Action)
    requires Inv(w) && Enabled(w, a)
    ensures Inv(Step(w, a))
  {
    if ByRequest(a) {
      RequestStepKeeps(w, a);
    } else {
      WorkerStepKeeps(w, a);
    }
  }

  // Whole runs -----------------------------------------------------------------------------

  predicate Runs(w: World, actions: seq<Action>)
    decreases |actions|, 0
  {
    actions == []
    || (Runs(w, actions[..|actions| - 1]) && Enabled(After(w, actions[..|actions| - 1]), actions[|actions| - 1]))
  }

  function After(w: World, actions: seq<Action>): World
    requires Runs(w, actions)
    decreases |actions|, 1
  {
    if actions == [] then w else Step(After(w, actions[..|actions| - 1]), actions[|actions| - 1])
  }

  function Start(cursor: int): World {
    World(Idle, false, false, false, [], map[], 0, cursor)
  }

  lemma {:induction false} RunKeeps(w: World, actions: seq<Action>)
    requires Inv(w) && Runs(w, actions)
    ensures Inv(After(w, actions))
    decreases |actions|
  {
    if actions != [] {
      var before := actions[..|actions| - 1];
      RunKeeps(w, before);
      StepKeeps(After(w, before), actions[|actions| - 1]);
    }
  }

  /** Every request holding a slot of the gate later held one already. */
  ghost predicate OnlyEarlier(earlier: World, later: World, gate: nat) {
    forall id | id in later.requests && later.requests[id].gate == gate ::
      id in earlier.requests && earlier.requests[id].gate == gate
  }

  lemma RequestLeavesGates(w: World, a: Action)
    requires Enabled(w, a) && ByRequest(a)
    ensures Step(w, a).gates == w.gates && Step(w, a).pc == w.pc
    ensures forall id | id in Step(w, a).requests ::
              (a.Accept? && id == w.next) || (id in w.requests && w.requests[id].gate == Step(w, a).requests[id].gate)
  {
  }

  lemma WorkerLeavesRequests(w: World, a: Action, gate: nat)
    requires Enabled(w, a) && !ByRequest(a) && gate < |w.gates| && !w.gates[gate].accepting
    ensures Step(w, a).requests == w.requests
    ensures gate < |Step(w, a).gates| && !Step(w, a).gates[gate].accepting
  {
    match a
    case BeginCycle =>
    case SetupFails =>
    case ObserveLifecycle =>
    case ObservePanic =>
    case ObserveContext =>
    case CancelRequests =>
    case StartWait =>
    case GraceExpires =>
    case EndCycle =>
    case _ =>
  }

  lemma ClosedStep(w: World, a: Action, gate: nat)
    requires Enabled(w, a) && gate < |w.gates| && !w.gates[gate].accepting
    ensures gate < |Step(w, a).gates| && !Step(w, a).gates[gate].accepting
    ensures OnlyEarlier(w, Step(w, a), gate)
  {
    if ByRequest(a) {
      RequestLeavesGates(w, a);
    } else {
      WorkerLeavesRequests(w, a, gate);
    }
  }

  /** Once a gate is closed, it stays closed, no request is ever accepted through it, and
      the requests holding its slots only get fewer. */
  lemma {:induction false} NothingAcceptedAfterClose(w: World, actions: seq<Action>, gate: nat, end: World)
    requires Runs(w, actions) && end == After(w, actions) && gate < |w.gates| && !w.gates[gate].accepting
    ensures gate < |end.gates| && !end.gates[gate].accepting && OnlyEarlier(w, end, gate)
    decreases |actions|
  {
    if actions != [] {
      var before := actions[..|actions| - 1];
      NothingAcceptedAfterClose(w, before, gate, After(w, before));
      ClosedStep(After(w, before), actions[|actions| - 1], gate);
    }
  }

  function Remaining(stage: Stage): nat {
    match stage
    case Begun => 4
    case Running => 3
    case Committed => 2
    case Returned => 1
    case Panicked => 1
  }

  /** The request an action belongs to. */
  predicate StepOf(a: Action, id: nat) {
    (a.StartHandling? || a.Commit? || a.Return? || a.Panic? || a.Done?) && a.id == id
  }

  /** A request is never stuck, whether it returns, panics or finds its context cancelled. */
  lemma RequestNeverStuck(w: World, id: nat) returns (own: Action)
    requires Inv(w) && id in w.requests
    ensures StepOf(own, id) && Enabled(w, own)
  {
    own := match w.requests[id].stage
      case Begun => StartHandling(id)
      case Running => Return(id)
      case Committed => Return(id)
      case Returned => Done(id)
      case Panicked => Done(id);
  }

  lemma WorkerLeavesAll(w: World, a: Action)
    requires Enabled(w, a) && !ByRequest(a)
    ensures Step(w, a).requests == w.requests
  {
  }

  lemma OwnStepAdvances(w: World, id: nat, a: Action)
    requires Enabled(w, a) && StepOf(a, id)
    ensures id in w.requests
    ensures id in Step(w, a).requests ==> Remaining(Step(w, a).requests[id].stage) < Remaining(w.requests[id].stage)
  {
  }

  lemma OthersLeave(w: World, id: nat, a: Action)
    requires Enabled(w, a) && ByRequest(a) && !StepOf(a, id) && id in w.requests && id < w.next
    ensures id in Step(w, a).requests && Step(w, a).requests[id] == w.requests[id]
  {
  }

  /** Every own step brings it nearer to giving its slot back, and nobody else's step takes
      it back, so each slot is released after at most four own steps. */
  lemma SlotIsReleased(w: World, id: nat, a: Action)
    requires Inv(w) && id in w.requests && Enabled(w, a)
    ensures StepOf(a, id) ==>
              id !in Step(w, a).requests || Remaining(Step(w, a).requests[id].stage) < Remaining(w.requests[id].stage)
    ensures !StepOf(a, id) ==> id in Step(w, a).requests && Step(w, a).requests[id] == w.requests[id]
  {
    if StepOf(a, id) {
      OwnStepAdvances(w, id, a);
    } else if ByRequest(a) {
      OthersLeave(w, id, a);
    } else {
      WorkerLeavesAll(w, a);
    }
  }

  // Cycles that fail during setup ----------------------------------------------------------

  lemma EndedGate(w: World, gate: nat)
    requires Inv(w) && gate < |w.gates| && (gate + 1 < |w.gates| || Between(w.pc))
    ensures w.gates[gate].cancelled && (w.gates[gate].accepting <==> w.gates[gate].setupFailed)
  {
    assert GateGood(w, gate);
  }

  // The final write-back ------------------------------------------------------------------------

  /** No request can still commit. */
  ghost predicate Quiet(w: World) {
    forall id | id in w.requests :: !w.requests[id].stage.Running?
  }

  ghost predicate ShuttingDown(w: World) {
    && Inv(w) && Quiet(w) && w.contextCancelled
    && (w.pc.CycleDone? || w.pc.Idle? || w.pc.FinalLoaded? || w.pc.Stopped?)
    && (w.pc.FinalLoaded? ==> w.pc.state == w.cursor)
  }

  lemma ShuttingDownStep(w: World, a: Action)
    requires ShuttingDown(w) && Enabled(w, a)
    ensures ShuttingDown(Step(w, a)) && Step(w, a).cursor == w.cursor
  {
    StepKeeps(w, a);
    if a.StartHandling? {
      assert GateGood(w, w.requests[a.id].gate);
    }
  }

  /** When the last cycle has ended on a cancelled context and no request is running, the
      stored cursor keeps its value for ever, across the final load and save, although
      callbacks of any cycle may still be begun, returned or panic. */
  lemma {:induction false} FinalPersistHarmless(w: World, actions: seq<Action>)
    requires ShuttingDown(w) && Runs(w, actions)
    ensures ShuttingDown(After(w, actions)) && After(w, actions).cursor == w.cursor
    decreases |actions|
  {
    if actions != [] {
      var before := actions[..|actions| - 1];
      FinalPersistHarmless(w, before);
      ShuttingDownStep(After(w, before), actions[|actions| - 1]);
    }
  }

  /** A cycle whose gate drained ends that way, provided no request of an earlier cycle
      is still running. */
  lemma DrainedEndsQuiet(w: World)
    requires Inv(w) && w.pc.Finishing? && !w.gates[Last(w)].expired && w.contextCancelled
    requires forall id | id in w.requests && w.requests[id].stage.Running? :: w.requests[id].gate == Last(w)
    ensures ShuttingDown(Step(w, EndCycle))
  {
    assert !InFlight(w, Last(w));
    WorkerStepKeeps(w, EndCycle);
  }

  /** One more step of a run. */
  lemma Extend(start: World, actions: seq<Action>, w: World, a: Action) returns (more: seq<Action>)
    requires Runs(start, actions) && w == After(start, actions) && Enabled(w, a)
    ensures more == actions + [a] && Runs(start, more) && After(start, more) == Step(w, a)
  {
    more := actions + [a];
    assert more[..|actions|] == actions;
  }

  /** Conversely, a request still running when the worker shuts down can always lose its
      commit: the final save writes back the cursor read before. */
  lemma RunningRequestLosesCommit(w: World, id: nat, value: int) returns (race: seq<Action>)
    requires w.pc.CycleDone? && StageOf(w, id, {Running})
    ensures race == [FinalLoad, Commit(id, value), FinalSave]
    ensures Runs(w, race) && After(w, race).cursor == w.cursor
  {
    var w1 := Step(w, FinalLoad);
    var w2 := Step(w1, Commit(id, value));
    race := Extend(w, [], w, FinalLoad);
    race := Extend(w, race, w1, Commit(id, value));
    race := Extend(w, race, w2, FinalSave);
  }

  /** Such a worker is reachable: the context is cancelled while a request runs and the
      grace period expires. */
  lemma GraceCanExpire(cursor: int) returns (actions: seq<Action>)
    ensures Runs(Start(cursor), actions)
    ensures var w := After(Start(cursor), actions);
            w.pc.CycleDone? && w.contextCancelled && StageOf(w, 0, {Running}) && w.cursor == cursor
  {
    var start := Start(cursor);
    var w1 := Step(start, BeginCycle);
    var w2 := Step(w1, StartLifecycle);
    var w3 := Step(w2, Accept(0));
    actions := Extend(start, [], start, BeginCycle);
    actions := Extend(start, actions, w1, StartLifecycle);
    actions := Extend(start, actions, w2, Accept(0));
    actions := Extend(start, actions, w3, StartHandling(0));
    actions := CancelAndExpire(start, actions, Step(w3, StartHandling(0)));
  }

  lemma CancelAndExpire(start: World, served: seq<Action>, w: World) returns (actions: seq<Action>)
    requires Runs(start, served) && w == After(start, served)
    requires w.pc.Serving? && |w.gates| == 1 && StageOf(w, 0, {Running}) && w.cursor == start.cursor
    ensures Runs(start, actions)
    ensures var end := After(start, actions);
            end.pc.CycleDone? && end.contextCancelled && StageOf(end, 0, {Running}) && end.cursor == start.cursor
  {
    var w1 := Step(w, CancelContext);
    var w2 := Step(w1, ObserveContext);
    var w3 := Step(w2, LifecycleEnds);
    actions := Extend(start, served, w, CancelContext);
    actions := Extend(start, actions, w1, ObserveContext);
    actions := Extend(start, actions, w2, LifecycleEnds);
    actions := Extend(start, actions, w3, Join);
    actions := Expire(start, actions, Step(w3, Join));
  }

  lemma Expire(start: World, joined: seq<Action>, w: World) returns (actions: seq<Action>)
    requires Runs(start, joined) && w == After(start, joined)
    requires w.pc.Joined? && w.contextCancelled && w.gates != [] && StageOf(w, 0, {Running}) && w.cursor == start.cursor
    ensures Runs(start, actions)
    ensures var end := After(start, actions);
            end.pc.CycleDone? && end.contextCancelled && StageOf(end, 0, {Running}) && end.cursor == start.cursor
  {
    var w1 := Step(w, StartWait);
    var w2 := Step(w1, GraceExpires);
    actions := Extend(start, joined, w, StartWait);
    actions := Extend(start, actions, w1, GraceExpires);
    actions := Extend(start, actions, w2, EndCycle);
  }
}
