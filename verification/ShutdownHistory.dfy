/** What a worker's past steps say about its state: every flag of the shutdown protocol
    read off the actions of the run, and the promises of the protocol stated on actions
    alone. Cycles are numbered by their BeginCycle, requests by their Accept. */
module ShutdownHistory {
  import opened Bytes
  import opened Shutdown

  // What happened --------------------------------------------------------------------------

  /** How many cycles have begun. */
  function Begun(actions: seq<Action>): nat {
    if actions == [] then 0
    else Begun(actions[..|actions| - 1]) + if actions[|actions| - 1].BeginCycle? then 1 else 0
  }

  /** The action occurred while g was the latest cycle. */
  predicate InCycle(actions: seq<Action>, g: nat, a: Action) {
    actions != []
    && var before := actions[..|actions| - 1];
       InCycle(before, g, a) || (actions[|actions| - 1] == a && Begun(before) == g + 1)
  }

  /** The worker has closed the gate of cycle g. */
  predicate Closed(actions: seq<Action>, g: nat) {
    InCycle(actions, g, ObserveLifecycle) || InCycle(actions, g, ObservePanic) || InCycle(actions, g, ObserveContext)
  }

  /** Cycle g ended because the worker's context was cancelled: it observed the
      cancellation itself, or the end of its lifecycle after the cancellation. */
  predicate EndsGracefully(actions: seq<Action>, g: nat) {
    actions != []
    && var before, a := actions[..|actions| - 1], actions[|actions| - 1];
       EndsGracefully(before, g)
       || (Begun(before) == g + 1 && (a.ObserveContext? || a.ObserveLifecycle?) && CancelContext in before)
  }

  /** The request context of cycle g is cancelled. */
  predicate ContextEnded(actions: seq<Action>, g: nat) {
    InCycle(actions, g, SetupFails) || InCycle(actions, g, CancelRequests) || InCycle(actions, g, EndCycle)
  }

  /** The gates through which requests were accepted, in order. */
  function Accepted(actions: seq<Action>): seq<nat> {
    if actions == [] then []
    else
      var a := actions[|actions| - 1];
      Accepted(actions[..|actions| - 1]) + if a.Accept? then [a.gate] else []
  }

  /** A request of the latest cycle has panicked. */
  predicate PanicSeen(actions: seq<Action>) {
    actions != []
    && var before, a := actions[..|actions| - 1], actions[|actions| - 1];
       !a.BeginCycle?
       && (PanicSeen(before)
           || (a.Panic? && a.id < |Accepted(before)| && Accepted(before)[a.id] + 1 == Begun(before)))
  }

  /** The request was started before its context was cancelled. */
  predicate Ran(actions: seq<Action>, id: nat) {
    actions != []
    && var before := actions[..|actions| - 1];
       Ran(before, id)
       || (actions[|actions| - 1] == StartHandling(id)
           && id < |Accepted(before)| && !ContextEnded(before, Accepted(before)[id]))
  }

  predicate HasCommitted(actions: seq<Action>, id: nat) {
    actions != []
    && var a := actions[|actions| - 1];
       HasCommitted(actions[..|actions| - 1], id) || (a.Commit? && a.id == id)
  }

  /** The request has taken some step of its own. */
  predicate Touched(actions: seq<Action>, id: nat) {
    actions != [] && (Touched(actions[..|actions| - 1], id) || StepOf(actions[|actions| - 1], id))
  }

  /** The run up to its latest FinalLoad. */
  function UpToLoad(actions: seq<Action>): (earlier: seq<Action>)
    ensures |earlier| < |actions| || earlier == actions == []
  {
    if actions == [] then []
    else
      var before := actions[..|actions| - 1];
      if actions[|actions| - 1].FinalLoad? then before else UpToLoad(before)
  }

  /** The stored cursor: that of the latest commit, except that a final save puts back what
      the final load before it found. */
  function Stored(cursor: int, actions: seq<Action>): int
    decreases |actions|
  {
    if actions == [] then cursor
    else
      var before, a := actions[..|actions| - 1], actions[|actions| - 1];
      if a.Commit? then a.value
      else if a.FinalSave? then Stored(cursor, UpToLoad(before))
      else Stored(cursor, before)
  }

  /** The worker's own latest step. */
  function Latest(actions: seq<Action>): Option<Action> {
    if actions == [] then None
    else
      var a := actions[|actions| - 1];
      if ByRequest(a) || a.CancelContext? || a.LifecycleEnds? then Latest(actions[..|actions| - 1]) else Some(a)
  }

  /** The cycle that began last ends gracefully. */
  predicate LatestGraceful(actions: seq<Action>) {
    Begun(actions) > 0 && EndsGracefully(actions, Begun(actions) - 1)
  }

  /** The action occurred since the latest cycle began. */
  predicate Lately(actions: seq<Action>, a: Action) {
    Begun(actions) > 0 && InCycle(actions, Begun(actions) - 1, a)
  }

  // The flags read off the past ------------------------------------------------------------

  predicate GateTold(actions: seq<Action>, g: nat, gate: Gate) {
    && (gate.accepting <==> !Closed(actions, g))
    && (gate.waiting <==> InCycle(actions, g, StartWait))
    && (gate.cancelled <==> ContextEnded(actions, g))
    && (gate.graceful <==> EndsGracefully(actions, g))
    && (gate.expired <==> InCycle(actions, g, GraceExpires))
    && (gate.setupFailed <==> InCycle(actions, g, SetupFails))
  }

  predicate WorkerTold(actions: seq<Action>, w: World) {
    && |w.gates| == Begun(actions)
    && (w.contextCancelled <==> CancelContext in actions)
    && (w.lifecycleDone <==> Lately(actions, LifecycleEnds))
    && (w.panicPending <==> PanicSeen(actions))
  }

  ghost predicate GatesTold(actions: seq<Action>, w: World) {
    forall g | 0 <= g < |w.gates| :: GateTold(actions, g, w.gates[g])
  }

  /** A cycle not yet begun has no past. */
  lemma {:induction false} NotBegun(actions: seq<Action>, g: nat, a: Action)
    requires Begun(actions) <= g
    ensures !InCycle(actions, g, a)
    decreases |actions|
  {
    if actions != [] {
      NotBegun(actions[..|actions| - 1], g, a);
    }
  }

  lemma {:induction false} NoEndYet(actions: seq<Action>, g: nat)
    requires Begun(actions) <= g
    ensures !EndsGracefully(actions, g)
    decreases |actions|
  {
    if actions != [] {
      NoEndYet(actions[..|actions| - 1], g);
    }
  }

  lemma FreshGate(actions: seq<Action>, g: nat)
    requires Begun(actions) <= g
    ensures GateTold(actions, g, OPEN_GATE)
  {
    NotBegun(actions, g, ObserveLifecycle);
    NotBegun(actions, g, ObservePanic);
    NotBegun(actions, g, ObserveContext);
    NotBegun(actions, g, StartWait);
    NotBegun(actions, g, SetupFails);
    NotBegun(actions, g, CancelRequests);
    NotBegun(actions, g, EndCycle);
    NotBegun(actions, g, GraceExpires);
    NoEndYet(actions, g);
  }

  /** Steps that mark no gate. */
  predicate Silent(a: Action) {
    ByRequest(a) || a.BeginCycle? || a.StartLifecycle? || a.CancelContext? || a.LifecycleEnds? || a.Join?
    || a.Drained? || a.Restart? || a.FinalLoad? || a.FinalSave?
  }

  lemma OtherTold(before: seq<Action>, a: Action, actions: seq<Action>, g: nat, gate: Gate)
    requires actions == before + [a] && GateTold(before, g, gate) && Begun(before) != g + 1
    ensures GateTold(actions, g, gate)
  {
    assert actions[..|actions| - 1] == before;
  }

  lemma SilentTold(before: seq<Action>, a: Action, actions: seq<Action>, g: nat, gate: Gate)
    requires actions == before + [a] && GateTold(before, g, gate) && Silent(a)
    ensures GateTold(actions, g, gate)
  {
    assert actions[..|actions| - 1] == before;
  }

  lemma SilentStep(w: World, a: Action, g: nat)
    requires Enabled(w, a) && g < |w.gates| && (g + 1 < |w.gates| || Silent(a))
    ensures g < |Step(w, a).gates| && Step(w, a).gates[g] == w.gates[g]
  {
    if ByRequest(a) {
      RequestLeavesGates(w, a);
    } else if g + 1 < |w.gates| {
      WorkerLeavesEarlier(w, a, g);
    }
  }

  /** What a marking step writes into the gate of the latest cycle. */
  function Marked(w: World, a: Action): Gate
    requires w.gates != []
  {
    var gate := w.gates[Last(w)];
    match a
    case ObserveLifecycle => gate.(accepting := false, graceful := w.contextCancelled)
    case ObservePanic => gate.(accepting := false)
    case ObserveContext => gate.(accepting := false, graceful := true)
    case SetupFails => gate.(cancelled := true, setupFailed := true)
    case CancelRequests => gate.(cancelled := true)
    case EndCycle => gate.(cancelled := true)
    case StartWait => gate.(waiting := true)
    case GraceExpires => gate.(expired := true)
    case _ => gate
  }

  lemma MarkedStep(w: World, a: Action)
    requires Enabled(w, a) && !Silent(a)
    ensures w.gates != [] && Step(w, a).gates == w.gates[Last(w) := Marked(w, a)]
  {
  }

  /** The marks agree with what happened. */
  lemma CloseTold(before: seq<Action>, a: Action, actions: seq<Action>, w: World)
    requires actions == before + [a] && CurrentGood(w) && Enabled(w, a)
    requires WorkerTold(before, w) && w.gates != [] && GateTold(before, Last(w), w.gates[Last(w)])
    requires a.ObserveLifecycle? || a.ObservePanic? || a.ObserveContext?
    ensures GateTold(actions, Last(w), Marked(w, a))
  {
    assert actions[..|actions| - 1] == before;
  }

  lemma CancelTold(before: seq<Action>, a: Action, actions: seq<Action>, w: World)
    requires actions == before + [a]
    requires WorkerTold(before, w) && w.gates != [] && GateTold(before, Last(w), w.gates[Last(w)])
    requires a.SetupFails? || a.CancelRequests? || a.EndCycle?
    ensures GateTold(actions, Last(w), Marked(w, a))
  {
    assert actions[..|actions| - 1] == before;
  }

  lemma WaitTold(before: seq<Action>, a: Action, actions: seq<Action>, w: World)
    requires actions == before + [a]
    requires WorkerTold(before, w) && w.gates != [] && GateTold(before, Last(w), w.gates[Last(w)])
    requires a.StartWait? || a.GraceExpires?
    ensures GateTold(actions, Last(w), Marked(w, a))
  {
    assert actions[..|actions| - 1] == before;
  }

  /** The step leaves as many gates as there were, or begins one more cycle. */
  lemma GateCount(w: World, a: Action)
    requires Enabled(w, a)
    ensures |Step(w, a).gates| == |w.gates| + if a.BeginCycle? then 1 else 0
    ensures a.BeginCycle? ==> Step(w, a).gates[|w.gates|] == OPEN_GATE
  {
  }

  /** A marking step and the gate of the latest cycle. */
  lemma MarkedTold(before: seq<Action>, a: Action, actions: seq<Action>, w: World)
    requires actions == before + [a] && CurrentGood(w) && Enabled(w, a) && !Silent(a)
    requires WorkerTold(before, w) && w.gates != [] && GateTold(before, Last(w), w.gates[Last(w)])
    ensures GateTold(actions, Last(w), Marked(w, a))
  {
    if a.SetupFails? || a.CancelRequests? || a.EndCycle? {
      CancelTold(before, a, actions, w);
    } else if a.StartWait? || a.GraceExpires? {
      WaitTold(before, a, actions, w);
    } else {
      CloseTold(before, a, actions, w);
    }
  }

  lemma LatestTold(before: seq<Action>, a: Action, actions: seq<Action>, w: World)
    requires actions == before + [a] && CurrentGood(w) && Enabled(w, a) && WorkerTold(before, w)
    requires w.gates != [] && GateTold(before, Last(w), w.gates[Last(w)])
    ensures Last(w) < |Step(w, a).gates| && GateTold(actions, Last(w), Step(w, a).gates[Last(w)])
  {
    if Silent(a) {
      SilentStep(w, a, Last(w));
      SilentTold(before, a, actions, Last(w), w.gates[Last(w)]);
    } else {
      MarkedStep(w, a);
      MarkedTold(before, a, actions, w);
    }
  }

  lemma EarlierTold(before: seq<Action>, a: Action, actions: seq<Action>, w: World, g: nat)
    requires actions == before + [a] && Enabled(w, a) && WorkerTold(before, w)
    requires g + 1 < |w.gates| && GateTold(before, g, w.gates[g])
    ensures g < |Step(w, a).gates| && GateTold(actions, g, Step(w, a).gates[g])
  {
    SilentStep(w, a, g);
    OtherTold(before, a, actions, g, w.gates[g]);
  }

  lemma NewTold(before: seq<Action>, a: Action, actions: seq<Action>, w: World, g: nat)
    requires actions == before + [a] && Enabled(w, a) && WorkerTold(before, w)
    requires |w.gates| <= g < |Step(w, a).gates|
    ensures GateTold(actions, g, Step(w, a).gates[g])
  {
    GateCount(w, a);
    FreshGate(before, g);
    OtherTold(before, a, actions, g, OPEN_GATE);
  }

  lemma GatesToldStep(before: seq<Action>, a: Action, actions: seq<Action>, w: World)
    requires actions == before + [a] && CurrentGood(w) && Enabled(w, a) && WorkerTold(before, w) && GatesTold(before, w)
    ensures GatesTold(actions, Step(w, a))
  {
    forall g | 0 <= g < |Step(w, a).gates| ensures GateTold(actions, g, Step(w, a).gates[g]) {
      if g >= |w.gates| {
        NewTold(before, a, actions, w, g);
      } else if g + 1 < |w.gates| {
        EarlierTold(before, a, actions, w, g);
      } else {
        LatestTold(before, a, actions, w);
      }
    }
  }

  // Requests read off the past ---------------------------------------------------------------

  predicate StageTold(actions: seq<Action>, id: nat, stage: Stage) {
    && (stage.Begun? <==> !Touched(actions, id))
    && (stage.Running? <==>
          Ran(actions, id) && !HasCommitted(actions, id) && Return(id) !in actions && Panic(id) !in actions)
    && (stage.Committed? <==> HasCommitted(actions, id) && Return(id) !in actions && Panic(id) !in actions)
    && (stage.Panicked? <==> Panic(id) in actions)
  }

  predicate RequestTold(actions: seq<Action>, w: World, id: nat) {
    && (id in w.requests <==> id < |Accepted(actions)| && Done(id) !in actions)
    && (id in w.requests ==>
          w.requests[id].gate == Accepted(actions)[id] && StageTold(actions, id, w.requests[id].stage))
    && (id >= |Accepted(actions)| ==> !Touched(actions, id))
    && (HasCommitted(actions, id) ==> Ran(actions, id))
    && (Done(id) in actions && Ran(actions, id) ==> Return(id) in actions || Panic(id) in actions)
  }

  ghost predicate RequestsTold(actions: seq<Action>, w: World) {
    |Accepted(actions)| == w.next && forall id: nat :: RequestTold(actions, w, id)
  }

  lemma {:induction false} Untouched(actions: seq<Action>, id: nat)
    requires !Touched(actions, id)
    ensures !Ran(actions, id) && !HasCommitted(actions, id)
    ensures StartHandling(id) !in actions && Return(id) !in actions && Panic(id) !in actions && Done(id) !in actions
    decreases |actions|
  {
    if actions != [] {
      Untouched(actions[..|actions| - 1], id);
      assert actions == actions[..|actions| - 1] + [actions[|actions| - 1]];
    }
  }

  /** A step that is not the request's own tells nothing new of it. */
  lemma StageStands(before: seq<Action>, a: Action, actions: seq<Action>, id: nat, stage: Stage)
    requires actions == before + [a] && StageTold(before, id, stage) && !StepOf(a, id)
    ensures StageTold(actions, id, stage)
  {
    assert actions[..|actions| - 1] == before;
  }

  lemma OthersStand(before: seq<Action>, a: Action, actions: seq<Action>, w: World, id: nat)
    requires actions == before + [a] && Enabled(w, a) && !StepOf(a, id) && !(a.Accept? && id == w.next)
    requires |Accepted(before)| == w.next && RequestTold(before, w, id)
    ensures RequestTold(actions, Step(w, a), id)
  {
    assert actions[..|actions| - 1] == before;
    if id in w.requests {
      StageStands(before, a, actions, id, w.requests[id].stage);
    }
    LeavesRequest(w, a, id);
  }

  lemma LeavesRequest(w: World, a: Action, id: nat)
    requires Enabled(w, a) && !StepOf(a, id) && !(a.Accept? && id == w.next)
    ensures id in Step(w, a).requests <==> id in w.requests
    ensures id in w.requests ==> Step(w, a).requests[id] == w.requests[id]
  {
    if ByRequest(a) {
      match a
      case Accept(_) =>
      case StartHandling(_) =>
      case Commit(_, _) =>
      case Return(_) =>
      case Panic(_) =>
      case Done(_) =>
      case _ =>
    }
  }

  lemma AcceptTold(before: seq<Action>, a: Action, actions: seq<Action>, w: World, id: nat)
    requires actions == before + [a] && Enabled(w, a) && a.Accept? && id == w.next
    requires |Accepted(before)| == w.next && RequestTold(before, w, id)
    ensures RequestTold(actions, Step(w, a), id)
  {
    assert actions[..|actions| - 1] == before;
    Untouched(before, id);
    Untouched(actions, id);
  }

  lemma OwnStepTold(before: seq<Action>, a: Action, actions: seq<Action>, w: World, id: nat)
    requires actions == before + [a] && RequestsGood(w) && Enabled(w, a) && StepOf(a, id)
    requires GatesTold(before, w) && RequestTold(before, w, id)
    ensures RequestTold(actions, Step(w, a), id)
  {
    assert actions[..|actions| - 1] == before;
    assert id in w.requests;
    if a.StartHandling? {
      Untouched(before, id);
      assert GateTold(before, w.requests[id].gate, w.gates[w.requests[id].gate]);
    }
  }

  lemma RequestsToldStep(before: seq<Action>, a: Action, actions: seq<Action>, w: World)
    requires actions == before + [a] && RequestsGood(w) && Enabled(w, a)
    requires GatesTold(before, w) && RequestsTold(before, w)
    ensures RequestsTold(actions, Step(w, a))
  {
    assert actions[..|actions| - 1] == before;
    forall id: nat ensures RequestTold(actions, Step(w, a), id) {
      if StepOf(a, id) {
        OwnStepTold(before, a, actions, w, id);
      } else if a.Accept? && id == w.next {
        AcceptTold(before, a, actions, w, id);
      } else {
        OthersStand(before, a, actions, w, id);
      }
    }
  }

  // The worker read off the past ---------------------------------------------------------------

  lemma PanicTold(before: seq<Action>, a: Action, actions: seq<Action>, w: World)
    requires actions == before + [a] && RequestsGood(w) && Enabled(w, a)
    requires |w.gates| == Begun(before) && (w.panicPending <==> PanicSeen(before))
    requires a.Panic? ==> RequestTold(before, w, a.id)
    ensures Step(w, a).panicPending <==> PanicSeen(actions)
  {
    assert actions[..|actions| - 1] == before;
  }

  lemma LifecycleTold(before: seq<Action>, a: Action, actions: seq<Action>, w: World)
    requires actions == before + [a] && CurrentGood(w) && Enabled(w, a)
    requires |w.gates| == Begun(before) && (w.lifecycleDone <==> Lately(before, LifecycleEnds))
    ensures Step(w, a).lifecycleDone <==> Lately(actions, LifecycleEnds)
  {
    assert actions[..|actions| - 1] == before;
    if a.BeginCycle? {
      NotBegun(before, Begun(before), LifecycleEnds);
    }
  }

  lemma ContextTold(before: seq<Action>, a: Action, actions: seq<Action>, w: World)
    requires actions == before + [a] && Enabled(w, a)
    requires |w.gates| == Begun(before) && (w.contextCancelled <==> CancelContext in before)
    ensures |Step(w, a).gates| == Begun(actions) && (Step(w, a).contextCancelled <==> CancelContext in actions)
  {
    assert actions[..|actions| - 1] == before;
    GateCount(w, a);
  }

  lemma WorkerToldStep(before: seq<Action>, a: Action, actions: seq<Action>, w: World)
    requires actions == before + [a] && CurrentGood(w) && RequestsGood(w) && Enabled(w, a)
    requires WorkerTold(before, w) && RequestsTold(before, w)
    ensures WorkerTold(actions, Step(w, a))
  {
    if a.Panic? {
      assert RequestTold(before, w, a.id);
    }
    PanicTold(before, a, actions, w);
    LifecycleTold(before, a, actions, w);
    ContextTold(before, a, actions, w);
  }

  /** Where the worker stands after its own latest step. */
  function PcTold(actions: seq<Action>, found: int): Pc {
    match Latest(actions)
    case None => Idle
    case Some(a) =>
      match a
      case BeginCycle => Setup
      case StartLifecycle => Serving
      case ObserveContext => Stopping
      case ObservePanic => Stopping
      case ObserveLifecycle => if LatestGraceful(actions) then Joined else Hasty
      case Join => if LatestGraceful(actions) then Joined else Hasty
      case CancelRequests => Joined
      case StartWait => Waiting
      case Drained => Finishing
      case GraceExpires => Finishing
      case SetupFails => CycleDone
      case EndCycle => CycleDone
      case Restart => Idle
      case FinalLoad => FinalLoaded(found)
      case _ => Stopped
  }

  ghost predicate CursorTold(cursor: int, actions: seq<Action>, w: World) {
    w.cursor == Stored(cursor, actions) && w.pc == PcTold(actions, Stored(cursor, UpToLoad(actions)))
  }

  lemma QuietPc(before: seq<Action>, a: Action, actions: seq<Action>, found: int)
    requires actions == before + [a] && (ByRequest(a) || a.CancelContext? || a.LifecycleEnds?)
    ensures PcTold(actions, found) == PcTold(before, found) && UpToLoad(actions) == UpToLoad(before)
  {
    assert actions[..|actions| - 1] == before;
  }

  /** The steps of the worker proper. */
  predicate Moves(a: Action) {
    !ByRequest(a) && !a.CancelContext? && !a.LifecycleEnds?
  }

  lemma DirectPc(before: seq<Action>, a: Action, actions: seq<Action>, w: World)
    requires actions == before + [a] && Enabled(w, a) && Moves(a) && !a.ObserveLifecycle? && !a.Join?
    ensures Step(w, a).pc == PcTold(actions, w.cursor)
  {
    assert actions[..|actions| - 1] == before;
    match a
    case BeginCycle =>
    case SetupFails =>
    case StartLifecycle =>
    case ObservePanic =>
    case ObserveContext =>
    case CancelRequests =>
    case StartWait =>
    case Drained =>
    case GraceExpires =>
    case EndCycle =>
    case Restart =>
    case FinalLoad =>
    case FinalSave =>
    case _ =>
  }

  lemma JoiningPc(before: seq<Action>, a: Action, actions: seq<Action>, w: World, found: int)
    requires actions == before + [a] && Enabled(w, a) && (a.ObserveLifecycle? || a.Join?) && |w.gates| == Begun(before)
    requires EndsGracefully(actions, Last(w)) <==> if a.Join? then w.gates[Last(w)].graceful else w.contextCancelled
    ensures Step(w, a).pc == PcTold(actions, found)
  {
    JoiningTold(before, a, actions, found);
    if a.Join? {
      assert Step(w, Join).pc == if w.gates[Last(w)].graceful then Joined else Hasty;
    }
  }

  lemma JoiningTold(before: seq<Action>, a: Action, actions: seq<Action>, found: int)
    requires actions == before + [a] && (a.ObserveLifecycle? || a.Join?) && Begun(before) > 0
    ensures PcTold(actions, found) == if EndsGracefully(actions, Begun(before) - 1) then Joined else Hasty
  {
    assert actions[..|actions| - 1] == before;
    assert Latest(actions) == Some(a) && Begun(actions) == Begun(before);
  }

  lemma GracefulStep(before: seq<Action>, a: Action, actions: seq<Action>, w: World)
    requires actions == before + [a] && CurrentGood(w) && Enabled(w, a) && (a.ObserveLifecycle? || a.Join?)
    requires WorkerTold(before, w) && GateTold(before, Last(w), w.gates[Last(w)])
    ensures EndsGracefully(actions, Last(w)) <==> if a.Join? then w.gates[Last(w)].graceful else w.contextCancelled
  {
    assert actions[..|actions| - 1] == before;
  }

  lemma StoredStep(cursor: int, before: seq<Action>, a: Action, actions: seq<Action>, w: World)
    requires actions == before + [a] && Enabled(w, a) && CursorTold(cursor, before, w)
    ensures Step(w, a).cursor == Stored(cursor, actions)
  {
    assert actions[..|actions| - 1] == before;
  }

  lemma MovedPc(cursor: int, before: seq<Action>, a: Action, actions: seq<Action>, w: World)
    requires actions == before + [a] && CurrentGood(w) && Enabled(w, a) && Moves(a)
    requires CursorTold(cursor, before, w) && WorkerTold(before, w) && GatesTold(before, w)
    ensures Step(w, a).pc == PcTold(actions, Stored(cursor, UpToLoad(actions)))
  {
    if a.ObserveLifecycle? || a.Join? {
      GracefulStep(before, a, actions, w);
      JoiningPc(before, a, actions, w, Stored(cursor, UpToLoad(actions)));
    } else {
      DirectPc(before, a, actions, w);
      assert actions[..|actions| - 1] == before;
    }
  }

  lemma CursorToldStep(cursor: int, before: seq<Action>, a: Action, actions: seq<Action>, w: World)
    requires actions == before + [a] && CurrentGood(w) && Enabled(w, a)
    requires CursorTold(cursor, before, w) && WorkerTold(before, w) && GatesTold(before, w)
    ensures CursorTold(cursor, actions, Step(w, a))
  {
    StoredStep(cursor, before, a, actions, w);
    if Moves(a) {
      MovedPc(cursor, before, a, actions, w);
    } else {
      QuietPc(before, a, actions, Stored(cursor, UpToLoad(before)));
      SamePc(w, a);
    }
  }

  lemma SamePc(w: World, a: Action)
    requires Enabled(w, a) && !Moves(a)
    ensures Step(w, a).pc == w.pc
  {
    if ByRequest(a) {
      RequestLeavesGates(w, a);
    }
  }

  /** The state of a worker that has come this way. */
  ghost predicate Told(cursor: int, actions: seq<Action>, w: World) {
    && Inv(w) && WorkerTold(actions, w) && GatesTold(actions, w)
    && RequestsTold(actions, w) && CursorTold(cursor, actions, w)
  }

  lemma ToldStep(cursor: int, before: seq<Action>, a: Action, actions: seq<Action>, w: World)
    requires actions == before + [a] && Enabled(w, a) && Told(cursor, before, w)
    ensures Told(cursor, actions, Step(w, a))
  {
    StepKeeps(w, a);
    GatesToldStep(before, a, actions, w);
    RequestsToldStep(before, a, actions, w);
    WorkerToldStep(before, a, actions, w);
    CursorToldStep(cursor, before, a, actions, w);
  }

  lemma ToldStart(cursor: int)
    ensures Told(cursor, [], Start(cursor))
  {
  }

  /** After any run every flag of every gate, every request, the worker's place and the
      stored cursor are what the actions of the run say. */
  lemma {:induction false} RunTold(cursor: int, actions: seq<Action>)
    requires Runs(Start(cursor), actions)
    ensures Told(cursor, actions, After(Start(cursor), actions))
    decreases |actions|
  {
    if actions == [] {
      ToldStart(cursor);
    } else {
      var before := actions[..|actions| - 1];
      RunTold(cursor, before);
      assert actions == before + [actions[|actions| - 1]];
      ToldStep(cursor, before, actions[|actions| - 1], actions, After(Start(cursor), before));
    }
  }

  // Which steps may come next ------------------------------------------------------------------

  /** All requests accepted through the gate have given their slots back. */
  predicate Emptied(actions: seq<Action>, g: nat) {
    forall id | 0 <= id < |Accepted(actions)| && Accepted(actions)[id] == g :: Done(id) in actions
  }

  /** The order of the worker's steps. */
  predicate WorkerMay(actions: seq<Action>, a: Action) {
    var latest := Latest(actions);
    match a
    case BeginCycle => (latest == None || latest == Some(Restart)) && CancelContext !in actions
    case SetupFails => latest == Some(BeginCycle)
    case StartLifecycle => latest == Some(BeginCycle)
    case CancelContext => true
    case LifecycleEnds => latest in {Some(StartLifecycle), Some(ObservePanic), Some(ObserveContext)}
    case ObserveLifecycle => latest == Some(StartLifecycle) && Lately(actions, LifecycleEnds)
    case ObservePanic => latest == Some(StartLifecycle) && PanicSeen(actions)
    case ObserveContext => latest == Some(StartLifecycle) && CancelContext in actions
    case Join => latest in {Some(ObservePanic), Some(ObserveContext)} && Lately(actions, LifecycleEnds)
    case CancelRequests => latest in {Some(ObserveLifecycle), Some(Join)} && !LatestGraceful(actions)
    case StartWait =>
      latest == Some(CancelRequests) || (latest in {Some(ObserveLifecycle), Some(Join)} && LatestGraceful(actions))
    case Drained => latest == Some(StartWait) && Begun(actions) > 0 && Emptied(actions, Begun(actions) - 1)
    case GraceExpires => latest == Some(StartWait)
    case EndCycle => latest in {Some(Drained), Some(GraceExpires)}
    case Restart => latest in {Some(SetupFails), Some(EndCycle)} && CancelContext !in actions
    case FinalLoad => latest in {None, Some(SetupFails), Some(EndCycle), Some(Restart)}
    case FinalSave => latest == Some(FinalLoad)
    case _ => false
  }

  predicate RequestMay(actions: seq<Action>, a: Action) {
    match a
    case Accept(g) => g < Begun(actions) && !Closed(actions, g)
    case StartHandling(id) => id < |Accepted(actions)| && !Touched(actions, id)
    case Commit(id, _) =>
      Ran(actions, id) && !HasCommitted(actions, id) && Return(id) !in actions && Panic(id) !in actions
    case Return(id) => Ran(actions, id) && Return(id) !in actions && Panic(id) !in actions
    case Panic(id) => Ran(actions, id) && Return(id) !in actions && Panic(id) !in actions
    case Done(id) =>
      && Touched(actions, id) && Done(id) !in actions
      && (Ran(actions, id) ==> Return(id) in actions || Panic(id) in actions)
    case _ => false
  }

  /** Two or three kinds of step at a time. */
  lemma BeginMay(cursor: int, actions: seq<Action>, w: World, a: Action)
    requires CurrentGood(w) && WorkerTold(actions, w) && CursorTold(cursor, actions, w)
    requires a.BeginCycle? || a.CancelContext? || a.LifecycleEnds?
    ensures Enabled(w, a) <==> WorkerMay(actions, a)
  {
  }

  lemma SetupMay(cursor: int, actions: seq<Action>, w: World, a: Action)
    requires CurrentGood(w) && WorkerTold(actions, w) && CursorTold(cursor, actions, w)
    requires a.SetupFails? || a.StartLifecycle?
    ensures Enabled(w, a) <==> WorkerMay(actions, a)
  {
  }

  lemma ObserveMay(cursor: int, actions: seq<Action>, w: World, a: Action)
    requires CurrentGood(w) && WorkerTold(actions, w) && CursorTold(cursor, actions, w)
    requires a.ObserveLifecycle? || a.ObservePanic? || a.ObserveContext?
    ensures Enabled(w, a) <==> WorkerMay(actions, a)
  {
  }

  lemma WaitMay(cursor: int, actions: seq<Action>, w: World, a: Action)
    requires CurrentGood(w) && WorkerTold(actions, w) && CursorTold(cursor, actions, w)
    requires a.Join? || a.GraceExpires? || a.EndCycle?
    ensures Enabled(w, a) <==> WorkerMay(actions, a)
  {
  }

  lemma FinalMay(cursor: int, actions: seq<Action>, w: World, a: Action)
    requires CurrentGood(w) && WorkerTold(actions, w) && CursorTold(cursor, actions, w)
    requires a.Restart? || a.FinalLoad? || a.FinalSave?
    ensures Enabled(w, a) <==> WorkerMay(actions, a)
  {
  }

  lemma DrainMay(cursor: int, actions: seq<Action>, w: World, a: Action)
    requires CurrentGood(w) && WorkerTold(actions, w) && CursorTold(cursor, actions, w)
    requires a.CancelRequests? || a.StartWait?
    ensures Enabled(w, a) <==> WorkerMay(actions, a)
  {
  }

  lemma EmptiedIff(actions: seq<Action>, w: World, g: nat)
    requires RequestsTold(actions, w)
    ensures InFlight(w, g) <==> !Emptied(actions, g)
  {
    if InFlight(w, g) {
      var id :| id in w.requests && w.requests[id].gate == g;
      assert RequestTold(actions, w, id);
    }
    if !Emptied(actions, g) {
      var id :| 0 <= id < |Accepted(actions)| && Accepted(actions)[id] == g && Done(id) !in actions;
      assert RequestTold(actions, w, id);
    }
  }

  lemma DrainedMay(cursor: int, actions: seq<Action>, w: World)
    requires CurrentGood(w) && WorkerTold(actions, w) && CursorTold(cursor, actions, w) && RequestsTold(actions, w)
    ensures Enabled(w, Drained) <==> WorkerMay(actions, Drained)
  {
    if w.gates != [] {
      EmptiedIff(actions, w, Last(w));
    }
  }

  lemma WorkerMayIff(cursor: int, actions: seq<Action>, w: World, a: Action)
    requires Told(cursor, actions, w) && !ByRequest(a)
    ensures Enabled(w, a) <==> WorkerMay(actions, a)
  {
    if a.BeginCycle? || a.CancelContext? || a.LifecycleEnds? {
      BeginMay(cursor, actions, w, a);
    } else if a.SetupFails? || a.StartLifecycle? {
      SetupMay(cursor, actions, w, a);
    } else if a.ObserveLifecycle? || a.ObservePanic? || a.ObserveContext? {
      ObserveMay(cursor, actions, w, a);
    } else if a.Join? || a.GraceExpires? || a.EndCycle? {
      WaitMay(cursor, actions, w, a);
    } else if a.CancelRequests? || a.StartWait? {
      DrainMay(cursor, actions, w, a);
    } else if a.Drained? {
      DrainedMay(cursor, actions, w);
    } else {
      FinalMay(cursor, actions, w, a);
    }
  }

  lemma AcceptMay(actions: seq<Action>, w: World, g: nat)
    requires WorkerTold(actions, w) && GatesTold(actions, w)
    ensures Enabled(w, Accept(g)) <==> RequestMay(actions, Accept(g))
  {
  }

  lemma RequestMayIff(actions: seq<Action>, w: World, a: Action)
    requires RequestsGood(w) && RequestsTold(actions, w) && ByRequest(a) && !a.Accept?
    ensures Enabled(w, a) <==> RequestMay(actions, a)
  {
    assert RequestTold(actions, w, a.id);
    if !Touched(actions, a.id) {
      Untouched(actions, a.id);
    }
  }

  /** The rules of the protocol in terms of what happened before: a run may be continued by
      a step exactly if the steps so far allow it. */
  predicate May(actions: seq<Action>, a: Action) {
    if ByRequest(a) then RequestMay(actions, a) else WorkerMay(actions, a)
  }

  /** Every step of a run was allowed by the steps before it. */
  predicate Lawful(actions: seq<Action>) {
    actions != [] ==> Lawful(actions[..|actions| - 1]) && May(actions[..|actions| - 1], actions[|actions| - 1])
  }

  /** The runs of the worker and its callbacks are exactly the lawful sequences of steps. */
  lemma {:induction false} RunsIffLawful(cursor: int, actions: seq<Action>)
    ensures Runs(Start(cursor), actions) <==> Lawful(actions)
    decreases |actions|
  {
    if actions != [] {
      var before, a := actions[..|actions| - 1], actions[|actions| - 1];
      RunsIffLawful(cursor, before);
      if Runs(Start(cursor), before) {
        RunTold(cursor, before);
        MayIff(cursor, before, After(Start(cursor), before), a);
      }
    }
  }

  lemma MayIff(cursor: int, actions: seq<Action>, w: World, a: Action)
    requires Told(cursor, actions, w)
    ensures Enabled(w, a) <==> May(actions, a)
  {
    if a.Accept? {
      AcceptMay(actions, w, a.gate);
    } else if ByRequest(a) {
      RequestMayIff(actions, w, a);
    } else {
      WorkerMayIff(cursor, actions, w, a);
    }
  }

  // What the protocol promises ------------------------------------------------------------------

  /** On the graceful path the request context is cancelled only after every request
      accepted in the cycle is done, unless the grace period expired. */
  lemma GracefulCancellation(cursor: int, actions: seq<Action>, g: nat)
    requires Runs(Start(cursor), actions)
    requires EndsGracefully(actions, g) && ContextEnded(actions, g) && !InCycle(actions, g, GraceExpires)
    ensures Emptied(actions, g)
  {
    RunTold(cursor, actions);
    if Begun(actions) <= g {
      NoEndYet(actions, g);
    } else {
      var w := After(Start(cursor), actions);
      assert GateTold(actions, g, w.gates[g]) && GateGood(w, g);
      EmptiedIff(actions, w, g);
    }
  }

  /** The worker waits for the requests of a cycle only when its lifecycle has ended and its
      gate is closed, and it has cancelled their context by then exactly if the cycle does
      not end gracefully. */
  lemma WaitsWhenClosed(cursor: int, actions: seq<Action>, g: nat, w: World)
    requires Runs(Start(cursor), actions) && w == After(Start(cursor), actions) && Enabled(w, StartWait)
    requires g + 1 == Begun(actions)
    ensures Closed(actions, g) && InCycle(actions, g, LifecycleEnds)
    ensures ContextEnded(actions, g) <==> !EndsGracefully(actions, g)
  {
    RunTold(cursor, actions);
    assert GateTold(actions, g, w.gates[g]);
  }

  /** No request is accepted through a gate once the worker has begun to wait for it. */
  lemma NoAddAfterWait(cursor: int, actions: seq<Action>, g: nat, w: World)
    requires Runs(Start(cursor), actions) && w == After(Start(cursor), actions) && InCycle(actions, g, StartWait)
    ensures !Enabled(w, Accept(g))
  {
    if g < Begun(actions) {
      GateFacts(cursor, actions, g, w);
      OpenGate(actions, w, g);
    } else {
      NotBegun(actions, g, StartWait);
    }
  }

  lemma OpenGate(actions: seq<Action>, w: World, g: nat)
    requires g < |w.gates| && GateTold(actions, g, w.gates[g])
    ensures Enabled(w, Accept(g)) <==> w.gates[g].accepting
    ensures w.gates[g].waiting <==> InCycle(actions, g, StartWait)
    ensures w.gates[g].setupFailed <==> InCycle(actions, g, SetupFails)
    ensures w.gates[g].cancelled <==> ContextEnded(actions, g)
  {
  }

  lemma GateFacts(cursor: int, actions: seq<Action>, g: nat, w: World)
    requires Runs(Start(cursor), actions) && w == After(Start(cursor), actions) && g < Begun(actions)
    ensures g < |w.gates| && GateTold(actions, g, w.gates[g]) && GateGood(w, g)
  {
    RunTold(cursor, actions);
  }

  /** The cycle has ended, or failed during setup. */
  predicate Over(actions: seq<Action>, g: nat) {
    g + 1 < Begun(actions) || InCycle(actions, g, SetupFails) || InCycle(actions, g, EndCycle)
  }

  /** Nothing but a new cycle or the final write-back follows. */
  predicate Finished(latest: Option<Action>) {
    latest in {Some(SetupFails), Some(EndCycle), Some(Restart), Some(FinalLoad), Some(FinalSave)}
  }

  lemma FinishedStays(before: seq<Action>, a: Action, actions: seq<Action>)
    requires actions == before + [a] && May(before, a)
    requires Lately(before, SetupFails) || Lately(before, EndCycle) ==> Finished(Latest(before))
    ensures Lately(actions, SetupFails) || Lately(actions, EndCycle) ==> Finished(Latest(actions))
  {
    assert actions[..|actions| - 1] == before;
    if a.BeginCycle? {
      NotBegun(before, Begun(before), SetupFails);
      NotBegun(before, Begun(before), EndCycle);
    }
  }

  lemma {:induction false} OverFinishes(actions: seq<Action>)
    requires Lawful(actions)
    ensures Lately(actions, SetupFails) || Lately(actions, EndCycle) ==> Finished(Latest(actions))
    decreases |actions|
  {
    if actions != [] {
      var before := actions[..|actions| - 1];
      OverFinishes(before);
      assert actions == before + [actions[|actions| - 1]];
      FinishedStays(before, actions[|actions| - 1], actions);
    }
  }

  lemma OverIsBetween(cursor: int, actions: seq<Action>, g: nat, w: World)
    requires Lawful(actions) && |w.gates| == Begun(actions) && CursorTold(cursor, actions, w) && Over(actions, g)
    ensures g < |w.gates| && (g + 1 < |w.gates| || Between(w.pc))
  {
    if Begun(actions) <= g {
      NotBegun(actions, g, SetupFails);
      NotBegun(actions, g, EndCycle);
    } else if Begun(actions) == g + 1 {
      OverFinishes(actions);
      PlaceTold(cursor, actions, w);
    }
  }

  lemma OverGate(cursor: int, actions: seq<Action>, g: nat, w: World)
    requires Lawful(actions) && Told(cursor, actions, w) && Over(actions, g)
    ensures g < |w.gates| && GateTold(actions, g, w.gates[g])
    ensures w.gates[g].cancelled && (w.gates[g].accepting <==> w.gates[g].setupFailed)
  {
    OverIsBetween(cursor, actions, g, w);
    EndedGate(w, g);
  }

  lemma PlaceTold(cursor: int, actions: seq<Action>, w: World)
    requires CursorTold(cursor, actions, w) && Finished(Latest(actions))
    ensures Between(w.pc)
  {
  }

  /** A cycle that is over has cancelled its request context, and it still accepts requests
      exactly if it failed during setup. */
  lemma OpenAfterEndIff(cursor: int, actions: seq<Action>, g: nat, w: World)
    requires Runs(Start(cursor), actions) && w == After(Start(cursor), actions) && Over(actions, g)
    ensures Enabled(w, Accept(g)) <==> InCycle(actions, g, SetupFails)
    ensures ContextEnded(actions, g)
  {
    RunTold(cursor, actions);
    RunsIffLawful(cursor, actions);
    OverGate(cursor, actions, g, w);
    OpenGate(actions, w, g);
  }

  /** A request that is started after that never runs, and only one that ran commits. */
  lemma CancelledNeverRuns(cursor: int, actions: seq<Action>, id: nat)
    requires Runs(Start(cursor), actions) && id < |Accepted(actions)| && ContextEnded(actions, Accepted(actions)[id])
    ensures Ran(actions + [StartHandling(id)], id) ==> Ran(actions, id)
    ensures HasCommitted(actions, id) ==> Ran(actions, id)
  {
    assert (actions + [StartHandling(id)])[..|actions|] == actions;
    RunTold(cursor, actions);
    assert RequestTold(actions, After(Start(cursor), actions), id);
  }

  /** The request has been started and has neither committed nor ended. */
  predicate StillRuns(actions: seq<Action>, id: nat) {
    Ran(actions, id) && !HasCommitted(actions, id) && Return(id) !in actions && Panic(id) !in actions
  }

  /** A clean shutdown loses no commit: when the last cycle ends drained under a
      cancelled context and no request of an earlier cycle still runs, the stored cursor is for ever
      that of the latest commit, whatever comes. */
  lemma CleanShutdown(cursor: int, actions: seq<Action>, w: World, more: seq<Action>)
    requires Runs(Start(cursor), actions) && w == After(Start(cursor), actions) && Enabled(w, EndCycle)
    requires CancelContext in actions && !Lately(actions, GraceExpires)
    requires forall id: nat | StillRuns(actions, id) && id < |Accepted(actions)| ::
               Accepted(actions)[id] + 1 == Begun(actions)
    requires Runs(Step(w, EndCycle), more)
    ensures After(Step(w, EndCycle), more).cursor == Stored(cursor, actions)
  {
    RunTold(cursor, actions);
    assert GateTold(actions, Last(w), w.gates[Last(w)]);
    forall id | id in w.requests && w.requests[id].stage.Running? ensures w.requests[id].gate == Last(w) {
      assert RequestTold(actions, w, id);
    }
    DrainedEndsQuiet(w);
    FinalPersistHarmless(Step(w, EndCycle), more);
  }
}
