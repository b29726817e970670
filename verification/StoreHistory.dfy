/** What the past steps of the plant state store say: which steps may come next, and what
    a load finds, read off the actions of a run alone. */
module StoreHistory {
  import opened Bytes
  import opened Store
  import LogStream

  // What happened --------------------------------------------------------------------------

  /** The thread's own latest step since the latest crash. */
  function LatestOf(actions: seq<Action>, t: nat): Option<Action> {
    if actions == [] then None
    else
      var a := actions[|actions| - 1];
      if a.Crash? then None
      else if a.thread == t then Some(a)
      else LatestOf(actions[..|actions| - 1], t)
  }

  /** The call the thread made latest since the latest crash. */
  function CallOf(actions: seq<Action>, t: nat): Option<Action> {
    if actions == [] then None
    else
      var a := actions[|actions| - 1];
      if a.Crash? then None
      else if (a.BeginSave? || a.BeginLoad?) && a.thread == t then Some(a)
      else CallOf(actions[..|actions| - 1], t)
  }

  /** The thread is inside a call. */
  predicate Busy(actions: seq<Action>, t: nat) {
    var latest := LatestOf(actions, t);
    latest.Some? && !latest.value.EndSave? && !latest.value.EndLoad?
  }

  /** The thread is inside a call for the plant. */
  predicate BusyWith(actions: seq<Action>, t: nat, plant: int) {
    Busy(actions, t)
    && var call := CallOf(actions, t);
       call.Some? && (call.value.BeginSave? || call.value.BeginLoad?) && call.value.plant == plant
  }

  /** The thread's latest call is a save of this state for this plant. */
  predicate Saves(actions: seq<Action>, t: nat, plant: int, value: PlantState) {
    CallOf(actions, t) == Some(BeginSave(t, plant, value))
  }

  /** Some save of this state for this plant came to its rename. */
  predicate PutInPlace(actions: seq<Action>, plant: int, value: PlantState) {
    actions != []
    && var before, a := actions[..|actions| - 1], actions[|actions| - 1];
       PutInPlace(before, plant, value) || (a.Rename? && Saves(before, a.thread, plant, value))
  }

  /** What a load of the plant finds: what the latest rename for it put in place, or what
      the latest crash left, whichever came later; nothing is an unset date and position
      zero. */
  function Shown(actions: seq<Action>, plant: int): PlantState {
    if actions == [] then LogStream.PlantState(LogStream.Unset, 0)
    else
      var before, a := actions[..|actions| - 1], actions[|actions| - 1];
      if a.Crash? then
        if plant in a.survivors && a.survivors[plant].content.Whole? then a.survivors[plant].content.state
        else LogStream.PlantState(LogStream.Unset, 0)
      else if a.Rename? then
        match CallOf(before, a.thread)
        case Some(BeginSave(_, p, value)) => if p == plant then value else Shown(before, plant)
        case _ => Shown(before, plant)
      else Shown(before, plant)
  }

  // Which steps may come next ----------------------------------------------------------------

  /** Calls for one plant exclude each other; a save creates its temporary file, sets its
      mode, writes, syncs and closes it and renames it, in this order, and may fail
      before the rename; a crash leaves each plant with nothing or with a whole state
      that was once put in place for it. */
  ghost predicate May(actions: seq<Action>, a: Action) {
    match a
    case BeginSave(t, plant, _) => !Busy(actions, t) && forall u: nat :: !BusyWith(actions, u, plant)
    case BeginLoad(t, plant) => !Busy(actions, t) && forall u: nat :: !BusyWith(actions, u, plant)
    case CreateTemp(t) => LatestOf(actions, t).Some? && LatestOf(actions, t).value.BeginSave?
    case Chmod(t) => LatestOf(actions, t) == Some(CreateTemp(t))
    case Write(t) => LatestOf(actions, t) == Some(Chmod(t))
    case Sync(t) => LatestOf(actions, t) == Some(Write(t))
    case CloseTemp(t) => LatestOf(actions, t) == Some(Sync(t))
    case Rename(t) => LatestOf(actions, t) == Some(CloseTemp(t))
    case Fail(t) =>
      Busy(actions, t) && !LatestOf(actions, t).value.BeginLoad?
      && LatestOf(actions, t) != Some(Rename(t)) && LatestOf(actions, t) != Some(Fail(t))
    case EndSave(t) => LatestOf(actions, t) == Some(Rename(t)) || LatestOf(actions, t) == Some(Fail(t))
    case EndLoad(t) => LatestOf(actions, t).Some? && LatestOf(actions, t).value.BeginLoad?
    case Crash(survivors) =>
      forall p | p in survivors ::
        && survivors[p].synced && survivors[p].content.Whole?
        && PutInPlace(actions, p, survivors[p].content.state)
  }

  ghost predicate Lawful(actions: seq<Action>) {
    actions != [] ==> Lawful(actions[..|actions| - 1]) && May(actions[..|actions| - 1], actions[|actions| - 1])
  }

  // The state read off the past ----------------------------------------------------------------

  /** How far the step takes a save. */
  function StageAfter(a: Action): Stage {
    match a
    case CreateTemp(_) => Created
    case Chmod(_) => Permitted
    case Write(_) => Written
    case Sync(_) => Synced
    case CloseTemp(_) => Closed
    case Rename(_) => Renamed
    case Fail(_) => Failed
    case _ => Locked
  }

  predicate ThreadTold(actions: seq<Action>, thread: Thread, t: nat) {
    var latest, call := LatestOf(actions, t), CallOf(actions, t);
    && (latest.Some? ==> !latest.value.Crash? && latest.value.thread == t)
    && (thread.Idle? <==> !Busy(actions, t))
    && (thread.Loading? ==> latest == call == Some(BeginLoad(t, thread.plant)))
    && (thread.Saving? ==>
          && call == Some(BeginSave(t, thread.plant, thread.value))
          && !latest.value.BeginLoad? && thread.stage == StageAfter(latest.value))
  }

  ghost predicate ThreadsTold(actions: seq<Action>, w: World) {
    forall t: nat :: ThreadTold(actions, ThreadOf(w, t), t)
  }

  ghost predicate PlantTold(actions: seq<Action>, w: World, plant: int) {
    && LoadResult(w, plant) == Value(Shown(actions, plant))
    && forall value :: value in RenamedOf(w, plant) <==> PutInPlace(actions, plant, value)
  }

  ghost predicate PlantsTold(actions: seq<Action>, w: World) {
    forall plant :: PlantTold(actions, w, plant)
  }

  lemma OtherThread(before: seq<Action>, a: Action, actions: seq<Action>, w: World, t: nat)
    requires actions == before + [a] && Enabled(w, a) && !a.Crash? && a.thread != t
    requires ThreadTold(before, ThreadOf(w, t), t)
    ensures ThreadTold(actions, ThreadOf(Step(w, a), t), t)
  {
    assert actions[..|actions| - 1] == before;
    assert ThreadOf(Step(w, a), t) == ThreadOf(w, t);
  }

  lemma OwnThread(before: seq<Action>, a: Action, actions: seq<Action>, w: World)
    requires actions == before + [a] && Enabled(w, a) && !a.Crash?
    requires ThreadTold(before, ThreadOf(w, a.thread), a.thread)
    ensures ThreadTold(actions, ThreadOf(Step(w, a), a.thread), a.thread)
  {
    assert actions[..|actions| - 1] == before;
  }

  lemma ThreadsToldStep(before: seq<Action>, a: Action, actions: seq<Action>, w: World)
    requires actions == before + [a] && Enabled(w, a) && ThreadsTold(before, w)
    ensures ThreadsTold(actions, Step(w, a))
  {
    forall t: nat ensures ThreadTold(actions, ThreadOf(Step(w, a), t), t) {
      assert ThreadTold(before, ThreadOf(w, t), t);
      if a.Crash? {
        assert actions[..|actions| - 1] == before;
      } else if a.thread == t {
        OwnThread(before, a, actions, w);
      } else {
        OtherThread(before, a, actions, w, t);
      }
    }
  }

  lemma CrashTold(before: seq<Action>, a: Action, actions: seq<Action>, w: World, plant: int)
    requires actions == before + [a] && Inv(w) && Enabled(w, a) && a.Crash? && PlantTold(before, w, plant)
    ensures PlantTold(actions, Step(w, a), plant)
  {
    assert actions[..|actions| - 1] == before;
  }

  lemma RenameTold(before: seq<Action>, a: Action, actions: seq<Action>, w: World, plant: int)
    requires actions == before + [a] && Inv(w) && Enabled(w, a) && a.Rename? && PlantTold(before, w, plant)
    requires ThreadTold(before, ThreadOf(w, a.thread), a.thread)
    ensures PlantTold(actions, Step(w, a), plant)
  {
    assert actions[..|actions| - 1] == before;
    OnlyOwnRenameShows(w, a, plant);
  }

  lemma QuietTold(before: seq<Action>, a: Action, actions: seq<Action>, w: World, plant: int)
    requires actions == before + [a] && Inv(w) && Enabled(w, a) && !a.Rename? && !a.Crash?
    requires PlantTold(before, w, plant)
    ensures PlantTold(actions, Step(w, a), plant)
  {
    assert actions[..|actions| - 1] == before;
    OnlyOwnRenameShows(w, a, plant);
    assert Step(w, a).renamed == w.renamed;
  }

  lemma PlantsToldStep(before: seq<Action>, a: Action, actions: seq<Action>, w: World)
    requires actions == before + [a] && Inv(w) && Enabled(w, a) && ThreadsTold(before, w) && PlantsTold(before, w)
    ensures PlantsTold(actions, Step(w, a))
  {
    forall plant ensures PlantTold(actions, Step(w, a), plant) {
      assert PlantTold(before, w, plant);
      if a.Crash? {
        CrashTold(before, a, actions, w, plant);
      } else if a.Rename? {
        RenameTold(before, a, actions, w, plant);
      } else {
        QuietTold(before, a, actions, w, plant);
      }
    }
  }

  ghost predicate Told(actions: seq<Action>, w: World) {
    Inv(w) && ThreadsTold(actions, w) && PlantsTold(actions, w)
  }

  /** After any run every thread is where its own steps put it, and a load of any plant
      finds what the renames and crashes so far say. */
  lemma {:induction false} RunTold(actions: seq<Action>)
    requires Runs(EMPTY, actions)
    ensures Told(actions, After(EMPTY, actions))
    decreases |actions|
  {
    if actions != [] {
      var before, a := actions[..|actions| - 1], actions[|actions| - 1];
      assert actions == before + [a];
      RunTold(before);
      StepKeeps(After(EMPTY, before), a);
      ThreadsToldStep(before, a, actions, After(EMPTY, before));
      PlantsToldStep(before, a, actions, After(EMPTY, before));
    }
  }

  lemma FreeIff(actions: seq<Action>, w: World, plant: int)
    requires ThreadsTold(actions, w)
    ensures Free(w, plant) <==> forall u: nat :: !BusyWith(actions, u, plant)
  {
    forall u: nat ensures BusyWith(actions, u, plant) <==> u in w.threads && Holds(w.threads[u], plant) {
      assert ThreadTold(actions, ThreadOf(w, u), u);
    }
  }

  lemma OwnTemp(w: World, t: nat)
    requires Inv(w) && ThreadOf(w, t).Saving? && InProgress(ThreadOf(w, t))
    ensures HasTemp(w, t)
  {
    assert TempFits(w, w.threads[t]);
  }

  lemma CrashMay(actions: seq<Action>, w: World, survivors: map<int, File>)
    requires Told(actions, w)
    ensures Enabled(w, Crash(survivors)) <==> May(actions, Crash(survivors))
  {
    assert MaySurvive(w, survivors) <==>
           forall p | p in survivors ::
             survivors[p].synced && survivors[p].content.Whole? && survivors[p].content.state in RenamedOf(w, p);
    forall p | p in survivors && survivors[p].content.Whole?
      ensures survivors[p].content.state in RenamedOf(w, p) <==> PutInPlace(actions, p, survivors[p].content.state)
    {
      assert PlantTold(actions, w, p);
    }
  }

  lemma CallMay(actions: seq<Action>, w: World, a: Action)
    requires Told(actions, w) && (a.BeginSave? || a.BeginLoad?)
    ensures Enabled(w, a) <==> May(actions, a)
  {
    assert ThreadTold(actions, ThreadOf(w, a.thread), a.thread);
    FreeIff(actions, w, a.plant);
  }

  lemma SaverMay(actions: seq<Action>, w: World, a: Action)
    requires Told(actions, w) && !a.Crash? && !a.BeginSave? && !a.BeginLoad?
    ensures Enabled(w, a) <==> May(actions, a)
  {
    assert ThreadTold(actions, ThreadOf(w, a.thread), a.thread);
    if ThreadOf(w, a.thread).Saving? && InProgress(ThreadOf(w, a.thread)) {
      OwnTemp(w, a.thread);
    }
  }

  lemma MayIff(actions: seq<Action>, w: World, a: Action)
    requires Told(actions, w)
    ensures Enabled(w, a) <==> May(actions, a)
  {
    if a.Crash? {
      CrashMay(actions, w, a.survivors);
    } else if a.BeginSave? || a.BeginLoad? {
      CallMay(actions, w, a);
    } else {
      SaverMay(actions, w, a);
    }
  }

  /** The runs of the store are exactly the lawful sequences of steps, and after each a
      load of any plant finds exactly what they say. */
  lemma {:induction false} RunsIffLawful(actions: seq<Action>, plant: int)
    ensures Runs(EMPTY, actions) <==> Lawful(actions)
    ensures Runs(EMPTY, actions) ==> LoadResult(After(EMPTY, actions), plant) == Value(Shown(actions, plant))
    decreases |actions|
  {
    if actions != [] {
      var before, a := actions[..|actions| - 1], actions[|actions| - 1];
      RunsIffLawful(before, plant);
      if Runs(EMPTY, before) {
        RunTold(before);
        MayIff(before, After(EMPTY, before), a);
      }
    }
    if Runs(EMPTY, actions) {
      RunTold(actions);
      assert PlantTold(actions, After(EMPTY, actions), plant);
    }
  }

  /** A crash takes a plant back to any state once put in place for it, or to nothing, and
      nowhere else. */
  lemma CrashMayLeave(actions: seq<Action>, plant: int, state: PlantState)
    requires Lawful(actions)
    ensures (exists survivors ::
               May(actions, Crash(survivors)) && Shown(actions + [Crash(survivors)], plant) == state)
            <==> state == LogStream.PlantState(LogStream.Unset, 0) || PutInPlace(actions, plant, state)
  {
    forall survivors ensures (actions + [Crash(survivors)])[..|actions|] == actions {
    }
    if PutInPlace(actions, plant, state) {
      var survivors := map[plant := File(Whole(state), true)];
      assert May(actions, Crash(survivors)) && Shown(actions + [Crash(survivors)], plant) == state;
    }
    if state == LogStream.PlantState(LogStream.Unset, 0) {
      assert May(actions, Crash(map[])) && Shown(actions + [Crash(map[])], plant) == state;
    }
  }
}
