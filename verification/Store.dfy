/** The plant state store (internal/state/store.go) as a step system: any number of
    threads load and save, every system call may fail, and the machine may crash between
    any two of them. A crash forgets renames not yet on disk, garbles data that was not
    synced, and leaves temporary files behind. */
module Store {
  import opened Bytes
  import LogStream

  type PlantState = LogStream.PlantState

  /** What decoding a file would give: an empty or partly written one decodes to nothing. */
  datatype Content = Torn | Whole(state: PlantState)

  datatype File = File(content: Content, synced: bool)

  /** Where saveJSON stands. */
  datatype Stage = Locked | Created | Permitted | Written | Synced | Closed | Renamed | Failed

  datatype Thread =
    | Idle
    | Saving(plant: int, value: PlantState, stage: Stage, temp: Option<nat>)
    | Loading(plant: int)

  /** renamed collects, per plant, every state some Save put in place. */
  datatype World = World(
    plants: map<int, File>,
    temps: map<nat, File>,
    nextTemp: nat,
    threads: map<nat, Thread>,
    renamed: map<int, set<PlantState>>)

  datatype Action =
    | BeginSave(thread: nat, plant: int, value: PlantState)
    | CreateTemp(thread: nat)
    | Chmod(thread: nat)
    | Write(thread: nat)
    | Sync(thread: nat)
    | CloseTemp(thread: nat)
    | Rename(thread: nat)
    | Fail(thread: nat)
    | EndSave(thread: nat)
    | BeginLoad(thread: nat, plant: int)
    | EndLoad(thread: nat)
    | Crash(survivors: map<int, File>)

  function ThreadOf(w: World, t: nat): Thread {
    if t in w.threads then w.threads[t] else Idle
  }

  predicate Holds(thread: Thread, plant: int) {
    !thread.Idle? && thread.plant == plant
  }

  /** The per-plant mutex. */
  predicate Free(w: World, plant: int) {
    forall t | t in w.threads :: !Holds(w.threads[t], plant)
  }

  function RenamedOf(w: World, plant: int): set<PlantState> {
    if plant in w.renamed then w.renamed[plant] else {}
  }

  predicate At(w: World, t: nat, stage: Stage) {
    ThreadOf(w, t).Saving? && ThreadOf(w, t).stage == stage
  }

  predicate HasTemp(w: World, t: nat)
    requires ThreadOf(w, t).Saving?
  {
    ThreadOf(w, t).temp.Some? && ThreadOf(w, t).temp.value in w.temps
  }

  function TempOf(w: World, t: nat): nat
    requires ThreadOf(w, t).Saving? && HasTemp(w, t)
  {
    ThreadOf(w, t).temp.value
  }

  function Move(w: World, t: nat, stage: Stage): World
    requires ThreadOf(w, t).Saving?
  {
    w.(threads := w.threads[t := ThreadOf(w, t).(stage := stage)])
  }

  /** After a crash a plant file is missing, or holds what some rename put there; its
      data is intact only if it was synced before that rename. */
  ghost predicate MaySurvive(w: World, survivors: map<int, File>) {
    forall p | p in survivors ::
      || (p in w.plants && !w.plants[p].synced)
      || (survivors[p].synced && survivors[p].content.Whole? && survivors[p].content.state in RenamedOf(w, p))
  }

  ghost predicate Enabled(w: World, a: Action) {
    match a
    case BeginSave(t, plant, _) => ThreadOf(w, t).Idle? && Free(w, plant)
    case CreateTemp(t) => At(w, t, Locked)
    case Chmod(t) => At(w, t, Created)
    case Write(t) => At(w, t, Permitted) && HasTemp(w, t)
    case Sync(t) => At(w, t, Written) && HasTemp(w, t)
    case CloseTemp(t) => At(w, t, Synced)
    case Rename(t) => At(w, t, Closed) && HasTemp(w, t)
    case Fail(t) => ThreadOf(w, t).Saving? && !At(w, t, Renamed) && !At(w, t, Failed)
    case EndSave(t) => At(w, t, Renamed) || At(w, t, Failed)
    case BeginLoad(t, plant) => ThreadOf(w, t).Idle? && Free(w, plant)
    case EndLoad(t) => ThreadOf(w, t).Loading?
    case Crash(survivors) => MaySurvive(w, survivors)
  }

  ghost function Step(w: World, a: Action): World
    requires Enabled(w, a)
  {
    match a
    case BeginSave(t, plant, value) => w.(threads := w.threads[t := Saving(plant, value, Locked, None)])
    case CreateTemp(t) =>
      w.(temps := w.temps[w.nextTemp := File(Torn, false)], nextTemp := w.nextTemp + 1,
         threads := w.threads[t := ThreadOf(w, t).(stage := Created, temp := Some(w.nextTemp))])
    case Chmod(t) => Move(w, t, Permitted)
    case Write(t) =>
      Move(w.(temps := w.temps[TempOf(w, t) := File(Whole(ThreadOf(w, t).value), false)]), t, Written)
    case Sync(t) =>
      Move(w.(temps := w.temps[TempOf(w, t) := w.temps[TempOf(w, t)].(synced := true)]), t, Synced)
    case CloseTemp(t) => Move(w, t, Closed)
    case Rename(t) =>
      var thread := ThreadOf(w, t);
      Move(w.(plants := w.plants[thread.plant := w.temps[TempOf(w, t)]],
              temps := w.temps - {TempOf(w, t)},
              renamed := w.renamed[thread.plant := RenamedOf(w, thread.plant) + {thread.value}]),
           t, Renamed)
    case Fail(t) => Move(w, t, Failed)
    case EndSave(t) =>
      var thread := ThreadOf(w, t);
      w.(temps := if thread.stage.Failed? && thread.temp.Some? then w.temps - {thread.temp.value} else w.temps,
         threads := w.threads[t := Idle])
    case BeginLoad(t, plant) => w.(threads := w.threads[t := Loading(plant)])
    case EndLoad(t) => w.(threads := w.threads[t := Idle])
    case Crash(survivors) =>
      w.(plants := survivors, temps := map i | i in w.temps :: File(Torn, false), threads := map[])
  }

  /** What Load returns: the zero value for a missing file, an error for a torn one. */
  datatype Loaded = Value(state: PlantState) | DecodeError

  const ZERO := LogStream.PlantState(LogStream.Unset, 0)

  function LoadResult(w: World, plant: int): Loaded {
    if plant !in w.plants then Value(ZERO)
    else if w.plants[plant].content.Whole? then Value(w.plants[plant].content.state)
    else DecodeError
  }

  // Invariant -----------------------------------------------------------------------

  /** A saver whose temporary file is complete enough to matter. */
  predicate InProgress(thread: Thread) {
    thread.Saving? && thread.stage in {Created, Permitted, Written, Synced, Closed}
  }

  /** The temporary file is as far along as its thread. */
  predicate TempFits(w: World, thread: Thread)
    requires InProgress(thread)
  {
    && thread.temp.Some? && thread.temp.value in w.temps
    && (thread.stage in {Written, Synced, Closed} ==> w.temps[thread.temp.value].content == Whole(thread.value))
    && (thread.stage == Written ==> !w.temps[thread.temp.value].synced)
    && (thread.stage in {Synced, Closed} ==> w.temps[thread.temp.value].synced)
  }

  ghost predicate PlantsGood(w: World) {
    forall p | p in w.plants ::
      w.plants[p].synced && w.plants[p].content.Whole? && w.plants[p].content.state in RenamedOf(w, p)
  }

  ghost predicate TempsGood(w: World) {
    && (forall t | t in w.threads && InProgress(w.threads[t]) :: TempFits(w, w.threads[t]))
    && (forall t | t in w.threads && w.threads[t].Saving? && w.threads[t].temp.Some? ::
          w.threads[t].temp.value < w.nextTemp)
    && (forall i | i in w.temps :: i < w.nextTemp)
  }

  /** No two threads ever name the same temporary file. */
  ghost predicate TempsDistinct(w: World) {
    forall t, u | t in w.threads && u in w.threads && t != u && w.threads[t].Saving? && w.threads[u].Saving? ::
      w.threads[t].temp.Some? ==> w.threads[t].temp != w.threads[u].temp
  }

  /** At most one thread is inside Load or Save for a plant. */
  ghost predicate Exclusive(w: World) {
    forall t, u | t in w.threads && u in w.threads && t != u && !w.threads[t].Idle? && !w.threads[u].Idle? ::
      w.threads[t].plant != w.threads[u].plant
  }

  ghost predicate Inv(w: World) {
    PlantsGood(w) && TempsGood(w) && TempsDistinct(w) && Exclusive(w)
  }

  lemma StepExclusive(w: World, a: Action)
    requires Exclusive(w) && Enabled(w, a)
    ensures Exclusive(Step(w, a))
  {
  }

  lemma StepDistinct(w: World, a: Action)
    requires TempsDistinct(w) && TempsGood(w) && Enabled(w, a)
    ensures TempsDistinct(Step(w, a))
  {
  }

  /** Whoever is saving keeps its temporary file while another thread moves. */
  lemma OthersFit(w: World, a: Action, t: nat)
    requires TempsDistinct(w) && TempsGood(w) && Enabled(w, a) && !a.Crash? && t != a.thread
    requires t in w.threads && InProgress(w.threads[t])
    ensures TempFits(Step(w, a), w.threads[t])
  {
    assert TempFits(w, w.threads[t]);
  }

  lemma OwnFits(w: World, a: Action)
    requires TempsGood(w) && Enabled(w, a) && !a.Crash?
    ensures var thread := ThreadOf(Step(w, a), a.thread); InProgress(thread) ==> TempFits(Step(w, a), thread)
  {
    if a.thread in w.threads && InProgress(w.threads[a.thread]) {
      assert TempFits(w, w.threads[a.thread]);
    }
  }

  lemma StepTemps(w: World, a: Action)
    requires TempsDistinct(w) && TempsGood(w) && Enabled(w, a)
    ensures TempsGood(Step(w, a))
  {
    if !a.Crash? {
      var w' := Step(w, a);
      forall t | t in w'.threads && InProgress(w'.threads[t]) ensures TempFits(w', w'.threads[t]) {
        if t == a.thread {
          OwnFits(w, a);
        } else {
          OthersFit(w, a, t);
        }
      }
    }
  }

  lemma StepPlants(w: World, a: Action)
    requires PlantsGood(w) && TempsGood(w) && Enabled(w, a)
    ensures PlantsGood(Step(w, a))
  {
    match a
    case Rename(t) =>
      assert InProgress(w.threads[t]) && TempFits(w, w.threads[t]);
    case Crash(survivors) =>
      assert forall p | p in survivors :: survivors[p].synced && survivors[p].content.Whole?;
    case _ =>
  }

  lemma StepKeeps(w: World, a: Action)
    requires Inv(w) && Enabled(w, a)
    ensures Inv(Step(w, a))
  {
    StepExclusive(w, a);
    StepDistinct(w, a);
    StepTemps(w, a);
    StepPlants(w, a);
  }

  // Whole runs ------------------------------------------------------------------------

  ghost predicate Runs(w: World, actions: seq<Action>)
    decreases |actions|, 0
  {
    actions == []
    || (Runs(w, actions[..|actions| - 1]) && Enabled(After(w, actions[..|actions| - 1]), actions[|actions| - 1]))
  }

  ghost function After(w: World, actions: seq<Action>): World
    requires Runs(w, actions)
    decreases |actions|, 1
  {
    if actions == [] then w else Step(After(w, actions[..|actions| - 1]), actions[|actions| - 1])
  }

  const EMPTY := World(map[], map[], 0, map[], map[])

  /** The run contains a Save of this state for this plant. */
  ghost predicate Requested(actions: seq<Action>, plant: int, value: PlantState) {
    exists i | 0 <= i < |actions| :: actions[i].BeginSave? && actions[i].plant == plant && actions[i].value == value
  }

  ghost predicate OnlyRequested(w: World, actions: seq<Action>) {
    && (forall t | t in w.threads && w.threads[t].Saving? :: Requested(actions, w.threads[t].plant, w.threads[t].value))
    && (forall p, v | v in RenamedOf(w, p) :: Requested(actions, p, v))
  }

  lemma RequestedGrows(actions: seq<Action>, a: Action)
    ensures forall p, v :: Requested(actions, p, v) ==> Requested(actions + [a], p, v)
    ensures a.BeginSave? ==> Requested(actions + [a], a.plant, a.value)
  {
    forall p, v | Requested(actions, p, v) ensures Requested(actions + [a], p, v) {
      var i :| 0 <= i < |actions| && actions[i].BeginSave? && actions[i].plant == p && actions[i].value == v;
      assert (actions + [a])[i] == actions[i];
    }
    assert (actions + [a])[|actions|] == a;
  }

  lemma StepRequested(w: World, actions: seq<Action>, a: Action)
    requires OnlyRequested(w, actions) && Enabled(w, a)
    ensures OnlyRequested(Step(w, a), actions + [a])
  {
    RequestedGrows(actions, a);
  }

  lemma {:induction false} RunKeeps(actions: seq<Action>)
    requires Runs(EMPTY, actions)
    ensures Inv(After(EMPTY, actions)) && OnlyRequested(After(EMPTY, actions), actions)
    decreases |actions|
  {
    if actions != [] {
      var before, a := actions[..|actions| - 1], actions[|actions| - 1];
      assert actions == before + [a];
      RunKeeps(before);
      StepKeeps(After(EMPTY, before), a);
      StepRequested(After(EMPTY, before), before, a);
    }
  }

  /** The step puts this state in place for this plant, from a temporary file that holds
      the whole of it and is synced. */
  ghost predicate PutsInPlace(w: World, a: Action, plant: int, value: PlantState) {
    && a.Rename? && At(w, a.thread, Closed) && HasTemp(w, a.thread)
    && ThreadOf(w, a.thread).plant == plant && ThreadOf(w, a.thread).value == value
    && w.temps[TempOf(w, a.thread)] == File(Whole(value), true)
  }

  /** Some step of the run did. */
  ghost predicate Completed(actions: seq<Action>, plant: int, value: PlantState)
    requires Runs(EMPTY, actions)
    decreases |actions|
  {
    actions != []
    && var before := actions[..|actions| - 1];
       Completed(before, plant, value) || PutsInPlace(After(EMPTY, before), actions[|actions| - 1], plant, value)
  }

  lemma StepRenamed(w: World, a: Action, plant: int, value: PlantState)
    requires Inv(w) && Enabled(w, a)
    ensures value in RenamedOf(Step(w, a), plant) <==> value in RenamedOf(w, plant) || PutsInPlace(w, a, plant, value)
  {
    if a.Rename? {
      assert InProgress(w.threads[a.thread]) && TempFits(w, w.threads[a.thread]);
    }
  }

  /** The history records exactly the saves that were carried through to the rename. */
  lemma {:induction false} RenamedIffCompleted(actions: seq<Action>, plant: int, value: PlantState)
    requires Runs(EMPTY, actions)
    ensures value in RenamedOf(After(EMPTY, actions), plant) <==> Completed(actions, plant, value)
    decreases |actions|
  {
    if actions != [] {
      var before := actions[..|actions| - 1];
      RunKeeps(before);
      RenamedIffCompleted(before, plant, value);
      StepRenamed(After(EMPTY, before), actions[|actions| - 1], plant, value);
    }
  }

  /** In every run, with any interleaving, any failed system call and crashes anywhere, a
      Load yields the zero value or a state that some Save for that plant wrote, synced
      and renamed into place; it never meets a torn file. */
  lemma LoadIsZeroOrSaved(actions: seq<Action>, plant: int)
    requires Runs(EMPTY, actions)
    ensures LoadResult(After(EMPTY, actions), plant).Value?
    ensures var s := LoadResult(After(EMPTY, actions), plant).state;
            s == ZERO || (Completed(actions, plant, s) && Requested(actions, plant, s))
  {
    RunKeeps(actions);
    RenamedIffCompleted(actions, plant, LoadResult(After(EMPTY, actions), plant).state);
  }

  /** Only the rename of a Save for the same plant, or a crash, changes what Load returns;
      work on one plant never shows in another. */
  lemma OnlyOwnRenameShows(w: World, a: Action, plant: int)
    requires Inv(w) && Enabled(w, a) && !a.Crash?
    ensures LoadResult(Step(w, a), plant) ==
            if a.Rename? && ThreadOf(w, a.thread).plant == plant then Value(ThreadOf(w, a.thread).value)
            else LoadResult(w, plant)
  {
    if a.Rename? {
      assert InProgress(w.threads[a.thread]) && TempFits(w, w.threads[a.thread]);
    }
  }

  /** The state that the latest rename for this plant put in place, if that came after the
      latest crash. */
  ghost function Recent(actions: seq<Action>, plant: int): Option<PlantState>
    requires Runs(EMPTY, actions)
    decreases |actions|
  {
    if actions == [] then None
    else
      var before, a := actions[..|actions| - 1], actions[|actions| - 1];
      var w := After(EMPTY, before);
      if a.Crash? then None
      else if a.Rename? && ThreadOf(w, a.thread).plant == plant then Some(ThreadOf(w, a.thread).value)
      else Recent(before, plant)
  }

  /** In every run a Load returns the state renamed last since the latest crash, and
      without a crash the zero value until there is one: each plant behaves as one atomic
      register. */
  lemma {:induction false} LoadSeesLatest(actions: seq<Action>, plant: int)
    requires Runs(EMPTY, actions)
    ensures Recent(actions, plant).Some? ==>
              LoadResult(After(EMPTY, actions), plant) == Value(Recent(actions, plant).value)
    ensures Recent(actions, plant).None? && (forall a | a in actions :: !a.Crash?) ==>
              LoadResult(After(EMPTY, actions), plant) == Value(ZERO)
    decreases |actions|
  {
    if actions != [] {
      var before, a := actions[..|actions| - 1], actions[|actions| - 1];
      RunKeeps(before);
      LoadSeesLatest(before, plant);
      if a.Crash? {
        assert a in actions;
      } else {
        OnlyOwnRenameShows(After(EMPTY, before), a, plant);
      }
    }
  }

  /** A crash may undo saves, however successful, because the directory is never synced:
      at any point of any run a plant may come back with any state that was ever renamed
      into place for it, or with the zero value, and with nothing else. */
  lemma CrashMayRestore(w: World, plant: int, state: PlantState)
    requires Inv(w)
    ensures (exists survivors ::
               Enabled(w, Crash(survivors)) && LoadResult(Step(w, Crash(survivors)), plant) == Value(state))
            <==> state == ZERO || state in RenamedOf(w, plant)
  {
    if state in RenamedOf(w, plant) {
      var survivors := map[plant := File(Whole(state), true)];
      assert Enabled(w, Crash(survivors)) && LoadResult(Step(w, Crash(survivors)), plant) == Value(state);
    }
    if state == ZERO {
      assert Enabled(w, Crash(map[])) && LoadResult(Step(w, Crash(map[])), plant) == Value(state);
    }
  }

  /** While a thread is between BeginLoad and EndLoad no other thread can rename over the
      file it reads. */
  lemma LoadIsUndisturbed(w: World, t: nat, a: Action)
    requires Inv(w) && ThreadOf(w, t).Loading? && Enabled(w, a) && !a.Crash?
    ensures LoadResult(Step(w, a), ThreadOf(w, t).plant) == LoadResult(w, ThreadOf(w, t).plant)
  {
    OnlyOwnRenameShows(w, a, ThreadOf(w, t).plant);
  }

  /** The sync is needed wherever it stands: if any saver, in any state the system can be
      in, went from the write straight on to close and rename, a crash could leave a torn
      file in place. */
  lemma UnsyncedRenameWouldTear(w: World, t: nat, skipped: World)
    requires Inv(w) && At(w, t, Written) && skipped == Move(w, t, Closed)
    ensures Enabled(skipped, Rename(t))
    ensures exists survivors ::
              Enabled(Step(skipped, Rename(t)), Crash(survivors))
              && LoadResult(Step(Step(skipped, Rename(t)), Crash(survivors)), ThreadOf(w, t).plant) == DecodeError
  {
    assert InProgress(w.threads[t]) && TempFits(w, w.threads[t]);
    var plant := ThreadOf(w, t).plant;
    var renamed := Step(skipped, Rename(t));
    var torn := map[plant := File(Torn, false)];
    assert Enabled(renamed, Crash(torn));
    assert LoadResult(Step(renamed, Crash(torn)), plant) == DecodeError;
  }
}
