/** The transaction executor read off the past: which steps its callers may take next, and
    what exclusion and spacing mean, in terms of the steps taken so far alone. */
module ExecutorHistory {
  import opened Bytes
  import opened Executor

  // What happened --------------------------------------------------------------------------

  /** The time by now. */
  function Clock(start: int, actions: seq<Action>): int {
    if actions == [] then start
    else
      var a := actions[|actions| - 1];
      Clock(start, actions[..|actions| - 1]) + if a.Tick? then a.passed else 0
  }

  /** The call's own latest step. */
  function LatestOf(actions: seq<Action>, id: nat): Option<Action> {
    if actions == [] then None
    else
      var a := actions[|actions| - 1];
      if !a.Tick? && a.id == id then Some(a) else LatestOf(actions[..|actions| - 1], id)
  }

  /** How the call was made: locally or not, and with which minimum delay. */
  function EntryOf(actions: seq<Action>, id: nat): (bool, int) {
    if actions == [] then (false, 0)
    else
      var a := actions[|actions| - 1];
      if a.Enter? && a.id == id then (a.local, a.delay) else EntryOf(actions[..|actions| - 1], id)
  }

  /** The times at which successful local sends ended. */
  function Ends(start: int, actions: seq<Action>): seq<int> {
    if actions == [] then []
    else
      var before, a := actions[..|actions| - 1], actions[|actions| - 1];
      Ends(start, before)
      + if a.EndSend? && a.ok && EntryOf(before, a.id).0 then [Clock(start, before)] else []
  }

  /** The latest of them. */
  function Mark(start: int, actions: seq<Action>): Option<int> {
    var ends := Ends(start, actions);
    if ends == [] then None else Some(ends[|ends| - 1])
  }

  /** The call has the token. */
  predicate Owns(actions: seq<Action>, id: nat) {
    var latest := LatestOf(actions, id);
    latest.Some? && !latest.value.Enter? && !latest.value.Abandon? && !latest.value.Release?
  }

  /** When the call looked at the spacing, its delay had not yet passed. */
  predicate MustPause(start: int, actions: seq<Action>, id: nat) {
    actions != []
    && var before := actions[..|actions| - 1];
       if actions[|actions| - 1] == CheckSpacing(id) then
         && EntryOf(before, id).0 && Mark(start, before).Some?
         && Clock(start, before) < Mark(start, before).value + EntryOf(before, id).1
       else MustPause(start, before, id)
  }

  // Which steps may come next ----------------------------------------------------------------

  /** A call queues, takes the token if nobody has it, looks at the spacing, pauses until
      its delay has passed since the latest successful local send if it must, sends, and
      gives the token back. */
  ghost predicate May(start: int, actions: seq<Action>, a: Action) {
    match a
    case Tick(_) => true
    case Enter(id, _, _) =>
      LatestOf(actions, id) in {None, Some(Abandon(id)), Some(Release(id))}
    case Abandon(id) => LatestOf(actions, id).Some? && LatestOf(actions, id).value.Enter?
    case Acquire(id) =>
      LatestOf(actions, id).Some? && LatestOf(actions, id).value.Enter? && forall other: nat :: !Owns(actions, other)
    case CheckSpacing(id) => LatestOf(actions, id) == Some(Acquire(id))
    case WaitEnds(id) =>
      && LatestOf(actions, id) == Some(CheckSpacing(id)) && MustPause(start, actions, id)
      && Mark(start, actions).Some? && Clock(start, actions) >= Mark(start, actions).value + EntryOf(actions, id).1
    case WaitCancelled(id) => LatestOf(actions, id) == Some(CheckSpacing(id)) && MustPause(start, actions, id)
    case BeginSend(id) =>
      || LatestOf(actions, id) == Some(WaitEnds(id))
      || (LatestOf(actions, id) == Some(CheckSpacing(id)) && !MustPause(start, actions, id))
    case EndSend(id, _) => LatestOf(actions, id) == Some(BeginSend(id))
    case Release(id) =>
      LatestOf(actions, id) in {Some(WaitCancelled(id)), Some(EndSend(id, true)), Some(EndSend(id, false))}
  }

  ghost predicate Lawful(start: int, actions: seq<Action>) {
    actions != [] ==>
      Lawful(start, actions[..|actions| - 1]) && May(start, actions[..|actions| - 1], actions[|actions| - 1])
  }

  // The state read off the past ----------------------------------------------------------------

  /** Where the call stands after its own latest step. */
  predicate PcTold(start: int, actions: seq<Action>, id: nat, pc: Pc) {
    var latest := LatestOf(actions, id);
    latest.Some?
    && match latest.value
       case Enter(_, _, _) => pc == Queued
       case Acquire(_) => pc == Holding
       case CheckSpacing(_) => if MustPause(start, actions, id) then pc.Spacing? else pc == Ready
       case WaitEnds(_) => pc == Ready
       case WaitCancelled(_) => pc == Leaving
       case BeginSend(_) => pc == Sending
       case EndSend(_, _) => pc == Leaving
       case _ => false
  }

  predicate Absent(actions: seq<Action>, id: nat) {
    LatestOf(actions, id) in {None, Some(Abandon(id)), Some(Release(id))}
  }

  ghost predicate CallTold(start: int, actions: seq<Action>, w: World, id: nat) {
    && (LatestOf(actions, id).Some? ==> !LatestOf(actions, id).value.Tick? && LatestOf(actions, id).value.id == id)
    && (id in w.calls <==> !Absent(actions, id))
    && (id in w.calls ==>
          && EntryOf(actions, id) == (w.calls[id].local, w.calls[id].delay)
          && PcTold(start, actions, id, w.calls[id].pc))
  }

  ghost predicate Told(start: int, actions: seq<Action>, w: World) {
    && Inv(w)
    && w.now == Clock(start, actions) && w.ended == Ends(start, actions) && w.lastSend == Mark(start, actions)
    && forall id: nat :: CallTold(start, actions, w, id)
  }

  lemma OtherCall(start: int, before: seq<Action>, a: Action, actions: seq<Action>, w: World, id: nat)
    requires actions == before + [a] && Enabled(w, a) && (a.Tick? || a.id != id) && CallTold(start, before, w, id)
    ensures CallTold(start, actions, Step(w, a), id)
  {
    assert actions[..|actions| - 1] == before;
  }

  lemma OwnCall(start: int, before: seq<Action>, a: Action, actions: seq<Action>, w: World)
    requires actions == before + [a] && Enabled(w, a) && !a.Tick? && CallTold(start, before, w, a.id)
    requires w.now == Clock(start, before) && w.lastSend == Mark(start, before)
    ensures CallTold(start, actions, Step(w, a), a.id)
  {
    assert actions[..|actions| - 1] == before;
    match a
    case Enter(_, _, _) =>
    case Abandon(_) =>
    case Acquire(_) =>
    case CheckSpacing(_) =>
    case WaitEnds(_) =>
    case WaitCancelled(_) =>
    case BeginSend(_) =>
    case EndSend(_, _) =>
    case Release(_) =>
    case Tick(_) =>
  }

  lemma TimesTold(start: int, before: seq<Action>, a: Action, actions: seq<Action>, w: World)
    requires actions == before + [a] && Enabled(w, a) && (a.EndSend? ==> CallTold(start, before, w, a.id))
    requires w.now == Clock(start, before) && w.ended == Ends(start, before) && w.lastSend == Mark(start, before)
    ensures var w' := Step(w, a);
            w'.now == Clock(start, actions) && w'.ended == Ends(start, actions) && w'.lastSend == Mark(start, actions)
  {
    assert actions[..|actions| - 1] == before;
  }

  lemma ToldStep(start: int, before: seq<Action>, a: Action, actions: seq<Action>, w: World)
    requires actions == before + [a] && Enabled(w, a) && Told(start, before, w)
    ensures Told(start, actions, Step(w, a))
  {
    StepKeeps(w, a);
    TimesTold(start, before, a, actions, w);
    forall id: nat ensures CallTold(start, actions, Step(w, a), id) {
      assert CallTold(start, before, w, id);
      if a.Tick? || a.id != id {
        OtherCall(start, before, a, actions, w, id);
      } else {
        OwnCall(start, before, a, actions, w);
      }
    }
  }

  /** After any run the clock, the mark and every call are what the steps so far say. */
  lemma {:induction false} RunTold(start: int, actions: seq<Action>)
    requires Runs(Start(start), actions)
    ensures Told(start, actions, After(Start(start), actions))
    decreases |actions|
  {
    if actions != [] {
      var before, a := actions[..|actions| - 1], actions[|actions| - 1];
      assert actions == before + [a];
      RunTold(start, before);
      ToldStep(start, before, a, actions, After(Start(start), before));
    }
  }

  lemma OwnsIff(start: int, actions: seq<Action>, w: World, id: nat)
    requires CallTold(start, actions, w, id)
    ensures Owns(actions, id) <==> Holds(w, id)
  {
  }

  lemma TokenIff(start: int, actions: seq<Action>, w: World)
    requires Told(start, actions, w)
    ensures w.token <==> forall other: nat :: !Owns(actions, other)
  {
    forall id: nat ensures Owns(actions, id) <==> Holds(w, id) {
      OwnsIff(start, actions, w, id);
    }
  }

  lemma MayIff(start: int, actions: seq<Action>, w: World, a: Action)
    requires Told(start, actions, w)
    ensures Enabled(w, a) <==> May(start, actions, a)
  {
    if !a.Tick? {
      assert CallTold(start, actions, w, a.id);
      if a.Acquire? {
        TokenIff(start, actions, w);
      } else {
        CallMay(start, actions, w, a);
      }
    }
  }

  lemma CallMay(start: int, actions: seq<Action>, w: World, a: Action)
    requires Inv(w) && !a.Tick? && !a.Acquire? && CallTold(start, actions, w, a.id)
    requires w.now == Clock(start, actions) && w.lastSend == Mark(start, actions)
    ensures Enabled(w, a) <==> May(start, actions, a)
  {
  }

  /** The runs of any number of calls are exactly the lawful sequences of steps. */
  lemma {:induction false} RunsIffLawful(start: int, actions: seq<Action>)
    ensures Runs(Start(start), actions) <==> Lawful(start, actions)
    decreases |actions|
  {
    if actions != [] {
      var before, a := actions[..|actions| - 1], actions[|actions| - 1];
      RunsIffLawful(start, before);
      if Runs(Start(start), before) {
        RunTold(start, before);
        MayIff(start, before, After(Start(start), before), a);
      }
    }
  }

  // What the executor promises -------------------------------------------------------------------

  /** No two calls of a run have the token at once. */
  lemma OneOwner(start: int, actions: seq<Action>, i: nat, j: nat)
    requires Lawful(start, actions) && Owns(actions, i) && Owns(actions, j)
    ensures i == j
  {
    RunsIffLawful(start, actions);
    RunTold(start, actions);
    OwnsIff(start, actions, After(Start(start), actions), i);
    OwnsIff(start, actions, After(Start(start), actions), j);
  }

  /** A local send of a run begins at least its own delay after every successful local send
      that ended before it. */
  lemma SendsAreSpaced(start: int, actions: seq<Action>, id: nat, k: nat)
    requires Lawful(start, actions) && May(start, actions, BeginSend(id)) && EntryOf(actions, id).0
    requires k < |Ends(start, actions)|
    ensures Clock(start, actions) >= Ends(start, actions)[k] + EntryOf(actions, id).1
  {
    RunsIffLawful(start, actions);
    RunTold(start, actions);
    var w := After(Start(start), actions);
    assert CallTold(start, actions, w, id);
    LocalSendsAreSpaced(start, actions, id, w);
  }
}
