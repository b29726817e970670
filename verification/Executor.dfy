/** The transaction executor in front of a transport (internal/driver/executor.go): one
    transaction at a time, and a minimum pause between local transactions. */
module Executor {
  import opened Bytes
  import opened Cancellation

  // One call ---------------------------------------------------------------------------

  datatype Error = Cancelled | SendFailed

  /** What is sent through: it counts the sends and those that succeed. */
  class Sender {
    ghost var sends: nat
    ghost var successes: nat

    constructor ()
      ensures sends == successes == 0
    {
      sends, successes := 0, 0;
    }

    method Send() returns (ok: bool)
      modifies this
      ensures sends == old(sends) + 1 && successes == old(successes) + if ok then 1 else 0
    {
      ok := *;
      sends, successes := sends + 1, successes + if ok then 1 else 0;
    }
  }

  /** The executor object with its clock. The clock never runs backwards and a completed
      wait lasts at least as long as asked. */
  class Executor {
    /** The token lies in its channel. */
    var token: bool
    var lastSend: Option<int>
    var now: int
    /** When the last send began, if there was one. */
    var sendBegan: Option<int>

    constructor (start: int)
      ensures token && lastSend.None? && sendBegan.None? && now == start
    {
      token, lastSend, sendBegan, now := true, None, None, start;
    }

    method Elapse()
      modifies this`now
      ensures now >= old(now)
    {
      var passed: int :| passed >= 0;
      now := now + passed;
    }

    /** Waits, unless cancelled. */
    method Wait(ctx: Context, duration: int) returns (ok: bool)
      modifies this`now, ctx
      ensures now >= old(now) && (old(ctx.done) ==> ctx.done)
      ensures if ok then now >= old(now) + duration else ctx.done
    {
      var cancelled := ctx.Wait();
      var least := if cancelled || duration < 0 then 0 else duration;
      var passed: int :| passed >= least;
      now := now + passed;
      return !cancelled;
    }

    /** The token is back after every outcome. There is one send unless the call is
        cancelled. A local send begins no sooner than its own delay after the last
        successful local send ended, and only a successful local send moves that mark; a
        raw send does neither. */
    method Execute(ctx: Context, minimumDelay: int, recordSend: bool, sender: Sender) returns (r: Result<(), Error>)
      requires token
      modifies this, ctx, sender
      ensures token && now >= old(now) && (old(ctx.done) ==> ctx.done)
      ensures r == Err(Cancelled) ==> ctx.done && sender.sends == old(sender.sends) && sendBegan == old(sendBegan)
      ensures old(ctx.done) ==> r == Err(Cancelled)
      ensures r != Err(Cancelled) ==> sender.sends == old(sender.sends) + 1
      ensures sender.successes == old(sender.successes) + if r.Ok? then 1 else 0
      ensures r != Err(Cancelled) ==> sendBegan.Some? && old(now) <= sendBegan.value <= now
      ensures recordSend && old(lastSend).Some? && r != Err(Cancelled) ==>
                sendBegan.value >= old(lastSend).value + minimumDelay
      ensures r.Ok? && recordSend ==> lastSend.Some? && sendBegan.value <= lastSend.value <= now
      ensures !(r.Ok? && recordSend) ==> lastSend == old(lastSend)
    {
      var cancelled := ctx.Err();
      if cancelled {
        return Err(Cancelled);
      }
      Elapse();
      cancelled := ctx.Wait();
      if cancelled {
        return Err(Cancelled);
      }
      token := false;
      if recordSend && lastSend.Some? {
        var elapsed := now - lastSend.value;
        var remaining := minimumDelay - elapsed;
        if remaining > 0 {
          var waited := Wait(ctx, remaining);
          if !waited {
            token := true;
            return Err(Cancelled);
          }
        }
      }
      sendBegan := Some(now);
      var sent := sender.Send();
      Elapse();
      if sent && recordSend {
        lastSend := Some(now);
      }
      token := true;
      return if sent then Ok(()) else Err(SendFailed);
    }
  }

  // Any number of concurrent calls -------------------------------------------------------

  datatype Pc = Queued | Holding | Spacing(until: int) | Ready | Sending | Leaving

  datatype Call = Call(local: bool, delay: int, pc: Pc)

  /** ended collects the times at which successful local sends ended. */
  datatype World = World(now: int, token: bool, lastSend: Option<int>, calls: map<nat, Call>, ended: seq<int>)

  datatype Action =
    | Tick(passed: nat)
    | Enter(id: nat, local: bool, delay: int)
    | Abandon(id: nat)
    | Acquire(id: nat)
    | CheckSpacing(id: nat)
    | WaitEnds(id: nat)
    | WaitCancelled(id: nat)
    | BeginSend(id: nat)
    | EndSend(id: nat, ok: bool)
    | Release(id: nat)

  predicate At(w: World, id: nat, pc: Pc) {
    id in w.calls && w.calls[id].pc == pc
  }

  predicate Enabled(w: World, a: Action) {
    match a
    case Tick(_) => true
    case Enter(id, _, _) => id !in w.calls
    case Abandon(id) => At(w, id, Queued)
    case Acquire(id) => At(w, id, Queued) && w.token
    case CheckSpacing(id) => At(w, id, Holding)
    case WaitEnds(id) => id in w.calls && w.calls[id].pc.Spacing? && w.now >= w.calls[id].pc.until
    case WaitCancelled(id) => id in w.calls && w.calls[id].pc.Spacing?
    case BeginSend(id) => At(w, id, Ready)
    case EndSend(id, _) => At(w, id, Sending)
    case Release(id) => At(w, id, Leaving)
  }

  function Move(w: World, id: nat, pc: Pc): World
    requires id in w.calls
  {
    w.(calls := w.calls[id := w.calls[id].(pc := pc)])
  }

  function Step(w: World, a: Action): World
    requires Enabled(w, a)
  {
    match a
    case Tick(passed) => w.(now := w.now + passed)
    case Enter(id, local, delay) => w.(calls := w.calls[id := Call(local, delay, Queued)])
    case Abandon(id) => w.(calls := w.calls - {id})
    case Acquire(id) => Move(w, id, Holding).(token := false)
    case CheckSpacing(id) =>
      var call := w.calls[id];
      if call.local && w.lastSend.Some? && call.delay - (w.now - w.lastSend.value) > 0 then
        Move(w, id, Spacing(w.now + (call.delay - (w.now - w.lastSend.value))))
      else Move(w, id, Ready)
    case WaitEnds(id) => Move(w, id, Ready)
    case WaitCancelled(id) => Move(w, id, Leaving)
    case BeginSend(id) => Move(w, id, Sending)
    case EndSend(id, ok) =>
      if ok && w.calls[id].local then
        Move(w, id, Leaving).(lastSend := Some(w.now), ended := w.ended + [w.now])
      else Move(w, id, Leaving)
    case Release(id) => w.(calls := w.calls - {id}, token := true)
  }

  predicate Holds(w: World, id: nat) {
    id in w.calls && !w.calls[id].pc.Queued?
  }

  /** The call may begin its send without breaking the spacing. */
  predicate Spaced(w: World, id: nat)
    requires id in w.calls
  {
    w.calls[id].local && w.lastSend.Some? ==> w.now >= w.lastSend.value + w.calls[id].delay
  }

  ghost predicate Inv(w: World) {
    && (w.token ==> forall id | id in w.calls :: !Holds(w, id))
    && (forall i, j | Holds(w, i) && Holds(w, j) :: i == j)
    && (!w.token ==> exists id :: Holds(w, id))
    && (forall id | At(w, id, Ready) :: Spaced(w, id))
    && (forall id | id in w.calls && w.calls[id].pc.Spacing? ::
          w.calls[id].local && w.lastSend.Some? && w.calls[id].pc.until == w.lastSend.value + w.calls[id].delay)
    && (w.lastSend.None? ==> w.ended == [])
    && (w.lastSend.Some? ==>
          && w.lastSend.value <= w.now
          && forall i | 0 <= i < |w.ended| :: w.ended[i] <= w.lastSend.value)
  }

  /** A step that leaves everybody else alone keeps the exclusion. */
  lemma MoveKeeps(w: World, id: nat, pc: Pc)
    requires Inv(w) && Holds(w, id) && !pc.Queued?
    requires pc.Ready? ==> Spaced(w, id)
    requires pc.Spacing? ==> w.calls[id].local && w.lastSend.Some? && pc.until == w.lastSend.value + w.calls[id].delay
    ensures Inv(Move(w, id, pc))
  {
    var w' := Move(w, id, pc);
    assert Holds(w', id);
    assert forall j | Holds(w', j) :: Holds(w, j);
    assert forall j | At(w', j, Ready) && j != id :: At(w, j, Ready) && Spaced(w, j);
  }

  lemma TickKeeps(w: World, passed: nat)
    requires Inv(w)
    ensures Inv(Step(w, Tick(passed)))
  {
    var w' := Step(w, Tick(passed));
    assert forall j :: Holds(w', j) == Holds(w, j);
    assert forall j | At(w', j, Ready) :: At(w, j, Ready) && Spaced(w, j);
  }

  /** Calls that only wait for the token come and go without a trace. */
  lemma QueueKeeps(w: World, w': World, id: nat)
    requires Inv(w) && w' == w.(calls := w'.calls)
    requires w'.calls - {id} == w.calls - {id}
    requires !Holds(w, id) && !Holds(w', id)
    ensures Inv(w')
  {
    forall j | j != id
      ensures (j in w'.calls) == (j in w.calls)
      ensures j in w.calls ==> w'.calls[j] == w.calls[j]
      ensures Holds(w', j) == Holds(w, j)
    {
      assert (j in w'.calls - {id}) == (j in w.calls - {id});
      if j in w.calls {
        assert (w'.calls - {id})[j] == (w.calls - {id})[j];
      }
    }
    assert forall j | Holds(w, j) :: Holds(w', j);
    assert forall j | Holds(w', j) :: Holds(w, j);
    assert forall j | At(w', j, Ready) :: At(w, j, Ready) && Spaced(w, j);
  }

  lemma AcquireKeeps(w: World, id: nat)
    requires Inv(w) && Enabled(w, Acquire(id))
    ensures Inv(Step(w, Acquire(id)))
  {
    var w' := Step(w, Acquire(id));
    assert Holds(w', id);
    assert forall j | Holds(w', j) :: j == id;
    assert forall j | At(w', j, Ready) :: Holds(w', j);
  }

  lemma EndSendKeeps(w: World, id: nat)
    requires Inv(w) && Enabled(w, EndSend(id, true)) && w.calls[id].local
    ensures Inv(Step(w, EndSend(id, true)))
  {
    var w' := Step(w, EndSend(id, true));
    assert Holds(w, id) && Holds(w', id);
    assert forall j | Holds(w', j) :: Holds(w, j);
    assert forall j | At(w', j, Ready) :: Holds(w', j);
    assert forall j | j in w'.calls && w'.calls[j].pc.Spacing? :: Holds(w', j);
  }

  lemma ReleaseKeeps(w: World, id: nat)
    requires Inv(w) && Enabled(w, Release(id))
    ensures Inv(Step(w, Release(id)))
  {
    var w' := Step(w, Release(id));
    assert Holds(w, id);
    assert forall j | Holds(w', j) :: Holds(w, j) && j != id;
    assert forall j | At(w', j, Ready) :: Holds(w', j);
    assert forall j | j in w'.calls && w'.calls[j].pc.Spacing? :: Holds(w', j);
  }

  /** Every step keeps the exclusion and the spacing. */
  lemma StepKeeps(w: World, a: Action)
    requires Inv(w) && Enabled(w, a)
    ensures Inv(Step(w, a))
  {
    match a
    case Tick(passed) => TickKeeps(w, passed);
    case Enter(id, _, _) => QueueKeeps(w, Step(w, a), id);
    case Abandon(id) => QueueKeeps(w, Step(w, a), id);
    case Acquire(id) => AcquireKeeps(w, id);
    case CheckSpacing(id) =>
      MoveKeeps(w, id, Step(w, a).calls[id].pc);
    case WaitEnds(id) => MoveKeeps(w, id, Ready);
    case WaitCancelled(id) => MoveKeeps(w, id, Leaving);
    case BeginSend(id) => MoveKeeps(w, id, Sending);
    case EndSend(id, ok) =>
      if ok && w.calls[id].local {
        EndSendKeeps(w, id);
      } else {
        MoveKeeps(w, id, Leaving);
      }
    case Release(id) => ReleaseKeeps(w, id);
  }

  predicate Runs(w: World, actions: seq<Action>)
    decreases |actions|, 0
  {
    actions == []
    || (Runs(w, actions[..|actions| - 1]) && Enabled(After(w, actions[..|actions| - 1]), actions[|actions| - 1]))
  }

  function After(w: World, actions: seq<Action>): World
    requires Runs(w, actions)
    decreases |actions|, 1
  {
    if actions == [] then w else Step(After(w, actions[..|actions| - 1]), actions[|actions| - 1])
  }

  function Start(now: int): World {
    World(now, true, None, map[], [])
  }

  lemma {:induction false} RunKeeps(now: int, actions: seq<Action>)
    requires Runs(Start(now), actions)
    ensures Inv(After(Start(now), actions))
    decreases |actions|
  {
    if actions != [] {
      RunKeeps(now, actions[..|actions| - 1]);
      StepKeeps(After(Start(now), actions[..|actions| - 1]), actions[|actions| - 1]);
    }
  }

  /** In every run of any calls at most one holds the token, and whenever the token is not
      in its channel exactly one does. */
  lemma MutualExclusion(now: int, actions: seq<Action>, i: nat, j: nat)
    requires Runs(Start(now), actions) && Holds(After(Start(now), actions), i) && Holds(After(Start(now), actions), j)
    ensures i == j && !After(Start(now), actions).token
  {
    RunKeeps(now, actions);
  }

  /** In every run a local send begins at least its own delay after every successful local
      send that ended before it. */
  lemma LocalSendsAreSpaced(now: int, actions: seq<Action>, id: nat, w: World)
    requires Runs(Start(now), actions) && w == After(Start(now), actions)
    requires Enabled(w, BeginSend(id)) && w.calls[id].local
    ensures forall i | 0 <= i < |w.ended| :: w.now >= w.ended[i] + w.calls[id].delay
  {
    RunKeeps(now, actions);
    assert Spaced(w, id);
  }

  /** A raw call is ready as soon as it has the token and leaves no trace in the spacing. */
  lemma RawCallsIgnoreSpacing(w: World, id: nat)
    requires id in w.calls && !w.calls[id].local
    ensures Enabled(w, CheckSpacing(id)) ==> At(Step(w, CheckSpacing(id)), id, Ready)
    ensures forall ok :: Enabled(w, EndSend(id, ok)) ==>
              Step(w, EndSend(id, ok)).lastSend == w.lastSend && Step(w, EndSend(id, ok)).ended == w.ended
  {
  }

  function Remaining(pc: Pc): nat {
    match pc
    case Queued => 6
    case Holding => 5
    case Spacing(_) => 4
    case Ready => 3
    case Sending => 2
    case Leaving => 1
  }

  /** The token always comes back: its holder has a step to take, at the latest once the
      pause is over, and each of its steps brings the release nearer. */
  lemma HolderProgresses(w: World, id: nat) returns (pause: nat, own: Action)
    requires Inv(w) && Holds(w, id)
    ensures var later := Step(w, Tick(pause));
            && Enabled(later, own) && !own.Tick? && own.id == id
            && (id in Step(later, own).calls ==> Remaining(Step(later, own).calls[id].pc) < Remaining(w.calls[id].pc))
            && (id !in Step(later, own).calls ==> Step(later, own).token)
    ensures w.calls[id].pc.Spacing? ==> pause <= w.calls[id].delay || pause == 0
  {
    pause := 0;
    match w.calls[id].pc
    case Holding => own := CheckSpacing(id);
    case Spacing(until) =>
      pause := if until > w.now then until - w.now else 0;
      own := WaitEnds(id);
    case Ready => own := BeginSend(id);
    case Sending => own := EndSend(id, false);
    case Leaving => own := Release(id);
  }
}
