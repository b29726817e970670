/** The subnet scan read off the past: which steps producer, workers and collector may take
    next, and what the result is, in terms of the steps taken so far alone. */
module ScanHistory {
  import opened Bytes
  import opened Scan
  import Addresses

  // What happened --------------------------------------------------------------------------

  /** How many hosts were handed out. */
  function Handed(actions: seq<Action>): nat {
    if actions == [] then 0
    else Handed(actions[..|actions| - 1]) + if actions[|actions| - 1].Hand? then 1 else 0
  }

  /** A step of one worker. */
  predicate OfWorker(a: Action) {
    a.Hand? || a.ProbeReturns? || a.Deliver? || a.GiveUp? || a.WorkerEnds?
  }

  /** The worker's own latest step. */
  function LatestOf(actions: seq<Action>, k: nat): Option<Action> {
    if actions == [] then None
    else
      var a := actions[|actions| - 1];
      if OfWorker(a) && a.worker == k then Some(a) else LatestOf(actions[..|actions| - 1], k)
  }

  /** The host the worker was handed latest; hosts are numbered as they are handed out. */
  function HostOf(actions: seq<Action>, k: nat): nat {
    if actions == [] then 0
    else
      var before := actions[..|actions| - 1];
      if actions[|actions| - 1] == Hand(k) then Handed(before) else HostOf(before, k)
  }

  /** The hosts delivered to the collector, in order. */
  function Delivered(actions: seq<Action>): seq<nat> {
    if actions == [] then []
    else
      var before, a := actions[..|actions| - 1], actions[|actions| - 1];
      Delivered(before) + if a.Deliver? then [HostOf(before, a.worker)] else []
  }

  // Which steps may come next ----------------------------------------------------------------

  predicate ProducerLeft(actions: seq<Action>) {
    ProducerStops in actions || ProducerEnds in actions
  }

  /** The worker waits for a host. */
  predicate Waits(actions: seq<Action>, k: nat) {
    LatestOf(actions, k) in {None, Some(ProbeReturns(k, false)), Some(Deliver(k))}
  }

  /** The producer hands out each host once and leaves when there are no more, or early
      after a cancellation; a worker probes a host it was handed, delivers it if the probe
      finds it, and leaves when the producer has left, or with a found host after a
      cancellation; the results are closed once all workers have left. */
  predicate May(hosts: nat, concurrency: nat, up: set<nat>, actions: seq<Action>, a: Action) {
    match a
    case Cancel => Cancel !in actions
    case Hand(k) => !ProducerLeft(actions) && Handed(actions) < hosts && k < concurrency && Waits(actions, k)
    case ProducerStops => !ProducerLeft(actions) && Handed(actions) < hosts && Cancel in actions
    case ProducerEnds => !ProducerLeft(actions) && Handed(actions) >= hosts
    case ProbeReturns(k, found) =>
      && LatestOf(actions, k) == Some(Hand(k))
      && (if found then HostOf(actions, k) in up else HostOf(actions, k) !in up || Cancel in actions)
    case Deliver(k) => LatestOf(actions, k) == Some(ProbeReturns(k, true)) && CollectorEnds !in actions
    case GiveUp(k) => LatestOf(actions, k) == Some(ProbeReturns(k, true)) && Cancel in actions
    case WorkerEnds(k) => k < concurrency && Waits(actions, k) && ProducerLeft(actions)
    case CloseResults =>
      CloseResults !in actions
      && forall k | 0 <= k < concurrency :: LatestOf(actions, k) in {Some(GiveUp(k)), Some(WorkerEnds(k))}
    case CollectorEnds => CloseResults in actions && CollectorEnds !in actions
  }

  predicate Lawful(hosts: nat, concurrency: nat, up: set<nat>, actions: seq<Action>) {
    actions != [] ==>
      Lawful(hosts, concurrency, up, actions[..|actions| - 1])
      && May(hosts, concurrency, up, actions[..|actions| - 1], actions[|actions| - 1])
  }

  // The state read off the past ----------------------------------------------------------------

  predicate WorkerTold(actions: seq<Action>, k: nat, worker: Worker) {
    match LatestOf(actions, k)
    case None => worker == Ready
    case Some(Hand(_)) => worker == Probing(HostOf(actions, k))
    case Some(ProbeReturns(_, found)) => worker == if found then Sending(HostOf(actions, k)) else Ready
    case Some(Deliver(_)) => worker == Ready
    case Some(_) => worker == Exited
  }

  predicate OwnLatest(actions: seq<Action>, k: nat) {
    LatestOf(actions, k).Some? ==> OfWorker(LatestOf(actions, k).value) && LatestOf(actions, k).value.worker == k
  }

  predicate FlagsTold(actions: seq<Action>, w: World) {
    && w.next == Handed(actions) && w.collected == Delivered(actions)
    && (w.open <==> !ProducerLeft(actions))
    && (w.closed <==> CloseResults in actions)
    && (w.finished <==> CollectorEnds in actions)
    && (w.cancelled <==> Cancel in actions)
  }

  ghost predicate Told(actions: seq<Action>, w: World) {
    && FlagsTold(actions, w)
    && (forall k | 0 <= k < |w.workers| :: WorkerTold(actions, k, w.workers[k]))
    && (forall k: nat | k >= |w.workers| :: LatestOf(actions, k).None?)
    && forall k: nat :: OwnLatest(actions, k)
  }

  lemma OwnStepTold(up: set<nat>, before: seq<Action>, a: Action, actions: seq<Action>, w: World, k: nat)
    requires actions == before + [a] && Enabled(w, up, a) && FlagsTold(before, w)
    requires k < |w.workers| && WorkerTold(before, k, w.workers[k]) && OfWorker(a) && a.worker == k
    ensures k < |Step(w, up, a).workers| && WorkerTold(actions, k, Step(w, up, a).workers[k])
  {
    assert actions[..|actions| - 1] == before;
    match a
    case Hand(_) =>
    case ProbeReturns(_, _) =>
    case Deliver(_) =>
    case GiveUp(_) =>
    case WorkerEnds(_) =>
    case _ =>
  }

  lemma OthersStay(up: set<nat>, w: World, a: Action, k: nat)
    requires Enabled(w, up, a) && k < |w.workers| && (OfWorker(a) ==> a.worker != k)
    ensures k < |Step(w, up, a).workers| && Step(w, up, a).workers[k] == w.workers[k]
  {
  }

  lemma WorkerToldStep(up: set<nat>, before: seq<Action>, a: Action, actions: seq<Action>, w: World, k: nat)
    requires actions == before + [a] && Enabled(w, up, a) && FlagsTold(before, w)
    requires k < |w.workers| && WorkerTold(before, k, w.workers[k])
    ensures k < |Step(w, up, a).workers| && WorkerTold(actions, k, Step(w, up, a).workers[k])
  {
    if OfWorker(a) && a.worker == k {
      OwnStepTold(up, before, a, actions, w, k);
    } else {
      OthersStay(up, w, a, k);
      SameTold(before, a, actions, k, w.workers[k]);
    }
  }

  lemma SameTold(before: seq<Action>, a: Action, actions: seq<Action>, k: nat, worker: Worker)
    requires actions == before + [a] && (OfWorker(a) ==> a.worker != k) && WorkerTold(before, k, worker)
    ensures WorkerTold(actions, k, worker)
  {
    assert actions[..|actions| - 1] == before;
  }

  lemma FlagsToldStep(up: set<nat>, before: seq<Action>, a: Action, actions: seq<Action>, w: World)
    requires actions == before + [a] && Enabled(w, up, a) && FlagsTold(before, w)
    requires OfWorker(a) ==> a.worker < |w.workers| && WorkerTold(before, a.worker, w.workers[a.worker])
    ensures FlagsTold(actions, Step(w, up, a))
  {
    assert actions[..|actions| - 1] == before;
  }

  lemma ToldStep(up: set<nat>, before: seq<Action>, a: Action, actions: seq<Action>, w: World)
    requires actions == before + [a] && Enabled(w, up, a) && Told(before, w)
    ensures Told(actions, Step(w, up, a))
  {
    FlagsToldStep(up, before, a, actions, w);
    StepSizes(w, up, a);
    var w' := Step(w, up, a);
    forall k | 0 <= k < |w'.workers| ensures WorkerTold(actions, k, w'.workers[k]) {
      WorkerToldStep(up, before, a, actions, w, k);
    }
    forall k: nat ensures OwnLatest(actions, k) && (k >= |w'.workers| ==> LatestOf(actions, k).None?) {
      assert actions[..|actions| - 1] == before;
      assert OwnLatest(before, k);
    }
  }

  /** After any run the flags, the workers and what was collected are what the steps so far
      say. */
  lemma {:induction false} RunTold(hosts: nat, concurrency: nat, up: set<nat>, actions: seq<Action>)
    requires concurrency >= 1 && Runs(Start(hosts, concurrency), up, actions)
    ensures Told(actions, After(Start(hosts, concurrency), up, actions))
    decreases |actions|
  {
    if actions != [] {
      var before, a := actions[..|actions| - 1], actions[|actions| - 1];
      assert actions == before + [a];
      RunTold(hosts, concurrency, up, before);
      ToldStep(up, before, a, actions, After(Start(hosts, concurrency), up, before));
    }
  }

  lemma MayIff(hosts: nat, concurrency: nat, up: set<nat>, actions: seq<Action>, w: World, a: Action)
    requires Told(actions, w) && |w.workers| == concurrency && |w.ledger| == hosts
    ensures Enabled(w, up, a) <==> May(hosts, concurrency, up, actions, a)
  {
    if OfWorker(a) {
      assert OwnLatest(actions, a.worker);
      assert a.worker < concurrency ==> WorkerTold(actions, a.worker, w.workers[a.worker]);
    } else if a.CloseResults? {
      forall k | 0 <= k < concurrency
        ensures w.workers[k] == Exited <==> LatestOf(actions, k) in {Some(GiveUp(k)), Some(WorkerEnds(k))}
      {
        assert OwnLatest(actions, k) && WorkerTold(actions, k, w.workers[k]);
      }
    }
  }

  /** The runs of a scan are exactly the lawful sequences of steps. */
  lemma {:induction false} RunsIffLawful(hosts: nat, concurrency: nat, up: set<nat>, actions: seq<Action>)
    requires concurrency >= 1
    ensures Runs(Start(hosts, concurrency), up, actions) <==> Lawful(hosts, concurrency, up, actions)
    decreases |actions|
  {
    if actions != [] {
      var before, a := actions[..|actions| - 1], actions[|actions| - 1];
      RunsIffLawful(hosts, concurrency, up, before);
      if Runs(Start(hosts, concurrency), up, before) {
        RunTold(hosts, concurrency, up, before);
        RunKeeps(hosts, concurrency, up, before);
        MayIff(hosts, concurrency, up, before, After(Start(hosts, concurrency), up, before), a);
      }
    }
  }

  // What the scan promises -------------------------------------------------------------------

  /** When the collector has ended and nothing was cancelled, the addresses delivered, once
      sorted, are each of the block's addresses that is reachable, exactly once, less the
      first and the last of a block of four or more. */
  lemma SortedResultIsExact(p: Addresses.Prefix, concurrency: nat, reach: set<nat>, actions: seq<Action>,
                            out: seq<nat>)
    requires p.Valid() && concurrency >= 1 && CollectorEnds in actions && Cancel !in actions
    requires var hosts := Addresses.Usable(p);
             Lawful(|hosts|, concurrency, Indices(hosts, reach), actions)
    requires Ascending(out) && multiset(out) == multiset(Arrivals(Addresses.Usable(p), Delivered(actions)))
    ensures StrictlyAscending(out)
    ensures forall a: nat ::
              a in out <==>
                && a in reach && p.Contains(a)
                && (p.bits <= 30 ==> a != p.Network() && a != p.Network() + p.Size() - 1)
  {
    var hosts := Addresses.Usable(p);
    RunsIffLawful(|hosts|, concurrency, Indices(hosts, reach), actions);
    RunTold(|hosts|, concurrency, Indices(hosts, reach), actions);
    UncancelledScanIsExact(p, concurrency, reach, actions, out);
    Addresses.UsableAscending(p);
    ReachableFacts(hosts, reach);
    forall a: nat
      ensures a in hosts <==>
                p.Contains(a) && (p.bits <= 30 ==> a != p.Network() && a != p.Network() + p.Size() - 1)
    {
      Addresses.UsableExactly(p, a);
      Addresses.SizeSplit(p.bits);
    }
  }
}
