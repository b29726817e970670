/** The subnet scan (internal/discovery/subnet.go): a producer hands addresses to a fixed
    number of workers, each probes one address at a time and hands a reachable one to the
    collector; the context may be cancelled at any point. */
module Scan {
  import Addresses

  datatype Worker = Ready | Probing(host: nat) | Sending(host: nat) | Exited

  /** Where a host stands. Hosts are numbered in the producer's order. */
  datatype Place = Todo | At(worker: nat) | Collected | Gone

  /** next: the next host to hand out. open: the producer still runs, so the jobs channel
      is open. closed: the results channel is closed. ledger: history, host by host. */
  datatype World = World(
    workers: seq<Worker>,
    next: nat,
    open: bool,
    closed: bool,
    finished: bool,
    cancelled: bool,
    collected: seq<nat>,
    ledger: seq<Place>)

  datatype Action =
    | Cancel
    | Hand(worker: nat)
    | ProducerStops
    | ProducerEnds
    | ProbeReturns(worker: nat, found: bool)
    | Deliver(worker: nat)
    | GiveUp(worker: nat)
    | WorkerEnds(worker: nat)
    | CloseResults
    | CollectorEnds

  predicate Holding(w: World, k: nat) {
    k < |w.workers| && (w.workers[k].Probing? || w.workers[k].Sending?)
  }

  predicate Is(w: World, k: nat, worker: Worker) {
    k < |w.workers| && w.workers[k] == worker
  }

  /** up are the reachable hosts. A probe that finds a host is right; one that does not
      may only be wrong because it was cancelled. */
  predicate Enabled(w: World, up: set<nat>, a: Action) {
    match a
    case Cancel => !w.cancelled
    case Hand(k) => w.open && w.next < |w.ledger| && Is(w, k, Ready)
    case ProducerStops => w.open && w.next < |w.ledger| && w.cancelled
    case ProducerEnds => w.open && w.next >= |w.ledger|
    case ProbeReturns(k, found) =>
      k < |w.workers| && w.workers[k].Probing?
      && (if found then w.workers[k].host in up else w.workers[k].host !in up || w.cancelled)
    case Deliver(k) => k < |w.workers| && w.workers[k].Sending? && !w.finished
    case GiveUp(k) => k < |w.workers| && w.workers[k].Sending? && w.cancelled
    case WorkerEnds(k) => Is(w, k, Ready) && !w.open
    case CloseResults => !w.closed && forall k | 0 <= k < |w.workers| :: w.workers[k] == Exited
    case CollectorEnds => w.closed && !w.finished
  }

  function Put(w: World, k: nat, worker: Worker, host: nat, place: Place): World
    requires k < |w.workers|
  {
    w.(workers := w.workers[k := worker], ledger := if host < |w.ledger| then w.ledger[host := place] else w.ledger)
  }

  function Step(w: World, up: set<nat>, a: Action): World
    requires Enabled(w, up, a)
  {
    match a
    case Cancel => w.(cancelled := true)
    case Hand(k) => Put(w, k, Probing(w.next), w.next, At(k)).(next := w.next + 1)
    case ProducerStops => w.(open := false)
    case ProducerEnds => w.(open := false)
    case ProbeReturns(k, found) =>
      var host := w.workers[k].host;
      if found then Put(w, k, Sending(host), host, At(k)) else Put(w, k, Ready, host, Gone)
    case Deliver(k) =>
      var host := w.workers[k].host;
      Put(w, k, Ready, host, Collected).(collected := w.collected + [host])
    case GiveUp(k) => Put(w, k, Exited, w.workers[k].host, Gone)
    case WorkerEnds(k) => w.(workers := w.workers[k := Exited])
    case CloseResults => w.(closed := true)
    case CollectorEnds => w.(finished := true)
  }

  // The invariant -----------------------------------------------------------------------

  /** The ledger is what the workers really hold: no host is held twice. */
  ghost predicate Books(w: World) {
    && w.next <= |w.ledger|
    && (forall i | 0 <= i < |w.ledger| :: w.ledger[i] == Todo <==> i >= w.next)
    && (forall k: nat | Holding(w, k) :: w.workers[k].host < |w.ledger| && w.ledger[w.workers[k].host] == At(k))
    && (forall i | 0 <= i < |w.ledger| && w.ledger[i].At? ::
          Holding(w, w.ledger[i].worker) && w.workers[w.ledger[i].worker].host == i)
  }

  /** The collected hosts are those marked so, once each. */
  ghost predicate Takings(w: World) {
    && (forall i | 0 <= i < |w.collected| :: w.collected[i] < |w.ledger| && w.ledger[w.collected[i]] == Collected)
    && (forall i | 0 <= i < |w.ledger| && w.ledger[i] == Collected :: i in w.collected)
    && (forall i, j | 0 <= i < j < |w.collected| :: w.collected[i] != w.collected[j])
  }

  /** Only reachable hosts get past the probe, and without cancellation only they do. */
  ghost predicate Truth(w: World, up: set<nat>) {
    && (forall k | 0 <= k < |w.workers| && w.workers[k].Sending? :: w.workers[k].host in up)
    && (forall i | 0 <= i < |w.ledger| && w.ledger[i] == Collected :: i in up)
    && (!w.cancelled ==> forall i | 0 <= i < |w.ledger| && w.ledger[i] == Gone :: i !in up)
  }

  ghost predicate Stages(w: World) {
    && (!w.open && !w.cancelled ==> w.next == |w.ledger|)
    && (!w.cancelled && w.open ==> forall k | 0 <= k < |w.workers| :: w.workers[k] != Exited)
    && (w.closed ==> forall k | 0 <= k < |w.workers| :: w.workers[k] == Exited)
    && (w.finished ==> w.closed)
  }

  ghost predicate Inv(w: World, up: set<nat>) {
    Books(w) && Takings(w) && Truth(w, up) && Stages(w)
  }

  lemma HandKeepsBooks(w: World, k: nat)
    requires Books(w) && Is(w, k, Ready) && w.next < |w.ledger|
    ensures Books(Put(w, k, Probing(w.next), w.next, At(k)).(next := w.next + 1))
  {
    var w' := Put(w, k, Probing(w.next), w.next, At(k)).(next := w.next + 1);
    assert forall j: nat | Holding(w', j) && j != k :: Holding(w, j);
    assert Holding(w', k);
    assert forall j: nat | Holding(w, j) :: Holding(w', j);
  }

  lemma HandKeeps(w: World, up: set<nat>, k: nat)
    requires Inv(w, up) && Enabled(w, up, Hand(k))
    ensures Inv(Step(w, up, Hand(k)), up)
  {
    HandKeepsBooks(w, k);
  }

  /** A worker lets go of its host. */
  lemma ReleaseKeepsBooks(w: World, k: nat, worker: Worker, place: Place)
    requires Books(w) && Holding(w, k) && (worker == Ready || worker == Exited) && (place == Collected || place == Gone)
    ensures Books(Put(w, k, worker, w.workers[k].host, place))
  {
    var w' := Put(w, k, worker, w.workers[k].host, place);
    forall j: nat | Holding(w', j)
      ensures w'.workers[j].host < |w'.ledger| && w'.ledger[w'.workers[j].host] == At(j)
    {
      assert Holding(w, j) && j != k;
    }
    forall i | 0 <= i < |w'.ledger| && w'.ledger[i].At?
      ensures Holding(w', w'.ledger[i].worker) && w'.workers[w'.ledger[i].worker].host == i
    {
      assert w.ledger[i].At? && w.ledger[i].worker != k;
    }
  }

  lemma FoundKeepsBooks(w: World, k: nat)
    requires Books(w) && Holding(w, k)
    ensures Put(w, k, Sending(w.workers[k].host), w.workers[k].host, At(k)).ledger == w.ledger
    ensures Books(Put(w, k, Sending(w.workers[k].host), w.workers[k].host, At(k)))
  {
    var w' := Put(w, k, Sending(w.workers[k].host), w.workers[k].host, At(k));
    assert forall j: nat :: Holding(w', j) == Holding(w, j);
  }

  lemma FoundKeeps(w: World, up: set<nat>, k: nat)
    requires Inv(w, up) && Enabled(w, up, ProbeReturns(k, true))
    ensures Inv(Step(w, up, ProbeReturns(k, true)), up)
  {
    assert Holding(w, k);
    FoundKeepsBooks(w, k);
  }

  lemma MissedKeeps(w: World, up: set<nat>, k: nat)
    requires Inv(w, up) && Enabled(w, up, ProbeReturns(k, false))
    ensures Inv(Step(w, up, ProbeReturns(k, false)), up)
  {
    assert Holding(w, k);
    ReleaseKeepsBooks(w, k, Ready, Gone);
  }

  lemma GiveUpKeeps(w: World, up: set<nat>, k: nat)
    requires Inv(w, up) && Enabled(w, up, GiveUp(k))
    ensures Inv(Step(w, up, GiveUp(k)), up)
  {
    assert Holding(w, k);
    ReleaseKeepsBooks(w, k, Exited, Gone);
  }

  lemma DeliverKeeps(w: World, up: set<nat>, k: nat)
    requires Inv(w, up) && Enabled(w, up, Deliver(k))
    ensures Inv(Step(w, up, Deliver(k)), up)
  {
    assert Holding(w, k);
    var host := w.workers[k].host;
    ReleaseKeepsBooks(w, k, Ready, Collected);
    var w' := Step(w, up, Deliver(k));
    assert w'.collected[|w.collected|] == host;
    forall i | 0 <= i < |w'.ledger| && w'.ledger[i] == Collected
      ensures i in w'.collected
    {
      if i != host {
        assert i in w.collected;
      }
    }
  }

  lemma WorkerEndsKeeps(w: World, up: set<nat>, k: nat)
    requires Inv(w, up) && Enabled(w, up, WorkerEnds(k))
    ensures Inv(Step(w, up, WorkerEnds(k)), up)
  {
    var w' := Step(w, up, WorkerEnds(k));
    assert forall j: nat :: Holding(w', j) == Holding(w, j);
  }

  lemma FlagKeeps(w: World, w': World, up: set<nat>)
    requires Inv(w, up) && Stages(w')
    requires w' == w.(open := w'.open, closed := w'.closed, finished := w'.finished, cancelled := w'.cancelled)
    requires w.cancelled ==> w'.cancelled
    ensures Inv(w', up)
  {
    assert forall j: nat :: Holding(w', j) == Holding(w, j);
  }

  /** Every step keeps the books. */
  lemma StepKeeps(w: World, up: set<nat>, a: Action)
    requires Inv(w, up) && Enabled(w, up, a)
    ensures Inv(Step(w, up, a), up)
  {
    match a
    case Hand(k) => HandKeeps(w, up, k);
    case ProbeReturns(k, found) =>
      if found {
        FoundKeeps(w, up, k);
      } else {
        MissedKeeps(w, up, k);
      }
    case Deliver(k) => DeliverKeeps(w, up, k);
    case GiveUp(k) => GiveUpKeeps(w, up, k);
    case WorkerEnds(k) => WorkerEndsKeeps(w, up, k);
    case _ => FlagKeeps(w, Step(w, up, a), up);
  }

  // Runs --------------------------------------------------------------------------------

  function Start(hosts: nat, concurrency: nat): World {
    World(seq(concurrency, _ => Ready), 0, true, false, false, false, [], seq(hosts, _ => Todo))
  }

  predicate Runs(w: World, up: set<nat>, actions: seq<Action>)
    decreases |actions|, 0
  {
    actions == []
    || (Runs(w, up, actions[..|actions| - 1])
        && Enabled(After(w, up, actions[..|actions| - 1]), up, actions[|actions| - 1]))
  }

  function After(w: World, up: set<nat>, actions: seq<Action>): World
    requires Runs(w, up, actions)
    decreases |actions|, 1
  {
    if actions == [] then w else Step(After(w, up, actions[..|actions| - 1]), up, actions[|actions| - 1])
  }

  lemma StartKeeps(hosts: nat, concurrency: nat, up: set<nat>)
    requires concurrency >= 1
    ensures Inv(Start(hosts, concurrency), up)
  {
    var w := Start(hosts, concurrency);
    assert forall k: nat :: !Holding(w, k);
  }

  lemma StepSizes(w: World, up: set<nat>, a: Action)
    requires Enabled(w, up, a)
    ensures |Step(w, up, a).workers| == |w.workers| && |Step(w, up, a).ledger| == |w.ledger|
  {
  }

  lemma {:induction false} RunKeeps(hosts: nat, concurrency: nat, up: set<nat>, actions: seq<Action>)
    requires concurrency >= 1 && Runs(Start(hosts, concurrency), up, actions)
    ensures var w := After(Start(hosts, concurrency), up, actions);
            Inv(w, up) && |w.workers| == concurrency && |w.ledger| == hosts
    decreases |actions|
  {
    if actions == [] {
      StartKeeps(hosts, concurrency, up);
    } else {
      var before := actions[..|actions| - 1];
      RunKeeps(hosts, concurrency, up, before);
      StepKeeps(After(Start(hosts, concurrency), up, before), up, actions[|actions| - 1]);
      StepSizes(After(Start(hosts, concurrency), up, before), up, actions[|actions| - 1]);
    }
  }

  // Bounded concurrency -------------------------------------------------------------------

  /** The hosts handed out and neither collected nor given up. */
  ghost function InFlight(w: World): set<nat> {
    set i | 0 <= i < |w.ledger| && w.ledger[i].At? :: i
  }

  /** The hosts held by the first m workers. */
  ghost function HeldBy(w: World, m: nat): (held: set<nat>)
    requires m <= |w.workers|
    ensures |held| <= m
    ensures forall k: nat | k < m && Holding(w, k) :: w.workers[k].host in held
  {
    if m == 0 then {}
    else HeldBy(w, m - 1) + if Holding(w, m - 1) then {w.workers[m - 1].host} else {}
  }

  lemma {:induction false} SubsetSize(a: set<nat>, b: set<nat>)
    requires a <= b
    ensures |a| <= |b|
    decreases a
  {
    if a != {} {
      var x :| x in a;
      SubsetSize(a - {x}, b - {x});
    }
  }

  /** In every run at most as many hosts are being probed or delivered as there are
      workers, and never one host by two workers. */
  lemma ProbesBounded(hosts: nat, concurrency: nat, up: set<nat>, actions: seq<Action>)
    requires concurrency >= 1 && Runs(Start(hosts, concurrency), up, actions)
    ensures var w := After(Start(hosts, concurrency), up, actions);
            && |InFlight(w)| <= concurrency
            && forall j: nat, k: nat | Holding(w, j) && Holding(w, k) && w.workers[j].host == w.workers[k].host ::
                 j == k
  {
    RunKeeps(hosts, concurrency, up, actions);
    var w := After(Start(hosts, concurrency), up, actions);
    forall i | i in InFlight(w)
      ensures i in HeldBy(w, concurrency)
    {
      assert Holding(w, w.ledger[i].worker);
    }
    SubsetSize(InFlight(w), HeldBy(w, concurrency));
    forall j: nat, k: nat | Holding(w, j) && Holding(w, k) && w.workers[j].host == w.workers[k].host
      ensures j == k
    {
      assert w.ledger[w.workers[j].host] == At(j) == At(k);
    }
  }

  // Termination ---------------------------------------------------------------------------

  /** Nothing runs any more: the result is out and the producer has left. */
  predicate Quiet(w: World) {
    w.finished && !w.open
  }

  lemma WorkerProgress(w: World, up: set<nat>, k: nat) returns (a: Action)
    requires Inv(w, up) && k < |w.workers| && w.workers[k] != Exited
    ensures Enabled(w, up, a) && a != Cancel
  {
    match w.workers[k]
    case Probing(host) => a := ProbeReturns(k, host in up);
    case Sending(_) => a := Deliver(k);
    case Ready =>
      a := if !w.open then WorkerEnds(k) else if w.next < |w.ledger| then Hand(k) else ProducerEnds;
  }

  /** No deadlock: if probes return, some step other than cancelling can be taken until
      nothing runs any more. */
  lemma Progress(w: World, up: set<nat>) returns (a: Action)
    requires Inv(w, up) && |w.workers| >= 1 && !Quiet(w)
    ensures Enabled(w, up, a) && a != Cancel
  {
    if k: nat :| k < |w.workers| && w.workers[k] != Exited {
      a := WorkerProgress(w, up, k);
    } else if !w.closed {
      a := CloseResults;
    } else if !w.finished {
      a := CollectorEnds;
    } else {
      assert w.workers[0] == Exited;
      a := if w.next < |w.ledger| then ProducerStops else ProducerEnds;
    }
  }

  function Weight(worker: Worker): nat {
    match worker
    case Ready => 1
    case Probing(_) => 4
    case Sending(_) => 3
    case Exited => 0
  }

  function Load(workers: seq<Worker>): nat {
    if workers == [] then 0 else Load(workers[..|workers| - 1]) + Weight(workers[|workers| - 1])
  }

  lemma {:induction false} LoadUpdate(workers: seq<Worker>, k: nat, worker: Worker)
    requires k < |workers|
    ensures Load(workers[k := worker]) == Load(workers) - Weight(workers[k]) + Weight(worker)
  {
    var n := |workers| - 1;
    if k < n {
      LoadUpdate(workers[..n], k, worker);
      assert workers[k := worker][..n] == workers[..n][k := worker];
    } else {
      assert workers[k := worker][..n] == workers[..n];
    }
  }

  lemma {:induction false} LoadStart(n: nat)
    ensures Load(seq(n, _ => Ready)) == n
  {
    if n != 0 {
      LoadStart(n - 1);
      assert seq(n, _ => Ready)[..n - 1] == seq(n - 1, _ => Ready);
    }
  }

  function Flag(b: bool): nat {
    if b then 1 else 0
  }

  function Measure(w: World): int {
    5 * (|w.ledger| - w.next) + Load(w.workers)
    + Flag(w.open) + Flag(!w.closed) + Flag(!w.finished) + Flag(!w.cancelled)
  }

  lemma PutMeasures(w: World, k: nat, worker: Worker, host: nat, place: Place)
    requires k < |w.workers|
    ensures Measure(Put(w, k, worker, host, place)) == Measure(w) - Weight(w.workers[k]) + Weight(worker)
  {
    LoadUpdate(w.workers, k, worker);
  }

  lemma StepMeasures(w: World, up: set<nat>, a: Action)
    requires Enabled(w, up, a)
    ensures Measure(Step(w, up, a)) < Measure(w)
  {
    match a
    case Hand(k) => PutMeasures(w, k, Probing(w.next), w.next, At(k));
    case ProbeReturns(k, found) =>
      var host := w.workers[k].host;
      if found {
        PutMeasures(w, k, Sending(host), host, At(k));
      } else {
        PutMeasures(w, k, Ready, host, Gone);
      }
    case Deliver(k) => PutMeasures(w, k, Ready, w.workers[k].host, Collected);
    case GiveUp(k) => PutMeasures(w, k, Exited, w.workers[k].host, Gone);
    case WorkerEnds(k) => LoadUpdate(w.workers, k, Exited);
    case _ =>
  }

  /** Every run is finite: five steps a host, one a worker and four besides bound it. */
  lemma {:induction false} RunsEnd(hosts: nat, concurrency: nat, up: set<nat>, actions: seq<Action>)
    requires concurrency >= 1 && Runs(Start(hosts, concurrency), up, actions)
    ensures |actions| + Measure(After(Start(hosts, concurrency), up, actions)) <= 5 * hosts + concurrency + 4
    ensures |actions| <= 5 * hosts + concurrency + 4
    decreases |actions|
  {
    RunKeeps(hosts, concurrency, up, actions);
    if actions == [] {
      LoadStart(concurrency);
      assert Start(hosts, concurrency).workers == seq(concurrency, _ => Ready);
    } else {
      var before := actions[..|actions| - 1];
      RunsEnd(hosts, concurrency, up, before);
      StepMeasures(After(Start(hosts, concurrency), up, before), up, actions[|actions| - 1]);
    }
  }

  // The result ------------------------------------------------------------------------------

  /** Without cancellation every host has been dealt with and the reachable ones are in. */
  lemma UncancelledIsComplete(w: World, up: set<nat>, i: nat)
    requires Inv(w, up) && |w.workers| >= 1 && w.finished && !w.cancelled
    ensures i in w.collected <==> i < |w.ledger| && i in up
  {
    assert w.workers[0] == Exited;
    if i < |w.ledger| {
      assert w.ledger[i] != Todo;
      assert w.ledger[i].At? ==> Holding(w, w.ledger[i].worker);
    }
  }

  predicate Ascending(s: seq<nat>) {
    forall i, j | 0 <= i < j < |s| :: s[i] <= s[j]
  }

  predicate StrictlyAscending(s: seq<nat>) {
    forall i, j | 0 <= i < j < |s| :: s[i] < s[j]
  }

  /** The collected addresses, in the order they arrived. */
  function Arrivals(hosts: seq<nat>, collected: seq<nat>): (s: seq<nat>)
    ensures |s| == |collected|
    ensures forall i | 0 <= i < |s| && collected[i] < |hosts| :: s[i] == hosts[collected[i]]
  {
    seq(|collected|, i requires 0 <= i < |collected| => if collected[i] < |hosts| then hosts[collected[i]] else 0)
  }

  lemma {:induction false} OnceEach(s: seq<nat>, x: nat)
    requires forall i, j | 0 <= i < j < |s| :: s[i] != s[j]
    ensures multiset(s)[x] <= 1
  {
    if s != [] {
      var n := |s| - 1;
      OnceEach(s[..n], x);
      assert s == s[..n] + [s[n]];
      assert s[n] !in s[..n];
      assert s[n] !in multiset(s[..n]);
    }
  }

  lemma OnceMeansDistinct(s: seq<nat>, i: nat, j: nat)
    requires i < j < |s| && multiset(s)[s[i]] <= 1
    ensures s[i] != s[j]
  {
    var front, back := s[..j], s[j..];
    assert s == front + back;
    assert front[i] == s[i] && back[0] == s[j];
    assert s[i] in multiset(front) && s[j] in multiset(back);
  }

  lemma SortIsStrict(out: seq<nat>, arrived: seq<nat>)
    requires Ascending(out) && multiset(out) == multiset(arrived)
    requires forall i, j | 0 <= i < j < |arrived| :: arrived[i] != arrived[j]
    ensures StrictlyAscending(out)
    ensures forall x: nat :: x in out <==> x in arrived
  {
    forall x: nat
      ensures x in out <==> x in arrived
    {
      assert x in multiset(out) <==> x in multiset(arrived);
    }
    forall i, j | 0 <= i < j < |out|
      ensures out[i] < out[j]
    {
      OnceEach(arrived, out[i]);
      OnceMeansDistinct(out, i, j);
    }
  }

  /** A strictly ascending sequence is determined by its members. */
  lemma {:induction false} SameMembers(s: seq<nat>, t: seq<nat>)
    requires StrictlyAscending(s) && StrictlyAscending(t)
    requires forall x: nat :: x in s <==> x in t
    ensures s == t
  {
    assert t != [] ==> t[0] in s;
    assert s != [] ==> s[0] in t;
    if s != [] && t != [] {
      var m, n := |s| - 1, |t| - 1;
      assert s[m] in t && t[n] in s;
      assert s[m] == t[n];
      forall x: nat
        ensures x in s[..m] <==> x in t[..n]
      {
        assert x in s[..m] <==> x in s && x != s[m];
        assert x in t[..n] <==> x in t && x != t[n];
      }
      SameMembers(s[..m], t[..n]);
    }
  }

  /** The reachable hosts in the producer's order. */
  function Reachable(hosts: seq<nat>, reach: set<nat>): (r: seq<nat>) {
    if hosts == [] then []
    else
      var n := |hosts| - 1;
      Reachable(hosts[..n], reach) + if hosts[n] in reach then [hosts[n]] else []
  }

  lemma {:induction false} ReachableFacts(hosts: seq<nat>, reach: set<nat>)
    requires StrictlyAscending(hosts)
    ensures StrictlyAscending(Reachable(hosts, reach))
    ensures forall x: nat :: x in Reachable(hosts, reach) <==> x in hosts && x in reach
  {
    if hosts != [] {
      var n := |hosts| - 1;
      ReachableFacts(hosts[..n], reach);
      var r := Reachable(hosts[..n], reach);
      assert forall x: nat :: x in hosts <==> x in hosts[..n] || x == hosts[n];
      forall i | 0 <= i < |r|
        ensures r[i] < hosts[n]
      {
        assert r[i] in r;
        assert r[i] in hosts[..n];
      }
    }
  }

  /** The indices of the reachable hosts. */
  function Indices(hosts: seq<nat>, reach: set<nat>): set<nat> {
    set i | 0 <= i < |hosts| && hosts[i] in reach :: i
  }

  lemma ArrivalsDistinct(w: World, hosts: seq<nat>, up: set<nat>)
    requires Inv(w, up) && |w.ledger| == |hosts| && StrictlyAscending(hosts)
    ensures var arrived := Arrivals(hosts, w.collected);
            forall i, j | 0 <= i < j < |arrived| :: arrived[i] != arrived[j]
  {
    var arrived := Arrivals(hosts, w.collected);
    forall i, j | 0 <= i < j < |arrived|
      ensures arrived[i] != arrived[j]
    {
      var a, b := w.collected[i], w.collected[j];
      assert a != b && arrived[i] == hosts[a] && arrived[j] == hosts[b];
    }
  }

  /** In every run of a scan that ends uncancelled, the sorted result is exactly the
      reachable usable addresses of the block, once each and in ascending order, whatever
      the interleaving. */
  lemma UncancelledScanIsExact(p: Addresses.Prefix, concurrency: nat, reach: set<nat>, actions: seq<Action>,
                               out: seq<nat>)
    requires p.Valid() && concurrency >= 1
    requires var hosts := Addresses.Usable(p);
             Runs(Start(|hosts|, concurrency), Indices(hosts, reach), actions)
    requires var hosts := Addresses.Usable(p);
             var w := After(Start(|hosts|, concurrency), Indices(hosts, reach), actions);
             w.finished && !w.cancelled && Ascending(out) && multiset(out) == multiset(Arrivals(hosts, w.collected))
    ensures out == Reachable(Addresses.Usable(p), reach)
  {
    var hosts := Addresses.Usable(p);
    var up := Indices(hosts, reach);
    var w := After(Start(|hosts|, concurrency), up, actions);
    Addresses.UsableAscending(p);
    RunKeeps(|hosts|, concurrency, up, actions);
    ArrivalsDistinct(w, hosts, up);
    SortIsStrict(out, Arrivals(hosts, w.collected));
    ReachableFacts(hosts, reach);
    CompleteArrivals(w, hosts, reach);
    SameMembers(out, Reachable(hosts, reach));
  }

  lemma CompleteArrivals(w: World, hosts: seq<nat>, reach: set<nat>)
    requires Inv(w, Indices(hosts, reach)) && |w.ledger| == |hosts| && |w.workers| >= 1
    requires w.finished && !w.cancelled
    ensures forall x: nat :: x in Arrivals(hosts, w.collected) <==> x in hosts && x in reach
  {
    var up := Indices(hosts, reach);
    var arrived := Arrivals(hosts, w.collected);
    forall x: nat
      ensures x in arrived <==> x in hosts && x in reach
    {
      if x in arrived {
        var i :| 0 <= i < |arrived| && arrived[i] == x;
        UncancelledIsComplete(w, up, w.collected[i]);
        assert x == hosts[w.collected[i]];
      }
      if x in hosts && x in reach {
        var i: nat :| i < |hosts| && hosts[i] == x;
        UncancelledIsComplete(w, up, i);
        var j :| 0 <= j < |w.collected| && w.collected[j] == i;
        assert arrived[j] == x;
      }
    }
  }

  /** A cancelled scan, at whatever point, holds reachable usable addresses only and none
      twice. */
  lemma CancelledScanIsSubset(p: Addresses.Prefix, concurrency: nat, reach: set<nat>, actions: seq<Action>,
                              out: seq<nat>)
    requires p.Valid() && concurrency >= 1
    requires var hosts := Addresses.Usable(p);
             Runs(Start(|hosts|, concurrency), Indices(hosts, reach), actions)
    requires var hosts := Addresses.Usable(p);
             var w := After(Start(|hosts|, concurrency), Indices(hosts, reach), actions);
             Ascending(out) && multiset(out) == multiset(Arrivals(hosts, w.collected))
    ensures StrictlyAscending(out) && forall x | x in out :: x in Addresses.Usable(p) && x in reach
  {
    var hosts := Addresses.Usable(p);
    var up := Indices(hosts, reach);
    var w := After(Start(|hosts|, concurrency), up, actions);
    Addresses.UsableAscending(p);
    RunKeeps(|hosts|, concurrency, up, actions);
    ArrivalsDistinct(w, hosts, up);
    var arrived := Arrivals(hosts, w.collected);
    SortIsStrict(out, arrived);
    forall x | x in out
      ensures x in hosts && x in reach
    {
      var i :| 0 <= i < |arrived| && arrived[i] == x;
      assert w.collected[i] in up;
    }
  }
}
