/** Lock order. Any number of requests and background tasks share the tunnel manager, the broker, the one
    database connection and the health records. Whatever they are doing, some task can step, and after
    finitely many steps all of them are done. */
module Locks {
  import opened Wrappers

  datatype Lock = TunnelManager | Broker | Connection | Health(tunnel: nat)

  /** The order in which locks are taken; a task that holds one only asks for later ones. */
  function Rank(l: Lock): nat {
    match l
    case TunnelManager => 0
    case Broker => 1
    case Connection => 2
    case Health(_) => 3
  }

  const RANKS := 4

  /** Taking a lock, giving it up, or waiting for the network or a timer. */
  datatype Op = Acquire(lock: Lock) | Release(lock: Lock) | Wait

  type Program = seq<Op>

  // ---------------------------------------------------------------- the daemon's tasks

  /** One statement or transaction on the pool. */
  function Query(): Program {
    [Acquire(Connection), Release(Connection)]
  }

  function Queries(n: nat): Program {
    if n == 0 then [] else Query() + Queries(n - 1)
  }

  /** A broker call under the broker's mutex, with `n` statements or transactions one after the other. */
  function BrokerCall(n: nat): Program {
    [Acquire(Broker)] + Queries(n) + [Release(Broker)]
  }

  /** `reserve`: the broker call; for a VM then, under the tunnel manager, the tunnel start and the state update. */
  function ReserveTask(statements: nat, startsTunnel: bool, updates: nat): Program {
    BrokerCall(statements) + if startsTunnel then StartOps(updates) else []
  }

  function StartOps(updates: nat): Program {
    [Acquire(TunnelManager)] + ([Wait] + BrokerCall(updates)) + [Release(TunnelManager)]
  }

  /** `release`: the broker call, and then the tunnel manager if there may be a tunnel. */
  function ReleaseTask(statements: nat, stopsTunnel: bool): Program {
    BrokerCall(statements) + if stopsTunnel then [Acquire(TunnelManager), Release(TunnelManager)] else []
  }

  /** `inspect`: the broker call; for a VM then the health record, under the tunnel manager. */
  function InspectTask(statements: nat, isVm: bool, tunnel: Option<nat>): Program {
    BrokerCall(statements)
    + if !isVm then []
      else match tunnel
           case None => [Acquire(TunnelManager), Release(TunnelManager)]
           case Some(t) => [Acquire(TunnelManager), Acquire(Health(t)), Release(Health(t)), Release(TunnelManager)]
  }

  /** `list`, and `watch`, which only subscribes. */
  function ListTask(): Program {
    BrokerCall(1)
  }

  function WatchTask(): Program {
    BrokerCall(0)
  }

  /** Rounds of the lease task: two statements each. */
  function LeaseTask(rounds: nat): Program {
    Queries(2 * rounds)
  }

  /** The expiry handler: tunnel manager, then broker, for each notice. */
  function ExpiryTask(notices: nat): Program {
    if notices == 0 then []
    else [Acquire(TunnelManager), Acquire(Broker), Release(Broker), Release(TunnelManager)] + ExpiryTask(notices - 1)
  }

  /** What the health loop does to one tunnel: it probes it, or it tries to reconnect it. */
  datatype HealthWork = Probe(probed: nat) | Reconnect(reconnected: nat, found: bool)

  function HealthWorkOps(work: HealthWork): Program {
    match work
    case Probe(t) => [Wait] + [Acquire(Health(t)), Release(Health(t))]
    case Reconnect(t, found) =>
      [Wait] + ([Acquire(TunnelManager), Release(TunnelManager)] + ([Wait] + FinishOps(t, found)))
  }

  /** The end of an attempt, under the manager: the record too, if the tunnel is still there. */
  function FinishOps(tunnel: nat, found: bool): Program {
    [Acquire(TunnelManager)]
    + (if found then [Acquire(Health(tunnel)), Release(Health(tunnel))] else [])
    + [Release(TunnelManager)]
  }

  /** Snapshots of the tunnels under the manager, then work on each; `try_lock` takes records it finds free. */
  function SnapshotOps(tried: seq<nat>): Program {
    [Acquire(TunnelManager)] + TriedOps(tried) + [Release(TunnelManager)]
  }

  function TriedOps(tried: seq<nat>): Program {
    if tried == [] then [] else [Acquire(Health(tried[0])), Release(Health(tried[0]))] + TriedOps(tried[1..])
  }

  function WorkOps(work: seq<HealthWork>): Program {
    if work == [] then [] else HealthWorkOps(work[0]) + WorkOps(work[1..])
  }

  function HealthTask(rounds: seq<(seq<nat>, seq<HealthWork>)>): Program {
    if rounds == [] then []
    else SnapshotOps(rounds[0].0) + WorkOps(rounds[0].1) + HealthTask(rounds[1..])
  }

  /** A forwarding task that marks its tunnel dead after a failed accept. */
  function ForwardingTask(tunnel: nat): Program {
    [Wait] + [Acquire(Health(tunnel)), Release(Health(tunnel))]
  }

  ghost predicate IsDaemonTask(p: Program) {
    || (exists n, starts, updates :: p == ReserveTask(n, starts, updates))
    || (exists n, stops :: p == ReleaseTask(n, stops))
    || (exists n, isVm, tunnel :: p == InspectTask(n, isVm, tunnel))
    || p == ListTask() || p == WatchTask()
    || (exists rounds :: p == LeaseTask(rounds))
    || (exists notices :: p == ExpiryTask(notices))
    || (exists rounds :: p == HealthTask(rounds))
    || (exists tunnel :: p == ForwardingTask(tunnel))
  }

  // ---------------------------------------------------------------- ordered programs

  /** Starting with `held`, the program only asks for locks later than all it holds, only gives up locks it
      holds, and ends with none. */
  predicate Ordered(held: set<Lock>, p: Program)
    decreases |p|
  {
    if p == [] then held == {}
    else
      match p[0]
      case Acquire(l) => (forall h <- held :: Rank(h) < Rank(l)) && Ordered(held + {l}, p[1..])
      case Release(l) => l in held && Ordered(held - {l}, p[1..])
      case Wait => Ordered(held, p[1..])
  }

  /** One ordered program after another is ordered; and it may be wrapped in an earlier lock. */
  lemma {:induction false} OrderedConcat(held: set<Lock>, p: Program, q: Program)
    requires Ordered(held, p) && Ordered({}, q)
    ensures Ordered(held, p + q)
    decreases |p|
  {
    if p == [] {
      assert p + q == q;
    } else {
      assert (p + q)[1..] == p[1..] + q;
      match p[0]
      case Acquire(l) => OrderedConcat(held + {l}, p[1..], q);
      case Release(l) => OrderedConcat(held - {l}, p[1..], q);
      case Wait => OrderedConcat(held, p[1..], q);
    }
  }

  /** Every lock the program ever asks for is later than `l`. */
  predicate AllAfter(l: Lock, p: Program) {
    forall op <- p :: op.Wait? || Rank(l) < Rank(op.lock)
  }

  lemma {:induction false} OrderedUnder(outer: Lock, held: set<Lock>, p: Program)
    requires Ordered(held, p) && AllAfter(outer, p) && outer !in held
    ensures Ordered(held + {outer}, p + [Release(outer)])
    decreases |p|
  {
    var whole := p + [Release(outer)];
    if p == [] {
      assert whole == [Release(outer)] && whole[1..] == [];
      assert held + {outer} - {outer} == {};
    } else {
      assert whole[1..] == p[1..] + [Release(outer)];
      assert p[0] in p && forall op <- p[1..] :: op in p;
      match p[0]
      case Acquire(l) =>
        OrderedUnder(outer, held + {l}, p[1..]);
        assert held + {outer} + {l} == held + {l} + {outer};
      case Release(l) =>
        OrderedUnder(outer, held - {l}, p[1..]);
        assert held + {outer} - {l} == held - {l} + {outer};
      case Wait => OrderedUnder(outer, held, p[1..]);
    }
  }

  lemma OrderedWrap(outer: Lock, p: Program)
    requires Ordered({}, p) && AllAfter(outer, p)
    ensures Ordered({}, [Acquire(outer)] + p + [Release(outer)])
  {
    OrderedUnder(outer, {}, p);
    var whole := [Acquire(outer)] + p + [Release(outer)];
    assert whole[1..] == p + [Release(outer)];
    assert {} + {outer} == {outer};
  }

  lemma OrderedOne(l: Lock)
    ensures Ordered({}, [Acquire(l), Release(l)])
  {
    OrderedWrap(l, []);
    assert [Acquire(l)] + [] + [Release(l)] == [Acquire(l), Release(l)];
  }

  lemma OrderedAfterWait(p: Program)
    requires Ordered({}, p)
    ensures Ordered({}, [Wait] + p)
  {
    assert ([Wait] + p)[1..] == p;
  }

  lemma {:induction false} QueriesOrdered(n: nat)
    ensures Ordered({}, Queries(n)) && AllAfter(Broker, Queries(n)) && AllAfter(TunnelManager, Queries(n))
  {
    if n > 0 {
      OrderedOne(Connection);
      QueriesOrdered(n - 1);
      OrderedConcat({}, Query(), Queries(n - 1));
    }
  }

  lemma BrokerCallOrdered(n: nat)
    ensures Ordered({}, BrokerCall(n)) && AllAfter(TunnelManager, BrokerCall(n))
  {
    QueriesOrdered(n);
    OrderedWrap(Broker, Queries(n));
  }

  lemma {:induction false} TriedOrdered(tried: seq<nat>)
    ensures Ordered({}, TriedOps(tried)) && AllAfter(TunnelManager, TriedOps(tried))
  {
    if tried != [] {
      OrderedOne(Health(tried[0]));
      TriedOrdered(tried[1..]);
      OrderedConcat({}, [Acquire(Health(tried[0])), Release(Health(tried[0]))], TriedOps(tried[1..]));
    }
  }

  lemma HealthWorkOrdered(work: HealthWork)
    ensures Ordered({}, HealthWorkOps(work))
  {
    match work
    case Probe(t) =>
      OrderedOne(Health(t));
      OrderedAfterWait([Acquire(Health(t)), Release(Health(t))]);
    case Reconnect(t, found) =>
      OrderedOne(TunnelManager);
      if found {
        OrderedOne(Health(t));
      }
      OrderedWrap(TunnelManager, if found then [Acquire(Health(t)), Release(Health(t))] else []);
      OrderedAfterWait(FinishOps(t, found));
      var read := [Acquire(TunnelManager), Release(TunnelManager)];
      OrderedConcat({}, read, [Wait] + FinishOps(t, found));
      OrderedAfterWait(read + ([Wait] + FinishOps(t, found)));
  }

  lemma {:induction false} WorkOrdered(work: seq<HealthWork>)
    ensures Ordered({}, WorkOps(work))
  {
    if work != [] {
      HealthWorkOrdered(work[0]);
      WorkOrdered(work[1..]);
      OrderedConcat({}, HealthWorkOps(work[0]), WorkOps(work[1..]));
    }
  }

  lemma {:induction false} HealthOrdered(rounds: seq<(seq<nat>, seq<HealthWork>)>)
    ensures Ordered({}, HealthTask(rounds))
  {
    if rounds != [] {
      TriedOrdered(rounds[0].0);
      OrderedWrap(TunnelManager, TriedOps(rounds[0].0));
      WorkOrdered(rounds[0].1);
      HealthOrdered(rounds[1..]);
      OrderedConcat({}, SnapshotOps(rounds[0].0), WorkOps(rounds[0].1));
      OrderedConcat({}, SnapshotOps(rounds[0].0) + WorkOps(rounds[0].1), HealthTask(rounds[1..]));
    }
  }

  lemma {:induction false} ExpiryOrdered(notices: nat)
    ensures Ordered({}, ExpiryTask(notices))
  {
    if notices > 0 {
      OrderedOne(Broker);
      OrderedWrap(TunnelManager, [Acquire(Broker), Release(Broker)]);
      var one := [Acquire(TunnelManager)] + [Acquire(Broker), Release(Broker)] + [Release(TunnelManager)];
      ExpiryOrdered(notices - 1);
      OrderedConcat({}, one, ExpiryTask(notices - 1));
      assert one == [Acquire(TunnelManager), Acquire(Broker), Release(Broker), Release(TunnelManager)];
    }
  }

  lemma InspectOrdered(n: nat, isVm: bool, tunnel: Option<nat>)
    ensures Ordered({}, InspectTask(n, isVm, tunnel))
  {
    BrokerCallOrdered(n);
    var inner: Program := if tunnel.Some? then [Acquire(Health(tunnel.value)), Release(Health(tunnel.value))] else [];
    if tunnel.Some? {
      OrderedOne(Health(tunnel.value));
    }
    OrderedWrap(TunnelManager, inner);
    var tail := [Acquire(TunnelManager)] + inner + [Release(TunnelManager)];
    OrderedConcat({}, BrokerCall(n), tail);
    if isVm {
      assert InspectTask(n, isVm, tunnel) == BrokerCall(n) + tail;
    } else {
      assert InspectTask(n, isVm, tunnel) == BrokerCall(n);
    }
  }

  lemma ReserveOrdered(n: nat, starts: bool, updates: nat)
    ensures Ordered({}, ReserveTask(n, starts, updates))
  {
    BrokerCallOrdered(n);
    BrokerCallOrdered(updates);
    OrderedAfterWait(BrokerCall(updates));
    OrderedWrap(TunnelManager, [Wait] + BrokerCall(updates));
    OrderedConcat({}, BrokerCall(n), StartOps(updates));
    assert !starts ==> ReserveTask(n, starts, updates) == BrokerCall(n);
  }

  lemma ReleaseOrdered(n: nat, stops: bool)
    ensures Ordered({}, ReleaseTask(n, stops))
  {
    BrokerCallOrdered(n);
    OrderedOne(TunnelManager);
    OrderedConcat({}, BrokerCall(n), [Acquire(TunnelManager), Release(TunnelManager)]);
    assert !stops ==> ReleaseTask(n, stops) == BrokerCall(n);
  }

  /** Every task of the daemon takes its locks in order. In particular nobody asks for a second connection
      while holding one. */
  lemma DaemonTasksAreOrdered(p: Program)
    requires IsDaemonTask(p)
    ensures Ordered({}, p)
  {
    if n, starts, updates :| p == ReserveTask(n, starts, updates) {
      ReserveOrdered(n, starts, updates);
    } else if n, stops :| p == ReleaseTask(n, stops) {
      ReleaseOrdered(n, stops);
    } else if n, isVm, tunnel :| p == InspectTask(n, isVm, tunnel) {
      InspectOrdered(n, isVm, tunnel);
    } else if p == ListTask() {
      BrokerCallOrdered(1);
    } else if p == WatchTask() {
      BrokerCallOrdered(0);
    } else if rounds: nat :| p == LeaseTask(rounds) {
      QueriesOrdered(2 * rounds);
    } else if notices: nat :| p == ExpiryTask(notices) {
      ExpiryOrdered(notices);
    } else if rounds :| p == HealthTask(rounds) {
      HealthOrdered(rounds);
    } else {
      var tunnel :| p == ForwardingTask(tunnel);
      OrderedOne(Health(tunnel));
      OrderedAfterWait([Acquire(Health(tunnel)), Release(Health(tunnel))]);
    }
  }

  // ---------------------------------------------------------------- waiting for the network

  /** The program only waits for the network or a timer while all it holds is in `allowed`. */
  predicate WaitsWithin(allowed: set<Lock>, held: set<Lock>, p: Program)
    decreases |p|
  {
    if p == [] then true
    else
      match p[0]
      case Acquire(l) => WaitsWithin(allowed, held + {l}, p[1..])
      case Release(l) => WaitsWithin(allowed, held - {l}, p[1..])
      case Wait => held <= allowed && WaitsWithin(allowed, held, p[1..])
  }

  lemma {:induction false} WaitlessIsWithin(allowed: set<Lock>, held: set<Lock>, p: Program)
    requires Wait !in p
    ensures WaitsWithin(allowed, held, p)
    decreases |p|
  {
    if p != [] {
      assert p[0] in p && forall op <- p[1..] :: op in p;
      if p[0].Acquire? {
        WaitlessIsWithin(allowed, held + {p[0].lock}, p[1..]);
      } else {
        WaitlessIsWithin(allowed, held - {p[0].lock}, p[1..]);
      }
    }
  }

  lemma {:induction false} WithinConcat(allowed: set<Lock>, held: set<Lock>, p: Program, q: Program)
    requires Ordered(held, p) && WaitsWithin(allowed, held, p) && WaitsWithin(allowed, {}, q)
    ensures WaitsWithin(allowed, held, p + q)
    decreases |p|
  {
    if p == [] {
      assert p + q == q;
    } else {
      assert (p + q)[1..] == p[1..] + q;
      match p[0]
      case Acquire(l) => WithinConcat(allowed, held + {l}, p[1..], q);
      case Release(l) => WithinConcat(allowed, held - {l}, p[1..], q);
      case Wait => WithinConcat(allowed, held, p[1..], q);
    }
  }

  lemma WithinAfterWait(allowed: set<Lock>, held: set<Lock>, p: Program)
    requires WaitsWithin(allowed, held, p) && held <= allowed
    ensures WaitsWithin(allowed, held, [Wait] + p)
  {
    assert ([Wait] + p)[1..] == p;
  }

  lemma {:induction false} QueriesDoNotWait(n: nat)
    ensures Wait !in Queries(n) && Wait !in BrokerCall(n)
  {
    if n > 0 {
      QueriesDoNotWait(n - 1);
    }
  }

  lemma {:induction false} SnapshotsDoNotWait(tried: seq<nat>)
    ensures Wait !in TriedOps(tried) && Wait !in SnapshotOps(tried)
  {
    if tried != [] {
      SnapshotsDoNotWait(tried[1..]);
    }
  }

  lemma HealthWorkWaitsFree(work: HealthWork)
    ensures WaitsWithin({}, {}, HealthWorkOps(work))
  {
    match work
    case Probe(t) =>
      WaitlessIsWithin({}, {}, [Acquire(Health(t)), Release(Health(t))]);
      WithinAfterWait({}, {}, [Acquire(Health(t)), Release(Health(t))]);
    case Reconnect(t, found) =>
      var read, finish := [Acquire(TunnelManager), Release(TunnelManager)], FinishOps(t, found);
      WaitlessIsWithin({}, {}, finish);
      WithinAfterWait({}, {}, finish);
      WaitlessIsWithin({}, {}, read);
      OrderedOne(TunnelManager);
      WithinConcat({}, {}, read, [Wait] + finish);
      WithinAfterWait({}, {}, read + ([Wait] + finish));
  }

  lemma {:induction false} HealthWorksWaitFree(work: seq<HealthWork>)
    ensures WaitsWithin({}, {}, WorkOps(work))
  {
    if work != [] {
      HealthWorkWaitsFree(work[0]);
      HealthWorkOrdered(work[0]);
      HealthWorksWaitFree(work[1..]);
      WithinConcat({}, {}, HealthWorkOps(work[0]), WorkOps(work[1..]));
    }
  }

  /** The health loop probes, sleeps and connects without holding any lock. */
  lemma {:induction false} HealthLoopWaitsFree(rounds: seq<(seq<nat>, seq<HealthWork>)>)
    ensures WaitsWithin({}, {}, HealthTask(rounds))
  {
    if rounds != [] {
      var snapshot, work := SnapshotOps(rounds[0].0), WorkOps(rounds[0].1);
      SnapshotsDoNotWait(rounds[0].0);
      WaitlessIsWithin({}, {}, snapshot);
      TriedOrdered(rounds[0].0);
      OrderedWrap(TunnelManager, TriedOps(rounds[0].0));
      HealthWorksWaitFree(rounds[0].1);
      WorkOrdered(rounds[0].1);
      HealthLoopWaitsFree(rounds[1..]);
      WithinConcat({}, {}, snapshot, work);
      OrderedConcat({}, snapshot, work);
      WithinConcat({}, {}, snapshot + work, HealthTask(rounds[1..]));
    }
  }

  /** A reserve request connects while it holds the tunnel manager and nothing else: not the broker. */
  lemma ReserveWaitsUnderManagerOnly(n: nat, starts: bool, updates: nat)
    ensures WaitsWithin({TunnelManager}, {}, ReserveTask(n, starts, updates))
  {
    QueriesDoNotWait(n);
    QueriesDoNotWait(updates);
    BrokerCallOrdered(n);
    WaitlessIsWithin({TunnelManager}, {}, BrokerCall(n));
    var rest := BrokerCall(updates) + [Release(TunnelManager)];
    WaitlessIsWithin({TunnelManager}, {TunnelManager}, rest);
    WithinAfterWait({TunnelManager}, {TunnelManager}, rest);
    assert StartOps(updates)[1..] == [Wait] + rest;
    assert {} + {TunnelManager} == {TunnelManager};
    WaitlessIsWithin({TunnelManager}, {}, []);
    WithinConcat({TunnelManager}, {}, BrokerCall(n), if starts then StartOps(updates) else []);
  }

  /** Every statement is run under the broker's mutex. */
  predicate QueriesUnderBroker(held: set<Lock>, p: Program)
    decreases |p|
  {
    if p == [] then true
    else
      match p[0]
      case Acquire(l) => (l.Connection? ==> Broker in held) && QueriesUnderBroker(held + {l}, p[1..])
      case Release(l) => QueriesUnderBroker(held - {l}, p[1..])
      case Wait => QueriesUnderBroker(held, p[1..])
  }

  lemma {:induction false} HeldQueries(held: set<Lock>, n: nat, rest: Program)
    requires Broker in held && Connection !in held && QueriesUnderBroker(held, rest)
    ensures QueriesUnderBroker(held, Queries(n) + rest)
  {
    if n == 0 {
      assert Queries(0) + rest == rest;
    } else {
      HeldQueries(held, n - 1, rest);
      var p := Queries(n) + rest;
      assert Queries(n) == Query() + Queries(n - 1);
      assert p[0] == Acquire(Connection) && p[1..][0] == Release(Connection);
      assert p[1..][1..] == Queries(n - 1) + rest;
      assert held + {Connection} - {Connection} == held;
    }
  }

  lemma CallsQueryUnderBroker(held: set<Lock>, n: nat, rest: Program)
    requires Broker !in held && Connection !in held && QueriesUnderBroker(held, rest)
    ensures QueriesUnderBroker(held, BrokerCall(n) + rest)
  {
    var p := BrokerCall(n) + rest;
    var tail := [Release(Broker)] + rest;
    assert p[0] == Acquire(Broker) && p[1..] == Queries(n) + tail;
    assert tail[1..] == rest && held + {Broker} - {Broker} == held;
    HeldQueries(held + {Broker}, n, tail);
  }

  lemma QueriesUnfold(held: set<Lock>, op: Op, rest: Program)
    ensures op.Acquire? ==>
              (QueriesUnderBroker(held, [op] + rest) <==>
                 (op.lock.Connection? ==> Broker in held) && QueriesUnderBroker(held + {op.lock}, rest))
    ensures op.Release? ==>
              (QueriesUnderBroker(held, [op] + rest) <==> QueriesUnderBroker(held - {op.lock}, rest))
    ensures op.Wait? ==> (QueriesUnderBroker(held, [op] + rest) <==> QueriesUnderBroker(held, rest))
  {
    assert ([op] + rest)[1..] == rest;
  }

  /** A lock other than the connection, taken and given up. */
  lemma TakenAndGivenUp(held: set<Lock>, l: Lock, rest: Program)
    requires !l.Connection? && l !in held && QueriesUnderBroker(held, rest)
    ensures QueriesUnderBroker(held, [Acquire(l)] + ([Release(l)] + rest))
  {
    QueriesUnfold(held, Acquire(l), [Release(l)] + rest);
    QueriesUnfold(held + {l}, Release(l), rest);
    assert held + {l} - {l} == held;
  }

  /** The requests touch the table only under the broker's mutex, so their statements are not interleaved with each
      other's; only the lease task's are. */
  lemma RequestsQueryUnderBroker(n: nat, flag: bool, updates: nat, tunnel: Option<nat>)
    ensures QueriesUnderBroker({}, ReserveTask(n, flag, updates))
    ensures QueriesUnderBroker({}, ReleaseTask(n, flag))
    ensures QueriesUnderBroker({}, InspectTask(n, flag, tunnel))
    ensures QueriesUnderBroker({}, ListTask())
  {
    assert QueriesUnderBroker({}, []);
    assert BrokerCall(1) + [] == ListTask();
    CallsQueryUnderBroker({}, 1, []);
    ReserveQueriesUnderBroker(n, flag, updates);
    ReleaseQueriesUnderBroker(n, flag);
    InspectQueriesUnderBroker(n, flag, tunnel);
  }

  lemma ReserveQueriesUnderBroker(n: nat, flag: bool, updates: nat)
    ensures QueriesUnderBroker({}, ReserveTask(n, flag, updates))
  {
    var update := BrokerCall(updates) + ([Release(TunnelManager)] + []);
    assert StartOps(updates) == [Acquire(TunnelManager)] + ([Wait] + update);
    QueriesUnfold({TunnelManager}, Release(TunnelManager), []);
    CallsQueryUnderBroker({TunnelManager}, updates, [Release(TunnelManager)] + []);
    QueriesUnfold({TunnelManager}, Wait, update);
    QueriesUnfold({}, Acquire(TunnelManager), [Wait] + update);
    assert {} + {TunnelManager} == {TunnelManager};
    CallsQueryUnderBroker({}, n, if flag then StartOps(updates) else []);
  }

  lemma ReleaseQueriesUnderBroker(n: nat, flag: bool)
    ensures QueriesUnderBroker({}, ReleaseTask(n, flag))
  {
    var stop := [Acquire(TunnelManager), Release(TunnelManager)];
    TakenAndGivenUp({}, TunnelManager, []);
    assert stop == [Acquire(TunnelManager)] + ([Release(TunnelManager)] + []);
    CallsQueryUnderBroker({}, n, if flag then stop else []);
  }

  lemma InspectQueriesUnderBroker(n: nat, isVm: bool, tunnel: Option<nat>)
    ensures QueriesUnderBroker({}, InspectTask(n, isVm, tunnel))
  {
    TakenAndGivenUp({}, TunnelManager, []);
    var nothing := [Acquire(TunnelManager)] + ([Release(TunnelManager)] + []);
    match tunnel
    case None =>
      assert nothing == [Acquire(TunnelManager), Release(TunnelManager)];
      CallsQueryUnderBroker({}, n, if isVm then nothing else []);
    case Some(t) =>
      var last := [Release(TunnelManager)] + [];
      var look := [Acquire(Health(t))] + ([Release(Health(t))] + last);
      QueriesUnfold({TunnelManager}, Release(TunnelManager), []);
      TakenAndGivenUp({TunnelManager}, Health(t), last);
      QueriesUnfold({}, Acquire(TunnelManager), look);
      assert {} + {TunnelManager} == {TunnelManager};
      assert [Acquire(TunnelManager)] + look
          == [Acquire(TunnelManager), Acquire(Health(t)), Release(Health(t)), Release(TunnelManager)];
      CallsQueryUnderBroker({}, n, if isVm then [Acquire(TunnelManager)] + look else []);
  }

  // ---------------------------------------------------------------- running together

  datatype Task = Task(held: set<Lock>, rest: Program)

  type System = seq<Task>

  ghost predicate CanStep(s: System, i: nat) {
    && i < |s| && s[i].rest != []
    && (s[i].rest[0].Acquire? ==> forall j :: 0 <= j < |s| ==> s[i].rest[0].lock !in s[j].held)
  }

  function StepOf(t: Task): Task
    requires t.rest != []
  {
    match t.rest[0]
    case Acquire(l) => Task(t.held + {l}, t.rest[1..])
    case Release(l) => Task(t.held - {l}, t.rest[1..])
    case Wait => Task(t.held, t.rest[1..])
  }

  ghost predicate Reaches(s: System, schedule: seq<nat>, s': System)
    decreases |schedule|
  {
    if schedule == [] then s' == s
    else CanStep(s, schedule[0]) && Reaches(s[schedule[0] := StepOf(s[schedule[0]])], schedule[1..], s')
  }

  ghost predicate Initial(s: System) {
    forall t <- s :: t.held == {} && IsDaemonTask(t.rest)
  }

  /** Each task still takes its locks in order, and each lock has at most one holder. */
  ghost predicate Disciplined(s: System) {
    && (forall i :: 0 <= i < |s| ==> Ordered(s[i].held, s[i].rest))
    && (forall i, j, l :: 0 <= i < |s| && 0 <= j < |s| && l in s[i].held && l in s[j].held ==> i == j)
  }

  lemma StepKeepsDiscipline(s: System, i: nat)
    requires Disciplined(s) && CanStep(s, i)
    ensures Disciplined(s[i := StepOf(s[i])])
  {
    var s' := s[i := StepOf(s[i])];
    assert Ordered(s[i].held, s[i].rest);
    forall a, b, l | 0 <= a < |s'| && 0 <= b < |s'| && l in s'[a].held && l in s'[b].held ensures a == b {
      assert l in s[a].held || (a == i && s[i].rest[0] == Acquire(l));
      assert l in s[b].held || (b == i && s[i].rest[0] == Acquire(l));
    }
  }

  lemma {:induction false} RunsKeepDiscipline(s: System, schedule: seq<nat>, s': System)
    requires Disciplined(s) && Reaches(s, schedule, s')
    ensures Disciplined(s')
    decreases |schedule|
  {
    if schedule != [] {
      StepKeepsDiscipline(s, schedule[0]);
      RunsKeepDiscipline(s[schedule[0] := StepOf(s[schedule[0]])], schedule[1..], s');
    }
  }

  /** Follow the waiting: whoever holds what a stuck task waits for is itself waiting for something later. */
  lemma {:induction false} SomeoneCanStep(s: System, i: nat) returns (j: nat)
    requires Disciplined(s) && i < |s| && s[i].rest != []
    ensures CanStep(s, j)
    decreases if s[i].rest[0].Acquire? then RANKS - Rank(s[i].rest[0].lock) else 0
  {
    j := i;
    if !CanStep(s, i) {
      var wanted := s[i].rest[0].lock;
      var k :| 0 <= k < |s| && wanted in s[k].held;
      assert Ordered(s[k].held, s[k].rest);
      if s[k].rest[0].Acquire? {
        assert Rank(wanted) < Rank(s[k].rest[0].lock);
      }
      j := SomeoneCanStep(s, k);
    }
  }

  lemma InitialIsDisciplined(s: System)
    requires Initial(s)
    ensures Disciplined(s)
  {
    forall i | 0 <= i < |s| ensures Ordered(s[i].held, s[i].rest) {
      assert s[i] in s;
      DaemonTasksAreOrdered(s[i].rest);
    }
    assert forall i :: 0 <= i < |s| ==> s[i] in s;
  }

  /** For any number of tasks, no reachable state is deadlocked: as long as a task is unfinished, some task
      can step. */
  lemma NoDeadlock(s: System, schedule: seq<nat>, s': System, i: nat) returns (j: nat)
    requires Initial(s) && Reaches(s, schedule, s') && i < |s'| && s'[i].rest != []
    ensures CanStep(s', j)
  {
    InitialIsDisciplined(s);
    RunsKeepDiscipline(s, schedule, s');
    j := SomeoneCanStep(s', i);
  }

  function Remaining(s: System): nat {
    if s == [] then 0 else |s[0].rest| + Remaining(s[1..])
  }

  /** Each lock has at most one holder in every reachable state. */
  lemma LocksAreExclusive(s: System, schedule: seq<nat>, s': System)
    requires Initial(s) && Reaches(s, schedule, s')
    ensures forall i, j, l :: 0 <= i < |s'| && 0 <= j < |s'| && l in s'[i].held && l in s'[j].held ==> i == j
  {
    InitialIsDisciplined(s);
    RunsKeepDiscipline(s, schedule, s');
  }

  lemma {:induction false} StepUsesOneOperation(s: System, i: nat)
    requires i < |s| && s[i].rest != []
    ensures Remaining(s[i := StepOf(s[i])]) == Remaining(s) - 1
    decreases |s|
  {
    var s' := s[i := StepOf(s[i])];
    if i == 0 {
      assert s'[1..] == s[1..];
    } else {
      assert s'[1..] == s[1..][i - 1 := StepOf(s[i])];
      StepUsesOneOperation(s[1..], i - 1);
    }
  }

  lemma {:induction false} ScheduleLength(s: System, schedule: seq<nat>, s': System)
    requires Reaches(s, schedule, s')
    ensures Remaining(s') + |schedule| == Remaining(s)
    decreases |schedule|
  {
    if schedule != [] {
      StepUsesOneOperation(s, schedule[0]);
      ScheduleLength(s[schedule[0] := StepOf(s[schedule[0]])], schedule[1..], s');
    }
  }

  /** So every schedule that goes on as long as anyone can step lets every task finish, after exactly as many
      steps as there are operations. */
  lemma MaximalSchedulesFinish(s: System, schedule: seq<nat>, s': System)
    requires Initial(s) && Reaches(s, schedule, s') && forall i :: !CanStep(s', i)
    ensures |schedule| == Remaining(s)
    ensures forall i :: 0 <= i < |s'| ==> s'[i].rest == []
  {
    forall i | 0 <= i < |s'| ensures s'[i].rest == [] {
      if s'[i].rest != [] {
        var j := NoDeadlock(s, schedule, s', i);
      }
    }
    ScheduleLength(s, schedule, s');
    NothingRemains(s');
  }

  lemma {:induction false} NothingRemains(s: System)
    requires forall i :: 0 <= i < |s| ==> s[i].rest == []
    ensures Remaining(s) == 0
  {
    if s != [] {
      NothingRemains(s[1..]);
    }
  }
}
