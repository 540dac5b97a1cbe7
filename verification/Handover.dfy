/** The broker and the tunnel manager together, requests interleaved. A `reserve` for a VM starts the tunnel and
    reports it to the broker while it holds the manager's lock; a `release` stops the tunnel under that lock
    after it has let go of the broker; so does the expiry handler for a notice. While no report comes too late
    and no release fails half way, every active VM row has a tunnel. */
module Handover {
  import opened Wrappers
  import opened Store
  import opened Owners
  import Protocol
  import PartialIndex
  import PortSafety
  import opened Allocation
  import Calls
  import Races
  import Service
  import Tunnels

  /** Who holds the manager's lock: nobody; a `reserve` that has started the tunnel of a row, or failed to, and
      has yet to report it; or the handler of a notice, whose tunnel it has stopped. */
  datatype Section = Free | Started(id: Id, up: bool) | Handling(stopped: Id)

  datatype State = State(
    daemon: Protocol.State,
    tunnels: set<Id>,        // the rows with a tunnel
    stops: multiset<Id>,     // releases that have yet to stop the tunnel of their row
    section: Section)

  datatype Action =
    | Step(a: Protocol.Action)
    | StartTunnel(id: Id, up: bool)
    | ReportFails
    | StopTunnel(id: Id)
    | StopExpired

  predicate IsActiveVm(r: Row) {
    r.state.Active? && VmName(r.owner).Some?
  }

  ghost predicate Enabled(cfg: Protocol.Config, s: State, act: Action) {
    match act
    case Step(a) =>
      Protocol.Enabled(cfg, s.daemon, a)
      && (a.ReadForUpdate? ==> s.section == Started(a.id, a.newState.Active?))
      && (a.HandleNotice? ==> s.section.Handling?)
    case StartTunnel(id, _) => s.section.Free? && id in s.daemon.awaited
    case ReportFails => s.section.Started? && s.daemon.pc.Idle?
    case StopTunnel(id) => s.section.Free? && id in s.stops
    case StopExpired => s.section.Free? && s.daemon.channel != [] && s.daemon.reporting.None?
  }

  /** The release that a step ends, if the row it read belongs to a VM: whether the release wrote the row, found
      it released already, or failed, its tunnel is stopped. */
  function EndedRelease(d: Protocol.State, a: Protocol.Action): multiset<Id> {
    match a
    case ReadForRelease(id) =>
      if id in d.rows && d.rows[id].state.Released? && VmName(d.rows[id].owner).Some? then multiset{id} else multiset{}
    case WriteRelease => ReleaseInProgress(d)
    case BrokerDbFailure => ReleaseInProgress(d)
    case _ => multiset{}
  }

  function ReleaseInProgress(d: Protocol.State): multiset<Id> {
    if d.pc.Releasing? && VmName(d.pc.row.owner).Some? then multiset{d.pc.id} else multiset{}
  }

  /** The step lets go of the manager's lock: the report is made or has failed, or the expiry is reported. */
  predicate EndsSection(d: Protocol.State, a: Protocol.Action) {
    match a
    case ReadForUpdate(id, _) => id !in d.rows
    case WriteUpdate => true
    case BrokerDbFailure => d.pc.Updating?
    case EmitExpired => true
    case _ => false
  }

  function Next(cfg: Protocol.Config, s: State, act: Action): State
    requires Enabled(cfg, s, act)
  {
    match act
    case Step(a) =>
      s.(daemon := Protocol.Next(cfg, s.daemon, a),
         stops := s.stops + EndedRelease(s.daemon, a),
         section := if EndsSection(s.daemon, a) then Free else s.section)
    case StartTunnel(id, up) =>
      s.(section := Started(id, up), tunnels := if up then s.tunnels + {id} else s.tunnels)
    case ReportFails =>
      s.(section := Free, daemon := s.daemon.(awaited := s.daemon.awaited - multiset{s.section.id}))
    case StopTunnel(id) => s.(tunnels := s.tunnels - {id}, stops := s.stops - multiset{id})
    case StopExpired =>
      s.(tunnels := s.tunnels - {s.daemon.channel[0].id}, section := Handling(s.daemon.channel[0].id))
  }

  ghost predicate Legal(cfg: Protocol.Config, s: State, acts: seq<Action>)
    decreases |acts|
  {
    acts == [] || (Enabled(cfg, s, acts[0]) && Legal(cfg, Next(cfg, s, acts[0]), acts[1..]))
  }

  ghost function Exec(cfg: Protocol.Config, s: State, acts: seq<Action>): State
    requires Legal(cfg, s, acts)
    decreases |acts|
  {
    if acts == [] then s else Exec(cfg, Next(cfg, s, acts[0]), acts[1..])
  }

  ghost predicate JustStarted(s: State) {
    Protocol.Started(s.daemon) && s.tunnels == {} && s.stops == multiset{} && s.section.Free?
  }

  // ---------------------------------------------------------------- the invariant

  function PendingNotices(d: Protocol.State): seq<Notice> {
    d.channel + if d.lease.Sending? then d.lease.batch else []
  }

  /** A release or an expiry notice will still stop the tunnel of the row. */
  ghost predicate Threatened(s: State, id: Id) {
    id in s.stops || exists n :: n in PendingNotices(s.daemon) && n.id == id
  }

  ghost predicate ActiveRowsHaveTunnels(s: State) {
    forall id :: id in s.daemon.rows && IsActiveVm(s.daemon.rows[id]) ==> id in s.tunnels && !Threatened(s, id)
  }

  ghost predicate SectionAgrees(s: State) {
    && (s.daemon.pc.Updating? ==> s.section == Started(s.daemon.pc.id, s.daemon.pc.newState.Active?))
    && (s.section.Started? && s.section.up ==> s.section.id in s.tunnels)
    && (s.daemon.reporting.Some? ==> s.section.Handling?)
  }

  ghost predicate Invariant(s: State) {
    PartialIndex.Invariant(s.daemon) && SectionAgrees(s) && ActiveRowsHaveTunnels(s)
  }

  /** The report comes when a stop of the tunnel is already on its way. */
  ghost predicate ReportsTooLate(s: State, act: Action) {
    && act == Step(Protocol.WriteUpdate) && s.daemon.pc.Updating? && s.daemon.pc.newState.Active?
    && s.daemon.pc.id in s.daemon.rows && VmName(s.daemon.rows[s.daemon.pc.id].owner).Some?
    && Threatened(s, s.daemon.pc.id)
  }

  /** The release of an active VM row cannot write it; its tunnel is stopped all the same. */
  ghost predicate ReleaseFails(s: State, act: Action) {
    && act == Step(Protocol.BrokerDbFailure) && s.daemon.pc.Releasing? && VmName(s.daemon.pc.row.owner).Some?
    && s.daemon.pc.id in s.daemon.rows && IsActiveVm(s.daemon.rows[s.daemon.pc.id])
  }

  ghost predicate Orderly(s: State, act: Action) {
    !ReportsTooLate(s, act) && !ReleaseFails(s, act)
  }

  ghost predicate OrderlyRun(cfg: Protocol.Config, s: State, acts: seq<Action>)
    requires Legal(cfg, s, acts)
    decreases |acts|
  {
    acts == [] || (Orderly(s, acts[0]) && OrderlyRun(cfg, Next(cfg, s, acts[0]), acts[1..]))
  }

  // ---------------------------------------------------------------- one step

  lemma StepKeepsSection(cfg: Protocol.Config, s: State, act: Action)
    requires SectionAgrees(s) && Enabled(cfg, s, act)
    ensures SectionAgrees(Next(cfg, s, act))
  {
    if act.Step? {
      DaemonKeepsSection(cfg, s, act.a);
    }
  }

  lemma DaemonKeepsSection(cfg: Protocol.Config, s: State, a: Protocol.Action)
    requires SectionAgrees(s) && Enabled(cfg, s, Step(a))
    ensures SectionAgrees(Next(cfg, s, Step(a)))
  {
  }

  lemma StepKeepsIndex(cfg: Protocol.Config, s: State, act: Action)
    requires PartialIndex.Invariant(s.daemon) && Enabled(cfg, s, act)
    ensures PartialIndex.Invariant(Next(cfg, s, act).daemon)
  {
    match act
    case Step(a) => PartialIndex.StepKeepsIndex(cfg, s.daemon, a);
    case ReportFails =>
      var d := Next(cfg, s, act).daemon;
      assert forall i :: PartialIndex.HandedOut(d, i) ==> PartialIndex.HandedOut(s.daemon, i);
      PartialIndex.DescendingKeeps(s.daemon, d);
    case _ =>
  }

  /** Active VM rows are active VM rows of before, and nothing new threatens them. */
  ghost predicate Calms(s: State, s': State) {
    && (forall id :: id in s'.daemon.rows && IsActiveVm(s'.daemon.rows[id]) ==>
          id in s.daemon.rows && IsActiveVm(s.daemon.rows[id]) && (Threatened(s', id) ==> Threatened(s, id)))
    && (forall id :: id in s.tunnels && !Threatened(s, id) ==> id in s'.tunnels)
  }

  lemma CalmKeeps(s: State, s': State)
    requires ActiveRowsHaveTunnels(s) && Calms(s, s')
    ensures ActiveRowsHaveTunnels(s')
  {
  }

  /** The steps of the daemon that do not write a row and do not end a release. */
  lemma ReadsAreCalm(cfg: Protocol.Config, s: State, a: Protocol.Action)
    requires Enabled(cfg, s, Step(a)) && !a.Commit? && !a.WriteUpdate? && !a.WriteRelease? && !a.ExpireLeases?
    requires !a.PurgeReleased? && !a.ReadForRelease? && !a.BrokerDbFailure?
    ensures Calms(s, Next(cfg, s, Step(a)))
  {
    NoticesShrink(cfg, s.daemon, a);
    ReadsWriteNothing(cfg, s, a);
    SameRowsAreCalm(s, Next(cfg, s, Step(a)));
  }

  lemma ReadsWriteNothing(cfg: Protocol.Config, s: State, a: Protocol.Action)
    requires Enabled(cfg, s, Step(a)) && !a.Commit? && !a.WriteUpdate? && !a.WriteRelease? && !a.ExpireLeases?
    requires !a.PurgeReleased? && !a.ReadForRelease? && !a.BrokerDbFailure?
    ensures Next(cfg, s, Step(a)).daemon.rows == s.daemon.rows
    ensures Next(cfg, s, Step(a)).stops == s.stops && Next(cfg, s, Step(a)).tunnels == s.tunnels
  {
    TableStays(cfg, s.daemon, a);
    assert EndedRelease(s.daemon, a) == multiset{};
  }

  lemma TableStays(cfg: Protocol.Config, d: Protocol.State, a: Protocol.Action)
    requires Protocol.Enabled(cfg, d, a)
    requires !a.Commit? && !a.WriteUpdate? && !a.WriteRelease? && !a.ExpireLeases? && !a.PurgeReleased?
    ensures Protocol.Next(cfg, d, a).rows == d.rows
  {
    match a
    case FindDuplicate(_, found) =>
      if found.Some? {
        HandingOutKeepsTable(d, found.value);
      }
    case Fetch => HandingOutKeepsTable(d, d.pc.id);
    case Pick =>
    case _ =>
  }

  lemma HandingOutKeepsTable(d: Protocol.State, id: Id)
    ensures Protocol.AfterReserve(d, id).rows == d.rows
  {
  }

  lemma SameRowsAreCalm(s: State, s': State)
    requires s'.daemon.rows == s.daemon.rows && s'.stops == s.stops && s'.tunnels == s.tunnels
    requires forall n :: n in PendingNotices(s'.daemon) ==> n in PendingNotices(s.daemon)
    ensures Calms(s, s')
  {
  }

  lemma NoticesShrink(cfg: Protocol.Config, d: Protocol.State, a: Protocol.Action)
    requires Protocol.Enabled(cfg, d, a) && !a.ExpireLeases?
    ensures forall n :: n in PendingNotices(Protocol.Next(cfg, d, a)) ==> n in PendingNotices(d)
  {
    var d' := Protocol.Next(cfg, d, a);
    if a.HandleNotice? {
      assert forall n :: n in d'.channel ==> n in d.channel;
    } else if !a.SendBatch? {
      assert d'.channel == d.channel;
    }
  }

  lemma CommitIsCalm(cfg: Protocol.Config, s: State, id: Id)
    requires Invariant(s) && Enabled(cfg, s, Step(Protocol.Commit(id)))
    ensures Calms(s, Next(cfg, s, Step(Protocol.Commit(id))))
  {
    var row := Protocol.NewRow(s.daemon.pc.req, s.daemon.pc.port, s.daemon.now);
    PartialIndex.CommitKeepsLive(s.daemon.rows, id, row);
    if IsHost(row.owner) {
      HostIsNoVm(row.owner);
    }
    NoticesShrink(cfg, s.daemon, Protocol.Commit(id));
  }

  lemma ExpiryIsCalm(cfg: Protocol.Config, s: State, batch: seq<Notice>)
    requires Enabled(cfg, s, Step(Protocol.ExpireLeases(batch)))
    ensures Calms(s, Next(cfg, s, Step(Protocol.ExpireLeases(batch))))
  {
    var s' := Next(cfg, s, Step(Protocol.ExpireLeases(batch)));
    forall id | id in s'.daemon.rows && IsActiveVm(s'.daemon.rows[id]) && Threatened(s', id)
      ensures Threatened(s, id)
    {
      assert id !in OverdueIds(s.daemon.rows, s.daemon.now);
      if id !in s.stops {
        var n :| n in PendingNotices(s'.daemon) && n.id == id;
        assert n !in batch;
      }
    }
  }

  lemma ReleaseIsCalm(cfg: Protocol.Config, s: State)
    requires Invariant(s) && Enabled(cfg, s, Step(Protocol.WriteRelease))
    ensures Calms(s, Next(cfg, s, Step(Protocol.WriteRelease)))
  {
    PartialIndex.NothingTrips(cfg, s.daemon, Protocol.WriteRelease);
    NoticesShrink(cfg, s.daemon, Protocol.WriteRelease);
  }

  /** The report keeps the invariant exactly when it is not too late. */
  lemma ReportIsExact(cfg: Protocol.Config, s: State)
    requires Invariant(s) && Enabled(cfg, s, Step(Protocol.WriteUpdate))
    ensures ActiveRowsHaveTunnels(Next(cfg, s, Step(Protocol.WriteUpdate)))
            <==> !ReportsTooLate(s, Step(Protocol.WriteUpdate))
  {
    var s', id := Next(cfg, s, Step(Protocol.WriteUpdate)), s.daemon.pc.id;
    PartialIndex.NothingTrips(cfg, s.daemon, Protocol.WriteUpdate);
    assert PendingNotices(s'.daemon) == PendingNotices(s.daemon) && s'.stops == s.stops;
    assert forall i :: Threatened(s', i) <==> Threatened(s, i);
    assert forall i :: i in s'.daemon.rows && i != id ==> i in s.daemon.rows && s'.daemon.rows[i] == s.daemon.rows[i];
  }

  /** A database failure keeps it exactly when it does not hit the release of an active VM row. */
  lemma FailureIsExact(cfg: Protocol.Config, s: State)
    requires Invariant(s) && Enabled(cfg, s, Step(Protocol.BrokerDbFailure))
    ensures ActiveRowsHaveTunnels(Next(cfg, s, Step(Protocol.BrokerDbFailure)))
            <==> !ReleaseFails(s, Step(Protocol.BrokerDbFailure))
  {
    var s' := Next(cfg, s, Step(Protocol.BrokerDbFailure));
    assert s'.daemon.rows == s.daemon.rows && PendingNotices(s'.daemon) == PendingNotices(s.daemon);
    assert forall i :: Threatened(s', i) <==> Threatened(s, i) || i in ReleaseInProgress(s.daemon);
  }

  lemma ManagerStepsAreCalm(cfg: Protocol.Config, s: State, act: Action)
    requires Enabled(cfg, s, act) && !act.Step?
    ensures Calms(s, Next(cfg, s, act))
  {
    if act.StopExpired? {
      assert s.daemon.channel[0] in PendingNotices(s.daemon);
    }
  }

  /** Every step keeps the invariant exactly when it is orderly. */
  lemma StepIsExact(cfg: Protocol.Config, s: State, act: Action)
    requires Invariant(s) && Enabled(cfg, s, act)
    ensures Invariant(Next(cfg, s, act)) <==> Orderly(s, act)
  {
    StepKeepsSection(cfg, s, act);
    StepKeepsIndex(cfg, s, act);
    if act == Step(Protocol.WriteUpdate) {
      ReportIsExact(cfg, s);
    } else if act == Step(Protocol.BrokerDbFailure) {
      FailureIsExact(cfg, s);
    } else {
      StepIsCalm(cfg, s, act);
      CalmKeeps(s, Next(cfg, s, act));
    }
  }

  lemma StepIsCalm(cfg: Protocol.Config, s: State, act: Action)
    requires Invariant(s) && Enabled(cfg, s, act)
    requires act != Step(Protocol.WriteUpdate) && act != Step(Protocol.BrokerDbFailure)
    ensures Calms(s, Next(cfg, s, act))
  {
    if !act.Step? {
      ManagerStepsAreCalm(cfg, s, act);
    } else if act.a.Commit? {
      CommitIsCalm(cfg, s, act.a.id);
    } else if act.a.ExpireLeases? {
      ExpiryIsCalm(cfg, s, act.a.batch);
    } else if act.a.WriteRelease? {
      ReleaseIsCalm(cfg, s);
    } else if act.a.PurgeReleased? || act.a.ReadForRelease? {
      NoticesShrink(cfg, s.daemon, act.a);
    } else {
      ReadsAreCalm(cfg, s, act.a);
    }
  }

  // ---------------------------------------------------------------- every run

  lemma {:induction false} RunsKeepTunnels(cfg: Protocol.Config, s: State, acts: seq<Action>)
    requires Invariant(s) && Legal(cfg, s, acts) && OrderlyRun(cfg, s, acts)
    ensures Invariant(Exec(cfg, s, acts))
    decreases |acts|
  {
    if acts != [] {
      StepIsExact(cfg, s, acts[0]);
      RunsKeepTunnels(cfg, Next(cfg, s, acts[0]), acts[1..]);
    }
  }

  /** A daemon that has just started has no tunnel, so its table must have no active VM row. */
  lemma TunnelsAtStart(s: State)
    requires JustStarted(s) && PartialIndex.OneLiveRowPerPort(s.daemon.rows)
    ensures Invariant(s) <==> forall id :: id in s.daemon.rows ==> !IsActiveVm(s.daemon.rows[id])
  {
    assert forall id :: !Threatened(s, id);
  }

  /** At every moment of an orderly run, every active VM row has a tunnel, and nothing is about to stop it. */
  lemma ActiveRowsKeepTunnels(cfg: Protocol.Config, s: State, acts: seq<Action>)
    requires JustStarted(s) && PartialIndex.OneLiveRowPerPort(s.daemon.rows)
    requires forall id :: id in s.daemon.rows ==> !IsActiveVm(s.daemon.rows[id])
    requires Legal(cfg, s, acts) && OrderlyRun(cfg, s, acts)
    ensures ActiveRowsHaveTunnels(Exec(cfg, s, acts))
  {
    TunnelsAtStart(s);
    RunsKeepTunnels(cfg, s, acts);
  }

  // ---------------------------------------------------------------- whole requests are runs

  /** What follows the broker call of a `reserve` for a pending VM row. */
  function TunnelSteps(rid: Id, up: bool): seq<Action> {
    [StartTunnel(rid, up)]
    + ([Step(Protocol.ReadForUpdate(rid, if up then Active else RowState.Failed))] + [Step(Protocol.WriteUpdate)])
  }

  lemma TunnelRun(cfg: Protocol.Config, s: State, rid: Id, up: bool)
    requires PortSafety.Safe(s.daemon) && s.daemon.pc.Idle? && s.section.Free?
    requires rid in s.daemon.awaited && rid in s.daemon.rows
    ensures Legal(cfg, s, TunnelSteps(rid, up))
    ensures Exec(cfg, s, TunnelSteps(rid, up))
         == s.(daemon := Calls.UpdateCall(s.daemon, rid, if up then Active else RowState.Failed),
               tunnels := s.tunnels + if up then {rid} else {})
  {
    var state := if up then Active else RowState.Failed;
    var start, read, write :=
      StartTunnel(rid, up), Step(Protocol.ReadForUpdate(rid, state)), Step(Protocol.WriteUpdate);
    var s1 := Next(cfg, s, start);
    var s2 := Next(cfg, s1, read);
    PortSafety.WriteSucceeds(s.daemon.rows, rid, state, s.daemon.now);
    OneStep(cfg, s2, write);
    OneStep(cfg, s1, read);
    Concat(cfg, s1, [read], [write]);
    OneStep(cfg, s, start);
    Concat(cfg, s, [start], [read] + [write]);
  }

  lemma SettleRun(cfg: Protocol.Config, tcfg: Tunnels.Config, s: State, called: Protocol.State, ts: Tunnels.State,
                  rid: Id, attempt: Service.Attempt)
    requires rid in called.rows && Protocol.NeedsTunnel(called.rows[rid]) && attempt.handle !in ts.records
    requires s.daemon == Protocol.AfterReserve(called, rid) && PortSafety.Safe(s.daemon) && s.section.Free?
    requires s.tunnels == ts.tunnels.Keys
    ensures var effect := Service.Settled(tcfg, called, ts, rid, attempt);
            var acts := TunnelSteps(rid, Service.Connects(tcfg, called.rows[rid], attempt));
            Legal(cfg, s, acts) && Exec(cfg, s, acts) == s.(daemon := effect.0, tunnels := effect.1.tunnels.Keys)
  {
    TunnelRun(cfg, s, rid, Service.Connects(tcfg, called.rows[rid], attempt));
  }

  /** A `reserve` request that nothing interrupts is one of the runs of this module, and leaves the broker and the
      tunnels as module Service says. */
  lemma ReserveRequestIsRun(cfg: Protocol.Config, tcfg: Tunnels.Config, s: State, ts: Tunnels.State,
                            req: Protocol.Request, found: Option<Id>, id: Id, attempt: Service.Attempt)
    returns (acts: seq<Action>)
    requires PortSafety.Safe(s.daemon) && s.daemon.pc.Idle? && s.section.Free? && id !in s.daemon.issued
    requires attempt.handle !in ts.records && s.tunnels == ts.tunnels.Keys
    requires Protocol.Found(Duplicates(s.daemon.rows, req.owner, req.host, req.targetPort), found)
    ensures Legal(cfg, s, acts)
    ensures var effect := Service.ReserveEffect(cfg, tcfg, s.daemon, ts, req, found, id, attempt);
            Exec(cfg, s, acts) == s.(daemon := effect.0, tunnels := effect.1.tunnels.Keys)
  {
    var called := Calls.ReserveCall(cfg, s.daemon, req, found, id);
    var after := Calls.AfterCall(cfg, s.daemon, req, found, id);
    acts := CallRun(cfg, s, req, found, id);
    match Service.Answered(called.rows, found, id)
    case None => NoAnswerNoChange(cfg, s.daemon, req, found, id);
    case Some(rid) =>
      AnswerIsHandedOut(cfg, s.daemon, req, found, id, rid);
      if Protocol.NeedsTunnel(called.rows[rid]) {
        SettleRun(cfg, tcfg, s.(daemon := after), called, ts, rid, attempt);
        var more := TunnelSteps(rid, Service.Connects(tcfg, called.rows[rid], attempt));
        Concat(cfg, s, acts, more);
        acts := acts + more;
      }
  }

  lemma CallRun(cfg: Protocol.Config, s: State, req: Protocol.Request, found: Option<Id>, id: Id)
    returns (acts: seq<Action>)
    requires PortSafety.Safe(s.daemon) && s.daemon.pc.Idle? && id !in s.daemon.issued
    requires Protocol.Found(Duplicates(s.daemon.rows, req.owner, req.host, req.targetPort), found)
    ensures Legal(cfg, s, acts) && PortSafety.Safe(Calls.AfterCall(cfg, s.daemon, req, found, id))
    ensures Exec(cfg, s, acts) == s.(daemon := Calls.AfterCall(cfg, s.daemon, req, found, id))
  {
    var statements := Calls.ReserveStatements(cfg, s.daemon, req, found, id);
    Calls.ReserveCallIsRun(cfg, s.daemon, req, found, id);
    Calls.ReserveStepsOnly(cfg, s.daemon, req, found, id);
    LiftRun(cfg, s, statements);
    PortSafety.RunsStaySafe(cfg, s.daemon, statements);
    acts := Lift(statements);
  }

  lemma AnswerIsHandedOut(cfg: Protocol.Config, d: Protocol.State, req: Protocol.Request, found: Option<Id>, id: Id,
                          rid: Id)
    requires PortSafety.Safe(d) && d.pc.Idle? && id !in d.issued
    requires Protocol.Found(Duplicates(d.rows, req.owner, req.host, req.targetPort), found)
    requires Service.Answered(Calls.ReserveCall(cfg, d, req, found, id).rows, found, id) == Some(rid)
    ensures var called := Calls.ReserveCall(cfg, d, req, found, id);
            && rid in called.rows
            && Calls.AfterCall(cfg, d, req, found, id) == Protocol.AfterReserve(called, rid)
            && (!Protocol.NeedsTunnel(called.rows[rid]) ==> Protocol.AfterReserve(called, rid) == called)
  {
    Service.AnswerIsLive(cfg, d, req, found, id, rid);
  }

  lemma NoAnswerNoChange(cfg: Protocol.Config, d: Protocol.State, req: Protocol.Request, found: Option<Id>, id: Id)
    requires PortSafety.Safe(d) && d.pc.Idle? && id !in d.issued
    requires Protocol.Found(Duplicates(d.rows, req.owner, req.host, req.targetPort), found)
    requires Service.Answered(Calls.ReserveCall(cfg, d, req, found, id).rows, found, id).None?
    ensures Calls.AfterCall(cfg, d, req, found, id) == Calls.ReserveCall(cfg, d, req, found, id) == d
  {
  }

  /** And so is a `release` request of a row that is there. */
  lemma ReleaseRequestIsRun(cfg: Protocol.Config, s: State, ts: Tunnels.State, target: Id) returns (acts: seq<Action>)
    requires PortSafety.Safe(s.daemon) && s.daemon.pc.Idle? && s.section.Free? && target in s.daemon.rows
    requires s.tunnels == ts.tunnels.Keys
    ensures Legal(cfg, s, acts)
    ensures var effect := Service.ReleaseEffect(s.daemon, ts, target);
            Exec(cfg, s, acts) == s.(daemon := effect.0, tunnels := effect.1.tunnels.Keys)
  {
    acts := ReleaseRun(cfg, s, target);
    if VmName(s.daemon.rows[target].owner).Some? {
      var s2 := s.(daemon := Calls.ReleaseCall(s.daemon, target), stops := s.stops + multiset{target});
      OneStep(cfg, s2, StopTunnel(target));
      Concat(cfg, s, acts, [StopTunnel(target)]);
      acts := acts + [StopTunnel(target)];
      assert s2.stops - multiset{target} == s.stops;
    }
  }

  lemma ReleaseRun(cfg: Protocol.Config, s: State, target: Id) returns (acts: seq<Action>)
    requires PortSafety.Safe(s.daemon) && s.daemon.pc.Idle? && target in s.daemon.rows
    ensures Legal(cfg, s, acts)
    ensures Exec(cfg, s, acts)
         == s.(daemon := Calls.ReleaseCall(s.daemon, target),
               stops := if VmName(s.daemon.rows[target].owner).Some? then s.stops + multiset{target} else s.stops)
  {
    var read := Step(Protocol.ReadForRelease(target));
    OneStep(cfg, s, read);
    acts := [read];
    if !s.daemon.rows[target].state.Released? {
      var write, s1 := Step(Protocol.WriteRelease), Next(cfg, s, read);
      PortSafety.WriteSucceeds(s.daemon.rows, target, Released, s.daemon.now);
      OneStep(cfg, s1, write);
      Concat(cfg, s, [read], [write]);
      acts := [read] + [write];
      assert s1.stops == s.stops;
    }
  }

  // ---------------------------------------------------------------- where the claim stops

  /** No request is in progress and no notice is on its way. */
  ghost predicate Quiet(s: State) {
    && s.daemon.pc.Idle? && s.daemon.awaited == multiset{} && s.stops == multiset{} && s.section.Free?
    && PendingNotices(s.daemon) == [] && s.daemon.reporting.None?
  }

  lemma OneStep(cfg: Protocol.Config, s: State, act: Action)
    requires Enabled(cfg, s, act)
    ensures Legal(cfg, s, [act]) && Exec(cfg, s, [act]) == Next(cfg, s, act)
  {
    assert [act][1..] == [];
  }

  lemma Concat(cfg: Protocol.Config, s: State, first: seq<Action>, second: seq<Action>)
    requires Legal(cfg, s, first) && Legal(cfg, Exec(cfg, s, first), second)
    ensures Legal(cfg, s, first + second)
    ensures Exec(cfg, s, first + second) == Exec(cfg, Exec(cfg, s, first), second)
  {
    Continue(cfg, s, first, Exec(cfg, s, first), second, Exec(cfg, Exec(cfg, s, first), second));
    assert Open(0);
  }

  /** Asked for in a proof that has to look inside one of the next two predicates. The steps are many, and the
      proof about sequences of them below needs to know of none. */
  predicate Open(key: nat) {
    key >= 0
  }

  ghost predicate Leads(cfg: Protocol.Config, s: State, acts: seq<Action>, s': State) {
    forall key: nat {:trigger Open(key)} :: Open(key) ==> Legal(cfg, s, acts) && Exec(cfg, s, acts) == s'
  }

  ghost predicate Takes(cfg: Protocol.Config, s: State, act: Action, s1: State) {
    forall key: nat {:trigger Open(key)} :: Open(key) ==> Enabled(cfg, s, act) && s1 == Next(cfg, s, act)
  }

  lemma NoStep(cfg: Protocol.Config, s: State, s': State)
    ensures Leads(cfg, s, [], s') <==> s' == s
  {
    assert Open(0);
  }

  lemma {:induction false} Continue(cfg: Protocol.Config, s: State, first: seq<Action>, middle: State,
                                    second: seq<Action>, last: State)
    requires Leads(cfg, s, first, middle) && Leads(cfg, middle, second, last)
    ensures Leads(cfg, s, first + second, last)
    decreases |first|
  {
    if first == [] {
      NoStep(cfg, s, middle);
      assert first + second == second;
    } else {
      var act, rest := first[0], first[1..];
      assert first == [act] + rest;
      var s1 := FirstStep(cfg, s, act, rest, middle);
      Continue(cfg, s1, rest, middle, second, last);
      StepThenRun(cfg, s, act, s1, rest + second, last);
      assert [act] + (rest + second) == first + second;
    }
  }

  lemma FirstStep(cfg: Protocol.Config, s: State, act: Action, rest: seq<Action>, s': State) returns (s1: State)
    requires Leads(cfg, s, [act] + rest, s')
    ensures Takes(cfg, s, act, s1) && Leads(cfg, s1, rest, s')
  {
    assert Open(0) && ([act] + rest)[1..] == rest;
    s1 := Next(cfg, s, act);
  }

  lemma StepThenRun(cfg: Protocol.Config, s: State, act: Action, s1: State, rest: seq<Action>, s': State)
    requires Takes(cfg, s, act, s1) && Leads(cfg, s1, rest, s')
    ensures Leads(cfg, s, [act] + rest, s')
  {
    assert Open(0) && ([act] + rest)[1..] == rest;
  }

  function Lift(acts: seq<Protocol.Action>): seq<Action> {
    if acts == [] then [] else [Step(acts[0])] + Lift(acts[1..])
  }

  lemma {:induction false} LiftRun(cfg: Protocol.Config, s: State, acts: seq<Protocol.Action>)
    requires Protocol.Legal(cfg, s.daemon, acts) && forall a <- acts :: Calls.IsReserveStep(a)
    ensures Legal(cfg, s, Lift(acts)) && Exec(cfg, s, Lift(acts)) == s.(daemon := Protocol.Exec(cfg, s.daemon, acts))
    decreases |acts|
  {
    if acts != [] {
      assert acts[0] in acts && forall a <- acts[1..] :: a in acts;
      var s1 := Next(cfg, s, Step(acts[0]));
      assert s1 == s.(daemon := Protocol.Next(cfg, s.daemon, acts[0]));
      LiftRun(cfg, s1, acts[1..]);
      assert Lift(acts)[1..] == Lift(acts[1..]);
    }
  }

  /** A pending VM row whose request has yet to start the tunnel; otherwise nothing is in progress. */
  ghost predicate OnePending(s: State, i: Id, row: Row) {
    && PartialIndex.Invariant(s.daemon) && s.daemon.pc.Idle? && s.daemon.awaited == multiset{i}
    && i in s.daemon.rows && s.daemon.rows[i] == row && Protocol.NeedsTunnel(row)
    && s.stops == multiset{} && s.section.Free? && s.tunnels == {}
    && PendingNotices(s.daemon) == [] && s.daemon.reporting.None?
  }

  /** The release: it reads and writes the row, and its stop is to come. */
  lemma ReleaseWhilePending(cfg: Protocol.Config, s: State, i: Id, row: Row) returns (acts: seq<Action>, s': State)
    requires OnePending(s, i, row)
    ensures Legal(cfg, s, acts) && Exec(cfg, s, acts) == s'
    ensures PartialIndex.Invariant(s'.daemon) && i in s'.daemon.rows && s'.daemon.rows[i].owner == row.owner
    ensures s' == s.(daemon := s.daemon.(rows := s'.daemon.rows, holds := s'.daemon.holds, log := s'.daemon.log),
                     stops := multiset{i})
  {
    var read, write := Step(Protocol.ReadForRelease(i)), Step(Protocol.WriteRelease);
    var s1 := Next(cfg, s, read);
    OneStep(cfg, s, read);
    StepKeepsIndex(cfg, s, read);
    PartialIndex.NothingTrips(cfg, s1.daemon, Protocol.WriteRelease);
    OneStep(cfg, s1, write);
    StepKeepsIndex(cfg, s1, write);
    Concat(cfg, s, [read], [write]);
    acts, s' := [read] + [write], Next(cfg, s1, write);
  }

  /** The report, then the stop. */
  lemma ReportThenStop(cfg: Protocol.Config, s: State, i: Id) returns (acts: seq<Action>, s': State)
    requires PartialIndex.Invariant(s.daemon) && s.daemon.pc.Idle? && s.daemon.awaited == multiset{i}
    requires i in s.daemon.rows && VmName(s.daemon.rows[i].owner).Some?
    requires s.section == Started(i, true) && s.stops == multiset{i}
    requires PendingNotices(s.daemon) == [] && s.daemon.reporting.None?
    ensures Legal(cfg, s, acts) && Exec(cfg, s, acts) == s'
    ensures Quiet(s') && i in s'.daemon.rows && IsActiveVm(s'.daemon.rows[i]) && i !in s'.tunnels
  {
    var read, write := Step(Protocol.ReadForUpdate(i, Active)), Step(Protocol.WriteUpdate);
    var s1 := Next(cfg, s, read);
    OneStep(cfg, s, read);
    StepKeepsIndex(cfg, s, read);
    PartialIndex.NothingTrips(cfg, s1.daemon, Protocol.WriteUpdate);
    var s2 := Next(cfg, s1, write);
    OneStep(cfg, s1, write);
    Concat(cfg, s, [read], [write]);
    OneStep(cfg, s2, StopTunnel(i));
    Concat(cfg, s, [read] + [write], [StopTunnel(i)]);
    acts, s' := [read] + [write] + [StopTunnel(i)], Next(cfg, s2, StopTunnel(i));
  }

  lemma ReserveOnly(cfg: Protocol.Config, s: State, vm: string, service: string, p: Port, i: Id)
    returns (acts: seq<Action>, s': State, row: Row)
    requires JustStarted(s) && s.daemon.rows == map[] && s.daemon.outside == {} && cfg.maxPerOwner >= 1
    requires ':' !in vm && i !in s.daemon.issued
    ensures Legal(cfg, s, acts) && Exec(cfg, s, acts) == s' && OnePending(s', i, row)
  {
    Races.OwnerOfVm(vm, service);
    var reserve, d := Races.ReserveForVm(cfg, s.daemon, vm, service, p, i);
    LiftRun(cfg, s, reserve);
    PartialIndex.RunsKeepIndex(cfg, s.daemon, reserve);
    acts, s', row := Lift(reserve), s.(daemon := d), d.rows[i];
  }

  /** From an empty table: reserve for a VM, release while its tunnel starts, report the tunnel, stop it. Nothing
      is in progress then, and the row is active without a tunnel. */
  lemma ActiveRowLosesItsTunnel(cfg: Protocol.Config, s: State, vm: string, service: string, p: Port, i: Id)
    requires JustStarted(s) && s.daemon.rows == map[] && s.daemon.outside == {} && cfg.maxPerOwner >= 1
    requires ':' !in vm && i !in s.daemon.issued
    ensures exists acts :: Legal(cfg, s, acts)
              && var s' := Exec(cfg, s, acts);
                 Quiet(s') && i in s'.daemon.rows && IsActiveVm(s'.daemon.rows[i]) && i !in s'.tunnels
  {
    var reserve, s1, row := ReserveOnly(cfg, s, vm, service, p, i);
    var release, s2 := ReleaseWhilePending(cfg, s1, i, row);
    Concat(cfg, s, reserve, release);
    OneStep(cfg, s2, StartTunnel(i, true));
    var s3 := Next(cfg, s2, StartTunnel(i, true));
    Concat(cfg, s, reserve + release, [StartTunnel(i, true)]);
    var rest, s4 := ReportThenStop(cfg, s3, i);
    Concat(cfg, s, reserve + release + [StartTunnel(i, true)], rest);
  }
}
