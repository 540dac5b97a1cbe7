/** Hold listeners. While no VM is involved, the held ports are at all times the ports of the live rows
    together with the ports of the expiry notices still under way, and the two never overlap: so the
    expiry handler, however late, never drops the listener of a newer reservation. */
module Holds {
  import opened Wrappers
  import opened Allocation
  import opened Store
  import opened Protocol
  import opened Owners
  import opened PortSafety
  import opened Calls
  import opened Quota

  /** Notices the lease task has produced and the handler has not processed. */
  function Due(s: State): seq<Notice> {
    s.channel + if s.lease.Sending? then s.lease.batch else []
  }

  function Ports(notices: seq<Notice>): set<Port> {
    set n | n in notices :: n.port
  }

  ghost predicate HoldsAreLiveOrDue(s: State) {
    && s.holds == LivePorts(s.rows) + Ports(Due(s))
    && LivePorts(s.rows) !! Ports(Due(s))
    && (forall i, j :: 0 <= i < j < |Due(s)| ==> Due(s)[i].port != Due(s)[j].port)
  }

  ghost predicate NoVms(s: State) {
    && (forall id :: id in s.rows ==> VmName(s.rows[id].owner).None?)
    && (s.pc.Counting? || s.pc.Selecting? || s.pc.Picking? || s.pc.Binding? || s.pc.Committing? ==>
          VmName(s.pc.req.owner).None?)
    && !s.pc.Updating? && s.awaited == multiset{}
  }

  /** The row a release has read is still the live row it read. */
  ghost predicate ReleaseIsCurrent(s: State) {
    s.pc.Releasing? ==> IsLive(s.rows, s.pc.id) && s.rows[s.pc.id].port == s.pc.row.port
  }

  ghost predicate Invariant(s: State) {
    Safe(s) && NoVms(s) && ReleaseIsCurrent(s) && HoldsAreLiveOrDue(s)
  }

  /** The lease task expires the very row that a release has read and not yet written. */
  ghost predicate ExpiresUnderRelease(s: State, a: Action) {
    a.ExpireLeases? && s.pc.Releasing? && s.pc.id in s.rows && Overdue(s.rows[s.pc.id], s.now)
  }

  /** Requests come from owners without a VM, so nobody calls `update_state`; and no release is overtaken
      by the expiry of its own row. The latter is automatic when a broker call is one step. */
  ghost predicate Calm(s: State, a: Action) {
    && (a.FindDuplicate? ==> VmName(a.req.owner).None?)
    && !ExpiresUnderRelease(s, a)
  }

  ghost predicate CalmRun(cfg: Config, s: State, acts: seq<Action>)
    requires Legal(cfg, s, acts)
    decreases |acts|
  {
    acts == [] || (Calm(s, acts[0]) && CalmRun(cfg, Next(cfg, s, acts[0]), acts[1..]))
  }

  // ---------------------------------------------------------------- the three steps that matter

  lemma CommitKeepsHolds(s: State, id: Id, row: Row)
    requires Safe(s) && HoldsAreLiveOrDue(s)
    requires id !in s.rows && row.port !in LivePorts(s.rows) && row.port !in s.holds && !row.state.Released?
    ensures ReserveTx(s.rows, id, row).Ok?
    ensures HoldsAreLiveOrDue(s.(rows := ReserveTx(s.rows, id, row).value, holds := s.holds + {row.port}))
  {
    CommitSucceeds(s.rows, id, row);
    var u := ReserveTx(s.rows, id, row).value;
    assert LivePorts(u) == LivePorts(s.rows) + {row.port} by {
      forall p | p in LivePorts(s.rows) ensures p in LivePorts(u) {
        var i :| i in s.rows && !s.rows[i].state.Released? && s.rows[i].port == p;
        assert i in u && u[i] == s.rows[i];
      }
      assert u[id].port in LivePorts(u);
      forall p | p in LivePorts(u) ensures p in LivePorts(s.rows) + {row.port} {
        var i :| i in u && !u[i].state.Released? && u[i].port == p;
        if i != id {
          assert u[i] == s.rows[i];
        }
      }
    }
  }

  lemma ReleaseKeepsHolds(s: State, id: Id)
    requires Safe(s) && HoldsAreLiveOrDue(s) && IsLive(s.rows, id)
    ensures SetState(s.rows, id, Released, s.now).Ok?
    ensures HoldsAreLiveOrDue(s.(rows := SetState(s.rows, id, Released, s.now).value,
                                 holds := s.holds - {s.rows[id].port}))
  {
    WriteSucceeds(s.rows, id, Released, s.now);
    var u, port := SetState(s.rows, id, Released, s.now).value, s.rows[id].port;
    assert LivePorts(u) == LivePorts(s.rows) - {port} by {
      forall p | p in LivePorts(s.rows) - {port} ensures p in LivePorts(u) {
        var i :| i in s.rows && !s.rows[i].state.Released? && s.rows[i].port == p;
        assert u[i] == s.rows[i];
      }
      forall p | p in LivePorts(u) ensures p in LivePorts(s.rows) - {port} {
        var i :| i in u && !u[i].state.Released? && u[i].port == p;
        assert u[i] == s.rows[i];
      }
    }
    assert port in LivePorts(s.rows);
  }

  lemma ExpiryKeepsHolds(s: State, batch: seq<Notice>)
    requires Safe(s) && HoldsAreLiveOrDue(s) && s.lease.Waiting? && Reports(batch, s.rows, s.now)
    ensures HoldsAreLiveOrDue(s.(rows := Expire(s.rows, s.now), lease := Sending(batch)))
    ensures batch == [] ==> HoldsAreLiveOrDue(s.(rows := Expire(s.rows, s.now), lease := Purging))
  {
    var u := Expire(s.rows, s.now);
    var s' := s.(rows := u, lease := Sending(batch));
    assert Due(s) == s.channel;
    forall p | p in LivePorts(s.rows) ensures p in LivePorts(u) || p in Ports(batch) {
      var i :| i in s.rows && !s.rows[i].state.Released? && s.rows[i].port == p;
      if Overdue(s.rows[i], s.now) {
        assert Notice(i, p) in batch;
      } else {
        assert u[i] == s.rows[i];
      }
    }
    forall p | p in Ports(batch) ensures p in LivePorts(s.rows) && p !in LivePorts(u) {
      var n :| n in batch && n.port == p;
      assert n.id in OverdueIds(s.rows, s.now);
      forall i | i in u && u[i].port == p ensures u[i].state.Released? {
        assert i == n.id;
      }
    }
    forall p | p in LivePorts(u) ensures p in LivePorts(s.rows) {
      var i :| i in u && !u[i].state.Released? && u[i].port == p;
      assert u[i] == s.rows[i];
    }
    assert Ports(Due(s')) == Ports(s.channel) + Ports(batch);
    forall i, j | 0 <= i < j < |Due(s')| ensures Due(s')[i].port != Due(s')[j].port {
      DueAreDistinct(s, batch, i, j);
    }
  }

  lemma DueAreDistinct(s: State, batch: seq<Notice>, i: nat, j: nat)
    requires Safe(s) && HoldsAreLiveOrDue(s) && s.lease.Waiting? && Reports(batch, s.rows, s.now)
    requires i < j < |s.channel + batch|
    ensures (s.channel + batch)[i].port != (s.channel + batch)[j].port
  {
    assert Due(s) == s.channel;
    if j >= |s.channel| {
      var n := batch[j - |s.channel|];
      assert n in batch && n.id in OverdueIds(s.rows, s.now);
      assert n.port in LivePorts(s.rows);
      if i < |s.channel| {
        assert s.channel[i].port in Ports(s.channel);
      } else {
        var m := batch[i - |s.channel|];
        assert m in batch && m.id in OverdueIds(s.rows, s.now) && m.id != n.id;
      }
    }
  }

  lemma PurgeKeepsHolds(s: State, ttl: nat)
    requires HoldsAreLiveOrDue(s) && s.lease.Purging?
    ensures HoldsAreLiveOrDue(s.(rows := Purge(s.rows, s.now, ttl), lease := Waiting))
  {
    var u := Purge(s.rows, s.now, ttl);
    CleanupShrinks(s.rows, s.now, ttl);
    ShrinkingFreesPorts(s.rows, u);
    forall p | p in LivePorts(s.rows) ensures p in LivePorts(u) {
      var i :| i in s.rows && !s.rows[i].state.Released? && s.rows[i].port == p;
      assert i in u && u[i] == s.rows[i];
    }
  }

  lemma HandlerKeepsHolds(s: State)
    requires HoldsAreLiveOrDue(s) && s.channel != []
    ensures s.channel[0].port in s.holds && s.channel[0].port !in LivePorts(s.rows)
    ensures HoldsAreLiveOrDue(s.(channel := s.channel[1..], holds := s.holds - {s.channel[0].port}))
  {
    var s' := s.(channel := s.channel[1..], holds := s.holds - {s.channel[0].port});
    assert Due(s) == [s.channel[0]] + Due(s');
    PortsOfTail(Due(s));
    assert Due(s)[1..] == Due(s');
    assert s.channel[0].port in Ports(Due(s));
  }

  lemma PortsOfTail(due: seq<Notice>)
    requires due != [] && forall i, j :: 0 <= i < j < |due| ==> due[i].port != due[j].port
    ensures Ports(due) == {due[0].port} + Ports(due[1..]) && due[0].port !in Ports(due[1..])
    ensures forall i, j :: 0 <= i < j < |due[1..]| ==> due[1..][i].port != due[1..][j].port
  {
    assert due == [due[0]] + due[1..];
    assert due[0] in due;
    forall n | n in due[1..] ensures n.port != due[0].port {
      var k :| 0 <= k < |due| - 1 && due[1..][k] == n;
      assert due[k + 1] == n;
    }
  }

  lemma StepKeepsHolds(cfg: Config, s: State, a: Action)
    requires Invariant(s) && Enabled(cfg, s, a) && Calm(s, a)
    ensures Invariant(Next(cfg, s, a))
  {
    StepKeepsSafe(cfg, s, a);
    StepKeepsOwners(cfg, s, a);
    StepKeepsRelease(cfg, s, a);
    StepKeepsHeld(cfg, s, a);
  }

  lemma StepKeepsRelease(cfg: Config, s: State, a: Action)
    requires Safe(s) && ReleaseIsCurrent(s) && Enabled(cfg, s, a) && Calm(s, a)
    ensures ReleaseIsCurrent(Next(cfg, s, a))
  {
  }

  lemma StepKeepsOwners(cfg: Config, s: State, a: Action)
    requires Safe(s) && NoVms(s) && Enabled(cfg, s, a) && Calm(s, a)
    ensures NoVms(Next(cfg, s, a))
  {
    if a.Commit? {
      CommitKeepsOwners(s.rows, a.id, NewRow(s.pc.req, s.pc.port, s.now));
    }
  }

  lemma CommitKeepsOwners(t: Table, id: Id, row: Row)
    requires OneRowPerPort(t) && id !in t && row.port !in LivePorts(t) && VmName(row.owner).None?
    requires forall i :: i in t ==> VmName(t[i].owner).None?
    ensures ReserveTx(t, id, row).Ok?
    ensures var u := ReserveTx(t, id, row).value; forall i :: i in u ==> VmName(u[i].owner).None?
  {
    CommitSucceeds(t, id, row);
  }

  lemma StepKeepsHeld(cfg: Config, s: State, a: Action)
    requires Invariant(s) && Enabled(cfg, s, a) && Calm(s, a)
    ensures HoldsAreLiveOrDue(Next(cfg, s, a))
  {
    match a
    case Commit(id) => CommitKeepsHolds(s, id, NewRow(s.pc.req, s.pc.port, s.now));
    case WriteRelease => ReleaseKeepsHolds(s, s.pc.id);
    case ExpireLeases(batch) => ExpiryKeepsHolds(s, batch);
    case SendBatch => assert Due(Next(cfg, s, a)) == Due(s);
    case PurgeReleased => PurgeKeepsHolds(s, cfg.ttl);
    case HandleNotice => HandlerKeepsHolds(s);
    case _ => OtherStepsKeepHolds(cfg, s, a);
  }

  lemma OtherStepsKeepHolds(cfg: Config, s: State, a: Action)
    requires NoVms(s) && Enabled(cfg, s, a)
    requires !(a.Commit? || a.WriteRelease? || a.ExpireLeases? || a.SendBatch? || a.PurgeReleased? || a.HandleNotice?)
    ensures Next(cfg, s, a).rows == s.rows && Next(cfg, s, a).holds == s.holds && Due(Next(cfg, s, a)) == Due(s)
  {
  }

  // ---------------------------------------------------------------- every run

  lemma {:induction false} RunsKeepHolds(cfg: Config, s: State, acts: seq<Action>)
    requires Invariant(s) && Legal(cfg, s, acts) && CalmRun(cfg, s, acts)
    ensures Invariant(Exec(cfg, s, acts))
    decreases |acts|
  {
    if acts != [] {
      StepKeepsHolds(cfg, s, acts[0]);
      RunsKeepHolds(cfg, Next(cfg, s, acts[0]), acts[1..]);
    }
  }

  /** A daemon that has just started holds no listener; the claim is true of it exactly when its table has
      no live row left from an earlier process. */
  lemma HoldsAtStart(s: State)
    requires Started(s)
    ensures HoldsAreLiveOrDue(s) <==> LivePorts(s.rows) == {}
  {
  }

  /** The whole claim: on every calm run the held ports are the live ports and the ports under notice;
      the notice at the head of the queue is never about a live port; and once every notice is handled the
      held ports are exactly the live ones. */
  lemma HandlerNeverDropsANewerListener(cfg: Config, s: State, acts: seq<Action>)
    requires Started(s) && OneRowPerPort(s.rows) && LivePorts(s.rows) == {}
    requires forall id :: id in s.rows ==> VmName(s.rows[id].owner).None?
    requires Legal(cfg, s, acts) && CalmRun(cfg, s, acts)
    ensures var s' := Exec(cfg, s, acts);
            && HoldsAreLiveOrDue(s')
            && (s'.channel != [] ==> s'.channel[0].port !in LivePorts(s'.rows))
            && (Due(s') == [] ==> s'.holds == LivePorts(s'.rows))
  {
    HoldsAtStart(s);
    RunsKeepHolds(cfg, s, acts);
    var s' := Exec(cfg, s, acts);
    if s'.channel != [] {
      HandlerKeepsHolds(s');
    }
  }

  // ---------------------------------------------------------------- where the claim stops

  /** `do_release` reads and then writes. If the lease task runs in between, the listeners stay accounted
      for exactly when the row under release was not overdue. */
  lemma ReleaseRaceIsExact(cfg: Config, s: State, batch: seq<Notice>)
    requires Invariant(s) && s.pc.Releasing? && Enabled(cfg, s, ExpireLeases(batch))
    ensures var s1 := Next(cfg, s, ExpireLeases(batch));
            Enabled(cfg, s1, WriteRelease)
            && (HoldsAreLiveOrDue(Next(cfg, s1, WriteRelease)) <==> !Overdue(s.rows[s.pc.id], s.now))
  {
    var id, port := s.pc.id, s.pc.row.port;
    var s1 := Next(cfg, s, ExpireLeases(batch));
    StepKeepsSafe(cfg, s, ExpireLeases(batch));
    WriteSucceeds(s1.rows, id, Released, s1.now);
    if Overdue(s.rows[id], s.now) {
      assert id in OverdueIds(s.rows, s.now);
      assert Notice(id, port) in batch;
      var s2 := Next(cfg, s1, WriteRelease);
      assert Notice(id, port) in Due(s2) && port in Ports(Due(s2)) && port !in s2.holds;
    } else {
      StepKeepsHolds(cfg, s, ExpireLeases(batch));
      StepKeepsHolds(cfg, s1, WriteRelease);
    }
  }

  /** A VM reservation gives its listener up as soon as it is made, so its live port is not held. */
  lemma VmGivesUpItsListener(s: State, id: Id)
    requires IsLive(s.rows, id) && HoldsAreLiveOrDue(s)
    ensures HoldsAreLiveOrDue(AfterReserve(s, id)) <==> !(VmName(s.rows[id].owner).Some? && s.rows[id].state.Pending?)
  {
    assert s.rows[id].port in LivePorts(s.rows);
  }

  /** What either of the two leads to: a notice about a port that is not held lets the handler drop the
      listener of whoever reserves that port before the notice is handled. */
  lemma UnheldNoticeDropsAListener(cfg: Config, s: State, req: Request, id: Id)
    requires Safe(s) && s.pc.Idle? && |s.channel| == 1 && s.reporting.None? && id !in s.issued
    requires s.channel[0].port !in LivePorts(s.rows) + Busy(s)
    requires req.preferred == Some(s.channel[0].port) && IsHost(req.owner)
    requires Duplicates(s.rows, req.owner, req.host, req.targetPort) == {} && !OverLimit(cfg, s.rows, req.owner)
    ensures var acts := ReserveStatements(cfg, s, req, None, id) + [HandleNotice];
            && Legal(cfg, s, acts)
            && IsLive(Exec(cfg, s, acts).rows, id)
            && Exec(cfg, s, acts).rows[id].port == s.channel[0].port
            && s.channel[0].port !in Exec(cfg, s, acts).holds
  {
    var port := s.channel[0].port;
    ReserveCallIsRun(cfg, s, req, None, id);
    CommitSucceeds(s.rows, id, NewRow(req, port, s.now));
    var s1 := AfterCall(cfg, s, req, None, id);
    OneStep(cfg, s1, HandleNotice);
    LegalConcat(cfg, s, ReserveStatements(cfg, s, req, None, id), [HandleNotice]);
  }

  /** What the two statements of the race leave in the table. */
  lemma RaceTable(t: Table, id: Id, now: nat)
    requires OneRowPerPort(t) && IsLive(t, id)
    ensures OneRowPerPort(Expire(t, now)) && SetState(Expire(t, now), id, Released, now).Ok?
    ensures var u := SetState(Expire(t, now), id, Released, now).value;
            t[id].port !in LivePorts(u) && Shrinks(t, u)
  {
    WriteSucceeds(Expire(t, now), id, Released, now);
    var u := SetState(Expire(t, now), id, Released, now).value;
    forall i | i in u && u[i].port == t[id].port ensures u[i].state.Released? {
      assert i == id;
    }
  }

  const RELEASE_THEN_SEND := [WriteRelease, SendBatch]

  /** The race itself: the row expires under the release, the release finishes, the notice is queued. */
  lemma RaceRun(cfg: Config, s: State, batch: seq<Notice>)
    requires Invariant(s) && s.pc.Releasing? && s.lease.Waiting? && s.channel == []
    requires OverdueIds(s.rows, s.now) == {s.pc.id} && batch == [Notice(s.pc.id, s.pc.row.port)]
    ensures Legal(cfg, s, [ExpireLeases(batch)] + RELEASE_THEN_SEND)
    ensures var after := Exec(cfg, s, [ExpireLeases(batch)] + RELEASE_THEN_SEND);
            && after.pc.Idle? && after.channel == batch && after.reporting == s.reporting && after.issued == s.issued
            && after.holds == s.holds - {s.pc.row.port} && after.outside == s.outside
            && s.pc.row.port !in LivePorts(after.rows) && Shrinks(s.rows, after.rows)
  {
    var id := s.pc.id;
    assert id in OverdueIds(s.rows, s.now);
    RaceTable(s.rows, id, s.now);
    var s1 := s.(rows := Expire(s.rows, s.now), lease := Sending(batch));
    assert s1 == Next(cfg, s, ExpireLeases(batch));
    FinishRace(cfg, s1);
    Prepend(cfg, s, ExpireLeases(batch), RELEASE_THEN_SEND);
  }

  lemma FinishRace(cfg: Config, s: State)
    requires s.pc.Releasing? && s.lease.Sending? && SetState(s.rows, s.pc.id, Released, s.now).Ok?
    ensures Legal(cfg, s, RELEASE_THEN_SEND)
    ensures Exec(cfg, s, RELEASE_THEN_SEND)
         == s.(rows := SetState(s.rows, s.pc.id, Released, s.now).value, pc := Idle, lease := Purging,
               holds := s.holds - {s.pc.row.port}, channel := s.channel + s.lease.batch,
               log := s.log + [Event(s.pc.id, s.pc.row.owner, Some(s.pc.row.state), Released)])
  {
    OneStep(cfg, Next(cfg, s, WriteRelease), SendBatch);
    Prepend(cfg, s, WriteRelease, [SendBatch]);
    assert [WriteRelease] + [SendBatch] == RELEASE_THEN_SEND;
  }

  lemma RoomIsLeft(cfg: Config, t: Table, u: Table, req: Request)
    requires OneRowPerPort(t) && OneRowPerPort(u) && Shrinks(t, u)
    requires Duplicates(t, req.owner, req.host, req.targetPort) == {} && !OverLimit(cfg, t, req.owner)
    ensures Duplicates(u, req.owner, req.host, req.targetPort) == {} && !OverLimit(cfg, u, req.owner)
  {
    LimitIsMonotone(cfg, t, u, req.owner);
    ShrinkingShrinks(t, u, "", "", req.owner, req.host, req.targetPort);
  }

  /** So the race is real: the release finishes, its port is reserved anew, and the expiry notice of the old
      row takes the new listener away. */
  lemma ReleaseRaceDropsAListener(cfg: Config, s: State, req: Request, id: Id)
    requires Invariant(s) && s.pc.Releasing? && s.lease.Waiting? && s.channel == [] && s.reporting.None?
    requires id !in s.issued
    requires OverdueIds(s.rows, s.now) == {s.pc.id} && s.pc.row.port !in s.outside
    requires req.preferred == Some(s.pc.row.port) && IsHost(req.owner)
    requires Duplicates(s.rows, req.owner, req.host, req.targetPort) == {} && !OverLimit(cfg, s.rows, req.owner)
    ensures exists acts :: Legal(cfg, s, acts) && IsLive(Exec(cfg, s, acts).rows, id)
                           && Exec(cfg, s, acts).rows[id].port !in Exec(cfg, s, acts).holds
  {
    var batch := [Notice(s.pc.id, s.pc.row.port)];
    var race := [ExpireLeases(batch)] + RELEASE_THEN_SEND;
    RaceRun(cfg, s, batch);
    RunsStaySafe(cfg, s, race);
    var after := Exec(cfg, s, race);
    RoomIsLeft(cfg, s.rows, after.rows, req);
    UnheldNoticeDropsAListener(cfg, after, req, id);
    LegalConcat(cfg, s, race, ReserveStatements(cfg, after, req, None, id) + [HandleNotice]);
  }
}
