/** Hold listeners when VMs are involved too. A VM row gives its listener up to its tunnel; every other live row
    keeps its own, unless a reservation is committed at a port about which an expiry notice is still under way.
    And a listener is never held for nothing. */
module Listeners {
  import opened Wrappers
  import opened Allocation
  import opened Store
  import opened Protocol
  import opened Owners
  import opened PortSafety
  import opened Rows
  import Holds

  predicate IsVm(r: Row) {
    VmName(r.owner).Some?
  }

  /** Every live row without a VM has its listener, and no notice is about to take it. */
  ghost predicate Secure(s: State) {
    forall id :: id in s.rows && !s.rows[id].state.Released? && !IsVm(s.rows[id]) ==>
      s.rows[id].port in s.holds && s.rows[id].port !in Holds.Ports(Holds.Due(s))
  }

  /** Every listener belongs to a live row or to a row whose expiry is under way. */
  ghost predicate NoStrayListeners(s: State) {
    s.holds <= LivePorts(s.rows) + Holds.Ports(Holds.Due(s))
  }

  /** `update_state` is only under way, or to come, for VM rows. */
  ghost predicate UpdatesAgree(s: State) {
    && (forall id :: id in s.awaited ==> id in s.issued && (id in s.rows ==> IsVm(s.rows[id])))
    && (s.pc.Updating? ==> s.pc.id in s.issued && !s.pc.newState.Released?
                           && (s.pc.id in s.rows ==> IsVm(s.rows[s.pc.id])))
  }

  /** A release is only under way for a row that nobody shares the port with. */
  ghost predicate ReleaseAgrees(s: State) {
    s.pc.Releasing? ==>
      && s.pc.id in s.issued
      && (forall id :: id in s.rows && s.rows[id].port == s.pc.row.port ==> id == s.pc.id)
      && (s.pc.id in s.rows ==> s.rows[s.pc.id].port == s.pc.row.port)
  }

  ghost predicate CallsAgree(s: State) {
    UpdatesAgree(s) && ReleaseAgrees(s)
  }

  ghost predicate Invariant(s: State) {
    Safe(s) && CallsAgree(s) && NoStrayListeners(s)
  }

  /** A reservation without a VM is committed at a port that a notice is about. */
  ghost predicate CommitsUnderNotice(s: State, a: Action) {
    a.Commit? && s.pc.Committing? && VmName(s.pc.req.owner).None? && s.pc.port in Holds.Ports(Holds.Due(s))
  }

  // ---------------------------------------------------------------- the steps that touch listeners

  lemma HandingOverIsExact(s: State, id: Id)
    requires OneRowPerPort(s.rows)
    ensures var s' := AfterReserve(s, id);
            && (if id in s.rows && IsVm(s.rows[id]) && s.rows[id].state.Pending? then
                  s'.holds == s.holds - {s.rows[id].port}
                else s'.holds == s.holds)
            && (Secure(s) ==> Secure(s')) && (NoStrayListeners(s) ==> NoStrayListeners(s'))
  {
    assert Holds.Due(AfterReserve(s, id)) == Holds.Due(s);
  }

  lemma CommitIsExact(cfg: Config, s: State, id: Id)
    requires Invariant(s) && Enabled(cfg, s, Commit(id))
    ensures Secure(s) ==> (Secure(Next(cfg, s, Commit(id))) <==> !CommitsUnderNotice(s, Commit(id)))
    ensures NoStrayListeners(Next(cfg, s, Commit(id)))
  {
    var row, s' := NewRow(s.pc.req, s.pc.port, s.now), Next(cfg, s, Commit(id));
    CommitSucceeds(s.rows, id, row);
    assert Holds.Due(s') == Holds.Due(s);
    assert s'.rows[id] == row && row.port in LivePorts(s'.rows) by {
      assert id in s'.rows && !s'.rows[id].state.Released?;
    }
    forall p | p in LivePorts(s.rows) ensures p in LivePorts(s'.rows) {
      var i :| i in s.rows && !s.rows[i].state.Released? && s.rows[i].port == p;
      assert i in s'.rows && s'.rows[i] == s.rows[i];
    }
  }

  lemma ReleaseKeepsListeners(cfg: Config, s: State)
    requires Invariant(s) && Enabled(cfg, s, WriteRelease)
    ensures Secure(s) ==> Secure(Next(cfg, s, WriteRelease))
    ensures NoStrayListeners(Next(cfg, s, WriteRelease))
  {
    var s' := Next(cfg, s, WriteRelease);
    WriteSucceeds(s.rows, s.pc.id, Released, s.now);
    assert Holds.Due(s') == Holds.Due(s);
    forall p | p in LivePorts(s.rows) && p != s.pc.row.port ensures p in LivePorts(s'.rows) {
      var i :| i in s.rows && !s.rows[i].state.Released? && s.rows[i].port == p;
      assert i in s'.rows && s'.rows[i] == s.rows[i];
    }
  }

  lemma UpdateKeepsListeners(cfg: Config, s: State)
    requires Invariant(s) && Enabled(cfg, s, WriteUpdate)
    ensures Secure(s) ==> Secure(Next(cfg, s, WriteUpdate))
    ensures NoStrayListeners(Next(cfg, s, WriteUpdate))
  {
    var s' := Next(cfg, s, WriteUpdate);
    WriteSucceeds(s.rows, s.pc.id, s.pc.newState, s.now);
    assert Holds.Due(s') == Holds.Due(s);
    LiveWriteKeepsPorts(s.rows, s.pc.id, s.pc.newState, s.now);
  }

  lemma LiveWriteKeepsPorts(t: Table, id: Id, state: RowState, now: nat)
    requires !state.Released? && SetState(t, id, state, now).Ok?
    ensures LivePorts(t) <= LivePorts(SetState(t, id, state, now).value)
  {
    var u := SetState(t, id, state, now).value;
    forall p | p in LivePorts(t) ensures p in LivePorts(u) {
      var i :| i in t && !t[i].state.Released? && t[i].port == p;
      assert i in u && !u[i].state.Released? && u[i].port == p;
    }
  }

  lemma ExpiryKeepsListeners(cfg: Config, s: State, batch: seq<Notice>)
    requires Invariant(s) && Enabled(cfg, s, ExpireLeases(batch))
    ensures Secure(s) ==> Secure(Next(cfg, s, ExpireLeases(batch)))
    ensures NoStrayListeners(Next(cfg, s, ExpireLeases(batch)))
  {
    var s' := Next(cfg, s, ExpireLeases(batch));
    assert Holds.Due(s') == Holds.Due(s) + batch;
    forall p | p in LivePorts(s.rows) ensures p in LivePorts(s'.rows) + Holds.Ports(Holds.Due(s')) {
      var i :| i in s.rows && !s.rows[i].state.Released? && s.rows[i].port == p;
      if Overdue(s.rows[i], s.now) {
        assert Notice(i, p) in batch && Notice(i, p) in Holds.Due(s');
      } else {
        assert s'.rows[i] == s.rows[i];
      }
    }
    forall p | p in Holds.Ports(Holds.Due(s)) ensures p in Holds.Ports(Holds.Due(s')) {
      var n :| n in Holds.Due(s) && n.port == p;
      assert n in Holds.Due(s');
    }
    forall id | Secure(s) && id in s'.rows && !s'.rows[id].state.Released? && !IsVm(s'.rows[id])
      ensures s'.rows[id].port !in Holds.Ports(Holds.Due(s'))
    {
      assert s'.rows[id] == s.rows[id];
      forall n | n in batch ensures n.port != s.rows[id].port {
        assert n.id in OverdueIds(s.rows, s.now);
      }
    }
  }

  lemma NoticeKeepsListeners(cfg: Config, s: State)
    requires Invariant(s) && Enabled(cfg, s, HandleNotice)
    ensures Secure(s) ==> Secure(Next(cfg, s, HandleNotice))
    ensures NoStrayListeners(Next(cfg, s, HandleNotice))
  {
    var s' := Next(cfg, s, HandleNotice);
    assert Holds.Due(s) == [s.channel[0]] + Holds.Due(s');
    assert Holds.Ports(Holds.Due(s)) == {s.channel[0].port} + Holds.Ports(Holds.Due(s'));
  }

  lemma PurgeKeepsListeners(cfg: Config, s: State)
    requires Invariant(s) && Enabled(cfg, s, PurgeReleased)
    ensures Secure(s) ==> Secure(Next(cfg, s, PurgeReleased))
    ensures NoStrayListeners(Next(cfg, s, PurgeReleased))
  {
    var s' := Next(cfg, s, PurgeReleased);
    assert Holds.Due(s') == Holds.Due(s);
    forall p | p in LivePorts(s.rows) ensures p in LivePorts(s'.rows) {
      var i :| i in s.rows && !s.rows[i].state.Released? && s.rows[i].port == p;
      assert i in s'.rows && s'.rows[i] == s.rows[i];
    }
  }

  lemma OtherStepsTouchNothing(cfg: Config, s: State, a: Action)
    requires Enabled(cfg, s, a) && !a.FindDuplicate? && !a.Fetch?
    requires !(a.Commit? || a.WriteUpdate? || a.WriteRelease? || a.ExpireLeases? || a.PurgeReleased? || a.HandleNotice?)
    ensures Next(cfg, s, a).rows == s.rows && Next(cfg, s, a).holds == s.holds
    ensures Holds.Due(Next(cfg, s, a)) == Holds.Due(s)
  {
    var s' := Next(cfg, s, a);
    if a.SendBatch? {
      assert s'.channel == s.channel + s.lease.batch;
    } else {
      assert s'.channel == s.channel;
    }
  }

  lemma SameListeners(s: State, s': State)
    requires s'.rows == s.rows && s'.holds == s.holds && Holds.Due(s') == Holds.Due(s)
    ensures Secure(s) ==> Secure(s')
    ensures NoStrayListeners(s) ==> NoStrayListeners(s')
  {
  }

  // ---------------------------------------------------------------- one step

  /** Where an awaited row, and the row of an update under way, come from. */
  lemma UpdatesComeFromRows(cfg: Config, s: State, a: Action)
    requires Enabled(cfg, s, a)
    ensures var s' := Next(cfg, s, a);
            && (forall id :: id in s'.awaited ==> id in s.awaited || (id in s.rows && IsVm(s.rows[id])))
            && (s'.pc.Updating? ==>
                  (s.pc.Updating? && s'.pc.id == s.pc.id && s'.pc.newState == s.pc.newState)
                  || (s'.pc.id in s.awaited && !s'.pc.newState.Released?))
  {
  }

  lemma StepKeepsUpdates(cfg: Config, s: State, a: Action)
    requires Safe(s) && UpdatesAgree(s) && Enabled(cfg, s, a)
    ensures UpdatesAgree(Next(cfg, s, a))
  {
    UpdatesComeFromRows(cfg, s, a);
    OldRowsKeepOwners(cfg, s, a);
    IssuedGrows(cfg, s, a);
  }

  lemma OldRowsKeepOwners(cfg: Config, s: State, a: Action)
    requires Safe(s) && Enabled(cfg, s, a)
    ensures var u := Next(cfg, s, a).rows;
            forall id :: id in s.issued && id in u ==>
              id in s.rows && u[id].owner == s.rows[id].owner && u[id].port == s.rows[id].port
  {
    forall id | id in s.issued && id in Next(cfg, s, a).rows
      ensures id in s.rows && SameReservation(s.rows[id], Next(cfg, s, a).rows[id])
    {
      if id in s.rows {
        StepContinues(cfg, s, a, id);
      } else {
        GoneIsGone(cfg, s, a, id);
      }
    }
  }

  /** A release under way was under way before, and no row was committed; or it has just read its row. */
  lemma ReleaseComesFromRow(cfg: Config, s: State, a: Action)
    requires Enabled(cfg, s, a) && Next(cfg, s, a).pc.Releasing?
    ensures var s' := Next(cfg, s, a);
            && s'.issued == s.issued
            && ((s.pc.Releasing? && s'.pc == s.pc && s'.rows.Keys <= s.rows.Keys)
                || (s'.rows == s.rows && s'.pc.id in s.rows && s'.pc.row == s.rows[s'.pc.id]))
  {
  }

  lemma StepKeepsRelease(cfg: Config, s: State, a: Action)
    requires Safe(s) && ReleaseAgrees(s) && Enabled(cfg, s, a)
    ensures ReleaseAgrees(Next(cfg, s, a))
  {
    if Next(cfg, s, a).pc.Releasing? {
      ReleaseComesFromRow(cfg, s, a);
      OldRowsKeepOwners(cfg, s, a);
    }
  }

  /** No step leaves a stray listener; and every step keeps the live rows' listeners, exactly unless it commits a
      reservation under a notice. */
  lemma StepIsExact(cfg: Config, s: State, a: Action)
    requires Invariant(s) && Enabled(cfg, s, a)
    ensures Invariant(Next(cfg, s, a))
    ensures Secure(s) ==> (Secure(Next(cfg, s, a)) <==> !CommitsUnderNotice(s, a))
  {
    StepKeepsSafe(cfg, s, a);
    StepKeepsUpdates(cfg, s, a);
    StepKeepsRelease(cfg, s, a);
    match a
    case FindDuplicate(_, found) =>
      if found.Some? {
        HandingOverIsExact(s, found.value);
      } else {
        assert Holds.Due(Next(cfg, s, a)) == Holds.Due(s);
      }
    case Fetch => HandingOverIsExact(s, s.pc.id);
    case Commit(id) => CommitIsExact(cfg, s, id);
    case WriteUpdate => UpdateKeepsListeners(cfg, s);
    case WriteRelease => ReleaseKeepsListeners(cfg, s);
    case ExpireLeases(batch) => ExpiryKeepsListeners(cfg, s, batch);
    case PurgeReleased => PurgeKeepsListeners(cfg, s);
    case HandleNotice => NoticeKeepsListeners(cfg, s);
    case _ =>
      OtherStepsTouchNothing(cfg, s, a);
      SameListeners(s, Next(cfg, s, a));
  }

  // ---------------------------------------------------------------- every run

  ghost predicate CarefulRun(cfg: Config, s: State, acts: seq<Action>)
    requires Legal(cfg, s, acts)
    decreases |acts|
  {
    acts == [] || (!CommitsUnderNotice(s, acts[0]) && CarefulRun(cfg, Next(cfg, s, acts[0]), acts[1..]))
  }

  lemma {:induction false} RunsKeepListeners(cfg: Config, s: State, acts: seq<Action>)
    requires Invariant(s) && Legal(cfg, s, acts)
    ensures Invariant(Exec(cfg, s, acts))
    ensures Secure(s) && CarefulRun(cfg, s, acts) ==> Secure(Exec(cfg, s, acts))
    decreases |acts|
  {
    if acts != [] {
      StepIsExact(cfg, s, acts[0]);
      RunsKeepListeners(cfg, Next(cfg, s, acts[0]), acts[1..]);
    }
  }

  /** In every run, VMs and races included, a listener is only held for a live row or one whose expiry is under way.
      And in every run that commits nothing under a notice, from a table whose live rows all belong to VMs, every
      live row without a VM has its listener at every moment. */
  lemma LiveRowsKeepListeners(cfg: Config, s: State, acts: seq<Action>)
    requires Started(s) && OneRowPerPort(s.rows) && Legal(cfg, s, acts)
    ensures NoStrayListeners(Exec(cfg, s, acts))
    ensures (forall id :: id in s.rows && !s.rows[id].state.Released? ==> IsVm(s.rows[id])) && CarefulRun(cfg, s, acts)
            ==> Secure(Exec(cfg, s, acts))
  {
    RunsKeepListeners(cfg, s, acts);
  }
}
