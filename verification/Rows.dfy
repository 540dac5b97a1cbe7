/** What a row keeps over a whole run. A reservation is stored as it was asked for, and from then on only its state
    and its stamp change; so its lease runs from its commit, and expiry honours it. */
module Rows {
  import opened Wrappers
  import opened Strings
  import opened Allocation
  import opened Store
  import opened Protocol
  import opened PortSafety

  /** Equal in all but state and stamp. */
  predicate SameReservation(a: Row, b: Row) {
    && a.owner == b.owner && a.requested == b.requested && a.port == b.port && a.host == b.host
    && a.targetPort == b.targetPort && a.lease == b.lease && a.expiresAt == b.expiresAt && a.createdAt == b.createdAt
  }

  /** Row `id` of `t` is in `u` as the same reservation, and stamped with `now` if its state has changed. */
  predicate Continues(t: Table, u: Table, id: Id, now: nat) {
    && id in t && id in u && SameReservation(t[id], u[id])
    && (u[id] == t[id] || u[id].updatedAt == now)
  }

  // ---------------------------------------------------------------- one step

  lemma CommitContinues(t: Table, new_: Id, row: Row, id: Id, now: nat)
    requires OneRowPerPort(t) && new_ !in t && row.port !in LivePorts(t) && id in t
    ensures ReserveTx(t, new_, row).Ok?
    ensures id in ReserveTx(t, new_, row).value ==> Continues(t, ReserveTx(t, new_, row).value, id, now)
  {
    CommitSucceeds(t, new_, row);
  }

  lemma WriteContinues(t: Table, written: Id, state: RowState, id: Id, now: nat)
    requires OneRowPerPort(t) && id in t
    ensures SetState(t, written, state, now).Ok?
    ensures Continues(t, SetState(t, written, state, now).value, id, now)
    ensures id == written ==> SetState(t, written, state, now).value[id].updatedAt == now
  {
    WriteSucceeds(t, written, state, now);
  }

  lemma CleanupContinues(t: Table, id: Id, now: nat, ttl: nat)
    requires id in t
    ensures Continues(t, Expire(t, now), id, now)
    ensures id in Purge(t, now, ttl) ==> Continues(t, Purge(t, now, ttl), id, now)
  {
  }

  lemma StepContinues(cfg: Config, s: State, a: Action, id: Id)
    requires Safe(s) && Enabled(cfg, s, a) && id in s.rows && id in Next(cfg, s, a).rows
    ensures Continues(s.rows, Next(cfg, s, a).rows, id, s.now)
  {
    match a
    case Commit(new_) => CommitContinues(s.rows, new_, NewRow(s.pc.req, s.pc.port, s.now), id, s.now);
    case WriteUpdate => WriteContinues(s.rows, s.pc.id, s.pc.newState, id, s.now);
    case WriteRelease => WriteContinues(s.rows, s.pc.id, Released, id, s.now);
    case ExpireLeases(_) => CleanupContinues(s.rows, id, s.now, cfg.ttl);
    case PurgeReleased => CleanupContinues(s.rows, id, s.now, cfg.ttl);
    case _ =>
  }

  /** An id is used once. */
  lemma GoneIsGone(cfg: Config, s: State, a: Action, id: Id)
    requires Safe(s) && Enabled(cfg, s, a) && id in s.issued && id !in s.rows
    ensures id in Next(cfg, s, a).issued && id !in Next(cfg, s, a).rows
  {
    if a.Commit? {
      CommitSucceeds(s.rows, a.id, NewRow(s.pc.req, s.pc.port, s.now));
    } else if a.WriteUpdate? {
      WriteSucceeds(s.rows, s.pc.id, s.pc.newState, s.now);
    } else if a.WriteRelease? {
      WriteSucceeds(s.rows, s.pc.id, Released, s.now);
    }
  }

  // ---------------------------------------------------------------- every run

  lemma {:induction false} GoneStaysGone(cfg: Config, s: State, acts: seq<Action>, id: Id)
    requires Safe(s) && Legal(cfg, s, acts) && id in s.issued && id !in s.rows
    ensures id !in Exec(cfg, s, acts).rows
    decreases |acts|
  {
    if acts != [] {
      GoneIsGone(cfg, s, acts[0], id);
      StepKeepsSafe(cfg, s, acts[0]);
      GoneStaysGone(cfg, Next(cfg, s, acts[0]), acts[1..], id);
    }
  }

  lemma IssuedGrows(cfg: Config, s: State, a: Action)
    requires Enabled(cfg, s, a)
    ensures s.issued <= Next(cfg, s, a).issued
  {
  }

  lemma {:induction false} RunsGrowIssued(cfg: Config, s: State, acts: seq<Action>)
    requires Legal(cfg, s, acts)
    ensures s.issued <= Exec(cfg, s, acts).issued
    decreases |acts|
  {
    if acts != [] {
      IssuedGrows(cfg, s, acts[0]);
      RunsGrowIssued(cfg, Next(cfg, s, acts[0]), acts[1..]);
    }
  }

  lemma {:induction false} RunsKeepReservations(cfg: Config, s: State, acts: seq<Action>, id: Id)
    requires Safe(s) && Legal(cfg, s, acts) && id in s.rows
    ensures id in Exec(cfg, s, acts).rows ==> SameReservation(s.rows[id], Exec(cfg, s, acts).rows[id])
    decreases |acts|
  {
    if acts != [] {
      var s' := Next(cfg, s, acts[0]);
      StepKeepsSafe(cfg, s, acts[0]);
      IssuedGrows(cfg, s, acts[0]);
      if id in s'.rows {
        StepContinues(cfg, s, acts[0], id);
        RunsKeepReservations(cfg, s', acts[1..], id);
      } else {
        GoneStaysGone(cfg, s', acts[1..], id);
      }
    }
  }

  /** Every column of a row as the request asked for it, at the time of its commit. */
  ghost predicate WasAskedFor(row: Row, req: Request, port: Port, committed: nat) {
    && row.owner == req.owner && row.requested == req.preferred && row.port == port
    && row.host == req.host && row.targetPort == req.targetPort
    && row.lease == req.lease && row.createdAt == committed
    && row.expiresAt == (if req.lease.Some? && req.lease.value > 0 then Some(committed + req.lease.value) else None)
  }

  /** A reservation is stored as it was asked for, active for a host and pending otherwise. */
  lemma CommitStores(cfg: Config, s: State, id: Id)
    requires Safe(s) && Enabled(cfg, s, Commit(id))
    ensures var s' := Next(cfg, s, Commit(id));
            && id in s'.rows && WasAskedFor(s'.rows[id], s.pc.req, s.pc.port, s.now)
            && s'.rows[id].updatedAt == s.now
            && s'.rows[id].state == (if StartsWith(s.pc.req.owner, "host:") then Active else Pending)
  {
    CommitSucceeds(s.rows, id, NewRow(s.pc.req, s.pc.port, s.now));
  }

  /** And as long as it is there it stays what was asked for. */
  lemma ReservationsStayAsAskedFor(cfg: Config, s: State, id: Id, acts: seq<Action>)
    requires Safe(s) && Enabled(cfg, s, Commit(id)) && Legal(cfg, Next(cfg, s, Commit(id)), acts)
    ensures var s' := Exec(cfg, Next(cfg, s, Commit(id)), acts);
            id in s'.rows ==> WasAskedFor(s'.rows[id], s.pc.req, s.pc.port, s.now)
  {
    CommitStores(cfg, s, id);
    StepKeepsSafe(cfg, s, Commit(id));
    RunsKeepReservations(cfg, Next(cfg, s, Commit(id)), acts, id);
  }

  /** However the run goes on, an expiry step releases the reservation exactly when it is then active or pending
      and the positive lease that was asked for has run out since the commit. */
  lemma ExpiryHonoursTheRequest(cfg: Config, s: State, id: Id, acts: seq<Action>, batch: seq<Notice>)
    requires Safe(s) && Enabled(cfg, s, Commit(id)) && Legal(cfg, Next(cfg, s, Commit(id)), acts)
    requires Enabled(cfg, Exec(cfg, Next(cfg, s, Commit(id)), acts), ExpireLeases(batch))
    requires IsLive(Exec(cfg, Next(cfg, s, Commit(id)), acts).rows, id)
    ensures var before := Exec(cfg, Next(cfg, s, Commit(id)), acts);
            !IsLive(Next(cfg, before, ExpireLeases(batch)).rows, id) <==>
              (before.rows[id].state.Active? || before.rows[id].state.Pending?)
              && s.pc.req.lease.Some? && s.pc.req.lease.value > 0
              && s.now + s.pc.req.lease.value <= before.now
  {
    ReservationsStayAsAskedFor(cfg, s, id, acts);
  }

  /** The purge deletes exactly the released rows whose last change is as long ago as the retention time. */
  lemma PurgeIsExact(cfg: Config, s: State)
    requires Enabled(cfg, s, PurgeReleased)
    ensures var u := Next(cfg, s, PurgeReleased).rows;
            forall id :: id in s.rows ==>
              (id !in u <==> s.rows[id].state.Released? && s.rows[id].updatedAt + cfg.ttl <= s.now)
              && (id in u ==> u[id] == s.rows[id])
  {
  }
}
