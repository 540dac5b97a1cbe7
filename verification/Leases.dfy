/** Lease timing over whole runs, with a clock that does not go back: what cleanup may release, when it
    must, and how long a released row is kept. */
module Leases {
  import opened Wrappers
  import opened Allocation
  import opened Store
  import opened Protocol
  import opened PortSafety

  /** The row carries the expiry its lease calls for, counted from its creation; a lease of zero is none. */
  predicate LeaseAgrees(r: Row) {
    r.expiresAt == if r.lease.Some? && r.lease.value > 0 then Some(r.createdAt + r.lease.value) else None
  }

  ghost predicate RowsAgree(t: Table, now: nat) {
    forall id :: id in t ==> LeaseAgrees(t[id]) && t[id].updatedAt <= now
  }

  ghost predicate TimesAgree(s: State) {
    RowsAgree(s.rows, s.now)
  }

  /** Row `id` of `t` is in `u`, at its port, and not stamped earlier. */
  predicate Keeps(t: Table, u: Table, id: Id) {
    id in t && id in u && u[id].port == t[id].port && t[id].updatedAt <= u[id].updatedAt
  }

  ghost predicate Monotone(s: State, a: Action) {
    a.SetClock? ==> s.now <= a.now
  }

  ghost predicate MonotoneRun(cfg: Config, s: State, acts: seq<Action>)
    requires Legal(cfg, s, acts)
    decreases |acts|
  {
    acts == [] || (Monotone(s, acts[0]) && MonotoneRun(cfg, Next(cfg, s, acts[0]), acts[1..]))
  }

  // ---------------------------------------------------------------- one step

  lemma CommitKeepsTimes(t: Table, id: Id, row: Row, now: nat)
    requires OneRowPerPort(t) && RowsAgree(t, now)
    requires id !in t && row.port !in LivePorts(t) && LeaseAgrees(row) && row.updatedAt <= now
    ensures ReserveTx(t, id, row).Ok? && RowsAgree(ReserveTx(t, id, row).value, now)
    ensures var u := ReserveTx(t, id, row).value;
            forall i :: i in t ==> if t[i].port == row.port then i !in u else Keeps(t, u, i)
  {
    CommitSucceeds(t, id, row);
  }

  lemma WriteKeepsTimes(t: Table, id: Id, state: RowState, now: nat)
    requires OneRowPerPort(t) && RowsAgree(t, now)
    ensures SetState(t, id, state, now).Ok? && RowsAgree(SetState(t, id, state, now).value, now)
    ensures forall i :: i in t ==> Keeps(t, SetState(t, id, state, now).value, i)
  {
    WriteSucceeds(t, id, state, now);
  }

  lemma CleanupKeepsTimes(t: Table, now: nat, ttl: nat, id: Id)
    requires RowsAgree(t, now) && id in t
    ensures Keeps(t, Expire(t, now), id)
    ensures Stale(t[id], now, ttl) || Keeps(t, Purge(t, now, ttl), id)
  {
  }

  lemma StepKeepsTimes(cfg: Config, s: State, a: Action)
    requires Safe(s) && TimesAgree(s) && Enabled(cfg, s, a) && Monotone(s, a)
    ensures TimesAgree(Next(cfg, s, a)) && s.now <= Next(cfg, s, a).now
  {
    match a
    case Commit(id) => CommitKeepsTimes(s.rows, id, NewRow(s.pc.req, s.pc.port, s.now), s.now);
    case WriteUpdate => WriteKeepsTimes(s.rows, s.pc.id, s.pc.newState, s.now);
    case WriteRelease => WriteKeepsTimes(s.rows, s.pc.id, Released, s.now);
    case _ =>
  }

  /** A reservation is committed at the port of row `id`. */
  ghost predicate TakesPort(s: State, a: Action, port: Port) {
    a.Commit? && s.pc.Committing? && s.pc.port == port
  }

  lemma StepKeepsRow(cfg: Config, s: State, a: Action, id: Id)
    requires Safe(s) && TimesAgree(s) && Enabled(cfg, s, a) && Monotone(s, a) && id in s.rows
    ensures Keeps(s.rows, Next(cfg, s, a).rows, id)
            || (id !in Next(cfg, s, a).rows
                && (TakesPort(s, a, s.rows[id].port) || (a.PurgeReleased? && s.rows[id].updatedAt + cfg.ttl <= s.now)))
  {
    match a
    case Commit(new_) => CommitKeepsTimes(s.rows, new_, NewRow(s.pc.req, s.pc.port, s.now), s.now);
    case WriteUpdate => WriteKeepsTimes(s.rows, s.pc.id, s.pc.newState, s.now);
    case WriteRelease => WriteKeepsTimes(s.rows, s.pc.id, Released, s.now);
    case ExpireLeases(_) => CleanupKeepsTimes(s.rows, s.now, cfg.ttl, id);
    case PurgeReleased => CleanupKeepsTimes(s.rows, s.now, cfg.ttl, id);
    case _ =>
  }

  // ---------------------------------------------------------------- every run

  lemma {:induction false} RunsKeepTimes(cfg: Config, s: State, acts: seq<Action>)
    requires Safe(s) && TimesAgree(s) && Legal(cfg, s, acts) && MonotoneRun(cfg, s, acts)
    ensures TimesAgree(Exec(cfg, s, acts)) && s.now <= Exec(cfg, s, acts).now
    decreases |acts|
  {
    if acts != [] {
      StepKeepsTimes(cfg, s, acts[0]);
      StepKeepsSafe(cfg, s, acts[0]);
      RunsKeepTimes(cfg, Next(cfg, s, acts[0]), acts[1..]);
    }
  }

  /** Whatever has happened before, an expiry step releases a row if and only if it is active or pending and
      carries a positive lease that has run out since its creation. So it spares failed rows and rows
      without a lease, and leaves nothing overdue behind. */
  lemma ExpiryIsExact(cfg: Config, s: State, acts: seq<Action>, batch: seq<Notice>)
    requires Started(s) && OneRowPerPort(s.rows) && TimesAgree(s)
    requires Legal(cfg, s, acts) && MonotoneRun(cfg, s, acts)
    requires Enabled(cfg, Exec(cfg, s, acts), ExpireLeases(batch))
    ensures var before, after := Exec(cfg, s, acts), Next(cfg, Exec(cfg, s, acts), ExpireLeases(batch));
            && OverdueIds(after.rows, after.now) == {}
            && after.rows.Keys == before.rows.Keys
            && forall id :: id in before.rows ==>
                 var r := before.rows[id];
                 (IsLive(before.rows, id) && !IsLive(after.rows, id) <==>
                    (r.state.Active? || r.state.Pending?) && r.lease.Some? && r.lease.value > 0
                    && r.createdAt + r.lease.value <= before.now)
  {
    RunsKeepTimes(cfg, s, acts);
    var before := Exec(cfg, s, acts);
    forall id | id in before.rows ensures LeaseAgrees(before.rows[id]) {
    }
  }

  ghost predicate PortReused(cfg: Config, s: State, acts: seq<Action>, port: Port)
    requires Legal(cfg, s, acts)
    decreases |acts|
  {
    acts != [] && (TakesPort(s, acts[0], port) || PortReused(cfg, Next(cfg, s, acts[0]), acts[1..], port))
  }

  /** A row can only disappear once it has been left alone for the retention time, or when its port is
      reserved again. */
  lemma {:induction false} RowsAreRetained(cfg: Config, s: State, acts: seq<Action>, id: Id)
    requires Safe(s) && TimesAgree(s) && Legal(cfg, s, acts) && MonotoneRun(cfg, s, acts) && id in s.rows
    ensures id in Exec(cfg, s, acts).rows
            || s.rows[id].updatedAt + cfg.ttl <= Exec(cfg, s, acts).now
            || PortReused(cfg, s, acts, s.rows[id].port)
    decreases |acts|
  {
    if acts != [] {
      var s' := Next(cfg, s, acts[0]);
      StepKeepsRow(cfg, s, acts[0], id);
      StepKeepsTimes(cfg, s, acts[0]);
      StepKeepsSafe(cfg, s, acts[0]);
      if id in s'.rows {
        RowsAreRetained(cfg, s', acts[1..], id);
      } else {
        RunsKeepTimes(cfg, s', acts[1..]);
      }
    }
  }

  /** From the statement that releases a row, by request or by expiry, the row stays for the retention time
      counted from that instant, unless its port is reserved again. */
  lemma ReleasedRowsAreRetained(cfg: Config, s: State, a: Action, acts: seq<Action>, id: Id)
    requires Safe(s) && TimesAgree(s) && Enabled(cfg, s, a) && !a.SetClock?
    requires IsLive(s.rows, id) && id in Next(cfg, s, a).rows && !IsLive(Next(cfg, s, a).rows, id)
    requires Legal(cfg, Next(cfg, s, a), acts) && MonotoneRun(cfg, Next(cfg, s, a), acts)
    requires Exec(cfg, Next(cfg, s, a), acts).now < s.now + cfg.ttl
    requires !PortReused(cfg, Next(cfg, s, a), acts, s.rows[id].port)
    ensures id in Exec(cfg, Next(cfg, s, a), acts).rows
  {
    var s' := Next(cfg, s, a);
    StepKeepsTimes(cfg, s, a);
    StepKeepsSafe(cfg, s, a);
    StepKeepsRow(cfg, s, a, id);
    if a.Commit? {
      CommitSucceeds(s.rows, a.id, NewRow(s.pc.req, s.pc.port, s.now));
    }
    assert s'.rows[id].updatedAt == s.now;
    RowsAreRetained(cfg, s', acts, id);
  }
}
