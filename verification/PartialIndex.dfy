/** The partial unique index is never tripped, whatever table it admits at the start. Several released rows may
    share a port then, and `update_state` writes without a guard; what saves it is that it is only ever asked to
    write a row that was live and pending when its request got it, and that no other request got a row at the
    same port. */
module PartialIndex {
  import opened Wrappers
  import opened Allocation
  import opened Store
  import opened Protocol
  import opened PortSafety

  /** What the partial unique index enforces: one live row per port. */
  ghost predicate OneLiveRowPerPort(t: Table) {
    forall i, j :: IsLive(t, i) && IsLive(t, j) && t[i].port == t[j].port ==> i == j
  }

  /** `update_state` is under way for row `id` or still to come. */
  predicate HandedOut(s: State, id: Id) {
    id in s.awaited || (s.pc.Updating? && s.pc.id == id)
  }

  ghost predicate AloneAtItsPort(s: State, id: Id)
    requires id in s.rows
  {
    forall j :: j in s.rows && j != id && s.rows[j].port == s.rows[id].port ==>
      s.rows[j].state.Released? && !HandedOut(s, j)
  }

  ghost predicate Invariant(s: State) {
    && s.rows.Keys <= s.issued
    && OneLiveRowPerPort(s.rows)
    && ChoiceStillFree(s)
    && (forall id :: HandedOut(s, id) ==> id in s.issued)
    && (forall id :: id in s.rows && HandedOut(s, id) ==> AloneAtItsPort(s, id))
  }

  // ---------------------------------------------------------------- one statement

  lemma CommitKeepsLive(t: Table, id: Id, row: Row)
    requires OneLiveRowPerPort(t) && id !in t && row.port !in LivePorts(t)
    ensures var r := ReserveTx(t, id, row);
            && r.Ok? && OneLiveRowPerPort(r.value) && r.value.Keys <= t.Keys + {id} && id in r.value
            && (forall i :: i in r.value && i != id ==> i in t && r.value[i] == t[i])
            && (forall i :: i in r.value && r.value[i].port == row.port ==> i == id)
  {
    var cleared := map i | i in t && !(t[i].port == row.port && t[i].state.Released?) :: t[i];
    forall i | i in cleared ensures t[i].port != row.port {
      assert t[i].state.Released? || t[i].port in LivePorts(t);
    }
    var u := cleared[id := row];
    forall i, j | IsLive(u, i) && IsLive(u, j) && u[i].port == u[j].port ensures i == j {
      assert i != id ==> IsLive(t, i);
      assert j != id ==> IsLive(t, j);
    }
  }

  lemma WriteKeepsLive(t: Table, id: Id, state: RowState, now: nat)
    requires OneLiveRowPerPort(t)
    requires id in t && !state.Released? ==>
               forall j :: j in t && j != id && t[j].port == t[id].port ==> t[j].state.Released?
    ensures SetState(t, id, state, now).Ok? && OneLiveRowPerPort(SetState(t, id, state, now).value)
    ensures SetState(t, id, state, now).value.Keys == t.Keys
  {
    if id in t && !state.Released? {
      assert LiveAt(t, t[id].port) - {id} == {};
    }
    var u := SetState(t, id, state, now).value;
    forall i, j | IsLive(u, i) && IsLive(u, j) && u[i].port == u[j].port ensures i == j {
      assert i != id ==> IsLive(t, i);
      assert j != id ==> IsLive(t, j);
    }
  }

  lemma NothingTrips(cfg: Config, s: State, a: Action)
    requires Invariant(s) && Enabled(cfg, s, a)
    ensures !Trips(s, a)
  {
    if a.Commit? {
      CommitKeepsLive(s.rows, a.id, NewRow(s.pc.req, s.pc.port, s.now));
    } else if a.WriteUpdate? {
      assert HandedOut(s, s.pc.id);
      WriteKeepsLive(s.rows, s.pc.id, s.pc.newState, s.now);
    } else if a.WriteRelease? {
      WriteKeepsLive(s.rows, s.pc.id, Released, s.now);
    }
  }

  // ---------------------------------------------------------------- one step

  lemma CommitStep(cfg: Config, s: State, id: Id)
    requires Invariant(s) && Enabled(cfg, s, Commit(id))
    ensures Invariant(Next(cfg, s, Commit(id)))
  {
    CommitKeepsLive(s.rows, id, NewRow(s.pc.req, s.pc.port, s.now));
    var s' := Next(cfg, s, Commit(id));
    forall i | i in s'.rows && HandedOut(s', i) ensures AloneAtItsPort(s', i) {
      assert HandedOut(s, i) && AloneAtItsPort(s, i);
    }
  }

  /** Only states and timestamps of rows have changed, and rows may be gone. */
  ghost predicate Descends(t: Table, u: Table) {
    forall i :: i in u ==> i in t && u[i].port == t[i].port && (t[i].state.Released? ==> u[i].state.Released?)
  }

  /** Releases, expiry and purge. */
  lemma DescendingKeeps(s: State, s': State)
    requires Invariant(s) && Descends(s.rows, s'.rows) && s'.issued == s.issued
    requires forall i :: HandedOut(s', i) ==> HandedOut(s, i)
    requires s'.pc.Idle? || (s'.pc == s.pc && s'.holds == s.holds && s'.outside == s.outside)
    ensures Invariant(s')
  {
    forall p | p in LivePorts(s'.rows) ensures p in LivePorts(s.rows) {
      var i :| i in s'.rows && !s'.rows[i].state.Released? && s'.rows[i].port == p;
      assert IsLive(s.rows, i);
    }
    forall i, j | IsLive(s'.rows, i) && IsLive(s'.rows, j) && s'.rows[i].port == s'.rows[j].port ensures i == j {
      assert IsLive(s.rows, i) && IsLive(s.rows, j);
    }
    forall i | i in s'.rows && HandedOut(s', i) ensures AloneAtItsPort(s', i) {
      assert AloneAtItsPort(s, i);
    }
  }

  lemma UpdateStep(cfg: Config, s: State)
    requires Invariant(s) && Enabled(cfg, s, WriteUpdate)
    ensures Invariant(Next(cfg, s, WriteUpdate))
  {
    assert HandedOut(s, s.pc.id);
    WriteKeepsLive(s.rows, s.pc.id, s.pc.newState, s.now);
    var s' := Next(cfg, s, WriteUpdate);
    forall i | i in s'.rows && HandedOut(s', i) ensures AloneAtItsPort(s', i) {
      assert HandedOut(s, i) && AloneAtItsPort(s, i);
    }
  }

  /** A request gets a row that is live; so any other row at its port is released, and no request has it. */
  lemma HandingOutKeeps(s: State, id: Id)
    requires Invariant(s) && !s.pc.Updating? && id in s.rows
    ensures Invariant(AfterReserve(s, id))
  {
    var s' := AfterReserve(s, id);
    forall i | i in s'.rows && HandedOut(s', i) ensures AloneAtItsPort(s', i) {
      if i != id || HandedOut(s, id) {
        assert AloneAtItsPort(s, i);
      }
      forall j | j in s'.rows && j != i && s'.rows[j].port == s'.rows[i].port
        ensures s'.rows[j].state.Released? && !HandedOut(s', j)
      {
        assert HandedOut(s, j) ==> AloneAtItsPort(s, j);
      }
    }
  }

  lemma StepKeepsIndex(cfg: Config, s: State, a: Action)
    requires Invariant(s) && Enabled(cfg, s, a)
    ensures Invariant(Next(cfg, s, a))
  {
    match a
    case Commit(id) => CommitStep(cfg, s, id);
    case WriteUpdate => UpdateStep(cfg, s);
    case WriteRelease =>
      WriteKeepsLive(s.rows, s.pc.id, Released, s.now);
      DescendingKeeps(s, Next(cfg, s, a));
    case ExpireLeases(_) => DescendingKeeps(s, Next(cfg, s, a));
    case PurgeReleased => DescendingKeeps(s, Next(cfg, s, a));
    case FindDuplicate(_, found) =>
      if found.Some? {
        HandingOutKeeps(s, found.value);
      }
    case Fetch =>
      if s.pc.id in s.rows {
        HandingOutKeeps(s, s.pc.id);
      }
    case ReadForUpdate(id, _) => ReadingKeeps(cfg, s, a);
    case _ => OtherStepsKeep(cfg, s, a);
  }

  lemma OtherStepsKeep(cfg: Config, s: State, a: Action)
    requires Invariant(s) && Enabled(cfg, s, a)
    requires !(a.Commit? || a.WriteUpdate? || a.WriteRelease? || a.ExpireLeases? || a.PurgeReleased?)
    requires !(a.FindDuplicate? || a.Fetch? || a.ReadForUpdate?)
    ensures Invariant(Next(cfg, s, a))
  {
    var s' := Next(cfg, s, a);
    assert s'.rows == s.rows && s'.issued == s.issued && s'.awaited == s.awaited;
    assert forall i :: HandedOut(s', i) ==> HandedOut(s, i);
    forall i | i in s'.rows && HandedOut(s', i) ensures AloneAtItsPort(s', i) {
      assert AloneAtItsPort(s, i);
    }
  }

  lemma ReadingKeeps(cfg: Config, s: State, a: Action)
    requires Invariant(s) && Enabled(cfg, s, a) && a.ReadForUpdate?
    ensures Invariant(Next(cfg, s, a))
  {
    var s' := Next(cfg, s, a);
    assert forall i :: HandedOut(s', i) ==> HandedOut(s, i);
    forall i | i in s'.rows && HandedOut(s', i) ensures AloneAtItsPort(s', i) {
      assert AloneAtItsPort(s, i);
    }
  }

  // ---------------------------------------------------------------- every run

  lemma {:induction false} RunsKeepIndex(cfg: Config, s: State, acts: seq<Action>)
    requires Invariant(s) && Legal(cfg, s, acts)
    ensures Invariant(Exec(cfg, s, acts))
    decreases |acts|
  {
    if acts != [] {
      StepKeepsIndex(cfg, s, acts[0]);
      RunsKeepIndex(cfg, Next(cfg, s, acts[0]), acts[1..]);
    }
  }

  /** From any table the partial index admits, every interleaved run keeps one live row per port, and the next
      statement, whichever it is, violates no constraint. */
  lemma IndexIsNeverTripped(cfg: Config, s: State, acts: seq<Action>)
    requires Started(s) && OneLiveRowPerPort(s.rows) && Legal(cfg, s, acts)
    ensures OneLiveRowPerPort(Exec(cfg, s, acts).rows)
    ensures forall a :: Enabled(cfg, Exec(cfg, s, acts), a) ==> !Trips(Exec(cfg, s, acts), a)
  {
    RunsKeepIndex(cfg, s, acts);
    forall a | Enabled(cfg, Exec(cfg, s, acts), a) ensures !Trips(Exec(cfg, s, acts), a) {
      NothingTrips(cfg, Exec(cfg, s, acts), a);
    }
  }
}
