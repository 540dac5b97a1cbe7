/** Over every run, each port has at most one row, live or released; so no statement ever trips a
    uniqueness constraint. */
module PortSafety {
  import opened Wrappers
  import opened Allocation
  import opened Store
  import opened Protocol

  /** The port chosen by the reserve in progress is not live, although it was chosen several statements ago. */
  ghost predicate ChoiceStillFree(s: State) {
    match s.pc
    case Picking(_, taken) => LivePorts(s.rows) <= taken
    case Binding(_, port) => port !in LivePorts(s.rows)
    case Committing(_, port) => port !in LivePorts(s.rows) && port !in s.holds && port !in s.outside
    case _ => true
  }

  ghost predicate Safe(s: State) {
    && s.rows.Keys <= s.issued
    && OneRowPerPort(s.rows)
    && ChoiceStillFree(s)
  }

  /** The statement of `a` fails because of a primary key or the partial unique index. */
  ghost predicate Trips(s: State, a: Action) {
    match a
    case Commit(id) => s.pc.Committing? && ReserveTx(s.rows, id, NewRow(s.pc.req, s.pc.port, s.now)).Err?
    case WriteUpdate => s.pc.Updating? && SetState(s.rows, s.pc.id, s.pc.newState, s.now).Err?
    case WriteRelease => s.pc.Releasing? && SetState(s.rows, s.pc.id, Released, s.now).Err?
    case _ => false
  }

  // ---------------------------------------------------------------- one statement

  lemma CommitSucceeds(t: Table, id: Id, row: Row)
    requires OneRowPerPort(t) && id !in t && row.port !in LivePorts(t)
    ensures var r := ReserveTx(t, id, row);
            && r.Ok? && id in r.value && r.value[id] == row && OneRowPerPort(r.value)
            && r.value.Keys <= t.Keys + {id}
            && (forall i :: i in r.value && i != id ==> i in t && r.value[i] == t[i] && t[i].port != row.port)
            && (forall i :: i in t && t[i].port != row.port ==> i in r.value)
  {
    var cleared := map i | i in t && !(t[i].port == row.port && t[i].state.Released?) :: t[i];
    forall i | i in cleared ensures t[i].port != row.port {
      assert t[i].state.Released? || t[i].port in LivePorts(t);
    }
  }

  lemma WriteSucceeds(t: Table, id: Id, state: RowState, now: nat)
    requires OneRowPerPort(t)
    ensures SetState(t, id, state, now).Ok? && OneRowPerPort(SetState(t, id, state, now).value)
    ensures SetState(t, id, state, now).value.Keys == t.Keys
  {
    if id in t {
      assert LiveAt(t, t[id].port) - {id} == {};
    }
  }

  lemma SafeStatesDoNotTrip(cfg: Config, s: State, a: Action)
    requires Safe(s) && Enabled(cfg, s, a)
    ensures !Trips(s, a)
  {
    if a.Commit? {
      CommitSucceeds(s.rows, a.id, NewRow(s.pc.req, s.pc.port, s.now));
    } else if a.WriteUpdate? {
      WriteSucceeds(s.rows, s.pc.id, s.pc.newState, s.now);
    } else if a.WriteRelease? {
      WriteSucceeds(s.rows, s.pc.id, Released, s.now);
    }
  }

  lemma CleanupKeepsChoice(s: State, u: Table)
    requires ChoiceStillFree(s) && Shrinks(s.rows, u)
    ensures ChoiceStillFree(s.(rows := u))
  {
    ShrinkingFreesPorts(s.rows, u);
  }

  lemma StepKeepsSafe(cfg: Config, s: State, a: Action)
    requires Safe(s) && Enabled(cfg, s, a)
    ensures Safe(Next(cfg, s, a))
  {
    match a
    case Commit(id) =>
      CommitSucceeds(s.rows, id, NewRow(s.pc.req, s.pc.port, s.now));
    case WriteUpdate =>
      WriteSucceeds(s.rows, s.pc.id, s.pc.newState, s.now);
    case WriteRelease =>
      WriteSucceeds(s.rows, s.pc.id, Released, s.now);
    case ExpireLeases(_) =>
      CleanupShrinks(s.rows, s.now, cfg.ttl);
      CleanupKeepsChoice(s, Expire(s.rows, s.now));
    case PurgeReleased =>
      CleanupShrinks(s.rows, s.now, cfg.ttl);
      CleanupKeepsChoice(s, Purge(s.rows, s.now, cfg.ttl));
    case _ =>
  }

  // ---------------------------------------------------------------- every run

  lemma {:induction false} RunsStaySafe(cfg: Config, s: State, acts: seq<Action>)
    requires Safe(s) && Legal(cfg, s, acts)
    ensures Safe(Exec(cfg, s, acts))
    decreases |acts|
  {
    if acts != [] {
      StepKeepsSafe(cfg, s, acts[0]);
      RunsStaySafe(cfg, Next(cfg, s, acts[0]), acts[1..]);
    }
  }

  /** From any table the original UNIQUE column admits, every interleaved run keeps one row per port, and
      the next statement, whichever it is, does not trip a constraint. */
  lemma PortsStayUnique(cfg: Config, s: State, acts: seq<Action>)
    requires Started(s) && OneRowPerPort(s.rows) && Legal(cfg, s, acts)
    ensures OneRowPerPort(Exec(cfg, s, acts).rows)
    ensures forall a :: Enabled(cfg, Exec(cfg, s, acts), a) ==> !Trips(Exec(cfg, s, acts), a)
  {
    RunsStaySafe(cfg, s, acts);
    forall a | Enabled(cfg, Exec(cfg, s, acts), a) ensures !Trips(Exec(cfg, s, acts), a) {
      SafeStatesDoNotTrip(cfg, Exec(cfg, s, acts), a);
    }
  }

  lemma OneStep(cfg: Config, s: State, a: Action)
    requires Enabled(cfg, s, a)
    ensures Legal(cfg, s, [a]) && Exec(cfg, s, [a]) == Next(cfg, s, a)
  {
    assert [a][1..] == [];
  }

  lemma {:induction false} ExecAppends(cfg: Config, s: State, acts: seq<Action>, a: Action)
    requires Legal(cfg, s, acts) && Enabled(cfg, Exec(cfg, s, acts), a)
    ensures Legal(cfg, s, acts + [a])
    ensures Exec(cfg, s, acts + [a]) == Next(cfg, Exec(cfg, s, acts), a)
    decreases |acts|
  {
    if acts == [] {
      OneStep(cfg, s, a);
      assert acts + [a] == [a];
    } else {
      ExecAppends(cfg, Next(cfg, s, acts[0]), acts[1..], a);
      assert (acts + [a])[1..] == acts[1..] + [a];
    }
  }
}
