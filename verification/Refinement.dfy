/** The soft-deleted table behaves like a plain map from ports to their holders. Every statement of every
    interleaved run is invisible, claims one free port, or frees held ports; the claim of `reserve` takes
    effect at its commit. */
module Refinement {
  import opened Allocation
  import opened Store
  import opened Protocol
  import opened PortSafety

  datatype Holder = Holder(id: Id, owner: string)

  type Registry = map<Port, Holder>

  datatype RegistryStep = Skip | Claim(port: Port, holder: Holder) | Free(ports: set<Port>)

  /** A port can be claimed only while free, and freed only while held. */
  predicate Allowed(r: Registry, step: RegistryStep) {
    match step
    case Skip => true
    case Claim(port, _) => port !in r
    case Free(ports) => ports <= r.Keys
  }

  function Apply(r: Registry, step: RegistryStep): Registry {
    match step
    case Skip => r
    case Claim(port, holder) => r[port := holder]
    case Free(ports) => r - ports
  }

  predicate AllAllowed(r: Registry, steps: seq<RegistryStep>)
    decreases |steps|
  {
    steps == [] || (Allowed(r, steps[0]) && AllAllowed(Apply(r, steps[0]), steps[1..]))
  }

  function ApplyAll(r: Registry, steps: seq<RegistryStep>): Registry
    decreases |steps|
  {
    if steps == [] then r else ApplyAll(Apply(r, steps[0]), steps[1..])
  }

  /** The table stands for the registry: the entries of the registry are the live rows, port for port. */
  ghost predicate StandsFor(t: Table, r: Registry) {
    && (forall id :: IsLive(t, id) ==> t[id].port in r && r[t[id].port] == Holder(id, t[id].owner))
    && (forall p :: p in r ==> IsLive(t, r[p].id) && t[r[p].id].port == p)
  }

  function OverduePorts(t: Table, now: nat): set<Port> {
    set id | id in OverdueIds(t, now) :: t[id].port
  }

  /** What a statement does to the registry. */
  function Label(s: State, a: Action): RegistryStep {
    match a
    case Commit(id) => if s.pc.Committing? then Claim(s.pc.port, Holder(id, s.pc.req.owner)) else Skip
    case WriteUpdate => if s.pc.Updating? then WriteLabel(s.rows, s.pc.id, s.pc.newState) else Skip
    case WriteRelease => if s.pc.Releasing? then WriteLabel(s.rows, s.pc.id, Released) else Skip
    case ExpireLeases(_) => Free(OverduePorts(s.rows, s.now))
    case _ => Skip
  }

  function WriteLabel(t: Table, id: Id, newState: RowState): RegistryStep {
    if id !in t then Skip
    else if t[id].state.Released? && !newState.Released? then Claim(t[id].port, Holder(id, t[id].owner))
    else if !t[id].state.Released? && newState.Released? then Free({t[id].port})
    else Skip
  }

  ghost function Labels(cfg: Config, s: State, acts: seq<Action>): seq<RegistryStep>
    requires Legal(cfg, s, acts)
    decreases |acts|
  {
    if acts == [] then [] else [Label(s, acts[0])] + Labels(cfg, Next(cfg, s, acts[0]), acts[1..])
  }

  // ---------------------------------------------------------------- existence and uniqueness

  lemma {:induction false} EveryTableStandsFor(t: Table) returns (r: Registry)
    requires OneRowPerPort(t)
    ensures StandsFor(t, r)
    decreases |t|
  {
    if t == map[] {
      r := map[];
    } else {
      var id :| id in t;
      var rest := t - {id};
      r := EveryTableStandsFor(rest);
      assert t == rest[id := t[id]];
      if !t[id].state.Released? {
        forall p | p in r ensures p != t[id].port {
          assert IsLive(rest, r[p].id) && rest[r[p].id] == t[r[p].id];
        }
        r := r[t[id].port := Holder(id, t[id].owner)];
      }
    }
  }

  lemma RegistryIsUnique(t: Table, r: Registry, r': Registry)
    requires StandsFor(t, r) && StandsFor(t, r')
    ensures r == r'
  {
    assert forall p :: p in r ==> p in r' && r'[p] == r[p];
    assert forall p :: p in r' ==> p in r;
  }

  // ---------------------------------------------------------------- one statement, every run

  lemma WriteRefines(t: Table, r: Registry, id: Id, state: RowState, now: nat)
    requires OneRowPerPort(t) && StandsFor(t, r)
    ensures var u := SetState(t, id, state, now);
            var step := WriteLabel(t, id, state);
            u.Ok? && Allowed(r, step) && StandsFor(u.value, Apply(r, step))
  {
    WriteSucceeds(t, id, state, now);
  }

  lemma CommitRefines(t: Table, r: Registry, id: Id, row: Row)
    requires OneRowPerPort(t) && StandsFor(t, r)
    requires id !in t && row.port !in LivePorts(t) && !row.state.Released?
    ensures var u := ReserveTx(t, id, row);
            var step := Claim(row.port, Holder(id, row.owner));
            u.Ok? && Allowed(r, step) && StandsFor(u.value, Apply(r, step))
  {
    CommitSucceeds(t, id, row);
    var u := ReserveTx(t, id, row).value;
    assert row.port !in r;
    var r' := r[row.port := Holder(id, row.owner)];
    forall i | IsLive(u, i) ensures u[i].port in r' && r'[u[i].port] == Holder(i, u[i].owner) {
      assert i != id ==> IsLive(t, i);
    }
    forall p | p in r' ensures IsLive(u, r'[p].id) && u[r'[p].id].port == p {
      if p != row.port {
        assert IsLive(t, r[p].id) && t[r[p].id].port == p;
      }
    }
  }

  lemma ExpiryRefines(t: Table, r: Registry, now: nat)
    requires StandsFor(t, r)
    ensures Allowed(r, Free(OverduePorts(t, now)))
    ensures StandsFor(Expire(t, now), Apply(r, Free(OverduePorts(t, now))))
  {
    var u, ports := Expire(t, now), OverduePorts(t, now);
    forall p | p in ports ensures p in r {
      var id :| id in OverdueIds(t, now) && t[id].port == p;
      assert IsLive(t, id);
    }
    forall id | IsLive(u, id) ensures u[id].port in r - ports {
      assert IsLive(t, id);
      forall other | other in OverdueIds(t, now) ensures t[other].port != t[id].port {
        assert IsLive(t, other);
      }
    }
    forall p | p in r - ports ensures IsLive(u, r[p].id) && u[r[p].id].port == p {
      assert IsLive(t, r[p].id);
    }
  }

  lemma StatementRefines(cfg: Config, s: State, a: Action, r: Registry)
    requires Safe(s) && Enabled(cfg, s, a) && StandsFor(s.rows, r)
    ensures Allowed(r, Label(s, a))
    ensures StandsFor(Next(cfg, s, a).rows, Apply(r, Label(s, a)))
  {
    match a
    case Commit(id) => CommitRefines(s.rows, r, id, NewRow(s.pc.req, s.pc.port, s.now));
    case WriteUpdate => WriteRefines(s.rows, r, s.pc.id, s.pc.newState, s.now);
    case WriteRelease => WriteRefines(s.rows, r, s.pc.id, Released, s.now);
    case ExpireLeases(_) => ExpiryRefines(s.rows, r, s.now);
    case _ =>
  }

  /** Every interleaved run of the daemon is a run of the registry, statement by statement. */
  lemma {:induction false} RunsRefine(cfg: Config, s: State, acts: seq<Action>, r: Registry)
    requires Safe(s) && Legal(cfg, s, acts) && StandsFor(s.rows, r)
    ensures AllAllowed(r, Labels(cfg, s, acts))
    ensures StandsFor(Exec(cfg, s, acts).rows, ApplyAll(r, Labels(cfg, s, acts)))
    decreases |acts|
  {
    if acts != [] {
      var s' := Next(cfg, s, acts[0]);
      StatementRefines(cfg, s, acts[0], r);
      StepKeepsSafe(cfg, s, acts[0]);
      RunsRefine(cfg, s', acts[1..], Apply(r, Label(s, acts[0])));
      assert Labels(cfg, s, acts)[1..] == Labels(cfg, s', acts[1..]);
    }
  }
}
