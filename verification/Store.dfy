/** The reservations table and the statements that run on it. A row is soft-deleted: releasing it
    only changes its state, and it disappears when it is purged or when its port is reserved again. */
module Store {
  import opened Wrappers
  import opened Allocation
  import opened Like

  type Id = string

  datatype RowState = Pending | Active | Failed | Released

  /** Instants are seconds since the Unix epoch; module Timestamps relates them to the stored text. */
  datatype Row = Row(owner: string, requested: Option<Port>, port: Port, host: string, targetPort: TargetPort,
                     state: RowState, lease: Option<nat>, expiresAt: Option<nat>, createdAt: nat, updatedAt: nat)

  type Table = map<Id, Row>

  datatype DbError = PrimaryKeyViolation | UniqueIndexViolation

  datatype Notice = Notice(id: Id, port: Port)

  predicate IsLive(t: Table, id: Id) {
    id in t && !t[id].state.Released?
  }

  function LiveIds(t: Table): set<Id> {
    set id | id in t && !t[id].state.Released?
  }

  /** `SELECT assigned_port FROM reservations WHERE state != 'released'` */
  function LivePorts(t: Table): set<Port> {
    set id | id in t && !t[id].state.Released? :: t[id].port
  }

  predicate SameTarget(r: Row, owner: string, host: string, targetPort: Port) {
    r.owner == owner && r.host == host && r.targetPort == targetPort
  }

  /** The rows the duplicate check of `reserve` selects. */
  function Duplicates(t: Table, owner: string, host: string, targetPort: Port): set<Id> {
    set id | id in t && !t[id].state.Released? && SameTarget(t[id], owner, host, targetPort)
  }

  /** The rows whose owner matches a LIKE pattern, released rows excluded. */
  function Selected(t: Table, pattern: string): set<Id> {
    set id | id in t && !t[id].state.Released? && Matches(pattern, t[id].owner)
  }

  /** The live rows at a port. */
  function LiveAt(t: Table, port: Port): set<Id> {
    set id | id in t && !t[id].state.Released? && t[id].port == port
  }

  /** The transaction of `reserve`: delete the released rows at the port, then insert. */
  function ReserveTx(t: Table, id: Id, row: Row): Result<Table, DbError> {
    var cleared := map i | i in t && !(t[i].port == row.port && t[i].state.Released?) :: t[i];
    if id in cleared then Err(PrimaryKeyViolation)
    else if !row.state.Released? && LiveAt(cleared, row.port) != {} then Err(UniqueIndexViolation)
    else Ok(cleared[id := row])
  }

  /** `UPDATE reservations SET state = ? WHERE id = ?`, with the trigger that stamps `updated_at`. */
  function SetState(t: Table, id: Id, state: RowState, now: nat): Result<Table, DbError> {
    if id !in t then Ok(t)
    else if !state.Released? && LiveAt(t, t[id].port) - {id} != {} then Err(UniqueIndexViolation)
    else Ok(t[id := t[id].(state := state, updatedAt := now)])
  }

  predicate Overdue(r: Row, now: nat) {
    (r.state.Active? || r.state.Pending?) && r.expiresAt.Some? && r.expiresAt.value <= now
  }

  function OverdueIds(t: Table, now: nat): set<Id> {
    set id | id in t && Overdue(t[id], now)
  }

  /** The UPDATE of `expire_leases`. */
  function Expire(t: Table, now: nat): Table {
    map id | id in t :: if Overdue(t[id], now) then t[id].(state := Released, updatedAt := now) else t[id]
  }

  /** What its RETURNING clause reports: every row it released, once, in some order. */
  ghost predicate Reports(batch: seq<Notice>, t: Table, now: nat) {
    && (forall n <- batch :: n.id in OverdueIds(t, now) && t[n.id].port == n.port)
    && (forall id <- OverdueIds(t, now) :: Notice(id, t[id].port) in batch)
    && (forall i, j :: 0 <= i < j < |batch| ==> batch[i].id != batch[j].id)
  }

  predicate Stale(r: Row, now: nat, ttl: nat) {
    r.state.Released? && r.updatedAt + ttl <= now
  }

  /** The DELETE of `purge_released`. */
  function Purge(t: Table, now: nat, ttl: nat): Table {
    map id | id in t && !Stale(t[id], now, ttl) :: t[id]
  }

  // ---------------------------------------------------------------- table invariants

  /** What the original column-level UNIQUE on `assigned_port` says: one row per port, released or not. */
  ghost predicate OneRowPerPort(t: Table) {
    forall i, j :: i in t && j in t && t[i].port == t[j].port ==> i == j
  }

  /** The live rows of `u` are live rows of `t`, unchanged in everything but state and timestamps. */
  ghost predicate Shrinks(t: Table, u: Table) {
    forall id :: IsLive(u, id) ==>
      IsLive(t, id) && t[id].port == u[id].port && t[id].owner == u[id].owner
      && t[id].host == u[id].host && t[id].targetPort == u[id].targetPort
  }

  lemma CleanupShrinks(t: Table, now: nat, ttl: nat)
    ensures Shrinks(t, Expire(t, now)) && Shrinks(t, Purge(t, now, ttl))
  {
  }

  lemma ShrinkingFreesPorts(t: Table, u: Table)
    requires Shrinks(t, u)
    ensures LivePorts(u) <= LivePorts(t)
  {
    forall p | p in LivePorts(u) ensures p in LivePorts(t) {
      var id :| id in u && !u[id].state.Released? && u[id].port == p;
      assert IsLive(u, id);
    }
  }
}
