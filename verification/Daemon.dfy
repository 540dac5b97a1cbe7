/** The daemon's objects: the broker and the lease cleanup, working on one database, one notice queue and one
    event log. Each method is proved to move the state it touches exactly as the
    protocol's statements do, so what is proved of runs holds of these calls. */
module Daemon {
  import opened Wrappers
  import opened Allocation
  import opened Strings
  import opened Like
  import opened Owners
  import opened Store
  import opened Protocol
  import opened PortSafety
  import opened Calls
  import opened Quota

  datatype PortError =
    | AllocationFailed(reason: AllocationError)
    | OwnerLimitExceeded(prefix: string, limit: nat)
    | ReservationNotFound
    | DatabaseFailed(dbError: DbError)

  /** Rows of the table, each once, lower ports first. */
  ghost predicate InPortOrder(t: Table, ids: seq<Id>) {
    && (forall id <- ids :: id in t)
    && (forall i, j :: 0 <= i < j < |ids| ==> ids[i] != ids[j] && t[ids[i]].port <= t[ids[j]].port)
  }

  ghost predicate HasTarget(r: Row, req: Request) {
    r.owner == req.owner && r.host == req.host && r.targetPort == req.targetPort
  }

  /** What `reserve` is to answer over the table `t`, when the ports of `bound` cannot be bound: the live row with
      the owner and target of the request, if there is one (`found`); a refusal when the owner has as many rows as
      allowed; a new row made of what was asked for, at the port the request is to get; or the reason why not. */
  ghost predicate IsReserveAnswer(cfg: Config, t: Table, req: Request, bound: set<Port>, now: nat,
                                  found: Option<Id>, id: Id, r: Result<(Id, Row), PortError>) {
    match found
    case Some(i) => IsLive(t, i) && HasTarget(t[i], req) && r == Ok((i, t[i]))
    case None =>
      && (forall i :: IsLive(t, i) ==> !HasTarget(t[i], req))
      && (if |LiveStarting(t, GroupText(req.owner))| >= cfg.maxPerOwner then
            r == Err(OwnerLimitExceeded(GroupText(req.owner), cfg.maxPerOwner))
          else
            match r
            case Ok((i, row)) =>
              i == id && IsRowAskedFor(row, req, now)
              && IsServed(cfg.range, req.preferred, req.exactOnly, LivePorts(t) + bound, row.port)
            case Err(e) =>
              e.AllocationFailed?
              && exists holder :: IsHolder(t, req.preferred, holder)
                   && IsRefused(cfg.range, req.preferred, req.exactOnly, LivePorts(t), bound, holder, e.reason))
  }

  /** Every column of a new row but its port. */
  ghost predicate IsRowAskedFor(row: Row, req: Request, now: nat) {
    && row.owner == req.owner && row.requested == req.preferred
    && row.host == req.host && row.targetPort == req.targetPort
    && row.state == (if StartsWith(req.owner, "host:") then Active else Pending)
    && row.lease == req.lease
    && row.expiresAt == (if req.lease.Some? && req.lease.value > 0 then Some(now + req.lease.value) else None)
    && row.createdAt == now && row.updatedAt == now
  }

  /** The owner of the live row at the preferred port, if there is one. */
  ghost predicate IsHolder(t: Table, preferred: Option<Port>, holder: string) {
    preferred.Some? && preferred.value in LivePorts(t) ==>
      exists i :: i in LiveAt(t, preferred.value) && t[i].owner == holder
  }

  class Database {
    var rows: Table
    var now: nat

    constructor (rows: Table, now: nat)
      ensures this.rows == rows && this.now == now
    {
      this.rows, this.now := rows, now;
    }
  }

  class EventLog {
    var events: seq<Event>

    constructor ()
      ensures events == []
    {
      events := [];
    }

    method Send(e: Event)
      modifies this
      ensures events == old(events) + [e]
    {
      events := events + [e];
    }
  }

  class NoticeQueue {
    var notices: seq<Notice>

    constructor ()
      ensures notices == []
    {
      notices := [];
    }
  }

  class Broker {
    const db: Database
    const log: EventLog
    const cfg: Config
    var holdListeners: set<Port>

    constructor (db: Database, log: EventLog, cfg: Config)
      ensures this.db == db && this.log == log && this.cfg == cfg && holdListeners == {}
    {
      this.db, this.log, this.cfg := db, log, cfg;
      holdListeners := {};
    }

    /** The state `s` of the protocol shows what these objects hold, between two broker calls. */
    ghost predicate Shows(s: State)
      reads this, db, log
    {
      s.pc.Idle? && s.rows == db.rows && s.now == db.now && s.holds == holdListeners && s.log == log.events
    }

    /** Reserve a port. `id` is the new UUID and `outside` are the ports other programs have bound. */
    method Reserve(req: Request, id: Id, outside: set<Port>, ghost s: State)
      returns (r: Result<(Id, Row), PortError>, ghost found: Option<Id>)
      requires Shows(s) && Safe(s) && s.outside == outside && id !in s.issued
      modifies this, db`rows, log
      ensures Found(Duplicates(old(db.rows), req.owner, req.host, req.targetPort), found)
      ensures Shows(ReserveCall(cfg, s, req, found, id))
      ensures IsReserveAnswer(cfg, old(db.rows), req, outside + old(holdListeners), s.now, found, id, r)
      ensures r.Ok? ==> r.value.0 in db.rows && r.value.1 == db.rows[r.value.0]
      ensures r.Err? ==> unchanged(this) && unchanged(db) && unchanged(log)
    {
      found := None;
      LimitIsExact(cfg, db.rows, req.owner);
      // Duplicate check
      var existing := Duplicates(db.rows, req.owner, req.host, req.targetPort);
      if existing != {} {
        var first :| first in existing;
        found := Some(first);
        return Ok((first, db.rows[first])), found;
      }

      NoDuplicate(db.rows, req);

      // Owner limit
      var prefix := CountPrefix(req.owner);
      var count := |Selected(db.rows, PrefixPattern(prefix))|;
      if count % U32_MODULUS >= cfg.maxPerOwner {
        return Err(OwnerLimitExceeded(prefix, cfg.maxPerOwner)), found;
      }

      // Choose, bind and hold a port
      var choice := ChoosePort(req.preferred, req.exactOnly, outside);
      assert Busy(s) == outside + holdListeners;
      ChoiceIgnoresHolder(cfg, s, req, choice);
      if choice.Err? {
        return Err(AllocationFailed(choice.error)), found;
      }
      var port := choice.value;
      if port in outside + holdListeners {
        return Err(AllocationFailed(PortUnavailable(port, "bind failed (port in use by another process)"))), found;
      }

      r := Insert(req, port, id, s);
    }

    /** The second half of `reserve`, once the port is chosen and bound. */
    method Insert(req: Request, port: Port, id: Id, ghost s: State) returns (r: Result<(Id, Row), PortError>)
      requires Shows(s) && Safe(s) && id !in s.issued && port !in LivePorts(db.rows)
      modifies this, db`rows, log
      ensures ReserveTx(s.rows, id, NewRow(req, port, s.now)).Ok? && Shows(Committed(s, req, id, port).(pc := Idle))
      ensures id in db.rows && r == Ok((id, db.rows[id])) && db.rows[id] == NewRow(req, port, s.now)
    {
      // One transaction
      var row := NewRow(req, port, db.now);
      CommitSucceeds(db.rows, id, row);
      match ReserveTx(db.rows, id, row) {
        case Err(e) => return Err(DatabaseFailed(e));
        case Ok(rows) => db.rows := rows;
      }

      holdListeners := holdListeners + {port};
      log.Send(Event(id, req.owner, None, row.state));

      // Fetch the full record
      if id !in db.rows {
        return Err(ReservationNotFound);
      }
      return Ok((id, db.rows[id]));
    }

    /** `allocate_port`, with the query that names the holder of an exact port. */
    method ChoosePort(preferred: Option<Port>, exactOnly: bool, outside: set<Port>)
      returns (r: Result<Port, AllocationError>)
      ensures exists holder ::
                r == Allocate(cfg.range, preferred, exactOnly, LivePorts(db.rows), outside + holdListeners, holder)
      ensures r.Ok? ==>
                IsServed(cfg.range, preferred, exactOnly, LivePorts(db.rows) + (outside + holdListeners), r.value)
      ensures r.Err? ==>
                exists holder :: IsHolder(db.rows, preferred, holder)
                  && IsRefused(cfg.range, preferred, exactOnly, LivePorts(db.rows), outside + holdListeners, holder,
                               r.error)
    {
      var taken := LivePorts(db.rows);
      var holder := "unknown";
      if preferred.Some? && preferred.value in taken {
        assert exists i :: i in db.rows && !db.rows[i].state.Released? && db.rows[i].port == preferred.value;
        var i :| i in db.rows && !db.rows[i].state.Released? && db.rows[i].port == preferred.value;
        holder := db.rows[i].owner;
        assert i in LiveAt(db.rows, preferred.value);
      }
      r := AllocatePort(cfg.range, preferred, exactOnly, taken, outside + holdListeners, holder);
      AllocationMeetsExpectations(cfg.range, preferred, exactOnly, taken, outside + holdListeners, holder);
    }

    /** Release by id: idempotent on a released row. */
    method ReleaseById(id: Id, ghost s: State) returns (r: Result<(), PortError>)
      requires Shows(s) && Safe(s)
      modifies this, db`rows, log
      ensures Shows(ReleaseCall(s, id))
      ensures r == if id in old(db.rows) then Ok(()) else Err(ReservationNotFound)
    {
      if id !in db.rows {
        return Err(ReservationNotFound);
      }
      r := DoRelease(id, db.rows[id], s);
    }

    /** Release by port: only a live row is found there. */
    method ReleaseByPort(port: Port, ghost s: State) returns (r: Result<(), PortError>, ghost found: Option<Id>)
      requires Shows(s) && Safe(s)
      modifies this, db`rows, log
      ensures Found(LiveAt(old(db.rows), port), found)
      ensures found.Some? ==> r == Ok(()) && Shows(ReleaseCall(s, found.value)) && port !in LivePorts(db.rows)
      ensures found.None? ==> r == Err(ReservationNotFound) && Shows(s)
    {
      found := None;
      var at := LiveAt(db.rows, port);
      if at == {} {
        return Err(ReservationNotFound), found;
      }
      var id :| id in at;
      found := Some(id);
      r := DoRelease(id, db.rows[id], s);
      ReleasedPortIsFree(s, id);
    }

    method DoRelease(id: Id, reservation: Row, ghost s: State) returns (r: Result<(), PortError>)
      requires Shows(s) && Safe(s) && id in db.rows && db.rows[id] == reservation
      modifies this, db`rows, log
      ensures r == Ok(()) && Shows(ReleaseCall(s, id))
    {
      if reservation.state.Released? {
        return Ok(());
      }
      WriteSucceeds(db.rows, id, Released, db.now);
      match SetState(db.rows, id, Released, db.now) {
        case Err(e) => return Err(DatabaseFailed(e));
        case Ok(rows) => db.rows := rows;
      }
      holdListeners := holdListeners - {reservation.port};
      log.Send(Event(id, reservation.owner, Some(reservation.state), Released));
      return Ok(());
    }

    method UpdateState(id: Id, newState: RowState, ghost s: State) returns (r: Result<(), PortError>)
      requires Shows(s) && OneRowPerPort(s.rows)
      modifies db`rows, log
      ensures Shows(UpdateCall(s, id, newState))
      ensures r == if id in old(db.rows) then Ok(()) else Err(ReservationNotFound)
    {
      if id !in db.rows {
        return Err(ReservationNotFound);
      }
      var oldState, owner := db.rows[id].state, db.rows[id].owner;
      WriteSucceeds(db.rows, id, newState, db.now);
      match SetState(db.rows, id, newState, db.now) {
        case Err(e) => return Err(DatabaseFailed(e));
        case Ok(rows) => db.rows := rows;
      }
      log.Send(Event(id, owner, Some(oldState), newState));
      return Ok(());
    }

    method ReleaseHoldListener(port: Port)
      modifies this
      ensures holdListeners == old(holdListeners) - {port}
    {
      holdListeners := holdListeners - {port};
    }

    /** List reservations in the order of their ports: by owner prefix up to letter case, and by state, released
        rows only on request. */
    method List(ownerFilter: Option<string>, stateFilter: Option<RowState>) returns (ids: seq<Id>)
      ensures forall id :: id in ids <==>
                id in db.rows
                && (ownerFilter.Some? ==> PrefixUpToCase(ownerFilter.value, db.rows[id].owner))
                && (if stateFilter.Some? then db.rows[id].state == stateFilter.value else IsLive(db.rows, id))
      ensures InPortOrder(db.rows, ids)
    {
      var selected := Select(ownerFilter, stateFilter);
      ids := OrderByPort(selected);
    }

    method Select(ownerFilter: Option<string>, stateFilter: Option<RowState>) returns (ids: set<Id>)
      ensures forall id :: id in ids <==>
                id in db.rows
                && (ownerFilter.Some? ==> PrefixUpToCase(ownerFilter.value, db.rows[id].owner))
                && (if stateFilter.Some? then db.rows[id].state == stateFilter.value else IsLive(db.rows, id))
    {
      var rows := db.rows;
      if ownerFilter.Some? {
        var pattern := PrefixPattern(ownerFilter.value);
        forall id | id in rows
          ensures Matches(pattern, rows[id].owner) <==> PrefixUpToCase(ownerFilter.value, rows[id].owner)
        {
          PatternSelectsPrefixes(ownerFilter.value, rows[id].owner);
        }
        if stateFilter.Some? {
          ids := set id | id in rows && Matches(pattern, rows[id].owner) && rows[id].state == stateFilter.value;
        } else {
          ids := Selected(rows, pattern);
        }
      } else if stateFilter.Some? {
        ids := set id | id in rows && rows[id].state == stateFilter.value;
      } else {
        ids := LiveIds(rows);
      }
    }

    /** `ORDER BY assigned_port` */
    method OrderByPort(selected: set<Id>) returns (ids: seq<Id>)
      requires selected <= db.rows.Keys
      ensures forall id :: id in ids <==> id in selected
      ensures InPortOrder(db.rows, ids)
    {
      ids := [];
      var remaining := selected;
      while remaining != {}
        invariant remaining <= selected && forall id :: id in ids <==> id in selected - remaining
        invariant forall id, later :: id in ids && later in remaining ==> db.rows[id].port <= db.rows[later].port
        invariant InPortOrder(db.rows, ids)
        decreases remaining
      {
        var id := LowestPort(remaining);
        ids, remaining := ids + [id], remaining - {id};
      }
    }

    method LowestPort(ids: set<Id>) returns (lowest: Id)
      requires ids != {} && ids <= db.rows.Keys
      ensures lowest in ids && forall id <- ids :: db.rows[lowest].port <= db.rows[id].port
    {
      lowest :| lowest in ids;
      var rest := ids - {lowest};
      while rest != {}
        invariant rest <= ids && lowest in ids
        invariant forall id <- ids - rest :: db.rows[lowest].port <= db.rows[id].port
        decreases rest
      {
        var id :| id in rest;
        if db.rows[id].port < db.rows[lowest].port {
          lowest := id;
        }
        rest := rest - {id};
      }
    }
  }

  lemma NoDuplicate(t: Table, req: Request)
    requires Duplicates(t, req.owner, req.host, req.targetPort) == {}
    ensures forall i :: IsLive(t, i) ==> !HasTarget(t[i], req)
  {
    forall i | IsLive(t, i) ensures !HasTarget(t[i], req) {
      assert i !in Duplicates(t, req.owner, req.host, req.targetPort);
    }
  }

  /** Only the message of an allocation error depends on who holds the port. */
  lemma ChoiceIgnoresHolder(cfg: Config, s: State, req: Request, r: Result<Port, AllocationError>)
    requires exists holder :: r == Allocate(cfg.range, req.preferred, req.exactOnly, LivePorts(s.rows), Busy(s), holder)
    ensures var plain := Allocate(cfg.range, req.preferred, req.exactOnly, LivePorts(s.rows), Busy(s), "");
            if r.Ok? then plain == r else plain.Err?
  {
  }

  lemma ReleasedPortIsFree(s: State, id: Id)
    requires Safe(s) && IsLive(s.rows, id)
    ensures s.rows[id].port !in LivePorts(ReleaseCall(s, id).rows)
  {
    WriteSucceeds(s.rows, id, Released, s.now);
    var u := ReleaseCall(s, id).rows;
    assert forall i :: i in u && u[i].port == s.rows[id].port ==> i == id;
  }

  class LeaseCleanup {
    const db: Database
    const queue: NoticeQueue
    const ttl: nat

    constructor (db: Database, queue: NoticeQueue, ttl: nat)
      ensures this.db == db && this.queue == queue && this.ttl == ttl
    {
      this.db, this.queue, this.ttl := db, queue, ttl;
    }

    /** Release what is overdue and report each released row once. */
    method ExpireLeases() returns (batch: seq<Notice>)
      modifies db`rows
      ensures db.rows == Expire(old(db.rows), db.now)
      ensures Reports(batch, old(db.rows), db.now)
    {
      var before, remaining := db.rows, OverdueIds(db.rows, db.now);
      db.rows := Expire(before, db.now);
      batch := [];
      while remaining != {}
        invariant remaining <= OverdueIds(before, db.now)
        invariant forall n <- batch :: n.id in OverdueIds(before, db.now) - remaining && before[n.id].port == n.port
        invariant forall id <- OverdueIds(before, db.now) - remaining :: Notice(id, before[id].port) in batch
        invariant forall i, j :: 0 <= i < j < |batch| ==> batch[i].id != batch[j].id
        decreases remaining
      {
        var id :| id in remaining;
        forall i | 0 <= i < |batch| ensures batch[i].id != id {
          assert batch[i] in batch;
        }
        batch := batch + [Notice(id, before[id].port)];
        remaining := remaining - {id};
      }
    }

    method PurgeReleased() returns (count: nat)
      modifies db`rows
      ensures db.rows == Purge(old(db.rows), db.now, ttl)
      ensures |db.rows| + count == |old(db.rows)|
    {
      var stale := set id | id in db.rows && Stale(db.rows[id], db.now, ttl);
      assert Purge(db.rows, db.now, ttl) == db.rows - stale;
      assert db.rows.Keys == (db.rows.Keys - stale) + stale;
      assert (db.rows - stale).Keys == db.rows.Keys - stale;
      count := |stale|;
      db.rows := db.rows - stale;
    }

    /** One round of the cleanup loop is the run expire, send, purge. */
    method RunOnce(ghost cfg: Config, ghost s: State) returns (ghost acts: seq<Action>)
      requires s.rows == db.rows && s.now == db.now && s.channel == queue.notices && s.lease.Waiting? && cfg.ttl == ttl
      modifies db`rows, queue
      ensures Legal(cfg, s, acts)
      ensures var s' := Exec(cfg, s, acts);
              s'.rows == db.rows && s'.channel == queue.notices && s'.lease.Waiting?
              && s' == s.(rows := s'.rows, channel := s'.channel)
    {
      var batch := ExpireLeases();
      if batch != [] {
        queue.notices := queue.notices + batch;
      }
      var count := PurgeReleased();
      acts := CleanupRun(cfg, s, batch);
    }
  }

  lemma CleanupRun(cfg: Config, s: State, batch: seq<Notice>) returns (acts: seq<Action>)
    requires s.lease.Waiting? && Reports(batch, s.rows, s.now)
    ensures Legal(cfg, s, acts)
    ensures Exec(cfg, s, acts) ==
            s.(rows := Purge(Expire(s.rows, s.now), s.now, cfg.ttl), channel := s.channel + batch)
  {
    var s1 := Next(cfg, s, ExpireLeases(batch));
    if batch == [] {
      OneStep(cfg, s1, PurgeReleased);
      acts := [ExpireLeases(batch)] + [PurgeReleased];
      Prepend(cfg, s, ExpireLeases(batch), [PurgeReleased]);
    } else {
      var s2 := Next(cfg, s1, SendBatch);
      OneStep(cfg, s2, PurgeReleased);
      Prepend(cfg, s1, SendBatch, [PurgeReleased]);
      acts := [ExpireLeases(batch)] + ([SendBatch] + [PurgeReleased]);
      Prepend(cfg, s, ExpireLeases(batch), [SendBatch] + [PurgeReleased]);
    }
  }
}
