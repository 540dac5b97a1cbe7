/** Whole broker calls: the runs in which nothing steps between a call's statements. The methods of
    module Daemon are proved to compute exactly these. */
module Calls {
  import opened Wrappers
  import opened Allocation
  import opened Store
  import opened Protocol
  import opened PortSafety

  /** The state right after the commit of a new reservation. */
  function Committed(s: State, req: Request, id: Id, port: Port): State
    requires ReserveTx(s.rows, id, NewRow(req, port, s.now)).Ok?
  {
    var row := NewRow(req, port, s.now);
    s.(rows := ReserveTx(s.rows, id, row).value, holds := s.holds + {port}, issued := s.issued + {id},
       log := s.log + [Event(id, req.owner, None, row.state)])
  }

  /** `reserve` up to and including its commit. `found` is the row of the duplicate check and `id` the new UUID. */
  function ReserveCall(cfg: Config, s: State, req: Request, found: Option<Id>, id: Id): State {
    if found.Some? then s
    else if OverLimit(cfg, s.rows, req.owner) then s
    else
      match Allocate(cfg.range, req.preferred, req.exactOnly, LivePorts(s.rows), Busy(s), "")
      case Err(_) => s
      case Ok(port) =>
        if ReserveTx(s.rows, id, NewRow(req, port, s.now)).Ok? then Committed(s, req, id, port) else s
  }

  /** The statements of that call, for the path it takes. */
  function ReserveStatements(cfg: Config, s: State, req: Request, found: Option<Id>, id: Id): seq<Action> {
    if found.Some? then [FindDuplicate(req, found)]
    else if OverLimit(cfg, s.rows, req.owner) then [FindDuplicate(req, None), CountOwner]
    else
      match Allocate(cfg.range, req.preferred, req.exactOnly, LivePorts(s.rows), Busy(s), "")
      case Err(_) => [FindDuplicate(req, None), CountOwner, SelectPorts, Pick]
      case Ok(_) => [FindDuplicate(req, None), CountOwner, SelectPorts, Pick, Bind, Commit(id), Fetch]
  }

  /** The steps of a `reserve` call. */
  predicate IsReserveStep(a: Action) {
    a.FindDuplicate? || a.CountOwner? || a.SelectPorts? || a.Pick? || a.Bind? || a.Commit? || a.Fetch?
  }

  lemma ReserveStepsOnly(cfg: Config, s: State, req: Request, found: Option<Id>, id: Id)
    ensures forall a <- ReserveStatements(cfg, s, req, found, id) :: IsReserveStep(a)
  {
  }

  /** What the caller of `reserve` does with the row it got, before it lets go of the broker. */
  function AfterCall(cfg: Config, s: State, req: Request, found: Option<Id>, id: Id): State {
    var s' := ReserveCall(cfg, s, req, found, id);
    if found.Some? then AfterReserve(s', found.value)
    else if id in s'.rows then AfterReserve(s', id)
    else s'
  }

  function ReleaseCall(s: State, id: Id): State {
    if id in s.rows && !s.rows[id].state.Released? then
      var row := s.rows[id];
      match SetState(s.rows, id, Released, s.now)
      case Ok(rows) => s.(rows := rows, holds := s.holds - {row.port},
                          log := s.log + [Event(id, row.owner, Some(row.state), Released)])
      case Err(_) => s
    else s
  }

  function UpdateCall(s: State, id: Id, newState: RowState): State {
    var reported := s.(awaited := s.awaited - multiset{id});
    if id in s.rows then
      match SetState(s.rows, id, newState, s.now)
      case Ok(rows) =>
        reported.(rows := rows, log := s.log + [Event(id, s.rows[id].owner, Some(s.rows[id].state), newState)])
      case Err(_) => reported
    else reported
  }

  // ---------------------------------------------------------------- nobody waits for more than the locks say

  lemma {:induction false} SomeBatch(t: Table, now: nat, ids: set<Id>) returns (batch: seq<Notice>)
    requires ids <= OverdueIds(t, now)
    ensures forall n <- batch :: n.id in ids && t[n.id].port == n.port
    ensures forall id <- ids :: Notice(id, t[id].port) in batch
    ensures forall i, j :: 0 <= i < j < |batch| ==> batch[i].id != batch[j].id
    decreases |ids|
  {
    if ids == {} {
      batch := [];
    } else {
      var id :| id in ids;
      var rest := SomeBatch(t, now, ids - {id});
      forall i | 0 <= i < |rest| ensures rest[i].id != id {
        assert rest[i] in rest;
      }
      batch := [Notice(id, t[id].port)] + rest;
    }
  }

  /** The lease task may step between any two statements of the broker; and so may the clock, a failing purge, and
      other programs, which can bind any port that the daemon has not bound. */
  lemma LeaseTaskIsNeverBlocked(cfg: Config, s: State, now: nat, ports: set<Port>)
    ensures s.lease.Waiting? ==> exists batch :: Enabled(cfg, s, ExpireLeases(batch))
    ensures s.lease.Sending? ==> Enabled(cfg, s, SendBatch)
    ensures s.lease.Purging? ==> Enabled(cfg, s, PurgeReleased) && Enabled(cfg, s, PurgeFailure)
    ensures Enabled(cfg, s, SetClock(now)) && (ports !! Bound(s) ==> Enabled(cfg, s, SetOutside(ports)))
  {
    if s.lease.Waiting? {
      var batch := SomeBatch(s.rows, s.now, OverdueIds(s.rows, s.now));
      assert Enabled(cfg, s, ExpireLeases(batch));
    }
  }

  /** An idle broker takes any call, and any notice. */
  lemma IdleBrokerTakesAnyCall(cfg: Config, s: State, req: Request, id: Id, state: RowState, port: Port)
    requires s.pc.Idle?
    ensures exists found :: Enabled(cfg, s, FindDuplicate(req, found))
    ensures exists found :: Enabled(cfg, s, ReadPortForRelease(port, found))
    ensures Enabled(cfg, s, ReadForRelease(id))
    ensures id in s.awaited && state in {Active, Failed} ==> Enabled(cfg, s, ReadForUpdate(id, state))
    ensures s.channel != [] && s.reporting.None? ==> Enabled(cfg, s, HandleNotice)
  {
    var found := SomeFound(Duplicates(s.rows, req.owner, req.host, req.targetPort));
    assert Enabled(cfg, s, FindDuplicate(req, found));
    var at := SomeFound(LiveAt(s.rows, port));
    assert Enabled(cfg, s, ReadPortForRelease(port, at));
  }

  lemma SomeFound(candidates: set<Id>) returns (found: Option<Id>)
    ensures Found(candidates, found)
  {
    found := None;
    if candidates != {} {
      var i :| i in candidates;
      found := Some(i);
    }
  }

  /** A broker call, once begun, can always take its next statement, and any of them may fail; and a report needs
      nobody. */
  lemma BrokerIsNeverBlocked(cfg: Config, s: State, id: Id)
    ensures s.reporting.Some? ==> Enabled(cfg, s, EmitExpired)
    ensures !s.pc.Idle? ==> Enabled(cfg, s, BrokerDbFailure)
    ensures match s.pc
            case Idle => true
            case Counting(_) => Enabled(cfg, s, CountOwner)
            case Selecting(_) => Enabled(cfg, s, SelectPorts)
            case Picking(_, _) => Enabled(cfg, s, Pick)
            case Binding(_, _) => Enabled(cfg, s, Bind)
            case Committing(_, _) => id !in s.issued ==> Enabled(cfg, s, Commit(id))
            case Fetching(_) => Enabled(cfg, s, Fetch)
            case Updating(_, _, _, _) => Enabled(cfg, s, WriteUpdate)
            case Releasing(_, _) => Enabled(cfg, s, WriteRelease)
  {
  }

  // ---------------------------------------------------------------- calls are runs

  lemma Prepend(cfg: Config, s: State, a: Action, rest: seq<Action>)
    requires Enabled(cfg, s, a) && Legal(cfg, Next(cfg, s, a), rest)
    ensures Legal(cfg, s, [a] + rest) && Exec(cfg, s, [a] + rest) == Exec(cfg, Next(cfg, s, a), rest)
  {
    assert ([a] + rest)[1..] == rest;
  }

  lemma {:induction false} LegalConcat(cfg: Config, s: State, first: seq<Action>, second: seq<Action>)
    requires Legal(cfg, s, first) && Legal(cfg, Exec(cfg, s, first), second)
    ensures Legal(cfg, s, first + second)
    ensures Exec(cfg, s, first + second) == Exec(cfg, Exec(cfg, s, first), second)
    decreases |first|
  {
    if first == [] {
      assert first + second == second;
    } else {
      LegalConcat(cfg, Next(cfg, s, first[0]), first[1..], second);
      assert (first + second)[1..] == first[1..] + second;
    }
  }

  lemma SelectionRun(cfg: Config, s: State, req: Request)
    requires s.pc.Idle? && Duplicates(s.rows, req.owner, req.host, req.targetPort) == {}
    ensures Legal(cfg, s, [FindDuplicate(req, None)])
    ensures Exec(cfg, s, [FindDuplicate(req, None)]) == s.(pc := Counting(req))
    ensures var acts := [FindDuplicate(req, None), CountOwner];
            Legal(cfg, s, acts)
            && Exec(cfg, s, acts) == if OverLimit(cfg, s.rows, req.owner) then s else s.(pc := Selecting(req))
  {
    OneStep(cfg, s, FindDuplicate(req, None));
    OneStep(cfg, s.(pc := Counting(req)), CountOwner);
    Prepend(cfg, s, FindDuplicate(req, None), [CountOwner]);
    assert [FindDuplicate(req, None)] + [CountOwner] == [FindDuplicate(req, None), CountOwner];
  }

  lemma PickRun(cfg: Config, s: State, req: Request)
    requires s.pc == Selecting(req)
    ensures var acts := [SelectPorts, Pick];
            Legal(cfg, s, acts)
            && Exec(cfg, s, acts) ==
               match Allocate(cfg.range, req.preferred, req.exactOnly, LivePorts(s.rows), Busy(s), "")
               case Ok(port) => s.(pc := Binding(req, port))
               case Err(_) => s.(pc := Idle)
  {
    OneStep(cfg, s.(pc := Picking(req, LivePorts(s.rows))), Pick);
    Prepend(cfg, s, SelectPorts, [Pick]);
    assert [SelectPorts] + [Pick] == [SelectPorts, Pick];
  }

  lemma CommitRun(cfg: Config, s: State, req: Request, port: Port, id: Id)
    requires s.pc == Binding(req, port) && port !in Busy(s) && id !in s.issued
    requires ReserveTx(s.rows, id, NewRow(req, port, s.now)).Ok?
    ensures var acts := [Bind, Commit(id), Fetch];
            Legal(cfg, s, acts) && Exec(cfg, s, acts) == AfterReserve(Committed(s, req, id, port), id)
  {
    var s1 := s.(pc := Committing(req, port));
    var s2 := Committed(s, req, id, port).(pc := Fetching(id));
    OneStep(cfg, s2, Fetch);
    Prepend(cfg, s1, Commit(id), [Fetch]);
    Prepend(cfg, s, Bind, [Commit(id)] + [Fetch]);
    assert [Bind] + ([Commit(id)] + [Fetch]) == [Bind, Commit(id), Fetch];
  }

  lemma ChoiceRun(cfg: Config, s: State, req: Request)
    requires s.pc.Idle? && Duplicates(s.rows, req.owner, req.host, req.targetPort) == {}
    requires !OverLimit(cfg, s.rows, req.owner)
    ensures var acts := [FindDuplicate(req, None), CountOwner, SelectPorts, Pick];
            Legal(cfg, s, acts)
            && Exec(cfg, s, acts) ==
               match Allocate(cfg.range, req.preferred, req.exactOnly, LivePorts(s.rows), Busy(s), "")
               case Ok(port) => s.(pc := Binding(req, port))
               case Err(_) => s
  {
    var first, second := [FindDuplicate(req, None), CountOwner], [SelectPorts, Pick];
    SelectionRun(cfg, s, req);
    PickRun(cfg, s.(pc := Selecting(req)), req);
    LegalConcat(cfg, s, first, second);
    assert first + second == [FindDuplicate(req, None), CountOwner, SelectPorts, Pick];
  }

  /** A `reserve` call that nothing interrupts is one of the interleaved runs. */
  lemma ReserveCallIsRun(cfg: Config, s: State, req: Request, found: Option<Id>, id: Id)
    requires Safe(s) && s.pc.Idle? && id !in s.issued
    requires Found(Duplicates(s.rows, req.owner, req.host, req.targetPort), found)
    ensures Legal(cfg, s, ReserveStatements(cfg, s, req, found, id))
    ensures Exec(cfg, s, ReserveStatements(cfg, s, req, found, id)) == AfterCall(cfg, s, req, found, id)
  {
    if found.Some? {
      OneStep(cfg, s, FindDuplicate(req, found));
    } else {
      SelectionRun(cfg, s, req);
      if !OverLimit(cfg, s.rows, req.owner) {
        ChoiceRun(cfg, s, req);
        var choice := Allocate(cfg.range, req.preferred, req.exactOnly, LivePorts(s.rows), Busy(s), "");
        if choice.Ok? {
          AllocatedIsFree(cfg.range, req.preferred, req.exactOnly, LivePorts(s.rows), Busy(s), "");
          var row := NewRow(req, choice.value, s.now);
          CommitSucceeds(s.rows, id, row);
          var s2 := s.(pc := Binding(req, choice.value));
          CommitRun(cfg, s2, req, choice.value, id);
          var first := [FindDuplicate(req, None), CountOwner, SelectPorts, Pick];
          LegalConcat(cfg, s, first, [Bind, Commit(id), Fetch]);
          assert first + [Bind, Commit(id), Fetch]
              == [FindDuplicate(req, None), CountOwner, SelectPorts, Pick, Bind, Commit(id), Fetch];
          assert Committed(s2, req, id, choice.value).(pc := Idle) == Committed(s, req, id, choice.value);
        }
      }
    }
  }

  /** An error before the commit leaves rows, listeners and events as they were; a success changes one port. */
  lemma ReserveCallEffect(cfg: Config, s: State, req: Request, id: Id)
    requires Safe(s) && id !in s.issued
    ensures var s' := ReserveCall(cfg, s, req, None, id);
            s' != s ==>
              exists port: Port :: ReserveTx(s.rows, id, NewRow(req, port, s.now)).Ok?
                && port !in LivePorts(s.rows) && port !in Busy(s) && s' == Committed(s, req, id, port)
  {
    AllocatedIsFree(cfg.range, req.preferred, req.exactOnly, LivePorts(s.rows), Busy(s), "");
  }

  lemma ReleaseCallIsRun(cfg: Config, s: State, id: Id)
    requires Safe(s) && s.pc.Idle?
    ensures var acts := if id in s.rows && !s.rows[id].state.Released? then [ReadForRelease(id), WriteRelease]
                        else [ReadForRelease(id)];
            Legal(cfg, s, acts) && Exec(cfg, s, acts) == ReleaseCall(s, id)
  {
    OneStep(cfg, s, ReadForRelease(id));
    if id in s.rows && !s.rows[id].state.Released? {
      OneStep(cfg, s.(pc := Releasing(id, s.rows[id])), WriteRelease);
      Prepend(cfg, s, ReadForRelease(id), [WriteRelease]);
      assert [ReadForRelease(id)] + [WriteRelease] == [ReadForRelease(id), WriteRelease];
      WriteSucceeds(s.rows, id, Released, s.now);
    }
  }

  lemma UpdateCallIsRun(cfg: Config, s: State, id: Id, newState: RowState)
    requires Safe(s) && s.pc.Idle? && id in s.awaited && (newState.Active? || newState.Failed?)
    ensures var acts := if id in s.rows then [ReadForUpdate(id, newState), WriteUpdate]
                        else [ReadForUpdate(id, newState)];
            Legal(cfg, s, acts) && Exec(cfg, s, acts) == UpdateCall(s, id, newState)
  {
    OneStep(cfg, s, ReadForUpdate(id, newState));
    if id in s.rows {
      OneStep(cfg, Next(cfg, s, ReadForUpdate(id, newState)), WriteUpdate);
      Prepend(cfg, s, ReadForUpdate(id, newState), [WriteUpdate]);
      assert [ReadForUpdate(id, newState)] + [WriteUpdate] == [ReadForUpdate(id, newState), WriteUpdate];
      WriteSucceeds(s.rows, id, newState, s.now);
    }
  }
}
