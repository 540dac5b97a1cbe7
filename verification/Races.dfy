/** Runs that show, from an empty table, where the quota and the hold listeners go wrong. They reach the states
    that the exact conditions in Quota and Holds speak of. */
module Races {
  import opened Wrappers
  import opened Allocation
  import opened Store
  import opened Protocol
  import opened Like
  import opened Owners
  import opened PortSafety
  import opened Calls
  import opened Quota
  import opened Holds

  /** A reservation of a free port by an owner without live rows. */
  lemma FreshReserve(cfg: Config, s: State, req: Request, port: Port, id: Id)
    requires Safe(s) && s.pc.Idle? && id !in s.issued && LiveIds(s.rows) == {} && cfg.maxPerOwner >= 1
    requires req.preferred == Some(port) && port !in Busy(s) && forall i :: i in s.rows ==> s.rows[i].port != port
    ensures Legal(cfg, s, ReserveStatements(cfg, s, req, None, id))
    ensures Exec(cfg, s, ReserveStatements(cfg, s, req, None, id))
         == AfterReserve(s.(rows := s.rows[id := NewRow(req, port, s.now)], holds := s.holds + {port},
                            issued := s.issued + {id},
                            log := s.log + [Event(id, req.owner, None, NewRow(req, port, s.now).state)]), id)
  {
    assert forall i :: i in s.rows ==> i in LiveIds(s.rows) || s.rows[i].state.Released?;
    assert Duplicates(s.rows, req.owner, req.host, req.targetPort) == {};
    assert Selected(s.rows, PrefixPattern(CountPrefix(req.owner))) == {};
    assert port !in LivePorts(s.rows);
    var row := NewRow(req, port, s.now);
    assert (map i | i in s.rows && !(s.rows[i].port == row.port && s.rows[i].state.Released?) :: s.rows[i]) == s.rows;
    CommitSucceeds(s.rows, id, row);
    ReserveCallIsRun(cfg, s, req, None, id);
  }

  function VmRequest(vm: string, service: string, port: Port): Request {
    Request("vm:" + vm + ":" + service, Some(port), "127.0.0.1", 80, None, true)
  }

  lemma OwnerOfVm(vm: string, service: string)
    requires ':' !in vm
    ensures var owner := "vm:" + vm + ":" + service;
            CountPrefix(owner) == "vm:" + vm && VmName(owner).Some? && !IsHost(owner)
  {
    var owner := "vm:" + vm + ":" + service;
    GroupOfVm(vm, service);
    assert owner[..3] == "vm:";
    DaemonReadersAgree(owner);
  }

  /** `s'` is reached from `s` with no port held or bound, no call in progress, and these rows. */
  ghost predicate Leads(cfg: Config, s: State, acts: seq<Action>, s': State, rows: Table) {
    && Legal(cfg, s, acts) && Exec(cfg, s, acts) == s' && Safe(s')
    && s'.pc.Idle? && s'.rows == rows && s'.holds == {} && s'.outside == {} && s'.now == s.now
  }

  lemma ReserveForVm(cfg: Config, s: State, vm: string, service: string, port: Port, id: Id)
    returns (acts: seq<Action>, s': State)
    requires Safe(s) && s.pc.Idle? && s.holds == {} && s.outside == {} && id !in s.issued && ':' !in vm
    requires LiveIds(s.rows) == {} && cfg.maxPerOwner >= 1 && forall i :: i in s.rows ==> s.rows[i].port != port
    ensures Leads(cfg, s, acts, s', s.rows[id := NewRow(VmRequest(vm, service, port), port, s.now)])
    ensures s'.issued == s.issued + {id} && s'.awaited == s.awaited + multiset{id}
    ensures s'.channel == s.channel && s'.reporting == s.reporting && s'.lease == s.lease
    ensures forall a <- acts :: IsReserveStep(a)
  {
    var req := VmRequest(vm, service, port);
    OwnerOfVm(vm, service);
    acts := ReserveStatements(cfg, s, req, None, id);
    ReserveStepsOnly(cfg, s, req, None, id);
    FreshReserve(cfg, s, req, port, id);
    RunsStaySafe(cfg, s, acts);
    s' := Exec(cfg, s, acts);
  }

  lemma ReleaseRow(cfg: Config, s: State, id: Id) returns (acts: seq<Action>, s': State)
    requires Safe(s) && s.pc.Idle? && s.holds == {} && s.outside == {} && IsLive(s.rows, id)
    ensures Leads(cfg, s, acts, s', s.rows[id := s.rows[id].(state := Released, updatedAt := s.now)])
    ensures s'.issued == s.issued && s'.awaited == s.awaited
  {
    acts := [ReadForRelease(id), WriteRelease];
    ReleaseCallIsRun(cfg, s, id);
    WriteSucceeds(s.rows, id, Released, s.now);
    RunsStaySafe(cfg, s, acts);
    s' := ReleaseCall(s, id);
  }

  lemma MarkActive(cfg: Config, s: State, id: Id) returns (acts: seq<Action>, s': State)
    requires Safe(s) && s.pc.Idle? && s.holds == {} && s.outside == {} && id in s.rows && id in s.awaited
    ensures Leads(cfg, s, acts, s', s.rows[id := s.rows[id].(state := Active, updatedAt := s.now)])
  {
    acts := [ReadForUpdate(id, Active), WriteUpdate];
    UpdateCallIsRun(cfg, s, id, Active);
    WriteSucceeds(s.rows, id, Active, s.now);
    RunsStaySafe(cfg, s, acts);
    s' := UpdateCall(s, id, Active);
  }

  lemma TwoInGroup(t: Table, g: string, i: Id, j: Id)
    requires i != j && t.Keys == {i, j} && IsLive(t, i) && IsLive(t, j)
    requires CountPrefix(t[i].owner) == g && CountPrefix(t[j].owner) == g
    ensures |Group(t, g)| == 2
  {
    assert Group(t, g) == {i, j};
  }

  /** A row that is released while its request has yet to report. */
  lemma ReserveAndRelease(cfg: Config, s: State, vm: string, service: string, p: Port, i: Id)
    returns (acts: seq<Action>, s': State)
    requires Started(s) && s.rows == map[] && s.outside == {} && cfg.maxPerOwner >= 1
    requires ':' !in vm && i !in s.issued
    ensures var row := NewRow(VmRequest(vm, service, p), p, s.now);
            Leads(cfg, s, acts, s', map[i := row.(state := Released, updatedAt := s.now)])
    ensures s'.issued == s.issued + {i} && i in s'.awaited
  {
    var acts1, s1 := ReserveForVm(cfg, s, vm, service, p, i);
    OwnerOfVm(vm, service);
    var acts2, s2 := ReleaseRow(cfg, s1, i);
    LegalConcat(cfg, s, acts1, acts2);
    acts, s' := acts1 + acts2, s2;
  }

  /** With a limit of one: reserve, release, reserve again on another port, and let the late answer of the
      first tunnel mark its released row active. The machine then has two live rows. */
  lemma RevivalBreaksQuota(cfg: Config, s: State, vm: string, one: string, two: string, p: Port, q: Port, i: Id, j: Id)
    requires Started(s) && s.rows == map[] && s.outside == {} && cfg.maxPerOwner == 1
    requires ':' !in vm && p != q && i != j && i !in s.issued && j !in s.issued
    ensures exists acts :: Legal(cfg, s, acts) && |Group(Exec(cfg, s, acts).rows, "vm:" + vm)| == 2
  {
    OwnerOfVm(vm, one);
    OwnerOfVm(vm, two);
    var acts1, s1 := ReserveAndRelease(cfg, s, vm, one, p, i);
    var acts2, s2 := ReserveForVm(cfg, s1, vm, two, q, j);
    LegalConcat(cfg, s, acts1, acts2);
    var acts3, s3 := MarkActive(cfg, s2, i);
    LegalConcat(cfg, s, acts1 + acts2, acts3);
    TwoInGroup(s3.rows, "vm:" + vm, i, j);
    assert Exec(cfg, s, acts1 + acts2 + acts3) == s3;
  }

  /** A reservation whose lease of one second has run out, and a release that has read it and not yet written. */
  lemma OverdueRelease(cfg: Config, s: State, req: Request, p: Port, id: Id) returns (acts: seq<Action>, s': State)
    requires Started(s) && s.rows == map[] && s.outside == {} && cfg.maxPerOwner >= 1 && id !in s.issued
    requires req.preferred == Some(p) && IsHost(req.owner) && req.lease == Some(1)
    ensures Legal(cfg, s, acts) && s' == Exec(cfg, s, acts)
    ensures Holds.Invariant(s') && s'.pc == Releasing(id, NewRow(req, p, s.now))
    ensures s'.lease.Waiting? && s'.channel == [] && s'.reporting.None?
    ensures s'.rows == map[id := NewRow(req, p, s.now)] && OverdueIds(s'.rows, s'.now) == {id}
    ensures s'.issued == s.issued + {id} && s'.outside == {}
  {
    var row := NewRow(req, p, s.now);
    HostIsNoVm(req.owner);
    var reserve, s1 := ReserveForHost(cfg, s, req, p, id);
    var later := [SetClock(s.now + 1)] + [ReadForRelease(id)];
    s' := WaitAndRead(cfg, s1, id);
    LegalConcat(cfg, s, reserve, later);
    acts := reserve + later;
    RunsStaySafe(cfg, s, acts);
    OneHeldRow(s', id, row);
  }

  lemma OneHeldRow(s: State, id: Id, row: Row)
    requires Safe(s) && s.rows == map[id := row] && s.pc == Releasing(id, row) && s.holds == {row.port}
    requires s.lease.Waiting? && s.channel == [] && s.awaited == multiset{}
    requires VmName(row.owner).None? && !row.state.Released?
    ensures Holds.Invariant(s)
  {
    assert s.rows[id].port in LivePorts(s.rows);
    assert LivePorts(s.rows) == {row.port};
  }

  lemma ReserveForHost(cfg: Config, s: State, req: Request, p: Port, id: Id) returns (acts: seq<Action>, s': State)
    requires Started(s) && s.rows == map[] && s.outside == {} && cfg.maxPerOwner >= 1 && id !in s.issued
    requires req.preferred == Some(p) && IsHost(req.owner)
    ensures Legal(cfg, s, acts) && Exec(cfg, s, acts) == s'
    ensures s' == s.(rows := map[id := NewRow(req, p, s.now)], holds := {p}, issued := s.issued + {id}, log := s'.log)
  {
    HostIsNoVm(req.owner);
    acts := ReserveStatements(cfg, s, req, None, id);
    FreshReserve(cfg, s, req, p, id);
    s' := Exec(cfg, s, acts);
  }

  /** A second passes, and a release reads a live row. */
  lemma WaitAndRead(cfg: Config, s: State, id: Id) returns (s': State)
    requires s.pc.Idle? && IsLive(s.rows, id)
    ensures var acts := [SetClock(s.now + 1)] + [ReadForRelease(id)];
            Legal(cfg, s, acts) && Exec(cfg, s, acts) == s'
    ensures s' == s.(now := s.now + 1, pc := Releasing(id, s.rows[id]))
  {
    OneStep(cfg, s.(now := s.now + 1), ReadForRelease(id));
    Prepend(cfg, s, SetClock(s.now + 1), [ReadForRelease(id)]);
    s' := s.(now := s.now + 1, pc := Releasing(id, s.rows[id]));
  }

  /** So a started daemon can lose that race: the next reservation of the port is live and loses its listener. */
  lemma ReleaseRaceIsReachable(cfg: Config, s: State, req: Request, other: Request, p: Port, i: Id, j: Id)
    requires Started(s) && s.rows == map[] && s.outside == {} && cfg.maxPerOwner >= 2
    requires req.preferred == Some(p) && IsHost(req.owner) && req.lease == Some(1)
    requires other.preferred == Some(p) && IsHost(other.owner) && other.owner != req.owner
    requires i != j && i !in s.issued && j !in s.issued
    ensures exists acts :: Legal(cfg, s, acts) && IsLive(Exec(cfg, s, acts).rows, j)
                           && Exec(cfg, s, acts).rows[j].port !in Exec(cfg, s, acts).holds
  {
    var before, s1 := OverdueRelease(cfg, s, req, p, i);
    var selected := Selected(s1.rows, PrefixPattern(CountPrefix(other.owner)));
    assert selected <= {i};
    SubsetSize(selected, {i});
    ReleaseRaceDropsAListener(cfg, s1, other, j);
    var after :| Legal(cfg, s1, after) && IsLive(Exec(cfg, s1, after).rows, j)
                 && Exec(cfg, s1, after).rows[j].port !in Exec(cfg, s1, after).holds;
    LegalConcat(cfg, s, before, after);
    assert Exec(cfg, s, before + after) == Exec(cfg, s1, after);
  }

  /** A pending row of a VM, whose port is not held, expires: its notice is under way. */
  lemma ExpiredVmRow(cfg: Config, s: State, req: Request, p: Port, id: Id) returns (acts: seq<Action>, s': State)
    requires Started(s) && s.rows == map[] && s.outside == {} && cfg.maxPerOwner >= 1 && id !in s.issued
    requires req.preferred == Some(p) && VmName(req.owner).Some? && req.lease == Some(1)
    ensures Legal(cfg, s, acts) && s' == Exec(cfg, s, acts)
    ensures Safe(s') && s'.pc.Idle? && s'.channel == [Notice(id, p)] && s'.reporting.None? && s'.holds == {}
    ensures s'.outside == {} && s'.issued == s.issued + {id} && LiveIds(s'.rows) == {}
  {
    if IsHost(req.owner) {
      HostIsNoVm(req.owner);
    }
    var row := NewRow(req, p, s.now);
    var reserve := ReserveStatements(cfg, s, req, None, id);
    FreshReserve(cfg, s, req, p, id);
    var s1 := Exec(cfg, s, reserve);
    assert s1.rows == map[id := row];
    s' := LetExpire(cfg, s1, id);
    var later := [SetClock(s1.now + 1)] + ([ExpireLeases([Notice(id, p)])] + [SendBatch]);
    LegalConcat(cfg, s, reserve, later);
    acts := reserve + later;
    RunsStaySafe(cfg, s, acts);
  }

  lemma LetExpire(cfg: Config, s: State, id: Id) returns (s': State)
    requires s.pc.Idle? && s.lease.Waiting? && s.rows.Keys == {id} && Overdue(s.rows[id], s.now + 1) && s.channel == []
    ensures var batch := [Notice(id, s.rows[id].port)];
            var acts := [SetClock(s.now + 1)] + ([ExpireLeases(batch)] + [SendBatch]);
            Legal(cfg, s, acts) && Exec(cfg, s, acts) == s' && s'.channel == batch
    ensures s' == s.(now := s.now + 1, rows := s'.rows, lease := Purging, channel := s'.channel)
    ensures LiveIds(s'.rows) == {}
  {
    var batch := [Notice(id, s.rows[id].port)];
    var s1 := s.(now := s.now + 1);
    assert OverdueIds(s1.rows, s1.now) == {id};
    var s2 := Next(cfg, s1, ExpireLeases(batch));
    s' := Next(cfg, s2, SendBatch);
    OneStep(cfg, s2, SendBatch);
    Prepend(cfg, s1, ExpireLeases(batch), [SendBatch]);
    Prepend(cfg, s, SetClock(s.now + 1), [ExpireLeases(batch)] + [SendBatch]);
  }

  /** So a host can lose its listener to the expiry of a VM row: it reserves the port the VM row has just given up,
      and the notice takes the listener away. */
  lemma VmExpiryDropsAListener(cfg: Config, s: State, req: Request, other: Request, p: Port, i: Id, j: Id)
    requires Started(s) && s.rows == map[] && s.outside == {} && cfg.maxPerOwner >= 1
    requires req.preferred == Some(p) && VmName(req.owner).Some? && req.lease == Some(1)
    requires other.preferred == Some(p) && IsHost(other.owner)
    requires i != j && i !in s.issued && j !in s.issued
    ensures exists acts :: Legal(cfg, s, acts) && IsLive(Exec(cfg, s, acts).rows, j)
                           && Exec(cfg, s, acts).rows[j].port !in Exec(cfg, s, acts).holds
  {
    var before, s1 := ExpiredVmRow(cfg, s, req, p, i);
    assert forall k :: k in s1.rows ==> k in LiveIds(s1.rows) || s1.rows[k].state.Released?;
    assert Duplicates(s1.rows, other.owner, other.host, other.targetPort) == {};
    assert Selected(s1.rows, PrefixPattern(CountPrefix(other.owner))) == {};
    UnheldNoticeDropsAListener(cfg, s1, other, j);
    var after := ReserveStatements(cfg, s1, other, None, j) + [HandleNotice];
    LegalConcat(cfg, s, before, after);
    assert Exec(cfg, s, before + after) == Exec(cfg, s1, after);
  }
}
