/** The handlers of the gRPC service that change state, and the expiry handler, each run without interruption:
    what they do to the broker and to the tunnel manager together. */
module Service {
  import opened Wrappers
  import opened Allocation
  import opened Store
  import opened Owners
  import Protocol
  import Tunnels
  import opened PortSafety
  import opened Calls
  import opened Daemon
  import Events
  import Rows
  import opened TunnelManager

  datatype Status = InvalidArgument | Refused(reason: PortError)

  /** Port fields arrive as 32-bit numbers. */
  datatype ReserveRequest = ReserveRequest(owner: string, preferred: Option<nat>, host: string, targetPort: nat,
                                           lease: Option<nat>, exactOnly: bool)

  datatype Identifier = ById(id: Id) | ByPort(port: nat)

  datatype Response = Response(id: Id, port: Port, state: RowState)

  /** How starting a tunnel would end: whether it connects, its new health record and its task. */
  datatype Attempt = Attempt(connected: bool, handle: Tunnels.Handle, task: nat)

  predicate IsPort(n: nat) {
    1 <= n < 65536
  }

  /** The length of a text in UTF-8 bytes, which is what `str::len` counts. */
  function ByteLength(s: string): nat {
    if s == "" then 0
    else
      var c := s[0] as int;
      (if c < 0x80 then 1 else if c < 0x800 then 2 else if c < 0x1_0000 then 3 else 4) + ByteLength(s[1..])
  }

  /** How many characters are encoded from a code point on. */
  function CountFrom(s: string, first: int): nat {
    if s == "" then 0 else (if s[0] as int >= first then 1 else 0) + CountFrom(s[1..], first)
  }

  /** One byte for each character, and one more from each of the three bounds on. */
  lemma {:induction false} ByteLengthIsExact(s: string)
    ensures ByteLength(s) == |s| + CountFrom(s, 0x80) + CountFrom(s, 0x800) + CountFrom(s, 0x1_0000)
  {
    if s != "" {
      ByteLengthIsExact(s[1..]);
    }
  }

  /** What makes a request invalid: a port of zero or above 65535, an empty or long text, or a character that is
      neither alphanumeric nor one of four. */
  lemma ValidityIsExact(alphanumeric: char -> bool, raw: ReserveRequest)
    ensures !IsValid(alphanumeric, raw) <==>
            || raw.targetPort == 0 || raw.targetPort > 65535
            || (raw.preferred.Some? && (raw.preferred.value == 0 || raw.preferred.value > 65535))
            || raw.owner == "" || ByteLength(raw.owner) > 128
            || (exists c :: c in raw.owner && !alphanumeric(c) && c !in [':', '-', '_', '.'])
            || raw.host == "" || ByteLength(raw.host) > 253
  {
    ByteLengthIsExact(raw.owner);
    ByteLengthIsExact(raw.host);
    assert ":-_." == [':', '-', '_', '.'];
  }

  /** The request that reaches the broker is the one that came in. */
  lemma CheckedIsWhatCame(req: ReserveRequest)
    requires IsPort(req.targetPort) && (req.preferred.Some? ==> IsPort(req.preferred.value))
    ensures var r := Checked(req);
            && r.owner == req.owner && r.host == req.host && r.targetPort == req.targetPort
            && r.lease == req.lease && r.exactOnly == req.exactOnly
            && (r.preferred.Some? <==> req.preferred.Some?)
            && (r.preferred.Some? ==> r.preferred.value == req.preferred.value)
  {
  }

  /** `validate_owner`, given Unicode's alphanumeric characters. */
  predicate IsOwner(alphanumeric: char -> bool, owner: string) {
    1 <= ByteLength(owner) <= 128 && forall c <- owner :: alphanumeric(c) || c in ":-_."
  }

  predicate IsTargetHost(host: string) {
    1 <= ByteLength(host) <= 253
  }

  predicate IsValid(alphanumeric: char -> bool, req: ReserveRequest) {
    && IsOwner(alphanumeric, req.owner) && IsTargetHost(req.host)
    && IsPort(req.targetPort) && (req.preferred.Some? ==> IsPort(req.preferred.value))
  }

  function Checked(req: ReserveRequest): Protocol.Request
    requires IsPort(req.targetPort) && (req.preferred.Some? ==> IsPort(req.preferred.value))
  {
    Protocol.Request(req.owner, if req.preferred.Some? then Some(req.preferred.value as Port) else None, req.host,
                     req.targetPort as TargetPort, req.lease, req.exactOnly)
  }

  /** `port as u16` */
  function Truncated(port: nat): Port {
    port % 65536
  }

  /** The row the handler's broker call returns, in the table `rows` that the call leaves. */
  function Answered(rows: Table, found: Option<Id>, id: Id): Option<Id> {
    var answer := if found.Some? then found.value else id;
    if answer in rows then Some(answer) else None
  }

  function TunnelStart(id: Id, row: Row, attempt: Attempt): Tunnels.Action
    requires Protocol.NeedsTunnel(row)
  {
    Tunnels.Start(id, Tunnels.Params(VmName(row.owner).value, row.port, row.host, row.targetPort),
                  attempt.connected, attempt.handle, attempt.task)
  }

  predicate Connects(tcfg: Tunnels.Config, row: Row, attempt: Attempt)
    requires Protocol.NeedsTunnel(row)
  {
    VmName(row.owner).value in tcfg.vms && attempt.connected
  }

  /** What the handler makes of the row `rid` that the broker call has returned. */
  function Settled(tcfg: Tunnels.Config, called: Protocol.State, ts: Tunnels.State, rid: Id, attempt: Attempt)
    : (Protocol.State, Tunnels.State)
    requires attempt.handle !in ts.records && rid in called.rows
  {
    var after, row := Protocol.AfterReserve(called, rid), called.rows[rid];
    if !Protocol.NeedsTunnel(row) then (after, ts)
    else
      (UpdateCall(after, rid, if Connects(tcfg, row, attempt) then Active else RowState.Failed),
       Tunnels.Next(tcfg, ts, TunnelStart(rid, row, attempt)))
  }

  /** What a whole `reserve` request makes of the broker and the tunnel manager. */
  function ReserveEffect(cfg: Protocol.Config, tcfg: Tunnels.Config, s: Protocol.State, ts: Tunnels.State,
                         req: Protocol.Request, found: Option<Id>, id: Id, attempt: Attempt)
    : (Protocol.State, Tunnels.State)
    requires attempt.handle !in ts.records
  {
    var called := ReserveCall(cfg, s, req, found, id);
    match Answered(called.rows, found, id)
    case None => (called, ts)
    case Some(rid) => Settled(tcfg, called, ts, rid, attempt)
  }

  /** What a whole `release` request makes of them. */
  function ReleaseEffect(s: Protocol.State, ts: Tunnels.State, target: Id): (Protocol.State, Tunnels.State) {
    (ReleaseCall(s, target),
     if target in s.rows && VmName(s.rows[target].owner).Some? then ts.(tunnels := ts.tunnels - {target}) else ts)
  }

  class PortBrokerService {
    const broker: Broker
    const manager: Manager
    const alphanumeric: char -> bool

    constructor (broker: Broker, manager: Manager, alphanumeric: char -> bool)
      ensures this.broker == broker && this.manager == manager && this.alphanumeric == alphanumeric
    {
      this.broker, this.manager, this.alphanumeric := broker, manager, alphanumeric;
    }

    method Reserve(raw: ReserveRequest, id: Id, outside: set<Port>, attempt: Attempt,
                   ghost s: Protocol.State, ghost ts: Tunnels.State)
      returns (r: Result<Response, Status>, ghost found: Option<Id>)
      requires broker.Shows(s) && Safe(s) && s.outside == outside && id !in s.issued
      requires manager.Shows(ts) && attempt.handle !in ts.records
      modifies broker, broker.db`rows, broker.log, manager
      ensures r == Err(InvalidArgument) <==> !IsValid(alphanumeric, raw)
      ensures r.Err? ==> broker.Shows(s) && manager.Shows(ts)
      ensures IsValid(alphanumeric, raw) ==>
                var req := Checked(raw);
                var effect := ReserveEffect(broker.cfg, manager.cfg, s, ts, req, found, id, attempt);
                Protocol.Found(Duplicates(s.rows, req.owner, req.host, req.targetPort), found)
                && broker.Shows(effect.0) && manager.Shows(effect.1)
      ensures IsValid(alphanumeric, raw) ==>
                exists answer ::
                  IsReserveAnswer(broker.cfg, s.rows, Checked(raw), outside + s.holds, s.now, found, id, answer)
                  && (match answer
                      case Ok((i, row)) => r.Ok? && r.value.id == i && r.value.port == row.port
                      case Err(e) => r == Err(Refused(e)))
      ensures r.Ok? ==>
                Answered(broker.db.rows, found, id) == Some(r.value.id)
                && broker.db.rows[r.value.id].port == r.value.port && broker.db.rows[r.value.id].state == r.value.state
    {
      found := None;
      if !IsValid(alphanumeric, raw) {
        return Err(InvalidArgument), found;
      }
      var result;
      result, found := broker.Reserve(Checked(raw), id, outside, s);
      match result {
        case Err(e) =>
          return Err(Refused(e)), found;
        case Ok((rid, row)) =>
          ghost var called := ReserveCall(broker.cfg, s, Checked(raw), found, id);
          var state := Settle(rid, row, attempt, called, ts);
          return Ok(Response(rid, row.port, state)), found;
      }
    }

    /** Hand a pending VM reservation over from its hold listener to a tunnel. */
    method Settle(rid: Id, row: Row, attempt: Attempt, ghost called: Protocol.State, ghost ts: Tunnels.State)
      returns (state: RowState)
      requires broker.Shows(called) && OneRowPerPort(called.rows) && rid in called.rows && called.rows[rid] == row
      requires manager.Shows(ts) && attempt.handle !in ts.records
      modifies broker, broker.db`rows, broker.log, manager
      ensures broker.Shows(Settled(manager.cfg, called, ts, rid, attempt).0)
      ensures manager.Shows(Settled(manager.cfg, called, ts, rid, attempt).1)
      ensures rid in broker.db.rows && broker.db.rows[rid].state == state && broker.db.rows[rid].port == row.port
      ensures broker.db.rows.Keys == called.rows.Keys
    {
      if !Protocol.NeedsTunnel(row) {
        return row.state;
      }
      // Release the hold listener so that the tunnel can bind the port
      broker.ReleaseHoldListener(row.port);
      var params := Tunnels.Params(VmName(row.owner).value, row.port, row.host, row.targetPort);
      var started := manager.StartTunnel(rid, params, attempt.connected, attempt.handle, attempt.task, ts);
      state := if started.Ok? then Active else RowState.Failed;
      var updated := broker.UpdateState(rid, state, Protocol.AfterReserve(called, rid));
    }

    method Release(target: Option<Identifier>, ghost s: Protocol.State, ghost ts: Tunnels.State)
      returns (r: Result<(), Status>, ghost found: Option<Id>)
      requires broker.Shows(s) && Safe(s) && manager.Shows(ts)
      modifies broker, broker.db`rows, broker.log, manager
      ensures r == Err(InvalidArgument) <==> target.None?
      ensures match target
              case None => found.None?
              case Some(ById(id)) => found == if id in s.rows then Some(id) else None
              case Some(ByPort(port)) => Protocol.Found(LiveAt(s.rows, Truncated(port)), found)
      ensures r.Ok? <==> found.Some?
      ensures var effect := if found.Some? then ReleaseEffect(s, ts, found.value) else (s, ts);
              broker.Shows(effect.0) && manager.Shows(effect.1)
    {
      found := None;
      var before, result := broker.db.rows, Err(ReservationNotFound);
      var reservation := None;
      match target {
        case None =>
          return Err(InvalidArgument), found;
        case Some(ById(id)) =>
          reservation := if id in before then Some(id) else None;
          result := broker.ReleaseById(id, s);
          found := reservation;
        case Some(ByPort(port)) =>
          var at := LiveAt(before, Truncated(port));
          if at != {} {
            var id :| id in at;
            reservation := Some(id);
          }
          result, found := broker.ReleaseByPort(Truncated(port), s);
      }
      if reservation.Some? && VmName(before[reservation.value].owner).Some? {
        var stopped := manager.Stop(reservation.value, ts);
      }
      match result {
        case Ok(_) => return Ok(()), found;
        case Err(e) => return Err(Refused(e)), found;
      }
    }
  }

  /** The expiry handler: it takes the notices in order, stops the tunnel of each, gives up its hold listener and
      reports it. */
  class ExpiryHandler {
    const queue: NoticeQueue
    const broker: Broker
    const manager: Manager

    constructor (queue: NoticeQueue, broker: Broker, manager: Manager)
      ensures this.queue == queue && this.broker == broker && this.manager == manager
    {
      this.queue, this.broker, this.manager := queue, broker, manager;
    }

    method Drain(ghost cfg: Protocol.Config, ghost s: Protocol.State, ghost ts: Tunnels.State)
      returns (ghost acts: seq<Protocol.Action>)
      requires broker.Shows(s) && s.channel == queue.notices && s.reporting.None? && manager.Shows(ts)
      modifies queue, broker, broker.log, manager
      ensures queue.notices == []
      ensures Protocol.Legal(cfg, s, acts) && broker.Shows(Protocol.Exec(cfg, s, acts))
      ensures Protocol.Exec(cfg, s, acts)
           == s.(channel := [], holds := broker.holdListeners, log := s.log + Events.ReportsOf(s.channel))
      ensures manager.Shows(ts.(tunnels := ts.tunnels - Events.Ids(s.channel)))
    {
      acts := [];
      ghost var done, now, tsNow := [], s, ts;
      assert s.log + Events.ReportsOf([]) == s.log;
      while queue.notices != []
        invariant Protocol.Legal(cfg, s, acts) && Protocol.Exec(cfg, s, acts) == now && broker.Shows(now)
        invariant now.channel == queue.notices && manager.Shows(tsNow) && Handled(s, ts, done, now, tsNow)
        decreases |queue.notices|
      {
        acts := NoticeRun(cfg, s, acts);
        OneMoreHandled(s, ts, done, now, tsNow);
        HandleOne(now, tsNow);
        done, now, tsNow := done + [now.channel[0]], AfterNotice(now), AfterStop(tsNow, now.channel[0].id);
      }
      assert done == s.channel;
    }

    method HandleOne(ghost s: Protocol.State, ghost ts: Tunnels.State)
      requires broker.Shows(s) && s.channel == queue.notices && queue.notices != [] && manager.Shows(ts)
      modifies queue, broker, broker.log, manager
      ensures broker.Shows(AfterNotice(s)) && queue.notices == AfterNotice(s).channel
      ensures manager.Shows(AfterStop(ts, s.channel[0].id))
    {
      var n := queue.notices[0];
      queue.notices := queue.notices[1..];
      var stopped := manager.Stop(n.id, ts);
      broker.ReleaseHoldListener(n.port);
      broker.log.Send(Protocol.ExpiryEvent(n));
    }
  }

  /** The state once the oldest notice is handled and reported. */
  function AfterNotice(s: Protocol.State): Protocol.State
    requires s.channel != []
  {
    s.(channel := s.channel[1..], holds := s.holds - {s.channel[0].port},
       log := s.log + [Protocol.ExpiryEvent(s.channel[0])])
  }

  lemma NoticeRun(cfg: Protocol.Config, s: Protocol.State, acts: seq<Protocol.Action>)
    returns (more: seq<Protocol.Action>)
    requires Protocol.Legal(cfg, s, acts)
    requires var now := Protocol.Exec(cfg, s, acts); now.pc.Idle? && now.reporting.None? && now.channel != []
    ensures Protocol.Legal(cfg, s, more)
    ensures Protocol.Exec(cfg, s, more) == AfterNotice(Protocol.Exec(cfg, s, acts))
  {
    ExecAppends(cfg, s, acts, Protocol.HandleNotice);
    ExecAppends(cfg, s, acts + [Protocol.HandleNotice], Protocol.EmitExpired);
    more := acts + [Protocol.HandleNotice] + [Protocol.EmitExpired];
  }

  function AfterStop(ts: Tunnels.State, id: Id): Tunnels.State {
    ts.(tunnels := ts.tunnels - {id})
  }

  /** From `s` and `ts`, the notices `done` have been handled and reported. */
  ghost predicate Handled(s: Protocol.State, ts: Tunnels.State, done: seq<Notice>,
                          now: Protocol.State, tsNow: Tunnels.State) {
    && s.channel == done + now.channel
    && now == s.(channel := now.channel, holds := now.holds, log := s.log + Events.ReportsOf(done))
    && tsNow == ts.(tunnels := ts.tunnels - Events.Ids(done))
  }

  lemma OneMoreHandled(s: Protocol.State, ts: Tunnels.State, done: seq<Notice>,
                       now: Protocol.State, tsNow: Tunnels.State)
    requires Handled(s, ts, done, now, tsNow) && now.channel != []
    ensures Handled(s, ts, done + [now.channel[0]], AfterNotice(now), AfterStop(tsNow, now.channel[0].id))
  {
    var n := now.channel[0];
    assert now.channel == [n] + now.channel[1..];
    assert Events.ReportsOf(done + [n]) == Events.ReportsOf(done) + [Protocol.ExpiryEvent(n)];
    assert Events.Ids(done + [n]) == Events.Ids(done) + {n.id};
  }

  // ---------------------------------------------------------------- what the requests achieve

  /** The tunnel a row is to have: it listens on the port of the row and forwards to the row's target inside the
      row's machine. */
  ghost predicate IsTunnelOf(p: Tunnels.Params, r: Row) {
    VmName(r.owner) == Some(p.vm) && p.port == r.port && p.host == r.host && p.targetPort == r.targetPort
  }

  /** A pending row of a VM hands its port over: it ends active exactly when its machine is configured and
      connects, and then has just that tunnel; it ends failed otherwise, and no tunnel changes. Its listener goes,
      and no other; its change is announced; and no other row changes. */
  ghost predicate HandsOver(tcfg: Tunnels.Config, called: Protocol.State, ts: Tunnels.State, rid: Id, attempt: Attempt,
                            s': Protocol.State, ts': Tunnels.State)
    requires rid in called.rows && VmName(called.rows[rid].owner).Some?
  {
    var row := called.rows[rid];
    var up := VmName(row.owner).value in tcfg.vms && attempt.connected;
    && s'.rows.Keys == called.rows.Keys && s'.issued == called.issued
    && (forall i :: i in called.rows && i != rid ==> s'.rows[i] == called.rows[i])
    && s'.rows[rid] == row.(state := if up then Active else RowState.Failed, updatedAt := called.now)
    && s'.holds == called.holds - {row.port}
    && s'.log == called.log + [Protocol.Event(rid, row.owner, Some(row.state), s'.rows[rid].state)]
    && (forall i :: i != rid && i in ts.tunnels ==> i in ts'.tunnels && ts'.tunnels[i] == ts.tunnels[i])
    && ts'.tunnels.Keys == ts.tunnels.Keys + (if up then {rid} else {})
    && (!up ==> ts' == ts)
    && (up ==>
          var e := ts'.tunnels[rid];
          && IsTunnelOf(e.params, row) && e.health == attempt.handle && e.task == attempt.task
          && ts'.records == ts.records[e.health := Tunnels.Record(rid, true, 0, 0)])
  }

  lemma PendingRowSettles(tcfg: Tunnels.Config, called: Protocol.State, ts: Tunnels.State, rid: Id, attempt: Attempt)
    requires OneRowPerPort(called.rows) && attempt.handle !in ts.records
    requires rid in called.rows && VmName(called.rows[rid].owner).Some? && called.rows[rid].state.Pending?
    ensures var (s', ts') := Settled(tcfg, called, ts, rid, attempt);
            HandsOver(tcfg, called, ts, rid, attempt, s', ts')
  {
    WriteSucceeds(called.rows, rid, Active, called.now);
    WriteSucceeds(called.rows, rid, RowState.Failed, called.now);
  }

  /** The row that a reserve request gets is live and has the request's target. If it is a pending row of a VM it
      settles as above; otherwise nothing happens to it, to its listener or to any tunnel. */
  lemma ReserveSettles(cfg: Protocol.Config, tcfg: Tunnels.Config, s: Protocol.State, ts: Tunnels.State,
                       req: Protocol.Request, found: Option<Id>, id: Id, attempt: Attempt, rid: Id)
    requires Safe(s) && s.pc.Idle? && id !in s.issued && attempt.handle !in ts.records
    requires Protocol.Found(Duplicates(s.rows, req.owner, req.host, req.targetPort), found)
    requires Answered(ReserveCall(cfg, s, req, found, id).rows, found, id) == Some(rid)
    ensures var called := ReserveCall(cfg, s, req, found, id);
            var (s', ts') := ReserveEffect(cfg, tcfg, s, ts, req, found, id, attempt);
            && rid in called.rows && rid in s'.rows && HasTarget(s'.rows[rid], req) && IsLive(s'.rows, rid)
            && (if VmName(req.owner).Some? && called.rows[rid].state.Pending? then
                  && s'.holds == called.holds - {s'.rows[rid].port}
                  && (s'.rows[rid].state.Active? <==> VmName(req.owner).value in tcfg.vms && attempt.connected)
                  && (s'.rows[rid].state.Active? ==>
                        rid in ts'.tunnels && IsTunnelOf(ts'.tunnels[rid].params, s'.rows[rid])
                        && ts'.tunnels[rid].health == attempt.handle)
                  && (!s'.rows[rid].state.Active? ==> s'.rows[rid].state.Failed? && ts' == ts)
                else s' == called && ts' == ts)
  {
    var called := ReserveCall(cfg, s, req, found, id);
    AnswerIsLive(cfg, s, req, found, id, rid);
    if VmName(req.owner).Some? && called.rows[rid].state.Pending? {
      PendingRowSettles(tcfg, called, ts, rid, attempt);
    }
  }

  lemma AnswerIsLive(cfg: Protocol.Config, s: Protocol.State, req: Protocol.Request, found: Option<Id>, id: Id, rid: Id)
    requires Safe(s) && s.pc.Idle? && id !in s.issued
    requires Protocol.Found(Duplicates(s.rows, req.owner, req.host, req.targetPort), found)
    requires Answered(ReserveCall(cfg, s, req, found, id).rows, found, id) == Some(rid)
    ensures var called := ReserveCall(cfg, s, req, found, id);
            IsLive(called.rows, rid) && HasTarget(called.rows[rid], req)
            && OneRowPerPort(called.rows) && called.now == s.now && called.pc.Idle?
  {
    if found.None? {
      ReserveCallEffect(cfg, s, req, id);
      var port: Port :| ReserveTx(s.rows, id, Protocol.NewRow(req, port, s.now)).Ok? && port !in LivePorts(s.rows)
                        && ReserveCall(cfg, s, req, None, id) == Committed(s, req, id, port);
      CommitSucceeds(s.rows, id, Protocol.NewRow(req, port, s.now));
    }
  }

  /** A release by port releases a row of the port it names exactly when the port fits 16 bits. */
  lemma ReleaseByPortIsExact(s: Protocol.State, port: nat, found: Option<Id>)
    requires Protocol.Found(LiveAt(s.rows, Truncated(port)), found) && found.Some?
    ensures found.value in s.rows
    ensures s.rows[found.value].port == port <==> port < 65536
  {
  }

  /** A release of a live row releases it, frees its port, gives its listener up and announces that; a release of
      a released row does nothing. Either way the tunnel of a VM row goes, and nothing else does. */
  lemma ReleaseSettles(s: Protocol.State, ts: Tunnels.State, target: Id)
    requires Safe(s) && target in s.rows
    ensures var row := s.rows[target];
            var (s', ts') := ReleaseEffect(s, ts, target);
            && s'.rows.Keys == s.rows.Keys
            && (forall i :: i in s.rows && i != target ==> s'.rows[i] == s.rows[i])
            && (if IsLive(s.rows, target) then
                  && s'.rows[target] == row.(state := Released, updatedAt := s.now)
                  && row.port !in LivePorts(s'.rows) && s'.holds == s.holds - {row.port}
                  && s'.log == s.log + [Protocol.Event(target, row.owner, Some(row.state), Released)]
                else s' == s)
            && ts'.records == ts.records
            && (forall i :: i in ts.tunnels && (i != target || VmName(row.owner).None?) ==>
                  i in ts'.tunnels && ts'.tunnels[i] == ts.tunnels[i])
            && ts'.tunnels.Keys == ts.tunnels.Keys - (if VmName(row.owner).Some? then {target} else {})
  {
    WriteSucceeds(s.rows, target, Released, s.now);
    if IsLive(s.rows, target) {
      ReleasedPortIsFree(s, target);
    }
  }

  // ---------------------------------------------------------------- tunnels and rows

  /** Every tunnel of a row forwards what the row says. */
  ghost predicate TunnelsAgree(s: Protocol.State, ts: Tunnels.State) {
    && ts.tunnels.Keys <= s.issued
    && (forall i :: i in ts.tunnels && i in s.rows ==> IsTunnelOf(ts.tunnels[i].params, s.rows[i]))
  }

  /** Reserve requests, release requests, the health loop and the daemon's own runs all keep it. */
  lemma ReserveKeepsTunnels(cfg: Protocol.Config, tcfg: Tunnels.Config, s: Protocol.State, ts: Tunnels.State,
                            req: Protocol.Request, found: Option<Id>, id: Id, attempt: Attempt)
    requires Safe(s) && s.pc.Idle? && id !in s.issued && attempt.handle !in ts.records && TunnelsAgree(s, ts)
    requires Protocol.Found(Duplicates(s.rows, req.owner, req.host, req.targetPort), found)
    ensures var (s', ts') := ReserveEffect(cfg, tcfg, s, ts, req, found, id, attempt);
            TunnelsAgree(s', ts')
  {
    var called := ReserveCall(cfg, s, req, found, id);
    CallKeepsTunnels(cfg, s, ts, req, found, id);
    match Answered(called.rows, found, id)
    case None =>
    case Some(rid) =>
      AnswerIsLive(cfg, s, req, found, id, rid);
      SettlingKeepsTunnels(tcfg, called, ts, rid, attempt);
  }

  lemma SettlingKeepsTunnels(tcfg: Tunnels.Config, called: Protocol.State, ts: Tunnels.State, rid: Id, attempt: Attempt)
    requires OneRowPerPort(called.rows) && called.rows.Keys <= called.issued && rid in called.rows
    requires attempt.handle !in ts.records && TunnelsAgree(called, ts)
    ensures var (s', ts') := Settled(tcfg, called, ts, rid, attempt);
            TunnelsAgree(s', ts')
  {
    if VmName(called.rows[rid].owner).Some? && called.rows[rid].state.Pending? {
      PendingRowSettles(tcfg, called, ts, rid, attempt);
      var (s', ts') := Settled(tcfg, called, ts, rid, attempt);
      HandoverKeepsTunnels(tcfg, called, ts, rid, attempt, s', ts');
    }
  }

  lemma HandoverKeepsTunnels(tcfg: Tunnels.Config, called: Protocol.State, ts: Tunnels.State, rid: Id,
                             attempt: Attempt, s': Protocol.State, ts': Tunnels.State)
    requires rid in called.rows && VmName(called.rows[rid].owner).Some? && called.rows.Keys <= called.issued
    requires TunnelsAgree(called, ts) && HandsOver(tcfg, called, ts, rid, attempt, s', ts')
    ensures TunnelsAgree(s', ts')
  {
  }

  lemma CallKeepsTunnels(cfg: Protocol.Config, s: Protocol.State, ts: Tunnels.State,
                         req: Protocol.Request, found: Option<Id>, id: Id)
    requires Safe(s) && id !in s.issued && TunnelsAgree(s, ts)
    ensures var called := ReserveCall(cfg, s, req, found, id);
            TunnelsAgree(called, ts) && called.rows.Keys <= called.issued
  {
    if found.None? && ReserveCall(cfg, s, req, found, id) != s {
      ReserveCallEffect(cfg, s, req, id);
      var port: Port :| ReserveTx(s.rows, id, Protocol.NewRow(req, port, s.now)).Ok? && port !in LivePorts(s.rows)
                        && ReserveCall(cfg, s, req, None, id) == Committed(s, req, id, port);
      CommitSucceeds(s.rows, id, Protocol.NewRow(req, port, s.now));
    }
  }

  lemma ReleaseKeepsTunnels(s: Protocol.State, ts: Tunnels.State, target: Id)
    requires Safe(s) && target in s.rows && TunnelsAgree(s, ts)
    ensures var (s', ts') := ReleaseEffect(s, ts, target);
            TunnelsAgree(s', ts')
  {
    ReleaseSettles(s, ts, target);
  }

  lemma HealthLoopKeepsTunnels(tcfg: Tunnels.Config, s: Protocol.State, ts: Tunnels.State, a: Tunnels.Action)
    requires Tunnels.Enabled(tcfg, ts, a) && Tunnels.IsLoopAction(a) && TunnelsAgree(s, ts)
    ensures TunnelsAgree(s, Tunnels.Next(tcfg, ts, a))
  {
    Tunnels.LoopKeepsTunnels(tcfg, ts, a);
    var ts' := Tunnels.Next(tcfg, ts, a);
    forall i | i in ts'.tunnels ensures ts'.tunnels[i].params == ts.tunnels[i].params {
      assert ts'.tunnels[i].(task := 0).params == ts.tunnels[i].(task := 0).params;
    }
  }

  lemma DaemonRunsKeepTunnels(cfg: Protocol.Config, s: Protocol.State, ts: Tunnels.State, acts: seq<Protocol.Action>)
    requires Safe(s) && Protocol.Legal(cfg, s, acts) && TunnelsAgree(s, ts)
    ensures TunnelsAgree(Protocol.Exec(cfg, s, acts), ts)
  {
    var s' := Protocol.Exec(cfg, s, acts);
    Rows.RunsGrowIssued(cfg, s, acts);
    forall i | i in ts.tunnels && i in s'.rows ensures IsTunnelOf(ts.tunnels[i].params, s'.rows[i]) {
      if i in s.rows {
        Rows.RunsKeepReservations(cfg, s, acts, i);
      } else {
        Rows.GoneStaysGone(cfg, s, acts, i);
      }
    }
  }
}
