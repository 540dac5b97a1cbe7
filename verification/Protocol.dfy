/** The daemon as a step system. The broker's mutex serializes its calls, so one call is in progress at
    a time and `pc` says how far it is; the lease task, the expiry handler, the clock and the programs
    outside the daemon may step between any two of its statements. */
module Protocol {
  import opened Wrappers
  import opened Allocation
  import opened Store
  import opened Like
  import opened Owners

  datatype Config = Config(range: PortRange, maxPerOwner: nat, ttl: nat)

  datatype Request = Request(owner: string, preferred: Option<Port>, host: string, targetPort: TargetPort,
                             lease: Option<nat>, exactOnly: bool)

  /** An emitted event; an old state of None is the text "unspecified". */
  datatype Event = Event(id: Id, owner: string, oldState: Option<RowState>, newState: RowState)

  /** Where a broker call is between two of its statements. */
  datatype BrokerPc =
    | Idle
    | Counting(req: Request)
    | Selecting(req: Request)
    | Picking(req: Request, taken: set<Port>)
    | Binding(req: Request, port: Port)
    | Committing(req: Request, port: Port)
    | Fetching(id: Id)
    | Updating(id: Id, newState: RowState, oldState: RowState, owner: string)
    | Releasing(id: Id, row: Row)

  /** Between two statements of the lease task. */
  datatype LeasePc = Waiting | Sending(batch: seq<Notice>) | Purging

  datatype State = State(
    rows: Table,
    holds: set<Port>,          // ports with a hold listener
    outside: set<Port>,        // ports bound by anything else, tunnels included
    channel: seq<Notice>,      // expiry notices not yet handled
    reporting: Option<Notice>, // the notice whose listener is gone and whose event is not yet out
    log: seq<Event>,
    now: nat,
    issued: set<Id>,           // ids used so far; a UUID is never issued twice
    awaited: multiset<Id>,     // pending VM rows whose requests have yet to report on the tunnel
    pc: BrokerPc,
    lease: LeasePc)

  datatype Action =
    | FindDuplicate(req: Request, found: Option<Id>)
    | CountOwner
    | SelectPorts
    | Pick
    | Bind
    | Commit(id: Id)
    | Fetch
    | ReadForUpdate(id: Id, newState: RowState)
    | WriteUpdate
    | ReadForRelease(id: Id)
    | ReadPortForRelease(port: Port, found: Option<Id>)
    | WriteRelease
    | BrokerDbFailure
    | ExpireLeases(batch: seq<Notice>)
    | SendBatch
    | PurgeReleased
    | PurgeFailure
    | HandleNotice
    | EmitExpired
    | SetClock(now: nat)
    | SetOutside(ports: set<Port>)

  function NewRow(req: Request, port: Port, now: nat): Row {
    Row(req.owner, req.preferred, port, req.host, req.targetPort,
        if IsHost(req.owner) then Active else Pending,
        req.lease,
        if req.lease.Some? && req.lease.value > 0 then Some(now + req.lease.value) else None,
        now, now)
  }

  /** Ports the daemon has bound itself: the hold listeners and the listener of the call in progress. */
  function Bound(s: State): set<Port> {
    s.holds + (if s.pc.Committing? then {s.pc.port} else {})
  }

  /** The ports a new listener cannot bind. */
  function Busy(s: State): set<Port> {
    s.outside + s.holds
  }

  const U32_MODULUS := 0x1_0000_0000

  predicate OverLimit(cfg: Config, t: Table, owner: string) {
    |Selected(t, PrefixPattern(CountPrefix(owner)))| % U32_MODULUS >= cfg.maxPerOwner
  }

  predicate NeedsTunnel(r: Row) {
    VmName(r.owner).Some? && r.state.Pending?
  }

  /** A pending VM reservation gives its hold listener up to the tunnel as soon as `reserve` has returned it,
      and its request will later report how the tunnel came up. */
  function AfterReserve(s: State, id: Id): State {
    if id in s.rows && NeedsTunnel(s.rows[id])
    then s.(pc := Idle, holds := s.holds - {s.rows[id].port}, awaited := s.awaited + multiset{id})
    else s.(pc := Idle)
  }

  ghost predicate Found(candidates: set<Id>, found: Option<Id>) {
    match found
    case None => candidates == {}
    case Some(id) => id in candidates
  }

  ghost predicate Enabled(cfg: Config, s: State, a: Action) {
    match a
    case FindDuplicate(req, found) =>
      s.pc.Idle? && Found(Duplicates(s.rows, req.owner, req.host, req.targetPort), found)
    case CountOwner => s.pc.Counting?
    case SelectPorts => s.pc.Selecting?
    case Pick => s.pc.Picking?
    case Bind => s.pc.Binding?
    case Commit(id) => s.pc.Committing? && id !in s.issued
    case Fetch => s.pc.Fetching?
    case ReadForUpdate(id, newState) =>
      s.pc.Idle? && id in s.awaited && (newState.Active? || newState.Failed?)
    case WriteUpdate => s.pc.Updating?
    case ReadForRelease(_) => s.pc.Idle?
    case ReadPortForRelease(port, found) => s.pc.Idle? && Found(LiveAt(s.rows, port), found)
    case WriteRelease => s.pc.Releasing?
    case BrokerDbFailure => !s.pc.Idle?
    case ExpireLeases(batch) => s.lease.Waiting? && Reports(batch, s.rows, s.now)
    case SendBatch => s.lease.Sending?
    case PurgeReleased => s.lease.Purging?
    case PurgeFailure => s.lease.Purging?
    case HandleNotice => s.pc.Idle? && s.channel != [] && s.reporting.None?
    case EmitExpired => s.reporting.Some?
    case SetClock(_) => true
    case SetOutside(ports) => ports !! Bound(s)
  }

  function Next(cfg: Config, s: State, a: Action): State
    requires Enabled(cfg, s, a)
  {
    match a
    case FindDuplicate(req, found) =>
      if found.Some? then AfterReserve(s, found.value) else s.(pc := Counting(req))
    case CountOwner =>
      if OverLimit(cfg, s.rows, s.pc.req.owner) then s.(pc := Idle) else s.(pc := Selecting(s.pc.req))
    case SelectPorts => s.(pc := Picking(s.pc.req, LivePorts(s.rows)))
    case Pick =>
      (match Allocate(cfg.range, s.pc.req.preferred, s.pc.req.exactOnly, s.pc.taken, Busy(s), "")
       case Ok(port) => s.(pc := Binding(s.pc.req, port))
       case Err(_) => s.(pc := Idle))
    case Bind =>
      if s.pc.port !in Busy(s) then s.(pc := Committing(s.pc.req, s.pc.port)) else s.(pc := Idle)
    case Commit(id) =>
      var row := NewRow(s.pc.req, s.pc.port, s.now);
      (match ReserveTx(s.rows, id, row)
       case Ok(rows) =>
         s.(rows := rows, holds := s.holds + {row.port}, issued := s.issued + {id}, pc := Fetching(id),
            log := s.log + [Event(id, row.owner, None, row.state)])
       case Err(_) => s.(pc := Idle))
    case Fetch => AfterReserve(s, s.pc.id)
    case ReadForUpdate(id, newState) =>
      var reported := s.(awaited := s.awaited - multiset{id});
      if id in s.rows then reported.(pc := Updating(id, newState, s.rows[id].state, s.rows[id].owner)) else reported
    case WriteUpdate =>
      (match SetState(s.rows, s.pc.id, s.pc.newState, s.now)
       case Ok(rows) =>
         s.(rows := rows, pc := Idle,
            log := s.log + [Event(s.pc.id, s.pc.owner, Some(s.pc.oldState), s.pc.newState)])
       case Err(_) => s.(pc := Idle))
    case ReadForRelease(id) => BeginRelease(s, id)
    case ReadPortForRelease(_, found) => if found.Some? then BeginRelease(s, found.value) else s
    case WriteRelease =>
      (match SetState(s.rows, s.pc.id, Released, s.now)
       case Ok(rows) =>
         s.(rows := rows, pc := Idle, holds := s.holds - {s.pc.row.port},
            log := s.log + [Event(s.pc.id, s.pc.row.owner, Some(s.pc.row.state), Released)])
       case Err(_) => s.(pc := Idle))
    case BrokerDbFailure => s.(pc := Idle)
    case ExpireLeases(batch) =>
      s.(rows := Expire(s.rows, s.now), lease := if batch == [] then Purging else Sending(batch))
    case SendBatch => s.(channel := s.channel + s.lease.batch, lease := Purging)
    case PurgeReleased => s.(rows := Purge(s.rows, s.now, cfg.ttl), lease := Waiting)
    case PurgeFailure => s.(lease := Waiting)
    case HandleNotice =>
      var n := s.channel[0];
      s.(channel := s.channel[1..], holds := s.holds - {n.port}, reporting := Some(n))
    case EmitExpired => s.(reporting := None, log := s.log + [ExpiryEvent(s.reporting.value)])
    case SetClock(now) => s.(now := now)
    case SetOutside(ports) => s.(outside := ports)
  }

  /** The handler knows neither the owner nor the old state of the row. */
  function ExpiryEvent(n: Notice): Event {
    Event(n.id, "", Some(Active), Released)
  }

  /** The read of a release; a row that is missing or already released ends the call. */
  function BeginRelease(s: State, id: Id): State {
    if id in s.rows && !s.rows[id].state.Released? then s.(pc := Releasing(id, s.rows[id])) else s
  }

  // ---------------------------------------------------------------- runs

  /** `acts` can be taken one after the other from `s`. */
  ghost predicate Legal(cfg: Config, s: State, acts: seq<Action>)
    decreases |acts|
  {
    acts == [] || (Enabled(cfg, s, acts[0]) && Legal(cfg, Next(cfg, s, acts[0]), acts[1..]))
  }

  ghost function Exec(cfg: Config, s: State, acts: seq<Action>): State
    requires Legal(cfg, s, acts)
    decreases |acts|
  {
    if acts == [] then s else Exec(cfg, Next(cfg, s, acts[0]), acts[1..])
  }

  /** A daemon that has just started: nothing in progress, no listener, no notice. */
  ghost predicate Started(s: State) {
    && s.pc.Idle? && s.lease.Waiting?
    && s.holds == {} && s.channel == [] && s.reporting.None? && s.log == [] && s.awaited == multiset{}
    && s.rows.Keys <= s.issued
  }
}
