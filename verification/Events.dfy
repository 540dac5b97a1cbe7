/** The event log. The events of each reservation form a chain that starts at "unspecified", passes from state
    to state without a gap and ends in the state of its row, or in "active" while its expiry is still to be
    reported; as long as what expires is active, not under a read, and not updated before it is reported. */
module Events {
  import opened Wrappers
  import opened Store
  import opened Protocol
  import opened PortSafety
  import opened Calls
  import PartialIndex

  /** The state a reader of the log believes reservation `id` to be in, having believed `start` before it. */
  function Believed(log: seq<Event>, id: Id, start: Option<RowState>): Option<RowState>
    decreases |log|
  {
    if log == [] then start
    else
      var n := |log| - 1;
      if log[n].id == id then Some(log[n].newState) else Believed(log[..n], id, start)
  }

  /** Every event of `id` departs from the state its predecessor arrived at. */
  predicate Chained(log: seq<Event>, id: Id, start: Option<RowState>)
    decreases |log|
  {
    log == [] ||
    var n := |log| - 1;
    Chained(log[..n], id, start) && (log[n].id == id ==> log[n].oldState == Believed(log[..n], id, start))
  }

  /** The state reservation `id` had before the run: none, if the run is what creates it. */
  function StartState(first: State, id: Id): Option<RowState> {
    if id in first.rows then Some(first.rows[id].state) else None
  }

  /** Reservation `id` has existed at some time since the start of the run. */
  predicate Existed(first: State, s: State, id: Id) {
    id in first.rows || id in s.issued - first.issued
  }

  /** Expiry notices whose event is not yet in the log, the oldest first. */
  function Unreported(s: State): seq<Notice> {
    (if s.reporting.Some? then [s.reporting.value] else [])
    + s.channel
    + (if s.lease.Sending? then s.lease.batch else [])
  }

  function Ids(notices: seq<Notice>): set<Id> {
    set n | n in notices :: n.id
  }

  predicate Distinct(notices: seq<Notice>) {
    forall i, j :: 0 <= i < j < |notices| ==> notices[i].id != notices[j].id
  }

  /** Reservation `id` has expired, and the log does not say so yet. */
  predicate Noticed(s: State, id: Id) {
    id in Ids(Unreported(s))
  }

  ghost predicate LogExplainsRow(first: State, s: State, id: Id) {
    var believed := Believed(s.log, id, StartState(first, id));
    && Chained(s.log, id, StartState(first, id))
    && (if Noticed(s, id) then believed == Some(Active) && (id in s.rows ==> s.rows[id].state.Released?)
        else
          && (id in s.rows ==> believed == Some(s.rows[id].state))
          && (id !in s.rows && Existed(first, s, id) ==> believed == Some(Released))
          && (!Existed(first, s, id) ==> believed == None))
  }

  ghost predicate LogExplainsTable(first: State, s: State) {
    forall id :: LogExplainsRow(first, s, id)
  }

  ghost predicate AllChained(first: State, s: State) {
    forall id :: Chained(s.log, id, StartState(first, id))
  }

  /** The row that the call in progress has read is still in the state it read. */
  ghost predicate ReadIsCurrent(s: State) {
    && (s.pc.Updating? ==> s.pc.id in s.rows && s.rows[s.pc.id].state == s.pc.oldState)
    && (s.pc.Releasing? ==> s.pc.id in s.rows && s.rows[s.pc.id].state == s.pc.row.state && !s.pc.row.state.Released?)
  }

  ghost predicate Invariant(first: State, s: State) {
    && PartialIndex.Invariant(s) && first.issued <= s.issued && first.rows.Keys <= first.issued
    && Distinct(Unreported(s)) && (forall id :: Noticed(s, id) ==> Existed(first, s, id))
    && ReadIsCurrent(s)
    && LogExplainsTable(first, s)
  }

  /** The call in progress has read row `id` and not yet written it. */
  predicate UnderRead(s: State, id: Id) {
    (s.pc.Updating? || s.pc.Releasing?) && s.pc.id == id
  }

  /** The purge deletes the row that an update has read and not yet written. */
  ghost predicate PurgesUnderUpdate(cfg: Config, s: State, a: Action) {
    a.PurgeReleased? && s.pc.Updating? && s.pc.id in s.rows && Stale(s.rows[s.pc.id], s.now, cfg.ttl)
  }

  ghost predicate Undisturbed(cfg: Config, s: State, a: Action) {
    && (a.ExpireLeases? ==> forall id <- OverdueIds(s.rows, s.now) :: s.rows[id].state.Active? && !UnderRead(s, id))
    && (a.WriteUpdate? && s.pc.Updating? ==> !Noticed(s, s.pc.id))
    && !PurgesUnderUpdate(cfg, s, a)
  }

  ghost predicate UndisturbedRun(cfg: Config, s: State, acts: seq<Action>)
    requires Legal(cfg, s, acts)
    decreases |acts|
  {
    acts == [] || (Undisturbed(cfg, s, acts[0]) && UndisturbedRun(cfg, Next(cfg, s, acts[0]), acts[1..]))
  }

  // ---------------------------------------------------------------- one event, one step

  lemma OneMoreEvent(log: seq<Event>, e: Event, id: Id, start: Option<RowState>)
    ensures Believed(log + [e], id, start) == if e.id == id then Some(e.newState) else Believed(log, id, start)
    ensures Chained(log + [e], id, start) <==>
            Chained(log, id, start) && (e.id == id ==> e.oldState == Believed(log, id, start))
  {
    assert (log + [e])[..|log|] == log;
  }

  /** A new reservation and its event, at a port without a live row. */
  lemma CommitIsExplained(first: State, s: State, new_: Id, row: Row, id: Id)
    requires Invariant(first, s) && new_ !in s.issued && row.port !in LivePorts(s.rows)
    ensures ReserveTx(s.rows, new_, row).Ok?
    ensures LogExplainsRow(first, s.(rows := ReserveTx(s.rows, new_, row).value, issued := s.issued + {new_},
                                     log := s.log + [Event(new_, row.owner, None, row.state)]), id)
  {
    assert LogExplainsRow(first, s, id);
    PartialIndex.CommitKeepsLive(s.rows, new_, row);
    OneMoreEvent(s.log, Event(new_, row.owner, None, row.state), id, StartState(first, id));
    if id != new_ && id in s.rows && id !in ReserveTx(s.rows, new_, row).value {
      assert s.rows[id].state.Released?;
    }
  }

  /** A write of a state over the state that was read, and its event. */
  lemma WriteIsExplained(first: State, s: State, written: Id, owner: string, state: RowState, id: Id)
    requires Invariant(first, s) && written in s.rows && !Noticed(s, written)
    requires SetState(s.rows, written, state, s.now).Ok?
    ensures LogExplainsRow(first, s.(rows := SetState(s.rows, written, state, s.now).value,
                                     log := s.log + [Event(written, owner, Some(s.rows[written].state), state)]), id)
  {
    assert LogExplainsRow(first, s, id);
    OneMoreEvent(s.log, Event(written, owner, Some(s.rows[written].state), state), id, StartState(first, id));
  }

  /** The states differ in nothing that `LogExplainsRow` looks at but the row, which is as it was, or was
      released and is gone. */
  predicate Unmoved(s: State, s': State, id: Id) {
    && s'.log == s.log && s'.issued == s.issued && Unreported(s') == Unreported(s)
    && (id in s'.rows ==> id in s.rows && s'.rows[id].state == s.rows[id].state)
    && (id in s.rows && id !in s'.rows ==> s.rows[id].state.Released?)
  }

  predicate Emits(a: Action) {
    a.Commit? || a.WriteUpdate? || a.WriteRelease? || a.EmitExpired?
  }

  lemma NoticesStay(cfg: Config, s: State, a: Action)
    requires Enabled(cfg, s, a) && !a.EmitExpired? && !a.ExpireLeases?
    ensures Unreported(Next(cfg, s, a)) == Unreported(s)
  {
    var s' := Next(cfg, s, a);
    if a.SendBatch? {
      assert s.channel + s.lease.batch == s'.channel;
    } else if a.HandleNotice? {
      assert s.channel == [s.channel[0]] + s'.channel;
    } else {
      assert s'.channel == s.channel && s'.reporting == s.reporting;
    }
  }

  lemma SilentSteps(cfg: Config, s: State, a: Action, id: Id)
    requires Enabled(cfg, s, a) && !Emits(a) && !a.ExpireLeases?
    ensures Unmoved(s, Next(cfg, s, a), id)
  {
    NoticesStay(cfg, s, a);
  }

  lemma SilenceIsExplained(first: State, s: State, s': State, id: Id)
    requires LogExplainsRow(first, s, id) && (id in s.rows ==> Existed(first, s, id)) && Unmoved(s, s', id)
    ensures LogExplainsRow(first, s', id)
  {
  }

  /** The batch of an expiry: whose notices it adds. */
  lemma BatchIds(s: State, batch: seq<Notice>)
    requires Reports(batch, s.rows, s.now)
    ensures Ids(batch) == OverdueIds(s.rows, s.now) && Distinct(batch)
  {
    forall id | id in OverdueIds(s.rows, s.now) ensures id in Ids(batch) {
      assert Notice(id, s.rows[id].port) in batch;
    }
  }

  lemma NoticesAfterExpiry(cfg: Config, first: State, s: State, batch: seq<Notice>)
    requires Invariant(first, s) && Enabled(cfg, s, ExpireLeases(batch))
    ensures var s' := Next(cfg, s, ExpireLeases(batch));
            && Unreported(s') == Unreported(s) + batch && Distinct(Unreported(s'))
            && Ids(Unreported(s')) == Ids(Unreported(s)) + OverdueIds(s.rows, s.now)
  {
    BatchIds(s, batch);
    var before, s' := Unreported(s), Next(cfg, s, ExpireLeases(batch));
    assert Unreported(s') == before + batch;
    forall i, j | 0 <= i < j < |before + batch| ensures (before + batch)[i].id != (before + batch)[j].id {
      if i < |before| <= j {
        assert before[i].id in Ids(before) && batch[j - |before|].id in Ids(batch);
        assert LogExplainsRow(first, s, before[i].id);
      }
    }
  }

  lemma ExpiryIsExplained(cfg: Config, first: State, s: State, batch: seq<Notice>, id: Id)
    requires Invariant(first, s) && Enabled(cfg, s, ExpireLeases(batch))
    requires forall i <- OverdueIds(s.rows, s.now) :: s.rows[i].state.Active?
    ensures LogExplainsRow(first, Next(cfg, s, ExpireLeases(batch)), id)
  {
    NoticesAfterExpiry(cfg, first, s, batch);
    assert LogExplainsRow(first, s, id);
    assert Noticed(Next(cfg, s, ExpireLeases(batch)), id) <==> Noticed(s, id) || id in OverdueIds(s.rows, s.now);
  }

  lemma FirstNotice(notices: seq<Notice>)
    requires notices != [] && Distinct(notices)
    ensures Distinct(notices[1..]) && notices[0].id !in Ids(notices[1..])
    ensures Ids(notices) == Ids(notices[1..]) + {notices[0].id}
  {
    assert notices == [notices[0]] + notices[1..];
    forall n | n in notices[1..] ensures n.id != notices[0].id {
      var k :| 0 <= k < |notices| - 1 && notices[1..][k] == n;
      assert notices[k + 1] == n;
    }
  }

  lemma ReportIsExplained(cfg: Config, first: State, s: State, id: Id)
    requires Invariant(first, s) && Enabled(cfg, s, EmitExpired)
    ensures LogExplainsRow(first, Next(cfg, s, EmitExpired), id)
    ensures Unreported(s) != [] && Unreported(Next(cfg, s, EmitExpired)) == Unreported(s)[1..]
  {
    var n, s' := s.reporting.value, Next(cfg, s, EmitExpired);
    assert Unreported(s) == [n] + Unreported(s');
    FirstNotice(Unreported(s));
    assert LogExplainsRow(first, s, id);
    OneMoreEvent(s.log, ExpiryEvent(n), id, StartState(first, id));
  }

  lemma ReadIsNotNoticed(first: State, s: State)
    requires Invariant(first, s) && s.pc.Releasing?
    ensures !Noticed(s, s.pc.id)
  {
    assert LogExplainsRow(first, s, s.pc.id);
  }

  lemma StepKeepsOneRow(cfg: Config, first: State, s: State, a: Action, id: Id)
    requires Invariant(first, s) && Enabled(cfg, s, a) && Undisturbed(cfg, s, a)
    ensures LogExplainsRow(first, Next(cfg, s, a), id)
  {
    PartialIndex.NothingTrips(cfg, s, a);
    if a.Commit? {
      CommitIsExplained(first, s, a.id, NewRow(s.pc.req, s.pc.port, s.now), id);
    } else if a.WriteUpdate? {
      WriteIsExplained(first, s, s.pc.id, s.pc.owner, s.pc.newState, id);
    } else if a.WriteRelease? {
      ReadIsNotNoticed(first, s);
      WriteIsExplained(first, s, s.pc.id, s.pc.row.owner, Released, id);
    } else if a.EmitExpired? {
      ReportIsExplained(cfg, first, s, id);
    } else if a.ExpireLeases? {
      ExpiryIsExplained(cfg, first, s, a.batch, id);
    } else {
      assert LogExplainsRow(first, s, id);
      SilentSteps(cfg, s, a, id);
      SilenceIsExplained(first, s, Next(cfg, s, a), id);
    }
  }

  lemma StepKeepsRead(cfg: Config, s: State, a: Action)
    requires ReadIsCurrent(s) && Enabled(cfg, s, a) && Undisturbed(cfg, s, a)
    ensures ReadIsCurrent(Next(cfg, s, a))
  {
    if a.ExpireLeases? && (s.pc.Updating? || s.pc.Releasing?) {
      assert UnderRead(s, s.pc.id);
    }
  }

  lemma StepKeepsNotices(cfg: Config, first: State, s: State, a: Action)
    requires Invariant(first, s) && Enabled(cfg, s, a)
    ensures Distinct(Unreported(Next(cfg, s, a)))
    ensures forall id :: Noticed(Next(cfg, s, a), id) ==> Existed(first, Next(cfg, s, a), id)
  {
    var s' := Next(cfg, s, a);
    assert s.issued <= s'.issued;
    if a.ExpireLeases? {
      NoticesAfterExpiry(cfg, first, s, a.batch);
    } else if a.EmitExpired? {
      ReportIsExplained(cfg, first, s, "");
      FirstNotice(Unreported(s));
    } else {
      NoticesStay(cfg, s, a);
    }
    forall id | Noticed(s', id) ensures Existed(first, s', id) {
      assert LogExplainsRow(first, s, id);
    }
  }

  lemma StepKeepsLog(cfg: Config, first: State, s: State, a: Action)
    requires Invariant(first, s) && Enabled(cfg, s, a) && Undisturbed(cfg, s, a)
    ensures Invariant(first, Next(cfg, s, a))
  {
    PartialIndex.StepKeepsIndex(cfg, s, a);
    StepKeepsRead(cfg, s, a);
    StepKeepsNotices(cfg, first, s, a);
    forall id ensures LogExplainsRow(first, Next(cfg, s, a), id) {
      StepKeepsOneRow(cfg, first, s, a, id);
    }
  }

  // ---------------------------------------------------------------- every run

  lemma {:induction false} RunsKeepLog(cfg: Config, first: State, s: State, acts: seq<Action>)
    requires Invariant(first, s) && Legal(cfg, s, acts) && UndisturbedRun(cfg, s, acts)
    ensures Invariant(first, Exec(cfg, s, acts))
    decreases |acts|
  {
    if acts != [] {
      StepKeepsLog(cfg, first, s, acts[0]);
      RunsKeepLog(cfg, first, Next(cfg, s, acts[0]), acts[1..]);
    }
  }

  lemma StartIsExplained(s: State)
    requires Started(s) && PartialIndex.OneLiveRowPerPort(s.rows)
    ensures Invariant(s, s)
  {
    assert Unreported(s) == [];
  }

  /** Runs with expiry: every chain holds at every moment, and once the notices are reported the log explains
      every reservation, the missing ones included. */
  lemma EventsFormChains(cfg: Config, s: State, acts: seq<Action>)
    requires Started(s) && PartialIndex.OneLiveRowPerPort(s.rows)
    requires Legal(cfg, s, acts) && UndisturbedRun(cfg, s, acts)
    ensures var s' := Exec(cfg, s, acts);
            && AllChained(s, s')
            && LogExplainsTable(s, s')
            && (Unreported(s') == [] ==>
                  forall id :: Existed(s, s', id) ==>
                    Believed(s'.log, id, StartState(s, id))
                    == Some(if id in s'.rows then s'.rows[id].state else Released))
  {
    StartIsExplained(s);
    RunsKeepLog(cfg, s, s, acts);
    var s' := Exec(cfg, s, acts);
    forall id ensures LogExplainsRow(s, s', id) && Chained(s'.log, id, StartState(s, id)) {
    }
  }

  /** No event of `id` from position `i` up to `j`. */
  predicate Silent(log: seq<Event>, id: Id, i: int, j: int) {
    forall k :: 0 <= k < |log| && i <= k < j ==> log[k].id != id
  }

  /** What being chained means for a reader of the log: the first event of a reservation departs from its
      start state, and each later one from where the previous one arrived. */
  lemma {:induction false} ChainedMeansConsecutive(log: seq<Event>, id: Id, start: Option<RowState>, j: nat)
    requires Chained(log, id, start) && j < |log| && log[j].id == id
    ensures Silent(log, id, 0, j) ==> log[j].oldState == start
    ensures forall i :: 0 <= i < j && log[i].id == id && Silent(log, id, i + 1, j) ==>
              log[j].oldState == Some(log[i].newState)
    decreases |log|
  {
    var n := |log| - 1;
    var head := log[..n];
    assert forall i :: 0 <= i <= j && Silent(log, id, i, j) ==> Silent(head, id, i, j);
    if j < n {
      ChainedMeansConsecutive(head, id, start, j);
    } else {
      BelievedIsLatest(head, id, start);
    }
  }

  lemma BelievedIsLatest(log: seq<Event>, id: Id, start: Option<RowState>)
    ensures Silent(log, id, 0, |log|) ==> Believed(log, id, start) == start
    ensures forall i :: 0 <= i < |log| && log[i].id == id && Silent(log, id, i + 1, |log|) ==>
              Believed(log, id, start) == Some(log[i].newState)
  {
    if Silent(log, id, 0, |log|) {
      BelievedOnceSilent(log, id, start, -1);
    }
    forall i | 0 <= i < |log| && log[i].id == id && Silent(log, id, i + 1, |log|)
      ensures Believed(log, id, start) == Some(log[i].newState)
    {
      BelievedOnceSilent(log, id, start, i);
    }
  }

  lemma {:induction false} BelievedOnceSilent(log: seq<Event>, id: Id, start: Option<RowState>, i: int)
    requires -1 <= i < |log| && (i >= 0 ==> log[i].id == id) && Silent(log, id, i + 1, |log|)
    ensures Believed(log, id, start) == if i >= 0 then Some(log[i].newState) else start
    decreases |log|
  {
    var n := |log| - 1;
    if i < n {
      BelievedOnceSilent(log[..n], id, start, i);
    }
  }

  // ---------------------------------------------------------------- where the claim stops

  function ReportsOf(notices: seq<Notice>): seq<Event> {
    seq(|notices|, i requires 0 <= i < |notices| => ExpiryEvent(notices[i]))
  }

  /** The handler's steps for `n` notices. */
  function DrainSteps(n: nat): seq<Action> {
    if n == 0 then [] else [HandleNotice, EmitExpired] + DrainSteps(n - 1)
  }

  lemma {:induction false} DrainRun(cfg: Config, s: State)
    requires s.pc.Idle? && s.reporting.None?
    ensures Legal(cfg, s, DrainSteps(|s.channel|))
    ensures var s' := Exec(cfg, s, DrainSteps(|s.channel|));
            s' == s.(channel := [], holds := s'.holds, log := s.log + ReportsOf(s.channel))
    decreases |s.channel|
  {
    if s.channel == [] {
      assert s.log + ReportsOf([]) == s.log;
    } else {
      var s1 := Next(cfg, s, HandleNotice);
      var s2 := Next(cfg, s1, EmitExpired);
      DrainRun(cfg, s2);
      Prepend(cfg, s1, EmitExpired, DrainSteps(|s2.channel|));
      Prepend(cfg, s, HandleNotice, [EmitExpired] + DrainSteps(|s2.channel|));
      assert [HandleNotice] + ([EmitExpired] + DrainSteps(|s2.channel|)) == DrainSteps(|s.channel|);
      assert s.log + ReportsOf(s.channel) == s2.log + ReportsOf(s2.channel);
    }
  }

  /** Reports keep a chain exactly when every reservation reported on was believed active. */
  lemma {:induction false} ReportsChain(log: seq<Event>, notices: seq<Notice>, id: Id, start: Option<RowState>)
    requires Distinct(notices)
    ensures Believed(log + ReportsOf(notices), id, start)
         == if id in Ids(notices) then Some(Released) else Believed(log, id, start)
    ensures Chained(log + ReportsOf(notices), id, start) <==>
            Chained(log, id, start) && (id in Ids(notices) ==> Believed(log, id, start) == Some(Active))
    decreases |notices|
  {
    if notices == [] {
      assert log + ReportsOf(notices) == log;
    } else {
      FirstNotice(notices);
      var e := ExpiryEvent(notices[0]);
      OneMoreEvent(log, e, id, start);
      ReportsChain(log + [e], notices[1..], id, start);
      assert log + ReportsOf(notices) == log + [e] + ReportsOf(notices[1..]);
    }
  }

  /** The statement that completes the call in progress. */
  function CallRest(pc: BrokerPc): seq<Action> {
    match pc
    case Updating(_, _, _, _) => [WriteUpdate]
    case Releasing(_, _) => [WriteRelease]
    case _ => []
  }

  function StateWritten(pc: BrokerPc): RowState
    requires pc.Updating? || pc.Releasing?
  {
    if pc.Updating? then pc.newState else Released
  }

  /** The state of row `id` once the overdue rows are released and the call in progress is complete. */
  function StateAfter(s: State, id: Id): RowState
    requires id in s.rows
  {
    if UnderRead(s, id) then StateWritten(s.pc)
    else if Overdue(s.rows[id], s.now) then Released else s.rows[id].state
  }

  /** `s2` is what `s1`, the state after the expiry in `s`, becomes then. */
  ghost predicate Completes(s: State, s1: State, s2: State) {
    && s2 == s1.(pc := Idle, holds := s2.holds, rows := s2.rows, log := s2.log)
    && s2.rows.Keys == s.rows.Keys
    && (forall id :: id in s.rows ==> s2.rows[id].state == StateAfter(s, id))
    && CallLogged(s, s2.log)
  }

  ghost predicate CallLogged(s: State, log: seq<Event>) {
    if s.pc.Updating? || s.pc.Releasing? then
      exists owner :: s.pc.id in s.rows
        && log == s.log + [Event(s.pc.id, owner, Some(s.rows[s.pc.id].state), StateWritten(s.pc))]
    else log == s.log
  }

  lemma RestRun(cfg: Config, first: State, s: State, batch: seq<Notice>)
    requires Invariant(first, s) && Enabled(cfg, s, ExpireLeases(batch))
    requires s.pc.Idle? || s.pc.Updating? || s.pc.Releasing?
    ensures var s1 := Next(cfg, s, ExpireLeases(batch));
            Legal(cfg, s1, CallRest(s.pc)) && Completes(s, s1, Exec(cfg, s1, CallRest(s.pc)))
  {
    var s1 := Next(cfg, s, ExpireLeases(batch));
    PartialIndex.StepKeepsIndex(cfg, s, ExpireLeases(batch));
    if s.pc.Updating? {
      PartialIndex.NothingTrips(cfg, s1, WriteUpdate);
      OneStep(cfg, s1, WriteUpdate);
      UpdateCompletes(cfg, s, s1);
    } else if s.pc.Releasing? {
      PartialIndex.NothingTrips(cfg, s1, WriteRelease);
      OneStep(cfg, s1, WriteRelease);
      ReleaseCompletes(cfg, s, s1);
    }
  }

  lemma UpdateCompletes(cfg: Config, s: State, s1: State)
    requires s.pc.Updating? && ReadIsCurrent(s) && s1 == s.(rows := Expire(s.rows, s.now), lease := s1.lease)
    requires !Trips(s1, WriteUpdate)
    ensures Completes(s, s1, Next(cfg, s1, WriteUpdate))
  {
    assert Next(cfg, s1, WriteUpdate).log
        == s.log + [Event(s.pc.id, s.pc.owner, Some(s.rows[s.pc.id].state), StateWritten(s.pc))];
  }

  lemma ReleaseCompletes(cfg: Config, s: State, s1: State)
    requires s.pc.Releasing? && ReadIsCurrent(s) && s1 == s.(rows := Expire(s.rows, s.now), lease := s1.lease)
    requires !Trips(s1, WriteRelease)
    ensures Completes(s, s1, Next(cfg, s1, WriteRelease))
  {
    assert Next(cfg, s1, WriteRelease).log
        == s.log + [Event(s.pc.id, s.pc.row.owner, Some(s.rows[s.pc.id].state), StateWritten(s.pc))];
  }

  /** What the log says of one reservation once the call is complete and the batch reported. */
  lemma CallAndReports(first: State, s: State, log: seq<Event>, batch: seq<Notice>, id: Id)
    requires LogExplainsRow(first, s, id) && !Noticed(s, id) && ReadIsCurrent(s) && CallLogged(s, log)
    requires Distinct(batch) && (id in Ids(batch) ==> id in s.rows)
    ensures var start := StartState(first, id);
            && Believed(log + ReportsOf(batch), id, start)
               == (if id in Ids(batch) then Some(Released)
                   else if UnderRead(s, id) then Some(StateWritten(s.pc)) else Believed(s.log, id, start))
            && (Chained(log + ReportsOf(batch), id, start) <==> (id in Ids(batch) ==> ChainSurvives(s, id)))
  {
    var start := StartState(first, id);
    ReportsChain(log, batch, id, start);
    if s.pc.Updating? || s.pc.Releasing? {
      var owner :| log == s.log + [Event(s.pc.id, owner, Some(s.rows[s.pc.id].state), StateWritten(s.pc))];
      OneMoreEvent(s.log, Event(s.pc.id, owner, Some(s.rows[s.pc.id].state), StateWritten(s.pc)), id, start);
    }
  }

  function ExpirySteps(pc: BrokerPc, batch: seq<Notice>): seq<Action> {
    [ExpireLeases(batch)] + CallRest(pc) + (if batch == [] then [] else [SendBatch]) + DrainSteps(|batch|)
  }

  lemma ExpiryRun(cfg: Config, first: State, s: State, batch: seq<Notice>) returns (s2: State)
    requires Invariant(first, s) && Unreported(s) == [] && Enabled(cfg, s, ExpireLeases(batch))
    requires s.pc.Idle? || s.pc.Updating? || s.pc.Releasing?
    ensures Completes(s, Next(cfg, s, ExpireLeases(batch)), s2)
    ensures Legal(cfg, s, ExpirySteps(s.pc, batch))
    ensures var s' := Exec(cfg, s, ExpirySteps(s.pc, batch));
            && Unreported(s') == [] && s'.rows == s2.rows && s'.issued == s.issued
            && s'.log == s2.log + ReportsOf(batch)
  {
    var s1 := Next(cfg, s, ExpireLeases(batch));
    RestRun(cfg, first, s, batch);
    s2 := Exec(cfg, s1, CallRest(s.pc));
    Prepend(cfg, s, ExpireLeases(batch), CallRest(s.pc));
    var acts := [ExpireLeases(batch)] + CallRest(s.pc);
    assert s.channel == [] && s.reporting.None?;
    if batch == [] {
      DrainRun(cfg, s2);
      LegalConcat(cfg, s, acts, DrainSteps(0));
      assert acts + [] + DrainSteps(0) == acts + DrainSteps(0);
    } else {
      OneStep(cfg, s2, SendBatch);
      var s3 := Next(cfg, s2, SendBatch);
      LegalConcat(cfg, s, acts, [SendBatch]);
      assert s3.channel == batch;
      DrainRun(cfg, s3);
      LegalConcat(cfg, s, acts + [SendBatch], DrainSteps(|batch|));
    }
  }

  /** The chain of an overdue row survives its expiry: it was active, and no call had read it; or an update had
      read it, and writes "active". */
  predicate ChainSurvives(s: State, id: Id)
    requires id in s.rows
  {
    if UnderRead(s, id) then StateWritten(s.pc).Active? else s.rows[id].state.Active?
  }

  /** For any batch, and with a read under way or none: once the call in progress is complete and all notices are
      reported, the log explains the whole table exactly when every overdue row was active and not under a
      read; and every chain holds exactly when the chain of every overdue row survives. */
  lemma ExpiryChainIsExact(cfg: Config, first: State, s: State, batch: seq<Notice>)
    requires Invariant(first, s) && Unreported(s) == [] && Enabled(cfg, s, ExpireLeases(batch))
    requires s.pc.Idle? || s.pc.Updating? || s.pc.Releasing?
    ensures Legal(cfg, s, ExpirySteps(s.pc, batch))
    ensures var s' := Exec(cfg, s, ExpirySteps(s.pc, batch));
            var overdue := OverdueIds(s.rows, s.now);
            && (LogExplainsTable(first, s') <==> forall id <- overdue :: s.rows[id].state.Active? && !UnderRead(s, id))
            && (AllChained(first, s') <==> forall id <- overdue :: ChainSurvives(s, id))
  {
    var s2 := ExpiryRun(cfg, first, s, batch);
    var s' := Exec(cfg, s, ExpirySteps(s.pc, batch));
    forall id
      ensures LogExplainsRow(first, s', id) <==>
                (id in OverdueIds(s.rows, s.now) ==> s.rows[id].state.Active? && !UnderRead(s, id))
      ensures Chained(s'.log, id, StartState(first, id)) <==>
                (id in OverdueIds(s.rows, s.now) ==> ChainSurvives(s, id))
    {
      OneRowAfterExpiry(cfg, first, s, s2, s', batch, id);
    }
  }

  lemma OneRowAfterExpiry(cfg: Config, first: State, s: State, s2: State, s': State, batch: seq<Notice>, id: Id)
    requires Invariant(first, s) && Unreported(s) == [] && Enabled(cfg, s, ExpireLeases(batch))
    requires s.pc.Idle? || s.pc.Updating? || s.pc.Releasing?
    requires Completes(s, Next(cfg, s, ExpireLeases(batch)), s2)
    requires Unreported(s') == [] && s'.rows == s2.rows && s'.issued == s.issued && s'.log == s2.log + ReportsOf(batch)
    ensures LogExplainsRow(first, s', id) <==>
              (id in OverdueIds(s.rows, s.now) ==> s.rows[id].state.Active? && !UnderRead(s, id))
    ensures Chained(s'.log, id, StartState(first, id)) <==>
              (id in OverdueIds(s.rows, s.now) ==> ChainSurvives(s, id))
  {
    BatchIds(s, batch);
    assert LogExplainsRow(first, s, id);
    CallAndReports(first, s, s2.log, batch, id);
  }

  /** An update whose row has expired and is not yet reported breaks the chain of that row, and only such an
      update does. */
  lemma NoticedUpdateIsExact(cfg: Config, first: State, s: State)
    requires Invariant(first, s) && Enabled(cfg, s, WriteUpdate)
    ensures Chained(Next(cfg, s, WriteUpdate).log, s.pc.id, StartState(first, s.pc.id)) <==> !Noticed(s, s.pc.id)
  {
    PartialIndex.NothingTrips(cfg, s, WriteUpdate);
    assert LogExplainsRow(first, s, s.pc.id);
    OneMoreEvent(s.log, Event(s.pc.id, s.pc.owner, Some(s.pc.oldState), s.pc.newState), s.pc.id,
                 StartState(first, s.pc.id));
  }

  /** An update that is overtaken by the purge of its row announces a reservation that is gone; the log is
      then wrong about it, unless the state announced is "released" and the row's expiry is reported. */
  lemma PurgedUpdateIsExact(cfg: Config, first: State, s: State)
    requires Invariant(first, s) && Enabled(cfg, s, PurgeReleased) && PurgesUnderUpdate(cfg, s, PurgeReleased)
    ensures var s1 := Next(cfg, s, PurgeReleased);
            Enabled(cfg, s1, WriteUpdate)
            && (LogExplainsRow(first, Next(cfg, s1, WriteUpdate), s.pc.id) <==>
                  s.pc.newState.Released? && !Noticed(s, s.pc.id))
  {
    assert LogExplainsRow(first, s, s.pc.id);
    OneMoreEvent(s.log, Event(s.pc.id, s.pc.owner, Some(s.pc.oldState), s.pc.newState), s.pc.id,
                 StartState(first, s.pc.id));
  }
}
