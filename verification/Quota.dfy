/** The owner quota and the one-row-per-target rule, over every interleaved run. */
module Quota {
  import opened Wrappers
  import opened Allocation
  import opened Like
  import opened Owners
  import opened Store
  import opened Protocol
  import opened PortSafety

  /** The live rows of one group of owners. */
  function Group(t: Table, g: string): set<Id> {
    set id | id in t && !t[id].state.Released? && CountPrefix(t[id].owner) == g
  }

  ghost predicate OneRowPerTarget(t: Table) {
    forall i, j :: IsLive(t, i) && IsLive(t, j) && SameTarget(t[i], t[j].owner, t[j].host, t[j].targetPort) ==> i == j
  }

  // ---------------------------------------------------------------- counting

  lemma SubsetSize<T>(a: set<T>, b: set<T>)
    requires a <= b
    ensures |a| <= |b|
  {
    assert b == a + (b - a);
  }

  lemma {:induction false} PortsBelow(a: set<Port>, n: nat)
    requires forall p :: p in a ==> p < n
    ensures |a| <= n
  {
    if n > 0 {
      PortsBelow(a - {n - 1}, n - 1);
    } else {
      assert a == {};
    }
  }

  lemma {:induction false} DistinctPortsBound(t: Table, ids: set<Id>, ports: set<Port>)
    requires OneRowPerPort(t) && forall id :: id in ids ==> id in t && t[id].port in ports
    ensures |ids| <= |ports|
    decreases |ids|
  {
    if ids != {} {
      var id :| id in ids;
      DistinctPortsBound(t, ids - {id}, ports - {t[id].port});
    }
  }

  /** The count of the quota check fits the `u32` it is cast to, because ports are unique. */
  lemma CountFitsU32(t: Table, pattern: string)
    requires OneRowPerPort(t)
    ensures |Selected(t, pattern)| <= 65536 < U32_MODULUS
  {
    DistinctPortsBound(t, Selected(t, pattern), LivePorts(t));
    PortsBelow(LivePorts(t), 65536);
  }

  /** The LIKE count sees every row of the group it is asked about. */
  lemma CountDominatesGroup(t: Table, owner: string)
    ensures Group(t, CountPrefix(owner)) <= Selected(t, PrefixPattern(CountPrefix(owner)))
    ensures |Group(t, CountPrefix(owner))| <= |Selected(t, PrefixPattern(CountPrefix(owner)))|
  {
    forall id | id in Group(t, CountPrefix(owner)) ensures id in Selected(t, PrefixPattern(CountPrefix(owner))) {
      GroupIsCounted(t[id].owner);
    }
    SubsetSize(Group(t, CountPrefix(owner)), Selected(t, PrefixPattern(CountPrefix(owner))));
  }

  lemma QuotaCheckIsSound(cfg: Config, t: Table, owner: string)
    requires OneRowPerPort(t) && !OverLimit(cfg, t, owner)
    ensures |Group(t, CountPrefix(owner))| < cfg.maxPerOwner
  {
    CountFitsU32(t, PrefixPattern(CountPrefix(owner)));
    CountDominatesGroup(t, owner);
  }

  /** The live rows whose owner starts with a text, up to the case of ASCII letters. */
  ghost function LiveStarting(t: Table, text: string): set<Id> {
    set id | id in t && !t[id].state.Released? && PrefixUpToCase(text, t[id].owner)
  }

  /** Who is refused: an owner for whom as many live rows as allowed, or more, belong to owners that start with its
      machine, or with the whole of it if it has none. */
  lemma LimitIsExact(cfg: Config, t: Table, owner: string)
    requires OneRowPerPort(t)
    ensures CountPrefix(owner) == GroupText(owner)
    ensures OverLimit(cfg, t, owner) <==> |LiveStarting(t, GroupText(owner))| >= cfg.maxPerOwner
  {
    GroupsAreNamed(owner);
    var pattern := PrefixPattern(GroupText(owner));
    CountFitsU32(t, pattern);
    forall id | id in t
      ensures Matches(pattern, t[id].owner) <==> PrefixUpToCase(GroupText(owner), t[id].owner)
    {
      PatternSelectsPrefixes(GroupText(owner), t[id].owner);
    }
    assert Selected(t, pattern) == LiveStarting(t, GroupText(owner));
  }

  lemma ShrinkingShrinks(t: Table, u: Table, g: string, pattern: string, owner: string, host: string, targetPort: Port)
    requires Shrinks(t, u)
    ensures |Group(u, g)| <= |Group(t, g)|
    ensures |Selected(u, pattern)| <= |Selected(t, pattern)|
    ensures Duplicates(u, owner, host, targetPort) <= Duplicates(t, owner, host, targetPort)
    ensures OneRowPerTarget(t) ==> OneRowPerTarget(u)
  {
    assert forall id :: id in u && !u[id].state.Released? ==> IsLive(u, id);
    SubsetSize(Group(u, g), Group(t, g));
    SubsetSize(Selected(u, pattern), Selected(t, pattern));
  }

  /** Losing rows never turns a passed quota check into a failed one. */
  lemma LimitIsMonotone(cfg: Config, t: Table, u: Table, owner: string)
    requires OneRowPerPort(t) && OneRowPerPort(u) && Shrinks(t, u) && !OverLimit(cfg, t, owner)
    ensures !OverLimit(cfg, u, owner)
  {
    var pattern := PrefixPattern(CountPrefix(owner));
    CountFitsU32(t, pattern);
    CountFitsU32(u, pattern);
    ShrinkingShrinks(t, u, "", pattern, "", "", 0);
  }

  // ---------------------------------------------------------------- the invariant

  /** `update_state` writes a live state over a released row. */
  ghost predicate Revives(s: State, a: Action) {
    a.WriteUpdate? && s.pc.Updating? && s.pc.id in s.rows
    && s.rows[s.pc.id].state.Released? && !s.pc.newState.Released?
  }

  predicate PassedQuota(pc: BrokerPc) {
    pc.Selecting? || pc.Picking? || pc.Binding? || pc.Committing?
  }

  ghost predicate WithinQuota(s: State, g: string, cap: nat) {
    && |Group(s.rows, g)| <= cap
    && (PassedQuota(s.pc) && CountPrefix(s.pc.req.owner) == g ==> |Group(s.rows, g)| < cap)
  }

  ghost predicate TargetsUnique(s: State) {
    && OneRowPerTarget(s.rows)
    && (PassedQuota(s.pc) || s.pc.Counting? ==>
          Duplicates(s.rows, s.pc.req.owner, s.pc.req.host, s.pc.req.targetPort) == {})
  }

  lemma WriteShrinks(t: Table, id: Id, state: RowState, now: nat)
    requires id in t && t[id].state.Released? ==> state.Released?
    requires SetState(t, id, state, now).Ok?
    ensures Shrinks(t, SetState(t, id, state, now).value)
  {
  }

  lemma StepsShrinkTheTable(cfg: Config, s: State, a: Action)
    requires Safe(s) && Enabled(cfg, s, a) && !a.Commit? && !Revives(s, a)
    ensures Shrinks(s.rows, Next(cfg, s, a).rows)
  {
    match a
    case WriteUpdate =>
      SafeStatesDoNotTrip(cfg, s, a);
      WriteShrinks(s.rows, s.pc.id, s.pc.newState, s.now);
    case WriteRelease =>
      SafeStatesDoNotTrip(cfg, s, a);
      WriteShrinks(s.rows, s.pc.id, Released, s.now);
    case ExpireLeases(_) => CleanupShrinks(s.rows, s.now, cfg.ttl);
    case PurgeReleased => CleanupShrinks(s.rows, s.now, cfg.ttl);
    case _ =>
  }

  lemma CommitAddsOne(t: Table, id: Id, row: Row, g: string)
    requires OneRowPerPort(t) && id !in t && row.port !in LivePorts(t)
    ensures var u := ReserveTx(t, id, row);
            u.Ok? && |Group(u.value, g)| <= |Group(t, g)| + if CountPrefix(row.owner) == g then 1 else 0
  {
    CommitSucceeds(t, id, row);
    OneMoreRow(t, ReserveTx(t, id, row).value, id, g);
  }

  lemma OneMoreRow(t: Table, u: Table, id: Id, g: string)
    requires id in u && forall i :: i in u && i != id ==> i in t && u[i] == t[i]
    ensures |Group(u, g)| <= |Group(t, g)| + if CountPrefix(u[id].owner) == g then 1 else 0
  {
    if CountPrefix(u[id].owner) == g {
      SubsetSize(Group(u, g), Group(t, g) + {id});
    } else {
      SubsetSize(Group(u, g), Group(t, g));
    }
  }

  lemma CommitKeepsTargets(t: Table, id: Id, row: Row)
    requires OneRowPerPort(t) && id !in t && row.port !in LivePorts(t) && OneRowPerTarget(t)
    requires Duplicates(t, row.owner, row.host, row.targetPort) == {}
    ensures ReserveTx(t, id, row).Ok? && OneRowPerTarget(ReserveTx(t, id, row).value)
  {
    CommitSucceeds(t, id, row);
    var u := ReserveTx(t, id, row).value;
    forall i | IsLive(u, i) && i != id
      ensures IsLive(t, i) && u[i] == t[i] && !SameTarget(t[i], row.owner, row.host, row.targetPort)
    {
      assert i !in Duplicates(t, row.owner, row.host, row.targetPort);
    }
  }

  lemma StepKeepsQuota(cfg: Config, s: State, a: Action, g: string, cap: nat)
    requires Safe(s) && WithinQuota(s, g, cap) && cfg.maxPerOwner <= cap
    requires Enabled(cfg, s, a) && !Revives(s, a)
    ensures WithinQuota(Next(cfg, s, a), g, cap)
  {
    if a.Commit? {
      CommitAddsOne(s.rows, a.id, NewRow(s.pc.req, s.pc.port, s.now), g);
    } else {
      StepsShrinkTheTable(cfg, s, a);
      ShrinkingShrinks(s.rows, Next(cfg, s, a).rows, g, "", "", "", 0);
      if PassedQuota(Next(cfg, s, a).pc) {
        RequestHasPassed(cfg, s, a);
      }
    }
  }

  /** The request in progress after a step has passed the owner limit, in this step or before. */
  lemma RequestHasPassed(cfg: Config, s: State, a: Action)
    requires Safe(s) && Enabled(cfg, s, a) && PassedQuota(Next(cfg, s, a).pc)
    ensures s.pc.Counting? || PassedQuota(s.pc)
    ensures Next(cfg, s, a).pc.req == s.pc.req
    ensures PassedQuota(s.pc) || |Group(s.rows, CountPrefix(s.pc.req.owner))| < cfg.maxPerOwner
  {
    if a.CountOwner? {
      QuotaCheckIsSound(cfg, s.rows, s.pc.req.owner);
    }
  }

  lemma StepKeepsTargets(cfg: Config, s: State, a: Action)
    requires Safe(s) && TargetsUnique(s) && Enabled(cfg, s, a) && !Revives(s, a)
    ensures TargetsUnique(Next(cfg, s, a))
  {
    if a.Commit? {
      CommitKeepsTargets(s.rows, a.id, NewRow(s.pc.req, s.pc.port, s.now));
    } else {
      var s' := Next(cfg, s, a);
      StepsShrinkTheTable(cfg, s, a);
      if PassedQuota(s'.pc) || s'.pc.Counting? {
        RequestIsChecked(cfg, s, a);
        ShrinkingShrinks(s.rows, s'.rows, "", "", s'.pc.req.owner, s'.pc.req.host, s'.pc.req.targetPort);
      } else {
        ShrinkingShrinks(s.rows, s'.rows, "", "", "", "", 0);
      }
    }
  }

  /** The request in progress after a step has passed the duplicate check, in this step or before. */
  lemma RequestIsChecked(cfg: Config, s: State, a: Action)
    requires TargetsUnique(s) && Enabled(cfg, s, a)
    requires PassedQuota(Next(cfg, s, a).pc) || Next(cfg, s, a).pc.Counting?
    ensures var req := Next(cfg, s, a).pc.req;
            Duplicates(s.rows, req.owner, req.host, req.targetPort) == {}
  {
  }

  // ---------------------------------------------------------------- every run

  /** No statement of the run writes a live state over a released row. Only VM reservations reach
      `update_state` at all. */
  ghost predicate NoRevival(cfg: Config, s: State, acts: seq<Action>)
    requires Legal(cfg, s, acts)
    decreases |acts|
  {
    acts == [] || (!Revives(s, acts[0]) && NoRevival(cfg, Next(cfg, s, acts[0]), acts[1..]))
  }

  lemma {:induction false} RunsKeepQuota(cfg: Config, s: State, acts: seq<Action>, g: string, cap: nat)
    requires Safe(s) && WithinQuota(s, g, cap) && cfg.maxPerOwner <= cap
    requires Legal(cfg, s, acts) && NoRevival(cfg, s, acts)
    ensures WithinQuota(Exec(cfg, s, acts), g, cap)
    decreases |acts|
  {
    if acts != [] {
      StepKeepsQuota(cfg, s, acts[0], g, cap);
      StepKeepsSafe(cfg, s, acts[0]);
      RunsKeepQuota(cfg, Next(cfg, s, acts[0]), acts[1..], g, cap);
    }
  }

  lemma {:induction false} RunsKeepTargets(cfg: Config, s: State, acts: seq<Action>)
    requires Safe(s) && TargetsUnique(s) && Legal(cfg, s, acts) && NoRevival(cfg, s, acts)
    ensures TargetsUnique(Exec(cfg, s, acts))
    decreases |acts|
  {
    if acts != [] {
      StepKeepsTargets(cfg, s, acts[0]);
      StepKeepsSafe(cfg, s, acts[0]);
      RunsKeepTargets(cfg, Next(cfg, s, acts[0]), acts[1..]);
    }
  }

  /** No group ever holds more live rows than the configured maximum, or than it held at the start if the
      configuration has been lowered since; and no two live rows share owner and target. */
  lemma QuotaHolds(cfg: Config, s: State, acts: seq<Action>, g: string)
    requires Started(s) && OneRowPerPort(s.rows) && Legal(cfg, s, acts) && NoRevival(cfg, s, acts)
    ensures var start := |Group(s.rows, g)|;
            |Group(Exec(cfg, s, acts).rows, g)| <= if start <= cfg.maxPerOwner then cfg.maxPerOwner else start
    ensures OneRowPerTarget(s.rows) ==> OneRowPerTarget(Exec(cfg, s, acts).rows)
  {
    var start := |Group(s.rows, g)|;
    RunsKeepQuota(cfg, s, acts, g, if start <= cfg.maxPerOwner then cfg.maxPerOwner else start);
    if OneRowPerTarget(s.rows) {
      RunsKeepTargets(cfg, s, acts);
    }
  }

  /** What a revival does, exactly: its group grows by one whatever the quota says, and the targets stay
      unique if and only if no live row has taken the target meanwhile. */
  lemma RevivalIsUnchecked(cfg: Config, s: State)
    requires Safe(s) && OneRowPerTarget(s.rows) && Enabled(cfg, s, WriteUpdate) && Revives(s, WriteUpdate)
    ensures var row := s.rows[s.pc.id];
            var s' := Next(cfg, s, WriteUpdate);
            && |Group(s'.rows, CountPrefix(row.owner))| == |Group(s.rows, CountPrefix(row.owner))| + 1
            && (OneRowPerTarget(s'.rows) <==> Duplicates(s.rows, row.owner, row.host, row.targetPort) == {})
  {
    var id, row := s.pc.id, s.rows[s.pc.id];
    WriteSucceeds(s.rows, id, s.pc.newState, s.now);
    var u := Next(cfg, s, WriteUpdate).rows;
    assert u == s.rows[id := row.(state := s.pc.newState, updatedAt := s.now)];
    RevivalAddsOne(s.rows, id, s.pc.newState, s.now);
    RevivalDuplicates(s.rows, id, s.pc.newState, s.now);
  }

  lemma RevivalAddsOne(t: Table, id: Id, state: RowState, now: nat)
    requires id in t && t[id].state.Released? && !state.Released?
    ensures var g, u := CountPrefix(t[id].owner), t[id := t[id].(state := state, updatedAt := now)];
            |Group(u, g)| == |Group(t, g)| + 1
  {
    var g, u := CountPrefix(t[id].owner), t[id := t[id].(state := state, updatedAt := now)];
    assert Group(u, g) == Group(t, g) + {id};
  }

  lemma RevivalDuplicates(t: Table, id: Id, state: RowState, now: nat)
    requires id in t && t[id].state.Released? && !state.Released? && OneRowPerTarget(t)
    ensures var row, u := t[id], t[id := t[id].(state := state, updatedAt := now)];
            OneRowPerTarget(u) <==> Duplicates(t, row.owner, row.host, row.targetPort) == {}
  {
    var row, u := t[id], t[id := t[id].(state := state, updatedAt := now)];
    var dups := Duplicates(t, row.owner, row.host, row.targetPort);
    if dups != {} {
      var other :| other in dups;
      assert IsLive(u, other) && IsLive(u, id) && other != id;
      assert SameTarget(u[other], u[id].owner, u[id].host, u[id].targetPort);
    } else {
      forall i | IsLive(u, i) && i != id ensures !SameTarget(u[i], row.owner, row.host, row.targetPort) {
        assert i !in dups;
      }
    }
  }
}
