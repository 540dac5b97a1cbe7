/** The tunnel manager's object. Its methods move the map and the health records exactly as the steps of
    module Tunnels do; a whole uninterrupted round of reconnections is one of that module's runs. */
module TunnelManager {
  import opened Wrappers
  import opened Tunnels

  datatype TunnelError = VmNotConfigured(vm: string) | SshConnectionFailed(failedVm: string)

  /** An entry after an attempt: with the new task, if there is one. */
  function Installed(e: Entry, outcome: Option<nat>): Entry {
    match outcome
    case None => e
    case Some(task) => e.(task := task)
  }

  /** A health record after an attempt: one more is counted and slept for, and success revives the tunnel. */
  function Counted(r: Record, attempt: nat, outcome: Option<nat>): Record {
    r.(reconnects := r.reconnects + 1, slept := r.slept + BackoffSeconds(attempt), alive := r.alive || outcome.Some?)
  }

  /** A tunnel that is to be reconnected: dead, with attempts left, and its record free. */
  predicate IsDue(cfg: Config, locked: set<Handle>, e: Entry, r: Record) {
    !r.alive && r.reconnects < cfg.maxAttempts && e.health !in locked
  }

  /** The candidates are exactly the tunnels that are due, each with its record's count. */
  ghost predicate FreeCandidates(cfg: Config, locked: set<Handle>, s: State, cs: seq<Candidate>) {
    && (forall c <- cs :: IsCandidate(cfg, s, c) && c.health !in locked)
    && (forall id :: id in s.tunnels && s.tunnels[id].health in s.records
                     && IsDue(cfg, locked, s.tunnels[id], s.records[s.tunnels[id].health]) ==>
          exists c :: c in cs && c.id == id)
  }

  /** Tunnel `id` has come out of an attempt. */
  ghost predicate IsAttempted(connect: Candidate -> Option<nat>, t: map<TunnelId, Entry>, r: map<Handle, Record>,
                              t': map<TunnelId, Entry>, r': map<Handle, Record>, id: TunnelId)
    requires id in t && t[id].health in r
  {
    var e, h := t[id], r[t[id].health];
    var outcome := connect(Candidate(id, e.params, e.health, h.reconnects));
    && id in t' && e.health in r'
    && t'[id] == Installed(e, outcome) && r'[e.health] == Counted(h, h.reconnects, outcome)
  }

  ghost predicate IsUntouched(t: map<TunnelId, Entry>, r: map<Handle, Record>,
                              t': map<TunnelId, Entry>, r': map<Handle, Record>, id: TunnelId)
    requires id in t && t[id].health in r
  {
    id in t' && t[id].health in r' && t'[id] == t[id] && r'[t[id].health] == r[t[id].health]
  }

  /** Each tunnel has a record of its own. */
  ghost predicate OwnRecords(cfg: Config, t: map<TunnelId, Entry>, r: map<Handle, Record>) {
    forall id :: id in t ==> t[id].params.vm in cfg.vms && t[id].health in r && r[t[id].health].tunnel == id
  }

  /** The tunnels of `done` have come out of an attempt, the others are as they were. */
  ghost predicate PartlyAttempted(connect: Candidate -> Option<nat>, t: map<TunnelId, Entry>, r: map<Handle, Record>,
                                  t': map<TunnelId, Entry>, r': map<Handle, Record>, done: set<TunnelId>)
    requires forall id :: id in t ==> t[id].health in r
  {
    forall id :: id in t ==>
      if id in done then IsAttempted(connect, t, r, t', r', id) else IsUntouched(t, r, t', r', id)
  }

  lemma OneMoreAttempted(cfg: Config, connect: Candidate -> Option<nat>,
                         t: map<TunnelId, Entry>, r: map<Handle, Record>,
                         t1: map<TunnelId, Entry>, r1: map<Handle, Record>, done: set<TunnelId>, c: Candidate)
    requires OwnRecords(cfg, t, r) && PartlyAttempted(connect, t, r, t1, r1, done)
    requires c.id in t && c.id !in done
    requires c == Candidate(c.id, t[c.id].params, t[c.id].health, r[t[c.id].health].reconnects)
    ensures c.id in t1 && c.health in r1
    ensures PartlyAttempted(connect, t, r, t1[c.id := Installed(t1[c.id], connect(c))],
                            r1[c.health := Counted(r1[c.health], c.attempt, connect(c))], done + {c.id})
  {
    assert IsUntouched(t, r, t1, r1, c.id);
    var t2 := t1[c.id := Installed(t1[c.id], connect(c))];
    var r2 := r1[c.health := Counted(r1[c.health], c.attempt, connect(c))];
    forall id | id in t
      ensures if id in done + {c.id} then IsAttempted(connect, t, r, t2, r2, id) else IsUntouched(t, r, t2, r2, id)
    {
      if id != c.id {
        assert t[id].health != c.health;
        assert if id in done then IsAttempted(connect, t, r, t1, r1, id) else IsUntouched(t, r, t1, r1, id);
      }
    }
  }

  class Manager {
    const cfg: Config
    var tunnels: map<TunnelId, Entry>
    var records: map<Handle, Record>

    constructor (cfg: Config)
      ensures this.cfg == cfg && tunnels == map[] && records == map[]
    {
      this.cfg, tunnels, records := cfg, map[], map[];
    }

    ghost predicate Shows(s: State)
      reads this
    {
      s.tunnels == tunnels && s.records == records
    }

    /** Connect and spawn the forwarding task: `connected` says whether that succeeds, `handle` is the new
        health record and `task` the new task. */
    method StartTunnel(id: TunnelId, params: Params, connected: bool, handle: Handle, task: nat, ghost s: State)
      returns (r: Result<(), TunnelError>)
      requires Shows(s) && handle !in records
      modifies this
      ensures Shows(Next(cfg, s, Start(id, params, connected, handle, task)))
      ensures r == if params.vm !in cfg.vms then Err(VmNotConfigured(params.vm))
                   else if !connected then Err(SshConnectionFailed(params.vm)) else Ok(())
      ensures tunnels == if r.Ok? then old(tunnels)[id := Entry(handle, params, task)] else old(tunnels)
      ensures records == if r.Ok? then old(records)[handle := Record(id, true, 0, 0)] else old(records)
    {
      if params.vm !in cfg.vms {
        return Err(VmNotConfigured(params.vm));
      }
      if !connected {
        return Err(SshConnectionFailed(params.vm));
      }
      records := records[handle := Record(id, true, 0, 0)];
      tunnels := tunnels[id := Entry(handle, params, task)];
      return Ok(());
    }

    /** Remove the entry and tell its task to stop; `stopped` is that task. */
    method Stop(id: TunnelId, ghost s: State) returns (stopped: Option<nat>)
      requires Shows(s)
      modifies this
      ensures Shows(Next(cfg, s, StopTunnel(id)))
      ensures stopped == if id in old(tunnels) then Some(old(tunnels)[id].task) else None
      ensures tunnels == old(tunnels) - {id} && records == old(records)
    {
      stopped := None;
      if id in tunnels {
        stopped := Some(tunnels[id].task);
        tunnels := tunnels - {id};
      }
    }

    /** The candidates for reconnection: every dead tunnel with attempts left whose record is not locked. */
    method Candidates(locked: set<Handle>, ghost s: State) returns (cs: seq<Candidate>)
      requires Shows(s)
      ensures AreCandidates(cfg, s, cs) && FreeCandidates(cfg, locked, s, cs)
    {
      cs := [];
      var ids := tunnels.Keys;
      while ids != {}
        invariant ids <= tunnels.Keys
        invariant forall c <- cs :: IsCandidate(cfg, s, c) && c.id !in ids && c.health !in locked
        invariant forall i, j :: 0 <= i < j < |cs| ==> cs[i].id != cs[j].id
        invariant forall id :: id in tunnels.Keys - ids && tunnels[id].health in records
                               && tunnels[id].health !in locked && !records[tunnels[id].health].alive
                               && records[tunnels[id].health].reconnects < cfg.maxAttempts ==>
                    exists c :: c in cs && c.id == id
        decreases ids
      {
        var id :| id in ids;
        ids := ids - {id};
        var entry := tunnels[id];
        if entry.health in records && entry.health !in locked {
          var h := records[entry.health];
          if !h.alive && h.reconnects < cfg.maxAttempts {
            forall i | 0 <= i < |cs| ensures cs[i].id != id {
              assert cs[i] in cs;
            }
            ghost var before := cs;
            cs := cs + [Candidate(id, entry.params, entry.health, h.reconnects)];
            assert forall c <- before :: c in cs;
            assert cs[|cs| - 1].id == id && cs[|cs| - 1] in cs;
          }
        }
      }
    }

    /** One candidate of `attempt_reconnections`: sleep, read the configuration under the lock, connect without
        it and finish under it again. `outcome` is the new forwarding task, if connecting succeeds. */
    method Attempt(c: Candidate, outcome: Option<nat>, ghost s: State, ghost todo: seq<Candidate>)
      requires Shows(s) && s.pc == Attempting([c] + todo)
      modifies this
      ensures Shows(AfterAttempt(cfg, s, outcome)) && AfterAttempt(cfg, s, outcome).pc == Attempting(todo)
      ensures tunnels.Keys == old(tunnels).Keys
      ensures c.id in old(tunnels) && c.health in old(records) && c.params.vm in cfg.vms ==>
                && tunnels == old(tunnels)[c.id := Installed(old(tunnels)[c.id], outcome)]
                && records == old(records)[c.health := Counted(old(records)[c.health], c.attempt, outcome)]
    {
      assert ([c] + todo)[1..] == todo;
      if c.health in records {
        var slept := records[c.health].slept + BackoffSeconds(c.attempt);
        records := records[c.health := records[c.health].(slept := slept)];
      }
      if c.params.vm !in cfg.vms {
        return;
      }
      if c.id in tunnels && c.health in records {
        var h := records[c.health];
        h := h.(reconnects := h.reconnects + 1);
        if outcome.Some? {
          tunnels := tunnels[c.id := tunnels[c.id].(task := outcome.value)];
          h := h.(alive := true);
        }
        records := records[c.health := h];
      }
    }

    /** `attempt_reconnections` when nothing else runs in between: one of the runs of module Tunnels, whose
        steps are `acts`. `connect` says how each attempt ends. */
    method AttemptReconnections(locked: set<Handle>, connect: Candidate -> Option<nat>, ghost s: State)
      returns (ghost acts: seq<Action>)
      requires Shows(s) && s.pc == Probing([])
      modifies this
      ensures Legal(cfg, s, acts) && Shows(Exec(cfg, s, acts)) && Exec(cfg, s, acts).pc == Attempting([])
      ensures tunnels.Keys == old(tunnels).Keys
      ensures OwnRecords(cfg, old(tunnels), old(records)) ==>
                forall id :: id in old(tunnels) ==>
                  if IsDue(cfg, locked, old(tunnels)[id], old(records)[old(tunnels)[id].health])
                  then IsAttempted(connect, old(tunnels), old(records), tunnels, records, id)
                  else IsUntouched(old(tunnels), old(records), tunnels, records, id)
    {
      var candidates := Candidates(locked, s);
      acts := [] + [Gather(candidates)];
      Extend(cfg, s, [], Gather(candidates));
      ghost var all, done: set<TunnelId>, own := candidates, {}, OwnRecords(cfg, tunnels, records);
      while candidates != []
        invariant Legal(cfg, s, acts) && Shows(Exec(cfg, s, acts)) && Exec(cfg, s, acts).pc == Attempting(candidates)
        invariant tunnels.Keys == old(tunnels).Keys
        invariant Remaining(all, candidates, done)
        invariant own ==> PartlyAttempted(connect, old(tunnels), old(records), tunnels, records, done)
        decreases |candidates|
      {
        var c, rest := candidates[0], candidates[1..];
        assert candidates == [c] + rest && c in all;
        var outcome := connect(c);
        ghost var now := Exec(cfg, s, acts);
        if own {
          OneMoreAttempted(cfg, connect, old(tunnels), old(records), tunnels, records, done, c);
        }
        Attempt(c, outcome, now, rest);
        acts := AttemptIsRun(cfg, s, acts, outcome);
        OneFewer(all, candidates, done);
        done := done + {c.id};
        candidates := rest;
      }
      DoneMeansDue(cfg, locked, s, all, done);
    }

    /** The records to probe: those of all tunnels in the map. */
    method Probes() returns (probes: seq<Handle>)
      ensures forall h :: h in probes <==> exists id :: id in tunnels && tunnels[id].health == h
    {
      probes := [];
      var ids := tunnels.Keys;
      while ids != {}
        invariant ids <= tunnels.Keys
        invariant forall h :: h in probes <==> exists id :: id in tunnels.Keys - ids && tunnels[id].health == h
        decreases ids
      {
        var id :| id in ids;
        ids := ids - {id};
        probes := probes + [tunnels[id].health];
      }
    }

    /** The first half of a round: probe every tunnel and store how the probe ended. */
    method ProbeAll(alive: Handle -> bool, ghost s: State) returns (ghost acts: seq<Action>, ghost done: set<Handle>)
      requires Shows(s) && s.pc.Resting?
      modifies this
      ensures Legal(cfg, s, acts) && Shows(Exec(cfg, s, acts)) && Exec(cfg, s, acts).pc == Probing([])
      ensures tunnels == old(tunnels) && AreProbed(alive, old(records), records, done)
      ensures forall id :: id in tunnels ==> tunnels[id].health in done
    {
      var probes := Probes();
      acts := [] + [TakeProbes(probes)];
      Extend(cfg, s, [], TakeProbes(probes));
      ghost var all := probes;
      done := {};
      while probes != []
        invariant Legal(cfg, s, acts) && Shows(Exec(cfg, s, acts)) && Exec(cfg, s, acts).pc == Probing(probes)
        invariant tunnels == old(tunnels) && AreProbed(alive, old(records), records, done)
        invariant forall h :: h in all ==> h in done || h in probes
        decreases |probes|
      {
        var h := probes[0];
        Extend(cfg, s, acts, Probe(alive(h)));
        acts := acts + [Probe(alive(h))];
        if h in records {
          records := records[h := records[h].(alive := alive(h))];
        }
        assert probes == [h] + probes[1..];
        done := done + {h};
        probes := probes[1..];
      }
    }

    /** One round of `run_health_checks` when nothing else runs in between: probe every tunnel, then attempt the
        reconnections. `alive` says how each probe ends. It too is a run of module Tunnels. */
    method HealthRound(alive: Handle -> bool, locked: set<Handle>, connect: Candidate -> Option<nat>, ghost s: State)
      returns (ghost acts: seq<Action>)
      requires Shows(s) && s.pc.Resting?
      modifies this
      ensures Legal(cfg, s, acts) && Shows(Exec(cfg, s, acts)) && Exec(cfg, s, acts).pc.Resting?
      ensures tunnels.Keys == old(tunnels).Keys
      ensures OwnRecords(cfg, old(tunnels), old(records)) ==>
                forall id :: id in old(tunnels) ==>
                  IsSupervised(cfg, alive, locked, connect, old(tunnels), old(records), tunnels, records, id)
    {
      ghost var first, done := ProbeAll(alive, s);
      ghost var probed, records1 := Exec(cfg, s, first), records;
      ghost var attempts := AttemptReconnections(locked, connect, probed);
      if OwnRecords(cfg, old(tunnels), old(records)) {
        ProbedThenAttempted(cfg, alive, locked, connect, old(tunnels), old(records), records1, tunnels, records, done);
      }
      Concat(cfg, s, first, attempts);
      Extend(cfg, s, first + attempts, Rest);
      acts := first + attempts + [Rest];
    }
  }

  /** In every run each tunnel has a record of its own. */
  lemma RunsOwnRecords(cfg: Config, acts: seq<Action>)
    requires Legal(cfg, STARTED, acts)
    ensures OwnRecords(cfg, Exec(cfg, STARTED, acts).tunnels, Exec(cfg, STARTED, acts).records)
  {
    RunsKeepInvariant(cfg, STARTED, acts);
  }

  /** What a round does to tunnel `id`. A probe that succeeds leaves it alone and marks it alive. A probe that fails
      marks it dead; if it has attempts left and its record is free, one attempt is counted and slept for, and the
      tunnel comes out alive with the new task exactly when the attempt connected. */
  ghost predicate IsSupervised(cfg: Config, alive: Handle -> bool, locked: set<Handle>,
                               connect: Candidate -> Option<nat>,
                               t: map<TunnelId, Entry>, r: map<Handle, Record>,
                               t': map<TunnelId, Entry>, r': map<Handle, Record>, id: TunnelId)
    requires id in t && t[id].health in r
  {
    var e, h := t[id], r[t[id].health];
    && id in t' && e.health in r'
    && (if alive(e.health) then t'[id] == e && r'[e.health] == h.(alive := true)
        else if h.reconnects < cfg.maxAttempts && e.health !in locked then
          var outcome := connect(Candidate(id, e.params, e.health, h.reconnects));
          && r'[e.health] == Record(h.tunnel, outcome.Some?, h.reconnects + 1, h.slept + BackoffSeconds(h.reconnects))
          && t'[id] == (match outcome case None => e case Some(task) => Entry(e.health, e.params, task))
        else t'[id] == e && r'[e.health] == h.(alive := false))
  }

  /** The records of `done` say how their probes ended, the others are as they were. */
  ghost predicate AreProbed(alive: Handle -> bool, r: map<Handle, Record>, r': map<Handle, Record>, done: set<Handle>) {
    && r'.Keys == r.Keys
    && (forall h :: h in r ==> r'[h] == if h in done then r[h].(alive := alive(h)) else r[h])
  }

  lemma ProbedThenAttempted(cfg: Config, alive: Handle -> bool, locked: set<Handle>,
                            connect: Candidate -> Option<nat>,
                            t: map<TunnelId, Entry>, r: map<Handle, Record>, r1: map<Handle, Record>,
                            t': map<TunnelId, Entry>, r': map<Handle, Record>, done: set<Handle>)
    requires OwnRecords(cfg, t, r) && AreProbed(alive, r, r1, done) && forall id :: id in t ==> t[id].health in done
    requires OwnRecords(cfg, t, r1) ==>
               forall id :: id in t ==>
                 if IsDue(cfg, locked, t[id], r1[t[id].health]) then IsAttempted(connect, t, r1, t', r', id)
                 else IsUntouched(t, r1, t', r', id)
    ensures forall id :: id in t ==> IsSupervised(cfg, alive, locked, connect, t, r, t', r', id)
  {
    forall id | id in t ensures IsSupervised(cfg, alive, locked, connect, t, r, t', r', id) {
      assert r1[t[id].health] == r[t[id].health].(alive := alive(t[id].health));
      assert if IsDue(cfg, locked, t[id], r1[t[id].health]) then IsAttempted(connect, t, r1, t', r', id)
             else IsUntouched(t, r1, t', r', id);
    }
  }

  /** The candidates still to treat are the last of all, and `done` are the tunnels of the others. */
  ghost predicate Remaining(all: seq<Candidate>, left: seq<Candidate>, done: set<TunnelId>) {
    && (forall i, j :: 0 <= i < j < |all| ==> all[i].id != all[j].id)
    && |left| <= |all| && left == all[|all| - |left|..]
    && done == set c | c in all[..|all| - |left|] :: c.id
  }

  lemma OneFewer(all: seq<Candidate>, left: seq<Candidate>, done: set<TunnelId>)
    requires Remaining(all, left, done) && left != []
    ensures left[0].id !in done && left[0] in all && Remaining(all, left[1..], done + {left[0].id})
  {
    var k := |all| - |left|;
    assert all[k] == left[0] && all[..k + 1] == all[..k] + [left[0]];
  }

  lemma DoneMeansDue(cfg: Config, locked: set<Handle>, s: State, all: seq<Candidate>, done: set<TunnelId>)
    requires Remaining(all, [], done) && FreeCandidates(cfg, locked, s, all)
    ensures forall id :: id in s.tunnels && s.tunnels[id].health in s.records ==>
              (id in done <==> IsDue(cfg, locked, s.tunnels[id], s.records[s.tunnels[id].health]))
  {
    assert all[..|all|] == all;
  }

  /** The state after the loop's steps for its next candidate. */
  ghost function AfterAttempt(cfg: Config, s: State, outcome: Option<nat>): State
    requires s.pc.Attempting? && s.pc.todo != []
  {
    var read := Next(cfg, Next(cfg, s, Backoff), ReadConfig);
    if read.pc.Connecting? then Next(cfg, read, Finish(outcome)) else read
  }

  lemma AttemptIsRun(cfg: Config, s: State, acts: seq<Action>, outcome: Option<nat>) returns (more: seq<Action>)
    requires Legal(cfg, s, acts) && Exec(cfg, s, acts).pc.Attempting? && Exec(cfg, s, acts).pc.todo != []
    ensures Legal(cfg, s, more) && Exec(cfg, s, more) == AfterAttempt(cfg, Exec(cfg, s, acts), outcome)
  {
    Extend(cfg, s, acts, Backoff);
    more := acts + [Backoff];
    Extend(cfg, s, more, ReadConfig);
    more := more + [ReadConfig];
    if Exec(cfg, s, more).pc.Connecting? {
      Extend(cfg, s, more, Finish(outcome));
      more := more + [Finish(outcome)];
    }
  }

  lemma {:induction false} Extend(cfg: Config, s: State, acts: seq<Action>, a: Action)
    requires Legal(cfg, s, acts) && Enabled(cfg, Exec(cfg, s, acts), a)
    ensures Legal(cfg, s, acts + [a]) && Exec(cfg, s, acts + [a]) == Next(cfg, Exec(cfg, s, acts), a)
    decreases |acts|
  {
    if acts == [] {
      assert acts + [a] == [a] && [a][1..] == [];
    } else {
      Extend(cfg, Next(cfg, s, acts[0]), acts[1..], a);
      assert (acts + [a])[1..] == acts[1..] + [a];
    }
  }

  lemma {:induction false} Concat(cfg: Config, s: State, first: seq<Action>, second: seq<Action>)
    requires Legal(cfg, s, first) && Legal(cfg, Exec(cfg, s, first), second)
    ensures Legal(cfg, s, first + second) && Exec(cfg, s, first + second) == Exec(cfg, Exec(cfg, s, first), second)
    decreases |first|
  {
    if first == [] {
      assert first + second == second;
    } else {
      Concat(cfg, Next(cfg, s, first[0]), first[1..], second);
      assert (first + second)[1..] == first[1..] + second;
    }
  }
}
