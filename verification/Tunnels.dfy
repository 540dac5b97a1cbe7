/** Tunnel supervision: the tunnel manager's map, the shared health records and the health loop, as a step
    system. Starting and stopping tunnels may happen between any two steps of the loop. */
module Tunnels {
  import opened Wrappers

  type TunnelId = string

  type Handle = nat

  datatype Params = Params(vm: string, port: nat, host: string, targetPort: nat)

  /** One active tunnel: its shared health record, its parameters, and the number of its forwarding task. */
  datatype Entry = Entry(health: Handle, params: Params, task: nat)

  /** A health record. `tunnel` and `slept` are for the proofs: whose record it is, and the seconds of
      backoff spent on it. */
  datatype Record = Record(tunnel: TunnelId, alive: bool, reconnects: nat, slept: nat)

  datatype Candidate = Candidate(id: TunnelId, params: Params, health: Handle, attempt: nat)

  /** Where the health loop is. */
  datatype LoopPc =
    | Resting
    | Probing(probes: seq<Handle>)
    | Attempting(todo: seq<Candidate>)
    | Waking(current: Candidate, todo: seq<Candidate>)      // slept, about to read the VM's configuration
    | Connecting(current: Candidate, todo: seq<Candidate>)  // connecting, without the manager's lock

  datatype State = State(tunnels: map<TunnelId, Entry>, records: map<Handle, Record>, pc: LoopPc)

  datatype Config = Config(vms: set<string>, maxAttempts: nat)

  datatype Action =
    | Start(id: TunnelId, params: Params, connected: bool, handle: Handle, task: nat)
    | StopTunnel(id: TunnelId)
    | AcceptFailed(record: Handle)
    | TakeProbes(probes: seq<Handle>)
    | Probe(alive: bool)
    | Gather(candidates: seq<Candidate>)
    | Backoff
    | ReadConfig
    | Finish(outcome: Option<nat>)   // the new forwarding task, if the reconnection succeeded
    | Rest

  /** `1 << attempt.min(5)` */
  function BackoffSeconds(attempt: nat): nat {
    Pow2(if attempt <= 5 then attempt else 5)
  }

  function Pow2(n: nat): nat {
    if n == 0 then 1 else 2 * Pow2(n - 1)
  }

  /** The backoff of the first `n` attempts. */
  function TotalBackoff(n: nat): nat {
    if n == 0 then 0 else TotalBackoff(n - 1) + BackoffSeconds(n - 1)
  }

  predicate IsCandidate(cfg: Config, s: State, c: Candidate) {
    c.id in s.tunnels && c.health in s.records
    && s.tunnels[c.id].health == c.health && s.tunnels[c.id].params == c.params
    && !s.records[c.health].alive && s.records[c.health].reconnects == c.attempt && c.attempt < cfg.maxAttempts
  }

  /** The records of the map's entries, each once; a record somebody else has locked may be missing. */
  ghost predicate AreCandidates(cfg: Config, s: State, cs: seq<Candidate>) {
    && (forall c <- cs :: IsCandidate(cfg, s, c))
    && (forall i, j :: 0 <= i < j < |cs| ==> cs[i].id != cs[j].id)
  }

  ghost predicate Enabled(cfg: Config, s: State, a: Action) {
    match a
    case Start(_, _, _, handle, _) => handle !in s.records
    case StopTunnel(_) => true
    case AcceptFailed(h) => h in s.records
    case TakeProbes(probes) =>
      s.pc.Resting? && forall h <- probes :: exists id :: id in s.tunnels && s.tunnels[id].health == h
    case Probe(_) => s.pc.Probing? && s.pc.probes != []
    case Gather(cs) => s.pc.Probing? && s.pc.probes == [] && AreCandidates(cfg, s, cs)
    case Backoff => s.pc.Attempting? && s.pc.todo != []
    case ReadConfig => s.pc.Waking?
    case Finish(_) => s.pc.Connecting?
    case Rest => s.pc.Attempting? && s.pc.todo == []
  }

  function SetAlive(s: State, h: Handle, alive: bool): State {
    if h in s.records then s.(records := s.records[h := s.records[h].(alive := alive)]) else s
  }

  /** The configuration no longer has the VM of the tunnel being reconnected. */
  predicate MissingVm(cfg: Config, s: State) {
    s.pc.Waking? && s.pc.current.params.vm !in cfg.vms
  }

  function Next(cfg: Config, s: State, a: Action): State
    requires Enabled(cfg, s, a)
  {
    match a
    case Start(id, params, connected, handle, task) =>
      if params.vm in cfg.vms && connected then
        s.(tunnels := s.tunnels[id := Entry(handle, params, task)],
           records := s.records[handle := Record(id, true, 0, 0)])
      else s
    case StopTunnel(id) => s.(tunnels := s.tunnels - {id})
    case AcceptFailed(h) => SetAlive(s, h, false)
    case TakeProbes(probes) => s.(pc := Probing(probes))
    case Probe(alive) => SetAlive(s, s.pc.probes[0], alive).(pc := Probing(s.pc.probes[1..]))
    case Gather(cs) => s.(pc := Attempting(cs))
    case Backoff =>
      var c := s.pc.todo[0];
      var woken := s.(pc := Waking(c, s.pc.todo[1..]));
      if c.health in s.records then
        var slept := s.records[c.health].slept + BackoffSeconds(c.attempt);
        woken.(records := s.records[c.health := s.records[c.health].(slept := slept)])
      else woken
    case ReadConfig =>
      if MissingVm(cfg, s) then s.(pc := Attempting(s.pc.todo)) else s.(pc := Connecting(s.pc.current, s.pc.todo))
    case Finish(outcome) => FinishReconnect(s, s.pc.current, outcome).(pc := Attempting(s.pc.todo))
    case Rest => s.(pc := Resting)
  }

  /** Under the manager's lock: if the tunnel is still there, count the attempt and install the new task. */
  function FinishReconnect(s: State, c: Candidate, outcome: Option<nat>): State {
    if c.id !in s.tunnels || c.health !in s.records then s
    else
      var counted := s.records[c.health].(reconnects := s.records[c.health].reconnects + 1);
      match outcome
      case None => s.(records := s.records[c.health := counted])
      case Some(task) =>
        s.(records := s.records[c.health := counted.(alive := true)],
           tunnels := s.tunnels[c.id := s.tunnels[c.id].(task := task)])
  }

  // ---------------------------------------------------------------- the invariant

  /** The candidates the loop still has to treat, the current one first. */
  function Pending(pc: LoopPc): seq<Candidate> {
    match pc
    case Attempting(todo) => todo
    case Waking(current, todo) => [current] + todo
    case Connecting(current, todo) => [current] + todo
    case _ => []
  }

  /** The record whose backoff has been slept and whose attempt is not yet counted. */
  predicate IsInFlight(pc: LoopPc, h: Handle) {
    (pc.Waking? || pc.Connecting?) && pc.current.health == h
  }

  predicate IsInMap(s: State, h: Handle) {
    h in s.records && s.records[h].tunnel in s.tunnels && s.tunnels[s.records[h].tunnel].health == h
  }

  ghost predicate IsPending(pc: LoopPc, h: Handle) {
    exists c <- Pending(pc) :: c.health == h
  }

  ghost predicate EntriesAgree(cfg: Config, s: State) {
    forall id :: id in s.tunnels ==>
      s.tunnels[id].params.vm in cfg.vms
      && s.tunnels[id].health in s.records && s.records[s.tunnels[id].health].tunnel == id
  }

  ghost predicate CandidatesAgree(cfg: Config, s: State) {
    && (forall c <- Pending(s.pc) ::
          c.params.vm in cfg.vms && c.health in s.records && s.records[c.health].tunnel == c.id
          && s.records[c.health].reconnects == c.attempt && c.attempt < cfg.maxAttempts)
    && (forall i, j :: 0 <= i < j < |Pending(s.pc)| ==> Pending(s.pc)[i].health != Pending(s.pc)[j].health)
  }

  /** What has been slept for a record: exactly its counted attempts as long as it can still be attempted,
      one more while an attempt is under way, and never more than the whole budget. */
  ghost predicate BackoffAgrees(cfg: Config, s: State, h: Handle)
    requires h in s.records
  {
    var r := s.records[h];
    && r.reconnects <= cfg.maxAttempts
    && r.slept <= TotalBackoff(cfg.maxAttempts)
    && (IsInFlight(s.pc, h) ==> r.slept == TotalBackoff(r.reconnects + 1))
    && (!IsInFlight(s.pc, h) && (IsInMap(s, h) || IsPending(s.pc, h)) ==> r.slept == TotalBackoff(r.reconnects))
  }

  ghost predicate Invariant(cfg: Config, s: State) {
    && EntriesAgree(cfg, s)
    && CandidatesAgree(cfg, s)
    && (forall h :: h in s.records ==> BackoffAgrees(cfg, s, h))
  }

  // ---------------------------------------------------------------- one step

  lemma {:induction false} BackoffGrows(n: nat, m: nat)
    requires n <= m
    ensures TotalBackoff(n) <= TotalBackoff(m)
    decreases m
  {
    if n < m {
      BackoffGrows(n, m - 1);
    }
  }

  lemma GatheredAgree(cfg: Config, s: State, cs: seq<Candidate>)
    requires Invariant(cfg, s) && Enabled(cfg, s, Gather(cs))
    ensures Invariant(cfg, Next(cfg, s, Gather(cs)))
  {
    var s' := Next(cfg, s, Gather(cs));
    forall i, j | 0 <= i < j < |cs| ensures cs[i].health != cs[j].health {
      assert cs[i] in cs && cs[j] in cs;
    }
    forall h | h in s'.records ensures BackoffAgrees(cfg, s', h) {
      assert BackoffAgrees(cfg, s, h);
      if IsPending(s'.pc, h) {
        var c :| c in cs && c.health == h;
        assert IsCandidate(cfg, s, c);
      }
    }
  }

  lemma BackoffStep(cfg: Config, s: State)
    requires Invariant(cfg, s) && Enabled(cfg, s, Backoff)
    ensures Invariant(cfg, Next(cfg, s, Backoff))
  {
    var s', c := Next(cfg, s, Backoff), s.pc.todo[0];
    assert Pending(s'.pc) == Pending(s.pc);
    assert c in Pending(s.pc);
    assert EntriesAgree(cfg, s');
    assert CandidatesAgree(cfg, s');
    forall h | h in s'.records ensures BackoffAgrees(cfg, s', h) {
      SleepingKeepsBackoff(cfg, s, h);
    }
  }

  lemma SleepingKeepsBackoff(cfg: Config, s: State, h: Handle)
    requires Invariant(cfg, s) && Enabled(cfg, s, Backoff) && h in s.records
    ensures h in Next(cfg, s, Backoff).records && BackoffAgrees(cfg, Next(cfg, s, Backoff), h)
  {
    var s', c := Next(cfg, s, Backoff), s.pc.todo[0];
    assert Pending(s'.pc) == Pending(s.pc);
    assert c in Pending(s.pc) && IsPending(s.pc, c.health);
    assert BackoffAgrees(cfg, s, h);
    BackoffGrows(c.attempt + 1, cfg.maxAttempts);
  }

  /** The candidates behind the current one have other records. */
  lemma RestIsSeparate(cfg: Config, s: State)
    requires CandidatesAgree(cfg, s) && (s.pc.Waking? || s.pc.Connecting?)
    ensures s.pc.current in Pending(s.pc)
    ensures forall d <- s.pc.todo :: d in Pending(s.pc) && d.health != s.pc.current.health
    ensures forall i, j :: 0 <= i < j < |s.pc.todo| ==> s.pc.todo[i].health != s.pc.todo[j].health
  {
    var all := Pending(s.pc);
    assert all[0] == s.pc.current;
    forall d | d in s.pc.todo ensures d in all && d.health != s.pc.current.health {
      var i :| 0 <= i < |s.pc.todo| && s.pc.todo[i] == d;
      assert all[i + 1] == d;
    }
    forall i, j | 0 <= i < j < |s.pc.todo| ensures s.pc.todo[i].health != s.pc.todo[j].health {
      assert all[i + 1] == s.pc.todo[i] && all[j + 1] == s.pc.todo[j];
    }
  }

  lemma FinishKeepsBackoff(cfg: Config, s: State, outcome: Option<nat>, h: Handle)
    requires Invariant(cfg, s) && Enabled(cfg, s, Finish(outcome)) && h in s.records
    ensures h in Next(cfg, s, Finish(outcome)).records && BackoffAgrees(cfg, Next(cfg, s, Finish(outcome)), h)
  {
    var s', c := Next(cfg, s, Finish(outcome)), s.pc.current;
    RestIsSeparate(cfg, s);
    assert BackoffAgrees(cfg, s, h);
    if h == c.health {
      assert !IsPending(s'.pc, h);
    } else {
      assert IsPending(s'.pc, h) ==> IsPending(s.pc, h);
    }
  }

  lemma FinishStep(cfg: Config, s: State, outcome: Option<nat>)
    requires Invariant(cfg, s) && Enabled(cfg, s, Finish(outcome))
    ensures Invariant(cfg, Next(cfg, s, Finish(outcome)))
  {
    FinishKeepsEntries(cfg, s, outcome);
    FinishKeepsCandidates(cfg, s, outcome);
    forall h | h in s.records
      ensures h in Next(cfg, s, Finish(outcome)).records && BackoffAgrees(cfg, Next(cfg, s, Finish(outcome)), h)
    {
      FinishKeepsBackoff(cfg, s, outcome, h);
    }
  }

  lemma FinishKeepsEntries(cfg: Config, s: State, outcome: Option<nat>)
    requires EntriesAgree(cfg, s) && Enabled(cfg, s, Finish(outcome))
    ensures EntriesAgree(cfg, Next(cfg, s, Finish(outcome)))
    ensures Next(cfg, s, Finish(outcome)).records.Keys == s.records.Keys
  {
  }

  lemma FinishKeepsCandidates(cfg: Config, s: State, outcome: Option<nat>)
    requires CandidatesAgree(cfg, s) && Enabled(cfg, s, Finish(outcome))
    ensures CandidatesAgree(cfg, Next(cfg, s, Finish(outcome)))
  {
    RestIsSeparate(cfg, s);
  }

  lemma ReadConfigStep(cfg: Config, s: State)
    requires Invariant(cfg, s) && Enabled(cfg, s, ReadConfig)
    ensures Invariant(cfg, Next(cfg, s, ReadConfig))
  {
    var s' := Next(cfg, s, ReadConfig);
    RestIsSeparate(cfg, s);
    assert Pending(s'.pc) == Pending(s.pc);
    SamePending(cfg, s, s');
  }

  /** Steps that leave the candidates, the counts and the backoff alone. */
  lemma SamePending(cfg: Config, s: State, s': State)
    requires forall h :: h in s.records ==> BackoffAgrees(cfg, s, h)
    requires Pending(s'.pc) == Pending(s.pc) && (forall h :: IsInFlight(s'.pc, h) <==> IsInFlight(s.pc, h))
    requires s'.records.Keys == s.records.Keys
    requires forall h :: h in s.records ==> s'.records[h].(alive := true) == s.records[h].(alive := true)
    requires forall h :: h in s.records && IsInMap(s', h) ==> IsInMap(s, h)
    ensures forall h :: h in s'.records ==> BackoffAgrees(cfg, s', h)
  {
    forall h | h in s'.records ensures BackoffAgrees(cfg, s', h) {
      assert BackoffAgrees(cfg, s, h);
      assert s'.records[h].(alive := true) == s.records[h].(alive := true);
      assert IsPending(s'.pc, h) <==> IsPending(s.pc, h);
    }
  }

  lemma StartStep(cfg: Config, s: State, a: Action)
    requires Invariant(cfg, s) && Enabled(cfg, s, a) && a.Start?
    ensures Invariant(cfg, Next(cfg, s, a))
  {
    var s' := Next(cfg, s, a);
    forall h | h in s'.records ensures BackoffAgrees(cfg, s', h) {
      if h in s.records {
        assert BackoffAgrees(cfg, s, h);
      } else {
        assert forall c <- Pending(s.pc) :: c.health != h;
      }
    }
  }

  lemma StepKeepsInvariant(cfg: Config, s: State, a: Action)
    requires Invariant(cfg, s) && Enabled(cfg, s, a)
    ensures Invariant(cfg, Next(cfg, s, a))
  {
    match a
    case Start(_, _, _, _, _) => StartStep(cfg, s, a);
    case Gather(cs) => GatheredAgree(cfg, s, cs);
    case Backoff => BackoffStep(cfg, s);
    case Finish(outcome) => FinishStep(cfg, s, outcome);
    case ReadConfig => ReadConfigStep(cfg, s);
    case _ => SamePending(cfg, s, Next(cfg, s, a));
  }

  // ---------------------------------------------------------------- every run

  ghost predicate Legal(cfg: Config, s: State, acts: seq<Action>)
    decreases |acts|
  {
    acts == [] || (Enabled(cfg, s, acts[0]) && Legal(cfg, Next(cfg, s, acts[0]), acts[1..]))
  }

  ghost function Exec(cfg: Config, s: State, acts: seq<Action>): State
    requires Legal(cfg, s, acts)
    decreases |acts|
  {
    if acts == [] then s else Exec(cfg, Next(cfg, s, acts[0]), acts[1..])
  }

  const STARTED := State(map[], map[], Resting)

  lemma {:induction false} RunsKeepInvariant(cfg: Config, s: State, acts: seq<Action>)
    requires Invariant(cfg, s) && Legal(cfg, s, acts)
    ensures Invariant(cfg, Exec(cfg, s, acts))
    decreases |acts|
  {
    if acts != [] {
      StepKeepsInvariant(cfg, s, acts[0]);
      RunsKeepInvariant(cfg, Next(cfg, s, acts[0]), acts[1..]);
    }
  }

  /** In every interleaving of the health loop with starts and stops: no tunnel is reconnected more often
      than allowed, no tunnel costs more backoff than the attempts allowed, and the branch for a VM that has
      vanished from the configuration is never taken. */
  lemma ReconnectionIsBounded(cfg: Config, acts: seq<Action>)
    requires Legal(cfg, STARTED, acts)
    ensures var s := Exec(cfg, STARTED, acts);
            && !MissingVm(cfg, s)
            && (forall id :: id in s.tunnels ==> s.tunnels[id].health in s.records)
            && (forall h :: h in s.records ==>
                  s.records[h].reconnects <= cfg.maxAttempts && s.records[h].slept <= TotalBackoff(cfg.maxAttempts))
  {
    RunsKeepInvariant(cfg, STARTED, acts);
    var s := Exec(cfg, STARTED, acts);
    forall h | h in s.records
      ensures s.records[h].reconnects <= cfg.maxAttempts && s.records[h].slept <= TotalBackoff(cfg.maxAttempts)
    {
      assert BackoffAgrees(cfg, s, h);
    }
    assert s.pc.Waking? ==> s.pc.current == Pending(s.pc)[0] && s.pc.current in Pending(s.pc);
  }

  predicate IsLoopAction(a: Action) {
    !a.Start? && !a.StopTunnel?
  }

  /** A failed accept marks its tunnel dead and changes nothing else; so if attempts are left, the next gathering
      may take it. */
  lemma FailedAcceptsAreGathered(cfg: Config, s: State, id: TunnelId)
    requires id in s.tunnels && s.tunnels[id].health in s.records
    ensures var h := s.tunnels[id].health;
            Enabled(cfg, s, AcceptFailed(h))
            && var s' := Next(cfg, s, AcceptFailed(h));
            && s'.tunnels == s.tunnels && s'.pc == s.pc && s'.records.Keys == s.records.Keys
            && (forall k :: k in s.records && k != h ==> s'.records[k] == s.records[k])
            && (s.records[h].reconnects < cfg.maxAttempts ==>
                  IsCandidate(cfg, s', Candidate(id, s.tunnels[id].params, h, s.records[h].reconnects)))
  {
  }

  /** An attempt ends for a tunnel that is still there: its record counts it, and a new task goes to the entry that is
      there now. For a tunnel that was stopped meanwhile it ends without a trace. */
  lemma AttemptsEndExactly(cfg: Config, s: State, outcome: Option<nat>)
    requires Enabled(cfg, s, Finish(outcome)) && s.pc.current.health in s.records
    ensures var c, s' := s.pc.current, Next(cfg, s, Finish(outcome));
            && s'.tunnels.Keys == s.tunnels.Keys && s'.records.Keys == s.records.Keys
            && (forall id :: id in s.tunnels && id != c.id ==> s'.tunnels[id] == s.tunnels[id])
            && (forall h :: h in s.records && h != c.health ==> s'.records[h] == s.records[h])
            && s'.pc == Attempting(s.pc.todo)
            && (if c.id in s.tunnels then
                  var r, e := s.records[c.health], s.tunnels[c.id];
                  && s'.records[c.health]
                     == Record(r.tunnel, r.alive || outcome.Some?, r.reconnects + 1, r.slept)
                  && s'.tunnels[c.id]
                     == (match outcome case None => e case Some(task) => Entry(e.health, e.params, task))
                else s'.records == s.records)
  {
  }

  /** Starts, stops and failed accepts wait for nobody. */
  lemma ManagerIsNeverBlocked(cfg: Config, s: State, id: TunnelId, params: Params, up: bool, h: Handle, task: nat)
    ensures h !in s.records ==> Enabled(cfg, s, Start(id, params, up, h, task))
    ensures h in s.records ==> Enabled(cfg, s, AcceptFailed(h))
    ensures Enabled(cfg, s, StopTunnel(id))
  {
  }

  /** The loop neither adds nor removes a tunnel, and changes nothing of one but its forwarding task. */
  lemma LoopKeepsTunnels(cfg: Config, s: State, a: Action)
    requires Enabled(cfg, s, a) && IsLoopAction(a)
    ensures Next(cfg, s, a).tunnels.Keys == s.tunnels.Keys
    ensures forall id :: id in s.tunnels ==> Next(cfg, s, a).tunnels[id].(task := 0) == s.tunnels[id].(task := 0)
  {
  }

  /** Five attempts sleep 31 seconds in all; from the sixth on each costs 32. */
  lemma {:induction false} BackoffInClosedForm(n: nat)
    ensures TotalBackoff(n) == if n <= 6 then Pow2(n) - 1 else 63 + 32 * (n - 6)
  {
    if n > 0 {
      BackoffInClosedForm(n - 1);
      assert Pow2(5) == 32 && Pow2(6) == 64 by {
        assert Pow2(1) == 2 && Pow2(2) == 4 && Pow2(3) == 8 && Pow2(4) == 16;
      }
    }
  }
}
