/** The connection limit of a forwarding task. The accept loop reads the counter and raises it in separate
    steps; sessions that finish lower it at any time. */
module Connections {
  type Session = nat

  /** Where the accept loop is. */
  datatype LoopPc =
    | Accepting
    | Accepted                    // a connection is in hand
    | Checked(current: int)       // the counter has been read
    | Counted                     // the counter has been raised, the session not yet started
    | Stopped

  datatype State = State(counter: int, running: set<Session>, started: nat, finished: nat, pc: LoopPc)

  datatype Action =
    | Accept
    | Load
    | Decide
    | Spawn(session: Session)
    | Finish(done: Session)
    | Shutdown

  ghost predicate Enabled(s: State, a: Action) {
    match a
    case Accept => s.pc.Accepting?
    case Load => s.pc.Accepted?
    case Decide => s.pc.Checked?
    case Spawn(session) => s.pc.Counted? && session !in s.running
    case Finish(session) => session in s.running
    case Shutdown => s.pc.Accepting?
  }

  function Next(max: nat, s: State, a: Action): State
    requires Enabled(s, a)
  {
    match a
    case Accept => s.(pc := Accepted)
    case Load => s.(pc := Checked(s.counter))
    case Decide => if s.pc.current >= max then s.(pc := Accepting) else s.(pc := Counted, counter := s.counter + 1)
    case Spawn(session) => s.(pc := Accepting, running := s.running + {session}, started := s.started + 1)
    case Finish(session) => s.(running := s.running - {session}, counter := s.counter - 1, finished := s.finished + 1)
    case Shutdown => s.(pc := Stopped)
  }

  ghost predicate Legal(max: nat, s: State, acts: seq<Action>)
    decreases |acts|
  {
    acts == [] || (Enabled(s, acts[0]) && Legal(max, Next(max, s, acts[0]), acts[1..]))
  }

  ghost function Exec(max: nat, s: State, acts: seq<Action>): State
    requires Legal(max, s, acts)
    decreases |acts|
  {
    if acts == [] then s else Exec(max, Next(max, s, acts[0]), acts[1..])
  }

  /** Between the read and the raise the counter can only have fallen, so the stale read errs on the safe side. */
  ghost predicate Invariant(max: nat, s: State) {
    && s.counter == |s.running| + (if s.pc.Counted? then 1 else 0)
    && s.counter <= max
    && |s.running| == s.started - s.finished
    && (s.pc.Checked? ==> s.counter <= s.pc.current)
  }

  const START := State(0, {}, 0, 0, Accepting)

  lemma StepKeepsCount(max: nat, s: State, a: Action)
    requires Invariant(max, s) && Enabled(s, a)
    ensures Invariant(max, Next(max, s, a))
  {
    if a.Finish? {
      assert |s.running - {a.done}| == |s.running| - 1;
    }
  }

  lemma {:induction false} RunsKeepCount(max: nat, s: State, acts: seq<Action>)
    requires Invariant(max, s) && Legal(max, s, acts)
    ensures Invariant(max, Exec(max, s, acts))
    decreases |acts|
  {
    if acts != [] {
      StepKeepsCount(max, s, acts[0]);
      RunsKeepCount(max, Next(max, s, acts[0]), acts[1..]);
    }
  }

  /** In every interleaving the counter is the number of sessions started and not finished, plus the one about
      to start; it never exceeds the limit and never goes below zero; and a connection is refused only when
      the limit was reached at the read. */
  lemma CounterCountsSessions(max: nat, acts: seq<Action>)
    requires Legal(max, START, acts)
    ensures var s := Exec(max, START, acts);
            && s.counter == s.started - s.finished + (if s.pc.Counted? then 1 else 0)
            && 0 <= s.counter <= max
            && |s.running| <= max
            && (Enabled(s, Load) && Next(max, s, Load).pc.current >= max ==> |s.running| == max)
  {
    RunsKeepCount(max, START, acts);
  }

  /** While the loop holds what it has read, only sessions can end. */
  lemma {:induction false} OnlyFinishesComeBetween(max: nat, s: State, acts: seq<Action>)
    requires s.pc.Checked? && Legal(max, s, acts) && Decide !in acts
    ensures Exec(max, s, acts).pc == s.pc
    decreases |acts|
  {
    if acts != [] {
      assert acts[0] in acts && forall a <- acts[1..] :: a in acts;
      OnlyFinishesComeBetween(max, Next(max, s, acts[0]), acts[1..]);
    }
  }

  /** Whatever happens between the read and the decision, the connection is counted exactly when fewer sessions
      than the limit were running at the read, and dropped otherwise. */
  lemma DecisionIsExact(max: nat, before: seq<Action>, between: seq<Action>)
    requires Legal(max, START, before) && Enabled(Exec(max, START, before), Load) && Decide !in between
    requires Legal(max, Next(max, Exec(max, START, before), Load), between)
    ensures var read := Exec(max, START, before);
            var s := Exec(max, Next(max, read, Load), between);
            Enabled(s, Decide)
            && (if |read.running| < max then Next(max, s, Decide) == s.(pc := Counted, counter := s.counter + 1)
                else Next(max, s, Decide) == s.(pc := Accepting))
  {
    RunsKeepCount(max, START, before);
    OnlyFinishesComeBetween(max, Next(max, Exec(max, START, before), Load), between);
  }

  /** A session may end at any time. */
  lemma SessionsEndAtAnyTime(s: State, session: Session)
    ensures session in s.running <==> Enabled(s, Finish(session))
  {
  }

  // ---------------------------------------------------------------- the loop itself

  class ForwardingTask {
    const max: nat
    var activeConnections: int
    ghost var running: set<Session>

    ghost predicate Valid()
      reads this
    {
      activeConnections == |running| && activeConnections <= max
    }

    constructor (max: nat)
      ensures Valid() && this.max == max && running == {}
    {
      this.max, activeConnections, running := max, 0, {};
    }

    /** One accepted connection: refused at the limit, otherwise counted and started as session `session`. */
    method Accept(session: Session) returns (accepted: bool)
      requires Valid() && session !in running
      modifies this
      ensures Valid() && (accepted <==> |old(running)| < max)
      ensures running == if accepted then old(running) + {session} else old(running)
    {
      var current := activeConnections;
      if current >= max {
        return false;
      }
      activeConnections := activeConnections + 1;
      running := running + {session};
      return true;
    }

    /** A session ends. */
    method Finish(session: Session)
      requires Valid() && session in running
      modifies this
      ensures Valid() && running == old(running) - {session}
    {
      activeConnections := activeConnections - 1;
      running := running - {session};
    }
  }
}
