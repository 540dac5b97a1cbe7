/** Who an event is about. Every event but the report of an expiry carries the owner of its reservation, as long as
    the row is there and after. */
module Names {
  import opened Wrappers
  import opened Store
  import opened Protocol
  import opened PortSafety
  import opened Rows

  /** An event as the expiry handler makes them. */
  predicate IsReport(e: Event) {
    e == Event(e.id, "", Some(Active), Released)
  }

  /** `names` knows the owner of every row, of every row that a call has read, and of every event. */
  ghost predicate NamesAgree(s: State, names: map<Id, string>) {
    && names.Keys <= s.issued
    && (forall id :: id in s.rows ==> id in names && names[id] == s.rows[id].owner)
    && (forall e :: e in s.log && !IsReport(e) ==> e.id in names && names[e.id] == e.owner)
    && (s.pc.Updating? ==> s.pc.id in names && names[s.pc.id] == s.pc.owner)
    && (s.pc.Releasing? ==> s.pc.id in names && names[s.pc.id] == s.pc.row.owner)
  }

  lemma CommitKeepsNames(cfg: Config, s: State, id: Id, names: map<Id, string>)
    requires Safe(s) && NamesAgree(s, names) && Enabled(cfg, s, Commit(id))
    ensures NamesAgree(Next(cfg, s, Commit(id)), names[id := s.pc.req.owner])
  {
    CommitSucceeds(s.rows, id, NewRow(s.pc.req, s.pc.port, s.now));
  }

  lemma RowsKeepNames(cfg: Config, s: State, a: Action, names: map<Id, string>)
    requires Safe(s) && NamesAgree(s, names) && Enabled(cfg, s, a) && !a.Commit?
    ensures forall id :: id in Next(cfg, s, a).rows ==> id in names && names[id] == Next(cfg, s, a).rows[id].owner
  {
    forall id | id in Next(cfg, s, a).rows ensures id in s.rows && s.rows[id].owner == Next(cfg, s, a).rows[id].owner {
      if id !in s.rows {
        OnlyCommitAdds(cfg, s, a, id);
      } else {
        StepContinues(cfg, s, a, id);
      }
    }
  }

  lemma OnlyCommitAdds(cfg: Config, s: State, a: Action, id: Id)
    requires Safe(s) && Enabled(cfg, s, a) && !a.Commit?
    ensures id in Next(cfg, s, a).rows ==> id in s.rows
  {
    if a.WriteUpdate? {
      WriteSucceeds(s.rows, s.pc.id, s.pc.newState, s.now);
    } else if a.WriteRelease? {
      WriteSucceeds(s.rows, s.pc.id, Released, s.now);
    }
  }

  /** The event of a step, if it has one, is a report or names the row that the call has read. */
  lemma EventsAreNamed(cfg: Config, s: State, a: Action, e: Event)
    requires Enabled(cfg, s, a) && !a.Commit? && e in Next(cfg, s, a).log
    ensures e in s.log || IsReport(e)
            || (s.pc.Updating? && e.id == s.pc.id && e.owner == s.pc.owner)
            || (s.pc.Releasing? && e.id == s.pc.id && e.owner == s.pc.row.owner)
  {
  }

  lemma CallsAreNamed(cfg: Config, s: State, a: Action)
    requires Enabled(cfg, s, a)
    ensures var pc := Next(cfg, s, a).pc;
            && (pc.Updating? ==> pc == s.pc || (pc.id in s.rows && pc.owner == s.rows[pc.id].owner))
            && (pc.Releasing? ==> pc == s.pc || (pc.id in s.rows && pc.row == s.rows[pc.id]))
  {
  }

  lemma StepKeepsNames(cfg: Config, s: State, a: Action, names: map<Id, string>) returns (names': map<Id, string>)
    requires Safe(s) && NamesAgree(s, names) && Enabled(cfg, s, a)
    ensures NamesAgree(Next(cfg, s, a), names')
    ensures forall id :: id in names ==> id in names' && names'[id] == names[id]
  {
    if a.Commit? {
      CommitKeepsNames(cfg, s, a.id, names);
      names' := names[a.id := s.pc.req.owner];
    } else {
      names' := names;
      RowsKeepNames(cfg, s, a, names);
      IssuedGrows(cfg, s, a);
      CallsAreNamed(cfg, s, a);
      forall e | e in Next(cfg, s, a).log && !IsReport(e) ensures e.id in names && names[e.id] == e.owner {
        EventsAreNamed(cfg, s, a, e);
      }
    }
  }

  lemma {:induction false} RunsKeepNames(cfg: Config, s: State, acts: seq<Action>, names: map<Id, string>)
    returns (names': map<Id, string>)
    requires Safe(s) && NamesAgree(s, names) && Legal(cfg, s, acts)
    ensures NamesAgree(Exec(cfg, s, acts), names')
    decreases |acts|
  {
    if acts == [] {
      names' := names;
    } else {
      StepKeepsSafe(cfg, s, acts[0]);
      var next := StepKeepsNames(cfg, s, acts[0], names);
      names' := RunsKeepNames(cfg, Next(cfg, s, acts[0]), acts[1..], next);
    }
  }

  /** In every run, expiry and races included: an event names the owner of the row it is about, and two events of
      one reservation name the same owner, whether or not the row is still there. */
  lemma EventsNameTheirOwners(cfg: Config, s: State, acts: seq<Action>)
    requires Started(s) && OneRowPerPort(s.rows) && Legal(cfg, s, acts)
    ensures var s' := Exec(cfg, s, acts);
            && (forall e :: e in s'.log && !IsReport(e) && e.id in s'.rows ==> e.owner == s'.rows[e.id].owner)
            && (forall e, f :: e in s'.log && f in s'.log && !IsReport(e) && !IsReport(f) && e.id == f.id ==>
                  e.owner == f.owner)
  {
    var names := map id | id in s.rows :: s.rows[id].owner;
    var after := RunsKeepNames(cfg, s, acts, names);
  }

  /** Only the handler leaves the owner out: an event of any other step names the owner of its row. */
  lemma OtherStepsNameTheOwner(cfg: Config, s: State, acts: seq<Action>, a: Action, e: Event)
    requires Started(s) && OneRowPerPort(s.rows) && Legal(cfg, s, acts)
    requires Enabled(cfg, Exec(cfg, s, acts), a) && !a.EmitExpired?
    requires Next(cfg, Exec(cfg, s, acts), a).log == Exec(cfg, s, acts).log + [e]
    ensures var u := Next(cfg, Exec(cfg, s, acts), a).rows;
            e.id in u ==> e.owner == u[e.id].owner
  {
    var names := map id | id in s.rows :: s.rows[id].owner;
    var now := Exec(cfg, s, acts);
    var known := RunsKeepNames(cfg, s, acts, names);
    RunsStaySafe(cfg, s, acts);
    NewEventIsNamed(cfg, now, a, e);
    if a.Commit? {
      CommitKeepsNames(cfg, now, a.id, known);
    } else {
      RowsKeepNames(cfg, now, a, known);
    }
  }

  lemma NewEventIsNamed(cfg: Config, s: State, a: Action, e: Event)
    requires Enabled(cfg, s, a) && !a.EmitExpired? && Next(cfg, s, a).log == s.log + [e]
    ensures (a.Commit? && e.id == a.id && e.owner == s.pc.req.owner)
            || (!a.Commit? && s.pc.Updating? && e.id == s.pc.id && e.owner == s.pc.owner)
            || (!a.Commit? && s.pc.Releasing? && e.id == s.pc.id && e.owner == s.pc.row.owner)
  {
    var s' := Next(cfg, s, a);
    assert s'.log != s.log;
    assert s'.log[|s.log|] == e;
  }
}
