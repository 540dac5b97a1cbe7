/** Choosing a port: a preferred port first, then a scan. */
module Allocation {
  import opened Wrappers

  type Port = p: nat | p < 65536

  /** The table checks, and the service validates, that a target port is not zero. */
  type TargetPort = p: nat | 1 <= p < 65536 witness 1

  datatype PortRange = PortRange(start: Port, end: Port)

  datatype AllocationError =
    | PortUnavailable(port: Port, holder: string)
    | ExactPortUnavailable(exactPort: Port)
    | PortRangeExhausted(range: PortRange)

  /** The first port of [lo, hi) that is not taken. */
  function FirstFree(lo: nat, hi: nat, taken: set<Port>): (r: Option<Port>)
    requires hi <= 65536
    ensures r.None? <==> forall q: Port :: lo <= q < hi ==> q in taken
    ensures r.Some? ==> lo <= r.value < hi && r.value !in taken
    ensures r.Some? ==> forall q: Port :: lo <= q < r.value ==> q in taken
    decreases hi - lo
  {
    if lo >= hi then None
    else if lo !in taken then Some(lo)
    else FirstFree(lo + 1, hi, taken)
  }

  /** What `allocate_port` answers when the ports of `reserved` are reserved, those of `busy`
      cannot be bound, and the row found at the preferred port, if any, belongs to `holder`. */
  function Allocate(range: PortRange, preferred: Option<Port>, exactOnly: bool,
                    reserved: set<Port>, busy: set<Port>, holder: string): Result<Port, AllocationError>
  {
    var taken := reserved + busy;
    match preferred
    case None =>
      FirstOr(FirstFree(range.start, range.end + 1, taken), range)
    case Some(p) =>
      if p !in taken then Ok(p)
      else if exactOnly then
        Err(if p in reserved then PortUnavailable(p, holder) else ExactPortUnavailable(p))
      else
        match FirstFree(p, range.end + 1, taken)
        case Some(q) => Ok(q)
        case None => FirstOr(FirstFree(range.start, p, taken), range)
  }

  function FirstOr(r: Option<Port>, range: PortRange): Result<Port, AllocationError> {
    match r
    case Some(p) => Ok(p)
    case None => Err(PortRangeExhausted(range))
  }

  /** The scanning loops of the broker. `holder` is the owner its extra query finds at the preferred port. */
  method AllocatePort(range: PortRange, preferred: Option<Port>, exactOnly: bool,
                      reserved: set<Port>, busy: set<Port>, holder: string)
    returns (r: Result<Port, AllocationError>)
    ensures r == Allocate(range, preferred, exactOnly, reserved, busy, holder)
  {
    ghost var taken := reserved + busy;
    match preferred {
      case Some(p) =>
        if p !in reserved && p !in busy {
          return Ok(p);
        }
        if exactOnly {
          if p in reserved {
            return Err(PortUnavailable(p, holder));
          }
          return Err(ExactPortUnavailable(p));
        }
        var port: nat := p;
        while port <= range.end
          invariant p <= port
          invariant FirstFree(p, range.end + 1, taken) == FirstFree(port, range.end + 1, taken)
          decreases range.end + 1 - port
        {
          if port !in reserved && port !in busy {
            return Ok(port);
          }
          port := port + 1;
        }
        port := range.start;
        while port < p
          invariant range.start <= port
          invariant FirstFree(range.start, p, taken) == FirstFree(port, p, taken)
        {
          if port !in reserved && port !in busy {
            return Ok(port);
          }
          port := port + 1;
        }
      case None =>
        var port: nat := range.start;
        while port <= range.end
          invariant range.start <= port
          invariant FirstFree(range.start, range.end + 1, taken) == FirstFree(port, range.end + 1, taken)
          decreases range.end + 1 - port
        {
          if port !in reserved && port !in busy {
            return Ok(port);
          }
          port := port + 1;
        }
    }
    return Err(PortRangeExhausted(range));
  }

  // ---------------------------------------------------------------- what the answer means

  ghost predicate InRange(range: PortRange, p: Port) {
    range.start <= p <= range.end
  }

  /** How many ports after the preferred one, going round the range, the port `p` comes. */
  function Distance(range: PortRange, preferred: Port, p: Port): int {
    if preferred <= p then p - preferred else p - preferred + (range.end - range.start + 1)
  }

  /** Whatever is asked for, the answer is a port nobody holds. */
  lemma AllocatedIsFree(range: PortRange, preferred: Option<Port>, exactOnly: bool,
                        reserved: set<Port>, busy: set<Port>, holder: string)
    ensures var r := Allocate(range, preferred, exactOnly, reserved, busy, holder);
            r.Ok? ==> r.value !in reserved && r.value !in busy
  {
  }

  /** Without a preference: the lowest free port of the range, and exhaustion exactly when there is none. */
  lemma LowestFree(range: PortRange, exactOnly: bool, reserved: set<Port>, busy: set<Port>, holder: string)
    ensures var r := Allocate(range, None, exactOnly, reserved, busy, holder);
            && (r.Err? ==> r.error == PortRangeExhausted(range))
            && (r.Err? <==> forall q: Port :: InRange(range, q) ==> q in reserved + busy)
            && (r.Ok? ==> InRange(range, r.value) && r.value !in reserved + busy
                          && forall q: Port :: InRange(range, q) && q !in reserved + busy ==> r.value <= q)
  {
    var taken := reserved + busy;
    var found := FirstFree(range.start, range.end + 1, taken);
    assert forall q: Port :: InRange(range, q) <==> range.start <= q < range.end + 1;
  }

  /** With a preference inside the range: the free port that comes first going round the range from the
      preferred one, and exhaustion exactly when the range has no free port. */
  lemma FirstInCyclicOrder(range: PortRange, preferred: Port, reserved: set<Port>, busy: set<Port>, holder: string)
    requires InRange(range, preferred)
    ensures var r := Allocate(range, Some(preferred), false, reserved, busy, holder);
            && (r.Err? ==> r.error == PortRangeExhausted(range))
            && (r.Err? <==> forall q: Port :: InRange(range, q) ==> q in reserved + busy)
            && (r.Ok? ==> InRange(range, r.value) && r.value !in reserved + busy
                          && forall q: Port :: InRange(range, q) && q !in reserved + busy ==>
                               Distance(range, preferred, r.value) <= Distance(range, preferred, q))
  {
    var taken := reserved + busy;
    var upper := FirstFree(preferred, range.end + 1, taken);
    var lower := FirstFree(range.start, preferred, taken);
    forall q: Port | InRange(range, q)
      ensures preferred <= q < range.end + 1 || range.start <= q < preferred
    {
    }
  }

  /** With `exact_only` no other port is ever returned, and the error tells a reserved port from a busy one. */
  lemma ExactOnlyMeansExact(range: PortRange, preferred: Port, reserved: set<Port>, busy: set<Port>, holder: string)
    ensures var r := Allocate(range, Some(preferred), true, reserved, busy, holder);
            && (r.Ok? <==> preferred !in reserved + busy)
            && (r.Ok? ==> r.value == preferred)
            && (r == Err(PortUnavailable(preferred, holder)) <==> preferred in reserved)
            && (r == Err(ExactPortUnavailable(preferred)) <==> preferred !in reserved && preferred in busy)
  {
  }

  ghost predicate Scanned(range: PortRange, preferred: Port, q: Port) {
    preferred <= q <= range.end || range.start <= q <= preferred
  }

  /** A preference outside the range widens the scan: the answer may then lie outside the range, exactly
      between the preferred port and the range. */
  lemma PreferenceOutsideRange(range: PortRange, preferred: Port, reserved: set<Port>, busy: set<Port>, holder: string)
    requires !InRange(range, preferred)
    ensures var r := Allocate(range, Some(preferred), false, reserved, busy, holder);
            && (r.Err? ==> r.error == PortRangeExhausted(range))
            && (r.Err? <==> preferred in reserved + busy
                            && forall q: Port :: Scanned(range, preferred, q) ==> q in reserved + busy)
            && (r.Ok? ==> r.value !in reserved + busy && (Scanned(range, preferred, r.value) || r.value == preferred))
            && (r.Ok? && r.value != preferred ==>
                  preferred in reserved + busy
                  && forall q: Port :: Scanned(range, preferred, q) && q !in reserved + busy ==> r.value <= q)
  {
    var taken := reserved + busy;
    var upper := FirstFree(preferred, range.end + 1, taken);
    var lower := FirstFree(range.start, preferred, taken);
    if preferred < range.start {
      assert lower.None?;
      assert forall q: Port :: Scanned(range, preferred, q) ==> preferred <= q < range.end + 1;
    } else {
      assert upper.None?;
      assert forall q: Port :: Scanned(range, preferred, q) && q != preferred ==> range.start <= q < preferred;
    }
  }

  // ---------------------------------------------------------------- what a caller may expect

  /** `port` is what a request is to get when the ports of `taken` are not to be had: its preference if that can be
      had; with no preference the lowest port of the range; with one in the range the next port going round the
      range; with one outside the range the lowest port between the two. */
  ghost predicate IsServed(range: PortRange, preferred: Option<Port>, exactOnly: bool, taken: set<Port>, port: Port) {
    && port !in taken
    && match preferred
       case None => InRange(range, port) && forall q: Port :: InRange(range, q) && q !in taken ==> port <= q
       case Some(p) =>
         if p !in taken then port == p
         else
           && !exactOnly
           && (if InRange(range, p) then
                 InRange(range, port)
                 && forall q: Port :: InRange(range, q) && q !in taken ==>
                      Distance(range, p, port) <= Distance(range, p, q)
               else
                 Scanned(range, p, port)
                 && forall q: Port :: Scanned(range, p, q) && q !in taken ==> port <= q)
  }

  /** `reason` is what a request is to be told when it gets no port: who holds its exact port, or that it cannot be
      bound; or that every port that would do is taken. */
  ghost predicate IsRefused(range: PortRange, preferred: Option<Port>, exactOnly: bool, reserved: set<Port>,
                            busy: set<Port>, holder: string, reason: AllocationError) {
    if exactOnly && preferred.Some? then
      && preferred.value in reserved + busy
      && reason == (if preferred.value in reserved then PortUnavailable(preferred.value, holder)
                    else ExactPortUnavailable(preferred.value))
    else
      && reason == PortRangeExhausted(range)
      && (preferred.Some? ==> preferred.value in reserved + busy)
      && (forall q: Port :: InRange(range, q) && (preferred.None? || InRange(range, preferred.value)) ==>
            q in reserved + busy)
      && (forall q: Port :: preferred.Some? && Scanned(range, preferred.value, q) ==> q in reserved + busy)
  }

  lemma AllocationMeetsExpectations(range: PortRange, preferred: Option<Port>, exactOnly: bool,
                                    reserved: set<Port>, busy: set<Port>, holder: string)
    ensures match Allocate(range, preferred, exactOnly, reserved, busy, holder)
            case Ok(port) => IsServed(range, preferred, exactOnly, reserved + busy, port)
            case Err(reason) => IsRefused(range, preferred, exactOnly, reserved, busy, holder, reason)
  {
    match preferred
    case None => LowestFree(range, exactOnly, reserved, busy, holder);
    case Some(p) =>
      if exactOnly {
        ExactOnlyMeansExact(range, p, reserved, busy, holder);
      } else if InRange(range, p) {
        FirstInCyclicOrder(range, p, reserved, busy, holder);
      } else {
        PreferenceOutsideRange(range, p, reserved, busy, holder);
      }
  }

  /** The expectations leave no choice: a request gets at most one port, and not both a port and a refusal. */
  lemma ExpectationsAreExact(range: PortRange, preferred: Option<Port>, exactOnly: bool, reserved: set<Port>,
                             busy: set<Port>, holder: string, port: Port, other: Port, reason: AllocationError)
    requires IsServed(range, preferred, exactOnly, reserved + busy, port)
    ensures IsServed(range, preferred, exactOnly, reserved + busy, other) ==> other == port
    ensures !IsRefused(range, preferred, exactOnly, reserved, busy, holder, reason)
  {
  }
}
