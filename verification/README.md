# A verified model of Port Authority

Port Authority's daemon hands out TCP ports from a SQLite table. Several actors work on that table at once: the
broker (whose calls a mutex serializes), a lease task that releases and purges rows behind the broker's back, an
expiry handler that learns of expired rows late through a channel, and a tunnel manager with its own lock and its
own background loop. This project models those actors, and the pure computation around them, and proves the
properties the daemon relies on for every input and every interleaving.

`dafny verify dfyconfig.toml` checks the whole project.

## How it is laid out

- `Store`, `Protocol`: the table, its SQL statements as functions, and the daemon as a step system. Each statement
  (or transaction) is one step; lease, handler, clock and foreign programs may step between any two of them; any
  statement of the broker may also fail. `Legal` and `Exec` say what a run is.
- `PortSafety`, `PartialIndex`, `Refinement`, `Quota`, `Holds`, `Listeners`, `Events`, `Names`,
  `Leases`, `Rows`: what holds in every run.
- `Calls`, `Daemon`: whole broker calls as runs, and the broker, lease task and handler as classes whose methods
  are proved to do what those runs do. `Service` puts broker and tunnel manager together in the
  gRPC handlers and the expiry handler, one request at a time; `Handover` does so for interleaved requests.
- `Races`: two complete runs, from an empty table, in which a claim one would like to make fails.
- `Allocation`, `Strings`, `Like`, `Owners`: port choice, splitting, LIKE escaping, owner strings.
- `Decimal`, `Calendar`, `Timestamps`: the daemon's timestamp parser, the CLI's printer, and text order.
- `Wire`, `Fields`, `Messages`, `Codec`: the generated protobuf encoders and decoders. `Wire` has the reader and
  writer, `Fields` the generic decode loop, `Messages` what each message means, `Codec` the methods.
- `Locks`, `Tunnels`, `TunnelManager`, `Connections`: lock order, tunnel supervision and the connection limit.

## Where a claim stops, exactly

Some claims one would like to make are not true of the code. Each is stated with the condition under which it
holds, both ways, and with what goes wrong otherwise.

- `update_state` has no guard and can write over a released row. It trips no constraint all the same: it is only
  asked to write a row that was live when its `reserve` request got it, and such a row stays the only candidate
  at its port (`IndexIsNeverTripped`, from any table the partial index admits).
- The per-owner quota and the one-row-per-target rule fail when `update_state` brings a released row back
  (`RevivalIsUnchecked`), which a slow tunnel start does to a reservation released meanwhile
  (`RevivalBreaksQuota`). Only VM reservations reach `update_state`. The quota is also stricter than its group:
  the LIKE pattern of `vm:smith` counts `vm:smithy:...` as well (`PatternOvercounts`), and it ignores case;
  `PatternSelectsPrefixes` says exactly whom it counts.
- `do_release` reads, then writes. When the lease task expires the row in between, the notice it queues is about
  a port that is no longer held, and the handler can later drop the listener of a newer reservation. The comment
  at crates/daemon/src/lease.rs:89-91 says that the atomic UPDATE prevents this; it does so only for expiry
  itself (`ReleaseRaceIsExact`, `ReleaseRaceDropsAListener`, `ReleaseRaceIsReachable`).
- With VMs about, a live row without a VM keeps its listener in every run, exactly until a reservation is committed
  at a port about which an expiry notice is still under way (`Listeners.StepIsExact`). A VM row that
  expires leaves such a port behind (`VmExpiryDropsAListener`).
- Hold listeners are not rebuilt when the daemon restarts, so "held ports are live ports" starts from a table
  without live rows (`HoldsAtStart`).
- The expiry handler always reports "active" as the old state, and an empty owner. After an expiry, the call in
  progress and the handler's reports, the log is right exactly when every row that expired was active and not
  under the read of a release or an update (`ExpiryChainIsExact`, for any number of rows). An update whose row
  has expired breaks its chain exactly when it comes before the report (`NoticedUpdateIsExact`), and an update
  that is overtaken by the purge of its row announces a reservation that is gone (`PurgedUpdateIsExact`).
- An active VM row can lose its tunnel: when it is released or expires while its tunnel starts, the late report
  makes it active again and the waiting stop takes the tunnel away (`ActiveRowLosesItsTunnel`); and when the
  database fails in the middle of its release. These are the only two ways (`Handover.StepIsExact`). Tunnels are
  not rebuilt at a restart (`TunnelsAtStart`).
- `format_timestamp` casts seconds to `u64`, so negative seconds print as a year far in the future, which the
  parser rejects (`PrintThenParse`).
- A release by port takes the port modulo 65536, since the handler casts it to `u16`; it releases the port it
  names exactly when that is below 65536 (`ReleaseByPortIsExact`).
- `chrono_parse_naive` checks no field. A month above 13 indexes out of bounds (`CountDays` says None exactly
  there); everything else that fits is read as some instant, which is the right one exactly for a legal date from
  1970 on and a time of day (`ReadingIsExact`, `ReadingIsRightFrom1970`). `EarlyYearIsMisread`,
  `DayZeroIsMisread` and `MonthThirteenIsMisread` are examples.

## Model

| member | source | states |
|---|---|---|
| PortSafety.CommitSucceeds | crates/daemon/src/broker.rs:190-241 | Deleting the released rows at a port and inserting there, in one transaction, violates no constraint when the port is not live; it keeps one row per port and touches no row at another port |
| PortSafety.SafeStatesDoNotTrip | crates/daemon/src/broker.rs:261-293 | In a safe state no insert and no state write, over a released row included, trips the primary key or the partial unique index |
| PortSafety.StepKeepsSafe | crates/daemon/src/broker.rs:128-336 | Every step of broker, lease task, handler and environment keeps one row per port in total, and keeps the chosen port of the reserve in progress free of live rows |
| PortSafety.PortsStayUnique | migrations/20260323000000_partial_unique_index.sql:66-68 | From any table the original UNIQUE column admits, every interleaved run keeps one row per port and the next statement, whichever it is, violates no constraint |
| PartialIndex.CommitKeepsLive | crates/daemon/src/broker.rs:190-241 | With only one live row per port given, the transaction of reserve still violates no constraint at a port that is not live, and leaves its row alone there |
| PartialIndex.HandingOutKeeps | crates/daemon/src/grpc.rs:173-183 | A row that a reserve request gets as a pending VM row is alone at its port among the live rows and among the rows other requests have got |
| PartialIndex.StepKeepsIndex | crates/daemon/src/grpc.rs:200-216 | Every step keeps that, although update_state writes without a guard |
| PartialIndex.IndexIsNeverTripped | migrations/20260323000000_partial_unique_index.sql:66-68 | From any table the partial index admits, every interleaved run keeps one live row per port and no statement ever violates a constraint |
| Refinement.EveryTableStandsFor | crates/daemon/src/broker.rs:422-434 | Every table with one row per port stands for a partial map from port to holder |
| Refinement.RegistryIsUnique | crates/daemon/src/broker.rs:422-434 | A table stands for at most one such map |
| Refinement.StatementRefines | crates/daemon/src/broker.rs:128-336 | Every statement is invisible, one claim of a free port, or a freeing of held ports; the claim of reserve lands at its commit, whatever happened since the port was chosen |
| Refinement.ExpiryRefines | crates/daemon/src/lease.rs:88-114 | The expiry UPDATE frees exactly the ports of the overdue rows, all of them held |
| Refinement.RunsRefine | crates/daemon/src/lease.rs:88-129 | Every interleaved run is, statement by statement, an allowed run of the map from ports to holders |
| Calls.ReserveCallIsRun | crates/daemon/src/broker.rs:128-258 | A reserve call that nothing interrupts, followed by what its caller does with a pending VM row, is one of the interleaved runs |
| Calls.ReserveCallEffect | crates/daemon/src/broker.rs:170-241 | A reserve call changes either nothing at all or exactly one port, which was neither live nor bound: insert, hold and event together |
| Calls.ReleaseCallIsRun | crates/daemon/src/broker.rs:307-336 | A release call is a run; on a missing or released row it changes nothing |
| Calls.LeaseTaskIsNeverBlocked | crates/daemon/src/lease.rs:36-86 | In every state the lease task can take its next statement, whatever the broker is doing, and so can the clock and other programs |
| Calls.IdleBrokerTakesAnyCall | crates/daemon/src/broker.rs:128-136 | An idle broker can begin any call, and the handler any notice |
| Calls.BrokerIsNeverBlocked | crates/daemon/src/broker.rs:128-336 | A call once begun can always take its next statement, and any of them may fail |
| Calls.UpdateCallIsRun | crates/daemon/src/broker.rs:261-293 | An update call is a run; it writes whatever state the row has |
| Daemon.Broker.Reserve | crates/daemon/src/broker.rs:128-258 | The answer is the live row with the request's owner, host and target port if there is one; a refusal exactly when as many live rows as allowed belong to owners that start with the owner's machine, or with all of it; a row with every column as asked for, lease and expiry included, at the very port the request is to get; or the very reason why not. Any error changes nothing, and table, listeners and log move as the protocol's call does |
| Daemon.Broker.ChoosePort | crates/daemon/src/broker.rs:437-496 | The port chosen is the one the request is to get; a refused exact port names the owner of the live row there |
| Daemon.Broker.ReleaseById | crates/daemon/src/broker.rs:296-299 | Moves the state as the release call does; an error exactly for a missing row |
| Daemon.Broker.ReleaseByPort | crates/daemon/src/broker.rs:302-305 | Releases the live row at a port, after which the port has none; an error exactly when there was none |
| Daemon.Broker.UpdateState | crates/daemon/src/broker.rs:261-293 | Moves the state as the update call does, whatever the old state |
| Daemon.Broker.List | crates/daemon/src/broker.rs:339-390 | The rows listed are exactly those whose owner starts with the filter up to letter case and whose state is the one asked for, or live if none is; each once, in the order of their ports |
| Daemon.LeaseCleanup.ExpireLeases | crates/daemon/src/lease.rs:88-114 | Releases every overdue row and reports each exactly once, with its port |
| Daemon.LeaseCleanup.PurgeReleased | crates/daemon/src/lease.rs:116-129 | Deletes exactly the stale released rows and counts them |
| Daemon.LeaseCleanup.RunOnce | crates/daemon/src/lease.rs:56-85 | One round of the cleanup loop is a run of the protocol: expire, send if there is anything to send, purge |
| Service.ExpiryHandler.Drain | crates/daemon/src/main.rs:63-83 | Handling every queued notice, in order, is a run of the protocol that reports each of them, and stops exactly the tunnels of the rows it is told of |
| Service.PortBrokerService.Reserve | crates/daemon/src/grpc.rs:138-231 | The whole request moves broker and tunnel manager as its specification says: an invalid owner, host or port is refused and changes nothing, an error changes nothing, and the answer agrees with the row in the table |
| Service.ValidityIsExact | crates/daemon/src/grpc.rs:21-43 | A request is invalid exactly for a port of zero or above 65535, an empty or too long owner or host, or a character that is neither alphanumeric nor one of four |
| Service.ByteLengthIsExact | crates/daemon/src/grpc.rs:21-43 | The length that is limited is one byte a character, and one more from each of three code points on |
| Service.CheckedIsWhatCame | crates/daemon/src/grpc.rs:157-167 | The request that reaches the broker has every field of the one that came in |
| Service.PendingRowSettles | crates/daemon/src/grpc.rs:173-223 | A pending VM row ends active exactly when its machine is configured and connects, with just the one tunnel that listens on the row's port and forwards to its host and target port inside its machine; failed otherwise with no tunnel changed. Just its own listener goes, its change is announced, and no other row changes |
| Service.ReserveSettles | crates/daemon/src/grpc.rs:138-231 | The row a request gets is live and has the request's target; a pending VM row settles as above, and for any other row nothing changes after the broker call: not its state, not a listener, not a tunnel |
| Service.ReserveKeepsTunnels | crates/daemon/src/grpc.rs:188-197 | A reserve request keeps every tunnel forwarding what the row of its id says |
| Service.ReleaseKeepsTunnels | crates/daemon/src/grpc.rs:262-271 | So does a release request |
| Service.HealthLoopKeepsTunnels | crates/daemon/src/tunnel.rs:253-358 | So does every step of the health loop |
| Service.DaemonRunsKeepTunnels | crates/daemon/src/lease.rs:88-129 | So does every run of the broker, the lease task and the handler |
| Service.PortBrokerService.Release | crates/daemon/src/grpc.rs:234-280 | The request releases the row of that id, or the live row at the port cut to 16 bits, and stops its tunnel; an error exactly when there is no such row |
| Service.ReleaseByPortIsExact | crates/daemon/src/grpc.rs:246-258 | A release by port releases a row of the port it names exactly when the port is below 65536 |
| Service.ReleaseSettles | crates/daemon/src/grpc.rs:234-280 | A release of a live row releases it, frees its port, gives just its listener up and announces that; a release of a released row does nothing. Just the tunnel of a VM row goes, and no other row changes |
| Allocation.AllocatePort | crates/daemon/src/broker.rs:437-496 | The three scanning loops compute the allocation function |
| Allocation.AllocationMeetsExpectations | crates/daemon/src/broker.rs:437-496 | Whatever the preference, the port or the refusal is the one to be expected: the preference, the lowest, the next in cyclic order, or the lowest between preference and range; and the refusal says who holds an exact port, or that all are taken |
| Allocation.ExpectationsAreExact | crates/daemon/src/broker.rs:437-496 | That leaves no choice: at most one port, and never a port and a refusal |
| Allocation.LowestFree | crates/daemon/src/broker.rs:486-493 | Without a preference: the lowest free bindable port of the range, and exhaustion exactly when there is none |
| Allocation.FirstInCyclicOrder | crates/daemon/src/broker.rs:475-485 | With a preference in range: the first free port going round the range from it, and exhaustion exactly when the range has none |
| Allocation.ExactOnlyMeansExact | crates/daemon/src/broker.rs:455-473 | With exact_only no other port is returned, and each of the two errors means what it says |
| Allocation.PreferenceOutsideRange | crates/daemon/src/broker.rs:475-485 | A preference outside the range widens the scan to the ports between it and the range: what is returned, and when exhaustion is reported |
| Quota.CountFitsU32 | crates/daemon/src/broker.rs:155-166 | With one row per port no LIKE count reaches 65537, so the cast to u32 loses nothing |
| Quota.CountDominatesGroup | crates/daemon/src/broker.rs:82-93 | The LIKE count is at least the number of live rows of the exact owner group |
| Quota.LimitIsExact | crates/daemon/src/broker.rs:155-168 | A request is over the limit exactly when as many live rows as allowed belong to owners that start, up to case, with "vm:" and its machine, or with the whole owner if it has none |
| Quota.QuotaCheckIsSound | crates/daemon/src/broker.rs:155-168 | A reserve that passes the check leaves its group below the maximum |
| Quota.StepKeepsQuota | crates/daemon/src/broker.rs:137-168 | Every step but a revival keeps each group within its bound, with room for the reserve that has passed the check |
| Quota.StepKeepsTargets | crates/daemon/src/broker.rs:137-153 | Every step but a revival keeps owner, host and target port unique among live rows, although check and insert are separate statements |
| Quota.QuotaHolds | crates/daemon/src/broker.rs:137-168 | In every run without a revival no group exceeds the maximum (or its size at the start), and no two live rows share owner and target if none did |
| Quota.RevivalIsUnchecked | crates/daemon/src/broker.rs:261-293 | A revival adds one to its group whatever the maximum; targets stay unique exactly when no live row has taken the target |
| Races.RevivalBreaksQuota | crates/daemon/src/grpc.rs:202-209 | From an empty table and with a limit of one there is a run that leaves a machine with two live rows |
| Holds.StepKeepsHolds | crates/daemon/src/main.rs:63-71 | Without VMs and races with a release, every step keeps the held ports the disjoint union of live ports and ports under notice, all notices about different ports |
| Holds.HandlerNeverDropsANewerListener | crates/daemon/src/main.rs:63-71 | In every such run the notice at the head of the channel is never about a live port, and once all notices are handled the held ports are the live ones |
| Holds.HoldsAtStart | crates/daemon/src/broker.rs:96-105 | A daemon that has just started meets the claim exactly when its table has no live row |
| Holds.ReleaseRaceIsExact | crates/daemon/src/broker.rs:307-323 | Expiry between the read and the write of a release breaks the claim exactly when the row under release was overdue |
| Holds.ReleaseRaceDropsAListener | crates/daemon/src/broker.rs:307-323 | After that race there is a run in which a new reservation is live and its listener is gone |
| Races.ReleaseRaceIsReachable | crates/daemon/src/broker.rs:307-323 | That race can be reached from a started daemon with an empty table |
| Holds.VmGivesUpItsListener | crates/daemon/src/grpc.rs:182-186 | Returning a row from reserve keeps the claim exactly when it is not a pending VM row |
| Listeners.HandingOverIsExact | crates/daemon/src/grpc.rs:182-186 | Returning a pending VM row drops just the listener of its port, and returning any other row drops none |
| Listeners.StepIsExact | crates/daemon/src/broker.rs:307-323 | With VMs and races, every step keeps every live row without a VM its listener, exactly unless it commits such a row at a port under notice; and no step leaves a listener for nothing |
| Races.VmExpiryDropsAListener | crates/daemon/src/main.rs:63-71 | From an empty table there is a run in which the expiry of a VM row takes the listener of a live host row |
| Listeners.LiveRowsKeepListeners | crates/daemon/src/main.rs:63-71 | In every run a listener is held only for a live row or one whose expiry is under way; and in every run without such a commit each live row without a VM has its listener at every moment |
| Names.EventsNameTheirOwners | crates/daemon/src/broker.rs:248-254 | In every run an event that is no expiry report names the owner of its row, and all such events of one reservation name one owner |
| Names.OtherStepsNameTheOwner | crates/daemon/src/broker.rs:266-290 | The event of every step but the handler's report names the owner of the row it is about |
| Events.StepKeepsLog | crates/daemon/src/broker.rs:248-254 | Every step keeps the log an account of every reservation, present, gone, not yet made or with its expiry still to be reported; unless it expires a row that is not active or is under a read, or is an update before the report of its row's expiry, or a purge under an update |
| Events.EventsFormChains | crates/daemon/src/broker.rs:266-290 | In every such run, lease expiry included, each reservation's events form a chain at every moment; once no notice is unreported it ends in the state of the row, and in "released" for a reservation that is gone |
| Events.ChainedMeansConsecutive | crates/daemon/src/broker.rs:266-290 | In a chain every event's old state is the new state of the event before it for that reservation |
| Events.ExpiryChainIsExact | crates/daemon/src/main.rs:73-80 | For any batch, with no call, an update or a release in progress: after that call and all reports the log explains the table exactly when every overdue row was active and not under the read, and all chains hold exactly when each overdue row was active and unread, or is written active by the update |
| Events.NoticedUpdateIsExact | crates/daemon/src/broker.rs:266-290 | An update keeps the chain of its row exactly when the row has no unreported expiry |
| Events.PurgedUpdateIsExact | crates/daemon/src/broker.rs:266-290 | An update overtaken by the purge of its row leaves the log right exactly when it announces "released" and no expiry of the row is unreported |
| Handover.StepIsExact | crates/daemon/src/grpc.rs:188-216 | With requests interleaved across both locks, every step keeps "each active VM row has a tunnel that nothing is about to stop" exactly when it is neither a report that comes after a release or expiry, nor a failing release of an active VM row |
| Handover.ReportIsExact | crates/daemon/src/grpc.rs:200-216 | The report of a tunnel keeps it exactly when no stop of that tunnel is waiting |
| Handover.FailureIsExact | crates/daemon/src/grpc.rs:240-271 | A database failure keeps it exactly when it does not hit the release of an active VM row, whose tunnel is stopped all the same |
| Handover.TunnelsAtStart | crates/daemon/src/main.rs:33-35 | A daemon that has just started meets it exactly when its table has no active VM row |
| Handover.ActiveRowsKeepTunnels | crates/daemon/src/grpc.rs:155-280 | At every moment of every run without those two, each active VM row has a tunnel that nothing is about to stop |
| Handover.ReserveRequestIsRun | crates/daemon/src/grpc.rs:138-231 | A whole reserve request is one of the interleaved runs, and leaves broker and tunnels as settled above |
| Handover.ReleaseRequestIsRun | crates/daemon/src/grpc.rs:234-280 | And so is a whole release request |
| Handover.ActiveRowLosesItsTunnel | crates/daemon/src/grpc.rs:262-271 | From an empty table there is a run after which nothing is in progress and a VM row is active without a tunnel |
| Leases.StepKeepsTimes | migrations/20260323000000_partial_unique_index.sql:46-51 | With a monotone clock every step keeps each row's expiry equal to creation plus positive lease, and no row stamped later than now |
| Leases.ExpiryIsExact | crates/daemon/src/lease.rs:88-114 | After any run an expiry step releases a row if and only if it is active or pending and has a positive lease that has run out since its creation; nothing overdue is left and no row disappears |
| Rows.CommitStores | crates/daemon/src/broker.rs:178-233 | A committed row has every column as the request asked, the lease and its expiry counted from the commit, and is active exactly for a "host:" owner |
| Rows.ReservationsStayAsAskedFor | crates/daemon/src/broker.rs:199-233 | In every run that follows, the row stays that in all but state and stamp |
| Rows.ExpiryHonoursTheRequest | crates/daemon/src/lease.rs:88-114 | However the run goes on, an expiry step releases the row exactly when it is active or pending and the positive lease asked for has run out since its commit |
| Rows.StepContinues | crates/daemon/src/broker.rs:261-293 | No step changes a row in anything but its state and its stamp, and a changed row is stamped with the time of the step |
| Rows.PurgeIsExact | crates/daemon/src/lease.rs:116-129 | The purge deletes exactly the released rows last changed a retention time ago, and changes no other |
| Leases.RowsAreRetained | crates/daemon/src/lease.rs:116-129 | A row disappears only once the retention time has passed since its last change, or when its port is reserved again |
| Leases.ReleasedRowsAreRetained | crates/daemon/src/lease.rs:116-129 | From the statement that releases it, by request or expiry, a row stays for the retention time unless its port is reserved again |
| Strings.JoinOfSplit | ui/src/lib/utils/owner.ts:5-14 | Joining what was split gives the text back |
| Strings.SplitOfJoin | ui/src/lib/utils/owner.ts:5-14 | Splitting what was joined gives the parts back, if none contains the separator |
| Strings.SplitNAtSeparator | crates/daemon/src/broker.rs:82-93 | splitn cuts the same first part as split and keeps the remainder whole |
| Like.ThreePassesEscapeEachCharacterOnce | crates/daemon/src/broker.rs:60-64 | The three ordered replacement passes equal escaping each character once |
| Like.PatternSelectsPrefixes | crates/daemon/src/broker.rs:344-365 | LIKE with ESCAPE matches the escaped text followed by % exactly against the texts it is a prefix of, up to ASCII case |
| Like.PercentIsAnyRun | crates/daemon/src/broker.rs:344-365 | The backtracking of '%' amounts to some run of any length |
| Like.EscapedIsItself | crates/daemon/src/broker.rs:60-64 | An escaped wildcard matches itself and nothing else |
| Like.UnescapedOwnersOvermatch | crates/daemon/src/broker.rs:60-64 | Without escaping, an underscore of an owner would match any character |
| Like.SameLetterIsExact | crates/daemon/src/broker.rs:344-365 | Letters match exactly when they are equal or differ in ASCII case |
| Like.WatchedOwnersAreListed | crates/daemon/src/grpc.rs:394-398 | Every owner the watch filter passes is one list selects |
| Like.ListedButNotWatched | crates/daemon/src/grpc.rs:394-398 | The converse fails, and only through the case of a letter |
| Owners.DaemonReadersAgree | crates/daemon/src/broker.rs:413-419 | The daemon's two splitters find the same machine in every owner that starts with "vm:" |
| Owners.MachineIsFirstField | crates/daemon/src/broker.rs:413-419 | The machine is the text between "vm:" and the next ':', or all of the rest |
| Owners.SameGroupIsExact | crates/daemon/src/broker.rs:82-93 | Two owners are counted in one group exactly when they are equal or name the same machine |
| Owners.GroupIsCounted | crates/daemon/src/broker.rs:82-93 | Every owner is selected by the count pattern of its own group |
| Owners.PatternOvercounts | crates/daemon/src/broker.rs:155-166 | The pattern of a machine selects every machine whose name continues it, though that is another group |
| Owners.ParsingVm | ui/src/lib/utils/owner.ts:5-14 | Whenever the UI reads a VM owner, the daemon finds the same machine and counts it as "vm:" plus it |
| Owners.AssembleOfParse | ui/src/lib/utils/owner.ts:38-47 | Writing what the UI read gives the owner back, for every host or VM owner |
| Owners.ParseOfAssemble | ui/src/lib/utils/owner.ts:38-47 | Reading what the UI wrote gives the fields back exactly when they are well formed; a VM service may contain ':' |
| Decimal.ParsingNumbersIsExact | crates/daemon/src/grpc.rs:98-99 | What parses as a number is exactly digits, with or without a plus sign, of a value that fits u32 |
| Decimal.ParsePadded | crates/daemon/src/grpc.rs:98-99 | Parsing a zero-padded number gives it back exactly when it fits u32 |
| Decimal.PaddedOfValue | crates/cli/src/output.rs:149-152 | Printing the number read from a text of digits, to its width, gives the text back |
| Decimal.TextOrderOfPadded | crates/daemon/src/lease.rs:93-97 | Numbers printed to one width are ordered as text as they are as numbers |
| Calendar.YearStep | crates/daemon/src/grpc.rs:116-119 | The year loop's step is the difference of the POSIX "Seconds Since the Epoch" formula, for every year |
| Calendar.CountDays | crates/daemon/src/grpc.rs:116-127 | Both parser loops together equal the closed formula, and fail exactly for a month above 13 |
| Calendar.DayNumbersFollowDates | crates/daemon/src/grpc.rs:116-127 | Legal dates and their day numbers are in the same order, so a day number belongs to one date |
| Calendar.DaysToDate | crates/cli/src/output.rs:156-180 | The printer's two loops return the one date, legal under section 5.7 and Appendix C of RFC 3339, whose day number was given |
| Timestamps.FormatTimestamp | crates/cli/src/output.rs:138-153 | The printer's text of any i64, with the wrap of its cast to u64 |
| Timestamps.ParseNaive | crates/daemon/src/grpc.rs:92-130 | The parser computes the parse function: rejected, aborted, or an instant |
| Calendar.CountIsExact | crates/daemon/src/grpc.rs:116-127 | For months 1 to 12 the count is the day number of the date exactly from 1970 on; before, it is too large |
| Timestamps.ReadingIsExact | crates/daemon/src/grpc.rs:92-130 | Whatever fits is read as an instant, and the instant prints as the text it was read from exactly for a legal date from 1970 on and a time of day |
| Timestamps.ParsingIsExact | crates/daemon/src/grpc.rs:92-103 | A text of two parts is rejected exactly unless each part holds three numbers, and aborts exactly for a month above 13 |
| Timestamps.JunkIsDropped | crates/daemon/src/grpc.rs:98-99 | A part that is no number is dropped wherever it stands, before the parts are counted |
| Timestamps.ReadingIsRightFrom1970 | crates/daemon/src/grpc.rs:116-129 | For months 1 to 12 the text is read as the instant of its fields exactly from 1970 on |
| Timestamps.DayZeroIsMisread | crates/daemon/src/grpc.rs:127-129 | "1970-01-00 00:00:00" is read as the last day of 1969 |
| Timestamps.EarlyYearIsMisread | crates/daemon/src/grpc.rs:116-119 | "1969-01-01 00:00:00" is read as the epoch |
| Timestamps.MonthThirteenIsMisread | crates/daemon/src/grpc.rs:120-126 | "1970-13-01 00:00:00" is read as 1 January 1971 |
| Timestamps.PrintThenParse | crates/daemon/src/grpc.rs:92-130 | Over all of i64, printing then parsing is the identity exactly from the epoch to the last year that fits u32, and a rejection otherwise |
| Timestamps.ParseThenPrint | crates/cli/src/output.rs:138-153 | Parsing then printing is the identity on every valid "YYYY-MM-DD HH:MM:SS" text from 1970 to 9999 |
| Timestamps.ValidTextsAreOrdered | crates/daemon/src/lease.rs:93-97 | On valid texts, text order is the order of the parsed seconds |
| Timestamps.ExpiryComparesInstants | crates/daemon/src/lease.rs:93-97 | Until the year 10000 the text comparison of expiry decides what comparing instants does |
| Timestamps.PurgeComparesInstants | crates/daemon/src/lease.rs:119-123 | And so does that of the purge |
| Wire.ReadWritten64 | ui/src/lib/server/generated/google/protobuf/timestamp.ts:124-132 | A written 64-bit varint is read back whole, and every narrower read takes its low bits |
| Wire.GuideVarints | ui/src/lib/server/generated/google/protobuf/timestamp.ts:124-132 | The varints of 1, 150 and -2 are those of the Protocol Buffers Encoding guide |
| Wire.UnendedVarintIsRefused | ui/src/lib/server/generated/portd.ts:956-1058 | A number that does not end in the input is refused |
| Wire.LongTextIsRefused | ui/src/lib/server/generated/portd.ts:956-1058 | A text longer than the rest of the input is refused |
| Fields.GuideFields | ui/src/lib/server/generated/portd.ts:918-954 | A number, a text and a nested message are written as in the Encoding guide |
| Wire.SignedRoundTrip | ui/src/lib/server/generated/google/protobuf/timestamp.ts:124-132 | Signed numbers of either width survive the trip through 64 unsigned bits |
| Fields.LoopReads | ui/src/lib/server/generated/portd.ts:956-1058 | A decode loop reads a sequence of encoded fields one after the other, each on top of the message so far |
| Fields.UnknownFieldIsSkipped | ui/src/lib/server/generated/portd.ts:1052-1055 | The tail of a decode loop passes over a field of an unknown tag whole |
| Messages.ReservationProgresses | ui/src/lib/server/generated/portd.ts:956-1058 | Every turn of the loop, on any bytes, moves forward and, unless it fails, stays within the input; so the loop ends |
| Messages.ListProgresses | ui/src/lib/server/generated/portd.ts:674-696 | The same of the list's loop, through its nested messages |
| Messages.ReservationOfFields | ui/src/lib/server/generated/portd.ts:956-1058 | Any sequence of well-formed fields, known or unknown, in any order and repeated, decodes to the fold of their meanings, the last one winning |
| Messages.OnlyNonDefaultsAreWritten | ui/src/lib/server/generated/portd.ts:918-954 | The fields written of a reservation are exactly those that differ from a default, and the optional ones that are there |
| Messages.TimestampDefaultsAreLeftOut | ui/src/lib/server/generated/google/protobuf/timestamp.ts:124-132 | And so for a timestamp |
| Messages.TextNumbers | proto/portd.proto:70-82 | The fields numbered 1, 2 and 5 of the schema are id, owner and target host |
| Messages.PortNumbers | proto/portd.proto:70-82 | Those numbered 3, 4, 6 and 10 are requested, assigned and target port, and lease |
| Messages.StateNumber | proto/portd.proto:70-82 | That numbered 7 is the state |
| Messages.TimeNumbers | proto/portd.proto:70-82 | Those numbered 8, 9 and 11 are the times of creation, update and expiry |
| Messages.TimestampNumbers | ui/src/lib/server/generated/google/protobuf/timestamp.ts:134-165 | Those of a timestamp are seconds and nanoseconds |
| Messages.ReleaseNumbers | proto/portd.proto:37-42 | Those of a release request are the reservation id and the port |
| Messages.ListNumber | proto/portd.proto:54-56 | That of a list is its reservations |
| Messages.StopTagEndsTheMessage | ui/src/lib/server/generated/portd.ts:1052-1055 | A tag of zero or of an end of group ends the message, whatever follows |
| Messages.TimestampRoundTrip | ui/src/lib/server/generated/google/protobuf/timestamp.ts:124-165 | Decoding the encoded timestamp gives it back, negative seconds included |
| Messages.ReservationRoundTrip | ui/src/lib/server/generated/portd.ts:918-1058 | Decoding the encoded reservation gives it back: defaults elided, an optional zero distinct from an absent field |
| Messages.ListRoundTrip | ui/src/lib/server/generated/portd.ts:666-696 | Decoding the encoded list gives it back |
| Messages.ReleaseRoundTrip | ui/src/lib/server/generated/portd.ts:412-455 | Decoding the encoded release request gives its choice back, zero and the empty string included |
| Messages.ListsConcatenate | ui/src/lib/server/generated/portd.ts:674-696 | Two encoded lists one after the other decode to the joined list |
| Messages.UnknownFieldsAreIgnored | ui/src/lib/server/generated/portd.ts:1052-1055 | A field of an unknown tag, wherever it stands, changes nothing |
| Codec.EncodeList | ui/src/lib/server/generated/portd.ts:667-672 | The writer ends up with exactly the encoded fields appended, nested messages behind their lengths |
| Codec.DecodeReservation | ui/src/lib/server/generated/portd.ts:956-1058 | The reader's loop computes the decode function on any bytes, and leaves the reader where it says |
| Codec.DecodeList | ui/src/lib/server/generated/portd.ts:674-696 | The same for the list |
| Codec.ListThereAndBack | ui/src/lib/server/generated/portd.ts:666-696 | Running the encoder and then the decoder gives every list in range back |
| Codec.ReleaseThereAndBack | ui/src/lib/server/generated/portd.ts:412-455 | Running the encoder and then the decoder gives every release request in range back |
| Locks.DaemonTasksAreOrdered | crates/daemon/src/grpc.rs:155-217 | Every task (reserve, release, inspect, list, watch, lease, expiry, health, forwarding) takes tunnel manager, broker, tunnel health and connection in one fixed order, and never a second connection |
| Locks.RequestsQueryUnderBroker | crates/daemon/src/db.rs:24-28 | Reserve, release, inspect and list run their statements only under the broker's mutex |
| Locks.HealthLoopWaitsFree | crates/daemon/src/tunnel.rs:221-341 | The health loop sleeps, probes and connects without holding any lock |
| Locks.ReserveWaitsUnderManagerOnly | crates/daemon/src/grpc.rs:182-197 | A reserve request connects while it holds the tunnel manager and nothing else, so never the broker |
| Locks.LocksAreExclusive | crates/daemon/src/grpc.rs:155-217 | In every reachable state each lock has at most one holder |
| Locks.NoDeadlock | crates/daemon/src/db.rs:24-28 | For any number of tasks, in every reachable state with unfinished work some task can step |
| Locks.MaximalSchedulesFinish | crates/daemon/src/main.rs:66-71 | Every schedule that goes on while anyone can step lets every task finish, after exactly as many steps as there are operations |
| Tunnels.StepKeepsInvariant | crates/daemon/src/tunnel.rs:253-358 | Every step of the health loop, a start, a stop or a failing accept keeps candidates, attempt counts and backoff in agreement |
| Tunnels.ReconnectionIsBounded | crates/daemon/src/tunnel.rs:253-358 | In every interleaving no tunnel is reconnected more often than the maximum or costs more backoff than the maximum allows, and the missing-VM branch is not taken |
| Tunnels.LoopKeepsTunnels | crates/daemon/src/tunnel.rs:210-358 | The health loop adds and removes no tunnel and changes only its forwarding task |
| Tunnels.BackoffInClosedForm | crates/daemon/src/tunnel.rs:275-277 | The backoff of n attempts is 2^n - 1 up to six attempts, and 32 seconds more for each further one |
| TunnelManager.Manager.StartTunnel | crates/daemon/src/tunnel.rs:124-185 | Inserts the tunnel exactly when the VM is configured and the connection succeeds; the errors say which failed |
| TunnelManager.Manager.Stop | crates/daemon/src/tunnel.rs:187-195 | Removes the tunnel and names the task it stopped |
| TunnelManager.Manager.Candidates | crates/daemon/src/tunnel.rs:255-276 | Every candidate is a distinct tunnel of the map, dead and with attempts left; and every such tunnel whose record nobody has locked is a candidate |
| TunnelManager.Manager.HealthRound | crates/daemon/src/tunnel.rs:221-247 | A round, undisturbed: a tunnel whose probe succeeds is left alone and alive; one whose probe fails, with attempts left and its record free, has one more attempt counted and slept for, and ends alive with the new task exactly when it connected, dead with the old one otherwise; any other failed one ends dead and unchanged. The round is a run of the step system |
| TunnelManager.Manager.AttemptReconnections | crates/daemon/src/tunnel.rs:253-358 | Undisturbed: exactly the dead tunnels with attempts left and a free record come out of one attempt, the others are untouched; and the method is a run of the step system |
| TunnelManager.RunsOwnRecords | crates/daemon/src/tunnel.rs:124-185 | In every run each tunnel has a health record of its own |
| Tunnels.AttemptsEndExactly | crates/daemon/src/tunnel.rs:342-357 | An attempt is counted and its task installed exactly if the tunnel is still there; for a stopped tunnel it leaves no trace |
| Tunnels.ManagerIsNeverBlocked | crates/daemon/src/tunnel.rs:124-195 | Starts, stops and failed accepts are possible in every state of the health loop |
| Tunnels.FailedAcceptsAreGathered | crates/daemon/src/tunnel.rs:454-462 | A failed accept marks just its tunnel dead, which the next gathering may take if attempts are left |
| Connections.CounterCountsSessions | crates/daemon/src/tunnel.rs:440-491 | In every interleaving the counter is the sessions started and not finished plus the one about to start, within the limit; a refusal means the limit was reached |
| Connections.DecisionIsExact | crates/daemon/src/tunnel.rs:463-476 | Whatever happens between the read of the counter and the decision, a connection is counted exactly when fewer sessions than the limit were running at the read |
| Connections.SessionsEndAtAnyTime | crates/daemon/src/tunnel.rs:480-488 | A running session can end at any moment, whatever the accept loop is doing |
| Connections.ForwardingTask.Accept | crates/daemon/src/tunnel.rs:463-488 | A connection is accepted exactly when fewer sessions than the limit are running |

## Left out

- SQLite and sqlx: each statement is a function on the table; the table has the columns the properties need, so `reconnect_count` and rowids are not modelled.
- The migration's own dedup and rebuild: runs start from any table the original UNIQUE column admits.
- UUIDs are fresh ids given to a call; a UUID that collides is not modelled.
- Times in the table are instants in seconds; `Timestamps` connects them to the stored texts from 1970 to the year 9999. A retention time that reaches back before 1970 is outside that connection.
- Strings hold no NUL character, and LIKE folds ASCII letters only, as SQLite does by default.
- Which characters Unicode calls alphanumeric is an input of `Service`.
- Service.PortBrokerService.Reserve: one request by itself; what other requests and tasks may do between its locks is in `Protocol`, `Handover`, `Tunnels` and `Locks`.
- Handover.ActiveRowsKeepTunnels: runs without a late report and without a failing release, because the claim is false otherwise; `StepIsExact` has the condition. A request whose client goes away, and which never reports, is not modelled.
- Whether a port can be bound is an input: the set of ports bound outside the daemon, which may change at every step. One choice of a port sees one such set.
- Holds.StepKeepsHolds: owners without a VM and no expiry under a release, because the claim is false otherwise; the exact conditions are `VmGivesUpItsListener` and `ReleaseRaceIsExact`.
- Quota.QuotaHolds: bounds the exact group and not the LIKE count, because a machine whose name continues another is counted with it but limited on its own.
- Events.EventsFormChains: runs in which what expires is active and unread and is reported before it is updated, because the handler's event is wrong otherwise; `ExpiryChainIsExact` and `NoticedUpdateIsExact` have the conditions.
- Locks.MaximalSchedulesFinish: a task is a finite program; a background loop is any finite number of its rounds. Timers and fairness are not modelled.
- TunnelManager.Manager.AttemptReconnections: the method runs by itself; starts and stops between its steps are in module `Tunnels`, whose steps it takes. The messages inside `SshConnectionFailed` are not modelled.
- Connections.ForwardingTask.Accept: one accepted connection at a time; the interleaving with finishing sessions is the step system beside it. The counter belongs to one forwarding task and starts again with the next.
- The protobuf reader and writer library (@bufbuild/protobuf) is not part of this model. Its primitives follow the Protocol Buffers Encoding guide ("Base 128 Varints", "Length-Delimited Records", "Last One Wins") on byte sequences; strings are their UTF-8 bytes, and skipping a field of a deprecated group fails.
- JSON, `create` and `fromPartial` of the generated code, and its other messages: the same loop again, or one branch each.
- SSH, sockets, authentication, byte forwarding: connecting succeeds or fails as an input.
- Broadcast lag and the watch stream: only the sender's log is modelled.
- Configuration, signals, shutdown, logging, the command line and the UI: no property that spans operations.
