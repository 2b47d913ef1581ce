# aeroftp control plane: a verified model

The repository runs a pool of FTP backends behind a load balancer. Backends share
a pool of numbered slots kept in Redis; a daemon watches the slots, the weight
files and the Auto Scaling Group and acts on them. This project models the three
parts of it that are hard to get right, and proves what they promise.

**The slot lease protocol** (`aeroslot`). `SlotStore` gives each operation its
meaning as one step from store to store. `Redis.Server` is the server, changed in
place by single Redis commands; the Lua scripts (`LuaScripts`) and the plain
commands (`NativeCommands`) are methods on it, proved against those steps.
`ClaimMeaning` says slot by slot what they do, `AtomicRuns` and `Bypass` what every run
of them keeps.
`NativeMachine` lets the plain commands of any number of processes interleave, one
Redis command at a time; `NativeAlone` shows that undisturbed they do what the
scripts do, `NativeWrites` which writes they make in which order, `Refinement` and
`RefinementRuns` that under a stated regime every interleaving is a run of the
scripts and hands no slot out twice, and `RefinementLimits` that each of the regime's
five conditions is needed. `RenewExpired` says when a lease that has run out can be renewed. `Heartbeat` adds real time,
`NativeHeartbeat` the interleaving to it, `HeartbeatLoop` the retry loops.

**The control loop** (`aeroscale`). `Snapshot` joins weight files, leases, IPVS and
the ASG; `Leases` reads owners through a cache that survives cycles; `Cleanup` is
the three-section cleanup pass, in which any single action may fail; `Scaler` is
the scaler. Each has a class whose methods are proved against functions, and those
functions carry the theorems: `DaemonRuns` (what a release rests on), `SingleWrite`,
`LeaseDecisions`, `CycleDecisions`, `ActionOrder`, `OrphanGrace`, `UnreadableOwner`, `Convergence`,
`ScalerRuns`, `Hysteresis`, `Opposition`, `DrainRuns`, `Bandwidth`, `DrainCap` and
`DrainReach`.

**The XML scanner** (`aerocore`, `aeroplug`). `XmlScan` is the substring scanner on
arbitrary strings, `XmlBalance` says what it means, `XmlForest` and `XmlReading`
what it finds in a document written from a tree, `XmlWalks` the two walks over whole
documents, `AsgParser` the parser of ASG replies, `AsgRoundTrip` the round trip and
`AsgText` the same on the text as AWS spells it.

`MemberOrder`, `Decimals`, `Sorting`, `Sets`, `PoolLoops`, `Scenes` and `Options` are shared
helpers.

Verify everything with `dafny verify dfyconfig.toml`.

## What turned out not to hold

- `aeroslot/src/main.rs:3` calls the plain commands functionally identical to the
  scripts. That holds run by run without interference (`NativeAlone`) and for
  interleavings in the regime of `RefinementRuns.NativeRefinesLua`: one command at a
  time per instance, no `init` and no daemon at work, no lease expired at a claim's
  clock, no crash. In that regime a slot is told to a second claim only after its
  first holder has released it (`RefinementRuns.NativeIsExclusive`). For each of the
  five conditions `RefinementLimits` has a run that gives up only that one and ends
  where no run of the scripts can: a slot told to two claims, free and leased at once,
  or gone.
- `aeroslot/src/lua.rs:87` documents a renew of an expired lease as refused. The
  script looks only at the owner key, so a lease that has run out but has not been
  swept can still be renewed (`RenewExpired.AcceptedLongAfterExpiry`). It is refused
  exactly when some claim has come by with a clock at or past the expiry
  (`RenewExpired.RefusedExactly`).
- The hysteresis of a scale-up is not a count of consecutive slope or bandwidth
  cycles, as `aeroscale/src/scaler.rs:191` says: a hard-ceiling pass sets the counter
  and a pass without group data leaves it. `Hysteresis.CounterExactly` gives its exact
  value, `Hysteresis.OneArmedPassCanScaleUp` a run that scales up after a single such
  pass, and `Hysteresis.ConsecutiveExactly` the condition under which the required
  number of consecutive ones does stand behind a scale-up.
- `aeroscale/src/scaler.rs:57` speaks of one drain at a time, and
  `aeroscale/src/scaler.rs:51` of the scale-up hysteresis. The code counts
  `drain_hysteresis_cycles`, and two backends can drain at once exactly when
  `max_concurrent_draining` is at least 2 and the drain threshold is not 0: from a fresh
  start every number up to the cap is reached (`DrainReach.ReachableExactly`). The slope
  and bandwidth triggers fire at the threshold, not only above it.
- `aeroscale/src/snapshot/leases.rs:18-21` promises that nothing destructive is done
  where an owner could not be confirmed. Section 2.2 takes the owners as reported, so an
  instance whose lease is there but whose owner record is gone or unreadable counts as
  having none: after the grace period it is terminated with its backend in service
  (`UnreadableOwner.LeaseholderIsTerminated`). `ActionOrder.OrphanedExactly` says which
  instances count as unleased.
- The min-size guard of the cleanup pass is checked against the snapshot, so several
  terminations in one pass can pass it together (`LeaseDecisions.TwoPassTheGuard`).
  `LeaseDecisions.StaysAboveMinExactly` has the exact condition under which a pass
  keeps the minimum, and `LeaseDecisions.DrainCapKeepsMin` derives it from the cap on
  concurrent drains.
- `aeroscale/src/scaler.rs:80` gives the bandwidth average a half-life of about 1.2
  cycles; the distance to a steady rate shrinks to 0.4 of itself in a single cycle
  (`Bandwidth.SmoothedConverges`).
- Drain threshold and scale-up thresholds may not be equal: one average is rounded up,
  the other down (`Opposition.OppositionExactly` has the exact condition).

## Model

| member | source | states |
|---|---|---|
| MemberOrder.LeastIsUnique | aeroslot/src/main.rs:271-278 | ZPOPMIN's choice is determined: one free slot comes before all others by score and then by the bytes of its name |
| MemberOrder.SortedLists | aeroslot/src/main.rs:257-260 | a score-ordered listing names every member, each exactly once |
| MemberOrder.SortedIsOrdered | aeroslot/src/main.rs:257-260 | the listing follows the order: an earlier member has a smaller score, or the same score and a smaller name |
| Redis.Server.ZAddAvailableNX | aeroslot/src/lua.rs:44-46 | an already free slot keeps its score and is not counted; any other is added |
| Redis.Server.ZRangeLeases | aeroslot/src/lua.rs:63 | lists exactly the leases whose expiry is not after the given time, by score and then by the bytes of the name |
| Redis.Server.ZPopMinAvailable | aeroslot/src/lua.rs:72-76 | takes the least slot out of the free set, or reports that there is none and changes nothing |
| Redis.ListSorted | aeroslot/src/main.rs:257-260 | repeatedly taking the least member lists a sorted set in order |
| PoolLoops.SweepOne | aeroslot/src/lua.rs:65-67 | one turn of the sweep frees the slot: no lease, no owner, free since `now` |
| PoolLoops.Sweep | aeroslot/src/main.rs:256-269 | the sweep frees exactly the expired leases, however many, with the claim's own clock as score |
| PoolLoops.AddIfMissing | aeroslot/src/main.rs:222-244 | one turn of init adds the slot with score 0 exactly when it is neither leased nor free |
| PoolLoops.AddAllMissing | aeroslot/src/lua.rs:36-50 | the loop adds exactly the slots of the range that are neither leased nor free, with score 0, and counts them |
| PoolLoops.Init | aeroslot/src/main.rs:216-249 | in either program init is the atomic init step with its count; an empty range is refused and changes nothing |
| LuaScripts.Claim | aeroslot/src/lua.rs:56-82 | frees every expired lease, then leases the least free slot until `now + ttl` to the claimer, or reports exhaustion |
| LuaScripts.Renew | aeroslot/src/lua.rs:88-100 | moves the expiry for the owner and refuses anybody else, changing nothing |
| LuaScripts.Release | aeroslot/src/lua.rs:106-120 | the owner's slot becomes free since `now`; anybody else is refused and nothing changes |
| NativeCommands.Claim | aeroslot/src/main.rs:251-308 | run alone: same store and same slot as the script |
| NativeCommands.Renew | aeroslot/src/main.rs:310-353 | run alone: same store as the script; the two errors tell a missing owner from a foreign one |
| NativeCommands.Release | aeroslot/src/main.rs:449-495 | run alone: same store as the script; refusals leave everything alone |
| NativeCommands.ReleaseSlot | aeroscale/src/cleanup/mod.rs:454-471 | the daemon's release frees the slot whoever owns it |
| AtomicRuns.ReachableStores | aeroslot/src/lua.rs:36-120 | in every store reachable from an empty Redis, free and leased slots are disjoint, exactly the leased ones have owners, and together they are the union of the initialised ranges, as long as the daemon only releases slots of those ranges |
| ClaimMeaning.LexLessIsByteOrder | aeroslot/src/main.rs:271-278 | of two names at equal scores the proper prefix comes first, and otherwise the one with the smaller character at the first difference |
| ClaimMeaning.ClaimTells | aeroslot/src/lua.rs:61-76 | the slot a claim tells is free once the expired leases are swept, and against every other such slot has been free longer, or as long and has the smaller name in byte order; exhaustion is told exactly when there is none |
| ClaimMeaning.ClaimLeaves | aeroslot/src/lua.rs:61-82 | what a claim leaves of every slot: swept slots free since its clock, the told one leased until clock plus TTL in the claimer's name, all else as it was |
| ClaimMeaning.InitLeaves | aeroslot/src/lua.rs:40-48 | init adds with score 0 exactly the numbers of its range that are neither leased nor free and leaves every other slot as it was |
| ClaimMeaning.ReleaseLeaves | aeroslot/src/lua.rs:106-120 | an accepted release makes its slot free since its clock, without lease or owner, and leaves every other slot as it was; a refused one leaves everything |
| ClaimMeaning.RenewLeaves | aeroslot/src/lua.rs:88-100 | an accepted renew sets its slot's expiry to its clock plus the TTL and leaves every other slot as it was |
| AtomicRuns.RenewNeverCreatesALease | aeroslot/src/lua.rs:88-100 | in a reachable store a renew changes no key set and is accepted just for the owner of a leased slot |
| AtomicRuns.Exclusive | aeroslot/src/lua.rs:56-120 | over any run whose claim clocks stay below the slot's current expiry and in which its holder does not release: the holder keeps it, no claim returns it, every foreign renew or release of it is refused |
| RenewExpired.RefusedExactly | aeroslot/src/lua.rs:56-100 | from any store in which the instance holds the slot, after any operations of others, its renew is refused if and only if some claim among them had a clock at or past the expiry; its own clock does not matter |
| RenewExpired.AcceptedLongAfterExpiry | aeroslot/src/lua.rs:86-100 | from a reachable store, at any clock past the expiry, a renew is accepted and gives the lease a new expiry |
| AtomicRuns.ClaimOrRenewHolds | aeroslot/src/lua.rs:78-100 | a successful claim or renew starts such a tenure, with expiry `now + ttl` |
| AtomicRuns.ClaimSweepsExactlyTheExpired | aeroslot/src/lua.rs:61-82 | a claim leaves a lease alone if and only if its clock is below the expiry |
| AtomicRuns.ClaimedTwice | aeroslot/src/lua.rs:56-120 | between two claims that are told the same slot, all claim clocks in between lying before its expiry, the first holder or the daemon has successfully released it |
| AtomicRuns.ToldOnce | aeroslot/src/lua.rs:56-82 | claims made at the same time, any number, in any order and with any inits among them, never hand out a slot twice |
| Bypass.MovesUp | aeroslot/src/lua.rs:61-81 | without init, and with later clocks, each claim moves a free slot up by exactly one place and no other operation moves it; nobody gets it before its turn |
| Bypass.BoundedBypass | aeroslot/src/lua.rs:70-81 | of the coming claims, the one numbered by the slot's rank gets the slot, and no earlier one |
| Bypass.CoolsOffLongest | aeroslot/src/lua.rs:115-118 | a slot freed strictly later than all others is reused only after every slot then free has been handed out |
| NativeMachine.NoSlotLost | aeroslot/src/main.rs:222-295 | under any interleaving of native steps, init and the daemon, a slot of the pool is free, leased, or in the hands of an unfinished command; only a crash between remove and add can lose it |
| NativeMachine.InitRecovers | aeroslot/src/main.rs:216-249 | a completed init pass has put every slot of its range back, whatever earlier crashes lost |
| NativeAlone.ClaimAlone | aeroslot/src/main.rs:251-308 | the stepwise claim, undisturbed and from any store, ends in the store and reply of the script |
| NativeAlone.RenewAlone | aeroslot/src/main.rs:316-352 | the same for renew, with the clock read between its two commands |
| NativeAlone.ReleaseAlone | aeroslot/src/main.rs:452-495 | the same for release |
| NativeAlone.ReleaseSlotAlone | aeroscale/src/cleanup/mod.rs:466-470 | the same for the daemon's three-command release |
| NativeAlone.InitAlone | aeroslot/src/main.rs:221-249 | the same for init |
| NativeWrites.ClaimInOrder | aeroslot/src/main.rs:251-308 | whatever runs in between, a claim that ends has made exactly these steps in this order: one scan, for each expired lease ZREM lease, ZADD available, DEL owner, then the pop and, for the slot it tells, ZADD lease and SET owner; one that stops or crashes has made the first of them |
| NativeWrites.ReleaseInOrder | aeroslot/src/main.rs:449-490 | a release checks the owner first and, if it is its own, makes exactly DEL owner, ZREM lease, ZADD available, dated by the clock read behind the check; a refused one writes nothing |
| NativeWrites.DaemonInOrder | aeroscale/src/cleanup/mod.rs:454-471 | the daemon's release makes the same three writes in the same order |
| RefinementRuns.StepSimulated | aeroslot/src/main.rs:251-495 | each Redis command of an orderly run either takes effect as one script or does nothing to the atomic store; a claim takes effect at its ZPOPMIN, a renew at its ZADD, a release at its last ZADD, a refusal at its GET |
| RefinementRuns.NativeRefinesLua | aeroslot/src/main.rs:251-495 | every orderly interleaving gives the replies of a sequence of scripts, one per command that took effect and each in its own name; once all commands are over the stores are equal |
| RefinementRuns.NativeIsExclusive | aeroslot/src/main.rs:251-495 | in every orderly interleaving, when two claims are told the same slot the first one's instance has successfully released it in between |
| RefinementRuns.NoTwoOwners | aeroslot/src/main.rs:251-308 | in particular, as long as nobody releases, no two processes are ever told the same slot |
| RefinementLimits.OrderlyMeetsAll | aeroslot/src/main.rs:251-495 | the regime is the conjunction of five conditions |
| RefinementLimits.ExpiredLeaseBreaksExclusivity | aeroslot/src/main.rs:256-295 | with no free slot and one lease that has expired: a run of exactly two claims of different instances, keeping every other condition, in which both are told the slot; in no order and number do the scripts' claims at that time tell it twice |
| RefinementLimits.InitBreaksExclusivity | aeroslot/src/main.rs:225-243 | a run of exactly two claims and one init, keeping every other condition, in which the init frees a slot between a claim's pop and its lease and both claims are told it; the scripts, inits included, never tell it twice |
| RefinementLimits.TwoCommandsBreakTheStore | aeroslot/src/main.rs:321-332 | a run of exactly one renew and one release of the same instance, keeping every other condition, that ends with the slot free and leased at once, in a store that no sequence of scripts reaches |
| RefinementLimits.DaemonBreaksTheStore | aeroscale/src/cleanup/mod.rs:466-470 | the same for one renew and one release by the daemon |
| RefinementLimits.CrashLosesTheSlot | aeroslot/src/main.rs:273-295 | a run of one claim that crashes behind its pop, keeping every other condition, ends without the slot, in a store that no sequence of scripts reaches |
| Heartbeat.HeartbeatKeepsSlot | aeroslot/src/main.rs:396-446 | if the TTL exceeds interval, retries, call times and clock skews together, then from the first renew on no claimer's clock reaches the expiry, no claim gets the slot, and the heartbeat never ends because the slot is not its own |
| Heartbeat.ShorterLeaseIsLost | aeroslot/src/main.rs:396-446 | the bound is tight: with any shorter TTL there is a run within all time bounds in which a claim takes the slot away |
| Heartbeat.CallsPerTick | aeroslot/src/main.rs:400-434 | between two ticks at most `retry_attempts` further renew calls are made |
| NativeHeartbeat.KeepsSlotInterleaved | aeroslot/src/main.rs:251-446 | the same bound against any interleaving of the others' single Redis commands, init and crashes included, if at the first renew no sweep list names the slot and no command works on it: the slot stays held, off every sweep list and out of the free set, nobody is told it, and the heartbeat never ends because it is not its own |
| NativeHeartbeat.StaleSweepTakesSlot | aeroslot/src/main.rs:257-269 | a sweep list that still names the slot takes it, however long the lease, within all time bounds |
| HeartbeatLoop.RenewWithRetry | aeroslot/src/main.rs:400-434 | a tick ends with its first answer that is no IO error, or gives up after `retry_attempts + 1` calls, and makes no other call |
| HeartbeatLoop.Run | aeroslot/src/main.rs:396-446 | the loop stops at the first tick that fails, and reports a lost slot just when that tick's answer was a rejection |
| Snapshot.SlotOfIp | aerocore/src/slot_network.rs:140-151 | slot number and address are inverse to each other exactly as long as the address does not wrap around |
| Snapshot.CarriesLease | aeroscale/src/snapshot/mod.rs:203-223 | a backend carries a lease if and only if the lease is in the list and its slot's address is the backend's; in terms of `slot_for_ip` exactly when the address does not wrap |
| Snapshot.CollectJoinsWell | aeroscale/src/snapshot/mod.rs:170-234 | every collected snapshot is joined that way, and after a failed ASG query shows no instances |
| Snapshot.JoinExactly | aeroscale/src/snapshot/mod.rs:209-223 | each backend has the address and the state of its weight file, and the first IPVS entry of the address, or none exactly when the query failed or there is no such entry |
| Snapshot.InServiceExactly | aeroscale/src/snapshot/mod.rs:117-119 | an instance counts as InService exactly when the reply lists its id, in whichever group, with the lifecycle state spelt `InService` |
| Snapshot.GroupExactly | aeroscale/src/snapshot/asg.rs:20-25 | the capacities are those of the first group of the reply; nothing is known exactly when the query failed or brought no group |
| WeightText.TextsAre | aeroscale/src/snapshot/mod.rs:40-47 | a weight file means active, draining or disabled exactly when its trimmed text is `0`, `-1` or `-2147483648` |
| WeightText.WrittenIsRead | aeroscale/src/cleanup/mod.rs:37-39 | each state that is written is read back as itself, whatever white space surrounds its text |
| Leases.LeaseReader.ReadAll | aeroscale/src/snapshot/leases.rs:52-139 | updates the cache read by read and returns the resolved leases sorted by slot |
| Leases.CacheIsLastAnswer | aeroscale/src/snapshot/leases.rs:75-124 | the cache holds exactly the slots whose last answer from Redis, in any cycle, was an owner, and that owner |
| Leases.OwnerIsLastAnswer | aeroscale/src/snapshot/leases.rs:75-124 | the reported owner in terms of all reads so far: the last answered owner, or one of the two sentinels, and which |
| Leases.ReportedOwnerWasRead | aeroscale/src/snapshot/leases.rs:75-134 | an owner that is no sentinel was read from Redis in this or an earlier cycle, and nothing else was read about the slot since |
| Leases.ReportedSlots | aeroscale/src/snapshot/leases.rs:137-138 | the reported leases ascend strictly by slot, one for each member of the set |
| Sorting.SortSorts | aeroscale/src/snapshot/leases.rs:137 | sorting by key orders the list and keeps every element as often as it was there |
| Sorting.SortIsStable | aeroscale/src/scaler.rs:699-700 | elements with the same key keep their order |
| Cleanup.TryAppends | aeroscale/src/cleanup/mod.rs:223-267 | a failing action ends what is left of its own plan and nothing else |
| Cleanup.CleanupDaemon.ReleaseSlot | aeroscale/src/cleanup/mod.rs:454-471 | owner, lease and free set in this order, stopping at the first failure; nothing in a dry run |
| Cleanup.CleanupDaemon.HandleLease | aeroscale/src/cleanup/mod.rs:170-310 | attempts exactly the actions decided for the lease, up to the first failure |
| Cleanup.CleanupDaemon.Section21ActiveLeases | aeroscale/src/cleanup/mod.rs:93-168 | handles every lease in order unless the ASG data is implausible, when it does nothing |
| Cleanup.CleanupDaemon.Section22OrphanedAsgInstances | aeroscale/src/cleanup/mod.rs:314-386 | timers and terminations are those of the scan over all instances |
| Cleanup.CleanupDaemon.Section23BackendsWithoutLeases | aeroscale/src/cleanup/mod.rs:390-430 | attempts to disable every active or draining backend without a lease, each independently |
| Cleanup.CleanupDaemon.Run | aeroscale/src/cleanup/mod.rs:65-89 | a backup does nothing; a master runs the three sections one after the other |
| DaemonRuns.RefreshCycle | aeroscale/src/bin/aeroscale.rs:427-503 | a turn of the refresh loop carries cache, timers, log and scaler state from one cycle to the next; the scaler sees the snapshot taken before cleanup, and only on the master |
| DaemonRuns.EvidenceBeforeRelease | aeroscale/src/cleanup/mod.rs:106-230 | over any run, a slot is released only by a master, when the group is known and has an InService instance, and the owner of the lease is not InService and is the last owner Redis answered for that slot, with no nil since |
| DaemonRuns.FailedQueryIsHarmless | aeroscale/src/cleanup/mod.rs:134-142 | a cycle whose ASG query failed attempts nothing but disabling active or draining backends without leases: no release, no termination, no write to a leased backend |
| SingleWrite.OneWritePerFile | aeroscale/src/cleanup/mod.rs:186-187 | one pass attempts at most one write to each weight file: by section 2.1 if a lease's slot has that address, by section 2.3 otherwise |
| OrphanGrace.TimersAreTheOrphans | aeroscale/src/cleanup/mod.rs:322-385 | after each pass the timers are exactly those of the InService instances that no reported lease names and that were not just terminated |
| OrphanGrace.GraceIsObserved | aeroscale/src/cleanup/mod.rs:336-380 | a termination for lacking a lease has a strictly earlier pass at least the grace period ago, since which the instance was InService and named by no reported lease in every pass |
| OrphanGrace.GraceEnds | aeroscale/src/cleanup/mod.rs:353-380 | and an instance that has been so for the grace period has been terminated by some pass since |
| Convergence.ActingLowers | aeroscale/src/cleanup/mod.rs:154-429 | a pass that does anything lowers, lexicographically, the InService and leased count and then the number of misplaced weight files |
| Convergence.BoundedlyManyAct | aeroscale/src/cleanup/mod.rs:154-429 | with no outside events and successful actions, a run of any length has at most (InService + leases + 1) * (weight files + 1) passes that act |
| Convergence.QuietMeansSettled | aeroscale/src/cleanup/mod.rs:154-429 | a pass that does nothing on trustworthy data leaves nothing to do: known owners are InService, live leases are not disabled, unleased backends are not in use |
| Convergence.AllIsDone | aeroscale/src/cleanup/mod.rs:154-429 | when every action succeeds a pass carries out all its plans in order, so that the passes counted are those the methods run |
| LeaseDecisions.Decisions | aeroscale/src/cleanup/mod.rs:170-310 | for every action, exactly when section 2.1 plans it for a lease: release if the known owner is not InService, terminate if drained out and the group can spare it, re-enable if disabled under a live lease, disable just in the first two cases |
| LeaseDecisions.DecisionsInOrder | aeroscale/src/cleanup/mod.rs:218-269 | the order of those actions, the first failure of which ends them: owner key, lease and free entry before the weight file, and the weight file before the termination |
| CycleDecisions.Section21Exactly | aeroscale/src/cleanup/mod.rs:93-310 | from the weight files, leases, ASG reply and IPVS list alone: for every action, section 2.1 plans it if and only if the reply lists someone in state `InService` and some lease wants it, with every condition in terms of those inputs |
| CycleDecisions.Section23Exactly | aeroscale/src/cleanup/mod.rs:390-430 | section 2.3 disables exactly the active and draining weight files at the address of no lease |
| CycleDecisions.ReleasedExactly | aeroscale/src/cleanup/mod.rs:106-230 | a cycle plans the three steps of a release if and only if the reply lists some instance in state `InService`, and the last answered owner of the slot's lease, in all cycles so far, is no sentinel and not listed so |
| CycleDecisions.OrphansExactly | aeroscale/src/cleanup/mod.rs:322-385 | an instance is terminated by section 2.2, without decrementing the capacity, if and only if the reply lists it in state `InService`, no lease's last answered owner is it, and its timer has run for the grace period; it is timed if and only if all but the last holds |
| CycleDecisions.CountedExactly | aeroscale/src/scaler.rs:378-386 | a weight file takes part in the scaler's decisions, with half its active connections, if and only if it is active, some lease of its address expires later than now, and IPVS lists it |
| CycleDecisions.TriggersExactly | aeroscale/src/scaler.rs:512-529 | the hard trigger fires exactly when the sessions exceed one less than the ceiling per active backend (the average is rounded up); slope and bandwidth triggers exactly at the floor and their thresholds, the smoothed rate being compared with the threshold times the number of backends |
| CycleDecisions.AveragesExactly | aeroscale/src/scaler.rs:398-404 | the rounded-up average exceeds a limit exactly when the sessions exceed it per backend, and the rounded-down average of the drain gate reaches it exactly when the sessions do |
| LeaseDecisions.StaysAboveMinExactly | aeroscale/src/cleanup/mod.rs:249-260 | for every snapshot at or above the minimum: taking each termination off the desired capacity, section 2.1 keeps the minimum if and only if the group is at the minimum already or has no more drained-out backends of serving owners than instances to spare; and how many it terminates |
| LeaseDecisions.FewDrainsStayAboveMin | aeroscale/src/cleanup/mod.rs:249-260 | no more draining weight files than instances to spare suffices |
| LeaseDecisions.DrainCapKeepsMin | aeroscale/src/scaler.rs:684-697 | so does, in any run, that neither the initial number of draining backends nor the cap on concurrent drains exceeds the instances to spare |
| LeaseDecisions.TwoPassTheGuard | aeroscale/src/cleanup/mod.rs:249-260 | one above the minimum, one pass can terminate two |
| ActionOrder.SlotsAreFreedLast | aeroscale/src/cleanup/mod.rs:466-470 | in the log of any run, whichever actions fail, a slot is put back only right after its owner key and its lease were removed successfully |
| ActionOrder.TerminationsAreOrdered | aeroscale/src/cleanup/mod.rs:266-267 | in every cycle of a run, whichever actions fail, an instance is terminated only as an orphan past its grace period, or as the owner of a lease right after its backend was successfully disabled |
| ActionOrder.SectionsInOrder | aeroscale/src/cleanup/mod.rs:65-89 | in every cycle, whichever actions fail, the log grows by actions on leases, then by terminations of instances no lease names, then by disabled backends without leases |
| ActionOrder.TimersOfRun | aeroscale/src/bin/aeroscale.rs:374-458 | the daemon's timers after any run are those of its cleanup passes, backup cycles left out |
| ActionOrder.OrphanedExactly | aeroscale/src/cleanup/mod.rs:322-323 | an instance counts as the owner of a lease in a cycle if and only if, for some lease read in it, Redis's last answer about the slot in any cycle so far named the instance |
| ActionOrder.TerminationsAreJustified | aeroscale/src/cleanup/mod.rs:329-385 | for every termination in the cleanup's log: it owns a lease whose backend was disabled just before, or since a cycle at least the grace period ago every cleanup pass saw the instance InService and no lease whose last answered owner it was |
| UnreadableOwner.LeaseholderIsTerminated | aeroscale/src/cleanup/mod.rs:322-380 | for any grace period, two cycles in which the owner of an unexpired lease is answered nil or cannot be read, with its backend active: all they do is terminate the InService instance |
| Scaler.ComputeSmoothedSlope | aeroscale/src/scaler.rs:281-314 | the loop computes the mean over the usable ones of the last six lags, or nothing when there are none |
| Scaler.ScalerState.UpdateBandwidth | aeroscale/src/scaler.rs:463-499 | smooths only forward readings more than 0.1 s apart, and always moves the baseline |
| Scaler.ScalerState.EvaluateScaleUp | aeroscale/src/scaler.rs:436-641 | triggers, counter, guards and action as one function of the state before |
| Scaler.ScalerState.EvaluateDrain | aeroscale/src/scaler.rs:645-805 | gate, counter, cooldown and choice as one function of the state before |
| Scaler.ScalerState.Run | aeroscale/src/scaler.rs:362-432 | one pass; without active backends both counters start anew |
| ScalerRuns.AsksForOneMore | aeroscale/src/scaler.rs:583-637 | a scale-up asks for one more than the snapshot's desired capacity and never for more than the maximum; exactly when the cast to `u32` keeps the number |
| ScalerRuns.CooldownOverRuns | aeroscale/src/scaler.rs:595-640 | any `k + 1` consecutive scale-ups of a run span at least `k` cooldowns |
| Hysteresis.CounterExactly | aeroscale/src/scaler.rs:550-577 | the counter is exactly the threshold plus the armed passes since the last hard-ceiling pass, or without one the armed passes, since it was last zero; no evaluated pass since then had all triggers clear |
| Hysteresis.ScaleUpIsBacked | aeroscale/src/scaler.rs:550-581 | behind every scale-up since the counter's last zero no evaluated pass had all triggers clear, and there was a hard-ceiling pass or the required number of slope or bandwidth passes |
| Hysteresis.ActsExactly | aeroscale/src/scaler.rs:548-641 | over runs, an evaluated pass asks for desired + 1 if and only if it is at the ceiling, or armed with the exact count at the threshold, desired is below max, the last action of the run is a cooldown ago, and this is no dry run; it counts as an action exactly if AWS then complies |
| Hysteresis.ConsecutiveExactly | aeroscale/src/scaler.rs:550-581 | the required number of slope or bandwidth passes below the ceiling, and nothing else, lies between the counter's last zero and a scale-up if and only if no pass since then hit the ceiling or lacked group data |
| Hysteresis.OneArmedPassCanScaleUp | aeroscale/src/scaler.rs:550-593 | for configurations that ask for several: a run of two passes over snapshots the join produces that scales up in the second, with one such pass in all |
| ScalerRuns.WindowIsRecent | aeroscale/src/scaler.rs:505-510 | after any run the window holds the seven most recent evaluated passes, in order |
| ScalerRuns.SlopeIsAMean | aeroscale/src/scaler.rs:281-314 | the slope exists exactly when a recent sample is far enough back, and lies between the extreme lag slopes, so that a steady rate is returned as it is |
| ScalerRuns.SteadyGrowth | aeroscale/src/scaler.rs:281-314 | sessions that grew at one rate over the last six samples give exactly that rate, per minute, if any sample is at least 0.1 s old |
| Opposition.OppositionExactly | aeroscale/src/scaler.rs:398-404 | some run from the daemon's start over snapshots the join produces reaches a pass with a trigger to grow and an open drain gate, if and only if the thresholds are not separated; strictly below both is separated, equality is not |
| Opposition.NeverBoth | aeroscale/src/scaler.rs:415-428 | with separated thresholds no pass both asks for capacity and drains a backend |
| ScalerRuns.DrainsIdleOrBusiest | aeroscale/src/scaler.rs:684-800 | a drained backend is the first idle one in the order of the weight files, or, when none is idle and nothing else drains, the last of the busiest; and the snapshot was below the cap |
| DrainRuns.CounterCountsOpens | aeroscale/src/scaler.rs:653-738 | the drain counter is exactly the number of passes that saw the gate open since it was last zero, with none in between that saw it closed |
| DrainRuns.DrainIsBacked | aeroscale/src/scaler.rs:710-738 | behind every drain lie at least the required number of open passes, the draining one included, and no closed one since the counter was zero |
| DrainRuns.DrainsExactly | aeroscale/src/scaler.rs:653-805 | over runs, a pass picks a backend to drain if and only if at least two backends are active, desired is above min, fewer than the cap drain, the sessions are below the threshold per backend, the gate has been open for the required passes, the last drain is a cooldown ago, and some active backend is idle or nothing drains; it counts as a drain exactly if the write then succeeds |
| DrainRuns.DrainCooldownOverRuns | aeroscale/src/scaler.rs:742-804 | any `k + 1` consecutive drains of a run span at least `k` cooldowns |
| Bandwidth.BaselineIsLastReading | aeroscale/src/scaler.rs:475-496 | the next difference is always taken from the last reading that succeeded, also after a counter reset |
| Bandwidth.ContributesExactly | aeroscale/src/scaler.rs:463-499 | a reading contributes exactly when it succeeds more than 0.1 s after the last one with no fewer bytes, namely the bytes per second since then; the rate shown is that rate rounded down, up to the largest the type holds, and stays when nothing contributes |
| Bandwidth.SmoothedWithin | aeroscale/src/scaler.rs:465-499 | over any readings the average stays between the least and the greatest of its start and the rates it was fed |
| Bandwidth.SmoothedConverges | aeroscale/src/scaler.rs:79-83 | fed a steady rate, its distance to that rate shrinks to four tenths with each contributing reading; failed, early and backward readings change nothing |
| Bandwidth.SteadyTraffic | aeroscale/src/scaler.rs:463-499 | from a fresh start under steady traffic, after `n + 1` readings the average is short of the true rate by 0.4 to the `n`-th of it |
| DrainCap.StepKeepsCap | aeroscale/src/listener.rs:162-206 | no step of reader, cleanup, scaler or listener makes more backends drain than before or than the cap |
| DrainCap.CapHolds | aeroscale/src/scaler.rs:684-804 | over any interleaving, with any failures, the number of draining backends never exceeds the larger of its initial value and the cap, though the scaler acts on a stale snapshot |
| DrainCap.SnapshotsWithinCap | aeroscale/src/snapshot/weights.rs:24-62 | no snapshot of a run, read file by file while messages arrive, shows more draining backends than that |
| DrainCap.FileIsLastWritten | aeroscale/src/listener.rs:162-175 | after any interleaving a weight file holds what the last successful write to it put there, or what it held at the start: a claim message Active, a release message Disabled, a cleanup action its state, the scaler only Draining |
| DrainReach.ReachableExactly | aeroscale/src/scaler.rs:684-804 | from a fresh start with nothing draining, some run has exactly `k` backends draining if and only if `k` is 0, or writes are made, the drain threshold is not 0 and `k` is at most the cap |
| XmlScan.FindIsFirst | aerocore/src/aws/mod.rs:260 | an occurrence is never missed: `find` returns one at or before it |
| XmlScan.ScanToClose | aerocore/src/aws/mod.rs:263-281 | the jumping loop finds what the character-by-character count finds, and terminates on every input |
| XmlScan.ExtractBalanced | aerocore/src/aws/mod.rs:257-281 | the same for the whole function, for every string and every tag without angle brackets |
| XmlScan.TrimCuts | aerocore/src/aws/mod.rs:289 | trimming takes nothing but white space off the two ends and leaves none there |
| XmlBalance.BalancedIsFirstReturn | aerocore/src/aws/mod.rs:257-281 | the result runs from behind the first open tag to the first close tag at which closes exceed opens by one, and is `None` exactly when there is no open tag or no such close |
| XmlBalance.ResultIsBalanced | aerocore/src/aws/mod.rs:257-281 | the result has as many open as close tags, and no prefix of it has more closes than opens |
| XmlReading.ScalarReadsField | aerocore/src/aws/mod.rs:284-290 | on any written document, `extract_scalar` returns the trimmed content of the first such element in document order, at any depth, if it holds no other such element, or `None` when there is none |
| XmlReading.BalancedReadsFirst | aerocore/src/aws/mod.rs:257-281 | on any written document, `extract_balanced` returns the content of the first such element in document order, at any depth |
| XmlReading.WalkReadsOuter | aerocore/src/asg/mod.rs:128-133 | on any written document, slicing past each element that `extract_balanced` returns visits the outermost such elements, in document order and nothing inside them |
| XmlWalks.ExtractAllScalars | aerocore/src/aws/mod.rs:295-310 | the position-keeping loop collects what the recursive scan collects |
| XmlWalks.AllScalarsReadsTree | aerocore/src/aws/mod.rs:292-310 | the trimmed content of every such element, in document order and at any depth, when none lies in another |
| XmlWalks.CountItems | aeroplug/src/attach.rs:612-635 | the shrinking loop counts what the recursive walk counts |
| XmlWalks.ItemsCountsTree | aeroplug/src/attach.rs:604-635 | on any written document, the number of items in the first interface set that lie in no other item |
| XmlWalks.OnePerInterface | aeroplug/src/attach.rs:604-611 | a set of `n` interfaces counts `n`, whatever items each of them holds |
| AsgParser.ParseInstances | aerocore/src/asg/mod.rs:143-164 | the shrinking loop returns one instance for each member block, with the defaults for missing fields |
| AsgParser.ParseGroup | aerocore/src/asg/mod.rs:135-174 | a member without a group name yields nothing; unreadable numbers are 0 |
| AsgParser.ParseAsgDescribe | aerocore/src/asg/mod.rs:118-179 | the shrinking loop returns the groups of all member blocks, in order |
| AsgParser.ParseReadsTree | aerocore/src/asg/mod.rs:118-179 | on any written document whose fields do not hold themselves: wherever the members lie and whatever stands beside them, in whatever order fields stand and whatever else members hold, the parser returns what a reader of the tree would write down |
| AsgRoundTrip.ParsePrint | aerocore/src/asg/mod.rs:118-179 | groups printed as nested member and Instances elements are parsed back unchanged, names, capacities and instances in order, inside any layers of wrapping elements with anything but members beside the list |
| AsgText.ParseText | aerocore/src/asg/mod.rs:118-179 | the round trip on the text itself: groups spelt out letter by letter in the elements AWS uses are parsed back unchanged |
| AsgText.MissingFields | aerocore/src/asg/mod.rs:119-163 | what stands for missing fields and unreadable numbers, and that a nameless member yields no group |
| Decimals.ParseI64RoundTrip | aerocore/src/asg/mod.rs:119-123 | every 64-bit integer survives being printed and parsed |
| Decimals.ParseI64Exactly | aerocore/src/asg/mod.rs:119-123 | exactly the texts made of an optional sign, any zeros and a numeral in the 64-bit range are accepted, with that number |

## Left out

- Redis, HTTP, AWS, IMDS, tokio, TLS and signal plumbing: Redis commands are operations on maps, AWS calls and file writes are logged actions whose success is an input, clock readings are inputs.
- SigV4 signing and hashing; CLI parsing; logging; metrics; the status command; weight persistence and restoration (`weight_sync.rs`); VRRP role detection (the role is an input of each cycle); credentials.
- `PUBLISH` notifications at the end of claim and release; the listener appears only through its two weight writes, so its termination of a released instance is in no log here.
- A Redis command whose reply is lost although it was applied is modelled in `Heartbeat` (failure after the write); a command applied after its call has been given up is not.
- The daemon's `release_slot` is part of `NativeMachine` and the atomic machine, but not of the regime of the refinement: it checks no ownership.
- Redis scores are integers here, doubles in Redis; hysteresis counters, session sums and `now + ttl` do not overflow in the model. Slot addresses wrap at 32 bits, the cast of the new capacity to `u32` and the saturating casts of bandwidths to `u64` are modelled.
- Slope and bandwidth are computed over the reals; rounding and NaN are not modelled. Instants are whole milliseconds.
- Each pass of cleanup and scaler has one wall-clock and one monotonic reading; the scaler has a second one after its actions. The code reads the clock anew for every lease.
- A wake-up that comes late after a sleep counts as part of the next call's latency in `Heartbeat`.
- Malformed slot names in Redis, which the code reads as slot 0: names are canonical numerals here.
- The file system's torn writes and files that vanish between listing and reading.
- Sorting of ASG instances by id and of weight files before the join, except in `DrainCap`; the order does not matter to what is proved.
- `drain_candidate`, which is never set.
- XML attributes, self-closing tags, comments, CDATA and entities, which the scanners do not know either: trees are written with plain tags. Text is a sequence of characters, not of UTF-8 bytes, so offsets count characters.
- `extract_balanced` for tags that contain angle brackets: termination is proved, the result is not characterised.
- aeroftp, aeropulse, aerobake.
