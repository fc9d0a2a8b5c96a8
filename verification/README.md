# Stacklane: leases, reconciliation and relays, verified

Stacklane gives every local Compose stack its own loopback address (a VIP), publishes DNS names for
it and proxies its ports. This project models the part of the daemon that decides who gets which
address and what is advertised, and proves what the daemon is for: a stack keeps its address, no
address is ever advertised for two stacks, and nothing is advertised that is not already durable.

Check everything with `dafny verify dfyconfig.toml` (Dafny 4.11).

## What is modelled

- **One pass.** `Engine` is the reconcile engine: load the leases, list the containers, release
  expired leases, resolve endpoint conflicts, allocate, save, and only then replace the DNS records
  and reconcile the proxy. Its method is proved to take one step of a relation over `World`: the
  configuration, the file system, the record set, the listener table and the status.
- **Runs.** `Runs` adds what surrounds a pass: load, list, save and bind failures, rejected record
  sets, crashes on any step, stops, power losses, restarts under another configuration.
  `Runs.RunSafe` is the safety theorem; `Stability.StableVIP` and `Stability.VIPIsItsOwn` say how
  long an address stays with its stack; `Service.PassServes` says what a client gets.
- **Placement.** `Build` and `Leases` follow the program's loops and in-place slice edits.
  `Placement.AllocationPass` gives an independent closed form of a whole allocation pass, and all
  later theorems use the closed form only.
- **Layers.** `Pool` (enumeration and its exact count), `Names` (injectivity and the one collision),
  `Labels`, `Store` (two validators, write protocol, round trip), `Calendar` (the years a file can
  carry), `Dns`, `Proxy`, `Apply`, `Publish` and `Route` (what is published, where names and ports
  lead).
- **Concurrency.** `UdpRelay`, `Admission` and `Debounce` model the UDP relay, the connection
  counter of the accept loops and the engine's trigger loop as atomic steps, and prove over every
  interleaving their invariants, what each step answers to in the history before it, and that they
  can always finish.

Time is a number of nanoseconds since year 1, whose zero is Go's zero time. Listing order, map
iteration order, ties of an unstable sort, clock readings, bind and system-call outcomes are
parameters or unconstrained choices.

## Where the code does less than one might expect

Each of these is stated exactly, with a condition a caller can check; `Examples` holds concrete inputs
at which the promise fails.

- *Stability.* A stack is not safe for the whole grace period after its last activity: times are
  stored as whole seconds, so up to one second is lost (`Stability.GraceCost`, `Examples.LostSecond`).
  `Stability.IdleLeaseBoundary` and `Stability.LiveLeaseBoundary` give the exact instant and what
  happens after it.
- *Names.* DNS lists stacks first, the resolve map lets endpoints win. They differ exactly when
  endpoint `x` of a project without instance meets the stack of the same project with instance `x`
  (`Names.ApexCollision`, `Publish.EndpointNamesAgree`, `Publish.ApexNamesAgree`,
  `Examples.NamesDisagree`).
- *Record sets.* The DNS server trims the base domain and the engine does not: an untrimmed base
  domain can have every record set refused (`Route.SetRecordsAccepts`, `Examples.UntrimmedRefused`).
- *Shared ports.* Two endpoints of a stack on one public port compete for one listener and the
  greatest name wins (`Route.CompeteIff`, `Route.ListenerBackend`, `Examples.SharedPort`).
- *Host port 0.* Such an endpoint is published in DNS and refused by the proxy (`Route.BuiltAllowed`,
  `Examples.HostPortZero`).
- *Admission.* Connections still being checked count, so one can be refused while fewer than
  MaxConns are handled (`Admission.RefusedIff`, `Admission.RefusedWhileIdle`).
- *Round trip.* Times outside the years that the file format can carry are saved and then refused on
  load (`Store.LoadAfterSave`, `Examples.LateLease`).
- *Dead code.* In the UDP relay the "another packet won the race" branch and the second capacity
  check cannot be reached (`UdpRelay.SecondCheckNeverFires`).
- *Counting.* `countUsable` counts the last address of a prefix when its last octet is neither 0 nor
  255, and the pool leaves it out; the accepted CIDRs are the same (`Pool.CountsDiffer`,
  `Examples.OneTooMany`, `Pool.ValidateVIPPool`).
- *Denials.* An A query for the zone apex is denied although the apex exists for every other type;
  RFC 2308 sections 2.1 and 2.2 are not claimed (`Dns.DenialsAgree`, `Examples.ApexDenied`).
- *Failed saves.* After a failed Save the status shows the state that was built and not advertised,
  while records and listeners stay (`Runs.FailedPassKeeps`, `Examples.StatusAhead`).

## Code and documentation

Where `docs/plans/initial-mvp.md` and the code differ, the model follows the code.

- The plan drops leases outside the pool on load (line 659); the code keeps them until their stack is
  live again (`Placement.BystanderKept`, `Leases.AllocateNeeds`).
- The plan expires leases also on load (lines 499-504); the code expires them only in a pass that has
  listed the containers.
- The plan saves inside each allocation (line 459); the code saves once per pass, before advertising
  anything (`Engine.Engine.ApplyDesired`).

## Model

| member | source | states |
|---|---|---|
| `Runs.RunSafe` | internal/reconcile/engine.go:239-305 | Over every run of passes, failed loads, lists, saves and binds, rejected record sets, crashes at any step, stops, power losses and restarts under any configuration, from any file system: at each boundary every published record and open listener belongs to one desired state whose stacks each hold their address in the durable file, records only name that state's apexes and endpoints, and listeners forward to its bindings |
| `Runs.PassSafe` | internal/reconcile/apply.go:37-70 | One pass, whatever fails in it, keeps that invariant: persist before advertise |
| `Runs.FailedPassKeeps` | internal/reconcile/engine.go:242-267 | A pass that cannot load or list changes nothing but the pass count; one whose Save fails changes only the status and leftovers of the temp file, and the status is exactly that of the state it built, for admissible winners |
| `Examples.StatusAhead` | internal/reconcile/apply.go:39-44 | A concrete failed first pass: in every outcome DNS is empty and the status resolves the stack's name |
| `Runs.SavedPassAdvertises` | internal/reconcile/apply.go:39-70 | A pass whose Save works leaves exactly the built snapshot on file, and advertises what was built, for one admissible choice of conflict winners |
| `Runs.SaveNeverRejects` | internal/state/jsonstore.go:299-319 | Every snapshot derived from a loaded one by ReleaseExpired and BuildDesired passes the save-time validator |
| `Runs.OneOwner` | internal/state/jsonstore.go:224-281 | A readable file never leases one address to two stacks |
| `Runs.StartOutcome` | internal/app/serve.go:60-70 | Start-up serves a readable file as it is, drops a corrupt one only when reset was asked for and then starts with no leases, and in every other case refuses to start and changes nothing |
| `Engine.Engine.ReconcileOnce` | internal/reconcile/engine.go:232-305 | The imperative pass (load, list, release, build, save, set records, reconcile, publish status) takes one step of the pass relation that the run theorems quantify over |
| `Engine.Engine.CompletePass` | internal/reconcile/engine.go:269-304 | After load and list: winners are admissible and the whole new world state is that of the relation |
| `Engine.Engine.ApplyDesired` | internal/reconcile/apply.go:31-73 | Saves first; records, listeners and call count move only when Save succeeded, else they are as before; the status is built either way |
| `Engine.Engine.Advertise` | internal/reconcile/apply.go:46-70 | Replaces the record set if the server accepts it, else keeps the old one, and reconciles the proxy with the sorted endpoints either way |
| `Engine.Engine.BuildStatus` | internal/reconcile/apply.go:187-218 | The status holds the sorted endpoints, a resolve map of the right relation, and the leases |
| `Stability.StableVIP` | internal/vip/allocator.go:64-73 | With one pool and grace over the run, a stack's lease stays on file at the same address as long as every pass that releases leases comes at most grace minus one second after the last persisted pass in which the stack was live; failures, crashes and stops are free |
| `Stability.PassHolds` | internal/vip/allocator.go:106-130 | One punctual pass keeps the lease, refreshed exactly when it persisted and the stack was live |
| `Stability.GraceCost` | internal/state/jsonstore.go:196-201 | The price of whole seconds on disk: no expiry up to grace minus one second; the bound is reached when the time falls on the last nanosecond of a second and disappears when it is a whole second |
| `Examples.LostSecond` | internal/state/jsonstore.go:196-201 | A concrete lease that expires almost a second early, and is still there one nanosecond before |
| `Stability.IdleLeaseBoundary` | internal/vip/allocator.go:112-122 | For a stack with nothing running, after a persisted pass its lease is on file if and only if the pass came before the recorded second plus the grace |
| `Stability.LiveLeaseBoundary` | internal/vip/allocator.go:85-98 | For a live stack: after a persisted pass it holds the same address if and only if the pass came before that instant or its rank among the stacks without a pool lease meets that very address among the free ones |
| `Stability.ExclusiveVIP` | internal/vip/allocator.go:85-98 | While a stack's lease is held, its address is advertised for that stack alone and the stack nowhere else |
| `Stability.VIPIsItsOwn` | internal/reconcile/engine.go:239-305 | Over every run, from any boundary at which a stack holds an address to any later one reached by punctual events: it still holds it, every record and every open listener at the address is its own, and it is advertised nowhere else |
| `Stability.LiveIsWinner` | internal/reconcile/build.go:63-88 | A stack has a conflict winner exactly when some container makes it live |
| `Service.PassServes` | internal/reconcile/apply.go:46-70 | World level, after a saved pass whenever the endpoint's own listener is open or can be bound, whatever happens to others: the daemon's own DNS answers the endpoint's name with its address exactly when the name does not collide, and its own listener there forwards to the lowest 127.0.0.1 binding of the winning container with the greatest name on the port |
| `Service.RecordsAccepted` | internal/dns/server.go:130-157 | The DNS server accepts what any pass publishes when its zone covers the base domain |
| `Service.PassNamesAgree` | internal/reconcile/apply.go:199-207 | After a saved pass DNS and the resolve map give an endpoint's name the same address if and only if it does not collide |
| `Service.PassApexesAgree` | internal/reconcile/apply.go:199-207 | ... and a stack's apex the same address if and only if no endpoint has its name |
| `Service.ServedIsHeld` | internal/reconcile/build.go:135-138 | A stack served by a saved pass is held on file at that address with that pass's time: where the stability theorem starts |
| `Placement.AllocationPass` | internal/reconcile/build.go:90-138 | Closed form of a whole pass for any unique leases: live stacks in ascending key order keep their pool lease or are zipped with the unleased pool addresses in ascending order; exactly the served stacks appear, each with one address and all of its winners; the resulting lease sequence in order, unique again |
| `Placement.ClosedFormHolds` | internal/reconcile/build.go:93-133 | The allocation loop, step by step, computes the closed form |
| `Placement.StackOrderAscending` | internal/reconcile/build.go:83-88 | The order in which stacks are allocated is ascending in the stack key |
| `Placement.ServedLease` | internal/reconcile/build.go:135-138 | Every served stack has a lease at its one address, from the pool, active now |
| `Placement.KeeperServed` | internal/vip/allocator.go:64-73 | A live stack that holds a pool lease is served at that address |
| `Placement.BystanderKept` | internal/reconcile/build.go:176-186 | Leases of stacks that are not live come through untouched |
| `Placement.LeaseOrigin` | internal/reconcile/build.go:90-138 | Every lease after a pass is an old one, possibly touched, or a new pool lease of a served stack |
| `Placement.ServedByRank` | internal/vip/allocator.go:85-99 | A live stack without a pool lease is served at an address if and only if its rank among such stacks meets that address among the free ones |
| `Placement.AllServed` | internal/reconcile/build.go:93-133 | With a free address for every live stack, every winner is published |
| `Placement.LiveAscends` | internal/reconcile/build.go:83-88 | Stacks get addresses in byte order of their keys |
| `Build.BuildDesired` | internal/reconcile/build.go:36-139 | Parsing loop, conflict resolution, allocation loop and touch compute the specification for some admissible winners, editing the lease table in place |
| `Build.ResolveConflicts` | internal/reconcile/build.go:63-88 | Whatever order the map yields groups: one winner per map key, none with a greater container ID than a competitor, sorted by stack key and map key |
| `Build.PickWinner` | internal/reconcile/build.go:69-73 | The first of a group sorted by container ID beats the whole group |
| `Build.WinnerIsSmallest` | internal/reconcile/build.go:69-73 | The winner's container ID is its own competitor's or precedes it at the first differing byte |
| `Examples.DigitWins` | internal/reconcile/build.go:69-73 | Of the IDs 1c9e and a0f3 behind one endpoint the only possible winner is 1c9e |
| `Build.AllocateWinners` | internal/reconcile/build.go:90-133 | The loop over winners, in place, reaches the specified building state |
| `Build.TouchActiveLeases` | internal/reconcile/build.go:176-186 | Sets both activity times of exactly the active stacks' leases, in place |
| `Build.ConflictWithinStack` | internal/domain/names.go:28-43 | Two candidates with one map key belong to one stack and one endpoint |
| `Build.WinnersUnique` | internal/reconcile/build.go:63-88 | With distinct container IDs the winners depend only on the set of candidates |
| `Build.BuildOrderIndependent` | internal/reconcile/build.go:55-88 | Permuting the container list, changing any map order or the allocator's clock changes nothing but creation times, for any leases and pool |
| `Leases.Allocate` | internal/vip/allocator.go:50-100 | Allocate with both indexes, reuse, cut and first-free scan equals its specification on all leases, duplicates included |
| `Leases.LeaseTable.RemoveAt` | internal/vip/allocator.go:75 | Cutting an element out shifts the tail down inside the same array |
| `Leases.LeaseTable.Append` | internal/vip/allocator.go:96 | Appends in place or into a new array |
| `Leases.AllocateKeeps` | internal/vip/allocator.go:64-73 | A stack with a pool lease keeps it and only its last-seen time changes |
| `Leases.AllocateNeeds` | internal/vip/allocator.go:74-99 | Otherwise its old lease goes, and it gets the lowest unleased pool address or nothing; when the pool is exhausted the old lease is gone all the same |
| `Leases.AllocateSafe` | internal/vip/allocator.go:50-100 | Allocation keeps keys and addresses unique, leaves every other stack's leases alone, and fails exactly when the stack holds no pool lease and no pool address is free |
| `Leases.ReleaseExpired` | internal/vip/allocator.go:106-130 | Compaction through a prefix of the same array leaves the unexpired leases in order and returns the released keys in order |
| `Leases.ReleaseSplits` | internal/vip/allocator.go:110-129 | As multisets, kept plus released is what there was |
| `Leases.KeptMember` | internal/vip/allocator.go:112-122 | Released are exactly the leases whose baseline is set and, plus the grace, not after now |
| `Leases.ExpiredIff` | internal/vip/allocator.go:112-122 | A lease expires at its last activity plus the grace; only one never active counts from its creation, and one with neither never expires |
| `Leases.ReleaseKeepsOrder` | internal/vip/allocator.go:110-123 | Two survivors stand in their original order |
| `Leases.KeptUnique` | internal/vip/allocator.go:110-123 | Releasing keeps keys and addresses unique |
| `Publish.RecordsExact` | internal/reconcile/apply.go:83-116 | The published list: one record per name, every apex, every endpoint name that is no apex, nothing else |
| `Apply.BuildDNSRecords` | internal/reconcile/apply.go:75-117 | Two loops over sorted keys with a seen set collect exactly that list |
| `Apply.SortEndpoints` | internal/reconcile/apply.go:55-65 | The proxy's list holds exactly the endpoints, ordered by name and then port, from any map order |
| `Apply.EndpointOrder` | internal/reconcile/apply.go:55-65 | What that order means in bytes and numbers |
| `Apply.BuildResolve` | internal/reconcile/apply.go:199-207 | From any map order: every apex and endpoint name is present and an endpoint overrides an apex |
| `Apply.ResolveVIP` | internal/reconcile/engine.go:308-324 | Exact key first, then any key that normalizes to the name; none only when there is none |
| `Publish.CollisionIff` | internal/domain/names.go:28-37 | In a built state an apex equals an endpoint's name for exactly one rival stack, when the endpoint's stack has no instance and the rival's instance is the endpoint's name |
| `Publish.EndpointAnswer` | internal/reconcile/apply.go:83-116 | The record set answers an endpoint's name with its own address unless it collides, then with the rival's |
| `Publish.ResolveEndpoint` | internal/reconcile/apply.go:205-207 | The resolve map always answers an endpoint's name with the endpoint's own address |
| `Publish.EndpointNamesAgree` | internal/reconcile/apply.go:83-116 | DNS and resolve map agree on an endpoint's name if and only if it does not collide |
| `Publish.ApexNamesAgree` | internal/reconcile/apply.go:199-207 | DNS and resolve map agree on an apex if and only if no endpoint has its name |
| `Examples.NamesDisagree` | internal/reconcile/apply.go:83-116 | For any project and endpoint: two containers for which DNS and every resolve map give one name two different addresses |
| `Publish.FormsAgree` | internal/reconcile/engine.go:326-330 | Under one base domain neither canonical nor normalized names merge two different names |
| `Publish.BuiltIsGood` | internal/reconcile/build.go:93-133 | What a pass builds is well formed and gives no address to two stacks |
| `Route.SetRecordsAccepts` | internal/dns/server.go:130-157 | The server accepts a built state's records if and only if its zone covers the base domain as configured or there is nothing to publish |
| `Examples.UntrimmedRefused` | internal/dns/server.go:130-157 | With base domain 'test ' and one container the whole record set is refused |
| `Route.TrimmedServes` | internal/dns/server.go:40-60 | Every trimmed base domain is covered |
| `Route.BuiltAllowed` | internal/proxy/manager.go:194-236 | validateEndpoint turns away an endpoint of a built state if and only if Docker published it on host port 0 |
| `Route.PolicyIff` | internal/app/serve.go:105-110 | Under the policy Serve configures an endpoint is allowed if and only if its address is one of the pool's, its ports are set, it is TCP and its backend is 127.0.0.1 |
| `Examples.HostPortZero` | internal/proxy/manager.go:227-230 | A container bound to host port 0 is published in DNS and refused by the proxy |
| `Route.CompeteIff` | internal/proxy/manager.go:112-117 | Two endpoints of a built state share a listener key if and only if they share stack and public port |
| `Examples.SharedPort` | internal/proxy/manager.go:158-159 | Two containers of one stack on one port: two endpoints with different backends and one listener key |
| `Route.ListenerBackend` | internal/reconcile/apply.go:56-67 | Given apply's sort, a listener forwards to the endpoint with the greatest name among those sharing its stack and port |
| `Route.TopIsGreatest` | internal/reconcile/apply.go:56-67 | Byte by byte, no competitor's name comes after the one that gets the listener |
| `Route.EndToEnd` | internal/reconcile/apply.go:46-70 | DNS answer, listener and lowest binding of the winning container chained for every endpoint of any built state whose own listener can be bound |
| `Names.StackKeyInjective` | internal/domain/names.go:8-13 | Stack keys determine project and instance |
| `Names.EndpointFQDNInjective` | internal/domain/names.go:28-37 | Endpoint names determine endpoint, project and instance |
| `Names.StackFQDNInjective` | internal/domain/names.go:28-37 | Apexes determine project and instance |
| `Names.ApexCollision` | internal/domain/names.go:28-37 | An endpoint's name is a stack's apex if and only if its stack has no instance, the projects agree and the instance is the endpoint |
| `Names.EndpointMapKeyInjective` | internal/domain/names.go:41-43 | Map keys determine name, port and protocol |
| `Names.SlugPlain` | internal/domain/validate.go:15-32 | Slugs hold no dot, slash or bar: the basis of injectivity |
| `Names.SlugIff` | internal/domain/validate.go:15-32 | A slug is one letter or digit, or two of them around at most 61 letters, digits and hyphens, and nothing else is |
| `Names.TrimSpaceIs` | internal/reconcile/engine.go:326-330 | Trimming takes space off both ends and nothing else |
| `Names.ToLowerIs` | internal/reconcile/engine.go:326-330 | Lower-casing moves exactly the bytes 65 to 90, each by 32 |
| `Examples.KeyTexts` | internal/domain/names.go:8-37 | Stack keys and apexes, with and without instance, as the documentation spells them |
| `Examples.EndpointTexts` | internal/domain/names.go:28-37 | postgres.aleks.curri.test and postgres.curri.test |
| `Examples.NormalText` | internal/reconcile/engine.go:326-330 | A padded, capitalized, dotted name and its normal form |
| `Labels.Parse` | internal/labels/labels.go:31-136 | The counting loop and each check in the program's order give the declared outcome: too many or overlong switches are malformed, others that are not ours are ignored, ours are parsed exactly when nothing is wrong |
| `Labels.ParsedIff` | internal/labels/labels.go:31-136 | Label by label, and not by the checks: a container is parsed as given metadata if and only if its labels say exactly that, with the instance and target port defaulted |
| `Labels.IgnoredIff` | internal/labels/labels.go:31-62 | Ignored are exactly the containers within the limits that are not switched on or lack a Compose name |
| `Labels.ParsedMetaIsValid` | internal/labels/labels.go:74-135 | What Parse lets through has valid slugs, ports, protocol and the stack key of its slugs |
| `Labels.LabelsRoundTrip` | internal/labels/labels.go:31-136 | Every valid metadata, written as labels, is parsed back exactly |
| `Labels.ParsePortValue` | internal/labels/labels.go:160-188 | Accepts exactly 1 to 128 digits with a value from 1 to 65535 and returns that value |
| `Labels.PortTextIff` | internal/labels/labels.go:160-188 | A label is read as a port if and only if it is that port's decimal text, zero-padded to at most 128 characters |
| `Labels.PortRoundTrip` | internal/labels/labels.go:160-188 | Every port but 0 survives being written and parsed |
| `Labels.LoopbackBinding` | internal/dockerapi/inspect.go:10-30 | The least host port among the matching 127.0.0.1 bindings; not found exactly when none matches |
| `Pool.ParsePool` | internal/vip/pool.go:18-47 | Accepts exactly the IPv4 CIDRs of 16 to 30 bits in 127.0.0.0/8 and builds the enumerated pool of the masked prefix, at least two addresses |
| `Pool.EnumerateUsable` | internal/vip/pool.go:80-111 | The loop lists the allocatable addresses of any masked prefix |
| `Pool.UsableBelowExact` | internal/vip/pool.go:92-109 | The list is strictly ascending and holds exactly the loopback members other than first, last and last octet 0 or 255 |
| `Pool.UsableCount` | internal/vip/pool.go:80-111 | 254 * 2^(24-b) addresses for up to 24 bits, 2^(32-b) - 2 from 24 bits on |
| `Pool.PoolFacts` | internal/vip/pool.go:54-64 | Contains is membership in the list; every member is loopback and inside the prefix |
| `Pool.ValidateVIPPool` | internal/config/config.go:172-203 | Configuration accepts exactly the CIDRs ParsePool accepts |
| `Pool.CountUsable` | internal/config/config.go:222-267 | The counting loop counts every usable address and does not exclude the last one; under 16 bits it returns the span |
| `Pool.CountsDiffer` | internal/config/config.go:253-264 | Its count exceeds the pool's by one exactly when the last address ends in neither 0 nor 255 |
| `Examples.OneTooMany` | internal/config/config.go:253-264 | 127.77.0.0/25 is such a prefix |
| `Store.JSONStore.Save` | internal/state/jsonstore.go:106-165 | The write protocol, step by step with any step failing or the process dying on it, equals its specification on file system and result |
| `Store.JSONStore.Load` | internal/state/jsonstore.go:71-102 | Missing, unreadable, empty, malformed and invalid files each give their outcome |
| `Store.LoadOkIff` | internal/state/jsonstore.go:71-102 | A file is read exactly when missing or a document of version 1 with readable entries and no key or address twice, and then entry by entry to the nanosecond; unreadable disks and corrupt files are told apart |
| `Store.SaveFaultIff` | internal/state/jsonstore.go:106-130 | Save refuses nothing but a version other than 1 or 0 and lease lists that are not well formed |
| `Store.SavedDocument` | internal/state/jsonstore.go:181-201 | What is on disk after a save: version 1 and each lease in order with its key, its address and the whole seconds of its times |
| `Store.SaveIsAtomic` | internal/state/jsonstore.go:134-164 | state.json holds the complete old or complete new snapshot; new exactly on success or a death after the rename; an error means unchanged |
| `Store.TmpIsIrrelevant` | internal/state/jsonstore.go:132-161 | No Load and nothing a later Save does to state.json depends on a leftover temp file |
| `Store.PowerFailureIsSafe` | internal/state/jsonstore.go:149-163 | A power failure at any step leaves a complete snapshot: new, previous or, while directory syncs fail, an earlier one; with the directory synced, the new one |
| `Store.LoadAfterSave` | internal/state/jsonstore.go:181-201 | Load after Save succeeds if and only if all times fit the format's years, and then gives the same leases in order with each time floored to its second |
| `Store.InRangeIff` | internal/state/jsonstore.go:196-201 | A time fits if and only if it is the zero time or lies in one of the years 0 to 9999, counted by the leap-year rule |
| `Calendar.FourDigitYears` | internal/state/jsonstore.go:196-201 | The seconds of those years in numbers, derived from the rule |
| `Examples.PresentLease` | internal/state/jsonstore.go:181-297 | A lease of the year 2025 survives Save and Load but for its half second |
| `Examples.LateLease` | internal/state/jsonstore.go:196-201 | A lease created in year 10000 is saved, and the file is then refused |
| `Store.SecondRoundTrip` | internal/state/jsonstore.go:181-297 | A second round trip succeeds and changes nothing more |
| `Store.TimeRoundTrip` | internal/state/jsonstore.go:196-201 | Writing and reading a time: readable exactly in range, and then floored; the zero time stays zero |
| `Store.ValidateAndConvert` | internal/state/jsonstore.go:203-282 | Version checks and the loop over leases with both seen sets give the first fault or the converted snapshot |
| `Store.FaultFree` | internal/state/jsonstore.go:227-280 | The load-time loop accepts exactly the lists with readable entries and distinct keys and addresses |
| `Store.FaultSays` | internal/state/jsonstore.go:227-280 | The reported fault is true of the first entry that spoils the file |
| `Store.ValidateSnapshot` | internal/state/jsonstore.go:299-319 | The save-time loop reports its first fault and accepts exactly the well-formed lease lists |
| `Store.LoadedIsWellFormed` | internal/state/jsonstore.go:203-319 | Whatever Load accepts, Save's validator accepts |
| `Store.DecodeEncode` | internal/state/jsonstore.go:125-130 | Decoding the document that was written gives it back, white space at its end aside |
| `Store.TornIsUnreadable` | internal/state/jsonstore.go:93-100 | Without its final newline the document reads the same; every shorter prefix is unreadable |
| `Dns.Server.SetRecords` | internal/dns/server.go:130-157 | All or nothing on any input: accepted, the set is the normalized list and the serial advances modulo 2^32; refused, both are unchanged |
| `Dns.AcceptedIff` | internal/dns/server.go:132-153 | A list is accepted exactly when every record in it is acceptable |
| `Dns.AsSetHolds` | internal/dns/server.go:142-153 | Every listed name is published, as listed when canonical names are distinct |
| `Dns.AcceptableIff` | internal/dns/server.go:130-157 | A record is acceptable if and only if it is of type A or none, its address lies in 127.0.0.0/8 and its name in the zone |
| `Dns.RefusedIff` | internal/dns/server.go:212-236 | Refused are PTR queries and names that are neither the zone nor end in a dot and the zone, and nothing else |
| `Dns.OutcomeIff` | internal/dns/server.go:236-328 | Every other query by outcome, each if and only if: addresses with their time to live, the zone's SOA and NS, denial and no data |
| `Dns.ListedAnswer` | internal/dns/server.go:142-153 | From the accepted list to the answer: each name gets its own address for its own time to live, or for 5 seconds when it gives none |
| `Examples.CanonicalText` | internal/dns/server.go:204-210 | Two spellings of one name and their canonical form |
| `Dns.ServeIgnoresCase` | internal/dns/server.go:212-267 | An answer carries the name as asked, and otherwise ignores case and the trailing dot |
| `Dns.DenialsAgree` | internal/dns/server.go:269-328 | A and AAAA deny the same names except the zone apex, which A alone denies |
| `Examples.ApexDenied` | internal/dns/server.go:283-328 | An empty zone denies its apex for A and not for AAAA |
| `Proxy.Manager.Reconcile` | internal/proxy/manager.go:138-192 | Validation, removal and add-or-update loops in any map order give the specified table; no error exactly when all were allowed and all missing keys bound |
| `Proxy.Manager.Shutdown` | internal/proxy/manager.go:355-369 | Closes every listener once and for all |
| `Proxy.ReconcileExact` | internal/proxy/manager.go:143-191 | From any table and bind failures: open keys are the allowed claimed keys open before or bindable now, kept listeners are not restarted, each backend is that of the last allowed claimant |
| `Proxy.WantedIsLast` | internal/proxy/manager.go:145-160 | Each key is wanted for the last allowed endpoint that has it |
| `Proxy.NoErrorIff` | internal/proxy/manager.go:145-151 | No validation error exactly when every endpoint is allowed |
| `Proxy.AllowedIff` | internal/proxy/manager.go:194-236 | An endpoint is allowed if and only if its address is IPv4 loopback within the policy, its ports are set, it is TCP and its backend is 127.0.0.1 |
| `Proxy.ReportedIff` | internal/proxy/manager.go:194-236 | Which error is reported: the address first, then the public port, the protocol and the backend |
| `Proxy.ListenerKeyInjective` | internal/proxy/manager.go:112-117 | Listener keys determine address, port and protocol |
| `Examples.ListenerText` | internal/proxy/manager.go:112-117 | The key of 127.77.0.1 at port 80 |
| `Admission.TraceInvariant` | internal/proxy/manager.go:299-320 | In every interleaving of any number of accept loops: at most MaxConns connections are handled, the counter equals handled plus in-check, and is 0 exactly when none is left |
| `Admission.RefusedIff` | internal/proxy/manager.go:299-305 | A connection is refused exactly when handled plus in-check had reached the limit at its accept |
| `Admission.RefuseIff` | internal/proxy/manager.go:299-320 | Step by step: whatever happens between, the accepting loop's next act is a refusal exactly then, else it hands over or finds no backend, and only handing over adds to the handled |
| `Admission.CanAct` | internal/proxy/manager.go:299-320 | Which acts are open to a loop at any later moment is settled by the counter at its accept alone |
| `Admission.ComesToRest` | internal/proxy/manager.go:299-330 | Every trace can go on, without further accepts, until the counter is 0: no slot is lost and nobody is stuck |
| `Admission.RefusedWhileIdle` | internal/proxy/manager.go:299-305 | A concrete run in which a connection is refused while none is handled |
| `Debounce.NoLostWakeUp` | internal/reconcile/engine.go:134-230 | In every reachable state of the loop, whatever the order of events, ticks, resets and triggers: if something arrived after the last pass began, it, a token or a live timer is pending |
| `Debounce.DirtyIff` | internal/reconcile/engine.go:134-230 | What counts as arrived in it: an event or tick with no pass begun since, if and only if |
| `Debounce.PendingBeginsPass` | internal/reconcile/engine.go:174-210 | From any such state at most four steps of the loop and its timer begin the next pass |
| `Debounce.TickBeginsPass` | internal/reconcile/engine.go:159-213 | Whatever became of the event stream, from every reachable state of a running loop one more tick leads to a new pass by the loop's own steps |
| `Debounce.CancelStops` | internal/reconcile/engine.go:193-230 | Cancelling can end the loop at the latest after the pass in hand, and nothing else ever ends it |
| `Debounce.SlotsKeep` | internal/reconcile/engine.go:137-143 | A token or a tick waits in its one-slot channel if and only if one was put there and not taken since |
| `Debounce.BeginsIff` | internal/reconcile/engine.go:134-170 | Passes after the first begin by the trigger or the timer and in no other way |
| `Debounce.ArmsAfresh` | internal/reconcile/engine.go:174-191 | Taking an event or a tick begins no pass: debounced it leaves the timer counting down afresh and requests nothing, otherwise it requests a pass and starts no timer |
| `Debounce.OneToken` | internal/reconcile/engine.go:134-170 | With debouncing the trigger is taken at most once, for the pass after start-up |
| `Debounce.TimerWaits` | internal/reconcile/engine.go:174-191 | Over whole traces, a pass begun by the timer follows, since the pass before it, an event or tick that armed the timer, its running out and the sending of its value, in this order |
| `Debounce.LatestWaits` | internal/reconcile/engine.go:174-191 | ... and with debouncing that event or tick is the latest one, unless a value was already on its way when it was taken |
| `Debounce.PromptWaits` | internal/reconcile/engine.go:174-191 | With timers that leave no value behind when stopped (Go 1.23 and later) the latest event or tick is waited for without exception |
| `Debounce.EarlyPass` | internal/reconcile/engine.go:185-190 | With older timers it is not: a concrete trace in which a pass begins right after an event with the countdown running |
| `Debounce.NoTimer` | internal/reconcile/engine.go:174-178 | Without debouncing there is never a timer |
| `Debounce.StoppedForGood` | internal/reconcile/engine.go:193-230 | Once the loop has returned no pass begins |
| `UdpRelay.TraceInvariant` | internal/relay/udp.go:116-258 | In every interleaving of reader, sweeper and pumps: bounded sessions, exact count, open sockets dialled for their client, every open socket in one place, each datagram written at most once and only to its sender's socket, each pump started with the address its socket was dialled for, replies only to that client |
| `UdpRelay.OnlyInsertGrows` | internal/relay/udp.go:135-194 | No step but the reader's insertion adds a session or changes one's socket |
| `UdpRelay.SecondCheckNeverFires` | internal/relay/udp.go:161-185 | The second critical section always inserts: the lost-race and capacity branches are dead code |
| `UdpRelay.ReturnedIsQuiet` | internal/relay/udp.go:51-61 | Once runUDP has returned: no sessions, count 0, sweeper gone, open sockets only with pumps about to close them, for good |
| `UdpRelay.NoSocketLeaks` | internal/relay/udp.go:197-208 | When the pumps have finished too, no upstream socket is open |
| `UdpRelay.WindsDown` | internal/relay/udp.go:51-258 | Nobody waits for ever: every trace, from wherever it stands, can go on by the relay's own steps until runUDP has returned, sweeper and pumps are gone, and no session and no open socket is left |
| `UdpRelay.Sessions.Sweep` | internal/relay/udp.go:82-92 | The walk over the locked map, in any order, closes and forgets exactly the idle sessions and republishes the count |
| `UdpRelay.SweepExact` | internal/relay/udp.go:82-92 | Over traces: a sweep leaves a session mapped and its socket open if and only if the time of the latest lookup, insertion or reply noted for it is at most the idle limit back |
| `UdpRelay.ActiveSurvives` | internal/relay/udp.go:82-92 | With clocks that do not run backwards, any activity within the idle limit carries a session through the sweep |
| `UdpRelay.IdleIsClosed` | internal/relay/udp.go:82-92 | A session all of whose activity lies further back is closed and forgotten |
| `UdpRelay.DatagramFate` | internal/relay/udp.go:116-258 | A datagram is given up only for an unknown client at a full table, a failed dial or a failed write; else it goes to a socket dialled for its sender |
| `UdpRelay.TrafficExact` | internal/relay/udp.go:197-258 | Nothing but the reader's successful writes and the pumps' successful replies is ever sent, each to the client its socket was dialled for |
| `UdpRelay.SessionEndsIff` | internal/relay/udp.go:51-258 | A session ends if and only if a sweep finds its latest activity more than the idle limit back, a write to it has failed, its own pump leaves, or the relay ends |
| `UdpRelay.SocketClosesIff` | internal/relay/udp.go:51-258 | An open socket is closed exactly together with its session, or by its own pump after that has unmapped it |
| `UdpRelay.PumpOrder` | internal/relay/udp.go:197-240 | Whatever others do in between: after each datagram a pump notes the time, replies and looks at its context; after a failed read or reply or a cancelled context it unmaps, closes and is gone |
| `UdpRelay.ReaderOrder` | internal/relay/udp.go:116-258 | The order of the reader's own steps over any interleaving, from a datagram to its write and from the last read to the return |
| `UdpRelay.SweeperMayStop` | internal/relay/udp.go:66-79 | The sweeper may leave exactly when the context was cancelled or the wait for the pumps is over |
| `UdpRelay.Sessions.CloseAll` | internal/relay/udp.go:51-60 | The walk closes and forgets every session |
| `Prelude.SortSlice` | internal/reconcile/build.go:83-88 | Stands for sort.Slice: some ordered rearrangement of the same elements |

## Left out

- Stability.StableVIP: restricts power losses to moments when state.json and its directory are on disk; while directory syncs fail, a power loss can bring back an older snapshot (`Store.PowerFailureIsSafe`) and with it older leases.
- Runs.RunSafe: speaks of pass boundaries; between Save and SetRecords the records are older than the file.
- Debounce.NoLostWakeUp: is the safety form; a debounce that is reset for ever has no maximum wait, and no timer durations are modelled.
- UdpRelay.TraceInvariant: whether a pump sees its session cancelled, and whether reads, writes and dials fail, are free choices, so nothing is said about how soon a session ends. The goroutines are modelled as atomic steps on values; only the two walks over the map are methods that change state.
- Admission.TraceInvariant: the accept loops are modelled as atomic steps on values, not as loops.
- Proxy.Manager.Shutdown: is serialized with Reconcile; racing the two can leave listeners, and the wait for in-flight connections is not modelled.
- Store.JSONStore.Save: the document is a sequence of structured pieces, not JSON text; a torn file is a proper prefix of it. Permissions, symbolic links and the directory's creation are outcomes only.
- Store.TimeRoundTrip: the text of a time is modelled as its second, RFC 3339 text as a format is not parsed.
- Store.LoadAfterSave: strings pass through the file unchanged, which holds of UTF-8 text; Go's JSON replaces invalid UTF-8. Stack keys are slugs joined by a slash, or come from the file itself.
- Store.DecodeEncode: the pieces stand for JSON text, so escaping and field order are not modelled.
- Labels.Parse: which check failed is not told apart; all error texts are one outcome.
- Pool.ParsePool: takes the parsed CIDR; CIDR and address text parsing is not modelled, and bit masks are written as arithmetic on powers of two.
- Engine.Engine.BuildStatus: the per-stack rows (and the port printing helper used only there), the DNS listen address and the pool text of the status are not modelled.
- Engine.Engine.ReconcileOnce: every collaborator is present, as Serve wires them; the branches for absent ones and the pass timeout's effect on a collaborator (beyond making listing fail) are not modelled.
- Dns.ServeIgnoresCase: SOA, NS and header contents, wire format and escapes inside names are not modelled.
- Strings are byte strings; lower-casing and trimming are ASCII only, where Go's also know other letters and spaces.
- Sockets, TCP copying, dialling and the second loopback check after a dial: input and output.
- Docker client, event decoding, command line, control socket, install script, and the merging of files, environment and flags into a configuration: plumbing.
- Times are unbounded integers; the saturation of durations near 292 years is not modelled.
