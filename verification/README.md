# A verified model of sunneed's tables

sunneed is a daemon that gives power-limited tenants indirect access to locked device files. A tenant
runs under an overlay that intercepts `open` and `write`. Opening a locked path returns a dummy file,
and a write to the dummy file is sent to the daemon, which performs it on the real file. This project
models the daemon's tables, the client library's table and the power quantum engine, and proves what
they keep over whole runs.

| file | what it models |
|---|---|
| `Scan.dfy` | first-match scans and counts, which every table loop computes |
| `CStrings.dfy` | `strncmp` and `strncpy` on memory, after sections 7.24.4.4 and 7.24.2.4 of ISO/IEC 9899:2011 |
| `Devices.dfy` | device table, plug-in loader, flat and nested index of locked paths |
| `Redirection.dfy` | path to dummy name to descriptor, as lists, and its run theorems |
| `RedirectTables.dfy` | the same two tables in place, with 128-character buffers |
| `Registry.dfy` | tenants and pipe slots, registration, unregistration, sweep |
| `Dispatch.dfy` | the dispatcher as a function; its runs split into the two parts above |
| `Listener.dfy` | the dispatcher in place |
| `Power.dfy` | accounting and rescaling of the shares |
| `QuantumEngine.dfy` | begin / record / end, and the heap list of events |
| `ClientTable.dfy` | the client's table, the overlay, and the copying of write data |
| `EndToEnd.dfy` | one application, the daemon, the other tenants and the monitor together |
| `Delivery.dfy` | what the end-to-end theorem covers: its exact restriction, the loader in front, and what an open costs |
| `Application.dfy` | which calls return to the application, and that it can go on writing |

Each mutable table appears twice: as a value with step functions, about which the run theorems are
proved, and as a class whose methods are the source's loops, proved to do what the step functions say.
A step is one served request or one iteration of the sweep, because the source takes no lock.

The main results:

- **End to end** (`EndToEnd.WriteReachesItsFile`): whatever the application, the other tenants and the
  monitor did before, a write to a descriptor obtained by opening `p` is sent, accepted, and performed
  on a descriptor the daemon opened for a path agreeing with `p` on its first 128 characters. It holds
  in every run that opens only paths of a given set if and only if no nonempty path of the set begins a
  name that `mkstemp` can make from the template, or the set has one nonempty path and that is as long as
  such a name (`Delivery.DeliveredExactly`). No absolute path begins such a name. An application can
  write on and on: after any number of performed writes the whole system is as before
  (`Application.WritesGoOn`).
- **Which calls return.** In every run, exactly which opens and which writes return to the application
  and which end it (`Application.OpenReturnsExactly`, `Application.WriteReturnsExactly`).
- **What gets locked**: after any completed load the flat array holds exactly the paths of the plug-ins
  that have every symbol, whose `init` returned 0 and whose kind is the file lock
  (`Devices.FlatHoldsExactly`).
- **Exact limits.** Redirection is exact for a path if and only if it is shorter than 128 characters.
  A dummy file is remembered if and only if `mkstemp` did not return descriptor 0. The client routes a
  descriptor correctly if and only if it is not 0. Write data arrives unchanged if and only if no
  nonzero byte follows a zero byte. From positive shares, the new shares are positive if and only if
  all tenants stayed below budget or all exceeded it. The daemon dereferences a NULL dummy path if and
  only if `mkstemp` fails for a new path while the descriptor table has room.
- **Bijection**: under every interleaving of registrations, unregistrations and sweep iterations, the
  occupied pipe slots and the active tenants are in one-to-one correspondence.
- **Shares**: the worker keeps the shares positive and adding up to exactly 1 while every tenant stays
  within budget.

Where the code and a stated intent disagree, the code is modelled:

- The scheduling draft says the shares always add up to 1. Tenants start with a share of 0.0, and from
  there the shares are not numbers once the worker has completed a turn
  (`QuantumEngine.InitialSharesBreakExactly`). One quantum leaves shares adding up to 1 if and only if
  there is power, no share is zero and the used fractions do not add up to the number of tenants
  (`Power.SumToOneExactly`); with the zero costs charged at present, a whole run does if and only if no
  share and no power is zero (`Power.FreeNumbersExactly`).
- The comment on the descriptor table says that it cannot fill up, because 1024 also bounds the locked
  paths. 1024 opens of a single locked path fill it (`Redirection.TableFillsFromOnePath`).
- The flag for power events is described as being about one quantum. It is never cleared, and
  `QuantumEngine.FlagOutlivesQuantum` is a run in which it is set in a quantum without events. It means
  what its description says if and only if no record was accepted before the latest begin or one was
  since (`QuantumEngine.FlagDescribesQuantumExactly`).

Answers of the operating system are parameters of the steps: the results of `open`, `mkstemp`, `write`
and `malloc`, the process identifier behind a pipe, the processes that exist, the present power, and
what a plug-in contains. Theorems name what they assume of them: `mkstemp` never repeats a name nor
names the file the same request has just opened, `open` does not open the empty path,
descriptors that stay open are not given out twice, connected pipes have positive identifiers.

## Model

| member | source | states |
|---|---|---|
| CStrings.BufferCompare | src/sunneed_device.c:40 | a path compares equal to a 128-character buffer exactly when both strings agree on the first 128 characters, also when the buffer has no terminator |
| CStrings.PrefixCompare | src/sunneed_device.c:26 | `strncmp` limited to the length of one string tests that it is a prefix of the other |
| CStrings.BufferReads | src/sunneed_device.c:57-59 | what `strncpy` put in a buffer reads back as the string cut to the buffer's size |
| Devices.LockerOf | src/sunneed_device.c:14-33 | the first ready file-lock device having a path that starts with the argument; none earlier matches |
| Devices.LockedExactly | src/sunneed_device.c:14-33 | a path is locked exactly when it begins some path of a ready device of kind 1 |
| Devices.ObjectFileExactly | src/sunneed_loader.c:53-60 | the object files are exactly the names made of a non-empty stem and ".so" |
| Devices.IdentifierIsStem | src/sunneed_loader.c:111-112 | the identifier of a device is the first 31 characters of that stem |
| Devices.FlatAgreesWithNested | src/sunneed_device.c:14-33 | for every device table, the first match in the concatenated lists is the first match in the list of exactly the device the nested scan returns, or both find nothing |
| Devices.LoadEntryIndexes | src/sunneed_loader.c:62-165 | one load keeps the table indexed, and stops the daemon exactly when a path or a slot is missing |
| Devices.LoadAllIndexes | src/sunneed_loader.c:168-211 | any directory loads to the end exactly when its plug-ins fit; then the table starts with the devices that loaded, in order, numbered by the object files tried, and the flat array is the concatenation of their lists |
| Devices.HandlesCountObjectFiles | src/sunneed_loader.c:181-196 | handles number the object files tried, the failing ones included |
| Devices.FlatHoldsExactly | src/sunneed_loader.c:168-211 | after any completed load, a path is in the flat array exactly when some object file of the directory has every symbol, an `init` returning 0, kind 1, and the path in its list |
| Devices.OneEntryLoads | src/sunneed_loader.c:62-165 | for one object file and every combination of the loader's answers: the device is ready under its stem with its paths in the flat array exactly when every symbol is there, `init` returned 0, the kind is 1 and at most 1024 paths came; a failing one leaves the array empty, and the daemon exits exactly for more paths |
| Devices.LoadedIndexesAgree | src/sunneed_loader.c:6-51 | after a completed load, a path is in the flat array exactly when it is locked, within the segment of the device that locks it |
| Devices.DeviceTable.AddLockedFilePath | src/sunneed_loader.c:6-19 | appends to the packed front of the array, and fails exactly when 1024 paths are there |
| Devices.DeviceTable.AddAll | src/sunneed_loader.c:34-42 | appends a whole list, and fails exactly when it does not fit |
| Devices.DeviceTable.Load | src/sunneed_loader.c:62-165 | refines one step of the load |
| Devices.DeviceTable.LoadDevices | src/sunneed_loader.c:168-211 | refines the load of the directory |
| Devices.DeviceTable.FileLocker | src/sunneed_device.c:14-33 | the two nested loops compute the first locking device |
| Devices.DeviceTable.LockedPathList | src/sunneed_listener.c:95-101 | the list sent to a client is the flat array; the counting loop leaves the array exactly when it is full |
| Redirection.MemoNeverChanges | src/sunneed_device.c:35-66 | over every run, existing entries of the dummy-file table never change |
| Redirection.StepKeepsInv | src/sunneed_listener.c:143-249 | one request keeps: a dummy name means one key, keys and names are injective, names were issued |
| Redirection.KeptAlikeExactly | src/sunneed_device.h:19 | two paths share a dummy-file entry exactly when they are equal or agree on their first 128 characters |
| Redirection.OpenChangesExactly | src/sunneed_listener.c:159-201 | the exact tables after an open: a new dummy file is remembered even when the descriptor table is full, a descriptor is recorded exactly on success, and the dummy path returned is the remembered or the new one |
| Redirection.RunKeepsInv | src/sunneed_listener.c:143-249 | the same invariant in every reachable state |
| Redirection.RunKeepsCoupled | src/sunneed_listener.c:171-195 | in every run, whatever the kernel answers, the descriptor table is full or at least as long as the dummy-file table, and holds no descriptor -1 |
| Redirection.RunKeepsNamed | src/sunneed_device.c:44-61 | in every run no path is recorded with itself as its dummy name, and the empty path is not recorded |
| Redirection.TableIsLog | src/sunneed_listener.c:173-185 | the descriptor table is append-only and holds exactly the successful opens, in order |
| Redirection.ExactLookup | src/sunneed_listener.c:20-26 | the prefix search for an issued name finds the first slot with that very name |
| Redirection.WriteLandsOnEarliestOpen | src/sunneed_listener.c:204-249 | in every run, a write naming the dummy path of a successful open is performed on the descriptor of the earliest successful open agreeing on 128 characters |
| Redirection.WriteReachesFile | src/sunneed_listener.c:204-249 | the file written agrees with the opened path on 128 characters, and is that path if it is shorter |
| Redirection.ExactExactlyForShortPaths | src/sunneed_device.c:40 | writes always reach the opened file if and only if its path is shorter than 128 characters |
| Redirection.CrashesExactlyWithoutTemp | src/sunneed_listener.c:171-195 | coupled capacity: a NULL dummy path is dereferenced exactly when `mkstemp` fails for a new path while the descriptor table has room |
| Redirection.StaysUp | src/sunneed_listener.c:171-195 | no run crashes while `mkstemp` succeeds |
| Redirection.OpenSucceedsExactly | src/sunneed_listener.c:159-201 | in every run an open succeeds exactly when the daemon is up, the path is locked, the kernel opens it, fewer than 1024 opens succeeded before, and the path has or can be given a dummy file |
| Redirection.TableFillsFromOnePath | src/sunneed_listener.c:186-191 | for every path, 1024 opens of it as the only locked path succeed and the next is refused |
| Redirection.SameDummyExactlyForSameKey | src/sunneed_device.c:35-66 | two opens of a run get the same dummy path exactly when their paths agree on 128 characters |
| Redirection.RememberedExactlyIfNonzero | src/sunneed_device.c:54-60 | a new dummy file is found again exactly when its descriptor is nonzero |
| RedirectTables.SlotMatchesKey | src/sunneed_device.c:39-41 | a filled slot matches a path exactly when it holds the path's first 128 characters |
| RedirectTables.Redirector.FindDummy | src/sunneed_device.c:37-42 | the first loop finds the entry with the path's key |
| RedirectTables.Redirector.AddDummy | src/sunneed_device.c:54-61 | the second loop fills the slot behind the packed entries, counted as filled unless the descriptor is 0 |
| RedirectTables.Redirector.GetDummyFile | src/sunneed_device.c:35-66 | refines the lookup in the list, buffers included |
| RedirectTables.Redirector.RecordFd | src/sunneed_listener.c:173-195 | appends to the descriptor table, refuses when it is full, crashes on a NULL dummy path otherwise |
| RedirectTables.Redirector.OpenFile | src/sunneed_listener.c:143-202 | refines the served open |
| RedirectTables.Redirector.FdFromDummyPath | src/sunneed_listener.c:20-26 | the descriptor of the first slot whose name starts with the argument, or -1 |
| Registry.InitialBijection | src/sunneed_proc.c:5-12 | the initial tables, four inactive tenants without a process and 512 empty slots, are in bijection |
| Registry.SlotAlwaysFree | src/sunneed_listener.c:54-60 | by counting, a pipe slot is free in every state in bijection |
| Registry.RegisterExactly | src/sunneed_listener.c:40-63 | registration fails exactly when four tenants are active, changing nothing; otherwise one free slot maps the pipe to one inactive tenant |
| Registry.SameSlot | src/sunneed_listener.c:28-35 | the dispatcher's lookup and the clearing loop stop at the same slot |
| Registry.UnregisterSucceeds | src/sunneed_listener.c:108-141 | a recognised pipe unregisters without error, and the new tables are the old ones with the tenant looked up inactive and the first slot of the pipe empty; the active count falls by one |
| Registry.CheckKeepsBijection | src/sunneed_proc.c:92-103 | one iteration of the sweep keeps the bijection |
| Registry.StepKeepsBijection | src/sunneed_listener.c:40-141 | every step keeps the bijection |
| Registry.RunKeepsBijection | src/sunneed_listener.c:314-335 | the bijection between 4 tenants and 512 slots holds under every interleaving |
| Registry.HoldsItsNetRegistrations | src/sunneed_listener.c:28-63 | the slots of a pipe are its registrations minus unregistrations minus removals, and it is recognised exactly when that is positive |
| Registry.RecognisedExactlyIfHeld | src/sunneed_listener.c:28-35 | a pipe identifier is recognised exactly when it is positive and holds a slot; the identifier reported for empty slots is not |
| Registry.VisitReleases | src/sunneed_proc.c:92-103 | one iteration of the sweep, tenant by tenant and slot by slot |
| Registry.SweepReleasesExactlyTheLost | src/sunneed_proc.c:92-113 | a sweep releases exactly the active tenants without a process, each with exactly its own slot; the rest is unchanged and in bijection |
| Registry.GuardNeededExactly | src/sunneed_proc.c:47-59 | without a guard the scan stops at the tenant's slot exactly when no empty slot precedes it, and dereferences NULL otherwise |
| Registry.UnregisterExposesNull | src/sunneed_proc.c:47-59 | an unregistration of an earlier slot brings that situation about |
| Registry.NullIsReachable | src/sunneed_proc.c:47-59 | for any two connected pipes, a run from the initial tables after which the unguarded scan for an active tenant dereferences NULL |
| Registry.Tables.constructor | src/sunneed_proc.c:5-12 | the initial tables |
| Registry.Tables.TenantRegister | src/sunneed_proc.c:14-34 | takes the first inactive tenant |
| Registry.Tables.TenantUnregister | src/sunneed_proc.c:36-45 | deactivates exactly an active tenant |
| Registry.Tables.RegisterClient | src/sunneed_listener.c:40-63 | refines registration |
| Registry.Tables.FindTenant | src/sunneed_listener.c:28-35 | the tenant of the first slot reporting the pipe |
| Registry.Tables.UnregisterClient | src/sunneed_listener.c:108-141 | refines unregistration |
| Registry.Tables.UnregisterLostTenant | src/sunneed_proc.c:47-67 | comparing `id` fields releases the tenant's own slot |
| Registry.Tables.GetNumTenants | src/sunneed_proc.c:69-79 | counts the active tenants |
| Registry.Tables.UpdateTenants | src/sunneed_proc.c:92-113 | refines the sweep |
| Dispatch.RepliesAsExpected | src/client/sunneed_client.c:43-60 | a reply of status 0 has the type the client insists on; an unheard pipe gets no reply and changes nothing |
| Dispatch.AnswersInState | src/sunneed_listener.c:301-337 | the very answer to each kind of heard message, in a state with the invariants: which dummy path an open gets, and what a write reports, -1 as an unsigned 64-bit number included |
| Dispatch.AnswersExactly | src/sunneed_listener.c:301-337 | the same in every state a run can reach |
| Dispatch.EffectsInState | src/sunneed_listener.c:301-337 | what each kind of heard message does to the tables in such a state: one slot of the pipe and one tenant more or less, one descriptor more, or nothing |
| Dispatch.EffectsExactly | src/sunneed_listener.c:301-337 | the same in every state a run can reach |
| Dispatch.VisitExactly | src/sunneed_proc.c:92-103 | in every state a run can reach, a visit of the monitor releases exactly a lost tenant, with its slot, and nothing else |
| Dispatch.RunSplits | src/sunneed_listener.c:256-355 | the daemon's run is the run of its registration events beside the run of the requests from registered pipes |
| Dispatch.AnswersExactlyRegisteredPipes | src/sunneed_listener.c:303-308 | through every run the bijection holds and a pipe is heard exactly when its net registrations are positive |
| Listener.Daemon.Register | src/sunneed_listener.c:80-106 | refines the served registration |
| Listener.Daemon.Open | src/sunneed_listener.c:143-202 | refines the served open |
| Listener.Daemon.Write | src/sunneed_listener.c:204-249 | refines the served write, and calls `write` on the descriptor looked up with the data sent |
| Listener.Daemon.Handle | src/sunneed_listener.c:287-337 | refines the dispatcher, its calls of `write` included |
| Power.TotalsConserveCost | src/sunneed_power.c:91-109 | the tenants' totals add up to the cost of all events |
| Power.ChargedToOwner | src/sunneed_power.c:103-106 | every tenant is charged the cost of its own events and of no others, so one without events is charged nothing |
| Power.TotalCostIsSum | src/sunneed_power.c:93-109 | the cost of a list of events is the sum of their costs |
| Power.UnusedOfGiven | src/sunneed_power.c:116-121 | the unused fraction times what a tenant was given, `power * share`, is that less what it consumed |
| Power.ShareLostExactly | src/sunneed_power.c:116-127 | when the new shares are numbers, a tenant gets the share 0 exactly when it consumed `power * share` |
| Power.RescaledSharesSumToOne | src/sunneed_power.c:111-127 | new shares, if numbers, add up to exactly 1 |
| Power.PositiveExactly | src/sunneed_power.c:114-127 | new shares are all positive exactly when all tenants stayed below budget or all exceeded it |
| Power.QuantumKeepsFair | src/sunneed_power.c:111-127 | within budget, shares stay positive with sum 1 and consumption is below the power present |
| Power.SharesInRatio | src/sunneed_power.c:116-127 | whenever the new shares are numbers, they stand in the ratio of unused fractions, and a larger unused fraction gets a larger share exactly when the fractions sum to more than zero |
| Power.SharesFollowThrift | src/sunneed_power.c:116-127 | within budget, a tenant that used a smaller fraction never gets a smaller share |
| Power.IdleQuantumEqualises | src/sunneed_power.c:101-127 | without consumption the shares become uniform |
| Power.FairForever | design/scheduling/schedulerModel_draft1.tex:10 | over every run of quanta within budget, shares stay positive with sum 1 and every quantum costs less than the power present |
| Power.FairThroughoutExactly | src/sunneed_power.c:111-127 | with power present, shares are positive with sum 1 after every quantum of a run exactly when every quantum left all tenants below budget or all above |
| Power.FreeQuantaEqualise | src/sunneed_power.c:101-127 | at zero cost, nonzero shares are uniform after one quantum and forever |
| Power.NumbersNeedSharesAndPower | src/sunneed_power.c:114-127 | whatever the costs, shares stay numbers through a nonempty run only if every share and every power was nonzero |
| Power.FreeNumbersExactly | src/sunneed_power.c:101-127 | at zero cost, that is also sufficient |
| Power.SumToOneExactly | src/sunneed_power.c:114-127 | from arbitrary shares, one quantum leaves numbers adding up to 1 exactly when there is power, no share is zero, and the used fractions do not add up to the number of tenants |
| QuantumEngine.ListHoldsQuantum | src/sunneed_power.c:22-83 | in every run the list holds exactly the events accepted since the latest begin and before the next end, in order |
| QuantumEngine.NothingSkipped | src/sunneed_power.c:93-98 | the early exit of the accounting loop never skips an event |
| QuantumEngine.RecordAcceptedExactly | src/sunneed_power.c:22-52 | after any run, a record is accepted exactly when it can be allocated, the latest begin was, and no end has followed; a refused one changes nothing |
| QuantumEngine.BeginReportsExactly | src/sunneed_power.c:71-82 | after any run, a begin reports success exactly when it opens a quantum, that is, when a record with memory right after it is accepted |
| QuantumEngine.ActiveExactly | src/sunneed_power.c:71-89 | the quantum is active exactly when a begin that got its memory has had no end since, even if another begin failed in between |
| QuantumEngine.PowerIsLatest | src/sunneed_power.c:60 | the power in force is that of the latest begin, failed or not |
| QuantumEngine.EndBeforeBeginBreaks | src/sunneed_power.c:20 | an end before any begin, when the power is 0, leaves shares that are not numbers |
| QuantumEngine.EndSettlesLatestQuantum | src/sunneed_power.c:85-132 | after any run, an end rescales the shares by the events of the latest quantum, none if its begin failed, and the power of its begin, even when an end came before |
| QuantumEngine.FlagIsNeverCleared | src/sunneed_power.c:47-49 | the flag is set exactly when some record of the whole run was accepted |
| QuantumEngine.FlagDescribesQuantumExactly | src/sunneed_power.c:18-19 | the flag means that a record was accepted since the latest begin exactly when none was accepted before it or one was after it |
| QuantumEngine.FlagOutlivesQuantum | src/sunneed_power.c:18-19 | a run after which the quantum is active, its list empty and the flag set |
| QuantumEngine.SentinelReadExactly | src/sunneed_power.c:93-98 | after any run, an end reads the unset payload of the sentinel exactly when the latest begin got its memory and some record of the run was accepted |
| QuantumEngine.NumbersQuanta | src/sunneed_power.c:59 | quanta are numbered by their begins |
| QuantumEngine.WorkerRunsExactly | src/sunneed_power.c:138-146 | the worker, which goes on exactly when its begin reports success, is running exactly as long as every turn found memory |
| QuantumEngine.WorkerRefinesQuanta | src/sunneed_power.c:134-151 | the worker loop charges in each quantum exactly what was recorded in it, and a begin that reports a failure stops it and leaves the shares |
| QuantumEngine.InitialSharesBreakExactly | src/sunneed_proc.c:8 | from the tenants' initial shares the worker has shares that are not numbers exactly once its first turn is complete |
| QuantumEngine.WorkerStaysFair | src/sunneed_power.c:134-146 | the worker keeps the shares positive with sum 1 while tenants stay within budget |
| QuantumEngine.LinkBehind | src/sunneed_power.c:40-47 | attaching a node behind the last one keeps the list acyclic and appends one event, exactly when the event came with a NULL `next` |
| QuantumEngine.Engine.FreeList | src/sunneed_power.c:63-69 | the reset loop ends and frees every node exactly once |
| QuantumEngine.Engine.Begin | src/sunneed_power.c:54-83 | refines begin and its result, which `QuantumEngine.BeginReportsExactly` characterises |
| QuantumEngine.Engine.FindTail | src/sunneed_power.c:35-38 | the loop ends at the last node |
| QuantumEngine.Engine.Record | src/sunneed_power.c:22-52 | refines record; the list stays well formed exactly unless an accepted event came with another `next` than NULL |
| QuantumEngine.Engine.Charge | src/sunneed_power.c:91-109 | the loop computes each tenant's total, which `Power.ChargedToOwner` makes the cost of its own events |
| QuantumEngine.Engine.UpdateShares | src/sunneed_power.c:111-127 | the loops compute the rescaled shares |
| QuantumEngine.UnusedFractions | src/sunneed_power.c:116-121 | unused fractions and their sum, unless a budget is zero |
| QuantumEngine.Scale | src/sunneed_power.c:125-127 | every share is its fraction times the factor |
| QuantumEngine.Engine.End | src/sunneed_power.c:85-132 | refines end |
| ClientTable.PayloadCuts | src/client/sunneed_client.c:192-197 | the data sent is the data up to its first zero byte, then zeros, of the same length |
| ClientTable.PayloadFaithfulExactly | src/client/sunneed_client.c:195 | it equals the original exactly when no nonzero byte follows a zero byte |
| ClientTable.PayloadIdempotent | src/client/sunneed_client.c:195 | copying it again changes nothing |
| ClientTable.RoutesExactly | src/overlay/sunneed_overlay.c:40-55 | a write stays in the process exactly when no entry has its descriptor; otherwise the first such entry is sent, or is fatal without a path |
| ClientTable.ChecksExactly | src/client/sunneed_client.c:138-148 | the entry found is the first that the path begins, with no unused entry up to it |
| ClientTable.RunKeepsRecorded | src/client/sunneed_client.c:150-163 | against any daemon, an entry with a descriptor was recorded at an open, the others are as registered |
| ClientTable.RoutesToItsOpen | src/client/sunneed_client.c:173-185 | a nonzero descriptor reported as locked resolves to a dummy path recorded at an open of it |
| ClientTable.ZeroIsMisrouted | src/client/sunneed_client.c:165-185 | descriptor 0 is reported as locked and resolves to no open |
| ClientTable.RoutedExactlyIfNonzero | src/client/sunneed_client.c:165-185 | routing is right in every run exactly for nonzero descriptors |
| ClientTable.FreshTableAgrees | src/client/sunneed_client.c:138-148 | right after registration the client finds a path where the flat array has it |
| ClientTable.ClientAgreesWithServer | src/client/sunneed_client.c:83-88 | the client's match lies in the segment of exactly the device the server scan returns, or both find nothing |
| ClientTable.LockedPaths.constructor | src/client/sunneed_client.c:83-88 | the table after registration |
| ClientTable.LockedPaths.CheckLockedFile | src/client/sunneed_client.c:138-148 | the index of the first matching entry, or -1 |
| ClientTable.LockedPaths.OpenPath | src/overlay/sunneed_overlay.c:15-38 | refines the overlay's open, with its fatal ends |
| ClientTable.LockedPaths.WriteFd | src/overlay/sunneed_overlay.c:40-55 | the route of a write and the data that leaves the process |
| EndToEnd.ServerRuns | src/sunneed_listener.c:256-355 | the daemon's state is that of its own run on everything it was sent |
| EndToEnd.StaysMapped | src/sunneed_listener.c:28-35 | nothing but its own unregistration or death takes a pipe's slot away |
| EndToEnd.ClientTableAgrees | src/client/sunneed_client.c:138-163 | in every run an entry is the locked path it was sent or the dummy path issued for a prefix of it, and what the client takes for locked is locked on the daemon |
| EndToEnd.DummyLikeExactly | src/sunneed_device.c:45 | exactly which paths begin a name made from the template: "locked_" and six characters of the portable set |
| EndToEnd.RoutesToOwnOpen | src/client/sunneed_client.c:173-185 | a write to a descriptor goes to the dummy path of the open that returned it |
| EndToEnd.WriteReachesItsFile | src/overlay/sunneed_overlay.c:15-55 | end to end, a write reaches the file that was opened |
| Delivery.GoodRunsExist | src/overlay/sunneed_overlay.c:15-38 | for every path that may be opened alone there is a run that meets all assumptions of the end-to-end theorem and in which the open returns |
| Delivery.IncompatibleUndelivered | src/overlay/sunneed_overlay.c:15-55 | for any two incompatible paths there is a run of the whole system, with answers the kernels can give, in which a write to a descriptor never leaves the application |
| Delivery.DeliveredExactly | src/overlay/sunneed_overlay.c:15-55 | writes reach their files in every run that opens only given paths if and only if any two of the paths are compatible: no nonempty one begins a name that `mkstemp` can make, except a single one as long as such a name |
| Delivery.LoadedDaemonDelivers | src/sunneed_core.c:131-147 | after loading any directory that fits, every write is delivered, and what the application takes for locked is locked by a loaded plug-in |
| Delivery.OpensConsumeEntries | src/client/sunneed_client.c:138-163 | in every run the opens that returned took distinct entries that their paths begin, and an open reaches the daemon exactly while such an entry is left |
| Delivery.ReopenIsFatal | src/overlay/sunneed_overlay.c:15-38 | an open of a locked path with no entry left ends the application |
| Application.LocalWriteChangesNothing | src/overlay/sunneed_overlay.c:45-48 | a write to a descriptor that no entry has sends nothing and leaves the whole system as it is |
| Application.LocalExactly | src/client/sunneed_client.c:165-171 | in every run a write stays in the process exactly when its descriptor is neither 0 nor one given by an open of a locked path |
| Application.LiveWriteReturnsExactly | src/client/sunneed_client.c:205-212 | a write to a descriptor that an open of a locked path gave leaves daemon and table as they are, and returns exactly when the daemon is up and performs it; otherwise the application ends |
| Application.ZeroWriteIsFatal | src/client/sunneed_client.c:173-212 | a write to descriptor 0 ends the application in every run, when no locked path begins a dummy name |
| Application.WriteReturnsExactly | src/overlay/sunneed_overlay.c:40-55 | exactly which writes of a living application return, for every descriptor and every run; none changes a table |
| Application.WritesChangeNothing | src/overlay/sunneed_overlay.c:40-55 | after any sequence of performed writes the whole system is as before and every assumption still holds |
| Application.WritesGoOn | src/overlay/sunneed_overlay.c:40-55 | so after any number of performed writes the next one still reaches its file |
| Application.OpenReturnsExactly | src/overlay/sunneed_overlay.c:15-38 | exactly which opens of a living application return, in every run; the others end it |
| Application.OthersReachOnlyTheDaemon | src/sunneed_listener.c:287-337 | a message or a visit from elsewhere does to the daemon what it does alone, and nothing to the application |

## Left out

- EndToEnd.WriteReachesItsFile: is about applications whose paths are compatible, which `Delivery.DeliveredExactly` shows to be the exact condition; and that close no descriptor, because the overlay does not intercept `close`.
- Application.ZeroWriteIsFatal: assumes that no locked path begins a dummy name; with such a path the daemon may take the write for one to a dummy file.
- Application.OpenReturnsExactly: is about paths that begin no dummy name, as absolute paths do not; another one may match the entry of an earlier open.
- Registry.Tables.UnregisterLostTenant: skips empty slots, where the source dereferences NULL; `Registry.GuardNeededExactly` says exactly when the two agree.
- Registry.Tables.constructor: takes the tables that `sunneed_init_tenants` leaves as initial, though nothing in the repository calls it; the comparison of tenant identifiers depends on them.
- QuantumEngine.Engine.Charge: starts behind the sentinel, whose payload the source reads although it is never set; `QuantumEngine.SentinelReadExactly` says exactly which ends do so.
- QuantumEngine.Engine.UpdateShares: stops where the source divides by zero and goes on with infinities or NaN, under the exact conditions of `Power.SumToOneExactly`; rounding is not modelled, shares are exact reals.
- Sockets, message encoding and the blocking of a client that gets no reply: a message is a value and its reply another.
- Several processes interleaving inside one served request or one sweep iteration: steps are atomic.
- Real file access, procfs parsing, CPU usage figures and dynamic loading: their answers are parameters.
- Path buffers and memory freeing on the error paths of the loader: low-level memory handling without a table behind it.
- What the overlay's `write` returns to the application, which is 0 after any remote write, and the error numbers in write replies, which no code reads: no table depends on either.
- Driver threads, signals, logging, option parsing and device plug-ins: no table is involved.
- The round-robin queue and request caps of the scheduling draft: they are not implemented.
