# Firecrab verification model

Firecrab runs Firecracker micro-VMs behind an HTTP API. This project models the parts of
`firecrab-api` whose correctness depends on more than one function or on more than one task, and
proves what they promise: the lease allocator, the console path, the VM lifecycle and its exit
monitors, the bootstrap tracker, the port-forward table, disk preparation, and the checks of the
OCI import pipeline.

The code that updates state in place is modelled by classes and loops, each method proved against a
specification function; the promises are lemmas about those functions, over every input, every run
or every interleaving of the sections between locks. SHA-256, the MAC hash, the lossy UTF-8 decoder
and the line parser are arbitrary functions. Clocks, tool exits, file-system answers, registry
replies and database faults are parameters.

| file | component |
|---|---|
| `Subnet.dfy` | bitwise prefix masks and CIDR blocks |
| `Leases.dfy` | the lease table: allocate, release, rotate, roll back |
| `Lines.dfy`, `Console.dfy`, `Metrics.dfy` | byte streams read in chunks: terminal filter, backlog, samples |
| `Lifecycle.dfy` | starts, stops and the exit monitor's three locks, interleaved |
| `Bootstrap.dfy` | the bootstrap tracker and its step timelines |
| `PortForwards.dfy` | all-or-nothing replacement of port forwards |
| `Rootfs.dfy` | publishing and growing a VM's disk, with rollback |
| `Reference.dfy` | image references and digests |
| `BlobCache.dfy`, `CacheTasks.dfy` | filling the content-addressed caches, alone and concurrently |
| `DedupWork.dfy` | fetching and decoding distinct work once |
| `BearerToken.dfy` | the token shared by one registry session |
| `TarLayer.dfy` | the layer tar preflight |

## Where a promise holds only under a condition

- Hosts of a subnet lie strictly between gateway and broadcast exactly when the gateway and its
  successor do not wrap, that is for a network below 255.255.255.254
  (`Subnet.HostsInsideIffGatewayFits`); a release build wraps.
- Networks accepted as not overlapping share an assignable address exactly when the gateway of one
  wraps and the other has any address to assign (`Subnet.NonOverlappingShareHostExactly`). Creation checks
  the prefix length and the overlap (handlers/micro_networks.rs:288-307 and 413-433), not this:
  255.255.255.255/24 beside 10.0.0.0/24 is such a pair (`Subnet.NonOverlappingSharedHostExample`).
- The terminal filter is documented to keep complete report lines out of the backlog. It does not when
  something precedes the marker on its line and the line is split (`Console.StrayMarkerLeaks`); the exact
  condition is `Console.SplitIndependentExactly`, for streams whose lines fit 8 KiB where a marker stands at
  their start or after a control byte, and are of any length otherwise.
- A late exit monitor can set the state and clear the samples of a newer generation once a stop has
  finished, or a start has failed, without waiting for it (`Lifecycle.ForcedMoveSafeExactly`), and a run
  from an idle system leads there (`Lifecycle.RaceReachable`). The map entry itself is never at risk.
- Moves are in the lifecycle table except a clean exit while starting and the writes that do not look at
  the state they replace: a failed stop writing Running back, and a failed start writing Error or the
  previous state (`Lifecycle.MovesInTableExactly`).
- A failed stop may write Running back without making a running VM that no process stands behind exactly
  while the VM is watched (`Lifecycle.RevertSafeExactly`): live, and with no start under way
  (`Lifecycle.WatchedExactly`). Once the monitor has recorded the exit the write leaves a running VM without
  a process (`Lifecycle.RevertAfterExit`), and once the next start is claimed too it does so to that start's
  record (`Lifecycle.RevertDuringNextStart`). What the stop could check is `Lifecycle.RevertRightExactly`:
  the record is still live and of the start that was stopped.
- A late handler, the tail of an earlier start or stop, can overwrite a newer start's record or kill its
  process. A start can be claimed without any handler ever doing so exactly when no earlier start or stop
  of the VM has anything left to do (`Lifecycle.NextStartSafeExactly`).
- `set_step` is documented to follow a compare-and-set on the status. Where it does not, a finished session
  can be left with an open step (`Bootstrap.FinishedStaysClosedExactly`,
  `Bootstrap.FinishedWithOpenStepReachable`).
- A disk's raw length tells what its filesystem was grown to unless an attempt strands a growth: the tools
  and the length restore both fail and, for a fresh disk, its removal does too
  (`Rootfs.LengthTellsExactly`). The next attempt then takes it for grown
  (`Rootfs.StrandedLengthSkipsTheRetry`).
- A published cache entry that nothing outside touches is kept in every continuation exactly when no task
  was cancelled while removing a corrupt entry under that name, its removal still to come
  (`CacheTasks.KeptForGoodExactly`); a run leads there (`CacheTasks.LateRemovalReachable`). A task cancelled
  while its work file is being created leaves that file behind (`CacheTasks.OrphansOnlyBy`).

## Model

| member | source | states |
|---|---|---|
| `Bits.AndHighMask` | firecrab-api/src/ipam.rs:79-88 | for every width and prefix, masking with high ones rounds down to the aligned block |
| `Subnet.MaskIsHighBits` | firecrab-api/src/ipam.rs:79-83 | for prefixes 0 to 32 the mask is 2^32 minus the block size, the shift by 32 included |
| `Subnet.HostMaskExactly` | firecrab-api/src/ipam.rs:75-83 | `!mask` flips every bit of the mask and is the block size less one |
| `Subnet.BlockShape` | firecrab-api/src/ipam.rs:70-83 | base and broadcast are the ends of the aligned power-of-two block holding the network address |
| `Subnet.ContainsIsInterval` | firecrab-api/src/ipam.rs:86-88 | the bitwise test is membership of the interval from base to broadcast |
| `Subnet.NestedOrDisjoint` | firecrab-api/src/ipam.rs:86-95 | any two CIDR blocks are nested or disjoint |
| `Subnet.OverlapsIffShared` | firecrab-api/src/ipam.rs:93-95 | `overlaps` is true exactly when some address is in both blocks, hence symmetric |
| `Subnet.HostAddressesExactly` | firecrab-api/src/ipam.rs:97-107 | `host_addresses` yields each host address once, `usable_addresses` of them |
| `Subnet.HostInsideExactly` | firecrab-api/src/ipam.rs:70-101 | of one offered address: it lies strictly between gateway and broadcast, in the block, exactly when the gateway does not wrap, or for 255.255.255.255 when the block holds it |
| `Subnet.HostsInsideIffGatewayFits` | firecrab-api/src/ipam.rs:70-107 | all hosts of a subnet do so exactly when the gateway does not wrap, or wraps in the block of all addresses |
| `Subnet.NonOverlappingShareHostExactly` | firecrab-api/src/ipam.rs:70-101 | subnets accepted as not overlapping share an assignable address exactly when the gateway of one wraps and the other has any |
| `Subnet.NonOverlappingSharedHostExample` | firecrab-api/src/ipam.rs:70-101 | 255.255.255.255/24 and 10.0.0.0/24 do not overlap and both offer 10.0.0.2 |
| `Leases.LeaseStore.AllocateExcluding` | firecrab-api/src/ipam.rs:225-268 | the search and insert loops do what the table function says, for every database fault |
| `Leases.LeaseStore.AllocateLease` | firecrab-api/src/persistence.rs:1488-1494 | commit keeps the insert, any error restores the whole table and revision |
| `Leases.LeaseStore.RotateLease` | firecrab-api/src/persistence.rs:1500-1511 | rotation commits as one or leaves the table as it was |
| `Leases.LeaseStore.ReleaseLease` | firecrab-api/src/persistence.rs:1536-1542 | release commits as one or leaves the table as it was |
| `Leases.FirstFreeHost` | firecrab-api/src/ipam.rs:240-247 | the address found is the lowest host neither leased nor excluded, and none is found exactly when there is none |
| `Leases.AllocateOutcome` | firecrab-api/src/ipam.rs:225-268 | each error happens exactly under its own condition; success takes the lowest free host and counts one revision |
| `Leases.ReleaseOutcome` | firecrab-api/src/ipam.rs:287-310 | a release succeeds exactly when the VM holds a lease; its row becomes history, its address and no other is free again, all else is as it was |
| `Leases.CommitsExactly` | firecrab-api/src/persistence.rs:1488-1542 | for every set of failing statements a transaction commits exactly when it would without faults and none of its statements fails, to the same effect |
| `Leases.ExecuteSound` | firecrab-api/src/ipam.rs:193-310 | one transaction on any sound table leaves a sound one: one active row a VM, distinct active addresses, distinct active MACs |
| `Leases.RunSound` | firecrab-api/src/ipam.rs:193-310 | over every sequence of transactions and faults the table stays sound and the revision equals the committed changes |
| `Leases.RowAppended` | firecrab-api/src/ipam.rs:193-268 | in every run each row, released or not, was appended by a committed operation that drew its address from its own subnet |
| `Leases.ActiveAddressesAreAssignable` | firecrab-api/src/ipam.rs:97-268 | in every run each active address is strictly between gateway and broadcast of the subnet of the committed operation that drew it, exactly when that gateway does not wrap (or the address is in the block of 255.255.255.255) |
| `Leases.HistoryIsAppendOnly` | firecrab-api/src/ipam.rs:255-310 | rows are never deleted or rewritten, only released, and the revision never falls |
| `Leases.RotateOutcome` | firecrab-api/src/ipam.rs:205-219 | rotating a leased VM moves it to the lowest other free host with all else unchanged, or fails with PoolExhausted and changes nothing; never MacPoolExhausted |
| `Leases.RotateWithoutLease` | firecrab-api/src/ipam.rs:205-219 | a VM without a lease has nothing to rotate |
| `Leases.ExhaustedExactlyAtCapacity` | firecrab-api/src/ipam.rs:97-107 | with no exclusions the pool is exhausted exactly when the active leases in the range number `usable_addresses` |
| `Lines.SplitStream` | firecrab-api/src/console.rs:141-162 | reading a stream in two pieces carries over only the first piece's unfinished line |
| `Console.FilterGuestUsageForTerminal` | firecrab-api/src/console.rs:141-162 | the draining loop computes exactly the whole-buffer filter step and keeps at most 8 KiB |
| `Console.HeldExactly` | firecrab-api/src/console.rs:141-174 | every call, over the cap or not, looks at the last 8 KiB in hand and holds their unfinished line exactly when the marker is in it or begins it after control bytes; else it is shown at once |
| `Console.PromptIsShown` | firecrab-api/src/console.rs:141-162 | over every stream and split within the cap, all there is to see has been shown once read, unless the unfinished line has the first byte of the marker |
| `Console.LeadingMarkerIsHeld` | firecrab-api/src/console.rs:164-174 | a partial line that leads with the marker, or part of it, is always held back |
| `Console.FilterAgreesWithWholeStream` | firecrab-api/src/console.rs:141-174 | for every split within the cap, output and pending together are the stream with exactly its marker lines deleted |
| `Console.StrayMarkerLeaks` | firecrab-api/src/console.rs:141-174 | in a stream of any length, with lines of any length but those the filter could come to hold, any line with text before its marker can be cut so that part of it reaches the terminal |
| `Console.FeedInPieces` | firecrab-api/src/console.rs:141-174 | a line the filter cannot come to hold, however long, has a split within the cap that shows all of it |
| `Console.SplitIndependentExactly` | firecrab-api/src/console.rs:141-174 | for such a stream every split gives the whole-stream result exactly when no line has anything before its marker |
| `Console.ConsoleBroker.PushOutput` | firecrab-api/src/console.rs:88-101 | the backlog stays the last 256 KiB of everything sent; one message per non-empty visible piece |
| `Console.ConsoleBroker.Subscribe` | firecrab-api/src/console.rs:106-112 | snapshot and channel position belong to the same instant |
| `Console.MessagesCarryFeed` | firecrab-api/src/console.rs:88-101 | the messages concatenated are all visible output |
| `Console.SubscriberSeesSuffix` | firecrab-api/src/console.rs:88-112 | for any interleaving, snapshot plus later messages is a suffix of all visible output, nothing lost or repeated |
| `Console.ViewersNeverSeeReports` | firecrab-api/src/console.rs:88-174 | viewers get a prefix of the stream without its report lines |
| `Metrics.FloorCharBoundary` | firecrab-api/src/process_metrics.rs:145-154 | the loop finds the greatest character boundary not above the index |
| `Metrics.ProcessMetricsTracker.IngestConsole` | firecrab-api/src/process_metrics.rs:81-111 | one call changes only its VM, by exactly the whole-buffer step |
| `Metrics.ProcessMetricsTracker.RecordSample` | firecrab-api/src/process_metrics.rs:120-134 | the ring keeps the last sixty points and `latest` the newest sample |
| `Metrics.ProcessMetricsTracker.Clear` | firecrab-api/src/process_metrics.rs:114-118 | clearing empties one VM's state and no other's |
| `Metrics.RecordedHistory` | firecrab-api/src/process_metrics.rs:120-134 | capping after every sample equals capping the whole history once |
| `Metrics.RecordedPoints` | firecrab-api/src/process_metrics.rs:120-134 | each point has the sample and the time of its recording, newest last, before them the newest of those already there |
| `Metrics.ContentExactly` | firecrab-api/src/process_metrics.rs:96-105 | a line loses its newline and one carriage return before it, nothing else |
| `Metrics.CappedExactly` | firecrab-api/src/process_metrics.rs:85-94 | a buffer over 8 KiB loses its beginning up to the last character that starts early enough |
| `Metrics.IngestAgreesWithWholeStream` | firecrab-api/src/process_metrics.rs:81-134 | for every stream and split within the cap whose chunks decode unchanged the samples are those of the whole stream's lines, in order |
| `Metrics.AsciiDecodesUnchanged` | firecrab-api/src/process_metrics.rs:81-86 | every chunk of an ASCII stream decodes unchanged, however the stream is split |
| `Lifecycle.AppState.ClaimTransition` | firecrab-api/src/handlers/vms.rs:988-1014 | moves a record exactly when the lifecycle table allows it, otherwise changes nothing and says why |
| `Lifecycle.AppState.TransitionIf` | firecrab-api/src/handlers/vms.rs:1028-1041 | compare-and-set on a record's state |
| `Lifecycle.AppState.Register` | firecrab-api/src/firecracker.rs:367-387 | registration drops the old samples and then inserts the entry |
| `Lifecycle.RegistersInTwoSections` | firecrab-api/src/firecracker.rs:367-387 | the two sections, interleaved as steps, are that registration |
| `Lifecycle.OtherVmsUntouched` | firecrab-api/src/firecracker.rs:362-476 | no step of any handler or monitor touches another VM |
| `Lifecycle.HandlerWrites` | firecrab-api/src/handlers/vms.rs:782-1041 | what each handler step makes of the record: claims, compare-and-sets, unchecked writes |
| `Lifecycle.AppState.FailStart` | firecrab-api/src/handlers/vms.rs:1805-1823 | a failing start ends the record in error and kills the process the map holds then |
| `Lifecycle.AppState.RemoveIfOurs` | firecrab-api/src/firecracker.rs:401-416 | the monitor's first lock removes an entry exactly when it holds the watched PID |
| `Lifecycle.AppState.RecordExit` | firecrab-api/src/firecracker.rs:426-449 | the monitor's third lock writes a record exactly when it owned the entry and the VM is live |
| `Lifecycle.ExitIsRecorded` | firecrab-api/src/firecracker.rs:401-449 | a monitor that owns its VM takes away entry and samples and ends a live record, stopped or in error, with nothing else changed |
| `Lifecycle.StrangerChangesNothing` | firecrab-api/src/firecracker.rs:401-416 | a monitor that no longer owns the entry changes nothing |
| `Lifecycle.SamplesCleared` | firecrab-api/src/firecracker.rs:417-423 | the second lock leaves the VM without samples and every other VM with its own |
| `Lifecycle.ClearedUntilReport` | firecrab-api/src/firecracker.rs:417-423 | in every run from there the VM has no samples until a process of it reports again |
| `Lifecycle.ClaimsExactly` | firecrab-api-types/src/lib.rs:79-90 | a VM can be started exactly when it is not live and stopped exactly when it is running |
| `Lifecycle.NobodyStuck` | firecrab-api/src/firecracker.rs:362-476 | every monitor has its next lock to take and every start its next registering step, in every state |
| `Lifecycle.StartRound` | firecrab-api/src/handlers/vms.rs:988-1041 | from any state, claim, registration and the move to Running put a monitored process behind a running record of the next generation, old samples gone |
| `Lifecycle.StopRound` | firecrab-api/src/firecracker.rs:401-449 | from any state, a claimed stop and its exit leave the record stopped and neither entry, samples nor monitor |
| `Lifecycle.EntriesNeverDisturbed` | firecrab-api/src/firecracker.rs:367-416 | in every interleaving whatever, no monitor removes a newer generation's map entry |
| `Lifecycle.OrderlyStays` | firecrab-api/src/firecracker.rs:362-476 | the invariant behind the next row: a watched VM is live, of the watched generation, and watched once |
| `Lifecycle.MonitorsNeverDisturb` | firecrab-api/src/firecracker.rs:362-476 | while only the monitor ends a watched VM, no late monitor touches a newer entry, sample or record in any run |
| `Lifecycle.IdleNeverDisturbed` | firecrab-api/src/firecracker.rs:362-476 | the same from start-up, with nothing assumed but an idle system |
| `Lifecycle.ForcedMoveSafeExactly` | firecrab-api/src/handlers/vms.rs:877-889 | ending a VM without its monitor is safe in every continuation exactly when no monitor or start is outstanding |
| `Lifecycle.RaceReachable` | firecrab-api/src/handlers/vms.rs:849-889 | a run from an idle system reaches a stop whose early finish lets the next start be hit |
| `Lifecycle.MovesInTableExactly` | firecrab-api-types/src/lib.rs:79-90 | for every step of every handler and monitor, a state change is in the table exactly when it is not a clean exit while starting nor an unchecked write from a state the table forbids |
| `Lifecycle.GenerationsCountStarts` | firecrab-api/src/handlers/vms.rs:988-1014 | a VM's generation changes by claimed starts only, one each |
| `Lifecycle.StoppingEndsStopped` | firecrab-api/src/firecracker.rs:431-449 | until its monitor is done a stopping VM stays stopping, or running where a failed stop wrote that back; the exit leaves it stopped if it was stopping or the exit was clean, else in error |
| `Lifecycle.StoppedStays` | firecrab-api/src/handlers/vms.rs:988-1041 | a stopped VM stays stopped through any run until a start is claimed or an unchecked write finds it |
| `Lifecycle.RevertSafeExactly` | firecrab-api/src/handlers/vms.rs:843-847 | writing Running back after a failed stop keeps every running or stopping VM watched exactly while the VM is watched |
| `Lifecycle.WatchedExactly` | firecrab-api/src/handlers/vms.rs:988-1014 | a VM is watched exactly when its record is live and no start of it is under way |
| `Lifecycle.RevertLeavesBusyExactly` | firecrab-api/src/handlers/vms.rs:843-847 | the write leaves a process or a start behind every live record exactly while the record is live |
| `Lifecycle.RevertRightExactly` | firecrab-api/src/handlers/vms.rs:843-847 | it keeps running VMs watched and hits no newer start exactly when the record is live and of the stopped start, or running already |
| `Lifecycle.RunningIsWatched` | firecrab-api/src/handlers/vms.rs:802-847 | in every run in which handlers write Running over watched VMs only, every running or stopping VM has a watched process |
| `Lifecycle.LiveIsWatched` | firecrab-api/src/handlers/vms.rs:843-847 | in every run whose write-backs come in time, a live record has a monitored process or a start behind it |
| `Lifecycle.RevertAfterExit` | firecrab-api/src/handlers/vms.rs:843-847 | a run from an idle system ends with a running record and no process, monitor or start |
| `Lifecycle.RevertDuringNextStart` | firecrab-api/src/handlers/vms.rs:843-847 | another ends with the next start's record running, no process and no monitor, written by the stop of the start before |
| `Lifecycle.StopDuringNextStart` | firecrab-api/src/handlers/vms.rs:877-889 | from there a stop that finishes leaves a state in which a later start can be hit |
| `Lifecycle.HandlersNeverHit` | firecrab-api/src/handlers/vms.rs:782-889 | while every start waits for the handlers before it, no late handler hits a newer start's record or process, in any run |
| `Lifecycle.NextStartSafeExactly` | firecrab-api/src/handlers/vms.rs:988-1041 | a start can be claimed without any handler ever hitting it exactly when no earlier start or stop has anything left to do |
| `Bootstrap.BootstrapTracker.CloseOpenStep` | firecrab-api/src/bootstrap.rs:265-281 | closing finds the open run and leaves every other run as it is |
| `Bootstrap.BootstrapTracker.TryBegin` | firecrab-api/src/bootstrap.rs:30-39 | a session begins exactly when none is active |
| `Bootstrap.BeginOutcome` | firecrab-api/src/bootstrap.rs:30-39 | the new session boots with its first step under way, and others are left alone |
| `Bootstrap.AppliesExactly` | firecrab-api/src/bootstrap.rs:89-216 | a call applies exactly to a tracked session in the expected status, otherwise changes nothing, and never touches another session |
| `Bootstrap.AppliedOutcome` | firecrab-api/src/bootstrap.rs:89-205 | status, end time, current step and the closed run of the session after every call, succeeded or failed with its reason |
| `Bootstrap.ApplySound` | firecrab-api/src/bootstrap.rs:30-216 | every call that does not revive a session keeps the slot and the timelines sound and changes no closed run |
| `Bootstrap.RunSound` | firecrab-api/src/bootstrap.rs:30-294 | over every run: one active session, one open run at most and last, matching `current_step`, end times exactly on closed runs |
| `Bootstrap.ClosedRunsNeverChange` | firecrab-api/src/bootstrap.rs:265-294 | over every run closed steps stay as they were for as long as the session is tracked |
| `Bootstrap.RevivingBreaksTheSlot` | firecrab-api/src/bootstrap.rs:89-106 | reviving a finished session breaks the single slot exactly when another is active |
| `Bootstrap.FinishedStaysClosedExactly` | firecrab-api/src/bootstrap.rs:113-121 | a finished session keeps no open step exactly when no call opens one on it |
| `Bootstrap.FinishedWithOpenStepReachable` | firecrab-api/src/bootstrap.rs:113-121 | from an empty tracker a begin, a failure and a late step end in a failed session with an open step |
| `PortForwards.PortTable.SetVmPortForwards` | firecrab-api/src/persistence.rs:1371-1411 | delete and insert loop commit as one or restore every row, at whichever statement a fault strikes |
| `PortForwards.ReplaceOutcome` | firecrab-api/src/persistence.rs:1371-1411 | for every fault: succeeds exactly when the list repeats no pair, no other VM owns one and no statement fails; a fault that strikes, or the first clash, is the error |
| `PortForwards.ReplacedRows` | firecrab-api/src/persistence.rs:1371-1411 | after success the VM's rows are exactly the list and all other VMs' rows are unchanged |
| `PortForwards.PairsStayUnique` | firecrab-api/src/persistence.rs:183-198 | host port and protocol pairs stay globally unique over every run |
| `Rootfs.VmDisk.PrepareRootfs` | firecrab-api/src/rootfs.rs:121-168 | the step-by-step preparation and clean-up do what the attempt function says, for every outcome |
| `Rootfs.VmDisk.Grow` | firecrab-api/src/rootfs.rs:173-214 | growing extends, runs the tools and restores as the growth function says |
| `Rootfs.PrepareOkExactly` | firecrab-api/src/rootfs.rs:121-214 | an attempt succeeds exactly when a missing disk is published and the disk is long enough or both tools accept, e2fsck with 0 or 1 and resize2fs with 0 |
| `Rootfs.PrepareError` | firecrab-api/src/rootfs.rs:121-244 | otherwise the first thing that went wrong is reported |
| `Rootfs.PrepareSucceeds` | firecrab-api/src/rootfs.rs:121-214 | success, whatever the clean-up calls did, leaves a disk no shorter than asked for or before, grown to its length |
| `Rootfs.PrepareFails` | firecrab-api/src/rootfs.rs:140-168 | a failure leaves an old disk untouched when the restore works, and nothing of a fresh one when the removals work |
| `Rootfs.LengthTellsExactly` | firecrab-api/src/rootfs.rs:121-214 | an attempt makes the length lie exactly when it strands a growth, of an old disk or of a fresh one it cannot remove |
| `Rootfs.StrandedLengthSkipsTheRetry` | firecrab-api/src/rootfs.rs:173-181 | a stranded length makes every retry report success on a filesystem below the target |
| `Rootfs.TemporaryLeftExactly` | firecrab-api/src/rootfs.rs:140-165 | exactly when an attempt leaves a temporary file |
| `Rootfs.RunLengthTells` | firecrab-api/src/rootfs.rs:121-214 | over every run of attempts whose restores work, whatever else fails, the length is the size last grown to |
| `Rootfs.DiskNeverShrinks` | firecrab-api/src/rootfs.rs:173-214 | over every run of attempts at all, a disk once there stays and never shrinks |
| `Rootfs.NoRetryIsSkipped` | firecrab-api/src/rootfs.rs:173-181 | over such runs the length check never skips a growth that is still needed |
| `Rootfs.RunLeavesNoTemporary` | firecrab-api/src/rootfs.rs:140-165 | attempts whose removals work leave no temporary file, over every run |
| `Reference.ParsedDigest` | firecrab-api/src/oci.rs:48-66 | a parsed digest is canonical and differs from its text in case only |
| `Reference.DigestAcceptedExactly` | firecrab-api/src/oci.rs:48-66 | a digest parses exactly when it is `sha256:` and 64 hex digits; a missing and an unknown algorithm are told apart |
| `Reference.DigestRoundTrip` | firecrab-api/src/oci.rs:48-71 | a digest parses back to itself exactly when it is canonical |
| `Reference.PathExactly` | firecrab-api/src/oci.rs:260-277 | the component-wise repository check accepts exactly the paths a character-wise rule describes |
| `Reference.ParseExactly` | firecrab-api/src/oci.rs:193-277 | for every text and reference: the parser gives it exactly when the trimmed text is a host or none, a path, and a digest, a tag or neither, as written |
| `Reference.TrimExactly` | firecrab-api/src/oci.rs:194-197 | trimming takes the white space at both ends and nothing else |
| `Reference.ParseRefusals` | firecrab-api/src/oci.rs:193-233 | white space alone, a tag before a digest, a bad digest and an empty tag are each refused exactly then, as such |
| `Reference.FirstProblem` | firecrab-api/src/oci.rs:260-272 | in a path the first bad component decides, empty or malformed |
| `Reference.ParsedCanonical` | firecrab-api/src/oci.rs:193-277 | whatever parses is canonical: ports, alias rewriting, implicit library namespace, digest case |
| `Reference.PrintRoundTrip` | firecrab-api/src/oci.rs:193-277 | printing and parsing gives the same reference back exactly for the canonical ones |
| `Reference.ParseStable` | firecrab-api/src/oci.rs:193-277 | for every text that parses, printing and parsing again changes nothing |
| `Reference.BareNameIsHubExactly` | firecrab-api/src/oci.rs:244-277 | a bare path means the path under `docker.io` exactly when its first component is no host |
| `BlobCache.VerifiedExactly` | firecrab-api/src/oci.rs:1924-1957 | an entry is missing, valid, corrupt or an error exactly when it is absent, a readable file as asked for, not such a file, or too long, unreadable or of the wrong size |
| `BlobCache.ReceivedExactly` | firecrab-api/src/oci.rs:1813-1841 | checking every running total is checking the whole body |
| `BlobCache.ReceiveFails` | firecrab-api/src/oci.rs:1813-1841 | the first chunk that is lost, does not fit or cannot be written decides the error |
| `BlobCache.HeadRefusalExactly` | firecrab-api/src/oci.rs:1769-1812 | a response is let through exactly when it is a success within the limit that contradicts neither digest nor size |
| `BlobCache.ImageCache.CreatePartialFile` | firecrab-api/src/oci.rs:1999-2024 | a work file is new, and is found exactly when one of eight names is free |
| `BlobCache.ImageCache.DownloadBlob` | firecrab-api/src/oci.rs:1769-1862 | publishes exactly the body that passes every check; any failure leaves the directory as it was |
| `BlobCache.ImageCache.DecodeLayer` | firecrab-api/src/oci.rs:2283-2411 | publishes exactly what decodes within the limit to the diff ID from the verified blob |
| `BlobCache.ImageCache.CacheDescriptor` | firecrab-api/src/oci.rs:1744-1767 | succeeds exactly when the entry is good, or is missing or removably corrupt and the download succeeds; the entry is then the registry's body; a good entry is never fetched again |
| `BlobCache.ImageCache.CacheLayer` | firecrab-api/src/oci.rs:2247-2281 | the same for a layer: succeeds exactly when the entry is good, or is missing or removably corrupt and the decoding succeeds |
| `CacheTasks.InvStays` | firecrab-api/src/oci.rs:1744-1862 | every step of every task, failing, cancelled or late, keeps: lock held by the task inside, work files owned, published entries vouched for |
| `CacheTasks.OneTaskInside` | firecrab-api/src/oci.rs:1694-1713 | two tasks are never inside the same file's critical section |
| `CacheTasks.WorkFilesExactly` | firecrab-api/src/oci.rs:1999-2046 | the work files are exactly those of receiving tasks and those made by a creation that outlived its cancelled task |
| `CacheTasks.OrphansOnlyBy` | firecrab-api/src/oci.rs:1999-2012 | only such a creation makes an orphan, and only a task cancelled while creating leaves one to come |
| `CacheTasks.NoCancelNoOrphan` | firecrab-api/src/oci.rs:1999-2046 | in every run without such a cancellation no work file is left by a failed or finished task |
| `CacheTasks.SuccessIsVerified` | firecrab-api/src/oci.rs:1744-1862 | the moment a task succeeds the final name holds what its own request asked for |
| `CacheTasks.LookOutcome` | firecrab-api/src/oci.rs:1757-1762 | a task finishes on what it asked for, fetches what is missing, removes what is corrupt and gives up on the rest, with nothing else changed |
| `CacheTasks.FetchSucceeds` | firecrab-api/src/oci.rs:1769-1862 | with nothing in its way a fetching task can create, write and rename, and then has succeeded with the entry the blob and the lock free |
| `CacheTasks.RemoveAndFailOutcome` | firecrab-api/src/oci.rs:1978-2046 | a removal is followed by a fetch; a failing task leaves neither work file nor lock |
| `CacheTasks.NeverStuck` | firecrab-api/src/oci.rs:1744-1862 | in every reachable state each task has its own next step open, or waits for a task that can end |
| `CacheTasks.FinalChangesOnlyBy` | firecrab-api/src/oci.rs:1744-1862 | a final name changes only by outside interference, removal of an entry not the cache's own, a cancelled task's late removal, or a complete publication |
| `CacheTasks.RunSound` | firecrab-api/src/oci.rs:1744-1862 | in every interleaving and with cancellations, a published entry has the digest and the size or limit some task asked for, and no work file but orphans outlives its task |
| `CacheTasks.PublishedOnce` | firecrab-api/src/oci.rs:1757-1762 | an entry nothing outside touches and no late removal awaits is never removed, fetched or rewritten again, in any run |
| `CacheTasks.KeptForGoodExactly` | firecrab-api/src/oci.rs:1978-1997 | a published entry is kept in every continuation exactly when no cancelled task's removal of it is outstanding |
| `CacheTasks.LateRemovalReachable` | firecrab-api/src/oci.rs:1978-1997 | a run of two tasks leads to a success whose entry such a removal can still take away |
| `DedupWork.DistinctWork` | firecrab-api/src/oci.rs:4061-4066 | the work list holds the first item of each key, no key twice, and every key |
| `DedupWork.RunDistinct` | firecrab-api/src/oci.rs:4067-4092 | for every completion order no key is run twice, the lookup never misses and each item gets its representative's result |
| `DedupWork.ValidateDescriptorSizes` | firecrab-api/src/oci.rs:1574-1588 | accepts exactly the manifests where size is a function of digest, and names the first contradiction |
| `DedupWork.CacheImageBlobs` | firecrab-api/src/oci.rs:4051-4100 | fetches each digest once in whatever order, and succeeds exactly when every blob's own fetch does, with its own result |
| `DedupWork.DeduplicationSoundExactly` | firecrab-api/src/oci.rs:1574-1588 | first-of-each-digest stands for all, for every registry, exactly when the sizes agree |
| `DedupWork.CachedBlobsAgree` | firecrab-api/src/oci.rs:4084-4093 | the blob stage hands the layer stage blobs whose path and size depend on the digest only |
| `DedupWork.DecompressLayers` | firecrab-api/src/oci.rs:3003-3066 | decodes each distinct layer once in whatever order; every layer gets, in manifest order, what decoding it alone gives, and every refusal has its cause |
| `BearerToken.RegistrySession.Refresh` | firecrab-api/src/oci.rs:1266-1299 | exchanges exactly when nobody has replaced the rejected token; a failed exchange keeps the stored one |
| `BearerToken.RegistrySession.Get` | firecrab-api/src/oci.rs:1246-1308 | a rejected request is sent again exactly when another token is stored or one is issued, with that token; each failure has its error |
| `BearerToken.Issued` | firecrab-api/src/oci.rs:4115-4125 | a token is issued exactly when one of the two members is present and not empty, the first such |
| `BearerToken.ExchangesOnRejectedToken` | firecrab-api/src/oci.rs:1266-1270 | an exchange happens only while the stored token is the rejected one |
| `BearerToken.StartOutcome` | firecrab-api/src/oci.rs:1252-1256 | a request is first sent with the stored token |
| `BearerToken.RejectedOutcome` | firecrab-api/src/oci.rs:1257-1301 | whatever the others left, a rejected request resends the token found stored or the one issued, which is stored, or is over |
| `BearerToken.NeverStuck` | firecrab-api/src/oci.rs:1246-1308 | in every reachable state each request has its own next step open, or waits for a refresh that can settle |
| `BearerToken.ExchangesInEveryRun` | firecrab-api/src/oci.rs:1246-1308 | in every interleaving: two sends and one exchange a request at most, one exchange for the first challenge, and none repeated for a token exactly while issued tokens are fresh |
| `BearerToken.ResendsAnotherTokenExactly` | firecrab-api/src/oci.rs:1267-1308 | the second send repeats the rejected token exactly when the exchange returned it |
| `TarLayer.TarEntryEnd` | firecrab-api/src/oci.rs:3810-3844 | on all 64-bit inputs the end is accepted exactly when the padded member lies in the file |
| `TarLayer.ValidateTarTerminator` | firecrab-api/src/oci.rs:3846-3886 | ends for every pattern of short reads and accepts exactly two zero records followed by zeros |
| `TarLayer.SplitJoins` | firecrab-api/src/oci.rs:3893-3899 | splitting a path at slashes loses nothing |
| `TarLayer.IsSafeLayerMemberBytes` | firecrab-api/src/oci.rs:3888-3901 | the component loop decides the member-name rule |
| `TarLayer.SafeMembersExactly` | firecrab-api/src/oci.rs:3888-3909 | accepted names resolve strictly below any directory, root names to itself, and neither ever leaves it |
| `TarLayer.AcceptableExactly` | firecrab-api/src/oci.rs:3603-3711 | a raw member is acceptable exactly when it fits, is of a known kind, and it and what a hard link names end strictly below any directory it is unpacked into |
| `TarLayer.HarmlessExactly` | firecrab-api/src/oci.rs:3713-3808 | PAX records are let through exactly when none repeats a security key and no reader that applies them gets another size, a sparse layout, a global path or link, or a path outside |
| `TarLayer.ValidatePaxMetadata` | firecrab-api/src/oci.rs:3713-3808 | accepts exactly the records that cannot move a member or its payload's end, with no security key repeated |
| `TarLayer.ValidateRawTarMetadata` | firecrab-api/src/oci.rs:3603-3711 | accepts exactly when every raw member is acceptable, and returns the last padded end |
| `TarLayer.ValidateLayerArchive` | firecrab-api/src/oci.rs:3385-3407 | the preflight accepts exactly whole-block archives of acceptable members with a proper end |
| `TarLayer.AcceptedLayout` | firecrab-api/src/oci.rs:3603-3711 | members of an accepted archive are block-aligned, in order, disjoint and inside the file |

## Left out

- HTTP, TLS, process spawning, signals and the Unix-socket network client: only their outcomes appear, as parameters.
- SHA-256, gzip and zstd: arbitrary functions or given results; that a decoder turns given bytes into given output is not modelled.
- The tar crate's parser: members arrive as a list, and the second, semantic pass over the same archive (oci.rs:3408-3600) is not modelled.
- SQLite and its SQL text: tables are sequences, a transaction commits or restores; the 32-bit ceiling of the lease revision, which is SQLite's `user_version`, is not modelled.
- A lease row's CIDR text: a row names its network by identifier, and the subnet a lease came from is the one passed to the call.
- `IpamError::CorruptLease` (ipam.rs:342-363): a row holds parsed values, so text in the database that no longer parses is not modelled.
- Lease clean-up by network (`has_active_leases_in`) and the listing queries: plain reads.
- Shell revisions, `delete_shell` and `reset_active_states` in persistence.rs: single statements whose properties follow from one body.
- Micro-networks, storages, credentials, and the VM record columns.
- `Console.ConsoleBroker.Subscribe`: a receiver that lags behind the broadcast channel loses messages; only receivers that do not lag are covered.
- `Metrics.IngestAgreesWithWholeStream`: a character split between chunks is decoded lossily there, and the samples may differ.
- `Console.SplitIndependentExactly`: lines above 8 KiB with a marker at their start or after a control byte; the filter comes to hold such a line and then cuts it.
- The console writer and `attach_stdin`: no state to reason about.
- Percent parsing in `parse_usage_line`: an arbitrary per-line parser.
- Deleting a VM record and its files; of the persistence of records after each lifecycle move, only the states written when it fails.
- Two watched processes under one PID: registrations are given distinct PIDs. The code gives PID 0 to a child that is already reaped (firecracker.rs:364), so two generations of one VM can share it, and it can reuse a PID the system has handed out again.
- `Lifecycle.AppState.FailStart`: reads the PID and writes the state as one section; the code takes two locks and sends the signal later.
- Samples are kept per generation in the lifecycle model without their cap, which is modelled on its own.
- Session log text, elapsed-time labels and time stamps taken from the wall clock.
- The other effects of a cancelled request: a cancelled download is modelled down to the file operations it leaves in flight, other handlers are not.
- `Rootfs.VmDisk.PrepareRootfs`: a host crash between two steps is not modelled; one answer stands for every clean-up removal of an attempt.
- Guest customisation of a disk by debugfs and scripts.
- `BlobCache.ImageCache.CacheDescriptor`: creating the cache directory, which may fail, comes before it.
- `BlobCache.ImageCache.DownloadBlob`: a clean-up whose own file removal fails is not modelled.
- `CacheTasks.RunSound`: verification of an entry is one step, and locks exist within one server process only, as in the code.
- Lock-table bookkeeping by weak references (oci.rs:1694-1713): a lock per final path is taken as given.
- Manifest and index resolution, platform selection, configuration parsing, layer extraction and merging.
- Handlers, templates, the dashboard, generated bindings and release scripts.
