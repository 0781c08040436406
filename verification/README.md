# PCIe simulator: verified model

A Dafny model of the PCIe simulator's stateful core, with proofs about whole runs
of it. `dafny verify dfyconfig.toml` checks the project.

| files | what they model |
|---|---|
| `BoundedFifo`, `RingThreads`, `RingBuffer` | the DMA descriptor ring: its specification as a bounded FIFO with a clock, the ring as many threads execute it one shared access at a time, and the ring as an object |
| `Averages`, `Backends` | the latency statistics of the kernel driver, the Linux simulation and the Windows simulation, and the kernel's ioctl interface |
| `ClaimProtocol`, `DeviceOwner`, `DeviceTable` | opening and closing devices in the Windows simulation under every interleaving, and the move-only C++ `Device` on top of it |
| `Resources`, `DriverLifecycle` | loading and unloading the kernel driver when any kernel call may fail |
| `Registers`, `Bar0`, `Performance` | the BAR0 register file, as a register map and as the bytes it is stored in, and its performance registers after any transfers |
| `CommandLine`, `TestConfig` | the option parser and the lowering of its values to a validated test configuration |
| `Arithmetic`, `Sequences`, `Wrappers` | floors and remainders, the two ends of a sequence, and a value that may be missing |

## How the main results fit together

**Ring.** A run is any sequence of thread steps and clock ticks; threads take the
lock, read and write one shared variable per step, and drop the lock. The run
leaves a history of calls, effects and answers. `RingRefinesFifo` says every such
history is linearizable with respect to a FIFO that knows nothing of slots or
locks; Little's law, the order of deliveries and the accounting of submit calls
are proved about that FIFO alone and carried over. Effects are placed where the
source samples its clock, which makes Little's law exact and leaves the visible
`count` off by at most one while a thread is inside the lock; integrated over
time, `count` therefore strays from the occupancy by no more than the time that
passes under the lock. `UninterruptedSubmit` and `UninterruptedComplete` tie the
object's methods, on all their paths, to the step machine.

**Statistics.** Each backend's object keeps a ghost log of the transfers since its
last reset, and its `Valid()` states what the six numbers are for that log. The
averages are then compared with closed forms. All three rules use 64-bit words:
each is exact at every report exactly when no step wraps. Latencies below 2^63 ns
never wrap a halving average; a latency total below 2^64 never wraps the mean.

**Claims.** The rollback of a failed open clears the `active` flag without the
lock; the invariant shows why that is harmless. Close is safe only for a handle
that is live and not already being closed. The C++ wrapper never checks that; it
is proved to obey it in every run of constructions, moves and destructions. When
all Devices are gone every device can be opened again (`EveryDeviceReopens`). What
open answers, and what a move, a destruction or a construction leaves behind, is
stated from the call to the return under every interleaving (`OpenAnswersTruly`,
`MoveAssignMoves`, `DestroyRemoves`, `ConstructGives`).

**Driver.** Acquisitions and releases form a trace. A trace is legal when nothing
is acquired before what it needs or released while something live needs it. Refused
calls are in the trace too, so that a load can be proved to succeed exactly when
nothing outside the probes was refused, and a device to be bound exactly when
nothing its own probe asked for was.

**Registers.** Stores and loads of little-endian words in the byte array are
proved to act on a map of independent registers, and runs are studied there. A
run may set BAR0 up again; that resets the registers and not the flags beside them.

**Options.** `AcceptedConfigIsValid` and `SettingsReachConfig` go from the argument
list through parsing and lowering to the final configuration. Parsing itself is
characterised token by token: which argument lists are accepted, rejected or throw
(`ParsedIff`), and which value each option ends up with (`LastUseCounts`).

Where documentation and code differ, the code is followed. Findings stated as
results, with the exact condition under which the code meets the expectation:

- the kernel's average can be below its minimum (`KernelCanUndercutMinimum`); it reaches the minimum exactly when the weighted latencies carry 2^n times it (`KernelReachesMinimumIff`), and stays there (`KernelStaysAboveMinimum`);
- wrapped sums break `min <= avg` on Linux and Windows (`LargeLatenciesWrap`), exactly when some sum wraps to too little (`LinuxOrderedIff`, `WindowsOrderedIff`);
- the kernel's minimum latency forgets everything before a zero latency (`SentinelMinIsExactIff`);
- setting BAR0 up again leaves interrupts pending and errors injected that no register shows (`RestartKeepsPending`, `RestartKeepsInjecting`), exactly until the next transfer or store that settles them (`PendingIffInterrupt`, `InjectionFollowsRegister`);
- closing a handle twice can lose another thread's claim (`DoubleCloseLosesClaim`); clearing the flag is right exactly when the claim is the handle's own (`ClearIsRightIff`);
- an accepted command line can still make the lowering throw (`AcceptedCanThrow`), exactly when it consults an int option last given without a value (`LoweringThrowsIff`);
- the verbose flag of the configuration is always set, because `verbose` has the default `"false"` (`ConfigFlags`);
- REG_STATUS never reports a running DMA, because nothing sets `dma_active` (`StatusShowsPending`).

## Model

| member | source | states |
|---|---|---|
| `BoundedFifo.DeliveriesFollowSubmissions` | kernel/ringbuffer.c:108-192 | in every history the FIFO allows, the k-th delivery carries the length of the k-th accepted submission, the queue is exactly the accepted entries not yet delivered, and it never exceeds the capacity |
| `BoundedFifo.AnswersAreExact` | kernel/ringbuffer.c:116-173 | every answer is exact for what was accepted and delivered before it: no space exactly when full, no data exactly when empty, otherwise the length and age of the oldest entry |
| `BoundedFifo.StampsAreOrdered` | kernel/ringbuffer.c:128-173 | queued entries are in time order and none is stamped in the future, so no latency subtraction underflows |
| `BoundedFifo.LittlesLaw` | kernel/ringbuffer.c:124-183 | delivered latency plus the ages of queued entries equals the occupancy integrated over time |
| `BoundedFifo.SubmitCallsAreAccounted` | kernel/ringbuffer.c:116-137 | every submit call was accepted, was refused, or has not taken effect yet |
| `RingThreads.FillKeepsMatch` | kernel/ringbuffer.c:124-129 | filling the head slot stores the new entry as pending and overwrites no live one |
| `RingThreads.MarkKeepsMatch` | kernel/ringbuffer.c:175-176 | writing the completion status touches no live entry |
| `RingThreads.ReadAnswersFifo` | kernel/ringbuffer.c:165-173 | the length and 64-bit latency read from the tail slot are the FIFO's answer |
| `RingThreads.StepKeepsInv` | kernel/ringbuffer.c:108-192 | every step of every thread, and every clock tick, keeps mutual exclusion, linearizability and the match between slots, counters and history |
| `RingThreads.RingRefinesFifo` | kernel/ringbuffer.c:108-192 | every run of any number of threads is linearizable as a bounded FIFO: -ENOSPC exactly when full, -ENODATA exactly when empty, deliveries in submission order |
| `RingThreads.RingAnswersExactly` | kernel/ringbuffer.c:116-173 | the same for every effect of every run of the threaded ring |
| `RingThreads.LiveDescriptorsAreIntact` | kernel/ringbuffer.c:124-137 | in every reachable state, also inside critical sections, the k-th live entry sits unchanged with status pending in slot k mod size |
| `RingThreads.RunObeysLittlesLaw` | kernel/ringbuffer.c:124-183 | at every instant of every run Little's law holds exactly for the entries in flight, and for the integral of the ring's own count up to the time ticked while the lock was held; no queued entry is stamped later than the clock |
| `RingThreads.CountTracksOccupancy` | kernel/ringbuffer.c:92-95 | over every run the integral of count differs from the occupancy integral by at most the time ticked while the lock was held, so by nothing when no tick falls there |
| `RingThreads.UnlockedCountIsBounded` | kernel/ringbuffer.c:92-103 | a reader without the lock sees a count in 0..size that is off by at most one, and exact when the lock is free |
| `RingThreads.CountersAtRest` | kernel/ringbuffer.c:43-52 | whenever the lock is free, count = submissions - completions, head and tail are those counters modulo the size, and submissions + overruns + waiting calls = submit calls |
| `RingThreads.SubmitCallsAtQuiescence` | kernel/ringbuffer.c:116-137 | once all threads have returned, submissions + overruns = submit calls |
| `RingThreads.CallsMakeProgress` | kernel/ringbuffer.c:114-139 | a thread waits only for the lock holder, which can always step, and every step brings its call nearer to its return |
| `RingBuffer.UninterruptedSubmit` | kernel/ringbuffer.c:108-145 | a submit that no other thread interleaves with changes the ring as the object's method does, frees the lock, and adds exactly its call, effect and answer to the history: accepted with room, no space and one overrun without |
| `RingBuffer.UninterruptedComplete` | kernel/ringbuffer.c:150-192 | the same for complete: the oldest length and age, or no data and an unchanged ring when it is empty |
| `RingBuffer.DescriptorRing.constructor` | kernel/ringbuffer.c:36-70 | a new ring of the given size is empty with all counters zero |
| `RingBuffer.DescriptorRing.Count` | kernel/ringbuffer.c:92-95 | the number of live entries |
| `RingBuffer.DescriptorRing.Space` | kernel/ringbuffer.c:100-103 | space plus live entries is the ring size |
| `RingBuffer.DescriptorRing.Submit` | kernel/ringbuffer.c:108-145 | appends the stamped request to the contents exactly when there is room, otherwise counts an overrun and changes nothing else |
| `RingBuffer.DescriptorRing.Complete` | kernel/ringbuffer.c:150-192 | removes the oldest entry and returns its length and age, or reports no data on an empty ring and changes nothing |
| `Averages.KernelExactIff` | kernel/dma.c:80-81 | all reported kernel averages equal the single floor of the weighted sum over 2^n exactly when no addition wraps |
| `Averages.LinuxExactIff` | sim/linux_sim.c:203-209 | the same for the average seeded by the first sample |
| `Averages.ClosedForms` | sim/linux_sim.c:203-209 | for latencies below 2^63 both averages are the floor of one fraction |
| `Averages.LinuxLeadsKernel` | kernel/dma.c:81 | on the same history the Linux average exceeds the kernel's by floor(x1 / 2^n) or one more |
| `Averages.KernelAndLinuxConverge` | kernel/dma.c:81 | once 2^n exceeds the first latency the two differ by at most 1 ns, and stay in that regime |
| `Averages.WindowsExactIff` | sim/windows_sim.c:270-277 | all reported Windows means are those of unlimited integers exactly when no numerator reaches 2^64 |
| `Averages.SmallTotalNeverWraps` | sim/windows_sim.c:270-277 | avg * (n-1) + x never exceeds the latency total, so nothing wraps while that fits in 64 bits |
| `Averages.WindowsAverage` | sim/windows_sim.c:270-277 | while nothing wraps, the mean is never overstated and its total shortfall is at most n(n-1)/2 |
| `Averages.ShortfallIsAttained` | sim/windows_sim.c:270-277 | on the samples 0, 1, ..., n-1 the reported mean is 0, so the bound is attained for every n |
| `Averages.AveragesBetweenExtremes` | sim/linux_sim.c:203-214 | min <= avg <= max for Linux and Windows after every transfer, while nothing wraps |
| `Averages.LinuxOrderedIff` | sim/linux_sim.c:203-214 | all Linux reports so far have min <= avg exactly when every sum a + x fitted in 64 bits or was at least 2^64 + 2 min |
| `Averages.WindowsOrderedIff` | sim/windows_sim.c:265-277 | all Windows reports so far have min <= avg exactly when every 64-bit numerator, wrapped or not, was at least n min |
| `Averages.AveragesBelowMaximum` | kernel/dma.c:73-81 | on every history, wrapped or not, none of the three averages exceeds the maximum |
| `Averages.KernelCanUndercutMinimum` | kernel/dma.c:80-81 | after any single positive latency the kernel average is below the minimum |
| `Averages.KernelReachesMinimumIff` | kernel/dma.c:73-81 | while nothing wraps, the kernel average is at least the minimum exactly when the sum of 2^(i-1) x_i is at least 2^n times the minimum |
| `Averages.KernelReportReachesMinimumIff` | kernel/dma.c:73-81 | on every history a kernel report is at least the minimum exactly when its sum is at least twice the minimum, above 2^64 if it wrapped |
| `Averages.KernelStaysAboveMinimum` | kernel/dma.c:73-81 | once the kernel average is at least the minimum, every further transfer whose sum does not wrap keeps it so |
| `Averages.KernelNearsMinimum` | kernel/dma.c:73-81 | once 2^n exceeds the first latency, and nothing wraps, the kernel average is at most 1 ns below the minimum |
| `Averages.OrderKeepsExtremes` | sim/windows_sim.c:265-268 | count, total, minimum and maximum depend only on the multiset of latencies |
| `Averages.OrderMovesMean` | sim/windows_sim.c:270-277 | two arrival orders of the same latencies give Windows means at most (n-1)/2 apart |
| `Averages.AveragesDependOnOrder` | kernel/dma.c:80-81 | each of the three averages differs for some two orders of the same latencies |
| `Averages.SwapMovesHalving` | sim/linux_sim.c:208-209 | on every history, swapping the last two latencies x <= y moves both halving averages by (y - x) / 4, rounded down or up, while neither sum wraps |
| `Averages.LargeLatenciesWrap` | sim/linux_sim.c:208-209 | two latencies of 2^63 ns wrap and the average falls below the minimum |
| `Averages.SentinelMinForgets` | kernel/dma.c:73-75 | the kernel minimum is that of the samples since the last zero latency, or 0 |
| `Averages.SentinelMinIsExactIff` | kernel/dma.c:73-75 | it is the true minimum exactly when no latency was zero or the last one was |
| `Backends.BackendsAgree` | sim/windows_sim.c:333-334 | on positive latencies the three backends report the same transfers, bytes, minimum and maximum despite their sentinels |
| `Backends.InterleavingsAgree` | sim/linux_sim.c:197-215 | every interleaving of the same completed transfers reports the same transfers, bytes, minimum and maximum |
| `Backends.LinuxDevice.Open` | sim/linux_sim.c:134-143 | the first open clears the statistics, later ones keep them |
| `Backends.LinuxDevice.Transfer` | sim/linux_sim.c:165-221 | a transfer with a buffer and a size adds one sample to what the statistics summarise; any other is refused and changes nothing |
| `Backends.LinuxDevice.ResetStats` | sim/linux_sim.c:243-254 | the statistics summarise the empty log |
| `Backends.WindowsDevice.Open` | sim/windows_sim.c:172-188 | an active device is refused, a failed allocation leaves it free, and otherwise it becomes active with its statistics kept |
| `Backends.WindowsDevice.Transfer` | sim/windows_sim.c:217-284 | refuses bad sizes, closed devices and lock timeouts in that order; otherwise adds one sample to what the statistics summarise |
| `Backends.WindowsDevice.ResetStats` | sim/windows_sim.c:314-338 | empties the log, with the minimum back at UINT64_MAX, unless the device is closed or its lock times out |
| `Backends.ValidateRequest` | kernel/dma.c:37-59 | accepts exactly requests with a buffer, 1 to 1048576 bytes and direction 0 or 1 |
| `Backends.KernelDevice.UpdateTransferStats` | kernel/dma.c:64-87 | records one success or one failure in what the statistics summarise |
| `Backends.KernelDevice.DmaTransfer` | kernel/dma.c:113-188 | which error each failing step gives, and that every call is recorded exactly once |
| `Backends.KernelDevice.CharIoctl` | kernel/chardev.c:63-117 | the result of every command, what it hands back (the latency of a transfer, the statistics block), which commands call the DMA routine, and that only a reset forgets its calls |
| `Backends.CallsAreCounted` | kernel/chardev.c:78-115 | transfers + errors = calls of the DMA routine since the last reset, and transfers <= bytes <= 2^20 transfers |
| `Backends.AverageSizeIsLegal` | kernel/procfs.c:66-68 | the reported average transfer size is in 1..1048576 |
| `Backends.JitterIsNatural` | kernel/procfs.c:87-91 | the minimum never exceeds the maximum, so max - min does not underflow |
| `ClaimProtocol.StepKeepsInv` | sim/windows_sim.c:170-213 | every step inside open and close keeps the claim invariant |
| `ClaimProtocol.RollbackKeepsInv` | sim/windows_sim.c:184-188 | clearing the flag without the lock after a failed allocation removes only the thread's own claim |
| `ClaimProtocol.OneClaimPerDevice` | sim/windows_sim.c:161-214 | in every interleaving each device has at most one outstanding claim and `active` is set exactly when there is one |
| `ClaimProtocol.OpenAnswersTruly` | sim/windows_sim.c:161-195 | in every interleaving an open answers a parameter error exactly for an id outside 0..7, a device error exactly when the flag was set when it looked under the lock, a memory error exactly when its allocation failed, and a handle otherwise |
| `ClaimProtocol.ClearIsRightIff` | sim/windows_sim.c:208-210 | clearing the flag in close is right exactly when the device's one claim is the closed handle's own |
| `ClaimProtocol.DoubleCloseLosesClaim` | sim/windows_sim.c:198-214 | a run in which two threads close one handle while a third claims the device ends with the device claimed and its flag clear |
| `ClaimProtocol.FreeDeviceOpens` | sim/windows_sim.c:161-195 | an undisturbed open of an inactive device succeeds and leaves a live handle of that device, which is now active |
| `ClaimProtocol.BusyDeviceRefuses` | sim/windows_sim.c:173-176 | an undisturbed open of an active device ends after three steps with the device error and leaves everything else as it was |
| `ClaimProtocol.FailedOpenRollsBack` | sim/windows_sim.c:184-188 | an undisturbed open without memory ends with the memory error and leaves everything else as it was |
| `ClaimProtocol.BadIdIsRefused` | sim/windows_sim.c:163-164 | an open is refused at once, with the parameter error and no other effect, exactly for ids outside 0..7 |
| `ClaimProtocol.CloseFrees` | sim/windows_sim.c:208-213 | an undisturbed close clears the device's flag, frees the handle, and leaves the other devices, handles and threads as they were |
| `DeviceOwner.ClosingKeepsInv` | lib/device.hpp:86-103 | the close issued by a destructor or a move assignment is always one the protocol allows |
| `DeviceOwner.ApplyKeepsInv` | lib/device.hpp:79-108 | construction, moves, destruction and every interleaved protocol step keep the ownership invariant |
| `DeviceOwner.MoveConstructMoves` | lib/device.hpp:95-97 | the new Device has the source's handle, the source is empty, every other Device is unchanged and nothing is closed |
| `DeviceOwner.MoveAssignMoves` | lib/device.hpp:99-108 | from its call to its finish, whatever other threads do in between, a move assignment to a Device with a handle frees that handle, gives it the source's, empties the source and touches no other Device |
| `DeviceOwner.MoveAssignToEmpty` | lib/device.hpp:99-108 | a move assignment to an empty Device moves the handle at once and closes nothing |
| `DeviceOwner.SelfAssignmentKeeps` | lib/device.hpp:100 | assigning a Device to itself changes nothing |
| `DeviceOwner.MoveAssignCompletes` | lib/device.hpp:99-108 | undisturbed, four steps and the finish complete a move assignment: the handle has moved and exactly the old one is gone |
| `DeviceOwner.DestroyRemoves` | lib/device.hpp:86-90 | from its call to its finish, whatever other threads do in between, a destruction frees the handle and removes that Device alone |
| `DeviceOwner.DestroyEmpty` | lib/device.hpp:86-90 | destroying an empty Device removes it at once and closes nothing |
| `DeviceOwner.ConstructGives` | lib/device.hpp:79-84 | from its call to its finish, whatever other threads do in between, a construction gives a Device holding the live handle open returned, or none when open failed, and touches no other Device |
| `DeviceOwner.OwnershipIsExclusive` | lib/device.hpp:79-108 | in every run no handle is closed twice or misused, and no two Devices share one |
| `DeviceOwner.NothingLeaks` | lib/device.hpp:86-90 | when all Devices are gone and all threads have returned, every handle ever opened was closed exactly once, no device is active and the lock is free |
| `DeviceOwner.EveryDeviceReopens` | lib/device.hpp:79-90 | after any run that ends with all Devices gone and all threads back, constructing a Device for any device id on any thread gives one that holds a live handle of that device |
| `DeviceTable.Devices.Open` | sim/windows_sim.c:161-195 | the result for every id, flag and allocation outcome, and the table afterwards |
| `DeviceTable.Devices.Close` | sim/windows_sim.c:198-214 | closing a handle frees its device and nothing else |
| `DeviceTable.Devices.OpenAll` | lib/device.hpp:167-179 | opens devices 0, 1, ... up to the first that refuses, and stops for no other reason |
| `Resources.ReleasedExactlyOnce` | kernel/driver.c:43-236 | in a legal trace each acquisition is still live or was released exactly once |
| `Resources.ReleasedAfterDependents` | kernel/driver.c:43-236 | nothing is released while something live needs it |
| `Resources.LiveIsSupported` | kernel/driver.c:43-236 | whatever is live has everything it needs |
| `DriverLifecycle.DriverModule.CharInit` | kernel/chardev.c:131-164 | both the character device and its file are acquired, or neither, the latter exactly when one of the two is refused |
| `DriverLifecycle.DriverModule.CharCleanup` | kernel/chardev.c:169-186 | releases both, and is only reached when the file was really created |
| `DriverLifecycle.DriverModule.ProcInit` | kernel/procfs.c:127-156 | both proc entries are created, or neither, the latter exactly when one of the two is refused |
| `DriverLifecycle.DriverModule.ProcCleanup` | kernel/procfs.c:161-181 | removes the statistics file and then its directory |
| `DriverLifecycle.DriverModule.Probe` | kernel/driver.c:43-92 | a probe succeeds exactly for a device in range none of whose requests is refused; a failed one leaves tables and resources as they were; a successful one leaves all entries live and the table set |
| `DriverLifecycle.DriverModule.Remove` | kernel/driver.c:97-112 | releases exactly the device's entries and clears the table |
| `DriverLifecycle.DriverModule.CreatePlatformDevices` | kernel/driver.c:126-155 | for any number of devices either all are registered or none is, the latter exactly when a platform device or its registration was refused, with tables and live resources in agreement |
| `DriverLifecycle.DriverModule.DestroyPlatformDevices` | kernel/driver.c:160-170 | no platform device is left, with tables and live resources in agreement |
| `DriverLifecycle.DriverModule.Init` | kernel/driver.c:175-221 | the trace is extended by a legal one that follows the failure pattern; loading succeeds exactly when no region, class, driver, platform device or registration was refused in it; then devices[i] is set exactly when none of device i's entries was refused, so all are when nothing was; failure ends with nothing live and all releases matched |
| `DriverLifecycle.DriverModule.Exit` | kernel/driver.c:226-236 | extends the trace, asks the kernel for nothing, and ends with nothing live and every acquisition released exactly once |
| `Registers.RegistersAreIndependent` | kernel/mmio.c:163-214 | over every run of stores, transfers and restarts each register is determined by the operations on it alone |
| `Registers.PendingIffInterrupt` | kernel/mmio.c:187-198 | over every run, restarts included, a non-zero interrupt status means pending; the converse holds exactly when the last restart did not find the flag set, or a transfer or a store to the interrupt status came since; no DMA is ever marked active |
| `Registers.StatusShowsPending` | kernel/mmio.c:135-143 | over every run, restarts included, REG_STATUS shows a pending interrupt exactly when the interrupt status is non-zero or the flag is left over from before a restart, whatever was stored there, and never shows a running DMA |
| `Registers.BitIffOutstanding` | kernel/mmio.c:219-257 | each interrupt bit is set exactly when its event occurred since it was last cleared or BAR0 was last set up |
| `Registers.PlainReadBack` | kernel/mmio.c:123-214 | plain registers read back the last value stored since BAR0 was set up, or their initial value |
| `Registers.ControlReadBack` | kernel/mmio.c:174-185 | the control register reads back the last store without the reset bit, which never reads as set |
| `Registers.InjectionFollowsStores` | kernel/mmio.c:200-210 | over every run, restarts included, error injection is on exactly when the last byte ever stored to its register is non-zero, and then the rate is that byte |
| `Registers.InjectionFollowsRegister` | kernel/mmio.c:200-210 | the injection register shows whether errors are injected exactly when injection was not on at the last restart or was stored to since; a non-zero byte in it is always the rate in force |
| `Registers.RestartKeepsPending` | kernel/mmio.c:76-118 | a transfer followed by a restart leaves an interrupt pending with a zero interrupt status |
| `Registers.RestartKeepsInjecting` | kernel/mmio.c:76-118 | storing 5 to the injection register followed by a restart leaves errors injected with a zero register |
| `Registers.StatusLatchesErrors` | kernel/mmio.c:228-236 | the error bit stays set from a failed transfer until software stores to the register or BAR0 is set up again |
| `Registers.StatusKeepsOtherBits` | kernel/mmio.c:135-143 | over every run all status bits but busy, error and pending, the ready bit among them, read back as stored last: transfers leave them alone |
| `Registers.FreshDeviceReads` | kernel/mmio.c:86-93 | what a fresh device answers at every word but the performance registers |
| `Performance.LatencyFollowsCalls` | kernel/mmio.c:145-148 | after any register operations and any calls of the DMA routine, word 12 reads the average latency in microseconds, one floor of the weighted latencies while no sum wraps, cut to 32 bits, whatever was stored there |
| `Performance.CountFollowsCalls` | kernel/mmio.c:149-152 | word 13 likewise reads the number of calls that did not fail |
| `Performance.TransferStoresBoth` | kernel/mmio.c:246-256 | a successful transfer also stores its latency in microseconds and the count in words 12 and 13; a failed one leaves them alone |
| `Bar0.StoreIsWordUpdate` | kernel/mmio.c:213 | a little-endian store to the bytes changes its own register to the stored value and no other |
| `Bar0.LowByteFirst` | kernel/mmio.c:213 | words are stored with their low byte first |
| `Bar0.RegisterFile.Init` | kernel/mmio.c:76-100 | the initial register values with the flags kept as they were, or no BAR when allocation fails |
| `Bar0.RegisterFile.Restart` | kernel/mmio.c:76-118 | cleaning up and setting up again acts on the bytes and flags as the map's restart |
| `Bar0.RegisterFile.Read32` | kernel/mmio.c:123-158 | the byte array answers aligned reads as the register map does, and all ones without a BAR or beyond it |
| `Bar0.RegisterFile.Write32` | kernel/mmio.c:163-214 | the byte array takes aligned writes as the register map does, and ignores them without a BAR or beyond it |
| `Bar0.RegisterFile.UpdateDma` | kernel/mmio.c:219-260 | the byte array takes DMA updates as the register map does |
| `CommandLine.StoiOfDigits` | utils/options.hpp:71-77 | the model of std::stoi reads back every non-negative int written in decimal |
| `CommandLine.StoiReads` | utils/options.hpp:71-77 | white space, a sign and digits are read as a number whatever follows, and a number that is no 32-bit int throws |
| `CommandLine.StoiThrows` | utils/options.hpp:71-77 | any other string throws |
| `CommandLine.AddedOptionParses` | utils/options.hpp:44-49 | after an option is added its long form sets it exactly when its validator passes, and is rejected or throws otherwise; other options keep their values and stay vetted, and a default that passes is vetted |
| `CommandLine.AddedAliasParses` | utils/options.hpp:51-53 | after an alias is added, a command line starting with it means what the one starting with the long form means, whatever follows, and the tables stay well formed |
| `CommandLine.ProgramOptions.Parse` | utils/options.cpp:16-97 | the loop accepts, rejects or throws, and leaves values, as the recursive meaning of the argument list says |
| `CommandLine.ParsingFollowsTokens` | utils/options.cpp:19-86 | an argument list passes exactly when every token names an option or is a value, after such a token, that its validator passes; otherwise the first token that is not decides between rejection and an exception |
| `CommandLine.ParsedIff` | utils/options.cpp:16-97 | the parser accepts exactly those lists on which every required option also has a value, and throws exactly when that first token throws |
| `CommandLine.UnknownTokenIsFatal` | utils/options.cpp:22-60 | a list with a help request or a dashed token that names no option is never accepted |
| `CommandLine.LastUseCounts` | utils/options.cpp:36-81 | after an accepted parse every option has the value its last use gave, "true" for a use without one, or the value it had before |
| `CommandLine.DanglingAliasParses` | utils/options.cpp:62-81 | an alias of an option that is not in the table is accepted; with a value it creates that option |
| `CommandLine.AliasesAreTransparent` | utils/options.cpp:53-81 | replacing every known short form by its long form changes neither outcome nor values, on every argument list |
| `CommandLine.RenderedSettingsParseBack` | utils/options.cpp:19-86 | accepted settings written out as arguments parse back to the defaults overridden by them |
| `CommandLine.OverrideMeans` | utils/options.cpp:48 | the last of several settings of an option counts, and other options keep their values |
| `CommandLine.ParsingVets` | utils/options.cpp:36-52 | after an accepted parse every value passed its validator or was left by an option without a value |
| `CommandLine.TrueIffLastUseBare` | utils/options.cpp:36-81 | on every accepted argument list an int option ends as "true" exactly when the last token naming it is the last token or is followed by a dashed one |
| `TestConfig.NamesParseBack` | utils/config.c:192-265 | names of patterns and scenarios parse back to what they name |
| `TestConfig.OnlyNamesParse` | utils/config.c:192-235 | every other string is taken for the mixed pattern and for no errors |
| `TestConfig.AcceptedIsSane` | utils/options.cpp:195-270 | every accepted command line leaves each int option in range, or unreadable exactly when the last token naming it came without a value |
| `TestConfig.AcceptedNames` | utils/options.cpp:201-255 | every accepted command line leaves one of the four pattern names and one of the four scenario names, or "true" for an option without a value |
| `TestConfig.AcceptedConfigIsValid` | utils/options.cpp:146-193 | every accepted command line that lowers without throwing gives a valid configuration with 1 <= burst_count <= rate_hz and a stress delay in 100..1000000 microseconds |
| `TestConfig.ConfigFlags` | utils/options.cpp:165-190 | for every accepted command line that lowers: errors exactly for the three error scenarios, stress exactly for more than one thread, logging exactly for a non-empty CSV name, which is kept up to 255 characters; verbose always |
| `TestConfig.LoweringThrowsIff` | utils/options.cpp:150-177 | the lowering of an accepted command line throws exactly when it consults an int option whose last use came without a value |
| `TestConfig.AcceptedCanThrow` | utils/options.cpp:170-171 | the command line --threads is accepted and its lowering throws |
| `TestConfig.SettingsReachConfig` | utils/options.cpp:146-193 | settings within limits, written as a command line, come out of parsing and lowering as exactly the configuration they ask for: devices, transfer, errors, stress, CSV file and all flags |
| `TestConfig.ShortSettingsReachConfig` | utils/options.cpp:195-270 | the same for the short forms -d, -p, -s, -r, -e, -t, -dur and -l |
| `TestConfig.NoArgumentsGiveDefaults` | utils/options.cpp:146-193 | without arguments the configuration is the default one, with the verbose flag set |
| `TestConfig.DelayIsBounded` | examples/cpp_test.cpp:237-239 | the stress delay divides by no zero, is in 100..1000000 microseconds, and is the floor of 1000000 over the bursts per second |
| `TestConfig.SettersKeepValid` | utils/config.c:43-150 | after any sequence of pattern, custom-pattern and scenario setters on a fresh configuration, with any arguments, it validates, can be paced, has the last scenario with the error flag to match, and is otherwise untouched |
| `TestConfig.TransferIsPaced` | utils/config.c:68-112 | from sane values, setting the pattern gives sizes within limits and 1 <= burst_count <= rate_hz, and changes the transfer settings alone |
| `TestConfig.Configuration.ApplyCustomPattern` | utils/config.c:98-112 | sets a fixed size and rate exactly when both are in range, and otherwise changes nothing |
| `TestConfig.Configuration.Validate` | utils/config.c:155-187 | accepts exactly the configurations within all limits |
| `TestConfig.Lower` | utils/options.cpp:146-193 | filling the configuration step by step gives the configuration of the values, and throws exactly when that is undefined |
| `TestConfig.CreateOtpuOptions` | utils/options.cpp:195-270 | the registrations build exactly the options, aliases and default values the results are about |

## Left out

- Clocks, sleeps, jitter and random numbers: time is a monotone input and latencies are arbitrary 64-bit values.
- The 64-bit transfer, byte, error, submission, completion and overrun counters do not wrap in the model; latencies, averages and timestamps do use 64-bit arithmetic.
- The five field writes that fill a ring descriptor are one step, and the descriptor's reserved field is dropped: descriptors are only accessed under the lock.
- The debug print of the ring after unlocking, and null out-pointers of complete, which only discard a result.
- Setting up and releasing the TX and RX rings of a device: a two-step rollback like those of the driver.
- Kernel and Windows internals: allocation, locking, user copies, cdev, class and proc calls only succeed or fail.
- The first-call race of the Windows initialisation and its exit-time cleanup: the subsystem is taken as initialised, and freed handles are never dereferenced.
- Handles in the claim protocol are numbered and never reused, where malloc may return the same address again.
- In the driver lifecycle the per-device structure is a value: that drvdata and the device table point to the same memory is not modelled.
- Register accesses while there is no BAR are not operations of the runs: without one, writes and updates change nothing.
- Unaligned register accesses: readl and writel are given 4-byte aligned offsets.
- Registers without behaviour, and the description texts of options and the help output.
- Floating-point throughput and error-rate displays; error probabilities are real numbers.
- The CSV logger, the monitor, the dispatch wrappers of the library and the example programs other than the stress pacing.
