# The delta engine of ilogtail's `system_v2` input

`InputSystem` (plugins/input/systemv2/input_system_v2.go) is ilogtail's host
metrics sampler. On every cycle it reads cumulative counters: CPU times, disk
I/O counters, network interface counters and TCP protocol counters. It
compares each with the snapshot it stored on the previous cycle:
- disk and interface rates are counter deltas divided by the seconds between
  the two snapshots;
- disk latencies are time deltas divided by operation deltas;
- interface drop and error ratios are percentages of the packet delta;
- CPU utilisations are bucket deltas in percent of the total-time delta;
- TCP metrics are the raw counter deltas.

It also emits the point metrics: load, boot time, memory and `cpu_count`.
Then it stores the new snapshot as the next baseline.

This project models that engine in Dafny and proves what it promises:

- The class `SystemV2.InputSystem` keeps the `last*` baseline fields that the
  Go object updates in place. Its methods `CommonInit`, `Collect`,
  `CollectCore`, `CollectCPU`, `CollectDisk`, `CollectNet` and
  `CollectProtocol` are imperative methods. The loops of the source (label
  appending, summing, per-device emitting) are `while` loops. Each method is
  proved against a specification function of the old baseline and the
  cycle's inputs.
- Metrics are values `Metric(name, labels, time, value)`. A cycle's output is
  the sequence of metrics in emission order.
- Go's numeric behaviour is written out:
  - disk and network counters are `uint64`, and their subtractions and sums
    wrap modulo 2^64;
  - TCP counters are `int64`;
  - the core count is an `int32` sum;
  - float division by zero gives `+Inf`, `-Inf` or `NaN`;
  - Go's zero `time.Time` is `None`.
- Go's map iteration order is an explicit enumeration of the keys. The totals
  are proved independent of that order.

Files:

| file | module | contents |
|---|---|---|
| machine.dfy | `Machine` | Go integer widths, wrap-around, float quotient |
| labels.dfy | `Labels` | label lists, the sort by key, per-device label sets |
| counters.dfy | `Counters` | counter records, the disk and network totals |
| formulas.dfy | `Formulas` | the per-device, CPU, memory and TCP metric formulas |
| engine.dfy | `Engine` | baselines, per-family cycle functions, emitting loops |
| input_system.dfy | `SystemV2` | configuration, cycle input, the `InputSystem` class |
| properties.dfy | `Properties` | properties of single formulas and single collectors |
| cycles.dfy | `Cycles` | properties of whole cycles and runs of cycles |

In places the code behaves differently from what a reader might expect. The
model follows the code:

- A disk or network counter that goes backwards (a reset) does not give a
  negative rate. The uint64 subtraction wraps, so the rate is huge and
  positive (`Properties.RateAfterWrap`, `Properties.DiskRateAfterCounterReset`).
- The code has no guard against a zero elapsed time between two disk or
  network snapshots. A zero interval gives `+Inf` or `NaN` rates
  (`Formulas.Rate`).
- A collector that is switched off never touches its baseline. Re-enabling it
  compares against the stale snapshot it stored before
  (`Cycles.DisabledCollectorsKeepBaselines`).
- CPU steal time is counted in the total but not in the busy time
  (`Properties.CpuSharesCoverTotal`).
- The boot-time line reads the cached host information without a nil check.
  When the host information was never obtained, the Go program would panic
  there. The model ends the cycle at that point instead: `Collect` reports
  `completed == false`, emits only the load averages and changes no baseline
  (`Cycles.AbortedCycle`).
- The disk baseline is replaced after every successful query, even when the
  map is empty. The network and protocol baselines are replaced only when
  the list is non-empty (`Engine.DiskNext`, `Engine.NetNext`,
  `Cycles.NextProtocolCycleUsesSnapshot`).

## Model

| member | source | states |
|---|---|---|
| Machine.SubU64 | plugins/input/systemv2/input_system_v2.go:211-214 | uint64 subtraction: the plain difference when no wrap occurs, 2^64 minus the shortfall otherwise, and zero exactly when the two counters are equal |
| Machine.AddU64 | plugins/input/systemv2/input_system_v2.go:237-246 | uint64 addition: the plain sum below 2^64, the sum minus 2^64 otherwise |
| Machine.WrapI64 | plugins/input/systemv2/input_system_v2.go:349-351 | int64 wrap: identity inside the int64 range, and always congruent to the input modulo 2^64 |
| Machine.WrapI32 | plugins/input/systemv2/input_system_v2.go:142-145 | int32 wrap: identity inside the int32 range, and always congruent to the input modulo 2^32 |
| Machine.AddU64OfReduced | plugins/input/systemv2/input_system_v2.go:237-246 | adding to a running sum already reduced mod 2^64 equals reducing the whole sum, so wrapping at every step matches wrapping once |
| Machine.Quotient | plugins/input/systemv2/input_system_v2.go:211-226 | float division: finite exactly when the divisor is non-zero; NaN for 0/0, +Inf for positive/0, -Inf for negative/0 |
| Machine.QuotientTimesDivisor | plugins/input/systemv2/input_system_v2.go:211-226 | a finite quotient times its divisor gives back the dividend |
| Labels.KeyLeTotal | plugins/input/systemv2/input_system_v2.go:108 | the key order the labels are sorted by is total |
| Labels.KeyLeTransitive | plugins/input/systemv2/input_system_v2.go:108 | the key order is transitive |
| Labels.Insert | plugins/input/systemv2/input_system_v2.go:108 | inserting one label adds exactly one element |
| Labels.InsertAdds | plugins/input/systemv2/input_system_v2.go:108 | insertion keeps every label and adds the new one (multiset) |
| Labels.InsertKeepsSorted | plugins/input/systemv2/input_system_v2.go:108 | insertion into a list sorted by key gives a list sorted by key |
| Labels.SortLabels | plugins/input/systemv2/input_system_v2.go:108 | sorting keeps the number of labels |
| Labels.SortLabelsSorts | plugins/input/systemv2/input_system_v2.go:108 | the sorted labels are ordered by key and are a permutation of the input |
| Labels.DeviceLabels | plugins/input/systemv2/input_system_v2.go:207-210 | a device's label set has one label more than the common labels |
| Labels.DeviceLabelsSortedAndComplete | plugins/input/systemv2/input_system_v2.go:207-210 | a device's label set is sorted by key and holds exactly the common labels plus the one `disk` or `interface` pair |
| Labels.DeviceLabelsInjective | plugins/input/systemv2/input_system_v2.go:207-210 | two different devices never get the same label set, so their series never collide |
| Counters.DiskSumRemove | plugins/input/systemv2/input_system_v2.go:237-247 | a field's sum over a key set is one disk's field plus the sum over the remaining keys |
| Counters.DiskTotalInField | plugins/input/systemv2/input_system_v2.go:237-247 | the total built in a given key order holds, in each field, the mathematical sum over the visited keys mod 2^64 |
| Counters.DiskTotalIsFieldwiseSum | plugins/input/systemv2/input_system_v2.go:237-247 | the disk total does not depend on the order the map is iterated in |
| Counters.SumDisks | plugins/input/systemv2/input_system_v2.go:236-247 | the summing loop over the disk map computes the order-independent total |
| Counters.NetTotalIsFieldwiseSum | plugins/input/systemv2/input_system_v2.go:300-312 | each field of the interface total is the mathematical sum over all interfaces mod 2^64, under the empty name |
| Counters.SumNets | plugins/input/systemv2/input_system_v2.go:300-312 | the summing loop over the interface list computes that total |
| Formulas.Tag | plugins/input/systemv2/input_system_v2.go:113-119 | attaching labels and time keeps every sample's name and value in order |
| Formulas.TagHasValue | plugins/input/systemv2/input_system_v2.go:113-119 | a sample present before tagging is emitted with its value |
| Formulas.TagHas | plugins/input/systemv2/input_system_v2.go:113-119 | a metric name is emitted exactly when some sample carries it |
| Formulas.ElapsedSeconds | plugins/input/systemv2/input_system_v2.go:252 | the interval in seconds times 10^9 is the difference of the two clock readings in nanoseconds |
| Formulas.Rate | plugins/input/systemv2/input_system_v2.go:211-214 | a rate is finite when the interval is non-zero; over a zero interval it is NaN for a zero delta and +Inf otherwise |
| Formulas.Latency | plugins/input/systemv2/input_system_v2.go:215-224 | a latency is NaN exactly when no operation completed |
| Formulas.DiskSamples | plugins/input/systemv2/input_system_v2.go:206-228 | a disk yields seven samples, the `total` device six (no `disk_util`) |
| Formulas.DiskMetrics | plugins/input/systemv2/input_system_v2.go:206-228 | the same counts, all carrying the device's label set and the cycle time |
| Formulas.Percent | plugins/input/systemv2/input_system_v2.go:288-289 | a ratio over a non-zero packet delta is finite |
| Formulas.NetSamples | plugins/input/systemv2/input_system_v2.go:268-294 | an interface yields six samples when packets moved and four otherwise |
| Formulas.NetMetrics | plugins/input/systemv2/input_system_v2.go:268-294 | the same counts, all carrying the interface's label set and the cycle time |
| Formulas.RetranUtil | plugins/input/systemv2/input_system_v2.go:356-360 | the retransmission ratio is always finite, and zero when no segment went out |
| Formulas.TcpSamples | plugins/input/systemv2/input_system_v2.go:353-360 | a TCP pair yields four samples |
| Formulas.TcpMetrics | plugins/input/systemv2/input_system_v2.go:353-360 | four metrics, all with the common labels, all finite |
| Formulas.ShareFactor | plugins/input/systemv2/input_system_v2.go:153-165 | the factor is 1 when the request is unset, malformed or non-positive, or there are no cores |
| Formulas.CpuSamples | plugins/input/systemv2/input_system_v2.go:169-178 | the utilisation yields ten samples |
| Formulas.CpuUtilMetrics | plugins/input/systemv2/input_system_v2.go:169-178 | ten metrics, all with the common labels, all finite |
| Formulas.CountCores | plugins/input/systemv2/input_system_v2.go:142-145 | the core-counting loop computes the int32-wrapped sum of the per-socket cores |
| Formulas.MemSamples | plugins/input/systemv2/input_system_v2.go:188-204 | six memory samples when virtual memory was read, plus one when swap was read |
| Formulas.MemMetrics | plugins/input/systemv2/input_system_v2.go:188-204 | the same counts, all with the common labels |
| Formulas.LoadMetrics | plugins/input/systemv2/input_system_v2.go:129-134 | three load metrics when the load was read, none otherwise, all with the common labels |
| Engine.CoreCycleMetrics | plugins/input/systemv2/input_system_v2.go:121-136 | the output starts with the load metrics and ends with the boot time of the cached host information when there is one; nothing else is emitted |
| Engine.CpuNext | plugins/input/systemv2/input_system_v2.go:147-184 | a successful CPU query stores its time and first sample, a failed one keeps the baseline; busy and total stay those of the stored sample |
| Engine.CpuCycleMetrics | plugins/input/systemv2/input_system_v2.go:141-179 | `cpu_count` comes first; the ten utilisation metrics of the current sample against the stored baseline follow exactly when percent is on, a baseline exists and the total time grew |
| Engine.DiskNext | plugins/input/systemv2/input_system_v2.go:235-264 | a successful disk query stores its time and map (and their consistent total), a failed one keeps the baseline |
| Engine.EmitMatchedDisks | plugins/input/systemv2/input_system_v2.go:254-259 | the emitting loop over the current map emits, in map order, the metrics of every disk the stored map also holds |
| Engine.EmitDiskCycle | plugins/input/systemv2/input_system_v2.go:249-260 | with a baseline: the `total` device against the stored total, then the matched disks; without one: nothing |
| Engine.NetNext | plugins/input/systemv2/input_system_v2.go:298-329 | a successful non-empty interface query stores its time and list, otherwise the baseline is kept; the stored total stays the total of the stored list |
| Engine.EmitMatchedNets | plugins/input/systemv2/input_system_v2.go:319-325 | the index loop emits an interface exactly where the names at the same index agree |
| Engine.EmitNetCycle | plugins/input/systemv2/input_system_v2.go:315-326 | with a baseline: the `total` interface, then the aligned interfaces when the lists have equal length |
| Engine.EmitMatchedTcp | plugins/input/systemv2/input_system_v2.go:342-363 | the loop emits the TCP metrics at every index holding `tcp` in both lists |
| SystemV2.StaticLabels | plugins/input/systemv2/input_system_v2.go:105-107 | one label per configured key, in iteration order, carrying that key's value |
| SystemV2.InputSystem.constructor | plugins/input/systemv2/input_system_v2.go:42-79 | a new sampler holds the configuration, Go's zero baselines, no labels and a zero cycle time |
| SystemV2.InputSystem.AppendStaticLabels | plugins/input/systemv2/input_system_v2.go:105-107 | the loop appends the static labels to the ones already there |
| SystemV2.InputSystem.CommonInit | plugins/input/systemv2/input_system_v2.go:85-111 | fails, leaving the labels untouched, exactly when a configured exclusion pattern does not compile; otherwise the labels become the sorted prior labels, host name, address and static labels |
| SystemV2.InputSystem.CollectCore | plugins/input/systemv2/input_system_v2.go:121-136 | caches the first host information obtained, emits load and boot time, and reports whether host information is available |
| SystemV2.InputSystem.ShareFactorOf | plugins/input/systemv2/input_system_v2.go:153-165 | the method computes the share factor of the request |
| SystemV2.InputSystem.CollectCPU | plugins/input/systemv2/input_system_v2.go:138-186 | emits the CPU metrics of the stored baseline and stores the next CPU baseline |
| SystemV2.InputSystem.CollectDisk | plugins/input/systemv2/input_system_v2.go:230-266 | emits nothing on a failed query, else the disk cycle against the stored map; stores the next disk baseline |
| SystemV2.InputSystem.CollectNet | plugins/input/systemv2/input_system_v2.go:296-331 | emits nothing on a failed or empty query, else the interface cycle; stores the next interface baseline |
| SystemV2.InputSystem.CollectProtocol | plugins/input/systemv2/input_system_v2.go:333-368 | emits nothing on a failed or empty query, else the TCP cycle; stores the next protocol baseline |
| SystemV2.InputSystem.CpuStage | plugins/input/systemv2/input_system_v2.go:373-375 | the CPU collector runs only when switched on; otherwise it emits nothing and the CPU baseline is kept |
| SystemV2.InputSystem.DiskStage | plugins/input/systemv2/input_system_v2.go:379-381 | the disk collector runs only when switched on; otherwise it emits nothing and the disk baseline is kept |
| SystemV2.InputSystem.NetStage | plugins/input/systemv2/input_system_v2.go:382-384 | the network collector runs only when switched on; otherwise it emits nothing and the interface baseline is kept |
| SystemV2.InputSystem.ProtoStage | plugins/input/systemv2/input_system_v2.go:385-387 | the protocol collector runs only when switched on; otherwise it emits nothing and the protocol baseline is kept |
| SystemV2.InputSystem.CollectEnabled | plugins/input/systemv2/input_system_v2.go:373-387 | runs the enabled collectors in the source's order; the output is their parts concatenated, and each baseline moves by its own step only |
| SystemV2.InputSystem.Collect | plugins/input/systemv2/input_system_v2.go:370-392 | one cycle: sets the cycle time, keeps the labels and the invariant, emits the cycle's metrics, moves every baseline to its next state, and completes exactly when host information is available |
| Properties.RateOfGrowth | plugins/input/systemv2/input_system_v2.go:211-214 | a counter that grew over a positive interval gives its growth divided by the interval |
| Properties.LatencyOfGrowth | plugins/input/systemv2/input_system_v2.go:215-224 | with growing counters the latency is the time spent divided by the operations completed, or NaN when none completed |
| Properties.DiskRbpsOfGrowth | plugins/input/systemv2/input_system_v2.go:211 | `disk_rbps` is the bytes read divided by the interval |
| Properties.DiskWbpsOfGrowth | plugins/input/systemv2/input_system_v2.go:212 | `disk_wbps` is the bytes written divided by the interval |
| Properties.DiskRiopsOfGrowth | plugins/input/systemv2/input_system_v2.go:213 | `disk_riops` is the reads completed divided by the interval |
| Properties.DiskWiopsOfGrowth | plugins/input/systemv2/input_system_v2.go:214 | `disk_wiops` is the writes completed divided by the interval |
| Properties.DiskLatenciesOfGrowingCounters | plugins/input/systemv2/input_system_v2.go:215-224 | `disk_rlatency` and `disk_wlatency` are the time spent per completed read or write, NaN when none completed |
| Properties.RateAfterWrap | plugins/input/systemv2/input_system_v2.go:211-214 | a counter that went backwards gives 2^64 minus the drop, over the interval, which is positive |
| Properties.DiskRateAfterCounterReset | plugins/input/systemv2/input_system_v2.go:211 | a disk whose read-byte counter was reset reports a positive `disk_rbps` |
| Properties.UtilOfGrowth | plugins/input/systemv2/input_system_v2.go:226 | busy milliseconds become a percentage of the interval |
| Properties.DiskUtilOfGrowth | plugins/input/systemv2/input_system_v2.go:225-227 | a real disk reports `disk_util` as its io time in percent of the interval |
| Properties.DiskUtilOmittedForTotal | plugins/input/systemv2/input_system_v2.go:225 | the `total` device never reports `disk_util` |
| Properties.NetRatiosOmittedWhenIdle | plugins/input/systemv2/input_system_v2.go:287 | when no packets moved, neither `net_drop_util` nor `net_err_util` is emitted |
| Properties.NetRatioValues | plugins/input/systemv2/input_system_v2.go:287-290 | when packets moved, `net_drop_util` and `net_err_util` are 100 times the drop and error deltas over the packet delta |
| Properties.NetInOfGrowth | plugins/input/systemv2/input_system_v2.go:273 | `net_in` is the bytes received divided by the interval |
| Properties.NetOutOfGrowth | plugins/input/systemv2/input_system_v2.go:274 | `net_out` is the bytes sent divided by the interval |
| Properties.NetInPktOfGrowth | plugins/input/systemv2/input_system_v2.go:275 | `net_in_pkt` is the packets received divided by the interval |
| Properties.NetOutPktOfGrowth | plugins/input/systemv2/input_system_v2.go:276 | `net_out_pkt` is the packets sent divided by the interval |
| Properties.NetDeltasOfGrowingCounters | plugins/input/systemv2/input_system_v2.go:278-286 | with growing counters and no overflow, the packet and drop deltas are the plain sums of the in and out deltas |
| Properties.TcpRetranRule | plugins/input/systemv2/input_system_v2.go:356-360 | `protocol_tcp_retran_util` is 0 when no segment went out, else 100 times retransmitted over sent |
| Properties.TcpCounterDeltas | plugins/input/systemv2/input_system_v2.go:349-355 | the three TCP counters are emitted as their deltas |
| Properties.CpuShareScales | plugins/input/systemv2/input_system_v2.go:169-178 | a share times the total delta is 100 times the bucket delta times the share factor |
| Properties.ShareFactorScales | plugins/input/systemv2/input_system_v2.go:163 | for a valid request the factor times the requested cores gives the core count |
| Properties.CpuUtilValues | plugins/input/systemv2/input_system_v2.go:169-176 | `cpu_util`, `cpu_wait_util` and `cpu_steal_util` carry the busy, iowait and steal shares |
| Properties.CpuCycleShares | plugins/input/systemv2/input_system_v2.go:148-178 | when utilisation is emitted, the ten metrics after `cpu_count` are, in order, the busy delta against the stored busy time and each bucket's delta against the stored sample, in percent of the total delta against the stored total, times the share factor |
| Properties.SharesAdd | plugins/input/systemv2/input_system_v2.go:169-178 | shares over the same total delta add up |
| Properties.CpuBusyBucketsAddUp | plugins/input/systemv2/input_system_v2.go:148-178 | the seven busy buckets' shares add up to `cpu_util` |
| Properties.CpuSharesCoverTotal | plugins/input/systemv2/input_system_v2.go:148-178 | busy, iowait, steal and idle shares together are 100 times the share factor |
| Properties.MemUtilValue | plugins/input/systemv2/input_system_v2.go:191-192 | `mem_util` is the used percentage of virtual memory |
| Properties.MemSwapRule | plugins/input/systemv2/input_system_v2.go:200-203 | `mem_swap_util` is emitted exactly when swap was read, with its used percentage |
| Properties.CoreCountExact | plugins/input/systemv2/input_system_v2.go:142-145 | without overflow, `cpu_count` is the exact sum of the per-socket cores |
| Properties.CoreSumNonNegative | plugins/input/systemv2/input_system_v2.go:142-145 | non-negative per-socket counts sum to a non-negative count |
| Properties.DiskFirstObservation | plugins/input/systemv2/input_system_v2.go:251 | a disk cycle emits nothing exactly when there is no baseline |
| Properties.MatchedDisksSilentFor | plugins/input/systemv2/input_system_v2.go:254-255 | a disk missing from the stored or current map gets no metric from the loop |
| Properties.DiskCycleSilentForUnmatchedDisk | plugins/input/systemv2/input_system_v2.go:251-259 | a disk new in this cycle, or gone from it, gets no metric in the whole disk cycle |
| Properties.MatchedDisksEmitFor | plugins/input/systemv2/input_system_v2.go:254-258 | a disk in both maps gets all its metrics from the loop |
| Properties.DiskCycleEmitsForMatchedDisk | plugins/input/systemv2/input_system_v2.go:251-259 | with a baseline, a disk in both maps gets all its metrics over the interval since the stored snapshot |
| Properties.NetFirstObservation | plugins/input/systemv2/input_system_v2.go:315 | an interface cycle emits nothing exactly when there is no baseline |
| Properties.MatchedNetsSilentFor | plugins/input/systemv2/input_system_v2.go:320-321 | an interface whose name does not match at its index gets no metric from the loop |
| Properties.NetCycleSilentForUnalignedInterface | plugins/input/systemv2/input_system_v2.go:315-325 | when the lists differ in length or the names are not aligned, the interface gets no metric in the cycle |
| Properties.MatchedNetsEmitLast | plugins/input/systemv2/input_system_v2.go:320-322 | the last aligned interface visited gets all its metrics |
| Properties.MatchedNetsEmitAt | plugins/input/systemv2/input_system_v2.go:320-322 | every aligned interface gets all its metrics from the loop |
| Properties.NetCycleEmitsForAlignedInterface | plugins/input/systemv2/input_system_v2.go:315-325 | with a baseline and equal lengths, an interface whose name matches at its index gets all its metrics |
| Properties.MatchedTcpEmpty | plugins/input/systemv2/input_system_v2.go:342-347 | the TCP loop emits nothing exactly when no index holds `tcp` in both lists |
| Properties.ProtoCycleEmitsIff | plugins/input/systemv2/input_system_v2.go:341-347 | a protocol cycle emits exactly when a same-length baseline exists and some index holds `tcp` in both lists |
| Properties.MatchedTcpOnlyTcpNames | plugins/input/systemv2/input_system_v2.go:353-360 | the loop emits only the four TCP metrics, with the common labels, all finite |
| Properties.ProtoCycleOnlyTcp | plugins/input/systemv2/input_system_v2.go:333-368 | a protocol cycle emits only the four TCP metrics, with the common labels, all finite |
| Properties.DiskReadRateExample | plugins/input/systemv2/input_system_v2.go:211-213 | 4000 bytes read by 2 reads over 10 s give 400 B/s and 0.2 reads/s |
| Properties.DiskReadLatencyExample | plugins/input/systemv2/input_system_v2.go:215-216 | 2 reads taking 40 ms give a 20 ms latency |
| Properties.TcpExample | plugins/input/systemv2/input_system_v2.go:349-359 | OutSegs 100 to 150 and RetransSegs 2 to 5 give a 6 % retransmission ratio |
| Cycles.InitialConsistent | plugins/input/systemv2/input_system_v2.go:58-73 | a fresh sampler's stored totals are those of its empty device lists and zero CPU sample |
| Cycles.CycleKeepsConsistent | plugins/input/systemv2/input_system_v2.go:370-392 | one cycle keeps the stored totals consistent with what they were computed from |
| Cycles.AlwaysConsistent | plugins/input/systemv2/input_system_v2.go:370-392 | after any run of cycles, under any configuration, the stored totals stay consistent |
| Cycles.FirstCycleEmitsNoDeltas | plugins/input/systemv2/input_system_v2.go:168-341 | a fresh sampler's first cycle emits only the core metrics, `cpu_count` and memory |
| Cycles.NoBaselineNoCpuDelta | plugins/input/systemv2/input_system_v2.go:146-168 | without a CPU baseline, only `cpu_count` is emitted |
| Cycles.NoBaselineNoDeviceDelta | plugins/input/systemv2/input_system_v2.go:251-341 | without disk, interface or protocol baselines, nothing is emitted for them |
| Cycles.AbortedCycle | plugins/input/systemv2/input_system_v2.go:122-135 | without host information, a cycle emits only the load averages and changes no baseline |
| Cycles.DisabledCollectorsKeepBaselines | plugins/input/systemv2/input_system_v2.go:373-387 | a switched-off collector's baseline is left as it was |
| Cycles.HostInfoCached | plugins/input/systemv2/input_system_v2.go:124-126 | host information, once obtained, is kept; until then, each cycle takes what the provider returns |
| Cycles.SecondCycleDisks | plugins/input/systemv2/input_system_v2.go:249-264 | the second cycle compares the first cycle's disk total and map with its own, over the time between the two queries |
| Cycles.NextProtocolCycleUsesSnapshot | plugins/input/systemv2/input_system_v2.go:333-368 | a cycle whose protocol query returned a non-empty list stores it; the next protocol cycle emits the matched `tcp` entries against that list when the lengths agree, nothing otherwise |
| Cycles.InitLabelsSortedAndComplete | plugins/input/systemv2/input_system_v2.go:103-108 | the common labels are sorted by key and hold exactly the prior labels, host name, address and static labels |
| Cycles.StaticLabelsKept | plugins/input/systemv2/input_system_v2.go:105-108 | every static label ends up among the common labels |

## Left out

- Regex compilation of `ExcludeDiskFsType` and `ExcludeDiskPath`: the outcome is a boolean parameter of `CommonInit`, because the regex engine is not modelled.
- `CollectDiskUsage` (:231), `CollectOpenFD` (:389) and `CollectTCPStats` (:348) are defined in other files of the plugin. They are not part of this model, and their output is absent from the cycle's metrics.
- The `Disks` filter passed to the disk provider, and the providers themselves (gopsutil): their results are inputs of a cycle.
- Clocks (`time.Now`), the `SIGMA_CPU_REQUEST` environment variable, the host name and the address are parameters.
- Float rounding: real numbers stand in for float64. Only division by zero (Inf and NaN) is modelled.
- Conversion of uint64, int64 and int32 to float64 is exact in the model.
- Duration saturation of `time.Sub`: the interval is the exact difference of the clock readings.
- Serialisation of labels (`commonLabelsStr`, `KeyValues.String`, `MakeMetric`) and the collector interface: a metric is the value `Metric(name, labels, time, value)`.
- The logger, the context, `Description` and the `init` registration with its default configuration.
- The relative order of labels with equal keys after sorting: the sort helper is not part of this model. `SortLabels` is a stable insertion sort.
- The `Core` and `TCP` configuration switches, which the cycle does not consult.
- The unused `fs` field.
- Grouping: the Go object's separate `last*` fields are grouped in the model into one baseline record per resource family.
- Formulas.ShareFactor: its ensures covers only the fall-back to 1. The scaling of a valid request is stated by `Properties.ShareFactorScales`.
- Formulas.Percent: its ensures states finiteness only. The ratio's value is stated explicitly by `Properties.NetRatioValues`.
- DiskSamples and DiskMetrics: their ensures give the counts and the labels. The value of each metric is stated by `Properties.DiskRbpsOfGrowth`, `Properties.DiskWbpsOfGrowth`, `Properties.DiskRiopsOfGrowth`, `Properties.DiskWiopsOfGrowth`, `Properties.DiskLatenciesOfGrowingCounters`, `Properties.DiskUtilOfGrowth` and, for a counter that went backwards, `Properties.DiskRateAfterCounterReset`.
- NetSamples and NetMetrics: their ensures give the counts and the labels. The values are stated by `Properties.NetInOfGrowth`, `Properties.NetOutOfGrowth`, `Properties.NetInPktOfGrowth`, `Properties.NetOutPktOfGrowth` and `Properties.NetRatioValues`.
- CpuSamples and CpuUtilMetrics: their ensures give the count, the labels and finiteness. The value of every metric, as emitted by `CollectCPU`, is stated by `Properties.CpuCycleShares`.
- DeviceLabels: its ensures gives the length only. Order and content are stated by `Labels.DeviceLabelsSortedAndComplete`.
- The rate lemmas cover counters that grew. For a counter that went backwards, the wrapped value is stated by `Properties.RateAfterWrap` in general, and for `disk_rbps` by `Properties.DiskRateAfterCounterReset`.
- Labels.Insert and Labels.SortLabels: their ensures state the length only. Order and permutation are in `Labels.InsertKeepsSorted`, `Labels.InsertAdds` and `Labels.SortLabelsSorts`.
