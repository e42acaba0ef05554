/** The delta engine of one collection cycle, per resource family: given the
    baseline stored by the previous successful cycle and the fresh snapshot,
    which metrics are emitted. The baseline datatypes group the `last*` fields
    of the sampler that belong to one family. */
module Engine {
  import opened Machine
  import opened Labels
  import opened Counters
  import opened Formulas

  // ---------------------------------------------------------------- core

  /** What `CollectCore` emits: the load averages when `load.Avg()` succeeds,
      then the boot time of the cached host information. */
  function CoreCycleMetrics(info: Option<HostInfo>, load: Option<LoadAvg>, common: LabelSet, t: int): (ms: seq<Metric>)
    ensures |ms| == |LoadMetrics(load, common, t)| + (if info.Some? then 1 else 0)
    ensures ms[..|LoadMetrics(load, common, t)|] == LoadMetrics(load, common, t)
    ensures AllTagged(ms, common, t)
    ensures info.Some? ==> ms[|ms| - 1] == Metric(SystemBootTime, common, t, Num(info.value.bootTime as real))
  {
    LoadMetrics(load, common, t) +
      if info.Some? then [Metric(SystemBootTime, common, t, Num(info.value.bootTime as real))] else []
  }

  // ---------------------------------------------------------------- CPU

  /** `lastCPUTime`, `lastCPUStat`, `lastCPUBusy`, `lastCPUTotal`. */
  datatype CpuBaseline = CpuBaseline(time: Option<int>, stat: CpuTimes, busy: real, total: real)

  /** `err == nil && len(cpuStat) > 0`. */
  predicate CpuQueryOk(times: Option<seq<CpuTimes>>)
  {
    times.Some? && |times.value| > 0
  }

  /** The guard of the utilisation metrics: percentages are enabled, a previous
      sample exists and the total CPU time advanced. */
  predicate CpuDeltaReady(percent: bool, b: CpuBaseline, times: Option<seq<CpuTimes>>)
  {
    CpuQueryOk(times) && percent && b.time.Some? && Total(times.value[0]) - b.total > 0.0
  }

  /** The stored busy and total times are those of the stored sample. */
  predicate CpuConsistent(b: CpuBaseline)
  {
    b.busy == Busy(b.stat) && b.total == Total(b.stat)
  }

  /** The CPU baseline after a cycle: all four fields replaced by the first
      entry and the clock whenever the query succeeded, untouched otherwise,
      whether or not metrics were emitted. */
  function CpuNext(b: CpuBaseline, times: Option<seq<CpuTimes>>, now: int): (r: CpuBaseline)
    ensures CpuConsistent(b) ==> CpuConsistent(r)
    ensures CpuQueryOk(times) ==> r.time == Some(now) && r.stat == times.value[0]
    ensures !CpuQueryOk(times) ==> r == b
  {
    if CpuQueryOk(times) then
      var c := times.value[0];
      CpuBaseline(Some(now), c, Busy(c), Total(c))
    else b
  }

  /** What `CollectCPU` emits: `cpu_count` always, then the ten utilisation
      metrics when the guard holds. */
  function CpuCycleMetrics(percent: bool, b: CpuBaseline, times: Option<seq<CpuTimes>>,
                           ncpus: I32, request: CpuRequest, common: LabelSet, t: int): (ms: seq<Metric>)
    ensures |ms| == if CpuDeltaReady(percent, b, times) then 11 else 1
    ensures ms[0] == Metric(CpuCount, common, t, Num(ncpus as real))
    ensures CpuDeltaReady(percent, b, times) ==>
              ms[1..] == CpuUtilMetrics(Utilisation(times.value[0], b.stat, b.busy, b.total, ShareFactor(ncpus, request)), common, t)
    ensures AllTagged(ms, common, t)
  {
    [Metric(CpuCount, common, t, Num(ncpus as real))] +
      if CpuDeltaReady(percent, b, times)
      then CpuUtilMetrics(Utilisation(times.value[0], b.stat, b.busy, b.total, ShareFactor(ncpus, request)), common, t)
      else []
  }

  // ---------------------------------------------------------------- disk

  /** `lastDiskTime`, `lastDiskStat` (the total) and `lastDiskStatAll`. */
  datatype DiskBaseline = DiskBaseline(time: Option<int>, total: DiskStat, all: map<string, DiskStat>)

  /** The stored total is the field-wise sum of the stored map. */
  ghost predicate DiskConsistent(b: DiskBaseline)
  {
    b.total == DiskMapTotal(b.all)
  }

  /** The disk baseline after a cycle: the fresh map, its total and the clock
      whenever the query succeeded, even an empty map; untouched otherwise. */
  ghost function DiskNext(b: DiskBaseline, counters: Option<map<string, DiskStat>>, now: int): (r: DiskBaseline)
    ensures DiskConsistent(r) || r == b
    ensures counters.Some? ==> r.time == Some(now) && r.all == counters.value
    ensures counters.None? ==> r == b
  {
    if counters.Some? then DiskBaseline(Some(now), DiskMapTotal(counters.value), counters.value) else b
  }

  /** The per-disk part of a cycle: the `range` over the current map, visiting
      keys in `order`, emitting only for keys the previous map also holds. */
  function MatchedDisks(prev: map<string, DiskStat>, cur: map<string, DiskStat>, order: seq<string>,
                        dt: real, common: LabelSet, t: int): seq<Metric>
    requires forall k :: k in order ==> k in cur
  {
    if order == [] then []
    else
      var n := |order| - 1;
      var k := order[n];
      MatchedDisks(prev, cur, order[..n], dt, common, t) +
        if k in prev then DiskMetrics(k, dt, prev[k], cur[k], common, t) else []
  }

  /** What `CollectDisk` emits from the disk counters `cur`: nothing without a
      baseline, otherwise the `total` device against the stored total, then
      every disk present in both maps. */
  ghost function DiskCycleMetrics(b: DiskBaseline, cur: map<string, DiskStat>, order: seq<string>,
                                  now: int, common: LabelSet, t: int): seq<Metric>
    requires IsEnumeration(order, cur.Keys)
  {
    if b.time.None? then []
    else
      var dt := ElapsedSeconds(b.time.value, now);
      DiskMetrics(TOTAL, dt, b.total, DiskMapTotal(cur), common, t) +
        MatchedDisks(b.all, cur, order, dt, common, t)
  }

  /** The loop `for key, ioCount := range allIoCounters { if last, ok := lastDiskStatAll[key]; ok {...} }`. */
  method EmitMatchedDisks(prev: map<string, DiskStat>, cur: map<string, DiskStat>, order: seq<string>,
                          dt: real, common: LabelSet, t: int) returns (ms: seq<Metric>)
    requires forall k :: k in order ==> k in cur
    ensures ms == MatchedDisks(prev, cur, order, dt, common, t)
  {
    ms := [];
    var i := 0;
    while i < |order|
      invariant 0 <= i <= |order|
      invariant ms == MatchedDisks(prev, cur, order[..i], dt, common, t)
    {
      assert order[..i + 1][..i] == order[..i];
      var key := order[i];
      if key in prev {
        ms := ms + DiskMetrics(key, dt, prev[key], cur[key], common, t);
      }
      i := i + 1;
    }
    assert order[..i] == order;
  }

  /** The emitting half of `CollectDisk`, given the total the summing loop produced. */
  method EmitDiskCycle(b: DiskBaseline, cur: map<string, DiskStat>, total: DiskStat, order: seq<string>,
                       now: int, common: LabelSet, t: int) returns (ms: seq<Metric>)
    requires IsEnumeration(order, cur.Keys) && total == DiskMapTotal(cur)
    ensures ms == DiskCycleMetrics(b, cur, order, now, common, t)
  {
    ms := [];
    if b.time.Some? {
      var dt := ElapsedSeconds(b.time.value, now);
      ms := DiskMetrics(TOTAL, dt, b.total, total, common, t);
      var perDisk := EmitMatchedDisks(b.all, cur, order, dt, common, t);
      ms := ms + perDisk;
    }
  }

  // ---------------------------------------------------------------- network

  /** `lastNetTime`, `lastNetStat` (the total) and `lastNetStatAll`. */
  datatype NetBaseline = NetBaseline(time: Option<int>, total: NetStat, all: seq<NetStat>)

  /** `err == nil && len(netIoStatAll) > 0`. */
  predicate NetQueryOk(counters: Option<seq<NetStat>>)
  {
    counters.Some? && |counters.value| > 0
  }

  /** The stored total is the sum of the stored interface list. */
  predicate NetConsistent(b: NetBaseline)
  {
    b.total == NetTotal(b.all)
  }

  /** The network baseline after a cycle: replaced after every successful
      non-empty query, untouched otherwise. */
  function NetNext(b: NetBaseline, counters: Option<seq<NetStat>>, now: int): (r: NetBaseline)
    ensures NetConsistent(b) ==> NetConsistent(r)
    ensures NetQueryOk(counters) ==> r.time == Some(now) && r.all == counters.value
    ensures !NetQueryOk(counters) ==> r == b
  {
    if NetQueryOk(counters) then NetBaseline(Some(now), NetTotal(counters.value), counters.value) else b
  }

  /** The first `n` steps of the index-matched loop over interfaces: index `i`
      emits only when the same interface name sits at `i` in both lists. */
  function MatchedNets(prev: seq<NetStat>, cur: seq<NetStat>, n: nat, dt: real, common: LabelSet, t: int): seq<Metric>
    requires |prev| == |cur| && n <= |cur|
  {
    if n == 0 then []
    else
      MatchedNets(prev, cur, n - 1, dt, common, t) +
        if cur[n - 1].name == prev[n - 1].name
        then NetMetrics(cur[n - 1].name, dt, prev[n - 1], cur[n - 1], common, t)
        else []
  }

  /** What `CollectNet` emits from the interface list `cur`: nothing without a
      baseline, otherwise the `total` interface, then the index-matched
      interfaces when both lists have the same length. */
  function NetCycleMetrics(b: NetBaseline, cur: seq<NetStat>, now: int, common: LabelSet, t: int): seq<Metric>
  {
    if b.time.None? then []
    else
      var dt := ElapsedSeconds(b.time.value, now);
      NetMetrics(TOTAL, dt, b.total, NetTotal(cur), common, t) +
        if |b.all| == |cur| then MatchedNets(b.all, cur, |cur|, dt, common, t) else []
  }

  /** The loop `for i := 0; i < len(netIoStatAll); i++ { if names match {...} }`. */
  method EmitMatchedNets(prev: seq<NetStat>, cur: seq<NetStat>, dt: real, common: LabelSet, t: int)
    returns (ms: seq<Metric>)
    requires |prev| == |cur|
    ensures ms == MatchedNets(prev, cur, |cur|, dt, common, t)
  {
    ms := [];
    var i := 0;
    while i < |cur|
      invariant 0 <= i <= |cur|
      invariant ms == MatchedNets(prev, cur, i, dt, common, t)
    {
      if cur[i].name == prev[i].name {
        ms := ms + NetMetrics(cur[i].name, dt, prev[i], cur[i], common, t);
      }
      assert ms == MatchedNets(prev, cur, i + 1, dt, common, t);
      i := i + 1;
    }
  }

  /** The emitting half of `CollectNet`, given the total the summing loop produced. */
  method EmitNetCycle(b: NetBaseline, cur: seq<NetStat>, total: NetStat, now: int, common: LabelSet, t: int)
    returns (ms: seq<Metric>)
    requires total == NetTotal(cur)
    ensures ms == NetCycleMetrics(b, cur, now, common, t)
  {
    ms := [];
    if b.time.Some? {
      var dt := ElapsedSeconds(b.time.value, now);
      ms := NetMetrics(TOTAL, dt, b.total, total, common, t);
      if |b.all| == |cur| {
        var perInterface := EmitMatchedNets(b.all, cur, dt, common, t);
        ms := ms + perInterface;
      }
    }
  }

  // ---------------------------------------------------------------- protocol

  /** `lastProtoTime` and `lastProtoAll`. */
  datatype ProtoBaseline = ProtoBaseline(time: Option<int>, all: seq<ProtoStat>)

  /** `err == nil && len(protoCounterStats) > 0`. */
  predicate ProtoQueryOk(counters: Option<seq<ProtoStat>>)
  {
    counters.Some? && |counters.value| > 0
  }

  /** The protocol baseline after a cycle: replaced after every successful
      non-empty query, whether or not the lists lined up. */
  function ProtoNext(b: ProtoBaseline, counters: Option<seq<ProtoStat>>, now: int): (r: ProtoBaseline)
    ensures ProtoQueryOk(counters) ==> r == ProtoBaseline(Some(now), counters.value)
    ensures !ProtoQueryOk(counters) ==> r == b
  {
    if ProtoQueryOk(counters) then ProtoBaseline(Some(now), counters.value) else b
  }

  /** Entry `i` is `tcp` and the previous list holds `tcp` at the same index. */
  predicate TcpAligned(prev: seq<ProtoStat>, cur: seq<ProtoStat>, i: nat)
    requires i < |cur|
  {
    cur[i].protocol == TCP && !(|prev| <= i || prev[i].protocol != cur[i].protocol)
  }

  /** The first `n` steps of the loop over protocol entries. */
  function MatchedTcp(prev: seq<ProtoStat>, cur: seq<ProtoStat>, n: nat, common: LabelSet, t: int): seq<Metric>
    requires n <= |cur|
  {
    if n == 0 then []
    else
      MatchedTcp(prev, cur, n - 1, common, t) +
        if TcpAligned(prev, cur, n - 1) then TcpMetrics(prev[n - 1], cur[n - 1], common, t) else []
  }

  /** What `CollectProtocol` emits from the protocol list `cur`. */
  function ProtoCycleMetrics(b: ProtoBaseline, cur: seq<ProtoStat>, common: LabelSet, t: int): seq<Metric>
  {
    if b.time.Some? && |cur| == |b.all| then MatchedTcp(b.all, cur, |cur|, common, t) else []
  }

  /** The loop `for i := range protoCounterStats { if tcp {...} }`. */
  method EmitMatchedTcp(prev: seq<ProtoStat>, cur: seq<ProtoStat>, common: LabelSet, t: int)
    returns (ms: seq<Metric>)
    ensures ms == MatchedTcp(prev, cur, |cur|, common, t)
  {
    ms := [];
    var i := 0;
    while i < |cur|
      invariant 0 <= i <= |cur|
      invariant ms == MatchedTcp(prev, cur, i, common, t)
    {
      if cur[i].protocol == TCP {
        if !(|prev| <= i || prev[i].protocol != cur[i].protocol) {
          ms := ms + TcpMetrics(prev[i], cur[i], common, t);
        }
      }
      i := i + 1;
    }
  }
}
