/** The sampler object itself: its configuration, the baselines it keeps
    between cycles in its `last*` fields, and the collection cycle that reads
    a snapshot per resource family, emits the metrics of the delta against
    the stored baseline and stores the snapshot as the next baseline.

    Every provider call (host information, load, CPU times and core counts,
    memory, disk and network counters, protocol counters), every reading of
    the clock and the parsed `SIGMA_CPU_REQUEST` variable is a parameter:
    `None` stands for a call that returned an error. */
module SystemV2 {
  import opened Machine
  import opened Labels
  import opened Counters
  import opened Formulas
  import opened Engine

  /** The collector switches and the static labels of the configuration. */
  datatype Config = Config(
    cpu: bool, mem: bool, disk: bool, net: bool, protocol: bool, openFd: bool, cpuPercent: bool,
    labels: map<string, string>, excludeDiskFsType: string, excludeDiskPath: string)

  /** Everything one call of `Collect` receives from the outside world, in
      the order the collectors ask for it. The disk map is visited twice, by
      the summing loop and by the emitting loop, each in an order of its own. */
  datatype CycleInput = CycleInput(
    clock: int,
    info: Option<HostInfo>, load: Option<LoadAvg>,
    cpuTimes: Option<seq<CpuTimes>>, cores: seq<I32>, cpuRequest: CpuRequest, cpuClock: int,
    vm: Option<VirtualMemory>, swap: Option<SwapMemory>,
    disks: Option<map<string, DiskStat>>, diskSumOrder: seq<string>, diskEmitOrder: seq<string>, diskClock: int,
    nets: Option<seq<NetStat>>, netClock: int,
    protos: Option<seq<ProtoStat>>, protoClock: int)

  /** The two disk orders enumerate the keys of the disk map. */
  ghost predicate ValidInput(inp: CycleInput)
  {
    inp.disks.Some? ==>
      IsEnumeration(inp.diskSumOrder, inp.disks.value.Keys) && IsEnumeration(inp.diskEmitOrder, inp.disks.value.Keys)
  }

  /** All the state a cycle reads and writes besides the labels. */
  datatype Baselines = Baselines(
    info: Option<HostInfo>, cpu: CpuBaseline, disk: DiskBaseline, net: NetBaseline, proto: ProtoBaseline)

  /** The state of a freshly created sampler: Go's zero values. */
  const Initial := Baselines(
    None, CpuBaseline(None, ZeroCpu, 0.0, 0.0), DiskBaseline(None, ZeroDisk, map[]),
    NetBaseline(None, ZeroNet, []), ProtoBaseline(None, []))

  const HOSTNAME_LABEL := "hostname"
  const IP_LABEL := "ip"

  /** The static labels as the `range` over the label map appends them. */
  function StaticLabels(labels: map<string, string>, order: seq<string>): (r: LabelSet)
    requires forall k :: k in order ==> k in labels
    ensures |r| == |order|
    ensures forall i :: 0 <= i < |r| ==> r[i] == KeyValue(order[i], labels[order[i]])
  {
    if order == [] then []
    else
      var n := |order| - 1;
      StaticLabels(labels, order[..n]) + [KeyValue(order[n], labels[order[n]])]
  }

  /** The common labels `CommonInit` leaves: whatever was there, then the host
      name, the address and the static labels, sorted by key. */
  function InitLabels(prior: LabelSet, hostname: string, ip: string,
                      labels: map<string, string>, order: seq<string>): LabelSet
    requires forall k :: k in order ==> k in labels
  {
    SortLabels(prior + [KeyValue(HOSTNAME_LABEL, hostname)] + [KeyValue(IP_LABEL, ip)] + StaticLabels(labels, order))
  }

  /** A pattern that is set but does not compile makes `CommonInit` fail. */
  predicate InitFails(config: Config, fsTypeCompiles: bool, pathCompiles: bool)
  {
    (config.excludeDiskFsType != "" && !fsTypeCompiles) || (config.excludeDiskPath != "" && !pathCompiles)
  }

  /** A cycle runs to its end unless no host information was ever obtained:
      then the boot-time line dereferences a nil pointer. */
  predicate CycleCompletes(s: Baselines, inp: CycleInput)
  {
    s.info.Some? || inp.info.Some?
  }

  /** What an enabled CPU collector emits in a cycle stamped `t`; nothing when disabled. */
  function CpuPart(config: Config, b: CpuBaseline, inp: CycleInput, common: LabelSet, t: int): seq<Metric>
  {
    if config.cpu then CpuCycleMetrics(config.cpuPercent, b, inp.cpuTimes, CoreCount(inp.cores), inp.cpuRequest, common, t) else []
  }

  function MemPart(config: Config, inp: CycleInput, common: LabelSet, t: int): seq<Metric>
  {
    if config.mem then MemMetrics(inp.vm, inp.swap, common, t) else []
  }

  ghost function DiskPart(config: Config, b: DiskBaseline, inp: CycleInput, common: LabelSet, t: int): seq<Metric>
    requires ValidInput(inp)
  {
    if config.disk && inp.disks.Some? then DiskCycleMetrics(b, inp.disks.value, inp.diskEmitOrder, inp.diskClock, common, t) else []
  }

  function NetPart(config: Config, b: NetBaseline, inp: CycleInput, common: LabelSet, t: int): seq<Metric>
  {
    if config.net && NetQueryOk(inp.nets) then NetCycleMetrics(b, inp.nets.value, inp.netClock, common, t) else []
  }

  function ProtoPart(config: Config, b: ProtoBaseline, inp: CycleInput, common: LabelSet, t: int): seq<Metric>
  {
    if config.protocol && ProtoQueryOk(inp.protos) then ProtoCycleMetrics(b, inp.protos.value, common, t) else []
  }

  function CpuStep(config: Config, b: CpuBaseline, inp: CycleInput): CpuBaseline
  {
    if config.cpu then CpuNext(b, inp.cpuTimes, inp.cpuClock) else b
  }

  ghost function DiskStep(config: Config, b: DiskBaseline, inp: CycleInput): DiskBaseline
  {
    if config.disk then DiskNext(b, inp.disks, inp.diskClock) else b
  }

  function NetStep(config: Config, b: NetBaseline, inp: CycleInput): NetBaseline
  {
    if config.net then NetNext(b, inp.nets, inp.netClock) else b
  }

  function ProtoStep(config: Config, b: ProtoBaseline, inp: CycleInput): ProtoBaseline
  {
    if config.protocol then ProtoNext(b, inp.protos, inp.protoClock) else b
  }

  /** What the collectors after the core one emit, each when enabled. */
  ghost function EnabledMetrics(config: Config, s: Baselines, inp: CycleInput, common: LabelSet, t: int): seq<Metric>
    requires ValidInput(inp)
  {
    CpuPart(config, s.cpu, inp, common, t) + MemPart(config, inp, common, t) + DiskPart(config, s.disk, inp, common, t)
    + NetPart(config, s.net, inp, common, t) + ProtoPart(config, s.proto, inp, common, t)
  }

  /** The baselines after the collectors after the core one ran. */
  ghost function EnabledNext(config: Config, s: Baselines, inp: CycleInput): Baselines
  {
    s.(cpu := CpuStep(config, s.cpu, inp), disk := DiskStep(config, s.disk, inp),
       net := NetStep(config, s.net, inp), proto := ProtoStep(config, s.proto, inp))
  }

  /** What one call of `Collect` emits, from the state before the call. */
  ghost function CycleMetrics(config: Config, s: Baselines, common: LabelSet, inp: CycleInput): seq<Metric>
    requires ValidInput(inp)
  {
    var info := if s.info.Some? then s.info else inp.info;
    var core := CoreCycleMetrics(info, inp.load, common, inp.clock);
    if !CycleCompletes(s, inp) then core else core + EnabledMetrics(config, s, inp, common, inp.clock)
  }

  /** The state after one call of `Collect`. Disabled collectors, and every
      collector of a cycle that stopped at the boot-time line, keep their baselines. */
  ghost function CycleNext(config: Config, s: Baselines, inp: CycleInput): Baselines
  {
    var info := if s.info.Some? then s.info else inp.info;
    if !CycleCompletes(s, inp) then s.(info := info) else EnabledNext(config, s.(info := info), inp)
  }

  /** The baselines keep the totals and the busy time consistent with what they
      were computed from. */
  ghost predicate Consistent(s: Baselines)
  {
    CpuConsistent(s.cpu) && DiskConsistent(s.disk) && NetConsistent(s.net)
  }

  class InputSystem {
    const config: Config

    var lastInfo: Option<HostInfo>
    /** `lastCPUTime`, `lastCPUStat`, `lastCPUBusy` and `lastCPUTotal`. */
    var lastCpu: CpuBaseline
    /** `lastDiskTime`, `lastDiskStat` and `lastDiskStatAll`. */
    var lastDisk: DiskBaseline
    /** `lastNetTime`, `lastNetStat` and `lastNetStatAll`. */
    var lastNet: NetBaseline
    /** `lastProtoTime` and `lastProtoAll`. */
    var lastProto: ProtoBaseline
    var commonLabels: LabelSet
    /** The clock reading taken at the start of the current cycle, in ns. */
    var collectTime: int

    function State(): Baselines
      reads this`lastInfo, this`lastCpu, this`lastDisk, this`lastNet, this`lastProto
    {
      Baselines(lastInfo, lastCpu, lastDisk, lastNet, lastProto)
    }

    /** The common labels stay sorted by key. */
    ghost predicate Valid()
      reads this`commonLabels
    {
      Sorted(commonLabels)
    }

    constructor(config: Config)
      ensures this.config == config
      ensures State() == Initial && commonLabels == [] && collectTime == 0
      ensures Valid()
    {
      this.config := config;
      lastInfo := None;
      lastCpu := Initial.cpu;
      lastDisk := Initial.disk;
      lastNet := Initial.net;
      lastProto := Initial.proto;
      commonLabels := [];
      collectTime := 0;
    }

    /** The loop `for k, v := range labels { commonLabels = append(...) }`. */
    static method AppendStaticLabels(prefix: LabelSet, labels: map<string, string>, order: seq<string>)
      returns (r: LabelSet)
      requires forall k :: k in order ==> k in labels
      ensures r == prefix + StaticLabels(labels, order)
    {
      r := prefix;
      var i := 0;
      while i < |order|
        invariant 0 <= i <= |order|
        invariant r == prefix + StaticLabels(labels, order[..i])
      {
        var key := order[i];
        assert order[..i + 1][..i] == order[..i];
        r := r + [KeyValue(key, labels[key])];
        i := i + 1;
      }
      assert order[..i] == order;
    }

    /** Checks the exclude patterns, then appends the host name, the address
        and the static labels (visited in `labelOrder`) and sorts the result. */
    method CommonInit(hostname: string, ip: string, labelOrder: seq<string>, fsTypeCompiles: bool, pathCompiles: bool)
      returns (err: bool)
      requires Valid()
      requires IsEnumeration(labelOrder, config.labels.Keys)
      modifies this`commonLabels
      ensures Valid()
      ensures err == InitFails(config, fsTypeCompiles, pathCompiles)
      ensures commonLabels == if err then old(commonLabels)
                              else InitLabels(old(commonLabels), hostname, ip, config.labels, labelOrder)
    {
      if config.excludeDiskFsType != "" && !fsTypeCompiles {
        return true;
      }
      if config.excludeDiskPath != "" && !pathCompiles {
        return true;
      }
      var labels := commonLabels + [KeyValue(HOSTNAME_LABEL, hostname)];
      labels := labels + [KeyValue(IP_LABEL, ip)];
      labels := AppendStaticLabels(labels, config.labels, labelOrder);
      SortLabelsSorts(labels);
      commonLabels := SortLabels(labels);
      err := false;
    }

    /** Caches the host information on first success, emits the load
        averages and the boot time. `ok` is false when there is still no host
        information: the boot-time line then aborts the cycle. */
    method CollectCore(info: Option<HostInfo>, load: Option<LoadAvg>) returns (emitted: seq<Metric>, ok: bool)
      modifies this`lastInfo
      ensures lastInfo == if old(lastInfo).Some? then old(lastInfo) else info
      ensures ok == lastInfo.Some?
      ensures emitted == CoreCycleMetrics(lastInfo, load, commonLabels, collectTime)
    {
      if lastInfo.None? {
        lastInfo := info;
      }
      emitted := [];
      if load.Some? {
        emitted := emitted + LoadMetrics(load, commonLabels, collectTime);
      }
      if lastInfo.None? {
        ok := false;
        return;
      }
      emitted := emitted + [Metric(SystemBootTime, commonLabels, collectTime, Num(lastInfo.value.bootTime as real))];
      ok := true;
    }

    /** The share factor as `CollectCPU` works it out from the request. */
    static method ShareFactorOf(ncpus: I32, request: CpuRequest) returns (factor: real)
      ensures factor == ShareFactor(ncpus, request)
    {
      factor := 1.0;
      if !request.Unset? {
        if request.Malformed? || request.n <= 0 || ncpus == 0 {
          // the source logs the bad request and keeps the factor at 1
        } else {
          factor := ncpus as real / (request.n as real / 1000.0);
        }
      }
    }

    /** Counts the cores, emits `cpu_count`, and on a successful query emits
        the utilisation against the stored sample and stores the new one. */
    method CollectCPU(times: Option<seq<CpuTimes>>, cores: seq<I32>, request: CpuRequest, now: int)
      returns (emitted: seq<Metric>)
      modifies this`lastCpu
      ensures emitted == CpuCycleMetrics(config.cpuPercent, old(lastCpu), times, CoreCount(cores), request, commonLabels, collectTime)
      ensures lastCpu == CpuNext(old(lastCpu), times, now)
    {
      var ncpus := CountCores(cores);
      emitted := [Metric(CpuCount, commonLabels, collectTime, Num(ncpus as real))];
      if times.Some? && |times.value| > 0 {
        var c := times.value[0];
        var busy := Busy(c);
        var total := Total(c);
        var factor := ShareFactorOf(ncpus, request);
        var deltaTotal := total - lastCpu.total;
        if config.cpuPercent && lastCpu.time.Some? && deltaTotal > 0.0 {
          var u := Utilisation(c, lastCpu.stat, lastCpu.busy, lastCpu.total, factor);
          emitted := emitted + CpuUtilMetrics(u, commonLabels, collectTime);
        }
        lastCpu := CpuBaseline(Some(now), c, busy, total);
      }
    }

    /** On a successful query: sums the disks, emits the `total` device and
        every disk the stored map also holds, and stores the new map. */
    method CollectDisk(counters: Option<map<string, DiskStat>>, sumOrder: seq<string>, emitOrder: seq<string>, now: int)
      returns (emitted: seq<Metric>)
      requires counters.Some? ==> IsEnumeration(sumOrder, counters.value.Keys) && IsEnumeration(emitOrder, counters.value.Keys)
      modifies this`lastDisk
      ensures emitted == if counters.None? then []
                         else DiskCycleMetrics(old(lastDisk), counters.value, emitOrder, now, commonLabels, collectTime)
      ensures lastDisk == DiskNext(old(lastDisk), counters, now)
    {
      emitted := [];
      if counters.Some? {
        var all := counters.value;
        var total := SumDisks(all, sumOrder);
        emitted := EmitDiskCycle(lastDisk, all, total, emitOrder, now, commonLabels, collectTime);
        lastDisk := DiskBaseline(Some(now), total, all);
      }
    }

    /** On a successful non-empty query: sums the interfaces, emits the
        `total` interface and the index-matched ones, and stores the new list. */
    method CollectNet(counters: Option<seq<NetStat>>, now: int) returns (emitted: seq<Metric>)
      modifies this`lastNet
      ensures emitted == if !NetQueryOk(counters) then []
                         else NetCycleMetrics(old(lastNet), counters.value, now, commonLabels, collectTime)
      ensures lastNet == NetNext(old(lastNet), counters, now)
    {
      emitted := [];
      if counters.Some? && |counters.value| > 0 {
        var all := counters.value;
        var total := SumNets(all);
        emitted := EmitNetCycle(lastNet, all, total, now, commonLabels, collectTime);
        lastNet := NetBaseline(Some(now), total, all);
      }
    }

    /** On a successful non-empty query: emits the TCP deltas when the lists
        line up, and stores the new list either way. */
    method CollectProtocol(counters: Option<seq<ProtoStat>>, now: int) returns (emitted: seq<Metric>)
      modifies this`lastProto
      ensures emitted == if !ProtoQueryOk(counters) then []
                         else ProtoCycleMetrics(old(lastProto), counters.value, commonLabels, collectTime)
      ensures lastProto == ProtoNext(old(lastProto), counters, now)
    {
      emitted := [];
      if counters.Some? && |counters.value| > 0 {
        var all := counters.value;
        if lastProto.time.Some? && |all| == |lastProto.all| {
          emitted := EmitMatchedTcp(lastProto.all, all, commonLabels, collectTime);
        }
        lastProto := ProtoBaseline(Some(now), all);
      }
    }

    /** `if r.cpu { r.CollectCPU() }` */
    method CpuStage(inp: CycleInput) returns (part: seq<Metric>)
      modifies this`lastCpu
      ensures part == CpuPart(config, old(lastCpu), inp, commonLabels, collectTime)
      ensures lastCpu == CpuStep(config, old(lastCpu), inp)
    {
      part := [];
      if config.cpu {
        part := CollectCPU(inp.cpuTimes, inp.cores, inp.cpuRequest, inp.cpuClock);
      }
    }

    /** `if r.disk { r.CollectDisk() }` */
    method DiskStage(inp: CycleInput) returns (part: seq<Metric>)
      requires ValidInput(inp)
      modifies this`lastDisk
      ensures part == DiskPart(config, old(lastDisk), inp, commonLabels, collectTime)
      ensures lastDisk == DiskStep(config, old(lastDisk), inp)
    {
      part := [];
      if config.disk {
        part := CollectDisk(inp.disks, inp.diskSumOrder, inp.diskEmitOrder, inp.diskClock);
      }
    }

    /** `if r.net { r.CollectNet() }` */
    method NetStage(inp: CycleInput) returns (part: seq<Metric>)
      modifies this`lastNet
      ensures part == NetPart(config, old(lastNet), inp, commonLabels, collectTime)
      ensures lastNet == NetStep(config, old(lastNet), inp)
    {
      part := [];
      if config.net {
        part := CollectNet(inp.nets, inp.netClock);
      }
    }

    /** `if r.protocol { r.CollectProtocol() }` */
    method ProtoStage(inp: CycleInput) returns (part: seq<Metric>)
      modifies this`lastProto
      ensures part == ProtoPart(config, old(lastProto), inp, commonLabels, collectTime)
      ensures lastProto == ProtoStep(config, old(lastProto), inp)
    {
      part := [];
      if config.protocol {
        part := CollectProtocol(inp.protos, inp.protoClock);
      }
    }

    /** The collectors after the core one, each when its switch is on. */
    method CollectEnabled(inp: CycleInput) returns (emitted: seq<Metric>)
      requires ValidInput(inp)
      modifies this`lastCpu, this`lastDisk, this`lastNet, this`lastProto
      ensures emitted == CpuPart(config, old(lastCpu), inp, commonLabels, collectTime)
                         + MemPart(config, inp, commonLabels, collectTime)
                         + DiskPart(config, old(lastDisk), inp, commonLabels, collectTime)
                         + NetPart(config, old(lastNet), inp, commonLabels, collectTime)
                         + ProtoPart(config, old(lastProto), inp, commonLabels, collectTime)
      ensures lastCpu == CpuStep(config, old(lastCpu), inp) && lastDisk == DiskStep(config, old(lastDisk), inp)
      ensures lastNet == NetStep(config, old(lastNet), inp) && lastProto == ProtoStep(config, old(lastProto), inp)
    {
      var cpuPart := CpuStage(inp);
      var memPart := MemPart(config, inp, commonLabels, collectTime);
      var diskPart := DiskStage(inp);
      var netPart := NetStage(inp);
      var protoPart := ProtoStage(inp);
      // CollectOpenFD is not part of this model
      emitted := cpuPart + memPart + diskPart + netPart + protoPart;
    }

    /** One collection cycle: stamps the cycle, runs the core collector and
        then every enabled collector in order. */
    method Collect(inp: CycleInput) returns (emitted: seq<Metric>, completed: bool)
      requires Valid() && ValidInput(inp)
      modifies this
      ensures Valid()
      ensures commonLabels == old(commonLabels) && collectTime == inp.clock
      ensures completed == CycleCompletes(old(State()), inp)
      ensures emitted == CycleMetrics(config, old(State()), commonLabels, inp)
      ensures State() == CycleNext(config, old(State()), inp)
    {
      collectTime := inp.clock;
      emitted, completed := CollectCore(inp.info, inp.load);
      if !completed {
        return;
      }
      var rest := CollectEnabled(inp);
      emitted := emitted + rest;
    }
  }
}
