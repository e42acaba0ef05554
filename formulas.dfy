/** The per-snapshot calculations of the sampler: what `collectOneDisk` and
    `collectOneNet` emit for one device given its previous and current counters,
    the TCP deltas of one protocol entry, the CPU utilisation of one sample,
    and the instantaneous memory and load metrics. */
module Formulas {
  import opened Machine
  import opened Labels
  import opened Counters

  /** One emitted sample: name, label set, collection timestamp (ns) and value. */
  datatype Metric = Metric(name: MetricName, labels: LabelSet, time: int, value: Value)

  /** `ms` holds a metric called `name`. */
  predicate Has(ms: seq<Metric>, name: MetricName)
  {
    exists i :: 0 <= i < |ms| && ms[i].name == name
  }

  /** `ms` holds a metric called `name` whose value is `v`. */
  predicate HasValue(ms: seq<Metric>, name: MetricName, v: Value)
  {
    exists i :: 0 <= i < |ms| && ms[i].name == name && ms[i].value == v
  }

  /** Every metric of `ms` carries `labels` and the timestamp `t`. */
  predicate AllTagged(ms: seq<Metric>, labels: LabelSet, t: int)
  {
    forall i :: 0 <= i < |ms| ==> ms[i].labels == labels && ms[i].time == t
  }

  /** The metrics the sampler emits; `NameOf` gives the name as emitted. */
  datatype MetricName =
      DiskRbps | DiskWbps | DiskRiops | DiskWiops | DiskRlatency | DiskWlatency
    | DiskUtil | NetIn | NetOut | NetInPkt | NetOutPkt | NetDropUtil | NetErrUtil
    | TcpOutsegs | TcpInsegs | TcpRetranSegs | TcpRetranUtil | CpuCount | CpuUtil
    | CpuWaitUtil | CpuSysUtil | CpuUserUtil | CpuIrqUtil | CpuSoftirqUtil | CpuNiceUtil
    | CpuStealUtil | CpuGuestUtil | CpuGuestniceUtil | MemUtil | MemCache | MemFree
    | MemAvailable | MemUsed | MemTotal | MemSwapUtil | SystemLoad1 | SystemLoad5
    | SystemLoad15 | SystemBootTime

  function NameOf(n: MetricName): string
  {
    match n
    case DiskRbps => "disk_rbps"
    case DiskWbps => "disk_wbps"
    case DiskRiops => "disk_riops"
    case DiskWiops => "disk_wiops"
    case DiskRlatency => "disk_rlatency"
    case DiskWlatency => "disk_wlatency"
    case DiskUtil => "disk_util"
    case NetIn => "net_in"
    case NetOut => "net_out"
    case NetInPkt => "net_in_pkt"
    case NetOutPkt => "net_out_pkt"
    case NetDropUtil => "net_drop_util"
    case NetErrUtil => "net_err_util"
    case TcpOutsegs => "protocol_tcp_outsegs"
    case TcpInsegs => "protocol_tcp_insegs"
    case TcpRetranSegs => "protocol_tcp_retran_segs"
    case TcpRetranUtil => "protocol_tcp_retran_util"
    case CpuCount => "cpu_count"
    case CpuUtil => "cpu_util"
    case CpuWaitUtil => "cpu_wait_util"
    case CpuSysUtil => "cpu_sys_util"
    case CpuUserUtil => "cpu_user_util"
    case CpuIrqUtil => "cpu_irq_util"
    case CpuSoftirqUtil => "cpu_softirq_util"
    case CpuNiceUtil => "cpu_nice_util"
    case CpuStealUtil => "cpu_steal_util"
    case CpuGuestUtil => "cpu_guest_util"
    case CpuGuestniceUtil => "cpu_guestnice_util"
    case MemUtil => "mem_util"
    case MemCache => "mem_cache"
    case MemFree => "mem_free"
    case MemAvailable => "mem_available"
    case MemUsed => "mem_used"
    case MemTotal => "mem_total"
    case MemSwapUtil => "mem_swap_util"
    case SystemLoad1 => "system_load1"
    case SystemLoad5 => "system_load5"
    case SystemLoad15 => "system_load15"
    case SystemBootTime => "system_boot_time"
  }

  /** A metric's name and value, before the labels and the timestamp are attached. */
  datatype Sample = Sample(name: MetricName, value: Value)

  /** Attaches the same labels and timestamp to every sample, in order. */
  function Tag(ss: seq<Sample>, labels: LabelSet, t: int): (ms: seq<Metric>)
    ensures |ms| == |ss|
    ensures forall i :: 0 <= i < |ms| ==> ms[i] == Metric(ss[i].name, labels, t, ss[i].value)
  {
    if ss == [] then []
    else
      var n := |ss| - 1;
      Tag(ss[..n], labels, t) + [Metric(ss[n].name, labels, t, ss[n].value)]
  }

  /** Sample `i` comes out of `Tag` as a metric of the same name and value. */
  lemma TagHasValue(ss: seq<Sample>, labels: LabelSet, t: int, i: nat, s: Sample)
    requires i < |ss| && ss[i] == s
    ensures HasValue(Tag(ss, labels, t), s.name, s.value)
  {
    assert Tag(ss, labels, t)[i].name == s.name;
  }

  /** `Tag` emits a metric called `n` exactly when some sample is called `n`. */
  lemma TagHas(ss: seq<Sample>, labels: LabelSet, t: int, n: MetricName)
    ensures Has(Tag(ss, labels, t), n) <==> exists i :: 0 <= i < |ss| && ss[i].name == n
  {
    if exists i :: 0 <= i < |ss| && ss[i].name == n {
      var i :| 0 <= i < |ss| && ss[i].name == n;
      assert Tag(ss, labels, t)[i].name == n;
    }
  }

  /** Name of the synthetic aggregate device. */
  const TOTAL := "total"
  const DISK_LABEL := "disk"
  const INTERFACE_LABEL := "interface"
  const TCP := "tcp"

  /** Seconds between two clock readings taken in nanoseconds. */
  function ElapsedSeconds(last: int, now: int): (r: real)
    ensures r * 1_000_000_000.0 == (now - last) as real
  {
    (now - last) as real / 1_000_000_000.0
  }

  /** A counter delta per second: `float64(delta) / timeDeltaSec`. */
  function Rate(delta: U64, dt: real): (r: Value)
    ensures dt != 0.0 ==> r.Num?
    ensures dt == 0.0 ==> r == (if delta == 0 then NaN else PosInf)
  {
    Quotient(delta as real, dt)
  }

  /** Average time per operation: NaN when no operation completed. */
  function Latency(dTime: U64, dCount: U64): (r: Value)
    ensures r == NaN <==> dCount == 0
  {
    if dCount > 0 then Num(dTime as real / dCount as real) else NaN
  }

  /** The name and value of each metric `collectOneDisk` emits for disk
      `name`, in emission order: `disk_util` only for a real disk. */
  function DiskSamples(name: string, dt: real, last: DiskStat, now: DiskStat): (ss: seq<Sample>)
    ensures |ss| == if name == TOTAL then 6 else 7
  {
    [ Sample(DiskRbps, Rate(SubU64(now.readBytes, last.readBytes), dt)),
      Sample(DiskWbps, Rate(SubU64(now.writeBytes, last.writeBytes), dt)),
      Sample(DiskRiops, Rate(SubU64(now.readCount, last.readCount), dt)),
      Sample(DiskWiops, Rate(SubU64(now.writeCount, last.writeCount), dt)),
      Sample(DiskRlatency, Latency(SubU64(now.readTime, last.readTime), SubU64(now.readCount, last.readCount))),
      Sample(DiskWlatency, Latency(SubU64(now.writeTime, last.writeTime), SubU64(now.writeCount, last.writeCount)))
    ] + if name != TOTAL then [Sample(DiskUtil, Quotient(SubU64(now.ioTime, last.ioTime) as real * 100.0 / 1000.0, dt))] else []
  }

  /** What `collectOneDisk` emits for disk `name`. */
  function DiskMetrics(name: string, dt: real, last: DiskStat, now: DiskStat, common: LabelSet, t: int): (ms: seq<Metric>)
    ensures |ms| == if name == TOTAL then 6 else 7
    ensures AllTagged(ms, DeviceLabels(common, DISK_LABEL, name), t)
  {
    Tag(DiskSamples(name, dt, last, now), DeviceLabels(common, DISK_LABEL, name), t)
  }

  /** Packets sent plus packets received since the last sample, in uint64. */
  function PacketDelta(last: NetStat, now: NetStat): U64
  {
    AddU64(SubU64(now.packetsSent, last.packetsSent), SubU64(now.packetsRecv, last.packetsRecv))
  }

  /** Dropped packets (in and out) since the last sample, in uint64. */
  function DropDelta(last: NetStat, now: NetStat): U64
  {
    AddU64(SubU64(now.dropin, last.dropin), SubU64(now.dropout, last.dropout))
  }

  /** Erroneous packets (in and out) since the last sample, in uint64. */
  function ErrDelta(last: NetStat, now: NetStat): U64
  {
    AddU64(SubU64(now.errin, last.errin), SubU64(now.errout, last.errout))
  }

  /** `100 * part / whole` for a non-zero packet count. */
  function Percent(part: U64, whole: U64): (r: Value)
    requires whole != 0
    ensures r.Num?
  {
    Num(100.0 * part as real / whole as real)
  }

  /** The name and value of each metric `collectOneNet` emits, in emission
      order: the drop and error ratios only when packets moved. */
  function NetSamples(dt: real, last: NetStat, now: NetStat): (ss: seq<Sample>)
    ensures |ss| == if PacketDelta(last, now) != 0 then 6 else 4
  {
    var packets := PacketDelta(last, now);
    [ Sample(NetIn, Rate(SubU64(now.bytesRecv, last.bytesRecv), dt)),
      Sample(NetOut, Rate(SubU64(now.bytesSent, last.bytesSent), dt)),
      Sample(NetInPkt, Rate(SubU64(now.packetsRecv, last.packetsRecv), dt)),
      Sample(NetOutPkt, Rate(SubU64(now.packetsSent, last.packetsSent), dt))
    ] + if packets == 0 then [] else [
      Sample(NetDropUtil, Percent(DropDelta(last, now), packets)),
      Sample(NetErrUtil, Percent(ErrDelta(last, now), packets))
    ]
  }

  /** What `collectOneNet` emits for interface `name`. */
  function NetMetrics(name: string, dt: real, last: NetStat, now: NetStat, common: LabelSet, t: int): (ms: seq<Metric>)
    ensures |ms| == if PacketDelta(last, now) != 0 then 6 else 4
    ensures AllTagged(ms, DeviceLabels(common, INTERFACE_LABEL, name), t)
  {
    Tag(NetSamples(dt, last, now), DeviceLabels(common, INTERFACE_LABEL, name), t)
  }

  /** The retransmission ratio: 0 unless segments were sent. */
  function RetranUtil(dRetrans: I64, dOut: I64): (r: Value)
    ensures r.Num?
    ensures dOut <= 0 ==> r.v == 0.0
  {
    if dOut <= 0 then Num(0.0) else Num(100.0 * dRetrans as real / dOut as real)
  }

  /** Change of one int64 TCP counter between two entries, in int64. */
  function TcpDelta(last: ProtoStat, now: ProtoStat, field: string): I64
  {
    WrapI64(Counter(now, field) - Counter(last, field))
  }

  const RETRANS_SEGS := "RetransSegs"
  const OUT_SEGS := "OutSegs"
  const IN_SEGS := "InSegs"

  /** The four samples emitted for a `tcp` entry matched with its previous
      entry, in emission order. */
  function TcpSamples(last: ProtoStat, now: ProtoStat): (ss: seq<Sample>)
    ensures |ss| == 4
  {
    var dRetrans := TcpDelta(last, now, RETRANS_SEGS);
    var dOut := TcpDelta(last, now, OUT_SEGS);
    [ Sample(TcpOutsegs, Num(dOut as real)),
      Sample(TcpInsegs, Num(TcpDelta(last, now, IN_SEGS) as real)),
      Sample(TcpRetranSegs, Num(dRetrans as real)),
      Sample(TcpRetranUtil, RetranUtil(dRetrans, dOut))
    ]
  }

  /** The four metrics emitted for a `tcp` entry; every value is a number. */
  function TcpMetrics(last: ProtoStat, now: ProtoStat, common: LabelSet, t: int): (ms: seq<Metric>)
    ensures |ms| == 4
    ensures AllTagged(ms, common, t)
    ensures forall i :: 0 <= i < |ms| ==> ms[i].value.Num?
  {
    Tag(TcpSamples(last, now), common, t)
  }

  /** CPU time spent doing work. */
  function Busy(c: CpuTimes): real
  {
    c.guestNice + c.guest + c.nice + c.softirq + c.irq + c.user + c.system
  }

  /** All CPU time: busy, idle, waiting for I/O and stolen. */
  function Total(c: CpuTimes): (r: real)
    ensures r == Busy(c) + c.idle + c.iowait + c.steal
  {
    Busy(c) + c.idle + c.iowait + c.steal
  }

  /** The value of `SIGMA_CPU_REQUEST` as `strconv.Atoi` sees it. */
  datatype CpuRequest = Unset | Malformed | Millicores(n: int)

  /** Scales CPU percentages from the whole machine to the requested share:
      factor times the requested cores is the machine's core count. Unset,
      malformed or non-positive requests, and an unknown core count, leave
      the factor at 1. */
  function ShareFactor(ncpus: I32, request: CpuRequest): (r: real)
    ensures !(request.Millicores? && request.n > 0 && ncpus != 0) ==> r == 1.0
  {
    if request.Millicores? && request.n > 0 && ncpus != 0
    then ncpus as real / (request.n as real / 1000.0)
    else 1.0
  }

  /** `100 * delta / deltaTotal * factor`. */
  function CpuShare(delta: real, deltaTotal: real, factor: real): (r: real)
    requires deltaTotal > 0.0
  {
    100.0 * delta / deltaTotal * factor
  }

  /** The utilisation percentages of one CPU sample: busy time, then each bucket. */
  datatype CpuUtilisation = CpuUtilisation(
    busy: real, wait: real, sys: real, user: real, irq: real,
    softirq: real, nice: real, steal: real, guest: real, guestNice: real)

  /** Every bucket's change divided by the same change of total CPU time.
      Busy time is compared with the stored `lastBusy`, the buckets with the
      stored sample. */
  function Utilisation(now: CpuTimes, lastStat: CpuTimes, lastBusy: real, lastTotal: real, factor: real): CpuUtilisation
    requires Total(now) - lastTotal > 0.0
  {
    var d := Total(now) - lastTotal;
    CpuUtilisation(
      CpuShare(Busy(now) - lastBusy, d, factor),
      CpuShare(now.iowait - lastStat.iowait, d, factor),
      CpuShare(now.system - lastStat.system, d, factor),
      CpuShare(now.user - lastStat.user, d, factor),
      CpuShare(now.irq - lastStat.irq, d, factor),
      CpuShare(now.softirq - lastStat.softirq, d, factor),
      CpuShare(now.nice - lastStat.nice, d, factor),
      CpuShare(now.steal - lastStat.steal, d, factor),
      CpuShare(now.guest - lastStat.guest, d, factor),
      CpuShare(now.guestNice - lastStat.guestNice, d, factor))
  }

  /** The ten utilisation samples, in the order `CollectCPU` emits them. */
  function CpuSamples(u: CpuUtilisation): (ss: seq<Sample>)
    ensures |ss| == 10
  {
    [ Sample(CpuUtil, Num(u.busy)),
      Sample(CpuWaitUtil, Num(u.wait)),
      Sample(CpuSysUtil, Num(u.sys)),
      Sample(CpuUserUtil, Num(u.user)),
      Sample(CpuIrqUtil, Num(u.irq)),
      Sample(CpuSoftirqUtil, Num(u.softirq)),
      Sample(CpuNiceUtil, Num(u.nice)),
      Sample(CpuStealUtil, Num(u.steal)),
      Sample(CpuGuestUtil, Num(u.guest)),
      Sample(CpuGuestniceUtil, Num(u.guestNice))
    ]
  }

  /** The ten utilisation metrics; every value is a number. */
  function CpuUtilMetrics(u: CpuUtilisation, common: LabelSet, t: int): (ms: seq<Metric>)
    ensures |ms| == 10
    ensures AllTagged(ms, common, t)
    ensures forall i :: 0 <= i < |ms| ==> ms[i].value.Num?
  {
    Tag(CpuSamples(u), common, t)
  }

  /** The machine's core count as the int32 loop over `cpu.Info()` adds it up. */
  function CoreCount(cores: seq<I32>): I32
  {
    if cores == [] then 0
    else WrapI32(CoreCount(cores[..|cores| - 1]) + cores[|cores| - 1])
  }

  /** The plain sum of the core counts. */
  function CoreSum(cores: seq<I32>): int
  {
    if cores == [] then 0 else CoreSum(cores[..|cores| - 1]) + cores[|cores| - 1]
  }

  /** The loop `for _, c := range cpuInfo { ncpus += c.Cores }`. */
  method CountCores(cores: seq<I32>) returns (ncpus: I32)
    ensures ncpus == CoreCount(cores)
  {
    ncpus := 0;
    var i := 0;
    while i < |cores|
      invariant 0 <= i <= |cores|
      invariant ncpus == CoreCount(cores[..i])
    {
      assert cores[..i + 1][..i] == cores[..i];
      ncpus := WrapI32(ncpus + cores[i]);
      i := i + 1;
    }
    assert cores[..i] == cores;
  }

  /** The samples `CollectMem` takes: six when the virtual-memory query
      succeeds, then the swap ratio when the swap query succeeds. */
  function MemSamples(vm: Option<VirtualMemory>, swap: Option<SwapMemory>): (ss: seq<Sample>)
    ensures |ss| == (if vm.Some? then 6 else 0) + (if swap.Some? then 1 else 0)
  {
    (if vm.None? then [] else [
      Sample(MemUtil, Num(vm.value.usedPercent)),
      Sample(MemCache, Num(vm.value.cached as real)),
      Sample(MemFree, Num(vm.value.free as real)),
      Sample(MemAvailable, Num(vm.value.available as real)),
      Sample(MemUsed, Num(vm.value.used as real)),
      Sample(MemTotal, Num(vm.value.total as real))
    ]) + if swap.None? then [] else [Sample(MemSwapUtil, Num(swap.value.usedPercent))]
  }

  /** What `CollectMem` emits. */
  function MemMetrics(vm: Option<VirtualMemory>, swap: Option<SwapMemory>, common: LabelSet, t: int): (ms: seq<Metric>)
    ensures |ms| == (if vm.Some? then 6 else 0) + (if swap.Some? then 1 else 0)
    ensures AllTagged(ms, common, t)
  {
    Tag(MemSamples(vm, swap), common, t)
  }

  /** The three load averages, emitted only when `load.Avg()` succeeds. */
  function LoadMetrics(load: Option<LoadAvg>, common: LabelSet, t: int): (ms: seq<Metric>)
    ensures |ms| == if load.Some? then 3 else 0
    ensures AllTagged(ms, common, t)
  {
    if load.None? then []
    else Tag([ Sample(SystemLoad1, Num(load.value.load1)),
               Sample(SystemLoad5, Num(load.value.load5)),
               Sample(SystemLoad15, Num(load.value.load15)) ], common, t)
  }
}
