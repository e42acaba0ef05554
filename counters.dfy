/** Raw snapshots returned by the OS statistics providers, and the `total`
    snapshot the sampler builds by adding up the per-device counters with Go's
    wrapping uint64 `+=`. */
module Counters {
  import opened Machine

  /** One disk's entry of `disk.IOCounters`, limited to the counters the sampler adds up. */
  datatype DiskStat = DiskStat(
    readCount: U64, writeCount: U64, readBytes: U64, writeBytes: U64,
    readTime: U64, writeTime: U64, iopsInProgress: U64, ioTime: U64)

  const ZeroDisk := DiskStat(0, 0, 0, 0, 0, 0, 0, 0)

  /** Names the summed fields of a DiskStat, so that "field-wise" can be said once. */
  datatype DiskField = ReadCount | WriteCount | ReadBytes | WriteBytes
                     | ReadTime | WriteTime | IopsInProgress | IoTime

  function DiskGet(d: DiskStat, f: DiskField): U64
  {
    match f
    case ReadCount => d.readCount
    case WriteCount => d.writeCount
    case ReadBytes => d.readBytes
    case WriteBytes => d.writeBytes
    case ReadTime => d.readTime
    case WriteTime => d.writeTime
    case IopsInProgress => d.iopsInProgress
    case IoTime => d.ioTime
  }

  /** One pass of the accumulation loop: `total.X += ioCount.X` for every summed field. */
  function AddDisk(acc: DiskStat, d: DiskStat): (r: DiskStat)
    ensures forall f :: DiskGet(r, f) == AddU64(DiskGet(acc, f), DiskGet(d, f))
  {
    DiskStat(
      AddU64(acc.readCount, d.readCount), AddU64(acc.writeCount, d.writeCount),
      AddU64(acc.readBytes, d.readBytes), AddU64(acc.writeBytes, d.writeBytes),
      AddU64(acc.readTime, d.readTime), AddU64(acc.writeTime, d.writeTime),
      AddU64(acc.iopsInProgress, d.iopsInProgress), AddU64(acc.ioTime, d.ioTime))
  }

  /** No key repeats in `order`. */
  predicate NoDup(order: seq<string>)
  {
    forall i, j :: 0 <= i < j < |order| ==> order[i] != order[j]
  }

  /** `order` lists every key of a map exactly once: the order in which a Go
      `range` over that map happens to visit it. */
  ghost predicate IsEnumeration(order: seq<string>, keys: set<string>)
  {
    NoDup(order) && forall k :: k in order <==> k in keys
  }

  /** The result of the loop that sums the disk map, visiting the keys in `order`. */
  function DiskTotalIn(m: map<string, DiskStat>, order: seq<string>): DiskStat
    requires forall k :: k in order ==> k in m
  {
    if order == [] then ZeroDisk
    else
      var n := |order| - 1;
      AddDisk(DiskTotalIn(m, order[..n]), m[order[n]])
  }

  /** The mathematical sum of one field over the disks of `m` named in `keys`. */
  ghost function DiskSum(m: map<string, DiskStat>, keys: set<string>, f: DiskField): nat
    requires keys <= m.Keys
  {
    if keys == {} then 0
    else
      var k :| k in keys;
      DiskGet(m[k], f) + DiskSum(m, keys - {k}, f)
  }

  /** The total the source means: every field summed over all disks, modulo 2^64. */
  ghost function DiskMapTotal(m: map<string, DiskStat>): DiskStat
  {
    DiskStat(
      DiskSum(m, m.Keys, ReadCount) % TWO_64, DiskSum(m, m.Keys, WriteCount) % TWO_64,
      DiskSum(m, m.Keys, ReadBytes) % TWO_64, DiskSum(m, m.Keys, WriteBytes) % TWO_64,
      DiskSum(m, m.Keys, ReadTime) % TWO_64, DiskSum(m, m.Keys, WriteTime) % TWO_64,
      DiskSum(m, m.Keys, IopsInProgress) % TWO_64, DiskSum(m, m.Keys, IoTime) % TWO_64)
  }

  /** Any key may be taken out of the sum first. */
  lemma {:induction false} DiskSumRemove(m: map<string, DiskStat>, keys: set<string>, k: string, f: DiskField)
    requires keys <= m.Keys && k in keys
    ensures DiskSum(m, keys, f) == DiskGet(m[k], f) + DiskSum(m, keys - {k}, f)
    decreases keys
  {
    var j :| j in keys && DiskSum(m, keys, f) == DiskGet(m[j], f) + DiskSum(m, keys - {j}, f);
    if j != k {
      DiskSumRemove(m, keys - {j}, k, f);
      DiskSumRemove(m, keys - {k}, j, f);
      assert keys - {j} - {k} == keys - {k} - {j};
    }
  }

  /** The set of keys listed in `order`. */
  ghost function KeySet(order: seq<string>): set<string>
  {
    set k | k in order
  }

  lemma LastKeyRemoved(order: seq<string>)
    requires NoDup(order) && order != []
    ensures NoDup(order[..|order| - 1])
    ensures KeySet(order) - {order[|order| - 1]} == KeySet(order[..|order| - 1])
  {
    var n := |order| - 1;
    assert order == order[..n] + [order[n]];
  }

  lemma {:induction false} DiskTotalInField(m: map<string, DiskStat>, order: seq<string>, f: DiskField)
    requires NoDup(order) && forall k :: k in order ==> k in m
    ensures DiskGet(DiskTotalIn(m, order), f) == DiskSum(m, KeySet(order), f) % TWO_64
  {
    if order == [] {
      assert KeySet(order) == {};
    } else {
      var n := |order| - 1;
      var k := order[n];
      LastKeyRemoved(order);
      DiskTotalInField(m, order[..n], f);
      var before := DiskSum(m, KeySet(order[..n]), f);
      DiskSumRemove(m, KeySet(order), k, f);
      assert DiskSum(m, KeySet(order), f) == DiskGet(m[k], f) + before;
      AddU64OfReduced(before, DiskGet(m[k], f));
    }
  }

  /** Whatever order the map iteration takes, the accumulation loop ends with
      every field equal to that field summed over all disks, modulo 2^64. */
  lemma DiskTotalIsFieldwiseSum(m: map<string, DiskStat>, order: seq<string>)
    requires IsEnumeration(order, m.Keys)
    ensures DiskTotalIn(m, order) == DiskMapTotal(m)
  {
    assert KeySet(order) == m.Keys;
    var t := DiskTotalIn(m, order);
    DiskTotalInField(m, order, ReadCount);
    DiskTotalInField(m, order, WriteCount);
    DiskTotalInField(m, order, ReadBytes);
    DiskTotalInField(m, order, WriteBytes);
    DiskTotalInField(m, order, ReadTime);
    DiskTotalInField(m, order, WriteTime);
    DiskTotalInField(m, order, IopsInProgress);
    DiskTotalInField(m, order, IoTime);
  }

  /** The accumulation loop of the disk collector (`for _, ioCount := range
      allIoCounters`), visiting the keys in the order the runtime chose. */
  method SumDisks(m: map<string, DiskStat>, order: seq<string>) returns (total: DiskStat)
    requires IsEnumeration(order, m.Keys)
    ensures total == DiskMapTotal(m)
  {
    total := ZeroDisk;
    var i := 0;
    while i < |order|
      invariant 0 <= i <= |order|
      invariant total == DiskTotalIn(m, order[..i])
    {
      assert order[..i + 1][..i] == order[..i];
      total := AddDisk(total, m[order[i]]);
      i := i + 1;
    }
    assert order[..i] == order;
    DiskTotalIsFieldwiseSum(m, order);
  }

  /** One interface's entry of `net.IOCounters(true)`. */
  datatype NetStat = NetStat(
    name: string,
    bytesSent: U64, bytesRecv: U64, packetsSent: U64, packetsRecv: U64,
    errin: U64, errout: U64, dropin: U64, dropout: U64, fifoin: U64, fifoout: U64)

  const ZeroNet := NetStat("", 0, 0, 0, 0, 0, 0, 0, 0, 0, 0)

  datatype NetField = BytesSent | BytesRecv | PacketsSent | PacketsRecv
                    | Errin | Errout | Dropin | Dropout | Fifoin | Fifoout

  function NetGet(s: NetStat, f: NetField): U64
  {
    match f
    case BytesSent => s.bytesSent
    case BytesRecv => s.bytesRecv
    case PacketsSent => s.packetsSent
    case PacketsRecv => s.packetsRecv
    case Errin => s.errin
    case Errout => s.errout
    case Dropin => s.dropin
    case Dropout => s.dropout
    case Fifoin => s.fifoin
    case Fifoout => s.fifoout
  }

  /** One pass of the interface accumulation loop; the total keeps its empty name. */
  function AddNet(acc: NetStat, s: NetStat): (r: NetStat)
    ensures r.name == acc.name
    ensures forall f :: NetGet(r, f) == AddU64(NetGet(acc, f), NetGet(s, f))
  {
    NetStat(acc.name,
      AddU64(acc.bytesSent, s.bytesSent), AddU64(acc.bytesRecv, s.bytesRecv),
      AddU64(acc.packetsSent, s.packetsSent), AddU64(acc.packetsRecv, s.packetsRecv),
      AddU64(acc.errin, s.errin), AddU64(acc.errout, s.errout),
      AddU64(acc.dropin, s.dropin), AddU64(acc.dropout, s.dropout),
      AddU64(acc.fifoin, s.fifoin), AddU64(acc.fifoout, s.fifoout))
  }

  /** The result of the interface accumulation loop over `all`, in list order. */
  function NetTotal(all: seq<NetStat>): NetStat
  {
    if all == [] then ZeroNet
    else AddNet(NetTotal(all[..|all| - 1]), all[|all| - 1])
  }

  /** The mathematical sum of one field over a list of interfaces. */
  function NetFieldSum(all: seq<NetStat>, f: NetField): nat
  {
    if all == [] then 0
    else NetFieldSum(all[..|all| - 1], f) + NetGet(all[|all| - 1], f)
  }

  /** The interface total has an empty name and every field equal to that
      field summed over all interfaces, modulo 2^64. */
  lemma {:induction false} NetTotalIsFieldwiseSum(all: seq<NetStat>, f: NetField)
    ensures NetTotal(all).name == ""
    ensures NetGet(NetTotal(all), f) == NetFieldSum(all, f) % TWO_64
  {
    if all != [] {
      var n := |all| - 1;
      NetTotalIsFieldwiseSum(all[..n], f);
      AddU64OfReduced(NetFieldSum(all[..n], f), NetGet(all[n], f));
    }
  }

  /** The accumulation loop of the network collector. */
  method SumNets(all: seq<NetStat>) returns (total: NetStat)
    ensures total == NetTotal(all)
  {
    total := ZeroNet;
    var i := 0;
    while i < |all|
      invariant 0 <= i <= |all|
      invariant total == NetTotal(all[..i])
    {
      assert all[..i + 1][..i] == all[..i];
      total := AddNet(total, all[i]);
      i := i + 1;
    }
    assert all[..i] == all;
  }

  /** One protocol's entry of `net.ProtoCounters`: its name and its int64 counters. */
  datatype ProtoStat = ProtoStat(protocol: string, stats: map<string, I64>)

  /** Go's map read: a counter the provider did not report reads as 0. */
  function Counter(p: ProtoStat, field: string): (r: I64)
    ensures field !in p.stats ==> r == 0
    ensures field in p.stats ==> r == p.stats[field]
  {
    if field in p.stats then p.stats[field] else 0
  }

  /** The aggregate entry of `cpu.Times(false)`, in seconds. */
  datatype CpuTimes = CpuTimes(
    user: real, system: real, idle: real, nice: real, iowait: real,
    irq: real, softirq: real, steal: real, guest: real, guestNice: real)

  const ZeroCpu := CpuTimes(0.0, 0.0, 0.0, 0.0, 0.0, 0.0, 0.0, 0.0, 0.0, 0.0)

  /** `mem.VirtualMemory()`, the fields the sampler reports. */
  datatype VirtualMemory = VirtualMemory(
    total: U64, available: U64, used: U64, usedPercent: real, free: U64, cached: U64)

  /** `mem.SwapMemory()`, the field the sampler reports. */
  datatype SwapMemory = SwapMemory(usedPercent: real)

  /** `load.Avg()`. */
  datatype LoadAvg = LoadAvg(load1: real, load5: real, load15: real)

  /** `host.Info()`, the field the sampler reports. */
  datatype HostInfo = HostInfo(bootTime: U64)
}
