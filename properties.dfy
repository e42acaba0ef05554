/** What the sampler promises about the metrics of one cycle: which devices
    get metrics, when a delta is computed at all, and the edge-case rules
    (NaN latency, omitted or zero ratios, no utilisation for `total`). */
module Properties {
  import opened Machine
  import opened Labels
  import opened Counters
  import opened Formulas
  import opened Engine

  // ------------------------------------------------------- one disk, one interface

  /** The rate of a counter that grew from `last` to `now` is the plain delta per second. */
  lemma RateOfGrowth(now: U64, last: U64, dt: real)
    requires dt > 0.0 && last <= now
    ensures Rate(SubU64(now, last), dt) == Num((now - last) as real / dt)
  {
    assert SubU64(now, last) == now - last;
  }

  /** With a grown operation count the latency is the time delta per operation. */
  lemma LatencyOfGrowth(nowTime: U64, lastTime: U64, nowCount: U64, lastCount: U64)
    requires lastTime <= nowTime && lastCount <= nowCount
    ensures Latency(SubU64(nowTime, lastTime), SubU64(nowCount, lastCount)) ==
            if nowCount == lastCount then NaN else Num((nowTime - lastTime) as real / (nowCount - lastCount) as real)
  {
    assert SubU64(nowTime, lastTime) == nowTime - lastTime;
    assert SubU64(nowCount, lastCount) == nowCount - lastCount;
  }

  /** A sample holding the rate of a counter that grew is emitted with the
      plain delta per second. */
  lemma GrowingRateEmitted(ss: seq<Sample>, labels: LabelSet, t: int, i: nat, n: MetricName,
                           now: U64, last: U64, dt: real)
    requires i < |ss| && ss[i] == Sample(n, Rate(SubU64(now, last), dt))
    requires dt > 0.0 && last <= now
    ensures HasValue(Tag(ss, labels, t), n, Num((now - last) as real / dt))
  {
    RateOfGrowth(now, last, dt);
    TagHasValue(ss, labels, t, i, Sample(n, Num((now - last) as real / dt)));
  }

  /** `disk_rbps` of a disk whose read-byte counter grew: bytes read per second. */
  lemma DiskRbpsOfGrowth(name: string, dt: real, last: DiskStat, now: DiskStat, common: LabelSet, t: int)
    requires dt > 0.0 && last.readBytes <= now.readBytes
    ensures HasValue(DiskMetrics(name, dt, last, now, common, t), DiskRbps, Num((now.readBytes - last.readBytes) as real / dt))
  {
    GrowingRateEmitted(DiskSamples(name, dt, last, now), DeviceLabels(common, DISK_LABEL, name), t, 0, DiskRbps, now.readBytes, last.readBytes, dt);
  }

  /** `disk_wbps`: bytes written per second. */
  lemma DiskWbpsOfGrowth(name: string, dt: real, last: DiskStat, now: DiskStat, common: LabelSet, t: int)
    requires dt > 0.0 && last.writeBytes <= now.writeBytes
    ensures HasValue(DiskMetrics(name, dt, last, now, common, t), DiskWbps, Num((now.writeBytes - last.writeBytes) as real / dt))
  {
    GrowingRateEmitted(DiskSamples(name, dt, last, now), DeviceLabels(common, DISK_LABEL, name), t, 1, DiskWbps, now.writeBytes, last.writeBytes, dt);
  }

  /** `disk_riops`: reads completed per second. */
  lemma DiskRiopsOfGrowth(name: string, dt: real, last: DiskStat, now: DiskStat, common: LabelSet, t: int)
    requires dt > 0.0 && last.readCount <= now.readCount
    ensures HasValue(DiskMetrics(name, dt, last, now, common, t), DiskRiops, Num((now.readCount - last.readCount) as real / dt))
  {
    GrowingRateEmitted(DiskSamples(name, dt, last, now), DeviceLabels(common, DISK_LABEL, name), t, 2, DiskRiops, now.readCount, last.readCount, dt);
  }

  /** `disk_wiops`: writes completed per second. */
  lemma DiskWiopsOfGrowth(name: string, dt: real, last: DiskStat, now: DiskStat, common: LabelSet, t: int)
    requires dt > 0.0 && last.writeCount <= now.writeCount
    ensures HasValue(DiskMetrics(name, dt, last, now, common, t), DiskWiops, Num((now.writeCount - last.writeCount) as real / dt))
  {
    GrowingRateEmitted(DiskSamples(name, dt, last, now), DeviceLabels(common, DISK_LABEL, name), t, 3, DiskWiops, now.writeCount, last.writeCount, dt);
  }

  /** With growing counters each latency is NaN exactly when no operation of
      its kind completed, otherwise the time spent per operation. */
  lemma DiskLatenciesOfGrowingCounters(name: string, dt: real, last: DiskStat, now: DiskStat, common: LabelSet, t: int)
    ensures last.readCount <= now.readCount && last.readTime <= now.readTime ==>
              HasValue(DiskMetrics(name, dt, last, now, common, t), DiskRlatency,
                       if now.readCount == last.readCount then NaN
                       else Num((now.readTime - last.readTime) as real / (now.readCount - last.readCount) as real))
    ensures last.writeCount <= now.writeCount && last.writeTime <= now.writeTime ==>
              HasValue(DiskMetrics(name, dt, last, now, common, t), DiskWlatency,
                       if now.writeCount == last.writeCount then NaN
                       else Num((now.writeTime - last.writeTime) as real / (now.writeCount - last.writeCount) as real))
  {
    var ss := DiskSamples(name, dt, last, now);
    var labels := DeviceLabels(common, DISK_LABEL, name);
    if last.readCount <= now.readCount && last.readTime <= now.readTime {
      LatencyOfGrowth(now.readTime, last.readTime, now.readCount, last.readCount);
      TagHasValue(ss, labels, t, 4,
                  Sample(DiskRlatency, if now.readCount == last.readCount then NaN
                                       else Num((now.readTime - last.readTime) as real / (now.readCount - last.readCount) as real)));
    }
    if last.writeCount <= now.writeCount && last.writeTime <= now.writeTime {
      LatencyOfGrowth(now.writeTime, last.writeTime, now.writeCount, last.writeCount);
      TagHasValue(ss, labels, t, 5,
                  Sample(DiskWlatency, if now.writeCount == last.writeCount then NaN
                                       else Num((now.writeTime - last.writeTime) as real / (now.writeCount - last.writeCount) as real)));
    }
  }

  /** The rate of a counter that went down from `last` to `now`: the uint64
      delta wraps, so the rate is positive. */
  lemma RateAfterWrap(now: U64, last: U64, dt: real)
    requires dt > 0.0 && now < last
    ensures Rate(SubU64(now, last), dt) == Num((TWO_64 - (last - now)) as real / dt)
    ensures (TWO_64 - (last - now)) as real / dt > 0.0
  {
    var x := (TWO_64 - (last - now)) as real;
    assert SubU64(now, last) as real == x;
    var q := x / dt;
    assert q * dt == x;
  }

  /** A counter that went down (a replaced device, a reset) does not give a
      negative rate: the uint64 subtraction wraps, so the rate is huge and positive. */
  lemma DiskRateAfterCounterReset(name: string, dt: real, last: DiskStat, now: DiskStat, common: LabelSet, t: int)
    requires dt > 0.0 && now.readBytes < last.readBytes
    ensures HasValue(DiskMetrics(name, dt, last, now, common, t), DiskRbps,
                     Num((TWO_64 - (last.readBytes - now.readBytes)) as real / dt))
    ensures (TWO_64 - (last.readBytes - now.readBytes)) as real / dt > 0.0
  {
    RateAfterWrap(now.readBytes, last.readBytes, dt);
    TagHasValue(DiskSamples(name, dt, last, now), DeviceLabels(common, DISK_LABEL, name), t, 0,
                Sample(DiskRbps, Num((TWO_64 - (last.readBytes - now.readBytes)) as real / dt)));
  }

  /** The busy-time quotient `collectOneDisk` divides by the elapsed seconds. */
  lemma UtilOfGrowth(now: U64, last: U64, dt: real)
    requires dt > 0.0 && last <= now
    ensures Quotient(SubU64(now, last) as real * 100.0 / 1000.0, dt) == Num((now - last) as real * 100.0 / 1000.0 / dt)
  {
    assert SubU64(now, last) == now - last;
  }

  /** `disk_util` is the busy time's share of the elapsed time, in percent,
      for every disk but `total`. */
  lemma DiskUtilOfGrowth(name: string, dt: real, last: DiskStat, now: DiskStat, common: LabelSet, t: int)
    requires name != TOTAL && dt > 0.0 && last.ioTime <= now.ioTime
    ensures HasValue(DiskMetrics(name, dt, last, now, common, t), DiskUtil,
                     Num((now.ioTime - last.ioTime) as real * 100.0 / 1000.0 / dt))
  {
    UtilOfGrowth(now.ioTime, last.ioTime, dt);
    TagHasValue(DiskSamples(name, dt, last, now), DeviceLabels(common, DISK_LABEL, name), t, 6,
                Sample(DiskUtil, Num((now.ioTime - last.ioTime) as real * 100.0 / 1000.0 / dt)));
  }

  /** The `total` disk has no `disk_util`. */
  lemma DiskUtilOmittedForTotal(dt: real, last: DiskStat, now: DiskStat, common: LabelSet, t: int)
    ensures !Has(DiskMetrics(TOTAL, dt, last, now, common, t), DiskUtil)
  {
    TagHas(DiskSamples(TOTAL, dt, last, now), DeviceLabels(common, DISK_LABEL, TOTAL), t, DiskUtil);
  }

  /** Without packets moving, `net_drop_util` and `net_err_util` are left
      out, never set to 0 or NaN. */
  lemma NetRatiosOmittedWhenIdle(name: string, dt: real, last: NetStat, now: NetStat, common: LabelSet, t: int)
    requires PacketDelta(last, now) == 0
    ensures !Has(NetMetrics(name, dt, last, now, common, t), NetDropUtil)
    ensures !Has(NetMetrics(name, dt, last, now, common, t), NetErrUtil)
  {
    var ss := NetSamples(dt, last, now);
    var labels := DeviceLabels(common, INTERFACE_LABEL, name);
    TagHas(ss, labels, t, NetDropUtil);
    TagHas(ss, labels, t, NetErrUtil);
  }

  /** When packets moved, both ratios are emitted, as the drop and error
      deltas in percent of the packet delta. */
  lemma NetRatioValues(name: string, dt: real, last: NetStat, now: NetStat, common: LabelSet, t: int)
    requires PacketDelta(last, now) != 0
    ensures HasValue(NetMetrics(name, dt, last, now, common, t), NetDropUtil,
                     Num(100.0 * DropDelta(last, now) as real / PacketDelta(last, now) as real))
    ensures HasValue(NetMetrics(name, dt, last, now, common, t), NetErrUtil,
                     Num(100.0 * ErrDelta(last, now) as real / PacketDelta(last, now) as real))
  {
    var ss := NetSamples(dt, last, now);
    var labels := DeviceLabels(common, INTERFACE_LABEL, name);
    TagHasValue(ss, labels, t, 4, Sample(NetDropUtil, Num(100.0 * DropDelta(last, now) as real / PacketDelta(last, now) as real)));
    TagHasValue(ss, labels, t, 5, Sample(NetErrUtil, Num(100.0 * ErrDelta(last, now) as real / PacketDelta(last, now) as real)));
  }

  /** `net_in` of an interface whose received-byte counter grew: bytes received per second. */
  lemma NetInOfGrowth(name: string, dt: real, last: NetStat, now: NetStat, common: LabelSet, t: int)
    requires dt > 0.0 && last.bytesRecv <= now.bytesRecv
    ensures HasValue(NetMetrics(name, dt, last, now, common, t), NetIn, Num((now.bytesRecv - last.bytesRecv) as real / dt))
  {
    GrowingRateEmitted(NetSamples(dt, last, now), DeviceLabels(common, INTERFACE_LABEL, name), t, 0, NetIn, now.bytesRecv, last.bytesRecv, dt);
  }

  /** `net_out`: bytes sent per second. */
  lemma NetOutOfGrowth(name: string, dt: real, last: NetStat, now: NetStat, common: LabelSet, t: int)
    requires dt > 0.0 && last.bytesSent <= now.bytesSent
    ensures HasValue(NetMetrics(name, dt, last, now, common, t), NetOut, Num((now.bytesSent - last.bytesSent) as real / dt))
  {
    GrowingRateEmitted(NetSamples(dt, last, now), DeviceLabels(common, INTERFACE_LABEL, name), t, 1, NetOut, now.bytesSent, last.bytesSent, dt);
  }

  /** `net_in_pkt`: packets received per second. */
  lemma NetInPktOfGrowth(name: string, dt: real, last: NetStat, now: NetStat, common: LabelSet, t: int)
    requires dt > 0.0 && last.packetsRecv <= now.packetsRecv
    ensures HasValue(NetMetrics(name, dt, last, now, common, t), NetInPkt, Num((now.packetsRecv - last.packetsRecv) as real / dt))
  {
    GrowingRateEmitted(NetSamples(dt, last, now), DeviceLabels(common, INTERFACE_LABEL, name), t, 2, NetInPkt, now.packetsRecv, last.packetsRecv, dt);
  }

  /** `net_out_pkt`: packets sent per second. */
  lemma NetOutPktOfGrowth(name: string, dt: real, last: NetStat, now: NetStat, common: LabelSet, t: int)
    requires dt > 0.0 && last.packetsSent <= now.packetsSent
    ensures HasValue(NetMetrics(name, dt, last, now, common, t), NetOutPkt, Num((now.packetsSent - last.packetsSent) as real / dt))
  {
    GrowingRateEmitted(NetSamples(dt, last, now), DeviceLabels(common, INTERFACE_LABEL, name), t, 3, NetOutPkt, now.packetsSent, last.packetsSent, dt);
  }

  /** With growing counters and no overflow the uint64 deltas of the ratio
      formulas are the plain ones. */
  lemma NetDeltasOfGrowingCounters(last: NetStat, now: NetStat)
    requires last.packetsSent <= now.packetsSent && last.packetsRecv <= now.packetsRecv
    requires last.dropin <= now.dropin && last.dropout <= now.dropout
    requires (now.packetsSent - last.packetsSent) + (now.packetsRecv - last.packetsRecv) < TWO_64
    requires (now.dropin - last.dropin) + (now.dropout - last.dropout) < TWO_64
    ensures PacketDelta(last, now) == (now.packetsSent - last.packetsSent) + (now.packetsRecv - last.packetsRecv)
    ensures DropDelta(last, now) == (now.dropin - last.dropin) + (now.dropout - last.dropout)
  {
    assert SubU64(now.packetsSent, last.packetsSent) == now.packetsSent - last.packetsSent;
    assert SubU64(now.packetsRecv, last.packetsRecv) == now.packetsRecv - last.packetsRecv;
    assert SubU64(now.dropin, last.dropin) == now.dropin - last.dropin;
    assert SubU64(now.dropout, last.dropout) == now.dropout - last.dropout;
  }

  /** `protocol_tcp_retran_util` is 0 when no segment was sent (the delta is
      not positive), otherwise 100 * retransmitted / sent; never NaN. */
  lemma TcpRetranRule(last: ProtoStat, now: ProtoStat, common: LabelSet, t: int)
    ensures TcpDelta(last, now, OUT_SEGS) <= 0 ==>
              HasValue(TcpMetrics(last, now, common, t), TcpRetranUtil, Num(0.0))
    ensures TcpDelta(last, now, OUT_SEGS) > 0 ==>
              HasValue(TcpMetrics(last, now, common, t), TcpRetranUtil,
                       Num(100.0 * TcpDelta(last, now, RETRANS_SEGS) as real / TcpDelta(last, now, OUT_SEGS) as real))
  {
    var dRetrans, dOut := TcpDelta(last, now, RETRANS_SEGS), TcpDelta(last, now, OUT_SEGS);
    TagHasValue(TcpSamples(last, now), common, t, 3,
                Sample(TcpRetranUtil, if dOut <= 0 then Num(0.0) else Num(100.0 * dRetrans as real / dOut as real)));
  }

  /** The other three TCP metrics are the plain int64 deltas of the counters. */
  lemma TcpCounterDeltas(last: ProtoStat, now: ProtoStat, common: LabelSet, t: int)
    ensures HasValue(TcpMetrics(last, now, common, t), TcpOutsegs, Num(TcpDelta(last, now, OUT_SEGS) as real))
    ensures HasValue(TcpMetrics(last, now, common, t), TcpInsegs, Num(TcpDelta(last, now, IN_SEGS) as real))
    ensures HasValue(TcpMetrics(last, now, common, t), TcpRetranSegs, Num(TcpDelta(last, now, RETRANS_SEGS) as real))
  {
    var ss := TcpSamples(last, now);
    TagHasValue(ss, common, t, 0, Sample(TcpOutsegs, Num(TcpDelta(last, now, OUT_SEGS) as real)));
    TagHasValue(ss, common, t, 1, Sample(TcpInsegs, Num(TcpDelta(last, now, IN_SEGS) as real)));
    TagHasValue(ss, common, t, 2, Sample(TcpRetranSegs, Num(TcpDelta(last, now, RETRANS_SEGS) as real)));
  }

  // ------------------------------------------------------- CPU

  /** A bucket's share times the total change is 100 times the bucket's
      change times the factor. */
  lemma CpuShareScales(delta: real, deltaTotal: real, factor: real)
    requires deltaTotal > 0.0
    ensures CpuShare(delta, deltaTotal, factor) * deltaTotal == 100.0 * delta * factor
  {
    var q := 100.0 * delta / deltaTotal;
    assert q * deltaTotal == 100.0 * delta;
  }

  /** A valid request gives the factor that turns the requested cores into
      the machine's core count. */
  lemma ShareFactorScales(ncpus: I32, request: CpuRequest)
    requires request.Millicores? && request.n > 0 && ncpus != 0
    ensures ShareFactor(ncpus, request) * (request.n as real / 1000.0) == ncpus as real
  {
  }

  /** The utilisation metrics carry the busy, iowait and steal shares. */
  lemma CpuUtilValues(u: CpuUtilisation, common: LabelSet, t: int)
    ensures HasValue(CpuUtilMetrics(u, common, t), CpuUtil, Num(u.busy))
    ensures HasValue(CpuUtilMetrics(u, common, t), CpuWaitUtil, Num(u.wait))
    ensures HasValue(CpuUtilMetrics(u, common, t), CpuStealUtil, Num(u.steal))
  {
    TagHasValue(CpuSamples(u), common, t, 0, Sample(CpuUtil, Num(u.busy)));
    TagHasValue(CpuSamples(u), common, t, 1, Sample(CpuWaitUtil, Num(u.wait)));
    TagHasValue(CpuSamples(u), common, t, 7, Sample(CpuStealUtil, Num(u.steal)));
  }

  /** When `CollectCPU` emits utilisation, the ten metrics after `cpu_count`
      are, in order, the change of busy time since the stored busy time and
      the change of each bucket since the stored sample, each in percent of
      the change of total time since the stored total, times the share factor. */
  lemma CpuCycleShares(percent: bool, b: CpuBaseline, times: Option<seq<CpuTimes>>, ncpus: I32, request: CpuRequest,
                       common: LabelSet, t: int)
    requires CpuDeltaReady(percent, b, times)
    ensures var ms := CpuCycleMetrics(percent, b, times, ncpus, request, common, t);
            var c, f := times.value[0], ShareFactor(ncpus, request);
            var d := Total(c) - b.total;
            && ms[1] == Metric(CpuUtil, common, t, Num(CpuShare(Busy(c) - b.busy, d, f)))
            && ms[2] == Metric(CpuWaitUtil, common, t, Num(CpuShare(c.iowait - b.stat.iowait, d, f)))
            && ms[3] == Metric(CpuSysUtil, common, t, Num(CpuShare(c.system - b.stat.system, d, f)))
            && ms[4] == Metric(CpuUserUtil, common, t, Num(CpuShare(c.user - b.stat.user, d, f)))
            && ms[5] == Metric(CpuIrqUtil, common, t, Num(CpuShare(c.irq - b.stat.irq, d, f)))
            && ms[6] == Metric(CpuSoftirqUtil, common, t, Num(CpuShare(c.softirq - b.stat.softirq, d, f)))
            && ms[7] == Metric(CpuNiceUtil, common, t, Num(CpuShare(c.nice - b.stat.nice, d, f)))
            && ms[8] == Metric(CpuStealUtil, common, t, Num(CpuShare(c.steal - b.stat.steal, d, f)))
            && ms[9] == Metric(CpuGuestUtil, common, t, Num(CpuShare(c.guest - b.stat.guest, d, f)))
            && ms[10] == Metric(CpuGuestniceUtil, common, t, Num(CpuShare(c.guestNice - b.stat.guestNice, d, f)))
  {
  }

  /** Shares of the same total change add up like the changes themselves. */
  lemma SharesAdd(a: real, b: real, d: real, factor: real)
    requires d > 0.0
    ensures CpuShare(a, d, factor) + CpuShare(b, d, factor) == CpuShare(a + b, d, factor)
  {
    var x, y, z := CpuShare(a, d, factor), CpuShare(b, d, factor), CpuShare(a + b, d, factor);
    CpuShareScales(a, d, factor);
    CpuShareScales(b, d, factor);
    CpuShareScales(a + b, d, factor);
    assert (x + y) * d == z * d;
    assert x + y == z by {
      assert (x + y - z) * d == 0.0;
    }
  }

  /** The seven busy buckets (system, user, irq, softirq, nice, guest,
      guest-nice) add up to `cpu_util` when the stored busy time is that of
      the stored sample. Steal and iowait are not part of busy time. */
  lemma CpuBusyBucketsAddUp(now: CpuTimes, lastStat: CpuTimes, lastTotal: real, factor: real)
    requires Total(now) - lastTotal > 0.0
    ensures var u := Utilisation(now, lastStat, Busy(lastStat), lastTotal, factor);
            u.sys + u.user + u.irq + u.softirq + u.nice + u.guest + u.guestNice == u.busy
  {
    var d := Total(now) - lastTotal;
    var sys, user := now.system - lastStat.system, now.user - lastStat.user;
    var irq, soft := now.irq - lastStat.irq, now.softirq - lastStat.softirq;
    var nice, guest, gn := now.nice - lastStat.nice, now.guest - lastStat.guest, now.guestNice - lastStat.guestNice;
    SharesAdd(sys, user, d, factor);
    SharesAdd(sys + user, irq, d, factor);
    SharesAdd(sys + user + irq, soft, d, factor);
    SharesAdd(sys + user + irq + soft, nice, d, factor);
    SharesAdd(sys + user + irq + soft + nice, guest, d, factor);
    SharesAdd(sys + user + irq + soft + nice + guest, gn, d, factor);
    assert sys + user + irq + soft + nice + guest + gn == Busy(now) - Busy(lastStat);
  }

  /** Busy, iowait, steal and idle shares together are 100 times the share
      factor: the buckets split the whole change of CPU time. */
  lemma CpuSharesCoverTotal(now: CpuTimes, lastStat: CpuTimes, factor: real)
    requires Total(now) - Total(lastStat) > 0.0
    ensures var u := Utilisation(now, lastStat, Busy(lastStat), Total(lastStat), factor);
            u.busy + u.wait + u.steal + CpuShare(now.idle - lastStat.idle, Total(now) - Total(lastStat), factor)
              == 100.0 * factor
  {
    var d := Total(now) - Total(lastStat);
    var busy, wait := Busy(now) - Busy(lastStat), now.iowait - lastStat.iowait;
    var steal, idle := now.steal - lastStat.steal, now.idle - lastStat.idle;
    SharesAdd(busy, wait, d, factor);
    SharesAdd(busy + wait, steal, d, factor);
    SharesAdd(busy + wait + steal, idle, d, factor);
    assert busy + wait + steal + idle == d;
    var whole := CpuShare(d, d, factor);
    CpuShareScales(d, d, factor);
    assert whole == 100.0 * factor by {
      assert (whole - 100.0 * factor) * d == 0.0;
    }
  }

  // ------------------------------------------------------- memory

  /** A successful virtual-memory query gives `mem_util` as its used percentage. */
  lemma MemUtilValue(vm: Option<VirtualMemory>, swap: Option<SwapMemory>, common: LabelSet, t: int)
    requires vm.Some?
    ensures HasValue(MemMetrics(vm, swap, common, t), MemUtil, Num(vm.value.usedPercent))
  {
    TagHasValue(MemSamples(vm, swap), common, t, 0, Sample(MemUtil, Num(vm.value.usedPercent)));
  }

  /** `mem_swap_util` is emitted exactly when the swap query succeeds, as its
      used percentage. */
  lemma MemSwapRule(vm: Option<VirtualMemory>, swap: Option<SwapMemory>, common: LabelSet, t: int)
    ensures swap.None? ==> !Has(MemMetrics(vm, swap, common, t), MemSwapUtil)
    ensures swap.Some? ==> HasValue(MemMetrics(vm, swap, common, t), MemSwapUtil, Num(swap.value.usedPercent))
  {
    var ss := MemSamples(vm, swap);
    if swap.None? {
      TagHas(ss, common, t, MemSwapUtil);
    } else {
      TagHasValue(ss, common, t, |ss| - 1, Sample(MemSwapUtil, Num(swap.value.usedPercent)));
    }
  }

  /** The int32 core count is the plain sum when the real count fits in int32. */
  lemma {:induction false} CoreCountExact(cores: seq<I32>)
    requires forall i :: 0 <= i < |cores| ==> cores[i] >= 0
    requires CoreSum(cores) < TWO_31
    ensures CoreCount(cores) == CoreSum(cores)
  {
    if cores != [] {
      var n := |cores| - 1;
      assert CoreSum(cores) == CoreSum(cores[..n]) + cores[n];
      CoreSumNonNegative(cores[..n]);
      CoreCountExact(cores[..n]);
    }
  }

  lemma {:induction false} CoreSumNonNegative(cores: seq<I32>)
    requires forall i :: 0 <= i < |cores| ==> cores[i] >= 0
    ensures CoreSum(cores) >= 0
  {
    if cores != [] {
      CoreSumNonNegative(cores[..|cores| - 1]);
    }
  }

  // ------------------------------------------------------- one disk cycle

  /** Without a baseline a disk cycle emits nothing; with one it emits at
      least the metrics of the `total` device. */
  lemma DiskFirstObservation(b: DiskBaseline, cur: map<string, DiskStat>, order: seq<string>, now: int, common: LabelSet, t: int)
    requires IsEnumeration(order, cur.Keys)
    ensures DiskCycleMetrics(b, cur, order, now, common, t) == [] <==> b.time.None?
  {
    if b.time.Some? {
      var dt := ElapsedSeconds(b.time.value, now);
      assert |DiskMetrics(TOTAL, dt, b.total, DiskMapTotal(cur), common, t)| == 6;
    }
  }

  /** No per-disk metric for a key the loop does not visit or the previous map lacks. */
  lemma {:induction false} MatchedDisksSilentFor(prev: map<string, DiskStat>, cur: map<string, DiskStat>, order: seq<string>,
                                                 dt: real, common: LabelSet, t: int, k: string)
    requires forall j :: j in order ==> j in cur
    requires k !in prev || k !in order
    ensures forall m :: m in MatchedDisks(prev, cur, order, dt, common, t) ==> m.labels != DeviceLabels(common, DISK_LABEL, k)
  {
    if order != [] {
      var n := |order| - 1;
      var j := order[n];
      assert order == order[..n] + [j];
      MatchedDisksSilentFor(prev, cur, order[..n], dt, common, t, k);
      if j in prev {
        var block := DiskMetrics(j, dt, prev[j], cur[j], common, t);
        assert j != k;
        DeviceLabelsInjective(common, DISK_LABEL, j, k);
        forall m | m in block ensures m.labels != DeviceLabels(common, DISK_LABEL, k) {
          var i :| 0 <= i < |block| && block[i] == m;
        }
      }
    }
  }

  /** Per-disk metrics need the same key in the previous map: a disk that is
      new, or gone, gets no metric this cycle (the `total` device aside). */
  lemma DiskCycleSilentForUnmatchedDisk(b: DiskBaseline, cur: map<string, DiskStat>, order: seq<string>,
                                        now: int, common: LabelSet, t: int, k: string)
    requires IsEnumeration(order, cur.Keys)
    requires k != TOTAL && (k !in b.all || k !in cur)
    ensures forall m :: m in DiskCycleMetrics(b, cur, order, now, common, t) ==> m.labels != DeviceLabels(common, DISK_LABEL, k)
  {
    if b.time.Some? {
      var dt := ElapsedSeconds(b.time.value, now);
      var total := DiskMetrics(TOTAL, dt, b.total, DiskMapTotal(cur), common, t);
      MatchedDisksSilentFor(b.all, cur, order, dt, common, t, k);
      DeviceLabelsInjective(common, DISK_LABEL, TOTAL, k);
      forall m | m in total ensures m.labels != DeviceLabels(common, DISK_LABEL, k) {
        var i :| 0 <= i < |total| && total[i] == m;
      }
    }
  }

  lemma {:induction false} MatchedDisksEmitFor(prev: map<string, DiskStat>, cur: map<string, DiskStat>, order: seq<string>,
                                               dt: real, common: LabelSet, t: int, k: string)
    requires forall j :: j in order ==> j in cur
    requires k in prev && k in order
    ensures forall m :: m in DiskMetrics(k, dt, prev[k], cur[k], common, t) ==> m in MatchedDisks(prev, cur, order, dt, common, t)
  {
    var n := |order| - 1;
    assert order == order[..n] + [order[n]];
    if order[n] != k {
      assert k in order[..n];
      MatchedDisksEmitFor(prev, cur, order[..n], dt, common, t, k);
    }
  }

  /** Once a baseline exists, every disk present in both the previous and the
      current map gets all of its metrics. */
  lemma DiskCycleEmitsForMatchedDisk(b: DiskBaseline, cur: map<string, DiskStat>, order: seq<string>,
                                     now: int, common: LabelSet, t: int, k: string)
    requires IsEnumeration(order, cur.Keys)
    requires b.time.Some? && k in b.all && k in cur
    ensures forall m :: m in DiskMetrics(k, ElapsedSeconds(b.time.value, now), b.all[k], cur[k], common, t) ==>
              m in DiskCycleMetrics(b, cur, order, now, common, t)
  {
    MatchedDisksEmitFor(b.all, cur, order, ElapsedSeconds(b.time.value, now), common, t, k);
  }

  // ------------------------------------------------------- one network cycle

  /** Without a baseline a network cycle emits nothing; with one it emits at
      least the metrics of the `total` interface. */
  lemma NetFirstObservation(b: NetBaseline, cur: seq<NetStat>, now: int, common: LabelSet, t: int)
    ensures NetCycleMetrics(b, cur, now, common, t) == [] <==> b.time.None?
  {
    if b.time.Some? {
      var dt := ElapsedSeconds(b.time.value, now);
      assert |NetMetrics(TOTAL, dt, b.total, NetTotal(cur), common, t)| >= 4;
    }
  }

  lemma {:induction false} MatchedNetsSilentFor(prev: seq<NetStat>, cur: seq<NetStat>, n: nat,
                                                dt: real, common: LabelSet, t: int, name: string)
    requires |prev| == |cur| && n <= |cur|
    requires forall i :: 0 <= i < n && cur[i].name == name ==> prev[i].name != name
    ensures forall m :: m in MatchedNets(prev, cur, n, dt, common, t) ==> m.labels != DeviceLabels(common, INTERFACE_LABEL, name)
  {
    if n > 0 {
      MatchedNetsSilentFor(prev, cur, n - 1, dt, common, t, name);
      var j := n - 1;
      if cur[j].name == prev[j].name {
        var block := NetMetrics(cur[j].name, dt, prev[j], cur[j], common, t);
        DeviceLabelsInjective(common, INTERFACE_LABEL, cur[j].name, name);
        forall m | m in block ensures m.labels != DeviceLabels(common, INTERFACE_LABEL, name) {
          var i :| 0 <= i < |block| && block[i] == m;
        }
      }
    }
  }

  /** Per-interface metrics need the previous list to have the same length and
      the same interface name at the same index; otherwise that interface gets
      no metric this cycle (the `total` interface aside). */
  lemma NetCycleSilentForUnalignedInterface(b: NetBaseline, cur: seq<NetStat>, now: int, common: LabelSet, t: int, name: string)
    requires name != TOTAL
    requires !(|b.all| == |cur| && exists i :: 0 <= i < |cur| && cur[i].name == name && b.all[i].name == name)
    ensures forall m :: m in NetCycleMetrics(b, cur, now, common, t) ==> m.labels != DeviceLabels(common, INTERFACE_LABEL, name)
  {
    if b.time.Some? {
      var dt := ElapsedSeconds(b.time.value, now);
      var total := NetMetrics(TOTAL, dt, b.total, NetTotal(cur), common, t);
      DeviceLabelsInjective(common, INTERFACE_LABEL, TOTAL, name);
      forall m | m in total ensures m.labels != DeviceLabels(common, INTERFACE_LABEL, name) {
        var i :| 0 <= i < |total| && total[i] == m;
      }
      if |b.all| == |cur| {
        MatchedNetsSilentFor(b.all, cur, |cur|, dt, common, t, name);
      }
    }
  }

  lemma BlockStaysIn<T>(block: seq<T>, a: seq<T>, b: seq<T>)
    requires forall m :: m in block ==> m in a
    ensures forall m :: m in block ==> m in a + b
  {
  }

  lemma InRight<T>(a: seq<T>, b: seq<T>)
    ensures forall m :: m in b ==> m in a + b
  {
  }

  /** The last step of the loop emits the whole block of an aligned interface. */
  lemma MatchedNetsEmitLast(prev: seq<NetStat>, cur: seq<NetStat>, n: nat, dt: real, common: LabelSet, t: int)
    requires |prev| == |cur| && 0 < n <= |cur| && cur[n - 1].name == prev[n - 1].name
    ensures forall m :: m in NetMetrics(cur[n - 1].name, dt, prev[n - 1], cur[n - 1], common, t) ==>
              m in MatchedNets(prev, cur, n, dt, common, t)
  {
    InRight(MatchedNets(prev, cur, n - 1, dt, common, t), NetMetrics(cur[n - 1].name, dt, prev[n - 1], cur[n - 1], common, t));
  }

  lemma {:induction false} MatchedNetsEmitAt(prev: seq<NetStat>, cur: seq<NetStat>, n: nat,
                                             dt: real, common: LabelSet, t: int, i: nat)
    requires |prev| == |cur| && i < n <= |cur| && cur[i].name == prev[i].name
    ensures forall m :: m in NetMetrics(cur[i].name, dt, prev[i], cur[i], common, t) ==> m in MatchedNets(prev, cur, n, dt, common, t)
  {
    if i < n - 1 {
      var rest := MatchedNets(prev, cur, n - 1, dt, common, t);
      var last := if cur[n - 1].name == prev[n - 1].name
                  then NetMetrics(cur[n - 1].name, dt, prev[n - 1], cur[n - 1], common, t) else [];
      assert MatchedNets(prev, cur, n, dt, common, t) == rest + last;
      MatchedNetsEmitAt(prev, cur, n - 1, dt, common, t, i);
      BlockStaysIn(NetMetrics(cur[i].name, dt, prev[i], cur[i], common, t), rest, last);
    } else {
      MatchedNetsEmitLast(prev, cur, n, dt, common, t);
    }
  }

  /** Once a baseline of the same length exists, every index holding the same
      interface name in both lists gets all of that interface's metrics. */
  lemma NetCycleEmitsForAlignedInterface(b: NetBaseline, cur: seq<NetStat>, now: int, common: LabelSet, t: int, i: nat)
    requires b.time.Some? && |b.all| == |cur| && i < |cur| && cur[i].name == b.all[i].name
    ensures forall m :: m in NetMetrics(cur[i].name, ElapsedSeconds(b.time.value, now), b.all[i], cur[i], common, t) ==>
              m in NetCycleMetrics(b, cur, now, common, t)
  {
    MatchedNetsEmitAt(b.all, cur, |cur|, ElapsedSeconds(b.time.value, now), common, t, i);
  }

  // ------------------------------------------------------- one protocol cycle

  lemma {:induction false} MatchedTcpEmpty(prev: seq<ProtoStat>, cur: seq<ProtoStat>, n: nat, common: LabelSet, t: int)
    requires n <= |cur|
    ensures MatchedTcp(prev, cur, n, common, t) == [] <==> forall i :: 0 <= i < n ==> !TcpAligned(prev, cur, i)
  {
    if n > 0 {
      MatchedTcpEmpty(prev, cur, n - 1, common, t);
      if TcpAligned(prev, cur, n - 1) {
        assert |TcpMetrics(prev[n - 1], cur[n - 1], common, t)| == 4;
      }
    }
  }

  /** A protocol cycle emits something exactly when a baseline of the same
      length exists and some index holds `tcp` in both lists. */
  lemma ProtoCycleEmitsIff(b: ProtoBaseline, cur: seq<ProtoStat>, common: LabelSet, t: int)
    ensures ProtoCycleMetrics(b, cur, common, t) != [] <==>
              b.time.Some? && |cur| == |b.all| && exists i :: 0 <= i < |cur| && TcpAligned(b.all, cur, i)
  {
    if b.time.Some? && |cur| == |b.all| {
      MatchedTcpEmpty(b.all, cur, |cur|, common, t);
    }
  }

  lemma {:induction false} MatchedTcpOnlyTcpNames(prev: seq<ProtoStat>, cur: seq<ProtoStat>, n: nat, common: LabelSet, t: int)
    requires n <= |cur|
    ensures forall m :: m in MatchedTcp(prev, cur, n, common, t) ==>
              m.name in {TcpOutsegs, TcpInsegs, TcpRetranSegs, TcpRetranUtil} && m.labels == common && m.value.Num?
  {
    if n > 0 {
      MatchedTcpOnlyTcpNames(prev, cur, n - 1, common, t);
    }
  }

  /** Only the four TCP metrics come out of a protocol cycle, all with the
      common labels and all finite. */
  lemma ProtoCycleOnlyTcp(b: ProtoBaseline, cur: seq<ProtoStat>, common: LabelSet, t: int)
    ensures forall m :: m in ProtoCycleMetrics(b, cur, common, t) ==>
              m.name in {TcpOutsegs, TcpInsegs, TcpRetranSegs, TcpRetranUtil} && m.labels == common && m.value.Num?
  {
    if b.time.Some? && |cur| == |b.all| {
      MatchedTcpOnlyTcpNames(b.all, cur, |cur|, common, t);
    }
  }

  // ------------------------------------------------------- worked examples

  /** Two samples of one disk 10 s apart in which 4000 bytes were read by 2
      reads give 400 bytes/s and 0.2 reads/s. */
  lemma DiskReadRateExample(name: string, last: DiskStat, now: DiskStat, common: LabelSet, t: int)
    requires now.readBytes == last.readBytes + 4000
    requires now.readCount == last.readCount + 2
    ensures HasValue(DiskMetrics(name, 10.0, last, now, common, t), DiskRbps, Num(400.0))
    ensures HasValue(DiskMetrics(name, 10.0, last, now, common, t), DiskRiops, Num(0.2))
  {
    var ss := DiskSamples(name, 10.0, last, now);
    var labels := DeviceLabels(common, DISK_LABEL, name);
    RateOfGrowth(now.readBytes, last.readBytes, 10.0);
    RateOfGrowth(now.readCount, last.readCount, 10.0);
    TagHasValue(ss, labels, t, 0, Sample(DiskRbps, Num(400.0)));
    TagHasValue(ss, labels, t, 2, Sample(DiskRiops, Num(0.2)));
  }

  /** Two reads taking 40 ms between two samples give 20 ms per read. */
  lemma DiskReadLatencyExample(name: string, dt: real, last: DiskStat, now: DiskStat, common: LabelSet, t: int)
    requires now.readCount == last.readCount + 2
    requires now.readTime == last.readTime + 40
    ensures HasValue(DiskMetrics(name, dt, last, now, common, t), DiskRlatency, Num(20.0))
  {
    LatencyOfGrowth(now.readTime, last.readTime, now.readCount, last.readCount);
    TagHasValue(DiskSamples(name, dt, last, now), DeviceLabels(common, DISK_LABEL, name), t, 4, Sample(DiskRlatency, Num(20.0)));
  }

  /** OutSegs 100 -> 150 and RetransSegs 2 -> 5 give a retransmission ratio of 6 %. */
  lemma TcpExample(common: LabelSet, t: int)
    ensures var last := ProtoStat(TCP, map[OUT_SEGS := 100, RETRANS_SEGS := 2]);
            var now := ProtoStat(TCP, map[OUT_SEGS := 150, RETRANS_SEGS := 5]);
            HasValue(TcpMetrics(last, now, common, t), TcpRetranUtil, Num(6.0))
  {
    var last := ProtoStat(TCP, map[OUT_SEGS := 100, RETRANS_SEGS := 2]);
    var now := ProtoStat(TCP, map[OUT_SEGS := 150, RETRANS_SEGS := 5]);
    assert TcpDelta(last, now, OUT_SEGS) == 50;
    assert TcpDelta(last, now, RETRANS_SEGS) == 3;
    TcpRetranRule(last, now, common, t);
  }
}
