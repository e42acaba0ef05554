/** What the sampler promises across whole collection cycles: the state of
    a fresh sampler, the invariant every cycle keeps, what the first cycle
    can and cannot emit, how a cycle without host information ends, and how
    one cycle's snapshot becomes the next cycle's baseline. */
module Cycles {
  import opened Machine
  import opened Labels
  import opened Counters
  import opened Formulas
  import opened Engine
  import opened SystemV2

  /** The state after running `Collect` once per input, in order. */
  ghost function Run(config: Config, s: Baselines, inputs: seq<CycleInput>): Baselines
  {
    if inputs == [] then s
    else CycleNext(config, Run(config, s, inputs[..|inputs| - 1]), inputs[|inputs| - 1])
  }

  /** A fresh sampler is consistent: its zero totals are the totals of its
      empty device lists, and its zero busy and total times those of a zero sample. */
  lemma InitialConsistent()
    ensures Consistent(Initial)
  {
    var empty: map<string, DiskStat> := map[];
    forall f ensures DiskSum(empty, empty.Keys, f) == 0 {
    }
  }

  /** One cycle keeps the stored totals consistent with what they were computed from. */
  lemma CycleKeepsConsistent(config: Config, s: Baselines, inp: CycleInput)
    requires Consistent(s)
    ensures Consistent(CycleNext(config, s, inp))
  {
  }

  /** However many cycles run, with whatever configuration and inputs, the
      stored totals stay those of the stored device lists and the stored busy
      and total times those of the stored CPU sample. */
  lemma {:induction false} AlwaysConsistent(config: Config, inputs: seq<CycleInput>)
    ensures Consistent(Run(config, Initial, inputs))
  {
    if inputs == [] {
      InitialConsistent();
    } else {
      AlwaysConsistent(config, inputs[..|inputs| - 1]);
      CycleKeepsConsistent(config, Run(config, Initial, inputs[..|inputs| - 1]), inputs[|inputs| - 1]);
    }
  }

  /** A fresh sampler has no baseline, so its first cycle emits no delta: only
      the core metrics, `cpu_count` and the memory metrics. */
  lemma FirstCycleEmitsNoDeltas(config: Config, common: LabelSet, inp: CycleInput)
    requires ValidInput(inp) && CycleCompletes(Initial, inp)
    ensures CycleMetrics(config, Initial, common, inp) ==
            CoreCycleMetrics(inp.info, inp.load, common, inp.clock)
            + (if config.cpu then [Metric(CpuCount, common, inp.clock, Num(CoreCount(inp.cores) as real))] else [])
            + MemPart(config, inp, common, inp.clock)
  {
    var t := inp.clock;
    NoBaselineNoCpuDelta(config, inp, common, t);
    NoBaselineNoDeviceDelta(config, inp, common, t);
  }

  /** Without a CPU baseline only `cpu_count` is emitted. */
  lemma NoBaselineNoCpuDelta(config: Config, inp: CycleInput, common: LabelSet, t: int)
    ensures CpuPart(config, Initial.cpu, inp, common, t) ==
            if config.cpu then [Metric(CpuCount, common, t, Num(CoreCount(inp.cores) as real))] else []
  {
    assert !CpuDeltaReady(config.cpuPercent, Initial.cpu, inp.cpuTimes);
  }

  /** Without disk, interface or protocol baselines nothing is emitted for them. */
  lemma NoBaselineNoDeviceDelta(config: Config, inp: CycleInput, common: LabelSet, t: int)
    requires ValidInput(inp)
    ensures DiskPart(config, Initial.disk, inp, common, t) == []
    ensures NetPart(config, Initial.net, inp, common, t) == []
    ensures ProtoPart(config, Initial.proto, inp, common, t) == []
  {
  }

  /** Without host information, cached or fresh, the cycle stops at the
      boot-time line: it emits only the load averages and changes no baseline. */
  lemma AbortedCycle(config: Config, s: Baselines, common: LabelSet, inp: CycleInput)
    requires ValidInput(inp) && !CycleCompletes(s, inp)
    ensures CycleMetrics(config, s, common, inp) == LoadMetrics(inp.load, common, inp.clock)
    ensures CycleNext(config, s, inp) == s
  {
    assert CoreCycleMetrics(None, inp.load, common, inp.clock) == LoadMetrics(inp.load, common, inp.clock);
  }

  /** A disabled collector never touches its baseline, so enabling it again
      later compares against the snapshot it stored before. */
  lemma DisabledCollectorsKeepBaselines(config: Config, s: Baselines, inp: CycleInput)
    ensures !config.cpu ==> CycleNext(config, s, inp).cpu == s.cpu
    ensures !config.disk ==> CycleNext(config, s, inp).disk == s.disk
    ensures !config.net ==> CycleNext(config, s, inp).net == s.net
    ensures !config.protocol ==> CycleNext(config, s, inp).proto == s.proto
  {
  }

  /** The host information is fetched once: after it was obtained it is kept
      whatever later calls return. */
  lemma HostInfoCached(config: Config, s: Baselines, inp: CycleInput)
    ensures s.info.Some? ==> CycleNext(config, s, inp).info == s.info
    ensures s.info.None? ==> CycleNext(config, s, inp).info == inp.info
  {
  }

  /** The second cycle of a sampler whose disk collector is on compares the
      disk snapshot of the first cycle with its own: the `total` device
      against the first total, then every disk present in both maps, over the
      time between the two disk queries. */
  lemma SecondCycleDisks(config: Config, common: LabelSet, first: CycleInput, second: CycleInput)
    requires ValidInput(first) && ValidInput(second) && config.disk
    requires CycleCompletes(Initial, first) && first.disks.Some? && second.disks.Some?
    ensures var s := CycleNext(config, Initial, first);
            var dt := ElapsedSeconds(first.diskClock, second.diskClock);
            CycleCompletes(s, second) &&
            DiskPart(config, s.disk, second, common, second.clock) ==
              DiskMetrics(TOTAL, dt, DiskMapTotal(first.disks.value), DiskMapTotal(second.disks.value), common, second.clock)
              + MatchedDisks(first.disks.value, second.disks.value, second.diskEmitOrder, dt, common, second.clock)
  {
    var s := CycleNext(config, Initial, first);
    assert s.disk == DiskBaseline(Some(first.diskClock), DiskMapTotal(first.disks.value), first.disks.value);
  }

  /** A cycle whose protocol query returned a non-empty list stores that list,
      and the next cycle's protocol metrics compare against it: the matched
      `tcp` entries when the lengths agree, nothing otherwise. */
  lemma NextProtocolCycleUsesSnapshot(config: Config, s: Baselines, first: CycleInput, second: CycleInput,
                                      common: LabelSet, t: int)
    requires config.protocol && CycleCompletes(s, first) && ProtoQueryOk(first.protos)
    requires ProtoQueryOk(second.protos)
    ensures CycleNext(config, s, first).proto == ProtoBaseline(Some(first.protoClock), first.protos.value)
    ensures ProtoPart(config, CycleNext(config, s, first).proto, second, common, t) ==
            if |second.protos.value| == |first.protos.value|
            then MatchedTcp(first.protos.value, second.protos.value, |second.protos.value|, common, t)
            else []
  {
  }

  /** `CommonInit` leaves the common labels sorted by key, and they hold
      exactly the labels that were there, the host name, the address and one
      pair per static label. */
  lemma InitLabelsSortedAndComplete(prior: LabelSet, hostname: string, ip: string,
                                    labels: map<string, string>, order: seq<string>)
    requires forall k :: k in order ==> k in labels
    ensures Sorted(InitLabels(prior, hostname, ip, labels, order))
    ensures multiset(InitLabels(prior, hostname, ip, labels, order)) ==
            multiset(prior) + multiset{KeyValue(HOSTNAME_LABEL, hostname), KeyValue(IP_LABEL, ip)}
            + multiset(StaticLabels(labels, order))
  {
    var all := prior + [KeyValue(HOSTNAME_LABEL, hostname)] + [KeyValue(IP_LABEL, ip)] + StaticLabels(labels, order);
    SortLabelsSorts(all);
  }

  /** Every static label ends up among the common labels. */
  lemma StaticLabelsKept(prior: LabelSet, hostname: string, ip: string,
                         labels: map<string, string>, order: seq<string>, k: string)
    requires forall k :: k in order ==> k in labels
    requires k in order
    ensures KeyValue(k, labels[k]) in InitLabels(prior, hostname, ip, labels, order)
  {
    InitLabelsSortedAndComplete(prior, hostname, ip, labels, order);
    var i :| 0 <= i < |order| && order[i] == k;
    assert StaticLabels(labels, order)[i] == KeyValue(k, labels[k]);
    assert KeyValue(k, labels[k]) in multiset(InitLabels(prior, hostname, ip, labels, order));
  }
}
