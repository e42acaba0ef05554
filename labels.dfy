/** Metric dimensions. Every emitted metric carries a label set: the common
    labels (hostname, ip and the user's static labels) sorted by key, and for a
    disk or an interface one more pair naming the device, sorted in with them.
    Keys compare as Go compares strings, byte by byte in UTF-8, which orders
    strings exactly as comparing their code points one by one does. */
module Labels {

  datatype KeyValue = KeyValue(key: string, value: string)

  type LabelSet = seq<KeyValue>

  /** Lexicographic `a <= b` on code points. */
  predicate KeyLe(a: string, b: string)
  {
    |a| == 0 || (|b| > 0 && (a[0] < b[0] || (a[0] == b[0] && KeyLe(a[1..], b[1..]))))
  }

  lemma {:induction false} KeyLeTotal(a: string, b: string)
    ensures KeyLe(a, b) || KeyLe(b, a)
  {
    if |a| > 0 && |b| > 0 && a[0] == b[0] {
      KeyLeTotal(a[1..], b[1..]);
    }
  }

  lemma {:induction false} KeyLeTransitive(a: string, b: string, c: string)
    requires KeyLe(a, b) && KeyLe(b, c)
    ensures KeyLe(a, c)
  {
    if |a| > 0 && a[0] == b[0] && b[0] == c[0] {
      KeyLeTransitive(a[1..], b[1..], c[1..]);
    }
  }

  /** The label set is in key order, as the helper's Sort leaves it. */
  predicate Sorted(l: LabelSet)
  {
    forall i, j :: 0 <= i < j < |l| ==> KeyLe(l[i].key, l[j].key)
  }

  /** Puts `x` in front of the first pair whose key is not smaller. */
  function Insert(l: LabelSet, x: KeyValue): (r: LabelSet)
    ensures |r| == |l| + 1
  {
    if l == [] then [x]
    else if KeyLe(x.key, l[0].key) then [x] + l
    else [l[0]] + Insert(l[1..], x)
  }

  /** Inserting adds exactly `x`. */
  lemma {:induction false} InsertAdds(l: LabelSet, x: KeyValue)
    ensures multiset(Insert(l, x)) == multiset(l) + multiset{x}
  {
    if l != [] && !KeyLe(x.key, l[0].key) {
      InsertAdds(l[1..], x);
      assert l == [l[0]] + l[1..];
    }
  }

  /** Inserting into a sorted label set leaves it sorted. */
  lemma {:induction false} InsertKeepsSorted(l: LabelSet, x: KeyValue)
    requires Sorted(l)
    ensures Sorted(Insert(l, x))
  {
    var r := Insert(l, x);
    if l == [] {
    } else if KeyLe(x.key, l[0].key) {
      forall j | 0 < j < |r| ensures KeyLe(r[0].key, r[j].key) {
        if j > 1 { KeyLeTransitive(x.key, l[0].key, l[j - 1].key); }
      }
    } else {
      var rest := Insert(l[1..], x);
      InsertKeepsSorted(l[1..], x);
      InsertAdds(l[1..], x);
      KeyLeTotal(x.key, l[0].key);
      forall j | 0 < j < |r| ensures KeyLe(r[0].key, r[j].key) {
        assert r[j] in multiset(rest);
        assert r[j] == x || r[j] in l[1..];
      }
    }
  }

  /** Sorts a label set by key, as `KeyValues.Sort` does. */
  function SortLabels(l: LabelSet): (r: LabelSet)
    ensures |r| == |l|
  {
    if l == [] then []
    else
      var n := |l| - 1;
      Insert(SortLabels(l[..n]), l[n])
  }

  /** Sorting leaves the pairs in key order and keeps every pair, duplicates
      included. */
  lemma {:induction false} SortLabelsSorts(l: LabelSet)
    ensures Sorted(SortLabels(l))
    ensures multiset(SortLabels(l)) == multiset(l)
  {
    if l != [] {
      var n := |l| - 1;
      assert l == l[..n] + [l[n]];
      SortLabelsSorts(l[..n]);
      InsertAdds(SortLabels(l[..n]), l[n]);
      InsertKeepsSorted(SortLabels(l[..n]), l[n]);
    }
  }

  /** The label set of one device: the common labels, cloned, with `key=name`
      appended and the whole sorted again. The common labels themselves are a
      value here, so they cannot be changed by the call. */
  function DeviceLabels(common: LabelSet, key: string, name: string): (r: LabelSet)
    ensures |r| == |common| + 1
  {
    SortLabels(common + [KeyValue(key, name)])
  }

  /** A device's label set is sorted by key and holds exactly the common
      labels and the device pair. */
  lemma DeviceLabelsSortedAndComplete(common: LabelSet, key: string, name: string)
    ensures Sorted(DeviceLabels(common, key, name))
    ensures multiset(DeviceLabels(common, key, name)) == multiset(common) + multiset{KeyValue(key, name)}
  {
    SortLabelsSorts(common + [KeyValue(key, name)]);
  }

  /** Two devices with different names never share a label set, so the label
      set tells which device a metric is about. */
  lemma DeviceLabelsInjective(common: LabelSet, key: string, a: string, b: string)
    requires a != b
    ensures DeviceLabels(common, key, a) != DeviceLabels(common, key, b)
  {
    var ka, kb := KeyValue(key, a), KeyValue(key, b);
    SortLabelsSorts(common + [ka]);
    SortLabelsSorts(common + [kb]);
    var ma := multiset(DeviceLabels(common, key, a));
    var mb := multiset(DeviceLabels(common, key, b));
    assert ma[ka] == multiset(common)[ka] + 1;
    assert mb[ka] == multiset(common)[ka];
  }
}
