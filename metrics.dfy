/** The enabled-metrics list of the realtime profiler panel: how it is
    initialised from a list of catalog indices, how one metric is toggled, and
    how the list is reported back as catalog indices. */
module Metrics {
  import opened Sequences

  /** A metric descriptor; only its identity (`===`) matters here. */
  type Metric(==)

  /** The catalog never holds the same descriptor twice. */
  predicate Distinct(catalog: seq<Metric>) {
    forall i, j :: 0 <= i < j < |catalog| ==> catalog[i] != catalog[j]
  }

  /** `catalog.indexOf(m)`: the first position of `m`, or -1 when absent. */
  function IndexOf(catalog: seq<Metric>, m: Metric): (r: int)
    ensures -1 <= r < |catalog|
    ensures r == -1 <==> m !in catalog
    ensures r >= 0 ==> catalog[r] == m && m !in catalog[..r]
  {
    if catalog == [] then -1
    else if catalog[0] == m then 0
    else
      var k := IndexOf(catalog[1..], m);
      assert k >= 0 ==> catalog[..k + 1] == [catalog[0]] + catalog[1..][..k];
      if k == -1 then -1 else k + 1
  }

  /** In a catalog without repetitions, the index of the entry at `i` is `i`. */
  lemma IndexOfAt(catalog: seq<Metric>, i: int)
    requires Distinct(catalog) && 0 <= i < |catalog|
    ensures IndexOf(catalog, catalog[i]) == i
  {
  }

  /** The `keys` of a SetEnabledMetrics message: the catalog index of every
      enabled metric, in list order, -1 for a metric outside the catalog. */
  function Keys(catalog: seq<Metric>, enabled: seq<Metric>): (keys: seq<int>)
    ensures |keys| == |enabled|
    ensures forall i :: 0 <= i < |enabled| && enabled[i] in catalog ==>
      0 <= keys[i] < |catalog| && catalog[keys[i]] == enabled[i]
    ensures forall i :: 0 <= i < |enabled| && enabled[i] !in catalog ==> keys[i] == -1
  {
    if enabled == [] then []
    else [IndexOf(catalog, enabled[0])] + Keys(catalog, enabled[1..])
  }

  /** `indices.map(i => catalog[i]).filter(Boolean)`: each index looked up in
      the catalog, the ones that resolve to nothing (negative or past the end)
      dropped. */
  function ResolveIndices(catalog: seq<Metric>, indices: seq<int>): (r: seq<Metric>)
    ensures |r| <= |indices|
    ensures forall k :: 0 <= k < |r| ==> r[k] in catalog
  {
    if indices == [] then []
    else
      (if 0 <= indices[0] < |catalog| then [catalog[indices[0]]] else [])
      + ResolveIndices(catalog, indices[1..])
  }

  /** The list the panel starts with: the resolved default indices when the
      default list is non-empty, otherwise the first catalog entry alone.
      The fallback looks at the default list, not at what it resolved to. */
  function InitialEnabled(catalog: seq<Metric>, defaults: seq<int>): (r: seq<Metric>)
    requires |catalog| > 0
    ensures forall k :: 0 <= k < |r| ==> r[k] in catalog
  {
    if |defaults| > 0 then ResolveIndices(catalog, defaults) else [catalog[0]]
  }

  /** The new enabled list after `toggleMetric(m)`. */
  function Toggle(enabled: seq<Metric>, m: Metric): (r: seq<Metric>)
    ensures m in r <==> m !in enabled
    ensures forall k :: 0 <= k < |enabled| && enabled[k] != m ==> enabled[k] in r
    ensures forall k :: 0 <= k < |r| && r[k] != m ==> r[k] in enabled
  {
    if m in enabled then Without(enabled, m) else enabled + [m]
  }

  /** Resolution is order-preserving: it distributes over concatenation. */
  lemma {:induction false} ResolveConcat(catalog: seq<Metric>, a: seq<int>, b: seq<int>)
    ensures ResolveIndices(catalog, a + b) == ResolveIndices(catalog, a) + ResolveIndices(catalog, b)
  {
    if a == [] {
      assert a + b == b;
    } else {
      assert (a + b)[0] == a[0] && (a + b)[1..] == a[1..] + b;
      ResolveConcat(catalog, a[1..], b);
    }
  }

  /** A metric is in the resolved list iff some in-range index names it. */
  lemma {:induction false} ResolveMembers(catalog: seq<Metric>, indices: seq<int>, m: Metric)
    ensures m in ResolveIndices(catalog, indices) <==>
      exists i :: i in indices && 0 <= i < |catalog| && catalog[i] == m
  {
    if indices != [] {
      ResolveMembers(catalog, indices[1..], m);
      assert forall i :: i in indices <==> i == indices[0] || i in indices[1..];
    }
  }

  /** When every index is in range nothing is dropped: position `k` of the
      result is the catalog entry at `indices[k]`. */
  lemma {:induction false} ResolveInRange(catalog: seq<Metric>, indices: seq<int>)
    requires forall k :: 0 <= k < |indices| ==> 0 <= indices[k] < |catalog|
    ensures |ResolveIndices(catalog, indices)| == |indices|
    ensures forall k :: 0 <= k < |indices| ==> ResolveIndices(catalog, indices)[k] == catalog[indices[k]]
  {
    if indices != [] {
      ResolveInRange(catalog, indices[1..]);
    }
  }

  /** The resolved list is empty iff no index is in range. */
  lemma {:induction false} ResolveEmpty(catalog: seq<Metric>, indices: seq<int>)
    ensures ResolveIndices(catalog, indices) == [] <==>
      forall k :: 0 <= k < |indices| ==> !(0 <= indices[k] < |catalog|)
  {
    if indices != [] {
      ResolveEmpty(catalog, indices[1..]);
    }
  }

  /** The initial list is empty exactly when a non-empty default list has no
      index in range; an empty default list always yields `[catalog[0]]`. */
  lemma {:induction false} InitialEmpty(catalog: seq<Metric>, defaults: seq<int>)
    requires |catalog| > 0
    ensures InitialEnabled(catalog, defaults) == [] <==>
      |defaults| > 0 && forall k :: 0 <= k < |defaults| ==> !(0 <= defaults[k] < |catalog|)
    ensures |defaults| == 0 ==> InitialEnabled(catalog, defaults) == [catalog[0]]
  {
    ResolveEmpty(catalog, defaults);
  }

  /** The keys identify the list: resolving them through the catalog gives the
      enabled list back, whenever every enabled metric is a catalog member. */
  lemma {:induction false} KeysResolve(catalog: seq<Metric>, enabled: seq<Metric>)
    requires forall k :: 0 <= k < |enabled| ==> enabled[k] in catalog
    ensures ResolveIndices(catalog, Keys(catalog, enabled)) == enabled
  {
    if enabled != [] {
      KeysResolve(catalog, enabled[1..]);
    }
  }

  /** Conversely, with a catalog free of repetitions, the keys of a resolved
      list of in-range indices are those indices. */
  lemma {:induction false} ResolveKeys(catalog: seq<Metric>, indices: seq<int>)
    requires Distinct(catalog)
    requires forall k :: 0 <= k < |indices| ==> 0 <= indices[k] < |catalog|
    ensures Keys(catalog, ResolveIndices(catalog, indices)) == indices
  {
    if indices != [] {
      IndexOfAt(catalog, indices[0]);
      ResolveKeys(catalog, indices[1..]);
    }
  }

  /** Turning on a metric that was off and then toggling it again restores
      the list exactly. */
  lemma {:induction false} ToggleTwiceAbsent(enabled: seq<Metric>, m: Metric)
    requires m !in enabled
    ensures Toggle(enabled, m) == enabled + [m]
    ensures Toggle(Toggle(enabled, m), m) == enabled
  {
    AppendThenWithout(enabled, m);
  }

  /** Turning off a metric keeps the others in order and with their
      multiplicities; turning it back on puts it at the end. */
  lemma {:induction false} TogglePresent(enabled: seq<Metric>, m: Metric)
    requires m in enabled
    ensures Toggle(enabled, m) == Without(enabled, m)
    ensures multiset(Toggle(enabled, m)) == multiset(enabled)[m := 0]
    ensures Toggle(Toggle(enabled, m), m) == Toggle(enabled, m) + [m]
  {
    WithoutMultiset(enabled, m);
  }
}
