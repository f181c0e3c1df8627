/** The per-cluster aggregation of `computeCorrelations`: for every target near a
    loaded cluster, the distinct factors of the cluster (only those with a motif in
    direct-binding mode), skipped when there are two or fewer, and otherwise two vectors
    in the same factor order: each factor's summed signal at the cluster and its read
    count at the target. */
module Correlation {
  import opened Results
  import opened Text
  import opened ClusterFile
  import Sites

  /** The reader does not check that the columns of a line have equal length; the
      aggregation indexes the ids by the motif flags and the signals by the ids. */
  predicate Indexable(c: LoadedCluster)
  {
    |c.hasMotifs| <= |c.tfIds| <= |c.signals|
  }

  /** Whether member `i` takes part: always, or only with a motif in direct mode. */
  predicate Kept(c: LoadedCluster, directOnly: bool, i: nat)
    requires i < |c.hasMotifs|
  {
    !directOnly || c.hasMotifs[i]
  }

  /** The distinct ids of the members that take part. */
  function RetainedSet(c: LoadedCluster, directOnly: bool): (r: set<int>)
    requires |c.hasMotifs| <= |c.tfIds|
    ensures forall i :: 0 <= i < |c.hasMotifs| && Kept(c, directOnly, i) ==> c.tfIds[i] in r
    ensures forall x :: x in r ==>
      exists i :: 0 <= i < |c.hasMotifs| && Kept(c, directOnly, i) && c.tfIds[i] == x
  {
    RetainedUpTo(c, directOnly, |c.hasMotifs|)
  }

  /** The ids kept among the first `n` members. */
  function RetainedUpTo(c: LoadedCluster, directOnly: bool, n: nat): set<int>
    requires n <= |c.hasMotifs| <= |c.tfIds|
  {
    set i | 0 <= i < n && Kept(c, directOnly, i) :: c.tfIds[i]
  }

  /** Direct-binding mode never keeps a factor the plain mode drops. */
  lemma DirectKeepsFewer(c: LoadedCluster)
    requires |c.hasMotifs| <= |c.tfIds|
    ensures RetainedSet(c, true) <= RetainedSet(c, false)
    ensures (forall i :: 0 <= i < |c.hasMotifs| ==> c.hasMotifs[i]) ==>
      RetainedSet(c, true) == RetainedSet(c, false)
  {
    forall x | x in RetainedSet(c, true) ensures x in RetainedSet(c, false) {
      var i :| 0 <= i < |c.hasMotifs| && Kept(c, true, i) && c.tfIds[i] == x;
      assert Kept(c, false, i);
    }
    if forall i :: 0 <= i < |c.hasMotifs| ==> c.hasMotifs[i] {
      forall x | x in RetainedSet(c, false) ensures x in RetainedSet(c, true) {
        var i :| 0 <= i < |c.hasMotifs| && Kept(c, false, i) && c.tfIds[i] == x;
        assert Kept(c, true, i);
      }
    }
  }

  /** The `HashSet` of the factor ids, filled member by member. */
  method CollectIds(c: LoadedCluster, directOnly: bool) returns (ids: set<int>)
    requires |c.hasMotifs| <= |c.tfIds|
    ensures ids == RetainedSet(c, directOnly)
  {
    ids := {};
    for i := 0 to |c.hasMotifs|
      invariant ids == RetainedUpTo(c, directOnly, i)
    {
      if !directOnly || c.hasMotifs[i] {
        ids := ids + {c.tfIds[i]};
      }
      assert RetainedUpTo(c, directOnly, i + 1)
        == RetainedUpTo(c, directOnly, i) + (if Kept(c, directOnly, i) then {c.tfIds[i]} else {});
    }
  }

  predicate Distinct(s: seq<int>)
  {
    forall i, j :: 0 <= i < j < |s| ==> s[i] != s[j]
  }

  /** `toArray` on the set: every element once, in an order the set chooses. */
  method ToArray(s: set<int>) returns (ids: seq<int>)
    ensures |ids| == |s| && Distinct(ids)
    ensures forall x :: x in ids <==> x in s
  {
    ids := [];
    var rest := s;
    while |rest| > 0
      invariant |ids| + |rest| == |s| && Distinct(ids)
      invariant rest <= s
      invariant forall x :: x in ids <==> x in s && x !in rest
      decreases |rest|
    {
      var y := Pick(rest);
      ids := ids + [y];
      rest := rest - {y};
    }
  }

  method Pick(s: set<int>) returns (x: int)
    requires |s| > 0
    ensures x in s
  {
    HasElement(s);
    x :| x in s;
  }

  lemma HasElement(s: set<int>)
    requires |s| > 0
    ensures exists y :: y in s
  {
    if forall y :: y !in s {
      assert false;
    }
  }

  function Dist(a: int, b: int): nat
  {
    if a >= b then a - b else b - a
  }

  /** Java's narrowing of a double to an `int`: values outside the range saturate, so
      the result is the `int` nearest to `x`. */
  function Clamp32(x: int): (r: int)
    ensures INT_MIN <= r <= INT_MAX
    ensures forall y :: INT_MIN <= y <= INT_MAX ==> Dist(r, x) <= Dist(y, x)
  {
    if x < INT_MIN then INT_MIN else if x > INT_MAX then INT_MAX else x
  }

  /** The `int total` after the first `n` members: every member of factor `id` adds its
      signal, and the sum is narrowed back to an `int` after each addition. */
  function RunningTotal(c: LoadedCluster, id: int, n: nat): (t: int)
    requires n <= |c.tfIds| <= |c.signals|
    ensures INT_MIN <= t <= INT_MAX
  {
    if n == 0 then 0
    else
      var t := RunningTotal(c, id, n - 1);
      if c.tfIds[n - 1] == id then Clamp32(t + c.signals[n - 1]) else t
  }

  /** The exact sum of the signals of factor `id` among the first `n` members. */
  function SignalSum(c: LoadedCluster, id: int, n: nat): int
    requires n <= |c.tfIds| <= |c.signals|
  {
    if n == 0 then 0
    else SignalSum(c, id, n - 1) + (if c.tfIds[n - 1] == id then c.signals[n - 1] else 0)
  }

  /** While no partial sum leaves the `int` range, the running total is the exact sum. */
  lemma {:induction false} TotalIsSum(c: LoadedCluster, id: int, n: nat)
    requires n <= |c.tfIds| <= |c.signals|
    requires forall m :: 0 <= m <= n ==> INT_MIN <= SignalSum(c, id, m) <= INT_MAX
    ensures RunningTotal(c, id, n) == SignalSum(c, id, n)
  {
    if n > 0 {
      TotalIsSum(c, id, n - 1);
    }
  }

  /** With non-negative signals the running total is the exact sum, saturated at the
      largest `int`. */
  lemma {:induction false} TotalMonotone(c: LoadedCluster, id: int, n: nat)
    requires n <= |c.tfIds| <= |c.signals|
    requires forall j :: 0 <= j < n ==> c.signals[j] >= 0
    ensures 0 <= RunningTotal(c, id, n) == Clamp32(SignalSum(c, id, n))
  {
    if n > 0 {
      TotalMonotone(c, id, n - 1);
    }
  }

  /** The inner loop over the members for one factor. */
  method AnchorSignal(c: LoadedCluster, id: int) returns (total: int)
    requires |c.tfIds| <= |c.signals|
    ensures total == RunningTotal(c, id, |c.tfIds|)
  {
    total := 0;
    for j := 0 to |c.tfIds|
      invariant total == RunningTotal(c, id, j)
    {
      if c.tfIds[j] == id {
        total := Clamp32(total + c.signals[j]);
      }
    }
  }

  /** What a target that is not skipped gets: the retained factors once each, and for
      the factor at each position its summed signal at the cluster and its read count
      at the target. */
  ghost predicate VectorsFor(c: LoadedCluster, directOnly: bool, p: int, stores: seq<int -> int>,
                             ids: seq<int>, anchor: seq<int>, atTarget: seq<int>)
    requires Indexable(c)
  {
    && |ids| == |RetainedSet(c, directOnly)| && Distinct(ids)
    && (forall x :: x in ids <==> x in RetainedSet(c, directOnly))
    && |anchor| == |ids| && |atTarget| == |ids|
    && (forall i :: 0 <= i < |ids| ==>
          anchor[i] == RunningTotal(c, ids[i], |c.tfIds|) && 0 <= ids[i] < |stores| && atTarget[i] == stores[ids[i]](p))
  }

  datatype Vectors = Vectors(ids: seq<int>, anchor: seq<int>, atTarget: seq<int>)

  /** One target of one cluster: `None` when at most two factors are retained. The read
      store of experiment `id` is `stores[id]`, giving its read count near a target; a
      target that is not skipped looks up the store of every retained id. */
  method CorrelateTarget(c: LoadedCluster, directOnly: bool, p: int, stores: seq<int -> int>)
    returns (r: Option<Vectors>)
    requires StoresCover(c, directOnly, |stores|)
    ensures r.None? <==> |RetainedSet(c, directOnly)| <= 2
    ensures r.Some? ==> VectorsFor(c, directOnly, p, stores, r.value.ids, r.value.anchor, r.value.atTarget)
  {
    var retained := CollectIds(c, directOnly);
    var ids := ToArray(retained);
    if |ids| <= 2 {
      return None;
    }
    var anchor: seq<int> := [];
    for i := 0 to |ids|
      invariant |anchor| == i
      invariant forall k :: 0 <= k < i ==> anchor[k] == RunningTotal(c, ids[k], |c.tfIds|)
    {
      var total := AnchorSignal(c, ids[i]);
      anchor := anchor + [total];
    }
    var atTarget: seq<int> := [];
    for i := 0 to |ids|
      invariant |atTarget| == i
      invariant forall k :: 0 <= k < i ==> 0 <= ids[k] < |stores| && atTarget[k] == stores[ids[k]](p)
    {
      assert ids[i] in retained;
      atTarget := atTarget + [stores[ids[i]](p)];
    }
    r := Some(Vectors(ids, anchor, atTarget));
  }

  /** What the lookups of `chipseqs.get` need of cluster `c` among `n` read stores: its
      columns can be indexed, and when its targets are not skipped every retained id
      names a store. */
  predicate StoresCover(c: LoadedCluster, directOnly: bool, n: nat)
  {
    && Indexable(c)
    && (|RetainedSet(c, directOnly)| > 2 ==> forall x :: x in RetainedSet(c, directOnly) ==> 0 <= x < n)
  }

  /** One line of the output: which cluster, which target, and the two vectors. */
  datatype Row = Row(cluster: nat, target: int, vectors: Vectors)

  /** The (cluster, target) pairs that are not skipped, in loop order, over the first
      `n` clusters. */
  function Pairs(clusters: seq<LoadedCluster>, targets: seq<seq<int>>, directOnly: bool, n: nat)
    : seq<(nat, int)>
    requires n <= |clusters| == |targets|
    requires forall k :: 0 <= k < |clusters| ==> Indexable(clusters[k])
  {
    if n == 0 then []
    else
      Pairs(clusters, targets, directOnly, n - 1)
      + (if |RetainedSet(clusters[n - 1], directOnly)| <= 2 then [] else Tagged(n - 1, targets[n - 1]))
  }

  function Tagged(k: nat, ps: seq<int>): (r: seq<(nat, int)>)
    ensures |r| == |ps| && forall j :: 0 <= j < |ps| ==> r[j] == (k, ps[j])
  {
    if ps == [] then [] else Tagged(k, ps[..|ps| - 1]) + [(k, ps[|ps| - 1])]
  }

  function Keys(rows: seq<Row>): (r: seq<(nat, int)>)
    ensures |r| == |rows| && forall i :: 0 <= i < |rows| ==> r[i] == (rows[i].cluster, rows[i].target)
  {
    if rows == [] then [] else Keys(rows[..|rows| - 1]) + [(rows[|rows| - 1].cluster, rows[|rows| - 1].target)]
  }

  ghost predicate RowFits(clusters: seq<LoadedCluster>, directOnly: bool, stores: seq<int -> int>, row: Row)
  {
    && row.cluster < |clusters| && Indexable(clusters[row.cluster])
    && VectorsFor(clusters[row.cluster], directOnly, row.target, stores,
                  row.vectors.ids, row.vectors.anchor, row.vectors.atTarget)
  }

  /** The rows of the first `n` clusters: one per target that is not skipped, in loop
      order, each holding that target's vectors. */
  ghost predicate Produced(clusters: seq<LoadedCluster>, targets: seq<seq<int>>, directOnly: bool,
                           stores: seq<int -> int>, n: nat, rows: seq<Row>)
    requires n <= |clusters| == |targets|
    requires forall k :: 0 <= k < |clusters| ==> Indexable(clusters[k])
  {
    && Keys(rows) == Pairs(clusters, targets, directOnly, n)
    && forall i :: 0 <= i < |rows| ==> RowFits(clusters, directOnly, stores, rows[i])
  }

  /** The loops over the clusters and their targets: one row per target of a cluster
      that keeps more than two factors, in order, each holding that target's vectors.
      `targets[k]` are the targets near cluster `k`'s midpoint. */
  method ComputeCorrelations(clusters: seq<LoadedCluster>, targets: seq<seq<int>>, directOnly: bool,
                             stores: seq<int -> int>)
    returns (rows: seq<Row>)
    requires |targets| == |clusters|
    requires forall k :: 0 <= k < |clusters| ==> Indexable(clusters[k])
    requires forall k :: 0 <= k < |clusters| ==> StoresCover(clusters[k], directOnly, |stores|)
    ensures Keys(rows) == Pairs(clusters, targets, directOnly, |clusters|)
    ensures forall i :: 0 <= i < |rows| ==> RowFits(clusters, directOnly, stores, rows[i])
  {
    rows := [];
    for k := 0 to |clusters|
      invariant Produced(clusters, targets, directOnly, stores, k, rows)
    {
      var more := TargetRows(clusters, k, targets[k], directOnly, stores);
      RowsStep(clusters, targets, directOnly, stores, k, rows, more);
      rows := rows + more;
    }
  }

  /** The rows of cluster `k` extend the rows of the clusters before it. */
  lemma RowsStep(clusters: seq<LoadedCluster>, targets: seq<seq<int>>, directOnly: bool,
                 stores: seq<int -> int>, k: nat, rows: seq<Row>, more: seq<Row>)
    requires k < |clusters| == |targets|
    requires forall m :: 0 <= m < |clusters| ==> Indexable(clusters[m])
    requires Produced(clusters, targets, directOnly, stores, k, rows)
    requires Keys(more) == if |RetainedSet(clusters[k], directOnly)| <= 2 then [] else Tagged(k, targets[k])
    requires forall i :: 0 <= i < |more| ==> RowFits(clusters, directOnly, stores, more[i])
    ensures Produced(clusters, targets, directOnly, stores, k + 1, rows + more)
  {
    KeysAppend(rows, more);
    forall i | 0 <= i < |rows + more| ensures RowFits(clusters, directOnly, stores, (rows + more)[i]) {
      if i < |rows| { assert (rows + more)[i] == rows[i]; } else { assert (rows + more)[i] == more[i - |rows|]; }
    }
  }

  /** The rows for targets `ps` of cluster `k`: none when the cluster is skipped, else
      one per target, in order, each holding that target's vectors. */
  ghost predicate RowsOf(clusters: seq<LoadedCluster>, k: nat, ps: seq<int>, directOnly: bool,
                         stores: seq<int -> int>, rows: seq<Row>)
    requires k < |clusters| && Indexable(clusters[k])
  {
    && Keys(rows) == (if |RetainedSet(clusters[k], directOnly)| <= 2 then [] else Tagged(k, ps))
    && forall i :: 0 <= i < |rows| ==> RowFits(clusters, directOnly, stores, rows[i])
  }

  /** The loop over the targets of cluster `k`. */
  method TargetRows(clusters: seq<LoadedCluster>, k: nat, ps: seq<int>, directOnly: bool,
                    stores: seq<int -> int>)
    returns (rows: seq<Row>)
    requires k < |clusters| && StoresCover(clusters[k], directOnly, |stores|)
    ensures Keys(rows) == if |RetainedSet(clusters[k], directOnly)| <= 2 then [] else Tagged(k, ps)
    ensures forall i :: 0 <= i < |rows| ==> RowFits(clusters, directOnly, stores, rows[i])
  {
    rows := [];
    for j := 0 to |ps|
      invariant RowsOf(clusters, k, ps[..j], directOnly, stores, rows)
    {
      var r := CorrelateTarget(clusters[k], directOnly, ps[j], stores);
      if r.Some? {
        TargetStep(clusters, k, ps, j, directOnly, stores, rows, r.value);
        rows := rows + [Row(k, ps[j], r.value)];
      } else {
        TargetSkip(clusters, k, ps, j, directOnly, stores, rows);
      }
    }
    assert ps[..|ps|] == ps;
  }

  /** A target that yields vectors adds one row for it. */
  lemma TargetStep(clusters: seq<LoadedCluster>, k: nat, ps: seq<int>, j: nat, directOnly: bool,
                   stores: seq<int -> int>, rows: seq<Row>, v: Vectors)
    requires k < |clusters| && Indexable(clusters[k]) && j < |ps|
    requires RowsOf(clusters, k, ps[..j], directOnly, stores, rows)
    requires |RetainedSet(clusters[k], directOnly)| > 2
    requires VectorsFor(clusters[k], directOnly, ps[j], stores, v.ids, v.anchor, v.atTarget)
    ensures RowsOf(clusters, k, ps[..j + 1], directOnly, stores, rows + [Row(k, ps[j], v)])
  {
    var row := Row(k, ps[j], v);
    assert Tagged(k, ps[..j + 1]) == Tagged(k, ps[..j]) + [(k, ps[j])] by {
      assert ps[..j + 1][..j] == ps[..j];
    }
    KeysAppend(rows, [row]);
    assert RowFits(clusters, directOnly, stores, row);
    forall i | 0 <= i < |rows + [row]| ensures RowFits(clusters, directOnly, stores, (rows + [row])[i]) {
      if i < |rows| { assert (rows + [row])[i] == rows[i]; }
    }
  }

  /** A skipped cluster adds no rows. */
  lemma TargetSkip(clusters: seq<LoadedCluster>, k: nat, ps: seq<int>, j: nat, directOnly: bool,
                   stores: seq<int -> int>, rows: seq<Row>)
    requires k < |clusters| && Indexable(clusters[k]) && j < |ps|
    requires RowsOf(clusters, k, ps[..j], directOnly, stores, rows)
    requires |RetainedSet(clusters[k], directOnly)| <= 2
    ensures RowsOf(clusters, k, ps[..j + 1], directOnly, stores, rows)
  {
  }

  lemma KeysAppend(a: seq<Row>, b: seq<Row>)
    ensures Keys(a + b) == Keys(a) + Keys(b)
  {
    var l, r := Keys(a + b), Keys(a) + Keys(b);
    assert |l| == |r|;
    forall i | 0 <= i < |l| ensures l[i] == r[i] {
      if i < |a| { assert (a + b)[i] == a[i]; } else { assert (a + b)[i] == b[i - |a|]; }
    }
  }

  /** Factors 1, 1 and 2 keep two distinct ids, so the target is skipped; adding a
      member of factor 3 keeps three. */
  lemma SkipExample()
    ensures |RetainedSet(LoadedCluster("chr1:1-9", [1, 1, 2], [5, 6, 7], [true, false, true]), false)| == 2
    ensures |RetainedSet(LoadedCluster("chr1:1-9", [1, 1, 2, 3], [5, 6, 7, 8], [true, false, true, false]), false)| == 3
    ensures |RetainedSet(LoadedCluster("chr1:1-9", [1, 1, 2, 3], [5, 6, 7, 8], [true, false, true, false]), true)| == 2
  {
    RetainedRepeated();
    RetainedThree();
    RetainedDirect();
  }

  lemma RetainedRepeated()
    ensures RetainedSet(LoadedCluster("chr1:1-9", [1, 1, 2], [5, 6, 7], [true, false, true]), false) == {1, 2}
  {
    var c := LoadedCluster("chr1:1-9", [1, 1, 2], [5, 6, 7], [true, false, true]);
    assert Kept(c, false, 0) && Kept(c, false, 2);
  }

  lemma RetainedThree()
    ensures RetainedSet(LoadedCluster("chr1:1-9", [1, 1, 2, 3], [5, 6, 7, 8], [true, false, true, false]), false)
         == {1, 2, 3}
  {
    var d := LoadedCluster("chr1:1-9", [1, 1, 2, 3], [5, 6, 7, 8], [true, false, true, false]);
    assert Kept(d, false, 0) && Kept(d, false, 2) && Kept(d, false, 3);
  }

  lemma RetainedDirect()
    ensures RetainedSet(LoadedCluster("chr1:1-9", [1, 1, 2, 3], [5, 6, 7, 8], [true, false, true, false]), true)
         == {1, 2}
  {
    var d := LoadedCluster("chr1:1-9", [1, 1, 2, 3], [5, 6, 7, 8], [true, false, true, false]);
    assert Kept(d, true, 0) && Kept(d, true, 2) && !Kept(d, true, 3) && !Kept(d, true, 1);
  }

  /** Two retained ids skip the target, so ids with no read store behind them are
      accepted: `chipseqs.get` is never reached. */
  lemma SkippedNeedsNoStore()
    ensures StoresCover(LoadedCluster("chr1:1-9", [5, 7], [1, 1], [true, true]), false, 3)
  {
    var c := LoadedCluster("chr1:1-9", [5, 7], [1, 1], [true, true]);
    assert RetainedSet(c, false) == {5, 7} by {
      assert Kept(c, false, 0) && Kept(c, false, 1);
    }
  }

  /** A cluster read back from the file has one id, signal and flag per member. */
  lemma LoadedIndexable(c: seq<Sites.Site>)
    requires c != []
    ensures Indexable(Loaded(c)) && |Loaded(c).tfIds| == |c|
  {
  }
}
