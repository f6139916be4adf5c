/**
 * The label bucketing of `get_sparse_onehot_label_dist` (utils.py): after the
 * labels of all participants are gathered into one list, every label goes to
 * the one class shard whose range holds it, and each shard gets a sparse 0/1
 * matrix of shape (batch size, shard size) with a one at (row, label - start).
 */
module SparseLabel {
  import opened Wrappers
  import opened ClassSplit

  /** Message of the assertion that the split has one entry per participant. */
  const SplitMismatch := "number of class splits NOT equals to number of gpus!"

  /** Shard j's range `[start_index, end_index)` holds the label. */
  predicate InShard(split: seq<int>, j: nat, lab: int)
    requires j < |split|
  {
    Offset(split, j) <= lab < Offset(split, j) + split[j]
  }

  /** The inner scan from shard j on: the first shard whose range holds the label (the `break`), if any. */
  function FirstShard(split: seq<int>, lab: int, j: nat): (r: Option<nat>)
    requires j <= |split|
    ensures r.Some? ==> j <= r.value < |split| && InShard(split, r.value, lab)
    ensures r.Some? ==> forall m :: j <= m < r.value ==> !InShard(split, m, lab)
    ensures r.None? ==> forall m :: j <= m < |split| ==> !InShard(split, m, lab)
    decreases |split| - j
  {
    if j == |split| then None
    else if InShard(split, j, lab) then Some(j)
    else FirstShard(split, lab, j + 1)
  }

  /** The shard a label is recorded in, if any. */
  function ShardOf(split: seq<int>, lab: int): Option<nat>
  {
    FirstShard(split, lab, 0)
  }

  /** Some label position below offset n lies in one of the first n shards. */
  lemma {:induction false} ShardExists(split: seq<int>, lab: int, n: nat)
    requires n <= |split|
    requires 0 <= lab < Offset(split, n)
    ensures exists j :: 0 <= j < n && InShard(split, j, lab)
  {
    if n > 0 {
      OffsetsTile(split, n - 1);
      if lab < Offset(split, n - 1) {
        ShardExists(split, lab, n - 1);
      } else {
        assert InShard(split, n - 1, lab);
      }
    }
  }

  /** With shard sizes that are not negative, a label is put in shard j exactly when j's range holds it. */
  lemma ShardOfExact(split: seq<int>, lab: int, j: nat)
    requires forall k :: 0 <= k < |split| ==> split[k] >= 0
    requires j < |split|
    ensures ShardOf(split, lab) == Some(j) <==> InShard(split, j, lab)
  {
    var r := ShardOf(split, lab);
    if InShard(split, j, lab) && r != Some(j) {
      var k := r.value;
      assert k < j;
      OffsetsTile(split, k);
      OffsetMonotone(split, k + 1, j);
    }
  }

  /** With shard sizes that are not negative, a label is placed somewhere exactly when it lies in `[0, sum(class_split))`. */
  lemma ShardOfTotal(split: seq<int>, lab: int)
    requires forall k :: 0 <= k < |split| ==> split[k] >= 0
    ensures ShardOf(split, lab).Some? <==> 0 <= lab < Sum(split)
  {
    assert split[..|split|] == split;
    if 0 <= lab < Sum(split) {
      ShardExists(split, lab, |split|);
    }
    match ShardOf(split, lab)
    case Some(j) =>
      OffsetsTile(split, j);
      OffsetMonotone(split, 0, j);
      OffsetMonotone(split, j + 1, |split|);
    case None =>
  }

  /** The `index_list` of shard j after the first |labels| labels: `(row, label - start)` in row order. */
  function Coords(split: seq<int>, labels: seq<int>, j: nat): seq<(int, int)>
    requires j < |split|
  {
    if |labels| == 0 then []
    else
      var n := |labels| - 1;
      Coords(split, labels[..n], j)
        + (if ShardOf(split, labels[n]) == Some(j) then [(n, labels[n] - Offset(split, j))] else [])
  }

  /** One more label extends each shard's list by at most that label's coordinate. */
  lemma CoordsStep(split: seq<int>, labels: seq<int>, n: nat, j: nat)
    requires n < |labels| && j < |split|
    ensures Coords(split, labels[..n + 1], j) ==
            Coords(split, labels[..n], j)
              + (if ShardOf(split, labels[n]) == Some(j) then [(n, labels[n] - Offset(split, j))] else [])
  {
    assert labels[..n + 1][..n] == labels[..n];
  }

  /** A coordinate is recorded for shard j exactly when its row's label was put in shard j, at column label minus start. */
  lemma {:induction false} CoordsMembership(split: seq<int>, labels: seq<int>, j: nat, row: int, col: int)
    requires j < |split|
    ensures (row, col) in Coords(split, labels, j) <==>
            0 <= row < |labels| && ShardOf(split, labels[row]) == Some(j) && col == labels[row] - Offset(split, j)
  {
    if |labels| > 0 {
      var n := |labels| - 1;
      CoordsMembership(split, labels[..n], j, row, col);
      if 0 <= row < n {
        assert labels[..n][row] == labels[row];
      }
    }
  }

  /** Every row of the list lies in `[0, n)` and the rows strictly increase. */
  predicate RowsIncreaseBelow(c: seq<(int, int)>, n: int)
  {
    && (forall a :: 0 <= a < |c| ==> 0 <= c[a].0 < n)
    && (forall a, b :: 0 <= a < b < |c| ==> c[a].0 < c[b].0)
  }

  /** Rows in a shard's list are within the batch and strictly increase. */
  lemma {:induction false} CoordsRowsIncrease(split: seq<int>, labels: seq<int>, j: nat)
    requires j < |split|
    ensures RowsIncreaseBelow(Coords(split, labels, j), |labels|)
  {
    if |labels| > 0 {
      var n := |labels| - 1;
      CoordsRowsIncrease(split, labels[..n], j);
      var pre := Coords(split, labels[..n], j);
      assert RowsIncreaseBelow(pre, n);
      var c := Coords(split, labels, j);
      assert c == pre + (if ShardOf(split, labels[n]) == Some(j) then [(n, labels[n] - Offset(split, j))] else []);
      assert forall a :: 0 <= a < |pre| ==> c[a] == pre[a];
      assert forall a :: |pre| <= a < |c| ==> c[a].0 == n;
    }
  }

  /** Every recorded column is a valid local column of the shard, and start plus column gives back the label. */
  lemma LocalColumnInShard(split: seq<int>, labels: seq<int>, j: nat)
    requires forall k :: 0 <= k < |split| ==> split[k] >= 0
    requires j < |split|
    ensures var c := Coords(split, labels, j);
            forall a :: 0 <= a < |c| ==>
              0 <= c[a].0 < |labels| && 0 <= c[a].1 < split[j] && labels[c[a].0] == Offset(split, j) + c[a].1
  {
    var c := Coords(split, labels, j);
    CoordsRowsIncrease(split, labels, j);
    assert RowsIncreaseBelow(c, |labels|);
    forall a | 0 <= a < |c|
      ensures 0 <= c[a].0 < |labels| && 0 <= c[a].1 < split[j] && labels[c[a].0] == Offset(split, j) + c[a].1
    {
      assert c[a] in c;
      CoordsMembership(split, labels, j, c[a].0, c[a].1);
      ShardOfExact(split, labels[c[a].0], j);
    }
  }

  /**
   * A label is recorded in the shard whose range holds it, at its local column, and in
   * no other; such a shard exists exactly when the label lies in `[0, sum(class_split))`,
   * and no two shards' ranges both hold it.
   */
  lemma {:induction false} RowPlacement(split: seq<int>, labels: seq<int>, row: nat)
    requires forall k :: 0 <= k < |split| ==> split[k] >= 0
    requires row < |labels|
    ensures forall k, col :: 0 <= k < |split| ==>
              ((row, col) in Coords(split, labels, k) <==>
               InShard(split, k, labels[row]) && col == labels[row] - Offset(split, k))
    ensures (exists k :: 0 <= k < |split| && InShard(split, k, labels[row])) <==> 0 <= labels[row] < Sum(split)
    ensures forall k1, k2 ::
              0 <= k1 < |split| && 0 <= k2 < |split| && InShard(split, k1, labels[row]) && InShard(split, k2, labels[row])
              ==> k1 == k2
  {
    var lab := labels[row];
    forall k, col | 0 <= k < |split|
      ensures (row, col) in Coords(split, labels, k) <==> InShard(split, k, lab) && col == lab - Offset(split, k)
    {
      CoordsMembership(split, labels, k, row, col);
      ShardOfExact(split, lab, k);
    }
    ShardOfTotal(split, lab);
    if 0 <= lab < Sum(split) {
      var k := ShardOf(split, lab).value;
      assert InShard(split, k, lab);
    }
    forall k1, k2 | 0 <= k1 < |split| && 0 <= k2 < |split| && InShard(split, k1, lab) && InShard(split, k2, lab)
      ensures k1 == k2
    {
      ShardOfExact(split, lab, k1);
      ShardOfExact(split, lab, k2);
    }
  }

  /** A batch whose labels all go to shard j fills shard j with one entry per row and leaves every other shard empty. */
  lemma {:induction false} SingleShardBatch(split: seq<int>, labels: seq<int>, j: nat)
    requires j < |split|
    requires forall r :: 0 <= r < |labels| ==> ShardOf(split, labels[r]) == Some(j)
    ensures Coords(split, labels, j) == seq(|labels|, r requires 0 <= r < |labels| => (r, labels[r] - Offset(split, j)))
    ensures forall k :: 0 <= k < |split| && k != j ==> Coords(split, labels, k) == []
  {
    if |labels| > 0 {
      var n := |labels| - 1;
      var pre := labels[..n];
      assert forall r :: 0 <= r < |pre| ==> pre[r] == labels[r];
      SingleShardBatch(split, pre, j);
    }
  }

  /** A sparse 0/1 matrix: its shape, the coordinates of its ones and the value stored at each (all ones). */
  datatype SparseTensor = SparseTensor(rows: int, cols: int, indices: seq<(int, int)>, values: seq<int>)

  /** What the builder returns: the gathered labels and one sparse matrix per shard. */
  datatype SparseLabels = SparseLabels(labels: seq<int>, shards: seq<SparseTensor>)

  /** `torch.ones(n)`. */
  function Ones(n: nat): (r: seq<int>)
    ensures |r| == n && forall i :: 0 <= i < n ==> r[i] == 1
  {
    seq(n, _ => 1)
  }

  /** The matrix for shard j over the whole batch. */
  function ShardTensor(split: seq<int>, labels: seq<int>, j: nat): SparseTensor
    requires j < |split|
  {
    var c := Coords(split, labels, j);
    SparseTensor(|labels|, split[j], c, Ones(|c|))
  }

  /** One entry of `splits_dict`. */
  datatype Bucket = Bucket(startIndex: int, endIndex: int, numSplits: int, indexList: seq<(int, int)>, nums: int)

  /** What `splits_dict[j]` holds once the first n labels have been scanned. */
  function BucketAfter(split: seq<int>, labels: seq<int>, n: nat, j: nat): Bucket
    requires n <= |labels| && j < |split|
  {
    var c := Coords(split, labels[..n], j);
    Bucket(Offset(split, j), Offset(split, j) + split[j], split[j], c, |c|)
  }

  /** `splits_dict[j]` after the label at `row` is appended to it. */
  function Record(b: Bucket, row: int, lab: int): Bucket
  {
    b.(indexList := b.indexList + [(row, lab - b.startIndex)], nums := b.nums + 1)
  }

  /** Scanning the label at `row` moves every bucket from its state after `row` labels to its state after `row + 1`. */
  lemma PlaceStep(split: seq<int>, labels: seq<int>, row: nat, before: seq<Bucket>, after: seq<Bucket>)
    requires row < |labels| && |before| == |split|
    requires forall k :: 0 <= k < |split| ==> before[k] == BucketAfter(split, labels, row, k)
    requires ShardOf(split, labels[row]).Some? ==>
               var j := ShardOf(split, labels[row]).value;
               after == before[j := Record(before[j], row, labels[row])]
    requires ShardOf(split, labels[row]).None? ==> after == before
    ensures |after| == |split|
    ensures forall k :: 0 <= k < |split| ==> after[k] == BucketAfter(split, labels, row + 1, k)
  {
    forall k | 0 <= k < |split|
      ensures after[k] == BucketAfter(split, labels, row + 1, k)
    {
      CoordsStep(split, labels, row, k);
    }
  }

  /**
   * `get_sparse_onehot_label_dist` after the all-gather: `labels` is the
   * concatenation of every participant's labels, in gather order.
   */
  method GetSparseOnehotLabelDist(worldSize: int, labels: seq<int>, classSplit: seq<int>)
    returns (r: Result<SparseLabels>)
    ensures worldSize != |classSplit| ==> r == Err(SplitMismatch)
    ensures worldSize == |classSplit| ==>
              r == Ok(SparseLabels(labels, seq(|classSplit|, j requires 0 <= j < |classSplit| => ShardTensor(classSplit, labels, j))))
  {
    if worldSize != |classSplit| {
      return Err(SplitMismatch);
    }
    var batchSize := |labels|;

    // the bookkeeping dictionary, keyed by shard number 0 .. worldSize - 1
    var buckets: seq<Bucket> := [];
    var startIndex := 0;
    var i := 0;
    while i < |classSplit|
      invariant 0 <= i <= |classSplit|
      invariant |buckets| == i && startIndex == Offset(classSplit, i)
      invariant forall k :: 0 <= k < i ==> buckets[k] == BucketAfter(classSplit, labels, 0, k)
    {
      OffsetsTile(classSplit, i);
      var endIndex := startIndex + classSplit[i];
      buckets := buckets + [Bucket(startIndex, endIndex, classSplit[i], [], 0)];
      startIndex := endIndex;
      i := i + 1;
    }

    // put every label in the first shard whose range holds it
    var row := 0;
    while row < |labels|
      invariant 0 <= row <= |labels|
      invariant |buckets| == worldSize
      invariant forall k :: 0 <= k < worldSize ==> buckets[k] == BucketAfter(classSplit, labels, row, k)
    {
      var lab := labels[row];
      ghost var before := buckets;
      ghost var placed: Option<nat> := None;
      var j := 0;
      while j < worldSize
        invariant 0 <= j <= worldSize
        invariant buckets == before && placed == None
        invariant ShardOf(classSplit, lab) == FirstShard(classSplit, lab, j)
      {
        if buckets[j].startIndex <= lab && lab < buckets[j].endIndex {
          buckets := buckets[j := Record(buckets[j], row, lab)];
          placed := Some(j);
          break;
        }
        j := j + 1;
      }
      assert placed == ShardOf(classSplit, lab);
      assert placed.Some? ==> buckets == before[placed.value := Record(before[placed.value], row, lab)];
      PlaceStep(classSplit, labels, row, before, buckets);
      row := row + 1;
    }

    // one sparse matrix per shard, an explicitly empty one where nothing landed
    var labelTuple: seq<SparseTensor> := [];
    var k := 0;
    while k < worldSize
      invariant 0 <= k <= worldSize
      invariant |labelTuple| == k
      invariant forall m :: 0 <= m < k ==> labelTuple[m] == ShardTensor(classSplit, labels, m)
    {
      assert labels[..|labels|] == labels;
      var b := buckets[k];
      if b.nums == 0 {
        labelTuple := labelTuple + [SparseTensor(batchSize, b.numSplits, [], [])];
      } else {
        labelTuple := labelTuple + [SparseTensor(batchSize, b.numSplits, b.indexList, Ones(b.nums))];
      }
      k := k + 1;
    }
    assert labelTuple == seq(|classSplit|, j requires 0 <= j < |classSplit| => ShardTensor(classSplit, labels, j));
    r := Ok(SparseLabels(labels, labelTuple));
  }
}
