/**
 * Batch accuracy in utils.py: `compute_batch_acc` (one process, either one
 * dense logits tensor or one tensor per class shard, merged shard by shard) and
 * `compute_batch_acc_dist` (one shard per process, merged after an all-gather).
 * Scores are integers; an accuracy is an exact `real` (correct count over batch size).
 */
module BatchAccuracy {
  import opened Wrappers
  import opened ClassSplit
  import opened TensorMax

  /** Message of the assertion that the split has one entry per participant. */
  const SplitMismatch := "world size should equal to the number of class split"

  /** Python's error for `correct / batch_size` with a zero batch size. */
  const ZeroDivision := "division by zero"

  /** PyTorch's error for `torch.range(0, -1)`: an end below the start with a positive step. */
  const EmptyRange := "upper bound and larger bound inconsistent with step sign"

  // ---------------------------------------------------------------------------
  // Counting correct predictions

  /** `torch.sum(preds == labels)`: the number of samples whose prediction is the label. */
  function Correct(preds: seq<int>, labels: seq<int>): (n: nat)
    requires |preds| == |labels|
    ensures n <= |labels|
  {
    if |labels| == 0 then 0
    else
      var m := |labels| - 1;
      Correct(preds[..m], labels[..m]) + (if preds[m] == labels[m] then 1 else 0)
  }

  /** All predictions right exactly when the count is the batch; none right exactly when it is zero. */
  lemma {:induction false} CorrectExtremes(preds: seq<int>, labels: seq<int>)
    requires |preds| == |labels|
    ensures Correct(preds, labels) == |labels| <==> forall b :: 0 <= b < |labels| ==> preds[b] == labels[b]
    ensures Correct(preds, labels) == 0 <==> forall b :: 0 <= b < |labels| ==> preds[b] != labels[b]
  {
    if |labels| > 0 {
      var m := |labels| - 1;
      CorrectExtremes(preds[..m], labels[..m]);
      assert forall b :: 0 <= b < m ==> preds[..m][b] == preds[b] && labels[..m][b] == labels[b];
    }
  }

  /** `correct / batch_size`, exactly. */
  function Ratio(correct: nat, batchSize: int): real
    requires batchSize != 0
  {
    correct as real / batchSize as real
  }

  /** With the batch size equal to the number of labels, an accuracy lies in [0, 1]. */
  lemma {:induction false} AccuracyInUnitInterval(preds: seq<int>, labels: seq<int>)
    requires |preds| == |labels| > 0
    ensures 0.0 <= Ratio(Correct(preds, labels), |labels|) <= 1.0
  {
    RatioAtMostOne(Correct(preds, labels), |labels|);
  }

  /** A count that does not exceed a positive total gives a fraction in [0, 1]. */
  lemma RatioAtMostOne(c: nat, n: int)
    requires 0 < n && c <= n
    ensures 0.0 <= Ratio(c, n) <= 1.0
  {
    var x, y := c as real, n as real;
    assert x / y * y == x;
    assert (1.0 - x / y) * y == y - x;
  }

  // ---------------------------------------------------------------------------
  // Merging per-shard maxima of one sample

  /** The maximum of each shard's row for one sample. */
  function LocalMaxes(rows: seq<seq<int>>): (r: seq<int>)
    requires forall k :: 0 <= k < |rows| ==> |rows[k]| > 0
    ensures |r| == |rows| && forall k :: 0 <= k < |rows| ==> r[k] == MaxOf(rows[k])
  {
    seq(|rows|, k requires 0 <= k < |rows| => MaxOf(rows[k]))
  }

  /**
   * The running `(max_score, max_preds)` of one sample after the shards `rows`
   * (`rows[k]` is that sample's logits in shard k): the first shard is taken as
   * it is; a later one replaces the pair only when its maximum is strictly
   * larger, its index shifted by the widths of the shards before it (`base`).
   */
  function Fold(rows: seq<seq<int>>): (int, int)
    requires |rows| > 0 && forall k :: 0 <= k < |rows| ==> |rows[k]| > 0
  {
    var n := |rows| - 1;
    if n == 0 then (MaxOf(rows[0]), ArgMax(rows[0]))
    else Step(Fold(rows[..n]), rows[n], Sum(Lens(rows[..n])))
  }

  /** One shard's turn in the fold: `torch.where(score > max_score, ...)` for one sample. */
  function Step(prev: (int, int), row: seq<int>, base: int): (int, int)
    requires |row| > 0
  {
    if MaxOf(row) > prev.0 then (MaxOf(row), ArgMax(row) + base) else prev
  }

  /** The shard whose prediction the fold keeps: the first one with the largest maximum. */
  function Winner(rows: seq<seq<int>>): (w: nat)
    requires |rows| > 0 && forall k :: 0 <= k < |rows| ==> |rows[k]| > 0
    ensures w < |rows|
  {
    ArgMax(LocalMaxes(rows))
  }

  /** The winning shard has the largest local maximum, and every shard before it a strictly smaller one. */
  lemma WinnerIsEarliestMax(rows: seq<seq<int>>)
    requires |rows| > 0 && forall k :: 0 <= k < |rows| ==> |rows[k]| > 0
    ensures forall i :: 0 <= i < |rows| ==> MaxOf(rows[i]) <= MaxOf(rows[Winner(rows)])
    ensures forall i :: 0 <= i < Winner(rows) ==> MaxOf(rows[i]) < MaxOf(rows[Winner(rows)])
  {
    ArgMaxIsFirstMax(LocalMaxes(rows));
  }

  /**
   * The fold ends with the largest local maximum and the local arg-max of the
   * earliest shard reaching it, shifted by the widths of the shards before that
   * one; on a tie the earlier shard's prediction is kept.
   */
  lemma {:induction false} FoldEarliestShard(rows: seq<seq<int>>)
    requires |rows| > 0 && forall k :: 0 <= k < |rows| ==> |rows[k]| > 0
    ensures Fold(rows).0 == MaxOf(rows[Winner(rows)])
    ensures Fold(rows).1 == Offset(Lens(rows), Winner(rows)) + ArgMax(rows[Winner(rows)])
  {
    if |rows| == 1 {
      assert Lens(rows)[..0] == [];
    } else {
      FoldEarliestShard(rows[..|rows| - 1]);
      FoldEarliestStep(rows);
    }
  }

  /** The induction step of FoldEarliestShard: one more shard either takes over or leaves the winner alone. */
  lemma {:induction false} FoldEarliestStep(rows: seq<seq<int>>)
    requires |rows| > 1 && forall k :: 0 <= k < |rows| ==> |rows[k]| > 0
    requires var pre := rows[..|rows| - 1];
             && Fold(pre).0 == MaxOf(pre[Winner(pre)])
             && Fold(pre).1 == Offset(Lens(pre), Winner(pre)) + ArgMax(pre[Winner(pre)])
    ensures Fold(rows).0 == MaxOf(rows[Winner(rows)])
    ensures Fold(rows).1 == Offset(Lens(rows), Winner(rows)) + ArgMax(rows[Winner(rows)])
  {
    var n := |rows| - 1;
    var pre := rows[..n];
    FoldUnfold(rows);
    PrefixFacts(rows, Winner(pre));
    WinnerUnfold(rows);
    StepCases(Fold(pre), rows[n], Sum(Lens(pre)));
  }

  /** Shard k's row and offset read the same in all the shards and in all but the last. */
  lemma PrefixFacts(rows: seq<seq<int>>, k: nat)
    requires |rows| > 1 && k < |rows| - 1
    ensures rows[..|rows| - 1][k] == rows[k]
    ensures Offset(Lens(rows[..|rows| - 1]), k) == Offset(Lens(rows), k)
    ensures Sum(Lens(rows[..|rows| - 1])) == Offset(Lens(rows), |rows| - 1)
  {
    var n := |rows| - 1;
    assert Lens(rows)[..n] == Lens(rows[..n]);
    OffsetOfPrefix(Lens(rows), n, k);
  }

  /** The last shard becomes the winner exactly when its maximum beats the previous winner's. */
  lemma WinnerUnfold(rows: seq<seq<int>>)
    requires |rows| > 1 && forall k :: 0 <= k < |rows| ==> |rows[k]| > 0
    ensures var n, k := |rows| - 1, Winner(rows[..|rows| - 1]);
            Winner(rows) == if MaxOf(rows[n]) > MaxOf(rows[k]) then n else k
  {
    var n := |rows| - 1;
    assert LocalMaxes(rows)[..n] == LocalMaxes(rows[..n]);
  }

  /** A step replaces the pair exactly when the new maximum is strictly larger. */
  lemma StepCases(prev: (int, int), row: seq<int>, base: int)
    requires |row| > 0
    ensures MaxOf(row) > prev.0 ==> Step(prev, row, base) == (MaxOf(row), ArgMax(row) + base)
    ensures MaxOf(row) <= prev.0 ==> Step(prev, row, base) == prev
  {
  }

  /** The fold over more than one shard is one step after the fold over all but the last. */
  lemma FoldUnfold(rows: seq<seq<int>>)
    requires |rows| > 1 && forall k :: 0 <= k < |rows| ==> |rows[k]| > 0
    ensures Fold(rows) == Step(Fold(rows[..|rows| - 1]), rows[|rows| - 1], Sum(Lens(rows[..|rows| - 1])))
  {
  }

  /** Merging per-shard maxima gives the maximum and the first arg-max of the concatenated row. */
  lemma {:induction false} FoldIsGlobalArgMax(rows: seq<seq<int>>)
    requires |rows| > 0 && forall k :: 0 <= k < |rows| ==> |rows[k]| > 0
    ensures |Concat(rows)| > 0
    ensures Fold(rows).0 == MaxOf(Concat(rows)) && Fold(rows).1 == ArgMax(Concat(rows))
  {
    var n := |rows| - 1;
    if n == 0 {
      assert Concat(rows) == rows[0] by {
        assert rows[..0] == [];
      }
    } else {
      var pre := rows[..n];
      FoldIsGlobalArgMax(pre);
      var a, last := Concat(pre), rows[n];
      assert |a| == Sum(Lens(pre)) by {
        ConcatLength(pre);
      }
      assert Concat(rows) == a + last;
      ArgMaxConcat(a, last);
      FoldUnfold(rows);
      assert Fold(rows).0 == MaxOf(a + last) && Fold(rows).1 == ArgMax(a + last);
    }
  }

  // ---------------------------------------------------------------------------
  // Whole tensors

  /** The shard tensors of a model-parallel forward pass: at least one, each well shaped, each with n rows. */
  predicate ShardsShaped(shards: seq<Matrix>, n: nat)
  {
    |shards| > 0 && forall k :: 0 <= k < |shards| ==> WellShaped(shards[k]) && |shards[k].data| == n
  }

  /** Sample b's row in every shard, in shard order. */
  function SampleRows(shards: seq<Matrix>, n: nat, b: nat): (rows: seq<seq<int>>)
    requires ShardsShaped(shards, n) && b < n
    ensures |rows| == |shards| && forall k :: 0 <= k < |shards| ==> rows[k] == shards[k].data[b]
  {
    seq(|shards|, k requires 0 <= k < |shards| => shards[k].data[b])
  }

  /** The widths `size()[1]` of the shard tensors. */
  function Cols(shards: seq<Matrix>): (r: seq<int>)
    ensures |r| == |shards| && forall k :: 0 <= k < |shards| ==> r[k] == shards[k].cols
  {
    seq(|shards|, k requires 0 <= k < |shards| => shards[k].cols as int)
  }

  /** The shards side by side, as `torch.cat(shards, dim=1)` would lay them out. */
  function CatColumns(shards: seq<Matrix>, n: nat): (m: Matrix)
    requires ShardsShaped(shards, n)
    ensures WellShaped(m) && |m.data| == n
  {
    var width := Sum(Cols(shards));
    var data := seq(n, b requires 0 <= b < n => Concat(SampleRows(shards, n, b)));
    assert forall b :: 0 <= b < n ==> |data[b]| == width by {
      forall b | 0 <= b < n ensures |data[b]| == width {
        ConcatLength(SampleRows(shards, n, b));
        assert Lens(SampleRows(shards, n, b)) == Cols(shards);
      }
    }
    assert width > 0 by {
      SumPositive(Cols(shards));
    }
    Matrix(width, data)
  }

  /** The per-sample predictions the shard-by-shard merge produces. */
  function MergedPreds(shards: seq<Matrix>, n: nat): (r: seq<int>)
    requires ShardsShaped(shards, n)
    ensures |r| == n
  {
    seq(n, b requires 0 <= b < n => Fold(SampleRows(shards, n, b)).1)
  }

  /** Merging shard by shard predicts exactly what one arg-max over the concatenated logits predicts. */
  lemma MergedIsConcatArgMax(shards: seq<Matrix>, n: nat)
    requires ShardsShaped(shards, n)
    ensures MergedPreds(shards, n) == RowArgMaxes(CatColumns(shards, n))
  {
    forall b | 0 <= b < n
      ensures MergedPreds(shards, n)[b] == RowArgMaxes(CatColumns(shards, n))[b]
    {
      FoldIsGlobalArgMax(SampleRows(shards, n, b));
    }
  }

  /** The fold state after the first k shards, for sample b, steps to the state after k + 1. */
  lemma SampleRowsStep(shards: seq<Matrix>, n: nat, k: nat, b: nat)
    requires ShardsShaped(shards, n) && b < n && k < |shards|
    ensures ShardsShaped(shards[..k + 1], n)
    ensures k > 0 ==> ShardsShaped(shards[..k], n) && SampleRows(shards[..k + 1], n, b)[..k] == SampleRows(shards[..k], n, b)
    ensures k > 0 ==> Sum(Lens(SampleRows(shards[..k], n, b))) == Sum(Cols(shards)[..k])
    ensures SampleRows(shards[..k + 1], n, b)[k] == shards[k].data[b]
  {
    if k > 0 {
      assert Lens(SampleRows(shards[..k], n, b)) == Cols(shards)[..k];
    }
  }

  /** `(max_score, max_preds)` hold, for every sample, the fold over the first k shards. */
  predicate Merged(shards: seq<Matrix>, n: nat, k: nat, maxScore: seq<int>, maxPreds: seq<int>)
  {
    && 0 < k <= |shards|
    && ShardsShaped(shards[..k], n)
    && |maxScore| == n && |maxPreds| == n
    && forall b :: 0 <= b < n ==>
         maxScore[b] == Fold(SampleRows(shards[..k], n, b)).0 && maxPreds[b] == Fold(SampleRows(shards[..k], n, b)).1
  }

  /** The first shard's maxima and arg-maxes start the fold. */
  lemma MergeFirst(shards: seq<Matrix>, n: nat)
    requires ShardsShaped(shards, n)
    ensures Merged(shards, n, 1, RowMaxes(shards[0]), RowArgMaxes(shards[0]))
  {
    forall b | 0 <= b < n
      ensures ShardsShaped(shards[..1], n) && SampleRows(shards[..1], n, b) == [shards[0].data[b]]
    {
    }
  }

  /** One `torch.where` update per sample advances the fold by one shard. */
  lemma MergeStep(shards: seq<Matrix>, n: nat, k: nat, maxScore: seq<int>, maxPreds: seq<int>, base: int,
                  newScore: seq<int>, newPreds: seq<int>)
    requires ShardsShaped(shards, n) && 0 < k < |shards|
    requires Merged(shards, n, k, maxScore, maxPreds)
    requires base == Sum(Cols(shards)[..k])
    requires |newScore| == n && |newPreds| == n
    requires forall b :: 0 <= b < n ==>
               var score, pred := RowMaxes(shards[k])[b], RowArgMaxes(shards[k])[b];
               && newScore[b] == (if score > maxScore[b] then score else maxScore[b])
               && newPreds[b] == (if score > maxScore[b] then pred + base else maxPreds[b])
    ensures Merged(shards, n, k + 1, newScore, newPreds)
  {
    assert ShardsShaped(shards[..k + 1], n) by {
      assert forall j :: 0 <= j < k + 1 ==> shards[..k + 1][j] == shards[j];
    }
    forall b | 0 <= b < n
      ensures newScore[b] == Fold(SampleRows(shards[..k + 1], n, b)).0
      ensures newPreds[b] == Fold(SampleRows(shards[..k + 1], n, b)).1
    {
      MergeStepAt(shards, n, k, b, base);
      StepCases(Fold(SampleRows(shards[..k], n, b)), shards[k].data[b], base);
    }
  }

  /** The fold for sample b after k + 1 shards is one `Step` after the fold after k shards. */
  lemma MergeStepAt(shards: seq<Matrix>, n: nat, k: nat, b: nat, base: int)
    requires ShardsShaped(shards, n) && 0 < k < |shards| && b < n
    requires base == Sum(Cols(shards)[..k])
    ensures ShardsShaped(shards[..k], n) && ShardsShaped(shards[..k + 1], n)
    ensures Fold(SampleRows(shards[..k + 1], n, b)) ==
            Step(Fold(SampleRows(shards[..k], n, b)), shards[k].data[b], base)
  {
    var rows := SampleRows(shards[..k + 1], n, b);
    SampleRowsStep(shards, n, k, b);
    FoldUnfold(rows);
  }

  /** Whether a model-parallel call computes an accuracy at this step (every tenth step, from step 10). */
  predicate Gate(step: int)
  {
    step > 0 && step % 10 == 0
  }

  /** The `outputs` argument: one dense logits tensor, or one tensor per class shard. */
  datatype Outputs = Dense(logits: Matrix) | Sharded(shards: seq<Matrix>)

  /**
   * `compute_batch_acc`. In model-parallel mode it returns 0 except on gated
   * steps; then it folds the shards left to right keeping, per sample, the best
   * score so far and its global class index, and that merge agrees with an
   * arg-max over the concatenated logits. Otherwise it takes the arg-max of the
   * single tensor.
   */
  method ComputeBatchAcc(outputs: Outputs, labels: seq<int>, batchSize: int, modelParallel: bool, step: int)
    returns (acc: Result<real>)
    requires modelParallel <==> outputs.Sharded?
    requires outputs.Dense? ==> WellShaped(outputs.logits) && |outputs.logits.data| == |labels|
    requires outputs.Sharded? && Gate(step) ==> ShardsShaped(outputs.shards, |labels|)
    ensures modelParallel && !Gate(step) ==> acc == Ok(0.0)
    ensures (modelParallel ==> Gate(step)) && batchSize == 0 ==> acc == Err(ZeroDivision)
    ensures modelParallel && Gate(step) && batchSize != 0 ==>
              acc == Ok(Ratio(Correct(MergedPreds(outputs.shards, |labels|), labels), batchSize))
              && acc == Ok(Ratio(Correct(RowArgMaxes(CatColumns(outputs.shards, |labels|)), labels), batchSize))
    ensures !modelParallel && batchSize != 0 ==> acc == Ok(Ratio(Correct(RowArgMaxes(outputs.logits), labels), batchSize))
  {
    if modelParallel {
      if !(step > 0 && step % 10 == 0) {
        return Ok(0.0);
      }
      var shards := outputs.shards;
      var n := |labels|;
      var maxScore: Option<seq<int>> := None;
      var maxPreds: Option<seq<int>> := None;
      var base := 0;
      var k := 0;
      while k < |shards|
        invariant 0 <= k <= |shards|
        invariant base == Sum(Cols(shards)[..k])
        invariant maxScore.None? <==> k == 0
        invariant maxPreds.None? <==> k == 0
        invariant k > 0 ==> Merged(shards, n, k, maxScore.value, maxPreds.value)
      {
        var t := shards[k];
        var split := t.cols;
        var score, preds := RowMaxes(t), RowArgMaxes(t);
        if maxScore.Some? {
          var cond := seq(n, b requires 0 <= b < n => score[b] > maxScore.value[b]);
          var newPreds := seq(n, b requires 0 <= b < n => if cond[b] then preds[b] + base else maxPreds.value[b]);
          var newScore := seq(n, b requires 0 <= b < n => if cond[b] then score[b] else maxScore.value[b]);
          MergeStep(shards, n, k, maxScore.value, maxPreds.value, base, newScore, newPreds);
          maxPreds := Some(newPreds);
          maxScore := Some(newScore);
        } else {
          MergeFirst(shards, n);
          maxScore := Some(score);
          maxPreds := Some(preds);
        }
        assert Cols(shards)[..k + 1] == Cols(shards)[..k] + [split];
        base := base + split;
        k := k + 1;
      }
      assert shards[..k] == shards;
      assert maxPreds.value == MergedPreds(shards, n);
      MergedIsConcatArgMax(shards, n);
      if batchSize == 0 {
        return Err(ZeroDivision);
      }
      acc := Ok(Correct(maxPreds.value, labels) as real / batchSize as real);
    } else {
      var preds := RowArgMaxes(outputs.logits);
      if batchSize == 0 {
        return Err(ZeroDivision);
      }
      acc := Ok(Correct(preds, labels) as real / batchSize as real);
    }
  }

  // ---------------------------------------------------------------------------
  // The distributed variant

  /**
   * What the participant of rank `rank` puts into the two all-gathers: its row
   * maxima, and its row arg-maxes shifted by its class offset `sum(class_split[:rank])`.
   */
  function LocalMaxima(classSplit: seq<int>, rank: nat, outputs: Matrix): (r: (seq<int>, seq<int>))
    requires rank <= |classSplit| && WellShaped(outputs)
    ensures |r.0| == |outputs.data| && |r.1| == |outputs.data|
    ensures forall b :: 0 <= b < |outputs.data| ==>
              var c := r.1[b] - Offset(classSplit, rank);
              0 <= c < outputs.cols && outputs.data[b][c] == r.0[b]
              && forall c' :: 0 <= c' < outputs.cols ==> outputs.data[b][c'] <= r.0[b]
  {
    var preds := RowArgMaxes(outputs);
    RowMaxesBound(outputs);
    (RowMaxes(outputs), seq(|outputs.data|, b requires 0 <= b < |outputs.data| => preds[b] + Offset(classSplit, rank)))
  }

  /** Every participant's score for sample b, in rank order. */
  function Column(gathered: seq<seq<int>>, b: nat): (r: seq<int>)
    requires forall q :: 0 <= q < |gathered| ==> b < |gathered[q]|
    ensures |r| == |gathered| && forall q :: 0 <= q < |gathered| ==> r[q] == gathered[q][b]
  {
    seq(|gathered|, q requires 0 <= q < |gathered| => gathered[q][b])
  }

  /**
   * The selection after the gathers: per sample, the participant with the highest
   * score (the first one on a tie) and that participant's prediction.
   */
  function SelectWinners(scoresGather: seq<seq<int>>, predsGather: seq<seq<int>>, n: nat): (preds: seq<int>)
    requires |scoresGather| > 0 && |predsGather| == |scoresGather|
    requires forall q :: 0 <= q < |scoresGather| ==> |scoresGather[q]| == n && |predsGather[q]| == n
    ensures |preds| == n
  {
    seq(n, b requires 0 <= b < n => predsGather[ArgMax(Column(scoresGather, b))][b])
  }

  /** Participant q has the highest score for sample b, and every participant of lower rank a strictly lower one. */
  predicate BestFor(scoresGather: seq<seq<int>>, b: nat, q: nat)
    requires forall r :: 0 <= r < |scoresGather| ==> b < |scoresGather[r]|
  {
    && q < |scoresGather|
    && (forall r :: 0 <= r < |scoresGather| ==> scoresGather[r][b] <= scoresGather[q][b])
    && (forall r :: 0 <= r < q ==> scoresGather[r][b] < scoresGather[q][b])
  }

  /** Each selected prediction is the prediction of the participant that scored best on that sample. */
  lemma SelectWinnersPicksBest(scoresGather: seq<seq<int>>, predsGather: seq<seq<int>>, n: nat, b: nat)
    requires |scoresGather| > 0 && |predsGather| == |scoresGather|
    requires forall q :: 0 <= q < |scoresGather| ==> |scoresGather[q]| == n && |predsGather[q]| == n
    requires b < n
    ensures exists q: nat :: BestFor(scoresGather, b, q) && SelectWinners(scoresGather, predsGather, n)[b] == predsGather[q][b]
  {
    var col := Column(scoresGather, b);
    ArgMaxIsFirstMax(col);
    var q := ArgMax(col);
    assert BestFor(scoresGather, b, q);
  }

  /** The predictions of the distributed merge, every participant's contribution computed from its own outputs. */
  function DistPreds(classSplit: seq<int>, allOutputs: seq<Matrix>, n: nat): (r: seq<int>)
    requires 0 < |allOutputs| <= |classSplit|
    requires forall q :: 0 <= q < |allOutputs| ==> WellShaped(allOutputs[q]) && |allOutputs[q].data| == n
    ensures |r| == n
  {
    var scoresGather := seq(|allOutputs|, q requires 0 <= q < |allOutputs| => LocalMaxima(classSplit, q, allOutputs[q]).0);
    var predsGather := seq(|allOutputs|, q requires 0 <= q < |allOutputs| => LocalMaxima(classSplit, q, allOutputs[q]).1);
    SelectWinners(scoresGather, predsGather, n)
  }

  /**
   * `compute_batch_acc_dist`, seen from any participant: `allOutputs[q]` is the
   * logits tensor of rank q, `labels` are the labels of the whole batch. The
   * `batch_size` argument is replaced by the number of labels, so an empty
   * batch fails at `torch.range(0, batch_size - 1)`, before the division.
   */
  function ComputeBatchAccDist(worldSize: int, allOutputs: seq<Matrix>, labels: seq<int>, batchSize: int, classSplit: seq<int>)
    : (r: Result<real>)
    requires worldSize == |classSplit| ==> worldSize > 0 && |allOutputs| == worldSize
    requires worldSize == |classSplit| ==>
               forall q :: 0 <= q < |allOutputs| ==> WellShaped(allOutputs[q]) && |allOutputs[q].data| == |labels|
    ensures r.Err? <==> worldSize != |classSplit| || |labels| == 0
    ensures worldSize != |classSplit| ==> r == Err(SplitMismatch)
    ensures worldSize == |classSplit| && |labels| == 0 ==> r == Err(EmptyRange)
    ensures r.Ok? ==> 0.0 <= r.value <= 1.0
  {
    if worldSize != |classSplit| then Err(SplitMismatch)
    else if |labels| == 0 then Err(EmptyRange)
    else
      var preds := DistPreds(classSplit, allOutputs, |labels|);
      AccuracyInUnitInterval(preds, labels);
      Ok(Ratio(Correct(preds, labels), |labels|))
  }

  /**
   * When every participant's tensor is as wide as its entry of the split, the
   * distributed merge predicts exactly the arg-max over the concatenated logits,
   * which is also what the single-process shard fold predicts.
   */
  lemma {:induction false} DistIsConcatArgMax(classSplit: seq<int>, allOutputs: seq<Matrix>, n: nat)
    requires ShardsShaped(allOutputs, n) && Cols(allOutputs) == classSplit
    ensures DistPreds(classSplit, allOutputs, n) == RowArgMaxes(CatColumns(allOutputs, n))
    ensures DistPreds(classSplit, allOutputs, n) == MergedPreds(allOutputs, n)
  {
    forall b | 0 <= b < n
      ensures DistPreds(classSplit, allOutputs, n)[b] == MergedPreds(allOutputs, n)[b]
    {
      DistPredsAt(classSplit, allOutputs, n, b);
    }
    MergedIsConcatArgMax(allOutputs, n);
  }

  /** For one sample, the distributed selection equals the shard-by-shard fold. */
  lemma {:induction false} DistPredsAt(classSplit: seq<int>, allOutputs: seq<Matrix>, n: nat, b: nat)
    requires ShardsShaped(allOutputs, n) && Cols(allOutputs) == classSplit && b < n
    ensures DistPreds(classSplit, allOutputs, n)[b] == Fold(SampleRows(allOutputs, n, b)).1
  {
    var scoresGather := seq(|allOutputs|, q requires 0 <= q < |allOutputs| => LocalMaxima(classSplit, q, allOutputs[q]).0);
    var rows := SampleRows(allOutputs, n, b);
    assert Column(scoresGather, b) == LocalMaxes(rows);
    assert Lens(rows) == classSplit;
    FoldEarliestShard(rows);
  }

  /** End to end: with widths matching the split, the distributed accuracy is the accuracy of the concatenated logits. */
  lemma {:induction false} DistAccuracyIsConcatAccuracy(worldSize: int, allOutputs: seq<Matrix>, labels: seq<int>, batchSize: int, classSplit: seq<int>)
    requires worldSize == |classSplit| && |labels| > 0
    requires ShardsShaped(allOutputs, |labels|) && |allOutputs| == worldSize && Cols(allOutputs) == classSplit
    ensures ComputeBatchAccDist(worldSize, allOutputs, labels, batchSize, classSplit)
            == Ok(Ratio(Correct(RowArgMaxes(CatColumns(allOutputs, |labels|)), labels), |labels|))
  {
    DistIsConcatArgMax(classSplit, allOutputs, |labels|);
  }
}
