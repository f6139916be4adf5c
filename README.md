# Class-sharded softmax helpers, modelled in Dafny

`utils.py` serves a training setup in which the classifier's output classes are
cut into contiguous shards, one per GPU or per process. This project models the
index arithmetic of that file:

- `get_class_split` divides `num_classes` into `num_gpus` shard sizes. The first
  `num_classes % num_gpus` shards get one class more than the others.
- `get_sparse_onehot_label_dist` takes the gathered labels of the whole batch and
  puts each label in the shard whose range `[start_index, end_index)` holds it.
  Each shard gets a sparse 0/1 matrix of shape (batch size, shard size), with a
  one at (row, label - start_index).
- `compute_batch_acc` computes an accuracy. With model parallelism it does so
  every tenth step, folding the shards left to right: per sample it keeps the best
  score so far and its global class index. It is then proved to agree with one
  arg-max over the concatenated logits.
- `compute_batch_acc_dist` does the same across processes. Each rank offsets its
  local arg-max by `sum(class_split[:rank])`. After the all-gathers, each sample
  takes the prediction of the rank with the highest score.

Modules:

- `ClassSplit` (`class_split.dfy`): the split and the prefix sums (offsets).
- `TensorMax` (`tensor_max.dfy`): `torch.max` along a dimension, over integer scores.
- `SparseLabel` (`sparse_label.dfy`): the label bucketing.
- `BatchAccuracy` (`batch_accuracy.dfy`): both accuracy routines.
- `Wrappers` (`wrappers.dfy`): `Option` and `Result`. A Python `assert` or a
  library error is an `Err`, carrying the source's assertion message, Python's
  "division by zero", or PyTorch's message.

Collectives are not modelled. Whatever `dist.all_gather` delivers is an input:
- the concatenated label list;
- `allOutputs[q]`, the logits tensor of rank q, from which rank q's gathered
  scores and predictions are computed.

Scores are integers. A tie in `torch.max` goes to the first index, which PyTorch
does not promise. An accuracy is an exact `real`.

## Model

| member | source | states |
|---|---|---|
| ClassSplit.GetClassSplit | utils.py:6-13 | the loop builds `Split(numClasses, numGpus)`: one entry per GPU (none when `num_gpus` is not positive), summing to `num_classes`, each the floor quotient plus one below the remainder, non-increasing and never differing by more than one |
| ClassSplit.SplitSum | utils.py:6-13 | a split for a positive GPU count has `num_gpus` entries adding up to `num_classes` |
| ClassSplit.SplitPrefixSum | utils.py:8-12 | the first k shards hold k times the quotient plus min(k, remainder) classes |
| ClassSplit.SplitShape | utils.py:9-11 | shard i gets the quotient plus one exactly when i is below `num_classes % num_gpus`; every shard gets the quotient or the quotient plus one; sizes are non-increasing and balanced |
| ClassSplit.OffsetsTile | utils.py:39-49 | `start_index` starts at 0, each shard's `end_index` is the next shard's `start_index`, and the last `end_index` is the sum of the split |
| ClassSplit.OffsetMonotone | utils.py:39-49 | with sizes that are not negative, start indices never decrease |
| ClassSplit.SumPositive | utils.py:40-49 | shards of positive width have a positive total width |
| TensorMax.ArgMaxIsFirstMax | utils.py:103 | the index `torch.max(..., dim=1)` returns holds a largest entry of the row, and every entry before it is strictly smaller |
| TensorMax.ArgMaxUnique | utils.py:103 | those two properties determine the index |
| TensorMax.ArgMaxConcat | utils.py:106-112 | arg-max of the concatenation of two rows: the right part wins only when its maximum is strictly larger, and its index is then shifted by the left part's width |
| TensorMax.RowMaxesBound | utils.py:128 | each returned row maximum occurs in its row and bounds every entry of it |
| TensorMax.RowArgMaxes | utils.py:117 | one index per row, inside the row, pointing at that row's maximum |
| TensorMax.ConcatLength | utils.py:102-113 | the shard widths add up to the length of the concatenated row |
| SparseLabel.FirstShard | utils.py:52-57 | the inner scan finds a shard at or after j whose range holds the label, with no earlier such shard; when it finds none, no shard from j on holds the label |
| SparseLabel.ShardOfExact | utils.py:51-57 | with sizes that are not negative, a label lands in shard j exactly when `start_index <= label < end_index` of shard j |
| SparseLabel.ShardOfTotal | utils.py:51-57 | with sizes that are not negative, a label lands in some shard exactly when it lies in `[0, sum(class_split))`; other labels are dropped |
| SparseLabel.CoordsMembership | utils.py:51-57 | `(row, col)` is in shard j's `index_list` exactly when row is a batch position whose label went to shard j and col is that label minus `start_index` |
| SparseLabel.CoordsRowsIncrease | utils.py:51-57 | the rows in each `index_list` lie in the batch and strictly increase |
| SparseLabel.LocalColumnInShard | utils.py:51-57 | every recorded column is a valid column of the shard, and `start_index` plus the column gives back the label |
| SparseLabel.RowPlacement | utils.py:51-57 | a label is recorded at its local column in the shard whose range holds it and in no other; such a shard exists exactly when the label is in `[0, sum(class_split))`; no two shards' ranges both hold it |
| SparseLabel.SingleShardBatch | utils.py:51-63 | a batch whose labels all fall in shard j gives shard j one entry per row, in row order, and every other shard an empty list |
| SparseLabel.CoordsStep | utils.py:51-57 | scanning one more label extends each shard's list by at most that label's coordinate |
| SparseLabel.PlaceStep | utils.py:51-57 | one pass of the inner loop moves every `splits_dict` entry from its state after `row` labels to its state after `row + 1` |
| SparseLabel.GetSparseOnehotLabelDist | utils.py:29-73 | a split whose length is not `world_size` fails with the assertion's message; otherwise the result is the labels plus, for each shard, a (batch size × shard size) sparse matrix whose nonzeros are exactly that shard's `index_list`, all 1 (empty when `nums == 0`) |
| BatchAccuracy.Correct | utils.py:115 | the number of correct predictions never exceeds the batch |
| BatchAccuracy.CorrectExtremes | utils.py:115 | the count equals the batch exactly when every prediction is right, and is zero exactly when none is |
| BatchAccuracy.AccuracyInUnitInterval | utils.py:145 | with the batch size equal to the number of labels, the accuracy lies in [0, 1] |
| BatchAccuracy.WinnerIsEarliestMax | utils.py:106-109 | the shard whose prediction survives has the largest local maximum, and every shard before it has a strictly smaller one |
| BatchAccuracy.FoldEarliestShard | utils.py:98-113 | the shard-by-shard merge ends with the largest local maximum and with the local arg-max of the earliest shard reaching it, shifted by that shard's `base` |
| BatchAccuracy.FoldEarliestStep | utils.py:106-113 | one more shard either takes over, when its maximum is strictly larger, or leaves the result alone |
| BatchAccuracy.PrefixFacts | utils.py:113 | `base` before shard k is the sum of the widths of the shards before it |
| BatchAccuracy.WinnerUnfold | utils.py:107 | the last shard becomes the winner exactly when `score > max_score` |
| BatchAccuracy.FoldIsGlobalArgMax | utils.py:98-113 | the merged `(max_score, max_preds)` of a sample are the maximum and the first arg-max of its concatenated logits |
| BatchAccuracy.CatColumns | utils.py:101-113 | the shards placed side by side form a well-shaped tensor with one row per sample |
| BatchAccuracy.MergedIsConcatArgMax | utils.py:98-114 | the merged predictions of the whole batch equal `torch.max` over the concatenated logits |
| BatchAccuracy.SampleRowsStep | utils.py:101-102 | a sample's rows in the first k + 1 shards are its rows in the first k plus its row in shard k |
| BatchAccuracy.MergeFirst | utils.py:110-112 | after the first shard, `max_score` and `max_preds` are that shard's row maxima and arg-maxes |
| BatchAccuracy.MergeStep | utils.py:106-109 | the two `torch.where` updates take the merge state from k shards to k + 1 shards, for every sample |
| BatchAccuracy.MergeStepAt | utils.py:101-113 | for one sample, the merge after k + 1 shards is one step after the merge after k shards |
| BatchAccuracy.ComputeBatchAcc | utils.py:76-120 | model-parallel calls off the gate (`step > 0 and step % 10 == 0`) return 0. A zero batch size fails at the division. Otherwise the merged accuracy is returned, equal to the accuracy of an arg-max over the concatenated logits. A dense call returns the accuracy of the single tensor's arg-max |
| BatchAccuracy.LocalMaxima | utils.py:126-129 | rank q's gathered prediction minus `sum(class_split[:q])` is a column of its tensor holding the gathered score, and no entry of that row is larger |
| BatchAccuracy.SelectWinnersPicksBest | utils.py:139-143 | each selected prediction belongs to a rank with the highest score for that sample, every lower rank scoring strictly less |
| BatchAccuracy.DistPredsAt | utils.py:126-143 | for one sample, the distributed selection equals the shard-by-shard merge |
| BatchAccuracy.DistIsConcatArgMax | utils.py:123-143 | when each rank's tensor is as wide as its split entry, the distributed predictions equal the arg-max over the concatenated logits and the single-process merge |
| BatchAccuracy.ComputeBatchAccDist | utils.py:123-147 | fails with the assertion's message exactly when `world_size != len(class_split)`, whatever the outputs; with a matching split, an empty batch fails at `torch.range(0, -1)` (utils.py:142); any other result is an accuracy in [0, 1] |
| BatchAccuracy.DistAccuracyIsConcatAccuracy | utils.py:123-147 | end to end, the distributed accuracy is the accuracy of the arg-max over the concatenated logits |

## Left out

- `dist.all_gather` and the surrounding `torch.cat` / `torch.stack` (utils.py:30-32, 134-140) are not modelled as collectives. Their results are inputs: the concatenated labels, and every rank's logits. A call is seen from any one rank.
- Device placement (`.cuda()`, `.to(i)`, `.to(0)`) does not change values and is left out.
- The sparse tensors are a shape, a coordinate list and a value list. `torch.sparse.LongTensor`'s storage and the transpose of the index tensor are not modelled.
- `get_onehot_label` (utils.py:16-26) is a dense `scatter_` plus `comm.scatter` with no index arithmetic of its own. It is not part of this model.
- `see_memory_usage` and the `__main__` block are diagnostics and are left out.
- Scores are integers, not floats. NaN and floating-point rounding are not modelled.
- `torch.max` keeps the first index on a tie; PyTorch does not specify this.
- Accuracy is an exact rational, not a Python float.
- 64-bit overflow of labels, indices and sums is not modelled; integers are unbounded.
- `compute_batch_acc` wraps `outputs` in a list (utils.py:97), so each `logit_same_tuple` holds a single shard. `sum(logit_same_tuple)` is that shard, and the model treats it that way. The `zip(*outputs)` / `sum(logit_same_tuple)` structure of utils.py:101-103 would add up several partial logits per shard, but with the wrapping that never happens.
- BatchAccuracy.ComputeBatchAcc: on a gated model-parallel step, an empty `outputs` tuple (the loop never runs, `preds` is `None` and utils.py:115 fails), and a shard with no columns make PyTorch or Python raise. Shards whose row count differs from the number of labels either raise or, when one side has a single row, are broadcast by `torch.where` and `preds == labels` (utils.py:108-109, 115) to a different count. Off the gate nothing is demanded of the shards. A dense tensor with no columns raises, and so does a list passed as `outputs` without `model_parallel`. A dense tensor whose row count differs from the number of labels raises or broadcasts the same way (utils.py:118). All of these are outside the model: they are preconditions, not error results.
- BatchAccuracy.ComputeBatchAccDist: with a matching split, a world size of zero (so an empty `class_split` too) makes `torch.stack` of an empty list raise. That case is a precondition, as are tensors with one row per label and at least one column; none of them is demanded when the split does not match, since the assertion at utils.py:125 fails first. The message for an empty batch is PyTorch's `torch.range` error as read from its source code. The `batch_size` argument is accepted and ignored, since the source overwrites it with `labels.size(0)`. The rank only enters through each rank's offset.
- `splits_dict` is a sequence indexed by shard number rather than a dictionary, because its keys are exactly 0 .. world_size - 1.
