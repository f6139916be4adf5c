/**
 * The class splitter of utils.py (`get_class_split`) and the prefix sums
 * ("class offsets") that every other routine derives from a split.
 */
module ClassSplit {

  /** Sum of a sequence, peeling off the last element (the order in which loops append). */
  function Sum(s: seq<int>): int
  {
    if |s| == 0 then 0 else Sum(s[..|s| - 1]) + s[|s| - 1]
  }

  /** The first class index of shard i: the sizes of the shards before it, added up (`sum(class_split[:i])`). */
  function Offset(split: seq<int>, i: nat): int
    requires i <= |split|
  {
    Sum(split[..i])
  }

  /** A non-empty sequence of positive numbers has a positive sum. */
  lemma {:induction false} SumPositive(s: seq<int>)
    requires |s| > 0 && forall k :: 0 <= k < |s| ==> s[k] > 0
    ensures Sum(s) > 0
  {
    if |s| > 1 {
      SumPositive(s[..|s| - 1]);
    }
  }

  /** Offsets start at 0, each range ends where the next begins, and the last ends at the total. */
  lemma OffsetsTile(split: seq<int>, i: nat)
    requires i < |split|
    ensures Offset(split, 0) == 0
    ensures Offset(split, i + 1) == Offset(split, i) + split[i]
    ensures Offset(split, |split|) == Sum(split)
  {
    assert split[..i + 1][..i] == split[..i];
    assert split[..|split|] == split;
  }

  /** With sizes that are not negative, offsets never decrease. */
  lemma {:induction false} OffsetMonotone(split: seq<int>, a: nat, b: nat)
    requires a <= b <= |split|
    requires forall k :: 0 <= k < |split| ==> split[k] >= 0
    ensures Offset(split, a) <= Offset(split, b)
  {
    if a < b {
      OffsetMonotone(split, a, b - 1);
      OffsetsTile(split, b - 1);
    }
  }

  /** Offsets of a sequence agree with those of any longer sequence it is a prefix of. */
  lemma OffsetOfPrefix(split: seq<int>, n: nat, i: nat)
    requires i <= n <= |split|
    ensures Offset(split[..n], i) == Offset(split, i)
  {
    assert split[..n][..i] == split[..i];
  }

  /**
   * Size of shard i when numClasses classes go to numGpus shards: the floor
   * quotient, plus one for the first `numClasses % numGpus` shards. Dafny's `/`
   * and `%` agree with Python's `//` and `%` because the divisor is positive.
   */
  function ShardSize(numClasses: int, numGpus: int, i: int): int
    requires numGpus > 0
  {
    numClasses / numGpus + (if i < numClasses % numGpus then 1 else 0)
  }

  /** The split `get_class_split` returns; no shard at all when numGpus is not positive. */
  function Split(numClasses: int, numGpus: int): seq<int>
  {
    if numGpus <= 0 then [] else seq(numGpus, i => ShardSize(numClasses, numGpus, i))
  }

  /** The first k shards of the split hold k times the quotient plus one class for each of them below the remainder. */
  lemma {:induction false} SplitPrefixSum(numClasses: int, numGpus: int, k: nat)
    requires 0 < numGpus && k <= numGpus
    ensures Sum(Split(numClasses, numGpus)[..k]) ==
            k * (numClasses / numGpus) + (if k < numClasses % numGpus then k else numClasses % numGpus)
  {
    var s := Split(numClasses, numGpus);
    if k > 0 {
      SplitPrefixSum(numClasses, numGpus, k - 1);
      assert s[..k][..k - 1] == s[..k - 1];
      assert (k - 1) * (numClasses / numGpus) + numClasses / numGpus == k * (numClasses / numGpus);
    }
  }

  /** The split has numGpus entries, they add up to numClasses, and no class is lost or counted twice. */
  lemma SplitSum(numClasses: int, numGpus: int)
    requires numGpus > 0
    ensures |Split(numClasses, numGpus)| == numGpus
    ensures Sum(Split(numClasses, numGpus)) == numClasses
  {
    var s := Split(numClasses, numGpus);
    SplitPrefixSum(numClasses, numGpus, numGpus);
    assert s[..numGpus] == s;
  }

  /** Shape of the split: quotient or quotient plus one, the larger ones first, so non-increasing and balanced. */
  lemma SplitShape(numClasses: int, numGpus: int, i: nat, j: nat)
    requires numGpus > 0 && i <= j < numGpus
    ensures var s := Split(numClasses, numGpus);
            && (s[i] == numClasses / numGpus + 1 <==> i < numClasses % numGpus)
            && (s[i] == numClasses / numGpus || s[i] == numClasses / numGpus + 1)
            && s[j] <= s[i] <= s[j] + 1
  {
  }

  /** `get_class_split`: appends one shard size per device, in device order. */
  method GetClassSplit(numClasses: int, numGpus: int) returns (split: seq<int>)
    ensures split == Split(numClasses, numGpus)
    ensures |split| == if numGpus > 0 then numGpus else 0
    ensures numGpus > 0 ==> Sum(split) == numClasses
    ensures numGpus > 0 ==> forall i :: 0 <= i < |split| ==> split[i] == ShardSize(numClasses, numGpus, i)
    ensures forall i, j :: 0 <= i <= j < |split| ==> split[j] <= split[i] <= split[j] + 1
  {
    split := [];
    var i := 0;
    while i < numGpus
      invariant if numGpus > 0 then i <= numGpus else i == 0
      invariant |split| == i
      invariant numGpus > 0 ==> forall k :: 0 <= k < i ==> split[k] == ShardSize(numClasses, numGpus, k)
    {
      var classNum := numClasses / numGpus;
      if i < numClasses % numGpus {
        classNum := classNum + 1;
      }
      split := split + [classNum];
      i := i + 1;
    }
    if numGpus > 0 {
      assert split == Split(numClasses, numGpus);
      SplitSum(numClasses, numGpus);
      forall i, j | 0 <= i <= j < |split|
        ensures split[j] <= split[i] <= split[j] + 1
      {
        SplitShape(numClasses, numGpus, i, j);
      }
    }
  }
}
