/**
 * The part of `torch.max(t, dim)` that utils.py relies on, over integer scores:
 * the largest value of a row and the index where it sits. PyTorch does not fix
 * which index wins a tie; this model chooses the first one.
 */
module TensorMax {
  import opened ClassSplit

  /** Index of the first largest entry of a non-empty row (ArgMaxIsFirstMax). */
  function ArgMax(row: seq<int>): (k: nat)
    requires |row| > 0
    ensures k < |row|
  {
    if |row| == 1 then 0
    else
      var k := ArgMax(row[..|row| - 1]);
      if row[|row| - 1] > row[k] then |row| - 1 else k
  }

  /** ArgMax points at a largest entry, and every entry before it is strictly smaller. */
  lemma {:induction false} ArgMaxIsFirstMax(row: seq<int>)
    requires |row| > 0
    ensures forall i :: 0 <= i < |row| ==> row[i] <= row[ArgMax(row)]
    ensures forall i :: 0 <= i < ArgMax(row) ==> row[i] < row[ArgMax(row)]
  {
    if |row| > 1 {
      var pre := row[..|row| - 1];
      ArgMaxIsFirstMax(pre);
      assert forall i :: 0 <= i < |pre| ==> pre[i] == row[i];
    }
  }

  /** The largest entry of a non-empty row. */
  function MaxOf(row: seq<int>): int
    requires |row| > 0
  {
    row[ArgMax(row)]
  }

  /** The two properties in ArgMax's contract pin down a single index. */
  lemma ArgMaxUnique(row: seq<int>, k: nat)
    requires k < |row|
    requires forall i :: 0 <= i < |row| ==> row[i] <= row[k]
    requires forall i :: 0 <= i < k ==> row[i] < row[k]
    ensures ArgMax(row) == k
  {
    ArgMaxIsFirstMax(row);
  }

  /** Arg-max of a concatenation: the right part wins only when its maximum is strictly larger. */
  lemma {:induction false} ArgMaxConcat(a: seq<int>, b: seq<int>)
    requires |a| > 0 && |b| > 0
    ensures ArgMax(a + b) == if MaxOf(b) > MaxOf(a) then |a| + ArgMax(b) else ArgMax(a)
    ensures MaxOf(a + b) == if MaxOf(b) > MaxOf(a) then MaxOf(b) else MaxOf(a)
  {
    var ab := a + b;
    var ka, kb := ArgMax(a), ArgMax(b);
    ArgMaxIsFirstMax(a);
    ArgMaxIsFirstMax(b);
    if MaxOf(b) > MaxOf(a) {
      var c := |a| + kb;
      forall i | 0 <= i < |ab| ensures ab[i] <= ab[c] && (i < c ==> ab[i] < ab[c]) {
        if i < |a| { assert ab[i] == a[i]; } else { assert ab[i] == b[i - |a|]; }
      }
      ArgMaxUnique(ab, c);
    } else {
      forall i | 0 <= i < |ab| ensures ab[i] <= ab[ka] && (i < ka ==> ab[i] < ab[ka]) {
        if i < |a| { assert ab[i] == a[i]; } else { assert ab[i] == b[i - |a|]; }
      }
      ArgMaxUnique(ab, ka);
    }
  }

  /** A dense 2-D tensor: `cols` is `size()[1]`, `data[b]` is row b (one row per sample). */
  datatype Matrix = Matrix(cols: nat, data: seq<seq<int>>)

  /** Every row has `cols` entries and there is at least one column, as `torch.max(t, 1)` needs. */
  predicate WellShaped(m: Matrix)
  {
    m.cols > 0 && forall b :: 0 <= b < |m.data| ==> |m.data[b]| == m.cols
  }

  /** The scores `torch.max(t, 1)` returns. */
  function RowMaxes(m: Matrix): (r: seq<int>)
    requires WellShaped(m)
    ensures |r| == |m.data|
    ensures forall b :: 0 <= b < |r| ==> r[b] == MaxOf(m.data[b])
  {
    seq(|m.data|, b requires 0 <= b < |m.data| => MaxOf(m.data[b]))
  }

  /** Each row maximum occurs in its row and bounds every entry of it. */
  lemma RowMaxesBound(m: Matrix)
    requires WellShaped(m)
    ensures forall b :: 0 <= b < |m.data| ==> RowMaxes(m)[b] in m.data[b]
    ensures forall b, c :: 0 <= b < |m.data| && 0 <= c < m.cols ==> m.data[b][c] <= RowMaxes(m)[b]
  {
    forall b | 0 <= b < |m.data| ensures RowMaxes(m)[b] in m.data[b] && forall c :: 0 <= c < m.cols ==> m.data[b][c] <= RowMaxes(m)[b] {
      ArgMaxIsFirstMax(m.data[b]);
    }
  }

  /** The indices `torch.max(t, 1)` returns. */
  function RowArgMaxes(m: Matrix): (r: seq<int>)
    requires WellShaped(m)
    ensures |r| == |m.data|
    ensures forall b :: 0 <= b < |r| ==> r[b] == ArgMax(m.data[b])
    ensures forall b :: 0 <= b < |r| ==> 0 <= r[b] < m.cols && m.data[b][r[b]] == RowMaxes(m)[b]
  {
    seq(|m.data|, b requires 0 <= b < |m.data| => ArgMax(m.data[b]) as int)
  }

  /** The rows laid end to end, as `torch.cat` along the class axis does to one sample's shard rows. */
  function Concat(rows: seq<seq<int>>): seq<int>
  {
    if |rows| == 0 then [] else Concat(rows[..|rows| - 1]) + rows[|rows| - 1]
  }

  /** The widths of the rows. */
  function Lens(rows: seq<seq<int>>): (r: seq<int>)
    ensures |r| == |rows|
    ensures forall k :: 0 <= k < |rows| ==> r[k] == |rows[k]|
  {
    seq(|rows|, k requires 0 <= k < |rows| => |rows[k]|)
  }

  /** The widths add up to the length of the concatenation. */
  lemma {:induction false} ConcatLength(rows: seq<seq<int>>)
    ensures |Concat(rows)| == Sum(Lens(rows))
  {
    if |rows| > 0 {
      var n := |rows| - 1;
      ConcatLength(rows[..n]);
      assert Lens(rows)[..n] == Lens(rows[..n]);
    }
  }
}
