/** The indexes of the largest values of each row of a batch. */
module TopResults {
  import opened MixedRadix
  import opened Sequences
  import Splitter

  datatype Outcome = Done(output: seq<nat>) | BadDimensions | Undefined

  /** Largest values first, and nothing larger left out. */
  ghost predicate IsTop(data: seq<int>, top: seq<nat>) {
    && Distinct(top) && (forall a | 0 <= a < |top| :: top[a] < |data|)
    && (forall a, b | 0 <= a < b < |top| :: data[top[a]] >= data[top[b]])
    && (forall e, a | 0 <= e < |data| && e !in top && 0 <= a < |top| :: data[top[a]] >= data[e])
  }

  lemma Subset(s: set<nat>, t: set<nat>)
    requires s <= t
    ensures |s| <= |t|
  {
    assert t == s + (t - s);
  }

  /** Ties apart, the answer is unique: the values listed are determined. */
  lemma TopValuesUnique(data: seq<int>, top: seq<nat>, top': seq<nat>, a: nat)
    requires IsTop(data, top) && IsTop(data, top') && a < |top| && a < |top'|
    ensures data[top[a]] == data[top'[a]]
  {
    if data[top[a]] > data[top'[a]] { NotLarger(data, top, top', a); }
    if data[top[a]] < data[top'[a]] { NotLarger(data, top', top, a); }
  }

  lemma NotLarger(data: seq<int>, top: seq<nat>, top': seq<nat>, a: nat)
    requires IsTop(data, top) && IsTop(data, top') && a < |top| && a < |top'|
    ensures data[top[a]] <= data[top'[a]]
  {
    if data[top[a]] > data[top'[a]] {
      forall e | e in top[..a + 1]
        ensures e in top'[..a]
      {
        var t :| 0 <= t <= a && top[t] == e;
        assert data[e] > data[top'[a]];
        assert e in top';
      }
      DistinctCount(top[..a + 1]);
      DistinctCount(top'[..a]);
      Subset(Elems(top[..a + 1]), Elems(top'[..a]));
    }
  }

  // ---- sorting the front of an array -----------------------------------------------------

  /** The first k entries are in order, and no later one is larger. */
  ghost predicate FrontSorted(s: seq<nat>, k: nat, data: seq<int>)
    requires k <= |s| && forall i | 0 <= i < |s| :: s[i] < |data|
  {
    forall i, j | 0 <= i < k && i < j < |s| :: data[s[i]] >= data[s[j]]
  }

  /** Stands for std::partial_sort, of which only what it ensures is used. */
  method PartialSort(indexes: array<nat>, n: nat, data: seq<int>)
    requires n <= indexes.Length && Distinct(indexes[..])
    requires forall i | 0 <= i < indexes.Length :: indexes[i] < |data|
    modifies indexes
    ensures Distinct(indexes[..]) && forall x :: x in indexes[..] <==> x in old(indexes[..])
    ensures forall i | 0 <= i < indexes.Length :: indexes[i] < |data|
    ensures FrontSorted(indexes[..], n, data)
  {
    for k := 0 to n
      invariant Distinct(indexes[..]) && forall x :: x in indexes[..] <==> x in old(indexes[..])
      invariant forall i | 0 <= i < indexes.Length :: indexes[i] < |data|
      invariant FrontSorted(indexes[..], k, data)
    {
      var best := k;
      for i := k + 1 to indexes.Length
        invariant k <= best < indexes.Length
        invariant forall j | k <= j < i :: data[indexes[best]] >= data[indexes[j]]
      {
        if data[indexes[i]] > data[indexes[best]] {
          best := i;
        }
      }
      SwapKeeps(indexes[..], k, best, data);
      ghost var s := indexes[..];
      indexes[k], indexes[best] := indexes[best], indexes[k];
      assert indexes[..] == s[k := s[best]][best := s[k]];
    }
  }

  lemma SwapKeeps(s: seq<nat>, k: nat, best: nat, data: seq<int>)
    requires k <= best < |s| && Distinct(s) && forall i | 0 <= i < |s| :: s[i] < |data|
    requires FrontSorted(s, k, data) && forall j | k <= j < |s| :: data[s[best]] >= data[s[j]]
    ensures var t := s[k := s[best]][best := s[k]];
            && Distinct(t) && (forall x :: x in t <==> x in s)
            && (forall i | 0 <= i < |t| :: t[i] < |data|) && FrontSorted(t, k + 1, data)
  {
    var t := s[k := s[best]][best := s[k]];
    forall x
      ensures x in t <==> x in s
    {
      assert t[k] == s[best] && t[best] == s[k];
      if x in s {
        var i :| 0 <= i < |s| && s[i] == x;
        assert t[i] == if i == k then s[best] else if i == best then s[k] else s[i];
      }
    }
  }

  // ---- all rows ------------------------------------------------------------------------------

  /** Row i of the data, and of the answer. */
  function RowOf<T>(s: seq<T>, i: nat, length: nat): seq<T>
    requires (i + 1) * length <= |s|
  {
    assert i * length <= (i + 1) * length;
    s[i * length..(i + 1) * length]
  }

  lemma RowFits(i: nat, batch: nat, length: nat)
    requires i < batch
    ensures i * length + length == (i + 1) * length <= batch * length
  {
    assert (batch - i - 1) * length >= 0;
    assert batch * length == (i + 1) * length + (batch - i - 1) * length;
  }

  function Min(a: nat, b: nat): nat {
    if b < a then b else a
  }

  /** The number asked for is cut to the size of the whole input, not of a row:
      with several rows, asking for more than a row holds is undefined.  In all
      other cases every row of the answer is a top list of its row. */
  method TopResults(n0: nat, dims: seq<nat>, input: seq<int>) returns (r: Outcome)
    requires dims != [] ==> |input| == Volume(dims)
    ensures r.BadDimensions? <==> dims == [] || dims[0] == 0
    ensures !r.BadDimensions? ==>
              var row := Volume(dims[1..]);
              (r.Undefined? <==> n0 > row > 0 && dims[0] > 1) &&
              (r.Done? ==>
                 var n := Min(n0, row);
                 |r.output| == n * dims[0] &&
                 forall i: nat | i < dims[0] :: RowDone(input, r.output, i, row, n))
  {
    if dims == [] || dims[0] == 0 {
      return BadDimensions;
    }
    var batchSize := dims[0];
    var size := |input|;
    var row := size / batchSize;
    ExactRow(batchSize, Volume(dims[1..]));
    var n := Min(n0, size);
    RowSize(n0, batchSize, row);
    if n > row {
      return Undefined;
    }
    var output := RankRows(n, batchSize, row, input);
    return Done(output);
  }

  method RankRows(n: nat, batchSize: nat, row: nat, input: seq<int>) returns (output: seq<nat>)
    requires n <= row && |input| == batchSize * row
    ensures |output| == n * batchSize && forall i: nat | i < batchSize :: RowDone(input, output, i, row, n)
  {
    output := seq(n * batchSize, _ => 0);
    var indexes := new nat[row];
    for i := 0 to batchSize
      invariant |output| == n * batchSize
      invariant forall k: nat | k < i :: RowDone(input, output, k, row, n)
    {
      RowFits(i, batchSize, row);
      RowFits(i, batchSize, n);
      var batchData := RowOf(input, i, row);
      Rank(indexes, n, batchData);
      ghost var before := output;
      output := CopyFront(output, i * n, indexes, n);
      RowsKept(input, before, output, i, row, n);
    }
  }

  /** Writes the first n indexes to output[at..]. */
  method CopyFront(output: seq<nat>, at: nat, indexes: array<nat>, n: nat) returns (r: seq<nat>)
    requires n <= indexes.Length && at + n <= |output|
    ensures |r| == |output| && r[..at] == output[..at] && r[at..at + n] == indexes[..n]
  {
    r := output;
    for j := 0 to n
      invariant |r| == |output| && r[..at] == output[..at] && r[at..at + j] == indexes[..j]
    {
      r := r[at + j := indexes[j]];
    }
  }

  lemma RowsKept(input: seq<int>, before: seq<nat>, output: seq<nat>, i: nat, row: nat, n: nat)
    requires i * n <= |before| == |output| && output[..i * n] == before[..i * n]
    requires forall k: nat | k < i :: RowDone(input, before, k, row, n)
    ensures forall k: nat | k < i :: RowDone(input, output, k, row, n)
  {
    forall k: nat | k < i
      ensures RowDone(input, output, k, row, n)
    {
      assert RowDone(input, before, k, row, n);
      RowFits(k, i, n);
      SameRow(before, output, k, i, n);
    }
  }

  ghost predicate RowDone(input: seq<int>, output: seq<nat>, k: nat, row: nat, n: nat) {
    (k + 1) * row <= |input| && (k + 1) * n <= |output| && IsTop(RowOf(input, k, row), RowOf(output, k, n))
  }

  lemma SameSlice(s: seq<nat>, t: seq<nat>, from: nat, to: nat, upTo: nat)
    requires from <= to <= upTo <= |s| == |t| && s[..upTo] == t[..upTo]
    ensures s[from..to] == t[from..to]
  {
    assert s[from..to] == s[..upTo][from..to];
    assert t[from..to] == t[..upTo][from..to];
  }

  lemma SameRow(s: seq<nat>, t: seq<nat>, k: nat, i: nat, n: nat)
    requires |s| == |t| && i * n <= |s| && s[..i * n] == t[..i * n] && (k + 1) * n <= i * n
    ensures RowOf(s, k, n) == RowOf(t, k, n)
  {
    var from, to, upTo := k * n, (k + 1) * n, i * n;
    assert from <= to;
    SameSlice(s, t, from, to, upTo);
  }

  /** The indexes of a row, the n largest first. */
  method Rank(indexes: array<nat>, n: nat, batchData: seq<int>)
    requires n <= indexes.Length == |batchData|
    modifies indexes
    ensures IsTop(batchData, indexes[..n])
  {
    for i := 0 to indexes.Length
      invariant forall k | 0 <= k < i :: indexes[k] == k
    {
      indexes[i] := i;
    }
    ghost var all := indexes[..];
    forall x | 0 <= x < |batchData|
      ensures x in all
    {
      assert all[x] == x;
    }
    PartialSort(indexes, n, batchData);
    FrontIsTop(batchData, indexes[..], n);
  }

  lemma FrontIsTop(data: seq<int>, s: seq<nat>, n: nat)
    requires n <= |s| && Distinct(s) && (forall i | 0 <= i < |s| :: s[i] < |data|) && FrontSorted(s, n, data)
    requires forall e | 0 <= e < |data| :: e in s
    ensures IsTop(data, s[..n])
  {
    forall e, a | 0 <= e < |data| && e !in s[..n] && 0 <= a < n
      ensures data[s[a]] >= data[e]
    {
      assert e in s && s == s[..n] + s[n..];
      var i :| 0 <= i < |s[n..]| && s[n..][i] == e;
    }
  }

  lemma ExactRow(batch: nat, row: nat)
    requires batch > 0
    ensures (batch * row) / batch == row
  {
    Splitter.DivUnique(batch * row, batch, row, 0);
  }

  lemma RowSize(n: nat, batch: nat, row: nat)
    requires batch > 0
    ensures Min(n, batch * row) > row <==> n > row > 0 && batch > 1
    ensures Min(n, batch * row) <= row ==> Min(n, batch * row) == Min(n, row)
  {
    assert batch > 1 && row > 0 ==> batch * row > row;
  }
}
