/** Index tuples of a box of extents.  A tuple is ranked with its last index
    varying fastest, the order in which plain nested loops visit the box. */
module MixedRadix {

  type Tuple = seq<nat>

  function Volume(dims: seq<nat>): nat {
    if dims == [] then 1 else dims[0] * Volume(dims[1..])
  }

  predicate InBox(pos: Tuple, dims: seq<nat>) {
    |pos| == |dims| && forall i | 0 <= i < |pos| :: pos[i] < dims[i]
  }

  function Rank(pos: Tuple, dims: seq<nat>): nat
    requires |pos| == |dims|
  {
    if dims == [] then 0 else pos[0] * Volume(dims[1..]) + Rank(pos[1..], dims[1..])
  }

  /** What `for d0 { for d1 { ... } }` visits, in order. */
  function NestedLoops(dims: seq<nat>): seq<Tuple> {
    if dims == [] then [[]] else OuterLoop(dims[0], NestedLoops(dims[1..]))
  }

  function OuterLoop(n: nat, inner: seq<Tuple>): seq<Tuple> {
    if n == 0 then [] else OuterLoop(n - 1, inner) + seq(|inner|, i requires 0 <= i < |inner| => [n - 1] + inner[i])
  }

  lemma {:induction false} OuterLoopAt(n: nat, inner: seq<Tuple>, d: nat, r: nat)
    requires d < n && r < |inner|
    ensures |OuterLoop(n, inner)| == n * |inner|
    ensures d * |inner| + r < n * |inner|
    ensures OuterLoop(n, inner)[d * |inner| + r] == [d] + inner[r]
  {
    OuterLoopLength(n - 1, inner);
    assert n * |inner| == (n - 1) * |inner| + |inner|;
    if d == n - 1 {
    } else {
      OuterLoopAt(n - 1, inner, d, r);
    }
  }

  lemma {:induction false} OuterLoopLength(n: nat, inner: seq<Tuple>)
    ensures |OuterLoop(n, inner)| == n * |inner|
  {
    if n == 0 {
    } else {
      OuterLoopLength(n - 1, inner);
      assert n * |inner| == (n - 1) * |inner| + |inner|;
    }
  }

  lemma {:induction false} RankBounded(pos: Tuple, dims: seq<nat>)
    requires InBox(pos, dims)
    ensures Rank(pos, dims) < Volume(dims)
  {
    if dims == [] {
    } else {
      RankBounded(pos[1..], dims[1..]);
      RowBound(pos[0], dims[0], Volume(dims[1..]), Rank(pos[1..], dims[1..]));
    }
  }

  lemma RowBound(p: nat, d: nat, v: nat, r: nat)
    requires p < d && r < v
    ensures p * v + r < d * v
  {
    var e: nat := d - p - 1;
    assert d * v == (p + 1 + e) * v == p * v + v + e * v;
  }

  /** Division with remainder below a product. */
  lemma RowSplit(k: nat, d: nat, v: nat) returns (q: nat, r: nat)
    requires k < d * v
    ensures q < d && r < v && k == q * v + r && v > 0 && q == k / v && r == k % v
  {
    q, r := k / v, k % v;
  }

  /** The nested loops visit the tuple of rank k at time k. */
  lemma {:induction false} NestedLoopsAtRank(pos: Tuple, dims: seq<nat>)
    requires InBox(pos, dims)
    ensures |NestedLoops(dims)| == Volume(dims) && Rank(pos, dims) < Volume(dims)
    ensures NestedLoops(dims)[Rank(pos, dims)] == pos
  {
    NestedLoopsLength(dims);
    if dims == [] {
      assert pos == [];
    } else {
      NestedLoopsAtRank(pos[1..], dims[1..]);
      OuterLoopAt(dims[0], NestedLoops(dims[1..]), pos[0], Rank(pos[1..], dims[1..]));
      assert [pos[0]] + pos[1..] == pos;
    }
  }

  lemma {:induction false} NestedLoopsLength(dims: seq<nat>)
    ensures |NestedLoops(dims)| == Volume(dims)
  {
    if dims == [] {
    } else {
      NestedLoopsLength(dims[1..]);
      OuterLoopLength(dims[0], NestedLoops(dims[1..]));
    }
  }

  /** Every time below the volume is the rank of the tuple visited then. */
  lemma {:induction false} RankAtTime(dims: seq<nat>, k: nat)
    requires k < Volume(dims)
    ensures |NestedLoops(dims)| == Volume(dims)
    ensures InBox(NestedLoops(dims)[k], dims)
    ensures Rank(NestedLoops(dims)[k], dims) == k
  {
    NestedLoopsLength(dims);
    if dims == [] {
    } else {
      var inner := NestedLoops(dims[1..]);
      var d, r := RowSplit(k, dims[0], Volume(dims[1..]));
      RankAtTime(dims[1..], r);
      OuterLoopAt(dims[0], inner, d, r);
      RankOfRow(d, inner[r], dims);
    }
  }

  lemma RankOfRow(d: nat, rest: Tuple, dims: seq<nat>)
    requires dims != [] && |rest| + 1 == |dims|
    ensures Rank([d] + rest, dims) == d * Volume(dims[1..]) + Rank(rest, dims[1..])
    ensures d < dims[0] && InBox(rest, dims[1..]) ==> InBox([d] + rest, dims)
  {
    assert ([d] + rest)[1..] == rest;
  }

  lemma {:induction false} PositiveVolume(dims: seq<nat>)
    ensures Volume(dims) > 0 <==> forall i | 0 <= i < |dims| :: dims[i] > 0
  {
    if dims == [] {
    } else {
      PositiveVolume(dims[1..]);
      assert forall i | 1 <= i < |dims| :: dims[i] == dims[1..][i - 1];
      if dims[0] > 0 && Volume(dims[1..]) > 0 {
        RowBound(0, dims[0], Volume(dims[1..]), 0);
      } else if dims[0] > 0 {
        var j :| 0 <= j < |dims[1..]| && dims[1..][j] == 0;
        assert dims[j + 1] == 0;
      }
    }
  }
}
