/** parallel_sum, parallel_sum2d and parallel_sum3d: the summing bodies, and
    the tree of range splits a parallel reduction may evaluate them over. */
module ParallelSum {
  import opened MixedRadix

  datatype Interval = Interval(lo: nat, hi: nat)

  type Range = seq<Interval>

  predicate Proper(r: Range) {
    forall i | 0 <= i < |r| :: r[i].lo <= r[i].hi
  }

  /** Sum of func over the tuples that extend `prefix` by a point of r. */
  function BoxSum(r: Range, prefix: seq<nat>, func: seq<nat> -> int): int
    decreases |r|, if r == [] then 0 else r[0].hi
  {
    if r == [] then func(prefix)
    else if r[0].hi <= r[0].lo then 0
    else BoxSum([Shorter(r[0])] + r[1..], prefix, func) + BoxSum(r[1..], prefix + [r[0].hi - 1], func)
  }

  function Shorter(i: Interval): Interval
    requires i.lo < i.hi
  {
    Interval(i.lo, i.hi - 1)
  }

  // ---- the summing bodies ----------------------------------------------------

  lemma NextRow(lo: nat, d: nat, rest: Range, prefix: seq<nat>, func: seq<nat> -> int)
    requires lo <= d
    ensures BoxSum([Interval(lo, d + 1)] + rest, prefix, func) ==
            BoxSum([Interval(lo, d)] + rest, prefix, func) + BoxSum(rest, prefix + [d], func)
  {
    assert ([Interval(lo, d + 1)] + rest)[1..] == rest;
  }

  /** The next point of the last axis. */
  lemma NextPoint(lo: nat, d: nat, prefix: seq<nat>, func: seq<nat> -> int)
    requires lo <= d
    ensures BoxSum([Interval(lo, d + 1)], prefix, func) ==
            BoxSum([Interval(lo, d)], prefix, func) + func(prefix + [d])
  {
    assert [Interval(lo, d + 1)] + [] == [Interval(lo, d + 1)] && [Interval(lo, d)] + [] == [Interval(lo, d)];
    NextRow(lo, d, [], prefix, func);
  }

  /** `for (dim = begin; dim < end; ++dim) sum += func(..., dim)` */
  method SumCols(cols: Interval, prefix: seq<nat>, start: int, func: seq<nat> -> int) returns (sum: int)
    requires cols.lo <= cols.hi
    ensures sum == start + BoxSum([cols], prefix, func)
  {
    sum := start;
    for dim := cols.lo to cols.hi
      invariant sum == start + BoxSum([Interval(cols.lo, dim)], prefix, func)
    {
      NextPoint(cols.lo, dim, prefix, func);
      sum := sum + func(prefix + [dim]);
    }
  }

  method SumRows(rows: Interval, cols: Interval, prefix: seq<nat>, start: int, func: seq<nat> -> int)
    returns (sum: int)
    requires rows.lo <= rows.hi && cols.lo <= cols.hi
    ensures sum == start + BoxSum([rows] + [cols], prefix, func)
  {
    sum := start;
    for dim := rows.lo to rows.hi
      invariant sum == start + BoxSum([Interval(rows.lo, dim)] + [cols], prefix, func)
    {
      NextRow(rows.lo, dim, [cols], prefix, func);
      sum := SumCols(cols, prefix + [dim], sum, func);
    }
  }

  method Sum1d(r: Range, input: int, func: seq<nat> -> int) returns (sum: int)
    requires |r| == 1 && Proper(r)
    ensures sum == input + BoxSum(r, [], func)
  {
    sum := SumCols(r[0], [], input, func);
    assert r == [r[0]];
  }

  method Sum2d(r: Range, input: int, func: seq<nat> -> int) returns (sum: int)
    requires |r| == 2 && Proper(r)
    ensures sum == input + BoxSum(r, [], func)
  {
    sum := SumRows(r[0], r[1], [], input, func);
    assert r == [r[0]] + [r[1]];
  }

  method Sum3d(r: Range, input: int, func: seq<nat> -> int) returns (sum: int)
    requires |r| == 3 && Proper(r)
    ensures sum == input + BoxSum(r, [], func)
  {
    sum := input;
    ghost var rest := [r[1]] + [r[2]];
    for dim1 := r[0].lo to r[0].hi
      invariant sum == input + BoxSum([Interval(r[0].lo, dim1)] + rest, [], func)
    {
      NextRow(r[0].lo, dim1, rest, [], func);
      sum := SumRows(r[1], r[2], [] + [dim1], sum, func);
    }
    assert r == [Interval(r[0].lo, r[0].hi)] + rest;
  }

  // ---- reduction over a tree of splits -----------------------------------------

  /** How the scheduler cut a range: not at all, or along an axis (page, row or
      column), the second half going on with the first half's value or starting
      from the identity in a body of its own, to be joined afterwards. */
  datatype Plan =
    | Whole
    | GoOn(axis: nat, at: nat, first: Plan, second: Plan)
    | Fork(axis: nat, at: nat, first: Plan, second: Plan)

  function FirstHalf(r: Range, axis: nat, at: nat): Range
    requires axis < |r|
  {
    r[axis := Interval(r[axis].lo, at)]
  }

  function SecondHalf(r: Range, axis: nat, at: nat): Range
    requires axis < |r|
  {
    r[axis := Interval(at, r[axis].hi)]
  }

  ghost predicate Fits(plan: Plan, r: Range) {
    plan.Whole? ||
    (&& plan.axis < |r| && r[plan.axis].lo <= plan.at <= r[plan.axis].hi
     && Fits(plan.first, FirstHalf(r, plan.axis, plan.at))
     && Fits(plan.second, SecondHalf(r, plan.axis, plan.at)))
  }

  ghost function Reduce(plan: Plan, r: Range, init: int, identity: int, func: seq<nat> -> int): int
    requires Fits(plan, r)
  {
    match plan
    case Whole => init + BoxSum(r, [], func)
    case GoOn(axis, at, first, second) =>
      var x := Reduce(first, FirstHalf(r, axis, at), init, identity, func);
      Reduce(second, SecondHalf(r, axis, at), x, identity, func)
    case Fork(axis, at, first, second) =>
      var x := Reduce(first, FirstHalf(r, axis, at), init, identity, func);
      var y := Reduce(second, SecondHalf(r, axis, at), identity, identity, func);
      x + y
  }

  ghost function Forks(plan: Plan): nat {
    match plan
    case Whole => 0
    case GoOn(_, _, first, second) => Forks(first) + Forks(second)
    case Fork(_, _, first, second) => 1 + Forks(first) + Forks(second)
  }

  lemma {:induction false} SplitFirst(r: Range, prefix: seq<nat>, at: nat, func: seq<nat> -> int)
    requires r != [] && r[0].lo <= at <= r[0].hi
    ensures BoxSum(r, prefix, func) ==
            BoxSum(FirstHalf(r, 0, at), prefix, func) + BoxSum(SecondHalf(r, 0, at), prefix, func)
    decreases r[0].hi
  {
    if at == r[0].hi {
      assert FirstHalf(r, 0, at) == r;
    } else {
      var shorter := [Shorter(r[0])] + r[1..];
      SplitFirst(shorter, prefix, at, func);
      assert FirstHalf(shorter, 0, at) == FirstHalf(r, 0, at);
      var second := SecondHalf(r, 0, at);
      assert [Shorter(second[0])] + second[1..] == SecondHalf(shorter, 0, at);
    }
  }

  /** Cutting a range along any axis splits its sum. */
  lemma {:induction false} SplitSum(r: Range, prefix: seq<nat>, axis: nat, at: nat, func: seq<nat> -> int)
    requires axis < |r| && r[axis].lo <= at <= r[axis].hi
    ensures BoxSum(r, prefix, func) ==
            BoxSum(FirstHalf(r, axis, at), prefix, func) + BoxSum(SecondHalf(r, axis, at), prefix, func)
    decreases |r|, r[0].hi
  {
    if axis == 0 {
      SplitFirst(r, prefix, at, func);
    } else if r[0].lo < r[0].hi {
      var shorter, rest, inner := [Shorter(r[0])] + r[1..], r[1..], prefix + [r[0].hi - 1];
      SplitSum(shorter, prefix, axis, at, func);
      SplitSum(rest, inner, axis - 1, at, func);
      PeelRow(r, FirstHalf(r, axis, at), axis, Interval(r[axis].lo, at));
      PeelRow(r, SecondHalf(r, axis, at), axis, Interval(at, r[axis].hi));
    }
  }

  lemma PeelRow(r: Range, half: Range, axis: nat, cut: Interval)
    requires 0 < axis < |r| && r[0].lo < r[0].hi && half == r[axis := cut]
    ensures [Shorter(half[0])] + half[1..] == ([Shorter(r[0])] + r[1..])[axis := cut]
    ensures half[1..] == r[1..][axis - 1 := cut]
  {
  }

  /** The reduced value counts `identity` once for every fork of the plan. */
  lemma {:induction false} ReduceValue(plan: Plan, r: Range, init: int, identity: int, func: seq<nat> -> int)
    requires Fits(plan, r)
    ensures Reduce(plan, r, init, identity, func) == init + BoxSum(r, [], func) + Forks(plan) * identity
  {
    match plan
    case Whole =>
    case GoOn(axis, at, first, second) =>
      var a, b := FirstHalf(r, axis, at), SecondHalf(r, axis, at);
      SplitSum(r, [], axis, at, func);
      ReduceValue(first, a, init, identity, func);
      ReduceValue(second, b, Reduce(first, a, init, identity, func), identity, func);
      Distribute(Forks(first), Forks(second), Forks(plan), identity);
    case Fork(axis, at, first, second) =>
      var a, b := FirstHalf(r, axis, at), SecondHalf(r, axis, at);
      SplitSum(r, [], axis, at, func);
      ReduceValue(first, a, init, identity, func);
      ReduceValue(second, b, identity, identity, func);
      Distribute(Forks(first), Forks(second), Forks(plan), identity);
  }

  lemma Distribute(a: nat, b: nat, c: nat, x: int)
    ensures c == a + b ==> c * x == a * x + b * x
    ensures c == 1 + a + b ==> c * x == x + a * x + b * x
  {
  }

  /** parallel_sum*d passes `input` both as first value and as identity: it
      agrees with the sequential loop exactly for plans without a fork or for
      the additive identity. */
  lemma ReduceIsSequentialSum(plan: Plan, r: Range, input: int, func: seq<nat> -> int)
    requires Fits(plan, r)
    ensures Reduce(plan, r, input, input, func) == input + BoxSum(r, [], func) <==> Forks(plan) == 0 || input == 0
  {
    ReduceValue(plan, r, input, input, func);
    NonZeroProduct(Forks(plan), input);
  }

  lemma NonZeroProduct(a: int, b: int)
    ensures a * b == 0 <==> a == 0 || b == 0
  {
  }

  // ---- the sequential loops and the OpenMP reduction ---------------------------------

  /** Sum of func over a sequence of calls. */
  function CallSum(calls: seq<Tuple>, func: Tuple -> int): int {
    if calls == [] then 0 else CallSum(calls[..|calls| - 1], func) + func(calls[|calls| - 1])
  }

  lemma {:induction false} CallSumAppend(a: seq<Tuple>, b: seq<Tuple>, func: Tuple -> int)
    ensures CallSum(a + b, func) == CallSum(a, func) + CallSum(b, func)
  {
    if b == [] {
      assert a + b == a;
    } else {
      assert (a + b)[..|a + b| - 1] == a + b[..|b| - 1];
      CallSumAppend(a, b[..|b| - 1], func);
    }
  }

  function FromZero(dims: seq<nat>): (r: Range)
    ensures |r| == |dims| && forall i | 0 <= i < |r| :: r[i] == Interval(0, dims[i])
  {
    seq(|dims|, i requires 0 <= i < |dims| => Interval(0, dims[i]))
  }

  function Prefixed(prefix: Tuple, calls: seq<Tuple>): (r: seq<Tuple>)
    ensures |r| == |calls| && forall i | 0 <= i < |r| :: r[i] == prefix + calls[i]
  {
    seq(|calls|, i requires 0 <= i < |calls| => prefix + calls[i])
  }

  lemma PrefixedRow(prefix: Tuple, d: nat, inner: seq<Tuple>, row: seq<Tuple>)
    requires |row| == |inner| && forall i | 0 <= i < |row| :: row[i] == [d] + inner[i]
    ensures Prefixed(prefix, row) == Prefixed(prefix + [d], inner)
  {
    assert forall i | 0 <= i < |row| :: prefix + ([d] + inner[i]) == (prefix + [d]) + inner[i];
  }

  lemma OuterLoopRow(n: nat, inner: seq<Tuple>) returns (row: seq<Tuple>)
    requires n > 0
    ensures OuterLoop(n, inner) == OuterLoop(n - 1, inner) + row
    ensures |row| == |inner| && forall i | 0 <= i < |row| :: row[i] == [n - 1] + inner[i]
  {
    row := seq(|inner|, i requires 0 <= i < |inner| => [n - 1] + inner[i]);
  }

  lemma RowAdded(done: seq<Tuple>, row: seq<Tuple>, d: nat, inner: seq<Tuple>, prefix: Tuple, func: Tuple -> int)
    requires |row| == |inner| && forall i | 0 <= i < |row| :: row[i] == [d] + inner[i]
    ensures CallSum(Prefixed(prefix, done + row), func) ==
            CallSum(Prefixed(prefix, done), func) + CallSum(Prefixed(prefix + [d], inner), func)
  {
    PrefixedRow(prefix, d, inner, row);
    PrefixedAppend(prefix, done, row);
    CallSumAppend(Prefixed(prefix, done), Prefixed(prefix, row), func);
  }

  lemma PrefixedAppend(prefix: Tuple, a: seq<Tuple>, b: seq<Tuple>)
    ensures Prefixed(prefix, a + b) == Prefixed(prefix, a) + Prefixed(prefix, b)
  {
  }

  lemma PrefixedByNothing(calls: seq<Tuple>)
    ensures Prefixed([], calls) == calls
  {
    forall i | 0 <= i < |calls|
      ensures Prefixed([], calls)[i] == calls[i]
    {
      assert [] + calls[i] == calls[i];
    }
  }

  /** A box under each row d sums up to the calls of `inner` after d. */
  ghost predicate RowIsCalls(box: Range, inner: seq<Tuple>, prefix: Tuple, d: nat, func: Tuple -> int) {
    BoxSum(box, prefix + [d], func) == CallSum(Prefixed(prefix + [d], inner), func)
  }

  lemma NoRows(box: Range, inner: seq<Tuple>, prefix: Tuple, func: Tuple -> int)
    ensures BoxSum([Interval(0, 0)] + box, prefix, func) == 0
    ensures CallSum(Prefixed(prefix, OuterLoop(0, inner)), func) == 0
  {
  }

  /** A row more, on either side. */
  lemma OneMoreRow(d: nat, n: nat, box: Range, inner: seq<Tuple>, prefix: Tuple, func: Tuple -> int)
    requires n == d + 1 && RowIsCalls(box, inner, prefix, d, func)
    ensures BoxSum([Interval(0, n)] + box, prefix, func) - BoxSum([Interval(0, d)] + box, prefix, func) ==
            CallSum(Prefixed(prefix, OuterLoop(n, inner)), func) - CallSum(Prefixed(prefix, OuterLoop(d, inner)), func)
  {
    NextRow(0, d, box, prefix, func);
    var row := OuterLoopRow(n, inner);
    RowAdded(OuterLoop(d, inner), row, d, inner, prefix, func);
  }

  lemma {:induction false} RowsAreLoops(n: nat, box: Range, inner: seq<Tuple>, prefix: Tuple, func: Tuple -> int)
    requires forall d: nat | d < n :: RowIsCalls(box, inner, prefix, d, func)
    ensures BoxSum([Interval(0, n)] + box, prefix, func) == CallSum(Prefixed(prefix, OuterLoop(n, inner)), func)
  {
    if n == 0 {
      NoRows(box, inner, prefix, func);
    } else {
      RowsAreLoops(n - 1, box, inner, prefix, func);
      OneMoreRow(n - 1, n, box, inner, prefix, func);
    }
  }

  /** The sum over a whole box is that over the calls of the nested loops. */
  lemma {:induction false} BoxIsLoops(dims: seq<nat>, prefix: Tuple, func: Tuple -> int)
    ensures BoxSum(FromZero(dims), prefix, func) == CallSum(Prefixed(prefix, NestedLoops(dims)), func)
    decreases |dims|
  {
    if dims == [] {
      assert prefix + [] == prefix && Prefixed(prefix, [[]]) == [prefix];
    } else {
      assert FromZero(dims) == [Interval(0, dims[0])] + FromZero(dims[1..]);
      forall d: nat | d < dims[0]
        ensures RowIsCalls(FromZero(dims[1..]), NestedLoops(dims[1..]), prefix, d, func)
      {
        BoxIsLoops(dims[1..], prefix + [d], func);
      }
      RowsAreLoops(dims[0], FromZero(dims[1..]), NestedLoops(dims[1..]), prefix, func);
    }
  }

  function Concat(chunks: seq<seq<Tuple>>): seq<Tuple> {
    if chunks == [] then [] else Concat(chunks[..|chunks| - 1]) + chunks[|chunks| - 1]
  }

  /** Each thread sums its chunk of the loop into a copy that starts from 0, and
      the copies are added to the original variable. */
  function OmpSum(chunks: seq<seq<Tuple>>, input: int, func: Tuple -> int): int {
    if chunks == [] then input
    else OmpSum(chunks[..|chunks| - 1], input, func) + CallSum(chunks[|chunks| - 1], func)
  }

  lemma {:induction false} ChunksAddUp(chunks: seq<seq<Tuple>>, input: int, func: Tuple -> int)
    ensures OmpSum(chunks, input, func) == input + CallSum(Concat(chunks), func)
  {
    if chunks == [] {
    } else {
      var front := chunks[..|chunks| - 1];
      ChunksAddUp(front, input, func);
      CallSumAppend(Concat(front), chunks[|chunks| - 1], func);
    }
  }

  /** However the loop is cut into chunks, the OpenMP reduction equals the
      sequential sum, for every input. */
  lemma OmpSumIsSequentialSum(dims: seq<nat>, chunks: seq<seq<Tuple>>, input: int, func: Tuple -> int)
    requires Concat(chunks) == NestedLoops(dims)
    ensures OmpSum(chunks, input, func) == input + BoxSum(FromZero(dims), [], func)
  {
    ChunksAddUp(chunks, input, func);
    BoxIsLoops(dims, [], func);
    PrefixedByNothing(NestedLoops(dims));
  }
}
