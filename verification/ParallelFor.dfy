/** The index odometer and the worker loops for_1d .. for_5d. */
module ParallelFor {
  import opened MixedRadix
  import opened Sequences
  import Splitter

  // ---- odometer -----------------------------------------------------------

  /** Digits of `start`, last extent first, and what is left of it. */
  function ItInit(start: nat, dims: seq<nat>): (r: (Tuple, nat))
    requires forall i | 0 <= i < |dims| :: dims[i] > 0
    ensures InBox(r.0, dims)
  {
    if dims == [] then ([], start)
    else
      var (rest, q) := ItInit(start, dims[1..]);
      ([q % dims[0]] + rest, q / dims[0])
  }

  /** One tick; the flag says that every digit wrapped to 0. */
  function ItStep(pos: Tuple, dims: seq<nat>): (r: (Tuple, bool))
    requires InBox(pos, dims)
    ensures InBox(r.0, dims)
  {
    if dims == [] then ([], true)
    else
      var (rest, carry) := ItStep(pos[1..], dims[1..]);
      var d := if carry then (pos[0] + 1) % dims[0] else pos[0];
      ([d] + rest, carry && d == 0)
  }

  lemma {:induction false} ItInitRank(start: nat, dims: seq<nat>)
    requires forall i | 0 <= i < |dims| :: dims[i] > 0
    ensures var (pos, q) := ItInit(start, dims); Rank(pos, dims) + q * Volume(dims) == start
  {
    if dims == [] {
    } else {
      ItInitRank(start, dims[1..]);
      var (rest, q) := ItInit(start, dims[1..]);
      RankOfRow(q % dims[0], rest, dims);
      RowOfQuotient(q, dims[0], Volume(dims[1..]));
    }
  }

  lemma RowOfQuotient(q: nat, d: nat, v: nat)
    requires d > 0
    ensures (q % d) * v + (q / d) * (d * v) == q * v
  {
    var a, b := q / d, q % d;
    assert q == a * d + b;
    assert (a * d + b) * v == a * (d * v) + b * v;
  }

  /** Starting inside the box, the digits are those of the tuple of that rank. */
  lemma {:induction false} ItInitAtTime(start: nat, dims: seq<nat>)
    requires start < Volume(dims)
    ensures forall i | 0 <= i < |dims| :: dims[i] > 0
    ensures |NestedLoops(dims)| == Volume(dims)
    ensures ItInit(start, dims).0 == NestedLoops(dims)[start]
  {
    PositiveVolume(dims);
    ItInitRank(start, dims);
    var (pos, q) := ItInit(start, dims);
    if q > 0 { FactorAtLeast(q, Volume(dims)); }
    NestedLoopsAtRank(pos, dims);
  }

  lemma FactorAtLeast(q: nat, v: nat)
    requires q > 0
    ensures q * v >= v
  {
    assert (q - 1) * v >= 0;
  }

  lemma {:induction false} ItStepRank(pos: Tuple, dims: seq<nat>)
    requires InBox(pos, dims)
    ensures var (next, carry) := ItStep(pos, dims);
            if carry then Rank(next, dims) == 0 && Rank(pos, dims) + 1 == Volume(dims)
            else Rank(next, dims) == Rank(pos, dims) + 1
  {
    if dims == [] {
    } else {
      ItStepRank(pos[1..], dims[1..]);
      var (rest, carry) := ItStep(pos[1..], dims[1..]);
      DigitStep(pos[0], dims[0], Volume(dims[1..]));
      RankOfRow(if carry then (pos[0] + 1) % dims[0] else pos[0], rest, dims);
    }
  }

  lemma DigitStep(p: nat, d: nat, v: nat)
    requires p < d
    ensures (p + 1) % d == if p + 1 == d then 0 else p + 1
    ensures (p + 1) * v == p * v + v
  {
    Splitter.SmallMod(p + 1, d);
  }

  /** A tick takes the tuple visited at time k to the one visited at k + 1. */
  lemma {:induction false} ItStepAtTime(dims: seq<nat>, k: nat)
    requires k + 1 < Volume(dims)
    ensures |NestedLoops(dims)| == Volume(dims)
    ensures InBox(NestedLoops(dims)[k], dims)
    ensures ItStep(NestedLoops(dims)[k], dims).0 == NestedLoops(dims)[k + 1]
  {
    RankAtTime(dims, k);
    ItStepRank(NestedLoops(dims)[k], dims);
    NestedLoopsAtRank(ItStep(NestedLoops(dims)[k], dims).0, dims);
  }

  lemma ItInitFrom(start: nat, dims: seq<nat>, i: nat)
    requires i < |dims| && forall j | 0 <= j < |dims| :: dims[j] > 0
    ensures var (rest, q) := ItInit(start, dims[i + 1..]);
            ItInit(start, dims[i..]) == ([q % dims[i]] + rest, q / dims[i])
  {
    assert dims[i..][1..] == dims[i + 1..];
  }

  lemma DigitSet(front: Tuple, rest: Tuple, i: nat, d: nat)
    requires |front| == i + 1
    ensures (front + rest)[i := d] == front[..i] + ([d] + rest)
    ensures d == front[i] ==> front + rest == front[..i] + ([d] + rest)
  {
  }

  /** Writes the digits of `start` to x[i..] and returns the quotient. */
  method ParallelItInit(start: nat, x: array<nat>, dims: seq<nat>, i: nat) returns (q: nat)
    requires i <= |dims| == x.Length && forall j | 0 <= j < |dims| :: dims[j] > 0
    modifies x
    ensures x[..] == old(x[..i]) + ItInit(start, dims[i..]).0 && q == ItInit(start, dims[i..]).1
    decreases |dims| - i
  {
    if i == |dims| {
      return start;
    }
    ItInitFrom(start, dims, i);
    ghost var front, rest := x[..i + 1], ItInit(start, dims[i + 1..]).0;
    q := ParallelItInit(start, x, dims, i + 1);
    DigitSet(front, rest, i, q % dims[i]);
    x[i] := q % dims[i];
    q := q / dims[i];
    assert front[..i] == old(x[..i]);
  }

  lemma ItStepFrom(pos: Tuple, dims: seq<nat>, i: nat)
    requires i < |dims| == |pos| && InBox(pos[i..], dims[i..])
    ensures InBox(pos[i + 1..], dims[i + 1..]) && dims[i] > 0
    ensures var (rest, carry) := ItStep(pos[i + 1..], dims[i + 1..]);
            var d := if carry then (pos[i] + 1) % dims[i] else pos[i];
            ItStep(pos[i..], dims[i..]) == ([d] + rest, carry && d == 0)
  {
    assert dims[i..][1..] == dims[i + 1..] && pos[i..][1..] == pos[i + 1..];
    assert pos[i] == pos[i..][0] && dims[i] == dims[i..][0];
  }

  method ParallelItStep(x: array<nat>, dims: seq<nat>, i: nat) returns (carry: bool)
    requires i <= |dims| == x.Length && InBox(x[i..], dims[i..])
    modifies x
    ensures x[..] == old(x[..i]) + ItStep(old(x[i..]), dims[i..]).0 && carry == ItStep(old(x[i..]), dims[i..]).1
    decreases |dims| - i
  {
    if i == |dims| {
      return true;
    }
    ghost var before := x[..];
    assert before[i..] == x[i..] && before[i + 1..] == x[i + 1..];
    ItStepFrom(before, dims, i);
    carry := ParallelItStep(x, dims, i + 1);
    ghost var rest := ItStep(before[i + 1..], dims[i + 1..]).0;
    DigitSet(before[..i + 1], rest, i, if carry then (before[i] + 1) % dims[i] else before[i]);
    if carry {
      x[i] := (x[i] + 1) % dims[i];
      carry := x[i] == 0;
    }
    assert before[..i + 1][..i] == before[..i];
  }

  // ---- worker loops -------------------------------------------------------

  /** The calls thread t of a team makes: its slice of the nested loops. */
  function Part(dims: seq<nat>, team: nat, t: nat): seq<Tuple>
    requires t < team
  {
    Splitter.CutMonotone(Volume(dims), team, t, t + 1);
    NestedLoopsLength(dims);
    NestedLoops(dims)[Splitter.Cut(Volume(dims), team, t)..Splitter.Cut(Volume(dims), team, t + 1)]
  }

  /** The tuple n ticks after pos. */
  function After(pos: Tuple, dims: seq<nat>, n: nat): (r: Tuple)
    requires InBox(pos, dims)
    ensures InBox(r, dims)
  {
    if n == 0 then pos else ItStep(After(pos, dims, n - 1), dims).0
  }

  /** n tuples, one tick after the other. */
  function Ticks(pos: Tuple, dims: seq<nat>, n: nat): (r: seq<Tuple>)
    requires InBox(pos, dims)
    ensures |r| == n && forall k | 0 <= k < n :: InBox(r[k], dims)
  {
    if n == 0 then [] else Ticks(pos, dims, n - 1) + [After(pos, dims, n - 1)]
  }

  /** Each tuple is the tick after the one before it. */
  ghost predicate Ticking(loops: seq<Tuple>, dims: seq<nat>) {
    && (forall k | 0 <= k < |loops| :: InBox(loops[k], dims))
    && forall k | 0 <= k < |loops| - 1 :: ItStep(loops[k], dims).0 == loops[k + 1]
  }

  lemma NestedLoopsTick(dims: seq<nat>)
    ensures |NestedLoops(dims)| == Volume(dims) && Ticking(NestedLoops(dims), dims)
  {
    NestedLoopsLength(dims);
    forall k | 0 <= k < Volume(dims)
      ensures InBox(NestedLoops(dims)[k], dims)
      ensures k + 1 < Volume(dims) ==> ItStep(NestedLoops(dims)[k], dims).0 == NestedLoops(dims)[k + 1]
    {
      RankAtTime(dims, k);
      if k + 1 < Volume(dims) {
        ItStepAtTime(dims, k);
      }
    }
  }

  lemma {:induction false} AfterAtTime(loops: seq<Tuple>, dims: seq<nat>, start: nat, n: nat)
    requires Ticking(loops, dims) && start + n < |loops|
    ensures After(loops[start], dims, n) == loops[start + n]
  {
    if n == 0 {
    } else {
      AfterAtTime(loops, dims, start, n - 1);
    }
  }

  /** Within the box, ticking is going through the nested loops. */
  lemma {:induction false} TicksAreSlices(loops: seq<Tuple>, dims: seq<nat>, start: nat, n: nat)
    requires Ticking(loops, dims) && start < |loops| && start + n <= |loops|
    ensures Ticks(loops[start], dims, n) == loops[start..start + n]
  {
    if n == 0 {
    } else {
      TicksAreSlices(loops, dims, start, n - 1);
      AfterAtTime(loops, dims, start, n - 1);
      assert loops[start..start + n] == loops[start..start + n - 1] + [loops[start + n - 1]];
    }
  }

  /** The calls thread t makes with its part computed in words of m values. */
  function WordCalls(dims: seq<nat>, team: nat, t: nat, m: nat): seq<Tuple>
    requires t < team < m && Volume(dims) < m
  {
    var (start, end) := Splitter.WordPart(Volume(dims), team, t, m);
    PositiveVolume(dims);
    if Volume(dims) == 0 || end <= start then [] else Ticks(ItInit(start, dims).0, dims, end - start)
  }

  lemma WordCallsArePart(dims: seq<nat>, team: nat, t: nat, m: nat)
    requires t < team < m && Volume(dims) + team - 1 < m
    ensures WordCalls(dims, team, t, m) == Part(dims, team, t)
  {
    var start, end := Splitter.Cut(Volume(dims), team, t), Splitter.Cut(Volume(dims), team, t + 1);
    Splitter.ExactWhenItFits(Volume(dims), team, t, m);
    Splitter.CutMonotone(Volume(dims), team, t, t + 1);
    NestedLoopsLength(dims);
    if start < end {
      ItInitAtTime(start, dims);
      NestedLoopsTick(dims);
      TicksAreSlices(NestedLoops(dims), dims, start, end - start);
    }
  }

  /** for_2d .. for_5d, and any higher rank: the calls made to func. */
  method ForNd(ithr: nat, nthr: nat, dims: seq<nat>, m: nat) returns (calls: seq<Tuple>)
    requires ithr < nthr < m && Volume(dims) < m
    ensures calls == WordCalls(dims, nthr, ithr, m)
    ensures Volume(dims) + nthr - 1 < m ==> calls == Part(dims, nthr, ithr)
  {
    var workAmount := Volume(dims);
    if workAmount + nthr - 1 < m {
      WordCallsArePart(dims, nthr, ithr, m);
    }
    calls := [];
    if workAmount == 0 {
      return;
    }
    var start, end := Splitter.Split(workAmount, nthr, ithr, m);
    PositiveVolume(dims);
    var x := new nat[|dims|];
    var _ := ParallelItInit(start, x, dims, 0);
    assert dims[0..] == dims && x[0..] == x[..];
    calls := ForRange(x, dims, start, end);
  }

  /** The loop of a worker, from the digits it was initialised to. */
  method ForRange(x: array<nat>, dims: seq<nat>, start: nat, end: nat) returns (calls: seq<Tuple>)
    requires InBox(x[..], dims)
    modifies x
    ensures calls == if start < end then Ticks(old(x[..]), dims, end - start) else []
  {
    calls := [];
    ghost var first := x[..];
    var iwork := start;
    while iwork < end
      invariant start <= iwork && if start < end then iwork <= end else iwork == start
      invariant x[..] == After(first, dims, iwork - start)
      invariant calls == Ticks(first, dims, iwork - start)
    {
      calls := calls + [x[..]];
      StepAll(x, dims);
      iwork := iwork + 1;
    }
  }

  method StepAll(x: array<nat>, dims: seq<nat>)
    requires InBox(x[..], dims)
    modifies x
    ensures x[..] == ItStep(old(x[..]), dims).0
  {
    ghost var before := x[..];
    assert x[0..] == before && dims[0..] == dims;
    var _ := ParallelItStep(x, dims, 0);
    assert x[0..] == x[..];
    assert x[..] == ItStep(before, dims).0;
  }

  /** What a loop variable runs over. */
  function Line(start: nat, end: nat): seq<Tuple> {
    seq(if start < end then end - start else 0, i requires 0 <= i => [start + i])
  }

  /** for_1d has no odometer: the loop variable runs over the thread's part. */
  method For1d(ithr: nat, nthr: nat, d: nat, m: nat) returns (calls: seq<Tuple>)
    requires ithr < nthr < m && d < m
    ensures var (start, end) := Splitter.WordPart(d, nthr, ithr, m); calls == Line(start, end)
    ensures d + nthr - 1 < m ==> calls == Part([d], nthr, ithr)
  {
    var d0, end := Splitter.Split(d, nthr, ithr, m);
    calls := RunLine(d0, end);
    if d + nthr - 1 < m {
      LineIsPart(d, nthr, ithr);
    }
  }

  method RunLine(start: nat, end: nat) returns (calls: seq<Tuple>)
    ensures calls == Line(start, end)
  {
    calls := [];
    var d0 := start;
    while d0 < end
      invariant start <= d0 && if start < end then d0 <= end else d0 == start
      invariant calls == Line(start, d0)
    {
      calls := calls + [[d0]];
      d0 := d0 + 1;
    }
  }

  lemma LineIsPart(d: nat, team: nat, t: nat)
    requires t < team
    ensures Line(Splitter.Cut(d, team, t), Splitter.Cut(d, team, t + 1)) == Part([d], team, t)
  {
    assert Volume([d]) == d * Volume([]) == d;
    Splitter.CutMonotone(d, team, t, t + 1);
    NestedLoopsLength([d]);
    forall k | 0 <= k < d
      ensures NestedLoops([d])[k] == [k]
    {
      LineAtTime(d, k);
    }
  }

  lemma LineAtTime(d: nat, k: nat)
    requires k < d
    ensures |NestedLoops([d])| == d && NestedLoops([d])[k] == [k]
  {
    assert Volume([d]) == d * Volume([]) == d;
    NestedLoopsAtRank([k], [d]);
    assert Rank([k], [d]) == k * 1 + Rank([], []);
  }

  // ---- the team as a whole ------------------------------------------------

  function PartsOf(dims: seq<nat>, team: nat): seq<seq<Tuple>> {
    seq(team, t requires 0 <= t < team => Part(dims, team, t))
  }

  function TeamCalls(dims: seq<nat>, team: nat): seq<Tuple> {
    Flatten(PartsOf(dims, team))
  }

  function CutsOf(dims: seq<nat>, team: nat): seq<nat>
    requires team > 0
  {
    seq(team + 1, t requires 0 <= t <= team => Splitter.Cut(Volume(dims), team, t))
  }

  lemma PartIsSlice(dims: seq<nat>, team: nat, t: nat)
    requires t < team
    ensures IsSlice(NestedLoops(dims), CutsOf(dims, team), Part(dims, team, t), t)
  {
    NestedLoopsLength(dims);
    Splitter.CutMonotone(Volume(dims), team, t, t + 1);
  }

  lemma PartsAreSlices(dims: seq<nat>, team: nat)
    requires team > 0
    ensures AreSlices(NestedLoops(dims), CutsOf(dims, team), PartsOf(dims, team))
  {
    NestedLoopsLength(dims);
    Splitter.CutEnds(Volume(dims), team);
    forall t: nat | t < team
      ensures IsSlice(NestedLoops(dims), CutsOf(dims, team), PartsOf(dims, team)[t], t)
    {
      PartIsSlice(dims, team, t);
    }
  }

  /** Thread after thread, the calls are those of the nested loops: every tuple
      of the box once, row by row. */
  lemma TeamCallsAreNestedLoops(dims: seq<nat>, team: nat)
    requires team > 0
    ensures TeamCalls(dims, team) == NestedLoops(dims)
  {
    PartsAreSlices(dims, team);
    SlicesJoin(NestedLoops(dims), CutsOf(dims, team), PartsOf(dims, team));
  }

  function TeamWordCalls(dims: seq<nat>, team: nat, t: nat, m: nat): seq<Tuple>
    requires t <= team < m && Volume(dims) < m
  {
    if t == 0 then [] else TeamWordCalls(dims, team, t - 1, m) + WordCalls(dims, team, t - 1, m)
  }

  lemma {:induction false} TeamCallsInBox(dims: seq<nat>, team: nat, t: nat, m: nat)
    requires t <= team < m && Volume(dims) < m
    ensures forall k | 0 <= k < |TeamWordCalls(dims, team, t, m)| :: InBox(TeamWordCalls(dims, team, t, m)[k], dims)
  {
    if t == 0 {
    } else {
      TeamCallsInBox(dims, team, t - 1, m);
    }
  }

  lemma {:induction false} SameCalls(dims: seq<nat>, team: nat, t: nat, m: nat, parts: seq<seq<Tuple>>)
    requires t <= team == |parts| && team < m && Volume(dims) < m
    requires forall u: nat | u < team :: WordCalls(dims, team, u, m) == parts[u]
    ensures TeamWordCalls(dims, team, t, m) == Flatten(parts[..t])
  {
    if t == 0 {
    } else {
      SameCalls(dims, team, t - 1, m, parts);
      FlattenOneMore(parts, t - 1);
    }
  }

  lemma FittingTeam(dims: seq<nat>, team: nat, m: nat)
    requires 0 < team < m && Volume(dims) + team - 1 < m
    ensures TeamWordCalls(dims, team, team, m) == TeamCalls(dims, team)
  {
    var parts := PartsOf(dims, team);
    forall u: nat | u < team
      ensures WordCalls(dims, team, u, m) == parts[u]
    {
      WordCallsArePart(dims, team, u, m);
    }
    SameCalls(dims, team, team, m, parts);
    assert parts[..team] == parts;
  }

  /** When the part arithmetic wraps, one thread makes m - 1 calls, from the
      first tuple on, and all others make none. */
  lemma WrappingThread(dims: seq<nat>, team: nat, t: nat, m: nat)
    requires t < team < m && Volume(dims) < m <= Volume(dims) + team - 1
    ensures |NestedLoops(dims)| == Volume(dims) && InBox(NestedLoops(dims)[0], dims)
    ensures WordCalls(dims, team, t, m) ==
            if t == Volume(dims) + team - m then Ticks(NestedLoops(dims)[0], dims, m - 1) else []
  {
    RankAtTime(dims, 0);
    ItInitAtTime(0, dims);
    Splitter.PartWhenItWraps(Volume(dims), team, t, m);
  }

  lemma {:induction false} OnlyOneThread(dims: seq<nat>, team: nat, t: nat, m: nat, one: nat, whole: seq<Tuple>)
    requires t <= team < m && Volume(dims) < m
    requires forall u: nat | u < team :: WordCalls(dims, team, u, m) == if u == one then whole else []
    ensures TeamWordCalls(dims, team, t, m) == if t <= one then [] else whole
  {
    if t == 0 {
    } else {
      OnlyOneThread(dims, team, t - 1, m, one, whole);
    }
  }

  lemma WrappingTeam(dims: seq<nat>, team: nat, m: nat)
    requires 0 < team < m && Volume(dims) < m <= Volume(dims) + team - 1
    ensures |NestedLoops(dims)| == Volume(dims) && InBox(NestedLoops(dims)[0], dims)
    ensures TeamWordCalls(dims, team, team, m) == Ticks(NestedLoops(dims)[0], dims, m - 1)
  {
    RankAtTime(dims, 0);
    var one, whole := Volume(dims) + team - m, Ticks(NestedLoops(dims)[0], dims, m - 1);
    forall u: nat | u < team
      ensures WordCalls(dims, team, u, m) == if u == one then whole else []
    {
      WrappingThread(dims, team, u, m);
    }
    OnlyOneThread(dims, team, team, m, one, whole);
  }

  /** The threads together make the calls of the nested loops if and only if the
      part arithmetic fits its word, or the work is the largest value of the word:
      then one thread does it all.  Otherwise they make too many. */
  lemma CoveredExactly(dims: seq<nat>, team: nat, m: nat)
    requires 0 < team < m && Volume(dims) < m
    ensures TeamWordCalls(dims, team, team, m) == NestedLoops(dims) <==>
            Volume(dims) + team - 1 < m || Volume(dims) == m - 1
    ensures TeamWordCalls(dims, team, team, m) != NestedLoops(dims) ==>
            |TeamWordCalls(dims, team, team, m)| > Volume(dims)
  {
    if Volume(dims) + team - 1 < m {
      FittingTeam(dims, team, m);
      TeamCallsAreNestedLoops(dims, team);
    } else {
      WrappingTeam(dims, team, m);
      if Volume(dims) == m - 1 {
        NestedLoopsTick(dims);
        TicksAreSlices(NestedLoops(dims), dims, 0, m - 1);
      }
    }
  }

  /** ... and the nested loops visit exactly the box, no tuple twice. */
  lemma NestedLoopsVisitOnce(dims: seq<nat>, pos: Tuple)
    ensures pos in NestedLoops(dims) <==> InBox(pos, dims)
    ensures multiset(NestedLoops(dims))[pos] <= 1
  {
    var calls := NestedLoops(dims);
    NestedLoopsLength(dims);
    forall k | 0 <= k < |calls|
      ensures InBox(calls[k], dims) && Rank(calls[k], dims) == k
    {
      RankAtTime(dims, k);
    }
    if InBox(pos, dims) {
      NestedLoopsAtRank(pos, dims);
    }
    NoDuplicatesOnce(calls, pos);
  }

  lemma {:induction false} NoDuplicatesOnce<T>(s: seq<T>, x: T)
    requires forall i, j | 0 <= i < j < |s| :: s[i] != s[j]
    ensures multiset(s)[x] <= 1
  {
    if s == [] {
    } else {
      NoDuplicatesOnce(s[1..], x);
      assert s == [s[0]] + s[1..];
      assert s[0] !in s[1..];
    }
  }
}
