/** Copying a tensor from one layout to another. */
module ConvertLayout {
  import opened Options
  import opened MixedRadix
  import opened Layouts
  import opened Sequences

  // ---- offsets are places ------------------------------------------------------------------

  lemma RankInjective(p: Tuple, q: Tuple, dims: seq<nat>)
    requires InBox(p, dims) && InBox(q, dims) && Rank(p, dims) == Rank(q, dims)
    ensures p == q
  {
    NestedLoopsAtRank(p, dims);
    NestedLoopsAtRank(q, dims);
  }

  /** An offset function that gives every element of the box a place of its own
      below n. */
  ghost predicate Places(offset: Tuple -> nat, dims: seq<nat>, n: nat) {
    && (forall p {:trigger offset(p)} | InBox(p, dims) :: offset(p) < n)
    && forall p, q {:trigger offset(p), offset(q)} | InBox(p, dims) && InBox(q, dims) && offset(p) == offset(q) ::
         p == q
  }

  lemma AlongInjective(layout: Layout, dims: seq<nat>, p: Tuple, q: Tuple)
    requires Supports(layout, |dims|) && |p| == |q| == |dims|
    requires Along(p, Axes(layout, |dims|)) == Along(q, Axes(layout, |dims|))
    ensures p == q
  {
    var axes := Axes(layout, |dims|);
    forall i | 0 <= i < |dims|
      ensures p[i] == q[i]
    {
      var k := IndexIn(axes, i);
      assert Along(p, axes)[k] == p[i] && Along(q, axes)[k] == q[i];
    }
  }

  lemma OffsetInjective(layout: Layout, dims: seq<nat>, p: Tuple, q: Tuple)
    requires Supports(layout, |dims|) && InBox(p, dims) && InBox(q, dims)
    ensures OffsetAt(layout, dims, p) < Volume(dims)
    ensures OffsetAt(layout, dims, p) == OffsetAt(layout, dims, q) ==> p == q
  {
    var axes := Axes(layout, |dims|);
    AlongInBox(layout, dims, p);
    AlongInBox(layout, dims, q);
    RankBounded(Along(p, axes), Along(dims, axes));
    VolumeAlong(layout, dims);
    if OffsetAt(layout, dims, p) == OffsetAt(layout, dims, q) {
      RankInjective(Along(p, axes), Along(q, axes), Along(dims, axes));
      AlongInjective(layout, dims, p, q);
    }
  }

  lemma OffsetPlaces(layout: Layout, dims: seq<nat>)
    requires Supports(layout, |dims|)
    ensures Places(OffsetOf(layout, dims), dims, Volume(dims))
  {
    forall p, q | InBox(p, dims) && InBox(q, dims)
      ensures OffsetOf(layout, dims)(p) < Volume(dims)
      ensures OffsetOf(layout, dims)(p) == OffsetOf(layout, dims)(q) ==> p == q
    {
      OffsetInjective(layout, dims, p, q);
    }
  }

  /** Every offset below the volume is that of an element. */
  lemma OffsetSurjective(layout: Layout, dims: seq<nat>, o: nat) returns (pos: Tuple)
    requires Supports(layout, |dims|) && o < Volume(dims)
    ensures InBox(pos, dims) && OffsetOf(layout, dims)(pos) == o
  {
    var axes := Axes(layout, |dims|);
    VolumeAlong(layout, dims);
    RankAtTime(Along(dims, axes), o);
    var t := NestedLoops(Along(dims, axes))[o];
    pos := Scattered(t, axes, |dims|);
    assert Along(pos, axes) == t;
    AlongInBox(layout, dims, pos);
  }

  /** The position whose coordinates along the axes are those of t. */
  ghost function Scattered(t: Tuple, axes: seq<nat>, n: nat): (pos: Tuple)
    requires |t| == |axes| == n && forall i, j | 0 <= i < j < n :: axes[i] != axes[j]
    requires (forall i | 0 <= i < n :: axes[i] < n) && forall i | 0 <= i < n :: i in axes
    ensures |pos| == n && forall k | 0 <= k < n :: pos[axes[k]] == t[k]
  {
    seq(n, i requires 0 <= i < n => t[IndexIn(axes, i)])
  }

  ghost function IndexIn(axes: seq<nat>, i: nat): (k: nat)
    requires i in axes
    ensures k < |axes| && axes[k] == i
  {
    var k :| 0 <= k < |axes| && axes[k] == i;
    k
  }

  // ---- the position odometer, first coordinate fastest ---------------------------------------

  /** When a position comes up, counted from 0. */
  function Time(pos: Tuple, dims: seq<nat>): nat
    requires |pos| == |dims|
  {
    if dims == [] then 0 else pos[0] + dims[0] * Time(pos[1..], dims[1..])
  }

  lemma {:induction false} TimeBounded(pos: Tuple, dims: seq<nat>)
    requires InBox(pos, dims)
    ensures Time(pos, dims) < Volume(dims)
  {
    if dims == [] {
    } else {
      TimeBounded(pos[1..], dims[1..]);
      RowBound(Time(pos[1..], dims[1..]), Volume(dims[1..]), dims[0], pos[0]);
    }
  }

  lemma {:induction false} TimeInjective(p: Tuple, q: Tuple, dims: seq<nat>)
    requires InBox(p, dims) && InBox(q, dims) && Time(p, dims) == Time(q, dims)
    ensures p == q
  {
    if dims == [] {
    } else {
      SameDigit(p[0], Time(p[1..], dims[1..]), q[0], Time(q[1..], dims[1..]), dims[0]);
      TimeInjective(p[1..], q[1..], dims[1..]);
      assert p == [p[0]] + p[1..] && q == [q[0]] + q[1..];
    }
  }

  lemma SameDigit(a: nat, x: nat, b: nat, y: nat, d: nat)
    requires a < d && b < d && a + d * x == b + d * y
    ensures a == b && x == y
  {
    if x < y { OneMoreTurn(x, y, d); }
    if y < x { OneMoreTurn(y, x, d); }
  }

  lemma OneMoreTurn(x: nat, y: nat, d: nat)
    requires x < y
    ensures d * x + d <= d * y
  {
    var e := y - x - 1;
    assert d * (x + 1 + e) == d * x + d + d * e;
  }

  /** Extents as the odometer counts them: an extent of 0 takes one turn. */
  function Turns(dims: seq<nat>): (r: seq<nat>)
    ensures |r| == |dims| && forall i | 0 <= i < |dims| :: r[i] == if dims[i] == 0 then 1 else dims[i]
  {
    seq(|dims|, i requires 0 <= i < |dims| => if dims[i] == 0 then 1 else dims[i])
  }

  lemma TurnsOfPositive(dims: seq<nat>)
    ensures Turns(dims) == dims <==> Volume(dims) > 0
    ensures Volume(Turns(dims)) == Volume(dims) <==> Volume(dims) > 0
  {
    PositiveVolume(dims);
    PositiveVolume(Turns(dims));
    if Volume(dims) > 0 {
      assert Turns(dims) == dims;
    }
  }

  lemma {:induction false} VolumeSnoc(dims: seq<nat>, c: nat)
    requires c < |dims|
    ensures Volume(dims[..c + 1]) == Volume(dims[..c]) * dims[c]
  {
    if c == 0 {
      assert dims[..1] == [dims[0]] && dims[..1][1..] == [] && dims[..0] == [];
    } else {
      VolumeSnoc(dims[1..], c - 1);
      assert dims[..c + 1][1..] == dims[1..][..c] && dims[..c][1..] == dims[1..][..c - 1];
      MulAssoc(dims[0], Volume(dims[1..][..c - 1]), dims[c]);
    }
  }

  lemma MulAssoc(a: nat, b: nat, c: nat)
    ensures a * (b * c) == (a * b) * c
  {
  }

  /** Leading zeros: the time counts the remaining coordinates. */
  lemma {:induction false} TimeAfterZeros(pos: Tuple, dims: seq<nat>, c: nat)
    requires |pos| == |dims| && c <= |dims| && forall i | 0 <= i < c :: pos[i] == 0
    ensures Time(pos, dims) == Volume(dims[..c]) * Time(pos[c..], dims[c..])
  {
    if c == 0 {
      assert pos[0..] == pos && dims[0..] == dims && dims[..0] == [];
    } else {
      TimeAfterZeros(pos[1..], dims[1..], c - 1);
      assert pos[1..][c - 1..] == pos[c..] && dims[1..][c - 1..] == dims[c..];
      assert dims[..c][1..] == dims[1..][..c - 1];
      MulAssoc(dims[0], Volume(dims[1..][..c - 1]), Time(pos[c..], dims[c..]));
    }
  }

  // ---- the conversion --------------------------------------------------------------------------------

  /** The inner state of a carry: coordinates below caret are 0, the one at
      caret has just been advanced, and together they stand for time k. */
  ghost predicate Carrying(pos: Tuple, turns: seq<nat>, caret: nat, k: nat) {
    && |pos| == |turns| && caret < |pos|
    && (forall i | 0 <= i < caret :: pos[i] == 0)
    && 1 <= pos[caret] <= turns[caret]
    && (forall i | caret < i < |pos| :: pos[i] < turns[i])
    && Volume(turns[..caret]) * Time(pos[caret..], turns[caret..]) == k
  }

  lemma CarryStarts(pos: Tuple, turns: seq<nat>, k: nat)
    requires pos != [] && InBox(pos, turns) && Time(pos, turns) == k
    ensures Carrying(pos[0 := pos[0] + 1], turns, 0, k + 1)
  {
    var next := pos[0 := pos[0] + 1];
    assert next[0..] == next && turns[0..] == turns && turns[..0] == [] && next[1..] == pos[1..];
  }

  lemma CarryEnds(pos: Tuple, turns: seq<nat>, caret: nat, k: nat)
    requires Carrying(pos, turns, caret, k) && pos[caret] < turns[caret]
    requires forall i | 0 <= i < |turns| :: turns[i] > 0
    ensures InBox(pos, turns) && Time(pos, turns) == k
  {
    TimeAfterZeros(pos, turns, caret);
  }

  lemma CarryMoves(pos: Tuple, turns: seq<nat>, caret: nat, k: nat)
    requires Carrying(pos, turns, caret, k) && pos[caret] == turns[caret]
    ensures caret + 1 == |pos| ==> k == Volume(turns)
    ensures caret + 1 < |pos| ==>
              Carrying(pos[caret := 0][caret + 1 := pos[caret + 1] + 1], turns, caret + 1, k)
  {
    var d, rest := turns[caret], Time(pos[caret + 1..], turns[caret + 1..]);
    assert pos[caret..][1..] == pos[caret + 1..] && turns[caret..][1..] == turns[caret + 1..];
    assert Time(pos[caret..], turns[caret..]) == d + d * rest;
    VolumeSnoc(turns, caret);
    TurnOver(Volume(turns[..caret]), d, rest);
    if caret + 1 == |pos| {
      assert turns[..caret + 1] == turns && rest == 0;
    } else {
      var next := pos[caret := 0][caret + 1 := pos[caret + 1] + 1];
      assert next[caret + 1..][1..] == pos[caret + 1..][1..];
      assert Time(next[caret + 1..], turns[caret + 1..]) == rest + 1;
    }
  }

  lemma TurnOver(v: nat, d: nat, rest: nat)
    ensures v * (d + d * rest) == (v * d) * (rest + 1)
  {
  }

  datatype Outcome = Converted | UnknownLayout

  /** What is true of the destination once the positions before time k have been
      copied: their elements are in place, and nothing beyond n has changed. */
  ghost predicate CopiedUpTo<T>(src: Tuple -> nat, dst: Tuple -> nat, dims: seq<nat>, n: nat, k: nat,
                                source: seq<T>, before: seq<T>, now: seq<T>) {
    && |now| == |before| && n <= |source| && n <= |now|
    && (forall p | InBox(p, dims) && Time(p, dims) < k ::
          src(p) < |source| && dst(p) < |now| && now[dst(p)] == source[src(p)])
    && (forall j | n <= j < |now| :: now[j] == before[j])
  }

  lemma CopyOne<T>(src: Tuple -> nat, dst: Tuple -> nat, dims: seq<nat>, n: nat, k: nat, pos: Tuple,
                   source: seq<T>, before: seq<T>, now: seq<T>)
    requires Places(src, dims, n) && Places(dst, dims, n)
    requires CopiedUpTo(src, dst, dims, n, k, source, before, now) && InBox(pos, dims) && Time(pos, dims) == k
    ensures src(pos) < n && dst(pos) < n
    ensures CopiedUpTo(src, dst, dims, n, k + 1, source, before, now[dst(pos) := source[src(pos)]])
  {
    assert src(pos) < n && dst(pos) < n;
    forall p | InBox(p, dims) && Time(p, dims) < k + 1
      ensures src(p) < |source| && dst(p) < |now|
      ensures now[dst(pos) := source[src(pos)]][dst(p)] == source[src(p)]
    {
      if Time(p, dims) == k {
        TimeInjective(p, pos, dims);
      }
    }
  }

  /** The elements of `dest` are those of `source`, moved to their new places
      below n. */
  ghost predicate IsMoved<T>(src: Tuple -> nat, dst: Tuple -> nat, dims: seq<nat>, n: nat,
                             source: seq<T>, dest: seq<T>) {
    && n <= |source| && n <= |dest|
    && forall p | InBox(p, dims) :: src(p) < |source| && dst(p) < |dest| && dest[dst(p)] == source[src(p)]
  }

  ghost predicate IsConversion<T>(src: Tuple -> nat, dst: Tuple -> nat, dims: seq<nat>, source: seq<T>, dest: seq<T>) {
    IsMoved(src, dst, dims, Volume(dims), source, dest)
  }

  lemma AllCopied<T>(src: Tuple -> nat, dst: Tuple -> nat, dims: seq<nat>, n: nat,
                     source: seq<T>, before: seq<T>, now: seq<T>)
    requires CopiedUpTo(src, dst, dims, n, Volume(dims), source, before, now)
    ensures IsMoved(src, dst, dims, n, source, now)
  {
    forall p | InBox(p, dims)
      ensures Time(p, dims) < Volume(dims)
    {
      TimeBounded(p, dims);
    }
  }

  ghost predicate HasPlace(offset: Tuple -> nat, dims: seq<nat>, o: nat) {
    exists pos :: InBox(pos, dims) && offset(pos) == o
  }

  /** Place j holds the element of a position that was shown there. */
  ghost predicate Filled<T>(src: Tuple -> nat, dst: Tuple -> nat, turns: seq<nat>,
                            source: seq<T>, now: seq<T>, j: nat) {
    exists p {:trigger dst(p)} ::
      InBox(p, turns) && dst(p) == j && src(p) < |source| && j < |now| && now[j] == source[src(p)]
  }

  /** Whatever is shown, extents of 0 or not: the places of the positions before
      time k are filled, and every place is filled or as it was. */
  ghost predicate FilledUpTo<T>(src: Tuple -> nat, dst: Tuple -> nat, turns: seq<nat>, k: nat,
                                source: seq<T>, before: seq<T>, now: seq<T>) {
    && |now| == |before|
    && (forall j: nat | j < |now| :: now[j] == before[j] || Filled(src, dst, turns, source, now, j))
    && (forall p {:trigger dst(p)} | InBox(p, turns) && Time(p, turns) < k ::
          Filled(src, dst, turns, source, now, dst(p)))
  }

  lemma StaysFilled<T>(src: Tuple -> nat, dst: Tuple -> nat, turns: seq<nat>, pos: Tuple, source: seq<T>,
                       now: seq<T>, j: nat)
    requires InBox(pos, turns) && src(pos) < |source| && dst(pos) < |now|
    requires j == dst(pos) || Filled(src, dst, turns, source, now, j)
    ensures Filled(src, dst, turns, source, now[dst(pos) := source[src(pos)]], j)
  {
  }

  lemma FillOne<T>(src: Tuple -> nat, dst: Tuple -> nat, turns: seq<nat>, k: nat, pos: Tuple,
                   source: seq<T>, before: seq<T>, now: seq<T>)
    requires FilledUpTo(src, dst, turns, k, source, before, now) && InBox(pos, turns) && Time(pos, turns) == k
    requires src(pos) < |source| && dst(pos) < |now|
    ensures FilledUpTo(src, dst, turns, k + 1, source, before, now[dst(pos) := source[src(pos)]])
  {
    var next := now[dst(pos) := source[src(pos)]];
    forall j: nat | j < |now|
      ensures next[j] == before[j] || Filled(src, dst, turns, source, next, j)
    {
      if j == dst(pos) || Filled(src, dst, turns, source, now, j) {
        StaysFilled(src, dst, turns, pos, source, now, j);
      }
    }
    forall p {:trigger dst(p)} | InBox(p, turns) && Time(p, turns) < k + 1
      ensures Filled(src, dst, turns, source, next, dst(p))
    {
      if Time(p, turns) == k {
        TimeInjective(p, pos, turns);
      }
      StaysFilled(src, dst, turns, pos, source, now, dst(p));
    }
  }

  /** Exactly the places of the positions shown hold an element shown there; all
      others are as they were. */
  ghost predicate OnlyShownChange<T>(src: Tuple -> nat, dst: Tuple -> nat, turns: seq<nat>,
                                     source: seq<T>, before: seq<T>, now: seq<T>) {
    |now| == |before| &&
    forall j: nat | j < |now| ::
      if HasPlace(dst, turns, j) then Filled(src, dst, turns, source, now, j) else now[j] == before[j]
  }

  lemma AllFilled<T>(src: Tuple -> nat, dst: Tuple -> nat, turns: seq<nat>,
                     source: seq<T>, before: seq<T>, now: seq<T>)
    requires FilledUpTo(src, dst, turns, Volume(turns), source, before, now)
    ensures OnlyShownChange(src, dst, turns, source, before, now)
  {
    forall j: nat | j < |now|
      ensures if HasPlace(dst, turns, j) then Filled(src, dst, turns, source, now, j) else now[j] == before[j]
    {
      if HasPlace(dst, turns, j) {
        var p :| InBox(p, turns) && dst(p) == j;
        TimeBounded(p, turns);
      }
    }
  }

  /** Every position the odometer shows has an offset within the buffer. */
  ghost predicate Room(layout: Layout, dims: seq<nat>, length: nat)
    requires layout.OtherLayout? || Supports(layout, |dims|)
  {
    layout.OtherLayout? || forall p | InBox(p, Turns(dims)) :: OffsetAt(layout, dims, p) < length
  }

  lemma RoomForAll(layout: Layout, dims: seq<nat>, length: nat)
    requires Supports(layout, |dims|) && Room(layout, dims, length) && Volume(dims) > 0
    ensures Volume(dims) <= length
  {
    TurnsOfPositive(dims);
    var p := OffsetSurjective(layout, dims, Volume(dims) - 1);
  }

  /** Steps the position in place; `done` when it has gone round. */
  method Advance(pos: array<nat>, dims: seq<nat>, ghost k: nat) returns (done: bool)
    requires pos.Length == |dims| > 0 && InBox(pos[..], Turns(dims)) && Time(pos[..], Turns(dims)) == k
    modifies pos
    ensures done ==> k + 1 == Volume(Turns(dims))
    ensures !done ==> InBox(pos[..], Turns(dims)) && Time(pos[..], Turns(dims)) == k + 1
  {
    ghost var turns := Turns(dims);
    var caret := 0;
    CarryStarts(pos[..], turns, k);
    pos[caret] := pos[caret] + 1;
    assert pos[..] == old(pos[..])[0 := old(pos[..])[0] + 1];
    while pos[caret] >= dims[caret]
      invariant caret < |dims| && Carrying(pos[..], turns, caret, k + 1)
      decreases |dims| - caret
    {
      assert pos[caret] == turns[caret];
      var last := CarryOver(pos, caret, turns, k + 1);
      caret := caret + 1;
      if last {
        return true;
      }
    }
    CarryEnds(pos[..], turns, caret, k + 1);
    return false;
  }

  /** A full digit goes back to 0, and the next one, if any, is stepped. */
  method CarryOver(pos: array<nat>, caret: nat, ghost turns: seq<nat>, ghost k: nat) returns (last: bool)
    requires Carrying(pos[..], turns, caret, k) && pos[caret] == turns[caret]
    modifies pos
    ensures last <==> caret + 1 == |turns|
    ensures if last then k == Volume(turns) else Carrying(pos[..], turns, caret + 1, k)
  {
    ghost var before := pos[..];
    CarryMoves(before, turns, caret, k);
    pos[caret] := 0;
    last := caret + 1 == pos.Length;
    if !last {
      pos[caret + 1] := pos[caret + 1] + 1;
      assert pos[..] == before[caret := 0][caret + 1 := before[caret + 1] + 1];
    }
  }

  /** With at least one element, exactly the elements are copied, each to its
      place.  An extent of 0 is not noticed: one turn is made along it, so there
      are product(dims) copies exactly when no extent is 0.  In any case only the
      places of positions shown change. */
  method ConvertLayout<T>(sourceLayout: Layout, destLayout: Layout, sourceBuffer: array<T>, destBuffer: array<T>,
                          dims: seq<nat>) returns (outcome: Outcome, ghost copies: nat)
    requires sourceBuffer != destBuffer
    requires sourceLayout.OtherLayout? || Supports(sourceLayout, |dims|)
    requires destLayout.OtherLayout? || Supports(destLayout, |dims|)
    requires Room(sourceLayout, dims, sourceBuffer.Length) && Room(destLayout, dims, destBuffer.Length)
    modifies destBuffer
    ensures outcome == if dims != [] && (sourceLayout.OtherLayout? || destLayout.OtherLayout?) then UnknownLayout
                       else Converted
    ensures outcome.UnknownLayout? || dims == [] ==> destBuffer[..] == old(destBuffer[..]) && copies == 0
    ensures outcome.Converted? && dims != [] ==>
              copies == Volume(Turns(dims)) && (copies == Volume(dims) <==> Volume(dims) > 0) &&
              OnlyShownChange(OffsetOf(sourceLayout, dims), OffsetOf(destLayout, dims), Turns(dims),
                              sourceBuffer[..], old(destBuffer[..]), destBuffer[..])
    ensures outcome.Converted? && dims != [] && Volume(dims) > 0 ==>
              IsConversion(OffsetOf(sourceLayout, dims), OffsetOf(destLayout, dims), dims,
                           sourceBuffer[..], destBuffer[..]) &&
              forall j | Volume(dims) <= j < destBuffer.Length :: destBuffer[j] == old(destBuffer[j])
  {
    if |dims| == 0 {
      return Converted, 0;
    }
    if DimPositions(sourceLayout).None? || DimPositions(destLayout).None? {
      return UnknownLayout, 0;
    }
    ghost var src, dst, n, turns := OffsetOf(sourceLayout, dims), OffsetOf(destLayout, dims), Volume(dims), Turns(dims);
    OffsetPlaces(sourceLayout, dims);
    OffsetPlaces(destLayout, dims);
    OffsetFits(sourceLayout, dims, src, n, turns, sourceBuffer.Length);
    OffsetFits(destLayout, dims, dst, n, turns, destBuffer.Length);
    TurnsOfPositive(dims);
    copies := ConvertKnown(sourceLayout, destLayout, sourceBuffer, destBuffer, dims, src, dst, n, turns);
    return Converted, copies;
  }

  /** Every position shown has an offset within the buffer; if the box shown is
      that of the elements, there is room for all n of them. */
  ghost predicate Fits(offset: Tuple -> nat, dims: seq<nat>, n: nat, turns: seq<nat>, length: nat) {
    (turns == dims ==> n <= length) && forall p {:trigger offset(p)} | InBox(p, turns) :: offset(p) < length
  }

  lemma OffsetFits(layout: Layout, dims: seq<nat>, offset: Tuple -> nat, n: nat, turns: seq<nat>, length: nat)
    requires Supports(layout, |dims|) && Room(layout, dims, length)
    requires offset == OffsetOf(layout, dims) && n == Volume(dims) && turns == Turns(dims)
    ensures Fits(offset, dims, n, turns, length)
  {
    TurnsOfPositive(dims);
    if Volume(dims) > 0 {
      RoomForAll(layout, dims, length);
    }
    forall p | InBox(p, turns)
      ensures offset(p) < length
    {
      assert OffsetAt(layout, dims, p) < length;
    }
  }

  ghost predicate Counts(muls: seq<int>, offset: Tuple -> nat, dims: seq<nat>) {
    |muls| == |dims| && forall p: Tuple {:trigger offset(p)} | |p| == |dims| :: Dot(p, muls) == offset(p)
  }

  /** A counter computes the offsets of its layout. */
  method NewCounter(layout: Layout, dims: seq<nat>, ghost offset: Tuple -> nat) returns (counter: LayoutOffsetCounter)
    requires Supports(layout, |dims|) && offset == OffsetOf(layout, dims)
    ensures fresh(counter) && counter.dims == dims && Counts(counter.muls, offset, dims)
  {
    counter := new LayoutOffsetCounter(layout, dims);
    OffsetCounts(layout, dims, counter.muls, offset);
  }

  lemma OffsetCounts(layout: Layout, dims: seq<nat>, muls: seq<int>, offset: Tuple -> nat)
    requires Supports(layout, |dims|) && AreMultipliers(layout, dims, muls) && offset == OffsetOf(layout, dims)
    ensures Counts(muls, offset, dims)
  {
    forall p: Tuple | |p| == |dims|
      ensures Dot(p, muls) == offset(p)
    {
      DotIsOffset(layout, dims, muls, p);
    }
  }

  method ConvertKnown<T>(sourceLayout: Layout, destLayout: Layout, sourceBuffer: array<T>, destBuffer: array<T>,
                         dims: seq<nat>, ghost src: Tuple -> nat, ghost dst: Tuple -> nat, ghost n: nat,
                         ghost turns: seq<nat>) returns (ghost copies: nat)
    requires sourceBuffer != destBuffer && dims != [] && turns == Turns(dims)
    requires Supports(sourceLayout, |dims|) && Supports(destLayout, |dims|)
    requires src == OffsetOf(sourceLayout, dims) && dst == OffsetOf(destLayout, dims)
    requires Places(src, dims, n) && Places(dst, dims, n)
    requires Fits(src, dims, n, turns, sourceBuffer.Length) && Fits(dst, dims, n, turns, destBuffer.Length)
    modifies destBuffer
    ensures copies == Volume(turns)
    ensures OnlyShownChange(src, dst, turns, sourceBuffer[..], old(destBuffer[..]), destBuffer[..])
    ensures turns == dims ==> IsMoved(src, dst, dims, n, sourceBuffer[..], destBuffer[..])
    ensures turns == dims ==> forall j | n <= j < destBuffer.Length :: destBuffer[j] == old(destBuffer[j])
  {
    var srcOffsetCounter := NewCounter(sourceLayout, dims, src);
    var destOffsetCounter := NewCounter(destLayout, dims, dst);
    copies := CopyAll(srcOffsetCounter, destOffsetCounter, sourceBuffer, destBuffer, dims, src, dst, n, turns);
  }

  /** One copy, of the element at the position shown at time k. */
  method CopyElement<T>(srcOffsetCounter: LayoutOffsetCounter, destOffsetCounter: LayoutOffsetCounter,
                        sourceBuffer: array<T>, destBuffer: array<T>, dims: seq<nat>, pos: Tuple,
                        ghost src: Tuple -> nat, ghost dst: Tuple -> nat, ghost n: nat, ghost turns: seq<nat>,
                        ghost k: nat, ghost before: seq<T>)
    requires sourceBuffer != destBuffer && srcOffsetCounter.dims == destOffsetCounter.dims == dims
    requires Counts(srcOffsetCounter.muls, src, dims) && Counts(destOffsetCounter.muls, dst, dims)
    requires Places(src, dims, n) && Places(dst, dims, n) && |turns| == |dims|
    requires Fits(src, dims, n, turns, sourceBuffer.Length) && Fits(dst, dims, n, turns, destBuffer.Length)
    requires InBox(pos, turns) && Time(pos, turns) == k
    requires FilledUpTo(src, dst, turns, k, sourceBuffer[..], before, destBuffer[..])
    requires turns == dims ==> CopiedUpTo(src, dst, dims, n, k, sourceBuffer[..], before, destBuffer[..])
    modifies destBuffer
    ensures FilledUpTo(src, dst, turns, k + 1, sourceBuffer[..], before, destBuffer[..])
    ensures turns == dims ==> CopiedUpTo(src, dst, dims, n, k + 1, sourceBuffer[..], before, destBuffer[..])
  {
    var ps := srcOffsetCounter.Offset(pos);
    var pd := destOffsetCounter.Offset(pos);
    assert ps == src(pos) < sourceBuffer.Length && pd == dst(pos) < destBuffer.Length;
    FillOne(src, dst, turns, k, pos, sourceBuffer[..], before, destBuffer[..]);
    if turns == dims {
      CopyOne(src, dst, dims, n, k, pos, sourceBuffer[..], before, destBuffer[..]);
    }
    ghost var now := destBuffer[..];
    destBuffer[pd] := sourceBuffer[ps];
    assert destBuffer[..] == now[pd := sourceBuffer[..][ps]];
  }

  /** The copying loop: one copy for each position the odometer shows. */
  method CopyAll<T>(srcOffsetCounter: LayoutOffsetCounter, destOffsetCounter: LayoutOffsetCounter,
                    sourceBuffer: array<T>, destBuffer: array<T>, dims: seq<nat>,
                    ghost src: Tuple -> nat, ghost dst: Tuple -> nat, ghost n: nat, ghost turns: seq<nat>)
    returns (ghost copies: nat)
    requires sourceBuffer != destBuffer && dims != [] && turns == Turns(dims)
    requires srcOffsetCounter.dims == destOffsetCounter.dims == dims
    requires Counts(srcOffsetCounter.muls, src, dims) && Counts(destOffsetCounter.muls, dst, dims)
    requires Places(src, dims, n) && Places(dst, dims, n)
    requires Fits(src, dims, n, turns, sourceBuffer.Length) && Fits(dst, dims, n, turns, destBuffer.Length)
    modifies destBuffer
    ensures copies == Volume(turns)
    ensures OnlyShownChange(src, dst, turns, sourceBuffer[..], old(destBuffer[..]), destBuffer[..])
    ensures turns == dims ==> IsMoved(src, dst, dims, n, sourceBuffer[..], destBuffer[..])
    ensures turns == dims ==> forall j | n <= j < destBuffer.Length :: destBuffer[j] == old(destBuffer[j])
  {
    ghost var before := destBuffer[..];
    copies := 0;
    var pos := new nat[|dims|](_ => 0);
    PositiveVolume(turns);
    TimeOfZeros(pos[..], turns);
    var done := false;
    while !done
      invariant !done ==> InBox(pos[..], turns) && Time(pos[..], turns) == copies
      invariant copies <= Volume(turns) && (done ==> copies == Volume(turns))
      invariant FilledUpTo(src, dst, turns, copies, sourceBuffer[..], before, destBuffer[..])
      invariant turns == dims ==> CopiedUpTo(src, dst, dims, n, copies, sourceBuffer[..], before, destBuffer[..])
      decreases Volume(turns) - copies, !done
    {
      TimeBounded(pos[..], turns);
      CopyElement(srcOffsetCounter, destOffsetCounter, sourceBuffer, destBuffer, dims, pos[..], src, dst, n, turns,
                  copies, before);
      done := Advance(pos, dims, copies);
      copies := copies + 1;
    }
    AllFilled(src, dst, turns, sourceBuffer[..], before, destBuffer[..]);
    if turns == dims {
      AllCopied(src, dst, dims, n, sourceBuffer[..], before, destBuffer[..]);
    }
  }

  lemma {:induction false} TimeOfZeros(pos: Tuple, turns: seq<nat>)
    requires |pos| == |turns| && forall i | 0 <= i < |pos| :: pos[i] == 0
    ensures Time(pos, turns) == 0
  {
    if pos == [] {
    } else {
      TimeOfZeros(pos[1..], turns[1..]);
    }
  }

  /** Converting there and back restores a buffer of exactly the elements. */
  lemma ConversionRoundTrip<T>(a: Layout, b: Layout, dims: seq<nat>, s: seq<T>, t: seq<T>, u: seq<T>)
    requires Supports(a, |dims|) && Supports(b, |dims|) && |s| == |u| == Volume(dims)
    requires IsConversion(OffsetOf(a, dims), OffsetOf(b, dims), dims, s, t)
    requires IsConversion(OffsetOf(b, dims), OffsetOf(a, dims), dims, t, u)
    ensures u == s
  {
    forall o | 0 <= o < |s|
      ensures u[o] == s[o]
    {
      var p := OffsetSurjective(a, dims, o);
      assert OffsetOf(b, dims)(p) < |t|;
    }
  }

  /** A conversion is a permutation: each place of the destination below the
      volume gets the element of one place of the source, and none is used twice. */
  lemma ConversionIsPermutation<T>(a: Layout, b: Layout, dims: seq<nat>, s: seq<T>, t: seq<T>, o: nat, o': nat)
    returns (i: nat, i': nat)
    requires Supports(a, |dims|) && Supports(b, |dims|)
    requires IsConversion(OffsetOf(a, dims), OffsetOf(b, dims), dims, s, t)
    requires o < o' < Volume(dims)
    ensures i < Volume(dims) && i' < Volume(dims) && i != i' && t[o] == s[i] && t[o'] == s[i']
  {
    var p := OffsetSurjective(b, dims, o);
    var p' := OffsetSurjective(b, dims, o');
    i, i' := OffsetOf(a, dims)(p), OffsetOf(a, dims)(p');
    OffsetPlaces(a, dims);
  }

  /** The element that comes to place o stood at p[o]. */
  ghost predicate ComesFrom(src: Tuple -> nat, dst: Tuple -> nat, dims: seq<nat>, p: seq<nat>, o: nat)
    requires o < |p|
  {
    exists pos :: InBox(pos, dims) && dst(pos) == o && src(pos) == p[o]
  }

  lemma {:induction false} SourcePlaces(src: Tuple -> nat, dst: Tuple -> nat, dims: seq<nat>, n: nat)
    returns (p: seq<nat>)
    requires forall o: nat | o < n :: HasPlace(dst, dims, o)
    ensures |p| == n && forall o: nat | o < n :: ComesFrom(src, dst, dims, p, o)
  {
    if n == 0 {
      p := [];
    } else {
      var front := SourcePlaces(src, dst, dims, n - 1);
      assert HasPlace(dst, dims, n - 1);
      var pos :| InBox(pos, dims) && dst(pos) == n - 1;
      p := front + [src(pos)];
      forall o: nat | o < n
        ensures ComesFrom(src, dst, dims, p, o)
      {
        assert o < n - 1 ==> ComesFrom(src, dst, dims, front, o);
      }
    }
  }

  lemma SourcePlacesPermute(src: Tuple -> nat, dst: Tuple -> nat, dims: seq<nat>, p: seq<nat>)
    requires Places(src, dims, |p|) && Places(dst, dims, |p|)
    requires forall o: nat | o < |p| :: HasPlace(src, dims, o) && ComesFrom(src, dst, dims, p, o)
    ensures Permutes(p)
  {
    forall i: nat, j: nat | i < j < |p|
      ensures p[i] != p[j]
    {
      assert ComesFrom(src, dst, dims, p, i) && ComesFrom(src, dst, dims, p, j);
    }
    forall o: nat | o < |p|
      ensures p[o] < |p|
    {
      assert ComesFrom(src, dst, dims, p, o);
    }
    forall v: nat | v < |p|
      ensures v in p
    {
      assert HasPlace(src, dims, v);
      var pos :| InBox(pos, dims) && src(pos) == v;
      assert ComesFrom(src, dst, dims, p, dst(pos));
      assert p[dst(pos)] == v;
    }
  }

  lemma MovedRearranges<T>(src: Tuple -> nat, dst: Tuple -> nat, dims: seq<nat>, n: nat, p: seq<nat>,
                           s: seq<T>, t: seq<T>)
    requires IsMoved(src, dst, dims, n, s, t) && |p| == n && Permutes(p)
    requires forall o: nat | o < n :: ComesFrom(src, dst, dims, p, o)
    ensures multiset(t[..n]) == multiset(s[..n])
  {
    forall o: nat | o < n
      ensures t[..n][o] == Picked(s[..n], p)[o]
    {
      assert ComesFrom(src, dst, dims, p, o);
      var pos :| InBox(pos, dims) && dst(pos) == o && src(pos) == p[o];
      assert t[dst(pos)] == s[src(pos)];
    }
    assert t[..n] == Picked(s[..n], p);
    PickedIsRearranged(s[..n], p);
  }

  lemma AllPlaces(layout: Layout, dims: seq<nat>, offset: Tuple -> nat, n: nat)
    requires Supports(layout, |dims|) && offset == OffsetOf(layout, dims) && n == Volume(dims)
    ensures Places(offset, dims, n) && forall o: nat | o < n :: HasPlace(offset, dims, o)
  {
    OffsetPlaces(layout, dims);
    forall o: nat | o < n
      ensures HasPlace(offset, dims, o)
    {
      var pos := OffsetSurjective(layout, dims, o);
    }
  }

  lemma Rearranges<T>(src: Tuple -> nat, dst: Tuple -> nat, dims: seq<nat>, n: nat, s: seq<T>, t: seq<T>)
    requires Places(src, dims, n) && Places(dst, dims, n) && IsMoved(src, dst, dims, n, s, t)
    requires forall o: nat | o < n :: HasPlace(src, dims, o) && HasPlace(dst, dims, o)
    ensures multiset(t[..n]) == multiset(s[..n])
  {
    var p := SourcePlaces(src, dst, dims, n);
    SourcePlacesPermute(src, dst, dims, p);
    MovedRearranges(src, dst, dims, n, p, s, t);
  }

  /** A conversion rearranges the elements: none is lost and none is doubled. */
  lemma ConversionRearranges<T>(a: Layout, b: Layout, dims: seq<nat>, s: seq<T>, t: seq<T>)
    requires Supports(a, |dims|) && Supports(b, |dims|)
    requires IsConversion(OffsetOf(a, dims), OffsetOf(b, dims), dims, s, t)
    ensures multiset(t[..Volume(dims)]) == multiset(s[..Volume(dims)])
  {
    AllPlaces(a, dims, OffsetOf(a, dims), Volume(dims));
    AllPlaces(b, dims, OffsetOf(b, dims), Volume(dims));
    Rearranges(OffsetOf(a, dims), OffsetOf(b, dims), dims, Volume(dims), s, t);
  }

  method ConvertThereAndBack<T>(a: Layout, b: Layout, buffer: array<T>, scratch: array<T>, dims: seq<nat>)
    requires buffer != scratch && dims != [] && Supports(a, |dims|) && Supports(b, |dims|)
    requires buffer.Length == scratch.Length == Volume(dims) > 0
    modifies buffer, scratch
    ensures buffer[..] == old(buffer[..])
  {
    RoomEnough(a, dims);
    RoomEnough(b, dims);
    var _, _ := ConvertLayout(a, b, buffer, scratch, dims);
    ghost var there := scratch[..];
    var _, _ := ConvertLayout(b, a, scratch, buffer, dims);
    ConversionRoundTrip(a, b, dims, old(buffer[..]), there, buffer[..]);
  }

  /** Buffers of exactly the elements have room if and only if no extent is 0:
      with an extent of 0 there are no elements, and the first copy of the code is
      out of range. */
  lemma RoomForElements(layout: Layout, dims: seq<nat>)
    requires Supports(layout, |dims|) && dims != []
    ensures Room(layout, dims, Volume(dims)) <==> Volume(dims) > 0
    ensures Volume(dims) > 0 <==> forall i | 0 <= i < |dims| :: dims[i] > 0
  {
    PositiveVolume(dims);
    if Volume(dims) > 0 {
      RoomEnough(layout, dims);
    } else {
      NoRoomForNothing(layout, dims);
    }
  }

  lemma NoRoomForNothing(layout: Layout, dims: seq<nat>)
    requires Supports(layout, |dims|) && dims != []
    ensures !Room(layout, dims, 0)
  {
    var first := FirstShown(dims);
    assert OffsetAt(layout, dims, first) >= 0;
  }

  lemma FirstShown(dims: seq<nat>) returns (first: Tuple)
    ensures |first| == |dims| && InBox(first, Turns(dims))
  {
    first := seq(|dims|, _ => 0);
  }

  lemma RoomEnough(layout: Layout, dims: seq<nat>)
    requires Supports(layout, |dims|) && Volume(dims) > 0
    ensures Room(layout, dims, Volume(dims))
  {
    TurnsOfPositive(dims);
    forall p | InBox(p, Turns(dims))
      ensures OffsetAt(layout, dims, p) < Volume(dims)
    {
      OffsetInjective(layout, dims, p, p);
    }
  }
}
