/** Offsets of tensor elements in the NCHW and NHWC layouts.  Extents and
    positions are listed in reverse order: width, height, channels, batch. */
module Layouts {
  import opened Options
  import opened MixedRadix

  datatype Layout = NCHW | NHWC | OtherLayout

  /** The axes of a layout, fastest first; other layouts have no entry. */
  function DimPositions(layout: Layout): Option<seq<nat>> {
    match layout
    case NCHW => Some([0, 1, 2, 3])
    case NHWC => Some([2, 0, 1, 3])
    case OtherLayout => None
  }

  /** The first n axes listed for the layout are exactly the n axes there are. */
  predicate Supports(layout: Layout, n: nat) {
    match layout
    case NCHW => n <= 4
    case NHWC => n == 0 || n == 3 || n == 4
    case OtherLayout => false
  }

  /** The axes of a tensor of rank n, slowest first. */
  function Axes(layout: Layout, n: nat): (r: seq<nat>)
    requires Supports(layout, n)
    ensures |r| == n && (forall i | 0 <= i < n :: r[i] < n && r[i] == DimPositions(layout).value[n - 1 - i])
    ensures (forall i | 0 <= i < n :: i in r) && forall i, j | 0 <= i < j < n :: r[i] != r[j]
  {
    if n == 0 then []
    else if n == 1 then [0]
    else if n == 2 then [1, 0]
    else if n == 3 then if layout == NCHW then [2, 1, 0] else [1, 0, 2]
    else if layout == NCHW then [3, 2, 1, 0] else [3, 1, 0, 2]
  }

  function Along(x: seq<nat>, axes: seq<nat>): (r: seq<nat>)
    requires forall i | 0 <= i < |axes| :: axes[i] < |x|
    ensures |r| == |axes| && forall i | 0 <= i < |axes| :: r[i] == x[axes[i]]
  {
    seq(|axes|, i requires 0 <= i < |axes| => x[axes[i]])
  }

  /** The place of an element: its rank when its axes are taken slowest first. */
  function OffsetAt(layout: Layout, dims: seq<nat>, pos: Tuple): nat
    requires Supports(layout, |dims|) && |pos| == |dims|
  {
    Rank(Along(pos, Axes(layout, |dims|)), Along(dims, Axes(layout, |dims|)))
  }

  ghost function OffsetOf(layout: Layout, dims: seq<nat>): Tuple -> nat
    requires Supports(layout, |dims|)
  {
    (pos: Tuple) => if |pos| == |dims| then OffsetAt(layout, dims, pos) else 0
  }

  lemma AlongInBox(layout: Layout, dims: seq<nat>, pos: Tuple)
    requires Supports(layout, |dims|) && |pos| == |dims|
    ensures InBox(Along(pos, Axes(layout, |dims|)), Along(dims, Axes(layout, |dims|))) <==> InBox(pos, dims)
  {
    var axes := Axes(layout, |dims|);
    forall i | 0 <= i < |dims|
      ensures exists k :: 0 <= k < |axes| && axes[k] == i &&
                          Along(pos, axes)[k] == pos[i] && Along(dims, axes)[k] == dims[i]
    {
      assert i in axes;
      var k :| 0 <= k < |axes| && axes[k] == i;
    }
  }

  lemma Volume2(a: nat, b: nat)
    ensures Volume([a]) == a && Volume([a, b]) == a * b
  {
    assert [a][1..] == [] && [b][1..] == [] && [a, b][1..] == [b];
  }

  lemma Volume3(a: nat, b: nat, c: nat)
    ensures Volume([a, b, c]) == a * (b * c)
  {
    assert [a, b, c][1..] == [b, c];
    Volume2(b, c);
  }

  lemma Volume4(a: nat, b: nat, c: nat, d: nat)
    ensures Volume([a, b, c, d]) == a * (b * (c * d))
  {
    assert [a, b, c, d][1..] == [b, c, d];
    Volume3(b, c, d);
  }

  lemma Reorder3(a: nat, b: nat, c: nat)
    ensures a * (b * c) == c * (b * a) == b * (a * c)
  {
  }

  lemma Reorder4(a: nat, b: nat, c: nat, d: nat)
    ensures a * (b * (c * d)) == d * (c * (b * a)) == d * (b * (a * c))
  {
  }

  lemma VolumeAlong4(w: nat, h: nat, c: nat, n: nat)
    ensures Volume([n, c, h, w]) == Volume([n, h, w, c]) == Volume([w, h, c, n])
  {
    Volume4(n, c, h, w);
    Volume4(n, h, w, c);
    Volume4(w, h, c, n);
    Reorder4(w, h, c, n);
  }

  lemma VolumeAlong3(w: nat, h: nat, c: nat)
    ensures Volume([c, h, w]) == Volume([h, w, c]) == Volume([w, h, c])
  {
    Volume3(c, h, w);
    Volume3(h, w, c);
    Volume3(w, h, c);
    Reorder3(w, h, c);
  }

  /** Every layout takes as much room as there are elements. */
  lemma VolumeAlong(layout: Layout, dims: seq<nat>)
    requires Supports(layout, |dims|)
    ensures Volume(Along(dims, Axes(layout, |dims|))) == Volume(dims)
  {
    if |dims| == 4 {
      VolumeOf4(layout, dims, Along(dims, Axes(layout, 4)));
    } else if |dims| == 3 {
      VolumeOf3(layout, dims, Along(dims, Axes(layout, 3)));
    } else if |dims| == 2 {
      Permuted2(layout, dims);
      Volume2(dims[0], dims[1]);
      Volume2(dims[1], dims[0]);
    } else {
      assert Along(dims, Axes(layout, |dims|)) == dims;
    }
  }

  lemma VolumeOf4(layout: Layout, x: seq<nat>, y: seq<nat>)
    requires |x| == 4 && Supports(layout, 4) && y == Along(x, Axes(layout, 4))
    ensures Volume(y) == Volume(x)
  {
    Permuted4(layout, x);
    VolumeAlong4(x[0], x[1], x[2], x[3]);
  }

  lemma VolumeOf3(layout: Layout, x: seq<nat>, y: seq<nat>)
    requires |x| == 3 && Supports(layout, 3) && y == Along(x, Axes(layout, 3))
    ensures Volume(y) == Volume(x)
  {
    Permuted3(layout, x);
    VolumeAlong3(x[0], x[1], x[2]);
  }

  lemma Permuted4(layout: Layout, x: seq<nat>)
    requires |x| == 4 && Supports(layout, 4)
    ensures x == [x[0], x[1], x[2], x[3]]
    ensures Along(x, Axes(layout, 4)) ==
            if layout == NCHW then [x[3], x[2], x[1], x[0]] else [x[3], x[1], x[0], x[2]]
  {
  }

  lemma Permuted3(layout: Layout, x: seq<nat>)
    requires |x| == 3 && Supports(layout, 3)
    ensures x == [x[0], x[1], x[2]]
    ensures Along(x, Axes(layout, 3)) == if layout == NCHW then [x[2], x[1], x[0]] else [x[1], x[0], x[2]]
  {
  }

  lemma Permuted2(layout: Layout, x: seq<nat>)
    requires |x| == 2 && Supports(layout, 2)
    ensures x == [x[0], x[1]] && Along(x, Axes(layout, 2)) == [x[1], x[0]]
  {
  }

  // ---- the offset counter -------------------------------------------------------------

  /** Product of the extents of the first i axes of an order. */
  function MulAt(dims: seq<nat>, order: seq<nat>, i: nat): nat
    requires i <= |order| && forall j | 0 <= j < i :: order[j] < |dims|
  {
    if i == 0 then 1 else MulAt(dims, order, i - 1) * dims[order[i - 1]]
  }

  predicate AreMultipliers(layout: Layout, dims: seq<nat>, muls: seq<int>)
    requires Supports(layout, |dims|)
  {
    var order := DimPositions(layout).value[..|dims|];
    |muls| == |dims| && forall i | 0 <= i < |dims| :: muls[order[i]] == MulAt(dims, order, i)
  }

  function Dot(pos: Tuple, muls: seq<int>): int
    requires |pos| == |muls|
  {
    if pos == [] then 0 else Dot(pos[..|pos| - 1], muls[..|pos| - 1]) + pos[|pos| - 1] * muls[|pos| - 1]
  }

  class LayoutOffsetCounter {
    const layout: Layout
    const dims: seq<nat>
    var muls: seq<int>

    /** The multipliers start at -1, which stands for the largest word. */
    constructor (layout: Layout, dims: seq<nat>)
      requires Supports(layout, |dims|)
      ensures this.layout == layout && this.dims == dims && AreMultipliers(layout, dims, muls)
    {
      this.layout := layout;
      this.dims := dims;
      muls := seq(|dims|, _ => -1);
      new;
      ghost var order := DimPositions(layout).value[..|dims|];
      var mul: nat := 1;
      for i := 0 to |dims|
        invariant |muls| == |dims| && mul == MulAt(dims, order, i)
        invariant forall j | 0 <= j < i :: muls[order[j]] == MulAt(dims, order, j)
      {
        var index := DimPositions(layout).value[i];
        muls := muls[index := mul];
        mul := mul * dims[index];
      }
    }

    method Offset(pos: Tuple) returns (res: int)
      requires |pos| == |dims| == |muls|
      ensures res == Dot(pos, muls)
    {
      res := 0;
      for i := 0 to |dims|
        invariant res == Dot(pos[..i], muls[..i])
      {
        assert pos[..i + 1][..i] == pos[..i] && muls[..i + 1][..i] == muls[..i];
        res := res + pos[i] * muls[i];
      }
      assert pos[..|dims|] == pos && muls[..|dims|] == muls;
    }
  }

  lemma Rank2(a: nat, b: nat, y: nat, z: nat)
    ensures Rank([b], [z]) == b && Rank([a, b], [y, z]) == a * z + b
  {
    Volume2(z, z);
    assert [b][1..] == [] && [z][1..] == [] && [a, b][1..] == [b] && [y, z][1..] == [z];
  }

  lemma Rank3(a: nat, b: nat, c: nat, x: nat, y: nat, z: nat)
    ensures Rank([a, b, c], [x, y, z]) == a * (y * z) + b * z + c
  {
    Volume2(y, z);
    Rank2(b, c, y, z);
    assert [a, b, c][1..] == [b, c] && [x, y, z][1..] == [y, z];
  }

  lemma Rank4(a: nat, b: nat, c: nat, d: nat, w: nat, x: nat, y: nat, z: nat)
    ensures Rank([a, b, c, d], [w, x, y, z]) == a * (x * (y * z)) + b * (y * z) + c * z + d
  {
    Volume3(x, y, z);
    Rank3(b, c, d, x, y, z);
    assert [a, b, c, d][1..] == [b, c, d] && [w, x, y, z][1..] == [x, y, z];
  }

  lemma Dot4(p: seq<nat>, m: seq<int>)
    requires |p| == |m| <= 4
    ensures |p| == 1 ==> Dot(p, m) == p[0] * m[0]
    ensures |p| == 2 ==> Dot(p, m) == p[0] * m[0] + p[1] * m[1]
    ensures |p| == 3 ==> Dot(p, m) == p[0] * m[0] + p[1] * m[1] + p[2] * m[2]
    ensures |p| == 4 ==> Dot(p, m) == p[0] * m[0] + p[1] * m[1] + p[2] * m[2] + p[3] * m[3]
  {
    if p == [] {
    } else {
      Dot4(p[..|p| - 1], m[..|p| - 1]);
    }
  }

  lemma Horner4(a: nat, b: nat, c: nat, d: nat, x: nat, y: nat, z: nat)
    ensures d * 1 + c * z + b * (z * y) + a * (z * y * x) == a * (x * (y * z)) + b * (y * z) + c * z + d
  {
  }

  lemma DotIsOffset4(layout: Layout, d: seq<nat>, muls: seq<int>, p: Tuple)
    requires |d| == 4 && Supports(layout, 4) && |p| == 4 && AreMultipliers(layout, d, muls)
    ensures Dot(p, muls) == OffsetAt(layout, d, p)
  {
    var order := DimPositions(layout).value[..4];
    assert order == DimPositions(layout).value;
    Dot4(p, muls);
    Permuted4(layout, p);
    Permuted4(layout, d);
    Multipliers4(d, order);
    if layout == NCHW {
      assert muls[0] == 1 && muls[1] == d[0] && muls[2] == d[0] * d[1] && muls[3] == d[0] * d[1] * d[2];
      Rank4(p[3], p[2], p[1], p[0], d[3], d[2], d[1], d[0]);
      Horner4(p[3], p[2], p[1], p[0], d[2], d[1], d[0]);
    } else {
      assert muls[2] == 1 && muls[0] == d[2] && muls[1] == d[2] * d[0] && muls[3] == d[2] * d[0] * d[1];
      Rank4(p[3], p[1], p[0], p[2], d[3], d[1], d[0], d[2]);
      Horner4(p[3], p[1], p[0], p[2], d[1], d[0], d[2]);
    }
  }

  lemma Multipliers4(d: seq<nat>, order: seq<nat>)
    requires |order| <= 4 && forall i | 0 <= i < |order| :: order[i] < |d|
    ensures |order| > 0 ==> MulAt(d, order, 0) == 1
    ensures |order| > 1 ==> MulAt(d, order, 1) == d[order[0]]
    ensures |order| > 2 ==> MulAt(d, order, 2) == d[order[0]] * d[order[1]]
    ensures |order| > 3 ==> MulAt(d, order, 3) == d[order[0]] * d[order[1]] * d[order[2]]
  {
  }

  /** What the counter computes is the place of the element in its layout. */
  lemma DotIsOffset(layout: Layout, d: seq<nat>, muls: seq<int>, p: Tuple)
    requires Supports(layout, |d|) && |p| == |d| && AreMultipliers(layout, d, muls)
    ensures Dot(p, muls) == OffsetAt(layout, d, p)
  {
    if |d| == 4 {
      DotIsOffset4(layout, d, muls, p);
    } else {
      var order := DimPositions(layout).value[..|d|];
      Dot4(p, muls);
      Multipliers4(d, order);
      if |d| == 3 {
        Permuted3(layout, p);
        Permuted3(layout, d);
        if layout == NCHW {
          Rank3(p[2], p[1], p[0], d[2], d[1], d[0]);
          Horner4(0, p[2], p[1], p[0], 0, d[1], d[0]);
        } else {
          Rank3(p[1], p[0], p[2], d[1], d[0], d[2]);
          Horner4(0, p[1], p[0], p[2], 0, d[0], d[2]);
        }
      } else if |d| == 2 {
        Permuted2(layout, p);
        Permuted2(layout, d);
        Rank2(p[1], p[0], d[1], d[0]);
      } else if |d| == 1 {
        Rank2(p[0], p[0], d[0], d[0]);
        assert p == [p[0]] && d == [d[0]];
        assert Along(p, Axes(layout, 1)) == p && Along(d, Axes(layout, 1)) == d;
      }
    }
  }

  /** A batch of images in memory: image, channel, row and column from slowest to
      fastest, or image, row, column and channel. */
  lemma ImageOrder(width: nat, height: nat, channels: nat, images: nat, x: nat, y: nat, c: nat, i: nat)
    ensures OffsetAt(NCHW, [width, height, channels, images], [x, y, c, i]) ==
            Rank([i, c, y, x], [images, channels, height, width])
    ensures OffsetAt(NHWC, [width, height, channels, images], [x, y, c, i]) ==
            Rank([i, y, x, c], [images, height, width, channels])
  {
    var d, p := [width, height, channels, images], [x, y, c, i];
    assert Along(p, Axes(NCHW, 4)) == [i, c, y, x] && Along(d, Axes(NCHW, 4)) == [images, channels, height, width];
    assert Along(p, Axes(NHWC, 4)) == [i, y, x, c] && Along(d, Axes(NHWC, 4)) == [images, height, width, channels];
  }
}
