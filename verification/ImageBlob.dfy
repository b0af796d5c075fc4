/** Copying a packed RGB image into a planar blob. */
module ImageBlob {
  import opened MixedRadix
  import opened Sequences

  datatype Outcome = Copied | WrongRank(rank: nat) | SizeMismatch(expected: nat, got: nat)

  /** Extents of the image batch: images, channels, and pixels per image. */
  datatype Shape = Shape(images: nat, channels: nat, pixels: nat)

  /** Where channel c of pixel i of image n stands, one plane after the other ... */
  function PlanarIndex(s: Shape, n: nat, c: nat, i: nat): nat {
    (n * s.channels + c) * s.pixels + i
  }

  /** ... and one pixel after the other. */
  function PackedIndex(s: Shape, n: nat, c: nat, i: nat): nat {
    (n * s.pixels + i) * s.channels + c
  }

  function Size(s: Shape): nat {
    s.images * s.channels * s.pixels
  }

  predicate Sample(s: Shape, n: nat, c: nat, i: nat) {
    n < s.images && c < s.channels && i < s.pixels
  }

  lemma RowUnique(a: nat, b: nat, a': nat, b': nat, y: nat)
    requires b < y && b' < y && a * y + b == a' * y + b'
    ensures a == a' && b == b'
  {
    if a < a' { RowBound(a, a', y, b); }
    if a' < a { RowBound(a', a, y, b'); }
  }

  lemma MulSwap(a: nat, b: nat, c: nat)
    ensures (a * b) * c == (a * c) * b
  {
  }

  /** Both numberings give each sample an index of its own below the size. */
  lemma PlanarUnique(s: Shape, n: nat, c: nat, i: nat, n': nat, c': nat, i': nat)
    requires Sample(s, n, c, i) && Sample(s, n', c', i')
    ensures PlanarIndex(s, n, c, i) < Size(s)
    ensures PlanarIndex(s, n, c, i) == PlanarIndex(s, n', c', i') ==> n == n' && c == c' && i == i'
  {
    PlanarBounded(s, n, c, i);
    if PlanarIndex(s, n, c, i) == PlanarIndex(s, n', c', i') {
      RowsUnique(n, c, i, n', c', i', s.channels, s.pixels);
    }
  }

  lemma RowsUnique(a: nat, b: nat, c: nat, a': nat, b': nat, c': nat, y: nat, z: nat)
    requires b < y && b' < y && c < z && c' < z && (a * y + b) * z + c == (a' * y + b') * z + c'
    ensures a == a' && b == b' && c == c'
  {
    RowUnique(a * y + b, c, a' * y + b', c', z);
    RowUnique(a, b, a', b', y);
  }

  lemma PlanarBounded(s: Shape, n: nat, c: nat, i: nat)
    requires Sample(s, n, c, i)
    ensures PlanarIndex(s, n, c, i) < Size(s)
  {
    RowBound(n, s.images, s.channels, c);
    RowBound(n * s.channels + c, s.images * s.channels, s.pixels, i);
  }

  lemma PackedBounded(s: Shape, n: nat, c: nat, i: nat)
    requires Sample(s, n, c, i)
    ensures PackedIndex(s, n, c, i) < Size(s)
  {
    RowBound(n, s.images, s.pixels, i);
    RowBound(n * s.pixels + i, s.images * s.pixels, s.channels, c);
    MulSwap(s.images, s.pixels, s.channels);
  }

  /** ... and every index below the size is that of a sample. */
  lemma PlanarSample(s: Shape, k: nat) returns (n: nat, c: nat, i: nat)
    requires k < Size(s)
    ensures Sample(s, n, c, i) && PlanarIndex(s, n, c, i) == k
  {
    var plane;
    plane, i := RowSplit(k, s.images * s.channels, s.pixels);
    n, c := RowSplit(plane, s.images, s.channels);
  }

  lemma PackedSample(s: Shape, k: nat) returns (n: nat, c: nat, i: nat)
    requires k < Size(s)
    ensures Sample(s, n, c, i) && PackedIndex(s, n, c, i) == k && s.channels > 0 && s.pixels > 0
    ensures c == k % s.channels && n == k / s.channels / s.pixels && i == k / s.channels % s.pixels
  {
    MulSwap(s.images, s.pixels, s.channels);
    var pixel;
    pixel, c := RowSplit(k, s.images * s.pixels, s.channels);
    n, i := RowSplit(pixel, s.images, s.pixels);
  }

  /** One sample of `image` stands where it belongs in `blob`. */
  ghost predicate InPlace<T>(s: Shape, image: seq<T>, blob: seq<T>, n: nat, c: nat, i: nat) {
    PackedIndex(s, n, c, i) < |image| && PlanarIndex(s, n, c, i) < |blob| &&
    blob[PlanarIndex(s, n, c, i)] == image[PackedIndex(s, n, c, i)]
  }

  /** `blob` holds the samples of `image`, plane by plane. */
  ghost predicate IsPlanar<T>(s: Shape, image: seq<T>, blob: seq<T>) {
    && |image| == Size(s) && |blob| == Size(s)
    && forall n: nat, c: nat, i: nat | Sample(s, n, c, i) :: InPlace(s, image, blob, n, c, i)
  }

  /** Where sample k of a packed image stands in the planar blob. */
  function PlanarPlace(s: Shape, k: nat): nat {
    if s.channels == 0 || s.pixels == 0 then 0
    else PlanarIndex(s, k / s.channels / s.pixels, k % s.channels, k / s.channels % s.pixels)
  }

  function PackedOrder(s: Shape): (r: seq<nat>)
    ensures |r| == Size(s) && forall k | 0 <= k < |r| :: r[k] == PlanarPlace(s, k)
  {
    seq(Size(s), k requires 0 <= k < Size(s) => PlanarPlace(s, k))
  }

  lemma PlanarPlaceOf(s: Shape, k: nat) returns (n: nat, c: nat, i: nat)
    requires k < Size(s)
    ensures Sample(s, n, c, i) && PackedIndex(s, n, c, i) == k && PlanarIndex(s, n, c, i) == PlanarPlace(s, k)
    ensures PlanarPlace(s, k) < Size(s)
  {
    n, c, i := PackedSample(s, k);
    PlanarBounded(s, n, c, i);
  }

  lemma PackedOrderPermutes(s: Shape)
    ensures Permutes(PackedOrder(s))
  {
    var p := PackedOrder(s);
    forall k | 0 <= k < |p|
      ensures p[k] < |p|
    {
      var n, c, i := PlanarPlaceOf(s, k);
    }
    forall j, k | 0 <= j < k < |p|
      ensures p[j] != p[k]
    {
      var n, c, i := PlanarPlaceOf(s, j);
      var n', c', i' := PlanarPlaceOf(s, k);
      PlanarUnique(s, n, c, i, n', c', i');
    }
    forall v | 0 <= v < |p|
      ensures v in p
    {
      var n, c, i := PlanarSample(s, v);
      PackedBounded(s, n, c, i);
      var n', c', i' := PlanarPlaceOf(s, PackedIndex(s, n, c, i));
      PackedUnique(s, n, c, i, n', c', i');
      assert p[PackedIndex(s, n, c, i)] == v;
    }
  }

  lemma PackedUnique(s: Shape, n: nat, c: nat, i: nat, n': nat, c': nat, i': nat)
    requires Sample(s, n, c, i) && Sample(s, n', c', i') && PackedIndex(s, n, c, i) == PackedIndex(s, n', c', i')
    ensures n == n' && c == c' && i == i'
  {
    RowsUnique(n, i, c, n', i', c', s.pixels, s.channels);
  }

  /** The packed image that a planar blob stands for. */
  function Interleaved<T>(s: Shape, blob: seq<T>): seq<T>
    requires |blob| == Size(s)
  {
    PackedOrderPermutes(s);
    Picked(blob, PackedOrder(s))
  }

  /** Interleaving recovers the image, and only from its planar blob; so a planar
      blob is a rearrangement of the image. */
  lemma PlanarIsInterleaved<T>(s: Shape, image: seq<T>, blob: seq<T>)
    requires |blob| == Size(s)
    ensures IsPlanar(s, image, blob) <==> image == Interleaved(s, blob)
    ensures IsPlanar(s, image, blob) ==> multiset(blob) == multiset(image)
  {
    PackedOrderPermutes(s);
    PickedIsRearranged(blob, PackedOrder(s));
    if IsPlanar(s, image, blob) {
      forall k | 0 <= k < |image|
        ensures image[k] == Interleaved(s, blob)[k]
      {
        var n, c, i := PlanarPlaceOf(s, k);
        assert InPlace(s, image, blob, n, c, i);
      }
    }
    if image == Interleaved(s, blob) {
      forall n: nat, c: nat, i: nat | Sample(s, n, c, i)
        ensures InPlace(s, image, blob, n, c, i)
      {
        PackedBounded(s, n, c, i);
        PlanarBounded(s, n, c, i);
        var n', c', i' := PlanarPlaceOf(s, PackedIndex(s, n, c, i));
        PackedUnique(s, n, c, i, n', c', i');
      }
    }
  }

  /** The planar blob is determined by the image, and the image by the blob. */
  lemma PlanarDetermines<T>(s: Shape, image: seq<T>, blob: seq<T>, image': seq<T>, blob': seq<T>)
    requires IsPlanar(s, image, blob) && IsPlanar(s, image', blob')
    ensures image == image' <==> blob == blob'
  {
    if image == image' {
      forall k | 0 <= k < |blob|
        ensures blob[k] == blob'[k]
      {
        var n, c, i := PlanarSample(s, k);
        assert InPlace(s, image, blob, n, c, i) && InPlace(s, image', blob', n, c, i);
      }
    }
    if blob == blob' {
      forall k | 0 <= k < |image|
        ensures image[k] == image'[k]
      {
        var n, c, i := PackedSample(s, k);
        assert InPlace(s, image, blob, n, c, i) && InPlace(s, image', blob', n, c, i);
      }
    }
  }

  /** Sample (m, c, k) is copied before channel j of pixel i of image n. */
  predicate Earlier(m: nat, c: nat, k: nat, n: nat, i: nat, j: nat) {
    m < n || (m == n && (k < i || (k == i && c < j)))
  }

  ghost predicate PlanarUpTo<T>(s: Shape, image: seq<T>, blob: seq<T>, n: nat, i: nat, j: nat) {
    && |image| == Size(s) && |blob| == Size(s)
    && forall m: nat, c: nat, k: nat | Sample(s, m, c, k) && Earlier(m, c, k, n, i, j) ::
         InPlace(s, image, blob, m, c, k)
  }

  lemma KeepsOthers<T>(s: Shape, image: seq<T>, blob: seq<T>, n: nat, i: nat, j: nat, at: nat, x: T,
                       m: nat, c: nat, k: nat)
    requires Sample(s, n, j, i) && Sample(s, m, c, k) && InPlace(s, image, blob, m, c, k)
    requires at == PlanarIndex(s, n, j, i) < |blob| && !(m == n && c == j && k == i)
    ensures InPlace(s, image, blob[at := x], m, c, k)
  {
    PlanarUnique(s, m, c, k, n, j, i);
  }

  lemma CopySample<T>(s: Shape, image: seq<T>, blob: seq<T>, n: nat, i: nat, j: nat, from: nat, at: nat)
    requires PlanarUpTo(s, image, blob, n, i, j) && Sample(s, n, j, i)
    requires from == PackedIndex(s, n, j, i) && at == PlanarIndex(s, n, j, i)
    ensures from < |image| && at < |blob|
    ensures PlanarUpTo(s, image, blob[at := image[from]], n, i, j + 1)
  {
    PlanarUnique(s, n, j, i, n, j, i);
    PackedBounded(s, n, j, i);
    forall m: nat, c: nat, k: nat | Sample(s, m, c, k) && Earlier(m, c, k, n, i, j + 1)
      ensures InPlace(s, image, blob[at := image[from]], m, c, k)
    {
      if !(m == n && c == j && k == i) {
        assert Earlier(m, c, k, n, i, j);
        KeepsOthers(s, image, blob, n, i, j, at, image[from], m, c, k);
      }
    }
  }

  /** The code's index arithmetic. */
  lemma Indexes(s: Shape, n: nat, i: nat, j: nat)
    ensures i * s.channels + n * s.channels * s.pixels + j == PackedIndex(s, n, j, i)
    ensures (n * s.channels + j) * s.pixels + i == PlanarIndex(s, n, j, i)
  {
    MulSwap(n, s.channels, s.pixels);
    assert (n * s.pixels + i) * s.channels == n * s.pixels * s.channels + i * s.channels;
  }

  /** One pointer per plane: each a plane after the one before. */
  method PlaneStarts(numImages: nat, numChannels: nat, nPixels: nat) returns (dataArray: seq<nat>)
    ensures |dataArray| == numImages * numChannels
    ensures forall k | 0 <= k < |dataArray| :: dataArray[k] == k * nPixels
  {
    dataArray := [];
    for n := 0 to numImages
      invariant |dataArray| == n * numChannels && forall k | 0 <= k < |dataArray| :: dataArray[k] == k * nPixels
    {
      for i := 0 to numChannels
        invariant |dataArray| == n * numChannels + i && forall k | 0 <= k < |dataArray| :: dataArray[k] == k * nPixels
      {
        if n == 0 && i == 0 && dataArray == [] {
          dataArray := dataArray + [0];
        } else {
          NotFirst(n, numChannels, i);
          NextPlane(n * numChannels + i, nPixels);
          dataArray := dataArray + [dataArray[n * numChannels + i - 1] + nPixels];
        }
      }
    }
  }

  lemma NotFirst(n: nat, c: nat, i: nat)
    requires i < c && !(n == 0 && i == 0)
    ensures n * c + i > 0
  {
    if n > 0 {
      assert n * c == (n - 1) * c + c;
    }
  }

  lemma NextPlane(k: nat, p: nat)
    requires k > 0
    ensures (k - 1) * p + p == k * p
  {
  }

  /** `dims` are batch, channels, height and width; the blob has room for them. */
  method CopyFromRGB8<T>(rgb8: array<T>, rgb8Size: nat, dims: seq<nat>, blob: array<T>) returns (r: Outcome)
    requires rgb8 != blob && rgb8Size <= rgb8.Length
    requires |dims| == 4 ==> blob.Length == Size(Shape(dims[0], dims[1], dims[3] * dims[2]))
    modifies blob
    ensures r.WrongRank? <==> |dims| != 4
    ensures |dims| == 4 ==>
              (r.Copied? <==> rgb8Size == blob.Length) &&
              (r.Copied? ==> IsPlanar(Shape(dims[0], dims[1], dims[3] * dims[2]), rgb8[..rgb8Size], blob[..])) &&
              (!r.Copied? ==> r == SizeMismatch(blob.Length, rgb8Size))
    ensures !r.Copied? ==> blob[..] == old(blob[..])
  {
    if 4 != |dims| {
      return WrongRank(|dims|);
    }
    var numChannels, numImages, w, h := dims[1], dims[0], dims[3], dims[2];
    var nPixels := w * h;
    var s := Shape(numImages, numChannels, nPixels);
    MulSwap(w * h, numChannels, numImages);
    assert w * h * numChannels * numImages == Size(s);
    if rgb8Size != w * h * numChannels * numImages {
      return SizeMismatch(w * h * numChannels * numImages, rgb8Size);
    }
    Separate(s, rgb8, rgb8Size, blob);
    return Copied;
  }

  method Separate<T>(s: Shape, rgb8: array<T>, rgb8Size: nat, blob: array<T>)
    requires rgb8 != blob && rgb8Size <= rgb8.Length && rgb8Size == Size(s) == blob.Length
    modifies blob
    ensures IsPlanar(s, rgb8[..rgb8Size], blob[..])
  {
    var numChannels, nPixels := s.channels, s.pixels;
    var dataArray := PlaneStarts(s.images, numChannels, nPixels);
    ghost var image := rgb8[..rgb8Size];
    for n := 0 to s.images
      invariant PlanarUpTo(s, image, blob[..], n, 0, 0)
    {
      var firstChannel := n * numChannels;
      var firstByte := firstChannel * nPixels;
      for i := 0 to nPixels
        invariant PlanarUpTo(s, image, blob[..], n, i, 0)
      {
        var pixel := i * numChannels + firstByte;
        for j := 0 to numChannels
          invariant PlanarUpTo(s, image, blob[..], n, i, j)
        {
          Indexes(s, n, i, j);
          RowBound(n, s.images, numChannels, j);
          CopySample(s, image, blob[..], n, i, j, pixel + j, dataArray[firstChannel + j] + i);
          ghost var now := blob[..];
          blob[dataArray[firstChannel + j] + i] := rgb8[pixel + j];
          assert blob[..] == now[dataArray[firstChannel + j] + i := image[pixel + j]];
        }
      }
    }
  }
}
