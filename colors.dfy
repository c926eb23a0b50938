/** Colour samples and the three pure helpers of the clustering: the distance
    between two colours, the search for the nearest centre and the mean of a
    cluster (`distance`, `select_closest_center`, `cluster_mean` in src/main.rs). */
module Colors {
  import opened Panics

  /** An unsigned 8-bit channel value (Rust `u8`). */
  type u8 = x: int | 0 <= x < 256

  /** The index of a channel: 0 red, 1 green, 2 blue, 3 alpha. */
  type ChannelIndex = i: int | 0 <= i < 4

  /** A pixel, `image::Rgba<u8>`: four 8-bit channels. */
  datatype Pixel = Rgba(r: u8, g: u8, b: u8, a: u8) {
    /** `pixel[i]` */
    function Channel(i: ChannelIndex): u8 {
      if i == 0 then r else if i == 1 then g else if i == 2 then b else a
    }
  }

  /** A cast `as u8`: keeps the low eight bits. */
  function AsU8(x: nat): u8 {
    x % 256
  }

  // ---------------------------------------------------------------------------
  // distance

  /** `x.pow(2)`, written as a sum of odd numbers so that clients of the
      distance reason about it without products. */
  function Square(x: nat): nat {
    if x == 0 then 0 else Square(x - 1) + 2 * x - 1
  }

  lemma {:induction false} SquareIsProduct(x: nat)
    ensures Square(x) == x * x
  {
    if x > 0 {
      SquareIsProduct(x - 1);
    }
  }

  lemma SquareMonotone(a: nat, b: nat)
    requires a <= b
    ensures Square(a) <= Square(b)
  {
    SquareIsProduct(a);
    SquareIsProduct(b);
    assert b * b == a * a + (b - a) * (a + b);
  }

  /** `usize::isqrt`, computed digit by digit: the root of `x` is twice the
      root of `x / 4`, or one more. */
  function Isqrt(x: nat): nat
    decreases x
  {
    if x == 0 then 0
    else if x < 4 then 1
    else
      var t := Isqrt(x / 4);
      if Square(2 * t + 1) <= x then 2 * t + 1 else 2 * t
  }

  /** `Isqrt(x)` is the largest `r` with `r * r <= x`. */
  lemma {:induction false} IsqrtIsFloorRoot(x: nat)
    ensures Square(Isqrt(x)) <= x < Square(Isqrt(x) + 1)
    decreases x
  {
    if x >= 4 {
      IsqrtIsFloorRoot(x / 4);
      IsqrtStep(x, Isqrt(x / 4));
    }
  }

  lemma IsqrtStep(x: nat, t: nat)
    requires Square(t) <= x / 4 < Square(t + 1)
    ensures Square(2 * t) <= x < Square(2 * t + 2)
  {
    SquareIsProduct(t);
    SquareIsProduct(t + 1);
    SquareIsProduct(2 * t);
    SquareIsProduct(2 * t + 2);
    assert (2 * t) * (2 * t) == 4 * (t * t);
    assert (2 * t + 2) * (2 * t + 2) == 4 * ((t + 1) * (t + 1));
  }

  /** `u8::abs_diff` */
  function AbsDiff(x: u8, y: u8): u8 {
    if x < y then y - x else x - y
  }

  /** The squared Euclidean distance over red, green and blue; alpha plays no part. */
  function SquaredRgbDistance(p: Pixel, q: Pixel): nat {
    Square(AbsDiff(p.r, q.r)) + Square(AbsDiff(p.g, q.g)) + Square(AbsDiff(p.b, q.b))
  }

  /** Two pixels agree on red, green and blue (alpha may differ). */
  predicate SameRgb(p: Pixel, q: Pixel) {
    p.r == q.r && p.g == q.g && p.b == q.b
  }

  /** The largest squared distance, `3 * 255^2`. */
  const MAX_SQUARED_DISTANCE: nat := 3 * 255 * 255

  /** `distance`: the integer square root of the squared distance over red,
      green and blue. It is zero exactly when the colours agree on those three
      channels, and it never exceeds 441, the root of the largest squared distance. */
  function Distance(pixel: Pixel, center: Pixel): (d: nat)
    ensures d == 0 <==> SameRgb(pixel, center)
    ensures d <= 441
  {
    var sq := SquaredRgbDistance(pixel, center);
    SquaredDistanceBound(pixel, center);
    IsqrtIsFloorRoot(sq);
    IsqrtAtMost441(sq);
    Isqrt(sq)
  }

  /** The distance is the floor of the Euclidean distance. */
  lemma DistanceIsFloorRoot(pixel: Pixel, center: Pixel)
    ensures Square(Distance(pixel, center)) <= SquaredRgbDistance(pixel, center)
    ensures SquaredRgbDistance(pixel, center) < Square(Distance(pixel, center) + 1)
  {
    IsqrtIsFloorRoot(SquaredRgbDistance(pixel, center));
  }

  lemma IsqrtAtMost441(x: nat)
    requires x <= MAX_SQUARED_DISTANCE
    ensures Isqrt(x) <= 441
  {
    var r := Isqrt(x);
    IsqrtIsFloorRoot(x);
    SquareIsProduct(442);
    if r > 441 {
      SquareMonotone(442, r);
    }
  }

  lemma SquaredDistanceBound(p: Pixel, q: Pixel)
    ensures SquaredRgbDistance(p, q) <= MAX_SQUARED_DISTANCE
    ensures SquaredRgbDistance(p, q) == 0 <==> SameRgb(p, q)
  {
    SquareIsProduct(255);
    SquareMonotone(AbsDiff(p.r, q.r), 255);
    SquareMonotone(AbsDiff(p.g, q.g), 255);
    SquareMonotone(AbsDiff(p.b, q.b), 255);
  }

  /** 441 is the root of the largest squared distance. */
  lemma IsqrtOfMaxSquaredDistance()
    ensures Isqrt(MAX_SQUARED_DISTANCE) == 441
  {
    var r := Isqrt(MAX_SQUARED_DISTANCE);
    IsqrtIsFloorRoot(MAX_SQUARED_DISTANCE);
    SquareIsProduct(441);
    SquareIsProduct(442);
    if r < 441 {
      SquareMonotone(r + 1, 441);
    } else if r > 441 {
      SquareMonotone(442, r);
    }
  }

  /** The distance is symmetric. */
  lemma DistanceSymmetric(p: Pixel, q: Pixel)
    ensures Distance(p, q) == Distance(q, p)
  {
  }

  /** The distance ignores the alpha channel of both pixels. */
  lemma DistanceIgnoresAlpha(p: Pixel, q: Pixel, pa: u8, qa: u8)
    ensures Distance(p.(a := pa), q.(a := qa)) == Distance(p, q)
  {
  }

  // ---------------------------------------------------------------------------
  // select_closest_center

  /** `i` is the first index of a centre at minimal distance from `pixel`. */
  predicate IsFirstNearest(centers: seq<Pixel>, pixel: Pixel, i: nat) {
    && i < |centers|
    && (forall j {:trigger Distance(pixel, centers[j])} :: 0 <= j < |centers| ==>
          Distance(pixel, centers[i]) <= Distance(pixel, centers[j]))
    && (forall j {:trigger Distance(pixel, centers[j])} :: 0 <= j < i ==>
          Distance(pixel, centers[i]) < Distance(pixel, centers[j]))
  }

  /** At most one index is the first nearest one. */
  lemma FirstNearestUnique(centers: seq<Pixel>, pixel: Pixel, i: nat, j: nat)
    requires IsFirstNearest(centers, pixel, i) && IsFirstNearest(centers, pixel, j)
    ensures i == j
  {
    var di, dj := Distance(pixel, centers[i]), Distance(pixel, centers[j]);
  }

  /** `centers.iter().enumerate().min_by_key(|(_, c)| distance(pixel, c))`:
      the fold keeps the current best and replaces it only by a strictly
      nearer centre. */
  function NearestIndex(centers: seq<Pixel>, pixel: Pixel): (i: nat)
    requires |centers| > 0
    ensures i < |centers|
    decreases |centers|
  {
    if |centers| == 1 then 0
    else
      var last := |centers| - 1;
      var best := NearestIndex(centers[..last], pixel);
      if Distance(pixel, centers[last]) < Distance(pixel, centers[best]) then last else best
  }

  /** The fold finds the first of the nearest centres. */
  lemma {:induction false} NearestIndexIsFirstNearest(centers: seq<Pixel>, pixel: Pixel)
    requires |centers| > 0
    ensures IsFirstNearest(centers, pixel, NearestIndex(centers, pixel))
    decreases |centers|
  {
    if |centers| > 1 {
      var last := |centers| - 1;
      var front := centers[..last];
      NearestIndexIsFirstNearest(front, pixel);
      assert forall j :: 0 <= j < last ==> front[j] == centers[j];
      var best := NearestIndex(front, pixel);
      var dLast, dBest := Distance(pixel, centers[last]), Distance(pixel, centers[best]);
    }
  }

  /** `select_closest_center`: the index of the first nearest centre, or the
      panic of `.expect` when there are no centres. */
  function SelectClosestCenter(centers: seq<Pixel>, pixel: Pixel): (r: Result<nat>)
    ensures r.Err? <==> |centers| == 0
    ensures r.Err? ==> r.panic == EmptyCenters
    ensures r.Ok? ==> IsFirstNearest(centers, pixel, r.value)
  {
    if |centers| == 0 then Err(EmptyCenters)
    else
      NearestIndexIsFirstNearest(centers, pixel);
      Ok(NearestIndex(centers, pixel))
  }

  // ---------------------------------------------------------------------------
  // cluster_mean

  /** The sum of channel `c` over the cluster, accumulated left to right as the fold does. */
  function Sum(cluster: seq<Pixel>, c: ChannelIndex): nat
    decreases |cluster|
  {
    if cluster == [] then 0
    else Sum(cluster[..|cluster| - 1], c) + cluster[|cluster| - 1].Channel(c)
  }

  /** The least value of channel `c` in a non-empty cluster. */
  function MinChannel(cluster: seq<Pixel>, c: ChannelIndex): (m: u8)
    requires cluster != []
    ensures forall p :: p in cluster ==> m <= p.Channel(c)
    ensures exists p :: p in cluster && p.Channel(c) == m
    decreases |cluster|
  {
    var last := cluster[|cluster| - 1];
    if |cluster| == 1 then last.Channel(c)
    else
      var rest := cluster[..|cluster| - 1];
      assert cluster == rest + [last];
      var m := MinChannel(rest, c);
      if last.Channel(c) < m then last.Channel(c) else m
  }

  /** The greatest value of channel `c` in a non-empty cluster. */
  function MaxChannel(cluster: seq<Pixel>, c: ChannelIndex): (m: u8)
    requires cluster != []
    ensures forall p :: p in cluster ==> p.Channel(c) <= m
    ensures exists p :: p in cluster && p.Channel(c) == m
    decreases |cluster|
  {
    var last := cluster[|cluster| - 1];
    if |cluster| == 1 then last.Channel(c)
    else
      var rest := cluster[..|cluster| - 1];
      assert cluster == rest + [last];
      var m := MaxChannel(rest, c);
      if last.Channel(c) > m then last.Channel(c) else m
  }

  /** Bounding every element bounds the sum. */
  lemma {:induction false} SumBetween(cluster: seq<Pixel>, c: ChannelIndex, lo: nat, hi: nat)
    requires forall p :: p in cluster ==> lo <= p.Channel(c) <= hi
    ensures |cluster| * lo <= Sum(cluster, c) <= |cluster| * hi
    decreases |cluster|
  {
    if cluster != [] {
      var n := |cluster|;
      var rest := cluster[..n - 1];
      var x := cluster[n - 1].Channel(c);
      forall p | p in rest
        ensures lo <= p.Channel(c) <= hi
      {
        assert p in cluster;
      }
      SumBetween(rest, c, lo, hi);
      assert cluster[n - 1] in cluster;
      MulSucc(n - 1, lo);
      MulSucc(n - 1, hi);
    }
  }

  lemma MulSucc(n: nat, x: nat)
    ensures (n + 1) * x == n * x + x
  {
  }

  lemma MulMonoIf(n: nat, a: nat, b: nat)
    ensures a <= b ==> n * a <= n * b
  {
    if a <= b {
      assert n * b == n * a + n * (b - a);
    }
  }

  /** Floor division keeps a value that lies between `n * lo` and `n * hi` between `lo` and `hi`. */
  lemma DivBetween(s: nat, n: nat, lo: nat, hi: nat)
    requires n > 0 && n * lo <= s <= n * hi
    ensures lo <= s / n <= hi
  {
    var q: nat := s / n;
    assert s == n * q + s % n;
    MulSucc(q, n);
    MulSucc(hi, n);
    MulMonoIf(n, q + 1, lo);
    MulMonoIf(n, hi + 1, q);
  }

  /** `sum / n`: the floor mean of channel `c` over a non-empty cluster. */
  function FloorMean(cluster: seq<Pixel>, c: ChannelIndex): nat
    requires cluster != []
  {
    Sum(cluster, c) / |cluster|
  }

  /** The floor mean of a channel lies between its least and greatest value. */
  lemma FloorMeanBetween(cluster: seq<Pixel>, c: ChannelIndex)
    requires cluster != []
    ensures MinChannel(cluster, c) <= FloorMean(cluster, c) <= MaxChannel(cluster, c)
  {
    var lo, hi := MinChannel(cluster, c), MaxChannel(cluster, c);
    SumBetween(cluster, c, lo, hi);
    DivBetween(Sum(cluster, c), |cluster|, lo, hi);
  }

  lemma FloorMeanIsByte(cluster: seq<Pixel>, c: ChannelIndex)
    requires cluster != []
    ensures FloorMean(cluster, c) < 256
  {
    FloorMeanBetween(cluster, c);
  }

  /** The pixel of per-channel floor means, each cast `as u8`. */
  function MeanPixel(cluster: seq<Pixel>): Pixel
    requires cluster != []
  {
    Rgba(AsU8(FloorMean(cluster, 0)), AsU8(FloorMean(cluster, 1)),
         AsU8(FloorMean(cluster, 2)), AsU8(FloorMean(cluster, 3)))
  }

  /** No cast changes a mean, since every mean is at most 255. */
  lemma MeanPixelChannels(cluster: seq<Pixel>)
    requires cluster != []
    ensures forall c: ChannelIndex :: MeanPixel(cluster).Channel(c) == FloorMean(cluster, c)
  {
    FloorMeanIsByte(cluster, 0);
    FloorMeanIsByte(cluster, 1);
    FloorMeanIsByte(cluster, 2);
    FloorMeanIsByte(cluster, 3);
    var m := MeanPixel(cluster);
    assert m.r == FloorMean(cluster, 0) && m.g == FloorMean(cluster, 1);
    assert m.b == FloorMean(cluster, 2) && m.a == FloorMean(cluster, 3);
    forall c: ChannelIndex
      ensures m.Channel(c) == FloorMean(cluster, c)
    {
      if c == 0 {
      } else if c == 1 {
      } else if c == 2 {
      }
    }
  }

  /** `cluster_mean`: the floor mean of every channel, alpha included; the
      `as u8` casts lose nothing. An empty cluster divides by zero. */
  function ClusterMean(cluster: seq<Pixel>): (r: Result<Pixel>)
    ensures r.Err? <==> cluster == []
    ensures r.Err? ==> r.panic == DivideByZero
    ensures r.Ok? ==> forall c: ChannelIndex :: r.value.Channel(c) == FloorMean(cluster, c)
  {
    if |cluster| == 0 then Err(DivideByZero)
    else
      MeanPixelChannels(cluster);
      Ok(MeanPixel(cluster))
  }

  /** Every channel of the mean lies between the least and the greatest value
      of that channel in the cluster. */
  lemma ClusterMeanBetween(cluster: seq<Pixel>)
    requires cluster != []
    ensures ClusterMean(cluster).Ok?
    ensures forall c: ChannelIndex ::
      MinChannel(cluster, c) <= ClusterMean(cluster).value.Channel(c) <= MaxChannel(cluster, c)
  {
    forall c: ChannelIndex
      ensures MinChannel(cluster, c) <= ClusterMean(cluster).value.Channel(c) <= MaxChannel(cluster, c)
    {
      FloorMeanBetween(cluster, c);
    }
  }

  /** A cluster whose pixels are all the same pixel has that pixel as its mean;
      in particular a one-pixel cluster is its own mean. */
  lemma ClusterMeanOfUniform(cluster: seq<Pixel>, p: Pixel)
    requires cluster != []
    requires forall q :: q in cluster ==> q == p
    ensures ClusterMean(cluster) == Ok(p)
  {
    ClusterMeanBetween(cluster);
    var m := ClusterMean(cluster).value;
    forall c: ChannelIndex
      ensures m.Channel(c) == p.Channel(c)
    {
    }
    assert m.Channel(0) == p.Channel(0) && m.Channel(1) == p.Channel(1);
    assert m.Channel(2) == p.Channel(2) && m.Channel(3) == p.Channel(3);
  }

  /** The mean of two pixels is the floor of their per-channel average; for
      instance (0,0,0,0) and (10,10,10,10) give (5,5,5,5), and (1,0,0,0) and
      (2,0,0,0) give (1,0,0,0). */
  lemma ClusterMeanOfPair(p: Pixel, q: Pixel)
    ensures ClusterMean([p, q]).Ok?
    ensures forall c: ChannelIndex ::
      ClusterMean([p, q]).value.Channel(c) == (p.Channel(c) + q.Channel(c)) / 2
  {
    var pair := [p, q];
    assert pair[..1] == [p];
    assert [p][..0] == [];
    forall c: ChannelIndex
      ensures ClusterMean(pair).value.Channel(c) == (p.Channel(c) + q.Channel(c)) / 2
    {
      assert Sum([p], c) == p.Channel(c);
      assert Sum(pair, c) == p.Channel(c) + q.Channel(c);
      assert FloorMean(pair, c) == Sum(pair, c) / 2;
    }
  }
}
