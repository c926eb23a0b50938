/** Properties of a whole run of `reduce_colors` (src/main.rs), stated on
    the functions of module KMeans that the methods there are proved against. */
module KMeansProperties {
  import opened Panics
  import opened Colors
  import opened Lcg
  import opened KMeans

  // ---------------------------------------------------------------------------
  // palettes

  /** The distinct colours of a sequence of pixels. */
  function Palette(s: seq<Pixel>): set<Pixel> {
    set p | p in s
  }

  /** A sequence has at most as many distinct colours as elements. */
  lemma {:induction false} PaletteAtMostLength(s: seq<Pixel>)
    ensures |Palette(s)| <= |s|
    decreases |s|
  {
    if s != [] {
      var n := |s|;
      PaletteAtMostLength(s[..n - 1]);
      assert Palette(s) == Palette(s[..n - 1]) + {s[n - 1]};
    }
  }

  /** A sequence without repeated elements has exactly `|s|` colours. */
  lemma {:induction false} PaletteOfDistinct(s: seq<Pixel>)
    requires forall i, j :: 0 <= i < j < |s| ==> s[i] != s[j]
    ensures |Palette(s)| == |s|
    decreases |s|
  {
    if s != [] {
      var n := |s|;
      var front := s[..n - 1];
      PaletteOfDistinct(front);
      assert Palette(s) == Palette(front) + {s[n - 1]};
      assert s[n - 1] !in Palette(front);
    }
  }

  /** Pigeonhole: fewer colours than elements means a repeated element. */
  lemma RepeatedColor(s: seq<Pixel>)
    requires |Palette(s)| < |s|
    ensures exists i, j :: 0 <= i < j < |s| && s[i] == s[j]
  {
    if forall i, j :: 0 <= i < j < |s| ==> s[i] != s[j] {
      PaletteOfDistinct(s);
    }
  }

  /** Sequences whose elements all occur in `b` have no more colours than `b`. */
  lemma PaletteSubset(a: seq<Pixel>, b: seq<Pixel>)
    requires forall p :: p in a ==> p in b
    ensures |Palette(a)| <= |Palette(b)|
  {
    SubsetNoLarger(Palette(a), Palette(b));
  }

  lemma {:induction false} SubsetNoLarger(a: set<Pixel>, b: set<Pixel>)
    requires a <= b
    ensures |a| <= |b|
    decreases |a|
  {
    if a != {} {
      var x :| x in a;
      SubsetNoLarger(a - {x}, b - {x});
    }
  }

  // ---------------------------------------------------------------------------
  // one round

  /** After a round that returns, every channel of centre `j` lies between
      the least and the greatest value of that channel in cluster `j`. */
  lemma RoundCentersBetween(centers: seq<Pixel>, pixels: seq<Pixel>, j: nat, c: ChannelIndex)
    requires j < |centers| && Round(centers, pixels).Ok?
    ensures Members(centers, pixels, j) != []
    ensures MinChannel(Members(centers, pixels, j), c)
      <= Round(centers, pixels).value[j].Channel(c)
      <= MaxChannel(Members(centers, pixels, j), c)
  {
    RoundPanics(centers, pixels);
    ClusterMeanBetween(Members(centers, pixels, j));
  }

  /** A centre whose colour no other centre shares is its own nearest centre. */
  lemma NearestOfCenter(centers: seq<Pixel>, m: nat)
    requires m < |centers|
    requires forall a :: 0 <= a < |centers| && a != m ==> !SameRgb(centers[a], centers[m])
    ensures NearestIndex(centers, centers[m]) == m
  {
    var i := NearestIndex(centers, centers[m]);
    NearestIndexIsFirstNearest(centers, centers[m]);
    assert Distance(centers[m], centers[m]) == 0;
    assert Distance(centers[m], centers[i]) == 0;
  }

  /** Centres pairwise different in red, green and blue: each differs from all others. */
  lemma DistinctFromOthers(centers: seq<Pixel>, m: nat)
    requires m < |centers|
    requires forall a, b :: 0 <= a < b < |centers| ==> !SameRgb(centers[a], centers[b])
    ensures forall a :: 0 <= a < |centers| && a != m ==> !SameRgb(centers[a], centers[m])
  {
    forall a | 0 <= a < |centers| && a != m
      ensures !SameRgb(centers[a], centers[m])
    {
      if m < a {
        assert !SameRgb(centers[m], centers[a]);
      }
    }
  }

  /** In such an image, cluster `j` is made of copies of centre `j`, at
      least one. */
  lemma OwnColorCluster(centers: seq<Pixel>, pixels: seq<Pixel>, j: nat)
    requires j < |centers|
    requires forall a, b :: 0 <= a < b < |centers| ==> !SameRgb(centers[a], centers[b])
    requires forall p :: p in pixels ==> p in centers
    requires forall c :: c in centers ==> c in pixels
    ensures ClusterMean(Members(centers, pixels, j)) == Ok(centers[j])
  {
    var cluster := Members(centers, pixels, j);
    DistinctFromOthers(centers, j);
    NearestOfCenter(centers, j);
    MembersAreNearest(centers, pixels, j);
    MembersAreComplete(centers, pixels, j);
    assert centers[j] in centers;
    var i :| 0 <= i < |pixels| && pixels[i] == centers[j];
    assert pixels[i] in cluster;
    forall q | q in cluster
      ensures q == centers[j]
    {
      MembersCount(centers, pixels, j, q);
      assert q in multiset(pixels);
      assert q in pixels;
      var m :| 0 <= m < |centers| && centers[m] == q;
      DistinctFromOthers(centers, m);
      NearestOfCenter(centers, m);
    }
    ClusterMeanOfUniform(cluster, centers[j]);
  }

  /** An image whose colours are exactly the centres, all different, is a
      fixed point: a round keeps every centre, and the final pass maps every
      pixel to its own colour. */
  lemma CentersOfTheirOwnColors(centers: seq<Pixel>, pixels: seq<Pixel>)
    requires |centers| > 0
    requires forall a, b :: 0 <= a < b < |centers| ==> !SameRgb(centers[a], centers[b])
    requires forall p :: p in pixels ==> p in centers
    requires forall c :: c in centers ==> c in pixels
    ensures Round(centers, pixels) == Ok(centers)
    ensures Recolor(centers, pixels) == Ok(pixels)
  {
    forall j | 0 <= j < |centers|
      ensures ClusterMean(Members(centers, pixels, j)) == Ok(centers[j])
    {
      OwnColorCluster(centers, pixels, j);
    }
    RoundOfOwnMeans(centers, pixels);
    OwnColorsRecolored(centers, pixels);
  }

  /** Rounds started from a fixed point of `Round` never move. */
  lemma {:induction false} RoundsOfFixedPoint(pixels: seq<Pixel>, centers: seq<Pixel>, n: nat)
    requires Round(centers, pixels) == Ok(centers)
    ensures Rounds(pixels, centers, n) == Ok(centers)
    decreases n
  {
    if n > 0 {
      RoundsOfFixedPoint(pixels, centers, n - 1);
    }
  }

  /** When the seed draws centres that are exactly the colours of the image,
      all different, the whole run returns the image unchanged, whatever the
      number of rounds. */
  lemma WholeRunOwnColors(pixels: seq<Pixel>, k: nat, n: nat, seed: u64)
    requires InitialCenters(pixels, k, seed).Ok? && k > 0
    requires forall a, b :: 0 <= a < b < k ==>
      !SameRgb(InitialCenters(pixels, k, seed).value[a], InitialCenters(pixels, k, seed).value[b])
    requires forall p :: p in pixels ==> p in InitialCenters(pixels, k, seed).value
    requires forall c :: c in InitialCenters(pixels, k, seed).value ==> c in pixels
    ensures Quantized(pixels, k, n, seed) == Ok(pixels)
  {
    var centers := InitialCenters(pixels, k, seed).value;
    CentersOfTheirOwnColors(centers, pixels);
    RoundsOfFixedPoint(pixels, centers, n);
  }

  /** A round keeps centres that are already the means of their clusters. */
  lemma RoundOfOwnMeans(centers: seq<Pixel>, pixels: seq<Pixel>)
    requires |centers| > 0
    requires forall j :: 0 <= j < |centers| ==> ClusterMean(Members(centers, pixels, j)) == Ok(centers[j])
    ensures Round(centers, pixels) == Ok(centers)
  {
    var cs := Clusters(centers, pixels);
    assert Round(centers, pixels) == Means(cs);
    forall j | 0 <= j < |cs|
      ensures ClusterMean(cs[j]) == Ok(centers[j])
    {
      assert cs[j] == Members(centers, pixels, j);
    }
    MeansOfOwnMeans(cs, centers);
  }

  /** The update step returns the given centres when each is the mean of its cluster. */
  lemma MeansOfOwnMeans(clusters: seq<seq<Pixel>>, centers: seq<Pixel>)
    requires |clusters| == |centers|
    requires forall j :: 0 <= j < |clusters| ==> ClusterMean(clusters[j]) == Ok(centers[j])
    ensures Means(clusters) == Ok(centers)
  {
    var r := Means(clusters);
    assert r.Ok?;
    assert forall j :: 0 <= j < |clusters| ==> r.value[j] == centers[j];
    assert r.value == centers;
  }

  /** The final pass maps a pixel that is a centre, of a colour no other
      centre shares, to itself. */
  lemma OwnColorsRecolored(centers: seq<Pixel>, pixels: seq<Pixel>)
    requires |centers| > 0
    requires forall a, b :: 0 <= a < b < |centers| ==> !SameRgb(centers[a], centers[b])
    requires forall p :: p in pixels ==> p in centers
    ensures Recolor(centers, pixels) == Ok(pixels)
  {
    if |pixels| > 0 {
      var out := Recolor(centers, pixels).value;
      forall i | 0 <= i < |pixels|
        ensures out[i] == pixels[i]
      {
        assert pixels[i] in pixels;
        var m :| 0 <= m < |centers| && centers[m] == pixels[i];
        DistinctFromOthers(centers, m);
        NearestOfCenter(centers, m);
      }
      assert out == pixels;
    }
  }

  // ---------------------------------------------------------------------------
  // duplicate centres

  /** Ties go to the first centre, so a later copy of an earlier centre
      attracts no pixel. */
  lemma LaterDuplicateAttractsNothing(centers: seq<Pixel>, pixels: seq<Pixel>, i: nat, j: nat)
    requires i < j < |centers|
    requires centers[i] == centers[j]
    ensures Members(centers, pixels, j) == []
  {
    MembersAreNearest(centers, pixels, j);
    var m := Members(centers, pixels, j);
    if m != [] {
      NearestIndexIsFirstNearest(centers, m[0]);
    }
  }

  /** A round whose centres repeat a colour divides by zero. */
  lemma DuplicateCentersPanic(centers: seq<Pixel>, pixels: seq<Pixel>, i: nat, j: nat)
    requires i < j < |centers|
    requires centers[i] == centers[j]
    ensures Round(centers, pixels) == Err(DivideByZero)
  {
    LaterDuplicateAttractsNothing(centers, pixels, i, j);
    RoundPanics(centers, pixels);
  }

  /** Asking for more colours than the image has makes the first round panic:
      the initial centres are drawn from the pixels, so two of them coincide. */
  lemma TooManyColorsPanics(pixels: seq<Pixel>, k: nat, n: nat, seed: u64)
    requires |pixels| > 0 && n >= 1
    requires k > |Palette(pixels)|
    ensures Quantized(pixels, k, n, seed) == Err(DivideByZero)
  {
    var initial := InitialCenters(pixels, k, seed).value;
    PaletteSubset(initial, pixels);
    RepeatedColor(initial);
    var i, j :| 0 <= i < j < |initial| && initial[i] == initial[j];
    DuplicateCentersPanic(initial, pixels, i, j);
    assert Rounds(pixels, initial, 1) == Err(DivideByZero);
    RoundsErrSticks(pixels, initial, 1, n);
  }

  /** In particular, more centres than pixels always panics. */
  lemma MoreCentersThanPixelsPanics(pixels: seq<Pixel>, k: nat, n: nat, seed: u64)
    requires |pixels| > 0 && n >= 1
    requires k > |pixels|
    ensures Quantized(pixels, k, n, seed) == Err(DivideByZero)
  {
    PaletteAtMostLength(pixels);
    TooManyColorsPanics(pixels, k, n, seed);
  }

  // ---------------------------------------------------------------------------
  // when a run panics

  /** Without pixels and without centres every round is empty. */
  lemma {:induction false} NoPixelsNoCenters(n: nat)
    ensures Rounds([], [], n) == Ok([])
    decreases n
  {
    if n > 0 {
      NoPixelsNoCenters(n - 1);
    }
  }

  /** The panics of a whole run: drawing from no pixels (`k > 0`), looking
      for the closest of no centres (`k == 0`), or an empty cluster. */
  lemma QuantizedPanics(pixels: seq<Pixel>, k: nat, n: nat, seed: u64)
    ensures |pixels| == 0 ==>
      Quantized(pixels, k, n, seed) == (if k == 0 then Ok([]) else Err(RemainderByZero))
    ensures |pixels| > 0 && k == 0 ==> Quantized(pixels, k, n, seed) == Err(EmptyCenters)
    ensures |pixels| > 0 && k > 0 && n == 0 ==> Quantized(pixels, k, n, seed).Ok?
    ensures |pixels| > 0 && k > 0 && Quantized(pixels, k, n, seed).Err? ==>
      Quantized(pixels, k, n, seed).panic == DivideByZero
  {
    if |pixels| == 0 && k == 0 {
      NoPixelsNoCenters(n);
    }
  }

  // ---------------------------------------------------------------------------
  // the output of a run

  /** A run that returns gives one colour per pixel: the final centre closest
      to it, so the output uses at most `k` colours. */
  lemma QuantizedOutput(pixels: seq<Pixel>, k: nat, n: nat, seed: u64)
    requires Quantized(pixels, k, n, seed).Ok?
    ensures FinalCenters(pixels, k, n, seed).Ok?
    ensures |Quantized(pixels, k, n, seed).value| == |pixels|
    ensures forall i :: 0 <= i < |pixels| ==>
      var centers := FinalCenters(pixels, k, n, seed).value;
      && SelectClosestCenter(centers, pixels[i]).Ok?
      && Quantized(pixels, k, n, seed).value[i] == centers[SelectClosestCenter(centers, pixels[i]).value]
    ensures |Palette(Quantized(pixels, k, n, seed).value)| <= k
  {
    var centers := FinalCenters(pixels, k, n, seed).value;
    var out := Quantized(pixels, k, n, seed).value;
    PaletteSubset(out, centers);
    PaletteAtMostLength(centers);
  }

  // ---------------------------------------------------------------------------
  // a single centre

  /** With one centre every pixel is in its cluster. */
  lemma {:induction false} MembersOfOneCenter(c: Pixel, pixels: seq<Pixel>)
    ensures Members([c], pixels, 0) == pixels
    decreases |pixels|
  {
    if pixels != [] {
      var n := |pixels|;
      MembersOfOneCenter(c, pixels[..n - 1]);
      assert pixels[..n - 1] + [pixels[n - 1]] == pixels;
    }
  }

  /** One round with one centre moves it to the mean of the image. */
  lemma OneCenterRound(c: Pixel, pixels: seq<Pixel>)
    requires |pixels| > 0
    ensures Round([c], pixels) == Ok([ClusterMean(pixels).value])
  {
    MembersOfOneCenter(c, pixels);
    assert Clusters([c], pixels) == [pixels];
    var r := Means([pixels]);
    assert [pixels][0] == pixels;
    assert r.Ok? && |r.value| == 1 && ClusterMean(pixels) == Ok(r.value[0]);
    assert r.value == [r.value[0]];
  }

  /** With `k == 1` and at least one round, every pixel becomes the mean
      colour of the image. */
  lemma {:induction false} OneCenterRounds(pixels: seq<Pixel>, initial: seq<Pixel>, n: nat)
    requires |pixels| > 0 && |initial| == 1 && n >= 1
    ensures Rounds(pixels, initial, n) == Ok([ClusterMean(pixels).value])
    decreases n
  {
    if n == 1 {
      OneCenterRound(initial[0], pixels);
      assert [initial[0]] == initial;
    } else {
      OneCenterRounds(pixels, initial, n - 1);
      OneCenterRound(ClusterMean(pixels).value, pixels);
    }
  }

  lemma OneColorIsTheMean(pixels: seq<Pixel>, n: nat, seed: u64)
    requires |pixels| > 0 && n >= 1
    ensures Quantized(pixels, 1, n, seed) ==
      Ok(seq(|pixels|, i requires 0 <= i < |pixels| => ClusterMean(pixels).value))
  {
    var initial := InitialCenters(pixels, 1, seed).value;
    OneCenterRounds(pixels, initial, n);
    var m := ClusterMean(pixels).value;
    var out := Quantized(pixels, 1, n, seed).value;
    assert out == seq(|pixels|, i requires 0 <= i < |pixels| => m);
  }
}
