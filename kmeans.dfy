/** The clustering driver: initial centres drawn with the generator, a fixed
    number of assignment/update rounds, then the final recolouring
    (`select_centers` and `reduce_colors` in src/main.rs). */
module KMeans {
  import opened Panics
  import opened Colors
  import opened Lcg

  // ---------------------------------------------------------------------------
  // select_centers

  /** The centres `select_centers` picks for a seed: the i-th is the pixel at
      index `x % |pixels|`, where `x` is the (i+1)-th value the generator
      returns. Drawing needs at least one pixel once a centre is wanted. */
  function InitialCenters(pixels: seq<Pixel>, k: nat, seed: u64): (r: Result<seq<Pixel>>)
    ensures r.Err? <==> k > 0 && |pixels| == 0
    ensures r.Err? ==> r.panic == RemainderByZero
    ensures r.Ok? ==> |r.value| == k && forall c :: c in r.value ==> c in pixels
  {
    if |pixels| == 0 then (if k == 0 then Ok([]) else Err(RemainderByZero))
    else Ok(seq(k, i requires 0 <= i < k => Draw(pixels, seed, i)))
  }

  /** The pixel drawn for centre `i`. */
  function Draw(pixels: seq<Pixel>, seed: u64, i: nat): (p: Pixel)
    requires |pixels| > 0
    ensures p in pixels
  {
    pixels[StateAfter(seed, i + 1) % |pixels|]
  }

  /** `select_centers`, with the seed passed in: `k` draws with replacement
      from a generator created for the call. */
  method SelectCenters(pixels: seq<Pixel>, k: nat, seed: u64) returns (r: Result<seq<Pixel>>)
    ensures r == InitialCenters(pixels, k, seed)
  {
    var centers: seq<Pixel> := [];
    var rng := new Rng(seed);
    for i := 0 to k
      invariant rng.seed == StateAfter(seed, i)
      invariant |centers| == i
      invariant i > 0 ==> |pixels| > 0
      invariant forall j :: 0 <= j < i ==> |pixels| > 0 && centers[j] == Draw(pixels, seed, j)
    {
      var x := rng.Next();
      if |pixels| == 0 {
        return Err(RemainderByZero);
      }
      assert x == StateAfter(seed, i + 1);
      centers := centers + [pixels[x % |pixels|]];
    }
    if |pixels| > 0 {
      assert centers == seq(k, i requires 0 <= i < k => Draw(pixels, seed, i));
    }
    return Ok(centers);
  }

  // ---------------------------------------------------------------------------
  // one round of reduce_colors

  /** The pixels, in their order, whose nearest centre is centre `j`: what
      `clusters[j]` holds once every pixel has been pushed. */
  function Members(centers: seq<Pixel>, pixels: seq<Pixel>, j: nat): (m: seq<Pixel>)
    requires |centers| > 0
    ensures |m| <= |pixels|
    decreases |pixels|
  {
    if pixels == [] then []
    else
      var n := |pixels|;
      var rest := Members(centers, pixels[..n - 1], j);
      if NearestIndex(centers, pixels[n - 1]) == j then rest + [pixels[n - 1]] else rest
  }

  /** Every pixel of cluster `j` has centre `j` as its first nearest centre. */
  lemma {:induction false} MembersAreNearest(centers: seq<Pixel>, pixels: seq<Pixel>, j: nat)
    requires |centers| > 0
    ensures forall p :: p in Members(centers, pixels, j) ==> NearestIndex(centers, p) == j
    decreases |pixels|
  {
    if pixels != [] {
      MembersAreNearest(centers, pixels[..|pixels| - 1], j);
    }
  }

  /** Every pixel whose first nearest centre is centre `j` is in cluster `j`. */
  lemma {:induction false} MembersAreComplete(centers: seq<Pixel>, pixels: seq<Pixel>, j: nat)
    requires |centers| > 0
    ensures forall i :: 0 <= i < |pixels| && NearestIndex(centers, pixels[i]) == j ==>
      pixels[i] in Members(centers, pixels, j)
    decreases |pixels|
  {
    if pixels != [] {
      var n := |pixels|;
      var front := pixels[..n - 1];
      MembersAreComplete(centers, front, j);
      forall i | 0 <= i < n && NearestIndex(centers, pixels[i]) == j
        ensures pixels[i] in Members(centers, pixels, j)
      {
        if i < n - 1 {
          assert front[i] == pixels[i];
        }
      }
    }
  }

  /** Counted with multiplicity: cluster `j` holds every copy of a pixel whose
      nearest centre is `j`, and no copy of any other pixel. */
  lemma {:induction false} MembersCount(centers: seq<Pixel>, pixels: seq<Pixel>, j: nat, p: Pixel)
    requires |centers| > 0
    ensures multiset(Members(centers, pixels, j))[p] ==
      (if NearestIndex(centers, p) == j then multiset(pixels)[p] else 0)
    decreases |pixels|
  {
    if pixels != [] {
      var n := |pixels|;
      MembersCount(centers, pixels[..n - 1], j, p);
      assert pixels == pixels[..n - 1] + [pixels[n - 1]];
    }
  }

  /** The clusters of one round, one per centre. */
  function Clusters(centers: seq<Pixel>, pixels: seq<Pixel>): (cs: seq<seq<Pixel>>)
    requires |centers| > 0
    ensures |cs| == |centers|
  {
    seq(|centers|, j requires 0 <= j < |centers| => Members(centers, pixels, j))
  }

  /** The number of pixels over all clusters. */
  function TotalSize(clusters: seq<seq<Pixel>>): nat {
    if clusters == [] then 0 else |clusters[0]| + TotalSize(clusters[1..])
  }

  lemma {:induction false} TotalSizeOfEmpty(clusters: seq<seq<Pixel>>)
    requires forall j :: 0 <= j < |clusters| ==> clusters[j] == []
    ensures TotalSize(clusters) == 0
  {
    if clusters != [] {
      TotalSizeOfEmpty(clusters[1..]);
    }
  }

  /** Pushing one pixel into one cluster adds one to the total. */
  lemma {:induction false} TotalSizeAfterPush(clusters: seq<seq<Pixel>>, j: nat, p: Pixel)
    requires j < |clusters|
    ensures TotalSize(clusters[j := clusters[j] + [p]]) == TotalSize(clusters) + 1
    decreases |clusters|
  {
    var pushed := clusters[j := clusters[j] + [p]];
    if j == 0 {
      assert pushed[1..] == clusters[1..];
    } else {
      assert pushed[1..] == clusters[1..][j - 1 := clusters[j] + [p]];
      TotalSizeAfterPush(clusters[1..], j - 1, p);
    }
  }

  /** Every pixel lands in exactly one cluster: the clusters of a round hold
      `|pixels|` pixels between them, each in the cluster of its nearest
      centre (the membership half is the contract of `Members`). */
  lemma {:induction false} ClustersPartition(centers: seq<Pixel>, pixels: seq<Pixel>)
    requires |centers| > 0
    ensures TotalSize(Clusters(centers, pixels)) == |pixels|
    decreases |pixels|
  {
    if pixels == [] {
      TotalSizeOfEmpty(Clusters(centers, pixels));
    } else {
      var n := |pixels|;
      var rest, last := pixels[..n - 1], pixels[n - 1];
      ClustersPartition(centers, rest);
      var l := NearestIndex(centers, last);
      var before := Clusters(centers, rest);
      assert Clusters(centers, pixels) == before[l := before[l] + [last]];
      TotalSizeAfterPush(before, l, last);
    }
  }

  /** The new centres: the mean of every cluster in turn, or the panic of the
      first empty cluster. */
  function Means(clusters: seq<seq<Pixel>>): (r: Result<seq<Pixel>>)
    ensures r.Ok? <==> forall j :: 0 <= j < |clusters| ==> clusters[j] != []
    ensures r.Err? ==> r.panic == DivideByZero
    ensures r.Ok? ==> |r.value| == |clusters|
    ensures r.Ok? ==> forall j {:trigger ClusterMean(clusters[j])} :: 0 <= j < |clusters| ==> ClusterMean(clusters[j]) == Ok(r.value[j])
    decreases |clusters|
  {
    if clusters == [] then Ok([])
    else
      var n := |clusters|;
      assert forall j :: 0 <= j < n - 1 ==> clusters[..n - 1][j] == clusters[j];
      match Means(clusters[..n - 1])
      case Err(e) => Err(e)
      case Ok(ms) =>
        match ClusterMean(clusters[n - 1])
        case Err(e) => Err(e)
        case Ok(m) => Ok(ms + [m])
  }

  /** The assignment step of a round: the clusters, or the panic of
      `select_closest_center` when there are pixels but no centres. */
  function Assignment(centers: seq<Pixel>, pixels: seq<Pixel>): (r: Result<seq<seq<Pixel>>>)
    ensures r.Err? <==> |centers| == 0 && |pixels| > 0
    ensures r.Err? ==> r.panic == EmptyCenters
    ensures r.Ok? ==> |r.value| == |centers|
  {
    if |centers| == 0 then (if |pixels| == 0 then Ok([]) else Err(EmptyCenters))
    else Ok(Clusters(centers, pixels))
  }

  /** One iteration of the loop of `reduce_colors`: assign every pixel to its
      nearest centre, then replace each centre by the mean of its cluster.
      It panics when there are pixels but no centres, and when some centre
      attracts no pixel (see `RoundPanics`). */
  function Round(centers: seq<Pixel>, pixels: seq<Pixel>): (r: Result<seq<Pixel>>)
    ensures r.Ok? ==> |r.value| == |centers|
    ensures r.Err? ==> r.panic == (if |centers| == 0 then EmptyCenters else DivideByZero)
  {
    match Assignment(centers, pixels)
    case Err(e) => Err(e)
    case Ok(clusters) => Means(clusters)
  }

  /** A round panics exactly when there are pixels but no centres, or when
      some cluster is empty; otherwise centre `j` becomes the mean of cluster `j`. */
  lemma RoundPanics(centers: seq<Pixel>, pixels: seq<Pixel>)
    ensures |centers| == 0 ==> (Round(centers, pixels).Err? <==> |pixels| > 0)
    ensures |centers| > 0 ==>
      (Round(centers, pixels).Err? <==> exists j :: 0 <= j < |centers| && Members(centers, pixels, j) == [])
    ensures |centers| > 0 && Round(centers, pixels).Ok? ==> forall j :: 0 <= j < |centers| ==>
      ClusterMean(Members(centers, pixels, j)) == Ok(Round(centers, pixels).value[j])
  {
    if |centers| > 0 {
      var cs := Clusters(centers, pixels);
      assert forall j :: 0 <= j < |centers| ==> cs[j] == Members(centers, pixels, j);
      if Round(centers, pixels).Err? {
        var j :| 0 <= j < |cs| && cs[j] == [];
        assert Members(centers, pixels, j) == [];
      }
    }
  }

  /** The centres after `n` rounds from `initial`, or the first panic. */
  function Rounds(pixels: seq<Pixel>, initial: seq<Pixel>, n: nat): (r: Result<seq<Pixel>>)
    ensures r.Ok? ==> |r.value| == |initial|
    ensures r.Err? ==> r.panic == (if |initial| == 0 then EmptyCenters else DivideByZero)
    decreases n
  {
    if n == 0 then Ok(initial)
    else
      match Rounds(pixels, initial, n - 1)
      case Err(e) => Err(e)
      case Ok(centers) => Round(centers, pixels)
  }

  /** Once a round panics, so does every longer run. */
  lemma {:induction false} RoundsErrSticks(pixels: seq<Pixel>, initial: seq<Pixel>, m: nat, n: nat)
    requires m <= n
    requires Rounds(pixels, initial, m).Err?
    ensures Rounds(pixels, initial, n) == Rounds(pixels, initial, m)
    decreases n
  {
    if m < n {
      RoundsErrSticks(pixels, initial, m, n - 1);
    }
  }

  // ---------------------------------------------------------------------------
  // the final pass and the whole of reduce_colors

  /** The final pass: every pixel replaced by its nearest centre. */
  function Recolor(centers: seq<Pixel>, pixels: seq<Pixel>): (r: Result<seq<Pixel>>)
    ensures r.Err? <==> |centers| == 0 && |pixels| > 0
    ensures r.Err? ==> r.panic == EmptyCenters
    ensures r.Ok? ==> |r.value| == |pixels|
    ensures r.Ok? ==> forall i :: 0 <= i < |pixels| ==>
      && r.value[i] in centers
      && forall j :: 0 <= j < |centers| ==> Distance(pixels[i], r.value[i]) <= Distance(pixels[i], centers[j])
  {
    if |pixels| == 0 then Ok([])
    else if |centers| == 0 then Err(EmptyCenters)
    else
      NearestIndexForAll(centers, pixels);
      Ok(seq(|pixels|, i requires 0 <= i < |pixels| => centers[NearestIndex(centers, pixels[i])]))
  }

  lemma NearestIndexForAll(centers: seq<Pixel>, pixels: seq<Pixel>)
    requires |centers| > 0
    ensures forall i :: 0 <= i < |pixels| ==> IsFirstNearest(centers, pixels[i], NearestIndex(centers, pixels[i]))
  {
    forall i | 0 <= i < |pixels|
      ensures IsFirstNearest(centers, pixels[i], NearestIndex(centers, pixels[i]))
    {
      NearestIndexIsFirstNearest(centers, pixels[i]);
    }
  }

  /** The centres after the initial draw and `n` rounds. */
  function FinalCenters(pixels: seq<Pixel>, k: nat, n: nat, seed: u64): (r: Result<seq<Pixel>>)
    ensures r.Ok? ==> |r.value| == k
  {
    match InitialCenters(pixels, k, seed)
    case Err(e) => Err(e)
    case Ok(initial) => Rounds(pixels, initial, n)
  }

  /** What `reduce_colors(pixels, k, n)` returns, or the panic it stops with,
      when the generator is seeded with `seed`. */
  function Quantized(pixels: seq<Pixel>, k: nat, n: nat, seed: u64): (r: Result<seq<Pixel>>)
    ensures r.Ok? ==> |r.value| == |pixels|
  {
    match FinalCenters(pixels, k, n, seed)
    case Err(e) => Err(e)
    case Ok(centers) => Recolor(centers, pixels)
  }

  /** Cluster `j` grows by the next pixel exactly when centre `j` is its
      nearest. */
  lemma MembersStep(centers: seq<Pixel>, pixels: seq<Pixel>, i: nat, j: nat)
    requires |centers| > 0 && i < |pixels|
    ensures Members(centers, pixels[..i + 1], j) ==
      Members(centers, pixels[..i], j) + (if NearestIndex(centers, pixels[i]) == j then [pixels[i]] else [])
  {
    assert pixels[..i + 1][..i] == pixels[..i];
  }

  /** The pixel loop of `reduce_colors`: `k` empty clusters, then every pixel
      pushed onto the cluster of its closest centre. */
  method AssignClusters(centers: seq<Pixel>, pixels: seq<Pixel>) returns (r: Result<seq<seq<Pixel>>>)
    ensures r == Assignment(centers, pixels)
  {
    var k := |centers|;
    var clusters: seq<seq<Pixel>> := [];
    for j := 0 to k
      invariant |clusters| == j
      invariant forall m :: 0 <= m < j ==> clusters[m] == []
    {
      clusters := clusters + [[]];
    }
    for i := 0 to |pixels|
      invariant |clusters| == k
      invariant i > 0 ==> k > 0
      invariant forall j :: 0 <= j < k ==> clusters[j] == Members(centers, pixels[..i], j)
    {
      var closest := SelectClosestCenter(centers, pixels[i]);
      if closest.Err? {
        return Err(closest.panic);
      }
      forall j | 0 <= j < k {
        MembersStep(centers, pixels, i, j);
      }
      clusters := clusters[closest.value := clusters[closest.value] + [pixels[i]]];
    }
    assert pixels[..|pixels|] == pixels;
    if k > 0 {
      assert clusters == Clusters(centers, pixels);
    }
    return Ok(clusters);
  }

  /** The update loop of `reduce_colors`: the mean of every cluster in turn. */
  method UpdateCenters(clusters: seq<seq<Pixel>>) returns (r: Result<seq<Pixel>>)
    ensures r == Means(clusters)
  {
    var newCenters: seq<Pixel> := [];
    for j := 0 to |clusters|
      invariant Means(clusters[..j]) == Ok(newCenters)
    {
      assert clusters[..j + 1][..j] == clusters[..j];
      var mean := ClusterMean(clusters[j]);
      if mean.Err? {
        MeansErrOfPrefix(clusters, j + 1);
        return Err(mean.panic);
      }
      newCenters := newCenters + [mean.value];
    }
    assert clusters[..|clusters|] == clusters;
    return Ok(newCenters);
  }

  /** A panic on a prefix of the clusters is the panic of all of them. */
  lemma MeansErrOfPrefix(clusters: seq<seq<Pixel>>, j: nat)
    requires j <= |clusters|
    requires Means(clusters[..j]).Err?
    ensures Means(clusters) == Means(clusters[..j])
  {
    var e := clusters[..j];
    var m :| 0 <= m < j && e[m] == [];
    assert clusters[m] == [];
  }

  /** The final loop of `reduce_colors`. */
  method RecolorPixels(centers: seq<Pixel>, pixels: seq<Pixel>) returns (r: Result<seq<Pixel>>)
    ensures r == Recolor(centers, pixels)
  {
    var reduced: seq<Pixel> := [];
    for i := 0 to |pixels|
      invariant |reduced| == i
      invariant i > 0 ==> |centers| > 0
      invariant forall m :: 0 <= m < i ==>
        |centers| > 0 && reduced[m] == centers[NearestIndex(centers, pixels[m])]
    {
      var closest := SelectClosestCenter(centers, pixels[i]);
      if closest.Err? {
        return Err(closest.panic);
      }
      reduced := reduced + [centers[closest.value]];
    }
    if |pixels| > 0 {
      assert reduced == seq(|pixels|, i requires 0 <= i < |pixels| => centers[NearestIndex(centers, pixels[i])]);
    }
    return Ok(reduced);
  }

  /** `reduce_colors`, with the seed passed in. */
  method ReduceColors(pixels: seq<Pixel>, k: nat, maxIterations: nat, seed: u64)
    returns (r: Result<seq<Pixel>>)
    ensures r == Quantized(pixels, k, maxIterations, seed)
  {
    var selected := SelectCenters(pixels, k, seed);
    if selected.Err? {
      return Err(selected.panic);
    }
    var initial := selected.value;
    var centers := initial;
    for iter := 0 to maxIterations
      invariant Rounds(pixels, initial, iter) == Ok(centers)
    {
      var clusters := AssignClusters(centers, pixels);
      if clusters.Err? {
        RoundsErrSticks(pixels, initial, iter + 1, maxIterations);
        return Err(clusters.panic);
      }
      var means := UpdateCenters(clusters.value);
      if means.Err? {
        RoundsErrSticks(pixels, initial, iter + 1, maxIterations);
        return Err(means.panic);
      }
      centers := means.value;
    }
    r := RecolorPixels(centers, pixels);
  }
}
