# k-means colour quantiser — a Dafny model

The program reduces the colours of an RGBA image to `k` colours by k-means
clustering. It draws `k` initial centres from the pixels with a linear
congruential generator. It then runs a fixed number of rounds. Each round
assigns every pixel to its nearest centre and replaces each centre by the
floor mean of its cluster. Finally every pixel is replaced by its nearest
final centre. The model covers this core, all of it in `src/main.rs`:
`Rng::new`/`Rng::next`, `select_centers`, `select_closest_center`,
`distance`, `cluster_mean` and `reduce_colors`.

Files:

- `panics.dfy` (module `Panics`): the three panics the core can hit, and
  `Result`, which carries either a value or the panic that stopped the run.
- `lcg.dfy` (module `Lcg`): the generator. It is a class `Rng` whose `Next`
  updates the `seed` field in place. `NextState` and `StateAfter` are the
  functions it is proved against.
- `colors.dfy` (module `Colors`): pixels, the integer square root,
  `Distance`, the search for the first nearest centre, and `ClusterMean`.
  These are pure functions in the source as well.
- `kmeans.dfy` (module `KMeans`): the loops of `select_centers` and
  `reduce_colors` as methods, each proved equal to a specification function
  (`InitialCenters`, `Assignment`, `Means`, `Recolor`, `Quantized`).
- `kmeans_lemmas.dfy` (module `KMeansProperties`): properties of a whole run.

A panic is modelled as a result, not as a precondition, so every input the
program accepts is an input of the model:

- `RemainderByZero`: `% pixels.len()` with no pixels;
- `EmptyCenters`: the `.expect` in `select_closest_center`;
- `DivideByZero`: `/ n` for an empty cluster.

The seed that `get_unix_timestamp()` would provide is a parameter, so every
run is a function of `(pixels, k, max_iterations, seed)`. Determinism given
the seed is therefore built into the model. `ReduceColors` is proved equal
to `Quantized`.

The code does not guard three degenerate inputs, and the model follows it:

- `k == 0` is not a division by zero. The `pixels.len() / k` at line 46 sits
  inside `for _ in 0..k` and never runs. With pixels present the run panics
  in `select_closest_center` (in the first round, or in the final pass when
  there are no rounds). With no pixels it returns an empty image.
- An empty cluster is not kept at its previous centre. `cluster_mean`
  divides by zero. `TooManyColorsPanics` shows this always happens when
  the image has at least one pixel, at least one round runs, and `k`
  exceeds the number of distinct colours.
- `k` larger than the number of pixels is not rejected up front. With at
  least one pixel and at least one round it ends in the same panic
  (`MoreCentersThanPixelsPanics`). With no rounds the final pass returns an
  image, and with no pixels the draw divides by zero (`QuantizedPanics`).

## Model

| member | source | states |
|---|---|---|
| Lcg.NextState | src/main.rs:141-151 | the next state, computed with 64-bit wrapping multiply and add and then `% 2^63`, is below 2^63 |
| Lcg.NextStateAffine | src/main.rs:141-151 | the wrap-around is invisible: the next state is `(A*s + C) mod 2^63` over unbounded integers |
| Lcg.StateAfter | src/main.rs:141-151 | the state after `n` steps; after at least one step it is below 2^63 |
| Lcg.StateAfterAdd | src/main.rs:137-151 | the stream depends only on the state: `m` steps then `n` steps equal `m + n` steps |
| Lcg.Rng.constructor | src/main.rs:137-139 | `Rng::new` keeps the given seed as the state |
| Lcg.Rng.Next | src/main.rs:141-151 | the state becomes `NextState` of the old state, and the returned value is the new state, below 2^63 |
| Colors.IsqrtIsFloorRoot | src/main.rs:98 | `isqrt(x)` is the largest `r` with `r*r <= x` |
| Colors.Distance | src/main.rs:94-99 | the distance is 0 exactly when the colours agree on red, green and blue, and it is at most 441 |
| Colors.DistanceIsFloorRoot | src/main.rs:94-99 | the distance is the floor of the square root of `dr² + dg² + db²` |
| Colors.IsqrtOfMaxSquaredDistance | src/main.rs:94-99 | the bound 441 is exactly `isqrt(3·255²)` |
| Colors.DistanceSymmetric | src/main.rs:94-99 | `distance(p, q) == distance(q, p)` |
| Colors.DistanceIgnoresAlpha | src/main.rs:94-99 | changing the alpha channel of either pixel does not change the distance |
| Colors.NearestIndexIsFirstNearest | src/main.rs:85-92 | the `min_by_key` fold returns an index below `|centers|` whose centre is at minimal distance, and every earlier centre is strictly farther |
| Colors.FirstNearestUnique | src/main.rs:85-92 | at most one index has that property, so ties always go to the first index |
| Colors.SelectClosestCenter | src/main.rs:85-92 | it fails with `EmptyCenters` exactly when there are no centres; otherwise it returns the first nearest index |
| Colors.FloorMeanBetween | src/main.rs:101-121 | the floor mean `sum / n` of a channel lies between its least and greatest value in the cluster |
| Colors.MeanPixelChannels | src/main.rs:115-120 | the `as u8` casts change no channel of the mean |
| Colors.ClusterMean | src/main.rs:101-121 | it fails with `DivideByZero` exactly on an empty cluster; otherwise each of the four channels, alpha included, is the floor of the channel sum over the cluster size |
| Colors.ClusterMeanBetween | src/main.rs:101-121 | each channel of the mean lies between the least and greatest value of that channel in the cluster, so it fits a byte |
| Colors.ClusterMeanOfUniform | src/main.rs:101-121 | a cluster of copies of one pixel, a single pixel included, has that pixel as its mean |
| Colors.ClusterMeanOfPair | src/main.rs:101-121 | the mean of two pixels is the floor of their average in every channel |
| KMeans.InitialCenters | src/main.rs:73-83 | with pixels, exactly `k` centres, each a pixel of the image; with no pixels and `k > 0`, `RemainderByZero` |
| KMeans.SelectCenters | src/main.rs:73-83 | the loop, advancing a fresh generator once per centre, returns `InitialCenters`: centre `i` is `pixels[x % len]` for the (i+1)-th generated `x` |
| KMeans.MembersAreNearest | src/main.rs:49-52 | every pixel in cluster `j` has centre `j` as its first nearest centre |
| KMeans.MembersAreComplete | src/main.rs:49-52 | every pixel whose first nearest centre is `j` is in cluster `j` |
| KMeans.MembersCount | src/main.rs:49-52 | counted with multiplicity, cluster `j` holds every copy of each pixel whose first nearest centre is `j`, and no copy of any other pixel |
| KMeans.MembersStep | src/main.rs:49-52 | proof step of `AssignClusters`: pushing one more pixel extends exactly the cluster of its nearest centre, at the end |
| KMeans.ClustersPartition | src/main.rs:44-52 | the cluster sizes of a round add up to the number of pixels |
| KMeans.Assignment | src/main.rs:44-52 | the assignment fails with `EmptyCenters` exactly when there are pixels but no centres; otherwise it has one cluster per centre |
| KMeans.AssignClusters | src/main.rs:44-52 | the loops that create `k` empty clusters and push every pixel compute `Assignment` |
| KMeans.Means | src/main.rs:54-58 | it fails with `DivideByZero` exactly when some cluster is empty; otherwise centre `j` is the `cluster_mean` of cluster `j` |
| KMeans.MeansErrOfPrefix | src/main.rs:54-58 | proof step of `UpdateCenters`: a panic on the first clusters is the panic of the whole update loop |
| KMeans.UpdateCenters | src/main.rs:54-58 | the update loop computes `Means` |
| KMeans.Round | src/main.rs:42-62 | a round keeps the number of centres, and a panic in it is `EmptyCenters` with no centres and `DivideByZero` otherwise |
| KMeans.RoundPanics | src/main.rs:42-62 | a round fails exactly when there are pixels but no centres, or some centre attracts no pixel; otherwise centre `j` becomes the mean of cluster `j` |
| KMeans.Rounds | src/main.rs:41-62 | `n` rounds keep the number of centres; a panic is `EmptyCenters` with no centres and `DivideByZero` otherwise |
| KMeans.RoundsErrSticks | src/main.rs:41-62 | once a round panics, every longer run ends in the same panic |
| KMeans.Recolor | src/main.rs:64-68 | it fails with `EmptyCenters` exactly when there are pixels but no centres; otherwise it gives one colour per pixel, a centre no farther than any other centre |
| KMeans.RecolorPixels | src/main.rs:64-68 | the final loop computes `Recolor` |
| KMeans.FinalCenters | src/main.rs:40-62 | the centres after the draw and the rounds are exactly `k` |
| KMeans.Quantized | src/main.rs:39-71 | the output has the length of the input |
| KMeans.ReduceColors | src/main.rs:39-71 | draw, rounds and final pass, run with a given seed, return `Quantized` |
| KMeansProperties.RoundCentersBetween | src/main.rs:54-58 | after a round, every channel of centre `j` lies between the extremes of that channel in cluster `j`, which is non-empty |
| KMeansProperties.NearestOfCenter | src/main.rs:85-99 | a centre whose red, green and blue no other centre shares is its own nearest centre |
| KMeansProperties.RoundOfOwnMeans | src/main.rs:42-62 | a round keeps centres that are already the means of their clusters |
| KMeansProperties.CentersOfTheirOwnColors | src/main.rs:39-71 | an image whose colours are exactly the centres, pairwise different in red, green and blue, is a fixed point: a round keeps every centre and the final pass maps every pixel to its own colour |
| KMeansProperties.RoundsOfFixedPoint | src/main.rs:41-62 | rounds started from centres that one round keeps never move, however many rounds run |
| KMeansProperties.WholeRunOwnColors | src/main.rs:39-83 | when the seed draws centres that are exactly the colours of the image, pairwise different in red, green and blue, `reduce_colors` returns the image unchanged for any number of rounds |
| KMeansProperties.LaterDuplicateAttractsNothing | src/main.rs:85-92 | when centres `i < j` coincide, cluster `j` is empty, because ties go to the first index |
| KMeansProperties.DuplicateCentersPanic | src/main.rs:42-62 | a round whose centres contain a repeated colour panics with `DivideByZero` |
| KMeansProperties.TooManyColorsPanics | src/main.rs:39-83 | with at least one pixel and one round, asking for more colours than the image has always ends in `DivideByZero`, whatever the seed |
| KMeansProperties.MoreCentersThanPixelsPanics | src/main.rs:39-83 | in particular `k > len` with at least one round always ends in `DivideByZero` |
| KMeansProperties.QuantizedPanics | src/main.rs:39-92 | no pixels: `[]` for `k == 0`, else `RemainderByZero`; pixels and `k == 0`: `EmptyCenters`; pixels, `k > 0` and no rounds: no panic; any other panic is `DivideByZero` |
| KMeansProperties.QuantizedOutput | src/main.rs:64-70 | a returned image has one colour per pixel, `centers[select_closest_center(centers, pixel)]` for the final centres, and at most `k` distinct colours |
| KMeansProperties.OneCenterRound | src/main.rs:42-62 | with one centre, a round moves it to the mean of the whole image |
| KMeansProperties.OneCenterRounds | src/main.rs:41-62 | with one centre, any positive number of rounds ends at the mean of the whole image |
| KMeansProperties.OneColorIsTheMean | src/main.rs:39-71 | with `k == 1` and at least one round, every pixel becomes the mean colour of the image |

## Left out

- `main` (src/main.rs:9-37): argument parsing, decoding and encoding the image and writing it back are I/O through the `image` crate.
- `get_unix_timestamp` (src/main.rs:123-130) reads the clock. The seed it returns is a parameter of `SelectCenters` and `ReduceColors`.
- The progress line printed at the start of every round (src/main.rs:43) is output only.
- Memory is treated as unbounded. `Vec::with_capacity` (src/main.rs:44, 46, 54, 64, 74) panics with a capacity overflow, or aborts when allocation fails, for a huge `k`. `k` is parsed from the command line without a bound (src/main.rs:13-17). Those outcomes are not modelled. With no pixels and `k = 2^62`, for example, the program stops at line 74 while the model reports `RemainderByZero`.
- The argument `pixels.len() / k` of `with_capacity` at src/main.rs:46 is never evaluated with `k == 0`, because it sits inside `for _ in 0..k`.
- Colors.ClusterMean: the channel sums are unbounded integers, so the wrap-around of the `usize` sums of the fold is not modelled. On a 64-bit target they cannot overflow for any image that fits in memory. On a 32-bit target they can: an all-white image of 4105 × 4105 pixels sums to more than 2^32 − 1 in each channel.
- `rng.next() as usize` is modelled as the identity, as on a 64-bit target. A 32-bit target, where the cast truncates, is not modelled.
- Colors.Isqrt computes the floor square root digit by digit. Its result is pinned down by `IsqrtIsFloorRoot`, not by the algorithm of the standard library's `isqrt`.
- Panic messages are not modelled, only which of the three panics above occurs.
- The methods that split the loops of `reduce_colors` (`AssignClusters`, `UpdateCenters`, `RecolorPixels`) stand for the consecutive loops of the one Rust function. They work on sequences that they rebuild, not on vectors pushed in place.
