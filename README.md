# Nearest palette colour: a verified model

This project models the nearest-colour engine of the libimagequant colour
quantizer in Dafny. The engine answers "which palette entry is closest to this
pixel, and how close is it?" using:

- a perceptual colour distance (`src/simd.rs`);
- a vantage-point tree built over the palette (`src/nearest.rs`);
- a per-entry cache of the quartered squared distance to the nearest *other*
  entry, which lets a search accept the caller's likely index without walking
  the tree.

The files:

- `pal.dfy`: the palette types the engine borrows.
  - a colour is four real channels;
  - a palette entry is a colour and its popularity;
  - `PalIndex` is `0..255`.
- `simd.dfy`: the distance, in three forms.
  - `diff_scalar`;
  - `diff_simd`, computed over four lanes;
  - `diff`, which dispatches between the two.
  - It also models `summon_token` over an explicit `Target`, and `Path`, which
    says which twin a tree builder or a search calls.
- `metric.dfy`: the triangle inequality for the square root of the distance.
  The proof uses a sum of per-channel gaps, Cauchy–Schwarz and Minkowski.
- `visitor.dfy`: `Visitor`, the best-so-far accumulator, as a class with
  `Visit`, and `Visited`, the function that specifies it.
- `vptree.dfy`: the tree (`Node`, `NodeInner`) and its construction.
  - The specification functions are `Build` and `Permuted`.
  - The in-place method `CreateNode` works on an `array` of indexes. It swaps
    the most popular index to the front, sorts the rest stably by distance,
    and then either fills a leaf or splits and recurses.
- `vptree_facts.dfy`: what construction guarantees.
  - every index ends up in the tree exactly once, and the slice is only
    permuted;
  - the radius separates near from far at every node;
  - the scalar and vector builds are equal.
- `vpsearch.dfy`: the search.
  - `SearchNode` is the specification function; `VpSearchNode` is the loop
    method with one recursive call.
  - The facts proved about it: the exclusion is kept and the best never gets
    worse, the answer is adopted from a real candidate, and the search is
    exact (it finds the minimum over all candidates despite pruning).
- `nearest.dfy`: the `Nearest` class.
  - `New` builds the tree and runs the warm-up.
  - `Search` covers both the fast path and the tree walk.
  - The lemmas here prove that the cache holds a quarter of the nearest other
    distance, and that both paths of `Search` return a global minimum.

The twin functions of `src/nearest.rs` are modelled once, parameterised by
`Path`. The twins are `new_scalar`/`new_simd`, `vp_create_node_scalar`/`_simd`,
`vp_search_node_scalar`/`_simd` and `search_scalar`/`search_simd_inner`. Over
the reals both paths compute `DiffScalar`, and `BuildPathFree`,
`PermutedPathFree` and `SearchPathFree` prove that both instantiations give
identical results.

Two details of construction:

- **Sort stability.** Construction sorts with `sort_by_cached_key`, which is
  stable. `SortByKey` is a stable insertion sort, and `SortByKeyStable`
  proves that indexes with equal keys keep their input order.
- **Ties at the radius.** An entry whose distance equals `radius_squared` can
  sit at the end of the near half as well as in the far half. `Separated`
  states that near entries are `<=` the squared radius and far entries are
  `>=` it.

## Model

| member | source | states |
|---|---|---|
| Simd.SummonToken | src/simd.rs:19-29 | a token exists exactly when the target is x86_64 with AVX2+FMA; on any other architecture there is none |
| Simd.DiffScalar | src/simd.rs:54-66 | the distance is never negative |
| Simd.ChannelTerm | src/simd.rs:55-65 | each channel's larger of the on-black and on-white squares is never negative |
| Simd.DiffSimd | src/simd.rs:36-50 | the four-lane form equals the scalar distance for every pair of colours |
| Simd.LanesAreChannels | src/simd.rs:41-49 | lanes 1..3 of the lane-wise maximum are the red, green and blue channel terms of the scalar form; lane 0 (alpha) is not summed |
| Simd.Diff | src/simd.rs:71-77 | the dispatcher equals the scalar distance whether or not a token is summoned |
| Simd.DiffOn | src/nearest.rs:317-318 | the distance a scalar or a vector twin calls is the scalar distance |
| Simd.DiffSelf | src/simd.rs:54-66 | the distance of a colour to itself is 0 |
| Simd.DiffSymmetric | src/simd.rs:54-66 | the distance is symmetric in its two colours |
| Metric.Triangle | src/nearest.rs:329-341 | the square root of the distance satisfies the triangle inequality, which the pruning rule relies on |
| Metric.SqrtOrder | src/nearest.rs:318 | an exact square root preserves `<` and `<=` in both directions |
| Visitor.Quarter | src/nearest.rs:50 | dividing by 4 keeps the sentinel a sentinel and quarters a real distance |
| Visitor.Visited | src/nearest.rs:187-193 | a candidate replaces the best exactly when its squared distance is strictly smaller and it is not the excluded index; otherwise nothing changes; the exclusion is kept; the best never grows; a non-excluded candidate bounds the result |
| Visitor.Visitor.constructor | src/nearest.rs:43-48 | the new visitor holds the four given fields |
| Visitor.Visitor.Visit | src/nearest.rs:187-193 | the visitor's new state is `Visited` of its old state |
| VpTree.MostPopular | src/nearest.rs:240-253 | the chosen position lies in the slice |
| VpTree.MostPopularIsLastMaximum | src/nearest.rs:240-253 | no index of the slice is more popular than the chosen one, and every later index is strictly less popular (the last maximum wins, as with `max_by_key`) |
| VpTree.SwapFrontPermutation | src/nearest.rs:254 | swapping the chosen index to the front only rearranges the slice |
| VpTree.InsertSorted | src/nearest.rs:261-268 | inserting into a sorted slice adds exactly that index and keeps the slice sorted |
| VpTree.SortByKeySorted | src/nearest.rs:261-268 | the sort returns a permutation of its input, ordered by the key |
| VpTree.InsertKeepsClass | src/nearest.rs:261-268 | an inserted index goes in front of every index with the same key and leaves the order of the others unchanged |
| VpTree.SortByKeyStable | src/nearest.rs:261-268 | the sort is stable: the indexes sharing any one key appear in the result in their input order |
| VpTree.VantageFirstOrder | src/nearest.rs:240-268 | after the vantage step the slice is a permutation of the original, its head is at least as popular as every entry, and the rest is sorted by distance to the head |
| VpTree.Mid | src/nearest.rs:290-294 | the split point leaves both halves non-empty; the far half has as many entries as the near half, or one more |
| VpTree.FillLeaf | src/nearest.rs:272-289 | slot `j` of the six holds the `j`-th index of the slice and its palette colour when that index is in the palette, and 0 / the default colour otherwise |
| VpTree.Swap | src/nearest.rs:254 | exactly the two positions are exchanged |
| VpTree.WriteBack | src/nearest.rs:261-268 | the sorted order replaces the sub-slice and nothing else changes |
| VpTree.PlaceVantage | src/nearest.rs:240-268 | the slice now holds the vantage-first order; the rest of the array is unchanged |
| VpTree.CreateNode | src/nearest.rs:223-313 | returns the tree `Build` specifies for the slice, and leaves the slice in the order `Permuted` specifies, touching nothing outside it |
| VpTree.CreateLeaf | src/nearest.rs:272-289 | a slice of at most 7 entries gives a leaf whose length is the number of entries after the vantage point |
| VpTree.CreateSplit | src/nearest.rs:290-306 | a longer slice gives an inner node whose squared radius is the distance to the first far entry and whose children are built from the two halves |
| VpTree.CreateChildren | src/nearest.rs:292-304 | the two halves are built in turn, each in its own part of the slice |
| VpTreeFacts.PermutedIsPermutation | src/nearest.rs:227-313 | construction only permutes the slice |
| VpTreeFacts.BuildEntries | src/nearest.rs:227-313 | reading the tree's candidates in order gives exactly the order construction left in the slice, and each carries its palette colour |
| VpTreeFacts.BuildHoldsEachOnce | src/nearest.rs:227-313 | every index of the slice appears in the tree exactly as often as in the slice, as a vantage point or inside one leaf |
| VpTreeFacts.EntryOrigin | src/nearest.rs:227-313 | every candidate of the tree is an index of the slice with its palette colour |
| VpTreeFacts.EntryFor | src/nearest.rs:227-313 | every index of the slice is a candidate of the tree |
| VpTreeFacts.SplitAround | src/nearest.rs:261-299 | at a split the squared radius is non-negative, every near candidate is within it and every far candidate is at least that far |
| VpTreeFacts.BuildSeparated | src/nearest.rs:223-313 | every inner node of the built tree is separated by its radius (which is the root of its square), and every leaf holds at most 6 entries |
| VpTreeFacts.BuildPathFree | src/nearest.rs:370-460 | the vector build returns the same tree as the scalar build |
| VpTreeFacts.PermutedPathFree | src/nearest.rs:370-460 | the vector build leaves the slice in the same order as the scalar build |
| VpSearch.VpSearchNode | src/nearest.rs:315-361 | the loop-and-recurse walk leaves the visitor in the state `SearchNode` specifies, and changes nothing else |
| VpSearch.VisitLeaf | src/nearest.rs:344-357 | the leaf loop offers the first `len` slots to the visitor in order |
| VpSearch.VisitAllKeeps | src/nearest.rs:349-356 | the leaf loop keeps the exclusion, never worsens the best, and keeps the distance equal to the root of the squared distance |
| VpSearch.SearchKeeps | src/nearest.rs:315-361 | the walk keeps the exclusion, never worsens the best, and keeps the distance equal to the root of the squared distance |
| VpSearch.SearchFinite | src/nearest.rs:315-320 | without an exclusion the walk always ends on a real distance |
| VpSearch.VisitAllFound | src/nearest.rs:349-356 | after the leaf loop the visitor is unchanged or holds one slot's index with its exact distances |
| VpSearch.SearchFound | src/nearest.rs:315-361 | after the walk the visitor is unchanged or holds a non-excluded candidate of the tree with its exact distances |
| VpSearch.VisitAllOptimal | src/nearest.rs:349-356 | after the leaf loop the visitor is at least as close as every slot that is not excluded |
| VpSearch.FarPruned | src/nearest.rs:329-334 | when the far subtree is skipped, every colour at least the radius from the vantage point is no closer than the best |
| VpSearch.NearPruned | src/nearest.rs:335-340 | when the near subtree is skipped, every colour within the radius is no closer than the best |
| VpSearch.SearchOptimal | src/nearest.rs:315-361 | on a separated tree, with an exact root, the walk ends at least as close as every candidate other than the excluded one |
| VpSearch.SearchPathFree | src/nearest.rs:464-516 | the vector walk leaves the visitor in the same state as the scalar walk |
| Nearest.Range | src/nearest.rs:29-31 | the initial indexes are `0..len` in order |
| Nearest.Nearest.constructor | src/nearest.rs:35-41 | the handle stores the tree and palette, with a 256-entry cache filled with 0 |
| Nearest.Nearest.New | src/nearest.rs:11-86 | fails with `Unsupported` exactly when the palette is empty or has more than 256 entries; otherwise the handle holds the tree built over `0..len`, `has_simd` records whether a token was summoned, cache entry `i` is a quarter of the warm-up result for `i`, and entries past the palette stay 0 |
| Nearest.Nearest.Search | src/nearest.rs:88-163 | returns an index of the palette with its exact squared distance; returns the likely index when its distance is below its cache entry; never returns a distance above the likely entry's; with an exact square root the distance is the minimum over the palette |
| Nearest.CreateTree | src/nearest.rs:29-36 | the root is the tree built over `0..len` |
| Nearest.WarmUpStep | src/nearest.rs:50 | stores a quarter of the warm-up result for entry `i`, keeps the earlier entries and changes no later one |
| Nearest.EntryOfIndex | src/nearest.rs:29-36 | every palette index is a candidate of the tree, carrying its colour |
| Nearest.IndexOfEntry | src/nearest.rs:29-36 | every candidate of the tree is a palette index with its colour |
| Nearest.TreeSeparated | src/nearest.rs:29-36 | the tree over the whole palette is separated at every node |
| Nearest.NearestOtherFound | src/nearest.rs:42-51 | a real warm-up result is the distance from entry `i` to some other entry |
| Nearest.NearestOtherBound | src/nearest.rs:42-51 | with an exact root, the warm-up result is at most the distance from entry `i` to every other entry |
| Nearest.NearestOtherColor | src/nearest.rs:42-51 | the warm-up result is the sentinel exactly when the palette has one entry; otherwise it is the smallest distance from entry `i` to another entry |
| Nearest.FastPathSound | src/nearest.rs:107-108 | a pixel closer to an entry than a quarter of that entry's squared distance to another entry is strictly closer to the first |
| Nearest.FastPath | src/nearest.rs:104-109 | when the fast path fires, the likely entry is a nearest entry of the palette |
| Nearest.SlowPath | src/nearest.rs:110-126 | the tree walk from either start state ends on a palette index with its exact distance, never above the start; with an exact root it is the minimum over the palette |

## Left out

- Floating point: colours and distances are real numbers.
  - The model does not capture rounding, NaN, or the 1e-5 tolerance between
    the scalar and vector forms.
  - `f32::MAX` (the warm-up start) and `f32::INFINITY` (the search start without
    a valid likely index) are one sentinel, `Infinity`, that every real
    distance compares below.
- Visitor.Quarter: the code divides `f32::MAX` by 4 into a finite value of
  about 8.5e37, but the model keeps `Quarter(Infinity)` as `Infinity`.
  - The difference shows in a one-entry palette, whose cache entry is that
    finite value in the code.
  - There the fast path (src/nearest.rs:107) fires only for distances below
    8.5e37, while in the model it fires for every distance.
  - For colours with channels in [0, 1] the distance is at most 12, so the
    two agree on every input the quantizer produces.
- `f32::sqrt` is a parameter `sqrt` of the model.
  - Every contract that does not need the root holds for any function.
  - Optimality needs an exact root and is stated under the hypothesis
    `IsSqrt(sqrt)`.
- Nearest.Nearest.Search: global optimality is guaranteed only when `IsSqrt(sqrt)`
  holds. With the rounded root of the code the pruning rule is not exact.
- VpSearch.SearchOptimal: requires a separated tree, an exact root and a start
  state whose distance is the root of its squared distance.
  - `TreeSeparated` proves the first for every tree `New` builds.
  - `Search` establishes the third.
- CPU feature probing (`Desktop64::summon`) is a `Target` parameter. The
  `#[arcane]` attribute and the `f32x4` intrinsics are modelled as lane-wise
  real arithmetic.
- `Box` allocation, lifetimes and the borrowed palette: the tree is an
  inductive datatype and the palette is a value stored in the handle.
- Leaf slot arrays are sequences of exactly six entries, not inline arrays and
  a boxed array.
- The sort key of an index outside the palette is 0, and its leaf slot keeps
  the defaults. Construction is only ever called on palette indexes, so this
  case is modelled but never reached.
- `debug_assert!`, the unit tests and the benchmarks are not modelled.
  `src/seacow.rs` is not part of this model.
