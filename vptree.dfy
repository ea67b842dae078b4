/**
 * The vantage-point tree of `src/nearest.rs` and its construction
 * (`vp_create_node_scalar` / `vp_create_node_simd`).
 *
 * Construction permutes a slice of palette indexes in place: the most popular
 * entry becomes the vantage point, the others are sorted by their distance to
 * it, and the sorted rest is split in half into a near and a far subtree until
 * at most six entries remain, which are stored in a leaf.
 */
module VpTree {
  import opened Wrappers
  import opened Pal
  import opened Simd

  const LEAF_MAX_SIZE: nat := 6

  datatype Node = Node(vantagePoint: Color, inner: NodeInner, idx: PalIndex)

  /**
   * `Leaf.idxs` and `Leaf.colors` are fixed arrays of `LEAF_MAX_SIZE`
   * entries, of which the first `len` are meaningful.
   */
  datatype NodeInner =
    | Nodes(radius: real, radiusSquared: real, near: Node, far: Node)
    | Leaf(len: nat, idxs: seq<PalIndex>, colors: seq<Color>)

  /** A candidate a search may visit: a palette index and the colour stored with it. */
  datatype Entry = Entry(idx: PalIndex, color: Color)

  function Height(n: Node): nat
  {
    match n.inner
    case Leaf(_, _, _) => 0
    case Nodes(_, _, near, far) =>
      var h1, h2 := Height(near), Height(far);
      1 + (if h1 >= h2 then h1 else h2)
  }

  /** How many leaf slots a search reads: `colors.iter().zip(idxs).take(len)`. */
  function LeafCount(len: nat, idxs: seq<PalIndex>, colors: seq<Color>): nat
  {
    var k := if |idxs| <= |colors| then |idxs| else |colors|;
    if len <= k then len else k
  }

  function LeafEntries(len: nat, idxs: seq<PalIndex>, colors: seq<Color>): seq<Entry>
  {
    seq(LeafCount(len, idxs, colors), k requires 0 <= k < LeafCount(len, idxs, colors) => Entry(idxs[k], colors[k]))
  }

  /** Every candidate of a subtree: its vantage point, then its leaf slots or both children. */
  function Entries(n: Node): seq<Entry>
  {
    [Entry(n.idx, n.vantagePoint)] +
    match n.inner
    case Leaf(len, idxs, colors) => LeafEntries(len, idxs, colors)
    case Nodes(_, _, near, far) => Entries(near) + Entries(far)
  }

  function IdxsOf(es: seq<Entry>): seq<PalIndex>
  {
    seq(|es|, k requires 0 <= k < |es| => es[k].idx)
  }

  /** Every candidate carries the colour the palette gives its index. */
  predicate EntriesMatch(palette: Palette, es: seq<Entry>)
  {
    forall k :: 0 <= k < |es| ==> es[k].idx < |palette| && es[k].color == palette[es[k].idx].color
  }

  // ---------------------------------------------------------------------
  // The steps of construction, as functions of the slice.

  /**
   * `max_by_key(popularity)`: the position of the most popular index; on a
   * tie the last one wins.
   */
  function MostPopular(palette: Palette, s: seq<PalIndex>): (k: nat)
    ensures |s| == 0 ==> k == 0
    ensures |s| > 0 ==> k < |s|
    decreases |s|
  {
    if |s| <= 1 then 0
    else
      var k := MostPopular(palette, s[..|s| - 1]);
      if PopularityAt(palette, s[|s| - 1]) >= PopularityAt(palette, s[k]) then |s| - 1 else k
  }

  /** No index of the slice is more popular than the chosen one, and every later one is strictly less popular. */
  lemma {:induction false} MostPopularIsLastMaximum(palette: Palette, s: seq<PalIndex>)
    requires |s| > 0
    ensures var k := MostPopular(palette, s);
      && (forall j :: 0 <= j < |s| ==> PopularityAt(palette, s[j]) <= PopularityAt(palette, s[k]))
      && (forall j :: k < j < |s| ==> PopularityAt(palette, s[j]) < PopularityAt(palette, s[k]))
    decreases |s|
  {
    if |s| > 1 {
      var init := s[..|s| - 1];
      MostPopularIsLastMaximum(palette, init);
      assert forall j :: 0 <= j < |s| - 1 ==> init[j] == s[j];
    }
  }

  /** `indexes.swap(most_popular_item, 0)` */
  function SwapFront(s: seq<PalIndex>, k: nat): (r: seq<PalIndex>)
    requires k < |s|
    ensures |r| == |s| && r[0] == s[k]
  {
    s[0 := s[k]][k := s[0]]
  }

  /** A swap only rearranges the slice. */
  lemma SwapFrontPermutation(s: seq<PalIndex>, k: nat)
    requires k < |s|
    ensures multiset(SwapFront(s, k)) == multiset(s)
  {
  }

  /** The sort key: the distance from the vantage point, 0 for an index outside the palette. */
  function Key(path: Path, palette: Palette, vantage: Color, i: PalIndex): real
  {
    if i < |palette| then DiffOn(path, vantage, palette[i].color) else 0.0
  }

  predicate SortedBy(key: PalIndex -> real, s: seq<PalIndex>)
  {
    forall j, k :: 0 <= j < k < |s| ==> key(s[j]) <= key(s[k])
  }

  /** Puts `x` in front of the first element with a larger key; equal keys keep their order. */
  function Insert(key: PalIndex -> real, x: PalIndex, s: seq<PalIndex>): (r: seq<PalIndex>)
    ensures |r| == |s| + 1
    decreases |s|
  {
    if |s| == 0 || key(x) <= key(s[0]) then [x] + s
    else [s[0]] + Insert(key, x, s[1..])
  }

  /** Inserting adds `x` to the slice and loses nothing. */
  lemma {:induction false} InsertPermutation(key: PalIndex -> real, x: PalIndex, s: seq<PalIndex>)
    ensures multiset(Insert(key, x, s)) == multiset(s) + multiset{x}
    decreases |s|
  {
    if |s| > 0 && key(x) > key(s[0]) {
      InsertPermutation(key, x, s[1..]);
      assert s == [s[0]] + s[1..];
    }
  }

  /** A lower bound on the keys of the slice and of `x` bounds the keys after inserting. */
  lemma {:induction false} InsertBounded(key: PalIndex -> real, x: PalIndex, s: seq<PalIndex>, bound: real)
    requires bound <= key(x) && forall j :: 0 <= j < |s| ==> bound <= key(s[j])
    ensures forall k :: 0 <= k < |s| + 1 ==> bound <= key(Insert(key, x, s)[k])
    decreases |s|
  {
    if |s| > 0 && key(x) > key(s[0]) {
      InsertBounded(key, x, s[1..], bound);
    }
  }

  /** Inserting adds `x` to the slice and keeps a sorted slice sorted. */
  lemma {:induction false} InsertSorted(key: PalIndex -> real, x: PalIndex, s: seq<PalIndex>)
    requires SortedBy(key, s)
    ensures var r := Insert(key, x, s);
      multiset(r) == multiset(s) + multiset{x} && SortedBy(key, r)
    decreases |s|
  {
    InsertPermutation(key, x, s);
    if |s| > 0 && key(x) > key(s[0]) {
      InsertSorted(key, x, s[1..]);
      InsertBounded(key, x, s[1..], key(s[0]));
    }
  }

  /**
   * `sort_by_cached_key`, a stable sort by the key, written as an insertion
   * sort.
   */
  function SortByKey(key: PalIndex -> real, s: seq<PalIndex>): (r: seq<PalIndex>)
    ensures |r| == |s|
    decreases |s|
  {
    if |s| == 0 then []
    else Insert(key, s[0], SortByKey(key, s[1..]))
  }

  /** The sort rearranges the slice into key order. */
  lemma {:induction false} SortByKeySorted(key: PalIndex -> real, s: seq<PalIndex>)
    ensures var r := SortByKey(key, s);
      multiset(r) == multiset(s) && SortedBy(key, r)
    decreases |s|
  {
    if |s| > 0 {
      SortByKeySorted(key, s[1..]);
      InsertSorted(key, s[0], SortByKey(key, s[1..]));
      assert s == [s[0]] + s[1..];
    }
  }

  /** The indexes of `s` whose key is `v`, in the order `s` holds them. */
  function KeyClass(key: PalIndex -> real, v: real, s: seq<PalIndex>): seq<PalIndex>
    decreases |s|
  {
    if |s| == 0 then []
    else (if key(s[0]) == v then [s[0]] else []) + KeyClass(key, v, s[1..])
  }

  /** Inserting `x` puts it in front of every index of `s` with the same key. */
  lemma {:induction false} InsertKeepsClass(key: PalIndex -> real, x: PalIndex, s: seq<PalIndex>, v: real)
    ensures KeyClass(key, v, Insert(key, x, s)) == (if key(x) == v then [x] else []) + KeyClass(key, v, s)
    decreases |s|
  {
    if |s| == 0 || key(x) <= key(s[0]) {
      assert ([x] + s)[1..] == s;
    } else {
      InsertKeepsClass(key, x, s[1..], v);
      assert ([s[0]] + Insert(key, x, s[1..]))[1..] == Insert(key, x, s[1..]);
    }
  }

  /**
   * The sort is stable: the indexes sharing any one key leave it in the order
   * they entered it.
   */
  lemma {:induction false} SortByKeyStable(key: PalIndex -> real, s: seq<PalIndex>, v: real)
    ensures KeyClass(key, v, SortByKey(key, s)) == KeyClass(key, v, s)
    decreases |s|
  {
    if |s| > 0 {
      SortByKeyStable(key, s[1..], v);
      InsertKeepsClass(key, s[0], SortByKey(key, s[1..]), v);
    }
  }

  /** The sort key of a node: distances from its vantage point. */
  function KeyFrom(path: Path, palette: Palette, vantage: Color): PalIndex -> real
  {
    (i: PalIndex) => Key(path, palette, vantage, i)
  }

  /** The slice after the vantage point has been chosen and the rest sorted. */
  function VantageFirst(path: Path, palette: Palette, s: seq<PalIndex>): (t: seq<PalIndex>)
    requires |s| >= 1
    ensures |t| == |s|
  {
    var w := SwapFront(s, MostPopular(palette, s));
    [w[0]] + SortByKey(KeyFrom(path, palette, ColorAt(palette, w[0])), w[1..])
  }

  /**
   * The vantage point is the most popular index of the slice, the rest is
   * sorted by distance to it, and nothing is lost or added.
   */
  lemma VantageFirstOrder(path: Path, palette: Palette, s: seq<PalIndex>)
    requires |s| >= 1
    ensures var t := VantageFirst(path, palette, s);
      && multiset(t) == multiset(s)
      && (forall j :: 0 <= j < |s| ==> PopularityAt(palette, s[j]) <= PopularityAt(palette, t[0]))
      && SortedBy(KeyFrom(path, palette, ColorAt(palette, t[0])), t[1..])
  {
    var k := MostPopular(palette, s);
    MostPopularIsLastMaximum(palette, s);
    var w := SwapFront(s, k);
    SwapFrontPermutation(s, k);
    var key := KeyFrom(path, palette, ColorAt(palette, w[0]));
    var rest := SortByKey(key, w[1..]);
    SortByKeySorted(key, w[1..]);
    assert w == [w[0]] + w[1..];
    assert ([w[0]] + rest)[1..] == rest;
  }

  /** The first six slots of a leaf; slots past the slice, or for an index outside the palette, keep 0. */
  function LeafIdxs(palette: Palette, rest: seq<PalIndex>): seq<PalIndex>
  {
    seq(LEAF_MAX_SIZE, j requires 0 <= j < LEAF_MAX_SIZE =>
      if j < |rest| && rest[j] < |palette| then rest[j] else 0)
  }

  /** The colour slots of a leaf, `f_pixel::default()` where no colour was written. */
  function LeafColors(palette: Palette, rest: seq<PalIndex>): seq<Color>
  {
    seq(LEAF_MAX_SIZE, j requires 0 <= j < LEAF_MAX_SIZE =>
      if j < |rest| && rest[j] < |palette| then palette[rest[j]].color else Transparent)
  }

  /**
   * Where `vp_create_node` splits a slice of `len` entries: after the vantage
   * point, `(len - 1) / 2` entries go near and the rest (as many, or one
   * more) go far.
   */
  function Mid(len: nat): (r: nat)
    requires len >= 2
    ensures 1 <= r < len
    ensures len - r == r - 1 || len - r == r
  {
    1 + (len - 1) / 2
  }

  /** The tree `vp_create_node` returns for the slice `s`. */
  function Build(path: Path, sqrt: real -> real, palette: Palette, s: seq<PalIndex>): Node
    decreases |s|
  {
    if |s| <= 1 then
      var idx := if |s| == 1 then s[0] else 0;
      Node(ColorAt(palette, idx), Leaf(0, LeafIdxs(palette, []), LeafColors(palette, [])), idx)
    else
      var t := VantageFirst(path, palette, s);
      var vantagePoint := ColorAt(palette, t[0]);
      if |t| - 1 <= LEAF_MAX_SIZE then
        Node(vantagePoint, Leaf(|t| - 1, LeafIdxs(palette, t[1..]), LeafColors(palette, t[1..])), t[0])
      else
        var mid := Mid(|t|);
        var radiusSquared := Key(path, palette, vantagePoint, t[mid]);
        Node(vantagePoint,
             Nodes(sqrt(radiusSquared), radiusSquared,
                   Build(path, sqrt, palette, t[1..mid]),
                   Build(path, sqrt, palette, t[mid..])),
             t[0])
  }

  /** The order `vp_create_node` leaves the slice in. */
  function Permuted(path: Path, palette: Palette, s: seq<PalIndex>): (r: seq<PalIndex>)
    ensures |r| == |s|
    decreases |s|
  {
    if |s| <= 1 then s
    else
      var t := VantageFirst(path, palette, s);
      if |t| - 1 <= LEAF_MAX_SIZE then t
      else
        var mid := Mid(|t|);
        [t[0]] + (Permuted(path, palette, t[1..mid]) + Permuted(path, palette, t[mid..]))
  }

  /** `Build` on a slice short enough for a leaf. */
  lemma LeafStep(path: Path, sqrt: real -> real, palette: Palette, s: seq<PalIndex>)
    requires 2 <= |s| <= LEAF_MAX_SIZE + 1
    ensures var t := VantageFirst(path, palette, s);
      Build(path, sqrt, palette, s)
      == Node(ColorAt(palette, t[0]), Leaf(|s| - 1, LeafIdxs(palette, t[1..]), LeafColors(palette, t[1..])), t[0])
  {
  }

  /** `Permuted` on a slice short enough for a leaf. */
  lemma LeafPermutedStep(path: Path, palette: Palette, s: seq<PalIndex>)
    requires 2 <= |s| <= LEAF_MAX_SIZE + 1
    ensures Permuted(path, palette, s) == VantageFirst(path, palette, s)
  {
  }

  /** One step of `Build` on a slice too long for a leaf. */
  lemma BuildStep(path: Path, sqrt: real -> real, palette: Palette, s: seq<PalIndex>)
    requires |s| - 1 > LEAF_MAX_SIZE
    ensures var t := VantageFirst(path, palette, s);
      var vantagePoint := ColorAt(palette, t[0]);
      var mid := Mid(|t|);
      var radiusSquared := Key(path, palette, vantagePoint, t[mid]);
      Build(path, sqrt, palette, s)
      == Node(vantagePoint,
              Nodes(sqrt(radiusSquared), radiusSquared,
                    Build(path, sqrt, palette, t[1..mid]), Build(path, sqrt, palette, t[mid..])),
              t[0])
  {
  }

  /** One step of `Permuted` on a slice too long for a leaf. */
  lemma PermutedStep(path: Path, palette: Palette, s: seq<PalIndex>)
    requires |s| - 1 > LEAF_MAX_SIZE
    ensures var t := VantageFirst(path, palette, s);
      var mid := Mid(|t|);
      Permuted(path, palette, s)
      == [t[0]] + (Permuted(path, palette, t[1..mid]) + Permuted(path, palette, t[mid..]))
  {
  }

  // ---------------------------------------------------------------------
  // Construction in place.

  /** `a` with `a[lo..hi]` replaced by `p`. */
  function Splice(a: seq<PalIndex>, lo: nat, hi: nat, p: seq<PalIndex>): seq<PalIndex>
    requires lo <= hi <= |a| && |p| == hi - lo
  {
    a[..lo] + p + a[hi..]
  }

  lemma SpliceParts(a: seq<PalIndex>, lo: nat, hi: nat, p: seq<PalIndex>)
    requires lo <= hi <= |a| && |p| == hi - lo
    ensures var b := Splice(a, lo, hi, p);
      |b| == |a| && b[lo..hi] == p
      && (forall k :: 0 <= k < lo ==> b[k] == a[k])
      && (forall k :: hi <= k < |a| ==> b[k] == a[k])
      && (forall k :: lo <= k < hi ==> b[k] == p[k - lo])
  {
    var b := Splice(a, lo, hi, p);
    forall k | 0 <= k < hi - lo ensures b[lo..hi][k] == p[k] {
      assert b[lo + k] == p[k];
    }
  }

  /** Two splices side by side are one splice of both parts. */
  lemma SpliceAdjacent(a: seq<PalIndex>, lo: nat, mid: nat, hi: nat, p: seq<PalIndex>, q: seq<PalIndex>)
    requires lo <= mid <= hi <= |a| && |p| == mid - lo && |q| == hi - mid
    ensures Splice(a, lo, mid, p)[mid..hi] == a[mid..hi]
    ensures Splice(Splice(a, lo, mid, p), mid, hi, q) == Splice(a, lo, hi, p + q)
  {
    var b := Splice(a, lo, mid, p);
    SpliceParts(a, lo, mid, p);
    forall k | 0 <= k < hi - mid ensures b[mid..hi][k] == a[mid..hi][k] {
      assert b[mid + k] == a[mid + k];
    }
    var c := Splice(b, mid, hi, q);
    var d := Splice(a, lo, hi, p + q);
    SpliceParts(b, mid, hi, q);
    SpliceParts(a, lo, hi, p + q);
    forall k | 0 <= k < |a| ensures c[k] == d[k] {
      if lo <= k < mid {
        assert (p + q)[k - lo] == p[k - lo];
      } else if mid <= k < hi {
        assert (p + q)[k - lo] == q[k - mid];
      }
    }
  }

  /** Splicing over all but the first element of a splice keeps that element. */
  lemma SpliceTail(a: seq<PalIndex>, lo: nat, hi: nat, t: seq<PalIndex>, x: seq<PalIndex>)
    requires lo < hi <= |a| && |t| == hi - lo && |x| == hi - lo - 1
    ensures Splice(Splice(a, lo, hi, t), lo + 1, hi, x) == Splice(a, lo, hi, [t[0]] + x)
  {
    var b := Splice(a, lo, hi, t);
    var c := Splice(b, lo + 1, hi, x);
    var d := Splice(a, lo, hi, [t[0]] + x);
    SpliceParts(a, lo, hi, t);
    SpliceParts(b, lo + 1, hi, x);
    SpliceParts(a, lo, hi, [t[0]] + x);
    forall k | 0 <= k < |a| ensures c[k] == d[k] {
      if lo + 1 <= k < hi {
        assert ([t[0]] + x)[k - lo] == x[k - (lo + 1)];
      }
    }
  }

  /** A slice of a slice is a slice of the whole. */
  lemma SliceOfSlice(a: seq<PalIndex>, lo: nat, hi: nat, i: nat, j: nat)
    requires lo <= hi <= |a| && i <= j <= hi - lo
    ensures a[lo..hi][i..j] == a[lo + i..lo + j]
  {
    forall k | 0 <= k < j - i ensures a[lo..hi][i..j][k] == a[lo + i..lo + j][k] {
      assert a[lo..hi][i + k] == a[lo + i + k];
    }
  }

  /** Rewriting everything after `lo` keeps the element at `lo`. */
  lemma SpliceHead(a: seq<PalIndex>, lo: nat, hi: nat, x: seq<PalIndex>)
    requires lo < hi <= |a| && |x| == hi - lo - 1
    ensures Splice(a, lo + 1, hi, x) == Splice(a, lo, hi, [a[lo]] + x)
  {
    assert a[..lo + 1] == a[..lo] + [a[lo]];
  }

  /** A second splice of the same range overrides the first. */
  lemma SpliceTwice(a: seq<PalIndex>, lo: nat, hi: nat, p: seq<PalIndex>, q: seq<PalIndex>)
    requires lo <= hi <= |a| && |p| == hi - lo && |q| == hi - lo
    ensures Splice(Splice(a, lo, hi, p), lo, hi, q) == Splice(a, lo, hi, q)
  {
    var b := Splice(a, lo, hi, p);
    assert b[..lo] == a[..lo];
    assert b[hi..] == a[hi..];
  }

  /** The parts of `t` that construction splits it into, at `m`. */
  lemma Halves(t: seq<PalIndex>, m: nat)
    requires 1 <= m <= |t|
    ensures t[1..] == t[1..m] + t[m..]
  {
    assert t[1..] == t[1..m] + t[m..];
  }

  /** Filling one more slot of a leaf from the slice `rest`. */
  lemma LeafSlotStep(palette: Palette, rest: seq<PalIndex>, j: nat)
    requires j < LEAF_MAX_SIZE && j < |rest|
    ensures LeafIdxs(palette, rest[..j + 1])
         == LeafIdxs(palette, rest[..j])[j := if rest[j] < |palette| then rest[j] else 0]
    ensures LeafColors(palette, rest[..j + 1])
         == LeafColors(palette, rest[..j])[j := if rest[j] < |palette| then palette[rest[j]].color else Transparent]
  {
  }

  /** Only the first six indexes of the slice reach the leaf slots. */
  lemma LeafSlotsFull(palette: Palette, rest: seq<PalIndex>, j: nat)
    requires j <= |rest| && (j == LEAF_MAX_SIZE || j == |rest|)
    ensures LeafIdxs(palette, rest[..j]) == LeafIdxs(palette, rest)
    ensures LeafColors(palette, rest[..j]) == LeafColors(palette, rest)
  {
  }

  /** Fills the six leaf slots from `indexes[lo..hi]`. */
  method FillLeaf(palette: Palette, indexes: array<PalIndex>, lo: nat, hi: nat)
    returns (idxs: seq<PalIndex>, colors: seq<Color>)
    requires lo <= hi <= indexes.Length
    ensures idxs == LeafIdxs(palette, indexes[..][lo..hi])
    ensures colors == LeafColors(palette, indexes[..][lo..hi])
  {
    var idxArr := new PalIndex[LEAF_MAX_SIZE](_ => 0);
    var colorArr := new Color[LEAF_MAX_SIZE](_ => Transparent);
    ghost var rest := indexes[..][lo..hi];
    assert idxArr[..] == LeafIdxs(palette, rest[..0]);
    assert colorArr[..] == LeafColors(palette, rest[..0]);
    var j := 0;
    while j < LEAF_MAX_SIZE && lo + j < hi
      invariant 0 <= j <= LEAF_MAX_SIZE && lo + j <= hi
      invariant idxArr[..] == LeafIdxs(palette, rest[..j])
      invariant colorArr[..] == LeafColors(palette, rest[..j])
    {
      var i := indexes[lo + j];
      LeafSlotStep(palette, rest, j);
      if i < |palette| {
        idxArr[j] := i;
        colorArr[j] := palette[i].color;
      }
      j := j + 1;
    }
    LeafSlotsFull(palette, rest, j);
    idxs, colors := idxArr[..], colorArr[..];
  }

  /** `slice.swap(i, j)` */
  method Swap(indexes: array<PalIndex>, i: nat, j: nat)
    requires i < indexes.Length && j < indexes.Length
    modifies indexes
    ensures indexes[..] == old(indexes[..])[i := old(indexes[j])][j := old(indexes[i])]
  {
    var tmp := indexes[i];
    indexes[i] := indexes[j];
    indexes[j] := tmp;
  }

  /** Copies `p` over `indexes[lo..hi]`. */
  method WriteBack(indexes: array<PalIndex>, lo: nat, hi: nat, p: seq<PalIndex>)
    requires lo <= hi <= indexes.Length && |p| == hi - lo
    modifies indexes
    ensures indexes[..] == Splice(old(indexes[..]), lo, hi, p)
  {
    forall k | lo <= k < hi {
      indexes[k] := p[k - lo];
    }
    ghost var a := old(indexes[..]);
    SpliceParts(a, lo, hi, p);
    assert indexes[..] == Splice(a, lo, hi, p);
  }

  /**
   * Moves the most popular index of `indexes[lo..hi]` to `lo` and sorts the
   * rest of the slice by distance to it.
   */
  method PlaceVantage(path: Path, indexes: array<PalIndex>, lo: nat, hi: nat, palette: Palette, ghost s: seq<PalIndex>)
    requires lo < hi <= indexes.Length && indexes[lo..hi] == s
    modifies indexes
    ensures indexes[..] == Splice(old(indexes[..]), lo, hi, VantageFirst(path, palette, s))
  {
    ghost var a := indexes[..];
    var mostPopularItem := MostPopular(palette, indexes[lo..hi]);
    Swap(indexes, lo, lo + mostPopularItem);
    ghost var b := indexes[..];
    ghost var w := SwapFront(s, mostPopularItem);
    assert b == Splice(a, lo, hi, w) by {
      SpliceParts(a, lo, hi, w);
    }
    SpliceParts(a, lo, hi, w);

    var vantagePoint := ColorAt(palette, indexes[lo]);
    var sorted := SortByKey(KeyFrom(path, palette, vantagePoint), indexes[lo + 1..hi]);
    assert indexes[lo + 1..hi] == w[1..] by {
      forall k | 0 <= k < hi - lo - 1 ensures indexes[lo + 1..hi][k] == w[1..][k] {
        assert b[lo + 1 + k] == w[1 + k];
      }
    }
    WriteBack(indexes, lo + 1, hi, sorted);
    SpliceTail(a, lo, hi, w, sorted);
  }

  /**
   * `vp_create_node`: builds the tree for the slice `s` held in
   * `indexes[lo..hi]`, reordering that part of the array and nothing else.
   */
  method CreateNode(path: Path, sqrt: real -> real, indexes: array<PalIndex>, lo: nat, hi: nat, palette: Palette,
                    ghost s: seq<PalIndex>)
    returns (node: Node)
    requires lo <= hi <= indexes.Length && indexes[lo..hi] == s
    modifies indexes
    ensures node == Build(path, sqrt, palette, s)
    ensures indexes[..] == Splice(old(indexes[..]), lo, hi, Permuted(path, palette, s))
    decreases hi - lo, 2
  {
    ghost var a := indexes[..];
    if hi - lo <= 1 {
      var idx := if hi - lo == 1 then indexes[lo] else 0;
      var vantagePoint := ColorAt(palette, idx);
      var idxs, colors := FillLeaf(palette, indexes, lo, lo);
      assert a[lo..lo] == [];
      assert a == Splice(a, lo, hi, s);
      return Node(vantagePoint, Leaf(0, idxs, colors), idx);
    }

    PlaceVantage(path, indexes, lo, hi, palette, s);
    ghost var t := VantageFirst(path, palette, s);
    SpliceParts(a, lo, hi, t);
    if hi - (lo + 1) <= LEAF_MAX_SIZE {
      LeafStep(path, sqrt, palette, s);
      LeafPermutedStep(path, palette, s);
      node := CreateLeaf(indexes, lo, hi, palette, t);
    } else {
      BuildStep(path, sqrt, palette, s);
      PermutedStep(path, palette, s);
      node := CreateSplit(path, sqrt, indexes, lo, hi, palette, t);
      ghost var m := Mid(|t|);
      SpliceTwice(a, lo, hi, t, [t[0]] + (Permuted(path, palette, t[1..m]) + Permuted(path, palette, t[m..])));
    }
  }

  /** A leaf holding the slice `t` after its vantage point `t[0]`. */
  method CreateLeaf(indexes: array<PalIndex>, lo: nat, hi: nat, palette: Palette, ghost t: seq<PalIndex>)
    returns (node: Node)
    requires lo < hi <= indexes.Length && hi - (lo + 1) <= LEAF_MAX_SIZE && indexes[lo..hi] == t
    ensures node == Node(ColorAt(palette, t[0]), Leaf(|t| - 1, LeafIdxs(palette, t[1..]), LeafColors(palette, t[1..])), t[0])
  {
    var refIdx := indexes[lo];
    var vantagePoint := ColorAt(palette, refIdx);
    var idxs, colors := FillLeaf(palette, indexes, lo + 1, hi);
    SliceOfSlice(indexes[..], lo, hi, 1, hi - lo);
    return Node(vantagePoint, Leaf(hi - (lo + 1), idxs, colors), refIdx);
  }

  /**
   * An inner node around the vantage point `t[0]`: the far half starts at the
   * median position, whose distance from the vantage point is the radius.
   */
  method CreateSplit(path: Path, sqrt: real -> real, indexes: array<PalIndex>, lo: nat, hi: nat, palette: Palette,
                     ghost t: seq<PalIndex>)
    returns (node: Node)
    requires lo < hi <= indexes.Length && hi - (lo + 1) > LEAF_MAX_SIZE && indexes[lo..hi] == t
    modifies indexes
    ensures var m := Mid(|t|);
      var radiusSquared := Key(path, palette, ColorAt(palette, t[0]), t[m]);
      node == Node(ColorAt(palette, t[0]),
                   Nodes(sqrt(radiusSquared), radiusSquared,
                         Build(path, sqrt, palette, t[1..m]), Build(path, sqrt, palette, t[m..])),
                   t[0])
    ensures var m := Mid(|t|);
      indexes[..] == Splice(old(indexes[..]), lo, hi,
        [t[0]] + (Permuted(path, palette, t[1..m]) + Permuted(path, palette, t[m..])))
    decreases hi - lo, 1
  {
    ghost var a := indexes[..];
    var refIdx := indexes[lo];
    var vantagePoint := ColorAt(palette, refIdx);
    var mid := lo + Mid(hi - lo);
    ghost var m := Mid(|t|);
    SliceOfSlice(a, lo, hi, 1, m);
    SliceOfSlice(a, lo, hi, m, |t|);
    var radiusSquared := Key(path, palette, vantagePoint, indexes[mid]);
    var radius := sqrt(radiusSquared);
    var near, far := CreateChildren(path, sqrt, indexes, lo + 1, mid, hi, palette, t[1..m], t[m..]);
    SpliceHead(a, lo, hi, Permuted(path, palette, t[1..m]) + Permuted(path, palette, t[m..]));
    return Node(vantagePoint, Nodes(radius, radiusSquared, near, far), refIdx);
  }

  /** The two recursive calls of `vp_create_node`, on `p` in `[lo, mid)` and `q` in `[mid, hi)`. */
  method CreateChildren(path: Path, sqrt: real -> real, indexes: array<PalIndex>, lo: nat, mid: nat, hi: nat, palette: Palette,
                        ghost p: seq<PalIndex>, ghost q: seq<PalIndex>)
    returns (near: Node, far: Node)
    requires lo < mid < hi <= indexes.Length && indexes[lo..mid] == p && indexes[mid..hi] == q
    modifies indexes
    ensures near == Build(path, sqrt, palette, p)
    ensures far == Build(path, sqrt, palette, q)
    ensures indexes[..] == Splice(old(indexes[..]), lo, hi, Permuted(path, palette, p) + Permuted(path, palette, q))
    decreases hi - lo, 0
  {
    ghost var a := indexes[..];
    near := CreateNode(path, sqrt, indexes, lo, mid, palette, p);
    SpliceAdjacent(a, lo, mid, hi, Permuted(path, palette, p), Permuted(path, palette, q));
    far := CreateNode(path, sqrt, indexes, mid, hi, palette, q);
  }
}
