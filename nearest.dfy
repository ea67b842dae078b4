/**
 * The nearest-colour index of `src/nearest.rs` (`Nearest`): a vantage-point
 * tree over the palette, plus for every palette entry a quarter of the
 * squared distance to its nearest other entry, which lets a search accept a
 * likely index without descending the tree.
 */
module Nearest {
  import opened Wrappers
  import opened Pal
  import opened Simd
  import opened Metric
  import opened Visitor
  import opened VpTree
  import opened VpTreeFacts
  import opened VpSearch

  /** `(0..palette.len()).map(|idx| MapIndex { idx })` */
  function Range(n: nat): (s: seq<PalIndex>)
    requires n <= MAX_COLORS
    ensures |s| == n && forall j :: 0 <= j < n ==> s[j] == j
  {
    seq(n, j requires 0 <= j < n => j)
  }

  /** The distance path a tree was built with: `new_simd` when a token was summoned, else `new_scalar`. */
  function BuildPath(hasSimd: bool): Path
  {
    if hasSimd then Vector(Desktop64) else Scalar
  }

  /** The visitor of the warm-up search for entry `i`: nothing found yet, `i` itself excluded. */
  function WarmUpStart(i: PalIndex): VisitState
  {
    VisitState(Infinity, Infinity, 0, Some(i))
  }

  /** `best.distance_squared` after the warm-up search for entry `i`. */
  function NearestOther(path: Path, sqrt: real -> real, root: Node, palette: Palette, i: PalIndex): Extended
    requires i < |palette|
  {
    SearchNode(path, sqrt, root, palette[i].color, WarmUpStart(i)).distanceSquared
  }

  /** The tree `new` builds over the whole palette. */
  function Tree(path: Path, sqrt: real -> real, palette: Palette): Node
    requires |palette| <= MAX_COLORS
  {
    Build(path, sqrt, palette, Range(|palette|))
  }

  class Nearest {
    const root: Node
    const palette: Palette
    /** `nearest_other_color_dist`; entries past the palette keep their initial `0.` */
    const nearestOtherColorDist: array<Extended>
    const hasSimd: bool
    /** `f32::sqrt`, which the model takes as a parameter. */
    const sqrt: real -> real

    ghost predicate Valid()
      reads this, nearestOtherColorDist
    {
      && 1 <= |palette| <= MAX_COLORS
      && nearestOtherColorDist.Length == MAX_COLORS
      && root == Tree(BuildPath(hasSimd), sqrt, palette)
      && (forall i :: 0 <= i < |palette| ==>
            nearestOtherColorDist[i] == Quarter(NearestOther(BuildPath(hasSimd), sqrt, root, palette, i)))
      && forall i :: |palette| <= i < MAX_COLORS ==> nearestOtherColorDist[i] == Finite(0.0)
    }

    constructor (root: Node, palette: Palette, hasSimd: bool, sqrt: real -> real)
      ensures this.root == root && this.palette == palette && this.hasSimd == hasSimd && this.sqrt == sqrt
      ensures fresh(nearestOtherColorDist) && nearestOtherColorDist.Length == MAX_COLORS
      ensures forall i :: 0 <= i < MAX_COLORS ==> nearestOtherColorDist[i] == Finite(0.0)
    {
      this.root := root;
      this.palette := palette;
      this.hasSimd := hasSimd;
      this.sqrt := sqrt;
      nearestOtherColorDist := new Extended[MAX_COLORS](_ => Finite(0.0));
    }

    /**
     * `Nearest::new`: refuses an empty palette and one with more entries than
     * `PalIndex` can name; otherwise builds the tree on the path the CPU
     * offers and records, for every entry, a quarter of the squared distance
     * to its nearest other entry.
     */
    static method New(target: Target, sqrt: real -> real, palette: Palette) returns (r: Result<Nearest, Error>)
      ensures r.Failure? <==> |palette| > PAL_INDEX_MAX + 1 || |palette| == 0
      ensures r.Failure? ==> r.error == Unsupported
      ensures r.Success? ==> && fresh(r.value) && fresh(r.value.nearestOtherColorDist) && r.value.Valid()
                             && r.value.palette == palette && r.value.sqrt == sqrt
                             && r.value.hasSimd == SummonToken(target).Some?
    {
      var token := SummonToken(target);
      var path := if token.Some? then Vector(token.value) else Scalar;
      if |palette| > PAL_INDEX_MAX + 1 {
        return Failure(Unsupported);
      }
      if |palette| == 0 {
        return Failure(Unsupported);
      }
      var root := CreateTree(path, sqrt, palette);
      var handle := new Nearest(root, palette, token.Some?, sqrt);
      assert path == BuildPath(handle.hasSimd);
      for i := 0 to |palette|
        invariant forall k :: 0 <= k < i ==>
          handle.nearestOtherColorDist[k] == Quarter(NearestOther(path, sqrt, root, palette, k))
        invariant forall k :: |palette| <= k < MAX_COLORS ==> handle.nearestOtherColorDist[k] == Finite(0.0)
      {
        var best := new Visitor(Infinity, Infinity, 0, Some(i));
        VpSearchNode(path, sqrt, root, palette[i].color, best);
        WarmUpStep(path, sqrt, root, palette, handle.nearestOtherColorDist, i, best.distanceSquared);
      }
      return Success(handle);
    }

    /**
     * `Nearest::search`: the index of a palette entry nearest to `px`, and its
     * squared distance. A likely index whose distance is below its recorded
     * bound is returned at once.
     */
    method Search(target: Target, px: Color, likely: PalIndex) returns (idx: PalIndex, dist: real)
      requires Valid()
      ensures idx < |palette| && dist == DiffScalar(px, palette[idx].color)
      ensures likely < |palette| && Below(DiffScalar(px, palette[likely].color), nearestOtherColorDist[likely])
              ==> idx == likely
      ensures likely < |palette| ==> dist <= DiffScalar(px, palette[likely].color)
      ensures IsSqrt(sqrt) ==> forall j :: 0 <= j < |palette| ==> dist <= DiffScalar(px, palette[j].color)
    {
      var path := Scalar;
      if hasSimd {
        var token := SummonToken(target);
        if token.Some? {
          path := Vector(token.value);
        }
      }
      var best: Visitor;
      if likely < |palette| {
        var guessDiff := DiffOn(path, px, palette[likely].color);
        if Below(guessDiff, nearestOtherColorDist[likely]) {
          if IsSqrt(sqrt) {
            FastPath(BuildPath(hasSimd), sqrt, palette, px, likely);
          }
          return likely, guessDiff;
        }
        best := new Visitor(Finite(sqrt(guessDiff)), Finite(guessDiff), likely, None);
      } else {
        best := new Visitor(Infinity, Infinity, 0, None);
      }
      ghost var start := best.State();
      VpSearchNode(path, sqrt, root, px, best);
      SlowPath(BuildPath(hasSimd), path, sqrt, palette, px, start);
      return best.idx, best.distanceSquared.value;
    }
  }

  /** `vp_create_node` on the indexes of the whole palette, in order. */
  method CreateTree(path: Path, sqrt: real -> real, palette: Palette) returns (root: Node)
    requires 1 <= |palette| <= MAX_COLORS
    ensures root == Tree(path, sqrt, palette)
  {
    var indexes := new PalIndex[|palette|](j requires 0 <= j < |palette| => j);
    assert indexes[..] == Range(|palette|);
    root := CreateNode(path, sqrt, indexes, 0, indexes.Length, palette, indexes[..]);
  }

  /** `handle.nearest_other_color_dist[i] = best.distance_squared / 4.` */
  method WarmUpStep(path: Path, sqrt: real -> real, root: Node, palette: Palette, dist: array<Extended>, i: PalIndex,
                    found: Extended)
    requires i < |palette| && i < dist.Length
    requires found == NearestOther(path, sqrt, root, palette, i)
    requires forall k :: 0 <= k < i ==> dist[k] == Quarter(NearestOther(path, sqrt, root, palette, k))
    modifies dist
    ensures forall k :: 0 <= k < i + 1 ==> dist[k] == Quarter(NearestOther(path, sqrt, root, palette, k))
    ensures forall k :: i < k < dist.Length ==> dist[k] == old(dist[k])
  {
    dist[i] := Quarter(found);
  }

  // ---------------------------------------------------------------------
  // Why the answers are right.

  /** Every index of the palette has a candidate in the tree, carrying its colour. */
  lemma EntryOfIndex(path: Path, sqrt: real -> real, palette: Palette, j: nat) returns (e: Entry)
    requires 1 <= |palette| <= MAX_COLORS && j < |palette|
    ensures e in Entries(Tree(path, sqrt, palette)) && e.idx == j && e.color == palette[j].color
  {
    var s := Range(|palette|);
    assert s[j] == j;
    e := EntryFor(path, sqrt, palette, s, j);
  }

  /** Every candidate of the tree is an index of the palette with its colour. */
  lemma IndexOfEntry(path: Path, sqrt: real -> real, palette: Palette, e: Entry)
    requires 1 <= |palette| <= MAX_COLORS && e in Entries(Tree(path, sqrt, palette))
    ensures e.idx < |palette| && e.color == palette[e.idx].color
  {
    EntryOrigin(path, sqrt, palette, Range(|palette|), e);
  }

  /** The tree over the whole palette is separated. */
  lemma TreeSeparated(path: Path, sqrt: real -> real, palette: Palette)
    requires |palette| <= MAX_COLORS
    ensures Separated(sqrt, Tree(path, sqrt, palette))
  {
    BuildSeparated(path, sqrt, palette, Range(|palette|));
  }

  /**
   * The warm-up search for entry `i` ends either on the sentinel or on the
   * squared distance from entry `i` to some OTHER entry of the palette.
   */
  lemma NearestOtherFound(path: Path, sqrt: real -> real, palette: Palette, i: PalIndex)
    requires 1 <= |palette| <= MAX_COLORS && i < |palette|
    ensures var w := NearestOther(path, sqrt, Tree(path, sqrt, palette), palette, i);
      w.Finite? ==> exists j :: 0 <= j < |palette| && j != i && w.value == DiffScalar(palette[j].color, palette[i].color)
  {
    var root := Tree(path, sqrt, palette);
    var needle := palette[i].color;
    var r := SearchNode(path, sqrt, root, needle, WarmUpStart(i));
    SearchFound(path, sqrt, root, needle, WarmUpStart(i));
    SearchKeeps(path, sqrt, root, needle, WarmUpStart(i));
    if r != WarmUpStart(i) {
      var e :| e in Entries(root) && AdoptedFrom(sqrt, needle, r, e);
      IndexOfEntry(path, sqrt, palette, e);
      assert e.idx != i && r.distanceSquared.value == DiffScalar(palette[e.idx].color, needle);
    }
  }

  /**
   * With an exact square root, the warm-up search for entry `i` ends no
   * farther from entry `i` than any other entry.
   */
  lemma NearestOtherBound(path: Path, sqrt: real -> real, palette: Palette, i: PalIndex)
    requires IsSqrt(sqrt) && 1 <= |palette| <= MAX_COLORS && i < |palette|
    ensures var w := NearestOther(path, sqrt, Tree(path, sqrt, palette), palette, i);
      forall j :: 0 <= j < |palette| && j != i ==> AtMost(w, DiffScalar(palette[j].color, palette[i].color))
  {
    var root := Tree(path, sqrt, palette);
    var needle := palette[i].color;
    var r := SearchNode(path, sqrt, root, needle, WarmUpStart(i));
    TreeSeparated(path, sqrt, palette);
    SearchOptimal(path, sqrt, root, needle, WarmUpStart(i));
    SearchKeeps(path, sqrt, root, needle, WarmUpStart(i));
    forall j | 0 <= j < |palette| && j != i
      ensures AtMost(r.distanceSquared, DiffScalar(palette[j].color, needle))
    {
      var e := EntryOfIndex(path, sqrt, palette, j);
      BestAmongAt(r, needle, Entries(root), e);
    }
  }

  /**
   * `nearest_other_color_dist[i]` is a quarter of the squared distance from
   * entry `i` to its nearest other entry: the warm-up search ends on the
   * sentinel exactly when `i` is the only entry, and otherwise on the
   * smallest squared distance from entry `i` to another entry.
   */
  lemma NearestOtherColor(path: Path, sqrt: real -> real, palette: Palette, i: PalIndex)
    requires IsSqrt(sqrt) && 1 <= |palette| <= MAX_COLORS && i < |palette|
    ensures var w := NearestOther(path, sqrt, Tree(path, sqrt, palette), palette, i);
      && (w.Infinity? <==> |palette| == 1)
      && (forall j :: 0 <= j < |palette| && j != i ==> AtMost(w, DiffScalar(palette[j].color, palette[i].color)))
      && (w.Finite? ==> exists j :: 0 <= j < |palette| && j != i && w.value == DiffScalar(palette[j].color, palette[i].color))
  {
    var w := NearestOther(path, sqrt, Tree(path, sqrt, palette), palette, i);
    NearestOtherFound(path, sqrt, palette, i);
    NearestOtherBound(path, sqrt, palette, i);
    if |palette| > 1 {
      var j := if i == 0 then 1 else 0;
      assert AtMost(w, DiffScalar(palette[j].color, palette[i].color));
    }
  }

  /**
   * The triangle inequality behind the fast path: when `px` is closer to
   * `likely` than a quarter of the squared distance from `likely` to
   * `other`, it is strictly closer to `likely` than to `other`.
   */
  lemma FastPathSound(sqrt: real -> real, px: Color, likely: Color, other: Color, w: Extended)
    requires IsSqrt(sqrt) && AtMost(w, DiffScalar(other, likely))
    requires Below(DiffScalar(px, likely), Quarter(w))
    ensures DiffScalar(px, likely) < DiffScalar(px, other)
  {
    var guess := DiffScalar(px, likely);
    var apart := DiffScalar(other, likely);
    var g, a, h := sqrt(guess), sqrt(apart), sqrt(DiffScalar(px, other));
    SqrtIsRoot(sqrt, guess);
    SqrtIsRoot(sqrt, apart);
    RootQuarter(a, apart);
    RootOrder(g, guess, a / 2.0, apart / 4.0);
    Triangle(sqrt, likely, px, other);
    DiffSymmetric(likely, other);
    DiffSymmetric(likely, px);
    SqrtOrder(sqrt, guess, DiffScalar(px, other));
  }

  /** The fast path of `search` returns an entry nearest to `px`. */
  lemma FastPath(path: Path, sqrt: real -> real, palette: Palette, px: Color, likely: PalIndex)
    requires IsSqrt(sqrt) && 1 <= |palette| <= MAX_COLORS && likely < |palette|
    requires Below(DiffScalar(px, palette[likely].color),
                   Quarter(NearestOther(path, sqrt, Tree(path, sqrt, palette), palette, likely)))
    ensures forall j :: 0 <= j < |palette| ==> DiffScalar(px, palette[likely].color) <= DiffScalar(px, palette[j].color)
  {
    var w := NearestOther(path, sqrt, Tree(path, sqrt, palette), palette, likely);
    NearestOtherColor(path, sqrt, palette, likely);
    forall j | 0 <= j < |palette| && j != likely
      ensures DiffScalar(px, palette[likely].color) <= DiffScalar(px, palette[j].color)
    {
      FastPathSound(sqrt, px, palette[likely].color, palette[j].color, w);
    }
  }

  /**
   * The search from a start state with no exclusion ends on an entry of the
   * palette with that entry's distance, and with an exact square root and a
   * consistent start it is the nearest entry.
   */
  lemma SlowPath(buildPath: Path, path: Path, sqrt: real -> real, palette: Palette, px: Color, st: VisitState)
    requires 1 <= |palette| <= MAX_COLORS && st.exclude == None
    requires st.distanceSquared.Infinity?
             || (st.idx < |palette| && st.distanceSquared == Finite(DiffScalar(px, palette[st.idx].color)))
    ensures var r := SearchNode(path, sqrt, Tree(buildPath, sqrt, palette), px, st);
      && r.distanceSquared.Finite? && r.idx < |palette|
      && r.distanceSquared.value == DiffScalar(px, palette[r.idx].color)
      && (st.distanceSquared.Finite? ==> r.distanceSquared.value <= st.distanceSquared.value)
      && (IsSqrt(sqrt) && Consistent(sqrt, st) ==>
            forall j :: 0 <= j < |palette| ==> r.distanceSquared.value <= DiffScalar(px, palette[j].color))
  {
    var root := Tree(buildPath, sqrt, palette);
    var r := SearchNode(path, sqrt, root, px, st);
    SearchFound(path, sqrt, root, px, st);
    SearchFinite(path, sqrt, root, px, st);
    SearchKeeps(path, sqrt, root, px, st);
    if r != st {
      var e :| e in Entries(root) && AdoptedFrom(sqrt, px, r, e);
      IndexOfEntry(buildPath, sqrt, palette, e);
      DiffSymmetric(e.color, px);
    }
    if IsSqrt(sqrt) && Consistent(sqrt, st) {
      TreeSeparated(buildPath, sqrt, palette);
      SearchOptimal(path, sqrt, root, px, st);
      SearchKeeps(path, sqrt, root, px, st);
      forall j | 0 <= j < |palette|
        ensures r.distanceSquared.value <= DiffScalar(px, palette[j].color)
      {
        var e := EntryOfIndex(buildPath, sqrt, palette, j);
        BestAmongAt(r, px, Entries(root), e);
        DiffSymmetric(e.color, px);
      }
    }
  }
}
