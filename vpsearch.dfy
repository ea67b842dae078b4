/**
 * The search of `src/nearest.rs` (`vp_search_node_scalar` /
 * `vp_search_node_simd`): a descent of the vantage-point tree that offers
 * every vantage point it passes, and every leaf slot it reaches, to a
 * `Visitor`, and skips a subtree when the triangle inequality shows that it
 * cannot hold anything closer than the best candidate so far.
 */
module VpSearch {
  import opened Wrappers
  import opened Pal
  import opened Simd
  import opened Metric
  import opened Visitor
  import opened VpTree
  import opened VpTreeFacts

  /** `distance >= radius - best.distance`: the far subtree may still hold a closer entry. */
  predicate FarReachable(distance: real, radius: real, best: Extended)
  {
    best.Infinity? || distance >= radius - best.value
  }

  /** `distance <= radius + best.distance`: the near subtree may still hold a closer entry. */
  predicate NearReachable(distance: real, radius: real, best: Extended)
  {
    best.Infinity? || distance <= radius + best.value
  }

  /** The leaf loop: every slot, in order, offered to the visitor. */
  function VisitAll(path: Path, sqrt: real -> real, needle: Color, st: VisitState, es: seq<Entry>): VisitState
    decreases |es|
  {
    if |es| == 0 then st
    else
      var last := es[|es| - 1];
      var distanceSquared := DiffOn(path, last.color, needle);
      Visited(VisitAll(path, sqrt, needle, st, es[..|es| - 1]), sqrt(distanceSquared), distanceSquared, last.idx)
  }

  /** The state a search of the subtree `n` for `needle` leaves the visitor in. */
  function SearchNode(path: Path, sqrt: real -> real, n: Node, needle: Color, st: VisitState): VisitState
    decreases n
  {
    var distanceSquared := DiffOn(path, n.vantagePoint, needle);
    var distance := sqrt(distanceSquared);
    var st1 := Visited(st, distance, distanceSquared, n.idx);
    match n.inner
    case Nodes(radius, radiusSquared, near, far) =>
      if distanceSquared < radiusSquared then
        var st2 := SearchNode(path, sqrt, near, needle, st1);
        if FarReachable(distance, radius, st2.distance) then SearchNode(path, sqrt, far, needle, st2) else st2
      else
        var st2 := SearchNode(path, sqrt, far, needle, st1);
        if NearReachable(distance, radius, st2.distance) then SearchNode(path, sqrt, near, needle, st2) else st2
    case Leaf(len, idxs, colors) =>
      VisitAll(path, sqrt, needle, st1, LeafEntries(len, idxs, colors))
  }

  // ---------------------------------------------------------------------
  // The imperative search.

  /**
   * `vp_search_node`: the loop follows one child in place and recurses into
   * the other; a leaf ends the loop.
   */
  method VpSearchNode(path: Path, sqrt: real -> real, node: Node, needle: Color, best: Visitor)
    modifies best
    ensures best.State() == SearchNode(path, sqrt, node, needle, old(best.State()))
    decreases Height(node)
  {
    var n := node;
    while true
      invariant Height(n) <= Height(node)
      invariant SearchNode(path, sqrt, node, needle, old(best.State())) == SearchNode(path, sqrt, n, needle, best.State())
      decreases Height(n)
    {
      var distanceSquared := DiffOn(path, n.vantagePoint, needle);
      var distance := sqrt(distanceSquared);
      best.Visit(distance, distanceSquared, n.idx);
      match n.inner {
        case Nodes(radius, radiusSquared, near, far) =>
          if distanceSquared < radiusSquared {
            VpSearchNode(path, sqrt, near, needle, best);
            if FarReachable(distance, radius, best.distance) {
              n := far;
            } else {
              break;
            }
          } else {
            VpSearchNode(path, sqrt, far, needle, best);
            if NearReachable(distance, radius, best.distance) {
              n := near;
            } else {
              break;
            }
          }
        case Leaf(len, idxs, colors) =>
          VisitLeaf(path, sqrt, len, idxs, colors, needle, best);
          break;
      }
    }
  }

  /** `colors.iter().zip(idxs).take(len).for_each(...)` */
  method VisitLeaf(path: Path, sqrt: real -> real, len: nat, idxs: seq<PalIndex>, colors: seq<Color>,
                   needle: Color, best: Visitor)
    modifies best
    ensures best.State() == VisitAll(path, sqrt, needle, old(best.State()), LeafEntries(len, idxs, colors))
  {
    ghost var es := LeafEntries(len, idxs, colors);
    var count := LeafCount(len, idxs, colors);
    for k := 0 to count
      invariant best.State() == VisitAll(path, sqrt, needle, old(best.State()), es[..k])
    {
      var distanceSquared := DiffOn(path, colors[k], needle);
      best.Visit(sqrt(distanceSquared), distanceSquared, idxs[k]);
      assert es[..k + 1][..k] == es[..k];
    }
    assert es[..count] == es;
  }

  // ---------------------------------------------------------------------
  // What a search keeps.

  /** `distance` is the root of `distance_squared`, and both are the sentinel together. */
  ghost predicate Consistent(sqrt: real -> real, st: VisitState)
  {
    && (st.distance.Infinity? <==> st.distanceSquared.Infinity?)
    && (st.distanceSquared.Finite? ==> 0.0 <= st.distanceSquared.value && st.distance.value == sqrt(st.distanceSquared.value))
  }

  /** The visitor's exclusion never changes and its best distance never grows. */
  lemma {:induction false} VisitAllKeeps(path: Path, sqrt: real -> real, needle: Color, st: VisitState, es: seq<Entry>)
    ensures var r := VisitAll(path, sqrt, needle, st, es);
      r.exclude == st.exclude && NoWorse(r.distanceSquared, st.distanceSquared)
      && (Consistent(sqrt, st) ==> Consistent(sqrt, r))
    decreases |es|
  {
    if |es| > 0 {
      VisitAllKeeps(path, sqrt, needle, st, es[..|es| - 1]);
    }
  }

  /** The visitor's exclusion never changes, its best distance never grows, and its two distances stay consistent. */
  lemma {:induction false} SearchKeeps(path: Path, sqrt: real -> real, n: Node, needle: Color, st: VisitState)
    ensures var r := SearchNode(path, sqrt, n, needle, st);
      r.exclude == st.exclude && NoWorse(r.distanceSquared, st.distanceSquared)
      && (Consistent(sqrt, st) ==> Consistent(sqrt, r))
    decreases n
  {
    var distanceSquared := DiffOn(path, n.vantagePoint, needle);
    var distance := sqrt(distanceSquared);
    var st1 := Visited(st, distance, distanceSquared, n.idx);
    match n.inner
    case Nodes(radius, radiusSquared, near, far) =>
      if distanceSquared < radiusSquared {
        SearchKeeps(path, sqrt, near, needle, st1);
        SearchKeeps(path, sqrt, far, needle, SearchNode(path, sqrt, near, needle, st1));
      } else {
        SearchKeeps(path, sqrt, far, needle, st1);
        SearchKeeps(path, sqrt, near, needle, SearchNode(path, sqrt, far, needle, st1));
      }
    case Leaf(len, idxs, colors) =>
      VisitAllKeeps(path, sqrt, needle, st1, LeafEntries(len, idxs, colors));
  }

  /** Without an exclusion, the vantage point of the root is always adopted or beaten. */
  lemma SearchFinite(path: Path, sqrt: real -> real, n: Node, needle: Color, st: VisitState)
    requires st.exclude == None
    ensures SearchNode(path, sqrt, n, needle, st).distanceSquared.Finite?
  {
    var distanceSquared := DiffOn(path, n.vantagePoint, needle);
    var st1 := Visited(st, sqrt(distanceSquared), distanceSquared, n.idx);
    match n.inner
    case Nodes(radius, radiusSquared, near, far) =>
      var (first, second) := if distanceSquared < radiusSquared then (near, far) else (far, near);
      SearchKeeps(path, sqrt, first, needle, st1);
      SearchKeeps(path, sqrt, second, needle, SearchNode(path, sqrt, first, needle, st1));
    case Leaf(len, idxs, colors) =>
      VisitAllKeeps(path, sqrt, needle, st1, LeafEntries(len, idxs, colors));
  }

  // ---------------------------------------------------------------------
  // Where the answer comes from.

  /** `r` is the candidate `e` adopted: its index and its two distances to `needle`. */
  ghost predicate AdoptedFrom(sqrt: real -> real, needle: Color, r: VisitState, e: Entry)
  {
    && r.idx == e.idx && r.exclude != Some(e.idx)
    && r.distanceSquared == Finite(DiffScalar(e.color, needle))
    && r.distance == Finite(sqrt(DiffScalar(e.color, needle)))
  }

  /** The leaf loop either leaves the visitor alone or adopts one of the slots. */
  lemma {:induction false} VisitAllFound(path: Path, sqrt: real -> real, needle: Color, st: VisitState, es: seq<Entry>)
    ensures var r := VisitAll(path, sqrt, needle, st, es);
      r == st || exists e :: e in es && AdoptedFrom(sqrt, needle, r, e)
    decreases |es|
  {
    if |es| > 0 {
      var front := es[..|es| - 1];
      VisitAllFound(path, sqrt, needle, st, front);
      var r0 := VisitAll(path, sqrt, needle, st, front);
      VisitAllKeeps(path, sqrt, needle, st, front);
      var r := VisitAll(path, sqrt, needle, st, es);
      if r != r0 {
        assert AdoptedFrom(sqrt, needle, r, es[|es| - 1]);
      } else if r0 != st {
        var e :| e in front && AdoptedFrom(sqrt, needle, r0, e);
        assert e in es;
      }
    }
  }

  /**
   * A search either leaves the visitor exactly as it found it or ends on a
   * candidate of the subtree: never on the excluded index, and always with
   * that candidate's own distances.
   */
  lemma {:induction false} SearchFound(path: Path, sqrt: real -> real, n: Node, needle: Color, st: VisitState)
    ensures var r := SearchNode(path, sqrt, n, needle, st);
      r == st || exists e :: e in Entries(n) && AdoptedFrom(sqrt, needle, r, e)
    decreases n
  {
    var distanceSquared := DiffOn(path, n.vantagePoint, needle);
    var distance := sqrt(distanceSquared);
    var st1 := Visited(st, distance, distanceSquared, n.idx);
    var head := [Entry(n.idx, n.vantagePoint)];
    var r := SearchNode(path, sqrt, n, needle, st);
    assert st1 == st || AdoptedFrom(sqrt, needle, st1, head[0]);
    match n.inner
    case Nodes(radius, radiusSquared, near, far) =>
      var nearFirst := distanceSquared < radiusSquared;
      var (first, second) := if nearFirst then (near, far) else (far, near);
      var st2 := SearchNode(path, sqrt, first, needle, st1);
      SearchFound(path, sqrt, first, needle, st1);
      ChildEntries(n, first);
      FoundChain(sqrt, needle, st, st1, st2, head, Entries(first), Entries(n));
      if r != st2 {
        assert r == SearchNode(path, sqrt, second, needle, st2);
        SearchFound(path, sqrt, second, needle, st2);
        ChildEntries(n, second);
        FoundChain(sqrt, needle, st, st2, r, Entries(n), Entries(second), Entries(n));
      }
    case Leaf(len, idxs, colors) =>
      var es := LeafEntries(len, idxs, colors);
      VisitAllFound(path, sqrt, needle, st1, es);
      assert forall e | e in es :: e in Entries(n);
      FoundChain(sqrt, needle, st, st1, r, head, es, Entries(n));
  }

  /** Two steps that each keep the state or adopt a candidate of their own lists keep it or adopt one of `all`. */
  lemma FoundChain(sqrt: real -> real, needle: Color, a: VisitState, b: VisitState, c: VisitState,
                   es1: seq<Entry>, es2: seq<Entry>, all: seq<Entry>)
    requires (forall e | e in es1 :: e in all) && (forall e | e in es2 :: e in all)
    requires b == a || exists e :: e in es1 && AdoptedFrom(sqrt, needle, b, e)
    requires c == b || exists e :: e in es2 && AdoptedFrom(sqrt, needle, c, e)
    ensures c == a || exists e :: e in all && AdoptedFrom(sqrt, needle, c, e)
  {
  }

  /** Every candidate of a child is a candidate of its parent. */
  lemma ChildEntries(n: Node, child: Node)
    requires n.inner.Nodes? && (child == n.inner.near || child == n.inner.far)
    ensures forall e | e in Entries(child) :: e in Entries(n)
  {
  }

  // ---------------------------------------------------------------------
  // The answer is the nearest candidate.

  /** `r` is at least as close to `needle` as every candidate of `es` that is not excluded. */
  ghost predicate BestAmong(r: VisitState, needle: Color, es: seq<Entry>)
  {
    forall e | e in es && r.exclude != Some(e.idx) :: AtMost(r.distanceSquared, DiffScalar(e.color, needle))
  }

  /** One candidate's instance of `BestAmong`. */
  lemma BestAmongAt(r: VisitState, needle: Color, es: seq<Entry>, e: Entry)
    requires BestAmong(r, needle, es) && e in es && r.exclude != Some(e.idx)
    ensures AtMost(r.distanceSquared, DiffScalar(e.color, needle))
  {
  }

  /** A state that is no worse, with the same exclusion, is still the best among the same candidates. */
  lemma BestAmongKept(st: VisitState, r: VisitState, needle: Color, es: seq<Entry>)
    requires BestAmong(st, needle, es) && r.exclude == st.exclude && NoWorse(r.distanceSquared, st.distanceSquared)
    ensures BestAmong(r, needle, es)
  {
  }

  /** After the leaf loop, the visitor is at least as close as every slot it was offered. */
  lemma {:induction false} VisitAllOptimal(path: Path, sqrt: real -> real, needle: Color, st: VisitState, es: seq<Entry>)
    ensures BestAmong(VisitAll(path, sqrt, needle, st, es), needle, es)
    decreases |es|
  {
    if |es| > 0 {
      var front := es[..|es| - 1];
      VisitAllOptimal(path, sqrt, needle, st, front);
      var r0 := VisitAll(path, sqrt, needle, st, front);
      var r := VisitAll(path, sqrt, needle, st, es);
      BestAmongKept(r0, r, needle, front);
      assert forall e | e in es :: e in front || e == es[|es| - 1];
    }
  }

  /**
   * Skipping the far subtree is safe: when `distance < radius - best.distance`,
   * every colour at least the squared radius away from the vantage point is
   * farther from the needle than the best candidate.
   */
  lemma FarPruned(sqrt: real -> real, vantage: Color, needle: Color, c: Color, radius: real, radiusSquared: real,
                  best: VisitState)
    requires IsSqrt(sqrt) && 0.0 <= radiusSquared && radius == sqrt(radiusSquared)
    requires radiusSquared <= DiffScalar(vantage, c)
    requires Consistent(sqrt, best) && !FarReachable(sqrt(DiffScalar(vantage, needle)), radius, best.distance)
    ensures AtMost(best.distanceSquared, DiffScalar(c, needle))
  {
    var bestSquared := best.distanceSquared.value;
    SqrtOrder(sqrt, radiusSquared, DiffScalar(vantage, c));
    Triangle(sqrt, vantage, needle, c);
    SqrtOrder(sqrt, bestSquared, DiffScalar(needle, c));
    DiffSymmetric(c, needle);
  }

  /**
   * Skipping the near subtree is safe: when `distance > radius + best.distance`,
   * every colour within the squared radius of the vantage point is farther
   * from the needle than the best candidate.
   */
  lemma NearPruned(sqrt: real -> real, vantage: Color, needle: Color, c: Color, radius: real, radiusSquared: real,
                   best: VisitState)
    requires IsSqrt(sqrt) && 0.0 <= radiusSquared && radius == sqrt(radiusSquared)
    requires DiffScalar(vantage, c) <= radiusSquared
    requires Consistent(sqrt, best) && !NearReachable(sqrt(DiffScalar(vantage, needle)), radius, best.distance)
    ensures AtMost(best.distanceSquared, DiffScalar(c, needle))
  {
    var bestSquared := best.distanceSquared.value;
    SqrtOrder(sqrt, DiffScalar(vantage, c), radiusSquared);
    Triangle(sqrt, vantage, c, needle);
    SqrtOrder(sqrt, bestSquared, DiffScalar(c, needle));
  }

  /** Every far candidate of a separated node the search may skip is no closer than the best one. */
  lemma FarSkipped(sqrt: real -> real, n: Node, needle: Color, best: VisitState)
    requires IsSqrt(sqrt) && n.inner.Nodes? && Separated(sqrt, n) && Consistent(sqrt, best)
    requires !FarReachable(sqrt(DiffScalar(n.vantagePoint, needle)), n.inner.radius, best.distance)
    ensures BestAmong(best, needle, Entries(n.inner.far))
  {
    forall e | e in Entries(n.inner.far)
      ensures AtMost(best.distanceSquared, DiffScalar(e.color, needle))
    {
      FarPruned(sqrt, n.vantagePoint, needle, e.color, n.inner.radius, n.inner.radiusSquared, best);
    }
  }

  /** Every near candidate of a separated node the search may skip is no closer than the best one. */
  lemma NearSkipped(sqrt: real -> real, n: Node, needle: Color, best: VisitState)
    requires IsSqrt(sqrt) && n.inner.Nodes? && Separated(sqrt, n) && Consistent(sqrt, best)
    requires !NearReachable(sqrt(DiffScalar(n.vantagePoint, needle)), n.inner.radius, best.distance)
    ensures BestAmong(best, needle, Entries(n.inner.near))
  {
    forall e | e in Entries(n.inner.near)
      ensures AtMost(best.distanceSquared, DiffScalar(e.color, needle))
    {
      NearPruned(sqrt, n.vantagePoint, needle, e.color, n.inner.radius, n.inner.radiusSquared, best);
    }
  }

  /** The best among an inner node's vantage point and both children is the best among its candidates. */
  lemma BestAmongNode(r: VisitState, needle: Color, n: Node)
    requires n.inner.Nodes?
    requires BestAmong(r, needle, [Entry(n.idx, n.vantagePoint)])
    requires BestAmong(r, needle, Entries(n.inner.near)) && BestAmong(r, needle, Entries(n.inner.far))
    ensures BestAmong(r, needle, Entries(n))
  {
    assert forall e | e in Entries(n) :: e == Entry(n.idx, n.vantagePoint) || e in Entries(n.inner.near) || e in Entries(n.inner.far);
  }

  /**
   * The search is exact: on a separated tree, with an exact square root and a
   * visitor whose two distances agree, the visitor ends at least as close to
   * the needle as every candidate of the tree other than the excluded index.
   */
  lemma {:induction false} SearchOptimal(path: Path, sqrt: real -> real, n: Node, needle: Color, st: VisitState)
    requires IsSqrt(sqrt) && Separated(sqrt, n) && Consistent(sqrt, st)
    ensures BestAmong(SearchNode(path, sqrt, n, needle, st), needle, Entries(n))
    decreases n
  {
    var distanceSquared := DiffOn(path, n.vantagePoint, needle);
    var distance := sqrt(distanceSquared);
    var st1 := Visited(st, distance, distanceSquared, n.idx);
    var head := [Entry(n.idx, n.vantagePoint)];
    var r := SearchNode(path, sqrt, n, needle, st);
    SqrtIsRoot(sqrt, distanceSquared);
    assert BestAmong(st1, needle, head);
    assert Consistent(sqrt, st1);
    match n.inner
    case Nodes(radius, radiusSquared, near, far) =>
      var (first, second) := if distanceSquared < radiusSquared then (near, far) else (far, near);
      var st2 := SearchNode(path, sqrt, first, needle, st1);
      SearchOptimal(path, sqrt, first, needle, st1);
      SearchKeeps(path, sqrt, first, needle, st1);
      BestAmongKept(st1, st2, needle, head);
      if distanceSquared < radiusSquared && !FarReachable(distance, radius, st2.distance) {
        FarSkipped(sqrt, n, needle, st2);
      } else if radiusSquared <= distanceSquared && !NearReachable(distance, radius, st2.distance) {
        NearSkipped(sqrt, n, needle, st2);
      } else {
        SearchOptimal(path, sqrt, second, needle, st2);
        SearchKeeps(path, sqrt, second, needle, st2);
        BestAmongKept(st2, r, needle, head);
        BestAmongKept(st2, r, needle, Entries(first));
      }
      BestAmongNode(r, needle, n);
    case Leaf(len, idxs, colors) =>
      var es := LeafEntries(len, idxs, colors);
      VisitAllOptimal(path, sqrt, needle, st1, es);
      VisitAllKeeps(path, sqrt, needle, st1, es);
      BestAmongKept(st1, r, needle, head);
      assert forall e | e in Entries(n) :: e in head || e in es;
  }

  // ---------------------------------------------------------------------
  // The SIMD and scalar searches agree.

  lemma {:induction false} VisitAllPathFree(path1: Path, path2: Path, sqrt: real -> real, needle: Color,
                                            st: VisitState, es: seq<Entry>)
    ensures VisitAll(path1, sqrt, needle, st, es) == VisitAll(path2, sqrt, needle, st, es)
    decreases |es|
  {
    if |es| > 0 {
      VisitAllPathFree(path1, path2, sqrt, needle, st, es[..|es| - 1]);
    }
  }

  /** `vp_search_node_simd` and `vp_search_node_scalar` leave the visitor in the same state. */
  lemma {:induction false} SearchPathFree(path1: Path, path2: Path, sqrt: real -> real, n: Node, needle: Color,
                                          st: VisitState)
    ensures SearchNode(path1, sqrt, n, needle, st) == SearchNode(path2, sqrt, n, needle, st)
    decreases n
  {
    var distanceSquared := DiffOn(path1, n.vantagePoint, needle);
    var st1 := Visited(st, sqrt(distanceSquared), distanceSquared, n.idx);
    match n.inner
    case Nodes(radius, radiusSquared, near, far) =>
      SearchPathFree(path1, path2, sqrt, near, needle, st1);
      SearchPathFree(path1, path2, sqrt, far, needle, st1);
      SearchPathFree(path1, path2, sqrt, near, needle, SearchNode(path1, sqrt, far, needle, st1));
      SearchPathFree(path1, path2, sqrt, far, needle, SearchNode(path1, sqrt, near, needle, st1));
    case Leaf(len, idxs, colors) =>
      VisitAllPathFree(path1, path2, sqrt, needle, st1, LeafEntries(len, idxs, colors));
  }
}

