/**
 * The search accumulator of `src/nearest.rs` (`Visitor`): the best candidate
 * found so far, with an optional palette index that may never be adopted.
 */
module Visitor {
  import opened Wrappers
  import opened Pal

  /**
   * An `f32` distance that may still hold the "no best yet" start value
   * (`f32::MAX` in the warm-up, `f32::INFINITY` in a search without a usable
   * hint). Every real distance compares below the sentinel.
   */
  datatype Extended = Finite(value: real) | Infinity

  /** `x < e` */
  predicate Below(x: real, e: Extended)
  {
    e.Infinity? || x < e.value
  }

  /** `e <= x`: a real distance has been recorded and it is at most `x`. */
  predicate AtMost(e: Extended, x: real)
  {
    e.Finite? && e.value <= x
  }

  /** `e <= f` */
  predicate NoWorse(e: Extended, f: Extended)
  {
    f.Infinity? || (e.Finite? && e.value <= f.value)
  }

  /** `e / 4.`; the sentinel divided by four is still above every distance. */
  function Quarter(e: Extended): (q: Extended)
    ensures e.Infinity? <==> q.Infinity?
    ensures e.Finite? ==> 4.0 * q.value == e.value
  {
    match e
    case Finite(v) => Finite(v / 4.0)
    case Infinity => Infinity
  }

  /** The fields of a `Visitor`, as a value. */
  datatype VisitState = VisitState(distance: Extended, distanceSquared: Extended, idx: PalIndex, exclude: Option<PalIndex>)

  /**
   * `Visitor::visit`: a candidate replaces the best one exactly when its
   * squared distance is strictly smaller and its index is not the excluded
   * one; otherwise nothing changes.
   */
  function Visited(st: VisitState, distance: real, distanceSquared: real, idx: PalIndex): (r: VisitState)
    ensures Below(distanceSquared, st.distanceSquared) && st.exclude != Some(idx)
            ==> r == VisitState(Finite(distance), Finite(distanceSquared), idx, st.exclude)
    ensures !(Below(distanceSquared, st.distanceSquared) && st.exclude != Some(idx)) ==> r == st
    ensures r.exclude == st.exclude
    ensures NoWorse(r.distanceSquared, st.distanceSquared)
    ensures st.exclude != Some(idx) ==> AtMost(r.distanceSquared, distanceSquared)
  {
    if Below(distanceSquared, st.distanceSquared) && st.exclude != Some(idx) then
      st.(distance := Finite(distance), distanceSquared := Finite(distanceSquared), idx := idx)
    else
      st
  }

  class Visitor {
    var distance: Extended
    var distanceSquared: Extended
    var idx: PalIndex
    var exclude: Option<PalIndex>

    function State(): VisitState
      reads this
    {
      VisitState(distance, distanceSquared, idx, exclude)
    }

    constructor (distance: Extended, distanceSquared: Extended, idx: PalIndex, exclude: Option<PalIndex>)
      ensures State() == VisitState(distance, distanceSquared, idx, exclude)
    {
      this.distance := distance;
      this.distanceSquared := distanceSquared;
      this.idx := idx;
      this.exclude := exclude;
    }

    method Visit(distance: real, distanceSquared: real, idx: PalIndex)
      modifies this
      ensures State() == Visited(old(State()), distance, distanceSquared, idx)
    {
      if Below(distanceSquared, this.distanceSquared) && exclude != Some(idx) {
        this.distance := Finite(distance);
        this.distanceSquared := Finite(distanceSquared);
        this.idx := idx;
      }
    }
  }
}
