/**
 * What construction guarantees about the tree `vp_create_node` returns: it
 * holds every index of the slice exactly once, each with its palette colour,
 * and at every inner node the near subtree lies within the radius and the far
 * subtree outside it. The search's pruning is sound because of the last fact.
 */
module VpTreeFacts {
  import opened Pal
  import opened Simd
  import opened VpTree

  // ---------------------------------------------------------------------
  // Small facts about sequences of indexes and entries.

  lemma IdxsOfAppend(a: seq<Entry>, b: seq<Entry>)
    ensures IdxsOf(a + b) == IdxsOf(a) + IdxsOf(b)
  {
    assert forall k :: 0 <= k < |a| ==> IdxsOf(a + b)[k] == (IdxsOf(a) + IdxsOf(b))[k];
  }

  lemma EntriesMatchAppend(palette: Palette, a: seq<Entry>, b: seq<Entry>)
    requires EntriesMatch(palette, a) && EntriesMatch(palette, b)
    ensures EntriesMatch(palette, a + b)
  {
    forall k | 0 <= k < |a + b|
      ensures (a + b)[k].idx < |palette| && (a + b)[k].color == palette[(a + b)[k].idx].color
    {
      if k >= |a| {
        assert (a + b)[k] == b[k - |a|];
      }
    }
  }

  /** A rearrangement of indexes that all lie in the palette still does. */
  lemma InPaletteRearranged(palette: Palette, s: seq<PalIndex>, r: seq<PalIndex>)
    requires InPalette(palette, s) && multiset(r) == multiset(s)
    ensures InPalette(palette, r)
  {
    forall k | 0 <= k < |r| ensures r[k] < |palette| {
      assert r[k] in multiset(s);
      var j :| 0 <= j < |s| && s[j] == r[k];
    }
  }

  lemma InPaletteSlice(palette: Palette, s: seq<PalIndex>, lo: nat, hi: nat)
    requires InPalette(palette, s) && lo <= hi <= |s|
    ensures InPalette(palette, s[lo..hi])
  {
    forall k | 0 <= k < hi - lo ensures s[lo..hi][k] < |palette| {
      assert s[lo..hi][k] == s[lo + k];
    }
  }

  lemma SplitThree(t: seq<PalIndex>, m: nat)
    requires 1 <= m <= |t|
    ensures t == [t[0]] + (t[1..m] + t[m..])
  {
  }

  /** Rearranging the two parts after the head rearranges the whole. */
  lemma RejoinPermutation(t: seq<PalIndex>, m: nat, p: seq<PalIndex>, q: seq<PalIndex>)
    requires 1 <= m <= |t| && multiset(p) == multiset(t[1..m]) && multiset(q) == multiset(t[m..])
    ensures multiset([t[0]] + (p + q)) == multiset(t)
  {
    SplitThree(t, m);
    assert multiset([t[0]] + (t[1..m] + t[m..])) == multiset([t[0]]) + (multiset(t[1..m]) + multiset(t[m..]));
  }

  // ---------------------------------------------------------------------
  // Every index exactly once.

  /** Construction rearranges the slice and loses nothing. */
  lemma {:induction false} PermutedIsPermutation(path: Path, palette: Palette, s: seq<PalIndex>)
    ensures multiset(Permuted(path, palette, s)) == multiset(s)
    decreases |s|
  {
    if |s| <= 1 {
    } else if |s| - 1 <= LEAF_MAX_SIZE {
      LeafPermutedStep(path, palette, s);
      VantageFirstOrder(path, palette, s);
    } else {
      PermutedStep(path, palette, s);
      var t := VantageFirst(path, palette, s);
      VantageFirstOrder(path, palette, s);
      var m := Mid(|t|);
      PermutedIsPermutation(path, palette, t[1..m]);
      PermutedIsPermutation(path, palette, t[m..]);
      RejoinPermutation(t, m, Permuted(path, palette, t[1..m]), Permuted(path, palette, t[m..]));
    }
  }

  /** The indexes in a leaf built from `rest` are `rest` itself. */
  lemma LeafHolds(palette: Palette, rest: seq<PalIndex>)
    requires |rest| <= LEAF_MAX_SIZE && InPalette(palette, rest)
    ensures var es := LeafEntries(|rest|, LeafIdxs(palette, rest), LeafColors(palette, rest));
      IdxsOf(es) == rest && EntriesMatch(palette, es)
  {
    var es := LeafEntries(|rest|, LeafIdxs(palette, rest), LeafColors(palette, rest));
    assert |es| == |rest|;
    forall k | 0 <= k < |rest| ensures IdxsOf(es)[k] == rest[k] {
    }
  }

  /** The entries of a leaf node built from the vantage-first slice `t`. */
  lemma LeafNodeEntries(palette: Palette, t: seq<PalIndex>)
    requires 1 <= |t| <= LEAF_MAX_SIZE + 1 && InPalette(palette, t)
    ensures var n := Node(ColorAt(palette, t[0]), Leaf(|t| - 1, LeafIdxs(palette, t[1..]), LeafColors(palette, t[1..])), t[0]);
      IdxsOf(Entries(n)) == t && EntriesMatch(palette, Entries(n))
  {
    var head := [Entry(t[0], palette[t[0]].color)];
    InPaletteSlice(palette, t, 1, |t|);
    LeafHolds(palette, t[1..]);
    var es := LeafEntries(|t| - 1, LeafIdxs(palette, t[1..]), LeafColors(palette, t[1..]));
    IdxsOfAppend(head, es);
    EntriesMatchAppend(palette, head, es);
    SplitThree(t, |t|);
  }

  /** The entries of an inner node: its vantage point, then the near entries, then the far ones. */
  lemma InnerNodeEntries(palette: Palette, idx: PalIndex, radius: real, radiusSquared: real, near: Node, far: Node)
    requires idx < |palette| && EntriesMatch(palette, Entries(near)) && EntriesMatch(palette, Entries(far))
    ensures var n := Node(palette[idx].color, Nodes(radius, radiusSquared, near, far), idx);
      && IdxsOf(Entries(n)) == [idx] + (IdxsOf(Entries(near)) + IdxsOf(Entries(far)))
      && EntriesMatch(palette, Entries(n))
  {
    var head := [Entry(idx, palette[idx].color)];
    IdxsOfAppend(Entries(near), Entries(far));
    IdxsOfAppend(head, Entries(near) + Entries(far));
    EntriesMatchAppend(palette, Entries(near), Entries(far));
    EntriesMatchAppend(palette, head, Entries(near) + Entries(far));
  }

  /** `BuildEntries` for a slice short enough for a single leaf. */
  lemma BuildEntriesLeaf(path: Path, sqrt: real -> real, palette: Palette, s: seq<PalIndex>)
    requires 1 <= |s| <= LEAF_MAX_SIZE + 1 && InPalette(palette, s)
    ensures IdxsOf(Entries(Build(path, sqrt, palette, s))) == Permuted(path, palette, s)
    ensures EntriesMatch(palette, Entries(Build(path, sqrt, palette, s)))
  {
    if |s| == 1 {
      assert Entries(Build(path, sqrt, palette, s)) == [Entry(s[0], palette[s[0]].color)];
    } else {
      var t := VantageFirst(path, palette, s);
      VantageFirstOrder(path, palette, s);
      InPaletteRearranged(palette, s, t);
      LeafStep(path, sqrt, palette, s);
      LeafPermutedStep(path, palette, s);
      LeafNodeEntries(palette, t);
    }
  }

  /** At a split, the vantage point and both halves are indexes of the palette. */
  lemma SplitInPalette(path: Path, palette: Palette, s: seq<PalIndex>)
    requires InPalette(palette, s) && |s| - 1 > LEAF_MAX_SIZE
    ensures var t := VantageFirst(path, palette, s);
      var m := Mid(|t|);
      t[0] < |palette| && InPalette(palette, t[1..m]) && InPalette(palette, t[m..])
  {
    var t := VantageFirst(path, palette, s);
    VantageFirstOrder(path, palette, s);
    InPaletteRearranged(palette, s, t);
    var m := Mid(|t|);
    InPaletteSlice(palette, t, 1, m);
    InPaletteSlice(palette, t, m, |t|);
  }

  /**
   * Reading the tree's entries in order (vantage point, then near, then far)
   * gives back exactly the order construction left in the slice, and every
   * entry carries its palette colour.
   */
  lemma {:induction false} BuildEntries(path: Path, sqrt: real -> real, palette: Palette, s: seq<PalIndex>)
    requires |s| >= 1 && InPalette(palette, s)
    ensures IdxsOf(Entries(Build(path, sqrt, palette, s))) == Permuted(path, palette, s)
    ensures EntriesMatch(palette, Entries(Build(path, sqrt, palette, s)))
    decreases |s|
  {
    if |s| - 1 <= LEAF_MAX_SIZE {
      BuildEntriesLeaf(path, sqrt, palette, s);
    } else {
      var t := VantageFirst(path, palette, s);
      BuildStep(path, sqrt, palette, s);
      PermutedStep(path, palette, s);
      var m := Mid(|t|);
      SplitInPalette(path, palette, s);
      BuildEntries(path, sqrt, palette, t[1..m]);
      BuildEntries(path, sqrt, palette, t[m..]);
      var radiusSquared := Key(path, palette, ColorAt(palette, t[0]), t[m]);
      InnerNodeEntries(palette, t[0], sqrt(radiusSquared), radiusSquared,
                       Build(path, sqrt, palette, t[1..m]), Build(path, sqrt, palette, t[m..]));
    }
  }

  /** Every entry of the tree built from `s` is an index of `s` with its palette colour. */
  lemma EntryOrigin(path: Path, sqrt: real -> real, palette: Palette, s: seq<PalIndex>, e: Entry)
    requires |s| >= 1 && InPalette(palette, s) && e in Entries(Build(path, sqrt, palette, s))
    ensures e.idx in s && e.idx < |palette| && e.color == palette[e.idx].color
  {
    var es := Entries(Build(path, sqrt, palette, s));
    BuildEntries(path, sqrt, palette, s);
    PermutedIsPermutation(path, palette, s);
    var k :| 0 <= k < |es| && es[k] == e;
    assert IdxsOf(es)[k] == e.idx;
    assert e.idx in multiset(Permuted(path, palette, s));
  }

  /** Every index of the slice is the index of some candidate of its tree, carrying its palette colour. */
  lemma EntryFor(path: Path, sqrt: real -> real, palette: Palette, s: seq<PalIndex>, j: PalIndex)
    returns (e: Entry)
    requires |s| >= 1 && InPalette(palette, s) && j in s
    ensures e in Entries(Build(path, sqrt, palette, s)) && e.idx == j && e.color == palette[j].color
  {
    var es := Entries(Build(path, sqrt, palette, s));
    BuildEntries(path, sqrt, palette, s);
    PermutedIsPermutation(path, palette, s);
    assert j in multiset(Permuted(path, palette, s));
    var k :| 0 <= k < |es| && IdxsOf(es)[k] == j;
    e := es[k];
  }

  /**
   * Every index of a non-empty slice of palette indexes is held by the tree
   * built from it exactly as often as the slice holds it: as the vantage
   * point of one node or in the used part of one leaf.
   */
  lemma BuildHoldsEachOnce(path: Path, sqrt: real -> real, palette: Palette, s: seq<PalIndex>)
    requires |s| >= 1 && InPalette(palette, s)
    ensures multiset(IdxsOf(Entries(Build(path, sqrt, palette, s)))) == multiset(s)
  {
    BuildEntries(path, sqrt, palette, s);
    PermutedIsPermutation(path, palette, s);
  }

  // ---------------------------------------------------------------------
  // The radius separates the two subtrees.

  /**
   * What a search may rely on at every inner node: the radius is the root of
   * its square, every near entry is within the squared radius of the vantage
   * point and every far entry is at least that far; leaves hold at most six
   * entries.
   */
  ghost predicate Separated(sqrt: real -> real, n: Node)
  {
    match n.inner
    case Leaf(len, idxs, colors) =>
      len <= LEAF_MAX_SIZE && |idxs| == LEAF_MAX_SIZE && |colors| == LEAF_MAX_SIZE
    case Nodes(radius, radiusSquared, near, far) =>
      && 0.0 <= radiusSquared && radius == sqrt(radiusSquared)
      && (forall e | e in Entries(near) :: DiffScalar(n.vantagePoint, e.color) <= radiusSquared)
      && (forall e | e in Entries(far) :: radiusSquared <= DiffScalar(n.vantagePoint, e.color))
      && Separated(sqrt, near) && Separated(sqrt, far)
  }

  /** The key of an index of the palette is its distance from the vantage point. */
  lemma KeyIsDistance(path: Path, palette: Palette, vantage: Color, i: PalIndex)
    requires i < |palette|
    ensures KeyFrom(path, palette, vantage)(i) == DiffScalar(vantage, palette[i].color)
  {
  }

  /**
   * In the vantage-first slice `t`, the entries before the median position
   * `m` are no farther from the vantage point than `t[m]`, and the entries from
   * `m` on are no nearer.
   */
  lemma SortedAround(path: Path, palette: Palette, vantage: Color, t: seq<PalIndex>, m: nat)
    requires 1 <= m < |t| && InPalette(palette, t) && SortedBy(KeyFrom(path, palette, vantage), t[1..])
    ensures forall j :: 0 <= j < m - 1 ==> DiffScalar(vantage, palette[t[1..m][j]].color) <= Key(path, palette, vantage, t[m])
    ensures forall j :: 0 <= j < |t| - m ==> Key(path, palette, vantage, t[m]) <= DiffScalar(vantage, palette[t[m..][j]].color)
  {
    var key := KeyFrom(path, palette, vantage);
    forall j | 0 <= j < m - 1
      ensures DiffScalar(vantage, palette[t[1..m][j]].color) <= Key(path, palette, vantage, t[m])
    {
      assert t[1..m][j] == t[1..][j] && t[m] == t[1..][m - 1];
      KeyIsDistance(path, palette, vantage, t[1..m][j]);
    }
    forall j | 0 <= j < |t| - m
      ensures Key(path, palette, vantage, t[m]) <= DiffScalar(vantage, palette[t[m..][j]].color)
    {
      assert t[m..][j] == t[1..][m - 1 + j] && t[m] == t[1..][m - 1];
      KeyIsDistance(path, palette, vantage, t[m..][j]);
    }
  }

  /** If every index of `p` is within `bound` of `vantage`, so is every entry of its tree. */
  lemma EntriesWithin(path: Path, sqrt: real -> real, palette: Palette, p: seq<PalIndex>, vantage: Color, bound: real)
    requires |p| >= 1 && InPalette(palette, p)
    requires forall j :: 0 <= j < |p| ==> DiffScalar(vantage, palette[p[j]].color) <= bound
    ensures forall e | e in Entries(Build(path, sqrt, palette, p)) :: DiffScalar(vantage, e.color) <= bound
  {
    forall e | e in Entries(Build(path, sqrt, palette, p)) ensures DiffScalar(vantage, e.color) <= bound {
      EntryOrigin(path, sqrt, palette, p, e);
    }
  }

  /** If every index of `p` is at least `bound` from `vantage`, so is every entry of its tree. */
  lemma EntriesBeyond(path: Path, sqrt: real -> real, palette: Palette, p: seq<PalIndex>, vantage: Color, bound: real)
    requires |p| >= 1 && InPalette(palette, p)
    requires forall j :: 0 <= j < |p| ==> bound <= DiffScalar(vantage, palette[p[j]].color)
    ensures forall e | e in Entries(Build(path, sqrt, palette, p)) :: bound <= DiffScalar(vantage, e.color)
  {
    forall e | e in Entries(Build(path, sqrt, palette, p)) ensures bound <= DiffScalar(vantage, e.color) {
      EntryOrigin(path, sqrt, palette, p, e);
    }
  }

  /**
   * The tree `vp_create_node` builds over indexes of the palette is
   * separated at every node.
   */
  lemma {:induction false} BuildSeparated(path: Path, sqrt: real -> real, palette: Palette, s: seq<PalIndex>)
    requires InPalette(palette, s)
    ensures Separated(sqrt, Build(path, sqrt, palette, s))
    decreases |s|
  {
    if |s| <= 1 {
    } else if |s| - 1 <= LEAF_MAX_SIZE {
      LeafStep(path, sqrt, palette, s);
    } else {
      BuildStep(path, sqrt, palette, s);
      var t := VantageFirst(path, palette, s);
      var m := Mid(|t|);
      var vantage := ColorAt(palette, t[0]);
      var radiusSquared := Key(path, palette, vantage, t[m]);
      SplitAround(path, sqrt, palette, s);
      BuildSeparated(path, sqrt, palette, t[1..m]);
      BuildSeparated(path, sqrt, palette, t[m..]);
      InnerSeparated(sqrt, vantage, t[0], radiusSquared,
                     Build(path, sqrt, palette, t[1..m]), Build(path, sqrt, palette, t[m..]));
    }
  }

  /**
   * At a split, both halves hold indexes of the palette, and the squared
   * radius is non-negative and separates the entries of the near tree from
   * those of the far tree.
   */
  lemma SplitAround(path: Path, sqrt: real -> real, palette: Palette, s: seq<PalIndex>)
    requires InPalette(palette, s) && |s| - 1 > LEAF_MAX_SIZE
    ensures var t := VantageFirst(path, palette, s);
      var m := Mid(|t|);
      var vantage := ColorAt(palette, t[0]);
      var radiusSquared := Key(path, palette, vantage, t[m]);
      && InPalette(palette, t[1..m]) && InPalette(palette, t[m..]) && 0.0 <= radiusSquared
      && (forall e | e in Entries(Build(path, sqrt, palette, t[1..m])) :: DiffScalar(vantage, e.color) <= radiusSquared)
      && (forall e | e in Entries(Build(path, sqrt, palette, t[m..])) :: radiusSquared <= DiffScalar(vantage, e.color))
  {
    var t := VantageFirst(path, palette, s);
    VantageFirstOrder(path, palette, s);
    InPaletteRearranged(palette, s, t);
    var m := Mid(|t|);
    SplitInPalette(path, palette, s);
    var vantage := ColorAt(palette, t[0]);
    var radiusSquared := Key(path, palette, vantage, t[m]);
    SortedAround(path, palette, vantage, t, m);
    EntriesWithin(path, sqrt, palette, t[1..m], vantage, radiusSquared);
    EntriesBeyond(path, sqrt, palette, t[m..], vantage, radiusSquared);
  }

  /** An inner node whose squared radius separates its two separated children is separated. */
  lemma InnerSeparated(sqrt: real -> real, vantage: Color, idx: PalIndex, radiusSquared: real, near: Node, far: Node)
    requires 0.0 <= radiusSquared
    requires forall e | e in Entries(near) :: DiffScalar(vantage, e.color) <= radiusSquared
    requires forall e | e in Entries(far) :: radiusSquared <= DiffScalar(vantage, e.color)
    requires Separated(sqrt, near) && Separated(sqrt, far)
    ensures Separated(sqrt, Node(vantage, Nodes(sqrt(radiusSquared), radiusSquared, near, far), idx))
  {
  }

  // ---------------------------------------------------------------------
  // The SIMD and scalar builds agree.

  /** Inserting by two keys that agree everywhere gives the same slice. */
  lemma {:induction false} InsertSameKeys(key1: PalIndex -> real, key2: PalIndex -> real, x: PalIndex, s: seq<PalIndex>)
    requires forall i :: key1(i) == key2(i)
    ensures Insert(key1, x, s) == Insert(key2, x, s)
    decreases |s|
  {
    if |s| > 0 && key1(x) > key1(s[0]) {
      InsertSameKeys(key1, key2, x, s[1..]);
    }
  }

  /** Sorting by two keys that agree everywhere gives the same slice. */
  lemma {:induction false} SortSameKeys(key1: PalIndex -> real, key2: PalIndex -> real, s: seq<PalIndex>)
    requires forall i :: key1(i) == key2(i)
    ensures SortByKey(key1, s) == SortByKey(key2, s)
    decreases |s|
  {
    if |s| > 0 {
      SortSameKeys(key1, key2, s[1..]);
      InsertSameKeys(key1, key2, s[0], SortByKey(key1, s[1..]));
    }
  }

  /** Choosing the vantage point and sorting the rest does not depend on the distance path. */
  lemma VantageFirstPathFree(path1: Path, path2: Path, palette: Palette, s: seq<PalIndex>)
    requires |s| >= 1
    ensures VantageFirst(path1, palette, s) == VantageFirst(path2, palette, s)
  {
    var w := SwapFront(s, MostPopular(palette, s));
    var vantage := ColorAt(palette, w[0]);
    SortSameKeys(KeyFrom(path1, palette, vantage), KeyFrom(path2, palette, vantage), w[1..]);
  }

  /** `new_simd` and `new_scalar` build the same tree: the two distance paths compute the same function. */
  lemma {:induction false} BuildPathFree(path1: Path, path2: Path, sqrt: real -> real, palette: Palette, s: seq<PalIndex>)
    ensures Build(path1, sqrt, palette, s) == Build(path2, sqrt, palette, s)
    decreases |s|
  {
    if |s| - 1 > LEAF_MAX_SIZE {
      BuildStep(path1, sqrt, palette, s);
      BuildStep(path2, sqrt, palette, s);
      VantageFirstPathFree(path1, path2, palette, s);
      var t := VantageFirst(path1, palette, s);
      var m := Mid(|t|);
      BuildPathFree(path1, path2, sqrt, palette, t[1..m]);
      BuildPathFree(path1, path2, sqrt, palette, t[m..]);
    } else if |s| > 1 {
      LeafStep(path1, sqrt, palette, s);
      LeafStep(path2, sqrt, palette, s);
      VantageFirstPathFree(path1, path2, palette, s);
    }
  }

  /** `new_simd` and `new_scalar` leave the indexes in the same order. */
  lemma {:induction false} PermutedPathFree(path1: Path, path2: Path, palette: Palette, s: seq<PalIndex>)
    ensures Permuted(path1, palette, s) == Permuted(path2, palette, s)
    decreases |s|
  {
    if |s| - 1 > LEAF_MAX_SIZE {
      PermutedStep(path1, palette, s);
      PermutedStep(path2, palette, s);
      VantageFirstPathFree(path1, path2, palette, s);
      var t := VantageFirst(path1, palette, s);
      var m := Mid(|t|);
      PermutedPathFree(path1, path2, palette, t[1..m]);
      PermutedPathFree(path1, path2, palette, t[m..]);
    } else if |s| > 1 {
      LeafPermutedStep(path1, palette, s);
      LeafPermutedStep(path2, palette, s);
      VantageFirstPathFree(path1, path2, palette, s);
    }
  }
}
