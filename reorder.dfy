/**
 * The index permutation of `SortableList` and the move that a drag over
 * another item performs on it (`sortPosition` in src/index.js).
 *
 * The display order is a sequence of original item indices. `Moved` is the
 * move exactly as the component computes it, on top of the JavaScript
 * `indexOf` and `splice` semantics, and therefore total: it is also defined
 * when the dragged or the target index is missing from the list. The lemmas
 * state what it does in the case the component is built for (both present,
 * different, the list a permutation) and what happens when the dragged index
 * is missing.
 */
module Reorder {
  import opened JsArray

  /** Positions `i` and `j` of `s` hold different indices. */
  ghost predicate Apart(s: seq<nat>, i: nat, j: nat) {
    i < |s| && j < |s| && s[i] != s[j]
  }

  /**
   * No index occurs twice. The quantifier is stated through `Apart` so that
   * it is only instantiated for the pairs of positions a proof names.
   */
  ghost predicate Distinct(s: seq<nat>) {
    forall i: nat, j: nat :: i < j < |s| ==> Apart(s, i, j)
  }

  /** `s` lists each of the original indices 0 .. n-1 exactly once. */
  ghost predicate IsPermutation(s: seq<nat>, n: nat) {
    |s| == n && Distinct(s) && forall k :: 0 <= k < |s| ==> s[k] < n
  }

  /** Strictly increasing. */
  ghost predicate Increasing(s: seq<nat>) {
    forall i, j :: 0 <= i < j < |s| ==> s[i] < s[j]
  }

  /** `getListByItems`: the identity order [0, 1, ..., n-1] of `n` items. */
  function Identity(n: nat): (r: seq<nat>)
    ensures IsPermutation(r, n) && Increasing(r)
  {
    if n == 0 then [] else Identity(n - 1) + [n - 1]
  }

  /**
   * `sortPosition(x, y)`: remove `x` from the list, look `y` up in the
   * shortened list, and put `x` back after `y` if `x` was at or before that
   * position, otherwise in front of `y`. The dragged index always ends in
   * the list, and the length is kept except that an empty list gains it.
   */
  function Moved(s: seq<nat>, x: nat, y: nat): (r: seq<nat>)
    ensures x in r && |r| == if s == [] then 1 else |s|
  {
    var xIndex := IndexOf(s, x);
    var t := SpliceDelete(s, xIndex);
    SpliceInsert(t, InsertAt(t, xIndex, y), x)
  }

  /**
   * Where `x`, formerly at `xIndex`, goes back into the shortened list `t`:
   * after `y` when `xIndex <= t.indexOf(y)`, otherwise in front of it.
   */
  function InsertAt(t: seq<nat>, xIndex: int, y: nat): int
  {
    var yIndex := IndexOf(t, y);
    if xIndex <= yIndex then yIndex + 1 else yIndex
  }

  /**
   * The element at position `p` taken out and put back so that it ends at
   * position `k`; the others keep their order.
   */
  function Relocate(s: seq<nat>, p: nat, k: nat): seq<nat>
    requires p < |s| && k < |s|
  {
    var t := s[..p] + s[p + 1..];
    t[..k] + [s[p]] + t[k..]
  }

  /** Where `Moved` puts the dragged index back, for a dragged index found at `px`. */
  function InsertionPoint(s: seq<nat>, px: nat, y: nat): (k: nat)
    requires px < |s|
    ensures k < |s|
  {
    var t := s[..px] + s[px + 1..];
    SpliceStart(|t|, InsertAt(t, px, y))
  }

  /** A dragged index that is present is relocated, wherever the target is. */
  lemma MovedShape(s: seq<nat>, x: nat, y: nat)
    requires x in s
    ensures var px := IndexOf(s, x);
      Moved(s, x, y) == Relocate(s, px, InsertionPoint(s, px, y))
  {
    var px := IndexOf(s, x);
    SpliceDeleteAt(s, px);
    var t := SpliceDelete(s, px);
    SpliceInsertAt(t, InsertAt(t, px, y), x);
  }

  /** In a list without repetitions, two different positions hold different indices. */
  lemma DistinctAt(s: seq<nat>, i: nat, j: nat)
    requires Distinct(s) && i < |s| && j < |s| && i != j
    ensures s[i] != s[j]
  {
    if i < j {
      assert Apart(s, i, j);
    } else {
      assert Apart(s, j, i);
    }
  }

  /** In a list without repetitions, `indexOf` finds every element at its own position. */
  lemma IndexOfDistinct(s: seq<nat>, i: nat)
    requires Distinct(s) && i < |s|
    ensures IndexOf(s, s[i]) == i
  {
    var r := IndexOf(s, s[i]);
    assert r >= 0 && s[r] == s[i];
    if r != i {
      DistinctAt(s, r, i);
    }
  }

  /** Relocating neither adds nor loses an element. */
  lemma RelocateElements(s: seq<nat>, p: nat, k: nat)
    requires p < |s| && k < |s|
    ensures |Relocate(s, p, k)| == |s| && multiset(Relocate(s, p, k)) == multiset(s)
  {
    var t := s[..p] + s[p + 1..];
    var r := Relocate(s, p, k);
    assert r == t[..k] + [s[p]] + t[k..];
    assert t == t[..k] + t[k..];
    assert multiset(t) == multiset(t[..k]) + multiset(t[k..]);
    assert multiset(t) == multiset(s[..p]) + multiset(s[p + 1..]);
    assert multiset(r) == multiset(t[..k]) + multiset{s[p]} + multiset(t[k..]);
    assert multiset(r) == multiset(t) + multiset{s[p]};
    assert s == s[..p] + [s[p]] + s[p + 1..];
    assert multiset(s) == multiset(s[..p]) + multiset{s[p]} + multiset(s[p + 1..]);
    assert multiset(s) == multiset(t) + multiset{s[p]};
  }

  /** Position `i` of the list with position `p` taken out. */
  lemma DeletedAt(s: seq<nat>, p: nat, i: nat)
    requires p < |s| && i < |s| - 1
    ensures (s[..p] + s[p + 1..])[i] == if i < p then s[i] else s[i + 1]
  {
  }

  /** Taking an element out keeps a list free of repetitions. */
  lemma DeleteDistinct(s: seq<nat>, p: nat)
    requires p < |s| && Distinct(s)
    ensures Distinct(s[..p] + s[p + 1..])
  {
    var t := s[..p] + s[p + 1..];
    forall i: nat, j: nat | i < j < |t| ensures Apart(t, i, j) {
      DeletedAt(s, p, i);
      DeletedAt(s, p, j);
      DistinctAt(s, if i < p then i else i + 1, if j < p then j else j + 1);
    }
  }

  /** Position `i` of `t` with `x` inserted at `k`. */
  lemma InsertedAt(t: seq<nat>, k: nat, x: nat, i: nat)
    requires k <= |t| && i <= |t|
    ensures (t[..k] + [x] + t[k..])[i] == if i < k then t[i] else if i == k then x else t[i - 1]
  {
  }

  /** Inserting an index that is not there yet keeps a list free of repetitions. */
  lemma InsertDistinct(t: seq<nat>, k: nat, x: nat)
    requires k <= |t| && Distinct(t) && x !in t
    ensures Distinct(t[..k] + [x] + t[k..])
  {
    var r := t[..k] + [x] + t[k..];
    forall i: nat, j: nat | i < j < |r| ensures Apart(r, i, j) {
      InsertedAt(t, k, x, i);
      InsertedAt(t, k, x, j);
      if i != k && j != k {
        DistinctAt(t, if i < k then i else i - 1, if j < k then j else j - 1);
      }
    }
  }

  /** Relocating keeps a list free of repetitions. */
  lemma RelocateDistinct(s: seq<nat>, p: nat, k: nat)
    requires p < |s| && k < |s| && Distinct(s)
    ensures Distinct(Relocate(s, p, k))
  {
    var t := s[..p] + s[p + 1..];
    DeleteDistinct(s, p);
    forall i | 0 <= i < |t| ensures t[i] != s[p] {
      DeletedAt(s, p, i);
      DistinctAt(s, if i < p then i else i + 1, p);
    }
    InsertDistinct(t, k, s[p]);
  }

  /** The relocated element is at `k`; taking it out again gives the list with it taken out. */
  lemma RelocateLands(s: seq<nat>, p: nat, k: nat)
    requires p < |s| && k < |s|
    ensures var r := Relocate(s, p, k);
      r[k] == s[p] && r[..k] + r[k + 1..] == s[..p] + s[p + 1..]
  {
    var t := s[..p] + s[p + 1..];
    var r := Relocate(s, p, k);
    assert r[..k] == t[..k] && r[k + 1..] == t[k..];
    assert t[..k] + t[k..] == t;
  }

  /** The element that was at `k` is the relocated one's neighbour: in front of it or behind it. */
  lemma RelocateNeighbour(s: seq<nat>, p: nat, k: nat)
    requires p < |s| && k < |s| && p != k
    ensures var r := Relocate(s, p, k);
      (p < k ==> r[k - 1] == s[k]) && (k < p ==> r[k + 1] == s[k])
  {
  }

  /**
   * For a dragged index and a different target that are both in a list
   * without repetitions, the dragged index takes the target's former
   * position and the indices in between shift by one towards the gap.
   */
  lemma MoveIsRelocation(s: seq<nat>, px: nat, py: nat)
    requires Distinct(s) && px < |s| && py < |s| && px != py
    ensures Moved(s, s[px], s[py]) == Relocate(s, px, py)
  {
    var x, y := s[px], s[py];
    IndexOfDistinct(s, px);
    MovedShape(s, x, y);
    var t := s[..px] + s[px + 1..];
    DeleteDistinct(s, px);
    var q := if px < py then py - 1 else py;
    DeletedAt(s, px, q);
    IndexOfDistinct(t, q);
    assert InsertAt(t, px, y) == py;
  }

  /**
   * The move keeps the list a permutation of 0 .. n-1 whenever the dragged
   * index is in it, wherever the target is.
   */
  lemma MovePreservesPermutation(s: seq<nat>, n: nat, x: nat, y: nat)
    requires IsPermutation(s, n) && x in s
    ensures IsPermutation(Moved(s, x, y), n)
  {
    MovedShape(s, x, y);
    var px := IndexOf(s, x);
    var k := InsertionPoint(s, px, y);
    RelocateElements(s, px, k);
    RelocateDistinct(s, px, k);
    var r := Moved(s, x, y);
    forall i | 0 <= i < |r| ensures r[i] < n {
      assert r[i] in multiset(s);
    }
  }

  /**
   * In a list without repetitions, the relocated element is found at `k`
   * and the element that was at `k` right beside it, on the side it came from.
   */
  lemma RelocateBeside(s: seq<nat>, p: nat, k: nat)
    requires Distinct(s) && p < |s| && k < |s| && p != k
    ensures var r := Relocate(s, p, k);
      IndexOf(r, s[p]) == k
      && (p < k ==> IndexOf(r, s[k]) == k - 1)
      && (k < p ==> IndexOf(r, s[k]) == k + 1)
  {
    var r := Relocate(s, p, k);
    RelocateDistinct(s, p, k);
    RelocateLands(s, p, k);
    RelocateNeighbour(s, p, k);
    var n := if p < k then k - 1 else k + 1;
    assert r[n] == s[k];
    IndexOfDistinct(r, k);
    IndexOfDistinct(r, n);
  }

  /**
   * Dragged forward, from before the target: the dragged index ends
   * immediately after the target.
   */
  lemma MoveForward(s: seq<nat>, x: nat, y: nat)
    requires Distinct(s) && x in s && y in s && IndexOf(s, x) < IndexOf(s, y)
    ensures var r := Moved(s, x, y);
      x in r && y in r && IndexOf(r, x) == IndexOf(r, y) + 1
  {
    var px, py := IndexOf(s, x), IndexOf(s, y);
    MoveIsRelocation(s, px, py);
    RelocateBeside(s, px, py);
  }

  /**
   * Dragged backward, from behind the target: the dragged index ends
   * immediately in front of the target.
   */
  lemma MoveBackward(s: seq<nat>, x: nat, y: nat)
    requires Distinct(s) && x in s && y in s && IndexOf(s, y) < IndexOf(s, x)
    ensures var r := Moved(s, x, y);
      x in r && y in r && IndexOf(r, x) + 1 == IndexOf(r, y)
  {
    var px, py := IndexOf(s, x), IndexOf(s, y);
    MoveIsRelocation(s, px, py);
    RelocateBeside(s, px, py);
  }

  /**
   * The move is one removal followed by one insertion: splicing `x` out of
   * the result leaves the same list as splicing it out of the input, so
   * every index other than the dragged one keeps its relative order.
   */
  lemma MoveKeepsOthersInOrder(s: seq<nat>, x: nat, y: nat)
    requires Distinct(s) && x in s
    ensures var r := Moved(s, x, y);
      x in r && SpliceDelete(r, IndexOf(r, x)) == SpliceDelete(s, IndexOf(s, x))
  {
    MovedShape(s, x, y);
    var px := IndexOf(s, x);
    var k := InsertionPoint(s, px, y);
    var r := Relocate(s, px, k);
    RelocateDistinct(s, px, k);
    RelocateLands(s, px, k);
    IndexOfDistinct(r, k);
    SpliceDeleteAt(r, k);
    SpliceDeleteAt(s, px);
  }

  /**
   * A dragged index that is not in a non-empty list: `indexOf` gives -1 and
   * `splice(-1, 1)` removes the LAST element, which is lost, while `x` is
   * inserted. The list stays the same length but is no longer a
   * permutation of the same indices.
   */
  lemma MoveAbsentDraggedLosesLast(s: seq<nat>, x: nat, y: nat)
    requires x !in s && s != []
    ensures var r := Moved(s, x, y);
      |r| == |s| && multiset(r) == multiset(s[..|s| - 1]) + multiset{x}
  {
    var t := s[..|s| - 1];
    SpliceDeleteAt(s, |s| - 1);
    assert SpliceDelete(s, -1) == t;
    var start := InsertAt(t, -1, y);
    SpliceInsertAt(t, start, x);
    var k := SpliceStart(|t|, start);
    assert t == t[..k] + t[k..];
  }

  /** Dragging 0 forward over 2 puts it after 2. */
  lemma ForwardExample()
    ensures Moved([0, 1, 2, 3, 4], 0, 2) == [1, 2, 0, 3, 4]
  {
    var s := [0, 1, 2, 3, 4];
    assert Distinct(s);
    MoveIsRelocation(s, 0, 2);
    ForwardRelocation();
  }

  lemma ForwardRelocation()
    ensures Relocate([0, 1, 2, 3, 4], 0, 2) == [1, 2, 0, 3, 4]
  {
    var s := [0, 1, 2, 3, 4];
    var t := s[..0] + s[1..];
    assert t == [1, 2, 3, 4];
  }

  /** Dragging 3 backward over 1 puts it in front of 1. */
  lemma BackwardExample()
    ensures Moved([0, 1, 2, 3, 4], 3, 1) == [0, 3, 1, 2, 4]
  {
    var s := [0, 1, 2, 3, 4];
    assert Distinct(s);
    MoveIsRelocation(s, 3, 1);
    BackwardRelocation();
  }

  lemma BackwardRelocation()
    ensures Relocate([0, 1, 2, 3, 4], 3, 1) == [0, 3, 1, 2, 4]
  {
    var s := [0, 1, 2, 3, 4];
    var t := s[..3] + s[4..];
    assert t == [0, 1, 2, 4];
  }

  /** Dragging the first item over the last one sends it to the end. */
  lemma ToEndExample()
    ensures Moved([0, 1, 2, 3, 4], 0, 4) == [1, 2, 3, 4, 0]
  {
    var s := [0, 1, 2, 3, 4];
    assert Distinct(s);
    MoveIsRelocation(s, 0, 4);
    ToEndRelocation();
  }

  lemma ToEndRelocation()
    ensures Relocate([0, 1, 2, 3, 4], 0, 4) == [1, 2, 3, 4, 0]
  {
    var s := [0, 1, 2, 3, 4];
    var t := s[..0] + s[1..];
    assert t == [1, 2, 3, 4];
  }

  /** The indices a list holds. */
  ghost function Elements(s: seq<nat>): set<nat> {
    set x | x in s
  }

  /** The indices 0 .. n-1. */
  ghost function Below(n: nat): set<nat> {
    if n == 0 then {} else Below(n - 1) + {n - 1}
  }

  lemma {:induction false} BelowHolds(n: nat, i: nat)
    ensures i in Below(n) <==> i < n
  {
    if n > 0 {
      BelowHolds(n - 1, i);
    }
  }

  /** A list without repetitions holds as many indices as it is long. */
  lemma {:induction false} DistinctElements(s: seq<nat>)
    requires Distinct(s)
    ensures |Elements(s)| == |s|
  {
    if s != [] {
      var init, last := s[..|s| - 1], s[|s| - 1];
      forall i: nat, j: nat | i < j < |init| ensures Apart(init, i, j) {
        assert Apart(s, i, j);
      }
      DistinctElements(init);
      forall i | 0 <= i < |init| ensures init[i] != last {
        DistinctAt(s, i, |s| - 1);
      }
      assert s == init + [last];
      assert Elements(s) == Elements(init) + {last};
    }
  }

  lemma {:induction false} BelowSize(n: nat)
    ensures |Below(n)| == n
  {
    if n > 0 {
      BelowSize(n - 1);
      BelowHolds(n - 1, n - 1);
    }
  }

  lemma {:induction false} SubsetSize(a: set<nat>, b: set<nat>)
    requires a <= b
    ensures |a| <= |b|
    decreases a
  {
    if a != {} {
      var e :| e in a;
      SubsetSize(a - {e}, b - {e});
    }
  }

  /** A permutation of 0 .. n-1 holds every index below n (the pigeonhole principle). */
  lemma PermutationHoldsAll(s: seq<nat>, n: nat, i: nat)
    requires IsPermutation(s, n) && i < n
    ensures i in s
  {
    if i !in s {
      DistinctElements(s);
      BelowSize(n);
      BelowHolds(n, i);
      forall x | x in Elements(s) ensures x in Below(n) - {i} {
        BelowHolds(n, x);
      }
      SubsetSize(Elements(s), Below(n) - {i});
      assert false;
    }
  }

  /** Only increasing permutation of 0 .. n-1 is the identity [0, 1, ..., n-1]. */
  lemma IncreasingPermutationIsIdentity(s: seq<nat>, n: nat)
    requires IsPermutation(s, n) && Increasing(s)
    ensures forall k :: 0 <= k < |s| ==> s[k] == k
  {
    forall k | 0 <= k < |s| ensures s[k] == k {
      AtLeastPosition(s, k);
      AtMostPosition(s, n, k);
    }
  }

  lemma {:induction false} AtLeastPosition(s: seq<nat>, k: nat)
    requires Increasing(s) && k < |s|
    ensures s[k] >= k
  {
    if k > 0 {
      AtLeastPosition(s, k - 1);
    }
  }

  lemma {:induction false} AtMostPosition(s: seq<nat>, n: nat, k: nat)
    requires Increasing(s) && k < |s| && forall i :: 0 <= i < |s| ==> s[i] < n
    ensures s[k] + (|s| - 1 - k) < n
    decreases |s| - k
  {
    if k < |s| - 1 {
      AtMostPosition(s, n, k + 1);
    }
  }
}
