/**
 * The `SortableList` component of src/index.js as a state machine.
 *
 * The fields are the component's own: `props.children` and whether
 * `props.onSort` is a function, the wrapped `items`, the render cursor
 * `count`, `state.list`, and the drag session `data` (`dragging`, `current`
 * and the snapshot `data.list`). `sortCalls` records the list handed to
 * `onSort` at each call, in order.
 */
module Sortable {
  import opened JsArray
  import opened Reorder
  import opened Tree
  import opened Optional

  class SortableList<T> {
    var children: Node<T>
    var hasOnSort: bool
    var items: seq<Wrapped<T>>
    var count: nat
    var list: seq<nat>
    var dragging: bool
    var current: Option<nat>
    var snapshot: seq<nat>
    var sortCalls: seq<seq<nat>>

    /**
     * Between calls: the items are the `<Item>` leaves of the children,
     * numbered in traversal order; the cursor is back at 0; a session is
     * open exactly when a dragged index is recorded, and a closed session
     * keeps no snapshot.
     */
    ghost predicate Valid()
      reads this
    {
      items == Numbered(0, Leaves(children)) && count == 0
      && (dragging <==> current.Some?) && (!dragging ==> snapshot == [])
    }

    /** A valid state whose list orders all the items, dragging one of them if any. */
    ghost predicate Ordered()
      reads this
    {
      Valid() && IsPermutation(list, |items|) && (current.Some? ==> current.value in list)
    }

    /** `constructor`: wrap the children and show them in their own order. */
    constructor (children: Node<T>, hasOnSort: bool)
      ensures this.children == children && this.hasOnSort == hasOnSort
      ensures items == Numbered(0, Leaves(children)) && list == Identity(|items|)
      ensures count == 0 && !dragging && current == None && snapshot == [] && sortCalls == []
      ensures Ordered()
    {
      this.children := children;
      this.hasOnSort := hasOnSort;
      items := [];
      count := 0;
      dragging := false;
      current := None;
      snapshot := [];
      list := [];
      sortCalls := [];
      new;
      Wrap(children);
      list := Identity(|items|);
    }

    /**
     * `componentWillReceiveProps`: when the children are a different value
     * (`sameChildren` is false), rewrap them and go back to their own order.
     * The drag session is left as it is.
     */
    method ReceiveProps(next: Node<T>, sameChildren: bool, nextHasOnSort: bool)
      requires sameChildren ==> next == children
      modifies this`children, this`hasOnSort, this`items, this`list
      ensures children == next && hasOnSort == nextHasOnSort
      ensures sameChildren ==> items == old(items) && list == old(list)
      ensures !sameChildren ==> items == Numbered(0, Leaves(next)) && list == Identity(|items|)
      ensures old(Valid()) ==> Valid()
      ensures old(Ordered()) && (current.Some? ==> current.value < |items|) ==> Ordered()
    {
      if !sameChildren {
        items := [];
        Wrap(next);
        list := Identity(|items|);
        if current.Some? && current.value < |items| {
          IncreasingPermutationIsIdentity(list, |items|);
          assert list[current.value] == current.value;
        }
      }
      children := next;
      hasOnSort := nextHasOnSort;
    }

    /**
     * `wrap`: append a wrapper for every `<Item>` leaf of `node`, in
     * traversal order, each numbered with its position in `items`.
     */
    method Wrap(node: Node<T>)
      modifies this`items
      ensures items == old(items) + Numbered(|old(items)|, Leaves(node))
      decreases node
    {
      match node {
        case Empty =>
        case Many(cs) =>
          var i := 0;
          while i < |cs|
            invariant 0 <= i <= |cs|
            invariant items == old(items) + Numbered(|old(items)|, LeavesAll(cs[..i]))
          {
            Wrap(cs[i]);
            NumberedAppend(|old(items)|, LeavesAll(cs[..i]), Leaves(cs[i]));
            assert cs[..i + 1][..i] == cs[..i];
            i := i + 1;
          }
          assert cs[..|cs|] == cs;
        case Leaf(p) =>
          var index := |items|;
          items := items + [Wrapped(index, p)];
        case Element(_, ch) =>
          if ch != Empty {
            Wrap(ch);
          }
        case Other(_) =>
      }
    }

    /**
     * `sort`: the tree to render for `node`, each `<Item>` replaced by the
     * wrapper the list names at the cursor, which advances once per item.
     */
    method Sort(node: Node<T>) returns (r: View<T>)
      modifies this`count
      ensures r == Shown(node, list, items, old(count))
      ensures count == old(count) + |Leaves(node)|
      decreases Size(node)
    {
      match node {
        case Empty =>
          r := Null;
        case Many(cs) =>
          var vs: seq<View<T>> := [];
          var i := 0;
          while i < |cs|
            invariant 0 <= i <= |cs|
            invariant vs == ShownAll(cs[..i], list, items, old(count))
            invariant count == old(count) + |LeavesAll(cs[..i])|
          {
            SizeOfChild(cs, i);
            var v := Sort(cs[i]);
            assert cs[..i + 1][..i] == cs[..i];
            vs := vs + [v];
            i := i + 1;
          }
          assert cs[..|cs|] == cs;
          r := Views(vs);
        case Leaf(_) =>
          var item: Option<Wrapped<T>> := None;
          if count < |list| && list[count] < |items| {
            item := Some(items[list[count]]);
          }
          count := count + 1;
          r := Slot(item);
        case Element(p, ch) =>
          if ch == Empty {
            r := Kept(node);
          } else {
            SizeBelowElement(p, ch);
            ChildrenLeaves(ch);
            var v := Sort(Many(Children(ch)));
            r := Cloned(p, v.views);
          }
        case Other(_) =>
          r := Kept(node);
      }
    }

    /** `render`: sort the children, then reset the cursor. */
    method Render() returns (r: View<T>)
      modifies this`count
      ensures r == Shown(children, list, items, old(count))
      ensures count == 0
    {
      r := Sort(children);
      count := 0;
    }

    /**
     * `handleDragStart` on the item with `data-index` i: open a session
     * unless one is open, recording i and a copy of the live list.
     */
    method DragStart(i: nat)
      modifies this`dragging, this`current, this`snapshot
      ensures old(dragging) ==> dragging && current == old(current) && snapshot == old(snapshot)
      ensures !old(dragging) ==> dragging && current == Some(i) && snapshot == list
      ensures old(Valid()) ==> Valid()
      ensures old(Ordered()) && (old(dragging) || i < |items|) ==> Ordered()
    {
      if Ordered() && i < |items| {
        PermutationHoldsAll(list, |items|, i);
      }
      if !dragging {
        dragging := true;
        current := Some(i);
        snapshot := list;
      }
    }

    /**
     * `handleDragEnter` on the item with `data-index` i: during a session,
     * move the dragged index next to i unless it is i itself.
     */
    method DragEnter(i: nat)
      requires dragging ==> current.Some?
      modifies this`list
      ensures dragging && current != Some(i) ==> list == Moved(old(list), current.value, i)
      ensures !(dragging && current != Some(i)) ==> list == old(list)
      ensures old(Ordered()) ==> Ordered()
    {
      if dragging && current != Some(i) {
        if Ordered() {
          MovePreservesPermutation(list, |items|, current.value, i);
        }
        SortPosition(current.value, i);
      }
    }

    /**
     * `sortPosition(x, y)`: take `x` out of the live list and put it back
     * behind `y` if it came from at or before `y`'s position in the
     * shortened list, in front of `y` otherwise.
     */
    method SortPosition(x: nat, y: nat)
      modifies this`list
      ensures list == Moved(old(list), x, y)
    {
      var xIndex := IndexOf(list, x);
      list := SpliceDelete(list, xIndex);
      var yIndex := IndexOf(list, y);
      if xIndex <= yIndex {
        list := SpliceInsert(list, yIndex + 1, x);
      } else {
        list := SpliceInsert(list, yIndex, x);
      }
    }

    /**
     * `handleDrop`: hand the live list to `onSort` when it is a function and
     * the '-'-joined list differs from the '-'-joined snapshot, then close
     * the session.
     */
    method Drop()
      modifies this`sortCalls, this`dragging, this`current, this`snapshot
      ensures sortCalls == old(sortCalls) + if hasOnSort && old(snapshot) != list then [list] else []
      ensures !dragging && current == None && snapshot == []
      ensures old(Valid()) ==> Valid()
      ensures old(Ordered()) ==> Ordered()
    {
      JoinInjective(snapshot, list);
      if hasOnSort && Join(snapshot) != Join(list) {
        sortCalls := sortCalls + [list];
      }
      dragging := false;
      current := None;
      snapshot := [];
    }
  }

  /**
   * What `render` shows for items wrapped from `children` and a list that
   * orders them: at the k-th `<Item>` position, the wrapper of the item
   * with original index list[k], carrying that item's props.
   */
  lemma RenderShowsOrder<T>(children: Node<T>, items: seq<Wrapped<T>>, list: seq<nat>)
    requires items == Numbered(0, Leaves(children)) && IsPermutation(list, |items|)
    ensures var slots := Slots(Shown(children, list, items, 0));
      |slots| == |list|
      && forall k :: 0 <= k < |list| ==> slots[k] == Some(Wrapped(list[k], Leaves(children)[list[k]]))
  {
    ShownSlots(children, list, items, 0);
    var slots := Slots(Shown(children, list, items, 0));
    forall k | 0 <= k < |list|
      ensures slots[k] == Some(Wrapped(list[k], Leaves(children)[list[k]]))
    {
      assert slots[k] == Lookup(list, items, k);
      assert items[list[k]] == Wrapped(list[k], Leaves(children)[list[k]]);
    }
  }
}
