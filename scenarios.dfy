/**
 * Drag sessions on a list of five items, as a user would perform them, and
 * what they leave in the list and in the `onSort` calls.
 */
module Scenarios {
  import opened JsArray
  import opened Reorder
  import opened Tree
  import opened Optional
  import opened Sortable

  /** Five `<Item>`s side by side. */
  function Five(): Node<string> {
    Many([Leaf("a"), Leaf("b"), Leaf("c"), Leaf("d"), Leaf("e")])
  }

  lemma FiveLeaves()
    ensures Leaves(Five()) == ["a", "b", "c", "d", "e"]
  {
    var cs := Five().nodes;
    assert LeavesAll(cs[..1]) == ["a"] by { assert cs[..1][..0] == []; }
    assert LeavesAll(cs[..2]) == ["a", "b"] by { assert cs[..2][..1] == cs[..1]; }
    assert LeavesAll(cs[..3]) == ["a", "b", "c"] by { assert cs[..3][..2] == cs[..2]; }
    assert LeavesAll(cs[..4]) == ["a", "b", "c", "d"] by { assert cs[..4][..3] == cs[..3]; }
    assert LeavesAll(cs[..5]) == ["a", "b", "c", "d", "e"] by { assert cs[..5][..4] == cs[..4]; }
    assert cs[..5] == cs;
  }

  lemma IdentityFive()
    ensures Identity(5) == [0, 1, 2, 3, 4]
  {
    IncreasingPermutationIsIdentity(Identity(5), 5);
  }

  /** A fresh list of the five items with an `onSort` handler. */
  method NewFive() returns (s: SortableList<string>)
    ensures fresh(s) && s.hasOnSort && !s.dragging && s.current == None && s.snapshot == []
    ensures s.list == [0, 1, 2, 3, 4] && s.sortCalls == []
    ensures s.children == Five() && s.items == Numbered(0, Leaves(Five())) && s.count == 0
  {
    FiveLeaves();
    IdentityFive();
    s := new SortableList(Five(), true);
  }

  /** Start dragging item x and enter item y, a different one, in an idle list. */
  method Gesture(s: SortableList<string>, x: nat, y: nat)
    requires !s.dragging && x != y
    modifies s
    ensures s.dragging && s.current == Some(x) && s.snapshot == old(s.list)
    ensures s.list == Moved(old(s.list), x, y)
    ensures s.sortCalls == old(s.sortCalls) && s.hasOnSort == old(s.hasOnSort)
    ensures s.children == old(s.children) && s.items == old(s.items) && s.count == old(s.count)
  {
    Start(s, x);
    Enter(s, x, y);
  }

  /** Start dragging item x in an idle list. */
  method Start(s: SortableList<string>, x: nat)
    requires !s.dragging
    modifies s
    ensures s.dragging && s.current == Some(x) && s.snapshot == old(s.list) && s.list == old(s.list)
    ensures s.sortCalls == old(s.sortCalls) && s.hasOnSort == old(s.hasOnSort)
    ensures s.children == old(s.children) && s.items == old(s.items) && s.count == old(s.count)
  {
    s.DragStart(x);
  }

  /** Enter item y while item x, a different one, is dragged. */
  method Enter(s: SortableList<string>, x: nat, y: nat)
    requires s.dragging && s.current == Some(x) && x != y
    modifies s
    ensures s.dragging && s.current == Some(x) && s.list == Moved(old(s.list), x, y)
    ensures s.snapshot == old(s.snapshot) && s.sortCalls == old(s.sortCalls) && s.hasOnSort == old(s.hasOnSort)
    ensures s.children == old(s.children) && s.items == old(s.items) && s.count == old(s.count)
  {
    s.DragEnter(y);
  }

  /** On the five items in their own order, drag the first over the third. */
  method GestureForward(s: SortableList<string>)
    requires !s.dragging && s.list == [0, 1, 2, 3, 4]
    modifies s
    ensures s.dragging && s.current == Some(0) && s.snapshot == [0, 1, 2, 3, 4] && s.list == [1, 2, 0, 3, 4]
    ensures s.sortCalls == old(s.sortCalls) && s.hasOnSort == old(s.hasOnSort)
    ensures s.children == old(s.children) && s.items == old(s.items) && s.count == old(s.count)
  {
    Gesture(s, 0, 2);
    ForwardExample();
  }

  /** On the five items in their own order, drag the fourth over the second. */
  method GestureBackward(s: SortableList<string>)
    requires !s.dragging && s.list == [0, 1, 2, 3, 4]
    modifies s
    ensures s.dragging && s.current == Some(3) && s.snapshot == [0, 1, 2, 3, 4] && s.list == [0, 3, 1, 2, 4]
    ensures s.sortCalls == old(s.sortCalls) && s.hasOnSort == old(s.hasOnSort)
  {
    Gesture(s, 3, 1);
    BackwardExample();
  }

  /** Dragging the first item over the third: it lands behind it and `onSort` gets the new order. */
  method DragForward() returns (list: seq<nat>, calls: seq<seq<nat>>)
    ensures list == [1, 2, 0, 3, 4] && calls == [[1, 2, 0, 3, 4]]
  {
    var s := NewFive();
    GestureForward(s);
    assert s.list[0] != s.snapshot[0];
    s.Drop();
    list, calls := s.list, s.sortCalls;
  }

  /** Dragging the fourth item over the second: it lands in front of it. */
  method DragBackward() returns (list: seq<nat>, calls: seq<seq<nat>>)
    ensures list == [0, 3, 1, 2, 4] && calls == [[0, 3, 1, 2, 4]]
  {
    var s := NewFive();
    GestureBackward(s);
    assert s.list[1] != s.snapshot[1];
    s.Drop();
    list, calls := s.list, s.sortCalls;
  }

  /**
   * Entering the dragged item's own slot does nothing, and a second start
   * during a session is ignored: the first dragged item is the one moved.
   */
  method GuardsHold() returns (list: seq<nat>)
    ensures list == [1, 2, 0, 3, 4]
  {
    var s := NewFive();
    s.DragStart(0);
    s.DragEnter(0);
    s.DragStart(3);
    s.DragEnter(2);
    ForwardExample();
    list := s.list;
  }

  /** Dragging an item away and back again: the order is unchanged and `onSort` is not called. */
  method DragThereAndBack() returns (list: seq<nat>, calls: seq<seq<nat>>)
    ensures list == [0, 1, 2, 3, 4] && calls == []
  {
    var s := NewFive();
    GestureForward(s);
    ComeBack(s);
    s.Drop();
    list, calls := s.list, s.sortCalls;
  }

  /** Enter the item in front of the dragged first item, which has moved to the third slot. */
  method ComeBack(s: SortableList<string>)
    requires s.dragging && s.current == Some(0) && s.list == [1, 2, 0, 3, 4]
    modifies s
    ensures s.list == [0, 1, 2, 3, 4]
    ensures s.snapshot == old(s.snapshot) && s.sortCalls == old(s.sortCalls) && s.hasOnSort == old(s.hasOnSort)
    ensures s.dragging && s.current == Some(0)
  {
    BackToStart(s.list);
    s.DragEnter(1);
  }

  lemma BackToStart(s: seq<nat>)
    requires s == [1, 2, 0, 3, 4]
    ensures Moved(s, 0, 1) == [0, 1, 2, 3, 4]
  {
    assert Distinct(s);
    MoveIsRelocation(s, 2, 0);
    BackToStartRelocation();
  }

  lemma BackToStartRelocation()
    ensures Relocate([1, 2, 0, 3, 4], 2, 0) == [0, 1, 2, 3, 4]
  {
    var s := [1, 2, 0, 3, 4];
    var t := s[..2] + s[3..];
    assert t == [1, 2, 3, 4];
  }

  /**
   * A drop with no session open compares the empty snapshot with the live
   * list and so calls `onSort` again with the unchanged order.
   */
  method DropWhileIdle() returns (calls: seq<seq<nat>>)
    ensures calls == [[1, 2, 0, 3, 4], [1, 2, 0, 3, 4]]
  {
    var s := NewFive();
    GestureForward(s);
    assert s.list[0] != s.snapshot[0];
    s.Drop();
    s.Drop();
    calls := s.sortCalls;
  }

  /** After the forward drag, `render` shows the items in the new order. */
  method RenderAfterDrag() returns (slots: seq<Option<Wrapped<string>>>)
    ensures slots == [Some(Wrapped(1, "b")), Some(Wrapped(2, "c")), Some(Wrapped(0, "a")),
                      Some(Wrapped(3, "d")), Some(Wrapped(4, "e"))]
  {
    var s := NewFive();
    GestureForward(s);
    var v := s.Render();
    ForwardSlots(v);
    slots := Slots(v);
  }

  lemma ForwardSlots(v: View<string>)
    requires v == Shown(Five(), [1, 2, 0, 3, 4], Numbered(0, Leaves(Five())), 0)
    ensures Slots(v) == [Some(Wrapped(1, "b")), Some(Wrapped(2, "c")), Some(Wrapped(0, "a")),
                         Some(Wrapped(3, "d")), Some(Wrapped(4, "e"))]
  {
    FiveLeaves();
    ForwardIsPermutation();
    RenderShowsOrder(Five(), Numbered(0, Leaves(Five())), [1, 2, 0, 3, 4]);
    var slots := Slots(v);
    assert |slots| == 5;
    assert slots[0] == Some(Wrapped(1, "b")) && slots[1] == Some(Wrapped(2, "c"));
    assert slots[2] == Some(Wrapped(0, "a")) && slots[3] == Some(Wrapped(3, "d"));
    assert slots[4] == Some(Wrapped(4, "e"));
  }

  lemma ForwardIsPermutation()
    ensures IsPermutation([1, 2, 0, 3, 4], 5)
  {
    var s := [0, 1, 2, 3, 4];
    IdentityFive();
    MovePreservesPermutation(s, 5, 0, 2);
    ForwardExample();
  }

  /**
   * The children shrink to three items while the fifth is being dragged:
   * the session survives, the dragged index is no longer in the list, and
   * entering the first item throws out the last index and shows a slot
   * with nothing in it.
   */
  method ChildrenChangeDuringDrag() returns (list: seq<nat>, second: Option<Wrapped<string>>)
    ensures list == [0, 4, 1] && second == None
  {
    var s := NewFive();
    s.DragStart(4);
    Shrink(s);
    EnterFirst(s);
    var v := s.Render();
    ShownSlots(s.children, s.list, s.items, 0);
    assert Slots(v) == Lookups(s.list, s.items, 0, 3);
    list := s.list;
    second := Slots(v)[1];
  }

  /** The children become three items; the list goes back to [0, 1, 2]. */
  method Shrink(s: SortableList<string>)
    requires s.dragging && s.current == Some(4)
    modifies s
    ensures s.dragging && s.current == Some(4) && s.list == [0, 1, 2]
    ensures s.children == Three() && |s.items| == 3 && |Leaves(s.children)| == 3 && s.count == old(s.count)
  {
    ThreeItems();
    s.ReceiveProps(Three(), false, true);
  }

  /** Entering the first item while the missing fifth one is dragged. */
  method EnterFirst(s: SortableList<string>)
    requires s.dragging && s.current == Some(4) && s.list == [0, 1, 2]
    modifies s
    ensures s.list == [0, 4, 1]
    ensures s.children == old(s.children) && s.items == old(s.items) && s.count == old(s.count)
  {
    s.DragEnter(0);
    LostLast();
  }

  /** Three `<Item>`s side by side. */
  function Three(): Node<string> {
    Many([Leaf("a"), Leaf("b"), Leaf("c")])
  }

  lemma ThreeItems()
    ensures |Leaves(Three())| == 3 && Identity(3) == [0, 1, 2]
  {
    var cs := Three().nodes;
    assert LeavesAll(cs[..1]) == ["a"] by { assert cs[..1][..0] == []; }
    assert LeavesAll(cs[..2]) == ["a", "b"] by { assert cs[..2][..1] == cs[..1]; }
    assert LeavesAll(cs[..3]) == ["a", "b", "c"] by { assert cs[..3][..2] == cs[..2]; }
    assert cs[..3] == cs;
    IncreasingPermutationIsIdentity(Identity(3), 3);
  }

  lemma LostLast()
    ensures Moved([0, 1, 2], 4, 0) == [0, 4, 1]
  {
    var s := [0, 1, 2];
    assert IndexOf(s, 4) == -1;
  }
}
