# SortableList reordering engine, in Dafny

This project models the `SortableList` React component of
`react-easy-sortable` (src/index.js). The component shows its `<Item>`
children in an order the user changes by drag and drop, and it reports
each new order to an `onSort` handler. Its engine has these parts:

- **The permutation.** `state.list` holds the original item indices in
  display order. It starts as `[0, 1, ..., N-1]` (`getListByItems`). It is
  rebuilt the same way whenever the children change (`constructor`,
  `componentWillReceiveProps`).
- **The move.** `sortPosition(x, y)` takes `x` out of the list in place.
  It puts `x` back behind `y` when `x` came from at or before `y`'s place.
  Otherwise it puts `x` in front of `y`.
- **The drag session** (`this.data`). `handleDragStart` opens a session and
  keeps a copy of the list. `handleDragEnter` moves the dragged index next
  to the entered one. `handleDrop` calls `onSort` when the '-'-joined list
  differs from the '-'-joined copy, then closes the session.
- **Bookkeeping.** `wrap` numbers the `<Item>` leaves of the child tree
  0..N-1 in traversal order. `sort` walks the same tree and shows
  `items[list[k]]` at the k-th leaf, using the `count` cursor that `render`
  resets.

The files:

- `js_array.dfy` (module `JsArray`) models the JavaScript array operations
  the engine uses, with their ECMAScript semantics:
  - `indexOf` returns -1 when the element is missing;
  - `splice` normalises its start, so `splice(-1, 1)` removes the last element;
  - `join('-')` joins decimal numerals with '-'.
- `option.dfy` (module `Optional`) holds `Option`, for values the component
  may leave `undefined`: the dragged index and the wrapper a slot shows.
- `reorder.dfy` (module `Reorder`) holds:
  - the identity list;
  - the move `Moved`, defined step by step as `sortPosition` computes it;
  - the move's properties: it keeps the list a permutation, the direction
    rule, and the order of the other indices.
- `tree.dfy` (module `Tree`) holds the child tree, the wrappers and what
  `sort` returns. Its lemmas state what `sort` shows and which structure it
  keeps.
- `sortable_list.dfy` (module `Sortable`) holds the class `SortableList`.
  Its fields are the component's own, and its methods are the component's.
  `sortCalls` records the list passed to each `onSort` call.
- `scenarios.dfy` (module `Scenarios`) holds concrete drag sessions on five
  items, with their outcome in the list, in the `onSort` calls and on
  screen.

Behaviour of the code that the model keeps as written:

- **A drop outside a session.** The comment at src/index.js:119 says
  `onSort` is not called when the order is unchanged. That holds within a
  session. Outside one, the snapshot is `[]`, so `handleDrop` calls
  `onSort` with the unchanged order whenever there is at least one item,
  and repeated drops call it again each time (`Scenarios.DropWhileIdle`).
- **New children during a drag.** `componentWillReceiveProps` rebuilds the
  list but leaves an open drag session alone. If the dragged index is no
  longer in the new list, `indexOf` gives -1 and `splice(-1, 1)` drops the
  last index instead. The dragged index, now out of range, goes in, and
  `render` shows nothing at its slot (`Reorder.MoveAbsentDraggedLosesLast`,
  `Scenarios.ChildrenChangeDuringDrag`). For this reason the class keeps
  its ordering invariant only while the dragged index is still in the list.
- **A total move.** The move is defined for every input. Its properties are
  lemmas that state the conditions they need: the dragged index must be in
  the list, and for the direction rule the target must be in it too and
  differ from the dragged index.

## Model

| member | source | states |
|---|---|---|
| `JsArray.IndexOf` | src/index.js:207-209 | `indexOf` answers -1 exactly when the index is missing; otherwise it answers a position holding the index |
| `JsArray.IndexOfIsFirst` | src/index.js:207 | no position before the one `indexOf` answers holds the index |
| `JsArray.SpliceDelete` | src/index.js:208 | `splice(start, 1)` at a normalised start k inside the list makes it one shorter: every position before k keeps its element and every later position holds the element that was one behind it; a start past the end changes nothing |
| `JsArray.SpliceInsert` | src/index.js:212-214 | `splice(start, 0, x)` makes the list one longer: every position before the normalised start k keeps its element, `x` is at k, and every later position holds the element that was one in front of it |
| `JsArray.Decimal` | src/index.js:122 | the numeral of a natural number is a non-empty string of digits, of length at least two exactly from 10 on |
| `JsArray.Join` | src/index.js:122 | the joined string is empty exactly when the list is empty |
| `JsArray.DecimalInjective` | src/index.js:122 | different numbers have different numerals |
| `JsArray.JoinHead` | src/index.js:122 | a joined string starts with the first numeral, and after it comes '-' and the join of the rest |
| `JsArray.JoinInjective` | src/index.js:119-122 | two joined lists are equal strings exactly when the lists are equal, so the string comparison in `handleDrop` is a list comparison |
| `Reorder.Moved` | src/index.js:205-215 | the definition of `sortPosition` on the list, step by step on `indexOf` and `splice`; its own contract: the dragged index always ends in the list, and the length is kept except that an empty list gains it. `MovedShape`, `MoveIsRelocation`, `MovePreservesPermutation`, `MoveForward`, `MoveBackward`, `MoveKeepsOthersInOrder` and `MoveAbsentDraggedLosesLast` state its properties |
| `Reorder.InsertAt` | src/index.js:209-215 | the definition of the reinsertion start: `yIndex + 1` when `xIndex <= yIndex`, otherwise `yIndex`, where `yIndex` is the target's position in the shortened list; `InsertionPoint` and `MoveIsRelocation` state where it lands |
| `Reorder.PermutationHoldsAll` | src/index.js:63-65 | a permutation of 0..N-1 holds every index below N, so every item's index is somewhere in the list (the pigeonhole principle) |
| `Reorder.Identity` | src/index.js:63-65 | `getListByItems` gives an increasing permutation of 0..N-1 |
| `Reorder.IncreasingPermutationIsIdentity` | src/index.js:63-65 | an increasing permutation of 0..N-1 holds k at every position k, so the list is exactly [0, 1, ..., N-1] |
| `Reorder.InsertionPoint` | src/index.js:209-215 | the place the dragged index goes back to lies inside the list |
| `Reorder.MovedShape` | src/index.js:205-215 | when the dragged index is in the list, the move takes it out of its position and reinserts it at one place in the shortened list, whatever the target is |
| `Reorder.IndexOfDistinct` | src/index.js:207-209 | in a list without repetitions, `indexOf` finds each element at its own position |
| `Reorder.RelocateElements` | src/index.js:208-214 | one removal and one reinsertion keep the length and the multiset of elements |
| `Reorder.DeleteDistinct` | src/index.js:208 | removing an element keeps a list free of repetitions |
| `Reorder.InsertDistinct` | src/index.js:212-214 | inserting an element that is absent keeps a list free of repetitions |
| `Reorder.RelocateDistinct` | src/index.js:208-214 | one removal and one reinsertion keep a list free of repetitions |
| `Reorder.RelocateLands` | src/index.js:208-214 | the reinserted element sits at the insertion place, and taking it out again gives the shortened list |
| `Reorder.RelocateNeighbour` | src/index.js:211-215 | the element formerly at the insertion place ends next to the reinserted one: in front of it after a forward move, behind it after a backward move |
| `Reorder.RelocateBeside` | src/index.js:211-215 | in a list without repetitions, `indexOf` finds the relocated element at the insertion place and the element that was there right beside it, on the side the relocated one came from |
| `Reorder.MoveIsRelocation` | src/index.js:205-215 | with both indices present and different, the dragged index takes the target's former position and the indices in between shift by one |
| `Reorder.MovePreservesPermutation` | src/index.js:205-218 | the move keeps the list a permutation of 0..N-1 whenever the dragged index is in it |
| `Reorder.MoveForward` | src/index.js:207-212 | dragged forward, from before the target, the dragged index ends immediately behind the target |
| `Reorder.MoveBackward` | src/index.js:207-214 | dragged backward, from behind the target, the dragged index ends immediately in front of the target |
| `Reorder.MoveKeepsOthersInOrder` | src/index.js:208-214 | splicing the dragged index out of the result leaves the same list as splicing it out of the input, so every other index keeps its relative order |
| `Reorder.MoveAbsentDraggedLosesLast` | src/index.js:207-209 | a dragged index missing from a non-empty list keeps the length, but the last element is lost and the dragged index is added |
| `Reorder.ForwardExample` | src/index.js:205-218 | dragging 0 over 2 in [0,1,2,3,4] gives [1,2,0,3,4] |
| `Reorder.BackwardExample` | src/index.js:205-218 | dragging 3 over 1 in [0,1,2,3,4] gives [0,3,1,2,4] |
| `Reorder.ToEndExample` | src/index.js:205-218 | dragging 0 over 4 in [0,1,2,3,4] gives [1,2,3,4,0] |
| `Tree.Children` | src/index.js:190 | the definition of the children `sort` walks below an element: `props.children` itself when it is an array, otherwise a one-element array; `ChildrenLeaves` and `SizeBelowElement` state its properties |
| `Tree.Leaves` | src/index.js:142-169 | the definition of the `<Item>` leaves `wrap` visits, in its order, skipping falsy children and non-element values; `SortableList.Wrap` and `ChildrenLeaves` state its properties |
| `Tree.LeavesAll` | src/index.js:147-148 | the definition of the leaves of an array of children, one child after the other, as `forEach` visits them |
| `Tree.Lookup` | src/index.js:186-187 | the definition of `this.items[this.state.list[j]]`: the wrapper there, or nothing (`undefined`) when either index is out of range |
| `Tree.Shown` | src/index.js:178-195 | the definition of what `sort` returns for a child tree and a starting cursor; `ShownSlots` and `ShownFrame` state its properties and `SortableList.Sort` is proved to return it |
| `Tree.ShownAll` | src/index.js:183-184 | the definition of `node.map(child => this.sort(child))`, with the cursor carried from each child to the next; `ShownAllSlots` and `ShownAllFrame` state its properties |
| `Tree.ChildrenLeaves` | src/index.js:189-191 | walking an element's children as an array (which `sort` does) visits the same `<Item>` leaves as walking `props.children` directly (which `wrap` does) |
| `Tree.NumberedAppend` | src/index.js:147-148 | wrapping one run of children after another numbers their leaves consecutively |
| `Tree.ShownSlots` | src/index.js:185-188 | the k-th `<Item>` of a tree shows the wrapper at list position c+k, where c is the cursor `sort` starts with; it shows nothing where that position or the index stored there is out of range |
| `Tree.ShownAllSlots` | src/index.js:183-184 | the same for an array of children walked one after the other |
| `Tree.ShownFrame` | src/index.js:178-195 | what `sort` returns keeps the shape of the child tree, whatever the list, the items and the cursor are; only what the slots show differs |
| `Tree.ShownAllFrame` | src/index.js:183-184 | the same for an array of children |
| `Sortable.SortableList.constructor` | src/index.js:24-38 | the items are the numbered `<Item>` leaves, the list is the identity, no session is open, no `onSort` call has been made, and the state is ordered |
| `Sortable.SortableList.ReceiveProps` | src/index.js:46-55 | different children are rewrapped and the list goes back to the identity; the same children change nothing; the session is kept as it is |
| `Sortable.SortableList.Wrap` | src/index.js:142-169 | the items grow by one wrapper per `<Item>` leaf, in traversal order, each numbered with its position in `items` |
| `Sortable.SortableList.Sort` | src/index.js:178-195 | the returned tree is the one `Tree.Shown` describes for the current cursor, and the cursor advances once per `<Item>` leaf |
| `Sortable.SortableList.Render` | src/index.js:225-238 | `render` shows the tree `sort` builds from the current cursor and then resets the cursor to 0 |
| `Sortable.SortableList.DragStart` | src/index.js:73-80 | during a session nothing changes; otherwise a session opens with the given index and a copy of the live list, and an ordered state stays ordered when that index names an item (a permutation of 0..N-1 holds every index below N) |
| `Sortable.SortableList.DragEnter` | src/index.js:88-94 | during a session, entering another item moves the dragged index; outside a session, or on the dragged item itself, the list is unchanged; the state stays ordered |
| `Sortable.SortableList.SortPosition` | src/index.js:205-218 | the live list becomes `Moved` of the old list, whose properties are the `Reorder` lemmas |
| `Sortable.SortableList.Drop` | src/index.js:114-133 | `onSort` is called once, with the live list, exactly when it is a function and the list differs from the snapshot; the session is always closed and the state stays ordered |
| `Sortable.RenderShowsOrder` | src/index.js:185-188 | in an ordered state, `render` shows at the k-th `<Item>` the wrapper of the item with original index list[k], carrying that item's props |
| `Scenarios.NewFive` | src/index.js:24-38 | a new list of five items shows them in the order [0,1,2,3,4] and has made no `onSort` call |
| `Scenarios.Gesture` | src/index.js:73-94 | a drag start followed by an enter on another item opens a session on the dragged index, snapshots the list and moves the index once |
| `Scenarios.DragForward` | src/index.js:114-133 | dragging the first item over the third and dropping gives [1,2,0,3,4] and one `onSort` call with it |
| `Scenarios.DragBackward` | src/index.js:114-133 | dragging the fourth item over the second and dropping gives [0,3,1,2,4] and one `onSort` call with it |
| `Scenarios.GuardsHold` | src/index.js:74-93 | entering the dragged item itself does nothing, and a second start during a session is ignored |
| `Scenarios.DragThereAndBack` | src/index.js:119-125 | a drag that returns the item to its place calls no `onSort` |
| `Scenarios.ComeBack` | src/index.js:88-94 | entering the item in front moves the dragged first item back to the front |
| `Scenarios.DropWhileIdle` | src/index.js:119-132 | a second drop after a session calls `onSort` again with the unchanged list |
| `Scenarios.RenderAfterDrag` | src/index.js:225-238 | after the forward drag, `render` shows the items b, c, a, d, e |
| `Scenarios.ChildrenChangeDuringDrag` | src/index.js:46-55 | new children during a drag leave the session open; the next enter corrupts the list to [0,4,1], and `render` shows nothing in the second slot |

## Left out

- React rendering is not modelled: the JSX `<div>` wrapper, prop spreading, `key`, event-handler `.bind`, `React.cloneElement` and the attributes `render` copies onto its outer `<div>`. A wrapper is its index and the `<Item>`'s props, and a cloned element is its props and its sorted children.
- The DOM drag-and-drop API is not modelled: `dataTransfer.setData`, `effectAllowed`, `dropEffect`, `preventDefault`, `event.persist` and `getAttribute`. Events are the inputs of `DragStart(i)`, `DragEnter(i)` and `Drop()`. `handleDragOver` (src/index.js:102-105) has no logic to model.
- `data-index` values are strings made from numbers (src/index.js:155). They are modelled as the numbers themselves, so the `!==` at src/index.js:91 and the `Number(...)` conversions at src/index.js:92 become comparisons and uses of naturals.
- `setState` is treated as an immediate assignment. React's batching of state updates and its lifecycle scheduling are not modelled.
- Whether the children changed is a reference comparison (`!==`). It is the parameter `sameChildren` of `ReceiveProps`, which must be false when the children differ as values.
- `onSort` is modelled only as whether it is a function. Its `this`, its `event.target` argument (a DOM node) and its effects are not modelled; `sortCalls` records the list it receives.
- Aliasing: `onSort` receives the live `state.list` array itself, and later moves change that same array in place. `sortCalls` records the list's value at each call, so it does not show those later changes.
- `PropTypes` validation (src/index.js:241-243) is not modelled.
- stories/index.js is not part of this model: it is a demo page with no logic.
- Falsy children (`null`, `undefined`, `false`, `''`, `0`) are one case, `Empty`, because `wrap` skips them all and `sort` turns them all into `null`.
- Sortable.SortableList.DragEnter: requires that an open session has a dragged index. The code always sets `dragging` and `current` together, and the case the requirement excludes would pass `Number(undefined)`, which is NaN, to `sortPosition`.
