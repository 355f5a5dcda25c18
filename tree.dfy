/**
 * The children a `SortableList` is given, the sortable items `wrap` collects
 * from them, and the tree `sort` returns for rendering (src/index.js).
 *
 * A child tree is what React passes as `props.children`: a falsy value, an
 * array, an `<Item>` element, another element with its own
 * `props.children`, or some other value (a string, say). React elements are
 * opaque here: an element is its `props` of type `T`.
 */
module Tree {
  import opened Optional

  /** A child tree. */
  datatype Node<T> =
    | Empty                               // a falsy child: null, undefined, false, ''
    | Many(nodes: seq<Node<T>>)           // an array of children
    | Leaf(props: T)                      // an <Item> element
    | Element(props: T, children: Node<T>) // any other element; Empty when it has no children
    | Other(value: T)                     // a truthy value that is not an element

  /** The wrapper `wrap` builds around an `<Item>`: its `key` and `data-index`, and its props. */
  datatype Wrapped<T> = Wrapped(index: nat, props: T)

  /** What `sort` returns for a child tree. */
  datatype View<T> =
    | Null                                 // for a falsy child
    | Views(views: seq<View<T>>)           // for an array, element by element
    | Slot(item: Option<Wrapped<T>>)       // for an <Item>: the wrapper shown there, None for undefined
    | Cloned(props: T, children: seq<View<T>>) // an element cloned with its children sorted
    | Kept(node: Node<T>)                  // returned unchanged

  /** A measure that makes an element larger than the one-element array of its children. */
  function Size<T>(n: Node<T>): (z: nat)
    ensures z >= 1
  {
    match n
    case Many(cs) => 1 + SizeAll(cs)
    case Element(_, ch) => 2 + Size(ch)
    case _ => 1
  }

  function SizeAll<T>(cs: seq<Node<T>>): nat {
    if cs == [] then 0 else SizeAll(cs[..|cs| - 1]) + Size(cs[|cs| - 1])
  }

  lemma {:induction false} SizeOfChild<T>(cs: seq<Node<T>>, i: nat)
    requires i < |cs|
    ensures Size(cs[i]) <= SizeAll(cs)
  {
    if i < |cs| - 1 {
      SizeOfChild(cs[..|cs| - 1], i);
    }
  }

  /**
   * The children `sort` walks below an element: `props.children` itself when
   * it is an array, otherwise a one-element array.
   */
  function Children<T>(ch: Node<T>): seq<Node<T>> {
    if ch.Many? then ch.nodes else [ch]
  }

  /** The props of the `<Item>` leaves, in the order `wrap` visits them. */
  function Leaves<T>(n: Node<T>): seq<T> {
    match n
    case Empty => []
    case Many(cs) => LeavesAll(cs)
    case Leaf(p) => [p]
    case Element(_, ch) => Leaves(ch)
    case Other(_) => []
  }

  function LeavesAll<T>(cs: seq<Node<T>>): seq<T> {
    if cs == [] then [] else LeavesAll(cs[..|cs| - 1]) + Leaves(cs[|cs| - 1])
  }

  /** Walking an element's children as an array visits the same leaves as walking them directly. */
  lemma ChildrenLeaves<T>(ch: Node<T>)
    ensures LeavesAll(Children(ch)) == Leaves(ch)
  {
    if !ch.Many? {
      assert [ch][..0] == [];
    }
  }

  /** The wrappers for leaves with props `ps`, numbered from `base` on. */
  function Numbered<T>(base: nat, ps: seq<T>): seq<Wrapped<T>> {
    seq(|ps|, i requires 0 <= i < |ps| => Wrapped(base + i, ps[i]))
  }

  /** Numbering two runs of leaves one after the other numbers their concatenation. */
  lemma NumberedAppend<T>(base: nat, ps: seq<T>, qs: seq<T>)
    ensures Numbered(base, ps + qs) == Numbered(base, ps) + Numbered(base + |ps|, qs)
  {
    var l, r := Numbered(base, ps + qs), Numbered(base, ps) + Numbered(base + |ps|, qs);
    assert |l| == |r|;
    forall i | 0 <= i < |l| ensures l[i] == r[i] {
      if i >= |ps| {
        assert r[i] == Numbered(base + |ps|, qs)[i - |ps|];
      }
    }
  }

  /**
   * `this.items[this.state.list[j]]`: the wrapper the j-th `<Item>` shows,
   * None (`undefined`) when `j` or the index stored there is out of range.
   */
  function Lookup<T>(list: seq<nat>, items: seq<Wrapped<T>>, j: nat): Option<Wrapped<T>> {
    if j < |list| && list[j] < |items| then Some(items[list[j]]) else None
  }

  /**
   * The tree `sort` returns for `n` when its cursor `count` starts at `c`.
   * Each `<Item>` reads the list at the cursor and advances it by one.
   */
  function Shown<T>(n: Node<T>, list: seq<nat>, items: seq<Wrapped<T>>, c: nat): View<T>
    decreases Size(n), 0
  {
    match n
    case Empty => Null
    case Many(cs) => Views(ShownAll(cs, list, items, c))
    case Leaf(_) => Slot(Lookup(list, items, c))
    case Element(p, ch) =>
      if ch == Empty then Kept(n)
      else
        SizeBelowElement(p, ch);
        Cloned(p, ShownAll(Children(ch), list, items, c))
    case Other(_) => Kept(n)
  }

  function ShownAll<T>(cs: seq<Node<T>>, list: seq<nat>, items: seq<Wrapped<T>>, c: nat): seq<View<T>>
    decreases SizeAll(cs), 1
  {
    if cs == [] then []
    else
      var init := cs[..|cs| - 1];
      ShownAll(init, list, items, c) + [Shown(cs[|cs| - 1], list, items, c + |LeavesAll(init)|)]
  }

  /** Walking an element's children as an array is a smaller problem than the element. */
  lemma SizeBelowElement<T>(p: T, ch: Node<T>)
    ensures Size(Many(Children(ch))) < Size(Element(p, ch))
  {
    if !ch.Many? {
      assert [ch][..0] == [];
      assert SizeAll([ch]) == SizeAll([ch][..0]) + Size(ch);
    }
  }

  /** The shown wrappers, in traversal order. */
  function Slots<T>(v: View<T>): seq<Option<Wrapped<T>>> {
    match v
    case Views(vs) => SlotsAll(vs)
    case Slot(o) => [o]
    case Cloned(_, vs) => SlotsAll(vs)
    case _ => []
  }

  function SlotsAll<T>(vs: seq<View<T>>): seq<Option<Wrapped<T>>> {
    if vs == [] then [] else SlotsAll(vs[..|vs| - 1]) + Slots(vs[|vs| - 1])
  }

  /** The wrappers at cursor positions c .. c+m-1. */
  function Lookups<T>(list: seq<nat>, items: seq<Wrapped<T>>, c: nat, m: nat): seq<Option<Wrapped<T>>> {
    seq(m, k requires 0 <= k < m => Lookup(list, items, c + k))
  }

  lemma LookupsAppend<T>(list: seq<nat>, items: seq<Wrapped<T>>, c: nat, m: nat, m': nat)
    ensures Lookups(list, items, c, m + m') == Lookups(list, items, c, m) + Lookups(list, items, c + m, m')
  {
    var l, r := Lookups(list, items, c, m + m'), Lookups(list, items, c, m) + Lookups(list, items, c + m, m');
    forall k | 0 <= k < m + m' ensures l[k] == r[k] {
      if k >= m {
        assert r[k] == Lookups(list, items, c + m, m')[k - m];
      }
    }
  }

  /**
   * The k-th `<Item>` leaf of `n` shows the wrapper at list position c + k:
   * `sort` shows the items in the order the list gives.
   */
  lemma {:induction false} ShownSlots<T>(n: Node<T>, list: seq<nat>, items: seq<Wrapped<T>>, c: nat)
    ensures Slots(Shown(n, list, items, c)) == Lookups(list, items, c, |Leaves(n)|)
    decreases Size(n), 0
  {
    match n
    case Empty =>
    case Many(cs) =>
      ShownAllSlots(cs, list, items, c);
    case Leaf(_) =>
    case Element(p, ch) =>
      if ch != Empty {
        SizeBelowElement(p, ch);
        ShownAllSlots(Children(ch), list, items, c);
        ChildrenLeaves(ch);
      }
    case Other(_) =>
  }

  lemma {:induction false} ShownAllSlots<T>(cs: seq<Node<T>>, list: seq<nat>, items: seq<Wrapped<T>>, c: nat)
    ensures SlotsAll(ShownAll(cs, list, items, c)) == Lookups(list, items, c, |LeavesAll(cs)|)
    decreases SizeAll(cs), 1
  {
    if cs != [] {
      var init, last := cs[..|cs| - 1], cs[|cs| - 1];
      var m := |LeavesAll(init)|;
      var vs := ShownAll(cs, list, items, c);
      ShownAllSlots(init, list, items, c);
      ShownSlots(last, list, items, c + m);
      assert vs[..|vs| - 1] == ShownAll(init, list, items, c);
      LookupsAppend(list, items, c, m, |Leaves(last)|);
    }
  }

  /** A view with every slot emptied: the structure `sort` builds around the items. */
  function Frame<T>(v: View<T>): View<T> {
    match v
    case Views(vs) => Views(FrameAll(vs))
    case Slot(_) => Slot(None)
    case Cloned(p, vs) => Cloned(p, FrameAll(vs))
    case _ => v
  }

  function FrameAll<T>(vs: seq<View<T>>): seq<View<T>> {
    if vs == [] then [] else FrameAll(vs[..|vs| - 1]) + [Frame(vs[|vs| - 1])]
  }

  /**
   * The structure of what `sort` returns depends on the child tree alone:
   * neither the list, nor the items, nor the cursor changes anything but
   * what the slots show.
   */
  lemma {:induction false} ShownFrame<T>(n: Node<T>, list: seq<nat>, items: seq<Wrapped<T>>, c: nat,
                                         list': seq<nat>, items': seq<Wrapped<T>>, c': nat)
    ensures Frame(Shown(n, list, items, c)) == Frame(Shown(n, list', items', c'))
    decreases Size(n), 0
  {
    match n
    case Empty =>
    case Many(cs) =>
      ShownAllFrame(cs, list, items, c, list', items', c');
    case Leaf(_) =>
    case Element(p, ch) =>
      if ch != Empty {
        SizeBelowElement(p, ch);
        ShownAllFrame(Children(ch), list, items, c, list', items', c');
      }
    case Other(_) =>
  }

  lemma {:induction false} ShownAllFrame<T>(cs: seq<Node<T>>, list: seq<nat>, items: seq<Wrapped<T>>, c: nat,
                                            list': seq<nat>, items': seq<Wrapped<T>>, c': nat)
    ensures FrameAll(ShownAll(cs, list, items, c)) == FrameAll(ShownAll(cs, list', items', c'))
    decreases SizeAll(cs), 1
  {
    if cs != [] {
      var init, last := cs[..|cs| - 1], cs[|cs| - 1];
      var m := |LeavesAll(init)|;
      var vs, ws := ShownAll(cs, list, items, c), ShownAll(cs, list', items', c');
      ShownAllFrame(init, list, items, c, list', items', c');
      ShownFrame(last, list, items, c + m, list', items', c' + m);
      assert vs[..|vs| - 1] == ShownAll(init, list, items, c);
      assert ws[..|ws| - 1] == ShownAll(init, list', items', c');
    }
  }
}
