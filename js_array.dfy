/**
 * The parts of the JavaScript array library that the reordering engine of
 * `SortableList` relies on, with the semantics of the ECMAScript standard:
 * `Array.prototype.indexOf` (which answers -1 for a missing element),
 * `Array.prototype.splice` (whose start index is normalised, so that -1
 * stands for the last element) and `Array.prototype.join` applied to
 * non-negative integers.
 */
module JsArray {

  /** `s.indexOf(x)`: the first position of `x` in `s`, or -1 when `x` is absent. */
  function IndexOf(s: seq<nat>, x: nat): (r: int)
    ensures -1 <= r < |s|
    ensures r == -1 <==> x !in s
    ensures 0 <= r ==> s[r] == x
  {
    if |s| == 0 then -1
    else if s[0] == x then 0
    else
      var r := IndexOf(s[1..], x);
      if r == -1 then -1 else r + 1
  }

  /** `indexOf` finds the FIRST occurrence. */
  lemma {:induction false} IndexOfIsFirst(s: seq<nat>, x: nat, i: nat)
    requires i < IndexOf(s, x)
    ensures s[i] != x
  {
    if i > 0 {
      IndexOfIsFirst(s[1..], x, i - 1);
    }
  }

  /**
   * The position `splice(start, ...)` acts on in an array of length `len`:
   * a negative start counts from the end (and stops at 0), a start past the
   * end is the end.
   */
  function SpliceStart(len: nat, start: int): (k: nat)
    ensures k <= len
    ensures 0 <= start ==> k == if start <= len then start else len
    ensures start < 0 ==> k == if -start <= len then len + start else 0
  {
    if start < 0 then (if len + start < 0 then 0 else len + start)
    else if start <= len then start else len
  }

  /** `s.splice(start, 1)`: removes the element at the normalised start, if there is one. */
  function SpliceDelete(s: seq<nat>, start: int): (r: seq<nat>)
    ensures var k := SpliceStart(|s|, start);
      if k < |s| then
        |r| == |s| - 1 && forall i :: 0 <= i < |r| ==> r[i] == if i < k then s[i] else s[i + 1]
      else r == s
  {
    var k := SpliceStart(|s|, start);
    if k < |s| then s[..k] + s[k + 1..] else s
  }

  /** The elements in front of the removed one stay, the ones behind move up by one. */
  lemma SpliceDeleteAt(s: seq<nat>, k: nat)
    requires k < |s|
    ensures SpliceDelete(s, k) == s[..k] + s[k + 1..]
  {
  }

  /** `s.splice(start, 0, x)`: inserts `x` in front of the element at the normalised start. */
  function SpliceInsert(s: seq<nat>, start: int, x: nat): (r: seq<nat>)
    ensures var k := SpliceStart(|s|, start);
      |r| == |s| + 1
      && forall i :: 0 <= i < |r| ==> r[i] == if i < k then s[i] else if i == k then x else s[i - 1]
  {
    var k := SpliceStart(|s|, start);
    s[..k] + [x] + s[k..]
  }

  /** The elements in front of the insertion point stay, the others move down by one. */
  lemma SpliceInsertAt(s: seq<nat>, start: int, x: nat)
    ensures var k := SpliceStart(|s|, start);
      SpliceInsert(s, start, x) == s[..k] + [x] + s[k..]
  {
  }

  /** The decimal digit character for `d`. */
  function Digit(d: nat): (c: char)
    requires d < 10
    ensures '0' <= c <= '9'
  {
    (48 + d) as char
  }

  /** `String(n)` for a non-negative integer: its decimal numeral, without leading zeros. */
  function Decimal(n: nat): (s: string)
    ensures |s| >= 1
    ensures n >= 10 <==> |s| >= 2
    ensures forall i :: 0 <= i < |s| ==> '0' <= s[i] <= '9'
  {
    if n < 10 then [Digit(n)] else Decimal(n / 10) + [Digit(n % 10)]
  }

  /** `s.join('-')` on an array of non-negative integers. */
  function Join(s: seq<nat>): (r: string)
    ensures s == [] <==> r == []
  {
    if |s| == 0 then ""
    else if |s| == 1 then Decimal(s[0])
    else Decimal(s[0]) + "-" + Join(s[1..])
  }

  /** Different numbers have different numerals. */
  lemma {:induction false} DecimalInjective(m: nat, n: nat)
    requires Decimal(m) == Decimal(n)
    ensures m == n
  {
    if m >= 10 && n >= 10 {
      var dm, dn := Decimal(m), Decimal(n);
      assert dm[|dm| - 1] == Digit(m % 10) && dn[|dn| - 1] == Digit(n % 10);
      assert Decimal(m / 10) == dm[..|dm| - 1] == dn[..|dn| - 1] == Decimal(n / 10);
      DecimalInjective(m / 10, n / 10);
    }
  }

  /**
   * How a joined string begins: with the numeral of the first element,
   * followed either by nothing or by the separator '-'.
   */
  lemma JoinHead(a: seq<nat>)
    requires a != []
    ensures var u := Decimal(a[0]);
      |Join(a)| >= |u| && Join(a)[..|u|] == u
      && (|a| == 1 ==> Join(a) == u)
      && (|a| > 1 ==> |Join(a)| > |u| && Join(a)[|u|] == '-' && Join(a)[|u| + 1..] == Join(a[1..]))
  {
    var u := Decimal(a[0]);
    if |a| > 1 {
      var rest := "-" + Join(a[1..]);
      assert Join(a) == u + rest;
      assert (u + rest)[..|u|] == u;
      assert (u + rest)[|u|] == rest[0] == '-';
      assert (u + rest)[|u| + 1..] == rest[1..] == Join(a[1..]);
    } else {
      assert Join(a) == u;
    }
  }

  /**
   * The '-'-joined string determines the array: comparing two index arrays
   * by their joined strings is the same as comparing them element by element.
   */
  lemma {:induction false} JoinInjective(a: seq<nat>, b: seq<nat>)
    ensures Join(a) == Join(b) <==> a == b
  {
    if Join(a) == Join(b) && a != [] && b != [] {
      JoinHead(a);
      JoinHead(b);
      var u, v := Decimal(a[0]), Decimal(b[0]);
      assert |u| == |v|;
      DecimalInjective(a[0], b[0]);
      assert |a| > 1 <==> |b| > 1;
      if |a| > 1 {
        JoinInjective(a[1..], b[1..]);
        assert a == [a[0]] + a[1..] && b == [b[0]] + b[1..];
      }
    }
  }
}
