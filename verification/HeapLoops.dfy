/** The two loops of the heap: sinking an element to a leaf and back up, and rising from a new leaf. */
module HeapLoops {
  import opened HeapOrder

  /** Slots under s keep their place in the order, except for the element at idx, which may be too
      large for its children, or too small for its parent. */
  ghost predicate Sunk(cmp: (Elem, Elem) -> int, top: int, f: seq<Elem>, n: nat, s: nat, idx: nat) {
    && 0 < s <= idx < |f| && n < |f| && Under(s, idx)
    && (forall i {:trigger PairOk(cmp, top, f, n, i)} ::
          i > s && Under(s, i) && i != idx && i / 2 != idx ==> PairOk(cmp, top, f, n, i))
    && (idx > s ==> Le(cmp, top, f[s], f[idx]) && GrandOk(cmp, top, f, n, idx))
  }

  /** The children of idx are in order with its parent. */
  ghost predicate GrandOk(cmp: (Elem, Elem) -> int, top: int, f: seq<Elem>, n: nat, idx: nat) {
    idx < |f| && n < |f| && forall c :: 2 * idx <= c <= 2 * idx + 1 && c <= n ==> Le(cmp, top, f[idx / 2], f[c])
  }

  /** Only the element at idx may be out of order, and then it is too small for its parent. */
  ghost predicate Rising(cmp: (Elem, Elem) -> int, top: int, f: seq<Elem>, n: nat, s: nat, idx: nat) {
    && 0 < s <= idx < |f| && n < |f| && Under(s, idx)
    && (forall i {:trigger PairOk(cmp, top, f, n, i)} :: i > s && Under(s, i) && i != idx ==> PairOk(cmp, top, f, n, i))
    && (idx > s ==> GrandOk(cmp, top, f, n, idx))
  }

  function Swap(f: seq<Elem>, i: nat, j: nat): seq<Elem>
    requires i < |f| && j < |f|
  {
    f[i := f[j]][j := f[i]]
  }

  lemma SwapBag(f: seq<Elem>, i: nat, j: nat)
    requires i < |f| && j < |f|
    ensures multiset(Swap(f, i, j)) == multiset(f)
  {
  }

  /** c is a child of idx within the heap, and no other child sorts before it. */
  ghost predicate LeastChild(cmp: (Elem, Elem) -> int, top: int, f: seq<Elem>, n: nat, idx: nat, c: nat) {
    n < |f| && 0 < idx && 2 * idx <= c <= 2 * idx + 1 && c <= n
    && forall d :: 2 * idx <= d <= 2 * idx + 1 && d <= n ==> Le(cmp, top, f[c], f[d])
  }

  lemma SinkStep(cmp: (Elem, Elem) -> int, top: int, f: seq<Elem>, n: nat, s: nat, idx: nat, c: nat)
    requires Order(cmp, top) && Sunk(cmp, top, f, n, s, idx) && LeastChild(cmp, top, f, n, idx, c)
    requires idx == s ==> Before(cmp, top, f[c], f[idx])
    ensures Sunk(cmp, top, Swap(f, idx, c), n, s, c)
  {
    hide Before, Order;
    var g := Swap(f, idx, c);
    assert c / 2 == idx && Under(s, c);
    forall i | i > s && Under(s, i) && i != c && i / 2 != c ensures PairOk(cmp, top, g, n, i) {
      assert i != idx && i / 2 != idx ==> PairOk(cmp, top, f, n, i);
    }
    forall d | 2 * c <= d <= 2 * c + 1 && d <= n ensures Le(cmp, top, g[c / 2], g[d]) {
      assert Under(s, d) && d / 2 == c && PairOk(cmp, top, f, n, d);
    }
    if idx == s { Loosen(cmp, top, f[c], f[idx]); }
  }

  lemma Loosen(cmp: (Elem, Elem) -> int, top: int, x: Elem, y: Elem)
    requires Order(cmp, top) && Before(cmp, top, x, y)
    ensures Le(cmp, top, x, y)
  {
  }

  /** The element need not move at all. */
  lemma SinkStays(cmp: (Elem, Elem) -> int, top: int, f: seq<Elem>, n: nat, s: nat, c: nat)
    requires Order(cmp, top) && Sunk(cmp, top, f, n, s, s) && LeastChild(cmp, top, f, n, s, c)
    requires !Before(cmp, top, f[c], f[s])
    ensures SubHeap(cmp, top, f, n, s)
  {
    forall i | i > s && Under(s, i) ensures PairOk(cmp, top, f, n, i) {
      if i / 2 == s && i <= n { LeTrans(cmp, top, f[s], f[c], f[i]); }
    }
  }

  /** At a leaf there are no children left to be in order with. */
  lemma SinkEnds(cmp: (Elem, Elem) -> int, top: int, f: seq<Elem>, n: nat, s: nat, idx: nat)
    requires Sunk(cmp, top, f, n, s, idx) && idx > n / 2
    ensures Rising(cmp, top, f, n, s, idx)
  {
    forall i | i > s && Under(s, i) && i != idx ensures PairOk(cmp, top, f, n, i) {
    }
  }

  lemma RiseStep(cmp: (Elem, Elem) -> int, top: int, f: seq<Elem>, n: nat, s: nat, idx: nat)
    requires Order(cmp, top) && Rising(cmp, top, f, n, s, idx) && s < idx <= n && s <= idx / 2
    requires Le(cmp, top, f[idx], f[idx / 2])
    ensures Rising(cmp, top, Swap(f, idx, idx / 2), n, s, idx / 2)
  {
    hide Before, Order;
    var p := idx / 2;
    var g := Swap(f, idx, p);
    assert Under(s, p);
    if p > s { assert PairOk(cmp, top, f, n, p); }
    forall i | i > s && Under(s, i) && i != p ensures PairOk(cmp, top, g, n, i) {
      if i != idx { assert PairOk(cmp, top, f, n, i); }
      if i / 2 == p && i != idx && i <= n { LeTrans(cmp, top, f[idx], f[p], f[i]); }
    }
    if p > s {
      forall d | 2 * p <= d <= 2 * p + 1 && d <= n ensures Le(cmp, top, g[p / 2], g[d]) {
        if d != idx {
          assert Under(s, d) && PairOk(cmp, top, f, n, d);
          LeTrans(cmp, top, f[p / 2], f[p], f[d]);
        }
      }
    }
  }

  /** The element is in order with its parent: all is in order. */
  lemma RiseEnds(cmp: (Elem, Elem) -> int, top: int, f: seq<Elem>, n: nat, s: nat, idx: nat)
    requires Rising(cmp, top, f, n, s, idx) && (idx > s && idx <= n ==> Le(cmp, top, f[idx / 2], f[idx]))
    ensures SubHeap(cmp, top, f, n, s)
  {
    forall i | i > s && Under(s, i) ensures PairOk(cmp, top, f, n, i) {
    }
  }

  // ---------- sinking ----------

  /** How many levels slot i is below slot s. */
  ghost function Depth(s: nat, i: nat): nat {
    if i <= s then 0 else 1 + Depth(s, i / 2)
  }

  lemma DepthOf(s: nat, i: nat)
    requires i > s && Under(s, i)
    ensures Depth(s, i) >= 1 && (i / 2 > s ==> Depth(s, i) >= 2) && Depth(s, i / 2) == Depth(s, i) - 1 && i / 2 >= s
  {
  }

  /** Slots outside the subtree of s, and beyond slot n, are as they were. */
  ghost predicate SameOutside(f: seq<Elem>, g: seq<Elem>, n: nat, s: nat) {
    |f| == |g| && forall k :: 0 <= k < |f| && (k > n || !Under(s, k)) ==> g[k] == f[k]
  }

  /** f with the element at hand put back in slot idx. */
  function Put(r: seq<Elem>, idx: nat, element: Elem): seq<Elem>
    requires idx < |r|
  {
    r[idx := element]
  }

  lemma PutSwaps(r: seq<Elem>, idx: nat, next: nat, element: Elem)
    requires idx < |r| && next < |r| && idx != next
    ensures Put(r[idx := r[next]], next, element) == Swap(Put(r, idx, element), idx, next)
  {
  }

  /** What both loops keep: the elements, and the slots elsewhere. */
  ghost predicate Kept(f0: seq<Elem>, f: seq<Elem>, n: nat, s: nat) {
    multiset(f) == multiset(f0) && SameOutside(f0, f, n, s)
  }

  lemma KeptSwap(f0: seq<Elem>, f: seq<Elem>, n: nat, s: nat, i: nat, j: nat)
    requires Kept(f0, f, n, s) && i < |f| && j < |f| && i <= n && j <= n && Under(s, i) && Under(s, j)
    ensures Kept(f0, Swap(f, i, j), n, s)
  {
    SwapBag(f, i, j);
  }

  /** The calls of the comparison. */
  class Calls {
    ghost var count: nat

    constructor ()
    {
    }

    /** Every call counts. */
    method Compare(cmp: (Elem, Elem) -> int, x: Elem, y: Elem) returns (c: int)
      modifies this
      ensures c == cmp(x, y) && count == old(count) + 1
    {
      count := count + 1;
      c := cmp(x, y);
    }
  }

  /** Picks the child of idx that comes first, with one comparison if there are two. */
  method FirstChild(root: array<Elem>, elements: nat, idx: nat, cmp: (Elem, Elem) -> int, top: int, calls: Calls)
    returns (next_index: nat)
    requires Order(cmp, top) && 0 < idx <= elements / 2 && elements < root.Length
    modifies calls
    ensures 2 * idx <= next_index <= 2 * idx + 1 && next_index <= elements
    ensures next_index > 2 * idx ==> Before(cmp, top, root[next_index], root[2 * idx])
    ensures calls.count <= old(calls.count) + 1
    ensures forall d :: 2 * idx <= d <= 2 * idx + 1 && d <= elements ==> Le(cmp, top, root[next_index], root[d])
  {
    next_index := idx + idx;
    LeTotal(cmp, top, root[next_index], root[next_index]);
    if next_index < elements {
      LeTotal(cmp, top, root[next_index], root[next_index + 1]);
      LeTotal(cmp, top, root[next_index + 1], root[next_index + 1]);
      var c := calls.Compare(cmp, root[next_index], root[next_index + 1]);
      if c * top > 0 {
        Turned(cmp, top, root[next_index], root[next_index + 1]);
        next_index := next_index + 1;
      } else {
        Turned(cmp, top, root[next_index], root[next_index + 1]);
      }
    }
  }

  lemma Turned(cmp: (Elem, Elem) -> int, top: int, x: Elem, y: Elem)
    requires Order(cmp, top)
    ensures cmp(x, y) * top > 0 <==> Before(cmp, top, y, x)
  {
  }

  /** From a leaf the element rises again, and is put down at the latest just below slot start. */
  method ClimbBack(root: array<Elem>, elements: nat, start: nat, leaf: nat, element: Elem, cmp: (Elem, Elem) -> int,
                   top: int, calls: Calls, ghost f0: seq<Elem>, ghost f1: seq<Elem>, ghost ordered: bool)
    requires Order(cmp, top) && 0 < start <= leaf < root.Length && elements < root.Length && Under(start, leaf)
    requires leaf > start ==> leaf <= elements
    requires f1 == Put(root[..], leaf, element) && Kept(f0, f1, elements, start)
    requires ordered ==> Rising(cmp, top, f1, elements, start, leaf)
    requires Le(cmp, top, f1[start], element)
    modifies root, calls
    ensures ordered ==> SubHeap(cmp, top, root[..], elements, start)
    ensures Kept(f0, root[..], elements, start) && Le(cmp, top, root[start], element) && root[start] == f1[start]
    ensures calls.count <= old(calls.count) + (if leaf == start then 0 else Depth(start, leaf) - 1)
  {
    hide Before, Order, Le;
    var idx := leaf;
    var next_index := idx / 2;
    ghost var f, compares := f1, 0;
    if leaf > start { DepthOf(start, leaf); }
    while next_index > start
      invariant start <= idx < root.Length && next_index == idx / 2 && Under(start, idx)
      invariant f == Put(root[..], idx, element) && Kept(f0, f, elements, start)
      invariant ordered ==> Rising(cmp, top, f, elements, start, idx)
      invariant (idx > start ==> idx <= elements) && (leaf > start ==> idx > start)
      invariant Le(cmp, top, f[start], element) && f[start] == f1[start]
      invariant calls.count == old(calls.count) + compares && (leaf == start ==> idx == start && compares == 0)
      invariant idx > start ==> compares + Depth(start, idx) <= Depth(start, leaf)
      decreases idx
    {
      DepthOf(start, idx);
      compares := compares + 1;
      BeforeIs(cmp, top, root[next_index], element);
      var c := calls.Compare(cmp, root[next_index], element);
      if c * top < 0 {
        Loosen(cmp, top, root[next_index], element);
        break;
      }
      NotBefore(cmp, top, root[next_index], element);
      if ordered { RiseStep(cmp, top, f, elements, start, idx); }
      PutSwaps(root[..], idx, next_index, element);
      KeptSwap(f0, f, elements, start, idx, next_index);
      DepthOf(start, next_index);
      root[idx] := root[next_index];
      f := Swap(f, idx, next_index);
      idx := next_index;
      next_index := idx / 2;
    }
    if idx > start { DepthOf(start, idx); }
    if ordered { RiseEnds(cmp, top, f, elements, start, idx); }
    root[idx] := element;
    assert root[..] == f;
  }

  /** x was in slot s, or in one of its children. */
  ghost predicate FromBelow(f: seq<Elem>, n: nat, s: nat, x: Elem)
    requires s < |f| && n < |f|
  {
    x == f[s] || exists c :: 2 * s <= c <= 2 * s + 1 && c <= n && x == f[c]
  }

  /** Puts the element at slot start in its place in the subtree below: down to a leaf and back up. */
  method DownHeap(root: array<Elem>, elements: nat, start: nat, cmp: (Elem, Elem) -> int, top: int, calls: Calls)
    requires Order(cmp, top) && 0 < start < root.Length && elements < root.Length
    modifies root, calls
    ensures old(ChildHeaps(cmp, top, root[..], elements, start)) ==> SubHeap(cmp, top, root[..], elements, start)
    ensures multiset(root[..]) == multiset(old(root[..])) && SameOutside(old(root[..]), root[..], elements, start)
    ensures Le(cmp, top, root[start], old(root[start])) && FromBelow(old(root[..]), elements, start, root[start])
    ensures calls.count <= old(calls.count) + 2 * Height(start, elements)
  {
    hide Before, Order, Le, SubHeap, ChildHeaps;
    var idx, first := start, true;
    var element := root[idx];
    ghost var f0, ordered := root[..], ChildHeaps(cmp, top, root[..], elements, start);
    ghost var f, d := f0, 0;
    LeTotal(cmp, top, element, element);
    Start(cmp, top, f0, elements, start);
    while idx <= elements / 2
      invariant start <= idx < root.Length && Under(start, idx) && f == Put(root[..], idx, element)
      invariant Kept(f0, f, elements, start) && (ordered ==> Sunk(cmp, top, f, elements, start, idx))
      invariant (first <==> idx == start) && (first ==> root[..] == f0) && d == Depth(start, idx)
      invariant calls.count <= old(calls.count) + (if first then 0 else d + 1)
      invariant d + Height(idx, elements) <= Height(start, elements)
      invariant Le(cmp, top, f[start], element) && FromBelow(f0, elements, start, f[start])
      invariant idx > start ==> idx <= elements
      decreases root.Length - idx
    {
      var next_index := FirstChild(root, elements, idx, cmp, top, calls);
      assert LeastChild(cmp, top, f, elements, idx, next_index);
      BeforeIs(cmp, top, root[next_index], element);
      if first {
        var c := calls.Compare(cmp, root[next_index], element);
        if !(c * top < 0) {
          if ordered { SinkStays(cmp, top, f, elements, start, next_index); }
          root[idx] := element;
          assert root[..] == f;
          return;
        }
        Loosen(cmp, top, f[next_index], f[idx]);
      }
      if ordered { SinkStep(cmp, top, f, elements, start, idx, next_index); }
      PutSwaps(root[..], idx, next_index, element);
      UnderChild(start, idx, next_index);
      KeptSwap(f0, f, elements, start, idx, next_index);
      HeightRight(2 * idx, next_index, elements);
      root[idx] := root[next_index];
      f := Swap(f, idx, next_index);
      d := d + 1;
      idx := next_index;
      first := false;
    }
    if ordered { SinkEnds(cmp, top, f, elements, start, idx); }
    ClimbBack(root, elements, start, idx, element, cmp, top, calls, f0, f, ordered);
  }

  lemma Start(cmp: (Elem, Elem) -> int, top: int, f: seq<Elem>, n: nat, s: nat)
    requires 0 < s < |f| && n < |f|
    ensures (ChildHeaps(cmp, top, f, n, s) ==> Sunk(cmp, top, f, n, s, s)) && f == Put(f, s, f[s]) && Kept(f, f, n, s)
  {
  }

  lemma BeforeIs(cmp: (Elem, Elem) -> int, top: int, x: Elem, y: Elem)
    ensures cmp(x, y) * top < 0 <==> Before(cmp, top, x, y)
  {
  }

  lemma NotBefore(cmp: (Elem, Elem) -> int, top: int, x: Elem, y: Elem)
    requires !(cmp(x, y) * top < 0)
    ensures Le(cmp, top, y, x)
  {
  }

  lemma UnderChild(s: nat, i: nat, c: nat)
    requires 0 < s && Under(s, i) && c / 2 == i && c > s
    ensures Under(s, c) && Depth(s, c) == Depth(s, i) + 1
  {
  }

  // ---------- the part of the array that is in use ----------

  /** The elements in slots 1..n. */
  ghost function Bag(r: seq<Elem>, n: nat): multiset<Elem>
    requires n < |r|
  {
    multiset(r[1..n + 1])
  }

  /** What happens within slots 1..n, and keeps the elements of the whole array, keeps those in use. */
  lemma BagKept(f: seq<Elem>, g: seq<Elem>, n: nat, s: nat)
    requires n < |f| && 0 < s && multiset(g) == multiset(f) && SameOutside(f, g, n, s)
    ensures Bag(g, n) == Bag(f, n)
  {
    assert f[..1] == g[..1] && f[n + 1..] == g[n + 1..];
    BagOf(f, n);
    BagOf(g, n);
  }

  lemma BagOf(f: seq<Elem>, n: nat)
    requires n < |f|
    ensures Bag(f, n) == multiset(f) - multiset(f[..1]) - multiset(f[n + 1..])
  {
    assert f == f[..1] + f[1..n + 1] + f[n + 1..];
    assert multiset(f) == multiset(f[..1]) + Bag(f, n) + multiset(f[n + 1..]);
  }

  lemma BagSwap(f: seq<Elem>, n: nat, i: nat, j: nat)
    requires n < |f| && 1 <= i <= n && 1 <= j <= n
    ensures Bag(Swap(f, i, j), n) == Bag(f, n)
  {
    assert Swap(f, i, j)[1..n + 1] == Swap(f[1..n + 1], i - 1, j - 1);
    SwapBag(f[1..n + 1], i - 1, j - 1);
  }

  /** The last element takes the place of the one in slot i. */
  lemma BagMove(f: seq<Elem>, n: nat, i: nat)
    requires 1 <= i && 1 <= n < |f| && i < |f|
    ensures i <= n ==> Bag(f[i := f[n]], n - 1) == Bag(f, n) - multiset{f[i]}
    ensures i > n ==> Bag(f[i := f[n]], n - 1) == Bag(f, n) - multiset{f[n]}
  {
    var g := f[i := f[n]];
    assert f[1..n + 1] == f[1..n] + [f[n]];
    if i < n {
      assert f[1..n] == f[1..i] + [f[i]] + f[i + 1..n];
      assert g[1..n] == f[1..i] + [f[n]] + f[i + 1..n];
    } else {
      assert g[1..n] == f[1..n];
    }
  }

  /** All slots are in the subtree of slot 1. */
  lemma {:induction false} AllUnder(i: nat)
    requires i > 0
    ensures Under(1, i)
  {
    if i > 1 { AllUnder(i / 2); }
  }

  lemma HeapIsSubHeap(cmp: (Elem, Elem) -> int, top: int, f: seq<Elem>, n: nat)
    ensures Heap(cmp, top, f, n) <==> SubHeap(cmp, top, f, n, 1)
  {
    forall i | i > 1 ensures Under(1, i) { AllUnder(i); }
    if SubHeap(cmp, top, f, n, 1) {
      forall i ensures PairOk(cmp, top, f, n, i) {
        if i > 1 { assert Under(1, i); }
      }
    }
  }

  /** After the last element has been put in slot i of a heap and has sunk from there, the heap is in
      order exactly when that element does not sort before the parent of slot i. */
  lemma RemoveOrder(cmp: (Elem, Elem) -> int, top: int, r: seq<Elem>, n: nat, i: nat, f: seq<Elem>, g: seq<Elem>)
    requires Order(cmp, top) && 1 <= n < |r| && 1 <= i < |r| && Heap(cmp, top, r, n)
    requires f == r[i := r[n]] && SameOutside(f, g, n - 1, i) && SubHeap(cmp, top, g, n - 1, i)
    requires Le(cmp, top, g[i], f[i]) && FromBelow(f, n - 1, i, g[i])
    ensures Heap(cmp, top, g, n - 1) <==> i == 1 || i > n - 1 || !Before(cmp, top, r[n], r[i / 2])
  {
    var m: nat := n - 1;
    forall k: nat | k != i ensures PairOk(cmp, top, g, m, k) {
      assert PairOk(cmp, top, r, n, k);
      if Under(i, k) { assert k > i; } else if k > 1 { NotUnderParent(i, k); }
    }
    if 1 < i <= n - 1 {
      NotUnder(i, i / 2);
      assert g[i / 2] == r[i / 2];
      assert Heap(cmp, top, g, n - 1) <==> PairOk(cmp, top, g, n - 1, i);
      if Le(cmp, top, r[i / 2], r[n]) {
        BelowParent(cmp, top, r, n, i);
        assert PairOk(cmp, top, g, n - 1, i);
      } else if PairOk(cmp, top, g, n - 1, i) {
        LeTrans(cmp, top, r[i / 2], g[i], r[n]);
      }
    }
  }

  lemma NotUnder(i: nat, k: nat)
    requires k < i
    ensures !Under(i, k)
  {
  }

  lemma NotUnderParent(i: nat, k: nat)
    requires !Under(i, k) && 1 < k
    ensures !Under(i, k / 2)
  {
  }

  lemma BelowParent(cmp: (Elem, Elem) -> int, top: int, r: seq<Elem>, n: nat, i: nat)
    requires Order(cmp, top) && 1 < i <= n < |r| && Heap(cmp, top, r, n)
    ensures forall c :: 2 * i <= c <= 2 * i + 1 && c <= n ==> Le(cmp, top, r[i / 2], r[c])
  {
    assert PairOk(cmp, top, r, n, i);
    forall c | 2 * i <= c <= 2 * i + 1 && c <= n ensures Le(cmp, top, r[i / 2], r[c]) {
      assert PairOk(cmp, top, r, n, c);
      LeTrans(cmp, top, r[i / 2], r[i], r[c]);
    }
  }
}
