/** The priority queue: a binary heap in an array, with slot 0 kept free for a sentinel. */
module PriorityQueue {
  import opened HeapOrder
  import opened HeapLoops

  /** The comparison asks for ordering in one direction or the other. */
  function Direction(max_at_top: bool): int {
    if max_at_top then -1 else 1
  }

  const UINT_MAX: nat := 0xFFFF_FFFF

  /** n - 1, as an unsigned int. */
  function Less1(n: nat): nat {
    if n == 0 then UINT_MAX else n - 1
  }

  /** What a removal did: from an empty queue the count wraps round, and sinking then takes every slot to be in
      use. It ends at once, or it looks outside the array. */
  datatype Removal = Removed(element: Elem) | Wrapped(element: Elem) | OutsideArray

  /** Sinking from slot i with a wrapped count ends at once: the array has both slots below, and what is left
      over there does not sort before the element in slot i. */
  ghost predicate EndsAtOnce(cmp: (Elem, Elem) -> int, top: int, r: seq<Elem>, i: nat) {
    2 * i + 1 < |r| && !Before(cmp, top, r[2 * i], r[i]) && !Before(cmp, top, r[2 * i + 1], r[i])
  }

  lemma LeastDecides(cmp: (Elem, Elem) -> int, top: int, c: Elem, d: Elem, x: Elem)
    requires Order(cmp, top) && Le(cmp, top, c, d) && !Before(cmp, top, c, x)
    ensures !Before(cmp, top, d, x)
  {
    LeTrans(cmp, top, x, c, d);
  }

  /** Sinking with a wrapped count: there is no slot at which it would end but the first. */
  method SinkWrapped(root: array<Elem>, start: nat, cmp: (Elem, Elem) -> int, top: int, calls: Calls)
    returns (inside: bool)
    requires Order(cmp, top) && 0 < start < root.Length <= UINT_MAX / 2 + 1
    modifies root, calls
    ensures inside <==> old(EndsAtOnce(cmp, top, root[..], start))
    ensures inside ==> root[..] == old(root[..])
  {
    var idx, first, element := start, true, root[start];
    while 2 * idx + 1 < root.Length
      invariant start <= idx < root.Length && (first <==> idx == start) && (first ==> root[..] == old(root[..]))
      invariant !first ==> !old(EndsAtOnce(cmp, top, root[..], start))
      decreases root.Length - idx
    {
      var next_index := FirstChild(root, root.Length - 1, idx, cmp, top, calls);
      if first {
        BeforeIs(cmp, top, root[next_index], element);
        var c := calls.Compare(cmp, root[next_index], element);
        if !(c * top < 0) {
          LeastDecides(cmp, top, root[next_index], root[2 * idx], element);
          LeastDecides(cmp, top, root[next_index], root[2 * idx + 1], element);
          return true;
        }
      }
      root[idx] := root[next_index];
      idx := next_index;
      first := false;
    }
    return false;
  }

  /** With max_at_top on, the larger element stands above. */
  lemma OrderIs(cmp: (Elem, Elem) -> int, on: bool)
    requires Preorder(cmp)
    ensures forall x, y :: Le(cmp, Direction(on), x, y) <==> if on then cmp(x, y) >= 0 else cmp(x, y) <= 0
  {
  }

  const ASCENDING := (x: Elem, y: Elem) => x - y

  class Queue {
    var root: array<Elem>
    var elements: nat
    var max_elements: nat
    var auto_extent: nat
    var max_at_top: int
    const compare: (Elem, Elem) -> int
    const calls: Calls

    /** The array has room for max_elements elements and the sentinel. */
    ghost predicate Valid()
      reads this
    {
      root.Length == max_elements + 1 && elements <= max_elements && Order(compare, max_at_top)
    }

    ghost predicate Ordered()
      reads this, root
      requires Valid()
    {
      Heap(compare, max_at_top, root[..], elements)
    }

    ghost function Contents(): multiset<Elem>
      reads this, root
      requires Valid()
    {
      Bag(root[..], elements)
    }

    constructor (max_elements: nat, max_at_top: bool, compare: (Elem, Elem) -> int, auto_extent: nat)
      requires Preorder(compare)
      ensures Valid() && Ordered() && Contents() == multiset{} && fresh(root) && fresh(calls)
      ensures this.max_elements == max_elements && this.auto_extent == auto_extent
      ensures this.compare == compare && this.max_at_top == Direction(max_at_top)
      ensures forall x, y :: Le(compare, this.max_at_top, x, y) <==>
        if max_at_top then compare(x, y) >= 0 else compare(x, y) <= 0
    {
      OrderIs(compare, max_at_top);
      root := new Elem[max_elements + 1](_ => 0);
      calls := new Calls();
      elements, this.max_elements, this.auto_extent := 0, max_elements, auto_extent;
      this.compare, this.max_at_top := compare, Direction(max_at_top);
    }

    /** Makes room for more elements, or for fewer: then those at the end are dropped. */
    method Resize(max_elements: nat, memory: bool) returns (failed: bool)
      requires Valid()
      modifies this
      ensures Valid() && failed == (max_elements != old(this.max_elements) && !memory)
      ensures failed ==> root == old(root) && elements == old(elements) && this.max_elements == old(this.max_elements)
      ensures !failed ==>
        && this.max_elements == max_elements
        && elements == if old(elements) < max_elements then old(elements) else max_elements
      ensures root == old(root) || fresh(root)
      ensures elements <= old(elements) && root[..][1..elements + 1] == old(root[..])[1..elements + 1]
      ensures elements == old(elements) ==> Contents() == old(Contents())
      ensures old(Ordered()) ==> Ordered()
      ensures auto_extent == old(auto_extent) && max_at_top == old(max_at_top)
    {
      hide Heap, Order;
      failed := false;
      if this.max_elements == max_elements { return; }
      if !memory { return true; }
      var was := root;
      var new_root := new Elem[max_elements + 1](i requires 0 <= i reads was => if i < was.Length then was[i] else 0);
      if elements > max_elements { elements := max_elements; }
      this.max_elements := max_elements;
      root := new_root;
      HeapPrefix(compare, max_at_top, was[..], old(elements), root[..], elements);
    }

    /** Adds an element when there is room for it. */
    method Insert(element: Elem)
      requires Valid() && elements < max_elements
      modifies root, calls, this`elements
      ensures Valid() && Contents() == old(Contents()) + multiset{element} && elements == old(elements) + 1
      ensures old(Ordered()) ==> Ordered()
      ensures calls.count <= old(calls.count) + 1 + Depth(1, elements)
    {
      hide Heap, Bag, Rising, SubHeap, Le, Before, Order;
      var top := max_at_top;
      ghost var r0 := root[..];
      root[0] := element;  // stops the loop below
      elements := elements + 1;
      var idx := elements;
      ghost var n := elements;
      ghost var f := Put(root[..], idx, element);
      RiseStarts(compare, top, r0, n, element, f);
      var c := calls.Compare(compare, element, root[idx / 2]);
      while c * top < 0
        invariant 1 <= idx <= n && f == Put(root[..], idx, element) && f[0] == element
        invariant c == compare(element, root[idx / 2])
        invariant calls.count + Depth(1, idx) == old(calls.count) + 1 + Depth(1, n)
        invariant Bag(f, n) == old(Contents()) + multiset{element}
        invariant old(Ordered()) ==> Rising(compare, top, f, n, 1, idx)
        invariant root == old(root) && elements == n
        decreases idx
      {
        var next := idx / 2;
        LeTotal(compare, top, element, element);
        BeforeIs(compare, top, element, root[next]);
        assert next > 0;
        if old(Ordered()) {
          LeTotal(compare, top, element, root[next]);
          RiseStep(compare, top, f, n, 1, idx);
        }
        PutSwaps(root[..], idx, next, element);
        BagSwap(f, n, idx, next);
        root[idx] := root[next];
        f := Swap(f, idx, next);
        idx := next;
        c := calls.Compare(compare, element, root[idx / 2]);
      }
      if old(Ordered()) {
        BeforeIs(compare, top, element, root[idx / 2]);
        RiseEnds(compare, top, f, n, 1, idx);
        HeapIsSubHeap(compare, top, f, n);
      }
      root[idx] := element;
      assert root[..] == f;
    }

    /** Adds an element, and extends the array first when it is full: 0 says that it has been added, 1
        that there is no memory, and 2 that the queue may not be extended. */
    method InsertSafe(element: Elem, memory: bool) returns (status: nat)
      requires Valid()
      modifies this, root, calls
      ensures Valid()
      ensures status ==
        if old(elements < max_elements) then 0 else if old(auto_extent) == 0 then 2 else if memory then 0 else 1
      ensures Contents() == if status == 0 then old(Contents()) + multiset{element} else old(Contents())
      ensures old(Ordered()) ==> Ordered()
      ensures elements == old(elements) + (if status == 0 then 1 else 0)
      ensures auto_extent == old(auto_extent) && max_at_top == old(max_at_top)
      ensures max_elements ==
        if status == 0 && old(elements == max_elements) then old(max_elements + auto_extent) else old(max_elements)
    {
      hide Heap, Bag, Order;
      if elements == max_elements {
        if auto_extent == 0 { return 2; }
        var failed := Resize(max_elements + auto_extent, memory);
        if failed { return 1; }
      }
      Insert(element);
      status := 0;
    }

    /** Takes out the element at a place, 0 being the top. */
    method Remove(place: nat) returns (removal: Removal)
      requires Valid() && place < max_elements && (elements == 0 ==> max_elements <= UINT_MAX / 2)
      modifies root, calls, this`elements
      ensures elements == if old(elements) == 0 then 0xFFFF_FFFF else old(elements) - 1
      ensures (Valid() <==> old(elements) > 0) && (removal.Removed? <==> Valid())
      ensures removal.Removed? ==> removal.element == old(root[place + 1])
      ensures removal.Removed? ==>
        Contents() == old(Contents()) - multiset{if place < old(elements) then removal.element else old(root[elements])}
      ensures removal.Removed? && place < old(elements) ==> removal.element in old(Contents())
      ensures removal.Removed? && old(Ordered()) && place == 0 ==>
        forall x :: x in old(Contents()) ==> Le(compare, max_at_top, removal.element, x)
      ensures removal.Removed? && old(Ordered()) ==>
        (Ordered() <==>
          place == 0 || place >= elements || !old(Before(compare, max_at_top, root[elements], root[(place + 1) / 2])))
      ensures removal.Removed? ==> calls.count <= old(calls.count) + 2 * Height(place + 1, elements)
      ensures old(elements) == 0 ==>
        var sentinel := old(root[..])[place + 1 := old(root[0])];
        if EndsAtOnce(compare, max_at_top, sentinel, place + 1)
        then removal == Wrapped(old(root[place + 1])) && root[..] == sentinel else removal == OutsideArray
    {
      hide Order, Le, SubHeap, ChildHeaps, SameOutside, FromBelow, Bag, Heap, EndsAtOnce;
      var n := elements;
      ghost var r := root[..];
      var idx := place + 1;
      var element := root[idx];
      root[idx] := root[elements];
      elements := Less1(elements);
      ghost var f := root[..];
      assert f == r[idx := r[n]];
      if n == 0 {  // the count has wrapped
        var inside := SinkWrapped(root, idx, compare, max_at_top, calls);
        return if inside then Wrapped(element) else OutsideArray;
      }
      BagMove(r, n, idx);
      if idx <= n { BagHas(r, n, idx); }
      if Heap(compare, max_at_top, r, n) { ChildrenStay(compare, max_at_top, r, n, idx); }
      DownHeap(root, elements, idx, compare, max_at_top, calls);
      BagKept(f, root[..], elements, idx);
      if Heap(compare, max_at_top, r, n) {
        RemoveOrder(compare, max_at_top, r, n, idx, f, root[..]);
        if place == 0 { TopIsFirst(compare, max_at_top, r, n); }
      }
      return Removed(element);
    }

    /** The element on top is replaced by another one. */
    method ReplaceTop(element: Elem)
      requires Valid() && elements > 0
      modifies root, calls
      ensures Valid() && Contents() == old(Contents()) - multiset{old(root[1])} + multiset{element}
      ensures old(Ordered()) ==> Ordered()
    {
      hide Order, Le, SubHeap, ChildHeaps, SameOutside, FromBelow, Bag, Heap;
      ghost var r := root[..];
      root[1] := element;
      ghost var f := root[..];
      BagReplace(r, elements, element);
      if Heap(compare, max_at_top, r, elements) { TopChildren(compare, max_at_top, r, elements, element); }
      DownHeap(root, elements, 1, compare, max_at_top, calls);
      BagKept(f, root[..], elements, 1);
      HeapIsSubHeap(compare, max_at_top, root[..], elements);
    }

    /** Restores the order after every element may have changed, in a linear number of comparisons. */
    method Fix()
      requires Valid()
      modifies root, calls
      ensures Valid() && Ordered() && Contents() == old(Contents())
      ensures calls.count <= old(calls.count) + 2 * elements
    {
      var i: nat := elements / 2;
      ghost var n := elements;
      while i > 0
        invariant i <= n / 2 && elements == n && root == old(root)
        invariant Bag(root[..], n) == old(Contents())
        invariant FixedAbove(compare, max_at_top, root[..], n, i)
        invariant calls.count + 2 * SumHeights(i, n) <= old(calls.count) + 2 * SumHeights(n / 2, n)
      {
        ghost var f := root[..];
        FixStep(compare, max_at_top, f, n, i);
        DownHeap(root, elements, i, compare, max_at_top, calls);
        BagKept(f, root[..], n, i);
        FixDone(compare, max_at_top, f, root[..], n, i);
        i := i - 1;
      }
      SumOfHeights(n);
    }

    /** Asks for the largest, or the smallest, element on top: a change turns the order round, and the queue
        is to be fixed afterwards. */
    method SetMaxAtTop(on: bool)
      requires Valid()
      modifies this`max_at_top
      ensures Valid() && max_at_top == Direction(on) && Contents() == old(Contents())
      ensures forall x, y :: Le(compare, max_at_top, x, y) <==>
        if max_at_top == old(max_at_top) then Le(compare, old(max_at_top), x, y) else Le(compare, old(max_at_top), y, x)
      ensures forall x, y :: Le(compare, max_at_top, x, y) <==>
        if on then compare(x, y) >= 0 else compare(x, y) <= 0
    {
      max_at_top := Direction(on);
      OrderIs(compare, on);
      hide Le;
      forall x, y ensures Le(compare, -1, x, y) <==> Le(compare, 1, y, x) { Reversal(compare, x, y); }
    }
  }

  // ---------- lemmas about single operations ----------

  lemma HeapPrefix(cmp: (Elem, Elem) -> int, top: int, r: seq<Elem>, n: nat, q: seq<Elem>, m: nat)
    requires m <= n < |r| && m < |q| && (forall i :: 1 <= i <= m ==> q[i] == r[i])
    ensures Heap(cmp, top, r, n) ==> Heap(cmp, top, q, m)
    ensures q[1..m + 1] == r[1..m + 1]
  {
    if Heap(cmp, top, r, n) {
      forall i ensures PairOk(cmp, top, q, m, i) {
        assert PairOk(cmp, top, r, n, i);
      }
    }
  }

  lemma RiseStarts(cmp: (Elem, Elem) -> int, top: int, r: seq<Elem>, n: nat, element: Elem, f: seq<Elem>)
    requires 1 <= n < |r| && f == r[0 := element][n := element]
    ensures Bag(f, n) == Bag(r, n - 1) + multiset{element}
    ensures Heap(cmp, top, r, n - 1) ==> Rising(cmp, top, f, n, 1, n)
  {
    assert f[1..n + 1] == r[1..n] + [element];
    AllUnder(n);
    if Heap(cmp, top, r, n - 1) {
      forall i: nat | i > 1 && Under(1, i) && i != n ensures PairOk(cmp, top, f, n, i) {
        assert PairOk(cmp, top, r, n - 1, i);
      }
    }
  }

  lemma ChildrenStay(cmp: (Elem, Elem) -> int, top: int, r: seq<Elem>, n: nat, i: nat)
    requires 1 <= n < |r| && 1 <= i < |r| && Heap(cmp, top, r, n)
    ensures ChildHeaps(cmp, top, r[i := r[n]], n - 1, i)
  {
    var f := r[i := r[n]];
    var m: nat := n - 1;
    forall k: nat | k > i && Under(i, k) && k / 2 != i ensures PairOk(cmp, top, f, m, k) {
      assert PairOk(cmp, top, r, n, k);
    }
  }

  lemma BagHas(r: seq<Elem>, n: nat, i: nat)
    requires 1 <= i <= n < |r|
    ensures r[i] in Bag(r, n)
  {
    assert r[1..n + 1][i - 1] == r[i];
  }

  /** Removal from inside the heap can leave it out of order: here the last element, 4, comes to stand
      below 10. */
  lemma RemoveMayBreak(g: seq<Elem>)
    requires var r: seq<Elem> := [0, 1, 10, 2, 11, 12, 3, 4];
             var f := r[4 := r[7]];
             && SameOutside(f, g, 6, 4) && SubHeap(ASCENDING, 1, g, 6, 4)
             && Le(ASCENDING, 1, g[4], f[4]) && FromBelow(f, 6, 4, g[4])
    ensures Heap(ASCENDING, 1, [0, 1, 10, 2, 11, 12, 3, 4], 7) && !Heap(ASCENDING, 1, g, 6)
  {
    var r: seq<Elem> := [0, 1, 10, 2, 11, 12, 3, 4];
    forall i ensures PairOk(ASCENDING, 1, r, 7, i) {
      if 2 <= i <= 7 { assert i == 2 || i == 3 || i == 4 || i == 5 || i == 6 || i == 7; }
    }
    RemoveOrder(ASCENDING, 1, r, 7, 4, r[4 := r[7]], g);
  }

  lemma TopIsFirst(cmp: (Elem, Elem) -> int, top: int, r: seq<Elem>, n: nat)
    requires Order(cmp, top) && 1 <= n < |r| && Heap(cmp, top, r, n)
    ensures forall x :: x in Bag(r, n) ==> Le(cmp, top, r[1], x)
  {
    forall x | x in Bag(r, n) ensures Le(cmp, top, r[1], x) {
      var s := r[1..n + 1];
      var k :| 0 <= k < |s| && s[k] == x;
      TopLeast(cmp, top, r, n, k + 1);
    }
  }

  lemma BagReplace(r: seq<Elem>, n: nat, element: Elem)
    requires 1 <= n < |r|
    ensures Bag(r[1 := element], n) == Bag(r, n) - multiset{r[1]} + multiset{element}
  {
    assert r[1..n + 1] == [r[1]] + r[2..n + 1];
    assert r[1 := element][1..n + 1] == [element] + r[2..n + 1];
  }

  lemma TopChildren(cmp: (Elem, Elem) -> int, top: int, r: seq<Elem>, n: nat, element: Elem)
    requires 1 <= n < |r| && Heap(cmp, top, r, n)
    ensures ChildHeaps(cmp, top, r[1 := element], n, 1)
  {
    forall k: nat | k > 1 && Under(1, k) && k / 2 != 1 ensures PairOk(cmp, top, r[1 := element], n, k) {
      assert PairOk(cmp, top, r, n, k);
    }
  }

  /** Below all slots after i the order is restored. */
  ghost predicate FixedAbove(cmp: (Elem, Elem) -> int, top: int, r: seq<Elem>, n: nat, i: nat) {
    forall k {:trigger PairOk(cmp, top, r, n, k)} :: k / 2 > i ==> PairOk(cmp, top, r, n, k)
  }

  lemma FixStep(cmp: (Elem, Elem) -> int, top: int, r: seq<Elem>, n: nat, i: nat)
    requires FixedAbove(cmp, top, r, n, i) && i > 0
    ensures ChildHeaps(cmp, top, r, n, i)
  {
    forall k: nat | k > i && Under(i, k) && k / 2 != i ensures PairOk(cmp, top, r, n, k) {
      assert Under(i, k / 2);
    }
  }

  lemma FixDone(cmp: (Elem, Elem) -> int, top: int, f: seq<Elem>, g: seq<Elem>, n: nat, i: nat)
    requires FixedAbove(cmp, top, f, n, i) && i > 0 && SubHeap(cmp, top, g, n, i) && SameOutside(f, g, n, i) && n < |f|
    ensures FixedAbove(cmp, top, g, n, i - 1)
  {
    forall k: nat | k / 2 > i - 1 ensures PairOk(cmp, top, g, n, k) {
      if !Under(i, k) {
        NotUnderParent(i, k);
        assert k / 2 > i;
        assert PairOk(cmp, top, f, n, k);
      }
    }
  }

  // ---------- draining ----------

  /** The elements taken out are in order, and none of those left comes before any of them. */
  ghost predicate Drained(cmp: (Elem, Elem) -> int, top: int, out: seq<Elem>, left: multiset<Elem>) {
    && (forall i, j :: 0 <= i < j < |out| ==> Le(cmp, top, out[i], out[j]))
    && (forall i, x :: 0 <= i < |out| && x in left ==> Le(cmp, top, out[i], x))
  }

  lemma DrainStep(cmp: (Elem, Elem) -> int, top: int, out: seq<Elem>, left: multiset<Elem>, x: Elem)
    requires Drained(cmp, top, out, left) && x in left && (forall y :: y in left ==> Le(cmp, top, x, y))
    ensures Drained(cmp, top, out + [x], left - multiset{x})
    ensures multiset(out + [x]) + (left - multiset{x}) == multiset(out) + left
  {
  }

  /** Removing the top until nothing is left gives all the elements, in order. */
  method Drain(queue: Queue) returns (out: seq<Elem>)
    requires queue.Valid() && queue.Ordered()
    modifies queue.root, queue.calls, queue`elements
    ensures queue.Valid() && queue.elements == 0
    ensures multiset(out) == old(queue.Contents()) && Drained(queue.compare, queue.max_at_top, out, multiset{})
    ensures forall on :: queue.max_at_top == Direction(on) ==>
      forall i, j :: 0 <= i < j < |out| ==>
        if on then queue.compare(out[i], out[j]) >= 0 else queue.compare(out[i], out[j]) <= 0
  {
    hide Le, Order, Heap, Bag;
    out := [];
    ghost var m := queue.Contents();
    while queue.elements > 0
      invariant queue.Valid() && queue.Ordered() && queue.root == old(queue.root)
      invariant multiset(out) + queue.Contents() == m && Drained(queue.compare, queue.max_at_top, out, queue.Contents())
      decreases queue.elements
    {
      ghost var left := queue.Contents();
      var removal := queue.Remove(0);
      var x := removal.element;
      DrainStep(queue.compare, queue.max_at_top, out, left, x);
      out := out + [x];
    }
    EmptyBag(queue.root[..]);
    DrainedIs(queue.compare, queue.max_at_top, out);
  }

  /** Elements in order fall, or rise, as max_at_top says. */
  lemma DrainedIs(cmp: (Elem, Elem) -> int, top: int, out: seq<Elem>)
    requires Order(cmp, top) && Drained(cmp, top, out, multiset{})
    ensures forall on :: top == Direction(on) ==>
      forall i, j :: 0 <= i < j < |out| ==> if on then cmp(out[i], out[j]) >= 0 else cmp(out[i], out[j]) <= 0
  {
    hide Le;
    OrderIs(cmp, true);
    OrderIs(cmp, false);
  }

  lemma EmptyBag(r: seq<Elem>)
    requires |r| > 0
    ensures Bag(r, 0) == multiset{}
  {
  }
}
