/** Binary heaps in slots 1..n of a sequence, under a comparison that max_at_top may turn round. */
module HeapOrder {

  type Elem = nat

  /** The comparison is a total preorder. */
  ghost predicate Preorder(cmp: (Elem, Elem) -> int) {
    && (forall x, y {:trigger cmp(x, y)} :: (cmp(x, y) < 0 <==> cmp(y, x) > 0) && (cmp(x, y) == 0 <==> cmp(y, x) == 0))
    && (forall x, y, z {:trigger cmp(x, y), cmp(y, z)} :: cmp(x, y) <= 0 && cmp(y, z) <= 0 ==> cmp(x, z) <= 0)
  }

  /** x sorts before y; top is 1, or -1 when the largest element comes first. */
  predicate Before(cmp: (Elem, Elem) -> int, top: int, x: Elem, y: Elem) {
    cmp(x, y) * top < 0
  }

  ghost predicate Order(cmp: (Elem, Elem) -> int, top: int) {
    Preorder(cmp) && (top == 1 || top == -1)
  }

  /** x may stand above y. */
  ghost predicate Le(cmp: (Elem, Elem) -> int, top: int, x: Elem, y: Elem) {
    !Before(cmp, top, y, x)
  }

  lemma LeTrans(cmp: (Elem, Elem) -> int, top: int, x: Elem, y: Elem, z: Elem)
    requires Order(cmp, top) && Le(cmp, top, x, y) && Le(cmp, top, y, z)
    ensures Le(cmp, top, x, z)
  {
  }

  lemma LeTotal(cmp: (Elem, Elem) -> int, top: int, x: Elem, y: Elem)
    requires Order(cmp, top)
    ensures Le(cmp, top, x, x) && (Before(cmp, top, x, y) ==> Le(cmp, top, x, y))
    ensures (Le(cmp, top, x, y) || Le(cmp, top, y, x))
  {
  }

  /** Turning max_at_top round turns the order round. */
  lemma Reversal(cmp: (Elem, Elem) -> int, x: Elem, y: Elem)
    requires Preorder(cmp)
    ensures Before(cmp, -1, x, y) <==> Before(cmp, 1, y, x)
    ensures Le(cmp, -1, x, y) <==> Le(cmp, 1, y, x)
  {
  }

  /** Slot i lies in the subtree of slot s. */
  ghost predicate Under(s: nat, i: nat)
    decreases i
  {
    i == s || (i > s && Under(s, i / 2))
  }

  /** Slot i is in order with its parent. */
  ghost predicate PairOk(cmp: (Elem, Elem) -> int, top: int, r: seq<Elem>, n: nat, i: nat) {
    2 <= i <= n && n < |r| ==> Le(cmp, top, r[i / 2], r[i])
  }

  ghost predicate Heap(cmp: (Elem, Elem) -> int, top: int, r: seq<Elem>, n: nat) {
    forall i {:trigger PairOk(cmp, top, r, n, i)} :: PairOk(cmp, top, r, n, i)
  }

  /** The subtree of slot s is a heap, except perhaps at s itself. */
  ghost predicate ChildHeaps(cmp: (Elem, Elem) -> int, top: int, r: seq<Elem>, n: nat, s: nat) {
    forall i {:trigger PairOk(cmp, top, r, n, i)} :: i > s && Under(s, i) && i / 2 != s ==> PairOk(cmp, top, r, n, i)
  }

  ghost predicate SubHeap(cmp: (Elem, Elem) -> int, top: int, r: seq<Elem>, n: nat, s: nat) {
    forall i {:trigger PairOk(cmp, top, r, n, i)} :: i > s && Under(s, i) ==> PairOk(cmp, top, r, n, i)
  }

  /** Nothing stands above the top of a heap. */
  lemma {:induction false} TopLeast(cmp: (Elem, Elem) -> int, top: int, r: seq<Elem>, n: nat, i: nat)
    requires Order(cmp, top) && Heap(cmp, top, r, n) && 1 <= i <= n < |r|
    ensures Le(cmp, top, r[1], r[i])
  {
    if i == 1 {
      LeTotal(cmp, top, r[1], r[1]);
    } else {
      TopLeast(cmp, top, r, n, i / 2);
      assert PairOk(cmp, top, r, n, i);
      LeTrans(cmp, top, r[1], r[i / 2], r[i]);
    }
  }

  // ---------- heights ----------

  /** The height of slot i in a heap of n slots. */
  function Height(i: nat, n: nat): nat
    requires i > 0
    decreases n - i
  {
    if 2 * i <= n then 1 + Height(2 * i, n) else 0
  }

  lemma {:induction false} HeightRight(i: nat, j: nat, n: nat)
    requires 0 < i <= j
    ensures Height(j, n) <= Height(i, n)
    decreases n - i
  {
    if 2 * j <= n { HeightRight(2 * i, 2 * j, n); }
  }

  lemma {:induction false} HeightHalf(i: nat, n: nat)
    requires i > 0
    ensures Height(2 * i, n) == Height(i, n / 2)
    decreases n - i
  {
    if 4 * i <= n { HeightHalf(2 * i, n); }
  }

  /** The heights of slots 1..m together. */
  function SumHeights(m: nat, n: nat): nat {
    if m == 0 then 0 else SumHeights(m - 1, n) + Height(m, n)
  }

  lemma {:induction false} SumHalf(m: nat, n: nat)
    requires m <= n / 2
    ensures SumHeights(m, n) == m + SumHeights(m, n / 2)
  {
    if m > 0 {
      SumHalf(m - 1, n);
      HeightHalf(m, n);
    }
  }

  lemma {:induction false} SumFlat(k: nat, m: nat, n: nat)
    requires n / 2 <= k <= m
    ensures SumHeights(m, n) == SumHeights(k, n)
  {
    if k < m { SumFlat(k, m - 1, n); }
  }

  /** The heights of all slots of a heap add up to no more than the number of slots. */
  lemma {:induction false} SumOfHeights(n: nat)
    ensures SumHeights(n / 2, n) <= n
  {
    if n > 1 {
      SumHalf(n / 2, n);
      SumFlat(n / 2 / 2, n / 2, n / 2);
      SumOfHeights(n / 2);
    }
  }
}
