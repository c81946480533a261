/** How deep a red-black tree can be: the stack of slots has room for every path. */
module RbHeight {
  import opened RbShape
  import opened RbBalance
  import opened RbPath

  const MAX_RBTREE_HEIGHT: nat := 64
  const MAX_ELEMENTS: nat := 0xFFFF_FFFF  // `elements` is a 32-bit count

  ghost function TwoTo(n: nat): (r: nat)
    ensures r > 0
  {
    if n == 0 then 1 else 2 * TwoTo(n - 1)
  }

  ghost function Size(t: Tree, a: map<Ref, Att>, x: Ref): nat
    requires x in a
  {
    |Inside(t, a[x].lo, a[x].hi)|
  }

  /** The least number of nodes in a balanced tree that has a path of p nodes. */
  ghost function Least(p: nat): nat {
    if p == 0 then 0 else Least(p - 1) + TwoTo((p - 1) / 2)
  }

  lemma {:induction false} LeastIs(m: nat)
    ensures Least(2 * m) == 2 * TwoTo(m) - 2 && Least(2 * m + 1) == 3 * TwoTo(m) - 2
  {
    if m > 0 {
      LeastIs(m - 1);
      assert Least(2 * m) == Least(2 * m - 1) + TwoTo(m - 1);
    }
    assert Least(2 * m + 1) == Least(2 * m) + TwoTo(m);
  }

  lemma {:induction false} LeastGrows(p: nat, q: nat)
    requires p <= q
    ensures Least(p) <= Least(q)
  {
    if p < q { LeastGrows(p, q - 1); }
  }

  lemma SizeSplits(t: Tree, a: map<Ref, Att>, x: Ref)
    requires Linked(t, a) && Live(t, x)
    ensures x in a
    ensures var k := Key(t.mem[x].key);
            Size(t, a, x) >= |Inside(t, a[x].lo, k)| + 1 + |Inside(t, k, a[x].hi)|
  {
    assert NodeOk(t, a, x);
    InsideShrinks(t, a, x);
    var k := Key(t.mem[x].key);
    var l, r := Inside(t, a[x].lo, k), Inside(t, k, a[x].hi);
    assert |l + {x} + r| == |l| + 1 + |r|;
    Smaller(l + {x} + r, Inside(t, a[x].lo, a[x].hi));
  }

  /** What hangs below a slot with b black nodes on every way down. */
  lemma {:induction false} BlackWeight(t: Tree, a: map<Ref, Att>, x: Ref)
    requires Linked(t, a) && BalancedBut(t, a, RootSlot, 0) && x in t.mem
    ensures x in a && (x != NIL ==> Size(t, a, x) >= TwoTo(a[x].tb) - 1)
    decreases if x == NIL then 0 else 1 + |Inside(t, a[x].lo, a[x].hi)|
  {
    if x != NIL {
      assert NodeOk(t, a, x) && BalAt(t, a, RootSlot, 0, x);
      InsideShrinks(t, a, x);
      SizeSplits(t, a, x);
      BlackWeight(t, a, t.mem[x].left);
      BlackWeight(t, a, t.mem[x].right);
    }
  }

  /** Above a child with a path of p - 1 nodes. */
  lemma WeightUp(t: Tree, a: map<Ref, Att>, x: Ref, right: bool, p: nat)
    requires Linked(t, a) && BalancedBut(t, a, RootSlot, 0) && Live(t, x) && p > 1
    requires var c := At(t, Kid(x, right));
             && Live(t, c) && c in a && Size(t, a, c) >= Least(p - 1)
             && 2 * a[c].tb + (if t.mem[c].colour == Red then 1 else 0) >= p - 1
    ensures x in a && Size(t, a, x) >= Least(p) && 2 * a[x].tb + (if t.mem[x].colour == Red then 1 else 0) >= p
  {
    assert NodeOk(t, a, x) && BalAt(t, a, RootSlot, 0, x);
    SizeSplits(t, a, x);
    BlackWeight(t, a, At(t, Kid(x, !right)));
    TwoToGrows((p - 1) / 2, a[At(t, Kid(x, right))].tb);
    assert Least(p) == Least(p - 1) + TwoTo((p - 1) / 2);
  }

  /** The weight below the node at place j of a path that ends at a node. */
  lemma {:induction false} PathWeight(t: Tree, a: map<Ref, Att>, ps: seq<Slot>, k: nat, j: nat)
    requires Linked(t, a) && BalancedBut(t, a, RootSlot, 0) && Path(t, ps, k) && j <= k && Live(t, At(t, ps[k]))
    ensures var x := At(t, ps[j]);
            && Live(t, x) && x in a && Size(t, a, x) >= Least(k + 1 - j)
            && 2 * a[x].tb + (if t.mem[x].colour == Red then 1 else 0) >= k + 1 - j
    decreases k - j
  {
    var x := At(t, ps[j]);
    if j < k { assert Step(t, ps, j + 1); }
    if j < k {
      PathWeight(t, a, ps, k, j + 1);
      WeightUp(t, a, x, ps[j + 1].right, k + 1 - j);
    } else {
      assert NodeOk(t, a, x) && BalAt(t, a, RootSlot, 0, x);
      SizeSplits(t, a, x);
      assert Least(1) == 1;
    }
  }

  lemma {:induction false} TwoToGrows(m: nat, n: nat)
    requires m <= n
    ensures TwoTo(m) <= TwoTo(n)
  {
    if m < n { TwoToGrows(m, n - 1); }
  }

  lemma {:induction false} TwoToDoubles(n: nat)
    ensures TwoTo(2 * n) == TwoTo(n) * TwoTo(n)
  {
    if n > 0 {
      TwoToDoubles(n - 1);
      assert TwoTo(2 * n) == 2 * TwoTo(2 * n - 1) == 4 * TwoTo(2 * n - 2);
    }
  }

  /** A path of 63 nodes needs more nodes than a 32-bit number can count. */
  lemma TooDeep(m: nat, p: nat)
    requires m == 31 && p >= 2 * m + 1
    ensures Least(p) > MAX_ELEMENTS
  {
    LeastGrows(2 * m + 1, p);
    LeastIs(m);
    assert TwoTo(7) == 128;
    TwoToDoubles(7);
    assert TwoTo(15) == 2 * TwoTo(14) == 0x8000;
    TwoToDoubles(15);
    assert TwoTo(31) == 2 * TwoTo(30) == 0x8000_0000;
  }

  /** No path has more than 62 nodes. */
  lemma PathFits(t: Tree, a: map<Ref, Att>, ps: seq<Slot>, k: nat)
    requires Linked(t, a) && BalancedBut(t, a, RootSlot, 0) && Path(t, ps, k)
    requires |t.mem| - 1 <= MAX_ELEMENTS
    ensures k <= 62 && (Live(t, At(t, ps[k])) ==> k <= 61)
  {
    if Live(t, At(t, ps[k])) {
      DepthFits(t, a, ps, k);
    } else if k > 0 {
      PathPrefix(t, ps, k, k);
      PathPrefix(t, ps, k, k - 1);
      DepthFits(t, a, ps, k - 1);
    }
  }

  lemma SizeFits(t: Tree, a: map<Ref, Att>, x: Ref)
    requires Linked(t, a) && x in a
    ensures Size(t, a, x) <= |t.mem| - 1
  {
    Smaller(Inside(t, a[x].lo, a[x].hi) + {NIL}, t.mem.Keys);
  }

  lemma DepthFits(t: Tree, a: map<Ref, Att>, ps: seq<Slot>, k: nat)
    requires Linked(t, a) && BalancedBut(t, a, RootSlot, 0) && Path(t, ps, k) && Live(t, At(t, ps[k]))
    requires |t.mem| - 1 <= MAX_ELEMENTS
    ensures k <= 61
  {
    PathWeight(t, a, ps, k, 0);
    SizeFits(t, a, At(t, ps[0]));
    if k >= 62 { TooDeep(31, k + 1); }
  }
}
