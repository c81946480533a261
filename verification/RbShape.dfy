/**
 The nodes of a red-black tree in memory, and what makes them a search tree.

 A node is known by its address. One shared sentinel, NIL, stands for every missing child;
 NULL is no node at all. A slot is the address of a link: the root, or a child field of a node.
 */
module RbShape {

  type Ref = nat

  const NULL: Ref := 0
  const NIL: Ref := 1

  datatype Colour = Red | Black

  datatype Node = Node(left: Ref, right: Ref, colour: Colour, count: nat, key: int)

  const SENTINEL := Node(NULL, NULL, Black, 0, 0)

  datatype Slot = RootSlot | Kid(node: Ref, right: bool)

  datatype Tree = Tree(root: Ref, mem: map<Ref, Node>)

  /** What a slot holds. */
  function At(t: Tree, s: Slot): Ref {
    if s.RootSlot? then t.root
    else if s.node !in t.mem then NULL
    else if s.right then t.mem[s.node].right else t.mem[s.node].left
  }

  /** Writes a link. */
  function Put(t: Tree, s: Slot, x: Ref): Tree {
    if s.RootSlot? then t.(root := x)
    else if s.node !in t.mem then t
    else if s.right then t.(mem := t.mem[s.node := t.mem[s.node].(right := x)])
    else t.(mem := t.mem[s.node := t.mem[s.node].(left := x)])
  }

  // ---------- search-tree order ----------

  datatype Bound = NegInf | Key(k: int) | PosInf

  predicate Lt(b: Bound, c: Bound) {
    match (b, c)
    case (NegInf, NegInf) => false
    case (NegInf, _) => true
    case (Key(k), Key(l)) => k < l
    case (Key(_), PosInf) => true
    case _ => false
  }

  /** Ghost facts kept per node: its parent, the open interval its subtree's keys lie in, and the
      number of black nodes on the way down from it, itself included. */
  datatype Att = Att(par: Ref, lo: Bound, hi: Bound, tb: nat)

  ghost predicate Live(t: Tree, i: Ref) {
    i in t.mem && i != NIL
  }

  ghost predicate KidOk(a: map<Ref, Att>, p: Ref, c: Ref, lo: Bound, hi: Bound) {
    c in a && (c != NIL ==> a[c].par == p && a[c].lo == lo && a[c].hi == hi)
  }

  ghost predicate KidsOk(t: Tree, a: map<Ref, Att>, i: Ref)
    requires i in t.mem && i in a
  {
    && Lt(a[i].lo, Key(t.mem[i].key)) && Lt(Key(t.mem[i].key), a[i].hi)
    && KidOk(a, i, t.mem[i].left, a[i].lo, Key(t.mem[i].key))
    && KidOk(a, i, t.mem[i].right, Key(t.mem[i].key), a[i].hi)
  }

  ghost predicate ParOk(t: Tree, a: map<Ref, Att>, i: Ref)
    requires i in t.mem && i in a
  {
    i != t.root ==> Live(t, a[i].par) && i in {t.mem[a[i].par].left, t.mem[a[i].par].right}
  }

  ghost predicate NodeOk(t: Tree, a: map<Ref, Att>, i: Ref)
    requires i in t.mem && i in a
  {
    KidsOk(t, a, i) && ParOk(t, a, i)
  }

  ghost predicate Framed(t: Tree, a: map<Ref, Att>) {
    && NIL in t.mem && t.mem[NIL] == SENTINEL && NULL !in t.mem
    && a.Keys == t.mem.Keys && a[NIL].tb == 0
    && KidOk(a, NULL, t.root, NegInf, PosInf)
  }

  /** The nodes form one search tree, and the sentinel is as it should be. */
  ghost predicate Linked(t: Tree, a: map<Ref, Att>) {
    && Framed(t, a)
    && forall i {:trigger NodeOk(t, a, i)} :: Live(t, i) ==> NodeOk(t, a, i)
  }

  lemma Sentinel(t: Tree, a: map<Ref, Att>)
    requires Linked(t, a)
    ensures NIL in t.mem && NIL in a && a[NIL].tb == 0 && t.mem[NIL].colour == Black && a.Keys == t.mem.Keys
  {
  }

  /** The live nodes with keys between the bounds. */
  ghost function Inside(t: Tree, lo: Bound, hi: Bound): set<Ref> {
    set i | i in t.mem && i != NIL && Lt(lo, Key(t.mem[i].key)) && Lt(Key(t.mem[i].key), hi)
  }

  ghost function Lo(t: Tree, a: map<Ref, Att>, s: Slot): Bound
    requires s.Kid? ==> s.node in t.mem && s.node in a
  {
    if s.RootSlot? then NegInf else if s.right then Key(t.mem[s.node].key) else a[s.node].lo
  }

  ghost function Hi(t: Tree, a: map<Ref, Att>, s: Slot): Bound
    requires s.Kid? ==> s.node in t.mem && s.node in a
  {
    if s.RootSlot? then PosInf else if s.right then a[s.node].hi else Key(t.mem[s.node].key)
  }

  /** Below a node the intervals shrink. */
  lemma InsideShrinks(t: Tree, a: map<Ref, Att>, i: Ref)
    requires Linked(t, a) && Live(t, i)
    ensures var k := Key(t.mem[i].key);
            && i in Inside(t, a[i].lo, a[i].hi)
            && Inside(t, a[i].lo, k) + {i} + Inside(t, k, a[i].hi) <= Inside(t, a[i].lo, a[i].hi)
            && i !in Inside(t, a[i].lo, k) && i !in Inside(t, k, a[i].hi)
            && Inside(t, a[i].lo, k) !! Inside(t, k, a[i].hi)
            && |Inside(t, a[i].lo, k)| < |Inside(t, a[i].lo, a[i].hi)|
            && |Inside(t, k, a[i].hi)| < |Inside(t, a[i].lo, a[i].hi)|
  {
    assert NodeOk(t, a, i);
    var k := Key(t.mem[i].key);
    var l, r, all := Inside(t, a[i].lo, k), Inside(t, k, a[i].hi), Inside(t, a[i].lo, a[i].hi);
    assert l + {i} <= all && r + {i} <= all;
    Smaller(l + {i}, all);
    Smaller(r + {i}, all);
  }

  lemma Smaller<T>(x: set<T>, y: set<T>)
    requires x <= y
    ensures |x| <= |y|
  {
    assert y == x + (y - x);
  }

  /** Where the search for key k from node c ends: at the node with that key or at the sentinel. */
  ghost function Find(t: Tree, a: map<Ref, Att>, c: Ref, k: int): (r: Ref)
    requires Linked(t, a) && c in t.mem
    decreases if c == NIL then 0 else 1 + |Inside(t, a[c].lo, a[c].hi)|
  {
    if c == NIL then NIL
    else
      assert NodeOk(t, a, c);
      InsideShrinks(t, a, c);
      if t.mem[c].key == k then c
      else if t.mem[c].key < k then Find(t, a, t.mem[c].right, k)
      else Find(t, a, t.mem[c].left, k)
  }

  /** From any node on the way up from j, and so from the root, the search for j's key finds j. */
  lemma {:induction false} FindUp(t: Tree, a: map<Ref, Att>, c: Ref, j: Ref)
    requires Linked(t, a) && Live(t, c) && Live(t, j)
    requires j in Inside(t, a[c].lo, a[c].hi) && Find(t, a, c, t.mem[j].key) == j
    ensures t.root != NIL && Find(t, a, t.root, t.mem[j].key) == j
    decreases |t.mem| - |Inside(t, a[c].lo, a[c].hi)|
  {
    assert NodeOk(t, a, c);
    if c != t.root {
      var p := a[c].par;
      assert NodeOk(t, a, p);
      InsideShrinks(t, a, p);
      Smaller(Inside(t, a[p].lo, a[p].hi), t.mem.Keys);
      FindUp(t, a, p, j);
    }
  }

  /** The search from a node finds every node whose key lies in its interval. */
  lemma {:induction false} FindIn(t: Tree, a: map<Ref, Att>, c: Ref, j: Ref)
    requires Linked(t, a) && Live(t, c) && Live(t, j) && j in Inside(t, a[c].lo, a[c].hi)
    ensures Find(t, a, c, t.mem[j].key) == j
    decreases |t.mem| - |Inside(t, a[c].lo, a[c].hi)|
  {
    assert NodeOk(t, a, c);
    if c == t.root {
      assert NodeOk(t, a, j);
      FindUp(t, a, j, j);
    } else {
      var p := a[c].par;
      assert NodeOk(t, a, p);
      InsideShrinks(t, a, p);
      Smaller(Inside(t, a[p].lo, a[p].hi), t.mem.Keys);
      FindIn(t, a, p, j);
    }
  }

  /** Every stored key is found from the root: no node is lost, and no key is stored twice. */
  lemma FindAll(t: Tree, a: map<Ref, Att>, j: Ref)
    requires Linked(t, a) && Live(t, j)
    ensures t.root != NIL && Find(t, a, t.root, t.mem[j].key) == j
  {
    assert NodeOk(t, a, j);
    FindUp(t, a, j, j);
  }

  lemma KeysDistinct(t: Tree, a: map<Ref, Att>, i: Ref, j: Ref)
    requires Linked(t, a) && Live(t, i) && Live(t, j) && t.mem[i].key == t.mem[j].key
    ensures i == j
  {
    FindAll(t, a, i);
    FindAll(t, a, j);
  }

  /** A slot of the tree: the root or a child field of a live node. */
  ghost predicate SlotOf(t: Tree, s: Slot) {
    s.Kid? ==> Live(t, s.node)
  }

  /** An empty slot is a gap: no key lies between its bounds. */
  lemma Gap(t: Tree, a: map<Ref, Att>, s: Slot)
    requires Linked(t, a) && SlotOf(t, s) && At(t, s) == NIL
    ensures Inside(t, Lo(t, a, s), Hi(t, a, s)) == {}
  {
    if j :| j in Inside(t, Lo(t, a, s), Hi(t, a, s)) {
      if s.RootSlot? {
        FindAll(t, a, j);
      } else {
        assert NodeOk(t, a, s.node);
        FindIn(t, a, s.node, j);
      }
    }
  }
}
