/** Rewriting the links of a search tree: rotations, hanging in a node, taking one out. */
module RbLinks {
  import opened RbShape

  /** Turns the child of n on side `right` up into the slot of n, with n below it on the other side. */
  function Rotate(t: Tree, s: Slot, n: Ref, right: bool): Tree {
    var y := At(t, Kid(n, right));
    var t1 := Put(t, Kid(n, right), At(t, Kid(y, !right)));
    var t2 := Put(t1, s, y);
    Put(t2, Kid(y, !right), n)
  }

  function WithColour(t: Tree, i: Ref, c: Colour): Tree {
    if i in t.mem then t.(mem := t.mem[i := t.mem[i].(colour := c)]) else t
  }

  ghost function WithPar(a: map<Ref, Att>, i: Ref, p: Ref): (b: map<Ref, Att>)
    ensures b.Keys == a.Keys
  {
    if i in a && i != NIL then a[i := a[i].(par := p)] else a
  }

  ghost function WithTb(a: map<Ref, Att>, i: Ref, tb: nat): (b: map<Ref, Att>)
    ensures b.Keys == a.Keys
  {
    if i in a && i != NIL then a[i := a[i].(tb := tb)] else a
  }

  ghost function Rotated(t: Tree, a: map<Ref, Att>, n: Ref, right: bool): map<Ref, Att>
    requires n in a && n in t.mem && At(t, Kid(n, right)) in a && At(t, Kid(n, right)) in t.mem
  {
    var y := At(t, Kid(n, right));
    var ky := Key(t.mem[y].key);
    var b := WithPar(a, At(t, Kid(y, !right)), n);
    b[y := Att(a[n].par, a[n].lo, a[n].hi, a[y].tb)]
     [n := if right then Att(y, a[n].lo, ky, a[n].tb) else Att(y, ky, a[n].hi, a[n].tb)]
  }

  /** What rotations and colours do not touch. */
  ghost predicate SameContent(t: Tree, u: Tree) {
    && t.mem.Keys == u.mem.Keys
    && forall i :: i in t.mem ==> u.mem[i].key == t.mem[i].key && u.mem[i].count == t.mem[i].count
  }

  ghost predicate SameColours(t: Tree, u: Tree) {
    t.mem.Keys == u.mem.Keys && forall i :: i in t.mem ==> u.mem[i].colour == t.mem[i].colour
  }

  /** The child of p on a side is i only if p is i's parent. */
  lemma ChildOf(t: Tree, a: map<Ref, Att>, p: Ref, i: Ref)
    requires Linked(t, a) && Live(t, p) && Live(t, i) && i in {t.mem[p].left, t.mem[p].right}
    ensures a[i].par == p && i != p && i != t.root && t.mem[p].left != t.mem[p].right
    ensures if t.mem[p].left == i then a[i].lo == a[p].lo && a[i].hi == Key(t.mem[p].key)
            else a[i].lo == Key(t.mem[p].key) && a[i].hi == a[p].hi
  {
    assert NodeOk(t, a, p);
    assert NodeOk(t, a, i);
  }

  /** The effect of a rotation, node by node. */
  ghost predicate IsRotation(t: Tree, a: map<Ref, Att>, s: Slot, n: Ref, right: bool, y: Ref, m: Ref, u: Tree,
                             b: map<Ref, Att>) {
    && Live(t, n) && Live(t, y) && n != y && m in t.mem && m != n && m != y && SlotOf(t, s) && At(t, s) == n
    && a.Keys == t.mem.Keys == u.mem.Keys == b.Keys
    && (s.Kid? ==> s.node != n && s.node != y)
    && y == At(t, Kid(n, right)) && m == At(t, Kid(y, !right))
    && u.mem[n] == (if right then t.mem[n].(right := m) else t.mem[n].(left := m))
    && u.mem[y] == (if right then t.mem[y].(left := n) else t.mem[y].(right := n))
    && u.root == (if s.RootSlot? then y else t.root)
    && (s.Kid? ==> u.mem[s.node] == if s.right then t.mem[s.node].(right := y) else t.mem[s.node].(left := y))
    && (forall i :: i in t.mem && i != n && i != y && !(s.Kid? && i == s.node) ==> u.mem[i] == t.mem[i])
    && b[y] == a[n].(tb := a[y].tb)
    && b[n] == (if right then a[n].(par := y, hi := Key(t.mem[y].key)) else a[n].(par := y, lo := Key(t.mem[y].key)))
    && (m != NIL ==> b[m] == a[m].(par := n))
    && (forall i :: i in a && i != n && i != y && (i != m || m == NIL) ==> b[i] == a[i])
  }

  lemma RotationLeft(t: Tree, a: map<Ref, Att>, s: Slot, n: Ref, right: bool, y: Ref, m: Ref, u: Tree, b: map<Ref, Att>,
                     i: Ref)
    requires Linked(t, a) && IsRotation(t, a, s, n, right, y, m, u, b) && Live(t, i)
    ensures KidOk(b, i, u.mem[i].left, b[i].lo, Key(u.mem[i].key)) && Lt(b[i].lo, Key(u.mem[i].key))
  {
    assert NodeOk(t, a, n) && NodeOk(t, a, y) && NodeOk(t, a, i);
    if m != NIL { ChildOf(t, a, y, m); }
    if s.Kid? { ChildOf(t, a, s.node, n); }
    ChildOf(t, a, n, y);
    if t.mem[i].left != NIL { ChildOf(t, a, i, t.mem[i].left); }
  }

  lemma RotationRight(t: Tree, a: map<Ref, Att>, s: Slot, n: Ref, right: bool, y: Ref, m: Ref, u: Tree,
                      b: map<Ref, Att>, i: Ref)
    requires Linked(t, a) && IsRotation(t, a, s, n, right, y, m, u, b) && Live(t, i)
    ensures KidOk(b, i, u.mem[i].right, Key(u.mem[i].key), b[i].hi) && Lt(Key(u.mem[i].key), b[i].hi)
  {
    assert NodeOk(t, a, n) && NodeOk(t, a, y) && NodeOk(t, a, i);
    if m != NIL { ChildOf(t, a, y, m); }
    if s.Kid? { ChildOf(t, a, s.node, n); }
    ChildOf(t, a, n, y);
    if t.mem[i].right != NIL { ChildOf(t, a, i, t.mem[i].right); }
  }

  lemma RotationPar(t: Tree, a: map<Ref, Att>, s: Slot, n: Ref, right: bool, y: Ref, m: Ref, u: Tree, b: map<Ref, Att>,
                    i: Ref)
    requires Linked(t, a) && IsRotation(t, a, s, n, right, y, m, u, b) && Live(t, i)
    ensures ParOk(u, b, i)
  {
    assert NodeOk(t, a, n) && NodeOk(t, a, i);
    if m != NIL { ChildOf(t, a, y, m); }
    if s.Kid? { ChildOf(t, a, s.node, n); }
    ChildOf(t, a, n, y);
  }

  lemma RotateMem(t: Tree, a: map<Ref, Att>, s: Slot, n: Ref, right: bool)
    requires Linked(t, a) && SlotOf(t, s) && At(t, s) == n && Live(t, n)
    requires Live(t, At(t, Kid(n, right)))
    ensures var y := At(t, Kid(n, right));
            var m := At(t, Kid(y, !right));
            var u := Rotate(t, s, n, right);
            && n != y && m in t.mem && m != n && m != y && (s.Kid? ==> s.node != n && s.node != y)
            && u.mem.Keys == t.mem.Keys
            && u.mem[n] == (if right then t.mem[n].(right := m) else t.mem[n].(left := m))
            && u.mem[y] == (if right then t.mem[y].(left := n) else t.mem[y].(right := n))
            && u.root == (if s.RootSlot? then y else t.root)
            && (s.Kid? ==> u.mem[s.node] == if s.right then t.mem[s.node].(right := y) else t.mem[s.node].(left := y))
            && (forall i :: i in t.mem && i != n && i != y && !(s.Kid? && i == s.node) ==> u.mem[i] == t.mem[i])
  {
    var y := At(t, Kid(n, right));
    var m := At(t, Kid(y, !right));
    assert NodeOk(t, a, n) && NodeOk(t, a, y);
    ChildOf(t, a, n, y);
    if m != NIL { ChildOf(t, a, y, m); }
    if s.Kid? { ChildOf(t, a, s.node, n); assert NodeOk(t, a, s.node); }
  }

  /** The ghost facts after the rotation. */
  lemma RotateAtt(t: Tree, a: map<Ref, Att>, n: Ref, right: bool, y: Ref, m: Ref)
    requires n in a && y in a && m in a && n in t.mem && y in t.mem && n != y && m != n && m != y && y != NIL
    requires y == At(t, Kid(n, right)) && m == At(t, Kid(y, !right))
    ensures var b := Rotated(t, a, n, right);
            && b.Keys == a.Keys && b[y] == a[n].(tb := a[y].tb)
            && (right ==> b[n] == a[n].(par := y, hi := Key(t.mem[y].key)))
            && (!right ==> b[n] == a[n].(par := y, lo := Key(t.mem[y].key)))
            && (m != NIL ==> b[m] == a[m].(par := n))
            && (forall i :: i in a && i != n && i != y && (i != m || m == NIL) ==> b[i] == a[i])
  {
  }

  lemma RotateIs(t: Tree, a: map<Ref, Att>, s: Slot, n: Ref, right: bool)
    requires Linked(t, a) && SlotOf(t, s) && At(t, s) == n && Live(t, n)
    requires Live(t, At(t, Kid(n, right)))
    ensures var y := At(t, Kid(n, right));
            IsRotation(t, a, s, n, right, y, At(t, Kid(y, !right)), Rotate(t, s, n, right), Rotated(t, a, n, right))
  {
    hide Linked, Rotate, Rotated;
    var y := At(t, Kid(n, right));
    Sentinel(t, a);
    RotateMem(t, a, s, n, right);
    RotateAtt(t, a, n, right, y, At(t, Kid(y, !right)));
  }

  lemma RotationFrame(t: Tree, a: map<Ref, Att>, s: Slot, n: Ref, right: bool, y: Ref, m: Ref, u: Tree,
                      b: map<Ref, Att>)
    requires Linked(t, a) && IsRotation(t, a, s, n, right, y, m, u, b)
    ensures Framed(u, b) && SameContent(t, u) && SameColours(t, u)
  {
    assert NodeOk(t, a, n);
    if m != NIL { ChildOf(t, a, y, m); }
    if s.Kid? { ChildOf(t, a, s.node, n); }
    ChildOf(t, a, n, y);
  }

  /** A rotation keeps the search tree, its keys and counts, and the colours. */
  lemma RotateOk(t: Tree, a: map<Ref, Att>, s: Slot, n: Ref, right: bool)
    requires Linked(t, a) && SlotOf(t, s) && At(t, s) == n && Live(t, n)
    requires Live(t, At(t, Kid(n, right)))
    ensures var u := Rotate(t, s, n, right);
            Linked(u, Rotated(t, a, n, right)) && SameContent(t, u) && SameColours(t, u)
  {
    RotateIs(t, a, s, n, right);
    hide Rotate, Rotated, IsRotation;
    var y := At(t, Kid(n, right));
    var m := At(t, Kid(y, !right));
    var u, b := Rotate(t, s, n, right), Rotated(t, a, n, right);
    RotationFrame(t, a, s, n, right, y, m, u, b);
    forall i | Live(u, i) ensures NodeOk(u, b, i) {
      RotationLeft(t, a, s, n, right, y, m, u, b, i);
      RotationRight(t, a, s, n, right, y, m, u, b, i);
      RotationPar(t, a, s, n, right, y, m, u, b, i);
    }
  }

  // ---------- hanging in a new node ----------

  ghost function Owner(s: Slot): Ref {
    if s.RootSlot? then NULL else s.node
  }

  /** A new leaf z in the empty slot s, with a key that belongs there. */
  lemma HangOk(t: Tree, a: map<Ref, Att>, s: Slot, z: Ref, node: Node, tb: nat, u: Tree, b: map<Ref, Att>)
    requires Linked(t, a) && SlotOf(t, s) && At(t, s) == NIL && z !in t.mem && z != NULL
    requires node.left == NIL == node.right && Lt(Lo(t, a, s), Key(node.key)) && Lt(Key(node.key), Hi(t, a, s))
    requires u == Put(t.(mem := t.mem[z := node]), s, z)
    requires b == a[z := Att(Owner(s), Lo(t, a, s), Hi(t, a, s), tb)]
    ensures Linked(u, b)
  {
    if s.Kid? { assert NodeOk(t, a, s.node); }
    forall i | Live(u, i) ensures NodeOk(u, b, i) {
      if i != z { assert NodeOk(t, a, i); }
    }
  }

  // ---------- taking a node out ----------

  /** The bounds given by a key that is leaving are replaced everywhere. */
  ghost function Rebound(a: map<Ref, Att>, k: int, lo: Bound, hi: Bound): (b: map<Ref, Att>)
    ensures b.Keys == a.Keys
    ensures forall i :: i in a ==> b[i] == a[i].(lo := if a[i].lo == Key(k) then lo else a[i].lo,
                                                 hi := if a[i].hi == Key(k) then hi else a[i].hi)
  {
    map i | i in a :: a[i].(lo := if a[i].lo == Key(k) then lo else a[i].lo,
                            hi := if a[i].hi == Key(k) then hi else a[i].hi)
  }

  function Free(t: Tree, e: Ref): Tree {
    t.(mem := t.mem - {e})
  }

  ghost function Removed(t: Tree, a: map<Ref, Att>, e: Ref, c: Ref): map<Ref, Att>
    requires e in t.mem && e in a
  {
    WithPar(Rebound(a, t.mem[e].key, a[e].lo, a[e].hi), c, a[e].par) - {e}
  }

  /** Node e, one of whose children is the sentinel, gives its slot to the other child c. */
  lemma RemoveOk(t: Tree, a: map<Ref, Att>, s: Slot, e: Ref, c: Ref)
    requires Linked(t, a) && SlotOf(t, s) && At(t, s) == e && Live(t, e)
    requires (t.mem[e].left == NIL && t.mem[e].right == c) || (t.mem[e].right == NIL && t.mem[e].left == c)
    ensures Linked(Free(Put(t, s, c), e), Removed(t, a, e, c))
  {
    var u, b := Free(Put(t, s, c), e), Removed(t, a, e, c);
    RemoveFields(t, a, s, e, c);
    hide Removed, Put, Free, Rebound;
    forall i | Live(u, i) ensures NodeOk(u, b, i) {
      RemoveNode(t, a, s, e, c, u, b, i);
    }
    assert NodeOk(t, a, e);
    if s.Kid? { ChildOf(t, a, s.node, e); }
    if c != NIL { ChildOf(t, a, e, c); }
    assert Framed(u, b);
  }

  ghost predicate IsRemoval(t: Tree, a: map<Ref, Att>, s: Slot, e: Ref, c: Ref, u: Tree, b: map<Ref, Att>) {
    && Live(t, e) && SlotOf(t, s) && At(t, s) == e && a.Keys == t.mem.Keys && u.mem.Keys == b.Keys == t.mem.Keys - {e}
    && ((t.mem[e].left == NIL && t.mem[e].right == c) || (t.mem[e].right == NIL && t.mem[e].left == c))
    && (s.Kid? ==> s.node != e) && c in t.mem && c != e
    && u.root == (if s.RootSlot? then c else t.root)
    && (s.Kid? ==> u.mem[s.node] == if s.right then t.mem[s.node].(right := c) else t.mem[s.node].(left := c))
    && (forall i :: i in u.mem && !(s.Kid? && i == s.node) ==> u.mem[i] == t.mem[i])
    && (forall i :: i in b ==>
          && b[i].tb == a[i].tb
          && b[i].lo == (if a[i].lo == Key(t.mem[e].key) then a[e].lo else a[i].lo)
          && b[i].hi == (if a[i].hi == Key(t.mem[e].key) then a[e].hi else a[i].hi)
          && b[i].par == (if i == c && c != NIL then a[e].par else a[i].par))
  }

  /** The part of a removal that concerns the nodes. */
  lemma RemoveMem(t: Tree, a: map<Ref, Att>, s: Slot, e: Ref, c: Ref, u: Tree)
    requires Linked(t, a) && SlotOf(t, s) && At(t, s) == e && Live(t, e) && u == Free(Put(t, s, c), e)
    requires (t.mem[e].left == NIL && t.mem[e].right == c) || (t.mem[e].right == NIL && t.mem[e].left == c)
    ensures (s.Kid? ==> s.node != e) && c in t.mem && c != e && u.mem.Keys == t.mem.Keys - {e}
    ensures u.root == (if s.RootSlot? then c else t.root)
    ensures s.Kid? ==> u.mem[s.node] == if s.right then t.mem[s.node].(right := c) else t.mem[s.node].(left := c)
    ensures forall i :: i in u.mem && !(s.Kid? && i == s.node) ==> u.mem[i] == t.mem[i]
  {
    assert NodeOk(t, a, e);
    if s.Kid? { ChildOf(t, a, s.node, e); }
    if c != NIL { ChildOf(t, a, e, c); }
  }

  lemma RemoveFields(t: Tree, a: map<Ref, Att>, s: Slot, e: Ref, c: Ref)
    requires Linked(t, a) && SlotOf(t, s) && At(t, s) == e && Live(t, e)
    requires (t.mem[e].left == NIL && t.mem[e].right == c) || (t.mem[e].right == NIL && t.mem[e].left == c)
    ensures IsRemoval(t, a, s, e, c, Free(Put(t, s, c), e), Removed(t, a, e, c))
  {
    hide Linked, Put, Free, NodeOk, Removed;
    Sentinel(t, a);
    RemoveMem(t, a, s, e, c, Free(Put(t, s, c), e));
    RemoveAtt(t, a, e, c);
  }

  /** The part that concerns the ghost facts. */
  lemma RemoveAtt(t: Tree, a: map<Ref, Att>, e: Ref, c: Ref)
    requires e in t.mem && e in a && c in a && c != e
    ensures var b := Removed(t, a, e, c);
            && b.Keys == a.Keys - {e}
            && forall i :: i in b ==>
                 && b[i].tb == a[i].tb
                 && b[i].lo == (if a[i].lo == Key(t.mem[e].key) then a[e].lo else a[i].lo)
                 && b[i].hi == (if a[i].hi == Key(t.mem[e].key) then a[e].hi else a[i].hi)
                 && b[i].par == (if i == c && c != NIL then a[e].par else a[i].par)
  {
  }

  lemma RemoveKids(t: Tree, a: map<Ref, Att>, s: Slot, e: Ref, c: Ref, u: Tree, b: map<Ref, Att>, i: Ref)
    requires Linked(t, a) && IsRemoval(t, a, s, e, c, u, b) && Live(u, i)
    ensures KidsOk(u, b, i)
  {
    assert NodeOk(t, a, e) && NodeOk(t, a, i);
    if t.mem[i].key == t.mem[e].key { KeysDistinct(t, a, i, e); }
    if s.Kid? { ChildOf(t, a, s.node, e); assert NodeOk(t, a, s.node); }
    if c != NIL { ChildOf(t, a, e, c); }
    if t.mem[i].left != NIL { ChildOf(t, a, i, t.mem[i].left); }
    if t.mem[i].right != NIL { ChildOf(t, a, i, t.mem[i].right); }
  }

  lemma RemovePar(t: Tree, a: map<Ref, Att>, s: Slot, e: Ref, c: Ref, u: Tree, b: map<Ref, Att>, i: Ref)
    requires Linked(t, a) && IsRemoval(t, a, s, e, c, u, b) && Live(u, i)
    ensures ParOk(u, b, i)
  {
    assert NodeOk(t, a, e) && NodeOk(t, a, i);
    if s.Kid? { ChildOf(t, a, s.node, e); }
    if c != NIL { ChildOf(t, a, e, c); }
  }

  lemma RemoveNode(t: Tree, a: map<Ref, Att>, s: Slot, e: Ref, c: Ref, u: Tree, b: map<Ref, Att>, i: Ref)
    requires Linked(t, a) && IsRemoval(t, a, s, e, c, u, b) && Live(u, i)
    ensures NodeOk(u, b, i)
  {
    RemoveKids(t, a, s, e, c, u, b, i);
    RemovePar(t, a, s, e, c, u, b, i);
  }
}
