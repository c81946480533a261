/** Deleting a node with two children: its successor is unlinked and takes its place. */
module RbTransplant {
  import opened RbShape
  import opened RbLinks

  /** The successor nod, found in slot s, takes the place of e in slot org; e is freed. */
  function Transplant(t: Tree, org: Slot, e: Ref, s: Slot, nod: Ref): Tree
    requires e in t.mem && nod in t.mem
  {
    var t1 := Put(t, s, t.mem[nod].right);
    var t2 := Put(t1, org, nod);
    var el := if e in t2.mem then t2.mem[e] else t.mem[e];
    Free(t2.(mem := t2.mem[nod := Node(el.left, el.right, el.colour, t.mem[nod].count, t.mem[nod].key)]), e)
  }

  ghost function Transplanted(t: Tree, a: map<Ref, Att>, e: Ref, s: Slot, nod: Ref): (b: map<Ref, Att>)
    requires e in t.mem && nod in t.mem && a.Keys == t.mem.Keys && e != nod
    ensures b.Keys == a.Keys - {e}
  {
    var ke, kn := Key(t.mem[e].key), Key(t.mem[nod].key);
    map i | i in a && i != e :: if i == nod then a[e] else
      Att(if a[i].par == e then nod
          else if a[i].par == nod then (if s == Kid(e, true) then nod else Owner(s))
          else a[i].par,
          if a[i].lo == ke then kn else a[i].lo,
          if a[i].hi == ke then kn else a[i].hi,
          a[i].tb)
  }

  /** nod, in slot s, is the leftmost node of the right subtree of e, in slot org. */
  ghost predicate IsSuccessor(t: Tree, a: map<Ref, Att>, org: Slot, e: Ref, s: Slot, nod: Ref) {
    && Linked(t, a) && Live(t, e) && Live(t, nod) && SlotOf(t, org) && At(t, org) == e && SlotOf(t, s)
    && At(t, s) == nod
    && t.mem[e].left != NIL && t.mem[e].right != NIL && t.mem[nod].left == NIL && a[nod].lo == Key(t.mem[e].key)
    && Lt(Key(t.mem[nod].key), a[e].hi)
    && s.Kid? && (s == Kid(e, true) || (!s.right && s.node != e && a[s.node].lo == Key(t.mem[e].key)))
  }

  /** The slot that has lost a node: slot s, or its image when it was a field of the freed node. */
  ghost function Image(s: Slot, e: Ref, nod: Ref): Slot {
    if s == Kid(e, true) then Kid(nod, true) else s
  }

  ghost predicate IsTransplant(t: Tree, a: map<Ref, Att>, org: Slot, e: Ref, s: Slot, nod: Ref, u: Tree,
                               b: map<Ref, Att>) {
    && IsSuccessor(t, a, org, e, s, nod) && e != nod
    && (org.Kid? ==> org.node != s.node && org.node != nod && org.node != e)
    && s.node != nod && u.mem.Keys == b.Keys == t.mem.Keys - {e} && t.mem[nod].right != e && t.mem[nod].right != nod
    && u.mem[nod] == Node(t.mem[e].left, if s.node == e then t.mem[nod].right else t.mem[e].right,
                          t.mem[e].colour, t.mem[nod].count, t.mem[nod].key)
    && u.root == (if org.RootSlot? then nod else t.root)
    && (org.Kid? ==>
          u.mem[org.node] == if org.right then t.mem[org.node].(right := nod) else t.mem[org.node].(left := nod))
    && (s.node != e ==> u.mem[s.node] == t.mem[s.node].(left := t.mem[nod].right))
    && (forall i :: i in u.mem && i != nod && i != s.node && !(org.Kid? && i == org.node) ==> u.mem[i] == t.mem[i])
    && b == Transplanted(t, a, e, s, nod)
  }

  lemma SuccessorFacts(t: Tree, a: map<Ref, Att>, org: Slot, e: Ref, s: Slot, nod: Ref)
    requires IsSuccessor(t, a, org, e, s, nod)
    ensures e != nod && (org.Kid? ==> org.node != s.node && org.node != nod && org.node != e) && s.node != nod
    ensures t.mem[nod].right != e && t.mem[nod].right != nod
    ensures org.Kid? ==> a[e].par == org.node && e != t.root
    ensures a[nod].par == s.node && nod != t.root
  {
    assert NodeOk(t, a, e) && NodeOk(t, a, nod);
    ChildOf(t, a, s.node, nod);
    if org.Kid? { ChildOf(t, a, org.node, e); assert NodeOk(t, a, org.node); }
    if t.mem[nod].right != NIL { ChildOf(t, a, nod, t.mem[nod].right); }
  }

  /** The nodes after the transplant. */
  lemma TransplantMem(t: Tree, a: map<Ref, Att>, org: Slot, e: Ref, s: Slot, nod: Ref)
    requires IsSuccessor(t, a, org, e, s, nod) && e != nod
    ensures var u := Transplant(t, org, e, s, nod);
            && u.mem.Keys == t.mem.Keys - {e} && u.root == (if org.RootSlot? then nod else t.root)
            && u.mem[nod] == Node(t.mem[e].left, if s.node == e then t.mem[nod].right else t.mem[e].right,
                                  t.mem[e].colour, t.mem[nod].count, t.mem[nod].key)
            && (org.Kid? ==> org.node in u.mem)
            && (org.Kid? && org.right ==> u.mem[org.node] == t.mem[org.node].(right := nod))
            && (org.Kid? && !org.right ==> u.mem[org.node] == t.mem[org.node].(left := nod))
            && (s.node != e ==> s.node in u.mem && u.mem[s.node] == t.mem[s.node].(left := t.mem[nod].right))
            && forall i :: i in u.mem && i != nod && i != s.node && !(org.Kid? && i == org.node) ==>
                 u.mem[i] == t.mem[i]
  {
    SuccessorFacts(t, a, org, e, s, nod);
    hide Linked, Lt;
  }

  lemma TransplantIs(t: Tree, a: map<Ref, Att>, org: Slot, e: Ref, s: Slot, nod: Ref)
    requires IsSuccessor(t, a, org, e, s, nod) && e != nod
    ensures IsTransplant(t, a, org, e, s, nod, Transplant(t, org, e, s, nod), Transplanted(t, a, e, s, nod))
  {
    hide Transplant;
    SuccessorFacts(t, a, org, e, s, nod);
    TransplantMem(t, a, org, e, s, nod);
  }

  lemma TransplantBounds(t: Tree, a: map<Ref, Att>, org: Slot, e: Ref, s: Slot, nod: Ref, u: Tree, b: map<Ref, Att>,
                         i: Ref)
    requires IsTransplant(t, a, org, e, s, nod, u, b) && Live(u, i)
    requires Inside(t, Key(t.mem[e].key), Key(t.mem[nod].key)) == {}
    ensures Lt(b[i].lo, Key(u.mem[i].key)) && Lt(Key(u.mem[i].key), b[i].hi)
  {
    assert NodeOk(t, a, e) && NodeOk(t, a, nod) && NodeOk(t, a, i);
    SuccessorFacts(t, a, org, e, s, nod);
    if t.mem[i].key == t.mem[nod].key { KeysDistinct(t, a, i, nod); }
    assert i !in Inside(t, Key(t.mem[e].key), Key(t.mem[nod].key));
  }

  lemma TransplantLeftHere(t: Tree, a: map<Ref, Att>, org: Slot, e: Ref, s: Slot, nod: Ref, u: Tree, b: map<Ref, Att>,
                           i: Ref)
    requires IsTransplant(t, a, org, e, s, nod, u, b) && i == nod
    requires Inside(t, Key(t.mem[e].key), Key(t.mem[nod].key)) == {}
    ensures KidOk(b, i, u.mem[i].left, b[i].lo, Key(u.mem[i].key))
  {
    assert NodeOk(t, a, e) && NodeOk(t, a, nod);
    SuccessorFacts(t, a, org, e, s, nod);
    ChildOf(t, a, e, t.mem[e].left);
    if t.mem[nod].right != NIL { ChildOf(t, a, nod, t.mem[nod].right); }
  }

  lemma TransplantLeftSlot(t: Tree, a: map<Ref, Att>, org: Slot, e: Ref, s: Slot, nod: Ref, u: Tree, b: map<Ref, Att>,
                       i: Ref)
    requires IsTransplant(t, a, org, e, s, nod, u, b) && Live(u, i) && i == s.node
    requires Inside(t, Key(t.mem[e].key), Key(t.mem[nod].key)) == {}
    ensures KidOk(b, i, u.mem[i].left, b[i].lo, Key(u.mem[i].key))
  {
    assert NodeOk(t, a, e) && NodeOk(t, a, nod) && NodeOk(t, a, i);
    SuccessorFacts(t, a, org, e, s, nod);
    if t.mem[i].key == t.mem[e].key { KeysDistinct(t, a, i, e); }
    if t.mem[i].left != NIL { ChildOf(t, a, i, t.mem[i].left); }
    if t.mem[nod].right != NIL { ChildOf(t, a, nod, t.mem[nod].right); }
  }

  lemma TransplantLeftElse(t: Tree, a: map<Ref, Att>, org: Slot, e: Ref, s: Slot, nod: Ref, u: Tree, b: map<Ref, Att>,
                       i: Ref)
    requires IsTransplant(t, a, org, e, s, nod, u, b) && Live(u, i) && i != nod && i != s.node
    requires Inside(t, Key(t.mem[e].key), Key(t.mem[nod].key)) == {}
    ensures KidOk(b, i, u.mem[i].left, b[i].lo, Key(u.mem[i].key))
  {
    assert NodeOk(t, a, e) && NodeOk(t, a, nod) && NodeOk(t, a, i);
    SuccessorFacts(t, a, org, e, s, nod);
    if t.mem[i].key == t.mem[e].key { KeysDistinct(t, a, i, e); }
    if t.mem[i].left != NIL { ChildOf(t, a, i, t.mem[i].left); }
    if t.mem[nod].right != NIL { ChildOf(t, a, nod, t.mem[nod].right); }
  }

  lemma TransplantLeft(t: Tree, a: map<Ref, Att>, org: Slot, e: Ref, s: Slot, nod: Ref, u: Tree, b: map<Ref, Att>,
                       i: Ref)
    requires IsTransplant(t, a, org, e, s, nod, u, b) && Live(u, i)
    requires Inside(t, Key(t.mem[e].key), Key(t.mem[nod].key)) == {}
    ensures KidOk(b, i, u.mem[i].left, b[i].lo, Key(u.mem[i].key))
  {
    if i == nod {
      TransplantLeftHere(t, a, org, e, s, nod, u, b, i);
    } else if i == s.node {
      TransplantLeftSlot(t, a, org, e, s, nod, u, b, i);
    } else {
      TransplantLeftElse(t, a, org, e, s, nod, u, b, i);
    }
  }

  lemma TransplantRightHere(t: Tree, a: map<Ref, Att>, org: Slot, e: Ref, s: Slot, nod: Ref, u: Tree, b: map<Ref, Att>,
                        i: Ref)
    requires IsTransplant(t, a, org, e, s, nod, u, b) && i == nod
    requires Inside(t, Key(t.mem[e].key), Key(t.mem[nod].key)) == {}
    ensures KidOk(b, i, u.mem[i].right, Key(u.mem[i].key), b[i].hi)
  {
    assert NodeOk(t, a, e) && NodeOk(t, a, nod);
    SuccessorFacts(t, a, org, e, s, nod);
    ChildOf(t, a, e, t.mem[e].right);
    if t.mem[nod].right != NIL { ChildOf(t, a, nod, t.mem[nod].right); }
  }

  lemma TransplantRightElse(t: Tree, a: map<Ref, Att>, org: Slot, e: Ref, s: Slot, nod: Ref, u: Tree, b: map<Ref, Att>,
                        i: Ref)
    requires IsTransplant(t, a, org, e, s, nod, u, b) && Live(u, i) && i != nod
    requires Inside(t, Key(t.mem[e].key), Key(t.mem[nod].key)) == {}
    ensures KidOk(b, i, u.mem[i].right, Key(u.mem[i].key), b[i].hi)
  {
    assert NodeOk(t, a, nod) && NodeOk(t, a, i);
    SuccessorFacts(t, a, org, e, s, nod);
    if t.mem[i].key == t.mem[e].key { KeysDistinct(t, a, i, e); }
    if t.mem[i].right != NIL { ChildOf(t, a, i, t.mem[i].right); }
    if t.mem[nod].right != NIL { ChildOf(t, a, nod, t.mem[nod].right); }
  }

  lemma TransplantRight(t: Tree, a: map<Ref, Att>, org: Slot, e: Ref, s: Slot, nod: Ref, u: Tree, b: map<Ref, Att>,
                        i: Ref)
    requires IsTransplant(t, a, org, e, s, nod, u, b) && Live(u, i)
    requires Inside(t, Key(t.mem[e].key), Key(t.mem[nod].key)) == {}
    ensures KidOk(b, i, u.mem[i].right, Key(u.mem[i].key), b[i].hi)
  {
    if i == nod {
      TransplantRightHere(t, a, org, e, s, nod, u, b, i);
    } else {
      TransplantRightElse(t, a, org, e, s, nod, u, b, i);
    }
  }

  lemma TransplantPar(t: Tree, a: map<Ref, Att>, org: Slot, e: Ref, s: Slot, nod: Ref, u: Tree, b: map<Ref, Att>,
                      i: Ref)
    requires IsTransplant(t, a, org, e, s, nod, u, b) && Live(u, i)
    requires Inside(t, Key(t.mem[e].key), Key(t.mem[nod].key)) == {}
    ensures ParOk(u, b, i)
  {
    assert NodeOk(t, a, e) && NodeOk(t, a, nod) && NodeOk(t, a, i);
    SuccessorFacts(t, a, org, e, s, nod);
    if i != nod && i != t.root {
      ChildOf(t, a, a[i].par, i);
    }
    if t.mem[nod].right != NIL { ChildOf(t, a, nod, t.mem[nod].right); }
  }

  /** The transplant keeps the search tree; e is gone and every other node stays. */
  lemma TransplantOk(t: Tree, a: map<Ref, Att>, org: Slot, e: Ref, s: Slot, nod: Ref)
    requires IsSuccessor(t, a, org, e, s, nod) && e != nod
    ensures Linked(Transplant(t, org, e, s, nod), Transplanted(t, a, e, s, nod))
  {
    TransplantIs(t, a, org, e, s, nod);
    Gap(t, a, Kid(nod, false));
    SuccessorFacts(t, a, org, e, s, nod);
    assert NodeOk(t, a, e) && NodeOk(t, a, nod);
    hide Transplant;
    var u, b := Transplant(t, org, e, s, nod), Transplanted(t, a, e, s, nod);
    assert Framed(u, b);
    hide Transplanted;
    forall i | Live(u, i) ensures NodeOk(u, b, i) {
      TransplantBounds(t, a, org, e, s, nod, u, b, i);
      TransplantLeft(t, a, org, e, s, nod, u, b, i);
      TransplantRight(t, a, org, e, s, nod, u, b, i);
      TransplantPar(t, a, org, e, s, nod, u, b, i);
    }
  }
}
