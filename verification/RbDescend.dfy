/** Finding a key's slot, and unlinking the node found there. */
module RbDescend {
  import opened RbShape
  import opened RbLinks
  import opened RbTransplant
  import opened RbBalance
  import opened RbPath
  import opened RbHeight
  import opened RbInsertFixup
  import opened RbDeleteFixup
  import opened RbRemove

  /** A red-black tree small enough for a 32-bit count. */
  ghost predicate WellFormed(t: Tree, a: map<Ref, Att>) {
    Linked(t, a) && Balanced(t, a) && |t.mem| - 1 <= MAX_ELEMENTS
  }

  /** Key k, if it is stored at all, is stored below slot s. */
  ghost predicate Below(t: Tree, a: map<Ref, Att>, s: Slot, k: int) {
    SlotOf(t, s) && (s.Kid? ==> s.node in a) && Lt(Lo(t, a, s), Key(k)) && Lt(Key(k), Hi(t, a, s))
  }

  /** The state of a descent: parents[0..k] leads to the slot that holds the node at hand. */
  ghost predicate Descent(t: Tree, a: map<Ref, Att>, ps: seq<Slot>, k: nat, element: Ref, key: int) {
    Path(t, ps, k) && At(t, ps[k]) == element && element in t.mem && Below(t, a, ps[k], key)
  }

  lemma DescentStarts(t: Tree, a: map<Ref, Att>, ps: seq<Slot>, key: int)
    requires WellFormed(t, a) && |ps| > 0 && ps[0] == RootSlot
    ensures Descent(t, a, ps, 0, t.root, key)
  {
  }

  lemma DescentGoesOn(t: Tree, a: map<Ref, Att>, ps: seq<Slot>, k: nat, element: Ref, key: int, right: bool)
    requires WellFormed(t, a) && |ps| == MAX_RBTREE_HEIGHT && Descent(t, a, ps, k, element, key) && Live(t, element)
    requires if right then t.mem[element].key < key else t.mem[element].key > key
    ensures k + 1 < |ps| && At(t, Kid(element, right)) in t.mem && element in a
    ensures var c := At(t, Kid(element, right));
            && Descent(t, a, ps[k + 1 := Kid(element, right)], k + 1, c, key)
            && (c != NIL ==> c in a && |Inside(t, a[c].lo, a[c].hi)| < |Inside(t, a[element].lo, a[element].hi)|)
  {
    PathFits(t, a, ps, k);
    PathPrefix(t, ps, k, k);
    assert NodeOk(t, a, element);
    if ps[k].Kid? { ChildOf(t, a, ps[k].node, element); }
    PathPush(t, ps, k, Kid(element, right));
    InsideShrinks(t, a, element);
  }

  lemma DescentFacts(t: Tree, a: map<Ref, Att>, ps: seq<Slot>, k: nat, element: Ref, key: int)
    requires WellFormed(t, a) && |ps| == MAX_RBTREE_HEIGHT && Descent(t, a, ps, k, element, key)
    ensures k <= 62 && element in t.mem && element in a && (element != NIL ==> k <= 61)
  {
    PathFits(t, a, ps, k);
  }

  /** Walks down from the root to the node with the key, or to the empty slot where it belongs. */
  method Descend(t: Tree, key: int, parents: array<Slot>, ghost a: map<Ref, Att>) returns (element: Ref, k: nat)
    requires WellFormed(t, a) && parents.Length == MAX_RBTREE_HEIGHT
    modifies parents
    ensures Descent(t, a, parents[..], k, element, key) && k <= 62
    ensures element != NIL ==> t.mem[element].key == key
  {
    hide WellFormed, Descent, At;
    parents[0] := RootSlot;
    element, k := t.root, 0;
    DescentStarts(t, a, parents[..], key);
    DescentFacts(t, a, parents[..], k, element, key);
    while element != NIL && t.mem[element].key != key
      invariant k <= 62 && Descent(t, a, parents[..], k, element, key) && element in t.mem && element in a
      decreases if element == NIL then 0 else 1 + |Inside(t, a[element].lo, a[element].hi)|
    {
      var right := t.mem[element].key < key;
      DescentGoesOn(t, a, parents[..], k, element, key, right);
      k := k + 1;
      parents[k] := Kid(element, right);
      element := At(t, Kid(element, right));
      DescentFacts(t, a, parents[..], k, element, key);
    }
  }

  // ---------- the successor of a node with two children ----------

  /** nod, in slot ps[k], is on the way to the leftmost node of the right subtree of e, in slot ps[o]. */
  ghost predicate Seeking(t: Tree, a: map<Ref, Att>, ps: seq<Slot>, o: nat, k: nat, e: Ref, nod: Ref) {
    && Path(t, ps, k) && o < k && ps[o + 1] == Kid(e, true) && At(t, ps[o]) == e && At(t, ps[k]) == nod
    && Live(t, e) && Live(t, nod) && e in a && nod in a && e != nod
    && t.mem[e].left != NIL && t.mem[e].right != NIL && a[nod].lo == Key(t.mem[e].key)
    && Lt(Key(t.mem[nod].key), a[e].hi)
    && ps[k].Kid?
    && (|| ps[k] == Kid(e, true)
        || (!ps[k].right && ps[k].node != e && ps[k].node in a && a[ps[k].node].lo == Key(t.mem[e].key)))
  }

  lemma SeekStarts(t: Tree, a: map<Ref, Att>, ps: seq<Slot>, o: nat, e: Ref)
    requires WellFormed(t, a) && |ps| == MAX_RBTREE_HEIGHT && Path(t, ps, o) && At(t, ps[o]) == e && Live(t, e)
    requires t.mem[e].left != NIL && t.mem[e].right != NIL
    ensures o + 1 < |ps| && Seeking(t, a, ps[o + 1 := Kid(e, true)], o, o + 1, e, t.mem[e].right)
  {
    PathFits(t, a, ps, o);
    PathPush(t, ps, o, Kid(e, true));
    assert NodeOk(t, a, e);
    ChildOf(t, a, e, t.mem[e].right);
    assert NodeOk(t, a, t.mem[e].right);
  }

  lemma SeekGoesOn(t: Tree, a: map<Ref, Att>, ps: seq<Slot>, o: nat, k: nat, e: Ref, nod: Ref)
    requires WellFormed(t, a) && |ps| == MAX_RBTREE_HEIGHT && Seeking(t, a, ps, o, k, e, nod) && t.mem[nod].left != NIL
    ensures k + 1 < |ps| && Seeking(t, a, ps[k + 1 := Kid(nod, false)], o, k + 1, e, t.mem[nod].left)
    ensures var c := t.mem[nod].left;
            c in a && nod in a && |Inside(t, a[c].lo, a[c].hi)| < |Inside(t, a[nod].lo, a[nod].hi)|
  {
    PathFits(t, a, ps, k);
    PathPush(t, ps, k, Kid(nod, false));
    assert NodeOk(t, a, nod) && NodeOk(t, a, e);
    ChildOf(t, a, nod, t.mem[nod].left);
    assert NodeOk(t, a, t.mem[nod].left);
    InsideShrinks(t, a, nod);
  }

  lemma SeekFacts(t: Tree, a: map<Ref, Att>, ps: seq<Slot>, o: nat, k: nat, e: Ref, nod: Ref)
    requires WellFormed(t, a) && |ps| == MAX_RBTREE_HEIGHT && Seeking(t, a, ps, o, k, e, nod)
    ensures o < k <= 61 && Live(t, nod) && nod in a && e != nod && e in t.mem
  {
    PathFits(t, a, ps, k);
  }

  // ---------- unlinking ----------

  /** The tree after a node of the given colour has been unlinked from slot ps[k]. */
  ghost predicate Unlinked(t: Tree, a: map<Ref, Att>, ps: seq<Slot>, k: nat, colour: Colour) {
    if colour == Black then DeleteState(t, a, ps, k) else Linked(t, a) && Balanced(t, a)
  }

  lemma UnlinkedIs(t: Tree, a: map<Ref, Att>, ps: seq<Slot>, k: nat, colour: Colour)
    requires Linked(t, a) && Path(t, ps, k) && BalancedBut(t, a, ps[k], Lack(colour)) && At(t, ps[k]) in t.mem
    requires t.root in t.mem
    requires t.mem[t.root].colour == Black || (colour == Black && At(t, ps[k]) == t.root)
    requires colour == Red ==> t.mem[At(t, ps[k])].colour == Black
    ensures Unlinked(t, a, ps, k, colour)
  {
    if colour == Red {
      forall i | Live(t, i) ensures BalAt(t, a, RootSlot, 0, i) {
        assert BalAt(t, a, ps[k], 0, i);
      }
    }
  }

  lemma RemoveContent(t: Tree, a: map<Ref, Att>, s: Slot, e: Ref, c: Ref, u: Tree, b: map<Ref, Att>)
    requires IsRemoval(t, a, s, e, c, u, b)
    ensures SameContent(Free(t, e), u)
  {
  }

  lemma RemoveColours(t: Tree, a: map<Ref, Att>, s: Slot, e: Ref, c: Ref, u: Tree, b: map<Ref, Att>)
    requires Linked(t, a) && Balanced(t, a) && IsRemoval(t, a, s, e, c, u, b)
    ensures c in u.mem && u.root in u.mem
    ensures u.mem[u.root].colour == Black || (t.mem[e].colour == Black && c == u.root)
    ensures t.mem[e].colour == Red ==> u.mem[c].colour == Black
  {
    assert BalAt(t, a, RootSlot, 0, e);
    OneSlot(t, a, s, e);
    hide Linked;
  }

  /** A node with at most one child gives its slot to that child. */
  lemma UnlinkOne(t: Tree, a: map<Ref, Att>, ps: seq<Slot>, k: nat, e: Ref, c: Ref) returns (b: map<Ref, Att>)
    requires WellFormed(t, a) && |ps| == MAX_RBTREE_HEIGHT && Path(t, ps, k) && At(t, ps[k]) == e && Live(t, e)
    requires (t.mem[e].left == NIL && t.mem[e].right == c) || (t.mem[e].right == NIL && t.mem[e].left == c)
    ensures k <= 61
    ensures var u := Free(Put(t, ps[k], c), e);
            SameContent(Free(t, e), u) && Unlinked(u, b, ps, k, t.mem[e].colour)
  {
    hide Put, Free, Removed, Linked, Balanced, IsRemoval, Unlinked, SameContent, Path, At;
    KnownIn(t, a, e);
    PathFits(t, a, ps, k);
    PathPrefix(t, ps, k, k);
    var u := Free(Put(t, ps[k], c), e);
    b := Removed(t, a, e, c);
    RemoveOk(t, a, ps[k], e, c);
    RemoveFields(t, a, ps[k], e, c);
    RemovePath(t, a, ps, k, e, c, u, b);
    forall i | Live(u, i) ensures BalAt(u, b, ps[k], Lack(t.mem[e].colour), i) {
      RemoveBal(t, a, ps[k], e, c, u, b, i);
    }
    RemoveColours(t, a, ps[k], e, c, u, b);
    RemoveContent(t, a, ps[k], e, c, u, b);
    UnlinkedIs(u, b, ps, k, t.mem[e].colour);
  }

  lemma KnownIn(t: Tree, a: map<Ref, Att>, e: Ref)
    requires Linked(t, a)
    ensures e in t.mem <==> e in a
    ensures a.Keys == t.mem.Keys && (Balanced(t, a) ==> BalancedBut(t, a, RootSlot, 0))
  {
  }

  lemma TransplantContent(t: Tree, a: map<Ref, Att>, org: Slot, e: Ref, s: Slot, nod: Ref, u: Tree, b: map<Ref, Att>)
    requires IsTransplant(t, a, org, e, s, nod, u, b)
    ensures SameContent(Free(t, e), u)
  {
    hide IsSuccessor;
  }

  lemma TransplantColours(t: Tree, a: map<Ref, Att>, org: Slot, e: Ref, s: Slot, nod: Ref, u: Tree, b: map<Ref, Att>)
    requires Linked(t, a) && Balanced(t, a) && IsTransplant(t, a, org, e, s, nod, u, b)
    ensures t.mem[nod].right in u.mem && u.root in u.mem && u.mem[u.root].colour == Black
    ensures t.mem[nod].colour == Red ==> u.mem[t.mem[nod].right].colour == Black
  {
    hide Linked;
    assert BalAt(t, a, RootSlot, 0, nod);
    OneSlot(t, a, org, e);
    OneSlot(t, a, s, nod);
  }

  /** The successor takes the place of a node with two children. */
  lemma UnlinkTwo(t: Tree, a: map<Ref, Att>, ps: seq<Slot>, o: nat, k: nat, e: Ref, nod: Ref) returns (b: map<Ref, Att>)
    requires WellFormed(t, a) && |ps| == MAX_RBTREE_HEIGHT && Seeking(t, a, ps, o, k, e, nod) && t.mem[nod].left == NIL
    ensures var u := Transplant(t, ps[o], e, ps[k], nod);
            SameContent(Free(t, e), u) && Unlinked(u, b, ps[o + 1 := Kid(nod, true)], k, t.mem[nod].colour)
  {
    hide Transplant, Transplanted, Linked, Balanced, IsTransplant, Unlinked, SameContent, Free, At, Path;
    PathPrefix(t, ps, k, k);
    PathPrefix(t, ps, k, o);
    KnownIn(t, a, e);
    assert IsSuccessor(t, a, ps[o], e, ps[k], nod);
    hide Seeking, IsSuccessor;
    var u := Transplant(t, ps[o], e, ps[k], nod);
    b := Transplanted(t, a, e, ps[k], nod);
    TransplantOk(t, a, ps[o], e, ps[k], nod);
    TransplantIs(t, a, ps[o], e, ps[k], nod);
    TransplantPath(t, a, ps, o, k, e, nod, u, b);
    forall i | Live(u, i) ensures BalAt(u, b, Image(ps[k], e, nod), Lack(t.mem[nod].colour), i) {
      if i == nod { TransplantBalHere(t, a, ps[o], e, ps[k], nod, u, b); }
      else { TransplantBalElse(t, a, ps[o], e, ps[k], nod, u, b, i); }
    }
    TransplantColours(t, a, ps[o], e, ps[k], nod, u, b);
    TransplantContent(t, a, ps[o], e, ps[k], nod, u, b);
    UnlinkedIs(u, b, ps[o + 1 := Kid(nod, true)], k, t.mem[nod].colour);
  }

  /** Takes the node out of its slot parents[top], and rebalances. */
  method Unlink(tree: Tree, parents: array<Slot>, top: nat, element: Ref, ghost att: map<Ref, Att>)
    returns (t: Tree, ghost a: map<Ref, Att>)
    requires WellFormed(tree, att) && parents.Length == MAX_RBTREE_HEIGHT
    requires Path(tree, parents[..], top) && At(tree, parents[..][top]) == element && Live(tree, element)
    modifies parents
    ensures Linked(t, a) && Balanced(t, a) && SameContent(Free(tree, element), t)
  {
    hide WellFormed, Path, At, Linked, Balanced, SameContent, Transplant, Free, Put, Unlinked, Seeking, DeleteState;
    KidsKnown(tree, att, parents[..], top, element);
    var k, remove_colour := top, tree.mem[element].colour;
    if tree.mem[element].left == NIL {
      t := Free(Put(tree, parents[k], tree.mem[element].right), element);
      a := UnlinkOne(tree, att, parents[..], k, element, tree.mem[element].right);
    } else if tree.mem[element].right == NIL {
      t := Free(Put(tree, parents[k], tree.mem[element].left), element);
      a := UnlinkOne(tree, att, parents[..], k, element, tree.mem[element].left);
    } else {
      var org_parent := k;
      SeekStarts(tree, att, parents[..], k, element);
      k := k + 1;
      parents[k] := Kid(element, true);
      var nod := tree.mem[element].right;
      SeekFacts(tree, att, parents[..], org_parent, k, element, nod);
      while tree.mem[nod].left != NIL
        invariant org_parent < k <= 61 && Live(tree, nod) && nod in att && nod != element
        invariant Seeking(tree, att, parents[..], org_parent, k, element, nod)
        decreases |Inside(tree, att[nod].lo, att[nod].hi)|
      {
        SeekGoesOn(tree, att, parents[..], org_parent, k, element, nod);
        k := k + 1;
        parents[k] := Kid(nod, false);
        nod := tree.mem[nod].left;
        SeekFacts(tree, att, parents[..], org_parent, k, element, nod);
      }
      remove_colour := tree.mem[nod].colour;
      t := Transplant(tree, parents[org_parent], element, parents[k], nod);
      a := UnlinkTwo(tree, att, parents[..], org_parent, k, element, nod);
      parents[org_parent + 1] := Kid(nod, true);
    }
    assert Unlinked(t, a, parents[..], k, remove_colour) && k <= 61;
    UnlinkedUse(t, a, parents[..], k, remove_colour);
    if remove_colour == Black {
      ghost var t0 := t;
      t, a := DeleteFixup(t, parents, k, a);
      SameTrans(Free(tree, element), t0, t);
    }
  }

  lemma KidsKnown(t: Tree, a: map<Ref, Att>, ps: seq<Slot>, k: nat, e: Ref)
    requires WellFormed(t, a) && |ps| == MAX_RBTREE_HEIGHT && Path(t, ps, k) && At(t, ps[k]) == e && Live(t, e)
    ensures k <= 61 && t.mem[e].left in t.mem && t.mem[e].right in t.mem
  {
    PathFits(t, a, ps, k);
    assert NodeOk(t, a, e);
  }

  lemma UnlinkedUse(t: Tree, a: map<Ref, Att>, ps: seq<Slot>, k: nat, colour: Colour)
    requires Unlinked(t, a, ps, k, colour)
    ensures colour == Black ==> DeleteState(t, a, ps, k)
    ensures colour == Red ==> Linked(t, a) && Balanced(t, a)
  {
  }
}
