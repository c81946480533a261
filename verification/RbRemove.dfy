/** What unlinking a node does to the balance and to the stack of slots. */
module RbRemove {
  import opened RbShape
  import opened RbLinks
  import opened RbTransplant
  import opened RbBalance
  import opened RbPath

  ghost function Lack(colour: Colour): nat {
    if colour == Black then 1 else 0
  }

  // ---------- a node with at most one child ----------

  /** Where things are after the removal. */
  lemma RemoveAt(t: Tree, a: map<Ref, Att>, s: Slot, e: Ref, c: Ref, u: Tree, b: map<Ref, Att>, i: Ref, r: bool)
    requires Linked(t, a) && IsRemoval(t, a, s, e, c, u, b) && Live(u, i)
    ensures At(u, s) == c && i in t.mem && i in a && At(u, Kid(i, r)) == if Kid(i, r) == s then c else At(t, Kid(i, r))
    ensures At(t, s) == e && (At(t, Kid(i, r)) == e ==> Kid(i, r) == s)
    ensures c in {At(t, Kid(e, false)), At(t, Kid(e, true))} && NIL in {At(t, Kid(e, false)), At(t, Kid(e, true))}
    ensures forall j :: j in u.mem ==> j in t.mem && j in a && j in b && u.mem[j].colour == t.mem[j].colour
    ensures forall j :: j in u.mem ==> j in a && j in b && b[j].tb == a[j].tb
    ensures At(t, Kid(i, r)) in t.mem && At(u, Kid(i, r)) in u.mem && c in u.mem && Live(t, e) && e in a
  {
    OneSlot(t, a, s, e);
    assert NodeOk(t, a, i);
  }

  lemma RemoveBal(t: Tree, a: map<Ref, Att>, s: Slot, e: Ref, c: Ref, u: Tree, b: map<Ref, Att>, i: Ref)
    requires Linked(t, a) && Balanced(t, a) && IsRemoval(t, a, s, e, c, u, b) && Live(u, i)
    ensures BalAt(u, b, s, Lack(t.mem[e].colour), i)
  {
    hide Linked, IsRemoval, At;
    Sentinel(t, a);
    RemoveAt(t, a, s, e, c, u, b, i, false);
    RemoveAt(t, a, s, e, c, u, b, i, true);
    assert BalAt(t, a, RootSlot, 0, i) && BalAt(t, a, RootSlot, 0, e);
  }

  lemma RemovePath(t: Tree, a: map<Ref, Att>, ps: seq<Slot>, k: nat, e: Ref, c: Ref, u: Tree, b: map<Ref, Att>)
    requires Linked(t, a) && Path(t, ps, k) && IsRemoval(t, a, ps[k], e, c, u, b)
    ensures Path(u, ps, k) && At(u, ps[k]) == c
  {
    forall j | 0 < j <= k ensures Step(u, ps, j) {
      assert Step(t, ps, j);
      PathDistinct(t, a, ps, k, j - 1, k);
      if j > 1 {
        assert Step(t, ps, j - 1);
        PathDistinct(t, a, ps, k, j - 2, k);
      }
    }
    if k > 0 { assert Step(t, ps, k); PathDistinct(t, a, ps, k, k - 1, k); }
  }

  // ---------- a node with two children ----------

  /** The node that takes the place of the freed one. */
  lemma TransplantBalHere(t: Tree, a: map<Ref, Att>, org: Slot, e: Ref, s: Slot, nod: Ref, u: Tree, b: map<Ref, Att>)
    requires Balanced(t, a) && IsTransplant(t, a, org, e, s, nod, u, b)
    ensures BalAt(u, b, Image(s, e, nod), Lack(t.mem[nod].colour), nod)
  {
    SuccessorFacts(t, a, org, e, s, nod);
    assert BalAt(t, a, RootSlot, 0, e) && BalAt(t, a, RootSlot, 0, nod);
    OneSlot(t, a, s, nod);
    assert NodeOk(t, a, e);
  }

  lemma TransplantAt(t: Tree, a: map<Ref, Att>, org: Slot, e: Ref, s: Slot, nod: Ref, u: Tree, b: map<Ref, Att>,
                     x: Slot)
    requires IsTransplant(t, a, org, e, s, nod, u, b)
    ensures At(u, org) == nod && At(u, Kid(nod, true)) == (if s.node == e then t.mem[nod].right else t.mem[e].right)
    ensures s.node != e ==> At(u, s) == t.mem[nod].right
    ensures SlotOf(t, x) && x != org && x != s && (x.Kid? ==> x.node != e && x.node != nod) ==>
      SlotOf(u, x) && At(u, x) == At(t, x)
  {
  }

  /** Seen from any other node a side keeps its black count, and its blackness. */
  lemma TransplantSide(t: Tree, a: map<Ref, Att>, org: Slot, e: Ref, s: Slot, nod: Ref, u: Tree, b: map<Ref, Att>,
                       i: Ref, r: bool)
    requires Balanced(t, a) && IsTransplant(t, a, org, e, s, nod, u, b) && Live(u, i) && i != nod && KidsIn(t, a, i)
    ensures At(u, Kid(i, r)) in u.mem && At(u, Kid(i, r)) in b
    ensures b[At(u, Kid(i, r))].tb + (if Image(s, e, nod) == Kid(i, r) then Lack(t.mem[nod].colour) else 0)
         == a[At(t, Kid(i, r))].tb
    ensures Image(s, e, nod) != Kid(i, r) && t.mem[At(t, Kid(i, r))].colour == Black ==>
      u.mem[At(u, Kid(i, r))].colour == Black
  {
    assert BalAt(t, a, RootSlot, 0, nod);
    TransplantAt(t, a, org, e, s, nod, u, b, Kid(i, r));
    OneSlot(t, a, org, e);
    OneSlot(t, a, s, nod);
    hide Linked, Balanced, BalancedBut, At;
  }

  lemma TransplantBalElse(t: Tree, a: map<Ref, Att>, org: Slot, e: Ref, s: Slot, nod: Ref, u: Tree, b: map<Ref, Att>,
                          i: Ref)
    requires Balanced(t, a) && IsTransplant(t, a, org, e, s, nod, u, b) && Live(u, i) && i != nod
    ensures BalAt(u, b, Image(s, e, nod), Lack(t.mem[nod].colour), i)
  {
    TransplantSame(t, a, org, e, s, nod, u, b, i);
    hide At, IsTransplant, Image, Balanced;
    TransplantSide(t, a, org, e, s, nod, u, b, i, false);
    TransplantSide(t, a, org, e, s, nod, u, b, i, true);
  }

  lemma TransplantSame(t: Tree, a: map<Ref, Att>, org: Slot, e: Ref, s: Slot, nod: Ref, u: Tree, b: map<Ref, Att>,
                       i: Ref)
    requires Balanced(t, a) && IsTransplant(t, a, org, e, s, nod, u, b) && Live(u, i) && i != nod
    ensures i in t.mem && i in a && i in b && u.mem[i].colour == t.mem[i].colour && b[i].tb == a[i].tb
    ensures BalAt(t, a, RootSlot, 0, i)
    ensures Live(t, nod)
  {
    assert BalAt(t, a, RootSlot, 0, i);
  }

  lemma TransplantStep(t: Tree, a: map<Ref, Att>, ps: seq<Slot>, o: nat, k: nat, e: Ref, nod: Ref, u: Tree,
                       b: map<Ref, Att>, j: nat)
    requires Path(t, ps, k) && o < k && ps[o + 1] == Kid(e, true) && IsTransplant(t, a, ps[o], e, ps[k], nod, u, b)
    requires 0 < j <= k
    ensures Step(u, ps[o + 1 := Kid(nod, true)], j)
  {
    var s, org := ps[k], ps[o];
    assert Step(t, ps, j);
    TransplantAt(t, a, org, e, s, nod, u, b, ps[j - 1]);
    PathDistinct(t, a, ps, k, j - 1, k);
    if o < j - 1 { PathDistinct(t, a, ps, k, o, j - 1); }
    if j - 1 < o { PathDistinct(t, a, ps, k, j - 1, o); }
    if j > 1 {
      assert Step(t, ps, j - 1);
      PathDistinct(t, a, ps, k, j - 2, k);
      if o < j - 2 { PathDistinct(t, a, ps, k, o, j - 2); }
      if j - 2 < o { PathDistinct(t, a, ps, k, j - 2, o); }
    }
  }

  /** The stack after the field of the freed node has been replaced by that of its successor. */
  lemma TransplantPath(t: Tree, a: map<Ref, Att>, ps: seq<Slot>, o: nat, k: nat, e: Ref, nod: Ref, u: Tree,
                       b: map<Ref, Att>)
    requires Path(t, ps, k) && o < k && ps[o + 1] == Kid(e, true) && IsTransplant(t, a, ps[o], e, ps[k], nod, u, b)
    ensures var qs := ps[o + 1 := Kid(nod, true)];
            Path(u, qs, k) && qs[k] == Image(ps[k], e, nod) && At(u, qs[k]) == t.mem[nod].right
  {
    var qs := ps[o + 1 := Kid(nod, true)];
    forall j | 0 < j <= k ensures Step(u, qs, j) {
      TransplantStep(t, a, ps, o, k, e, nod, u, b, j);
    }
    TransplantAt(t, a, ps[o], e, ps[k], nod, u, b, ps[k]);
    if ps[k].node == e {
      assert Step(t, ps, k);
      if o < k - 1 { PathDistinct(t, a, ps, k, o, k - 1); }
    }
  }
}
