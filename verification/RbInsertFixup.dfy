/** Rebalancing after an insert. */
module RbInsertFixup {
  import opened RbShape
  import opened RbLinks
  import opened RbBalance
  import opened RbTurns
  import opened RbPath

  /** The red leaf in slot ps[k] may hang below a red node; everything else is in balance. */
  ghost predicate InsertState(t: Tree, a: map<Ref, Att>, ps: seq<Slot>, k: nat, leaf: Ref) {
    && Linked(t, a) && Path(t, ps, k) && At(t, ps[k]) == leaf && Live(t, leaf) && t.mem[leaf].colour == Red
    && BalancedBut(t, a, ps[k], 0)
    && (leaf != t.root ==> t.root in t.mem && t.mem[t.root].colour == Black)
  }

  /** The two ancestors that the loop looks at. */
  lemma Ancestors(t: Tree, a: map<Ref, Att>, ps: seq<Slot>, k: nat, leaf: Ref)
    requires InsertState(t, a, ps, k, leaf) && leaf != t.root
    ensures k >= 1 && Live(t, At(t, ps[k - 1])) && ps[k] in {Kid(At(t, ps[k - 1]), false), Kid(At(t, ps[k - 1]), true)}
    ensures At(t, ps[k - 1]) != leaf && t.mem[At(t, ps[k - 1])].left != t.mem[At(t, ps[k - 1])].right
    ensures t.mem[At(t, ps[k - 1])].colour == Red ==>
              && k >= 2 && Live(t, At(t, ps[k - 2])) && t.mem[At(t, ps[k - 2])].colour == Black
              && ps[k - 1] in {Kid(At(t, ps[k - 2]), false), Kid(At(t, ps[k - 2]), true)}
              && KidsIn(t, a, At(t, ps[k - 2])) && t.mem[At(t, ps[k - 2])].left != t.mem[At(t, ps[k - 2])].right
              && ps[k - 1].node != At(t, ps[k - 1])
  {
    assert Step(t, ps, k);
    var par := At(t, ps[k - 1]);
    ChildOf(t, a, par, leaf);
    if t.mem[par].colour == Red {
      assert Step(t, ps, k - 1);
      assert BalAt(t, a, ps[k], 0, At(t, ps[k - 2]));
      ChildOf(t, a, At(t, ps[k - 2]), par);
      assert ps[k] != ps[k - 1];
    }
  }

  lemma FlipRepaints(t: Tree, a: map<Ref, Att>, par2: Ref, side: bool, par: Ref, y: Ref, u: Tree)
    requires Linked(t, a) && Live(t, par2) && Live(t, par) && Live(t, y)
    requires par == At(t, Kid(par2, side)) && y == At(t, Kid(par2, !side))
    requires u == WithColour(WithColour(WithColour(t, par, Black), y, Black), par2, Red)
    ensures Repainted(t, u, par2, Red, par, Black, y, Black)
    ensures par != y && par != par2 && y != par2 && par2 in a && par in a && y in a
  {
    ChildOf(t, a, par2, y);
    ChildOf(t, a, par2, par);
    assert NodeOk(t, a, par2);
  }

  lemma FlipPaint(t: Tree, a: map<Ref, Att>, par2: Ref, side: bool, par: Ref, y: Ref, u: Tree)
    returns (b: map<Ref, Att>)
    requires Linked(t, a) && Live(t, par2) && Live(t, par) && Live(t, y)
    requires par == At(t, Kid(par2, side)) && y == At(t, Kid(par2, !side))
    requires u == WithColour(WithColour(WithColour(t, par, Black), y, Black), par2, Red)
    ensures Linked(u, b) && SameContent(t, u) && IsFlip(t, a, par2, side, par, y, u, b)
    ensures forall s {:trigger At(u, s)} :: At(u, s) == At(t, s)
  {
    hide Linked, WithColour, Recount, At;
    FlipRepaints(t, a, par2, side, par, y, u);
    Sentinel(t, a);
    RepaintedOk(t, a, u, par2, Red, par, Black, y, Black);
    b := Recount(a, par2, a[par2].tb, par, a[par].tb + 1, y, a[y].tb + 1);
    RecountIs(t, a, par2, a[par2].tb, par, a[par].tb + 1, y, a[y].tb + 1);
    RecountedOk(u, a, b, par2, a[par2].tb, par, a[par].tb + 1, y, a[y].tb + 1);
  }

  /** The uncle y is red: painting moves the trouble two levels up. */
  lemma FlipOk(t: Tree, a: map<Ref, Att>, ps: seq<Slot>, k: nat, leaf: Ref, par2: Ref, side: bool, par: Ref, y: Ref,
               u: Tree)
    returns (b: map<Ref, Att>)
    requires InsertState(t, a, ps, k, leaf) && leaf != t.root && k >= 2 && par == At(t, ps[k - 1])
    requires par2 == At(t, ps[k - 2])
    requires Live(t, par) && par == At(t, Kid(par2, side)) && y == At(t, Kid(par2, !side)) && y in t.mem
    requires t.mem[par].colour == Red && t.mem[y].colour == Red
    requires u == WithColour(WithColour(WithColour(t, par, Black), y, Black), par2, Red)
    ensures InsertState(u, b, ps, k - 2, par2) && SameContent(t, u)
  {
    Ancestors(t, a, ps, k, leaf);
    PathPrefix(t, ps, k, k - 2);
    assert y != NIL;
    hide WithColour, SameContent;
    b := FlipPaint(t, a, par2, side, par, y, u);
    forall i | Live(u, i) ensures BalAt(u, b, ps[k - 2], 0, i) {
      FlipAt(t, a, ps[k - 2], par2, side, par, y, ps[k], u, b, i);
    }
    PathSame(t, ps, k - 2, u);
  }

  /** The red node par, child of par2 on side `side`, may have a red child on that side only; its
      sibling is black. */
  ghost predicate OuterState(t: Tree, a: map<Ref, Att>, ps: seq<Slot>, k: nat, par2: Ref, side: bool, par: Ref) {
    && Linked(t, a) && Path(t, ps, k) && At(t, ps[k]) == par2 && Live(t, par2) && KidsIn(t, a, par2)
    && par == At(t, Kid(par2, side)) && Live(t, par) && t.mem[par].colour == Red && t.mem[par2].colour == Black
    && t.mem[At(t, Kid(par2, !side))].colour == Black
    && BalancedBut(t, a, Kid(par, side), 0)
    && t.root in t.mem && t.mem[t.root].colour == Black
  }

  lemma InnerTurn(t: Tree, a: map<Ref, Att>, ps: seq<Slot>, k: nat, par: Ref, right: bool, leaf: Ref, u: Tree)
    returns (b: map<Ref, Att>)
    requires Linked(t, a) && Path(t, ps, k) && At(t, ps[k]) == par && Live(t, par) && At(t, Kid(par, right)) == leaf
    requires Live(t, leaf)
    requires t.mem[par].colour == Red && t.mem[leaf].colour == Red && BalancedBut(t, a, Kid(par, right), 0)
    requires u == Rotate(t, ps[k], par, right) && par in a
    ensures Linked(u, b) && SameContent(t, u) && BalancedBut(u, b, Kid(leaf, !right), 0) && Path(u, ps, k)
    ensures IsTurn(t, a, ps[k], par, right, leaf, At(t, Kid(leaf, !right)), NIL, Red, Red, Black,
                   a[par].tb, a[par].tb, 0, u, b)
  {
    var s, m := ps[k], At(t, Kid(leaf, !right));
    PathPrefix(t, ps, k, k);
    assert Repainted(t, t, par, Red, leaf, Red, NIL, Black);
    hide Rotate, Recount, Rotated, Linked, IsTurn, At, Path;
    TurnOk(t, a, t, s, par, right, leaf, NIL, Red, Red, Black, a[par].tb, a[par].tb, 0);
    b := Recount(Rotated(t, a, par, right), par, a[par].tb, leaf, a[par].tb, NIL, 0);
    PathTurned(t, a, ps, k, s, par, right, leaf, m, NIL, Red, Red, Black, a[par].tb, a[par].tb, 0, u, b);
    forall i | Live(u, i) ensures BalAt(u, b, Kid(leaf, !right), 0, i) {
      InnerAt(t, a, s, par, right, leaf, m, u, b, i);
    }
  }

  /** The leaf is on the inner side of par: turning par makes it an outer case. */
  lemma InnerOk(t: Tree, a: map<Ref, Att>, ps: seq<Slot>, k: nat, leaf: Ref, par2: Ref, side: bool, par: Ref, u: Tree)
    returns (b: map<Ref, Att>)
    requires InsertState(t, a, ps, k, leaf) && leaf != t.root && k >= 2 && par == At(t, ps[k - 1])
    requires par2 == At(t, ps[k - 2])
    requires Live(t, par) && ps[k - 1] == Kid(par2, side) && ps[k] == Kid(par, !side) && t.mem[par].colour == Red
    requires At(t, Kid(par2, !side)) in t.mem && t.mem[At(t, Kid(par2, !side))].colour == Black
    requires u == Rotate(t, ps[k - 1], par, !side)
    ensures OuterState(u, b, ps, k - 2, par2, side, leaf) && SameContent(t, u)
  {
    Ancestors(t, a, ps, k, leaf);
    PathPrefix(t, ps, k, k - 1);
    assert NodeOk(t, a, par);
    OneSlot(t, a, ps[k], leaf);
    b := InnerTurn(t, a, ps, k - 1, par, !side, leaf, u);
    hide Rotate, Linked, SameContent, At;
    assert Step(u, ps, k - 1);
    PathPrefix(u, ps, k - 1, k - 2);
    assert BalAt(u, b, Kid(leaf, side), 0, par2);
  }

  lemma OuterTurn(t: Tree, a: map<Ref, Att>, ps: seq<Slot>, k: nat, par2: Ref, side: bool, par: Ref, t1: Tree, u: Tree)
    returns (b: map<Ref, Att>)
    requires OuterState(t, a, ps, k, par2, side, par) && par2 in a && par in a
    requires t1 == WithColour(WithColour(t, par, Black), par2, Red) && u == Rotate(t1, ps[k], par2, side)
    ensures Linked(u, b) && SameContent(t, u)
    ensures IsTurn(t, a, ps[k], par2, side, par, At(t, Kid(par, !side)), NIL, Red, Black, Black,
                   a[par].tb, a[par2].tb, 0, u, b)
  {
    PathPrefix(t, ps, k, k);
    OneSlot(t, a, Kid(par2, side), par);
    assert Repainted(t, t1, par2, Red, par, Black, NIL, Black);
    hide Rotate, Recount, Rotated, Linked, IsTurn, At, Path;
    TurnOk(t, a, t1, ps[k], par2, side, par, NIL, Red, Black, Black, a[par].tb, a[par2].tb, 0);
    b := Recount(Rotated(t1, a, par2, side), par2, a[par].tb, par, a[par2].tb, NIL, 0);
  }

  /** The red node par is on the outer side, and its uncle is black: turning par2 restores the balance. */
  lemma OuterOk(t: Tree, a: map<Ref, Att>, ps: seq<Slot>, k: nat, par2: Ref, side: bool, par: Ref, u: Tree)
    returns (b: map<Ref, Att>)
    requires OuterState(t, a, ps, k, par2, side, par)
    requires u == Rotate(WithColour(WithColour(t, par, Black), par2, Red), ps[k], par2, side)
    ensures Linked(u, b) && Balanced(u, b) && SameContent(t, u)
  {
    assert par2 in a && par in a by { assert NodeOk(t, a, par2); }
    PathPrefix(t, ps, k, k);
    OneSlot(t, a, ps[k], par2);
    b := OuterTurn(t, a, ps, k, par2, side, par, WithColour(WithColour(t, par, Black), par2, Red), u);
    hide Rotate, WithColour, Linked, SameContent;
    forall i | Live(u, i) ensures BalAt(u, b, RootSlot, 0, i) {
      OuterAt(t, a, ps[k], par2, side, par, At(t, Kid(par, !side)), u, b, i);
    }
  }

  /** The loop is done: only the colour of the root is left. */
  lemma FinishOk(t: Tree, a: map<Ref, Att>, ps: seq<Slot>, k: nat, leaf: Ref, u: Tree) returns (b: map<Ref, Att>)
    requires InsertState(t, a, ps, k, leaf)
    requires (leaf == t.root || (k > 0 && At(t, ps[k - 1]) in t.mem && t.mem[At(t, ps[k - 1])].colour == Black))
    requires u == WithColour(t, t.root, Black)
    ensures Linked(u, b) && Balanced(u, b) && SameContent(t, u)
  {
    if leaf == t.root {
      assert NodeOk(t, a, leaf);
      b := WithTb(a, leaf, a[leaf].tb + 1);
      RepaintOk(t, a, leaf, Black, a[leaf].tb + 1);
      if k > 0 { assert Step(t, ps, k); ChildOf(t, a, ps[k].node, leaf); }
      OneSlot(t, a, RootSlot, leaf);
      forall i | Live(u, i) ensures BalAt(u, b, RootSlot, 0, i) {
        assert BalAt(t, a, ps[k], 0, i);
      }
    } else {
      b := a;
      assert Step(t, ps, k);
      assert u == t;
      forall i | Live(u, i) ensures BalAt(u, b, RootSlot, 0, i) {
        assert BalAt(t, a, ps[k], 0, i);
      }
    }
  }

  lemma SameTrans(t: Tree, u: Tree, v: Tree)
    ensures SameContent(t, u) && SameContent(u, v) ==> SameContent(t, v)
  {
  }

  lemma RootBlack(t: Tree, a: map<Ref, Att>)
    requires Balanced(t, a)
    ensures WithColour(t, t.root, Black) == t
  {
    assert t.mem[t.root := t.mem[t.root].(colour := Black)] == t.mem;
  }

  /** The uncle of the leaf is black: one or two rotations restore the balance. */
  method TurnUp(tree: Tree, parents: seq<Slot>, k: nat, leaf: Ref, side: bool, ghost att: map<Ref, Att>)
    returns (t: Tree, ghost a: map<Ref, Att>)
    requires InsertState(tree, att, parents, k, leaf) && leaf != tree.root && k >= 2
    requires Live(tree, At(tree, parents[k - 1])) && tree.mem[At(tree, parents[k - 1])].colour == Red
    requires parents[k - 1] == Kid(At(tree, parents[k - 2]), side)
    requires At(tree, Kid(At(tree, parents[k - 2]), !side)) in tree.mem
    requires tree.mem[At(tree, Kid(At(tree, parents[k - 2]), !side))].colour == Black
    ensures Linked(t, a) && Balanced(t, a) && SameContent(tree, t)
  {
    t, a := tree, att;
    var par, par2 := At(t, parents[k - 1]), At(t, parents[k - 2]);
    Ancestors(t, a, parents, k, leaf);
    hide WithColour, Rotate, Linked, BalancedBut, Path;
    if leaf == At(t, Kid(par, !side)) {
      assert parents[k] == Kid(par, !side);
      t := Rotate(t, parents[k - 1], par, !side);
      a := InnerOk(tree, a, parents, k, leaf, par2, side, par, t);
      par := leaf;  // its former parent hangs below it now
    } else {
      assert parents[k] == Kid(par, side);
      PathPrefix(t, parents, k, k - 2);
    }
    ghost var t0 := t;
    t := Rotate(WithColour(WithColour(t, par, Black), par2, Red), parents[k - 2], par2, side);
    hide OuterState, At;
    a := OuterOk(t0, a, parents, k - 2, par2, side, par, t);
  }

  /** Rebalances the tree after a new leaf has been hung in slot parents[top]. */
  method InsertFixup(tree: Tree, parents: seq<Slot>, top: nat, new_leaf: Ref, ghost att: map<Ref, Att>)
    returns (t: Tree, ghost a: map<Ref, Att>)
    requires InsertState(WithColour(tree, new_leaf, Red), att, parents, top, new_leaf)
    ensures Linked(t, a) && Balanced(t, a) && SameContent(tree, t)
  {
    t, a := WithColour(tree, new_leaf, Red), att;
    var leaf, k: nat := new_leaf, top;
    ghost var done := false;
    if leaf != t.root { Ancestors(t, a, parents, k, leaf); }
    assert k < |parents|;
    hide WithColour, Rotate, Linked, BalancedBut, Path, Balanced, InsertState;
    assert SameContent(tree, t);
    hide SameContent;
    while leaf != t.root && t.mem[At(t, parents[k - 1])].colour == Red
      invariant k < |parents| && InsertState(t, a, parents, k, leaf) && SameContent(tree, t)
      invariant leaf != t.root ==> k > 0 && At(t, parents[k - 1]) in t.mem
      decreases k
    {
      Ancestors(t, a, parents, k, leaf);
      var par := At(t, parents[k - 1]);
      var par2 := At(t, parents[k - 2]);
      var side := par != t.mem[par2].left;
      var y := At(t, Kid(par2, !side));
      assert parents[k - 1] == Kid(par2, side);
      if t.mem[y].colour == Red {
        ghost var t0 := t;
        t := WithColour(WithColour(WithColour(t, par, Black), y, Black), par2, Red);
        a := FlipOk(t0, a, parents, k, leaf, par2, side, par, y, t);
        SameTrans(tree, t0, t);
        leaf, k := par2, k - 2;
        if leaf != t.root { Ancestors(t, a, parents, k, leaf); }
      } else {
        ghost var t0 := t;
        t, a := TurnUp(t, parents, k, leaf, side, a);
        SameTrans(tree, t0, t);
        done := true;
        break;
      }
    }
    if done {
      RootBlack(t, a);
    } else {
      a := FinishOk(t, a, parents, k, leaf, WithColour(t, t.root, Black));
      SameTrans(tree, t, WithColour(t, t.root, Black));
    }
    t := WithColour(t, t.root, Black);
  }
}
