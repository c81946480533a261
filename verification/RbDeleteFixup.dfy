/** Rebalancing after a black node has been unlinked. */
module RbDeleteFixup {
  import opened RbShape
  import opened RbLinks
  import opened RbBalance
  import opened RbTurns
  import opened RbPath
  import opened RbInsertFixup

  /** Slot ps[k] lacks one black node; everything else is in balance. */
  ghost predicate DeleteState(t: Tree, a: map<Ref, Att>, ps: seq<Slot>, k: nat) {
    && Linked(t, a) && Path(t, ps, k) && At(t, ps[k]) in t.mem && BalancedBut(t, a, ps[k], 1)
    && (At(t, ps[k]) != t.root ==> t.root in t.mem && t.mem[t.root].colour == Black)
  }

  /** The black node x in slot (par, side) lacks a black node, and its sibling is w. */
  ghost predicate SiblingState(t: Tree, a: map<Ref, Att>, ps: seq<Slot>, k: nat, x: Ref, par: Ref, side: bool, w: Ref) {
    && DeleteState(t, a, ps, k) && 0 < k < |ps| && x == At(t, ps[k]) && x != t.root && x in t.mem
    && t.mem[x].colour == Black
    && par == At(t, ps[k - 1]) && Live(t, par) && ps[k] == Kid(par, side) && w == At(t, Kid(par, !side)) && Live(t, w)
    && KidsIn(t, a, par) && KidsIn(t, a, w) && w != x
  }

  /** The sibling is never the sentinel, so comparing x with par->left finds the side that x is on,
      even when x is the sentinel. */
  lemma TrueSide(t: Tree, a: map<Ref, Att>, ps: seq<Slot>, k: nat, x: Ref)
    requires DeleteState(t, a, ps, k) && x == At(t, ps[k]) && x != t.root && t.mem[x].colour == Black
    ensures k > 0 && Live(t, At(t, ps[k - 1]))
    ensures var par := At(t, ps[k - 1]);
            var side := x != t.mem[par].left;
            SiblingState(t, a, ps, k, x, par, side, At(t, Kid(par, !side)))
  {
    assert Step(t, ps, k);
    var par := At(t, ps[k - 1]);
    SiblingLive(t, a, par, ps[k].right);
    assert BalAt(t, a, ps[k], 1, par);
    var w := At(t, Kid(par, !ps[k].right));
    assert BalAt(t, a, ps[k], 1, w);
  }

  lemma SiblingTurn(t: Tree, a: map<Ref, Att>, s: Slot, par: Ref, side: bool, w: Ref, t1: Tree, u: Tree)
    returns (b: map<Ref, Att>)
    requires Linked(t, a) && SlotOf(t, s) && At(t, s) == par && Live(t, par) && w == At(t, Kid(par, !side))
    requires Live(t, w)
    requires t1 == WithColour(WithColour(t, w, Black), par, Red) && u == Rotate(t1, s, par, !side) && par in a && w in a
    ensures Linked(u, b) && SameContent(t, u)
    ensures IsTurn(t, a, s, par, !side, w, At(t, Kid(w, side)), NIL, Red, Black, Black, a[w].tb, a[par].tb, 0, u, b)
  {
    OneSlot(t, a, Kid(par, !side), w);
    assert Repainted(t, t1, par, Red, w, Black, NIL, Black);
    hide Rotate, Recount, Rotated, Linked, IsTurn, At;
    TurnOk(t, a, t1, s, par, !side, w, NIL, Red, Black, Black, a[w].tb, a[par].tb, 0);
    b := Recount(Rotated(t1, a, par, !side), par, a[w].tb, w, a[par].tb, NIL, 0);
  }

  /** What the state says about the parent and the sibling. */
  lemma SiblingReady(t: Tree, a: map<Ref, Att>, ps: seq<Slot>, k: nat, x: Ref, par: Ref, side: bool, w: Ref)
    requires SiblingState(t, a, ps, k, x, par, side, w)
    ensures Linked(t, a) && Path(t, ps, k) && Path(t, ps, k - 1) && SlotOf(t, ps[k - 1]) && par in a && w in a
    ensures BalancedBut(t, a, Kid(par, side), 1) && t.root in t.mem && t.mem[t.root].colour == Black
    ensures w != par && x != par && At(t, ps[k - 1]) == par
    ensures ps[k - 1].Kid? ==> ps[k - 1].node != par && par != t.root
  {
    PathPrefix(t, ps, k, k - 1);
    assert NodeOk(t, a, par);
    OneSlot(t, a, ps[k - 1], par);
    OneSlot(t, a, Kid(par, !side), w);
    if x != NIL { OneSlot(t, a, Kid(par, side), x); }
  }

  /** Where things are after the turn of a red sibling. */
  lemma SiblingTurned(t: Tree, a: map<Ref, Att>, s: Slot, par: Ref, side: bool, w: Ref, m: Ref, x: Ref, tn: nat,
                      ty: nat,
                      u: Tree, b: map<Ref, Att>)
    requires IsTurn(t, a, s, par, !side, w, m, NIL, Red, Black, Black, tn, ty, 0, u, b)
    requires x == At(t, Kid(par, side)) && x in t.mem && x != par && x != w && x != t.root && t.mem[x].colour == Black
    requires t.root in t.mem && t.mem[t.root].colour == Black && (s.Kid? ==> s.node != par && par != t.root)
    ensures At(u, s) == w && At(u, Kid(w, side)) == par && At(u, Kid(par, side)) == x && Live(u, w) && Live(u, par)
    ensures x in u.mem && u.mem[x].colour == Black && u.mem[par].colour == Red
    ensures x != u.root && u.root in u.mem && u.mem[u.root].colour == Black
  {
    assert At(u, s) == w by { if s.Kid? { assert s == Kid(s.node, s.right); } }
  }

  /** A red sibling is turned up; x keeps its lack and gets a black sibling, one level further down. */
  lemma SiblingRedOk(t: Tree, a: map<Ref, Att>, ps: seq<Slot>, k: nat, x: Ref, par: Ref, side: bool, w: Ref, u: Tree,
                     qs: seq<Slot>)
    returns (b: map<Ref, Att>)
    requires SiblingState(t, a, ps, k, x, par, side, w) && t.mem[w].colour == Red && k + 1 < |ps|
    requires u == Rotate(WithColour(WithColour(t, w, Black), par, Red), ps[k - 1], par, !side)
    requires qs == ps[k := Kid(w, side)][k + 1 := Kid(par, side)]
    ensures At(u, Kid(par, !side)) in u.mem && SiblingState(u, b, qs, k + 1, x, par, side, At(u, Kid(par, !side)))
    ensures SameContent(t, u)
    ensures u.mem[par].colour == Red && u.mem[At(u, Kid(par, !side))].colour == Black
  {
    hide Rotate, WithColour, Linked, At, SameContent, Path, IsTurn, SlotOf;
    SiblingReady(t, a, ps, k, x, par, side, w);
    var s, m := ps[k - 1], At(t, Kid(w, side));
    b := SiblingTurn(t, a, s, par, side, w, WithColour(WithColour(t, w, Black), par, Red), u);
    forall i | Live(u, i) ensures BalAt(u, b, Kid(par, side), 1, i) {
      SiblingRedAt(t, a, s, par, side, w, m, u, b, i);
    }
    SiblingTurned(t, a, s, par, side, w, m, x, a[w].tb, a[par].tb, u, b);
    PathTurned(t, a, ps, k - 1, s, par, !side, w, m, NIL, Red, Black, Black, a[w].tb, a[par].tb, 0, u, b);
    PathPush(u, ps, k - 1, Kid(w, side));
    PathPush(u, ps[k := Kid(w, side)], k, Kid(par, side));
    TrueSide(u, b, qs, k + 1, x);
    assert BalAt(u, b, Kid(par, side), 1, par);
  }

  /** The counts after the lack has moved up. */
  ghost function LackUp(a: map<Ref, Att>, par: Ref, w: Ref): (b: map<Ref, Att>)
    requires par in a && w in a && a[par].tb > 0 && a[w].tb > 0
  {
    WithTb(WithTb(a, w, a[w].tb - 1), par, a[par].tb - 1)
  }

  lemma LackUpOk(t: Tree, a: map<Ref, Att>, par: Ref, w: Ref, u: Tree)
    requires Linked(t, a) && Live(t, par) && Live(t, w) && par in a && w in a && par != w && a[par].tb > 0
    requires a[w].tb > 0
    requires u == WithColour(t, w, Red)
    ensures Repainted(t, u, w, Red, w, Red, w, Red)
    ensures Recounted(a, LackUp(a, par, w), w, a[w].tb - 1, par, a[par].tb - 1, par, a[par].tb - 1)
    ensures Linked(u, LackUp(a, par, w)) && SameContent(t, u)
    ensures forall s {:trigger At(u, s)} :: At(u, s) == At(t, s)
  {
    var b := LackUp(a, par, w);
    assert Recounted(a, b, w, a[w].tb - 1, par, a[par].tb - 1, par, a[par].tb - 1);
    assert Repainted(t, u, w, Red, w, Red, w, Red);
    hide Linked, WithColour, LackUp;
    RepaintedOk(t, a, u, w, Red, w, Red, w, Red);
    RecountedOk(u, a, b, w, a[w].tb - 1, par, a[par].tb - 1, par, a[par].tb - 1);
  }

  lemma LackUpReady(t: Tree, a: map<Ref, Att>, ps: seq<Slot>, k: nat, x: Ref, par: Ref, side: bool, w: Ref)
    requires SiblingState(t, a, ps, k, x, par, side, w) && t.mem[w].colour == Black
    ensures par in a && w in a && a[par].tb > 0 && a[w].tb > 0
  {
    assert BalAt(t, a, ps[k], 1, par) && BalAt(t, a, ps[k], 1, w);
  }

  /** Both nephews are black: the sibling turns red and the lack moves up to the parent. */
  lemma NephewsBlackOk(t: Tree, a: map<Ref, Att>, ps: seq<Slot>, k: nat, x: Ref, par: Ref, side: bool, w: Ref, u: Tree)
    returns (b: map<Ref, Att>)
    requires SiblingState(t, a, ps, k, x, par, side, w) && t.mem[w].colour == Black
    requires t.mem[At(t, Kid(w, false))].colour == Black && t.mem[At(t, Kid(w, true))].colour == Black
    requires u == WithColour(t, w, Red)
    ensures DeleteState(u, b, ps, k - 1) && At(u, ps[k - 1]) == par && SameContent(t, u)
    ensures par in u.mem && u.mem[par].colour == t.mem[par].colour
  {
    hide WithColour, LackUp, Linked, At, Path, SlotOf, SameContent;
    SiblingReady(t, a, ps, k, x, par, side, w);
    LackUpReady(t, a, ps, k, x, par, side, w);
    LackUpOk(t, a, par, w, u);
    b := LackUp(a, par, w);
    PathSame(t, ps, k - 1, u);
    forall i | Live(u, i) ensures BalAt(u, b, ps[k - 1], 1, i) {
      NephewsBlackAt(t, a, ps[k - 1], par, side, w, u, b, i);
    }
    RootKept(t, a, par, side, w, u);
  }

  /** The sibling is not the root. */
  lemma RootKept(t: Tree, a: map<Ref, Att>, par: Ref, side: bool, w: Ref, u: Tree)
    requires Linked(t, a) && Live(t, par) && w == At(t, Kid(par, !side)) && Live(t, w) && u == WithColour(t, w, Red)
    requires t.root in t.mem && t.mem[t.root].colour == Black
    ensures u.root in u.mem && u.mem[u.root].colour == Black
  {
    OneSlot(t, a, Kid(par, !side), w);
  }

  lemma NearPath(t: Tree, a: map<Ref, Att>, ps: seq<Slot>, k: nat, par: Ref, side: bool, w: Ref, near: Ref, u: Tree,
                 b: map<Ref, Att>)
    requires Linked(t, a) && Path(t, ps, k) && 0 < k && ps[k] == Kid(par, side) && Live(t, par) && near in a && w in a
    requires IsTurn(t, a, Kid(par, !side), w, side, near, At(t, Kid(near, !side)), NIL, Red, Black, Black,
                    a[near].tb, a[w].tb, 0, u, b)
    ensures Path(u, ps, k)
  {
    PathPrefix(t, ps, k, k);
    PathPrefix(t, ps, k, k - 1);
    var qs := ps[k := Kid(par, !side)];
    PathPush(t, ps, k - 1, Kid(par, !side));
    hide At, Linked, Path, IsTurn;
    PathTurned(t, a, qs, k, Kid(par, !side), w, side, near, At(t, Kid(near, !side)), NIL, Red, Black, Black,
               a[near].tb, a[w].tb, 0, u, b);
    PathPrefix(u, qs, k, k - 1);
    PathPrefix(u, qs, k, k);
    assert |qs| == |ps| && qs[k - 1] == ps[k - 1];
    assert ps == qs[k := Kid(par, side)];
    PathPush(u, qs, k - 1, Kid(par, side));
  }

  /** Only the near nephew is red: turning the sibling makes the far nephew red. */
  lemma NearRedOk(t: Tree, a: map<Ref, Att>, ps: seq<Slot>, k: nat, x: Ref, par: Ref, side: bool, w: Ref, near: Ref,
                  u: Tree)
    returns (b: map<Ref, Att>)
    requires SiblingState(t, a, ps, k, x, par, side, w) && t.mem[w].colour == Black && near == At(t, Kid(w, side))
    requires t.mem[near].colour == Red && t.mem[At(t, Kid(w, !side))].colour == Black
    requires u == Rotate(WithColour(WithColour(t, near, Black), w, Red), Kid(par, !side), w, side)
    ensures SiblingState(u, b, ps, k, x, par, side, near) && SameContent(t, u)
    ensures u.mem[near].colour == Black && u.mem[At(u, Kid(near, !side))].colour == Red
  {
    PathPrefix(t, ps, k, k - 1);
    assert near in a && par in a && w in a && NodeOk(t, a, par);
    OneSlot(t, a, Kid(par, !side), w);
    OneSlot(t, a, Kid(w, side), near);
    b := SiblingTurn(t, a, Kid(par, !side), w, !side, near, WithColour(WithColour(t, near, Black), w, Red), u);
    assert x != near && x != w;
    hide Rotate, WithColour, Linked, At, SameContent;
    forall i | Live(u, i) ensures BalAt(u, b, Kid(par, side), 1, i) {
      NearRedAt(t, a, par, side, w, near, At(t, Kid(near, !side)), u, b, i);
    }
    NearPath(t, a, ps, k, par, side, w, near, u, b);
    TrueSide(u, b, ps, k, x);
  }

  lemma NoCycle(t: Tree, a: map<Ref, Att>, p: Ref, w: Ref, f: Ref)
    requires Linked(t, a) && Live(t, p) && Live(t, w) && Live(t, f)
    requires w in {t.mem[p].left, t.mem[p].right} && f in {t.mem[w].left, t.mem[w].right}
    ensures f != p && f != w && w != p
  {
    ChildOf(t, a, p, w);
    ChildOf(t, a, w, f);
    InsideShrinks(t, a, p);
    InsideShrinks(t, a, w);
  }

  /** The colours of the last case: w takes that of par, and par and the far nephew turn black. */
  function FarPainted(t: Tree, w: Ref, par: Ref, far: Ref): Tree
    requires par in t.mem
  {
    WithColour(WithColour(WithColour(t, w, t.mem[par].colour), par, Black), far, Black)
  }

  lemma FarTurn(t: Tree, a: map<Ref, Att>, s: Slot, par: Ref, side: bool, w: Ref, far: Ref, t1: Tree, u: Tree)
    returns (b: map<Ref, Att>)
    requires Linked(t, a) && SlotOf(t, s) && At(t, s) == par && Live(t, par) && w == At(t, Kid(par, !side))
    requires Live(t, w)
    requires far == At(t, Kid(w, !side)) && Live(t, far) && par in a && w in a && far in a
    requires t1 == FarPainted(t, w, par, far)
    requires u == Rotate(t1, s, par, !side)
    ensures Linked(u, b) && SameContent(t, u)
    ensures IsTurn(t, a, s, par, !side, w, At(t, Kid(w, side)), far, Black, t.mem[par].colour, Black,
                   a[w].tb, a[par].tb, a[far].tb + 1, u, b)
  {
    OneSlot(t, a, Kid(par, !side), w);
    OneSlot(t, a, Kid(w, !side), far);
    NoCycle(t, a, par, w, far);
    hide Linked;
    assert Repainted(t, t1, par, Black, w, t.mem[par].colour, far, Black);
    hide Rotate, Recount, Rotated, Linked, IsTurn, At, WithColour;
    TurnOk(t, a, t1, s, par, !side, w, far, Black, t.mem[par].colour, Black, a[w].tb, a[par].tb, a[far].tb + 1);
    b := Recount(Rotated(t1, a, par, !side), par, a[w].tb, w, a[par].tb, far, a[far].tb + 1);
  }

  /** The far nephew is red: turning the parent makes up for the lack. */
  lemma FarRedOk(t: Tree, a: map<Ref, Att>, ps: seq<Slot>, k: nat, x: Ref, par: Ref, side: bool, w: Ref, far: Ref,
                 u: Tree)
    returns (b: map<Ref, Att>)
    requires SiblingState(t, a, ps, k, x, par, side, w) && t.mem[w].colour == Black
    requires far == At(t, Kid(w, !side)) && t.mem[far].colour == Red
    requires u == Rotate(FarPainted(t, w, par, far), ps[k - 1], par, !side)
    ensures Linked(u, b) && Balanced(u, b) && SameContent(t, u)
  {
    PathPrefix(t, ps, k, k - 1);
    assert par in a && w in a && far in a && NodeOk(t, a, par);
    OneSlot(t, a, ps[k - 1], par);
    OneSlot(t, a, Kid(par, !side), w);
    b := FarTurn(t, a, ps[k - 1], par, side, w, far, FarPainted(t, w, par, far), u);
    hide Rotate, WithColour, Linked, At, SameContent;
    forall i | Live(u, i) ensures BalAt(u, b, RootSlot, 0, i) {
      FarRedAt(t, a, ps[k - 1], par, side, w, far, At(t, Kid(w, side)), u, b, i);
    }
  }

  /** The loop is done: x is the root or red, and is painted black. */
  lemma DeleteDone(t: Tree, a: map<Ref, Att>, ps: seq<Slot>, k: nat, x: Ref, u: Tree) returns (b: map<Ref, Att>)
    requires DeleteState(t, a, ps, k) && x == At(t, ps[k]) && (x == t.root || t.mem[x].colour == Red)
    requires u == WithColour(t, x, Black)
    ensures Linked(u, b) && Balanced(u, b) && SameContent(t, u)
  {
    PathPrefix(t, ps, k, k);
    if t.mem[x].colour == Red {
      assert NodeOk(t, a, x);
      b := WithTb(a, x, a[x].tb + 1);
      RepaintOk(t, a, x, Black, a[x].tb + 1);
      forall i | Live(u, i) ensures BalAt(u, b, RootSlot, 0, i) {
        PaintBlackAt(t, a, ps[k], x, u, b, i);
      }
    } else {
      b := a;
      assert u == t by { assert t.mem[x := t.mem[x].(colour := Black)] == t.mem; }
      if k > 0 {
        FindAll(t, a, ps[k].node);
        ChildOf(t, a, ps[k].node, x);
      }
      forall i | Live(u, i) ensures BalAt(u, b, RootSlot, 0, i) {
        assert BalAt(t, a, RootSlot, 1, i);
      }
    }
  }

  /** One nephew is red: one or two rotations make up for the lack. */
  method TurnSibling(tree: Tree, parents: seq<Slot>, k: nat, sibling: Ref, side: bool, ghost att: map<Ref, Att>,
                     ghost x: Ref)
    returns (t: Tree, ghost a: map<Ref, Att>)
    requires 0 < k < |parents| && SiblingState(tree, att, parents, k, x, At(tree, parents[k - 1]), side, sibling)
    requires tree.mem[sibling].colour == Black
    requires At(tree, Kid(sibling, side)) in tree.mem && At(tree, Kid(sibling, !side)) in tree.mem
    requires || tree.mem[At(tree, Kid(sibling, side))].colour == Red
             || tree.mem[At(tree, Kid(sibling, !side))].colour == Red
    ensures Linked(t, a) && Balanced(t, a) && SameContent(tree, t)
  {
    t, a := tree, att;
    var par, w := At(t, parents[k - 1]), sibling;
    hide WithColour, FarPainted, Rotate, DeleteState;
    if t.mem[At(t, Kid(w, !side))].colour == Black {
      var near := At(t, Kid(w, side));
      t := Rotate(WithColour(WithColour(t, near, Black), w, Red), Kid(par, !side), w, side);
      a := NearRedOk(tree, a, parents, k, x, par, side, w, near, t);
      w := near;
    }
    assert SiblingState(t, a, parents, k, x, par, side, w) && w == At(t, Kid(par, !side));
    ghost var t0 := t;
    var far := At(t, Kid(w, !side));
    t := Rotate(FarPainted(t, w, par, far), parents[k - 1], par, !side);
    a := FarRedOk(t0, a, parents, k, x, par, side, w, far, t);
  }

  lemma DeleteStart(t: Tree, a: map<Ref, Att>, ps: seq<Slot>, k: nat)
    requires DeleteState(t, a, ps, k)
    ensures k < |ps| && At(t, ps[k]) in t.mem && SameContent(t, t)
  {
  }

  /** Makes up for the black node that slot parents[top] has lost. */
  method DeleteFixup(tree: Tree, parents: array<Slot>, top: nat, ghost att: map<Ref, Att>)
    returns (t: Tree, ghost a: map<Ref, Att>)
    requires top + 1 < parents.Length && DeleteState(tree, att, parents[..], top)
    modifies parents
    ensures Linked(t, a) && Balanced(t, a) && SameContent(tree, t)
  {
    hide WithColour, Rotate, Linked, BalancedBut, Path, Balanced, SameContent, DeleteState, At;
    t, a := tree, att;
    var x, k: nat := At(t, parents[top]), top;
    ghost var done := false;
    DeleteStart(tree, att, parents[..], top);
    while x != t.root && t.mem[x].colour == Black
      invariant k + 1 < parents.Length && DeleteState(t, a, parents[..], k) && x == At(t, parents[k])
      invariant SameContent(tree, t)
      invariant x in t.mem
      decreases k, t.mem[x].colour == Black
    {
      TrueSide(t, a, parents[..], k, x);
      var par := At(t, parents[k - 1]);
      var side := x != t.mem[par].left;
      var w := At(t, Kid(par, !side));
      if t.mem[w].colour == Red {
        ghost var t0, ps := t, parents[..];
        t := Rotate(WithColour(WithColour(t, w, Black), par, Red), parents[k - 1], par, !side);
        parents[k] := Kid(w, side);
        k := k + 1;
        parents[k] := Kid(par, side);
        a := SiblingRedOk(t0, a, ps, k - 1, x, par, side, w, t, parents[..]);
        SameTrans(tree, t0, t);
        w := At(t, Kid(par, !side));
      }
      assert SiblingState(t, a, parents[..], k, x, par, side, w) && t.mem[w].colour == Black;
      ghost var t0 := t;
      if t.mem[At(t, Kid(w, side))].colour == Black && t.mem[At(t, Kid(w, !side))].colour == Black {
        t := WithColour(t, w, Red);
        a := NephewsBlackOk(t0, a, parents[..], k, x, par, side, w, t);
        SameTrans(tree, t0, t);
        x, k := par, k - 1;
      } else {
        t, a := TurnSibling(t, parents[..], k, w, side, a, x);
        SameTrans(tree, t0, t);
        x := t.root;
        done := true;
        break;
      }
    }
    if done {
      RootBlack(t, a);
    } else {
      a := DeleteDone(t, a, parents[..], k, x, WithColour(t, x, Black));
      SameTrans(tree, t, WithColour(t, x, Black));
    }
    t := WithColour(t, x, Black);
  }
}
