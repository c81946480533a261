/** The steps of the two fixups as wholes: what a repaint, a flip or a coloured rotation leaves. */
module RbTurns {
  import opened RbShape
  import opened RbLinks
  import opened RbBalance

  /** New black counts for n, y and f. */
  ghost function Recount(a: map<Ref, Att>, n: Ref, tn: nat, y: Ref, ty: nat, f: Ref, tf: nat): map<Ref, Att> {
    WithTb(WithTb(WithTb(a, n, tn), y, ty), f, tf)
  }

  lemma RepaintedOk(t: Tree, a: map<Ref, Att>, t1: Tree, p: Ref, cp: Colour, q: Ref, cq: Colour, r: Ref, cr: Colour)
    requires Linked(t, a) && Repainted(t, t1, p, cp, q, cq, r, cr)
    requires p != NIL && q != NIL && (r == NIL ==> cr == Black)
    ensures Linked(t1, a) && SameContent(t, t1)
    ensures forall s {:trigger At(t1, s)} :: At(t1, s) == At(t, s)
  {
    forall i | Live(t1, i) ensures NodeOk(t1, a, i) {
      assert NodeOk(t, a, i);
    }
  }

  lemma RecountedOk(t: Tree, a: map<Ref, Att>, b: map<Ref, Att>, p: Ref, tp: nat, q: Ref, tq: nat, r: Ref, tr: nat)
    requires Linked(t, a) && Recounted(a, b, p, tp, q, tq, r, tr)
    requires p != NIL && q != NIL && (r == NIL ==> tr == 0)
    ensures Linked(t, b)
  {
    forall i | Live(t, i) ensures NodeOk(t, b, i) {
      assert NodeOk(t, a, i);
    }
  }

  lemma RecountIs(t: Tree, a: map<Ref, Att>, n: Ref, tn: nat, y: Ref, ty: nat, f: Ref, tf: nat)
    requires Linked(t, a) && n in t.mem && y in t.mem && f in t.mem && n != y && f != n && f != y
    requires n != NIL && y != NIL && (f == NIL ==> tf == 0)
    ensures Recounted(a, Recount(a, n, tn, y, ty, f, tf), n, tn, y, ty, f, tf)
  {
  }

  /** The repainted tree t1 is ready to be turned. */
  lemma TurnReady(t: Tree, a: map<Ref, Att>, t1: Tree, s: Slot, n: Ref, right: bool, y: Ref, f: Ref,
                  cn: Colour, cy: Colour, cf: Colour)
    requires Linked(t, a) && Repainted(t, t1, n, cn, y, cy, f, cf) && SlotOf(t, s) && At(t, s) == n && Live(t, n)
    requires y == At(t, Kid(n, right)) && Live(t, y) && (f == NIL ==> cf == Black)
    ensures Linked(t1, a) && SameContent(t, t1) && SlotOf(t1, s) && At(t1, s) == n && Live(t1, n)
    ensures At(t1, Kid(n, right)) == y && At(t1, Kid(y, !right)) == At(t, Kid(y, !right)) && Live(t1, y) && f in t1.mem
    ensures n in a && y in a && n != y
  {
    RepaintedOk(t, a, t1, n, cn, y, cy, f, cf);
    assert NodeOk(t, a, n);
    ChildOf(t, a, n, y);
  }

  /** Rotating the repainted tree t1. */
  lemma TurnOk(t: Tree, a: map<Ref, Att>, t1: Tree, s: Slot, n: Ref, right: bool, y: Ref, f: Ref,
               cn: Colour, cy: Colour, cf: Colour, tn: nat, ty: nat, tf: nat)
    requires Linked(t, a) && Repainted(t, t1, n, cn, y, cy, f, cf) && SlotOf(t, s) && At(t, s) == n && Live(t, n)
    requires y == At(t, Kid(n, right)) && Live(t, y)
    requires f != n && f != y && (f == NIL ==> cf == Black && tf == 0)
    ensures n in t1.mem && n in a && At(t1, Kid(n, right)) in a && At(t1, Kid(n, right)) in t1.mem
    ensures var u, b := Rotate(t1, s, n, right), Recount(Rotated(t1, a, n, right), n, tn, y, ty, f, tf);
            && Linked(u, b) && SameContent(t, u)
            && IsTurn(t, a, s, n, right, y, At(t, Kid(y, !right)), f, cn, cy, cf, tn, ty, tf, u, b)
  {
    hide Rotate, Rotated, Recount, IsRotation, IsTurn, Linked, At, Repainted, Recounted, SameColours, SlotOf;
    TurnReady(t, a, t1, s, n, right, y, f, cn, cy, cf);
    RotateOk(t1, a, s, n, right);
    RotateIs(t1, a, s, n, right);
    var u, b0 := Rotate(t1, s, n, right), Rotated(t1, a, n, right);
    var b := Recount(b0, n, tn, y, ty, f, tf);
    RecountIs(u, b0, n, tn, y, ty, f, tf);
    RecountedOk(u, b0, b, n, tn, y, ty, f, tf);
    TurnIs(t, a, t1, s, n, right, y, At(t, Kid(y, !right)), f, cn, cy, cf, tn, ty, tf, u, b0, b);
  }
}
