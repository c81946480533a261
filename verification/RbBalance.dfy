/** The red-black balance, and what each step of the two fixups does to it. */
module RbBalance {
  import opened RbShape
  import opened RbLinks

  ghost predicate KidsIn(t: Tree, a: map<Ref, Att>, i: Ref) {
    && i in t.mem && i in a
    && forall right {:trigger At(t, Kid(i, right))} :: At(t, Kid(i, right)) in t.mem && At(t, Kid(i, right)) in a
  }

  ghost function Tb(t: Tree, a: map<Ref, Att>, d: Slot, short: nat, i: Ref, right: bool): nat
    requires KidsIn(t, a, i)
  {
    a[At(t, Kid(i, right))].tb + if d == Kid(i, right) then short else 0
  }

  ghost predicate BlackKid(t: Tree, a: map<Ref, Att>, d: Slot, i: Ref, right: bool)
    requires KidsIn(t, a, i)
  {
    d == Kid(i, right) || t.mem[At(t, Kid(i, right))].colour == Black
  }

  /** The balance at node i, in a tree that is out of balance at slot d only: the black count
      below d is `short` too small, and a red node may hang in d below a red one. */
  ghost predicate BalAt(t: Tree, a: map<Ref, Att>, d: Slot, short: nat, i: Ref) {
    && KidsIn(t, a, i)
    && Tb(t, a, d, short, i, false) == Tb(t, a, d, short, i, true)
    && a[i].tb == Tb(t, a, d, short, i, false) + (if t.mem[i].colour == Black then 1 else 0)
    && (t.mem[i].colour == Red && !(short > 0 && At(t, d) == i) ==>
          BlackKid(t, a, d, i, false) && BlackKid(t, a, d, i, true))
  }

  ghost predicate BalancedBut(t: Tree, a: map<Ref, Att>, d: Slot, short: nat) {
    forall i {:trigger BalAt(t, a, d, short, i)} :: Live(t, i) ==> BalAt(t, a, d, short, i)
  }

  /** Equal black counts on all ways down, no red node below a red one, and a black root. */
  ghost predicate Balanced(t: Tree, a: map<Ref, Att>) {
    BalancedBut(t, a, RootSlot, 0) && t.root in t.mem && t.mem[t.root].colour == Black
  }

  /** A node hangs in one slot only. */
  lemma OneSlot(t: Tree, a: map<Ref, Att>, s: Slot, n: Ref)
    requires Linked(t, a) && SlotOf(t, s) && At(t, s) == n && Live(t, n)
    ensures forall p, right {:trigger At(t, Kid(p, right))} :: Live(t, p) && At(t, Kid(p, right)) == n ==>
      s == Kid(p, right)
    ensures s.Kid? ==> s.node != n && a[n].par == s.node && n != t.root
  {
    forall p, right | Live(t, p) && At(t, Kid(p, right)) == n ensures s == Kid(p, right) {
      ChildOf(t, a, p, n);
      if s.Kid? { ChildOf(t, a, s.node, n); }
    }
    if s.Kid? { ChildOf(t, a, s.node, n); }
  }

  /** Colours and counts do not matter to the search tree. */
  lemma RepaintOk(t: Tree, a: map<Ref, Att>, i: Ref, c: Colour, tb: nat)
    requires Linked(t, a) && Live(t, i)
    ensures Linked(WithColour(t, i, c), WithTb(a, i, tb)) && SameContent(t, WithColour(t, i, c))
    ensures forall s :: At(WithColour(t, i, c), s) == At(t, s)
  {
    var u, b := WithColour(t, i, c), WithTb(a, i, tb);
    forall j | Live(u, j) ensures NodeOk(u, b, j) {
      assert NodeOk(t, a, j);
    }
  }

  // ---------- insert ----------

  /** Uncle y is red: par and y turn black, par2 red, and the trouble moves up to par2. */
  ghost predicate IsFlip(t: Tree, a: map<Ref, Att>, par2: Ref, side: bool, par: Ref, y: Ref, u: Tree,
                         b: map<Ref, Att>) {
    && Live(t, par2) && Live(t, par) && Live(t, y) && par != y && par != par2 && y != par2
    && par == At(t, Kid(par2, side)) && y == At(t, Kid(par2, !side))
    && u.root == t.root && u.mem.Keys == t.mem.Keys == a.Keys == b.Keys
    && u.mem[par] == t.mem[par].(colour := Black) && u.mem[y] == t.mem[y].(colour := Black)
    && u.mem[par2] == t.mem[par2].(colour := Red)
    && (forall i :: i in t.mem && i != par && i != y && i != par2 ==> u.mem[i] == t.mem[i])
    && b[par] == a[par].(tb := a[par].tb + 1) && b[y] == a[y].(tb := a[y].tb + 1)
    && (forall i :: i in a && i != par && i != y ==> b[i] == a[i])
  }

  /** Painting moves no links. */
  lemma FlipSame(t: Tree, a: map<Ref, Att>, par2: Ref, side: bool, par: Ref, y: Ref, u: Tree, b: map<Ref, Att>)
    requires IsFlip(t, a, par2, side, par, y, u, b)
    ensures forall i, r {:trigger At(u, Kid(i, r))} :: At(u, Kid(i, r)) == At(t, Kid(i, r))
  {
  }

  lemma FlipAt(t: Tree, a: map<Ref, Att>, s2: Slot, par2: Ref, side: bool, par: Ref, y: Ref, d: Slot, u: Tree,
               b: map<Ref, Att>, i: Ref)
    requires Linked(t, a) && IsFlip(t, a, par2, side, par, y, u, b) && BalancedBut(t, a, d, 0) && Live(u, i)
    requires SlotOf(t, s2) && At(t, s2) == par2 && d.Kid? && d.node == par
    requires t.mem[par].colour == Red && t.mem[y].colour == Red
    ensures BalAt(u, b, s2, 0, i)
  {
    hide Linked, At;
    Sentinel(t, a);
    FlipSame(t, a, par2, side, par, y, u, b);
    OneSlot(t, a, s2, par2);
    OneSlot(t, a, Kid(par2, side), par);
    OneSlot(t, a, Kid(par2, !side), y);
    assert BalAt(t, a, d, 0, i) && BalAt(t, a, d, 0, par2);
  }

  /** t1 is t with other colours for at most the nodes p, q and r. */
  ghost predicate Repainted(t: Tree, t1: Tree, p: Ref, cp: Colour, q: Ref, cq: Colour, r: Ref, cr: Colour) {
    && t1.root == t.root && t1.mem.Keys == t.mem.Keys && {p, q, r} <= t.mem.Keys
    && t1.mem[p] == t.mem[p].(colour := cp) && t1.mem[q] == t.mem[q].(colour := cq)
    && t1.mem[r] == t.mem[r].(colour := cr)
    && forall i :: i in t.mem && i != p && i != q && i != r ==> t1.mem[i] == t.mem[i]
  }

  /** b is b0 with other black counts for at most the nodes p, q and r. */
  ghost predicate Recounted(b0: map<Ref, Att>, b: map<Ref, Att>, p: Ref, tp: nat, q: Ref, tq: nat, r: Ref, tr: nat) {
    && b.Keys == b0.Keys && {p, q, r} <= b0.Keys
    && b[p] == b0[p].(tb := tp) && b[q] == b0[q].(tb := tq) && b[r] == b0[r].(tb := tr)
    && forall i :: i in b0 && i != p && i != q && i != r ==> b[i] == b0[i]
  }


  // ---------- a rotation with new colours ----------

  /** What hangs in slot (i, r) after y has been turned up into slot s, with n below it and m below n. */
  ghost function TurnedKid(t: Tree, s: Slot, n: Ref, right: bool, y: Ref, m: Ref, i: Ref, r: bool): Ref {
    if Kid(i, r) == s then y
    else if i == n && r == right then m
    else if i == y && r != right then n
    else At(t, Kid(i, r))
  }

  /** The child y of n on side `right` has been turned up into slot s; n, y and f have new colours
      and black counts. */
  ghost predicate IsTurn(t: Tree, a: map<Ref, Att>, s: Slot, n: Ref, right: bool, y: Ref, m: Ref, f: Ref,
                         cn: Colour, cy: Colour, cf: Colour, tn: nat, ty: nat, tf: nat, u: Tree, b: map<Ref, Att>) {
    && Live(t, n) && Live(t, y) && m in t.mem && f in t.mem && n != y && m != n && m != y && f != n && f != y
    && (f == NIL ==> cf == Black && tf == 0)
    && At(t, s) == n && At(t, Kid(n, right)) == y && At(t, Kid(y, !right)) == m && SlotOf(t, s)
    && (s.Kid? ==> s.node != n && s.node != y)
    && u.root == (if s.RootSlot? then y else t.root)
    && a.Keys == t.mem.Keys == u.mem.Keys == b.Keys
    && (forall i, r :: i in t.mem ==>
          At(u, Kid(i, r)) == TurnedKid(t, s, n, right, y, m, i, r))
    && (forall i :: i in t.mem ==>
          u.mem[i].colour == if i == n then cn else if i == y then cy else if i == f then cf else t.mem[i].colour)
    && (forall i :: i in a ==> b[i].tb == if i == n then tn else if i == y then ty else if i == f then tf else a[i].tb)
  }

  lemma TurnKids(t: Tree, a: map<Ref, Att>, t1: Tree, s: Slot, n: Ref, right: bool, y: Ref, m: Ref, f: Ref,
                 cn: Colour, cy: Colour, cf: Colour, u: Tree, b0: map<Ref, Att>, i: Ref, r: bool)
    requires Repainted(t, t1, n, cn, y, cy, f, cf) && IsRotation(t1, a, s, n, right, y, m, u, b0) && i in t.mem
    ensures At(u, Kid(i, r)) == TurnedKid(t, s, n, right, y, m, i, r)
  {
  }

  lemma TurnPlace(t: Tree, a: map<Ref, Att>, t1: Tree, s: Slot, n: Ref, right: bool, y: Ref, m: Ref, f: Ref,
                  cn: Colour, cy: Colour, cf: Colour, u: Tree, b0: map<Ref, Att>)
    requires Repainted(t, t1, n, cn, y, cy, f, cf) && IsRotation(t1, a, s, n, right, y, m, u, b0)
    ensures At(t, s) == n && At(t, Kid(n, right)) == y && At(t, Kid(y, !right)) == m && SlotOf(t, s)
    ensures forall i :: i in t.mem ==> i in u.mem && u.mem[i].colour == t1.mem[i].colour
  {
  }

  lemma TurnIs(t: Tree, a: map<Ref, Att>, t1: Tree, s: Slot, n: Ref, right: bool, y: Ref, m: Ref, f: Ref,
               cn: Colour, cy: Colour, cf: Colour, tn: nat, ty: nat, tf: nat, u: Tree, b0: map<Ref, Att>,
               b: map<Ref, Att>)
    requires Repainted(t, t1, n, cn, y, cy, f, cf) && IsRotation(t1, a, s, n, right, y, m, u, b0)
    requires Recounted(b0, b, n, tn, y, ty, f, tf)
    requires f != n && f != y && (f == NIL ==> cf == Black && tf == 0)
    ensures IsTurn(t, a, s, n, right, y, m, f, cn, cy, cf, tn, ty, tf, u, b)
  {
    hide At, TurnedKid;
    TurnPlace(t, a, t1, s, n, right, y, m, f, cn, cy, cf, u, b0);
    forall i, r | i in t.mem ensures At(u, Kid(i, r)) == TurnedKid(t, s, n, right, y, m, i, r) {
      TurnKids(t, a, t1, s, n, right, y, m, f, cn, cy, cf, u, b0, i, r);
    }
  }

  /** Seen from a node that the turn does not touch, a side keeps its black count, and its blackness. */
  lemma TurnSide(t: Tree, a: map<Ref, Att>, s: Slot, n: Ref, right: bool, y: Ref, m: Ref, f: Ref, p: Slot,
                 cn: Colour, cy: Colour, cf: Colour, tn: nat, tf: nat, u: Tree, b: map<Ref, Att>, i: Ref, r: bool)
    requires Linked(t, a) && n in t.mem && IsTurn(t, a, s, n, right, y, m, f, cn, cy, cf, tn, a[n].tb, tf, u, b)
    requires Live(t, i) && i != n && i != y && (f != NIL ==> p.Kid? && p.node in {n, y} && At(t, p) == f)
    requires t.mem[n].colour == Black ==> cy == Black
    requires KidsIn(t, a, i)
    ensures At(u, Kid(i, r)) in t.mem && At(t, Kid(i, r)) in t.mem && At(t, Kid(i, r)) in a && At(u, Kid(i, r)) in b
    ensures b[At(u, Kid(i, r))].tb == a[At(t, Kid(i, r))].tb
    ensures t.mem[At(t, Kid(i, r))].colour == Black ==> u.mem[At(u, Kid(i, r))].colour == Black
  {
    hide Linked, At;
    Sentinel(t, a);
    OneSlot(t, a, s, n);
    OneSlot(t, a, Kid(n, right), y);
    if f != NIL { OneSlot(t, a, p, f); }
  }

  /** Nodes that the turn does not touch stay in balance; slot e takes over from d. */
  lemma TurnElsewhere(t: Tree, a: map<Ref, Att>, d: Slot, short: nat, s: Slot, n: Ref, right: bool, y: Ref, m: Ref,
                      f: Ref, p: Slot,
                 cn: Colour, cy: Colour, cf: Colour, tn: nat, tf: nat, u: Tree, b: map<Ref, Att>, e: Slot, left: nat,
                 i: Ref)
    requires Linked(t, a) && n in t.mem && IsTurn(t, a, s, n, right, y, m, f, cn, cy, cf, tn, a[n].tb, tf, u, b)
    requires Live(t, i) && i != n && i != y && i != f && (f != NIL ==> p.Kid? && p.node in {n, y} && At(t, p) == f)
    requires t.mem[n].colour == Black ==> cy == Black
    requires BalAt(t, a, d, short, i)
    requires (d.Kid? && d.node == i) || (e.Kid? && e.node == i) ==> d == e && short == left
    requires short > 0 && At(t, d) == i && t.mem[i].colour == Red ==> left > 0 && At(u, e) == i
    ensures BalAt(u, b, e, left, i)
  {
    hide Linked, At;
    Sentinel(t, a);
    TurnSide(t, a, s, n, right, y, m, f, p, cn, cy, cf, tn, tf, u, b, i, false);
    TurnSide(t, a, s, n, right, y, m, f, p, cn, cy, cf, tn, tf, u, b, i, true);
  }

  /** The red leaf is an inner grandchild: turning its parent makes it an outer one. */
  lemma InnerAt(t: Tree, a: map<Ref, Att>, s: Slot, par: Ref, right: bool, leaf: Ref, m: Ref, u: Tree, b: map<Ref, Att>,
                i: Ref)
    requires Linked(t, a) && BalancedBut(t, a, Kid(par, right), 0) && par in t.mem
    requires IsTurn(t, a, s, par, right, leaf, m, NIL, Red, Red, Black, a[par].tb, a[par].tb, 0, u, b)
    requires t.mem[par].colour == Red && t.mem[leaf].colour == Red && Live(u, i)
    ensures BalAt(u, b, Kid(leaf, !right), 0, i)
  {
    hide Linked, At;
    Sentinel(t, a);
    var d := Kid(par, right);
    assert BalAt(t, a, d, 0, i) && BalAt(t, a, d, 0, par) && BalAt(t, a, d, 0, leaf);
    if i != par && i != leaf {
      TurnElsewhere(t, a, d, 0, s, par, right, leaf, m, NIL, RootSlot, Red, Red, Black, a[par].tb, 0, u, b,
                    Kid(leaf, !right), 0, i);
    }
  }

  /** The red leaf is an outer grandchild and its uncle is black: turning the grandparent ends it. */
  lemma OuterAt(t: Tree, a: map<Ref, Att>, s: Slot, par2: Ref, side: bool, par: Ref, m: Ref, u: Tree, b: map<Ref, Att>,
                i: Ref)
    requires Linked(t, a) && BalancedBut(t, a, Kid(par, side), 0) && Live(u, i) && KidsIn(t, a, par2) && par in a
    requires IsTurn(t, a, s, par2, side, par, m, NIL, Red, Black, Black, a[par].tb, a[par2].tb, 0, u, b)
    requires t.mem[par].colour == Red && t.mem[par2].colour == Black && t.mem[At(t, Kid(par2, !side))].colour == Black
    ensures BalAt(u, b, RootSlot, 0, i)
  {
    hide Linked, At;
    Sentinel(t, a);
    var d := Kid(par, side);
    assert BalAt(t, a, d, 0, i) && BalAt(t, a, d, 0, par) && BalAt(t, a, d, 0, par2);
    if i != par && i != par2 {
      TurnElsewhere(t, a, d, 0, s, par2, side, par, m, NIL, RootSlot, Red, Black, Black, a[par].tb, 0, u, b,
                    RootSlot, 0, i);
    } else {
      OneSlot(t, a, s, par2);
      OneSlot(t, a, Kid(par2, side), par);
    }
  }

  // ---------- delete ----------

  /** The sibling of a slot that lacks a black node is a real node. */
  lemma SiblingLive(t: Tree, a: map<Ref, Att>, par: Ref, side: bool)
    requires Linked(t, a) && BalancedBut(t, a, Kid(par, side), 1) && Live(t, par)
    ensures Live(t, At(t, Kid(par, !side))) && At(t, Kid(par, !side)) != At(t, Kid(par, side))
  {
    assert BalAt(t, a, Kid(par, side), 1, par);
    assert NodeOk(t, a, par);
  }

  lemma PaintedSame(t: Tree, u: Tree, w: Ref)
    requires Repainted(t, u, w, Red, w, Red, w, Red)
    ensures forall s {:trigger At(u, s)} :: At(u, s) == At(t, s)
  {
  }

  /** Both nephews are black: the sibling turns red and the lack moves up to the parent's slot. */
  lemma NephewsBlackAt(t: Tree, a: map<Ref, Att>, s: Slot, par: Ref, side: bool, w: Ref, u: Tree, b: map<Ref, Att>,
                       i: Ref)
    requires Linked(t, a) && BalancedBut(t, a, Kid(par, side), 1) && Live(u, i)
    requires SlotOf(t, s) && At(t, s) == par && Live(t, par) && At(t, Kid(par, !side)) == w && Live(t, w)
    requires t.mem[w].colour == Black && At(t, Kid(par, side)) in t.mem && t.mem[At(t, Kid(par, side))].colour == Black
    requires KidsIn(t, a, w) && t.mem[At(t, Kid(w, false))].colour == Black
    requires t.mem[At(t, Kid(w, true))].colour == Black
    requires Repainted(t, u, w, Red, w, Red, w, Red) && a[par].tb > 0 && a[w].tb > 0
    requires Recounted(a, b, w, a[w].tb - 1, par, a[par].tb - 1, par, a[par].tb - 1)
    ensures BalAt(u, b, s, 1, i)
  {
    hide Linked, At;
    Sentinel(t, a);
    PaintedSame(t, u, w);
    var d := Kid(par, side);
    assert BalAt(t, a, d, 1, i) && BalAt(t, a, d, 1, par) && BalAt(t, a, d, 1, w);
    OneSlot(t, a, s, par);
    OneSlot(t, a, Kid(par, !side), w);
  }

  lemma SiblingRedHere(t: Tree, a: map<Ref, Att>, s: Slot, par: Ref, side: bool, w: Ref, m: Ref, u: Tree,
                       b: map<Ref, Att>, i: Ref)
    requires Linked(t, a) && par in t.mem && w in t.mem && KidsIn(t, a, par) && w in a && (i == par || i == w)
    requires BalAt(t, a, Kid(par, side), 1, par) && BalAt(t, a, Kid(par, side), 1, w)
    requires IsTurn(t, a, s, par, !side, w, m, NIL, Red, Black, Black, a[w].tb, a[par].tb, 0, u, b)
    requires t.mem[w].colour == Red && t.mem[At(t, Kid(par, side))].colour == Black
    ensures BalAt(u, b, Kid(par, side), 1, i)
  {
    hide Linked, At;
    Sentinel(t, a);
  }

  /** The sibling w is red: turning the parent gives x a black sibling. */
  lemma SiblingRedAt(t: Tree, a: map<Ref, Att>, s: Slot, par: Ref, side: bool, w: Ref, m: Ref, u: Tree,
                     b: map<Ref, Att>, i: Ref)
    requires Linked(t, a) && BalancedBut(t, a, Kid(par, side), 1) && Live(u, i) && KidsIn(t, a, par) && w in a
    requires IsTurn(t, a, s, par, !side, w, m, NIL, Red, Black, Black, a[w].tb, a[par].tb, 0, u, b)
    requires t.mem[w].colour == Red && t.mem[At(t, Kid(par, side))].colour == Black
    ensures BalAt(u, b, Kid(par, side), 1, i)
  {
    hide Linked, At;
    var d := Kid(par, side);
    if i == par || i == w {
      assert BalAt(t, a, d, 1, par) && BalAt(t, a, d, 1, w);
      SiblingRedHere(t, a, s, par, side, w, m, u, b, i);
    } else {
      assert BalAt(t, a, d, 1, i);
      TurnElsewhere(t, a, d, 1, s, par, !side, w, m, NIL, RootSlot, Red, Black, Black, a[w].tb, 0, u, b, d, 1, i);
    }
  }

  /** Only the near nephew is red: turning the sibling makes the far nephew red. */
  lemma NearRedAt(t: Tree, a: map<Ref, Att>, par: Ref, side: bool, w: Ref, near: Ref, m: Ref, u: Tree, b: map<Ref, Att>,
                  i: Ref)
    requires Linked(t, a) && BalancedBut(t, a, Kid(par, side), 1) && Live(u, i) && KidsIn(t, a, w) && KidsIn(t, a, par)
    requires w in a && near in a
    requires IsTurn(t, a, Kid(par, !side), w, side, near, m, NIL, Red, Black, Black, a[near].tb, a[w].tb, 0, u, b)
    requires t.mem[w].colour == Black && t.mem[near].colour == Red
    requires t.mem[At(t, Kid(w, !side))].colour == Black && t.mem[At(t, Kid(par, side))].colour == Black
    ensures BalAt(u, b, Kid(par, side), 1, i)
  {
    hide Linked, At;
    Sentinel(t, a);
    var d := Kid(par, side);
    assert BalAt(t, a, d, 1, i) && BalAt(t, a, d, 1, w) && BalAt(t, a, d, 1, near);
    if i != w && i != near {
      TurnElsewhere(t, a, d, 1, Kid(par, !side), w, side, near, m, NIL, RootSlot, Red, Black, Black,
                    a[near].tb, 0, u, b, d, 1, i);
    }
  }

  ghost predicate FarRed(t: Tree, a: map<Ref, Att>, s: Slot, par: Ref, side: bool, w: Ref, far: Ref, m: Ref, u: Tree,
                         b: map<Ref, Att>) {
    && Linked(t, a) && BalancedBut(t, a, Kid(par, side), 1) && KidsIn(t, a, par) && KidsIn(t, a, w)
    && Live(t, far) && far in a && far == At(t, Kid(w, !side)) && par in t.mem
    && IsTurn(t, a, s, par, !side, w, m, far, Black, t.mem[par].colour, Black, a[w].tb, a[par].tb, a[far].tb + 1, u, b)
    && t.mem[w].colour == Black && t.mem[far].colour == Red && t.mem[At(t, Kid(par, side))].colour == Black
  }

  lemma FarRedHere(t: Tree, a: map<Ref, Att>, s: Slot, par: Ref, side: bool, w: Ref, far: Ref, m: Ref, u: Tree,
                   b: map<Ref, Att>, i: Ref)
    requires FarRed(t, a, s, par, side, w, far, m, u, b) && (i == par || i == w)
    ensures BalAt(u, b, RootSlot, 0, i)
  {
    hide Linked, At;
    Sentinel(t, a);
    var d := Kid(par, side);
    assert BalAt(t, a, d, 1, par) && BalAt(t, a, d, 1, w);
    OneSlot(t, a, s, par);
    OneSlot(t, a, Kid(par, !side), w);
    OneSlot(t, a, Kid(w, !side), far);
  }

  lemma FarRedThere(t: Tree, a: map<Ref, Att>, s: Slot, par: Ref, side: bool, w: Ref, far: Ref, m: Ref, u: Tree,
                    b: map<Ref, Att>)
    requires FarRed(t, a, s, par, side, w, far, m, u, b)
    ensures BalAt(u, b, RootSlot, 0, far)
  {
    hide Linked, At;
    Sentinel(t, a);
    var d := Kid(par, side);
    assert BalAt(t, a, d, 1, w) && BalAt(t, a, d, 1, far);
    OneSlot(t, a, s, par);
    OneSlot(t, a, Kid(par, !side), w);
    OneSlot(t, a, Kid(w, !side), far);
  }

  /** The far nephew is red: turning the parent makes up for the missing black node. */
  lemma FarRedAt(t: Tree, a: map<Ref, Att>, s: Slot, par: Ref, side: bool, w: Ref, far: Ref, m: Ref, u: Tree,
                 b: map<Ref, Att>, i: Ref)
    requires FarRed(t, a, s, par, side, w, far, m, u, b) && Live(u, i)
    ensures BalAt(u, b, RootSlot, 0, i)
  {
    if i == par || i == w {
      FarRedHere(t, a, s, par, side, w, far, m, u, b, i);
    } else if i == far {
      FarRedThere(t, a, s, par, side, w, far, m, u, b);
    } else {
      assert BalAt(t, a, Kid(par, side), 1, i);
      TurnElsewhere(t, a, Kid(par, side), 1, s, par, !side, w, m, far, Kid(w, !side), Black, t.mem[par].colour, Black,
                    a[w].tb, a[far].tb + 1, u, b, RootSlot, 0, i);
    }
  }

  /** A red node in the slot that lacks a black one is painted black. */
  lemma PaintBlackAt(t: Tree, a: map<Ref, Att>, d: Slot, x: Ref, u: Tree, b: map<Ref, Att>, i: Ref)
    requires Linked(t, a) && BalancedBut(t, a, d, 1) && Live(u, i) && SlotOf(t, d) && At(t, d) == x && Live(t, x)
    requires t.mem[x].colour == Red && Repainted(t, u, x, Black, x, Black, x, Black)
    requires Recounted(a, b, x, a[x].tb + 1, x, a[x].tb + 1, x, a[x].tb + 1)
    ensures BalAt(u, b, RootSlot, 0, i)
  {
    assert BalAt(t, a, d, 1, i) && BalAt(t, a, d, 1, x);
    OneSlot(t, a, d, x);
  }
}
