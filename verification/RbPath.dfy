/** The stack of slots that a descent leaves behind. */
module RbPath {
  import opened RbShape
  import opened RbLinks
  import opened RbBalance

  ghost predicate Step(t: Tree, ps: seq<Slot>, j: nat) {
    0 < j < |ps| && ps[j].Kid? && Live(t, ps[j].node) && At(t, ps[j - 1]) == ps[j].node
  }

  /** ps[0..k] leads from the root down to slot ps[k]. */
  ghost predicate Path(t: Tree, ps: seq<Slot>, k: nat) {
    k < |ps| && ps[0] == RootSlot && forall j {:trigger Step(t, ps, j)} :: 0 < j <= k ==> Step(t, ps, j)
  }

  /** Further down the intervals are strictly smaller. */
  lemma {:induction false} PathDown(t: Tree, a: map<Ref, Att>, ps: seq<Slot>, k: nat, i: nat, j: nat)
    requires Linked(t, a) && Path(t, ps, k) && i < j <= k && Live(t, At(t, ps[j]))
    ensures var x, y := At(t, ps[i]), At(t, ps[j]);
            Live(t, x) && x in a && y in a && |Inside(t, a[y].lo, a[y].hi)| < |Inside(t, a[x].lo, a[x].hi)|
    decreases j
  {
    assert Step(t, ps, j);
    var x := ps[j].node;
    ChildOf(t, a, x, At(t, ps[j]));
    InsideShrinks(t, a, x);
    if i < j - 1 { PathDown(t, a, ps, k, i, j - 1); }
  }

  /** A node occurs on a path only once. */
  lemma PathDistinct(t: Tree, a: map<Ref, Att>, ps: seq<Slot>, k: nat, i: nat, j: nat)
    requires Linked(t, a) && Path(t, ps, k) && i < j <= k && Live(t, At(t, ps[j]))
    ensures Live(t, At(t, ps[i])) && At(t, ps[i]) != At(t, ps[j]) && ps[i] != ps[j]
  {
    PathDown(t, a, ps, k, i, j);
  }

  /** Painting nodes leaves paths alone. */
  lemma PathSame(t: Tree, ps: seq<Slot>, k: nat, u: Tree)
    requires Path(t, ps, k) && u.mem.Keys == t.mem.Keys && forall s {:trigger At(u, s)} :: At(u, s) == At(t, s)
    ensures Path(u, ps, k)
  {
    forall j | 0 < j <= k ensures Step(u, ps, j) {
      assert Step(t, ps, j);
    }
  }

  lemma PathPrefix(t: Tree, ps: seq<Slot>, k: nat, j: nat)
    requires Path(t, ps, k) && j <= k
    ensures Path(t, ps, j) && SlotOf(t, ps[j]) && (j > 0 ==> Step(t, ps, j))
  {
    if j > 0 { assert Step(t, ps, j); }
  }

  /** A turn below slot ps[k] leaves the path to that slot alone. */
  lemma PathTurned(t: Tree, a: map<Ref, Att>, ps: seq<Slot>, k: nat, s: Slot, n: Ref, right: bool, y: Ref, m: Ref,
                   f: Ref,
                   cn: Colour, cy: Colour, cf: Colour, tn: nat, ty: nat, tf: nat, u: Tree, b: map<Ref, Att>)
    requires Linked(t, a) && Path(t, ps, k) && s == ps[k]
    requires IsTurn(t, a, s, n, right, y, m, f, cn, cy, cf, tn, ty, tf, u, b)
    ensures Path(u, ps, k)
  {
    forall j | 0 < j <= k ensures Step(u, ps, j) {
      assert Step(t, ps, j);
      PathDistinct(t, a, ps, k, j - 1, k);
      if j > 1 {
        assert Step(t, ps, j - 1);
        PathDistinct(t, a, ps, k, j - 2, k);
        OneSlot(t, a, Kid(n, right), y);
        if j > 2 {
          assert Step(t, ps, j - 2);
          PathDistinct(t, a, ps, k, j - 3, k);
        }
      }
    }
  }

  /** Pushing a slot of the node that the path ends at. */
  lemma PathPush(t: Tree, ps: seq<Slot>, k: nat, s: Slot)
    requires Path(t, ps, k) && k + 1 < |ps| && s.Kid? && Live(t, s.node) && At(t, ps[k]) == s.node
    ensures Path(t, ps[k + 1 := s], k + 1)
  {
    var qs := ps[k + 1 := s];
    forall j | 0 < j <= k + 1 ensures Step(t, qs, j) {
      if j <= k { assert Step(t, ps, j); }
    }
  }
}
