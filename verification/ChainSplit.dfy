/** Splitting one bucket in place when the table grows by a slot. */
module ChainSplit {
  import opened Chains
  import Ops = ShapeOps

  ghost function Elements(c: seq<nat>): (s: set<nat>)
    ensures forall i :: i in s <==> i in c
  {
    set i | i in c
  }

  /** The homes after the records of bucket f for which `high` holds got the new bucket n. */
  ghost predicate Splits(home: Rec -> nat, home': Rec -> nat, high: Rec -> bool, f: nat, n: nat) {
    forall r :: home'(r) == if home(r) == f && high(r) then n else home(r)
  }

  /** Start: the chain c of bucket f is taken out, one free slot is appended. */
  lemma Start(L: seq<Link>, junk: Link, home: Rec -> nat, home': Rec -> nat, high: Rec -> bool, n: nat, f: nat,
              c: seq<nat>)
    requires WellChained(L, home, n, n) && |L| == n < NO_RECORD && Splits(home, home', high, f, n)
    requires ChainOf(L, home, n, n, f, c)
    ensures PartChained(L + [junk], home', n + 1, n, Elements(c))
  {
    var t: Shape :| t.Linked() && t.Describes(L, home, n, n, {});
    var L' := L + [junk];
    var u := Shape(n + 1, n, Elements(c), seq(n + 1, i requires 0 <= i < n + 1 => L'[i].next),
      seq(n + 1, i requires 0 <= i < n + 1 => home'(L'[i].data)), t.prev + [0], t.rank + [0]);
    forall i | u.Used(i) ensures u.Ok(i) {
      assert t.Ok(i);
      assert t.home[i] != f;
      if i != t.home[i] { assert t.Ok(t.prev[i]); }
    }
    assert u.Linked() && u.Describes(L', home', n + 1, n, Elements(c));
  }

  /** Bucket f has no records: nothing has to be split. */
  lemma StartEmpty(L: seq<Link>, junk: Link, home: Rec -> nat, home': Rec -> nat, high: Rec -> bool, n: nat, f: nat)
    requires WellChained(L, home, n, n) && |L| == n < NO_RECORD && Splits(home, home', high, f, n)
    requires f < n ==> home(L[f].data) != f
    ensures WellChained(L + [junk], home', n + 1, n)
  {
    var t: Shape :| t.Linked() && t.Describes(L, home, n, n, {});
    var L' := L + [junk];
    var u := Shape(n + 1, n, {}, seq(n + 1, i requires 0 <= i < n + 1 => L'[i].next),
      seq(n + 1, i requires 0 <= i < n + 1 => home'(L'[i].data)), t.prev + [0], t.rank + [0]);
    forall i | u.Used(i) ensures u.Ok(i) {
      assert t.Ok(i);
      assert t.home[i] != f;
    }
    assert u.Linked() && u.Describes(L', home', n + 1, n, {});
  }

  /** A record already at the slot of its bucket starts the new chain there. */
  lemma Keep(V: seq<Link>, home: Rec -> nat, n: nat, hole: nat, out: set<nat>, s: nat)
    requires PartChained(V, home, n, hole, out) && s in out && s < n == |V| && s != hole && home(V[s].data) == s
    ensures PartChained(V[s := Link(NO_RECORD, V[s].data)], home, n, hole, out - {s})
  {
    var t: Shape :| t.Linked() && t.Describes(V, home, n, hole, out);
    var V' := V[s := Link(NO_RECORD, V[s].data)];
    var u := t.(out := out - {s}, next := t.next[s := NO_RECORD]);
    forall i | u.Used(i) ensures u.Ok(i) {
      if i != s { assert t.Ok(i); }
    }
    assert u.Linked() && u.Describes(V', home, n, hole, out - {s});
  }

  /** A record moves to the hole, the slot of its bucket, and starts the new chain there. */
  lemma Move(V: seq<Link>, home: Rec -> nat, n: nat, hole: nat, out: set<nat>, s: nat)
    requires PartChained(V, home, n, hole, out) && s in out && hole !in out && s < n == |V| && hole < n
    requires home(V[s].data) == hole
    ensures PartChained(V[hole := Link(NO_RECORD, V[s].data)], home, n, s, out - {s})
    ensures Bag(V[hole := Link(NO_RECORD, V[s].data)], s) == Bag(V, hole)
  {
    var t: Shape :| t.Linked() && t.Describes(V, home, n, hole, out);
    var V' := V[hole := Link(NO_RECORD, V[s].data)];
    var u := t.(hole := s, out := out - {s}, next := t.next[hole := NO_RECORD], home := t.home[hole := hole]);
    Ops.StartAtHole(t, u, s);
    assert u.Describes(V', home, n, s, out - {s});
    BagMove(V, hole, s, V'[hole]);
  }

  ghost function Appended(V: seq<Link>, g: nat, s: nat): (V': seq<Link>)
    requires g < |V| && s < |V|
    ensures |V'| == |V|
  {
    V[g := Link(s, V[g].data)][s := Link(NO_RECORD, V[s].data)]
  }

  /** A record joins, at its own slot, the chain that ends at slot g. */
  lemma Append(V: seq<Link>, home: Rec -> nat, n: nat, hole: nat, out: set<nat>, g: nat, s: nat)
    requires PartChained(V, home, n, hole, out) && s in out && s < n == |V| && s != hole
    requires Used(n, hole, g) && g !in out && V[g].next == NO_RECORD && home(V[g].data) == home(V[s].data)
    ensures PartChained(Appended(V, g, s), home, n, hole, out - {s})
    ensures Bag(Appended(V, g, s), hole) == Bag(V, hole)
  {
    var t: Shape :| t.Linked() && t.Describes(V, home, n, hole, out);
    var V' := Appended(V, g, s);
    var u := t.(out := out - {s}, next := t.next[g := s][s := NO_RECORD], prev := t.prev[s := g],
      rank := t.rank[s := t.rank[g] + 1]);
    Ops.Append(t, u, g, s);
    assert u.Describes(V', home, n, hole, out - {s});
    BagRelink(V, g, s, hole);
    BagRelink(V[g := Link(s, V[g].data)], s, NO_RECORD, hole);
  }
}
