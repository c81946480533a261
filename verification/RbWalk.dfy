/** Going through the whole tree: by repeated steps, by recursive walks, and to check the balance. */
module RbWalk {
  import opened RbShape
  import opened RbBalance
  import opened RbHeight
  import opened RbDescend
  import opened RbSearch

  // ---------- repeated steps ----------

  /** q[i] is the next node after the one before it. */
  ghost predicate StepAt(t: Tree, side: bool, q: seq<Ref>, i: int) {
    0 < i < |q| && Live(t, q[i - 1]) && IsNext(t, q[i - 1], side, q[i])
  }

  /** q is what repeated steps from q[0] give, as far as they have gone. */
  ghost predicate IsWay(t: Tree, side: bool, q: seq<Ref>) {
    && |q| > 0 && (forall i :: 0 <= i < |q| ==> Live(t, q[i]))
    && forall i {:trigger StepAt(t, side, q, i)} :: 0 < i < |q| ==> StepAt(t, side, q, i)
  }

  /** And the one after the last is NULL. */
  ghost predicate IsRun(t: Tree, side: bool, q: seq<Ref>) {
    IsWay(t, side, q) && IsNext(t, q[|q| - 1], side, NULL)
  }

  /** Each node is beyond the one before. */
  ghost predicate InOrder(t: Tree, side: bool, q: seq<Ref>) {
    && (forall i :: 0 <= i < |q| ==> Live(t, q[i]))
    && forall i, j :: 0 <= i < j < |q| ==> Beyond(side, t.mem[q[i]].key, t.mem[q[j]].key)
  }

  /** Node j is not before node x in the direction. */
  ghost predicate From(t: Tree, side: bool, x: Ref, j: Ref) {
    Live(t, x) && Live(t, j) && !Beyond(side, t.mem[j].key, t.mem[x].key)
  }

  lemma {:induction false} RunCovers(t: Tree, a: map<Ref, Att>, side: bool, q: seq<Ref>, i: nat, j: Ref)
    requires Linked(t, a) && NULL !in t.mem && IsRun(t, side, q) && i < |q| && From(t, side, q[i], j)
    ensures j in q[i..]
    decreases |q| - i
  {
    if t.mem[j].key == t.mem[q[i]].key {
      KeysDistinct(t, a, j, q[i]);
    } else {
      assert i + 1 < |q|;
      assert StepAt(t, side, q, i + 1);
      RunCovers(t, a, side, q, i + 1, j);
      assert q[i + 1..] <= q[i..][1..];
    }
  }

  lemma {:induction false} RunAscends(t: Tree, a: map<Ref, Att>, side: bool, q: seq<Ref>, i: nat, j: nat)
    requires Linked(t, a) && IsRun(t, side, q) && i < j < |q|
    ensures Beyond(side, t.mem[q[i]].key, t.mem[q[j]].key)
    decreases j
  {
    assert StepAt(t, side, q, j);
    if i < j - 1 { RunAscends(t, a, side, q, i, j - 1); }
  }

  /** Repeated steps give every node from the first one on, each once and in order. */
  lemma RunIsTheRest(t: Tree, a: map<Ref, Att>, side: bool, q: seq<Ref>)
    requires Linked(t, a) && IsRun(t, side, q)
    ensures forall j :: j in q <==> From(t, side, q[0], j)
    ensures InOrder(t, side, q)
  {
    forall i, j | 0 <= i < j < |q| ensures Beyond(side, t.mem[q[i]].key, t.mem[q[j]].key) {
      RunAscends(t, a, side, q, i, j);
    }
    forall j ensures j in q <==> From(t, side, q[0], j) {
      if From(t, side, q[0], j) { RunCovers(t, a, side, q, 0, j); }
      if j in q {
        var i :| 0 <= i < |q| && q[i] == j;
        if i > 0 { RunAscends(t, a, side, q, 0, i); }
      }
    }
  }

  /** The nodes that come after x. */
  ghost function After(t: Tree, side: bool, x: Ref): set<Ref> {
    set j | j in t.mem && j != NIL && x in t.mem && Beyond(side, t.mem[x].key, t.mem[j].key)
  }

  lemma AfterShrinks(t: Tree, side: bool, x: Ref, r: Ref)
    requires x in t.mem && IsNext(t, x, side, r) && r != NULL
    ensures |After(t, side, r)| < |After(t, side, x)|
  {
    assert r in After(t, side, x) && r !in After(t, side, r);
    Smaller(After(t, side, r) + {r}, After(t, side, x));
  }

  lemma WayGrows(t: Tree, side: bool, q: seq<Ref>, r: Ref)
    requires IsWay(t, side, q) && Live(t, q[|q| - 1]) && r != NULL && IsNext(t, q[|q| - 1], side, r)
    ensures IsWay(t, side, q + [r]) && Live(t, r)
  {
    var p := q + [r];
    forall i | 0 < i < |p| ensures StepAt(t, side, p, i) {
      if i < |q| { assert StepAt(t, side, q, i); }
    }
  }

  /** Steps from node parents[top] in a direction until there is no next one. */
  method StepToEnd(t: Tree, parents: array<Ref>, top: nat, side: bool, ghost a: map<Ref, Att>)
    returns (q: seq<Ref>, last_pos: nat)
    requires WellFormed(t, a) && parents.Length >= MAX_RBTREE_HEIGHT && 0 < top < parents.Length
    requires Trail(t, parents[..], top) && Live(t, parents[top])
    modifies parents
    ensures last_pos == 0 && |q| > 0 && q[0] == old(parents[top]) && IsRun(t, side, q)
    ensures forall j :: j in q <==> From(t, side, old(parents[top]), j)
    ensures InOrder(t, side, q)
  {
    hide WellFormed, Linked, Balanced, Trail, IsNext;
    Whole(t, a);
    var x := parents[top];
    q, last_pos := [x], top;
    while x != NULL
      invariant |q| > 0 && q[0] == old(parents[top]) && IsWay(t, side, q)
      invariant if x == NULL then last_pos == 0 && IsNext(t, q[|q| - 1], side, NULL)
        else 0 < last_pos < parents.Length && Trail(t, parents[..], last_pos) && x == parents[last_pos] == q[|q| - 1]
      decreases if x == NULL then 0 else 1 + |After(t, side, x)|
    {
      ghost var was := x;
      x, last_pos := SearchNext(t, parents, last_pos, side, a);
      if x != NULL {
        AfterShrinks(t, side, was, x);
        WayGrows(t, side, q, x);
        q := q + [x];
      }
    }
    RunIsTheRest(t, a, side, q);
  }

  /** From one end, steps to the other end give every node, in order. */
  method StepThrough(t: Tree, parents: array<Ref>, side: bool, ghost a: map<Ref, Att>) returns (q: seq<Ref>)
    requires WellFormed(t, a) && parents.Length >= MAX_RBTREE_HEIGHT
    modifies parents
    ensures forall j :: j in q <==> Live(t, j)
    ensures InOrder(t, side, q)
  {
    hide WellFormed, Trail;
    var r, last_pos := SearchEdge(t, parents, !side, a);
    q := [];
    if r != NIL { q, last_pos := StepToEnd(t, parents, last_pos, side, a); }
  }

  /** From the answer of a search, steps give every node from there on, in order. */
  method StepFromKey(t: Tree, cmp: int -> int, parents: array<Ref>, flag: ReadFlag, side: bool, ghost a: map<Ref, Att>)
    returns (q: seq<Ref>)
    requires WellFormed(t, a) && parents.Length >= MAX_RBTREE_HEIGHT && Ordered(cmp) && Supported(flag)
    modifies parents
    ensures Answers(t, cmp, flag, if q == [] then NULL else q[0])
    ensures q != [] ==> forall j :: j in q <==> From(t, side, q[0], j)
    ensures InOrder(t, side, q)
  {
    hide WellFormed, Trail, Ordered;
    var r, last_pos := SearchKey(t, cmp, parents, flag, a);
    q := [];
    if r != NULL { q, last_pos := StepToEnd(t, parents, last_pos, side, a); }
  }

  // ---------- recursive walks ----------

  datatype Visit = Visit(nodes: seq<Ref>, error: int)

  /** Calls the action for each node in order, and stops at the first error. */
  function Walk(t: Tree, ghost a: map<Ref, Att>, x: Ref, backwards: bool, action: (int, nat) -> int): Visit
    requires Linked(t, a) && x in t.mem
    decreases if x == NIL then 0 else 1 + |Inside(t, a[x].lo, a[x].hi)|
  {
    if t.mem[x].left == NULL then Visit([], 0)
    else
      assert x != NIL && NodeOk(t, a, x);
      InsideShrinks(t, a, x);
      var first := Walk(t, a, if backwards then t.mem[x].right else t.mem[x].left, backwards, action);
      if first.error != 0 then first
      else
        var e := action(t.mem[x].key, t.mem[x].count);
        if e != 0 then Visit(first.nodes + [x], e)
        else
          var rest := Walk(t, a, if backwards then t.mem[x].left else t.mem[x].right, backwards, action);
          Visit(first.nodes + [x] + rest.nodes, rest.error)
  }

  ghost function Result(t: Tree, action: (int, nat) -> int, x: Ref): int
    requires x in t.mem
  {
    action(t.mem[x].key, t.mem[x].count)
  }

  /** The nodes whose keys lie within the interval, as far as the walk got. */
  ghost predicate Visits(t: Tree, lo: Bound, hi: Bound, side: bool, action: (int, nat) -> int, v: Visit) {
    && InOrder(t, side, v.nodes) && (forall i :: 0 <= i < |v.nodes| ==> v.nodes[i] in Inside(t, lo, hi))
    && (v.error != 0 ==> |v.nodes| > 0 && Result(t, action, v.nodes[|v.nodes| - 1]) == v.error)
    && (forall i :: 0 <= i < |v.nodes| && (v.error == 0 || i < |v.nodes| - 1) ==> Result(t, action, v.nodes[i]) == 0)
    && (forall j :: j in Inside(t, lo, hi) ==>
          j in v.nodes || (v.error != 0 && Beyond(side, t.mem[v.nodes[|v.nodes| - 1]].key, t.mem[j].key)))
  }

  /** The first of two neighbouring walks, with node x between them. */
  ghost predicate FirstWalk(t: Tree, lo: Bound, x: Ref, hi: Bound, side: bool, action: (int, nat) -> int, v: Visit) {
    && Live(t, x) && Lt(lo, Key(t.mem[x].key)) && Lt(Key(t.mem[x].key), hi)
    && (forall j {:trigger Live(t, j)} :: Live(t, j) && t.mem[j].key == t.mem[x].key ==> j == x)
    && if side then Visits(t, lo, Key(t.mem[x].key), side, action, v)
       else Visits(t, Key(t.mem[x].key), hi, side, action, v)
  }

  lemma VisitsStop(t: Tree, lo: Bound, x: Ref, hi: Bound, side: bool, action: (int, nat) -> int, v: Visit)
    requires FirstWalk(t, lo, x, hi, side, action, v) && v.error != 0
    ensures Visits(t, lo, hi, side, action, v)
  {
    forall j | j in Inside(t, lo, hi)
      ensures j in v.nodes || Beyond(side, t.mem[v.nodes[|v.nodes| - 1]].key, t.mem[j].key)
    {
      assert Live(t, j);
    }
  }

  lemma VisitsHere(t: Tree, lo: Bound, x: Ref, hi: Bound, side: bool, action: (int, nat) -> int, v: Visit, e: int)
    requires FirstWalk(t, lo, x, hi, side, action, v) && v.error == 0 && e == action(t.mem[x].key, t.mem[x].count)
    requires e != 0
    ensures Visits(t, lo, hi, side, action, Visit(v.nodes + [x], e))
  {
    forall j | j in Inside(t, lo, hi) ensures j in v.nodes + [x] || Beyond(side, t.mem[x].key, t.mem[j].key) {
      assert Live(t, j);
    }
  }

  /** The second of the two walks. */
  ghost predicate SecondWalk(t: Tree, lo: Bound, x: Ref, hi: Bound, side: bool, action: (int, nat) -> int, w: Visit) {
    && x in t.mem
    && if side then Visits(t, Key(t.mem[x].key), hi, side, action, w)
       else Visits(t, lo, Key(t.mem[x].key), side, action, w)
  }

  lemma JoinOrder(t: Tree, lo: Bound, x: Ref, hi: Bound, side: bool, action: (int, nat) -> int, v: Visit, w: Visit)
    requires FirstWalk(t, lo, x, hi, side, action, v) && SecondWalk(t, lo, x, hi, side, action, w)
    ensures InOrder(t, side, v.nodes + [x] + w.nodes)
    ensures forall i {:trigger (v.nodes + [x] + w.nodes)[i]} :: 0 <= i < |v.nodes + [x] + w.nodes| ==>
      (v.nodes + [x] + w.nodes)[i] in Inside(t, lo, hi)
  {
    var q := v.nodes + [x] + w.nodes;
    forall i | 0 <= i < |q| ensures q[i] in Inside(t, lo, hi) && Live(t, q[i])
      && (i < |v.nodes| ==> Beyond(side, t.mem[q[i]].key, t.mem[x].key))
      && (i > |v.nodes| ==> Beyond(side, t.mem[x].key, t.mem[q[i]].key)) {
      if i < |v.nodes| { assert q[i] == v.nodes[i]; }
      if i > |v.nodes| { assert q[i] == w.nodes[i - |v.nodes| - 1]; }
    }
  }

  /** Every node of the interval has been met, or lies beyond the failure. */
  lemma JoinCovers(t: Tree, lo: Bound, x: Ref, hi: Bound, side: bool, action: (int, nat) -> int, v: Visit, w: Visit,
                   j: Ref)
    requires FirstWalk(t, lo, x, hi, side, action, v) && v.error == 0 && SecondWalk(t, lo, x, hi, side, action, w)
    requires j in Inside(t, lo, hi)
    ensures j in v.nodes || j == x || j in w.nodes
            || (w.error != 0 && |w.nodes| > 0 && Beyond(side, t.mem[w.nodes[|w.nodes| - 1]].key, t.mem[j].key))
  {
    assert Live(t, j);
  }

  lemma JoinResults(t: Tree, lo: Bound, x: Ref, hi: Bound, side: bool, action: (int, nat) -> int, v: Visit, w: Visit,
                    i: nat)
    requires FirstWalk(t, lo, x, hi, side, action, v) && v.error == 0 && SecondWalk(t, lo, x, hi, side, action, w)
    requires Result(t, action, x) == 0
    ensures var q := v.nodes + [x] + w.nodes;
            i < |q| && (w.error == 0 || i < |q| - 1) ==> q[i] in t.mem && Result(t, action, q[i]) == 0
  {
    var q := v.nodes + [x] + w.nodes;
    if i < |v.nodes| { assert q[i] == v.nodes[i]; }
    if |v.nodes| < i < |q| { assert q[i] == w.nodes[i - |v.nodes| - 1]; }
  }

  lemma VisitsJoin(t: Tree, lo: Bound, x: Ref, hi: Bound, side: bool, action: (int, nat) -> int, v: Visit, w: Visit)
    requires FirstWalk(t, lo, x, hi, side, action, v) && v.error == 0 && Result(t, action, x) == 0
    requires SecondWalk(t, lo, x, hi, side, action, w)
    ensures Visits(t, lo, hi, side, action, Visit(v.nodes + [x] + w.nodes, w.error))
  {
    hide InOrder, FirstWalk, SecondWalk, Result;
    var q := v.nodes + [x] + w.nodes;
    JoinOrder(t, lo, x, hi, side, action, v, w);
    JoinEnd(t, lo, x, hi, side, action, v, w);
    forall i | 0 <= i < |q| && (w.error == 0 || i < |q| - 1) ensures Result(t, action, q[i]) == 0 {
      JoinResults(t, lo, x, hi, side, action, v, w, i);
    }
    forall j | j in Inside(t, lo, hi)
      ensures j in q || (w.error != 0 && Beyond(side, t.mem[q[|q| - 1]].key, t.mem[j].key))
    {
      JoinCovers(t, lo, x, hi, side, action, v, w, j);
    }
  }

  lemma JoinEnd(t: Tree, lo: Bound, x: Ref, hi: Bound, side: bool, action: (int, nat) -> int, v: Visit, w: Visit)
    requires FirstWalk(t, lo, x, hi, side, action, v) && SecondWalk(t, lo, x, hi, side, action, w)
    ensures var q := v.nodes + [x] + w.nodes;
            && (forall i :: 0 <= i < |q| ==> q[i] in t.mem)
            && (w.error != 0 ==> |w.nodes| > 0 && q[|q| - 1] == w.nodes[|w.nodes| - 1])
            && (w.error != 0 ==> Result(t, action, q[|q| - 1]) == w.error)
  {
    var q := v.nodes + [x] + w.nodes;
    forall i | 0 <= i < |q| ensures q[i] in t.mem {
      if i < |v.nodes| { assert q[i] == v.nodes[i]; }
      if i > |v.nodes| { assert q[i] == w.nodes[i - |v.nodes| - 1]; }
    }
  }

  lemma WalkIs(t: Tree, a: map<Ref, Att>, x: Ref, backwards: bool, action: (int, nat) -> int)
    requires Linked(t, a) && Live(t, x)
    ensures x in a && At(t, Kid(x, false)) in t.mem && At(t, Kid(x, true)) in t.mem
    ensures var v := Walk(t, a, At(t, Kid(x, backwards)), backwards, action);
            var w := Walk(t, a, At(t, Kid(x, !backwards)), backwards, action);
            var e := Result(t, action, x);
            Walk(t, a, x, backwards, action) ==
              if v.error != 0 then v
              else if e != 0 then Visit(v.nodes + [x], e)
              else Visit(v.nodes + [x] + w.nodes, w.error)
  {
    assert NodeOk(t, a, x);
  }

  /** A walk calls the action on the nodes in ascending (or descending) order, every one of them,
      unless an action fails: then on those up to the first failure, whose error it returns. */
  lemma {:induction false} WalkVisits(t: Tree, a: map<Ref, Att>, x: Ref, backwards: bool, action: (int, nat) -> int)
    requires Linked(t, a) && x in t.mem && x != NIL
    ensures x in a && Visits(t, a[x].lo, a[x].hi, !backwards, action, Walk(t, a, x, backwards, action))
    decreases if x in a then |Inside(t, a[x].lo, a[x].hi)| else 0, 1
  {
    hide Linked, Walk, Visits, At;
    WalkIs(t, a, x, backwards, action);
    WalkKid(t, a, x, backwards, action, backwards);
    WalkKid(t, a, x, backwards, action, !backwards);
    Between(t, a, x);
    var lo, hi, side := a[x].lo, a[x].hi, !backwards;
    var v := Walk(t, a, At(t, Kid(x, backwards)), backwards, action);
    if v.error != 0 {
      VisitsStop(t, lo, x, hi, side, action, v);
    } else if Result(t, action, x) != 0 {
      VisitsHere(t, lo, x, hi, side, action, v, Result(t, action, x));
    } else {
      VisitsJoin(t, lo, x, hi, side, action, v, Walk(t, a, At(t, Kid(x, side)), backwards, action));
    }
  }

  /** A node's key lies in its interval, and no other node has it. */
  lemma Between(t: Tree, a: map<Ref, Att>, x: Ref)
    requires Linked(t, a) && Live(t, x)
    ensures x in a && Lt(a[x].lo, Key(t.mem[x].key)) && Lt(Key(t.mem[x].key), a[x].hi)
    ensures forall j {:trigger Live(t, j)} :: Live(t, j) && t.mem[j].key == t.mem[x].key ==> j == x
  {
    assert NodeOk(t, a, x);
    forall j | Live(t, j) && t.mem[j].key == t.mem[x].key ensures j == x { KeysDistinct(t, a, j, x); }
  }

  lemma {:induction false} WalkKid(t: Tree, a: map<Ref, Att>, x: Ref, backwards: bool, action: (int, nat) -> int,
                                   right: bool)
    requires Linked(t, a) && Live(t, x)
    ensures x in a && At(t, Kid(x, right)) in t.mem
    ensures Visits(t, if right then Key(t.mem[x].key) else a[x].lo, if right then a[x].hi else Key(t.mem[x].key),
                   !backwards, action,
                   Walk(t, a, At(t, Kid(x, right)), backwards, action))
    decreases |Inside(t, a[x].lo, a[x].hi)|, 0
  {
    assert NodeOk(t, a, x);
    InsideShrinks(t, a, x);
    var c := At(t, Kid(x, right));
    if c != NIL {
      WalkVisits(t, a, c, backwards, action);
    } else {
      Gap(t, a, Kid(x, right));
    }
  }

  // ---------- checking the balance ----------

  /** Checks that no red node has a red child and that all ways down have as many black nodes; returns
      how many, or -1. */
  function TestRbTree(t: Tree, ghost a: map<Ref, Att>, x: Ref): (black_count: int)
    requires Linked(t, a) && x in t.mem
    ensures black_count >= -1
    decreases if x == NIL then 0 else 1 + |Inside(t, a[x].lo, a[x].hi)|
  {
    if t.mem[x].left == NULL then 0
    else
      assert x != NIL && NodeOk(t, a, x);
      InsideShrinks(t, a, x);
      var l, r := t.mem[x].left, t.mem[x].right;
      if t.mem[x].colour == Red && (t.mem[l].colour == Red || t.mem[r].colour == Red) then -1
      else
        var count_l, count_r := TestRbTree(t, a, l), TestRbTree(t, a, r);
        if count_l >= 0 && count_r >= 0 && count_l == count_r then count_l + (if t.mem[x].colour == Black then 1 else 0)
        else -1
  }

  /** w is a way down from x to the sentinel: at each node, left or right. */
  ghost predicate Way(t: Tree, x: Ref, w: seq<bool>)
    decreases |w|
  {
    if x == NIL then w == [] else |w| > 0 && x in t.mem && Way(t, At(t, Kid(x, w[0])), w[1..])
  }

  ghost function Blacks(t: Tree, x: Ref, w: seq<bool>): nat
    decreases |w|
  {
    if |w| == 0 || x !in t.mem then 0
    else (if t.mem[x].colour == Black then 1 else 0) + Blacks(t, At(t, Kid(x, w[0])), w[1..])
  }

  /** No red node with a red child on the way. */
  ghost predicate Striped(t: Tree, x: Ref, w: seq<bool>)
    decreases |w|
  {
    |w| > 0 && x in t.mem && At(t, Kid(x, false)) in t.mem && At(t, Kid(x, true)) in t.mem ==>
      && (t.mem[x].colour == Red ==>
            t.mem[At(t, Kid(x, false))].colour == Black && t.mem[At(t, Kid(x, true))].colour == Black)
      && Striped(t, At(t, Kid(x, w[0])), w[1..])
  }

  ghost predicate AllWays(t: Tree, x: Ref, n: int) {
    forall w {:trigger Way(t, x, w)} :: Way(t, x, w) ==> Striped(t, x, w) && Blacks(t, x, w) == n
  }

  ghost function BlackOne(t: Tree, x: Ref): nat
    requires x in t.mem
  {
    if t.mem[x].colour == Black then 1 else 0
  }

  ghost predicate NoRedRed(t: Tree, x: Ref)
    requires x in t.mem
  {
    && At(t, Kid(x, false)) in t.mem && At(t, Kid(x, true)) in t.mem
    && (t.mem[x].colour == Red ==>
          t.mem[At(t, Kid(x, false))].colour == Black && t.mem[At(t, Kid(x, true))].colour == Black)
  }

  lemma WayUp(t: Tree, x: Ref, right: bool, v: seq<bool>)
    requires Live(t, x) && Way(t, At(t, Kid(x, right)), v) && At(t, Kid(x, false)) in t.mem
    requires At(t, Kid(x, true)) in t.mem
    ensures Way(t, x, [right] + v) && Blacks(t, x, [right] + v) == BlackOne(t, x) + Blacks(t, At(t, Kid(x, right)), v)
    ensures Striped(t, x, [right] + v) <==> NoRedRed(t, x) && Striped(t, At(t, Kid(x, right)), v)
  {
    assert ([right] + v)[1..] == v;
  }

  lemma {:induction false} SomeWay(t: Tree, a: map<Ref, Att>, x: Ref) returns (w: seq<bool>)
    requires Linked(t, a) && x in t.mem
    ensures Way(t, x, w)
    decreases if x == NIL then 0 else 1 + |Inside(t, a[x].lo, a[x].hi)|
  {
    if x == NIL { return []; }
    assert NodeOk(t, a, x);
    InsideShrinks(t, a, x);
    var v := SomeWay(t, a, t.mem[x].left);
    assert At(t, Kid(x, false)) == t.mem[x].left && At(t, Kid(x, true)) == t.mem[x].right;
    WayUp(t, x, false, v);
    w := [false] + v;
  }

  lemma WaysUp(t: Tree, x: Ref, m: nat)
    requires Live(t, x) && NoRedRed(t, x) && AllWays(t, At(t, Kid(x, false)), m) && AllWays(t, At(t, Kid(x, true)), m)
    ensures AllWays(t, x, m + BlackOne(t, x))
  {
    forall w | Way(t, x, w) ensures Striped(t, x, w) && Blacks(t, x, w) == m + BlackOne(t, x) {
      assert Way(t, At(t, Kid(x, w[0])), w[1..]);
      assert w == [w[0]] + w[1..];
      WayUp(t, x, w[0], w[1..]);
    }
  }

  lemma WaysDown(t: Tree, a: map<Ref, Att>, x: Ref, n: nat, right: bool)
    requires Linked(t, a) && Live(t, x) && AllWays(t, x, n)
    ensures NoRedRed(t, x) && AllWays(t, At(t, Kid(x, right)), n - BlackOne(t, x)) && n >= BlackOne(t, x)
  {
    assert NodeOk(t, a, x);
    var c := At(t, Kid(x, right));
    var v0 := SomeWay(t, a, c);
    WayUp(t, x, right, v0);
    forall v | Way(t, c, v) ensures Striped(t, c, v) && Blacks(t, c, v) == n - BlackOne(t, x) {
      WayUp(t, x, right, v);
    }
  }

  lemma TestIs(t: Tree, a: map<Ref, Att>, x: Ref)
    requires Linked(t, a) && Live(t, x)
    ensures x in a && At(t, Kid(x, false)) in t.mem && At(t, Kid(x, true)) in t.mem
    ensures var count_l, count_r := TestRbTree(t, a, At(t, Kid(x, false))), TestRbTree(t, a, At(t, Kid(x, true)));
            TestRbTree(t, a, x) ==
              if NoRedRed(t, x) && count_l >= 0 && count_l == count_r then count_l + BlackOne(t, x) else -1
  {
    assert NodeOk(t, a, x);
  }

  /** The intervals of the children are smaller. */
  lemma KidsInside(t: Tree, a: map<Ref, Att>, x: Ref)
    requires Linked(t, a) && Live(t, x)
    ensures forall right :: var c := At(t, Kid(x, right));
              c in a && x in a && (c == NIL || |Inside(t, a[c].lo, a[c].hi)| < |Inside(t, a[x].lo, a[x].hi)|)
  {
    assert NodeOk(t, a, x);
    forall right | At(t, Kid(x, right)) != NIL
      ensures var c := At(t, Kid(x, right));
              c in a && |Inside(t, a[c].lo, a[c].hi)| < |Inside(t, a[x].lo, a[x].hi)|
    {
      DownStep(t, a, x, right);
    }
  }

  /** The check returns n >= 0 exactly when n is the number of black nodes on every way down, and no
      way passes two red nodes in a row. */
  lemma {:induction false} TestMeans(t: Tree, a: map<Ref, Att>, x: Ref, n: nat)
    requires Linked(t, a) && x in t.mem
    ensures TestRbTree(t, a, x) == n <==> AllWays(t, x, n)
    decreases if x == NIL then 0 else 1 + |Inside(t, a[x].lo, a[x].hi)|
  {
    if x == NIL {
      TestNil(t, a, n);
    } else {
      hide Linked, TestRbTree, AllWays, NoRedRed, At;
      TestIs(t, a, x);
      KidsInside(t, a, x);
      var l, r, m := At(t, Kid(x, false)), At(t, Kid(x, true)), n - BlackOne(t, x);
      if AllWays(t, x, n) {
        WaysDown(t, a, x, n, false);
        WaysDown(t, a, x, n, true);
        TestMeans(t, a, l, m);
        TestMeans(t, a, r, m);
      }
      if TestRbTree(t, a, x) == n {
        TestMeans(t, a, l, m);
        TestMeans(t, a, r, m);
        WaysUp(t, x, m);
      }
    }
  }

  lemma TestNil(t: Tree, a: map<Ref, Att>, n: nat)
    requires Linked(t, a)
    ensures TestRbTree(t, a, NIL) == n <==> AllWays(t, NIL, n)
  {
    assert Way(t, NIL, []);
  }

  /** On a balanced tree it is the black count of the root, never -1. */
  lemma {:induction false} TestPasses(t: Tree, a: map<Ref, Att>, x: Ref)
    requires Linked(t, a) && Balanced(t, a) && x in t.mem
    ensures x in a && TestRbTree(t, a, x) == a[x].tb
    decreases if x == NIL then 0 else 1 + |Inside(t, a[x].lo, a[x].hi)|
  {
    if x != NIL {
      assert BalAt(t, a, RootSlot, 0, x);
      KidsInside(t, a, x);
      TestPasses(t, a, At(t, Kid(x, false)));
      TestPasses(t, a, At(t, Kid(x, true)));
      TestIs(t, a, x);
    }
  }
}
