/** What the pointer surgery does to the link array: the chain invariant and the stored records. */
module ChainOps {
  import opened Chains
  import Ops = ShapeOps

  // ---------- taking a record out ----------

  /** Unlinking slot p behind its predecessor g frees slot p. */
  lemma UnlinkInner(L: seq<Link>, home: Rec -> nat, n: nat, g: nat, p: nat)
    requires WellChained(L, home, n, n) && n == |L|
    requires g < n && p < n && L[g].next == p
    ensures WellChained(L[g := Link(L[p].next, L[g].data)], home, n, p)
    ensures Bag(L[g := Link(L[p].next, L[g].data)], p) == Bag(L, n) - multiset{L[p].data}
  {
    var t: Shape :| t.Linked() && t.Describes(L, home, n, n, {});
    var L' := L[g := Link(L[p].next, L[g].data)];
    var u := t.(hole := p, next := t.next[g := t.next[p]], prev := Ops.Follow(t.prev, t.next[p], g));
    Ops.UnlinkInner(t, u, g, p);
    assert u.Describes(L', home, n, p, {});
    BagRelink(L, g, L[p].next, p);
  }

  /** Unlinking the head p of a chain moves the second slot q into p and frees q. */
  lemma UnlinkHead(L: seq<Link>, home: Rec -> nat, n: nat, p: nat, q: nat)
    requires WellChained(L, home, n, n) && n == |L|
    requires p < n && home(L[p].data) == p && L[p].next == q && q < n
    ensures WellChained(L[p := L[q]], home, n, q)
    ensures Bag(L[p := L[q]], q) == Bag(L, n) - multiset{L[p].data}
  {
    var t: Shape :| t.Linked() && t.Describes(L, home, n, n, {});
    var u := t.(hole := q, next := t.next[p := t.next[q]], prev := Ops.Follow(t.prev, t.next[q], p));
    assert t.Ok(p);
    Ops.UnlinkHead(t, u, p, q);
    assert u.Describes(L[p := L[q]], home, n, q, {});
    BagUpdate(L, p, L[q]);
  }

  /** Unlinking a chain of one record frees its slot. */
  lemma UnlinkSingle(L: seq<Link>, home: Rec -> nat, n: nat, p: nat)
    requires WellChained(L, home, n, n) && n == |L|
    requires p < n && home(L[p].data) == p && L[p].next == NO_RECORD
    ensures WellChained(L, home, n, p)
    ensures Bag(L, p) == Bag(L, n) - multiset{L[p].data}
  {
    var t: Shape :| t.Linked() && t.Describes(L, home, n, n, {});
    var u := t.(hole := p);
    forall i | u.Used(i) ensures u.Ok(i) {
      assert t.Ok(i);
      assert i == t.home[i] || t.Ok(t.prev[i]);
      if t.home[i] == p { OnlyRecord(t, p, i); }
    }
    assert u.Describes(L, home, n, p, {});
  }

  /** A chain whose head ends it holds one record. */
  lemma OnlyRecord(t: Shape, p: nat, i: nat)
    requires t.Linked() && t.Used(p) && t.Used(i) && t.home[i] == p == t.home[p] && t.next[p] == NO_RECORD
    ensures i == p
  {
    assert t.Ok(p);
    var cap := SeqBound(t.rank);
    var c := WalkDown(t, p, cap);
    OnChain(t, i, c);
  }

  // ---------- moving a record into the hole ----------

  ghost function Relocated(L: seq<Link>, hole: nat, g: nat, a: nat): (L': seq<Link>)
    requires hole < |L| && g < |L| && a < |L|
    ensures |L'| == |L|
  {
    L[hole := L[a]][g := Link(hole, L[g].data)]
  }

  /** Moving slot a, which follows slot g, into the hole makes a the hole. */
  lemma Relocate(L: seq<Link>, home: Rec -> nat, n: nat, hole: nat, g: nat, a: nat)
    requires WellChained(L, home, n, hole) && hole < n <= |L|
    requires Used(n, hole, g) && Used(n, hole, a) && L[g].next == a
    ensures WellChained(Relocated(L, hole, g, a), home, n, a)
    ensures Bag(Relocated(L, hole, g, a), a) == Bag(L, hole)
  {
    var t: Shape :| t.Linked() && t.Describes(L, home, n, hole, {});
    var L' := Relocated(L, hole, g, a);
    var u := t.(hole := a, next := t.next[hole := t.next[a]][g := hole], home := t.home[hole := t.home[a]],
      rank := t.rank[hole := t.rank[a]], prev := Ops.Follow(t.prev[hole := g], t.next[a], hole));
    Ops.Relocate(t, u, g, a);
    assert u.Describes(L', home, n, a, {});
    BagMove(L, hole, a, L[a]);
    BagRelink(L[hole := L[a]], g, hole, a);
  }

  // ---------- putting a record in ----------

  /** A record whose bucket is the hole becomes a chain of its own. */
  lemma PlaceHead(L: seq<Link>, home: Rec -> nat, n: nat, hole: nat, r: Rec)
    requires WellChained(L, home, n, hole) && hole < n == |L| && home(r) == hole
    ensures WellChained(L[hole := Link(NO_RECORD, r)], home, n, n)
    ensures Bag(L[hole := Link(NO_RECORD, r)], n) == Bag(L, hole) + multiset{r}
  {
    hide Bag;
    var t: Shape :| t.Linked() && t.Describes(L, home, n, hole, {});
    var L' := L[hole := Link(NO_RECORD, r)];
    var u := t.(hole := n, next := t.next[hole := NO_RECORD], home := t.home[hole := hole]);
    forall i | u.Used(i) ensures u.Ok(i) {
      if i != hole {
        assert t.Ok(i);
      }
    }
    assert u.Describes(L', home, n, n, {});
    BagFill(L, hole, L'[hole]);
  }

  ghost function Pushed(L: seq<Link>, hole: nat, pos: nat, r: Rec): (L': seq<Link>)
    requires hole < |L| && pos < |L|
    ensures |L'| == |L|
  {
    L[hole := L[pos]][pos := Link(hole, r)]
  }

  /** A record pushed in front of its chain: the old head moves into the hole. */
  lemma PlacePush(L: seq<Link>, home: Rec -> nat, n: nat, hole: nat, pos: nat, r: Rec)
    requires WellChained(L, home, n, hole) && hole < n == |L| && Used(n, hole, pos)
    requires home(r) == pos == home(L[pos].data)
    ensures WellChained(Pushed(L, hole, pos, r), home, n, n)
    ensures Bag(Pushed(L, hole, pos, r), n) == Bag(L, hole) + multiset{r}
  {
    var t: Shape :| t.Linked() && t.Describes(L, home, n, hole, {});
    var L' := Pushed(L, hole, pos, r);
    var u := t.(hole := n, next := t.next[hole := t.next[pos]][pos := hole], home := t.home[hole := pos],
      rank := seq(n, i requires 0 <= i < n =>
        if i == pos then 0 else if i == hole then t.rank[pos] + 1 else t.rank[i] + 1),
      prev := Ops.Follow(t.prev[hole := pos], t.next[pos], hole));
    Ops.PlacePush(t, u, pos);
    assert u.Describes(L', home, n, n, {});
    BagMove(L, hole, pos, L[pos]);
    BagFill(L[hole := L[pos]], pos, L'[pos]);
  }

  ghost function LinkedAfter(L: seq<Link>, hole: nat, pos: nat, r: Rec): (L': seq<Link>)
    requires hole < |L| && pos < |L|
    ensures |L'| == |L|
  {
    L[hole := Link(L[pos].next, r)][pos := Link(hole, L[pos].data)]
  }

  /** A record linked into the hole, directly behind the head of its chain. */
  lemma PlaceAfter(L: seq<Link>, home: Rec -> nat, n: nat, hole: nat, pos: nat, r: Rec)
    requires WellChained(L, home, n, hole) && hole < n == |L| && Used(n, hole, pos)
    requires home(r) == pos == home(L[pos].data)
    ensures WellChained(LinkedAfter(L, hole, pos, r), home, n, n)
    ensures Bag(LinkedAfter(L, hole, pos, r), n) == Bag(L, hole) + multiset{r}
  {
    var t: Shape :| t.Linked() && t.Describes(L, home, n, hole, {});
    var L' := LinkedAfter(L, hole, pos, r);
    var u := t.(hole := n, next := t.next[hole := t.next[pos]][pos := hole], home := t.home[hole := pos],
      rank := seq(n, i requires 0 <= i < n => if i == hole then 2 * t.rank[pos] + 1 else 2 * t.rank[i]),
      prev := Ops.Follow(t.prev[hole := pos], t.next[pos], hole));
    Ops.PlaceAfter(t, u, pos);
    assert u.Describes(L', home, n, n, {});
    BagFill(L, hole, L'[hole]);
    BagRelink(L[hole := L'[hole]], pos, hole, n);
  }

  // ---------- merging the last bucket into its sibling ----------

  /** The homes after bucket m has been merged into bucket b. */
  ghost predicate Merges(home: Rec -> nat, home': Rec -> nat, m: nat, b: nat) {
    forall r :: home'(r) == if home(r) == m then b else home(r)
  }

  /** With the last slot free nothing has to move. */
  lemma MergeFreeLast(L: seq<Link>, home: Rec -> nat, home': Rec -> nat, m: nat, b: nat)
    requires Merges(home, home', m, b) && WellChained(L, home, m + 1, m)
    ensures WellChained(L, home', m, m)
  {
    var t: Shape :| t.Linked() && t.Describes(L, home, m + 1, m, {});
    var u := t.(n := m, home := Ops.Merged(t.home, m, b));
    forall i | u.Used(i) ensures u.Ok(i) {
      assert t.Ok(i);
    }
    assert u.Describes(L, home', m, m, {});
  }

  /** The head of bucket m moves to slot b, which is free. */
  lemma MergeMoveHead(L: seq<Link>, home: Rec -> nat, home': Rec -> nat, m: nat, b: nat)
    requires Merges(home, home', m, b) && WellChained(L, home, m + 1, b) && |L| == m + 1
    requires b < m && home(L[m].data) == m
    ensures WellChained(L[b := L[m]], home', m, m)
    ensures Bag(L[b := L[m]], m) == Bag(L, b)
  {
    var t: Shape :| t.Linked() && t.Describes(L, home, m + 1, b, {});
    var u := MovedHead(t, m, b);
    assert u.Describes(L[b := L[m]], home', m, m, {});
    BagMove(L, b, m, L[m]);
  }

  /** The head of the last bucket m moved to the free slot b, whose bucket takes over the chain. */
  lemma MovedHead(t: Shape, m: nat, b: nat) returns (u: Shape)
    requires t.Linked() && t.n == m + 1 && t.hole == b < m && t.home[m] == m && t.out == {}
    ensures u.Linked() && u.out == {} && u.n == u.hole == m && u.next == t.next[b := t.next[m]]
    ensures u.home == Ops.Merged(t.home[b := m], m, b)
  {
    u := t.(n := m, hole := m, next := t.next[b := t.next[m]],
      home := Ops.Merged(t.home[b := m], m, b), prev := Ops.Follow(t.prev, t.next[m], b),
      rank := t.rank[b := t.rank[m]]);
    Ops.MergeMoveHead(t, u, b);
  }

  /** The three writes of the remaining merges: the last slot m moves to the hole e, slot g takes
      over b's successor, and b is linked to e. */
  ghost function Spliced(L: seq<Link>, m: nat, b: nat, e: nat, g: nat): (L': seq<Link>)
    requires m < |L| && b < |L| && e < |L| && g < |L|
    ensures |L'| == |L|
  {
    var L1 := L[e := L[m]];
    var L2 := L1[g := Link(L1[b].next, L1[g].data)];
    L2[b := Link(e, L2[b].data)]
  }

  lemma SplicedBag(L: seq<Link>, m: nat, b: nat, e: nat, g: nat)
    requires m < |L| && b < m && e < m && g < m && e != b
    ensures Bag(Spliced(L, m, b, e, g), m) == Bag(L, e)
  {
    var L1 := L[e := L[m]];
    var L2 := L1[g := Link(L1[b].next, L1[g].data)];
    BagMove(L, e, m, L[m]);
    BagRelink(L1, g, L1[b].next, m);
    BagRelink(L2, b, e, m);
  }

  /** Slot b holds a record of bucket m: it becomes the head, followed by the old head moved
      from slot m to the hole e. Slot g is the predecessor of b after that move. */
  lemma MergePromote(L: seq<Link>, home: Rec -> nat, home': Rec -> nat, m: nat, b: nat, e: nat, g: nat)
    requires Merges(home, home', m, b) && WellChained(L, home, m + 1, e) && |L| == m + 1
    requires b < m && e < m && e != b && home(L[m].data) == m == home(L[b].data)
    requires g < m && L[e := L[m]][g].next == b
    ensures WellChained(Spliced(L, m, b, e, g), home', m, m)
    ensures Bag(Spliced(L, m, b, e, g), m) == Bag(L, e)
  {
    var t: Shape :| t.Linked() && t.Describes(L, home, m + 1, e, {});
    var t' := MovedHead(t, m, e);
    var u := t'.(next := t'.next[g := t'.next[b]][b := e], home := Ops.Merged(t'.home, e, b),
      prev := Ops.Follow(t'.prev, t'.next[b], g)[e := b],
      rank := seq(m + 1, i requires 0 <= i < m + 1 => if i == b then 0 else t'.rank[i] + 1));
    Ops.Promote(t', u, b, e, g);
    SpliceDescribes(t, t', u, L, home, home', m, b, e, g);
    SplicedBag(L, m, b, e, g);
  }

  lemma SpliceDescribes(t: Shape, t': Shape, u: Shape, L: seq<Link>, home: Rec -> nat, home': Rec -> nat,
                        m: nat, b: nat, e: nat, g: nat)
    requires t.Linked() && t.Describes(L, home, m + 1, e, {}) && |L| == m + 1 && Merges(home, home', m, b)
    requires b < m && e < m && g < m && e != b && home(L[m].data) == m
    requires t'.next == t.next[e := t.next[m]] && t'.home == Ops.Merged(t.home[e := m], m, e)
    requires u.n == u.hole == m && u.out == {} && u.next == t'.next[g := t'.next[b]][b := e]
    requires u.home == Ops.Merged(t'.home, e, b)
    ensures u.Describes(Spliced(L, m, b, e, g), home', m, m, {})
  {
    forall i | 0 <= i < |L|
      ensures u.home[i] == home'(Spliced(L, m, b, e, g)[i].data)
    {
      assert Spliced(L, m, b, e, g)[i].data == if i == e then L[m].data else L[i].data;
      if i != e { assert t.Ok(i); }
    }
  }

  /** Both buckets are inhabited: the whole chain of bucket m, its head moved to the hole e and
      its end at z, goes between the head of bucket b and the rest of that chain. */
  lemma MergeSplice(L: seq<Link>, home: Rec -> nat, home': Rec -> nat, m: nat, b: nat, e: nat, z: nat)
    requires Merges(home, home', m, b) && WellChained(L, home, m + 1, e) && |L| == m + 1
    requires b < m && e < m && e != b && home(L[m].data) == m && home(L[b].data) == b
    requires z < m && L[e := L[m]][z].next == NO_RECORD && home(L[e := L[m]][z].data) == m
    ensures WellChained(Spliced(L, m, b, e, z), home', m, m)
    ensures Bag(Spliced(L, m, b, e, z), m) == Bag(L, e)
  {
    var t: Shape :| t.Linked() && t.Describes(L, home, m + 1, e, {});
    var t' := MovedHead(t, m, e);
    var cap := SeqBound(t'.rank);
    var u := t'.(next := t'.next[z := t'.next[b]][b := e], home := Ops.Merged(t'.home, e, b),
      prev := Ops.Follow(t'.prev, t'.next[b], z)[e := b],
      rank := seq(m + 1, i requires 0 <= i < m + 1 =>
        if i == b then 0 else if t'.home[i] == b then t'.rank[i] + cap + 1 else t'.rank[i] + 1));
    Ops.Splice(t', u, b, e, z, cap);
    SpliceDescribes(t, t', u, L, home, home', m, b, e, z);
    SplicedBag(L, m, b, e, z);
  }
}
