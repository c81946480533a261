/**
 Chains of hash records threaded through one array of links.

 A table of n slots may have one free slot, the `hole`; a hole at or beyond n means that
 every slot is in use. `home` gives the bucket of a record, which is also the slot where
 the chain of that bucket has to start.
 */
module Chains {

  type Rec = nat  // address of a record

  datatype Link = Link(next: nat, data: Rec)

  /** End of a chain: the largest 32-bit slot number. */
  const NO_RECORD: nat := 0xFFFF_FFFF

  ghost predicate Used(n: nat, hole: nat, i: int) {
    0 <= i < n && i != hole
  }

  /** The shape of a table of n slots: per slot the successor and the bucket of its record, and
      two witnesses, the predecessor and a rank that increases along the chain. Slots in `out`
      are not linked into any chain for the time being. */
  datatype Shape = Shape(n: nat, hole: nat, out: set<nat>, next: seq<nat>, home: seq<nat>, prev: seq<nat>,
                         rank: seq<nat>) {

    ghost predicate Used(i: int) {
      0 <= i < n && i != hole && i !in out
    }

    ghost predicate Sized() {
      n <= NO_RECORD && n <= |next| == |home| == |prev| == |rank|
    }

    /** The bucket of slot i is headed, at the bucket's own slot, by a record of that bucket. */
    ghost predicate HeadOk(i: int)
      requires Sized() && Used(i)
    {
      Used(home[i]) && home[home[i]] == home[i]
    }

    ghost predicate PrevOk(i: int)
      requires Sized() && Used(i)
    {
      i != home[i] ==>
        home[i] < |rank| && rank[home[i]] < rank[i] && Used(prev[i]) && next[prev[i]] == i
    }

    ghost predicate NextOk(i: int)
      requires Sized() && Used(i)
    {
      next[i] != NO_RECORD ==>
        Used(next[i]) && home[next[i]] == home[i] && rank[i] < rank[next[i]] && prev[next[i]] == i
    }

    ghost predicate Ok(i: int)
      requires Sized() && Used(i)
    {
      HeadOk(i) && PrevOk(i) && NextOk(i)
    }

    ghost predicate Linked() {
      Sized() && forall i {:trigger Ok(i)} :: Used(i) ==> Ok(i)
    }

    ghost predicate Describes(L: seq<Link>, home': Rec -> nat, n': nat, hole': nat, out': set<nat>) {
      && n == n' && hole == hole' && out == out' && |next| == |home| == |L|
      && forall i :: 0 <= i < |L| ==> next[i] == L[i].next && home[i] == home'(L[i].data)
    }
  }

  /** The chain invariant, for the slots not in `out`. */
  ghost predicate PartChained(L: seq<Link>, home: Rec -> nat, n: nat, hole: nat, out: set<nat>) {
    exists t: Shape :: t.Linked() && t.Describes(L, home, n, hole, out)
  }

  /** The chain invariant. */
  ghost predicate WellChained(L: seq<Link>, home: Rec -> nat, n: nat, hole: nat) {
    PartChained(L, home, n, hole, {})
  }

  function Datas(L: seq<Link>): (d: seq<Rec>)
    ensures |d| == |L| && forall i :: 0 <= i < |L| ==> d[i] == L[i].data
  {
    seq(|L|, i requires 0 <= i < |L| => L[i].data)
  }

  /** The stored records, the content of the hole not counted. */
  ghost function Bag(L: seq<Link>, hole: nat): multiset<Rec> {
    if hole < |L| then multiset(Datas(L)) - multiset{L[hole].data} else multiset(Datas(L))
  }

  lemma BagUpdate(L: seq<Link>, i: nat, l: Link)
    requires i < |L|
    ensures multiset(Datas(L[i := l])) == multiset(Datas(L)) - multiset{L[i].data} + multiset{l.data}
    ensures L[i].data in multiset(Datas(L))
  {
    assert Datas(L[i := l]) == Datas(L)[i := l.data];
    assert Datas(L)[i] in Datas(L);
  }

  /** A link change that keeps the record keeps the stored records. */
  lemma BagRelink(L: seq<Link>, g: nat, x: nat, hole: nat)
    requires g < |L|
    ensures Bag(L[g := Link(x, L[g].data)], hole) == Bag(L, hole)
  {
    assert Datas(L[g := Link(x, L[g].data)]) == Datas(L);
  }

  /** Copying the record of slot a into the hole makes slot a the hole. */
  lemma BagMove(L: seq<Link>, hole: nat, a: nat, l: Link)
    requires hole < |L| && a < |L| && a != hole && l.data == L[a].data
    ensures Bag(L[hole := l], a) == Bag(L, hole)
  {
    BagUpdate(L, hole, l);
  }

  /** Filling the hole adds one record. */
  lemma BagFill(L: seq<Link>, hole: nat, l: Link)
    requires hole < |L|
    ensures Bag(L[hole := l], |L|) == Bag(L, hole) + multiset{l.data}
  {
    BagUpdate(L, hole, l);
  }

  /** c lists, in order, the slots from i up to but not including `stop`. */
  ghost predicate Segment(L: seq<Link>, i: nat, c: seq<nat>, stop: nat)
    decreases |c|
  {
    if c == [] then i == stop
    else c[0] == i && i < |L| && Segment(L, L[i].next, c[1..], stop)
  }

  lemma {:induction false} SegmentFrame(L: seq<Link>, L': seq<Link>, i: nat, c: seq<nat>, stop: nat)
    requires Segment(L, i, c, stop) && |L| <= |L'|
    requires forall k :: k in c && k < |L| ==> L'[k].next == L[k].next
    ensures Segment(L', i, c, stop)
    decreases |c|
  {
    if c != [] {
      SegmentFrame(L, L', L[i].next, c[1..], stop);
    }
  }

  lemma {:induction false} SegmentSplit(L: seq<Link>, i: nat, c: seq<nat>, stop: nat, k: nat)
    requires Segment(L, i, c, stop) && k < |c|
    ensures Segment(L, i, c[..k], c[k]) && Segment(L, c[k], c[k..], stop)
    decreases k
  {
    if k == 0 {
      assert c[0..] == c;
    } else {
      SegmentSplit(L, L[i].next, c[1..], stop, k - 1);
      assert c[1..][..k - 1] == c[..k][1..];
      assert c[1..][k - 1..] == c[k..];
    }
  }

  ghost predicate Distinct(c: seq<nat>) {
    forall a, b :: 0 <= a < b < |c| ==> c[a] != c[b]
  }

  /** c lists exactly the used slots of bucket b, each once, in chain order from slot b. */
  ghost predicate ChainOf(L: seq<Link>, home: Rec -> nat, n: nat, hole: nat, b: nat, c: seq<nat>)
    requires n <= |L|
  {
    && Segment(L, b, c, NO_RECORD)
    && Distinct(c)
    && (forall i :: i in c <==> Used(n, hole, i) && home(L[i].data) == b)
  }

  lemma SeqBound(s: seq<nat>) returns (cap: nat)
    ensures forall i :: 0 <= i < |s| ==> s[i] < cap
  {
    if s == [] { return 0; }
    cap := SeqBound(s[1..]);
    assert forall i :: 1 <= i < |s| ==> s[i] == s[1..][i - 1];
    cap := cap + s[0] + 1;
  }

  lemma {:induction false} WalkDown(t: Shape, i: nat, cap: nat) returns (c: seq<nat>)
    requires t.Linked() && t.Used(i)
    requires forall k :: 0 <= k < |t.rank| ==> t.rank[k] < cap
    ensures |c| > 0 && c[0] == i && (t.next[i] == NO_RECORD ==> c == [i])
    ensures forall k :: k in c ==> t.Used(k) && t.home[k] == t.home[i]
    ensures forall k :: 0 <= k < |c| - 1 ==> c[k] < t.n && t.next[c[k]] == c[k + 1]
    ensures c[|c| - 1] < t.n && t.next[c[|c| - 1]] == NO_RECORD
    ensures forall j, k :: 0 <= j < k < |c| ==> c[j] < t.n && c[k] < t.n && t.rank[c[j]] < t.rank[c[k]]
    decreases cap - t.rank[i]
  {
    assert t.Ok(i);
    if t.next[i] == NO_RECORD {
      c := [i];
    } else {
      var c' := WalkDown(t, t.next[i], cap);
      c := [i] + c';
    }
  }

  lemma {:induction false} OnChain(t: Shape, i: nat, c: seq<nat>)
    requires t.Linked() && t.Used(i) && |c| > 0 && c[0] == t.home[i]
    requires forall k :: 0 <= k < |c| - 1 ==> c[k] < t.n && t.next[c[k]] == c[k + 1]
    requires c[|c| - 1] < t.n && t.next[c[|c| - 1]] == NO_RECORD
    ensures i in c
    decreases t.rank[i]
  {
    assert t.Ok(i);
    if i != t.home[i] {
      assert t.Ok(t.prev[i]);
      OnChain(t, t.prev[i], c);
      var k :| 0 <= k < |c| && c[k] == t.prev[i];
      assert c[k + 1] == i;
    }
  }

  lemma {:induction false} ChainIsSegment(L: seq<Link>, c: seq<nat>)
    requires |c| > 0 && forall k :: 0 <= k < |c| ==> c[k] < |L|
    requires forall k :: 0 <= k < |c| - 1 ==> L[c[k]].next == c[k + 1]
    requires L[c[|c| - 1]].next == NO_RECORD
    ensures Segment(L, c[0], c, NO_RECORD)
    decreases |c|
  {
    if |c| > 1 {
      ChainIsSegment(L, c[1..]);
    }
  }

  /** Main consequence of the invariant: following the links from a bucket's own slot visits
      exactly the records of that bucket, each once, and ends. */
  lemma ChainExists(L: seq<Link>, home: Rec -> nat, n: nat, hole: nat, b: nat) returns (c: seq<nat>)
    requires WellChained(L, home, n, hole)
    requires Used(n, hole, b) && b < |L| && home(L[b].data) == b
    ensures n <= |L| && ChainOf(L, home, n, hole, b, c)
  {
    var t: Shape :| t.Linked() && t.Describes(L, home, n, hole, {});
    var cap := SeqBound(t.rank);
    c := WalkDown(t, b, cap);
    forall i | Used(n, hole, i) && home(L[i].data) == b ensures i in c {
      OnChain(t, i, c);
    }
    ChainIsSegment(L, c);
  }

  /** A bucket with any record is headed by one of its own records at its own slot. */
  lemma HeadInPlace(L: seq<Link>, home: Rec -> nat, n: nat, hole: nat, i: nat)
    requires WellChained(L, home, n, hole) && Used(n, hole, i)
    ensures n <= |L| && n <= NO_RECORD
    ensures var h := home(L[i].data); Used(n, hole, h) && home(L[h].data) == h
    ensures L[i].next != NO_RECORD ==> Used(n, hole, L[i].next)
  {
    var t: Shape :| t.Linked() && t.Describes(L, home, n, hole, {});
    assert t.Ok(i);
  }

  /** A link leads to a record of the same bucket. */
  lemma NextSameHome(L: seq<Link>, home: Rec -> nat, n: nat, hole: nat, i: nat)
    requires WellChained(L, home, n, hole) && |L| == n && Used(n, hole, i) && L[i].next != NO_RECORD
    ensures Used(n, hole, L[i].next) && home(L[L[i].next].data) == home(L[i].data)
  {
    var t: Shape :| t.Linked() && t.Describes(L, home, n, hole, {});
    assert t.Ok(i);
  }

  /** Two home functions that agree on the stored records have the same chains. */
  lemma WellChainedSameHomes(L: seq<Link>, home: Rec -> nat, home': Rec -> nat, n: nat, hole: nat)
    requires WellChained(L, home, n, hole) && n <= |L|
    requires forall i :: Used(n, hole, i) ==> home'(L[i].data) == home(L[i].data)
    ensures WellChained(L, home', n, hole)
  {
    var t: Shape :| t.Linked() && t.Describes(L, home, n, hole, {});
    var u := t.(home := seq(|L|, i requires 0 <= i < |L| => home'(L[i].data)));
    forall i | u.Used(i) ensures u.Ok(i) {
      assert t.Ok(i);
    }
    assert u.Linked() && u.Describes(L, home', n, hole, {});
  }
}
