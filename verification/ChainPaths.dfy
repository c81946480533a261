/** Paths along a chain, for the loops that walk one. */
module ChainPaths {
  import opened Chains

  /** The part of a chain in front of slot a, which is not its head; g is the slot before a. */
  lemma PathTo(L: seq<Link>, home: Rec -> nat, n: nat, hole: nat, a: nat) returns (g: nat, path: seq<nat>)
    requires WellChained(L, home, n, hole) && n <= |L| && Used(n, hole, a) && home(L[a].data) != a
    ensures Segment(L, home(L[a].data), path, a) && path != [] && path[|path| - 1] == g && a !in path
    ensures forall i :: i in path ==> Used(n, hole, i) && home(L[i].data) == home(L[a].data)
    ensures g < |L| && L[g].next == a
    ensures Distinct(path)
  {
    HeadInPlace(L, home, n, hole, a);
    var b := home(L[a].data);
    var c := ChainExists(L, home, n, hole, b);
    var k :| 0 <= k < |c| && c[k] == a;
    SegmentSplit(L, b, c, NO_RECORD, k);
    path := c[..k];
    assert k > 0 by { assert c[0] == b; }
    g := path[k - 1];
    assert g in path;
    SegmentLast(L, b, path, a);
    forall i | i in path ensures i in c {}
  }

  lemma {:induction false} SegmentLast(L: seq<Link>, b: nat, path: seq<nat>, stop: nat)
    requires Segment(L, b, path, stop) && path != []
    ensures path[|path| - 1] < |L| && L[path[|path| - 1]].next == stop
    decreases |path|
  {
    if |path| > 1 {
      SegmentLast(L, L[b].next, path[1..], stop);
    }
  }

  /** From any used slot the links lead to an end. */
  lemma SegmentFrom(L: seq<Link>, home: Rec -> nat, n: nat, hole: nat, i: nat) returns (c: seq<nat>)
    requires WellChained(L, home, n, hole) && n <= |L| && Used(n, hole, i)
    ensures Segment(L, i, c, NO_RECORD) && c != [] && NO_RECORD !in c
    ensures forall k :: k in c ==> Used(n, hole, k) && home(L[k].data) == home(L[i].data)
    ensures home(L[i].data) == i ==> ChainOf(L, home, n, hole, i, c)
  {
    HeadInPlace(L, home, n, hole, i);
    var b := home(L[i].data);
    c := ChainExists(L, home, n, hole, b);
    var c' := c;
    var k :| 0 <= k < |c| && c[k] == i;
    SegmentSplit(L, b, c, NO_RECORD, k);
    c := c[k..];
    forall j | j in c ensures j in c' {}
    if b == i {
      assert c'[0] == i;
      assert k == 0;
      assert c == c';
    }
  }

  /** The head of a path copied to a free slot e: the same path, now from e. */
  lemma MovedStart(L: seq<Link>, m: nat, path: seq<nat>, stop: nat, e: nat)
    requires Segment(L, m, path, stop) && path != [] && e < |L| && e !in path
    requires Distinct(path)
    ensures Segment(L[e := L[m]], e, [e] + path[1..], stop)
    ensures m !in path[1..]
  {
    SegmentFrame(L, L[e := L[m]], L[m].next, path[1..], stop);
    assert ([e] + path[1..])[1..] == path[1..];
  }
}
