/** The pointer surgery of insert, delete and update on the shape of a table alone: each lemma
    takes a linked shape t to the shape u after one rewriting. */
module ShapeOps {
  import opened Chains

  /** The slot after a moved or unlinked one gets p as its predecessor. */
  ghost function Follow(prev: seq<nat>, next: nat, p: nat): (prev': seq<nat>)
    ensures |prev'| == |prev|
  {
    if next < |prev| then prev[next := p] else prev
  }

  lemma UnlinkInner(t: Shape, u: Shape, g: nat, p: nat)
    requires t.Linked() && t.hole == t.n && t.Used(g) && t.Used(p) && t.next[g] == p
    requires u.n == t.n && u.hole == p && u.next == t.next[g := t.next[p]]
    requires u.home == t.home && u.rank == t.rank && u.prev == Follow(t.prev, t.next[p], g)
    requires u.out == t.out == {}
    ensures u.Linked()
  {
    assert t.Ok(g) && t.Ok(p);
    forall i | u.Used(i) ensures u.Ok(i) {
      if i != t.hole {
        assert t.Ok(i);
        assert i == t.home[i] || t.Ok(t.prev[i]);
      }
      assert u.HeadOk(i);
      assert u.PrevOk(i);
      assert u.NextOk(i);
    }
  }

  lemma UnlinkHead(t: Shape, u: Shape, p: nat, q: nat)
    requires t.Linked() && t.hole == t.n && t.Used(p) && t.Used(q) && t.home[p] == p && t.next[p] == q
    requires u.n == t.n && u.hole == q && u.next == t.next[p := t.next[q]]
    requires u.home == t.home && u.rank == t.rank && u.prev == Follow(t.prev, t.next[q], p)
    requires u.out == t.out == {}
    ensures u.Linked()
  {
    assert t.Ok(p) && t.Ok(q);
    forall i | u.Used(i) ensures u.Ok(i) {
      if i != t.hole {
        assert t.Ok(i);
        assert i == t.home[i] || t.Ok(t.prev[i]);
      }
      assert u.HeadOk(i);
      assert u.PrevOk(i);
      assert u.NextOk(i);
    }
  }

  lemma Relocate(t: Shape, u: Shape, g: nat, a: nat)
    requires t.Linked() && t.hole < t.n && t.Used(g) && t.Used(a) && t.next[g] == a
    requires u.n == t.n && u.hole == a && u.next == t.next[t.hole := t.next[a]][g := t.hole]
    requires u.home == t.home[t.hole := t.home[a]] && u.rank == t.rank[t.hole := t.rank[a]]
    requires u.prev == Follow(t.prev[t.hole := g], t.next[a], t.hole)
    requires u.out == t.out == {}
    ensures u.Linked()
  {
    assert t.Ok(g) && t.Ok(a);
    forall i | u.Used(i) ensures u.Ok(i) {
      if i != t.hole {
        assert t.Ok(i);
        assert i == t.home[i] || t.Ok(t.prev[i]);
      }
      assert u.HeadOk(i);
      assert u.PrevOk(i);
      assert u.NextOk(i);
    }
  }

  lemma PlacePush(t: Shape, u: Shape, pos: nat)
    requires t.Linked() && t.hole < t.n && t.Used(pos) && t.home[pos] == pos
    requires u.n == u.hole == t.n && u.next == t.next[t.hole := t.next[pos]][pos := t.hole]
    requires u.home == t.home[t.hole := pos] && |u.rank| == |t.rank|
    requires forall i :: 0 <= i < |t.rank| ==>
      u.rank[i] == if i == pos then 0 else if i == t.hole then t.rank[pos] + 1 else t.rank[i] + 1
    requires u.prev == Follow(t.prev[t.hole := pos], t.next[pos], t.hole)
    requires u.out == t.out == {}
    ensures u.Linked()
  {
    assert t.Ok(pos);
    forall i | u.Used(i) ensures u.Ok(i) {
      if i != t.hole {
        assert t.Ok(i);
        assert i == t.home[i] || t.Ok(t.prev[i]);
      }
      assert u.HeadOk(i);
      assert u.PrevOk(i);
      assert u.NextOk(i);
    }
  }

  lemma PlaceAfter(t: Shape, u: Shape, pos: nat)
    requires t.Linked() && t.hole < t.n && t.Used(pos) && t.home[pos] == pos
    requires u.n == u.hole == t.n && u.next == t.next[t.hole := t.next[pos]][pos := t.hole]
    requires u.home == t.home[t.hole := pos] && |u.rank| == |t.rank|
    requires forall i :: 0 <= i < |t.rank| ==>
      u.rank[i] == if i == t.hole then 2 * t.rank[pos] + 1 else 2 * t.rank[i]
    requires u.prev == Follow(t.prev[t.hole := pos], t.next[pos], t.hole)
    requires u.out == t.out == {}
    ensures u.Linked()
  {
    assert t.Ok(pos);
    forall i | u.Used(i) ensures u.Ok(i) {
      if i != t.hole {
        assert t.Ok(i);
        assert i == t.home[i] || t.Ok(t.prev[i]);
      }
      assert u.HeadOk(i);
      assert u.PrevOk(i);
      assert u.NextOk(i);
    }
  }

  /** The buckets after bucket m has been merged into bucket b. */
  ghost function Merged(home: seq<nat>, m: nat, b: nat): (home': seq<nat>)
    ensures |home'| == |home|
    ensures forall i :: 0 <= i < |home| ==> home'[i] == if home[i] == m then b else home[i]
  {
    seq(|home|, i requires 0 <= i < |home| => if home[i] == m then b else home[i])
  }

  lemma MergeMoveHead(t: Shape, u: Shape, b: nat)
    requires t.Linked() && t.hole == b && b < u.n == t.n - 1 && t.home[u.n] == u.n
    requires u.hole == u.n && u.next == t.next[b := t.next[u.n]]
    requires u.home == Merged(t.home[b := u.n], u.n, b) && u.rank == t.rank[b := t.rank[u.n]]
    requires u.prev == Follow(t.prev, t.next[u.n], b)
    requires u.out == t.out == {}
    ensures u.Linked()
  {
    assert t.Ok(u.n);
    forall i | u.Used(i) ensures u.Ok(i) {
      if i != t.hole {
        assert t.Ok(i);
        assert i == t.home[i] || t.Ok(t.prev[i]);
      }
      assert u.HeadOk(i);
      assert u.PrevOk(i);
      assert u.NextOk(i);
    }
  }

  /** Bucket e becomes bucket b, whose slot holds an inner record of bucket e, behind slot g:
      slot b is linked to the front. */
  ghost predicate IsPromotion(t: Shape, u: Shape, b: nat, e: nat, g: nat) {
    && t.Linked() && t.hole >= t.n && b < t.n && e < t.n && g < t.n && b != e
    && t.home[e] == e == t.home[b] && t.next[g] == b
    && u.n == t.n && u.hole == t.hole && u.next == t.next[g := t.next[b]][b := e]
    && u.home == Merged(t.home, e, b) && |u.rank| == |t.rank|
    && (forall i :: 0 <= i < |t.rank| ==> u.rank[i] == if i == b then 0 else t.rank[i] + 1)
    && u.prev == Follow(t.prev, t.next[b], g)[e := b]
    && u.out == t.out == {}
  }

  lemma PromoteNext(t: Shape, u: Shape, b: nat, e: nat, g: nat, i: nat)
    requires IsPromotion(t, u, b, e, g) && u.Used(i)
    ensures u.Sized() && u.HeadOk(i) && u.NextOk(i)
  {
    assert t.Ok(e) && t.Ok(b) && t.Ok(g) && t.Ok(i);
  }

  lemma PromotePrev(t: Shape, u: Shape, b: nat, e: nat, g: nat, i: nat)
    requires IsPromotion(t, u, b, e, g) && u.Used(i)
    ensures u.Sized() && u.PrevOk(i)
  {
    assert t.Ok(e) && t.Ok(b) && t.Ok(g) && t.Ok(i);
    assert i == t.home[i] || t.Ok(t.prev[i]);
  }

  lemma Promote(t: Shape, u: Shape, b: nat, e: nat, g: nat)
    requires IsPromotion(t, u, b, e, g)
    ensures u.Linked()
  {
    forall i | u.Used(i) ensures u.Ok(i) {
      PromoteNext(t, u, b, e, g, i);
      PromotePrev(t, u, b, e, g, i);
    }
  }

  /** The chain of bucket e, which ends at slot z, put between the head of bucket b and its rest. */
  ghost predicate IsSplice(t: Shape, u: Shape, b: nat, e: nat, z: nat, cap: nat) {
    && t.Linked() && t.hole >= t.n && b < t.n && e < t.n && z < t.n && b != e
    && t.home[e] == e && t.home[b] == b && t.home[z] == e && t.next[z] == NO_RECORD
    && (forall i :: 0 <= i < |t.rank| ==> t.rank[i] < cap)
    && u.n == t.n && u.hole == t.hole && u.next == t.next[z := t.next[b]][b := e]
    && u.home == Merged(t.home, e, b) && |u.rank| == |t.rank|
    && (forall i :: 0 <= i < |t.rank| ==>
          u.rank[i] == if i == b then 0 else if t.home[i] == b then t.rank[i] + cap + 1 else t.rank[i] + 1)
    && u.prev == Follow(t.prev, t.next[b], z)[e := b]
    && u.out == t.out == {}
  }

  lemma SpliceNext(t: Shape, u: Shape, b: nat, e: nat, z: nat, cap: nat, i: nat)
    requires IsSplice(t, u, b, e, z, cap) && u.Used(i)
    ensures u.NextOk(i)
  {
    assert t.Ok(e) && t.Ok(b) && t.Ok(z) && t.Ok(i);
    if t.next[i] != NO_RECORD { assert t.Ok(t.next[i]); }
  }

  lemma SplicePrev(t: Shape, u: Shape, b: nat, e: nat, z: nat, cap: nat, i: nat)
    requires IsSplice(t, u, b, e, z, cap) && u.Used(i)
    ensures u.HeadOk(i) && u.PrevOk(i)
  {
    assert t.Ok(e) && t.Ok(b) && t.Ok(z) && t.Ok(i);
    if i != t.home[i] { assert t.Ok(t.prev[i]); }
  }

  lemma Splice(t: Shape, u: Shape, b: nat, e: nat, z: nat, cap: nat)
    requires IsSplice(t, u, b, e, z, cap)
    ensures u.Linked()
  {
    forall i | u.Used(i) ensures u.Ok(i) {
      SpliceNext(t, u, b, e, z, cap, i);
      SplicePrev(t, u, b, e, z, cap, i);
    }
  }

  /** The record of slot s, taken out before, starts a chain at the hole; s becomes the hole. */
  lemma StartAtHole(t: Shape, u: Shape, s: nat)
    requires t.Linked() && s in t.out && s < t.n && t.hole < t.n && t.hole !in t.out
    requires u.n == t.n && u.hole == s && u.out == t.out - {s}
    requires u.next == t.next[t.hole := NO_RECORD] && u.home == t.home[t.hole := t.hole]
    requires u.prev == t.prev && u.rank == t.rank
    ensures u.Linked()
  {
    forall i | u.Used(i) ensures u.Ok(i) {
      if i != t.hole { assert t.Ok(i); }
      assert u.HeadOk(i);
      assert u.PrevOk(i);
      assert u.NextOk(i);
    }
  }

  /** The record of slot s, taken out before, joins the chain that ends at slot g. */
  lemma Append(t: Shape, u: Shape, g: nat, s: nat)
    requires t.Linked() && s in t.out && s < t.n && s != t.hole && t.Used(g)
    requires t.next[g] == NO_RECORD && t.home[g] == t.home[s]
    requires u.n == t.n && u.hole == t.hole && u.out == t.out - {s} && u.home == t.home
    requires u.next == t.next[g := s][s := NO_RECORD] && u.prev == t.prev[s := g]
    requires u.rank == t.rank[s := t.rank[g] + 1]
    ensures u.Linked()
  {
    assert t.Ok(g);
    forall i | u.Used(i) ensures u.Ok(i) {
      if i != s {
        assert t.Ok(i);
        if i != t.home[i] { assert t.Ok(t.prev[i]); }
      }
      assert u.HeadOk(i);
      assert u.PrevOk(i);
      assert u.NextOk(i);
    }
  }
}
