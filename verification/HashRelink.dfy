/**
 Putting a record whose key has changed into its new chain.

 The record pointer may be stored more than once. Its other copies then stay in the chain of the
 old key, although their key has changed too.
 */
module HashRelink {
  import opened Chains
  import opened Homes
  import opened HashLoops
  import opened HashSteps
  import Ops = ChainOps

  /** The keys of the records when `record` holds `key` and all others are as in keyOf. */
  ghost function WithKey(keyOf: Rec -> Key, record: Rec, key: Key): Rec -> Key {
    (r: Rec) => if r == record then key else keyOf(r)
  }

  lemma DatasIn(L: seq<Link>, r: Rec)
    ensures r in multiset(Datas(L)) <==> exists i :: 0 <= i < |L| && L[i].data == r
  {
    if r in multiset(Datas(L)) {
      assert r in Datas(L);
    }
    if i :| 0 <= i < |L| && L[i].data == r {
      assert Datas(L)[i] in Datas(L);
    }
  }

  /** A record in a used slot is among the stored ones. */
  lemma UsedInBag(L: seq<Link>, hole: nat, i: nat)
    requires i < |L| && i != hole
    ensures L[i].data in Bag(L, hole)
  {
    if hole < |L| {
      var l := Link(0, L[i].data + 1);
      BagUpdate(L, hole, l);
      DatasIn(L[hole := l], L[i].data);
      assert L[hole := l][i].data == L[i].data;
    } else {
      DatasIn(L, L[i].data);
    }
  }

  lemma HomeUnchanged(hashOf: Key -> nat, keyOf: Rec -> Key, b: nat, n: nat, record: Rec, old_key: Key, r: Rec)
    requires r != record || HomeOf(hashOf(old_key), b, n) == HomeOf(hashOf(keyOf(record)), b, n)
    ensures HomeFn(hashOf, WithKey(keyOf, record, old_key), b, n)(r) == HomeFn(hashOf, keyOf, b, n)(r)
  {
    hide HomeOf;
  }

  /** With the record gone, its change of key no longer matters. */
  lemma ForgetOldKey(L: seq<Link>, hashOf: Key -> nat, keyOf: Rec -> Key, b: nat, n: nat, hole: nat, record: Rec,
                     old_key: Key)
    requires n == |L| && WellChained(L, HomeFn(hashOf, WithKey(keyOf, record, old_key), b, n), n, hole)
    requires record !in Bag(L, hole)
    ensures WellChained(L, HomeFn(hashOf, keyOf, b, n), n, hole)
  {
    hide PartChained, Bag, HomeOf, HomeFn, WithKey;
    var home, home' := HomeFn(hashOf, WithKey(keyOf, record, old_key), b, n), HomeFn(hashOf, keyOf, b, n);
    forall i | Used(n, hole, i) ensures home'(L[i].data) == home(L[i].data) {
      UsedInBag(L, hole, i);
      HomeUnchanged(hashOf, keyOf, b, n, record, old_key, L[i].data);
    }
    WellChainedSameHomes(L, home, home', n, hole);
  }

  // ---------- links determine homes ----------

  /** From the links of t, whose hole is filled, come those of u: each is kept, or leads by way of the
      filled slot. */
  ghost predicate Extends(t: Shape, u: Shape) {
    && t.Linked() && u.Linked() && t.out == {} == u.out && t.hole < t.n == u.n == u.hole
    && (forall p {:trigger t.next[p]} :: t.Used(p) ==>
          u.next[p] == t.next[p] || (u.next[p] == t.hole && u.next[t.hole] == t.next[p]))
    && (u.next[t.hole] != NO_RECORD ==> exists p :: t.Used(p) && t.next[p] == u.next[t.hole])
  }

  /** Nothing leads to the head of a chain. */
  lemma NothingToHead(t: Shape, p: nat, i: nat)
    requires t.Linked() && t.Used(p) && t.Used(i) && t.home[i] == i
    ensures t.next[p] != i
  {
    assert t.Ok(p) && t.Ok(i);
  }

  /** So every record that t has keeps its home. */
  lemma {:induction false} HomesKept(t: Shape, u: Shape, i: nat)
    requires Extends(t, u) && t.Used(i)
    ensures u.home[i] == t.home[i]
    decreases t.rank[i]
  {
    assert t.Ok(i) && u.Ok(i);
    if t.home[i] == i {
      if u.home[i] != i {
        var q := u.prev[i];
        if q == t.hole {
          var p :| t.Used(p) && t.next[p] == i;
          NothingToHead(t, p, i);
        } else {
          NothingToHead(t, q, i);
        }
      }
    } else {
      var p := t.prev[i];
      assert t.Ok(p) && u.Ok(p);
      HomesKept(t, u, p);
      if u.next[p] == t.hole { assert u.Ok(t.hole); }
    }
  }

  /** The links of M are those of L, whose hole is filled: each is kept, or leads by way of that slot. */
  ghost predicate Filled(L: seq<Link>, M: seq<Link>, n: nat, hole: nat) {
    && |L| == |M| == n && hole < n
    && (forall p :: 0 <= p < n && p != hole ==>
          M[p].data == L[p].data && (M[p].next == L[p].next || (M[p].next == hole && M[hole].next == L[p].next)))
    && (M[hole].next != NO_RECORD ==> exists p :: 0 <= p < n && p != hole && L[p].next == M[hole].next)
  }

  /** A record that has another home now cannot have stayed where it is. */
  lemma StrayRecord(L: seq<Link>, M: seq<Link>, home: Rec -> nat, home': Rec -> nat, n: nat, hole: nat, record: Rec)
    requires WellChained(L, home, n, hole) && Filled(L, M, n, hole)
    requires record in Bag(L, hole) && home(record) != home'(record)
    ensures !WellChained(M, home', n, n)
  {
    if WellChained(M, home', n, n) {
      var t: Shape :| t.Linked() && t.Describes(L, home, n, hole, {});
      var u: Shape :| u.Linked() && u.Describes(M, home', n, n, {});
      var i := BagSlot(L, hole, record);
      assert t.Used(i);
      HomesKept(t, u, i);
      assert false;
    }
  }

  /** The slot of a stored record. */
  lemma BagSlot(L: seq<Link>, hole: nat, record: Rec) returns (i: nat)
    requires record in Bag(L, hole) && hole < |L|
    ensures i < |L| && i != hole && L[i].data == record
  {
    if L[hole].data == record {
      var l := Link(0, record + 1);
      BagUpdate(L, hole, l);
      DatasIn(L[hole := l], record);
      i :| 0 <= i < |L| && L[hole := l][i].data == record;
    } else {
      DatasIn(L, record);
      i :| 0 <= i < |L| && L[i].data == record;
    }
  }

  // ---------- the record comes into its new chain ----------

  /** The record has left the chain of its old key, and its new home is another one; slot hole is free. */
  ghost predicate Relinking(L: seq<Link>, hashOf: Key -> nat, keyOf: Rec -> Key, b: nat, n: nat, hole: nat,
                            record: Rec, old_key: Key)
  {
    && hole < n == |L| && WellChained(L, HomeFn(hashOf, WithKey(keyOf, record, old_key), b, n), n, hole)
    && HomeOf(hashOf(old_key), b, n) != HomeOf(hashOf(keyOf(record)), b, n)
  }

  /** The table M has the record back; it is well chained unless a copy stayed in the old chain. */
  ghost predicate Relinked(L: seq<Link>, M: seq<Link>, hashOf: Key -> nat, keyOf: Rec -> Key, b: nat, n: nat, hole: nat,
                           record: Rec)
  {
    && |M| == n && Bag(M, n) == Bag(L, hole) + multiset{record}
    && (WellChained(M, HomeFn(hashOf, keyOf, b, n), n, n) <==> record !in Bag(L, hole))
  }

  lemma TwoHomes(hashOf: Key -> nat, keyOf: Rec -> Key, b: nat, n: nat, record: Rec, old_key: Key)
    ensures HomeFn(hashOf, WithKey(keyOf, record, old_key), b, n)(record) == HomeOf(hashOf(old_key), b, n)
    ensures HomeFn(hashOf, keyOf, b, n)(record) == HomeOf(hashOf(keyOf(record)), b, n)
  {
    hide HomeOf;
  }

  /** The free slot is the new home: the record becomes a chain of its own there. */
  lemma PlaceAlone(L: seq<Link>, hashOf: Key -> nat, keyOf: Rec -> Key, b: nat, n: nat, hole: nat, record: Rec,
                   old_key: Key)
    requires Relinking(L, hashOf, keyOf, b, n, hole, record, old_key) && hole == HomeOf(hashOf(keyOf(record)), b, n)
    ensures Relinked(L, L[hole := Link(NO_RECORD, record)], hashOf, keyOf, b, n, hole, record)
  {
    hide PartChained, Bag, HomeOf, HomeFn, WithKey;
    var M := L[hole := Link(NO_RECORD, record)];
    TwoHomes(hashOf, keyOf, b, n, record, old_key);
    BagFill(L, hole, M[hole]);
    if record in Bag(L, hole) {
      var home := HomeFn(hashOf, WithKey(keyOf, record, old_key), b, n);
      StrayRecord(L, M, home, HomeFn(hashOf, keyOf, b, n), n, hole, record);
    } else {
      ForgetOldKey(L, hashOf, keyOf, b, n, hole, record, old_key);
      Ops.PlaceHead(L, HomeFn(hashOf, keyOf, b, n), n, hole, record);
    }
  }

  /** The new home holds a record that looks at home there: the record comes behind it. */
  lemma PlaceSecond(L: seq<Link>, hashOf: Key -> nat, keyOf: Rec -> Key, b: nat, n: nat, hole: nat, pos: nat,
                    record: Rec, old_key: Key)
    requires Relinking(L, hashOf, keyOf, b, n, hole, record, old_key) && Used(n, hole, pos)
    requires pos == HomeOf(hashOf(keyOf(record)), b, n) == HomeOf(hashOf(keyOf(L[pos].data)), b, n)
    ensures Relinked(L, Ops.LinkedAfter(L, hole, pos, record), hashOf, keyOf, b, n, hole, record)
  {
    hide PartChained, Bag, HomeOf, HomeFn, WithKey;
    var M := Ops.LinkedAfter(L, hole, pos, record);
    TwoHomes(hashOf, keyOf, b, n, record, old_key);
    BagFill(L, hole, M[hole]);
    BagRelink(L[hole := M[hole]], pos, hole, n);
    if record in Bag(L, hole) {
      var home := HomeFn(hashOf, WithKey(keyOf, record, old_key), b, n);
      StrayRecord(L, M, home, HomeFn(hashOf, keyOf, b, n), n, hole, record);
    } else {
      ForgetOldKey(L, hashOf, keyOf, b, n, hole, record, old_key);
      HomeFnAt(hashOf, keyOf, b, n, L[pos].data);
      Ops.PlaceAfter(L, HomeFn(hashOf, keyOf, b, n), n, hole, pos, record);
    }
  }

  /** Update, after the record was unlinked: it goes to its new home, or behind the record there. */
  method RelinkRecord(links: seq<Link>, hashOf: Key -> nat, keyOf: Rec -> Key, b: nat, n: nat, empty: nat,
                      record: Rec, new_index: nat, ghost old_key: Key)
    returns (links': seq<Link>)
    requires Relinking(links, hashOf, keyOf, b, n, empty, record, old_key)
    requires new_index == HomeOf(hashOf(keyOf(record)), b, n) < n
    ensures Relinked(links, links', hashOf, keyOf, b, n, empty, record)
    ensures links'[new_index].data ==
      if new_index != empty && HomeOf(hashOf(keyOf(links[new_index].data)), b, n) == new_index
      then links[new_index].data else record
  {
    hide PartChained, Segment, Bag, Datas, HomeOf, HomeFn, WithKey;
    if new_index == empty {
      links' := links[empty := Link(NO_RECORD, record)];
      PlaceAlone(links, hashOf, keyOf, b, n, empty, record, old_key);
      return;
    }
    var pos := new_index;
    var new_pos_index := HomeOf(hashOf(keyOf(links[pos].data)), b, n);
    if new_index != new_pos_index {
      // a foreign record makes room
      HomeUnchanged(hashOf, keyOf, b, n, record, old_key, links[pos].data);
      HomeFnAt(hashOf, keyOf, b, n, links[pos].data);
      ghost var g, path := MakeRoom(links, HomeFn(hashOf, WithKey(keyOf, record, old_key), b, n), n, empty, pos);
      links' := links[empty := links[pos]];
      links' := MoveLink(links', new_index, new_pos_index, empty, path);
      assert links' == links[empty := links[pos]][g := Link(empty, links[g].data)];
      PlaceAlone(links', hashOf, keyOf, b, n, new_index, record, old_key);
      links' := links'[new_index := Link(NO_RECORD, record)];
    } else {
      PlaceSecond(links, hashOf, keyOf, b, n, empty, pos, record, old_key);
      links' := links[empty := Link(links[new_index].next, record)];
      links' := links'[new_index := Link(empty, links'[new_index].data)];
    }
  }
}
