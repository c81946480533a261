/** What a tree holds: its keys and how often each was inserted. */
module RbContents {
  import opened RbShape
  import opened RbLinks
  import opened RbBalance
  import opened RbPath
  import opened RbInsertFixup
  import opened RbDescend

  ghost predicate Holds(t: Tree, k: int, i: Ref) {
    Live(t, i) && t.mem[i].key == k
  }

  ghost function Keys(t: Tree): set<int> {
    set i | i in t.mem && i != NIL :: t.mem[i].key
  }

  ghost function CountOf(t: Tree, k: int): (c: nat)
    requires k in Keys(t)
    ensures exists i :: Holds(t, k, i) && t.mem[i].count == c
  {
    assert exists i :: Holds(t, k, i) by {
      var i :| i in t.mem && i != NIL && t.mem[i].key == k;
      assert Holds(t, k, i);
    }
    var i :| Holds(t, k, i); t.mem[i].count
  }

  ghost function Contents(t: Tree): map<int, nat> {
    map k | k in Keys(t) :: CountOf(t, k)
  }

  lemma ContentsAt(t: Tree, a: map<Ref, Att>, i: Ref)
    requires Linked(t, a) && Live(t, i)
    ensures t.mem[i].key in Contents(t) && Contents(t)[t.mem[i].key] == t.mem[i].count
  {
    var k := t.mem[i].key;
    assert k in Keys(t);
    var j :| Holds(t, k, j) && CountOf(t, k) == t.mem[j].count;
    assert Holds(t, k, j);
    KeysDistinct(t, a, i, j);
  }

  /** A map that agrees with every node, and has no other keys, is the contents. */
  lemma ContentsAre(t: Tree, a: map<Ref, Att>, m: map<int, nat>)
    requires Linked(t, a)
    requires forall i {:trigger Live(t, i)} :: Live(t, i) ==> t.mem[i].key in m && m[t.mem[i].key] == t.mem[i].count
    requires forall k :: k in m ==> exists i :: Holds(t, k, i)
    ensures Contents(t) == m
  {
    forall k | k in m ensures k in Contents(t) && Contents(t)[k] == m[k] {
      var i :| Holds(t, k, i);
      assert Live(t, i);
      ContentsAt(t, a, i);
    }
    forall k | k in Contents(t) ensures k in m {
      var i :| i in t.mem && i != NIL && t.mem[i].key == k;
      assert Live(t, i);
    }
  }

  /** Rebalancing does not change the contents. */
  lemma SameContents(t: Tree, a: map<Ref, Att>, u: Tree, b: map<Ref, Att>)
    requires Linked(t, a) && Linked(u, b) && SameContent(t, u)
    ensures Contents(u) == Contents(t)
  {
    forall i | Live(u, i) ensures u.mem[i].key in Contents(t) && Contents(t)[u.mem[i].key] == u.mem[i].count {
      assert Live(t, i);
      ContentsAt(t, a, i);
    }
    forall k | k in Contents(t) ensures exists i :: Holds(u, k, i) {
      var i :| i in t.mem && i != NIL && t.mem[i].key == k;
      assert Holds(u, k, i);
    }
    ContentsAre(u, b, Contents(t));
  }

  /** One node for each key. */
  lemma {:induction false} ContentsSize(t: Tree, a: map<Ref, Att>)
    requires Linked(t, a)
    ensures |Contents(t)| == |t.mem| - 1
  {
    var live := t.mem.Keys - {NIL};
    assert |live| == |t.mem.Keys| - 1 == |t.mem| - 1;
    var ks := set i | i in live :: t.mem[i].key;
    assert ks == Keys(t) == Contents(t).Keys;
    KeyCount(t, a, live);
  }

  lemma {:induction false} KeyCount(t: Tree, a: map<Ref, Att>, s: set<Ref>)
    requires Linked(t, a) && s <= t.mem.Keys - {NIL}
    ensures |set i | i in s :: t.mem[i].key| == |s|
    decreases s
  {
    if s != {} {
      var j :| j in s;
      KeyCount(t, a, s - {j});
      var rest := set i | i in s - {j} :: t.mem[i].key;
      if t.mem[j].key in rest {
        var i :| i in s - {j} && t.mem[i].key == t.mem[j].key;
        KeysDistinct(t, a, i, j);
      }
      assert (set i | i in s :: t.mem[i].key) == rest + {t.mem[j].key};
    }
  }

  // ---------- the three changes ----------

  /** Below an empty slot there is no key: the one sought is not stored. */
  lemma NotBelow(t: Tree, a: map<Ref, Att>, s: Slot, key: int)
    requires Linked(t, a) && At(t, s) == NIL && Below(t, a, s, key)
    ensures key !in Contents(t)
  {
    Gap(t, a, s);
    var none := Inside(t, Lo(t, a, s), Hi(t, a, s));
    forall i | Live(t, i) ensures t.mem[i].key != key {
      assert i !in none;
    }
  }

  lemma Absent(t: Tree, a: map<Ref, Att>, ps: seq<Slot>, k: nat, key: int)
    requires WellFormed(t, a) && Descent(t, a, ps, k, NIL, key)
    ensures key !in Contents(t)
  {
    NotBelow(t, a, ps[k], key);
  }

  ghost function Hung(t: Tree, a: map<Ref, Att>, s: Slot, z: Ref): map<Ref, Att>
    requires s.Kid? ==> s.node in t.mem && s.node in a
  {
    a[z := Att(Owner(s), Lo(t, a, s), Hi(t, a, s), 0)]
  }

  lemma HangBal(t: Tree, a: map<Ref, Att>, s: Slot, z: Ref, key: int, u: Tree, b: map<Ref, Att>, i: Ref)
    requires Linked(t, a) && Balanced(t, a) && SlotOf(t, s) && At(t, s) == NIL && z !in t.mem && z != NULL
    requires u == Put(t.(mem := t.mem[z := Node(NIL, NIL, Red, 1, key)]), s, z)
    requires (s.Kid? ==> s.node in a) && b == Hung(t, a, s, z) && Live(u, i)
    ensures BalAt(u, b, s, 0, i)
  {
    if i != z { assert BalAt(t, a, RootSlot, 0, i) && NodeOk(t, a, i); }
  }

  lemma HangNodes(t: Tree, s: Slot, z: Ref, key: int, u: Tree)
    requires z !in t.mem && z != NIL && SlotOf(t, s)
    requires u == Put(t.(mem := t.mem[z := Node(NIL, NIL, Red, 1, key)]), s, z)
    ensures u.mem.Keys == t.mem.Keys + {z} && u.mem[z].key == key && u.mem[z].count == 1
    ensures forall i :: i in t.mem ==> u.mem[i].key == t.mem[i].key && u.mem[i].count == t.mem[i].count
  {
  }

  lemma HangContents(t: Tree, a: map<Ref, Att>, s: Slot, z: Ref, key: int, u: Tree, b: map<Ref, Att>)
    requires Linked(t, a) && Linked(u, b) && z !in t.mem && z != NIL && key !in Contents(t) && SlotOf(t, s)
    requires u == Put(t.(mem := t.mem[z := Node(NIL, NIL, Red, 1, key)]), s, z)
    ensures Contents(u) == Contents(t)[key := 1] && u.mem.Keys == t.mem.Keys + {z}
  {
    hide Linked, Put;
    HangNodes(t, s, z, key, u);
    var m := Contents(t)[key := 1];
    forall i | Live(u, i) ensures u.mem[i].key in m && m[u.mem[i].key] == u.mem[i].count {
      if i != z { assert Live(t, i); ContentsAt(t, a, i); }
    }
    forall k | k in m ensures exists i :: Holds(u, k, i) {
      if k == key {
        assert Holds(u, k, z);
      } else {
        var i :| i in t.mem && i != NIL && t.mem[i].key == k;
        assert Holds(u, k, i);
      }
    }
    ContentsAre(u, b, m);
  }

  /** A new red leaf z hangs in the empty slot. */
  lemma HangLeaf(t: Tree, a: map<Ref, Att>, ps: seq<Slot>, k: nat, key: int, z: Ref, u: Tree) returns (b: map<Ref, Att>)
    requires WellFormed(t, a) && Descent(t, a, ps, k, NIL, key) && z !in t.mem && z != NULL
    requires u == Put(t.(mem := t.mem[z := Node(NIL, NIL, Red, 1, key)]), ps[k], z)
    ensures InsertState(u, b, ps, k, z) && Contents(u) == Contents(t)[key := 1] && u.mem.Keys == t.mem.Keys + {z}
  {
    hide Linked, Balanced, Put, At, Path, Contents, Hung;
    Absent(t, a, ps, k, key);
    DescentEnds(t, a, ps, k, key);
    b := Hung(t, a, ps[k], z);
    HangFacts(t, a, ps[k], z, key, u, b);
    HangPath(t, a, ps, k, z, Node(NIL, NIL, Red, 1, key), u);
    HangContents(t, a, ps[k], z, key, u, b);
    forall i | Live(u, i) ensures BalAt(u, b, ps[k], 0, i) {
      HangBal(t, a, ps[k], z, key, u, b, i);
    }
  }

  lemma DescentEnds(t: Tree, a: map<Ref, Att>, ps: seq<Slot>, k: nat, key: int)
    requires WellFormed(t, a) && Descent(t, a, ps, k, NIL, key)
    ensures NIL in t.mem && k < |ps|
  {
  }

  lemma HangFacts(t: Tree, a: map<Ref, Att>, s: Slot, z: Ref, key: int, u: Tree, b: map<Ref, Att>)
    requires Linked(t, a) && Balanced(t, a) && SlotOf(t, s) && At(t, s) == NIL && z !in t.mem && z != NULL
    requires Below(t, a, s, key)
    requires u == Put(t.(mem := t.mem[z := Node(NIL, NIL, Red, 1, key)]), s, z)
    requires (s.Kid? ==> s.node in a) && b == Hung(t, a, s, z)
    ensures Linked(u, b) && At(u, s) == z && z in u.mem && u.mem[z].colour == Red
    ensures z != u.root ==> u.root in u.mem && u.mem[u.root].colour == Black
  {
    HangOk(t, a, s, z, Node(NIL, NIL, Red, 1, key), 0, u, b);
  }

  lemma HangPath(t: Tree, a: map<Ref, Att>, ps: seq<Slot>, k: nat, z: Ref, node: Node, u: Tree)
    requires Linked(t, a) && Path(t, ps, k) && At(t, ps[k]) == NIL && z !in t.mem && z != NULL
    requires u == Put(t.(mem := t.mem[z := node]), ps[k], z)
    ensures Path(u, ps, k)
  {
    forall j | 0 < j <= k ensures Step(u, ps, j) {
      assert Step(t, ps, j);
    }
  }

  /** A node has been taken out. */
  lemma Without(t: Tree, a: map<Ref, Att>, e: Ref, u: Tree, b: map<Ref, Att>)
    requires Linked(t, a) && Live(t, e) && Linked(u, b) && SameContent(Free(t, e), u)
    ensures t.mem[e].key in Contents(t) && Contents(u) == Contents(t) - {t.mem[e].key} && |u.mem| == |t.mem| - 1
  {
    var m := Contents(t) - {t.mem[e].key};
    ContentsAt(t, a, e);
    forall i | Live(u, i) ensures u.mem[i].key in m && m[u.mem[i].key] == u.mem[i].count {
      assert Live(t, i);
      ContentsAt(t, a, i);
      if t.mem[i].key == t.mem[e].key { KeysDistinct(t, a, i, e); }
    }
    forall k | k in m ensures exists i :: Holds(u, k, i) {
      var i :| i in t.mem && i != NIL && t.mem[i].key == k;
      assert Holds(u, k, i);
    }
    ContentsAre(u, b, m);
    assert u.mem.Keys == t.mem.Keys - {e};
    assert |u.mem.Keys| == |t.mem.Keys| - 1;
  }

  /** A node has been counted once more. */
  lemma Recounting(t: Tree, a: map<Ref, Att>, e: Ref, c: nat)
    requires WellFormed(t, a) && Live(t, e)
    ensures var u := t.(mem := t.mem[e := t.mem[e].(count := c)]);
            WellFormed(u, a) && Contents(u) == Contents(t)[t.mem[e].key := c]
  {
    var u := t.(mem := t.mem[e := t.mem[e].(count := c)]);
    assert |u.mem| == |t.mem| by { assert u.mem.Keys == t.mem.Keys; }
    forall i | Live(u, i) ensures NodeOk(u, a, i) && BalAt(u, a, RootSlot, 0, i) {
      assert NodeOk(t, a, i) && BalAt(t, a, RootSlot, 0, i);
    }
    RecountContents(t, a, e, c, u);
  }

  lemma RecountContents(t: Tree, a: map<Ref, Att>, e: Ref, c: nat, u: Tree)
    requires Linked(t, a) && Live(t, e) && u == t.(mem := t.mem[e := t.mem[e].(count := c)]) && Linked(u, a)
    ensures Contents(u) == Contents(t)[t.mem[e].key := c]
  {
    var m := Contents(t)[t.mem[e].key := c];
    forall i | Live(u, i) ensures u.mem[i].key in m && m[u.mem[i].key] == u.mem[i].count {
      assert Live(t, i);
      ContentsAt(t, a, i);
      if t.mem[i].key == t.mem[e].key { KeysDistinct(t, a, i, e); }
    }
    forall k | k in m ensures exists i :: Holds(u, k, i) {
      ContentsAt(t, a, e);
      assert k in Contents(t);
      var i :| i in t.mem && i != NIL && t.mem[i].key == k;
      assert Holds(u, k, i);
    }
    ContentsAre(u, a, m);
  }

  const EMPTY := Tree(NIL, map[NIL := SENTINEL])

  lemma EmptyOk()
    ensures WellFormed(EMPTY, map[NIL := Att(NULL, NegInf, PosInf, 0)]) && Contents(EMPTY) == map[] && |EMPTY.mem| == 1
  {
    assert Keys(EMPTY) == {};
  }
}
