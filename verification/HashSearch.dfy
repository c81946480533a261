/** Looking up the records of one key along its chain. */
module HashSearch {
  import opened BitMask
  import opened Chains
  import opened ChainPaths
  import opened Homes

  /** The slots from i to the end of its chain. */
  ghost function ChainFrom(L: seq<Link>, i: nat): seq<nat> {
    if exists c :: Segment(L, i, c, NO_RECORD) then
      var c :| Segment(L, i, c, NO_RECORD); c
    else []
  }

  lemma {:induction false} SegmentUnique(L: seq<Link>, i: nat, c: seq<nat>, c': seq<nat>)
    requires Segment(L, i, c, NO_RECORD) && Segment(L, i, c', NO_RECORD) && |L| <= NO_RECORD
    ensures c == c'
    decreases |c|
  {
    if c != [] {
      SegmentUnique(L, L[i].next, c[1..], c'[1..]);
      assert c == [i] + c[1..] && c' == [i] + c'[1..];
    }
  }

  lemma ChainFromIs(L: seq<Link>, i: nat, c: seq<nat>)
    requires Segment(L, i, c, NO_RECORD) && |L| <= NO_RECORD
    ensures ChainFrom(L, i) == c
  {
    SegmentUnique(L, i, c, ChainFrom(L, i));
  }

  /** The slots of c whose record has the key, in order. */
  ghost function Matching(L: seq<Link>, keyOf: Rec -> Key, key: Key, c: seq<nat>): seq<nat> {
    if c == [] then []
    else if c[0] < |L| && keyOf(L[c[0]].data) == key then [c[0]] + Matching(L, keyOf, key, c[1..])
    else Matching(L, keyOf, key, c[1..])
  }

  ghost function FirstOf(s: seq<nat>): nat {
    if s == [] then NO_RECORD else s[0]
  }

  lemma {:induction false} MatchingIn(L: seq<Link>, keyOf: Rec -> Key, key: Key, c: seq<nat>)
    ensures forall i: nat :: i in Matching(L, keyOf, key, c) <==> i in c && i < |L| && keyOf(L[i].data) == key
    decreases |c|
  {
    if c != [] {
      MatchingIn(L, keyOf, key, c[1..]);
      assert c == [c[0]] + c[1..];
    }
  }

  lemma {:induction false} MatchingDistinct(L: seq<Link>, keyOf: Rec -> Key, key: Key, c: seq<nat>)
    requires Distinct(c)
    ensures Distinct(Matching(L, keyOf, key, c))
    decreases |c|
  {
    if c != [] {
      assert forall a, b :: 0 <= a < b < |c[1..]| ==> c[1..][a] == c[a + 1] && c[1..][b] == c[b + 1];
      MatchingDistinct(L, keyOf, key, c[1..]);
      MatchingIn(L, keyOf, key, c[1..]);
      var rest := Matching(L, keyOf, key, c[1..]);
      forall k | 0 <= k < |rest| ensures rest[k] != c[0] {
        assert rest[k] in rest;
        var a :| 0 <= a < |c[1..]| && c[1..][a] == rest[k];
        assert c[a + 1] == rest[k];
      }
    }
  }

  /** Behind its k-th match the chain holds the matches from k+1 on. */
  lemma {:induction false} MatchingAfter(L: seq<Link>, keyOf: Rec -> Key, key: Key, i: nat, c: seq<nat>, k: nat)
    returns (d: seq<nat>)
    requires Segment(L, i, c, NO_RECORD) && k < |Matching(L, keyOf, key, c)|
    ensures var cur := Matching(L, keyOf, key, c)[k]; cur < |L| && Segment(L, L[cur].next, d, NO_RECORD)
    ensures Matching(L, keyOf, key, d) == Matching(L, keyOf, key, c)[k + 1..]
    decreases |c|
  {
    assert c != [];
    if keyOf(L[i].data) != key {
      d := MatchingAfter(L, keyOf, key, L[i].next, c[1..], k);
    } else if k > 0 {
      d := MatchingAfter(L, keyOf, key, L[i].next, c[1..], k - 1);
      assert Matching(L, keyOf, key, c)[k + 1..] == Matching(L, keyOf, key, c[1..])[k..];
    } else {
      d := c[1..];
      assert Matching(L, keyOf, key, c)[1..] == Matching(L, keyOf, key, c[1..]);
    }
  }

  /** All slots of the key's bucket b whose record has the key, in chain order. */
  ghost function Hits(L: seq<Link>, home: Rec -> nat, keyOf: Rec -> Key, key: Key, b: nat): seq<nat> {
    if b < |L| && home(L[b].data) == b then Matching(L, keyOf, key, ChainFrom(L, b)) else []
  }

  /** The hits are exactly the slots that hold the key, each once. */
  lemma HitsExact(L: seq<Link>, home: Rec -> nat, keyOf: Rec -> Key, key: Key, b: nat)
    requires WellChained(L, home, |L|, |L|)
    requires forall i :: 0 <= i < |L| && keyOf(L[i].data) == key ==> home(L[i].data) == b
    ensures var h := Hits(L, home, keyOf, key, b);
            && (forall i: nat :: i in h <==> i < |L| && keyOf(L[i].data) == key)
            && Distinct(h)
  {
    if b < |L| && home(L[b].data) == b {
      HeadInPlace(L, home, |L|, |L|, b);
      var c := ChainExists(L, home, |L|, |L|, b);
      ChainFromIs(L, b, c);
      MatchingIn(L, keyOf, key, c);
      MatchingDistinct(L, keyOf, key, c);
      forall i: nat | i < |L| && keyOf(L[i].data) == key ensures i in c {
        assert Used(|L|, |L|, i);
      }
    } else {
      forall i | 0 <= i < |L| && keyOf(L[i].data) == key ensures false {
        HeadInPlace(L, home, |L|, |L|, i);
      }
    }
  }

  /** A record in its home slot is the first hit of its key. */
  lemma HeadIsFirst(L: seq<Link>, home: Rec -> nat, keyOf: Rec -> Key, b: nat)
    requires WellChained(L, home, |L|, |L|) && b < |L| && home(L[b].data) == b
    ensures var h := Hits(L, home, keyOf, keyOf(L[b].data), b); h != [] && h[0] == b
  {
    HeadInPlace(L, home, |L|, |L|, b);
    var c := ChainExists(L, home, |L|, |L|, b);
    ChainFromIs(L, b, c);
  }

  /** The first match from slot idx on, except that a first record that neither matches nor is at
      home at idx ends the search. */
  ghost function FirstFrom(L: seq<Link>, home: Rec -> nat, keyOf: Rec -> Key, key: Key, idx: nat): nat {
    if idx < |L| && keyOf(L[idx].data) != key && home(L[idx].data) != idx then NO_RECORD
    else FirstOf(Matching(L, keyOf, key, ChainFrom(L, idx)))
  }

  /** In a table whose chains fit the present keys that is the first hit. */
  lemma FirstIsHit(L: seq<Link>, home: Rec -> nat, keyOf: Rec -> Key, key: Key, b: nat)
    requires WellChained(L, home, |L|, |L|) && b < |L|
    requires forall i :: 0 <= i < |L| && keyOf(L[i].data) == key ==> home(L[i].data) == b
    ensures FirstFrom(L, home, keyOf, key, b) == FirstOf(Hits(L, home, keyOf, key, b))
  {
    hide PartChained, Segment;
    HitsExact(L, home, keyOf, key, b);
  }

  /** The search of my_hash_first_from_hash_value. The table may be well chained for other homes
      than the present ones, as it is when a record has just changed its key. */
  method FirstFromHashValue(links: seq<Link>, hashOf: Key -> nat, keyOf: Rec -> Key, blength: nat, hash_value: nat,
                            key: Key, ghost home: Rec -> nat) returns (current_record: nat)
    requires Pow2(blength) && blength / 2 <= |links| < blength && WellChained(links, home, |links|, |links|)
    ensures current_record == if |links| == 0 then NO_RECORD
      else FirstFrom(links, HomeFn(hashOf, keyOf, blength, |links|), keyOf, key, HomeOf(hash_value, blength, |links|))
  {
    if |links| > 0 {
      var flag := true;
      HomeBelow(hash_value, blength, |links|);
      var idx := HomeOf(hash_value, blength, |links|);
      HeadInPlace(links, home, |links|, |links|, idx);
      ghost var c := SegmentFrom(links, home, |links|, |links|, idx);
      ChainFromIs(links, idx, c);
      ghost var start, rest := idx, c;
      while idx != NO_RECORD
        invariant Segment(links, idx, rest, NO_RECORD)
        invariant Matching(links, keyOf, key, rest) == Matching(links, keyOf, key, c)
        invariant flag ==> idx == start
        invariant !flag ==>
          keyOf(links[start].data) == key || HomeFn(hashOf, keyOf, blength, |links|)(links[start].data) == start
        decreases |rest|
      {
        if keyOf(links[idx].data) == key {
          return idx;
        }
        if flag {
          flag := false;
          if HomeOf(hashOf(keyOf(links[idx].data)), blength, |links|) != idx {
            return NO_RECORD;  // a foreign record: nobody is at home here
          }
        }
        idx := links[idx].next;
        rest := rest[1..];
      }
    }
    return NO_RECORD;
  }

  /** The search of my_hash_next: the next match behind slot `current`. */
  method NextRecord(links: seq<Link>, keyOf: Rec -> Key, key: Key, current: nat, ghost c: seq<nat>)
    returns (current_record: nat)
    requires current < |links| <= NO_RECORD && Segment(links, links[current].next, c, NO_RECORD)
    ensures current_record == FirstOf(Matching(links, keyOf, key, c))
  {
    var idx := links[current].next;
    ghost var rest := c;
    while idx != NO_RECORD
      invariant Segment(links, idx, rest, NO_RECORD)
      invariant Matching(links, keyOf, key, rest) == Matching(links, keyOf, key, c)
      decreases |rest|
    {
      if keyOf(links[idx].data) == key {
        return idx;
      }
      idx := links[idx].next;
      rest := rest[1..];
    }
    return NO_RECORD;
  }

  /** The walk shared by delete and update: along the chain from slot idx to the record. */
  method Locate(links: seq<Link>, idx: nat, record: Rec, ghost c: seq<nat>)
    returns (found: bool, pos: nat, hasPrev: bool, previous: nat)
    requires Segment(links, idx, c, NO_RECORD) && c != [] && |links| <= NO_RECORD
    ensures found <==> exists i :: i in c && i < |links| && links[i].data == record
    ensures found ==> pos in c && pos < |links| && links[pos].data == record
    ensures found ==> if hasPrev then previous in c && previous < |links| && links[previous].next == pos else pos == idx
  {
    found, pos, hasPrev, previous := true, idx, false, 0;
    ghost var rest := c;
    while links[pos].data != record
      invariant Segment(links, pos, rest, NO_RECORD) && rest != [] && pos in c
      invariant forall i :: i in c ==> i in rest || (i < |links| && links[i].data != record)
      invariant forall i :: i in rest ==> i in c
      invariant if hasPrev then previous in c && previous < |links| && links[previous].next == pos else pos == idx
      decreases |rest|
    {
      hasPrev, previous := true, pos;
      assert forall i :: i in rest ==> i == pos || i in rest[1..];
      if links[pos].next == NO_RECORD {
        assert rest == [pos];
        return false, pos, hasPrev, previous;
      }
      pos := links[pos].next;
      rest := rest[1..];
      assert pos == rest[0];
    }
  }
}
