/**
 A hash table that keeps its records dense in the slots 0..records-1 of one array and grows or
 shrinks by one slot at a time (linear hashing).
 */
module LinearHash {
  import opened BitMask
  import opened Chains
  import opened ChainPaths
  import opened Homes
  import opened HashLoops
  import opened HashSteps
  import opened HashRelink
  import opened HashSearch

  datatype Lookup = Missing | Found(record: Rec)

  /** What update did: 0, 1, or a look at a slot that the array does not have. */
  datatype UpdateResult = Updated | Refused | OutsideArray

  /** No key is held twice. */
  ghost predicate UniqueKeys(m: multiset<Rec>, keyOf: Rec -> Key) {
    forall r, s :: r in m && s in m && keyOf(r) == keyOf(s) ==> r == s && m[r] == 1
  }

  ghost predicate HasKey(m: multiset<Rec>, keyOf: Rec -> Key, key: Key) {
    exists r :: r in m && keyOf(r) == key
  }

  ghost predicate OtherHasKey(m: multiset<Rec>, keyOf: Rec -> Key, key: Key, record: Rec) {
    exists r :: r in m && r != record && keyOf(r) == key
  }

  lemma FirstOfRest(hits: seq<nat>, k: nat)
    ensures k < |hits| ==> FirstOf(hits[k..]) in hits
  {}

  /** When there is no first hit behind place k there is none at all. */
  lemma NoMoreHits(hits: seq<nat>, k: nat, n: nat)
    requires k <= |hits| && n <= NO_RECORD && FirstOf(hits[k..]) == NO_RECORD && (forall i: nat :: i in hits ==> i < n)
    ensures hits[..k] == hits
  {
    FirstOfRest(hits, k);
  }

  /** The table of n slots, with its buffer bound doubled when it has just become full. */
  lemma Doubled(L: seq<Link>, hashOf: Key -> nat, keyOf: Rec -> Key, b: nat, n: nat)
    requires TableOk(L, hashOf, keyOf, b, n, n)
    ensures |L| == n
    ensures var b' := if n == b then b + b else b;
            WellChained(L, HomeFn(hashOf, keyOf, b', n), n, n) && Pow2(b') && b' / 2 <= n < b'
  {
    hide PartChained, HomeOf;
    if n == b {
      forall i | Used(n, n, i)
        ensures HomeFn(hashOf, keyOf, b + b, n)(L[i].data) == HomeFn(hashOf, keyOf, b, n)(L[i].data)
      {
        HomeDouble(hashOf(keyOf(L[i].data)), b);
      }
      WellChainedSameHomes(L, HomeFn(hashOf, keyOf, b, n), HomeFn(hashOf, keyOf, b + b, n), n, n);
      assert (b + b) % 2 == 0 && (b + b) / 2 == b;
    }
  }

  /** The last slot is dropped when it is the hole. */
  lemma Popped(L: seq<Link>, home: Rec -> nat, m: nat)
    requires |L| == m + 1 && WellChained(L, home, m, m)
    ensures WellChained(L[..m], home, m, m) && multiset(Datas(L[..m])) == Bag(L, m)
  {
    var t: Shape :| t.Linked() && t.Describes(L, home, m, m, {});
    var u := Shape(m, m, {}, t.next[..m], t.home[..m], t.prev[..m], t.rank[..m]);
    forall i | u.Used(i) ensures u.Ok(i) {
      assert t.Ok(i);
    }
    assert u.Describes(L[..m], home, m, m, {});
    assert Datas(L) == Datas(L[..m]) + [L[m].data];
  }

  /** Insert into the array of n records: split a bucket, then place the record. */
  method InsertInto(links: seq<Link>, hashOf: Key -> nat, keyOf: Rec -> Key, b: nat, n: nat, record: Rec)
    returns (data: seq<Link>)
    requires Pow2(b) && b / 2 <= n < b && n == |links| < NO_RECORD
    requires WellChained(links, HomeFn(hashOf, keyOf, b, n), n, n)
    ensures TableOk(data, hashOf, keyOf, b, n + 1, n + 1)
    ensures multiset(Datas(data)) == multiset(Datas(links)) + multiset{record}
    ensures var pos := HomeOf(hashOf(keyOf(record)), b, n + 1); pos <= n < |data| && data[pos].data == record
  {
    hide PartChained, GrowsBy, Bag, Datas, HomeFn, Pow2;
    var junk: Link := *;  // fresh memory
    data := links + [junk];
    assert data[..n] == links;
    BagExtended(links, junk);
    var empty := n;
    if n - b / 2 != n {
      ghost var j, states, out, e := GrowPlan(data, hashOf, keyOf, b, n);
      data, empty := SplitBucket(data, hashOf, keyOf, b, n, j, states, out, e);
    } else {
      GrowFromEmpty(data, hashOf, keyOf);
    }
    data := PlaceRecord(data, hashOf, keyOf, b, n + 1, empty, record);
    BagWhole(data, n + 1);
  }

  /** The first of the slots holds the record. */
  ghost predicate FirstHolds(L: seq<Link>, slots: seq<nat>, record: Rec) {
    slots != [] && slots[0] < |L| && L[slots[0]].data == record
  }

  /** A record in its home slot is the first hit of its key, also when the bound has been doubled. */
  lemma FirstHit(L: seq<Link>, hashOf: Key -> nat, keyOf: Rec -> Key, b: nat, n: nat, record: Rec)
    requires TableOk(L, hashOf, keyOf, b, n, n)
    requires var pos := HomeOf(hashOf(keyOf(record)), b, n); pos < |L| && L[pos].data == record
    ensures var b', key := if n == b then b + b else b, keyOf(record);
            FirstHolds(L, Hits(L, HomeFn(hashOf, keyOf, b', n), keyOf, key, HomeOf(hashOf(key), b', n)), record)
  {
    hide PartChained, HomeOf;
    Doubled(L, hashOf, keyOf, b, n);
    if n == b { HomeDouble(hashOf(keyOf(record)), b); }
    var b' := if n == b then b + b else b;
    HeadIsFirst(L, HomeFn(hashOf, keyOf, b', n), keyOf, HomeOf(hashOf(keyOf(record)), b', n));
  }

  lemma BagExtended(L: seq<Link>, junk: Link)
    ensures Bag(L + [junk], |L|) == multiset(Datas(L))
  {
    assert Datas(L + [junk]) == Datas(L) + [junk.data];
  }

  lemma BagWhole(L: seq<Link>, n: nat)
    requires n >= |L|
    ensures Bag(L, n) == multiset(Datas(L))
  {}

  lemma UniqueAdd(m: multiset<Rec>, keyOf: Rec -> Key, record: Rec)
    requires UniqueKeys(m, keyOf) && !HasKey(m, keyOf, keyOf(record))
    ensures UniqueKeys(m + multiset{record}, keyOf)
  {}

  lemma UniqueSub(m: multiset<Rec>, keyOf: Rec -> Key, record: Rec)
    requires UniqueKeys(m, keyOf) && record in m
    ensures UniqueKeys(m - multiset{record}, keyOf)
  {}

  lemma UniqueReplace(m: multiset<Rec>, keyOf: Rec -> Key, record: Rec, new_row: Rec)
    requires UniqueKeys(m, keyOf) && record in m && keyOf(record) == keyOf(new_row)
    ensures UniqueKeys(m - multiset{record} + multiset{new_row}, keyOf)
  {}

  lemma UniqueUpdate(m: multiset<Rec>, keyOf: Rec -> Key, record: Rec, old_key: Key)
    requires UniqueKeys(m, WithKey(keyOf, record, old_key)) && !OtherHasKey(m, keyOf, keyOf(record), record)
    ensures UniqueKeys(m, keyOf)
  {
    forall r, s | r in m && s in m && keyOf(r) == keyOf(s) ensures r == s && m[r] == 1 {
      var ko := WithKey(keyOf, record, old_key);
      assert r != record ==> ko(r) == keyOf(r);
      assert s != record ==> ko(s) == keyOf(s);
      assert ko(r) == ko(r);
    }
  }

  lemma StoredOnce(m: multiset<Rec>, keyOf: Rec -> Key, record: Rec)
    requires UniqueKeys(m, keyOf)
    ensures m[record] <= 1
  {
    if record in m { assert keyOf(record) == keyOf(record); }
  }

  lemma EmptyStored(L: seq<Link>)
    requires |L| == 0
    ensures multiset(Datas(L)) == multiset{}
  {}

  lemma EmptyUpdate(L: seq<Link>, hashOf: Key -> nat, keyOf: Rec -> Key, b: nat, record: Rec)
    requires |L| == 0
    ensures WellChained(L, HomeFn(hashOf, keyOf, b, 0), 0, 0) && UniqueKeys(multiset(Datas(L)), keyOf)
    ensures multiset(Datas(L)) == multiset{} && !OtherHasKey(multiset(Datas(L)), keyOf, keyOf(record), record)
  {
    NoSlots(L, HomeFn(hashOf, keyOf, b, 0), 0);
  }

  lemma HashFits(hashOf: Key -> nat, key: Key)
    requires HashNumbers(hashOf)
    ensures hashOf(key) <= Word(INT_BITS)
  {
  }

  /** Update looks at slot h of the old key unless the new key has the same slot. It stays inside the array
      exactly when the table is not empty, or the two hash numbers are the same. */
  lemma UpdateInside(h: nat, h': nat, b: nat, n: nat)
    requires h <= Word(INT_BITS) && h' <= Word(INT_BITS) && Pow2(b) && b / 2 <= n < b
    ensures HomeOf(h, b, n) == HomeOf(h', b, n) || HomeOf(h, b, n) < n <==> n > 0 || h == h'
  {
    hide Mask, Word, And;
    if n > 0 {
      HomeBelow(h, b, n);
    } else {
      MaskEmpty(h);
      MaskEmpty(h');
    }
  }

  /** In an empty table a change of hash number from 5 to 3 makes update look at slot 5. */
  lemma UpdateOutside()
    ensures HomeOf(5, 1, 0) == 5 && HomeOf(3, 1, 0) == 3
  {
    hide Mask, And;
    assert Word(INT_BITS) >= 31 by { WordGrows(5, INT_BITS); assert Word(5) == 31; }
    MaskEmpty(5);
    MaskEmpty(3);
  }

  lemma ReplaceOk(L: seq<Link>, hashOf: Key -> nat, keyOf: Rec -> Key, b: nat, n: nat, i: nat, new_row: Rec)
    requires WellChained(L, HomeFn(hashOf, keyOf, b, n), n, n) && i < n == |L| && keyOf(new_row) == keyOf(L[i].data)
    ensures var L' := L[i := Link(L[i].next, new_row)];
            && WellChained(L', HomeFn(hashOf, keyOf, b, n), n, n)
            && multiset(Datas(L')) == multiset(Datas(L)) - multiset{L[i].data} + multiset{new_row}
    ensures L[i].data in multiset(Datas(L))
  {
    var t: Shape :| t.Linked() && t.Describes(L, HomeFn(hashOf, keyOf, b, n), n, n, {});
    var L' := L[i := Link(L[i].next, new_row)];
    assert t.Describes(L', HomeFn(hashOf, keyOf, b, n), n, n, {});
    BagUpdate(L, i, L'[i]);
  }

  /** The chain from the home slot of a record, in which the record is found if it is stored. */
  lemma ChainFor(links: seq<Link>, hashOf: Key -> nat, keyOf: Rec -> Key, b: nat, n: nat, idx: nat, record: Rec)
    returns (c: seq<nat>)
    requires Pow2(b) && b / 2 <= n < b && 0 < n == |links|
    requires WellChained(links, HomeFn(hashOf, keyOf, b, n), n, n) && idx == HomeOf(hashOf(keyOf(record)), b, n)
    ensures idx < n <= NO_RECORD && c != [] && Segment(links, idx, c, NO_RECORD)
    ensures record in multiset(Datas(links)) <==> exists i :: i in c && i < n && links[i].data == record
    ensures record in multiset(Datas(links)) ==> HomeFn(hashOf, keyOf, b, n)(links[idx].data) == idx
  {
    hide PartChained, Segment;
    var home := HomeFn(hashOf, keyOf, b, n);
    HomeBelow(hashOf(keyOf(record)), b, n);
    HeadInPlace(links, home, n, n, idx);
    c := SegmentFrom(links, home, n, n, idx);
    DatasIn(links, record);
    if i :| 0 <= i < |links| && links[i].data == record {
      HeadInPlace(links, home, n, n, i);
      assert home(links[i].data) == idx;
      assert i in c;
    }
  }

  /** Delete from the array of n records: find the record, unlink it, fill the gap. */
  method DeleteFrom(links: seq<Link>, hashOf: Key -> nat, keyOf: Rec -> Key, b: nat, n: nat, record: Rec)
    returns (found: bool, data: seq<Link>)
    requires Pow2(b) && b / 2 <= n < b && 0 < n == |links|
    requires WellChained(links, HomeFn(hashOf, keyOf, b, n), n, n)
    ensures found <==> record in multiset(Datas(links))
    ensures var b' := Shrunk(b, n); Pow2(b') && b' / 2 <= n - 1 < b'
    ensures found ==> |data| == n - 1 && WellChained(data, HomeFn(hashOf, keyOf, Shrunk(b, n), n - 1), n - 1, n - 1)
    ensures found ==> multiset(Datas(data)) == multiset(Datas(links)) - multiset{record}
  {
    hide PartChained, Segment, Bag, Datas, HomeFn, HomeOf, Pow2;
    ShrunkOk(b, n);
    var idx := HomeOf(hashOf(keyOf(record)), b, n);
    ghost var home := HomeFn(hashOf, keyOf, b, n);
    ghost var c := ChainFor(links, hashOf, keyOf, b, n, idx, record);
    var pos, hasPrev, gpos;
    found, pos, hasPrev, gpos := Locate(links, idx, record, c);
    data := links;
    if found {
      var empty;
      data, empty := Unlink(data, home, n, hasPrev, gpos, pos);
      var m, b' := n - 1, Shrunk(b, n);
      assert m + 1 == n;
      data := MergeLast(data, hashOf, keyOf, b, b', m, empty);
      Popped(data, HomeFn(hashOf, keyOf, b', m), m);
      data := data[..m];
    }
  }

  /** Update of the array of n records after `record` has changed its key from old_key. */
  method UpdateIn(links: seq<Link>, hashOf: Key -> nat, keyOf: Rec -> Key, b: nat, n: nat, record: Rec, old_key: Key)
    returns (found: bool, data: seq<Link>)
    requires Pow2(b) && b / 2 <= n < b && 0 < n == |links|
    requires WellChained(links, HomeFn(hashOf, WithKey(keyOf, record, old_key), b, n), n, n)
    ensures found <==> (record in multiset(Datas(links)) || SameSlot(hashOf, keyOf, b, n, record, old_key))
    ensures !found || SameSlot(hashOf, keyOf, b, n, record, old_key) ==> data == links
    ensures |data| == n && multiset(Datas(data)) == multiset(Datas(links))
    ensures WellChained(data, HomeFn(hashOf, keyOf, b, n), n, n) <==>
      multiset(Datas(links))[record] <= 1 || SameSlot(hashOf, keyOf, b, n, record, old_key)
    ensures found && !SameSlot(hashOf, keyOf, b, n, record, old_key) ==>
      JoinsChain(links, data, HomeFn(hashOf, WithKey(keyOf, record, old_key), b, n),
                 HomeOf(hashOf(keyOf(record)), b, n), record)
  {
    hide PartChained, Segment, Bag, Datas, HomeFn, HomeOf, WithKey, Pow2;
    ghost var keyOf0 := WithKey(keyOf, record, old_key);
    ghost var home0 := HomeFn(hashOf, keyOf0, b, n);
    HomeBelow(hashOf(keyOf(record)), b, n);
    var idx := HomeOf(hashOf(old_key), b, n);
    var new_index := HomeOf(hashOf(keyOf(record)), b, n);
    data := links;
    if idx == new_index {  // the chain is right already, and nobody looks whether the record is in it
      SameHome(links, hashOf, keyOf, b, n, record, old_key);
      return true, data;
    }
    OldKey(keyOf, record, old_key);
    ghost var c := ChainFor(links, hashOf, keyOf0, b, n, idx, record);
    var pos, hasPrev, previous;
    found, pos, hasPrev, previous := Locate(links, idx, record, c);
    if !found {
      BagWhole(links, n);
      ForgetOldKey(links, hashOf, keyOf, b, n, n, record, old_key);
      return;
    }
    var empty;
    data, empty := Unlink(data, home0, n, hasPrev, previous, pos);
    data := RelinkRecord(data, hashOf, keyOf, b, n, empty, record, new_index, old_key);
    BagWhole(data, n);
    HomeFnAt(hashOf, keyOf, b, n, links[new_index].data);
    if links[new_index].data != record { HomeUnchanged(hashOf, keyOf, b, n, record, old_key, links[new_index].data); }
    TwoHomes(hashOf, keyOf, b, n, record, old_key);
  }

  /** The chain of slot `pos` keeps its head, or the record becomes its head if the chain was empty. */
  ghost predicate JoinsChain(links: seq<Link>, data: seq<Link>, home: Rec -> nat, pos: nat, record: Rec) {
    pos < |links| == |data| && data[pos].data == if home(links[pos].data) == pos then links[pos].data else record
  }

  /** The old and the new key of the record share a home. */
  ghost predicate SameSlot(hashOf: Key -> nat, keyOf: Rec -> Key, b: nat, n: nat, record: Rec, old_key: Key) {
    HomeOf(hashOf(old_key), b, n) == HomeOf(hashOf(keyOf(record)), b, n)
  }

  lemma OldKey(keyOf: Rec -> Key, record: Rec, old_key: Key)
    ensures WithKey(keyOf, record, old_key)(record) == old_key
  {}

  lemma SameHome(L: seq<Link>, hashOf: Key -> nat, keyOf: Rec -> Key, b: nat, n: nat, record: Rec, old_key: Key)
    requires n == |L| && WellChained(L, HomeFn(hashOf, WithKey(keyOf, record, old_key), b, n), n, n)
    requires HomeOf(hashOf(old_key), b, n) == HomeOf(hashOf(keyOf(record)), b, n)
    ensures WellChained(L, HomeFn(hashOf, keyOf, b, n), n, n)
  {
    hide PartChained, HomeOf, HomeFn, WithKey;
    forall i | Used(n, n, i)
      ensures HomeFn(hashOf, keyOf, b, n)(L[i].data) == HomeFn(hashOf, WithKey(keyOf, record, old_key), b, n)(L[i].data)
    {
      HomeUnchanged(hashOf, keyOf, b, n, record, old_key, L[i].data);
    }
    WellChainedSameHomes(L, HomeFn(hashOf, WithKey(keyOf, record, old_key), b, n), HomeFn(hashOf, keyOf, b, n), n, n);
  }

  /** Another record holds the key that `record` has just taken on: the search for that key, in the
      table chained by the old keys, meets it. */
  lemma OthersAreMatched(L: seq<Link>, hashOf: Key -> nat, keyOf: Rec -> Key, b: nat, record: Rec, old_key: Key,
                         idx: nat, c: seq<nat>, i: nat)
    requires WellChained(L, HomeFn(hashOf, WithKey(keyOf, record, old_key), b, |L|), |L|, |L|)
    requires idx == HomeOf(hashOf(keyOf(record)), b, |L|) && idx < |L| && Segment(L, idx, c, NO_RECORD)
    requires i < |L| && L[i].data != record && keyOf(L[i].data) == keyOf(record)
    ensures i in Matching(L, keyOf, keyOf(record), c)
    ensures FirstFrom(L, HomeFn(hashOf, keyOf, b, |L|), keyOf, keyOf(record), idx)
         == FirstOf(Matching(L, keyOf, keyOf(record), c))
  {
    hide PartChained, HomeOf, WithKey, HomeFn;
    HomeUnchanged(hashOf, keyOf, b, |L|, record, old_key, L[i].data);
    if L[idx].data != record {
      HomeUnchanged(hashOf, keyOf, b, |L|, record, old_key, L[idx].data);
      HomeFnAt(hashOf, keyOf, b, |L|, L[idx].data);
    }
    HomeFnAt(hashOf, keyOf, b, |L|, L[i].data);
    var home0 := HomeFn(hashOf, WithKey(keyOf, record, old_key), b, |L|);
    HeadInPlace(L, home0, |L|, |L|, i);
    assert home0(L[i].data) == idx;
    var c' := ChainExists(L, home0, |L|, |L|, idx);
    ChainFromIs(L, idx, c);
    ChainFromIs(L, idx, c');
    assert Used(|L|, |L|, i);
    MatchingIn(L, keyOf, keyOf(record), c);
  }

  /** The records met by the search for the new key of `record`: another holder of the key, if
      there is one, is among them, and then the search does not stop early. */
  lemma SearchForOthers(L: seq<Link>, hashOf: Key -> nat, keyOf: Rec -> Key, b: nat, record: Rec, old_key: Key,
                        idx: nat)
    returns (c: seq<nat>, hits: seq<nat>, others: bool)
    requires Pow2(b) && b / 2 <= |L| < b && 0 < |L| && idx == HomeOf(hashOf(keyOf(record)), b, |L|)
    requires WellChained(L, HomeFn(hashOf, WithKey(keyOf, record, old_key), b, |L|), |L|, |L|)
    ensures |L| <= NO_RECORD && Segment(L, idx, c, NO_RECORD)
    ensures hits == Matching(L, keyOf, keyOf(record), c)
    ensures others == OtherHasKey(multiset(Datas(L)), keyOf, keyOf(record), record)
    ensures forall i :: i in hits ==> i < |L|
    ensures others <==> exists i: nat :: i in hits && i < |L| && L[i].data != record
    ensures others ==>
      FirstFrom(L, HomeFn(hashOf, keyOf, b, |L|), keyOf, keyOf(record), idx) == FirstOf(hits)
    ensures FirstFrom(L, HomeFn(hashOf, keyOf, b, |L|), keyOf, keyOf(record), idx) in {FirstOf(hits), NO_RECORD}
  {
    hide PartChained, HomeFn, HomeOf, Datas, Pow2, WithKey, Segment;
    var key, home0 := keyOf(record), HomeFn(hashOf, WithKey(keyOf, record, old_key), b, |L|);
    HomeBelow(hashOf(key), b, |L|);
    HeadInPlace(L, home0, |L|, |L|, idx);
    c := SegmentFrom(L, home0, |L|, |L|, idx);
    ChainFromIs(L, idx, c);
    MatchingIn(L, keyOf, key, c);
    hits, others := Matching(L, keyOf, key, c), OtherHasKey(multiset(Datas(L)), keyOf, key, record);
    if r :| r in multiset(Datas(L)) && r != record && keyOf(r) == key {
      DatasIn(L, r);
      var i :| 0 <= i < |L| && L[i].data == r;
      OthersAreMatched(L, hashOf, keyOf, b, record, old_key, idx, c, i);
      assert i in hits && L[i].data != record;
    }
    if i: nat :| i in hits && i < |L| && L[i].data != record {
      DatasIn(L, L[i].data);
    }
  }

  /** The check of update for a unique table: does a record other than `record` hold its new key? */
  method OtherHolder(links: seq<Link>, hashOf: Key -> nat, keyOf: Rec -> Key, b: nat, record: Rec, ghost old_key: Key)
    returns (duplicate: bool)
    requires Pow2(b) && b / 2 <= |links| < b && 0 < |links|
    requires WellChained(links, HomeFn(hashOf, WithKey(keyOf, record, old_key), b, |links|), |links|, |links|)
    ensures duplicate <==> OtherHasKey(multiset(Datas(links)), keyOf, keyOf(record), record)
  {
    hide PartChained, HomeFn, HomeOf, Datas, Pow2, WithKey, FirstFrom, OtherHasKey, Segment, Matching;
    var new_key := keyOf(record);
    ghost var idx := HomeOf(hashOf(new_key), b, |links|);
    ghost var k := 0;
    ghost var c, hits, others := SearchForOthers(links, hashOf, keyOf, b, record, old_key, idx);
    assert forall a :: 0 <= a < |hits| ==> hits[a] in hits;
    var found := FirstFromHashValue(links, hashOf, keyOf, b, hashOf(new_key), new_key,
      HomeFn(hashOf, WithKey(keyOf, record, old_key), b, |links|));
    while found != NO_RECORD
      invariant k <= |hits| && (found != NO_RECORD ==> k < |hits| && hits[k] == found)
      invariant forall a :: 0 <= a < k ==> hits[a] < |links| && links[hits[a]].data == record
      invariant found == NO_RECORD ==> !others
      decreases |hits| - k
    {
      if links[found].data != record {
        return true;
      }
      ghost var rest := MatchingAfter(links, keyOf, new_key, idx, c, k);
      found := NextRecord(links, keyOf, new_key, found, rest);
      k := k + 1;
    }
    return false;
  }

  lemma TwoCopiesBefore(home: Rec -> nat, record: Rec)
    requires home(record) == 0
    ensures WellChained([Link(1, record), Link(NO_RECORD, record)], home, 2, 2)
  {
    var t := Shape(2, 2, {}, [1, NO_RECORD], [0, 0], [0, 0], [0, 1]);
    assert t.Ok(0) && t.Ok(1);
    assert t.Linked() && t.Describes([Link(1, record), Link(NO_RECORD, record)], home, 2, 2, {});
  }

  /** Two copies of a record whose hash number changes from 0 to 1, in a table of two slots: update says that
      all is well, and leaves a table in which the chains do not fit the keys. */
  method TwoCopies(hashOf: Key -> nat, keyOf: Rec -> Key, record: Rec, old_key: Key)
    returns (found: bool, data: seq<Link>)
    requires hashOf(old_key) == 0 && hashOf(keyOf(record)) == 1
    ensures found && |data| == 2 && multiset(Datas(data))[record] == 2
    ensures !WellChained(data, HomeFn(hashOf, keyOf, 4, 2), 2, 2)
  {
    hide WellChained, HomeOf, HomeFn, WithKey, Pow2, Datas;
    TwoCopiesHomes();
    TwoHomes(hashOf, keyOf, 4, 2, record, old_key);
    TwoCopiesBefore(HomeFn(hashOf, WithKey(keyOf, record, old_key), 4, 2), record);
    var links := [Link(1, record), Link(NO_RECORD, record)];
    assert Datas(links) == [record, record];
    found, data := UpdateIn(links, hashOf, keyOf, 4, 2, record, old_key);
  }

  lemma TwoCopiesHomes()
    ensures Pow2(4) && HomeOf(0, 4, 2) == 0 && HomeOf(1, 4, 2) == 1
  {
    hide Mask, And;
    assert Pow2(2) && Pow2(4);
    MaskBelow(0, 4, 2);
    MaskBelow(1, 4, 2);
  }

  /** In a table of one slot all keys share a home: update succeeds for a record that is not there. */
  method AbsentRecord(hashOf: Key -> nat, keyOf: Rec -> Key, record: Rec, other: Rec, old_key: Key)
    returns (found: bool, data: seq<Link>)
    requires record != other
    ensures found && data == [Link(NO_RECORD, other)] && record !in multiset(Datas(data))
  {
    hide HomeOf, HomeFn, WithKey, Pow2, Datas;
    data := [Link(NO_RECORD, other)];
    OneSlotHomes(hashOf(old_key), hashOf(keyOf(record)), hashOf(WithKey(keyOf, record, old_key)(other)));
    HomeFnAt(hashOf, WithKey(keyOf, record, old_key), 2, 1, other);
    OneRecord(HomeFn(hashOf, WithKey(keyOf, record, old_key), 2, 1), other);
    assert Datas(data) == [other];
    found, data := UpdateIn(data, hashOf, keyOf, 2, 1, record, old_key);
  }

  lemma OneSlotHomes(h: nat, k: nat, l: nat)
    ensures Pow2(2) && HomeOf(h, 2, 1) == 0 && HomeOf(k, 2, 1) == 0 && HomeOf(l, 2, 1) == 0
  {
    assert Pow2(2);
    HomeBelow(h, 2, 1);
    HomeBelow(k, 2, 1);
    HomeBelow(l, 2, 1);
  }

  lemma OneRecord(home: Rec -> nat, record: Rec)
    requires home(record) == 0
    ensures WellChained([Link(NO_RECORD, record)], home, 1, 1)
  {
    var t := Shape(1, 1, {}, [NO_RECORD], [0], [0], [0]);
    assert t.Ok(0);
    assert t.Linked() && t.Describes([Link(NO_RECORD, record)], home, 1, 1, {});
  }

  class HashTable {
    var links: seq<Link>
    var records: nat
    var blength: nat
    const unique: bool
    const hashOf: Key -> nat
    /** The key each record holds at the moment; callers change it. */
    var keyOf: Rec -> Key

    ghost predicate Sized()
      reads this
    {
      HashNumbers(hashOf) && Pow2(blength) && blength / 2 <= records < blength && records == |links| <= NO_RECORD
    }

    /** The invariant, for the keys ko. */
    ghost predicate ValidFor(ko: Rec -> Key)
      reads this
    {
      && Sized()
      && WellChained(links, HomeFn(hashOf, ko, blength, records), records, records)
      && (unique ==> UniqueKeys(Stored(), ko))
    }

    ghost predicate Valid()
      reads this
    {
      ValidFor(keyOf)
    }

    ghost function Stored(): multiset<Rec>
      reads this
    {
      multiset(Datas(links))
    }

    /** The slots that hold the key, in the order of its chain. */
    ghost function HitsOf(key: Key): seq<nat>
      reads this
    {
      Hits(links, HomeFn(hashOf, keyOf, blength, records), keyOf, key, HomeOf(hashOf(key), blength, records))
    }

    constructor (unique: bool, hashOf: Key -> nat, keyOf: Rec -> Key)
      requires HashNumbers(hashOf)
      ensures Valid() && Stored() == multiset{} && records == 0 && blength == 1
      ensures this.unique == unique && this.hashOf == hashOf && this.keyOf == keyOf
    {
      links, records, blength := [], 0, 1;
      this.unique, this.hashOf, this.keyOf := unique, hashOf, keyOf;
      new;
      NoSlots([], HomeFn(hashOf, keyOf, 1, 0), 0);
    }

    /** All records of a key are found, each once: the hits are exactly the slots with the key. */
    lemma HitsAreTheRecords(key: Key)
      requires Valid()
      ensures Distinct(HitsOf(key))
      ensures forall i: nat :: i in HitsOf(key) <==> i < records && keyOf(links[i].data) == key
      ensures HitsOf(key) == [] <==> !HasKey(Stored(), keyOf, key)
    {
      var home, b := HomeFn(hashOf, keyOf, blength, records), HomeOf(hashOf(key), blength, records);
      HitsExact(links, home, keyOf, key, b);
      if r :| r in Stored() && keyOf(r) == key {
        DatasIn(links, r);
        var i :| 0 <= i < |links| && links[i].data == r;
        assert i in HitsOf(key);
      }
      if HitsOf(key) != [] {
        var i := HitsOf(key)[0];
        assert i in HitsOf(key);
        DatasIn(links, links[i].data);
      }
    }

    /** The first record of the key in chain order, with its slot as the state of the search. */
    method First(key: Key) returns (found: Lookup, current_record: nat)
      requires Valid()
      ensures current_record != NO_RECORD ==> current_record < |links| && keyOf(links[current_record].data) == key
      ensures found == if current_record == NO_RECORD then Missing else Found(links[current_record].data)
      ensures current_record == FirstOf(HitsOf(key))
      ensures found == Missing <==> !HasKey(Stored(), keyOf, key)
    {
      hide PartChained, Segment, Datas, Hits, FirstFrom, UniqueKeys;
      ghost var home, b := HomeFn(hashOf, keyOf, blength, records), HomeOf(hashOf(key), blength, records);
      HitsAreTheRecords(key);
      current_record := FirstFromHashValue(links, hashOf, keyOf, blength, hashOf(key), key, home);
      if records > 0 {
        HomeBelow(hashOf(key), blength, records);
        FirstIsHit(links, home, keyOf, key, b);
      }
      assert HitsOf(key) != [] ==> HitsOf(key)[0] in HitsOf(key);
      found := if current_record == NO_RECORD then Missing else Found(links[current_record].data);
    }

    /** The next record of the key, from the state a previous search left. */
    method Next(key: Key, current: nat) returns (found: Lookup, current_record: nat)
      requires Valid() && (current == NO_RECORD || current in HitsOf(key))
      ensures current_record != NO_RECORD ==> current_record < |links| && keyOf(links[current_record].data) == key
      ensures found == if current_record == NO_RECORD then Missing else Found(links[current_record].data)
      ensures current == NO_RECORD ==> current_record == NO_RECORD
      ensures forall k :: 0 <= k < |HitsOf(key)| && HitsOf(key)[k] == current ==>
                current_record == FirstOf(HitsOf(key)[k + 1..])
    {
      hide PartChained, Datas, UniqueKeys, Hits, Matching, Segment, HasKey;
      current_record := NO_RECORD;
      HitsAreTheRecords(key);
      assert forall k :: 0 <= k < |HitsOf(key)| ==> HitsOf(key)[k] in HitsOf(key);
      if current != NO_RECORD {
        ghost var k, rest := RestOfHits(key, current);
        current_record := NextRecord(links, keyOf, key, current, rest);
        assert forall i :: 0 <= i < |HitsOf(key)| && HitsOf(key)[i] == current ==> i == k;
        assert HitsOf(key)[k + 1..] != [] ==> HitsOf(key)[k + 1] in HitsOf(key);
      }
      found := if current_record == NO_RECORD then Missing else Found(links[current_record].data);
    }

    lemma RestOfHits(key: Key, current: nat) returns (k: nat, rest: seq<nat>)
      requires Valid() && current in HitsOf(key)
      ensures k < |HitsOf(key)| && HitsOf(key)[k] == current < |links|
      ensures Segment(links, links[current].next, rest, NO_RECORD)
      ensures Matching(links, keyOf, key, rest) == HitsOf(key)[k + 1..]
    {
      hide PartChained;
      var home, b := HomeFn(hashOf, keyOf, blength, records), HomeOf(hashOf(key), blength, records);
      k :| 0 <= k < |HitsOf(key)| && HitsOf(key)[k] == current;
      HeadInPlace(links, home, records, records, b);
      var c := ChainExists(links, home, records, records, b);
      ChainFromIs(links, b, c);
      rest := MatchingAfter(links, keyOf, key, b, c, k);
    }

    /** Stores a record. `memory` is false when the array cannot be extended. */
    method Insert(record: Rec, memory: bool) returns (failed: bool)
      requires Valid() && records < NO_RECORD
      modifies this
      ensures Valid() && keyOf == old(keyOf)
      ensures failed <==> !memory || (unique && HasKey(old(Stored()), keyOf, keyOf(record)))
      ensures failed ==> links == old(links) && records == old(records) && blength == old(blength)
      ensures !failed ==> Stored() == old(Stored()) + multiset{record} && records == old(records) + 1
      ensures !failed ==> FirstHolds(links, HitsOf(keyOf(record)), record)
    {
      hide PartChained, Datas, UniqueKeys, HasKey, Segment, Pow2, HomeFn, HomeOf, Hits, TableOk, HashNumbers;
      if unique {
        var found, _ := First(keyOf(record));
        if found != Missing {
          return true;
        }
      }
      if !memory {
        return true;
      }
      var data := InsertInto(links, hashOf, keyOf, blength, records, record);
      Doubled(data, hashOf, keyOf, blength, records + 1);
      FirstHit(data, hashOf, keyOf, blength, records + 1, record);
      if unique { UniqueAdd(Stored(), keyOf, record); }
      var full := records + 1 == blength;
      links, records, blength := data, records + 1, if full then blength + blength else blength;
      return false;
    }

    /** Removes one occurrence of the record. */
    method Delete(record: Rec) returns (failed: bool)
      requires Valid()
      modifies this
      ensures Valid() && keyOf == old(keyOf)
      ensures failed <==> record !in old(Stored())
      ensures failed ==> links == old(links) && records == old(records) && blength == old(blength)
      ensures !failed ==> Stored() == old(Stored()) - multiset{record} && records == old(records) - 1
    {
      hide PartChained, Datas, UniqueKeys, Segment, Pow2, HomeFn, Bag, Shrunk;
      if records == 0 {
        EmptyStored(links);
        return true;
      }
      ghost var m := Stored();
      var found, data := DeleteFrom(links, hashOf, keyOf, blength, records, record);
      if !found {
        return true;
      }
      if unique { UniqueSub(m, keyOf, record); }
      links, records, blength := data, records - 1, Shrunk(blength, records);
      return false;
    }

    /** To be called when `record` has changed its key from old_key: moves it to its new chain.
        A second copy of the pointer is left behind in the old chain. */
    method Update(record: Rec, old_key: Key) returns (result: UpdateResult)
      requires ValidFor(WithKey(keyOf, record, old_key))
      modifies this`links
      ensures Stored() == old(Stored())
      ensures result == OutsideArray <==> records == 0 && hashOf(old_key) != hashOf(keyOf(record))
      ensures result == Refused <==>
        || (unique && OtherHasKey(old(Stored()), keyOf, keyOf(record), record))
        || (records > 0 && record !in old(Stored()) && !SameSlot(hashOf, keyOf, blength, records, record, old_key))
      ensures result != Updated ==> links == old(links)
      ensures unique && OtherHasKey(old(Stored()), keyOf, keyOf(record), record) ==>
        ValidFor(WithKey(keyOf, record, old_key))
      ensures !(unique && OtherHasKey(old(Stored()), keyOf, keyOf(record), record)) ==>
        (Valid() <==> old(Stored())[record] <= 1 || SameSlot(hashOf, keyOf, blength, records, record, old_key))
      ensures result == Updated ==>
        if SameSlot(hashOf, keyOf, blength, records, record, old_key) then links == old(links)
        else JoinsChain(old(links), links, HomeFn(hashOf, WithKey(keyOf, record, old_key), blength, records),
                        HomeOf(hashOf(keyOf(record)), blength, records), record)
    {
      hide PartChained, HomeFn, HomeOf, Datas, Pow2, UniqueKeys, OtherHasKey, WithKey, HashNumbers, Word;
      HashFits(hashOf, old_key);
      HashFits(hashOf, keyOf(record));
      UpdateInside(hashOf(old_key), hashOf(keyOf(record)), blength, records);
      var idx, new_index := HomeOf(hashOf(old_key), blength, records), HomeOf(hashOf(keyOf(record)), blength, records);
      if records == 0 {
        EmptyUpdate(links, hashOf, keyOf, blength, record);
        return if idx == new_index then Updated else OutsideArray;  // there is no slot idx
      }
      if unique {
        var duplicate := OtherHolder(links, hashOf, keyOf, blength, record, old_key);
        if duplicate {
          return Refused;
        }
        UniqueUpdate(Stored(), keyOf, record, old_key);
        StoredOnce(Stored(), WithKey(keyOf, record, old_key), record);
      }
      var found, data := UpdateIn(links, hashOf, keyOf, blength, records, record, old_key);
      links := data;
      result := if found then Updated else Refused;
    }

    /** Empties the table, which can be used again at once. */
    method Reset()
      requires HashNumbers(hashOf)
      modifies this
      ensures Valid() && Stored() == multiset{} && records == 0 && blength == 1 && keyOf == old(keyOf)
    {
      links, records, blength := [], 0, 1;
      NoSlots([], HomeFn(hashOf, keyOf, 1, 0), 0);
    }

    /** The records are in the slots below `records`: a stored one is found in each of these and none
        elsewhere, and every stored record is in one of them. */
    method Element(idx: nat) returns (found: Lookup)
      requires Valid()
      ensures found == Missing <==> idx >= records
      ensures found.Found? ==> idx < |links| && links[idx].data == found.record && found.record in Stored()
      ensures forall r :: r in Stored() ==> exists i :: 0 <= i < records && links[i].data == r
    {
      hide PartChained, HomeFn;
      if idx < records {
        found := Found(links[idx].data);
        DatasIn(links, links[idx].data);
      } else {
        found := Missing;
      }
      forall r | r in Stored() ensures exists i :: 0 <= i < records && links[i].data == r { DatasIn(links, r); }
    }

    /** Asking for one element after the other gives exactly the stored records. */
    method Elements() returns (all: seq<Rec>)
      requires Valid()
      ensures multiset(all) == Stored() && |all| == records
    {
      hide PartChained, HomeFn;
      all := [];
      var found := Element(0);
      while found.Found?
        invariant |all| <= records && forall i :: 0 <= i < |all| ==> all[i] == links[i].data
        invariant if found.Found? then |all| < records && found.record == links[|all|].data else |all| == records
        decreases records - |all|, found.Found?
      {
        all := all + [found.record];
        found := Element(|all|);
      }
      assert all == Datas(links);
    }

    /** First, and then next until nothing more is found, give every slot of the key once. */
    method AllOf(key: Key) returns (slots: seq<nat>)
      requires Valid()
      ensures slots == HitsOf(key) && Distinct(slots)
      ensures forall i: nat :: i in slots <==> i < records && keyOf(links[i].data) == key
    {
      hide PartChained, Datas, UniqueKeys, Hits, HasKey, HomeFn, HomeOf;
      slots := [];
      HitsAreTheRecords(key);
      var found, current := First(key);
      while found.Found?
        invariant |slots| <= |HitsOf(key)| && slots == HitsOf(key)[..|slots|]
        invariant current == FirstOf(HitsOf(key)[|slots|..]) && (found == Missing <==> current == NO_RECORD)
        decreases |HitsOf(key)| - |slots|
      {
        assert |slots| < |HitsOf(key)| && current == HitsOf(key)[|slots|] && current in HitsOf(key);
        slots := slots + [current];
        found, current := Next(key, current);
      }
      NoMoreHits(HitsOf(key), |slots|, records);
    }

    /** Puts another record with the same key into the slot a search has found. */
    method Replace(current: nat, new_row: Rec)
      requires Valid() && (current == NO_RECORD || (current < records && keyOf(new_row) == keyOf(links[current].data)))
      modifies this`links
      ensures Valid()
      ensures links ==
        if current == NO_RECORD then old(links) else old(links)[current := Link(old(links[current].next), new_row)]
      ensures current != NO_RECORD ==>
        Stored() == old(Stored()) - multiset{old(links[current].data)} + multiset{new_row}
    {
      hide PartChained, Datas, UniqueKeys, HomeFn;
      if current != NO_RECORD {
        ReplaceOk(links, hashOf, keyOf, blength, records, current, new_row);
        if unique { UniqueReplace(Stored(), keyOf, links[current].data, new_row); }
        links := links[current := Link(links[current].next, new_row)];
      }
    }
  }
}
