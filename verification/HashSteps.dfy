/** The straight-line parts of insert, delete and update over the link array. */
module HashSteps {
  import opened BitMask
  import opened Chains
  import opened ChainPaths
  import opened Homes
  import opened HashLoops
  import Ops = ChainOps

  /** A table of n slots with the buffer bound b. */
  ghost predicate TableOk(L: seq<Link>, hashOf: Key -> nat, keyOf: Rec -> Key, b: nat, n: nat, hole: nat) {
    0 < n == |L| && Pow2(b) && b / 2 <= n <= b && WellChained(L, HomeFn(hashOf, keyOf, b, n), n, hole)
  }

  /** A foreign record at slot pos makes room: the chain leads from its own home to pos, and with
      that record in the free slot the table is whole but for pos. */
  lemma MakeRoom(links: seq<Link>, home: Rec -> nat, n: nat, empty: nat, pos: nat)
    returns (g: nat, path: seq<nat>)
    requires WellChained(links, home, n, empty) && |links| == n && empty < n && Used(n, empty, pos)
    requires home(links[pos].data) != pos
    ensures path != [] && pos !in path && path[|path| - 1] == g && g < n && g != pos && g != empty
    ensures Segment(links[empty := links[pos]], home(links[pos].data), path, pos)
    ensures var room := links[empty := links[pos]][g := Link(empty, links[g].data)];
            |room| == n && WellChained(room, home, n, pos) && Bag(room, pos) == Bag(links, empty)
  {
    g, path := PathTo(links, home, n, empty, pos);
    var moved := links[empty := links[pos]];
    SegmentFrame(links, moved, home(links[pos].data), path, pos);
    assert g in path;
    Ops.Relocate(links, home, n, empty, g, pos);
    assert Ops.Relocated(links, empty, g, pos) == links[empty := links[pos]][g := Link(empty, links[g].data)];
  }

  /** Then the record of home pos takes that slot. */
  lemma Evict(links: seq<Link>, home: Rec -> nat, n: nat, empty: nat, pos: nat, record: Rec)
    returns (g: nat, path: seq<nat>)
    requires WellChained(links, home, n, empty) && |links| == n && empty < n && Used(n, empty, pos)
    requires home(record) == pos != home(links[pos].data)
    ensures path != [] && pos !in path && path[|path| - 1] == g && g < n && g != pos && g != empty
    ensures Segment(links[empty := links[pos]][pos := Link(NO_RECORD, record)], home(links[pos].data), path, pos)
    ensures var done := links[empty := links[pos]][g := Link(empty, links[g].data)][pos := Link(NO_RECORD, record)];
            WellChained(done, home, n, n) && Bag(done, n) == Bag(links, empty) + multiset{record}
  {
    hide PartChained, Segment, Bag;
    g, path := MakeRoom(links, home, n, empty, pos);
    var moved := links[empty := links[pos]];
    SegmentFrame(moved, moved[pos := Link(NO_RECORD, record)], home(links[pos].data), path, pos);
    Ops.PlaceHead(moved[g := Link(empty, links[g].data)], home, n, pos, record);
  }

  /** Insert, after the split: the record goes to its home slot, whatever is there. */
  method PlaceRecord(links: seq<Link>, hashOf: Key -> nat, keyOf: Rec -> Key, b: nat, n: nat, empty: nat, record: Rec)
    returns (links': seq<Link>)
    requires TableOk(links, hashOf, keyOf, b, n, empty) && empty < n
    ensures TableOk(links', hashOf, keyOf, b, n, n)
    ensures Bag(links', n) == Bag(links, empty) + multiset{record}
    ensures var pos := HomeOf(hashOf(keyOf(record)), b, n); pos < n && links'[pos].data == record
  {
    hide PartChained, Segment, Bag, Datas;
    ghost var home := HomeFn(hashOf, keyOf, b, n);
    HomeBelow(hashOf(keyOf(record)), b, n);
    var pos := HomeOf(hashOf(keyOf(record)), b, n);
    if pos == empty {
      links' := links[pos := Link(NO_RECORD, record)];
      Ops.PlaceHead(links, home, n, empty, record);
    } else {
      links' := links[empty := links[pos]];
      var gpos := HomeOf(hashOf(keyOf(links[pos].data)), b, n);
      if pos == gpos {
        links' := links'[pos := Link(empty, record)];
        Ops.PlacePush(links, home, n, empty, pos, record);
      } else {
        ghost var g, path := Evict(links, home, n, empty, pos, record);
        links' := links'[pos := Link(NO_RECORD, record)];
        links' := MoveLink(links', pos, gpos, empty, path);
        assert links' == links[empty := links[pos]][g := Link(empty, links[g].data)][pos := Link(NO_RECORD, record)];
      }
    }
  }

  /** Unlinks the record at slot pos: behind slot gpos, or as the head of its chain, in which case
      the second record of the chain moves to its place. Returns the slot that is free now. */
  method Unlink(links: seq<Link>, ghost home: Rec -> nat, n: nat, hasPrev: bool, gpos: nat, pos: nat)
    returns (links': seq<Link>, empty: nat)
    requires WellChained(links, home, n, n) && |links| == n && pos < n
    requires if hasPrev then gpos < n && links[gpos].next == pos else home(links[pos].data) == pos
    ensures |links'| == n && empty < n && WellChained(links', home, n, empty)
    ensures Bag(links', empty) == multiset(Datas(links)) - multiset{links[pos].data}
    ensures forall p :: 0 <= p < n && p != pos && p != empty ==> links'[p].data == links[p].data
    ensures empty == pos || home(links[empty].data) == home(links[pos].data) == pos
  {
    HeadInPlace(links, home, n, n, pos);
    links', empty := links, pos;
    if hasPrev {
      links' := links'[gpos := Link(links[pos].next, links[gpos].data)];
      Ops.UnlinkInner(links, home, n, gpos, pos);
    } else if links[pos].next != NO_RECORD {
      empty := links[pos].next;
      NextSameHome(links, home, n, n, pos);
      links' := links'[pos := links[empty]];
      Ops.UnlinkHead(links, home, n, pos, empty);
    } else {
      Ops.UnlinkSingle(links, home, n, pos);
    }
  }

  /** The facts about the homes of the last record and of the record at its new home. */
  lemma LastHome(links: seq<Link>, home: Rec -> nat, home': Rec -> nat, m: nat, b: nat, empty: nat)
    requires WellChained(links, home, m + 1, empty) && |links| == m + 1 && empty < m && b < m
    requires Ops.Merges(home, home', m, b)
    ensures var pos := home'(links[m].data);
            && pos < m
            && (home(links[m].data) == m ==> b == pos)
            && (home(links[m].data) != m ==> home(links[m].data) == pos && pos != empty && home(links[pos].data) == pos)
            && (pos == empty ==> b == pos)
            && (pos != empty && home'(links[pos].data) != pos ==>
                  b == pos && home(links[m].data) == m && home(links[pos].data) == home'(links[pos].data))
  {
    HeadInPlace(links, home, m + 1, empty, m);
    var pos := home'(links[m].data);
    if pos != empty { HeadInPlace(links, home, m + 1, empty, pos); }
  }

  /** The last record belongs to slot pos, which holds a foreign record. */
  lemma MergeEvict(links: seq<Link>, home: Rec -> nat, home': Rec -> nat, m: nat, empty: nat, pos: nat)
    returns (g: nat, path: seq<nat>)
    requires WellChained(links, home, m + 1, empty) && |links| == m + 1 && empty < m && pos < m && pos != empty
    requires Ops.Merges(home, home', m, pos) && home(links[m].data) == m
    requires home(links[pos].data) != pos && home(links[pos].data) != m
    ensures path != [] && pos !in path && path[|path| - 1] == g && g < m
    ensures Segment(links[empty := links[pos]][pos := links[m]], home(links[pos].data), path, pos)
    ensures var done := links[empty := links[pos]][pos := links[m]][g := Link(empty, links[g].data)];
            g != empty && g != pos && WellChained(done, home', m, m) && Bag(done, m) == Bag(links, empty)
  {
    hide PartChained, Segment, Bag, Datas;
    g, path := PathTo(links, home, m + 1, empty, pos);
    assert g in path;
    var moved := links[empty := links[pos]][pos := links[m]];
    SegmentFrame(links, moved, home(links[pos].data), path, pos);
    Ops.Relocate(links, home, m + 1, empty, g, pos);
    Ops.MergeMoveHead(Ops.Relocated(links, empty, g, pos), home, home', m, pos);
    assert Ops.Relocated(links, empty, g, pos)[pos := links[m]] == moved[g := Link(empty, links[g].data)];
  }

  /** The last record stays in its bucket: it only moves to the free slot. */
  lemma MergeMoveLast(links: seq<Link>, home: Rec -> nat, home': Rec -> nat, m: nat, b: nat, empty: nat)
    returns (g: nat, path: seq<nat>)
    requires WellChained(links, home, m + 1, empty) && |links| == m + 1 && empty < m
    requires Ops.Merges(home, home', m, b) && home(links[m].data) != m
    ensures path != [] && m !in path && path[|path| - 1] == g && g < m
    ensures Segment(links[empty := links[m]], home(links[m].data), path, m)
    ensures var done := links[empty := links[m]][g := Link(empty, links[g].data)];
            g != empty && WellChained(done, home', m, m) && Bag(done, m) == Bag(links, empty)
  {
    hide PartChained, Segment, Bag, Datas;
    g, path := PathTo(links, home, m + 1, empty, m);
    assert g in path;
    SegmentFrame(links, links[empty := links[m]], home(links[m].data), path, m);
    Ops.Relocate(links, home, m + 1, empty, g, m);
    Ops.MergeFreeLast(Ops.Relocated(links, empty, g, m), home, home', m, b);
  }

  /** The chain of the last bucket is joined with slot pos, whichever bucket that slot is in. */
  lemma MergeJoin(links: seq<Link>, home: Rec -> nat, home': Rec -> nat, m: nat, empty: nat, pos: nat)
    returns (g: nat, path: seq<nat>)
    requires WellChained(links, home, m + 1, empty) && |links| == m + 1 && empty < m && pos < m && pos != empty
    requires Ops.Merges(home, home', m, pos) && home(links[m].data) == m
    requires home(links[pos].data) == m || home(links[pos].data) == pos
    ensures var find := if home(links[pos].data) == m then pos else NO_RECORD;
            && path != [] && find !in path && path[|path| - 1] == g && g < m
            && Segment(links[empty := links[m]], empty, path, find)
    ensures WellChained(Ops.Spliced(links, m, pos, empty, g), home', m, m)
    ensures Bag(Ops.Spliced(links, m, pos, empty, g), m) == Bag(links, empty)
  {
    hide PartChained, Bag, Datas;
    HeadInPlace(links, home, m + 1, empty, m);
    if home(links[pos].data) == m {
      var _, p := PathTo(links, home, m + 1, empty, pos);
      MovedStart(links, m, p, pos, empty);
      path := [empty] + p[1..];
      g := path[|path| - 1];
      assert forall i :: i in path ==> i == empty || i in p;
      SegmentLast(links[empty := links[m]], empty, path, pos);
      Ops.MergePromote(links, home, home', m, pos, empty, g);
    } else {
      var c := ChainExists(links, home, m + 1, empty, m);
      MovedStart(links, m, c, NO_RECORD, empty);
      path := [empty] + c[1..];
      g := path[|path| - 1];
      assert forall i :: i in path ==> i == empty || i in c;
      SegmentLast(links[empty := links[m]], empty, path, NO_RECORD);
      Ops.MergeSplice(links, home, home', m, pos, empty, g);
    }
  }

  lemma NoSlots(links: seq<Link>, home: Rec -> nat, m: nat)
    requires m == 0
    ensures WellChained(links, home, m, m)
  {
    var k := |links|;
    var t := Shape(0, 0, {}, seq(k, i requires 0 <= i < k => links[i].next),
      seq(k, i requires 0 <= i < k => home(links[i].data)), seq(k, i => 0), seq(k, i => 0));
    assert t.Describes(links, home, 0, 0, {});
  }

  /** The last slot is the free one: nothing has to move. */
  lemma MergeNothing(links: seq<Link>, hashOf: Key -> nat, keyOf: Rec -> Key, b: nat, m: nat)
    requires |links| == m + 1 && Pow2(b) && b / 2 <= m + 1 < b
    requires WellChained(links, HomeFn(hashOf, keyOf, b, m + 1), m + 1, m)
    ensures WellChained(links, HomeFn(hashOf, keyOf, Shrunk(b, m + 1), m), m, m)
  {
    hide PartChained, HomeFn;
    if m == 0 {
      NoSlots(links, HomeFn(hashOf, keyOf, Shrunk(b, m + 1), m), m);
    } else {
      ShrinkMerges(hashOf, keyOf, b, m + 1);
      Ops.MergeFreeLast(links, HomeFn(hashOf, keyOf, b, m + 1), HomeFn(hashOf, keyOf, Shrunk(b, m + 1), m),
                        m, m - Shrunk(b, m + 1) / 2);
    }
  }

  /** The case of delete where the last record's new home `pos` is occupied, by a record whose own
      new home is pos3; pos2 and pos4 are the homes of the two records before the merge. */
  method MergeOccupied(links: seq<Link>, m: nat, empty: nat, pos: nat, pos3: nat, pos2: nat, pos4: nat,
                    ghost home: Rec -> nat, ghost home': Rec -> nat, ghost bucket: nat)
    returns (links': seq<Link>)
    requires WellChained(links, home, m + 1, empty) && |links| == m + 1 && empty < m && bucket < m
    requires Ops.Merges(home, home', m, bucket) && pos == home'(links[m].data) && pos < m && pos != empty
    requires pos3 == home'(links[pos].data) && pos2 == home(links[m].data) && pos4 == home(links[pos].data)
    ensures |links'| == m + 1 && WellChained(links', home', m, m) && Bag(links', m) == Bag(links, empty)
  {
    hide PartChained, Segment, Bag, Datas;
    LastHome(links, home, home', m, bucket, empty);
    ghost var g, path;
    if pos != pos3 {  // a foreign record makes room
      g, path := MergeEvict(links, home, home', m, empty, pos);
      links' := links[empty := links[pos]];
      links' := links'[pos := links[m]];
      links' := MoveLink(links', pos, pos3, empty, path);
      return;
    }
    var idx;
    if pos2 == pos4 {  // both were in one bucket
      if pos2 != m {
        g, path := MergeMoveLast(links, home, home', m, bucket, empty);
        links' := links[empty := links[m]];
        links' := MoveLink(links', m, pos, empty, path);
        return;
      }
      idx := pos;  // the bucket that vanishes: its record in slot pos becomes the head
    } else {
      idx := NO_RECORD;  // two chains: one goes behind the head of the other
    }
    g, path := MergeJoin(links, home, home', m, empty, pos);
    links' := links[empty := links[m]];
    links' := MoveLink(links', idx, empty, links'[pos].next, path);
    links' := links'[pos := Link(empty, links'[pos].data)];
  }

  /** Delete, after the record was unlinked: the last slot is emptied and its bucket merged. */
  method MergeLast(links: seq<Link>, hashOf: Key -> nat, keyOf: Rec -> Key, b: nat, b': nat, m: nat, empty: nat)
    returns (links': seq<Link>)
    requires |links| == m + 1 && Pow2(b) && b / 2 <= m + 1 < b && b' == Shrunk(b, m + 1) && empty <= m
    requires WellChained(links, HomeFn(hashOf, keyOf, b, m + 1), m + 1, empty)
    ensures |links'| == m + 1 && WellChained(links', HomeFn(hashOf, keyOf, b', m), m, m)
    ensures Bag(links', m) == Bag(links, empty)
  {
    hide PartChained, Segment, Bag, Datas, HomeFn, HomeOf, Pow2, Shrunk;
    links' := links;
    ShrunkOk(b, m + 1);
    if empty == m {
      MergeNothing(links, hashOf, keyOf, b, m);
      return;
    }
    ghost var home, home', bucket := HomeFn(hashOf, keyOf, b, m + 1), HomeFn(hashOf, keyOf, b', m), m - b' / 2;
    ShrinkMerges(hashOf, keyOf, b, m + 1);
    LastHome(links, home, home', m, bucket, empty);
    HomeFnAt(hashOf, keyOf, b', m, links[m].data);
    HomeFnAt(hashOf, keyOf, b, m + 1, links[m].data);
    var lastpos_hashnr := hashOf(keyOf(links[m].data));
    var pos := HomeOf(lastpos_hashnr, b', m);
    if pos == empty {
      Ops.MergeMoveHead(links, home, home', m, pos);
      links' := links[empty := links[m]];
      return;
    }
    HomeFnAt(hashOf, keyOf, b', m, links[pos].data);
    HomeFnAt(hashOf, keyOf, b, m + 1, links[pos].data);
    var pos_hashnr := hashOf(keyOf(links[pos].data));
    var pos3 := HomeOf(pos_hashnr, b', m);
    var pos2, pos4 := HomeOf(lastpos_hashnr, b, m + 1), HomeOf(pos_hashnr, b, m + 1);
    links' := MergeOccupied(links, m, empty, pos, pos3, pos2, pos4, home, home', bucket);
  }
}
