/** The loops of the hash table over its link array. */
module HashLoops {
  import opened Chains
  import opened Homes
  import opened SplitLoop

  /** Redirects to `newlink` the link to `find` in the chain that starts at slot `start`. */
  method MoveLink(links: seq<Link>, find: nat, start: nat, newlink: nat, ghost path: seq<nat>)
    returns (links': seq<Link>)
    requires Segment(links, start, path, find) && path != [] && find !in path
    ensures path[|path| - 1] < |links|
    ensures links' == links[path[|path| - 1] := Link(newlink, links[path[|path| - 1]].data)]
  {
    var old_link := start;
    var next_link := links[old_link].next;
    ghost var rest := path;
    while next_link != find
      invariant Segment(links, old_link, rest, find) && rest != [] && find !in rest
      invariant rest[|rest| - 1] == path[|path| - 1]
      invariant old_link < |links| && next_link == links[old_link].next
      decreases |rest|
    {
      old_link := next_link;
      next_link := links[old_link].next;
      rest := rest[1..];
    }
    assert rest == [old_link];
    links' := links[old_link := Link(newlink, links[old_link].data)];
  }

  /** One turn of the splitting loop: the record of slot `pos` joins the low or the high chain. */
  method SplitTurn(links: seq<Link>, moves: bool, pos: nat, low: Tail, high: Tail, empty: nat,
                   ghost s: State, ghost j: Job)
    returns (links': seq<Link>, low': Tail, high': Tail, empty': nat)
    requires s.Indexed(j) && pos == j.c[s.k] && s == State(links, s.view, s.k, empty, low, high)
    requires j.moves(links[pos].data) == moves
    ensures s.Turn(j) == State(links', s.Turn(j).view, s.k + 1, empty', low', high')
  {
    links', low', high', empty' := links, low, high, empty;
    if !moves {
      if !low.find {
        if high.find {
          // the low chain starts in the slot that the high chain has freed; its link is due later
          low' := Tail(true, false, empty, links[pos].data);
          high' := high.(used := false);
          empty' := pos;
        } else {
          // the low chain starts where the whole chain did
          low' := Tail(true, true, pos, links[pos].data);
        }
      } else {
        if !low.used {
          // the link that is due can be written: the next low record is known
          links' := links[low.pos := Link(pos, low.rec)];
          high' := high.(used := false);
        }
        low' := Tail(true, true, pos, links[pos].data);
      }
    } else {
      if !high.find {
        // the high chain starts in the free slot; its link is due later
        high' := Tail(true, false, empty, links[pos].data);
        low' := low.(used := false);
        empty' := pos;
      } else {
        if !high.used {
          // likewise for the high chain
          links' := links[high.pos := Link(pos, high.rec)];
          low' := low.(used := false);
        }
        high' := Tail(true, true, pos, links[pos].data);
      }
    }
  }

  /** The splitting loop of insert: bucket records - blength/2 is divided, in place and in one
      pass over its chain, between its own slot and the new last slot; one slot is left free. */
  method SplitBucket(links: seq<Link>, hashOf: Key -> nat, keyOf: Rec -> Key, blength: nat, records: nat,
                     ghost j: Job, ghost states: seq<State>, ghost out: seq<Link>, ghost e: nat)
    returns (links': seq<Link>, empty: nat)
    requires 0 < records < blength && GrowsBy(j, states, out, e, links, hashOf, keyOf, blength, records)
    ensures links' == out && empty == e
  {
    links', empty := links, records;
    var halfbuff := blength / 2;
    var first_index := records - halfbuff;
    ghost var k := 0;
    var idx := first_index;
    var low, high := NONE_YET, NONE_YET;
    while idx != NO_RECORD
      invariant j.c == [] ==> idx == first_index && k == 0
      invariant j.c != [] ==> k <= |j.c| && idx == At(j.c, k)
      invariant states[k] == State(links', states[k].view, k, empty, low, high)
      decreases |j.c| - k
    {
      var pos := idx;
      assert j.c != [] ==> TurnAt(j, states, k);
      var hash_nr := hashOf(keyOf(links'[pos].data));
      if !low.find && !high.find {  // a foreign record here: there is no chain to split
        if HomeOf(hash_nr, blength, records) != first_index {
          break;
        }
      }
      links', low, high, empty := SplitTurn(links', HasBit(hash_nr, halfbuff), pos, low, high, empty, states[k], j);
      idx := links'[pos].next;
      k := k + 1;
    }
    assert k < |j.c| ==> TurnAt(j, states, k);
    if low.find && !low.used {
      links' := links'[low.pos := Link(NO_RECORD, low.rec)];
    }
    if high.find && !high.used {
      links' := links'[high.pos := Link(NO_RECORD, high.rec)];
    }
  }
}
