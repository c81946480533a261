/**
 The one-pass loop that splits a bucket. It keeps the last record of the low chain (gpos) and of
 the high chain (gpos2) in hand and writes their links late; `view` is the link array as it would
 be with those writes done.
 */
module SplitLoop {
  import opened Chains
  import opened ChainSplit

  /** One side of the split: found any record yet, is the last one's slot already up to date,
      which slot is it, and which record. */
  datatype Tail = Tail(find: bool, used: bool, pos: nat, rec: Rec)

  ghost function At(c: seq<nat>, k: nat): nat {
    if k < |c| then c[k] else NO_RECORD
  }

  /** What does not change during the loop: homes after the split, the records that move, old number
      of slots, the bucket that is split, its chain, and the links before the loop. */
  datatype Job = Job(home: Rec -> nat, moves: Rec -> bool, n: nat, f: nat, c: seq<nat>, before: seq<Link>)

  /** The loop state after k records of the chain. */
  datatype State = State(links: seq<Link>, view: seq<Link>, k: nat, empty: nat, low: Tail, high: Tail) {

    ghost function Rest(j: Job): seq<nat> {
      if k <= |j.c| then j.c[k..] else []
    }

    ghost function Idx(j: Job): nat {
      At(j.c, k)
    }

    /** Slot i is not one of those still to come. */
    ghost predicate Behind(j: Job, i: nat) {
      forall a :: k <= a < |j.c| ==> j.c[a] != i
    }

    ghost predicate TailOk(t: Tail, j: Job, bucket: nat)
      requires |links| == |view| == j.n + 1
    {
      && (t.used ==> t.find) && t.pos <= j.n
      && (t.find ==>
            && Used(j.n + 1, empty, t.pos) && Behind(j, t.pos)
            && view[t.pos] == Link(NO_RECORD, t.rec) && j.home(t.rec) == bucket
            && (t.used ==> links[t.pos] == Link(Idx(j), t.rec)))
    }

    /** The view is well chained but for the records still to come, and holds all records. */
    ghost predicate Chained(j: Job) {
      && |view| == |j.before| == j.n + 1
      && PartChained(view, j.home, j.n + 1, empty, Elements(Rest(j)))
      && empty <= j.n
      && Bag(view, empty) == Bag(j.before, j.n)
    }

    /** The array agrees with the view except where a write is due; the rest of the chain is as
        it was; and the flags tell where the free slot is. */
    ghost predicate Deferred(j: Job) {
      && |links| == |view| == |j.before| == j.n + 1 && k <= |j.c|
      && empty <= j.n && Behind(j, empty)
      && TailOk(low, j, j.f) && TailOk(high, j, j.n)
      && !(low.used && high.used)
      && (k == 0 <==> !low.find && !high.find)
      && (!high.find ==> empty == j.n)
      && (high.find && !low.find ==> empty == j.f)
      && (forall i :: 0 <= i <= j.n && !(low.find && i == low.pos) && !(high.find && i == high.pos) ==>
            links[i] == view[i])
      && (forall a :: k <= a < |j.c| ==> j.c[a] <= j.n && links[j.c[a]] == j.before[j.c[a]])
    }

    ghost predicate Ok(j: Job) {
      Chained(j) && Deferred(j)
    }

    ghost function Rec(j: Job): Rec {
      if k < |j.c| && j.c[k] < |links| then links[j.c[k]].data else 0
    }

    // one turn of the loop, by the branch it takes

    ghost function KeepFirst(j: Job): State
      requires k < |j.c| && j.c[k] < |view|
    {
      this.(k := k + 1, view := view[j.c[k] := Link(NO_RECORD, Rec(j))], low := Tail(true, true, j.c[k], Rec(j)))
    }

    ghost function FirstLow(j: Job): State
      requires k < |j.c| && empty < |view|
    {
      this.(k := k + 1, view := view[empty := Link(NO_RECORD, Rec(j))], empty := j.c[k],
            low := Tail(true, false, empty, Rec(j)), high := high.(used := false))
    }

    ghost function FirstHigh(j: Job): State
      requires k < |j.c| && empty < |view|
    {
      this.(k := k + 1, view := view[empty := Link(NO_RECORD, Rec(j))], empty := j.c[k],
            high := Tail(true, false, empty, Rec(j)), low := low.(used := false))
    }

    ghost function NextLow(j: Job): State
      requires k < |j.c| && j.c[k] < |view| && low.pos < |view| == |links|
    {
      this.(k := k + 1, view := Appended(view, low.pos, j.c[k]),
            links := if low.used then links else links[low.pos := Link(j.c[k], low.rec)],
            low := Tail(true, true, j.c[k], Rec(j)), high := high.(used := high.used && low.used))
    }

    ghost function NextHigh(j: Job): State
      requires k < |j.c| && j.c[k] < |view| && high.pos < |view| == |links|
    {
      this.(k := k + 1, view := Appended(view, high.pos, j.c[k]),
            links := if high.used then links else links[high.pos := Link(j.c[k], high.rec)],
            high := Tail(true, true, j.c[k], Rec(j)), low := low.(used := low.used && high.used))
    }

    ghost predicate Indexed(j: Job) {
      k < |j.c| && j.c[k] < |view| == |links| && empty < |view| && low.pos < |view| && high.pos < |view|
    }

    ghost function Turn(j: Job): State {
      if !Indexed(j) then this
      else if j.moves(Rec(j)) then
        if high.find then NextHigh(j) else FirstHigh(j)
      else
        if low.find then NextLow(j) else if high.find then FirstLow(j) else KeepFirst(j)
    }
  }

  ghost predicate LinkAt(j: Job, a: int)
    requires 0 <= a < |j.c| && |j.before| == j.n + 1
  {
    && j.c[a] < j.n && j.before[j.c[a]].next == At(j.c, a + 1)
    && var rec := j.before[j.c[a]].data;
       j.home(rec) == if j.moves(rec) then j.n else j.f
  }

  ghost predicate JobOk(j: Job) {
    && |j.before| == j.n + 1 && j.f < j.n < NO_RECORD
    && j.c != [] && j.c[0] == j.f && Distinct(j.c)
    && forall a {:trigger LinkAt(j, a)} :: 0 <= a < |j.c| ==> LinkAt(j, a)
  }

  const NONE_YET := Tail(false, false, 0, 0)

  ghost function Begin(j: Job): State {
    State(j.before, j.before, 0, j.n, NONE_YET, NONE_YET)
  }

  lemma {:induction false} SegmentLinks(L: seq<Link>, i: nat, c: seq<nat>, a: nat)
    requires Segment(L, i, c, NO_RECORD) && a < |c|
    ensures c[a] < |L| && L[c[a]].next == At(c, a + 1)
    decreases a
  {
    if a > 0 {
      SegmentLinks(L, L[i].next, c[1..], a - 1);
    }
  }

  /** The work to be done for bucket f; with an empty chain there is none. */
  lemma MakeJob(before: seq<Link>, home: Rec -> nat, home': Rec -> nat, high: Rec -> bool, n: nat, f: nat)
    returns (j: Job)
    requires |before| == n + 1 && WellChained(before[..n], home, n, n) && Splits(home, home', high, f, n)
    requires f < n < NO_RECORD
    ensures j == Job(home', high, n, f, j.c, before)
    ensures if home(before[f].data) == f then JobOk(j) && Begin(j).Ok(j)
            else j.c == [] && WellChained(before, home', n + 1, n)
  {
    var L := before[..n];
    assert L + [before[n]] == before;
    j := Job(home', high, n, f, [], before);
    if home(before[f].data) != f {
      StartEmpty(L, before[n], home, home', high, n, f);
    } else {
      var c := ChainExists(L, home, n, n, f);
      Start(L, before[n], home, home', high, n, f, c);
      j := Job(home', high, n, f, c, before);
      forall a | 0 <= a < |c| ensures LinkAt(j, a) && c[a] < n {
        SegmentLinks(L, f, c, a);
        assert c[a] in c;
      }
      var s := Begin(j);
      assert s.Rest(j) == c;
      assert s.Chained(j);
      assert s.Deferred(j);
    }
  }

  lemma RestStep(c: seq<nat>, k: nat)
    requires k < |c| && Distinct(c)
    ensures c[k] in c[k..] && Elements(c[k..]) - {c[k]} == Elements(c[k + 1..])
  {
    var rest := c[k + 1..];
    assert c[k..] == [c[k]] + rest;
    forall i | i in rest ensures i != c[k] {
      var a :| 0 <= a < |rest| && rest[a] == i;
      assert c[k + 1 + a] == i;
    }
  }

  /** The next record in the chain, before it is looked at. */
  lemma Current(s: State, j: Job)
    requires JobOk(j) && s.Deferred(j) && s.k < |j.c|
    ensures var pos := j.c[s.k];
            && pos < j.n && s.links[pos] == s.view[pos] == j.before[pos] && pos != s.empty
            && s.links[pos].next == At(j.c, s.k + 1)
            && (s.low.find ==> s.low.pos != pos) && (s.high.find ==> s.high.pos != pos)
  {
    assert LinkAt(j, s.k);
  }

  lemma CurrentRest(s: State, j: Job)
    requires JobOk(j) && s.Deferred(j) && s.k < |j.c|
    ensures var pos := j.c[s.k];
            && pos in s.Rest(j) && s.empty !in s.Rest(j)
            && Elements(s.Rest(j)) - {pos} == Elements(s.(k := s.k + 1).Rest(j))
    ensures s.low.find ==> s.low.pos !in s.Rest(j)
    ensures s.high.find ==> s.high.pos !in s.Rest(j)
  {
    RestStep(j.c, s.k);
  }

  /** The first record of the chain stays where it is. */
  lemma KeepFirstDeferred(s: State, j: Job)
    requires JobOk(j) && s.Deferred(j) && s.k == 0 && j.home(s.Rec(j)) == j.f
    ensures s.KeepFirst(j).Deferred(j)
  {
    Current(s, j);
  }

  lemma KeepFirstOk(s: State, j: Job)
    requires JobOk(j) && s.Ok(j) && s.k == 0 && j.home(s.Rec(j)) == j.f
    ensures s.KeepFirst(j).Ok(j)
  {
    KeepFirstDeferred(s, j);
    Current(s, j);
    CurrentRest(s, j);
    Keep(s.view, j.home, j.n + 1, s.empty, Elements(s.Rest(j)), j.c[0]);
    assert Datas(s.KeepFirst(j).view) == Datas(s.view);
  }

  /** The first record of its side, not of the chain: it is to move to the slot free so far. */
  lemma FirstLowDeferred(s: State, j: Job)
    requires JobOk(j) && s.Deferred(j) && 0 < s.k < |j.c| && LinkAt(j, s.k) && !s.low.find && j.home(s.Rec(j)) == j.f
    ensures s.FirstLow(j).Deferred(j)
  {
    Current(s, j);
  }

  lemma FirstLowOk(s: State, j: Job)
    requires JobOk(j) && s.Ok(j) && 0 < s.k < |j.c| && LinkAt(j, s.k) && !s.low.find && j.home(s.Rec(j)) == j.f
    ensures s.FirstLow(j).Ok(j)
  {
    FirstLowDeferred(s, j);
    Current(s, j);
    CurrentRest(s, j);
    Move(s.view, j.home, j.n + 1, s.empty, Elements(s.Rest(j)), j.c[s.k]);
  }

  lemma FirstHighDeferred(s: State, j: Job)
    requires JobOk(j) && s.Deferred(j) && s.k < |j.c| && LinkAt(j, s.k) && !s.high.find && j.home(s.Rec(j)) == j.n
    ensures s.FirstHigh(j).Deferred(j)
  {
    Current(s, j);
  }

  lemma FirstHighOk(s: State, j: Job)
    requires JobOk(j) && s.Ok(j) && s.k < |j.c| && LinkAt(j, s.k) && !s.high.find && j.home(s.Rec(j)) == j.n
    ensures s.FirstHigh(j).Ok(j)
  {
    FirstHighDeferred(s, j);
    Current(s, j);
    CurrentRest(s, j);
    Move(s.view, j.home, j.n + 1, s.empty, Elements(s.Rest(j)), j.c[s.k]);
  }

  // A further record of a side: if the side's last link is not up to date it is written now.

  lemma NextLowDeferred(s: State, j: Job)
    requires JobOk(j) && s.Deferred(j) && s.k < |j.c| && LinkAt(j, s.k) && s.low.find && j.home(s.Rec(j)) == j.f
    ensures s.NextLow(j).Deferred(j)
  {
    Current(s, j);
  }

  lemma NextLowOk(s: State, j: Job)
    requires JobOk(j) && s.Ok(j) && s.k < |j.c| && LinkAt(j, s.k) && s.low.find && j.home(s.Rec(j)) == j.f
    ensures s.NextLow(j).Ok(j)
  {
    NextLowDeferred(s, j);
    Current(s, j);
    CurrentRest(s, j);
    Append(s.view, j.home, j.n + 1, s.empty, Elements(s.Rest(j)), s.low.pos, j.c[s.k]);
  }

  lemma NextHighDeferred(s: State, j: Job)
    requires JobOk(j) && s.Deferred(j) && s.k < |j.c| && LinkAt(j, s.k) && s.high.find && j.home(s.Rec(j)) == j.n
    ensures s.NextHigh(j).Deferred(j)
  {
    Current(s, j);
  }

  lemma NextHighOk(s: State, j: Job)
    requires JobOk(j) && s.Ok(j) && s.k < |j.c| && LinkAt(j, s.k) && s.high.find && j.home(s.Rec(j)) == j.n
    ensures s.NextHigh(j).Ok(j)
  {
    NextHighDeferred(s, j);
    Current(s, j);
    CurrentRest(s, j);
    Append(s.view, j.home, j.n + 1, s.empty, Elements(s.Rest(j)), s.high.pos, j.c[s.k]);
  }

  /** Every turn of the loop keeps the loop invariant. */
  lemma TurnOk(s: State, j: Job)
    requires JobOk(j) && s.Ok(j) && s.k < |j.c|
    ensures s.Indexed(j) && s.Turn(j).Ok(j) && s.Turn(j).k == s.k + 1 && s.links[j.c[s.k]].next == s.Turn(j).Idx(j)
  {
    hide PartChained, Bag, Datas, State.Chained;
    Current(s, j);
    assert LinkAt(j, s.k);
    if j.moves(s.Rec(j)) {
      if s.high.find { NextHighOk(s, j); } else { FirstHighOk(s, j); }
    } else if s.low.find {
      NextLowOk(s, j);
    } else if s.high.find {
      FirstLowOk(s, j);
    } else {
      KeepFirstOk(s, j);
    }
  }

  ghost function Flushed(links: seq<Link>, t: Tail): (links': seq<Link>)
  {
    if t.find && !t.used && t.pos < |links| then links[t.pos := Link(NO_RECORD, t.rec)] else links
  }

  /** What the loop needs to know for turn k of the run `states`. */
  ghost predicate TurnAt(j: Job, states: seq<State>, k: int)
    requires 0 <= k < |j.c| < |states|
  {
    var s := states[k];
    && s.k == k && s.Indexed(j) && j.c[k] < |j.before| && s.links[j.c[k]] == j.before[j.c[k]]
    && (k == 0 <==> !s.low.find && !s.high.find) && states[k + 1] == s.Turn(j)
    && j.c[k] < |states[k + 1].links| && states[k + 1].links[j.c[k]].next == At(j.c, k + 1)
  }

  /** A run of the loop over the whole chain, and what it leaves behind. */
  ghost predicate IsRun(j: Job, states: seq<State>, out: seq<Link>, empty: nat) {
    && |states| == |j.c| + 1 && states[0] == Begin(j)
    && (forall k {:trigger TurnAt(j, states, k)} :: 0 <= k < |j.c| ==> TurnAt(j, states, k))
    && var last := states[|j.c|];
       && |last.links| == j.n + 1 && last.low.pos <= j.n && last.high.pos <= j.n
       && out == Flushed(Flushed(last.links, last.low), last.high) && empty == last.empty
  }

  ghost predicate Good(j: Job, states: seq<State>, i: int)
    requires 0 <= i < |states|
  {
    states[i].Ok(j) && states[i].k == i && (i > 0 ==> states[i] == states[i - 1].Turn(j))
  }

  /** The loop invariant holds after any number of turns. */
  lemma {:induction false} RunOk(j: Job, k: nat) returns (states: seq<State>)
    requires JobOk(j) && Begin(j).Ok(j) && k <= |j.c|
    ensures |states| == k + 1 && states[0] == Begin(j)
    ensures forall i {:trigger Good(j, states, i)} :: 0 <= i <= k ==> Good(j, states, i)
    decreases k
  {
    hide State.Ok, State.Turn;
    if k == 0 {
      states := [Begin(j)];
    } else {
      var states' := RunOk(j, k - 1);
      assert Good(j, states', k - 1);
      states := states' + [states'[k - 1].Turn(j)];
      forall i | 0 <= i <= k ensures Good(j, states, i) {
        if i < k { assert Good(j, states', i); } else { TurnOk(states'[k - 1], j); }
      }
    }
  }

  lemma TurnAtOk(j: Job, states: seq<State>, k: nat)
    requires JobOk(j) && k < |j.c| && |states| == |j.c| + 1 && Good(j, states, k) && Good(j, states, k + 1)
    ensures TurnAt(j, states, k)
  {
    Current(states[k], j);
    TurnOk(states[k], j);
    assert LinkAt(j, k);
  }

  /** The loop, started for bucket f, splits it into two complete chains with one free slot and
      all the records. An empty chain means that slot f holds a foreign record: nothing to split. */
  lemma Plan(before: seq<Link>, home: Rec -> nat, home': Rec -> nat, high: Rec -> bool, n: nat, f: nat)
    returns (j: Job, states: seq<State>, out: seq<Link>, empty: nat)
    requires |before| == n + 1 && WellChained(before[..n], home, n, n) && Splits(home, home', high, f, n)
    requires f < n < NO_RECORD
    ensures j == Job(home', high, n, f, j.c, before) && (j.c != [] <==> home(before[f].data) == f)
    ensures j.c != [] ==> j.c[0] == f
    ensures IsRun(j, states, out, empty)
    ensures |out| == n + 1 && empty <= n && WellChained(out, home', n + 1, empty) && Bag(out, empty) == Bag(before, n)
  {
    hide PartChained, Bag, Datas;
    j := MakeJob(before, home, home', high, n, f);
    if j.c == [] {
      states, out, empty := [Begin(j)], before, n;
    } else {
      states, out, empty := WholeRun(j);
    }
  }

  lemma WholeRun(j: Job) returns (states: seq<State>, out: seq<Link>, empty: nat)
    requires JobOk(j) && Begin(j).Ok(j)
    ensures IsRun(j, states, out, empty)
    ensures |out| == j.n + 1 && empty <= j.n && WellChained(out, j.home, j.n + 1, empty)
    ensures Bag(out, empty) == Bag(j.before, j.n)
  {
    hide PartChained, Bag, Datas;
    states := RunOk(j, |j.c|);
    forall k | 0 <= k < |j.c| ensures TurnAt(j, states, k) {
      assert Good(j, states, k) && Good(j, states, k + 1);
      TurnAtOk(j, states, k);
    }
    var s := states[|j.c|];
    assert Good(j, states, |j.c|);
    out, empty := Flushed(Flushed(s.links, s.low), s.high), s.empty;
    LastOk(s, j);
  }

  lemma LastOk(s: State, j: Job)
    requires JobOk(j) && s.Ok(j) && s.k == |j.c|
    ensures Flushed(Flushed(s.links, s.low), s.high) == s.view && s.low.pos <= j.n && s.high.pos <= j.n
    ensures WellChained(s.view, j.home, j.n + 1, s.empty)
  {
    assert Elements(s.Rest(j)) == {};
  }
}
