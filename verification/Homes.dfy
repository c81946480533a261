/** The home slot of a record, and how homes change when the table grows or shrinks by a slot. */
module Homes {
  import opened BitMask
  import opened Chains
  import Ops = ChainOps
  import Split = ChainSplit
  import opened SplitLoop

  type Key = string

  /** Hash numbers have 32 bits. */
  ghost predicate HashNumbers(hashOf: Key -> nat) {
    forall key :: hashOf(key) <= Word(INT_BITS)
  }

  /** The slot of a hash number in a table of n slots; only a table with slots has one below n. */
  function HomeOf(hashnr: nat, blength: nat, n: nat): nat {
    Mask(hashnr, blength, n)
  }

  predicate HasBit(hashnr: nat, bit: nat) {
    And(hashnr, bit) != 0
  }

  ghost function HomeFn(hashOf: Key -> nat, keyOf: Rec -> Key, blength: nat, n: nat): Rec -> nat {
    (r: Rec) => HomeOf(hashOf(keyOf(r)), blength, n)
  }

  ghost function HighFn(hashOf: Key -> nat, keyOf: Rec -> Key, bit: nat): Rec -> bool {
    (r: Rec) => HasBit(hashOf(keyOf(r)), bit)
  }

  lemma HomeFnAt(hashOf: Key -> nat, keyOf: Rec -> Key, b: nat, n: nat, r: Rec)
    ensures HomeFn(hashOf, keyOf, b, n)(r) == HomeOf(hashOf(keyOf(r)), b, n)
  {}

  /** The buffer bound after a record left a table of n records. */
  function Shrunk(b: nat, n: nat): nat {
    if n - 1 < b / 2 then b / 2 else b
  }

  lemma ShrunkOk(b: nat, n: nat)
    requires Pow2(b) && b / 2 <= n < b && 0 < n
    ensures var b' := Shrunk(b, n); Pow2(b') && b' / 2 <= n - 1 < b'
  {}

  lemma HomeBelow(h: nat, b: nat, n: nat)
    requires Pow2(b) && b / 2 <= n && 0 < n
    ensures HomeOf(h, b, n) < n
  {
    MaskBelow(h, b, n);
  }

  lemma HomeGrow(h: nat, b: nat, n: nat)
    requires Pow2(b) && b / 2 <= n < b && 0 < n
    ensures HomeOf(h, b, n + 1) == if HomeOf(h, b, n) == n - b / 2 && HasBit(h, b / 2) then n else HomeOf(h, b, n)
  {
    MaskGrow(h, b, n);
  }

  lemma HomeDouble(h: nat, b: nat)
    requires Pow2(b)
    ensures HomeOf(h, b + b, b) == HomeOf(h, b, b)
  {
    assert b + b == 2 * b;
    MaskDoubling(h, b);
  }

  lemma HomeShrink(h: nat, b: nat, n: nat)
    requires Pow2(b) && b / 2 <= n < b && 1 < n
    ensures var b' := Shrunk(b, n);
            HomeOf(h, b', n - 1) == if HomeOf(h, b, n) == n - 1 then n - 1 - b' / 2 else HomeOf(h, b, n)
  {
    var b' := Shrunk(b, n);
    if b' != b {
      assert n == b' && b == 2 * b';
      MaskDoubling(h, b');
    }
    HomeGrow(h, b', n - 1);
    HomeBelow(h, b', n - 1);
  }

  /** Growing from n to n+1 slots splits exactly the bucket n - b/2, by the bit b/2. */
  lemma GrowSplits(hashOf: Key -> nat, keyOf: Rec -> Key, b: nat, n: nat)
    requires Pow2(b) && b / 2 <= n < b && 0 < n
    ensures Split.Splits(HomeFn(hashOf, keyOf, b, n), HomeFn(hashOf, keyOf, b, n + 1),
                         HighFn(hashOf, keyOf, b / 2), n - b / 2, n)
  {
    forall r: Rec
      ensures HomeFn(hashOf, keyOf, b, n + 1)(r) ==
        if HomeFn(hashOf, keyOf, b, n)(r) == n - b / 2 && HighFn(hashOf, keyOf, b / 2)(r)
        then n else HomeFn(hashOf, keyOf, b, n)(r)
    {
      HomeGrow(hashOf(keyOf(r)), b, n);
    }
  }

  /** Shrinking from n to n-1 slots merges exactly the bucket n-1 into bucket n-1 - b'/2. */
  lemma ShrinkMerges(hashOf: Key -> nat, keyOf: Rec -> Key, b: nat, n: nat)
    requires Pow2(b) && b / 2 <= n < b && 1 < n
    ensures Ops.Merges(HomeFn(hashOf, keyOf, b, n), HomeFn(hashOf, keyOf, Shrunk(b, n), n - 1),
                       n - 1, n - 1 - Shrunk(b, n) / 2)
  {
    forall r: Rec
      ensures HomeFn(hashOf, keyOf, Shrunk(b, n), n - 1)(r) ==
        if HomeFn(hashOf, keyOf, b, n)(r) == n - 1 then n - 1 - Shrunk(b, n) / 2 else HomeFn(hashOf, keyOf, b, n)(r)
    {
      HomeShrink(hashOf(keyOf(r)), b, n);
    }
  }

  /** `states` is a run of the splitting loop for the table that is about to grow from n to n+1
      slots, and `out` with the free slot `empty` is what the loop will leave behind. */
  ghost predicate GrowsBy(j: Job, states: seq<State>, out: seq<Link>, empty: nat,
                          links: seq<Link>, hashOf: Key -> nat, keyOf: Rec -> Key, b: nat, n: nat)
  {
    && j.before == links && |links| == n + 1 && j.n == n < NO_RECORD && j.f == n - b / 2 < n
    && (j.c != [] <==> HomeOf(hashOf(keyOf(links[j.f].data)), b, n) == j.f)
    && (j.c != [] ==> j.c[0] == j.f)
    && (forall r {:trigger j.moves(r)} :: j.moves(r) == HasBit(hashOf(keyOf(r)), b / 2))
    && IsRun(j, states, out, empty)
  }

  /** The first record comes into a table of one free slot. */
  lemma GrowFromEmpty(links: seq<Link>, hashOf: Key -> nat, keyOf: Rec -> Key)
    requires |links| == 1
    ensures WellChained(links, HomeFn(hashOf, keyOf, 1, 1), 1, 0)
  {
    var t := Shape(1, 0, {}, [links[0].next], [HomeFn(hashOf, keyOf, 1, 1)(links[0].data)], [0], [0]);
    assert t.Describes(links, HomeFn(hashOf, keyOf, 1, 1), 1, 0, {});
  }

  lemma GrowPlan(links: seq<Link>, hashOf: Key -> nat, keyOf: Rec -> Key, b: nat, n: nat)
    returns (j: Job, states: seq<State>, out: seq<Link>, empty: nat)
    requires Pow2(b) && b / 2 <= n < b && 0 < n < NO_RECORD && |links| == n + 1
    requires WellChained(links[..n], HomeFn(hashOf, keyOf, b, n), n, n)
    ensures GrowsBy(j, states, out, empty, links, hashOf, keyOf, b, n)
    ensures |out| == n + 1 && empty <= n
    ensures WellChained(out, HomeFn(hashOf, keyOf, b, n + 1), n + 1, empty)
    ensures Bag(out, empty) == Bag(links, n)
  {
    GrowSplits(hashOf, keyOf, b, n);
    j, states, out, empty :=
      Plan(links, HomeFn(hashOf, keyOf, b, n), HomeFn(hashOf, keyOf, b, n + 1), HighFn(hashOf, keyOf, b / 2), n,
           n - b / 2);
  }
}
