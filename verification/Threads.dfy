/** What the two lock models share: threads, and who holds a mutex. */
module Threads {

  type Tid = nat

  datatype Owner = Nobody | By(tid: Tid)

  /** Two sets that differ at most in t differ in size by t. */
  lemma SameButOne(x: set<Tid>, y: set<Tid>, t: Tid)
    requires x - {t} == y - {t}
    ensures |y| == |x| - (if t in x then 1 else 0) + (if t in y then 1 else 0)
  {
    assert |x - {t}| == |x| - (if t in x then 1 else 0) by { if t !in x { assert x - {t} == x; } }
    assert |y - {t}| == |y| - (if t in y then 1 else 0) by { if t !in y { assert y - {t} == y; } }
  }

  lemma TwoOf(x: set<Tid>, t: Tid, w: Tid)
    requires t in x && w in x && t != w
    ensures |x| >= 2
  {
    assert |x| == |x - {t}| + 1 && |x - {t}| == |x - {t} - {w}| + 1;
  }
}
