/** Ordered search and stepping from key to key, over a trail of nodes that a search leaves behind. */
module RbSearch {
  import opened RbShape
  import opened RbLinks
  import opened RbBalance
  import opened RbPath
  import opened RbHeight
  import opened RbDescend

  // ---------- trails ----------

  ghost predicate TrailStep(t: Tree, ps: seq<Ref>, j: nat) {
    && 0 < j < |ps| && Live(t, ps[j])
    && if j == 1 then ps[j] == t.root
       else ps[j - 1] in t.mem && ps[j] in {t.mem[ps[j - 1]].left, t.mem[ps[j - 1]].right}
  }

  /** ps[1..k+1] leads from the root down to node ps[k]; below the root stands the sentinel. */
  ghost predicate Trail(t: Tree, ps: seq<Ref>, k: nat) {
    k < |ps| && ps[0] == NIL && forall j {:trigger TrailStep(t, ps, j)} :: 0 < j <= k ==> TrailStep(t, ps, j)
  }

  ghost function Slots(t: Tree, ps: seq<Ref>, k: nat): (qs: seq<Slot>)
    requires Trail(t, ps, k) && k > 0
    ensures |qs| == k
  {
    seq(k, j requires 0 <= j < k => if j == 0 then RootSlot
      else Kid(ps[j], TrailStep(t, ps, j) && ps[j + 1] == t.mem[ps[j]].right))
  }

  /** A trail has at most 62 nodes. */
  lemma TrailFits(t: Tree, a: map<Ref, Att>, ps: seq<Ref>, k: nat)
    requires WellFormed(t, a) && Trail(t, ps, k)
    ensures k <= 62
  {
    if k > 0 {
      var qs := Slots(t, ps, k);
      assert TrailStep(t, ps, k);
      forall j | 0 < j <= k - 1 ensures Step(t, qs, j) {
        assert TrailStep(t, ps, j);
        if j > 1 { assert TrailStep(t, ps, j - 1); }
      }
      if k > 1 { assert TrailStep(t, ps, k - 1); }
      PathFits(t, a, qs, k - 1);
    }
  }

  lemma TrailPush(t: Tree, ps: seq<Ref>, k: nat, x: Ref)
    requires Trail(t, ps, k) && k + 1 < |ps| && Live(t, x)
    requires if k == 0 then x == t.root else ps[k] in t.mem && x in {t.mem[ps[k]].left, t.mem[ps[k]].right}
    ensures Trail(t, ps[k + 1 := x], k + 1)
  {
    var qs := ps[k + 1 := x];
    if k > 0 { assert TrailStep(t, ps, k); }
    forall j | 0 < j <= k + 1 ensures TrailStep(t, qs, j) {
      if j <= k { assert TrailStep(t, ps, j); }
    }
  }

  lemma TrailPrefix(t: Tree, ps: seq<Ref>, k: nat, j: nat)
    requires Trail(t, ps, k) && j <= k
    ensures Trail(t, ps, j) && (if j == 0 then ps[j] == NIL else TrailStep(t, ps, j) && Live(t, ps[j]))
  {
    if j > 0 { assert TrailStep(t, ps, j); }
  }

  // ---------- the next key, in either direction ----------

  /** l comes after k in the direction of `side`: upwards for the right side, downwards for the left. */
  predicate Beyond(side: bool, k: int, l: int) {
    if side then k < l else l < k
  }

  /** r is the node that follows x in a direction, or NULL when x is the last. */
  ghost predicate IsNext(t: Tree, x: Ref, side: bool, r: Ref)
    requires x in t.mem
  {
    if r == NULL then forall j {:trigger Live(t, j)} :: Live(t, j) ==> !Beyond(side, t.mem[x].key, t.mem[j].key)
    else
      && Live(t, r) && Beyond(side, t.mem[x].key, t.mem[r].key)
      && forall j {:trigger Live(t, j)} :: Live(t, j) && Beyond(side, t.mem[x].key, t.mem[j].key) ==>
           !Beyond(side, t.mem[j].key, t.mem[r].key)
  }

  /** The far end of the interval of node x, in a direction. */
  ghost function Edge(a: map<Ref, Att>, x: Ref, side: bool): Bound
    requires x in a
  {
    if side then a[x].hi else a[x].lo
  }

  /** No stored key lies strictly between k and bound b, which is beyond k. */
  ghost predicate Void(t: Tree, k: int, side: bool, b: Bound) {
    if side then
      && Lt(Key(k), b)
      && forall j {:trigger Live(t, j)} :: Live(t, j) && k < t.mem[j].key ==> !Lt(Key(t.mem[j].key), b)
    else
      && Lt(b, Key(k))
      && forall j {:trigger Live(t, j)} :: Live(t, j) && t.mem[j].key < k ==> !Lt(b, Key(t.mem[j].key))
  }

  lemma DownStep(t: Tree, a: map<Ref, Att>, x: Ref, side: bool)
    requires Linked(t, a) && Live(t, x) && At(t, Kid(x, side)) != NIL
    ensures var c := At(t, Kid(x, side));
            && Live(t, c) && c in a && x in a && Edge(a, c, !side) == Key(t.mem[x].key)
            && Edge(a, c, side) == Edge(a, x, side)
            && |Inside(t, a[c].lo, a[c].hi)| < |Inside(t, a[x].lo, a[x].hi)|
            && c in {t.mem[x].left, t.mem[x].right}
  {
    assert NodeOk(t, a, x);
    ChildOf(t, a, x, At(t, Kid(x, side)));
    InsideShrinks(t, a, x);
  }

  lemma DownEnd(t: Tree, a: map<Ref, Att>, x: Ref, side: bool, n: Ref)
    requires Linked(t, a) && Live(t, x) && Live(t, n) && At(t, Kid(n, !side)) == NIL && n in a
    requires Edge(a, n, !side) == Key(t.mem[x].key)
    ensures IsNext(t, x, side, n)
  {
    Gap(t, a, Kid(n, !side));
    assert NodeOk(t, a, n);
    var none := Inside(t, Lo(t, a, Kid(n, !side)), Hi(t, a, Kid(n, !side)));
    forall j | Live(t, j) && Beyond(side, t.mem[x].key, t.mem[j].key)
      ensures !Beyond(side, t.mem[j].key, t.mem[n].key)
    {
      assert j !in none;
    }
  }

  lemma UpStart(t: Tree, a: map<Ref, Att>, x: Ref, side: bool)
    requires Linked(t, a) && Live(t, x) && At(t, Kid(x, side)) == NIL
    ensures x in a && Void(t, t.mem[x].key, side, Edge(a, x, side))
  {
    Gap(t, a, Kid(x, side));
    assert NodeOk(t, a, x);
    var none := Inside(t, Lo(t, a, Kid(x, side)), Hi(t, a, Kid(x, side)));
    forall j | Live(t, j) ensures j !in none {
    }
  }

  lemma UpStep(t: Tree, a: map<Ref, Att>, x: Ref, y: Ref, side: bool)
    requires Linked(t, a) && Live(t, x) && Live(t, y) && x in {t.mem[y].left, t.mem[y].right}
    ensures x in a && y in a
    ensures Edge(a, x, side) == if x == At(t, Kid(y, side)) then Edge(a, y, side) else Key(t.mem[y].key)
  {
    ChildOf(t, a, y, x);
    assert NodeOk(t, a, y);
  }

  lemma UpEnd(t: Tree, a: map<Ref, Att>, x: Ref, side: bool, y: Ref)
    requires Linked(t, a) && Live(t, x) && Live(t, y) && Void(t, t.mem[x].key, side, Key(t.mem[y].key))
    ensures IsNext(t, x, side, y)
  {
  }

  lemma UpTop(t: Tree, a: map<Ref, Att>, x: Ref, side: bool, y: Ref)
    requires Linked(t, a) && Live(t, x) && y == t.root && Live(t, y) && y in a
    requires Void(t, t.mem[x].key, side, Edge(a, y, side))
    ensures IsNext(t, x, side, NULL)
  {
  }

  /** Steps from node parents[top] to the next one in a direction. */
  method SearchNext(t: Tree, parents: array<Ref>, top: nat, side: bool, ghost a: map<Ref, Att>)
    returns (r: Ref, last_pos: nat)
    requires WellFormed(t, a) && parents.Length >= MAX_RBTREE_HEIGHT && top > 0 && Trail(t, parents[..], top)
    requires parents[top] in t.mem
    modifies parents
    ensures last_pos < parents.Length && Trail(t, parents[..], last_pos) && IsNext(t, old(parents[top]), side, r)
    ensures if r == NULL then last_pos == 0 else last_pos > 0 && parents[last_pos] == r
  {
    hide WellFormed, Linked, Balanced, Trail, At, IsNext, Void;
    Whole(t, a);
    var k := top;
    TrailPrefix(t, parents[..], k, k);
    var x := parents[k];
    ghost var x0 := x;
    if At(t, Kid(x, side)) != NIL {
      DownStep(t, a, x, side);
      x := At(t, Kid(x, side));
      TrailFits(t, a, parents[..], k);
      TrailPush(t, parents[..], k, x);
      k := k + 1;
      parents[k] := x;
      while At(t, Kid(x, !side)) != NIL
        invariant 0 < k < parents.Length && Trail(t, parents[..], k) && x == parents[k] && Live(t, x) && x in a
        invariant Edge(a, x, !side) == Key(t.mem[x0].key)
        decreases |Inside(t, a[x].lo, a[x].hi)|
      {
        DownStep(t, a, x, !side);
        x := At(t, Kid(x, !side));
        TrailFits(t, a, parents[..], k);
        TrailPush(t, parents[..], k, x);
        k := k + 1;
        parents[k] := x;
      }
      DownEnd(t, a, x0, side, x);
      return x, k;
    } else {
      UpStart(t, a, x, side);
      k := k - 1;
      var y := parents[k];
      TrailPrefix(t, parents[..], top, k);
      while y != NIL && x == At(t, Kid(y, side))
        invariant k < top && Trail(t, parents[..], k + 1) && x == parents[k + 1] && y == parents[k] && Live(t, x)
        invariant x in a
        invariant if k == 0 then y == NIL else Live(t, y)
        invariant Void(t, t.mem[x0].key, side, Edge(a, x, side))
        decreases k
      {
        TrailPrefix(t, parents[..], k + 1, k + 1);
        UpStep(t, a, x, y, side);
        x := y;
        k := k - 1;
        y := parents[k];
        TrailPrefix(t, parents[..], k + 2, k + 1);
        TrailPrefix(t, parents[..], k + 1, k);
      }
      TrailPrefix(t, parents[..], k + 1, k + 1);
      TrailPrefix(t, parents[..], k + 1, k);
      if y == NIL {
        UpTop(t, a, x0, side, x);
        return NULL, k;
      }
      UpStep(t, a, x, y, side);
      UpEnd(t, a, x0, side, y);
      return y, k;
    }
  }

  lemma Whole(t: Tree, a: map<Ref, Att>)
    requires WellFormed(t, a)
    ensures Linked(t, a) && NULL !in t.mem && t.root in t.mem
  {
  }

  // ---------- the first and the last key ----------

  /** r is the last node in a direction, or the sentinel when the tree is empty. */
  ghost predicate IsExtreme(t: Tree, side: bool, r: Ref) {
    if r == NIL then forall j {:trigger Live(t, j)} :: !Live(t, j)
    else Live(t, r) && forall j {:trigger Live(t, j)} :: Live(t, j) ==> !Beyond(side, t.mem[r].key, t.mem[j].key)
  }

  lemma ExtremeIs(t: Tree, a: map<Ref, Att>, side: bool, n: Ref)
    requires Linked(t, a) && Live(t, n) && At(t, Kid(n, side)) == NIL && n in a
    requires Edge(a, n, side) == if side then PosInf else NegInf
    ensures IsExtreme(t, side, n)
  {
    UpStart(t, a, n, side);
  }

  lemma ExtremeEmpty(t: Tree, a: map<Ref, Att>, side: bool)
    requires Linked(t, a) && t.root == NIL
    ensures IsExtreme(t, side, NIL)
  {
    if j :| Live(t, j) { FindAll(t, a, j); }
  }

  /** Goes to the first key, or to the last one. */
  method SearchEdge(t: Tree, parents: array<Ref>, side: bool, ghost a: map<Ref, Att>) returns (r: Ref, last_pos: nat)
    requires WellFormed(t, a) && parents.Length >= MAX_RBTREE_HEIGHT
    modifies parents
    ensures last_pos < parents.Length && Trail(t, parents[..], last_pos) && r == parents[last_pos]
    ensures IsExtreme(t, side, r)
    ensures r != NIL ==> last_pos > 0
  {
    hide WellFormed, Linked, Balanced, At, IsExtreme;
    Whole(t, a);
    var element, k := t.root, 0;
    parents[0] := NIL;
    if t.root != NIL { RootEdge(t, a); }
    while element != NIL
      invariant k < parents.Length && Trail(t, parents[..], k) && (k == 0 ==> element == t.root)
      invariant k > 0 ==> Live(t, parents[k]) && parents[k] in a && element == At(t, Kid(parents[k], side))
      invariant k > 0 ==> Edge(a, parents[k], side) == if side then PosInf else NegInf
      invariant element != NIL ==>
        Live(t, element) && element in a && Edge(a, element, side) == if side then PosInf else NegInf
      decreases if element == NIL then 0 else 1 + |Inside(t, a[element].lo, a[element].hi)|
    {
      TrailFits(t, a, parents[..], k);
      if k > 0 { KidIs(t, parents[k], side); }
      TrailPush(t, parents[..], k, element);
      k := k + 1;
      parents[k] := element;
      if At(t, Kid(element, side)) != NIL { DownStep(t, a, element, side); }
      element := At(t, Kid(element, side));
    }
    if k > 0 { ExtremeIs(t, a, side, parents[k]); } else { ExtremeEmpty(t, a, side); }
    return parents[k], k;
  }

  lemma RootEdge(t: Tree, a: map<Ref, Att>)
    requires Linked(t, a) && t.root != NIL
    ensures t.root in a && a[t.root].lo == NegInf && a[t.root].hi == PosInf
  {
  }

  lemma KidIs(t: Tree, x: Ref, side: bool)
    requires Live(t, x)
    ensures At(t, Kid(x, side)) in {t.mem[x].left, t.mem[x].right}
  {
  }

  // ---------- search by key and flag ----------

  datatype ReadFlag = KeyExact | KeyOrNext | KeyOrPrev | AfterKey | BeforeKey | Prefix | PrefixLast | PrefixLastOrPrev
    | MbrContain | MbrIntersect | MbrWithin | MbrDisjoint | MbrEqual

  /** cmp(k) tells whether stored key k sorts before (negative), with (zero) or after the search key. */
  ghost predicate Ordered(cmp: int -> int) {
    forall k, l :: k <= l ==> (cmp(k) > 0 ==> cmp(l) > 0) && (cmp(k) == 0 ==> cmp(l) >= 0)
  }

  /** The keys that a flag asks for. */
  predicate Wanted(flag: ReadFlag, c: int) {
    match flag
    case KeyExact | PrefixLast => c == 0
    case KeyOrNext => c >= 0
    case AfterKey => c > 0
    case PrefixLastOrPrev => c <= 0
    case BeforeKey => c < 0
    case _ => false
  }

  /** Whether the last of them is asked for, or else the first. */
  predicate WantsLast(flag: ReadFlag) {
    flag in {PrefixLast, PrefixLastOrPrev, BeforeKey}
  }

  predicate Supported(flag: ReadFlag) {
    flag in {KeyExact, KeyOrNext, AfterKey, BeforeKey, PrefixLast, PrefixLastOrPrev}
  }

  /** r is the first, or the last, stored node that the flag asks for; NULL when there is none. */
  ghost predicate Answers(t: Tree, cmp: int -> int, flag: ReadFlag, r: Ref) {
    if r == NULL then forall j {:trigger Live(t, j)} :: Live(t, j) ==> !Wanted(flag, cmp(t.mem[j].key))
    else
      && Live(t, r) && Wanted(flag, cmp(t.mem[r].key))
      && forall j {:trigger Live(t, j)} :: Live(t, j) && Wanted(flag, cmp(t.mem[j].key)) ==>
           !Beyond(WantsLast(flag), t.mem[r].key, t.mem[j].key)
  }

  /** r is the stored node with the smallest key that compares as wanted; NULL when there is none. */
  ghost predicate IsFirst(t: Tree, cmp: int -> int, wanted: int -> bool, r: Ref) {
    if r == NULL then forall j {:trigger Live(t, j)} :: Live(t, j) ==> !wanted(cmp(t.mem[j].key))
    else
      && Live(t, r) && wanted(cmp(t.mem[r].key))
      && forall j {:trigger Live(t, j)} :: Live(t, j) && wanted(cmp(t.mem[j].key)) ==> t.mem[r].key <= t.mem[j].key
  }

  /** The same for the largest key. */
  ghost predicate IsLast(t: Tree, cmp: int -> int, wanted: int -> bool, r: Ref) {
    if r == NULL then forall j {:trigger Live(t, j)} :: Live(t, j) ==> !wanted(cmp(t.mem[j].key))
    else
      && Live(t, r) && wanted(cmp(t.mem[r].key))
      && forall j {:trigger Live(t, j)} :: Live(t, j) && wanted(cmp(t.mem[j].key)) ==> t.mem[j].key <= t.mem[r].key
  }

  /** What an answer is, flag by flag. */
  lemma AnswersIs(t: Tree, cmp: int -> int, flag: ReadFlag, r: Ref)
    requires Answers(t, cmp, flag, r)
    ensures flag == KeyExact ==> IsFirst(t, cmp, c => c == 0, r)
    ensures flag == KeyOrNext ==> IsFirst(t, cmp, c => c >= 0, r)
    ensures flag == AfterKey ==> IsFirst(t, cmp, c => c > 0, r)
    ensures flag == PrefixLast ==> IsLast(t, cmp, c => c == 0, r)
    ensures flag == PrefixLastOrPrev ==> IsLast(t, cmp, c => c <= 0, r)
    ensures flag == BeforeKey ==> IsLast(t, cmp, c => c < 0, r)
  {
  }

  /** An equal key sends the search left or right, depending on the flag. */
  predicate GoesLeft(flag: ReadFlag, c: int) {
    c > 0 || (c == 0 && flag in {KeyExact, KeyOrNext, BeforeKey})
  }

  /** The search has come to slot s: the last steps to the left and to the right are its bounds. */
  ghost predicate Searching(t: Tree, a: map<Ref, Att>, cmp: int -> int, flag: ReadFlag, s: Slot, left: Ref, right: Ref,
                            equal: Ref) {
    && SlotOf(t, s) && (s.Kid? ==> s.node in a)
    && (if left == NULL then Hi(t, a, s) == PosInf
        else Live(t, left) && Hi(t, a, s) == Key(t.mem[left].key) && GoesLeft(flag, cmp(t.mem[left].key)))
    && (if right == NULL then Lo(t, a, s) == NegInf
        else Live(t, right) && Lo(t, a, s) == Key(t.mem[right].key) && !GoesLeft(flag, cmp(t.mem[right].key)))
    && (equal == NULL && flag in {KeyExact, KeyOrNext, BeforeKey} && left != NULL ==> cmp(t.mem[left].key) > 0)
    && (equal == NULL && flag in {PrefixLast, PrefixLastOrPrev} && right != NULL ==> cmp(t.mem[right].key) < 0)
    && (equal != NULL ==>
          && Live(t, equal) && cmp(t.mem[equal].key) == 0
          && equal == if flag in {KeyExact, KeyOrNext, BeforeKey} then left else right)
    && (flag == AfterKey ==> equal == NULL)
  }

  /** Which of the three remembered nodes is the answer. */
  function Choice(flag: ReadFlag, left: Ref, right: Ref, equal: Ref): Ref {
    match flag
    case KeyExact | PrefixLast => equal
    case KeyOrNext => if equal != NULL then equal else left
    case AfterKey => left
    case PrefixLastOrPrev => if equal != NULL then equal else right
    case BeforeKey => right
    case _ => NULL
  }

  lemma SearchStep(t: Tree, a: map<Ref, Att>, cmp: int -> int, flag: ReadFlag, s: Slot, left: Ref, right: Ref,
                   equal: Ref, x: Ref)
    requires Linked(t, a) && Ordered(cmp) && Supported(flag) && Searching(t, a, cmp, flag, s, left, right, equal)
    requires At(t, s) == x && Live(t, x)
    ensures var c := cmp(t.mem[x].key);
            var e := if c == 0 && flag != AfterKey then x else equal;
            if GoesLeft(flag, c) then Searching(t, a, cmp, flag, Kid(x, false), x, right, e)
            else Searching(t, a, cmp, flag, Kid(x, true), left, x, e)
  {
    assert NodeOk(t, a, x);
    if s.Kid? { ChildOf(t, a, s.node, x); }
  }

  /** At an empty slot every key is on one side or the other of the last steps. */
  lemma SearchCovers(t: Tree, a: map<Ref, Att>, cmp: int -> int, flag: ReadFlag, s: Slot, left: Ref, right: Ref,
                     equal: Ref, j: Ref)
    requires Linked(t, a) && Searching(t, a, cmp, flag, s, left, right, equal) && At(t, s) == NIL && Live(t, j)
    ensures (left != NULL && t.mem[left].key <= t.mem[j].key) || (right != NULL && t.mem[j].key <= t.mem[right].key)
  {
    Gap(t, a, s);
    assert j !in Inside(t, Lo(t, a, s), Hi(t, a, s));
  }

  /** What the last steps say about the keys to be compared with. */
  ghost predicate Narrowed(t: Tree, cmp: int -> int, flag: ReadFlag, left: Ref, right: Ref, equal: Ref) {
    && (left != NULL ==> Live(t, left) && GoesLeft(flag, cmp(t.mem[left].key)))
    && (right != NULL ==> Live(t, right) && !GoesLeft(flag, cmp(t.mem[right].key)))
    && (equal == NULL && flag in {KeyExact, KeyOrNext, BeforeKey} && left != NULL ==> cmp(t.mem[left].key) > 0)
    && (equal == NULL && flag in {PrefixLast, PrefixLastOrPrev} && right != NULL ==> cmp(t.mem[right].key) < 0)
    && (equal != NULL ==>
          && equal in t.mem && cmp(t.mem[equal].key) == 0 && flag != AfterKey
          && equal == if flag in {KeyExact, KeyOrNext, BeforeKey} then left else right)
    && forall j {:trigger Live(t, j)} :: Live(t, j) ==>
         (left != NULL && t.mem[left].key <= t.mem[j].key) || (right != NULL && t.mem[j].key <= t.mem[right].key)
  }

  lemma FirstAnswers(t: Tree, cmp: int -> int, flag: ReadFlag, left: Ref, right: Ref, equal: Ref)
    requires Ordered(cmp) && flag in {KeyExact, KeyOrNext, AfterKey} && Narrowed(t, cmp, flag, left, right, equal)
    requires equal != NULL ==> equal in t.mem
    ensures Answers(t, cmp, flag, Choice(flag, left, right, equal))
  {
  }

  lemma LastAnswers(t: Tree, cmp: int -> int, flag: ReadFlag, left: Ref, right: Ref, equal: Ref)
    requires Ordered(cmp) && flag in {PrefixLast, PrefixLastOrPrev, BeforeKey}
    requires Narrowed(t, cmp, flag, left, right, equal) && (equal != NULL ==> equal in t.mem)
    ensures Answers(t, cmp, flag, Choice(flag, left, right, equal))
  {
  }

  lemma SearchEnds(t: Tree, a: map<Ref, Att>, cmp: int -> int, flag: ReadFlag, s: Slot, left: Ref, right: Ref,
                   equal: Ref)
    requires Linked(t, a) && Ordered(cmp) && Supported(flag) && Searching(t, a, cmp, flag, s, left, right, equal)
    requires At(t, s) == NIL
    ensures Answers(t, cmp, flag, Choice(flag, left, right, equal))
  {
    hide Linked, Answers, Ordered, Lo, Hi, At, Choice;
    forall j | Live(t, j)
      ensures (left != NULL && t.mem[left].key <= t.mem[j].key) || (right != NULL && t.mem[j].key <= t.mem[right].key)
    {
      SearchCovers(t, a, cmp, flag, s, left, right, equal, j);
    }
    if WantsLast(flag) {
      LastAnswers(t, cmp, flag, left, right, equal);
    } else {
      FirstAnswers(t, cmp, flag, left, right, equal);
    }
  }

  /** A remembered place on the trail, and the node there; 0 says that there is none. */
  ghost predicate Remembers(ps: seq<Ref>, k: nat, pos: nat, x: Ref) {
    pos <= k < |ps| && if pos == 0 then x == NULL else x == ps[pos] && x != NULL
  }

  lemma RememberPush(ps: seq<Ref>, k: nat, pos: nat, x: Ref, element: Ref)
    requires Remembers(ps, k, pos, x) && k + 1 < |ps| && element != NULL
    ensures Remembers(ps[k + 1 := element], k + 1, pos, x)
    ensures Remembers(ps[k + 1 := element], k + 1, k + 1, element)
  {
  }

  /** The place that is chosen is that of the node that is chosen. */
  lemma RememberChoice(ps: seq<Ref>, k: nat, flag: ReadFlag, left: nat, right: nat, equal: nat, l: Ref, g: Ref, e: Ref)
    requires Remembers(ps, k, left, l) && Remembers(ps, k, right, g) && Remembers(ps, k, equal, e)
    ensures var pos, x := Choice(flag, left, right, equal), Choice(flag, l, g, e);
            && pos <= k < |ps| && (if pos == 0 then x == NULL else x == ps[pos] && x != NULL)
  {
  }

  lemma TrailStarts(t: Tree, ps: seq<Ref>)
    requires |ps| > 0 && ps[0] == NIL
    ensures Trail(t, ps, 0) && Remembers(ps, 0, 0, NULL)
  {
  }

  lemma SearchStarts(t: Tree, a: map<Ref, Att>, cmp: int -> int, flag: ReadFlag)
    requires WellFormed(t, a)
    ensures Searching(t, a, cmp, flag, RootSlot, NULL, NULL, NULL)
  {
  }

  lemma SlotDown(t: Tree, a: map<Ref, Att>, s: Slot, x: Ref, right: bool)
    requires Linked(t, a) && SlotOf(t, s) && At(t, s) == x && Live(t, x)
    ensures x in a && (s.Kid? ==> s.node in a) && At(t, Kid(x, right)) in t.mem
    ensures var d := Kid(x, right); |Inside(t, Lo(t, a, d), Hi(t, a, d))| < |Inside(t, Lo(t, a, s), Hi(t, a, s))|
  {
    assert NodeOk(t, a, x);
    if s.Kid? { ChildOf(t, a, s.node, x); }
    InsideShrinks(t, a, x);
  }

  /** Searches for the key that cmp compares with; last_pos is the place of the answer on the trail. */
  method SearchKey(t: Tree, cmp: int -> int, parents: array<Ref>, flag: ReadFlag, ghost a: map<Ref, Att>)
    returns (r: Ref, last_pos: nat)
    requires WellFormed(t, a) && parents.Length >= MAX_RBTREE_HEIGHT && Ordered(cmp)
    modifies parents
    ensures Supported(flag) ==> Answers(t, cmp, flag, r)
    ensures flag == KeyExact ==> IsFirst(t, cmp, c => c == 0, r)
    ensures flag == KeyOrNext ==> IsFirst(t, cmp, c => c >= 0, r)
    ensures flag == AfterKey ==> IsFirst(t, cmp, c => c > 0, r)
    ensures flag == PrefixLast ==> IsLast(t, cmp, c => c == 0, r)
    ensures flag == PrefixLastOrPrev ==> IsLast(t, cmp, c => c <= 0, r)
    ensures flag == BeforeKey ==> IsLast(t, cmp, c => c < 0, r)
    ensures flag !in {KeyExact, KeyOrNext, AfterKey, PrefixLast, PrefixLastOrPrev, BeforeKey} ==> r == NULL
    ensures if r == NULL then last_pos == 0
      else 0 < last_pos < parents.Length && Trail(t, parents[..], last_pos) && parents[last_pos] == r
  {
    hide WellFormed, Linked, Balanced, At, Answers, Searching, Ordered, Lo, Hi, Trail, Remembers, Choice, IsFirst,
      IsLast;
    Whole(t, a);
    var element, k := t.root, 0;
    var left, right, equal: nat := 0, 0, 0;
    ghost var l, g, e := NULL, NULL, NULL;
    ghost var s := RootSlot;
    parents[0] := NIL;
    SearchStarts(t, a, cmp, flag);
    TrailStarts(t, parents[..]);
    RootIs(t);
    while element != NIL
      invariant k < parents.Length && Trail(t, parents[..], k) && element in t.mem && At(t, s) == element
      invariant SlotOf(t, s)
      invariant if k == 0 then s == RootSlot else s.Kid? && s.node == parents[k] && s.node in a
      invariant Remembers(parents[..], k, left, l) && Remembers(parents[..], k, right, g)
      invariant Remembers(parents[..], k, equal, e)
      invariant Supported(flag) ==> Searching(t, a, cmp, flag, s, l, g, e)
      decreases if element == NIL then 0 else 1 + |Inside(t, Lo(t, a, s), Hi(t, a, s))|
    {
      TrailFits(t, a, parents[..], k);
      RootIs(t);
      if k > 0 { KidIs(t, parents[k], s.right); }
      TrailPush(t, parents[..], k, element);
      RememberPush(parents[..], k, left, l, element);
      RememberPush(parents[..], k, right, g, element);
      RememberPush(parents[..], k, equal, e, element);
      k := k + 1;
      parents[k] := element;
      var c := cmp(t.mem[element].key);
      if Supported(flag) { SearchStep(t, a, cmp, flag, s, l, g, e, element); }
      if c == 0 {
        if !Supported(flag) { return NULL, 0; }
        if flag != AfterKey { equal, e := k, element; }
      }
      SlotDown(t, a, s, element, !GoesLeft(flag, c));
      s := Kid(element, !GoesLeft(flag, c));
      if GoesLeft(flag, c) { left, l := k, element; } else { right, g := k, element; }
      element := At(t, Kid(element, !GoesLeft(flag, c)));
    }
    if !Supported(flag) { return NULL, 0; }
    SearchEnds(t, a, cmp, flag, s, l, g, e);
    AnswersIs(t, cmp, flag, Choice(flag, l, g, e));
    RememberChoice(parents[..], k, flag, left, right, equal, l, g, e);
    last_pos := Choice(flag, left, right, equal);
    r := if last_pos == 0 then NULL else parents[last_pos];
    TrailPrefix(t, parents[..], k, last_pos);
  }

  lemma RootIs(t: Tree)
    ensures At(t, RootSlot) == t.root
  {
  }
}
