/** The red-black tree as its callers see it. */
module RedBlackTree {
  import opened RbShape
  import opened RbLinks
  import opened RbBalance
  import opened RbPath
  import opened RbHeight
  import opened RbInsertFixup
  import opened RbDescend
  import opened RbContents
  import opened RbSearch
  import opened RbWalk

  const ELEMENT_SIZE: nat := 24  // a node without its key
  const UINT: nat := 0x1_0000_0000
  const ULONG: nat := 0x1_0000_0000_0000_0000
  const MAX_COUNT: nat := 0x7FFF_FFFF  // the count has 31 bits

  /** The counts fit in 31 bits. */
  ghost predicate Counted(m: map<int, nat>) {
    forall k :: k in m ==> 1 <= m[k] <= MAX_COUNT
  }

  lemma CountedStays(m: map<int, nat>, key: int)
    requires Counted(m)
    ensures Counted(map[]) && Counted(m[key := 1])
    ensures key in m ==>
      1 <= m[key] <= MAX_COUNT && Counted(m[key := if m[key] < MAX_COUNT then m[key] + 1 else MAX_COUNT])
  {
  }

  lemma PaintedLeaf(t: Tree, s: Slot, z: Ref, key: int)
    requires SlotOf(t, s) && z !in t.mem
    ensures WithColour(Put(t.(mem := t.mem[z := Node(NIL, NIL, Black, 1, key)]), s, z), z, Red)
         == Put(t.(mem := t.mem[z := Node(NIL, NIL, Red, 1, key)]), s, z)
  {
    var u := WithColour(Put(t.(mem := t.mem[z := Node(NIL, NIL, Black, 1, key)]), s, z), z, Red);
    var v := Put(t.(mem := t.mem[z := Node(NIL, NIL, Red, 1, key)]), s, z);
    assert u.mem.Keys == v.mem.Keys;
    assert u.mem == v.mem;
  }

  lemma Grown(t: Tree, a: map<Ref, Att>, z: Ref, u: Tree, v: Tree, b: map<Ref, Att>)
    requires WellFormed(t, a) && |t.mem| - 1 < MAX_ELEMENTS && z !in t.mem && u.mem.Keys == t.mem.Keys + {z}
    requires SameContent(u, v) && Linked(v, b) && Balanced(v, b)
    ensures WellFormed(v, b) && |v.mem| == |t.mem| + 1
  {
    assert |v.mem.Keys| == |t.mem.Keys| + 1;
  }

  lemma DescentSlot(t: Tree, a: map<Ref, Att>, ps: seq<Slot>, k: nat, element: Ref, key: int)
    requires Descent(t, a, ps, k, element, key)
    ensures k < |ps| && Path(t, ps, k) && SlotOf(t, ps[k]) && At(t, ps[k]) == element && element in t.mem
  {
  }

  /** Hangs a new leaf with the key in the empty slot parents[k]. */
  method AddLeaf(tree: Tree, parents: seq<Slot>, k: nat, key: int, element: Ref, ghost att: map<Ref, Att>)
    returns (t: Tree, ghost a: map<Ref, Att>)
    requires WellFormed(tree, att) && |tree.mem| - 1 < MAX_ELEMENTS && Descent(tree, att, parents, k, NIL, key)
    requires element !in tree.mem && element != NULL
    ensures WellFormed(t, a) && |t.mem| == |tree.mem| + 1 && key !in Contents(tree)
    ensures Contents(t) == Contents(tree)[key := 1] && NodesStay(tree, t)
  {
    hide WellFormed, Contents, Descent, Linked, Balanced, SameContent, Put, WithColour, InsertState, Path, At,
      NodesStay;
    Absent(tree, att, parents, k, key);
    DescentSlot(tree, att, parents, k, NIL, key);
    t := Put(tree.(mem := tree.mem[element := Node(NIL, NIL, Black, 1, key)]), parents[k], element);
    PaintedLeaf(tree, parents[k], element, key);
    ghost var u := Put(tree.(mem := tree.mem[element := Node(NIL, NIL, Red, 1, key)]), parents[k], element);
    a := HangLeaf(tree, att, parents, k, key, element, u);
    LeafLinked(u, a, parents, k, element);
    ghost var b := a;
    ghost var t0 := t;
    t, a := InsertFixup(t, parents, k, element, a);
    PaintKeeps(t0, element, t);
    SameContents(u, b, t, a);
    NodesStayPut(tree, parents[k], element, key, u, t);
    Grown(tree, att, element, u, t, a);
  }

  /** Every node of t is a node of u, with the same key and count. */
  ghost predicate NodesStay(t: Tree, u: Tree) {
    forall i :: i in t.mem && i != NIL ==>
      i in u.mem && u.mem[i].key == t.mem[i].key && u.mem[i].count == t.mem[i].count
  }

  lemma NodesStayPut(t: Tree, s: Slot, z: Ref, key: int, u: Tree, v: Tree)
    requires z !in t.mem && SlotOf(t, s) && u == Put(t.(mem := t.mem[z := Node(NIL, NIL, Red, 1, key)]), s, z)
    requires SameContent(u, v)
    ensures NodesStay(t, v)
  {
  }

  lemma NodesStayFreed(t: Tree, e: Ref, u: Tree)
    requires SameContent(Free(t, e), u)
    ensures NodesStay(u, t) && e !in u.mem
  {
  }

  lemma LeafLinked(u: Tree, a: map<Ref, Att>, ps: seq<Slot>, k: nat, z: Ref)
    requires InsertState(u, a, ps, k, z)
    ensures Linked(u, a)
  {
  }

  lemma PaintKeeps(t0: Tree, z: Ref, t: Tree)
    requires SameContent(t0, t)
    ensures SameContent(WithColour(t0, z, Red), t)
  {
  }

  /** Takes the node in slot parents[k] out of the tree. */
  method TakeOut(tree: Tree, parents: array<Slot>, k: nat, element: Ref, key: int, ghost att: map<Ref, Att>)
    returns (t: Tree, ghost a: map<Ref, Att>)
    requires WellFormed(tree, att) && parents.Length == MAX_RBTREE_HEIGHT
    requires Descent(tree, att, parents[..], k, element, key)
    requires element != NIL && element in tree.mem && tree.mem[element].key == key
    modifies parents
    ensures WellFormed(t, a) && |t.mem| == |tree.mem| - 1 && |t.mem| > 0 && key in Contents(tree)
    ensures Contents(t) == Contents(tree) - {key} && NodesStay(t, tree)
  {
    hide WellFormed, Contents, Descent, Linked, Balanced, SameContent, Path, At, NodesStay;
    DescentSlot(tree, att, parents[..], k, element, key);
    t, a := Unlink(tree, parents, k, element, att);
    WellFormedIs(tree, att);
    Without(tree, att, element, t, a);
    NodesStayFreed(tree, element, t);
    Shrunk(tree, att, t, a);
    WellFormedIs(t, a);
  }

  lemma WellFormedIs(t: Tree, a: map<Ref, Att>)
    requires WellFormed(t, a)
    ensures Linked(t, a) && |t.mem| - 1 <= MAX_ELEMENTS && NIL in t.mem
  {
  }

  lemma Shrunk(t: Tree, a: map<Ref, Att>, u: Tree, b: map<Ref, Att>)
    requires WellFormed(t, a) && Linked(u, b) && Balanced(u, b) && |u.mem| <= |t.mem|
    ensures WellFormed(u, b)
  {
  }

  lemma ContentsOf(t: Tree, a: map<Ref, Att>, i: Ref)
    requires WellFormed(t, a) && Live(t, i)
    ensures t.mem[i].key in Contents(t) && Contents(t)[t.mem[i].key] == t.mem[i].count
  {
    ContentsAt(t, a, i);
  }

  lemma SearchDown(t: Tree, a: map<Ref, Att>, s: Slot, x: Ref, key: int)
    requires WellFormed(t, a) && SlotOf(t, s) && At(t, s) == x && Live(t, x) && Below(t, a, s, key)
    requires t.mem[x].key != key
    ensures var d := Kid(x, t.mem[x].key < key);
            && At(t, d) in t.mem && Below(t, a, d, key)
            && |Inside(t, Lo(t, a, d), Hi(t, a, d))| < |Inside(t, Lo(t, a, s), Hi(t, a, s))|
  {
    SlotDown(t, a, s, x, t.mem[x].key < key);
    assert NodeOk(t, a, x);
    if s.Kid? { ChildOf(t, a, s.node, x); }
  }

  /** The size of a node with its key, as an unsigned int. */
  function AllocSize(key_size: nat, size: nat): nat {
    (ELEMENT_SIZE + key_size + size) % UINT
  }

  lemma SizeIs(t: Tree, a: map<Ref, Att>)
    requires WellFormed(t, a)
    ensures |Contents(t)| == |t.mem| - 1
  {
    ContentsSize(t, a);
  }

  /** What is in use after an allocation, as an unsigned long. */
  function Charge(used: nat, amount: nat): nat {
    (used + amount) % ULONG
  }

  /** What is in use after a node with its key has come to the `used` bytes, in 32 and 64 bits. */
  ghost function Needed(used: nat, key_size: nat, size: nat): nat {
    (used + (24 + key_size + size) % 0x1_0000_0000) % 0x1_0000_0000_0000_0000
  }

  lemma NeededIs(used: nat, key_size: nat, size: nat)
    ensures Charge(used, AllocSize(key_size, size)) == Needed(used, key_size, size)
  {
  }

  /** Exactly what the nodes take is in use, `amount` for each of them. */
  ghost predicate Accounted(used: nat, elements: nat, amount: nat) {
    used == (elements * amount) % 0x1_0000_0000_0000_0000
  }

  /** A node is charged for in full exactly when its size fits 32 bits. */
  lemma AccountedMore(used: nat, elements: nat, key_size: nat, size: nat)
    requires Accounted(used, elements, 24 + key_size + size) && 24 + key_size + size < ULONG
    ensures Accounted(Needed(used, key_size, size), elements + 1, 24 + key_size + size) <==>
              24 + key_size + size < 0x1_0000_0000
  {
    var amount := 24 + key_size + size;
    assert (elements + 1) * amount == elements * amount + amount;
    ModPlus(elements * amount, amount % 0x1_0000_0000);
    ModApart(elements * amount + amount % 0x1_0000_0000, elements * amount + amount);
  }

  lemma ModPlus(x: int, d: int)
    ensures (x % 0x1_0000_0000_0000_0000 + d) % 0x1_0000_0000_0000_0000 == (x + d) % 0x1_0000_0000_0000_0000
  {
  }

  lemma ModApart(x: int, y: int)
    requires x <= y < x + 0x1_0000_0000_0000_0000
    ensures x % 0x1_0000_0000_0000_0000 == y % 0x1_0000_0000_0000_0000 <==> x == y
  {
  }

  lemma AccountedLess(used: nat, elements: nat, amount: nat)
    requires Accounted(used, elements, amount) && elements > 0
    ensures Accounted((used - amount) % ULONG, elements - 1, amount)
  {
    assert (elements - 1) * amount == elements * amount - amount;
    ModPlus(elements * amount, 0 - amount);
  }

  lemma AccountedNone(amount: nat)
    ensures Accounted(0, 0, amount)
  {
  }

  lemma NodesStayHere(t: Tree)
    ensures NodesStay(t, t)
  {
  }

  class RbTree {
    var tree: Tree
    const parents: array<Slot>
    var elements: nat
    var used: nat
    const memory_limit: nat
    const size: nat
    const is_delete: bool
    const no_duplicates: bool
    ghost var att: map<Ref, Att>

    ghost predicate Valid()
      reads this
    {
      && parents.Length == MAX_RBTREE_HEIGHT && WellFormed(tree, att) && elements == |tree.mem| - 1
      && Counted(Contents(tree)) && elements == |Contents(tree)|
    }

    ghost function Stored(): map<int, nat>
      reads this
    {
      Contents(tree)
    }

    constructor (memory_limit: nat, size: nat, is_delete: bool, no_duplicates: bool)
      ensures Valid() && Stored() == map[] && fresh(parents) && elements == 0 && used == 0
      ensures this.memory_limit == memory_limit && this.size == size
      ensures this.is_delete == is_delete && this.no_duplicates == no_duplicates
    {
      parents := new Slot[MAX_RBTREE_HEIGHT](_ => RootSlot);
      tree, elements, used := EMPTY, 0, 0;
      att := map[NIL := Att(NULL, NegInf, PosInf, 0)];
      this.memory_limit, this.size, this.is_delete, this.no_duplicates := memory_limit, size, is_delete, no_duplicates;
      EmptyOk();
    }

    method Reset()
      requires Valid()
      modifies this
      ensures Valid() && Stored() == map[] && tree == EMPTY && elements == 0 && used == 0
    {
      tree, elements, used := EMPTY, 0, 0;
      att := map[NIL := Att(NULL, NegInf, PosInf, 0)];
      EmptyOk();
    }

    predicate OverLimit(key_size: nat)
      reads this
    {
      memory_limit > 0 && elements > 0 && Charge(used, AllocSize(key_size, size)) > memory_limit
    }

    /** Adds the key, or counts it once more. A new node goes to `address`, which must not be in use by then;
        NULL says that there is no memory for one. */
    method Insert(key: int, key_size: nat, address: Ref) returns (element: Ref)
      requires Valid()
      requires key !in Stored() ==> address !in (if OverLimit(key_size) then EMPTY else tree).mem
      requires key !in Stored() && !OverLimit(key_size) ==> elements < MAX_ELEMENTS
      modifies this, parents
      decreases elements
      ensures Valid()
      ensures key in old(Stored()) && no_duplicates ==> element == NULL && tree == old(tree)
      ensures key in old(Stored()) && !no_duplicates ==>
                var c := old(Stored())[key];
                var more := if c < 0x7FFF_FFFF then c + 1 else c;
                && element in old(tree).mem && element != NIL && old(tree).mem[element].key == key
                && tree == old(tree).(mem := old(tree).mem[element := old(tree).mem[element].(count := more)])
                && Stored() == old(Stored())[key := more]
      ensures key !in old(Stored()) ==>
                var needed := Needed(old(used), key_size, size);
                var stays := memory_limit == 0 || old(elements) == 0 || needed <= memory_limit;
                var kept := if stays then old(Stored()) else map[];
                && element == address && Stored() == (if address == NULL then kept else kept[key := 1])
                && used == (if stays then needed else Needed(0, key_size, size))
                && (stays ==> NodesStay(old(tree), tree))
      ensures key !in old(Stored()) && memory_limit > 0 ==> elements <= 1 || used <= memory_limit
      ensures key in old(Stored()) ==> used == old(used)
      ensures var amount := 24 + key_size + size;
              amount < 0x1_0000_0000_0000_0000 && address != NULL && old(Accounted(used, elements, amount)) ==>
                (Accounted(used, elements, amount) <==> key in old(Stored()) || amount < 0x1_0000_0000)
    {
      hide WellFormed, Contents, Descent, Linked, Balanced, Charge, AllocSize, Needed, Accounted, NodesStay,
        Counted;
      CountedStays(Stored(), key);
      NeededIs(used, key_size, size);
      NodesStayHere(tree);
      ghost var amount := 24 + key_size + size;
      if Accounted(used, elements, amount) && amount < ULONG { AccountedMore(used, elements, key_size, size); }
      AccountedNone(amount);
      if amount < ULONG { AccountedMore(0, 0, key_size, size); }
      var k;
      element, k := Descend(tree, key, parents, att);
      DescentSlot(tree, att, parents[..], k, element, key);
      if element == NIL {
        Absent(tree, att, parents[..], k, key);
        if OverLimit(key_size) {
          Reset();
          assert address !in tree.mem;
          element := Insert(key, key_size, address);
          return;
        }
        used := Charge(used, AllocSize(key_size, size));
        element := address;
        if element == NULL { return; }
        tree, att := AddLeaf(tree, parents[..], k, key, element, att);
        elements := elements + 1;
        SizeIs(tree, att);
      } else {
        ContentsOf(tree, att, element);
        if no_duplicates { return NULL; }
        var count := (tree.mem[element].count + 1) % (MAX_COUNT + 1);
        if count == 0 { count := MAX_COUNT; }  // the 31-bit count stops at its largest value
        Recounting(tree, att, element, count);
        tree := tree.(mem := tree.mem[element := tree.mem[element].(count := count)]);
        SizeIs(tree, att);
      }
    }

    /** The balance check that every insert is followed by: it never fails, and gives the number of black
        nodes on every way down. */
    function Check(): (black_count: int)
      requires Valid()
      reads this
      ensures black_count >= 0 && AllWays(tree, tree.root, black_count)
    {
      TestPasses(tree, att, tree.root);
      TestMeans(tree, att, tree.root, TestRbTree(tree, att, tree.root));
      TestRbTree(tree, att, tree.root)
    }

    /** The node with the key, or NULL. */
    method Search(key: int) returns (element: Ref)
      requires Valid()
      ensures element == NULL <==> key !in Stored()
      ensures element != NULL ==> element in tree.mem && element != NIL && tree.mem[element].key == key
    {
      element := tree.root;
      ghost var s := RootSlot;
      while element != NIL
        invariant element in tree.mem && SlotOf(tree, s) && At(tree, s) == element && Below(tree, att, s, key)
        decreases if element == NIL then 0 else 1 + |Inside(tree, Lo(tree, att, s), Hi(tree, att, s))|
      {
        if tree.mem[element].key == key {
          ContentsOf(tree, att, element);
          return;
        }
        SearchDown(tree, att, s, element, key);
        s := Kid(element, tree.mem[element].key < key);
        element := if tree.mem[element].key < key then tree.mem[element].right else tree.mem[element].left;
      }
      element := NULL;
      NotBelow(tree, att, s, key);
    }

    /** Takes the key out; 1 says that it is not there, or that the tree does not allow it. */
    method Delete(key: int, key_size: nat) returns (status: nat)
      requires Valid()
      modifies this, parents
      ensures Valid()
      ensures status == if is_delete && key in old(Stored()) then 0 else 1
      ensures Stored() == if status == 0 then old(Stored()) - {key} else old(Stored())
      ensures status == 1 ==> tree == old(tree) && elements == old(elements)
      ensures status == 0 ==> elements == old(elements) - 1
      ensures used == if status == 0 then (old(used) - (24 + size + key_size)) % 0x1_0000_0000_0000_0000 else old(used)
      ensures var amount := 24 + key_size + size;
              old(Accounted(used, elements, amount)) ==> Accounted(used, elements, amount)
      ensures NodesStay(tree, old(tree))
    {
      hide WellFormed, Contents, Descent, Linked, Balanced, NodesStay, Accounted;
      NodesStayHere(tree);
      if !is_delete { return 1; }
      var element, k := Descend(tree, key, parents, att);
      DescentSlot(tree, att, parents[..], k, element, key);
      if element == NIL {
        Absent(tree, att, parents[..], k, key);
        return 1;
      }
      tree, att := TakeOut(tree, parents, k, element, key, att);
      if Accounted(used, elements, 24 + key_size + size) { AccountedLess(used, elements, 24 + key_size + size); }
      used := (used - (ELEMENT_SIZE + size + key_size)) % ULONG;
      elements := elements - 1;
      SizeIs(tree, att);
      status := 0;
    }
  }
}
