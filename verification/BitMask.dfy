/**
 The bit arithmetic of linear hashing: masking a hash number to a slot below the current
 number of slots, and what growing the table by one slot does to that.
 */
module BitMask {

  /** Bitwise conjunction of two unsigned words. */
  function And(x: nat, y: nat): nat
    decreases x
  {
    if x == 0 || y == 0 then 0
    else 2 * And(x / 2, y / 2) + (if x % 2 == 1 && y % 2 == 1 then 1 else 0)
  }

  ghost predicate Pow2(m: nat) {
    m == 1 || (m >= 2 && m % 2 == 0 && Pow2(m / 2))
  }

  /** The largest unsigned word of so many bits. */
  function Word(bits: nat): (w: nat)
    ensures bits > 0 ==> w > 0
  {
    if bits == 0 then 0 else 2 * Word(bits - 1) + 1
  }

  const INT_BITS: nat := 32
  const SIZE_BITS: nat := 64

  /** x - 1, as a size_t. */
  function Pred(x: nat): nat {
    if x == 0 then Word(SIZE_BITS) else x - 1
  }

  /** Slot of hash number `hashnr` in a table of `maxlength` slots whose buffer bound is `buffmax`. */
  function Mask(hashnr: nat, buffmax: nat, maxlength: nat): (slot: nat) {
    if And(hashnr, Pred(buffmax)) < maxlength then And(hashnr, Pred(buffmax)) else And(hashnr, Pred(buffmax / 2))
  }

  lemma AndZero(x: nat)
    ensures And(x, 0) == 0
  {}

  /** In an empty table nothing is masked off: the slot is the hash number itself. */
  lemma MaskEmpty(h: nat)
    requires h <= Word(INT_BITS)
    ensures Mask(h, 1, 0) == h
  {
    hide Word, And;
    WordGrows(INT_BITS, SIZE_BITS);
    AndWord(h, SIZE_BITS);
  }

  lemma {:induction false} WordGrows(k: nat, bits: nat)
    requires k <= bits
    ensures Word(k) <= Word(bits)
  {
    if k < bits { WordGrows(k, bits - 1); }
  }

  lemma {:induction false} AndWord(x: nat, bits: nat)
    requires x <= Word(bits)
    ensures And(x, Word(bits)) == x
  {
    if x > 0 { AndWord(x / 2, bits - 1); }
  }

  /** Masking with m-1 takes the remainder modulo m. */
  lemma {:induction false} AndMask(x: nat, m: nat)
    requires Pow2(m)
    ensures And(x, m - 1) == x % m
    decreases m
  {
    if m > 1 {
      AndMask(x / 2, m / 2);
      assert (m - 1) / 2 == m / 2 - 1;
      HalfMod(x, m / 2);
    }
  }

  lemma HalfMod(x: nat, m: nat)
    requires 0 < m
    ensures x % (2 * m) == 2 * (x / 2 % m) + x % 2
  {
    var q, r := x / 2 / m, x / 2 % m;
    assert x == (2 * m) * q + (2 * r + x % 2) by {
      assert x / 2 == m * q + r;
    }
    ModUnique(x, 2 * m, q, 2 * r + x % 2);
  }

  lemma ModUnique(x: int, m: nat, q: int, r: int)
    requires x == m * q + r && 0 <= r < m
    ensures x % m == r && x / m == q
  {
    var q', r' := x / m, x % m;
    assert m * (q - q') == r' - r && m * (q' - q) == r - r' by {
      assert m * (q - q') == m * q - m * q' && m * (q' - q) == m * q' - m * q;
    }
    if q - q' >= 1 { MulGe(m, q - q', 1); }
    if q' - q >= 1 { MulGe(m, q' - q, 1); }
  }

  lemma MulGe(m: nat, a: int, b: int)
    requires a >= b
    ensures m * a >= m * b
  {
    assert m * (a - b) >= 0;
    assert m * (a - b) == m * a - m * b;
  }

  /** Testing bit m of x compares the remainders modulo m and 2m. */
  lemma {:induction false} AndBit(x: nat, m: nat)
    requires Pow2(m)
    ensures And(x, m) == 0 <==> x % (2 * m) == x % m
    ensures And(x, m) != 0 <==> x % (2 * m) == x % m + m
    decreases m
  {
    if m == 1 {
      AndZero(x / 2);
    } else {
      var h := m / 2;
      AndBit(x / 2, h);
      HalfMod(x, m);
      HalfMod(x, h);
      assert m == 2 * h;
    }
  }

  /** The mask always lands below its limit. */
  lemma MaskBelow(h: nat, b: nat, n: nat)
    requires Pow2(b) && 0 < n && b / 2 <= n
    ensures Mask(h, b, n) < n
    ensures Mask(h, b, n) == if h % b < n then h % b else h % (b / 2)
  {
    AndMask(h, b);
    if h % b >= n { AndMask(h, b / 2); }
  }

  /** Doubling the buffer bound exactly when all its slots are in use moves no hash number. */
  lemma MaskDoubling(h: nat, b: nat)
    requires Pow2(b)
    ensures Mask(h, 2 * b, b) == Mask(h, b, b)
  {
    assert Pow2(2 * b);
    MaskBelow(h, b, b);
    MaskBelow(h, 2 * b, b);
    AndBit(h, b);
  }

  /** One more slot moves exactly the hash numbers of bucket n - b/2 whose bit b/2 is set. */
  lemma MaskGrow(h: nat, b: nat, n: nat)
    requires Pow2(b) && 0 < n < b && b / 2 <= n
    ensures Mask(h, b, n + 1) == if Mask(h, b, n) == n - b / 2 && And(h, b / 2) != 0 then n else Mask(h, b, n)
  {
    MaskBelow(h, b, n);
    MaskBelow(h, b, n + 1);
    AndBit(h, b / 2);
  }
}
