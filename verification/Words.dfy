/** 32-bit ring words: wrap-around arithmetic, `& ring_mask`, and what both mean for an
    unbounded counter of which the word is only the residue modulo 2^32. */
module Words {

  const TWO_POW_32: int := 0x1_0000_0000
  const TWO_POW_64: int := 0x1_0000_0000_0000_0000

  type u32 = x: int | 0 <= x < TWO_POW_32

  type byte = x: int | 0 <= x < 256

  function Min(a: nat, b: nat): nat {
    if a <= b then a else b
  }

  /** The word that represents the unbounded counter `n`. */
  function Residue(n: nat): u32 {
    n % TWO_POW_32
  }

  function WrappingAdd(a: u32, b: u32): u32 {
    (a + b) % TWO_POW_32
  }

  function WrappingSub(a: u32, b: u32): u32 {
    (a - b) % TWO_POW_32
  }

  function Pow2(k: nat): (p: nat)
    ensures p > 0
  {
    if k == 0 then 1 else 2 * Pow2(k - 1)
  }

  /** Bitwise conjunction, bit by bit. */
  function BitAnd(a: nat, b: nat): (r: nat)
    ensures r <= a && r <= b
    decreases a
  {
    if a == 0 || b == 0 then 0
    else 2 * BitAnd(a / 2, b / 2) + (if a % 2 == 1 && b % 2 == 1 then 1 else 0)
  }

  /** Ring sizes the kernel hands out: a power of two that fits a 32-bit word. */
  ghost predicate IsRingSize(entries: int) {
    exists k: nat :: k < 32 && entries == Pow2(k)
  }

  lemma RingSizeBounds(entries: int)
    requires IsRingSize(entries)
    ensures 0 < entries <= 0x8000_0000
  {
    var k: nat :| k < 32 && entries == Pow2(k);
    Pow2Monotone(k, 31);
    assert Pow2(31) == 0x8000_0000 by { Pow2Of31(); }
  }

  lemma Pow2Of31()
    ensures Pow2(31) == 0x8000_0000 && Pow2(32) == TWO_POW_32
  {
    assert Pow2(8) == 256;
    assert Pow2(16) == 256 * 256;
    assert Pow2(24) == 256 * 256 * 256;
  }

  lemma {:induction false} Pow2Monotone(a: nat, b: nat)
    requires a <= b
    ensures Pow2(a) <= Pow2(b)
    decreases b
  {
    if a < b {
      Pow2Monotone(a, b - 1);
    }
  }

  lemma {:induction false} Pow2Sum(a: nat, b: nat)
    ensures Pow2(a + b) == Pow2(a) * Pow2(b)
  {
    if a > 0 {
      Pow2Sum(a - 1, b);
      assert Pow2(a + b) == 2 * Pow2(a - 1 + b);
    }
  }

  lemma {:induction false} ProductAtLeast(d: nat, m: nat)
    requires d > 0
    ensures d * m >= m
    decreases d
  {
    if d > 1 {
      ProductAtLeast(d - 1, m);
      assert d * m == (d - 1) * m + m;
    }
  }

  /** A nonzero multiple of `m` is at least `m` away from zero. */
  lemma MultipleIsFar(d: int, m: int)
    requires d != 0 && m > 0
    ensures d * m >= m || d * m <= -m
  {
    if d > 0 {
      ProductAtLeast(d, m);
    } else {
      ProductAtLeast(-d, m);
      assert d * m == -(-d * m);
    }
  }

  /** Quotient and remainder are unique. */
  lemma ModUnique(a: int, q: int, m: int, r: int)
    requires m > 0 && 0 <= r < m && a == q * m + r
    ensures a % m == r
  {
    var q' := a / m;
    assert a == q' * m + a % m;
    assert (q - q') * m == a % m - r;
    if q != q' {
      MultipleIsFar(q - q', m);
      assert false;
    }
  }

  lemma ModOfHalf(x: nat, p: nat)
    requires p > 0
    ensures 2 * ((x / 2) % p) + x % 2 == x % (2 * p)
  {
    var q, r := (x / 2) / p, (x / 2) % p;
    assert x / 2 == q * p + r;
    assert x == q * (2 * p) + (2 * r + x % 2);
    ModUnique(x, q, 2 * p, 2 * r + x % 2);
  }

  /** Masking with a power of two less one takes the remainder. */
  lemma {:induction false} MaskIsRemainder(x: nat, k: nat)
    ensures BitAnd(x, Pow2(k) - 1) == x % Pow2(k)
    decreases k
  {
    if k == 0 {
    } else if x == 0 {
    } else {
      MaskIsRemainder(x / 2, k - 1);
      ModOfHalf(x, Pow2(k - 1));
    }
  }

  lemma RemainderOfResidue(n: nat, p: nat, q: nat)
    requires p > 0 && p * q == TWO_POW_32
    ensures Residue(n) % p == n % p
  {
    var c, w := n / TWO_POW_32, n % TWO_POW_32;
    var d, e := w / p, w % p;
    assert n == c * TWO_POW_32 + w;
    assert c * TWO_POW_32 == (c * q) * p by {
      assert c * (p * q) == (c * q) * p;
    }
    assert n == (c * q + d) * p + e;
    ModUnique(n, c * q + d, p, e);
  }

  /** The slot that a word selects is the slot of the counter it stands for, however
      often the counter has passed 2^32. */
  lemma SlotOfCounter(n: nat, entries: int)
    requires IsRingSize(entries)
    ensures 0 < entries <= 0x8000_0000
    ensures BitAnd(Residue(n), entries - 1) == n % entries
  {
    RingSizeBounds(entries);
    var k: nat :| k < 32 && entries == Pow2(k);
    MaskIsRemainder(Residue(n), k);
    Pow2Sum(k, 32 - k);
    Pow2Of31();
    RemainderOfResidue(n, entries, Pow2(32 - k));
  }

  /** Two counters less than a ring apart never share a slot. */
  lemma SlotsDiffer(i: nat, j: nat, entries: nat)
    requires i < j < i + entries
    ensures i % entries != j % entries
  {
    var qi, qj := i / entries, j / entries;
    assert i == qi * entries + i % entries;
    assert j == qj * entries + j % entries;
    if i % entries == j % entries {
      assert j - i == (qj - qi) * entries;
      if qj != qi {
        MultipleIsFar(qj - qi, entries);
      }
    }
  }

  /** The wrapped difference of two words is the true difference of their counters. */
  lemma DistanceOfCounters(t: nat, h: nat)
    requires h <= t < h + TWO_POW_32
    ensures WrappingSub(Residue(t), Residue(h)) == t - h
    ensures Residue(t) == Residue(h) <==> t == h
  {
    var ct, wt, ch, wh := t / TWO_POW_32, t % TWO_POW_32, h / TWO_POW_32, h % TWO_POW_32;
    assert t == ct * TWO_POW_32 + wt && h == ch * TWO_POW_32 + wh;
  }

  /** Without the bound the wrapped difference is the difference modulo 2^32. */
  lemma ResidueDifference(t: nat, h: nat)
    requires h <= t
    ensures WrappingSub(Residue(t), Residue(h)) == (t - h) % TWO_POW_32
  {
    var ct, wt, ch, wh := t / TWO_POW_32, t % TWO_POW_32, h / TWO_POW_32, h % TWO_POW_32;
    assert t == ct * TWO_POW_32 + wt && h == ch * TWO_POW_32 + wh;
    assert t - h == (ct - ch) * TWO_POW_32 + (wt - wh);
  }

  lemma ResidueSum(n: nat, i: u32)
    ensures WrappingAdd(Residue(n), i) == Residue(n + i)
  {
    var c, w := n / TWO_POW_32, n % TWO_POW_32;
    assert n == c * TWO_POW_32 + w;
  }

  /** Counting up from `head` meets `tail` after exactly the wrapped distance. */
  lemma WalkMeetsTail(head: u32, tail: u32, n: u32)
    requires n <= WrappingSub(tail, head)
    ensures WrappingAdd(head, n) == tail <==> n == WrappingSub(tail, head)
    ensures n < TWO_POW_32 - 1 ==> WrappingAdd(WrappingAdd(head, n), 1) == WrappingAdd(head, n + 1)
  {
  }

  lemma NextResidue(n: nat)
    ensures WrappingAdd(Residue(n), 1) == Residue(n + 1)
  {
  }
}
