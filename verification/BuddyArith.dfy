/** Power-of-two blocks of page frames: alignment, nesting and buddies. */
module BuddyArith {
  import opened Division

  const MAX_ORDER := 11

  function Pow2(k: nat): (r: nat)
    ensures r > 0
  {
    if k == 0 then 1 else 2 * Pow2(k - 1)
  }

  predicate Aligned(h: nat, k: nat) {
    h % Pow2(k) == 0
  }

  /** `h` with bit `k` flipped, the frame number `get_buddy` computes with an exclusive or. */
  function Flip(h: nat, k: nat): nat {
    if (h / Pow2(k)) % 2 == 0 then h + Pow2(k)
    else assert h / Pow2(k) >= 1; AtLeast(h, Pow2(k)); h - Pow2(k)
  }

  lemma AtLeast(h: nat, d: nat)
    requires d > 0 && h / d >= 1
    ensures h >= d
  {
  }

  // ----- multiples -----

  lemma Multiple(d: nat, q: nat)
    requires d > 0
    ensures (q * d) % d == 0 && (q * d) / d == q
  {
    if q > 0 {
      Multiple(d, q - 1);
      assert q * d == (q - 1) * d + d;
      AddOne((q - 1) * d, d);
    }
  }

  lemma AddOne(x: nat, d: nat)
    requires d > 0
    ensures (x + d) % d == x % d && (x + d) / d == x / d + 1
  {
    var q, r := x / d, x % d;
    assert x == q * d + r;
    assert x + d == (q + 1) * d + r;
    DivUnique(x + d, d, q + 1, r);
  }

  lemma Exact(x: nat, d: nat)
    requires d > 0 && x % d == 0
    ensures x == (x / d) * d
  {
  }

  /** Two different multiples are a whole step apart. */
  lemma Gap(x: nat, y: nat, k: nat)
    requires Aligned(x, k) && Aligned(y, k) && x < y
    ensures x + Pow2(k) <= y
  {
    var d := Pow2(k);
    Exact(x, d);
    Exact(y, d);
    MulOrder(x / d, y / d, d);
  }

  // ----- alignment at neighbouring orders -----

  /** The two halves of an aligned block are each other's buddies. */
  lemma Halves(h: nat, k: nat)
    requires Aligned(h, k + 1)
    ensures Aligned(h, k) && Aligned(h + Pow2(k), k)
    ensures Flip(h, k) == h + Pow2(k) && Flip(h + Pow2(k), k) == h
  {
    var d, q := Pow2(k), h / Pow2(k + 1);
    Exact(h, 2 * d);
    assert h == (2 * q) * d;
    Multiple(d, 2 * q);
    assert h + d == (2 * q + 1) * d;
    Multiple(d, 2 * q + 1);
  }

  /** A block and its buddy make up the aligned block one order up. */
  lemma Buddies(h: nat, k: nat)
    requires Aligned(h, k)
    ensures var b := Flip(h, k); var lo := if b < h then b else h;
            && b != h && Aligned(b, k) && Flip(b, k) == h
            && Aligned(lo, k + 1) && (if h == lo then b == lo + Pow2(k) else h == lo + Pow2(k))
  {
    var lo := Lower(h, k);
    Halves(lo, k);
  }

  /** An aligned block is the lower or the upper half of an aligned block one order up. */
  lemma Lower(h: nat, k: nat) returns (lo: nat)
    requires Aligned(h, k)
    ensures Aligned(lo, k + 1) && (h == lo || h == lo + Pow2(k))
  {
    var d, q := Pow2(k), h / Pow2(k);
    Exact(h, d);
    HalfMul(q, d);
    lo := (q / 2) * (2 * d);
    Multiple(2 * d, q / 2);
  }

  lemma HalfMul(q: nat, d: nat)
    ensures q * d == (q / 2) * (2 * d) + (q % 2) * d
  {
    var p, r := q / 2, q % 2;
    assert q == 2 * p + r;
    assert (2 * p + r) * d == p * (2 * d) + r * d;
  }

  lemma {:induction false} AlignedDown(h: nat, j: nat, k: nat)
    requires j <= k && Aligned(h, k)
    ensures Aligned(h, j)
    decreases k
  {
    if j < k {
      Halves(h, k - 1);
      AlignedDown(h, j, k - 1);
    }
  }

  lemma {:induction false} Pow2Monotone(j: nat, k: nat)
    requires j <= k
    ensures Pow2(j) <= Pow2(k) && Aligned(Pow2(k), j)
    decreases k
  {
    if j < k {
      Pow2Monotone(j, k - 1);
      AddOne(Pow2(k - 1), Pow2(j));
      var d := Pow2(j);
      Exact(Pow2(k - 1), d);
      var q := Pow2(k - 1) / d;
      assert Pow2(k) == (2 * q) * d;
      Multiple(d, 2 * q);
    } else {
      Multiple(Pow2(k), 1);
    }
  }

  lemma SumMultiple(x: nat, y: nat, d: nat)
    requires d > 0 && x % d == 0 && y % d == 0
    ensures (x + y) % d == 0
  {
    Exact(x, d);
    Exact(y, d);
    var a, b := x / d, y / d;
    assert (a + b) * d == a * d + b * d;
    Multiple(d, a + b);
  }

  lemma AlignedAdd(h: nat, k: nat, j: nat)
    requires j <= k && Aligned(h, k)
    ensures Aligned(h + Pow2(k), j)
  {
    AlignedDown(h, j, k);
    Pow2Monotone(j, k);
    SumMultiple(h, Pow2(k), Pow2(j));
  }

  predicate Holds(h: nat, k: nat, p: nat) {
    h <= p < h + Pow2(k)
  }

  /** Aligned blocks that share a page are nested. */
  lemma Nested(h: nat, j: nat, g: nat, k: nat, p: nat)
    requires j <= k && Aligned(h, j) && Aligned(g, k) && Holds(h, j, p) && Holds(g, k, p)
    ensures g <= h && h + Pow2(j) <= g + Pow2(k)
  {
    AlignedDown(g, j, k);
    AlignedAdd(g, k, j);
    if h < g { Gap(h, g, j); }
    if h < g + Pow2(k) { Gap(h, g + Pow2(k), j); }
  }

  // ----- the exclusive or -----

  function Bit(h: nat, j: nat): nat {
    (h / Pow2(j)) % 2
  }

  /** `x` is the exclusive or of `h` and `1 << k`. */
  ghost predicate IsXor(x: nat, h: nat, k: nat) {
    forall j: nat :: Bit(x, j) == if j == k then 1 - Bit(h, j) else Bit(h, j)
  }

  lemma BitHalf(h: nat, j: nat)
    ensures h / Pow2(j + 1) == (h / 2) / Pow2(j) && Bit(h, j + 1) == Bit(h / 2, j)
  {
    var d, q, r := Pow2(j), (h / 2) / Pow2(j), (h / 2) % Pow2(j);
    assert h / 2 == q * d + r;
    assert h == q * (2 * d) + (2 * r + h % 2);
    DivUnique(h, 2 * d, q, 2 * r + h % 2);
  }

  lemma FlipHalf(h: nat, k: nat)
    ensures Flip(h, k + 1) / 2 == Flip(h / 2, k) && Flip(h, k + 1) % 2 == h % 2
  {
    BitHalf(h, k);
  }

  lemma FlipLow(h: nat)
    ensures Flip(h, 0) / 2 == h / 2 && Bit(Flip(h, 0), 0) == 1 - Bit(h, 0)
  {
  }

  lemma BitLow(h: nat)
    ensures Bit(h, 0) == h % 2
  {
  }

  lemma {:induction false} FlipBit(h: nat, k: nat, j: nat)
    ensures Bit(Flip(h, k), j) == if j == k then 1 - Bit(h, j) else Bit(h, j)
    decreases k
  {
    hide Flip, Bit;
    if k > 0 { FlipHalf(h, k - 1); } else { FlipLow(h); }
    if j > 0 {
      BitHalf(h, j - 1);
      BitHalf(Flip(h, k), j - 1);
      if k > 0 { FlipBit(h / 2, k - 1, j - 1); }
    } else {
      BitLow(h);
      BitLow(Flip(h, k));
    }
  }

  /** Numbers with the same bits are equal. */
  lemma {:induction false} SameBits(x: nat, y: nat)
    requires forall j: nat :: Bit(x, j) == Bit(y, j)
    ensures x == y
    decreases x + y
  {
    if x != 0 || y != 0 {
      forall j: nat ensures Bit(x / 2, j) == Bit(y / 2, j) {
        BitHalf(x, j);
        BitHalf(y, j);
        assert Bit(x, j + 1) == Bit(y, j + 1);
      }
      SameBits(x / 2, y / 2);
      assert Bit(x, 0) == x % 2 && Bit(y, 0) == y % 2;
    }
  }

  /** Adding or subtracting the block size computes the exclusive or of the source. */
  lemma FlipIsXor(x: nat, h: nat, k: nat)
    ensures IsXor(x, h, k) <==> x == Flip(h, k)
  {
    forall j: nat ensures Bit(Flip(h, k), j) == if j == k then 1 - Bit(h, j) else Bit(h, j) {
      FlipBit(h, k, j);
    }
    if IsXor(x, h, k) {
      SameBits(x, Flip(h, k));
    }
  }
}
