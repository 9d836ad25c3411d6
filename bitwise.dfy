/**
 * Rust's bitwise operators on unsigned integers (`>>`, `<<`, `&`, `|`, and the
 * truncating `as` cast), defined on natural numbers, together with the laws that
 * tie them to division, remainder and addition. Every bit expression of the codec
 * is written with these operators exactly as the source writes it.
 *
 * The laws take the power of two they speak about as an extra argument `p` with
 * `p == Pow2(k)`, so that a caller passing a literal (128, 16, ...) gets a
 * contract in plain linear arithmetic.
 */
module Bitwise {

  /** 2^k. */
  function Pow2(k: nat): (r: nat)
    ensures r >= 1
  {
    if k == 0 then 1 else 2 * Pow2(k - 1)
  }

  /** The powers of two that the codec's shifts, masks and widths use. */
  lemma Pow2Values()
    ensures Pow2(4) == 16 && Pow2(7) == 128 && Pow2(8) == 0x100 && Pow2(16) == 0x1_0000
  {
  }

  /** `x >> k` on an unsigned integer: k halvings, each dropping the lowest bit. */
  function Shr(x: nat, k: nat): nat
  {
    if k == 0 then x else Shr(x / 2, k - 1)
  }

  /** `x << k` on an unsigned integer `width` bits wide: bits shifted past the top are lost. */
  function Shl(x: nat, k: nat, width: nat): nat
  {
    (x * Pow2(k)) % Pow2(width)
  }

  /** `x as uN`: keeps the low `width` bits. */
  function Truncate(x: nat, width: nat): nat
  {
    x % Pow2(width)
  }

  /** `x & y`, bit by bit from the least significant bit. */
  function And(x: nat, y: nat): nat
    decreases x
  {
    if x == 0 || y == 0 then 0
    else 2 * And(x / 2, y / 2) + (if x % 2 == 1 && y % 2 == 1 then 1 else 0)
  }

  /** `x | y`, bit by bit from the least significant bit. */
  function Or(x: nat, y: nat): nat
    decreases x + y
  {
    if x == 0 then y
    else if y == 0 then x
    else 2 * Or(x / 2, y / 2) + (if x % 2 == 1 || y % 2 == 1 then 1 else 0)
  }

  /** A positive multiple of d is at least d. */
  lemma MulAtLeast(m: int, d: int)
    requires m >= 1 && d > 0
    ensures m * d >= d
  {
  }

  /** Division with remainder has exactly one answer. */
  lemma DivModUnique(x: int, d: int, q: int, r: int)
    requires d > 0 && 0 <= r < d && x == q * d + r
    ensures x / d == q && x % d == r
  {
    var q', r' := x / d, x % d;
    assert x == q' * d + r';
    assert (q - q') * d == r' - r;
    if q > q' {
      MulAtLeast(q - q', d);
    } else if q < q' {
      MulAtLeast(q' - q, d);
    }
  }

  /** Dividing by 2p is halving and then dividing by p; the remainder is rebuilt from both steps. */
  lemma DivModDouble(x: nat, p: nat)
    requires p > 0
    ensures x / (2 * p) == (x / 2) / p
    ensures x % (2 * p) == 2 * ((x / 2) % p) + x % 2
  {
    var q, r := x / 2, x % 2;
    var q', r' := q / p, q % p;
    assert x == q' * (2 * p) + (2 * r' + r);
    DivModUnique(x, 2 * p, q', 2 * r' + r);
  }

  /** Shifting right by k is division by 2^k. */
  lemma {:induction false} ShrIsDiv(x: nat, k: nat, p: nat)
    requires p == Pow2(k)
    ensures Shr(x, k) == x / p
  {
    if k > 0 {
      ShrIsDiv(x / 2, k - 1, Pow2(k - 1));
      DivModDouble(x, Pow2(k - 1));
    }
  }

  /** A left shift that stays below 2^width loses no bits: it is multiplication by 2^k. */
  lemma ShlNoOverflow(x: nat, k: nat, width: nat, p: nat)
    requires p == Pow2(k)
    requires x * p < Pow2(width)
    ensures Shl(x, k, width) == x * p
  {
    DivModUnique(x * p, Pow2(width), 0, x * p);
  }

  /** A truncation to `width` bits keeps a value that already fits. */
  lemma TruncateFits(x: nat, width: nat)
    requires x < Pow2(width)
    ensures Truncate(x, width) == x
  {
    DivModUnique(x, Pow2(width), 0, x);
  }

  /** Masking with 2^k - 1 keeps the low k bits: it is the remainder modulo 2^k. */
  lemma {:induction false} AndLowMask(x: nat, k: nat, mask: nat)
    requires mask + 1 == Pow2(k)
    ensures And(x, mask) == x % (mask + 1)
  {
    if k == 0 {
      assert mask == 0;
    } else if x == 0 {
      DivModUnique(0, mask + 1, 0, 0);
    } else {
      var p := Pow2(k - 1);
      assert mask == 2 * p - 1;
      assert mask / 2 == p - 1 && mask % 2 == 1;
      assert And(x, mask) == 2 * And(x / 2, p - 1) + x % 2;
      AndLowMask(x / 2, k - 1, p - 1);
      DivModDouble(x, p);
    }
  }

  /** Masking with 2^k - 1 leaves a value below 2^k unchanged. */
  lemma AndLowMaskFits(x: nat, k: nat, mask: nat)
    requires mask + 1 == Pow2(k)
    requires x <= mask
    ensures And(x, mask) == x
  {
    AndLowMask(x, k, mask);
    DivModUnique(x, mask + 1, 0, x);
  }

  /** OR of a value shifted above k bits with a value below 2^k is their sum. */
  lemma {:induction false} OrDisjoint(a: nat, b: nat, k: nat, p: nat)
    requires p == Pow2(k)
    requires b < p
    ensures Or(a * p, b) == a * p + b
  {
    if k > 0 && a != 0 && b != 0 {
      var h := Pow2(k - 1);
      assert a * p == 2 * (a * h);
      OrDisjoint(a, b / 2, k - 1, h);
    }
  }

  /** OR of two values below 2^w stays below 2^w. */
  lemma {:induction false} OrBound(x: nat, y: nat, w: nat, n: nat)
    requires n == Pow2(w)
    requires x < n && y < n
    ensures Or(x, y) < n
  {
    if w > 0 && x != 0 && y != 0 {
      OrBound(x / 2, y / 2, w - 1, Pow2(w - 1));
    }
  }

  /**
   * OR with a value below 2^k leaves the bits from k upwards alone and acts on
   * the low k bits only.
   */
  lemma {:induction false} OrLowBits(x: nat, y: nat, k: nat, p: nat)
    requires p == Pow2(k)
    requires y < p
    ensures Or(x, y) / p == x / p
    ensures Or(x, y) % p == Or(x % p, y)
  {
    if k == 0 {
      assert p == 1 && y == 0;
    } else if x == 0 {
      DivModUnique(y, p, 0, y);
      DivModUnique(0, p, 0, 0);
    } else if y == 0 {
      assert Or(x % p, 0) == x % p;
    } else {
      var h := Pow2(k - 1);
      assert p == 2 * h;
      var z := Or(x / 2, y / 2);
      var bit := if x % 2 == 1 || y % 2 == 1 then 1 else 0;
      assert Or(x, y) == 2 * z + bit;
      OrLowBits(x / 2, y / 2, k - 1, h);
      // the bits from k upwards
      DivModDouble(x, h);
      DivModDouble(2 * z + bit, h);
      assert (2 * z + bit) / 2 == z && (2 * z + bit) % 2 == bit;
      // the low k bits
      var x' := x % p;
      assert x' == 2 * ((x / 2) % h) + x % 2;
      assert x' / 2 == (x / 2) % h && x' % 2 == x % 2;
      if x' == 0 {
        assert Or(x' / 2, y / 2) == y / 2;
        assert Or(x', y) == y;
      } else {
        assert Or(x', y) == 2 * Or(x' / 2, y / 2) + bit;
      }
    }
  }
}
