/** The C integer types of the source: `uint8_t` (a store keeps the value
    mod 256, `|` is bitwise), `long` (32-bit on the target) and `uint32_t`. */
module CTypes {

  type Byte = b: int | 0 <= b < 256
  type int32 = x: int | -0x8000_0000 <= x < 0x8000_0000
  type uint32 = x: int | 0 <= x < 0x1_0000_0000

  const Uint32Modulus: int := 0x1_0000_0000

  /** What a store of an `int` expression into a `uint8_t` keeps. */
  function Wrap(x: int): Byte {
    x % 256
  }

  /** `uint32_t` addition: the sum, less 2^32 when it does not fit. */
  function Add32(a: uint32, b: uint32): uint32 {
    if a + b < Uint32Modulus then a + b else a + b - Uint32Modulus
  }

  /** `uint32_t` subtraction: the difference, plus 2^32 when it is negative. */
  function Sub32(a: uint32, b: uint32): uint32 {
    if b <= a then a - b else a - b + Uint32Modulus
  }

  /** Both are arithmetic mod 2^32, as C defines it for unsigned types. */
  lemma Add32Mod(a: uint32, b: uint32)
    ensures Add32(a, b) == (a + b) % Uint32Modulus
  {
  }

  lemma Sub32Mod(a: uint32, b: uint32)
    ensures Sub32(a, b) == (a - b) % Uint32Modulus
  {
  }

  lemma {:induction false} MulAtLeast(d: nat, q: nat)
    requires d >= 1
    ensures d * q >= q
    decreases d
  {
    if d > 1 {
      MulAtLeast(d - 1, q);
      assert d * q == (d - 1) * q + q;
    }
  }

  /** A quotient by a positive divisor is at most the dividend. */
  lemma DivAtMost(e: nat, d: nat)
    requires d > 0
    ensures 0 <= e / d <= e
  {
    var q, r := e / d, e % d;
    assert e == d * q + r && r >= 0;
    MulAtLeast(d, q);
  }

  /** A value that already fits is stored unchanged. */
  lemma WrapFits(x: int)
    requires 0 <= x < 256
    ensures Wrap(x) == x
  {
  }

  /** Bitwise OR of two naturals, bit by bit from the least significant one. */
  function BitOr(a: nat, b: nat): nat
    decreases a + b
  {
    if a == 0 && b == 0 then 0
    else (if a % 2 == 1 || b % 2 == 1 then 1 else 0) + 2 * BitOr(a / 2, b / 2)
  }

  function Pow2(k: nat): (p: nat)
    ensures p >= 1
  {
    if k == 0 then 1 else 2 * Pow2(k - 1)
  }

  /** OR never sets a bit above the operands' width. */
  lemma {:induction false} BitOrBelow(a: nat, b: nat, k: nat)
    requires a < Pow2(k) && b < Pow2(k)
    ensures BitOr(a, b) < Pow2(k)
    decreases k
  {
    if a == 0 && b == 0 {
    } else if k == 0 {
      assert false;
    } else {
      BitOrBelow(a / 2, b / 2, k - 1);
    }
  }

  lemma {:induction false} BitOrZero(a: nat)
    ensures BitOr(a, 0) == a
  {
    if a != 0 {
      BitOrZero(a / 2);
    }
  }

  /** When b fits in the k low bits that a = h * 2^k leaves clear, OR is addition. */
  lemma {:induction false} BitOrDisjoint(h: nat, b: nat, k: nat)
    requires b < Pow2(k)
    ensures BitOr(h * Pow2(k), b) == h * Pow2(k) + b
    decreases k
  {
    if k == 0 {
      BitOrZero(h);
    } else {
      var a := h * Pow2(k);
      var a' := h * Pow2(k - 1);
      assert a == 2 * a';
      BitOrDisjoint(h, b / 2, k - 1);
      if a != 0 || b != 0 {
        assert BitOr(a, b) == (if b % 2 == 1 then 1 else 0) + 2 * BitOr(a', b / 2);
      }
    }
  }

  /** The OR of two bytes is a byte. */
  function Or(a: Byte, b: Byte): (r: Byte)
    ensures a <= r && b <= r
  {
    assert Pow2(8) == 256;
    BitOrBelow(a, b, 8);
    OrAtLeast(a, b);
    BitOr(a, b)
  }

  /** A high nibble shifted left four, OR-ed with a low nibble, is the byte they make. */
  lemma OrNibbles(h: nat, l: nat)
    requires h < 16 && l < 16
    ensures Or(h * 16, l) == h * 16 + l
  {
    assert Pow2(4) == 16;
    BitOrDisjoint(h, l, 4);
  }

  lemma {:induction false} OrAtLeast(a: nat, b: nat)
    ensures a <= BitOr(a, b) && b <= BitOr(a, b)
    decreases a + b
  {
    if a != 0 || b != 0 {
      OrAtLeast(a / 2, b / 2);
    }
  }
}
