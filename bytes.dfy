/** Machine integers of the Rust code, as ranges of unbounded integers.

    Bit operations of the source are written as arithmetic on these ranges:
    `b & 0x7F` is `b % 128`, `(b >> 7) & 1 == 1` is `b >= 128`, `x << k` is
    `x * Pow2(k)` and a truncation to 32 bits is `% TWO32`. */
module Bytes {

  type byte = b: int | 0 <= b < 256

  const TWO31: int := 0x8000_0000
  const TWO32: int := 0x1_0000_0000
  const TWO63: int := 0x8000_0000_0000_0000
  const TWO64: int := 0x1_0000_0000_0000_0000

  type u32 = x: int | 0 <= x < 0x1_0000_0000
  type i32 = x: int | -0x8000_0000 <= x < 0x8000_0000
  type u64 = x: int | 0 <= x < 0x1_0000_0000_0000_0000
  type i64 = x: int | -0x8000_0000_0000_0000 <= x < 0x8000_0000_0000_0000

  /** The low seven bits of a LEB128 byte (`byte & 0x7F`). */
  function Low7(b: byte): (r: nat)
    ensures r < 128
  {
    b % 128
  }

  /** The continuation bit of a LEB128 byte (`(byte >> 7) & 1 == 1`). */
  predicate More(b: byte)
  {
    b >= 128
  }

  function Pow2(n: nat): (r: int)
    ensures r >= 1
  {
    if n == 0 then 1 else 2 * Pow2(n - 1)
  }

  lemma {:induction false} Pow2Add(a: nat, b: nat)
    ensures Pow2(a + b) == Pow2(a) * Pow2(b)
  {
    if b > 0 {
      Pow2Add(a, b - 1);
      assert Pow2(a + b) == 2 * Pow2(a + b - 1);
    }
  }

  lemma {:induction false} Pow2Monotonic(a: nat, b: nat)
    requires a <= b
    ensures Pow2(a) <= Pow2(b)
  {
    if a < b {
      Pow2Monotonic(a, b - 1);
    }
  }

  /** `Pow2(7 * (k + 1))` is 128 times `Pow2(7 * k)`: one more LEB128 group. */
  lemma Pow2Group(k: nat)
    ensures Pow2(7 * (k + 1)) == 128 * Pow2(7 * k)
  {
    Pow2Add(7 * k, 7);
    assert Pow2(7) == 128;
  }

  /** Seven more bits: one more LEB128 group above bit `a`. */
  lemma Pow2Seven(a: nat)
    ensures Pow2(a + 7) == 128 * Pow2(a)
  {
    Pow2Add(a, 7);
    assert Pow2(7) == 128;
  }

  /** Powers of two at whole LEB128 groups and at their sign bits. */
  lemma Pow2Groups()
    ensures Pow2(6) == 64 && Pow2(7) == 128 && Pow2(14) == 16384 && Pow2(21) == 0x20_0000
    ensures Pow2(27) == 0x800_0000 && Pow2(28) == 0x1000_0000
  {
    Pow2Group(0); Pow2Group(1); Pow2Group(2); Pow2Group(3);
    Pow2Add(21, 6);
    assert Pow2(6) == 64;
  }

  /** Powers of two at the 32-bit and five-group boundaries. */
  lemma Pow2Words()
    ensures Pow2(27) == 0x800_0000 && Pow2(28) == 0x1000_0000
    ensures Pow2(31) == TWO31 && Pow2(32) == TWO32
    ensures Pow2(34) == 0x4_0000_0000 && Pow2(35) == 0x8_0000_0000
  {
    Pow2Groups();
    Pow2Group(4);
    Pow2Add(28, 3); Pow2Add(28, 4); Pow2Add(28, 6);
    assert Pow2(3) == 8 && Pow2(4) == 16;
  }

  /** Reinterprets a 32-bit pattern as a two's-complement `i32` (`as i32`). */
  function ToI32(x: int): (r: i32)
    requires 0 <= x < TWO32
    ensures r % TWO32 == x
    ensures 0 <= r ==> r == x
  {
    if x >= TWO31 then x - TWO32 else x
  }

  /** Reinterprets a 64-bit pattern as a two's-complement `i64` (`as i64`). */
  function ToI64(x: int): (r: i64)
    requires 0 <= x < TWO64
    ensures r % TWO64 == x
    ensures 0 <= r ==> r == x
  {
    if x >= TWO63 then x - TWO64 else x
  }

  /** Euclidean division is unique: the quotient and remainder are fixed by `x == q * m + r`. */
  lemma DivModUnique(x: int, q: int, r: int, m: int)
    requires m > 0 && 0 <= r < m && x == q * m + r
    ensures x / m == q && x % m == r
  {
    var q', r' := x / m, x % m;
    assert x == q' * m + r';
    if q' < q {
      MulMonotonic(q - q', m);
    } else if q < q' {
      MulMonotonic(q' - q, m);
    }
  }

  lemma MulMonotonic(k: int, m: int)
    requires k >= 1 && m > 0
    ensures k * m >= m
  {
  }

  lemma MulLe(a: int, b: int, c: int)
    requires a <= b && c >= 0
    ensures a * c <= b * c
  {
  }

  /** `(a % m + b) % m == (a + b) % m`: truncating early changes nothing. */
  lemma ModAddLeft(a: int, b: int, m: int)
    requires m > 0
    ensures (a % m + b) % m == (a + b) % m
  {
    var x := a % m + b;
    DivModUnique(a + b, a / m + x / m, x % m, m);
    assert a + b == (a / m) * m + x;
    assert x == (x / m) * m + x % m;
    assert (a / m + x / m) * m == (a / m) * m + (x / m) * m;
  }
}
