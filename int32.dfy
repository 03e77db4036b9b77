/** Machine integers as the C code sees them: bytes, 16-bit pool indices,
    int8_t loop counters and two's-complement int32_t arithmetic. Dafny's
    own integers are unbounded, so every wrap-around, sign extension and
    truncating division of the C code is written out here. */
module Int32Arith {

  const TWO_32: int := 0x1_0000_0000
  const INT_MIN: int := -0x8000_0000
  const INT_MAX: int := 0x7fff_ffff

  /** An unsigned byte (`ubyte`, `uint8_t`). */
  newtype UByte = x: int | 0 <= x < 0x100

  /** An unsigned 16-bit integer (`uint16_t`). */
  newtype U16 = x: int | 0 <= x < 0x1_0000

  /** A signed 32-bit integer (`int32_t`). */
  newtype Int32 = x: int | -0x8000_0000 <= x < 0x8000_0000

  function Abs(x: int): (r: nat)
    ensures r == x || r == -x
  {
    if x < 0 then -x else x
  }

  /** The int32_t that holds `x` after two's-complement wrap-around. */
  function Wrap(x: int): (r: Int32)
    ensures r as int % TWO_32 == x % TWO_32
    ensures INT_MIN <= x <= INT_MAX ==> r as int == x
  {
    var m := x % TWO_32;
    if m <= INT_MAX then m as Int32 else (m - TWO_32) as Int32
  }

  function Pow2(k: nat): (r: nat)
    ensures r >= 1
  {
    if k == 0 then 1 else 2 * Pow2(k - 1)
  }

  // ---------------------------------------------------------------------
  // Division as C99 defines it: the quotient is truncated toward zero and
  // the remainder takes the sign of the dividend.

  function CDiv(a: int, b: int): int
    requires b != 0
  {
    var q := Abs(a) / Abs(b);
    if (a < 0) == (b < 0) then q else -q
  }

  function CRem(a: int, b: int): int
    requires b != 0
  {
    var m := Abs(a) % Abs(b);
    if a < 0 then -m else m
  }

  /** The C99 division identity, the bound on the remainder, its sign, and
      truncation toward zero. */
  lemma DivRem(a: int, b: int)
    requires b != 0
    ensures a == b * CDiv(a, b) + CRem(a, b)
    ensures Abs(CRem(a, b)) < Abs(b)
    ensures CRem(a, b) != 0 ==> (CRem(a, b) < 0 <==> a < 0)
    ensures Abs(b * CDiv(a, b)) <= Abs(a)
  {
    var q, m := Abs(a) / Abs(b), Abs(a) % Abs(b);
    DivMod(Abs(a), Abs(b));
    DivRemCore(a, b, q, m, CDiv(a, b), CRem(a, b));
  }

  lemma DivMod(a: int, d: int)
    requires d > 0
    ensures a == d * (a / d) + a % d && 0 <= a % d < d
  {
  }

  lemma DivRemCore(a: int, b: int, q: int, m: int, c: int, r: int)
    requires b != 0 && Abs(a) == Abs(b) * q + m && 0 <= m < Abs(b) && q >= 0
    requires c == (if (a < 0) == (b < 0) then q else -q)
    requires r == (if a < 0 then -m else m)
    ensures a == b * c + r
    ensures Abs(r) < Abs(b)
    ensures r != 0 ==> (r < 0 <==> a < 0)
    ensures Abs(b * c) <= Abs(a)
  {
    MulNonNeg(Abs(b), q);
    if b < 0 {
      assert b * q == -(Abs(b) * q);
    } else {
      assert b * q == Abs(b) * q;
    }
  }

  lemma MulNonNeg(x: nat, y: nat)
    ensures x * y >= 0
  {
  }

  /** C's `a / b` on int32_t operands is an int32_t except for INT_MIN / -1. */
  lemma DivInRange(a: Int32, b: Int32)
    requires b != 0 && !(a as int == INT_MIN && b == -1)
    ensures INT_MIN <= CDiv(a as int, b as int) <= INT_MAX
    ensures INT_MIN <= CRem(a as int, b as int) <= INT_MAX
  {
    var A, B := Abs(a as int), Abs(b as int);
    if B >= 2 {
      QuotientHalves(A, B);
    }
    DivRem(a as int, b as int);
  }

  lemma QuotientHalves(A: nat, B: nat)
    requires B >= 2
    ensures A / B * 2 <= A
  {
    DivMod(A, B);
    QuotientHalvesCore(A, B, A / B, A % B);
  }

  lemma QuotientHalvesCore(A: nat, B: nat, q: int, m: int)
    requires B >= 2 && A == B * q + m && 0 <= m < B && q >= 0
    ensures q * 2 <= A
  {
    MulNonNeg(q, B - 2);
  }

  /** IDIV's quotient, defined when the C code does not fault: with IREM's
      remainder it gives back the dividend, and it is truncated toward
      zero, so the product never exceeds the dividend in magnitude. */
  function Quotient(a: Int32, b: Int32): (r: Int32)
    requires b != 0 && !(a as int == INT_MIN && b == -1)
    ensures a as int == b as int * r as int + Remainder(a, b) as int
    ensures Abs(b as int * r as int) <= Abs(a as int)
  {
    DivInRange(a, b);
    DivRem(a as int, b as int);
    CDiv(a as int, b as int) as Int32
  }

  /** IREM's remainder, defined when the C code does not fault: smaller
      than the divisor in magnitude, of the dividend's sign when nonzero,
      and congruent to the dividend modulo the divisor. */
  function Remainder(a: Int32, b: Int32): (r: Int32)
    requires b != 0 && !(a as int == INT_MIN && b == -1)
    ensures Abs(r as int) < Abs(b as int)
    ensures r != 0 ==> (r < 0 <==> a < 0)
    ensures (a as int - r as int) % (b as int) == 0
  {
    DivInRange(a, b);
    DivRem(a as int, b as int);
    MultipleMod(b as int, CDiv(a as int, b as int));
    CRem(a as int, b as int) as Int32
  }

  /** A multiple of `b` leaves no remainder when divided by `b`. */
  lemma MultipleMod(b: int, q: int)
    requires b != 0
    ensures (b * q) % b == 0
  {
    var m := (b * q) % b;
    assert b * q == b * ((b * q) / b) + m;
    assert m == b * (q - (b * q) / b);
    if m != 0 {
      MulAbs(b, q - (b * q) / b);
    }
  }

  /** A nonzero multiple of `b` is at least `b` in magnitude. */
  lemma MulAbs(b: int, k: int)
    requires b != 0 && k != 0
    ensures Abs(b * k) >= Abs(b)
  {
    MulNonNeg(Abs(b), Abs(k) - 1);
    assert Abs(b * k) == Abs(b) * Abs(k);
  }

  // ---------------------------------------------------------------------
  // Bitwise operations, on the 32-bit pattern of an int32_t.

  function ToBits(a: Int32): bv32
  {
    ((a as int) % TWO_32) as bv32
  }

  function FromBits(b: bv32): Int32
  {
    Wrap(b as int)
  }

  /** The int32 read from a bit pattern has that pattern as its residue
      modulo 2^32. */
  lemma FromBitsResidue(b: bv32)
    ensures FromBits(b) as int % TWO_32 == b as int
  {
    WrapResidue(b as int);
  }

  lemma WrapResidue(x: int)
    requires 0 <= x < TWO_32
    ensures Wrap(x) as int % TWO_32 == x
  {
  }

  /** A non-negative 32-bit value is fixed by its residue modulo 2^32. */
  lemma ResidueDetermines(x: int, k: int)
    requires INT_MIN <= x <= INT_MAX && 0 <= k <= INT_MAX && x % TWO_32 == k
    ensures x == k
  {
  }

  function And(a: Int32, b: Int32): Int32
  {
    FromBits(ToBits(a) & ToBits(b))
  }

  function Or(a: Int32, b: Int32): Int32
  {
    FromBits(ToBits(a) | ToBits(b))
  }

  function Xor(a: Int32, b: Int32): Int32
  {
    FromBits(ToBits(a) ^ ToBits(b))
  }

  /** OR and XOR differ: on 1 and 1 OR gives 1, XOR gives 0. */
  lemma OrIsNotXor()
    ensures Or(1, 1) == 1 && Xor(1, 1) == 0
  {
    assert ToBits(1) == 1;
    assert (1 as bv32) | (1 as bv32) == 1;
    assert (1 as bv32) ^ (1 as bv32) == 0;
  }

  /** `a << k` on int32_t for a shift amount in 0..31: the bit pattern of
      `a * 2^k` wrapped to 32 bits. */
  function Shl(a: Int32, k: int): (r: Int32)
    requires 0 <= k < 32
    ensures r as int % TWO_32 == (a as int * Pow2(k)) % TWO_32
  {
    Wrap(a as int * Pow2(k))
  }

  /** `a >> k` on int32_t for a shift amount in 0..31: the arithmetic
      (sign-extending) shift, that is, division by 2^k rounded down. */
  function Shr(a: Int32, k: int): (r: Int32)
    requires 0 <= k < 32
    ensures r as int * Pow2(k) <= a as int < (r as int + 1) * Pow2(k)
    ensures (a < 0 <==> r < 0)
  {
    var d := Pow2(k);
    var q := (a as int) / d;
    FloorDivBounds(a as int, d);
    q as Int32
  }

  lemma FloorDivBounds(a: int, d: int)
    requires d >= 1
    ensures a / d * d <= a < (a / d + 1) * d
    ensures a >= 0 ==> 0 <= a / d <= a
    ensures a < 0 ==> a <= a / d < 0
  {
    DivMod(a, d);
    FloorCore(a, d, a / d, a % d);
  }

  lemma FloorCore(a: int, d: int, q: int, m: int)
    requires d >= 1 && a == d * q + m && 0 <= m < d
    ensures q * d <= a < (q + 1) * d
    ensures a >= 0 ==> 0 <= q <= a
    ensures a < 0 ==> a <= q < 0
  {
    if q >= 0 {
      MulNonNeg(q, d - 1);
    } else {
      MulNonNeg(-q - 1, d);
      MulNonNeg(-q, d - 1);
    }
  }

  // ---------------------------------------------------------------------
  // Decoding of immediate operands.

  /** `(int32_t)(byte)b`: the byte read as a signed char, then widened. */
  function SignExtend8(b: UByte): (r: Int32)
    ensures -128 <= r < 128
    ensures r as int % 0x100 == b as int
  {
    if b < 0x80 then b as Int32 else (b as int - 0x100) as Int32
  }

  /** `(c1 << 8) | c2` on two bytes: a big-endian 16-bit index. */
  function BigEndian16(c1: UByte, c2: UByte): (r: U16)
    ensures r as int / 0x100 == c1 as int && r as int % 0x100 == c2 as int
  {
    (c1 as int * 0x100 + c2 as int) as U16
  }

  /** Every 16-bit value is the decoding of its high and low bytes. */
  lemma BigEndian16Split(u: U16)
    ensures BigEndian16((u as int / 0x100) as UByte, (u as int % 0x100) as UByte) == u
  {
  }

  /** The int16_t offset `(c1 << 8) | c2` of a branch: the same 16 bits read
      in two's complement. */
  function Signed16(c1: UByte, c2: UByte): (r: int)
    ensures -0x8000 <= r < 0x8000
    ensures r % 0x1_0000 == BigEndian16(c1, c2) as int
    ensures (r < 0 <==> c1 >= 0x80)
  {
    var u := BigEndian16(c1, c2) as int;
    if u < 0x8000 then u else u - 0x1_0000
  }

  /** The conversion of an int to int8_t (modulo 2^8, into -128..127). */
  function ToInt8(x: int): (r: int)
    ensures -128 <= r < 128
    ensures r % 0x100 == x % 0x100
  {
    var m := x % 0x100;
    if m < 0x80 then m else m - 0x100
  }
}
