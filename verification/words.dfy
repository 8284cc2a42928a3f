/** Machine words of the HeVM engine: bytes, signed 64-bit values, the
    two's-complement wrap-around of the C++ arithmetic, division that
    truncates toward zero, and the bitwise operators on 64-bit patterns. */
module Words {

  const TWO_63: int := 0x8000_0000_0000_0000
  const TWO_64: int := 0x1_0000_0000_0000_0000

  /** `uint8_t`: opcodes, register indices and constant-pool bytes. */
  newtype uint8 = x: int | 0 <= x < 256

  /** `int64_t`: register values, the program counter, stack entries. */
  type i64 = x: int | -0x8000_0000_0000_0000 <= x < 0x8000_0000_0000_0000

  function Abs(x: int): (r: nat)
    ensures r == x || r == -x
  {
    if x < 0 then -x else x
  }

  /** Two's-complement wrap-around of a mathematical integer into 64 bits:
      the unique signed 64-bit value congruent to `x` modulo 2^64. */
  function Wrap(x: int): (r: i64)
    ensures (r - x) % TWO_64 == 0
    ensures -TWO_63 <= x < TWO_63 ==> r == x
  {
    var k := (x + TWO_63) % TWO_64;
    assert (k - TWO_63 - x) % TWO_64 == 0 by {
      assert k == (x + TWO_63) - ((x + TWO_63) / TWO_64) * TWO_64;
    }
    k - TWO_63
  }

  /** The value a signed 64-bit word has once C++ converts it to an unsigned
      64-bit integer for a comparison with a `size()`. */
  function Unsigned(x: i64): (r: nat)
    ensures r < TWO_64
    ensures (r - x) % TWO_64 == 0
    ensures 0 <= x ==> r == x
    ensures x < 0 ==> TWO_63 <= r
  {
    if x < 0 then x + TWO_64 else x
  }

  /** Integer quotient rounded toward zero, as C++ `/` computes it. */
  function Quot(a: int, b: int): (q: int)
    requires b != 0
    ensures Abs(q * b) <= Abs(a) < Abs(q * b) + Abs(b)
    ensures q == 0 || ((q < 0) <==> ((a < 0) != (b < 0)))
  {
    var m := NatDiv(Abs(a), Abs(b));
    var q: int := if (a < 0) == (b < 0) then m as int else -(m as int);
    TruncatedQuotient(a, b, m, q);
    q
  }

  lemma TruncatedQuotient(a: int, b: int, m: nat, q: int)
    requires b != 0
    requires m * Abs(b) <= Abs(a) < m * Abs(b) + Abs(b)
    requires q == if (a < 0) == (b < 0) then m as int else -(m as int)
    ensures Abs(q * b) <= Abs(a) < Abs(q * b) + Abs(b)
    ensures q == 0 || ((q < 0) <==> ((a < 0) != (b < 0)))
  {
    assert Abs(q) == m;
    MulAbs(q, b);
  }

  /** Division of naturals: the largest `m` with `m * y <= x`. */
  function NatDiv(x: nat, y: nat): (m: nat)
    requires y != 0
    ensures m * y <= x < m * y + y
  {
    x / y
  }

  /** Remainder of the truncating division, as C++ `%` computes it. */
  function Rem(a: int, b: int): (r: int)
    requires b != 0
    ensures a == Quot(a, b) * b + r
    ensures Abs(r) < Abs(b)
    ensures r == 0 || ((r < 0) <==> (a < 0))
  {
    var q := Quot(a, b);
    var r := a - q * b;
    assert Abs(r) < Abs(b) && (r == 0 || ((r < 0) <==> (a < 0))) by {
      SameSignQuotient(a, b, q);
    }
    r
  }

  lemma MulAbs(x: int, y: int)
    ensures Abs(x * y) == Abs(x) * Abs(y)
  {
    if x < 0 && y < 0 { assert x * y == (-x) * (-y); }
    if x < 0 && y >= 0 { assert x * y == -((-x) * y); }
    if x >= 0 && y < 0 { assert x * y == -(x * (-y)); }
  }

  lemma MulMonotone(x: nat, y: nat, z: nat)
    requires y <= z
    ensures x * y <= x * z
  {
    assert x * z - x * y == x * (z - y);
  }

  /** The product `q * b` of a truncating quotient never overshoots `a`, and
      lies on the same side of zero. */
  lemma SameSignQuotient(a: int, b: int, q: int)
    requires b != 0
    requires Abs(q * b) <= Abs(a) < Abs(q * b) + Abs(b)
    requires q == 0 || ((q < 0) <==> ((a < 0) != (b < 0)))
    ensures Abs(a - q * b) < Abs(b)
    ensures a - q * b == 0 || ((a - q * b < 0) <==> (a < 0))
  {
    if q != 0 {
      assert (q * b < 0) <==> (a < 0) by {
        if q < 0 && b < 0 { assert q * b == (-q) * (-b); }
        if q > 0 && b < 0 { assert q * b == -(q * (-b)); }
        if q < 0 && b > 0 { assert q * b == -((-q) * b); }
      }
    }
  }

  /** C++ leaves `a / b` and `a % b` undefined when `b` is zero or when the
      quotient does not fit (`INT64_MIN / -1`). */
  predicate DivisionDefined(a: i64, b: i64)
  {
    b != 0 && !(a == -TWO_63 && b == -1)
  }

  /** Outside the undefined cases the truncating quotient is itself a
      signed 64-bit value. */
  lemma QuotientFits(a: i64, b: i64)
    requires DivisionDefined(a, b)
    ensures -TWO_63 <= Quot(a, b) < TWO_63
  {
    var q := Quot(a, b);
    MulAbs(q, b);
    if Abs(b) == 1 {
      assert Abs(q) == Abs(a);
    } else {
      MulMonotone(Abs(q), 2, Abs(b));
    }
  }

  function Pow2(n: nat): (r: nat)
    ensures r >= 1
  {
    if n == 0 then 1 else 2 * Pow2(n - 1)
  }

  lemma {:induction false} Pow2Add(a: nat, b: nat)
    ensures Pow2(a + b) == Pow2(a) * Pow2(b)
    decreases a
  {
    if a > 0 {
      Pow2Add(a - 1, b);
      assert Pow2(a + b) == 2 * Pow2(a - 1 + b);
    }
  }

  lemma Pow2Is64()
    ensures Pow2(64) == TWO_64
  {
    assert Pow2(8) == 256;
    Pow2Add(8, 8);
    Pow2Add(16, 16);
    Pow2Add(32, 32);
  }

  /** The signed value of a 64-bit pattern held as an unsigned number: the
      inverse of `Unsigned`. */
  function Signed(u: nat): (r: i64)
    requires u < TWO_64
    ensures Unsigned(r) == u
  {
    if u < TWO_63 then u else u - TWO_64
  }

  /** The operator applied at each bit position. `NotBit` ignores its second
      operand. */
  datatype BitOp = XorBit | OrBit | AndBit | NotBit

  function Bit(op: BitOp, p: nat, q: nat): (r: nat)
    requires p < 2 && q < 2
    ensures r < 2
  {
    match op
    case XorBit => if p != q then 1 else 0
    case OrBit => if p == 1 || q == 1 then 1 else 0
    case AndBit => if p == 1 && q == 1 then 1 else 0
    case NotBit => 1 - p
  }

  /** The low `n` bits of `u` and `v` combined position by position, least
      significant bit first. */
  function Bitwise(op: BitOp, u: nat, v: nat, n: nat): (r: nat)
    ensures r < Pow2(n)
    decreases n
  {
    if n == 0 then 0
    else 2 * Bitwise(op, u / 2, v / 2, n - 1) + Bit(op, u % 2, v % 2)
  }

  /** A bitwise operator on the 64-bit two's-complement patterns of `a`
      and `b`. */
  function Apply64(op: BitOp, a: i64, b: i64): i64
  {
    Pow2Is64();
    Signed(Bitwise(op, Unsigned(a), Unsigned(b), 64))
  }

  /** `a ^ b` on `int64_t`. */
  function Xor(a: i64, b: i64): i64
  {
    Apply64(XorBit, a, b)
  }

  /** `a | b` on `int64_t`. */
  function Or(a: i64, b: i64): i64
  {
    Apply64(OrBit, a, b)
  }

  /** `a & b` on `int64_t`. */
  function And(a: i64, b: i64): i64
  {
    Apply64(AndBit, a, b)
  }

  /** `~a` on `int64_t`: in two's complement, flipping every bit of `a`
      gives `-a - 1`. */
  function Not(a: i64): (r: i64)
    ensures r as int == -(a as int) - 1
  {
    Pow2Is64();
    FlipAll(Unsigned(a), 0, 64);
    Apply64(NotBit, a, 0)
  }

  /** Bit `k` of `u`, counting from the least significant bit. */
  function BitAt(u: nat, k: nat): (b: nat)
    ensures b < 2
    decreases k
  {
    if k == 0 then u % 2 else BitAt(u / 2, k - 1)
  }

  /** Every bit of a bitwise combination below position `n` is the bit
      operator applied to the operands' bits at that position. */
  lemma {:induction false} BitwiseBits(op: BitOp, u: nat, v: nat, n: nat, k: nat)
    requires k < n
    ensures BitAt(Bitwise(op, u, v, n), k) == Bit(op, BitAt(u, k), BitAt(v, k))
    decreases k
  {
    var rest := Bitwise(op, u / 2, v / 2, n - 1);
    var low := Bit(op, u % 2, v % 2);
    assert Bitwise(op, u, v, n) == 2 * rest + low;
    assert (2 * rest + low) % 2 == low && (2 * rest + low) / 2 == rest;
    if k > 0 {
      BitwiseBits(op, u / 2, v / 2, n - 1, k - 1);
    }
  }

  /** The 64-bit operators act position by position: bit `k` of `a ^ b`,
      `a | b`, `a & b` and `~a` is the xor, or, and, or complement of the
      bits at position `k` of the operands' two's-complement patterns. */
  lemma BitsOfResult(a: i64, b: i64, k: nat)
    requires k < 64
    ensures BitAt(Unsigned(Xor(a, b)), k) == Bit(XorBit, BitAt(Unsigned(a), k), BitAt(Unsigned(b), k))
    ensures BitAt(Unsigned(Or(a, b)), k) == Bit(OrBit, BitAt(Unsigned(a), k), BitAt(Unsigned(b), k))
    ensures BitAt(Unsigned(And(a, b)), k) == Bit(AndBit, BitAt(Unsigned(a), k), BitAt(Unsigned(b), k))
    ensures BitAt(Unsigned(Not(a)), k) == 1 - BitAt(Unsigned(a), k)
  {
    Pow2Is64();
    BitwiseBits(XorBit, Unsigned(a), Unsigned(b), 64, k);
    BitwiseBits(OrBit, Unsigned(a), Unsigned(b), 64, k);
    BitwiseBits(AndBit, Unsigned(a), Unsigned(b), 64, k);
    BitwiseBits(NotBit, Unsigned(a), 0, 64, k);
  }

  /** Flipping the low `n` bits of `u < 2^n` gives `2^n - 1 - u`. */
  lemma {:induction false} FlipAll(u: nat, v: nat, n: nat)
    requires u < Pow2(n)
    ensures Bitwise(NotBit, u, v, n) == Pow2(n) - 1 - u
    decreases n
  {
    if n > 0 {
      FlipAll(u / 2, v / 2, n - 1);
    }
  }

  /** Xor-ing twice with `v` restores the low `n` bits. */
  lemma {:induction false} XorTwice(u: nat, v: nat, n: nat)
    requires u < Pow2(n)
    ensures Bitwise(XorBit, Bitwise(XorBit, u, v, n), v, n) == u
    decreases n
  {
    if n > 0 {
      var w := Bitwise(XorBit, u, v, n);
      var rest := Bitwise(XorBit, u / 2, v / 2, n - 1);
      assert w / 2 == rest && w % 2 == Bit(XorBit, u % 2, v % 2);
      XorTwice(u / 2, v / 2, n - 1);
    }
  }

  /** `(a ^ b) ^ b == a`. */
  lemma XorCancels(a: i64, b: i64)
    ensures Xor(Xor(a, b), b) == a
  {
    Pow2Is64();
    XorTwice(Unsigned(a), Unsigned(b), 64);
  }

  /** Xor, or and and do not depend on the order of their operands. */
  lemma {:induction false} BitwiseCommutes(op: BitOp, u: nat, v: nat, n: nat)
    requires op != NotBit
    ensures Bitwise(op, u, v, n) == Bitwise(op, v, u, n)
    decreases n
  {
    if n > 0 {
      BitwiseCommutes(op, u / 2, v / 2, n - 1);
    }
  }

  lemma OperandOrderIrrelevant(a: i64, b: i64)
    ensures Xor(a, b) == Xor(b, a) && Or(a, b) == Or(b, a) && And(a, b) == And(b, a)
  {
    BitwiseCommutes(XorBit, Unsigned(a), Unsigned(b), 64);
    BitwiseCommutes(OrBit, Unsigned(a), Unsigned(b), 64);
    BitwiseCommutes(AndBit, Unsigned(a), Unsigned(b), 64);
  }
}
