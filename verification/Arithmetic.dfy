/**
 What the integer opcodes mean, over integers and bits and apart from how they are computed: for
 every opcode and every pair of operands there is one result of that meaning, and it is computed.
 */
module Arithmetic {
  import opened Wrappers
  import opened Fixnums

  /** Equal modulo two to the 32nd. */
  ghost predicate Congruent(n: int, m: int) { exists k: int :: n == m + k * 0x1_0000_0000 }

  /** Division toward zero: the remainder is smaller than the divisor and has the dividend's sign. */
  predicate Divides(a: int, b: int, q: int, r: int) {
    && a == q * b + r
    && (if b > 0 then -b < r < b else b < r < -b)
    && (r != 0 ==> (r < 0 <==> a < 0))
  }

  /** Bit `i` of a number in two's complement. */
  predicate BitAt(n: int, i: nat)
    decreases i
  {
    if i == 0 then n % 2 == 1 else BitAt(n / 2, i - 1)
  }

  /** `n`, doubled `times` times. */
  function Doubled(n: int, times: nat): int { if times == 0 then n else 2 * Doubled(n, times - 1) }

  /** Where C++ leaves the result of an operation undefined, or the processor traps. */
  predicate HasNone(op: BinOp, a: Fixnum, b: Fixnum) {
    match op
    case Div => b == 0 || (a == -0x8000_0000 && b == -1)
    case Mod => b == 0 || (a == -0x8000_0000 && b == -1)
    case ShiftLeft => b < 0 || b > 31
    case ShiftRight => b < 0 || b > 31
    case _ => false
  }

  /** `v` is what the opcode means for the operands `a`, below on the stack, and `b`. */
  ghost predicate IsResult(op: BinOp, a: Fixnum, b: Fixnum, v: Fixnum) {
    match op
    case Add => Congruent(v, a + b)
    case Sub => Congruent(v, a - b)
    case Mul => Congruent(v, a * b)
    case Div => exists r: int :: Divides(a, b, v, r)
    case Mod => exists q: int :: Divides(a, b, q, v)
    case BitAnd => forall i: nat | i < 32 :: BitAt(v, i) <==> BitAt(a, i) && BitAt(b, i)
    case BitOr => forall i: nat | i < 32 :: BitAt(v, i) <==> BitAt(a, i) || BitAt(b, i)
    case BitXor => forall i: nat | i < 32 :: BitAt(v, i) <==> BitAt(a, i) != BitAt(b, i)
    case ShiftLeft => b >= 0 && Congruent(v, Doubled(a, b))
    case ShiftRight => b >= 0 && Doubled(v, b) <= a < Doubled((v as int) + 1, b)
    case Equals => v == if a == b then 1 else 0
    case NotEquals => v == if a == b then 0 else 1
    case Greater => v == if b < a then 1 else 0
    case GreaterEquals => v == if b <= a then 1 else 0
    case Less => v == if a < b then 1 else 0
    case LessEquals => v == if a <= b then 1 else 0
  }

  /** The same for a result that may be missing. */
  ghost predicate Means(op: BinOp, a: Fixnum, b: Fixnum, v: Option<Fixnum>) {
    match v
    case None => HasNone(op, a, b)
    case Some(n) => !HasNone(op, a, b) && IsResult(op, a, b, n)
  }

  ghost predicate UnaryMeans(op: UnOp, a: Fixnum, v: Fixnum) {
    match op
    case Negate => Congruent(v, -(a as int))
    case Invert => v + a == -1
    case Positive => v == a
  }

  // ----- the computed results -----

  lemma WrapCongruent(n: int)
    ensures Congruent(Wrap(n), n)
  {
    var k := if n % MODULUS < HALF then -(n / MODULUS) else -(n / MODULUS) - 1;
    assert Wrap(n) == n + k * 0x1_0000_0000;
  }

  lemma DivisionDivides(a: int, b: int)
    requires b != 0
    ensures Divides(a, b, Quotient(a, b), Remainder(a, b))
  {
    var q, m, d := Abs(a) / Abs(b), Abs(a), Abs(b);
    assert m == q * d + m % d;
    assert Quotient(a, b) * b == if a < 0 then -(q * d) else q * d by {
      if (a < 0) != (b < 0) { NegatedProduct(q, b); }
      if b < 0 { NegatedProduct(q, b); }
    }
  }

  lemma NegatedProduct(q: int, b: int)
    ensures (-q) * b == -(q * b) && q * (-b) == -(q * b)
  {
  }

  lemma {:induction false} DoubledIs(n: int, times: nat)
    ensures Doubled(n, times) == n * Pow2(times)
  {
    if times > 0 { DoubledIs(n, times - 1); }
  }

  lemma ShiftRounds(a: int, b: nat)
    ensures var v := a / Pow2(b); Doubled(v, b) <= a < Doubled(v + 1, b)
  {
    var p := Pow2(b);
    DoubledIs(a / p, b);
    DoubledIs(a / p + 1, b);
    FloorOf(a, p);
  }

  /** Bits below the `w`th do not see multiples of two to the `w`th. */
  lemma {:induction false} LowBits(n: int, k: int, w: nat, i: nat)
    requires i < w
    ensures BitAt(n + k * Pow2(w), i) == BitAt(n, i)
    decreases i
  {
    var half := Pow2(w - 1);
    assert k * Pow2(w) == 2 * (k * half);
    assert (n + 2 * (k * half)) / 2 == n / 2 + k * half;
    if i > 0 { LowBits(n / 2, k, w - 1, i - 1); }
  }

  lemma CongruentBits(n: int, m: int, i: nat)
    requires Congruent(n, m) && i < 32
    ensures BitAt(n, i) == BitAt(m, i)
  {
    var k: int :| n == m + k * 0x1_0000_0000;
    Pow2Of32();
    LowBits(m, k, 32, i);
  }

  lemma Pow2Of32()
    ensures Pow2(32) == 0x1_0000_0000
  {
    assert Pow2(8) == 256;
    assert Pow2(16) == 0x1_0000;
    assert Pow2(24) == 0x100_0000;
  }

  lemma {:induction false} BitwiseBit(op: BinOp, a: nat, b: nat, w: nat, i: nat)
    requires i < w
    ensures BitAt(Bitwise(op, a, b, w), i) <==>
              match op
              case BitAnd => BitAt(a, i) && BitAt(b, i)
              case BitOr => BitAt(a, i) || BitAt(b, i)
              case _ => BitAt(a, i) != BitAt(b, i)
    decreases i
  {
    var rest := Bitwise(op, a / 2, b / 2, w - 1);
    assert Bitwise(op, a, b, w) == Bit(op, a, b) + 2 * rest;
    if i > 0 { BitwiseBit(op, a / 2, b / 2, w - 1, i - 1); }
  }

  lemma BitsMean(op: BinOp, a: Fixnum, b: Fixnum, i: nat)
    requires i < 32
    ensures BitAt(Wrap(Bitwise(op, a % MODULUS, b % MODULUS, 32)), i) <==>
              match op
              case BitAnd => BitAt(a, i) && BitAt(b, i)
              case BitOr => BitAt(a, i) || BitAt(b, i)
              case _ => BitAt(a, i) != BitAt(b, i)
  {
    var n := Bitwise(op, a % MODULUS, b % MODULUS, 32);
    WrapCongruent(n);
    CongruentBits(Wrap(n), n, i);
    ModulusCongruent(a);
    ModulusCongruent(b);
    CongruentBits(a % MODULUS, a, i);
    CongruentBits(b % MODULUS, b, i);
    BitwiseBit(op, a % MODULUS, b % MODULUS, 32, i);
  }

  lemma ModulusCongruent(a: int)
    ensures Congruent(a % MODULUS, a)
  {
    assert a % MODULUS == a + (-(a / MODULUS)) * 0x1_0000_0000;
  }

  /** Every opcode computes what it means, and has no result exactly where it means none. */
  lemma BinaryMeans(op: BinOp, a: Fixnum, b: Fixnum)
    ensures Means(op, a, b, Fixnums.Binary(op, a, b))
  {
    hide Congruent, Divides, BitAt, Doubled, Wrap, Bitwise, Quotient, Remainder, Pow2;
    match op
    case Add => WrapCongruent(a + b);
    case Sub => WrapCongruent(a - b);
    case Mul => WrapCongruent(a * b);
    case Div => if !HasNone(op, a, b) { QuotientMeans(a, b); }
    case Mod => if !HasNone(op, a, b) { QuotientMeans(a, b); }
    case BitAnd =>
      forall i: nat | i < 32 ensures BitAt(Fixnums.Binary(op, a, b).value, i) <==> BitAt(a, i) && BitAt(b, i) {
        BitsMean(op, a, b, i);
      }
    case BitOr =>
      forall i: nat | i < 32 ensures BitAt(Fixnums.Binary(op, a, b).value, i) <==> BitAt(a, i) || BitAt(b, i) {
        BitsMean(op, a, b, i);
      }
    case BitXor =>
      forall i: nat | i < 32 ensures BitAt(Fixnums.Binary(op, a, b).value, i) <==> BitAt(a, i) != BitAt(b, i) {
        BitsMean(op, a, b, i);
      }
    case ShiftLeft =>
      if !HasNone(op, a, b) {
        DoubledIs(a, b);
        WrapCongruent(a * Pow2(b));
      }
    case ShiftRight => if !HasNone(op, a, b) { ShiftMeans(a, b); }
    case _ =>
  }

  lemma QuotientMeans(a: Fixnum, b: Fixnum)
    requires b != 0 && !(a == -HALF && b == -1)
    ensures Wrap(Quotient(a, b)) == Quotient(a, b) && Wrap(Remainder(a, b)) == Remainder(a, b)
    ensures Divides(a, b, Quotient(a, b), Remainder(a, b))
  {
    DivisionDivides(a, b);
    QuotientFits(Abs(a), Abs(b));
    WrapSmall(Quotient(a, b));
    WrapSmall(Remainder(a, b));
  }

  lemma QuotientFits(m: nat, d: nat)
    requires d > 0
    ensures 0 <= m / d <= m && (d > 1 && m > 0 ==> m / d < m)
  {
    var q := m / d;
    assert m == q * d + m % d;
    assert q >= 0;
    ProductSign(q, d - 1);
    assert q * d == q * (d - 1) + q;
  }

  lemma ProductSign(x: nat, y: nat)
    ensures x * y >= 0 && (x > 0 && y > 0 ==> x * y > 0)
  {
  }

  lemma ShiftMeans(a: Fixnum, b: nat)
    ensures Wrap(a / Pow2(b)) == a / Pow2(b)
    ensures Doubled(Wrap(a / Pow2(b)), b) <= a < Doubled((Wrap(a / Pow2(b)) as int) + 1, b)
  {
    ShiftRounds(a, b);
    FloorFits(a, Pow2(b));
    WrapSmall(a / Pow2(b));
  }

  lemma FloorFits(a: int, p: int)
    requires p > 0
    ensures if a >= 0 then 0 <= a / p <= a else a <= a / p < 0
  {
    var v, r := a / p, a % p;
    FloorOf(a, p);
    if v >= 0 { MoreThanItself(v, p); } else { MoreThanItself(-v, p); }
  }

  lemma FloorOf(a: int, p: int)
    requires p > 0
    ensures a == a / p * p + a % p && 0 <= a % p < p
    ensures (-(a / p)) * p == -(a / p * p) && (a / p + 1) * p == a / p * p + p
  {
    Distributes(a / p, p);
  }

  lemma Distributes(v: int, p: int)
    ensures (-v) * p == -(v * p) && (v + 1) * p == v * p + p
  {
  }

  lemma MoreThanItself(x: nat, p: int)
    requires p > 0
    ensures x <= x * p
  {
    ProductSign(x, p - 1);
    assert x * p == x * (p - 1) + x;
  }

  lemma UnaryIs(op: UnOp, a: Fixnum)
    ensures UnaryMeans(op, a, Fixnums.Unary(op, a))
  {
    hide Wrap, Congruent;
    WrapCongruent(0 - (a as int));
  }

  // ----- there is one result -----

  lemma CongruentOnce(n: Fixnum, m: Fixnum, x: int)
    requires Congruent(n, x) && Congruent(m, x)
    ensures n == m
  {
    var j: int :| n == x + j * 0x1_0000_0000;
    var k: int :| m == x + k * 0x1_0000_0000;
    assert n - m == (j - k) * 0x1_0000_0000;
  }

  lemma DividesOnce(a: int, b: int, q: int, r: int, q': int, r': int)
    requires b != 0 && Divides(a, b, q, r) && Divides(a, b, q', r')
    ensures q == q' && r == r'
  {
    assert (q - q') * b == q * b - q' * b == r' - r;
    if q != q' { NoSmallMultiple(q - q', b); }
  }

  lemma NoSmallMultiple(k: int, b: int)
    requires k != 0 && b != 0
    ensures if b > 0 then k * b <= -b || b <= k * b else k * b <= b || -b <= k * b
  {
    var m, d: int := Abs(k), Abs(b);
    ProductSign(m - 1, d);
    assert m * d == (m - 1) * d + d;
    assert k * b == if (k < 0) == (b < 0) then m * d else -(m * d);
  }

  /** Numbers that differ have a bit in which they differ, among as many as they have. */
  lemma {:induction false} SameBits(n: int, m: int, w: nat)
    requires -Pow2(w) <= n < Pow2(w) && -Pow2(w) <= m < Pow2(w)
    requires forall i: nat | i <= w :: BitAt(n, i) == BitAt(m, i)
    ensures n == m
    decreases w
  {
    assert BitAt(n, 0) == BitAt(m, 0);
    if w > 0 {
      forall i: nat | i <= w - 1 ensures BitAt(n / 2, i) ==
        BitAt(m / 2, i) { assert BitAt(n, i + 1) == BitAt(m, i + 1); }
      SameBits(n / 2, m / 2, w - 1);
    }
  }

  lemma {:induction false} DoubledOrder(n: int, m: int, times: nat)
    ensures n <= m <==> Doubled(n, times) <= Doubled(m, times)
  {
    if times > 0 { DoubledOrder(n, m, times - 1); }
  }

  /** The meaning leaves no choice: it determines the result, and whether there is one. */
  lemma OneMeaning(op: BinOp, a: Fixnum, b: Fixnum, v: Option<Fixnum>, w: Option<Fixnum>)
    requires Means(op, a, b, v) && Means(op, a, b, w)
    ensures v == w
  {
    hide Congruent, Divides, BitAt, Doubled;
    if v.Some? && w.Some? {
      var n, m := v.value, w.value;
      match op
      case Add => CongruentOnce(n, m, a + b);
      case Sub => CongruentOnce(n, m, a - b);
      case Mul => CongruentOnce(n, m, a * b);
      case Div =>
        var r: int :| Divides(a, b, n, r);
        var r': int :| Divides(a, b, m, r');
        DividesOnce(a, b, n, r, m, r');
      case Mod =>
        var q: int :| Divides(a, b, q, n);
        var q': int :| Divides(a, b, q', m);
        DividesOnce(a, b, q, n, q', m);
      case ShiftLeft => CongruentOnce(n, m, Doubled(a, b));
      case ShiftRight =>
        var above: int, above': int := (n as int) + 1, (m as int) + 1;
        DoubledOrder(above, m, b);
        DoubledOrder(above', n, b);
      case BitAnd => SameFixnum(n, m);
      case BitOr => SameFixnum(n, m);
      case BitXor => SameFixnum(n, m);
      case _ =>
    }
  }

  lemma SameFixnum(n: Fixnum, m: Fixnum)
    requires forall i: nat | i < 32 :: BitAt(n, i) == BitAt(m, i)
    ensures n == m
  {
    hide BitAt;
    assert Pow2(31) == HALF by { Pow2Of32(); }
    SameBits(n, m, 31);
  }
}
