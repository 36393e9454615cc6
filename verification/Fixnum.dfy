/**
 32-bit integers: the arithmetic shared by the source language and the opcodes, and the
 little-endian form of the immediates that the code generator writes and the VM fetches.
 */
module Fixnums {
  import opened Wrappers

  const MODULUS := 0x1_0000_0000
  const HALF := 0x8000_0000

  type Fixnum = n: int | -HALF <= n < HALF
  type Byte = n: int | 0 <= n < 256

  /** Two's complement truncation to 32 bits. */
  function Wrap(n: int): Fixnum {
    var u := n % MODULUS;
    if u < HALF then u else u - MODULUS
  }

  datatype BinOp =
    | Add | Sub | Mul | Div | Mod
    | BitAnd | BitOr | BitXor | ShiftLeft | ShiftRight
    | Equals | NotEquals | Greater | GreaterEquals | Less | LessEquals

  datatype UnOp = Negate | Invert | Positive

  function Pow2(n: nat): (p: int)
    ensures p > 0
  {
    if n == 0 then 1 else 2 * Pow2(n - 1)
  }

  function Bit(op: BinOp, a: nat, b: nat): nat {
    match op
    case BitAnd => if a % 2 == 1 && b % 2 == 1 then 1 else 0
    case BitOr => if a % 2 == 1 || b % 2 == 1 then 1 else 0
    case _ => if a % 2 != b % 2 then 1 else 0
  }

  /** The bitwise operation `op` on the low `width` bits. */
  function Bitwise(op: BinOp, a: nat, b: nat, width: nat): nat {
    if width == 0 then 0 else Bit(op, a, b) + 2 * Bitwise(op, a / 2, b / 2, width - 1)
  }

  /** Division rounding toward zero, as in C++. */
  function Quotient(a: int, b: int): int
    requires b != 0
  {
    if (a < 0) == (b < 0) then Abs(a) / Abs(b) else -(Abs(a) / Abs(b))
  }

  function Remainder(a: int, b: int): int
    requires b != 0
  {
    a - Quotient(a, b) * b
  }

  function Abs(a: int): nat { if a < 0 then -a else a }

  function Truth(b: bool): Fixnum { if b then 1 else 0 }

  /** A binary opcode on two fixnums; None where C++ leaves the result undefined or traps. */
  function Binary(op: BinOp, a: Fixnum, b: Fixnum): Option<Fixnum> {
    match op
    case Add => Some(Wrap(a + b))
    case Sub => Some(Wrap(a - b))
    case Mul => Some(Wrap(a * b))
    case Div => if b == 0 || (a == -HALF && b == -1) then None else Some(Wrap(Quotient(a, b)))
    case Mod => if b == 0 || (a == -HALF && b == -1) then None else Some(Wrap(Remainder(a, b)))
    case BitAnd => Some(Wrap(Bitwise(op, a % MODULUS, b % MODULUS, 32)))
    case BitOr => Some(Wrap(Bitwise(op, a % MODULUS, b % MODULUS, 32)))
    case BitXor => Some(Wrap(Bitwise(op, a % MODULUS, b % MODULUS, 32)))
    case ShiftLeft => if 0 <= b < 32 then Some(Wrap(a * Pow2(b))) else None
    case ShiftRight => if 0 <= b < 32 then Some(Wrap(a / Pow2(b))) else None
    case Equals => Some(Truth(a == b))
    case NotEquals => Some(Truth(a != b))
    case Greater => Some(Truth(a > b))
    case GreaterEquals => Some(Truth(a >= b))
    case Less => Some(Truth(a < b))
    case LessEquals => Some(Truth(a <= b))
  }

  function Unary(op: UnOp, a: Fixnum): Fixnum {
    match op
    case Negate => Wrap(0 - (a as int))
    case Invert => -1 - a
    case Positive => a
  }

  /** The four bytes of an int32 immediate, least significant first. */
  function Raw32(n: Fixnum): (bytes: seq<Byte>)
    ensures |bytes| == 4
  {
    var u0 := n % MODULUS;
    var u1 := u0 / 256;
    var u2 := u1 / 256;
    var u3 := u2 / 256;
    [u0 % 256, u1 % 256, u2 % 256, u3]
  }

  function Fetch32(bytes: seq<Byte>): Fixnum
    requires |bytes| == 4
  {
    var b0: int, b1: int, b2: int, b3: int := bytes[0], bytes[1], bytes[2], bytes[3];
    Wrap(b0 + 256 * b1 + 0x1_0000 * b2 + 0x100_0000 * b3)
  }

  /** The two bytes of an int16 immediate. */
  function Raw16(n: int): (bytes: seq<Byte>)
    requires -0x8000 <= n < 0x8000
    ensures |bytes| == 2
  {
    var u := n % 0x1_0000;
    [u % 256, u / 256]
  }

  function Fetch16(bytes: seq<Byte>): int
    requires |bytes| == 2
  {
    var b0: int, b1: int := bytes[0], bytes[1];
    var u := b0 + 256 * b1;
    if u < 0x8000 then u else u - 0x1_0000
  }

  /** The byte at offset `i` stands for two to the power of `8 * i`. */
  lemma LittleEndian(n: Fixnum)
    ensures var b := Raw32(n);
            var b0: int, b1: int, b2: int, b3: int := b[0], b[1], b[2], b[3];
            b0 + 0x100 * b1 + 0x1_0000 * b2 + 0x100_0000 * b3 == if n < 0 then n + 0x1_0000_0000 else n
    ensures -0x8000 <= n < 0x8000 ==>
              var b := Raw16(n);
              var b0: int, b1: int := b[0], b[1];
              b0 + 0x100 * b1 == if n < 0 then n + 0x1_0000 else n
  {
    var u0 := n % MODULUS;
    var u1 := u0 / 256;
    var u2 := u1 / 256;
    assert u0 == u0 % 256 + 256 * (u1 % 256 + 256 * (u2 % 256 + 256 * (u2 / 256)));
  }

  lemma Fetch32Raw32(n: Fixnum)
    ensures Fetch32(Raw32(n)) == n
  {
    var u0 := n % MODULUS;
    var u1 := u0 / 256;
    var u2 := u1 / 256;
    var u3 := u2 / 256;
    assert u0 == u0 % 256 + 256 * (u1 % 256 + 256 * (u2 % 256 + 256 * u3));
    WrapOfModulus(n);
  }

  lemma WrapSmall(n: Fixnum)
    ensures Wrap(n) == n
  {
  }

  lemma WrapOfModulus(n: Fixnum)
    ensures Wrap(n % MODULUS) == n
  {
  }

  lemma Fetch16Raw16(n: int)
    requires -0x8000 <= n < 0x8000
    ensures Fetch16(Raw16(n)) == n
  {
  }
}
