/**
 Byte code: the opcodes, how each instruction of the labelled code is encoded, the addresses of
 instructions, and the immediates that branches and calls end up with.
 */
module ByteCode {
  import opened Fixnums
  import opened Ast
  import opened Ir

  // Opcodes, in the order of the instruction list.
  const OP_HALT := 0
  const OP_ADD := 1
  const OP_NEGATE := 17
  const OP_INVERT := 18
  const OP_LITERAL_8 := 20
  const OP_LITERAL_16 := 21
  const OP_LITERAL_32 := 22
  const OP_BRANCH := 25
  const OP_BRANCH_IF_FALSE_OR_POP := 26
  const OP_BRANCH_IF_TRUE_OR_POP := 27
  const OP_POP_BRANCH_IF_FALSE := 28
  const OP_POP_BRANCH_IF_TRUE := 29
  const OP_RETURN := 30
  const OP_RETURN_FAST := 31
  const OP_CALL := 32
  const OP_LOAD_GLOBAL := 36
  const OP_STORE_GLOBAL := 37
  const OP_LOAD_LOCAL := 40
  const OP_LOAD_LOCAL_0 := 41
  const OP_STORE_LOCAL := 51
  const OP_STORE_LOCAL_0 := 52
  const OP_ALLOC_LOCALS := 62
  const OP_DROP_1 := 67
  const OP_DROP_N := 71
  const OP_LITERAL_FIXNUM_M1 := 76
  const OP_LITERAL_FIXNUM_0 := 77

  /** What an unresolved site holds: 0xdeadbeef as an int32. */
  const DUMMY: Fixnum := -0x21524111

  /** The opcode of a binary operation is its position in the list after Fixnum_Add. */
  function Ordinal(op: BinOp): (k: nat)
    ensures k < 16
  {
    match op
    case Add => 0 case Sub => 1 case Mul => 2 case Div => 3 case Mod => 4
    case BitAnd => 5 case BitOr => 6 case BitXor => 7 case ShiftLeft => 8 case ShiftRight => 9
    case Equals => 10 case NotEquals => 11 case Greater => 12 case GreaterEquals => 13
    case Less => 14 case LessEquals => 15
  }

  function OpOfOrdinal(k: nat): BinOp
    requires k < 16
  {
    [Add, Sub, Mul, Div, Mod, BitAnd, BitOr, BitXor, ShiftLeft, ShiftRight,
     Equals, NotEquals, Greater, GreaterEquals, Less, LessEquals][k]
  }

  lemma OrdinalRoundTrip(op: BinOp)
    ensures OpOfOrdinal(Ordinal(op)) == op
  {
  }

  function BranchOpcode(kind: BranchKind): (b: Byte)
    ensures OP_BRANCH <= b <= OP_POP_BRANCH_IF_TRUE
  {
    match kind
    case Always => OP_BRANCH
    case PopIfTrue => OP_POP_BRANCH_IF_TRUE
    case PopIfFalse => OP_POP_BRANCH_IF_FALSE
    case TrueOrPop => OP_BRANCH_IF_TRUE_OR_POP
    case FalseOrPop => OP_BRANCH_IF_FALSE_OR_POP
  }

  /** The shortest literal form that holds `n`; an 8-bit literal passes through an unsigned byte. */
  function EncodeLiteral(n: Fixnum): seq<Byte> {
    if -128 <= n < 128 then
      var b := n % 256;
      if b <= 5 then [OP_LITERAL_FIXNUM_0 + b] else [OP_LITERAL_8, b]
    else if -0x8000 <= n < 0x8000 then [OP_LITERAL_16] + Raw16(n)
    else [OP_LITERAL_32] + Raw32(n)
  }

  /** Indices and counts fit the immediates they are written to. */
  predicate Encodable(i: Ins) {
    match i
    case Load(_, index) => index < N_VARS
    case Store(_, index) => index < N_VARS
    case Drop(num) => 0 < num < N_VARS
    case AllocLocals(num) => num < N_VARS
    case OperateUnary(op) => !op.Positive?
    case _ => true
  }

  /** The bytes of an instruction whose branch or call immediate is `operand`. */
  function Encode(i: Ins, operand: Fixnum): seq<Byte>
    requires Encodable(i)
  {
    match i
    case Push(n) => EncodeLiteral(n)
    case Operate(op) => [OP_ADD + Ordinal(op)]
    case OperateUnary(op) => [if op.Negate? then OP_NEGATE else OP_INVERT]
    case Load(scope, index) =>
      if scope.Global? then [OP_LOAD_GLOBAL] + Raw32(index)
      else if index < 10 then [OP_LOAD_LOCAL_0 + index]
      else [OP_LOAD_LOCAL] + Raw16(index)
    case Store(scope, index) =>
      if scope.Global? then [OP_STORE_GLOBAL] + Raw32(index)
      else if index < 10 then [OP_STORE_LOCAL_0 + index]
      else [OP_STORE_LOCAL] + Raw16(index)
    case Drop(num) => if num <= 4 then [OP_DROP_1 + num - 1] else [OP_DROP_N] + Raw16(num)
    case AllocLocals(num) => [OP_ALLOC_LOCALS] + Raw16(num)
    case Mark(_) => []
    case Jump(kind, _) => [BranchOpcode(kind)] + Raw32(operand)
    case CallCode(_) => [OP_CALL] + Raw32(operand)
    case ReturnCode(leave) => [if leave then OP_RETURN else OP_RETURN_FAST]
    case Halt => [OP_HALT]
  }

  /** The opcodes are the positions in the instruction list. */
  lemma OpcodeNumbers(op: BinOp, kind: BranchKind, operand: Fixnum)
    ensures Encode(Operate(op), operand) ==
              [match op
               case Add => 1 case Sub => 2 case Mul => 3 case Div => 4 case Mod => 5
               case BitAnd => 6 case BitOr => 7 case BitXor => 8 case ShiftLeft => 9 case ShiftRight => 10
               case Equals => 11 case NotEquals => 12 case Greater => 13 case GreaterEquals => 14
               case Less => 15 case LessEquals => 16]
    ensures Encode(OperateUnary(Negate), operand) == [17] && Encode(OperateUnary(Invert), operand) == [18]
    ensures Encode(Jump(kind, 0), operand)[0] ==
              match kind
              case Always => 25 case FalseOrPop => 26 case TrueOrPop => 27 case PopIfFalse => 28 case PopIfTrue => 29
    ensures Encode(ReturnCode(true), operand) == [30] && Encode(ReturnCode(false), operand) == [31]
    ensures Encode(CallCode(0), operand)[0] == 32 && Encode(Halt, operand) == [0]
    ensures Encode(Load(Global, 0), operand)[0] == 36 && Encode(Store(Global, 0), operand)[0] == 37
    ensures Encode(Load(Local, 10), operand)[0] == 40 && Encode(Load(Local, 9), operand) == [50]
    ensures Encode(Store(Local, 10), operand)[0] == 51 && Encode(Store(Local, 9), operand) == [61]
    ensures Encode(AllocLocals(1), operand)[0] == 62 && Encode(Drop(4), operand) == [70]
    ensures Encode(Drop(5), operand)[0] == 71 && Encode(Push(5), operand) == [82]
    ensures Encode(Push(100), operand)[0] == 20 && Encode(Push(200), operand)[0] == 21
    ensures Encode(Push(0x8000), operand)[0] == 22
  {
  }

  function Size(i: Ins): nat { if Encodable(i) then |Encode(i, 0)| else 0 }

  lemma SizeOfEncode(i: Ins, operand: Fixnum)
    requires Encodable(i)
    ensures |Encode(i, operand)| == Size(i)
  {
  }

  /** The address of instruction `i`: the bytes of everything before it. */
  function Addr(code: seq<Ins>, i: nat): nat
    requires i <= |code|
  {
    if i == 0 then 0 else Addr(code, i - 1) + Size(code[i - 1])
  }

  /** The address at which label `l` is placed. */
  function LabelAddr(code: seq<Ins>, l: nat): nat { Addr(code, Find(code, l)) }

  /**
   The immediate of a branch or call at `i`. A conditional branch whose label is already
   resolved gets the label's address, every other branch the distance to it; calls are absolute.
   */
  function Operand(code: seq<Ins>, i: nat): Fixnum
    requires i < |code|
  {
    var at := code[i];
    if !(at.Jump? || at.CallCode?) then 0
    else if Find(code, at.to) == |code| then DUMMY
    else if at.CallCode? || (IsConditional(at) && Find(code, at.to) < i) then Wrap(LabelAddr(code, at.to))
    else Wrap(LabelAddr(code, at.to) - Addr(code, i))
  }

  /** The bytes at instruction `i`'s place are its encoding. */
  predicate EncodesAt(bytes: seq<Byte>, code: seq<Ins>, i: nat)
    requires i < |code|
  {
    && Encodable(code[i]) && Addr(code, i) + Size(code[i]) <= |bytes|
    && bytes[Addr(code, i)..Addr(code, i) + Size(code[i])] == Encode(code[i], Operand(code, i))
  }

  /** `bytes` is the byte code of the labelled code `code`, unplaced labels holding the dummy. */
  predicate Encodes(bytes: seq<Byte>, code: seq<Ins>) {
    |bytes| == Addr(code, |code|) && forall i | 0 <= i < |code| :: EncodesAt(bytes, code, i)
  }

  lemma {:induction false} AddrMonotone(code: seq<Ins>, i: nat, j: nat)
    requires i <= j <= |code|
    ensures Addr(code, i) <= Addr(code, j)
    ensures i < j ==> Addr(code, i) + Size(code[i]) <= Addr(code, j)
    decreases j - i
  {
    if i < j { AddrMonotone(code, i, j - 1); }
  }

  lemma {:induction false} AddrPrefix(code: seq<Ins>, more: seq<Ins>, i: nat)
    requires i <= |code|
    ensures Addr(code + more, i) == Addr(code, i)
  {
    if i > 0 { AddrPrefix(code, more, i - 1); }
  }

  lemma {:induction false} FindPrefix(code: seq<Ins>, i: Ins, l: nat)
    ensures Find(code + [i], l) == if Find(code, l) < |code| then Find(code, l) else if i == Mark(l) then |code|
            else |code| + 1
  {
    if code == [] {
      assert [] + [i] == [i];
      assert [i][1..] == [];
    } else if code[0] != Mark(l) {
      assert (code + [i])[1..] == code[1..] + [i];
      FindPrefix(code[1..], i, l);
    }
  }
}
