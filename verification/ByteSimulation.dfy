/**
 The byte code of labelled code does what the labelled code does: every instruction decodes to
 itself, every branch and call lands on its label, and labels take no steps.
 */
module ByteSimulation {
  import opened Wrappers
  import opened Fixnums
  import opened Ir
  import opened Machines
  import opened ByteCode
  import opened VirtualMachines

  /** Literals that survive their encoding: not -128..-1, which come back as 128..255. */
  predicate Faithful(i: Ins) { i.Push? ==> !(-128 <= i.n < 0) }

  predicate Good(i: Ins) { Encodable(i) && Faithful(i) }

  /** Labelled code whose byte code is right. */
  ghost predicate Sound(code: seq<Ins>) {
    && (forall i | 0 <= i < |code| :: Good(code[i]))
    && Addr(code, |code|) < HALF
    && (forall i | 0 <= i < |code| && (code[i].Jump? || code[i].CallCode?) :: Find(code, code[i].to) < |code|)
    && (forall i | 0 <= i < |code| && IsConditional(code[i]) :: i < Find(code, code[i].to))
  }

  /**
   A literal decodes to the number it was emitted for exactly if the number is not in -128..-1:
   those go through an unsigned byte.
   */
  lemma LiteralRoundTrip(n: Fixnum, bytes: seq<Byte>, ip: nat)
    requires ip + |EncodeLiteral(n)| <= |bytes| && bytes[ip..ip + |EncodeLiteral(n)|] == EncodeLiteral(n)
    ensures Decode(bytes, ip) == Some(DataIns(Push(n), |EncodeLiteral(n)|)) <==> !(-128 <= n < 0)
  {
    var e := EncodeLiteral(n);
    assert bytes[ip] == e[0];
    assert e[1..] == bytes[ip + 1..ip + |e|];
    if -0x8000 <= n < 0x8000 { Fetch16Raw16(n); }
    Fetch32Raw32(n);
    if -128 <= n < 0 { assert n % 256 == n + 256; }
  }

  /** The immediate of an encoded instruction is what follows its opcode. */
  lemma ImmediateOf(bytes: seq<Byte>, ip: nat, op: Byte, raw: seq<Byte>)
    requires ip + 1 + |raw| <= |bytes| && bytes[ip..ip + 1 + |raw|] == [op] + raw
    ensures bytes[ip] == op && Immediate(bytes, ip, |raw|) == Some(raw)
  {
    assert bytes[ip] == ([op] + raw)[0];
    assert bytes[ip + 1..ip + 1 + |raw|] == ([op] + raw)[1..] == raw;
  }

  lemma OpcodeOf(bytes: seq<Byte>, ip: nat, op: Byte)
    requires ip + 1 <= |bytes| && bytes[ip..ip + 1] == [op]
    ensures bytes[ip] == op
  {
    assert bytes[ip] == [op][0];
  }

  /** A data instruction decodes to itself. */
  lemma DecodeData(bytes: seq<Byte>, code: seq<Ins>, i: nat)
    requires i < |code| && EncodesAt(bytes, code, i) && Good(code[i]) && IsData(code[i])
    ensures Decode(bytes, Addr(code, i)) == Some(DataIns(code[i], Size(code[i])))
  {
    hide Addr, Find;
    var ip := Addr(code, i);
    match code[i]
    case Push(n) => LiteralRoundTrip(n, bytes, ip);
    case Operate(op) =>
      OpcodeOf(bytes, ip, OP_ADD + Ordinal(op));
      OrdinalRoundTrip(op);
    case OperateUnary(op) => OpcodeOf(bytes, ip, if op.Negate? then OP_NEGATE else OP_INVERT);
    case Load(scope, index) =>
      if scope.Global? {
        ImmediateOf(bytes, ip, OP_LOAD_GLOBAL, Raw32(index));
        Fetch32Raw32(index);
      } else if index < 10 {
        OpcodeOf(bytes, ip, OP_LOAD_LOCAL_0 + index);
      } else {
        ImmediateOf(bytes, ip, OP_LOAD_LOCAL, Raw16(index));
        Fetch16Raw16(index);
      }
    case Store(scope, index) =>
      if scope.Global? {
        ImmediateOf(bytes, ip, OP_STORE_GLOBAL, Raw32(index));
        Fetch32Raw32(index);
      } else if index < 10 {
        OpcodeOf(bytes, ip, OP_STORE_LOCAL_0 + index);
      } else {
        ImmediateOf(bytes, ip, OP_STORE_LOCAL, Raw16(index));
        Fetch16Raw16(index);
      }
    case Drop(num) =>
      if num <= 4 {
        OpcodeOf(bytes, ip, OP_DROP_1 + num - 1);
      } else {
        ImmediateOf(bytes, ip, OP_DROP_N, Raw16(num));
        Fetch16Raw16(num);
      }
    case AllocLocals(num) =>
      ImmediateOf(bytes, ip, OP_ALLOC_LOCALS, Raw16(num));
      Fetch16Raw16(num);
  }

  /** Branches, calls, returns and the halt decode to themselves, with their immediate. */
  lemma DecodeControl(bytes: seq<Byte>, code: seq<Ins>, i: nat)
    requires i < |code| && EncodesAt(bytes, code, i) && !IsData(code[i]) && !code[i].Mark?
    ensures var d := match code[i]
                     case Jump(kind, _) => BranchIns(kind, Operand(code, i))
                     case CallCode(_) => CallIns(Operand(code, i))
                     case ReturnCode(leave) => ReturnIns(leave)
                     case _ => HaltIns;
            Decode(bytes, Addr(code, i)) == Some(d)
    ensures code[i].Jump? || code[i].CallCode? ==> Size(code[i]) == 5
  {
    hide Addr, Find, Operand;
    var ip, k := Addr(code, i), Operand(code, i);
    Fetch32Raw32(k);
    match code[i]
    case Jump(kind, _) => ImmediateOf(bytes, ip, BranchOpcode(kind), Raw32(k));
    case CallCode(_) => ImmediateOf(bytes, ip, OP_CALL, Raw32(k));
    case ReturnCode(leave) => OpcodeOf(bytes, ip, if leave then OP_RETURN else OP_RETURN_FAST);
    case Halt => OpcodeOf(bytes, ip, OP_HALT);
  }

  /** In sound code a branch's immediate is the distance to its label, a call's the address. */
  lemma OperandLands(code: seq<Ins>, i: nat)
    requires Sound(code) && i < |code| && (code[i].Jump? || code[i].CallCode?)
    ensures Operand(code, i) == LabelAddr(code, code[i].to) - (if code[i].Jump? then Addr(code, i) else 0)
  {
    hide Addr, Find, Wrap, Good, Size;
    var to: int, at: int := LabelAddr(code, code[i].to), Addr(code, i);
    AddrMonotone(code, Find(code, code[i].to), |code|);
    AddrMonotone(code, i, |code|);
    WrapSmall(to);
    WrapSmall(to - at);
  }

  /**
   The immediate of any branch to a placed label is the distance the VM expects exactly if the
   branch is unconditional, or lies before its label, or at address zero: a conditional branch
   back gets the label's address.
   */
  lemma BranchImmediate(code: seq<Ins>, i: nat)
    requires i < |code| && code[i].Jump? && Find(code, code[i].to) < |code| && Addr(code, |code|) < HALF
    ensures Operand(code, i) == LabelAddr(code, code[i].to) - Addr(code, i)
        <==> code[i].kind.Always? || i < Find(code, code[i].to) || Addr(code, i) == 0
  {
    hide Addr, Find, Wrap, Size;
    var to: int, at: int := LabelAddr(code, code[i].to), Addr(code, i);
    AddrMonotone(code, Find(code, code[i].to), |code|);
    AddrMonotone(code, i, |code|);
    WrapSmall(to);
    WrapSmall(to - at);
  }

  // ----- machine states -----

  ghost predicate InCode(code: seq<Ins>, m: Machine) {
    m.pc <= |code| && forall j | 0 <= j < |m.calls| :: m.calls[j] <= |code|
  }

  /** The same state with addresses for instruction indices. */
  ghost function Located(code: seq<Ins>, m: Machine): Machine
    requires InCode(code, m)
  {
    m.(pc := Addr(code, m.pc), calls := seq(|m.calls|, j requires 0 <= j < |m.calls| => Addr(code, m.calls[j])))
  }

  /** One step of labelled code is one step of byte code, or none for a label. */
  lemma StepLocated(bytes: seq<Byte>, code: seq<Ins>, m: Machine, m': Machine)
    requires Sound(code) && Encodes(bytes, code) && InCode(code, m) && Step(code, m) == Some(m')
    ensures InCode(code, m')
    ensures if code[m.pc].Mark? then Located(code, m') == Located(code, m)
            else StepBytes(bytes, Located(code, m)) == Some(Located(code, m'))
  {
    var i := code[m.pc];
    assert EncodesAt(bytes, code, m.pc);
    if IsData(i) {
      DataLocated(bytes, code, m, m');
    } else if i.Mark? {
      assert Addr(code, m.pc + 1) == Addr(code, m.pc);
    } else {
      ControlLocated(bytes, code, m, m');
    }
  }

  lemma EffectLocated(i: Ins, m: Machine, pc: nat, calls: seq<nat>)
    ensures Effect(i, m).Some? ==> Effect(i, m).value.pc == m.pc && Effect(i, m).value.calls == m.calls
    ensures Effect(i, m.(pc := pc, calls := calls)) ==
      match Effect(i, m) case None => None case Some(m') => Some(m'.(pc := pc, calls := calls))
  {
    hide Fixnums.Binary;
  }

  lemma DataLocated(bytes: seq<Byte>, code: seq<Ins>, m: Machine, m': Machine)
    requires Sound(code) && Encodes(bytes, code) && InCode(code, m) && Step(code, m) == Some(m')
    requires IsData(code[m.pc])
    ensures InCode(code, m') && StepBytes(bytes, Located(code, m)) == Some(Located(code, m'))
  {
    hide Find, Decode, Effect, Branch, Machines.Return, Encode, Size;
    var l := Located(code, m);
    assert EncodesAt(bytes, code, m.pc);
    DecodeData(bytes, code, m.pc);
    EffectLocated(code[m.pc], m, l.pc, l.calls);
    assert Addr(code, m.pc + 1) == Addr(code, m.pc) + Size(code[m.pc]);
  }

  lemma BranchLocated(kind: BranchKind, m: Machine, pc: nat, calls: seq<nat>)
    ensures Branch(kind, m).Some? ==> Branch(kind, m).value.1.calls == m.calls
    ensures Branch(kind, m.(pc := pc, calls := calls)) ==
      match Branch(kind, m) case None => None case Some((t, m')) => Some((t, m'.(pc := pc, calls := calls)))
  {
  }

  lemma ControlLocated(bytes: seq<Byte>, code: seq<Ins>, m: Machine, m': Machine)
    requires Sound(code) && Encodes(bytes, code) && InCode(code, m) && Step(code, m) == Some(m')
    requires !IsData(code[m.pc]) && !code[m.pc].Mark?
    ensures InCode(code, m') && StepBytes(bytes, Located(code, m)) == Some(Located(code, m'))
  {
    hide Sound, Encodes, InCode, Located, StepBytes, Find, Effect, Branch, Machines.Return;
    match code[m.pc]
    case Jump(_, _) => JumpLocated(bytes, code, m, m');
    case CallCode(_) => CallLocated(bytes, code, m, m');
    case ReturnCode(_) => ReturnLocated(bytes, code, m, m');
  }

  lemma JumpLocated(bytes: seq<Byte>, code: seq<Ins>, m: Machine, m': Machine)
    requires Sound(code) && Encodes(bytes, code) && InCode(code, m) && Step(code, m) == Some(m')
    requires code[m.pc].Jump?
    ensures InCode(code, m') && StepBytes(bytes, Located(code, m)) == Some(Located(code, m'))
  {
    hide Find, Decode, Effect, Encode, Size, EncodesAt, Operand, Branch, Machines.Return;
    var l := Located(code, m);
    assert EncodesAt(bytes, code, m.pc);
    DecodeControl(bytes, code, m.pc);
    OperandLands(code, m.pc);
    BranchLocated(code[m.pc].kind, m, l.pc, l.calls);
    assert Addr(code, m.pc + 1) == Addr(code, m.pc) + Size(code[m.pc]);
  }

  lemma CallLocated(bytes: seq<Byte>, code: seq<Ins>, m: Machine, m': Machine)
    requires Sound(code) && Encodes(bytes, code) && InCode(code, m) && Step(code, m) == Some(m')
    requires code[m.pc].CallCode?
    ensures InCode(code, m') && StepBytes(bytes, Located(code, m)) == Some(Located(code, m'))
  {
    hide Find, Decode, Effect, Encode, Size, EncodesAt, Operand, Branch, Machines.Return;
    var l := Located(code, m);
    assert EncodesAt(bytes, code, m.pc);
    DecodeControl(bytes, code, m.pc);
    OperandLands(code, m.pc);
    assert Addr(code, m.pc + 1) == Addr(code, m.pc) + Size(code[m.pc]);
    assert Located(code, m').calls == l.calls + [l.pc + 5];
  }

  lemma ReturnLocated(bytes: seq<Byte>, code: seq<Ins>, m: Machine, m': Machine)
    requires Sound(code) && Encodes(bytes, code) && InCode(code, m) && Step(code, m) == Some(m')
    requires code[m.pc].ReturnCode?
    ensures InCode(code, m') && StepBytes(bytes, Located(code, m)) == Some(Located(code, m'))
  {
    hide Find, Decode, Effect, Encode, Size, EncodesAt, Operand, Branch;
    var l := Located(code, m);
    assert EncodesAt(bytes, code, m.pc);
    DecodeControl(bytes, code, m.pc);
    assert l.calls[..|l.calls| - 1] == Located(code, m').calls;
  }

  /**
   `n` labelled steps take a number of byte steps that grows with `n`, since no more labels can
   follow each other than the code has.
   */
  lemma {:induction false} RunLocated(bytes: seq<Byte>, code: seq<Ins>, m: Machine, n: nat, m': Machine)
    returns (k: nat)
    requires Sound(code) && Encodes(bytes, code) && InCode(code, m) && Run(code, m, n) == Some(m')
    ensures InCode(code, m') && RunBytes(bytes, Located(code, m), k) == Some(Located(code, m'))
    ensures n + m.pc <= k * (|code| + 1) + m'.pc
    decreases n
  {
    hide Step, Sound, Encodes, StepBytes, Located;
    if n == 0 {
      k := 0;
    } else {
      var m1 := Step(code, m).value;
      StepLocated(bytes, code, m, m1);
      k := RunLocated(bytes, code, m1, n - 1, m');
      StepInside(code, m);
      if !code[m.pc].Mark? {
        k := k + 1;
        assert k * (|code| + 1) == (k - 1) * (|code| + 1) + (|code| + 1);
      }
    }
  }

  lemma StepInside(code: seq<Ins>, m: Machine)
    requires Step(code, m).Some?
    ensures m.pc < |code|
    ensures code[m.pc].Mark? ==> Step(code, m).value.pc == m.pc + 1
  {
  }

  /** Whatever state labelled code reaches, its byte code reaches at the state's addresses. */
  lemma BytesSimulate(bytes: seq<Byte>, code: seq<Ins>, m: Machine, m': Machine)
    requires Sound(code) && Encodes(bytes, code) && InCode(code, m) && Reaches(code, m, m')
    ensures InCode(code, m') && ReachesBytes(bytes, Located(code, m), Located(code, m'))
  {
    var n: nat :| Run(code, m, n) == Some(m');
    var k := RunLocated(bytes, code, m, n, m');
  }

  /** Labelled code that runs long enough keeps its byte code running for `n` steps. */
  lemma BytesLast(bytes: seq<Byte>, code: seq<Ins>, m: Machine, n: nat)
    requires Sound(code) && Encodes(bytes, code) && InCode(code, m) && Lasts(code, m, (n + 1) * (|code| + 1))
    ensures RunBytes(bytes, Located(code, m), n).Some?
  {
    hide Sound, Encodes, Located, Run, RunBytes;
    var a: nat :| (n + 1) * (|code| + 1) <= a && Run(code, m, a).Some?;
    var k := RunLocated(bytes, code, m, a, Run(code, m, a).value);
    assert (k + 1 - n) * (|code| + 1) == k * (|code| + 1) + (|code| + 1) - n * (|code| + 1);
    PositiveFactor(k + 1 - n, |code|);
    BytesPrefix(bytes, Located(code, m), k, n);
  }

  lemma PositiveFactor(a: int, b: nat)
    requires a * (b + 1) > 0
    ensures a > 0
  {
  }

  lemma {:induction false} BytesPrefix(bytes: seq<Byte>, m: Machine, k: nat, j: nat)
    requires RunBytes(bytes, m, k).Some? && j <= k
    ensures RunBytes(bytes, m, j).Some?
    decreases j
  {
    hide StepBytes;
    if j > 0 { BytesPrefix(bytes, StepBytes(bytes, m).value, k - 1, j - 1); }
  }

  /** The VM is at an instruction that has its operands but no result. */
  predicate BlockedBytes(bytes: seq<Byte>, m: Machine) {
    match Decode(bytes, m.pc)
    case Some(DataIns(i, _)) => Blocks(i, m)
    case _ => false
  }

  lemma BlockedLocated(bytes: seq<Byte>, code: seq<Ins>, m: Machine)
    requires Sound(code) && Encodes(bytes, code) && InCode(code, m) && Blocked(code, m)
    ensures BlockedBytes(bytes, Located(code, m)) && StepBytes(bytes, Located(code, m)) == None
  {
    hide Find, Decode, Branch, Machines.Return, Encode, Size, Effect;
    var l := Located(code, m);
    assert EncodesAt(bytes, code, m.pc);
    DecodeData(bytes, code, m.pc);
    EffectLocated(code[m.pc], m, l.pc, l.calls);
    BlocksEffect(code[m.pc], m);
  }

  lemma BlocksEffect(i: Ins, m: Machine)
    requires Blocks(i, m)
    ensures Effect(i, m) == None
  {
    hide Fixnums.Binary;
  }

  /** The halt instruction of the labelled code is a halt in the byte code. */
  lemma HaltLocated(bytes: seq<Byte>, code: seq<Ins>, i: nat)
    requires Encodes(bytes, code) && i < |code| && code[i] == Ins.Halt
    ensures Decode(bytes, Addr(code, i)) == Some(HaltIns)
  {
    assert EncodesAt(bytes, code, i);
    DecodeControl(bytes, code, i);
  }
}
