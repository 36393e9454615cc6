/**
 The virtual machine: decoding at the instruction pointer, one step of byte code as a function
 on machine states, and the interpreter that updates its registers and stacks in place.
 */
module VirtualMachines {
  import opened Wrappers
  import opened Fixnums
  import Arithmetic
  import opened Ast
  import opened Ir
  import opened Machines
  import opened ByteCode

  /** A decoded instruction with its length; branch distances are from the opcode. */
  datatype Decoded =
    | DataIns(ins: Ins, size: nat)
    | BranchIns(kind: BranchKind, distance: Fixnum)
    | CallIns(target: Fixnum)
    | ReturnIns(leave: bool)
    | HaltIns

  /** The `n` bytes of the immediate after the opcode at `ip`. */
  function Immediate(bytes: seq<Byte>, ip: nat, n: nat): Option<seq<Byte>> {
    if ip + 1 + n <= |bytes| then Some(bytes[ip + 1..ip + 1 + n]) else None
  }

  function DecodeRaw16(bytes: seq<Byte>, ip: nat, make: nat -> Ins): Option<Decoded> {
    match Immediate(bytes, ip, 2)
    case Some(b) => if Fetch16(b) >= 0 then Some(DataIns(make(Fetch16(b)), 3)) else None
    case None => None
  }

  function DecodeRaw32(bytes: seq<Byte>, ip: nat, make: nat -> Ins): Option<Decoded> {
    match Immediate(bytes, ip, 4)
    case Some(b) => if Fetch32(b) >= 0 then Some(DataIns(make(Fetch32(b)), 5)) else None
    case None => None
  }

  function KindOfOpcode(op: Byte): BranchKind
    requires OP_BRANCH <= op <= OP_POP_BRANCH_IF_TRUE
  {
    if op == OP_BRANCH then Always
    else if op == OP_BRANCH_IF_FALSE_OR_POP then FalseOrPop
    else if op == OP_BRANCH_IF_TRUE_OR_POP then TrueOrPop
    else if op == OP_POP_BRANCH_IF_FALSE then PopIfFalse
    else PopIfTrue
  }

  /** The instruction at `ip`; None for an opcode outside the modelled ones. */
  function Decode(bytes: seq<Byte>, ip: nat): Option<Decoded> {
    if ip >= |bytes| then None else
    var op := bytes[ip];
    if op == OP_HALT then Some(HaltIns)
    else if OP_ADD <= op < OP_ADD + 16 then Some(DataIns(Operate(OpOfOrdinal(op - OP_ADD)), 1))
    else if op == OP_NEGATE then Some(DataIns(OperateUnary(Negate), 1))
    else if op == OP_INVERT then Some(DataIns(OperateUnary(Invert), 1))
    else if op == OP_LITERAL_8 then
      (match Immediate(bytes, ip, 1) case Some(b) => Some(DataIns(Push(b[0]), 2)) case None => None)
    else if op == OP_LITERAL_16 then
      (match Immediate(bytes, ip, 2) case Some(b) => Some(DataIns(Push(Fetch16(b)), 3)) case None => None)
    else if op == OP_LITERAL_32 then
      (match Immediate(bytes, ip, 4) case Some(b) => Some(DataIns(Push(Fetch32(b)), 5)) case None => None)
    else if OP_BRANCH <= op <= OP_POP_BRANCH_IF_TRUE then
      (match Immediate(bytes, ip, 4) case Some(b) => Some(BranchIns(KindOfOpcode(op), Fetch32(b))) case None => None)
    else if op == OP_RETURN || op == OP_RETURN_FAST then Some(ReturnIns(op == OP_RETURN))
    else if op == OP_CALL then
      (match Immediate(bytes, ip, 4) case Some(b) => Some(CallIns(Fetch32(b))) case None => None)
    else if op == OP_LOAD_GLOBAL then DecodeRaw32(bytes, ip, (i: nat) => Load(Global, i))
    else if op == OP_STORE_GLOBAL then DecodeRaw32(bytes, ip, (i: nat) => Store(Global, i))
    else if op == OP_LOAD_LOCAL then DecodeRaw16(bytes, ip, (i: nat) => Load(Local, i))
    else if OP_LOAD_LOCAL_0 <= op < OP_LOAD_LOCAL_0 + 10 then Some(DataIns(Load(Local, op - OP_LOAD_LOCAL_0), 1))
    else if op == OP_STORE_LOCAL then DecodeRaw16(bytes, ip, (i: nat) => Store(Local, i))
    else if OP_STORE_LOCAL_0 <= op < OP_STORE_LOCAL_0 + 10 then Some(DataIns(Store(Local, op - OP_STORE_LOCAL_0), 1))
    else if op == OP_ALLOC_LOCALS then DecodeRaw16(bytes, ip, (n: nat) => AllocLocals(n))
    else if OP_DROP_1 <= op < OP_DROP_N then Some(DataIns(Ins.Drop(op - OP_DROP_1 + 1), 1))
    else if op == OP_DROP_N then DecodeRaw16(bytes, ip, (n: nat) => Ins.Drop(n))
    else if OP_LITERAL_FIXNUM_M1 <= op <= OP_LITERAL_FIXNUM_0 + 5 then Some(DataIns(Push(op - OP_LITERAL_FIXNUM_0), 1))
    else None
  }

  /** One step of byte code; None when halted, stuck or outside the code. */
  function StepBytes(bytes: seq<Byte>, m: Machine): Option<Machine> {
    match Decode(bytes, m.pc)
    case None => None
    case Some(HaltIns) => None
    case Some(DataIns(i, size)) => (match Effect(i, m) case None => None case Some(m') => Some(m'.(pc := m.pc + size)))
    case Some(BranchIns(kind, distance)) =>
      (match Branch(kind, m)
       case None => None
       case Some((taken, m')) =>
         if !taken then Some(m'.(pc := m.pc + 5))
         else if m.pc + distance < 0 then None
         else Some(m'.(pc := m.pc + distance)))
    case Some(CallIns(target)) =>
      if target < 0 then None else Some(m.(calls := m.calls + [m.pc + 5], pc := target))
    case Some(ReturnIns(leave)) => Machines.Return(leave, m)
  }

  function RunBytes(bytes: seq<Byte>, m: Machine, n: nat): Option<Machine>
    decreases n
  {
    if n == 0 then Some(m) else
    match StepBytes(bytes, m)
    case None => None
    case Some(m') => RunBytes(bytes, m', n - 1)
  }

  ghost predicate ReachesBytes(bytes: seq<Byte>, m: Machine, m': Machine) {
    exists n: nat :: RunBytes(bytes, m, n) == Some(m')
  }

  /** After `n` steps there is neither a next one nor a halt. */
  ghost predicate StuckAfter(bytes: seq<Byte>, m: Machine, n: nat) {
    RunBytes(bytes, m, n + 1) == None && RunBytes(bytes, m, n).Some?
    && Decode(bytes, RunBytes(bytes, m, n).value.pc) != Some(HaltIns)
  }

  /** What a binary opcode makes of the data stack; a failed one leaves it undetermined. */
  ghost predicate Operated(op: BinOp, before: seq<Fixnum>, ok: bool, after: seq<Fixnum>) {
    if |before| < 2 then !ok else
    exists v :: Arithmetic.Means(op, before[|before| - 2], before[|before| - 1], v)
                && ok == v.Some? && (ok ==> after == before[..|before| - 2] + [v.value])
  }

  lemma OperatedAs(op: BinOp, before: seq<Fixnum>, v: Option<Fixnum>, ok: bool, after: seq<Fixnum>)
    requires |before| >= 2 && Arithmetic.Means(op, before[|before| - 2], before[|before| - 1], v)
    requires ok == v.Some? && (ok ==> after == before[..|before| - 2] + [v.value])
    ensures Operated(op, before, ok, after)
  {
    hide Arithmetic.Means;
  }

  ghost predicate OperatedUnary(op: UnOp, before: seq<Fixnum>, ok: bool, after: seq<Fixnum>) {
    if before == [] then !ok else
    ok && exists v :: Arithmetic.UnaryMeans(op, before[|before| - 1], v) && after == before[..|before| - 1] + [v]
  }

  /** How a run ended: still running, at a halt, or stuck. */
  datatype Status = Running | Halted | Stuck

  class VirtualMachine {
    var code: seq<Byte>
    var ip: nat
    var dataStack: seq<Fixnum>
    var globals: map<nat, Fixnum>
    var globalsTop: nat
    var locals: map<nat, Fixnum>
    var localsTop: nat
    var localsFrames: seq<nat>
    var fastLocals: Option<nat>
    var callFrames: seq<nat>

    ghost function State(): Machine
      reads this
    {
      Machine(ip, dataStack, globals, globalsTop, locals, localsTop, localsFrames, fastLocals, callFrames)
    }

    constructor (code: seq<Byte>)
      ensures this.code == code && State() == INITIAL
    {
      this.code := code;
      ip, dataStack := 0, [];
      globals, globalsTop := map[], 0;
      locals, localsTop := map[], 0;
      localsFrames, fastLocals, callFrames := [], Some(0), [];
    }

    method PushData(v: Fixnum)
      modifies this`dataStack
      ensures State() == Machines.PushData(old(State()), v)
    {
      dataStack := dataStack + [v];
    }

    method PopData() returns (v: Fixnum)
      requires dataStack != []
      modifies this`dataStack
      ensures v == Top(old(State())) && State() == Pop(old(State()), 1)
    {
      v := dataStack[|dataStack| - 1];
      dataStack := dataStack[..|dataStack| - 1];
    }

    method PushLocalsFrame(frame: nat)
      modifies this`localsFrames
      ensures localsFrames == old(localsFrames) + [frame]
    {
      localsFrames := localsFrames + [frame];
    }

    method PopLocalsFrame() returns (frame: nat)
      requires localsFrames != []
      modifies this`localsFrames
      ensures old(localsFrames) == localsFrames + [frame]
    {
      frame := localsFrames[|localsFrames| - 1];
      localsFrames := localsFrames[..|localsFrames| - 1];
    }

    /** Where the topmost locals frame starts, if there is one. */
    method CurrentLocals() returns (base: Option<nat>)
      ensures base == if localsFrames == [] then None else Some(localsFrames[|localsFrames| - 1])
    {
      base := if localsFrames == [] then None else Some(localsFrames[|localsFrames| - 1]);
    }

    /** The effect of a data instruction, in place; the instruction pointer stays. */
    method Execute(i: Ins) returns (ok: bool)
      requires IsData(i)
      modifies this`dataStack, this`globals, this`globalsTop, this`locals, this`localsTop, this`localsFrames,
               this`fastLocals
      ensures ok <==> Effect(i, old(State())).Some?
      ensures ok ==> State() == Effect(i, old(State())).value
      ensures i.Operate? ==> Operated(i.op, old(dataStack), ok, dataStack)
      ensures i.OperateUnary? ==> OperatedUnary(i.unop, old(dataStack), ok, dataStack)
    {
      ok := true;
      match i
      case Push(n) => PushData(n);
      case Operate(op) => ok := ExecuteBinary(op);
      case OperateUnary(op) => ok := ExecuteUnary(op);
      case Load(_, _) => ok := ExecuteLoad(i.scope, i.index);
      case Store(_, _) => ok := ExecuteStore(i.scope, i.index);
      case Drop(num) =>
        if |dataStack| < num { return false; }
        dataStack := dataStack[..|dataStack| - num];
      case AllocLocals(num) =>
        PushLocalsFrame(localsTop);
        localsTop := localsTop + num;
        fastLocals := CurrentLocals();
    }

    /** The two topmost values, if there are two, give way to what the opcode means for them, if it means anything. */
    method ExecuteBinary(op: BinOp) returns (ok: bool)
      modifies this`dataStack
      ensures Operated(op, old(dataStack), ok, dataStack)
      ensures ok <==> Effect(Operate(op), old(State())).Some?
      ensures ok ==> State() == Effect(Operate(op), old(State())).value
    {
      hide Fixnums.Binary, Arithmetic.Means;
      if |dataStack| < 2 { return false; }
      var b := PopData();
      var a := PopData();
      Arithmetic.BinaryMeans(op, a, b);
      var v := Fixnums.Binary(op, a, b);
      ok := v.Some?;
      if ok { PushData(v.value); }
      OperatedAs(op, old(dataStack), v, ok, dataStack);
    }

    method ExecuteUnary(op: UnOp) returns (ok: bool)
      modifies this`dataStack
      ensures OperatedUnary(op, old(dataStack), ok, dataStack)
      ensures ok <==> Effect(OperateUnary(op), old(State())).Some?
      ensures ok ==> State() == Effect(OperateUnary(op), old(State())).value
    {
      hide Fixnums.Unary;
      if dataStack == [] { return false; }
      var a := PopData();
      Arithmetic.UnaryIs(op, a);
      PushData(Unary(op, a));
      return true;
    }

    method ExecuteLoad(scope: Scope, index: nat) returns (ok: bool)
      modifies this`dataStack
      ensures ok <==> Effect(Load(scope, index), old(State())).Some?
      ensures ok ==> State() == Effect(Load(scope, index), old(State())).value
    {
      match scope
      case Global =>
        if index !in globals { return false; }
        PushData(globals[index]);
        return true;
      case Local =>
        if fastLocals.None? || fastLocals.value + index !in locals { return false; }
        PushData(locals[fastLocals.value + index]);
        return true;
    }

    method ExecuteStore(scope: Scope, index: nat) returns (ok: bool)
      modifies this`dataStack, this`globals, this`globalsTop, this`locals
      ensures ok <==> Effect(Store(scope, index), old(State())).Some?
      ensures ok ==> State() == Effect(Store(scope, index), old(State())).value
    {
      if dataStack == [] || (scope.Local? && fastLocals.None?) { return false; }
      match scope {
        case Global =>
          if index > globalsTop { globalsTop := index; }
          var v := PopData();
          globals := globals[index := v];
        case Local =>
          var v := PopData();
          locals := locals[fastLocals.value + index := v];
      }
      return true;
    }

    /** A branch at the instruction pointer. */
    method ExecuteBranch(kind: BranchKind, distance: Fixnum) returns (ok: bool)
      requires Decode(code, ip) == Some(BranchIns(kind, distance))
      modifies this`ip, this`dataStack
      ensures ok <==> StepBytes(code, old(State())).Some?
      ensures ok ==> State() == StepBytes(code, old(State())).value
    {
      hide Decode, Effect;
      var taken := true;
      if !kind.Always? {
        if dataStack == [] { return false; }
        var top := dataStack[|dataStack| - 1];
        taken := if kind.PopIfTrue? || kind.TrueOrPop? then top != 0 else top == 0;
        if !(taken && (kind.TrueOrPop? || kind.FalseOrPop?)) { var _ := PopData(); }
      }
      if !taken {
        ip := ip + 5;
        return true;
      }
      if ip + distance < 0 { return false; }
      ip := ip + distance;
      return true;
    }

    method ExecuteReturn(leave: bool) returns (ok: bool)
      modifies this`ip, this`localsTop, this`localsFrames, this`fastLocals, this`callFrames
      ensures ok <==> Machines.Return(leave, old(State())).Some?
      ensures ok ==> State() == Machines.Return(leave, old(State())).value
    {
      if callFrames == [] || (leave && localsFrames == []) { return false; }
      if leave {
        localsTop := PopLocalsFrame();
        fastLocals := CurrentLocals();
      }
      ip := callFrames[|callFrames| - 1];
      callFrames := callFrames[..|callFrames| - 1];
      return true;
    }

    /** One round of the dispatch loop. */
    method StepOnce() returns (status: Status)
      modifies this
      ensures code == old(code)
      ensures status.Running? <==> StepBytes(code, old(State())).Some?
      ensures status.Running? ==> State() == StepBytes(code, old(State())).value
      ensures status.Halted? <==> Decode(code, old(ip)) == Some(HaltIns)
      ensures status.Halted? ==> State() == old(State())
    {
      hide Effect, Branch, Machines.Return;
      var d := Decode(code, ip);
      match d
      case None => status := Stuck;
      case Some(HaltIns) => status := Halted;
      case Some(DataIns(i, size)) =>
        DecodesData(code, ip);
        var ok := Execute(i);
        if ok { ip := ip + size; }
        status := if ok then Running else Stuck;
      case Some(BranchIns(kind, distance)) =>
        var ok := ExecuteBranch(kind, distance);
        status := if ok then Running else Stuck;
      case Some(CallIns(target)) =>
        if target < 0 { return Stuck; }
        callFrames := callFrames + [ip + 5];
        ip := target;
        status := Running;
      case Some(ReturnIns(leave)) =>
        var ok := ExecuteReturn(leave);
        status := if ok then Running else Stuck;
    }

    /** The interpreter, for at most `limit` rounds; `steps` were executed. */
    method Run(limit: nat) returns (status: Status, steps: nat)
      modifies this
      ensures code == old(code) && steps <= limit
      ensures !status.Stuck? ==> RunBytes(code, old(State()), steps) == Some(State())
      ensures status.Halted? ==> Decode(code, ip) == Some(HaltIns) && steps < limit
      ensures status.Running? ==> steps == limit
      ensures status.Stuck? ==> StuckAfter(code, old(State()), steps)
    {
      hide StepBytes, Decode;
      status, steps := Running, 0;
      while steps < limit && status.Running?
        invariant code == old(code) && steps <= limit
        invariant !status.Stuck? ==> RunBytes(code, old(State()), steps) == Some(State())
        invariant status.Halted? ==> Decode(code, ip) == Some(HaltIns) && steps < limit
        invariant status.Stuck? ==> StuckAfter(code, old(State()), steps)
        decreases limit - steps, if status.Running? then 1 else 0
      {
        ghost var before := State();
        status := StepOnce();
        RunBytesExtend(code, old(State()), steps, before);
        if status.Running? { steps := steps + 1; }
      }
    }
  }

  lemma DecodesData(bytes: seq<Byte>, ip: nat)
    ensures Decode(bytes, ip).Some? && Decode(bytes, ip).value.DataIns? ==> IsData(Decode(bytes, ip).value.ins)
  {
  }

  /** A run extended by one more step. */
  lemma {:induction false} RunBytesExtend(bytes: seq<Byte>, m: Machine, n: nat, m': Machine)
    requires RunBytes(bytes, m, n) == Some(m')
    ensures RunBytes(bytes, m, n + 1) == StepBytes(bytes, m')
    decreases n
  {
    hide StepBytes;
    if n > 0 { RunBytesExtend(bytes, StepBytes(bytes, m).value, n - 1, m'); }
  }
}
