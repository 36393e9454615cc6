/**
 The abstract machine: the VM's registers and stacks, the effect of each data instruction, and
 execution of labelled code. The byte-code VM of module VirtualMachine has the same state and
 the same effects, with addresses for program counters.
 */
module Machines {
  import opened Wrappers
  import opened Fixnums
  import Arithmetic
  import opened Ast
  import opened Ir

  /**
   `base` is where the fast locals pointer points; it is undefined after a return that pops the
   last locals frame. A slot that was never stored to is absent from `globals` or `locals`.
   */
  datatype Machine = Machine(
    pc: nat,
    data: seq<Fixnum>,
    globals: map<nat, Fixnum>,
    globalsTop: nat,
    locals: map<nat, Fixnum>,
    localsTop: nat,
    frames: seq<nat>,
    base: Option<nat>,
    calls: seq<nat>)

  const INITIAL := Machine(0, [], map[], 0, map[], 0, [], Some(0), [])

  function Pop(m: Machine, n: nat): Machine
    requires n <= |m.data|
  {
    m.(data := m.data[..|m.data| - n])
  }

  function PushData(m: Machine, v: Fixnum): Machine { m.(data := m.data + [v]) }

  function Top(m: Machine): Fixnum
    requires m.data != []
  {
    m.data[|m.data| - 1]
  }

  function SetGlobal(m: Machine, index: nat, v: Fixnum): Machine {
    m.(globals := m.globals[index := v], globalsTop := if index > m.globalsTop then index else m.globalsTop)
  }

  function SetLocal(m: Machine, index: nat, v: Fixnum): Machine
    requires m.base.Some?
  {
    m.(locals := m.locals[m.base.value + index := v])
  }

  function EnterFrame(m: Machine, num: nat): Machine {
    m.(frames := m.frames + [m.localsTop], base := Some(m.localsTop), localsTop := m.localsTop + num)
  }

  /** Pops the locals frame; the fast locals pointer then belongs to the frame below. */
  function LeaveFrame(m: Machine): Machine
    requires m.frames != []
  {
    var rest := m.frames[..|m.frames| - 1];
    m.(localsTop := m.frames[|m.frames| - 1], frames := rest,
       base := if rest == [] then None else Some(rest[|rest| - 1]))
  }

  /** What a data instruction does, apart from advancing the program counter. */
  function Effect(i: Ins, m: Machine): Option<Machine> {
    match i
    case Push(n) => Some(PushData(m, n))
    case Operate(op) =>
      if |m.data| < 2 then None else
      (match Fixnums.Binary(op, m.data[|m.data| - 2], Top(m))
       case Some(v) => Some(PushData(Pop(m, 2), v))
       case None => None)
    case OperateUnary(op) => if m.data == [] then None else Some(PushData(Pop(m, 1), Unary(op, Top(m))))
    case Load(scope, index) =>
      if scope.Global? then (if index in m.globals then Some(PushData(m, m.globals[index])) else None)
      else if m.base.Some? && m.base.value + index in m.locals then Some(PushData(m, m.locals[m.base.value + index]))
      else None
    case Store(scope, index) =>
      if m.data == [] then None
      else if scope.Global? then Some(SetGlobal(Pop(m, 1), index, Top(m)))
      else if m.base.Some? then Some(SetLocal(Pop(m, 1), index, Top(m)))
      else None
    case Drop(num) => if |m.data| < num then None else Some(Pop(m, num))
    case AllocLocals(num) => Some(EnterFrame(m, num))
    case _ => None
  }

  predicate IsData(i: Ins) {
    i.Push? || i.Operate? || i.OperateUnary? || i.Load? || i.Store? || i.Drop? || i.AllocLocals?
  }

  /** A branch: whether it is taken, and the data stack afterwards. */
  function Branch(kind: BranchKind, m: Machine): Option<(bool, Machine)> {
    match kind
    case Always => Some((true, m))
    case PopIfTrue => if m.data == [] then None else Some((Top(m) != 0, Pop(m, 1)))
    case PopIfFalse => if m.data == [] then None else Some((Top(m) == 0, Pop(m, 1)))
    case TrueOrPop => if m.data == [] then None else if Top(m) != 0 then Some((true, m)) else Some((false, Pop(m, 1)))
    case FalseOrPop => if m.data == [] then None else if Top(m) == 0 then Some((true, m)) else Some((false, Pop(m, 1)))
  }

  function Return(leave: bool, m: Machine): Option<Machine> {
    if m.calls == [] || (leave && m.frames == []) then None
    else
      var back := (if leave then LeaveFrame(m) else m);
      Some(back.(pc := m.calls[|m.calls| - 1], calls := m.calls[..|m.calls| - 1]))
  }

  /** One step of labelled code; None when halted or stuck. */
  function Step(code: seq<Ins>, m: Machine): Option<Machine> {
    if m.pc >= |code| then None else
    match code[m.pc]
    case Mark(_) => Some(m.(pc := m.pc + 1))
    case Jump(kind, to) =>
      (match Branch(kind, m)
       case None => None
       case Some((taken, m')) => Some(m'.(pc := if taken then Find(code, to) else m.pc + 1)))
    case CallCode(to) => Some(m.(calls := m.calls + [m.pc + 1], pc := Find(code, to)))
    case ReturnCode(leave) => Return(leave, m)
    case Halt => None
    case i => (match Effect(i, m) case None => None case Some(m') => Some(m'.(pc := m.pc + 1)))
  }

  function Run(code: seq<Ins>, m: Machine, n: nat): Option<Machine>
    decreases n
  {
    if n == 0 then Some(m) else
    match Step(code, m)
    case None => None
    case Some(m') => Run(code, m', n - 1)
  }

  ghost predicate Reaches(code: seq<Ins>, m: Machine, m': Machine) {
    exists n: nat :: Run(code, m, n) == Some(m')
  }

  /** The machine runs for at least `n` steps. */
  ghost predicate Lasts(code: seq<Ins>, m: Machine, n: nat) {
    exists k: nat :: n <= k && Run(code, m, k).Some?
  }

  /** No result: the operands are there, but the operation has none for them, or the slot was never stored to. */
  predicate Blocks(i: Ins, m: Machine) {
    match i
    case Operate(op) => |m.data| >= 2 && Fixnums.Binary(op, m.data[|m.data| - 2], Top(m)).None?
    case Load(Global, index) => index !in m.globals
    case Load(Local, index) => m.base.Some? && m.base.value + index !in m.locals
    case _ => false
  }

  /** It has its operands, and they have no result under the opcode, or it reads a slot that was never stored to. */
  lemma BlocksMeans(i: Ins, m: Machine)
    ensures Blocks(i, m) <==>
              match i
              case Operate(op) =>
                |m.data| >= 2 && Arithmetic.HasNone(op, m.data[|m.data| - 2], m.data[|m.data| - 1])
              case Load(Global, index) => index !in m.globals
              case Load(Local, index) => m.base.Some? && m.base.value + index !in m.locals
              case _ => false
  {
    hide Fixnums.Binary, Arithmetic.IsResult;
    if i.Operate? && |m.data| >= 2 { Arithmetic.BinaryMeans(i.op, m.data[|m.data| - 2], m.data[|m.data| - 1]); }
  }

  predicate Blocked(code: seq<Ins>, m: Machine) { m.pc < |code| && Blocks(code[m.pc], m) }

  lemma BlockedStops(code: seq<Ins>, m: Machine)
    requires Blocked(code, m)
    ensures Step(code, m) == None && code[m.pc] != Halt
  {
  }

  lemma {:induction false} RunAdd(code: seq<Ins>, m: Machine, a: nat, b: nat, m': Machine)
    requires Run(code, m, a) == Some(m')
    ensures Run(code, m, a + b) == Run(code, m', b)
    decreases a
  {
    hide Step;
    if a > 0 { RunAdd(code, Step(code, m).value, a - 1, b, m'); }
  }

  lemma ReachesSelf(code: seq<Ins>, m: Machine)
    ensures Reaches(code, m, m)
  {
    assert Run(code, m, 0) == Some(m);
  }

  lemma ReachesStep(code: seq<Ins>, m: Machine, m': Machine)
    requires Step(code, m) == Some(m')
    ensures Reaches(code, m, m')
  {
    assert Run(code, m', 0) == Some(m');
    assert Run(code, m, 1) == Some(m');
  }

  lemma Chain(code: seq<Ins>, m: Machine, m': Machine, m'': Machine)
    requires Reaches(code, m, m') && Reaches(code, m', m'')
    ensures Reaches(code, m, m'')
  {
    var a: nat :| Run(code, m, a) == Some(m');
    var b: nat :| Run(code, m', b) == Some(m'');
    RunAdd(code, m, a, b, m');
  }

  lemma LastsZero(code: seq<Ins>, m: Machine)
    ensures Lasts(code, m, 0)
  {
    assert Run(code, m, 0) == Some(m);
  }

  lemma LastsOn(code: seq<Ins>, m: Machine, m': Machine, n: nat)
    requires Reaches(code, m, m') && Lasts(code, m', n)
    ensures Lasts(code, m, n)
    ensures m != m' ==> Lasts(code, m, n + 1)
  {
    hide Step;
    var a: nat :| Run(code, m, a) == Some(m');
    var b: nat :| n <= b && Run(code, m', b).Some?;
    RunAdd(code, m, a, b, m');
    assert a == 0 ==> m == m';
    assert Run(code, m, a + b).Some?;
  }

  /** Reaching, then one more step. */
  lemma Extend(code: seq<Ins>, m: Machine, m': Machine, m'': Machine)
    requires Reaches(code, m, m') && Step(code, m') == Some(m'')
    ensures Reaches(code, m, m'')
  {
    ReachesStep(code, m', m'');
    Chain(code, m, m', m'');
  }

  // ----- the greatest global stored to -----

  /** `globalsTop` is the greatest index of a global that was stored to, or zero. */
  ghost predicate TopOfGlobals(m: Machine) {
    (forall k | k in m.globals :: k <= m.globalsTop) && (m.globalsTop == 0 || m.globalsTop in m.globals)
  }

  lemma StepKeepsTop(code: seq<Ins>, m: Machine)
    requires TopOfGlobals(m) && Step(code, m).Some?
    ensures TopOfGlobals(Step(code, m).value)
  {
    hide Fixnums.Binary, Fixnums.Unary, Find;
  }

  /** Whatever runs, the top of the globals is the greatest index stored to, not one more. */
  lemma {:induction false} RunKeepsTop(code: seq<Ins>, m: Machine, n: nat)
    requires TopOfGlobals(m) && Run(code, m, n).Some?
    ensures TopOfGlobals(Run(code, m, n).value)
    decreases n
  {
    hide Step, TopOfGlobals;
    if n > 0 {
      StepKeepsTop(code, m);
      RunKeepsTop(code, Step(code, m).value, n - 1);
    }
  }

  // ----- what lies below on the data stack does not matter -----

  function Under(below: seq<Fixnum>, m: Machine): Machine { m.(data := below + m.data) }

  lemma PopUnder(below: seq<Fixnum>, m: Machine, n: nat)
    requires n <= |m.data|
    ensures Pop(Under(below, m), n) == Under(below, Pop(m, n))
  {
    assert (below + m.data)[..|below + m.data| - n] == below + m.data[..|m.data| - n];
  }

  lemma PushUnder(below: seq<Fixnum>, m: Machine, v: Fixnum)
    ensures PushData(Under(below, m), v) == Under(below, PushData(m, v))
  {
    assert (below + m.data) + [v] == below + (m.data + [v]);
  }

  lemma EffectUnder(i: Ins, below: seq<Fixnum>, m: Machine)
    requires Effect(i, m).Some?
    ensures Effect(i, Under(below, m)) == Some(Under(below, Effect(i, m).value))
  {
    hide Fixnums.Binary, Fixnums.Unary;
    match i
    case Push(n) => PushUnder(below, m, n);
    case Load(scope, index) => LoadUnder(scope, index, below, m);
    case Store(_, _) => PopUnder(below, m, 1);
    case Drop(num) => PopUnder(below, m, num);
    case OperateUnary(op) =>
      PopUnder(below, m, 1);
      PushUnder(below, Pop(m, 1), Fixnums.Unary(op, Top(m)));
    case Operate(op) => OperateUnder(op, below, m);
    case AllocLocals(_) =>
  }

  lemma LoadUnder(scope: Scope, index: nat, below: seq<Fixnum>, m: Machine)
    requires Effect(Load(scope, index), m).Some?
    ensures Effect(Load(scope, index), Under(below, m)) == Some(Under(below, Effect(Load(scope, index), m).value))
  {
    PushUnder(below, m, if scope.Global? then m.globals[index] else m.locals[m.base.value + index]);
  }

  lemma OperateUnder(op: BinOp, below: seq<Fixnum>, m: Machine)
    requires Effect(Operate(op), m).Some?
    ensures Effect(Operate(op), Under(below, m)) == Some(Under(below, Effect(Operate(op), m).value))
  {
    hide Fixnums.Binary;
    PopUnder(below, m, 2);
    PushUnder(below, Pop(m, 2), Fixnums.Binary(op, m.data[|m.data| - 2], Top(m)).value);
  }

  lemma BranchUnder(kind: BranchKind, below: seq<Fixnum>, m: Machine)
    requires Branch(kind, m).Some?
    ensures Branch(kind, Under(below, m)) == Some((Branch(kind, m).value.0, Under(below, Branch(kind, m).value.1)))
  {
    if m.data != [] { PopUnder(below, m, 1); }
  }

  lemma StepUnder(code: seq<Ins>, below: seq<Fixnum>, m: Machine)
    requires Step(code, m).Some?
    ensures Step(code, Under(below, m)) == Some(Under(below, Step(code, m).value))
  {
    hide Effect, Branch, Find;
    var i := code[m.pc];
    if i.Jump? { BranchUnder(i.kind, below, m); }
    if IsData(i) { EffectUnder(i, below, m); }
  }

  /**
   A run that never gets stuck from a given data stack does exactly the same, step by step, on
   top of anything: it never pops below the height it started from.
   */
  lemma {:induction false} RunUnder(code: seq<Ins>, below: seq<Fixnum>, m: Machine, n: nat)
    requires Run(code, m, n).Some?
    ensures Run(code, Under(below, m), n) == Some(Under(below, Run(code, m, n).value))
    decreases n
  {
    hide Step;
    if n > 0 {
      StepUnder(code, below, m);
      RunUnder(code, below, Step(code, m).value, n - 1);
    }
  }
}
