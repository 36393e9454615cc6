/**
 The results applied: any operation on two literals from source to VM, and a program with every
 construct that meets what the results ask for.
 */
module Samples {
  import opened Wrappers
  import opened Fixnums
  import opened Ast
  import opened Evaluation
  import opened Ir
  import opened Lowering
  import opened LabelDiscipline
  import opened ByteCode
  import opened CompilerCorrect
  import Arithmetic

  /** `x0 := a op b`. */
  function OperationOf(op: BinOp, a: Fixnum, b: Fixnum): Program {
    Program([], [Assign(Global, 0, BinaryNode(op, Integer(a), Integer(b)))])
  }

  /**
   Compiled and run, `x0 := a op b` halts with exactly what the opcode means for `a` and `b` in the
   global, or is stuck exactly if it means nothing.
   */
  lemma OperationRuns(op: BinOp, a: Fixnum, b: Fixnum, v: Option<Fixnum>, bytes: seq<Byte>)
    requires a >= 0 && b >= 0 && Encodes(bytes, ProgramCode(OperationOf(op, a, b)))
    requires Arithmetic.Means(op, a, b, v)
    ensures match v
            case Some(n) => VmHalts(bytes, map[0 := n]) && !VmSticks(bytes)
            case None => VmSticks(bytes)
    ensures forall globals :: VmHalts(bytes, globals) ==> v.Some? && globals == map[0 := v.value]
  {
    hide Encodes, ProgramCode, VmHalts, VmSticks, VmRunsForever, CoherentProgram, CompilerCorrect.Fits, EvalProgram,
         Arithmetic.Means;
    var prog := OperationOf(op, a, b);
    OperationCoherent(op, a, b);
    OperationFits(op, a, b);
    SameBehaviour(prog, bytes);
    Arithmetic.BinaryMeans(op, a, b);
    Arithmetic.OneMeaning(op, a, b, v, Fixnums.Binary(op, a, b));
    forall fuel: nat
      ensures EvalProgram(prog, fuel) == if v.Some? then Done([], Env(map[0 := v.value], imap[], 0)) else Fault
    {
      OperationEvaluates(op, a, b, fuel);
    }
    assert EvalProgram(prog, 0) == if v.Some? then Done([], Env(map[0 := v.value], imap[], 0)) else Fault;
  }

  lemma OperationCoherent(op: BinOp, a: Fixnum, b: Fixnum)
    requires a >= 0 && b >= 0
    ensures CoherentProgram(OperationOf(op, a, b))
  {
    var p, n := Place(false, None, 0, []), BinaryNode(op, Integer(a), Integer(b));
    var q := OperandPlace(p);
    assert Coherent(Integer(a), NoLabels, q) && Coherent(Integer(b), NoLabels, q);
    assert CoherentOperand(Integer(a), Int, NoLabels, q) && CoherentOperand(Integer(b), Int, NoLabels, q);
    assert Coherent(n, NoLabels, q);
    assert LeavesValue(n) && CoherentOperand(n, TypeOf(n), NoLabels, p);
    assert Coherent(Assign(Global, 0, n), NoLabels, p);
  }

  lemma OperationEvaluates(op: BinOp, a: Fixnum, b: Fixnum, fuel: nat)
    ensures EvalProgram(OperationOf(op, a, b), fuel) ==
              match Fixnums.Binary(op, a, b)
              case Some(n) => Done([], Env(map[0 := n], imap[], 0))
              case None => Fault
  {
    hide Fixnums.Binary;
    var prog := OperationOf(op, a, b);
    var n := BinaryNode(op, Integer(a), Integer(b));
    assert Eval([], Integer(a), START, fuel) == Done([a], START);
    assert Eval([], Integer(b), START, fuel) == Done([b], START);
    assert Eval([], n, START, fuel) ==
             match Fixnums.Binary(op, a, b) case Some(v) => Done([v], START) case None => Fault;
    var r := Eval([], Assign(Global, 0, n), START, fuel);
    assert EvalProgram(prog, fuel) == if r.Done? then Done([], r.env) else r;
  }

  lemma OperationFits(op: BinOp, a: Fixnum, b: Fixnum)
    ensures CompilerCorrect.Fits(OperationOf(op, a, b))
  {
    hide Addr;
    OperationCode(op, a, b);
    SmallAddr(ProgramCode(OperationOf(op, a, b)), 5);
  }

  lemma OperationCode(op: BinOp, a: Fixnum, b: Fixnum)
    ensures ProgramCode(OperationOf(op, a, b)) == [Push(a), Push(b), Operate(op), Store(Global, 0), Halt]
  {
    var c, n := Unit([], false), BinaryNode(op, Integer(a), Integer(b));
    var ir := IrBinary(op, IrFixnum(a), IrFixnum(b));
    assert Lower(n, NO_LABELS, c, 0) == (ir, 0);
    var set0 := IrAssignment(Global, 0, ir);
    assert Lower(Assign(Global, 0, n), NO_LABELS, c, 0) == (set0, 0);
    assert LowerBody([Assign(Global, 0, n)], false, NO_LABELS, c, 0).0 == [set0];
    assert LowerProgram(OperationOf(op, a, b)).0 == [set0];
    assert Listing(ir) == [Push(a), Push(b), Operate(op)];
    ListingOne(set0);
  }

  lemma {:induction false} SmallAddr(code: seq<Ins>, i: nat)
    requires i <= |code|
    ensures Addr(code, i) <= 5 * i
  {
    hide Size;
    if i > 0 {
      SmallAddr(code, i - 1);
      SmallSize(code[i - 1]);
    }
  }

  lemma SmallSize(i: Ins)
    ensures Size(i) <= 5
  {
  }

  // ----- a program with every construct -----

  const N := Variable(Local, 0, Int)
  const M := Variable(Local, 1, Int)
  const X := Variable(Global, 0, Int)

  /** `fn (n) { if n < 2 { return 1 }; m := fact(n - 1); return n * m }` */
  const FACTORIAL := FnDef(1, 2, Int, [
    IfElse(BinaryNode(Less, N, Integer(2)), [Return([Integer(1)])], []),
    Assign(Local, 1, Call(0, [BinaryNode(Sub, N, Integer(1))], Int)),
    Return([BinaryNode(Mul, N, M)])])

  /** `while x < 9 or (x == 12 and true) { x := x + 1; if x == 3 { continue } else { break } }` */
  const LOOP := While(
    LogicalOr(BinaryNode(Less, X, Integer(9)), LogicalAnd(BinaryNode(Equals, X, Integer(12)), Boolean(true))),
    [Assign(Global, 0, BinaryNode(Add, X, Integer(1))),
     IfElse(BinaryNode(Equals, X, Integer(3)), [Continue], [Break])])

  /** `x := 0; while …; y := if fact(x) != 5 { 1 } else { -2 }; fact(7)` */
  const SAMPLE := Program([FACTORIAL], [
    Assign(Global, 0, Integer(0)),
    LOOP,
    Assign(Global, 1, IfElse(BinaryNode(NotEquals, Call(0, [X], Int), Integer(5)),
                             [Integer(1)], [UnaryNode(Negate, Integer(2))])),
    Call(0, [Integer(7)], Int)])

  /** Operations on a variable and a literal, and the two alone, wherever the variable may be used. */
  lemma SimpleCoherent(op: BinOp, scope: Scope, index: nat, k: Fixnum, u: LabelUse, p: Place)
    requires SlotOk(scope, index, p) && k >= 0
    ensures CoherentOperand(Variable(scope, index, Int), Int, u, p) && CoherentOperand(Integer(k), Int, u, p)
    ensures var n := BinaryNode(op, Variable(scope, index, Int), Integer(k)); CoherentOperand(n, TypeOf(n), u, p)
  {
    var x, i, n := Variable(scope, index, Int), Integer(k), BinaryNode(op, Variable(scope, index, Int), Integer(k));
    var q := OperandPlace(p);
    assert OperandPlace(q) == q;
    assert Coherent(x, Inner(u), q) && Coherent(i, Inner(u), q) && Coherent(x, u, q) && Coherent(i, u, q);
    assert CoherentOperand(x, Int, Inner(u), q) && CoherentOperand(i, Int, Inner(u), q);
    assert Coherent(n, u, q);
  }

  lemma BodyOfOne(n: Node, u: LabelUse, p: Place)
    requires Coherent(n, u, p)
    ensures CoherentBody([n], u, p)
  {
    hide Coherent;
  }

  lemma FactorialStops(p: Place)
    requires p == Place(false, Some(Int), 2, [FACTORIAL])
    ensures Coherent(FACTORIAL.body[0], NoLabels, p)
  {
    SimpleCoherent(Less, Local, 0, 2, BothLabels, p);
    SimpleCoherent(Less, Local, 0, 1, Foreign, p);
    assert Coherent(Return([Integer(1)]), Foreign, p);
    BodyOfOne(Return([Integer(1)]), Foreign, p);
  }

  lemma FactorialCalls(p: Place)
    requires p == Place(false, Some(Int), 2, [FACTORIAL])
    ensures Coherent(FACTORIAL.body[1], NoLabels, p)
  {
    var q := OperandPlace(p);
    SimpleCoherent(Sub, Local, 0, 1, NoLabels, q);
    var call := Call(0, [BinaryNode(Sub, N, Integer(1))], Int);
    assert Coherent(call, NoLabels, q);
    assert CoherentOperand(call, Int, NoLabels, p);
  }

  lemma FactorialReturns(p: Place)
    requires p == Place(false, Some(Int), 2, [FACTORIAL])
    ensures Coherent(FACTORIAL.body[2], NoLabels, p)
  {
    var q := OperandPlace(p);
    assert OperandPlace(q) == q && Coherent(N, NoLabels, q) && Coherent(M, NoLabels, q);
    assert CoherentOperand(N, Int, NoLabels, q) && CoherentOperand(M, Int, NoLabels, q);
    assert Coherent(BinaryNode(Mul, N, M), NoLabels, q);
    assert CoherentOperand(BinaryNode(Mul, N, M), Int, NoLabels, p);
  }

  lemma FactorialCoherent()
    ensures CoherentFn([FACTORIAL], 0)
  {
    hide Coherent;
    var fns := [FACTORIAL];
    assert fns[..1] == fns;
    var p := Place(false, Some(Int), 2, fns);
    FactorialStops(p);
    FactorialCalls(p);
    FactorialReturns(p);
  }

  lemma LoopHead(p: Place)
    requires p == OperandPlace(p)
    ensures CoherentOperand(LOOP.cond, Bool, BothLabels, p)
  {
    SimpleCoherent(Less, Global, 0, 9, BothLabels, p);
    SimpleCoherent(Equals, Global, 0, 12, BothLabels, p);
    var both := LogicalAnd(BinaryNode(Equals, X, Integer(12)), Boolean(true));
    assert CoherentOperand(Boolean(true), Bool, BothLabels, p);
    assert CoherentOperand(both, Bool, BothLabels, p);
  }

  lemma LoopBody(p: Place)
    requires p.loop
    ensures CoherentBody(LOOP.body, Foreign, p)
  {
    SimpleCoherent(Add, Global, 0, 1, Foreign, p);
    SimpleCoherent(Equals, Global, 0, 3, BothLabels, p);
    assert Coherent(LOOP.body[0], Foreign, p);
    BodyOfOne(Continue, Foreign, p);
    BodyOfOne(Break, Foreign, p);
    assert Coherent(LOOP.body[1], Foreign, p);
  }

  lemma LoopCoherent(p: Place)
    requires p == OperandPlace(p)
    ensures Coherent(LOOP, NoLabels, p)
  {
    hide CoherentOperand, CoherentBody;
    LoopHead(p);
    LoopBody(p.(loop := true));
  }

  lemma ValueCoherent(p: Place)
    requires p == OperandPlace(p) && p.callable == [FACTORIAL]
    ensures Coherent(SAMPLE.main[2], NoLabels, p)
  {
    var n := SAMPLE.main[2].value;
    var cons, alt := Integer(1), UnaryNode(Negate, Integer(2));
    CallCoherent(X, Foreign, p);
    SimpleCoherent(Add, Global, 0, 5, Foreign, p);
    assert Coherent(n.cond, BothLabels, p);
    SimpleCoherent(Add, Global, 0, 2, Foreign, p);
    assert Coherent(cons, Foreign, p) && Coherent(alt, Foreign, p);
    BodyOfOne(cons, Foreign, p);
    BodyOfOne(alt, Foreign, p);
    assert TypeOf(cons) == Int && TypeOf(alt) == Int && TypeOf(n) == Int;
    assert Coherent(n, NoLabels, p);
  }

  lemma CallCoherent(x: Node, u: LabelUse, p: Place)
    requires p == OperandPlace(p) && p.callable == [FACTORIAL] && (x == X || x == Integer(7))
    ensures CoherentOperand(Call(0, [x], Int), Int, u, p)
  {
    SimpleCoherent(Add, Global, 0, 7, Inner(u), p);
    assert Coherent(Call(0, [x], Int), u, p);
  }

  /** The coherent fragment has functions, recursion, loops with break and continue, and if/else as a value. */
  lemma SampleCoherent()
    ensures CoherentProgram(SAMPLE)
  {
    hide CoherentFn;
    var fns := [FACTORIAL];
    var p := Place(false, None, 0, fns);
    FactorialCoherent();
    SimpleCoherent(Add, Global, 0, 0, NoLabels, p);
    assert Coherent(SAMPLE.main[0], NoLabels, p);
    LoopCoherent(p);
    ValueCoherent(p);
    CallCoherent(Integer(7), NoLabels, p);
  }
}
