/**
 The labelled code of a coherent program does what the program means: for every node whose
 evaluation ends, the machine runs from the node's first instruction to where the outcome says,
 with the same store, the caller's frames and slots untouched and the data stack exactly as it
 was plus the node's values.
 */
module Simulation {
  import opened Wrappers
  import opened Fixnums
  import opened Ast
  import opened Evaluation
  import opened Ir
  import opened Lowering
  import opened Machines
  import opened SimulationSteps

  /** A coherent node's code, entered with a store that agrees, runs to where its evaluation ends. */
  lemma {:induction false} Simulate(w: World, n: Node, u: LabelUse, p: Place, ls: Labels, c: Unit, next: nat,
                                    m: Machine, lo: nat, env: Env, fuel: nat)
    returns (m': Machine)
    requires Coherent(n, u, p) && Ready(w, u, p, ls, c, m, lo, env)
    requires At(w.code, m.pc, Code(n, ls, c, next))
    ensures Outcome(w, n, u, ls, c, |Code(n, ls, c, next)|, m, lo, Eval(w.fns, n, env, fuel), fuel, m')
    decreases fuel, n, 5
  {
    hide *;
    match n
    case BinaryNode(_, _, _) => m' := SimulateStraight(w, n, u, p, ls, c, next, m, lo, env, fuel);
    case UnaryNode(_, _) => m' := SimulateStraight(w, n, u, p, ls, c, next, m, lo, env, fuel);
    case Assign(_, _, _) => m' := SimulateStraight(w, n, u, p, ls, c, next, m, lo, env, fuel);
    case Return(_) => m' := SimulateStraight(w, n, u, p, ls, c, next, m, lo, env, fuel);
    case LogicalOr(_, _) => m' := SimulateLogical(w, n, u, p, ls, c, next, m, lo, env, fuel);
    case LogicalAnd(_, _) => m' := SimulateLogical(w, n, u, p, ls, c, next, m, lo, env, fuel);
    case IfElse(_, _, _) => m' := SimulateControl(w, n, u, p, ls, c, next, m, lo, env, fuel);
    case While(_, _) => m' := SimulateControl(w, n, u, p, ls, c, next, m, lo, env, fuel);
    case Call(_, _, _) => m' := SimulateControl(w, n, u, p, ls, c, next, m, lo, env, fuel);
    case _ => m' := SimulateLeaf(w, n, u, p, ls, c, next, m, lo, env, fuel);
  }

  lemma {:induction false} SimulateLogical(w: World, n: Node, u: LabelUse, p: Place, ls: Labels, c: Unit, next: nat,
                                           m: Machine, lo: nat, env: Env, fuel: nat)
    returns (m': Machine)
    requires n.LogicalOr? || n.LogicalAnd?
    requires Coherent(n, u, p) && Ready(w, u, p, ls, c, m, lo, env)
    requires At(w.code, m.pc, Code(n, ls, c, next))
    ensures Outcome(w, n, u, ls, c, |Code(n, ls, c, next)|, m, lo, Eval(w.fns, n, env, fuel), fuel, m')
    decreases fuel, n, 4
  {
    hide LowerBody, LowerArgs, ListingAll, Find, Placed, Linked, CoherentFn, FnCode, Reaches, Run, EvalBody, EvalArgs,
         CoherentBody, At, Step, Same, Agrees, Moved, Blocked, Entered, Left, Fixnums.Binary, Fixnums.Unary;
    match n
    case LogicalOr(x, y) =>
      OrListing(x, y, ls, c, next);
      m' := SimulateOr(w, x, y, u, p, ls, c, next, m, lo, env, fuel);
    case LogicalAnd(x, y) =>
      AndListing(x, y, ls, c, next);
      m' := SimulateAnd(w, x, y, u, p, ls, c, next, m, lo, env, fuel);
  }

  lemma {:induction false} SimulateStraight(w: World, n: Node, u: LabelUse, p: Place, ls: Labels, c: Unit, next: nat,
                                            m: Machine, lo: nat, env: Env, fuel: nat)
    returns (m': Machine)
    requires n.BinaryNode? || n.UnaryNode? || n.Assign? || n.Return?
    requires Coherent(n, u, p) && Ready(w, u, p, ls, c, m, lo, env)
    requires At(w.code, m.pc, Code(n, ls, c, next))
    ensures Outcome(w, n, u, ls, c, |Code(n, ls, c, next)|, m, lo, Eval(w.fns, n, env, fuel), fuel, m')
    decreases fuel, n, 4
  {
    hide LowerBody, LowerArgs, ListingAll, Find, Placed, Linked, CoherentFn, FnCode, Reaches, Run, EvalBody, EvalArgs,
         CoherentBody, At, Step, Same, Agrees, Moved, Blocked, Entered, Left, Fixnums.Binary, Fixnums.Unary;
    match n
    case BinaryNode(op, x, y) => m' := SimulateBinary(w, op, x, y, Inner(u), p, ls, c, next, m, lo, env, fuel);
    case UnaryNode(op, x) => m' := SimulateUnary(w, op, x, Inner(u), p, ls, c, next, m, lo, env, fuel);
    case Assign(scope, index, x) =>
      m' := SimulateAssign(w, scope, index, x, Inner(u), p, ls, c, next, m, lo, env, fuel);
    case Return(values) => m' := SimulateReturn(w, values, Inner(u), p, ls, c, next, m, lo, env, fuel);
  }

  lemma {:induction false} SimulateControl(w: World, n: Node, u: LabelUse, p: Place, ls: Labels, c: Unit, next: nat,
                                           m: Machine, lo: nat, env: Env, fuel: nat)
    returns (m': Machine)
    requires n.IfElse? || n.While? || n.Call?
    requires Coherent(n, u, p) && Ready(w, u, p, ls, c, m, lo, env)
    requires At(w.code, m.pc, Code(n, ls, c, next))
    ensures Outcome(w, n, u, ls, c, |Code(n, ls, c, next)|, m, lo, Eval(w.fns, n, env, fuel), fuel, m')
    decreases fuel, n, 4
  {
    hide LowerBody, LowerArgs, ListingAll, Find, Placed, Linked, CoherentFn, FnCode, Reaches, Run, EvalBody, EvalArgs,
         CoherentBody, At, Step, Same, Agrees, Moved, Blocked, Entered, Left, Fixnums.Binary, Fixnums.Unary;
    match n
    case IfElse(cond, cons, alt) =>
      IfListing(cond, cons, alt, ls, c, next);
      m' := SimulateIf(w, cond, cons, alt, u, p, ls, c, next, m, lo, env, fuel);
    case While(cond, body) =>
      WhileListing(cond, body, ls, c, next);
      m' := SimulateWhile(w, cond, body, u, p, ls, c, next, m, lo, env, fuel);
    case Call(f, args, ty) => m' := SimulateCall(w, f, args, Inner(u), p, ls, c, next, m, lo, env, fuel);
  }

  /** An operand that ends has exactly one value, and no jump leaves it but to its own labels. */
  lemma {:induction false} SimulateOperand(w: World, n: Node, ty: Ty, u: LabelUse, p: Place, ls: Labels, c: Unit,
                                           next: nat, m: Machine, lo: nat, env: Env, fuel: nat)
    returns (m': Machine)
    requires ty != Void && CoherentOperand(n, ty, u, p) && Ready(w, u, p, ls, c, m, lo, env)
    requires At(w.code, m.pc, Code(n, ls, c, next))
    ensures ValueOutcome(w, n, u, ls, |Code(n, ls, c, next)|, m, lo, Eval(w.fns, n, env, fuel), fuel, m')
    decreases fuel, n, 6
  {
    hide Lower, LowerBody, Listing, ListingAll, Find, Placed, Linked, FnCode, Reaches, At, Eval, Coherent;
    m' := Simulate(w, n, u, OperandPlace(p), ls, c, next, m, lo, env, fuel);
    EvalShape(w.fns, n, u, OperandPlace(p), env, fuel);
  }

  lemma {:induction false} SimulateBinary(w: World, op: BinOp, x: Node, y: Node, u: LabelUse, p: Place, ls: Labels,
                                          c: Unit, next: nat, m: Machine, lo: nat, env: Env, fuel: nat)
    returns (m': Machine)
    requires u.NoLabels? || u.Foreign?
    requires CoherentOperand(x, Int, u, p) && CoherentOperand(y, Int, u, p) && Ready(w, u, p, ls, c, m, lo, env)
    requires At(w.code, m.pc, Code(x, ls, c, next) + (Code(y, ls, c, Next(x, ls, c, next)) + [Operate(op)]))
    ensures var a := Eval(w.fns, x, env, fuel);
            if !a.Done? then Stopped(w.code, m, a, fuel, m') else
            var b := Eval(w.fns, y, a.env, fuel);
            if !b.Done? then |a.vals| == 1 && Stopped(w.code, m, b, fuel, m') else
            |a.vals| == 1 && |b.vals| == 1 &&
            var v := Fixnums.Binary(op, a.vals[0], b.vals[0]);
            if v.None? then Stopped(w.code, m, Fault, fuel, m') else
            && Moved(w, m, m', b.env, lo) && m'.data == m.data + [v.value]
            && m'.pc == m.pc + |Code(x, ls, c, next)| + |Code(y, ls, c, Next(x, ls, c, next))| + 1
    decreases fuel, BinaryNode(op, x, y), 0
  {
    hide Lower, LowerBody, LowerArgs, Listing, ListingAll, Find, Placed, Linked, CoherentFn, FnCode, Reaches, Run, Eval,
         EvalBody, EvalArgs, Coherent, CoherentBody, At, Step, Agrees, Same, Moved, Ready, CoherentOperand,
         Fixnums.Binary, Fixnums.Unary;
    var k := Next(x, ls, c, next);
    var lhs, rhs := Code(x, ls, c, next), Code(y, ls, c, k);
    AtSplit(w.code, m.pc, lhs, rhs + [Operate(op)]);
    AtSplit(w.code, m.pc + |lhs|, rhs, [Operate(op)]);
    var a := Eval(w.fns, x, env, fuel);
    m' := SimulateOperand(w, x, Int, u, p, ls, c, next, m, lo, env, fuel);
    if a.Done? {
      var m1 := m';
      StillReady(w, u, p, ls, c, m, lo, env, m1, a.env);
      var b := Eval(w.fns, y, a.env, fuel);
      m' := SimulateOperand(w, y, Int, u, p, ls, c, k, m1, lo, a.env, fuel);
      if b.Done? {
        MovedOn(w, m, m1, a.env, m', b.env, lo);
        var v := Fixnums.Binary(op, a.vals[0], b.vals[0]);
        if v.Some? {
          m' := OperateStep(w, m, m', b.env, lo, op, m.data, a.vals, b.vals, v.value);
        } else {
          NoResult(w, m, m', b.env, lo, op, m.data, a.vals, b.vals, fuel);
        }
      } else {
        StoppedOn(w, m, m1, a.env, lo, b, fuel, m');
      }
    }
  }

  lemma {:induction false} SimulateUnary(w: World, op: UnOp, x: Node, u: LabelUse, p: Place, ls: Labels, c: Unit,
                                         next: nat, m: Machine, lo: nat, env: Env, fuel: nat)
    returns (m': Machine)
    requires u.NoLabels? || u.Foreign?
    requires CoherentOperand(x, Int, u, p) && Ready(w, u, p, ls, c, m, lo, env)
    requires At(w.code, m.pc, Code(x, ls, c, next) + (if op.Positive? then [] else [OperateUnary(op)]))
    ensures var a := Eval(w.fns, x, env, fuel);
            if !a.Done? then Stopped(w.code, m, a, fuel, m') else
            |a.vals| == 1 && Moved(w, m, m', a.env, lo) && m'.data == m.data + [Unary(op, a.vals[0])]
              && m'.pc == m.pc + |Code(x, ls, c, next)| + (if op.Positive? then 0 else 1)
    decreases fuel, UnaryNode(op, x), 0
  {
    hide Lower, LowerBody, LowerArgs, Listing, ListingAll, Find, Placed, Linked, CoherentFn, FnCode, Reaches, Run, Eval,
         EvalBody, EvalArgs, Coherent, CoherentBody, At, Step, Agrees, Same, Moved, Ready, CoherentOperand;
    var tail := if op.Positive? then [] else [OperateUnary(op)];
    AtSplit(w.code, m.pc, Code(x, ls, c, next), tail);
    var a := Eval(w.fns, x, env, fuel);
    m' := SimulateOperand(w, x, Int, u, p, ls, c, next, m, lo, env, fuel);
    if a.Done? {
      if op.Positive? {
        assert [Unary(op, a.vals[0])] == a.vals;
      } else {
        var m1 := m';
        assert m1.data[..|m1.data| - 1] == m.data;
        m' := DataStep(w, m, m1, a.env, lo, OperateUnary(op), PushData(Pop(m1, 1), Unary(op, Top(m1))));
      }
    }
  }

  lemma {:induction false} SimulateAssign(w: World, scope: Scope, index: nat, x: Node, u: LabelUse, p: Place,
                                          ls: Labels, c: Unit, next: nat, m: Machine, lo: nat, env: Env, fuel: nat)
    returns (m': Machine)
    requires u.NoLabels? || u.Foreign?
    requires SlotOk(scope, index, p) && LeavesValue(x) && CoherentOperand(x, TypeOf(x), u, p)
    requires Ready(w, u, p, ls, c, m, lo, env)
    requires At(w.code, m.pc, Code(x, ls, c, next) + [Store(scope, index)])
    ensures var a := Eval(w.fns, x, env, fuel);
            if !a.Done? then Stopped(w.code, m, a, fuel, m') else
            |a.vals| == 1 && Moved(w, m, m', Write(scope, index, a.vals[0], a.env), lo) && m'.data == m.data
              && m'.pc == m.pc + |Code(x, ls, c, next)| + 1
    decreases fuel, Assign(scope, index, x), 0
  {
    hide Lower, LowerBody, LowerArgs, Listing, ListingAll, Find, Placed, Linked, CoherentFn, FnCode, Reaches, Run, Eval,
         EvalBody, EvalArgs, Coherent, CoherentBody, At, Step, CoherentOperand, Fixnums.Binary, Fixnums.Unary;
    AtSplit(w.code, m.pc, Code(x, ls, c, next), [Store(scope, index)]);
    var a := Eval(w.fns, x, env, fuel);
    m' := SimulateOperand(w, x, TypeOf(x), u, p, ls, c, next, m, lo, env, fuel);
    if a.Done? {
      var m1 := m';
      OneAt(w.code, m1.pc, Store(scope, index));
      assert m1.data[..|m1.data| - 1] == m.data;
      m' := StoreStep(w, m, m1, a.env, lo, scope, index);
    }
  }

  // ----- short circuit -----

  /** The right operand of an `or` or `and` whose left one did not decide, up to the end label. */
  lemma {:induction false} SimulateRight(w: World, n: Node, y: Node, u: LabelUse, p: Place, ls: Labels, c: Unit, k: nat,
                                         end: Option<nat>, m: Machine, m1: Machine, lo: nat, env: Env, fuel: nat,
                                             len: nat)
    returns (m': Machine)
    requires NoAnd(n) ==> NoAnd(y)
    requires CoherentOperand(y, Bool, u, p) && Ready(w, u, p, ls, c, m1, lo, env)
    requires Moved(w, m, m1, env, lo) && m1.data == m.data
    requires At(w.code, m1.pc, Code(y, ls, c, k) + (if end.Some? then [Mark(end.value)] else []))
    requires m1.pc + |Code(y, ls, c, k)| + (if end.Some? then 1 else 0) == m.pc + len
    ensures ValueOutcome(w, n, u, ls, len, m, lo, Eval(w.fns, y, env, fuel), fuel, m')
    decreases fuel, y, 7
  {
    hide Lower, LowerBody, LowerArgs, Listing, ListingAll, Find, Placed, Linked, CoherentFn, FnCode, Reaches, Run, Eval,
         EvalBody, EvalArgs, Coherent, CoherentBody, At, Step, Agrees, Same, Moved, Arrives, ValueOutcome, Ready,
         CoherentOperand, Fixnums.Binary, Fixnums.Unary;
    var rhs := Code(y, ls, c, k);
    AtSplit(w.code, m1.pc, rhs, if end.Some? then [Mark(end.value)] else []);
    if end.Some? { OneAt(w.code, m1.pc + |rhs|, Mark(end.value)); }
    m' := SimulateOperand(w, y, Bool, u, p, ls, c, k, m1, lo, env, fuel);
    m' := RightOn(w, n, y, u, ls, len, m, m1, lo, env, Eval(w.fns, y, env, fuel), fuel, |rhs|, end, m');
  }

  lemma {:induction false} SimulateOr(w: World, x: Node, y: Node, u: LabelUse, p: Place, ls: Labels, c: Unit, next: nat,
                                      m: Machine, lo: nat, env: Env, fuel: nat)
    returns (m': Machine)
    requires !u.Foreign? && (u.BothLabels? ==> NoAnd(x))
    requires CoherentOperand(x, Bool, u, p) && CoherentOperand(y, Bool, u, p) && Ready(w, u, p, ls, c, m, lo, env)
    requires At(w.code, m.pc, OrCode(x, y, ls, c, next))
    ensures var a, n, len := Eval(w.fns, x, env, fuel), LogicalOr(x, y), |OrCode(x, y, ls, c, next)|;
            && (a.Done? ==> |a.vals| == 1)
            && ValueOutcome(w, n, u, ls, len, m, lo,
                            if a.Done? && a.vals[0] == 0 then Eval(w.fns, y, a.env, fuel) else a, fuel, m')
    decreases fuel, LogicalOr(x, y), 0
  {
    hide Lower, LowerBody, LowerArgs, Listing, ListingAll, Find, Placed, Linked, CoherentFn, FnCode, Reaches, Run, Eval,
         EvalBody, EvalArgs, Coherent, CoherentBody, At, Step, Agrees, Same, Moved, Stopped, Arrives, ValueOutcome,
         CoherentOperand, Fixnums.Binary, Fixnums.Unary;
    var k := Next(x, ls, c, next);
    var k' := Next(y, ls, c, k);
    var lhs, rhs := Code(x, ls, c, next), Code(y, ls, c, k);
    var jump := OrJump(ls, k');
    OrPlaces(w, m.pc, lhs, jump, rhs, ls.yes, k');
    LeftReady(w, u, p, ls, c, next, m, lo, env);
    var a, len := Eval(w.fns, x, env, fuel), |OrCode(x, y, ls, c, next)|;
    m' := SimulateOperand(w, x, Bool, u, p, ls, c, next, m, lo, env, fuel);
    m' := OrLeft(w, x, y, u, ls, |lhs|, len, k', m, lo, a, fuel, m');
    if a.Done? && a.vals[0] == 0 {
      var m1 := m';
      StillReady(w, u, p, ls, c, m, lo, env, m1, a.env);
      var end := if ls.yes.Some? then None else Some(k');
      m' := SimulateRight(w, LogicalOr(x, y), y, u, p, ls, c, k, end, m, m1, lo, a.env, fuel, len);
    }
  }

  /** The left operand of an `and`: true at the label `mid`, false at the false label. */
  lemma {:induction false} SimulateAndLeft(w: World, x: Node, u: LabelUse, p: Place, ls: Labels, c: Unit, mid: nat,
                                           end: nat, m: Machine, lo: nat, env: Env, fuel: nat)
    returns (m': Machine)
    requires !u.Foreign? && CoherentOperand(x, Bool, AndLeft(u), p) && Ready(w, u, p, ls, c, m, lo, env)
    requires var code := Code(x, ls.(yes := Some(mid)), c, mid + 1);
             && At(w.code, m.pc, code) && m.pc + |code| < |w.code| && w.code[m.pc + |code|] == AndJump(ls, end)
             && Find(w.code, mid) == m.pc + |code| + 1
    ensures var a := Eval(w.fns, x, env, fuel);
            if !a.Done? then Stopped(w.code, m, a, fuel, m') else
            |a.vals| == 1 && Moved(w, m, m', a.env, lo)
            && (a.vals[0] != 0 ==> m'.pc == Find(w.code, mid) && m'.data == m.data)
            && (a.vals[0] == 0 && ls.no.Some? ==> m'.pc == Find(w.code, ls.no.value) && m'.data == m.data)
            && (a.vals[0] == 0 && ls.no.None? ==> m'.pc == Find(w.code, end) && m'.data == m.data + a.vals)
    decreases fuel, x, 7
  {
    hide Lower, LowerBody, LowerArgs, Listing, ListingAll, Find, Placed, Linked, CoherentFn, FnCode, Reaches, Run, Eval,
         EvalBody, EvalArgs, Coherent, CoherentBody, At, Step, Agrees, Same, Moved, CoherentOperand, Fixnums.Binary,
         Fixnums.Unary;
    var left := ls.(yes := Some(mid));
    var code := Code(x, left, c, mid + 1);
    var jump := AndJump(ls, end);
    var a := Eval(w.fns, x, env, fuel);
    LeftReady(w, u, p, ls, c, mid, m, lo, env);
    m' := SimulateOperand(w, x, Bool, AndLeft(u), p, left, c, mid + 1, m, lo, env, fuel);
    if a.Done? && m'.pc == m.pc + |code| && m'.data == m.data + a.vals {
      m' := TakeBranch(w, m, m', a.env, lo, a.vals[0], jump.kind, jump.to, a.vals[0] == 0);
    }
  }

  lemma {:induction false} SimulateAnd(w: World, x: Node, y: Node, u: LabelUse, p: Place, ls: Labels, c: Unit,
                                       next: nat, m: Machine, lo: nat, env: Env, fuel: nat)
    returns (m': Machine)
    requires !u.Foreign?
    requires CoherentOperand(x, Bool, AndLeft(u), p) && CoherentOperand(y, Bool, u, p)
    requires Ready(w, u, p, ls, c, m, lo, env)
    requires At(w.code, m.pc, AndCode(x, y, ls, c, next))
    ensures var a, n, len := Eval(w.fns, x, env, fuel), LogicalAnd(x, y), |AndCode(x, y, ls, c, next)|;
            && (a.Done? ==> |a.vals| == 1)
            && ValueOutcome(w, n, u, ls, len, m, lo,
                            if a.Done? && a.vals[0] != 0 then Eval(w.fns, y, a.env, fuel) else a, fuel, m')
    decreases fuel, LogicalAnd(x, y), 0
  {
    hide Lower, LowerBody, LowerArgs, Listing, ListingAll, Find, Placed, Linked, CoherentFn, FnCode, Reaches, Run, Eval,
         EvalBody, EvalArgs, Coherent, CoherentBody, At, Step, Agrees, Same, Moved, Stopped, CoherentOperand,
         Fixnums.Binary, Fixnums.Unary;
    var left := ls.(yes := Some(next));
    var k := Next(x, left, c, next + 1);
    var k' := Next(y, ls, c, k);
    var lhs, rhs := Code(x, left, c, next + 1), Code(y, ls, c, k);
    var jump := AndJump(ls, k');
    AndPlaces(w, m.pc, lhs, jump, next, rhs, ls.no, k');
    var a := Eval(w.fns, x, env, fuel);
    LeftReady(w, u, p, ls, c, next, m, lo, env);
    m' := SimulateAndLeft(w, x, u, p, ls, c, next, k', m, lo, env, fuel);
    if a.Done? {
      if a.vals[0] != 0 {
        var m1 := PassMark(w, m, m', a.env, lo, next);
        StillReady(w, u, p, ls, c, m, lo, env, m1, a.env);
        m' :=
          SimulateRight(w, LogicalAnd(x, y), y, u, p, ls, c, k, if ls.no.Some? then None else Some(k'), m, m1, lo,
                        a.env, fuel, |AndCode(x, y, ls, c, next)|);
      } else if ls.no.None? {
        m' := PassMark(w, m, m', a.env, lo, k');
      }
    }
  }

  /**
   The head of an if or a while: when the condition is true control is after the label `yes`
   that follows the head, when it is false at the label `no`, and nothing is left on the stack.
   */
  lemma {:induction false} SimulateHead(w: World, cond: Node, p: Place, inner: Labels, c: Unit, next: nat, m: Machine,
                                        lo: nat, env: Env, fuel: nat, rest: seq<Ins>)
    returns (m': Machine)
    requires inner.yes.Some? && inner.no.Some?
    requires CoherentOperand(cond, Bool, BothLabels, p) && Ready(w, BothLabels, p, inner, c, m, lo, env)
    requires At(w.code, m.pc,
                Code(cond, inner, c, next) + ([Jump(PopIfFalse, inner.no.value)] + ([Mark(inner.yes.value)] + rest)))
    ensures var r, at := Eval(w.fns, cond, env, fuel), m.pc + |Code(cond, inner, c, next)| + 2;
            if !r.Done? then Stopped(w.code, m, r, fuel, m') else
            |r.vals| == 1 && Moved(w, m, m', r.env, lo) && m'.data == m.data
            && m'.pc == (if r.vals[0] != 0 then at else Find(w.code, inner.no.value))
    ensures At(w.code, m.pc + |Code(cond, inner, c, next)| + 2, rest)
    decreases fuel, cond, 7
  {
    hide Lower, LowerBody, LowerArgs, Listing, ListingAll, Find, Placed, Linked, CoherentFn, FnCode, Reaches, Run, Eval,
         EvalBody, EvalArgs, Coherent, CoherentBody, At, Step, Agrees, Same, Moved, CoherentOperand, Fixnums.Binary,
         Fixnums.Unary;
    var code := Code(cond, inner, c, next);
    var jump, yes := Jump(PopIfFalse, inner.no.value), inner.yes.value;
    AtSplit(w.code, m.pc, code, [jump] + ([Mark(yes)] + rest));
    FirstAt(w.code, m.pc + |code|, jump, [Mark(yes)] + rest);
    FoundAt(w, yes, m.pc + |code| + 1, rest);
    var r := Eval(w.fns, cond, env, fuel);
    m' := SimulateOperand(w, cond, Bool, BothLabels, p, inner, c, next, m, lo, env, fuel);
    if r.Done? {
      var v := r.vals[0];
      if m'.pc == m.pc + |code| && m'.data == m.data + r.vals {
        m' := TakeBranch(w, m, m', r.env, lo, v, PopIfFalse, inner.no.value, v == 0);
      }
      if v != 0 { m' := PassMark(w, m, m', r.env, lo, yes); }
    }
  }

  /** The nodes of a body, each followed by its discard. */
  lemma {:induction false} SimulateBody(w: World, body: seq<Node>, u: LabelUse, p: Place, keepLast: bool, ls: Labels,
                                        c: Unit, next: nat, m: Machine, lo: nat, env: Env, fuel: nat)
    returns (m': Machine)
    requires u.NoLabels? || u.Foreign?
    requires CoherentBody(body, u, p) && Ready(w, u, p, ls, c, m, lo, env)
    requires At(w.code, m.pc, BodyCode(body, keepLast, ls, c, next))
    ensures BodyOutcome(w, ls, c, |BodyCode(body, keepLast, ls, c, next)|, m, lo,
                        EvalBody(w.fns, body, keepLast, env, fuel), fuel, m')
    decreases fuel, body, 0
  {
    hide Lower, LowerBody, Listing, ListingAll, Find, Placed, Linked, FnCode, Reaches, Run, Eval, EvalArgs, Coherent,
         At, Step, Agrees, Same, Moved;
    if body == [] {
      EmptyBody(keepLast, ls, c, next);
      Settle(w, u, p, ls, c, m, lo, env);
      m' := m;
    } else {
      var n, drop := body[0], DropCode(body[0], keepLast && |body| == 1);
      var k := Next(n, ls, c, next);
      var first, rest := Code(n, ls, c, next), BodyCode(body[1..], keepLast, ls, c, k);
      BodyListing(body, keepLast, ls, c, next);
      AtSplit(w.code, m.pc, first, drop + rest);
      AtSplit(w.code, m.pc + |first|, drop, rest);
      var a := Eval(w.fns, n, env, fuel);
      EvalShape(w.fns, n, u, p, env, fuel);
      m' := Simulate(w, n, u, p, ls, c, next, m, lo, env, fuel);
      if a.Done? {
        if drop != [] { m' := SimulateDrop(w, m, m', a.env, lo, a.vals); }
        if |body| > 1 {
          var m1 := m';
          StillReady(w, u, p, ls, c, m, lo, env, m1, a.env);
          m' := SimulateBody(w, body[1..], u, p, keepLast, ls, c, k, m1, lo, a.env, fuel);
          var b := EvalBody(w.fns, body[1..], keepLast, a.env, fuel);
          EscapesOn(w, ls, c, m, m1, lo, a.env, b, fuel, m', ls);
          if b.Done? { MovedOn(w, m, m1, a.env, m', b.env, lo); }
        } else {
          EmptyBody(keepLast, ls, c, k);
        }
      }
    }
  }

  /** Arguments, left to right, each with its value on the stack. */
  lemma {:induction false} SimulateArgs(w: World, args: seq<Node>, u: LabelUse, p: Place, ls: Labels, c: Unit,
                                        next: nat, m: Machine, lo: nat, env: Env, fuel: nat)
    returns (m': Machine)
    requires u.NoLabels? || u.Foreign?
    requires forall i | 0 <= i < |args| :: LeavesValue(args[i]) && CoherentOperand(args[i], TypeOf(args[i]), u, p)
    requires Ready(w, u, p, ls, c, m, lo, env)
    requires At(w.code, m.pc, ArgsCode(args, ls, c, next))
    ensures var r := EvalArgs(w.fns, args, env, fuel);
            if !r.Done? then Stopped(w.code, m, r, fuel, m') else
            Moved(w, m, m', r.env, lo) && m'.data == m.data + r.vals && m'.pc == m.pc + |ArgsCode(args, ls, c, next)|
    decreases fuel, args, 0
  {
    hide Lower, Listing, Find, Placed, Linked, FnCode, Reaches, Run, Eval, EvalBody, Coherent, At, Step, Agrees, Same,
         Moved, CoherentOperand;
    if args == [] {
      Settle(w, u, p, ls, c, m, lo, env);
      m' := m;
    } else {
      var x := args[0];
      var k := Next(x, ls, c, next);
      ArgsListing(args, ls, c, next);
      AtSplit(w.code, m.pc, Code(x, ls, c, next), ArgsCode(args[1..], ls, c, k));
      var a := Eval(w.fns, x, env, fuel);
      m' := SimulateOperand(w, x, TypeOf(x), u, p, ls, c, next, m, lo, env, fuel);
      if a.Done? {
        var m1 := m';
        StillReady(w, u, p, ls, c, m, lo, env, m1, a.env);
        m' := SimulateArgs(w, args[1..], u, p, ls, c, k, m1, lo, a.env, fuel);
        var b := EvalArgs(w.fns, args[1..], a.env, fuel);
        if b.Done? { MovedOn(w, m, m1, a.env, m', b.env, lo); } else { StoppedOn(w, m, m1, a.env, lo, b, fuel, m'); }
      }
    }
  }

  lemma {:induction false} SimulateReturn(w: World, values: seq<Node>, u: LabelUse, p: Place, ls: Labels, c: Unit,
                                          next: nat, m: Machine, lo: nat, env: Env, fuel: nat)
    returns (m': Machine)
    requires u.NoLabels? || u.Foreign?
    requires forall i | 0 <= i < |values| ::
               LeavesValue(values[i]) && CoherentOperand(values[i], TypeOf(values[i]), u, p)
    requires Ready(w, u, p, ls, c, m, lo, env)
    requires At(w.code, m.pc, ArgsCode(values, ls, c, next) + [ReturnCode(c.leave)])
    ensures var r := EvalArgs(w.fns, values, env, fuel);
            if !r.Done? then Stopped(w.code, m, r, fuel, m')
            else Escapes(w, ls, c, m, lo, Returned(r.vals, r.env), fuel, m')
    decreases fuel, Return(values), 0
  {
    hide Lower, LowerBody, LowerArgs, Listing, ListingAll, Find, Placed, CoherentFn, FnCode, Reaches, Run, Eval,
         EvalBody, EvalArgs, Coherent, CoherentBody, At, Step, Agrees, Same, Moved, CoherentOperand, Fixnums.Binary,
         Fixnums.Unary;
    var code := ArgsCode(values, ls, c, next);
    AtSplit(w.code, m.pc, code, [ReturnCode(c.leave)]);
    OneAt(w.code, m.pc + |code|, ReturnCode(c.leave));
    m' := SimulateArgs(w, values, u, p, ls, c, next, m, lo, env, fuel);
  }

  /** If/else as a statement or a value; nothing is asked of how the legs end. */
  lemma {:induction false} SimulateIf(w: World, cond: Node, cons: seq<Node>, alt: seq<Node>, u: LabelUse, p: Place,
                                      ls: Labels, c: Unit, next: nat, m: Machine, lo: nat, env: Env, fuel: nat)
    returns (m': Machine)
    requires CoherentOperand(cond, Bool, BothLabels, p) && CoherentBody(cons, Foreign, p)
    requires CoherentBody(alt, Foreign, p)
    requires Ready(w, u, p, ls, c, m, lo, env) && At(w.code, m.pc, IfCode(cond, cons, alt, ls, c, next))
    ensures var r, keep := Eval(w.fns, cond, env, fuel), cons != [] && alt != [];
            if !r.Done? then Stopped(w.code, m, r, fuel, m') else
            |r.vals| == 1 &&
            BodyOutcome(w, ls, c, |IfCode(cond, cons, alt, ls, c, next)|, m, lo,
              if r.vals[0] != 0 then EvalBody(w.fns, cons, keep, r.env, fuel)
              else EvalBody(w.fns, alt, keep, r.env, fuel), fuel, m')
    decreases fuel, IfElse(cond, cons, alt), 0
  {
    hide Lower, LowerBody, LowerArgs, Listing, ListingAll, Find, Placed, CoherentFn, FnCode, Reaches, Run, Eval,
         EvalBody, EvalArgs, Coherent, CoherentBody, At, Step, Agrees, Same, Moved, CoherentOperand, Fixnums.Binary,
         Fixnums.Unary;
    var inner := IfLabels(ls, next);
    var k := Next(cond, inner, c, next + 2);
    var keep := cons != [] && alt != [];
    var k' := BodyNext(cons, keep, inner, c, k);
    var head, leg, tail :=
      Code(cond, inner, c, next + 2), BodyCode(cons, keep, inner, c, k), IfTail(alt, keep, inner, c, next, k');
    IfReady(w, u, p, ls, c, next, m, lo, env);
    m' := SimulateHead(w, cond, p, inner, c, next + 2, m, lo, env, fuel, leg + tail);
    AtSplit(w.code, m.pc + |head| + 2, leg, tail);
    var r := Eval(w.fns, cond, env, fuel);
    if r.Done? {
      var m1 := m';
      StillReady(w, Foreign, p, inner, c, m, lo, env, m1, r.env);
      if r.vals[0] != 0 {
        m' := SimulateConsequence(w, cons, alt, p, keep, inner, c, next, k, m1, lo, r.env, fuel);
        var b := EvalBody(w.fns, cons, keep, r.env, fuel);
        EscapesOn(w, ls, c, m, m1, lo, r.env, b, fuel, m', inner);
        if b.Done? { MovedOn(w, m, m1, r.env, m', b.env, lo); }
      } else {
        m' := SimulateAlternative(w, alt, p, keep, inner, c, next, k', m.pc + |head| + 2 + |leg|, m1, lo, r.env, fuel);
        var b := EvalBody(w.fns, alt, keep, r.env, fuel);
        EscapesOn(w, ls, c, m, m1, lo, r.env, b, fuel, m', inner);
        if b.Done? { MovedOn(w, m, m1, r.env, m', b.env, lo); }
      }
    }
  }

  /** The taken consequence, and the jump over the alternative. */
  lemma {:induction false} SimulateConsequence(w: World, cons: seq<Node>, alt: seq<Node>, p: Place, keep: bool,
                                               inner: Labels, c: Unit, next: nat, k: nat, m: Machine, lo: nat, env: Env,
                                                   fuel: nat)
    returns (m': Machine)
    requires CoherentBody(cons, Foreign, p) && Ready(w, Foreign, p, inner, c, m, lo, env)
    requires At(w.code, m.pc, BodyCode(cons, keep, inner, c, k))
    requires At(w.code, m.pc + |BodyCode(cons, keep, inner, c, k)|,
                IfTail(alt, keep, inner, c, next, BodyNext(cons, keep, inner, c, k)))
    ensures BodyOutcome(w, inner, c,
                        |BodyCode(cons, keep, inner, c, k)|
                        + |IfTail(alt, keep, inner, c, next, BodyNext(cons, keep, inner, c, k))|,
                        m, lo, EvalBody(w.fns, cons, keep, env, fuel), fuel, m')
    decreases fuel, cons, 1
  {
    hide Lower, LowerBody, LowerArgs, Listing, ListingAll, Find, Placed, CoherentFn, FnCode, Reaches, Run, Eval,
         EvalBody, EvalArgs, Coherent, CoherentBody, At, Step, Agrees, Same, Moved, CoherentOperand, Fixnums.Binary,
         Fixnums.Unary;
    var k' := BodyNext(cons, keep, inner, c, k);
    var at := m.pc + |BodyCode(cons, keep, inner, c, k)|;
    m' := SimulateBody(w, cons, Foreign, p, keep, inner, c, k, m, lo, env, fuel);
    var b := EvalBody(w.fns, cons, keep, env, fuel);
    if b.Done? {
      if alt == [] {
        OneAt(w.code, at, Mark(next));
        m' := PassMark(w, m, m', b.env, lo, next);
      } else {
        TailPlaces(w, at, next, BodyCode(alt, keep, inner, c, k' + 1), k');
        m' := TakeJump(w, m, m', b.env, lo, k');
        m' := PassMark(w, m, m', b.env, lo, k');
      }
    }
  }

  /** The alternative, from its label to the end of the if. */
  lemma {:induction false} SimulateAlternative(w: World, alt: seq<Node>, p: Place, keep: bool, inner: Labels, c: Unit,
                                               next: nat, k': nat, at: nat, m: Machine, lo: nat, env: Env, fuel: nat)
    returns (m': Machine)
    requires CoherentBody(alt, Foreign, p) && Ready(w, Foreign, p, inner, c, m, lo, env)
    requires At(w.code, at, IfTail(alt, keep, inner, c, next, k')) && m.pc == Find(w.code, next)
    ensures var b := EvalBody(w.fns, alt, keep, env, fuel);
            if b.Done? then
              && Moved(w, m, m', b.env, lo) && m'.data == m.data + b.vals
              && m'.pc == at + |IfTail(alt, keep, inner, c, next, k')|
            else Escapes(w, inner, c, m, lo, b, fuel, m')
    decreases fuel, alt, 1
  {
    hide Lower, LowerBody, LowerArgs, Listing, ListingAll, Find, Placed, CoherentFn, FnCode, Reaches, Run, Eval,
         EvalBody, EvalArgs, Coherent, CoherentBody, At, Step, Agrees, Same, Moved, CoherentOperand, Fixnums.Binary,
         Fixnums.Unary;
    Settle(w, Foreign, p, inner, c, m, lo, env);
    if alt == [] {
      LastMark(w, next, at);
      m' := PassMark(w, m, m, env, lo, next);
      EvalEmpty(w.fns, keep, env, fuel);
    } else {
      var other := BodyCode(alt, keep, inner, c, k' + 1);
      TailPlaces(w, at, next, other, k');
      var m1 := PassMark(w, m, m, env, lo, next);
      StillReady(w, Foreign, p, inner, c, m, lo, env, m1, env);
      m' := SimulateBody(w, alt, Foreign, p, keep, inner, c, k' + 1, m1, lo, env, fuel);
      var b := EvalBody(w.fns, alt, keep, env, fuel);
      EscapesOn(w, inner, c, m, m1, lo, env, b, fuel, m', inner);
      if b.Done? {
        MovedOn(w, m, m1, env, m', b.env, lo);
        m' := PassMark(w, m, m', b.env, lo, k');
      }
    }
  }

  /** A loop, by induction on the fuel its rounds use up. */
  lemma {:induction false} SimulateWhile(w: World, cond: Node, body: seq<Node>, u: LabelUse, p: Place, ls: Labels,
                                         c: Unit, next: nat, m: Machine, lo: nat, env: Env, fuel: nat)
    returns (m': Machine)
    requires CoherentOperand(cond, Bool, BothLabels, p) && CoherentBody(body, Foreign, p.(loop := true))
    requires Ready(w, u, p, ls, c, m, lo, env) && At(w.code, m.pc, WhileCode(cond, body, c, next))
    ensures BodyOutcome(w, ls, c, |WhileCode(cond, body, c, next)|, m, lo, Eval(w.fns, While(cond, body), env, fuel),
                        fuel, m')
    decreases fuel, While(cond, body), 0
  {
    hide Lower, LowerBody, LowerArgs, Listing, ListingAll, Find, Placed, CoherentFn, FnCode, Reaches, Run, Eval,
         EvalBody, EvalArgs, Coherent, CoherentBody, At, Step, Agrees, Same, Moved, CoherentOperand, Fixnums.Binary,
         Fixnums.Unary;
    var inner := WhileLabels(next);
    var k := Next(cond, inner, c, next + 3);
    var head, code := Code(cond, inner, c, next + 3), BodyCode(body, false, inner, c, k);
    WhilePlaces(w, m.pc, next, head, code);
    EvalWhileStops(w.fns, cond, body, env, fuel);
    m' := m;
    LastsZero(w.code, m);
    if fuel > 0 {
      Settle(w, u, p, ls, c, m, lo, env);
      var m0 := PassMark(w, m, m, env, lo, next);
      StillReady(w, u, p, ls, c, m, lo, env, m0, env);
      WhileReady(w, u, p, ls, c, next, m0, lo, env);
      m' :=
        SimulateHead(w, cond, p, inner, c, next + 3, m0, lo, env, fuel,
                     code + ([Jump(Always, next)] + [Mark(next + 2)]));
      var r := Eval(w.fns, cond, env, fuel);
      if r.Done? {
        var m1 := m';
        MovedOn(w, m, m0, env, m1, r.env, lo);
        EvalWhile(w.fns, cond, body, env, fuel);
        if r.vals[0] == 0 {
          m' := PassMark(w, m, m1, r.env, lo, next + 2);
        } else {
          StillReady(w, u, p, ls, c, m, lo, env, m1, r.env);
          m' := SimulateRound(w, cond, body, u, p, ls, c, next, m, m1, lo, r.env, fuel);
        }
      } else {
        StoppedOn(w, m, m0, env, lo, r, fuel, m');
      }
    }
  }

  /** The body of a loop whose condition was true, and what follows it. */
  lemma {:induction false} SimulateRound(w: World, cond: Node, body: seq<Node>, u: LabelUse, p: Place, ls: Labels,
                                         c: Unit, next: nat, m: Machine, m1: Machine, lo: nat, env: Env, fuel: nat)
    returns (m': Machine)
    requires fuel > 0
    requires CoherentOperand(cond, Bool, BothLabels, p) && CoherentBody(body, Foreign, p.(loop := true))
    requires At(w.code, m.pc, WhileCode(cond, body, c, next))
    requires Ready(w, u, p, ls, c, m1, lo, env) && Moved(w, m, m1, env, lo) && m1.data == m.data
    requires m1.pc == m.pc + 3 + |Code(cond, WhileLabels(next), c, next + 3)|
    ensures var b, len := EvalBody(w.fns, body, false, env, fuel), |WhileCode(cond, body, c, next)|;
            BodyOutcome(w, ls, c, len, m, lo,
                        match b
                        case Done(_, e) => Eval(w.fns, While(cond, body), e, fuel - 1)
                        case Continued(e) => Eval(w.fns, While(cond, body), e, fuel - 1)
                        case Broke(e) => Done([], e)
                        case _ => b, fuel, m')
    decreases fuel, body, 1
  {
    hide Lower, LowerBody, LowerArgs, Listing, ListingAll, Find, Placed, CoherentFn, FnCode, Reaches, Run, Eval,
         EvalBody, EvalArgs, Coherent, CoherentBody, At, Step, Agrees, Same, Moved, CoherentOperand, Fixnums.Binary,
         Fixnums.Unary;
    var inner := WhileLabels(next);
    var k := Next(cond, inner, c, next + 3);
    var head, code := Code(cond, inner, c, next + 3), BodyCode(body, false, inner, c, k);
    WhilePlaces(w, m.pc, next, head, code);
    WhileReady(w, u, p, ls, c, next, m1, lo, env);
    var b := EvalBody(w.fns, body, false, env, fuel);
    EvalBodyShape(w.fns, body, Foreign, p.(loop := true), false, env, fuel);
    m' := SimulateBody(w, body, Foreign, p.(loop := true), false, inner, c, k, m1, lo, env, fuel);
    EscapesOn(w, inner, c, m, m1, lo, env, b, fuel, m', inner);
    if b.Done? { m' := TakeJump(w, m1, m', b.env, lo, next); }
    if b.Broke? {
      m' := PassMark(w, m, m', b.env, lo, next + 2);
    } else if b.Done? || b.Continued? {
      var m2 := m';
      MovedOn(w, m, m1, env, m2, b.env, lo);
      StillReadyFrom(w, u, p, ls, c, m1, lo, env, m, m2, b.env);
      m' := SimulateWhile(w, cond, body, u, p, ls, c, next, m2, lo, b.env, fuel - 1);
      var again := Eval(w.fns, While(cond, body), b.env, fuel - 1);
      RoundOn(w, ls, c, m, m1, m2, lo, env, b.env, again, fuel - 1, m');
      if again.Done? { MovedOn(w, m, m2, b.env, m', again.env, lo); }
    }
  }

  /** Arguments and call: the arguments are replaced by the result, the caller's part is as before. */
  lemma {:induction false} SimulateCall(w: World, f: nat, args: seq<Node>, u: LabelUse, p: Place, ls: Labels, c: Unit,
                                        next: nat, m: Machine, lo: nat, env: Env, fuel: nat)
    returns (m': Machine)
    requires u.NoLabels? || u.Foreign?
    requires f < |p.callable| && p.callable[f].arity == |args|
    requires forall i | 0 <= i < |args| :: LeavesValue(args[i]) && CoherentOperand(args[i], TypeOf(args[i]), u, p)
    requires Ready(w, u, p, ls, c, m, lo, env)
    requires f < |c.entry| && At(w.code, m.pc, ArgsCode(args, ls, c, next) + [CallCode(c.entry[f])])
    ensures var a := EvalArgs(w.fns, args, env, fuel);
            if !a.Done? then Stopped(w.code, m, a, fuel, m') else
            if fuel == 0 then Stopped(w.code, m, OutOfFuel, fuel, m') else
            var b := EvalBody(w.fns, w.fns[f].body, false, Entered(a.env, a.vals, w.fns[f].localsCount), fuel - 1);
            if !b.Done? && !b.Returned? then Stopped(w.code, m, b, fuel, m') else
            && m'.data == m.data + (if b.Returned? then b.vals else [])
            && m'.pc == m.pc + |ArgsCode(args, ls, c, next)| + 1
            && Moved(w, m, m', Left(a.env, b.env), lo)
    decreases fuel, args, 1
  {
    hide Lower, LowerBody, LowerArgs, Listing, ListingAll, Find, Placed, FnCode, Reaches, Run, Eval, EvalBody, EvalArgs,
         Coherent, CoherentBody, At, Step, Agrees, Same, Moved, CoherentOperand, CoherentFn, Linked;
    var code := ArgsCode(args, ls, c, next);
    AtSplit(w.code, m.pc, code, [CallCode(c.entry[f])]);
    OneAt(w.code, m.pc + |code|, CallCode(c.entry[f]));
    m' := SimulateArgs(w, args, u, p, ls, c, next, m, lo, env, fuel);
    var a := EvalArgs(w.fns, args, env, fuel);
    LastsZero(w.code, m);
    if a.Done? && fuel > 0 {
      EvalArgsShape(w.fns, args, env, fuel);
      assert w.fns[f] == p.callable[f] && w.entry[f] == c.entry[f];
      StillReady(w, u, p, ls, c, m, lo, env, m', a.env);
      var b := EvalBody(w.fns, w.fns[f].body, false, Entered(a.env, a.vals, w.fns[f].localsCount), fuel - 1);
      var m1 := m';
      m' := SimulateFn(w, f, a.vals, m1, lo, a.env, m.data, fuel - 1);
      if b.Done? || b.Returned? {
        MovedOn(w, m, m1, a.env, m', Left(a.env, b.env), lo);
      } else {
        StoppedOn(w, m, m1, a.env, lo, b, fuel, m');
      }
    }
  }

  /** From the call instruction to the callee's body, the arguments now in its first slots. */
  lemma SimulateProlog(w: World, f: nat, vals: seq<Fixnum>, m: Machine, lo: nat, env: Env, d: seq<Fixnum>)
    returns (m': Machine)
    requires Linked(w) && f < |w.fns| && |vals| == w.fns[f].arity && Agrees(m, env, lo)
    requires m.pc < |w.code| && w.code[m.pc] == CallCode(w.entry[f]) && m.data == d + vals
    ensures var fn, top := w.fns[f], m.localsTop;
            && Reaches(w.code, m, m') && Agrees(m', Entered(env, vals, fn.localsCount), top)
            && m'.pc == w.at[f] + 2 + |FnProlog(fn)| + fn.arity && m'.data == d
            && FirstSlots(m'.locals, top, vals)
            && m'.localsTop == top + fn.localsCount && m'.calls == m.calls + [m.pc + 1]
            && m'.frames == m.frames + (if fn.localsCount > 0 then [top] else [])
            && (forall a: nat | a < top ::
                  (a in m.locals <==> a in m'.locals) && (a in m.locals ==> m'.locals[a] == m.locals[a]))
  {
    hide Storing, Parameters, Find, Placed, FnCode, Reaches, Run, Coherent, At, Step, From, Above, BodyCode;
    var fn, top := w.fns[f], m.localsTop;
    assert CoherentFn(w.fns, f);
    FnPlaces(w, f);
    var m1 := EnterFn(w, f, m, lo, env);
    var above := Above(env.locals, env.count);
    var start := Env(env.globals, above, fn.localsCount);
    Stay(w, m1, start, top);
    assert vals[..|vals|] == vals;
    StoredAll(above, vals);
    m' := SimulateStores(w, fn.arity, vals, above, m1, m1, top, start, d);
    Chain(w.code, m, m1, m');
    ParametersFirst(m'.locals, top, above, vals);
  }

  /** The values lie in the slots from `lo` on, in their order. */
  ghost predicate FirstSlots(slots: map<nat, Fixnum>, lo: nat, vals: seq<Fixnum>) {
    forall i: nat | i < |vals| :: Slot(lo, i) in slots && slots[Slot(lo, i)] == vals[i]
  }

  lemma ParametersFirst(slots: map<nat, Fixnum>, lo: nat, above: imap<nat, Fixnum>, vals: seq<Fixnum>)
    requires From(slots, lo) == above + Parameters(vals)
    ensures FirstSlots(slots, lo, vals)
  {
    var a := From(slots, lo);
    forall i: nat | i < |vals| ensures Slot(lo, i) in slots && slots[Slot(lo, i)] == vals[i] {
      assert i in a && a[i] == vals[i];
    }
  }

  /** A whole call, from the call instruction to the one after it. */
  lemma {:induction false} SimulateFn(w: World, f: nat, vals: seq<Fixnum>, m: Machine, lo: nat, env: Env,
                                      d: seq<Fixnum>, fuel: nat)
    returns (m': Machine)
    requires Linked(w) && f < |w.fns| && |vals| == w.fns[f].arity && Agrees(m, env, lo)
    requires m.pc < |w.code| && w.code[m.pc] == CallCode(w.entry[f]) && m.data == d + vals
    ensures var b := EvalBody(w.fns, w.fns[f].body, false, Entered(env, vals, w.fns[f].localsCount), fuel);
            if !b.Done? && !b.Returned? then Stopped(w.code, m, b, fuel + 1, m') else
            && m'.data == d + (if b.Returned? then b.vals else []) && m'.pc == m.pc + 1
            && Moved(w, m, m', Left(env, b.env), lo) && Same(m, m', m.localsTop)
    decreases fuel, w.fns[f].body, 2
  {
    hide Lower, LowerBody, LowerArgs, Listing, ListingAll, Find, Placed, FnCode, Reaches, Run, Eval, EvalBody, EvalArgs,
         Coherent, At, Step, From, Above, Joined, Linked, BodyCode, Callable;
    var fn := w.fns[f];
    var leave := fn.localsCount > 0;
    var top := m.localsTop;
    var m1 := SimulateProlog(w, f, vals, m, lo, env, d);
    var inside := Entered(env, vals, fn.localsCount);
    m' := SimulateInside(w, f, m1, top, inside, fuel);
    var b := EvalBody(w.fns, fn.body, false, inside, fuel);
    if b.Done? || b.Returned? {
      Chain(w.code, m, m1, m');
      m' := LeaveFn(w, m, lo, env, m', b.env, leave);
    } else {
      StoppedLater(w, m, m1, b, fuel, m');
    }
  }

  /** A function's body, up to a return instruction. */
  lemma {:induction false} SimulateInside(w: World, f: nat, m: Machine, lo: nat, env: Env, fuel: nat)
    returns (m': Machine)
    requires Linked(w) && f < |w.fns| && Agrees(m, env, lo) && env.count == w.fns[f].localsCount
    requires m.pc == w.at[f] + 2 + |FnProlog(w.fns[f])| + w.fns[f].arity
    ensures var b := EvalBody(w.fns, w.fns[f].body, false, env, fuel);
            if !b.Done? && !b.Returned? then Stopped(w.code, m, b, fuel, m') else
            && m'.data == m.data + (if b.Returned? then b.vals else []) && Moved(w, m, m', b.env, lo)
            && m'.pc < |w.code| && w.code[m'.pc] == ReturnCode(w.fns[f].localsCount > 0)
    decreases fuel, w.fns[f].body, 1
  {
    hide Lower, LowerBody, LowerArgs, Listing, ListingAll, Find, Placed, FnCode, Reaches, Run, Eval, EvalBody, EvalArgs,
         Coherent, At, Step, From, Same;
    var fn := w.fns[f];
    var leave := fn.localsCount > 0;
    assert CoherentFn(w.fns, f);
    FnPlaces(w, f);
    var c := Unit(w.entry[..f + 1], leave);
    var p := Place(false, Some(fn.result), fn.localsCount, w.fns[..f + 1]);
    m' := SimulateBody(w, fn.body, NoLabels, p, false, NO_LABELS, c, w.entry[f] + 2, m, lo, env, fuel);
    var b := EvalBody(w.fns, fn.body, false, env, fuel);
    EvalBodyShape(w.fns, fn.body, NoLabels, p, false, env, fuel);
    if b.Done? {
      EvalBodyReturns(w.fns, fn.body, false, env, fuel);
      OneAt(w.code, m'.pc, ReturnCode(leave));
    }
  }
}
