/**
 The data stack along the way: at no step of a node's or a body's execution does the machine
 touch what lay on the stack when it was entered, whether the node ends, is left by a break, a
 continue or a return, faults, or never ends; and where it ends or is left the stack is exactly
 as much higher as there are values.
 */
module StackDiscipline {
  import opened Wrappers
  import opened Fixnums
  import Arithmetic
  import opened Ast
  import opened Evaluation
  import opened Ir
  import opened Lowering
  import opened LabelDiscipline
  import opened Machines
  import opened SimulationSteps
  import opened Simulation
  import opened ProgramCorrect

  /** After each of the first `k` steps the stack is `below` and something on top of it. */
  ghost predicate StaysAbove(code: seq<Ins>, below: seq<Fixnum>, m: Machine, k: nat) {
    forall j: nat | j <= k :: Run(code, m, j).Some? && below <= Run(code, m, j).value.data
  }

  lemma {:induction false} RunPrefix(code: seq<Ins>, m: Machine, k: nat, j: nat)
    requires Run(code, m, k).Some? && j <= k
    ensures Run(code, m, j).Some?
    decreases j
  {
    hide Step;
    if j > 0 { RunPrefix(code, Step(code, m).value, k - 1, j - 1); }
  }

  /** What runs from an empty stack runs on top of anything without touching it. */
  lemma LiftRun(code: seq<Ins>, m: Machine, end: Machine) returns (k: nat)
    requires Reaches(code, m.(data := []), end)
    ensures Run(code, m, k) == Some(end.(data := m.data + end.data)) && StaysAbove(code, m.data, m, k)
  {
    hide Run;
    k :| Run(code, m.(data := []), k) == Some(end);
    LiftSteps(code, m, k);
  }

  lemma LiftSteps(code: seq<Ins>, m: Machine, k: nat)
    requires Run(code, m.(data := []), k).Some?
    ensures var end := Run(code, m.(data := []), k).value; Run(code, m, k) == Some(end.(data := m.data + end.data))
    ensures StaysAbove(code, m.data, m, k)
  {
    hide Run;
    var m0, below := m.(data := []), m.data;
    assert Under(below, m0) == m;
    RunUnder(code, below, m0, k);
    forall j: nat | j <= k ensures Run(code, m, j).Some? && below <= Run(code, m, j).value.data {
      RunPrefix(code, m0, k, j);
      RunUnder(code, below, m0, j);
    }
  }

  /** A run that lasts from an empty stack lasts on top of anything. */
  lemma LiftLasts(code: seq<Ins>, m: Machine, fuel: nat) returns (k: nat)
    requires Lasts(code, m.(data := []), fuel)
    ensures fuel <= k && Run(code, m, k).Some? && StaysAbove(code, m.data, m, k)
  {
    hide Run;
    var m0 := m.(data := []);
    k :| fuel <= k && Run(code, m0, k).Some?;
    LiftSteps(code, m, k);
  }

  lemma BlockedUnder(code: seq<Ins>, below: seq<Fixnum>, m: Machine)
    requires Blocked(code, m)
    ensures Blocked(code, m.(data := below + m.data))
  {
    hide Fixnums.Binary;
  }

  /** How a run of `k` steps from `m` to `m'` that does not simply end has left the stack. */
  ghost predicate LeavesOff(w: World, ls: Labels, c: Unit, m: Machine, r: Result, fuel: nat, k: nat, m': Machine) {
    match r
    case Done(_, _) => true
    case OutOfFuel => fuel <= k
    case Fault => Blocked(w.code, m')
    case Broke(_) => m'.data == m.data && m'.pc == Find(w.code, Get(ls.brk))
    case Continued(_) => m'.data == m.data && m'.pc == Find(w.code, Get(ls.cont))
    case Returned(vals, _) => m'.data == m.data + vals && m'.pc < |w.code| && w.code[m'.pc] == ReturnCode(c.leave)
  }

  lemma LiftEscape(w: World, ls: Labels, c: Unit, m: Machine, lo: nat, r: Result, fuel: nat, end: Machine)
    returns (m': Machine, k: nat)
    requires Escapes(w, ls, c, m.(data := []), lo, r, fuel, end) && !r.Done?
    ensures Run(w.code, m, k) == Some(m') && StaysAbove(w.code, m.data, m, k) && LeavesOff(w, ls, c, m, r, fuel, k, m')
  {
    hide Run, Agrees, Same, StaysAbove, Blocked, Reaches, Lasts, Find;
    if r.OutOfFuel? {
      k := LiftLasts(w.code, m, fuel);
      m' := Run(w.code, m, k).value;
    } else {
      k := LiftRun(w.code, m, end);
      m' := end.(data := m.data + end.data);
      assert m.data + [] == m.data;
      if r.Fault? { BlockedUnder(w.code, m.data, end); }
    }
  }

  /**
   A coherent body, whatever its evaluation comes to: it ends at the height it started at, plus
   the value of a last node that is kept, or is left as the result says, and stays above all along.
   */
  lemma BodyStack(w: World, body: seq<Node>, u: LabelUse, p: Place, keepLast: bool, ls: Labels, c: Unit, next: nat,
                  m: Machine, lo: nat, env: Env, fuel: nat) returns (m': Machine, k: nat)
    requires u.NoLabels? || u.Foreign?
    requires CoherentBody(body, u, p) && Ready(w, u, p, ls, c, m, lo, env)
    requires At(w.code, m.pc, BodyCode(body, keepLast, ls, c, next))
    ensures Run(w.code, m, k) == Some(m') && StaysAbove(w.code, m.data, m, k)
    ensures LeavesOff(w, ls, c, m, EvalBody(w.fns, body, keepLast, env, fuel), fuel, k, m')
    ensures EvalBody(w.fns, body, keepLast, env, fuel).Done? ==>
              m'.pc == m.pc + |BodyCode(body, keepLast, ls, c, next)|
              && |m'.data| == |m.data| + BodyLeaves(body, keepLast)
  {
    hide Lower, LowerBody, Listing, ListingAll, Find, Placed, Linked, FnCode, Reaches, Run, Eval, EvalBody, Coherent,
         At, Step, StaysAbove, BodyCode, Stopped;
    var m0, r := m.(data := []), EvalBody(w.fns, body, keepLast, env, fuel);
    var end := SimulateBody(w, body, u, p, keepLast, ls, c, next, m0, lo, env, fuel);
    EvalBodyShape(w.fns, body, u, p, keepLast, env, fuel);
    if r.Done? {
      k := LiftRun(w.code, m, end);
      m' := end.(data := m.data + end.data);
    } else {
      m', k := LiftEscape(w, ls, c, m, lo, r, fuel, end);
    }
  }

  /**
   A coherent node, whatever its evaluation comes to: it ends one value higher if it leaves one,
   or at a label of its head at the height it started at, or is left as the result says.
   */
  lemma NodeStack(w: World, n: Node, u: LabelUse, p: Place, ls: Labels, c: Unit, next: nat,
                  m: Machine, lo: nat, env: Env, fuel: nat) returns (m': Machine, k: nat)
    requires Coherent(n, u, p) && Ready(w, u, p, ls, c, m, lo, env)
    requires At(w.code, m.pc, Code(n, ls, c, next))
    ensures Run(w.code, m, k) == Some(m') && StaysAbove(w.code, m.data, m, k)
    ensures LeavesOff(w, ls, c, m, Eval(w.fns, n, env, fuel), fuel, k, m')
    ensures Eval(w.fns, n, env, fuel).Done? ==>
              || (m'.pc == m.pc + |Code(n, ls, c, next)| && |m'.data| == |m.data| + Leaves(n))
              || ((u.TrueLabel? || u.BothLabels?) && m'.data == m.data
                  && (m'.pc == Find(w.code, Get(ls.yes)) || m'.pc == Find(w.code, Get(ls.no))))
  {
    hide Lower, LowerBody, Listing, ListingAll, Find, Placed, Linked, FnCode, Reaches, Run, Eval, EvalBody, Coherent,
         At, Step, StaysAbove, Code, Stopped;
    var m0, r := m.(data := []), Eval(w.fns, n, env, fuel);
    var end := Simulate(w, n, u, p, ls, c, next, m0, lo, env, fuel);
    EvalShape(w.fns, n, u, p, env, fuel);
    if r.Done? {
      k := LiftRun(w.code, m, end);
      m' := end.(data := m.data + end.data);
      assert m.data + [] == m.data;
    } else {
      m', k := LiftEscape(w, ls, c, m, lo, r, fuel, end);
    }
  }

  // ----- whole programs -----

  /** Nothing runs past a stop. */
  lemma StopsFirst(code: seq<Ins>, m: Machine, a: nat, b: nat)
    requires Run(code, m, a).Some? && Step(code, Run(code, m, a).value) == None && Run(code, m, b).Some?
    ensures b <= a
  {
    hide Step;
    if a < b { RunAdd(code, m, a, b - a, Run(code, m, a).value); }
  }

  /**
   A program's machine is never stuck for want of an operand: wherever it can go no further it is
   at the halt, or at an instruction that has its operands and no result for them.
   */
  lemma NeverStarved(prog: Program, k: nat)
    requires CoherentProgram(prog) && Run(ProgramCode(prog), INITIAL, k).Some?
    ensures var code, m := ProgramCode(prog), Run(ProgramCode(prog), INITIAL, k).value;
            Step(code, m) == None ==>
              m.pc < |code| &&
              match code[m.pc]
              case Halt => true
              case Operate(op) =>
                |m.data| >= 2 && Arithmetic.HasNone(op, m.data[|m.data| - 2], m.data[|m.data| - 1])
              case Load(Global, index) => index !in m.globals
              case Load(Local, index) => m.base.Some? && m.base.value + index !in m.locals
              case _ => false
  {
    hide CoherentProgram, EvalProgram, Step, Run, Blocks, ProgramCode, Arithmetic.HasNone;
    var code, r := ProgramCode(prog), EvalProgram(prog, k + 1);
    var m := Run(code, INITIAL, k).value;
    var end := ProgramRuns(prog, k + 1);
    if Step(code, m) == None {
      if r.OutOfFuel? {
        NoLonger(code, INITIAL, k);
      } else {
        var n: nat :| Run(code, INITIAL, n) == Some(end);
        Stops(code, end);
        StopsFirst(code, INITIAL, k, n);
        StopsFirst(code, INITIAL, n, k);
        BlocksMeans(code[m.pc], m);
      }
    }
  }

  lemma Stops(code: seq<Ins>, m: Machine)
    requires (m.pc < |code| && code[m.pc] == Halt) || Blocked(code, m)
    ensures Step(code, m) == None
  {
    if Blocked(code, m) { BlockedStops(code, m); }
  }

  lemma NoLonger(code: seq<Ins>, m: Machine, k: nat)
    requires Run(code, m, k).Some? && Step(code, Run(code, m, k).value) == None
    ensures !Lasts(code, m, k + 1)
  {
    hide Step;
    if n: nat :| k + 1 <= n && Run(code, m, n).Some? { StopsFirst(code, m, k, n); }
  }

  /** An if/else as a statement, with legs of any kind: what it leaves on the stack behind it. */
  lemma IfStack(w: World, cond: Node, cons: seq<Node>, alt: seq<Node>, u: LabelUse, p: Place, ls: Labels, c: Unit,
                next: nat,
                m: Machine, lo: nat, env: Env, fuel: nat) returns (m': Machine)
    requires CoherentOperand(cond, Bool, BothLabels, p) && CoherentBody(cons, Foreign, p)
    requires CoherentBody(alt, Foreign, p)
    requires Ready(w, u, p, ls, c, m, lo, env)
    requires At(w.code, m.pc, IfCode(cond, cons, alt, ls, c, next) + DropCode(IfElse(cond, cons, alt), false))
    requires Eval(w.fns, IfElse(cond, cons, alt), env, fuel).Done?
    ensures var n, keep := IfElse(cond, cons, alt), cons != [] && alt != [];
            var leg := if Eval(w.fns, cond, env, fuel).vals[0] != 0 then cons else alt;
            && Reaches(w.code, m, m') && m'.pc == m.pc + |IfCode(cond, cons, alt, ls, c, next)| + |DropCode(n, false)|
            && |m'.data| == |m.data| + BodyLeaves(leg, keep) - Leaves(n)
  {
    hide Lower, LowerBody, Listing, ListingAll, Find, Placed, Linked, FnCode, Reaches, Run, EvalBody, Coherent, At,
         Step, IfCode;
    var n, code, keep := IfElse(cond, cons, alt), IfCode(cond, cons, alt, ls, c, next), cons != [] && alt != [];
    AtSplit(w.code, m.pc, code, DropCode(n, false));
    m' := SimulateIf(w, cond, cons, alt, u, p, ls, c, next, m, lo, env, fuel);
    var r := Eval(w.fns, cond, env, fuel);
    EvalBodyShape(w.fns, if r.vals[0] != 0 then cons else alt, Foreign, p, keep, r.env, fuel);
    if Leaves(n) == 1 {
      var m1 := m';
      OneAt(w.code, m1.pc, Ins.Drop(1));
      m' := m1.(pc := m1.pc + 1, data := m1.data[..|m1.data| - 1]);
      DropStep(w.code, m1);
      Extend(w.code, m, m1, m');
    }
  }

  lemma DropStep(code: seq<Ins>, m: Machine)
    requires m.pc < |code| && code[m.pc] == Ins.Drop(1) && m.data != []
    ensures Step(code, m) == Some(m.(pc := m.pc + 1, data := m.data[..|m.data| - 1]))
  {
  }

  lemma LegsAgree(cond: Node, cons: seq<Node>, alt: seq<Node>)
    ensures var n, keep := IfElse(cond, cons, alt), cons != [] && alt != [];
            (BodyLeaves(cons, keep) == Leaves(n) && BodyLeaves(alt, keep) == Leaves(n))
            <==> (keep && (LastLeavesValue(cons) || LastLeavesValue(alt)) ==> TypeOf(n) != Void)
  {
    var n, keep := IfElse(cond, cons, alt), cons != [] && alt != [];
    if keep && TypeOf(n) != Void {
      assert LeavesValue(cons[|cons| - 1]) && LeavesValue(alt[|alt| - 1]);
    }
  }

  /**
   An if/else as a statement, run once with its condition true and once with it false: both runs
   leave the stack as high as it was exactly under the condition of the coherent fragment. With
   both legs non-empty, either both end in values of one type, or neither in a value.
   */
  lemma MixedLegs(w: World, cond: Node, cons: seq<Node>, alt: seq<Node>, u: LabelUse, p: Place, ls: Labels, c: Unit,
                  next: nat,
                  m1: Machine, env1: Env, m2: Machine, env2: Env, lo: nat,
                      fuel: nat) returns (m1': Machine, m2': Machine)
    requires CoherentOperand(cond, Bool, BothLabels, p) && CoherentBody(cons, Foreign, p)
    requires CoherentBody(alt, Foreign, p)
    requires Ready(w, u, p, ls, c, m1, lo, env1) && Ready(w, u, p, ls, c, m2, lo, env2) && m1.pc == m2.pc
    requires At(w.code, m1.pc, IfCode(cond, cons, alt, ls, c, next) + DropCode(IfElse(cond, cons, alt), false))
    requires Eval(w.fns, IfElse(cond, cons, alt), env1, fuel).Done? && Eval(w.fns, cond, env1, fuel).vals[0] != 0
    requires Eval(w.fns, IfElse(cond, cons, alt), env2, fuel).Done? && Eval(w.fns, cond, env2, fuel).vals[0] == 0
    ensures var n, len := IfElse(cond, cons, alt), |IfCode(cond, cons, alt, ls, c, next)|;
            && Reaches(w.code, m1, m1') && m1'.pc == m1.pc + len + |DropCode(n, false)|
            && Reaches(w.code, m2, m2') && m2'.pc == m2.pc + len + |DropCode(n, false)|
            && ((|m1'.data| == |m1.data| && |m2'.data| == |m2.data|)
                <==> (cons != [] && alt != [] && (LastLeavesValue(cons) || LastLeavesValue(alt)) ==> TypeOf(n) != Void))
  {
    hide *;
    m1' := IfStack(w, cond, cons, alt, u, p, ls, c, next, m1, lo, env1, fuel);
    m2' := IfStack(w, cond, cons, alt, u, p, ls, c, next, m2, lo, env2, fuel);
    LegsAgree(cond, cons, alt);
  }
}
