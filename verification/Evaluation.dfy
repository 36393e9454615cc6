/**
 What a syntax tree means: a big-step evaluator. Loop iterations and calls consume fuel; a
 program terminates when some amount of fuel suffices.
 */
module Evaluation {
  import opened Wrappers
  import opened Fixnums
  import Arithmetic
  import opened Ast

  /**
   What the slots hold. `locals` counts from the current frame's first slot; the frame has
   `count` slots, and above them lies what earlier calls left behind, which the next call finds
   in its own slots until it stores to them. A slot that was never stored to is absent.
   */
  datatype Env = Env(globals: map<nat, Fixnum>, locals: imap<nat, Fixnum>, count: nat)

  /** Slot `i` of a frame that starts at `lo`. */
  function Slot(lo: nat, i: nat): nat { lo + i }

  /** The slots from `count` on, counted from there. */
  ghost function Above(slots: imap<nat, Fixnum>, count: nat): imap<nat, Fixnum> {
    imap i: nat | Slot(count, i) in slots :: slots[Slot(count, i)]
  }

  /** A call with `vals` in the first of the callee's `count` slots. */
  ghost function Entered(env: Env, vals: seq<Fixnum>, count: nat): Env {
    Env(env.globals, Above(env.locals, env.count) + Parameters(vals), count)
  }

  /** The first `count` slots as they are in `below`, the others as `above` counts them. */
  ghost function Joined(below: imap<nat, Fixnum>, count: nat, above: imap<nat, Fixnum>): imap<nat, Fixnum> {
    imap i: nat | (if i < count then i in below else i - count in above) ::
      if i < count then below[i] else above[i - count]
  }

  /** Back in the caller: its frame is as before, what the callee left lies above it. */
  ghost function Left(env: Env, callee: Env): Env {
    Env(callee.globals, Joined(env.locals, env.count, callee.locals), env.count)
  }

  /** A call changes nothing in its caller's frame. */
  lemma CallKeepsFrame(env: Env, callee: Env, i: nat)
    requires i < env.count
    ensures i in Left(env, callee).locals <==> i in env.locals
    ensures i in env.locals ==> Left(env, callee).locals[i] == env.locals[i]
  {
  }

  /** `vals` holds what the node leaves behind: one value, or nothing for a void node. */
  datatype Result =
    | OutOfFuel
    | Fault
    | Done(vals: seq<Fixnum>, env: Env)
    | Broke(env: Env)
    | Continued(env: Env)
    | Returned(vals: seq<Fixnum>, env: Env)

  function Read(scope: Scope, index: nat, env: Env): Option<Fixnum> {
    match scope
    case Global => if index in env.globals then Some(env.globals[index]) else None
    case Local => if index in env.locals then Some(env.locals[index]) else None
  }

  function Write(scope: Scope, index: nat, v: Fixnum, env: Env): Env {
    match scope
    case Global => env.(globals := env.globals[index := v])
    case Local => env.(locals := env.locals[index := v])
  }

  ghost function Parameters(vals: seq<Fixnum>): imap<nat, Fixnum> {
    imap i: nat | i < |vals| :: vals[i]
  }

  ghost function Eval(fns: seq<FnDef>, n: Node, env: Env, fuel: nat): Result
    decreases fuel, n, 1
  {
    match n
    case Integer(k) => Done([k], env)
    case Boolean(b) => Done([Truth(b)], env)
    case Variable(scope, index, _) =>
      (match Read(scope, index, env) case Some(v) => Done([v], env) case None => Fault)
    case BinaryNode(op, l, r) =>
      var a := Eval(fns, l, env, fuel);
      if !(a.Done? && |a.vals| == 1) then Halted(a) else
      var b := Eval(fns, r, a.env, fuel);
      if !(b.Done? && |b.vals| == 1) then Halted(b) else
      (match Fixnums.Binary(op, a.vals[0], b.vals[0]) case Some(v) => Done([v], b.env) case None => Fault)
    case UnaryNode(op, x) =>
      var a := Eval(fns, x, env, fuel);
      if !(a.Done? && |a.vals| == 1) then Halted(a) else Done([Unary(op, a.vals[0])], a.env)
    case LogicalOr(l, r) =>
      var a := Eval(fns, l, env, fuel);
      if !(a.Done? && |a.vals| == 1) then Halted(a) else
      if a.vals[0] != 0 then a else Eval(fns, r, a.env, fuel)
    case LogicalAnd(l, r) =>
      var a := Eval(fns, l, env, fuel);
      if !(a.Done? && |a.vals| == 1) then Halted(a) else
      if a.vals[0] == 0 then a else Eval(fns, r, a.env, fuel)
    case Assign(scope, index, value) =>
      var a := Eval(fns, value, env, fuel);
      if !(a.Done? && |a.vals| == 1) then Halted(a) else Done([], Write(scope, index, a.vals[0], a.env))
    case IfElse(cond, cons, alt) =>
      var c := Eval(fns, cond, env, fuel);
      if !(c.Done? && |c.vals| == 1) then Halted(c) else
      var keep := cons != [] && alt != [];
      if c.vals[0] != 0 then EvalBody(fns, cons, keep, c.env, fuel) else EvalBody(fns, alt, keep, c.env, fuel)
    case While(cond, body) =>
      if fuel == 0 then OutOfFuel else
      var c := Eval(fns, cond, env, fuel);
      if !(c.Done? && |c.vals| == 1) then Halted(c) else
      if c.vals[0] == 0 then Done([], c.env) else
      var b := EvalBody(fns, body, false, c.env, fuel);
      (match b
       case Done(_, e) => Eval(fns, n, e, fuel - 1)
       case Continued(e) => Eval(fns, n, e, fuel - 1)
       case Broke(e) => Done([], e)
       case _ => b)
    case Break => Broke(env)
    case Continue => Continued(env)
    case Return(values) =>
      var a := EvalArgs(fns, values, env, fuel);
      if a.Done? then Returned(a.vals, a.env) else Halted(a)
    case Call(f, args, _) =>
      var a := EvalArgs(fns, args, env, fuel);
      if !a.Done? then Halted(a) else
      if fuel == 0 then OutOfFuel else
      if f >= |fns| then Fault else
      var b := EvalBody(fns, fns[f].body, false, Entered(a.env, a.vals, fns[f].localsCount), fuel - 1);
      (match b
       case Returned(vals, e) => Done(vals, Left(a.env, e))
       case Done(_, e) => Done([], Left(a.env, e))
       case _ => Halted(b))
  }

  /** An operand that did not produce its value ends the evaluation around it. */
  function Halted(r: Result): Result { if r.OutOfFuel? then OutOfFuel else Fault }

  /** Every node's value but a kept last one is discarded. */
  ghost function EvalBody(fns: seq<FnDef>, body: seq<Node>, keepLast: bool, env: Env, fuel: nat): Result
    decreases fuel, body, 0
  {
    if body == [] then Done([], env) else
    var a := Eval(fns, body[0], env, fuel);
    if !a.Done? then a else
    if |body| == 1 then (if keepLast then a else Done([], a.env)) else
    EvalBody(fns, body[1..], keepLast, a.env, fuel)
  }

  /** Arguments left to right; `vals` are all their values. */
  ghost function EvalArgs(fns: seq<FnDef>, args: seq<Node>, env: Env, fuel: nat): Result
    decreases fuel, args, 0
  {
    if args == [] then Done([], env) else
    var a := Eval(fns, args[0], env, fuel);
    if !(a.Done? && |a.vals| == 1) then Halted(a) else
    var b := EvalArgs(fns, args[1..], a.env, fuel);
    if !b.Done? then Halted(b) else Done(a.vals + b.vals, b.env)
  }

  const START := Env(map[], imap[], 0)

  ghost function EvalProgram(prog: Program, fuel: nat): Result {
    EvalBody(prog.fns, prog.main, false, START, fuel)
  }

  // ----- what operators mean -----

  /** A binary operator has the value that it means for the values of its operands, or faults if it means none. */
  lemma BinaryEvaluates(fns: seq<FnDef>, op: BinOp, l: Node, r: Node, env: Env, fuel: nat)
    requires var a := Eval(fns, l, env, fuel);
             && a.Done? && |a.vals| == 1
             && Eval(fns, r, a.env, fuel).Done? && |Eval(fns, r, a.env, fuel).vals| == 1
    ensures var a := Eval(fns, l, env, fuel);
            var b := Eval(fns, r, a.env, fuel);
            exists v :: Arithmetic.Means(op, a.vals[0], b.vals[0], v)
                        && Eval(fns, BinaryNode(op, l, r), env, fuel) == if v.Some? then Done([v.value], b.env)
                           else Fault
  {
    hide Fixnums.Binary, Arithmetic.Means;
    var a := Eval(fns, l, env, fuel);
    Arithmetic.BinaryMeans(op, a.vals[0], Eval(fns, r, a.env, fuel).vals[0]);
  }

  lemma UnaryEvaluates(fns: seq<FnDef>, op: UnOp, x: Node, env: Env, fuel: nat)
    requires Eval(fns, x, env, fuel).Done? && |Eval(fns, x, env, fuel).vals| == 1
    ensures var a := Eval(fns, x, env, fuel);
            exists v ::
              Arithmetic.UnaryMeans(op, a.vals[0], v) && Eval(fns, UnaryNode(op, x), env, fuel) == Done([v], a.env)
  {
    hide Fixnums.Unary, Arithmetic.UnaryMeans;
    Arithmetic.UnaryIs(op, Eval(fns, x, env, fuel).vals[0]);
  }

  // ----- every coherent node leaves exactly the values its type announces -----

  ghost predicate ShapeOk(r: Result, p: Place, leaves: nat) {
    match r
    case Done(vals, env) => |vals| == leaves
    case Broke(_) => p.loop
    case Continued(_) => p.loop
    case Returned(vals, _) => p.ret.Some? && |vals| == (if p.ret.value == Void then 0 else 1)
    case _ => true
  }

  function Leaves(n: Node): nat { if LeavesValue(n) then 1 else 0 }

  function BodyLeaves(body: seq<Node>, keepLast: bool): nat {
    if keepLast && LastLeavesValue(body) then 1 else 0
  }

  ghost predicate Callable(fns: seq<FnDef>, p: Place) {
    p.callable <= fns && forall f | 0 <= f < |fns| :: CoherentFn(fns, f)
  }

  lemma {:induction false} EvalShape(fns: seq<FnDef>, n: Node, u: LabelUse, p: Place, env: Env, fuel: nat)
    requires Coherent(n, u, p) && Callable(fns, p)
    ensures ShapeOk(Eval(fns, n, env, fuel), p, Leaves(n))
    decreases fuel, n, 1
  {
    hide Fixnums.Binary, Fixnums.Unary, Entered, Left, Read, Write;
    match n
    case LogicalOr(l, r) => EvalRightShape(fns, n, r, u, p, env, fuel);
    case LogicalAnd(l, r) => EvalRightShape(fns, n, r, u, p, env, fuel);
    case IfElse(_, _, _) => EvalIfShape(fns, n, u, p, env, fuel);
    case While(_, _) => EvalWhileShape(fns, n, u, p, env, fuel);
    case Return(values) => EvalArgsShape(fns, values, env, fuel);
    case Call(_, _, _) => EvalCallShape(fns, n, u, p, env, fuel);
    case _ =>
  }

  lemma {:induction false} EvalRightShape(fns: seq<FnDef>, n: Node, r: Node, u: LabelUse, p: Place, env: Env, fuel: nat)
    requires Coherent(n, u, p) && Callable(fns, p) && (n.LogicalOr? || n.LogicalAnd?) && r == n.rhs
    ensures ShapeOk(Eval(fns, n, env, fuel), p, 1)
    decreases fuel, n, 0
  {
    var a := Eval(fns, n.lhs, env, fuel);
    if a.Done? && |a.vals| == 1 { EvalShape(fns, r, u, OperandPlace(p), a.env, fuel); }
  }

  lemma {:induction false} EvalIfShape(fns: seq<FnDef>, n: Node, u: LabelUse, p: Place, env: Env, fuel: nat)
    requires Coherent(n, u, p) && Callable(fns, p) && n.IfElse?
    ensures ShapeOk(Eval(fns, n, env, fuel), p, Leaves(n))
    decreases fuel, n, 0
  {
    var c, keep := Eval(fns, n.cond, env, fuel), n.consequence != [] && n.alternative != [];
    if c.Done? && |c.vals| == 1 {
      EvalBodyShape(fns, n.consequence, Foreign, p, keep, c.env, fuel);
      EvalBodyShape(fns, n.alternative, Foreign, p, keep, c.env, fuel);
    }
  }

  lemma {:induction false} EvalWhileShape(fns: seq<FnDef>, n: Node, u: LabelUse, p: Place, env: Env, fuel: nat)
    requires Coherent(n, u, p) && Callable(fns, p) && n.While?
    ensures ShapeOk(Eval(fns, n, env, fuel), p, Leaves(n))
    decreases fuel, n, 0
  {
    if fuel > 0 {
      var c := Eval(fns, n.cond, env, fuel);
      if c.Done? && |c.vals| == 1 && c.vals[0] != 0 {
        EvalBodyShape(fns, n.body, Foreign, p.(loop := true), false, c.env, fuel);
        var b := EvalBody(fns, n.body, false, c.env, fuel);
        if b.Done? || b.Continued? { EvalShape(fns, n, u, p, b.env, fuel - 1); }
      }
    }
  }

  lemma {:induction false} EvalCallShape(fns: seq<FnDef>, n: Node, u: LabelUse, p: Place, env: Env, fuel: nat)
    requires Coherent(n, u, p) && Callable(fns, p) && n.Call?
    ensures ShapeOk(Eval(fns, n, env, fuel), p, Leaves(n))
    decreases fuel, n, 0
  {
    hide Entered, Left;
    var a, f := EvalArgs(fns, n.args, env, fuel), n.fn;
    if a.Done? && fuel > 0 {
      assert CoherentFn(fns, f);
      var fp := Place(false, Some(fns[f].result), fns[f].localsCount, fns[..f + 1]);
      var start := Entered(a.env, a.vals, fns[f].localsCount);
      EvalBodyShape(fns, fns[f].body, NoLabels, fp, false, start, fuel - 1);
      EvalBodyReturns(fns, fns[f].body, false, start, fuel - 1);
    }
  }

  lemma {:induction false} EvalBodyShape(fns: seq<FnDef>, body: seq<Node>, u: LabelUse, p: Place, keepLast: bool,
                                         env: Env, fuel: nat)
    requires CoherentBody(body, u, p) && Callable(fns, p)
    ensures ShapeOk(EvalBody(fns, body, keepLast, env, fuel), p, BodyLeaves(body, keepLast))
    decreases fuel, body, 0
  {
    if body != [] {
      EvalShape(fns, body[0], u, p, env, fuel);
      var a := Eval(fns, body[0], env, fuel);
      if a.Done? && |body| > 1 {
        EvalBodyShape(fns, body[1..], u, p, keepLast, a.env, fuel);
      }
    }
  }

  /** A body that ends in a return cannot fall off its end. */
  lemma {:induction false} EvalBodyReturns(fns: seq<FnDef>, body: seq<Node>, keepLast: bool, env: Env, fuel: nat)
    ensures body != [] && body[|body| - 1].Return? ==> !EvalBody(fns, body, keepLast, env, fuel).Done?
    decreases |body|
  {
    if |body| > 1 {
      var a := Eval(fns, body[0], env, fuel);
      if a.Done? { EvalBodyReturns(fns, body[1..], keepLast, a.env, fuel); }
    }
  }

  lemma {:induction false} EvalArgsShape(fns: seq<FnDef>, args: seq<Node>, env: Env, fuel: nat)
    ensures EvalArgs(fns, args, env, fuel).Done? ==> |EvalArgs(fns, args, env, fuel).vals| == |args|
    decreases |args|
  {
    if args != [] {
      var a := Eval(fns, args[0], env, fuel);
      if a.Done? { EvalArgsShape(fns, args[1..], a.env, fuel); }
    }
  }

  // ----- fuel only decides whether there is a result -----

  /** A result that did not run out of fuel is the result for any more fuel. */
  lemma {:induction false} MoreFuel(fns: seq<FnDef>, n: Node, env: Env, fuel: nat)
    requires !Eval(fns, n, env, fuel).OutOfFuel?
    ensures Eval(fns, n, env, fuel + 1) == Eval(fns, n, env, fuel)
    decreases fuel, n, 1
  {
    hide Fixnums.Binary, Fixnums.Unary, Entered, Left, Read, Write;
    match n
    case Integer(_) =>
    case Boolean(_) =>
    case Variable(_, _, _) =>
    case BinaryNode(_, _, _) => MoreFuelPair(fns, n, env, fuel);
    case UnaryNode(_, x) => MoreFuel(fns, x, env, fuel);
    case LogicalOr(_, _) => MoreFuelPair(fns, n, env, fuel);
    case LogicalAnd(_, _) => MoreFuelPair(fns, n, env, fuel);
    case Assign(_, _, x) => MoreFuel(fns, x, env, fuel);
    case IfElse(cond, cons, alt) =>
      MoreFuel(fns, cond, env, fuel);
      var c, keep := Eval(fns, cond, env, fuel), cons != [] && alt != [];
      if c.Done? && |c.vals| == 1 {
        if c.vals[0] != 0 { MoreFuelBody(fns, cons, keep, c.env, fuel); }
        else { MoreFuelBody(fns, alt, keep, c.env, fuel); }
      }
    case While(cond, body) => MoreFuelWhile(fns, cond, body, env, fuel);
    case Break =>
    case Continue =>
    case Return(values) => MoreFuelArgs(fns, values, env, fuel);
    case Call(f, args, _) =>
      MoreFuelArgs(fns, args, env, fuel);
      var a := EvalArgs(fns, args, env, fuel);
      if a.Done? && fuel > 0 && f < |fns| {
        MoreFuelBody(fns, fns[f].body, false, Entered(a.env, a.vals, fns[f].localsCount), fuel - 1);
      }
  }

  lemma {:induction false} MoreFuelPair(fns: seq<FnDef>, n: Node, env: Env, fuel: nat)
    requires n.BinaryNode? || n.LogicalOr? || n.LogicalAnd?
    ensures var l, r, a := n.lhs, n.rhs, Eval(fns, n.lhs, env, fuel);
            && (!a.OutOfFuel? ==> Eval(fns, l, env, fuel + 1) == a)
            && (a.Done? && !Eval(fns, r, a.env, fuel).OutOfFuel? ==>
                  Eval(fns, r, a.env, fuel + 1) == Eval(fns, r, a.env, fuel))
    decreases fuel, n, 0
  {
    var l, r, a := n.lhs, n.rhs, Eval(fns, n.lhs, env, fuel);
    if !a.OutOfFuel? { MoreFuel(fns, l, env, fuel); }
    if a.Done? && !Eval(fns, r, a.env, fuel).OutOfFuel? { MoreFuel(fns, r, a.env, fuel); }
  }

  lemma {:induction false} MoreFuelWhile(fns: seq<FnDef>, cond: Node, body: seq<Node>, env: Env, fuel: nat)
    requires !Eval(fns, While(cond, body), env, fuel).OutOfFuel?
    ensures Eval(fns, While(cond, body), env, fuel + 1) == Eval(fns, While(cond, body), env, fuel)
    decreases fuel, While(cond, body), 0
  {
    MoreFuel(fns, cond, env, fuel);
    var c := Eval(fns, cond, env, fuel);
    if c.Done? && |c.vals| == 1 && c.vals[0] != 0 {
      MoreFuelBody(fns, body, false, c.env, fuel);
      var b := EvalBody(fns, body, false, c.env, fuel);
      if b.Done? || b.Continued? { MoreFuel(fns, While(cond, body), b.env, fuel - 1); }
    }
  }

  lemma {:induction false} MoreFuelBody(fns: seq<FnDef>, body: seq<Node>, keepLast: bool, env: Env, fuel: nat)
    requires !EvalBody(fns, body, keepLast, env, fuel).OutOfFuel?
    ensures EvalBody(fns, body, keepLast, env, fuel + 1) == EvalBody(fns, body, keepLast, env, fuel)
    decreases fuel, body, 0
  {
    if body != [] {
      MoreFuel(fns, body[0], env, fuel);
      var a := Eval(fns, body[0], env, fuel);
      if a.Done? && |body| > 1 { MoreFuelBody(fns, body[1..], keepLast, a.env, fuel); }
    }
  }

  lemma {:induction false} MoreFuelArgs(fns: seq<FnDef>, args: seq<Node>, env: Env, fuel: nat)
    requires !EvalArgs(fns, args, env, fuel).OutOfFuel?
    ensures EvalArgs(fns, args, env, fuel + 1) == EvalArgs(fns, args, env, fuel)
    decreases fuel, args, 0
  {
    if args != [] {
      MoreFuel(fns, args[0], env, fuel);
      var a := Eval(fns, args[0], env, fuel);
      if a.Done? && |a.vals| == 1 { MoreFuelArgs(fns, args[1..], a.env, fuel); }
    }
  }
}
