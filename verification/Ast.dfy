/**
 The checked syntax tree that reaches the compiler's back end, with names already resolved to
 slots, and the coherent fragment of it: the shapes for which the lowering is meaningful.
 */
module Ast {
  import opened Wrappers
  import opened Fixnums

  /** Size of the VM's globals, locals and data arrays. */
  const N_VARS := 16000

  datatype Scope = Global | Local

  datatype Ty = Void | Int | Bool

  datatype Node =
    | Integer(n: Fixnum)
    | Boolean(b: bool)
    | Variable(scope: Scope, index: nat, ty: Ty)
    | BinaryNode(op: BinOp, lhs: Node, rhs: Node)
    | UnaryNode(unop: UnOp, operand: Node)
    | LogicalOr(lhs: Node, rhs: Node)
    | LogicalAnd(lhs: Node, rhs: Node)
    | Assign(scope: Scope, index: nat, value: Node)
    | IfElse(cond: Node, consequence: seq<Node>, alternative: seq<Node>)
    | While(cond: Node, body: seq<Node>)
    | Break
    | Continue
    | Return(values: seq<Node>)
    | Call(fn: nat, args: seq<Node>, ty: Ty)

  /** `localsCount` counts every declaration of the function, its parameters included. */
  datatype FnDef = FnDef(arity: nat, localsCount: nat, result: Ty, body: seq<Node>)

  datatype Program = Program(fns: seq<FnDef>, main: seq<Node>)

  predicate IsComparison(op: BinOp) {
    op in {Equals, NotEquals, Greater, GreaterEquals, Less, LessEquals}
  }

  /** Nodes whose IR is a value; a while loop is a value of type void. */
  predicate IsValue(n: Node) {
    !n.Assign? && !n.Break? && !n.Continue? && !n.Return?
  }

  function TypeOf(n: Node): Ty {
    match n
    case Integer(_) => Int
    case Boolean(_) => Bool
    case Variable(_, _, ty) => ty
    case BinaryNode(op, _, _) => if IsComparison(op) then Bool else Int
    case UnaryNode(_, _) => Int
    case LogicalOr(_, _) => Bool
    case LogicalAnd(_, _) => Bool
    case IfElse(_, cons, alt) =>
      if cons == [] || alt == [] then Void
      else
        var lastCons, lastAlt := cons[|cons| - 1], alt[|alt| - 1];
        if IsValue(lastCons) && IsValue(lastAlt) && TypeOf(lastAlt) == TypeOf(lastCons) then TypeOf(lastCons) else Void
    case Call(_, _, ty) => ty
    case _ => Void
  }

  /** The node's code leaves one value on the data stack. */
  predicate LeavesValue(n: Node) {
    IsValue(n) && TypeOf(n) != Void
  }

  predicate LastLeavesValue(body: seq<Node>) {
    body != [] && LeavesValue(body[|body| - 1])
  }

  /**
   Which of the compiler's current true/false labels are set while a node is converted:
   none, only the one of an enclosing `and`, both of an if/while head, or labels that were left
   set by an enclosing head and do not belong to the node.
   */
  datatype LabelUse = NoLabels | TrueLabel | BothLabels | Foreign

  function Inner(u: LabelUse): LabelUse { if u.NoLabels? then NoLabels else Foreign }

  function AndLeft(u: LabelUse): LabelUse { if u.NoLabels? then TrueLabel else u }

  /** What a node may refer to. `ret` is the result type where `return` is allowed. */
  datatype Place = Place(loop: bool, ret: Option<Ty>, locals: nat, callable: seq<FnDef>)

  function OperandPlace(p: Place): Place { p.(loop := false, ret := None) }

  /** No `and` in the and/or tree rooted at `n`. */
  predicate NoAnd(n: Node) {
    match n
    case LogicalAnd(_, _) => false
    case LogicalOr(l, r) => NoAnd(l) && NoAnd(r)
    case _ => true
  }

  predicate SlotOk(scope: Scope, index: nat, p: Place) {
    index < N_VARS && (scope.Local? ==> index < p.locals)
  }

  predicate Coherent(n: Node, u: LabelUse, p: Place)
    decreases n, 1
  {
    match n
    case Integer(k) => k >= 0
    case Boolean(_) => true
    case Variable(scope, index, ty) => SlotOk(scope, index, p) && ty != Void
    case BinaryNode(_, l, r) => CoherentOperand(l, Int, Inner(u), p) && CoherentOperand(r, Int, Inner(u), p)
    case UnaryNode(_, x) => CoherentOperand(x, Int, Inner(u), p)
    case LogicalOr(l, r) =>
      !u.Foreign? && (u.BothLabels? ==> NoAnd(l)) && CoherentOperand(l, Bool, u, p) && CoherentOperand(r, Bool, u, p)
    case LogicalAnd(l, r) =>
      !u.Foreign? && CoherentOperand(l, Bool, AndLeft(u), p) && CoherentOperand(r, Bool, u, p)
    case Assign(scope, index, value) =>
      SlotOk(scope, index, p) && LeavesValue(value) && CoherentOperand(value, TypeOf(value), Inner(u), p)
    case IfElse(cond, cons, alt) =>
      && CoherentOperand(cond, Bool, BothLabels, p)
      && CoherentBody(cons, Foreign, p)
      && CoherentBody(alt, Foreign, p)
      && (cons != [] && alt != [] ==>
            (LastLeavesValue(cons) || LastLeavesValue(alt) ==> TypeOf(n) != Void))
    case While(cond, body) =>
      CoherentOperand(cond, Bool, BothLabels, p) && CoherentBody(body, Foreign, p.(loop := true))
    case Break => p.loop
    case Continue => p.loop
    case Return(values) =>
      && p.ret.Some?
      && (if p.ret.value == Void then values == [] else |values| == 1)
      && forall i | 0 <= i < |values| :: CoherentOperand(values[i], p.ret.value, Inner(u), p)
    case Call(fn, args, ty) =>
      && fn < |p.callable| && p.callable[fn].arity == |args| && p.callable[fn].result == ty
      && forall i | 0 <= i < |args| :: LeavesValue(args[i]) && CoherentOperand(args[i], TypeOf(args[i]), Inner(u), p)
  }

  /** A node used for its value: no jump may leave it, since operands lie on the stack below it. */
  predicate CoherentOperand(n: Node, ty: Ty, u: LabelUse, p: Place)
    decreases n, 2
  {
    IsValue(n) && TypeOf(n) == ty && Coherent(n, u, OperandPlace(p))
  }

  predicate CoherentBody(body: seq<Node>, u: LabelUse, p: Place)
    decreases body, 0
  {
    forall i | 0 <= i < |body| :: Coherent(body[i], u, p)
  }

  predicate CoherentFn(fns: seq<FnDef>, f: nat)
    requires f < |fns|
  {
    var fn := fns[f];
    && fn.arity <= fn.localsCount < N_VARS
    && CoherentBody(fn.body, NoLabels, Place(false, Some(fn.result), fn.localsCount, fns[..f + 1]))
    && (fn.result != Void ==> fn.body != [] && fn.body[|fn.body| - 1].Return?)
  }

  /** A function may call itself and the functions bound before it. */
  predicate CoherentProgram(prog: Program) {
    && (forall f | 0 <= f < |prog.fns| :: CoherentFn(prog.fns, f))
    && CoherentBody(prog.main, NoLabels, Place(false, None, 0, prog.fns))
  }
}
