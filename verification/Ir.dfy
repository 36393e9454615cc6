/**
 The intermediate representation: a tree of nodes whose control flow is by labels, and its
 listing, the order in which the code generator visits the tree.
 */
module Ir {
  import opened Fixnums
  import opened Ast

  datatype BranchKind = Always | PopIfTrue | PopIfFalse | TrueOrPop | FalseOrPop

  datatype IrNode =
    | IrFixnum(n: Fixnum)
    | IrBoolean(b: bool)
    | IrSymbol(scope: Scope, index: nat, ty: Ty)
    | IrBinary(op: BinOp, lhs: IrNode, rhs: IrNode)
    | IrUnary(unop: UnOp, operand: IrNode)
    | IrBlock(nodes: seq<IrNode>, ty: Ty)
    | IrAssignment(scope: Scope, index: nat, rhs: IrNode)
    | IrAssignTop(scope: Scope, index: nat)
    | IrCall(callee: nat, args: seq<IrNode>, ty: Ty)
    | IrReturn(values: seq<IrNode>, shouldLeave: bool)
    | IrLabel(id: nat)
    | IrNamedBlock(id: nat, body: seq<IrNode>, end: nat)
    | IrBranch(kind: BranchKind, destination: nat)
    | IrDiscardResult(num: nat)
    | IrAllocateLocals(num: nat)

  predicate IsIrValue(ir: IrNode) {
    ir.IrFixnum? || ir.IrBoolean? || ir.IrSymbol? || ir.IrBinary? || ir.IrUnary? || ir.IrBlock? || ir.IrCall?
  }

  function IrType(ir: IrNode): Ty {
    match ir
    case IrFixnum(_) => Int
    case IrBoolean(_) => Bool
    case IrSymbol(_, _, ty) => ty
    case IrBinary(op, _, _) => if IsComparison(op) then Bool else Int
    case IrUnary(_, _) => Int
    case IrBlock(_, ty) => ty
    case IrCall(_, _, ty) => ty
    case _ => Void
  }

  /** One instruction of the labelled code; `Mark` places a label and occupies no bytes. */
  datatype Ins =
    | Push(n: Fixnum)
    | Operate(op: BinOp)
    | OperateUnary(unop: UnOp)
    | Load(scope: Scope, index: nat)
    | Store(scope: Scope, index: nat)
    | Drop(num: nat)
    | AllocLocals(num: nat)
    | Mark(id: nat)
    | Jump(kind: BranchKind, to: nat)
    | CallCode(to: nat)
    | ReturnCode(leave: bool)
    | Halt

  function Listing(ir: IrNode): seq<Ins>
    decreases ir, 1
  {
    match ir
    case IrFixnum(n) => [Push(n)]
    case IrBoolean(b) => [Push(Truth(b))]
    case IrSymbol(scope, index, _) => [Load(scope, index)]
    case IrBinary(op, l, r) => Listing(l) + (Listing(r) + [Operate(op)])
    case IrUnary(op, x) => Listing(x) + (if op.Positive? then [] else [OperateUnary(op)])
    case IrBlock(nodes, _) => ListingAll(nodes)
    case IrAssignment(scope, index, rhs) => Listing(rhs) + [Store(scope, index)]
    case IrAssignTop(scope, index) => [Store(scope, index)]
    case IrCall(callee, args, _) => ListingAll(args) + [CallCode(callee)]
    case IrReturn(values, leave) => ListingAll(values) + [ReturnCode(leave)]
    case IrLabel(id) => [Mark(id)]
    case IrNamedBlock(id, body, end) => [Mark(id)] + (ListingAll(body) + [Mark(end)])
    case IrBranch(kind, to) => [Jump(kind, to)]
    case IrDiscardResult(num) => if num == 0 then [] else [Drop(num)]
    case IrAllocateLocals(num) => [AllocLocals(num)]
  }

  function ListingAll(nodes: seq<IrNode>): seq<Ins>
    decreases nodes, 0
  {
    if nodes == [] then [] else Listing(nodes[0]) + ListingAll(nodes[1..])
  }

  lemma {:induction false} ListingAppend(a: seq<IrNode>, b: seq<IrNode>)
    ensures ListingAll(a + b) == ListingAll(a) + ListingAll(b)
    decreases |a|
  {
    if a == [] {
      assert a + b == b;
    } else {
      assert (a + b)[1..] == a[1..] + b;
      ListingAppend(a[1..], b);
    }
  }

  lemma ListingAtoms(kind: BranchKind, to: nat, id: nat)
    ensures Listing(IrBranch(kind, to)) == [Jump(kind, to)] && Listing(IrLabel(id)) == [Mark(id)]
    ensures ListingAll([]) == []
    ensures forall nodes, ty :: Listing(IrBlock(nodes, ty)) == ListingAll(nodes)
  {
  }

  lemma ListingOne(ir: IrNode)
    ensures ListingAll([ir]) == Listing(ir)
  {
    assert [ir][1..] == [];
  }

  lemma ListingCons(ir: IrNode, rest: seq<IrNode>)
    ensures ListingAll([ir] + rest) == Listing(ir) + ListingAll(rest)
  {
    assert ([ir] + rest)[1..] == rest;
  }

  // ----- labels of labelled code -----

  predicate IsConditional(i: Ins) { i.Jump? && !i.kind.Always? }

  /** How often label `l` is placed. */
  function Placed(code: seq<Ins>, l: nat): nat {
    if code == [] then 0 else (if code[0] == Mark(l) then 1 else 0) + Placed(code[1..], l)
  }

  /** Some conditional branch to `l` is not followed by the placing of `l`. */
  predicate LeftOpen(code: seq<Ins>, l: nat) {
    code != [] && ((IsConditional(code[0]) && code[0].to == l && Placed(code[1..], l) == 0) || LeftOpen(code[1..], l))
  }

  predicate Goes(i: Ins, l: nat) { (i.Jump? || i.CallCode?) && i.to == l }

  /** Some branch or call goes to `l`. */
  predicate Targeted(code: seq<Ins>, l: nat) {
    code != [] && (Goes(code[0], l) || Targeted(code[1..], l))
  }

  lemma {:induction false} Glue(a: seq<Ins>, b: seq<Ins>, l: nat)
    ensures Placed(a + b, l) == Placed(a, l) + Placed(b, l)
    ensures LeftOpen(a + b, l) <==> (LeftOpen(a, l) && Placed(b, l) == 0) || LeftOpen(b, l)
    ensures Targeted(a + b, l) <==> Targeted(a, l) || Targeted(b, l)
    decreases |a|
  {
    if a == [] {
      assert a + b == b;
    } else {
      assert (a + b)[1..] == a[1..] + b;
      Glue(a[1..], b, l);
    }
  }

  lemma Single(i: Ins, l: nat)
    ensures Placed([i], l) == if i == Mark(l) then 1 else 0
    ensures LeftOpen([i], l) <==> IsConditional(i) && i.to == l
    ensures Targeted([i], l) <==> Goes(i, l)
    ensures Placed([], l) == 0 && !LeftOpen([], l) && !Targeted([], l)
  {
    assert [i][1..] == [];
  }

  /** `frag` lies in `code` from index `pc` on. */
  ghost predicate At(code: seq<Ins>, pc: nat, frag: seq<Ins>) {
    pc + |frag| <= |code| && code[pc..pc + |frag|] == frag
  }

  lemma AtSplit(code: seq<Ins>, pc: nat, a: seq<Ins>, b: seq<Ins>)
    ensures At(code, pc, a + b) <==> At(code, pc, a) && At(code, pc + |a|, b)
  {
    if At(code, pc, a + b) {
      assert code[pc..pc + |a|] == (a + b)[..|a|] == a;
      assert code[pc + |a|..pc + |a| + |b|] == (a + b)[|a|..] == b;
    }
    if At(code, pc, a) && At(code, pc + |a|, b) {
      assert code[pc..pc + |a| + |b|] == a + b;
    }
  }

  /** The index at which label `l` is placed, or the end of the code. */
  function Find(code: seq<Ins>, l: nat): (i: nat)
    ensures i <= |code|
    ensures i < |code| ==> code[i] == Mark(l)
    ensures forall j | 0 <= j < i :: code[j] != Mark(l)
  {
    if code == [] || code[0] == Mark(l) then 0 else 1 + Find(code[1..], l)
  }

  lemma {:induction false} PlacedAtLeast(code: seq<Ins>, l: nat, i: nat)
    requires i < |code| && code[i] == Mark(l)
    ensures Placed(code, l) >= 1
    decreases i
  {
    if i > 0 { PlacedAtLeast(code[1..], l, i - 1); }
  }

  lemma {:induction false} PlacedSomewhere(code: seq<Ins>, l: nat)
    ensures Placed(code, l) > 0 ==> Find(code, l) < |code|
  {
    if code != [] && code[0] != Mark(l) { PlacedSomewhere(code[1..], l); }
  }

  /** A label placed at most once is found where it is placed. */
  lemma {:induction false} FindUnique(code: seq<Ins>, l: nat, i: nat)
    requires Placed(code, l) <= 1
    requires i < |code| && code[i] == Mark(l)
    ensures Find(code, l) == i
    decreases i
  {
    if code[0] == Mark(l) {
      if i > 0 { PlacedAtLeast(code[1..], l, i - 1); }
    } else {
      FindUnique(code[1..], l, i - 1);
    }
  }
}
