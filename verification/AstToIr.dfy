/**
 The first translation as the visitor that performs it: the current labels are fields that a
 construct saves, sets and restores, bodies are built by appending, labels are created as they
 are needed. What it builds is exactly what module Lowering defines.
 */
module AstToIr {
  import opened Wrappers
  import opened Ast
  import opened Ir
  import opened Lowering
  import opened CodeGeneration

  class AstToIr {
    var labels: seq<IrLabelObject>
    var curTrueLabel: Option<nat>
    var curFalseLabel: Option<nat>
    var curContinueLabel: Option<nat>
    var curBreakLabel: Option<nat>
    var curLocalsCount: nat
    var boundFunctions: seq<nat>
    var first: seq<IrNode>

    /** The labels made so far are distinct objects that nothing has resolved yet. */
    ghost predicate Valid()
      reads this`labels, labels
    {
      && (forall i, j | 0 <= i < j < |labels| :: labels[i] != labels[j])
      && (forall i | 0 <= i < |labels| :: !labels[i].isResolved && labels[i].toBeBackfilled == [])
    }

    /** Labels are only added, and only new ones. */
    twostate predicate Grown()
      reads this`labels, labels
    {
      Valid() && old(labels) <= labels && forall i | |old(labels)| <= i < |labels| :: fresh(labels[i])
    }

    ghost function Current(): Labels
      reads this`curTrueLabel, this`curFalseLabel, this`curContinueLabel, this`curBreakLabel
    {
      Labels(curTrueLabel, curFalseLabel, curContinueLabel, curBreakLabel)
    }

    ghost function CurrentUnit(): Unit
      reads this`boundFunctions, this`curLocalsCount
    {
      Unit(boundFunctions, curLocalsCount > 0)
    }

    constructor ()
      ensures Valid() && labels == [] && Current() == NO_LABELS && curLocalsCount == 0 && boundFunctions == []
      ensures first == []
    {
      labels, boundFunctions, first := [], [], [];
      curTrueLabel, curFalseLabel, curContinueLabel, curBreakLabel := None, None, None, None;
      curLocalsCount := 0;
    }

    /** A new label, named by the generator's counter. */
    method MakeLabel() returns (id: nat)
      requires Valid()
      modifies this`labels
      ensures Grown() && id == |old(labels)| && |labels| == id + 1
    {
      id := |labels|;
      var l := new IrLabelObject();
      assert forall i | 0 <= i < |labels| :: labels[i] != l;
      labels := labels + [l];
    }

    /** Converts one node; the current labels are as before. */
    method Get(n: Node) returns (ir: IrNode)
      requires Valid()
      modifies this`labels, this`curTrueLabel, this`curFalseLabel, this`curContinueLabel, this`curBreakLabel
      ensures Grown() && Current() == old(Current())
      ensures (ir, |labels|) == Lower(n, old(Current()), CurrentUnit(), |old(labels)|)
      decreases n, 2
    {
      hide Valid;
      match n
      case Integer(k) => ir := IrFixnum(k);
      case Boolean(b) => ir := IrBoolean(b);
      case Variable(scope, index, ty) => ir := IrSymbol(scope, index, ty);
      case BinaryNode(op, l, r) =>
        var lhs := Get(l);
        var rhs := Get(r);
        ir := IrBinary(op, lhs, rhs);
      case UnaryNode(op, x) =>
        var operand := Get(x);
        ir := IrUnary(op, operand);
      case LogicalOr(l, r) => ir := VisitLogicalOr(l, r);
      case LogicalAnd(l, r) => ir := VisitLogicalAnd(l, r);
      case Assign(scope, index, value) =>
        var rhs := Get(value);
        ir := IrAssignment(scope, index, rhs);
      case IfElse(cond, cons, alt) => ir := VisitIfElse(cond, cons, alt);
      case While(cond, body) => ir := VisitWhile(cond, body);
      case Break => ir := IrBranch(Always, if curBreakLabel.Some? then curBreakLabel.value else 0);
      case Continue => ir := IrBranch(Always, if curContinueLabel.Some? then curContinueLabel.value else 0);
      case Return(values) =>
        var irs := GetMany(values);
        ir := IrReturn(irs, curLocalsCount != 0);
      case Call(fn, args, ty) =>
        var irs := GetMany(args);
        ir := IrCall(if fn < |boundFunctions| then boundFunctions[fn] else 0, irs, ty);
    }

    method GetMany(args: seq<Node>) returns (irs: seq<IrNode>)
      requires Valid()
      modifies this`labels, this`curTrueLabel, this`curFalseLabel, this`curContinueLabel, this`curBreakLabel
      ensures Grown() && Current() == old(Current())
      ensures (irs, |labels|) == LowerArgs(args, old(Current()), CurrentUnit(), |old(labels)|)
      decreases args, 0
    {
      hide Valid, Lower;
      irs := [];
      if args != [] {
        var ir := Get(args[0]);
        var rest := GetMany(args[1..]);
        irs := [ir] + rest;
      }
    }

    method VisitLogicalOr(l: Node, r: Node) returns (ir: IrNode)
      requires Valid()
      modifies this`labels, this`curTrueLabel, this`curFalseLabel, this`curContinueLabel, this`curBreakLabel
      ensures Grown() && Current() == old(Current())
      ensures (ir, |labels|) == Lower(LogicalOr(l, r), old(Current()), CurrentUnit(), |old(labels)|)
      decreases LogicalOr(l, r), 0
    {
      hide Valid, Lower, LowerBody, LowerArgs;
      OrIr(l, r, Current(), CurrentUnit(), |labels|);
      var lhs := Get(l);
      var rhs := Get(r);
      var block := [lhs];
      if curTrueLabel.Some? {
        block := block + [IrBranch(PopIfTrue, curTrueLabel.value)] + [rhs];
      } else {
        var trueLabel := MakeLabel();
        block := block + [IrBranch(TrueOrPop, trueLabel)] + [rhs] + [IrLabel(trueLabel)];
      }
      ir := IrBlock(block, Bool);
    }

    method VisitLogicalAnd(l: Node, r: Node) returns (ir: IrNode)
      requires Valid()
      modifies this`labels, this`curTrueLabel, this`curFalseLabel, this`curContinueLabel, this`curBreakLabel
      ensures Grown() && Current() == old(Current())
      ensures (ir, |labels|) == Lower(LogicalAnd(l, r), old(Current()), CurrentUnit(), |old(labels)|)
      decreases LogicalAnd(l, r), 0
    {
      hide Valid, Lower, LowerBody, LowerArgs;
      AndIr(l, r, Current(), CurrentUnit(), |labels|);
      var oldTrueLabel := curTrueLabel;
      var trueLabel := MakeLabel();
      curTrueLabel := Some(trueLabel);
      var lhs := Get(l);
      curTrueLabel := oldTrueLabel;
      var rhs := Get(r);
      var block := [lhs];
      if curFalseLabel.Some? {
        block := block + [IrBranch(PopIfFalse, curFalseLabel.value)] + [IrLabel(trueLabel)] + [rhs];
      } else {
        var falseLabel := MakeLabel();
        block := block + [IrBranch(FalseOrPop, falseLabel)] + [IrLabel(trueLabel)] + [rhs] + [IrLabel(falseLabel)];
      }
      ir := IrBlock(block, Bool);
    }

    /**
     Appends a body's IR to `dst`, discarding every value but a collected last one, which is
     returned as well.
     */
    method ConvertBody(src: seq<Node>, dst: seq<IrNode>, collecting: bool)
      returns (nodes: seq<IrNode>, last: Option<IrNode>)
      requires Valid()
      modifies this`labels, this`curTrueLabel, this`curFalseLabel, this`curContinueLabel, this`curBreakLabel
      ensures Grown() && Current() == old(Current())
      ensures (nodes, |labels|) == Onto(dst, LowerBody(src, collecting, old(Current()), CurrentUnit(), |old(labels)|))
      ensures last ==
              if collecting then LastValue(LowerBody(src, true, old(Current()), CurrentUnit(), |old(labels)|).0)
              else None
      decreases src, 0
    {
      hide Valid, Lower, LowerBody, Onto;
      nodes, last := dst, None;
      var i := 0;
      ghost var ls, c := Current(), CurrentUnit();
      assert src[i..] == src;
      while i < |src|
        invariant i <= |src| && Grown() && Current() == ls
        invariant Onto(nodes, LowerBody(src[i..], collecting, ls, c, |labels|))
               == Onto(dst, LowerBody(src, collecting, ls, c, |old(labels)|))
        invariant i < |src| ==>
                    LastValue(LowerBody(src[i..], true, ls, c, |labels|).0) ==
                      LastValue(LowerBody(src, true, ls, c, |old(labels)|).0)
        invariant last ==
                  if i > 0 && i == |src| && collecting then LastValue(LowerBody(src, true, ls, c, |old(labels)|).0)
                  else None
      {
        LastStep(src, i, ls, c, |labels|);
        BodyStep(src, i, nodes, collecting, ls, c, |labels|);
        var isLastIter := i + 1 >= |src|;
        var lastNode := Get(src[i]);
        nodes := nodes + [lastNode];
        if IsIrValue(lastNode) {
          if !isLastIter || !collecting {
            if IrType(lastNode) != Void {
              nodes := nodes + [IrDiscardResult(1)];
            }
          }
        }
        if isLastIter && collecting && IsIrValue(lastNode) { last := Some(lastNode); }
        i := i + 1;
      }
      BodyDone(src[i..], nodes, collecting, ls, c, |labels|);
      if src == [] { BodyDone(src, [], true, ls, c, |old(labels)|); }
    }

    method VisitIfElse(cond: Node, consequence: seq<Node>, alternative: seq<Node>) returns (ir: IrNode)
      requires Valid()
      modifies this`labels, this`curTrueLabel, this`curFalseLabel, this`curContinueLabel, this`curBreakLabel
      ensures Grown() && Current() == old(Current())
      ensures (ir, |labels|) ==
                Lower(IfElse(cond, consequence, alternative), old(Current()), CurrentUnit(), |old(labels)|)
      decreases IfElse(cond, consequence, alternative), 1
    {
      hide Valid, Lower, LowerBody, LowerArgs, Legs;
      IfIr(cond, consequence, alternative, Current(), CurrentUnit(), |labels|);
      var oldFalseLabel, oldTrueLabel := curFalseLabel, curTrueLabel;
      var altBegin := MakeLabel();
      var consBegin := MakeLabel();
      curFalseLabel, curTrueLabel := Some(altBegin), Some(consBegin);
      var block, ty := ConvertLegs(cond, consequence, alternative, altBegin);
      curFalseLabel, curTrueLabel := oldFalseLabel, oldTrueLabel;
      ir := IrBlock(block, ty);
    }

    /** An if/else under the labels of its head, and the type of its value. */
    method ConvertLegs(cond: Node, consequence: seq<Node>, alternative: seq<Node>, altBegin: nat)
      returns (block: seq<IrNode>, ty: Ty)
      requires Valid()
      modifies this`labels, this`curTrueLabel, this`curFalseLabel, this`curContinueLabel, this`curBreakLabel
      ensures Grown() && Current() == old(Current())
      ensures (block, ty, |labels|) ==
                Legs(cond, consequence, alternative, altBegin, old(Current()), CurrentUnit(), |old(labels)|)
      decreases IfElse(cond, consequence, alternative), 0
    {
      hide Valid, Lower, LowerBody, LowerArgs;
      var head := Get(cond);
      block := [head] + [IrBranch(PopIfFalse, altBegin)];
      var isEitherEmpty := consequence == [] || alternative == [];
      block := block + [IrLabel(altBegin + 1)];
      var lastConseq, lastAltern: Option<IrNode> := None, None;
      block, lastConseq := ConvertBody(consequence, block, !isEitherEmpty);
      block, lastAltern := ConvertAlternative(alternative, block, altBegin, !isEitherEmpty);
      ty := Void;
      if lastConseq.Some? && lastAltern.Some? && IrType(lastAltern.value) == IrType(lastConseq.value) {
        ty := IrType(lastConseq.value);
      }
    }

    /** The alternative of an if, behind a branch over it for the end of the consequence. */
    method ConvertAlternative(src: seq<Node>, dst: seq<IrNode>, altBegin: nat, collecting: bool)
      returns (nodes: seq<IrNode>, last: Option<IrNode>)
      requires Valid()
      modifies this`labels, this`curTrueLabel, this`curFalseLabel, this`curContinueLabel, this`curBreakLabel
      ensures Grown() && Current() == old(Current())
      ensures var end := |old(labels)|;
              var (other, k) := LowerBody(src, collecting, old(Current()), CurrentUnit(), end + 1);
              (nodes, |labels|) ==
                if src == [] then (dst + [IrLabel(altBegin)], end)
                else (dst + [IrBranch(Always, end)] + [IrLabel(altBegin)] + other + [IrLabel(end)], k)
      ensures last ==
              if !collecting || src == [] then None
              else LastValue(LowerBody(src, true, old(Current()), CurrentUnit(), |old(labels)| + 1).0)
      decreases src, 1
    {
      hide Valid, Lower, LowerBody;
      nodes, last := dst, None;
      if src != [] {
        var end := MakeLabel();
        nodes := nodes + [IrBranch(Always, end)] + [IrLabel(altBegin)];
        nodes, last := ConvertBody(src, nodes, collecting);
        nodes := nodes + [IrLabel(end)];
      } else {
        nodes := nodes + [IrLabel(altBegin)];
      }
    }

    method VisitWhile(cond: Node, body: seq<Node>) returns (ir: IrNode)
      requires Valid()
      modifies this`labels, this`curTrueLabel, this`curFalseLabel, this`curContinueLabel, this`curBreakLabel
      ensures Grown() && Current() == old(Current())
      ensures (ir, |labels|) == Lower(While(cond, body), old(Current()), CurrentUnit(), |old(labels)|)
      decreases While(cond, body), 1
    {
      hide Valid, Lower, LowerBody, LowerArgs;
      WhileIr(cond, body, Current(), CurrentUnit(), |labels|);
      var conditionCheck := MakeLabel();
      var loopBlock := MakeLabel();
      var loopEnd := MakeLabel();
      var head, nodes := ConvertLoop(cond, body, conditionCheck);
      var named := IrNamedBlock(loopBlock, nodes, loopEnd);
      ir := IrBlock([IrLabel(conditionCheck), head, IrBranch(PopIfFalse, loopEnd), named], Void);
    }

    /** A loop's condition and body, under the labels of the loop. */
    method ConvertLoop(cond: Node, body: seq<Node>, conditionCheck: nat) returns (head: IrNode, nodes: seq<IrNode>)
      requires Valid()
      modifies this`labels, this`curTrueLabel, this`curFalseLabel, this`curContinueLabel, this`curBreakLabel
      ensures Grown() && Current() == old(Current())
      ensures var inner, c := WhileLabels(conditionCheck), CurrentUnit();
              var (ir, k) := Lower(cond, inner, c, |old(labels)|);
              var (irs, k') := Onto([], LowerBody(body, false, inner, c, k));
              head == ir && nodes == irs + [IrBranch(Always, conditionCheck)] && |labels| == k'
      decreases While(cond, body), 0
    {
      hide Valid, Lower, LowerBody, LowerArgs, Onto;
      var loopBlock, loopEnd := conditionCheck + 1, conditionCheck + 2;
      var oldFalse, oldTrue, oldContinue, oldBreak := curFalseLabel, curTrueLabel, curContinueLabel, curBreakLabel;
      curFalseLabel, curTrueLabel := Some(loopEnd), Some(loopBlock);
      curBreakLabel, curContinueLabel := Some(loopEnd), Some(conditionCheck);
      head := Get(cond);
      var last: Option<IrNode>;
      nodes, last := ConvertBody(body, [], false);
      nodes := nodes + [IrBranch(Always, conditionCheck)];
      curFalseLabel, curTrueLabel, curContinueLabel, curBreakLabel := oldFalse, oldTrue, oldContinue, oldBreak;
    }

    /** The parameters, popped in reverse order. */
    method StoreParameters(arity: nat) returns (body: seq<IrNode>)
      ensures body == StoreArgs(arity)
    {
      body := [];
      var a := arity;
      while a > 0
        invariant 0 <= a <= arity && body + StoreArgs(a) == StoreArgs(arity)
      {
        a := a - 1;
        body := body + [IrAssignTop(Local, a)];
      }
    }

    /** What is inside a function: its frame, its parameters, its body and a final return. */
    method ConvertInside(fn: FnDef) returns (body: seq<IrNode>)
      requires Valid() && curLocalsCount == fn.localsCount
      modifies this`labels, this`curTrueLabel, this`curFalseLabel, this`curContinueLabel, this`curBreakLabel
      ensures Grown() && Current() == old(Current())
      ensures var (nodes, k) := LowerBody(fn.body, false, old(Current()), CurrentUnit(), |old(labels)|);
              var all, leave := StoreArgs(fn.arity) + nodes, fn.localsCount > 0;
              body == (if leave then [IrAllocateLocals(fn.localsCount)] else []) + (all + FinalReturn(all, leave))
              && |labels| == k
    {
      hide Valid, LowerBody;
      body := StoreParameters(fn.arity);
      var last: Option<IrNode>;
      body, last := ConvertBody(fn.body, body, false);
      if body == [] || !body[|body| - 1].IrReturn? {
        body := body + [IrReturn([], curLocalsCount != 0)];
      } else {
        assert body + [] == body;
      }
      if curLocalsCount > 0 {
        body := [IrAllocateLocals(curLocalsCount)] + body;
      } else {
        assert [] + body == body;
      }
    }

    /** Defines and binds a function; its code goes to `first`, behind a branch over it. */
    method VisitFn(fn: FnDef)
      requires Valid() && Current() == NO_LABELS
      modifies this
      ensures Grown() && Current() == NO_LABELS && curLocalsCount == old(curLocalsCount)
      ensures boundFunctions == old(boundFunctions) + [|old(labels)|]
      ensures var (nodes, k) := LowerFn(fn, old(boundFunctions), |old(labels)|);
              first == old(first) + nodes && |labels| == k
    {
      hide Valid, LowerBody;
      var oldLocalsCount := curLocalsCount;
      curLocalsCount := fn.localsCount;
      var entry := MakeLabel();
      var end := MakeLabel();
      boundFunctions := boundFunctions + [entry];
      var body := ConvertInside(fn);
      first := first + [IrBranch(Always, end)] + [IrNamedBlock(entry, body, end)];
      curLocalsCount := oldLocalsCount;
    }

    /** Functions in their source order, then the free statements. */
    method Convert(prog: Program) returns (nodes: seq<IrNode>)
      requires Valid() && labels == [] && Current() == NO_LABELS && curLocalsCount == 0 && boundFunctions == []
      requires first == []
      modifies this
      ensures Valid() && (forall i | 0 <= i < |labels| :: fresh(labels[i])) && (nodes, |labels|) == LowerProgram(prog)
    {
      hide Valid, LowerBody, LowerFn;
      var f := 0;
      while f < |prog.fns|
        invariant f <= |prog.fns| && Valid() && (forall i | 0 <= i < |labels| :: fresh(labels[i]))
        invariant Current() == NO_LABELS && curLocalsCount == 0
        invariant (first, boundFunctions, |labels|) == LowerFns(prog.fns[..f])
      {
        assert prog.fns[..f + 1][..f] == prog.fns[..f];
        VisitFn(prog.fns[f]);
        f := f + 1;
      }
      assert prog.fns[..f] == prog.fns;
      var last: Option<IrNode>;
      nodes, last := ConvertBody(prog.main, first, false);
    }
  }

  /** IR appended to what a body already holds. */
  function Onto(dst: seq<IrNode>, more: (seq<IrNode>, nat)): (seq<IrNode>, nat) { (dst + more.0, more.1) }

  /** The value a body ends in. */
  function LastValue(nodes: seq<IrNode>): Option<IrNode> {
    if nodes != [] && IsIrValue(nodes[|nodes| - 1]) then Some(nodes[|nodes| - 1]) else None
  }

  lemma LastStep(src: seq<Node>, i: nat, ls: Labels, c: Unit, next: nat)
    requires i < |src|
    ensures var (ir, k) := Lower(src[i], ls, c, next);
            LastValue(LowerBody(src[i..], true, ls, c, next).0) ==
            if i + 1 < |src| then LastValue(LowerBody(src[i + 1..], true, ls, c, k).0)
            else if IsIrValue(ir) then Some(ir) else None
  {
    hide Lower;
    assert src[i..][0] == src[i] && src[i..][1..] == src[i + 1..];
    var (ir, k) := Lower(src[i], ls, c, next);
    var rest := LowerBody(src[i + 1..], true, ls, c, k).0;
    if i + 1 == |src| { assert rest == [] && [ir] + ([] + rest) == [ir]; }
  }

  lemma OntoNothing(more: (seq<IrNode>, nat))
    ensures Onto([], more) == more
  {
    assert [] + more.0 == more.0;
  }

  lemma BodyDone(src: seq<Node>, nodes: seq<IrNode>, collecting: bool, ls: Labels, c: Unit, next: nat)
    requires src == []
    ensures Onto(nodes, LowerBody(src, collecting, ls, c, next)) == (nodes, next)
    ensures LastValue(LowerBody(src, collecting, ls, c, next).0) == None
  {
    assert nodes + [] == nodes;
  }

  lemma BodyStep(src: seq<Node>, i: nat, nodes: seq<IrNode>, collecting: bool, ls: Labels, c: Unit, next: nat)
    requires i < |src|
    ensures var (ir, k) := Lower(src[i], ls, c, next);
            Onto(nodes, LowerBody(src[i..], collecting, ls, c, next))
            == Onto(if IsIrValue(ir) && !(i + 1 >= |src| && collecting) && IrType(ir) != Void
                    then nodes + [ir] + [IrDiscardResult(1)] else nodes + [ir],
                    LowerBody(src[i + 1..], collecting, ls, c, k))
  {
    hide Lower;
    assert src[i..][0] == src[i] && src[i..][1..] == src[i + 1..];
    var (ir, k) := Lower(src[i], ls, c, next);
    var rest := LowerBody(src[i + 1..], collecting, ls, c, k).0;
    assert [ir] + ([] + rest) == [ir] + rest;
    assert nodes + ([ir] + ([IrDiscardResult(1)] + rest)) == nodes + [ir] + [IrDiscardResult(1)] + rest;
    assert nodes + ([ir] + rest) == nodes + [ir] + rest;
  }

  lemma OrIr(l: Node, r: Node, ls: Labels, c: Unit, next: nat)
    ensures var (lhs, k) := Lower(l, ls, c, next);
            var (rhs, k') := Lower(r, ls, c, k);
            Lower(LogicalOr(l, r), ls, c, next) ==
              if ls.yes.Some? then (IrBlock([lhs] + [IrBranch(PopIfTrue, ls.yes.value)] + [rhs], Bool), k')
              else (IrBlock([lhs] + [IrBranch(TrueOrPop, k')] + [rhs] + [IrLabel(k')], Bool), k' + 1)
  {
    var (lhs, k) := Lower(l, ls, c, next);
    var (rhs, k') := Lower(r, ls, c, k);
    if ls.yes.Some? {
      assert [lhs] + [IrBranch(PopIfTrue, ls.yes.value)] + [rhs] == [lhs, IrBranch(PopIfTrue, ls.yes.value), rhs];
    } else {
      assert [lhs] + [IrBranch(TrueOrPop, k')] + [rhs] + [IrLabel(k')] ==
               [lhs, IrBranch(TrueOrPop, k'), rhs, IrLabel(k')];
    }
  }

  lemma AndIr(l: Node, r: Node, ls: Labels, c: Unit, next: nat)
    ensures var (lhs, k) := Lower(l, ls.(yes := Some(next)), c, next + 1);
            var (rhs, k') := Lower(r, ls, c, k);
            Lower(LogicalAnd(l, r), ls, c, next) ==
              if ls.no.Some? then
                (IrBlock([lhs] + [IrBranch(PopIfFalse, ls.no.value)] + [IrLabel(next)] + [rhs], Bool), k')
              else (IrBlock([lhs] + [IrBranch(FalseOrPop, k')] + [IrLabel(next)] + [rhs] + [IrLabel(k')], Bool), k' + 1)
  {
    var (lhs, k) := Lower(l, ls.(yes := Some(next)), c, next + 1);
    var (rhs, k') := Lower(r, ls, c, k);
    if ls.no.Some? {
      assert [lhs] + [IrBranch(PopIfFalse, ls.no.value)] + [IrLabel(next)] + [rhs] ==
               [lhs, IrBranch(PopIfFalse, ls.no.value), IrLabel(next), rhs];
    } else {
      assert [lhs] + [IrBranch(FalseOrPop, k')] + [IrLabel(next)] + [rhs] + [IrLabel(k')]
          == [lhs, IrBranch(FalseOrPop, k'), IrLabel(next), rhs, IrLabel(k')];
    }
  }

  /** An if/else without its block: the nodes, the type of the value and the label counter. */
  function Legs(cond: Node, cons: seq<Node>, alt: seq<Node>, altBegin: nat, ls: Labels, c: Unit,
                next: nat): (seq<IrNode>, Ty, nat) {
    var (head, k) := Lower(cond, ls, c, next);
    var keep := !(cons == [] || alt == []);
    var (leg, k') := LowerBody(cons, keep, ls, c, k);
    var start := [head] + [IrBranch(PopIfFalse, altBegin)] + [IrLabel(altBegin + 1)] + leg;
    if alt == [] then (start + [IrLabel(altBegin)], Void, k')
    else
      var (other, k'') := LowerBody(alt, keep, ls, c, k' + 1);
      var a, b := LastValue(leg), LastValue(other);
      (start + [IrBranch(Always, k')] + [IrLabel(altBegin)] + other + [IrLabel(k')],
       if keep && a.Some? && b.Some? && IrType(b.value) == IrType(a.value) then IrType(a.value) else Void, k'')
  }

  lemma IfIr(cond: Node, cons: seq<Node>, alt: seq<Node>, ls: Labels, c: Unit, next: nat)
    ensures var (block, ty, k) := Legs(cond, cons, alt, next, IfLabels(ls, next), c, next + 2);
            Lower(IfElse(cond, cons, alt), ls, c, next) == (IrBlock(block, ty), k)
  {
    hide LowerBody;
    var inner := IfLabels(ls, next);
    var (head, k) := Lower(cond, inner, c, next + 2);
    var keep := !(cons == [] || alt == []);
    var (leg, k') := LowerBody(cons, keep, inner, c, k);
    var other := LowerBody(alt, keep, inner, c, k' + 1).0;
    var a, b, d, e, z :=
      [IrBranch(PopIfFalse, next)], [IrLabel(next + 1)], [IrBranch(Always, k')], [IrLabel(next)], [IrLabel(k')];
    assert [head, IrBranch(PopIfFalse, next), IrLabel(next + 1)] == [head] + a + b;
    assert [IrBranch(Always, k'), IrLabel(next)] == d + e;
    IfParts([head] + a + b, leg, d, e, other, z);
  }

  lemma WhileIr(cond: Node, body: seq<Node>, ls: Labels, c: Unit, next: nat)
    ensures var (head, k) := Lower(cond, WhileLabels(next), c, next + 3);
            var (nodes, k') := Onto([], LowerBody(body, false, WhileLabels(next), c, k));
            Lower(While(cond, body), ls, c, next) ==
              (IrBlock([IrLabel(next), head, IrBranch(PopIfFalse, next + 2),
                        IrNamedBlock(next + 1, nodes + [IrBranch(Always, next)], next + 2)], Void), k')
  {
    hide LowerBody;
    OntoNothing(LowerBody(body, false, WhileLabels(next), c, Lower(cond, WhileLabels(next), c, next + 3).1));
  }

  lemma IfParts(s: seq<IrNode>, leg: seq<IrNode>, d: seq<IrNode>, e: seq<IrNode>, other: seq<IrNode>, z: seq<IrNode>)
    ensures s + (leg + e) == s + leg + e
    ensures s + (leg + ((d + e) + (other + z))) == s + leg + d + e + other + z
  {
    assert (d + e) + (other + z) == d + e + other + z;
    assert leg + (d + e + other + z) == leg + d + e + other + z;
  }
}
