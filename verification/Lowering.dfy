/**
 The translation from syntax tree to IR as a function: which labels each construct creates, in
 which order, and where they are placed. `next` is the label generator's counter.
 */
module Lowering {
  import opened Wrappers
  import opened Fixnums
  import opened Ast
  import opened Ir

  /** The converter's current labels. */
  datatype Labels = Labels(yes: Option<nat>, no: Option<nat>, cont: Option<nat>, brk: Option<nat>)

  const NO_LABELS := Labels(None, None, None, None)

  /** Entry labels of the functions bound so far, and whether returns leave a locals frame. */
  datatype Unit = Unit(entry: seq<nat>, leave: bool)

  function Get(o: Option<nat>): nat { if o.Some? then o.value else 0 }

  function Lower(n: Node, ls: Labels, c: Unit, next: nat): (IrNode, nat)
    decreases n, 1
  {
    match n
    case Integer(k) => (IrFixnum(k), next)
    case Boolean(b) => (IrBoolean(b), next)
    case Variable(scope, index, ty) => (IrSymbol(scope, index, ty), next)
    case BinaryNode(op, l, r) =>
      var (lhs, k) := Lower(l, ls, c, next);
      var (rhs, k') := Lower(r, ls, c, k);
      (IrBinary(op, lhs, rhs), k')
    case UnaryNode(op, x) =>
      var (operand, k) := Lower(x, ls, c, next);
      (IrUnary(op, operand), k)
    case LogicalOr(l, r) =>
      var (lhs, k) := Lower(l, ls, c, next);
      var (rhs, k') := Lower(r, ls, c, k);
      if ls.yes.Some? then
        (IrBlock([lhs, IrBranch(PopIfTrue, ls.yes.value), rhs], Bool), k')
      else
        (IrBlock([lhs, IrBranch(TrueOrPop, k'), rhs, IrLabel(k')], Bool), k' + 1)
    case LogicalAnd(l, r) =>
      var (lhs, k) := Lower(l, ls.(yes := Some(next)), c, next + 1);
      var (rhs, k') := Lower(r, ls, c, k);
      if ls.no.Some? then
        (IrBlock([lhs, IrBranch(PopIfFalse, ls.no.value), IrLabel(next), rhs], Bool), k')
      else
        (IrBlock([lhs, IrBranch(FalseOrPop, k'), IrLabel(next), rhs, IrLabel(k')], Bool), k' + 1)
    case Assign(scope, index, value) =>
      var (rhs, k) := Lower(value, ls, c, next);
      (IrAssignment(scope, index, rhs), k)
    case IfElse(cond, cons, alt) =>
      var inner := ls.(no := Some(next), yes := Some(next + 1));
      var (head, k) := Lower(cond, inner, c, next + 2);
      var keep := cons != [] && alt != [];
      var (leg, k') := LowerBody(cons, keep, inner, c, k);
      var start := [head, IrBranch(PopIfFalse, next), IrLabel(next + 1)];
      if alt == [] then
        (IrBlock(start + (leg + [IrLabel(next)]), Void), k')
      else
        var (other, k'') := LowerBody(alt, keep, inner, c, k' + 1);
        var rest := [IrBranch(Always, k'), IrLabel(next)] + (other + [IrLabel(k')]);
        (IrBlock(start + (leg + rest), IfElseType(keep, leg, other)), k'')
    case While(cond, body) =>
      var inner := Labels(Some(next + 1), Some(next + 2), Some(next), Some(next + 2));
      var (head, k) := Lower(cond, inner, c, next + 3);
      var (nodes, k') := LowerBody(body, false, inner, c, k);
      (IrBlock([IrLabel(next), head, IrBranch(PopIfFalse, next + 2),
                IrNamedBlock(next + 1, nodes + [IrBranch(Always, next)], next + 2)], Void), k')
    case Break => (IrBranch(Always, Get(ls.brk)), next)
    case Continue => (IrBranch(Always, Get(ls.cont)), next)
    case Return(values) =>
      var (irs, k) := LowerArgs(values, ls, c, next);
      (IrReturn(irs, c.leave), k)
    case Call(fn, args, ty) =>
      var (irs, k) := LowerArgs(args, ls, c, next);
      (IrCall(if fn < |c.entry| then c.entry[fn] else 0, irs, ty), k)
  }

  /** The type of an if/else whose legs end in `leg`'s and `other`'s last nodes. */
  function IfElseType(keep: bool, leg: seq<IrNode>, other: seq<IrNode>): Ty {
    if keep && leg != [] && other != []
       && IsIrValue(leg[|leg| - 1]) && IsIrValue(other[|other| - 1])
       && IrType(other[|other| - 1]) == IrType(leg[|leg| - 1])
    then IrType(leg[|leg| - 1]) else Void
  }

  /** Values that nobody takes are discarded, except a last one that is collected. */
  function Discard(ir: IrNode, keep: bool): seq<IrNode> {
    if IsIrValue(ir) && !keep && IrType(ir) != Void then [IrDiscardResult(1)] else []
  }

  function LowerBody(body: seq<Node>, keepLast: bool, ls: Labels, c: Unit, next: nat): (seq<IrNode>, nat)
    decreases body, 0
  {
    if body == [] then ([], next) else
    var (ir, k) := Lower(body[0], ls, c, next);
    var (rest, k') := LowerBody(body[1..], keepLast, ls, c, k);
    ([ir] + (Discard(ir, keepLast && |body| == 1) + rest), k')
  }

  function LowerArgs(args: seq<Node>, ls: Labels, c: Unit, next: nat): (seq<IrNode>, nat)
    decreases args, 0
  {
    if args == [] then ([], next) else
    var (ir, k) := Lower(args[0], ls, c, next);
    var (rest, k') := LowerArgs(args[1..], ls, c, k);
    ([ir] + rest, k')
  }

  /** Arguments are pushed left to right, so they are stored in reverse. */
  function StoreArgs(arity: nat): seq<IrNode> {
    if arity == 0 then [] else [IrAssignTop(Local, arity - 1)] + StoreArgs(arity - 1)
  }

  /** A body that does not end in a return gets one. */
  function FinalReturn(nodes: seq<IrNode>, leave: bool): seq<IrNode> {
    if nodes != [] && nodes[|nodes| - 1].IrReturn? then [] else [IrReturn([], leave)]
  }

  function LowerFn(fn: FnDef, entry: seq<nat>, next: nat): (seq<IrNode>, nat) {
    var leave := fn.localsCount > 0;
    var (nodes, k) := LowerBody(fn.body, false, NO_LABELS, Unit(entry + [next], leave), next + 2);
    var all := StoreArgs(fn.arity) + nodes;
    var alloc := if leave then [IrAllocateLocals(fn.localsCount)] else [];
    ([IrBranch(Always, next + 1), IrNamedBlock(next, alloc + (all + FinalReturn(all, leave)), next + 1)], k)
  }

  /** The functions in order; returns their IR, their entry labels and the counter. */
  function LowerFns(fns: seq<FnDef>): (seq<IrNode>, seq<nat>, nat) {
    if fns == [] then ([], [], 0) else
    var (before, entry, k) := LowerFns(fns[..|fns| - 1]);
    var (nodes, k') := LowerFn(fns[|fns| - 1], entry, k);
    (before + nodes, entry + [k], k')
  }

  function LowerProgram(prog: Program): (seq<IrNode>, nat) {
    var (first, entry, k) := LowerFns(prog.fns);
    var (second, k') := LowerBody(prog.main, false, NO_LABELS, Unit(entry, false), k);
    (first + second, k')
  }

  // ----- the IR's types are the syntax tree's -----

  lemma {:induction false} LowerTypes(n: Node, ls: Labels, c: Unit, next: nat)
    ensures var ir := Lower(n, ls, c, next).0;
            (IsIrValue(ir) <==> IsValue(n)) && IrType(ir) == (if IsValue(n) then TypeOf(n) else Void)
    decreases n, 1
  {
    hide LowerBody, LowerArgs, IfElseType;
    if n.IfElse? { IfElseTypes(n.cond, n.consequence, n.alternative, ls, c, next); }
  }

  lemma {:induction false} IfElseTypes(cond: Node, cons: seq<Node>, alt: seq<Node>, ls: Labels, c: Unit, next: nat)
    ensures var ir := Lower(IfElse(cond, cons, alt), ls, c, next).0;
            IsIrValue(ir) && IrType(ir) == TypeOf(IfElse(cond, cons, alt))
    decreases IfElse(cond, cons, alt), 0
  {
    hide LowerBody, LowerArgs;
    if cons != [] && alt != [] {
      var inner := IfLabels(ls, next);
      var (_, k) := Lower(cond, inner, c, next + 2);
      var (_, k') := LowerBody(cons, true, inner, c, k);
      LastOfBody(cons, inner, c, k);
      LastOfBody(alt, inner, c, k' + 1);
    }
  }

  lemma {:induction false} LastOfBody(body: seq<Node>, ls: Labels, c: Unit, next: nat)
    requires body != []
    ensures var nodes, last := LowerBody(body, true, ls, c, next).0, body[|body| - 1];
            && nodes != []
            && (IsIrValue(nodes[|nodes| - 1]) <==> IsValue(last))
            && IrType(nodes[|nodes| - 1]) == (if IsValue(last) then TypeOf(last) else Void)
    decreases body, 0
  {
    var (ir, k) := Lower(body[0], ls, c, next);
    if |body| == 1 {
      LowerTypes(body[0], ls, c, next);
      assert LowerBody(body[1..], true, ls, c, k).0 == [];
    } else {
      LastOfBody(body[1..], ls, c, k);
    }
  }

  // ----- the listing of each construct -----

  /** The code of one node. */
  function Code(n: Node, ls: Labels, c: Unit, next: nat): seq<Ins> { Listing(Lower(n, ls, c, next).0) }

  function Next(n: Node, ls: Labels, c: Unit, next: nat): nat { Lower(n, ls, c, next).1 }

  function BodyCode(body: seq<Node>, keepLast: bool, ls: Labels, c: Unit, next: nat): seq<Ins> {
    ListingAll(LowerBody(body, keepLast, ls, c, next).0)
  }

  function BodyNext(body: seq<Node>, keepLast: bool, ls: Labels, c: Unit, next: nat): nat {
    LowerBody(body, keepLast, ls, c, next).1
  }

  function ArgsCode(args: seq<Node>, ls: Labels, c: Unit, next: nat): seq<Ins> {
    ListingAll(LowerArgs(args, ls, c, next).0)
  }

  function ArgsNext(args: seq<Node>, ls: Labels, c: Unit, next: nat): nat {
    LowerArgs(args, ls, c, next).1
  }

  lemma BinaryListing(op: BinOp, x: Node, y: Node, ls: Labels, c: Unit, next: nat)
    ensures Code(BinaryNode(op, x, y), ls, c, next) ==
              Code(x, ls, c, next) + (Code(y, ls, c, Next(x, ls, c, next)) + [Operate(op)])
  {
  }

  /** With a label for it a decided `or` leaves through that label, otherwise through its own end. */
  function OrJump(ls: Labels, end: nat): Ins {
    if ls.yes.Some? then Jump(PopIfTrue, ls.yes.value) else Jump(TrueOrPop, end)
  }

  function OwnEnd(given: Option<nat>, end: nat): seq<Ins> { if given.Some? then [] else [Mark(end)] }

  function OrCode(l: Node, r: Node, ls: Labels, c: Unit, next: nat): seq<Ins> {
    var k := Next(l, ls, c, next);
    var k' := Next(r, ls, c, k);
    Code(l, ls, c, next) + ([OrJump(ls, k')] + (Code(r, ls, c, k) + OwnEnd(ls.yes, k')))
  }

  lemma OrListing(l: Node, r: Node, ls: Labels, c: Unit, next: nat)
    ensures Code(LogicalOr(l, r), ls, c, next) == OrCode(l, r, ls, c, next)
  {
    hide Listing, ListingAll, LowerBody, LowerArgs;
    var (lhs, k) := Lower(l, ls, c, next);
    var (rhs, k') := Lower(r, ls, c, k);
    if ls.yes.Some? {
      ListingAtoms(PopIfTrue, ls.yes.value, 0);
      ListingThree(lhs, IrBranch(PopIfTrue, ls.yes.value), rhs, []);
      assert Listing(rhs) + [] == Listing(rhs);
    } else {
      ListingAtoms(TrueOrPop, k', k');
      ListingThree(lhs, IrBranch(TrueOrPop, k'), rhs, [IrLabel(k')]);
      ListingOne(IrLabel(k'));
      assert [lhs, IrBranch(TrueOrPop, k'), rhs, IrLabel(k')] == [lhs, IrBranch(TrueOrPop, k'), rhs] + [IrLabel(k')];
    }
  }

  lemma ListingThree(a: IrNode, b: IrNode, d: IrNode, rest: seq<IrNode>)
    ensures ListingAll([a, b, d] + rest) == Listing(a) + (Listing(b) + (Listing(d) + ListingAll(rest)))
    ensures rest == [] ==> ListingAll([a, b, d]) == Listing(a) + (Listing(b) + Listing(d))
  {
    assert [a, b, d] + rest == [a] + ([b] + ([d] + rest));
    ListingCons(d, rest);
    ListingCons(b, [d] + rest);
    ListingCons(a, [b] + ([d] + rest));
    if rest == [] { assert [a, b, d] + rest == [a, b, d]; }
  }

  function AndJump(ls: Labels, end: nat): Ins {
    if ls.no.Some? then Jump(PopIfFalse, ls.no.value) else Jump(FalseOrPop, end)
  }

  function AndCode(l: Node, r: Node, ls: Labels, c: Unit, next: nat): seq<Ins> {
    var left := ls.(yes := Some(next));
    var k := Next(l, left, c, next + 1);
    var k' := Next(r, ls, c, k);
    Code(l, left, c, next + 1) + ([AndJump(ls, k')] + ([Mark(next)] + (Code(r, ls, c, k) + OwnEnd(ls.no, k'))))
  }

  lemma AndListing(l: Node, r: Node, ls: Labels, c: Unit, next: nat)
    ensures Code(LogicalAnd(l, r), ls, c, next) == AndCode(l, r, ls, c, next)
  {
    hide Listing, ListingAll, LowerBody, LowerArgs;
    var (lhs, k) := Lower(l, ls.(yes := Some(next)), c, next + 1);
    var (rhs, k') := Lower(r, ls, c, k);
    if ls.no.Some? {
      var jump := IrBranch(PopIfFalse, ls.no.value);
      ListingAtoms(PopIfFalse, ls.no.value, next);
      ListingThree(lhs, jump, IrLabel(next), [rhs]);
      ListingOne(rhs);
      assert Listing(rhs) + [] == Listing(rhs);
      assert [lhs, jump, IrLabel(next), rhs] == [lhs, jump, IrLabel(next)] + [rhs];
    } else {
      var jump := IrBranch(FalseOrPop, k');
      ListingAtoms(FalseOrPop, k', next);
      ListingThree(lhs, jump, IrLabel(next), [rhs, IrLabel(k')]);
      ListingCons(rhs, [IrLabel(k')]);
      ListingOne(IrLabel(k'));
      ListingAtoms(FalseOrPop, k', k');
      assert [rhs, IrLabel(k')] == [rhs] + [IrLabel(k')];
      assert [lhs, jump, IrLabel(next), rhs, IrLabel(k')] == [lhs, jump, IrLabel(next)] + [rhs, IrLabel(k')];
    }
  }

  function IfLabels(ls: Labels, next: nat): Labels { ls.(no := Some(next), yes := Some(next + 1)) }

  function IfCode(cond: Node, cons: seq<Node>, alt: seq<Node>, ls: Labels, c: Unit, next: nat): seq<Ins> {
    var inner := IfLabels(ls, next);
    var k := Next(cond, inner, c, next + 2);
    var keep := cons != [] && alt != [];
    var k' := BodyNext(cons, keep, inner, c, k);
    Code(cond, inner, c, next + 2) + ([Jump(PopIfFalse, next)] + ([Mark(next + 1)] +
    (BodyCode(cons, keep, inner, c, k) + IfTail(alt, keep, inner, c, next, k'))))
  }

  function IfTail(alt: seq<Node>, keep: bool, inner: Labels, c: Unit, next: nat, k': nat): seq<Ins> {
    if alt == [] then [Mark(next)]
    else [Jump(Always, k')] + ([Mark(next)] + (BodyCode(alt, keep, inner, c, k' + 1) + [Mark(k')]))
  }

  lemma IfNodes(cond: Node, cons: seq<Node>, alt: seq<Node>, ls: Labels, c: Unit, next: nat)
    ensures var inner, keep := IfLabels(ls, next), cons != [] && alt != [];
            var (head, k) := Lower(cond, inner, c, next + 2);
            var (leg, k') := LowerBody(cons, keep, inner, c, k);
            var block := Lower(IfElse(cond, cons, alt), ls, c, next).0;
            block.IrBlock? && block.nodes ==
              [head, IrBranch(PopIfFalse, next), IrLabel(next + 1)] + (leg + IfTailNodes(alt, keep, inner, c, next, k'))
  {
    hide LowerBody, LowerArgs, IfElseType;
  }

  lemma IfListing(cond: Node, cons: seq<Node>, alt: seq<Node>, ls: Labels, c: Unit, next: nat)
    ensures Code(IfElse(cond, cons, alt), ls, c, next) == IfCode(cond, cons, alt, ls, c, next)
  {
    hide Lower, LowerBody, LowerArgs, ListingAll, IfTail, IfTailNodes;
    var inner := IfLabels(ls, next);
    var (head, k) := Lower(cond, inner, c, next + 2);
    var keep := cons != [] && alt != [];
    var (leg, k') := LowerBody(cons, keep, inner, c, k);
    var tail := IfTailNodes(alt, keep, inner, c, next, k');
    IfNodes(cond, cons, alt, ls, c, next);
    IfTailListing(alt, keep, inner, c, next, k');
    ListingAppend(leg, tail);
    ListingThree(head, IrBranch(PopIfFalse, next), IrLabel(next + 1), leg + tail);
  }

  /** The IR that follows the consequence. */
  function IfTailNodes(alt: seq<Node>, keep: bool, inner: Labels, c: Unit, next: nat, k': nat): seq<IrNode> {
    if alt == [] then [IrLabel(next)]
    else [IrBranch(Always, k'), IrLabel(next)] + (LowerBody(alt, keep, inner, c, k' + 1).0 + [IrLabel(k')])
  }

  lemma IfTailListing(alt: seq<Node>, keep: bool, inner: Labels, c: Unit, next: nat, k': nat)
    ensures ListingAll(IfTailNodes(alt, keep, inner, c, next, k')) == IfTail(alt, keep, inner, c, next, k')
  {
    if alt == [] {
      ListingOne(IrLabel(next));
    } else {
      var other := LowerBody(alt, keep, inner, c, k' + 1).0;
      ListingAppend(other, [IrLabel(k')]);
      ListingOne(IrLabel(k'));
      var tail := other + [IrLabel(k')];
      ListingCons(IrLabel(next), tail);
      ListingCons(IrBranch(Always, k'), [IrLabel(next)] + tail);
      assert [IrBranch(Always, k')] + ([IrLabel(next)] + tail) == [IrBranch(Always, k'), IrLabel(next)] + tail;
    }
  }

  function WhileLabels(next: nat): Labels { Labels(Some(next + 1), Some(next + 2), Some(next), Some(next + 2)) }

  function WhileCode(cond: Node, body: seq<Node>, c: Unit, next: nat): seq<Ins> {
    var inner := WhileLabels(next);
    var k := Next(cond, inner, c, next + 3);
    [Mark(next)] + (Code(cond, inner, c, next + 3) + ([Jump(PopIfFalse, next + 2)] + ([Mark(next + 1)] +
    (BodyCode(body, false, inner, c, k) + ([Jump(Always, next)] + [Mark(next + 2)])))))
  }

  lemma WhileNodes(cond: Node, body: seq<Node>, ls: Labels, c: Unit, next: nat)
    ensures var (head, k) := Lower(cond, WhileLabels(next), c, next + 3);
            var (nodes, k') := LowerBody(body, false, WhileLabels(next), c, k);
            Lower(While(cond, body), ls, c, next) ==
              (IrBlock([IrLabel(next), head, IrBranch(PopIfFalse, next + 2),
                        IrNamedBlock(next + 1, nodes + [IrBranch(Always, next)], next + 2)], Void), k')
  {
  }

  lemma WhileListing(cond: Node, body: seq<Node>, ls: Labels, c: Unit, next: nat)
    ensures Code(While(cond, body), ls, c, next) == WhileCode(cond, body, c, next)
  {
    hide Lower, LowerBody, LowerArgs, ListingAll;
    var inner := WhileLabels(next);
    var (head, k) := Lower(cond, inner, c, next + 3);
    var (nodes, k') := LowerBody(body, false, inner, c, k);
    var back := IrBranch(Always, next);
    var named := IrNamedBlock(next + 1, nodes + [back], next + 2);
    WhileNodes(cond, body, ls, c, next);
    ListingAppend(nodes, [back]);
    ListingOne(back);
    ListingOne(named);
    ListingThree(IrLabel(next), head, IrBranch(PopIfFalse, next + 2), [named]);
    assert [IrLabel(next), head, IrBranch(PopIfFalse, next + 2), named] ==
             [IrLabel(next), head, IrBranch(PopIfFalse, next + 2)] + [named];
    assert BodyCode(body, false, inner, c, k) + [Jump(Always, next)] + [Mark(next + 2)]
        == BodyCode(body, false, inner, c, k) + ([Jump(Always, next)] + [Mark(next + 2)]);
  }

  lemma ArgsListing(args: seq<Node>, ls: Labels, c: Unit, next: nat)
    requires args != []
    ensures ArgsCode(args, ls, c, next) ==
              Code(args[0], ls, c, next) + ArgsCode(args[1..], ls, c, Next(args[0], ls, c, next))
  {
    var (ir, k) := Lower(args[0], ls, c, next);
    ListingCons(ir, LowerArgs(args[1..], ls, c, k).0);
  }

  /** The discard that follows a body's node, if any. */
  function DropCode(n: Node, keep: bool): seq<Ins> {
    if LeavesValue(n) && !keep then [Ins.Drop(1)] else []
  }

  lemma BodyListing(body: seq<Node>, keepLast: bool, ls: Labels, c: Unit, next: nat)
    requires body != []
    ensures BodyCode(body, keepLast, ls, c, next) ==
      Code(body[0], ls, c, next)
      + (DropCode(body[0], keepLast && |body| == 1) + BodyCode(body[1..], keepLast, ls, c, Next(body[0], ls, c, next)))
  {
    var (ir, k) := Lower(body[0], ls, c, next);
    var (rest, _) := LowerBody(body[1..], keepLast, ls, c, k);
    LowerTypes(body[0], ls, c, next);
    var discard := Discard(ir, keepLast && |body| == 1);
    ListingCons(ir, discard + rest);
    ListingAppend(discard, rest);
    ListingOne(IrDiscardResult(1));
  }

  function FnProlog(fn: FnDef): seq<Ins> {
    if fn.localsCount > 0 then [AllocLocals(fn.localsCount)] else []
  }

  function StoreCode(arity: nat): seq<Ins> {
    if arity == 0 then [] else [Store(Local, arity - 1)] + StoreCode(arity - 1)
  }

  function FnEpilog(fn: FnDef): seq<Ins> {
    if fn.body != [] && fn.body[|fn.body| - 1].Return? then [] else [ReturnCode(fn.localsCount > 0)]
  }

  function FnCode(fn: FnDef, entry: seq<nat>, next: nat): seq<Ins> {
    [Jump(Always, next + 1)] + ([Mark(next)] + (FnProlog(fn) + (StoreCode(fn.arity) +
    (BodyCode(fn.body, false, NO_LABELS, Unit(entry + [next], fn.localsCount > 0), next + 2)
     + (FnEpilog(fn) + [Mark(next + 1)])))))
  }

  lemma {:induction false} StoreListing(arity: nat)
    ensures ListingAll(StoreArgs(arity)) == StoreCode(arity)
  {
    if arity > 0 {
      StoreListing(arity - 1);
      ListingCons(IrAssignTop(Local, arity - 1), StoreArgs(arity - 1));
    }
  }

  lemma {:induction false} LastIsReturn(body: seq<Node>, ls: Labels, c: Unit, next: nat)
    ensures var nodes := LowerBody(body, false, ls, c, next).0;
            (nodes != [] && nodes[|nodes| - 1].IrReturn?) <==> (body != [] && body[|body| - 1].Return?)
    decreases |body|
  {
    if |body| == 1 {
      LowerTypes(body[0], ls, c, next);
      assert LowerBody(body[1..], false, ls, c, Next(body[0], ls, c, next)).0 == [];
    } else if |body| > 1 {
      LastIsReturn(body[1..], ls, c, Next(body[0], ls, c, next));
      BodyNonempty(body[1..], ls, c, Next(body[0], ls, c, next));
    }
  }

  lemma BodyNonempty(body: seq<Node>, ls: Labels, c: Unit, next: nat)
    requires body != []
    ensures LowerBody(body, false, ls, c, next).0 != []
  {
  }

  lemma FinalReturnListing(fn: FnDef, c: Unit, next: nat)
    ensures var all := StoreArgs(fn.arity) + LowerBody(fn.body, false, NO_LABELS, c, next).0;
            ListingAll(FinalReturn(all, fn.localsCount > 0)) == FnEpilog(fn)
  {
    var nodes := LowerBody(fn.body, false, NO_LABELS, c, next).0;
    var stores := StoreArgs(fn.arity);
    LastIsReturn(fn.body, NO_LABELS, c, next);
    StoreLast(fn.arity);
    if nodes == [] { assert stores + nodes == stores; }
    ListingOne(IrReturn([], fn.localsCount > 0));
  }

  lemma FnBodyListing(fn: FnDef, c: Unit, next: nat)
    ensures var all := StoreArgs(fn.arity) + LowerBody(fn.body, false, NO_LABELS, c, next).0;
            ListingAll(all + FinalReturn(all, fn.localsCount > 0))
            == StoreCode(fn.arity) + (BodyCode(fn.body, false, NO_LABELS, c, next) + FnEpilog(fn))
  {
    var nodes := LowerBody(fn.body, false, NO_LABELS, c, next).0;
    var stores := StoreArgs(fn.arity);
    FinalReturnListing(fn, c, next);
    StoreListing(fn.arity);
    ListingAppend(stores, nodes);
    ListingAppend(stores + nodes, FinalReturn(stores + nodes, fn.localsCount > 0));
  }

  /** A function's code sits in a named block that free-standing code branches over. */
  lemma WrappedListing(alloc: seq<IrNode>, inside: seq<IrNode>, next: nat)
    ensures ListingAll([IrBranch(Always, next + 1), IrNamedBlock(next, alloc + inside, next + 1)])
         == [Jump(Always, next + 1)] + ([Mark(next)] + ((ListingAll(alloc) + ListingAll(inside)) + [Mark(next + 1)]))
  {
    ListingAppend(alloc, inside);
    var jump, named := IrBranch(Always, next + 1), IrNamedBlock(next, alloc + inside, next + 1);
    ListingOne(named);
    ListingCons(jump, [named]);
    assert [jump, named] == [jump] + [named];
  }

  lemma FnListing(fn: FnDef, entry: seq<nat>, next: nat)
    ensures ListingAll(LowerFn(fn, entry, next).0) == FnCode(fn, entry, next)
  {
    var leave := fn.localsCount > 0;
    var u := Unit(entry + [next], leave);
    var all := StoreArgs(fn.arity) + LowerBody(fn.body, false, NO_LABELS, u, next + 2).0;
    var inside := all + FinalReturn(all, leave);
    var alloc := if leave then [IrAllocateLocals(fn.localsCount)] else [];
    WrappedListing(alloc, inside, next);
    assert ListingAll(inside) ==
             StoreCode(fn.arity) + (BodyCode(fn.body, false, NO_LABELS, u, next + 2) + FnEpilog(fn)) by {
      FnBodyListing(fn, u, next + 2);
    }
    assert ListingAll(alloc) == FnProlog(fn) by { ListingOne(IrAllocateLocals(fn.localsCount)); }
    SixParts([Jump(Always, next + 1)], [Mark(next)], FnProlog(fn), StoreCode(fn.arity),
             BodyCode(fn.body, false, NO_LABELS, u, next + 2), FnEpilog(fn), [Mark(next + 1)]);
  }

  lemma SixParts(a: seq<Ins>, b: seq<Ins>, p: seq<Ins>, s: seq<Ins>, d: seq<Ins>, e: seq<Ins>, z: seq<Ins>)
    ensures a + (b + ((p + (s + (d + e))) + z)) == a + (b + (p + (s + (d + (e + z)))))
  {
    assert (d + e) + z == d + (e + z);
    assert (s + (d + e)) + z == s + ((d + e) + z);
    assert (p + (s + (d + e))) + z == p + ((s + (d + e)) + z);
  }

  lemma {:induction false} StoreLast(arity: nat)
    ensures var s := StoreArgs(arity); s != [] ==> !s[|s| - 1].IrReturn?
  {
    if arity > 0 { StoreLast(arity - 1); }
  }
}
