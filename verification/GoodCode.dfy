/**
 What the byte-code step needs of the labelled code of a coherent program: every instruction
 can be encoded and decodes to itself, labels stay below the counter, every branch and call has
 a label to land on, and conditional branches lie before theirs.
 */
module GoodCode {
  import opened Wrappers
  import opened Fixnums
  import opened Ast
  import opened Ir
  import opened Lowering
  import opened LabelDiscipline
  import opened ByteCode
  import opened ByteSimulation
  import opened IrToCode

  predicate AllGood(code: seq<Ins>) { forall i | 0 <= i < |code| :: Good(code[i]) }

  lemma GoodGlue(a: seq<Ins>, b: seq<Ins>)
    requires AllGood(a) && AllGood(b)
    ensures AllGood(a + b)
  {
    forall i | 0 <= i < |a + b| ensures Good((a + b)[i]) {
      assert (a + b)[i] == if i < |a| then a[i] else b[i - |a|];
    }
  }

  lemma GoodBefore(i: Ins, b: seq<Ins>)
    requires Good(i) && AllGood(b)
    ensures AllGood([i] + b)
  {
    GoodGlue([i], b);
  }

  lemma GoodOne(i: Ins)
    requires Good(i)
    ensures AllGood([i])
  {
  }

  /** Branches, labels, calls and returns carry nothing that an encoding could lose. */
  lemma ControlGood(kind: BranchKind, l: nat, leave: bool)
    ensures Good(Jump(kind, l)) && Good(Mark(l)) && Good(CallCode(l)) && Good(ReturnCode(leave))
    ensures AllGood([Mark(l)]) && AllGood([Jump(kind, l)]) && AllGood([])
  {
  }

  lemma {:induction false} LowerGood(n: Node, u: LabelUse, p: Place, ls: Labels, c: Unit, next: nat)
    requires Coherent(n, u, p)
    ensures AllGood(Code(n, ls, c, next))
    decreases n, 2
  {
    hide AllGood, ListingAll, LowerBody, LowerArgs;
    var q := OperandPlace(p);
    match n
    case Integer(k) => GoodOne(Push(k));
    case Boolean(b) => GoodOne(Push(Truth(b)));
    case Variable(scope, index, _) => GoodOne(Load(scope, index));
    case BinaryNode(op, x, y) =>
      LowerGood(x, Inner(u), q, ls, c, next);
      LowerGood(y, Inner(u), q, ls, c, Next(x, ls, c, next));
      GoodOne(Operate(op));
      GoodGlue(Code(y, ls, c, Next(x, ls, c, next)), [Operate(op)]);
      BinaryListing(op, x, y, ls, c, next);
      GoodGlue(Code(x, ls, c, next), Code(y, ls, c, Next(x, ls, c, next)) + [Operate(op)]);
    case UnaryNode(op, x) =>
      LowerGood(x, Inner(u), q, ls, c, next);
      if op.Positive? {
        assert Code(x, ls, c, next) + [] == Code(x, ls, c, next);
      } else {
        GoodOne(OperateUnary(op));
        GoodGlue(Code(x, ls, c, next), [OperateUnary(op)]);
      }
    case LogicalOr(x, y) => OrGood(x, y, u, p, ls, c, next);
    case LogicalAnd(x, y) => AndGood(x, y, u, p, ls, c, next);
    case _ => StatementGood(n, u, p, ls, c, next);
  }

  lemma {:induction false} StatementGood(n: Node, u: LabelUse, p: Place, ls: Labels, c: Unit, next: nat)
    requires n.Assign? || n.IfElse? || n.While? || n.Break? || n.Continue? || n.Return? || n.Call?
    requires Coherent(n, u, p)
    ensures AllGood(Code(n, ls, c, next))
    decreases n, 1
  {
    hide AllGood, ListingAll, LowerBody, LowerArgs, Good;
    var q := OperandPlace(p);
    match n
    case Assign(scope, index, value) =>
      LowerGood(value, Inner(u), q, ls, c, next);
      SlotGood(scope, index, p);
      GoodGlue(Code(value, ls, c, next), [Store(scope, index)]);
    case IfElse(cond, cons, alt) => IfGood(cond, cons, alt, u, p, ls, c, next);
    case While(cond, body) => WhileGood(cond, body, u, p, ls, c, next);
    case Break => ControlGood(Always, Lowering.Get(ls.brk), false);
    case Continue => ControlGood(Always, Lowering.Get(ls.cont), false);
    case Return(values) =>
      ArgsGood(values, Inner(u), q, ls, c, next);
      ControlGood(Always, 0, c.leave);
      GoodOne(ReturnCode(c.leave));
      GoodGlue(ArgsCode(values, ls, c, next), [ReturnCode(c.leave)]);
    case Call(fn, args, _) =>
      ArgsGood(args, Inner(u), q, ls, c, next);
      var callee := if fn < |c.entry| then c.entry[fn] else 0;
      ControlGood(Always, callee, false);
      GoodOne(CallCode(callee));
      GoodGlue(ArgsCode(args, ls, c, next), [CallCode(callee)]);
  }

  lemma SlotGood(scope: Scope, index: nat, p: Place)
    requires SlotOk(scope, index, p)
    ensures AllGood([Store(scope, index)])
  {
  }

  lemma {:induction false} OrGood(x: Node, y: Node, u: LabelUse, p: Place, ls: Labels, c: Unit, next: nat)
    requires Coherent(LogicalOr(x, y), u, p)
    ensures AllGood(Code(LogicalOr(x, y), ls, c, next))
    decreases LogicalOr(x, y), 0
  {
    hide AllGood, Listing, ListingAll, LowerBody, Good, Lower;
    OrListing(x, y, ls, c, next);
    var k := Next(x, ls, c, next);
    var k' := Next(y, ls, c, k);
    LowerGood(x, u, OperandPlace(p), ls, c, next);
    LowerGood(y, u, OperandPlace(p), ls, c, k);
    ControlGood(PopIfTrue, Lowering.Get(ls.yes), false);
    ControlGood(TrueOrPop, k', false);
    GoodGlue(Code(y, ls, c, k), OwnEnd(ls.yes, k'));
    GoodBefore(OrJump(ls, k'), Code(y, ls, c, k) + OwnEnd(ls.yes, k'));
    GoodGlue(Code(x, ls, c, next), [OrJump(ls, k')] + (Code(y, ls, c, k) + OwnEnd(ls.yes, k')));
  }

  lemma {:induction false} AndGood(x: Node, y: Node, u: LabelUse, p: Place, ls: Labels, c: Unit, next: nat)
    requires Coherent(LogicalAnd(x, y), u, p)
    ensures AllGood(Code(LogicalAnd(x, y), ls, c, next))
    decreases LogicalAnd(x, y), 0
  {
    hide AllGood, Listing, ListingAll, LowerBody, Good, Lower;
    AndListing(x, y, ls, c, next);
    var left := ls.(yes := Some(next));
    var k := Next(x, left, c, next + 1);
    var k' := Next(y, ls, c, k);
    LowerGood(x, AndLeft(u), OperandPlace(p), left, c, next + 1);
    LowerGood(y, u, OperandPlace(p), ls, c, k);
    ControlGood(PopIfFalse, Lowering.Get(ls.no), false);
    ControlGood(FalseOrPop, k', false);
    ControlGood(Always, next, false);
    GoodGlue(Code(y, ls, c, k), OwnEnd(ls.no, k'));
    var rest := Code(y, ls, c, k) + OwnEnd(ls.no, k');
    GoodBefore(Mark(next), rest);
    GoodBefore(AndJump(ls, k'), [Mark(next)] + rest);
    GoodGlue(Code(x, left, c, next + 1), [AndJump(ls, k')] + ([Mark(next)] + rest));
  }

  lemma {:induction false} IfGood(cond: Node, cons: seq<Node>, alt: seq<Node>, u: LabelUse, p: Place, ls: Labels,
                                  c: Unit, next: nat)
    requires Coherent(IfElse(cond, cons, alt), u, p)
    ensures AllGood(Code(IfElse(cond, cons, alt), ls, c, next))
    decreases IfElse(cond, cons, alt), 0
  {
    hide AllGood, Listing, ListingAll, LowerBody, Good, Lower;
    IfListing(cond, cons, alt, ls, c, next);
    var inner := IfLabels(ls, next);
    var k := Next(cond, inner, c, next + 2);
    var keep := cons != [] && alt != [];
    var k' := BodyNext(cons, keep, inner, c, k);
    LowerGood(cond, BothLabels, OperandPlace(p), inner, c, next + 2);
    BodyGood(cons, Foreign, p, keep, inner, c, k);
    ControlGood(PopIfFalse, next, false);
    ControlGood(Always, k', false);
    var tail := IfTail(alt, keep, inner, c, next, k');
    if alt != [] {
      BodyGood(alt, Foreign, p, keep, inner, c, k' + 1);
      var other := BodyCode(alt, keep, inner, c, k' + 1);
      GoodGlue(other, [Mark(k')]);
      GoodBefore(Mark(next), other + [Mark(k')]);
      GoodBefore(Jump(Always, k'), [Mark(next)] + (other + [Mark(k')]));
    }
    var leg := BodyCode(cons, keep, inner, c, k);
    GoodGlue(leg, tail);
    ControlGood(PopIfFalse, next + 1, false);
    GoodBefore(Mark(next + 1), leg + tail);
    GoodBefore(Jump(PopIfFalse, next), [Mark(next + 1)] + (leg + tail));
    GoodGlue(Code(cond, inner, c, next + 2), [Jump(PopIfFalse, next)] + ([Mark(next + 1)] + (leg + tail)));
  }

  lemma {:induction false} WhileGood(cond: Node, body: seq<Node>, u: LabelUse, p: Place, ls: Labels, c: Unit, next: nat)
    requires Coherent(While(cond, body), u, p)
    ensures AllGood(Code(While(cond, body), ls, c, next))
    decreases While(cond, body), 0
  {
    hide AllGood, Listing, ListingAll, LowerBody, Good, Lower;
    WhileListing(cond, body, ls, c, next);
    var inner := WhileLabels(next);
    var k := Next(cond, inner, c, next + 3);
    LowerGood(cond, BothLabels, OperandPlace(p), inner, c, next + 3);
    BodyGood(body, Foreign, p.(loop := true), false, inner, c, k);
    ControlGood(Always, next, false);
    ControlGood(PopIfFalse, next + 2, false);
    ControlGood(Always, next + 1, false);
    var head, nodes := Code(cond, inner, c, next + 3), BodyCode(body, false, inner, c, k);
    var t0 := [Jump(Always, next)] + [Mark(next + 2)];
    GoodGlue([Jump(Always, next)], [Mark(next + 2)]);
    GoodGlue(nodes, t0);
    GoodBefore(Mark(next + 1), nodes + t0);
    var t1 := [Mark(next + 1)] + (nodes + t0);
    GoodBefore(Jump(PopIfFalse, next + 2), t1);
    GoodGlue(head, [Jump(PopIfFalse, next + 2)] + t1);
    GoodBefore(Mark(next), head + ([Jump(PopIfFalse, next + 2)] + t1));
  }

  lemma {:induction false} ArgsGood(args: seq<Node>, u: LabelUse, p: Place, ls: Labels, c: Unit, next: nat)
    requires forall i | 0 <= i < |args| :: Coherent(args[i], u, p)
    ensures AllGood(ArgsCode(args, ls, c, next))
    decreases args, 0
  {
    hide AllGood, Good, Listing, Lower;
    if args == [] {
      ControlGood(Always, 0, false);
    } else {
      ArgsListing(args, ls, c, next);
      LowerGood(args[0], u, p, ls, c, next);
      var k := Next(args[0], ls, c, next);
      ArgsGood(args[1..], u, p, ls, c, k);
      GoodGlue(Code(args[0], ls, c, next), ArgsCode(args[1..], ls, c, k));
    }
  }

  lemma {:induction false} BodyGood(body: seq<Node>, u: LabelUse, p: Place, keepLast: bool, ls: Labels, c: Unit,
                                    next: nat)
    requires CoherentBody(body, u, p)
    ensures AllGood(BodyCode(body, keepLast, ls, c, next))
    decreases body, 0
  {
    hide AllGood, Good, Listing, Lower;
    if body == [] {
      ControlGood(Always, 0, false);
    } else {
      BodyListing(body, keepLast, ls, c, next);
      LowerGood(body[0], u, p, ls, c, next);
      var k := Next(body[0], ls, c, next);
      BodyGood(body[1..], u, p, keepLast, ls, c, k);
      var drop, rest := DropCode(body[0], keepLast && |body| == 1), BodyCode(body[1..], keepLast, ls, c, k);
      DropGood(body[0], keepLast && |body| == 1);
      GoodGlue(drop, rest);
      GoodGlue(Code(body[0], ls, c, next), drop + rest);
    }
  }

  lemma DropGood(n: Node, keep: bool)
    ensures AllGood(DropCode(n, keep))
  {
  }

  // ----- whole programs -----

  lemma {:induction false} StoresGood(arity: nat)
    requires arity < N_VARS
    ensures AllGood(StoreCode(arity))
  {
    if arity > 0 {
      StoresGood(arity - 1);
      GoodBefore(Store(Local, arity - 1), StoreCode(arity - 1));
    }
  }

  lemma FnGood(fns: seq<FnDef>, f: nat, entry: seq<nat>, next: nat)
    requires f < |fns| && CoherentFn(fns, f)
    ensures AllGood(FnCode(fns[f], entry, next))
  {
    hide Listing, ListingAll, Lower, LowerBody;
    var fn := fns[f];
    var c := Unit(entry + [next], fn.localsCount > 0);
    var body := BodyCode(fn.body, false, NO_LABELS, c, next + 2);
    BodyGood(fn.body, NoLabels, Place(false, Some(fn.result), fn.localsCount, fns[..f + 1]), false, NO_LABELS, c,
             next + 2);
    StoresGood(fn.arity);
    FnPartsGood(FnProlog(fn), StoreCode(fn.arity), body, FnEpilog(fn), next);
  }

  lemma FnPartsGood(prolog: seq<Ins>, stores: seq<Ins>, body: seq<Ins>, epilog: seq<Ins>, next: nat)
    requires AllGood(prolog) && AllGood(stores) && AllGood(body) && AllGood(epilog)
    ensures AllGood([Jump(Always, next + 1)]
                    + ([Mark(next)] + (prolog + (stores + (body + (epilog + [Mark(next + 1)]))))))
  {
    hide AllGood, Good;
    ControlGood(Always, next + 1, false);
    ControlGood(Always, next, false);
    GoodGlue(epilog, [Mark(next + 1)]);
    var a := epilog + [Mark(next + 1)];
    GoodGlue(body, a);
    GoodGlue(stores, body + a);
    GoodGlue(prolog, stores + (body + a));
    GoodBefore(Mark(next), prolog + (stores + (body + a)));
    GoodBefore(Jump(Always, next + 1), [Mark(next)] + (prolog + (stores + (body + a))));
  }

  lemma {:induction false} FnsGood(fns: seq<FnDef>, all: seq<FnDef>)
    requires fns <= all && forall f | 0 <= f < |all| :: CoherentFn(all, f)
    ensures AllGood(ListingAll(LowerFns(fns).0))
    decreases |fns|
  {
    hide AllGood, Good, CoherentFn, LowerFn;
    if fns == [] {
      ControlGood(Always, 0, false);
    } else {
      var front, fn := fns[..|fns| - 1], fns[|fns| - 1];
      FnsGood(front, all);
      var (before, entry, k) := LowerFns(front);
      assert CoherentFn(all, |front|) && all[|front|] == fn;
      FnGood(all, |front|, entry, k);
      FnListing(fn, entry, k);
      ListingAppend(before, LowerFn(fn, entry, k).0);
      GoodGlue(ListingAll(before), ListingAll(LowerFn(fn, entry, k).0));
    }
  }

  lemma ProgramGood(prog: Program)
    requires CoherentProgram(prog)
    ensures AllGood(ProgramCode(prog))
  {
    hide AllGood, CoherentFn, LowerFns, LowerBody;
    FnsGood(prog.fns, prog.fns);
    var (first, entry, k) := LowerFns(prog.fns);
    var c := Unit(entry, false);
    BodyGood(prog.main, NoLabels, Place(false, None, 0, prog.fns), false, NO_LABELS, c, k);
    var second := LowerBody(prog.main, false, NO_LABELS, c, k).0;
    ListingAppend(first, second);
    GoodGlue(ListingAll(first), ListingAll(second));
    GoodOne(Halt);
    GoodGlue(ListingAll(first + second), [Halt]);
  }

  // ----- labels -----

  lemma {:induction false} TargetedAt(code: seq<Ins>, i: nat, l: nat)
    requires i < |code|
    ensures Goes(code[i], l) ==> Targeted(code, l)
    decreases i
  {
    if i > 0 { TargetedAt(code[1..], i - 1, l); }
  }

  /** Without open conditional branches, one to a label that is placed once lies before it. */
  lemma {:induction false} ForwardFind(code: seq<Ins>, i: nat, l: nat)
    requires i < |code| && IsConditional(code[i]) && code[i].to == l
    requires !LeftOpen(code, l) && Placed(code, l) <= 1
    ensures i < Find(code, l) < |code|
    decreases i
  {
    if i == 0 {
      PlacedSomewhere(code[1..], l);
    } else {
      ForwardFind(code[1..], i - 1, l);
      if code[0] == Mark(l) { PlacedAtLeast(code[1..], l, Find(code[1..], l)); }
    }
  }

  /** The labelled code of a coherent program has right byte code, unless it is too long for 32-bit offsets. */
  lemma ProgramSound(prog: Program)
    requires CoherentProgram(prog) && Addr(ProgramCode(prog), |ProgramCode(prog)|) < HALF
    ensures Sound(ProgramCode(prog)) && Emittable(ProgramCode(prog), LowerProgram(prog).1)
  {
    hide LowerProgram, Listing, ListingAll, CoherentFn, Find, Addr, Placed, Targeted, LeftOpen, ProgramCode, Encodable;
    var code := ProgramCode(prog);
    ProgramGood(prog);
    forall i | 0 <= i < |code| && (code[i].Jump? || code[i].CallCode?)
      ensures code[i].to < LowerProgram(prog).1 && Find(code, code[i].to) < |code|
    {
      var l := code[i].to;
      ProgramTidy(prog, l);
      TargetedAt(code, i, l);
      PlacedSomewhere(code, l);
    }
    forall i | 0 <= i < |code| && code[i].Mark? ensures code[i].id < LowerProgram(prog).1 {
      ProgramTidy(prog, code[i].id);
      PlacedAtLeast(code, code[i].id, i);
    }
    forall i | 0 <= i < |code| && IsConditional(code[i]) ensures i < Find(code, code[i].to) {
      ProgramTidy(prog, code[i].to);
      ForwardFind(code, i, code[i].to);
    }
    forall l: nat ensures Placed(code, l) <= 1 { ProgramTidy(prog, l); }
  }
}
