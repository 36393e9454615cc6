/**
 What the lowering keeps about labels: every label it creates is placed exactly once, its
 conditional branches only go forward, and it jumps to nothing but its own labels and the
 labels it was given.
 */
module LabelDiscipline {
  import opened Wrappers
  import opened Fixnums
  import opened Ast
  import opened Ir
  import opened Lowering

  /** The true/false labels a node may leave through. */
  function Exits(u: LabelUse, ls: Labels): set<nat> {
    match u
    case TrueLabel => {Get(ls.yes)}
    case BothLabels => {Get(ls.yes), Get(ls.no)}
    case _ => {}
  }

  ghost predicate Labelled(u: LabelUse, ls: Labels) {
    match u
    case NoLabels => ls.yes.None? && ls.no.None?
    case TrueLabel => ls.yes.Some? && ls.no.None?
    case BothLabels => ls.yes.Some? && ls.no.Some?
    case Foreign => true
  }

  /** The labels a node is given from outside. */
  ghost predicate Given(u: LabelUse, p: Place, ls: Labels, c: Unit, l: nat) {
    l in c.entry || (p.loop && (l == Get(ls.brk) || l == Get(ls.cont))) || l in Exits(u, ls)
  }

  ghost predicate Fits(u: LabelUse, p: Place, ls: Labels, c: Unit) {
    Labelled(u, ls) && |p.callable| <= |c.entry| && (p.loop ==> ls.brk.Some? && ls.cont.Some?)
  }

  /** Label `l` is placed exactly once if it is among the created ones, and used as it may be. */
  ghost predicate Tidy(code: seq<Ins>, l: nat, lo: nat, hi: nat, exit: bool, given: bool) {
    && lo <= hi
    && Placed(code, l) == (if lo <= l < hi then 1 else 0)
    && (LeftOpen(code, l) ==> exit)
    && (Targeted(code, l) ==> lo <= l < hi || given)
  }

  lemma Before(i: Ins, b: seq<Ins>, l: nat)
    ensures Placed([i] + b, l) == (if i == Mark(l) then 1 else 0) + Placed(b, l)
    ensures LeftOpen([i] + b, l) <==> (IsConditional(i) && i.to == l && Placed(b, l) == 0) || LeftOpen(b, l)
    ensures Targeted([i] + b, l) <==> Goes(i, l) || Targeted(b, l)
  {
    assert ([i] + b)[1..] == b;
  }

  lemma After(a: seq<Ins>, i: Ins, l: nat)
    ensures Placed(a + [i], l) == Placed(a, l) + (if i == Mark(l) then 1 else 0)
    ensures LeftOpen(a + [i], l) <==> (LeftOpen(a, l) && i != Mark(l)) || (IsConditional(i) && i.to == l)
    ensures Targeted(a + [i], l) <==> Targeted(a, l) || Goes(i, l)
  {
    Single(i, l);
    Glue(a, [i], l);
  }

  /** A head, the branch after it, the label after that, and the rest. */
  lemma Headed(a: seq<Ins>, jump: Ins, m: nat, b: seq<Ins>, l: nat)
    requires jump.Jump?
    ensures var code := a + ([jump] + ([Mark(m)] + b));
            && Placed(code, l) == Placed(a, l) + (if l == m then 1 else 0) + Placed(b, l)
            && (LeftOpen(code, l) <==>
                  || ((LeftOpen(a, l) || (IsConditional(jump) && jump.to == l)) && l != m && Placed(b, l) == 0)
                  || LeftOpen(b, l))
            && (Targeted(code, l) <==> Targeted(a, l) || jump.to == l || Targeted(b, l))
  {
    Before(Mark(m), b, l);
    Before(jump, [Mark(m)] + b, l);
    Glue(a, [jump] + ([Mark(m)] + b), l);
  }

  lemma {:induction false} LowerTidy(n: Node, u: LabelUse, p: Place, ls: Labels, c: Unit, next: nat, l: nat)
    requires Coherent(n, u, p) && Fits(u, p, ls, c)
    ensures Tidy(Code(n, ls, c, next), l, next, Next(n, ls, c, next), l in Exits(u, ls), Given(u, p, ls, c, l))
    decreases n, 2
  {
    hide Placed, LeftOpen, Targeted, ListingAll, LowerBody, LowerArgs;
    var q := OperandPlace(p);
    match n
    case Integer(k) => Single(Push(k), l);
    case Boolean(b) => Single(Push(Truth(b)), l);
    case Variable(scope, index, _) => Single(Load(scope, index), l);
    case BinaryNode(op, x, y) => BinaryTidy(op, x, y, u, p, ls, c, next, l);
    case UnaryNode(op, x) =>
      LowerTidy(x, Inner(u), q, ls, c, next, l);
      if op.Positive? {
        assert Code(x, ls, c, next) + [] == Code(x, ls, c, next);
      } else {
        After(Code(x, ls, c, next), OperateUnary(op), l);
      }
    case LogicalOr(x, y) => OrTidy(x, y, u, p, ls, c, next, l);
    case LogicalAnd(x, y) => AndTidy(x, y, u, p, ls, c, next, l);
    case _ => StatementTidy(n, u, p, ls, c, next, l);
  }

  lemma {:induction false} StatementTidy(n: Node, u: LabelUse, p: Place, ls: Labels, c: Unit, next: nat, l: nat)
    requires n.Assign? || n.IfElse? || n.While? || n.Break? || n.Continue? || n.Return? || n.Call?
    requires Coherent(n, u, p) && Fits(u, p, ls, c)
    ensures Tidy(Code(n, ls, c, next), l, next, Next(n, ls, c, next), l in Exits(u, ls), Given(u, p, ls, c, l))
    decreases n, 1
  {
    hide Placed, LeftOpen, Targeted, ListingAll, LowerBody, LowerArgs;
    var q := OperandPlace(p);
    match n
    case Assign(scope, index, value) =>
      LowerTidy(value, Inner(u), q, ls, c, next, l);
      After(Code(value, ls, c, next), Store(scope, index), l);
    case IfElse(cond, cons, alt) => IfTidy(cond, cons, alt, u, p, ls, c, next, l);
    case While(cond, body) => WhileTidy(cond, body, u, p, ls, c, next, l);
    case Break => Single(Jump(Always, ls.brk.value), l);
    case Continue => Single(Jump(Always, ls.cont.value), l);
    case Return(values) =>
      ArgsTidy(values, Inner(u), p, ls, c, next, l);
      After(ArgsCode(values, ls, c, next), ReturnCode(c.leave), l);
    case Call(fn, args, ty) =>
      ArgsTidy(args, Inner(u), p, ls, c, next, l);
      After(ArgsCode(args, ls, c, next), CallCode(c.entry[fn]), l);
  }

  lemma {:induction false} BinaryTidy(op: BinOp, x: Node, y: Node, u: LabelUse, p: Place, ls: Labels, c: Unit,
                                      next: nat, l: nat)
    requires Coherent(BinaryNode(op, x, y), u, p) && Fits(u, p, ls, c)
    ensures var n := BinaryNode(op, x, y);
            Tidy(Code(n, ls, c, next), l, next, Next(n, ls, c, next), l in Exits(u, ls), Given(u, p, ls, c, l))
    decreases BinaryNode(op, x, y), 0
  {
    hide Placed, LeftOpen, Targeted;
    var q := OperandPlace(p);
    LowerTidy(x, Inner(u), q, ls, c, next, l);
    LowerTidy(y, Inner(u), q, ls, c, Next(x, ls, c, next), l);
    var rhs := Code(y, ls, c, Next(x, ls, c, next));
    After(rhs, Operate(op), l);
    Glue(Code(x, ls, c, next), rhs + [Operate(op)], l);
  }

  lemma {:induction false} OrTidy(x: Node, y: Node, u: LabelUse, p: Place, ls: Labels, c: Unit, next: nat, l: nat)
    requires Coherent(LogicalOr(x, y), u, p) && Fits(u, p, ls, c)
    ensures var n := LogicalOr(x, y);
            Tidy(Code(n, ls, c, next), l, next, Next(n, ls, c, next), l in Exits(u, ls), Given(u, p, ls, c, l))
    decreases LogicalOr(x, y), 0
  {
    hide Placed, LeftOpen, Targeted, Listing, ListingAll, LowerBody;
    OrListing(x, y, ls, c, next);
    var q := OperandPlace(p);
    LowerTidy(x, u, q, ls, c, next, l);
    var k := Next(x, ls, c, next);
    LowerTidy(y, u, q, ls, c, k, l);
    var k' := Next(y, ls, c, k);
    var lhs, rhs := Code(x, ls, c, next), Code(y, ls, c, k);
    Single(Mark(k'), l);
    Glue(rhs, OwnEnd(ls.yes, k'), l);
    Before(OrJump(ls, k'), rhs + OwnEnd(ls.yes, k'), l);
    Glue(lhs, [OrJump(ls, k')] + (rhs + OwnEnd(ls.yes, k')), l);
  }

  lemma {:induction false} AndTidy(x: Node, y: Node, u: LabelUse, p: Place, ls: Labels, c: Unit, next: nat, l: nat)
    requires Coherent(LogicalAnd(x, y), u, p) && Fits(u, p, ls, c)
    ensures var n := LogicalAnd(x, y);
            Tidy(Code(n, ls, c, next), l, next, Next(n, ls, c, next), l in Exits(u, ls), Given(u, p, ls, c, l))
    decreases LogicalAnd(x, y), 0
  {
    hide Placed, LeftOpen, Targeted, Listing, ListingAll, LowerBody;
    AndListing(x, y, ls, c, next);
    var q := OperandPlace(p);
    var left := ls.(yes := Some(next));
    LowerTidy(x, AndLeft(u), q, left, c, next + 1, l);
    var k := Next(x, left, c, next + 1);
    LowerTidy(y, u, q, ls, c, k, l);
    var k' := Next(y, ls, c, k);
    var lhs, rhs := Code(x, left, c, next + 1), Code(y, ls, c, k);
    Single(Mark(k'), l);
    Glue(rhs, OwnEnd(ls.no, k'), l);
    Headed(lhs, AndJump(ls, k'), next, rhs + OwnEnd(ls.no, k'), l);
  }

  lemma {:induction false} IfTidy(cond: Node, cons: seq<Node>, alt: seq<Node>, u: LabelUse, p: Place, ls: Labels,
                                  c: Unit, next: nat, l: nat)
    requires Coherent(IfElse(cond, cons, alt), u, p) && Fits(u, p, ls, c)
    ensures var n := IfElse(cond, cons, alt);
            Tidy(Code(n, ls, c, next), l, next, Next(n, ls, c, next), l in Exits(u, ls), Given(u, p, ls, c, l))
    decreases IfElse(cond, cons, alt), 0
  {
    hide Placed, LeftOpen, Targeted, Listing, ListingAll, LowerBody;
    IfListing(cond, cons, alt, ls, c, next);
    var inner := IfLabels(ls, next);
    LowerTidy(cond, BothLabels, OperandPlace(p), inner, c, next + 2, l);
    var k := Next(cond, inner, c, next + 2);
    var keep := cons != [] && alt != [];
    BodyTidy(cons, Foreign, p, keep, inner, c, k, l);
    var k' := BodyNext(cons, keep, inner, c, k);
    var head, leg := Code(cond, inner, c, next + 2), BodyCode(cons, keep, inner, c, k);
    var tail := IfTail(alt, keep, inner, c, next, k');
    IfTailTidy(alt, p, keep, inner, c, next, k', l);
    Glue(leg, tail, l);
    Headed(head, Jump(PopIfFalse, next), next + 1, leg + tail, l);
  }

  lemma {:induction false} IfTailTidy(alt: seq<Node>, p: Place, keep: bool, inner: Labels, c: Unit, next: nat, k': nat,
                                      l: nat)
    requires CoherentBody(alt, Foreign, p) && Fits(Foreign, p, inner, c) && next < k'
    ensures var code, hi := IfTail(alt, keep, inner, c, next, k'), if alt == [] then k'
            else BodyNext(alt, keep, inner, c, k' + 1);
            && k' <= hi
            && Placed(code, l) == (if l == next || k' <= l < hi then 1 else 0)
            && !LeftOpen(code, l)
            && (Targeted(code, l) ==> k' <= l < hi || Given(Foreign, p, inner, c, l))
    decreases alt, 1
  {
    if alt == [] {
      Single(Mark(next), l);
    } else {
      BodyTidy(alt, Foreign, p, keep, inner, c, k' + 1, l);
      var other := BodyCode(alt, keep, inner, c, k' + 1);
      After(other, Mark(k'), l);
      Before(Mark(next), other + [Mark(k')], l);
      Before(Jump(Always, k'), [Mark(next)] + (other + [Mark(k')]), l);
    }
  }

  lemma {:induction false} WhileTidy(cond: Node, body: seq<Node>, u: LabelUse, p: Place, ls: Labels, c: Unit, next: nat,
                                     l: nat)
    requires Coherent(While(cond, body), u, p) && Fits(u, p, ls, c)
    ensures var n := While(cond, body);
            Tidy(Code(n, ls, c, next), l, next, Next(n, ls, c, next), l in Exits(u, ls), Given(u, p, ls, c, l))
    decreases While(cond, body), 0
  {
    hide Placed, LeftOpen, Targeted, Listing, ListingAll, LowerBody;
    WhileListing(cond, body, ls, c, next);
    var inner := WhileLabels(next);
    LowerTidy(cond, BothLabels, OperandPlace(p), inner, c, next + 3, l);
    var k := Next(cond, inner, c, next + 3);
    BodyTidy(body, Foreign, p.(loop := true), false, inner, c, k, l);
    var head, code := Code(cond, inner, c, next + 3), BodyCode(body, false, inner, c, k);
    var t0 := [Jump(Always, next)] + [Mark(next + 2)];
    Single(Mark(next + 2), l);
    Before(Jump(Always, next), [Mark(next + 2)], l);
    Glue(code, t0, l);
    Headed(head, Jump(PopIfFalse, next + 2), next + 1, code + t0, l);
    Before(Mark(next), head + ([Jump(PopIfFalse, next + 2)] + ([Mark(next + 1)] + (code + t0))), l);
  }

  lemma {:induction false} ArgsTidy(args: seq<Node>, u: LabelUse, p: Place, ls: Labels, c: Unit, next: nat, l: nat)
    requires u.NoLabels? || u.Foreign?
    requires forall i | 0 <= i < |args| :: Coherent(args[i], u, OperandPlace(p))
    requires Fits(u, p, ls, c)
    ensures Tidy(ArgsCode(args, ls, c, next), l, next, ArgsNext(args, ls, c, next), false, Given(u, p, ls, c, l))
    decreases args, 0
  {
    if args != [] {
      ArgsListing(args, ls, c, next);
      LowerTidy(args[0], u, OperandPlace(p), ls, c, next, l);
      var k := Next(args[0], ls, c, next);
      ArgsTidy(args[1..], u, p, ls, c, k, l);
      Glue(Code(args[0], ls, c, next), ArgsCode(args[1..], ls, c, k), l);
    }
  }

  lemma {:induction false} BodyTidy(body: seq<Node>, u: LabelUse, p: Place, keepLast: bool, ls: Labels, c: Unit,
                                    next: nat, l: nat)
    requires u.NoLabels? || u.Foreign?
    requires CoherentBody(body, u, p) && Fits(u, p, ls, c)
    ensures Tidy(BodyCode(body, keepLast, ls, c, next), l, next, BodyNext(body, keepLast, ls, c, next), false,
                 Given(u, p, ls, c, l))
    decreases body, 0
  {
    if body != [] {
      BodyListing(body, keepLast, ls, c, next);
      LowerTidy(body[0], u, p, ls, c, next, l);
      var k := Next(body[0], ls, c, next);
      BodyTidy(body[1..], u, p, keepLast, ls, c, k, l);
      var drop, rest := DropCode(body[0], keepLast && |body| == 1), BodyCode(body[1..], keepLast, ls, c, k);
      if drop == [] {
        assert drop + rest == rest;
      } else {
        Before(Ins.Drop(1), rest, l);
      }
      Glue(Code(body[0], ls, c, next), drop + rest, l);
    }
  }

  // ----- whole programs -----

  lemma {:induction false} StoresTidy(arity: nat, l: nat)
    ensures Placed(StoreCode(arity), l) == 0 && !LeftOpen(StoreCode(arity), l) && !Targeted(StoreCode(arity), l)
  {
    if arity > 0 {
      StoresTidy(arity - 1, l);
      Before(Store(Local, arity - 1), StoreCode(arity - 1), l);
    }
  }

  /** A function's body with the stores before it, the return after it and its end label. */
  function FnInside(fn: FnDef, c: Unit, next: nat, end: nat): seq<Ins> {
    FnProlog(fn) + (StoreCode(fn.arity) + (BodyCode(fn.body, false, NO_LABELS, c, next) + (FnEpilog(fn) + [Mark(end)])))
  }

  lemma FnInsideTidy(fns: seq<FnDef>, f: nat, c: Unit, next: nat, end: nat, l: nat)
    requires f < |fns| && CoherentFn(fns, f) && |c.entry| == f + 1 && next == end + 1
    ensures Tidy(FnInside(fns[f], c, next, end), l, end, BodyNext(fns[f].body, false, NO_LABELS, c, next), false,
                 l in c.entry)
    ensures next <= BodyNext(fns[f].body, false, NO_LABELS, c, next)
  {
    var fn := fns[f];
    BodyTidy(fn.body, NoLabels, Place(false, Some(fn.result), fn.localsCount, fns[..f + 1]), false, NO_LABELS, c, next,
             l);
    var body := BodyCode(fn.body, false, NO_LABELS, c, next);
    var tail := FnEpilog(fn) + [Mark(end)];
    Glue(FnEpilog(fn), [Mark(end)], l);
    Single(Mark(end), l);
    Single(ReturnCode(fn.localsCount > 0), l);
    Glue(body, tail, l);
    StoresTidy(fn.arity, l);
    Glue(StoreCode(fn.arity), body + tail, l);
    Single(AllocLocals(fn.localsCount), l);
    Glue(FnProlog(fn), StoreCode(fn.arity) + (body + tail), l);
  }

  lemma FnTidy(fns: seq<FnDef>, f: nat, entry: seq<nat>, next: nat, l: nat)
    requires f < |fns| && CoherentFn(fns, f) && |entry| == f
    ensures Tidy(FnCode(fns[f], entry, next), l, next, LowerFn(fns[f], entry, next).1, false, l in entry)
    ensures next < LowerFn(fns[f], entry, next).1
  {
    var fn := fns[f];
    var c := Unit(entry + [next], fn.localsCount > 0);
    FnInsideTidy(fns, f, c, next + 2, next + 1, l);
    var inside := FnInside(fn, c, next + 2, next + 1);
    Before(Mark(next), inside, l);
    Before(Jump(Always, next + 1), [Mark(next)] + inside, l);
  }

  lemma NothingTidy(l: nat)
    ensures Tidy(ListingAll([]), l, 0, 0, false, false)
  {
  }

  lemma {:induction false} FnsTidy(fns: seq<FnDef>, all: seq<FnDef>, l: nat)
    requires fns <= all && forall f | 0 <= f < |all| :: CoherentFn(all, f)
    ensures var (nodes, entry, k) := LowerFns(fns);
            && Tidy(ListingAll(nodes), l, 0, k, false, false)
            && |entry| == |fns| && (l in entry ==> l < k)
    decreases |fns|
  {
    hide CoherentFn, LowerFn, FnCode, LeftOpen, Targeted, Placed, ListingAll;
    NothingTidy(l);
    if fns != [] {
      var front, fn := fns[..|fns| - 1], fns[|fns| - 1];
      FnsTidy(front, all, l);
      var (before, entry, k) := LowerFns(front);
      assert CoherentFn(all, |front|) && all[|front|] == fn;
      FnTidy(all, |front|, entry, k, l);
      FnListing(fn, entry, k);
      var (nodes, k') := LowerFn(fn, entry, k);
      ListingAppend(before, nodes);
      Glue(ListingAll(before), ListingAll(nodes), l);
    }
  }

  /** The labelled code of a program, as the code generator visits it. */
  function ProgramCode(prog: Program): seq<Ins> { ListingAll(LowerProgram(prog).0) + [Halt] }

  /**
   In the code of a coherent program a label is placed exactly once if the lowering created it,
   only such labels are branched to or called, and conditional branches go forward only.
   */
  lemma ProgramTidy(prog: Program, l: nat)
    requires CoherentProgram(prog)
    ensures Tidy(ProgramCode(prog), l, 0, LowerProgram(prog).1, false, false)
  {
    FnsTidy(prog.fns, prog.fns, l);
    var (first, entry, k) := LowerFns(prog.fns);
    var c := Unit(entry, false);
    BodyTidy(prog.main, NoLabels, Place(false, None, 0, prog.fns), false, NO_LABELS, c, k, l);
    var second := LowerBody(prog.main, false, NO_LABELS, c, k).0;
    ListingAppend(first, second);
    Glue(ListingAll(first), ListingAll(second), l);
    After(ListingAll(first + second), Halt, l);
  }
}
