/**
 Short-circuit jumps at the head of an if or a while, for every and/or tree over variables,
 also the ones the lowering gets wrong: where the emitted jumps lead, and exactly which trees
 they are right for.
 */
module ShortCircuitHead {
  import opened Wrappers
  import opened Fixnums
  import opened Ast
  import opened Ir
  import opened Lowering
  import opened Machines
  import opened SimulationSteps

  /** An and/or tree whose atoms are boolean globals. */
  predicate IsTree(n: Node) {
    match n
    case LogicalOr(l, r) => IsTree(l) && IsTree(r)
    case LogicalAnd(l, r) => IsTree(l) && IsTree(r)
    case Variable(scope, index, ty) => scope.Global? && ty == Bool
    case _ => false
  }

  function Atoms(n: Node): set<nat>
    requires IsTree(n)
  {
    match n
    case LogicalOr(l, r) => Atoms(l) + Atoms(r)
    case LogicalAnd(l, r) => Atoms(l) + Atoms(r)
    case Variable(_, index, _) => {index}
  }

  /** No atom occurs twice, so that atoms can be chosen freely. */
  predicate Independent(n: Node)
    requires IsTree(n)
  {
    n.Variable? || (Independent(n.lhs) && Independent(n.rhs) && Atoms(n.lhs) !! Atoms(n.rhs))
  }

  /** The value of the tree when the global `i` holds `v(i)`. */
  function ValueOf(n: Node, v: nat -> bool): bool
    requires IsTree(n)
  {
    match n
    case LogicalOr(l, r) => ValueOf(l, v) || ValueOf(r, v)
    case LogicalAnd(l, r) => ValueOf(l, v) && ValueOf(r, v)
    case Variable(_, index, _) => v(index)
  }

  /** No `and` inside the left operand of an `or`. */
  predicate HeadOk(n: Node) {
    match n
    case LogicalOr(l, r) => NoAnd(l) && HeadOk(l) && HeadOk(r)
    case LogicalAnd(l, r) => HeadOk(l) && HeadOk(r)
    case _ => true
  }

  /** How a tree's code ends: behind itself with a value pushed, or at one of the head's labels. */
  datatype Ending = Falls(b: bool) | ToTrue | ToFalse

  /** Where the jumps lead: an `or` hands both labels to its left operand, an `and` a label of its own. */
  function Leads(n: Node, v: nat -> bool): Ending
    requires IsTree(n)
  {
    match n
    case Variable(_, index, _) => Falls(v(index))
    case LogicalOr(l, r) =>
      (match Leads(l, v)
       case Falls(b) => if b then ToTrue else Leads(r, v)
       case ending => ending)
    case LogicalAnd(l, r) =>
      (match Leads(l, v)
       case Falls(b) => if b then Leads(r, v) else ToFalse
       case ToTrue => Leads(r, v)
       case ToFalse => ToFalse)
  }

  /** The label the head goes on at: a value that falls through is tested behind the tree. */
  function Verdict(n: Node, v: nat -> bool): bool
    requires IsTree(n)
  {
    match Leads(n, v) case Falls(b) => b case ToTrue => true case ToFalse => false
  }

  // ----- the emitted code follows `Leads` -----

  ghost predicate Once(code: seq<Ins>) { forall l: nat :: Placed(code, l) <= 1 }

  ghost predicate Holds(m: Machine, n: Node, v: nat -> bool)
    requires IsTree(n)
  {
    forall i | i in Atoms(n) :: i in m.globals && m.globals[i] == Truth(v(i))
  }

  ghost predicate EndsAt(code: seq<Ins>, ls: Labels, len: nat, m: Machine, e: Ending, m': Machine) {
    match e
    case Falls(b) => m' == m.(pc := m.pc + len, data := m.data + [Truth(b)])
    case ToTrue => m' == m.(pc := Find(code, Get(ls.yes)))
    case ToFalse => m' == m.(pc := Find(code, Get(ls.no)))
  }

  /** Running a tree's code at a head: atoms left to right, no stack left behind by a jump. */
  lemma {:induction false} TreeRuns(code: seq<Ins>, n: Node, v: nat -> bool, ls: Labels, c: Unit, next: nat, m: Machine)
    returns (m': Machine)
    requires Once(code) && IsTree(n) && Holds(m, n, v) && ls.yes.Some? && ls.no.Some?
    requires At(code, m.pc, Code(n, ls, c, next))
    ensures Reaches(code, m, m') && EndsAt(code, ls, |Code(n, ls, c, next)|, m, Leads(n, v), m')
    decreases n, 1
  {
    hide Find, Placed, Reaches, Step, ListingAll, Lower, At;
    match n
    case Variable(_, index, _) => m' := VariableRuns(code, n, v, ls, c, next, m);
    case LogicalOr(l, r) => m' := OrRuns(code, l, r, v, ls, c, next, m);
    case LogicalAnd(l, r) => m' := AndRuns(code, l, r, v, ls, c, next, m);
  }

  lemma VariableRuns(code: seq<Ins>, n: Node, v: nat -> bool, ls: Labels, c: Unit, next: nat, m: Machine)
    returns (m': Machine)
    requires n.Variable? && IsTree(n) && Holds(m, n, v) && At(code, m.pc, Code(n, ls, c, next))
    ensures Reaches(code, m, m') && EndsAt(code, ls, |Code(n, ls, c, next)|, m, Leads(n, v), m')
  {
    hide Find, Reaches;
    OneAt(code, m.pc, Load(Global, n.index));
    m' := m.(pc := m.pc + 1, data := m.data + [Truth(v(n.index))]);
    ReachesStep(code, m, m');
  }

  /** A pushed truth value meets a conditional jump that pops it. */
  lemma PoppingJump(code: seq<Ins>, m: Machine, b: bool, kind: BranchKind, to: nat)
    requires m.pc < |code| && code[m.pc] == Jump(kind, to) && m.data != [] && Top(m) == Truth(b)
    requires kind.PopIfTrue? || kind.PopIfFalse?
    ensures var taken := b == kind.PopIfTrue?;
            Reaches(code, m, m.(pc := if taken then Find(code, to) else m.pc + 1, data := m.data[..|m.data| - 1]))
  {
    hide Find;
    var taken := b == kind.PopIfTrue?;
    ReachesStep(code, m, m.(pc := if taken then Find(code, to) else m.pc + 1, data := m.data[..|m.data| - 1]));
  }

  lemma {:induction false} OrRuns(code: seq<Ins>, l: Node, r: Node, v: nat -> bool, ls: Labels, c: Unit, next: nat,
                                  m: Machine)
    returns (m': Machine)
    requires var n := LogicalOr(l, r);
             Once(code) && IsTree(n) && Holds(m, n, v) && ls.yes.Some? && ls.no.Some?
             && At(code, m.pc, Code(n, ls, c, next))
    ensures var n := LogicalOr(l, r);
            Reaches(code, m, m') && EndsAt(code, ls, |Code(n, ls, c, next)|, m, Leads(n, v), m')
    decreases LogicalOr(l, r), 0
  {
    hide Find, Placed, Reaches, Step, Listing, ListingAll, Lower, At, Code;
    OrListing(l, r, ls, c, next);
    var k := Next(l, ls, c, next);
    var lhs, rhs := Code(l, ls, c, next), Code(r, ls, c, k);
    assert rhs + [] == rhs;
    AtSplit(code, m.pc, lhs, [Jump(PopIfTrue, ls.yes.value)] + rhs);
    FirstAt(code, m.pc + |lhs|, Jump(PopIfTrue, ls.yes.value), rhs);
    m' := TreeRuns(code, l, v, ls, c, next, m);
    if Leads(l, v).Falls? {
      var b := Leads(l, v).b;
      PoppingJump(code, m', b, PopIfTrue, ls.yes.value);
      var m2 := m.(pc := if b then Find(code, ls.yes.value) else m.pc + |lhs| + 1);
      assert m'.data[..|m'.data| - 1] == m.data;
      Chain(code, m, m', m2);
      if b {
        m' := m2;
      } else {
        m' := TreeRuns(code, r, v, ls, c, k, m2);
        Chain(code, m, m2, m');
      }
    }
  }

  lemma {:induction false} AndRuns(code: seq<Ins>, l: Node, r: Node, v: nat -> bool, ls: Labels, c: Unit, next: nat,
                                   m: Machine)
    returns (m': Machine)
    requires var n := LogicalAnd(l, r);
             Once(code) && IsTree(n) && Holds(m, n, v) && ls.yes.Some? && ls.no.Some?
             && At(code, m.pc, Code(n, ls, c, next))
    ensures var n := LogicalAnd(l, r);
            Reaches(code, m, m') && EndsAt(code, ls, |Code(n, ls, c, next)|, m, Leads(n, v), m')
    decreases LogicalAnd(l, r), 0
  {
    hide Find, Placed, Reaches, Step, Listing, ListingAll, Lower, At, Code;
    AndListing(l, r, ls, c, next);
    var left := ls.(yes := Some(next));
    var k := Next(l, left, c, next + 1);
    var lhs, rhs := Code(l, left, c, next + 1), Code(r, ls, c, k);
    assert rhs + [] == rhs;
    AtSplit(code, m.pc, lhs, [Jump(PopIfFalse, ls.no.value)] + ([Mark(next)] + rhs));
    FirstAt(code, m.pc + |lhs|, Jump(PopIfFalse, ls.no.value), [Mark(next)] + rhs);
    FirstAt(code, m.pc + |lhs| + 1, Mark(next), rhs);
    FoundHere(code, next, m.pc + |lhs| + 1);
    m' := TreeRuns(code, l, v, left, c, next + 1, m);
    var atMark := m.(pc := m.pc + |lhs| + 1);
    if Leads(l, v).Falls? {
      var b := Leads(l, v).b;
      PoppingJump(code, m', b, PopIfFalse, ls.no.value);
      assert m'.data[..|m'.data| - 1] == m.data;
      Chain(code, m, m', if b then atMark else m.(pc := Find(code, ls.no.value)));
      m' := if b then atMark else m.(pc := Find(code, ls.no.value));
    }
    if Leads(l, v) == Falls(true) || Leads(l, v) == ToTrue {
      var m2 := m.(pc := m.pc + |lhs| + 2);
      PassMark(code, atMark, next);
      Chain(code, m, atMark, m2);
      m' := TreeRuns(code, r, v, ls, c, k, m2);
      Chain(code, m, m2, m');
    }
  }

  lemma FoundHere(code: seq<Ins>, l: nat, i: nat)
    requires Once(code) && i < |code| && code[i] == Mark(l)
    ensures Find(code, l) == i
  {
    hide Placed, Find;
    FindUnique(code, l, i);
  }

  lemma PassMark(code: seq<Ins>, m: Machine, l: nat)
    requires m.pc < |code| && code[m.pc] == Mark(l)
    ensures Reaches(code, m, m.(pc := m.pc + 1))
  {
    ReachesStep(code, m, m.(pc := m.pc + 1));
  }

  /** The head of an if or a while goes on at its true or false label as `Verdict` says, with the stack as it was. */
  lemma HeadRuns(code: seq<Ins>, n: Node, v: nat -> bool, ls: Labels, c: Unit, next: nat, m: Machine)
    requires Once(code) && IsTree(n) && Holds(m, n, v) && ls.yes.Some? && ls.no.Some?
    requires At(code, m.pc, Code(n, ls, c, next) + ([Jump(PopIfFalse, ls.no.value)] + [Mark(ls.yes.value)]))
    ensures Reaches(code, m, m.(pc := Find(code, if Verdict(n, v) then ls.yes.value else ls.no.value)))
  {
    hide Find, Placed, Reaches, Step, Listing, ListingAll, Lower, At, Code;
    var head := Code(n, ls, c, next);
    AtSplit(code, m.pc, head, [Jump(PopIfFalse, ls.no.value)] + [Mark(ls.yes.value)]);
    FirstAt(code, m.pc + |head|, Jump(PopIfFalse, ls.no.value), [Mark(ls.yes.value)]);
    OneAt(code, m.pc + |head| + 1, Mark(ls.yes.value));
    FoundHere(code, ls.yes.value, m.pc + |head| + 1);
    var m' := TreeRuns(code, n, v, ls, c, next, m);
    if Leads(n, v).Falls? {
      PoppingJump(code, m', Leads(n, v).b, PopIfFalse, ls.no.value);
      assert m'.data[..|m'.data| - 1] == m.data;
      Chain(code, m, m', m.(pc := Find(code, if Verdict(n, v) then ls.yes.value else ls.no.value)));
    }
  }

  // ----- exactly which trees are right -----

  ghost predicate Right(n: Node, v: nat -> bool)
    requires IsTree(n)
  {
    Verdict(n, v) == ValueOf(n, v)
  }

  /** Without an `and`, a tree never leaves through the false label. */
  lemma {:induction false} NoAndLeads(n: Node, v: nat -> bool)
    requires IsTree(n) && NoAnd(n)
    ensures Leads(n, v) != ToFalse
  {
    if n.LogicalOr? {
      NoAndLeads(n.lhs, v);
      NoAndLeads(n.rhs, v);
    }
  }

  lemma {:induction false} OkIsRight(n: Node, v: nat -> bool)
    requires IsTree(n) && HeadOk(n)
    ensures Right(n, v)
  {
    match n
    case Variable(_, _, _) =>
    case LogicalOr(l, r) =>
      NoAndLeads(l, v);
      OkIsRight(l, v);
      OkIsRight(r, v);
    case LogicalAnd(l, r) =>
      OkIsRight(l, v);
      OkIsRight(r, v);
  }

  /** All atoms true leads to true; all atoms false leads to false, through the label if there is an `and`. */
  lemma {:induction false} Constants(n: Node, v: nat -> bool)
    requires IsTree(n)
    ensures (forall i | i in Atoms(n) :: v(i)) ==>
              ValueOf(n, v) && (Leads(n, v) == ToTrue || Leads(n, v) == Falls(true))
    ensures (forall i | i in Atoms(n) :: !v(i)) ==>
              !ValueOf(n, v) && Leads(n, v) == (if NoAnd(n) then Falls(false) else ToFalse)
  {
    if !n.Variable? {
      Constants(n.lhs, v);
      Constants(n.rhs, v);
    }
  }

  /** Only the tree's own atoms matter. */
  lemma {:induction false} Frame(n: Node, v: nat -> bool, w: nat -> bool)
    requires IsTree(n) && forall i | i in Atoms(n) :: v(i) == w(i)
    ensures ValueOf(n, v) == ValueOf(n, w) && Leads(n, v) == Leads(n, w)
  {
    if !n.Variable? {
      Frame(n.lhs, v, w);
      Frame(n.rhs, v, w);
    }
  }

  /** A tree of different atoms with an `and` inside the left operand of an `or` goes wrong for some of their values. */
  lemma {:induction false} WrongSomewhere(n: Node) returns (v: nat -> bool)
    requires IsTree(n) && Independent(n) && !HeadOk(n)
    ensures !Right(n, v)
  {
    var l, r := n.lhs, n.rhs;
    if n.LogicalOr? && !NoAnd(l) {
      v := i => i in Atoms(r);
      Constants(l, v);
      Constants(r, v);
    } else if !HeadOk(l) && n.LogicalAnd? {
      var w := WrongSomewhere(l);
      v := i => if i in Atoms(l) then w(i) else true;
      Frame(l, v, w);
      Constants(r, v);
    } else {
      NoAndOk(l);
      var w := WrongSomewhere(r);
      v := i => if i in Atoms(r) then w(i) else n.LogicalAnd?;
      Frame(r, v, w);
      Constants(l, v);
    }
  }

  lemma {:induction false} NoAndOk(n: Node)
    ensures NoAnd(n) ==> HeadOk(n)
  {
    if n.LogicalOr? {
      NoAndOk(n.lhs);
      NoAndOk(n.rhs);
    }
  }

  /**
   With different atoms, the jumps at a head are right for all values exactly if no `and` is
   inside the left operand of an `or`.
   */
  lemma HeadExact(n: Node)
    requires IsTree(n) && Independent(n)
    ensures (forall v :: Right(n, v)) <==> HeadOk(n)
  {
    if HeadOk(n) {
      forall v ensures Right(n, v) { OkIsRight(n, v); }
    } else {
      var v := WrongSomewhere(n);
    }
  }

  /** Where an atom occurs twice the jumps can be right all the same: in `(a and b) or a` they are. */
  lemma RightAllTheSame(a: nat, b: nat, v: nat -> bool)
    ensures var x, y := Variable(Global, a, Bool), Variable(Global, b, Bool);
            var n := LogicalOr(LogicalAnd(x, y), x);
            IsTree(n) && !HeadOk(n) && Right(n, v)
  {
    var x, y := Variable(Global, a, Bool), Variable(Global, b, Bool);
    var both := LogicalAnd(x, y);
    assert IsTree(x) && IsTree(y) && IsTree(both);
    assert Leads(both, v) == if v(a) then Falls(v(b)) else ToFalse;
    assert ValueOf(both, v) == (v(a) && v(b));
    assert Leads(LogicalOr(both, x), v) == if !v(a) then ToFalse else if v(b) then ToTrue else Falls(true);
  }

  /** The tree's code falls through with the tree's value pushed. */
  ghost predicate Stays(n: Node, v: nat -> bool)
    requires IsTree(n)
  {
    Leads(n, v) == Falls(ValueOf(n, v))
  }

  /**
   A tree used for its value while the labels of an enclosing head are still set, as in a body
   or a leg: it leaves its value behind for all values of its atoms only if it has no operator.
   */
  lemma ValueUnderLabels(n: Node)
    requires IsTree(n)
    ensures (forall v :: Stays(n, v)) <==> n.Variable?
  {
    if !n.Variable? {
      var b := n.LogicalOr?;
      var v: nat -> bool := i => b;
      Constants(n.lhs, v);
      assert !Stays(n, v);
    }
  }

  /** The coherent fragment admits exactly these trees at a head. */
  lemma {:induction false} HeadOkIsCoherent(n: Node, p: Place)
    requires IsTree(n) && forall i | i in Atoms(n) :: i < N_VARS
    ensures CoherentOperand(n, Bool, BothLabels, p) <==> HeadOk(n)
  {
    match n
    case Variable(_, index, _) => assert index in Atoms(n);
    case LogicalOr(l, r) =>
      assert forall i | i in Atoms(l) || i in Atoms(r) :: i in Atoms(n);
      HeadOkIsCoherent(l, OperandPlace(p));
      HeadOkIsCoherent(r, OperandPlace(p));
    case LogicalAnd(l, r) =>
      assert forall i | i in Atoms(l) || i in Atoms(r) :: i in Atoms(n);
      HeadOkIsCoherent(l, OperandPlace(p));
      HeadOkIsCoherent(r, OperandPlace(p));
  }
}
