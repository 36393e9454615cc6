/**
 What the simulation of syntax trees by labelled code is stated in: the code of a whole program,
 machine states that agree with a store, where a node's value may go; and the single steps and
 the places of code fragments that the simulation is put together from.
 */
module SimulationSteps {
  import opened Wrappers
  import opened Fixnums
  import opened Ast
  import opened Evaluation
  import opened Ir
  import opened Lowering
  import opened LabelDiscipline
  import opened Machines

  /** The code of a whole program and where its functions lie. */
  datatype World = World(code: seq<Ins>, fns: seq<FnDef>, entry: seq<nat>, at: seq<nat>)

  /** No label is placed twice, and every function's code lies where the world says. */
  ghost predicate Linked(w: World) {
    && |w.entry| == |w.fns| == |w.at|
    && (forall l: nat :: Placed(w.code, l) <= 1)
    && forall f | 0 <= f < |w.fns| ::
         CoherentFn(w.fns, f) && At(w.code, w.at[f], FnCode(w.fns[f], w.entry[..f], w.entry[f]))
  }

  /** The slots from `lo` on, counted from there. */
  ghost function From(slots: map<nat, Fixnum>, lo: nat): imap<nat, Fixnum> {
    imap i: nat | Slot(lo, i) in slots :: slots[Slot(lo, i)]
  }

  lemma FromAbove(slots: map<nat, Fixnum>, lo: nat, count: nat)
    ensures From(slots, lo + count) == Above(From(slots, lo), count)
  {
    var a, b := From(slots, lo + count), Above(From(slots, lo), count);
    forall i: nat ensures (i in a <==> i in b) && (i in a ==> a[i] == b[i]) {
      assert Slot(lo + count, i) == Slot(lo, Slot(count, i));
    }
  }

  lemma FromStore(slots: map<nat, Fixnum>, lo: nat, i: nat, v: Fixnum)
    ensures From(slots[lo + i := v], lo) == From(slots, lo)[i := v]
  {
  }

  /** Slots that changed only above a frame of `count` slots at `lo`. */
  lemma FromJoined(slots: map<nat, Fixnum>, after: map<nat, Fixnum>, lo: nat, count: nat)
    requires forall a: nat | a < lo + count :: (a in slots <==> a in after) && (a in slots ==> after[a] == slots[a])
    ensures From(after, lo) == Joined(From(slots, lo), count, From(after, lo + count))
  {
  }

  /** The store of `env`, with the current function's frame at `lo`. */
  ghost predicate Agrees(m: Machine, env: Env, lo: nat) {
    && m.globals == env.globals
    && (m.frames != [] ==> m.base == Some(m.frames[|m.frames| - 1]))
    && lo + env.count == m.localsTop
    && (lo < m.localsTop ==> m.base == Some(lo) && m.frames != [])
    && env.locals == From(m.locals, lo)
  }

  /** Frames and call stack, and every slot below the current frame, are untouched. */
  ghost predicate Same(m: Machine, m': Machine, lo: nat) {
    && m'.localsTop == m.localsTop && m'.frames == m.frames && m'.calls == m.calls
    && (forall a: nat | a < lo ::
          (a in m.locals <==> a in m'.locals) && (a in m.locals ==> m'.locals[a] == m.locals[a]))
  }

  /** Where the value goes: onto the stack, or into a branch to the true or the false label. */
  ghost predicate Arrives(code: seq<Ins>, n: Node, u: LabelUse, ls: Labels, len: nat, m: Machine, vals: seq<Fixnum>,
                          m': Machine) {
    || (m'.pc == m.pc + len && m'.data == m.data + vals)
    || ((u.TrueLabel? || u.BothLabels?) && |vals| == 1 && vals[0] != 0
        && m'.pc == Find(code, Get(ls.yes)) && m'.data == m.data)
    || (u.BothLabels? && !NoAnd(n) && |vals| == 1 && vals[0] == 0
        && m'.pc == Find(code, Get(ls.no)) && m'.data == m.data)
  }

  /** The machine has run from `m` to `m'`, whose store is `env`, and left the caller's part alone. */
  ghost predicate Moved(w: World, m: Machine, m': Machine, env: Env, lo: nat) {
    Reaches(w.code, m, m') && Agrees(m', env, lo) && Same(m, m', lo)
  }

  /** Too little fuel: the machine runs that long. A fault: it gets to an instruction that has no result. */
  ghost predicate Stopped(code: seq<Ins>, m: Machine, r: Result, fuel: nat, m': Machine) {
    match r
    case OutOfFuel => Lasts(code, m, fuel)
    case Fault => Reaches(code, m, m') && Blocked(code, m')
    case _ => false
  }

  /** A break, a continue or a return: at its label, or at a return instruction with the values on the stack. */
  ghost predicate Escapes(w: World, ls: Labels, c: Unit, m: Machine, lo: nat, r: Result, fuel: nat, m': Machine) {
    match r
    case Broke(e) => Moved(w, m, m', e, lo) && m'.data == m.data && m'.pc == Find(w.code, Get(ls.brk))
    case Continued(e) => Moved(w, m, m', e, lo) && m'.data == m.data && m'.pc == Find(w.code, Get(ls.cont))
    case Returned(vals, e) =>
      Moved(w, m, m', e, lo) && m'.data == m.data + vals && m'.pc < |w.code| && w.code[m'.pc] == ReturnCode(c.leave)
    case Done(_, _) => true
    case _ => Stopped(w.code, m, r, fuel, m')
  }

  /** Where evaluating a node to `r` leaves the machine. */
  ghost predicate Outcome(w: World, n: Node, u: LabelUse, ls: Labels, c: Unit, len: nat, m: Machine, lo: nat, r: Result,
                          fuel: nat, m': Machine) {
    match r
    case Done(vals, e) => Moved(w, m, m', e, lo) && Arrives(w.code, n, u, ls, len, m, vals, m')
    case _ => Escapes(w, ls, c, m, lo, r, fuel, m')
  }

  /** The same for an operand: one value, or no result. */
  ghost predicate ValueOutcome(w: World, n: Node, u: LabelUse, ls: Labels, len: nat, m: Machine, lo: nat, r: Result,
                               fuel: nat, m': Machine) {
    if !r.Done? then Stopped(w.code, m, r, fuel, m') else
    |r.vals| == 1 && Moved(w, m, m', r.env, lo) && Arrives(w.code, n, u, ls, len, m, r.vals, m')
  }

  /** The same for a body, whose values go nowhere but onto the stack. */
  ghost predicate BodyOutcome(w: World, ls: Labels, c: Unit, len: nat, m: Machine, lo: nat, r: Result, fuel: nat,
                              m': Machine) {
    match r
    case Done(vals, e) => Moved(w, m, m', e, lo) && m'.pc == m.pc + len && m'.data == m.data + vals
    case _ => Escapes(w, ls, c, m, lo, r, fuel, m')
  }

  /** What holds wherever a node's code is entered. */
  ghost predicate Ready(w: World, u: LabelUse, p: Place, ls: Labels, c: Unit, m: Machine, lo: nat, env: Env) {
    && Linked(w)
    && Callable(w.fns, p)
    && Fits(u, p, ls, c)
    && c.entry <= w.entry
    && Agrees(m, env, lo)
    && p.locals == m.localsTop - lo
    && (p.ret.Some? ==> c.leave == (p.locals > 0))
  }

  lemma MovedOn(w: World, m: Machine, m': Machine, e': Env, m'': Machine, e'': Env, lo: nat)
    requires Moved(w, m, m', e', lo) && Moved(w, m', m'', e'', lo)
    ensures Moved(w, m, m'', e'', lo)
  {
    Chain(w.code, m, m', m'');
  }

  /** What stops later stops all the same, seen from an earlier point. */
  lemma StoppedOn(w: World, m: Machine, m1: Machine, e: Env, lo: nat, r: Result, fuel: nat, m': Machine)
    requires Moved(w, m, m1, e, lo) && Stopped(w.code, m1, r, fuel, m')
    ensures Stopped(w.code, m, r, fuel, m')
  {
    if r.OutOfFuel? { LastsOn(w.code, m, m1, fuel); }
    if r.Fault? { Chain(w.code, m, m1, m'); }
  }

  /** What stops after at least one step lasts one step longer. */
  lemma StoppedLater(w: World, m: Machine, m1: Machine, r: Result, fuel: nat, m': Machine)
    requires Reaches(w.code, m, m1) && m != m1 && Stopped(w.code, m1, r, fuel, m')
    ensures Stopped(w.code, m, r, fuel + 1, m')
  {
    if r.OutOfFuel? { LastsOn(w.code, m, m1, fuel); }
    if r.Fault? { Chain(w.code, m, m1, m'); }
  }

  /** An instruction without a result where the evaluation faults. */
  lemma FaultAt(w: World, m: Machine, m': Machine, e: Env, lo: nat, fuel: nat)
    requires Moved(w, m, m', e, lo) && Blocked(w.code, m')
    ensures Stopped(w.code, m, Fault, fuel, m')
  {
  }

  /** What holds at entry holds again wherever the machine has moved to. */
  lemma StillReady(w: World, u: LabelUse, p: Place, ls: Labels, c: Unit, m: Machine, lo: nat, env: Env, m': Machine,
                   env': Env)
    requires Ready(w, u, p, ls, c, m, lo, env) && Moved(w, m, m', env', lo)
    ensures Ready(w, u, p, ls, c, m', lo, env')
  {
  }

  lemma LeftReady(w: World, u: LabelUse, p: Place, ls: Labels, c: Unit, next: nat, m: Machine, lo: nat, env: Env)
    requires Ready(w, u, p, ls, c, m, lo, env) && !u.Foreign?
    ensures Ready(w, AndLeft(u), p, ls.(yes := Some(next)), c, m, lo, env)
    ensures ls.no.Some? <==> u.BothLabels?
    ensures ls.yes.Some? <==> !u.NoLabels?
  {
  }

  lemma MovedStep(w: World, m: Machine, m': Machine, m'': Machine, env: Env, lo: nat)
    requires Moved(w, m, m', env, lo) && Step(w.code, m') == Some(m'')
    requires m''.(pc := m'.pc, data := m'.data) == m'
    ensures Moved(w, m, m'', env, lo)
  {
    Extend(w.code, m, m', m'');
  }

  lemma Stay(w: World, m: Machine, env: Env, lo: nat)
    requires Agrees(m, env, lo)
    ensures Moved(w, m, m, env, lo)
  {
    ReachesSelf(w.code, m);
  }

  /** A label inside a fragment is found where the fragment places it. */
  lemma FoundAt(w: World, l: nat, pc: nat, rest: seq<Ins>)
    requires Linked(w) && At(w.code, pc, [Mark(l)] + rest)
    ensures Find(w.code, l) == pc && pc < |w.code| && w.code[pc] == Mark(l) && At(w.code, pc + 1, rest)
  {
    AtSplit(w.code, pc, [Mark(l)], rest);
    assert w.code[pc..pc + 1][0] == Mark(l);
    FindUnique(w.code, l, pc);
  }

  lemma OneAt(code: seq<Ins>, pc: nat, i: Ins)
    requires At(code, pc, [i])
    ensures pc < |code| && code[pc] == i
  {
    assert code[pc..pc + 1][0] == i;
  }

  lemma FirstAt(code: seq<Ins>, pc: nat, i: Ins, rest: seq<Ins>)
    requires At(code, pc, [i] + rest)
    ensures pc < |code| && code[pc] == i && At(code, pc + 1, rest)
  {
    AtSplit(code, pc, [i], rest);
    assert code[pc..pc + 1][0] == i;
  }

  /** Passing over a label that has been reached. */
  lemma PassMark(w: World, m: Machine, m': Machine, env: Env, lo: nat, l: nat) returns (m'': Machine)
    requires Moved(w, m, m', env, lo) && m'.pc < |w.code| && w.code[m'.pc] == Mark(l)
    ensures Moved(w, m, m'', env, lo) && m'' == m'.(pc := m'.pc + 1)
  {
    m'' := m'.(pc := m'.pc + 1);
    MovedStep(w, m, m', m'', env, lo);
  }

  /** A label that ends a fragment. */
  lemma LastMark(w: World, l: nat, pc: nat)
    requires Linked(w) && At(w.code, pc, [Mark(l)])
    ensures Find(w.code, l) == pc && pc < |w.code| && w.code[pc] == Mark(l)
  {
    OneAt(w.code, pc, Mark(l));
    FindUnique(w.code, l, pc);
  }

  /** One data instruction that only changes the data stack. */
  lemma DataStep(w: World, m: Machine, m1: Machine, env: Env, lo: nat, i: Ins, after: Machine)
    returns (m': Machine)
    requires Moved(w, m, m1, env, lo) && At(w.code, m1.pc, [i]) && IsData(i)
    requires Effect(i, m1) == Some(after) && after.(data := m1.data) == m1
    ensures m' == after.(pc := m1.pc + 1) && Moved(w, m, m', env, lo)
  {
    OneAt(w.code, m1.pc, i);
    m' := after.(pc := m1.pc + 1);
    MovedStep(w, m, m1, m', env, lo);
  }

  lemma SimulateData(w: World, m: Machine, env: Env, lo: nat, i: Ins, after: Machine)
    returns (m': Machine)
    requires Agrees(m, env, lo) && At(w.code, m.pc, [i]) && IsData(i)
    requires Effect(i, m) == Some(after) && after.(data := m.data) == m
    ensures m' == after.(pc := m.pc + 1) && Moved(w, m, m', env, lo)
  {
    Stay(w, m, env, lo);
    m' := DataStep(w, m, m, env, lo, i, after);
  }

  lemma SimulateJump(w: World, m: Machine, env: Env, lo: nat, l: nat)
    returns (m': Machine)
    requires Agrees(m, env, lo) && At(w.code, m.pc, [Jump(Always, l)])
    ensures m' == m.(pc := Find(w.code, l)) && Moved(w, m, m', env, lo)
  {
    OneAt(w.code, m.pc, Jump(Always, l));
    m' := m.(pc := Find(w.code, l));
    Stay(w, m, env, lo);
    MovedStep(w, m, m, m', env, lo);
  }

  lemma WriteAgrees(m: Machine, env: Env, lo: nat, scope: Scope, index: nat, v: Fixnum, after: Machine)
    requires Agrees(m, env, lo) && (scope.Local? ==> index < m.localsTop - lo)
    requires after ==
               (if scope.Global? then SetGlobal(m, index, v) else if m.base.Some? then SetLocal(m, index, v) else m)
    ensures Agrees(after, Write(scope, index, v, env), lo) && Same(m, after, lo)
  {
    hide From;
    if scope.Local? { FromStore(m.locals, lo, index, v); }
  }

  lemma StoreStep(w: World, m: Machine, m1: Machine, env: Env, lo: nat, scope: Scope, index: nat)
    returns (m': Machine)
    requires Moved(w, m, m1, env, lo) && m1.pc < |w.code| && w.code[m1.pc] == Store(scope, index)
    requires m1.data != [] && (scope.Local? ==> index < m1.localsTop - lo)
    ensures Moved(w, m, m', Write(scope, index, Top(m1), env), lo)
    ensures m'.pc == m1.pc + 1 && m'.data == m1.data[..|m1.data| - 1]
  {
    hide From, Write, Reaches, Find;
    var popped := Pop(m1, 1);
    var after := if scope.Global? then SetGlobal(popped, index, Top(m1))
    else if popped.base.Some? then SetLocal(popped, index, Top(m1)) else popped;
    WriteAgrees(popped, env, lo, scope, index, Top(m1), after);
    m' := after.(pc := m1.pc + 1);
    Extend(w.code, m, m1, m');
  }

  /** A conditional branch after a value has been pushed. */
  lemma TakeBranch(w: World, m: Machine, m1: Machine, env: Env, lo: nat, v: Fixnum, kind: BranchKind, to: nat,
                   taken: bool)
    returns (m': Machine)
    requires Moved(w, m, m1, env, lo) && m1.data == m.data + [v]
    requires m1.pc < |w.code| && w.code[m1.pc] == Jump(kind, to) && !kind.Always?
    requires taken <==> (if kind.PopIfTrue? || kind.TrueOrPop? then v != 0 else v == 0)
    ensures Moved(w, m, m', env, lo)
    ensures m'.pc == if taken then Find(w.code, to) else m1.pc + 1
    ensures m'.data == if taken && (kind.TrueOrPop? || kind.FalseOrPop?) then m.data + [v] else m.data
  {
    assert m1.data[..|m1.data| - 1] == m.data;
    var keep := taken && (kind.TrueOrPop? || kind.FalseOrPop?);
    m' := (if keep then m1 else Pop(m1, 1)).(pc := if taken then Find(w.code, to) else m1.pc + 1);
    MovedStep(w, m, m1, m', env, lo);
  }

  /** An `or` after its left operand: decided, or at the right one with nothing left on the stack. */
  lemma OrLeft(w: World, x: Node, y: Node, u: LabelUse, ls: Labels, k: nat, len: nat, end: nat, m: Machine, lo: nat,
               r: Result, fuel: nat, m1: Machine)
    returns (m': Machine)
    requires !u.Foreign? && (u.BothLabels? ==> NoAnd(x)) && (ls.yes.Some? <==> !u.NoLabels?)
    requires ValueOutcome(w, x, u, ls, k, m, lo, r, fuel, m1)
    requires m.pc + k < |w.code| && w.code[m.pc + k] == OrJump(ls, end)
    requires ls.yes.None? ==>
               Find(w.code, end) + 1 == m.pc + len && Find(w.code, end) < |w.code|
               && w.code[Find(w.code, end)] == Mark(end)
    ensures r.Done? ==> |r.vals| == 1
    ensures if r.Done? && r.vals[0] == 0 then Moved(w, m, m', r.env, lo) && m'.pc == m.pc + k + 1 && m'.data == m.data
            else ValueOutcome(w, LogicalOr(x, y), u, ls, len, m, lo, r, fuel, m')
  {
    hide Moved, Stopped, NoAnd, Find;
    m' := m1;
    if r.Done? && m1.pc == m.pc + k && m1.data == m.data + r.vals {
      var jump := OrJump(ls, end);
      m' := TakeBranch(w, m, m', r.env, lo, r.vals[0], jump.kind, jump.to, r.vals[0] != 0);
      if r.vals[0] != 0 && ls.yes.None? { m' := PassMark(w, m, m', r.env, lo, end); }
    }
  }

  /** The value of a right operand is the value of the whole, once control is past the end label. */
  lemma RightOn(w: World, n: Node, y: Node, u: LabelUse, ls: Labels, len: nat, m: Machine, m1: Machine, lo: nat,
                env: Env,
                r: Result, fuel: nat, k: nat, end: Option<nat>, m2: Machine)
    returns (m': Machine)
    requires (NoAnd(n) ==> NoAnd(y)) && Moved(w, m, m1, env, lo) && m1.data == m.data
    requires ValueOutcome(w, y, u, ls, k, m1, lo, r, fuel, m2)
    requires m1.pc + k + (if end.Some? then 1 else 0) == m.pc + len
    requires end.Some? ==> m1.pc + k < |w.code| && w.code[m1.pc + k] == Mark(end.value)
    ensures ValueOutcome(w, n, u, ls, len, m, lo, r, fuel, m')
  {
    hide Moved, Stopped, NoAnd, Find;
    m' := m2;
    if r.Done? {
      MovedOn(w, m, m1, env, m', r.env, lo);
      if end.Some? && m'.pc == m1.pc + k && m'.data == m1.data + r.vals {
        m' := PassMark(w, m, m', r.env, lo, end.value);
      }
    } else {
      StoppedOn(w, m, m1, env, lo, r, fuel, m');
    }
  }

  lemma OperateStep(w: World, m: Machine, m1: Machine, env: Env, lo: nat, op: BinOp, d: seq<Fixnum>, a: seq<Fixnum>,
                    b: seq<Fixnum>, v: Fixnum)
    returns (m': Machine)
    requires Moved(w, m, m1, env, lo) && At(w.code, m1.pc, [Operate(op)])
    requires |a| == 1 && |b| == 1 && m1.data == (d + a) + b && Fixnums.Binary(op, a[0], b[0]) == Some(v)
    ensures Moved(w, m, m', env, lo) && m'.data == d + [v] && m'.pc == m1.pc + 1
  {
    assert m1.data[..|m1.data| - 2] == d;
    m' := DataStep(w, m, m1, env, lo, Operate(op), PushData(Pop(m1, 2), v));
  }

  /** A division by zero, on the machine. */
  lemma NoResult(w: World, m: Machine, m1: Machine, env: Env, lo: nat, op: BinOp, d: seq<Fixnum>, a: seq<Fixnum>,
                 b: seq<Fixnum>, fuel: nat)
    requires Moved(w, m, m1, env, lo) && At(w.code, m1.pc, [Operate(op)])
    requires |a| == 1 && |b| == 1 && m1.data == (d + a) + b && Fixnums.Binary(op, a[0], b[0]).None?
    ensures Stopped(w.code, m, Fault, fuel, m1)
  {
    hide Fixnums.Binary;
    OneAt(w.code, m1.pc, Operate(op));
    FaultAt(w, m, m1, env, lo, fuel);
  }

  /** A slot that the evaluation finds empty is empty. */
  lemma NoValue(w: World, m: Machine, env: Env, lo: nat, scope: Scope, index: nat, p: Place)
    requires Agrees(m, env, lo) && SlotOk(scope, index, p) && p.locals == m.localsTop - lo
    requires At(w.code, m.pc, [Load(scope, index)]) && Read(scope, index, env).None?
    ensures Blocked(w.code, m)
  {
    OneAt(w.code, m.pc, Load(scope, index));
  }

  /** A slot that the evaluation finds full is loaded. */
  lemma LoadStep(w: World, m: Machine, env: Env, lo: nat, scope: Scope, index: nat, p: Place) returns (m': Machine)
    requires Agrees(m, env, lo) && SlotOk(scope, index, p) && p.locals == m.localsTop - lo
    requires At(w.code, m.pc, [Load(scope, index)]) && Read(scope, index, env).Some?
    ensures m' == PushData(m, Read(scope, index, env).value).(pc := m.pc + 1) && Moved(w, m, m', env, lo)
  {
    hide Reaches, Step;
    m' := SimulateData(w, m, env, lo, Load(scope, index), PushData(m, Read(scope, index, env).value));
  }

  lemma ReadyAgrees(w: World, u: LabelUse, p: Place, ls: Labels, c: Unit, m: Machine, lo: nat, env: Env)
    requires Ready(w, u, p, ls, c, m, lo, env)
    ensures Agrees(m, env, lo) && p.locals == m.localsTop - lo && (p.loop ==> ls.brk.Some? && ls.cont.Some?)
  {
  }

  lemma SimulateLeaf(w: World, n: Node, u: LabelUse, p: Place, ls: Labels, c: Unit, next: nat, m: Machine, lo: nat,
                     env: Env, fuel: nat)
    returns (m': Machine)
    requires n.Integer? || n.Boolean? || n.Variable? || n.Break? || n.Continue?
    requires Coherent(n, u, p) && Ready(w, u, p, ls, c, m, lo, env)
    requires At(w.code, m.pc, Code(n, ls, c, next))
    ensures Outcome(w, n, u, ls, c, |Code(n, ls, c, next)|, m, lo, Eval(w.fns, n, env, fuel), fuel, m')
  {
    hide LowerBody, LowerArgs, ListingAll, Find, Placed, Linked, CoherentFn, FnCode, Reaches, Run, EvalBody, EvalArgs,
         CoherentBody, At, Step, From, Agrees, Same, Moved;
    ReadyAgrees(w, u, p, ls, c, m, lo, env);
    match n
    case Integer(k) => m' := SimulateData(w, m, env, lo, Push(k), PushData(m, k));
    case Boolean(b) => m' := SimulateData(w, m, env, lo, Push(Truth(b)), PushData(m, Truth(b)));
    case Variable(scope, index, _) =>
      var v := Read(scope, index, env);
      m' := m;
      if v.Some? {
        m' := LoadStep(w, m, env, lo, scope, index, p);
      } else {
        NoValue(w, m, env, lo, scope, index, p);
        Stay(w, m, env, lo);
        FaultAt(w, m, m, env, lo, fuel);
      }
    case Break => m' := SimulateJump(w, m, env, lo, Get(ls.brk));
    case Continue => m' := SimulateJump(w, m, env, lo, Get(ls.cont));
  }

  /** Where the parts of an `or` lie, and where a label of its own is found. */
  lemma OrPlaces(w: World, pc: nat, lhs: seq<Ins>, jump: Ins, rhs: seq<Ins>, given: Option<nat>, end: nat)
    requires Linked(w) && At(w.code, pc, lhs + ([jump] + (rhs + OwnEnd(given, end))))
    ensures At(w.code, pc, lhs) && pc + |lhs| < |w.code| && w.code[pc + |lhs|] == jump
    ensures At(w.code, pc + |lhs| + 1, rhs + OwnEnd(given, end)) && At(w.code, pc + |lhs| + 1, rhs)
    ensures var at := pc + |lhs| + 1 + |rhs|;
            given.None? ==> at < |w.code| && w.code[at] == Mark(end) && Find(w.code, end) == at
  {
    hide Linked, Find, Placed, At;
    AtSplit(w.code, pc, lhs, [jump] + (rhs + OwnEnd(given, end)));
    FirstAt(w.code, pc + |lhs|, jump, rhs + OwnEnd(given, end));
    AtSplit(w.code, pc + |lhs| + 1, rhs, OwnEnd(given, end));
    if given.None? { LastMark(w, end, pc + |lhs| + 1 + |rhs|); }
  }

  /** Where the parts of an `and` lie, and where its labels are found. */
  lemma AndPlaces(w: World, pc: nat, lhs: seq<Ins>, jump: Ins, mid: nat, rhs: seq<Ins>, given: Option<nat>, end: nat)
    requires Linked(w) && At(w.code, pc, lhs + ([jump] + ([Mark(mid)] + (rhs + OwnEnd(given, end)))))
    ensures var at := pc + |lhs|;
            && At(w.code, pc, lhs) && at + 1 < |w.code| && w.code[at] == jump
            && w.code[at + 1] == Mark(mid) && Find(w.code, mid) == at + 1
            && At(w.code, at + 2, rhs + OwnEnd(given, end))
            && (given.None? ==>
                  && at + 2 + |rhs| < |w.code| && w.code[at + 2 + |rhs|] == Mark(end)
                  && Find(w.code, end) == at + 2 + |rhs|)
  {
    hide Linked, Find, Placed, At;
    AtSplit(w.code, pc, lhs, [jump] + ([Mark(mid)] + (rhs + OwnEnd(given, end))));
    FirstAt(w.code, pc + |lhs|, jump, [Mark(mid)] + (rhs + OwnEnd(given, end)));
    FoundAt(w, mid, pc + |lhs| + 1, rhs + OwnEnd(given, end));
    AtSplit(w.code, pc + |lhs| + 2, rhs, OwnEnd(given, end));
    if given.None? { LastMark(w, end, pc + |lhs| + 2 + |rhs|); }
  }

  /** What escapes from a later point escapes from an earlier one with the same data stack. */
  lemma EscapesOn(w: World, ls: Labels, c: Unit, m: Machine, m1: Machine, lo: nat, e: Env, r: Result, fuel: nat,
                  m': Machine, inner: Labels)
    requires Moved(w, m, m1, e, lo) && m1.data == m.data && Escapes(w, inner, c, m1, lo, r, fuel, m')
    requires (inner.brk == ls.brk && inner.cont == ls.cont) || (!r.Broke? && !r.Continued?)
    ensures Escapes(w, ls, c, m, lo, r, fuel, m')
  {
    if r.Broke? || r.Continued? || r.Returned? { MovedOn(w, m, m1, e, m', r.env, lo); }
    if r.OutOfFuel? || r.Fault? { StoppedOn(w, m, m1, e, lo, r, fuel, m'); }
  }

  /** A loop that goes round once more, after a round that took it from `m` by `m1` to `m2`. */
  lemma RoundOn(w: World, ls: Labels, c: Unit, m: Machine, m1: Machine, m2: Machine, lo: nat, e1: Env, e2: Env,
                r: Result, fuel: nat, m': Machine)
    requires Moved(w, m, m1, e1, lo) && Moved(w, m1, m2, e2, lo) && m != m1 && m2.data == m.data
    requires Escapes(w, ls, c, m2, lo, r, fuel, m')
    ensures Escapes(w, ls, c, m, lo, r, fuel + 1, m')
  {
    MovedOn(w, m, m1, e1, m2, e2, lo);
    if r.Broke? || r.Continued? || r.Returned? { MovedOn(w, m, m2, e2, m', r.env, lo); }
    if r.OutOfFuel? || r.Fault? {
      StoppedOn(w, m1, m2, e2, lo, r, fuel, m');
      StoppedLater(w, m, m1, r, fuel, m');
    }
  }

  lemma EmptyBody(keepLast: bool, ls: Labels, c: Unit, next: nat)
    ensures BodyCode([], keepLast, ls, c, next) == []
  {
  }

  lemma Settle(w: World, u: LabelUse, p: Place, ls: Labels, c: Unit, m: Machine, lo: nat, env: Env)
    requires Ready(w, u, p, ls, c, m, lo, env)
    ensures Moved(w, m, m, env, lo)
  {
    Stay(w, m, env, lo);
  }

  lemma SimulateDrop(w: World, m: Machine, m1: Machine, env: Env, lo: nat, vals: seq<Fixnum>) returns (m': Machine)
    requires Moved(w, m, m1, env, lo) && At(w.code, m1.pc, [Ins.Drop(1)]) && |vals| == 1 && m1.data == m.data + vals
    ensures Moved(w, m, m', env, lo) && m'.data == m.data && m'.pc == m1.pc + 1
  {
    assert m1.data[..|m1.data| - 1] == m.data;
    m' := DataStep(w, m, m1, env, lo, Ins.Drop(1), Pop(m1, 1));
  }

  /** Where the parts after an if's consequence lie. */
  lemma TailPlaces(w: World, pc: nat, no: nat, other: seq<Ins>, end: nat)
    requires Linked(w) && At(w.code, pc, [Jump(Always, end)] + ([Mark(no)] + (other + [Mark(end)])))
    ensures pc + 2 + |other| < |w.code| && w.code[pc] == Jump(Always, end)
    ensures w.code[pc + 1] == Mark(no) && Find(w.code, no) == pc + 1 && At(w.code, pc + 2, other)
    ensures w.code[pc + 2 + |other|] == Mark(end) && Find(w.code, end) == pc + 2 + |other|
  {
    hide Linked, Find, Placed, At;
    FirstAt(w.code, pc, Jump(Always, end), [Mark(no)] + (other + [Mark(end)]));
    FoundAt(w, no, pc + 1, other + [Mark(end)]);
    AtSplit(w.code, pc + 2, other, [Mark(end)]);
    LastMark(w, end, pc + 2 + |other|);
  }

  /** An unconditional branch that has been reached. */
  lemma TakeJump(w: World, m: Machine, m1: Machine, env: Env, lo: nat, to: nat) returns (m': Machine)
    requires Moved(w, m, m1, env, lo) && m1.pc < |w.code| && w.code[m1.pc] == Jump(Always, to)
    ensures Moved(w, m, m', env, lo) && m' == m1.(pc := Find(w.code, to))
  {
    m' := m1.(pc := Find(w.code, to));
    MovedStep(w, m, m1, m', env, lo);
  }

  lemma IfReady(w: World, u: LabelUse, p: Place, ls: Labels, c: Unit, next: nat, m: Machine, lo: nat, env: Env)
    requires Ready(w, u, p, ls, c, m, lo, env)
    ensures Ready(w, BothLabels, p, IfLabels(ls, next), c, m, lo, env)
    ensures Ready(w, Foreign, p, IfLabels(ls, next), c, m, lo, env)
  {
  }

  lemma EvalEmpty(fns: seq<FnDef>, keep: bool, env: Env, fuel: nat)
    ensures EvalBody(fns, [], keep, env, fuel) == Done([], env)
  {
  }

  /** One round of a loop, as the evaluator sees it. */
  lemma EvalWhile(fns: seq<FnDef>, cond: Node, body: seq<Node>, env: Env, fuel: nat)
    requires fuel > 0 && Eval(fns, cond, env, fuel).Done? && |Eval(fns, cond, env, fuel).vals| == 1
    ensures var r, loop := Eval(fns, cond, env, fuel), Eval(fns, While(cond, body), env, fuel);
            if r.vals[0] == 0 then loop == Done([], r.env) else
            var b := EvalBody(fns, body, false, r.env, fuel);
            loop == (match b
                     case Done(_, e) => Eval(fns, While(cond, body), e, fuel - 1)
                     case Continued(e) => Eval(fns, While(cond, body), e, fuel - 1)
                     case Broke(e) => Done([], e)
                     case _ => b)
  {
  }

  lemma EvalWhileStops(fns: seq<FnDef>, cond: Node, body: seq<Node>, env: Env, fuel: nat)
    ensures fuel == 0 ==> Eval(fns, While(cond, body), env, fuel) == OutOfFuel
    ensures fuel > 0 && !Eval(fns, cond, env, fuel).Done? ==>
              Eval(fns, While(cond, body), env, fuel) == Halted(Eval(fns, cond, env, fuel))
  {
  }

  lemma WhilePlaces(w: World, pc: nat, next: nat, head: seq<Ins>, body: seq<Ins>)
    requires Linked(w)
    requires At(w.code, pc,
                [Mark(next)]
                + (head + ([Jump(PopIfFalse, next + 2)]
                           + ([Mark(next + 1)] + (body + ([Jump(Always, next)] + [Mark(next + 2)]))))))
    ensures var at := pc + 3 + |head| + |body|;
            && pc < |w.code| && w.code[pc] == Mark(next) && Find(w.code, next) == pc
            && At(w.code, pc + 1,
                  head + ([Jump(PopIfFalse, next + 2)]
                          + ([Mark(next + 1)] + (body + ([Jump(Always, next)] + [Mark(next + 2)])))))
            && At(w.code, pc + 3 + |head|, body)
            && at + 1 < |w.code| && w.code[at] == Jump(Always, next) && w.code[at + 1] == Mark(next + 2)
            && Find(w.code, next + 2) == at + 1
  {
    hide Linked, Find, Placed, At;
    var tail := [Jump(Always, next)] + [Mark(next + 2)];
    FoundAt(w, next, pc, head + ([Jump(PopIfFalse, next + 2)] + ([Mark(next + 1)] + (body + tail))));
    AtSplit(w.code, pc + 1, head, [Jump(PopIfFalse, next + 2)] + ([Mark(next + 1)] + (body + tail)));
    FirstAt(w.code, pc + 1 + |head|, Jump(PopIfFalse, next + 2), [Mark(next + 1)] + (body + tail));
    FirstAt(w.code, pc + 2 + |head|, Mark(next + 1), body + tail);
    AtSplit(w.code, pc + 3 + |head|, body, tail);
    FirstAt(w.code, pc + 3 + |head| + |body|, Jump(Always, next), [Mark(next + 2)]);
    LastMark(w, next + 2, pc + 4 + |head| + |body|);
  }

  lemma WhileReady(w: World, u: LabelUse, p: Place, ls: Labels, c: Unit, next: nat, m: Machine, lo: nat, env: Env)
    requires Ready(w, u, p, ls, c, m, lo, env)
    ensures Ready(w, BothLabels, p, WhileLabels(next), c, m, lo, env)
    ensures Ready(w, Foreign, p.(loop := true), WhileLabels(next), c, m, lo, env)
  {
  }

  lemma StillReadyFrom(w: World, u: LabelUse, p: Place, ls: Labels, c: Unit, m1: Machine, lo: nat, env: Env, m: Machine,
                       m2: Machine, env2: Env)
    requires Ready(w, u, p, ls, c, m1, lo, env) && Moved(w, m, m1, env, lo) && Moved(w, m, m2, env2, lo)
    ensures Ready(w, u, p, ls, c, m2, lo, env2)
  {
  }

  /** The slots once all arguments from the `k`th on are stored. */
  ghost function Storing(above: imap<nat, Fixnum>, vals: seq<Fixnum>, k: nat): imap<nat, Fixnum> {
    above + imap i: nat | k <= i < |vals| :: vals[i]
  }

  /** The arguments, popped into the first slots of the callee's frame. */
  lemma {:induction false} SimulateStores(w: World, arity: nat, vals: seq<Fixnum>, above: imap<nat, Fixnum>,
                                          m: Machine, m1: Machine, lo: nat, env: Env, d: seq<Fixnum>)
    returns (m': Machine)
    requires arity <= |vals| <= env.count
    requires At(w.code, m1.pc, StoreCode(arity))
    requires Moved(w, m, m1, env, lo) && m1.data == d + vals[..arity]
    requires env.locals == Storing(above, vals, arity)
    ensures Moved(w, m, m', env.(locals := above + Parameters(vals)), lo) && m'.data == d && m'.pc == m1.pc + arity
    decreases arity
  {
    hide Reaches, Step, Find, At, Same, Agrees, Moved, From, Storing, Parameters;
    if arity == 0 {
      StoredAll(above, vals);
      m' := m1;
    } else {
      FirstAt(w.code, m1.pc, Store(Local, arity - 1), StoreCode(arity - 1));
      assert m1.data[..|m1.data| - 1] == d + vals[..arity - 1];
      AgreesTop(w, m, m1, env, lo);
      var m2 := StoreStep(w, m, m1, env, lo, Local, arity - 1);
      StoringNext(above, vals, arity);
      m' := SimulateStores(w, arity - 1, vals, above, m, m2, lo, Write(Local, arity - 1, vals[arity - 1], env), d);
    }
  }

  lemma AgreesTop(w: World, m: Machine, m1: Machine, env: Env, lo: nat)
    requires Moved(w, m, m1, env, lo)
    ensures env.count == m1.localsTop - lo
  {
  }

  lemma StoredAll(above: imap<nat, Fixnum>, vals: seq<Fixnum>)
    ensures Storing(above, vals, 0) == above + Parameters(vals)
    ensures Storing(above, vals, |vals|) == above
  {
    var a, b, none := Storing(above, vals, 0), above + Parameters(vals), Storing(above, vals, |vals|);
    forall i: nat ensures (i in a <==> i in b) && (i in a ==> a[i] == b[i]) { assert 0 <= i; }
    forall i: nat ensures (i in none <==> i in above) && (i in above ==> none[i] == above[i]) { assert 0 <= i; }
  }

  lemma StoringNext(above: imap<nat, Fixnum>, vals: seq<Fixnum>, k: nat)
    requires 0 < k <= |vals|
    ensures Storing(above, vals, k)[k - 1 := vals[k - 1]] == Storing(above, vals, k - 1)
  {
    var a, b := Storing(above, vals, k)[k - 1 := vals[k - 1]], Storing(above, vals, k - 1);
    forall i: nat ensures (i in a <==> i in b)
    && (i in a ==> a[i] == b[i]) { assert i == k - 1 || i < k - 1 || k <= i; }
  }

  lemma {:induction false} StoreCodeLength(arity: nat)
    ensures |StoreCode(arity)| == arity
  {
    if arity > 0 { StoreCodeLength(arity - 1); }
  }

  /** The parts of a function's code. */
  lemma FnPlaces(w: World, f: nat)
    requires Linked(w) && f < |w.fns|
    ensures var fn, at := w.fns[f], w.at[f];
            var c := Unit(w.entry[..f + 1], fn.localsCount > 0);
            var pro := |FnProlog(fn)|;
            var body := BodyCode(fn.body, false, NO_LABELS, c, w.entry[f] + 2);
            && at + 1 < |w.code| && Find(w.code, w.entry[f]) == at + 1 && w.code[at + 1] == Mark(w.entry[f])
            && At(w.code, at + 2, FnProlog(fn))
            && At(w.code, at + 2 + pro, StoreCode(fn.arity))
            && At(w.code, at + 2 + pro + fn.arity, body)
            && At(w.code, at + 2 + pro + fn.arity + |body|, FnEpilog(fn))
  {
    hide Placed, Find, CoherentFn, BodyCode, FnProlog, FnEpilog, StoreCode, At;
    var fn, at := w.fns[f], w.at[f];
    assert w.entry[..f] + [w.entry[f]] == w.entry[..f + 1];
    var c := Unit(w.entry[..f + 1], fn.localsCount > 0);
    var next := w.entry[f];
    var body := BodyCode(fn.body, false, NO_LABELS, c, next + 2);
    assert At(w.code, at, FnCode(fn, w.entry[..f], next));
    FnPlacesFrom(w, at, next, FnProlog(fn), StoreCode(fn.arity), body, FnEpilog(fn), next + 1);
    StoreCodeLength(fn.arity);
  }

  lemma FnPlacesFrom(w: World, at: nat, next: nat, pro: seq<Ins>, stores: seq<Ins>, body: seq<Ins>, epi: seq<Ins>,
                     end: nat)
    requires Linked(w)
    requires At(w.code, at, [Jump(Always, end)] + ([Mark(next)] + (pro + (stores + (body + (epi + [Mark(end)]))))))
    ensures at + 1 < |w.code| && Find(w.code, next) == at + 1 && w.code[at + 1] == Mark(next)
    ensures At(w.code, at + 2, pro) && At(w.code, at + 2 + |pro|, stores)
    ensures At(w.code, at + 2 + |pro| + |stores|, body) && At(w.code, at + 2 + |pro| + |stores| + |body|, epi)
  {
    hide Linked, Find, Placed, At;
    FirstAt(w.code, at, Jump(Always, end), [Mark(next)] + (pro + (stores + (body + (epi + [Mark(end)])))));
    FoundAt(w, next, at + 1, pro + (stores + (body + (epi + [Mark(end)]))));
    AtSplit(w.code, at + 2, pro, stores + (body + (epi + [Mark(end)])));
    AtSplit(w.code, at + 2 + |pro|, stores, body + (epi + [Mark(end)]));
    AtSplit(w.code, at + 2 + |pro| + |stores|, body, epi + [Mark(end)]);
    AtSplit(w.code, at + 2 + |pro| + |stores| + |body|, epi, [Mark(end)]);
  }

  /** Entering a function: the call instruction, the entry label and the locals frame. */
  lemma EnterFn(w: World, f: nat, m: Machine, lo: nat, env: Env) returns (m': Machine)
    requires Linked(w) && f < |w.fns| && Agrees(m, env, lo)
    requires m.pc < |w.code| && w.code[m.pc] == CallCode(w.entry[f])
    ensures var fn := w.fns[f];
            && Reaches(w.code, m, m')
            && Agrees(m', Env(env.globals, Above(env.locals, env.count), fn.localsCount), m.localsTop)
            && m'.pc == w.at[f] + 2 + |FnProlog(fn)| && m'.data == m.data
            && m'.localsTop == m.localsTop + fn.localsCount && m'.locals == m.locals
            && m'.calls == m.calls + [m.pc + 1]
            && m'.frames == m.frames + (if fn.localsCount > 0 then [m.localsTop] else [])
  {
    hide Placed, CoherentFn, FnCode, Run, Eval, Coherent, BodyCode, At, StoreCode, From, Above, Reaches, Find;
    FnPlaces(w, f);
    FromAbove(m.locals, lo, env.count);
    var fn := w.fns[f];
    var m1 := m.(calls := m.calls + [m.pc + 1], pc := Find(w.code, w.entry[f]));
    ReachesStep(w.code, m, m1);
    m' := m1.(pc := m1.pc + 1);
    Extend(w.code, m, m1, m');
    if fn.localsCount > 0 {
      OneAt(w.code, m'.pc, AllocLocals(fn.localsCount));
      var m2 := EnterFrame(m', fn.localsCount).(pc := m'.pc + 1);
      Extend(w.code, m, m', m2);
      m' := m2;
    }
  }

  /** The return instruction gives the caller's frames and base back. */
  lemma ReturnStep(w: World, m: Machine, lo: nat, env: Env, m1: Machine, leave: bool) returns (m': Machine)
    requires Agrees(m, env, lo) && (m1.frames != [] ==> m1.base == Some(m1.frames[|m1.frames| - 1]))
    requires m1.pc < |w.code| && w.code[m1.pc] == ReturnCode(leave)
    requires m1.calls == m.calls + [m.pc + 1]
    requires m1.frames == m.frames + (if leave then [m.localsTop] else [])
    requires !leave ==> m1.localsTop == m.localsTop
    ensures Step(w.code, m1) == Some(m')
    ensures m'.localsTop == m.localsTop && m'.frames == m.frames && m'.calls == m.calls
    ensures m'.frames != [] ==> m'.base == Some(m'.frames[|m'.frames| - 1])
    ensures m'.pc == m.pc + 1 && m'.data == m1.data && m'.locals == m1.locals && m'.globals == m1.globals
  {
    hide Find, Effect, Branch;
    assert m1.calls[..|m1.calls| - 1] == m.calls;
    assert leave ==> m1.frames[..|m1.frames| - 1] == m.frames;
    m' := Machines.Return(leave, m1).value;
  }

  /** Leaving it: the caller's frames, base and every slot below its top are back. */
  lemma LeaveFn(w: World, m: Machine, lo: nat, env: Env, m1: Machine, e: Env, leave: bool) returns (m': Machine)
    requires Agrees(m, env, lo) && Agrees(m1, e, m.localsTop) && Reaches(w.code, m, m1)
    requires m1.pc < |w.code| && w.code[m1.pc] == ReturnCode(leave)
    requires m1.calls == m.calls + [m.pc + 1]
    requires m1.frames == m.frames + (if leave then [m.localsTop] else [])
    requires !leave ==> m1.localsTop == m.localsTop
    requires forall a: nat | a < m.localsTop ::
               (a in m.locals <==> a in m1.locals) && (a in m.locals ==> m1.locals[a] == m.locals[a])
    ensures Moved(w, m, m', Left(env, e), lo) && Same(m, m', m.localsTop) && m'.pc == m.pc + 1 && m'.data == m1.data
  {
    hide Step, Reaches, From, Above, Joined;
    m' := ReturnStep(w, m, lo, env, m1, leave);
    Extend(w.code, m, m1, m');
    FromJoined(m.locals, m1.locals, lo, env.count);
  }
}
