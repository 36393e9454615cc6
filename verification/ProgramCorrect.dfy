/**
 The labelled code of a whole program: its functions first, each behind a branch over it, then
 the free statements and a halt. Running it from the start ends at the halt with the store the
 program means and an empty data stack.
 */
module ProgramCorrect {
  import opened Wrappers
  import opened Ast
  import opened Evaluation
  import opened Ir
  import opened Lowering
  import opened LabelDiscipline
  import opened Machines
  import opened SimulationSteps
  import opened Simulation

  /** The index at which function `f`'s code starts. */
  function FnStart(fns: seq<FnDef>, f: nat): nat
    requires f <= |fns|
  {
    |ListingAll(LowerFns(fns[..f]).0)|
  }

  /** The entry labels of a prefix are a prefix of the entry labels. */
  lemma {:induction false} EntryPrefix(fns: seq<FnDef>, f: nat)
    requires f <= |fns|
    ensures |LowerFns(fns).1| == |fns| && LowerFns(fns[..f]).1 == LowerFns(fns).1[..f]
    ensures f < |fns| ==> LowerFns(fns).1[f] == LowerFns(fns[..f]).2
    decreases |fns|
  {
    hide LowerFn;
    if f == |fns| {
      assert fns[..f] == fns;
      if fns != [] { EntryPrefix(fns[..|fns| - 1], |fns| - 1); }
    } else {
      var front := fns[..|fns| - 1];
      assert front[..f] == fns[..f];
      EntryPrefix(front, f);
    }
  }

  lemma {:induction false} FnAt(fns: seq<FnDef>, f: nat)
    requires f < |fns|
    ensures var code, entry := ListingAll(LowerFns(fns).0), LowerFns(fns).1;
            && |entry| == |fns|
            && At(code, FnStart(fns, f), FnCode(fns[f], entry[..f], entry[f]))
            && FnStart(fns, f + 1) == FnStart(fns, f) + |FnCode(fns[f], entry[..f], entry[f])|
    decreases |fns|
  {
    hide Listing, LowerBody, Lower, FnCode, LowerFn;
    var front, last := fns[..|fns| - 1], |fns| - 1;
    var (before, entry, k) := LowerFns(front);
    var nodes := LowerFn(fns[last], entry, k).0;
    EntryPrefix(fns, f);
    EntryPrefix(front, last);
    FnListing(fns[last], entry, k);
    ListingAppend(before, nodes);
    var a, b := ListingAll(before), ListingAll(nodes);
    if f == last {
      assert fns[..f] == front && fns[..f + 1] == fns;
      assert At(a + b, |a|, b);
    } else {
      FnAt(front, f);
      assert front[..f] == fns[..f] && front[..f + 1] == fns[..f + 1];
      EntryPrefix(front, f);
      assert LowerFns(fns).1 == entry + [k];
      assert LowerFns(fns).1[..f] == entry[..f] && LowerFns(fns).1[f] == entry[f];
      AtPrefix(a, b, FnStart(fns, f), FnCode(fns[f], entry[..f], entry[f]));
    }
  }

  lemma AtPrefix(a: seq<Ins>, b: seq<Ins>, pc: nat, frag: seq<Ins>)
    requires At(a, pc, frag)
    ensures At(a + b, pc, frag)
  {
    assert (a + b)[pc..pc + |frag|] == a[pc..pc + |frag|];
  }

  function ProgramWorld(prog: Program): World {
    World(ProgramCode(prog), prog.fns, LowerFns(prog.fns).1,
          seq(|prog.fns|, f requires 0 <= f < |prog.fns| => FnStart(prog.fns, f)))
  }

  /** The code of the free statements. */
  function MainCode(prog: Program): seq<Ins> {
    var (_, entry, k) := LowerFns(prog.fns);
    BodyCode(prog.main, false, NO_LABELS, Unit(entry, false), k)
  }

  lemma ProgramShape(prog: Program)
    ensures ProgramCode(prog) == ListingAll(LowerFns(prog.fns).0) + (MainCode(prog) + [Halt])
  {
    var (first, entry, k) := LowerFns(prog.fns);
    var second := LowerBody(prog.main, false, NO_LABELS, Unit(entry, false), k).0;
    ListingAppend(first, second);
  }

  lemma WorldLinked(prog: Program)
    requires CoherentProgram(prog)
    ensures Linked(ProgramWorld(prog))
  {
    hide LowerFns, LowerBody, Listing, ListingAll, LowerProgram, CoherentFn, FnCode, ProgramCode, Placed;
    var w := ProgramWorld(prog);
    EntryPrefix(prog.fns, 0);
    forall l: nat ensures Placed(w.code, l) <= 1 { ProgramTidy(prog, l); }
    forall f | 0 <= f < |w.fns| ensures CoherentFn(w.fns, f)
    && At(w.code, w.at[f], FnCode(w.fns[f], w.entry[..f], w.entry[f])) {
      FnAt(prog.fns, f);
      ProgramShape(prog);
      AtPrefix(ListingAll(LowerFns(prog.fns).0), MainCode(prog) + [Halt], FnStart(prog.fns, f),
               FnCode(w.fns[f], w.entry[..f], w.entry[f]));
    }
  }

  /** Free-standing code branches over the functions without touching anything. */
  lemma {:induction false} SkipFns(prog: Program, f: nat)
    requires CoherentProgram(prog) && f <= |prog.fns|
    ensures Reaches(ProgramCode(prog), INITIAL, INITIAL.(pc := FnStart(prog.fns, f)))
  {
    hide LowerFns, LowerBody, Listing, ListingAll, LowerProgram, CoherentFn, ProgramCode, Placed, Find, Run, At;
    var w := ProgramWorld(prog);
    if f == 0 {
      ReachesSelf(w.code, INITIAL);
      StartsAtZero(prog.fns);
    } else {
      WorldLinked(prog);
      SkipFns(prog, f - 1);
      var m := INITIAL.(pc := FnStart(prog.fns, f - 1));
      FnAt(prog.fns, f - 1);
      EntryPrefix(prog.fns, f - 1);
      var m1 := SkipFn(w, f - 1, m);
      Chain(w.code, INITIAL, m, m1);
    }
  }

  /** The branch over one function. */
  lemma SkipFn(w: World, f: nat, m: Machine) returns (m': Machine)
    requires Linked(w) && f < |w.fns| && m.pc == w.at[f]
    ensures Reaches(w.code, m, m') && m' == m.(pc := m.pc + |FnCode(w.fns[f], w.entry[..f], w.entry[f])|)
  {
    hide FnCode, Placed, Find, Run, CoherentFn, Effect, Branch;
    var code, end := FnCode(w.fns[f], w.entry[..f], w.entry[f]), w.entry[f] + 1;
    assert At(w.code, m.pc, code);
    FnEnds(w.fns[f], w.entry[..f], w.entry[f]);
    FirstAndLast(w, m.pc, code, end);
    var m1 := m.(pc := m.pc + |code| - 1);
    m' := m.(pc := m.pc + |code|);
    JumpTaken(w.code, m, end);
    ReachesStep(w.code, m, m1);
    Extend(w.code, m, m1, m');
  }

  lemma JumpTaken(code: seq<Ins>, m: Machine, to: nat)
    requires m.pc < |code| && code[m.pc] == Jump(Always, to)
    ensures Step(code, m) == Some(m.(pc := Find(code, to)))
  {
  }

  lemma FirstAndLast(w: World, pc: nat, code: seq<Ins>, end: nat)
    requires Linked(w) && At(w.code, pc, code)
    requires |code| > 1 && code[0] == Jump(Always, end) && code[|code| - 1] == Mark(end)
    ensures pc + |code| <= |w.code| && w.code[pc] == Jump(Always, end)
    ensures w.code[pc + |code| - 1] == Mark(end) && Find(w.code, end) == pc + |code| - 1
  {
    hide Find, Placed, Linked;
    assert code == code[..|code| - 1] + [Mark(end)] == [Jump(Always, end)] + code[1..];
    AtSplit(w.code, pc, code[..|code| - 1], [Mark(end)]);
    LastMark(w, end, pc + |code| - 1);
    FirstAt(w.code, pc, Jump(Always, end), code[1..]);
  }

  lemma StartsAtZero(fns: seq<FnDef>)
    ensures FnStart(fns, 0) == 0
  {
    assert fns[..0] == [];
  }

  lemma FnEnds(fn: FnDef, entry: seq<nat>, next: nat)
    ensures var code := FnCode(fn, entry, next);
            |code| > 1 && code[0] == Jump(Always, next + 1) && code[|code| - 1] == Mark(next + 1)
  {
    var body := BodyCode(fn.body, false, NO_LABELS, Unit(entry + [next], fn.localsCount > 0), next + 2);
    var a := FnEpilog(fn) + [Mark(next + 1)];
    var b := body + a;
    var d := StoreCode(fn.arity) + b;
    assert a[|a| - 1] == b[|b| - 1] == d[|d| - 1] == Mark(next + 1);
  }

  /** What running labelled code from the start comes to. */
  ghost predicate RunsTo(code: seq<Ins>, r: Result, fuel: nat, m: Machine) {
    if !r.Done? then Stopped(code, INITIAL, r, fuel, m) else
    && Reaches(code, INITIAL, m) && m.pc < |code| && code[m.pc] == Halt
    && m.globals == r.env.globals && m.data == [] && m.calls == [] && m.frames == []
  }

  /**
   If evaluating a coherent program ends in a store, its labelled code runs from the initial
   state to the halt instruction with exactly that store and an empty data stack. If it faults,
   the code runs to an instruction without a result; if the fuel runs out, it takes that many steps.
   */
  lemma ProgramRuns(prog: Program, fuel: nat) returns (m': Machine)
    requires CoherentProgram(prog)
    ensures RunsTo(ProgramCode(prog), EvalProgram(prog, fuel), fuel, m')
  {
    hide LowerFns, LowerBody, Listing, ListingAll, LowerProgram, CoherentFn, FnCode, ProgramCode, Placed, Find, Run, At,
         Eval, EvalBody;
    var w := ProgramWorld(prog);
    WorldLinked(prog);
    EntryPrefix(prog.fns, |prog.fns|);
    SkipFns(prog, |prog.fns|);
    assert prog.fns[..|prog.fns|] == prog.fns;
    ProgramShape(prog);
    var first := ListingAll(LowerFns(prog.fns).0);
    var m := INITIAL.(pc := |first|);
    AtWhole(first, MainCode(prog) + [Halt]);
    AtSplit(w.code, |first|, MainCode(prog), [Halt]);
    OneAt(w.code, |first| + |MainCode(prog)|, Halt);
    var c := Unit(w.entry, false);
    var p := Place(false, None, 0, prog.fns);
    m' := SimulateBody(w, prog.main, NoLabels, p, false, NO_LABELS, c, LowerFns(prog.fns).2, m, 0, START, fuel);
    var r := EvalProgram(prog, fuel);
    EvalBodyShape(prog.fns, prog.main, NoLabels, p, false, START, fuel);
    if r.Done? { Chain(w.code, INITIAL, m, m'); }
    if r.OutOfFuel? { LastsOn(w.code, INITIAL, m, fuel); }
    if r.Fault? { Chain(w.code, INITIAL, m, m'); }
  }

  lemma AtWhole(a: seq<Ins>, b: seq<Ins>)
    ensures At(a + b, |a|, b)
  {
  }
}
