/**
 The whole compiler: syntax tree to labelled IR to bytes, and the bytes run by the virtual
 machine.
 */
module CompilerCorrect {
  import opened Wrappers
  import opened Fixnums
  import Arithmetic
  import opened Ast
  import opened Evaluation
  import opened Ir
  import opened Lowering
  import opened LabelDiscipline
  import opened Machines
  import opened ProgramCorrect
  import opened ByteCode
  import opened VirtualMachines
  import opened ByteSimulation
  import opened CodeGeneration
  import GoodCode
  import AstToIr
  import IrToCode

  /** Bytes that the VM runs to a halt with the globals `globals` and nothing else left over. */
  ghost predicate HaltsWith(bytes: seq<Byte>, globals: map<nat, Fixnum>, n: nat) {
    var end := RunBytes(bytes, INITIAL, n);
    && end.Some? && Decode(bytes, end.value.pc) == Some(HaltIns)
    && end.value.globals == globals && end.value.data == [] && end.value.calls == [] && end.value.frames == []
  }

  /** The code fits the 32-bit offsets of branches and calls. */
  predicate Fits(prog: Program) { Addr(ProgramCode(prog), |ProgramCode(prog)|) < HALF }

  /** What the VM makes of the bytes, given the result of the evaluation with `fuel`. */
  ghost predicate RunsLike(bytes: seq<Byte>, code: seq<Ins>, r: Result, fuel: nat, n: nat) {
    match r
    case Done(_, env) => HaltsWith(bytes, env.globals, n)
    case OutOfFuel => fuel == (n + 1) * (|code| + 1) ==> RunBytes(bytes, INITIAL, n).Some?
    case Fault => StuckAfter(bytes, INITIAL, n) && BlockedBytes(bytes, RunBytes(bytes, INITIAL, n).value)
    case _ => false
  }

  /**
   The compiler preserves meaning: if evaluating a coherent program ends in a store, the VM runs
   the program's bytes from the start to the halt instruction and ends with exactly that store,
   an empty data stack and no frames.
   */
  lemma BytesRun(prog: Program, fuel: nat, bytes: seq<Byte>) returns (n: nat)
    requires CoherentProgram(prog) && Fits(prog) && Encodes(bytes, ProgramCode(prog))
    requires EvalProgram(prog, fuel).Done?
    ensures HaltsWith(bytes, EvalProgram(prog, fuel).env.globals, n)
  {
    hide CoherentProgram, EvalProgram, HaltsWith, Encodes, StuckAfter, BlockedBytes;
    n := BytesOutcome(prog, fuel, bytes, 0);
  }

  /** The same for every result; `limit` is a number of steps that are asked for. */
  lemma BytesOutcome(prog: Program, fuel: nat, bytes: seq<Byte>, limit: nat) returns (n: nat)
    requires CoherentProgram(prog) && Fits(prog) && Encodes(bytes, ProgramCode(prog))
    ensures RunsLike(bytes, ProgramCode(prog), EvalProgram(prog, fuel), fuel, n)
    ensures EvalProgram(prog, fuel).OutOfFuel? ==> n == limit
  {
    hide CoherentProgram, EvalProgram, ProgramCode, Decode, Addr, Encodes, RunBytes, Sound, Reaches, StepBytes, Lasts;
    var code, r := ProgramCode(prog), EvalProgram(prog, fuel);
    var m := ProgramRuns(prog, fuel);
    GoodCode.ProgramSound(prog);
    StartsInCode(code);
    if r.OutOfFuel? {
      n := limit;
      if fuel == (n + 1) * (|code| + 1) { BytesLast(bytes, code, INITIAL, n); }
    } else {
      BytesSimulate(bytes, code, INITIAL, m);
      n :| RunBytes(bytes, INITIAL, n) == Some(Located(code, m));
      if r.Done? {
        HaltLocated(bytes, code, m.pc);
      } else {
        BlockedLocated(bytes, code, m);
        RunBytesExtend(bytes, INITIAL, n, Located(code, m));
      }
    }
  }

  /** Fuel with which the evaluation covers `n` steps of the VM. */
  function FuelFor(prog: Program, n: nat): nat { (n + 1) * (|ProgramCode(prog)| + 1) }

  /**
   And back: when the VM stops after `n` steps, the evaluation ends with that much fuel. At a
   halt it is a store, the one the VM ends with; otherwise it is a fault, and the VM is at an
   instruction that has its operands but no result, never at one that misses an operand.
   */
  lemma BytesMean(prog: Program, bytes: seq<Byte>, n: nat)
    requires CoherentProgram(prog) && Fits(prog) && Encodes(bytes, ProgramCode(prog))
    requires RunBytes(bytes, INITIAL, n).Some? && RunBytes(bytes, INITIAL, n + 1) == None
    ensures var r, end := EvalProgram(prog, FuelFor(prog, n + 1)), RunBytes(bytes, INITIAL, n).value;
            if Decode(bytes, end.pc) == Some(HaltIns) then
              r.Done? && r.env.globals == end.globals && HaltsWith(bytes, end.globals, n)
            else
              r.Fault? &&
              match Decode(bytes, end.pc)
              case Some(DataIns(Operate(op), _)) =>
                |end.data| >= 2 && Arithmetic.HasNone(op, end.data[|end.data| - 2], end.data[|end.data| - 1])
              case Some(DataIns(Load(Global, index), _)) => index !in end.globals
              case Some(DataIns(Load(Local, index), _)) => end.base.Some? && end.base.value + index !in end.locals
              case _ => false
  {
    hide CoherentProgram, EvalProgram, Encodes, BlockedBytes, RunBytes, ProgramCode, Decode;
    var fuel := FuelFor(prog, n + 1);
    var k := BytesOutcome(prog, fuel, bytes, n + 1);
    var r := EvalProgram(prog, fuel);
    if !r.OutOfFuel? {
      if r.Done? { HaltEnds(bytes, INITIAL, k); }
      SameEnd(bytes, INITIAL, k, n);
      if r.Fault? { BlockedMeans(bytes, RunBytes(bytes, INITIAL, n).value); }
    }
  }

  lemma BlockedMeans(bytes: seq<Byte>, m: Machine)
    requires BlockedBytes(bytes, m)
    ensures match Decode(bytes, m.pc)
            case Some(DataIns(Operate(op), _)) =>
              |m.data| >= 2 && Arithmetic.HasNone(op, m.data[|m.data| - 2], m.data[|m.data| - 1])
            case Some(DataIns(Load(Global, index), _)) => index !in m.globals
            case Some(DataIns(Load(Local, index), _)) => m.base.Some? && m.base.value + index !in m.locals
            case _ => false
  {
    hide Decode, Blocks, Arithmetic.HasNone;
    BlocksMeans(Decode(bytes, m.pc).value.ins, m);
  }

  lemma HaltEnds(bytes: seq<Byte>, m: Machine, n: nat)
    requires RunBytes(bytes, m, n).Some? && Decode(bytes, RunBytes(bytes, m, n).value.pc) == Some(HaltIns)
    ensures RunBytes(bytes, m, n + 1) == None
  {
    hide Decode, RunBytes;
    var end := RunBytes(bytes, m, n).value;
    HaltStops(bytes, end);
    RunBytesExtend(bytes, m, n, end);
  }

  lemma SameEnd(bytes: seq<Byte>, m: Machine, n: nat, k: nat)
    requires RunBytes(bytes, m, n).Some? && RunBytes(bytes, m, n + 1) == None
    requires RunBytes(bytes, m, k).Some? && RunBytes(bytes, m, k + 1) == None
    ensures n == k
  {
    hide StepBytes;
    if n < k { BytesPrefix(bytes, m, k, n + 1); }
    if k < n { BytesPrefix(bytes, m, n, k + 1); }
  }

  ghost predicate VmHalts(bytes: seq<Byte>, globals: map<nat, Fixnum>) { exists n: nat :: HaltsWith(bytes, globals, n) }

  ghost predicate VmSticks(bytes: seq<Byte>) { exists n: nat :: StuckAfter(bytes, INITIAL, n) }

  ghost predicate VmRunsForever(bytes: seq<Byte>) { forall n: nat :: RunBytes(bytes, INITIAL, n).Some? }

  /** Evaluating the program ends in a store with these globals. */
  ghost predicate Means(prog: Program, globals: map<nat, Fixnum>) {
    exists fuel: nat :: EvalProgram(prog, fuel).Done? && EvalProgram(prog, fuel).env.globals == globals
  }

  ghost predicate Faults(prog: Program) { exists fuel: nat :: EvalProgram(prog, fuel).Fault? }

  ghost predicate Diverges(prog: Program) { forall fuel: nat :: EvalProgram(prog, fuel).OutOfFuel? }

  /**
   The VM and the evaluation agree on every coherent program: the VM halts with a store exactly
   if the evaluation ends in it, gets stuck exactly if the evaluation faults, and runs for ever
   exactly if no amount of fuel suffices.
   */
  lemma SameBehaviour(prog: Program, bytes: seq<Byte>)
    requires CoherentProgram(prog) && Fits(prog) && Encodes(bytes, ProgramCode(prog))
    ensures forall globals :: VmHalts(bytes, globals) <==> Means(prog, globals)
    ensures VmSticks(bytes) <==> Faults(prog)
    ensures VmRunsForever(bytes) <==> Diverges(prog)
  {
    hide *;
    forall globals ensures VmHalts(bytes, globals) <==> Means(prog, globals) { SameHalts(prog, bytes, globals); }
    SameStuck(prog, bytes);
    SameForever(prog, bytes);
  }

  lemma SameHalts(prog: Program, bytes: seq<Byte>, globals: map<nat, Fixnum>)
    requires CoherentProgram(prog) && Fits(prog) && Encodes(bytes, ProgramCode(prog))
    ensures VmHalts(bytes, globals) <==> Means(prog, globals)
  {
    hide CoherentProgram, EvalProgram, Encodes, BlockedBytes, RunBytes, ProgramCode, Decode, FuelFor, Fits;
    if fuel: nat :| EvalProgram(prog, fuel).Done? && EvalProgram(prog, fuel).env.globals == globals {
      var n := BytesRun(prog, fuel, bytes);
    }
    if n: nat :| HaltsWith(bytes, globals, n) {
      HaltEnds(bytes, INITIAL, n);
      BytesMean(prog, bytes, n);
    }
  }

  lemma SameStuck(prog: Program, bytes: seq<Byte>)
    requires CoherentProgram(prog) && Fits(prog) && Encodes(bytes, ProgramCode(prog))
    ensures VmSticks(bytes) <==> Faults(prog)
  {
    hide CoherentProgram, EvalProgram, Encodes, BlockedBytes, RunBytes, ProgramCode, Decode, FuelFor, Fits;
    if fuel: nat :| EvalProgram(prog, fuel).Fault? { var n := BytesOutcome(prog, fuel, bytes, 0); }
    if n: nat :| StuckAfter(bytes, INITIAL, n) { BytesMean(prog, bytes, n); }
  }

  lemma SameForever(prog: Program, bytes: seq<Byte>)
    requires CoherentProgram(prog) && Fits(prog) && Encodes(bytes, ProgramCode(prog))
    ensures VmRunsForever(bytes) <==> Diverges(prog)
  {
    hide *;
    if Diverges(prog) { DivergesForever(prog, bytes); }
    if VmRunsForever(bytes) { ForeverDiverges(prog, bytes); }
  }

  lemma DivergesForever(prog: Program, bytes: seq<Byte>)
    requires CoherentProgram(prog) && Fits(prog) && Encodes(bytes, ProgramCode(prog)) && Diverges(prog)
    ensures VmRunsForever(bytes)
  {
    hide CoherentProgram, EvalProgram, Encodes, BlockedBytes, RunBytes, ProgramCode, Decode, Fits;
    forall n: nat ensures RunBytes(bytes, INITIAL, n).Some? {
      assert EvalProgram(prog, FuelFor(prog, n)).OutOfFuel?;
      var k := BytesOutcome(prog, FuelFor(prog, n), bytes, n);
    }
  }

  lemma ForeverDiverges(prog: Program, bytes: seq<Byte>)
    requires CoherentProgram(prog) && Fits(prog) && Encodes(bytes, ProgramCode(prog)) && VmRunsForever(bytes)
    ensures Diverges(prog)
  {
    hide CoherentProgram, EvalProgram, Encodes, BlockedBytes, RunBytes, ProgramCode, Decode, Fits;
    forall fuel: nat ensures EvalProgram(prog, fuel).OutOfFuel? {
      var k := BytesOutcome(prog, fuel, bytes, 0);
      assert RunBytes(bytes, INITIAL, k + 1).Some?;
      if EvalProgram(prog, fuel).Done? { HaltEnds(bytes, INITIAL, k); }
    }
  }

  lemma StartsInCode(code: seq<Ins>)
    ensures InCode(code, INITIAL) && Located(code, INITIAL) == INITIAL
  {
  }

  /** A run that reaches a halt has exactly the steps up to it: no other halt, and not stuck before. */
  lemma {:induction false} OneEnd(bytes: seq<Byte>, m: Machine, n: nat, k: nat)
    requires RunBytes(bytes, m, n).Some? && Decode(bytes, RunBytes(bytes, m, n).value.pc) == Some(HaltIns)
    ensures RunBytes(bytes, m, k).Some? <==> k <= n
    ensures RunBytes(bytes, m, k).Some? && Decode(bytes, RunBytes(bytes, m, k).value.pc) == Some(HaltIns) ==> k == n
    ensures !StuckAfter(bytes, m, k)
    decreases n
  {
    hide Decode, StepBytes;
    HaltStops(bytes, m);
    if n == 0 {
      if k > 0 { assert RunBytes(bytes, m, k) == None; }
    } else if k > 0 {
      OneEnd(bytes, StepBytes(bytes, m).value, n - 1, k - 1);
    } else {
      assert RunBytes(bytes, m, 1) == Some(StepBytes(bytes, m).value) by {
        assert RunBytes(bytes, StepBytes(bytes, m).value, 0) == Some(StepBytes(bytes, m).value);
      }
    }
  }

  lemma HaltStops(bytes: seq<Byte>, m: Machine)
    ensures Decode(bytes, m.pc) == Some(HaltIns) ==> StepBytes(bytes, m) == None
  {
  }

  /** Compiles a program: the first visitor builds the IR, the second emits and patches bytes. */
  method Compile(prog: Program) returns (bytes: seq<Byte>)
    requires CoherentProgram(prog) && Fits(prog)
    ensures Encodes(bytes, ProgramCode(prog))
    ensures forall globals :: VmHalts(bytes, globals) <==> Means(prog, globals)
    ensures VmSticks(bytes) <==> Faults(prog)
    ensures VmRunsForever(bytes) <==> Diverges(prog)
  {
    hide CoherentProgram, EvalProgram, Decode, Addr, Encodes, RunBytes, Sound, LowerProgram, ListingAll, Means, Faults,
         Diverges, VmHalts, VmSticks, VmRunsForever;
    GoodCode.ProgramSound(prog);
    var front := new AstToIr.AstToIr();
    var nodes := front.Convert(prog);
    var cg := new Codegen();
    var back := new IrToCode.IrToCode(cg, front.labels);
    bytes := back.Convert(nodes);
    SameBehaviour(prog, bytes);
  }

  /**
   Runs a compiled program for at most `limit` instructions. If its evaluation ends, there is a
   number of instructions after which it halts with the evaluation's globals: with that many or
   fewer allowed it is still running, with more it has halted, and it is never stuck. If it has
   halted or is stuck, that is what the program means.
   */
  method Execute(prog: Program, bytes: seq<Byte>, limit: nat) returns (status: Status, globals: map<nat, Fixnum>)
    requires CoherentProgram(prog) && Fits(prog) && Encodes(bytes, ProgramCode(prog))
    ensures forall fuel | EvalProgram(prog, fuel).Done? ::
              Ends(bytes, EvalProgram(prog, fuel).env.globals, limit, status, globals)
    ensures status.Halted? ==> Means(prog, globals)
    ensures status.Stuck? ==> Faults(prog)
  {
    hide CoherentProgram, EvalProgram, Decode, Encodes, HaltsWith, ProgramCode, RunBytes, Fits;
    var vm := new VirtualMachine(bytes);
    var steps;
    status, steps := vm.Run(limit);
    globals := vm.globals;
    if status.Halted? { HaltEnds(bytes, INITIAL, steps); }
    if !status.Running? { BytesMean(prog, bytes, steps); }
    forall fuel | EvalProgram(prog, fuel).Done?
      ensures Ends(bytes, EvalProgram(prog, fuel).env.globals, limit, status, globals)
    {
      var n := BytesRun(prog, fuel, bytes);
      HaltsThere(bytes, EvalProgram(prog, fuel).env.globals, n, steps);
      HaltsThere(bytes, EvalProgram(prog, fuel).env.globals, n, limit);
    }
  }

  ghost predicate Ends(bytes: seq<Byte>, expected: map<nat, Fixnum>, limit: nat, status: Status,
                       globals: map<nat, Fixnum>) {
    exists n: nat ::
      HaltsWith(bytes, expected, n) && (if n < limit then status.Halted? && globals == expected else status.Running?)
  }

  lemma HaltsThere(bytes: seq<Byte>, globals: map<nat, Fixnum>, n: nat, k: nat)
    requires HaltsWith(bytes, globals, n)
    ensures RunBytes(bytes, INITIAL, k).Some? <==> k <= n
    ensures k <= n && Decode(bytes, RunBytes(bytes, INITIAL, k).value.pc) == Some(HaltIns)
        ==> k == n && RunBytes(bytes, INITIAL, k).value.globals == globals
    ensures k == n ==> Decode(bytes, RunBytes(bytes, INITIAL, k).value.pc) == Some(HaltIns)
    ensures !StuckAfter(bytes, INITIAL, k)
  {
    OneEnd(bytes, INITIAL, n, k);
  }
}
