/**
 The second translation: visiting the IR tree, emitting bytes into the code generator, placing
 labels and leaving sites to be patched. The labelled code emitted so far is tracked in
 `emitted`; the bytes are always exactly its byte code.
 */
module IrToCode {
  import opened Fixnums
  import opened Ast
  import opened Ir
  import opened ByteCode
  import opened CodeGeneration

  /** Labels stay below `labels`. */
  predicate LabelsBelow(i: Ins, labels: nat) {
    match i
    case Mark(id) => id < labels
    case Jump(_, to) => to < labels
    case CallCode(to) => to < labels
    case _ => true
  }

  /** Labelled code that the converter can emit: encodable, in range, and no label placed twice. */
  ghost predicate Emittable(code: seq<Ins>, labels: nat) {
    && (forall i | 0 <= i < |code| :: Encodable(code[i]) && LabelsBelow(code[i], labels))
    && (forall l: nat :: Placed(code, l) <= 1)
    && Addr(code, |code|) < HALF
  }

  lemma EmittablePrefix(a: seq<Ins>, b: seq<Ins>, labels: nat)
    requires Emittable(a + b, labels)
    ensures Emittable(a, labels)
  {
    forall i | 0 <= i < |a| ensures Encodable(a[i]) && LabelsBelow(a[i], labels) { assert a[i] == (a + b)[i]; }
    forall l: nat ensures Placed(a, l) <= 1 { Glue(a, b, l); }
    AddrPrefix(a, b, |a|);
    AddrMonotone(a + b, |a|, |a + b|);
  }

  /** A label about to be placed has not been placed. */
  lemma NotYetPlaced(code: seq<Ins>, l: nat, labels: nat)
    requires Emittable(code + [Mark(l)], labels)
    ensures Find(code, l) == |code| && l < labels
  {
    Glue(code, [Mark(l)], l);
    Single(Mark(l), l);
    if Find(code, l) < |code| { PlacedAtLeast(code, l, Find(code, l)); }
    assert (code + [Mark(l)])[|code|] == Mark(l);
  }

  lemma Nested(e: seq<Ins>, a: seq<Ins>, b: seq<Ins>, labels: nat)
    requires Emittable(e + (a + b), labels)
    ensures e + (a + b) == (e + a) + b && Emittable(e + a, labels) && Emittable((e + a) + b, labels)
  {
    assert e + (a + b) == (e + a) + b;
    EmittablePrefix(e + a, b, labels);
  }

  lemma LastEmittable(e: seq<Ins>, i: Ins, labels: nat)
    requires Emittable(e + [i], labels)
    ensures Encodable(i) && LabelsBelow(i, labels)
  {
    assert (e + [i])[|e|] == i;
  }

  class IrToCode {
    const cg: Codegen
    const labels: seq<IrLabelObject>
    ghost var emitted: seq<Ins>

    constructor (cg: Codegen, labels: seq<IrLabelObject>)
      requires cg.code == []
      requires forall i, j | 0 <= i < j < |labels| :: labels[i] != labels[j]
      requires forall i | 0 <= i < |labels| :: !labels[i].isResolved && labels[i].toBeBackfilled == []
      ensures this.cg == cg && this.labels == labels && Valid() && emitted == []
    {
      this.cg := cg;
      this.labels := labels;
      this.emitted := [];
    }

    /** Each label object knows whether and where it was placed, or else who waits for it. */
    ghost predicate LabelOk(l: nat)
      requires l < |labels|
      reads this, labels[l]
    {
      && (labels[l].isResolved <==> Find(emitted, l) < |emitted|)
      && (labels[l].isResolved ==> labels[l].localAddress == LabelAddr(emitted, l))
      && (!labels[l].isResolved ==> labels[l].toBeBackfilled == Sites(emitted, l))
    }

    ghost predicate Valid()
      reads this, cg, labels
    {
      && (forall i, j | 0 <= i < j < |labels| :: labels[i] != labels[j])
      && Encodes(cg.code, emitted)
      && (forall l | 0 <= l < |labels| :: LabelOk(l))
    }

    /** What the labels know does not change when an instruction that goes nowhere is emitted. */
    lemma LabelsKeep(i: Ins, l: nat)
      requires l < |labels| && LabelOk(l) && i != Mark(l)
      ensures var all := emitted + [i];
              && (Find(all, l) < |all| <==> Find(emitted, l) < |emitted|)
              && (Find(emitted, l) < |emitted| ==> LabelAddr(all, l) == LabelAddr(emitted, l))
      ensures !Goes(i, l) ==> Sites(emitted + [i], l) == Sites(emitted, l)
    {
      hide Find, Addr;
      SitesAppend(emitted, i, l);
      FindPrefix(emitted, i, l);
      if Find(emitted, l) < |emitted| { AddrPrefix(emitted, [i], Find(emitted, l)); }
    }

    /** The immediate of a branch or call that is being emitted. */
    lemma FreshOperand(i: Ins)
      requires (i.Jump? || i.CallCode?) && i.to < |labels| && LabelOk(i.to)
      ensures Operand(emitted + [i], |emitted|) ==
        if !labels[i.to].isResolved then DUMMY
        else if i.Jump? && i.kind.Always? then Wrap(labels[i.to].localAddress - Addr(emitted, |emitted|))
        else Wrap(labels[i.to].localAddress)
    {
      hide Find, Addr, Wrap, Sites;
      LabelsKeep(i, i.to);
      FindPrefix(emitted, i, i.to);
      AddrPrefix(emitted, [i], |emitted|);
      assert (emitted + [i])[|emitted|] == i;
    }

    /** An instruction that is no label, branch or call has been appended to the bytes. */
    lemma DataAppended(bytes: seq<Byte>, i: Ins)
      requires Encodes(bytes, emitted) && Encodable(i) && !i.Mark? && !i.Jump? && !i.CallCode?
      ensures Encodes(bytes + Encode(i, 0), emitted + [i])
    {
      hide Find, Addr, Encode, EncodesAt;
      EncodesAppend(bytes, emitted, i);
      assert (emitted + [i])[|emitted|] == i;
      assert Operand(emitted + [i], |emitted|) == 0;
    }

    /** Records an instruction that needed no label; its bytes are already appended. */
    ghost method Record(i: Ins, before: seq<Byte>)
      requires Encodable(i) && !i.Mark? && !i.Jump? && !i.CallCode?
      requires Encodes(before, emitted) && cg.code == before + Encode(i, 0)
      requires forall a, b | 0 <= a < b < |labels| :: labels[a] != labels[b]
      requires forall l | 0 <= l < |labels| :: LabelOk(l)
      modifies this`emitted
      ensures Valid() && emitted == old(emitted) + [i]
    {
      hide Find, Addr, Encode, Encodes, Sites, LabelAddr;
      DataAppended(before, i);
      forall l | 0 <= l < |labels|
        ensures Sites(emitted + [i], l) == Sites(emitted, l)
        ensures Find(emitted + [i], l) < |emitted + [i]| <==> Find(emitted, l) < |emitted|
        ensures Find(emitted, l) < |emitted| ==> LabelAddr(emitted + [i], l) == LabelAddr(emitted, l)
      {
        LabelsKeep(i, l);
      }
      emitted := emitted + [i];
    }

    /** Places a label at the current end of the code. */
    method VisitLabel(id: nat)
      requires Valid() && Emittable(emitted + [Mark(id)], |labels|)
      modifies this`emitted, cg, labels
      ensures Valid() && emitted == old(emitted) + [Mark(id)]
    {
      hide Find, Addr, Emittable, EncodesAt, PatchAll;
      NotYetPlaced(emitted, id, |labels|);
      ghost var all := emitted + [Mark(id)];
      EncodesMark(cg.code, emitted, id);
      FindPrefix(emitted, Mark(id), id);
      AddrPrefix(emitted, [Mark(id)], |emitted|);
      forall l | 0 <= l < |labels| && l != id
        ensures Sites(all, l) == Sites(emitted, l)
        ensures Find(all, l) < |all| <==> Find(emitted, l) < |emitted|
        ensures Find(emitted, l) < |emitted| ==> LabelAddr(all, l) == LabelAddr(emitted, l)
      {
        LabelsKeep(Mark(id), l);
      }
      assert LabelOk(id);
      var address := |cg.code|;
      labels[id].Address(address, cg);
      emitted := all;
      forall l | 0 <= l < |labels| ensures LabelOk(l) {
        assert l != id ==> old(LabelOk(l)) && labels[l] != labels[id];
      }
    }

    /** A branch: with its immediate if the label is resolved, otherwise as a site for it. */
    method VisitBranch(kind: BranchKind, to: nat)
      requires Valid() && Emittable(emitted + [Jump(kind, to)], |labels|)
      modifies this`emitted, cg, labels
      ensures Valid() && emitted == old(emitted) + [Jump(kind, to)]
    {
      hide Find, Addr, Emittable, EncodesAt, LabelAddr, Sites;
      ghost var i := Jump(kind, to);
      LastEmittable(emitted, i, |labels|);
      FreshOperand(i);
      SitesAppend(emitted, i, to);
      EncodesAppend(cg.code, emitted, i);
      forall l | 0 <= l < |labels|
        ensures Find(emitted + [i], l) < |emitted + [i]| <==> Find(emitted, l) < |emitted|
        ensures Find(emitted, l) < |emitted| ==> LabelAddr(emitted + [i], l) == LabelAddr(emitted, l)
        ensures l != to ==> Sites(emitted + [i], l) == Sites(emitted, l)
      {
        LabelsKeep(i, l);
      }
      var from := |cg.code|;
      var destination := labels[to];
      if destination.isResolved {
        cg.PushBackBranch(kind,
                          if kind.Always? then Wrap(destination.localAddress - from)
                          else Wrap(destination.localAddress));
      } else {
        var idx := cg.PushBackBranchSite(kind);
        destination.PleaseBackfillOnResolveRel(idx, from);
      }
      emitted := emitted + [i];
      forall l | 0 <= l < |labels| ensures LabelOk(l) {
        assert old(LabelOk(l)) && (l != to ==> labels[l] != labels[to]);
      }
    }

    /** A call of a label. */
    method BackfillLabel(to: nat)
      requires Valid() && Emittable(emitted + [CallCode(to)], |labels|)
      modifies this`emitted, cg, labels
      ensures Valid() && emitted == old(emitted) + [CallCode(to)]
    {
      hide Find, Addr, Emittable, EncodesAt, LabelAddr, Sites;
      ghost var i := CallCode(to);
      LastEmittable(emitted, i, |labels|);
      FreshOperand(i);
      SitesAppend(emitted, i, to);
      EncodesAppend(cg.code, emitted, i);
      forall l | 0 <= l < |labels|
        ensures Find(emitted + [i], l) < |emitted + [i]| <==> Find(emitted, l) < |emitted|
        ensures Find(emitted, l) < |emitted| ==> LabelAddr(emitted + [i], l) == LabelAddr(emitted, l)
        ensures l != to ==> Sites(emitted + [i], l) == Sites(emitted, l)
      {
        LabelsKeep(i, l);
      }
      var callee := labels[to];
      if callee.isResolved {
        cg.PushBackCallCode(Wrap(callee.localAddress));
      } else {
        var idx := cg.PushBackCallSite();
        callee.PleaseBackfillOnResolve(idx);
      }
      emitted := emitted + [i];
      forall l | 0 <= l < |labels| ensures LabelOk(l) {
        assert old(LabelOk(l)) && (l != to ==> labels[l] != labels[to]);
      }
    }

    method VisitFixnum(n: Fixnum)
      requires Valid()
      modifies this`emitted, cg
      ensures Valid() && emitted == old(emitted) + [Push(n)]
    {
      hide Find, Addr, EncodesAt, LabelAddr, Sites;
      ghost var before := cg.code;
      if -128 <= n < 128 {
        cg.PushBackLiteral8(n % 256);
      } else if -0x8000 <= n < 0x8000 {
        cg.PushBackLiteral16(n);
      } else {
        cg.PushBackLiteral32(n);
      }
      Record(Push(n), before);
    }

    method VisitBoolean(b: bool)
      requires Valid()
      modifies this`emitted, cg
      ensures Valid() && emitted == old(emitted) + [Push(Truth(b))]
    {
      hide Find, Addr, EncodesAt, LabelAddr, Sites;
      ghost var before := cg.code;
      cg.PushBackLiteral32(if b then 1 else 0);
      Record(Push(Truth(b)), before);
    }

    method VisitLoad(scope: Scope, index: nat)
      requires Valid() && index < N_VARS
      modifies this`emitted, cg
      ensures Valid() && emitted == old(emitted) + [Load(scope, index)]
    {
      hide Find, Addr, Encode, EncodesAt, LabelAddr, Sites;
      ghost var before := cg.code;
      match scope {
        case Global => cg.PushBackLoadGlobal(index);
        case Local => cg.PushBackLoadLocal(index);
      }
      Record(Load(scope, index), before);
    }

    method VisitStore(scope: Scope, index: nat)
      requires Valid() && index < N_VARS
      modifies this`emitted, cg
      ensures Valid() && emitted == old(emitted) + [Store(scope, index)]
    {
      hide Find, Addr, Encode, EncodesAt, LabelAddr, Sites;
      ghost var before := cg.code;
      match scope {
        case Global => cg.PushBackStoreGlobal(index);
        case Local => cg.PushBackStoreLocal(index);
      }
      Record(Store(scope, index), before);
    }

    /** An instruction that is a single opcode. */
    method VisitOpcode(i: Ins)
      requires Valid() && (i.Operate? || i.OperateUnary? || i.ReturnCode? || i.Halt?) && Encodable(i)
      modifies this`emitted, cg
      ensures Valid() && emitted == old(emitted) + [i]
    {
      hide Find, Addr, EncodesAt, LabelAddr, Sites;
      ghost var before := cg.code;
      match i {
        case Operate(op) => cg.PushBackInstruction(OP_ADD + Ordinal(op));
        case OperateUnary(op) => cg.PushBackInstruction(if op.Negate? then OP_NEGATE else OP_INVERT);
        case ReturnCode(leave) => cg.PushBackReturn(!leave);
        case Halt => cg.PushBackInstruction(OP_HALT);
      }
      Record(i, before);
    }

    method VisitDiscard(num: nat)
      requires Valid() && num < N_VARS
      modifies this`emitted, cg
      ensures Valid() && emitted == old(emitted) + if num == 0 then [] else [Ins.Drop(num)]
    {
      hide Find, Addr, Encode, EncodesAt, LabelAddr, Sites;
      ghost var before := cg.code;
      cg.PushBackDrop(num);
      assert num == 0 ==> cg.code == before && old(emitted) + [] == emitted;
      if num != 0 { Record(Ins.Drop(num), before); }
    }

    method VisitAllocateLocals(num: nat)
      requires Valid() && num < N_VARS
      modifies this`emitted, cg
      ensures Valid() && emitted == old(emitted) + [AllocLocals(num)]
    {
      hide Find, Addr, Encode, EncodesAt, LabelAddr, Sites;
      ghost var before := cg.code;
      cg.PushBackAllocLocals(num);
      Record(AllocLocals(num), before);
    }

    /** Visits one IR node: exactly its listing is emitted. */
    method ConvertOne(ir: IrNode)
      requires Valid() && Emittable(emitted + Listing(ir), |labels|)
      modifies this`emitted, cg, labels
      ensures Valid() && emitted == old(emitted) + Listing(ir)
      decreases ir, 1
    {
      hide Emittable, Valid, ListingAll;
      match ir
      case IrFixnum(n) => VisitFixnum(n);
      case IrBoolean(b) => VisitBoolean(b);
      case IrSymbol(scope, index, _) =>
        LastEmittable(emitted, Load(scope, index), |labels|);
        VisitLoad(scope, index);
      case IrBinary(op, lhs, rhs) =>
        Nested(emitted, Listing(lhs), Listing(rhs) + [Operate(op)], |labels|);
        ConvertOne(lhs);
        Nested(emitted, Listing(rhs), [Operate(op)], |labels|);
        ConvertOne(rhs);
        VisitOpcode(Operate(op));
      case IrUnary(op, operand) =>
        var i := OperateUnary(op);
        Nested(emitted, Listing(operand), if op.Positive? then [] else [i], |labels|);
        ConvertOne(operand);
        if !op.Positive? { VisitOpcode(i); }
      case IrBlock(nodes, _) => ConvertMany(nodes);
      case IrAssignment(scope, index, rhs) =>
        Nested(emitted, Listing(rhs), [Store(scope, index)], |labels|);
        ConvertOne(rhs);
        LastEmittable(emitted, Store(scope, index), |labels|);
        VisitStore(scope, index);
      case IrAssignTop(scope, index) =>
        LastEmittable(emitted, Store(scope, index), |labels|);
        VisitStore(scope, index);
      case IrCall(callee, args, _) =>
        Nested(emitted, ListingAll(args), [CallCode(callee)], |labels|);
        ConvertMany(args);
        BackfillLabel(callee);
      case IrReturn(values, leave) =>
        Nested(emitted, ListingAll(values), [ReturnCode(leave)], |labels|);
        ConvertMany(values);
        VisitOpcode(ReturnCode(leave));
      case IrLabel(id) => VisitLabel(id);
      case IrNamedBlock(id, body, end) =>
        Nested(emitted, [Mark(id)], ListingAll(body) + [Mark(end)], |labels|);
        VisitLabel(id);
        Nested(emitted, ListingAll(body), [Mark(end)], |labels|);
        ConvertMany(body);
        VisitLabel(end);
      case IrBranch(kind, destination) => VisitBranch(kind, destination);
      case IrDiscardResult(num) =>
        if num != 0 { LastEmittable(emitted, Ins.Drop(num), |labels|); }
        VisitDiscard(num);
      case IrAllocateLocals(num) =>
        LastEmittable(emitted, AllocLocals(num), |labels|);
        VisitAllocateLocals(num);
    }

    method ConvertMany(nodes: seq<IrNode>)
      requires Valid() && Emittable(emitted + ListingAll(nodes), |labels|)
      modifies this`emitted, cg, labels
      ensures Valid() && emitted == old(emitted) + ListingAll(nodes)
      decreases nodes, 0
    {
      hide Emittable, Valid, Listing;
      if nodes != [] {
        Nested(emitted, Listing(nodes[0]), ListingAll(nodes[1..]), |labels|);
        ConvertOne(nodes[0]);
        ConvertMany(nodes[1..]);
      }
    }

    /** The whole program, with a halt at its end. */
    method Convert(nodes: seq<IrNode>) returns (code: seq<Byte>)
      requires Valid() && emitted == [] && Emittable(ListingAll(nodes) + [Ins.Halt], |labels|)
      modifies this`emitted, cg, labels
      ensures Encodes(code, ListingAll(nodes) + [Ins.Halt])
    {
      hide Emittable, Encodes, ListingAll;
      EmittablePrefix(ListingAll(nodes), [Ins.Halt], |labels|);
      assert emitted + ListingAll(nodes) == ListingAll(nodes);
      ConvertMany(nodes);
      VisitOpcode(Ins.Halt);
      return cg.code;
    }
  }
}
