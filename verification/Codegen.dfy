/**
 The code generator's byte buffer and the labels that patch it. Every method appends exactly
 the bytes of its instruction; resolving a label overwrites the immediates of the branches and
 calls that were waiting for it, and nothing else.
 */
module CodeGeneration {
  import opened Fixnums
  import opened Ast
  import opened Ir
  import opened ByteCode

  /** The four bytes at `index` replaced. */
  function Patched(bytes: seq<Byte>, index: nat, raw: seq<Byte>): (r: seq<Byte>)
    requires index + |raw| <= |bytes|
    ensures |r| == |bytes|
  {
    bytes[..index] + raw + bytes[index + |raw|..]
  }

  class Codegen {
    var code: seq<Byte>

    constructor ()
      ensures code == []
    {
      code := [];
    }

    method PushBackInstruction(op: Byte)
      modifies this
      ensures code == old(code) + [op]
    {
      code := code + [op];
    }

    method PushBackRaw16(n: int)
      requires -0x8000 <= n < 0x8000
      modifies this
      ensures code == old(code) + Raw16(n)
    {
      code := code + Raw16(n);
    }

    method PushBackRaw32(n: Fixnum)
      modifies this
      ensures code == old(code) + Raw32(n)
    {
      code := code + Raw32(n);
    }

    /** Overwrites a 32-bit immediate. */
    method SetRaw32(index: nat, value: Fixnum)
      requires index + 4 <= |code|
      modifies this
      ensures code == Patched(old(code), index, Raw32(value))
    {
      var raw := Raw32(value);
      code := code[index := raw[0]][index + 1 := raw[1]][index + 2 := raw[2]][index + 3 := raw[3]];
      assert code == Patched(old(code), index, raw);
    }

    /** A one-byte literal if there is an opcode for the constant. */
    method PushBackFastConstant(n: int) returns (done: bool)
      modifies this
      ensures done <==> -1 <= n <= 5
      ensures code == if done then old(code) + [OP_LITERAL_FIXNUM_0 + n] else old(code)
    {
      done := -1 <= n <= 5;
      if done { PushBackInstruction(OP_LITERAL_FIXNUM_0 + n); }
    }

    method PushBackLiteral8(n: Byte)
      modifies this
      ensures code == old(code) + if n <= 5 then [OP_LITERAL_FIXNUM_0 + n] else [OP_LITERAL_8, n]
    {
      var done := PushBackFastConstant(n);
      if !done {
        PushBackInstruction(OP_LITERAL_8);
        PushBackInstruction(n);
        assert [OP_LITERAL_8] + [n] == [OP_LITERAL_8, n];
      }
    }

    method PushBackLiteral16(n: int)
      requires -0x8000 <= n < 0x8000
      modifies this
      ensures code == old(code) + if -1 <= n <= 5 then [OP_LITERAL_FIXNUM_0 + n] else [OP_LITERAL_16] + Raw16(n)
    {
      var done := PushBackFastConstant(n);
      if !done {
        PushBackInstruction(OP_LITERAL_16);
        PushBackRaw16(n);
      }
    }

    method PushBackLiteral32(n: Fixnum)
      modifies this
      ensures code == old(code) + if -1 <= n <= 5 then [OP_LITERAL_FIXNUM_0 + n] else [OP_LITERAL_32] + Raw32(n)
    {
      var done := PushBackFastConstant(n);
      if !done {
        PushBackInstruction(OP_LITERAL_32);
        PushBackRaw32(n);
      }
    }

    method PushBackLoadLocal(n: nat)
      requires n < N_VARS
      modifies this
      ensures code == old(code) + Encode(Load(Local, n), 0)
    {
      if n < 10 {
        PushBackInstruction(OP_LOAD_LOCAL_0 + n);
      } else {
        PushBackInstruction(OP_LOAD_LOCAL);
        PushBackRaw16(n);
      }
    }

    method PushBackStoreLocal(n: nat)
      requires n < N_VARS
      modifies this
      ensures code == old(code) + Encode(Store(Local, n), 0)
    {
      if n < 10 {
        PushBackInstruction(OP_STORE_LOCAL_0 + n);
      } else {
        PushBackInstruction(OP_STORE_LOCAL);
        PushBackRaw16(n);
      }
    }

    method PushBackLoadGlobal(n: nat)
      requires n < N_VARS
      modifies this
      ensures code == old(code) + Encode(Load(Global, n), 0)
    {
      PushBackInstruction(OP_LOAD_GLOBAL);
      PushBackRaw32(n);
    }

    method PushBackStoreGlobal(n: nat)
      requires n < N_VARS
      modifies this
      ensures code == old(code) + Encode(Store(Global, n), 0)
    {
      PushBackInstruction(OP_STORE_GLOBAL);
      PushBackRaw32(n);
    }

    method PushBackDrop(n: nat)
      requires n < N_VARS
      modifies this
      ensures code == old(code) + if n == 0 then [] else Encode(Ins.Drop(n), 0)
    {
      if n == 0 { return; }
      if n <= 4 {
        PushBackInstruction(OP_DROP_1 + n - 1);
      } else {
        PushBackInstruction(OP_DROP_N);
        PushBackRaw16(n);
      }
    }

    method PushBackAllocLocals(n: nat)
      requires n < N_VARS
      modifies this
      ensures code == old(code) + Encode(AllocLocals(n), 0)
    {
      PushBackInstruction(OP_ALLOC_LOCALS);
      PushBackRaw16(n);
    }

    /** A branch with its immediate. */
    method PushBackBranch(kind: BranchKind, n: Fixnum)
      modifies this
      ensures code == old(code) + ([BranchOpcode(kind)] + Raw32(n))
    {
      PushBackInstruction(BranchOpcode(kind));
      PushBackRaw32(n);
    }

    /** A site to be patched; returns its index. */
    method MakeDummy32() returns (index: nat)
      modifies this
      ensures index == |old(code)| && code == old(code) + Raw32(DUMMY)
    {
      index := |code|;
      PushBackRaw32(DUMMY);
    }

    method PushBackBranchSite(kind: BranchKind) returns (index: nat)
      modifies this
      ensures index == |old(code)| + 1 && code == old(code) + ([BranchOpcode(kind)] + Raw32(DUMMY))
    {
      PushBackInstruction(BranchOpcode(kind));
      index := MakeDummy32();
    }

    method PushBackCallCode(target: Fixnum)
      modifies this
      ensures code == old(code) + ([OP_CALL] + Raw32(target))
    {
      PushBackInstruction(OP_CALL);
      PushBackRaw32(target);
    }

    method PushBackCallSite() returns (index: nat)
      modifies this
      ensures index == |old(code)| + 1 && code == old(code) + ([OP_CALL] + Raw32(DUMMY))
    {
      PushBackInstruction(OP_CALL);
      index := MakeDummy32();
    }

    method PushBackReturn(fast: bool)
      modifies this
      ensures code == old(code) + Encode(ReturnCode(!fast), 0)
    {
      PushBackInstruction(if fast then OP_RETURN_FAST else OP_RETURN);
    }
  }

  // ----- labels and the sites that wait for them -----

  datatype Backfill = Backfill(index: nat, from: nat, wantsRelative: bool)

  /** The immediate a site gets when its label turns out to be at `addr`. */
  function Resolved(b: Backfill, addr: int): Fixnum {
    if b.wantsRelative then Wrap(addr - b.from) else Wrap(addr)
  }

  function PatchAll(bytes: seq<Byte>, sites: seq<Backfill>, addr: int): (r: seq<Byte>)
    requires forall b | b in sites :: b.index + 4 <= |bytes|
    ensures |r| == |bytes|
  {
    if sites == [] then bytes
    else
      var last := sites[|sites| - 1];
      Patched(PatchAll(bytes, sites[..|sites| - 1], addr), last.index, Raw32(Resolved(last, addr)))
  }

  class IrLabelObject {
    var isResolved: bool
    var localAddress: int
    var toBeBackfilled: seq<Backfill>

    constructor ()
      ensures !isResolved && toBeBackfilled == []
    {
      isResolved, localAddress, toBeBackfilled := false, 0, [];
    }

    /** Fixes the label's address and patches every site that waits for it. */
    method Address(addr: int, cg: Codegen)
      requires !isResolved
      requires forall b | b in toBeBackfilled :: b.index + 4 <= |cg.code|
      modifies this, cg
      ensures isResolved && localAddress == addr && toBeBackfilled == old(toBeBackfilled)
      ensures cg.code == PatchAll(old(cg.code), old(toBeBackfilled), addr)
    {
      localAddress := addr;
      isResolved := true;
      var i := 0;
      while i < |toBeBackfilled|
        invariant i <= |toBeBackfilled| && toBeBackfilled == old(toBeBackfilled)
        invariant isResolved && localAddress == addr
        invariant cg.code == PatchAll(old(cg.code), toBeBackfilled[..i], addr)
      {
        var bf := toBeBackfilled[i];
        assert toBeBackfilled[..i + 1][..i] == toBeBackfilled[..i];
        cg.SetRaw32(bf.index, if bf.wantsRelative then Wrap(localAddress - bf.from) else Wrap(localAddress));
        i := i + 1;
      }
      assert toBeBackfilled[..i] == toBeBackfilled;
    }

    method PleaseBackfillOnResolve(index: nat)
      modifies this`toBeBackfilled
      ensures toBeBackfilled == old(toBeBackfilled) + [Backfill(index, 0, false)]
    {
      toBeBackfilled := toBeBackfilled + [Backfill(index, 0, false)];
    }

    method PleaseBackfillOnResolveRel(index: nat, from: nat)
      modifies this`toBeBackfilled
      ensures toBeBackfilled == old(toBeBackfilled) + [Backfill(index, from, true)]
    {
      toBeBackfilled := toBeBackfilled + [Backfill(index, from, true)];
    }
  }

  function SiteOf(code: seq<Ins>, k: nat): Backfill
    requires k < |code|
  {
    Backfill(Addr(code, k) + 1, if code[k].Jump? then Addr(code, k) else 0, code[k].Jump?)
  }

  /** The sites among the first `k` instructions that go to label `l`, in the order they were emitted. */
  function SitesUpTo(code: seq<Ins>, l: nat, k: nat): seq<Backfill>
    requires k <= |code|
  {
    if k == 0 then []
    else SitesUpTo(code, l, k - 1) + (if Goes(code[k - 1], l) then [SiteOf(code, k - 1)] else [])
  }

  function Sites(code: seq<Ins>, l: nat): seq<Backfill> { SitesUpTo(code, l, |code|) }

  lemma {:induction false} SitesPrefix(code: seq<Ins>, i: Ins, l: nat, k: nat)
    requires k <= |code|
    ensures SitesUpTo(code + [i], l, k) == SitesUpTo(code, l, k)
    decreases k
  {
    if k > 0 {
      SitesPrefix(code, i, l, k - 1);
      AddrPrefix(code, [i], k - 1);
    }
  }

  lemma SitesAppend(code: seq<Ins>, i: Ins, l: nat)
    ensures Sites(code + [i], l) == Sites(code, l) + (if Goes(i, l) then [SiteOf(code + [i], |code|)] else [])
    ensures SiteOf(code + [i], |code|) ==
              Backfill(Addr(code, |code|) + 1, if i.Jump? then Addr(code, |code|) else 0, i.Jump?)
  {
    SitesPrefix(code, i, l, |code|);
    AddrPrefix(code, [i], |code|);
  }

  // ----- appending an instruction keeps the encoding -----

  lemma EncodesAppend(bytes: seq<Byte>, code: seq<Ins>, i: Ins)
    requires Encodes(bytes, code) && Encodable(i) && !i.Mark?
    ensures var all := code + [i]; Encodes(bytes + Encode(i, Operand(all, |code|)), all)
  {
    hide Encode, Find, Operand;
    var all := code + [i];
    var e := Encode(i, Operand(all, |code|));
    SizeOfEncode(i, Operand(all, |code|));
    AddrPrefix(code, [i], |code|);
    forall k | 0 <= k < |all| ensures EncodesAt(bytes + e, all, k) {
      AddrPrefix(code, [i], k);
      if k < |code| {
        assert EncodesAt(bytes, code, k);
        AddrMonotone(code, k, |code|);
        OperandAppend(code, i, k);
        assert all[k] == code[k];
        assert (bytes + e)[Addr(code, k)..Addr(code, k) + Size(code[k])] ==
                 bytes[Addr(code, k)..Addr(code, k) + Size(code[k])];
      } else {
        assert (bytes + e)[|bytes|..|bytes| + |e|] == e;
      }
    }
  }

  /** Only placing a label changes the immediates of what has been emitted. */
  lemma OperandAppend(code: seq<Ins>, i: Ins, k: nat)
    requires k < |code| && !(i.Mark? && Goes(code[k], i.id))
    ensures Operand(code + [i], k) == Operand(code, k)
  {
    hide Addr, Find;
    var at := code[k];
    if at.Jump? || at.CallCode? {
      FindPrefix(code, i, at.to);
      if Find(code, at.to) < |code| { AddrPrefix(code, [i], Find(code, at.to)); }
      AddrPrefix(code, [i], k);
    }
  }

  // ----- placing a label patches exactly its sites -----

  /** Halfway through patching the sites of `l`: done before instruction `k`, to be done from it. */
  ghost predicate HalfPatched(bytes: seq<Byte>, code: seq<Ins>, l: nat, k: nat)
    requires k <= |code|
  {
    && |bytes| == Addr(code, |code|)
    && (forall i | 0 <= i < k :: EncodesAt(bytes, code + [Mark(l)], i))
    && (forall i | k <= i < |code| :: EncodesAt(bytes, code, i))
  }

  /** Bytes outside the patched immediate are unchanged. */
  lemma PatchElsewhere(bytes: seq<Byte>, index: nat, raw: seq<Byte>, from: nat, to: nat)
    requires index + |raw| <= |bytes| && from <= to <= |bytes|
    requires to <= index || index + |raw| <= from
    ensures Patched(bytes, index, raw)[from..to] == bytes[from..to]
  {
  }

  lemma PatchHere(bytes: seq<Byte>, index: nat, op: Byte, raw: seq<Byte>, raw': seq<Byte>)
    requires |raw| == |raw'| && index + 1 + |raw| <= |bytes| && bytes[index..index + 1 + |raw|] == [op] + raw
    ensures Patched(bytes, index + 1, raw')[index..index + 1 + |raw|] == [op] + raw'
  {
    assert bytes[index] == ([op] + raw)[0];
  }

  /** The new immediate of a site is the one its encoding has once the label is placed. */
  lemma SiteOperand(code: seq<Ins>, l: nat, k: nat)
    requires k < |code| && Goes(code[k], l) && Find(code, l) == |code|
    ensures Operand(code, k) == DUMMY
    ensures Operand(code + [Mark(l)], k) == Resolved(SiteOf(code, k), Addr(code, |code|))
  {
    hide Addr, Find, Wrap;
    FindPrefix(code, Mark(l), l);
    AddrPrefix(code, [Mark(l)], |code|);
    AddrPrefix(code, [Mark(l)], k);
  }

  lemma PatchOneSite(bytes: seq<Byte>, code: seq<Ins>, l: nat, k: nat)
    requires k < |code| && Goes(code[k], l) && Find(code, l) == |code|
    requires HalfPatched(bytes, code, l, k)
    ensures Size(code[k]) == 5 && Addr(code, k) + 5 <= |bytes|
    ensures HalfPatched(Patched(bytes, Addr(code, k) + 1, Raw32(Resolved(SiteOf(code, k), Addr(code, |code|)))), code,
                        l, k + 1)
  {
    hide Addr, Find, Operand, Resolved;
    var from, all := Addr(code, k), code + [Mark(l)];
    var b := SiteOf(code, k);
    assert EncodesAt(bytes, code, k);
    SiteOperand(code, l, k);
    var op := if code[k].Jump? then BranchOpcode(code[k].kind) else OP_CALL;
    var raw := Raw32(Resolved(b, Addr(code, |code|)));
    PatchHere(bytes, from, op, Raw32(DUMMY), raw);
    var bytes' := Patched(bytes, from + 1, raw);
    AddrPrefix(code, [Mark(l)], k);
    assert all[k] == code[k];
    forall i | 0 <= i < k + 1 ensures EncodesAt(bytes', all, i) {
      if i < k {
        assert EncodesAt(bytes, all, i);
        AddrMonotone(all, i, k);
        assert all[i] == code[i];
        PatchElsewhere(bytes, from + 1, raw, Addr(all, i), Addr(all, i) + Size(all[i]));
      }
    }
    forall i | k + 1 <= i < |code| ensures EncodesAt(bytes', code, i) {
      assert EncodesAt(bytes, code, i);
      AddrMonotone(code, k, i);
      PatchElsewhere(bytes, from + 1, raw, Addr(code, i), Addr(code, i) + Size(code[i]));
    }
  }

  lemma {:induction false} SitesInside(bytes: seq<Byte>, code: seq<Ins>, l: nat, k: nat)
    requires k <= |code| && |bytes| == Addr(code, |code|)
    ensures forall b | b in SitesUpTo(code, l, k) :: b.index + 4 <= |bytes|
    decreases k
  {
    if k > 0 {
      SitesInside(bytes, code, l, k - 1);
      AddrMonotone(code, k - 1, |code|);
    }
  }

  lemma {:induction false} PatchSites(bytes: seq<Byte>, code: seq<Ins>, l: nat, k: nat)
    requires k <= |code| && Find(code, l) == |code| && Encodes(bytes, code)
    ensures forall b | b in SitesUpTo(code, l, k) :: b.index + 4 <= |bytes|
    ensures HalfPatched(PatchAll(bytes, SitesUpTo(code, l, k), Addr(code, |code|)), code, l, k)
    decreases k
  {
    hide Addr, Find, EncodesAt, Resolved, HalfPatched, PatchAll;
    SitesInside(bytes, code, l, k);
    if k == 0 {
      NothingPatched(bytes, code, l);
    } else {
      PatchSites(bytes, code, l, k - 1);
      var before, at := SitesUpTo(code, l, k - 1), Addr(code, |code|);
      var done := PatchAll(bytes, before, at);
      if Goes(code[k - 1], l) {
        PatchOneSite(done, code, l, k - 1);
        PatchAllLast(bytes, before, SiteOf(code, k - 1), at);
      } else {
        assert before + [] == before;
        PassInstruction(done, code, l, k - 1);
      }
    }
  }

  lemma PatchAllLast(bytes: seq<Byte>, sites: seq<Backfill>, last: Backfill, addr: int)
    requires forall b | b in sites :: b.index + 4 <= |bytes|
    requires last.index + 4 <= |bytes|
    ensures PatchAll(bytes, sites + [last], addr) ==
              Patched(PatchAll(bytes, sites, addr), last.index, Raw32(Resolved(last, addr)))
  {
    hide Resolved;
    assert (sites + [last])[..|sites|] == sites;
  }

  lemma NothingPatched(bytes: seq<Byte>, code: seq<Ins>, l: nat)
    requires Encodes(bytes, code)
    ensures HalfPatched(PatchAll(bytes, [], Addr(code, |code|)), code, l, 0)
  {
  }

  lemma PassInstruction(bytes: seq<Byte>, code: seq<Ins>, l: nat, k: nat)
    requires k < |code| && !Goes(code[k], l) && HalfPatched(bytes, code, l, k)
    ensures HalfPatched(bytes, code, l, k + 1)
  {
    hide Addr, Find, Operand;
    assert EncodesAt(bytes, code, k);
    OperandAppend(code, Mark(l), k);
    AddrPrefix(code, [Mark(l)], k);
    assert (code + [Mark(l)])[k] == code[k];
  }

  /** Placing a label and patching its sites turns the byte code of `code` into that of `code + [Mark(l)]`. */
  lemma EncodesMark(bytes: seq<Byte>, code: seq<Ins>, l: nat)
    requires Find(code, l) == |code| && Encodes(bytes, code)
    ensures forall b | b in Sites(code, l) :: b.index + 4 <= |bytes|
    ensures Encodes(PatchAll(bytes, Sites(code, l), Addr(code, |code|)), code + [Mark(l)])
  {
    hide Find, Operand, PatchAll, SitesUpTo, Encode;
    PatchSites(bytes, code, l, |code|);
    var all, done := code + [Mark(l)], PatchAll(bytes, Sites(code, l), Addr(code, |code|));
    AddrPrefix(code, [Mark(l)], |code|);
    MarkEncodes(done, code, l);
  }

  /** A label's encoding is empty. */
  lemma MarkEncodes(bytes: seq<Byte>, code: seq<Ins>, l: nat)
    requires |bytes| == Addr(code, |code|)
    ensures var all := code + [Mark(l)]; |bytes| == Addr(all, |all|) && EncodesAt(bytes, all, |code|)
  {
    hide Find, Operand;
    var all := code + [Mark(l)];
    AddrPrefix(code, [Mark(l)], |code|);
    assert all[|code|] == Mark(l);
  }
}
