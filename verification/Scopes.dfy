/**
 Scopes and the numbering of local slots: nested blocks carry the next free slot in and out, a
 function starts its own numbering, and each function allocates enough slots for its frame.
 */
module Scopes {
  import opened Wrappers

  /** What declares variables: a declaration, a block, a function with its parameters. */
  datatype Item = Declare(name: string) | Block(items: seq<Item>) | Function(params: seq<string>, body: seq<Item>)

  /** A declared variable and the slot it is bound to. */
  datatype Binding = Binding(name: string, slot: nat)

  /** A finished function: its variables in declaration order, and how many slots it allocates. */
  datatype Frame = Frame(vars: seq<Binding>, room: nat)

  class Scope {
    var canSeeParent: bool
    var localIndex: nat
    var symbols: map<string, nat>

    constructor (start: nat, canSeeParent: bool)
      ensures localIndex == start && symbols == map[] && this.canSeeParent == canSeeParent
    {
      localIndex, symbols, this.canSeeParent := start, map[], canSeeParent;
    }

    method MakeSymbol(name: string) returns (slot: nat)
      requires name !in symbols
      modifies this
      ensures slot == old(localIndex) && localIndex == slot + 1 && symbols == old(symbols)[name := slot]
      ensures canSeeParent == old(canSeeParent)
    {
      slot := localIndex;
      localIndex := localIndex + 1;
      symbols := symbols[name := slot];
    }
  }

  /** The scopes from the outermost to the current one. */
  class ScopeLookup {
    var scopes: seq<Scope>
    var frameStack: seq<bool>

    ghost predicate Valid()
      reads this
    {
      && scopes != [] && |frameStack| == |scopes|
      && forall i, j | 0 <= i < j < |scopes| :: scopes[i] != scopes[j]
    }

    constructor ()
      ensures Valid() && fresh(scopes[0]) && |scopes| == 1 && scopes[0].localIndex == 0 && scopes[0].symbols == map[]
    {
      var outermost := new Scope(0, true);
      scopes, frameStack := [outermost], [false];
    }

    function Current(): Scope
      requires scopes != []
      reads this
    {
      scopes[|scopes| - 1]
    }

    function Outer(): Scope
      requires |scopes| > 1
      reads this
    {
      scopes[|scopes| - 2]
    }

    method Push(enteringNewFrame: bool)
      requires Valid()
      modifies this
      ensures Valid() && scopes == old(scopes) + [Current()] && frameStack == old(frameStack) + [enteringNewFrame]
      ensures fresh(Current())
      ensures Current().localIndex == (if enteringNewFrame then 0 else old(Current().localIndex))
      ensures Current().symbols == map[]
    {
      var scope := new Scope(if enteringNewFrame then 0 else Current().localIndex, true);
      assert scope !in scopes;
      frameStack := frameStack + [enteringNewFrame];
      scopes := scopes + [scope];
    }

    /** A block hands its next free slot back to the scope around it. */
    method Pop()
      requires Valid() && |scopes| > 1
      modifies this, Outer()`localIndex
      ensures Valid() && scopes == old(scopes[..|scopes| - 1]) && frameStack == old(frameStack[..|frameStack| - 1])
      ensures Current().localIndex ==
              if old(frameStack[|frameStack| - 1]) then old(scopes[|scopes| - 2].localIndex)
              else old(Current().localIndex)
    {
      var prev := scopes[|scopes| - 2];
      if !frameStack[|frameStack| - 1] {
        prev.localIndex := Current().localIndex;
      }
      frameStack := frameStack[..|frameStack| - 1];
      scopes := scopes[..|scopes| - 1];
    }

    /** The slot of the innermost visible variable of that name. */
    method FindSymbol(name: string) returns (slot: Option<nat>)
      requires Valid()
      ensures match slot
              case Some(s) =>
                exists i ::
                  0 <= i < |scopes| && Declares(i, name, s) && forall j | i < j < |scopes| :: PassesBy(j, name)
              case None =>
                exists i :: 0 <= i < |scopes| && name !in scopes[i].symbols && (i == 0 || !scopes[i].canSeeParent)
                                       && forall j | i < j < |scopes| :: PassesBy(j, name)
    {
      var cur := |scopes| - 1;
      while true
        invariant 0 <= cur < |scopes| && forall j | cur < j < |scopes| :: PassesBy(j, name)
        decreases cur
      {
        if name in scopes[cur].symbols {
          assert Declares(cur, name, scopes[cur].symbols[name]);
          return Some(scopes[cur].symbols[name]);
        }
        if !scopes[cur].canSeeParent || cur == 0 {
          return None;
        }
        cur := cur - 1;
      }
    }

    ghost predicate Declares(i: nat, name: string, slot: nat)
      requires i < |scopes|
      reads this, scopes[i]
    {
      name in scopes[i].symbols && scopes[i].symbols[name] == slot
    }

    /** Scope `i` belongs to the current frame: all later ones were opened as blocks. */
    ghost predicate InFrame(i: nat)
      reads this
    {
      forall j | i < j < |frameStack| :: !frameStack[j]
    }

    /** Looking for `name` goes on from scope `i` to the one around it. */
    ghost predicate PassesBy(i: nat, name: string)
      requires i < |scopes|
      reads this, scopes[i]
    {
      name !in scopes[i].symbols && scopes[i].canSeeParent
    }
  }

  // ----- the specification -----

  /** The variables that the items declare in the frame they stand in, those of inner blocks included. */
  function Variables(items: seq<Item>): seq<string> {
    if items == [] then []
    else
      (match items[0]
       case Declare(name) => [name]
       case Block(inner) => Variables(inner)
       case Function(_, _) => [])
      + Variables(items[1..])
  }

  /** The symbols of a scope after the items, the first of which finds slot `next` free. */
  function Table(items: seq<Item>, symbols: map<string, nat>, next: nat): map<string, nat> {
    if items == [] then symbols
    else Table(items[1..], Declaring(items[0], symbols, next), next + |Variables([items[0]])|)
  }

  function Declaring(item: Item, symbols: map<string, nat>, next: nat): map<string, nat> {
    if item.Declare? then symbols[item.name := next] else symbols
  }

  /** More variables, each with the next slot. */
  function Bound(vars: seq<Binding>, names: seq<string>): seq<Binding> {
    vars + seq(|names|, i requires 0 <= i < |names| => Binding(names[i], |vars| + i))
  }

  /**
   The frames of the functions in the items, in the order they are finished. `count` is the
   number of locals declared so far: a function inside a function adds its own to it.
   */
  function Frames(items: seq<Item>, isLocal: bool, count: nat): seq<Frame> {
    if items == [] then []
    else
      (match items[0]
       case Declare(_) => []
       case Block(inner) => Frames(inner, isLocal, count)
       case Function(params, body) => Frames(body, true, count + |params|) + [FrameOf(params, body, count)])
      + Frames(items[1..], isLocal, if isLocal then count + |Variables([items[0]])| else count)
  }

  function FrameOf(params: seq<string>, body: seq<Item>, count: nat): Frame {
    Frame(Bound([], params + Variables(body)), count + |params| + |Variables(body)|)
  }

  /** No scope declares a name twice; `names` are those the current scope has already. */
  predicate Clean(items: seq<Item>, names: set<string>) {
    items == [] ||
    (match items[0]
     case Declare(name) => name !in names && Clean(items[1..], names + {name})
     case Block(inner) => Clean(inner, {}) && Clean(items[1..], names)
     case Function(params, body) => CleanParams(params, {}) && Clean(body, Names(params)) && Clean(items[1..], names))
  }

  predicate CleanParams(params: seq<string>, names: set<string>) {
    params == [] || (params[0] !in names && CleanParams(params[1..], names + {params[0]}))
  }

  function Names(params: seq<string>): set<string> { set p | p in params }

  /** Every variable of a frame has a slot of its own, below what the function allocates. */
  ghost predicate Separate(f: Frame) {
    && (forall i, j | 0 <= i < j < |f.vars| :: f.vars[i].slot != f.vars[j].slot)
    && (forall i | 0 <= i < |f.vars| :: f.vars[i].slot < f.room)
  }

  /** However blocks and functions are nested, all variables of a frame have different slots, all of them allocated. */
  lemma {:induction false} FramesSeparate(items: seq<Item>, isLocal: bool, count: nat)
    ensures forall f | f in Frames(items, isLocal, count) :: Separate(f)
    decreases items
  {
    if items != [] {
      match items[0] {
        case Declare(_) =>
        case Block(inner) => FramesSeparate(inner, isLocal, count);
        case Function(params, body) => FramesSeparate(body, true, count + |params|);
      }
      FramesSeparate(items[1..], isLocal, if isLocal then count + |Variables([items[0]])| else count);
    }
  }

  lemma BoundAgain(vars: seq<Binding>, a: seq<string>, b: seq<string>)
    ensures Bound(Bound(vars, a), b) == Bound(vars, a + b)
  {
    assert |Bound(vars, a)| == |vars| + |a|;
    forall i | 0 <= i < |vars| + |a| + |b|
      ensures Bound(Bound(vars, a), b)[i] == Bound(vars, a + b)[i]
    {
    }
  }

  lemma BoundNothing(vars: seq<Binding>)
    ensures Bound(vars, []) == vars
  {
  }

  // ----- the visitor -----

  class Declarer {
    const locality: ScopeLookup
    var isLocal: bool
    var curLocalsCount: nat
    /** The frames of the functions finished so far. */
    var frames: seq<Frame>
    /** The variables of the current frame, those of closed blocks included. */
    var vars: seq<Binding>

    constructor ()
      ensures Valid() && |locality.scopes| == 1 && fresh(locality) && fresh(locality.scopes[0])
      ensures locality.Current().symbols == map[] && !isLocal && curLocalsCount == 0 && frames == [] && vars == []
    {
      locality := new ScopeLookup();
      isLocal, curLocalsCount, frames, vars := false, 0, [], [];
    }

    /**
     The variables of the current frame are numbered from zero without a gap. Every symbol of a
     scope of the frame is bound to the slot of a variable of that name, and scopes further in
     are bound to higher slots.
     */
    ghost predicate Valid()
      reads this, locality, locality.scopes
    {
      && locality.Valid() && |vars| == locality.Current().localIndex
      && (forall k | 0 <= k < |vars| :: vars[k].slot == k)
      && (forall i | 0 <= i < |locality.scopes| && locality.InFrame(i) :: Bounded(i))
      && (forall i, j | 0 <= i < j < |locality.scopes| && locality.InFrame(i) :: Layered(i, j))
    }

    ghost predicate Bounded(i: nat)
      requires i < |locality.scopes|
      reads this`vars, locality, locality.scopes[i]
    {
      var scope := locality.scopes[i];
      scope.localIndex <= |vars| &&
      forall name | name in scope.symbols ::
        scope.symbols[name] < scope.localIndex && vars[scope.symbols[name]].name == name
    }

    ghost predicate Layered(i: nat, j: nat)
      requires i < |locality.scopes| && j < |locality.scopes|
      reads locality, locality.scopes[i], locality.scopes[j]
    {
      forall name | name in locality.scopes[j].symbols ::
        locality.scopes[i].localIndex <= locality.scopes[j].symbols[name]
    }

    /** A symbol of the current frame stands for the variable that the frame has at its slot. */
    lemma SlotIsVariable(i: nat, name: string, slot: nat)
      requires Valid() && i < |locality.scopes| && locality.InFrame(i) && locality.Declares(i, name, slot)
      ensures slot < |vars| && vars[slot] == Binding(name, slot)
    {
      assert Bounded(i);
    }

    /** At any moment, two different symbols of the scopes of a frame are bound to different slots. */
    lemma OwnSlots(i: nat, name: string, j: nat, name': string, slot: nat, slot': nat)
      requires Valid() && i <= j < |locality.scopes| && locality.InFrame(i) && (i == j ==> name != name')
      requires locality.Declares(i, name, slot) && locality.Declares(j, name', slot')
      ensures slot != slot'
    {
      assert locality.InFrame(j) && Bounded(i) && Bounded(j);
      if i < j { assert Layered(i, j); }
    }

    /** Binds the name to the next slot of the frame; a name that the scope has already is refused. */
    method VisitDeclaration(name: string) returns (ok: bool)
      requires Valid()
      modifies this`curLocalsCount, this`vars, locality.Current()
      ensures ok <==> name !in old(locality.Current().symbols)
      ensures ok ==> Valid() && vars == Bound(old(vars), [name])
      ensures ok ==> locality.Current().symbols == old(locality.Current().symbols)[name := |old(vars)|]
      ensures ok ==> curLocalsCount == old(curLocalsCount) + if isLocal then 1 else 0
    {
      if name in locality.Current().symbols {
        return false;
      }
      var slot := locality.Current().MakeSymbol(name);
      vars := vars + [Binding(name, slot)];
      if isLocal { curLocalsCount := curLocalsCount + 1; }
      ok := true;
      ghost var last := |locality.scopes| - 1;
      forall i | 0 <= i <= last && locality.InFrame(i) ensures Bounded(i) && (i < last ==> Layered(i, last)) {
        assert old(Bounded(i)) && (i < last ==> old(Layered(i, last)));
      }
      forall i, j | 0 <= i < j < last && locality.InFrame(i) ensures Layered(i, j) { assert old(Layered(i, j)); }
    }

    /** Opens a scope for a block, or for a function with a numbering of its own. */
    method Open(asFrame: bool)
      requires Valid()
      modifies this`vars, locality
      ensures Valid() && locality.scopes == old(locality.scopes) + [locality.Current()] && fresh(locality.Current())
      ensures locality.frameStack == old(locality.frameStack) + [asFrame] && locality.Current().symbols == map[]
      ensures vars == if asFrame then [] else old(vars)
    {
      locality.Push(asFrame);
      if asFrame { vars := []; }
      ghost var last := |locality.scopes| - 1;
      assert forall j | 0 <= j < last :: old(locality.frameStack)[j] == locality.frameStack[j];
      forall i | 0 <= i < last && locality.InFrame(i) ensures Bounded(i) && Layered(i, last) {
        assert locality.frameStack[last] == asFrame;
        assert old(locality.InFrame(i)) && old(Bounded(i));
      }
      forall i, j | 0 <= i < j < last && locality.InFrame(i) ensures Layered(i, j) {
        assert locality.frameStack[last] == asFrame;
        assert old(locality.InFrame(i)) && old(Layered(i, j));
      }
    }

    /** Closes a block's scope; its variables keep their slots. */
    method CloseBlock()
      requires Valid() && |locality.scopes| > 1 && !locality.frameStack[|locality.frameStack| - 1]
      modifies locality, locality.Outer()`localIndex
      ensures Valid() && locality.scopes == old(locality.scopes[..|locality.scopes| - 1])
      ensures locality.frameStack == old(locality.frameStack[..|locality.frameStack| - 1])
    {
      locality.Pop();
      ghost var last := |locality.scopes| - 1;
      forall i | 0 <= i <= last && locality.InFrame(i) ensures Bounded(i) {
        assert old(locality.InFrame(i)) && old(Bounded(i));
      }
      forall i, j | 0 <= i < j <= last && locality.InFrame(i) ensures Layered(i, j) {
        assert old(locality.InFrame(i)) && old(Layered(i, j));
      }
    }

    /** What visiting leaves alone: the stack of scopes, and every scope but the current one. */
    twostate predicate SameScopes()
      reads *
    {
      && locality.scopes == old(locality.scopes) && locality.frameStack == old(locality.frameStack)
      && isLocal == old(isLocal)
      && locality.scopes != [] && SameBelow(|locality.scopes| - 1)
    }

    /** The first `n` scopes are as they were. */
    twostate predicate SameBelow(n: nat)
      reads *
      requires n <= |old(locality.scopes)|
    {
      forall i | 0 <= i < n ::
        var scope := old(locality.scopes[i]);
        scope.localIndex == old(scope.localIndex) && scope.symbols == old(scope.symbols)
    }

    method Visit(item: Item) returns (ok: bool)
      requires Valid()
      modifies this, locality, locality.scopes
      ensures ok <==> Clean([item], old(locality.Current().symbols.Keys))
      ensures ok ==> Valid() && SameScopes()
      ensures ok ==>
                vars == Bound(old(vars), Variables([item]))
                && frames == old(frames) + Frames([item], isLocal, old(curLocalsCount))
      ensures ok ==> curLocalsCount == old(curLocalsCount) + if isLocal then |Variables([item])| else 0
      ensures ok ==> locality.Current().symbols == Declaring(item, old(locality.Current().symbols), |old(vars)|)
      decreases item, 1, 0
    {
      match item
      case Declare(name) => ok := VisitDeclaration(name);
      case Block(items) => ok := VisitBlock(items);
      case Function(params, body) => ok := VisitFunction(params, body);
    }

    method VisitBlock(items: seq<Item>) returns (ok: bool)
      requires Valid()
      modifies this, locality, locality.scopes
      ensures ok <==> Clean(items, {})
      ensures ok ==> Valid() && SameScopes()
      ensures ok ==>
                vars == Bound(old(vars), Variables(items))
                && frames == old(frames) + Frames(items, isLocal, old(curLocalsCount))
      ensures ok ==> curLocalsCount == old(curLocalsCount) + if isLocal then |Variables(items)| else 0
      ensures ok ==> locality.Current().symbols == old(locality.Current().symbols)
      decreases items, 2, 0
    {
      Open(false);
      assert locality.Current().symbols.Keys == {};
      ok := VisitItems(items);
      if ok { CloseBlock(); }
    }

    method VisitFunction(params: seq<string>, body: seq<Item>) returns (ok: bool)
      requires Valid()
      modifies this, locality, locality.scopes
      ensures ok <==> CleanParams(params, {}) && Clean(body, Names(params))
      ensures ok ==> Valid() && SameScopes() && vars == old(vars) && curLocalsCount == old(curLocalsCount)
      ensures ok ==>
                frames ==
                  old(frames) + (Frames(body, true, old(curLocalsCount) + |params|)
                                 + [FrameOf(params, body, old(curLocalsCount))])
      ensures ok ==> locality.Current().symbols == old(locality.Current().symbols)
      decreases body, 4, 0
    {
      hide Frames, Variables, Clean, CleanParams, Names, Bound;
      var oldScope, oldLocalsCount, oldVars := isLocal, curLocalsCount, vars;
      ok := VisitInside(params, body);
      if !ok { return; }
      isLocal, curLocalsCount, vars := oldScope, oldLocalsCount, oldVars;
      forall i | 0 <= i < |locality.scopes| && locality.InFrame(i) ensures Bounded(i) { assert old(Bounded(i)); }
      forall i, j | 0 <= i < j < |locality.scopes|
      && locality.InFrame(i) ensures Layered(i, j) { assert old(Layered(i, j)); }
    }

    /** A function in a scope of its own, which is closed again: no scope around it has changed. */
    method VisitInside(params: seq<string>, body: seq<Item>) returns (ok: bool)
      requires Valid()
      modifies this, locality, locality.scopes
      ensures ok <==> CleanParams(params, {}) && Clean(body, Names(params))
      ensures ok ==> locality.Valid() && SameBelow(|old(locality.scopes)|) && locality.scopes == old(locality.scopes)
      ensures ok ==> locality.frameStack == old(locality.frameStack)
      ensures ok ==>
                frames ==
                  old(frames) + (Frames(body, true, old(curLocalsCount) + |params|)
                                 + [FrameOf(params, body, old(curLocalsCount))])
      decreases body, 3, 0
    {
      hide Frames, Variables, Clean, CleanParams, Names, Bound, Bounded, Layered, FrameOf;
      Open(true);
      isLocal := true;
      ok := VisitFrame(params, body);
      if ok { locality.Pop(); }
    }

    /** A function's parameters and body, in the scope that was opened for it. */
    method VisitFrame(params: seq<string>, body: seq<Item>) returns (ok: bool)
      requires Valid() && isLocal && vars == [] && locality.Current().symbols == map[]
      modifies this, locality, locality.scopes
      ensures ok <==> CleanParams(params, {}) && Clean(body, Names(params))
      ensures ok ==> Valid() && SameScopes()
      ensures ok ==>
                frames ==
                  old(frames) + (Frames(body, true, old(curLocalsCount) + |params|)
                                 + [FrameOf(params, body, old(curLocalsCount))])
      decreases body, 2, 0
    {
      hide Frames, Variables, Clean, CleanParams, Names, Bound;
      assert locality.Current().symbols.Keys == {};
      ok := VisitParams(params);
      if !ok { return; }
      assert {} + Names(params) == Names(params);
      ok := VisitItems(body);
      if !ok { return; }
      BoundAgain([], params, Variables(body));
      frames := frames + [Frame(vars, curLocalsCount)];
    }

    method VisitParams(params: seq<string>) returns (ok: bool)
      requires Valid() && isLocal
      modifies this`curLocalsCount, this`vars, locality.Current()
      ensures ok <==> CleanParams(params, old(locality.Current().symbols.Keys))
      ensures ok ==> Valid() && vars == Bound(old(vars), params) && curLocalsCount == old(curLocalsCount) + |params|
      ensures ok ==> locality.Current().symbols.Keys == old(locality.Current().symbols.Keys) + Names(params)
    {
      ghost var names := locality.Current().symbols.Keys;
      var i := 0;
      assert params[i..] == params;
      BoundNothing(vars);
      while i < |params|
        invariant i <= |params| && Valid() && vars == Bound(old(vars), params[..i])
        invariant curLocalsCount == old(curLocalsCount) + i
        invariant locality.Current().symbols.Keys == names + Names(params[..i])
        invariant CleanParams(params, names) == CleanParams(params[i..], locality.Current().symbols.Keys)
      {
        assert params[i..][1..] == params[i + 1..];
        ghost var before := locality.Current().symbols.Keys;
        ok := VisitDeclaration(params[i]);
        if !ok { return; }
        assert locality.Current().symbols.Keys == before + {params[i]};
        assert params[..i + 1] == params[..i] + [params[i]];
        BoundAgain(old(vars), params[..i], [params[i]]);
        i := i + 1;
      }
      assert params[..i] == params;
      ok := true;
    }

    /** A body, item by item. */
    method VisitItems(items: seq<Item>) returns (ok: bool)
      requires Valid()
      modifies this, locality, locality.scopes
      ensures ok <==> Clean(items, old(locality.Current().symbols.Keys))
      ensures ok ==> Valid() && SameScopes()
      ensures ok ==>
                vars == Bound(old(vars), Variables(items))
                && frames == old(frames) + Frames(items, isLocal, old(curLocalsCount))
      ensures ok ==> curLocalsCount == old(curLocalsCount) + if isLocal then |Variables(items)| else 0
      ensures ok ==> locality.Current().symbols == Table(items, old(locality.Current().symbols), |old(vars)|)
      decreases items, 1, 0
    {
      hide Frames, Variables, Clean, Bound, Table, Declaring;
      ghost var names := locality.Current().symbols.Keys;
      var i := 0;
      assert items[i..] == items;
      while i < |items|
        invariant i <= |items| && Valid() && SameScopes()
        invariant Clean(items, names) == Clean(items[i..], locality.Current().symbols.Keys)
        invariant Bound(vars, Variables(items[i..])) == Bound(old(vars), Variables(items))
        invariant frames + Frames(items[i..], isLocal, curLocalsCount) ==
                    old(frames) + Frames(items, isLocal, old(curLocalsCount))
        invariant isLocal ==> curLocalsCount + |Variables(items[i..])| == old(curLocalsCount) + |Variables(items)|
        invariant !isLocal ==> curLocalsCount == old(curLocalsCount)
        invariant Table(items[i..], locality.Current().symbols, |vars|) ==
                    Table(items, old(locality.Current().symbols), |old(vars)|)
      {
        FirstItem(items[i..], locality.Current().symbols.Keys, isLocal, curLocalsCount);
        assert items[i..][1..] == items[i + 1..] && items[i..][0] == items[i];
        BoundAgain(vars, Variables([items[i]]), Variables(items[i + 1..]));
        BoundLength(vars, Variables([items[i]]));
        FirstTable(items[i..], locality.Current().symbols, |vars|);
        ok := Visit(items[i]);
        if !ok { return; }
        i := i + 1;
      }
      assert items[i..] == [];
      BoundNothing(vars);
      NoItems(locality.Current().symbols.Keys, isLocal, curLocalsCount);
      NoTable(locality.Current().symbols, |vars|);
      ok := true;
    }
  }

  lemma NoItems(names: set<string>, isLocal: bool, count: nat)
    ensures Clean([], names) && Variables([]) == [] && Frames([], isLocal, count) == []
  {
  }

  /** The first item's part of what all of them do. */
  lemma FirstItem(items: seq<Item>, names: set<string>, isLocal: bool, count: nat)
    requires items != []
    ensures Variables(items) == Variables([items[0]]) + Variables(items[1..])
    ensures Frames(items, isLocal, count)
         == Frames([items[0]], isLocal, count) + Frames(items[1..], isLocal,
                                                        if isLocal then count + |Variables([items[0]])| else count)
    ensures Clean(items, names) <==>
      Clean([items[0]], names) && Clean(items[1..], names + (if items[0].Declare? then {items[0].name} else {}))
  {
    assert [items[0]][1..] == [];
    assert names + {} == names;
  }

  lemma NoTable(symbols: map<string, nat>, next: nat)
    ensures Table([], symbols, next) == symbols
  {
  }

  lemma FirstTable(items: seq<Item>, symbols: map<string, nat>, next: nat)
    requires items != []
    ensures Table(items, symbols, next) ==
              Table(items[1..], Declaring(items[0], symbols, next), next + |Variables([items[0]])|)
    ensures Declaring(items[0], symbols, next).Keys ==
              symbols.Keys + (if items[0].Declare? then {items[0].name} else {})
  {
  }

  lemma BoundLength(vars: seq<Binding>, names: seq<string>)
    ensures |Bound(vars, names)| == |vars| + |names|
  {
  }
}
