/**
 The mark-and-sweep collector: allocation with automatic collection, marking from the VM's
 roots, the sweep that swap-removes from the list it walks over, explicit deallocation.
 */
module GarbageCollector {
  import opened HeapGraph
  import opened GcNodes

  /** The VM's slots and how many of each kind are scanned; `frames` says where the locals of each call start. */
  class VmSlots {
    var globals: seq<Value>
    var globalsTop: nat
    var locals: seq<Value>
    var localsTop: nat
    var frames: seq<nat>
    var dataStack: seq<Value>
    var dataTop: nat

    predicate Valid()
      reads this
    {
      && globalsTop <= |globals| && localsTop <= |locals| && dataTop <= |dataStack|
      && forall i, j | 0 <= i <= j < |frames| :: frames[i] <= frames[j] <= localsTop
    }

    /** The values that marking starts from. */
    ghost function Scanned(): seq<Value>
      requires Valid()
      reads this
    {
      globals[..globalsTop] + locals[..localsTop] + dataStack[..dataTop]
    }
  }

  ghost function Members(list: seq<GcNode>): set<GcNode> { set x | x in list }

  ghost function Targets(values: seq<Value>): set<GcNode> { set v | v in values && v.Ref? :: v.node }

  /** Objects refer to live objects only; unlisted ones, buffers and plain arrays to none. */
  ghost predicate Closed(list: seq<GcNode>, unlisted: set<GcNode>)
    reads list`tag, list`elemsManaged, list`fields, unlisted`tag, unlisted`elemsManaged, unlisted`fields
  {
    && (forall x | x in list :: RefersTo(x, Members(list) + unlisted))
    && (forall x | x in unlisted :: RefersTo(x, {}))
  }

  /** What `x` refers to lies in `live`, and marking `x` would look at all of it. */
  ghost predicate RefersTo(x: GcNode, live: set<GcNode>)
    reads x`tag, x`elemsManaged, x`fields
  {
    Targets(x.fields) <= live && x.Kids() == Targets(x.fields)
  }

  lemma RefersToIs(x: GcNode, live: set<GcNode>)
    requires RefersTo(x, live)
    ensures Targets(x.fields) <= live && (x.Scanned() == x.fields || Targets(x.fields) == {})
  {
  }

  lemma StoredRefersTo(x: GcNode, before: seq<Value>, index: nat, value: Value, live: set<GcNode>)
    requires index < |before| && Targets(before) <= live && (value.Ref? ==> value.node in live)
    requires x.fields == before[index := value]
    requires x.Scanned() == x.fields || (Targets(before) == {} && !value.Ref?)
    ensures RefersTo(x, live)
  {
    forall y | y in Targets(x.fields) ensures y in Targets(before) || value == Ref(y) {
      var k :| 0 <= k < |before| && x.fields[k] == Ref(y);
      assert k != index ==> before[k] == Ref(y) && before[k] in before;
    }
    if Targets(x.fields) == {} {
      assert forall v | v in x.Scanned() :: v in x.fields;
    }
  }

  ghost predicate InUse(list: seq<GcNode>, unlisted: set<GcNode>)
    reads list`free, unlisted`free, unlisted`managed, unlisted`lookupIndex
  {
    && (forall x | x in list :: !x.free)
    && (forall x | x in unlisted :: !x.free && !x.managed && x.lookupIndex == MAGIC_INDEX)
  }

  ghost predicate NotInUse(list: seq<GcNode>)
    reads list`free
  {
    forall x | x in list :: x.free
  }

  /** No colour is left over from a collection; unlisted objects are not whitened by one. */
  ghost predicate Unmarked(list: seq<GcNode>, unlisted: set<GcNode>)
    reads list`color, unlisted`color
  {
    (forall x | x in list :: x.color == White) && (forall x | x in unlisted :: x.color != Grey)
  }

  /** A new object that refers to nothing can be added. */
  lemma Grows(list: seq<GcNode>, leaves: set<GcNode>, x: GcNode)
    requires Closed(list, leaves) && InUse(list, leaves) && Unmarked(list, leaves)
    requires Targets(x.fields) == {} && !x.free && x.color == White
    ensures Closed(list + [x], leaves) && Closed(list, leaves + {x})
    ensures Members(list + [x]) == Members(list) + {x}
    ensures InUse(list + [x], leaves) && (!x.managed && x.lookupIndex == MAGIC_INDEX ==> InUse(list, leaves + {x}))
    ensures Unmarked(list + [x], leaves) && Unmarked(list, leaves + {x})
  {
    assert x.Kids() == {} by { assert forall v | v in x.Scanned() :: v in x.fields; }
    assert Members(list + [x]) == Members(list) + {x};
  }

  /** An object that nothing else refers to can be taken out. */
  lemma Shrinks(list: GcList, leaves: set<GcNode>, x: GcNode)
    requires list.Valid() && Closed(list.contents, leaves) && InUse(list.contents, leaves)
    requires Unmarked(list.contents, leaves)
    requires x in list.contents || x in leaves
    requires forall y | y in Members(list.contents) + leaves && y != x :: x !in Targets(y.fields)
    ensures !x.free && (x.managed <==> x in list.contents)
    ensures (x.managed ==> x !in leaves && 0 <= x.lookupIndex < |list.contents|)
    ensures var rest := if x.managed then SwapRemoved(list.contents, x.lookupIndex) else list.contents;
            && Members(rest) + (leaves - {x}) == Members(list.contents) + leaves - {x}
            && Closed(rest, leaves - {x}) && InUse(rest, leaves - {x}) && Unmarked(rest, leaves - {x}) && x !in rest
  {
    if x.managed {
      var before, index := list.contents, x.lookupIndex;
      var rest := SwapRemoved(before, index);
      forall y | y in before && y != x ensures y in rest {
        if y.lookupIndex < |before| - 1 { assert rest[y.lookupIndex] == y; } else { assert rest[index] == y; }
      }
      forall y | y in rest ensures y in before && y != x {
        var k :| 0 <= k < |rest| && rest[k] == y;
        assert y == if k == index then before[|before| - 1] else before[k];
      }
    }
  }

  lemma FreedNotInUse(list: seq<GcNode>, x: GcNode)
    requires NotInUse(list) && x.free
    ensures NotInUse(list + [x])
  {
  }

  class MalangGC {
    const vm: VmSlots
    const allocList: GcList
    const freeList: GcList
    const runInterval: nat
    const maxObjects: nat
    var isPaused: bool
    var totalAllocated: nat
    var totalFreed: nat
    var nextRun: nat
    /** The unmanaged objects that have not been deallocated. */
    ghost var unmanaged: set<GcNode>

    constructor (vm: VmSlots, runInterval: nat, maxObjects: nat)
      requires vm.Valid() && Targets(vm.Scanned()) == {} && runInterval <= maxObjects
      ensures this.vm == vm && this.runInterval == runInterval && this.maxObjects == maxObjects && Valid()
      ensures allocList.contents == [] && freeList.contents == [] && unmanaged == {}
      ensures !isPaused && nextRun == runInterval && totalAllocated == 0 && totalFreed == 0
      ensures fresh(allocList) && fresh(freeList)
    {
      this.vm, this.runInterval, this.maxObjects := vm, runInterval, maxObjects;
      allocList := new GcList();
      freeList := new GcList();
      isPaused, totalAllocated, totalFreed, nextRun, unmanaged := false, 0, 0, runInterval, {};
    }

    // ----- what holds between operations -----

    /** Objects that have not been freed. */
    ghost function Live(): set<GcNode>
      reads this`unmanaged, allocList
    {
      Members(allocList.contents) + unmanaged
    }

    /** The two lists are in order and hold live and freed nodes. */
    ghost predicate ListsOk()
      reads this`unmanaged, allocList, freeList
      reads allocList.contents`magic, allocList.contents`managed, allocList.contents`lookupIndex,
            allocList.contents`free
      reads freeList.contents`magic, freeList.contents`managed, freeList.contents`lookupIndex, freeList.contents`free
      reads unmanaged`managed, unmanaged`lookupIndex, unmanaged`free
    {
      && allocList != freeList && allocList.Valid() && freeList.Valid()
      && InUse(allocList.contents, unmanaged) && NotInUse(freeList.contents)
    }

    ghost predicate HeapOk()
      reads this`unmanaged, allocList, allocList.contents`tag, allocList.contents`elemsManaged,
            allocList.contents`fields, unmanaged`tag, unmanaged`elemsManaged, unmanaged`fields
    {
      Closed(allocList.contents, unmanaged)
    }

    ghost predicate RootsOk()
      reads this`unmanaged, vm, allocList
    {
      vm.Valid() && Targets(vm.Scanned()) <= Live()
    }

    /** No colour is left over from a collection. */
    ghost predicate AllWhite()
      reads this`unmanaged, allocList, allocList.contents`color, unmanaged`color
    {
      Unmarked(allocList.contents, unmanaged)
    }

    /** `pending` nodes have been counted as allocated but are in no list yet. */
    ghost predicate CountsOk(pending: nat)
      reads this, allocList
    {
      && totalAllocated == totalFreed + |allocList.contents| + |unmanaged| + pending
      && nextRun <= maxObjects && |allocList.contents| <= maxObjects && runInterval <= maxObjects
    }

    ghost predicate Valid()
      reads this, vm, allocList, freeList, allocList.contents, freeList.contents, unmanaged
    {
      Ready() && CountsOk(0)
    }

    /** Every live object with the objects it refers to. */
    ghost function Graph(): map<GcNode, set<GcNode>>
      reads this`unmanaged, allocList
      reads allocList.contents`tag, allocList.contents`elemsManaged, allocList.contents`fields, unmanaged`tag,
            unmanaged`elemsManaged, unmanaged`fields
    {
      map x | x in Live() :: x.Kids()
    }

    /** The managed objects that the scanned slots hold. */
    ghost function Roots(): set<GcNode>
      requires vm.Valid()
      reads vm, Targets(vm.Scanned())`managed
    {
      set x | x in Targets(vm.Scanned()) && x.managed
    }

    // ----- marking -----

    /** Marks from the first `n` slots of an array. */
    method MarkSlots(values: seq<Value>, n: nat, ghost g: map<GcNode, set<GcNode>>, ghost roots: set<GcNode>)
      requires n <= |values| && Targets(values[..n]) <= g.Keys && HeapIs(g)
      requires forall x | x in Targets(values[..n]) && x.managed :: x in roots
      requires forall x | x in g :: !x.free && x.color != Grey && MarkedOk(g, roots, x)
      modifies g.Keys`color
      ensures forall x | x in g :: x.color != Grey && MarkedOk(g, roots, x)
      ensures HeapIs(g)
      ensures forall x | x in g && old(x.color) != White :: x.color == old(x.color)
      ensures forall x | x in Targets(values[..n]) && x.managed :: x.color != White
    {
      hide Reaches;
      var i := 0;
      while i < n
        invariant i <= n && HeapIs(g)
        invariant forall x | x in g :: x.color != Grey && MarkedOk(g, roots, x)
        invariant forall x | x in g && old(x.color) != White :: x.color == old(x.color)
        invariant forall j | 0 <= j < i && values[j].Ref? && values[j].node.managed :: values[j].node.color != White
      {
        if values[i].Ref? {
          var node := values[i].node;
          assert values[..n][i] == values[i] && node in Targets(values[..n]);
          if node.managed { node.GcMark(g); }
        }
        i := i + 1;
      }
      forall x | x in Targets(values[..n]) && x.managed ensures x.color != White {
        var j :| 0 <= j < n && values[..n][j] == Ref(x);
      }
    }

    /** From all white, marking blackens exactly the managed objects reachable from the roots. */
    method Mark(ghost g: map<GcNode, set<GcNode>>)
      requires ListsOk() && HeapOk() && RootsOk() && AllWhite() && g == Graph()
      modifies unmanaged`color, allocList.contents`color
      ensures forall x | x in allocList.contents :: x.color == if Reachable(g, Roots(), x) then Black else White
      ensures forall x | x in unmanaged :: x.color != Grey
      ensures Coloured() == Kept() == old(Kept())
    {
      hide Reachable, ListsOk, HeapOk, AllWhite, HeapIs, MarkedOk;
      MarkReady(g);
      ghost var roots := Roots();
      MarkRoots(g, roots);
      MarkedIsReachable(g, roots);
      ColouredIsKept(g);
    }

    method MarkRoots(ghost g: map<GcNode, set<GcNode>>, ghost roots: set<GcNode>)
      requires vm.Valid() && Targets(vm.Scanned()) <= g.Keys && HeapIs(g)
      requires forall x | x in Targets(vm.Scanned()) && x.managed :: x in roots
      requires forall x | x in g :: !x.free && x.color != Grey && MarkedOk(g, roots, x)
      modifies g.Keys`color
      ensures forall x | x in g :: x.color != Grey && MarkedOk(g, roots, x)
      ensures HeapIs(g)
      ensures forall x | x in Targets(vm.Scanned()) && x.managed :: x.color != White
    {
      hide Reachable, MarkedOk, HeapIs, Targets, VmSlots.Scanned;
      RootsScanned();
      MarkSlots(vm.globals, vm.globalsTop, g, roots);
      MarkSlots(vm.locals, vm.localsTop, g, roots);
      MarkSlots(vm.dataStack, vm.dataTop, g, roots);
    }

    /** The three arrays hold all the roots. */
    lemma RootsScanned()
      requires vm.Valid()
      ensures Targets(vm.Scanned())
           == Targets(vm.globals[..vm.globalsTop]) + Targets(vm.locals[..vm.localsTop])
              + Targets(vm.dataStack[..vm.dataTop])
    {
    }

    lemma MarkReady(g: map<GcNode, set<GcNode>>)
      requires ListsOk() && HeapOk() && RootsOk() && AllWhite() && g == Graph()
      ensures g.Keys == Live() && HeapIs(g) && Targets(vm.Scanned()) <= g.Keys
      ensures Targets(vm.globals[..vm.globalsTop]) <= Targets(vm.Scanned())
      ensures Targets(vm.locals[..vm.localsTop]) <= Targets(vm.Scanned())
      ensures Targets(vm.dataStack[..vm.dataTop]) <= Targets(vm.Scanned())
      ensures forall x | x in g :: !x.free && x.color != Grey && MarkedOk(g, Roots(), x) && (!x.managed ==> g[x] == {})
      ensures forall x | x in allocList.contents :: x in g && x.managed
      ensures forall x | x in unmanaged :: x in g && x.color != Grey
    {
      RootsScanned();
    }

    // ----- sweeping -----

    /** Frees an object's storage; a managed one moves to the free list. */
    method FreeObject(obj: GcNode)
      requires !obj.free && allocList != freeList
      requires obj.managed ==> allocList.Valid() && freeList.Valid() && obj in allocList.contents
      modifies this`totalFreed, obj`free, obj`fields, obj`magic, obj`lookupIndex
      modifies if obj.managed then {allocList, freeList} else {}
      modifies (if obj.managed then {allocList.Back()} else {})`lookupIndex
      ensures obj.free && obj.fields == [] && totalFreed == old(totalFreed) + 1
      ensures !obj.managed ==> obj.magic == old(obj.magic) && obj.lookupIndex == old(obj.lookupIndex)
      ensures obj.managed ==>
        && obj.magic == freeList && allocList.Valid() && freeList.Valid()
        && |allocList.contents| == |old(allocList.contents)| - 1
        && freeList.contents == old(freeList.contents) + [obj]
        && allocList.contents == SwapRemoved(old(allocList.contents), old(obj.lookupIndex))
        && (forall x | x in allocList.contents :: x in old(allocList.contents))
        && (forall x | x in old(allocList.contents) && x != obj ::
              allocList.Has(x) && (x.lookupIndex == old(x.lookupIndex) || x.lookupIndex == old(obj.lookupIndex)))
        && |allocList.slots| == |old(allocList.slots)|
        && (forall j | 0 <= j < |allocList.slots| && j != old(obj.lookupIndex) ::
              allocList.slots[j] == old(allocList.slots[j]))
    {
      obj.fields := [];
      obj.free := true;
      totalFreed := totalFreed + 1;
      if obj.managed {
        allocList.Remove(obj);
        freeList.Append(obj);
      }
    }

    /** A node of the original list that the sweep has still to visit: its slot holds it still. */
    ghost predicate ToVisit(list: seq<GcNode>, kept: set<GcNode>, was: map<GcNode, seq<Value>>, k: nat)
      requires k < |list| && list[k] in was
      reads allocList, list[k]
    {
      && allocList.Has(list[k]) && list[k].lookupIndex <= k < |allocList.slots| && allocList.slots[k] == list[k]
      && !list[k].free && (list[k].color != White <==> list[k] in kept) && list[k].fields == was[list[k]]
    }

    /** A node that the sweep has visited: kept, white and untouched, or freed. */
    ghost predicate Visited(list: seq<GcNode>, kept: set<GcNode>, was: map<GcNode, seq<Value>>, k: nat)
      requires k < |list| && list[k] in was
      reads allocList, list[k]
    {
      if list[k] in kept then
        allocList.Has(list[k]) && !list[k].free && list[k].color == White && list[k].fields == was[list[k]]
      else list[k].free && list[k].magic != allocList
    }

    ghost predicate Sweeping(list: seq<GcNode>, kept: set<GcNode>, was: map<GcNode, seq<Value>>, i: nat)
      reads allocList, freeList, allocList.contents, freeList.contents, list
    {
      && allocList != freeList && allocList.Valid() && freeList.Valid()
      && (forall j, k | 0 <= j < k < |list| :: list[j] != list[k])
      && (forall k | 0 <= k < |list| :: list[k] in was && list[k].managed)
      && (forall k | i <= k < |list| :: ToVisit(list, kept, was, k))
      && (forall k | 0 <= k < i && k < |list| :: Visited(list, kept, was, k))
    }

    /** Visiting a node that was not marked. */
    method SweepWhite(cur: GcNode, ghost list: seq<GcNode>, ghost kept: set<GcNode>, ghost was: map<GcNode, seq<Value>>,
                      ghost i: nat)
      requires i < |list| && cur == list[i] && Sweeping(list, kept, was, i) && ToVisit(list, kept, was, i)
      requires list[i] !in kept
      modifies this`totalFreed, allocList, freeList
      modifies cur`free, cur`fields, cur`magic, cur`lookupIndex, allocList.Back()`lookupIndex
      ensures forall x | x in allocList.contents :: x in old(allocList.contents)
      ensures Sweeping(list, kept, was, i + 1)
      ensures freeList.contents == old(freeList.contents) + [cur]
      ensures totalFreed == old(totalFreed) + 1 && |allocList.contents| == |old(allocList.contents)| - 1
    {
      hide SwapRemoved, Without;
      assert cur == allocList.contents[cur.lookupIndex];
      FreeObject(cur);
      forall k | i + 1 <= k < |list| ensures ToVisit(list, kept, was, k) {
        assert old(ToVisit(list, kept, was, k));
        assert old(list[k] == allocList.contents[list[k].lookupIndex]);
      }
      forall k | 0 <= k < i ensures Visited(list, kept, was, k) {
        assert old(Visited(list, kept, was, k));
        if list[k] in kept { assert old(list[k] == allocList.contents[list[k].lookupIndex]); }
      }
    }

    /** One round of the sweep's loop. */
    method SweepOne(ghost list: seq<GcNode>, ghost kept: set<GcNode>, ghost was: map<GcNode, seq<Value>>, i: nat)
      requires i < |list| && Sweeping(list, kept, was, i) && forall x | x in allocList.contents :: x in list
      modifies this`totalFreed, allocList, freeList, list`color, list`free, list`fields, list`magic, list`lookupIndex
      ensures Sweeping(list, kept, was, i + 1)
      ensures forall x | x in allocList.contents :: x in list
      ensures freeList.contents == old(freeList.contents) + (if list[i] in kept then [] else [list[i]])
      ensures totalFreed + |allocList.contents| == old(totalFreed + |allocList.contents|)
    {
      assert ToVisit(list, kept, was, i);
      var cur := allocList.slots[i];
      if cur.color == White {
        assert allocList.Back() == allocList.contents[|allocList.contents| - 1] && allocList.Back() in list;
        SweepWhite(cur, list, kept, was, i);
      } else {
        cur.color := White;
      }
    }

    lemma SweepEnds(list: seq<GcNode>, kept: set<GcNode>, was: map<GcNode, seq<Value>>)
      requires Sweeping(list, kept, was, |list|)
      requires (forall x | x in kept :: x in list) && (forall x | x in allocList.contents :: x in list)
      ensures allocList.Valid() && freeList.Valid() 
      ensures Members(allocList.contents) == kept
      ensures forall x | x in kept :: x.color == White && !x.free && x.fields == was[x]
      ensures forall x | x in list && x !in kept :: x.free
    {
      forall x | x in list
        ensures x in was && (x in allocList.contents <==> x in kept)
        ensures if x in kept then x.color == White && !x.free && x.fields == was[x] else x.free
      {
        var k :| 0 <= k < |list| && list[k] == x;
        assert Visited(list, kept, was, k);
      }
    }

    /**
     Walks over the slots of the list up to its original end while nodes are swap-removed from
     it: each original node is visited once, at the slot it had at the start.
     */
    method Sweep()
      requires allocList != freeList && allocList.Valid() && freeList.Valid()
      requires forall x | x in allocList.contents :: !x.free
      modifies this`totalFreed, allocList, freeList, allocList.contents`color, allocList.contents`free
      modifies allocList.contents`fields, allocList.contents`magic, allocList.contents`lookupIndex
      ensures allocList.Valid() && freeList.Valid()
      ensures Members(allocList.contents) == old(Coloured())
      ensures freeList.contents == old(freeList.contents + Without(allocList.contents, Coloured()))
      ensures forall x | x in old(Coloured()) :: x.color == White && !x.free && x.fields == old(x.fields)
      ensures forall x | x in old(allocList.contents) && x !in old(Coloured()) :: x.free
      ensures totalFreed + |allocList.contents| == old(totalFreed + |allocList.contents|)
    {
      hide Without, Visited, ToVisit, Sweeping;
      ghost var list, kept := allocList.contents, Coloured();
      ghost var was := map x | x in list :: x.fields;
      var end := allocList.size;
      SweepStarts(list, kept, was);
      WithoutNothing(list, kept);
      var i := 0;
      while i < end
        invariant i <= end == |list|
        invariant Sweeping(list, kept, was, i)
        invariant forall x | x in allocList.contents :: x in list
        invariant freeList.contents == old(freeList.contents) + Without(list[..i], kept)
        invariant totalFreed + |allocList.contents| == old(totalFreed + |allocList.contents|)
      {
        WithoutNext(list, kept, i);
        SweepOne(list, kept, was, i);
        i := i + 1;
      }
      assert list[..i] == list;
      SweepEnds(list, kept, was);
    }

    lemma SweepStarts(list: seq<GcNode>, kept: set<GcNode>, was: map<GcNode, seq<Value>>)
      requires allocList != freeList && allocList.Valid() && freeList.Valid()
      requires forall x | x in allocList.contents :: !x.free && x in was && was[x] == x.fields
      requires list == allocList.contents && kept == Coloured()
      ensures Sweeping(list, kept, was, 0)
    {
    }

    /** The managed objects that a collection keeps. */
    ghost function Kept(): set<GcNode>
      requires vm.Valid()
      reads this`unmanaged, vm, Targets(vm.Scanned())`managed, allocList
      reads allocList.contents`tag, allocList.contents`elemsManaged, allocList.contents`fields, unmanaged`tag,
            unmanaged`elemsManaged, unmanaged`fields
    {
      set x | x in allocList.contents && Reachable(Graph(), Roots(), x)
    }

    /** Objects, lists and roots are in order, and nothing is marked. */
    ghost predicate Ready()
      reads this, vm, allocList, freeList, allocList.contents, freeList.contents, unmanaged
    {
      ListsOk() && HeapOk() && RootsOk() && AllWhite()
    }

    /** The sweep, with what it leaves alone. */
    method SweepLists()
      requires ListsOk()
      modifies this`totalFreed, allocList, freeList, allocList.contents`color, allocList.contents`free
      modifies allocList.contents`fields, allocList.contents`magic, allocList.contents`lookupIndex
      ensures ListsOk() && forall x | x in allocList.contents :: x.color == White
      ensures Members(allocList.contents) == old(Coloured())
      ensures freeList.contents == old(freeList.contents + Without(allocList.contents, Coloured()))
      ensures forall x | x in old(Coloured()) :: x.fields == old(x.fields)
      ensures totalFreed + |allocList.contents| == old(totalFreed + |allocList.contents|)
    {
      Sweep();
      WithoutMembers(old(allocList.contents), old(Coloured()));
    }

    /**
     A collection keeps exactly the managed objects that can be reached from the scanned slots,
     with their contents, and moves all others to the free list.
     */
    method MarkAndSweep()
      requires Ready()
      modifies this`totalFreed, allocList, freeList, unmanaged`color, allocList.contents`color
      modifies allocList.contents`free, allocList.contents`fields, allocList.contents`magic,
               allocList.contents`lookupIndex
      ensures Ready()
      ensures Members(allocList.contents) == old(Kept())
      ensures freeList.contents == old(freeList.contents + Without(allocList.contents, Kept()))
      ensures forall x | x in allocList.contents :: x.fields == old(x.fields)
      ensures totalFreed + |allocList.contents| == old(totalFreed + |allocList.contents|)
    {
      hide HeapIs, Without, Reachable, ListsOk, HeapOk, RootsOk, Live, Graph, Kept, Coloured, Roots, VmSlots.Valid;
      RootsValid();
      ghost var g, kept := Graph(), Kept();
      Mark(g);
      SweepMarked(g, kept);
    }

    /** The second half of a collection, after marking. */
    method SweepMarked(ghost g: map<GcNode, set<GcNode>>, ghost kept: set<GcNode>)
      requires ListsOk() && HeapOk() && RootsOk() && g == Graph() && kept == Kept() == Coloured()
      requires forall x | x in unmanaged :: x.color != Grey
      modifies this`totalFreed, allocList, freeList, allocList.contents`color, allocList.contents`free
      modifies allocList.contents`fields, allocList.contents`magic, allocList.contents`lookupIndex
      ensures forall x | x in allocList.contents :: x in old(allocList.contents)
      ensures Ready()
      ensures Members(allocList.contents) == kept
      ensures freeList.contents == old(freeList.contents + Without(allocList.contents, kept))
      ensures forall x | x in allocList.contents :: x.fields == old(x.fields)
      ensures totalFreed + |allocList.contents| == old(totalFreed + |allocList.contents|)
    {
      hide HeapIs, Without, Reachable, ListsOk, VmSlots.Scanned, GcList.Valid;
      AllManaged(g);
      ghost var roots := Roots();
      SweepLists();
      KeptHeap(g, roots, kept);
    }

    lemma RootsValid()
      requires RootsOk()
      ensures vm.Valid()
    {
    }

    lemma ColouredIsKept(g: map<GcNode, set<GcNode>>)
      requires vm.Valid() && g == Graph()
      requires forall x | x in allocList.contents :: x.color == if Reachable(g, Roots(), x) then Black else White
      ensures Coloured() == Kept()
    {
    }

    lemma AllManaged(g: map<GcNode, set<GcNode>>)
      requires ListsOk() && g == Graph()
      ensures forall x | x in g :: x.managed <==> x !in unmanaged
      ensures forall x | x in g :: x.managed <==> x in allocList.contents
    {
    }

    /** What is left after a collection is closed under reference and holds the roots. */
    lemma KeptHeap(g: map<GcNode, set<GcNode>>, roots: set<GcNode>, kept: set<GcNode>)
      requires vm.Valid() && Members(allocList.contents) == kept
      requires forall x | x in kept :: x in g && Reachable(g, roots, x) && x.managed
      requires forall x | x in g && Reachable(g, roots, x) && x.managed :: x in kept
      requires forall x | x in g && !x.managed :: x in unmanaged
      requires forall x | x in Live() :: x in g && g[x] == x.Kids() && x.Kids() == Targets(x.fields) && g[x] <= g.Keys
      requires forall x | x in unmanaged :: Targets(x.fields) == {}
      requires Targets(vm.Scanned()) <= g.Keys && roots == Roots()
      ensures HeapOk() && RootsOk()
    {
      hide Reachable;
      forall x, y | x in Live() && y in Targets(x.fields) ensures y in Live() {
        if x in kept { ReachableNext(g, roots, x, y); }
      }
      forall x | x in Targets(vm.Scanned()) ensures x in Live() {
        if x.managed { RootReachable(g, roots, x); }
      }
    }

    ghost function Coloured(): set<GcNode>
      reads allocList, allocList.contents`color
    {
      set x | x in allocList.contents && x.color != White
    }

    // ----- allocation -----

    /** The automatic collection is due. */
    ghost predicate Due()
      reads this, allocList
    {
      !isPaused && |allocList.contents| >= nextRun
    }

    /** A node that no list and no object holds. */
    ghost predicate Detached(node: GcNode)
      reads this`unmanaged, allocList, freeList, node`lookupIndex
    {
      node.lookupIndex == MAGIC_INDEX && node !in allocList.contents && node !in freeList.contents && node !in unmanaged
    }

    /** The managed objects that the next allocation leaves. */
    ghost function Retained(): set<GcNode>
      requires vm.Valid()
      reads this, vm, Targets(vm.Scanned())`managed, allocList
      reads allocList.contents`tag, allocList.contents`elemsManaged, allocList.contents`fields, unmanaged`tag,
            unmanaged`elemsManaged, unmanaged`fields
    {
      if Due() then Kept() else Members(allocList.contents)
    }

    lemma RetainedIs()
      requires vm.Valid()
      ensures Retained() ==
                if isPaused || |allocList.contents| < nextRun then Members(allocList.contents) else Kept()
    {
    }

    /** Collects if a collection is due, and puts the next one off by the interval. */
    method CollectIfDue()
      requires vm.Valid() && Ready() && CountsOk(0)
      modifies this`totalFreed, this`nextRun, allocList, freeList, unmanaged`color, Members(allocList.contents)`color
      modifies Members(allocList.contents)`free, Members(allocList.contents)`fields, Members(allocList.contents)`magic,
               Members(allocList.contents)`lookupIndex
      ensures forall x | x in allocList.contents :: x in old(allocList.contents)
      ensures Ready() && CountsOk(0)
      ensures Members(allocList.contents) == old(Retained()) <= old(Members(allocList.contents))
      ensures |allocList.contents| == |old(Retained())|
      ensures |allocList.contents| < maxObjects || isPaused || old(Retained()) == old(Kept())
      ensures forall x | x in allocList.contents :: x.fields == old(x.fields)
      ensures forall x | x in freeList.contents :: x in old(freeList.contents) || x in old(allocList.contents)
      ensures nextRun ==
                if old(isPaused) || |old(allocList.contents)| < old(nextRun) then old(nextRun)
                else if old(nextRun) + runInterval < maxObjects then old(nextRun) + runInterval else maxObjects
      ensures Members(allocList.contents) ==
                if old(isPaused) || |old(allocList.contents)| < old(nextRun) then old(Members(allocList.contents))
                else old(Kept())
    {
      hide Without, Reachable, HeapOk, RootsOk, AllWhite, Graph, Roots;
      ghost var before, kept := allocList.contents, Kept();
      if !isPaused && allocList.size >= nextRun {
        nextRun := nextRun + runInterval;
        nextRun := if nextRun < maxObjects then nextRun else maxObjects;
        assert Kept() == kept;
        WithoutMembers(before, kept);
        MarkAndSweep();
        FewerMembers(before);
        assert forall x | x in allocList.contents :: x in Members(allocList.contents);
      }
      DistinctCount(allocList.contents);
    }

    lemma FewerMembers(before: seq<GcNode>)
      requires allocList.Valid() && Members(allocList.contents) <= Members(before)
      ensures |allocList.contents| <= |before|
    {
      DistinctCount(allocList.contents);
      SubsetCount(Members(allocList.contents), Members(before));
      MembersCount(before);
    }

    /** A node from the free list, or a new one. */
    method TakeNode() returns (node: GcNode)
      requires Ready()
      modifies freeList, Members(freeList.contents)`magic, Members(freeList.contents)`lookupIndex
      ensures Ready() && Detached(node) && node.magic == null
      ensures freeList.contents <= old(freeList.contents) && (fresh(node) || node in old(freeList.contents))
    {
      hide HeapOk, RootsOk, AllWhite;
      var popped := freeList.Pop();
      if popped == null {
        node := new GcNode();
      } else {
        node := popped;
      }
    }

    /** Null if the object limit leaves no room even after a due collection. */
    method AllocIntern() returns (node: GcNode?)
      requires vm.Valid() && Ready() && CountsOk(0)
      modifies this`totalFreed, this`nextRun, this`totalAllocated, allocList, freeList, unmanaged`color,
               Members(allocList.contents)`color
      modifies Members(allocList.contents)`free, Members(allocList.contents)`fields, Members(allocList.contents)`magic,
               Members(allocList.contents)`lookupIndex
      modifies Members(freeList.contents)`magic, Members(freeList.contents)`lookupIndex
      ensures forall x | x in allocList.contents :: x in old(allocList.contents)
      ensures Ready() && CountsOk(if node == null then 0 else 1)
      ensures node == null <==> |allocList.contents| >= maxObjects
      ensures forall x | x in freeList.contents :: x in old(freeList.contents) || x in old(allocList.contents)
      ensures Members(allocList.contents) == old(Retained()) <= old(Members(allocList.contents))
      ensures forall x | x in old(allocList.contents) && x in old(Retained()) ::
                x.fields == old(x.fields) && x.tag == old(x.tag) && x.elemsManaged == old(x.elemsManaged)
      ensures node == null <==> |old(Retained())| >= maxObjects
      ensures node == null ==> old(isPaused) || old(Retained()) == old(Kept())
      ensures nextRun ==
                if old(isPaused) || |old(allocList.contents)| < old(nextRun) then old(nextRun)
                else if old(nextRun) + runInterval < maxObjects then old(nextRun) + runInterval else maxObjects
      ensures node != null ==> Detached(node) && node.magic == null
      ensures node != null ==> node !in old(Retained()) && (fresh(node) || node in old(Nodes()))
    {
      hide HeapOk, RootsOk, AllWhite, Kept, Retained, InUse, NotInUse;
      CollectIfDue();
      if allocList.size >= maxObjects {
        return null;
      }
      node := TakeNode();
      totalAllocated := totalAllocated + 1;
    }

    /** The contents of a new object; `elems` says whether an array's type is collectable. */
    method Construct(node: GcNode, tag: Tag, num: nat, elems: bool)
      requires Ready() && Detached(node)
      modifies node`tag, node`elemsManaged, node`fields, node`color, node`free
      ensures Ready() && Detached(node)
      ensures IsNew(node, tag, num, elems)
    {
      node.tag, node.elemsManaged, node.free, node.color := tag, elems, false, White;
      node.fields := seq(if tag.Buffer? then 0 else num, i => Data(0));
    }

    /** Puts a new object into the list of allocated ones. */
    method Admit(node: GcNode)
      requires Ready() && CountsOk(1) && Detached(node) && node.managed && |allocList.contents| < maxObjects
      requires !node.free && node.color == White && Targets(node.fields) == {}
      modifies allocList, node`magic, node`lookupIndex
      ensures Valid() && allocList.contents == old(allocList.contents) + [node]
      ensures Members(allocList.contents) == old(Members(allocList.contents)) + {node}
      ensures freeList.contents == old(freeList.contents)
    {
      hide VmSlots.Scanned, Closed, Targets, Members, InUse, NotInUse, Unmarked, GcList.Valid;
      Grows(allocList.contents, unmanaged, node);
      allocList.Append(node);
    }

    /** The magic of a node that is taken from the free list or new. */
    method SetMagic(node: GcNode, managed: bool)
      requires Ready() && Detached(node)
      modifies node`magic, node`managed
      ensures Ready() && Detached(node) && node.managed == managed
    {
      node.magic := if managed then allocList else null;
      node.managed := managed;
    }

    /** A constructed node that is in no list yet, or null. */
    method NewNode(managed: bool, tag: Tag, num: nat, elems: bool) returns (node: GcNode?)
      requires vm.Valid() && Valid()
      modifies this`totalFreed, this`nextRun, this`totalAllocated, allocList, freeList, unmanaged`color, Nodes()
      ensures forall x | x in allocList.contents :: x in old(allocList.contents)
      ensures Ready() && CountsOk(if node == null then 0 else 1)
      ensures Members(allocList.contents) == old(Retained())
      ensures node != null ==>
                |allocList.contents| < maxObjects && node !in old(Retained()) && (fresh(node) || node in old(Nodes()))
      ensures node != null ==> Detached(node) && node.managed == managed && IsNew(node, tag, num, elems)
      ensures forall x | x in freeList.contents :: x in old(freeList.contents) || x in old(allocList.contents)
      ensures nextRun ==
                if old(isPaused) || |old(allocList.contents)| < old(nextRun) then old(nextRun)
                else if old(nextRun) + runInterval < maxObjects then old(nextRun) + runInterval else maxObjects
      ensures Nodes() <= old(Nodes())
      ensures forall x | x in old(allocList.contents) && x in old(Retained()) ::
                x.fields == old(x.fields) && x.tag == old(x.tag) && x.elemsManaged == old(x.elemsManaged)
      ensures node == null <==> |old(Retained())| >= maxObjects
      ensures node == null ==> old(isPaused) || old(Retained()) == old(Kept())
    {
      hide ListsOk, HeapOk, RootsOk, AllWhite, Kept, Retained, Ready, Members, Targets, VmSlots.Scanned;
      node := AllocIntern();
      if node != null {
        SetMagic(node, managed);
        Construct(node, tag, num, elems);
      }
      FewerNodes(allocList.contents, freeList.contents, old(allocList.contents), old(freeList.contents));
    }

    /**
     Allocates a managed object. Null stands for running out of memory: the object limit is
     reached, and unless collection is paused, by objects that are all reachable.
     */
    method Allocate(tag: Tag, num: nat, elems: bool) returns (node: GcNode?)
      requires vm.Valid() && Valid()
      modifies this`totalFreed, this`nextRun, this`totalAllocated, allocList, freeList, unmanaged`color, Nodes()
      ensures Valid()
      ensures forall x | x in Nodes() :: x in old(Nodes()) || (x == node && fresh(x))
      ensures nextRun ==
                if old(isPaused) || |old(allocList.contents)| < old(nextRun) then old(nextRun)
                else if old(nextRun) + runInterval < maxObjects then old(nextRun) + runInterval else maxObjects
      ensures Members(allocList.contents) == (if node == null then {} else {node}) +
                if old(isPaused) || |old(allocList.contents)| < old(nextRun) then old(Members(allocList.contents))
                else old(Kept())
      ensures Members(allocList.contents) == old(Retained()) + (if node == null then {} else {node})
      ensures node != null ==> node !in old(Retained()) && node !in unmanaged && IsNew(node, tag, num, elems)
      ensures node != null ==>
                !node.free && node.tag == tag && node.elemsManaged == elems
                && |node.fields| == (if tag.Buffer? then 0 else num) && Targets(node.fields) == {}
      ensures node != null ==> fresh(node) || node in old(Nodes())
      ensures forall x | x in old(allocList.contents) && x in old(Retained()) ::
                x.fields == old(x.fields) && x.tag == old(x.tag) && x.elemsManaged == old(x.elemsManaged)
      ensures node == null <==> |old(Retained())| >= maxObjects
      ensures node == null ==> old(isPaused) || old(Retained()) == old(Kept())
    {
      hide ListsOk, HeapOk, RootsOk, AllWhite, Kept, Retained, Members, Targets, VmSlots.Scanned;
      RetainedIs();
      node := NewNode(true, tag, num, elems);
      if node != null { Admit(node); }
    }

    /** Allocates an object that no collection frees. */
    method AllocateUnmanaged(tag: Tag, num: nat, elems: bool) returns (node: GcNode?)
      requires vm.Valid() && Valid()
      modifies this`totalFreed, this`nextRun, this`totalAllocated, this`unmanaged, allocList, freeList, unmanaged`color,
               Nodes()
      ensures Valid()
      ensures forall x | x in Nodes() :: x in old(Nodes()) || (x == node && fresh(x))
      ensures nextRun ==
                if old(isPaused) || |old(allocList.contents)| < old(nextRun) then old(nextRun)
                else if old(nextRun) + runInterval < maxObjects then old(nextRun) + runInterval else maxObjects
      ensures Members(allocList.contents) ==
                if old(isPaused) || |old(allocList.contents)| < old(nextRun) then old(Members(allocList.contents))
                else old(Kept())
      ensures Members(allocList.contents) == old(Retained())
      ensures unmanaged == old(unmanaged) + (if node == null then {} else {node})
      ensures node != null ==> node !in old(Retained()) && node !in old(unmanaged) && IsNew(node, tag, num, elems)
      ensures node != null ==>
                !node.free && node.tag == tag && node.elemsManaged == elems
                && |node.fields| == (if tag.Buffer? then 0 else num) && Targets(node.fields) == {}
      ensures node != null ==> fresh(node) || node in old(Nodes())
      ensures forall x | x in old(allocList.contents) && x in old(Retained()) ::
                x.fields == old(x.fields) && x.tag == old(x.tag) && x.elemsManaged == old(x.elemsManaged)
      ensures node == null <==> |old(Retained())| >= maxObjects
      ensures node == null ==> old(isPaused) || old(Retained()) == old(Kept())
    {
      hide ListsOk, HeapOk, RootsOk, AllWhite, Kept, Retained, Members, Targets, VmSlots.Scanned;
      RetainedIs();
      node := NewNode(false, tag, num, elems);
      if node != null { AdmitUnmanaged(node); }
    }

    ghost method AdmitUnmanaged(node: GcNode)
      requires Ready() && CountsOk(1) && Detached(node) && !node.managed
      requires !node.free && node.color == White && Targets(node.fields) == {}
      modifies this`unmanaged
      ensures Valid() && unmanaged == old(unmanaged) + {node}
    {
      hide VmSlots.Scanned, Closed, Targets, Members, InUse, NotInUse, Unmarked, GcList.Valid;
      Grows(allocList.contents, unmanaged, node);
      unmanaged := unmanaged + {node};
    }

    // ----- what the program does to the heap -----

    /** A collection on demand. */
    method Collect()
      requires vm.Valid() && Valid()
      modifies this`totalFreed, allocList, freeList, unmanaged`color, allocList.contents`color
      modifies allocList.contents`free, allocList.contents`fields, allocList.contents`magic,
               allocList.contents`lookupIndex
      ensures forall x | x in allocList.contents :: x in old(allocList.contents)
      ensures Valid() && Members(allocList.contents) == old(Kept())
      ensures forall x | x in freeList.contents :: x in old(freeList.contents) || x in old(allocList.contents)
      ensures forall x | x in allocList.contents :: x.fields == old(x.fields)
    {
      hide Without, Reachable, HeapOk, RootsOk, AllWhite, Graph, Roots;
      ghost var before, kept := allocList.contents, Kept();
      WithoutMembers(before, kept);
      MarkAndSweep();
      FewerMembers(before);
      assert forall x | x in allocList.contents :: x in Members(allocList.contents);
    }

    /**
     An object that only the global `k` holds survives a collection exactly if `k` is below the
     highest index ever stored to: the last global is not a root.
     */
    lemma LoneGlobalKept(k: nat, x: GcNode)
      requires vm.Valid() && Valid() && k < |vm.globals| && vm.globals[k] == Ref(x) && x in allocList.contents
      requires forall i | 0 <= i < |vm.globals| && i != k :: !vm.globals[i].Ref?
      requires forall v | v in vm.locals[..vm.localsTop] + vm.dataStack[..vm.dataTop] :: !v.Ref?
      ensures x in Kept() <==> k < vm.globalsTop
    {
      hide HeapOk, AllWhite, InUse, NotInUse;
      if k < vm.globalsTop {
        assert vm.globals[..vm.globalsTop][k] in vm.Scanned();
        RootReachable(Graph(), Roots(), x);
      } else {
        assert forall v | v in vm.Scanned() :: !v.Ref?;
        assert Roots() == {};
      }
    }

    method SetPaused(on: bool)
      requires Valid()
      modifies this`isPaused
      ensures Valid() && isPaused == on
    {
      hide ListsOk, HeapOk, RootsOk, AllWhite;
      isPaused := on;
    }

    /** Frees an object that nothing refers to any more. */
    method Deallocate(obj: GcNode)
      requires Valid() && (obj in allocList.contents || obj in unmanaged)
      requires obj !in Targets(vm.Scanned()) && forall x | x in Live() && x != obj :: obj !in Targets(x.fields)
      modifies this`totalFreed, this`unmanaged, allocList, freeList
      modifies obj`free, obj`fields, obj`magic, obj`lookupIndex, allocList.contents`lookupIndex
      ensures Valid() && Live() == old(Live()) - {obj} && obj.free && totalFreed == old(totalFreed) + 1
      ensures unmanaged == old(unmanaged) - {obj}
      ensures Members(allocList.contents) == old(Members(allocList.contents)) - {obj}
      ensures freeList.contents == old(freeList.contents) + if old(obj in unmanaged) then [] else [obj]
    {
      hide Targets, VmSlots.Scanned, Unmarked, Closed, InUse, NotInUse, Members, SwapRemoved, GcList.Valid, CountsOk,
           RootsOk;
      Unlisted(obj);
      StillApart();
      if obj.managed {
        Shrinks(allocList, unmanaged, obj);
        assert unmanaged - {obj} == unmanaged;
        DeallocateListed(obj, SwapRemoved(allocList.contents, obj.lookupIndex));
      } else {
        DeallocateUnlisted(obj);
      }
      StillApart();
    }

    lemma StillApart()
      requires ListsOk()
      ensures Members(allocList.contents) == Live() - unmanaged
    {
    }

    /** The effect of freeing on the lists as a whole. */
    method FreeListed(obj: GcNode)
      requires ListsOk() && obj in allocList.contents
      modifies this`totalFreed, allocList, freeList
      modifies obj`free, obj`fields, obj`magic, obj`lookupIndex, allocList.contents`lookupIndex
      ensures obj.free && totalFreed == old(totalFreed) + 1
      ensures allocList.Valid() && freeList.Valid() && freeList.contents == old(freeList.contents) + [obj]
      ensures 0 <= old(obj.lookupIndex) < |old(allocList.contents)|
      ensures allocList.contents == SwapRemoved(old(allocList.contents), old(obj.lookupIndex))
      ensures |allocList.contents| == |old(allocList.contents)| - 1
    {
      FreeObject(obj);
    }

    method DeallocateListed(obj: GcNode, ghost rest: seq<GcNode>)
      requires Valid() && obj in allocList.contents && obj !in Targets(vm.Scanned())
      requires 0 <= obj.lookupIndex < |allocList.contents| && rest == SwapRemoved(allocList.contents, obj.lookupIndex)
      requires obj !in rest
      requires Closed(rest, unmanaged) && InUse(rest, unmanaged) && Unmarked(rest, unmanaged)
      requires Members(rest) + unmanaged == Live() - {obj}
      modifies this`totalFreed, allocList, freeList
      modifies obj`free, obj`fields, obj`magic, obj`lookupIndex, allocList.contents`lookupIndex
      ensures Valid() && Live() == old(Live()) - {obj} && obj.free && totalFreed == old(totalFreed) + 1
      ensures freeList.contents == old(freeList.contents) + [obj]
    {
      hide Targets, VmSlots.Scanned, Unmarked, Closed, InUse, NotInUse, Members, GcList.Valid, SwapRemoved;
      Unlisted(obj);
      ghost var freed := freeList.contents;
      FreeListed(obj);
      FreedNotInUse(freed, obj);
    }

    method DeallocateUnlisted(obj: GcNode)
      requires Valid() && obj in unmanaged
      requires obj !in Targets(vm.Scanned()) && forall x | x in Live() && x != obj :: obj !in Targets(x.fields)
      modifies this`totalFreed, this`unmanaged, obj`free, obj`fields, obj`magic, obj`lookupIndex
      ensures Valid() && Live() == old(Live()) - {obj} && obj.free && totalFreed == old(totalFreed) + 1
      ensures unmanaged == old(unmanaged) - {obj}
    {
      hide Targets, VmSlots.Scanned, Unmarked, Closed, InUse, NotInUse, Members, GcList.Valid;
      Shrinks(allocList, unmanaged, obj);
      Unlisted(obj);
      FreeObject(obj);
      unmanaged := unmanaged - {obj};
    }

    lemma Unlisted(x: GcNode)
      requires ListsOk() && (x in allocList.contents || x in unmanaged)
      ensures x !in freeList.contents && (x in allocList.contents <==> x !in unmanaged)
      ensures (x in allocList.contents <==> x.managed)
      ensures forall y | y in allocList.contents :: y !in unmanaged
    {
    }

    /** Stores into a field or an element. */
    method StoreField(obj: GcNode, index: nat, value: Value)
      requires Valid() && (obj in allocList.contents || obj in unmanaged) && index < |obj.fields|
      requires value.Ref? ==>
                 obj in allocList.contents && value.node in Live()
                 && (obj.tag.Object? || (obj.tag.Array? && obj.elemsManaged))
      modifies obj`fields
      ensures Valid() && obj.fields == old(obj.fields)[index := value]
    {
      hide VmSlots.Scanned, Targets, Members, InUse, NotInUse, Unmarked, GcList.Valid, RefersTo;
      Unlisted(obj);
      ghost var before, live := obj.fields, if obj in allocList.contents then Live() else {};
      RefersToIs(obj, live);
      obj.fields := obj.fields[index := value];
      StoredRefersTo(obj, before, index, value, live);
    }

    ghost function Nodes(): set<GcNode>
      reads allocList, freeList
    {
      Members(allocList.contents) + Members(freeList.contents)
    }
  }

  /** What a new object holds. */
  ghost predicate IsNew(node: GcNode, tag: Tag, num: nat, elems: bool)
    reads node
  {
    && node.tag == tag && node.elemsManaged == elems && !node.free && node.color == White
    && Targets(node.fields) == {} && |node.fields| == (if tag.Buffer? then 0 else num)
  }

  lemma FewerNodes(list: seq<GcNode>, free: seq<GcNode>, list0: seq<GcNode>, free0: seq<GcNode>)
    requires forall x | x in list :: x in list0
    requires forall x | x in free :: x in free0 || x in list0
    ensures Members(list) + Members(free) <= Members(list0) + Members(free0)
  {
  }

  lemma {:induction false} DistinctCount(list: seq<GcNode>)
    requires forall i, j | 0 <= i < j < |list| :: list[i] != list[j]
    ensures |Members(list)| == |list|
    decreases |list|
  {
    if list != [] {
      var front, last := list[..|list| - 1], list[|list| - 1];
      DistinctCount(front);
      assert Members(list) == Members(front) + {last};
    }
  }

  lemma {:induction false} MembersCount(list: seq<GcNode>)
    ensures |Members(list)| <= |list|
    decreases |list|
  {
    if list != [] {
      MembersCount(list[..|list| - 1]);
      assert Members(list) == Members(list[..|list| - 1]) + {list[|list| - 1]};
    }
  }

  lemma {:induction false} SubsetCount(a: set<GcNode>, b: set<GcNode>)
    requires a <= b
    ensures |a| <= |b|
  {
    assert |b| == |a| + |b - a| by { assert b == a + (b - a); }
  }

  /** During marking: what is coloured is black and reachable, and has no white child. */
  ghost predicate MarkedOk(g: map<GcNode, set<GcNode>>, roots: set<GcNode>, x: GcNode)
    requires x in g
    reads x`managed, x`color, g.Keys`color
  {
    x.managed && x.color != White ==> x.color == Black && Reachable(g, roots, x) && forall y | y in g[x] && y in g ::
      y.color != White
  }

  /** Once the roots are marked, the marked nodes are the reachable ones. */
  lemma MarkedIsReachable(g: map<GcNode, set<GcNode>>, roots: set<GcNode>)
    requires HeapIs(g) && roots <= g.Keys
    requires forall x | x in g :: MarkedOk(g, roots, x) && (!x.managed ==> g[x] == {})
    requires forall x | x in roots :: x.managed && x.color != White
    ensures forall x | x in g && x.managed :: x.color == if Reachable(g, roots, x) then Black else White
  {
    hide Reachable;
    var s := set x | x in g && x.color != White && Reachable(g, roots, x);
    forall x, y | x in s && y in g[x] ensures y in s {
      ReachableNext(g, roots, x, y);
    }
    ClosedIsReachable(g, roots, s);
  }
}
