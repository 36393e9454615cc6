/**
 Programs over the collected heap: the VM instructions that move objects between the data
 stack, the globals, the locals of call frames and other objects, allocate, deallocate and
 collect. Which of them can be performed, what they do to the slots and to the heap, and that
 whatever runs, in whatever order, nothing that can be reached is ever free.
 */
module Mutators {
  import opened HeapGraph
  import opened GcNodes
  import opened GarbageCollector

  datatype Op =
    | PushFixnum(n: int)
    | Discard
    | LoadGlobal(index: nat)
    | StoreGlobal(index: nat)
    | LoadLocal(index: nat)
    | StoreLocal(index: nat)
    | EnterFrame(num: nat)
    | LeaveFrame
    | LoadField(index: nat)
    | StoreField(index: nat)
    | Allocate(tag: Tag, num: nat, elems: bool)
    | AllocateUnmanaged(tag: Tag, num: nat, elems: bool)
    | Deallocate
    | Collect
    | Pause(on: bool)

  /** The VM's slots at one moment; of the data stack only what is on it. */
  datatype Slots = Slots(
    globals: seq<Value>,
    globalsTop: nat,
    locals: seq<Value>,
    localsTop: nat,
    frames: seq<nat>,
    data: seq<Value>)

  function Last<T>(s: seq<T>): T
    requires s != []
  {
    s[|s| - 1]
  }

  function Front<T>(s: seq<T>): seq<T>
    requires s != []
  {
    s[..|s| - 1]
  }

  /** The slot of a local in the frame of the running call. */
  predicate IsLocal(s: Slots, index: nat) {
    s.frames != [] && Last(s.frames) + index < s.localsTop <= |s.locals|
  }

  /** The operands of an instruction are there. */
  predicate HasOperands(op: Op, s: Slots) {
    match op
    case Discard => s.data != []
    case LoadGlobal(index) => index < |s.globals|
    case StoreGlobal(index) => s.data != [] && index < |s.globals|
    case LoadLocal(index) => IsLocal(s, index)
    case StoreLocal(index) => s.data != [] && IsLocal(s, index)
    case EnterFrame(num) => s.localsTop + num <= |s.locals|
    case LeaveFrame => s.frames != []
    case LoadField(_) => s.data != [] && Last(s.data).Ref?
    case StoreField(_) => |s.data| >= 2 && Last(s.data).Ref?
    case Deallocate => s.data != [] && Last(s.data).Ref?
    case _ => true
  }

  /** The slots after an instruction; `value` is what a field held, or the new object. */
  function After(op: Op, s: Slots, value: Value): Slots
    requires HasOperands(op, s)
  {
    match op
    case PushFixnum(n) => s.(data := s.data + [Data(n)])
    case Discard => s.(data := Front(s.data))
    case LoadGlobal(index) => s.(data := s.data + [s.globals[index]])
    case StoreGlobal(index) =>
      s.(data := Front(s.data), globals := s.globals[index := Last(s.data)],
         globalsTop := if index > s.globalsTop then index else s.globalsTop)
    case LoadLocal(index) => s.(data := s.data + [s.locals[Last(s.frames) + index]])
    case StoreLocal(index) => s.(data := Front(s.data), locals := s.locals[Last(s.frames) + index := Last(s.data)])
    case EnterFrame(num) => s.(frames := s.frames + [s.localsTop], localsTop := s.localsTop + num)
    case LeaveFrame => s.(localsTop := Last(s.frames), frames := Front(s.frames))
    case LoadField(_) => s.(data := Front(s.data) + [value])
    case StoreField(_) => s.(data := s.data[..|s.data| - 2])
    case Allocate(_, _, _) => s.(data := s.data + [value])
    case AllocateUnmanaged(_, _, _) => s.(data := s.data + [value])
    case Deallocate => s.(data := Front(s.data))
    case Collect => s
    case Pause(_) => s
  }

  class Mutator {
    const gc: MalangGC
    /** The unmanaged objects, which no list of the collector holds. */
    var held: set<GcNode>

    constructor (gc: MalangGC)
      requires gc.vm.Valid() && gc.Valid() && gc.unmanaged == {}
      ensures this.gc == gc && Valid()
    {
      this.gc, held := gc, {};
    }

    ghost predicate Valid()
      reads this, gc, gc.vm, gc.allocList, gc.freeList, gc.allocList.contents, gc.freeList.contents, gc.unmanaged
    {
      gc.vm.Valid() && gc.Valid() && held == gc.unmanaged
    }

    ghost function Objects(): set<GcNode>
      reads gc, gc.allocList, gc.freeList
    {
      gc.Nodes() + gc.unmanaged
    }

    function State(): Slots
      requires gc.vm.Valid()
      reads gc.vm
    {
      var vm := gc.vm;
      Slots(vm.globals, vm.globalsTop, vm.locals, vm.localsTop, vm.frames, vm.dataStack[..vm.dataTop])
    }

    /** A value that a program may look at: data, or an object that has not been freed. */
    predicate IsLive(v: Value)
      requires gc.allocList.size <= |gc.allocList.slots|
      reads this, gc.allocList
    {
      v.Ref? ==> v.node in gc.allocList.slots[..gc.allocList.size] || v.node in held
    }

    predicate AllLive(slots: seq<Value>, lo: nat, hi: nat)
      requires gc.allocList.size <= |gc.allocList.slots| && hi <= |slots|
      reads this, gc.allocList
    {
      forall k | lo <= k < hi :: IsLive(slots[k])
    }

    /** No object but itself refers to it, and no scanned slot but the top of the data stack. */
    predicate Unreferenced(obj: GcNode)
      requires gc.vm.Valid() && gc.vm.dataTop > 0 && gc.allocList.size <= |gc.allocList.slots|
      reads this, gc.vm, gc.allocList, gc.allocList.slots, held
    {
      var vm := gc.vm;
      && Ref(obj) !in vm.globals[..vm.globalsTop] && Ref(obj) !in vm.locals[..vm.localsTop]
      && Ref(obj) !in vm.dataStack[..vm.dataTop - 1]
      && (forall x | x in gc.allocList.slots[..gc.allocList.size] :: x == obj || Ref(obj) !in x.fields)
      && (forall x | x in held :: x == obj || Ref(obj) !in x.fields)
    }

    /**
     The instruction can be performed: it has its operands, it makes no slot scanned and loads no
     value that may be a freed object, and frees only what nothing refers to. Only an allocation
     may fail all the same.
     */
    predicate Allowed(op: Op)
      requires gc.vm.Valid() && gc.allocList.size <= |gc.allocList.slots|
      reads *
    {
      var s := State();
      HasOperands(op, s) &&
      match op
      case LoadGlobal(index) => IsLive(s.globals[index])
      case StoreGlobal(index) => AllLive(s.globals, s.globalsTop, index)
      case EnterFrame(num) => AllLive(s.locals, s.localsTop, s.localsTop + num)
      case LoadField(index) => index < |Last(s.data).node.fields|
      case StoreField(index) =>
        var obj, v := Last(s.data).node, s.data[|s.data| - 2];
        index < |obj.fields| && (v.Ref? ==> obj.managed && (obj.tag.Object? || (obj.tag.Array? && obj.elemsManaged)))
      case Deallocate => Unreferenced(Last(s.data).node)
      case _ => true
    }

    /** An allocation finds room, if need be after a collection. */
    ghost predicate HasRoom()
      requires gc.vm.Valid()
      reads gc, gc.vm, Targets(gc.vm.Scanned())`managed, gc.allocList
      reads gc.allocList.contents`tag, gc.allocList.contents`elemsManaged, gc.allocList.contents`fields
      reads gc.unmanaged`tag, gc.unmanaged`elemsManaged, gc.unmanaged`fields
    {
      |gc.Retained()| < gc.maxObjects
    }

    // ----- what an instruction does to the heap -----

    /** The objects are now these; those in `kept` hold what they held. */
    twostate predicate HeapBecomes(new managed: set<GcNode>, new unmanaged: set<GcNode>, kept: set<GcNode>)
      reads gc, gc.allocList, kept
    {
      && Members(gc.allocList.contents) == managed && gc.unmanaged == unmanaged
      && forall x | x in kept :: x.fields == old(x.fields)
    }

    twostate predicate HeapStays()
      reads *
    {
      HeapBecomes(old(Members(gc.allocList.contents)), old(gc.unmanaged), old(gc.Live()))
    }

    /** A new object, if there is room for one; all that a due collection leaves is as before. */
    twostate predicate Made(managed: bool, new node: GcNode?, tag: Tag, num: nat, elems: bool)
      requires old(gc.vm.Valid())
      reads *
    {
      var retained, unmanaged, made := old(gc.Retained()), old(gc.unmanaged), if node == null then {} else {node};
      && gc.isPaused == old(gc.isPaused) && (node != null <==> old(HasRoom()))
      && (node != null ==> node !in retained + unmanaged && IsNew(node, tag, num, elems))
      && if managed then HeapBecomes(retained + made, unmanaged, retained + unmanaged)
         else HeapBecomes(retained, unmanaged + made, retained + unmanaged)
    }

    /** Only new objects are added. */
    twostate predicate Grown()
      reads gc, gc.allocList, gc.freeList
    {
      forall x | x in Objects() :: x in old(Objects()) || fresh(x)
    }

    /** What a performed instruction does to the heap; `value` is what a field held, or the new object. */
    twostate predicate HeapAfter(op: Op, new value: Value)
      requires old(gc.vm.Valid()) && old(HasOperands(op, State()))
      reads *
    {
      var data, managed, unmanaged := old(State()).data, old(Members(gc.allocList.contents)), old(gc.unmanaged);
      && gc.isPaused == (if op.Pause? then op.on else old(gc.isPaused))
      && match op
         case LoadField(index) =>
           var before := old(Last(data).node.fields);
           HeapStays() && index < |before| && value == before[index]
         case StoreField(index) =>
           var obj := Last(data).node;
           HeapBecomes(managed, unmanaged, managed + unmanaged - {obj}) && index < |old(obj.fields)|
           && obj.fields == old(obj.fields)[index := data[|data| - 2]]
         case Allocate(tag, num, elems) =>
           value.Ref? && Made(true, value.node, tag, num, elems)
         case AllocateUnmanaged(tag, num, elems) =>
           value.Ref? && Made(false, value.node, tag, num, elems)
         case Deallocate =>
           var obj := Last(data).node;
           obj.free && HeapBecomes(managed - {obj}, unmanaged - {obj}, managed + unmanaged - {obj})
         case Collect => HeapBecomes(old(gc.Kept()), unmanaged, old(gc.Kept()) + unmanaged)
         case _ => HeapStays()
    }

    /** An instruction that is not performed changes no slot; a failed allocation may have collected. */
    twostate predicate Performed(op: Op, done: bool, new value: Value)
      requires old(gc.vm.Valid() && gc.allocList.size <= |gc.allocList.slots|) && gc.vm.Valid()
      reads *
    {
      var allocates := op.Allocate? || op.AllocateUnmanaged?;
      && (done <==> old(Allowed(op)) && (allocates ==> old(HasRoom())))
      && (done ==> State() == After(op, old(State()), value) && HeapAfter(op, value))
      && (!done ==> State() == old(State()) && gc.isPaused == old(gc.isPaused))
      && (!done ==> var managed := if allocates then old(gc.Retained()) else old(Members(gc.allocList.contents));
                    HeapBecomes(managed, old(gc.unmanaged), managed + old(gc.unmanaged)))
    }

    /** The test on slots is the liveness of what they hold. */
    lemma LiveIs(v: Value)
      requires Valid()
      ensures IsLive(v) <==> (v.Ref? ==> v.node in gc.Live())
    {
    }

    lemma AllLiveIs(slots: seq<Value>, lo: nat, hi: nat)
      requires Valid() && lo <= hi <= |slots| && Targets(slots[..lo]) <= gc.Live()
      ensures AllLive(slots, lo, hi) <==> Targets(slots[..hi]) <= gc.Live()
    {
      hide MalangGC.Live;
      forall k | 0 <= k < hi ensures IsLive(slots[k]) <==> (slots[k].Ref? ==> slots[k].node in gc.Live()) {
        LiveIs(slots[k]);
      }
      forall k | 0 <= k < lo ensures slots[k] in slots[..lo] { assert slots[..lo][k] == slots[k]; }
      forall k | 0 <= k < hi ensures slots[k] in slots[..hi] { assert slots[..hi][k] == slots[k]; }
    }

    // ----- the slots -----

    method Push(v: Value)
      requires Valid() && (v.Ref? ==> v.node in gc.Live())
      modifies gc.vm
      ensures Valid() && State() == old(State()).(data := old(State()).data + [v])
    {
      hide MalangGC.ListsOk, MalangGC.HeapOk, MalangGC.AllWhite, MalangGC.CountsOk, Members;
      var vm := gc.vm;
      vm.dataStack :=
        vm.dataStack[..vm.dataTop] + [v] + (if vm.dataTop < |vm.dataStack| then vm.dataStack[vm.dataTop + 1..] else []);
      vm.dataTop := vm.dataTop + 1;
    }

    /** Popping only lowers the top. */
    method Pop() returns (v: Value)
      requires Valid() && gc.vm.dataTop > 0
      modifies gc.vm`dataTop
      ensures Valid() && (v.Ref? ==> v.node in gc.Live())
      ensures v == Last(old(State()).data) && State() == old(State()).(data := Front(old(State()).data))
    {
      hide MalangGC.ListsOk, MalangGC.HeapOk, MalangGC.AllWhite, MalangGC.CountsOk, Members;
      v := gc.vm.dataStack[gc.vm.dataTop - 1];
      assert v in gc.vm.Scanned();
      gc.vm.dataTop := gc.vm.dataTop - 1;
      assert forall w | w in gc.vm.Scanned() :: w in old(gc.vm.Scanned());
    }

    method StoreGlobal(index: nat)
      requires Valid() && Allowed(Op.StoreGlobal(index))
      modifies gc.vm
      ensures Valid() && State() == After(Op.StoreGlobal(index), old(State()), Data(0))
      ensures gc.vm.globals[index] == old(gc.vm.dataStack[gc.vm.dataTop - 1])
      ensures gc.vm.globalsTop == if index > old(gc.vm.globalsTop) then index else old(gc.vm.globalsTop)
    {
      hide MalangGC.ListsOk, MalangGC.HeapOk, MalangGC.AllWhite, MalangGC.CountsOk, MalangGC.Live, Targets,
           VmSlots.Scanned, IsLive;
      var vm := gc.vm;
      gc.RootsScanned();
      var top := if index > vm.globalsTop then index else vm.globalsTop;
      if index > vm.globalsTop { AllLiveIs(vm.globals, vm.globalsTop, index); }
      var v := Pop();
      StoredLive(vm.globals, index, v, top, gc.Live());
      gc.RootsScanned();
      vm.globalsTop, vm.globals := top, vm.globals[index := v];
      gc.RootsScanned();
    }

    method StoreLocal(index: nat)
      requires Valid() && Allowed(Op.StoreLocal(index))
      modifies gc.vm
      ensures Valid() && State() == After(Op.StoreLocal(index), old(State()), Data(0))
    {
      hide MalangGC.ListsOk, MalangGC.HeapOk, MalangGC.AllWhite, MalangGC.CountsOk, MalangGC.Live, Targets,
           VmSlots.Scanned, IsLive;
      var vm := gc.vm;
      var v := Pop();
      var at := vm.frames[|vm.frames| - 1] + index;
      gc.RootsScanned();
      StoredLive(vm.locals, at, v, vm.localsTop, gc.Live());
      vm.locals := vm.locals[at := v];
      gc.RootsScanned();
    }

    /** A call's frame: its slots hold what earlier calls left in them. */
    method EnterFrame(num: nat)
      requires Valid() && Allowed(Op.EnterFrame(num))
      modifies gc.vm
      ensures Valid() && State() == After(Op.EnterFrame(num), old(State()), Data(0))
    {
      hide MalangGC.ListsOk, MalangGC.HeapOk, MalangGC.AllWhite, MalangGC.CountsOk, MalangGC.Live, Targets,
           VmSlots.Scanned, IsLive;
      var vm := gc.vm;
      gc.RootsScanned();
      AllLiveIs(vm.locals, vm.localsTop, vm.localsTop + num);
      vm.frames, vm.localsTop := vm.frames + [vm.localsTop], vm.localsTop + num;
      gc.RootsScanned();
    }

    method LeaveFrame()
      requires Valid() && Allowed(Op.LeaveFrame)
      modifies gc.vm
      ensures Valid() && State() == After(Op.LeaveFrame, old(State()), Data(0))
    {
      hide MalangGC.ListsOk, MalangGC.HeapOk, MalangGC.AllWhite, MalangGC.CountsOk, MalangGC.Live, Targets,
           VmSlots.Scanned, IsLive;
      var vm := gc.vm;
      gc.RootsScanned();
      var top := vm.frames[|vm.frames| - 1];
      FewerTargets(vm.locals, top, vm.localsTop);
      vm.localsTop, vm.frames := top, vm.frames[..|vm.frames| - 1];
      gc.RootsScanned();
    }

    // ----- the heap -----

    method LoadField(index: nat) returns (value: Value)
      requires Valid() && Allowed(Op.LoadField(index))
      modifies gc.vm
      ensures Valid() && Performed(Op.LoadField(index), true, value)
    {
      hide MalangGC.ListsOk, MalangGC.AllWhite, MalangGC.CountsOk, RefersTo;
      var obj := Pop();
      value := obj.node.fields[index];
      FieldIsLive(gc, obj.node, index);
      Push(value);
    }

    method StoreField(index: nat)
      requires Valid() && Allowed(Op.StoreField(index))
      modifies gc.vm, gc.Live()`fields
      ensures Valid() && Performed(Op.StoreField(index), true, Data(0))
    {
      hide MalangGC.ListsOk, MalangGC.HeapOk, MalangGC.AllWhite, MalangGC.CountsOk;
      var obj := Pop();
      var v := Pop();
      gc.Unlisted(obj.node);
      gc.StoreField(obj.node, index, v);
    }

    /** A new managed object, which may be one that the collection has just freed. */
    method NewManaged(tag: Tag, num: nat, elems: bool) returns (node: GcNode?)
      requires Valid()
      modifies gc, gc.allocList, gc.freeList, Objects()
      ensures gc.vm.Valid() && gc.Valid() && gc.unmanaged == old(gc.unmanaged) && Grown()
      ensures Made(true, node, tag, num, elems)
    {
      hide MalangGC.ListsOk, MalangGC.HeapOk, MalangGC.RootsOk, MalangGC.AllWhite, MalangGC.CountsOk, MalangGC.Kept,
           MalangGC.Retained, IsNew, GcList.Valid, VmSlots.Scanned, Targets, Members, MalangGC.Nodes;
      Apart();
      node := gc.Allocate(tag, num, elems);
    }

    method NewUnmanaged(tag: Tag, num: nat, elems: bool) returns (node: GcNode?)
      requires Valid()
      modifies gc, gc.allocList, gc.freeList, Objects()
      ensures gc.vm.Valid() && gc.Valid() && held == old(gc.unmanaged) && Grown() && Made(false, node, tag, num, elems)
    {
      hide MalangGC.ListsOk, MalangGC.HeapOk, MalangGC.RootsOk, MalangGC.AllWhite, MalangGC.CountsOk, MalangGC.Kept,
           MalangGC.Retained, IsNew, GcList.Valid, VmSlots.Scanned, Targets, Members, MalangGC.Nodes;
      Apart();
      node := gc.AllocateUnmanaged(tag, num, elems);
      assert forall x | x in old(gc.unmanaged) :: x.fields == old(x.fields);
      assert forall x | x in old(gc.Retained()) :: x.fields == old(x.fields);
    }

    /** Allocates and pushes the new object. */
    method Allocate(tag: Tag, num: nat, elems: bool) returns (done: bool, value: Value)
      requires Valid()
      modifies gc, gc.vm, gc.allocList, gc.freeList, Objects()
      ensures Valid() && Grown() && Performed(Op.Allocate(tag, num, elems), done, value)
    {
      hide MalangGC.Valid, MalangGC.Kept, MalangGC.Retained, HasRoom, IsNew;
      var node := NewManaged(tag, num, elems);
      done, value := node != null, Data(0);
      if done {
        value := Ref(node);
        Push(value);
      }
    }

    method AllocateUnmanaged(tag: Tag, num: nat, elems: bool) returns (done: bool, value: Value)
      requires Valid()
      modifies this, gc, gc.vm, gc.allocList, gc.freeList, Objects()
      ensures Valid() && Grown() && Performed(Op.AllocateUnmanaged(tag, num, elems), done, value)
    {
      hide MalangGC.Valid, MalangGC.Kept, MalangGC.Retained, HasRoom, IsNew;
      var node := NewUnmanaged(tag, num, elems);
      done, value := node != null, Data(0);
      if done {
        value := Ref(node);
        held := held + {node};
        Push(value);
      }
    }

    /** Unmanaged objects are in no list. */
    lemma Apart()
      requires gc.vm.Valid() && gc.Valid()
      ensures forall x | x in gc.unmanaged :: x !in gc.Nodes()
      ensures forall x | x in gc.Retained() :: x in gc.allocList.contents
    {
      hide MalangGC.HeapOk, MalangGC.RootsOk, MalangGC.AllWhite, MalangGC.CountsOk;
      forall x | x in gc.unmanaged ensures x !in gc.Nodes() { gc.Unlisted(x); }
    }

    method Collect()
      requires Valid()
      modifies gc, gc.allocList, gc.freeList, Objects()
      ensures Valid() && Objects() <= old(Objects()) && Performed(Op.Collect, true, Data(0))
    {
      hide MalangGC.ListsOk, MalangGC.HeapOk, MalangGC.RootsOk, MalangGC.AllWhite, MalangGC.CountsOk, MalangGC.Kept;
      Apart();
      gc.Collect();
      FewerNodes(gc.allocList.contents, gc.freeList.contents, old(gc.allocList.contents), old(gc.freeList.contents));
    }

    lemma NotTarget(obj: GcNode)
      requires Valid()
      requires Ref(obj) !in gc.vm.globals[..gc.vm.globalsTop] && Ref(obj) !in gc.vm.locals[..gc.vm.localsTop]
      requires Ref(obj) !in gc.vm.dataStack[..gc.vm.dataTop]
      requires forall x | x in gc.allocList.slots[..gc.allocList.size] :: x == obj || Ref(obj) !in x.fields
      requires forall x | x in held :: x == obj || Ref(obj) !in x.fields
      ensures obj !in Targets(gc.vm.Scanned()) && forall x | x in gc.Live() && x != obj :: obj !in Targets(x.fields)
    {
    }

    method Free(obj: GcNode)
      requires Valid() && obj in gc.Live()
      requires obj !in Targets(gc.vm.Scanned()) && forall x | x in gc.Live() && x != obj :: obj !in Targets(x.fields)
      modifies this`held, gc, gc.allocList, gc.freeList, Objects()
      ensures Objects() <= old(Objects()) && gc.isPaused == old(gc.isPaused) && obj.free
      ensures HeapBecomes(old(Members(gc.allocList.contents)) - {obj}, old(gc.unmanaged) - {obj},
                          old(gc.Live()) - {obj})
      ensures Valid()
    {
      hide MalangGC.ListsOk, MalangGC.HeapOk, MalangGC.RootsOk, MalangGC.AllWhite, MalangGC.CountsOk, VmSlots.Scanned,
           Targets;
      gc.Unlisted(obj);
      gc.Deallocate(obj);
      held := held - {obj};
    }

    /** Frees the object on the data stack, to which nothing else refers. */
    method Deallocate()
      requires Valid() && Allowed(Op.Deallocate)
      modifies this, gc, gc.vm, gc.allocList, gc.freeList, Objects()
      ensures Valid() && Objects() <= old(Objects()) && Performed(Op.Deallocate, true, Data(0))
    {
      hide MalangGC.ListsOk, MalangGC.HeapOk, MalangGC.RootsOk, MalangGC.AllWhite, MalangGC.CountsOk, VmSlots.Scanned,
           Targets;
      var obj := Pop();
      NotTarget(obj.node);
      Free(obj.node);
    }

    // ----- programs -----

    /** An instruction that only changes the data stack. */
    method PerformOnStack(op: Op)
      requires Valid() && (op.PushFixnum? || op.Discard? || op.LoadGlobal? || op.LoadLocal?) && Allowed(op)
      modifies gc.vm
      ensures Valid() && Performed(op, true, Data(0))
    {
      hide MalangGC.Valid, MalangGC.Kept, MalangGC.Retained, HasRoom, IsNew;
      match op
      case PushFixnum(n) => Push(Data(n));
      case Discard => var _ := Pop();
      case LoadGlobal(index) =>
        LiveIs(gc.vm.globals[index]);
        Push(gc.vm.globals[index]);
      case LoadLocal(index) =>
        LocalIsLive(index);
        Push(gc.vm.locals[gc.vm.frames[|gc.vm.frames| - 1] + index]);
    }

    /** An instruction that changes globals, locals or frames. */
    method PerformOnSlots(op: Op)
      requires Valid() && (op.StoreGlobal? || op.StoreLocal? || op.EnterFrame? || op.LeaveFrame?) && Allowed(op)
      modifies gc.vm
      ensures Valid() && Performed(op, true, Data(0))
    {
      hide MalangGC.Valid, MalangGC.Kept, MalangGC.Retained, HasRoom, IsNew;
      match op
      case StoreGlobal(index) => StoreGlobal(index);
      case StoreLocal(index) => StoreLocal(index);
      case EnterFrame(num) => EnterFrame(num);
      case LeaveFrame => LeaveFrame();
    }

    method Pause(on: bool)
      requires Valid()
      modifies gc
      ensures Valid() && Objects() == old(Objects()) && Performed(Op.Pause(on), true, Data(0))
    {
      hide MalangGC.Valid, MalangGC.Kept, MalangGC.Retained, HasRoom, IsNew;
      gc.SetPaused(on);
    }

    /**
     One instruction. It is performed exactly if it is allowed and, for an allocation, there is
     room; then slots and heap are as the instruction says. The invariant is kept in any case.
     */
    method Perform(op: Op) returns (done: bool, value: Value)
      requires Valid()
      modifies this, gc, gc.vm, gc.allocList, gc.freeList, Objects()
      ensures Valid() && Grown() && Performed(op, done, value)
    {
      hide MalangGC.Valid, MalangGC.Kept, MalangGC.Retained, HasRoom, IsNew, Made, After, HeapAfter;
      ListIsOk();
      value := Data(0);
      done := Allowed(op);
      if !done { return; }
      match op
      case LoadField(index) => value := LoadField(index);
      case StoreField(index) => StoreField(index);
      case Allocate(tag, num, elems) => done, value := Allocate(tag, num, elems);
      case AllocateUnmanaged(tag, num, elems) => done, value := AllocateUnmanaged(tag, num, elems);
      case Deallocate => Deallocate();
      case Collect => Collect();
      case Pause(on) => Pause(on);
      case PushFixnum(_) => PerformOnStack(op);
      case Discard => PerformOnStack(op);
      case LoadGlobal(_) => PerformOnStack(op);
      case LoadLocal(_) => PerformOnStack(op);
      case _ => PerformOnSlots(op);
    }

    lemma ListIsOk()
      requires Valid()
      ensures gc.allocList.size <= |gc.allocList.slots|
    {
    }

    /** Which instructions are allowed, by the VM's registers and the live objects. */
    lemma AllowedMeans(op: Op)
      requires Valid()
      ensures Allowed(op) <==>
                var vm, n := gc.vm, gc.vm.dataTop;
                match op
                case Discard => n > 0
                case LoadGlobal(i) => i < |vm.globals| && MayHold(vm.globals[i])
                case StoreGlobal(i) =>
                  n > 0 && i < |vm.globals| && forall k | vm.globalsTop <= k < i :: MayHold(vm.globals[k])
                case LoadLocal(i) => vm.frames != [] && vm.frames[|vm.frames| - 1] + i < vm.localsTop
                case StoreLocal(i) => n > 0 && vm.frames != [] && vm.frames[|vm.frames| - 1] + i < vm.localsTop
                case EnterFrame(num) =>
                  && vm.localsTop + num <= |vm.locals|
                  && forall k | vm.localsTop <= k < vm.localsTop + num :: MayHold(vm.locals[k])
                case LeaveFrame => vm.frames != []
                case LoadField(i) =>
                  n > 0 && vm.dataStack[n - 1].Ref? && i < |vm.dataStack[n - 1].node.fields|
                case StoreField(i) =>
                  n > 1 && vm.dataStack[n - 1].Ref? &&
                  var obj := vm.dataStack[n - 1].node;
                  i < |obj.fields|
                  && (vm.dataStack[n - 2].Ref? ==>
                        obj.managed && (obj.tag.Object? || (obj.tag.Array? && obj.elemsManaged)))
                case Deallocate =>
                  n > 0 && vm.dataStack[n - 1].Ref? &&
                  var obj := vm.dataStack[n - 1].node;
                  obj !in Targets(vm.globals[..vm.globalsTop] + vm.locals[..vm.localsTop] + vm.dataStack[..n - 1])
                  && forall x | x in gc.Live() && x != obj :: obj !in Targets(x.fields)
                case _ => true
    {
      hide MalangGC.HeapOk, MalangGC.RootsOk, MalangGC.AllWhite, MalangGC.CountsOk;
      forall v ensures IsLive(v) <==> MayHold(v) { LiveIs(v); }
    }

    /** The value is data or a live object. */
    ghost predicate MayHold(v: Value)
      reads gc, gc.allocList
    {
      v.Ref? ==> v.node in gc.Live()
    }

    /** A program, instruction by instruction; those that are not allowed are passed over. */
    method Run(ops: seq<Op>) returns (done: seq<bool>)
      requires Valid()
      modifies this, gc, gc.vm, gc.allocList, gc.freeList, Objects()
      ensures Valid() && |done| == |ops|
      ensures forall x | Reachable(gc.Graph(), Targets(gc.vm.Scanned()), x) :: x in gc.Live() && !x.free
    {
      hide MalangGC.Valid, Objects, VmSlots.Valid, Performed;
      done := [];
      while |done| < |ops|
        invariant |done| <= |ops| && Valid() && Grown()
      {
        var did, _ := Perform(ops[|done|]);
        done := done + [did];
      }
      forall x | Reachable(gc.Graph(), Targets(gc.vm.Scanned()), x) ensures x in gc.Live()
      && !x.free { NothingDangles(x); }
    }

    lemma LocalIsLive(index: nat)
      requires Valid() && IsLocal(State(), index)
      ensures var v := gc.vm.locals[gc.vm.frames[|gc.vm.frames| - 1] + index]; v.Ref? ==> v.node in gc.Live()
    {
      hide MalangGC.ListsOk, MalangGC.HeapOk, MalangGC.AllWhite, MalangGC.CountsOk, MalangGC.Live;
      var vm := gc.vm;
      var at := vm.frames[|vm.frames| - 1] + index;
      assert vm.locals[at] in vm.Scanned() by { assert vm.locals[..vm.localsTop][at] == vm.locals[at]; }
    }

    /** Whatever can be reached from the scanned slots is live, and no live object is free. */
    lemma NothingDangles(x: GcNode)
      requires Valid() && Reachable(gc.Graph(), Targets(gc.vm.Scanned()), x)
      ensures x in gc.Live() && !x.free && x !in gc.freeList.contents
    {
      hide MalangGC.AllWhite, MalangGC.CountsOk, VmSlots.Scanned;
      var g, roots := gc.Graph(), Targets(gc.vm.Scanned());
      var r :| r in roots && HeapGraph.Reaches(g, r, x);
      var n: nat :| ReachesIn(g, r, x, n);
      ClosedKeeps(g, gc.Live(), r, x, n);
      gc.Unlisted(x);
    }

    /**
     Entering a frame makes more locals scanned. That keeps every root live exactly if the slots
     hold no freed object: they are not cleared, and what a call left in them may have been freed
     since it returned.
     */
    lemma FrameExact(num: nat)
      requires Valid() && gc.vm.localsTop + num <= |gc.vm.locals|
      ensures var vm := gc.vm;
              AllLive(vm.locals, vm.localsTop, vm.localsTop + num)
              <==> Targets(vm.globals[..vm.globalsTop] + vm.locals[..vm.localsTop + num] + vm.dataStack[..vm.dataTop])
                   <= gc.Live()
    {
      hide MalangGC.ListsOk, MalangGC.HeapOk, MalangGC.AllWhite, MalangGC.CountsOk, MalangGC.Live;
      var vm := gc.vm;
      gc.RootsScanned();
      AllLiveIs(vm.locals, vm.localsTop, vm.localsTop + num);
    }

    /** The same for a store to a global above all earlier ones, which makes those in between scanned. */
    lemma GlobalsExact(index: nat)
      requires Valid() && gc.vm.globalsTop <= index <= |gc.vm.globals|
      ensures var vm := gc.vm;
              AllLive(vm.globals, vm.globalsTop, index)
              <==> Targets(vm.globals[..index] + vm.locals[..vm.localsTop] + vm.dataStack[..vm.dataTop]) <= gc.Live()
    {
      hide MalangGC.ListsOk, MalangGC.HeapOk, MalangGC.AllWhite, MalangGC.CountsOk, MalangGC.Live;
      var vm := gc.vm;
      gc.RootsScanned();
      AllLiveIs(vm.globals, vm.globalsTop, index);
    }

    /**
     A program that comes to such a slot: a call stores a new object in a local and returns, a
     collection frees the object, and the next call's frame would scan the slot again.
     */
    method StaleLocal()
      requires gc.vm.globalsTop == 0 && gc.vm.localsTop == 0 && gc.vm.frames == [] && gc.vm.dataTop == 0
      requires |gc.vm.locals| > 0 && gc.vm.locals[0].Data? && gc.unmanaged == {}
      requires Valid() && HasRoom()
      modifies this, gc, gc.vm, gc.allocList, gc.freeList, Objects()
      ensures gc.vm.Valid() && gc.allocList.size <= |gc.allocList.slots| && !Allowed(Op.EnterFrame(1))
      ensures Valid()
    {
      hide MalangGC.Valid, MalangGC.Retained, HasRoom, IsNew, MalangGC.Kept, MalangGC.Nodes, Objects;
      var value := LeaveInLocal();
      NothingKept();
      Collect();
      ListIsOk();
      LiveIs(value);
      assert State().locals[0] == value && !IsLive(value);
      assert !AllLive(State().locals, 0, 1);
    }

    /** A call that stores a new object in its only local. */
    method LeaveInLocal() returns (value: Value)
      requires gc.vm.localsTop == 0 && gc.vm.frames == [] && gc.vm.dataTop == 0 && |gc.vm.locals| > 0
      requires gc.vm.locals[0].Data?
      requires Valid() && HasRoom()
      modifies this, gc, gc.vm, gc.allocList, gc.freeList, Objects()
      ensures Valid() && Grown() && value.Ref? && gc.unmanaged == old(gc.unmanaged)
      ensures State() == old(State()).(locals := old(gc.vm.locals)[0 := value])
    {
      hide MalangGC.Valid, MalangGC.Retained, HasRoom, IsNew, MalangGC.Kept, HeapStays, MalangGC.Live;
      var did;
      did, value := Allocate(Tag.Object, 0, false);
      EnterFrame(1);
      StoreLocal(0);
      LeaveFrame();
    }

    lemma NothingKept()
      requires Valid() && gc.vm.localsTop == 0 && gc.vm.dataTop == 0 && gc.vm.globalsTop == 0
      ensures gc.Kept() == {}
    {
      assert gc.Roots() == {};
    }
  }

  /** A stored live value leaves the slots below `top` live. */
  lemma StoredLive(slots: seq<Value>, at: nat, v: Value, top: nat, live: set<GcNode>)
    requires at < |slots| && top <= |slots| && Targets(slots[..top]) <= live && (v.Ref? ==> v.node in live)
    ensures Targets(slots[at := v][..top]) <= live
  {
    forall x | x in Targets(slots[at := v][..top]) ensures x in live {
      var k :| 0 <= k < top && slots[at := v][..top][k] == Ref(x);
      if k != at { assert slots[..top][k] == Ref(x); }
    }
  }

  lemma FewerTargets(slots: seq<Value>, lo: nat, hi: nat)
    requires lo <= hi <= |slots|
    ensures Targets(slots[..lo]) <= Targets(slots[..hi])
  {
    assert slots[..lo] == slots[..hi][..lo];
  }

  lemma FieldIsLive(gc: MalangGC, x: GcNode, index: nat)
    requires gc.HeapOk() && x in gc.Live() && index < |x.fields|
    ensures x.fields[index].Ref? ==> x.fields[index].node in gc.Live()
  {
    assert x.fields[index].Ref? ==> x.fields[index].node in Targets(x.fields);
  }
}
