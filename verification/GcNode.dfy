/** Collectable nodes, the recursive marking of what they refer to, and the lists that hold them. */
module GcNodes {
  import opened HeapGraph

  datatype Color = White | Grey | Black

  datatype Tag = Object | Array | Buffer

  /** A slot's content: `Data` stands for every value that is no object. */
  datatype Value = Data(n: int) | Ref(node: GcNode)

  /** The lookup index of a node that is in no list. */
  const MAGIC_INDEX := -1

  class GcNode {
    var magic: GcList?
    var managed: bool
    var lookupIndex: int
    var free: bool
    var color: Color
    var tag: Tag
    var elemsManaged: bool
    var fields: seq<Value>

    constructor ()
      ensures magic == null && !managed && lookupIndex == MAGIC_INDEX && fields == []
    {
      magic, managed, lookupIndex := null, false, MAGIC_INDEX;
      free, color, tag, elemsManaged, fields := false, White, Object, false, [];
    }

    /** The slots that marking looks into: fields, and elements of arrays of collectable type. */
    ghost function Scanned(): seq<Value>
      reads this`tag, this`elemsManaged, this`fields
    {
      if tag.Object? || (tag.Array? && elemsManaged) then fields else []
    }

    ghost function Kids(): set<GcNode>
      reads this`tag, this`elemsManaged, this`fields
    {
      set v | v in Scanned() && v.Ref? :: v.node
    }

    /**
     Depth-first marking. What was white and gets coloured ends black, is reachable from here
     and has no white child left; nothing else changes colour.
     */
    method GcMark(ghost g: map<GcNode, set<GcNode>>)
      requires this in g && HeapIs(g)
      requires forall x | x in g :: !x.free
      modifies g.Keys`color
      ensures color != White
      ensures forall x | x in g && old(x.color) != White :: x.color == old(x.color)
      ensures forall x | x in g && old(x.color) == White && x.color != White :: Finished(g, this, x)
      decreases Whites(g), 0
    {
      hide Reaches;
      ghost var whites := Whites(g);
      ReachesSelf(g, this);
      if tag.Buffer? {
        color := Black;
        return;
      }
      if color != White { return; }
      color := Grey;
      if tag.Object? || elemsManaged {
        var i := 0;
        while i < |fields|
          invariant i <= |fields| && color == Grey
          invariant forall j | 0 <= j < i && fields[j].Ref? :: fields[j].node.color != White
          invariant forall x | x in g && old(x.color) != White :: x.color == old(x.color)
          invariant forall x | x in g && x != this && old(x.color) == White && x.color != White :: Finished(g, this, x)
        {
          var value := fields[i];
          if value.Ref? {
            assert value in Scanned() && value.node in Kids();
            assert Whites(g) < whites by { assert this in whites && this !in Whites(g); }
            MarkChild(value.node, g);
          }
          i := i + 1;
        }
      }
      color := Black;
      assert forall v | v in Scanned() && v.Ref? :: v.node.color != White;
    }

    /** Marking goes on at a child; what it finishes with is reachable from here. */
    method MarkChild(child: GcNode, ghost g: map<GcNode, set<GcNode>>)
      requires this in g && HeapIs(g) && child in g[this]
      requires forall x | x in g :: !x.free
      modifies g.Keys`color
      ensures child.color != White
      ensures forall x | x in g && old(x.color) != White :: x.color == old(x.color)
      ensures forall x | x in g && old(x.color) == White && x.color != White :: Finished(g, this, x)
      decreases Whites(g), 1
    {
      hide Reaches;
      child.GcMark(g);
      forall x | x in g && Reaches(g, child, x) ensures Reaches(g, this, x) { ReachesAfter(g, this, child, x); }
    }
  }

  ghost function Whites(g: map<GcNode, set<GcNode>>): set<GcNode>
    reads g.Keys`color
  {
    set x | x in g && x.color == White
  }

  /** A node that marking from `from` is done with. */
  ghost predicate Finished(g: map<GcNode, set<GcNode>>, from: GcNode, x: GcNode)
    reads x`color, g.Keys`color
    requires x in g
  {
    x.color == Black && Reaches(g, from, x) && forall y | y in g[x] && y in g :: y.color != White
  }

  /** `g` is the heap: every node's children, all of them in `g`. No buffer is half-marked. */
  ghost predicate HeapIs(g: map<GcNode, set<GcNode>>)
    reads g.Keys`tag, g.Keys`elemsManaged, g.Keys`fields, g.Keys`color
  {
    forall x | x in g :: g[x] == x.Kids() && g[x] <= g.Keys && (x.tag.Buffer? ==> x.color != Grey)
  }

  /** A vector of nodes; popping only lowers `size`, the slots beyond it keep what they held. */
  class GcList {
    var slots: seq<GcNode>
    var size: nat
    /** The listed nodes: the slots below `size`. */
    ghost var contents: seq<GcNode>

    constructor ()
      ensures Valid() && contents == []
    {
      slots, size, contents := [], 0, [];
    }

    /** Every listed node knows its list and its index. */
    ghost predicate Valid()
      reads this, contents`magic, contents`managed, contents`lookupIndex
    {
      && size <= |slots| && contents == slots[..size]
      && (forall i | 0 <= i < |contents| ::
            contents[i].magic == this && contents[i].managed && contents[i].lookupIndex == i)
    }

    /** `x` lies at the index it says. */
    ghost predicate Has(x: GcNode)
      reads this`contents, x`lookupIndex
    {
      0 <= x.lookupIndex < |contents| && contents[x.lookupIndex] == x
    }

    ghost function Back(): GcNode
      requires contents != []
      reads this`contents
    {
      contents[|contents| - 1]
    }

    method Append(node: GcNode)
      requires Valid() && node.lookupIndex == MAGIC_INDEX && node.managed
      modifies this, node`magic, node`lookupIndex
      ensures Valid() && contents == old(contents) + [node] && node.magic == this
    {
      assert forall i | 0 <= i < size :: slots[i] != node;
      node.magic := this;
      node.lookupIndex := size;
      if size < |slots| {
        slots := slots[size := node];
      } else {
        slots := slots + [node];
      }
      size := size + 1;
      contents := contents + [node];
    }

    /** Swap-removal: the last node takes the place of the removed one. */
    method Remove(node: GcNode)
      requires Valid() && node in contents
      modifies this, node`magic, node`lookupIndex, Back()`lookupIndex
      ensures Valid() && |contents| == |old(contents)| - 1
      ensures contents == SwapRemoved(old(contents), old(node.lookupIndex))
      ensures forall x | x in contents :: x in old(contents)
      ensures forall x | x in old(contents) && x != node ::
                Has(x) && (x.lookupIndex == old(x.lookupIndex) || x.lookupIndex == old(node.lookupIndex))
      ensures |slots| == |old(slots)|
      ensures forall j | 0 <= j < |slots| && j != old(node.lookupIndex) :: slots[j] == old(slots[j])
      ensures node.lookupIndex == MAGIC_INDEX && node.magic == null
    {
      var index := node.lookupIndex;
      slots := slots[index := slots[size - 1]];
      slots[index].lookupIndex := index;
      size := size - 1;
      node.lookupIndex := MAGIC_INDEX;
      node.magic := null;
      contents := slots[..size];
    }

    method Pop() returns (node: GcNode?)
      requires Valid()
      modifies this`size, this`contents
      modifies (if contents == [] then {} else {Back()})`magic, (if contents == [] then {} else {Back()})`lookupIndex
      ensures Valid() && (node == null <==> old(contents) == [])
      ensures node == null ==> contents == []
      ensures node != null ==>
                old(contents) == contents + [node] && node.lookupIndex == MAGIC_INDEX && node.magic == null
                && node.managed
    {
      if size == 0 { return null; }
      node := slots[size - 1];
      size := size - 1;
      node.lookupIndex := MAGIC_INDEX;
      node.magic := null;
      contents := slots[..size];
    }
  }

  ghost function SwapRemoved(list: seq<GcNode>, index: int): seq<GcNode>
    requires 0 <= index < |list|
  {
    list[index := list[|list| - 1]][..|list| - 1]
  }
}
