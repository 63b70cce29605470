/**
 * The control-flow graph as a value: a map from label to basic block, each
 * block holding its instructions and its predecessor and successor labels.
 * The graph type (crab/cfg.hpp) is not part of this model; its operations
 * insert-or-get, `>>` (add an edge), `-=` (remove an edge) and appending an
 * instruction are defined here.
 */
module CfgGraph {
  import opened Labels
  import opened Instructions

  datatype Block = Block(insts: seq<Instruction>, prev: set<Label>, next: set<Label>)

  const EmptyBlock: Block := Block([], {}, {})

  datatype Cfg = Cfg(blocks: map<Label, Block>) {

    predicate Edge(a: Label, b: Label)
    {
      a in blocks && b in blocks[a].next
    }

    /** Edges only join existing blocks, and the two adjacency views agree. */
    predicate WellFormed()
    {
      && EntryLabel in blocks && ExitLabel in blocks
      && (forall a, b :: a in blocks && b in blocks[a].next ==> b in blocks && a in blocks[b].prev)
      && (forall a, b :: b in blocks && a in blocks[b].prev ==> a in blocks && b in blocks[a].next)
    }

    function Insts(l: Label): seq<Instruction>
      requires l in blocks
    {
      blocks[l].insts
    }

    function Next(l: Label): set<Label>
      requires l in blocks
    {
      blocks[l].next
    }

    function Prev(l: Label): set<Label>
      requires l in blocks
    {
      blocks[l].prev
    }

    /** cfg.insert(label): the existing block, or a new empty one. */
    function Insert(l: Label): (g: Cfg)
      ensures g.blocks.Keys == blocks.Keys + {l}
      ensures l in blocks ==> g == this
      ensures l !in blocks ==> g.blocks[l] == EmptyBlock
      ensures forall x :: x in blocks ==> x in g.blocks && g.blocks[x] == blocks[x]
      ensures forall x, y :: g.Edge(x, y) <==> Edge(x, y)
      ensures WellFormed() ==> g.WellFormed()
    {
      if l in blocks then this else Cfg(blocks[l := EmptyBlock])
    }

    /** `a >> b`: add the edge a -> b. */
    function AddEdge(a: Label, b: Label): (g: Cfg)
      requires a in blocks && b in blocks
      ensures g.blocks.Keys == blocks.Keys
      ensures forall x :: x in blocks ==> g.blocks[x].insts == blocks[x].insts
      ensures forall x, y :: g.Edge(x, y) <==> Edge(x, y) || (x == a && y == b)
      ensures forall x :: x in blocks ==> g.blocks[x].prev == blocks[x].prev + (if x == b then {a} else {})
    {
      var m := blocks[a := blocks[a].(next := blocks[a].next + {b})];
      Cfg(m[b := m[b].(prev := m[b].prev + {a})])
    }

    /** `a -= b`: remove the edge a -> b. */
    function RemoveEdge(a: Label, b: Label): (g: Cfg)
      requires a in blocks && b in blocks
      ensures g.blocks.Keys == blocks.Keys
      ensures forall x :: x in blocks ==> g.blocks[x].insts == blocks[x].insts
      ensures forall x, y :: g.Edge(x, y) <==> Edge(x, y) && !(x == a && y == b)
      ensures forall x :: x in blocks ==> g.blocks[x].prev == blocks[x].prev - (if x == b then {a} else {})
    {
      var m := blocks[a := blocks[a].(next := blocks[a].next - {b})];
      Cfg(m[b := m[b].(prev := m[b].prev - {a})])
    }

    lemma AddEdgeWellFormed(a: Label, b: Label)
      requires WellFormed() && a in blocks && b in blocks
      ensures AddEdge(a, b).WellFormed()
    {
      var g := AddEdge(a, b);
      forall x, y | x in g.blocks && y in g.blocks[x].next
        ensures y in g.blocks && x in g.blocks[y].prev
      {
        assert g.Edge(x, y);
      }
      forall x, y | y in g.blocks && x in g.blocks[y].prev
        ensures x in g.blocks && y in g.blocks[x].next
      {
        if !(x == a && y == b) {
          assert x in blocks[y].prev;
          assert Edge(x, y);
        }
        assert g.Edge(x, y);
      }
    }

    lemma RemoveEdgeWellFormed(a: Label, b: Label)
      requires WellFormed() && a in blocks && b in blocks
      ensures RemoveEdge(a, b).WellFormed()
    {
      var g := RemoveEdge(a, b);
      forall x, y | x in g.blocks && y in g.blocks[x].next
        ensures y in g.blocks && x in g.blocks[y].prev
      {
        assert g.Edge(x, y);
      }
      forall x, y | y in g.blocks && x in g.blocks[y].prev
        ensures x in g.blocks && y in g.blocks[x].next
      {
        assert x in blocks[y].prev;
        assert Edge(x, y);
        assert g.Edge(x, y);
      }
    }

    /** `insert(a) >> insert(b)`: both blocks exist afterwards, joined by an edge. */
    function Link(a: Label, b: Label): (g: Cfg)
      ensures g.blocks.Keys == blocks.Keys + {a, b}
      ensures forall x :: x in blocks ==> g.blocks[x].insts == blocks[x].insts
      ensures forall x :: x in g.blocks && x !in blocks ==> g.blocks[x].insts == []
      ensures forall x, y :: g.Edge(x, y) <==> Edge(x, y) || (x == a && y == b)
    {
      var g1 := Insert(a);
      var g2 := g1.Insert(b);
      assert blocks.Keys + {a} + {b} == blocks.Keys + {a, b};
      assert forall x :: x in g2.blocks && x !in blocks ==> g2.blocks[x] == EmptyBlock;
      g2.AddEdge(a, b)
    }

    lemma LinkWellFormed(a: Label, b: Label)
      requires WellFormed()
      ensures Link(a, b).WellFormed()
    {
      Insert(a).Insert(b).AddEdgeWellFormed(a, b);
    }

    /** bb.insert(ins): append an instruction to a block. */
    function Append(l: Label, ins: Instruction): (g: Cfg)
      requires l in blocks
      ensures g.blocks.Keys == blocks.Keys
      ensures g.blocks[l].insts == blocks[l].insts + [ins]
      ensures forall x :: x in blocks && x != l ==> g.blocks[x] == blocks[x]
      ensures forall x, y :: g.Edge(x, y) <==> Edge(x, y)
      ensures WellFormed() ==> g.WellFormed()
    {
      Cfg(blocks[l := blocks[l].(insts := blocks[l].insts + [ins])])
    }

    /** Replace the instructions of a block, keeping its edges. */
    function SetInsts(l: Label, insts: seq<Instruction>): (g: Cfg)
      requires l in blocks
      ensures g.blocks.Keys == blocks.Keys
      ensures g.blocks[l].insts == insts
      ensures forall x :: x in blocks && x != l ==> g.blocks[x] == blocks[x]
      ensures forall x, y :: g.Edge(x, y) <==> Edge(x, y)
      ensures WellFormed() ==> g.WellFormed()
    {
      Cfg(blocks[l := blocks[l].(insts := insts)])
    }
  }

  /** A new cfg_t: just the entry and exit blocks, unconnected. */
  function EmptyCfg(): (g: Cfg)
    ensures g.WellFormed()
    ensures g.blocks.Keys == {EntryLabel, ExitLabel}
    ensures forall x, y :: !g.Edge(x, y)
  {
    Cfg(map[EntryLabel := EmptyBlock, ExitLabel := EmptyBlock])
  }
}
