/**
 * to_nondet: the graph in which a two-way branch takes both ways at once,
 * each through a new block that assumes the branch condition or its negation.
 */
module Nondet {
  import opened Wrappers
  import opened Labels
  import opened Instructions
  import opened CfgGraph

  /** `std::get<Jmp>(*bb.rbegin())` or `*jmp.cond` failing on a block with two successors. */
  datatype NondetError = MalformedBranch(at: Label)

  /** The instructions of a block without its jumps, in order. */
  function NonJumps(s: seq<Instruction>): (r: seq<Instruction>)
    ensures forall i :: 0 <= i < |r| ==> !r[i].Jmp?
    ensures |r| <= |s|
  {
    if s == [] then [] else NonJumps(s[..|s| - 1]) + (if s[|s| - 1].Jmp? then [] else [s[|s| - 1]])
  }

  /** Only jumps are dropped: a list without jumps is kept whole, and one with a jump loses it. */
  lemma {:induction false} NonJumpsDropsOnlyJumps(s: seq<Instruction>)
    ensures NonJumps(s) == s <==> forall i :: 0 <= i < |s| ==> !s[i].Jmp?
  {
    if s != [] && forall i :: 0 <= i < |s| ==> !s[i].Jmp? {
      NonJumpsDropsOnlyJumps(s[..|s| - 1]);
      assert s[..|s| - 1] + [s[|s| - 1]] == s;
    }
  }

  /** How a block leaves: two successors need a conditional jump at its end. */
  datatype Fanout = Straight | Branch(cond: Condition, target: Label) | Malformed

  function FanoutOf(b: Block): Fanout
  {
    if |b.next| != 2 then Straight
    else if b.insts != [] && b.insts[|b.insts| - 1].Jmp? && b.insts[|b.insts| - 1].cond.Some? then
      Branch(b.insts[|b.insts| - 1].cond.value, b.insts[|b.insts| - 1].target)
    else Malformed
  }

  /** The block an edge p -> l leaves from: p's own jump block when p has several successors. */
  function PredSource(cfg: Cfg, p: Label, l: Label): Label
    requires p in cfg.blocks
  {
    if |cfg.blocks[p].next| > 1 then MakeJump(p, l) else p
  }

  /**
   * The fallthrough of a branch at `l`: the successor other than the jump
   * target, or, when the target is not a successor, either successor (the
   * smallest in label order, which is not part of this model).
   */
  ghost predicate ChoiceOk(cfg: Cfg, l: Label, ft: Label)
  {
    && l in cfg.blocks
    && (FanoutOf(cfg.blocks[l]).Branch? ==>
          && ft in cfg.blocks[l].next
          && (FanoutOf(cfg.blocks[l]).target in cfg.blocks[l].next ==> ft != FanoutOf(cfg.blocks[l]).target))
  }

  /** The blocks that the predecessors among `ps` leave from, towards `l`. */
  ghost function SourcesOf(cfg: Cfg, l: Label, ps: set<Label>): set<Label>
  {
    set p | p in ps && p in cfg.blocks :: PredSource(cfg, p, l)
  }

  ghost function PredSources(cfg: Cfg, l: Label): set<Label>
    requires l in cfg.blocks
  {
    SourcesOf(cfg, l, cfg.blocks[l].prev)
  }

  /** The edges that processing `l` adds on its successor side. */
  ghost predicate SuccEdge(cfg: Cfg, l: Label, ft: Label, a: Label, b: Label)
    requires l in cfg.blocks
  {
    match FanoutOf(cfg.blocks[l])
    case Branch(_, t) =>
      || (a == l && (b == MakeJump(l, t) || b == MakeJump(l, ft)))
      || (a == MakeJump(l, t) && b == t)
      || (a == MakeJump(l, ft) && b == ft)
    case _ => a == l && b in cfg.blocks[l].next
  }

  /** All edges that processing `l` adds. */
  ghost predicate EdgeOf(cfg: Cfg, l: Label, ft: Label, a: Label, b: Label)
    requires l in cfg.blocks
  {
    (b == l && a in PredSources(cfg, l)) || SuccEdge(cfg, l, ft, a, b)
  }

  /** The blocks that processing `l` inserts on its successor side. */
  ghost function SuccKeys(cfg: Cfg, l: Label, ft: Label): set<Label>
    requires l in cfg.blocks
  {
    match FanoutOf(cfg.blocks[l])
    case Branch(_, t) => {MakeJump(l, t)} + {t} + {MakeJump(l, ft)} + {ft}
    case _ => cfg.blocks[l].next
  }

  /** All blocks that processing `l` inserts. */
  ghost function KeysOf(cfg: Cfg, l: Label, ft: Label): set<Label>
    requires l in cfg.blocks
  {
    {l} + PredSources(cfg, l) + SuccKeys(cfg, l, ft)
  }

  /** The Assume instructions that processing `l` puts into block `x`. */
  function JumpContribution(cfg: Cfg, l: Label, ft: Label, x: Label): seq<Instruction>
    requires l in cfg.blocks
  {
    match FanoutOf(cfg.blocks[l])
    case Branch(c, t) =>
      (if x == MakeJump(l, t) then [Assume(c)] else []) + (if x == MakeJump(l, ft) then [Assume(Reverse(c))] else [])
    case _ => []
  }

  /** The instructions that processing `l` appends to block `x`. */
  function Contribution(cfg: Cfg, l: Label, ft: Label, x: Label): seq<Instruction>
    requires l in cfg.blocks
  {
    (if x == l then NonJumps(cfg.blocks[l].insts) else []) + JumpContribution(cfg, l, ft, x)
  }

  /** Lines 237-241: the block's own instructions, without its jumps. */
  method CopyNonJumps(g0: Cfg, l: Label, insts: seq<Instruction>) returns (g: Cfg)
    requires g0.WellFormed() && l in g0.blocks
    ensures g.WellFormed()
    ensures g.blocks.Keys == g0.blocks.Keys
    ensures g.blocks[l].insts == g0.blocks[l].insts + NonJumps(insts)
    ensures forall x :: x in g0.blocks && x != l ==> g.blocks[x].insts == g0.blocks[x].insts
    ensures forall a, b :: g.Edge(a, b) <==> g0.Edge(a, b)
  {
    g := g0;
    for i := 0 to |insts|
      invariant g.WellFormed()
      invariant g.blocks.Keys == g0.blocks.Keys
      invariant g.blocks[l].insts == g0.blocks[l].insts + NonJumps(insts[..i])
      invariant forall x :: x in g0.blocks && x != l ==> g.blocks[x].insts == g0.blocks[x].insts
      invariant forall a, b :: g.Edge(a, b) <==> g0.Edge(a, b)
    {
      NonJumpsPrefixStep(insts, i);
      ConcatAssoc(g0.blocks[l].insts, NonJumps(insts[..i]), if insts[i].Jmp? then [] else [insts[i]]);
      if !insts[i].Jmp? {
        g := g.Append(l, insts[i]);
      }
    }
    assert insts[..|insts|] == insts;
  }

  lemma NonJumpsPrefixStep(insts: seq<Instruction>, i: nat)
    requires i < |insts|
    ensures NonJumps(insts[..i + 1]) == NonJumps(insts[..i]) + if insts[i].Jmp? then [] else [insts[i]]
  {
    assert insts[..i + 1][..i] == insts[..i];
  }

  /** Progress of the predecessor loop: the predecessors outside `todo` are linked. */
  ghost predicate PredsLinked(cfg: Cfg, g0: Cfg, g: Cfg, l: Label, todo: set<Label>)
    requires l in cfg.blocks
  {
    && g.WellFormed() && l in g0.blocks
    && g.blocks.Keys == g0.blocks.Keys + SourcesOf(cfg, l, cfg.blocks[l].prev - todo)
    && (forall x :: x in g.blocks ==> g.blocks[x].insts == if x in g0.blocks then g0.blocks[x].insts else [])
    && (forall a, b :: g.Edge(a, b) <==> g0.Edge(a, b) || (b == l && a in SourcesOf(cfg, l, cfg.blocks[l].prev - todo)))
  }

  lemma PredsStep(cfg: Cfg, g0: Cfg, g: Cfg, l: Label, todo: set<Label>, p: Label)
    requires l in cfg.blocks && p in todo && todo <= cfg.blocks[l].prev && p in cfg.blocks
    requires PredsLinked(cfg, g0, g, l, todo)
    ensures PredsLinked(cfg, g0, g.Link(PredSource(cfg, p, l), l), l, todo - {p})
  {
    var prev := cfg.blocks[l].prev;
    var src := PredSource(cfg, p, l);
    var h := g.Link(src, l);
    var before, after := SourcesOf(cfg, l, prev - todo), SourcesOf(cfg, l, prev - (todo - {p}));
    SourcesStep(cfg, l, prev - todo, p);
    MoveOut(prev, todo, p);
    AddBoth(g0.blocks.Keys, before, src, l);
    g.LinkWellFormed(src, l);
    forall a, b
      ensures h.Edge(a, b) <==> g0.Edge(a, b) || (b == l && a in after)
    {
      assert h.Edge(a, b) <==> g.Edge(a, b) || (a == src && b == l);
    }
  }

  lemma MoveOut<T>(s: set<T>, todo: set<T>, n: T)
    requires n in todo && todo <= s
    ensures s - (todo - {n}) == (s - todo) + {n}
  {
  }

  lemma AddBoth<T>(keys: set<T>, added: set<T>, a: T, b: T)
    requires b in keys
    ensures keys + added + {a, b} == keys + (added + {a})
    ensures keys + added + {b, a} == keys + (added + {a})
  {
  }

  lemma SourcesStep(cfg: Cfg, l: Label, ps: set<Label>, p: Label)
    requires p in cfg.blocks
    ensures SourcesOf(cfg, l, ps + {p}) == SourcesOf(cfg, l, ps) + {PredSource(cfg, p, l)}
  {
  }

  /** Lines 243-247: an edge into the block from each original predecessor, through its jump block when it branches. */
  method LinkPreds(cfg: Cfg, g0: Cfg, l: Label) returns (g: Cfg)
    requires cfg.WellFormed() && l in cfg.blocks && g0.WellFormed() && l in g0.blocks
    ensures PredsLinked(cfg, g0, g, l, {})
  {
    g := g0;
    var todo := cfg.blocks[l].prev;
    assert todo <= cfg.blocks.Keys;
    assert SourcesOf(cfg, l, cfg.blocks[l].prev - todo) == {};
    while todo != {}
      invariant todo <= cfg.blocks[l].prev && todo <= cfg.blocks.Keys
      invariant PredsLinked(cfg, g0, g, l, todo)
      decreases todo
    {
      var p :| p in todo;
      PredsStep(cfg, g0, g, l, todo, p);
      g := g.Link(PredSource(cfg, p, l), l);
      todo := todo - {p};
    }
  }

  /** Block `x` of `h` holds what it held in `g` (nothing when new), then `extra` when it is `j`. */
  ghost predicate InstsAdded(g: Cfg, h: Cfg, j: Label, extra: seq<Instruction>)
  {
    forall x :: x in h.blocks ==>
      h.blocks[x].insts == (if x in g.blocks then g.blocks[x].insts else []) + (if x == j then extra else [])
  }

  /** The effect of one jump of lines 261-267: l -> make_jump(l, n) -> n, the jump block assuming `c`. */
  ghost predicate Via(g: Cfg, h: Cfg, l: Label, n: Label, c: Condition)
  {
    && h.WellFormed()
    && h.blocks.Keys == g.blocks.Keys + {MakeJump(l, n)} + {n}
    && InstsAdded(g, h, MakeJump(l, n), [Assume(c)])
    && (forall a, b :: h.Edge(a, b) <==> g.Edge(a, b) || (a == l && b == MakeJump(l, n)) || (a == MakeJump(l, n) && b == n))
  }

  /** The jump block of `l` towards `n`, holding `Assume(c)`. */
  function JumpBlock(g: Cfg, l: Label, n: Label, c: Condition): (h: Cfg)
    requires g.WellFormed()
    ensures h.WellFormed()
    ensures h.blocks.Keys == g.blocks.Keys + {MakeJump(l, n)}
    ensures InstsAdded(g, h, MakeJump(l, n), [Assume(c)])
    ensures forall a, b :: h.Edge(a, b) <==> g.Edge(a, b)
  {
    var j := MakeJump(l, n);
    var g1 := g.Insert(j);
    var h := g1.Append(j, Assume(c));
    assert forall x :: x in h.blocks && x != j ==> x in g.blocks && h.blocks[x] == g.blocks[x];
    h
  }

  /** Linking two blocks adds no instructions. */
  lemma LinkAddsNothing(g0: Cfg, g: Cfg, j: Label, extra: seq<Instruction>, a: Label, b: Label)
    requires InstsAdded(g0, g, j, extra) && j in g.blocks && g0.blocks.Keys <= g.blocks.Keys
    ensures InstsAdded(g0, g.Link(a, b), j, extra)
  {
    var h := g.Link(a, b);
    forall x | x in h.blocks
      ensures h.blocks[x].insts == (if x in g0.blocks then g0.blocks[x].insts else []) + (if x == j then extra else [])
    {
      if x !in g.blocks {
        assert x !in g0.blocks && x != j;
      }
    }
  }

  /** The two edges of a jump, l -> j -> n, between existing blocks l and j. */
  lemma TwoLinks(g: Cfg, l: Label, j: Label, n: Label)
    requires l in g.blocks && j in g.blocks
    ensures g.Link(l, j).Link(j, n).blocks.Keys == g.blocks.Keys + {n}
    ensures forall a, b :: g.Link(l, j).Link(j, n).Edge(a, b) <==> g.Edge(a, b) || (a == l && b == j) || (a == j && b == n)
  {
  }

  /** One of the two jumps of lines 261-267. */
  function JumpVia(g: Cfg, l: Label, n: Label, c: Condition): (h: Cfg)
    requires g.WellFormed() && l in g.blocks
    ensures Via(g, h, l, n, c)
  {
    var j := MakeJump(l, n);
    var g1 := JumpBlock(g, l, n, c);
    g1.LinkWellFormed(l, j);
    var g2 := g1.Link(l, j);
    LinkAddsNothing(g, g1, j, [Assume(c)], l, j);
    g2.LinkWellFormed(j, n);
    LinkAddsNothing(g, g2, j, [Assume(c)], j, n);
    TwoLinks(g1, l, j, n);
    g2.Link(j, n)
  }

  /** Progress of the fan-out loop: the successors outside `todo` are linked. */
  ghost predicate StraightLinked(cfg: Cfg, g0: Cfg, g: Cfg, l: Label, todo: set<Label>)
    requires l in cfg.blocks
  {
    && g.WellFormed() && l in g0.blocks
    && g.blocks.Keys == g0.blocks.Keys + (cfg.blocks[l].next - todo)
    && (forall x :: x in g.blocks ==> g.blocks[x].insts == if x in g0.blocks then g0.blocks[x].insts else [])
    && (forall a, b :: g.Edge(a, b) <==> g0.Edge(a, b) || (a == l && b in cfg.blocks[l].next - todo))
  }

  lemma StraightStep(cfg: Cfg, g0: Cfg, g: Cfg, l: Label, todo: set<Label>, n: Label)
    requires l in cfg.blocks && n in todo && todo <= cfg.blocks[l].next
    requires StraightLinked(cfg, g0, g, l, todo)
    ensures StraightLinked(cfg, g0, g.Link(l, n), l, todo - {n})
  {
    var next := cfg.blocks[l].next;
    var h := g.Link(l, n);
    g.LinkWellFormed(l, n);
    MoveOut(next, todo, n);
    AddBoth(g0.blocks.Keys, next - todo, n, l);
    EdgesFromGrow(g0, g, h, l, next - todo, n);
  }

  /** One more edge out of `l` added to those towards `s`. */
  lemma EdgesFromGrow(g0: Cfg, g: Cfg, h: Cfg, l: Label, s: set<Label>, n: Label)
    requires forall a, b :: g.Edge(a, b) <==> g0.Edge(a, b) || (a == l && b in s)
    requires forall a, b :: h.Edge(a, b) <==> g.Edge(a, b) || (a == l && b == n)
    ensures forall a, b :: h.Edge(a, b) <==> g0.Edge(a, b) || (a == l && b in s + {n})
  {
  }

  /** Lines 268-272: any fan-out other than two goes straight to the successors. */
  method LinkStraight(cfg: Cfg, g0: Cfg, l: Label) returns (g: Cfg)
    requires l in cfg.blocks && g0.WellFormed() && l in g0.blocks
    ensures StraightLinked(cfg, g0, g, l, {})
  {
    g := g0;
    var todo := cfg.blocks[l].next;
    while todo != {}
      invariant todo <= cfg.blocks[l].next
      invariant StraightLinked(cfg, g0, g, l, todo)
      decreases todo
    {
      var n :| n in todo;
      StraightStep(cfg, g0, g, l, todo, n);
      g := g.Link(l, n);
      todo := todo - {n};
    }
  }

  /** What the successor side of `l` adds to `g0`, giving `h`. */
  ghost predicate SuccsLinked(cfg: Cfg, g0: Cfg, h: Cfg, l: Label, ft: Label)
    requires l in cfg.blocks
  {
    && h.WellFormed()
    && h.blocks.Keys == g0.blocks.Keys + SuccKeys(cfg, l, ft)
    && (forall x :: x in h.blocks ==>
          h.blocks[x].insts == (if x in g0.blocks then g0.blocks[x].insts else []) + JumpContribution(cfg, l, ft, x))
    && (forall a, b :: h.Edge(a, b) <==> g0.Edge(a, b) || SuccEdge(cfg, l, ft, a, b))
  }

  lemma BranchLinked(cfg: Cfg, g0: Cfg, g1: Cfg, g2: Cfg, l: Label, ft: Label)
    requires l in cfg.blocks && FanoutOf(cfg.blocks[l]).Branch?
    requires Via(g0, g1, l, FanoutOf(cfg.blocks[l]).target, FanoutOf(cfg.blocks[l]).cond)
    requires Via(g1, g2, l, ft, Reverse(FanoutOf(cfg.blocks[l]).cond))
    ensures SuccsLinked(cfg, g0, g2, l, ft)
  {
    var t, c := FanoutOf(cfg.blocks[l]).target, FanoutOf(cfg.blocks[l]).cond;
    var j1, j2 := MakeJump(l, t), MakeJump(l, ft);
    forall x | x in g2.blocks
      ensures g2.blocks[x].insts == (if x in g0.blocks then g0.blocks[x].insts else []) + JumpContribution(cfg, l, ft, x)
    {
      AddedTwice(g0, g1, g2, j1, [Assume(c)], j2, [Assume(Reverse(c))], x);
    }
    UnionOfFour(g0.blocks.Keys, j1, t, j2, ft);
    forall a, b
      ensures g2.Edge(a, b) <==> g0.Edge(a, b) || SuccEdge(cfg, l, ft, a, b)
    {
      assert SuccEdge(cfg, l, ft, a, b) <==> (a == l && b == j1) || (a == j1 && b == t) || (a == l && b == j2) || (a == j2 && b == ft);
    }
  }

  lemma UnionOfFour<T>(s: set<T>, a: T, b: T, c: T, d: T)
    ensures s + {a} + {b} + {c} + {d} == s + ({a} + {b} + {c} + {d})
  {
  }

  /** Two rounds of appended instructions, the first to `j1` and the second to `j2`. */
  lemma AddedTwice(g0: Cfg, g1: Cfg, g2: Cfg, j1: Label, e1: seq<Instruction>, j2: Label, e2: seq<Instruction>, x: Label)
    requires InstsAdded(g0, g1, j1, e1) && InstsAdded(g1, g2, j2, e2)
    requires g0.blocks.Keys <= g1.blocks.Keys && j1 in g1.blocks && x in g2.blocks
    ensures g2.blocks[x].insts ==
      (if x in g0.blocks then g0.blocks[x].insts else []) + ((if x == j1 then e1 else []) + (if x == j2 then e2 else []))
  {
    var before := if x in g0.blocks then g0.blocks[x].insts else [];
    var a: seq<Instruction> := if x == j1 then e1 else [];
    var b: seq<Instruction> := if x == j2 then e2 else [];
    if x in g1.blocks {
      assert g2.blocks[x].insts == g1.blocks[x].insts + b;
      assert g1.blocks[x].insts == before + a;
      assert (before + a) + b == before + (a + b);
    } else {
      assert g2.blocks[x].insts == [] + b;
      assert before == [] && a == [];
    }
  }

  lemma StraightDone(cfg: Cfg, g0: Cfg, g: Cfg, l: Label)
    requires l in cfg.blocks && !FanoutOf(cfg.blocks[l]).Branch?
    requires StraightLinked(cfg, g0, g, l, {})
    ensures SuccsLinked(cfg, g0, g, l, l)
  {
    assert cfg.blocks[l].next - {} == cfg.blocks[l].next;
  }

  /**
   * Lines 249-272: the successor side. A block with two successors must end
   * in a conditional jump; both ways then go through a jump block, the
   * target's assuming the condition and the fallthrough's its negation.
   */
  method LinkSuccs(cfg: Cfg, g0: Cfg, l: Label) returns (r: Result<Cfg, NondetError>, ghost ft: Label)
    requires cfg.WellFormed() && l in cfg.blocks && g0.WellFormed() && l in g0.blocks
    ensures r.Err? <==> FanoutOf(cfg.blocks[l]).Malformed?
    ensures r.Err? ==> r.error == MalformedBranch(l)
    ensures r.Ok? ==> ChoiceOk(cfg, l, ft) && SuccsLinked(cfg, g0, r.value, l, ft)
  {
    var bb := cfg.blocks[l];
    ft := l;
    if |bb.next| == 2 {
      if !(bb.insts != [] && bb.insts[|bb.insts| - 1].Jmp? && bb.insts[|bb.insts| - 1].cond.Some?) {
        return Err(MalformedBranch(l)), ft;
      }
      var jmp := bb.insts[|bb.insts| - 1];
      var rest := bb.next - {jmp.target};
      assert |rest| >= 1;
      var fallthrough :| fallthrough in rest;
      ft := fallthrough;
      var g1 := JumpVia(g0, l, jmp.target, jmp.cond.value);
      var g2 := JumpVia(g1, l, fallthrough, Reverse(jmp.cond.value));
      BranchLinked(cfg, g0, g1, g2, l, ft);
      r := Ok(g2);
    } else {
      var g := LinkStraight(cfg, g0, l);
      StraightDone(cfg, g0, g, l);
      r := Ok(g);
    }
  }

  /** What processing `l` adds to `g0`, giving `h`. */
  ghost predicate BlockDone(cfg: Cfg, g0: Cfg, h: Cfg, l: Label, ft: Label)
    requires l in cfg.blocks
  {
    && h.WellFormed()
    && h.blocks.Keys == g0.blocks.Keys + KeysOf(cfg, l, ft)
    && (forall x :: x in h.blocks ==>
          h.blocks[x].insts == (if x in g0.blocks then g0.blocks[x].insts else []) + Contribution(cfg, l, ft, x))
    && (forall a, b :: h.Edge(a, b) <==> g0.Edge(a, b) || EdgeOf(cfg, l, ft, a, b))
  }

  lemma BlockCompose(cfg: Cfg, g0: Cfg, g2: Cfg, g3: Cfg, g4: Cfg, l: Label, ft: Label)
    requires l in cfg.blocks
    requires g2.blocks.Keys == g0.blocks.Keys + {l}
    requires g2.blocks[l].insts == (if l in g0.blocks then g0.blocks[l].insts else []) + NonJumps(cfg.blocks[l].insts)
    requires forall x :: x in g0.blocks && x != l ==> g2.blocks[x].insts == g0.blocks[x].insts
    requires forall a, b :: g2.Edge(a, b) <==> g0.Edge(a, b)
    requires PredsLinked(cfg, g2, g3, l, {})
    requires SuccsLinked(cfg, g3, g4, l, ft)
    ensures BlockDone(cfg, g0, g4, l, ft)
  {
    var prev := cfg.blocks[l].prev;
    assert prev - {} == prev;
    forall x | x in g4.blocks
      ensures g4.blocks[x].insts == (if x in g0.blocks then g0.blocks[x].insts else []) + Contribution(cfg, l, ft, x)
    {
      var own: seq<Instruction> := if x == l then NonJumps(cfg.blocks[l].insts) else [];
      var jc := JumpContribution(cfg, l, ft, x);
      var before := if x in g0.blocks then g0.blocks[x].insts else [];
      assert g4.blocks[x].insts == (if x in g3.blocks then g3.blocks[x].insts else []) + jc;
      CopiedInsts(g0, g2, l, NonJumps(cfg.blocks[l].insts), x);
      OwnThenJumps(before, own, jc, if x in g2.blocks then g2.blocks[x].insts else [], g4.blocks[x].insts);
    }
    UnionOfThree(g0.blocks.Keys, {l}, PredSources(cfg, l), SuccKeys(cfg, l, ft));
    forall a, b
      ensures g4.Edge(a, b) <==> g0.Edge(a, b) || EdgeOf(cfg, l, ft, a, b)
    {
      assert g4.Edge(a, b) <==> g2.Edge(a, b) || (b == l && a in PredSources(cfg, l)) || SuccEdge(cfg, l, ft, a, b);
    }
  }

  lemma UnionOfTwo<T>(s: set<T>, a: set<T>, b: set<T>)
    ensures s + a + b == s + (a + b)
  {
  }

  lemma UnionOfThree<T>(s: set<T>, a: set<T>, b: set<T>, c: set<T>)
    ensures s + a + b + c == s + (a + b + c)
  {
  }

  /** After the copy of line 239, block `x` holds its old instructions, then the copied ones when it is `l`. */
  lemma CopiedInsts(g0: Cfg, g2: Cfg, l: Label, copied: seq<Instruction>, x: Label)
    requires g2.blocks.Keys == g0.blocks.Keys + {l}
    requires g2.blocks[l].insts == (if l in g0.blocks then g0.blocks[l].insts else []) + copied
    requires forall x :: x in g0.blocks && x != l ==> g2.blocks[x].insts == g0.blocks[x].insts
    ensures (if x in g2.blocks then g2.blocks[x].insts else []) ==
      (if x in g0.blocks then g0.blocks[x].insts else []) + (if x == l then copied else [])
  {
    if x != l && x in g0.blocks {
      assert g2.blocks[x].insts == g0.blocks[x].insts;
    }
  }

  lemma OwnThenJumps(before: seq<Instruction>, own: seq<Instruction>, jc: seq<Instruction>, mid: seq<Instruction>, after: seq<Instruction>)
    requires mid == before + own && after == mid + jc
    ensures after == before + (own + jc)
  {
  }

  /** Lines 235-273: everything the loop does for one block of the input. */
  method NondetBlock(cfg: Cfg, g0: Cfg, l: Label) returns (r: Result<Cfg, NondetError>, ghost ft: Label)
    requires cfg.WellFormed() && l in cfg.blocks && g0.WellFormed()
    ensures r.Err? <==> FanoutOf(cfg.blocks[l]).Malformed?
    ensures r.Err? ==> r.error == MalformedBranch(l)
    ensures r.Ok? ==> ChoiceOk(cfg, l, ft) && BlockDone(cfg, g0, r.value, l, ft)
  {
    var g1 := g0.Insert(l);
    var g2 := CopyNonJumps(g1, l, cfg.blocks[l].insts);
    var g3 := LinkPreds(cfg, g2, l);
    r, ft := LinkSuccs(cfg, g3, l);
    if r.Ok? {
      BlockCompose(cfg, g0, g2, g3, r.value, l, ft);
    }
  }

  /** The labels of `done` are blocks of `cfg`, each with its fallthrough choice in `fts`. */
  ghost predicate Processed(cfg: Cfg, done: seq<Label>, fts: seq<Label>)
  {
    |fts| == |done| && forall i :: 0 <= i < |done| ==> done[i] in cfg.blocks
  }

  /** The instructions of block `x` after the labels of `done` have been processed in that order. */
  ghost function ContribUpTo(cfg: Cfg, done: seq<Label>, fts: seq<Label>, x: Label): seq<Instruction>
    requires Processed(cfg, done, fts)
    decreases |done|
  {
    if done == [] then []
    else
      var k := |done| - 1;
      ContribUpTo(cfg, done[..k], fts[..k], x) + Contribution(cfg, done[k], fts[k], x)
  }

  /** The blocks inserted while processing `done`. */
  ghost function KeysUpTo(cfg: Cfg, done: seq<Label>, fts: seq<Label>): set<Label>
    requires Processed(cfg, done, fts)
    decreases |done|
  {
    if done == [] then {}
    else
      var k := |done| - 1;
      KeysUpTo(cfg, done[..k], fts[..k]) + KeysOf(cfg, done[k], fts[k])
  }

  /** The edges added while processing `done`. */
  ghost predicate EdgeUpTo(cfg: Cfg, done: seq<Label>, fts: seq<Label>, a: Label, b: Label)
    requires Processed(cfg, done, fts)
    decreases |done|
  {
    if done == [] then false
    else
      var k := |done| - 1;
      EdgeUpTo(cfg, done[..k], fts[..k], a, b) || EdgeOf(cfg, done[k], fts[k], a, b)
  }

  /** The result graph after the loop of line 234 has visited `done`. */
  ghost predicate NondetState(cfg: Cfg, done: seq<Label>, fts: seq<Label>, res: Cfg)
  {
    && Processed(cfg, done, fts)
    && res.WellFormed()
    && res.blocks.Keys == {EntryLabel, ExitLabel} + KeysUpTo(cfg, done, fts)
    && (forall x :: x in res.blocks ==> res.blocks[x].insts == ContribUpTo(cfg, done, fts, x))
    && (forall x :: x !in res.blocks ==> ContribUpTo(cfg, done, fts, x) == [])
    && (forall a, b :: res.Edge(a, b) <==> EdgeUpTo(cfg, done, fts, a, b))
  }

  /** Processing `l` contributes only to blocks it inserts. */
  lemma ContributionInKeys(cfg: Cfg, l: Label, ft: Label, x: Label)
    requires l in cfg.blocks && x !in KeysOf(cfg, l, ft)
    ensures Contribution(cfg, l, ft, x) == []
  {
  }

  lemma NondetStart(cfg: Cfg)
    ensures NondetState(cfg, [], [], EmptyCfg())
  {
  }

  /** Processing one more label extends the three histories by its own part. */
  lemma UpToSnoc(cfg: Cfg, done: seq<Label>, fts: seq<Label>, l: Label, ft: Label)
    requires Processed(cfg, done, fts) && l in cfg.blocks
    ensures Processed(cfg, done + [l], fts + [ft])
    ensures KeysUpTo(cfg, done + [l], fts + [ft]) == KeysUpTo(cfg, done, fts) + KeysOf(cfg, l, ft)
    ensures forall x :: ContribUpTo(cfg, done + [l], fts + [ft], x) == ContribUpTo(cfg, done, fts, x) + Contribution(cfg, l, ft, x)
    ensures forall a, b :: EdgeUpTo(cfg, done + [l], fts + [ft], a, b) <==> EdgeUpTo(cfg, done, fts, a, b) || EdgeOf(cfg, l, ft, a, b)
  {
    assert (done + [l])[..|done|] == done && (fts + [ft])[..|done|] == fts;
  }

  lemma NondetStep(cfg: Cfg, done: seq<Label>, fts: seq<Label>, res: Cfg, l: Label, ft: Label, res': Cfg)
    requires NondetState(cfg, done, fts, res) && l in cfg.blocks
    requires BlockDone(cfg, res, res', l, ft)
    ensures NondetState(cfg, done + [l], fts + [ft], res')
  {
    var done', fts' := done + [l], fts + [ft];
    UpToSnoc(cfg, done, fts, l, ft);
    UnionOfTwo({EntryLabel, ExitLabel}, KeysUpTo(cfg, done, fts), KeysOf(cfg, l, ft));
    forall x | x in res'.blocks
      ensures res'.blocks[x].insts == ContribUpTo(cfg, done', fts', x)
    {
      if x !in res.blocks {
        assert ContribUpTo(cfg, done, fts, x) == [];
      }
    }
    forall x | x !in res'.blocks
      ensures ContribUpTo(cfg, done', fts', x) == []
    {
      ContributionInKeys(cfg, l, ft, x);
    }
    forall a, b
      ensures res'.Edge(a, b) <==> EdgeUpTo(cfg, done', fts', a, b)
    {
      assert res'.Edge(a, b) <==> res.Edge(a, b) || EdgeOf(cfg, l, ft, a, b);
    }
  }

  /** The loop of line 234 has visited `done` and has `todo` left; every visited block was well formed. */
  ghost predicate VisitState(cfg: Cfg, todo: set<Label>, done: seq<Label>, fts: seq<Label>)
  {
    && Processed(cfg, done, fts)
    && todo <= cfg.blocks.Keys
    && (forall l :: l in cfg.blocks ==> (l in todo <==> l !in done))
    && (forall i, j :: 0 <= i < j < |done| ==> done[i] != done[j])
    && (forall i :: 0 <= i < |done| ==> ChoiceOk(cfg, done[i], fts[i]) && !FanoutOf(cfg.blocks[done[i]]).Malformed?)
  }

  lemma VisitStep(cfg: Cfg, todo: set<Label>, done: seq<Label>, fts: seq<Label>, l: Label, ft: Label)
    requires VisitState(cfg, todo, done, fts) && l in todo
    requires ChoiceOk(cfg, l, ft) && !FanoutOf(cfg.blocks[l]).Malformed?
    ensures VisitState(cfg, todo - {l}, done + [l], fts + [ft])
  {
    var done', fts' := done + [l], fts + [ft];
    forall i | 0 <= i < |done'|
      ensures ChoiceOk(cfg, done'[i], fts'[i]) && !FanoutOf(cfg.blocks[done'[i]]).Malformed?
    {
      if i < |done| {
        assert done'[i] == done[i] && fts'[i] == fts[i];
      }
    }
  }

  /**
   * to_nondet (lines 232-275): every block of the input, visited in some
   * order, with its jumps dropped and its branches split into jump blocks.
   * The result is described by the order and the fallthrough choices made.
   */
  method ToNondet(cfg: Cfg) returns (r: Result<Cfg, NondetError>, ghost order: seq<Label>, ghost fts: seq<Label>)
    requires cfg.WellFormed()
    ensures r.Err? <==> exists l :: l in cfg.blocks && FanoutOf(cfg.blocks[l]).Malformed?
    ensures r.Err? ==> r.error.at in cfg.blocks && FanoutOf(cfg.blocks[r.error.at]).Malformed?
    ensures r.Ok? ==> NondetState(cfg, order, fts, r.value)
    ensures r.Ok? ==> forall l :: l in cfg.blocks <==> l in order
    ensures r.Ok? ==> forall i, j :: 0 <= i < j < |order| ==> order[i] != order[j]
    ensures r.Ok? ==> forall i :: 0 <= i < |order| ==> ChoiceOk(cfg, order[i], fts[i])
  {
    var res := EmptyCfg();
    var todo := cfg.blocks.Keys;
    order, fts := [], [];
    NondetStart(cfg);
    while todo != {}
      invariant VisitState(cfg, todo, order, fts)
      invariant NondetState(cfg, order, fts, res)
      decreases todo
    {
      var l :| l in todo;
      var step, ft := NondetBlock(cfg, res, l);
      if step.Err? {
        return Err(step.error), order, fts;
      }
      VisitStep(cfg, todo, order, fts, l, ft);
      NondetStep(cfg, order, fts, res, l, ft, step.value);
      res, order, fts, todo := step.value, order + [l], fts + [ft], todo - {l};
    }
    r := Ok(res);
    assert forall l :: l in cfg.blocks ==> l in order;
  }

  /** No processed block contributes a jump. */
  lemma {:induction false} ContribNoJumps(cfg: Cfg, done: seq<Label>, fts: seq<Label>, x: Label)
    requires Processed(cfg, done, fts)
    ensures forall i :: 0 <= i < |ContribUpTo(cfg, done, fts, x)| ==> !ContribUpTo(cfg, done, fts, x)[i].Jmp?
    decreases |done|
  {
    if done != [] {
      var k := |done| - 1;
      ContribNoJumps(cfg, done[..k], fts[..k], x);
      var before, last := ContribUpTo(cfg, done[..k], fts[..k], x), Contribution(cfg, done[k], fts[k], x);
      assert ContribUpTo(cfg, done, fts, x) == before + last;
      forall i | 0 <= i < |last|
        ensures !last[i].Jmp?
      {
        var own: seq<Instruction> := if x == done[k] then NonJumps(cfg.blocks[done[k]].insts) else [];
        assert last == own + JumpContribution(cfg, done[k], fts[k], x);
        if i >= |own| {
          assert last[i] in JumpContribution(cfg, done[k], fts[k], x);
        }
      }
    }
  }

  /** A block that is not in the input holds only Assume instructions. */
  lemma {:induction false} ContribOnlyAssumes(cfg: Cfg, done: seq<Label>, fts: seq<Label>, x: Label)
    requires Processed(cfg, done, fts) && x !in cfg.blocks
    ensures forall i :: 0 <= i < |ContribUpTo(cfg, done, fts, x)| ==> ContribUpTo(cfg, done, fts, x)[i].Assume?
    decreases |done|
  {
    if done != [] {
      var k := |done| - 1;
      ContribOnlyAssumes(cfg, done[..k], fts[..k], x);
      var last := Contribution(cfg, done[k], fts[k], x);
      assert last == JumpContribution(cfg, done[k], fts[k], x);
      assert forall i :: 0 <= i < |last| ==> last[i] in last;
    }
  }

  /** The input's edges l -> n lead to jump labels that name no block of the input. */
  ghost predicate JumpLabelsFresh(cfg: Cfg)
  {
    forall l, n :: l in cfg.blocks && n in cfg.blocks[l].next ==> MakeJump(l, n) !in cfg.blocks
  }

  /** Every two-way block jumps to one of its successors. */
  ghost predicate BranchesToSuccessors(cfg: Cfg)
  {
    forall l :: l in cfg.blocks && FanoutOf(cfg.blocks[l]).Branch? ==> FanoutOf(cfg.blocks[l]).target in cfg.blocks[l].next
  }

  /** Processing a block adds no jump-condition instruction to a block of the input. */
  lemma JumpContributionToOriginal(cfg: Cfg, l: Label, ft: Label, x: Label)
    requires x in cfg.blocks && ChoiceOk(cfg, l, ft)
    requires JumpLabelsFresh(cfg) && BranchesToSuccessors(cfg)
    ensures JumpContribution(cfg, l, ft, x) == []
  {
    if FanoutOf(cfg.blocks[l]).Branch? {
      assert MakeJump(l, FanoutOf(cfg.blocks[l]).target) != x && MakeJump(l, ft) != x;
    }
  }

  /** The last label of a sequence without repeats is not in the rest of it. */
  lemma LastNotEarlier(done: seq<Label>)
    requires done != [] && forall i, j :: 0 <= i < j < |done| ==> done[i] != done[j]
    ensures done[|done| - 1] !in done[..|done| - 1]
  {
    var k := |done| - 1;
    forall i | 0 <= i < k
      ensures done[..k][i] != done[k]
    {
      assert done[i] != done[k];
    }
  }

  lemma InSnoc(done: seq<Label>, x: Label)
    requires done != []
    ensures x in done <==> x in done[..|done| - 1] || x == done[|done| - 1]
  {
    assert done == done[..|done| - 1] + [done[|done| - 1]];
  }

  /** A block of the input keeps exactly its non-jump instructions once it has been visited. */
  lemma {:induction false} ContribOriginal(cfg: Cfg, done: seq<Label>, fts: seq<Label>, x: Label)
    requires Processed(cfg, done, fts) && x in cfg.blocks
    requires JumpLabelsFresh(cfg) && BranchesToSuccessors(cfg)
    requires forall i :: 0 <= i < |done| ==> ChoiceOk(cfg, done[i], fts[i])
    requires forall i, j :: 0 <= i < j < |done| ==> done[i] != done[j]
    ensures ContribUpTo(cfg, done, fts, x) == if x in done then NonJumps(cfg.blocks[x].insts) else []
    decreases |done|
  {
    if done != [] {
      var k := |done| - 1;
      var done', fts' := done[..k], fts[..k];
      assert forall i :: 0 <= i < k ==> done'[i] == done[i] && fts'[i] == fts[i];
      ContribOriginal(cfg, done', fts', x);
      JumpContributionToOriginal(cfg, done[k], fts[k], x);
      LastNotEarlier(done);
      InSnoc(done, x);
    }
  }

  /** An edge of the result is an edge that processing some visited block adds. */
  lemma {:induction false} EdgeUpToAny(cfg: Cfg, done: seq<Label>, fts: seq<Label>, a: Label, b: Label)
    requires Processed(cfg, done, fts)
    ensures EdgeUpTo(cfg, done, fts, a, b) <==> exists i :: 0 <= i < |done| && EdgeOf(cfg, done[i], fts[i], a, b)
    decreases |done|
  {
    if done != [] {
      var k := |done| - 1;
      EdgeUpToAny(cfg, done[..k], fts[..k], a, b);
      if EdgeUpTo(cfg, done[..k], fts[..k], a, b) {
        var i :| 0 <= i < k && EdgeOf(cfg, done[..k][i], fts[..k][i], a, b);
        assert done[..k][i] == done[i] && fts[..k][i] == fts[i];
      }
      if i :| 0 <= i < |done| && EdgeOf(cfg, done[i], fts[i], a, b) {
        if i < k {
          assert done[..k][i] == done[i] && fts[..k][i] == fts[i];
        }
      }
    }
  }

  /**
   * Lines 243-272 in the finished graph: each visited block is entered from
   * the jump blocks of its predecessors, a branch leaves through two jump
   * blocks, and any other block goes straight to its successors.
   */
  lemma NondetEdges(cfg: Cfg, order: seq<Label>, fts: seq<Label>, res: Cfg, i: int)
    requires NondetState(cfg, order, fts, res) && 0 <= i < |order|
    ensures forall p :: p in cfg.blocks[order[i]].prev && p in cfg.blocks ==> res.Edge(PredSource(cfg, p, order[i]), order[i])
    ensures FanoutOf(cfg.blocks[order[i]]).Branch? ==>
      var l, t, ft := order[i], FanoutOf(cfg.blocks[order[i]]).target, fts[i];
      && res.Edge(l, MakeJump(l, t)) && res.Edge(MakeJump(l, t), t)
      && res.Edge(l, MakeJump(l, ft)) && res.Edge(MakeJump(l, ft), ft)
    ensures !FanoutOf(cfg.blocks[order[i]]).Branch? ==> forall n :: n in cfg.blocks[order[i]].next ==> res.Edge(order[i], n)
  {
    var l, ft := order[i], fts[i];
    forall a, b | EdgeOf(cfg, l, ft, a, b)
      ensures res.Edge(a, b)
    {
      EdgeUpToAny(cfg, order, fts, a, b);
    }
  }

  /** Every block that processing a visited label inserts is in the result. */
  lemma {:induction false} KeysUpToHas(cfg: Cfg, done: seq<Label>, fts: seq<Label>, i: int)
    requires Processed(cfg, done, fts) && 0 <= i < |done|
    ensures KeysOf(cfg, done[i], fts[i]) <= KeysUpTo(cfg, done, fts)
    decreases |done|
  {
    var k := |done| - 1;
    if i < k {
      KeysUpToHas(cfg, done[..k], fts[..k], i);
      assert done[..k][i] == done[i] && fts[..k][i] == fts[i];
    }
  }

  /**
   * Lines 237-267 in the finished graph: no block keeps a jump, the new jump
   * blocks hold only assumptions, and, when jump labels are fresh, every
   * block of the input holds its own instructions without the jumps.
   */
  lemma NondetInsts(cfg: Cfg, order: seq<Label>, fts: seq<Label>, res: Cfg)
    requires NondetState(cfg, order, fts, res)
    requires forall l :: l in cfg.blocks <==> l in order
    requires forall i, j :: 0 <= i < j < |order| ==> order[i] != order[j]
    requires forall i :: 0 <= i < |order| ==> ChoiceOk(cfg, order[i], fts[i])
    ensures forall x, k :: x in res.blocks && 0 <= k < |res.blocks[x].insts| ==> !res.blocks[x].insts[k].Jmp?
    ensures forall x, k :: x in res.blocks && x !in cfg.blocks && 0 <= k < |res.blocks[x].insts| ==> res.blocks[x].insts[k].Assume?
    ensures JumpLabelsFresh(cfg) && BranchesToSuccessors(cfg) ==>
      forall x :: x in cfg.blocks ==> x in res.blocks && res.blocks[x].insts == NonJumps(cfg.blocks[x].insts)
  {
    forall x | x in res.blocks
      ensures forall k :: 0 <= k < |res.blocks[x].insts| ==> !res.blocks[x].insts[k].Jmp?
      ensures x !in cfg.blocks ==> forall k :: 0 <= k < |res.blocks[x].insts| ==> res.blocks[x].insts[k].Assume?
    {
      ContribNoJumps(cfg, order, fts, x);
      if x !in cfg.blocks {
        ContribOnlyAssumes(cfg, order, fts, x);
      }
    }
    if JumpLabelsFresh(cfg) && BranchesToSuccessors(cfg) {
      forall x | x in cfg.blocks
        ensures x in res.blocks && res.blocks[x].insts == NonJumps(cfg.blocks[x].insts)
      {
        var i :| 0 <= i < |order| && order[i] == x;
        KeysUpToHas(cfg, order, fts, i);
        ContribOriginal(cfg, order, fts, x);
      }
    }
  }
}
