/**
 * Construction of the control-flow graph from the instruction sequence
 * (instruction_seq_to_cfg) and inlining of local-call macros (add_cfg_nodes).
 */
module CfgBuilder {
  import opened Wrappers
  import opened Strings
  import opened Labels
  import opened Instructions
  import opened CfgGraph

  datatype LabeledInstruction = LabeledInstruction(lbl: Label, ins: Instruction)

  /** The exceptions CFG construction can raise. */
  datatype BuildError =
    | FallthroughInLastInstruction          // std::invalid_argument
    | IllegalRecursion(prefix: string)      // std::runtime_error "<prefix>: illegal recursion"
    | TooManyCallStackFrames                // std::runtime_error "too many call stack frames"
    | MissingBlock(missing: Label)          // cfg.get_node on an absent label
    | NoReturnSuccessor(caller: Label)      // next_nodes(caller).front() on an empty list

  // ---------------------------------------------------------------------------
  // Pass 1: the flat graph, described declaratively.

  predicate Defined(s: seq<LabeledInstruction>, i: int)
  {
    0 <= i < |s| && !s[i].ins.Undefined?
  }

  predicate IsFirstDefined(s: seq<LabeledInstruction>, j: int)
  {
    Defined(s, j) && forall k :: 0 <= k < j ==> !Defined(s, k)
  }

  predicate IsNextDefined(s: seq<LabeledInstruction>, i: int, j: int)
  {
    Defined(s, i) && i < j && Defined(s, j) && forall k :: i < k < j ==> !Defined(s, k)
  }

  predicate IsLastDefined(s: seq<LabeledInstruction>, i: int)
  {
    Defined(s, i) && forall k :: i < k < |s| ==> !Defined(s, k)
  }

  /** The last instruction that is not Undefined falls through. */
  ghost predicate FallsOffEnd(s: seq<LabeledInstruction>)
  {
    exists i :: IsLastDefined(s, i) && HasFall(s[i].ins)
  }

  /** The edges contributed by the instructions before index n. */
  ghost predicate FlatEdgeBefore(s: seq<LabeledInstruction>, n: int, a: Label, b: Label)
  {
    || (a == EntryLabel && exists j :: 0 <= j < n && IsFirstDefined(s, j) && b == s[j].lbl)
    || (exists i, j :: 0 <= j < n && IsNextDefined(s, i, j) && HasFall(s[i].ins) && a == s[i].lbl && b == s[j].lbl)
    || (exists i :: 0 <= i < n && Defined(s, i) && s[i].ins.Jmp? && a == s[i].lbl && b == s[i].ins.target)
    || (exists i :: 0 <= i < n && Defined(s, i) && s[i].ins.Exit? && a == s[i].lbl && b == ExitLabel)
  }

  /** Every edge of the flat graph: entry, fallthrough, jump and exit edges, and the tolerated final fallthrough. */
  ghost predicate FlatEdge(s: seq<LabeledInstruction>, a: Label, b: Label)
  {
    || FlatEdgeBefore(s, |s|, a, b)
    || (b == ExitLabel && exists i :: IsLastDefined(s, i) && HasFall(s[i].ins) && a == s[i].lbl)
  }

  /** Labels of the flat graph: entry, exit, every defined instruction and every jump target. */
  ghost function FlatLabelsBefore(s: seq<LabeledInstruction>, n: int): set<Label>
  {
    {EntryLabel, ExitLabel}
    + (set i | 0 <= i < n && Defined(s, i) :: s[i].lbl)
    + (set i | 0 <= i < n && Defined(s, i) && s[i].ins.Jmp? :: s[i].ins.target)
  }

  /** The instructions a block collects: those before index n carrying its label, in order. */
  ghost function InstsBefore(s: seq<LabeledInstruction>, n: nat, l: Label): seq<Instruction>
    requires n <= |s|
  {
    if n == 0 then []
    else InstsBefore(s, n - 1, l) + (if Defined(s, n - 1) && s[n - 1].lbl == l then [s[n - 1].ins] else [])
  }

  function LastDefinedBefore(s: seq<LabeledInstruction>, n: nat): (r: Option<nat>)
    requires n <= |s|
    ensures r.Some? ==> r.value < n && Defined(s, r.value) && forall k :: r.value < k < n ==> !Defined(s, k)
    ensures r.None? ==> forall k :: 0 <= k < n ==> !Defined(s, k)
  {
    if n == 0 then None else if Defined(s, n - 1) then Some(n - 1) else LastDefinedBefore(s, n - 1)
  }

  /** The value of `falling_from` after the first n instructions. */
  function FallingFrom(s: seq<LabeledInstruction>, n: nat): Option<Label>
    requires n <= |s|
  {
    match LastDefinedBefore(s, n)
    case None => None
    case Some(i) => if HasFall(s[i].ins) then Some(s[i].lbl) else None
  }

  /** The flat graph of pass 1, completely described. */
  ghost predicate IsFlatCfg(s: seq<LabeledInstruction>, g: Cfg)
  {
    && g.WellFormed()
    && g.blocks.Keys == FlatLabelsBefore(s, |s|)
    && (forall l :: l in g.blocks ==> g.blocks[l].insts == InstsBefore(s, |s|, l))
    && (forall a, b :: g.Edge(a, b) <==> FlatEdge(s, a, b))
  }

  lemma LastDefinedCases(s: seq<LabeledInstruction>, k: nat)
    requires k < |s|
    ensures IsFirstDefined(s, k) <==> Defined(s, k) && LastDefinedBefore(s, k).None?
    ensures forall i :: IsNextDefined(s, i, k) <==> Defined(s, k) && LastDefinedBefore(s, k) == Some(i)
  {
  }

  lemma FlatEdgeStepUndefined(s: seq<LabeledInstruction>, k: nat, a: Label, b: Label)
    requires k < |s| && !Defined(s, k)
    ensures FlatEdgeBefore(s, k + 1, a, b) <==> FlatEdgeBefore(s, k, a, b)
  {
  }

  /** What instruction k adds to the edges of the first k instructions. */
  lemma FlatEdgeStepDefined(s: seq<LabeledInstruction>, k: nat, a: Label, b: Label)
    requires k < |s| && Defined(s, k)
    ensures FlatEdgeBefore(s, k + 1, a, b) <==>
      || FlatEdgeBefore(s, k, a, b)
      || (a == EntryLabel && LastDefinedBefore(s, k).None? && b == s[k].lbl)
      || (FallingFrom(s, k) == Some(a) && b == s[k].lbl)
      || (s[k].ins.Jmp? && a == s[k].lbl && b == s[k].ins.target)
      || (s[k].ins.Exit? && a == s[k].lbl && b == ExitLabel)
  {
    LastDefinedCases(s, k);
    if LastDefinedBefore(s, k).Some? {
      var i := LastDefinedBefore(s, k).value;
      assert IsNextDefined(s, i, k);
    } else {
      assert IsFirstDefined(s, k);
    }
  }

  lemma LastOfAll(s: seq<LabeledInstruction>)
    ensures FallingFrom(s, |s|).Some? <==> FallsOffEnd(s)
    ensures forall a :: FallingFrom(s, |s|) == Some(a) <==> exists i :: IsLastDefined(s, i) && HasFall(s[i].ins) && a == s[i].lbl
  {
    var r := LastDefinedBefore(s, |s|);
    if r.Some? {
      assert IsLastDefined(s, r.value);
    }
  }

  lemma {:induction false} InstsBeforeUnlabelled(s: seq<LabeledInstruction>, n: nat, l: Label)
    requires n <= |s| && l !in FlatLabelsBefore(s, n)
    ensures InstsBefore(s, n, l) == []
  {
    if n > 0 {
      assert l !in FlatLabelsBefore(s, n - 1);
      InstsBeforeUnlabelled(s, n - 1, l);
    }
  }

  ghost predicate FlatEdgesAfter(s: seq<LabeledInstruction>, k: nat, cfg: Cfg)
  {
    forall a, b :: cfg.Edge(a, b) <==> FlatEdgeBefore(s, k, a, b)
  }

  ghost predicate FlatInstsAfter(s: seq<LabeledInstruction>, k: nat, cfg: Cfg)
    requires k <= |s|
  {
    forall l :: l in cfg.blocks ==> cfg.blocks[l].insts == InstsBefore(s, k, l)
  }

  /** The state of pass 1 after the first k instructions. */
  ghost predicate FlatStateAfter(s: seq<LabeledInstruction>, k: nat, cfg: Cfg, first: bool, fallingFrom: Option<Label>)
    requires k <= |s|
  {
    && cfg.WellFormed()
    && cfg.blocks.Keys == FlatLabelsBefore(s, k)
    && FlatInstsAfter(s, k, cfg)
    && FlatEdgesAfter(s, k, cfg)
    && (first <==> LastDefinedBefore(s, k).None?)
    && fallingFrom == FallingFrom(s, k)
  }

  /** The edges one instruction adds in pass 1. */
  function StepEdges(here: Label, ins: Instruction, first: bool, fallingFrom: Option<Label>): set<(Label, Label)>
  {
    (if first then {(EntryLabel, here)} else {})
    + (if fallingFrom.Some? then {(fallingFrom.value, here)} else {})
    + (if ins.Jmp? then {(here, ins.target)} else {})
    + (if ins.Exit? then {(here, ExitLabel)} else {})
  }

  /** `a >> b` when `cond` holds; the graph unchanged otherwise. */
  function LinkIf(cfg: Cfg, cond: bool, a: Label, b: Label): (g: Cfg)
    requires cfg.WellFormed()
    requires cond ==> a in cfg.blocks && b in cfg.blocks
    ensures g.WellFormed()
    ensures g.blocks.Keys == cfg.blocks.Keys
    ensures forall l :: l in cfg.blocks ==> g.blocks[l].insts == cfg.blocks[l].insts
    ensures forall x, y :: g.Edge(x, y) <==> cfg.Edge(x, y) || (cond && x == a && y == b)
  {
    if cond then cfg.AddEdgeWellFormed(a, b); cfg.AddEdge(a, b) else cfg
  }

  /** Lines 148-159: the block of an instruction, its entry edge and its fallthrough edge. */
  function LinkIncoming(cfg0: Cfg, first0: bool, fallingFrom0: Option<Label>, here: Label, ins: Instruction): (g: Cfg)
    requires cfg0.WellFormed()
    requires fallingFrom0.Some? ==> fallingFrom0.value in cfg0.blocks
    ensures g.WellFormed()
    ensures g.blocks.Keys == cfg0.blocks.Keys + {here}
    ensures forall l :: l in g.blocks ==>
      g.blocks[l].insts == (if l in cfg0.blocks then cfg0.blocks[l].insts else []) + (if l == here then [ins] else [])
    ensures forall a, b :: g.Edge(a, b) <==>
      (cfg0.Edge(a, b) || (first0 && a == EntryLabel && b == here) || (fallingFrom0.Some? && a == fallingFrom0.value && b == here))
  {
    var g1 := cfg0.Insert(here);
    var g2 := LinkIf(g1, first0, EntryLabel, here);
    var g3 := g2.Append(here, ins);
    var g4 := LinkIf(g3, fallingFrom0.Some?, if fallingFrom0.Some? then fallingFrom0.value else here, here);
    IncomingInsts(cfg0, g1, g2, g3, g4, here, ins);
    g4
  }

  /** The instructions after the four steps of LinkIncoming: `ins` lands at the end of `here` only. */
  lemma IncomingInsts(cfg0: Cfg, g1: Cfg, g2: Cfg, g3: Cfg, g4: Cfg, here: Label, ins: Instruction)
    requires g1.blocks.Keys == cfg0.blocks.Keys + {here}
    requires here !in cfg0.blocks ==> g1.blocks[here] == EmptyBlock
    requires forall x :: x in cfg0.blocks ==> g1.blocks[x] == cfg0.blocks[x]
    requires g2.blocks.Keys == g1.blocks.Keys
    requires forall l :: l in g1.blocks ==> g2.blocks[l].insts == g1.blocks[l].insts
    requires g3.blocks.Keys == g2.blocks.Keys
    requires g3.blocks[here].insts == g2.blocks[here].insts + [ins]
    requires forall x :: x in g2.blocks && x != here ==> g3.blocks[x] == g2.blocks[x]
    requires g4.blocks.Keys == g3.blocks.Keys
    requires forall l :: l in g3.blocks ==> g4.blocks[l].insts == g3.blocks[l].insts
    ensures forall l :: l in g4.blocks ==>
      g4.blocks[l].insts == (if l in cfg0.blocks then cfg0.blocks[l].insts else []) + (if l == here then [ins] else [])
  {
    forall l | l in g4.blocks
      ensures g4.blocks[l].insts == (if l in cfg0.blocks then cfg0.blocks[l].insts else []) + (if l == here then [ins] else [])
    {
      assert g4.blocks[l].insts == g3.blocks[l].insts;
      if l != here {
        assert g3.blocks[l].insts == g1.blocks[l].insts;
      }
    }
  }

  /** Lines 163-169: the jump edge and the exit edge of an instruction. */
  function LinkOutgoing(cfg0: Cfg, here: Label, ins: Instruction): (g: Cfg)
    requires cfg0.WellFormed() && here in cfg0.blocks
    ensures g.WellFormed()
    ensures g.blocks.Keys == cfg0.blocks.Keys + (if ins.Jmp? then {ins.target} else {})
    ensures forall l :: l in cfg0.blocks ==> g.blocks[l].insts == cfg0.blocks[l].insts
    ensures forall l :: l in g.blocks && l !in cfg0.blocks ==> g.blocks[l].insts == []
    ensures forall a, b :: g.Edge(a, b) <==>
      (cfg0.Edge(a, b) || (ins.Jmp? && a == here && b == ins.target) || (ins.Exit? && a == here && b == ExitLabel))
  {
    var jumpTarget := GetJump(ins);
    var g1 := if jumpTarget.Some? then cfg0.Insert(jumpTarget.value) else cfg0;
    var g2 := LinkIf(g1, jumpTarget.Some?, here, if jumpTarget.Some? then jumpTarget.value else here);
    LinkIf(g2, ins.Exit?, here, ExitLabel)
  }

  /** One iteration of pass 1 (lines 148-169) for an instruction that is not Undefined. */
  method AddFlatInstruction(cfg0: Cfg, first0: bool, fallingFrom0: Option<Label>, here: Label, ins: Instruction)
    returns (cfg: Cfg, first: bool, fallingFrom: Option<Label>)
    requires cfg0.WellFormed()
    requires fallingFrom0.Some? ==> fallingFrom0.value in cfg0.blocks
    ensures cfg.WellFormed()
    ensures cfg.blocks.Keys == cfg0.blocks.Keys + {here} + (if ins.Jmp? then {ins.target} else {})
    ensures forall l :: l in cfg.blocks ==>
      cfg.blocks[l].insts == (if l in cfg0.blocks then cfg0.blocks[l].insts else []) + (if l == here then [ins] else [])
    ensures forall a, b :: cfg.Edge(a, b) <==> cfg0.Edge(a, b) || (a, b) in StepEdges(here, ins, first0, fallingFrom0)
    ensures !first
    ensures fallingFrom == if HasFall(ins) then Some(here) else None
  {
    var g := LinkIncoming(cfg0, first0, fallingFrom0, here, ins);
    first := false;
    fallingFrom := if HasFall(ins) then Some(here) else None;
    cfg := LinkOutgoing(g, here, ins);
    StepComposes(cfg0, g, cfg, first0, fallingFrom0, here, ins);
  }

  lemma StepComposes(cfg0: Cfg, g: Cfg, cfg: Cfg, first0: bool, fallingFrom0: Option<Label>, here: Label, ins: Instruction)
    requires g.blocks.Keys == cfg0.blocks.Keys + {here}
    requires forall l :: l in g.blocks ==>
      g.blocks[l].insts == (if l in cfg0.blocks then cfg0.blocks[l].insts else []) + (if l == here then [ins] else [])
    requires forall a, b :: g.Edge(a, b) <==>
      (cfg0.Edge(a, b) || (first0 && a == EntryLabel && b == here) || (fallingFrom0.Some? && a == fallingFrom0.value && b == here))
    requires cfg.blocks.Keys == g.blocks.Keys + (if ins.Jmp? then {ins.target} else {})
    requires forall l :: l in g.blocks ==> cfg.blocks[l].insts == g.blocks[l].insts
    requires forall l :: l in cfg.blocks && l !in g.blocks ==> cfg.blocks[l].insts == []
    requires forall a, b :: cfg.Edge(a, b) <==>
      (g.Edge(a, b) || (ins.Jmp? && a == here && b == ins.target) || (ins.Exit? && a == here && b == ExitLabel))
    ensures cfg.blocks.Keys == cfg0.blocks.Keys + {here} + (if ins.Jmp? then {ins.target} else {})
    ensures forall l :: l in cfg.blocks ==>
      cfg.blocks[l].insts == (if l in cfg0.blocks then cfg0.blocks[l].insts else []) + (if l == here then [ins] else [])
    ensures forall a, b :: cfg.Edge(a, b) <==> cfg0.Edge(a, b) || (a, b) in StepEdges(here, ins, first0, fallingFrom0)
  {
    forall l | l in cfg.blocks
      ensures cfg.blocks[l].insts == (if l in cfg0.blocks then cfg0.blocks[l].insts else []) + (if l == here then [ins] else [])
    {
      if l !in g.blocks {
        assert l !in cfg0.blocks && l != here;
      }
    }
  }

  lemma FlatEdgesStep(s: seq<LabeledInstruction>, k: nat, cfg0: Cfg, first0: bool, fallingFrom0: Option<Label>, cfg: Cfg)
    requires k < |s| && Defined(s, k)
    requires FlatEdgesAfter(s, k, cfg0)
    requires first0 <==> LastDefinedBefore(s, k).None?
    requires fallingFrom0 == FallingFrom(s, k)
    requires forall a, b :: cfg.Edge(a, b) <==> cfg0.Edge(a, b) || (a, b) in StepEdges(s[k].lbl, s[k].ins, first0, fallingFrom0)
    ensures FlatEdgesAfter(s, k + 1, cfg)
  {
    forall a, b ensures cfg.Edge(a, b) <==> FlatEdgeBefore(s, k + 1, a, b) {
      FlatEdgeStepDefined(s, k, a, b);
    }
  }

  lemma FlatInstsStep(s: seq<LabeledInstruction>, k: nat, cfg0: Cfg, cfg: Cfg)
    requires k < |s| && Defined(s, k)
    requires cfg0.blocks.Keys == FlatLabelsBefore(s, k)
    requires FlatInstsAfter(s, k, cfg0)
    requires forall l :: l in cfg.blocks ==>
      cfg.blocks[l].insts == (if l in cfg0.blocks then cfg0.blocks[l].insts else []) + (if l == s[k].lbl then [s[k].ins] else [])
    ensures FlatInstsAfter(s, k + 1, cfg)
  {
    forall l | l in cfg.blocks ensures cfg.blocks[l].insts == InstsBefore(s, k + 1, l) {
      if l !in cfg0.blocks {
        InstsBeforeUnlabelled(s, k, l);
      }
    }
  }

  lemma FlatLabelsStep(s: seq<LabeledInstruction>, k: nat)
    requires k < |s|
    ensures FlatLabelsBefore(s, k + 1) == FlatLabelsBefore(s, k)
      + (if Defined(s, k) then {s[k].lbl} else {})
      + (if Defined(s, k) && s[k].ins.Jmp? then {s[k].ins.target} else {})
  {
  }

  /** One iteration of the loop of pass 1 (lines 142-170). */
  method FlatStep(insts: seq<LabeledInstruction>, k: nat, cfg0: Cfg, first0: bool, fallingFrom0: Option<Label>)
    returns (cfg: Cfg, first: bool, fallingFrom: Option<Label>)
    requires k < |insts|
    requires FlatStateAfter(insts, k, cfg0, first0, fallingFrom0)
    ensures FlatStateAfter(insts, k + 1, cfg, first, fallingFrom)
  {
    FlatLabelsStep(insts, k);
    if insts[k].ins.Undefined? {
      forall a, b ensures FlatEdgeBefore(insts, k + 1, a, b) <==> FlatEdgeBefore(insts, k, a, b) {
        FlatEdgeStepUndefined(insts, k, a, b);
      }
      cfg, first, fallingFrom := cfg0, first0, fallingFrom0;
    } else {
      cfg, first, fallingFrom := AddFlatInstruction(cfg0, first0, fallingFrom0, insts[k].lbl, insts[k].ins);
      FlatInstsStep(insts, k, cfg0, cfg);
      FlatEdgesStep(insts, k, cfg0, first0, fallingFrom0, cfg);
    }
  }

  /**
   * Pass 1 of instruction_seq_to_cfg: Undefined instructions are skipped, every
   * other instruction gets its block, and fallthrough, jump and exit edges are
   * added; a final fallthrough is an error when an exit is required.
   */
  method BuildFlatCfg(insts: seq<LabeledInstruction>, mustHaveExit: bool) returns (r: Result<Cfg, BuildError>)
    ensures r.Err? <==> mustHaveExit && FallsOffEnd(insts)
    ensures r.Err? ==> r.error == FallthroughInLastInstruction
    ensures r.Ok? ==> IsFlatCfg(insts, r.value)
  {
    var cfg := EmptyCfg();
    var fallingFrom: Option<Label> := None;
    var first := true;
    for k := 0 to |insts|
      invariant FlatStateAfter(insts, k, cfg, first, fallingFrom)
    {
      cfg, first, fallingFrom := FlatStep(insts, k, cfg, first, fallingFrom);
    }
    FlatComplete(insts, cfg, first, fallingFrom);
    if fallingFrom.Some? {
      if mustHaveExit {
        return Err(FallthroughInLastInstruction);
      }
      cfg := cfg.AddEdge(fallingFrom.value, ExitLabel);
    }
    r := Ok(cfg);
  }

  /** After the last instruction, the pending fallthrough (if any) goes to the exit. */
  lemma FlatComplete(insts: seq<LabeledInstruction>, cfg: Cfg, first: bool, fallingFrom: Option<Label>)
    requires FlatStateAfter(insts, |insts|, cfg, first, fallingFrom)
    ensures fallingFrom.Some? <==> FallsOffEnd(insts)
    ensures fallingFrom.None? ==> IsFlatCfg(insts, cfg)
    ensures fallingFrom.Some? ==> IsFlatCfg(insts, cfg.AddEdge(fallingFrom.value, ExitLabel))
  {
    LastOfAll(insts);
    if fallingFrom.Some? {
      cfg.AddEdgeWellFormed(fallingFrom.value, ExitLabel);
    }
  }
}
