/** instruction_seq_to_cfg: the flat graph of pass 1, then every local call inlined in pass 2. */
module AsmCfg {
  import opened Wrappers
  import opened Instructions
  import opened CfgGraph
  import opened CfgBuilder
  import opened NestedInlining

  predicate NoLocalCalls(insts: seq<LabeledInstruction>)
  {
    forall i :: 0 <= i < |insts| ==> !insts[i].ins.CallLocal?
  }

  /**
   * Lines 136-189. Pass 2 inlines, in program order, the callee of every
   * CallLocal instruction at that instruction's own block. Only pass 1 raises
   * the fallthrough error; a program without local calls gets exactly its
   * flat graph.
   */
  method InstructionSeqToCfg(insts: seq<LabeledInstruction>, mustHaveExit: bool) returns (r: Result<Cfg, BuildError>)
    ensures r == Err(FallthroughInLastInstruction) <==> mustHaveExit && FallsOffEnd(insts)
    ensures NoLocalCalls(insts) ==> (r.Ok? <==> !(mustHaveExit && FallsOffEnd(insts)))
    ensures NoLocalCalls(insts) && r.Ok? ==> IsFlatCfg(insts, r.value)
    ensures r.Ok? ==> r.value.WellFormed() && FlatLabelsBefore(insts, |insts|) <= r.value.blocks.Keys
  {
    var flat := BuildFlatCfg(insts, mustHaveExit);
    if flat.Err? {
      return flat;
    }
    var cfg := flat.value;
    for k := 0 to |insts|
      invariant cfg.WellFormed() && FlatLabelsBefore(insts, |insts|) <= cfg.blocks.Keys
      invariant (forall i :: 0 <= i < k ==> !insts[i].ins.CallLocal?) ==> cfg == flat.value
    {
      if insts[k].ins.CallLocal? {
        ghost var exitTo, seen, walked;
        var inlined;
        inlined, exitTo, seen, walked := AddCfgNodes(cfg, insts[k].lbl, insts[k].ins.callee);
        if inlined.Err? {
          return Err(inlined.error);
        }
        cfg := inlined.value;
      }
    }
    r := Ok(cfg);
  }
}
