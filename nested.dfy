/**
 * The second half of add_cfg_nodes: every block cloned into the new frame
 * whose original label ended up in seen_labels has its CallLocal instructions
 * inlined in turn, one frame deeper, up to MAX_CALL_STACK_FRAMES.
 */
module NestedInlining {
  import opened Wrappers
  import opened Strings
  import opened Labels
  import opened Instructions
  import opened CfgGraph
  import opened CfgBuilder
  import opened MacroInlining

  /** A label belongs to the frame `frame` or to a frame nested inside it. */
  predicate Within(l: Label, frame: string)
  {
    StartsWith(l.stackFramePrefix, frame)
  }

  predicate HasLocalCall(insts: seq<Instruction>)
  {
    exists i :: 0 <= i < |insts| && insts[i].CallLocal?
  }

  /** Nesting budget left below a caller: the recursion stops once the depth reaches the maximum. */
  function Budget(caller: Label): nat
  {
    if FrameDepth(caller) < MaxCallStackFrames then MaxCallStackFrames - FrameDepth(caller) else 0
  }

  /**
   * `h` differs from `g` only inside `frame`: no block is lost, every new block
   * lies within the frame, and blocks outside it keep their instructions and
   * their outgoing edges.
   */
  ghost predicate Confined(g: Cfg, h: Cfg, frame: string)
  {
    && h.WellFormed()
    && g.blocks.Keys <= h.blocks.Keys
    && (forall l :: l in h.blocks && l !in g.blocks ==> Within(l, frame))
    && (forall l :: l in g.blocks && !Within(l, frame) ==> h.blocks[l].insts == g.blocks[l].insts)
    && (forall a: Label, b :: !Within(a, frame) ==> (h.Edge(a, b) <==> g.Edge(a, b)))
  }

  /**
   * What one call add_cfg_nodes(g, caller, entry) does, seen from outside the
   * new frame: only the new frame (and the frames nested in it) and the caller
   * change; the caller's CallLocal instructions record the frame, and the
   * caller enters the clone of the callee entry instead of returning block
   * `exitTo`, one of its original successors.
   */
  ghost predicate Inlined(g: Cfg, h: Cfg, caller: Label, entry: Label, exitTo: Label)
  {
    var F := LabelToString(caller);
    && h.WellFormed()
    && g.blocks.Keys <= h.blocks.Keys
    && (forall l :: l in h.blocks && l !in g.blocks ==> Within(l, F))
    && (forall l :: l in g.blocks && !Within(l, F) && l != caller ==> h.blocks[l].insts == g.blocks[l].insts)
    && (forall a: Label, b :: !Within(a, F) && a != caller ==> (h.Edge(a, b) <==> g.Edge(a, b)))
    && caller in g.blocks && exitTo in g.blocks[caller].next
    && h.blocks[caller].insts == RewriteCallLocals(g.blocks[caller].insts, F)
    && (forall b :: h.Edge(caller, b) <==> (g.Edge(caller, b) || b == CloneLabel(entry, F)) && b != exitTo)
  }

  /** Two instruction lists hold the same local calls at the same positions. */
  predicate SameCalls(a: seq<Instruction>, b: seq<Instruction>)
  {
    && |a| == |b|
    && (forall i :: 0 <= i < |a| ==> (a[i].CallLocal? <==> b[i].CallLocal?))
    && (forall i :: 0 <= i < |a| && a[i].CallLocal? ==> a[i].callee == b[i].callee)
  }

  lemma WithinItself(frame: string)
    ensures StartsWith(frame, frame)
  {
    assert frame[..|frame|] == frame;
  }

  /** A caller is never within its own new frame, which is longer than its prefix. */
  lemma CallerOutside(caller: Label)
    ensures !Within(caller, LabelToString(caller))
  {
    PrintedLongerThanPrefix(caller);
  }

  /** Frames nested below a block of `frame` are within `frame`. */
  lemma DeeperIsWithin(node: Label, frame: string, l: Label)
    requires node.stackFramePrefix == frame
    requires Within(l, LabelToString(node))
    ensures Within(l, frame)
  {
    PrintedStartsWithPrefix(node);
    StartsWithTransitive(l.stackFramePrefix, LabelToString(node), frame);
  }

  lemma ConfinedTrans(g: Cfg, h: Cfg, k: Cfg, frame: string)
    requires Confined(g, h, frame) && Confined(h, k, frame)
    ensures Confined(g, k, frame)
  {
  }

  /** Inlining a call made from a block of `frame` stays within `frame`. */
  lemma NestedConfined(g: Cfg, h: Cfg, node: Label, entry: Label, exitTo: Label, frame: string)
    requires Inlined(g, h, node, entry, exitTo) && node.stackFramePrefix == frame
    ensures Confined(g, h, frame)
  {
    WithinItself(frame);
    forall l | l in h.blocks && l !in g.blocks
      ensures Within(l, frame)
    {
      DeeperIsWithin(node, frame, l);
    }
    forall l | l in g.blocks && !Within(l, frame)
      ensures h.blocks[l].insts == g.blocks[l].insts
    {
      if Within(l, LabelToString(node)) {
        DeeperIsWithin(node, frame, l);
      }
    }
    forall a: Label, b | !Within(a, frame)
      ensures h.Edge(a, b) <==> g.Edge(a, b)
    {
      if Within(a, LabelToString(node)) {
        DeeperIsWithin(node, frame, a);
      }
    }
  }

  /** The walk of add_cfg_nodes, once its edge to the return block is gone, is an inlining step. */
  lemma WalkInlined(site: Site, c: Cloned, order: seq<Label>)
    requires CloneDone(site, c, order) && site.frame == LabelToString(site.caller)
    ensures Inlined(site.cfg0, c.cfg, site.caller, site.entry, site.exitTo)
    ensures forall m :: m in c.seen ==> site.Clone(m) in c.cfg.blocks
  {
    WithinItself(site.frame);
    forall l | l in c.cfg.blocks && l !in site.cfg0.blocks
      ensures Within(l, site.frame)
    {
      assert l in ClonesOf(site, order);
    }
    forall m | m in c.seen
      ensures site.Clone(m) in c.cfg.blocks
    {
      assert site.Clone(m) in ClonesOf(site, order);
    }
  }

  lemma ComposeInlined(g: Cfg, h0: Cfg, h: Cfg, caller: Label, entry: Label, exitTo: Label)
    requires Inlined(g, h0, caller, entry, exitTo) && Confined(h0, h, LabelToString(caller))
    ensures Inlined(g, h, caller, entry, exitTo)
  {
    CallerOutside(caller);
  }

  lemma NoCallsExtend(s: seq<Instruction>, i: nat)
    requires i < |s| && !HasLocalCall(s[..i]) && !s[i].CallLocal?
    ensures !HasLocalCall(s[..i + 1])
  {
    assert forall k :: 0 <= k < i ==> s[..i + 1][k] == s[..i][k];
  }

  lemma RewriteKeepsCalls(insts: seq<Instruction>, frame: string)
    ensures SameCalls(RewriteCallLocals(insts, frame), insts)
  {
  }

  /**
   * Lines 43-133 of add_cfg_nodes: the walk, then the nested calls. A caller
   * already at depth MAX_CALL_STACK_FRAMES or more succeeds exactly when no
   * block of its new frame that drives the nested calls holds a CallLocal.
   */
  method AddCfgNodes(g: Cfg, caller: Label, entry: Label) returns (r: Result<Cfg, BuildError>, ghost exitTo: Label, ghost seen: set<Label>, ghost walked: Cfg)
    requires g.WellFormed()
    ensures caller !in g.blocks ==> r == Err(MissingBlock(caller))
    ensures caller in g.blocks && g.blocks[caller].next == {} ==> r == Err(NoReturnSuccessor(caller))
    ensures caller in g.blocks && g.blocks[caller].next != {} && entry.stackFramePrefix == LabelToString(caller) ==>
      r == Err(IllegalRecursion(LabelToString(caller)))
    ensures caller in g.blocks && g.blocks[caller].next != {} && entry.stackFramePrefix != LabelToString(caller) && entry !in g.blocks ==>
      r == Err(MissingBlock(entry))
    ensures r.Err? ==> r.error != FallthroughInLastInstruction
    ensures caller in g.blocks && g.blocks[caller].next != {} ==>
      (r == Err(IllegalRecursion(LabelToString(caller))) <==> ReachesFrame(g, caller, entry, LabelToString(caller)))
    ensures r.Err? && r.error.IllegalRecursion? ==> |r.error.prefix| >= |LabelToString(caller)|
    ensures (caller in g.blocks && g.blocks[caller].next != {} && entry in g.blocks
             && !ReachesFrame(g, caller, entry, LabelToString(caller)))
      <==> exists order :: CloneDone(Site(g, caller, entry, exitTo, LabelToString(caller)), Cloned(walked, seen, exitTo), order)
    ensures r.Ok? || r == Err(TooManyCallStackFrames) ==>
      exists order :: CloneDone(Site(g, caller, entry, exitTo, LabelToString(caller)), Cloned(walked, seen, exitTo), order)
    ensures r.Ok? ==> Inlined(g, r.value, caller, entry, exitTo)
    ensures FrameDepth(caller) >= MaxCallStackFrames && r.Ok? ==>
      && r.value == walked
      && forall m :: m in seen ==>
           (CloneLabel(m, LabelToString(caller)) in walked.blocks
            && !HasLocalCall(walked.blocks[CloneLabel(m, LabelToString(caller))].insts))
    ensures FrameDepth(caller) >= MaxCallStackFrames && r == Err(TooManyCallStackFrames) ==>
      exists m :: m in seen && CloneLabel(m, LabelToString(caller)) in walked.blocks
        && HasLocalCall(walked.blocks[CloneLabel(m, LabelToString(caller))].insts)
    decreases Budget(caller), 3
  {
    ghost var order;
    var c;
    c, order := CloneMacro(g, caller, entry);
    if c.Err? {
      exitTo, seen, walked := caller, {}, g;
      assert forall o :: !CloneDone(Site(g, caller, entry, exitTo, LabelToString(caller)), Cloned(walked, seen, exitTo), o);
      return Err(c.error), exitTo, seen, walked;
    }
    WalkInlined(Site(g, caller, entry, c.value.exitTo, LabelToString(caller)), c.value, order);
    exitTo, seen, walked := c.value.exitTo, c.value.seen, c.value.cfg;
    var nested := InlineSeen(c.value.cfg, caller, c.value.seen);
    if nested.Err? {
      return Err(nested.error), exitTo, seen, walked;
    }
    ComposeInlined(g, walked, nested.value, caller, entry, exitTo);
    r := Ok(nested.value);
  }

  /** Lines 122-132: each label of seen_labels, in any order, has its clone's local calls inlined. */
  method InlineSeen(h0: Cfg, caller: Label, seen: set<Label>) returns (r: Result<Cfg, BuildError>)
    requires h0.WellFormed()
    requires forall m :: m in seen ==> CloneLabel(m, LabelToString(caller)) in h0.blocks
    ensures r.Err? ==> r.error != FallthroughInLastInstruction
    ensures r.Err? && r.error.IllegalRecursion? ==> |r.error.prefix| > |LabelToString(caller)|
    ensures r.Ok? ==> Confined(h0, r.value, LabelToString(caller))
    ensures FrameDepth(caller) >= MaxCallStackFrames && r.Ok? ==>
      && r.value == h0
      && forall m :: m in seen ==> !HasLocalCall(h0.blocks[CloneLabel(m, LabelToString(caller))].insts)
    ensures FrameDepth(caller) >= MaxCallStackFrames && r.Err? ==>
      && r.error == TooManyCallStackFrames
      && exists m :: m in seen && HasLocalCall(h0.blocks[CloneLabel(m, LabelToString(caller))].insts)
    decreases Budget(caller), 2
  {
    var F := LabelToString(caller);
    var deep := FrameDepth(caller) >= MaxCallStackFrames;
    var h := h0;
    var rest := seen;
    while rest != {}
      invariant rest <= seen
      invariant Confined(h0, h, F)
      invariant deep ==>
        && h == h0
        && forall m :: m in seen - rest ==> !HasLocalCall(h0.blocks[CloneLabel(m, F)].insts)
      decreases rest
    {
      var m :| m in rest;
      var step := InlineBlock(h, caller, CloneLabel(m, F));
      if step.Err? {
        return step;
      }
      ConfinedTrans(h0, h, step.value, F);
      h := step.value;
      rest := rest - {m};
    }
    r := Ok(h);
  }

  /**
   * Lines 123-131: every CallLocal of one cloned block is inlined from that
   * block, unless the caller is already MAX_CALL_STACK_FRAMES deep. The loop
   * reads the live block; inlining from it only records the frame in its
   * CallLocal instructions, so the calls it meets are those it started with.
   */
  method InlineBlock(h0: Cfg, caller: Label, node: Label) returns (r: Result<Cfg, BuildError>)
    requires h0.WellFormed() && node in h0.blocks && node.stackFramePrefix == LabelToString(caller)
    ensures r.Err? ==> r.error != FallthroughInLastInstruction
    ensures r.Err? && r.error.IllegalRecursion? ==> |r.error.prefix| > |LabelToString(caller)|
    ensures r.Ok? ==> Confined(h0, r.value, LabelToString(caller))
    ensures FrameDepth(caller) >= MaxCallStackFrames ==>
      && (r.Ok? <==> !HasLocalCall(h0.blocks[node].insts))
      && (r.Ok? ==> r.value == h0)
      && (r.Err? ==> r.error == TooManyCallStackFrames)
    decreases Budget(caller), 1
  {
    var F := LabelToString(caller);
    var deep := FrameDepth(caller) >= MaxCallStackFrames;
    var insts0 := h0.blocks[node].insts;
    var h := h0;
    WithinItself(F);
    for i := 0 to |insts0|
      invariant Confined(h0, h, F)
      invariant SameCalls(h.blocks[node].insts, insts0)
      invariant deep ==> h == h0 && !HasLocalCall(insts0[..i])
    {
      var ins := h.blocks[node].insts[i];
      if ins.CallLocal? {
        if deep {
          assert insts0[i].CallLocal?;
          return Err(TooManyCallStackFrames);
        }
        var sub := InlineCall(h0, h, caller, node, ins.callee);
        if sub.Err? {
          return sub;
        }
        h := sub.value;
      } else if deep {
        NoCallsExtend(insts0, i);
      }
    }
    assert insts0[..|insts0|] == insts0;
    r := Ok(h);
  }

  /**
   * A nested call that succeeded leaves the graph confined to the caller's
   * frame and keeps the calling block's calls.
   */
  lemma NestedCallConfined(h0: Cfg, h: Cfg, h': Cfg, caller: Label, node: Label, callee: Label, exitTo: Label)
    requires Confined(h0, h, LabelToString(caller)) && node in h0.blocks && node.stackFramePrefix == LabelToString(caller)
    requires SameCalls(h.blocks[node].insts, h0.blocks[node].insts)
    requires Inlined(h, h', node, callee, exitTo)
    ensures Confined(h0, h', LabelToString(caller))
    ensures SameCalls(h'.blocks[node].insts, h0.blocks[node].insts)
  {
    NestedConfined(h, h', node, callee, exitTo, LabelToString(caller));
    ConfinedTrans(h0, h, h', LabelToString(caller));
    RewriteKeepsCalls(h.blocks[node].insts, LabelToString(node));
  }

  /**
   * Line 129: one nested call, made from the cloned block `node`, one frame
   * deeper than its caller, on a graph `h` that the calls before it changed
   * from `h0` only within the caller's frame.
   */
  method InlineCall(ghost h0: Cfg, h: Cfg, caller: Label, node: Label, callee: Label) returns (r: Result<Cfg, BuildError>)
    requires Confined(h0, h, LabelToString(caller)) && node in h0.blocks && node.stackFramePrefix == LabelToString(caller)
    requires SameCalls(h.blocks[node].insts, h0.blocks[node].insts)
    requires FrameDepth(caller) < MaxCallStackFrames
    ensures r.Err? ==> r.error != FallthroughInLastInstruction
    ensures r.Err? && r.error.IllegalRecursion? ==> |r.error.prefix| > |LabelToString(caller)|
    ensures r.Ok? ==> Confined(h0, r.value, LabelToString(caller))
    ensures r.Ok? ==> SameCalls(r.value.blocks[node].insts, h0.blocks[node].insts)
    decreases Budget(caller), 0
  {
    CloneIsOneFrameDeeper(caller, node.from, node.to);
    ghost var exitTo, seen, walked;
    var sub;
    sub, exitTo, seen, walked := AddCfgNodes(h, node, callee);
    PrintedLongerThanPrefix(node);
    if sub.Err? {
      return Err(sub.error);
    }
    NestedCallConfined(h0, h, sub.value, caller, node, callee, exitTo);
    r := sub;
  }
}
