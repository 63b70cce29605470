/**
 * Pass 2 of instruction_seq_to_cfg: every CallLocal is replaced by a copy of
 * the called function's blocks (add_cfg_nodes). The copy of a label `l` made
 * for the call at `caller` is `Label(l.from, l.to, to_string(caller))`; the
 * printed caller label is the new stack frame's prefix.
 */
module MacroInlining {
  import opened Wrappers
  import opened Strings
  import opened Labels
  import opened Instructions
  import opened CfgGraph
  import opened CfgBuilder

  /** MAX_CALL_STACK_FRAMES. */
  const MaxCallStackFrames: int := 8

  /** The label of `l`'s copy in the stack frame `frame`. */
  function CloneLabel(l: Label, frame: string): Label
  {
    Label(l.from, l.to, frame)
  }

  /** An instruction as copied into a frame: Exit and Call take the frame's prefix. */
  function CloneInstruction(ins: Instruction, frame: string): (r: Instruction)
    ensures ins.Exit? ==> r == Exit(frame)
    ensures ins.Call? ==> r == ins.(stackFramePrefix := frame)
    ensures !ins.Exit? && !ins.Call? ==> r == ins
  {
    match ins
    case Exit(_) => Exit(frame)
    case Call(lookup, pairs, singles, realloc, _) => Call(lookup, pairs, singles, realloc, frame)
    case _ => ins
  }

  /** Copying into a frame keeps what the CFG builder and the statistics look at. */
  lemma CloneKeepsShape(ins: Instruction, frame: string)
    ensures GetJump(CloneInstruction(ins, frame)) == GetJump(ins)
    ensures HasFall(CloneInstruction(ins, frame)) == HasFall(ins)
    ensures CategoryOf(CloneInstruction(ins, frame)) == CategoryOf(ins)
    ensures CloneInstruction(CloneInstruction(ins, frame), frame) == CloneInstruction(ins, frame)
  {
  }

  function CloneInsts(s: seq<Instruction>, frame: string): (r: seq<Instruction>)
    ensures |r| == |s|
    ensures forall i :: 0 <= i < |s| ==> r[i] == CloneInstruction(s[i], frame)
  {
    seq(|s|, i requires 0 <= i < |s| => CloneInstruction(s[i], frame))
  }

  /** The caller's CallLocal instructions record the frame prefix of the call. */
  function RewriteCallLocals(s: seq<Instruction>, frame: string): (r: seq<Instruction>)
    ensures |r| == |s|
    ensures forall i :: 0 <= i < |s| ==>
      r[i] == if s[i].CallLocal? then CallLocal(s[i].callee, frame) else s[i]
  {
    seq(|s|, i requires 0 <= i < |s| => if s[i].CallLocal? then CallLocal(s[i].callee, frame) else s[i])
  }

  /** One call of add_cfg_nodes: the graph it starts from, the call site, the callee entry and the return block. */
  datatype Site = Site(cfg0: Cfg, caller: Label, entry: Label, exitTo: Label, frame: string) {

    function Clone(l: Label): Label
    {
      CloneLabel(l, frame)
    }

    /**
     * The state once exit_to_node has been found; `frame` is to_string(caller),
     * of which only these two consequences are needed here.
     */
    ghost predicate Valid()
    {
      && cfg0.WellFormed() && caller in cfg0.blocks && exitTo in cfg0.blocks[caller].next
      && caller.stackFramePrefix != frame && frame != []
    }

    /** The graph after the caller's CallLocal instructions are rewritten. */
    function Base(): Cfg
    {
      if caller in cfg0.blocks then cfg0.SetInsts(caller, RewriteCallLocals(cfg0.Insts(caller), frame)) else cfg0
    }

    /** The instructions of an original block once the caller's CallLocal instructions are rewritten. */
    function BaseInsts(l: Label): seq<Instruction>
      requires l in cfg0.blocks
    {
      if l == caller then RewriteCallLocals(cfg0.blocks[l].insts, frame) else cfg0.blocks[l].insts
    }

    /** Labels that can enter seen_labels. */
    function Known(): set<Label>
    {
      cfg0.blocks.Keys + {entry}
    }
  }

  /** The state of the walk over the macro's blocks. */
  datatype Walk = Walk(g: Cfg, queue: seq<Label>, seen: set<Label>, first: bool)

  /** Number of queue entries that are already in `s`. */
  function CountIn(q: seq<Label>, s: set<Label>): nat
  {
    if q == [] then 0 else (if q[0] in s then 1 else 0) + CountIn(q[1..], s)
  }

  lemma {:induction false} CountInAppend(a: seq<Label>, b: seq<Label>, s: set<Label>)
    ensures CountIn(a + b, s) == CountIn(a, s) + CountIn(b, s)
  {
    if a == [] {
      assert a + b == b;
    } else {
      assert (a + b)[1..] == a[1..] + b;
      CountInAppend(a[1..], b, s);
    }
  }

  lemma {:induction false} CountInNone(q: seq<Label>, s: set<Label>)
    requires forall x :: x in q ==> x !in s
    ensures CountIn(q, s) == 0
  {
    if q != [] {
      CountInNone(q[1..], s);
    }
  }

  /** Copy of the macro block `m` into the clone `lbl` (insert-or-get, then append). */
  function CloneBlock(g: Cfg, m: Label, lbl: Label, frame: string): (h: Cfg)
    requires m in g.blocks
    ensures h.blocks.Keys == g.blocks.Keys + {lbl}
    ensures h.blocks[lbl].insts == (if lbl in g.blocks then g.blocks[lbl].insts else []) + CloneInsts(g.blocks[m].insts, frame)
    ensures forall x :: x in g.blocks && x != lbl ==> h.blocks[x].insts == g.blocks[x].insts
    ensures forall x, y :: h.Edge(x, y) <==> g.Edge(x, y)
    ensures g.WellFormed() ==> h.WellFormed()
  {
    var g1 := g.Insert(lbl);
    g1.SetInsts(lbl, g1.Insts(lbl) + CloneInsts(g1.Insts(m), frame))
  }

  /** `a` is the copy, in `frame`, of a predecessor of `m`. */
  ghost predicate ClonedPredecessor(g: Cfg, m: Label, a: Label, frame: string)
    requires m in g.blocks
  {
    a in g.blocks && exists p :: p in g.blocks[m].prev && CloneLabel(p, frame) == a
  }

  /** Lines 90-97: link the copies of `m`'s predecessors that already exist to `lbl`. */
  method LinkClonePredecessors(g0: Cfg, m: Label, lbl: Label, frame: string) returns (g: Cfg)
    requires g0.WellFormed() && m in g0.blocks && lbl in g0.blocks
    ensures g.WellFormed()
    ensures g.blocks.Keys == g0.blocks.Keys
    ensures forall x :: x in g0.blocks ==> g.blocks[x].insts == g0.blocks[x].insts
    ensures forall a, b :: g.Edge(a, b) <==> g0.Edge(a, b) || (b == lbl && ClonedPredecessor(g0, m, a, frame))
  {
    g := g0;
    var todo := g0.blocks[m].prev;
    ghost var done: set<Label> := {};
    while todo != {}
      invariant todo + done == g0.blocks[m].prev
      invariant g.WellFormed()
      invariant g.blocks.Keys == g0.blocks.Keys
      invariant forall x :: x in g0.blocks ==> g.blocks[x].insts == g0.blocks[x].insts
      invariant forall a, b :: g.Edge(a, b) <==> g0.Edge(a, b) || (b == lbl && CloneOfSome(g0, done, a, frame))
      decreases |todo|
    {
      var p :| p in todo;
      var prevLabel := CloneLabel(p, frame);
      ghost var before := g;
      if prevLabel in g.blocks {
        g.AddEdgeWellFormed(prevLabel, lbl);
        g := g.AddEdge(prevLabel, lbl);
      }
      LinkCloneStep(g0, before, g, done, p, lbl, frame);
      MoveOne(todo, done, p);
      todo := todo - {p};
      done := done + {p};
    }
  }

  /** Moving one element from the work set to the done set keeps their union and shrinks the work. */
  lemma MoveOne<T>(todo: set<T>, done: set<T>, p: T)
    requires p in todo
    ensures (todo - {p}) + (done + {p}) == todo + done
    ensures |todo - {p}| < |todo|
  {
  }

  /** One more predecessor's copy linked to `lbl`. */
  lemma LinkCloneStep(g0: Cfg, g: Cfg, g': Cfg, done: set<Label>, p: Label, lbl: Label, frame: string)
    requires forall a, b :: g.Edge(a, b) <==> g0.Edge(a, b) || (b == lbl && CloneOfSome(g0, done, a, frame))
    requires forall a, b :: g'.Edge(a, b) <==> g.Edge(a, b) || (CloneLabel(p, frame) in g0.blocks && a == CloneLabel(p, frame) && b == lbl)
    ensures forall a, b :: g'.Edge(a, b) <==> g0.Edge(a, b) || (b == lbl && CloneOfSome(g0, done + {p}, a, frame))
  {
    CloneOfSomeAdd(g0, done, p, frame);
  }

  /** `a` is a block of `g` and the copy of one of `ps` into `frame`. */
  ghost predicate CloneOfSome(g: Cfg, ps: set<Label>, a: Label, frame: string)
  {
    a in g.blocks && exists p :: p in ps && CloneLabel(p, frame) == a
  }

  lemma CloneOfSomeAdd(g: Cfg, ps: set<Label>, p: Label, frame: string)
    ensures forall a :: CloneOfSome(g, ps + {p}, a, frame) <==>
      CloneOfSome(g, ps, a, frame) || (a in g.blocks && a == CloneLabel(p, frame))
  {
    forall a | CloneOfSome(g, ps + {p}, a, frame)
      ensures CloneOfSome(g, ps, a, frame) || a == CloneLabel(p, frame)
    {
      var q :| q in ps + {p} && CloneLabel(q, frame) == a;
      if q != p {
        assert q in ps;
      }
    }
  }

  /**
   * Lines 99-111: an exit successor of `m` links `lbl` to the return block;
   * every other successor not yet seen is queued, and then `m` itself (not
   * the successor) is added to the seen set.
   */
  method WalkSuccessors(g0: Cfg, m: Label, lbl: Label, exitTo: Label, queue0: seq<Label>, seen0: set<Label>)
    returns (g: Cfg, queue: seq<Label>, seen: set<Label>)
    requires g0.WellFormed() && m in g0.blocks && lbl in g0.blocks && exitTo in g0.blocks
    ensures g.WellFormed()
    ensures g.blocks.Keys == g0.blocks.Keys
    ensures forall x :: x in g0.blocks ==> g.blocks[x].insts == g0.blocks[x].insts
    ensures forall a, b :: g.Edge(a, b) <==> g0.Edge(a, b) || (a == lbl && b == exitTo && g0.Edge(m, ExitLabel))
    ensures |queue| >= |queue0| && queue[..|queue0|] == queue0
    ensures forall n :: n in queue[|queue0|..] ==> g0.Edge(m, n) && n != ExitLabel && n !in seen0
    ensures forall n :: g0.Edge(m, n) && n != ExitLabel && n !in seen0 && n != m ==> n in queue[|queue0|..]
    ensures seen == if |queue| == |queue0| then seen0 else seen0 + {m}
  {
    g, queue, seen := g0, queue0, seen0;
    var todo := g0.blocks[m].next;
    ghost var done: set<Label> := {};
    ghost var added: seq<Label> := [];
    while todo != {}
      invariant todo + done == g0.blocks[m].next
      invariant g.WellFormed()
      invariant g.blocks.Keys == g0.blocks.Keys
      invariant forall x :: x in g0.blocks ==> g.blocks[x].insts == g0.blocks[x].insts
      invariant forall a, b :: g.Edge(a, b) <==> g0.Edge(a, b) || (a == lbl && b == exitTo && ExitLabel in done)
      invariant QueueInv(m, queue0, seen0, queue, seen, done, added)
      decreases |todo|
    {
      var n :| n in todo;
      ghost var before := g;
      ghost var (queueBefore, seenBefore, addedBefore) := (queue, seen, added);
      if n == ExitLabel {
        g.AddEdgeWellFormed(lbl, exitTo);
        g := g.AddEdge(lbl, exitTo);
      } else if n !in seen {
        queue := queue + [n];
        added := added + [n];
        seen := seen + {m};
      }
      QueueStep(m, queue0, seen0, queueBefore, seenBefore, done, addedBefore, n, queue, seen, added);
      ExitEdgeStep(g0, before, g, done, n, lbl, exitTo);
      MoveOne(todo, done, n);
      todo := todo - {n};
      done := done + {n};
    }
    assert queue[|queue0|..] == added;
  }

  /**
   * The queue of WalkSuccessors: what it appended to `queue0` (`added`) are
   * the successors among `done` that are neither the exit nor seen before;
   * `m` joins the seen set once anything is appended.
   */
  ghost predicate QueueInv(m: Label, queue0: seq<Label>, seen0: set<Label>, queue: seq<Label>, seen: set<Label>,
                           done: set<Label>, added: seq<Label>)
  {
    && queue == queue0 + added
    && (forall n :: n in added ==> n in done && n != ExitLabel && n !in seen0)
    && (forall n :: n in done && n != ExitLabel && n !in seen0 && n != m ==> n in added)
    && seen == if added == [] then seen0 else seen0 + {m}
  }

  /** One successor `n` handled; `queue'`, `seen'` and `added'` are the values after it. */
  lemma QueueStep(m: Label, queue0: seq<Label>, seen0: set<Label>, queue: seq<Label>, seen: set<Label>,
                  done: set<Label>, added: seq<Label>, n: Label, queue': seq<Label>, seen': set<Label>, added': seq<Label>)
    requires QueueInv(m, queue0, seen0, queue, seen, done, added)
    requires queue' == if n != ExitLabel && n !in seen then queue + [n] else queue
    requires seen' == if n != ExitLabel && n !in seen then seen + {m} else seen
    requires added' == if n != ExitLabel && n !in seen then added + [n] else added
    ensures QueueInv(m, queue0, seen0, queue', seen', done + {n}, added')
  {
    if n != ExitLabel && n !in seen {
      assert (queue0 + added) + [n] == queue0 + (added + [n]);
      assert forall x :: x in added + [n] <==> x in added || x == n;
    }
  }

  /** The exit edge of the clone is there once the exit successor has been seen. */
  lemma ExitEdgeStep(g0: Cfg, g: Cfg, g': Cfg, done: set<Label>, n: Label, lbl: Label, exitTo: Label)
    requires forall a, b :: g.Edge(a, b) <==> g0.Edge(a, b) || (a == lbl && b == exitTo && ExitLabel in done)
    requires forall a, b :: g'.Edge(a, b) <==> g.Edge(a, b) || (n == ExitLabel && a == lbl && b == exitTo)
    ensures forall a, b :: g'.Edge(a, b) <==> g0.Edge(a, b) || (a == lbl && b == exitTo && ExitLabel in done + {n})
  {
  }

  /** The copies of the macro blocks that the walk so far appended to the clone `l`. */
  ghost function CopiesFor(site: Site, order: seq<Label>, l: Label): seq<Instruction>
  {
    if order == [] then []
    else
      var m := order[|order| - 1];
      CopiesFor(site, order[..|order| - 1], l)
        + (if site.Clone(m) == l && m in site.cfg0.blocks then CloneInsts(site.BaseInsts(m), site.frame) else [])
  }

  lemma {:induction false} CopiesForUntouched(site: Site, order: seq<Label>, l: Label)
    requires forall m :: m in order ==> site.Clone(m) != l
    ensures CopiesFor(site, order, l) == []
  {
    if order != [] {
      CopiesForUntouched(site, order[..|order| - 1], l);
    }
  }

  ghost function ClonesOf(site: Site, order: seq<Label>): set<Label>
  {
    set m | m in order :: site.Clone(m)
  }

  /** Some block visited so far has an edge to `n`. */
  ghost predicate FedBy(cfg: Cfg, order: seq<Label>, n: Label)
  {
    exists i :: 0 <= i < |order| && cfg.Edge(order[i], n)
  }

  ghost predicate KeysInv(site: Site, w: Walk, order: seq<Label>)
  {
    w.g.blocks.Keys == site.cfg0.blocks.Keys + ClonesOf(site, order)
  }

  /** Blocks outside the new frame keep their instructions; clones hold their earlier contents plus the copies. */
  ghost predicate InstsInv(site: Site, w: Walk, order: seq<Label>)
  {
    && (forall l :: l in w.g.blocks && l in site.cfg0.blocks && l.stackFramePrefix != site.frame ==>
          w.g.blocks[l].insts == site.BaseInsts(l))
    && (forall l :: l in w.g.blocks && l.stackFramePrefix == site.frame ==>
          w.g.blocks[l].insts == (if l in site.cfg0.blocks then site.cfg0.blocks[l].insts else []) + CopiesFor(site, order, l))
  }

  /** Edges leaving blocks outside the frame are the original ones, plus the caller's edge into the copy. */
  ghost predicate EdgesInv(site: Site, w: Walk)
  {
    && (forall a: Label, b: Label :: a.stackFramePrefix != site.frame && a != site.caller ==> (w.g.Edge(a, b) <==> site.cfg0.Edge(a, b)))
    && (forall b :: w.g.Edge(site.caller, b) <==> (site.cfg0.Edge(site.caller, b) || (!w.first && b == site.Clone(site.entry))))
    && (forall a, b :: site.cfg0.Edge(a, b) ==> w.g.Edge(a, b))
  }

  /** The visiting order starts at the entry; only visited or queued labels are seen. */
  ghost predicate WalkShape(site: Site, w: Walk, order: seq<Label>)
  {
    && (w.first <==> order == [])
    && (order == [] ==> w.queue == [site.entry])
    && (order != [] ==> order[0] == site.entry)
    && (forall m: Label :: m in order ==> m in site.cfg0.blocks && m.stackFramePrefix != site.frame)
    && (forall q :: q in w.queue ==> q == site.entry || q in w.g.blocks)
    && site.entry in w.seen
    && (forall s :: s in w.seen ==> s == site.entry || s in order)
  }

  /** Every original successor of a visited block is seen, queued or visited. */
  ghost predicate WalkClosed(site: Site, w: Walk, order: seq<Label>)
  {
    forall i, n :: 0 <= i < |order| && site.cfg0.Edge(order[i], n) && n != ExitLabel ==>
      n in w.seen || n in w.queue || n in order
  }

  /** Every queued or visited label after the entry is an original successor of an earlier visited one. */
  ghost predicate WalkFed(site: Site, w: Walk, order: seq<Label>)
  {
    && (forall q: Label :: q in w.queue ==> order == [] || q.stackFramePrefix == site.frame || FedBy(site.cfg0, order, q))
    && (forall j :: 0 < j < |order| ==> FedBy(site.cfg0, order[..j], order[j]))
  }

  ghost predicate WalkInv(site: Site, w: Walk, order: seq<Label>)
  {
    WalkShape(site, w, order) && WalkClosed(site, w, order) && WalkFed(site, w, order)
  }

  /** Exit transitions of visited blocks return to exitTo, and forward edges between visited blocks are copied. */
  ghost predicate CloneEdgesInv(site: Site, w: Walk, order: seq<Label>)
  {
    && (forall i :: 0 <= i < |order| && site.cfg0.Edge(order[i], ExitLabel) ==> w.g.Edge(site.Clone(order[i]), site.exitTo))
    && (forall i, j :: 0 <= i <= j < |order| && site.cfg0.Edge(order[i], order[j]) ==>
          w.g.Edge(site.Clone(order[i]), site.Clone(order[j])))
  }

  ghost predicate BfsState(site: Site, w: Walk, order: seq<Label>)
  {
    && site.Valid()
    && w.g.WellFormed()
    && site.caller in w.g.blocks && site.exitTo in w.g.blocks
    && KeysInv(site, w, order)
    && InstsInv(site, w, order)
    && EdgesInv(site, w)
    && WalkInv(site, w, order)
    && CloneEdgesInv(site, w, order)
  }

  /**
   * The edges the walk of lines 60-111 follows out of a visited block: its
   * successors in the graph it started from, other than the exit, and, out of
   * the caller, the edge into the copy of the callee entry that lines 84-88
   * add before the caller's own successors are queued.
   */
  ghost predicate WalkEdge(cfg: Cfg, caller: Label, entry: Label, frame: string, a: Label, b: Label)
  {
    b != ExitLabel && (cfg.Edge(a, b) || (a == caller && b == CloneLabel(entry, frame)))
  }

  /** A path of walk edges from the callee entry. */
  ghost predicate WalkPath(cfg: Cfg, caller: Label, entry: Label, frame: string, p: seq<Label>)
    decreases |p|
  {
    && |p| > 0
    && if |p| == 1 then p[0] == entry
       else WalkPath(cfg, caller, entry, frame, p[..|p| - 1]) && WalkEdge(cfg, caller, entry, frame, p[|p| - 2], p[|p| - 1])
  }

  ghost predicate WalkReaches(cfg: Cfg, caller: Label, entry: Label, frame: string, l: Label)
  {
    exists p :: WalkPath(cfg, caller, entry, frame, p) && p[|p| - 1] == l
  }

  /**
   * The walk meets a label of the new frame: the macro calls itself, directly
   * or through the caller, and lines 68-70 report illegal recursion.
   */
  ghost predicate ReachesFrame(cfg: Cfg, caller: Label, entry: Label, frame: string)
  {
    exists l: Label :: WalkReaches(cfg, caller, entry, frame, l) && l.stackFramePrefix == frame
  }

  /** The invariants of the walk loop. */
  ghost predicate WalkState(site: Site, w: Walk, order: seq<Label>)
  {
    BfsState(site, w, order) && ReachInv(site, w, order)
  }

  /**
   * Every queued and every visited label lies on a walk path, and once the
   * caller has been visited the copy of the callee entry waits in the queue.
   */
  ghost predicate ReachInv(site: Site, w: Walk, order: seq<Label>)
  {
    && (forall q :: q in w.queue ==> WalkReaches(site.cfg0, site.caller, site.entry, site.frame, q))
    && (forall m :: m in order ==> WalkReaches(site.cfg0, site.caller, site.entry, site.frame, m))
    && (site.caller in order ==> site.Clone(site.entry) in w.queue)
  }

  /** The lexicographic measure of the walk goes down. */
  ghost predicate Progress(site: Site, w: Walk, w': Walk)
  {
    var before := |site.Known() - w.seen|;
    var after := |site.Known() - w'.seen|;
    after < before
    || (after == before && CountIn(w'.queue, w'.seen) < CountIn(w.queue, w.seen))
    || (after == before && CountIn(w'.queue, w'.seen) == CountIn(w.queue, w.seen) && |w'.queue| < |w.queue|)
  }

  lemma FrameIsNotCallers(caller: Label)
    ensures caller.stackFramePrefix != LabelToString(caller)
    ensures LabelToString(caller) != []
  {
    PrintedLongerThanPrefix(caller);
  }

  /** The walk state after one step, in terms of the graphs each part of the step produced. */
  lemma StepEdgesCompose(g: Cfg, g1: Cfg, g2: Cfg, g3: Cfg, g4: Cfg, first: bool, caller: Label, m: Label, lbl: Label, exitTo: Label, frame: string)
    requires m in g2.blocks
    requires forall x, y :: g1.Edge(x, y) <==> g.Edge(x, y)
    requires forall a, b :: g2.Edge(a, b) <==> g1.Edge(a, b) || (first && a == caller && b == lbl)
    requires forall a, b :: g3.Edge(a, b) <==> g2.Edge(a, b) || (b == lbl && ClonedPredecessor(g2, m, a, frame))
    requires forall a, b :: g4.Edge(a, b) <==> g3.Edge(a, b) || (a == lbl && b == exitTo && g3.Edge(m, ExitLabel))
    ensures forall a, b :: g4.Edge(a, b) <==>
      (|| g.Edge(a, b)
       || (first && a == caller && b == lbl)
       || (b == lbl && ClonedPredecessor(g2, m, a, frame))
       || (a == lbl && b == exitTo && g3.Edge(m, ExitLabel)))
    ensures forall a, b :: g2.Edge(a, b) ==> g4.Edge(a, b)
    ensures forall a, b :: g.Edge(a, b) ==> g2.Edge(a, b) && g3.Edge(a, b)
    ensures forall a, b :: g.Edge(a, b) ==> g4.Edge(a, b)
    ensures forall a :: ClonedPredecessor(g2, m, a, frame) ==> g4.Edge(a, lbl)
    ensures g3.Edge(m, ExitLabel) ==> g4.Edge(lbl, exitTo)
  {
  }

  lemma EdgesStep(site: Site, w: Walk, w': Walk, g2: Cfg, g3: Cfg, m: Label)
    requires EdgesInv(site, w) && !w'.first && site.caller.stackFramePrefix != site.frame
    requires w.first ==> m == site.entry
    requires m in g2.blocks
    requires forall a, b :: w'.g.Edge(a, b) <==>
      (|| w.g.Edge(a, b)
       || (w.first && a == site.caller && b == site.Clone(m))
       || (b == site.Clone(m) && ClonedPredecessor(g2, m, a, site.frame))
       || (a == site.Clone(m) && b == site.exitTo && g3.Edge(m, ExitLabel)))
    ensures EdgesInv(site, w')
  {
  }

  lemma KeysStep(site: Site, w: Walk, order: seq<Label>, w': Walk, m: Label)
    requires KeysInv(site, w, order)
    requires w'.g.blocks.Keys == w.g.blocks.Keys + {site.Clone(m)}
    ensures KeysInv(site, w', order + [m])
  {
    assert ClonesOf(site, order + [m]) == ClonesOf(site, order) + {site.Clone(m)};
  }

  lemma InstsStep(site: Site, w: Walk, order: seq<Label>, w': Walk, g4: Cfg, m: Label)
    requires w'.g == g4
    requires KeysInv(site, w, order) && InstsInv(site, w, order)
    requires m in w.g.blocks && m.stackFramePrefix != site.frame
    requires g4.blocks.Keys == w.g.blocks.Keys + {site.Clone(m)}
    requires forall x :: x in w.g.blocks && x != site.Clone(m) ==> g4.blocks[x].insts == w.g.blocks[x].insts
    requires g4.blocks[site.Clone(m)].insts
      == (if site.Clone(m) in w.g.blocks then w.g.blocks[site.Clone(m)].insts else []) + CloneInsts(w.g.blocks[m].insts, site.frame)
    ensures InstsInv(site, w', order + [m])
  {
    assert m in site.cfg0.blocks;
    assert w.g.blocks[m].insts == site.BaseInsts(m);
    forall l | l in g4.blocks && l.stackFramePrefix == site.frame
      ensures g4.blocks[l].insts == (if l in site.cfg0.blocks then site.cfg0.blocks[l].insts else []) + CopiesFor(site, order + [m], l)
    {
      if l !in w.g.blocks {
        forall m' | m' in order ensures site.Clone(m') != l {
          assert site.Clone(m') in ClonesOf(site, order);
        }
        CopiesForUntouched(site, order, l);
      }
      InstsStepAt(site, w.g, order, g4, m, l);
    }
  }

  /** InstsStep for one block `l` of the new frame, from what InstsInv says about `l` before the step. */
  lemma InstsStepAt(site: Site, g: Cfg, order: seq<Label>, g4: Cfg, m: Label, l: Label)
    requires m in g.blocks && m in site.cfg0.blocks && g.blocks[m].insts == site.BaseInsts(m)
    requires g4.blocks.Keys == g.blocks.Keys + {site.Clone(m)}
    requires forall x :: x in g.blocks && x != site.Clone(m) ==> g4.blocks[x].insts == g.blocks[x].insts
    requires g4.blocks[site.Clone(m)].insts
      == (if site.Clone(m) in g.blocks then g.blocks[site.Clone(m)].insts else []) + CloneInsts(g.blocks[m].insts, site.frame)
    requires l in g4.blocks
    requires l in g.blocks ==>
      g.blocks[l].insts == (if l in site.cfg0.blocks then site.cfg0.blocks[l].insts else []) + CopiesFor(site, order, l)
    requires l !in g.blocks ==> l !in site.cfg0.blocks && CopiesFor(site, order, l) == []
    ensures g4.blocks[l].insts == (if l in site.cfg0.blocks then site.cfg0.blocks[l].insts else []) + CopiesFor(site, order + [m], l)
  {
    CopiesForSnoc(site, order, m, l);
    if l == site.Clone(m) {
      var copies, copied := CopiesFor(site, order, l), CloneInsts(site.BaseInsts(m), site.frame);
      if l in g.blocks {
        ConcatAssoc(if l in site.cfg0.blocks then site.cfg0.blocks[l].insts else [], copies, copied);
      } else {
        assert [] + ([] + copied) == [] + copied;
      }
    }
  }

  lemma CopiesForSnoc(site: Site, order: seq<Label>, m: Label, l: Label)
    requires m in site.cfg0.blocks
    ensures CopiesFor(site, order + [m], l) ==
      CopiesFor(site, order, l) + if site.Clone(m) == l then CloneInsts(site.BaseInsts(m), site.frame) else []
  {
    assert (order + [m])[..|order|] == order;
  }

  lemma WalkShapeStep(site: Site, w: Walk, order: seq<Label>, g3: Cfg, w': Walk)
    requires WalkShape(site, w, order) && KeysInv(site, w, order)
    requires w.queue != [] && w.queue[0] in w.g.blocks && w.queue[0].stackFramePrefix != site.frame
    requires g3.WellFormed() && w.queue[0] in g3.blocks
    requires w'.g.blocks.Keys >= w.g.blocks.Keys && w'.g.blocks.Keys >= g3.blocks.Keys && !w'.first
    requires |w'.queue| >= |w.queue| - 1 && w'.queue[..|w.queue| - 1] == w.queue[1..]
    requires forall n :: n in w'.queue[|w.queue| - 1..] ==> g3.Edge(w.queue[0], n)
    requires w'.seen == if |w'.queue| == |w.queue| - 1 then w.seen else w.seen + {w.queue[0]}
    ensures WalkShape(site, w', order + [w.queue[0]])
  {
    var m := w.queue[0];
    var queue0 := w.queue[1..];
    var pushed := w'.queue[|queue0|..];
    assert w'.queue == queue0 + pushed;
    assert m in site.cfg0.blocks;
    forall q | q in w'.queue ensures q == site.entry || q in w'.g.blocks {
      if q in pushed {
        assert g3.Edge(m, q);
      } else {
        assert q in w.queue;
      }
    }
  }

  lemma WalkClosedStep(site: Site, w: Walk, order: seq<Label>, g3: Cfg, w': Walk)
    requires WalkClosed(site, w, order)
    requires w.queue != []
    requires forall n :: site.cfg0.Edge(w.queue[0], n) ==> g3.Edge(w.queue[0], n)
    requires |w'.queue| >= |w.queue| - 1 && w'.queue[..|w.queue| - 1] == w.queue[1..]
    requires forall n :: g3.Edge(w.queue[0], n) && n != ExitLabel && n !in w.seen && n != w.queue[0] ==> n in w'.queue[|w.queue| - 1..]
    requires w'.seen >= w.seen
    ensures WalkClosed(site, w', order + [w.queue[0]])
  {
    var m := w.queue[0];
    var order' := order + [m];
    var queue0 := w.queue[1..];
    var pushed := w'.queue[|queue0|..];
    assert w'.queue == queue0 + pushed;
    forall i, n | 0 <= i < |order'| && site.cfg0.Edge(order'[i], n) && n != ExitLabel
      ensures n in w'.seen || n in w'.queue || n in order'
    {
      if i < |order| {
        assert order'[i] == order[i];
        if n in w.queue && n != m {
          assert n in queue0;
        }
      } else {
        assert g3.Edge(m, n);
      }
    }
  }

  lemma WalkFedStep(site: Site, w: Walk, order: seq<Label>, g3: Cfg, w': Walk)
    requires WalkFed(site, w, order) && WalkShape(site, w, order)
    requires w.queue != [] && w.queue[0].stackFramePrefix != site.frame
    requires forall n: Label :: n.stackFramePrefix != site.frame && g3.Edge(w.queue[0], n) ==> site.cfg0.Edge(w.queue[0], n)
    requires |w'.queue| >= |w.queue| - 1 && w'.queue[..|w.queue| - 1] == w.queue[1..]
    requires forall n :: n in w'.queue[|w.queue| - 1..] ==> g3.Edge(w.queue[0], n)
    ensures WalkFed(site, w', order + [w.queue[0]])
  {
    var m := w.queue[0];
    var order' := order + [m];
    var queue0 := w.queue[1..];
    var pushed := w'.queue[|queue0|..];
    assert w'.queue == queue0 + pushed;
    forall q: Label | q in w'.queue ensures order' == [] || q.stackFramePrefix == site.frame || FedBy(site.cfg0, order', q) {
      if q in pushed {
        if q.stackFramePrefix != site.frame {
          assert site.cfg0.Edge(order'[|order|], q);
        }
      } else {
        assert q in w.queue[1..];
        if FedBy(site.cfg0, order, q) {
          var i :| 0 <= i < |order| && site.cfg0.Edge(order[i], q);
          assert order'[i] == order[i];
        }
      }
    }
    forall j | 0 < j < |order'| ensures FedBy(site.cfg0, order'[..j], order'[j]) {
      if j < |order| {
        assert order'[..j] == order[..j];
      } else {
        assert order'[..j] == order;
      }
    }
  }

  lemma CloneEdgesStep(site: Site, w: Walk, order: seq<Label>, w': Walk, g2: Cfg, g3: Cfg, g4: Cfg, m: Label)
    requires w'.g == g4
    requires CloneEdgesInv(site, w, order) && KeysInv(site, w, order)
    requires g2.WellFormed() && m in g2.blocks && site.Clone(m) in g2.blocks
    requires g2.blocks.Keys >= w.g.blocks.Keys
    requires forall a, b :: site.cfg0.Edge(a, b) ==> w.g.Edge(a, b)
    requires forall a, b :: w.g.Edge(a, b) ==> g2.Edge(a, b) && g3.Edge(a, b)
    requires forall a, b :: g2.Edge(a, b) ==> g4.Edge(a, b)
    requires forall a, b :: w.g.Edge(a, b) ==> g4.Edge(a, b)
    requires forall a :: ClonedPredecessor(g2, m, a, site.frame) ==> g4.Edge(a, site.Clone(m))
    requires g3.Edge(m, ExitLabel) ==> g4.Edge(site.Clone(m), site.exitTo)
    ensures CloneEdgesInv(site, w', order + [m])
  {
    var order' := order + [m];
    forall i | 0 <= i < |order'| && site.cfg0.Edge(order'[i], ExitLabel)
      ensures g4.Edge(site.Clone(order'[i]), site.exitTo)
    {
      if i < |order| {
        assert order'[i] == order[i];
      }
    }
    forall i, j | 0 <= i <= j < |order'| && site.cfg0.Edge(order'[i], order'[j])
      ensures g4.Edge(site.Clone(order'[i]), site.Clone(order'[j]))
    {
      if j < |order| {
        assert order'[i] == order[i] && order'[j] == order[j];
      } else {
        var p := order'[i];
        assert g2.Edge(p, m);
        if i < |order| {
          assert p == order[i];
          assert site.Clone(p) in ClonesOf(site, order);
        }
        assert ClonedPredecessor(g2, m, site.Clone(p), site.frame);
      }
    }
  }

  lemma ProgressStep(site: Site, w: Walk, w': Walk, queue: seq<Label>, seen: set<Label>)
    requires w'.queue == queue && w'.seen == seen
    requires w.queue != [] && w.queue[0] in site.Known()
    requires |queue| >= |w.queue| - 1 && queue[..|w.queue| - 1] == w.queue[1..]
    requires forall n :: n in queue[|w.queue| - 1..] ==> n !in w.seen
    requires seen == if |queue| == |w.queue| - 1 then w.seen else w.seen + {w.queue[0]}
    ensures Progress(site, w, w')
  {
    var m := w.queue[0];
    var queue0 := w.queue[1..];
    var pushed := queue[|queue0|..];
    assert queue == queue0 + pushed;
    assert w.queue == [m] + queue0;
    CountInAppend([m], queue0, w.seen);
    if |queue| == |queue0| {
      assert queue == queue0;
    } else if m !in w.seen {
      assert site.Known() - seen == (site.Known() - w.seen) - {m};
    } else {
      assert seen == w.seen;
      assert [m][1..] == [];
      CountInAppend(queue0, pushed, seen);
      CountInNone(pushed, seen);
    }
  }

  /** Outside the new frame, the successors of a visited block are its original ones. */
  lemma MacroSuccessors(site: Site, w: Walk, g2: Cfg, g3: Cfg, m: Label)
    requires EdgesInv(site, w)
    requires m.stackFramePrefix != site.frame && m in g2.blocks
    requires forall a, b :: g3.Edge(a, b) <==> g2.Edge(a, b) || (b == site.Clone(m) && ClonedPredecessor(g2, m, a, site.frame))
    requires forall a, b :: g2.Edge(a, b) <==> w.g.Edge(a, b) || (w.first && a == site.caller && b == site.Clone(m))
    ensures forall n: Label :: n.stackFramePrefix != site.frame && g3.Edge(m, n) ==> site.cfg0.Edge(m, n)
    ensures forall n :: site.cfg0.Edge(m, n) ==> g3.Edge(m, n) && w.g.Edge(m, n)
  {
  }

  /** What one step of the walk did, through the graph after linking the caller (g2) and the predecessors (g3). */
  ghost predicate StepFacts(site: Site, w: Walk, g2: Cfg, g3: Cfg, w': Walk)
    requires w.queue != [] && w.queue[0] in w.g.blocks
  {
    && !w'.first
    && g2.WellFormed() && g3.WellFormed() && w'.g.WellFormed()
    && g2.blocks.Keys == w.g.blocks.Keys + {site.Clone(w.queue[0])}
    && g3.blocks.Keys == g2.blocks.Keys && w'.g.blocks.Keys == g2.blocks.Keys
    && (forall x :: x in w.g.blocks && x != site.Clone(w.queue[0]) ==> w'.g.blocks[x].insts == w.g.blocks[x].insts)
    && w'.g.blocks[site.Clone(w.queue[0])].insts
      == (if site.Clone(w.queue[0]) in w.g.blocks then w.g.blocks[site.Clone(w.queue[0])].insts else []) + CloneInsts(w.g.blocks[w.queue[0]].insts, site.frame)
    && (forall a, b :: w'.g.Edge(a, b) <==>
         (|| w.g.Edge(a, b)
          || (w.first && a == site.caller && b == site.Clone(w.queue[0]))
          || (b == site.Clone(w.queue[0]) && ClonedPredecessor(g2, w.queue[0], a, site.frame))
          || (a == site.Clone(w.queue[0]) && b == site.exitTo && g3.Edge(w.queue[0], ExitLabel))))
    && (forall a, b :: g2.Edge(a, b) ==> w'.g.Edge(a, b))
    && (forall a, b :: w.g.Edge(a, b) ==> g2.Edge(a, b) && g3.Edge(a, b))
    && (forall a :: ClonedPredecessor(g2, w.queue[0], a, site.frame) ==> w'.g.Edge(a, site.Clone(w.queue[0])))
    && (g3.Edge(w.queue[0], ExitLabel) ==> w'.g.Edge(site.Clone(w.queue[0]), site.exitTo))
    && (forall a, b :: g3.Edge(a, b) <==> g2.Edge(a, b) || (b == site.Clone(w.queue[0]) && ClonedPredecessor(g2, w.queue[0], a, site.frame)))
    && (forall a, b :: g2.Edge(a, b) <==> w.g.Edge(a, b) || (w.first && a == site.caller && b == site.Clone(w.queue[0])))
    && |w'.queue| >= |w.queue| - 1 && w'.queue[..|w.queue| - 1] == w.queue[1..]
    && (forall n :: n in w'.queue[|w.queue| - 1..] ==> g3.Edge(w.queue[0], n) && n != ExitLabel && n !in w.seen)
    && (forall n :: g3.Edge(w.queue[0], n) && n != ExitLabel && n !in w.seen && n != w.queue[0] ==> n in w'.queue[|w.queue| - 1..])
    && w'.seen == (if |w'.queue| == |w.queue| - 1 then w.seen else w.seen + {w.queue[0]})
  }

  /** The invariants of the walk survive one step. */
  lemma StepPreserves(site: Site, w: Walk, order: seq<Label>, g2: Cfg, g3: Cfg, w': Walk)
    requires BfsState(site, w, order) && w.queue != []
    requires w.queue[0] in w.g.blocks && w.queue[0].stackFramePrefix != site.frame
    requires StepFacts(site, w, g2, g3, w')
    ensures BfsState(site, w', order + [w.queue[0]]) && Progress(site, w, w')
  {
    StepKeepsGraph(site, w, order, g2, g3, w');
    StepKeepsWalk(site, w, order, g2, g3, w');
  }

  /** The graph half of StepPreserves. */
  lemma StepKeepsGraph(site: Site, w: Walk, order: seq<Label>, g2: Cfg, g3: Cfg, w': Walk)
    requires BfsState(site, w, order) && w.queue != []
    requires w.queue[0] in w.g.blocks && w.queue[0].stackFramePrefix != site.frame
    requires StepFacts(site, w, g2, g3, w')
    ensures w'.g.WellFormed() && site.caller in w'.g.blocks && site.exitTo in w'.g.blocks
    ensures KeysInv(site, w', order + [w.queue[0]]) && InstsInv(site, w', order + [w.queue[0]])
    ensures EdgesInv(site, w') && CloneEdgesInv(site, w', order + [w.queue[0]])
  {
    var m := w.queue[0];
    MacroSuccessors(site, w, g2, g3, m);
    EdgesStep(site, w, w', g2, g3, m);
    KeysStep(site, w, order, w', m);
    InstsStep(site, w, order, w', w'.g, m);
    CloneEdgesStep(site, w, order, w', g2, g3, w'.g, m);
  }

  /** The walk half of StepPreserves. */
  lemma StepKeepsWalk(site: Site, w: Walk, order: seq<Label>, g2: Cfg, g3: Cfg, w': Walk)
    requires BfsState(site, w, order) && w.queue != []
    requires w.queue[0] in w.g.blocks && w.queue[0].stackFramePrefix != site.frame
    requires StepFacts(site, w, g2, g3, w')
    ensures WalkInv(site, w', order + [w.queue[0]]) && Progress(site, w, w')
  {
    var m := w.queue[0];
    assert site.Clone(m) != m;
    MacroSuccessors(site, w, g2, g3, m);
    WalkShapeStep(site, w, order, g3, w');
    WalkClosedStep(site, w, order, g3, w');
    WalkFedStep(site, w, order, g3, w');
    ProgressStep(site, w, w', w'.queue, w'.seen);
  }

  lemma ExtendPath(cfg: Cfg, caller: Label, entry: Label, frame: string, p: seq<Label>, n: Label)
    requires WalkPath(cfg, caller, entry, frame, p) && WalkEdge(cfg, caller, entry, frame, p[|p| - 1], n)
    ensures WalkPath(cfg, caller, entry, frame, p + [n]) && WalkReaches(cfg, caller, entry, frame, n)
  {
    var p' := p + [n];
    assert p'[..|p'| - 1] == p && p'[|p'| - 2] == p[|p| - 1] && p'[|p'| - 1] == n;
  }

  /** The successors a step queues are reached from the visited block along a walk edge. */
  lemma SuccessorWalkEdges(site: Site, w: Walk, g2: Cfg, g3: Cfg, m: Label)
    requires EdgesInv(site, w) && (w.first ==> m == site.entry)
    requires m.stackFramePrefix != site.frame && m in g2.blocks
    requires forall a, b :: g3.Edge(a, b) <==> g2.Edge(a, b) || (b == site.Clone(m) && ClonedPredecessor(g2, m, a, site.frame))
    requires forall a, b :: g2.Edge(a, b) <==> w.g.Edge(a, b) || (w.first && a == site.caller && b == site.Clone(m))
    ensures forall n :: g3.Edge(m, n) && n != ExitLabel ==> WalkEdge(site.cfg0, site.caller, site.entry, site.frame, m, n)
  {
  }

  /** ReachInv survives one step. */
  lemma ReachStep(site: Site, w: Walk, order: seq<Label>, g2: Cfg, g3: Cfg, w': Walk)
    requires site.Valid() && EdgesInv(site, w) && WalkShape(site, w, order) && ReachInv(site, w, order)
    requires w.queue != [] && w.queue[0] in w.g.blocks && w.queue[0].stackFramePrefix != site.frame
    requires w.queue[0] in g2.blocks
    requires forall a, b :: g3.Edge(a, b) <==> g2.Edge(a, b) || (b == site.Clone(w.queue[0]) && ClonedPredecessor(g2, w.queue[0], a, site.frame))
    requires forall a, b :: g2.Edge(a, b) <==> w.g.Edge(a, b) || (w.first && a == site.caller && b == site.Clone(w.queue[0]))
    requires |w'.queue| >= |w.queue| - 1 && w'.queue[..|w.queue| - 1] == w.queue[1..]
    requires forall n :: n in w'.queue[|w.queue| - 1..] ==> g3.Edge(w.queue[0], n) && n != ExitLabel
    requires forall n :: g3.Edge(w.queue[0], n) && n != ExitLabel && n !in w.seen && n != w.queue[0] ==> n in w'.queue[|w.queue| - 1..]
    ensures ReachInv(site, w', order + [w.queue[0]])
  {
    var m := w.queue[0];
    var pushed := w'.queue[|w.queue| - 1..];
    assert w'.queue == w.queue[1..] + pushed;
    forall n | n in pushed ensures g3.Edge(m, n) && n != ExitLabel {
    }
    ReachSuccessors(site, w, g2, g3, w'.queue, pushed);
    ReachCaller(site, w, order, g2, g3, w');
    assert forall x :: x in order + [m] ==> x in order || x == m;
  }

  lemma ReachSuccessors(site: Site, w: Walk, g2: Cfg, g3: Cfg, queue': seq<Label>, pushed: seq<Label>)
    requires EdgesInv(site, w) && (forall q :: q in w.queue ==> WalkReaches(site.cfg0, site.caller, site.entry, site.frame, q))
    requires w.queue != [] && (w.first ==> w.queue[0] == site.entry)
    requires w.queue[0].stackFramePrefix != site.frame && w.queue[0] in g2.blocks
    requires forall a, b :: g3.Edge(a, b) <==> g2.Edge(a, b) || (b == site.Clone(w.queue[0]) && ClonedPredecessor(g2, w.queue[0], a, site.frame))
    requires forall a, b :: g2.Edge(a, b) <==> w.g.Edge(a, b) || (w.first && a == site.caller && b == site.Clone(w.queue[0]))
    requires queue' == w.queue[1..] + pushed
    requires forall n :: n in pushed ==> g3.Edge(w.queue[0], n) && n != ExitLabel
    ensures forall q :: q in queue' ==> WalkReaches(site.cfg0, site.caller, site.entry, site.frame, q)
  {
    SuccessorWalkEdges(site, w, g2, g3, w.queue[0]);
    forall n | n in pushed ensures WalkEdge(site.cfg0, site.caller, site.entry, site.frame, w.queue[0], n) {
      assert g3.Edge(w.queue[0], n) && n != ExitLabel;
    }
    ReachQueued(site.cfg0, site.caller, site.entry, site.frame, w.queue, pushed);
  }

  /** The queue after a step holds labels on walk paths only. */
  lemma ReachQueued(cfg0: Cfg, caller: Label, entry: Label, F: string, queue: seq<Label>, pushed: seq<Label>)
    requires queue != [] && forall q :: q in queue ==> WalkReaches(cfg0, caller, entry, F, q)
    requires forall n :: n in pushed ==> WalkEdge(cfg0, caller, entry, F, queue[0], n)
    ensures forall q :: q in queue[1..] + pushed ==> WalkReaches(cfg0, caller, entry, F, q)
  {
    var m := queue[0];
    assert m in queue;
    var p :| WalkPath(cfg0, caller, entry, F, p) && p[|p| - 1] == m;
    forall q | q in queue[1..] + pushed ensures WalkReaches(cfg0, caller, entry, F, q) {
      if q in pushed {
        ExtendPath(cfg0, caller, entry, F, p, q);
      } else {
        assert q in queue;
      }
    }
  }

  /** Visiting the caller queues the copy of the callee entry, which stays queued until it is visited. */
  lemma ReachCaller(site: Site, w: Walk, order: seq<Label>, g2: Cfg, g3: Cfg, w': Walk)
    requires site.Valid() && EdgesInv(site, w) && WalkShape(site, w, order)
    requires w.queue != [] && w.queue[0] in w.g.blocks && w.queue[0].stackFramePrefix != site.frame
    requires site.caller in order ==> site.Clone(site.entry) in w.queue
    requires forall a, b :: w.g.Edge(a, b) ==> g3.Edge(a, b)
    requires forall a, b :: g2.Edge(a, b) <==> w.g.Edge(a, b) || (w.first && a == site.caller && b == site.Clone(w.queue[0]))
    requires forall a, b :: g2.Edge(a, b) ==> g3.Edge(a, b)
    requires |w'.queue| >= |w.queue| - 1 && w'.queue[..|w.queue| - 1] == w.queue[1..]
    requires forall n :: g3.Edge(w.queue[0], n) && n != ExitLabel && n !in w.seen && n != w.queue[0] ==> n in w'.queue[|w.queue| - 1..]
    ensures site.caller in order + [w.queue[0]] ==> site.Clone(site.entry) in w'.queue
  {
    var m, c := w.queue[0], site.Clone(site.entry);
    var queue0 := w.queue[1..];
    var pushed := w'.queue[|queue0|..];
    assert w'.queue == queue0 + pushed;
    assert w.queue == [m] + queue0;
    assert c.stackFramePrefix == site.frame && c != m;
    if site.caller in order {
      assert c in queue0;
    } else if site.caller == m {
      assert site.entry.stackFramePrefix != site.frame;
      assert c !in w.seen;
      assert g3.Edge(m, c);
      assert c in pushed;
    }
  }

  /** A walk that drains its queue has visited every label it can reach, and none is in the new frame. */
  lemma DrainedReachesNoFrame(site: Site, w: Walk, order: seq<Label>)
    requires WalkShape(site, w, order) && WalkClosed(site, w, order) && ReachInv(site, w, order) && w.queue == []
    ensures !ReachesFrame(site.cfg0, site.caller, site.entry, site.frame)
  {
    assert order != [] && order[0] == site.entry;
    assert forall i, n :: 0 <= i < |order| && site.cfg0.Edge(order[i], n) && n != ExitLabel ==> n in order;
    forall l | WalkReaches(site.cfg0, site.caller, site.entry, site.frame, l)
      ensures l.stackFramePrefix != site.frame
    {
      var p :| WalkPath(site.cfg0, site.caller, site.entry, site.frame, p) && p[|p| - 1] == l;
      PathVisited(site.cfg0, site.caller, site.entry, site.frame, order, p);
    }
  }

  /** Every path of walk edges stays inside a visiting order closed under them. */
  lemma {:induction false} PathVisited(cfg0: Cfg, caller: Label, entry: Label, F: string, order: seq<Label>, p: seq<Label>)
    requires |order| > 0 && order[0] == entry && caller !in order
    requires forall i, n :: 0 <= i < |order| && cfg0.Edge(order[i], n) && n != ExitLabel ==> n in order
    requires WalkPath(cfg0, caller, entry, F, p)
    ensures p[|p| - 1] in order
    decreases |p|
  {
    if |p| > 1 {
      var q := p[..|p| - 1];
      PathVisited(cfg0, caller, entry, F, order, q);
      var a, l := p[|p| - 2], p[|p| - 1];
      assert a == q[|q| - 1];
      var i :| 0 <= i < |order| && order[i] == a;
      assert cfg0.Edge(order[i], l) && l != ExitLabel;
    }
    else {
      assert p[0] == order[0];
    }
  }

  /** A missing callee entry outside the new frame reaches nothing else. */
  lemma MissingEntryReachesNoFrame(cfg: Cfg, caller: Label, entry: Label, frame: string)
    requires caller in cfg.blocks && entry !in cfg.blocks && entry.stackFramePrefix != frame
    ensures !ReachesFrame(cfg, caller, entry, frame)
  {
    forall l | WalkReaches(cfg, caller, entry, frame, l) ensures l == entry {
      var p :| WalkPath(cfg, caller, entry, frame, p) && p[|p| - 1] == l;
      PathFromStuckEntry(cfg, caller, entry, frame, p);
    }
  }

  /** From an entry with no walk edge out of it, every path stays at the entry. */
  lemma {:induction false} PathFromStuckEntry(cfg: Cfg, caller: Label, entry: Label, frame: string, p: seq<Label>)
    requires caller in cfg.blocks && entry !in cfg.blocks
    requires WalkPath(cfg, caller, entry, frame, p)
    ensures p == [entry]
    decreases |p|
  {
    if |p| > 1 {
      PathFromStuckEntry(cfg, caller, entry, frame, p[..|p| - 1]);
    }
  }

  /** Lines 72-97: the clone of `m`, linked from the caller on the first step and from the clones of its predecessors. */
  method CloneAndLink(site: Site, w: Walk, m: Label) returns (g3: Cfg, ghost g2: Cfg)
    requires w.g.WellFormed() && site.caller in w.g.blocks && m in w.g.blocks
    ensures g2.WellFormed() && g3.WellFormed()
    ensures g2.blocks.Keys == w.g.blocks.Keys + {site.Clone(m)} && g3.blocks.Keys == g2.blocks.Keys
    ensures forall x :: x in w.g.blocks && x != site.Clone(m) ==> g3.blocks[x].insts == w.g.blocks[x].insts
    ensures g3.blocks[site.Clone(m)].insts
      == (if site.Clone(m) in w.g.blocks then w.g.blocks[site.Clone(m)].insts else []) + CloneInsts(w.g.blocks[m].insts, site.frame)
    ensures forall a, b :: g3.Edge(a, b) <==> g2.Edge(a, b) || (b == site.Clone(m) && ClonedPredecessor(g2, m, a, site.frame))
    ensures forall a, b :: g2.Edge(a, b) <==> w.g.Edge(a, b) || (w.first && a == site.caller && b == site.Clone(m))
  {
    var frame := site.frame;
    var lbl := CloneLabel(m, frame);
    var g1 := CloneBlock(w.g, m, lbl, frame);
    var linked := LinkIf(g1, w.first, site.caller, lbl);
    g3 := LinkClonePredecessors(linked, m, lbl, frame);
    g2 := linked;
  }

  /** One iteration of the walk (lines 65-111). */
  method CloneStep(site: Site, w: Walk) returns (r: Result<Walk, BuildError>, ghost g2: Cfg, ghost g3: Cfg)
    requires w.g.WellFormed() && site.caller in w.g.blocks && site.exitTo in w.g.blocks && w.queue != []
    ensures r.Err? <==> w.queue[0].stackFramePrefix == site.frame || w.queue[0] !in w.g.blocks
    ensures r.Err? ==> r.error == if w.queue[0].stackFramePrefix == site.frame then IllegalRecursion(site.frame) else MissingBlock(w.queue[0])
    ensures r.Ok? ==> w.queue[0] in w.g.blocks && StepFacts(site, w, g2, g3, r.value)
  {
    var m := w.queue[0];
    var frame := site.frame;
    g2, g3 := w.g, w.g;
    if m.stackFramePrefix == frame {
      return Err(IllegalRecursion(frame)), g2, g3;
    }
    if m !in w.g.blocks {
      return Err(MissingBlock(m)), g2, g3;
    }
    var withPreds;
    withPreds, g2 := CloneAndLink(site, w, m);
    var g4, queue, seen := WalkSuccessors(withPreds, m, site.Clone(m), site.exitTo, w.queue[1..], w.seen);
    r := Ok(Walk(g4, queue, seen, false));
    g3 := withPreds;
    StepEdgesCompose(w.g, w.g, g2, g3, g4, w.first, site.caller, m, site.Clone(m), site.exitTo, frame);
  }

  /** What the head of the queue can be: the callee entry is dequeued first, and only it can be missing. */
  lemma HeadFacts(site: Site, w: Walk, order: seq<Label>)
    requires WalkState(site, w, order) && w.queue != []
    ensures w.queue[0].stackFramePrefix == site.frame ==> ReachesFrame(site.cfg0, site.caller, site.entry, site.frame)
    ensures site.entry.stackFramePrefix == site.frame ==> w.queue[0] == site.entry
    ensures w.queue[0] !in w.g.blocks ==> w.queue[0] == site.entry && site.entry !in site.cfg0.blocks
    ensures site.entry.stackFramePrefix != site.frame && site.entry !in site.cfg0.blocks ==>
      w.queue[0] == site.entry && site.entry !in w.g.blocks
  {
    assert w.queue[0] in w.queue;
    if order != [] {
      assert order[0] in order;
    }
  }

  /** One iteration of the walk, with the invariants carried over. */
  method Advance(site: Site, w: Walk, ghost order: seq<Label>) returns (r: Result<Walk, BuildError>, ghost order': seq<Label>)
    requires WalkState(site, w, order) && w.queue != []
    ensures r.Err? <==> w.queue[0].stackFramePrefix == site.frame || w.queue[0] !in w.g.blocks
    ensures site.entry.stackFramePrefix == site.frame ==> r == Err(IllegalRecursion(site.frame))
    ensures site.entry.stackFramePrefix != site.frame && site.entry !in site.cfg0.blocks ==> r == Err(MissingBlock(site.entry))
    ensures r.Err? ==> r.error == IllegalRecursion(site.frame) || r.error == MissingBlock(site.entry)
    ensures r == Err(IllegalRecursion(site.frame)) ==> ReachesFrame(site.cfg0, site.caller, site.entry, site.frame)
    ensures r == Err(MissingBlock(site.entry)) ==> site.entry !in site.cfg0.blocks && site.entry.stackFramePrefix != site.frame
    ensures r.Ok? ==> WalkState(site, r.value, order') && Progress(site, w, r.value)
    ensures order' == order + [w.queue[0]]
  {
    HeadFacts(site, w, order);
    ghost var g2, g3;
    r, g2, g3 := CloneStep(site, w);
    order' := order + [w.queue[0]];
    if r.Ok? {
      StepPreserves(site, w, order, g2, g3, r.value);
      ReachStep(site, w, order, g2, g3, r.value);
    }
  }

  /** Once the queue is empty the entry has been visited, so neither entry error can arise. */
  lemma Drained(site: Site, w: Walk, order: seq<Label>)
    requires BfsState(site, w, order) && w.queue == []
    ensures site.entry.stackFramePrefix != site.frame && site.entry in site.cfg0.blocks
  {
    assert order != [] && order[0] in order;
  }

  lemma InitialState(site: Site)
    requires site.Valid()
    ensures WalkState(site, Walk(site.Base(), [site.entry], {site.entry}, true), [])
  {
    assert ClonesOf(site, []) == {};
    assert WalkPath(site.cfg0, site.caller, site.entry, site.frame, [site.entry]);
  }

  /** The result of the walk: the graph, the seen set that drives the nested calls, and the return block. */
  datatype Cloned = Cloned(cfg: Cfg, seen: set<Label>, exitTo: Label)

  /**
   * What add_cfg_nodes guarantees before the nested calls, for the visiting
   * order `order` of its walk:
   * the graph stays well formed and gains exactly the clones of the visited
   * blocks; blocks outside the new frame keep their instructions (the caller's
   * CallLocal instructions record the frame) and their edges, except that the
   * caller now enters the clone of the callee entry instead of going to the
   * return block; the visited blocks start at the callee entry, each after the
   * first is an original successor of an earlier one, and every original
   * successor of a visited block other than the exit is visited too; an exit
   * transition of a visited block becomes an edge from its clone to the return
   * block, and an original edge from a block to one visited no earlier is
   * copied between their clones.
   */
  ghost predicate CloneDone(site: Site, c: Cloned, order: seq<Label>)
  {
    CloneBlocks(site, c, order) && CloneEdges(site, c, order) && CloneOrder(site, c, order)
  }

  /** The blocks of the result and their instructions. */
  ghost predicate CloneBlocks(site: Site, c: Cloned, order: seq<Label>)
  {
    var cfg0, F := site.cfg0, site.frame;
    && site.Valid() && c.exitTo == site.exitTo
    && c.cfg.WellFormed()
    && c.cfg.blocks.Keys == cfg0.blocks.Keys + ClonesOf(site, order)
    && (forall l :: l in c.cfg.blocks && l in cfg0.blocks && l.stackFramePrefix != F ==>
          c.cfg.blocks[l].insts == site.BaseInsts(l))
    && (forall l :: l in c.cfg.blocks && l.stackFramePrefix == F ==>
          c.cfg.blocks[l].insts == (if l in cfg0.blocks then cfg0.blocks[l].insts else []) + CopiesFor(site, order, l))
  }

  /** The edges of the result. */
  ghost predicate CloneEdges(site: Site, c: Cloned, order: seq<Label>)
  {
    var cfg0, F := site.cfg0, site.frame;
    && (forall a: Label, b :: a.stackFramePrefix != F && a != site.caller ==> (c.cfg.Edge(a, b) <==> cfg0.Edge(a, b)))
    && (forall b :: c.cfg.Edge(site.caller, b) <==> (cfg0.Edge(site.caller, b) || b == site.Clone(site.entry)) && b != site.exitTo)
    && (forall i :: 0 <= i < |order| && cfg0.Edge(order[i], ExitLabel) ==> c.cfg.Edge(site.Clone(order[i]), site.exitTo))
    && (forall i, j :: 0 <= i <= j < |order| && cfg0.Edge(order[i], order[j]) ==>
          c.cfg.Edge(site.Clone(order[i]), site.Clone(order[j])))
  }

  /** The visiting order and the seen set. */
  ghost predicate CloneOrder(site: Site, c: Cloned, order: seq<Label>)
  {
    var cfg0, F := site.cfg0, site.frame;
    && |order| > 0 && order[0] == site.entry
    && (forall m: Label :: m in order ==> m in cfg0.blocks && m.stackFramePrefix != F)
    && (forall j :: 0 < j < |order| ==> FedBy(cfg0, order[..j], order[j]))
    && (forall i, n :: 0 <= i < |order| && cfg0.Edge(order[i], n) && n != ExitLabel ==> n in order)
    && site.entry in c.seen && (forall s :: s in c.seen ==> s in order)
  }

  lemma FinishBlocks(site: Site, w: Walk, order: seq<Label>, g: Cfg)
    requires BfsState(site, w, order)
    requires g == w.g.RemoveEdge(site.caller, site.exitTo)
    ensures CloneBlocks(site, Cloned(g, w.seen, site.exitTo), order)
  {
    w.g.RemoveEdgeWellFormed(site.caller, site.exitTo);
  }

  /** Removing the caller's edge to the return block changes no other block's edges, and the clones' edges survive. */
  lemma FinishEdges(site: Site, w: Walk, order: seq<Label>, g: Cfg)
    requires BfsState(site, w, order) && w.queue == []
    requires g == w.g.RemoveEdge(site.caller, site.exitTo)
    ensures CloneEdges(site, Cloned(g, w.seen, site.exitTo), order)
  {
    assert order != [];
    forall i | 0 <= i < |order|
      ensures site.Clone(order[i]) != site.caller
    {
      assert site.Clone(order[i]).stackFramePrefix == site.frame;
    }
  }

  lemma FinishOrder(site: Site, w: Walk, order: seq<Label>, g: Cfg)
    requires BfsState(site, w, order) && w.queue == []
    ensures CloneOrder(site, Cloned(g, w.seen, site.exitTo), order)
  {
    assert order != [];
  }

  /** The state the walk ends in, once the caller's edge to the return block is gone. */
  lemma Finish(site: Site, w: Walk, order: seq<Label>, g: Cfg)
    requires BfsState(site, w, order) && w.queue == []
    requires site.caller in w.g.blocks && site.exitTo in w.g.blocks
    requires g == w.g.RemoveEdge(site.caller, site.exitTo)
    ensures CloneDone(site, Cloned(g, w.seen, site.exitTo), order)
  {
    FinishBlocks(site, w, order, g);
    FinishEdges(site, w, order, g);
    FinishOrder(site, w, order, g);
  }

  /** A drained walk visited the entry and met no label of the new frame. */
  lemma WalkDone(site: Site, w: Walk, order: seq<Label>)
    requires WalkState(site, w, order) && w.queue == []
    ensures site.entry.stackFramePrefix != site.frame && site.entry in site.cfg0.blocks
    ensures !ReachesFrame(site.cfg0, site.caller, site.entry, site.frame)
  {
    Drained(site, w, order);
    DrainedReachesNoFrame(site, w, order);
  }

  /** The two ways the walk can fail, told apart by reachability. */
  lemma WalkOutcome(site: Site, r: Result<Walk, BuildError>)
    requires site.Valid()
    requires r.Err? ==> r.error == IllegalRecursion(site.frame) || r.error == MissingBlock(site.entry)
    requires r == Err(IllegalRecursion(site.frame)) ==> ReachesFrame(site.cfg0, site.caller, site.entry, site.frame)
    requires r == Err(MissingBlock(site.entry)) ==> site.entry !in site.cfg0.blocks && site.entry.stackFramePrefix != site.frame
    requires r.Ok? ==> !ReachesFrame(site.cfg0, site.caller, site.entry, site.frame) && site.entry in site.cfg0.blocks
    ensures r == Err(IllegalRecursion(site.frame)) <==> ReachesFrame(site.cfg0, site.caller, site.entry, site.frame)
    ensures r.Ok? <==> !ReachesFrame(site.cfg0, site.caller, site.entry, site.frame) && site.entry in site.cfg0.blocks
  {
    if r == Err(MissingBlock(site.entry)) {
      MissingEntryReachesNoFrame(site.cfg0, site.caller, site.entry, site.frame);
    }
  }

  /** Lines 60-112: the walk over the callee's blocks from its entry. */
  method RunWalk(site: Site) returns (r: Result<Walk, BuildError>, ghost order: seq<Label>)
    requires site.Valid()
    ensures site.entry.stackFramePrefix == site.frame ==> r == Err(IllegalRecursion(site.frame))
    ensures site.entry.stackFramePrefix != site.frame && site.entry !in site.cfg0.blocks ==> r == Err(MissingBlock(site.entry))
    ensures r.Err? ==> r.error == IllegalRecursion(site.frame) || r.error == MissingBlock(site.entry)
    ensures r == Err(IllegalRecursion(site.frame)) <==> ReachesFrame(site.cfg0, site.caller, site.entry, site.frame)
    ensures r.Ok? <==> !ReachesFrame(site.cfg0, site.caller, site.entry, site.frame) && site.entry in site.cfg0.blocks
    ensures r.Ok? ==> BfsState(site, r.value, order) && r.value.queue == []
  {
    order := [];
    var w := Walk(site.Base(), [site.entry], {site.entry}, true);
    InitialState(site);
    while w.queue != []
      invariant WalkState(site, w, order)
      decreases |site.Known() - w.seen|, CountIn(w.queue, w.seen), |w.queue|
    {
      var step;
      step, order := Advance(site, w, order);
      if step.Err? {
        WalkOutcome(site, step);
        return step, order;
      }
      w := step.value;
    }
    WalkDone(site, w, order);
    r := Ok(w);
    WalkOutcome(site, r);
  }

  /**
   * Lines 43-116 of add_cfg_nodes: find the return block, rewrite the caller's
   * CallLocal instructions, then walk the callee from its entry, cloning each
   * visited block into the new frame. exit_to_node is the first successor of
   * the caller; as the label order is not part of this model, any successor
   * may be chosen. A caller without successors is an error here.
   */
  method CloneMacro(cfg0: Cfg, caller: Label, entry: Label) returns (r: Result<Cloned, BuildError>, ghost order: seq<Label>)
    requires cfg0.WellFormed()
    ensures caller !in cfg0.blocks ==> r == Err(MissingBlock(caller))
    ensures caller in cfg0.blocks && cfg0.blocks[caller].next == {} ==> r == Err(NoReturnSuccessor(caller))
    ensures caller in cfg0.blocks && cfg0.blocks[caller].next != {} && entry.stackFramePrefix == LabelToString(caller) ==>
      r == Err(IllegalRecursion(LabelToString(caller)))
    ensures caller in cfg0.blocks && cfg0.blocks[caller].next != {} && entry.stackFramePrefix != LabelToString(caller) && entry !in cfg0.blocks ==>
      r == Err(MissingBlock(entry))
    ensures r.Err? ==> r.error in {MissingBlock(caller), NoReturnSuccessor(caller), MissingBlock(entry), IllegalRecursion(LabelToString(caller))}
    ensures caller in cfg0.blocks && cfg0.blocks[caller].next != {} ==>
      (r == Err(IllegalRecursion(LabelToString(caller))) <==> ReachesFrame(cfg0, caller, entry, LabelToString(caller)))
    ensures r.Ok? <==>
      caller in cfg0.blocks && cfg0.blocks[caller].next != {} && entry in cfg0.blocks
      && !ReachesFrame(cfg0, caller, entry, LabelToString(caller))
    ensures r.Ok? ==> CloneDone(Site(cfg0, caller, entry, r.value.exitTo, LabelToString(caller)), r.value, order)
  {
    order := [];
    if caller !in cfg0.blocks {
      return Err(MissingBlock(caller)), order;
    }
    if cfg0.blocks[caller].next == {} {
      return Err(NoReturnSuccessor(caller)), order;
    }
    var exitTo :| exitTo in cfg0.blocks[caller].next;
    FrameIsNotCallers(caller);
    var site := Site(cfg0, caller, entry, exitTo, LabelToString(caller));
    var walked;
    walked, order := RunWalk(site);
    if walked.Err? {
      return Err(walked.error), order;
    }
    var w := walked.value;
    var g := w.g.RemoveEdge(caller, exitTo);
    Finish(site, w, order, g);
    r := Ok(Cloned(g, w.seen, exitTo));
  }
}
