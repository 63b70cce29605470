/**
 * The interleaved forward fixpoint iterator (crab/fwd_analyzer.cpp): it
 * walks the weak topological order (WTO) of the CFG, computing for every
 * label an abstract value before (`pre`) and after (`post`) its block.
 * Cycles are iterated upward with join and then widening until the head's
 * incoming value is covered, then downward with meet and narrowing.
 *
 * The WTO itself is built elsewhere (crab/wto.hpp is not part of this
 * model) and is an input here, together with the nesting of every label.
 */
module FwdAnalyzer {
  import opened Wrappers
  import opened Labels
  import opened Instructions
  import opened CfgGraph
  import opened Lattices

  /** A WTO component: a single label, or a cycle with its head and its nested components in order. */
  datatype Component = Vertex(vertex: Label) | Cycle(head: Label, components: seq<Component>)

  /**
   * A weak topological order: the top-level components, and for each label
   * the heads of the cycles around it, outermost first (wto_nesting_t).
   */
  datatype Wto = Wto(components: seq<Component>, nesting: Label -> seq<Label>)

  /** `a > b` on nestings: `a` lies inside every cycle of `b` and in at least one more. */
  predicate NestedDeeper(a: seq<Label>, b: seq<Label>)
  {
    |b| < |a| && a[..|b|] == b
  }

  // ---------------------------------------------------------------------
  // member_component_visitor (lines 16-43)

  /** Whether `node` is the label, or the head of a cycle, anywhere inside `c`. */
  function IsMember(node: Label, c: Component): bool
    decreases c
  {
    match c
    case Vertex(v) => v == node
    case Cycle(h, cs) => h == node || AnyMember(node, cs)
  }

  /** The visitor's walk over a cycle's components, in order, stopping at the first hit. */
  function AnyMember(node: Label, cs: seq<Component>): bool
    decreases cs
  {
    if cs == [] then false else IsMember(node, cs[0]) || AnyMember(node, cs[1..])
  }

  /** Every label a component mentions, as a vertex or as a head. */
  function LabelsOf(c: Component): set<Label>
    decreases c
  {
    match c
    case Vertex(v) => {v}
    case Cycle(h, cs) => {h} + LabelsOfAll(cs)
  }

  function LabelsOfAll(cs: seq<Component>): set<Label>
    decreases cs
  {
    if cs == [] then {} else LabelsOf(cs[0]) + LabelsOfAll(cs[1..])
  }

  /** The visitor finds `node` exactly when `node` is one of the component's labels. */
  lemma {:induction false} IsMemberLabels(node: Label, c: Component)
    ensures IsMember(node, c) <==> node in LabelsOf(c)
    decreases c
  {
    if c.Cycle? {
      AnyMemberLabels(node, c.components);
    }
  }

  lemma {:induction false} AnyMemberLabels(node: Label, cs: seq<Component>)
    ensures AnyMember(node, cs) <==> node in LabelsOfAll(cs)
    decreases cs
  {
    if cs != [] {
      IsMemberLabels(node, cs[0]);
      AnyMemberLabels(node, cs[1..]);
    }
  }

  // ---------------------------------------------------------------------
  // extrapolate and refine (lines 76-93)

  /** Iterations before widening starts (`_widening_delay`, line 79). */
  const WideningDelay: nat := 2

  /** Cap on the descending iterations (`_descending_iterations`, line 62). */
  const DescendingIterations: nat := 2000000

  /**
   * The next ascending value: the join on the first iteration, the widening
   * from the second on, flagged as the first widening on the second.
   */
  function Extrapolate<D(!new)>(l: Lattice<D>, before: D, after: D, iteration: nat): (r: D)
    ensures JoinIsUpperBound(l) && WidenIsUpperBound(l) ==> l.leq(before, r) && l.leq(after, r)
  {
    if iteration < WideningDelay then l.join(before, after)
    else l.widen(before, after, iteration == WideningDelay)
  }

  /** Which operator extrapolate applies: join, or widen with its first-time flag. */
  datatype Step = JoinStep | WidenStep(first: bool)

  function AscendingStep(iteration: nat): Step
  {
    if iteration < WideningDelay then JoinStep else WidenStep(iteration == WideningDelay)
  }

  /**
   * Only the first iteration joins; every later one widens, and the flag
   * is set on exactly one of them, the second.
   */
  lemma WideningSchedule<D(!new)>(l: Lattice<D>, before: D, after: D, iteration: nat)
    requires iteration >= 1
    ensures AscendingStep(iteration) == JoinStep <==> iteration == 1
    ensures AscendingStep(iteration) == WidenStep(true) <==> iteration == 2
    ensures Extrapolate(l, before, after, iteration) == match AscendingStep(iteration)
      case JoinStep => l.join(before, after)
      case WidenStep(f) => l.widen(before, after, f)
  {
  }

  /** The next descending value: the meet on the first iteration, the narrowing after. */
  function Refine<D(!new)>(l: Lattice<D>, before: D, after: D, iteration: nat): (r: D)
    ensures MeetIsBelow(l) && NarrowIsBelow(l) ==> l.leq(r, before)
  {
    if iteration == 1 then l.meet(before, after) else l.narrow(before, after)
  }

  // ---------------------------------------------------------------------
  // Joining the posts of predecessors

  /** Join the values in `t` of `ps`, in order, onto `acc`. */
  function JoinOver<D>(l: Lattice<D>, acc: D, ps: seq<Label>, t: map<Label, D>): D
    requires forall p :: p in ps ==> p in t
    decreases |ps|
  {
    if ps == [] then acc else l.join(JoinOver(l, acc, ps[..|ps| - 1], t), t[ps[|ps| - 1]])
  }

  lemma JoinOverSnoc<D>(l: Lattice<D>, acc: D, ps: seq<Label>, p: Label, t: map<Label, D>)
    requires forall q :: q in ps ==> q in t
    requires p in t
    ensures JoinOver(l, acc, ps + [p], t) == l.join(JoinOver(l, acc, ps, t), t[p])
  {
    assert (ps + [p])[..|ps|] == ps;
  }

  /** With a sound join, the result is above the start value and above the value of every label joined. */
  lemma {:induction false} JoinOverBounds<D(!new)>(l: Lattice<D>, acc: D, ps: seq<Label>, t: map<Label, D>)
    requires LeqReflexive(l) && LeqTransitive(l) && JoinIsUpperBound(l)
    requires forall p :: p in ps ==> p in t
    ensures l.leq(acc, JoinOver(l, acc, ps, t))
    ensures forall p :: p in ps ==> l.leq(t[p], JoinOver(l, acc, ps, t))
    decreases |ps|
  {
    if ps != [] {
      var init := ps[..|ps| - 1];
      var r0 := JoinOver(l, acc, init, t);
      JoinOverBounds(l, acc, init, t);
      var r := l.join(r0, t[ps[|ps| - 1]]);
      assert l.leq(r0, r);
      forall p | p in ps
        ensures l.leq(t[p], r)
      {
        if p in init {
          assert l.leq(t[p], r0);
        } else {
          assert p == ps[|ps| - 1];
        }
      }
    }
  }

  /** Moving one label to the end does not change the join, when joins can be swapped. */
  lemma {:induction false} JoinOverMoveToBack<D(!new)>(l: Lattice<D>, acc: D, ys: seq<Label>, k: nat, t: map<Label, D>)
    requires JoinRightCommutes(l)
    requires forall p :: p in ys ==> p in t
    requires k < |ys|
    ensures JoinOver(l, acc, ys, t) == l.join(JoinOver(l, acc, ys[..k] + ys[k + 1..], t), t[ys[k]])
    decreases |ys|
  {
    var n := |ys| - 1;
    var rest := ys[..k] + ys[k + 1..];
    if k < n {
      var init := ys[..n];
      var rest' := init[..k] + init[k + 1..];
      JoinOverMoveToBack(l, acc, init, k, t);
      RemoveThenSnoc(ys, k);
      assert init[k] == ys[k];
      JoinOverSnoc(l, acc, rest', ys[n], t);
      var a, b, c := JoinOver(l, acc, rest', t), t[ys[k]], t[ys[n]];
      assert JoinOver(l, acc, ys, t) == l.join(l.join(a, b), c);
      assert JoinOver(l, acc, rest, t) == l.join(a, c);
    } else {
      assert rest == ys[..n];
    }
  }

  /** Dropping index `k` before or after taking off the last element comes to the same. */
  lemma RemoveThenSnoc<T>(ys: seq<T>, k: nat)
    requires k < |ys| - 1
    ensures var n := |ys| - 1;
      ys[..n][..k] + ys[..n][k + 1..] + [ys[n]] == ys[..k] + ys[k + 1..]
  {
  }

  /**
   * The analyzer joins predecessors in the order of a `std::set`; when joins
   * can be swapped, any other order gives the same value.
   */
  lemma {:induction false} JoinOverPermutation<D(!new)>(l: Lattice<D>, acc: D, xs: seq<Label>, ys: seq<Label>, t: map<Label, D>)
    requires JoinRightCommutes(l)
    requires forall p :: p in xs ==> p in t
    requires forall p :: p in ys ==> p in t
    requires multiset(xs) == multiset(ys)
    ensures JoinOver(l, acc, xs, t) == JoinOver(l, acc, ys, t)
    decreases |xs|
  {
    if xs == [] {
      assert |ys| == |multiset(ys)| == 0;
    } else {
      var n := |xs| - 1;
      assert xs[n] in multiset(ys);
      var k :| 0 <= k < |ys| && ys[k] == xs[n];
      var rest := ys[..k] + ys[k + 1..];
      RemoveMatching(xs, ys, k);
      JoinOverMoveToBack(l, acc, ys, k, t);
      JoinOverPermutation(l, acc, xs[..n], rest, t);
    }
  }

  /** Removing the last of `xs` and its match in `ys` leaves two permutations of each other. */
  lemma RemoveMatching<T>(xs: seq<T>, ys: seq<T>, k: nat)
    requires multiset(xs) == multiset(ys) && xs != []
    requires k < |ys| && ys[k] == xs[|xs| - 1]
    ensures multiset(xs[..|xs| - 1]) == multiset(ys[..k] + ys[k + 1..])
    ensures forall p :: p in ys[..k] + ys[k + 1..] ==> p in ys
  {
    var n := |xs| - 1;
    var z := xs[n];
    assert xs == xs[..n] + [z];
    assert ys == ys[..k] + [z] + ys[k + 1..];
    assert multiset(xs) == multiset(xs[..n]) + multiset{z};
    assert multiset(ys) == multiset(ys[..k]) + multiset{z} + multiset(ys[k + 1..]);
    assert multiset(xs[..n]) == multiset(xs) - multiset{z};
    assert multiset(ys[..k] + ys[k + 1..]) == multiset(ys) - multiset{z};
  }

  /** The predecessors that seed a cycle's invariant: those not nested deeper than its head (lines 211-216). */
  function Shallow(w: Wto, ps: seq<Label>, nest: seq<Label>): seq<Label>
    decreases |ps|
  {
    if ps == [] then []
    else
      var last := ps[|ps| - 1];
      Shallow(w, ps[..|ps| - 1], nest) + (if NestedDeeper(w.nesting(last), nest) then [] else [last])
  }

  lemma ShallowSnoc(w: Wto, ps: seq<Label>, p: Label, nest: seq<Label>)
    ensures Shallow(w, ps + [p], nest) == Shallow(w, ps, nest) + (if NestedDeeper(w.nesting(p), nest) then [] else [p])
  {
    assert (ps + [p])[..|ps|] == ps;
  }

  /** Shallow keeps, in order, exactly the labels that are not nested deeper. */
  lemma {:induction false} ShallowKeeps(w: Wto, ps: seq<Label>, nest: seq<Label>)
    ensures forall p :: p in Shallow(w, ps, nest) <==> p in ps && !NestedDeeper(w.nesting(p), nest)
    ensures |Shallow(w, ps, nest)| <= |ps|
    decreases |ps|
  {
    if ps != [] {
      ShallowKeeps(w, ps[..|ps| - 1], nest);
      assert ps == ps[..|ps| - 1] + [ps[|ps| - 1]];
    }
  }

  // ---------------------------------------------------------------------
  // Termination instrumentation (lines 134-145)

  /** The heads of the top-level cycles, in WTO order. */
  function CycleHeads(cs: seq<Component>): seq<Label>
    decreases |cs|
  {
    if cs == [] then []
    else CycleHeads(cs[..|cs| - 1]) + (if cs[|cs| - 1].Cycle? then [cs[|cs| - 1].head] else [])
  }

  /** A label is listed exactly when it heads a top-level cycle. */
  lemma {:induction false} CycleHeadsListed(cs: seq<Component>)
    ensures forall h :: h in CycleHeads(cs) <==> exists i :: 0 <= i < |cs| && cs[i].Cycle? && cs[i].head == h
    decreases |cs|
  {
    if cs != [] {
      var init := cs[..|cs| - 1];
      CycleHeadsListed(init);
      assert forall i :: 0 <= i < |init| ==> init[i] == cs[i];
    }
  }

  /** The counter instructions that the heads in `hs` add to the block of `x`: one per occurrence. */
  function Counters(hs: seq<Label>, x: Label): seq<Instruction>
    decreases |hs|
  {
    if hs == [] then []
    else Counters(hs[..|hs| - 1], x) + (if hs[|hs| - 1] == x then [IncrementLoopCounter(x)] else [])
  }

  /** With distinct heads, each head's block gains exactly one counter, and no other block gains any. */
  lemma {:induction false} CountersOfDistinct(hs: seq<Label>, x: Label)
    requires forall i, j :: 0 <= i < j < |hs| ==> hs[i] != hs[j]
    ensures Counters(hs, x) == if x in hs then [IncrementLoopCounter(x)] else []
    decreases |hs|
  {
    if hs != [] {
      var init := hs[..|hs| - 1];
      CountersOfDistinct(init, x);
      assert hs == init + [hs[|hs| - 1]];
      if hs[|hs| - 1] == x {
        assert x !in init;
      }
    }
  }

  /** The entry value after `initialize_loop_counter` for each head in turn. */
  function InitCounters<D>(init: (D, Label) -> D, v: D, hs: seq<Label>): D
    decreases |hs|
  {
    if hs == [] then v else init(InitCounters(init, v, hs[..|hs| - 1]), hs[|hs| - 1])
  }

  lemma {:induction false} CycleHeadsAreLabels(cs: seq<Component>)
    ensures forall h :: h in CycleHeads(cs) ==> h in LabelsOfAll(cs)
    decreases |cs|
  {
    CycleHeadsListed(cs);
    forall h | h in CycleHeads(cs)
      ensures h in LabelsOfAll(cs)
    {
      var i :| 0 <= i < |cs| && cs[i].Cycle? && cs[i].head == h;
      LabelsOfAllContains(cs, i);
    }
  }

  /** The labels that visiting a cycle's components may write: those of every component but a bare head (lines 223-227). */
  function BodyLabels(cs: seq<Component>, head: Label): set<Label>
    decreases |cs|
  {
    if cs == [] then {}
    else
      var last := cs[|cs| - 1];
      BodyLabels(cs[..|cs| - 1], head) + (if last == Vertex(head) then {} else LabelsOf(last))
  }

  lemma BodyLabelsStep(cs: seq<Component>, i: nat, head: Label)
    requires i < |cs|
    ensures BodyLabels(cs[..i + 1], head) == BodyLabels(cs[..i], head) + (if cs[i] == Vertex(head) then {} else LabelsOf(cs[i]))
  {
    assert cs[..i + 1][..i] == cs[..i];
  }

  lemma {:induction false} BodyLabelsWithin(cs: seq<Component>, head: Label)
    ensures BodyLabels(cs, head) <= LabelsOfAll(cs)
    decreases |cs|
  {
    if cs != [] {
      var init := cs[..|cs| - 1];
      BodyLabelsWithin(init, head);
      LabelsOfAllSnoc(init, cs[|cs| - 1]);
      assert init + [cs[|cs| - 1]] == cs;
    }
  }

  lemma {:induction false} LabelsOfAllSnoc(cs: seq<Component>, c: Component)
    ensures LabelsOfAll(cs + [c]) == LabelsOfAll(cs) + LabelsOf(c)
    decreases |cs|
  {
    if cs != [] {
      assert (cs + [c])[1..] == cs[1..] + [c];
      LabelsOfAllSnoc(cs[1..], c);
    } else {
      assert (cs + [c])[1..] == [];
    }
  }

  lemma LabelsOfAllPrefix(cs: seq<Component>, i: nat)
    requires i < |cs|
    ensures LabelsOfAll(cs[..i + 1]) == LabelsOfAll(cs[..i]) + LabelsOf(cs[i])
  {
    assert cs[..i + 1] == cs[..i] + [cs[i]];
    LabelsOfAllSnoc(cs[..i], cs[i]);
  }

  lemma LabelsOfAllWhole(cs: seq<Component>)
    ensures LabelsOfAll(cs[..|cs|]) == LabelsOfAll(cs)
  {
    assert cs[..|cs|] == cs;
  }

  /** A well-formed cycle: its head does not occur again among the components it iterates. */
  predicate HeadOnce(c: Component)
    requires c.Cycle?
  {
    c.head !in BodyLabels(c.components, c.head)
  }

  lemma {:induction false} LabelsOfAllContains(cs: seq<Component>, i: nat)
    requires i < |cs|
    ensures LabelsOf(cs[i]) <= LabelsOfAll(cs)
    decreases |cs|
  {
    if i > 0 {
      LabelsOfAllContains(cs[1..], i - 1);
    }
  }

  /** The top-level cycle heads, collected by a loop over the WTO (lines 135-140). */
  method TopLevelCycleHeads(w: Wto) returns (heads: seq<Label>)
    ensures heads == CycleHeads(w.components)
  {
    var cs := w.components;
    heads := [];
    for i := 0 to |cs|
      invariant heads == CycleHeads(cs[..i])
    {
      assert cs[..i + 1][..i] == cs[..i];
      if cs[i].Cycle? {
        heads := heads + [cs[i].head];
      }
    }
    assert cs[..|cs|] == cs;
  }

  /**
   * For each head in turn, `initialize_loop_counter` on the entry value and
   * an `IncrementLoopCounter` appended to its block (lines 141-144).
   */
  method InstrumentCycleHeads<D>(cfg0: Cfg, init: (D, Label) -> D, entryInv0: D, heads: seq<Label>)
    returns (cfg: Cfg, entryInv: D)
    requires forall h :: h in heads ==> h in cfg0.blocks
    ensures cfg.blocks.Keys == cfg0.blocks.Keys
    ensures forall l :: l in cfg0.blocks ==>
      cfg.blocks[l] == cfg0.blocks[l].(insts := cfg0.blocks[l].insts + Counters(heads, l))
    ensures entryInv == InitCounters(init, entryInv0, heads)
  {
    cfg, entryInv := cfg0, entryInv0;
    for i := 0 to |heads|
      invariant cfg.blocks.Keys == cfg0.blocks.Keys
      invariant forall l :: l in cfg0.blocks ==>
        cfg.blocks[l] == cfg0.blocks[l].(insts := cfg0.blocks[l].insts + Counters(heads[..i], l))
      invariant entryInv == InitCounters(init, entryInv0, heads[..i])
    {
      var h := heads[i];
      assert heads[..i + 1][..i] == heads[..i];
      entryInv := init(entryInv, h);
      ghost var before := cfg;
      cfg := cfg.Append(h, IncrementLoopCounter(h));
      forall l | l in cfg0.blocks
        ensures cfg.blocks[l] == cfg0.blocks[l].(insts := cfg0.blocks[l].insts + Counters(heads[..i + 1], l))
      {
        assert Counters(heads[..i + 1], l) == Counters(heads[..i], l) + (if h == l then [IncrementLoopCounter(l)] else []);
        if l == h {
          assert cfg.blocks[l].insts == before.blocks[l].insts + [IncrementLoopCounter(l)];
        } else {
          assert cfg.blocks[l] == before.blocks[l];
        }
      }
    }
    assert heads[..|heads|] == heads;
  }

  // ---------------------------------------------------------------------
  // The iterator (lines 49-259)

  /**
   * The domain the iterator runs: its lattice, the effect of a block on a
   * value, `initialize_loop_counter`, and for the partition domain only,
   * `set_key` (lines 97-107; `None` for the plain domain).
   */
  datatype AnalysisDomain<!D> = AnalysisDomain(
    lattice: Lattice<D>,
    transfer: (D, seq<Instruction>) -> D,
    initializeLoopCounter: (D, Label) -> D,
    setKey: Option<(D, string) -> D>)

  /**
   * The value join_all_prevs starts from: bottom, carrying for the
   * partition domain the key configured for the label's text, or else the
   * key configured for "*" (lines 96-107).
   */
  function Seed<D>(d: AnalysisDomain<D>, keys: map<string, string>, node: Label): D
  {
    match d.setKey
    case None => d.lattice.bottom
    case Some(setKey) =>
      var text := LabelToString(node);
      if text in keys then setKey(d.lattice.bottom, keys[text])
      else if "*" in keys then setKey(d.lattice.bottom, keys["*"])
      else d.lattice.bottom
  }

  /** What the iterator relies on of its CFG and WTO: the entry, every predecessor and every WTO label are blocks. */
  ghost predicate Fits(cfg: Cfg, w: Wto)
  {
    && EntryLabel in cfg.blocks
    && (forall b, a :: b in cfg.blocks && a in cfg.blocks[b].prev ==> a in cfg.blocks)
    && LabelsOfAll(w.components) <= cfg.blocks.Keys
  }

  /** Among the components `cs`, the entry appears only as a plain label, never inside a cycle. */
  ghost predicate EntryOnlyAsVertex(cs: seq<Component>)
  {
    forall i :: 0 <= i < |cs| && EntryLabel in LabelsOf(cs[i]) ==> cs[i] == Vertex(EntryLabel)
  }

  /** From tables `pre0`/`post0` to `pre1`/`post1`, only labels in `s` changed and only they were newly visited. */
  ghost predicate ChangedOnly<D>(s: set<Label>,
    pre0: map<Label, D>, post0: map<Label, D>, visited0: set<Label>,
    pre1: map<Label, D>, post1: map<Label, D>, visited1: set<Label>)
  {
    && pre1.Keys == pre0.Keys && post1.Keys == post0.Keys
    && (forall l :: l in pre0 && l !in s ==> pre1[l] == pre0[l])
    && (forall l :: l in post0 && l !in s ==> post1[l] == post0[l])
    && visited0 <= visited1 <= visited0 + s
  }

  lemma ChangedOnlyTrans<D>(s: set<Label>, s': set<Label>,
    pre0: map<Label, D>, post0: map<Label, D>, visited0: set<Label>,
    pre1: map<Label, D>, post1: map<Label, D>, visited1: set<Label>,
    pre2: map<Label, D>, post2: map<Label, D>, visited2: set<Label>)
    requires ChangedOnly(s, pre0, post0, visited0, pre1, post1, visited1)
    requires ChangedOnly(s', pre1, post1, visited1, pre2, post2, visited2)
    ensures ChangedOnly(s + s', pre0, post0, visited0, pre2, post2, visited2)
  {
  }

  /** Taking labels out of `todo` one at a time into `order`: so far, every label of `s` is in exactly one, and `order` repeats none. */
  ghost predicate Drained(todo: set<Label>, order: seq<Label>, s: set<Label>)
  {
    && (forall p :: p in s <==> p in todo || p in order)
    && (forall p :: p in todo ==> p !in order)
    && (forall i, j :: 0 <= i < j < |order| ==> order[i] != order[j])
  }

  lemma DrainStep(todo: set<Label>, order: seq<Label>, s: set<Label>, p: Label)
    requires Drained(todo, order, s) && p in todo
    ensures Drained(todo - {p}, order + [p], s)
  {
  }

  lemma DrainDone(order: seq<Label>, s: set<Label>)
    requires Drained({}, order, s)
    ensures Enumerates(order, s)
  {
  }

  /** `order` lists the labels of `s`, each once. */
  ghost predicate Enumerates(order: seq<Label>, s: set<Label>)
  {
    && (forall p :: p in order <==> p in s)
    && (forall i, j :: 0 <= i < j < |order| ==> order[i] != order[j])
  }

  /** A table mapping each of `labels` to `bottom`, one `emplace` at a time. */
  method BottomTable<D>(labels: set<Label>, bottom: D) returns (table: map<Label, D>)
    ensures table.Keys == labels
    ensures forall l :: l in table ==> table[l] == bottom
  {
    table := map[];
    var todo := labels;
    while todo != {}
      invariant table.Keys + todo == labels && table.Keys !! todo
      invariant forall l :: l in table ==> table[l] == bottom
      decreases |todo|
    {
      var l :| l in todo;
      table := table[l := bottom];
      todo := todo - {l};
    }
  }

  /**
   * interleaved_fwd_fixpoint_iterator_t: the invariant tables `pre` and
   * `post`, the skip flag, and the CFG and WTO it walks. `fuel` bounds each
   * ascending loop, which the source leaves unbounded; `diverged` records
   * that some loop ran out of it. `visited` is the set of labels whose
   * tables have been written.
   */
  class FixpointIterator<D(!new)> {
    const cfg: Cfg
    const wto: Wto
    const domain: AnalysisDomain<D>
    const partitionKeys: map<string, string>
    const fuel: nat
    var pre: map<Label, D>
    var post: map<Label, D>
    var skip: bool
    var diverged: bool
    ghost var visited: set<Label>

    ghost predicate Valid()
      reads this
    {
      && Fits(cfg, wto)
      && pre.Keys == cfg.blocks.Keys
      && post.Keys == cfg.blocks.Keys
      && visited <= cfg.blocks.Keys
    }

    /** The block of `l` applied to `v` (transform_to_post, lines 70-74). */
    function Transfer(l: Label, v: D): D
      requires l in cfg.blocks
    {
      domain.transfer(v, cfg.blocks[l].insts)
    }

    /** A visited label's post is its block applied to its pre; a label not visited is still bottom. */
    ghost predicate Settled(l: Label)
      reads this
      requires l in cfg.blocks && l in pre && l in post
    {
      if l in visited then post[l] == Transfer(l, pre[l])
      else post[l] == domain.lattice.bottom && (l == EntryLabel || pre[l] == domain.lattice.bottom)
    }

    ghost predicate CoherentExcept(h: Label)
      reads this
      requires Valid()
    {
      forall l :: l in cfg.blocks && l != h ==> Settled(l)
    }

    ghost predicate Coherent()
      reads this
      requires Valid()
    {
      forall l :: l in cfg.blocks ==> Settled(l)
    }

    /** Both tables map every label to bottom (lines 115-120). */
    constructor(cfg: Cfg, wto: Wto, domain: AnalysisDomain<D>, partitionKeys: map<string, string>, fuel: nat)
      requires Fits(cfg, wto)
      ensures this.cfg == cfg && this.wto == wto && this.domain == domain
      ensures this.partitionKeys == partitionKeys && this.fuel == fuel
      ensures Valid() && Coherent()
      ensures forall l :: l in cfg.blocks ==> pre[l] == domain.lattice.bottom && post[l] == domain.lattice.bottom
      ensures skip && !diverged && visited == {}
    {
      var table := BottomTable(cfg.blocks.Keys, domain.lattice.bottom);
      this.cfg := cfg;
      this.wto := wto;
      this.domain := domain;
      this.partitionKeys := partitionKeys;
      this.fuel := fuel;
      pre := table;
      post := table;
      skip := true;
      diverged := false;
      visited := {};
    }

    /** set_pre (line 68). */
    method SetPre(l: Label, v: D)
      requires Valid() && l in cfg.blocks
      modifies this
      ensures Valid()
      ensures pre == old(pre)[l := v]
      ensures post == old(post) && visited == old(visited) && skip == old(skip) && diverged == old(diverged)
      ensures old(CoherentExcept(l)) ==> CoherentExcept(l)
      ensures old(Coherent()) && l == EntryLabel && l !in visited ==> Coherent()
    {
      pre := pre[l := v];
    }

    /** transform_to_post (lines 70-74): the post of `l` becomes its block applied to `v`. */
    method TransformToPost(l: Label, v: D)
      requires Valid() && l in cfg.blocks
      modifies this
      ensures Valid()
      ensures post == old(post)[l := Transfer(l, v)] && visited == old(visited) + {l}
      ensures pre == old(pre) && skip == old(skip) && diverged == old(diverged)
      ensures old(CoherentExcept(l)) && pre[l] == v ==> Coherent()
    {
      post := post[l := Transfer(l, v)];
      visited := visited + {l};
    }

    /**
     * join_all_prevs (lines 95-112): the seed joined with the post of every
     * predecessor, in the order the set hands them out.
     */
    method JoinAllPrevs(node: Label) returns (res: D, ghost order: seq<Label>)
      requires Valid() && node in cfg.blocks
      ensures Enumerates(order, cfg.blocks[node].prev)
      ensures forall p :: p in order ==> p in post
      ensures res == JoinOver(domain.lattice, Seed(domain, partitionKeys, node), order, post)
    {
      res := Seed(domain, partitionKeys, node);
      order := [];
      var todo := cfg.blocks[node].prev;
      while todo != {}
        invariant Drained(todo, order, cfg.blocks[node].prev)
        invariant forall p :: p in order ==> p in post
        invariant res == JoinOver(domain.lattice, Seed(domain, partitionKeys, node), order, post)
        decreases |todo|
      {
        var p :| p in todo;
        DrainStep(todo, order, cfg.blocks[node].prev, p);
        JoinOverSnoc(domain.lattice, Seed(domain, partitionKeys, node), order, p, post);
        res := domain.lattice.join(res, post[p]);
        order := order + [p];
        todo := todo - {p};
      }
      DrainDone(order, cfg.blocks[node].prev);
    }

    /**
     * The seed of a cycle not holding the entry (lines 211-216): bottom
     * joined with the post of every predecessor of the head that is not
     * nested deeper than the head.
     */
    method SeedFromOutside(head: Label) returns (res: D, ghost order: seq<Label>)
      requires Valid() && head in cfg.blocks
      ensures Enumerates(order, cfg.blocks[head].prev)
      ensures forall p :: p in Shallow(wto, order, wto.nesting(head)) ==> p in post
      ensures res == JoinOver(domain.lattice, domain.lattice.bottom, Shallow(wto, order, wto.nesting(head)), post)
    {
      var nest := wto.nesting(head);
      res := domain.lattice.bottom;
      order := [];
      ghost var kept: seq<Label> := [];
      var todo := cfg.blocks[head].prev;
      while todo != {}
        invariant Drained(todo, order, cfg.blocks[head].prev)
        invariant kept == Shallow(wto, order, nest)
        invariant forall p :: p in kept ==> p in post
        invariant res == JoinOver(domain.lattice, domain.lattice.bottom, kept, post)
        decreases |todo|
      {
        var p :| p in todo;
        DrainStep(todo, order, cfg.blocks[head].prev, p);
        ShallowSnoc(wto, order, p, nest);
        if !NestedDeeper(wto.nesting(p), nest) {
          JoinOverSnoc(domain.lattice, domain.lattice.bottom, kept, p, post);
          res := domain.lattice.join(res, post[p]);
          kept := kept + [p];
        }
        order := order + [p];
        todo := todo - {p};
      }
      DrainDone(order, cfg.blocks[head].prev);
    }

    /** Only labels in `s` have changed since the tables were `pre0`, `post0` and the visited set `visited0`. */
    ghost predicate Within(s: set<Label>, pre0: map<Label, D>, post0: map<Label, D>, visited0: set<Label>)
      reads this
    {
      ChangedOnly(s, pre0, post0, visited0, pre, post, visited)
    }

    /**
     * The label rule (lines 174-187). Until the entry is reached, a label is
     * skipped and nothing changes. Otherwise its pre is the stored value for
     * the entry and the join of its predecessors' posts for any other label,
     * and its post is its block applied to that pre.
     */
    method VisitLabel(node: Label) returns (ghost order: seq<Label>)
      requires Valid() && Coherent() && node in cfg.blocks
      modifies this
      ensures Valid() && Coherent()
      ensures diverged == old(diverged)
      ensures old(skip) && node != EntryLabel ==>
        skip && pre == old(pre) && post == old(post) && visited == old(visited)
      ensures !(old(skip) && node != EntryLabel) ==>
        && !skip
        && visited == old(visited) + {node}
        && (node != EntryLabel ==> Enumerates(order, cfg.blocks[node].prev) && forall p :: p in order ==> p in old(post))
        && var v := if node == EntryLabel then old(pre)[node]
                    else JoinOver(domain.lattice, Seed(domain, partitionKeys, node), order, old(post));
           pre == old(pre)[node := v] && post == old(post)[node := Transfer(node, v)]
    {
      order := [];
      if skip && node == EntryLabel {
        skip := false;
      }
      if skip {
        return;
      }
      var v: D;
      if node == EntryLabel {
        v := pre[node];
      } else {
        v, order := JoinAllPrevs(node);
      }
      assert CoherentExcept(node);
      SetPre(node, v);
      TransformToPost(node, v);
    }

    /** std::visit on a component: the label rule or the cycle rule. */
    method Visit(c: Component)
      requires Valid() && Coherent() && LabelsOf(c) <= cfg.blocks.Keys
      modifies this
      ensures Valid() && Coherent()
      ensures Within(LabelsOf(c), old(pre), old(post), old(visited))
      ensures old(skip) && !IsMember(EntryLabel, c) ==>
        skip && pre == old(pre) && post == old(post) && visited == old(visited)
      ensures !old(skip) ==> !skip
      ensures old(diverged) ==> diverged
      ensures c == Vertex(EntryLabel) ==> pre[EntryLabel] == old(pre)[EntryLabel]
      decreases c, 4
    {
      match c
      case Vertex(v) =>
        ghost var order := VisitLabel(v);
      case Cycle(_, _) =>
        VisitCycle(c);
    }

    /**
     * The cycle rule (lines 189-259). Until the entry is reached, a cycle
     * that does not hold it is skipped and nothing changes. Otherwise the
     * head's invariant is seeded, raised by Ascend until the head's incoming
     * value is covered, and then lowered by Descend.
     */
    method VisitCycle(c: Component)
      requires c.Cycle? && Valid() && Coherent() && LabelsOf(c) <= cfg.blocks.Keys
      modifies this
      ensures Valid() && Coherent()
      ensures Within(LabelsOf(c), old(pre), old(post), old(visited))
      ensures old(skip) && !IsMember(EntryLabel, c) ==>
        skip && pre == old(pre) && post == old(post) && visited == old(visited)
      ensures !(old(skip) && !IsMember(EntryLabel, c)) ==> !skip
      ensures old(diverged) ==> diverged
      decreases c, 3
    {
      var entryInCycle := false;
      if skip {
        entryInCycle := IsMember(EntryLabel, c);
        skip := !entryInCycle;
      }
      if !skip {
        IterateCycle(c, entryInCycle);
      }
    }

    /**
     * The cycle rule once the cycle is not skipped (lines 207-258): seed the
     * invariant from the entry's stored value when the entry is inside the
     * cycle, else from the shallow predecessors of the head; then the two
     * iteration sequences. A cycle whose ascending loop runs out of fuel
     * sets `diverged` and stops there.
     */
    method IterateCycle(c: Component, entryInCycle: bool)
      requires c.Cycle? && Valid() && Coherent() && !skip && LabelsOf(c) <= cfg.blocks.Keys
      modifies this
      ensures Valid() && Coherent() && !skip
      ensures Within(LabelsOf(c), old(pre), old(post), old(visited))
      ensures old(diverged) ==> diverged
      decreases c, 2
    {
      var inv: D;
      if entryInCycle {
        inv := pre[EntryLabel];
      } else {
        ghost var order;
        inv, order := SeedFromOutside(c.head);
      }
      var converged;
      ghost var order;
      ghost var prev, rounds;
      inv, converged, prev, rounds, order := Ascend(c, inv);
      if !converged {
        diverged := true;
        return;
      }
      ghost var pre1, post1, visited1 := pre, post, visited;
      ghost var capped, last, rounds', order';
      capped, last, rounds', order' := Descend(c, inv);
      ChangedOnlyTrans(LabelsOf(c), LabelsOf(c), old(pre), old(post), old(visited), pre1, post1, visited1, pre, post, visited);
      assert LabelsOf(c) + LabelsOf(c) == LabelsOf(c);
    }

    /**
     * The increasing sequence (lines 219-237): set the head's pre and post
     * from the invariant, visit the other components, and join the head's
     * predecessors. When that join is below the invariant, it becomes the
     * head's pre and the loop stops; otherwise the invariant is
     * extrapolated. At most `fuel` rounds are run.
     */
    method Ascend(c: Component, seed: D) returns (inv: D, converged: bool, ghost prev: D, ghost rounds: nat, ghost order: seq<Label>)
      requires c.Cycle? && Valid() && Coherent() && !skip && LabelsOf(c) <= cfg.blocks.Keys
      modifies this
      ensures Valid() && !skip
      ensures Within(LabelsOf(c), old(pre), old(post), old(visited))
      ensures old(diverged) ==> diverged
      ensures !converged ==> Coherent()
      ensures converged ==> CoherentExcept(c.head) && c.head in visited && pre[c.head] == inv
      ensures rounds <= fuel && (converged ==> 1 <= rounds) && (!converged ==> rounds == fuel)
      ensures rounds <= 1 ==> prev == seed
      ensures rounds > 0 ==>
        && Enumerates(order, cfg.blocks[c.head].prev)
        && (forall p :: p in order ==> p in post)
        && (converged <==> domain.lattice.leq(JoinOver(domain.lattice, Seed(domain, partitionKeys, c.head), order, post), prev))
        && (HeadOnce(c) ==> post[c.head] == Transfer(c.head, prev))
      ensures converged ==> inv == JoinOver(domain.lattice, Seed(domain, partitionKeys, c.head), order, post)
      decreases c, 1
    {
      BodyLabelsWithin(c.components, c.head);
      inv := seed;
      prev := seed;
      converged := false;
      order := [];
      rounds := 0;
      var iteration := 1;
      while iteration <= fuel
        invariant Valid() && Coherent() && !skip
        invariant Within(LabelsOf(c), old(pre), old(post), old(visited))
        invariant old(diverged) ==> diverged
        invariant rounds == iteration - 1 && iteration <= fuel + 1
        invariant rounds <= 1 ==> prev == seed
        invariant rounds == 0 ==> inv == seed
        invariant rounds > 0 ==>
          && Enumerates(order, cfg.blocks[c.head].prev)
          && (forall p :: p in order ==> p in post)
          && !domain.lattice.leq(JoinOver(domain.lattice, Seed(domain, partitionKeys, c.head), order, post), prev)
          && (HeadOnce(c) ==> post[c.head] == Transfer(c.head, prev))
        decreases fuel + 1 - iteration
      {
        assert CoherentExcept(c.head);
        prev := inv;
        rounds := iteration;
        SetPre(c.head, inv);
        TransformToPost(c.head, inv);
        ghost var post1 := post;
        VisitNested(c);
        assert HeadOnce(c) ==> post[c.head] == post1[c.head];
        var newPre;
        newPre, order := JoinAllPrevs(c.head);
        if domain.lattice.leq(newPre, inv) {
          assert CoherentExcept(c.head);
          SetPre(c.head, newPre);
          inv := newPre;
          converged := true;
          return;
        }
        assert !domain.lattice.leq(JoinOver(domain.lattice, Seed(domain, partitionKeys, c.head), order, post), prev);
        inv := Extrapolate(domain.lattice, inv, newPre, iteration);
        iteration := iteration + 1;
      }
    }

    /**
     * The decreasing sequence (lines 239-258): set the head's post from the
     * invariant, visit the other components, and join the head's
     * predecessors. It stops when the invariant is below that join, or
     * after 2,000,000 refinements (`capped`); otherwise the invariant is
     * refined and becomes the head's pre.
     */
    method Descend(c: Component, inv0: D) returns (ghost capped: bool, ghost last: D, ghost rounds: nat, ghost order: seq<Label>)
      requires c.Cycle? && Valid() && !skip && LabelsOf(c) <= cfg.blocks.Keys
      requires CoherentExcept(c.head) && c.head in visited && pre[c.head] == inv0
      modifies this
      ensures Valid() && Coherent() && !skip
      ensures Within(LabelsOf(c), old(pre), old(post), old(visited))
      ensures old(diverged) ==> diverged
      ensures 1 <= rounds <= DescendingIterations + 1 && (rounds == 1 ==> last == inv0)
      ensures capped ==> rounds == DescendingIterations + 1
      ensures Enumerates(order, cfg.blocks[c.head].prev) && (forall p :: p in order ==> p in post)
      ensures capped <==> !domain.lattice.leq(last, JoinOver(domain.lattice, Seed(domain, partitionKeys, c.head), order, post))
      ensures HeadOnce(c) ==> pre[c.head] == last
      ensures !capped && HeadOnce(c) ==>
        && Enumerates(order, cfg.blocks[c.head].prev)
        && (forall p :: p in order ==> p in post)
        && domain.lattice.leq(pre[c.head], JoinOver(domain.lattice, Seed(domain, partitionKeys, c.head), order, post))
      decreases c, 1
    {
      BodyLabelsWithin(c.components, c.head);
      var inv := inv0;
      var iteration := 1;
      while true
        invariant Valid() && CoherentExcept(c.head) && c.head in visited && pre[c.head] == inv && !skip
        invariant iteration == 1 ==> inv == inv0
        invariant Within(LabelsOf(c), old(pre), old(post), old(visited))
        invariant old(diverged) ==> diverged
        invariant 1 <= iteration <= DescendingIterations + 1
        decreases DescendingIterations + 1 - iteration
      {
        TransformToPost(c.head, inv);
        ghost var pre1 := pre;
        VisitNested(c);
        assert HeadOnce(c) ==> pre[c.head] == pre1[c.head];
        var newPre;
        newPre, order := JoinAllPrevs(c.head);
        last, rounds := inv, iteration;
        if domain.lattice.leq(inv, newPre) {
          capped := false;
          return;
        }
        if iteration > DescendingIterations {
          capped := true;
          return;
        }
        inv := Refine(domain.lattice, inv, newPre, iteration);
        assert CoherentExcept(c.head);
        SetPre(c.head, inv);
        iteration := iteration + 1;
      }
    }

    /** Visit the top-level components in WTO order (lines 147-149). */
    method VisitAll()
      requires Valid() && Coherent()
      modifies this
      ensures Valid() && Coherent()
      ensures visited <= old(visited) + LabelsOfAll(wto.components)
      ensures EntryOnlyAsVertex(wto.components) ==> pre[EntryLabel] == old(pre)[EntryLabel]
    {
      var cs := wto.components;
      for i := 0 to |cs|
        invariant Valid() && Coherent()
        invariant visited <= old(visited) + LabelsOfAll(cs[..i])
        invariant EntryOnlyAsVertex(cs) ==> pre[EntryLabel] == old(pre)[EntryLabel]
      {
        LabelsOfAllContains(cs, i);
        LabelsOfAllPrefix(cs, i);
        Visit(cs[i]);
      }
      LabelsOfAllWhole(cs);
    }

    /** Visit, in order, every component of a cycle except a bare head (lines 223-227 and 243-247). */
    method VisitNested(c: Component)
      requires c.Cycle? && Valid() && Coherent() && !skip && LabelsOf(c) <= cfg.blocks.Keys
      modifies this
      ensures Valid() && Coherent() && !skip
      ensures Within(BodyLabels(c.components, c.head), old(pre), old(post), old(visited))
      ensures old(diverged) ==> diverged
      decreases c, 0
    {
      var cs := c.components;
      for i := 0 to |cs|
        invariant Valid() && Coherent() && !skip
        invariant Within(BodyLabels(cs[..i], c.head), old(pre), old(post), old(visited))
        invariant old(diverged) ==> diverged
      {
        ghost var s := BodyLabels(cs[..i], c.head);
        BodyLabelsStep(cs, i, c.head);
        if cs[i] != Vertex(c.head) {
          ghost var pre1, post1, visited1 := pre, post, visited;
          LabelsOfAllContains(cs, i);
          Visit(cs[i]);
          ChangedOnlyTrans(s, LabelsOf(cs[i]), old(pre), old(post), old(visited), pre1, post1, visited1, pre, post, visited);
        }
      }
      assert cs[..|cs|] == cs;
    }
  }

  /**
   * run_forward_analyzer (lines 130-151): with `checkTermination`, every
   * top-level cycle head gets a loop counter first; then the entry value is
   * stored as the entry's pre and every top-level component is visited in
   * WTO order. Returns both tables, the CFG as instrumented, and whether
   * some ascending loop ran out of fuel.
   */
  method RunForwardAnalyzer<D(!new)>(cfg0: Cfg, wto: Wto, domain: AnalysisDomain<D>, entryInv0: D,
    checkTermination: bool, partitionKeys: map<string, string>, fuel: nat)
    returns (pre: map<Label, D>, post: map<Label, D>, cfg: Cfg, diverged: bool, ghost visited: set<Label>)
    requires Fits(cfg0, wto)
    ensures cfg.blocks.Keys == cfg0.blocks.Keys && pre.Keys == cfg.blocks.Keys && post.Keys == cfg.blocks.Keys
    ensures !checkTermination ==> cfg == cfg0
    ensures checkTermination ==> forall l :: l in cfg0.blocks ==>
      cfg.blocks[l] == cfg0.blocks[l].(insts := cfg0.blocks[l].insts + Counters(CycleHeads(wto.components), l))
    ensures visited <= LabelsOfAll(wto.components)
    ensures forall l :: l in cfg.blocks && l in visited ==> post[l] == domain.transfer(pre[l], cfg.blocks[l].insts)
    ensures forall l :: l in cfg.blocks && l !in visited ==>
      post[l] == domain.lattice.bottom && (l == EntryLabel || pre[l] == domain.lattice.bottom)
    ensures EntryOnlyAsVertex(wto.components) ==>
      pre[EntryLabel] == if checkTermination then InitCounters(domain.initializeLoopCounter, entryInv0, CycleHeads(wto.components)) else entryInv0
  {
    cfg := cfg0;
    var entryInv := entryInv0;
    if checkTermination {
      var heads := TopLevelCycleHeads(wto);
      CycleHeadsAreLabels(wto.components);
      cfg, entryInv := InstrumentCycleHeads(cfg0, domain.initializeLoopCounter, entryInv0, heads);
    }
    assert Fits(cfg, wto);
    var analyzer := new FixpointIterator(cfg, wto, domain, partitionKeys, fuel);
    analyzer.SetPre(EntryLabel, entryInv);
    analyzer.VisitAll();
    pre, post, diverged, visited := analyzer.pre, analyzer.post, analyzer.diverged, analyzer.visited;
    assert forall l :: l in cfg.blocks ==> analyzer.Settled(l);
  }
}
