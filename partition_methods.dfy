/**
 * The code of ebpf_value_partition_domain_t: the loops of `join`, the
 * in-place updates of the partition list, and merge_or_apply. Each method
 * is proved to compute the function of partition_domain.dfy that
 * specifies it.
 */
module PartitionMethods {
  import opened Wrappers
  import opened Instructions
  import opened Intervals
  import opened PartitionDomain

  /** One of the loops of lines 87-103: does some partition have a proper packet size? */
  method FindPacketSize<D>(b: BaseDomain<D>, s: seq<D>) returns (found: bool)
    ensures found == AnyPacketSize(b, s)
  {
    found := false;
    for i := 0 to |s|
      invariant !found && forall k :: 0 <= k < i ==> !HasPacketSize(b, s[k])
    {
      if HasPacketSize(b, s[i]) {
        found := true;
        break;
      }
    }
  }

  /** `acc |= s[i]` for every `i` in order (lines 109-114 and 288-290). */
  method JoinEach<D>(b: BaseDomain<D>, acc: D, s: seq<D>) returns (r: D)
    ensures r == JoinAll(b.lattice, acc, s)
  {
    r := acc;
    for i := 0 to |s|
      invariant r == JoinAll(b.lattice, acc, s[..i])
    {
      assert s[..i + 1][..i] == s[..i];
      r := b.lattice.join(r, s[i]);
    }
    assert s[..|s|] == s;
  }

  /** The copies of lines 122-134: append the partitions of `s` that are not bottom. */
  method AppendNonBottom<D>(b: BaseDomain<D>, parts: seq<D>, s: seq<D>) returns (r: seq<D>)
    ensures r == parts + NonBottom(b, s)
  {
    r := parts;
    for i := 0 to |s|
      invariant r == parts + NonBottom(b, s[..i])
    {
      assert s[..i + 1][..i] == s[..i];
      if !b.lattice.isBottom(s[i]) {
        r := r + [s[i]];
      }
    }
    assert s[..|s|] == s;
  }

  /** The merge pass of lines 157-168, erasing in place. */
  method MergeNeighbours<D>(b: BaseDomain<D>, s: seq<D>) returns (p: seq<D>)
    ensures p == MergeRuns(b, s)
  {
    p := s;
    var i := 0;
    while i < |p|
      invariant 0 <= i <= |p|
      invariant p[..i] + MergeRuns(b, p[i..]) == MergeRuns(b, s)
      decreases |p| - i
    {
      assert p[i..][1..] == p[i + 1..];
      var j := i + 1;
      while j < |p|
        invariant j == i + 1 && i < |p|
        invariant p[..i] + MergeFrom(b, p[i], p[i + 1..]) == MergeRuns(b, s)
        decreases |p| - j
      {
        if b.packetSize(p[i]) == b.packetSize(p[j]) {
          MergeErases(b, p, i);
          p := p[i := b.lattice.join(p[i], p[j])][..j] + p[j + 1..];
          j := j - 1;
        } else {
          break;
        }
        j := j + 1;
      }
      RunClosed(b, p, i);
      i := i + 1;
    }
    assert p[..|p|] == p;
  }

  /** Absorbing the neighbour at `i + 1` into the partition at `i` leaves the merge's outcome as it was. */
  lemma MergeErases<D>(b: BaseDomain<D>, p: seq<D>, i: nat)
    requires i + 1 < |p| && b.packetSize(p[i]) == b.packetSize(p[i + 1])
    ensures var q := p[i := b.lattice.join(p[i], p[i + 1])][..i + 1] + p[i + 2..];
      q[..i] == p[..i] && MergeFrom(b, q[i], q[i + 1..]) == MergeFrom(b, p[i], p[i + 1..])
  {
    var q := p[i := b.lattice.join(p[i], p[i + 1])][..i + 1] + p[i + 2..];
    assert q[i + 1..] == p[i + 1..][1..];
  }

  /** Once the partition at `i` meets a neighbour with another key, or the end, its run is done. */
  lemma RunClosed<D>(b: BaseDomain<D>, p: seq<D>, i: nat)
    requires i < |p|
    requires i + 1 < |p| ==> b.packetSize(p[i]) != b.packetSize(p[i + 1])
    ensures p[..i] + MergeFrom(b, p[i], p[i + 1..]) == p[..i + 1] + MergeRuns(b, p[i + 1..])
  {
    if i + 1 < |p| {
      assert p[i + 1..][1..] == p[i + 2..];
    }
    assert p[..i + 1] == p[..i] + [p[i]];
  }

  /** join (lines 81-175): the partitions of `lhs | rhs`. */
  method JoinPartitions<D>(b: BaseDomain<D>, lhs: seq<D>, rhs: seq<D>) returns (r: seq<D>)
    ensures r == Join(b, lhs, rhs)
  {
    var inLhs := FindPacketSize(b, lhs);
    var inRhs := FindPacketSize(b, rhs);
    if !(inLhs || inRhs) {
      var res := JoinEach(b, b.lattice.bottom, lhs);
      res := JoinEach(b, res, rhs);
      JoinAllAppend(b.lattice, b.lattice.bottom, lhs, rhs);
      return [res];
    }
    var parts := AppendNonBottom(b, [], lhs);
    assert parts == NonBottom(b, lhs);
    parts := AppendNonBottom(b, parts, rhs);
    parts := SortByKey(b, parts);
    r := MergeNeighbours(b, parts);
  }

  /** ebpf_value_partition_domain_t: the partitions and the optional partition key. */
  class ValuePartitionDomain<D> {
    const base: BaseDomain<D>
    var partitions: seq<D>
    var partitionKey: Option<string>

    /** The constructor from a list of partitions (lines 34-35). */
    constructor (base: BaseDomain<D>, partitions: seq<D>)
      ensures this.base == base && this.partitions == partitions && partitionKey == None
    {
      this.base := base;
      this.partitions := partitions;
      partitionKey := None;
    }

    /** top() (lines 38-42): one top partition. */
    constructor Top(base: BaseDomain<D>)
      ensures this.base == base && partitions == [base.lattice.top] && partitionKey == None
    {
      this.base := base;
      partitions := [base.lattice.top];
      partitionKey := None;
    }

    /** bottom() (lines 43-47): one bottom partition. */
    constructor Bottom(base: BaseDomain<D>)
      ensures this.base == base && partitions == [base.lattice.bottom] && partitionKey == None
    {
      this.base := base;
      partitions := [base.lattice.bottom];
      partitionKey := None;
    }

    /**
     * set_to_top (lines 48-51): `resize(1)`, then the one partition is set
     * to top. (An element `resize` adds is overwritten at once.)
     */
    method SetToTop()
      modifies this
      ensures partitions == [base.lattice.top] && partitionKey == old(partitionKey)
    {
      partitions := if partitions == [] then [base.lattice.top] else partitions[..1];
      partitions := partitions[0 := base.lattice.top];
    }

    /** set_to_bottom (lines 52-55). */
    method SetToBottom()
      modifies this
      ensures partitions == [base.lattice.bottom] && partitionKey == old(partitionKey)
    {
      partitions := if partitions == [] then [base.lattice.bottom] else partitions[..1];
      partitions := partitions[0 := base.lattice.bottom];
    }

    /** merge_all_partitions (lines 281-293): everything joined into the first partition. */
    method MergeAllPartitions()
      modifies this
      ensures partitions == MergeAll(base, old(partitions)) && partitionKey == old(partitionKey)
    {
      if |partitions| == 0 {
        SetToBottom();
      } else if |partitions| == 1 {
      } else {
        var p := partitions;
        for i := 1 to |p|
          invariant |p| == |partitions| && p[1..] == partitions[1..]
          invariant p[0] == JoinAll(base.lattice, partitions[0], partitions[1..i])
        {
          assert partitions[1..i + 1][..i - 1] == partitions[1..i];
          assert p[i] == p[1..][i - 1] == partitions[i];
          p := p[0 := base.lattice.join(p[0], p[i])];
        }
        assert partitions[1..|p|] == partitions[1..];
        partitions := p[..1];
      }
    }

    /**
     * operator()(stmt) (hpp lines 86-105): the statement goes to every
     * partition in order; if one became bottom, the list is rebuilt from
     * the partitions that did not.
     */
    method Apply(stmt: Instruction)
      modifies this
      ensures partitions == Transfer(base, old(partitions), stmt) && partitionKey == old(partitionKey)
    {
      var p := partitions;
      var becameBottom := false;
      for i := 0 to |p|
        invariant |p| == |partitions|
        invariant forall k :: 0 <= k < i ==> p[k] == base.apply(partitions[k], stmt)
        invariant forall k :: i <= k < |p| ==> p[k] == partitions[k]
        invariant becameBottom <==> exists k :: 0 <= k < i && base.lattice.isBottom(p[k])
      {
        p := p[i := base.apply(p[i], stmt)];
        if base.lattice.isBottom(p[i]) {
          becameBottom := true;
        }
      }
      assert p == ApplyAll(base, partitions, stmt);
      if becameBottom {
        p := AppendNonBottom(base, [], p);
      }
      partitions := p;
    }

    /** set_key (hpp line 75): only the partition key changes. */
    method SetKey(key: string)
      modifies this
      ensures partitionKey == Some(key) && partitions == old(partitions)
    {
      partitionKey := Some(key);
    }

    /**
     * `*this |= other` (lines 177-183): the whole object is replaced by the
     * join, whose partition key is unset.
     */
    method JoinWith(other: ValuePartitionDomain<D>)
      requires other.base == base
      modifies this
      ensures partitions == Join(base, old(partitions), old(other.partitions)) && partitionKey == None
    {
      var r := JoinPartitions(base, partitions, other.partitions);
      partitions, partitionKey := r, None;
    }

    /**
     * merge_or_apply_to_all_partitions (lines 309-324): the callback's
     * results on each pair of Operands, in order. The mismatched case
     * merges copies of both operands.
     */
    method MergeOrApply<R>(other: ValuePartitionDomain<D>, f: (D, D) -> R) returns (rs: seq<R>)
      requires other.base == base
      ensures var ops := Operands(base, partitions, other.partitions);
        |rs| == |ops| && forall i :: 0 <= i < |ops| ==> rs[i] == f(ops[i].0, ops[i].1)
    {
      if !SamePartitions(base, partitions, other.partitions) {
        var lhs := new ValuePartitionDomain(base, partitions);
        var rhs := new ValuePartitionDomain(base, other.partitions);
        lhs.MergeAllPartitions();
        rhs.MergeAllPartitions();
        rs := [f(lhs.partitions[0], rhs.partitions[0])];
      } else {
        rs := [];
        for i := 0 to |partitions|
          invariant |rs| == i
          invariant forall k :: 0 <= k < i ==> rs[k] == f(partitions[k], other.partitions[k])
        {
          rs := rs + [f(partitions[i], other.partitions[i])];
        }
      }
    }

    /** operator<= (lines 65-72): every callback result is true. */
    method IsLeq(other: ValuePartitionDomain<D>) returns (r: bool)
      requires other.base == base
      ensures r == Leq(base, partitions, other.partitions)
    {
      var rs := MergeOrApply(other, base.lattice.leq);
      r := true;
      for i := 0 to |rs|
        invariant r == forall k :: 0 <= k < i ==> rs[k]
      {
        r := r && rs[i];
      }
    }

    /** operator== (lines 73-79). */
    method IsEqual(other: ValuePartitionDomain<D>) returns (r: bool)
      requires other.base == base
      ensures r == Equal(base, partitions, other.partitions)
    {
      var rs := MergeOrApply(other, base.lattice.eq);
      r := true;
      for i := 0 to |rs|
        invariant r == forall k :: 0 <= k < i ==> rs[k]
      {
        r := r && rs[i];
      }
    }

    /** operator& (lines 198-206): the partitions of the meet. */
    method MeetWith(other: ValuePartitionDomain<D>) returns (r: seq<D>)
      requires other.base == base
      ensures r == Meet(base, partitions, other.partitions)
    {
      r := MergeOrApply(other, base.lattice.meet);
    }

    /** widen (lines 207-216). */
    method WidenWith(other: ValuePartitionDomain<D>, toConstants: bool) returns (r: seq<D>)
      requires other.base == base
      ensures r == Widen(base, partitions, other.partitions, toConstants)
    {
      r := MergeOrApply(other, (p, q) => base.lattice.widen(p, q, toConstants));
    }

    /** narrow (lines 217-224). */
    method NarrowWith(other: ValuePartitionDomain<D>) returns (r: seq<D>)
      requires other.base == base
      ensures r == Narrow(base, partitions, other.partitions)
    {
      r := MergeOrApply(other, base.lattice.narrow);
    }

    /**
     * get_loop_count_upper_bound (lines 232-239): merges in place, then the
     * largest loop-count bound of the (one) partition, at least 0.
     */
    method LoopCountUpperBound() returns (ub: Bound)
      modifies this
      ensures partitions == MergeAll(base, old(partitions)) && partitionKey == old(partitionKey)
      ensures ub == BoundMax(Finite(0), base.loopCountUpperBound(partitions[0]))
    {
      MergeAllPartitions();
      ub := Finite(0);
      for i := 0 to |partitions|
        invariant i == 0 ==> ub == Finite(0)
        invariant i == 1 ==> ub == BoundMax(Finite(0), base.loopCountUpperBound(partitions[0]))
      {
        ub := BoundMax(ub, base.loopCountUpperBound(partitions[i]));
      }
    }
  }
}
