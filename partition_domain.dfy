/**
 * ebpf_value_partition_domain_t: a list of base-domain elements
 * ("partitions"), each told apart by the interval its `packet_size`
 * variable holds. This module holds the functions that specify the
 * combinator; partition_methods.dfy holds the code that computes them.
 */
module PartitionDomain {
  import opened Instructions
  import opened Intervals
  import opened Lattices

  /**
   * What the combinator uses of ebpf_domain_t: the lattice operations, the
   * `packet_size` interval of an element, the transfer of one statement,
   * and the bound on the loop counters.
   */
  datatype BaseDomain<!D> = BaseDomain(
    lattice: Lattice<D>,
    packetSize: D -> Interval,
    apply: (D, Instruction) -> D,
    loopCountUpperBound: D -> Bound)

  /** is_bottom (lines 57-60): every partition is bottom; so is an empty list. */
  function AllBottom<D>(b: BaseDomain<D>, s: seq<D>): (r: bool)
    ensures r <==> forall i :: 0 <= i < |s| ==> b.lattice.isBottom(s[i])
  {
    s == [] || (b.lattice.isBottom(s[0]) && AllBottom(b, s[1..]))
  }

  /** is_top (lines 61-64): every partition is top. */
  function AllTop<D>(b: BaseDomain<D>, s: seq<D>): (r: bool)
    ensures r <==> forall i :: 0 <= i < |s| ==> b.lattice.isTop(s[i])
  {
    s == [] || (b.lattice.isTop(s[0]) && AllTop(b, s[1..]))
  }

  /** A partition whose packet size is known to lie in a proper range (lines 88-89). */
  predicate HasPacketSize<D>(b: BaseDomain<D>, d: D)
  {
    !b.lattice.isBottom(d) && b.packetSize(d) != EmptyInterval && !IsTopInterval(b.packetSize(d))
  }

  predicate AnyPacketSize<D>(b: BaseDomain<D>, s: seq<D>)
  {
    exists i :: 0 <= i < |s| && HasPacketSize(b, s[i])
  }

  /** The partitions of `s` that are not bottom, in order. */
  function NonBottom<D>(b: BaseDomain<D>, s: seq<D>): seq<D>
  {
    if s == [] then []
    else NonBottom(b, s[..|s| - 1]) + (if b.lattice.isBottom(s[|s| - 1]) then [] else [s[|s| - 1]])
  }

  /** `acc |= s[0]; acc |= s[1]; ...`: the base join of `acc` with every element of `s`, left to right. */
  function JoinAll<D>(l: Lattice<D>, acc: D, s: seq<D>): D
  {
    if s == [] then acc else l.join(JoinAll(l, acc, s[..|s| - 1]), s[|s| - 1])
  }

  /** Neighbours are in the comparator's order. */
  predicate SortedByKey<D>(b: BaseDomain<D>, s: seq<D>)
  {
    forall i :: 0 <= i < |s| - 1 ==> KeyLe(b.packetSize(s[i]), b.packetSize(s[i + 1]))
  }

  /** `x` placed before the first element whose key it precedes. */
  function InsertByKey<D>(b: BaseDomain<D>, x: D, s: seq<D>): seq<D>
  {
    if s == [] then [x]
    else if KeyLess(b.packetSize(x), b.packetSize(s[0])) then [x] + s
    else [s[0]] + InsertByKey(b, x, s[1..])
  }

  /** The order `std::sort` leaves the partitions in (lines 136-155). */
  function SortByKey<D>(b: BaseDomain<D>, s: seq<D>): seq<D>
  {
    if s == [] then [] else InsertByKey(b, s[|s| - 1], SortByKey(b, s[..|s| - 1]))
  }

  /**
   * The merge pass of lines 157-168 from the partition `acc` at index `i`
   * with the partitions `rest` after it: `acc` absorbs its neighbour while
   * their keys are equal; the first neighbour with another key starts the
   * next run.
   */
  function MergeFrom<D>(b: BaseDomain<D>, acc: D, rest: seq<D>): seq<D>
    decreases |rest|
  {
    if rest == [] then [acc]
    else if b.packetSize(acc) == b.packetSize(rest[0]) then MergeFrom(b, b.lattice.join(acc, rest[0]), rest[1..])
    else [acc] + MergeFrom(b, rest[0], rest[1..])
  }

  function MergeRuns<D>(b: BaseDomain<D>, s: seq<D>): seq<D>
  {
    if s == [] then [] else MergeFrom(b, s[0], s[1..])
  }

  /** join (lines 81-175). */
  function Join<D>(b: BaseDomain<D>, lhs: seq<D>, rhs: seq<D>): seq<D>
  {
    if !AnyPacketSize(b, lhs) && !AnyPacketSize(b, rhs) then [JoinAll(b.lattice, b.lattice.bottom, lhs + rhs)]
    else MergeRuns(b, SortByKey(b, NonBottom(b, lhs) + NonBottom(b, rhs)))
  }

  /** merge_all_partitions (lines 281-293). */
  function MergeAll<D>(b: BaseDomain<D>, s: seq<D>): (r: seq<D>)
    ensures |r| == 1
  {
    if |s| == 0 then [b.lattice.bottom]
    else if |s| == 1 then s
    else [JoinAll(b.lattice, s[0], s[1..])]
  }

  /** has_same_partitions (lines 295-307). */
  function SamePartitions<D>(b: BaseDomain<D>, x: seq<D>, y: seq<D>): (r: bool)
    ensures r <==> |x| == |y| && forall i :: 0 <= i < |x| ==> b.packetSize(x[i]) == b.packetSize(y[i])
  {
    if |x| != |y| then false
    else x == [] || (b.packetSize(x[0]) == b.packetSize(y[0]) && SamePartitions(b, x[1..], y[1..]))
  }

  /**
   * The pairs merge_or_apply_to_all_partitions (lines 309-324) hands its
   * callback, in order: slot by slot when the partitions match, else the
   * two merged partitions once.
   */
  function Operands<D>(b: BaseDomain<D>, x: seq<D>, y: seq<D>): seq<(D, D)>
  {
    if !SamePartitions(b, x, y) then [(MergeAll(b, x)[0], MergeAll(b, y)[0])]
    else seq(|x|, i requires 0 <= i < |x| => (x[i], y[i]))
  }

  /** The statement applied to every partition, in order (hpp lines 89-94). */
  function ApplyAll<D>(b: BaseDomain<D>, s: seq<D>, stmt: Instruction): seq<D>
  {
    seq(|s|, i requires 0 <= i < |s| => b.apply(s[i], stmt))
  }

  /** operator()(stmt) (hpp lines 86-105): broadcast, then drop the partitions that became bottom. */
  function Transfer<D>(b: BaseDomain<D>, s: seq<D>, stmt: Instruction): seq<D>
  {
    var u := ApplyAll(b, s, stmt);
    if exists i :: 0 <= i < |u| && b.lattice.isBottom(u[i]) then NonBottom(b, u) else u
  }

  /** The pairwise base operations that `<=`, `==`, `&`, `widen` and `narrow` apply (lines 65-79, 198-224). */
  predicate Leq<D>(b: BaseDomain<D>, x: seq<D>, y: seq<D>)
  {
    var ops := Operands(b, x, y);
    forall i :: 0 <= i < |ops| ==> b.lattice.leq(ops[i].0, ops[i].1)
  }

  predicate Equal<D>(b: BaseDomain<D>, x: seq<D>, y: seq<D>)
  {
    var ops := Operands(b, x, y);
    forall i :: 0 <= i < |ops| ==> b.lattice.eq(ops[i].0, ops[i].1)
  }

  function Pointwise<D>(b: BaseDomain<D>, x: seq<D>, y: seq<D>, f: (D, D) -> D): seq<D>
  {
    var ops := Operands(b, x, y);
    seq(|ops|, i requires 0 <= i < |ops| => f(ops[i].0, ops[i].1))
  }

  function Meet<D>(b: BaseDomain<D>, x: seq<D>, y: seq<D>): seq<D>
  {
    Pointwise(b, x, y, b.lattice.meet)
  }

  function Widen<D>(b: BaseDomain<D>, x: seq<D>, y: seq<D>, toConstants: bool): seq<D>
  {
    Pointwise(b, x, y, (p, q) => b.lattice.widen(p, q, toConstants))
  }

  function Narrow<D>(b: BaseDomain<D>, x: seq<D>, y: seq<D>): seq<D>
  {
    Pointwise(b, x, y, b.lattice.narrow)
  }

  // ---------------------------------------------------------------------
  // Properties

  /** The base join of two partitions with the same packet size keeps that packet size. */
  ghost predicate JoinKeepsKey<D(!new)>(b: BaseDomain<D>)
  {
    forall x, y :: b.packetSize(x) == b.packetSize(y) ==> b.packetSize(b.lattice.join(x, y)) == b.packetSize(x)
  }

  /** Neighbours strictly increase in the comparator's order, so no two share a key. */
  predicate StrictlySortedByKey<D>(b: BaseDomain<D>, s: seq<D>)
  {
    forall i :: 0 <= i < |s| - 1 ==> KeyLess(b.packetSize(s[i]), b.packetSize(s[i + 1]))
  }

  predicate NoAdjacentEqualKeys<D>(b: BaseDomain<D>, s: seq<D>)
  {
    forall i :: 0 <= i < |s| - 1 ==> b.packetSize(s[i]) != b.packetSize(s[i + 1])
  }

  ghost function KeySet<D>(b: BaseDomain<D>, s: seq<D>): set<Interval>
  {
    set i | 0 <= i < |s| :: b.packetSize(s[i])
  }

  /** The positions of `s` that NonBottom keeps. */
  function KeptIndices<D>(b: BaseDomain<D>, s: seq<D>): seq<nat>
  {
    if s == [] then []
    else KeptIndices(b, s[..|s| - 1]) + (if b.lattice.isBottom(s[|s| - 1]) then [] else [|s| - 1])
  }

  /**
   * NonBottom keeps exactly the partitions that are not bottom, in their
   * order: its `k`-th element is the one at the `k`-th kept position, the
   * kept positions increase, and every non-bottom position is kept.
   */
  lemma {:induction false} NonBottomKeepsOrder<D>(b: BaseDomain<D>, s: seq<D>)
    ensures var r, idx := NonBottom(b, s), KeptIndices(b, s);
      && |idx| == |r|
      && (forall k :: 0 <= k < |idx| ==> idx[k] < |s| && r[k] == s[idx[k]])
      && (forall k, m :: 0 <= k < m < |idx| ==> idx[k] < idx[m])
      && (forall i :: 0 <= i < |s| ==> (i in idx <==> !b.lattice.isBottom(s[i])))
  {
    if s != [] {
      var n := |s| - 1;
      NonBottomKeepsOrder(b, s[..n]);
      var r0, idx0 := NonBottom(b, s[..n]), KeptIndices(b, s[..n]);
      assert forall k :: 0 <= k < |idx0| ==> idx0[k] < n && r0[k] == s[idx0[k]];
    }
  }

  lemma {:induction false} NonBottomHasNoBottom<D>(b: BaseDomain<D>, s: seq<D>)
    ensures forall k :: 0 <= k < |NonBottom(b, s)| ==> !b.lattice.isBottom(NonBottom(b, s)[k])
  {
    if s != [] {
      NonBottomHasNoBottom(b, s[..|s| - 1]);
    }
  }

  /** A list without bottom partitions passes through unchanged. */
  lemma {:induction false} NonBottomIdentity<D>(b: BaseDomain<D>, s: seq<D>)
    requires forall i :: 0 <= i < |s| ==> !b.lattice.isBottom(s[i])
    ensures NonBottom(b, s) == s
  {
    if s != [] {
      NonBottomIdentity(b, s[..|s| - 1]);
      assert s[..|s| - 1] + [s[|s| - 1]] == s;
    }
  }

  /** The transfer is the broadcast with the bottom partitions dropped, whether or not any became bottom. */
  lemma TransferDropsBottoms<D>(b: BaseDomain<D>, s: seq<D>, stmt: Instruction)
    ensures Transfer(b, s, stmt) == NonBottom(b, ApplyAll(b, s, stmt))
  {
    var u := ApplyAll(b, s, stmt);
    if !exists i :: 0 <= i < |u| && b.lattice.isBottom(u[i]) {
      NonBottomIdentity(b, u);
    }
  }

  /** After the transfer no partition is bottom; the list is empty, hence bottom, exactly when every partition became bottom. */
  lemma TransferResult<D>(b: BaseDomain<D>, s: seq<D>, stmt: Instruction)
    ensures forall k :: 0 <= k < |Transfer(b, s, stmt)| ==> !b.lattice.isBottom(Transfer(b, s, stmt)[k])
    ensures Transfer(b, s, stmt) == [] <==> forall i :: 0 <= i < |s| ==> b.lattice.isBottom(b.apply(s[i], stmt))
    ensures AllBottom(b, Transfer(b, s, stmt)) <==> Transfer(b, s, stmt) == []
    ensures (forall i :: 0 <= i < |s| ==> !b.lattice.isBottom(b.apply(s[i], stmt))) ==> Transfer(b, s, stmt) == ApplyAll(b, s, stmt)
  {
    var u := ApplyAll(b, s, stmt);
    TransferDropsBottoms(b, s, stmt);
    NonBottomHasNoBottom(b, u);
    NonBottomKeepsOrder(b, u);
    var r := Transfer(b, s, stmt);
    if r == [] {
      forall i | 0 <= i < |s|
        ensures b.lattice.isBottom(b.apply(s[i], stmt))
      {
        assert u[i] == b.apply(s[i], stmt);
        assert i !in KeptIndices(b, u);
      }
    }
    if r != [] {
      assert !b.lattice.isBottom(r[0]);
      var i := KeptIndices(b, u)[0];
      assert !b.lattice.isBottom(b.apply(s[i], stmt)) by {
        assert r[0] == u[i];
      }
    }
  }

  lemma {:induction false} JoinAllAppend<D>(l: Lattice<D>, acc: D, x: seq<D>, y: seq<D>)
    ensures JoinAll(l, acc, x + y) == JoinAll(l, JoinAll(l, acc, x), y)
    decreases |y|
  {
    if y == [] {
      assert x + y == x;
    } else {
      var n := |y| - 1;
      assert (x + y)[..|x + y| - 1] == x + y[..n];
      JoinAllAppend(l, acc, x, y[..n]);
    }
  }

  lemma {:induction false} InsertByKeyPermutes<D>(b: BaseDomain<D>, x: D, s: seq<D>)
    ensures multiset(InsertByKey(b, x, s)) == multiset(s) + multiset{x}
  {
    if s != [] && !KeyLess(b.packetSize(x), b.packetSize(s[0])) {
      InsertByKeyPermutes(b, x, s[1..]);
      assert s == [s[0]] + s[1..];
    }
  }

  lemma {:induction false} InsertByKeySorted<D>(b: BaseDomain<D>, x: D, s: seq<D>)
    requires SortedByKey(b, s)
    ensures SortedByKey(b, InsertByKey(b, x, s))
    ensures InsertByKey(b, x, s)[0] == x || (s != [] && InsertByKey(b, x, s)[0] == s[0])
  {
    if s != [] {
      var kx, k0 := b.packetSize(x), b.packetSize(s[0]);
      KeyLessTotal(kx, k0);
      if KeyLess(kx, k0) {
        assert KeyLe(kx, k0);
      } else {
        assert SortedByKey(b, s[1..]) by {
          forall i | 0 <= i < |s[1..]| - 1
            ensures KeyLe(b.packetSize(s[1..][i]), b.packetSize(s[1..][i + 1]))
          {
            assert s[1..][i] == s[i + 1] && s[1..][i + 1] == s[i + 2];
          }
        }
        InsertByKeySorted(b, x, s[1..]);
        var t := InsertByKey(b, x, s[1..]);
        assert KeyLe(k0, b.packetSize(t[0])) by {
          if t[0] != x {
            assert t[0] == s[1];
          }
        }
        var r := [s[0]] + t;
        forall i | 0 <= i < |r| - 1
          ensures KeyLe(b.packetSize(r[i]), b.packetSize(r[i + 1]))
        {
          if i > 0 {
            assert r[i] == t[i - 1] && r[i + 1] == t[i];
          }
        }
      }
    }
  }

  /** The sort is a permutation, into the comparator's order. */
  lemma {:induction false} SortByKeySorts<D>(b: BaseDomain<D>, s: seq<D>)
    ensures multiset(SortByKey(b, s)) == multiset(s)
    ensures SortedByKey(b, SortByKey(b, s))
  {
    if s != [] {
      var n := |s| - 1;
      SortByKeySorts(b, s[..n]);
      InsertByKeyPermutes(b, s[n], SortByKey(b, s[..n]));
      InsertByKeySorted(b, s[n], SortByKey(b, s[..n]));
      assert s == s[..n] + [s[n]];
    }
  }

  /** With the key kept by the base join, each run keeps the key of its first partition. */
  lemma {:induction false} MergeFromHead<D(!new)>(b: BaseDomain<D>, acc: D, rest: seq<D>)
    requires JoinKeepsKey(b)
    ensures |MergeFrom(b, acc, rest)| >= 1
    ensures b.packetSize(MergeFrom(b, acc, rest)[0]) == b.packetSize(acc)
    decreases |rest|
  {
    if rest != [] {
      if b.packetSize(acc) == b.packetSize(rest[0]) {
        MergeFromHead(b, b.lattice.join(acc, rest[0]), rest[1..]);
      }
    }
  }

  /** Merging a sorted list leaves it strictly sorted: no two neighbours share a key (lines 157-168). */
  lemma {:induction false} MergeFromStrictlySorted<D(!new)>(b: BaseDomain<D>, acc: D, rest: seq<D>)
    requires JoinKeepsKey(b)
    requires SortedByKey(b, [acc] + rest)
    ensures StrictlySortedByKey(b, MergeFrom(b, acc, rest))
    decreases |rest|
  {
    if rest != [] {
      assert KeyLe(b.packetSize(acc), b.packetSize(rest[0])) by {
        assert ([acc] + rest)[0] == acc && ([acc] + rest)[1] == rest[0];
      }
      assert SortedByKey(b, rest) by {
        forall i | 0 <= i < |rest| - 1
          ensures KeyLe(b.packetSize(rest[i]), b.packetSize(rest[i + 1]))
        {
          assert ([acc] + rest)[i + 1] == rest[i] && ([acc] + rest)[i + 2] == rest[i + 1];
        }
      }
      assert [rest[0]] + rest[1..] == rest;
      if b.packetSize(acc) == b.packetSize(rest[0]) {
        var acc' := b.lattice.join(acc, rest[0]);
        assert [acc'] + rest[1..] == [acc'] + rest[1..];
        assert SortedByKey(b, [acc'] + rest[1..]) by {
          forall i | 0 <= i < |rest[1..]|
            ensures KeyLe(b.packetSize(([acc'] + rest[1..])[i]), b.packetSize(([acc'] + rest[1..])[i + 1]))
          {
            assert ([acc'] + rest[1..])[i + 1] == rest[i + 1];
            if i > 0 {
              assert ([acc'] + rest[1..])[i] == rest[i];
            }
          }
        }
        MergeFromStrictlySorted(b, acc', rest[1..]);
      } else {
        KeyLessTotal(b.packetSize(acc), b.packetSize(rest[0]));
        MergeFromStrictlySorted(b, rest[0], rest[1..]);
        MergeFromHead(b, rest[0], rest[1..]);
        var m := MergeFrom(b, rest[0], rest[1..]);
        var r := [acc] + m;
        forall i | 0 <= i < |r| - 1
          ensures KeyLess(b.packetSize(r[i]), b.packetSize(r[i + 1]))
        {
          if i > 0 {
            assert r[i] == m[i - 1] && r[i + 1] == m[i];
          }
        }
      }
    }
  }

  /** With the key kept, merging loses no key and invents none. */
  lemma {:induction false} MergeFromKeys<D(!new)>(b: BaseDomain<D>, acc: D, rest: seq<D>)
    requires JoinKeepsKey(b)
    ensures KeySet(b, MergeFrom(b, acc, rest)) == KeySet(b, [acc] + rest)
    decreases |rest|
  {
    var s := [acc] + rest;
    if rest == [] {
      assert s == [acc];
    } else {
      var t := if b.packetSize(acc) == b.packetSize(rest[0]) then b.lattice.join(acc, rest[0]) else rest[0];
      MergeFromKeys(b, t, rest[1..]);
      var tail := [t] + rest[1..];
      assert KeySet(b, s) == {b.packetSize(acc)} + KeySet(b, rest) by {
        KeySetCons(b, acc, rest);
      }
      assert KeySet(b, rest) == {b.packetSize(rest[0])} + KeySet(b, rest[1..]) by {
        KeySetCons(b, rest[0], rest[1..]);
        assert [rest[0]] + rest[1..] == rest;
      }
      KeySetCons(b, t, rest[1..]);
      if b.packetSize(acc) != b.packetSize(rest[0]) {
        KeySetCons(b, acc, MergeFrom(b, rest[0], rest[1..]));
      }
    }
  }

  lemma KeySetCons<D>(b: BaseDomain<D>, x: D, s: seq<D>)
    ensures KeySet(b, [x] + s) == {b.packetSize(x)} + KeySet(b, s)
  {
    var t := [x] + s;
    forall k | k in KeySet(b, t)
      ensures k in {b.packetSize(x)} + KeySet(b, s)
    {
      var i :| 0 <= i < |t| && b.packetSize(t[i]) == k;
      if i > 0 {
        assert t[i] == s[i - 1];
      }
    }
    forall k | k in KeySet(b, s)
      ensures k in KeySet(b, t)
    {
      var i :| 0 <= i < |s| && b.packetSize(s[i]) == k;
      assert t[i + 1] == s[i];
    }
    assert t[0] == x;
  }

  /** Where no neighbours share a key, the merge pass changes nothing. */
  lemma {:induction false} MergeFromNoMerge<D>(b: BaseDomain<D>, acc: D, rest: seq<D>)
    requires NoAdjacentEqualKeys(b, [acc] + rest)
    ensures MergeFrom(b, acc, rest) == [acc] + rest
    decreases |rest|
  {
    if rest != [] {
      assert ([acc] + rest)[0] == acc && ([acc] + rest)[1] == rest[0];
      assert b.packetSize(acc) != b.packetSize(rest[0]);
      assert NoAdjacentEqualKeys(b, rest) by {
        forall i | 0 <= i < |rest| - 1
          ensures b.packetSize(rest[i]) != b.packetSize(rest[i + 1])
        {
          assert ([acc] + rest)[i + 1] == rest[i] && ([acc] + rest)[i + 2] == rest[i + 1];
        }
      }
      assert [rest[0]] + rest[1..] == rest;
      MergeFromNoMerge(b, rest[0], rest[1..]);
    }
  }

  lemma {:induction false} MergeFromShorter<D>(b: BaseDomain<D>, acc: D, rest: seq<D>)
    ensures |MergeFrom(b, acc, rest)| <= 1 + |rest|
    decreases |rest|
  {
    if rest != [] {
      var t := if b.packetSize(acc) == b.packetSize(rest[0]) then b.lattice.join(acc, rest[0]) else rest[0];
      MergeFromShorter(b, t, rest[1..]);
    }
  }

  /**
   * join, when some partition has a proper packet size: the result has
   * strictly increasing keys, so no two neighbours share one; its keys are
   * exactly those of the non-bottom inputs; it is no longer than they are;
   * and when no two of them, once sorted, are neighbours with equal keys,
   * it is those partitions sorted (lines 122-168).
   */
  lemma JoinPartitioned<D(!new)>(b: BaseDomain<D>, lhs: seq<D>, rhs: seq<D>)
    requires AnyPacketSize(b, lhs) || AnyPacketSize(b, rhs)
    ensures var parts := NonBottom(b, lhs) + NonBottom(b, rhs);
      && |Join(b, lhs, rhs)| <= |parts|
      && (JoinKeepsKey(b) ==> StrictlySortedByKey(b, Join(b, lhs, rhs)) && KeySet(b, Join(b, lhs, rhs)) == KeySet(b, parts))
      && (NoAdjacentEqualKeys(b, SortByKey(b, parts)) ==> Join(b, lhs, rhs) == SortByKey(b, parts))
      && (forall k :: 0 <= k < |parts| ==> !b.lattice.isBottom(parts[k]))
  {
    var parts := NonBottom(b, lhs) + NonBottom(b, rhs);
    var sorted := SortByKey(b, parts);
    SortByKeySorts(b, parts);
    assert |sorted| == |parts| by {
      assert |multiset(sorted)| == |multiset(parts)|;
    }
    NonBottomHasNoBottom(b, lhs);
    NonBottomHasNoBottom(b, rhs);
    if sorted != [] {
      assert [sorted[0]] + sorted[1..] == sorted;
      MergeFromShorter(b, sorted[0], sorted[1..]);
      if JoinKeepsKey(b) {
        MergeFromStrictlySorted(b, sorted[0], sorted[1..]);
        MergeFromKeys(b, sorted[0], sorted[1..]);
        PermutationKeySet(b, sorted, parts);
      }
      if NoAdjacentEqualKeys(b, sorted) {
        MergeFromNoMerge(b, sorted[0], sorted[1..]);
      }
    } else {
      assert parts == [] by {
        assert |multiset(parts)| == 0;
      }
    }
  }

  lemma PermutationKeySet<D>(b: BaseDomain<D>, s: seq<D>, t: seq<D>)
    requires multiset(s) == multiset(t)
    ensures KeySet(b, s) == KeySet(b, t)
  {
    forall k | k in KeySet(b, s)
      ensures k in KeySet(b, t)
    {
      var i :| 0 <= i < |s| && b.packetSize(s[i]) == k;
      assert s[i] in multiset(t);
      var j :| 0 <= j < |t| && t[j] == s[i];
    }
    forall k | k in KeySet(b, t)
      ensures k in KeySet(b, s)
    {
      var i :| 0 <= i < |t| && b.packetSize(t[i]) == k;
      assert t[i] in multiset(s);
      var j :| 0 <= j < |s| && s[j] == t[i];
    }
  }

  /**
   * join, when no partition has a proper packet size: a single partition,
   * the base join from bottom of every left-hand then every right-hand
   * partition (lines 105-120).
   */
  lemma JoinUnpartitioned<D>(b: BaseDomain<D>, lhs: seq<D>, rhs: seq<D>)
    requires !AnyPacketSize(b, lhs) && !AnyPacketSize(b, rhs)
    ensures Join(b, lhs, rhs) == [JoinAll(b.lattice, JoinAll(b.lattice, b.lattice.bottom, lhs), rhs)]
  {
    JoinAllAppend(b.lattice, b.lattice.bottom, lhs, rhs);
  }

  /**
   * merge_all_partitions leaves exactly one partition: bottom for an empty
   * list, the partition itself for a singleton, else the first partition
   * joined with each later one. Merging again changes nothing.
   */
  lemma MergeAllResult<D>(b: BaseDomain<D>, s: seq<D>)
    ensures |MergeAll(b, s)| == 1
    ensures s == [] ==> MergeAll(b, s) == [b.lattice.bottom]
    ensures |s| == 1 ==> MergeAll(b, s) == s
    ensures |s| > 1 ==> MergeAll(b, s)[0] == JoinAll(b.lattice, s[0], s[1..])
    ensures MergeAll(b, MergeAll(b, s)) == MergeAll(b, s)
  {
  }

  /** has_same_partitions is reflexive and symmetric. */
  lemma SamePartitionsEquivalence<D>(b: BaseDomain<D>, x: seq<D>, y: seq<D>)
    ensures SamePartitions(b, x, x)
    ensures SamePartitions(b, x, y) == SamePartitions(b, y, x)
  {
  }

  /**
   * `&`, `widen` and `narrow` return as many partitions as the operands
   * when their partitions match, else one (lines 198-224, 309-324).
   */
  lemma PointwiseLength<D>(b: BaseDomain<D>, x: seq<D>, y: seq<D>, f: (D, D) -> D)
    ensures SamePartitions(b, x, y) ==> |Pointwise(b, x, y, f)| == |x| == |y|
    ensures !SamePartitions(b, x, y) ==> |Pointwise(b, x, y, f)| == 1
    ensures SamePartitions(b, x, y) ==> forall i :: 0 <= i < |x| ==> Pointwise(b, x, y, f)[i] == f(x[i], y[i])
    ensures !SamePartitions(b, x, y) ==> Pointwise(b, x, y, f)[0] == f(MergeAll(b, x)[0], MergeAll(b, y)[0])
  {
  }

  /** A reflexive base order makes `<=` on partition lists reflexive; likewise `==`. */
  lemma LeqReflexive<D(!new)>(b: BaseDomain<D>, x: seq<D>)
    requires forall d :: b.lattice.leq(d, d)
    ensures Leq(b, x, x)
  {
    SamePartitionsEquivalence(b, x, x);
  }

  lemma EqualReflexive<D(!new)>(b: BaseDomain<D>, x: seq<D>)
    requires forall d :: b.lattice.eq(d, d)
    ensures Equal(b, x, x)
  {
    SamePartitionsEquivalence(b, x, x);
  }
}
