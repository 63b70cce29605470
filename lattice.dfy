/**
 * The abstract domain the analyzer is generic over: the operations that
 * ebpf_domain_t offers the fixpoint iterator and the partition combinator.
 * The domain's own values and algorithms are not part of this model; a
 * lattice is a record of its operations.
 */
module Lattices {

  datatype Lattice<!D> = Lattice(
    bottom: D,
    top: D,
    join: (D, D) -> D,
    meet: (D, D) -> D,
    leq: (D, D) -> bool,
    eq: (D, D) -> bool,
    widen: (D, D, bool) -> D,
    narrow: (D, D) -> D,
    isBottom: D -> bool,
    isTop: D -> bool)

  /** The constants are what the tests say they are. */
  ghost predicate ConstantsRecognised<D>(l: Lattice<D>)
  {
    l.isBottom(l.bottom) && l.isTop(l.top)
  }

  /** The order is reflexive. */
  ghost predicate LeqReflexive<D(!new)>(l: Lattice<D>)
  {
    forall a :: l.leq(a, a)
  }

  /** The order is transitive. */
  ghost predicate LeqTransitive<D(!new)>(l: Lattice<D>)
  {
    forall a, b, c :: l.leq(a, b) && l.leq(b, c) ==> l.leq(a, c)
  }

  /** Join is an upper bound of its operands. */
  ghost predicate JoinIsUpperBound<D(!new)>(l: Lattice<D>)
  {
    forall a, b :: l.leq(a, l.join(a, b)) && l.leq(b, l.join(a, b))
  }

  /** Widening is an upper bound of its operands, whatever the flag. */
  ghost predicate WidenIsUpperBound<D(!new)>(l: Lattice<D>)
  {
    forall a, b, f :: l.leq(a, l.widen(a, b, f)) && l.leq(b, l.widen(a, b, f))
  }

  /** Meet is below its first operand. */
  ghost predicate MeetIsBelow<D(!new)>(l: Lattice<D>)
  {
    forall a, b :: l.leq(l.meet(a, b), a)
  }

  /** Narrowing is below its first operand. */
  ghost predicate NarrowIsBelow<D(!new)>(l: Lattice<D>)
  {
    forall a, b :: l.leq(l.narrow(a, b), a)
  }

  /** Joining `b` then `c` onto `a` gives what joining `c` then `b` does. */
  ghost predicate JoinRightCommutes<D(!new)>(l: Lattice<D>)
  {
    forall a, b, c :: l.join(l.join(a, b), c) == l.join(l.join(a, c), b)
  }
}
