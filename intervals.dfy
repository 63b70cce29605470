/**
 * The `packet_size` interval that keys a partition, and the order in which
 * `join` sorts partitions by it.
 */
module Intervals {

  /** An interval end: a number or an infinity. */
  datatype Bound = MinusInfinity | Finite(n: int) | PlusInfinity

  predicate BoundLt(a: Bound, b: Bound)
  {
    match (a, b)
    case (MinusInfinity, MinusInfinity) => false
    case (MinusInfinity, _) => true
    case (Finite(x), Finite(y)) => x < y
    case (Finite(_), PlusInfinity) => true
    case (_, _) => false
  }

  /** std::max on bounds. */
  function BoundMax(a: Bound, b: Bound): (r: Bound)
    ensures r == a || r == b
    ensures !BoundLt(r, a) && !BoundLt(r, b)
  {
    if BoundLt(a, b) then b else a
  }

  lemma BoundLtTotal(a: Bound, b: Bound)
    ensures a == b || BoundLt(a, b) || BoundLt(b, a)
    ensures !(BoundLt(a, b) && BoundLt(b, a))
  {
  }

  lemma BoundLtTransitive(a: Bound, b: Bound, c: Bound)
    requires BoundLt(a, b) && BoundLt(b, c)
    ensures BoundLt(a, c)
  {
  }

  /** An interval: the empty (bottom) interval or the range from `lb` to `ub`. */
  datatype Interval = EmptyInterval | Range(lb: Bound, ub: Bound)

  predicate IsTopInterval(i: Interval)
  {
    i == Range(MinusInfinity, PlusInfinity)
  }

  /**
   * The comparator of `join` (ebpf_value_partition_domain.cpp lines 137-155):
   * the empty interval sorts last, ranges by lower then upper bound.
   */
  predicate KeyLess(a: Interval, b: Interval)
  {
    if a.EmptyInterval? then false
    else if b.EmptyInterval? then true
    else if BoundLt(a.lb, b.lb) then true
    else if BoundLt(b.lb, a.lb) then false
    else BoundLt(a.ub, b.ub)
  }

  /** The comparator is a strict order, and two intervals neither of which precedes the other are equal. */
  lemma KeyLessIrreflexive(a: Interval)
    ensures !KeyLess(a, a)
  {
  }

  lemma KeyLessTotal(a: Interval, b: Interval)
    ensures a == b || KeyLess(a, b) || KeyLess(b, a)
    ensures !(KeyLess(a, b) && KeyLess(b, a))
  {
    if a.Range? && b.Range? {
      BoundLtTotal(a.lb, b.lb);
      BoundLtTotal(a.ub, b.ub);
    }
  }

  lemma KeyLessTransitive(a: Interval, b: Interval, c: Interval)
    requires KeyLess(a, b) && KeyLess(b, c)
    ensures KeyLess(a, c)
  {
    if c.Range? {
      BoundLtTotal(a.lb, b.lb);
      BoundLtTotal(b.lb, c.lb);
      BoundLtTotal(a.ub, b.ub);
      BoundLtTotal(b.ub, c.ub);
      if BoundLt(a.lb, b.lb) && BoundLt(b.lb, c.lb) {
        BoundLtTransitive(a.lb, b.lb, c.lb);
      }
      if BoundLt(a.ub, b.ub) && BoundLt(b.ub, c.ub) {
        BoundLtTransitive(a.ub, b.ub, c.ub);
      }
    }
  }

  /** "Not after": the order `std::sort` leaves neighbours in. */
  predicate KeyLe(a: Interval, b: Interval)
  {
    !KeyLess(b, a)
  }

  lemma KeyLeTransitive(a: Interval, b: Interval, c: Interval)
    requires KeyLe(a, b) && KeyLe(b, c)
    ensures KeyLe(a, c)
  {
    KeyLessTotal(a, b);
    KeyLessTotal(b, c);
    if KeyLess(c, a) {
      if KeyLess(a, b) {
        KeyLessTransitive(c, a, b);
      }
    }
  }
}
