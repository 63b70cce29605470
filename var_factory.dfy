/**
 * The variable-name table of var_factory.cpp: a variable is an index into
 * a table of names, `make` interns a name, and the builders compose the
 * names of registers, stack cells, kinds and loop counters.
 */
module VariableFactory {
  import opened Strings
  import opened Labels

  /** The kinds of value a register or stack cell carries, in the order of the default table. */
  datatype DataKind =
    | SValue | UValue | CtxOffset | MapFd | PacketOffset | SharedOffset | StackOffset | TypeKind
    | SharedRegionSize | StackNumericSize

  /** `name_of(kind)`. */
  function KindName(k: DataKind): string
  {
    match k
    case SValue => "svalue"
    case UValue => "uvalue"
    case CtxOffset => "ctx_offset"
    case MapFd => "map_fd"
    case PacketOffset => "packet_offset"
    case SharedOffset => "shared_offset"
    case StackOffset => "stack_offset"
    case TypeKind => "type"
    case SharedRegionSize => "shared_region_size"
    case StackNumericSize => "stack_numeric_size"
  }

  const Kinds: seq<DataKind> :=
    [SValue, UValue, CtxOffset, MapFd, PacketOffset, SharedOffset, StackOffset, TypeKind,
     SharedRegionSize, StackNumericSize]

  lemma KindNameInjective(a: DataKind, b: DataKind)
    ensures KindName(a) == KindName(b) ==> a == b
  {
  }

  predicate NoChar(s: string, c: char)
  {
    forall k :: 0 <= k < |s| ==> s[k] != c
  }

  lemma KindNameHasNoDot(k: DataKind)
    ensures NoChar(KindName(k), '.')
  {
  }

  /** reg (line 143): `r<i>.<kind>`. */
  function RegName(k: DataKind, i: int): string
  {
    "r" + IntToString(i) + "." + KindName(k)
  }

  /** stack_frame_var (lines 157-159): the register name behind the frame prefix and the delimiter. */
  function StackFrameName(k: DataKind, i: int, prefix: string): string
  {
    prefix + [StackFrameDelimiter] + RegName(k, i)
  }

  /** mk_scalar_name (lines 147-155): `s[o].kind`, or `s[o...o+size-1].kind` when size is not 1. */
  function ScalarName(k: DataKind, o: int, size: int): string
  {
    CellText(o, size) + "." + KindName(k)
  }

  /** The cell part of a stack cell's name: `s[<o>]`, or `s[<o>...<o+size-1>]` for a wider cell. */
  function CellText(o: int, size: int): string
  {
    "s[" + IntToString(o) + (if size != 1 then "..." + IntToString(o + size - 1) else "") + "]"
  }

  /** The cast of cell_var (line 162): the offset as a 64-bit unsigned number. */
  function ToUint64(o: int): (r: nat)
    ensures r < 0x1_0000_0000_0000_0000
    ensures 0 <= o < 0x1_0000_0000_0000_0000 ==> r == o
  {
    o % 0x1_0000_0000_0000_0000
  }

  /** loop_counter (line 173). */
  function LoopCounterName(labelText: string): string
  {
    "pc[" + labelText + "]"
  }

  /** `s.rfind(c)`, or -1 for `npos` (whose successor is 0). */
  function LastIndexOf(s: string, c: char): (r: int)
    ensures -1 <= r < |s|
    ensures r >= 0 ==> s[r] == c
    ensures forall k :: r < k < |s| ==> s[k] != c
  {
    if s == [] then -1
    else if s[|s| - 1] == c then |s| - 1
    else LastIndexOf(s[..|s| - 1], c)
  }

  /** kind_var (lines 166-169): the type variable's name up to its last `.`, then the kind. */
  function KindVarName(k: DataKind, typeName: string): string
  {
    typeName[..LastIndexOf(typeName, '.') + 1] + KindName(k)
  }

  /** ends_with (lines 175-177). */
  predicate EndsWith(s: string, suffix: string)
  {
    |s| >= |suffix| && s[|s| - |suffix|..] == suffix
  }

  lemma EndsWithIsSuffix(s: string, suffix: string)
    ensures EndsWith(s, suffix) <==> exists t :: s == t + suffix
  {
    if EndsWith(s, suffix) {
      assert s == s[..|s| - |suffix|] + suffix;
    }
    if t :| s == t + suffix {
      assert s[|s| - |suffix|..] == suffix;
    }
  }

  /** is_in_stack (line 189): the name starts with `s` (an empty name's terminator is not `s`). */
  predicate IsInStack(name: string)
  {
    |name| > 0 && name[0] == 's'
  }

  /** The ten names of register `r`, one per kind, in kind order. */
  function RegisterBlock(r: int): seq<string>
  {
    seq(10, k requires 0 <= k < 10 => RegName(Kinds[k], r))
  }

  /** The blocks of registers 0 to n - 1. */
  function RegisterNames(n: nat): seq<string>
  {
    if n == 0 then [] else RegisterNames(n - 1) + RegisterBlock(n - 1)
  }

  /** The 112 names the table starts with (lines 22-137): r0..r10 with every kind, then the two sizes. */
  function DefaultNames(): seq<string>
  {
    RegisterNames(11) + ["data_size", "meta_size"]
  }

  lemma {:induction false} RegisterNamesLength(n: nat)
    ensures |RegisterNames(n)| == 10 * n
  {
    if n > 0 {
      RegisterNamesLength(n - 1);
    }
  }

  /** Register `r`'s name of the `k`-th kind sits at `10 * r + k`. */
  lemma {:induction false} RegisterNamesAt(n: nat, r: nat, k: nat)
    requires r < n && k < 10
    ensures 10 * r + k < |RegisterNames(n)|
    ensures RegisterNames(n)[10 * r + k] == RegName(Kinds[k], r)
  {
    RegisterNamesLength(n - 1);
    RegisterNamesLength(n);
    if r < n - 1 {
      RegisterNamesAt(n - 1, r, k);
    } else {
      assert RegisterBlock(n - 1)[k] == RegName(Kinds[k], r);
    }
  }

  lemma RegisterNamesLayout(n: nat)
    ensures |RegisterNames(n)| == 10 * n
    ensures forall r, k :: 0 <= r < n && 0 <= k < 10 ==> RegisterNames(n)[10 * r + k] == RegName(Kinds[k], r)
  {
    RegisterNamesLength(n);
    forall r, k | 0 <= r < n && 0 <= k < 10
      ensures RegisterNames(n)[10 * r + k] == RegName(Kinds[k], r)
    {
      RegisterNamesAt(n, r, k);
    }
  }

  lemma DefaultNamesLayout()
    ensures |DefaultNames()| == 112
    ensures forall r, k :: 0 <= r <= 10 && 0 <= k < 10 ==> DefaultNames()[10 * r + k] == RegName(Kinds[k], r)
    ensures DefaultNames()[110] == "data_size" && DefaultNames()[111] == "meta_size"
  {
    RegisterNamesLayout(11);
  }

  predicate Distinct(t: seq<string>)
  {
    forall i, j :: 0 <= i < j < |t| ==> t[i] != t[j]
  }

  // ---------------------------------------------------------------------
  // Distinctness of register names

  lemma {:induction false} NatToStringInjective(n: nat, m: nat)
    requires NatToString(n) == NatToString(m)
    ensures n == m
    decreases n
  {
    NatToStringSingleDigit(n);
    NatToStringSingleDigit(m);
    if n < 10 {
      assert "0123456789"[n] == "0123456789"[m];
    } else {
      var a, b := NatToString(n / 10), NatToString(m / 10);
      assert a + [DigitChar(n % 10)] == b + [DigitChar(m % 10)];
      assert |a| == |b|;
      assert a == (a + [DigitChar(n % 10)])[..|a|];
      assert b == (b + [DigitChar(m % 10)])[..|b|];
      assert "0123456789"[n % 10] == "0123456789"[m % 10];
      NatToStringInjective(n / 10, m / 10);
    }
  }

  /** One digit exactly for numbers below ten. */
  lemma NatToStringSingleDigit(n: nat)
    ensures |NatToString(n)| == 1 <==> n < 10
  {
    if n >= 10 {
      assert |NatToString(n / 10)| >= 1;
    }
  }

  lemma IntToStringInjective(i: int, j: int)
    requires IntToString(i) == IntToString(j)
    ensures i == j
  {
    IntToStringSign(i);
    IntToStringSign(j);
    if i < 0 {
      assert NatToString(-i) == IntToString(i)[1..];
      assert NatToString(-j) == IntToString(j)[1..];
      NatToStringInjective(-i, -j);
    } else {
      NatToStringInjective(i, j);
    }
  }

  /** The text of an integer starts with `-` exactly when it is negative. */
  lemma IntToStringSign(i: int)
    ensures IntToString(i)[0] == '-' <==> i < 0
  {
    if i >= 0 {
      assert IsDigit(NatToString(i)[0]);
    }
  }

  /** In `a.x` with no `.` in `a`, the first `.` is the one after `a`. */
  lemma FirstDotAt(a: string, x: string)
    requires NoChar(a, '.')
    ensures (a + "." + x)[|a|] == '.'
    ensures forall m :: 0 <= m < |a| ==> (a + "." + x)[m] != '.'
  {
    assert forall m :: 0 <= m < |a| ==> (a + "." + x)[m] == a[m];
  }

  /** Two names `a.x` and `b.y` whose heads have no `.` are equal only when the heads and tails are. */
  lemma SplitAtFirstDot(a: string, x: string, b: string, y: string)
    requires NoChar(a, '.') && NoChar(b, '.')
    requires a + "." + x == b + "." + y
    ensures a == b && x == y
  {
    var s := a + "." + x;
    FirstDotAt(a, x);
    FirstDotAt(b, y);
    assert a == s[..|a|] && b == (b + "." + y)[..|b|];
    assert x == s[|a| + 1..] && y == (b + "." + y)[|b| + 1..];
  }

  lemma IntToStringHasNoDot(i: int)
    ensures NoChar(IntToString(i), '.')
  {
  }

  /** Register names are equal only for equal registers and kinds. */
  lemma RegNameInjective(k: DataKind, i: int, k': DataKind, i': int)
    requires RegName(k, i) == RegName(k', i')
    ensures k == k' && i == i'
  {
    IntToStringHasNoDot(i);
    IntToStringHasNoDot(i');
    var a, b := "r" + IntToString(i), "r" + IntToString(i');
    assert NoChar(a, '.') && NoChar(b, '.') by {
      assert forall t :: 0 < t < |a| ==> a[t] == IntToString(i)[t - 1];
      assert forall t :: 0 < t < |b| ==> b[t] == IntToString(i')[t - 1];
    }
    assert RegName(k, i) == a + "." + KindName(k);
    assert RegName(k', i') == b + "." + KindName(k');
    SplitAtFirstDot(a, KindName(k), b, KindName(k'));
    assert IntToString(i) == a[1..] && IntToString(i') == b[1..];
    IntToStringInjective(i, i');
    KindNameInjective(k, k');
  }

  lemma {:induction false} RegisterNamesMembers(n: nat, x: string)
    requires x in RegisterNames(n)
    ensures exists r, k :: 0 <= r < n && 0 <= k < 10 && x == RegName(Kinds[k], r)
  {
    if x in RegisterNames(n - 1) {
      RegisterNamesMembers(n - 1, x);
    } else {
      var k :| 0 <= k < 10 && RegisterBlock(n - 1)[k] == x;
    }
  }

  lemma {:induction false} RegisterNamesDistinct(n: nat)
    ensures Distinct(RegisterNames(n))
  {
    if n > 0 {
      RegisterNamesDistinct(n - 1);
      var a, b := RegisterNames(n - 1), RegisterBlock(n - 1);
      forall i, j | 0 <= i < j < |b|
        ensures b[i] != b[j]
      {
        if b[i] == b[j] {
          RegNameInjective(Kinds[i], n - 1, Kinds[j], n - 1);
        }
      }
      forall i, j | 0 <= i < |a| && 0 <= j < |b|
        ensures a[i] != b[j]
      {
        if a[i] == b[j] {
          RegisterNamesMembers(n - 1, a[i]);
          var r, k :| 0 <= r < n - 1 && 0 <= k < 10 && a[i] == RegName(Kinds[k], r);
          RegNameInjective(Kinds[k], r, Kinds[j], n - 1);
        }
      }
      DistinctAppend(a, b);
    }
  }

  lemma DistinctAppend(a: seq<string>, b: seq<string>)
    requires Distinct(a) && Distinct(b)
    requires forall i, j :: 0 <= i < |a| && 0 <= j < |b| ==> a[i] != b[j]
    ensures Distinct(a + b)
  {
    var s := a + b;
    forall i, j | 0 <= i < j < |s|
      ensures s[i] != s[j]
    {
      if j < |a| {
        assert s[i] == a[i] && s[j] == a[j];
      } else if i >= |a| {
        assert s[i] == b[i - |a|] && s[j] == b[j - |a|];
      } else {
        assert s[i] == a[i] && s[j] == b[j - |a|];
      }
    }
  }

  /** The default table has no name twice. */
  lemma DefaultNamesDistinct()
    ensures Distinct(DefaultNames())
  {
    RegisterNamesDistinct(11);
    var a := RegisterNames(11);
    forall i, j | 0 <= i < |a| && 0 <= j < 2
      ensures a[i] != ["data_size", "meta_size"][j]
    {
      RegisterNamesMembers(11, a[i]);
      var r, k :| 0 <= r < 11 && 0 <= k < 10 && a[i] == RegName(Kinds[k], r);
      assert a[i][0] == 'r';
    }
    DistinctAppend(a, ["data_size", "meta_size"]);
  }

  // ---------------------------------------------------------------------
  // Interning

  /** The position `std::find` stops at: the first occurrence. */
  function FirstIndex(t: seq<string>, n: string): (r: nat)
    requires n in t
    ensures r < |t| && t[r] == n
    ensures forall k :: 0 <= k < r ==> t[k] != n
  {
    if t[0] == n then 0 else 1 + FirstIndex(t[1..], n)
  }

  /** make (lines 13-20): the table after interning `n`, and the index of `n` in it. */
  function Intern(t: seq<string>, n: string): (r: (seq<string>, nat))
    ensures r.1 < |r.0| && r.0[r.1] == n
    ensures forall k :: 0 <= k < r.1 ==> r.0[k] != n
    ensures |t| <= |r.0| <= |t| + 1 && r.0[..|t|] == t
  {
    if n in t then (t, FirstIndex(t, n)) else (t + [n], |t|)
  }

  /** make appends exactly when the name is absent. */
  lemma InternGrowsOnlyWhenAbsent(t: seq<string>, n: string)
    ensures n in t <==> Intern(t, n).0 == t
    ensures n !in t ==> Intern(t, n).0 == t + [n] && Intern(t, n).1 == |t|
  {
    if n !in t {
      assert Intern(t, n).0[|t|] == n;
    }
  }

  /** A second make of the same name returns the same index and leaves the table alone. */
  lemma InternTwice(t: seq<string>, n: string)
    ensures var (t1, v1) := Intern(t, n); Intern(t1, n) == (t1, v1)
  {
    var (t1, v1) := Intern(t, n);
    assert n in t1;
    FirstIndexIsUnique(t1, n, v1);
  }

  lemma FirstIndexIsUnique(t: seq<string>, n: string, i: nat)
    requires i < |t| && t[i] == n && forall k :: 0 <= k < i ==> t[k] != n
    ensures FirstIndex(t, n) == i
  {
  }

  /** A table without duplicates keeps none. */
  lemma InternKeepsDistinct(t: seq<string>, n: string)
    requires Distinct(t)
    ensures Distinct(Intern(t, n).0)
  {
  }

  /** In a table without duplicates, the index of a name that is there is its position. */
  lemma FirstIndexOnDistinct(t: seq<string>, i: nat)
    requires Distinct(t) && i < |t|
    ensures FirstIndex(t, t[i]) == i
  {
    FirstIndexIsUnique(t, t[i], i);
  }

  /** The two filters of the table. */
  datatype NameFilter = TypeVariables | LoopCounters

  predicate Keeps(f: NameFilter, name: string)
  {
    match f
    case TypeVariables => EndsWith(name, ".type")
    case LoopCounters => StartsWith(name, "pc")
  }

  /**
   * get_type_variables and get_loop_counters (lines 179-201): for each of
   * the first `i` names that the filter keeps, in table order, the index
   * make returns for it.
   */
  function Selected(t: seq<string>, i: nat, f: NameFilter): seq<nat>
    requires i <= |t|
  {
    SelectedBy(t, i, name => Keeps(f, name))
  }

  /** The same walk over the table for any test on names. */
  function SelectedBy(t: seq<string>, i: nat, keep: string -> bool): seq<nat>
    requires i <= |t|
  {
    if i == 0 then []
    else SelectedBy(t, i - 1, keep) + (if keep(t[i - 1]) then [FirstIndex(t, t[i - 1])] else [])
  }

  /**
   * On a table without duplicates, the filters return exactly the
   * positions of the names they keep, in increasing order.
   */
  lemma SelectedPositions(t: seq<string>, i: nat, f: NameFilter)
    requires i <= |t| && Distinct(t)
    ensures var r := Selected(t, i, f);
      && (forall k :: 0 <= k < |r| ==> r[k] < i && Keeps(f, t[r[k]]))
      && (forall k, m :: 0 <= k < m < |r| ==> r[k] < r[m])
      && (forall j :: 0 <= j < i ==> (j in r <==> Keeps(f, t[j])))
  {
    var keep := name => Keeps(f, name);
    SelectedByIsPositions(t, i, keep);
    PositionsKept(t, i, keep);
    PositionsIncrease(t, i, keep);
    PositionsComplete(t, i, keep);
  }

  /** The positions below `i` whose names pass the test, in increasing order. */
  function Positions(t: seq<string>, i: nat, keep: string -> bool): seq<nat>
    requires i <= |t|
  {
    if i == 0 then [] else Positions(t, i - 1, keep) + (if keep(t[i - 1]) then [i - 1] else [])
  }

  /** On a table without duplicates, make returns each kept name's own position. */
  lemma {:induction false} SelectedByIsPositions(t: seq<string>, i: nat, keep: string -> bool)
    requires i <= |t| && Distinct(t)
    ensures SelectedBy(t, i, keep) == Positions(t, i, keep)
  {
    if i > 0 {
      SelectedByIsPositions(t, i - 1, keep);
      FirstIndexOnDistinct(t, i - 1);
    }
  }

  /** Position `i - 1` is added exactly when its name passes. */
  lemma PositionsStep(t: seq<string>, i: nat, keep: string -> bool)
    requires 0 < i <= |t|
    ensures Positions(t, i, keep) == Positions(t, i - 1, keep) + (if keep(t[i - 1]) then [i - 1] else [])
  {
  }

  lemma {:induction false} PositionsKept(t: seq<string>, i: nat, keep: string -> bool)
    requires i <= |t|
    ensures forall k :: 0 <= k < |Positions(t, i, keep)| ==>
      Positions(t, i, keep)[k] < i && keep(t[Positions(t, i, keep)[k]])
  {
    if i > 0 {
      PositionsKept(t, i - 1, keep);
      PositionsStep(t, i, keep);
      var r0 := Positions(t, i - 1, keep);
      var r := Positions(t, i, keep);
      forall k | 0 <= k < |r|
        ensures r[k] < i && keep(t[r[k]])
      {
        if k < |r0| {
          assert r[k] == r0[k];
        } else {
          assert r[k] == i - 1;
        }
      }
    }
  }

  lemma {:induction false} PositionsIncrease(t: seq<string>, i: nat, keep: string -> bool)
    requires i <= |t|
    ensures forall k, m :: 0 <= k < m < |Positions(t, i, keep)| ==>
      Positions(t, i, keep)[k] < Positions(t, i, keep)[m]
  {
    if i > 0 {
      PositionsIncrease(t, i - 1, keep);
      PositionsKept(t, i - 1, keep);
      PositionsStep(t, i, keep);
      var r0 := Positions(t, i - 1, keep);
      var r := Positions(t, i, keep);
      forall k, m | 0 <= k < m < |r|
        ensures r[k] < r[m]
      {
        assert r[k] == r0[k];
        if m < |r0| {
          assert r[m] == r0[m];
        } else {
          assert r[m] == i - 1;
        }
      }
    }
  }

  lemma {:induction false} PositionsComplete(t: seq<string>, i: nat, keep: string -> bool)
    requires i <= |t|
    ensures forall j :: 0 <= j < i ==> (j in Positions(t, i, keep) <==> keep(t[j]))
  {
    if i > 0 {
      PositionsComplete(t, i - 1, keep);
      PositionsKept(t, i - 1, keep);
      PositionsStep(t, i, keep);
      var r0 := Positions(t, i - 1, keep);
      var extra := if keep(t[i - 1]) then [i - 1] else [];
      forall j | 0 <= j < i
        ensures j in r0 + extra <==> keep(t[j])
      {
        assert j in r0 + extra <==> j in r0 || j in extra;
      }
    }
  }

  // ---------------------------------------------------------------------
  // kind_var on the names the builders make

  lemma LastDotOf(a: string, b: string)
    requires NoChar(b, '.')
    ensures LastIndexOf(a + "." + b, '.') == |a|
  {
    var s := a + "." + b;
    assert s[|a|] == '.';
    assert forall m :: |a| < m < |s| ==> s[m] == b[m - |a| - 1];
  }

  /** kind_var of a name `a.x` whose last part has no dot is `a.` followed by the kind. */
  lemma KindVarOfDotted(a: string, x: string, k': DataKind)
    requires NoChar(x, '.')
    ensures KindVarName(k', a + "." + x) == a + "." + KindName(k')
  {
    LastDotOf(a, x);
    assert (a + "." + x)[..|a| + 1] == a + ".";
  }

  /** The kind variable of a register's type variable is that register's variable of the kind. */
  lemma KindVarOfRegister(k: DataKind, i: int, k': DataKind)
    ensures KindVarName(k', RegName(k, i)) == RegName(k', i)
  {
    KindNameHasNoDot(k);
    KindVarOfDotted("r" + IntToString(i), KindName(k), k');
  }

  lemma Reassociate(p: string, a: string, x: string)
    ensures p + (a + "." + x) == (p + a) + "." + x
  {
  }

  /** Likewise in a stack frame: the prefix is kept. */
  lemma KindVarOfStackFrame(k: DataKind, i: int, prefix: string, k': DataKind)
    ensures KindVarName(k', StackFrameName(k, i, prefix)) == StackFrameName(k', i, prefix)
  {
    var p, a := prefix + [StackFrameDelimiter], "r" + IntToString(i);
    KindNameHasNoDot(k);
    Reassociate(p, a, KindName(k));
    Reassociate(p, a, KindName(k'));
    KindVarOfDotted(p + a, KindName(k), k');
  }

  /** And for a stack cell, whose range has dots of its own. */
  lemma KindVarOfScalar(k: DataKind, o: int, size: int, k': DataKind)
    ensures KindVarName(k', ScalarName(k, o, size)) == ScalarName(k', o, size)
  {
    KindNameHasNoDot(k);
    KindVarOfDotted(CellText(o, size), KindName(k), k');
  }

  /** Stack cells are in the stack; registers are not. */
  lemma StackNames(k: DataKind, o: int, size: int, i: int)
    ensures IsInStack(ScalarName(k, o, size))
    ensures !IsInStack(RegName(k, i))
  {
  }

  /** Register type variables are what get_type_variables keeps; loop counters are what get_loop_counters keeps. */
  lemma FiltersRecogniseBuilders(i: int, labelText: string)
    ensures Keeps(TypeVariables, RegName(TypeKind, i))
    ensures Keeps(LoopCounters, LoopCounterName(labelText))
    ensures !Keeps(LoopCounters, RegName(TypeKind, i))
  {
    var n := RegName(TypeKind, i);
    assert n == ("r" + IntToString(i)) + ".type";
    EndsWithIsSuffix(n, ".type");
    assert LoopCounterName(labelText)[..2] == "pc";
    assert n[0] == 'r';
  }

  /**
   * The table of variable names, held by the thread in the source
   * (`thread_local` there), explicit here.
   */
  class VariableRegistry {
    var names: seq<string>

    constructor ()
      ensures names == DefaultNames()
    {
      names := DefaultNames();
    }

    /** make (lines 13-20): find the name, or append it. */
    method Make(name: string) returns (v: nat)
      modifies this
      ensures (names, v) == Intern(old(names), name)
    {
      var i := 0;
      while i < |names| && names[i] != name
        invariant 0 <= i <= |names|
        invariant forall k :: 0 <= k < i ==> names[k] != name
      {
        i := i + 1;
      }
      if i == |names| {
        names := names + [name];
      } else {
        FirstIndexIsUnique(names, name, i);
      }
      v := i;
    }

    /** reg (line 143). */
    method Reg(kind: DataKind, i: int) returns (v: nat)
      modifies this
      ensures (names, v) == Intern(old(names), RegName(kind, i))
    {
      v := Make("r" + IntToString(i) + "." + KindName(kind));
    }

    /** stack_frame_var (lines 157-159). */
    method StackFrameVar(kind: DataKind, i: int, prefix: string) returns (v: nat)
      modifies this
      ensures (names, v) == Intern(old(names), StackFrameName(kind, i, prefix))
    {
      v := Make(prefix + [StackFrameDelimiter] + RegName(kind, i));
    }

    /** cell_var (lines 161-163). */
    method CellVar(arrayKind: DataKind, offset: int, size: int) returns (v: nat)
      modifies this
      ensures (names, v) == Intern(old(names), ScalarName(arrayKind, ToUint64(offset), size))
    {
      v := Make(ScalarName(arrayKind, ToUint64(offset), size));
    }

    /** kind_var (lines 166-169), for the variable with index `typeVariable`. */
    method KindVar(kind: DataKind, typeVariable: nat) returns (v: nat)
      requires typeVariable < |names|
      modifies this
      ensures (names, v) == Intern(old(names), KindVarName(kind, old(names)[typeVariable]))
    {
      var name := names[typeVariable];
      v := Make(name[..LastIndexOf(name, '.') + 1] + KindName(kind));
    }

    /** meta_offset and packet_size (lines 171-172). */
    method MetaOffset() returns (v: nat)
      modifies this
      ensures (names, v) == Intern(old(names), "meta_offset")
    {
      v := Make("meta_offset");
    }

    method PacketSize() returns (v: nat)
      modifies this
      ensures (names, v) == Intern(old(names), "packet_size")
    {
      v := Make("packet_size");
    }

    /** loop_counter (line 173). */
    method LoopCounter(labelText: string) returns (v: nat)
      modifies this
      ensures (names, v) == Intern(old(names), LoopCounterName(labelText))
    {
      v := Make("pc[" + labelText + "]");
    }

    /**
     * get_type_variables / get_loop_counters (lines 179-201): make of
     * every name the filter keeps, in table order. Every such name is
     * already there, so the table does not grow.
     */
    method Filter(f: NameFilter) returns (res: seq<nat>)
      modifies this
      ensures names == old(names) && res == Selected(names, |names|, f)
    {
      res := [];
      for i := 0 to |names|
        invariant names == old(names)
        invariant res == Selected(names, i, f)
      {
        var keep := match f
          case TypeVariables => EndsWith(names[i], ".type")
          case LoopCounters => StartsWith(names[i], "pc");
        if keep {
          var v := Make(names[i]);
          res := res + [v];
        }
      }
    }
  }
}
