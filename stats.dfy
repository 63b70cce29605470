/**
 * Program statistics over a control-flow graph: `unique` (std::unique_copy
 * over a range), `stats_headers` and `collect_stats`.
 */
module Stats {
  import opened Labels
  import opened Instructions
  import opened CfgGraph

  /** No element equals its right neighbour. */
  predicate NoAdjacentDuplicates<T(==)>(s: seq<T>)
  {
    forall i :: 0 <= i < |s| - 1 ==> s[i] != s[i + 1]
  }

  /** unique (lines 221-226): std::unique_copy keeps the first element of each run of equal neighbours. */
  function Unique<T(==, !new)>(s: seq<T>): (r: seq<T>)
    ensures |r| <= |s|
    ensures s != [] ==> r != [] && r[0] == s[0]
    ensures forall x :: x in r <==> x in s
    decreases |s|
  {
    if |s| <= 1 then s
    else if s[0] == s[1] then Unique(s[1..])
    else [s[0]] + Unique(s[1..])
  }

  /** unique_copy leaves no two equal neighbours. */
  lemma {:induction false} UniqueHasNoAdjacentDuplicates<T(!new)>(s: seq<T>)
    ensures NoAdjacentDuplicates(Unique(s))
    decreases |s|
  {
    if |s| > 1 {
      UniqueHasNoAdjacentDuplicates(s[1..]);
      if s[0] != s[1] {
        var r := Unique(s[1..]);
        assert r[0] == s[1];
        assert Unique(s) == [s[0]] + r;
      }
    }
  }

  /** On a range without equal neighbours, such as a set's, unique_copy copies everything. */
  lemma {:induction false} UniqueKeepsDistinct<T(!new)>(s: seq<T>)
    requires NoAdjacentDuplicates(s)
    ensures Unique(s) == s
    decreases |s|
  {
    if |s| > 1 {
      assert NoAdjacentDuplicates(s[1..]) by {
        forall i | 0 <= i < |s[1..]| - 1
          ensures s[1..][i] != s[1..][i + 1]
        {
          assert s[1..][i] == s[i + 1] && s[1..][i + 1] == s[i + 2];
        }
      }
      UniqueKeepsDistinct(s[1..]);
      assert s == [s[0]] + s[1..];
    }
  }

  /** Applying unique_copy twice changes nothing more. */
  lemma UniqueIdempotent<T(!new)>(s: seq<T>)
    ensures Unique(Unique(s)) == Unique(s)
  {
    UniqueHasNoAdjacentDuplicates(s);
    UniqueKeepsDistinct(Unique(s));
  }

  /** The elements of a set, each once, in some order (std::set iterates in label order, not modelled). */
  method Enumerate(s: set<Label>) returns (r: seq<Label>)
    ensures forall x :: x in r <==> x in s
    ensures forall i, j :: 0 <= i < j < |r| ==> r[i] != r[j]
    ensures |r| == |s|
  {
    r := [];
    var todo := s;
    while todo != {}
      invariant todo <= s
      invariant forall x :: x in s ==> (x in r <==> x !in todo)
      invariant forall x :: x in r ==> x in s
      invariant forall i, j :: 0 <= i < j < |r| ==> r[i] != r[j]
      invariant |r| + |todo| == |s|
      decreases todo
    {
      var x :| x in todo;
      r, todo := r + [x], todo - {x};
    }
  }

  /** The number of distinct predecessors, as `unique(bb.prev_blocks()).size()` counts them. */
  method UniquePredecessorCount(b: Block) returns (n: nat)
    ensures n == |b.prev|
  {
    var ps := Enumerate(b.prev);
    assert NoAdjacentDuplicates(ps);
    UniqueKeepsDistinct(ps);
    n := |Unique(ps)|;
  }

  /**
   * The keys of the statistics map. The source keys it by name; the model
   * keys it by this enumeration, whose `Name` is that string.
   */
  datatype StatKey =
    | BasicBlocks | Joins | Jumps | Reallocate | MapInMap | Arith64 | Arith32
    | Counted(category: Category)

  function Name(k: StatKey): string
  {
    match k
    case BasicBlocks => "basic_blocks"
    case Joins => "joins"
    case Jumps => "jumps"
    case Reallocate => "reallocate"
    case MapInMap => "map_in_map"
    case Arith64 => "arith64"
    case Arith32 => "arith32"
    case Counted(c) => CategoryName(c)
  }

  /** Different statistics print under different names, so the table's keys are its column names. */
  lemma NameInjective(a: StatKey, b: StatKey)
    ensures Name(a) == Name(b) ==> a == b
  {
    if a.Counted? && b.Counted? {
      CategoryNameInjective(a.category, b.category);
    }
  }

  /** stats_headers (lines 318-324), in order. */
  const StatsHeaders: seq<StatKey> :=
    [BasicBlocks, Joins, Counted(OtherCategory), Jumps, Counted(Assign), Counted(Arith),
     Counted(Load), Counted(Store), Counted(LoadStore), Counted(PacketAccess), Counted(Call1), Counted(CallMem),
     Counted(CallNomem), Reallocate, MapInMap, Arith64, Arith32]

  /** The header names, as the source spells them. */
  lemma HeaderNames()
    ensures |StatsHeaders| == 17
    ensures forall i, j :: 0 <= i < j < |StatsHeaders| ==> StatsHeaders[i] != StatsHeaders[j]
    ensures Name(StatsHeaders[0]) == "basic_blocks" && Name(StatsHeaders[1]) == "joins" && Name(StatsHeaders[2]) == "other"
    ensures Name(StatsHeaders[3]) == "jumps" && Name(StatsHeaders[12]) == "call_nomem" && Name(StatsHeaders[16]) == "arith32"
  {
  }

  /** How many instructions of `s` `instype` puts in category `c`. */
  function CountType(s: seq<Instruction>, c: Category): nat
    ensures CountType(s, c) <= |s|
  {
    if s == [] then 0 else CountType(s[..|s| - 1], c) + (if CategoryOf(s[|s| - 1]) == c then 1 else 0)
  }

  /** How many instructions of `s` are `Bin` with the given width flag. */
  function CountBin(s: seq<Instruction>, is64: bool): nat
    ensures CountBin(s, is64) <= |s|
  {
    if s == [] then 0 else CountBin(s[..|s| - 1], is64) + (if s[|s| - 1].Bin? && s[|s| - 1].is64 == is64 then 1 else 0)
  }

  predicate IsMapInMap(ins: Instruction) { ins.LoadMapFd? && ins.mapFd == -1 }

  predicate IsReallocate(ins: Instruction) { ins.Call? && ins.reallocatePacket }

  /** Some instruction of `s` loads a map-in-map descriptor (fd -1). */
  predicate AnyMapInMap(s: seq<Instruction>)
  {
    s != [] && (AnyMapInMap(s[..|s| - 1]) || IsMapInMap(s[|s| - 1]))
  }

  /** Some instruction of `s` is a helper call that may reallocate the packet. */
  predicate AnyReallocate(s: seq<Instruction>)
  {
    s != [] && (AnyReallocate(s[..|s| - 1]) || IsReallocate(s[|s| - 1]))
  }

  /** The `instype` categories that occur in `s`. */
  function Categories(s: seq<Instruction>): set<Category>
  {
    if s == [] then {} else Categories(s[..|s| - 1]) + {CategoryOf(s[|s| - 1])}
  }

  lemma {:induction false} AnyMapInMapExists(s: seq<Instruction>)
    ensures AnyMapInMap(s) <==> exists i :: 0 <= i < |s| && IsMapInMap(s[i])
  {
    if s != [] {
      var k := |s| - 1;
      AnyMapInMapExists(s[..k]);
      if i :| 0 <= i < k && IsMapInMap(s[..k][i]) {
        assert s[i] == s[..k][i];
      }
      if i :| 0 <= i < k && IsMapInMap(s[i]) {
        assert s[..k][i] == s[i];
      }
    }
  }

  lemma {:induction false} AnyReallocateExists(s: seq<Instruction>)
    ensures AnyReallocate(s) <==> exists i :: 0 <= i < |s| && IsReallocate(s[i])
  {
    if s != [] {
      var k := |s| - 1;
      AnyReallocateExists(s[..k]);
      if i :| 0 <= i < k && IsReallocate(s[..k][i]) {
        assert s[i] == s[..k][i];
      }
      if i :| 0 <= i < k && IsReallocate(s[i]) {
        assert s[..k][i] == s[i];
      }
    }
  }

  lemma {:induction false} CategoriesExist(s: seq<Instruction>, c: Category)
    ensures c in Categories(s) <==> exists i :: 0 <= i < |s| && CategoryOf(s[i]) == c
  {
    if s != [] {
      var k := |s| - 1;
      CategoriesExist(s[..k], c);
      if i :| 0 <= i < k && CategoryOf(s[..k][i]) == c {
        assert s[i] == s[..k][i];
      }
      if i :| 0 <= i < k && CategoryOf(s[i]) == c {
        assert s[..k][i] == s[i];
      }
    }
  }

  /** A category that does not occur counts zero. */
  lemma {:induction false} CountTypeAbsent(s: seq<Instruction>, c: Category)
    requires c !in Categories(s)
    ensures CountType(s, c) == 0
  {
    if s != [] {
      CountTypeAbsent(s[..|s| - 1], c);
    }
  }

  /** The headers are all keys but the two categories `stats_headers` does not list. */
  predicate IsHeader(k: StatKey)
  {
    k != Counted(CallxCategory) && k != Counted(AssumeCategory)
  }

  lemma HeadersListed(k: StatKey)
    ensures IsHeader(k) <==> k in StatsHeaders
  {
    if k.Counted? {
      match k.category
      case CallxCategory =>
      case AssumeCategory =>
      case OtherCategory => assert k == StatsHeaders[2];
      case Assign => assert k == StatsHeaders[4];
      case Arith => assert k == StatsHeaders[5];
      case Load => assert k == StatsHeaders[6];
      case Store => assert k == StatsHeaders[7];
      case LoadStore => assert k == StatsHeaders[8];
      case PacketAccess => assert k == StatsHeaders[9];
      case Call1 => assert k == StatsHeaders[10];
      case CallMem => assert k == StatsHeaders[11];
      case CallNomem => assert k == StatsHeaders[12];
    }
  }

  /** The keys `collect_stats` has after the instructions `s`: the headers and every category met. */
  predicate HasStatKey(s: seq<Instruction>, k: StatKey)
  {
    IsHeader(k) || (k.Counted? && k.category in Categories(s))
  }

  /** The map has the headers and the categories met in `s`, and no other key. */
  ghost predicate KeysMatch(res: map<StatKey, int>, s: seq<Instruction>)
  {
    forall k :: k in res <==> HasStatKey(s, k)
  }

  /** The counters of blocks, joins and jumps. */
  ghost predicate CountersMatch(res: map<StatKey, int>, blocks: nat, joins: nat, jumps: nat)
  {
    && BasicBlocks in res && Joins in res && Jumps in res
    && res[BasicBlocks] == blocks && res[Joins] == joins && res[Jumps] == jumps
  }

  /** The two flags of `s`. */
  ghost predicate FlagsMatch(res: map<StatKey, int>, s: seq<Instruction>)
  {
    && MapInMap in res && Reallocate in res
    && res[MapInMap] == (if AnyMapInMap(s) then 1 else 0)
    && res[Reallocate] == (if AnyReallocate(s) then 1 else 0)
  }

  /** The two width counters of `s`. */
  ghost predicate WidthsMatch(res: map<StatKey, int>, s: seq<Instruction>)
  {
    && Arith64 in res && Arith32 in res
    && res[Arith64] == CountBin(s, true) && res[Arith32] == CountBin(s, false)
  }

  /** Each category present counts the instructions of `s` in it. */
  ghost predicate CategoriesMatch(res: map<StatKey, int>, s: seq<Instruction>)
  {
    forall c :: Counted(c) in res ==> res[Counted(c)] == CountType(s, c)
  }

  /** The tally of `collect_stats` after `blocks` blocks, `joins` of them joins, and the instructions `s`. */
  ghost predicate StatsOf(res: map<StatKey, int>, blocks: nat, joins: nat, jumps: nat, s: seq<Instruction>)
  {
    KeysMatch(res, s) && CountersMatch(res, blocks, joins, jumps) && FlagsMatch(res, s) && WidthsMatch(res, s) && CategoriesMatch(res, s)
  }

  /** `res[key]++` on a std::map: a missing key counts from zero. */
  function Bump(res: map<StatKey, int>, key: StatKey): (r: map<StatKey, int>)
    ensures r.Keys == res.Keys + {key}
    ensures r[key] == (if key in res then res[key] else 0) + 1
    ensures forall k :: k in res && k != key ==> r[k] == res[k]
  {
    res[key := (if key in res then res[key] else 0) + 1]
  }

  /** Lines 336-340: `res["map_in_map"] = 1` for a LoadMapFd of fd -1. */
  function NoteMapInMap(res: map<StatKey, int>, ins: Instruction): (r: map<StatKey, int>)
    ensures r.Keys == res.Keys + (if IsMapInMap(ins) then {MapInMap} else {})
    ensures IsMapInMap(ins) ==> r[MapInMap] == 1
    ensures forall k :: k in res && (k != MapInMap || !IsMapInMap(ins)) ==> r[k] == res[k]
  {
    if ins.LoadMapFd? && ins.mapFd == -1 then res[MapInMap := 1] else res
  }

  /** Lines 341-345: `res["reallocate"] = 1` for a call that may reallocate the packet. */
  function NoteReallocate(res: map<StatKey, int>, ins: Instruction): (r: map<StatKey, int>)
    ensures r.Keys == res.Keys + (if IsReallocate(ins) then {Reallocate} else {})
    ensures IsReallocate(ins) ==> r[Reallocate] == 1
    ensures forall k :: k in res && (k != Reallocate || !IsReallocate(ins)) ==> r[k] == res[k]
  {
    if ins.Call? && ins.reallocatePacket then res[Reallocate := 1] else res
  }

  /** Lines 346-348: a `Bin` bumps the counter of its width. */
  function NoteWidth(res: map<StatKey, int>, ins: Instruction): (r: map<StatKey, int>)
    ensures r.Keys == res.Keys + (if ins.Bin? then {if ins.is64 then Arith64 else Arith32} else {})
    ensures forall k :: k in res && k != Arith64 && k != Arith32 ==> r[k] == res[k]
    ensures Arith64 in r ==> r[Arith64] == (if Arith64 in res then res[Arith64] else 0) + (if ins.Bin? && ins.is64 then 1 else 0)
    ensures Arith32 in r ==> r[Arith32] == (if Arith32 in res then res[Arith32] else 0) + (if ins.Bin? && !ins.is64 then 1 else 0)
  {
    if ins.Bin? then Bump(res, if ins.is64 then Arith64 else Arith32) else res
  }

  /** Lines 336-349: the counters one instruction bumps. */
  method CountInstruction(res: map<StatKey, int>, ghost blocks: nat, ghost joins: nat, ghost jumps: nat,
                          ghost s: seq<Instruction>, ins: Instruction)
    returns (r: map<StatKey, int>)
    requires StatsOf(res, blocks, joins, jumps, s)
    ensures StatsOf(r, blocks, joins, jumps, s + [ins])
  {
    r := NoteMapInMap(res, ins);
    r := NoteReallocate(r, ins);
    r := NoteWidth(r, ins);
    r := Bump(r, Counted(CategoryOf(ins)));
    TallyStep(res, blocks, joins, jumps, s, ins);
  }

  /** The four updates of lines 336-349 in order. */
  function Tally(res: map<StatKey, int>, ins: Instruction): map<StatKey, int>
  {
    Bump(NoteWidth(NoteReallocate(NoteMapInMap(res, ins), ins), ins), Counted(CategoryOf(ins)))
  }

  lemma TallyKeys(res: map<StatKey, int>, s: seq<Instruction>, ins: Instruction)
    requires KeysMatch(res, s)
    ensures KeysMatch(Tally(res, ins), s + [ins])
  {
    SnocCategories(s, ins);
  }

  lemma TallyCounters(res: map<StatKey, int>, blocks: nat, joins: nat, jumps: nat, ins: Instruction)
    requires CountersMatch(res, blocks, joins, jumps)
    ensures CountersMatch(Tally(res, ins), blocks, joins, jumps)
  {
    var r3 := NoteWidth(NoteReallocate(NoteMapInMap(res, ins), ins), ins);
    assert r3[BasicBlocks] == res[BasicBlocks] && r3[Joins] == res[Joins] && r3[Jumps] == res[Jumps];
  }

  lemma TallyFlags(res: map<StatKey, int>, s: seq<Instruction>, ins: Instruction)
    requires FlagsMatch(res, s)
    ensures FlagsMatch(Tally(res, ins), s + [ins])
  {
    var r3 := NoteWidth(NoteReallocate(NoteMapInMap(res, ins), ins), ins);
    assert r3[MapInMap] == (if IsMapInMap(ins) then 1 else res[MapInMap]);
    assert r3[Reallocate] == (if IsReallocate(ins) then 1 else res[Reallocate]);
    SnocFlags(s, ins);
  }

  lemma TallyWidths(res: map<StatKey, int>, s: seq<Instruction>, ins: Instruction)
    requires WidthsMatch(res, s)
    ensures WidthsMatch(Tally(res, ins), s + [ins])
  {
    SnocWidths(s, ins);
  }

  lemma TallyCategories(res: map<StatKey, int>, s: seq<Instruction>, ins: Instruction)
    requires KeysMatch(res, s) && CategoriesMatch(res, s)
    ensures CategoriesMatch(Tally(res, ins), s + [ins])
  {
    var r3 := NoteWidth(NoteReallocate(NoteMapInMap(res, ins), ins), ins);
    var r := Tally(res, ins);
    SnocCategories(s, ins);
    forall c | Counted(c) in r
      ensures r[Counted(c)] == CountType(s + [ins], c)
    {
      if Counted(c) in r3 {
        assert Counted(c) in res && r3[Counted(c)] == res[Counted(c)];
      } else {
        assert Counted(c) !in res;
        CountTypeAbsent(s, c);
      }
    }
  }

  /** The counters after Tally are the tally of one more instruction. */
  lemma TallyStep(res: map<StatKey, int>, blocks: nat, joins: nat, jumps: nat, s: seq<Instruction>, ins: Instruction)
    requires StatsOf(res, blocks, joins, jumps, s)
    ensures StatsOf(Tally(res, ins), blocks, joins, jumps, s + [ins])
  {
    TallyKeys(res, s, ins);
    TallyCounters(res, blocks, joins, jumps, ins);
    TallyFlags(res, s, ins);
    TallyWidths(res, s, ins);
    TallyCategories(res, s, ins);
  }

  /** What one more instruction does to the two flags. */
  lemma SnocFlags(s: seq<Instruction>, ins: Instruction)
    ensures AnyMapInMap(s + [ins]) == (AnyMapInMap(s) || IsMapInMap(ins))
    ensures AnyReallocate(s + [ins]) == (AnyReallocate(s) || IsReallocate(ins))
  {
    assert (s + [ins])[..|s|] == s;
  }

  /** What one more instruction does to the width counters. */
  lemma SnocWidths(s: seq<Instruction>, ins: Instruction)
    ensures CountBin(s + [ins], true) == CountBin(s, true) + (if ins.Bin? && ins.is64 then 1 else 0)
    ensures CountBin(s + [ins], false) == CountBin(s, false) + (if ins.Bin? && !ins.is64 then 1 else 0)
  {
    assert (s + [ins])[..|s|] == s;
  }

  /** What one more instruction does to the category counts. */
  lemma SnocCategories(s: seq<Instruction>, ins: Instruction)
    ensures forall c :: CountType(s + [ins], c) == CountType(s, c) + (if CategoryOf(ins) == c then 1 else 0)
    ensures Categories(s + [ins]) == Categories(s) + {CategoryOf(ins)}
  {
    assert (s + [ins])[..|s|] == s;
  }

  /** The blocks among `visited` with more than one predecessor. */
  ghost function JoinsAmong(cfg: Cfg, visited: set<Label>): set<Label>
  {
    set l | l in visited && l in cfg.blocks && |cfg.blocks[l].prev| > 1
  }

  lemma JoinsGrow(cfg: Cfg, visited: set<Label>, l: Label)
    requires l in cfg.blocks && l !in visited
    ensures |JoinsAmong(cfg, visited + {l})| == |JoinsAmong(cfg, visited)| + (if |cfg.blocks[l].prev| > 1 then 1 else 0)
  {
    if |cfg.blocks[l].prev| > 1 {
      assert JoinsAmong(cfg, visited + {l}) == JoinsAmong(cfg, visited) + {l};
    } else {
      assert JoinsAmong(cfg, visited + {l}) == JoinsAmong(cfg, visited);
    }
  }

  /** The instructions of the blocks of `order`, block after block. */
  ghost function InstsInOrder(cfg: Cfg, order: seq<Label>): seq<Instruction>
    requires forall i :: 0 <= i < |order| ==> order[i] in cfg.blocks
  {
    if order == [] then [] else InstsInOrder(cfg, order[..|order| - 1]) + cfg.blocks[order[|order| - 1]].insts
  }

  lemma InstsSnoc(cfg: Cfg, order: seq<Label>, l: Label)
    requires forall i :: 0 <= i < |order| ==> order[i] in cfg.blocks
    requires l in cfg.blocks
    ensures InstsInOrder(cfg, order + [l]) == InstsInOrder(cfg, order) + cfg.blocks[l].insts
  {
    assert (order + [l])[..|order|] == order;
  }

  lemma StatsStart(res: map<StatKey, int>)
    requires forall k :: k in res <==> k in StatsHeaders
    requires forall k :: k in res ==> res[k] == 0
    ensures StatsOf(res, 0, 0, 0, [])
  {
    forall k
      ensures k in res <==> HasStatKey([], k)
    {
      HeadersListed(k);
    }
  }

  /** `res["basic_blocks"]++` (line 332). */
  lemma BlockCounted(res: map<StatKey, int>, blocks: nat, joins: nat, jumps: nat, s: seq<Instruction>)
    requires StatsOf(res, blocks, joins, jumps, s)
    ensures StatsOf(Bump(res, BasicBlocks), blocks + 1, joins, jumps, s)
  {
  }

  /** `res["joins"]++` (lines 351-353). */
  lemma JoinCounted(res: map<StatKey, int>, blocks: nat, joins: nat, jumps: nat, s: seq<Instruction>)
    requires StatsOf(res, blocks, joins, jumps, s)
    ensures StatsOf(Bump(res, Joins), blocks, joins + 1, jumps, s)
  {
  }

  /** `res["jumps"]++` (lines 354-356). */
  lemma JumpCounted(res: map<StatKey, int>, blocks: nat, joins: nat, jumps: nat, s: seq<Instruction>)
    requires StatsOf(res, blocks, joins, jumps, s)
    ensures StatsOf(Bump(res, Jumps), blocks, joins, jumps + 1, s)
  {
  }

  /** Lines 335-350 for one block: every instruction in order. */
  method CountBlock(res0: map<StatKey, int>, ghost blocks: nat, ghost joins: nat, ghost jumps: nat,
                    ghost s: seq<Instruction>, insts: seq<Instruction>)
    returns (res: map<StatKey, int>)
    requires StatsOf(res0, blocks, joins, jumps, s)
    ensures StatsOf(res, blocks, joins, jumps, s + insts)
  {
    res := res0;
    assert s + insts[..0] == s;
    for i := 0 to |insts|
      invariant StatsOf(res, blocks, joins, jumps, s + insts[..i])
    {
      assert s + insts[..i + 1] == s + insts[..i] + [insts[i]];
      res := CountInstruction(res, blocks, joins, jumps, s + insts[..i], insts[i]);
    }
    assert insts[..|insts|] == insts;
  }

  /** The statistics once the blocks of `order`, the set `visited`, are counted. */
  ghost predicate StatsSoFar(cfg: Cfg, visited: set<Label>, order: seq<Label>, res: map<StatKey, int>)
  {
    && (forall i :: 0 <= i < |order| ==> order[i] in cfg.blocks)
    && var j := |JoinsAmong(cfg, visited)|;
       StatsOf(res, |order|, j, j, InstsInOrder(cfg, order))
  }

  /** Lines 332-356, the body of the loop over the blocks, for the block `l`. */
  method CountOneBlock(cfg: Cfg, res0: map<StatKey, int>, ghost visited: set<Label>, ghost order: seq<Label>, l: Label)
    returns (res: map<StatKey, int>)
    requires l in cfg.blocks && l !in visited
    requires StatsSoFar(cfg, visited, order, res0)
    ensures StatsSoFar(cfg, visited + {l}, order + [l], res)
  {
    var bb := cfg.blocks[l];
    ghost var s := InstsInOrder(cfg, order);
    ghost var j := |JoinsAmong(cfg, visited)|;
    BlockCounted(res0, |order|, j, j, s);
    res := Bump(res0, BasicBlocks);
    res := CountBlock(res, |order| + 1, j, j, s, bb.insts);
    ghost var s' := s + bb.insts;
    var joins := UniquePredecessorCount(bb);
    if joins > 1 {
      JoinCounted(res, |order| + 1, j, j, s');
      res := Bump(res, Joins);
    }
    ghost var j' := if joins > 1 then j + 1 else j;
    var jumps := UniquePredecessorCount(bb);
    if jumps > 1 {
      JumpCounted(res, |order| + 1, j', j, s');
      res := Bump(res, Jumps);
    }
    JoinsGrow(cfg, visited, l);
    InstsSnoc(cfg, order, l);
    assert forall i :: 0 <= i < |order + [l]| ==> (order + [l])[i] in cfg.blocks;
  }

  /** The visit of the blocks so far: `order` lists `visited`, each once; `todo` is the rest. */
  ghost predicate Visiting(cfg: Cfg, todo: set<Label>, visited: set<Label>, order: seq<Label>)
  {
    && todo <= cfg.blocks.Keys && visited == cfg.blocks.Keys - todo
    && (forall l :: l in visited <==> l in order)
    && (forall i, j :: 0 <= i < j < |order| ==> order[i] != order[j])
  }

  lemma VisitingStep(cfg: Cfg, todo: set<Label>, visited: set<Label>, order: seq<Label>, l: Label)
    requires Visiting(cfg, todo, visited, order) && l in todo
    ensures Visiting(cfg, todo - {l}, visited + {l}, order + [l])
  {
  }

  /**
   * collect_stats (lines 326-359): the number of blocks, of joins (and, as
   * written, of jumps, counted by the same test), of instructions per
   * category and per width, and whether any instruction is a map-in-map
   * load or a reallocating call. Blocks are visited in some order.
   */
  method CollectStats(cfg: Cfg) returns (res: map<StatKey, int>, ghost order: seq<Label>)
    ensures forall l :: l in cfg.blocks <==> l in order
    ensures forall i, j :: 0 <= i < j < |order| ==> order[i] != order[j]
    ensures forall i :: 0 <= i < |order| ==> order[i] in cfg.blocks
    ensures var j := |JoinsAmong(cfg, cfg.blocks.Keys)|;
            StatsOf(res, |cfg.blocks|, j, j, InstsInOrder(cfg, order))
  {
    res := map[];
    for i := 0 to |StatsHeaders|
      invariant forall k :: k in res <==> k in StatsHeaders[..i]
      invariant forall k :: k in res ==> res[k] == 0
    {
      res := res[StatsHeaders[i] := 0];
    }
    assert StatsHeaders[..|StatsHeaders|] == StatsHeaders;
    StatsStart(res);
    order := [];
    ghost var visited: set<Label> := {};
    var todo := cfg.blocks.Keys;
    while todo != {}
      invariant Visiting(cfg, todo, visited, order)
      invariant StatsSoFar(cfg, visited, order, res)
      decreases todo
    {
      var l :| l in todo;
      res := CountOneBlock(cfg, res, visited, order, l);
      VisitingStep(cfg, todo, visited, order, l);
      order, visited, todo := order + [l], visited + {l}, todo - {l};
    }
    VisitedAll(cfg, visited, order, res);
  }

  /** Once nothing is left, every block was counted once. */
  lemma VisitedAll(cfg: Cfg, visited: set<Label>, order: seq<Label>, res: map<StatKey, int>)
    requires Visiting(cfg, {}, visited, order) && StatsSoFar(cfg, visited, order, res)
    ensures forall i :: 0 <= i < |order| ==> order[i] in cfg.blocks
    ensures var j := |JoinsAmong(cfg, cfg.blocks.Keys)|;
            StatsOf(res, |cfg.blocks|, j, j, InstsInOrder(cfg, order))
  {
    DistinctCard(order);
    assert visited == cfg.blocks.Keys;
    assert (set l | l in order) == cfg.blocks.Keys;
  }

  /** A sequence without repetitions has as many elements as its set. */
  lemma {:induction false} DistinctCard(order: seq<Label>)
    requires forall i, j :: 0 <= i < j < |order| ==> order[i] != order[j]
    ensures |set l | l in order| == |order|
  {
    if order != [] {
      var k := |order| - 1;
      DistinctCard(order[..k]);
      assert (set l | l in order) == (set l | l in order[..k]) + {order[k]};
      assert order[k] !in order[..k];
    }
  }
}
