/**
 * The instruction kinds that affect control flow or statistics, with every
 * other kind collapsed into `OtherInstruction`. The full instruction syntax
 * (asm_syntax.hpp) is not part of this model.
 */
module Instructions {
  import opened Wrappers
  import opened Labels

  /** Condition::Op: the twelve comparison operators of a conditional jump. */
  datatype CondOp = EQ | NE | SET | NSET | LT | LE | GT | GE | SLT | SLE | SGT | SGE

  datatype Operand = Reg(index: nat) | Imm(value: int)

  datatype Condition = Condition(op: CondOp, left: nat, right: Operand, is64: bool)

  /** Bin::Op, reduced to the moves `instype` tells apart and everything else. */
  datatype BinOp = Mov | MovSx8 | MovSx16 | MovSx32 | OtherBinOp

  /** ArgSingle::Kind, reduced to ANYTHING and everything else. */
  datatype ArgSingleKind = Anything | OtherArgKind

  datatype Instruction =
    | Undefined
    | Exit(stackFramePrefix: string)
    | Jmp(cond: Option<Condition>, target: Label)
    | CallLocal(callee: Label, stackFramePrefix: string)
    | Call(isMapLookup: bool, pairCount: nat, singles: seq<ArgSingleKind>,
           reallocatePacket: bool, stackFramePrefix: string)
    | Callx
    | Mem(isLoad: bool)
    | Atomic
    | Packet
    | Bin(op: BinOp, is64: bool)
    | Un
    | LoadMapFd(mapFd: int)
    | Assume(assumed: Condition)
    | IncrementLoopCounter(counterName: Label)
    | OtherInstruction

  /** get_jump: the target of a jump, conditional or not. */
  function GetJump(ins: Instruction): (r: Option<Label>)
    ensures r.Some? <==> ins.Jmp?
    ensures r.Some? ==> r.value == ins.target
  {
    if ins.Jmp? then Some(ins.target) else None
  }

  /** has_fall: control can continue with the next instruction. */
  function HasFall(ins: Instruction): (r: bool)
    ensures r <==> !ins.Exit? && !(ins.Jmp? && ins.cond.None?)
  {
    match ins
    case Exit(_) => false
    case Jmp(cond, _) => cond.Some?
    case _ => true
  }

  /** reverse(Op): the comparison that holds exactly when `op` does not. */
  function ReverseOp(op: CondOp): CondOp
  {
    match op
    case EQ => NE
    case NE => EQ
    case GE => LT
    case LT => GE
    case SGE => SLT
    case SLT => SGE
    case LE => GT
    case GT => LE
    case SLE => SGT
    case SGT => SLE
    case SET => NSET
    case NSET => SET
  }

  /** Negation is an involution and has no fixed point. */
  lemma ReverseOpInvolution(op: CondOp)
    ensures ReverseOp(ReverseOp(op)) == op
    ensures ReverseOp(op) != op
  {
    match op
    case EQ =>
    case NE =>
    case GE =>
    case LT =>
    case SGE =>
    case SLT =>
    case LE =>
    case GT =>
    case SLE =>
    case SGT =>
    case SET =>
    case NSET =>
  }

  /** Signed comparisons negate to signed ones, unsigned to unsigned. */
  lemma ReverseOpKeepsSignedness(op: CondOp)
    ensures (op in {SLT, SLE, SGT, SGE}) <==> (ReverseOp(op) in {SLT, SLE, SGT, SGE})
  {
    match op
    case EQ =>
    case NE =>
    case GE =>
    case LT =>
    case SGE =>
    case SLT =>
    case LE =>
    case GT =>
    case SLE =>
    case SGT =>
    case SET =>
    case NSET =>
  }

  /** reverse(Condition): negate the operator, keep operands and width. */
  function Reverse(c: Condition): (r: Condition)
    ensures r.op == ReverseOp(c.op)
    ensures r.left == c.left && r.right == c.right && r.is64 == c.is64
  {
    c.(op := ReverseOp(c.op))
  }

  lemma ReverseInvolution(c: Condition)
    ensures Reverse(Reverse(c)) == c
    ensures Reverse(c) != c
  {
    ReverseOpInvolution(c.op);
  }

  /** The answers of `instype`, one per statistics category. */
  datatype Category =
    | Call1 | CallNomem | CallMem | CallxCategory | Load | Store | LoadStore
    | PacketAccess | Assign | Arith | AssumeCategory | OtherCategory

  /** The name `instype` returns for a category. */
  function CategoryName(c: Category): string
  {
    match c
    case Call1 => "call_1"
    case CallNomem => "call_nomem"
    case CallMem => "call_mem"
    case CallxCategory => "callx"
    case Load => "load"
    case Store => "store"
    case LoadStore => "load_store"
    case PacketAccess => "packet_access"
    case Assign => "assign"
    case Arith => "arith"
    case AssumeCategory => "assume"
    case OtherCategory => "other"
  }

  /** Different categories print differently, so counting by category is counting by name. */
  lemma CategoryNameInjective(a: Category, b: Category)
    ensures CategoryName(a) == CategoryName(b) ==> a == b
  {
  }

  predicate AllAnything(singles: seq<ArgSingleKind>)
  {
    forall k :: 0 <= k < |singles| ==> singles[k] == Anything
  }

  /** instype (lines 279-316): the statistics category of an instruction. */
  function CategoryOf(ins: Instruction): (r: Category)
    ensures ins.Call? <==> r in {Call1, CallNomem, CallMem}
    ensures r == Call1 <==> ins.Call? && ins.isMapLookup
    ensures r == CallNomem <==> ins.Call? && !ins.isMapLookup && ins.pairCount == 0 && AllAnything(ins.singles)
    ensures r == CallMem <==> ins.Call? && !ins.isMapLookup && !(ins.pairCount == 0 && AllAnything(ins.singles))
    ensures r == CallxCategory <==> ins.Callx?
    ensures r == Load <==> ins.Mem? && ins.isLoad
    ensures r == Store <==> ins.Mem? && !ins.isLoad
    ensures r == LoadStore <==> ins.Atomic?
    ensures r == PacketAccess <==> ins.Packet?
    ensures r == AssumeCategory <==> ins.Assume?
    ensures r == Assign <==> (ins.Bin? && ins.op in {Mov, MovSx8, MovSx16, MovSx32}) || ins.LoadMapFd?
    ensures r == Arith <==> (ins.Bin? && ins.op == OtherBinOp) || ins.Un?
    ensures r == OtherCategory <==> ins.Undefined? || ins.Exit? || ins.Jmp? || ins.CallLocal? || ins.IncrementLoopCounter? || ins.OtherInstruction?
  {
    match ins
    case Call(isMapLookup, pairCount, singles, _, _) =>
      if isMapLookup then Call1
      else if pairCount == 0 && AllAnything(singles) then CallNomem
      else CallMem
    case Callx => CallxCategory
    case Mem(isLoad) => if isLoad then Load else Store
    case Atomic => LoadStore
    case Packet => PacketAccess
    case Bin(op, _) => if op.OtherBinOp? then Arith else Assign
    case Un => Arith
    case LoadMapFd(_) => Assign
    case Assume(_) => AssumeCategory
    case _ => OtherCategory
  }

  /** instype as the source returns it, a name. */
  function InsType(ins: Instruction): string
  {
    CategoryName(CategoryOf(ins))
  }
}
