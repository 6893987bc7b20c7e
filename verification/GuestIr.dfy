/** The register-transfer IR of one guest basic block and what it means.
    The semantics are written from the x86 definitions of the operations: results are
    exact integer sums or differences reduced modulo 2^64, and the overflow flag says that
    the exact signed result does not fit. PUSH and POP take the two steps the IR's own
    definition lists, which matters when their operand is the stack pointer. */
module GuestIr {
  import opened Words

  const REG_COUNT := 16
  const RAX := 0
  const RSP := 4
  const RBP := 5

  /** Successor pc that stops the program. */
  const HALT_PC: U64 := 0xFFFF_FFFF_FFFF_FFFF

  datatype Opcode =
    | MovRR | MovRI | AddRR | SubRR | CmpRR | Load | Store
    | Br | Jmp | Ret
    | AtomicAdd | AtomicCas | Fence | SetCc
    | AddRI | SubRI | CmpRI | TestRR | XorRR | AndRR | OrRR | Lea
    | Push | Pop | Call | X86Ret
    | Unknown(code: int)

  // condition codes carried in `cc`
  const CC_EQ := 0
  const CC_NE := 1
  const CC_LT := 2
  const CC_GE := 3
  const CC_LE := 4
  const CC_GT := 5

  // fence kinds carried in `cc`
  const FENCE_LD := 1
  const FENCE_ST := 2

  // memory classes carried in `mclass`
  const CLASS_SHARED := 1

  datatype Insn = Insn(op: Opcode, rd: I32, rn: I32, imm: I64, target: U64, cc: I32, mclass: I32)

  predicate IsTerminator(op: Opcode) {
    op.Br? || op.Jmp? || op.Ret? || op.Call? || op.X86Ret?
  }

  /** LOCK ADD and LOCK CMPXCHG. */
  predicate IsAtomic(op: Opcode) {
    op.AtomicAdd? || op.AtomicCas?
  }

  predicate RegsInRange(i: Insn) {
    0 <= i.rd < REG_COUNT && 0 <= i.rn < REG_COUNT
  }

  /** The source calls a condition outside this range one that should not happen. */
  predicate CondInRange(i: Insn) {
    i.op.Br? || i.op.SetCc? ==> CC_EQ <= i.cc <= CC_GT
  }

  datatype Flags = Flags(n: bool, z: bool, v: bool)

  datatype Guest = Guest(regs: seq<U64>, mem: Memory, flags: Flags) {
    predicate Valid() { |regs| == REG_COUNT }

    function Set(r: int, v: U64): (g: Guest)
      requires Valid() && 0 <= r < REG_COUNT
      ensures g.Valid()
    {
      this.(regs := regs[r := v])
    }
  }

  function AddFlags(a: U64, b: U64): Flags {
    var r := Plus(a, b);
    Flags(Signed(r) < 0, r == 0, !FitsI64(Signed(a) + Signed(b)))
  }

  function SubFlags(a: U64, b: U64): Flags {
    var r := Minus(a, b);
    Flags(Signed(r) < 0, r == 0, !FitsI64(Signed(a) - Signed(b)))
  }

  function LogicFlags(r: U64): Flags {
    Flags(Signed(r) < 0, r == 0, false)
  }

  /** The signed and equality conditions of x86 Jcc and SETcc. */
  predicate Holds(cc: int, f: Flags) {
    if cc == CC_EQ then f.z
    else if cc == CC_NE then !f.z
    else if cc == CC_LT then f.n != f.v
    else if cc == CC_GE then f.n == f.v
    else if cc == CC_LE then f.z || f.n != f.v
    else !f.z && f.n == f.v
  }

  /** The conditions by number. */
  lemma Numbered(f: Flags)
    ensures (Holds(0, f) <==> f.z) && (Holds(1, f) <==> !f.z) && (Holds(2, f) <==> f.n != f.v)
    ensures (Holds(3, f) <==> f.n == f.v) && (Holds(4, f) <==> f.z || f.n != f.v)
    ensures (Holds(5, f) <==> !f.z && f.n == f.v)
  {
  }

  function Address(g: Guest, i: Insn): U64
    requires g.Valid() && RegsInRange(i)
  {
    Plus(g.regs[i.rn], ToU64(i.imm))
  }

  /** What one IR operation does to registers, memory and flags. */
  function Step(i: Insn, g: Guest): (g': Guest)
    requires g.Valid() && RegsInRange(i)
    ensures g'.Valid()
  {
    var a, b, k := g.regs[i.rd], g.regs[i.rn], ToU64(i.imm);
    match i.op
    case MovRR => g.Set(i.rd, b)
    case MovRI => g.Set(i.rd, k)
    case AddRR => g.Set(i.rd, Plus(a, b)).(flags := AddFlags(a, b))
    case SubRR => g.Set(i.rd, Minus(a, b)).(flags := SubFlags(a, b))
    case CmpRR => g.(flags := SubFlags(a, b))
    case Load => g.Set(i.rd, Load64(g.mem, Address(g, i)))
    case Store => g.(mem := Store64(g.mem, Address(g, i), a))
    case AtomicAdd =>
      var prior := Load64(g.mem, b);
      g.(mem := Store64(g.mem, b, Plus(prior, a)), flags := AddFlags(prior, a))
    case AtomicCas =>
      var prior := Load64(g.mem, b);
      var g1 := g.(flags := SubFlags(g.regs[RAX], prior));
      if prior == g.regs[RAX] then g1.(mem := Store64(g.mem, b, a)) else g1.Set(RAX, prior)
    case Fence => g
    case SetCc => g.Set(i.rd, if Holds(i.cc, g.flags) then 1 else 0)
    case AddRI => g.Set(i.rd, Plus(a, k)).(flags := AddFlags(a, k))
    case SubRI => g.Set(i.rd, Minus(a, k)).(flags := SubFlags(a, k))
    case CmpRI => g.(flags := SubFlags(a, k))
    case TestRR => g.(flags := LogicFlags(Logic64(And, a, b)))
    case XorRR => var r := Logic64(Xor, a, b); g.Set(i.rd, r).(flags := LogicFlags(r))
    case AndRR => var r := Logic64(And, a, b); g.Set(i.rd, r).(flags := LogicFlags(r))
    case OrRR => var r := Logic64(Or, a, b); g.Set(i.rd, r).(flags := LogicFlags(r))
    case Lea => g.Set(i.rd, Plus(b, k))
    case Push =>
      var g1 := g.Set(RSP, Minus(g.regs[RSP], 8));
      g1.(mem := Store64(g1.mem, g1.regs[RSP], g1.regs[i.rd]))
    case Pop =>
      var g1 := g.Set(i.rd, Load64(g.mem, g.regs[RSP]));
      g1.Set(RSP, Plus(g1.regs[RSP], 8))
    case Call =>
      var sp := Minus(g.regs[RSP], 8);
      g.Set(RSP, sp).(mem := Store64(g.mem, sp, k))
    case X86Ret => g.Set(RSP, Plus(g.regs[RSP], 8))
    case _ => g
  }

  /** Where control goes after a terminator that started in state `g`. */
  function Successor(i: Insn, g: Guest, fallThrough: U64): U64
    requires g.Valid() && IsTerminator(i.op)
  {
    match i.op
    case Br => if Holds(i.cc, g.flags) then i.target else fallThrough
    case X86Ret => Load64(g.mem, g.regs[RSP])
    case Ret => HALT_PC
    case _ => i.target
  }

  /** What fetching a block gives: its operations and how many guest bytes it spans. */
  datatype Fetched = Fetched(ops: seq<Insn>, len: U32)

  datatype Exit = Exit(guest: Guest, pc: U64)

  /** A block: straight-line operations and one terminator, last. */
  predicate IsBlock(ops: seq<Insn>) {
    && ops != []
    && (forall k :: 0 <= k < |ops| ==> RegsInRange(ops[k]) && CondInRange(ops[k]))
    && (forall k :: 0 <= k < |ops| ==> (IsTerminator(ops[k].op) <==> k == |ops| - 1))
  }

  /** The meaning of a block: the state it ends in and the pc it goes to. */
  function RunBlock(ops: seq<Insn>, g: Guest, fallThrough: U64): (e: Exit)
    requires IsBlock(ops) && g.Valid()
    ensures e.guest.Valid()
  {
    if |ops| == 1 then Exit(Step(ops[0], g), Successor(ops[0], g, fallThrough))
    else
      TailIsBlock(ops);
      RunBlock(ops[1..], Step(ops[0], g), fallThrough)
  }

  lemma TailIsBlock(ops: seq<Insn>)
    requires IsBlock(ops) && |ops| > 1
    ensures IsBlock(ops[1..]) && !IsTerminator(ops[0].op)
  {
    var t := ops[1..];
    forall k | 0 <= k < |t|
      ensures RegsInRange(t[k]) && CondInRange(t[k]) && (IsTerminator(t[k].op) <==> k == |t| - 1)
    {
      assert t[k] == ops[k + 1];
    }
  }
}
