/** The supported x86-64 subset: its instructions, their byte encodings with every choice the
    architecture leaves open (Intel SDM volume 2A, sections 2.1 and 2.2.1), and a reference
    interpreter for them. Nothing here refers to the decoder. */
module X86 {
  import opened Words
  import opened GuestIr

  type Reg = r: int | 0 <= r < 16
  type Bit = b: int | 0 <= b < 2
  type Cc = c: int | 0 <= c <= 5

  datatype AluOp = AddOp | SubOp | XorOp | AndOp | OrOp | CmpOp | TestOp

  /** Immediates and displacements hold their value, not their bytes. */
  datatype Instr =
    | Endbr64
    | Mov(dst: Reg, src: Reg)
    | LeaDisp(dst: Reg, base: Reg, disp: I32)
    | MovConst(dst: Reg, value: U64)
    | Alu(op: AluOp, dst: Reg, src: Reg)
    | AluConst(op: AluOp, dst: Reg, imm: I32)
    | PushReg(reg: Reg)
    | PopReg(reg: Reg)
    | CallRel(rel: I32)
    | JmpRel(rel: I32)
    | Jcc(cc: Cc, rel: I32)
    | RetNear

  predicate Ends(i: Instr) {
    i.CallRel? || i.JmpRel? || i.Jcc? || i.RetNear?
  }

  // ---- encodings ----

  /** A REX prefix, or its absence (all four bits then read as 0). */
  datatype Rex = Rex(present: bool, w: Bit, r: Bit, x: Bit, b: Bit)

  const NO_REX := Rex(false, 0, 0, 0, 0)

  /** Which of an instruction's encodings is used. */
  datatype Shape = Only | RmReg | RegRm | NoDisp | Disp8 | Disp32 | Imm8 | Imm32 | Zext32 | Imm64 | Rel8 | Rel32

  datatype Form = Form(rex: Rex, shape: Shape)

  predicate FitsI8(x: int) { -128 <= x < 128 }

  predicate RexFits(x: Rex) { x.present || x == NO_REX }

  predicate RegFits(r: Reg, high: Bit) { r / 8 == high }

  /** Whether the instruction has this encoding in the subset. REX.X is never used, REX.R is free
      when ModRM.reg holds an opcode digit, and REX.W is free where the operand size is fixed. */
  predicate CanEncode(i: Instr, f: Form) {
    && RexFits(f.rex)
    && match i
       case Endbr64 => f == Form(NO_REX, Only)
       case Mov(d, s) => f.rex.w == 1 && RegPair(d, s, f)
       case Alu(op, d, s) => f.rex.w == 1 && RegPair(d, s, f) && (f.shape.RegRm? ==> op.CmpOp?)
       case LeaDisp(d, base, disp) =>
         f.rex.w == 1 && RegFits(d, f.rex.r) && RegFits(base, f.rex.b) && base % 8 != 4 && DispFits(base, disp, f.shape)
       case MovConst(d, v) => RegFits(d, f.rex.b) && ConstFits(v, f)
       case AluConst(op, d, imm) =>
         && f.rex.w == 1 && RegFits(d, f.rex.b) && (op.AddOp? || op.SubOp? || op.CmpOp?)
         && (f.shape.Imm32? || (f.shape.Imm8? && FitsI8(imm)))
       case PushReg(r) => RegFits(r, f.rex.b) && f.shape.Only?
       case PopReg(r) => RegFits(r, f.rex.b) && f.shape.Only?
       case CallRel(rel) => f.shape.Rel32?
       case JmpRel(rel) => f.shape.Rel32? || (f.shape.Rel8? && FitsI8(rel))
       case Jcc(cc, rel) => f.shape.Rel32? || (f.shape.Rel8? && FitsI8(rel))
       case RetNear => f.shape.Only?
  }

  /** Two registers in ModRM: `MOV r/m, r` has the source in reg, `MOV r, r/m` the destination. */
  predicate RegPair(d: Reg, s: Reg, f: Form) {
    || (f.shape.RmReg? && RegFits(s, f.rex.r) && RegFits(d, f.rex.b))
    || (f.shape.RegRm? && RegFits(d, f.rex.r) && RegFits(s, f.rex.b))
  }

  predicate DispFits(base: Reg, disp: I32, shape: Shape) {
    shape.Disp32? || (shape.Disp8? && FitsI8(disp)) || (shape.NoDisp? && disp == 0 && base % 8 != 5)
  }

  /** A constant fits imm64, a sign-extended imm32, or the 32-bit form that zero-extends. */
  predicate ConstFits(v: U64, f: Form) {
    || (f.shape.Imm64? && f.rex.w == 1)
    || (f.shape.Imm32? && f.rex.w == 1 && -TWO_31 <= Signed(v) < TWO_31)
    || (f.shape.Zext32? && f.rex.w == 0 && v < TWO_32)
  }

  function Byte(x: int): U8
    requires FitsI8(x)
  {
    if x < 0 then x + 0x100 else x
  }

  function Word32(x: I32): U32 {
    if x < 0 then x + TWO_32 else x
  }

  /** ModRM with mod 3. */
  function Direct(reg: int, rm: int): U8 {
    0xC0 + reg % 8 * 8 + rm % 8
  }

  function AluOpcode(op: AluOp): U8 {
    match op
    case AddOp => 0x01
    case SubOp => 0x29
    case XorOp => 0x31
    case AndOp => 0x21
    case OrOp => 0x09
    case CmpOp => 0x39
    case TestOp => 0x85
  }

  function AluDigit(op: AluOp): int {
    match op
    case AddOp => 0
    case SubOp => 5
    case _ => 7
  }

  /** The condition field of Jcc. */
  function Tttn(cc: Cc): int {
    if cc == CC_EQ then 0x4
    else if cc == CC_NE then 0x5
    else if cc == CC_LT then 0xC
    else if cc == CC_GE then 0xD
    else if cc == CC_LE then 0xE
    else 0xF
  }

  function RexBytes(x: Rex): seq<U8> {
    if x.present then [0x40 + 8 * x.w + 4 * x.r + 2 * x.x + x.b] else []
  }

  function LeaBytes(d: Reg, base: Reg, disp: I32, shape: Shape): seq<U8>
    requires DispFits(base, disp, shape)
  {
    var m := d % 8 * 8 + base % 8;
    if shape.Disp32? then [0x8D, 0x80 + m] + Le32(Word32(disp))
    else if shape.Disp8? then [0x8D, 0x40 + m, Byte(disp)]
    else [0x8D, m]
  }

  /** The encoding after the prefix. */
  function Tail(i: Instr, f: Form): (s: seq<U8>)
    requires CanEncode(i, f)
    ensures 1 <= |s| <= 9
  {
    match i
    case Endbr64 => [0xF3, 0x0F, 0x1E, 0xFA]
    case Mov(d, s) => if f.shape.RmReg? then [0x89, Direct(s, d)] else [0x8B, Direct(d, s)]
    case Alu(op, d, s) => if f.shape.RmReg? then [AluOpcode(op), Direct(s, d)] else [0x3B, Direct(d, s)]
    case LeaDisp(d, base, disp) => LeaBytes(d, base, disp, f.shape)
    case MovConst(d, v) =>
      if f.shape.Imm64? then [0xB8 + d % 8] + Le64(v)
      else if f.shape.Imm32? then [0xC7, Direct(0, d)] + Le32(Word32(Signed(v)))
      else [0xB8 + d % 8] + Le32(v)
    case AluConst(op, d, imm) =>
      if f.shape.Imm8? then [0x83, Direct(AluDigit(op), d), Byte(imm)]
      else [0x81, Direct(AluDigit(op), d)] + Le32(Word32(imm))
    case PushReg(r) => [0x50 + r % 8]
    case PopReg(r) => [0x58 + r % 8]
    case CallRel(rel) => [0xE8] + Le32(Word32(rel))
    case JmpRel(rel) => if f.shape.Rel8? then [0xEB, Byte(rel)] else [0xE9] + Le32(Word32(rel))
    case Jcc(cc, rel) =>
      if f.shape.Rel8? then [0x70 + Tttn(cc), Byte(rel)] else [0x0F, 0x80 + Tttn(cc)] + Le32(Word32(rel))
    case RetNear => [0xC3]
  }

  function Bytes(i: Instr, f: Form): (s: seq<U8>)
    requires CanEncode(i, f)
    ensures 1 <= |s| <= 10
  {
    RexBytes(f.rex) + Tail(i, f)
  }

  // ---- the reference interpreter ----

  /** The stack pointer's register number. */
  const STACK: Reg := 4

  function AluValue(op: AluOp, a: U64, b: U64): U64 {
    match op
    case AddOp => Plus(a, b)
    case SubOp => Minus(a, b)
    case CmpOp => Minus(a, b)
    case XorOp => Logic64(Xor, a, b)
    case AndOp => Logic64(And, a, b)
    case TestOp => Logic64(And, a, b)
    case OrOp => Logic64(Or, a, b)
  }

  /** SF and ZF of the result; OF of a sum or difference, cleared by the logical operations. */
  function AluFlags(op: AluOp, a: U64, b: U64): Flags {
    var r := AluValue(op, a, b);
    var exact := if op.AddOp? then Signed(a) + Signed(b) else Signed(a) - Signed(b);
    Flags(Signed(r) < 0, r == 0, (op.AddOp? || op.SubOp? || op.CmpOp?) && !FitsI64(exact))
  }

  function ExecAlu(op: AluOp, dst: Reg, b: U64, g: Guest): (g': Guest)
    requires g.Valid()
    ensures g'.Valid()
  {
    var a := g.regs[dst];
    var g1 := g.(flags := AluFlags(op, a, b));
    if op.CmpOp? || op.TestOp? then g1 else g1.Set(dst, AluValue(op, a, b))
  }

  /** PUSH stores the operand as it was before the decrement. */
  function PushValue(g: Guest, v: U64): (g': Guest)
    requires g.Valid()
    ensures g'.Valid()
  {
    var sp := Minus(g.regs[STACK], 8);
    g.Set(STACK, sp).(mem := Store64(g.mem, sp, v))
  }

  /** One instruction; `next` is the address of the instruction behind it. */
  function Exec(i: Instr, g: Guest, next: U64): (e: Exit)
    requires g.Valid()
    ensures e.guest.Valid()
  {
    match i
    case Endbr64 => Exit(g, next)
    case Mov(d, s) => Exit(g.Set(d, g.regs[s]), next)
    case LeaDisp(d, base, disp) => Exit(g.Set(d, Plus(g.regs[base], ToU64(disp))), next)
    case MovConst(d, v) => Exit(g.Set(d, v), next)
    case Alu(op, d, s) => Exit(ExecAlu(op, d, g.regs[s], g), next)
    case AluConst(op, d, imm) => Exit(ExecAlu(op, d, ToU64(imm), g), next)
    case PushReg(r) => Exit(PushValue(g, g.regs[r]), next)
    // the pointer moves before the destination is written, so POP RSP keeps the loaded value
    case PopReg(r) => Exit(g.Set(STACK, Plus(g.regs[STACK], 8)).Set(r, Load64(g.mem, g.regs[STACK])), next)
    case CallRel(rel) => Exit(PushValue(g, next), Plus(next, ToU64(rel)))
    case JmpRel(rel) => Exit(g, Plus(next, ToU64(rel)))
    case Jcc(cc, rel) => Exit(g, if Holds(cc, g.flags) then Plus(next, ToU64(rel)) else next)
    case RetNear => Exit(g.Set(STACK, Plus(g.regs[STACK], 8)), Load64(g.mem, g.regs[STACK]))
  }

  // ---- straight runs of instructions ----

  datatype Coded = Coded(insn: Instr, form: Form)

  type Item = c: Coded | CanEncode(c.insn, c.form) witness Coded(RetNear, Form(NO_REX, Only))

  function ItemBytes(c: Item): (s: seq<U8>)
    ensures 1 <= |s| <= 10
  {
    Bytes(c.insn, c.form)
  }

  /** Interpreting a block placed at `pc`. */
  function Interpret(items: seq<Item>, g: Guest, pc: U64): (e: Exit)
    requires g.Valid()
    ensures e.guest.Valid()
  {
    if items == [] then Exit(g, pc)
    else
      var e := Exec(items[0].insn, g, Plus(pc, |ItemBytes(items[0])|));
      Interpret(items[1..], e.guest, e.pc)
  }
}
