/** The x86-64 decoder: one instruction, and the loop that decodes a basic block into IR. */
module Decoder {
  import opened Words
  import opened Errors
  import opened GuestIr
  import opened X86

  function Sx8(b: U8): I32 {
    if b < 0x80 then b else b - 0x100
  }

  function Sx32(v: U32): I32 {
    if v < TWO_31 then v else v - TWO_32
  }

  function RexOf(b: U8): Rex {
    Rex(true, b / 8 % 2, b / 4 % 2, b / 2 % 2, b % 2)
  }

  /** Jcc conditions outside the signed and equality set are not supported. */
  function CondOf(tttn: int): Result<Cc> {
    match tttn
    case 0x4 => Ok(CC_EQ)
    case 0x5 => Ok(CC_NE)
    case 0xC => Ok(CC_LT)
    case 0xD => Ok(CC_GE)
    case 0xE => Ok(CC_LE)
    case 0xF => Ok(CC_GT)
    case _ => Err(Unsupported)
  }

  /** `size` counts the ModRM byte and the displacement. */
  datatype Modrm = Modrm(reg: Reg, isMem: bool, rm: Reg, disp: I32, size: nat)

  /** The ModRM byte behind the opcode; `t` starts at the opcode. */
  function DecodeModrm(t: seq<U8>, x: Rex): Result<Modrm> {
    if |t| < 2 then Err(Format)
    else
      var mod, reg, rm := t[1] / 64, t[1] / 8 % 8 + 8 * x.r, t[1] % 8;
      if mod == 3 then Ok(Modrm(reg, false, rm + 8 * x.b, 0, 1))
      else if rm == 4 || (rm == 5 && mod == 0) then Err(Unsupported)
      else if mod == 1 then
        if |t| < 3 then Err(Format) else Ok(Modrm(reg, true, rm + 8 * x.b, Sx8(t[2]), 2))
      else if mod == 2 then
        if |t| < 6 then Err(Format) else Ok(Modrm(reg, true, rm + 8 * x.b, Sx32(Get32(t[2..6])), 5))
      else Ok(Modrm(reg, true, rm + 8 * x.b, 0, 1))
  }

  datatype Parsed = Parsed(insn: Instr, form: Form, size: nat)

  predicate IsAlu(op: U8) {
    op in {0x01, 0x29, 0x31, 0x21, 0x09, 0x39, 0x85}
  }

  function AluOf(op: U8): AluOp {
    match op
    case 0x01 => AddOp
    case 0x29 => SubOp
    case 0x31 => XorOp
    case 0x21 => AndOp
    case 0x09 => OrOp
    case 0x39 => CmpOp
    case _ => TestOp
  }

  /** MOV, the ALU operations and both directions of CMP between two registers. */
  function ParseRegs(t: seq<U8>, x: Rex): Result<Parsed>
    requires |t| >= 1
  {
    var m := DecodeModrm(t, x);
    if m.Err? then Err(m.error)
    else if m.value.isMem || x.w == 0 then Err(Unsupported)
    else
      var reg, rm := m.value.reg, m.value.rm;
      Ok(if t[0] == 0x89 then Parsed(Mov(rm, reg), Form(x, RmReg), 2)
         else if t[0] == 0x8B then Parsed(Mov(reg, rm), Form(x, RegRm), 2)
         else if t[0] == 0x3B then Parsed(Alu(CmpOp, reg, rm), Form(x, RegRm), 2)
         else Parsed(Alu(AluOf(t[0]), rm, reg), Form(x, RmReg), 2))
  }

  function ParseLea(t: seq<U8>, x: Rex): Result<Parsed> {
    var m := DecodeModrm(t, x);
    if m.Err? then Err(m.error)
    else if !m.value.isMem || x.w == 0 then Err(Unsupported)
    else
      var shape := if m.value.size == 1 then NoDisp else if m.value.size == 2 then Disp8 else Disp32;
      Ok(Parsed(LeaDisp(m.value.reg, m.value.rm, m.value.disp), Form(x, shape), 1 + m.value.size))
  }

  /** MOV r/m, imm32: opcode C7 /0. */
  function ParseMovSigned(t: seq<U8>, x: Rex): Result<Parsed> {
    var m := DecodeModrm(t, x);
    if m.Err? then Err(m.error)
    else if m.value.isMem || x.w == 0 || m.value.reg % 8 != 0 then Err(Unsupported)
    else if |t| < 6 then Err(Format)
    else Ok(Parsed(MovConst(m.value.rm, ToU64(Sx32(Get32(t[2..6])))), Form(x, Imm32), 6))
  }

  function GroupOf(digit: int): Result<AluOp> {
    if digit == 0 then Ok(AddOp)
    else if digit == 5 then Ok(SubOp)
    else if digit == 7 then Ok(CmpOp)
    else Err(Unsupported)
  }

  /** Group 1 with a sign-extended immediate: opcodes 83 and 81. */
  function ParseGroup(t: seq<U8>, x: Rex): Result<Parsed>
    requires |t| >= 1
  {
    var m := DecodeModrm(t, x);
    if m.Err? then Err(m.error)
    else if m.value.isMem || x.w == 0 then Err(Unsupported)
    else if |t| < (if t[0] == 0x83 then 3 else 6) then Err(Format)
    else
      var op := GroupOf(m.value.reg % 8);
      if op.Err? then Err(op.error)
      else if t[0] == 0x83 then Ok(Parsed(AluConst(op.value, m.value.rm, Sx8(t[2])), Form(x, Imm8), 3))
      else Ok(Parsed(AluConst(op.value, m.value.rm, Sx32(Get32(t[2..6]))), Form(x, Imm32), 6))
  }

  /** MOV r, imm: opcodes B8 to BF; without REX.W the immediate zero-extends. */
  function ParseMovConst(t: seq<U8>, x: Rex): Result<Parsed>
    requires |t| >= 1 && 0xB8 <= t[0] <= 0xBF
  {
    var reg := t[0] - 0xB8 + 8 * x.b;
    if x.w == 1 then
      if |t| < 9 then Err(Format) else Ok(Parsed(MovConst(reg, Get64(t[1..9])), Form(x, Imm64), 9))
    else
      if |t| < 5 then Err(Format) else Ok(Parsed(MovConst(reg, Get32(t[1..5])), Form(x, Zext32), 5))
  }

  /** CALL and JMP. */
  function ParseJump(t: seq<U8>, x: Rex): Result<Parsed>
    requires |t| >= 1
  {
    if t[0] == 0xEB then
      if |t| < 2 then Err(Format) else Ok(Parsed(JmpRel(Sx8(t[1])), Form(x, Rel8), 2))
    else if |t| < 5 then Err(Format)
    else
      var rel := Sx32(Get32(t[1..5]));
      Ok(Parsed(if t[0] == 0xE8 then CallRel(rel) else JmpRel(rel), Form(x, Rel32), 5))
  }

  /** Jcc rel8 (70 to 7F) and rel32 (0F 80 to 0F 8F). */
  function ParseJcc(t: seq<U8>, x: Rex): Result<Parsed>
    requires |t| >= 1
  {
    if |t| < 2 then Err(Format)
    else if t[0] != 0x0F then
      var cc := CondOf(t[0] % 16);
      if cc.Err? then Err(cc.error) else Ok(Parsed(Jcc(cc.value, Sx8(t[1])), Form(x, Rel8), 2))
    else if !(0x80 <= t[1] <= 0x8F) then Err(Unsupported)
    else if |t| < 6 then Err(Format)
    else
      var cc := CondOf(t[1] % 16);
      if cc.Err? then Err(cc.error) else Ok(Parsed(Jcc(cc.value, Sx32(Get32(t[2..6]))), Form(x, Rel32), 6))
  }

  /** The opcode switch; `t` starts at the opcode. */
  function ParseOp(t: seq<U8>, x: Rex): Result<Parsed> {
    if |t| < 1 then Err(Format)
    else
      var op := t[0];
      if op == 0x89 || op == 0x8B || op == 0x3B || IsAlu(op) then ParseRegs(t, x)
      else if op == 0x8D then ParseLea(t, x)
      else if op == 0xC7 then ParseMovSigned(t, x)
      else if op == 0x83 || op == 0x81 then ParseGroup(t, x)
      else if 0xB8 <= op <= 0xBF then ParseMovConst(t, x)
      else if 0x50 <= op <= 0x57 then Ok(Parsed(PushReg(op - 0x50 + 8 * x.b), Form(x, Only), 1))
      else if 0x58 <= op <= 0x5F then Ok(Parsed(PopReg(op - 0x58 + 8 * x.b), Form(x, Only), 1))
      else if op == 0xE8 || op == 0xE9 || op == 0xEB then ParseJump(t, x)
      else if 0x70 <= op <= 0x7F || op == 0x0F then ParseJcc(t, x)
      else if op == 0xC3 then Ok(Parsed(RetNear, Form(x, Only), 1))
      else Err(Unsupported)
  }

  predicate StartsEndbr(s: seq<U8>) {
    |s| >= 4 && s[0] == 0xF3 && s[1] == 0x0F && s[2] == 0x1E && s[3] == 0xFA
  }

  predicate IsRexByte(b: U8) {
    0x40 <= b <= 0x4F
  }

  /** One instruction at the start of the remaining bytes. */
  function Parse(s: seq<U8>): Result<Parsed> {
    if |s| < 1 then Err(Format)
    else if StartsEndbr(s) then Ok(Parsed(Endbr64, Form(NO_REX, Only), 4))
    else if IsRexByte(s[0]) then
      var p := ParseOp(s[1..], RexOf(s[0]));
      if p.Err? then p else Ok(p.value.(size := p.value.size + 1))
    else ParseOp(s, NO_REX)
  }

  // ---- parsing undoes encoding ----

  lemma Sx8OfByte(x: int)
    requires FitsI8(x)
    ensures Sx8(Byte(x)) == x
  {
  }

  lemma DirectSplits(reg: Reg, rm: Reg)
    ensures Direct(reg, rm) / 64 == 3 && Direct(reg, rm) / 8 % 8 == reg % 8 && Direct(reg, rm) % 8 == rm % 8
  {
  }

  lemma DirectModrm(t: seq<U8>, x: Rex, reg: Reg, rm: Reg)
    requires |t| >= 2 && t[1] == Direct(reg, rm) && RegFits(rm, x.b)
    ensures DecodeModrm(t, x) == Ok(Modrm(reg % 8 + 8 * x.r, false, rm, 0, 1))
    ensures RegFits(reg, x.r) ==> reg % 8 + 8 * x.r == reg
  {
    DirectSplits(reg, rm);
  }

  lemma TailOfMov(i: Instr, f: Form, rest: seq<U8>)
    requires i.Mov? && CanEncode(i, f)
    ensures ParseOp(Tail(i, f) + rest, f.rex) == Ok(Parsed(i, f, 2))
  {
    var t := Tail(i, f) + rest;
    if f.shape.RmReg? {
      DirectModrm(t, f.rex, i.src, i.dst);
    } else {
      DirectModrm(t, f.rex, i.dst, i.src);
    }
  }

  lemma AluOpcodes(op: AluOp)
    ensures IsAlu(AluOpcode(op)) && AluOf(AluOpcode(op)) == op
  {
  }

  lemma TailOfAlu(i: Instr, f: Form, rest: seq<U8>)
    requires i.Alu? && CanEncode(i, f)
    ensures ParseOp(Tail(i, f) + rest, f.rex) == Ok(Parsed(i, f, 2))
  {
    var t := Tail(i, f) + rest;
    if f.shape.RmReg? {
      AluOpcodes(i.op);
      DirectModrm(t, f.rex, i.src, i.dst);
    } else {
      DirectModrm(t, f.rex, i.dst, i.src);
    }
  }

  lemma Field32(t: seq<U8>, at: nat, v: U32)
    requires at + 4 <= |t| && t[at..at + 4] == Le32(v)
    ensures Get32(t[at..at + 4]) == v
  {
    FieldRoundTrips(0, v, 0);
  }

  lemma Signed32Field(pre: seq<U8>, v: I32, rest: seq<U8>)
    ensures Sx32(Get32((pre + Le32(Word32(v)) + rest)[|pre|..|pre| + 4])) == v
  {
    var t := pre + Le32(Word32(v)) + rest;
    assert t[|pre|..|pre| + 4] == Le32(Word32(v));
    Field32(t, |pre|, Word32(v));
  }

  lemma MemorySplits(mod: int, reg: Reg, rm: Reg)
    requires 0 <= mod < 3
    ensures var b := 0x40 * mod + (reg % 8 * 8 + rm % 8);
            b / 64 == mod && b / 8 % 8 == reg % 8 && b % 8 == rm % 8
  {
  }

  lemma LeaParses(t: seq<U8>, x: Rex, mod: int, d: Reg, base: Reg, disp: I32)
    requires 0 <= mod < 3 && |t| >= (if mod == 0 then 2 else if mod == 1 then 3 else 6)
    requires t[1] == 0x40 * mod + (d % 8 * 8 + base % 8) && x.w == 1 && RegFits(d, x.r) && RegFits(base, x.b)
    requires base % 8 != 4 && (mod == 0 ==> base % 8 != 5)
    requires disp == if mod == 0 then 0 else if mod == 1 then Sx8(t[2]) else Sx32(Get32(t[2..6]))
    ensures ParseLea(t, x) == Ok(Parsed(LeaDisp(d, base, disp),
                                        Form(x, if mod == 0 then NoDisp else if mod == 1 then Disp8 else Disp32),
                                        if mod == 0 then 2 else if mod == 1 then 3 else 6))
  {
    MemorySplits(mod, d, base);
  }

  lemma TailOfLea(i: Instr, f: Form, rest: seq<U8>)
    requires i.LeaDisp? && CanEncode(i, f)
    ensures ParseOp(Tail(i, f) + rest, f.rex) == Ok(Parsed(i, f, |Tail(i, f)|))
  {
    var t, m := LeaBytes(i.dst, i.base, i.disp, f.shape) + rest, i.dst % 8 * 8 + i.base % 8;
    if f.shape.Disp32? {
      Signed32Field([0x8D, 0x80 + m], i.disp, rest);
      LeaParses(t, f.rex, 2, i.dst, i.base, i.disp);
    } else if f.shape.Disp8? {
      Sx8OfByte(i.disp);
      LeaParses(t, f.rex, 1, i.dst, i.base, i.disp);
    } else {
      LeaParses(t, f.rex, 0, i.dst, i.base, i.disp);
    }
  }

  lemma TailOfMovSigned(i: Instr, f: Form, rest: seq<U8>)
    requires i.MovConst? && f.shape.Imm32? && CanEncode(i, f)
    ensures ParseOp(Tail(i, f) + rest, f.rex) == Ok(Parsed(i, f, |Tail(i, f)|))
  {
    DirectModrm(Tail(i, f) + rest, f.rex, 0, i.dst);
    Signed32Field([0xC7, Direct(0, i.dst)], Signed(i.value), rest);
  }

  lemma TailOfMovWide(i: Instr, f: Form, rest: seq<U8>)
    requires i.MovConst? && !f.shape.Imm32? && CanEncode(i, f)
    ensures ParseOp(Tail(i, f) + rest, f.rex) == Ok(Parsed(i, f, |Tail(i, f)|))
  {
    var t := Tail(i, f) + rest;
    if f.shape.Imm64? {
      assert t[1..9] == Le64(i.value);
      FieldRoundTrips(0, 0, i.value);
    } else {
      assert t[1..5] == Le32(i.value);
      FieldRoundTrips(0, i.value, 0);
    }
  }

  lemma TailOfAluConst(i: Instr, f: Form, rest: seq<U8>)
    requires i.AluConst? && CanEncode(i, f)
    ensures ParseOp(Tail(i, f) + rest, f.rex) == Ok(Parsed(i, f, |Tail(i, f)|))
  {
    var t := Tail(i, f) + rest;
    DirectModrm(t, f.rex, AluDigit(i.op), i.dst);
    if f.shape.Imm32? {
      Signed32Field([0x81, Direct(AluDigit(i.op), i.dst)], i.imm, rest);
    } else {
      Sx8OfByte(i.imm);
    }
  }

  lemma CondOfTttn(cc: Cc)
    ensures 0 <= Tttn(cc) < 16 && CondOf(Tttn(cc)) == Ok(cc)
  {
  }

  lemma TailOfJump(i: Instr, f: Form, rest: seq<U8>)
    requires (i.CallRel? || i.JmpRel?) && CanEncode(i, f)
    ensures ParseOp(Tail(i, f) + rest, f.rex) == Ok(Parsed(i, f, |Tail(i, f)|))
  {
    if f.shape.Rel32? {
      Signed32Field([if i.CallRel? then 0xE8 else 0xE9], i.rel, rest);
    } else {
      Sx8OfByte(i.rel);
    }
  }

  lemma TailOfJcc(i: Instr, f: Form, rest: seq<U8>)
    requires i.Jcc? && CanEncode(i, f)
    ensures ParseOp(Tail(i, f) + rest, f.rex) == Ok(Parsed(i, f, |Tail(i, f)|))
  {
    CondOfTttn(i.cc);
    if f.shape.Rel32? {
      Signed32Field([0x0F, 0x80 + Tttn(i.cc)], i.rel, rest);
    } else {
      Sx8OfByte(i.rel);
    }
  }

  lemma TailOfStack(i: Instr, f: Form, rest: seq<U8>)
    requires (i.PushReg? || i.PopReg? || i.RetNear?) && CanEncode(i, f)
    ensures ParseOp(Tail(i, f) + rest, f.rex) == Ok(Parsed(i, f, 1))
  {
    assert (Tail(i, f) + rest)[0] == Tail(i, f)[0];
  }

  lemma TailParses(i: Instr, f: Form, rest: seq<U8>)
    requires CanEncode(i, f) && !i.Endbr64?
    ensures ParseOp(Tail(i, f) + rest, f.rex) == Ok(Parsed(i, f, |Tail(i, f)|))
  {
    match i
    case Mov(_, _) => TailOfMov(i, f, rest);
    case Alu(_, _, _) => TailOfAlu(i, f, rest);
    case LeaDisp(_, _, _) => TailOfLea(i, f, rest);
    case MovConst(_, _) => if f.shape.Imm32? { TailOfMovSigned(i, f, rest); } else { TailOfMovWide(i, f, rest); }
    case AluConst(_, _, _) => TailOfAluConst(i, f, rest);
    case CallRel(_) => TailOfJump(i, f, rest);
    case JmpRel(_) => TailOfJump(i, f, rest);
    case Jcc(_, _) => TailOfJcc(i, f, rest);
    case _ => TailOfStack(i, f, rest);
  }

  lemma TailStart(i: Instr, f: Form)
    requires CanEncode(i, f) && !i.Endbr64?
    ensures !IsRexByte(Tail(i, f)[0]) && Tail(i, f)[0] != 0xF3
  {
    if i.Jcc? {
      CondOfTttn(i.cc);
    }
  }

  lemma RexOfRex(x: Rex)
    requires x.present
    ensures IsRexByte(RexBytes(x)[0]) && RexOf(RexBytes(x)[0]) == x
  {
  }

  lemma BehindPrefix(x: Rex, tail: seq<U8>, rest: seq<U8>)
    requires RexFits(x)
    ensures var s := RexBytes(x) + tail + rest;
            if x.present then s[1..] == tail + rest && IsRexByte(s[0]) && RexOf(s[0]) == x else s == tail + rest
  {
    if x.present {
      RexOfRex(x);
    }
  }

  /** Every encoding of every supported instruction parses to it, whatever follows. */
  lemma ParseOfBytes(i: Instr, f: Form, rest: seq<U8>)
    requires CanEncode(i, f)
    ensures Parse(Bytes(i, f) + rest) == Ok(Parsed(i, f, |Bytes(i, f)|))
  {
    var s := Bytes(i, f) + rest;
    if !i.Endbr64? {
      TailParses(i, f, rest);
      TailStart(i, f);
      BehindPrefix(f.rex, Tail(i, f), rest);
    }
  }

  // ---- what parses is an encoding ----

  /** The parse result `p` says exactly which bytes were read and which encoding they are. */
  ghost predicate Reads(p: Parsed, t: seq<U8>, x: Rex) {
    && p.form.rex == x && CanEncode(p.insn, p.form) && !p.insn.Endbr64?
    && p.size <= |t| && t[..p.size] == Tail(p.insn, p.form)
  }

  lemma ModrmReads(t: seq<U8>, x: Rex)
    requires DecodeModrm(t, x).Ok?
    ensures var m := DecodeModrm(t, x).value;
            RegFits(m.reg, x.r) && RegFits(m.rm, x.b) && (!m.isMem ==> m.size == 1 && t[1] == Direct(m.reg, m.rm))
  {
  }

  lemma AluOfOpcode(op: U8)
    requires IsAlu(op)
    ensures AluOpcode(AluOf(op)) == op
  {
  }

  lemma RegsRead(t: seq<U8>, x: Rex)
    requires RexFits(x) && |t| >= 1 && (t[0] == 0x89 || t[0] == 0x8B || t[0] == 0x3B || IsAlu(t[0]))
    requires ParseRegs(t, x).Ok?
    ensures Reads(ParseRegs(t, x).value, t, x)
  {
    ModrmReads(t, x);
    assert t[..2] == [t[0], t[1]];
    if IsAlu(t[0]) {
      AluOfOpcode(t[0]);
    }
  }

  lemma Unfield32(t: seq<U8>, at: nat)
    requires at + 4 <= |t|
    ensures Le32(Word32(Sx32(Get32(t[at..at + 4])))) == t[at..at + 4]
    ensures Le32(Get32(t[at..at + 4])) == t[at..at + 4]
  {
    LeOfFromLe(t[at..at + 4]);
  }

  lemma MemoryModrm(t: seq<U8>, x: Rex)
    requires DecodeModrm(t, x).Ok? && DecodeModrm(t, x).value.isMem
    ensures var m := DecodeModrm(t, x).value;
            && t[1] == (if m.size == 1 then 0 else if m.size == 2 then 0x40 else 0x80) + (m.reg % 8 * 8 + m.rm % 8)
            && m.rm % 8 != 4 && (m.size == 1 ==> m.disp == 0 && m.rm % 8 != 5)
            && (m.size == 2 ==> |t| >= 3 && FitsI8(m.disp) && Byte(m.disp) == t[2])
            && (m.size != 1 && m.size != 2 ==> m.size == 5 && |t| >= 6 && m.disp == Sx32(Get32(t[2..6])))
  {
    ByteJoins(t[1]);
    RegJoins(t[1] / 8 % 8, x.r);
    RegJoins(t[1] % 8, x.b);
  }

  lemma ByteJoins(b: U8)
    ensures 0 <= b / 64 < 4 && b == 0x40 * (b / 64) + (b / 8 % 8 * 8 + b % 8)
  {
  }

  lemma RegJoins(low: int, high: Bit)
    requires 0 <= low < 8
    ensures (low + 8 * high) % 8 == low
  {
  }

  lemma LeaReads(t: seq<U8>, x: Rex)
    requires RexFits(x) && |t| >= 1 && t[0] == 0x8D && ParseLea(t, x).Ok?
    ensures Reads(ParseLea(t, x).value, t, x)
  {
    ModrmReads(t, x);
    MemoryModrm(t, x);
    var m := DecodeModrm(t, x).value;
    if m.size == 5 {
      Unfield32(t, 2);
      assert t[..6] == [t[0], t[1]] + t[2..6];
    } else if m.size == 2 {
      assert t[..3] == [t[0], t[1], t[2]];
    } else {
      assert t[..2] == [t[0], t[1]];
    }
  }

  lemma MovSignedReads(t: seq<U8>, x: Rex)
    requires RexFits(x) && |t| >= 1 && t[0] == 0xC7 && ParseMovSigned(t, x).Ok?
    ensures Reads(ParseMovSigned(t, x).value, t, x)
  {
    ModrmReads(t, x);
    Unfield32(t, 2);
    assert t[..6] == [t[0], t[1]] + t[2..6];
  }

  lemma GroupReads(t: seq<U8>, x: Rex)
    requires RexFits(x) && |t| >= 1 && (t[0] == 0x83 || t[0] == 0x81) && ParseGroup(t, x).Ok?
    ensures Reads(ParseGroup(t, x).value, t, x)
  {
    ModrmReads(t, x);
    if t[0] == 0x83 {
      assert t[..3] == [t[0], t[1], t[2]];
    } else {
      Unfield32(t, 2);
      assert t[..6] == [t[0], t[1]] + t[2..6];
    }
  }

  lemma MovConstReads(t: seq<U8>, x: Rex)
    requires RexFits(x) && |t| >= 1 && 0xB8 <= t[0] <= 0xBF && ParseMovConst(t, x).Ok?
    ensures Reads(ParseMovConst(t, x).value, t, x)
  {
    if x.w == 1 {
      LeOfFromLe(t[1..9]);
      assert t[..9] == [t[0]] + t[1..9];
    } else {
      Unfield32(t, 1);
      assert t[..5] == [t[0]] + t[1..5];
    }
  }

  lemma JumpReads(t: seq<U8>, x: Rex)
    requires RexFits(x) && |t| >= 1 && (t[0] == 0xE8 || t[0] == 0xE9 || t[0] == 0xEB) && ParseJump(t, x).Ok?
    ensures Reads(ParseJump(t, x).value, t, x)
  {
    if t[0] == 0xEB {
      assert t[..2] == [t[0], t[1]];
    } else {
      Unfield32(t, 1);
      assert t[..5] == [t[0]] + t[1..5];
    }
  }

  lemma TttnOfCond(c: int)
    requires CondOf(c).Ok?
    ensures Tttn(CondOf(c).value) == c
  {
  }

  lemma JccReads(t: seq<U8>, x: Rex)
    requires RexFits(x) && |t| >= 1 && (0x70 <= t[0] <= 0x7F || t[0] == 0x0F) && ParseJcc(t, x).Ok?
    ensures Reads(ParseJcc(t, x).value, t, x)
  {
    if t[0] == 0x0F {
      TttnOfCond(t[1] % 16);
      Unfield32(t, 2);
      assert t[..6] == [t[0], t[1]] + t[2..6];
    } else {
      TttnOfCond(t[0] % 16);
      assert t[..2] == [t[0], t[1]];
    }
  }

  lemma OpReads(t: seq<U8>, x: Rex)
    requires RexFits(x) && ParseOp(t, x).Ok?
    ensures Reads(ParseOp(t, x).value, t, x)
  {
    var op := t[0];
    if op == 0x89 || op == 0x8B || op == 0x3B || IsAlu(op) { RegsRead(t, x); }
    else if op == 0x8D { LeaReads(t, x); }
    else if op == 0xC7 { MovSignedReads(t, x); }
    else if op == 0x83 || op == 0x81 { GroupReads(t, x); }
    else if 0xB8 <= op <= 0xBF { MovConstReads(t, x); }
    else if op == 0xE8 || op == 0xE9 || op == 0xEB { JumpReads(t, x); }
    else if 0x70 <= op <= 0x7F || op == 0x0F { JccReads(t, x); }
    else { assert t[..1] == [t[0]]; }
  }

  lemma RexRead(b: U8)
    requires IsRexByte(b)
    ensures RexBytes(RexOf(b)) == [b]
  {
  }

  lemma PrefixReads(s: seq<U8>, p: Parsed)
    requires |s| >= 1 && IsRexByte(s[0]) && Reads(p, s[1..], RexOf(s[0]))
    ensures p.size + 1 <= |s| && s[..p.size + 1] == Bytes(p.insn, p.form)
  {
    RexRead(s[0]);
    assert s[..p.size + 1] == [s[0]] + s[1..][..p.size];
  }

  /** Whatever parses is the encoding it is reported to be, byte for byte. */
  lemma BytesOfParse(s: seq<U8>)
    requires Parse(s).Ok?
    ensures var p := Parse(s).value;
            CanEncode(p.insn, p.form) && p.size <= |s| && s[..p.size] == Bytes(p.insn, p.form)
  {
    if StartsEndbr(s) {
      assert s[..4] == [s[0], s[1], s[2], s[3]];
    } else if IsRexByte(s[0]) {
      OpReads(s[1..], RexOf(s[0]));
      PrefixReads(s, ParseOp(s[1..], RexOf(s[0])).value);
    } else {
      OpReads(s, NO_REX);
    }
  }

  // ---- which error ----

  /** Ten bytes, the length of REX.W MOV with a 64-bit immediate, are always enough to tell, and nine
      are not. */
  lemma EnoughBytes(s: seq<U8>)
    ensures |s| >= 10 ==> Parse(s) != Err(Format)
    ensures Parse([0x48, 0xB8, 0, 0, 0, 0, 0, 0, 0]) == Err(Format)
  {
  }

  lemma ModrmExtends(t: seq<U8>, x: Rex, more: seq<U8>)
    requires DecodeModrm(t, x) != Err(Format)
    ensures DecodeModrm(t + more, x) == DecodeModrm(t, x)
  {
    if |t| >= 6 {
      assert (t + more)[2..6] == t[2..6];
    }
  }

  lemma FixedFieldsExtend(t: seq<U8>, more: seq<U8>)
    ensures |t| >= 6 ==> (t + more)[2..6] == t[2..6]
    ensures |t| >= 5 ==> (t + more)[1..5] == t[1..5]
    ensures |t| >= 9 ==> (t + more)[1..9] == t[1..9]
  {
  }

  lemma OpExtends(t: seq<U8>, x: Rex, more: seq<U8>)
    requires ParseOp(t, x) != Err(Format)
    ensures ParseOp(t + more, x) == ParseOp(t, x)
  {
    FixedFieldsExtend(t, more);
    if DecodeModrm(t, x) != Err(Format) {
      ModrmExtends(t, x, more);
    }
  }

  /** An image that ends inside an endbr64. */
  predicate CutEndbr(s: seq<U8>) {
    s == [0xF3] || s == [0xF3, 0x0F] || s == [0xF3, 0x0F, 0x1E]
  }

  /** The result depends only on the bytes read: unless the stream is reported as truncated, no
      bytes behind it matter. The one exception is an endbr64 cut off by the end of the image,
      which is reported as unsupported. */
  lemma ParseExtends(s: seq<U8>, more: seq<U8>)
    requires Parse(s) != Err(Format) && !CutEndbr(s)
    ensures Parse(s + more) == Parse(s)
  {
    if !StartsEndbr(s) {
      assert !StartsEndbr(s + more) by {
        if StartsEndbr(s + more) {
          CutOnly(s, more);
        }
      }
      if IsRexByte(s[0]) {
        OpExtends(s[1..], RexOf(s[0]), more);
        assert (s + more)[1..] == s[1..] + more;
      } else {
        OpExtends(s, NO_REX, more);
      }
    }
  }

  lemma CutOnly(s: seq<U8>, more: seq<U8>)
    requires s != [] && StartsEndbr(s + more) && !StartsEndbr(s)
    ensures CutEndbr(s)
  {
    assert |s| < 4;
    assert s == (s + more)[..|s|];
  }

  /** A cut endbr64 parses differently once its last bytes are there. */
  lemma CutEndbrChanges(s: seq<U8>)
    requires CutEndbr(s)
    ensures Parse(s) == Err(Unsupported)
    ensures exists more :: Parse(s + more).Ok?
  {
    var whole: seq<U8> := [0xF3, 0x0F, 0x1E, 0xFA];
    assert s + whole[|s|..] == whole;
    assert Parse(whole).Ok?;
  }

  /** An encoding cut short is reported as truncated, an endbr64 excepted. */
  lemma TruncatedExactly(i: Instr, f: Form, n: nat)
    requires CanEncode(i, f) && n < |Bytes(i, f)|
    ensures var cut := Bytes(i, f)[..n]; Parse(cut) == Err(if CutEndbr(cut) then Unsupported else Format)
  {
    var whole := Bytes(i, f);
    var cut := whole[..n];
    assert cut + whole[n..] == whole;
    ParseOfBytes(i, f, []);
    assert whole + [] == whole;
    if CutEndbr(cut) {
      CutEndbrChanges(cut);
    } else if Parse(cut) != Err(Format) {
      ParseExtends(cut, whole[n..]);
      BytesOfParse(cut);
    }
  }
}
