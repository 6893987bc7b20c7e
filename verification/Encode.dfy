/** The words of the instructions the translator emits.
    The source ORs fields into a template; the fields never overlap, so the sum here is the
    same word. */
module Encode {
  import opened Words
  import opened A64

  /** The instructions that have a word here: those the translator emits. */
  predicate Encodable(i: Instr) {
    match i
    case LogicReg(op, _, _, _) => op != And
    case AddImm(rd, rn, _) => rd != 31 && rn != 31
    case SubImm(rd, rn, _) => rd != 31 && rn != 31
    case AddsImm(_, rn, _) => rn != 31
    case SubsImm(_, rn, _) => rn != 31
    case Ldr(_, rn, offset) => rn != 31 && offset < 0x8000 && offset % 8 == 0
    case Str(_, rn, offset) => rn != 31 && offset < 0x8000 && offset % 8 == 0
    case Ldar(_, rn) => rn != 31
    case Ldapr(_, rn) => rn != 31
    case Stlr(_, rn) => rn != 31
    case Ldaddal(_, _, rn) => rn != 31
    case Casal(_, _, rn) => rn != 31
    case B(offset) => 0 <= offset < 0x200_0000
    case BCond(_, offset) => 0 <= offset < 0x4_0000
    case Undefined => false
    case _ => true
  }

  function RegForm(template: int, rd: Reg, rn: Reg, rm: Reg): int {
    template + rm * 0x1_0000 + rn * 0x20 + rd
  }

  function ImmForm(template: int, rd: Reg, rn: Reg, imm: Imm12): int {
    template + imm * 0x400 + rn * 0x20 + rd
  }

  function LaneForm(template: int, rd: Reg, lane: U16, hw: Lane): int {
    template + hw * 0x20_0000 + lane * 0x20 + rd
  }

  function Word(i: Instr): U32
    requires Encodable(i)
  {
    match i
    case Movz(rd, lane, hw) => LaneForm(0xD280_0000, rd, lane, hw)
    case Movk(rd, lane, hw) => LaneForm(0xF280_0000, rd, lane, hw)
    case AddReg(rd, rn, rm) => RegForm(0x8B00_0000, rd, rn, rm)
    case AddsReg(rd, rn, rm) => RegForm(0xAB00_0000, rd, rn, rm)
    case SubsReg(rd, rn, rm) => RegForm(0xEB00_0000, rd, rn, rm)
    case LogicReg(op, rd, rn, rm) => RegForm(if op == Or then 0xAA00_0000 else 0xCA00_0000, rd, rn, rm)
    case AndsReg(rd, rn, rm) => RegForm(0xEA00_0000, rd, rn, rm)
    case AddImm(rd, rn, imm) => ImmForm(0x9100_0000, rd, rn, imm)
    case SubImm(rd, rn, imm) => ImmForm(0xD100_0000, rd, rn, imm)
    case AddsImm(rd, rn, imm) => ImmForm(0xB100_0000, rd, rn, imm)
    case SubsImm(rd, rn, imm) => ImmForm(0xF100_0000, rd, rn, imm)
    case Ldr(rt, rn, offset) => ImmForm(0xF940_0000, rt, rn, offset / 8)
    case Str(rt, rn, offset) => ImmForm(0xF900_0000, rt, rn, offset / 8)
    case Ldar(rt, rn) => RegForm(0xC8C0_FC00, rt, rn, 31)
    case Ldapr(rt, rn) => RegForm(0xF8A0_C000, rt, rn, 31)
    case Stlr(rt, rn) => RegForm(0xC880_FC00, rt, rn, 31)
    case Ldaddal(rs, rt, rn) => RegForm(0xF8E0_0000, rt, rn, rs)
    case Casal(rs, rt, rn) => RegForm(0xC8E0_FC00, rt, rn, rs)
    case Dmb(Full) => 0xD503_3BBF
    case Dmb(LoadOnly) => 0xD503_39BF
    case Dmb(StoreOnly) => 0xD503_3ABF
    case Csinc(rd, rn, rm, cond) => RegForm(0x9A80_0400 + cond * 0x1000, rd, rn, rm)
    case B(offset) => 0x1400_0000 + offset
    case BCond(cond, offset) => 0x5400_0000 + offset * 0x20 + cond
    case RetTo(rn) => 0xD65F_0000 + rn * 0x20
  }

  function ImmFields(top: int, rd: Reg, rn: Reg, imm: Imm12): Fields
    requires 0 <= top < 0x400
  {
    Fields(2 * top + imm / 0x800, imm / 0x40 % 32, imm % 64, rn, rd)
  }

  function LaneFields(top: int, rd: Reg, lane: int): Fields
    requires 0 <= top < 0x800 && 0 <= lane < 0x1_0000
  {
    Fields(top, lane / 0x800, lane / 0x20 % 64, lane % 32, rd)
  }

  /** The five fields of an instruction's word. */
  function FieldsOf(i: Instr): Fields
    requires Encodable(i)
  {
    match i
    case Movz(rd, lane, hw) => LaneFields(4 * 0x1A5 + hw, rd, lane)
    case Movk(rd, lane, hw) => LaneFields(4 * 0x1E5 + hw, rd, lane)
    case AddReg(rd, rn, rm) => Fields(0x458, rm, 0, rn, rd)
    case AddsReg(rd, rn, rm) => Fields(0x558, rm, 0, rn, rd)
    case SubsReg(rd, rn, rm) => Fields(0x758, rm, 0, rn, rd)
    case LogicReg(op, rd, rn, rm) => Fields(if op == Or then 0x550 else 0x650, rm, 0, rn, rd)
    case AndsReg(rd, rn, rm) => Fields(0x750, rm, 0, rn, rd)
    case AddImm(rd, rn, imm) => ImmFields(0x244, rd, rn, imm)
    case SubImm(rd, rn, imm) => ImmFields(0x344, rd, rn, imm)
    case AddsImm(rd, rn, imm) => ImmFields(0x2C4, rd, rn, imm)
    case SubsImm(rd, rn, imm) => ImmFields(0x3C4, rd, rn, imm)
    case Ldr(rt, rn, offset) => ImmFields(0x3E5, rt, rn, offset / 8)
    case Str(rt, rn, offset) => ImmFields(0x3E4, rt, rn, offset / 8)
    case Ldar(rt, rn) => Fields(0x646, 31, 0x3F, rn, rt)
    case Ldapr(rt, rn) => Fields(0x7C5, 31, 0x30, rn, rt)
    case Stlr(rt, rn) => Fields(0x644, 31, 0x3F, rn, rt)
    case Ldaddal(rs, rt, rn) => Fields(0x7C7, rs, 0, rn, rt)
    case Casal(rs, rt, rn) => Fields(0x647, rs, 0x3F, rn, rt)
    case Dmb(Full) => Fields(0x6A8, 3, 0x0E, 0x1D, 31)
    case Dmb(LoadOnly) => Fields(0x6A8, 3, 0x0E, 0x0D, 31)
    case Dmb(StoreOnly) => Fields(0x6A8, 3, 0x0E, 0x15, 31)
    case Csinc(rd, rn, rm, cond) => Fields(0x4D4, rm, 4 * cond + 1, rn, rd)
    case B(offset) => LaneFields(0xA0 + offset / 0x20_0000, offset % 32, offset / 32 % 0x1_0000)
    case BCond(cond, offset) => LaneFields(0x2A0 + offset / 0x1_0000, cond, offset % 0x1_0000)
    case RetTo(rn) => Fields(0x6B2, 31, 0, rn, 0)
  }

  lemma LaneSplit(lane: U16)
    ensures lane == (lane / 0x800 * 64 + lane / 0x20 % 64) * 32 + lane % 32
  {
    assert lane / 0x20 == lane / 0x800 * 64 + lane / 0x20 % 64;
  }

  lemma ImmSplit(imm: Imm12)
    ensures imm == (imm / 0x800 * 32 + imm / 0x40 % 32) * 64 + imm % 64
  {
    assert imm / 0x40 == imm / 0x800 * 32 + imm / 0x40 % 32;
  }

  predicate HasImmediate(i: Instr) {
    i.AddImm? || i.SubImm? || i.AddsImm? || i.SubsImm? || i.Ldr? || i.Str?
  }

  lemma PackedImmediate(i: Instr)
    requires Encodable(i) && HasImmediate(i)
    ensures Pack(FieldsOf(i)) == Word(i)
  {
    match i
    case AddImm(rd, rn, imm) => ImmSplit(imm);
    case SubImm(rd, rn, imm) => ImmSplit(imm);
    case AddsImm(rd, rn, imm) => ImmSplit(imm);
    case SubsImm(rd, rn, imm) => ImmSplit(imm);
    case Ldr(rt, rn, offset) => ImmSplit(offset / 8);
    case Str(rt, rn, offset) => ImmSplit(offset / 8);
  }

  lemma PackedLane(i: Instr)
    requires Encodable(i) && (i.Movz? || i.Movk?)
    ensures Pack(FieldsOf(i)) == Word(i)
  {
    LaneSplit(i.lane);
  }

  lemma PackedBranch(disp: int)
    requires Encodable(B(disp))
    ensures Pack(FieldsOf(B(disp))) == Word(B(disp))
  {
    var q := disp / 32;
    LaneSplit(q % 0x1_0000);
    assert disp / 0x20_0000 == q / 0x1_0000;
  }

  lemma PackedCondBranch(cond: Cond, disp: int)
    requires Encodable(BCond(cond, disp))
    ensures Pack(FieldsOf(BCond(cond, disp))) == Word(BCond(cond, disp))
  {
    LaneSplit(disp % 0x1_0000);
  }

  lemma PackedFields(i: Instr)
    requires Encodable(i)
    ensures Pack(FieldsOf(i)) == Word(i)
  {
    if HasImmediate(i) {
      PackedImmediate(i);
    } else if i.Movz? || i.Movk? {
      PackedLane(i);
    } else if i.B? {
      PackedBranch(i.disp);
    } else if i.BCond? {
      PackedCondBranch(i.cond, i.disp);
    }
  }

  lemma LaneDecoded(top: int, rd: Reg, lane: U16)
    requires 0 <= top < 0x800
    ensures Imm16(LaneFields(top, rd, lane)) == lane
  {
    LaneSplit(lane);
  }

  lemma ImmDecoded(top: int, rd: Reg, rn: Reg, imm: Imm12)
    requires top in {0x244, 0x344, 0x2C4, 0x3C4, 0x3E4, 0x3E5}
    ensures DecodeFields(ImmFields(top, rd, rn, imm)) == DecodeImm(top, imm, rn, rd)
  {
    ImmSplit(imm);
    var f := ImmFields(top, rd, rn, imm);
    assert f.top / 2 == top && f.top % 2 == imm / 0x800;
    assert ImmOf(f) == imm;
  }

  lemma BranchDecoded(offset: int)
    requires Encodable(B(offset))
    ensures DecodeFields(FieldsOf(B(offset))) == B(offset)
  {
    LaneSplit(offset / 32 % 0x1_0000);
    assert offset / 32 == offset / 0x20_0000 * 0x1_0000 + offset / 32 % 0x1_0000;
  }

  lemma CondBranchDecoded(cond: Cond, offset: int)
    requires Encodable(BCond(cond, offset))
    ensures DecodeFields(FieldsOf(BCond(cond, offset))) == BCond(cond, offset)
  {
    LaneDecoded(0x2A0 + offset / 0x1_0000, cond, offset % 0x1_0000);
  }

  lemma ImmediateDecoded(i: Instr)
    requires Encodable(i) && HasImmediate(i)
    ensures DecodeFields(FieldsOf(i)) == i
  {
    match i
    case AddImm(rd, rn, imm) => ImmDecoded(0x244, rd, rn, imm);
    case SubImm(rd, rn, imm) => ImmDecoded(0x344, rd, rn, imm);
    case AddsImm(rd, rn, imm) => ImmDecoded(0x2C4, rd, rn, imm);
    case SubsImm(rd, rn, imm) => ImmDecoded(0x3C4, rd, rn, imm);
    case Ldr(rt, rn, offset) => ImmDecoded(0x3E5, rt, rn, offset / 8);
    case Str(rt, rn, offset) => ImmDecoded(0x3E4, rt, rn, offset / 8);
  }

  lemma DecodedFields(i: Instr)
    requires Encodable(i)
    ensures DecodeFields(FieldsOf(i)) == i
  {
    if HasImmediate(i) {
      ImmediateDecoded(i);
    } else {
      match i
      case Movz(rd, lane, hw) => LaneDecoded(4 * 0x1A5 + hw, rd, lane);
      case Movk(rd, lane, hw) => LaneDecoded(4 * 0x1E5 + hw, rd, lane);
      case B(disp) => BranchDecoded(disp);
      case BCond(cond, disp) => CondBranchDecoded(cond, disp);
      case _ =>
    }
  }

  /** Every emitted word is the instruction it was meant to be. */
  lemma DecodeWord(i: Instr)
    requires Encodable(i)
    ensures Decode(Word(i)) == i
  {
    PackedFields(i);
    SplitPacked(FieldsOf(i));
    DecodedFields(i);
  }

  predicate AllEncodable(code: seq<Instr>) {
    forall k :: 0 <= k < |code| ==> Encodable(code[k])
  }

  function Assemble(code: seq<Instr>): (ws: seq<U32>)
    requires AllEncodable(code)
    ensures |ws| == |code|
  {
    if code == [] then [] else [Word(code[0])] + Assemble(code[1..])
  }

  lemma {:induction false} AssembleAppend(a: seq<Instr>, b: seq<Instr>)
    requires AllEncodable(a) && AllEncodable(b)
    ensures AllEncodable(a + b) && Assemble(a + b) == Assemble(a) + Assemble(b)
  {
    if a == [] {
      assert a + b == b;
    } else {
      AssembleAppend(a[1..], b);
      assert (a + b)[1..] == a[1..] + b;
    }
  }

  /** Words as the bytes of the code buffer. */
  function BytesOf(ws: seq<U32>): (b: seq<U8>)
    ensures |b| == 4 * |ws|
  {
    if ws == [] then [] else Le32(ws[0]) + BytesOf(ws[1..])
  }

  /** The words a byte image holds. */
  function WordsOf(b: seq<U8>): (ws: seq<U32>)
    requires |b| % 4 == 0
    ensures |ws| == |b| / 4
  {
    if b == [] then [] else [Get32(b[..4])] + WordsOf(b[4..])
  }

  /** The instructions a byte image holds. */
  function Disassemble(b: seq<U8>): seq<Instr>
    requires |b| % 4 == 0
  {
    DecodeAll(WordsOf(b))
  }

  lemma {:induction false} WordsOfBytes(ws: seq<U32>)
    ensures WordsOf(BytesOf(ws)) == ws
  {
    if ws != [] {
      var b := BytesOf(ws);
      assert b[..4] == Le32(ws[0]) && b[4..] == BytesOf(ws[1..]);
      FieldRoundTrips(0, ws[0], 0);
      WordsOfBytes(ws[1..]);
    }
  }

  lemma {:induction false} BytesOfAppend(a: seq<U32>, b: seq<U32>)
    ensures BytesOf(a + b) == BytesOf(a) + BytesOf(b)
  {
    if a == [] {
      assert a + b == b;
    } else {
      assert (a + b)[1..] == a[1..] + b;
      BytesOfAppend(a[1..], b);
    }
  }

  lemma {:induction false} DecodeAssembled(code: seq<Instr>)
    requires AllEncodable(code)
    ensures DecodeAll(Assemble(code)) == code
  {
    if code != [] {
      DecodeWord(code[0]);
      DecodeAssembled(code[1..]);
      assert Assemble(code)[1..] == Assemble(code[1..]);
    }
  }

  /** Assembled code disassembles to itself. */
  lemma DisassembleCode(code: seq<Instr>)
    requires AllEncodable(code)
    ensures Disassemble(BytesOf(Assemble(code))) == code
  {
    WordsOfBytes(Assemble(code));
    DecodeAssembled(code);
  }
}
