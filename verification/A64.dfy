/** The AArch64 subset the translator emits: instruction words, their decoding, and their
    effect on x0..x30, the condition flags and memory, after the Arm Architecture Reference
    Manual (DDI 0487). The stack pointer is not modelled: an instruction that would read or
    write it is Undefined here. */
module A64 {
  import opened Words

  const ZR := 31
  const LINK := 30

  datatype Barrier = Full | LoadOnly | StoreOnly

  type Reg = r: int | 0 <= r < 32
  type Lane = k: int | 0 <= k < 4
  type Imm12 = k: int | 0 <= k < 0x1000
  type Cond = k: int | 0 <= k < 16

  datatype Instr =
    | Movz(rd: Reg, lane: U16, hw: Lane)
    | Movk(rd: Reg, lane: U16, hw: Lane)
    | AddReg(rd: Reg, rn: Reg, rm: Reg)
    | AddsReg(rd: Reg, rn: Reg, rm: Reg)
    | SubsReg(rd: Reg, rn: Reg, rm: Reg)
    | LogicReg(op: Logic, rd: Reg, rn: Reg, rm: Reg)
    | AndsReg(rd: Reg, rn: Reg, rm: Reg)
    | AddImm(rd: Reg, rn: Reg, imm: Imm12)
    | SubImm(rd: Reg, rn: Reg, imm: Imm12)
    | AddsImm(rd: Reg, rn: Reg, imm: Imm12)
    | SubsImm(rd: Reg, rn: Reg, imm: Imm12)
    | Ldr(rt: Reg, rn: Reg, offset: U16)
    | Str(rt: Reg, rn: Reg, offset: U16)
    | Ldar(rt: Reg, rn: Reg)
    | Ldapr(rt: Reg, rn: Reg)
    | Stlr(rt: Reg, rn: Reg)
    | Ldaddal(rs: Reg, rt: Reg, rn: Reg)
    | Casal(rs: Reg, rt: Reg, rn: Reg)
    | Dmb(kind: Barrier)
    | Csinc(rd: Reg, rn: Reg, rm: Reg, cond: Cond)
    | B(disp: int)
    | BCond(cond: Cond, disp: int)
    | RetTo(rn: Reg)
    | Undefined

  /** The two's-complement reading of a field of the given size. */
  function SignedField(x: int, size: int): int {
    if 2 * x < size then x else x - size
  }

  /** A word as its five fields: bits 31..21, 20..16, 15..10, 9..5 and 4..0. */
  datatype Fields = Fields(top: Top, rm: Reg, mid: Mid, rn: Reg, rd: Reg)

  type Top = k: int | 0 <= k < 0x800
  type Mid = k: int | 0 <= k < 64

  function Pack(f: Fields): U32 {
    (((f.top * 32 + f.rm) * 64 + f.mid) * 32 + f.rn) * 32 + f.rd
  }

  function Split(w: U32): Fields {
    var a := w / 32;
    var b := a / 32;
    var c := b / 64;
    Fields(c / 32, c % 32, b % 64, a % 32, w % 32)
  }

  lemma Digit32(q: nat, r: nat)
    requires r < 32
    ensures (q * 32 + r) / 32 == q && (q * 32 + r) % 32 == r
  {
  }

  lemma SplitPacked(f: Fields)
    ensures Split(Pack(f)) == f
  {
    var c := f.top * 32 + f.rm;
    var b := c * 64 + f.mid;
    var a := b * 32 + f.rn;
    Digit32(a, f.rd);
    Digit32(b, f.rn);
    assert b / 64 == c && b % 64 == f.mid;
    Digit32(f.top, f.rm);
  }

  function Decode(w: U32): Instr {
    DecodeFields(Split(w))
  }

  function Imm16(f: Fields): U16 {
    (f.rm * 64 + f.mid) * 32 + f.rn
  }

  function ImmOf(f: Fields): Imm12 {
    (f.top % 2 * 32 + f.rm) * 64 + f.mid
  }

  function DecodeFields(f: Fields): Instr {
    var Fields(top, rm, mid, rn, rd) := f;
    if top / 4 == 0x1A5 then Movz(rd, Imm16(f), top % 4)
    else if top / 4 == 0x1E5 then Movk(rd, Imm16(f), top % 4)
    else if top / 32 == 5 then
      B(SignedField((((top % 32 * 32 + rm) * 64 + mid) * 32 + rn) * 32 + rd, 0x400_0000))
    else if top / 8 == 0x54 && rd < 16 then BCond(rd, SignedField(top % 8 * 0x1_0000 + Imm16(f), 0x8_0000))
    else if top == 0x6B2 && rm == 31 && mid == 0 && rd == 0 then RetTo(rn)
    else if mid == 0 && top in {0x458, 0x558, 0x758, 0x550, 0x650, 0x750} then DecodeReg(top, rm, rn, rd)
    else if top / 2 in {0x244, 0x344, 0x2C4, 0x3C4, 0x3E4, 0x3E5} then DecodeImm(top / 2, ImmOf(f), rn, rd)
    else if rn != 31 && top in {0x644, 0x646, 0x7C5, 0x7C7, 0x647} then DecodeOrdered(top, rm, mid, rn, rd)
    else if top == 0x6A8 && rm == 3 && mid == 0x0E && rd == 31 then DecodeBarrier(rn)
    else if top == 0x4D4 && mid % 4 == 1 then Csinc(rd, rn, rm, mid / 4)
    else Undefined
  }

  function DecodeReg(top: int, rm: Reg, rn: Reg, rd: Reg): Instr {
    if top == 0x458 then AddReg(rd, rn, rm)
    else if top == 0x558 then AddsReg(rd, rn, rm)
    else if top == 0x758 then SubsReg(rd, rn, rm)
    else if top == 0x550 then LogicReg(Or, rd, rn, rm)
    else if top == 0x650 then LogicReg(Xor, rd, rn, rm)
    else AndsReg(rd, rn, rm)
  }

  function DecodeImm(top: int, imm: Imm12, rn: Reg, rd: Reg): Instr {
    if rn == 31 then Undefined
    else if top == 0x2C4 then AddsImm(rd, rn, imm)
    else if top == 0x3C4 then SubsImm(rd, rn, imm)
    else if top == 0x3E5 then Ldr(rd, rn, 8 * imm)
    else if top == 0x3E4 then Str(rd, rn, 8 * imm)
    else if rd == 31 then Undefined
    else if top == 0x244 then AddImm(rd, rn, imm)
    else SubImm(rd, rn, imm)
  }

  function DecodeOrdered(top: int, rm: Reg, mid: Mid, rn: Reg, rd: Reg): Instr {
    if top == 0x646 && rm == 31 && mid == 0x3F then Ldar(rd, rn)
    else if top == 0x644 && rm == 31 && mid == 0x3F then Stlr(rd, rn)
    else if top == 0x7C5 && rm == 31 && mid == 0x30 then Ldapr(rd, rn)
    else if top == 0x7C7 && mid == 0 then Ldaddal(rm, rd, rn)
    else if top == 0x647 && mid == 0x3F then Casal(rm, rd, rn)
    else Undefined
  }

  function DecodeBarrier(option: Reg): Instr {
    if option == 0x1D then Dmb(Full)
    else if option == 0x0D then Dmb(LoadOnly)
    else if option == 0x15 then Dmb(StoreOnly)
    else Undefined
  }

  datatype Nzcv = Nzcv(n: bool, z: bool, c: bool, v: bool)

  datatype Host = Host(x: seq<U64>, mem: Memory, nzcv: Nzcv) {
    predicate Valid() { |x| == 31 }

    function Get(r: Reg): U64
      requires Valid()
    {
      if r == ZR then 0 else x[r]
    }

    function Set(r: Reg, v: U64): (h: Host)
      requires Valid()
      ensures h.Valid()
    {
      if r == ZR then this else this.(x := x[r := v])
    }
  }

  function Not(x: U64): U64 {
    TWO_64 - 1 - x
  }

  datatype Sum = Sum(value: U64, nzcv: Nzcv)

  /** The manual's AddWithCarry: the sum and its four flags. */
  function AddWithCarry(a: U64, b: U64, carry: int): Sum
    requires 0 <= carry <= 1
  {
    var u: int, s: int := a + b + carry, Signed(a) + Signed(b) + carry;
    var r: U64 := if u < TWO_64 then u else u - TWO_64;
    Sum(r, Nzcv(r >= TWO_63, r == 0, r != u, Signed(r) != s))
  }

  function LogicNzcv(r: U64): Nzcv {
    Nzcv(r >= TWO_63, r == 0, false, false)
  }

  /** ConditionHolds: bits 3..1 choose the test, bit 0 inverts it except for 0b1111. */
  predicate ConditionHolds(cond: Cond, f: Nzcv) {
    var base :=
      match cond / 2
      case 0 => f.z
      case 1 => f.c
      case 2 => f.n
      case 3 => f.v
      case 4 => f.c && !f.z
      case 5 => f.n == f.v
      case 6 => f.n == f.v && !f.z
      case _ => true;
    if cond % 2 == 1 && cond != 15 then !base else base
  }

  /** `r` with its 16-bit lane `hw` replaced. */
  function SetLane(r: U64, imm: U16, hw: Lane): U64 {
    if hw == 0 then r - r % 0x1_0000 + imm
    else if hw == 1 then r - r % 0x1_0000_0000 + imm * 0x1_0000 + r % 0x1_0000
    else if hw == 2 then r - r % 0x1_0000_0000_0000 + imm * 0x1_0000_0000 + r % 0x1_0000_0000
    else imm * 0x1_0000_0000_0000 + r % 0x1_0000_0000_0000
  }

  predicate Straight(i: Instr) {
    !(i.B? || i.BCond? || i.RetTo? || i.Undefined?)
  }

  /** One straight-line instruction. Ordering annotations do not change a single thread's values. */
  function Exec(i: Instr, h: Host): (h': Host)
    requires h.Valid()
    ensures h'.Valid()
  {
    match i
    case Movz(rd, imm, hw) => h.Set(rd, SetLane(0, imm, hw))
    case Movk(rd, imm, hw) => h.Set(rd, SetLane(h.Get(rd), imm, hw))
    case AddReg(rd, rn, rm) => h.Set(rd, Plus(h.Get(rn), h.Get(rm)))
    case AddsReg(rd, rn, rm) =>
      var s := AddWithCarry(h.Get(rn), h.Get(rm), 0); h.Set(rd, s.value).(nzcv := s.nzcv)
    case SubsReg(rd, rn, rm) =>
      var s := AddWithCarry(h.Get(rn), Not(h.Get(rm)), 1); h.Set(rd, s.value).(nzcv := s.nzcv)
    case LogicReg(op, rd, rn, rm) => h.Set(rd, Logic64(op, h.Get(rn), h.Get(rm)))
    case AndsReg(rd, rn, rm) =>
      var r := Logic64(And, h.Get(rn), h.Get(rm)); h.Set(rd, r).(nzcv := LogicNzcv(r))
    case AddImm(rd, rn, imm) => h.Set(rd, Plus(h.Get(rn), imm))
    case SubImm(rd, rn, imm) => h.Set(rd, Minus(h.Get(rn), imm))
    case AddsImm(rd, rn, imm) =>
      var s := AddWithCarry(h.Get(rn), imm, 0); h.Set(rd, s.value).(nzcv := s.nzcv)
    case SubsImm(rd, rn, imm) =>
      var s := AddWithCarry(h.Get(rn), Not(imm), 1); h.Set(rd, s.value).(nzcv := s.nzcv)
    case Ldr(rt, rn, offset) => h.Set(rt, Load64(h.mem, Plus(h.Get(rn), offset)))
    case Str(rt, rn, offset) => h.(mem := Store64(h.mem, Plus(h.Get(rn), offset), h.Get(rt)))
    case Ldar(rt, rn) => h.Set(rt, Load64(h.mem, h.Get(rn)))
    case Ldapr(rt, rn) => h.Set(rt, Load64(h.mem, h.Get(rn)))
    case Stlr(rt, rn) => h.(mem := Store64(h.mem, h.Get(rn), h.Get(rt)))
    case Ldaddal(rs, rt, rn) =>
      var a := h.Get(rn);
      var prior := Load64(h.mem, a);
      h.(mem := Store64(h.mem, a, Plus(prior, h.Get(rs)))).Set(rt, prior)
    case Casal(rs, rt, rn) =>
      var a := h.Get(rn);
      var prior := Load64(h.mem, a);
      (if prior == h.Get(rs) then h.(mem := Store64(h.mem, a, h.Get(rt))) else h).Set(rs, prior)
    case Csinc(rd, rn, rm, cond) =>
      h.Set(rd, if ConditionHolds(cond, h.nzcv) then h.Get(rn) else Plus(h.Get(rm), 1))
    case _ => h
  }

  /** Straight-line execution of a run of instructions. */
  function ExecAll(body: seq<Instr>, h: Host): (h': Host)
    requires h.Valid()
    ensures h'.Valid()
    decreases |body|
  {
    if body == [] then h else ExecAll(body[1..], Exec(body[0], h))
  }

  datatype Outcome = Returned(host: Host) | Stuck

  /** Run from instruction `pc` until the block returns through x30. Leaving the code, an
      undefined word, a return through another register and a backward branch are all Stuck. */
  function Run(code: seq<Instr>, pc: nat, h: Host): Outcome
    requires h.Valid()
    decreases |code| - pc
  {
    if pc >= |code| then Stuck
    else
      match code[pc]
      case RetTo(rn) => if rn == LINK then Returned(h) else Stuck
      case B(disp) => if 0 < disp && pc + disp <= |code| then Run(code, pc + disp, h) else Stuck
      case BCond(cond, disp) =>
        if !ConditionHolds(cond, h.nzcv) then Run(code, pc + 1, h)
        else if 0 < disp && pc + disp <= |code| then Run(code, pc + disp, h)
        else Stuck
      case Undefined => Stuck
      case _ => Run(code, pc + 1, Exec(code[pc], h))
  }

  lemma {:induction false} ExecAllAppend(a: seq<Instr>, b: seq<Instr>, h: Host)
    requires h.Valid()
    ensures ExecAll(a + b, h) == ExecAll(b, ExecAll(a, h))
    decreases |a|
  {
    if a == [] {
      assert a + b == b;
    } else {
      assert (a + b)[1..] == a[1..] + b;
      ExecAllAppend(a[1..], b, Exec(a[0], h));
    }
  }

  predicate AllStraight(body: seq<Instr>) {
    forall k :: 0 <= k < |body| ==> Straight(body[k])
  }

  lemma RunOne(code: seq<Instr>, pc: nat, h: Host)
    requires h.Valid() && pc < |code| && Straight(code[pc])
    ensures Run(code, pc, h) == Run(code, pc + 1, Exec(code[pc], h))
  {
  }

  /** Straight-line instructions in the middle of code run to the one after them. */
  lemma {:induction false} RunStraight(code: seq<Instr>, pc: nat, body: seq<Instr>, h: Host)
    requires h.Valid() && AllStraight(body)
    requires pc + |body| <= |code| && code[pc..pc + |body|] == body
    ensures Run(code, pc, h) == Run(code, pc + |body|, ExecAll(body, h))
    decreases |body|
  {
    if body != [] {
      assert code[pc] == body[0];
      RunOne(code, pc, h);
      assert code[pc + 1..pc + 1 + |body[1..]|] == body[1..];
      RunStraight(code, pc + 1, body[1..], Exec(body[0], h));
    }
  }

  /** The instructions a run of words stands for. */
  function DecodeAll(ws: seq<U32>): (body: seq<Instr>)
    ensures |body| == |ws|
  {
    if ws == [] then [] else [Decode(ws[0])] + DecodeAll(ws[1..])
  }
}
