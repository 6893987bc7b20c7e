/** The IR-to-AArch64 block translator: what each operation is lowered to, which blocks are
    accepted, and the loop that builds the code, relocations and exits. */
module Translate {
  import opened Words
  import opened Errors
  import opened GuestIr
  import opened A64
  import opened Encode

  const SCRATCH: Reg := 16
  const NEXT_PC: Reg := 17
  const MAX_OPS := 0x10_0000
  const RELOC_BRANCH: U32 := 2

  datatype Policy = Drf | Conservative
  datatype Strength = Sc | Rcpc | Tso

  function ArmCond(cc: int): Cond {
    if cc == CC_EQ then 0x0
    else if cc == CC_NE then 0x1
    else if cc == CC_GE then 0xA
    else if cc == CC_LT then 0xB
    else if cc == CC_GT then 0xC
    else if cc == CC_LE then 0xD
    else 0xE
  }

  /** The condition with its low bit flipped. */
  function Inverted(cond: Cond): Cond {
    if cond % 2 == 0 then cond + 1 else cond - 1
  }

  function BarrierOf(fence: int): Barrier {
    if fence == FENCE_LD then LoadOnly else if fence == FENCE_ST then StoreOnly else Full
  }

  // ---- constants ----

  function LaneOf(v: U64, hw: Lane): U16 {
    if hw == 0 then v % 0x1_0000
    else if hw == 1 then v / 0x1_0000 % 0x1_0000
    else if hw == 2 then v / 0x1_0000_0000 % 0x1_0000
    else v / 0x1_0000_0000_0000
  }

  /** MOVK for every non-zero lane from `hw` up. */
  function MovkLanes(reg: Reg, v: U64, hw: nat): seq<Instr>
    requires hw <= 4
    decreases 4 - hw, v
  {
    if hw == 4 then []
    else (if LaneOf(v, hw) != 0 then [Movk(reg, LaneOf(v, hw), hw)] else []) + MovkLanes(reg, v, hw + 1)
  }

  function MovImm(reg: Reg, v: U64): seq<Instr> {
    [Movz(reg, LaneOf(v, 0), 0)] + MovkLanes(reg, v, 1)
  }

  // ---- one operation ----

  /** `imm` negated in 64-bit arithmetic, as the source's `-in->imm` is on a two's-complement target. */
  function Negated(imm: I64): I64 {
    if imm == -TWO_63 then imm else -imm
  }

  predicate Ordered(i: Insn, policy: Policy) {
    policy.Conservative? || i.mclass == CLASS_SHARED
  }

  predicate ScaledOffset(imm: int) {
    0 <= imm && imm % 8 == 0 && imm / 8 <= 0xFFF
  }

  function LowerAccess(i: Insn, policy: Policy, strength: Strength): Result<seq<Instr>>
    requires RegsInRange(i)
  {
    if !Ordered(i, policy) then
      if !ScaledOffset(i.imm) then Err(Inval)
      else Ok([if i.op.Load? then Ldr(i.rd, i.rn, i.imm) else Str(i.rd, i.rn, i.imm)])
    else if strength.Tso? then
      if !ScaledOffset(i.imm) then Err(Inval)
      else if i.op.Load? then Ok([Ldr(i.rd, i.rn, i.imm), Dmb(LoadOnly)])
      else Ok([Dmb(StoreOnly), Str(i.rd, i.rn, i.imm)])
    else if i.imm < 0 || i.imm > 0xFFF then Err(Inval)
    else
      var base: Reg := if i.imm != 0 then SCRATCH else i.rn;
      var access :=
        if i.op.Store? then Stlr(i.rd, base)
        else if strength.Rcpc? then Ldapr(i.rd, base)
        else Ldar(i.rd, base);
      Ok((if i.imm != 0 then [AddImm(SCRATCH, i.rn, i.imm)] else []) + [access])
  }

  function LowerLea(i: Insn): seq<Instr>
    requires RegsInRange(i)
  {
    if 0 <= i.imm <= 0xFFF then [AddImm(i.rd, i.rn, i.imm)]
    else if -0xFFF <= i.imm < 0 then [SubImm(i.rd, i.rn, -i.imm)]
    else MovImm(SCRATCH, ToU64(i.imm)) + [AddReg(i.rd, i.rn, SCRATCH)]
  }

  /** rd = rd + d with flags: ADD_RI and SUB_RI. */
  function LowerAddDelta(rd: Reg, d: I64): seq<Instr>
    requires rd < 16
  {
    if 0 <= d <= 0xFFF then [AddsImm(rd, rd, d)]
    else if -0xFFF <= d < 0 then [SubsImm(rd, rd, -d)]
    else MovImm(SCRATCH, ToU64(d)) + [AddsReg(rd, rd, SCRATCH)]
  }

  function LowerCmpImm(rd: Reg, imm: I64): seq<Instr>
    requires rd < 16
  {
    if 0 <= imm <= 0xFFF then [SubsImm(ZR, rd, imm)]
    else if -0xFFF <= imm < 0 then [AddsImm(ZR, rd, -imm)]
    else MovImm(SCRATCH, ToU64(imm)) + [SubsReg(ZR, rd, SCRATCH)]
  }

  /** The instructions for one operation; a terminator's branch still has displacement 0. */
  function Lower(i: Insn, policy: Policy, strength: Strength): Result<seq<Instr>>
  {
    if !RegsInRange(i) then Err(Inval)
    else
      match i.op
      case MovRR => Ok([LogicReg(Or, i.rd, ZR, i.rn)])
      case MovRI => Ok(MovImm(i.rd, ToU64(i.imm)))
      case AddRR => Ok([AddsReg(i.rd, i.rd, i.rn)])
      case SubRR => Ok([SubsReg(i.rd, i.rd, i.rn)])
      case CmpRR => Ok([SubsReg(ZR, i.rd, i.rn)])
      case Load => LowerAccess(i, policy, strength)
      case Store => LowerAccess(i, policy, strength)
      case AtomicAdd => Ok([Ldaddal(i.rd, ZR, i.rn)])
      case AtomicCas => Ok([Casal(0, i.rd, i.rn)])
      case Fence => Ok([Dmb(BarrierOf(i.cc))])
      case SetCc => Ok([Csinc(i.rd, ZR, ZR, Inverted(ArmCond(i.cc)))])
      case Lea => Ok(LowerLea(i))
      case AddRI => Ok(LowerAddDelta(i.rd, i.imm))
      case SubRI => Ok(LowerAddDelta(i.rd, Negated(i.imm)))
      case CmpRI => Ok(LowerCmpImm(i.rd, i.imm))
      case Push => Ok([SubImm(RSP, RSP, 8), Str(i.rd, RSP, 0)])
      case Pop => Ok([Ldr(i.rd, RSP, 0), AddImm(RSP, RSP, 8)])
      case Call => Ok(MovImm(SCRATCH, ToU64(i.imm)) + [SubImm(RSP, RSP, 8), Str(SCRATCH, RSP, 0), B(0)])
      case X86Ret => Ok([Ldr(NEXT_PC, RSP, 0), AddImm(RSP, RSP, 8), RetTo(LINK)])
      case TestRR => Ok([AndsReg(ZR, i.rd, i.rn)])
      case AndRR => Ok([AndsReg(i.rd, i.rd, i.rn)])
      case XorRR => Ok([LogicReg(Xor, i.rd, i.rd, i.rn), AndsReg(ZR, i.rd, i.rd)])
      case OrRR => Ok([LogicReg(Or, i.rd, i.rd, i.rn), AndsReg(ZR, i.rd, i.rd)])
      case Br => Ok([BCond(ArmCond(i.cc), 0)])
      case Jmp => Ok([B(0)])
      case Ret => Ok([RetTo(LINK)])
      case Unknown(_) => Err(Inval)
  }

  /** Everything the translator lowers to has an encoding. */
  lemma LoweredEncodable(i: Insn, policy: Policy, strength: Strength)
    requires Lower(i, policy, strength).Ok?
    ensures AllEncodable(Lower(i, policy, strength).value)
  {
    if i.op.Load? || i.op.Store? {
      AccessEncodable(i, policy, strength);
    } else if UsesConstant(i.op) {
      ConstantUseEncodable(i, policy, strength);
    }
  }

  predicate UsesConstant(op: Opcode) {
    op.MovRI? || op.Lea? || op.AddRI? || op.SubRI? || op.CmpRI? || op.Call?
  }

  lemma AccessEncodable(i: Insn, policy: Policy, strength: Strength)
    requires RegsInRange(i) && LowerAccess(i, policy, strength).Ok?
    ensures AllEncodable(LowerAccess(i, policy, strength).value)
    ensures 1 <= |LowerAccess(i, policy, strength).value| <= 2
  {
  }

  lemma ConstantUseEncodable(i: Insn, policy: Policy, strength: Strength)
    requires Lower(i, policy, strength).Ok? && UsesConstant(i.op)
    ensures AllEncodable(Lower(i, policy, strength).value)
    ensures 1 <= |Lower(i, policy, strength).value| <= 7
  {
    match i.op
    case MovRI => ConstantEncodable(i.rd, ToU64(i.imm));
    case Lea => ConstantThenEncodable(ToU64(i.imm), [AddReg(i.rd, i.rn, SCRATCH)]);
    case AddRI => ConstantThenEncodable(ToU64(i.imm), [AddsReg(i.rd, i.rd, SCRATCH)]);
    case SubRI => ConstantThenEncodable(ToU64(Negated(i.imm)), [AddsReg(i.rd, i.rd, SCRATCH)]);
    case CmpRI => ConstantThenEncodable(ToU64(i.imm), [SubsReg(ZR, i.rd, SCRATCH)]);
    case Call => ConstantThenEncodable(ToU64(i.imm), [SubImm(RSP, RSP, 8), Str(SCRATCH, RSP, 0), B(0)]);
  }

  lemma ConstantThenEncodable(v: U64, tail: seq<Instr>)
    requires AllEncodable(tail)
    ensures AllEncodable(MovImm(SCRATCH, v) + tail)
    ensures 1 + |tail| <= |MovImm(SCRATCH, v) + tail| <= 4 + |tail|
  {
    ConstantEncodable(SCRATCH, v);
  }

  lemma ConstantEncodable(reg: Reg, v: U64)
    ensures AllEncodable(MovImm(reg, v)) && 1 <= |MovImm(reg, v)| <= 4
  {
    MovkEncodable(reg, v, 1);
  }

  lemma {:induction false} MovkEncodable(reg: Reg, v: U64, hw: nat)
    requires hw <= 4
    ensures AllEncodable(MovkLanes(reg, v, hw)) && |MovkLanes(reg, v, hw)| <= 4 - hw
    decreases 4 - hw, v
  {
    if hw < 4 {
      MovkEncodable(reg, v, hw + 1);
    }
  }

  /** An operation takes at most seven words. */
  lemma LoweredSize(i: Insn, policy: Policy, strength: Strength)
    requires Lower(i, policy, strength).Ok?
    ensures 1 <= |Lower(i, policy, strength).value| <= 7
  {
    if i.op.Load? || i.op.Store? {
      AccessEncodable(i, policy, strength);
    } else if UsesConstant(i.op) {
      ConstantUseEncodable(i, policy, strength);
    }
  }

  // ---- a block ----

  datatype Reloc = Reloc(offset: U32, kind: U32, target: U64)

  /** What a block is translated to: code bytes, branch relocations, successor pcs. */
  datatype Unit = Unit(code: seq<U8>, relocs: seq<Reloc>, exits: seq<U64>)

  /** How one operation is lowered, to words. */
  type Lowering = Insn -> Result<seq<U32>>

  function Emit(i: Insn, policy: Policy, strength: Strength): (r: Result<seq<U32>>)
    ensures r.Ok? ==> 1 <= |r.value| <= 7
  {
    var lowered := Lower(i, policy, strength);
    if lowered.Err? then Err(lowered.error)
    else
      LoweredEncodable(i, policy, strength);
      LoweredSize(i, policy, strength);
      Ok(Assemble(lowered.value))
  }

  function EmitWith(policy: Policy, strength: Strength): (f: Lowering)
    ensures Bounded(f)
  {
    (i: Insn) => Emit(i, policy, strength)
  }

  ghost predicate Bounded(f: Lowering) {
    forall i :: f(i).Ok? ==> 1 <= |f(i).value| <= 7
  }

  predicate AllLowered(ops: seq<Insn>, f: Lowering) {
    forall k :: 0 <= k < |ops| ==> f(ops[k]).Ok?
  }

  /** The last operation, and no other, ends the block. */
  predicate EndsOnce(ops: seq<Insn>) {
    forall k :: 0 <= k < |ops| ==> (IsTerminator(ops[k].op) <==> k == |ops| - 1)
  }

  /** The blocks the translator accepts: 1 to 2^20 operations, each of which it can lower, the
      last one and no other a terminator. */
  predicate Accepts(ops: seq<Insn>, f: Lowering) {
    1 <= |ops| <= MAX_OPS && AllLowered(ops, f) && EndsOnce(ops)
  }

  /** The words of a run of operations. */
  function WordsFor(ops: seq<Insn>, f: Lowering): seq<U32>
    requires AllLowered(ops, f)
  {
    if ops == [] then [] else f(ops[0]).value + WordsFor(ops[1..], f)
  }

  lemma {:induction false} WordsForSnoc(ops: seq<Insn>, i: Insn, f: Lowering)
    requires AllLowered(ops, f) && f(i).Ok?
    ensures AllLowered(ops + [i], f)
    ensures WordsFor(ops + [i], f) == WordsFor(ops, f) + f(i).value
  {
    if ops == [] {
      assert WordsFor([i], f) == f(i).value + WordsFor([], f);
      assert ops + [i] == [i];
    } else {
      WordsForSnoc(ops[1..], i, f);
      assert (ops + [i])[1..] == ops[1..] + [i];
    }
  }

  lemma {:induction false} WordCount(ops: seq<Insn>, f: Lowering)
    requires AllLowered(ops, f) && Bounded(f)
    ensures |ops| <= |WordsFor(ops, f)| <= 7 * |ops|
  {
    if ops != [] {
      WordCount(ops[1..], f);
      assert f(ops[0]).Ok?;
    }
  }

  predicate Branches(op: Opcode) {
    op.Br? || op.Jmp? || op.Call?
  }

  /** The relocations and exits of a block with `size` bytes of code and this terminator. */
  function RelocsFor(last: Insn, size: int): seq<Reloc>
    requires 4 <= size < TWO_32
  {
    if Branches(last.op) then [Reloc(size - 4, 2, last.target)] else []
  }

  function ExitsFor(last: Insn, guestPc: U64, guestLen: U32): seq<U64> {
    if last.op.Br? then [last.target, Plus(guestPc, guestLen)]
    else if Branches(last.op) then [last.target]
    else []
  }

  /** The unit for an accepted block. At the 2^20-operation ceiling its size still fits 32 bits,
      so the source's narrowing of the length loses nothing. */
  function UnitOf(ops: seq<Insn>, guestPc: U64, guestLen: U32, f: Lowering): (u: Unit)
    requires Accepts(ops, f) && Bounded(f)
    ensures 4 <= |u.code| < TWO_32
  {
    WordCount(ops, f);
    var last, code := ops[|ops| - 1], BytesOf(WordsFor(ops, f));
    Unit(code, RelocsFor(last, |code|), ExitsFor(last, guestPc, guestLen))
  }

  ghost function Translated(ops: seq<Insn>, guestPc: U64, guestLen: U32, f: Lowering): Result<Unit>
    requires Bounded(f)
  {
    if Accepts(ops, f) then Ok(UnitOf(ops, guestPc, guestLen, f)) else Err(Inval)
  }

  /** Append each word to the code buffer, least significant byte first. */
  method EmitWords(code: seq<U8>, ws: seq<U32>) returns (r: seq<U8>)
    ensures r == code + BytesOf(ws)
  {
    r := code;
    for k := 0 to |ws|
      invariant r == code + BytesOf(ws[..k])
    {
      r := r + Le32(ws[k]);
      assert ws[..k + 1] == ws[..k] + [ws[k]];
      BytesOfAppend(ws[..k], [ws[k]]);
      assert BytesOf([ws[k]]) == Le32(ws[k]) + BytesOf([]);
    }
    assert ws[..|ws|] == ws;
  }

  /** One round of the loop: the code so far grows by the operation's words and stays below 2^32 bytes. */
  lemma LoopEmits(ops: seq<Insn>, k: nat, f: Lowering)
    requires Bounded(f) && k < |ops| <= MAX_OPS && AllLowered(ops[..k], f) && f(ops[k]).Ok?
    ensures AllLowered(ops[..k + 1], f)
    ensures BytesOf(WordsFor(ops[..k + 1], f)) == BytesOf(WordsFor(ops[..k], f)) + BytesOf(f(ops[k]).value)
    ensures 4 <= |BytesOf(WordsFor(ops[..k + 1], f))| < TWO_32
  {
    assert ops[..k + 1] == ops[..k] + [ops[k]];
    WordsForSnoc(ops[..k], ops[k], f);
    BytesOfAppend(WordsFor(ops[..k], f), f(ops[k]).value);
    WordCount(ops[..k + 1], f);
  }

  /** The translation loop: emits operation after operation, refuses code after a terminator
      and a block without one. */
  method TranslateLoop(ops: seq<Insn>, guestPc: U64, guestLen: U32, f: Lowering) returns (r: Result<Unit>)
    requires Bounded(f)
    ensures r == Translated(ops, guestPc, guestLen, f)
  {
    if |ops| == 0 || |ops| > MAX_OPS {
      return Err(Inval);
    }
    var code: seq<U8>, relocs: seq<Reloc>, exits: seq<U64> := [], [], [];
    var terminated := false;
    for k := 0 to |ops|
      invariant AllLowered(ops[..k], f)
      invariant code == BytesOf(WordsFor(ops[..k], f))
      invariant forall j :: 0 <= j < k - 1 ==> !IsTerminator(ops[j].op)
      invariant terminated == (k > 0 && IsTerminator(ops[k - 1].op))
      invariant !terminated ==> relocs == [] && exits == []
      invariant terminated ==> 4 <= |code| < TWO_32 && relocs == RelocsFor(ops[k - 1], |code|)
      invariant terminated ==> exits == ExitsFor(ops[k - 1], guestPc, guestLen)
    {
      var i := ops[k];
      if terminated {
        assert IsTerminator(ops[k - 1].op);
        return Err(Inval);
      }
      var words := f(i);
      if words.Err? {
        return Err(Inval);
      }
      LoopEmits(ops, k, f);
      code := EmitWords(code, words.value);
      if IsTerminator(i.op) {
        terminated := true;
        if Branches(i.op) {
          relocs := [Reloc(|code| - 4, RELOC_BRANCH, i.target)];
          exits := [i.target];
          if i.op.Br? {
            exits := exits + [Plus(guestPc, guestLen)];
          }
        }
      }
    }
    assert ops[..|ops|] == ops;
    if !terminated {
      assert !IsTerminator(ops[|ops| - 1].op);
      return Err(Inval);
    }
    r := Ok(Unit(code, relocs, exits));
  }

  // ---- which blocks are accepted, from the IR alone ----

  /** A load's or store's displacement: 0 to 32760 in steps of 8 where LDR or STR carries it, 0 to 4095
      where an ADD does. */
  predicate InReach(i: Insn, policy: Policy, strength: Strength) {
    if policy == Conservative || i.mclass == 1 then
      if strength == Tso then 0 <= i.imm <= 32760 && i.imm % 8 == 0 else 0 <= i.imm <= 4095
    else 0 <= i.imm <= 32760 && i.imm % 8 == 0
  }

  predicate CanLower(i: Insn, policy: Policy, strength: Strength) {
    && 0 <= i.rd < 16 && 0 <= i.rn < 16 && !i.op.Unknown?
    && (i.op.Load? || i.op.Store? ==> InReach(i, policy, strength))
  }

  /** An operation is lowered exactly when its registers are x0..x15, its opcode is known and, for a
      load or store, its displacement is in reach; otherwise it is refused as invalid. */
  lemma LowersExactly(i: Insn, policy: Policy, strength: Strength)
    ensures Lower(i, policy, strength).Ok? <==> CanLower(i, policy, strength)
    ensures Lower(i, policy, strength).Err? ==> Lower(i, policy, strength) == Err(Inval)
  {
    if RegsInRange(i) && (i.op.Load? || i.op.Store?) {
      AccessExactly(i, policy, strength);
    }
  }

  lemma AccessExactly(i: Insn, policy: Policy, strength: Strength)
    requires RegsInRange(i)
    ensures LowerAccess(i, policy, strength) == Err(Inval) || LowerAccess(i, policy, strength).Ok?
    ensures LowerAccess(i, policy, strength).Ok? <==> InReach(i, policy, strength)
  {
  }

  /** One to 2^20 operations that can be lowered, the last one and no other a Br, Jmp, Ret, Call or
      X86Ret. */
  predicate Acceptable(ops: seq<Insn>, policy: Policy, strength: Strength) {
    && 1 <= |ops| <= 1048576
    && (forall k :: 0 <= k < |ops| ==> CanLower(ops[k], policy, strength))
    && (forall k :: 0 <= k < |ops| ==> (ops[k].op in {Br, Jmp, Ret, Call, X86Ret} <==> k == |ops| - 1))
  }

  lemma AcceptsExactly(ops: seq<Insn>, policy: Policy, strength: Strength)
    ensures Accepts(ops, EmitWith(policy, strength)) <==> Acceptable(ops, policy, strength)
  {
    var f := EmitWith(policy, strength);
    forall k | 0 <= k < |ops| ensures f(ops[k]).Ok? <==> CanLower(ops[k], policy, strength) {
      LowersExactly(ops[k], policy, strength);
    }
  }

  /** Translation accepts exactly those blocks; the others are invalid. */
  method TranslateEx(ops: seq<Insn>, guestPc: U64, guestLen: U32, policy: Policy, strength: Strength)
    returns (r: Result<Unit>)
    ensures r == Translated(ops, guestPc, guestLen, EmitWith(policy, strength))
    ensures r.Ok? <==> Acceptable(ops, policy, strength)
    ensures r.Err? ==> r == Err(Inval)
  {
    AcceptsExactly(ops, policy, strength);
    r := TranslateLoop(ops, guestPc, guestLen, EmitWith(policy, strength));
  }
}
