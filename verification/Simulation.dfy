/** The lowered instructions do what the IR operation means, for every operation, immediate
    range, policy and strength. */
module Simulation {
  import opened Words
  import opened Errors
  import opened GuestIr
  import opened A64
  import opened Translate

  function FlagsOf(f: Nzcv): Flags {
    Flags(f.n, f.z, f.v)
  }

  /** Guest registers live in x0..x15; memory and N, Z, V agree. The carry is nobody's business. */
  ghost predicate Sim(g: Guest, h: Host) {
    && g.Valid() && h.Valid()
    && (forall r :: 0 <= r < REG_COUNT ==> h.x[r] == g.regs[r])
    && h.mem == g.mem
    && FlagsOf(h.nzcv) == g.flags
  }

  /** Nothing above the scratch register changed. */
  ghost predicate Frame(h: Host, h': Host) {
    h.Valid() && h'.Valid() && forall r :: NEXT_PC <= r < 31 ==> h'.x[r] == h.x[r]
  }

  // ---- arithmetic ----

  lemma AddAgrees(a: U64, b: U64)
    ensures AddWithCarry(a, b, 0).value == Plus(a, b)
    ensures FlagsOf(AddWithCarry(a, b, 0).nzcv) == AddFlags(a, b)
  {
  }

  lemma SubAgrees(a: U64, b: U64)
    ensures AddWithCarry(a, Not(b), 1).value == Minus(a, b)
    ensures FlagsOf(AddWithCarry(a, Not(b), 1).nzcv) == SubFlags(a, b)
  {
    var u := a + Not(b) + 1;
    assert u == a - b + TWO_64;
    assert Signed(Not(b)) == -1 - Signed(b);
  }

  /** Adding a delta is subtracting its negation, overflow flag included. */
  lemma AddIsSub(a: U64, d: I64)
    requires d != -TWO_63
    ensures Plus(a, ToU64(d)) == Minus(a, ToU64(-d))
    ensures AddFlags(a, ToU64(d)) == SubFlags(a, ToU64(-d))
  {
    assert Signed(ToU64(d)) == d && Signed(ToU64(-d)) == -d;
  }

  lemma CondAgrees(cc: int, f: Nzcv)
    requires CC_EQ <= cc <= CC_GT
    ensures ConditionHolds(ArmCond(cc), f) == Holds(cc, FlagsOf(f))
    ensures ConditionHolds(Inverted(ArmCond(cc)), f) == !Holds(cc, FlagsOf(f))
  {
  }

  lemma {:induction false} OrWithZero(a: nat, n: nat)
    requires a < Pow2(n)
    ensures LogicBits(Or, 0, a, n) == a
  {
    if n > 0 {
      OrWithZero(a / 2, n - 1);
    }
  }

  lemma {:induction false} AndWithSelf(a: nat, n: nat)
    requires a < Pow2(n)
    ensures LogicBits(And, a, a, n) == a
  {
    if n > 0 {
      AndWithSelf(a / 2, n - 1);
    }
  }

  lemma IdentitiesAt(a: U64, n: nat)
    requires n == 64
    ensures LogicBits(Or, 0, a, n) == a && LogicBits(And, a, a, n) == a
  {
    Pow2At64(n);
    OrWithZero(a, n);
    AndWithSelf(a, n);
  }

  lemma MovAgrees(a: U64)
    ensures Logic64(Or, 0, a) == a
  {
    IdentitiesAt(a, 64);
  }

  lemma TestAgrees(a: U64)
    ensures Logic64(And, a, a) == a
  {
    IdentitiesAt(a, 64);
  }

  // ---- constants ----

  /** The low `hw` lanes of `v`. */
  function LowLanes(v: U64, hw: nat): U64 {
    if hw == 0 then 0
    else if hw == 1 then v % 0x1_0000
    else if hw == 2 then v % 0x1_0000_0000
    else if hw == 3 then v % 0x1_0000_0000_0000
    else v
  }

  lemma SplitAt16(v: U64)
    ensures v % 0x1_0000_0000 == v / 0x1_0000 % 0x1_0000 * 0x1_0000 + v % 0x1_0000
  {
    var q, r := v / 0x1_0000_0000, v % 0x1_0000_0000;
    assert v / 0x1_0000 == q * 0x1_0000 + r / 0x1_0000;
  }

  lemma SplitAt32(v: U64)
    ensures v % 0x1_0000_0000_0000 == v / 0x1_0000_0000 % 0x1_0000 * 0x1_0000_0000 + v % 0x1_0000_0000
  {
    var q, r := v / 0x1_0000_0000_0000, v % 0x1_0000_0000_0000;
    assert v / 0x1_0000_0000 == q * 0x1_0000 + r / 0x1_0000_0000;
  }

  lemma LaneSum(v: U64, hw: Lane)
    ensures LowLanes(v, hw + 1) == LowLanes(v, hw) + LaneOf(v, hw) *
      if hw == 0 then 1 else if hw == 1 then 0x1_0000 else if hw == 2 then 0x1_0000_0000 else 0x1_0000_0000_0000
  {
    if hw == 1 {
      SplitAt16(v);
    } else if hw == 2 {
      SplitAt32(v);
    }
  }

  lemma LaneInserted(v: U64, hw: Lane)
    ensures SetLane(LowLanes(v, hw), LaneOf(v, hw), hw) == LowLanes(v, hw + 1)
    ensures LaneOf(v, hw) == 0 ==> LowLanes(v, hw + 1) == LowLanes(v, hw)
  {
    LaneSum(v, hw);
  }

  lemma {:induction false} MovkLanesLoad(reg: Reg, v: U64, hw: nat, h: Host)
    requires h.Valid() && reg != ZR && hw <= 4 && h.x[reg] == LowLanes(v, hw)
    ensures AllStraight(MovkLanes(reg, v, hw))
    ensures ExecAll(MovkLanes(reg, v, hw), h) == h.Set(reg, v)
    decreases 4 - hw, v
  {
    if hw < 4 {
      LaneInserted(v, hw);
      var rest := MovkLanes(reg, v, hw + 1);
      if LaneOf(v, hw) != 0 {
        var h1 := Exec(Movk(reg, LaneOf(v, hw), hw), h);
        MovkLanesLoad(reg, v, hw + 1, h1);
        assert MovkLanes(reg, v, hw)[1..] == rest;
        assert h1.Set(reg, v) == h.Set(reg, v);
      } else {
        MovkLanesLoad(reg, v, hw + 1, h);
        assert MovkLanes(reg, v, hw) == rest;
      }
    } else {
      assert h.x[reg := v] == h.x;
    }
  }

  /** The materialised constant is the constant, for every 64-bit value. */
  lemma MovImmLoads(reg: Reg, v: U64, h: Host)
    requires h.Valid() && reg != ZR
    ensures AllStraight(MovImm(reg, v))
    ensures ExecAll(MovImm(reg, v), h) == h.Set(reg, v)
  {
    LaneInserted(v, 0);
    var h1 := Exec(Movz(reg, LaneOf(v, 0), 0), h);
    MovkLanesLoad(reg, v, 1, h1);
    assert MovImm(reg, v)[1..] == MovkLanes(reg, v, 1);
    assert h1.Set(reg, v) == h.Set(reg, v);
  }

  // ---- straight-line runs of known length ----

  /** What the simulation of one operation promises. */
  ghost predicate Simulates(i: Insn, code: seq<Instr>, g: Guest, h: Host)
    requires g.Valid() && h.Valid() && RegsInRange(i)
  {
    AllStraight(code) && Sim(Step(i, g), ExecAll(code, h)) && Frame(h, ExecAll(code, h))
  }

  lemma Exec1(i: Instr, h: Host)
    requires h.Valid()
    ensures ExecAll([i], h) == Exec(i, h)
  {
  }

  lemma Exec2(i: Instr, j: Instr, h: Host)
    requires h.Valid()
    ensures ExecAll([i, j], h) == Exec(j, Exec(i, h))
  {
    assert [i, j] == [i] + [j];
    ExecAllAppend([i], [j], h);
  }

  lemma ConstantThen(v: U64, i: Instr, h: Host)
    requires h.Valid()
    ensures ExecAll(MovImm(SCRATCH, v) + [i], h) == Exec(i, h.Set(SCRATCH, v))
    ensures Straight(i) ==> AllStraight(MovImm(SCRATCH, v) + [i])
  {
    MovImmLoads(SCRATCH, v, h);
    ExecAllAppend(MovImm(SCRATCH, v), [i], h);
  }

  /** `s` agrees with `h` after some straight-line code has turned `h0` into `h`. */
  ghost predicate Reaches(s: Guest, h0: Host, h: Host) {
    Sim(s, h) && Frame(h0, h)
  }

  lemma By1(i: Insn, a: Instr, g: Guest, h: Host)
    requires g.Valid() && h.Valid() && RegsInRange(i) && Straight(a)
    requires Reaches(Step(i, g), h, Exec(a, h))
    ensures Simulates(i, [a], g, h)
  {
    Exec1(a, h);
  }

  lemma By2(i: Insn, a: Instr, b: Instr, g: Guest, h: Host)
    requires g.Valid() && h.Valid() && RegsInRange(i) && Straight(a) && Straight(b)
    requires Reaches(Step(i, g), h, Exec(b, Exec(a, h)))
    ensures Simulates(i, [a, b], g, h)
  {
    Exec2(a, b, h);
  }

  lemma ByConstant(i: Insn, v: U64, a: Instr, g: Guest, h: Host)
    requires g.Valid() && h.Valid() && RegsInRange(i) && Straight(a)
    requires Reaches(Step(i, g), h, Exec(a, h.Set(SCRATCH, v)))
    ensures Simulates(i, MovImm(SCRATCH, v) + [a], g, h)
  {
    ConstantThen(v, a, h);
  }

  // ---- one operation ----

  lemma MoveSimulates(i: Insn, g: Guest, h: Host)
    requires i.op.MovRR? && RegsInRange(i) && Sim(g, h)
    ensures Simulates(i, [LogicReg(Or, i.rd, ZR, i.rn)], g, h)
  {
    MovAgrees(g.regs[i.rn]);
    By1(i, LogicReg(Or, i.rd, ZR, i.rn), g, h);
  }

  lemma ConstantSimulates(i: Insn, g: Guest, h: Host)
    requires i.op.MovRI? && RegsInRange(i) && Sim(g, h)
    ensures Simulates(i, MovImm(i.rd, ToU64(i.imm)), g, h)
  {
    MovImmLoads(i.rd, ToU64(i.imm), h);
  }

  lemma SetCcSimulates(i: Insn, g: Guest, h: Host)
    requires i.op.SetCc? && RegsInRange(i) && CondInRange(i) && Sim(g, h)
    ensures Simulates(i, [Csinc(i.rd, ZR, ZR, Inverted(ArmCond(i.cc)))], g, h)
  {
    CondAgrees(i.cc, h.nzcv);
    By1(i, Csinc(i.rd, ZR, ZR, Inverted(ArmCond(i.cc))), g, h);
  }

  lemma LeaSimulates(i: Insn, g: Guest, h: Host)
    requires i.op.Lea? && RegsInRange(i) && Sim(g, h)
    ensures Simulates(i, LowerLea(i), g, h)
  {
    if 0 <= i.imm <= 0xFFF {
      By1(i, AddImm(i.rd, i.rn, i.imm), g, h);
    } else if -0xFFF <= i.imm < 0 {
      By1(i, SubImm(i.rd, i.rn, -i.imm), g, h);
    } else {
      ByConstant(i, ToU64(i.imm), AddReg(i.rd, i.rn, SCRATCH), g, h);
    }
  }

  lemma AddSimulates(i: Insn, g: Guest, h: Host)
    requires i.op.AddRR? && RegsInRange(i) && Sim(g, h)
    ensures Simulates(i, [AddsReg(i.rd, i.rd, i.rn)], g, h)
  {
    AddAgrees(g.regs[i.rd], g.regs[i.rn]);
    By1(i, AddsReg(i.rd, i.rd, i.rn), g, h);
  }

  lemma SubSimulates(i: Insn, g: Guest, h: Host)
    requires i.op.SubRR? && RegsInRange(i) && Sim(g, h)
    ensures Simulates(i, [SubsReg(i.rd, i.rd, i.rn)], g, h)
  {
    SubAgrees(g.regs[i.rd], g.regs[i.rn]);
    By1(i, SubsReg(i.rd, i.rd, i.rn), g, h);
  }

  lemma CmpSimulates(i: Insn, g: Guest, h: Host)
    requires i.op.CmpRR? && RegsInRange(i) && Sim(g, h)
    ensures Simulates(i, [SubsReg(ZR, i.rd, i.rn)], g, h)
  {
    SubAgrees(g.regs[i.rd], g.regs[i.rn]);
    By1(i, SubsReg(ZR, i.rd, i.rn), g, h);
  }

  /** `s` is the guest after rd += d with flags. */
  function AddDelta(g: Guest, rd: Reg, d: I64): Guest
    requires g.Valid() && rd < 16
  {
    g.Set(rd, Plus(g.regs[rd], ToU64(d))).(flags := AddFlags(g.regs[rd], ToU64(d)))
  }

  lemma SmallAddReaches(rd: Reg, d: I64, g: Guest, h: Host)
    requires rd < 16 && Sim(g, h) && 0 <= d <= 0xFFF
    ensures Reaches(AddDelta(g, rd, d), h, Exec(AddsImm(rd, rd, d), h))
  {
    AddAgrees(g.regs[rd], d);
  }

  lemma SmallSubReaches(rd: Reg, d: I64, g: Guest, h: Host)
    requires rd < 16 && Sim(g, h) && -0xFFF <= d < 0
    ensures Reaches(AddDelta(g, rd, d), h, Exec(SubsImm(rd, rd, -d), h))
  {
    var a := g.regs[rd];
    SubAgrees(a, -d);
    AddIsSub(a, d);
    assert ToU64(-d) == -d;
  }

  lemma WideAddReaches(rd: Reg, d: I64, g: Guest, h: Host)
    requires rd < 16 && Sim(g, h)
    ensures Reaches(AddDelta(g, rd, d), h, Exec(AddsReg(rd, rd, SCRATCH), h.Set(SCRATCH, ToU64(d))))
  {
    AddAgrees(g.regs[rd], ToU64(d));
  }

  lemma AddDeltaReaches(rd: Reg, d: I64, g: Guest, h: Host)
    requires rd < 16 && Sim(g, h)
    ensures AllStraight(LowerAddDelta(rd, d))
    ensures Reaches(AddDelta(g, rd, d), h, ExecAll(LowerAddDelta(rd, d), h))
  {
    if 0 <= d <= 0xFFF {
      SmallAddReaches(rd, d, g, h);
      Exec1(AddsImm(rd, rd, d), h);
    } else if -0xFFF <= d < 0 {
      SmallSubReaches(rd, d, g, h);
      Exec1(SubsImm(rd, rd, -d), h);
    } else {
      WideAddReaches(rd, d, g, h);
      ConstantThen(ToU64(d), AddsReg(rd, rd, SCRATCH), h);
    }
  }

  /** An operation whose negated immediate is representable. */
  predicate NoMinSub(i: Insn) {
    i.op.SubRI? ==> i.imm != -TWO_63
  }

  lemma AddImmSimulates(i: Insn, g: Guest, h: Host)
    requires i.op.AddRI? && RegsInRange(i) && Sim(g, h)
    ensures Simulates(i, LowerAddDelta(i.rd, i.imm), g, h)
  {
    AddDeltaReaches(i.rd, i.imm, g, h);
  }

  lemma SubIsAddDelta(i: Insn, g: Guest)
    requires i.op.SubRI? && RegsInRange(i) && NoMinSub(i) && g.Valid()
    ensures Step(i, g) == AddDelta(g, i.rd, -i.imm)
  {
    AddIsSub(g.regs[i.rd], -i.imm);
  }

  lemma SubImmSimulates(i: Insn, g: Guest, h: Host)
    requires i.op.SubRI? && RegsInRange(i) && Sim(g, h) && NoMinSub(i)
    ensures Simulates(i, LowerAddDelta(i.rd, Negated(i.imm)), g, h)
  {
    AddDeltaReaches(i.rd, -i.imm, g, h);
    SubIsAddDelta(i, g);
  }

  /** The excluded immediate is excluded for a reason: with two's-complement negation the
      overflow flag is wrong in every state. */
  lemma SubtractingMinNeverSimulates(i: Insn, g: Guest, h: Host)
    requires i.op.SubRI? && RegsInRange(i) && Sim(g, h) && !NoMinSub(i)
    ensures !Simulates(i, LowerAddDelta(i.rd, Negated(i.imm)), g, h)
  {
    AddDeltaReaches(i.rd, -TWO_63, g, h);
    var a, k := g.regs[i.rd], ToU64(-TWO_63);
    assert Signed(k) == -TWO_63;
    assert AddFlags(a, k).v != SubFlags(a, k).v;
  }

  lemma CmpSmallSimulates(i: Insn, g: Guest, h: Host)
    requires i.op.CmpRI? && RegsInRange(i) && Sim(g, h) && 0 <= i.imm <= 0xFFF
    ensures Simulates(i, [SubsImm(ZR, i.rd, i.imm)], g, h)
  {
    SubAgrees(g.regs[i.rd], i.imm);
    By1(i, SubsImm(ZR, i.rd, i.imm), g, h);
  }

  lemma CmnSimulates(i: Insn, g: Guest, h: Host)
    requires i.op.CmpRI? && RegsInRange(i) && Sim(g, h) && -0xFFF <= i.imm < 0
    ensures Simulates(i, [AddsImm(ZR, i.rd, -i.imm)], g, h)
  {
    var a := g.regs[i.rd];
    AddAgrees(a, -i.imm);
    assert AddFlags(a, -i.imm) == SubFlags(a, ToU64(i.imm)) by {
      AddIsSub(a, -i.imm);
    }
    By1(i, AddsImm(ZR, i.rd, -i.imm), g, h);
  }

  lemma CmpImmSimulates(i: Insn, g: Guest, h: Host)
    requires i.op.CmpRI? && RegsInRange(i) && Sim(g, h)
    ensures Simulates(i, LowerCmpImm(i.rd, i.imm), g, h)
  {
    if 0 <= i.imm <= 0xFFF {
      CmpSmallSimulates(i, g, h);
    } else if -0xFFF <= i.imm < 0 {
      CmnSimulates(i, g, h);
    } else {
      SubAgrees(g.regs[i.rd], ToU64(i.imm));
      ByConstant(i, ToU64(i.imm), SubsReg(ZR, i.rd, SCRATCH), g, h);
    }
  }

  lemma AndSimulates(i: Insn, g: Guest, h: Host)
    requires (i.op.TestRR? || i.op.AndRR?) && RegsInRange(i) && Sim(g, h)
    ensures Simulates(i, [AndsReg(if i.op.AndRR? then i.rd else ZR, i.rd, i.rn)], g, h)
  {
    By1(i, AndsReg(if i.op.AndRR? then i.rd else ZR, i.rd, i.rn), g, h);
  }

  lemma OrSimulates(i: Insn, g: Guest, h: Host)
    requires (i.op.XorRR? || i.op.OrRR?) && RegsInRange(i) && Sim(g, h)
    ensures var op := if i.op.XorRR? then Xor else Or;
            Simulates(i, [LogicReg(op, i.rd, i.rd, i.rn), AndsReg(ZR, i.rd, i.rd)], g, h)
  {
    var op := if i.op.XorRR? then Xor else Or;
    TestAgrees(Logic64(op, g.regs[i.rd], g.regs[i.rn]));
    By2(i, LogicReg(op, i.rd, i.rd, i.rn), AndsReg(ZR, i.rd, i.rd), g, h);
  }

  lemma PlainAccessReaches(i: Insn, a: Instr, g: Guest, h: Host)
    requires RegsInRange(i) && Sim(g, h) && 0 <= i.imm < 0x8000
    requires (i.op.Load? && a == Ldr(i.rd, i.rn, i.imm)) || (i.op.Store? && a == Str(i.rd, i.rn, i.imm))
    ensures Reaches(Step(i, g), h, Exec(a, h))
  {
  }

  lemma OrderedLoadReaches(i: Insn, base: Reg, a: Instr, g: Guest, h: Host)
    requires i.op.Load? && RegsInRange(i) && Sim(g, h) && base <= SCRATCH && h.x[base] == Address(g, i)
    requires a == Ldar(i.rd, base) || a == Ldapr(i.rd, base)
    ensures Reaches(Step(i, g), h, Exec(a, h))
  {
  }

  lemma OrderedStoreReaches(i: Insn, base: Reg, g: Guest, h: Host)
    requires i.op.Store? && RegsInRange(i) && Sim(g, h) && base <= SCRATCH && h.x[base] == Address(g, i)
    ensures Reaches(Step(i, g), h, Exec(Stlr(i.rd, base), h))
  {
  }

  lemma OrderedAccessReaches(i: Insn, base: Reg, a: Instr, g: Guest, h: Host)
    requires RegsInRange(i) && Sim(g, h) && base <= SCRATCH && h.x[base] == Address(g, i)
    requires
      || (i.op.Load? && (a == Ldar(i.rd, base) || a == Ldapr(i.rd, base)))
      || (i.op.Store? && a == Stlr(i.rd, base))
    ensures Reaches(Step(i, g), h, Exec(a, h))
  {
    if i.op.Load? {
      OrderedLoadReaches(i, base, a, g, h);
    } else {
      OrderedStoreReaches(i, base, g, h);
    }
  }

  lemma AddressComputed(i: Insn, g: Guest, h: Host)
    requires RegsInRange(i) && Sim(g, h) && 0 <= i.imm <= 0xFFF
    ensures Reaches(g, h, Exec(AddImm(SCRATCH, i.rn, i.imm), h))
    ensures Exec(AddImm(SCRATCH, i.rn, i.imm), h).x[SCRATCH] == Address(g, i)
  {
  }

  lemma FencedAccessSimulates(i: Insn, g: Guest, h: Host)
    requires (i.op.Load? || i.op.Store?) && RegsInRange(i) && Sim(g, h) && ScaledOffset(i.imm)
    ensures i.op.Load? ==> Simulates(i, [Ldr(i.rd, i.rn, i.imm), Dmb(LoadOnly)], g, h)
    ensures i.op.Store? ==> Simulates(i, [Dmb(StoreOnly), Str(i.rd, i.rn, i.imm)], g, h)
  {
    if i.op.Load? {
      PlainAccessReaches(i, Ldr(i.rd, i.rn, i.imm), g, h);
      By2(i, Ldr(i.rd, i.rn, i.imm), Dmb(LoadOnly), g, h);
    } else {
      PlainAccessReaches(i, Str(i.rd, i.rn, i.imm), g, h);
      By2(i, Dmb(StoreOnly), Str(i.rd, i.rn, i.imm), g, h);
    }
  }

  lemma DisplacedAccessSimulates(i: Insn, a: Instr, g: Guest, h: Host)
    requires RegsInRange(i) && Sim(g, h) && 0 <= i.imm <= 0xFFF
    requires
      || (i.op.Load? && (a == Ldar(i.rd, SCRATCH) || a == Ldapr(i.rd, SCRATCH)))
      || (i.op.Store? && a == Stlr(i.rd, SCRATCH))
    ensures Simulates(i, [AddImm(SCRATCH, i.rn, i.imm), a], g, h)
  {
    AddressComputed(i, g, h);
    var h1 := Exec(AddImm(SCRATCH, i.rn, i.imm), h);
    OrderedAccessReaches(i, SCRATCH, a, g, h1);
    FrameTwice(h, h1, Exec(a, h1));
    By2(i, AddImm(SCRATCH, i.rn, i.imm), a, g, h);
  }

  lemma AccessSimulates(i: Insn, g: Guest, h: Host, policy: Policy, strength: Strength)
    requires (i.op.Load? || i.op.Store?) && RegsInRange(i) && Sim(g, h)
    requires LowerAccess(i, policy, strength).Ok?
    ensures Simulates(i, LowerAccess(i, policy, strength).value, g, h)
  {
    var code := LowerAccess(i, policy, strength).value;
    if !Ordered(i, policy) {
      PlainAccessReaches(i, code[0], g, h);
      By1(i, code[0], g, h);
    } else if strength.Tso? {
      FencedAccessSimulates(i, g, h);
    } else if i.imm == 0 {
      OrderedAccessReaches(i, i.rn, code[0], g, h);
      By1(i, code[0], g, h);
    } else {
      DisplacedAccessSimulates(i, code[1], g, h);
      assert code == [code[0], code[1]];
    }
  }

  // ---- atomics ----

  /** What the emitted code does: LDADDAL and CASAL leave the flags as they were, where LOCK ADD and
      LOCK CMPXCHG set them. */
  function Kept(i: Insn, g: Guest): (g': Guest)
    requires g.Valid() && RegsInRange(i)
    ensures g'.Valid()
  {
    if IsAtomic(i.op) then Step(i, g).(flags := g.flags) else Step(i, g)
  }

  lemma AtomicAddReaches(i: Insn, g: Guest, h: Host)
    requires i.op.AtomicAdd? && RegsInRange(i) && Sim(g, h)
    ensures Reaches(Kept(i, g), h, Exec(Ldaddal(i.rd, ZR, i.rn), h))
  {
  }

  lemma AtomicCasReaches(i: Insn, g: Guest, h: Host)
    requires i.op.AtomicCas? && RegsInRange(i) && Sim(g, h)
    ensures Reaches(Kept(i, g), h, Exec(Casal(RAX, i.rd, i.rn), h))
  {
  }

  lemma AtomicRuns(i: Insn, g: Guest, h: Host, policy: Policy, strength: Strength)
    requires IsAtomic(i.op) && RegsInRange(i) && Sim(g, h)
    ensures var code := Lower(i, policy, strength).value;
            AllStraight(code) && Reaches(Kept(i, g), h, ExecAll(code, h))
  {
    if i.op.AtomicAdd? {
      AtomicAddReaches(i, g, h);
      Exec1(Ldaddal(i.rd, ZR, i.rn), h);
    } else {
      AtomicCasReaches(i, g, h);
      Exec1(Casal(RAX, i.rd, i.rn), h);
    }
  }

  /** An atomic ends with the flags of the x86 instruction exactly when they were those already. */
  lemma AtomicFlagsExactly(i: Insn, g: Guest, h: Host, policy: Policy, strength: Strength)
    requires IsAtomic(i.op) && RegsInRange(i) && Sim(g, h)
    ensures Simulates(i, Lower(i, policy, strength).value, g, h) <==> g.flags == Step(i, g).flags
  {
    AtomicRuns(i, g, h, policy, strength);
    assert g.flags == Step(i, g).flags ==> Kept(i, g) == Step(i, g);
  }

  lemma StackMoved(g: Guest, h: Host)
    requires Sim(g, h)
    ensures Reaches(g.Set(RSP, Minus(g.regs[RSP], 8)), h, Exec(SubImm(RSP, RSP, 8), h))
    ensures Reaches(g.Set(RSP, Plus(g.regs[RSP], 8)), h, Exec(AddImm(RSP, RSP, 8), h))
  {
  }

  lemma PushSimulates(i: Insn, g: Guest, h: Host)
    requires i.op.Push? && RegsInRange(i) && Sim(g, h)
    ensures Simulates(i, [SubImm(RSP, RSP, 8), Str(i.rd, RSP, 0)], g, h)
  {
    StackMoved(g, h);
    var g1, h1 := g.Set(RSP, Minus(g.regs[RSP], 8)), Exec(SubImm(RSP, RSP, 8), h);
    assert Reaches(g1.(mem := Store64(g1.mem, g1.regs[RSP], g1.regs[i.rd])), h1, Exec(Str(i.rd, RSP, 0), h1));
    By2(i, SubImm(RSP, RSP, 8), Str(i.rd, RSP, 0), g, h);
  }

  lemma StackLoaded(rd: Reg, g: Guest, h: Host)
    requires rd < 16 && Sim(g, h)
    ensures Reaches(g.Set(rd, Load64(g.mem, g.regs[RSP])), h, Exec(Ldr(rd, RSP, 0), h))
  {
  }

  lemma PopSteps(i: Insn, g: Guest)
    requires i.op.Pop? && RegsInRange(i) && g.Valid()
    ensures var g1 := g.Set(i.rd, Load64(g.mem, g.regs[RSP]));
            Step(i, g) == g1.Set(RSP, Plus(g1.regs[RSP], 8))
  {
  }

  lemma PopSimulates(i: Insn, g: Guest, h: Host)
    requires i.op.Pop? && RegsInRange(i) && Sim(g, h)
    ensures Simulates(i, [Ldr(i.rd, RSP, 0), AddImm(RSP, RSP, 8)], g, h)
  {
    StackLoaded(i.rd, g, h);
    var g1, h1 := g.Set(i.rd, Load64(g.mem, g.regs[RSP])), Exec(Ldr(i.rd, RSP, 0), h);
    StackMoved(g1, h1);
    PopSteps(i, g);
    FrameTwice(h, h1, Exec(AddImm(RSP, RSP, 8), h1));
    Exec2(Ldr(i.rd, RSP, 0), AddImm(RSP, RSP, 8), h);
  }

  lemma FrameTwice(h0: Host, h1: Host, h2: Host)
    requires Frame(h0, h1) && Frame(h1, h2)
    ensures Frame(h0, h2)
  {
  }

  /** Every non-terminator but the atomics, every accepted immediate, every policy and strength. */
  lemma StepSimulates(i: Insn, g: Guest, h: Host, policy: Policy, strength: Strength)
    requires !IsTerminator(i.op) && RegsInRange(i) && CondInRange(i) && NoMinSub(i) && Sim(g, h) && !IsAtomic(i.op)
    requires Lower(i, policy, strength).Ok?
    ensures Simulates(i, Lower(i, policy, strength).value, g, h)
  {
    match i.op
    case Load => AccessSimulates(i, g, h, policy, strength);
    case Store => AccessSimulates(i, g, h, policy, strength);
    case MovRR => MoveSimulates(i, g, h);
    case MovRI => ConstantSimulates(i, g, h);
    case SetCc => SetCcSimulates(i, g, h);
    case Lea => LeaSimulates(i, g, h);
    case AddRR => AddSimulates(i, g, h);
    case SubRR => SubSimulates(i, g, h);
    case CmpRR => CmpSimulates(i, g, h);
    case AddRI => AddImmSimulates(i, g, h);
    case SubRI => SubImmSimulates(i, g, h);
    case CmpRI => CmpImmSimulates(i, g, h);
    case TestRR => AndSimulates(i, g, h);
    case AndRR => AndSimulates(i, g, h);
    case XorRR => OrSimulates(i, g, h);
    case OrRR => OrSimulates(i, g, h);
    case Fence => By1(i, Dmb(BarrierOf(i.cc)), g, h);
    case Push => PushSimulates(i, g, h);
    case Pop => PopSimulates(i, g, h);
  }

  /** Every non-terminator takes registers and memory to what the IR says, and the flags too unless it
      is an atomic, which leaves them. */
  lemma StepRuns(i: Insn, g: Guest, h: Host, policy: Policy, strength: Strength)
    requires !IsTerminator(i.op) && RegsInRange(i) && CondInRange(i) && NoMinSub(i) && Sim(g, h)
    requires Lower(i, policy, strength).Ok?
    ensures var code := Lower(i, policy, strength).value;
            AllStraight(code) && Reaches(Kept(i, g), h, ExecAll(code, h))
  {
    if IsAtomic(i.op) {
      AtomicRuns(i, g, h, policy, strength);
    } else {
      StepSimulates(i, g, h, policy, strength);
    }
  }
}
