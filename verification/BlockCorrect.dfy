/** The whole block: translate, link and run is what the IR block means. */
module BlockCorrect {
  import opened Words
  import opened Errors
  import opened GuestIr
  import opened A64
  import opened Encode
  import opened Translate
  import opened Link
  import opened Simulation
  import opened AtomicFlags

  // ---- what the linked image holds ----

  /** The instructions of a run of accepted operations. */
  function Body(ops: seq<Insn>, policy: Policy, strength: Strength): seq<Instr>
    requires AllLowered(ops, EmitWith(policy, strength))
  {
    if ops == [] then []
    else
      assert EmitWith(policy, strength)(ops[0]).Ok?;
      Lower(ops[0], policy, strength).value + Body(ops[1..], policy, strength)
  }

  /** What a terminator emits before its last word. */
  function TermHead(i: Insn): seq<Instr>
    requires RegsInRange(i)
  {
    if i.op.Call? then MovImm(SCRATCH, ToU64(i.imm)) + [SubImm(RSP, RSP, 8), Str(SCRATCH, RSP, 0)]
    else if i.op.X86Ret? then [Ldr(NEXT_PC, RSP, 0), AddImm(RSP, RSP, 8)]
    else []
  }

  /** Its last word, with the branch displacement the linker fills in: over one stub or to the first. */
  function TermLast(i: Insn, linked: bool): Instr
    requires IsTerminator(i.op)
  {
    if i.op.Br? then BCond(ArmCond(i.cc), if linked then 6 else 0)
    else if Branches(i.op) then B(if linked then 1 else 0)
    else RetTo(LINK)
  }

  /** The stubs behind it. */
  function TermStubs(i: Insn, fallThrough: U64): seq<U32> {
    if i.op.Br? then StubWords(fallThrough) + StubWords(i.target)
    else if Branches(i.op) then StubWords(i.target)
    else []
  }

  lemma TermLowered(i: Insn, policy: Policy, strength: Strength)
    requires Lower(i, policy, strength).Ok? && IsTerminator(i.op)
    ensures RegsInRange(i)
    ensures Lower(i, policy, strength).value == TermHead(i) + [TermLast(i, false)]
  {
  }

  lemma EmittedAssembles(i: Insn, policy: Policy, strength: Strength)
    requires Emit(i, policy, strength).Ok?
    ensures Lower(i, policy, strength).Ok? && AllEncodable(Lower(i, policy, strength).value)
    ensures Emit(i, policy, strength).value == Assemble(Lower(i, policy, strength).value)
  {
    LoweredEncodable(i, policy, strength);
  }

  lemma {:induction false} BodyAssembles(ops: seq<Insn>, policy: Policy, strength: Strength)
    requires AllLowered(ops, EmitWith(policy, strength))
    ensures AllEncodable(Body(ops, policy, strength))
    ensures WordsFor(ops, EmitWith(policy, strength)) == Assemble(Body(ops, policy, strength))
  {
    if ops != [] {
      BodyAssembles(ops[1..], policy, strength);
      assert EmitWith(policy, strength)(ops[0]).Ok?;
      EmittedAssembles(ops[0], policy, strength);
      AssembleAppend(Lower(ops[0], policy, strength).value, Body(ops[1..], policy, strength));
    }
  }

  lemma BytesOfSnoc(ws: seq<U32>, w: U32)
    ensures BytesOf(ws + [w]) == BytesOf(ws) + Le32(w)
  {
    BytesOfAppend(ws, [w]);
    assert BytesOf([w]) == Le32(w) + BytesOf([]);
  }

  lemma PatchLast(ws: seq<U32>, w: U32, to: nat)
    requires 4 * |ws| <= to && (to - 4 * |ws|) / 4 < 0x4_0000
    ensures Patched(BytesOf(ws + [w]), 4 * |ws|, to) == BytesOf(ws + [PatchedWord(w, (to - 4 * |ws|) / 4)])
  {
    BytesOfSnoc(ws, w);
    LastWord(BytesOf(ws), w);
    var w' := PatchedWord(w, (to - 4 * |ws|) / 4);
    SpliceEnd(BytesOf(ws), Le32(w), Le32(w'));
    BytesOfSnoc(ws, w');
  }

  lemma LastWord(pre: seq<U8>, w: U32)
    ensures Rd32(pre + Le32(w), |pre|) == w
  {
    assert (pre + Le32(w))[|pre|..|pre| + 4] == Le32(w);
    FieldRoundTrips(0, w, 0);
  }

  /** A terminator's last word before linking, and after. */
  function LastWordOf(i: Insn, linked: bool): U32
    requires IsTerminator(i.op)
  {
    if i.op.Br? then 0x5400_0000 + (if linked then 6 * 0x20 else 0) + ArmCond(i.cc)
    else if Branches(i.op) then 0x1400_0000 + (if linked then 1 else 0)
    else 0xD65F_03C0
  }

  lemma LastWordAssembles(i: Insn, linked: bool)
    requires IsTerminator(i.op)
    ensures Encodable(TermLast(i, linked)) && Word(TermLast(i, linked)) == LastWordOf(i, linked)
  {
  }

  lemma {:induction false} LinkReturn(ws: seq<U32>, w: U32)
    requires 4 * |ws| + 4 < TWO_32 && w == 0xD65F_03C0
    ensures Linked(Unit(BytesOf(ws + [w]), [], [])) == Ok(BytesOf(ws + [w]))
  {
    BytesOfSnoc(ws, w);
    LastWord(BytesOf(ws), w);
  }

  /** The image of code that ends in a relocated branch. */
  lemma LinkedCode(code: seq<U8>, target: U64, fallThrough: U64)
    requires 4 <= |code| < TWO_32 && |code| % 4 == 0
    ensures var relocs, n := [Reloc(|code| - 4, RELOC_BRANCH, target)], |code|;
            && Linked(Unit(code, relocs, [target])) == Ok(Patched(code, n - 4, n) + BytesOf(StubWords(target)))
            && Linked(Unit(code, relocs, [target, fallThrough]))
            == Ok(Patched(code, n - 4, n + STUB_BYTES) + BytesOf(StubWords(fallThrough) + StubWords(target)))
  {
  }

  lemma {:induction false} LinkJump(ws: seq<U32>, w: U32, w': U32, target: U64)
    requires 4 * |ws| + 4 < TWO_32 && w' == PatchedWord(w, 1)
    ensures Linked(Unit(BytesOf(ws + [w]), [Reloc(4 * |ws|, RELOC_BRANCH, target)], [target]))
         == Ok(BytesOf(ws + [w'] + StubWords(target)))
  {
    LinkedCode(BytesOf(ws + [w]), target, 0);
    PatchLast(ws, w, 4 * |ws| + 4);
    BytesOfAppend(ws + [w'], StubWords(target));
  }

  lemma {:induction false} LinkBranch(ws: seq<U32>, w: U32, w': U32, target: U64, fallThrough: U64)
    requires 4 * |ws| + 4 < TWO_32 && w' == PatchedWord(w, 6)
    ensures Linked(Unit(BytesOf(ws + [w]), [Reloc(4 * |ws|, RELOC_BRANCH, target)], [target, fallThrough]))
         == Ok(BytesOf(ws + [w'] + (StubWords(fallThrough) + StubWords(target))))
  {
    LinkedCode(BytesOf(ws + [w]), target, fallThrough);
    PatchLast(ws, w, 4 * |ws| + 4 + STUB_BYTES);
    BytesOfAppend(ws + [w'], StubWords(fallThrough) + StubWords(target));
  }

  lemma LastWordPatched(i: Insn)
    requires Branches(i.op)
    ensures LastWordOf(i, true) == PatchedWord(LastWordOf(i, false), if i.op.Br? then 6 else 1)
  {
  }

  /** What the linker makes of words ending in a terminator. */
  lemma {:induction false} LinkFrom(ws: seq<U32>, i: Insn, w: U32, w': U32, guestPc: U64, guestLen: U32)
    requires IsTerminator(i.op) && 4 * |ws| + 4 < TWO_32 && w == LastWordOf(i, false) && w' == LastWordOf(i, true)
    ensures Linked(Unit(BytesOf(ws + [w]), RelocsFor(i, 4 * |ws| + 4), ExitsFor(i, guestPc, guestLen)))
         == Ok(BytesOf(ws + [w'] + TermStubs(i, Plus(guestPc, guestLen))))
  {
    if i.op.Br? {
      LastWordPatched(i);
      LinkBranch(ws, w, w', i.target, Plus(guestPc, guestLen));
    } else if Branches(i.op) {
      LastWordPatched(i);
      LinkJump(ws, w, w', i.target);
    } else {
      LinkReturn(ws, w);
      assert ws + [w] + [] == ws + [w];
    }
  }

  // ---- the words of an accepted block, whatever the lowering ----

  /** The lowering of this terminator ends in its last word. */
  ghost predicate EndsWell(i: Insn, f: Lowering) {
    IsTerminator(i.op) && f(i).Ok? && f(i).value != [] && f(i).value[|f(i).value| - 1] == LastWordOf(i, false)
  }

  /** Everything before the last word of a block. */
  function FrontWords(ops: seq<Insn>, f: Lowering): seq<U32>
    requires AllLowered(ops, f) && ops != []
  {
    var last := f(ops[|ops| - 1]).value;
    WordsFor(ops[..|ops| - 1], f) + if last == [] then [] else last[..|last| - 1]
  }

  lemma {:induction false} BlockWords(ops: seq<Insn>, f: Lowering)
    requires AllLowered(ops, f) && ops != [] && EndsWell(ops[|ops| - 1], f)
    ensures WordsFor(ops, f) == FrontWords(ops, f) + [LastWordOf(ops[|ops| - 1], false)]
  {
    var n := |ops| - 1;
    assert ops == ops[..n] + [ops[n]];
    WordsForSnoc(ops[..n], ops[n], f);
  }

  /** The words of the linked image of a block. */
  function ImageWords(ops: seq<Insn>, fallThrough: U64, f: Lowering): seq<U32>
    requires Accepts(ops, f)
  {
    var last := ops[|ops| - 1];
    FrontWords(ops, f) + [LastWordOf(last, true)] + TermStubs(last, fallThrough)
  }

  lemma LinkBlock(ops: seq<Insn>, guestPc: U64, guestLen: U32, f: Lowering)
    requires Accepts(ops, f) && Bounded(f) && EndsWell(ops[|ops| - 1], f)
    ensures Linked(UnitOf(ops, guestPc, guestLen, f)) == Ok(BytesOf(ImageWords(ops, Plus(guestPc, guestLen), f)))
  {
    BlockWords(ops, f);
    WordCount(ops, f);
    var last := ops[|ops| - 1];
    LinkFrom(FrontWords(ops, f), last, LastWordOf(last, false), LastWordOf(last, true), guestPc, guestLen);
  }

  lemma TermEndsWell(i: Insn, policy: Policy, strength: Strength)
    requires Emit(i, policy, strength).Ok? && IsTerminator(i.op)
    ensures EndsWell(i, EmitWith(policy, strength))
  {
    EmittedAssembles(i, policy, strength);
    TermLowered(i, policy, strength);
    LastWordAssembles(i, false);
    var code := Lower(i, policy, strength).value;
    assert TermHead(i) == code[..|code| - 1];
    AssembleAppend(TermHead(i), [TermLast(i, false)]);
    assert Assemble([TermLast(i, false)]) == [Word(TermLast(i, false))];
  }

  /** The linker accepts whatever the translator produces, and builds that image. */
  lemma LinkAccepts(ops: seq<Insn>, guestPc: U64, guestLen: U32, policy: Policy, strength: Strength)
    requires Accepts(ops, EmitWith(policy, strength))
    ensures Linked(UnitOf(ops, guestPc, guestLen, EmitWith(policy, strength)))
         == Ok(BytesOf(ImageWords(ops, Plus(guestPc, guestLen), EmitWith(policy, strength))))
  {
    var f := EmitWith(policy, strength);
    assert f(ops[|ops| - 1]).Ok?;
    TermEndsWell(ops[|ops| - 1], policy, strength);
    LinkBlock(ops, guestPc, guestLen, f);
  }

  // ---- the instructions of the image ----

  function StubCode(pc: U64, hw: nat): (code: seq<Instr>)
    requires hw <= 4
    ensures |code| == 5 - hw
    decreases 4 - hw, pc
  {
    if hw == 4 then [RetTo(LINK)]
    else
      var mov := if hw == 0 then Movz(NEXT_PC, LaneOf(pc, hw), hw) else Movk(NEXT_PC, LaneOf(pc, hw), hw);
      [mov] + StubCode(pc, hw + 1)
  }

  lemma {:induction false} StubAssembles(pc: U64, hw: nat)
    requires hw <= 4
    ensures AllEncodable(StubCode(pc, hw)) && Assemble(StubCode(pc, hw)) == StubFrom(pc, hw)
    decreases 4 - hw, pc
  {
    if hw < 4 {
      StubAssembles(pc, hw + 1);
    }
  }

  function StubsCode(i: Insn, fallThrough: U64): seq<Instr> {
    if i.op.Br? then StubCode(fallThrough, 0) + StubCode(i.target, 0)
    else if Branches(i.op) then StubCode(i.target, 0)
    else []
  }

  lemma StubsAssemble(i: Insn, fallThrough: U64)
    ensures AllEncodable(StubsCode(i, fallThrough)) && Assemble(StubsCode(i, fallThrough)) == TermStubs(i, fallThrough)
  {
    StubAssembles(fallThrough, 0);
    StubAssembles(i.target, 0);
    AssembleAppend(StubCode(fallThrough, 0), StubCode(i.target, 0));
  }

  /** A linked terminator. */
  function TermCode(i: Insn, fallThrough: U64): seq<Instr>
    requires IsTerminator(i.op) && RegsInRange(i)
  {
    TermHead(i) + [TermLast(i, true)] + StubsCode(i, fallThrough)
  }

  /** The instructions of a block's linked image. */
  function ImageCode(ops: seq<Insn>, fallThrough: U64, policy: Policy, strength: Strength): seq<Instr>
    requires Accepts(ops, EmitWith(policy, strength)) && RegsInRange(ops[|ops| - 1])
  {
    Body(ops[..|ops| - 1], policy, strength) + TermCode(ops[|ops| - 1], fallThrough)
  }

  lemma HeadAssembles(i: Insn, policy: Policy, strength: Strength)
    requires Emit(i, policy, strength).Ok? && IsTerminator(i.op)
    ensures RegsInRange(i) && AllEncodable(TermHead(i))
    ensures var ws := Emit(i, policy, strength).value; ws[..|ws| - 1] == Assemble(TermHead(i))
  {
    EmittedAssembles(i, policy, strength);
    TermLowered(i, policy, strength);
    var code := Lower(i, policy, strength).value;
    assert TermHead(i) == code[..|code| - 1];
    AssembleAppend(TermHead(i), [TermLast(i, false)]);
  }

  lemma ImageAssembles(ops: seq<Insn>, fallThrough: U64, policy: Policy, strength: Strength)
    requires Accepts(ops, EmitWith(policy, strength))
    ensures RegsInRange(ops[|ops| - 1]) && AllEncodable(ImageCode(ops, fallThrough, policy, strength))
    ensures ImageWords(ops, fallThrough, EmitWith(policy, strength))
         == Assemble(ImageCode(ops, fallThrough, policy, strength))
  {
    var f, n := EmitWith(policy, strength), |ops| - 1;
    var last := ops[n];
    assert f(last).Ok?;
    var body, head := Body(ops[..n], policy, strength), TermHead(last);
    var end, stubs := TermLast(last, true), StubsCode(last, fallThrough);
    BodyAssembles(ops[..n], policy, strength);
    HeadAssembles(last, policy, strength);
    LastWordAssembles(last, true);
    StubsAssemble(last, fallThrough);
    JoinAssembles(body, head, end, stubs);
  }

  lemma TermAssembles(b: seq<Instr>, i: Instr, c: seq<Instr>)
    requires AllEncodable(b) && Encodable(i) && AllEncodable(c)
    ensures AllEncodable(b + [i] + c) && Assemble(b + [i] + c) == Assemble(b) + [Word(i)] + Assemble(c)
  {
    AssembleAppend(b, [i]);
    AssembleAppend(b + [i], c);
    assert Assemble([i]) == [Word(i)];
  }

  lemma JoinAssembles(a: seq<Instr>, b: seq<Instr>, i: Instr, c: seq<Instr>)
    requires AllEncodable(a) && AllEncodable(b) && Encodable(i) && AllEncodable(c)
    ensures AllEncodable(a + (b + [i] + c))
    ensures Assemble(a + (b + [i] + c)) == Assemble(a) + Assemble(b) + [Word(i)] + Assemble(c)
  {
    TermAssembles(b, i, c);
    AssembleAppend(a, b + [i] + c);
  }

  // ---- running it ----

  /** Straight-line operations the compiler is correct for. */
  predicate Plain(ops: seq<Insn>) {
    forall k :: 0 <= k < |ops| ==>
      !IsTerminator(ops[k].op) && RegsInRange(ops[k]) && CondInRange(ops[k]) && NoMinSub(ops[k])
  }

  lemma {:induction false} BodySimulates(ops: seq<Insn>, g: Guest, h: Host, policy: Policy, strength: Strength)
    requires Plain(ops) && AllLowered(ops, EmitWith(policy, strength)) && Sim(g, h)
    ensures AllStraight(Body(ops, policy, strength))
    ensures Reaches(KeptAll(ops, g), h, ExecAll(Body(ops, policy, strength), h))
  {
    if ops != [] {
      assert EmitWith(policy, strength)(ops[0]).Ok?;
      var first, rest := Lower(ops[0], policy, strength).value, Body(ops[1..], policy, strength);
      StepRuns(ops[0], g, h, policy, strength);
      var h1 := ExecAll(first, h);
      BodySimulates(ops[1..], Kept(ops[0], g), h1, policy, strength);
      ExecAllAppend(first, rest, h);
      FrameTwice(h, h1, ExecAll(rest, h1));
    }
  }

  lemma {:induction false} StubRuns(code: seq<Instr>, at: nat, pc: U64, hw: nat, h: Host)
    requires h.Valid() && hw <= 4 && (hw > 0 ==> h.x[NEXT_PC] == LowLanes(pc, hw))
    requires at + 5 - hw <= |code| && code[at..at + 5 - hw] == StubCode(pc, hw)
    ensures Run(code, at, h) == Returned(h.Set(NEXT_PC, pc))
    decreases 4 - hw, pc
  {
    assert code[at] == StubCode(pc, hw)[0];
    if hw == 4 {
      assert h.x[NEXT_PC := pc] == h.x;
    } else {
      LaneInserted(pc, hw);
      var h1 := Exec(code[at], h);
      RunOne(code, at, h);
      assert StubCode(pc, hw)[1..] == StubCode(pc, hw + 1);
      assert code[at + 1..at + 1 + 5 - (hw + 1)] == code[at..at + 5 - hw][1..];
      StubRuns(code, at + 1, pc, hw + 1, h1);
      assert h1.Set(NEXT_PC, pc) == h.Set(NEXT_PC, pc);
    }
  }

  /** The block returned, in the state and with the successor the IR gives. */
  ghost predicate Delivers(o: Outcome, e: Exit, h: Host) {
    && o.Returned? && h.Valid()
    && Sim(e.guest, o.host)
    && o.host.x[NEXT_PC] == e.pc
    && forall r :: NEXT_PC < r < 31 ==> o.host.x[r] == h.x[r]
  }

  lemma StubDelivers(code: seq<Instr>, at: nat, pc: U64, g: Guest, h: Host)
    requires Sim(g, h) && at + 5 <= |code| && code[at..at + 5] == StubCode(pc, 0)
    ensures Delivers(Run(code, at, h), Exit(g, pc), h)
  {
    StubRuns(code, at, pc, 0, h);
  }

  /** `code` holds the instructions `part` from `at` on. */
  predicate Holding(code: seq<Instr>, at: nat, part: seq<Instr>) {
    at + |part| <= |code| && code[at..at + |part|] == part
  }

  lemma HoldingParts(code: seq<Instr>, at: nat, a: seq<Instr>, b: seq<Instr>)
    requires Holding(code, at, a + b)
    ensures Holding(code, at, a) && Holding(code, at + |a|, b)
  {
    assert code[at..at + |a|] == code[at..at + |a + b|][..|a|];
    assert code[at + |a|..at + |a| + |b|] == code[at..at + |a + b|][|a|..];
  }

  lemma JumpRuns(code: seq<Instr>, at: nat, target: U64, g: Guest, h: Host)
    requires Sim(g, h) && Holding(code, at, [B(1)] + StubCode(target, 0))
    ensures Delivers(Run(code, at, h), Exit(g, target), h)
  {
    HoldingParts(code, at, [B(1)], StubCode(target, 0));
    assert code[at] == code[at..at + 1][0];
    StubDelivers(code, at + 1, target, g, h);
  }

  lemma BranchRuns(code: seq<Instr>, at: nat, i: Insn, fallThrough: U64, g: Guest, h: Host)
    requires Sim(g, h) && i.op.Br? && CondInRange(i)
    requires Holding(code, at, [BCond(ArmCond(i.cc), 6)] + (StubCode(fallThrough, 0) + StubCode(i.target, 0)))
    ensures Delivers(Run(code, at, h), Exit(g, Successor(i, g, fallThrough)), h)
  {
    CondAgrees(i.cc, h.nzcv);
    HoldingParts(code, at, [BCond(ArmCond(i.cc), 6)], StubCode(fallThrough, 0) + StubCode(i.target, 0));
    HoldingParts(code, at + 1, StubCode(fallThrough, 0), StubCode(i.target, 0));
    assert code[at] == code[at..at + 1][0];
    if Holds(i.cc, g.flags) {
      StubDelivers(code, at + 6, i.target, g, h);
    } else {
      StubDelivers(code, at + 1, fallThrough, g, h);
    }
  }

  /** CALL's head leaves the return address on the guest stack. */
  lemma CallHeadReaches(i: Insn, g: Guest, h: Host)
    requires i.op.Call? && RegsInRange(i) && Sim(g, h)
    ensures AllStraight(TermHead(i)) && Reaches(Step(i, g), h, ExecAll(TermHead(i), h))
  {
    var v := ToU64(i.imm);
    var stack := [SubImm(RSP, RSP, 8), Str(SCRATCH, RSP, 0)];
    MovImmLoads(SCRATCH, v, h);
    ExecAllAppend(MovImm(SCRATCH, v), stack, h);
    var h1 := h.Set(SCRATCH, v);
    Exec2(stack[0], stack[1], h1);
    StackMoved(g, h1);
    ReturnAddressStored(g, Exec(stack[0], h1), v);
    CallSteps(i, g);
  }

  lemma CallSteps(i: Insn, g: Guest)
    requires i.op.Call? && RegsInRange(i) && g.Valid()
    ensures var sp := Minus(g.regs[RSP], 8);
            Step(i, g) == g.Set(RSP, sp).(mem := Store64(g.mem, sp, ToU64(i.imm)))
  {
  }

  lemma ReturnAddressStored(g: Guest, h: Host, v: U64)
    requires g.Valid() && Sim(g.Set(RSP, Minus(g.regs[RSP], 8)), h) && h.x[SCRATCH] == v
    ensures var sp := Minus(g.regs[RSP], 8);
            Reaches(g.Set(RSP, sp).(mem := Store64(g.mem, sp, v)), h, Exec(Str(SCRATCH, RSP, 0), h))
  {
  }

  lemma HeadThenJump(code: seq<Instr>, at: nat, head: seq<Instr>, target: U64, g: Guest, h: Host)
    requires h.Valid() && AllStraight(head) && Reaches(g, h, ExecAll(head, h))
    requires Holding(code, at, head) && Holding(code, at + |head|, [B(1)] + StubCode(target, 0))
    ensures Delivers(Run(code, at, h), Exit(g, target), h)
  {
    RunStraight(code, at, head, h);
    JumpRuns(code, at + |head|, target, g, ExecAll(head, h));
    DeliversFrom(Run(code, at + |head|, ExecAll(head, h)), Exit(g, target), h, ExecAll(head, h));
  }

  lemma CallRuns(code: seq<Instr>, at: nat, i: Insn, g: Guest, h: Host)
    requires i.op.Call? && RegsInRange(i) && Sim(g, h)
    requires Holding(code, at, TermHead(i) + ([B(1)] + StubCode(i.target, 0)))
    ensures Delivers(Run(code, at, h), Exit(Step(i, g), i.target), h)
  {
    CallHeadReaches(i, g, h);
    HoldingParts(code, at, TermHead(i), [B(1)] + StubCode(i.target, 0));
    HeadThenJump(code, at, TermHead(i), i.target, Step(i, g), h);
  }

  lemma NextPcPopped(g: Guest, h: Host)
    requires Sim(g, h)
    ensures var h' := Exec(AddImm(RSP, RSP, 8), Exec(Ldr(NEXT_PC, RSP, 0), h));
            Delivers(Returned(h'), Exit(g.Set(RSP, Plus(g.regs[RSP], 8)), Load64(g.mem, g.regs[RSP])), h)
  {
    var h1 := Exec(Ldr(NEXT_PC, RSP, 0), h);
    assert h1 == h.Set(NEXT_PC, Load64(g.mem, g.regs[RSP]));
    StackMoved(g, h1);
  }

  lemma ReturnRuns(code: seq<Instr>, at: nat, head: seq<Instr>, h: Host)
    requires h.Valid() && AllStraight(head) && Holding(code, at, head + [RetTo(LINK)])
    ensures Run(code, at, h) == Returned(ExecAll(head, h))
  {
    HoldingParts(code, at, head, [RetTo(LINK)]);
    RunStraight(code, at, head, h);
    assert code[at + |head|] == code[at + |head|..at + |head| + 1][0];
  }

  /** RET of the guest: the popped address goes to x17, then the block returns. */
  lemma X86RetRuns(code: seq<Instr>, at: nat, g: Guest, h: Host)
    requires Sim(g, h) && Holding(code, at, [Ldr(NEXT_PC, RSP, 0), AddImm(RSP, RSP, 8)] + [RetTo(LINK)])
    ensures Delivers(Run(code, at, h), Exit(g.Set(RSP, Plus(g.regs[RSP], 8)), Load64(g.mem, g.regs[RSP])), h)
  {
    ReturnRuns(code, at, [Ldr(NEXT_PC, RSP, 0), AddImm(RSP, RSP, 8)], h);
    Exec2(Ldr(NEXT_PC, RSP, 0), AddImm(RSP, RSP, 8), h);
    NextPcPopped(g, h);
  }

  lemma QuietTermRuns(code: seq<Instr>, at: nat, i: Insn, fallThrough: U64, g: Guest, h: Host)
    requires (i.op.Br? || i.op.Jmp? || i.op.Ret?) && RegsInRange(i) && CondInRange(i)
    requires Sim(g, h) && h.x[NEXT_PC] == HALT_PC && Holding(code, at, TermCode(i, fallThrough))
    ensures Delivers(Run(code, at, h), Exit(g, Successor(i, g, fallThrough)), h)
  {
    if i.op.Br? {
      assert TermCode(i, fallThrough) == [BCond(ArmCond(i.cc), 6)] + (StubCode(fallThrough, 0) + StubCode(i.target, 0));
      BranchRuns(code, at, i, fallThrough, g, h);
    } else if i.op.Jmp? {
      assert TermCode(i, fallThrough) == [B(1)] + StubCode(i.target, 0);
      JumpRuns(code, at, i.target, g, h);
    } else {
      assert TermCode(i, fallThrough) == [RetTo(LINK)];
      assert code[at] == code[at..at + 1][0];
    }
  }

  lemma CallTermRuns(code: seq<Instr>, at: nat, i: Insn, fallThrough: U64, g: Guest, h: Host)
    requires i.op.Call? && RegsInRange(i) && Sim(g, h) && Holding(code, at, TermCode(i, fallThrough))
    ensures Delivers(Run(code, at, h), Exit(Step(i, g), i.target), h)
  {
    assert TermCode(i, fallThrough) == TermHead(i) + ([B(1)] + StubCode(i.target, 0));
    CallRuns(code, at, i, g, h);
  }

  lemma X86RetTermRuns(code: seq<Instr>, at: nat, i: Insn, fallThrough: U64, g: Guest, h: Host)
    requires i.op.X86Ret? && RegsInRange(i) && Sim(g, h) && Holding(code, at, TermCode(i, fallThrough))
    ensures Delivers(Run(code, at, h), Exit(g.Set(RSP, Plus(g.regs[RSP], 8)), Load64(g.mem, g.regs[RSP])), h)
  {
    assert TermCode(i, fallThrough) == [Ldr(NEXT_PC, RSP, 0), AddImm(RSP, RSP, 8)] + [RetTo(LINK)];
    X86RetRuns(code, at, g, h);
  }

  lemma TermRuns(code: seq<Instr>, at: nat, i: Insn, fallThrough: U64, g: Guest, h: Host)
    requires IsTerminator(i.op) && RegsInRange(i) && CondInRange(i) && Sim(g, h) && h.x[NEXT_PC] == HALT_PC
    requires Holding(code, at, TermCode(i, fallThrough))
    ensures Delivers(Run(code, at, h), Exit(Step(i, g), Successor(i, g, fallThrough)), h)
  {
    if i.op.Call? {
      CallTermRuns(code, at, i, fallThrough, g, h);
    } else if i.op.X86Ret? {
      X86RetTermRuns(code, at, i, fallThrough, g, h);
    } else {
      QuietTermRuns(code, at, i, fallThrough, g, h);
    }
  }

  // ---- the theorems ----

  /** The host on entry: guest registers loaded, x17 the halt sentinel, the rest arbitrary. */
  ghost predicate Entered(g: Guest, h: Host) {
    Sim(g, h) && h.x[NEXT_PC] == HALT_PC
  }

  predicate NoMinSubs(ops: seq<Insn>) {
    forall k :: 0 <= k < |ops| ==> NoMinSub(ops[k])
  }

  lemma BodyIsPlain(ops: seq<Insn>, f: Lowering)
    requires IsBlock(ops) && NoMinSubs(ops) && AllLowered(ops, f)
    ensures Plain(ops[..|ops| - 1]) && AllLowered(ops[..|ops| - 1], f)
  {
  }

  /** A body that reaches guest state `g`, followed by a terminator. */
  lemma JoinedRuns(body: seq<Instr>, last: Insn, fallThrough: U64, g: Guest, h: Host)
    requires h.Valid() && AllStraight(body) && Reaches(g, h, ExecAll(body, h)) && h.x[NEXT_PC] == HALT_PC
    requires IsTerminator(last.op) && RegsInRange(last) && CondInRange(last)
    ensures Delivers(Run(body + TermCode(last, fallThrough), 0, h),
                     Exit(Step(last, g), Successor(last, g, fallThrough)), h)
  {
    var code, h' := body + TermCode(last, fallThrough), ExecAll(body, h);
    RunStraight(code, 0, body, h);
    TermRuns(code, |body|, last, fallThrough, g, h');
    DeliversFrom(Run(code, |body|, h'), Exit(Step(last, g), Successor(last, g, fallThrough)), h, h');
  }

  lemma DeliversFrom(o: Outcome, e: Exit, h: Host, h': Host)
    requires Frame(h, h') && Delivers(o, e, h')
    ensures Delivers(o, e, h)
  {
  }

  lemma ImageRuns(ops: seq<Insn>, fallThrough: U64, policy: Policy, strength: Strength, g: Guest, h: Host)
    requires Accepts(ops, EmitWith(policy, strength)) && IsBlock(ops) && NoMinSubs(ops) && Entered(g, h)
    ensures Delivers(Run(ImageCode(ops, fallThrough, policy, strength), 0, h), RunKept(ops, g, fallThrough), h)
  {
    var n := |ops| - 1;
    BodyIsPlain(ops, EmitWith(policy, strength));
    BodySimulates(ops[..n], g, h, policy, strength);
    JoinedRuns(Body(ops[..n], policy, strength), ops[n], fallThrough, KeptAll(ops[..n], g), h);
  }

  /** What the linked image of a block does from host state `h`. */
  function ImageOutcome(ops: seq<Insn>, guestPc: U64, guestLen: U32, policy: Policy, strength: Strength,
                        h: Host): Outcome
    requires Accepts(ops, EmitWith(policy, strength)) && h.Valid()
  {
    var image := Linked(UnitOf(ops, guestPc, guestLen, EmitWith(policy, strength)));
    if image.Ok? && |image.value| % 4 == 0 then Run(Disassemble(image.value), 0, h) else Stuck
  }

  /** Translate, link, run: for every accepted block, start state, policy and strength, the image
      returns with the block's registers, memory, N, Z, V and successor pc, atomics leaving the flags
      alone, and x18..x30 untouched. */
  lemma BlockRuns(ops: seq<Insn>, guestPc: U64, guestLen: U32, policy: Policy, strength: Strength,
                                     g: Guest, h: Host)
    requires Accepts(ops, EmitWith(policy, strength)) && IsBlock(ops) && NoMinSubs(ops) && Entered(g, h)
    ensures var image := Linked(UnitOf(ops, guestPc, guestLen, EmitWith(policy, strength)));
            && image.Ok? && |image.value| % 4 == 0
            && Delivers(Run(Disassemble(image.value), 0, h), RunKept(ops, g, Plus(guestPc, guestLen)), h)
  {
    var fallThrough := Plus(guestPc, guestLen);
    LinkAccepts(ops, guestPc, guestLen, policy, strength);
    ImageAssembles(ops, fallThrough, policy, strength);
    DisassembleCode(ImageCode(ops, fallThrough, policy, strength));
    ImageRuns(ops, fallThrough, policy, strength, g, h);
  }

  /** Like Delivers, without the flags. */
  ghost predicate DeliversState(o: Outcome, e: Exit, h: Host) {
    && o.Returned? && h.Valid() && o.host.Valid() && e.guest.Valid()
    && (forall r :: 0 <= r < REG_COUNT ==> o.host.x[r] == e.guest.regs[r]) && o.host.mem == e.guest.mem
    && o.host.x[NEXT_PC] == e.pc
    && forall r :: NEXT_PC < r < 31 ==> o.host.x[r] == h.x[r]
  }

  lemma SameDelivers(o: Outcome, e: Exit, e': Exit, h: Host, stale: bool)
    requires Delivers(o, e, h) && SameExit(e, e', stale)
    ensures DeliversState(o, e', h) && (!stale ==> Delivers(o, e', h))
  {
  }

  lemma DeliveredOnce(o: Outcome, e: Exit, e': Exit, h: Host)
    requires Delivers(o, e, h)
    ensures DeliversState(o, e', h) <==> e'.guest.Valid() && SameExit(e, e', true)
  {
    if DeliversState(o, e', h) {
      assert e.guest.regs == e'.guest.regs;
    }
  }

  /** Compiler correctness: an accepted block that reads no flags between an atomic and the next setter
      ends with the IR's registers, memory and successor pc, for every start state, policy and
      strength, and with its N, Z, V unless an atomic came after the last setter. */
  lemma BlockCorrect(ops: seq<Insn>, guestPc: U64, guestLen: U32, policy: Policy, strength: Strength,
                                        g: Guest, h: Host)
    requires Accepts(ops, EmitWith(policy, strength)) && IsBlock(ops) && NoMinSubs(ops) && Entered(g, h)
    requires FreshReads(ops, false)
    ensures var o := ImageOutcome(ops, guestPc, guestLen, policy, strength, h);
            var e := RunBlock(ops, g, Plus(guestPc, guestLen));
            DeliversState(o, e, h) && (!StaleEnd(ops, false) ==> Delivers(o, e, h))
  {
    var fallThrough := Plus(guestPc, guestLen);
    BlockRuns(ops, guestPc, guestLen, policy, strength, g, h);
    KeptBlock(ops, g, fallThrough);
    SameDelivers(ImageOutcome(ops, guestPc, guestLen, policy, strength, h), RunKept(ops, g, fallThrough),
                 RunBlock(ops, g, fallThrough), h, StaleEnd(ops, false));
  }

  /** A block whose final branch may read stale flags, from a given state, ends as the IR says exactly
      when the branch decides the same on the flags the last setter left as on those of the atomic. */
  lemma StaleBlockExactly(ops: seq<Insn>, guestPc: U64, guestLen: U32, policy: Policy,
                                             strength: Strength, g: Guest, h: Host)
    requires Accepts(ops, EmitWith(policy, strength)) && IsBlock(ops) && NoMinSubs(ops) && Entered(g, h)
    requires ops[|ops| - 1].op.Br? && FreshReads(ops[..|ops| - 1], false)
    ensures var n, fallThrough := |ops| - 1, Plus(guestPc, guestLen);
            var kept, due := KeptAll(ops[..n], g).flags, StepAll(ops[..n], g).flags;
            DeliversState(ImageOutcome(ops, guestPc, guestLen, policy, strength, h), RunBlock(ops, g, fallThrough), h)
            <==> (Holds(ops[n].cc, kept) == Holds(ops[n].cc, due) || ops[n].target == fallThrough)
  {
    var fallThrough := Plus(guestPc, guestLen);
    BlockRuns(ops, guestPc, guestLen, policy, strength, g, h);
    StaleBranchExactly(ops, g, fallThrough);
    DeliveredOnce(ImageOutcome(ops, guestPc, guestLen, policy, strength, h), RunKept(ops, g, fallThrough),
                  RunBlock(ops, g, fallThrough), h);
  }

  // ---- the compare-and-swap loop ----

  /** LOCK CMPXCHG followed by a conditional branch. */
  predicate IsCasBranch(cas: Insn, br: Insn) {
    && cas.op.AtomicCas? && br.op.Br? && RegsInRange(cas) && RegsInRange(br) && CC_EQ <= br.cc <= CC_GT
  }

  lemma CasBranchAccepted(cas: Insn, br: Insn, policy: Policy, strength: Strength)
    requires IsCasBranch(cas, br)
    ensures Accepts([cas, br], EmitWith(policy, strength)) && IsBlock([cas, br]) && NoMinSubs([cas, br])
  {
    var f := EmitWith(policy, strength);
    assert Lower(cas, policy, strength).Ok? && Lower(br, policy, strength).Ok?;
    assert f(cas).Ok? && f(br).Ok?;
  }

  /** It ends as on x86 exactly when the branch decides the same on the flags from before the CMPXCHG as
      on those of the comparison. */
  lemma CasBranchExactly(cas: Insn, br: Insn, guestPc: U64, guestLen: U32, policy: Policy,
                                            strength: Strength, g: Guest, h: Host)
    requires IsCasBranch(cas, br) && Entered(g, h)
    ensures Accepts([cas, br], EmitWith(policy, strength)) && IsBlock([cas, br])
    ensures var fallThrough, compared := Plus(guestPc, guestLen), SubFlags(g.regs[RAX], Load64(g.mem, g.regs[cas.rn]));
            DeliversState(ImageOutcome([cas, br], guestPc, guestLen, policy, strength, h),
                          RunBlock([cas, br], g, fallThrough), h)
            <==> (Holds(br.cc, g.flags) == Holds(br.cc, compared) || br.target == fallThrough)
  {
    CasBranchAccepted(cas, br, policy, strength);
    CasAlone(cas, g);
    assert [cas, br][..1] == [cas];
    StaleBlockExactly([cas, br], guestPc, guestLen, policy, strength, g, h);
  }

  /** The failure: the swap succeeds, so x86 leaves the loop, but ZF was clear before and the code goes
      round again. */
  lemma CasLoopFails(cas: Insn, br: Insn, guestPc: U64, guestLen: U32, policy: Policy,
                                        strength: Strength, g: Guest, h: Host)
    requires IsCasBranch(cas, br) && br.cc == CC_NE && br.target != Plus(guestPc, guestLen) && Entered(g, h)
    requires !g.flags.z && g.regs[RAX] == Load64(g.mem, g.regs[cas.rn])
    ensures Accepts([cas, br], EmitWith(policy, strength)) && IsBlock([cas, br])
    ensures RunBlock([cas, br], g, Plus(guestPc, guestLen)).pc == Plus(guestPc, guestLen)
    ensures var o := ImageOutcome([cas, br], guestPc, guestLen, policy, strength, h);
            o.Returned? && o.host.Valid() && o.host.x[NEXT_PC] == br.target
  {
    CasBranchAccepted(cas, br, policy, strength);
    BlockRuns([cas, br], guestPc, guestLen, policy, strength, g, h);
    CasBranchGoes(cas, br, g, Plus(guestPc, guestLen));
  }
}
