/** From x86-64 bytes to the dispatcher's result: every decoded block compiles, and the whole
    pipeline computes what the reference interpreter computes. */
module Pipeline {
  import opened Words
  import opened Errors
  import opened GuestIr
  import opened X86
  import opened BlockDecoder
  import Translate
  import Simulation
  import AtomicFlags
  import BlockCorrect
  import Dispatch
  import A64
  import Encode
  import Link

  // ---- one instruction ----

  /** PUSH RSP and POP RSP. */
  predicate StackSelf(i: Instr) {
    (i.PushReg? || i.PopReg?) && i.reg == RSP
  }

  /** A state and the place control goes to when the block's last operation is `o`. */
  function IrExit(o: Insn, g: Guest, next: U64): Exit
    requires g.Valid() && RegsInRange(o)
  {
    Exit(Step(o, g), if IsTerminator(o.op) then Successor(o, g, next) else next)
  }

  predicate IsLogic(op: AluOp) {
    op.XorOp? || op.AndOp? || op.OrOp? || op.TestOp?
  }

  lemma LogicMeans(i: Instr, g: Guest, next: U64)
    requires i.Alu? && IsLogic(i.op) && g.Valid()
    ensures IrExit(IrOf(i, next), g, next) == Exec(i, g, next)
  {
  }

  lemma ArithMeans(i: Instr, g: Guest, next: U64)
    requires i.Alu? && !IsLogic(i.op) && g.Valid()
    ensures IrExit(IrOf(i, next), g, next) == Exec(i, g, next)
  {
  }

  lemma AluConstMeans(i: Instr, g: Guest, next: U64)
    requires i.AluConst? && (i.op.AddOp? || i.op.SubOp? || i.op.CmpOp?) && g.Valid()
    ensures IrExit(IrOf(i, next), g, next) == Exec(i, g, next)
  {
  }

  lemma PushMeans(i: Instr, g: Guest, next: U64)
    requires i.PushReg? && i.reg != RSP && g.Valid()
    ensures IrExit(IrOf(i, next), g, next) == Exec(i, g, next)
  {
  }

  lemma SetsCommute(regs: seq<U64>, a: int, b: int, v: U64, w: U64)
    requires 0 <= a < |regs| && 0 <= b < |regs| && a != b
    ensures regs[a := v][b := w] == regs[b := w][a := v]
  {
  }

  lemma PopMeans(i: Instr, g: Guest, next: U64)
    requires i.PopReg? && i.reg != RSP && g.Valid()
    ensures IrExit(IrOf(i, next), g, next) == Exec(i, g, next)
  {
    SetsCommute(g.regs, i.reg, RSP, Load64(g.mem, g.regs[RSP]), Plus(g.regs[RSP], 8));
  }

  lemma MoveMeans(i: Instr, g: Guest, next: U64)
    requires (i.Mov? || i.LeaDisp? || i.MovConst?) && g.Valid()
    ensures IrExit(IrOf(i, next), g, next) == Exec(i, g, next)
  {
  }

  lemma JumpMeans(i: Instr, g: Guest, next: U64)
    requires Ends(i) && g.Valid()
    ensures IrExit(IrOf(i, next), g, next) == Exec(i, g, next)
  {
  }

  /** PUSH RSP stores the decremented pointer where the architecture stores the old one, and POP RSP
      adds 8 to the loaded value. */
  lemma StackSelfDiffers(i: Instr, g: Guest, next: U64)
    requires StackSelf(i) && g.Valid()
    ensures IrExit(IrOf(i, next), g, next) != Exec(i, g, next)
  {
    var sp := g.regs[RSP];
    if i.PushReg? {
      LoadOfStore(g.mem, Minus(sp, 8), sp);
      LoadOfStore(g.mem, Minus(sp, 8), Minus(sp, 8));
    } else {
      var v := Load64(g.mem, sp);
      assert Step(IrOf(i, next), g).regs[RSP] == Plus(v, 8);
      assert Exec(i, g, next).guest.regs[RSP] == v;
    }
  }

  /** The IR operation of an encodable instruction does what the instruction does, in every state,
      exactly when the instruction is not a PUSH or POP of RSP. */
  lemma IrMeansExactly(i: Instr, f: Form, g: Guest, next: U64)
    requires CanEncode(i, f) && !i.Endbr64? && g.Valid()
    ensures IrExit(IrOf(i, next), g, next) == Exec(i, g, next) <==> !StackSelf(i)
  {
    if i.Alu? {
      if IsLogic(i.op) {
        LogicMeans(i, g, next);
      } else {
        ArithMeans(i, g, next);
      }
    } else if i.AluConst? {
      AluConstMeans(i, g, next);
    } else if StackSelf(i) {
      StackSelfDiffers(i, g, next);
    } else if i.PushReg? {
      PushMeans(i, g, next);
    } else if i.PopReg? {
      PopMeans(i, g, next);
    } else if Ends(i) {
      JumpMeans(i, g, next);
    } else {
      MoveMeans(i, g, next);
    }
  }

  // ---- one block ----

  /** The blocks the IR is exact for. */
  predicate NoStackSelf(items: seq<Item>) {
    forall k :: 0 <= k < |items| ==> !StackSelf(items[k].insn)
  }

  lemma IrOfCons(items: seq<Item>, pc: U64)
    requires items != []
    ensures var next := Plus(pc, |ItemBytes(items[0])|);
            IrOfRun(items, pc) == ItemIr(items[0], next) + IrOfRun(items[1..], next)
  {
    X86Lawful();
  }

  /** What every operation of the decoder satisfies. */
  predicate GoodOp(o: Insn) {
    && RegsInRange(o) && CondInRange(o) && Simulation.NoMinSub(o)
    && !o.op.Load? && !o.op.Store? && !o.op.Unknown? && !IsAtomic(o.op)
  }

  lemma IrIsGood(i: Instr, f: Form, next: U64)
    requires CanEncode(i, f) && !i.Endbr64?
    ensures GoodOp(IrOf(i, next)) && IsTerminator(IrOf(i, next).op) == Ends(i)
  {
  }

  /** A decoded block: good operations, the last one and no other a terminator. */
  predicate GoodBlock(ops: seq<Insn>) {
    IsBlock(ops) && forall k :: 0 <= k < |ops| ==> GoodOp(ops[k])
  }

  lemma ConsIsGood(o: Insn, ops: seq<Insn>)
    requires GoodOp(o) && !IsTerminator(o.op) && GoodBlock(ops)
    ensures GoodBlock([o] + ops)
  {
    var all := [o] + ops;
    forall k | 0 <= k < |all| ensures GoodOp(all[k]) && (IsTerminator(all[k].op) <==> k == |all| - 1) {
      assert k > 0 ==> all[k] == ops[k - 1];
    }
  }

  lemma RunParts(items: seq<Item>, pc: U64)
    requires IsRun(X86_CODEC, items)
    ensures var c, next := items[0], Plus(pc, |ItemBytes(items[0])|);
            if c.insn.Endbr64? then IsRun(X86_CODEC, items[1..]) && IrOfRun(items, pc) == IrOfRun(items[1..], next)
            else if Ends(c.insn) then |items| == 1 && IrOfRun(items, pc) == [IrOf(c.insn, next)]
            else IsRun(X86_CODEC, items[1..]) && IrOfRun(items, pc) == [IrOf(c.insn, next)] + IrOfRun(items[1..], next)
  {
    X86Lawful();
    IrOfCons(items, pc);
    assert X86_CODEC.ends(items[0]) == Ends(items[0].insn);
    if Ends(items[0].insn) {
      LastIsAlone(X86_CODEC, items, pc);
    } else {
      TailIsRun(X86_CODEC, items);
    }
  }

  lemma {:induction false} RunIsGood(items: seq<Item>, pc: U64)
    requires IsRun(X86_CODEC, items)
    ensures GoodBlock(IrOfRun(items, pc))
    decreases items
  {
    RunParts(items, pc);
    var c, next := items[0], Plus(pc, |ItemBytes(items[0])|);
    if c.insn.Endbr64? {
      RunIsGood(items[1..], next);
    } else {
      IrIsGood(c.insn, c.form, next);
      if !Ends(c.insn) {
        RunIsGood(items[1..], next);
        ConsIsGood(IrOf(c.insn, next), IrOfRun(items[1..], next));
      }
    }
  }

  // ---- its meaning ----

  /** Where the instruction behind the block is. */
  function EndPc(items: seq<Item>, pc: U64): U64 {
    if items == [] then pc else EndPc(items[1..], Plus(pc, |ItemBytes(items[0])|))
  }

  lemma PlusAssociates(a: U64, n: U64, m: U64)
    requires n + m < TWO_64
    ensures Plus(Plus(a, n), m) == Plus(a, n + m)
  {
  }

  lemma {:induction false} EndIsLength(items: seq<Item>, pc: U64)
    requires |CodeOf(X86_CODEC, items)| < TWO_64
    ensures EndPc(items, pc) == Plus(pc, |CodeOf(X86_CODEC, items)|)
    decreases items
  {
    if items != [] {
      var n := |ItemBytes(items[0])|;
      assert X86_CODEC.bytes(items[0]) == ItemBytes(items[0]);
      EndIsLength(items[1..], Plus(pc, n));
      PlusAssociates(pc, n, |CodeOf(X86_CODEC, items[1..])|);
    }
  }

  lemma NoStackSelfTail(items: seq<Item>)
    requires items != [] && NoStackSelf(items)
    ensures !StackSelf(items[0].insn) && NoStackSelf(items[1..])
  {
  }

  lemma RunBlockCons(o: Insn, ops: seq<Insn>, g: Guest, fallThrough: U64)
    requires g.Valid() && IsBlock(ops) && IsBlock([o] + ops)
    ensures RegsInRange(o) && RunBlock([o] + ops, g, fallThrough) == RunBlock(ops, Step(o, g), fallThrough)
  {
    assert ([o] + ops)[1..] == ops;
    assert ([o] + ops)[0] == o;
  }

  lemma RunBlockOne(o: Insn, g: Guest, next: U64)
    requires g.Valid() && IsBlock([o])
    ensures RegsInRange(o) && RunBlock([o], g, next) == IrExit(o, g, next)
  {
    assert [o][0] == o;
  }

  /** The IR of a block means what its instructions mean one after the other. */
  lemma {:induction false} BlockMeans(items: seq<Item>, g: Guest, pc: U64)
    requires IsRun(X86_CODEC, items) && NoStackSelf(items) && g.Valid()
    ensures IsBlock(IrOfRun(items, pc))
    ensures RunBlock(IrOfRun(items, pc), g, EndPc(items, pc)) == Interpret(items, g, pc)
    decreases items
  {
    RunParts(items, pc);
    RunIsGood(items, pc);
    NoStackSelfTail(items);
    var c, next := items[0], Plus(pc, |ItemBytes(items[0])|);
    if c.insn.Endbr64? {
      BlockMeans(items[1..], g, next);
    } else {
      IrMeansExactly(c.insn, c.form, g, next);
      var o := IrOf(c.insn, next);
      if Ends(c.insn) {
        RunBlockOne(o, g, next);
        assert items[1..] == [];
      } else {
        IrIsGood(c.insn, c.form, next);
        BlockMeans(items[1..], Step(o, g), next);
        RunBlockCons(o, IrOfRun(items[1..], next), g, EndPc(items, pc));
      }
    }
  }

  // ---- flags do not cross blocks ----

  predicate SetsFlags(i: Instr) {
    i.Alu? || i.AluConst?
  }

  /** A conditional jump that goes anywhere but to the next instruction. */
  predicate Decides(i: Instr) {
    i.Jcc? && i.rel != 0
  }

  /** Such a jump is preceded, in its own block, by an instruction that sets the flags. */
  predicate FlagsLocal(items: seq<Item>) {
    forall k :: 0 <= k < |items| && Decides(items[k].insn) ==> exists j :: 0 <= j < k && SetsFlags(items[j].insn)
  }

  lemma FlagsLocalTail(items: seq<Item>)
    requires items != [] && FlagsLocal(items) && !SetsFlags(items[0].insn)
    ensures !Decides(items[0].insn) && FlagsLocal(items[1..])
  {
    var t := items[1..];
    forall k | 0 <= k < |t| && Decides(t[k].insn) ensures exists j :: 0 <= j < k && SetsFlags(t[j].insn) {
      assert Decides(items[k + 1].insn);
      var j :| 0 <= j < k + 1 && SetsFlags(items[j].insn);
      assert t[j - 1] == items[j];
    }
  }

  /** The same registers, memory and pc. */
  predicate Agree(a: Exit, b: Exit) {
    a.guest.regs == b.guest.regs && a.guest.mem == b.guest.mem && a.pc == b.pc
  }

  lemma ExecIgnoresFlags(i: Instr, g: Guest, h: Guest, next: U64)
    requires g.Valid() && h == g.(flags := h.flags) && !Decides(i)
    ensures Agree(Exec(i, g, next), Exec(i, h, next))
    ensures SetsFlags(i) ==> Exec(i, g, next) == Exec(i, h, next)
    ensures !SetsFlags(i) ==> Exec(i, h, next).guest == Exec(i, g, next).guest.(flags := h.flags)
  {
  }

  lemma {:induction false} FlagsIrrelevant(items: seq<Item>, g: Guest, h: Guest, pc: U64)
    requires g.Valid() && h == g.(flags := h.flags) && FlagsLocal(items)
    ensures Agree(Interpret(items, g, pc), Interpret(items, h, pc))
    decreases items
  {
    if items != [] {
      var i, next := items[0].insn, Plus(pc, |ItemBytes(items[0])|);
      if SetsFlags(i) {
        ExecIgnoresFlags(i, g, h, next);
      } else {
        FlagsLocalTail(items);
        ExecIgnoresFlags(i, g, h, next);
        FlagsIrrelevant(items[1..], Exec(i, g, next).guest, Exec(i, h, next).guest, Exec(i, g, next).pc);
      }
    }
  }

  predicate NoSetter(items: seq<Item>) {
    forall k :: 0 <= k < |items| ==> !SetsFlags(items[k].insn)
  }

  /** Without a setter the flags at entry reach the conditional jump at the end. */
  lemma {:induction false} JccAtEnd(items: seq<Item>, g: Guest, pc: U64)
    requires IsRun(X86_CODEC, items) && NoSetter(items) && g.Valid() && items[|items| - 1].insn.Jcc?
    ensures var j, end := items[|items| - 1].insn, EndPc(items, pc);
            Interpret(items, g, pc).pc == if Holds(j.cc, g.flags) then Plus(end, ToU64(j.rel)) else end
    decreases items
  {
    RunParts(items, pc);
    var i, next := items[0].insn, Plus(pc, |ItemBytes(items[0])|);
    assert !SetsFlags(items[0].insn);
    if Ends(i) {
      assert items[1..] == [];
    } else {
      ExecIgnoresFlags(i, g, g, next);
      JccAtEnd(items[1..], Exec(i, g, next).guest, next);
    }
  }

  lemma UnsetFlags(items: seq<Item>)
    requires IsRun(X86_CODEC, items) && !FlagsLocal(items)
    ensures NoSetter(items) && Decides(items[|items| - 1].insn)
  {
    var k :| 0 <= k < |items| && Decides(items[k].insn) && forall j :: 0 <= j < k ==> !SetsFlags(items[j].insn);
    assert X86_CODEC.ends(items[k]);
  }

  /** Flags that make a condition hold, or fail. */
  function Deciding(cc: Cc, holds: bool): Flags {
    if cc == CC_EQ || cc == CC_NE then Flags(false, (cc == CC_EQ) == holds, false)
    else Flags((cc == CC_LT || cc == CC_LE) == holds, false, false)
  }

  lemma DecidingDecides(cc: Cc, holds: bool)
    ensures Holds(cc, Deciding(cc, holds)) == holds
  {
  }

  /** A block that breaks the premise goes to different places for different flags at entry. */
  lemma FlagsMatter(items: seq<Item>, g: Guest, pc: U64)
    requires IsRun(X86_CODEC, items) && !FlagsLocal(items) && g.Valid()
    ensures items[|items| - 1].insn.Jcc?
    ensures var cc := items[|items| - 1].insn.cc;
            Interpret(items, g.(flags := Deciding(cc, true)), pc).pc
            != Interpret(items, g.(flags := Deciding(cc, false)), pc).pc
  {
    UnsetFlags(items);
    var cc := items[|items| - 1].insn.cc;
    DecidingDecides(cc, true);
    DecidingDecides(cc, false);
    JccAtEnd(items, g.(flags := Deciding(cc, true)), pc);
    JccAtEnd(items, g.(flags := Deciding(cc, false)), pc);
  }

  // ---- every decoded block compiles ----

  lemma GoodLowers(o: Insn, policy: Translate.Policy, strength: Translate.Strength)
    requires GoodOp(o)
    ensures Translate.Lower(o, policy, strength).Ok?
  {
  }

  lemma GoodAccepted(ops: seq<Insn>, policy: Translate.Policy, strength: Translate.Strength)
    requires GoodBlock(ops) && |ops| <= Dispatch.MAX_BLOCK_OPS
    ensures Translate.Accepts(ops, Translate.EmitWith(policy, strength)) && BlockCorrect.NoMinSubs(ops)
  {
    forall k | 0 <= k < |ops| ensures Translate.EmitWith(policy, strength)(ops[k]).Ok? {
      GoodLowers(ops[k], policy, strength);
    }
  }

  /** The fetch callback over an image. */
  function BlockOf(img: Image, pc: U64): Result<Fetched> {
    X86Block(img, pc, Dispatch.MAX_BLOCK_OPS)
  }

  function FetchFrom(img: Image): Dispatch.Fetch {
    (pc: U64) => BlockOf(img, pc)
  }

  lemma DecodedIsGood(img: Image, pc: U64)
    requires BlockOf(img, pc).Ok?
    ensures var ops := BlockOf(img, pc).value.ops; GoodBlock(ops) && |ops| <= Dispatch.MAX_BLOCK_OPS
  {
    X86Lawful();
    var s := img.bytes[pc - img.base..];
    DecodedIsRun(X86_CODEC, s, pc, Dispatch.MAX_BLOCK_OPS);
    RunDecodes(X86_CODEC, s, ItemsIn(X86_CODEC, s), pc, Dispatch.MAX_BLOCK_OPS);
    RunIsGood(ItemsIn(X86_CODEC, s), pc);
  }

  /** Translate and link refuse no block the decoder produces, under any policy and strength: the
      dispatcher fails at a pc exactly when, and as, the decoder does. */
  lemma DecodedCompiles(img: Image, pc: U64, policy: Translate.Policy, strength: Translate.Strength)
    ensures var image, block := Dispatch.Prepared(FetchFrom(img), policy, strength, pc), BlockOf(img, pc);
            if block.Ok? then image.Ok? else image == Err(block.error)
  {
    if BlockOf(img, pc).Ok? {
      var f := BlockOf(img, pc).value;
      DecodedIsGood(img, pc);
      GoodAccepted(f.ops, policy, strength);
      BlockCorrect.LinkAccepts(f.ops, pc, f.len, policy, strength);
    }
  }

  // ---- one block through the pipeline ----

  /** A guest state between blocks, with some flags. */
  function GuestAt(p: Dispatch.Point, flags: Flags): (g: Guest)
    ensures g.Valid()
  {
    Guest(p.regs, p.mem, flags)
  }

  function PointOf(e: Exit): Dispatch.Point
    requires e.guest.Valid()
  {
    Dispatch.Point(e.guest.regs, e.guest.mem, e.pc)
  }

  lemma TrampDelivers(image: seq<U8>, g: Guest, a: Dispatch.Ambience, e: Exit)
    requires g.Valid() && |image| % 4 == 0
    requires BlockCorrect.Delivers(A64.Run(Encode.Disassemble(image), 0, Dispatch.Entry(g.regs, g.mem, a)), e,
                                   Dispatch.Entry(g.regs, g.mem, a))
    ensures Dispatch.Tramp(image, g.regs, g.mem, a) == PointOf(e)
  {
    var o := A64.Run(Encode.Disassemble(image), 0, Dispatch.Entry(g.regs, g.mem, a));
    assert o.host.x[..REG_COUNT] == e.guest.regs;
  }

  lemma EntryEntered(p: Dispatch.Point, a: Dispatch.Ambience)
    ensures BlockCorrect.Entered(GuestAt(p, Simulation.FlagsOf(a.nzcv)), Dispatch.Entry(p.regs, p.mem, a))
  {
  }

  lemma PreparedBlock(fetch: Dispatch.Fetch, ops: seq<Insn>, len: U32, pc: U64,
                                         policy: Translate.Policy, strength: Translate.Strength)
    requires fetch(pc) == Ok(Fetched(ops, len)) && GoodBlock(ops) && |ops| <= Dispatch.MAX_BLOCK_OPS
    ensures var f := Translate.EmitWith(policy, strength);
            && Translate.Accepts(ops, f)
            && Dispatch.Prepared(fetch, policy, strength, pc) == Link.Linked(Translate.UnitOf(ops, pc, len, f))
  {
    GoodAccepted(ops, policy, strength);
  }

  /** Dispatching a block does what its IR does. */
  lemma DispatchedBlock(fetch: Dispatch.Fetch, ops: seq<Insn>, len: U32, policy: Translate.Policy,
                                           strength: Translate.Strength, host: nat -> Dispatch.Ambience, n: nat,
                                           p: Dispatch.Point)
    requires fetch(p.pc) == Ok(Fetched(ops, len)) && GoodBlock(ops) && |ops| <= Dispatch.MAX_BLOCK_OPS
    ensures Dispatch.BlockAt(fetch, policy, strength, host, n, p)
         == Ok(PointOf(RunBlock(ops, GuestAt(p, Simulation.FlagsOf(host(n).nzcv)), Plus(p.pc, len))))
  {
    var g, h := GuestAt(p, Simulation.FlagsOf(host(n).nzcv)), Dispatch.Entry(p.regs, p.mem, host(n));
    PreparedBlock(fetch, ops, len, p.pc, policy, strength);
    GoodAccepted(ops, policy, strength);
    EntryEntered(p, host(n));
    BlockCorrect.BlockRuns(ops, p.pc, len, policy, strength, g, h);
    AtomicFlags.NothingStale(ops);
    AtomicFlags.KeptBlock(ops, g, Plus(p.pc, len));
    TrampDelivers(Dispatch.Prepared(fetch, policy, strength, p.pc).value, g, host(n),
                  RunBlock(ops, g, Plus(p.pc, len)));
  }

  /** The block at `pc` consists of these instructions: it fits the dispatcher's buffer, its length fits
      32 bits, and it does not push or pop RSP itself. */
  predicate Placed(img: Image, pc: U64, items: seq<Item>) {
    && img.base <= pc < Plus(img.base, |img.bytes|)
    && RunAt(X86_CODEC, img.bytes[pc - img.base..], items)
    && |IrOfRun(items, pc)| <= Dispatch.MAX_BLOCK_OPS && |CodeOf(X86_CODEC, items)| < TWO_32
    && NoStackSelf(items)
  }

  /** And it does not depend on flags set by an earlier block: it is in the supported subset. */
  predicate Supported(img: Image, pc: U64, items: seq<Item>) {
    Placed(img, pc, items) && FlagsLocal(items)
  }

  lemma PlacedDecodes(img: Image, pc: U64, items: seq<Item>)
    requires Placed(img, pc, items)
    ensures BlockOf(img, pc) == Ok(Fetched(IrOfRun(items, pc), |CodeOf(X86_CODEC, items)|))
  {
    X86Lawful();
    FetchedExactly(X86_CODEC, img, pc, Dispatch.MAX_BLOCK_OPS, items);
  }

  /** The pipeline interprets a block on whatever flags the host happens to have. */
  lemma BlockOnHostFlags(img: Image, items: seq<Item>, policy: Translate.Policy,
                                            strength: Translate.Strength, host: nat -> Dispatch.Ambience, n: nat,
                                            p: Dispatch.Point)
    requires Placed(img, p.pc, items)
    ensures Dispatch.BlockAt(FetchFrom(img), policy, strength, host, n, p)
         == Ok(PointOf(Interpret(items, GuestAt(p, Simulation.FlagsOf(host(n).nzcv)), p.pc)))
  {
    PlacedDecodes(img, p.pc, items);
    RunIsGood(items, p.pc);
    var ops, len := IrOfRun(items, p.pc), |CodeOf(X86_CODEC, items)|;
    DispatchedBlock(FetchFrom(img), ops, len, policy, strength, host, n, p);
    EndIsLength(items, p.pc);
    BlockMeans(items, GuestAt(p, Simulation.FlagsOf(host(n).nzcv)), p.pc);
  }

  /** Decode, translate, link and run a supported block: the reference interpreter's registers, memory
      and pc, whatever flags either side starts with. */
  lemma BlockThroughPipeline(img: Image, items: seq<Item>, policy: Translate.Policy,
                                                strength: Translate.Strength, host: nat -> Dispatch.Ambience, n: nat,
                                                p: Dispatch.Point, flags: Flags)
    requires Supported(img, p.pc, items)
    ensures Dispatch.BlockAt(FetchFrom(img), policy, strength, host, n, p)
         == Ok(PointOf(Interpret(items, GuestAt(p, flags), p.pc)))
  {
    BlockOnHostFlags(img, items, policy, strength, host, n, p);
    FlagsIrrelevant(items, GuestAt(p, Simulation.FlagsOf(host(n).nzcv)), GuestAt(p, flags), p.pc);
  }

  /** A host whose flags read as `f` on entry to every block. */
  function HostWith(f: Flags): (host: nat -> Dispatch.Ambience)
    ensures forall n :: Simulation.FlagsOf(host(n).nzcv) == f
  {
    (n: nat) => Dispatch.Ambient(seq(31, k => 0), A64.Nzcv(f.n, f.z, false, f.v))
  }

  /** The pipeline does to a block what the interpreter does, on every host and for every guest flags. */
  ghost predicate AlwaysAgrees(img: Image, items: seq<Item>, policy: Translate.Policy, strength: Translate.Strength,
                               n: nat, p: Dispatch.Point) {
    forall host: nat -> Dispatch.Ambience, flags ::
      Dispatch.BlockAt(FetchFrom(img), policy, strength, host, n, p)
      == Ok(PointOf(Interpret(items, GuestAt(p, flags), p.pc)))
  }

  /** That holds, at every point, exactly when the block does not depend on flags from before it. */
  lemma AgreesExactly(img: Image, items: seq<Item>, policy: Translate.Policy,
                                         strength: Translate.Strength, n: nat, p: Dispatch.Point)
    requires Placed(img, p.pc, items)
    ensures AlwaysAgrees(img, items, policy, strength, n, p) <==> FlagsLocal(items)
  {
    if FlagsLocal(items) {
      forall host: nat -> Dispatch.Ambience, flags
        ensures Dispatch.BlockAt(FetchFrom(img), policy, strength, host, n, p)
             == Ok(PointOf(Interpret(items, GuestAt(p, flags), p.pc)))
      {
        BlockThroughPipeline(img, items, policy, strength, host, n, p, flags);
      }
    } else {
      StrayFlagsDisagree(img, items, policy, strength, n, p);
    }
  }

  lemma StrayFlagsDisagree(img: Image, items: seq<Item>, policy: Translate.Policy,
                                              strength: Translate.Strength, n: nat, p: Dispatch.Point)
    requires Placed(img, p.pc, items) && !FlagsLocal(items)
    ensures !AlwaysAgrees(img, items, policy, strength, n, p)
  {
    FlagsMatter(items, GuestAt(p, Flags(false, false, false)), p.pc);
    var cc := items[|items| - 1].insn.cc;
    var host := HostWith(Deciding(cc, true));
    BlockOnHostFlags(img, items, policy, strength, host, n, p);
    assert Dispatch.BlockAt(FetchFrom(img), policy, strength, host, n, p)
        != Ok(PointOf(Interpret(items, GuestAt(p, Deciding(cc, false)), p.pc)));
  }

  // ---- calls and returns ----

  /** The instructions of a block before its control transfer. */
  function Front(items: seq<Item>, g: Guest, pc: U64): (g': Guest)
    requires items != [] && g.Valid()
    ensures g'.Valid()
  {
    Interpret(items[..|items| - 1], g, pc).guest
  }

  lemma {:induction false} InterpretSplits(items: seq<Item>, g: Guest, pc: U64)
    requires IsRun(X86_CODEC, items) && g.Valid()
    ensures Interpret(items, g, pc) == Exec(items[|items| - 1].insn, Front(items, g, pc), EndPc(items, pc))
    decreases items
  {
    RunParts(items, pc);
    var i, next, n := items[0].insn, Plus(pc, |ItemBytes(items[0])|), |items| - 1;
    if Ends(i) {
      assert items[1..] == [] && items[..n] == [];
    } else {
      InterpretSplits(items[1..], Exec(i, g, next).guest, next);
      assert items[1..][..n - 1] == items[..n][1..];
    }
  }

  lemma EndsInCall(items: seq<Item>, g: Guest, pc: U64)
    requires IsRun(X86_CODEC, items) && g.Valid() && items[|items| - 1].insn.CallRel?
    ensures var e, before := Interpret(items, g, pc).guest, Front(items, g, pc);
            Plus(e.regs[RSP], 8) == before.regs[RSP] && Load64(e.mem, e.regs[RSP]) == EndPc(items, pc)
  {
    InterpretSplits(items, g, pc);
    CallPushes(items[|items| - 1].insn, Front(items, g, pc), EndPc(items, pc));
  }

  lemma CallPushes(i: Instr, g: Guest, next: U64)
    requires i.CallRel? && g.Valid()
    ensures var e := Exec(i, g, next).guest;
            Plus(e.regs[RSP], 8) == g.regs[RSP] && Load64(e.mem, e.regs[RSP]) == next
  {
    LoadOfStore(g.mem, Minus(g.regs[RSP], 8), next);
  }

  lemma {:induction false} EndsInReturn(items: seq<Item>, g: Guest, pc: U64)
    requires IsRun(X86_CODEC, items) && g.Valid() && items[|items| - 1].insn.RetNear?
    ensures var e, done := Interpret(items, g, pc), Front(items, g, pc);
            e == Exit(done.Set(RSP, Plus(done.regs[RSP], 8)), Load64(done.mem, done.regs[RSP]))
  {
    InterpretSplits(items, g, pc);
  }

  /** What a callee has to leave alone: the stack pointer and the slot it points to. */
  predicate KeepsReturn(callee: seq<Item>, called: Exit)
    requires callee != [] && called.guest.Valid()
  {
    var sp, done := called.guest.regs[RSP], Front(callee, called.guest, called.pc);
    done.regs[RSP] == sp && Load64(done.mem, sp) == Load64(called.guest.mem, sp)
  }

  /** The point behind the CALL, with the callee's registers and memory and the caller's stack pointer. */
  function Returned(caller: seq<Item>, callee: seq<Item>, g: Guest, pc: U64): Dispatch.Point
    requires caller != [] && callee != [] && g.Valid()
  {
    var called := Interpret(caller, g, pc);
    var done := Front(callee, called.guest, called.pc);
    Dispatch.Point(done.regs[RSP := Front(caller, g, pc).regs[RSP]], done.mem, EndPc(caller, pc))
  }

  lemma InterpretedReturn(caller: seq<Item>, callee: seq<Item>, g: Guest, pc: U64)
    requires IsRun(X86_CODEC, caller) && IsRun(X86_CODEC, callee) && g.Valid()
    requires caller[|caller| - 1].insn.CallRel? && callee[|callee| - 1].insn.RetNear?
    requires KeepsReturn(callee, Interpret(caller, g, pc))
    ensures var called := Interpret(caller, g, pc);
            PointOf(Interpret(callee, called.guest, called.pc)) == Returned(caller, callee, g, pc)
  {
    var called := Interpret(caller, g, pc);
    EndsInCall(caller, g, pc);
    EndsInReturn(callee, called.guest, called.pc);
  }

  /** Through the dispatcher: a block that ends in CALL, then, at its target, one that ends in RET and
      leaves the stack pointer and the return slot as it found them. Control comes back behind the
      CALL, with the callee's registers and the stack pointer from before the CALL. */
  lemma CallReturns(img: Image, caller: seq<Item>, callee: seq<Item>, policy: Translate.Policy,
                                       strength: Translate.Strength, host: nat -> Dispatch.Ambience, n: nat,
                                       p: Dispatch.Point, flags: Flags)
    requires Supported(img, p.pc, caller) && caller[|caller| - 1].insn.CallRel?
    requires Supported(img, Interpret(caller, GuestAt(p, flags), p.pc).pc, callee) && callee[|callee| - 1].insn.RetNear?
    requires KeepsReturn(callee, Interpret(caller, GuestAt(p, flags), p.pc))
    ensures var p1 := PointOf(Interpret(caller, GuestAt(p, flags), p.pc));
            && Dispatch.BlockAt(FetchFrom(img), policy, strength, host, n, p) == Ok(p1)
            && Dispatch.BlockAt(FetchFrom(img), policy, strength, host, n + 1, p1)
            == Ok(Returned(caller, callee, GuestAt(p, flags), p.pc))
  {
    var called := Interpret(caller, GuestAt(p, flags), p.pc);
    BlockThroughPipeline(img, caller, policy, strength, host, n, p, flags);
    BlockThroughPipeline(img, callee, policy, strength, host, n + 1, PointOf(called), called.guest.flags);
    InterpretedReturn(caller, callee, GuestAt(p, flags), p.pc);
  }

  lemma {:induction false} OnlyEndbr(items: seq<Item>, g: Guest, pc: U64)
    requires g.Valid() && forall k :: 0 <= k < |items| ==> items[k].insn.Endbr64?
    ensures Interpret(items, g, pc).guest == g
    decreases items
  {
    if items != [] {
      OnlyEndbr(items[1..], g, Plus(pc, |ItemBytes(items[0])|));
    }
  }

  /** A callee that does nothing but return qualifies, and every register is then as before the CALL. */
  lemma {:induction false} BareCallRestores(caller: seq<Item>, callee: seq<Item>, g: Guest, pc: U64)
    requires IsRun(X86_CODEC, caller) && callee != [] && g.Valid() && caller[|caller| - 1].insn.CallRel?
    requires forall k :: 0 <= k < |callee| - 1 ==> callee[k].insn.Endbr64?
    ensures KeepsReturn(callee, Interpret(caller, g, pc))
    ensures Returned(caller, callee, g, pc).regs == Front(caller, g, pc).regs
  {
    var called := Interpret(caller, g, pc);
    OnlyEndbr(callee[..|callee| - 1], called.guest, called.pc);
    InterpretSplits(caller, g, pc);
    var before := Front(caller, g, pc).regs;
    assert before[RSP := Minus(before[RSP], 8)][RSP := before[RSP]] == before;
  }

  lemma UncachedHalts(step: Dispatch.BlockStep, p: Dispatch.Point, q: Dispatch.Point, steps: nat, limit: nat)
    requires p.pc != HALT_PC && steps < limit && step(steps, p) == Ok(q) && q.pc == HALT_PC
    ensures Dispatch.Uncached(step, p, steps, limit) == Dispatch.Final(Ok(()), steps + 1, q.regs, q.mem)
  {
  }

  /** A RET that pops the sentinel ends the program with success. */
  lemma ReturnHalts(img: Image, items: seq<Item>, policy: Translate.Policy, strength: Translate.Strength,
                                       host: nat -> Dispatch.Ambience, p: Dispatch.Point, flags: Flags,
                                       steps: nat, limit: nat)
    requires Supported(img, p.pc, items) && items[|items| - 1].insn.RetNear? && p.pc != HALT_PC && steps < limit
    requires var done := Front(items, GuestAt(p, flags), p.pc); Load64(done.mem, done.regs[RSP]) == HALT_PC
    ensures var done := Front(items, GuestAt(p, flags), p.pc);
            Dispatch.Uncached(Dispatch.BlockSteps(FetchFrom(img), policy, strength, host), p, steps, limit)
            == Dispatch.Final(Ok(()), steps + 1, done.regs[RSP := Plus(done.regs[RSP], 8)], done.mem)
  {
    BlockThroughPipeline(img, items, policy, strength, host, steps, p, flags);
    EndsInReturn(items, GuestAt(p, flags), p.pc);
    UncachedHalts(Dispatch.BlockSteps(FetchFrom(img), policy, strength, host), p,
                  PointOf(Interpret(items, GuestAt(p, flags), p.pc)), steps, limit);
  }

  // ---- whole programs ----

  /** The reference run: interpret block after block, flags carried along, until the halt sentinel,
      the step limit, or a block outside the subset. */
  ghost predicate HasBlock(img: Image, pc: U64) {
    exists items :: Supported(img, pc, items)
  }

  ghost function Reference(img: Image, g: Guest, pc: U64, steps: nat, limit: nat): Dispatch.Final
    requires g.Valid()
    decreases limit - steps
  {
    if pc == 0xFFFF_FFFF_FFFF_FFFF then Dispatch.Final(Ok(()), steps, g.regs, g.mem)
    else if steps >= limit then Dispatch.Final(Err(Steps), steps, g.regs, g.mem)
    else if !HasBlock(img, pc) then Dispatch.Final(Err(Unsupported), steps, g.regs, g.mem)
    else
      var items :| Supported(img, pc, items);
      var e := Interpret(items, g, pc);
      Reference(img, e.guest, e.pc, steps + 1, limit)
  }

  lemma StepThroughPipeline(img: Image, policy: Translate.Policy, strength: Translate.Strength,
                                               host: nat -> Dispatch.Ambience, g: Guest, pc: U64,
                                               steps: nat, limit: nat)
    returns (e: Exit)
    requires g.Valid() && pc != HALT_PC && steps < limit && HasBlock(img, pc)
    ensures e.guest.Valid() && Reference(img, g, pc, steps, limit) == Reference(img, e.guest, e.pc, steps + 1, limit)
    ensures Dispatch.BlockSteps(FetchFrom(img), policy, strength, host)(steps, Dispatch.Point(g.regs, g.mem, pc))
         == Ok(PointOf(e))
  {
    var items :| Supported(img, pc, items) && Reference(img, g, pc, steps, limit)
      == Reference(img, Interpret(items, g, pc).guest, Interpret(items, g, pc).pc, steps + 1, limit);
    e := Interpret(items, g, pc);
    var p := Dispatch.Point(g.regs, g.mem, pc);
    assert GuestAt(p, g.flags) == g;
    BlockThroughPipeline(img, items, policy, strength, host, steps, p, g.flags);
  }

  /** For every image, start state, policy, strength and limit: unless the reference run leaves the
      subset, the pipeline ends with its result code, step count, registers and memory. */
  lemma {:induction false} ProgramThroughPipeline(img: Image, policy: Translate.Policy, strength: Translate.Strength,
                                                  host: nat -> Dispatch.Ambience, g: Guest, pc: U64,
                                                  steps: nat, limit: nat)
    requires g.Valid() && Reference(img, g, pc, steps, limit).rc != Err(Unsupported)
    ensures Dispatch.Uncached(Dispatch.BlockSteps(FetchFrom(img), policy, strength, host),
                              Dispatch.Point(g.regs, g.mem, pc), steps, limit)
         == Reference(img, g, pc, steps, limit)
    decreases limit - steps
  {
    if pc != HALT_PC && steps < limit {
      var e := StepThroughPipeline(img, policy, strength, host, g, pc, steps, limit);
      ProgramThroughPipeline(img, policy, strength, host, e.guest, e.pc, steps + 1, limit);
    }
  }

  /** Running an x86 image with the caching dispatcher: what the reference interpreter computes. */
  method RunImage(img: Image, policy: Translate.Policy, strength: Translate.Strength, host: nat -> Dispatch.Ambience,
                  entryPc: U64, g: Dispatch.GuestState, maxSteps: nat, ghost flags: Flags)
    returns (rc: Result<()>, steps: nat)
    requires |g.regs| == REG_COUNT
    modifies g
    ensures |g.regs| == REG_COUNT
    ensures var limit := if maxSteps == 0 then 10_000_000 else maxSteps;
            var expected := Reference(img, Guest(old(g.regs), old(g.mem), flags), entryPc, 0, limit);
            expected.rc != Err(Unsupported) ==> Dispatch.Final(rc, steps, g.regs, g.mem) == expected
  {
    ghost var start := Guest(g.regs, g.mem, flags);
    rc, steps := Dispatch.RunProgram(FetchFrom(img), policy, strength, host, entryPc, g, maxSteps);
    ghost var limit := if maxSteps == 0 then Dispatch.DEFAULT_STEPS else maxSteps;
    if Reference(img, start, entryPc, 0, limit).rc != Err(Unsupported) {
      ProgramThroughPipeline(img, policy, strength, host, start, entryPc, 0, limit);
    }
  }
}
