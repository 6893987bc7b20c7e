/** Flags around atomics. LOCK ADD and LOCK CMPXCHG set the flags, the emitted LDADDAL and CASAL do not:
    what the code computes, and when that is what the IR means. */
module AtomicFlags {
  import opened Words
  import opened GuestIr
  import opened Simulation

  /** The operations of a block before its terminator. */
  function StepAll(ops: seq<Insn>, g: Guest): (g': Guest)
    requires g.Valid() && forall k :: 0 <= k < |ops| ==> RegsInRange(ops[k])
    ensures g'.Valid()
  {
    if ops == [] then g else StepAll(ops[1..], Step(ops[0], g))
  }

  lemma {:induction false} RunBlockSplits(ops: seq<Insn>, g: Guest, fallThrough: U64)
    requires IsBlock(ops) && g.Valid()
    ensures var n := |ops| - 1;
            var g' := StepAll(ops[..n], g);
            RunBlock(ops, g, fallThrough) == Exit(Step(ops[n], g'), Successor(ops[n], g', fallThrough))
  {
    if |ops| > 1 {
      TailIsBlock(ops);
      RunBlockSplits(ops[1..], Step(ops[0], g), fallThrough);
      assert ops[1..][..|ops| - 2] == ops[..|ops| - 1][1..];
    }
  }

  /** The same operations as the emitted code runs them. */
  function KeptAll(ops: seq<Insn>, g: Guest): (g': Guest)
    requires g.Valid() && forall k :: 0 <= k < |ops| ==> RegsInRange(ops[k])
    ensures g'.Valid()
  {
    if ops == [] then g else KeptAll(ops[1..], Kept(ops[0], g))
  }

  /** A block as the emitted code runs it. */
  function RunKept(ops: seq<Insn>, g: Guest, fallThrough: U64): (e: Exit)
    requires IsBlock(ops) && g.Valid()
    ensures e.guest.Valid()
  {
    var last, g' := ops[|ops| - 1], KeptAll(ops[..|ops| - 1], g);
    Exit(Step(last, g'), Successor(last, g', fallThrough))
  }

  // ---- stale flags ----

  predicate ReadsFlags(op: Opcode) {
    op.Br? || op.SetCc?
  }

  /** The operations that set the flags in the emitted code too. */
  predicate SetsFlags(op: Opcode) {
    || op.AddRR? || op.SubRR? || op.CmpRR? || op.AddRI? || op.SubRI? || op.CmpRI?
    || op.TestRR? || op.XorRR? || op.AndRR? || op.OrRR?
  }

  predicate StaleAfter(i: Insn, stale: bool) {
    IsAtomic(i.op) || (stale && !SetsFlags(i.op))
  }

  /** No operation reads flags between an atomic and the next operation that sets them. */
  predicate FreshReads(ops: seq<Insn>, stale: bool) {
    ops == [] || (!(stale && ReadsFlags(ops[0].op)) && FreshReads(ops[1..], StaleAfter(ops[0], stale)))
  }

  /** Whether an atomic comes after the last operation that sets flags. */
  predicate StaleEnd(ops: seq<Insn>, stale: bool) {
    if ops == [] then stale else StaleEnd(ops[1..], StaleAfter(ops[0], stale))
  }

  /** The same registers and memory, and the same flags unless they are stale. */
  predicate Alike(a: Guest, b: Guest, stale: bool) {
    a.regs == b.regs && a.mem == b.mem && (!stale ==> a.flags == b.flags)
  }

  lemma SetterUnread(i: Insn, a: Guest, b: Guest)
    requires a.Valid() && RegsInRange(i) && SetsFlags(i.op) && Alike(a, b, true)
    ensures Alike(Step(i, a), Step(i, b), false)
  {
  }

  lemma AtomicUnread(i: Insn, a: Guest, b: Guest)
    requires a.Valid() && RegsInRange(i) && IsAtomic(i.op) && Alike(a, b, true)
    ensures Alike(Step(i, a), Step(i, b), false)
  {
  }

  lemma OtherUnread(i: Insn, a: Guest, b: Guest)
    requires a.Valid() && RegsInRange(i) && !SetsFlags(i.op)
    requires !IsAtomic(i.op) && !ReadsFlags(i.op) && Alike(a, b, true)
    ensures Alike(Step(i, a), Step(i, b), true)
  {
  }

  /** Only Br and SetCc look at the flags. */
  lemma FlagsUnread(i: Insn, a: Guest, b: Guest)
    requires a.Valid() && RegsInRange(i) && !ReadsFlags(i.op) && Alike(a, b, true)
    ensures Alike(Step(i, a), Step(i, b), !SetsFlags(i.op) && !IsAtomic(i.op))
  {
    if SetsFlags(i.op) {
      SetterUnread(i, a, b);
    } else if IsAtomic(i.op) {
      AtomicUnread(i, a, b);
    } else {
      OtherUnread(i, a, b);
    }
  }

  lemma KeptStep(i: Insn, a: Guest, b: Guest, stale: bool)
    requires a.Valid() && RegsInRange(i) && Alike(a, b, stale) && !(stale && ReadsFlags(i.op))
    ensures Alike(Kept(i, a), Step(i, b), StaleAfter(i, stale))
  {
    if stale || IsAtomic(i.op) {
      FlagsUnread(i, a, b);
    } else {
      assert a == b;
    }
  }

  lemma {:induction false} KeptSteps(ops: seq<Insn>, a: Guest, b: Guest, stale: bool)
    requires a.Valid() && Alike(a, b, stale) && FreshReads(ops, stale)
    requires forall k :: 0 <= k < |ops| ==> RegsInRange(ops[k])
    ensures Alike(KeptAll(ops, a), StepAll(ops, b), StaleEnd(ops, stale))
  {
    if ops != [] {
      KeptStep(ops[0], a, b, stale);
      KeptSteps(ops[1..], Kept(ops[0], a), Step(ops[0], b), StaleAfter(ops[0], stale));
    }
  }

  /** The last operation reads the flags the others leave. */
  lemma {:induction false} FreshSplits(ops: seq<Insn>, stale: bool)
    requires ops != []
    ensures var n := |ops| - 1;
            var end := StaleEnd(ops[..n], stale);
            && FreshReads(ops, stale) == (FreshReads(ops[..n], stale) && !(end && ReadsFlags(ops[n].op)))
            && StaleEnd(ops, stale) == StaleAfter(ops[n], end)
  {
    var n := |ops| - 1;
    if n > 0 {
      FreshSplits(ops[1..], StaleAfter(ops[0], stale));
      assert ops[1..][..n - 1] == ops[..n][1..];
    } else {
      assert ops[1..] == [];
    }
  }

  /** The same registers, memory and pc, and the same flags unless they are stale. */
  predicate SameExit(a: Exit, b: Exit, stale: bool) {
    Alike(a.guest, b.guest, stale) && a.pc == b.pc
  }

  lemma LastStep(i: Insn, a: Guest, b: Guest, stale: bool, fallThrough: U64)
    requires a.Valid() && RegsInRange(i) && IsTerminator(i.op) && Alike(a, b, stale)
    ensures Alike(Step(i, a), Step(i, b), stale)
    ensures !(stale && i.op.Br?) ==> Successor(i, a, fallThrough) == Successor(i, b, fallThrough)
  {
    if !stale {
      assert a == b;
    }
  }

  /** A block without stale reads: the emitted code's meaning is the block's. */
  lemma KeptBlock(ops: seq<Insn>, g: Guest, fallThrough: U64)
    requires IsBlock(ops) && g.Valid() && FreshReads(ops, false)
    ensures SameExit(RunKept(ops, g, fallThrough), RunBlock(ops, g, fallThrough), StaleEnd(ops, false))
  {
    var n := |ops| - 1;
    FreshSplits(ops, false);
    KeptSteps(ops[..n], g, g, false);
    RunBlockSplits(ops, g, fallThrough);
    LastStep(ops[n], KeptAll(ops[..n], g), StepAll(ops[..n], g), StaleEnd(ops[..n], false), fallThrough);
  }

  /** A block whose only stale read may be its final branch goes where the IR says, from a given state,
      exactly when the branch decides the same on the flags the code kept, or has nowhere else to go. */
  lemma StaleBranchExactly(ops: seq<Insn>, g: Guest, fallThrough: U64)
    requires IsBlock(ops) && g.Valid() && ops[|ops| - 1].op.Br? && FreshReads(ops[..|ops| - 1], false)
    ensures var n := |ops| - 1;
            var kept, due := KeptAll(ops[..n], g).flags, StepAll(ops[..n], g).flags;
            SameExit(RunKept(ops, g, fallThrough), RunBlock(ops, g, fallThrough), true)
            <==> (Holds(ops[n].cc, kept) == Holds(ops[n].cc, due) || ops[n].target == fallThrough)
  {
    var n := |ops| - 1;
    KeptSteps(ops[..n], g, g, false);
    RunBlockSplits(ops, g, fallThrough);
  }

  lemma OneOperation(i: Insn, g: Guest)
    requires RegsInRange(i) && g.Valid()
    ensures KeptAll([i], g) == Kept(i, g) && StepAll([i], g) == Step(i, g) && FreshReads([i], false)
  {
    assert KeptAll([i][1..], Kept(i, g)) == Kept(i, g);
    assert StepAll([i][1..], Step(i, g)) == Step(i, g);
    assert FreshReads([i][1..], StaleAfter(i, false));
  }

  lemma CasFlags(cas: Insn, g: Guest)
    requires cas.op.AtomicCas? && RegsInRange(cas) && g.Valid()
    ensures Step(cas, g).flags == SubFlags(g.regs[RAX], Load64(g.mem, g.regs[cas.rn])) && Kept(cas, g).flags == g.flags
  {
  }

  lemma CasAlone(cas: Insn, g: Guest)
    requires cas.op.AtomicCas? && RegsInRange(cas) && g.Valid()
    ensures KeptAll([cas], g).flags == g.flags && FreshReads([cas], false)
    ensures StepAll([cas], g).flags == SubFlags(g.regs[RAX], Load64(g.mem, g.regs[cas.rn]))
  {
    OneOperation(cas, g);
    CasFlags(cas, g);
  }

  /** Where LOCK CMPXCHG and a branch go: on the flags of the comparison, or on those from before it. */
  lemma CasBranchGoes(cas: Insn, br: Insn, g: Guest, fallThrough: U64)
    requires cas.op.AtomicCas? && br.op.Br? && g.Valid() && IsBlock([cas, br]) && RegsInRange(cas)
    ensures var compared := SubFlags(g.regs[RAX], Load64(g.mem, g.regs[cas.rn]));
            && RunBlock([cas, br], g, fallThrough).pc == (if Holds(br.cc, compared) then br.target else fallThrough)
            && RunKept([cas, br], g, fallThrough).pc == (if Holds(br.cc, g.flags) then br.target else fallThrough)
  {
    assert [cas, br][..1] == [cas] && [cas, br][0] == cas;
    CasAlone(cas, g);
    RunBlockSplits([cas, br], g, fallThrough);
  }

  /** Without atomics no flag is ever stale. */
  lemma {:induction false} NothingStale(ops: seq<Insn>)
    requires forall k :: 0 <= k < |ops| ==> !IsAtomic(ops[k].op)
    ensures FreshReads(ops, false) && !StaleEnd(ops, false)
  {
    if ops != [] {
      NothingStale(ops[1..]);
    }
  }
}
