/** The ordering theorems for the words the translator emits, and the litmus shapes they decide. */
module EmittedOrdering {
  import opened Words
  import opened Errors
  import opened GuestIr
  import opened A64
  import opened Encode
  import opened Translate
  import opened Graphs
  import opened MemoryModel
  import opened Ordering
  import opened OrderingTheorems

  // ---- from IR operations and words to labels ----

  /** One executed operation with the location and value of its access, if it has one. */
  datatype Executed = Executed(insn: Insn, loc: U64, val: U64)

  /** The guest's fences by the number in `cc`: 1 is LFENCE, 2 is SFENCE, anything else MFENCE. */
  function GuestBarrier(cc: int): Barrier {
    match cc
    case 1 => LoadOnly
    case 2 => StoreOnly
    case _ => Full
  }

  /** Under the conservative policy every load and store is to be ordered, otherwise those of class 1. */
  predicate ToOrder(i: Insn, policy: Policy) {
    policy == Conservative || i.mclass == 1
  }

  /** What an operation asks of the memory system, from the IR alone. Stack operations, calls and
      returns are never ordered, whatever the policy. */
  function KindOf(i: Insn, policy: Policy): Kind {
    match i.op
    case Load => Reads(ToOrder(i, policy))
    case Store => Writes(ToOrder(i, policy))
    case Pop => Reads(false)
    case X86Ret => Reads(false)
    case Push => Writes(false)
    case Call => Writes(false)
    case Fence => Fences(GuestBarrier(i.cc))
    case _ => Silent
  }

  function LabelsOf(i: Instr): seq<Label> {
    match i
    case Ldr(_, _, _) => [R(PlainRead)]
    case Ldar(_, _) => [R(Acquire)]
    case Ldapr(_, _) => [R(AcquirePc)]
    case Str(_, _, _) => [W(PlainWrite)]
    case Stlr(_, _) => [W(Release)]
    case Dmb(kind) => [F(kind)]
    case _ => []
  }

  function LabelsOfCode(code: seq<Instr>): seq<Label> {
    FlatMap(LabelsOf, code)
  }

  function FlatMap<A, B>(f: A -> seq<B>, s: seq<A>): seq<B> {
    if s == [] then [] else f(s[0]) + FlatMap(f, s[1..])
  }

  lemma {:induction false} FlatMapAppend<A, B>(f: A -> seq<B>, a: seq<A>, b: seq<A>)
    ensures FlatMap(f, a + b) == FlatMap(f, a) + FlatMap(f, b)
  {
    if a == [] {
      assert a + b == b;
    } else {
      FlatMapAppend(f, a[1..], b);
      assert (a + b)[0] == a[0] && (a + b)[1..] == a[1..] + b;
    }
  }

  lemma LabelsAppend(a: seq<Instr>, b: seq<Instr>)
    ensures LabelsOfCode(a + b) == LabelsOfCode(a) + LabelsOfCode(b)
  {
    FlatMapAppend(LabelsOf, a, b);
  }

  lemma {:induction false} ConstantsAreSilent(reg: Reg, v: U64, hw: nat)
    requires hw <= 4
    ensures LabelsOfCode(MovkLanes(reg, v, hw)) == []
    decreases 4 - hw, v
  {
    if hw < 4 {
      ConstantsAreSilent(reg, v, hw + 1);
      if LaneOf(v, hw) != 0 {
        assert MovkLanes(reg, v, hw)[1..] == MovkLanes(reg, v, hw + 1);
      } else {
        assert MovkLanes(reg, v, hw) == MovkLanes(reg, v, hw + 1);
      }
    }
  }

  lemma ConstantThenLabels(reg: Reg, v: U64, tail: seq<Instr>)
    ensures LabelsOfCode(MovImm(reg, v) + tail) == LabelsOfCode(tail)
    ensures LabelsOfCode(MovImm(reg, v)) == []
  {
    ConstantsAreSilent(reg, v, 1);
    assert MovImm(reg, v)[1..] == MovkLanes(reg, v, 1);
    LabelsAppend(MovImm(reg, v), tail);
  }

  lemma Labels1(a: Instr)
    ensures LabelsOfCode([a]) == LabelsOf(a)
  {
    assert FlatMap(LabelsOf, [a]) == LabelsOf(a) + FlatMap(LabelsOf, []);
  }

  lemma Labels2(a: Instr, b: Instr)
    ensures LabelsOfCode([a, b]) == LabelsOf(a) + LabelsOf(b)
    ensures LabelsOfCode([a]) == LabelsOf(a)
  {
    Labels1(a);
    Labels1(b);
    LabelsAppend([a], [b]);
    assert [a, b] == [a] + [b];
  }

  lemma Labels3(a: Instr, b: Instr, c: Instr)
    ensures LabelsOfCode([a, b, c]) == LabelsOf(a) + LabelsOf(b) + LabelsOf(c)
  {
    Labels2(a, b);
    Labels1(c);
    LabelsAppend([a, b], [c]);
    assert [a, b, c] == [a, b] + [c];
  }

  lemma FencedLabels(i: Insn, policy: Policy)
    requires (i.op.Load? || i.op.Store?) && RegsInRange(i) && Ordered(i, policy) && LowerAccess(i, policy, Tso).Ok?
    ensures LabelsOfCode(LowerAccess(i, policy, Tso).value) == HostLabels(KindOf(i, policy), Tso)
  {
    var code := LowerAccess(i, policy, Tso).value;
    Labels2(code[0], code[1]);
  }

  lemma AcquireReleaseLabels(i: Insn, policy: Policy, strength: Strength)
    requires (i.op.Load? || i.op.Store?) && RegsInRange(i) && Ordered(i, policy) && !strength.Tso?
    requires LowerAccess(i, policy, strength).Ok?
    ensures LabelsOfCode(LowerAccess(i, policy, strength).value) == HostLabels(KindOf(i, policy), strength)
  {
    var code := LowerAccess(i, policy, strength).value;
    var last := code[|code| - 1];
    if i.imm == 0 {
      assert code == [last];
      Labels2(last, last);
    } else {
      assert code == [AddImm(SCRATCH, i.rn, i.imm), last];
      Labels2(code[0], last);
    }
    assert LabelsOf(last) == HostLabels(KindOf(i, policy), strength);
  }

  lemma AccessLabels(i: Insn, policy: Policy, strength: Strength)
    requires (i.op.Load? || i.op.Store?) && RegsInRange(i) && LowerAccess(i, policy, strength).Ok?
    ensures LabelsOfCode(LowerAccess(i, policy, strength).value) == HostLabels(KindOf(i, policy), strength)
  {
    if !Ordered(i, policy) {
      var code := LowerAccess(i, policy, strength).value;
      Labels2(code[0], code[0]);
    } else if strength.Tso? {
      FencedLabels(i, policy);
    } else {
      AcquireReleaseLabels(i, policy, strength);
    }
  }

  lemma CallLabels(i: Insn, policy: Policy, strength: Strength)
    requires i.op.Call? && Lower(i, policy, strength).Ok?
    ensures LabelsOfCode(Lower(i, policy, strength).value) == [W(PlainWrite)]
  {
    ConstantThenLabels(SCRATCH, ToU64(i.imm), [SubImm(RSP, RSP, 8), Str(SCRATCH, RSP, 0), B(0)]);
    Labels3(SubImm(RSP, RSP, 8), Str(SCRATCH, RSP, 0), B(0));
  }

  lemma StackLabels(i: Insn, policy: Policy, strength: Strength)
    requires (i.op.Push? || i.op.Pop? || i.op.X86Ret?) && Lower(i, policy, strength).Ok?
    ensures LabelsOfCode(Lower(i, policy, strength).value) == HostLabels(KindOf(i, policy), strength)
  {
    var code := Lower(i, policy, strength).value;
    if i.op.X86Ret? {
      Labels3(code[0], code[1], code[2]);
    } else {
      Labels2(code[0], code[1]);
    }
  }

  /** Either one instruction that touches no memory, or a constant and then one. */
  lemma AloneOrAfterConstant(code: seq<Instr>, i: Instr, v: U64)
    requires LabelsOf(i) == [] && (code == [i] || code == MovImm(SCRATCH, v) + [i])
    ensures LabelsOfCode(code) == []
  {
    Labels2(i, i);
    ConstantThenLabels(SCRATCH, v, [i]);
  }

  lemma AddDeltaLabels(rd: Reg, d: I64)
    requires rd < 16
    ensures LabelsOfCode(LowerAddDelta(rd, d)) == []
  {
    var code := LowerAddDelta(rd, d);
    AloneOrAfterConstant(code, code[|code| - 1], ToU64(d));
  }

  lemma CmpImmLabels(rd: Reg, imm: I64)
    requires rd < 16
    ensures LabelsOfCode(LowerCmpImm(rd, imm)) == []
  {
    var code := LowerCmpImm(rd, imm);
    AloneOrAfterConstant(code, code[|code| - 1], ToU64(imm));
  }

  lemma LeaLabels(i: Insn)
    requires RegsInRange(i)
    ensures LabelsOfCode(LowerLea(i)) == []
  {
    var code := LowerLea(i);
    AloneOrAfterConstant(code, code[|code| - 1], ToU64(i.imm));
  }

  lemma ConstantUseLabels(i: Insn, policy: Policy, strength: Strength)
    requires UsesConstant(i.op) && !i.op.Call? && Lower(i, policy, strength).Ok?
    ensures LabelsOfCode(Lower(i, policy, strength).value) == []
  {
    match i.op
    case MovRI => ConstantThenLabels(i.rd, ToU64(i.imm), []);
    case Lea => LeaLabels(i);
    case AddRI => AddDeltaLabels(i.rd, i.imm);
    case SubRI => AddDeltaLabels(i.rd, Negated(i.imm));
    case CmpRI => CmpImmLabels(i.rd, i.imm);
  }

  lemma QuietLabels(i: Insn, policy: Policy, strength: Strength)
    requires Lower(i, policy, strength).Ok? && !UsesConstant(i.op) && !IsAtomic(i.op)
    requires !(i.op.Load? || i.op.Store? || i.op.Push? || i.op.Pop? || i.op.X86Ret?)
    ensures LabelsOfCode(Lower(i, policy, strength).value) == HostLabels(KindOf(i, policy), strength)
  {
    var code := Lower(i, policy, strength).value;
    if |code| == 1 {
      assert code == [code[0]];
      Labels2(code[0], code[0]);
    } else {
      assert code == [code[0], code[1]];
      Labels2(code[0], code[1]);
    }
  }

  /** The memory labels of an operation's code are exactly those its kind and the strength call for. */
  lemma LoweredLabels(i: Insn, policy: Policy, strength: Strength)
    requires Lower(i, policy, strength).Ok? && !IsAtomic(i.op)
    ensures LabelsOfCode(Lower(i, policy, strength).value) == HostLabels(KindOf(i, policy), strength)
  {
    if i.op.Load? || i.op.Store? {
      AccessLabels(i, policy, strength);
    } else if i.op.Call? {
      CallLabels(i, policy, strength);
    } else if i.op.Push? || i.op.Pop? || i.op.X86Ret? {
      StackLabels(i, policy, strength);
    } else if UsesConstant(i.op) {
      ConstantUseLabels(i, policy, strength);
    } else {
      QuietLabels(i, policy, strength);
    }
  }

  // ---- whole runs ----

  type Run = seq<seq<Executed>>

  function TraceOf(run: Run, policy: Policy): Trace {
    seq(|run|, t requires 0 <= t < |run| =>
      seq(|run[t]|, i requires 0 <= i < |run[t]| =>
        Op(KindOf(run[t][i].insn, policy), run[t][i].loc, run[t][i].val)))
  }

  /** Every operation was translated, and none is a LOCK-prefixed one. */
  predicate Translates(run: Run, policy: Policy, strength: Strength) {
    forall t, i :: 0 <= t < |run| && 0 <= i < |run[t]| ==>
      Emit(run[t][i].insn, policy, strength).Ok? && !IsAtomic(run[t][i].insn.op)
  }

  /** The labels of the emitted words. */
  function EmittedLabels(i: Insn, policy: Policy, strength: Strength): seq<Label> {
    var words := Emit(i, policy, strength);
    if words.Ok? then LabelsOfCode(DecodeAll(words.value)) else []
  }

  /** The host program the emitted words of a run are. */
  function EmittedProgram(run: Run, policy: Policy, strength: Strength): Program {
    seq(|run|, t requires 0 <= t < |run| =>
      seq(|run[t]|, i requires 0 <= i < |run[t]| =>
        Slot(EmittedLabels(run[t][i].insn, policy, strength), run[t][i].loc, run[t][i].val)))
  }

  lemma EmittedLabelsAre(i: Insn, policy: Policy, strength: Strength)
    requires Emit(i, policy, strength).Ok? && !IsAtomic(i.op)
    ensures EmittedLabels(i, policy, strength) == HostLabels(KindOf(i, policy), strength)
  {
    LoweredEncodable(i, policy, strength);
    DecodeAssembled(Lower(i, policy, strength).value);
    LoweredLabels(i, policy, strength);
  }

  lemma EmittedIsHost(run: Run, policy: Policy, strength: Strength)
    requires Translates(run, policy, strength)
    ensures EmittedProgram(run, policy, strength) == HostOf(TraceOf(run, policy), strength)
  {
    var p, h := EmittedProgram(run, policy, strength), HostOf(TraceOf(run, policy), strength);
    forall t | 0 <= t < |run|
      ensures p[t] == h[t]
    {
      forall i | 0 <= i < |run[t]|
        ensures p[t][i] == h[t][i]
      {
        EmittedLabelsAre(run[t][i].insn, policy, strength);
      }
    }
  }

  /** DRF soundness for the emitted code: any number of threads and operations, every policy and
      strength, provided the locations of LOCAL-class and stack accesses are private. */
  lemma EmittedCodeIsTso(run: Run, policy: Policy, strength: Strength,
                                            xg: Exec, xh: Exec, deps: set<(Ev, Ev)>)
    requires Translates(run, policy, strength) && PlainIsPrivate(TraceOf(run, policy))
    requires Corresponds(TraceOf(run, policy), strength, xg, xh)
    requires ArmConsistent(EmittedProgram(run, policy, strength), xh, deps)
    ensures TsoConsistent(GuestOf(TraceOf(run, policy)), xg)
  {
    EmittedIsHost(run, policy, strength);
    DrfSound(TraceOf(run, policy), strength, xg, xh, deps);
  }

  /** The operations that use the guest's stack. */
  predicate OnStack(i: Insn) {
    i.op.Push? || i.op.Pop? || i.op.Call? || i.op.X86Ret?
  }

  /** Every stack access is to memory of its own thread. */
  ghost predicate StackIsPrivate(run: Run, policy: Policy) {
    var ops := TraceOf(run, policy);
    forall e :: Mem(GuestOf(ops), e) && OnStack(run[e.t][e.i].insn) ==> PrivateAt(ops, e)
  }

  lemma OnlyStackIsPlain(run: Run, e: Ev)
    requires Mem(GuestOf(TraceOf(run, Conservative)), e) && !OrderedAt(TraceOf(run, Conservative), e)
    ensures OnStack(run[e.t][e.i].insn)
  {
    GuestAccess(TraceOf(run, Conservative), e);
  }

  /** Under the conservative policy only the stacks need be private, whatever the classes say. */
  lemma ConservativeIsTso(run: Run, strength: Strength, xg: Exec, xh: Exec, deps: set<(Ev, Ev)>)
    requires Translates(run, Conservative, strength) && StackIsPrivate(run, Conservative)
    requires Corresponds(TraceOf(run, Conservative), strength, xg, xh)
    requires ArmConsistent(EmittedProgram(run, Conservative, strength), xh, deps)
    ensures TsoConsistent(GuestOf(TraceOf(run, Conservative)), xg)
  {
    var ops := TraceOf(run, Conservative);
    forall e | Mem(GuestOf(ops), e) && !OrderedAt(ops, e) ensures PrivateAt(ops, e) {
      OnlyStackIsPlain(run, e);
    }
    EmittedCodeIsTso(run, Conservative, strength, xg, xh, deps);
  }

  /** Exactness for the emitted code: RCPC and the fence scheme admit an execution if and only if x86-TSO
      does. */
  lemma EmittedExactlyTso(run: Run, policy: Policy, strength: Strength,
                                             xg: Exec, xh: Exec, deps: set<(Ev, Ev)>)
    requires Translates(run, policy, strength) && strength != Sc && PlainIsPrivate(TraceOf(run, policy))
    requires Corresponds(TraceOf(run, policy), strength, xg, xh)
    requires LocalEdges(EmittedProgram(run, policy, strength), deps)
    ensures ArmConsistent(EmittedProgram(run, policy, strength), xh, deps)
       <==> TsoConsistent(GuestOf(TraceOf(run, policy)), xg)
  {
    EmittedIsHost(run, policy, strength);
    ExactlyTso(TraceOf(run, policy), strength, xg, xh, deps);
  }

  /** And the SC strength, with every access ordered, if and only if it is sequentially consistent. */
  lemma EmittedExactlySc(run: Run, policy: Policy, xg: Exec, xh: Exec, deps: set<(Ev, Ev)>)
    requires Translates(run, policy, Sc) && AllOrdered(TraceOf(run, policy))
    requires Corresponds(TraceOf(run, policy), Sc, xg, xh) && LocalEdges(EmittedProgram(run, policy, Sc), deps)
    ensures ArmConsistent(EmittedProgram(run, policy, Sc), xh, deps)
       <==> ScConsistent(GuestOf(TraceOf(run, policy)), xg)
  {
    EmittedIsHost(run, policy, Sc);
    ExactlySc(TraceOf(run, policy), xg, xh, deps);
  }

  // ---- every execution has its counterpart ----

  ghost predicate AllTwins(ops: Trace, s: Strength, events: set<Ev>) {
    forall e :: e in events ==> Twin(ops, s, e, Up(ops, s, e))
  }

  ghost predicate AllHostTwins(ops: Trace, s: Strength, events: set<Ev>) {
    forall h :: h in events ==> Twin(ops, s, Down(h), h)
  }

  /** The host execution of a guest execution. */
  ghost function LiftRf(ops: Trace, s: Strength, rf: map<Ev, Ev>): (m: map<Ev, Ev>)
    requires AllTwins(ops, s, rf.Keys)
    ensures forall r :: r in rf ==> Up(ops, s, r) in m && m[Up(ops, s, r)] == Up(ops, s, rf[r])
    ensures forall h :: h in m ==> Down(h) in rf && h == Up(ops, s, Down(h))
  {
    map r | r in rf :: Up(ops, s, r) := Up(ops, s, rf[r])
  }

  ghost function LiftCo(ops: Trace, s: Strength, co: map<Ev, nat>): (m: map<Ev, nat>)
    requires AllTwins(ops, s, co.Keys)
    ensures forall w :: w in co ==> Up(ops, s, w) in m && m[Up(ops, s, w)] == co[w]
    ensures forall h :: h in m ==> Down(h) in co && h == Up(ops, s, Down(h))
  {
    map w | w in co :: Up(ops, s, w) := co[w]
  }

  ghost function Lift(ops: Trace, s: Strength, x: Exec): Exec
    requires AllTwins(ops, s, x.rf.Keys) && AllTwins(ops, s, x.co.Keys)
  {
    Exec(LiftRf(ops, s, x.rf), LiftCo(ops, s, x.co))
  }

  /** The guest execution of a host execution. */
  ghost function SinkRf(ops: Trace, s: Strength, rf: map<Ev, Ev>): (m: map<Ev, Ev>)
    requires AllHostTwins(ops, s, rf.Keys)
    ensures forall h :: h in rf ==> Down(h) in m && m[Down(h)] == Down(rf[h])
    ensures forall r :: r in m ==> Up(ops, s, r) in rf && r == Down(Up(ops, s, r))
  {
    map h | h in rf :: Down(h) := Down(rf[h])
  }

  ghost function SinkCo(ops: Trace, s: Strength, co: map<Ev, nat>): (m: map<Ev, nat>)
    requires AllHostTwins(ops, s, co.Keys)
    ensures forall h :: h in co ==> Down(h) in m && m[Down(h)] == co[h]
    ensures forall w :: w in m ==> Up(ops, s, w) in co && w == Down(Up(ops, s, w))
  {
    map h | h in co :: Down(h) := co[h]
  }

  ghost function Sink(ops: Trace, s: Strength, x: Exec): Exec
    requires AllHostTwins(ops, s, x.rf.Keys) && AllHostTwins(ops, s, x.co.Keys)
  {
    Exec(SinkRf(ops, s, x.rf), SinkCo(ops, s, x.co))
  }

  lemma GuestTwins(ops: Trace, s: Strength, x: Exec)
    requires WellFormed(GuestOf(ops), x)
    ensures AllTwins(ops, s, x.rf.Keys) && AllTwins(ops, s, x.co.Keys) && AllTwins(ops, s, x.rf.Values)
  {
    forall e | Mem(GuestOf(ops), e)
      ensures Twin(ops, s, e, Up(ops, s, e))
    {
      GuestAccess(ops, e);
    }
    assert forall r :: r in x.rf ==> Explains(GuestOf(ops), x.rf[r], r);
  }

  lemma HostTwins(ops: Trace, s: Strength, x: Exec)
    requires WellFormed(HostOf(ops, s), x)
    ensures AllHostTwins(ops, s, x.rf.Keys) && AllHostTwins(ops, s, x.co.Keys) && AllHostTwins(ops, s, x.rf.Values)
  {
    forall h | Mem(HostOf(ops, s), h)
      ensures Twin(ops, s, Down(h), h)
    {
      HostAccess(ops, s, h);
    }
    assert forall r :: r in x.rf ==> Explains(HostOf(ops, s), x.rf[r], r);
  }

  lemma LiftSameRf(ops: Trace, s: Strength, x: Exec, y: Exec)
    requires AllTwins(ops, s, x.rf.Keys) && AllTwins(ops, s, x.rf.Values) && y.rf == LiftRf(ops, s, x.rf)
    ensures SameRf(ops, s, x, y)
  {
    forall r | r in x.rf
      ensures Twin(ops, s, r, Up(ops, s, r)) && Twin(ops, s, x.rf[r], y.rf[Up(ops, s, r)])
    {
      assert x.rf[r] in x.rf.Values;
    }
  }

  lemma SinkSameRf(ops: Trace, s: Strength, x: Exec, y: Exec)
    requires AllHostTwins(ops, s, x.rf.Keys) && AllHostTwins(ops, s, x.rf.Values) && y.rf == SinkRf(ops, s, x.rf)
    ensures SameRf(ops, s, y, x)
  {
    forall h | h in x.rf
      ensures Twin(ops, s, Down(h), h) && Twin(ops, s, y.rf[Down(h)], x.rf[h])
    {
      assert x.rf[h] in x.rf.Values;
    }
  }

  lemma LiftCorresponds(ops: Trace, s: Strength, x: Exec)
    requires WellFormed(GuestOf(ops), x)
    ensures AllTwins(ops, s, x.rf.Keys) && AllTwins(ops, s, x.co.Keys)
    ensures Corresponds(ops, s, x, Lift(ops, s, x))
  {
    GuestTwins(ops, s, x);
    LiftSameRf(ops, s, x, Lift(ops, s, x));
  }

  lemma SinkCorresponds(ops: Trace, s: Strength, x: Exec)
    requires WellFormed(HostOf(ops, s), x)
    ensures AllHostTwins(ops, s, x.rf.Keys) && AllHostTwins(ops, s, x.co.Keys)
    ensures Corresponds(ops, s, Sink(ops, s, x), x)
  {
    HostTwins(ops, s, x);
    SinkSameRf(ops, s, x, Sink(ops, s, x));
  }

  /** Exactness as sets of executions: under RCPC or the fence scheme the guest executions the
      hardware can show are exactly those x86-TSO allows. */
  lemma AdmittedExactlyTso(ops: Trace, s: Strength, xg: Exec)
    requires s != Sc && PlainIsPrivate(ops)
    ensures (exists xh :: Corresponds(ops, s, xg, xh) && ArmConsistent(HostOf(ops, s), xh, {}))
       <==> TsoConsistent(GuestOf(ops), xg)
  {
    if TsoConsistent(GuestOf(ops), xg) {
      LiftCorresponds(ops, s, xg);
      ExactlyTso(ops, s, xg, Lift(ops, s, xg), {});
    }
    forall xh | Corresponds(ops, s, xg, xh) && ArmConsistent(HostOf(ops, s), xh, {})
      ensures TsoConsistent(GuestOf(ops), xg)
    {
      DrfSound(ops, s, xg, xh, {});
    }
  }

  /** And under the SC strength, with every access ordered, exactly the sequentially consistent ones. */
  lemma AdmittedExactlySc(ops: Trace, xg: Exec)
    requires AllOrdered(ops)
    ensures (exists xh :: Corresponds(ops, Sc, xg, xh) && ArmConsistent(HostOf(ops, Sc), xh, {}))
       <==> ScConsistent(GuestOf(ops), xg)
  {
    if ScConsistent(GuestOf(ops), xg) {
      LiftCorresponds(ops, Sc, xg);
      ExactlySc(ops, xg, Lift(ops, Sc, xg), {});
    }
    forall xh | Corresponds(ops, Sc, xg, xh) && ArmConsistent(HostOf(ops, Sc), xh, {})
      ensures ScConsistent(GuestOf(ops), xg)
    {
      ExactlySc(ops, xg, xh, {});
    }
  }
}
