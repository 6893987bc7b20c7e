/** The three tests as the tool writes them, and their verdicts over every schedule and any number
    of iterations. */
module LitmusVerdicts {
  import opened LitmusMachine
  import opened LitmusGate
  import opened LitmusTests

  /** Main's loop body with two workers, of which it loads two results. */
  function MainTwo(a: Loc, b: Loc): seq<Op> {
    [Put(X, 0), Put(Y, 0), Stamp(Go), Await(Done(0)), Await(Done(1)), Load(a), Load(b), Tally]
  }

  function MainThree(): seq<Op> {
    [Put(X, 0), Put(Y, 0), Stamp(Go), Await(Done(0)), Await(Done(1)), Await(Done(2)),
     Load(Res(1, 0)), Load(Res(2, 0)), Load(Res(2, 1)), Tally]
  }

  function MpWriter(fenced: bool): seq<Op> {
    [Await(Go), Put(X, 1), Barrier(fenced), Put(Y, 1), Stamp(Done(0))]
  }

  function MpReader(fenced: bool): seq<Op> {
    [Await(Go), Load(Y), Barrier(fenced), Load(X), Save(Res(1, 0), 0), Save(Res(1, 1), 1), Stamp(Done(1))]
  }

  /** MP: thread 0 writes x then y; thread 1 reads y then x. */
  function Mp(fenced: bool): Program {
    Program(
      MainTwo(Res(1, 0), Res(1, 1)),
      [MpWriter(fenced), MpReader(fenced)],
      (r: seq<int>) => |r| == 2 && r[0] == 1 && r[1] == 0)
  }

  function WrcWriter(): seq<Op> {
    [Await(Go), Put(X, 1), Stamp(Done(0))]
  }

  function WrcRelay(): seq<Op> {
    [Await(Go), Load(X), Save(Res(1, 0), 0), Put(Y, 1), Stamp(Done(1))]
  }

  function WrcReader(): seq<Op> {
    [Await(Go), Load(Y), Load(X), Save(Res(2, 0), 0), Save(Res(2, 1), 1), Stamp(Done(2))]
  }

  /** WRC: thread 0 writes x; thread 1 reads x, then writes y; thread 2 reads y then x. */
  function Wrc(): Program {
    Program(
      MainThree(),
      [WrcWriter(), WrcRelay(), WrcReader()],
      (r: seq<int>) => |r| == 3 && r[0] == 1 && r[1] == 1 && r[2] == 0)
  }

  function SbThread(w: nat, mine: Loc, other: Loc, fenced: bool): seq<Op> {
    [Await(Go), Put(mine, 1), Barrier(fenced), Load(other), Save(Res(w, 0), 0), Stamp(Done(w))]
  }

  /** SB: each thread writes one location and reads the other. */
  function Sb(fenced: bool): Program {
    Program(
      MainTwo(Res(0, 0), Res(1, 0)),
      [SbThread(0, X, Y, fenced), SbThread(1, Y, X, fenced)],
      (r: seq<int>) => |r| == 2 && r[0] == 0 && r[1] == 0)
  }

  // ---- how a worker's registers change ----

  /** What one step does to worker `w`'s registers: nothing, forget them, or add a loaded value. */
  ghost predicate RegsMove(code: seq<Op>, t: Thread, t': Thread, s: State) {
    || (t'.regs == t.regs && t'.iter == t.iter && t'.pc >= t.pc)
    || t'.regs == []
    || (&& t.iter == s.main.iter > 0 && t'.iter == t.iter && t.pc < |code| && code[t.pc].Load?
        && t'.regs == t.regs + [Seen(t.log, t.flushed, s.mem, code[t.pc].loc)] && t'.pc == t.pc + 1)
  }

  lemma RegsStep(p: Program, iters: nat, s: State, c: Choice, w: nat)
    requires LitmusProgram(p) && Gate(p, s) && w < |p.workers|
    ensures var s' := Next(p, iters, s, c);
            |s'.workers| == |s.workers| && RegsMove(p.workers[w], s.workers[w], s'.workers[w], s)
    ensures c == MainRuns || Next(p, iters, s, c).main.iter == s.main.iter
  {
    var code, t := p.workers[w], s.workers[w];
    assert WorkerAt(code, w, t, s.main, GoDone(s), s.mem);
    if c == Runs(w) && CanRun(code, iters, t, s.mem) {
      WorkerRuns(code, w, t, s.main, GoDone(s), s.mem, iters);
    }
  }

  lemma LoadsSteps(code: seq<Op>, pc: nat)
    requires 1 <= pc <= |code|
    ensures Loads(code, pc) == Loads(code, pc - 1) + if code[pc - 1].Load? then 1 else 0
  {
  }

  lemma IssuedSteps(code: seq<Op>, pc: nat, iter: nat, regs: seq<int>)
    requires 1 <= pc <= |code|
    ensures Issued(code, pc, iter, regs) == Issued(code, pc - 1, iter, regs) + WriteOf(code[pc - 1], iter, regs)
  {
  }

  /** Code that never stores to `l`. */
  predicate LeavesAlone(code: seq<Op>, l: Loc) {
    forall at :: 0 <= at < |code| && (code[at].Put? || code[at].Stamp? || code[at].Save?) ==> code[at].loc != l
  }

  lemma NeverStores(code: seq<Op>, t: Thread, l: Loc)
    requires Local(code, t) && LeavesAlone(code, l)
    ensures forall k :: 0 <= k < |t.log| ==> t.log[k].loc != l
  {
    forall k | 0 <= k < |t.log| ensures t.log[k].loc != l {
      var at := IssuedFrom(code, t.pc, t.iter, t.regs, k);
      assert [t.log[k]][0] == WriteOf(code[at], t.iter, t.regs)[0];
    }
  }

  predicate MainTwoAt(main: seq<Op>, a: Loc, b: Loc) {
    && |main| == 8 && main[0] == Put(X, 0) && main[1] == Put(Y, 0) && main[2] == Stamp(Go)
    && main[3] == Await(Done(0)) && main[4] == Await(Done(1))
    && main[5] == Load(a) && main[6] == Load(b) && main[7] == Tally
  }

  lemma MainTwoCode(main: seq<Op>, a: Loc, b: Loc)
    requires a.Res? && a.worker < 2 && b.Res? && b.worker < 2 && MainTwoAt(main, a, b)
    ensures MainCode(main, 2)
  {
  }

  lemma TwoWorkers(p: Program, a: Loc, b: Loc)
    requires a.Res? && a.worker < 2 && b.Res? && b.worker < 2 && MainTwoAt(p.main, a, b) && |p.workers| == 2
    requires WorkerCode(p.workers[0], 0) && WorkerCode(p.workers[1], 1)
    requires Saves(p.workers[a.worker], a) && Saves(p.workers[b.worker], b)
    ensures LitmusProgram(p)
  {
    MainTwoCode(p.main, a, b);
    forall k | 5 <= k < 7 ensures Saves(p.workers[p.main[k].loc.worker], p.main[k].loc) {
      assert k == 5 || k == 6;
    }
  }

  // ---- MP ----

  predicate MpWriterAt(code: seq<Op>) {
    && |code| == 5 && code[0] == Await(Go) && code[1] == Put(X, 1) && code[2].Barrier? && code[3] == Put(Y, 1)
    && code[4] == Stamp(Done(0))
  }

  predicate MpReaderAt(code: seq<Op>) {
    && |code| == 7 && code[0] == Await(Go) && code[1] == Load(Y) && code[2].Barrier? && code[3] == Load(X)
    && code[4] == Save(Res(1, 0), 0) && code[5] == Save(Res(1, 1), 1) && code[6] == Stamp(Done(1))
  }

  /** The message-passing program, statement by statement. */
  predicate IsMp(p: Program) {
    && MainTwoAt(p.main, Res(1, 0), Res(1, 1)) && |p.workers| == 2
    && MpWriterAt(p.workers[0]) && MpReaderAt(p.workers[1])
  }

  ghost predicate CountsMp(p: Program) {
    forall r: seq<int> :: p.counts(r) <==> r == [1, 0]
  }

  lemma MpIsMp(fenced: bool)
    ensures IsMp(Mp(fenced)) && CountsMp(Mp(fenced))
    ensures Mp(fenced).workers[0][2] == Mp(fenced).workers[1][2] == Barrier(fenced)
  {
  }

  lemma MpReaderLoads(code: seq<Op>)
    requires MpReaderAt(code)
    ensures Loads(code, 1) == 0 && Loads(code, 2) == 1 && Loads(code, 3) == 1 && Loads(code, 4) == 2
    ensures Loads(code, 5) == 2 && Loads(code, 6) == 2 && Loads(code, 7) == 2
  {
    LoadsSteps(code, 1);
    LoadsSteps(code, 2);
    LoadsSteps(code, 3);
    LoadsSteps(code, 4);
    LoadsSteps(code, 5);
    LoadsSteps(code, 6);
    LoadsSteps(code, 7);
  }

  lemma MpShape(p: Program)
    requires IsMp(p)
    ensures LitmusProgram(p)
  {
    MpReaderLoads(p.workers[1]);
    assert p.workers[1][4].Save? && p.workers[1][5].Save?;
    TwoWorkers(p, Res(1, 0), Res(1, 1));
  }

  lemma {:induction false} IssuedPrefix(code: seq<Op>, j: nat, pc: nat, iter: nat, regs: seq<int>)
    requires j <= pc <= |code|
    ensures Issued(code, j, iter, regs) <= Issued(code, pc, iter, regs)
    decreases pc
  {
    if j < pc {
      IssuedPrefix(code, j, pc - 1, iter, regs);
    }
  }

  /** If the first statement behind the gate stores to `l`, that is the first store. */
  lemma FirstStore(code: seq<Op>, t: Thread, l: Loc)
    requires |code| >= 2 && code[0] == Await(Go) && code[1] == Put(l, 1) && Local(code, t) && t.log != []
    ensures t.log[0].loc == l && t.pc >= 2
  {
    IssuedSteps(code, 1, t.iter, t.regs);
    IssuedSteps(code, 2, t.iter, t.regs);
    assert Issued(code, 0, t.iter, t.regs) == [];
    if t.pc >= 2 {
      IssuedPrefix(code, 2, t.pc, t.iter, t.regs);
    }
  }

  lemma FirstIsShown(code: seq<Op>, t: Thread, m: nat, l: Loc, other: Loc)
    requires |code| >= 2 && code[0] == Await(Go) && code[1] == Put(l, 1) && Local(code, t) && ShownBy(t, m, other)
    ensures ShownBy(t, m, l)
  {
    FirstStore(code, t, l);
  }

  lemma NeverShown(code: seq<Op>, t: Thread, m: nat, l: Loc)
    requires Local(code, t) && LeavesAlone(code, l)
    ensures !ShownBy(t, m, l)
  {
    NeverStores(code, t, l);
  }

  lemma MpReaderAlone(code: seq<Op>, l: Loc)
    requires MpReaderAt(code) && Shared(l)
    ensures LeavesAlone(code, l)
  {
  }

  lemma MpOrderAt(writer: seq<Op>, reader: seq<Op>, t: Thread, u: Thread, m: nat)
    requires MpWriterAt(writer) && MpReaderAt(reader) && Local(writer, t) && Local(reader, u)
    ensures ShownBy(t, m, Y) ==> ShownBy(t, m, X)
    ensures !ShownBy(u, m, Y)
  {
    if ShownBy(t, m, Y) {
      FirstIsShown(writer, t, m, X, Y);
    }
    MpReaderAlone(reader, Y);
    NeverShown(reader, u, m, Y);
  }

  lemma GateIsLocal(p: Program, s: State, w: nat)
    requires Gate(p, s) && w < |p.workers|
    ensures Local(p.workers[w], s.workers[w])
  {
    assert WorkerAt(p.workers[w], w, s.workers[w], s.main, GoDone(s), s.mem);
  }

  ghost predicate AllLocal(p: Program, s: State) {
    |s.workers| == |p.workers| && forall w :: 0 <= w < |p.workers| ==> Local(p.workers[w], s.workers[w])
  }

  lemma GateAllLocal(p: Program, s: State)
    requires Gate(p, s)
    ensures AllLocal(p, s)
  {
    forall w | 0 <= w < |p.workers| ensures Local(p.workers[w], s.workers[w]) {
      GateIsLocal(p, s, w);
    }
  }

  lemma MpOrder(p: Program, s: State)
    requires IsMp(p) && AllLocal(p, s) && Shown(s, Y)
    ensures Shown(s, X)
  {
    MpOrderAt(p.workers[0], p.workers[1], s.workers[0], s.workers[1], s.main.iter);
  }

  /** The reader, in main's iteration: if it saw y it sees x. */
  ghost predicate MpRead(s: State) {
    |s.workers| == 2 && (s.workers[1].iter == s.main.iter > 0 ==> MpRegs(s.workers[1].regs, Shown(s, X)))
  }

  predicate MpRegs(r: seq<int>, xShown: bool) {
    (|r| >= 1 && r[0] == 1 ==> xShown) && (|r| >= 2 && r[0] == 1 ==> r[1] == 1)
  }

  lemma MpLoads(p: Program, s: State)
    requires IsMp(p) && LitmusProgram(p) && Sound(p, s) && MpRead(s)
    requires s.workers[1].iter == s.main.iter > 0 && s.workers[1].pc < 7 && p.workers[1][s.workers[1].pc].Load?
    ensures var t := s.workers[1];
            MpRegs(t.regs + [Seen(t.log, t.flushed, s.mem, p.workers[1][t.pc].loc)], Shown(s, X))
  {
    var code, t := p.workers[1], s.workers[1];
    assert WorkerAt(code, 1, t, s.main, GoDone(s), s.mem);
    MpReaderLoads(code);
    MpReaderAlone(code, code[t.pc].loc);
    NeverStores(code, t, code[t.pc].loc);
    LoadSees(p, s, 1, code[t.pc].loc);
    if Shown(s, Y) {
      GateAllLocal(p, s);
      MpOrder(p, s);
    }
  }

  lemma MpReadStep(p: Program, iters: nat, s: State, c: Choice)
    requires IsMp(p) && LitmusProgram(p) && Sound(p, s) && MpRead(s)
    ensures MpRead(Next(p, iters, s, c))
  {
    var s' := Next(p, iters, s, c);
    RegsStep(p, iters, s, c, 1);
    var t, t' := s.workers[1], s'.workers[1];
    assert WorkerAt(p.workers[1], 1, t, s.main, GoDone(s), s.mem);
    if t'.iter == s'.main.iter > 0 && |t'.regs| >= 1 {
      GateStep(p, iters, s, c);
      SameIteration(p, iters, s, c, 1);
      if t'.regs != t.regs {
        MpLoads(p, s);
      }
      if Shown(s, X) {
        ShownStays(p, iters, s, c, X);
      }
    }
  }

  /** A worker in main's iteration after a step, with something loaded, was in it before. */
  lemma SameIteration(p: Program, iters: nat, s: State, c: Choice, w: nat)
    requires LitmusProgram(p) && Gate(p, s) && w < |p.workers|
    requires var s' := Next(p, iters, s, c);
             w < |s'.workers| && s'.workers[w].iter == s'.main.iter > 0 && s'.workers[w].regs != []
    ensures Next(p, iters, s, c).main.iter == s.main.iter && s.workers[w].iter == s.main.iter
  {
    RegsStep(p, iters, s, c, w);
    assert WorkerAt(p.workers[w], w, s.workers[w], s.main, GoDone(s), s.mem);
  }

  lemma TallyOnly(p: Program, iters: nat, s: State, c: Choice)
    requires LitmusProgram(p) && Gate(p, s)
    requires s.main.iter > 0 && s.main.pc == |p.main| - 1 ==> !p.counts(s.main.regs)
    ensures Next(p, iters, s, c).witnesses == s.witnesses
  {
    if c == MainRuns && CanRun(p.main, iters, s.main, s.mem) {
      var k := Begun(p.main, s.main).pc;
      if 3 <= k < 3 + |p.workers| {
        assert p.main[3 + (k - 3)] == Await(Done(k - 3));
      }
    }
  }

  /** Main, at its tally, holds the reader's two registers. */
  lemma MpMainRegs(p: Program, s: State)
    requires IsMp(p) && LitmusProgram(p) && Sound(p, s) && s.main.iter > 0 && s.main.pc == 7
    ensures var r, t := s.main.regs, s.workers[1];
            && |r| >= 2 && t.iter == s.main.iter && Idle(p.workers[1], t)
            && r[0] == Register(t.regs, 0) && r[1] == Register(t.regs, 1)
  {
    MainHasResult(p, s, 5, 4);
    MainHasResult(p, s, 6, 5);
  }

  lemma MpNoWitness(p: Program, s: State)
    requires IsMp(p) && CountsMp(p) && LitmusProgram(p) && Sound(p, s) && MpRead(s) && s.main.iter > 0 && s.main.pc == 7
    ensures !p.counts(s.main.regs)
  {
    MpMainRegs(p, s);
    assert WorkerAt(p.workers[1], 1, s.workers[1], s.main, GoDone(s), s.mem);
    MpReaderLoads(p.workers[1]);
  }

  lemma {:induction false} MpHolds(p: Program, iters: nat, schedule: seq<Choice>)
    requires IsMp(p) && CountsMp(p) && LitmusProgram(p)
    ensures Run(p, iters, schedule).witnesses == 0 && MpRead(Run(p, iters, schedule))
  {
    if schedule != [] {
      var n := |schedule| - 1;
      var s := Run(p, iters, schedule[..n]);
      MpHolds(p, iters, schedule[..n]);
      SoundHolds(p, iters, schedule[..n]);
      MpReadStep(p, iters, s, schedule[n]);
      if s.main.iter > 0 && s.main.pc == 7 {
        MpNoWitness(p, s);
      }
      TallyOnly(p, iters, s, schedule[n]);
    }
  }

  /** MP: over every schedule and any number of iterations the witness counter stays 0. */
  lemma MpVerdict(fenced: bool, iters: nat, schedule: seq<Choice>)
    ensures Run(Mp(fenced), iters, schedule).witnesses == 0
  {
    MpIsMp(fenced);
    MpShape(Mp(fenced));
    MpHolds(Mp(fenced), iters, schedule);
  }

  // ---- WRC ----

  predicate WrcMainAt(main: seq<Op>) {
    && |main| == 10 && main[0] == Put(X, 0) && main[1] == Put(Y, 0) && main[2] == Stamp(Go)
    && main[3] == Await(Done(0)) && main[4] == Await(Done(1)) && main[5] == Await(Done(2))
    && main[6] == Load(Res(1, 0)) && main[7] == Load(Res(2, 0)) && main[8] == Load(Res(2, 1)) && main[9] == Tally
  }

  predicate WrcWriterAt(code: seq<Op>) {
    |code| == 3 && code[0] == Await(Go) && code[1] == Put(X, 1) && code[2] == Stamp(Done(0))
  }

  predicate WrcRelayAt(code: seq<Op>) {
    && |code| == 5 && code[0] == Await(Go) && code[1] == Load(X) && code[2] == Save(Res(1, 0), 0)
    && code[3] == Put(Y, 1) && code[4] == Stamp(Done(1))
  }

  predicate WrcReaderAt(code: seq<Op>) {
    && |code| == 6 && code[0] == Await(Go) && code[1] == Load(Y) && code[2] == Load(X)
    && code[3] == Save(Res(2, 0), 0) && code[4] == Save(Res(2, 1), 1) && code[5] == Stamp(Done(2))
  }

  predicate IsWrc(p: Program) {
    && WrcMainAt(p.main) && |p.workers| == 3
    && WrcWriterAt(p.workers[0]) && WrcRelayAt(p.workers[1]) && WrcReaderAt(p.workers[2])
  }

  ghost predicate CountsWrc(p: Program) {
    forall r: seq<int> :: p.counts(r) <==> r == [1, 1, 0]
  }

  lemma WrcIsWrc()
    ensures IsWrc(Wrc()) && CountsWrc(Wrc())
  {
  }

  lemma WrcRelayLoads(code: seq<Op>)
    requires WrcRelayAt(code)
    ensures Loads(code, 1) == 0 && Loads(code, 2) == 1 && Loads(code, 3) == 1
    ensures Loads(code, 4) == 1 && Loads(code, 5) == 1
  {
    LoadsSteps(code, 1);
    LoadsSteps(code, 2);
    LoadsSteps(code, 3);
    LoadsSteps(code, 4);
    LoadsSteps(code, 5);
  }

  lemma WrcReaderLoads(code: seq<Op>)
    requires WrcReaderAt(code)
    ensures Loads(code, 1) == 0 && Loads(code, 2) == 1 && Loads(code, 3) == 2 && Loads(code, 4) == 2
    ensures Loads(code, 5) == 2 && Loads(code, 6) == 2
  {
    LoadsSteps(code, 1);
    LoadsSteps(code, 2);
    LoadsSteps(code, 3);
    LoadsSteps(code, 4);
    LoadsSteps(code, 5);
    LoadsSteps(code, 6);
  }

  lemma WrcMainCode(main: seq<Op>)
    requires WrcMainAt(main)
    ensures MainCode(main, 3)
  {
  }

  lemma WrcWorkers(writer: seq<Op>, relay: seq<Op>, reader: seq<Op>)
    requires WrcWriterAt(writer) && WrcRelayAt(relay) && WrcReaderAt(reader)
    ensures WorkerCode(writer, 0) && WorkerCode(relay, 1) && WorkerCode(reader, 2)
    ensures Saves(relay, Res(1, 0)) && Saves(reader, Res(2, 0)) && Saves(reader, Res(2, 1))
  {
    WrcRelayLoads(relay);
    WrcReaderLoads(reader);
    assert relay[2].Save? && reader[3].Save? && reader[4].Save?;
  }

  lemma WrcShape(p: Program)
    requires IsWrc(p)
    ensures LitmusProgram(p)
  {
    WrcMainCode(p.main);
    WrcWorkers(p.workers[0], p.workers[1], p.workers[2]);
    forall k | 6 <= k < 9 ensures Saves(p.workers[p.main[k].loc.worker], p.main[k].loc) {
      assert k == 6 || k == 7 || k == 8;
    }
  }

  lemma WrcAlone(writer: seq<Op>, relay: seq<Op>, reader: seq<Op>)
    requires WrcWriterAt(writer) && WrcRelayAt(relay) && WrcReaderAt(reader)
    ensures LeavesAlone(writer, Y) && LeavesAlone(relay, X) && LeavesAlone(reader, X) && LeavesAlone(reader, Y)
  {
  }

  lemma RelayStores(code: seq<Op>, t: Thread, m: nat)
    requires WrcRelayAt(code) && Local(code, t) && ShownBy(t, m, Y)
    ensures t.iter == m && |t.regs| >= 1
  {
    var k :| 0 <= k < t.flushed && k < |t.log| && t.log[k].loc == Y;
    var at := IssuedFrom(code, t.pc, t.iter, t.regs, k);
    assert [t.log[k]][0] == WriteOf(code[at], t.iter, t.regs)[0];
    WrcRelayLoads(code);
  }

  lemma OnlyRelay(a: seq<Op>, b: seq<Op>, c: seq<Op>, t: Thread, u: Thread, v: Thread, m: nat)
    requires WrcWriterAt(a) && WrcRelayAt(b) && WrcReaderAt(c) && Local(a, t) && Local(b, u) && Local(c, v)
    ensures !ShownBy(t, m, Y) && !ShownBy(v, m, Y) && (ShownBy(u, m, Y) ==> u.iter == m && |u.regs| >= 1)
  {
    WrcAlone(a, b, c);
    NeverShown(a, t, m, Y);
    NeverShown(c, v, m, Y);
    if ShownBy(u, m, Y) {
      RelayStores(b, u, m);
    }
  }

  /** y is up only after the relay has loaded x. */
  lemma RelayLoaded(p: Program, s: State)
    requires IsWrc(p) && AllLocal(p, s) && Shown(s, Y)
    ensures s.workers[1].iter == s.main.iter && |s.workers[1].regs| >= 1
  {
    OnlyRelay(p.workers[0], p.workers[1], p.workers[2], s.workers[0], s.workers[1], s.workers[2], s.main.iter);
  }

  /** Worker `w` is in main's iteration, has loaded, and its first load saw 1. */
  predicate Saw(s: State, w: nat) {
    w < |s.workers| && s.workers[w].iter == s.main.iter > 0 && |s.workers[w].regs| >= 1 && s.workers[w].regs[0] == 1
  }

  ghost predicate WrcRead(s: State) {
    && |s.workers| == 3
    && (Saw(s, 1) ==> Shown(s, X))
    && (Saw(s, 2) ==> Shown(s, Y))
    && (Saw(s, 1) && Saw(s, 2) && |s.workers[2].regs| >= 2 ==> s.workers[2].regs[1] == 1)
  }

  /** What a load of x or y in the relay or the reader adds. */
  lemma WrcLoads(p: Program, s: State, w: nat)
    requires IsWrc(p) && LitmusProgram(p) && Sound(p, s) && 1 <= w < 3
    requires s.workers[w].iter == s.main.iter > 0 && s.workers[w].pc < |p.workers[w]|
    requires p.workers[w][s.workers[w].pc].Load?
    ensures var t := s.workers[w];
            var l := p.workers[w][t.pc].loc;
            && Seen(t.log, t.flushed, s.mem, l) == (if Shown(s, l) then 1 else 0)
            && |t.regs| == (if w == 2 && l == X then 1 else 0) && (w == 1 ==> l == X) && Shared(l)
  {
    var code, t := p.workers[w], s.workers[w];
    GateIsLocal(p, s, w);
    WrcAlone(p.workers[0], p.workers[1], p.workers[2]);
    WrcRelayLoads(p.workers[1]);
    WrcReaderLoads(p.workers[2]);
    NeverStores(code, t, code[t.pc].loc);
    LoadSees(p, s, w, code[t.pc].loc);
  }

  /** If worker `w` now has seen 1, it had before, or it has just loaded its first value. */
  lemma SawStep(p: Program, iters: nat, s: State, c: Choice, w: nat)
    requires IsWrc(p) && LitmusProgram(p) && Sound(p, s) && |s.workers| == 3
    requires 1 <= w < 3 && Saw(Next(p, iters, s, c), w)
    ensures Next(p, iters, s, c).main.iter == s.main.iter
    ensures || Saw(s, w)
            || (&& Next(p, iters, s, c).workers[w].regs == [1] && s.workers[w].regs == []
                && Shown(s, if w == 1 then X else Y))
  {
    SameIteration(p, iters, s, c, w);
    RegsStep(p, iters, s, c, w);
    var t, t' := s.workers[w], Next(p, iters, s, c).workers[w];
    if t'.regs != t.regs {
      WrcLoads(p, s, w);
    }
  }

  lemma WrcSees(p: Program, iters: nat, s: State, c: Choice, w: nat, l: Loc)
    requires IsWrc(p) && LitmusProgram(p) && Sound(p, s) && |s.workers| == 3
    requires 1 <= w < 3 && Saw(Next(p, iters, s, c), w)
    requires l == (if w == 1 then X else Y) && (Saw(s, w) ==> Shown(s, l))
    ensures Shown(Next(p, iters, s, c), l)
  {
    SawStep(p, iters, s, c, w);
    ShownStays(p, iters, s, c, l);
  }

  lemma WrcBoth(p: Program, iters: nat, s: State, c: Choice)
    requires IsWrc(p) && LitmusProgram(p) && Sound(p, s) && WrcRead(s)
    requires var s' := Next(p, iters, s, c); Saw(s', 1) && Saw(s', 2) && |s'.workers[2].regs| >= 2
    ensures Next(p, iters, s, c).workers[2].regs[1] == 1
  {
    SawStep(p, iters, s, c, 1);
    SawStep(p, iters, s, c, 2);
    GateAllLocal(p, s);
    RelayLoaded(p, s);
    RegsStep(p, iters, s, c, 2);
    if Next(p, iters, s, c).workers[2].regs != s.workers[2].regs {
      WrcLoads(p, s, 2);
    }
  }

  lemma WrcReadStep(p: Program, iters: nat, s: State, c: Choice)
    requires IsWrc(p) && LitmusProgram(p) && Sound(p, s) && WrcRead(s)
    ensures WrcRead(Next(p, iters, s, c))
  {
    var s' := Next(p, iters, s, c);
    RegsStep(p, iters, s, c, 1);
    if Saw(s', 1) {
      WrcSees(p, iters, s, c, 1, X);
    }
    if Saw(s', 2) {
      WrcSees(p, iters, s, c, 2, Y);
    }
    if Saw(s', 1) && Saw(s', 2) && |s'.workers[2].regs| >= 2 {
      WrcBoth(p, iters, s, c);
    }
  }

  lemma WrcMainRegs(p: Program, s: State)
    requires IsWrc(p) && LitmusProgram(p) && Sound(p, s) && s.main.iter > 0 && s.main.pc == 9
    ensures var r, t, u := s.main.regs, s.workers[1], s.workers[2];
            && |r| >= 3 && t.iter == s.main.iter && u.iter == s.main.iter
            && Idle(p.workers[1], t) && Idle(p.workers[2], u)
            && r[0] == Register(t.regs, 0) && r[1] == Register(u.regs, 0) && r[2] == Register(u.regs, 1)
  {
    MainHasResult(p, s, 6, 2);
    MainHasResult(p, s, 7, 3);
    MainHasResult(p, s, 8, 4);
  }

  lemma WrcNoWitness(p: Program, s: State)
    requires IsWrc(p) && CountsWrc(p) && LitmusProgram(p) && Sound(p, s)
    requires WrcRead(s) && s.main.iter > 0 && s.main.pc == 9
    ensures !p.counts(s.main.regs)
  {
    WrcMainRegs(p, s);
    GateIsLocal(p, s, 1);
    GateIsLocal(p, s, 2);
    WrcRelayLoads(p.workers[1]);
    WrcReaderLoads(p.workers[2]);
  }

  lemma {:induction false} WrcHolds(p: Program, iters: nat, schedule: seq<Choice>)
    requires IsWrc(p) && CountsWrc(p) && LitmusProgram(p)
    ensures Run(p, iters, schedule).witnesses == 0 && WrcRead(Run(p, iters, schedule))
  {
    if schedule != [] {
      var n := |schedule| - 1;
      var s := Run(p, iters, schedule[..n]);
      WrcHolds(p, iters, schedule[..n]);
      SoundHolds(p, iters, schedule[..n]);
      WrcReadStep(p, iters, s, schedule[n]);
      if s.main.iter > 0 && s.main.pc == 9 {
        WrcNoWitness(p, s);
      }
      TallyOnly(p, iters, s, schedule[n]);
    }
  }

  /** WRC: over every schedule and any number of iterations the witness counter stays 0. */
  lemma WrcVerdict(iters: nat, schedule: seq<Choice>)
    ensures Run(Wrc(), iters, schedule).witnesses == 0
  {
    WrcIsWrc();
    WrcShape(Wrc());
    WrcHolds(Wrc(), iters, schedule);
  }
}
