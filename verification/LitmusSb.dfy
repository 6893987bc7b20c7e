/** The store-buffering test: with the barrier its witness counter stays 0, without it a schedule
    counts a witness. */
module LitmusSb {
  import opened LitmusMachine
  import opened LitmusGate
  import opened LitmusTests
  import opened LitmusVerdicts

  predicate SbThreadAt(code: seq<Op>, w: nat, mine: Loc, other: Loc, fenced: bool) {
    && |code| == 6 && code[0] == Await(Go) && code[1] == Put(mine, 1)
    && code[2] == Barrier(fenced) && code[3] == Load(other)
    && code[4] == Save(Res(w, 0), 0) && code[5] == Stamp(Done(w))
  }

  /** The store-buffering program, statement by statement. */
  predicate IsSb(p: Program, fenced: bool) {
    && MainTwoAt(p.main, Res(0, 0), Res(1, 0)) && |p.workers| == 2
    && SbThreadAt(p.workers[0], 0, X, Y, fenced) && SbThreadAt(p.workers[1], 1, Y, X, fenced)
  }

  ghost predicate CountsSb(p: Program) {
    forall r: seq<int> :: p.counts(r) <==> r == [0, 0]
  }

  lemma SbIsSb(fenced: bool)
    ensures IsSb(Sb(fenced), fenced) && CountsSb(Sb(fenced))
  {
  }

  lemma SbLoads(code: seq<Op>, w: nat, mine: Loc, other: Loc, fenced: bool)
    requires SbThreadAt(code, w, mine, other, fenced)
    ensures Loads(code, 1) == 0 && Loads(code, 2) == 0 && Loads(code, 3) == 0 && Loads(code, 4) == 1
    ensures Loads(code, 5) == 1 && Loads(code, 6) == 1
  {
    LoadsSteps(code, 1);
    LoadsSteps(code, 2);
    LoadsSteps(code, 3);
    LoadsSteps(code, 4);
    LoadsSteps(code, 5);
    LoadsSteps(code, 6);
  }

  lemma SbWorker(code: seq<Op>, w: nat, mine: Loc, other: Loc, fenced: bool)
    requires SbThreadAt(code, w, mine, other, fenced) && Shared(mine) && Shared(other) && mine != other
    ensures WorkerCode(code, w) && Saves(code, Res(w, 0)) && LeavesAlone(code, other)
  {
    SbLoads(code, w, mine, other, fenced);
    assert code[4].Save?;
  }

  lemma SbShape(p: Program, fenced: bool)
    requires IsSb(p, fenced)
    ensures LitmusProgram(p)
  {
    SbWorker(p.workers[0], 0, X, Y, fenced);
    SbWorker(p.workers[1], 1, Y, X, fenced);
    TwoWorkers(p, Res(0, 0), Res(1, 0));
  }

  /** Worker `w` is in main's iteration and past its barrier. */
  predicate Past(s: State, w: nat) {
    w < |s.workers| && s.workers[w].iter == s.main.iter > 0 && s.workers[w].pc >= 3
  }

  predicate HasLoaded(s: State, w: nat) {
    w < |s.workers| && s.workers[w].iter == s.main.iter > 0 && |s.workers[w].regs| >= 1
  }

  ghost predicate SbRead(s: State) {
    && |s.workers| == 2
    && (Past(s, 0) ==> Shown(s, X)) && (Past(s, 1) ==> Shown(s, Y))
    && (HasLoaded(s, 0) && HasLoaded(s, 1) ==> s.workers[0].regs[0] == 1 || s.workers[1].regs[0] == 1)
  }

  lemma BarrierShows(code: seq<Op>, w: nat, mine: Loc, other: Loc, t: Thread, m: nat)
    requires SbThreadAt(code, w, mine, other, true) && Local(code, t)
    requires t.iter == m > 0 && t.pc == 2 && t.flushed == |t.log|
    ensures ShownBy(t, m, mine)
  {
    IssuedSteps(code, 1, t.iter, t.regs);
    IssuedSteps(code, 2, t.iter, t.regs);
    assert Issued(code, 0, t.iter, t.regs) == [];
    assert t.log[0].loc == mine;
  }

  lemma PastRuns(code: seq<Op>, w: nat, mine: Loc, other: Loc, t: Thread, main: Thread, open: bool,
                                    mem: Memory, iters: nat)
    requires SbThreadAt(code, w, mine, other, true) && WorkerCode(code, w) && WorkerAt(code, w, t, main, open, mem)
    requires At(mem, Go).val == (if open then main.iter else main.iter - 1) && CanRun(code, iters, t, mem)
    requires Ran(code, t, mem).pc >= 3
    ensures t.iter == main.iter > 0 && (t.pc >= 3 || ShownBy(t, main.iter, mine))
  {
    WorkerRuns(code, w, t, main, open, mem, iters);
    if t.pc == 2 {
      BarrierShows(code, w, mine, other, t, main.iter);
    }
  }

  /** What a step can do to worker `w`. */
  lemma WorkerStep(p: Program, iters: nat, s: State, c: Choice, w: nat)
    requires LitmusProgram(p) && Gate(p, s) && w < |p.workers|
    ensures var s', t, code := Next(p, iters, s, c), s.workers[w], p.workers[w];
            && |s'.workers| == |s.workers| && s.main.iter <= s'.main.iter && t.iter <= s.main.iter
            && (s'.workers[w] == t || s'.workers[w] == Drained(t)
                || (CanRun(code, iters, t, s.mem) && s'.workers[w] == Ran(code, t, s.mem) && s'.main == s.main))
  {
    assert WorkerAt(p.workers[w], w, s.workers[w], s.main, GoDone(s), s.mem);
  }

  /** A worker past its barrier after a step was past it before, or the barrier let it through. */
  lemma PastStep(p: Program, iters: nat, s: State, c: Choice, w: nat, mine: Loc, other: Loc)
    requires LitmusProgram(p) && Gate(p, s) && w < |p.workers| && SbThreadAt(p.workers[w], w, mine, other, true)
    requires Past(Next(p, iters, s, c), w)
    ensures Next(p, iters, s, c).main.iter == s.main.iter
    ensures Past(s, w) || Shown(s, mine)
  {
    WorkerStep(p, iters, s, c, w);
    assert WorkerAt(p.workers[w], w, s.workers[w], s.main, GoDone(s), s.mem);
    var t, t' := s.workers[w], Next(p, iters, s, c).workers[w];
    if t' != t && t' != Drained(t) {
      PastRuns(p.workers[w], w, mine, other, t, s.main, GoDone(s), s.mem, iters);
    }
  }

  lemma PastShows(p: Program, iters: nat, s: State, c: Choice, w: nat, mine: Loc, other: Loc)
    requires LitmusProgram(p) && Gate(p, s) && Values(s) && w < |p.workers|
    requires SbThreadAt(p.workers[w], w, mine, other, true)
    requires Past(Next(p, iters, s, c), w) && (Past(s, w) ==> Shown(s, mine))
    ensures Shown(Next(p, iters, s, c), mine)
  {
    PastStep(p, iters, s, c, w, mine, other);
    ShownStays(p, iters, s, c, mine);
  }

  lemma LoadedIsPast(p: Program, s: State, w: nat, mine: Loc, other: Loc)
    requires Gate(p, s) && w < |p.workers| && SbThreadAt(p.workers[w], w, mine, other, true) && HasLoaded(s, w)
    ensures Past(s, w)
  {
    GateIsLocal(p, s, w);
    SbLoads(p.workers[w], w, mine, other, true);
  }

  lemma SbLoadSees(p: Program, s: State, w: nat, mine: Loc, other: Loc)
    requires LitmusProgram(p) && Sound(p, s) && w < |p.workers| && SbThreadAt(p.workers[w], w, mine, other, true)
    requires Shared(mine) && Shared(other) && mine != other && s.workers[w].iter == s.main.iter > 0
    ensures var t := s.workers[w]; Seen(t.log, t.flushed, s.mem, other) == if Shown(s, other) then 1 else 0
  {
    GateIsLocal(p, s, w);
    SbWorker(p.workers[w], w, mine, other, true);
    NeverStores(p.workers[w], s.workers[w], other);
    LoadSees(p, s, w, other);
  }

  lemma FirstLoad(code: seq<Op>, w: nat, mine: Loc, other: Loc, t: Thread, t': Thread, s: State)
    requires SbThreadAt(code, w, mine, other, true) && RegsMove(code, t, t', s) && t.regs == [] && t'.regs != []
    ensures t'.regs == [Seen(t.log, t.flushed, s.mem, other)]
  {
  }

  /** Whoever loads second sees the other's store. */
  lemma SecondSees(p: Program, iters: nat, s: State, c: Choice, w: nat, mine: Loc, other: Loc)
    requires LitmusProgram(p) && Sound(p, s) && w < |p.workers| && SbThreadAt(p.workers[w], w, mine, other, true)
    requires Shared(mine) && Shared(other) && mine != other && Shown(s, other)
    requires HasLoaded(Next(p, iters, s, c), w) && !HasLoaded(s, w)
    ensures Next(p, iters, s, c).workers[w].regs[0] == 1
  {
    SameIteration(p, iters, s, c, w);
    RegsStep(p, iters, s, c, w);
    SbLoadSees(p, s, w, mine, other);
    FirstLoad(p.workers[w], w, mine, other, s.workers[w], Next(p, iters, s, c).workers[w], s);
  }

  /** Registers once loaded stay for the iteration. */
  lemma LoadedStays(p: Program, iters: nat, s: State, c: Choice, w: nat)
    requires IsSb(p, true) && LitmusProgram(p) && Gate(p, s) && w < 2 && HasLoaded(Next(p, iters, s, c), w)
    ensures Next(p, iters, s, c).main.iter == s.main.iter && s.workers[w].iter == s.main.iter
    ensures HasLoaded(s, w) ==> Next(p, iters, s, c).workers[w].regs[0] == s.workers[w].regs[0]
    ensures !HasLoaded(s, w) ==> c == Runs(w)
  {
    SameIteration(p, iters, s, c, w);
    RegsStep(p, iters, s, c, w);
  }

  lemma SbBothStep(p: Program, iters: nat, s: State, c: Choice)
    requires IsSb(p, true) && LitmusProgram(p) && Sound(p, s) && SbRead(s)
    requires HasLoaded(Next(p, iters, s, c), 0) && HasLoaded(Next(p, iters, s, c), 1)
    ensures var ts := Next(p, iters, s, c).workers; ts[0].regs[0] == 1 || ts[1].regs[0] == 1
  {
    LoadedStays(p, iters, s, c, 0);
    LoadedStays(p, iters, s, c, 1);
    if !HasLoaded(s, 0) {
      LoadedIsPast(p, s, 1, Y, X);
      SecondSees(p, iters, s, c, 0, X, Y);
    } else if !HasLoaded(s, 1) {
      LoadedIsPast(p, s, 0, X, Y);
      SecondSees(p, iters, s, c, 1, Y, X);
    }
  }

  lemma SbReadStep(p: Program, iters: nat, s: State, c: Choice)
    requires IsSb(p, true) && LitmusProgram(p) && Sound(p, s) && SbRead(s)
    ensures SbRead(Next(p, iters, s, c))
  {
    var s' := Next(p, iters, s, c);
    RegsStep(p, iters, s, c, 0);
    if Past(s', 0) {
      PastShows(p, iters, s, c, 0, X, Y);
    }
    if Past(s', 1) {
      PastShows(p, iters, s, c, 1, Y, X);
    }
    if HasLoaded(s', 0) && HasLoaded(s', 1) {
      SbBothStep(p, iters, s, c);
    }
  }

  lemma SbMainRegs(p: Program, fenced: bool, s: State)
    requires IsSb(p, fenced) && LitmusProgram(p) && Sound(p, s) && s.main.iter > 0 && s.main.pc == 7
    ensures var r, t, u := s.main.regs, s.workers[0], s.workers[1];
            && |r| >= 2 && t.iter == s.main.iter && u.iter == s.main.iter
            && Idle(p.workers[0], t) && Idle(p.workers[1], u)
            && r[0] == Register(t.regs, 0) && r[1] == Register(u.regs, 0)
  {
    MainHasResult(p, s, 5, 4);
    MainHasResult(p, s, 6, 4);
  }

  lemma SbNoWitness(p: Program, s: State)
    requires IsSb(p, true) && CountsSb(p) && LitmusProgram(p) && Sound(p, s)
    requires SbRead(s) && s.main.iter > 0 && s.main.pc == 7
    ensures !p.counts(s.main.regs)
  {
    SbMainRegs(p, true, s);
    GateIsLocal(p, s, 0);
    GateIsLocal(p, s, 1);
    SbLoads(p.workers[0], 0, X, Y, true);
    SbLoads(p.workers[1], 1, Y, X, true);
  }

  lemma {:induction false} SbHolds(p: Program, iters: nat, schedule: seq<Choice>)
    requires IsSb(p, true) && CountsSb(p) && LitmusProgram(p)
    ensures Run(p, iters, schedule).witnesses == 0 && SbRead(Run(p, iters, schedule))
  {
    if schedule != [] {
      var n := |schedule| - 1;
      var s := Run(p, iters, schedule[..n]);
      SbHolds(p, iters, schedule[..n]);
      SoundHolds(p, iters, schedule[..n]);
      SbReadStep(p, iters, s, schedule[n]);
      if s.main.iter > 0 && s.main.pc == 7 {
        SbNoWitness(p, s);
      }
      TallyOnly(p, iters, s, schedule[n]);
    }
  }

  /** SB in fenced mode: over every schedule the witness counter stays 0. */
  lemma SbFencedVerdict(iters: nat, schedule: seq<Choice>)
    ensures Run(Sb(true), iters, schedule).witnesses == 0
  {
    SbIsSb(true);
    SbShape(Sb(true), true);
    SbHolds(Sb(true), iters, schedule);
  }

  // ---- without the barrier ----

  ghost predicate Reached(p: Program, iters: nat, s: State) {
    exists schedule :: Run(p, iters, schedule) == s
  }

  lemma ReachedNext(p: Program, iters: nat, s: State, c: Choice, s': State)
    requires Reached(p, iters, s) && Next(p, iters, s, c) == s'
    ensures Reached(p, iters, s')
  {
    var schedule :| Run(p, iters, schedule) == s;
    var more := schedule + [c];
    assert more[..|more| - 1] == schedule;
    assert Run(p, iters, more) == s';
  }

  ghost predicate IsRelaxedSb(p: Program) {
    IsSb(p, false) && CountsSb(p)
  }

  /** Main in its first iteration. */
  function MainIn(pc: nat, regs: seq<int>, flushed: nat): Thread {
    Thread(1, pc, regs, MainLog(pc, 1), flushed)
  }

  /** Memory once the gate is open. */
  function OpenMem(): Memory {
    map[X := Write(X, 0, 1), Y := Write(Y, 0, 1), Go := Write(Go, 1, 1)]
  }

  function SbLog(w: nat, mine: Loc): seq<Write> {
    [Write(mine, 1, 1), Write(Res(w, 0), 0, 1), Write(Done(w), 1, 1)]
  }

  /** Worker `w` after `pc` statements, having loaded 0. */
  function WorkerIn(w: nat, mine: Loc, pc: nat, flushed: nat): Thread {
    var issued := if pc < 2 then 0 else if pc < 5 then 1 else if pc == 5 then 2 else 3;
    Thread(1, pc, if pc < 4 then [] else [0], SbLog(w, mine)[..issued], flushed)
  }

  lemma GateOpens(p: Program, iters: nat)
    requires IsRelaxedSb(p) && iters >= 1
    ensures Reached(p, iters, State(MainIn(3, [], 3), [Fresh(p.workers[0]), Fresh(p.workers[1])], OpenMem(), 0, 0))
  {
    var ws := [Fresh(p.workers[0]), Fresh(p.workers[1])];
    var s0 := State(Fresh(p.main), ws, map[], 0, 0);
    assert Start(p) == s0;
    assert Run(p, iters, []) == s0;
    var s1, s2, s3 := s0.(main := MainIn(1, [], 0)), s0.(main := MainIn(2, [], 0)), s0.(main := MainIn(3, [], 0));
    ReachedNext(p, iters, s0, MainRuns, s1);
    ReachedNext(p, iters, s1, MainRuns, s2);
    ReachedNext(p, iters, s2, MainRuns, s3);
    var s4 := s0.(main := MainIn(3, [], 1), mem := map[X := Write(X, 0, 1)]);
    var s5 := s0.(main := MainIn(3, [], 2), mem := map[X := Write(X, 0, 1), Y := Write(Y, 0, 1)]);
    var s6 := s0.(main := MainIn(3, [], 3), mem := OpenMem());
    ReachedNext(p, iters, s3, MainDrains, s4);
    ReachedNext(p, iters, s4, MainDrains, s5);
    ReachedNext(p, iters, s5, MainDrains, s6);
  }

  /** Both stores are buffered when the loads happen. */
  lemma WorkerGoes(code: seq<Op>, w: nat, mine: Loc, other: Loc, iters: nat, mem: Memory)
    requires SbThreadAt(code, w, mine, other, false) && iters >= 1
    requires Shared(mine) && Shared(other) && mine != other && mem == OpenMem()
    ensures CanRun(code, iters, Fresh(code), mem) && Ran(code, Fresh(code), mem) == WorkerIn(w, mine, 1, 0)
    ensures forall pc :: 1 <= pc < 4 ==>
      && CanRun(code, iters, WorkerIn(w, mine, pc, 0), mem)
      && Ran(code, WorkerIn(w, mine, pc, 0), mem) == WorkerIn(w, mine, pc + 1, 0)
  {
    assert Fresh(code).log[0..] == [];
    forall pc | 1 <= pc < 4
      ensures CanRun(code, iters, WorkerIn(w, mine, pc, 0), mem)
      ensures Ran(code, WorkerIn(w, mine, pc, 0), mem) == WorkerIn(w, mine, pc + 1, 0)
    {
      var t := WorkerIn(w, mine, pc, 0);
      if pc == 3 {
        SeenInMemory(t.log, 0, mem, other);
      }
    }
  }

  /** Worker 0 or 1 takes a step that is known to be possible. */
  lemma WorkerMoves(p: Program, iters: nat, s: State, w: nat, t: Thread)
    requires Reached(p, iters, s) && w < |s.workers| && w < |p.workers|
    requires CanRun(p.workers[w], iters, s.workers[w], s.mem) && t == Ran(p.workers[w], s.workers[w], s.mem)
    ensures Reached(p, iters, s.(workers := s.workers[w := t]))
  {
    ReachedNext(p, iters, s, Runs(w), s.(workers := s.workers[w := t]));
  }

  /** From the open gate a worker gets past its load, its store still buffered. */
  lemma WorkerLoads(p: Program, iters: nat, s: State, w: nat, mine: Loc, other: Loc)
    requires w < |p.workers| && w < |s.workers| && SbThreadAt(p.workers[w], w, mine, other, false) && iters >= 1
    requires Shared(mine) && Shared(other) && mine != other && s.mem == OpenMem()
    requires s.workers[w] == Fresh(p.workers[w]) && Reached(p, iters, s)
    ensures Reached(p, iters, s.(workers := s.workers[w := WorkerIn(w, mine, 4, 0)]))
  {
    WorkerGoes(p.workers[w], w, mine, other, iters, s.mem);
    var ws := s.workers;
    var s1 := s.(workers := ws[w := WorkerIn(w, mine, 1, 0)]);
    WorkerMoves(p, iters, s, w, WorkerIn(w, mine, 1, 0));
    WorkerMoves(p, iters, s1, w, WorkerIn(w, mine, 2, 0));
    var s2 := s.(workers := ws[w := WorkerIn(w, mine, 2, 0)]);
    assert s1.workers[w := WorkerIn(w, mine, 2, 0)] == s2.workers;
    WorkerMoves(p, iters, s2, w, WorkerIn(w, mine, 3, 0));
    var s3 := s.(workers := ws[w := WorkerIn(w, mine, 3, 0)]);
    assert s2.workers[w := WorkerIn(w, mine, 3, 0)] == s3.workers;
    WorkerMoves(p, iters, s3, w, WorkerIn(w, mine, 4, 0));
    assert s3.workers[w := WorkerIn(w, mine, 4, 0)] == ws[w := WorkerIn(w, mine, 4, 0)];
  }

  lemma WorkerSaves(code: seq<Op>, w: nat, mine: Loc, other: Loc, iters: nat, mem: Memory)
    requires SbThreadAt(code, w, mine, other, false)
    ensures CanRun(code, iters, WorkerIn(w, mine, 4, 0), mem)
    ensures Ran(code, WorkerIn(w, mine, 4, 0), mem) == WorkerIn(w, mine, 5, 0)
    ensures CanRun(code, iters, WorkerIn(w, mine, 5, 0), mem)
    ensures Ran(code, WorkerIn(w, mine, 5, 0), mem) == WorkerIn(w, mine, 6, 0)
  {
  }

  /** Memory after all of worker `w`'s stores. */
  function AllLanded(w: nat, mine: Loc, mem: Memory): Memory {
    mem[mine := Write(mine, 1, 1)][Res(w, 0) := Write(Res(w, 0), 0, 1)][Done(w) := Write(Done(w), 1, 1)]
  }

  lemma WorkerLands(p: Program, iters: nat, s: State, w: nat, mine: Loc)
    requires w < |s.workers| && s.workers[w] == WorkerIn(w, mine, 6, 0) && Reached(p, iters, s)
    ensures Reached(p, iters, s.(workers := s.workers[w := WorkerIn(w, mine, 6, 3)], mem := AllLanded(w, mine, s.mem)))
  {
    var ws := s.workers;
    var m1 := s.mem[mine := Write(mine, 1, 1)];
    var m2 := m1[Res(w, 0) := Write(Res(w, 0), 0, 1)];
    var s1 := s.(workers := ws[w := WorkerIn(w, mine, 6, 1)], mem := m1);
    var s2 := s.(workers := ws[w := WorkerIn(w, mine, 6, 2)], mem := m2);
    var s3 := s.(workers := ws[w := WorkerIn(w, mine, 6, 3)], mem := AllLanded(w, mine, s.mem));
    ReachedNext(p, iters, s, Drains(w), s1);
    assert s1.workers[w := WorkerIn(w, mine, 6, 2)] == s2.workers;
    ReachedNext(p, iters, s1, Drains(w), s2);
    assert s2.workers[w := WorkerIn(w, mine, 6, 3)] == s3.workers;
    ReachedNext(p, iters, s2, Drains(w), s3);
  }

  lemma WorkerEnds(p: Program, iters: nat, s: State, w: nat, mine: Loc, other: Loc)
    requires w < |p.workers| && w < |s.workers| && SbThreadAt(p.workers[w], w, mine, other, false)
    requires s.workers[w] == WorkerIn(w, mine, 4, 0) && Reached(p, iters, s)
    ensures Reached(p, iters, s.(workers := s.workers[w := WorkerIn(w, mine, 6, 3)], mem := AllLanded(w, mine, s.mem)))
  {
    WorkerSaves(p.workers[w], w, mine, other, iters, s.mem);
    var s1 := s.(workers := s.workers[w := WorkerIn(w, mine, 5, 0)]);
    var s2 := s.(workers := s.workers[w := WorkerIn(w, mine, 6, 0)]);
    WorkerMoves(p, iters, s, w, WorkerIn(w, mine, 5, 0));
    WorkerMoves(p, iters, s1, w, WorkerIn(w, mine, 6, 0));
    assert s1.workers[w := WorkerIn(w, mine, 6, 0)] == s2.workers;
    WorkerLands(p, iters, s2, w, mine);
    assert s2.workers[w := WorkerIn(w, mine, 6, 3)] == s.workers[w := WorkerIn(w, mine, 6, 3)];
  }

  lemma MainMoves(p: Program, iters: nat, s: State, t: Thread)
    requires Reached(p, iters, s) && s.main.pc < 7 && |p.main| == 8 && !p.main[s.main.pc].Tally?
    requires !Blocked(p.main[s.main.pc], s.main, s.mem) && t == Executed(p.main[s.main.pc], s.main, s.mem)
    ensures Reached(p, iters, s.(main := t))
  {
    ReachedNext(p, iters, s, MainRuns, s.(main := t));
  }

  lemma {:induction false} MainCounts(p: Program, iters: nat, s: State)
    requires IsRelaxedSb(p) && Reached(p, iters, s) && s.main == MainIn(3, [], 3) && s.witnesses == 0
    requires At(s.mem, Done(0)).val == 1 && At(s.mem, Done(1)).val == 1
    requires At(s.mem, Res(0, 0)).val == 0 && At(s.mem, Res(1, 0)).val == 0
    ensures exists schedule :: Run(p, iters, schedule).witnesses == 1
  {
    MainMoves(p, iters, s, MainIn(4, [], 3));
    MainMoves(p, iters, s.(main := MainIn(4, [], 3)), MainIn(5, [], 3));
    MainMoves(p, iters, s.(main := MainIn(5, [], 3)), MainIn(6, [0], 3));
    MainMoves(p, iters, s.(main := MainIn(6, [0], 3)), MainIn(7, [0, 0], 3));
    var s4 := s.(main := MainIn(7, [0, 0], 3));
    var s5 := Next(p, iters, s4, MainRuns);
    ReachedNext(p, iters, s4, MainRuns, s5);
  }

  /** SB without the barrier is observable: some schedule of a single iteration counts a witness. */
  lemma SbRelaxedVerdict(iters: nat)
    requires iters >= 1
    ensures exists schedule :: Run(Sb(false), iters, schedule).witnesses == 1
  {
    var p := Sb(false);
    SbIsSb(false);
    SbWitness(p, iters);
  }

  lemma SbWitness(p: Program, iters: nat)
    requires IsRelaxedSb(p) && iters >= 1
    ensures exists schedule :: Run(p, iters, schedule).witnesses == 1
  {
    GateOpens(p, iters);
    var main, a, b := MainIn(3, [], 3), WorkerIn(0, X, 4, 0), WorkerIn(1, Y, 4, 0);
    var s0 := State(main, [Fresh(p.workers[0]), Fresh(p.workers[1])], OpenMem(), 0, 0);
    WorkerLoads(p, iters, s0, 0, X, Y);
    var s1 := s0.(workers := s0.workers[0 := a]);
    WorkerLoads(p, iters, s1, 1, Y, X);
    var s2 := s1.(workers := s1.workers[1 := b]);
    WorkerEnds(p, iters, s2, 0, X, Y);
    var s3 := s2.(workers := s2.workers[0 := WorkerIn(0, X, 6, 3)], mem := AllLanded(0, X, OpenMem()));
    WorkerEnds(p, iters, s3, 1, Y, X);
    var s4 := s3.(workers := s3.workers[1 := WorkerIn(1, Y, 6, 3)], mem := AllLanded(1, Y, s3.mem));
    MainCounts(p, iters, s4);
  }

  /** All three tests, in both modes, keep to the shape the protocol theorems are about. */
  lemma TestsAreLitmusPrograms(fenced: bool)
    ensures LitmusProgram(Mp(fenced)) && LitmusProgram(Wrc()) && LitmusProgram(Sb(fenced))
  {
    MpIsMp(fenced);
    MpShape(Mp(fenced));
    WrcIsWrc();
    WrcShape(Wrc());
    SbIsSb(fenced);
    SbShape(Sb(fenced), fenced);
  }
}
