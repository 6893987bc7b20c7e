/** What the tool reports: over every schedule `total` is the number of iterations main has finished
    and `witnesses` the number of those whose loaded results are the outcome the test is after. No
    schedule can get stuck or go on for ever: it ends with main through all its iterations. */
module LitmusEnds {
  import opened LitmusMachine
  import opened LitmusGate
  import opened LitmusTests
  import opened LitmusVerdicts
  import opened LitmusSb

  // ---- the two counters ----

  /** Iterations main has been through. */
  function RoundsDone(p: Program, s: State): int {
    if s.main.iter == 0 || s.main.pc == |p.main| then s.main.iter else s.main.iter - 1
  }

  /** Main has just come to the end of its loop body. */
  predicate RoundOver(p: Program, s: State, s': State) {
    s.main.pc != |p.main| && s'.main.pc == |p.main|
  }

  /** What main has loaded in each iteration it finished. */
  function Rounds(p: Program, iters: nat, schedule: seq<Choice>): seq<seq<int>> {
    if schedule == [] then []
    else
      var before := schedule[..|schedule| - 1];
      var s := Run(p, iters, before);
      Rounds(p, iters, before) + if RoundOver(p, s, Run(p, iters, schedule)) then [s.main.regs] else []
  }

  /** Main takes its last statement: the iteration is counted, and a witness exactly if the results
      are those the test counts. */
  lemma TallyCounts(p: Program, iters: nat, s: State)
    requires LitmusProgram(p) && s.main.iter > 0 && s.main.pc == |p.main| - 1
    ensures var s' := Next(p, iters, s, MainRuns);
            && s'.total == s.total + 1 && s'.witnesses == s.witnesses + (if p.counts(s.main.regs) then 1 else 0)
            && s'.main.pc == |p.main| && s'.main.iter == s.main.iter
  {
  }

  /** No other step counts anything. */
  lemma OthersCountNothing(p: Program, iters: nat, s: State, c: Choice)
    requires LitmusProgram(p) && Gate(p, s)
    requires c != MainRuns || s.main.iter == 0 || s.main.pc != |p.main| - 1
    ensures Next(p, iters, s, c).total == s.total && Next(p, iters, s, c).witnesses == s.witnesses
    ensures !RoundOver(p, s, Next(p, iters, s, c)) && RoundsDone(p, Next(p, iters, s, c)) == RoundsDone(p, s)
  {
    if c == MainRuns && CanRun(p.main, iters, s.main, s.mem) {
      var k := Begun(p.main, s.main).pc;
      if 3 <= k < 3 + |p.workers| {
        assert p.main[3 + (k - 3)] == Await(Done(k - 3));
      }
    }
  }

  ghost predicate Counted(p: Program, iters: nat, rounds: seq<seq<int>>, s: State, outcome: seq<int>) {
    && s.main.iter <= iters && s.total == RoundsDone(p, s) == |rounds|
    && s.witnesses == multiset(rounds)[outcome]
  }

  lemma CountedStep(p: Program, iters: nat, rounds: seq<seq<int>>, s: State, c: Choice, outcome: seq<int>)
    requires LitmusProgram(p) && Gate(p, s) && Counted(p, iters, rounds, s, outcome)
    requires forall r :: p.counts(r) <==> r == outcome
    ensures var s' := Next(p, iters, s, c);
            Counted(p, iters, rounds + if RoundOver(p, s, s') then [s.main.regs] else [], s', outcome)
  {
    if c == MainRuns && s.main.iter > 0 && s.main.pc == |p.main| - 1 {
      TallyCounts(p, iters, s);
    } else {
      OthersCountNothing(p, iters, s, c);
      assert rounds + [] == rounds;
    }
  }

  /** Whatever the test and the schedule: `total` is the number of iterations main has finished, and
      `witnesses` the number of those with exactly the outcome counted. */
  lemma {:induction false} CountersHold(p: Program, iters: nat, schedule: seq<Choice>, outcome: seq<int>)
    requires LitmusProgram(p) && forall r :: p.counts(r) <==> r == outcome
    ensures Counted(p, iters, Rounds(p, iters, schedule), Run(p, iters, schedule), outcome)
  {
    if schedule != [] {
      var n := |schedule| - 1;
      CountersHold(p, iters, schedule[..n], outcome);
      GateHolds(p, iters, schedule[..n]);
      CountedStep(p, iters, Rounds(p, iters, schedule[..n]), Run(p, iters, schedule[..n]), schedule[n], outcome);
    }
  }

  // ---- each test counts its own outcome ----

  /** What MP has counted after any schedule: the iterations in which the results loaded were 1, 0. */
  lemma MpCounters(fenced: bool, iters: nat, schedule: seq<Choice>)
    ensures Counted(Mp(fenced), iters, Rounds(Mp(fenced), iters, schedule), Run(Mp(fenced), iters, schedule), [1, 0])
  {
    MpIsMp(fenced);
    MpShape(Mp(fenced));
    CountersHold(Mp(fenced), iters, schedule, [1, 0]);
  }

  lemma WrcCounters(iters: nat, schedule: seq<Choice>)
    ensures Counted(Wrc(), iters, Rounds(Wrc(), iters, schedule), Run(Wrc(), iters, schedule), [1, 1, 0])
  {
    WrcIsWrc();
    WrcShape(Wrc());
    CountersHold(Wrc(), iters, schedule, [1, 1, 0]);
  }

  lemma SbCounters(fenced: bool, iters: nat, schedule: seq<Choice>)
    ensures Counted(Sb(fenced), iters, Rounds(Sb(fenced), iters, schedule), Run(Sb(fenced), iters, schedule), [0, 0])
  {
    SbIsSb(fenced);
    SbShape(Sb(fenced), fenced);
    CountersHold(Sb(fenced), iters, schedule, [0, 0]);
  }

  predicate Tallying(p: Program, s: State) {
    s.main.iter > 0 && s.main.pc == |p.main| - 1
  }

  /** What MP's main tallies is what the reader loaded in this very iteration, y before x. */
  lemma MpTalliesReads(p: Program, s: State)
    requires IsMp(p) && LitmusProgram(p) && Sound(p, s) && Tallying(p, s)
    ensures s.main.regs == s.workers[1].regs && |s.main.regs| == 2 && s.workers[1].iter == s.main.iter
  {
    MpMainRegs(p, s);
    MpReaderLoads(p.workers[1]);
    MainLoads(p.main, 2, 7);
    GateIsLocal(p, s, 1);
  }

  lemma WrcTalliesReads(p: Program, s: State)
    requires IsWrc(p) && LitmusProgram(p) && Sound(p, s) && Tallying(p, s)
    ensures s.main.regs == s.workers[1].regs + s.workers[2].regs && |s.workers[1].regs| == 1
    ensures |s.workers[2].regs| == 2 && s.workers[1].iter == s.workers[2].iter == s.main.iter
  {
    WrcMainRegs(p, s);
    WrcRelayLoads(p.workers[1]);
    WrcReaderLoads(p.workers[2]);
    MainLoads(p.main, 3, 9);
    GateIsLocal(p, s, 1);
    GateIsLocal(p, s, 2);
  }

  lemma SbTalliesReads(p: Program, fenced: bool, s: State)
    requires IsSb(p, fenced) && LitmusProgram(p) && Sound(p, s) && Tallying(p, s)
    ensures s.main.regs == s.workers[0].regs + s.workers[1].regs && |s.workers[0].regs| == |s.workers[1].regs| == 1
    ensures s.workers[0].iter == s.workers[1].iter == s.main.iter
  {
    SbMainRegs(p, fenced, s);
    SbLoads(p.workers[0], 0, X, Y, fenced);
    SbLoads(p.workers[1], 1, Y, X, fenced);
    MainLoads(p.main, 2, 7);
    GateIsLocal(p, s, 0);
    GateIsLocal(p, s, 1);
  }

  // ---- every run ends ----

  /** The run is over: main has done its last iteration. */
  predicate Over(p: Program, iters: nat, s: State) {
    s.main.iter == iters && s.main.pc == |p.main|
  }

  /** No choice changes anything. */
  ghost predicate Stuck(p: Program, iters: nat, s: State) {
    forall c :: Next(p, iters, s, c) == s
  }

  lemma MainBlocked(code: seq<Op>, n: nat, main: Thread, mem: Memory, iters: nat)
    requires MainCode(code, n) && Local(code, main) && main.iter <= iters && !CanRun(code, iters, main, mem)
    requires main.flushed == |main.log| && (main.iter > 0 ==> main.log == MainLog(main.pc, main.iter))
    ensures (main.pc == |code| && main.iter == iters)
            || (main.iter > 0 && 3 <= main.pc < 3 + n && At(mem, Done(main.pc - 3)).val < main.iter)
  {
    if main.pc < |code| && 3 <= main.pc < 3 + n {
      assert code[3 + (main.pc - 3)] == Await(Done(main.pc - 3));
      SeenInMemory(main.log, main.flushed, mem, Done(main.pc - 3));
    }
  }

  /** A worker that has not finished main's iteration can go on once the gate is open. */
  lemma WorkerCanRun(code: seq<Op>, w: nat, t: Thread, main: Thread, mem: Memory, iters: nat)
    requires WorkerCode(code, w) && WorkerAt(code, w, t, main, true, mem) && 0 < main.iter <= iters
    requires At(mem, Go).val == main.iter && At(mem, Done(w)).val < main.iter && t.flushed == |t.log|
    ensures CanRun(code, iters, t, mem)
  {
    var b := Begun(code, t);
    if t.pc == |code| {
      SeenInMemory(b.log, b.flushed, mem, Go);
    } else {
      assert b == t && (t.pc == |code| - 1 || BodyOp(code[t.pc], w));
    }
  }

  lemma StuckIsOver(p: Program, iters: nat, s: State)
    requires LitmusProgram(p) && Gate(p, s) && s.main.iter <= iters && Stuck(p, iters, s)
    ensures Over(p, iters, s)
  {
    assert Next(p, iters, s, MainDrains) == s && Next(p, iters, s, MainRuns) == s;
    MainLocalRuns(p, s);
    MainBlocked(p.main, |p.workers|, s.main, s.mem, iters);
    if !Over(p, iters, s) {
      var w := s.main.pc - 3;
      var t := s.workers[w];
      assert WorkerAt(p.workers[w], w, t, s.main, GoDone(s), s.mem);
      if t.flushed < |t.log| {
        DrainsMove(p, iters, s, w);
      } else {
        WorkerCanRun(p.workers[w], w, t, s.main, s.mem, iters);
        RunsMove(p, iters, s, w);
      }
    }
  }

  lemma DrainsMove(p: Program, iters: nat, s: State, w: nat)
    requires w < |s.workers| && s.workers[w].flushed < |s.workers[w].log|
    ensures Next(p, iters, s, Drains(w)) != s
  {
    assert Next(p, iters, s, Drains(w)).workers[w] == Drained(s.workers[w]);
  }

  lemma RunsMove(p: Program, iters: nat, s: State, w: nat)
    requires w < |s.workers| && w < |p.workers| && s.workers[w].pc <= |p.workers[w]|
    requires CanRun(p.workers[w], iters, s.workers[w], s.mem)
    ensures Next(p, iters, s, Runs(w)) != s
  {
    var t := s.workers[w];
    var r := Ran(p.workers[w], t, s.mem);
    assert r.pc != t.pc || r.iter != t.iter;
    assert Next(p, iters, s, Runs(w)).workers[w] == r;
  }

  /** When main is done, every worker is through its last iteration too, nothing is buffered, and
      nothing can happen any more. */
  lemma OverIsStuck(p: Program, iters: nat, s: State)
    requires LitmusProgram(p) && Gate(p, s) && Over(p, iters, s)
    ensures Stuck(p, iters, s)
    ensures forall w :: 0 <= w < |s.workers| ==> s.workers[w].iter == iters && Idle(p.workers[w], s.workers[w])
  {
    MainRested(p, s);
  }

  /** A run can stop only where it is over: there is no deadlock. */
  lemma StuckExactly(p: Program, iters: nat, schedule: seq<Choice>)
    requires LitmusProgram(p)
    ensures Stuck(p, iters, Run(p, iters, schedule)) <==> Over(p, iters, Run(p, iters, schedule))
  {
    var s := Run(p, iters, schedule);
    GateHolds(p, iters, schedule);
    RunsAreBounded(p, iters, schedule);
    if Stuck(p, iters, s) {
      StuckIsOver(p, iters, s);
    }
    if Over(p, iters, s) {
      OverIsStuck(p, iters, s);
    }
  }

  // every step that does something leaves less to do

  /** An upper bound on the steps a thread still has: each statement counts for itself and its store. */
  function Left(code: seq<Op>, iters: nat, t: Thread): int {
    2 * |code| * (iters - t.iter) + 2 * (|code| - t.pc) + (|t.log| - t.flushed)
  }

  function LeftOfAll(codes: seq<seq<Op>>, iters: nat, ts: seq<Thread>): int
    requires |codes| == |ts|
  {
    if codes == [] then 0 else Left(codes[0], iters, ts[0]) + LeftOfAll(codes[1..], iters, ts[1..])
  }

  function LeftToDo(p: Program, iters: nat, s: State): int
    requires |s.workers| == |p.workers|
  {
    Left(p.main, iters, s.main) + LeftOfAll(p.workers, iters, s.workers)
  }

  predicate Within(code: seq<Op>, iters: nat, t: Thread) {
    t.pc <= |code| && t.iter <= iters && t.flushed <= |t.log|
  }

  ghost predicate AllWithin(p: Program, iters: nat, s: State) {
    && |s.workers| == |p.workers| && Within(p.main, iters, s.main)
    && forall w :: 0 <= w < |p.workers| ==> Within(p.workers[w], iters, s.workers[w])
  }

  lemma LeftIsNat(code: seq<Op>, iters: nat, t: Thread)
    requires Within(code, iters, t)
    ensures Left(code, iters, t) >= 0
  {
  }

  lemma {:induction false} AllLeftIsNat(codes: seq<seq<Op>>, iters: nat, ts: seq<Thread>)
    requires |codes| == |ts| && forall w :: 0 <= w < |codes| ==> Within(codes[w], iters, ts[w])
    ensures LeftOfAll(codes, iters, ts) >= 0
  {
    if codes != [] {
      LeftIsNat(codes[0], iters, ts[0]);
      AllLeftIsNat(codes[1..], iters, ts[1..]);
    }
  }

  lemma RunningLeavesLess(code: seq<Op>, iters: nat, t: Thread, mem: Memory)
    requires Within(code, iters, t) && CanRun(code, iters, t, mem)
    ensures Within(code, iters, Ran(code, t, mem)) && Left(code, iters, Ran(code, t, mem)) < Left(code, iters, t)
  {
    var b := Begun(code, t);
    assert |WriteOf(code[b.pc], b.iter, b.regs)| <= 1;
    if t.pc == |code| {
      assert 2 * |code| * (iters - t.iter) == 2 * |code| * (iters - b.iter) + 2 * |code|;
    }
  }

  lemma {:induction false} OneLeavesLess(codes: seq<seq<Op>>, iters: nat, ts: seq<Thread>, w: nat, t: Thread)
    requires |codes| == |ts| && w < |ts| && Left(codes[w], iters, t) < Left(codes[w], iters, ts[w])
    ensures LeftOfAll(codes, iters, ts[w := t]) < LeftOfAll(codes, iters, ts)
  {
    if w > 0 {
      OneLeavesLess(codes[1..], iters, ts[1..], w - 1, t);
      assert ts[w := t][1..] == ts[1..][w - 1 := t];
    } else {
      assert ts[w := t][1..] == ts[1..];
    }
  }

  /** A step changes nothing or leaves less to do. */
  lemma StepLeavesLess(p: Program, iters: nat, s: State, c: Choice)
    requires AllWithin(p, iters, s)
    ensures var s' := Next(p, iters, s, c);
            AllWithin(p, iters, s') && (s' == s || LeftToDo(p, iters, s') < LeftToDo(p, iters, s))
  {
    match c
    case MainRuns =>
      if CanRun(p.main, iters, s.main, s.mem) {
        RunningLeavesLess(p.main, iters, s.main, s.mem);
      }
    case MainDrains =>
    case Runs(w) =>
      if w < |s.workers| && CanRun(p.workers[w], iters, s.workers[w], s.mem) {
        RunningLeavesLess(p.workers[w], iters, s.workers[w], s.mem);
        OneLeavesLess(p.workers, iters, s.workers, w, Ran(p.workers[w], s.workers[w], s.mem));
      }
    case Drains(w) =>
      if w < |s.workers| && s.workers[w].flushed < |s.workers[w].log| {
        OneLeavesLess(p.workers, iters, s.workers, w, Drained(s.workers[w]));
      }
  }

  /** Steps of a schedule that changed something. */
  function Effective(p: Program, iters: nat, schedule: seq<Choice>): nat {
    if schedule == [] then 0
    else
      var before := schedule[..|schedule| - 1];
      Effective(p, iters, before) + if Run(p, iters, schedule) != Run(p, iters, before) then 1 else 0
  }

  /** No schedule goes on for ever: what it has done and what is left never exceed what there was. */
  lemma {:induction false} RunsAreBounded(p: Program, iters: nat, schedule: seq<Choice>)
    ensures AllWithin(p, iters, Run(p, iters, schedule)) && LeftToDo(p, iters, Run(p, iters, schedule)) >= 0
    ensures Effective(p, iters, schedule) + LeftToDo(p, iters, Run(p, iters, schedule)) <= LeftToDo(p, iters, Start(p))
  {
    var s := Run(p, iters, schedule);
    if schedule != [] {
      var n := |schedule| - 1;
      RunsAreBounded(p, iters, schedule[..n]);
      StepLeavesLess(p, iters, Run(p, iters, schedule[..n]), schedule[n]);
    }
    LeftIsNat(p.main, iters, s.main);
    AllLeftIsNat(p.workers, iters, s.workers);
  }

  lemma {:induction false} EndsWithin(p: Program, iters: nat, schedule: seq<Choice>, left: nat)
    returns (all: seq<Choice>)
    requires LitmusProgram(p) && AllWithin(p, iters, Run(p, iters, schedule))
    requires LeftToDo(p, iters, Run(p, iters, schedule)) <= left
    ensures schedule <= all && Over(p, iters, Run(p, iters, all))
    decreases left
  {
    var s := Run(p, iters, schedule);
    StuckExactly(p, iters, schedule);
    if Over(p, iters, s) {
      all := schedule;
    } else {
      var c :| Next(p, iters, s, c) != s;
      var more := schedule + [c];
      assert more[..|more| - 1] == schedule;
      StepLeavesLess(p, iters, s, c);
      RunsAreBounded(p, iters, more);
      all := EndsWithin(p, iters, more, left - 1);
    }
  }

  /** From wherever a schedule has got to the run can be finished, and then the tool reports exactly
      the iterations it was asked for. */
  lemma EveryRunEnds(p: Program, iters: nat, schedule: seq<Choice>, outcome: seq<int>) returns (all: seq<Choice>)
    requires LitmusProgram(p) && forall r :: p.counts(r) <==> r == outcome
    ensures schedule <= all && Over(p, iters, Run(p, iters, all)) && Run(p, iters, all).total == iters
  {
    RunsAreBounded(p, iters, schedule);
    all := EndsWithin(p, iters, schedule, LeftToDo(p, iters, Run(p, iters, schedule)));
    CountersHold(p, iters, all, outcome);
  }

  /** `total` is the iterations asked for exactly when the run is over. */
  lemma TotalExactly(p: Program, iters: nat, schedule: seq<Choice>, outcome: seq<int>)
    requires LitmusProgram(p) && forall r :: p.counts(r) <==> r == outcome
    ensures Run(p, iters, schedule).total == iters <==> Over(p, iters, Run(p, iters, schedule))
  {
    CountersHold(p, iters, schedule, outcome);
    GateHolds(p, iters, schedule);
  }
}
