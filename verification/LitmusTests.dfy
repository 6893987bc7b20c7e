/** The MP, WRC and SB tests on the store-buffer machine: which witness counters must stay 0. */
module LitmusTests {
  import opened LitmusMachine
  import opened LitmusGate

  // ---- what x and y hold ----

  /** The worker's store to `l` in iteration `m` has reached memory. */
  ghost predicate ShownBy(t: Thread, m: nat, l: Loc) {
    t.iter == m && exists k :: 0 <= k < t.flushed && k < |t.log| && t.log[k].loc == l
  }

  ghost predicate Shown(s: State, l: Loc) {
    exists w :: 0 <= w < |s.workers| && ShownBy(s.workers[w], s.main.iter, l)
  }

  /** Once the gate is open, x and y are 1 exactly when some worker's store has landed; before that
      main's resets take effect. */
  ghost predicate Values(s: State) {
    s.main.iter > 0 ==>
      if GoDone(s) then forall l :: Shared(l) ==> At(s.mem, l).val == if Shown(s, l) then 1 else 0
      else (s.main.flushed >= 1 ==> At(s.mem, X).val == 0) && (s.main.flushed >= 2 ==> At(s.mem, Y).val == 0)
  }

  lemma ValuesMainRuns(p: Program, iters: nat, s: State)
    requires LitmusProgram(p) && Gate(p, s) && Values(s)
    ensures Values(Next(p, iters, s, MainRuns))
  {
    var s' := Next(p, iters, s, MainRuns);
    if CanRun(p.main, iters, s.main, s.mem) {
      if s.main.pc == |p.main| {
        MainRested(p, s);
      } else {
        assert s'.main.iter == s.main.iter && s'.main.flushed == s.main.flushed;
        assert forall l :: Shown(s', l) == Shown(s, l);
      }
    }
  }

  lemma ValuesMainDrains(p: Program, iters: nat, s: State)
    requires LitmusProgram(p) && Gate(p, s) && Values(s)
    ensures Values(Next(p, iters, s, MainDrains))
  {
    var s' := Next(p, iters, s, MainDrains);
    if s.main.flushed < |s.main.log| {
      var m := s.main.iter;
      assert s.main.log[s.main.flushed] == [Write(X, 0, m), Write(Y, 0, m), Write(Go, m, m)][s.main.flushed];
      forall l ensures !Shown(s', l) {
        forall w | 0 <= w < |s.workers| ensures !ShownBy(s'.workers[w], m, l) {
          assert WorkerAt(p.workers[w], w, s.workers[w], s.main, GoDone(s), s.mem);
        }
      }
    }
  }

  lemma ShownElsewhere(s: State, v: nat, t: Thread, mem: Memory, l: Loc)
    requires v < |s.workers|
    requires ShownBy(t, s.main.iter, l) == ShownBy(s.workers[v], s.main.iter, l)
    ensures Shown(s.(workers := s.workers[v := t], mem := mem), l) == Shown(s, l)
  {
    var s' := s.(workers := s.workers[v := t], mem := mem);
    if w :| 0 <= w < |s.workers| && ShownBy(s.workers[w], s.main.iter, l) {
      assert ShownBy(s'.workers[w], s.main.iter, l);
    }
    if w :| 0 <= w < |s'.workers| && ShownBy(s'.workers[w], s.main.iter, l) {
      assert ShownBy(s.workers[w], s.main.iter, l);
    }
  }

  lemma RunningShows(code: seq<Op>, t: Thread, mem: Memory, m: nat, l: Loc)
    requires Begun(code, t).pc < |code| && t.pc <= |code| && t.flushed <= |t.log|
    requires t.pc == |code| ==> t.iter + 1 == m
    ensures ShownBy(Ran(code, t, mem), m, l) == ShownBy(t, m, l)
  {
    if t.pc < |code| {
      var r := Ran(code, t, mem);
      if k :| 0 <= k < t.flushed && t.log[k].loc == l {
        assert r.log[k] == t.log[k];
      }
    }
  }

  lemma ValuesWorkerRuns(p: Program, iters: nat, s: State, v: nat)
    requires LitmusProgram(p) && Gate(p, s) && Values(s)
    ensures Values(Next(p, iters, s, Runs(v)))
    ensures forall l :: Shown(Next(p, iters, s, Runs(v)), l) == Shown(s, l)
  {
    if v < |s.workers| && CanRun(p.workers[v], iters, s.workers[v], s.mem) {
      var code, t := p.workers[v], s.workers[v];
      assert WorkerAt(code, v, t, s.main, GoDone(s), s.mem);
      WorkerRuns(code, v, t, s.main, GoDone(s), s.mem, iters);
      forall l ensures Shown(Next(p, iters, s, Runs(v)), l) == Shown(s, l) {
        RunningShows(code, t, s.mem, s.main.iter, l);
        ShownElsewhere(s, v, Ran(code, t, s.mem), s.mem, l);
      }
    }
  }

  lemma LandingShows(t: Thread, m: nat, l: Loc)
    requires t.flushed < |t.log| && t.iter == m
    ensures ShownBy(Drained(t), m, l) == (ShownBy(t, m, l) || t.log[t.flushed].loc == l)
  {
  }

  lemma ValuesWorkerDrains(p: Program, iters: nat, s: State, v: nat)
    requires LitmusProgram(p) && Gate(p, s) && Values(s)
    ensures Values(Next(p, iters, s, Drains(v)))
  {
    var s' := Next(p, iters, s, Drains(v));
    if v < |s.workers| && s.workers[v].flushed < |s.workers[v].log| {
      var t := s.workers[v];
      assert WorkerAt(p.workers[v], v, t, s.main, GoDone(s), s.mem);
      WorkerDrains(p.workers[v], v, t, s.main, GoDone(s), s.mem);
      LocalLog(p.workers[v], v, t);
      var e := t.log[t.flushed];
      forall l | Shared(l) ensures At(s'.mem, l).val == if Shown(s', l) then 1 else 0 {
        LandingShows(t, s.main.iter, l);
        if e.loc == l {
          assert ShownBy(s'.workers[v], s.main.iter, l);
        } else {
          ShownElsewhere(s, v, Drained(t), Landed(t, s.mem), l);
        }
      }
    }
  }

  lemma ValuesStep(p: Program, iters: nat, s: State, c: Choice)
    requires LitmusProgram(p) && Gate(p, s) && Values(s)
    ensures Values(Next(p, iters, s, c))
  {
    match c
    case MainRuns => ValuesMainRuns(p, iters, s);
    case MainDrains => ValuesMainDrains(p, iters, s);
    case Runs(w) => ValuesWorkerRuns(p, iters, s, w);
    case Drains(w) => ValuesWorkerDrains(p, iters, s, w);
  }

  lemma ShownSame(s: State, s': State, l: Loc)
    requires Shown(s, l) && s'.main.iter == s.main.iter && s'.workers == s.workers
    ensures Shown(s', l)
  {
    var w :| 0 <= w < |s.workers| && ShownBy(s.workers[w], s.main.iter, l);
    assert ShownBy(s'.workers[w], s'.main.iter, l);
  }

  lemma ShownDrains(s: State, v: nat, mem: Memory, l: Loc)
    requires Shown(s, l) && v < |s.workers|
    ensures Shown(s.(workers := s.workers[v := Drained(s.workers[v])], mem := mem), l)
  {
    var s' := s.(workers := s.workers[v := Drained(s.workers[v])], mem := mem);
    var w :| 0 <= w < |s.workers| && ShownBy(s.workers[w], s.main.iter, l);
    assert ShownBy(s'.workers[w], s'.main.iter, l);
  }

  /** A store that has landed stays landed for the rest of the iteration. */
  lemma ShownStays(p: Program, iters: nat, s: State, c: Choice, l: Loc)
    requires LitmusProgram(p) && Gate(p, s) && Values(s) && Shown(s, l)
    requires Next(p, iters, s, c).main.iter == s.main.iter
    ensures Shown(Next(p, iters, s, c), l)
  {
    match c
    case Runs(v) => ValuesWorkerRuns(p, iters, s, v);
    case Drains(v) =>
      if v < |s.workers| {
        ShownDrains(s, v, Next(p, iters, s, c).mem, l);
      }
    case _ => ShownSame(s, Next(p, iters, s, c), l);
  }

  // ---- what main has loaded ----

  /** The register of main's load number `k` holds what the location still holds. */
  predicate LoadedOne(code: seq<Op>, n: nat, regs: seq<int>, mem: Memory, k: nat)
    requires MainCode(code, n) && 3 + n + k < |code| - 1
  {
    k < |regs| && regs[k] == At(mem, code[3 + n + k].loc).val
  }

  predicate Loaded(code: seq<Op>, n: nat, main: Thread, mem: Memory)
    requires MainCode(code, n)
  {
    main.iter > 0 ==>
      forall k :: 0 <= k && 3 + n + k < main.pc && 3 + n + k < |code| - 1 ==> LoadedOne(code, n, main.regs, mem, k)
  }

  ghost predicate MainRead(p: Program, s: State)
    requires LitmusProgram(p)
  {
    Loaded(p.main, |p.workers|, s.main, s.mem)
  }

  lemma {:induction false} MainLoads(code: seq<Op>, n: nat, k: nat)
    requires MainCode(code, n) && k < |code|
    ensures Loads(code, k) == if k < 3 + n then 0 else k - 3 - n
  {
    if k > 0 {
      MainLoads(code, n, k - 1);
      if 3 < k <= 3 + n {
        assert code[3 + (k - 4)] == Await(Done(k - 4));
      }
    }
  }

  lemma LoadedRuns(code: seq<Op>, n: nat, main: Thread, mem: Memory)
    requires MainCode(code, n) && Loaded(code, n, main, mem) && Local(code, main)
    requires main.iter > 0 ==> main.log == MainLog(main.pc, main.iter)
    ensures Begun(code, main).pc < |code| && Loaded(code, n, Ran(code, main, mem), mem)
  {
    if main.pc < |code| && main.iter > 0 {
      MainLoads(code, n, main.pc);
      if 3 + n <= main.pc < |code| - 1 {
        SeenInMemory(main.log, main.flushed, mem, code[main.pc].loc);
      }
      var r := Ran(code, main, mem);
      forall k | 0 <= k && 3 + n + k < r.pc && 3 + n + k < |code| - 1 ensures LoadedOne(code, n, r.regs, mem, k) {
        assert 3 + n + k < main.pc ==> LoadedOne(code, n, main.regs, mem, k);
      }
    }
  }

  lemma LoadedDrains(code: seq<Op>, n: nat, main: Thread, mem: Memory)
    requires MainCode(code, n) && Loaded(code, n, main, mem)
    requires main.flushed < |main.log| && !main.log[main.flushed].loc.Res?
    ensures Loaded(code, n, Drained(main), Landed(main, mem))
  {
    if main.iter > 0 {
      forall k | 0 <= k && 3 + n + k < main.pc && 3 + n + k < |code| - 1
        ensures LoadedOne(code, n, main.regs, Landed(main, mem), k)
      {
        assert LoadedOne(code, n, main.regs, mem, k) && code[3 + n + k].loc.Res?;
      }
    }
  }

  lemma MainReadStep(p: Program, iters: nat, s: State, c: Choice)
    requires LitmusProgram(p) && Gate(p, s) && MainRead(p, s)
    ensures MainRead(p, Next(p, iters, s, c))
  {
    match c
    case MainRuns => LoadedRuns(p.main, |p.workers|, s.main, s.mem);
    case MainDrains =>
      if s.main.flushed < |s.main.log| {
        var m := s.main.iter;
        assert s.main.log[s.main.flushed] == [Write(X, 0, m), Write(Y, 0, m), Write(Go, m, m)][s.main.flushed];
        LoadedDrains(p.main, |p.workers|, s.main, s.mem);
      }
    case Runs(w) =>
    case Drains(w) =>
      if w < |s.workers| && s.workers[w].flushed < |s.workers[w].log| {
        assert WorkerAt(p.workers[w], w, s.workers[w], s.main, GoDone(s), s.mem);
        assert s.main.pc <= 3 + |p.workers|;
      }
  }

  // ---- runs ----

  /** Everything known of every reachable state, whatever the test. */
  ghost predicate Sound(p: Program, s: State)
    requires LitmusProgram(p)
  {
    Gate(p, s) && Values(s) && MainRead(p, s)
  }

  lemma SoundStep(p: Program, iters: nat, s: State, c: Choice)
    requires LitmusProgram(p) && Sound(p, s)
    ensures Sound(p, Next(p, iters, s, c))
  {
    GateStep(p, iters, s, c);
    ValuesStep(p, iters, s, c);
    MainReadStep(p, iters, s, c);
  }

  lemma {:induction false} SoundHolds(p: Program, iters: nat, schedule: seq<Choice>)
    requires LitmusProgram(p)
    ensures Sound(p, Run(p, iters, schedule))
  {
    if schedule == [] {
      GateAtStart(p);
    } else {
      var n := |schedule| - 1;
      SoundHolds(p, iters, schedule[..n]);
      SoundStep(p, iters, Run(p, iters, schedule[..n]), schedule[n]);
    }
  }

  /** When main tallies, the result it loaded at `k` is what the worker saved. */
  lemma MainHasResult(p: Program, s: State, k: nat, at: nat)
    requires LitmusProgram(p) && Sound(p, s) && s.main.iter > 0 && s.main.pc == |p.main| - 1
    requires 3 + |p.workers| <= k < |p.main| - 1
    requires var code := p.workers[p.main[k].loc.worker];
             at < |code| && code[at].Save? && code[at].loc == p.main[k].loc
    ensures var w := p.main[k].loc.worker;
            var t := s.workers[w];
            && k - 3 - |p.workers| < |s.main.regs| && t.iter == s.main.iter && Idle(p.workers[w], t)
            && s.main.regs[k - 3 - |p.workers|] == Register(t.regs, p.workers[w][at].reg)
  {
    var w := p.main[k].loc.worker;
    ResultInMemory(p.workers[w], w, s.workers[w], s.main, GoDone(s), s.mem, at);
    assert LoadedOne(p.main, |p.workers|, s.main.regs, s.mem, k - 3 - |p.workers|);
  }

  /** A load of x or y in a worker sees 1 only if some worker's store has landed, unless the worker
      itself stores there. */
  lemma LoadSees(p: Program, s: State, w: nat, l: Loc)
    requires LitmusProgram(p) && Sound(p, s) && w < |s.workers| && Shared(l)
    requires s.workers[w].iter == s.main.iter > 0
    requires forall k :: 0 <= k < |s.workers[w].log| ==> s.workers[w].log[k].loc != l
    ensures var t := s.workers[w]; Seen(t.log, t.flushed, s.mem, l) == if Shown(s, l) then 1 else 0
  {
    assert WorkerAt(p.workers[w], w, s.workers[w], s.main, GoDone(s), s.mem);
    SeenInMemory(s.workers[w].log, s.workers[w].flushed, s.mem, l);
  }
}
