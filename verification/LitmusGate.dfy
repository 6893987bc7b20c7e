/** What the gate protocol guarantees on the store-buffer machine, for any number of workers and
    any body that only stores 1 to x and y, loads them and saves what it loaded. */
module LitmusGate {
  import opened LitmusMachine

  // ---- one thread ----

  /** The log is what the executed statements issued. */
  predicate Local(code: seq<Op>, t: Thread) {
    && t.pc <= |code| && t.flushed <= |t.log|
    && (t.iter == 0 ==> t == Fresh(code))
    && (t.iter > 0 ==> t.pc >= 1 && |t.regs| == Loads(code, t.pc) && t.log == Issued(code, t.pc, t.iter, t.regs))
  }

  /** The iteration is over and all its stores are in memory. */
  predicate Idle(code: seq<Op>, t: Thread) {
    t.pc == |code| && t.flushed == |t.log|
  }

  /** Values are saved only after they are loaded. */
  predicate SavesLoaded(code: seq<Op>) {
    forall k :: 0 <= k < |code| && code[k].Save? ==> code[k].reg < Loads(code, k)
  }

  lemma {:induction false} LoadsGrow(code: seq<Op>, j: nat, k: nat)
    requires j <= k <= |code|
    ensures Loads(code, j) <= Loads(code, k)
    decreases k
  {
    if j < k {
      LoadsGrow(code, j, k - 1);
    }
  }

  lemma WriteStable(op: Op, iter: nat, regs: seq<int>, v: int)
    requires op.Save? ==> op.reg < |regs|
    ensures WriteOf(op, iter, regs + [v]) == WriteOf(op, iter, regs)
  {
  }

  lemma {:induction false} IssuedStable(code: seq<Op>, pc: nat, iter: nat, regs: seq<int>, v: int)
    requires pc <= |code| && SavesLoaded(code) && Loads(code, pc) <= |regs|
    ensures Issued(code, pc, iter, regs + [v]) == Issued(code, pc, iter, regs)
    decreases pc
  {
    if pc > 0 {
      LoadsGrow(code, pc - 1, pc);
      IssuedStable(code, pc - 1, iter, regs, v);
      WriteStable(code[pc - 1], iter, regs, v);
    }
  }

  lemma LocalRuns(code: seq<Op>, t: Thread, mem: Memory)
    requires Local(code, t) && SavesLoaded(code) && |code| > 0 && (t.pc == |code| ==> Idle(code, t))
    ensures Begun(code, t).pc < |code| && Local(code, Ran(code, t, mem))
  {
    var b := Begun(code, t);
    var op := code[b.pc];
    assert b.log == Issued(code, b.pc, b.iter, b.regs);
    if op.Load? {
      IssuedStable(code, b.pc, b.iter, b.regs, Seen(b.log, b.flushed, mem, op.loc));
    }
  }

  /** Every issued store comes from an executed statement. */
  lemma {:induction false} IssuedFrom(code: seq<Op>, pc: nat, iter: nat, regs: seq<int>, k: nat) returns (at: nat)
    requires pc <= |code| && k < |Issued(code, pc, iter, regs)|
    ensures at < pc && WriteOf(code[at], iter, regs) == [Issued(code, pc, iter, regs)[k]]
    decreases pc
  {
    if k < |Issued(code, pc - 1, iter, regs)| {
      at := IssuedFrom(code, pc - 1, iter, regs, k);
    } else {
      at := pc - 1;
    }
  }

  /** Every executed store statement has issued its store. */
  lemma {:induction false} IssuedHas(code: seq<Op>, pc: nat, iter: nat, regs: seq<int>, at: nat) returns (k: nat)
    requires at < pc <= |code| && WriteOf(code[at], iter, regs) != []
    ensures k < |Issued(code, pc, iter, regs)| && WriteOf(code[at], iter, regs) == [Issued(code, pc, iter, regs)[k]]
    decreases pc
  {
    if at < pc - 1 {
      k := IssuedHas(code, pc - 1, iter, regs, at);
    } else {
      k := |Issued(code, pc - 1, iter, regs)|;
    }
  }

  // ---- a worker's stores ----

  predicate OwnLoc(l: Loc, w: nat) {
    Shared(l) || l == Done(w) || (l.Res? && l.worker == w)
  }

  /** Stores to x and y are of 1, the done flag is the last store, and nothing else is stored but
      results, each once. */
  predicate WorkerLog(log: seq<Write>, w: nat, iter: nat, over: bool) {
    && (forall k :: 0 <= k < |log| ==> OwnLoc(log[k].loc, w) && log[k].iter == iter)
    && (forall k :: 0 <= k < |log| && Shared(log[k].loc) ==> log[k].val == 1)
    && (forall k :: 0 <= k < |log| && log[k].loc == Done(w) ==> over && k == |log| - 1)
    && (forall j, k :: 0 <= j < k < |log| && log[j].loc.Res? ==> log[j].loc != log[k].loc)
    && (over ==> log != [] && log[|log| - 1] == Write(Done(w), iter, iter))
  }

  lemma BodyEntry(code: seq<Op>, pc: nat, w: nat, iter: nat, regs: seq<int>, k: nat)
    requires WorkerCode(code, w) && pc < |code| && k < |Issued(code, pc, iter, regs)|
    ensures var e := Issued(code, pc, iter, regs)[k];
            e.iter == iter && (Shared(e.loc) ==> e.val == 1) && (Shared(e.loc) || (e.loc.Res? && e.loc.worker == w))
  {
    var at := IssuedFrom(code, pc, iter, regs, k);
    assert at == 0 || BodyOp(code[at], w);
    assert [Issued(code, pc, iter, regs)[k]][0] == WriteOf(code[at], iter, regs)[0];
  }

  lemma {:induction false} BodyDistinct(code: seq<Op>, pc: nat, w: nat, iter: nat, regs: seq<int>, j: nat, k: nat)
    requires WorkerCode(code, w) && pc < |code| && j < k < |Issued(code, pc, iter, regs)|
    requires Issued(code, pc, iter, regs)[j].loc.Res?
    ensures Issued(code, pc, iter, regs)[j].loc != Issued(code, pc, iter, regs)[k].loc
    decreases pc
  {
    var before := Issued(code, pc - 1, iter, regs);
    if k < |before| {
      BodyDistinct(code, pc - 1, w, iter, regs, j, k);
    } else {
      var e := before[j];
      var at := IssuedFrom(code, pc - 1, iter, regs, j);
      assert [e][0] == WriteOf(code[at], iter, regs)[0];
      assert at == 0 || BodyOp(code[at], w);
      assert BodyOp(code[pc - 1], w);
      assert code[at].Save?;
    }
  }

  lemma BodyLog(code: seq<Op>, pc: nat, w: nat, iter: nat, regs: seq<int>)
    requires WorkerCode(code, w) && pc < |code|
    ensures WorkerLog(Issued(code, pc, iter, regs), w, iter, false)
  {
    var log := Issued(code, pc, iter, regs);
    forall k | 0 <= k < |log|
      ensures var e := log[k];
              e.iter == iter && (Shared(e.loc) ==> e.val == 1) && (Shared(e.loc) || (e.loc.Res? && e.loc.worker == w))
    {
      BodyEntry(code, pc, w, iter, regs, k);
    }
    forall j, k | 0 <= j < k < |log| && log[j].loc.Res? ensures log[j].loc != log[k].loc {
      BodyDistinct(code, pc, w, iter, regs, j, k);
    }
  }

  lemma WholeLog(code: seq<Op>, w: nat, iter: nat, regs: seq<int>)
    requires WorkerCode(code, w)
    ensures WorkerLog(Issued(code, |code|, iter, regs), w, iter, true)
  {
    var n := |code| - 1;
    BodyLog(code, n, w, iter, regs);
    assert Issued(code, |code|, iter, regs) == Issued(code, n, iter, regs) + [Write(Done(w), iter, iter)];
  }

  lemma LocalLog(code: seq<Op>, w: nat, t: Thread)
    requires WorkerCode(code, w) && Local(code, t) && t.iter > 0
    ensures WorkerLog(t.log, w, t.iter, t.pc == |code|)
  {
    if t.pc == |code| {
      WholeLog(code, w, t.iter, t.regs);
    } else {
      BodyLog(code, t.pc, w, t.iter, t.regs);
    }
  }

  /** A location nobody buffered is read from memory. */
  lemma {:induction false} SeenInMemory(log: seq<Write>, flushed: nat, mem: Memory, l: Loc)
    requires forall k :: 0 <= k < |log| ==> log[k].loc != l
    ensures Seen(log, flushed, mem, l) == At(mem, l).val
    decreases |log|
  {
    if |log| > flushed {
      SeenInMemory(log[..|log| - 1], flushed, mem, l);
    }
  }

  /** A thread sees its own youngest buffered store, whatever memory holds. */
  lemma {:induction false} SeenOwn(log: seq<Write>, flushed: nat, mem: Memory, l: Loc, k: nat)
    requires flushed <= k < |log| && log[k].loc == l && forall j :: k < j < |log| ==> log[j].loc != l
    ensures Seen(log, flushed, mem, l) == log[k].val
    decreases |log|
  {
    if k < |log| - 1 {
      SeenOwn(log[..|log| - 1], flushed, mem, l, k);
    }
  }

  /** Executing a statement drops no buffered store, also from one iteration to the next. */
  lemma BufferIsKept(code: seq<Op>, t: Thread, mem: Memory)
    requires Begun(code, t).pc < |code| && t.flushed <= |t.log|
    ensures var b, r := Begun(code, t), Ran(code, t, mem);
            && r.flushed <= |r.log|
            && r.log[r.flushed..] == t.log[t.flushed..] + WriteOf(code[b.pc], b.iter, b.regs)
  {
  }

  // ---- main's stores ----

  function MainLog(pc: nat, iter: nat): seq<Write> {
    [Write(X, 0, iter), Write(Y, 0, iter), Write(Go, iter, iter)][..if pc < 3 then pc else 3]
  }

  lemma {:induction false} MainIssued(code: seq<Op>, n: nat, pc: nat, iter: nat, regs: seq<int>)
    requires MainCode(code, n) && 1 <= pc <= |code|
    ensures Issued(code, pc, iter, regs) == MainLog(pc, iter)
    decreases pc
  {
    if pc == 1 {
      assert Issued(code, 0, iter, regs) == [];
      assert Issued(code, 1, iter, regs) == WriteOf(code[0], iter, regs);
    } else {
      MainIssued(code, n, pc - 1, iter, regs);
      assert pc > 3 ==> WriteOf(code[pc - 1], iter, regs) == [] by {
        if 3 < pc <= 3 + n {
          assert code[3 + (pc - 4)] == Await(Done(pc - 4));
        }
      }
    }
  }

  // ---- the protocol invariant ----

  /** The gate value of main's iteration is in memory. */
  predicate GoDone(s: State) {
    s.main.iter == 0 || s.main.flushed >= 3
  }

  predicate ResultsLanded(t: Thread, mem: Memory) {
    forall k :: 0 <= k < t.flushed && k < |t.log| && t.log[k].loc.Res? ==> At(mem, t.log[k].loc) == t.log[k]
  }

  /** Where worker `w` can be: in main's iteration, which the gate has opened, or idle in the one
      before; its done flag says whether it is idle, and main got past waiting for it only if it is. */
  predicate WorkerAt(code: seq<Op>, w: nat, t: Thread, main: Thread, open: bool, mem: Memory) {
    && Local(code, t)
    && (t.iter == main.iter || (t.iter + 1 == main.iter && Idle(code, t)))
    && (t.iter == main.iter ==> open)
    && (!Idle(code, t) ==> t.iter > 0)
    && At(mem, Done(w)).val == (if Idle(code, t) then t.iter else t.iter - 1)
    && (main.pc >= 4 + w ==> t.iter == main.iter && Idle(code, t))
    && ResultsLanded(t, mem)
  }

  predicate MainAt(code: seq<Op>, main: Thread, open: bool, mem: Memory) {
    && Local(code, main) && (main.iter > 0 ==> main.log == MainLog(main.pc, main.iter))
    && At(mem, Go).val == (if open then main.iter else main.iter - 1)
  }

  ghost predicate Gate(p: Program, s: State) {
    && |s.workers| == |p.workers|
    && MainAt(p.main, s.main, GoDone(s), s.mem)
    && forall w :: 0 <= w < |s.workers| ==> WorkerAt(p.workers[w], w, s.workers[w], s.main, GoDone(s), s.mem)
  }

  lemma GateAtStart(p: Program)
    requires LitmusProgram(p)
    ensures Gate(p, Start(p))
  {
  }

  // main executes

  lemma MainRested(p: Program, s: State)
    requires LitmusProgram(p) && Gate(p, s) && s.main.pc == |p.main|
    ensures Idle(p.main, s.main) && GoDone(s)
    ensures forall w :: 0 <= w < |s.workers| ==> s.workers[w].iter == s.main.iter && Idle(p.workers[w], s.workers[w])
  {
    var t := s.workers[0];
    assert WorkerAt(p.workers[0], 0, t, s.main, GoDone(s), s.mem);
  }

  lemma MainLocalRuns(p: Program, s: State)
    requires LitmusProgram(p) && Gate(p, s)
    ensures var b := Begun(p.main, s.main);
            b.pc < |p.main| && Local(p.main, Ran(p.main, s.main, s.mem))
            && Ran(p.main, s.main, s.mem).log == MainLog(b.pc + 1, b.iter)
  {
    if s.main.pc == |p.main| {
      MainRested(p, s);
    }
    assert SavesLoaded(p.main) by {
      forall k | 0 <= k < |p.main| && p.main[k].Save? ensures false {
        MainSavesNothing(p.main, |p.workers|, k);
      }
    }
    LocalRuns(p.main, s.main, s.mem);
    var r := Ran(p.main, s.main, s.mem);
    MainIssued(p.main, |p.workers|, r.pc, r.iter, r.regs);
  }

  lemma MainSavesNothing(code: seq<Op>, n: nat, k: nat)
    requires MainCode(code, n) && k < |code|
    ensures !code[k].Save?
  {
    if 3 <= k < 3 + n {
      assert code[3 + (k - 3)] == Await(Done(k - 3));
    }
  }

  /** Main passes its wait only when the worker's done flag is up. */
  lemma MainPasses(code: seq<Op>, w: nat, t: Thread, main: Thread, open: bool, mem: Memory)
    requires WorkerAt(code, w, t, main, open, mem) && main.iter > 0 && main.log == MainLog(main.pc, main.iter)
    requires Seen(main.log, main.flushed, mem, Done(w)) >= main.iter
    ensures t.iter == main.iter && Idle(code, t)
  {
    SeenInMemory(main.log, main.flushed, mem, Done(w));
  }

  /** What a step of main means for a worker: one statement further, or the next iteration. */
  lemma WorkerSeesMain(code: seq<Op>, w: nat, t: Thread, main: Thread, main': Thread, open: bool, open': bool,
                                          mem: Memory)
    requires WorkerAt(code, w, t, main, open, mem)
    requires || (main'.iter == main.iter && open' == open && main'.pc == main.pc + 1
                 && (main.pc == 3 + w ==> t.iter == main.iter && Idle(code, t)))
             || (main'.iter == main.iter + 1 && main'.pc == 1 && !open' && t.iter == main.iter && Idle(code, t))
    ensures WorkerAt(code, w, t, main', open', mem)
  {
  }

  /** Main goes on within its iteration. */
  lemma MainAdvances(p: Program, iters: nat, s: State, w: nat)
    requires LitmusProgram(p) && Gate(p, s) && w < |s.workers|
    requires CanRun(p.main, iters, s.main, s.mem) && s.main.pc < |p.main| && s.main.iter > 0
    ensures WorkerAt(p.workers[w], w, s.workers[w], Ran(p.main, s.main, s.mem), GoDone(s), s.mem)
  {
    assert WorkerAt(p.workers[w], w, s.workers[w], s.main, GoDone(s), s.mem);
    if s.main.pc == 3 + w {
      assert p.main[3 + w] == Await(Done(w));
      MainPasses(p.workers[w], w, s.workers[w], s.main, GoDone(s), s.mem);
    }
    WorkerSeesMain(p.workers[w], w, s.workers[w], s.main, Ran(p.main, s.main, s.mem), GoDone(s), GoDone(s), s.mem);
  }

  /** Main begins the next iteration. */
  lemma MainBegins(p: Program, s: State, w: nat)
    requires LitmusProgram(p) && Gate(p, s) && w < |s.workers| && s.main.pc == |p.main|
    ensures WorkerAt(p.workers[w], w, s.workers[w], Ran(p.main, s.main, s.mem), false, s.mem)
  {
    MainRested(p, s);
    assert WorkerAt(p.workers[w], w, s.workers[w], s.main, GoDone(s), s.mem);
    WorkerSeesMain(p.workers[w], w, s.workers[w], s.main, Ran(p.main, s.main, s.mem), GoDone(s), false, s.mem);
  }

  lemma GateMainRuns(p: Program, iters: nat, s: State)
    requires LitmusProgram(p) && Gate(p, s)
    ensures Gate(p, Next(p, iters, s, MainRuns))
  {
    var s' := Next(p, iters, s, MainRuns);
    if CanRun(p.main, iters, s.main, s.mem) {
      MainLocalRuns(p, s);
      if s.main.pc == |p.main| {
        MainRested(p, s);
        assert !GoDone(s');
      } else {
        assert s.main.iter > 0 && GoDone(s') == GoDone(s);
      }
      forall w | 0 <= w < |s.workers| ensures WorkerAt(p.workers[w], w, s'.workers[w], s'.main, GoDone(s'), s'.mem) {
        if s.main.pc == |p.main| {
          MainBegins(p, s, w);
        } else {
          MainAdvances(p, iters, s, w);
        }
      }
    }
  }

  // main's stores land

  lemma GateMainDrains(p: Program, iters: nat, s: State)
    requires LitmusProgram(p) && Gate(p, s)
    ensures Gate(p, Next(p, iters, s, MainDrains))
  {
    var s' := Next(p, iters, s, MainDrains);
    if s.main.flushed < |s.main.log| {
      var e := s.main.log[s.main.flushed];
      var m := s.main.iter;
      assert m > 0 && e == [Write(X, 0, m), Write(Y, 0, m), Write(Go, m, m)][s.main.flushed];
      forall w | 0 <= w < |s.workers| ensures WorkerAt(p.workers[w], w, s'.workers[w], s'.main, GoDone(s'), s'.mem) {
        assert WorkerAt(p.workers[w], w, s.workers[w], s.main, GoDone(s), s.mem);
        if s.workers[w].iter > 0 {
          LocalLog(p.workers[w], w, s.workers[w]);
        }
      }
    }
  }

  // a worker executes

  /** A worker gets through the gate only into main's iteration, idle before. */
  lemma PassesGate(code: seq<Op>, w: nat, t: Thread, main: Thread, open: bool, mem: Memory)
    requires WorkerCode(code, w) && WorkerAt(code, w, t, main, open, mem) && t.pc == |code|
    requires At(mem, Go).val == if open then main.iter else main.iter - 1
    requires !Blocked(code[0], Begun(code, t), mem)
    ensures Idle(code, t) && t.iter + 1 == main.iter && open
  {
    if t.iter > 0 {
      LocalLog(code, w, t);
    }
    SeenInMemory(t.log[t.flushed..], 0, mem, Go);
  }

  lemma WorkerRuns(code: seq<Op>, w: nat, t: Thread, main: Thread, open: bool, mem: Memory, iters: nat)
    requires WorkerCode(code, w) && WorkerAt(code, w, t, main, open, mem) && CanRun(code, iters, t, mem)
    requires At(mem, Go).val == if open then main.iter else main.iter - 1
    ensures WorkerAt(code, w, Ran(code, t, mem), main, open, mem) && open && Ran(code, t, mem).iter == main.iter
    ensures !Idle(code, Ran(code, t, mem)) && Ran(code, t, mem).flushed == if t.pc == |code| then 0 else t.flushed
    ensures t.pc == |code| ==> t.iter + 1 == main.iter
  {
    if t.pc == |code| {
      PassesGate(code, w, t, main, open, mem);
    }
    LocalRuns(code, t, mem);
  }

  lemma GateWorkerRuns(p: Program, iters: nat, s: State, v: nat)
    requires LitmusProgram(p) && Gate(p, s)
    ensures Gate(p, Next(p, iters, s, Runs(v)))
  {
    var s' := Next(p, iters, s, Runs(v));
    if v < |s.workers| && CanRun(p.workers[v], iters, s.workers[v], s.mem) {
      forall w | 0 <= w < |s.workers| ensures WorkerAt(p.workers[w], w, s'.workers[w], s'.main, GoDone(s'), s'.mem) {
        assert WorkerAt(p.workers[w], w, s.workers[w], s.main, GoDone(s), s.mem);
        if w == v {
          WorkerRuns(p.workers[w], w, s.workers[w], s.main, GoDone(s), s.mem, iters);
        }
      }
    }
  }

  // a worker's stores land

  lemma WorkerDrains(code: seq<Op>, w: nat, t: Thread, main: Thread, open: bool, mem: Memory)
    requires WorkerCode(code, w) && WorkerAt(code, w, t, main, open, mem) && t.flushed < |t.log|
    ensures WorkerAt(code, w, Drained(t), main, open, Landed(t, mem))
    ensures t.iter == main.iter && open && OwnLoc(t.log[t.flushed].loc, w)
  {
    LocalLog(code, w, t);
    assert !Idle(code, t);
    var e, mem' := t.log[t.flushed], Landed(t, mem);
    forall k | 0 <= k < t.flushed && t.log[k].loc.Res? ensures At(mem', t.log[k].loc) == t.log[k] {
      assert t.log[k].loc != e.loc;
    }
  }

  lemma OthersLand(code: seq<Op>, w: nat, t: Thread, main: Thread, open: bool, mem: Memory, e: Write, v: nat)
    requires WorkerCode(code, w) && WorkerAt(code, w, t, main, open, mem) && OwnLoc(e.loc, v) && v != w
    ensures WorkerAt(code, w, t, main, open, mem[e.loc := e])
  {
    if t.iter > 0 {
      LocalLog(code, w, t);
    }
  }

  lemma GateWorkerDrains(p: Program, iters: nat, s: State, v: nat)
    requires LitmusProgram(p) && Gate(p, s)
    ensures Gate(p, Next(p, iters, s, Drains(v)))
  {
    var s' := Next(p, iters, s, Drains(v));
    if v < |s.workers| && s.workers[v].flushed < |s.workers[v].log| {
      WorkerDrains(p.workers[v], v, s.workers[v], s.main, GoDone(s), s.mem);
      var e := s.workers[v].log[s.workers[v].flushed];
      forall w | 0 <= w < |s.workers| ensures WorkerAt(p.workers[w], w, s'.workers[w], s'.main, GoDone(s'), s'.mem) {
        assert WorkerAt(p.workers[w], w, s.workers[w], s.main, GoDone(s), s.mem);
        if w != v {
          OthersLand(p.workers[w], w, s.workers[w], s.main, GoDone(s), s.mem, e, v);
        }
      }
    }
  }

  lemma GateStep(p: Program, iters: nat, s: State, c: Choice)
    requires LitmusProgram(p) && Gate(p, s)
    ensures Gate(p, Next(p, iters, s, c))
  {
    match c
    case MainRuns => GateMainRuns(p, iters, s);
    case MainDrains => GateMainDrains(p, iters, s);
    case Runs(w) => GateWorkerRuns(p, iters, s, w);
    case Drains(w) => GateWorkerDrains(p, iters, s, w);
  }

  /** The protocol invariant holds after every schedule. */
  lemma {:induction false} GateHolds(p: Program, iters: nat, schedule: seq<Choice>)
    requires LitmusProgram(p)
    ensures Gate(p, Run(p, iters, schedule))
  {
    if schedule == [] {
      GateAtStart(p);
    } else {
      var n := |schedule| - 1;
      GateHolds(p, iters, schedule[..n]);
      GateStep(p, iters, Run(p, iters, schedule[..n]), schedule[n]);
    }
  }

  /** From main's first reset store until its gate store lands, no worker can do anything: it has
      nothing buffered and does not get through the gate. */
  lemma ResetIsPrivate(p: Program, iters: nat, schedule: seq<Choice>, w: nat)
    requires LitmusProgram(p) && !GoDone(Run(p, iters, schedule))
    ensures var s := Run(p, iters, schedule); Next(p, iters, s, Runs(w)) == s && Next(p, iters, s, Drains(w)) == s
  {
    GateHolds(p, iters, schedule);
    ResetBlocks(p, iters, Run(p, iters, schedule), w);
  }

  lemma ResetBlocks(p: Program, iters: nat, s: State, w: nat)
    requires LitmusProgram(p) && Gate(p, s) && !GoDone(s)
    ensures Next(p, iters, s, Runs(w)) == s && Next(p, iters, s, Drains(w)) == s
  {
    if w < |s.workers| {
      var code, t := p.workers[w], s.workers[w];
      assert WorkerAt(code, w, t, s.main, GoDone(s), s.mem);
      if CanRun(code, iters, t, s.mem) {
        WorkerRuns(code, w, t, s.main, GoDone(s), s.mem, iters);
      }
    }
  }

  /** A worker main has waited for: each result it saved is in memory, with its value, written in
      main's iteration. */
  lemma ResultInMemory(code: seq<Op>, w: nat, t: Thread, main: Thread, open: bool, mem: Memory, k: nat)
    requires WorkerCode(code, w) && WorkerAt(code, w, t, main, open, mem) && main.pc >= 4 + w && main.iter > 0
    requires k < |code| && code[k].Save?
    ensures At(mem, code[k].loc) == Write(code[k].loc, Register(t.regs, code[k].reg), main.iter)
  {
    var at := IssuedHas(code, |code|, t.iter, t.regs, k);
    assert [t.log[at]][0] == WriteOf(code[k], t.iter, t.regs)[0];
    assert k == 0 || k == |code| - 1 || BodyOp(code[k], w);
  }

  /** Every result main is about to load was written in the iteration main is in. */
  lemma ResultsAreFresh(p: Program, iters: nat, schedule: seq<Choice>)
    requires var s := Run(p, iters, schedule);
             LitmusProgram(p) && s.main.iter > 0 && 3 + |p.workers| <= s.main.pc < |p.main| - 1
    ensures var s := Run(p, iters, schedule); At(s.mem, p.main[s.main.pc].loc).iter == s.main.iter
  {
    GateHolds(p, iters, schedule);
    FreshAt(p, Run(p, iters, schedule));
  }

  lemma FreshAt(p: Program, s: State)
    requires LitmusProgram(p) && Gate(p, s) && s.main.iter > 0
    requires 3 + |p.workers| <= s.main.pc < |p.main| - 1
    ensures At(s.mem, p.main[s.main.pc].loc).iter == s.main.iter
  {
    var l := p.main[s.main.pc].loc;
    var w := l.worker;
    assert Saves(p.workers[w], l);
    var k :| 0 <= k < |p.workers[w]| && p.workers[w][k].Save? && p.workers[w][k].loc == l;
    ResultInMemory(p.workers[w], w, s.workers[w], s.main, GoDone(s), s.mem, k);
  }
}
