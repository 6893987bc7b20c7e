/** The litmus tool's threads on an x86-TSO machine: every thread has a FIFO store buffer that
    drains to memory at arbitrary moments, loads see the thread's own buffered stores first. */
module LitmusMachine {

  /** Shared fields: x, y, gate_go, tN_done, and the results tN_a (0) and tN_b (1). */
  datatype Loc = X | Y | Go | Done(worker: nat) | Res(worker: nat, slot: nat)

  /** A store, with the iteration it was issued in. No thread looks at the iteration. */
  datatype Write = Write(loc: Loc, val: int, iter: nat)

  datatype Op =
    | Put(loc: Loc, val: int)
    | Stamp(loc: Loc)               // store the iteration number
    | Save(loc: Loc, reg: nat)      // store an earlier load's value
    | Await(loc: Loc)               // spin until the location holds the iteration number or more
    | Load(loc: Loc)
    | Barrier(on: bool)             // a full barrier, if the mode asks for it
    | Tally                         // main counts a witness

  /** One loop iteration of each thread. */
  datatype Program = Program(main: seq<Op>, workers: seq<seq<Op>>, counts: seq<int> -> bool)

  /** `log` holds the stores issued in this iteration, of which `flushed` have reached memory; the
      store buffer is the rest. `pc` at the end of the code means: waiting to begin the next one. */
  datatype Thread = Thread(iter: nat, pc: nat, regs: seq<int>, log: seq<Write>, flushed: nat)

  type Memory = map<Loc, Write>

  datatype State = State(main: Thread, workers: seq<Thread>, mem: Memory, witnesses: nat, total: nat)

  function At(mem: Memory, l: Loc): Write {
    if l in mem then mem[l] else Write(l, 0, 0)
  }

  /** What a load sees: the youngest buffered store to the location, or memory. */
  function Seen(log: seq<Write>, flushed: nat, mem: Memory, l: Loc): int
    decreases |log|
  {
    if |log| <= flushed then At(mem, l).val
    else if log[|log| - 1].loc == l then log[|log| - 1].val
    else Seen(log[..|log| - 1], flushed, mem, l)
  }

  function Register(regs: seq<int>, r: nat): int {
    if r < |regs| then regs[r] else 0
  }

  function WriteOf(op: Op, iter: nat, regs: seq<int>): seq<Write> {
    match op
    case Put(l, v) => [Write(l, v, iter)]
    case Stamp(l) => [Write(l, iter, iter)]
    case Save(l, r) => [Write(l, Register(regs, r), iter)]
    case _ => []
  }

  predicate Blocked(op: Op, t: Thread, mem: Memory) {
    (op.Await? && Seen(t.log, t.flushed, mem, op.loc) < t.iter) || (op.Barrier? && op.on && t.flushed < |t.log|)
  }

  /** The thread after executing `op`. */
  function Executed(op: Op, t: Thread, mem: Memory): Thread {
    Thread(t.iter, t.pc + 1,
           if op.Load? then t.regs + [Seen(t.log, t.flushed, mem, op.loc)] else t.regs,
           t.log + WriteOf(op, t.iter, t.regs), t.flushed)
  }

  /** The loop increment is local, so it is taken together with the first statement. The buffer is
      kept across iterations. */
  function Begun(code: seq<Op>, t: Thread): Thread {
    if t.pc >= |code| then Thread(t.iter + 1, 0, [], if t.flushed <= |t.log| then t.log[t.flushed..] else [], 0) else t
  }

  predicate CanRun(code: seq<Op>, iters: nat, t: Thread, mem: Memory) {
    && (t.pc >= |code| ==> t.iter < iters)
    && Begun(code, t).pc < |code|
    && !Blocked(code[Begun(code, t).pc], Begun(code, t), mem)
  }

  function Ran(code: seq<Op>, t: Thread, mem: Memory): Thread
    requires Begun(code, t).pc < |code|
  {
    Executed(code[Begun(code, t).pc], Begun(code, t), mem)
  }

  function Drained(t: Thread): Thread {
    t.(flushed := t.flushed + 1)
  }

  function Landed(t: Thread, mem: Memory): Memory
    requires t.flushed < |t.log|
  {
    mem[t.log[t.flushed].loc := t.log[t.flushed]]
  }

  /** What the scheduler picks: a thread executes a statement, or its oldest buffered store lands. */
  datatype Choice = MainRuns | MainDrains | Runs(worker: nat) | Drains(worker: nat)

  /** One step. A choice that is not possible changes nothing. */
  function Next(p: Program, iters: nat, s: State, c: Choice): State {
    match c
    case MainRuns =>
      if !CanRun(p.main, iters, s.main, s.mem) then s
      else
        var tally := p.main[Begun(p.main, s.main).pc].Tally?;
        s.(main := Ran(p.main, s.main, s.mem),
           witnesses := s.witnesses + if tally && p.counts(s.main.regs) then 1 else 0,
           total := s.total + if tally then 1 else 0)
    case MainDrains =>
      if s.main.flushed >= |s.main.log| then s
      else s.(main := Drained(s.main), mem := Landed(s.main, s.mem))
    case Runs(w) =>
      if w >= |s.workers| || w >= |p.workers| || !CanRun(p.workers[w], iters, s.workers[w], s.mem) then s
      else s.(workers := s.workers[w := Ran(p.workers[w], s.workers[w], s.mem)])
    case Drains(w) =>
      if w >= |s.workers| || s.workers[w].flushed >= |s.workers[w].log| then s
      else s.(workers := s.workers[w := Drained(s.workers[w])], mem := Landed(s.workers[w], s.mem))
  }

  function Fresh(code: seq<Op>): Thread {
    Thread(0, |code|, [], [], 0)
  }

  function Start(p: Program): State {
    State(Fresh(p.main), seq(|p.workers|, w requires 0 <= w < |p.workers| => Fresh(p.workers[w])), map[], 0, 0)
  }

  /** The state after a schedule. */
  function Run(p: Program, iters: nat, schedule: seq<Choice>): State {
    if schedule == [] then Start(p)
    else Next(p, iters, Run(p, iters, schedule[..|schedule| - 1]), schedule[|schedule| - 1])
  }

  // ---- the shape of the tests ----

  function Loads(code: seq<Op>, pc: nat): nat
    requires pc <= |code|
  {
    if pc == 0 then 0 else Loads(code, pc - 1) + if code[pc - 1].Load? then 1 else 0
  }

  /** Stores of the first `pc` statements. */
  function Issued(code: seq<Op>, pc: nat, iter: nat, regs: seq<int>): seq<Write>
    requires pc <= |code|
  {
    if pc == 0 then [] else Issued(code, pc - 1, iter, regs) + WriteOf(code[pc - 1], iter, regs)
  }

  predicate Shared(l: Loc) {
    l == X || l == Y
  }

  /** A statement of worker `w` between the gate and its done flag. */
  predicate BodyOp(op: Op, w: nat) {
    match op
    case Put(l, v) => Shared(l) && v == 1
    case Load(l) => Shared(l)
    case Save(l, _) => l.Res? && l.worker == w
    case Barrier(_) => true
    case _ => false
  }

  /** A worker: wait at the gate, touch x and y, save what was loaded (each result once), set the
      done flag. */
  predicate WorkerCode(code: seq<Op>, w: nat) {
    && |code| >= 2 && code[0] == Await(Go) && code[|code| - 1] == Stamp(Done(w))
    && (forall k :: 1 <= k < |code| - 1 ==> BodyOp(code[k], w))
    && (forall k :: 0 <= k < |code| && code[k].Save? ==> code[k].reg < Loads(code, k))
    && (forall j, k :: 0 <= j < k < |code| && code[j].Save? && code[k].Save? ==> code[j].loc != code[k].loc)
  }

  /** Main: reset x and y, open the gate, wait for every worker, load results, tally. */
  predicate MainCode(code: seq<Op>, n: nat) {
    && |code| >= n + 4 && code[0] == Put(X, 0) && code[1] == Put(Y, 0) && code[2] == Stamp(Go)
    && (forall w :: 0 <= w < n ==> code[3 + w] == Await(Done(w)))
    && (forall k :: 3 + n <= k < |code| - 1 ==> code[k].Load? && code[k].loc.Res? && code[k].loc.worker < n)
    && code[|code| - 1] == Tally
  }

  predicate Saves(code: seq<Op>, l: Loc) {
    exists k :: 0 <= k < |code| && code[k].Save? && code[k].loc == l
  }

  ghost predicate LitmusProgram(p: Program) {
    && |p.workers| >= 1 && MainCode(p.main, |p.workers|)
    && (forall w :: 0 <= w < |p.workers| ==> WorkerCode(p.workers[w], w))
    && (forall k :: 3 + |p.workers| <= k < |p.main| - 1 ==> Saves(p.workers[p.main[k].loc.worker], p.main[k].loc))
  }
}
