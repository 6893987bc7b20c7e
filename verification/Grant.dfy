/** The per-thread TSO grant driver, statement by statement, under arbitrary context switches.
    Each thread has one grant and is the only one to use it. */
module Grant {

  /** Module parameters. */
  datatype Config = Config(confirmed: bool, bit: nat, eligible: set<nat>)

  const BITS_PER_LONG := 64

  predicate CoreEligible(k: Config, core: nat) {
    core < BITS_PER_LONG && core in k.eligible
  }

  /** The contents of a core's control register: the bits that are set. */
  type Register = set<nat>

  function Apply(r: Register, bit: nat, on: bool): Register {
    if on then r + {bit} else r - {bit}
  }

  /** The next statement of the call a thread is in. */
  datatype Pc = Outside | EnRegister | EnFlag | EnApply | DisFlag | DisUnregister | DisApply

  datatype Place = Off | On(core: nat)

  datatype Thread = Thread(enabled: bool, registered: bool, pc: Pc, place: Place)

  datatype State = State(threads: seq<Thread>, regs: seq<Register>)

  datatype Event =
    | Enable(t: nat, affinityFails: bool)
    | Disable(t: nat)                       // the ioctl, or release of the descriptor
    | Step(t: nat)
    | SwitchOut(t: nat)
    | SwitchIn(t: nat, core: nat)

  predicate Running(s: State, t: nat) {
    t < |s.threads| && s.threads[t].place.On? && s.threads[t].place.core < |s.regs|
  }

  predicate CoreFree(s: State, core: nat) {
    core < |s.regs| && forall t :: 0 <= t < |s.threads| ==> s.threads[t].place != On(core)
  }

  function Update(s: State, t: nat, thread: Thread): State
    requires t < |s.threads|
  {
    s.(threads := s.threads[t := thread])
  }

  function Program(s: State, k: Config, core: nat, on: bool): State
    requires core < |s.regs|
  {
    s.(regs := s.regs[core := Apply(s.regs[core], k.bit, on)])
  }

  /** The statements of enable and disable. The last one of each runs with preemption off. */
  function Advance(k: Config, s: State, t: nat): State
    requires Running(s, t)
  {
    var thread, core := s.threads[t], s.threads[t].place.core;
    match thread.pc
    case Outside => s
    case EnRegister => Update(s, t, thread.(registered := true, pc := EnFlag))
    case EnFlag => Update(s, t, thread.(enabled := true, pc := EnApply))
    case EnApply =>
      var s' := if CoreEligible(k, core) then Program(s, k, core, true) else s;
      Update(s', t, thread.(pc := Outside))
    case DisFlag => Update(s, t, thread.(enabled := false, pc := DisUnregister))
    case DisUnregister => Update(s, t, thread.(registered := false, pc := DisApply))
    case DisApply => Update(Program(s, k, core, false), t, thread.(pc := Outside))
  }

  /** One event; one that is not possible changes nothing. A context switch runs the notifier, if
      there is one, with preemption off. */
  function Next(k: Config, s: State, e: Event): State {
    match e
    case Enable(t, affinityFails) =>
      if !Running(s, t) || !s.threads[t].pc.Outside? then s
      else if !k.confirmed || s.threads[t].enabled || affinityFails then s
      else Update(s, t, s.threads[t].(pc := EnRegister))
    case Disable(t) =>
      if !Running(s, t) || !s.threads[t].pc.Outside? || !s.threads[t].enabled then s
      else Update(s, t, s.threads[t].(pc := DisFlag))
    case Step(t) => if !Running(s, t) then s else Advance(k, s, t)
    case SwitchOut(t) =>
      if !Running(s, t) then s
      else
        var thread := s.threads[t];
        var s' := if thread.registered && thread.enabled then Program(s, k, thread.place.core, false) else s;
        Update(s', t, thread.(place := Off))
    case SwitchIn(t, core) =>
      if t >= |s.threads| || !s.threads[t].place.Off? || !CoreFree(s, core) then s
      else
        var thread := s.threads[t];
        var s' := if thread.registered && thread.enabled && CoreEligible(k, core) then Program(s, k, core, true) else s;
        Update(s', t, thread.(place := On(core)))
  }

  /** `n` threads, none granted, none running. */
  function Start(n: nat, regs: seq<Register>): State {
    State(seq(n, t => Thread(false, false, Outside, Off)), regs)
  }

  function Run(k: Config, n: nat, regs: seq<Register>, events: seq<Event>): State {
    if events == [] then Start(n, regs)
    else Next(k, Run(k, n, regs, events[..|events| - 1]), events[|events| - 1])
  }

  // ---- the grant ----

  /** The flags at each statement. */
  predicate Consistent(thread: Thread) {
    match thread.pc
    case Outside => thread.enabled == thread.registered
    case EnRegister => !thread.enabled && !thread.registered
    case EnFlag => !thread.enabled && thread.registered
    case EnApply => thread.enabled && thread.registered
    case DisFlag => thread.enabled && thread.registered
    case DisUnregister => !thread.enabled && thread.registered
    case DisApply => !thread.enabled && !thread.registered
  }

  /** Enable has returned, and disable has not yet taken the grant back. */
  predicate Granted(thread: Thread) {
    thread.enabled && !thread.pc.EnApply?
  }

  /** The cores where the bit may be set: the first 64, as far as the mask names them. */
  predicate Permitted(k: Config, core: nat) {
    core <= 63 && core in k.eligible
  }

  predicate ThreadAt(k: Config, s: State, t: nat)
    requires t < |s.threads|
  {
    var thread := s.threads[t];
    && Consistent(thread)
    && (thread.place.On? ==>
          && thread.place.core < |s.regs|
          && (Granted(thread) && Permitted(k, thread.place.core) ==> k.bit in s.regs[thread.place.core]))
  }

  ghost predicate Safe(k: Config, s: State) {
    && (forall t :: 0 <= t < |s.threads| ==> ThreadAt(k, s, t))
    && (forall t, u :: 0 <= t < |s.threads| && 0 <= u < |s.threads| && t != u && s.threads[t].place.On? ==>
          s.threads[t].place != s.threads[u].place)
  }

  /** Changing a thread and its own core's register disturbs no other thread. */
  lemma OthersSafe(k: Config, s: State, s': State, t: nat, core: nat)
    requires Safe(k, s) && t < |s.threads| == |s'.threads| && |s'.regs| == |s.regs|
    requires s'.threads == s.threads[t := s'.threads[t]]
    requires forall u :: 0 <= u < |s.threads| && u != t ==> s.threads[u].place != On(core)
    requires forall c :: 0 <= c < |s.regs| && c != core ==> s'.regs[c] == s.regs[c]
    requires s'.threads[t].place == Off || s'.threads[t].place == On(core)
    requires ThreadAt(k, s', t)
    ensures Safe(k, s')
  {
    forall u | 0 <= u < |s'.threads| ensures ThreadAt(k, s', u) {
      assert u != t ==> s'.threads[u] == s.threads[u] && ThreadAt(k, s, u);
    }
  }

  lemma SafeStep(k: Config, s: State, e: Event)
    requires Safe(k, s)
    ensures Safe(k, Next(k, s, e))
  {
    var s' := Next(k, s, e);
    if s' != s {
      var t := e.t;
      assert ThreadAt(k, s, t);
      var core := if e.SwitchIn? then e.core else s.threads[t].place.core;
      OthersSafe(k, s, s', t, core);
    }
  }

  /** Over every run: a thread that holds a completed grant and runs on an eligible core has the
      control bit set. */
  lemma {:induction false} GrantHolds(k: Config, n: nat, regs: seq<Register>, events: seq<Event>)
    ensures Safe(k, Run(k, n, regs, events))
  {
    if events != [] {
      var m := |events| - 1;
      GrantHolds(k, n, regs, events[..m]);
      SafeStep(k, Run(k, n, regs, events[..m]), events[m]);
    }
  }

  // ---- single calls ----

  /** The rest of a call, with no switch in between. */
  function Finished(k: Config, s: State, t: nat): State {
    Next(k, Next(k, Next(k, s, Step(t)), Step(t)), Step(t))
  }

  /** An enable call that is not switched out: refused without a confirmed bit, when already enabled or
      when the thread cannot be confined, and otherwise ending with the grant and, on a permitted core,
      the bit, and nothing else changed. */
  lemma EnableGrants(k: Config, s: State, t: nat, affinityFails: bool)
    requires Running(s, t) && s.threads[t].pc.Outside? && Consistent(s.threads[t])
    ensures var thread, core := s.threads[t], s.threads[t].place.core;
            var s1 := Next(k, s, Enable(t, affinityFails));
            var regs := if Permitted(k, core) then s.regs[core := s.regs[core] + {k.bit}] else s.regs;
            if !k.confirmed || thread.enabled || affinityFails then s1 == s
            else Finished(k, s1, t) == State(s.threads[t := Thread(true, true, Outside, thread.place)], regs)
  {
    var s1 := Next(k, s, Enable(t, affinityFails));
    if s1 != s {
      var s2, s3 := Next(k, s1, Step(t)), Next(k, Next(k, s1, Step(t)), Step(t));
      assert s2.threads[t] == Thread(false, true, EnFlag, s.threads[t].place);
      assert s3.threads[t] == Thread(true, true, EnApply, s.threads[t].place);
    }
  }

  /** A disable call that is not switched out ends without grant, notifier and bit. */
  lemma DisableReleases(k: Config, s: State, t: nat)
    requires Running(s, t) && s.threads[t].pc.Outside? && Consistent(s.threads[t])
    ensures var thread, core := s.threads[t], s.threads[t].place.core;
            var s1 := Next(k, s, Disable(t));
            var regs := s.regs[core := s.regs[core] - {k.bit}];
            if !thread.enabled then s1 == s
            else Finished(k, s1, t) == State(s.threads[t := Thread(false, false, Outside, thread.place)], regs)
  {
    var s1 := Next(k, s, Disable(t));
    if s1 != s {
      var s2, s3 := Next(k, s1, Step(t)), Next(k, Next(k, s1, Step(t)), Step(t));
      assert s2.threads[t] == Thread(false, true, DisUnregister, s.threads[t].place);
      assert s3.threads[t] == Thread(false, false, DisApply, s.threads[t].place);
    }
  }

  /** Cores outside the mask, or beyond the first 64, never gain the bit. */
  predicate NeverGained(k: Config, regs: seq<Register>, s: State) {
    && |s.regs| == |regs|
    && forall c :: 0 <= c < |regs| && !(c <= 63 && c in k.eligible) && k.bit in s.regs[c] ==> k.bit in regs[c]
  }

  lemma {:induction false} IneligibleNeverGains(k: Config, n: nat, regs: seq<Register>, events: seq<Event>)
    ensures NeverGained(k, regs, Run(k, n, regs, events))
  {
    if events != [] {
      var m := |events| - 1;
      IneligibleNeverGains(k, n, regs, events[..m]);
    }
  }

  // ---- other bits, and a driver without a confirmed bit ----

  predicate OtherBits(k: Config, regs: seq<Register>, s: State) {
    |s.regs| == |regs| && forall c :: 0 <= c < |regs| ==> s.regs[c] - {k.bit} == regs[c] - {k.bit}
  }

  /** No run changes any other bit of any core's register. */
  lemma {:induction false} OtherBitsKept(k: Config, n: nat, regs: seq<Register>, events: seq<Event>)
    ensures OtherBits(k, regs, Run(k, n, regs, events))
  {
    if events != [] {
      var m := |events| - 1;
      OtherBitsKept(k, n, regs, events[..m]);
    }
  }

  predicate Untouched(regs: seq<Register>, s: State) {
    && s.regs == regs
    && forall t :: 0 <= t < |s.threads| ==>
         !s.threads[t].enabled && !s.threads[t].registered && s.threads[t].pc.Outside?
  }

  /** A driver whose bit is not confirmed never writes a register and never grants. */
  lemma {:induction false} UnconfirmedIsInert(k: Config, n: nat, regs: seq<Register>, events: seq<Event>)
    requires !k.confirmed
    ensures Untouched(regs, Run(k, n, regs, events))
  {
    if events != [] {
      var m := |events| - 1;
      UnconfirmedIsInert(k, n, regs, events[..m]);
    }
  }

  // ---- threads without a grant ----

  /** Disable has cleared the flag but not yet the bit. */
  predicate Window(thread: Thread) {
    thread.pc.DisUnregister? || thread.pc.DisApply?
  }

  /** The thread may be seen with the bit set on this core. */
  predicate Holder(thread: Thread, core: nat) {
    thread.place == On(core) && (thread.enabled || Window(thread))
  }

  ghost predicate Owned(s: State, core: nat) {
    exists t :: 0 <= t < |s.threads| && Holder(s.threads[t], core)
  }

  /** The bit is set only on cores running a thread that is granted, or in the middle of disable. */
  ghost predicate Clean(k: Config, s: State) {
    forall c :: 0 <= c < |s.regs| && k.bit in s.regs[c] ==> Owned(s, c)
  }

  /** The one event that leaks the bit: a context switch away from a thread in that window. */
  predicate Leaks(k: Config, s: State, e: Event) {
    e.SwitchOut? && Running(s, e.t) && Window(s.threads[e.t]) && k.bit in s.regs[s.threads[e.t].place.core]
  }

  lemma StaysOwned(s: State, s': State, t: nat, core: nat)
    requires Owned(s, core) && t < |s.threads| == |s'.threads| && s'.threads == s.threads[t := s'.threads[t]]
    requires Holder(s.threads[t], core) ==> Holder(s'.threads[t], core)
    ensures Owned(s', core)
  {
    var u :| 0 <= u < |s.threads| && Holder(s.threads[u], core);
    assert Holder(s'.threads[u], core);
  }

  lemma NobodyElse(k: Config, s: State, t: nat, core: nat)
    requires Safe(k, s) && t < |s.threads| && s.threads[t].place == On(core) && Owned(s, core)
    ensures Holder(s.threads[t], core)
  {
  }

  /** An event that does not leak keeps the cores clean. */
  lemma CleanStep(k: Config, s: State, e: Event)
    requires Safe(k, s) && Clean(k, s) && !Leaks(k, s, e)
    ensures Clean(k, Next(k, s, e))
  {
    var s' := Next(k, s, e);
    if s' != s {
      var t := e.t;
      assert ThreadAt(k, s, t);
      var core := if e.SwitchIn? then e.core else s.threads[t].place.core;
      forall c | 0 <= c < |s'.regs| && k.bit in s'.regs[c] ensures Owned(s', c) {
        if c == core {
          CoreStaysClean(k, s, e, core);
        } else {
          StaysOwned(s, s', t, c);
        }
      }
    }
  }

  /** The core the event is about. */
  lemma CoreStaysClean(k: Config, s: State, e: Event, core: nat)
    requires Safe(k, s) && Clean(k, s) && !Leaks(k, s, e) && Next(k, s, e) != s
    requires core == if e.SwitchIn? then e.core else s.threads[e.t].place.core
    requires core < |s.regs| && k.bit in Next(k, s, e).regs[core]
    ensures Owned(Next(k, s, e), core)
  {
    var s', t := Next(k, s, e), e.t;
    assert ThreadAt(k, s, t);
    if k.bit in s.regs[core] && !e.SwitchIn? {
      NobodyElse(k, s, t, core);
    }
    assert Holder(s'.threads[t], core);
  }

  /** And the one that does, never does: from a clean state the cores stay clean if and only if the
      event is not a switch away from the window on a core with the bit set. */
  lemma CleanExactly(k: Config, s: State, e: Event)
    requires Safe(k, s) && Clean(k, s)
    ensures Clean(k, Next(k, s, e)) <==> !Leaks(k, s, e)
  {
    if Leaks(k, s, e) {
      var t, core := e.t, s.threads[e.t].place.core;
      assert ThreadAt(k, s, t);
      forall u | 0 <= u < |s.threads| ensures !Holder(Next(k, s, e).threads[u], core) {
      }
    } else {
      CleanStep(k, s, e);
    }
  }

  /** No event of the run leaks. */
  ghost predicate NoLeak(k: Config, n: nat, regs: seq<Register>, events: seq<Event>) {
    forall m :: 0 <= m < |events| ==> !Leaks(k, Run(k, n, regs, events[..m]), events[m])
  }

  lemma {:induction false} CleanRun(k: Config, n: nat, regs: seq<Register>, events: seq<Event>)
    requires NoLeak(k, n, regs, events) && forall c :: 0 <= c < |regs| ==> k.bit !in regs[c]
    ensures Clean(k, Run(k, n, regs, events))
  {
    if events != [] {
      var m := |events| - 1;
      forall j | 0 <= j < m ensures !Leaks(k, Run(k, n, regs, events[..m][..j]), events[..m][j]) {
        assert events[..m][..j] == events[..j];
      }
      CleanRun(k, n, regs, events[..m]);
      GrantHolds(k, n, regs, events[..m]);
      CleanStep(k, Run(k, n, regs, events[..m]), events[m]);
    }
  }

  /** In a run where no disable is switched out in its window, a thread without a grant always runs
      with the bit clear. */
  lemma UngrantedRunsWeak(k: Config, n: nat, regs: seq<Register>, events: seq<Event>, t: nat)
    requires NoLeak(k, n, regs, events) && forall c :: 0 <= c < |regs| ==> k.bit !in regs[c]
    requires var s := Run(k, n, regs, events); Running(s, t) && !s.threads[t].enabled && !Window(s.threads[t])
    ensures var s := Run(k, n, regs, events); k.bit !in s.regs[s.threads[t].place.core]
  {
    CleanRun(k, n, regs, events);
    GrantHolds(k, n, regs, events);
    var s := Run(k, n, regs, events);
    var core := s.threads[t].place.core;
    if k.bit in s.regs[core] {
      NobodyElse(k, s, t, core);
    }
  }

  ghost predicate Reached(k: Config, n: nat, regs: seq<Register>, s: State) {
    exists events :: Run(k, n, regs, events) == s
  }

  lemma ReachedNext(k: Config, n: nat, regs: seq<Register>, s: State, e: Event, s': State)
    requires Reached(k, n, regs, s) && Next(k, s, e) == s'
    ensures Reached(k, n, regs, s')
  {
    var events :| Run(k, n, regs, events) == s;
    var more := events + [e];
    assert more[..|more| - 1] == events;
    assert Run(k, n, regs, more) == s';
  }

  /** Disable switched out between clearing the flag and clearing the bit: a thread that never asked
      for a grant then runs with the bit set, on any confirmed driver and eligible core 0. */
  lemma SwitchedOutDisableLeaks(k: Config)
    requires k.confirmed && CoreEligible(k, 0)
    ensures exists s :: Reached(k, 2, [{}], s) && Running(s, 1) && !s.threads[1].enabled && s.threads[1].pc.Outside?
                     && k.bit in s.regs[s.threads[1].place.core]
  {
    LeakBegins(k);
    LeakEnds(k, State([Thread(true, true, Outside, On(0)), Thread(false, false, Outside, Off)], [{k.bit}]));
  }

  lemma LeakStarts(k: Config)
    ensures Reached(k, 2, [{}], State([Thread(false, false, Outside, On(0)), Thread(false, false, Outside, Off)], [{}]))
  {
    var idle := Thread(false, false, Outside, Off);
    var s0 := State([idle, idle], [{}]);
    assert Start(2, [{}]) == s0;
    assert Run(k, 2, [{}], []) == s0;
    ReachedNext(k, 2, [{}], s0, SwitchIn(0, 0), State([Thread(false, false, Outside, On(0)), idle], [{}]));
  }

  lemma LeakBegins(k: Config)
    requires k.confirmed && CoreEligible(k, 0)
    ensures Reached(k, 2, [{}],
                    State([Thread(true, true, Outside, On(0)), Thread(false, false, Outside, Off)], [{k.bit}]))
  {
    LeakStarts(k);
    var on, idle := On(0), Thread(false, false, Outside, Off);
    var s1 := State([Thread(false, false, Outside, on), idle], [{}]);
    var s2 := State([Thread(false, false, EnRegister, on), idle], [{}]);
    ReachedNext(k, 2, [{}], s1, Enable(0, false), s2);
    var s3 := State([Thread(false, true, EnFlag, on), idle], [{}]);
    ReachedNext(k, 2, [{}], s2, Step(0), s3);
    var s4 := State([Thread(true, true, EnApply, on), idle], [{}]);
    ReachedNext(k, 2, [{}], s3, Step(0), s4);
    assert {} + {k.bit} == {k.bit};
    ReachedNext(k, 2, [{}], s4, Step(0), State([Thread(true, true, Outside, on), idle], [{k.bit}]));
  }

  lemma LeakEnds(k: Config, s5: State)
    requires Reached(k, 2, [{}], s5)
    requires s5 == State([Thread(true, true, Outside, On(0)), Thread(false, false, Outside, Off)], [{k.bit}])
    ensures exists s :: Reached(k, 2, [{}], s) && Running(s, 1) && !s.threads[1].enabled && s.threads[1].pc.Outside?
                     && k.bit in s.regs[s.threads[1].place.core]
  {
    var on, idle, set1 := On(0), Thread(false, false, Outside, Off), [{k.bit}];
    var s6 := State([Thread(true, true, DisFlag, on), idle], set1);
    ReachedNext(k, 2, [{}], s5, Disable(0), s6);
    var s7 := State([Thread(false, true, DisUnregister, on), idle], set1);
    ReachedNext(k, 2, [{}], s6, Step(0), s7);
    var s8 := State([Thread(false, true, DisUnregister, Off), idle], set1);
    ReachedNext(k, 2, [{}], s7, SwitchOut(0), s8);
    var s9 := State([Thread(false, true, DisUnregister, Off), Thread(false, false, Outside, on)], set1);
    ReachedNext(k, 2, [{}], s8, SwitchIn(1, 0), s9);
    assert Running(s9, 1);
  }
}
