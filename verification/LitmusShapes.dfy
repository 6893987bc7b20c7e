/** The litmus shapes the strengths are chosen by, decided from the ordering theorems. */
module LitmusShapes {
  import opened Words
  import A64
  import opened Graphs
  import opened MemoryModel
  import opened Translate
  import opened Ordering
  import opened OrderingTheorems
  import opened EmittedOrdering

  const X: U64 := 0x1000
  const Y: U64 := 0x2000

  function Set1(ordered: bool, loc: U64): Op { Op(Writes(ordered), loc, 1) }
  function Got(ordered: bool, loc: U64, v: U64): Op { Op(Reads(ordered), loc, v) }

  /** Message passing, the reader seeing the flag but not the data. */
  function MpTrace(ordered: bool): Trace {
    [[Set1(ordered, X), Set1(ordered, Y)], [Got(ordered, Y, 1), Got(ordered, X, 0)]]
  }

  /** Write-to-read causality, the last thread missing the first write. */
  function WrcTrace(): Trace {
    [[Set1(true, X)], [Got(true, X, 1), Set1(true, Y)], [Got(true, Y, 1), Got(true, X, 0)]]
  }

  /** Store buffering, both reads missing the other thread's write. */
  function SbTrace(): Trace {
    [[Set1(true, X), Got(true, Y, 0)], [Set1(true, Y), Got(true, X, 0)]]
  }

  lemma CycleOf4<T(!new)>(e: (T, T) -> bool, a: T, b: T, c: T, d: T)
    requires e(a, b) && e(b, c) && e(c, d) && e(d, a)
    ensures !Acyclic(e)
  {
    TcStep(e, a, b);
    TcStep(e, b, c);
    TcTrans(e, a, b, c);
    TcStep(e, c, d);
    TcTrans(e, a, c, d);
    TcStep(e, d, a);
    TcTrans(e, a, d, a);
  }

  /** A read of a non-zero value reads the only write that explains it. */
  lemma ReadsFrom(p: Program, x: Exec, w: Ev, r: Ev)
    requires ReadsExplained(p, x) && Rd(p, r) && Val(p, r) != 0
    requires forall v :: Explains(p, v, r) ==> v == w
    ensures Rf(x, w, r)
  {
    assert r in x.rf && Explains(p, x.rf[r], r);
  }

  /** A read no write explains read the initial value, so it is before every write of its location. */
  lemma ReadsInitial(p: Program, x: Exec, r: Ev, w: Ev)
    requires WellFormed(p, x) && Rd(p, r) && Wr(p, w) && SameLoc(p, r, w)
    requires forall v :: !Explains(p, v, r)
    ensures Fr(p, x, r, w)
  {
  }

  /** Access `e` of the guest program: what it is, where, and with which value. */
  predicate Is(p: Program, e: Ev, write: bool, loc: U64, val: U64) {
    (if write then Wr(p, e) else Rd(p, e)) && Loc(p, e) == loc && Val(p, e) == val
  }

  lemma IsAccess(ops: Trace, e: Ev, write: bool, loc: U64, val: U64)
    requires e.k == 0 && InTrace(ops, e) && ops[e.t][e.i].loc == loc && ops[e.t][e.i].val == val
    requires if write then KindAt(ops, e).Writes? else KindAt(ops, e).Reads?
    ensures Is(GuestOf(ops), e, write, loc, val)
  {
  }

  /** These are the only writes. */
  ghost predicate OnlyWrites(p: Program, wx: Ev, wy: Ev) {
    forall v :: Wr(p, v) ==> v == wx || v == wy
  }

  lemma OnlyWritesOf(ops: Trace, wx: Ev, wy: Ev)
    requires wx.k == 0 && wy.k == 0
    requires forall t, i :: 0 <= t < |ops| && 0 <= i < |ops[t]| && ops[t][i].kind.Writes? ==>
               (t == wx.t && i == wx.i) || (t == wy.t && i == wy.i)
    ensures OnlyWrites(GuestOf(ops), wx, wy)
  {
    forall v | Wr(GuestOf(ops), v)
      ensures v == wx || v == wy
    {
      GuestAccess(ops, v);
    }
  }

  lemma MpCycle(g: Program, x: Exec, wx: Ev, wy: Ev, ry: Ev, rx: Ev)
    requires Is(g, wx, true, X, 1) && Is(g, wy, true, Y, 1) && Is(g, ry, false, Y, 1) && Is(g, rx, false, X, 0)
    requires OnlyWrites(g, wx, wy) && Po(wx, wy) && Po(ry, rx) && wx.t != rx.t
    ensures !TsoConsistent(g, x)
  {
    if WellFormed(g, x) {
      ReadsFrom(g, x, wy, ry);
      ReadsInitial(g, x, rx, wx);
      CycleOf4(GhbOf(g, x), wx, wy, ry, rx);
    }
  }

  /** TSO forbids the message-passing outcome. */
  lemma MpForbiddenByTso(ordered: bool, x: Exec)
    ensures !TsoConsistent(GuestOf(MpTrace(ordered)), x)
  {
    var ops := MpTrace(ordered);
    IsAccess(ops, Ev(0, 0, 0), true, X, 1);
    IsAccess(ops, Ev(0, 1, 0), true, Y, 1);
    IsAccess(ops, Ev(1, 0, 0), false, Y, 1);
    IsAccess(ops, Ev(1, 1, 0), false, X, 0);
    OnlyWritesOf(ops, Ev(0, 0, 0), Ev(0, 1, 0));
    MpCycle(GuestOf(ops), x, Ev(0, 0, 0), Ev(0, 1, 0), Ev(1, 0, 0), Ev(1, 1, 0));
  }

  lemma AllOrderedIsPrivate(ops: Trace)
    requires forall t, i :: 0 <= t < |ops| && 0 <= i < |ops[t]| ==> ops[t][i].kind in {Reads(true), Writes(true)}
    ensures PlainIsPrivate(ops) && AllOrdered(ops)
  {
    forall e | Mem(GuestOf(ops), e)
      ensures OrderedAt(ops, e)
    {
      GuestAccess(ops, e);
    }
  }

  /** ... and so does every strength of the lowering. */
  lemma MpForbidden(s: Strength, xh: Exec, deps: set<(Ev, Ev)>)
    ensures !ArmConsistent(HostOf(MpTrace(true), s), xh, deps)
  {
    var ops := MpTrace(true);
    if ArmConsistent(HostOf(ops, s), xh, deps) {
      SinkCorresponds(ops, s, xh);
      AllOrderedIsPrivate(ops);
      DrfSound(ops, s, Sink(ops, s, xh), xh, deps);
      MpForbiddenByTso(true, Sink(ops, s, xh));
    }
  }

  lemma WrcCycle(g: Program, x: Exec, wx: Ev, r1: Ev, wy: Ev, ry: Ev, rx: Ev)
    requires Is(g, wx, true, X, 1) && Is(g, r1, false, X, 1) && Is(g, wy, true, Y, 1)
    requires Is(g, ry, false, Y, 1) && Is(g, rx, false, X, 0)
    requires OnlyWrites(g, wx, wy) && Po(r1, wy) && Po(ry, rx) && wx.t != r1.t && wy.t != ry.t
    ensures !TsoConsistent(g, x)
  {
    if WellFormed(g, x) {
      var e := GhbOf(g, x);
      ReadsFrom(g, x, wx, r1);
      ReadsFrom(g, x, wy, ry);
      ReadsInitial(g, x, rx, wx);
      if Acyclic(e) {
        TcStep(e, wx, r1);
        TcStep(e, r1, wy);
        TcTrans(e, wx, r1, wy);
        TcStep(e, wy, ry);
        TcTrans(e, wx, wy, ry);
        TcStep(e, ry, rx);
        TcTrans(e, wx, ry, rx);
        TcStep(e, rx, wx);
        TcTrans(e, wx, rx, wx);
      }
    }
  }

  /** Write-to-read causality is forbidden by every strength: AArch64 is multi-copy atomic. */
  lemma WrcForbidden(s: Strength, xh: Exec, deps: set<(Ev, Ev)>)
    ensures !ArmConsistent(HostOf(WrcTrace(), s), xh, deps)
  {
    var ops := WrcTrace();
    if ArmConsistent(HostOf(ops, s), xh, deps) {
      SinkCorresponds(ops, s, xh);
      AllOrderedIsPrivate(ops);
      DrfSound(ops, s, Sink(ops, s, xh), xh, deps);
      WrcForbiddenByTso(Sink(ops, s, xh));
    }
  }

  lemma WrcForbiddenByTso(x: Exec)
    ensures !TsoConsistent(GuestOf(WrcTrace()), x)
  {
    var ops := WrcTrace();
    IsAccess(ops, Ev(0, 0, 0), true, X, 1);
    IsAccess(ops, Ev(1, 0, 0), false, X, 1);
    IsAccess(ops, Ev(1, 1, 0), true, Y, 1);
    IsAccess(ops, Ev(2, 0, 0), false, Y, 1);
    IsAccess(ops, Ev(2, 1, 0), false, X, 0);
    OnlyWritesOf(ops, Ev(0, 0, 0), Ev(1, 1, 0));
    WrcCycle(GuestOf(ops), x, Ev(0, 0, 0), Ev(1, 0, 0), Ev(1, 1, 0), Ev(2, 0, 0), Ev(2, 1, 0));
  }

  /** A program of unfenced write-then-read threads on different locations. */
  ghost predicate OnlyStoreBuffering(p: Program) {
    && (forall e :: IsEv(p, e) ==> Mem(p, e))
    && (forall a, b :: Mem(p, a) && Mem(p, b) && Po(a, b) ==> Wr(p, a) && Rd(p, b) && !SameLoc(p, a, b))
  }

  lemma SbAllowedIn(p: Program, x: Exec)
    requires OnlyStoreBuffering(p) && WellFormed(p, x) && x.rf == map[]
    requires forall a, b :: a in x.co && b in x.co && SameLoc(p, a, b) ==> a == b
    ensures TsoConsistent(p, x)
  {
    var rank := (e: Ev) => if Wr(p, e) then 1 else 0;
    RankedAcyclic(GhbOf(p, x), rank);
    RankedAcyclic(CoherenceOf(p, x), rank);
  }

  function SbExec(): Exec {
    Exec(map[], map[Ev(0, 0, 0) := 0, Ev(1, 0, 0) := 0])
  }

  /** The events of a two-thread, two-access-each program. */
  ghost predicate Shape(p: Program, w1: Ev, w2: Ev, r1: Ev, r2: Ev) {
    && (forall e :: IsEv(p, e) ==> Mem(p, e) && (LabelAt(p, e) == W(PlainWrite) || LabelAt(p, e) == R(PlainRead)))
    && (forall e :: Wr(p, e) <==> e == w1 || e == w2)
    && (forall e :: Rd(p, e) <==> e == r1 || e == r2)
    && (forall e :: IsEv(p, e) ==> Loc(p, e) == if e.t == e.i then X else Y)
  }

  lemma SbShape(ops: Trace)
    requires ops == SbTrace()
    ensures Shape(GuestOf(ops), Ev(0, 0, 0), Ev(1, 0, 0), Ev(0, 1, 0), Ev(1, 1, 0))
    ensures forall r :: Rd(GuestOf(ops), r) ==> Val(GuestOf(ops), r) == 0
  {
  }

  lemma SbWellFormed(p: Program)
    requires Shape(p, Ev(0, 0, 0), Ev(1, 0, 0), Ev(0, 1, 0), Ev(1, 1, 0))
    requires forall r :: Rd(p, r) ==> Val(p, r) == 0
    ensures WellFormed(p, SbExec()) && OnlyStoreBuffering(p)
  {
  }

  lemma SbAllowedByTso()
    ensures TsoConsistent(GuestOf(SbTrace()), SbExec())
  {
    var ops := SbTrace();
    SbShape(ops);
    SbWellFormed(GuestOf(ops));
    SbAllowedIn(GuestOf(ops), SbExec());
  }

  /** Store buffering is visible under RCPC and the fence scheme, as on x86 ... */
  lemma SbAllowed(s: Strength)
    requires s != Sc
    ensures exists xh :: Corresponds(SbTrace(), s, SbExec(), xh) && ArmConsistent(HostOf(SbTrace(), s), xh, {})
  {
    SbAllowedByTso();
    AllOrderedIsPrivate(SbTrace());
    AdmittedExactlyTso(SbTrace(), s, SbExec());
  }

  lemma SbCycle(g: Program, x: Exec, wx: Ev, ry: Ev, wy: Ev, rx: Ev)
    requires Is(g, wx, true, X, 1) && Is(g, ry, false, Y, 0) && Is(g, wy, true, Y, 1) && Is(g, rx, false, X, 0)
    requires OnlyWrites(g, wx, wy) && Po(wx, ry) && Po(wy, rx)
    ensures !ScConsistent(g, x)
  {
    if WellFormed(g, x) {
      ReadsInitial(g, x, ry, wy);
      ReadsInitial(g, x, rx, wx);
      CycleOf4(ScOf(g, x), wx, ry, wy, rx);
    }
  }

  /** ... and never under the SC strength, which is stronger than TSO. */
  lemma SbForbiddenBySc(xh: Exec, deps: set<(Ev, Ev)>)
    ensures !ArmConsistent(HostOf(SbTrace(), Sc), xh, deps)
  {
    var ops := SbTrace();
    if ArmConsistent(HostOf(ops, Sc), xh, deps) {
      SinkCorresponds(ops, Sc, xh);
      AllOrderedIsPrivate(ops);
      ExactlySc(ops, Sink(ops, Sc, xh), xh, deps);
      SbNotSc(Sink(ops, Sc, xh));
    }
  }

  lemma SbNotSc(x: Exec)
    ensures !ScConsistent(GuestOf(SbTrace()), x)
  {
    var ops := SbTrace();
    IsAccess(ops, Ev(0, 0, 0), true, X, 1);
    IsAccess(ops, Ev(0, 1, 0), false, Y, 0);
    IsAccess(ops, Ev(1, 0, 0), true, Y, 1);
    IsAccess(ops, Ev(1, 1, 0), false, X, 0);
    OnlyWritesOf(ops, Ev(0, 0, 0), Ev(1, 0, 0));
    SbCycle(GuestOf(ops), x, Ev(0, 0, 0), Ev(0, 1, 0), Ev(1, 0, 0), Ev(1, 1, 0));
  }

  // ---- why plain accesses must be private ----

  function RaceExec(): Exec {
    Exec(map[Ev(1, 0, 0) := Ev(0, 1, 0)], map[Ev(0, 0, 0) := 0, Ev(0, 1, 0) := 0])
  }

  lemma RaceShape(ops: Trace, s: Strength)
    requires ops == MpTrace(false)
    ensures Shape(HostOf(ops, s), Ev(0, 0, 0), Ev(0, 1, 0), Ev(1, 0, 0), Ev(1, 1, 0))
    ensures forall e :: IsEv(HostOf(ops, s), e) ==> Val(HostOf(ops, s), e) == if e == Ev(1, 1, 0) then 0 else 1
  {
  }

  lemma RaceWellFormed(p: Program)
    requires Shape(p, Ev(0, 0, 0), Ev(0, 1, 0), Ev(1, 0, 0), Ev(1, 1, 0))
    requires forall e :: IsEv(p, e) ==> Val(p, e) == if e == Ev(1, 1, 0) then 0 else 1
    ensures WellFormed(p, RaceExec())
  {
  }

  /** Write of the flag, read of the flag, read of the data, write of the data: nothing else is ordered. */
  function RaceRank(e: Ev): int {
    if e.t == 0 then e.i + 1 else if e.i == 0 then 3 else 0
  }

  lemma RaceClimbs(p: Program, a: Ev, b: Ev)
    requires Shape(p, Ev(0, 0, 0), Ev(0, 1, 0), Ev(1, 0, 0), Ev(1, 1, 0))
    ensures CoherenceEdge(p, RaceExec(), a, b) ==> RaceRank(a) < RaceRank(b)
    ensures !Bob(p, a, b)
  {
  }

  lemma RaceConsistent(p: Program)
    requires Shape(p, Ev(0, 0, 0), Ev(0, 1, 0), Ev(1, 0, 0), Ev(1, 1, 0)) && WellFormed(p, RaceExec())
    ensures ArmConsistent(p, RaceExec(), {})
  {
    var x, rank := RaceExec(), (e: Ev) => RaceRank(e);
    forall a, b
      ensures CoherenceOf(p, x)(a, b) ==> rank(a) < rank(b)
      ensures ObOf(p, x, {})(a, b) ==> rank(a) < rank(b)
    {
      RaceClimbs(p, a, b);
    }
    RankedAcyclic(ObOf(p, x, {}), rank);
    RankedAcyclic(CoherenceOf(p, x), rank);
  }

  /** Two threads passing a message through LOCAL-class accesses: the lowered code admits, at every
      strength, an execution x86-TSO forbids. */
  lemma RacingPlainAccessesBreakTso(s: Strength)
    ensures ArmConsistent(HostOf(MpTrace(false), s), RaceExec(), {})
    ensures Corresponds(MpTrace(false), s, RaceExec(), RaceExec())
    ensures !TsoConsistent(GuestOf(MpTrace(false)), RaceExec())
  {
    var ops := MpTrace(false);
    RaceShape(ops, s);
    RaceWellFormed(HostOf(ops, s));
    RaceConsistent(HostOf(ops, s));
    RaceCorresponds(ops, s);
    MpForbiddenByTso(false, RaceExec());
  }

  lemma RaceCorresponds(ops: Trace, s: Strength)
    requires ops == MpTrace(false)
    ensures Corresponds(ops, s, RaceExec(), RaceExec())
  {
    forall e
      ensures Up(ops, s, e) == Down(e)
    {
      if InTrace(ops, e) {
        assert KindAt(ops, e) == Reads(false) || KindAt(ops, e) == Writes(false);
      }
    }
  }

  // ---- MFENCE ----

  /** A store of 1, an MFENCE and a load of 0, of any class. */
  predicate StoreFenceLoad(ops: seq<Executed>, mine: U64, other: U64) {
    && |ops| == 3 && ops[0].insn.op.Store? && ops[1].insn.op.Fence? && ops[2].insn.op.Load?
    && ops[1].insn.cc == 0
    && ops[0].loc == mine && ops[0].val == 1 && ops[2].loc == other && ops[2].val == 0
  }

  /** Store buffering with a fence in each thread, both loads missing the other's store. */
  predicate FencedSb(run: Run) {
    |run| == 2 && StoreFenceLoad(run[0], X, Y) && StoreFenceLoad(run[1], Y, X)
  }

  lemma FencedSbAccesses(run: Run, policy: Policy)
    requires FencedSb(run)
    ensures var g := GuestOf(TraceOf(run, policy));
            && Is(g, Ev(0, 0, 0), true, X, 1) && Is(g, Ev(0, 2, 0), false, Y, 0)
            && Is(g, Ev(1, 0, 0), true, Y, 1) && Is(g, Ev(1, 2, 0), false, X, 0)
            && OnlyWrites(g, Ev(0, 0, 0), Ev(1, 0, 0))
  {
    var ops := TraceOf(run, policy);
    IsAccess(ops, Ev(0, 0, 0), true, X, 1);
    IsAccess(ops, Ev(0, 2, 0), false, Y, 0);
    IsAccess(ops, Ev(1, 0, 0), true, Y, 1);
    IsAccess(ops, Ev(1, 2, 0), false, X, 0);
    OnlyWritesOf(ops, Ev(0, 0, 0), Ev(1, 0, 0));
  }

  /** The guest's MFENCE is a full barrier between store and load. */
  lemma MfenceBetween(run: Run, policy: Policy, t: nat)
    requires FencedSb(run) && t < 2
    ensures Fenced(GuestOf(TraceOf(run, policy)), A64.Full, Ev(t, 0, 0), Ev(t, 2, 0))
  {
    var g := GuestOf(TraceOf(run, policy));
    assert IsEv(g, Ev(t, 1, 0)) && LabelAt(g, Ev(t, 1, 0)) == F(A64.Full);
  }

  /** On the host it still is. */
  lemma FencedPairOrdered(ops: Trace, s: Strength, x: Exec, deps: set<(Ev, Ev)>, a: Ev, b: Ev)
    requires Mem(GuestOf(ops), a) && Mem(GuestOf(ops), b) && Po(a, b) && Fenced(GuestOf(ops), A64.Full, a, b)
    ensures ObEdge(HostOf(ops, s), x, deps, Up(ops, s, a), Up(ops, s, b))
  {
    GuestAccess(ops, a);
    GuestAccess(ops, b);
    Accesses(ops, s, a);
    Accesses(ops, s, b);
    PoUp(ops, s, a, b);
    FenceUp(ops, s, A64.Full, a, b);
  }

  lemma MissOrdered(ops: Trace, s: Strength, xg: Exec, xh: Exec, deps: set<(Ev, Ev)>, r: Ev, w: Ev)
    requires Corresponds(ops, s, xg, xh) && Fr(GuestOf(ops), xg, r, w) && r.t != w.t
    ensures ObEdge(HostOf(ops, s), xh, deps, Up(ops, s, r), Up(ops, s, w))
  {
    ComUp(ops, s, xg, xh, r, w);
  }

  /** No store explains a load of 0 if both stored 1. */
  lemma NothingExplains(g: Program, wx: Ev, wy: Ev, r: Ev, loc: U64)
    requires Is(g, wx, true, X, 1) && Is(g, wy, true, Y, 1) && OnlyWrites(g, wx, wy) && Is(g, r, false, loc, 0)
    ensures forall v :: !Explains(g, v, r)
  {
  }

  /** One thread's store and fenced load, and the other thread's store that the load missed. */
  lemma FencedHalf(ops: Trace, s: Strength, xg: Exec, xh: Exec, deps: set<(Ev, Ev)>, w: Ev, r: Ev, missed: Ev)
    requires Corresponds(ops, s, xg, xh) && WellFormed(GuestOf(ops), xg)
    requires Mem(GuestOf(ops), w) && Po(w, r) && Fenced(GuestOf(ops), A64.Full, w, r) && r.t != missed.t
    requires Rd(GuestOf(ops), r) && Wr(GuestOf(ops), missed) && SameLoc(GuestOf(ops), r, missed)
    requires forall v :: !Explains(GuestOf(ops), v, r)
    ensures ObOf(HostOf(ops, s), xh, deps)(Up(ops, s, w), Up(ops, s, r))
    ensures ObOf(HostOf(ops, s), xh, deps)(Up(ops, s, r), Up(ops, s, missed))
  {
    ReadsInitial(GuestOf(ops), xg, r, missed);
    FencedPairOrdered(ops, s, xh, deps, w, r);
    MissOrdered(ops, s, xg, xh, deps, r, missed);
  }

  /** The four accesses of the shape. */
  ghost predicate FencedShape(g: Program, wx: Ev, ry: Ev, wy: Ev, rx: Ev) {
    && Is(g, wx, true, X, 1) && Is(g, ry, false, Y, 0) && Is(g, wy, true, Y, 1) && Is(g, rx, false, X, 0)
    && OnlyWrites(g, wx, wy) && wx.t != wy.t
    && Po(wx, ry) && Fenced(g, A64.Full, wx, ry) && Po(wy, rx) && Fenced(g, A64.Full, wy, rx)
  }

  lemma ShapeParts(g: Program, wx: Ev, ry: Ev, wy: Ev, rx: Ev)
    requires FencedShape(g, wx, ry, wy, rx)
    ensures Mem(g, wx) && Rd(g, ry) && Wr(g, wy) && SameLoc(g, ry, wy)
    ensures ry.t != wy.t && (forall v :: !Explains(g, v, ry))
    ensures Mem(g, wy) && Rd(g, rx) && Wr(g, wx) && SameLoc(g, rx, wx)
    ensures rx.t != wx.t && (forall v :: !Explains(g, v, rx))
  {
    NothingExplains(g, wx, wy, ry, Y);
    NothingExplains(g, wx, wy, rx, X);
  }

  lemma FencedCycle(ops: Trace, s: Strength, xg: Exec, xh: Exec, deps: set<(Ev, Ev)>, wx: Ev, ry: Ev, wy: Ev, rx: Ev)
    requires Corresponds(ops, s, xg, xh) && WellFormed(GuestOf(ops), xg) && FencedShape(GuestOf(ops), wx, ry, wy, rx)
    ensures !Acyclic(ObOf(HostOf(ops, s), xh, deps))
  {
    ShapeParts(GuestOf(ops), wx, ry, wy, rx);
    FencedHalf(ops, s, xg, xh, deps, wx, ry, wy);
    FencedHalf(ops, s, xg, xh, deps, wy, rx, wx);
    CycleOf4(ObOf(HostOf(ops, s), xh, deps), Up(ops, s, wx), Up(ops, s, ry), Up(ops, s, wy), Up(ops, s, rx));
  }

  /** Store buffering across an MFENCE is forbidden for the emitted code at every strength, under either
      policy and whatever the classes. */
  lemma FencedSbForbidden(run: Run, policy: Policy, s: Strength, xh: Exec, deps: set<(Ev, Ev)>)
    requires FencedSb(run) && Translates(run, policy, s)
    ensures !ArmConsistent(EmittedProgram(run, policy, s), xh, deps)
  {
    EmittedIsHost(run, policy, s);
    var ops := TraceOf(run, policy);
    if ArmConsistent(HostOf(ops, s), xh, deps) {
      SinkCorresponds(ops, s, xh);
      WellFormedBelow(ops, s, Sink(ops, s, xh), xh);
      FencedSbAccesses(run, policy);
      MfenceBetween(run, policy, 0);
      MfenceBetween(run, policy, 1);
      FencedCycle(ops, s, Sink(ops, s, xh), xh, deps, Ev(0, 0, 0), Ev(0, 2, 0), Ev(1, 0, 0), Ev(1, 2, 0));
    }
  }
}
