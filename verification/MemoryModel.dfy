/** Candidate executions and three axiomatic memory models over them: the ordered-before model
    of AArch64 (section B2.3 of DDI 0487), x86-TSO, and sequential consistency. All accesses are
    aligned and of one size. */
module MemoryModel {
  import opened Words
  import opened A64
  import opened Graphs

  datatype ReadKind = PlainRead | Acquire | AcquirePc
  datatype WriteKind = PlainWrite | Release

  datatype Label = R(rk: ReadKind) | W(wk: WriteKind) | F(barrier: Barrier)

  /** The memory labels of one executed guest operation, with the location and value of its access. */
  datatype Slot = Slot(labels: seq<Label>, loc: U64, val: U64)

  /** One sequence of slots per thread. */
  type Program = seq<seq<Slot>>

  /** Label `k` of slot `i` of thread `t`. */
  datatype Ev = Ev(t: nat, i: nat, k: nat)

  predicate IsEv(p: Program, e: Ev) {
    e.t < |p| && e.i < |p[e.t]| && e.k < |p[e.t][e.i].labels|
  }

  function LabelAt(p: Program, e: Ev): Label
    requires IsEv(p, e)
  {
    p[e.t][e.i].labels[e.k]
  }

  predicate Rd(p: Program, e: Ev) { IsEv(p, e) && LabelAt(p, e).R? }
  predicate Wr(p: Program, e: Ev) { IsEv(p, e) && LabelAt(p, e).W? }
  predicate Mem(p: Program, e: Ev) { Rd(p, e) || Wr(p, e) }

  function Loc(p: Program, e: Ev): U64 requires IsEv(p, e) { p[e.t][e.i].loc }
  function Val(p: Program, e: Ev): U64 requires IsEv(p, e) { p[e.t][e.i].val }

  predicate SameLoc(p: Program, a: Ev, b: Ev) {
    Mem(p, a) && Mem(p, b) && Loc(p, a) == Loc(p, b)
  }

  /** Program order. */
  predicate Po(a: Ev, b: Ev) {
    a.t == b.t && (a.i < b.i || (a.i == b.i && a.k < b.k))
  }

  /** Where each read takes its value from (absent: the initial value 0) and each write's place
      in its location's coherence order. */
  datatype Exec = Exec(rf: map<Ev, Ev>, co: map<Ev, nat>)

  /** A read reads some write of its location and value, or the initial value. */
  ghost predicate ReadsExplained(p: Program, x: Exec) {
    && (forall r :: r in x.rf ==> Explains(p, x.rf[r], r))
    && (forall r :: Rd(p, r) && r !in x.rf ==> Val(p, r) == 0)
  }

  predicate Explains(p: Program, w: Ev, r: Ev) {
    Rd(p, r) && Wr(p, w) && SameLoc(p, r, w) && Val(p, r) == Val(p, w)
  }

  /** Every write has a place, and no two of one location share it. */
  ghost predicate WritesPlaced(p: Program, x: Exec) {
    && (forall w :: w in x.co <==> Wr(p, w))
    && (forall a, b :: a in x.co && b in x.co && a != b && SameLoc(p, a, b) ==> x.co[a] != x.co[b])
  }

  ghost predicate WellFormed(p: Program, x: Exec) {
    ReadsExplained(p, x) && WritesPlaced(p, x)
  }

  predicate Rf(x: Exec, a: Ev, b: Ev) {
    b in x.rf && x.rf[b] == a
  }

  predicate Co(p: Program, x: Exec, a: Ev, b: Ev) {
    SameLoc(p, a, b) && a in x.co && b in x.co && x.co[a] < x.co[b]
  }

  /** From a read to the writes that overwrite what it read. */
  predicate Fr(p: Program, x: Exec, a: Ev, b: Ev) {
    Rd(p, a) && SameLoc(p, a, b) && b in x.co && (a in x.rf ==> x.rf[a] in x.co && x.co[x.rf[a]] < x.co[b])
  }

  predicate Com(p: Program, x: Exec, a: Ev, b: Ev) {
    Rf(x, a, b) || Co(p, x, a, b) || Fr(p, x, a, b)
  }

  // ---- coherence: every model has it ----

  predicate CoherenceEdge(p: Program, x: Exec, a: Ev, b: Ev) {
    (Po(a, b) && SameLoc(p, a, b)) || Com(p, x, a, b)
  }

  ghost function CoherenceOf(p: Program, x: Exec): (Ev, Ev) -> bool {
    (a: Ev, b: Ev) => CoherenceEdge(p, x, a, b)
  }

  ghost predicate Coherent(p: Program, x: Exec) {
    Acyclic(CoherenceOf(p, x))
  }

  // ---- AArch64 ----

  /** A barrier of this kind lies between the two in program order. */
  ghost predicate Fenced(p: Program, kind: Barrier, a: Ev, b: Ev) {
    exists c :: IsEv(p, c) && LabelAt(p, c) == F(kind) && Po(a, c) && Po(c, b)
  }

  /** Barrier-ordered-before. */
  ghost predicate Bob(p: Program, a: Ev, b: Ev) {
    && Mem(p, a) && Mem(p, b) && Po(a, b)
    && (|| Fenced(p, Full, a, b)
        || (LabelAt(p, a) == W(Release) && LabelAt(p, b) == R(Acquire))
        || (Rd(p, a) && Fenced(p, LoadOnly, a, b))
        || (Wr(p, a) && Wr(p, b) && Fenced(p, StoreOnly, a, b))
        || LabelAt(p, a) == R(Acquire) || LabelAt(p, a) == R(AcquirePc)
        || LabelAt(p, b) == W(Release))
  }

  /** Dependencies and local write successors: from a read to anything later, or between two
      writes of one location. Which of these edges exist depends on the code; the theorems hold
      for every choice. */
  ghost predicate LocalEdges(p: Program, deps: set<(Ev, Ev)>) {
    forall a, b :: (a, b) in deps ==>
      Mem(p, a) && Mem(p, b) && Po(a, b) && (Rd(p, a) || (Wr(p, b) && SameLoc(p, a, b)))
  }

  ghost predicate ObEdge(p: Program, x: Exec, deps: set<(Ev, Ev)>, a: Ev, b: Ev) {
    (Com(p, x, a, b) && a.t != b.t) || Bob(p, a, b) || (a, b) in deps
  }

  ghost function ObOf(p: Program, x: Exec, deps: set<(Ev, Ev)>): (Ev, Ev) -> bool {
    (a: Ev, b: Ev) => ObEdge(p, x, deps, a, b)
  }

  ghost predicate ArmConsistent(p: Program, x: Exec, deps: set<(Ev, Ev)>) {
    WellFormed(p, x) && LocalEdges(p, deps) && Coherent(p, x) && Acyclic(ObOf(p, x, deps))
  }

  // ---- x86-TSO ----

  /** Preserved program order, and order through MFENCE. */
  ghost predicate TsoOrder(p: Program, a: Ev, b: Ev) {
    Mem(p, a) && Mem(p, b) && Po(a, b) && (!(Wr(p, a) && Rd(p, b)) || Fenced(p, Full, a, b))
  }

  ghost predicate GhbEdge(p: Program, x: Exec, a: Ev, b: Ev) {
    TsoOrder(p, a, b) || (Rf(x, a, b) && a.t != b.t) || Co(p, x, a, b) || Fr(p, x, a, b)
  }

  ghost function GhbOf(p: Program, x: Exec): (Ev, Ev) -> bool {
    (a: Ev, b: Ev) => GhbEdge(p, x, a, b)
  }

  ghost predicate TsoConsistent(p: Program, x: Exec) {
    WellFormed(p, x) && Coherent(p, x) && Acyclic(GhbOf(p, x))
  }

  // ---- sequential consistency ----

  predicate ScEdge(p: Program, x: Exec, a: Ev, b: Ev) {
    (Mem(p, a) && Mem(p, b) && Po(a, b)) || Com(p, x, a, b)
  }

  ghost function ScOf(p: Program, x: Exec): (Ev, Ev) -> bool {
    (a: Ev, b: Ev) => ScEdge(p, x, a, b)
  }

  ghost predicate ScConsistent(p: Program, x: Exec) {
    WellFormed(p, x) && Acyclic(ScOf(p, x))
  }

  // ---- facts all models share ----

  /** In a coherent execution communication inside a thread follows program order. */
  lemma ComFollowsPo(p: Program, x: Exec, a: Ev, b: Ev)
    requires WellFormed(p, x) && Coherent(p, x) && Com(p, x, a, b) && a.t == b.t
    ensures Po(a, b)
  {
    var e := CoherenceOf(p, x);
    if !Po(a, b) {
      if a == b {
        TcStep(e, a, a);
      } else {
        assert Po(b, a);
        assert e(a, b) && e(b, a);
        TcStep(e, a, b);
        TcStep(e, b, a);
        TcTrans(e, a, b, a);
      }
    }
  }

  /** TSO's order inside a thread is transitive: a write-to-read pair in the middle of which some
      access is ordered both ways has a fence in it. */
  lemma TsoOrderTrans(p: Program, a: Ev, b: Ev, c: Ev)
    requires TsoOrder(p, a, b) && TsoOrder(p, b, c)
    ensures TsoOrder(p, a, c)
  {
    if Wr(p, a) && Rd(p, c) {
      if Rd(p, b) {
        var f :| IsEv(p, f) && LabelAt(p, f) == F(Full) && Po(a, f) && Po(f, b);
        assert Po(f, c);
      } else {
        var f :| IsEv(p, f) && LabelAt(p, f) == F(Full) && Po(b, f) && Po(f, c);
        assert Po(a, f);
      }
    }
  }
}
