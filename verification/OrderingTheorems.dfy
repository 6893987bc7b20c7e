/** The ordering theorems: DRF soundness of every strength, exactness of RCPC and the fence
    scheme for x86-TSO, exactness of the SC strength for sequential consistency. */
module OrderingTheorems {
  import opened Words
  import opened A64
  import opened Graphs
  import opened MemoryModel
  import opened Translate
  import opened Ordering

  // ---- soundness ----

  /** Only one thread ever touches this access's location. */
  ghost predicate PrivateAt(ops: Trace, e: Ev)
    requires IsEv(GuestOf(ops), e)
  {
    forall b :: Mem(GuestOf(ops), b) && Loc(GuestOf(ops), b) == Loc(GuestOf(ops), e) ==> b.t == e.t
  }

  /** Every access lowered to a plain LDR or STR is to memory of its own thread. */
  ghost predicate PlainIsPrivate(ops: Trace) {
    forall e :: Mem(GuestOf(ops), e) && !OrderedAt(ops, e) ==> PrivateAt(ops, e)
  }

  /** A global-happens-before edge is TSO order inside a thread, or communication between two
      threads, and then both ends are ordered accesses. */
  lemma GhbSplits(ops: Trace, x: Exec, a: Ev, b: Ev)
    requires WellFormed(GuestOf(ops), x) && Coherent(GuestOf(ops), x) && PlainIsPrivate(ops)
    requires GhbEdge(GuestOf(ops), x, a, b)
    ensures TsoOrder(GuestOf(ops), a, b)
         || (Com(GuestOf(ops), x, a, b) && a.t != b.t && OrderedAt(ops, a) && OrderedAt(ops, b))
  {
    var g := GuestOf(ops);
    if !TsoOrder(g, a, b) {
      assert SameLoc(g, a, b);
      if a.t == b.t {
        ComFollowsPo(g, x, a, b);
      } else {
        assert !PrivateAt(ops, a) && !PrivateAt(ops, b);
      }
    }
  }

  lemma CrossThread(ops: Trace, s: Strength, xg: Exec, xh: Exec, deps: set<(Ev, Ev)>, a: Ev, b: Ev)
    requires Corresponds(ops, s, xg, xh) && Com(GuestOf(ops), xg, a, b) && a.t != b.t
    ensures Tc(ObOf(HostOf(ops, s), xh, deps), Up(ops, s, a), Up(ops, s, b))
  {
    ComUp(ops, s, xg, xh, a, b);
    TcStep(ObOf(HostOf(ops, s), xh, deps), Up(ops, s, a), Up(ops, s, b));
  }

  lemma InThread(ops: Trace, s: Strength, xh: Exec, deps: set<(Ev, Ev)>, a: Ev, b: Ev)
    requires TsoOrder(GuestOf(ops), a, b) && OrderedAt(ops, a) && OrderedAt(ops, b)
    ensures Tc(ObOf(HostOf(ops, s), xh, deps), Up(ops, s, a), Up(ops, s, b))
  {
    TsoOrderUp(ops, s, a, b);
    TcStep(ObOf(HostOf(ops, s), xh, deps), Up(ops, s, a), Up(ops, s, b));
  }

  /** Global happens-before contracts to the host's ordered-before. */
  lemma GhbAcyclic(ops: Trace, s: Strength, xg: Exec, xh: Exec, deps: set<(Ev, Ev)>)
    requires WellFormed(GuestOf(ops), xg) && Coherent(GuestOf(ops), xg) && PlainIsPrivate(ops)
    requires Corresponds(ops, s, xg, xh) && Acyclic(ObOf(HostOf(ops, s), xh, deps))
    ensures Acyclic(GhbOf(GuestOf(ops), xg))
  {
    var g, ghb, ob := GuestOf(ops), GhbOf(GuestOf(ops), xg), ObOf(HostOf(ops, s), xh, deps);
    var inner := (a: Ev, b: Ev) => TsoOrder(g, a, b);
    var node := (a: Ev) => OrderedAt(ops, a);
    var up := (a: Ev) => Up(ops, s, a);
    forall a, b | ghb(a, b)
      ensures inner(a, b) || (node(a) && node(b) && Tc(ob, up(a), up(b)))
    {
      GhbSplits(ops, xg, a, b);
      if !inner(a, b) {
        CrossThread(ops, s, xg, xh, deps, a, b);
      }
    }
    forall a, b, c | inner(a, b) && inner(b, c)
      ensures inner(a, c)
    {
      TsoOrderTrans(g, a, b, c);
    }
    forall a, b | inner(a, b) && node(a) && node(b)
      ensures Tc(ob, up(a), up(b))
    {
      InThread(ops, s, xh, deps, a, b);
    }
    ContractedAcyclic(ghb, inner, node, ob, up);
  }

  /** DRF soundness: if plain accesses are private, every execution AArch64 admits of the lowered
      code is one x86-TSO admits of the guest program, private accesses included. */
  lemma DrfSound(ops: Trace, s: Strength, xg: Exec, xh: Exec, deps: set<(Ev, Ev)>)
    requires PlainIsPrivate(ops) && Corresponds(ops, s, xg, xh)
    requires ArmConsistent(HostOf(ops, s), xh, deps)
    ensures TsoConsistent(GuestOf(ops), xg)
  {
    WellFormedBelow(ops, s, xg, xh);
    CoherentBelow(ops, s, xg, xh);
    GhbAcyclic(ops, s, xg, xh, deps);
  }

  // ---- exactness ----

  /** No access is lowered to a plain LDR or STR. */
  ghost predicate AllOrdered(ops: Trace) {
    forall e :: Mem(GuestOf(ops), e) ==> OrderedAt(ops, e)
  }

  /** A host barrier between two accesses is a fence operation, or the one-sided barrier of an access. */
  lemma FenceDown(ops: Trace, s: Strength, a: Ev, b: Ev)
    requires Mem(HostOf(ops, s), a) && Mem(HostOf(ops, s), b) && Fenced(HostOf(ops, s), Full, a, b)
    ensures Fenced(GuestOf(ops), Full, Down(a), Down(b))
  {
    var g, h := GuestOf(ops), HostOf(ops, s);
    var c :| IsEv(h, c) && LabelAt(h, c) == F(Full) && Po(a, c) && Po(c, b);
    HostAccess(ops, s, a);
    HostAccess(ops, s, b);
    assert IsEv(g, c) && LabelAt(g, c) == F(Full);
    assert Po(Down(a), c) && Po(c, Down(b));
  }

  /** Without LDAR, everything ordered-before is ordered by TSO. */
  lemma BobDown(ops: Trace, s: Strength, a: Ev, b: Ev)
    requires s != Sc && Bob(HostOf(ops, s), a, b)
    ensures TsoOrder(GuestOf(ops), Down(a), Down(b))
  {
    HostAccess(ops, s, a);
    HostAccess(ops, s, b);
    PoDown(ops, s, a, b);
    if Fenced(HostOf(ops, s), Full, a, b) {
      FenceDown(ops, s, a, b);
    }
  }

  lemma DepDown(ops: Trace, s: Strength, deps: set<(Ev, Ev)>, a: Ev, b: Ev)
    requires LocalEdges(HostOf(ops, s), deps) && (a, b) in deps
    ensures TsoOrder(GuestOf(ops), Down(a), Down(b))
  {
    HostAccess(ops, s, a);
    HostAccess(ops, s, b);
    PoDown(ops, s, a, b);
  }

  lemma ObDown(ops: Trace, s: Strength, xg: Exec, xh: Exec, deps: set<(Ev, Ev)>, a: Ev, b: Ev)
    requires s != Sc && Corresponds(ops, s, xg, xh) && LocalEdges(HostOf(ops, s), deps)
    requires ObEdge(HostOf(ops, s), xh, deps, a, b)
    ensures GhbEdge(GuestOf(ops), xg, Down(a), Down(b))
  {
    if Bob(HostOf(ops, s), a, b) {
      BobDown(ops, s, a, b);
    } else if (a, b) in deps {
      DepDown(ops, s, deps, a, b);
    } else {
      ComDown(ops, s, xg, xh, a, b);
    }
  }

  /** RCPC and the fence scheme never forbid what TSO allows, whatever is ordered or private. */
  lemma TsoAdmitted(ops: Trace, s: Strength, xg: Exec, xh: Exec, deps: set<(Ev, Ev)>)
    requires s != Sc && Corresponds(ops, s, xg, xh) && LocalEdges(HostOf(ops, s), deps)
    requires TsoConsistent(GuestOf(ops), xg)
    ensures ArmConsistent(HostOf(ops, s), xh, deps)
  {
    WellFormedAbove(ops, s, xg, xh);
    CoherentAbove(ops, s, xg, xh);
    var ob, ghb := ObOf(HostOf(ops, s), xh, deps), GhbOf(GuestOf(ops), xg);
    var down := (e: Ev) => Down(e);
    forall a, b | ob(a, b)
      ensures Tc(ghb, down(a), down(b))
    {
      ObDown(ops, s, xg, xh, deps, a, b);
      TcStep(ghb, down(a), down(b));
    }
    AcyclicMaps(ob, ghb, down);
  }

  /** RCPC and the fence scheme are exactly x86-TSO. */
  lemma ExactlyTso(ops: Trace, s: Strength, xg: Exec, xh: Exec, deps: set<(Ev, Ev)>)
    requires s != Sc && PlainIsPrivate(ops) && Corresponds(ops, s, xg, xh) && LocalEdges(HostOf(ops, s), deps)
    ensures ArmConsistent(HostOf(ops, s), xh, deps) <==> TsoConsistent(GuestOf(ops), xg)
  {
    if ArmConsistent(HostOf(ops, s), xh, deps) {
      DrfSound(ops, s, xg, xh, deps);
    }
    if TsoConsistent(GuestOf(ops), xg) {
      TsoAdmitted(ops, s, xg, xh, deps);
    }
  }

  /** With LDAR and STLR every pair of accesses of a thread is ordered. */
  lemma PoIsBob(ops: Trace, a: Ev, b: Ev)
    requires AllOrdered(ops) && Mem(GuestOf(ops), a) && Mem(GuestOf(ops), b) && Po(a, b)
    ensures Bob(HostOf(ops, Sc), Up(ops, Sc, a), Up(ops, Sc, b))
  {
    GuestAccess(ops, a);
    GuestAccess(ops, b);
    Accesses(ops, Sc, a);
    Accesses(ops, Sc, b);
    PoUp(ops, Sc, a, b);
  }

  lemma ScEdgeUp(ops: Trace, xg: Exec, xh: Exec, deps: set<(Ev, Ev)>, a: Ev, b: Ev)
    requires AllOrdered(ops) && Corresponds(ops, Sc, xg, xh)
    requires WellFormed(GuestOf(ops), xg) && Coherent(GuestOf(ops), xg) && ScEdge(GuestOf(ops), xg, a, b)
    ensures ObEdge(HostOf(ops, Sc), xh, deps, Up(ops, Sc, a), Up(ops, Sc, b))
  {
    var g := GuestOf(ops);
    if Com(g, xg, a, b) && a.t != b.t {
      ComUp(ops, Sc, xg, xh, a, b);
    } else {
      if Com(g, xg, a, b) {
        ComFollowsPo(g, xg, a, b);
        assert SameLoc(g, a, b);
      }
      PoIsBob(ops, a, b);
    }
  }

  lemma ScEdgeDown(ops: Trace, xg: Exec, xh: Exec, deps: set<(Ev, Ev)>, a: Ev, b: Ev)
    requires Corresponds(ops, Sc, xg, xh) && LocalEdges(HostOf(ops, Sc), deps)
    requires ObEdge(HostOf(ops, Sc), xh, deps, a, b)
    ensures ScEdge(GuestOf(ops), xg, Down(a), Down(b))
  {
    if Com(HostOf(ops, Sc), xh, a, b) {
      ComDown(ops, Sc, xg, xh, a, b);
    } else {
      HostAccess(ops, Sc, a);
      HostAccess(ops, Sc, b);
      PoDown(ops, Sc, a, b);
    }
  }

  lemma ScIsCoherent(p: Program, x: Exec)
    requires ScConsistent(p, x)
    ensures Coherent(p, x)
  {
    var c, sc := CoherenceOf(p, x), ScOf(p, x);
    var id := (e: Ev) => e;
    forall a, b | c(a, b)
      ensures Tc(sc, id(a), id(b))
    {
      TcStep(sc, a, b);
    }
    AcyclicMaps(c, sc, id);
  }

  /** The SC strength is exactly sequential consistency. */
  lemma ExactlySc(ops: Trace, xg: Exec, xh: Exec, deps: set<(Ev, Ev)>)
    requires AllOrdered(ops) && Corresponds(ops, Sc, xg, xh) && LocalEdges(HostOf(ops, Sc), deps)
    ensures ArmConsistent(HostOf(ops, Sc), xh, deps) <==> ScConsistent(GuestOf(ops), xg)
  {
    if ArmConsistent(HostOf(ops, Sc), xh, deps) {
      ArmIsSc(ops, xg, xh, deps);
    }
    if ScConsistent(GuestOf(ops), xg) {
      ScAdmitted(ops, xg, xh, deps);
    }
  }

  lemma ArmIsSc(ops: Trace, xg: Exec, xh: Exec, deps: set<(Ev, Ev)>)
    requires AllOrdered(ops) && Corresponds(ops, Sc, xg, xh) && ArmConsistent(HostOf(ops, Sc), xh, deps)
    ensures ScConsistent(GuestOf(ops), xg)
  {
    WellFormedBelow(ops, Sc, xg, xh);
    CoherentBelow(ops, Sc, xg, xh);
    var ob, sc := ObOf(HostOf(ops, Sc), xh, deps), ScOf(GuestOf(ops), xg);
    var up := (e: Ev) => Up(ops, Sc, e);
    forall a, b | sc(a, b)
      ensures Tc(ob, up(a), up(b))
    {
      ScEdgeUp(ops, xg, xh, deps, a, b);
      TcStep(ob, up(a), up(b));
    }
    AcyclicMaps(sc, ob, up);
  }

  lemma ScAdmitted(ops: Trace, xg: Exec, xh: Exec, deps: set<(Ev, Ev)>)
    requires Corresponds(ops, Sc, xg, xh) && LocalEdges(HostOf(ops, Sc), deps) && ScConsistent(GuestOf(ops), xg)
    ensures ArmConsistent(HostOf(ops, Sc), xh, deps)
  {
    WellFormedAbove(ops, Sc, xg, xh);
    ScIsCoherent(GuestOf(ops), xg);
    CoherentAbove(ops, Sc, xg, xh);
    var ob, sc := ObOf(HostOf(ops, Sc), xh, deps), ScOf(GuestOf(ops), xg);
    var down := (e: Ev) => Down(e);
    forall a, b | ob(a, b)
      ensures Tc(sc, down(a), down(b))
    {
      ScEdgeDown(ops, xg, xh, deps, a, b);
      TcStep(sc, down(a), down(b));
    }
    AcyclicMaps(ob, sc, down);
  }
}
