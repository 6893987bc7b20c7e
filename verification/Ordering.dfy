/** Memory ordering of the lowered code: which guest executions the emitted instructions admit.
    A trace is what each thread executed, operation by operation; the guest program and the
    host program are its memory labels before and after lowering. */
module Ordering {
  import opened Words
  import opened A64
  import opened Graphs
  import opened MemoryModel
  import opened Translate

  /** What an executed operation is to the memory system. `ordered` accesses are lowered to the
      chosen strength, the others to plain LDR or STR. */
  datatype Kind = Reads(ordered: bool) | Writes(ordered: bool) | Fences(barrier: Barrier) | Silent

  datatype Op = Op(kind: Kind, loc: U64, val: U64)

  type Trace = seq<seq<Op>>

  function GuestLabels(k: Kind): seq<Label> {
    match k
    case Reads(_) => [R(PlainRead)]
    case Writes(_) => [W(PlainWrite)]
    case Fences(b) => [F(b)]
    case Silent => []
  }

  function HostLabels(k: Kind, s: Strength): seq<Label> {
    match k
    case Reads(ordered) =>
      if !ordered then [R(PlainRead)]
      else if s.Tso? then [R(PlainRead), F(LoadOnly)]
      else if s.Rcpc? then [R(AcquirePc)]
      else [R(Acquire)]
    case Writes(ordered) =>
      if !ordered then [W(PlainWrite)]
      else if s.Tso? then [F(StoreOnly), W(PlainWrite)]
      else [W(Release)]
    case Fences(b) => [F(b)]
    case Silent => []
  }

  function GuestOf(ops: Trace): Program {
    seq(|ops|, t requires 0 <= t < |ops| =>
      seq(|ops[t]|, i requires 0 <= i < |ops[t]| =>
        Slot(GuestLabels(ops[t][i].kind), ops[t][i].loc, ops[t][i].val)))
  }

  function HostOf(ops: Trace, s: Strength): Program {
    seq(|ops|, t requires 0 <= t < |ops| =>
      seq(|ops[t]|, i requires 0 <= i < |ops[t]| =>
        Slot(HostLabels(ops[t][i].kind, s), ops[t][i].loc, ops[t][i].val)))
  }

  predicate InTrace(ops: Trace, e: Ev) {
    e.t < |ops| && e.i < |ops[e.t]|
  }

  function KindAt(ops: Trace, e: Ev): Kind
    requires InTrace(ops, e)
  {
    ops[e.t][e.i].kind
  }

  /** The host access of a guest access, and back. A fenced store's access is its second label. */
  function Up(ops: Trace, s: Strength, e: Ev): Ev {
    if InTrace(ops, e) && KindAt(ops, e) == Writes(true) && s.Tso? then Ev(e.t, e.i, 1) else Ev(e.t, e.i, 0)
  }

  function Down(e: Ev): Ev {
    Ev(e.t, e.i, 0)
  }

  lemma Accesses(ops: Trace, s: Strength, e: Ev)
    requires e.k == 0
    ensures Rd(GuestOf(ops), e) <==> Rd(HostOf(ops, s), Up(ops, s, e))
    ensures Wr(GuestOf(ops), e) <==> Wr(HostOf(ops, s), Up(ops, s, e))
    ensures Rd(GuestOf(ops), e) <==> InTrace(ops, e) && KindAt(ops, e).Reads?
    ensures Wr(GuestOf(ops), e) <==> InTrace(ops, e) && KindAt(ops, e).Writes?
  {
  }

  /** Every host access comes from exactly one guest access. */
  lemma HostAccess(ops: Trace, s: Strength, h: Ev)
    requires Mem(HostOf(ops, s), h)
    ensures Up(ops, s, Down(h)) == h && Mem(GuestOf(ops), Down(h))
    ensures Rd(GuestOf(ops), Down(h)) <==> Rd(HostOf(ops, s), h)
    ensures Wr(GuestOf(ops), Down(h)) <==> Wr(HostOf(ops, s), h)
  {
  }

  lemma GuestAccess(ops: Trace, e: Ev)
    requires Mem(GuestOf(ops), e)
    ensures e.k == 0 && InTrace(ops, e) && (KindAt(ops, e).Reads? || KindAt(ops, e).Writes?)
  {
  }

  // ---- guest and host executions ----

  /** Guest access `e` is host access `h`. */
  predicate Twin(ops: Trace, s: Strength, e: Ev, h: Ev) {
    h == Up(ops, s, e) && e == Down(h)
  }

  ghost predicate SameRf(ops: Trace, s: Strength, xg: Exec, xh: Exec) {
    && (forall r :: r in xg.rf ==>
          var h := Up(ops, s, r); Twin(ops, s, r, h) && h in xh.rf && Twin(ops, s, xg.rf[r], xh.rf[h]))
    && (forall h :: h in xh.rf ==>
          var r := Down(h); Twin(ops, s, r, h) && r in xg.rf && Twin(ops, s, xg.rf[r], xh.rf[h]))
  }

  ghost predicate SameCo(ops: Trace, s: Strength, xg: Exec, xh: Exec) {
    && (forall w :: w in xg.co ==>
          var h := Up(ops, s, w); Twin(ops, s, w, h) && h in xh.co && xh.co[h] == xg.co[w])
    && (forall h :: h in xh.co ==>
          var w := Down(h); Twin(ops, s, w, h) && w in xg.co && xg.co[w] == xh.co[h])
  }

  /** The same execution, named by guest accesses and by host accesses. */
  ghost predicate Corresponds(ops: Trace, s: Strength, xg: Exec, xh: Exec) {
    SameRf(ops, s, xg, xh) && SameCo(ops, s, xg, xh)
  }

  lemma SameLocUp(ops: Trace, s: Strength, a: Ev, b: Ev)
    requires SameLoc(GuestOf(ops), a, b)
    ensures SameLoc(HostOf(ops, s), Up(ops, s, a), Up(ops, s, b))
  {
    Accesses(ops, s, a);
    Accesses(ops, s, b);
  }

  lemma SameLocDown(ops: Trace, s: Strength, a: Ev, b: Ev)
    requires SameLoc(HostOf(ops, s), a, b)
    ensures SameLoc(GuestOf(ops), Down(a), Down(b))
  {
    HostAccess(ops, s, a);
    HostAccess(ops, s, b);
  }

  lemma PoUp(ops: Trace, s: Strength, a: Ev, b: Ev)
    requires a.k == 0 && b.k == 0 && Po(a, b)
    ensures Po(Up(ops, s, a), Up(ops, s, b))
  {
  }

  lemma PoDown(ops: Trace, s: Strength, a: Ev, b: Ev)
    requires Mem(HostOf(ops, s), a) && Mem(HostOf(ops, s), b) && Po(a, b)
    ensures Po(Down(a), Down(b))
  {
    HostAccess(ops, s, a);
    HostAccess(ops, s, b);
  }

  lemma CoUp(ops: Trace, s: Strength, xg: Exec, xh: Exec, a: Ev, b: Ev)
    requires SameCo(ops, s, xg, xh) && Co(GuestOf(ops), xg, a, b)
    ensures Co(HostOf(ops, s), xh, Up(ops, s, a), Up(ops, s, b))
  {
    SameLocUp(ops, s, a, b);
  }

  lemma FrUp(ops: Trace, s: Strength, xg: Exec, xh: Exec, a: Ev, b: Ev)
    requires SameRf(ops, s, xg, xh) && SameCo(ops, s, xg, xh) && Fr(GuestOf(ops), xg, a, b)
    ensures Fr(HostOf(ops, s), xh, Up(ops, s, a), Up(ops, s, b))
  {
    GuestAccess(ops, a);
    Accesses(ops, s, a);
    SameLocUp(ops, s, a, b);
    assert Down(Up(ops, s, a)) == a;
  }

  lemma ComUp(ops: Trace, s: Strength, xg: Exec, xh: Exec, a: Ev, b: Ev)
    requires Corresponds(ops, s, xg, xh) && Com(GuestOf(ops), xg, a, b)
    ensures Com(HostOf(ops, s), xh, Up(ops, s, a), Up(ops, s, b))
  {
    if Co(GuestOf(ops), xg, a, b) {
      CoUp(ops, s, xg, xh, a, b);
    } else if Fr(GuestOf(ops), xg, a, b) {
      FrUp(ops, s, xg, xh, a, b);
    }
  }

  lemma CoDown(ops: Trace, s: Strength, xg: Exec, xh: Exec, a: Ev, b: Ev)
    requires SameCo(ops, s, xg, xh) && Co(HostOf(ops, s), xh, a, b)
    ensures Co(GuestOf(ops), xg, Down(a), Down(b))
  {
    SameLocDown(ops, s, a, b);
  }

  lemma FrDown(ops: Trace, s: Strength, xg: Exec, xh: Exec, a: Ev, b: Ev)
    requires SameRf(ops, s, xg, xh) && SameCo(ops, s, xg, xh) && Fr(HostOf(ops, s), xh, a, b)
    ensures Fr(GuestOf(ops), xg, Down(a), Down(b))
  {
    HostAccess(ops, s, a);
    SameLocDown(ops, s, a, b);
    assert Up(ops, s, Down(a)) == a;
  }

  lemma ComDown(ops: Trace, s: Strength, xg: Exec, xh: Exec, a: Ev, b: Ev)
    requires Corresponds(ops, s, xg, xh) && Com(HostOf(ops, s), xh, a, b)
    ensures Com(GuestOf(ops), xg, Down(a), Down(b))
  {
    if Co(HostOf(ops, s), xh, a, b) {
      CoDown(ops, s, xg, xh, a, b);
    } else if Fr(HostOf(ops, s), xh, a, b) {
      FrDown(ops, s, xg, xh, a, b);
    }
  }

  lemma CoherenceUp(ops: Trace, s: Strength, xg: Exec, xh: Exec, a: Ev, b: Ev)
    requires Corresponds(ops, s, xg, xh) && CoherenceEdge(GuestOf(ops), xg, a, b)
    ensures CoherenceEdge(HostOf(ops, s), xh, Up(ops, s, a), Up(ops, s, b))
  {
    if Com(GuestOf(ops), xg, a, b) {
      ComUp(ops, s, xg, xh, a, b);
    } else {
      GuestAccess(ops, a);
      GuestAccess(ops, b);
      PoUp(ops, s, a, b);
      SameLocUp(ops, s, a, b);
    }
  }

  lemma CoherenceDown(ops: Trace, s: Strength, xg: Exec, xh: Exec, a: Ev, b: Ev)
    requires Corresponds(ops, s, xg, xh) && CoherenceEdge(HostOf(ops, s), xh, a, b)
    ensures CoherenceEdge(GuestOf(ops), xg, Down(a), Down(b))
  {
    if Com(HostOf(ops, s), xh, a, b) {
      ComDown(ops, s, xg, xh, a, b);
    } else {
      PoDown(ops, s, a, b);
      SameLocDown(ops, s, a, b);
    }
  }

  /** Coherence is the same question on both sides. */
  lemma CoherentBelow(ops: Trace, s: Strength, xg: Exec, xh: Exec)
    requires Corresponds(ops, s, xg, xh) && Coherent(HostOf(ops, s), xh)
    ensures Coherent(GuestOf(ops), xg)
  {
    var eg, eh := CoherenceOf(GuestOf(ops), xg), CoherenceOf(HostOf(ops, s), xh);
    var up := (e: Ev) => Up(ops, s, e);
    forall a, b | eg(a, b)
      ensures Tc(eh, up(a), up(b))
    {
      CoherenceUp(ops, s, xg, xh, a, b);
      TcStep(eh, up(a), up(b));
    }
    AcyclicMaps(eg, eh, up);
  }

  lemma CoherentAbove(ops: Trace, s: Strength, xg: Exec, xh: Exec)
    requires Corresponds(ops, s, xg, xh) && Coherent(GuestOf(ops), xg)
    ensures Coherent(HostOf(ops, s), xh)
  {
    var eg, eh := CoherenceOf(GuestOf(ops), xg), CoherenceOf(HostOf(ops, s), xh);
    var down := (e: Ev) => Down(e);
    forall a, b | eh(a, b)
      ensures Tc(eg, down(a), down(b))
    {
      CoherenceDown(ops, s, xg, xh, a, b);
      TcStep(eg, down(a), down(b));
    }
    AcyclicMaps(eh, eg, down);
  }

  /** So is being a well-formed execution. */
  lemma ReadsExplainedBelow(ops: Trace, s: Strength, xg: Exec, xh: Exec)
    requires SameRf(ops, s, xg, xh) && ReadsExplained(HostOf(ops, s), xh)
    ensures ReadsExplained(GuestOf(ops), xg)
  {
    var g, h := GuestOf(ops), HostOf(ops, s);
    forall r | r in xg.rf
      ensures Explains(g, xg.rf[r], r)
    {
      var hr := Up(ops, s, r);
      assert Explains(h, xh.rf[hr], hr);
      HostAccess(ops, s, hr);
      HostAccess(ops, s, xh.rf[hr]);
      SameLocDown(ops, s, hr, xh.rf[hr]);
    }
    forall r | Rd(g, r) && r !in xg.rf
      ensures Val(g, r) == 0
    {
      GuestAccess(ops, r);
      Accesses(ops, s, r);
      assert Down(Up(ops, s, r)) == r;
    }
  }

  lemma WritesPlacedBelow(ops: Trace, s: Strength, xg: Exec, xh: Exec)
    requires SameCo(ops, s, xg, xh) && WritesPlaced(HostOf(ops, s), xh)
    ensures WritesPlaced(GuestOf(ops), xg)
  {
    var g, h := GuestOf(ops), HostOf(ops, s);
    forall w
      ensures w in xg.co <==> Wr(g, w)
    {
      if Wr(g, w) {
        GuestAccess(ops, w);
        Accesses(ops, s, w);
        assert Down(Up(ops, s, w)) == w;
      } else if w in xg.co {
        Accesses(ops, s, w);
      }
    }
    forall a, b | a in xg.co && b in xg.co && a != b && SameLoc(g, a, b)
      ensures xg.co[a] != xg.co[b]
    {
      SameLocUp(ops, s, a, b);
    }
  }

  lemma ReadsExplainedAbove(ops: Trace, s: Strength, xg: Exec, xh: Exec)
    requires SameRf(ops, s, xg, xh) && ReadsExplained(GuestOf(ops), xg)
    ensures ReadsExplained(HostOf(ops, s), xh)
  {
    var g, h := GuestOf(ops), HostOf(ops, s);
    forall r | r in xh.rf
      ensures Explains(h, xh.rf[r], r)
    {
      var gr := Down(r);
      assert Explains(g, xg.rf[gr], gr);
      Accesses(ops, s, gr);
      Accesses(ops, s, xg.rf[gr]);
      SameLocUp(ops, s, gr, xg.rf[gr]);
    }
    forall r | Rd(h, r) && r !in xh.rf
      ensures Val(h, r) == 0
    {
      HostAccess(ops, s, r);
      assert Up(ops, s, Down(r)) == r;
    }
  }

  lemma WritesPlacedAbove(ops: Trace, s: Strength, xg: Exec, xh: Exec)
    requires SameCo(ops, s, xg, xh) && WritesPlaced(GuestOf(ops), xg)
    ensures WritesPlaced(HostOf(ops, s), xh)
  {
    var g, h := GuestOf(ops), HostOf(ops, s);
    forall w
      ensures w in xh.co <==> Wr(h, w)
    {
      if Wr(h, w) {
        HostAccess(ops, s, w);
        assert Up(ops, s, Down(w)) == w;
      } else if w in xh.co {
        Accesses(ops, s, Down(w));
      }
    }
    forall a, b | a in xh.co && b in xh.co && a != b && SameLoc(h, a, b)
      ensures xh.co[a] != xh.co[b]
    {
      SameLocDown(ops, s, a, b);
    }
  }

  lemma WellFormedBelow(ops: Trace, s: Strength, xg: Exec, xh: Exec)
    requires Corresponds(ops, s, xg, xh) && WellFormed(HostOf(ops, s), xh)
    ensures WellFormed(GuestOf(ops), xg)
  {
    ReadsExplainedBelow(ops, s, xg, xh);
    WritesPlacedBelow(ops, s, xg, xh);
  }

  lemma WellFormedAbove(ops: Trace, s: Strength, xg: Exec, xh: Exec)
    requires Corresponds(ops, s, xg, xh) && WellFormed(GuestOf(ops), xg)
    ensures WellFormed(HostOf(ops, s), xh)
  {
    ReadsExplainedAbove(ops, s, xg, xh);
    WritesPlacedAbove(ops, s, xg, xh);
  }

  // ---- the lowering orders what TSO orders ----

  /** The barrier of a fence operation survives lowering. */
  lemma FenceUp(ops: Trace, s: Strength, kind: Barrier, a: Ev, b: Ev)
    requires a.k == 0 && b.k == 0 && Fenced(GuestOf(ops), kind, a, b)
    ensures Fenced(HostOf(ops, s), kind, Up(ops, s, a), Up(ops, s, b))
  {
    var g, h := GuestOf(ops), HostOf(ops, s);
    var c :| IsEv(g, c) && LabelAt(g, c) == F(kind) && Po(a, c) && Po(c, b);
    assert IsEv(h, c) && LabelAt(h, c) == F(kind);
    assert Po(Up(ops, s, a), c) && Po(c, Up(ops, s, b));
  }

  predicate OrderedAt(ops: Trace, e: Ev) {
    InTrace(ops, e) && (KindAt(ops, e) == Reads(true) || KindAt(ops, e) == Writes(true))
  }

  /** Two ordered accesses that TSO orders are ordered-before on the host, at every strength. */
  lemma TsoOrderUp(ops: Trace, s: Strength, a: Ev, b: Ev)
    requires TsoOrder(GuestOf(ops), a, b) && OrderedAt(ops, a) && OrderedAt(ops, b)
    ensures Bob(HostOf(ops, s), Up(ops, s, a), Up(ops, s, b))
  {
    var h := HostOf(ops, s);
    GuestAccess(ops, a);
    GuestAccess(ops, b);
    Accesses(ops, s, a);
    Accesses(ops, s, b);
    PoUp(ops, s, a, b);
    if Fenced(GuestOf(ops), Full, a, b) {
      FenceUp(ops, s, Full, a, b);
    } else if s.Tso? {
      FencedPair(ops, a, b);
    }
  }

  /** The one-sided barriers of the fence scheme lie between the accesses they order. */
  lemma FencedPair(ops: Trace, a: Ev, b: Ev)
    requires Mem(GuestOf(ops), a) && Mem(GuestOf(ops), b) && Po(a, b) && OrderedAt(ops, a) && OrderedAt(ops, b)
    ensures var h := HostOf(ops, Tso);
            && (Rd(GuestOf(ops), a) ==> Fenced(h, LoadOnly, Up(ops, Tso, a), Up(ops, Tso, b)))
            && (Wr(GuestOf(ops), b) ==> Fenced(h, StoreOnly, Up(ops, Tso, a), Up(ops, Tso, b)))
  {
    var h := HostOf(ops, Tso);
    GuestAccess(ops, a);
    GuestAccess(ops, b);
    if Rd(GuestOf(ops), a) {
      var c := Ev(a.t, a.i, 1);
      assert IsEv(h, c) && LabelAt(h, c) == F(LoadOnly) && Po(Up(ops, Tso, a), c) && Po(c, Up(ops, Tso, b));
    }
    if Wr(GuestOf(ops), b) {
      var c := Ev(b.t, b.i, 0);
      assert IsEv(h, c) && LabelAt(h, c) == F(StoreOnly) && Po(Up(ops, Tso, a), c) && Po(c, Up(ops, Tso, b));
    }
  }
}
