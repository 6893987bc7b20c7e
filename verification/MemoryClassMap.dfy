/** The memory-class map from classification to decision: classify a block, ship the map, look an
    access up, decide its ordering. */
module MemoryClassMap {
  import opened Words
  import opened Errors
  import opened GuestIr
  import opened MapFormat

  const LOCAL: U8 := 1
  const SHARED: U8 := 2
  const ATOMIC: U8 := 3

  // entry flags, by bit
  const GUARD_REQUIRED: U8 := 1
  const ESCAPED: U8 := 2

  datatype Order = Relax | Tso | Atomic

  predicate HasFlag(eflags: U8, flag: U8)
    requires flag > 0
  {
    eflags / flag % 2 == 1
  }

  /** The sound decision. */
  function Decide(e: Option<Entry>, guardConfirmed: bool): Order {
    if e.None? then Tso
    else if e.value.mclass == ATOMIC then Atomic
    else if e.value.mclass == LOCAL then
      if HasFlag(e.value.eflags, ESCAPED) then Tso
      else if !HasFlag(e.value.eflags, GUARD_REQUIRED) then Relax
      else if guardConfirmed then Relax else Tso
    else Tso
  }

  /** For every entry a map file can hold, and for none: relaxed exactly for class 1 without flag bit 1, and
      without flag bit 0 or with the guard confirmed; atomic exactly for class 3; ordered otherwise. */
  lemma DecideExactly(e: Option<Entry>, guardConfirmed: bool)
    ensures Decide(e, guardConfirmed) == Relax
       <==> e.Some? && e.value.mclass == 1 && e.value.eflags / 2 % 2 == 0 && (e.value.eflags % 2 == 0 || guardConfirmed)
    ensures Decide(e, guardConfirmed) == Atomic <==> e.Some? && e.value.mclass == 3
  {
  }

  // ---- classification ----

  predicate StackBased(o: Insn) {
    o.rn == RSP || o.rn == RBP
  }

  /** The class of one operation, if it accesses memory as data. */
  function Classified(o: Insn): Option<(U8, U8)> {
    match o.op
    case Load => if StackBased(o) then Some((LOCAL, GUARD_REQUIRED)) else Some((SHARED, 0))
    case Store => if StackBased(o) then Some((LOCAL, GUARD_REQUIRED)) else Some((SHARED, 0))
    case AtomicAdd => Some((ATOMIC, 0))
    case AtomicCas => Some((ATOMIC, 0))
    case _ => None
  }

  type Classifier = Insn -> Option<(U8, U8)>

  /** The entry of operation `i`: its key is the block's pc plus its index. */
  function EntryOf(f: Classifier, o: Insn, at: U64): seq<Entry> {
    var c := f(o);
    if c.None? then [] else [Entry(at, c.value.0, c.value.1)]
  }

  function EntriesOf(f: Classifier, ops: seq<Insn>, pc: U64): (es: seq<Entry>)
    requires |ops| < TWO_64
    ensures |es| <= |ops|
  {
    if ops == [] then []
    else
      var n := |ops| - 1;
      EntriesOf(f, ops[..n], pc) + EntryOf(f, ops[n], Plus(pc, n))
  }

  method Classify(f: Classifier, ops: seq<Insn>, pc: U64) returns (es: seq<Entry>)
    requires |ops| < TWO_64
    ensures es == EntriesOf(f, ops, pc)
  {
    es := [];
    for i := 0 to |ops|
      invariant es == EntriesOf(f, ops[..i], pc)
    {
      assert ops[..i + 1][..i] == ops[..i];
      var c := f(ops[i]);
      if c.Some? {
        es := es + [Entry(Plus(pc, i), c.value.0, c.value.1)];
      }
    }
    assert ops[..|ops|] == ops;
  }

  // ---- lookup ----

  /** The entry for a pc, as the map defines it. */
  ghost predicate Describes(es: seq<Entry>, pc: U64, r: Option<Entry>) {
    match r
    case None => forall k :: 0 <= k < |es| ==> es[k].pc != pc
    case Some(e) => e.pc == pc && exists k :: 0 <= k < |es| && es[k] == e
  }

  /** Binary search. */
  method Lookup(es: seq<Entry>, pc: U64) returns (r: Option<Entry>)
    requires Ascending(es)
    ensures Describes(es, pc, r)
  {
    var lo, hi := 0, |es|;
    while lo < hi
      invariant 0 <= lo <= hi <= |es|
      invariant forall k :: 0 <= k < lo ==> es[k].pc < pc
      invariant forall k :: hi <= k < |es| ==> pc < es[k].pc
      decreases hi - lo
    {
      var mid := lo + (hi - lo) / 2;
      if es[mid].pc == pc {
        return Some(es[mid]);
      }
      if es[mid].pc < pc {
        lo := mid + 1;
      } else {
        hi := mid;
      }
    }
    r := None;
  }

  /** No pc twice. */
  predicate Distinct(es: seq<Entry>) {
    forall i, j :: 0 <= i < j < |es| ==> es[i].pc != es[j].pc
  }

  /** Then the description is unique. */
  lemma OneDescription(es: seq<Entry>, pc: U64, r: Option<Entry>, q: Option<Entry>)
    requires Distinct(es) && Describes(es, pc, r) && Describes(es, pc, q)
    ensures r == q
  {
  }

  // ---- the pipeline ----

  /** Every pc lies less than `n` above `pc`, counted round the address space. */
  predicate Near(es: seq<Entry>, pc: U64, n: nat) {
    forall k :: 0 <= k < |es| ==> Minus(es[k].pc, pc) < n
  }

  lemma NearSnoc(es: seq<Entry>, e: Entry, pc: U64, n: U64)
    requires Near(es, pc, n) && Distinct(es) && e.pc == Plus(pc, n)
    ensures Near(es + [e], pc, n + 1) && Distinct(es + [e])
    ensures forall k :: 0 <= k < |es| ==> es[k].pc != e.pc
  {
    assert Minus(e.pc, pc) == n;
  }

  /** The entries of a block, wherever it lies. */
  lemma {:induction false} EntriesNear(f: Classifier, ops: seq<Insn>, pc: U64)
    requires |ops| < TWO_64
    ensures Near(EntriesOf(f, ops, pc), pc, |ops|) && Distinct(EntriesOf(f, ops, pc))
  {
    if ops != [] {
      var n := |ops| - 1;
      EntriesNear(f, ops[..n], pc);
      var es := EntriesOf(f, ops[..n], pc);
      if f(ops[n]).Some? {
        NearSnoc(es, Entry(Plus(pc, n), f(ops[n]).value.0, f(ops[n]).value.1), pc, n);
      } else {
        assert EntriesOf(f, ops, pc) == es;
      }
    }
  }

  function Wanted(f: Classifier, o: Insn, at: U64): Option<Entry> {
    var c := f(o);
    if c.None? then None else Some(Entry(at, c.value.0, c.value.1))
  }

  lemma DescribesEarlier(es: seq<Entry>, more: seq<Entry>, at: U64, r: Option<Entry>)
    requires Describes(es, at, r) && forall k :: 0 <= k < |more| ==> more[k].pc != at
    ensures Describes(es + more, at, r)
  {
    if r.Some? {
      var k :| 0 <= k < |es| && es[k] == r.value;
      assert (es + more)[k] == r.value;
    }
  }

  lemma DescribesLast(es: seq<Entry>, f: Classifier, o: Insn, at: U64)
    requires forall k :: 0 <= k < |es| ==> es[k].pc != at
    ensures Describes(es + EntryOf(f, o, at), at, Wanted(f, o, at))
  {
    var all := es + EntryOf(f, o, at);
    if f(o).Some? {
      assert all[|es|] == Wanted(f, o, at).value;
    }
  }

  lemma Apart(pc: U64, i: U64, n: U64)
    ensures Plus(pc, i) == Plus(pc, n) <==> i == n
    ensures Minus(Plus(pc, i), pc) == i && Plus(pc, Minus(n, pc)) == n
  {
  }

  lemma NothingAt(es: seq<Entry>, pc: U64, n: U64)
    requires Near(es, pc, n)
    ensures forall k :: 0 <= k < |es| ==> es[k].pc != Plus(pc, n)
  {
    Apart(pc, n, n);
  }

  /** The map holds for each operation exactly its class, and nothing for one without. */
  lemma {:induction false} EntryExactly(f: Classifier, ops: seq<Insn>, pc: U64, i: nat)
    requires |ops| < TWO_64 && i < |ops|
    ensures Describes(EntriesOf(f, ops, pc), Plus(pc, i), Wanted(f, ops[i], Plus(pc, i)))
    decreases |ops|
  {
    var n := |ops| - 1;
    var es := EntriesOf(f, ops[..n], pc);
    if i < n {
      EntryExactly(f, ops[..n], pc, i);
      assert ops[..n][i] == ops[i];
      Apart(pc, i, n);
      DescribesEarlier(es, EntryOf(f, ops[n], Plus(pc, n)), Plus(pc, i), Wanted(f, ops[i], Plus(pc, i)));
    } else {
      EntriesNear(f, ops[..n], pc);
      NothingAt(es, pc, n);
      DescribesLast(es, f, ops[n], Plus(pc, n));
    }
  }

  /** The entry the format's documentation asks for, in its numbers. */
  function Documented(o: Insn, at: U64): Option<Entry> {
    match o.op
    case Load => if o.rn == 4 || o.rn == 5 then Some(Entry(at, 1, 1)) else Some(Entry(at, 2, 0))
    case Store => if o.rn == 4 || o.rn == 5 then Some(Entry(at, 1, 1)) else Some(Entry(at, 2, 0))
    case AtomicAdd => Some(Entry(at, 3, 0))
    case AtomicCas => Some(Entry(at, 3, 0))
    case _ => None
  }

  /** The classifier's map holds exactly those entries: class 1 with flag 1 for loads and stores based on
      RSP or RBP, class 2 for the other loads and stores, class 3 for atomics, nothing else. */
  lemma ClassifiedExactly(ops: seq<Insn>, pc: U64, at: U64)
    requires |ops| < TWO_64
    ensures Describes(EntriesOf(Classified, ops, pc), at,
                      if Minus(at, pc) < |ops| then Documented(ops[Minus(at, pc)], at) else None)
  {
    var i := Minus(at, pc);
    Apart(pc, 0, at);
    if i < |ops| {
      EntryExactly(Classified, ops, pc, i);
      assert Wanted(Classified, ops[i], at) == Documented(ops[i], at);
    } else {
      EntriesNear(Classified, ops, pc);
    }
  }

  function MapOf(id: Identity, ops: seq<Insn>, pc: U64): Map
    requires |ops| < TWO_32
  {
    Map(id, 0, EntriesOf(Classified, ops, pc))
  }

  /** The ordering the source promises for an access. */
  function Promised(o: Insn, guardConfirmed: bool): Order {
    if o.op.AtomicAdd? || o.op.AtomicCas? then Atomic
    else if (o.op.Load? || o.op.Store?) && StackBased(o) && guardConfirmed then Relax
    else Tso
  }

  lemma DecidedAsPromised(o: Insn, at: U64, guardConfirmed: bool)
    ensures Decide(Wanted(Classified, o, at), guardConfirmed) == Promised(o, guardConfirmed)
  {
  }

  // ---- which maps survive ----

  predicate NoWrap(ops: seq<Insn>, pc: U64) {
    |ops| < TWO_64 && pc + |ops| <= TWO_64
  }

  predicate Within(es: seq<Entry>, from: int, to: int) {
    forall k :: 0 <= k < |es| ==> from <= es[k].pc < to
  }

  lemma WithinSnoc(es: seq<Entry>, e: Entry, from: int, to: int)
    requires Within(es, from, to) && Ascending(es) && from <= to <= e.pc
    ensures Within(es + [e], from, e.pc + 1) && Ascending(es + [e])
  {
    AscendingSnoc(es, e);
  }

  /** What the entries of a block are, when its pcs do not wrap. */
  lemma {:induction false} EntriesAre(f: Classifier, ops: seq<Insn>, pc: U64)
    requires NoWrap(ops, pc)
    ensures Ascending(EntriesOf(f, ops, pc)) && Within(EntriesOf(f, ops, pc), pc, pc + |ops|)
  {
    if ops != [] {
      var n := |ops| - 1;
      EntriesAre(f, ops[..n], pc);
      var es, at := EntriesOf(f, ops[..n], pc), Plus(pc, n);
      assert at == pc + n;
      if f(ops[n]).Some? {
        WithinSnoc(es, Entry(at, f(ops[n]).value.0, f(ops[n]).value.1), pc, pc + n);
      } else {
        assert EntriesOf(f, ops, pc) == es;
      }
    }
  }

  /** Two accesses lie on either side of the top of the address space. */
  predicate Straddles(f: Classifier, ops: seq<Insn>, pc: U64) {
    exists i, j :: 0 <= i < j < |ops| && f(ops[i]).Some? && f(ops[j]).Some? && pc + i < TWO_64 <= pc + j
  }

  /** The entry of an access is behind those of the operations before it. */
  lemma {:induction false} EntryIndex(f: Classifier, ops: seq<Insn>, pc: U64, j: nat)
    requires |ops| < TWO_64 && j < |ops| && f(ops[j]).Some?
    ensures var k := |EntriesOf(f, ops[..j], pc)|;
            k < |EntriesOf(f, ops, pc)| && EntriesOf(f, ops, pc)[k].pc == Plus(pc, j)
    decreases |ops|
  {
    var n := |ops| - 1;
    if j < n {
      EntryIndex(f, ops[..n], pc, j);
      assert ops[..n][..j] == ops[..j] && ops[..n][j] == ops[j];
    }
  }

  lemma EntriesGrow(f: Classifier, ops: seq<Insn>, pc: U64, i: nat, j: nat)
    requires |ops| < TWO_64 && i < j <= |ops| && f(ops[i]).Some?
    ensures |EntriesOf(f, ops[..i], pc)| < |EntriesOf(f, ops[..j], pc)|
  {
    assert ops[..j][..i] == ops[..i] && ops[..j][i] == ops[i];
    EntryIndex(f, ops[..j], pc, i);
  }

  lemma StraddlingDescends(f: Classifier, ops: seq<Insn>, pc: U64)
    requires |ops| < TWO_32 && Straddles(f, ops, pc)
    ensures !Ascending(EntriesOf(f, ops, pc))
  {
    var i, j :| 0 <= i < j < |ops| && f(ops[i]).Some? && f(ops[j]).Some? && pc + i < TWO_64 <= pc + j;
    EntryIndex(f, ops, pc, i);
    EntryIndex(f, ops, pc, j);
    EntriesGrow(f, ops, pc, i, j);
    assert Plus(pc, j) < Plus(pc, i);
  }

  predicate Quiet(f: Classifier, ops: seq<Insn>, from: nat, to: nat) {
    forall i :: from <= i < to && i < |ops| ==> f(ops[i]).None?
  }

  /** Operations without accesses add no entries. */
  lemma {:induction false} QuietAddsNothing(f: Classifier, ops: seq<Insn>, pc: U64, w: nat)
    requires |ops| < TWO_64 && w <= |ops| && Quiet(f, ops, w, |ops|)
    ensures EntriesOf(f, ops, pc) == EntriesOf(f, ops[..w], pc)
    decreases |ops|
  {
    if w < |ops| {
      var n := |ops| - 1;
      assert f(ops[n]).None?;
      assert ops[..n][..w] == ops[..w];
      QuietAddsNothing(f, ops[..n], pc, w);
    } else {
      assert ops[..w] == ops;
    }
  }

  /** Behind the wrap the entries start again from 0. */
  lemma {:induction false} EntriesBehindWrap(f: Classifier, ops: seq<Insn>, pc: U64, w: nat)
    requires |ops| < TWO_32 && w <= |ops| && pc + w == TWO_64 && Quiet(f, ops, 0, w)
    ensures Ascending(EntriesOf(f, ops, pc)) && Within(EntriesOf(f, ops, pc), 0, |ops| - w)
    decreases |ops|
  {
    var n := |ops| - 1;
    if w == |ops| {
      QuietAddsNothing(f, ops, pc, 0);
      assert ops[..0] == [];
    } else {
      EntriesBehindWrap(f, ops[..n], pc, w);
      if f(ops[n]).Some? {
        assert Plus(pc, n) == n - w;
        WithinSnoc(EntriesOf(f, ops[..n], pc), Entry(n - w, f(ops[n]).value.0, f(ops[n]).value.1), 0, n - w);
      } else {
        assert EntriesOf(f, ops, pc) == EntriesOf(f, ops[..n], pc);
      }
    }
  }

  lemma OtherwiseAscends(f: Classifier, ops: seq<Insn>, pc: U64)
    requires |ops| < TWO_32 && !Straddles(f, ops, pc)
    ensures Ascending(EntriesOf(f, ops, pc))
  {
    if NoWrap(ops, pc) {
      EntriesAre(f, ops, pc);
    } else {
      var w := TWO_64 - pc;
      if Quiet(f, ops, 0, w) {
        EntriesBehindWrap(f, ops, pc, w);
      } else {
        var i :| 0 <= i < w && i < |ops| && f(ops[i]).Some?;
        forall j | w <= j < |ops| ensures f(ops[j]).None? {
          assert !(f(ops[i]).Some? && f(ops[j]).Some? && pc + i < TWO_64 <= pc + j);
        }
        QuietAddsNothing(f, ops, pc, w);
        EntriesAre(f, ops[..w], pc);
      }
    }
  }

  /** A map is refused on parsing exactly when two accesses of its block straddle the wrap; otherwise it
      survives. */
  lemma SurvivesExactly(id: Identity, ops: seq<Insn>, pc: U64)
    requires |ops| < TWO_32
    ensures ParseMap(MapBytes(MapOf(id, ops, pc)))
         == if Straddles(Classified, ops, pc) then Err(Format) else Ok(MapOf(id, ops, pc))
  {
    if Straddles(Classified, ops, pc) {
      StraddlingDescends(Classified, ops, pc);
    } else {
      OtherwiseAscends(Classified, ops, pc);
    }
    ParseOfMapBytes(MapOf(id, ops, pc));
  }

  // ---- the decision ----

  lemma WantedDecides(es: seq<Entry>, o: Insn, at: U64, r: Option<Entry>, guardConfirmed: bool)
    requires Distinct(es) && Describes(es, at, Wanted(Classified, o, at)) && Describes(es, at, r)
    ensures Decide(r, guardConfirmed) == Promised(o, guardConfirmed)
  {
    OneDescription(es, at, r, Wanted(Classified, o, at));
    DecidedAsPromised(o, at, guardConfirmed);
  }

  /** The entry a map holds for an access, if any, decides exactly the promised ordering: relaxed only
      for a load or store based on RSP or RBP with the guard confirmed, atomic exactly for atomics,
      ordered otherwise and for every pc outside the block, also where the block's pcs wrap. */
  lemma PipelineDecides(ops: seq<Insn>, pc: U64, at: U64, r: Option<Entry>, guardConfirmed: bool)
    requires |ops| < TWO_64 && Describes(EntriesOf(Classified, ops, pc), at, r)
    ensures Decide(r, guardConfirmed)
         == if Minus(at, pc) < |ops| then Promised(ops[Minus(at, pc)], guardConfirmed) else Tso
  {
    var i := Minus(at, pc);
    EntriesNear(Classified, ops, pc);
    if i < |ops| {
      Apart(pc, i, at);
      EntryExactly(Classified, ops, pc, i);
      WantedDecides(EntriesOf(Classified, ops, pc), ops[i], at, r, guardConfirmed);
    }
  }

  /** Classify, serialize, parse, look up, decide, for any block. A map that is refused counts as no
      entry, so its accesses are ordered. */
  method DecideAccess(id: Identity, ops: seq<Insn>, pc: U64, at: U64, guardConfirmed: bool) returns (order: Order)
    requires |ops| < TWO_32
    ensures order == if Straddles(Classified, ops, pc) || Minus(at, pc) >= |ops| then Tso
                     else Promised(ops[Minus(at, pc)], guardConfirmed)
  {
    var es := Classify(Classified, ops, pc);
    var bytes := SerializeMap(Map(id, 0, es));
    var parsed := ParseMapBytes(bytes);
    SurvivesExactly(id, ops, pc);
    if parsed.Err? {
      return Decide(None, guardConfirmed);
    }
    ParseIsAscending(bytes);
    var e := Lookup(parsed.value.entries, at);
    PipelineDecides(ops, pc, at, e, guardConfirmed);
    order := Decide(e, guardConfirmed);
  }

  lemma ParseIsAscending(b: seq<U8>)
    requires ParseMap(b).Ok?
    ensures Ascending(ParseMap(b).value.entries)
  {
  }
}
