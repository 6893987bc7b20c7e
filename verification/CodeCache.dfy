/** The dispatcher's block cache: a fixed open-addressing table with linear probing, flushed
    wholesale when it reaches its cap. The hash is a parameter: nothing depends on it. */
module CodeCache {
  import opened Words

  const SLOTS: nat := 16384
  const CAP: nat := 12288

  datatype Slot = Slot(used: bool, pc: U64, code: seq<U8>)

  type Hash = U64 -> U64

  /** Slot number `k` of the probe sequence of `pc`. */
  function Probe(hash: Hash, pc: U64, k: nat): (i: nat)
    ensures i < SLOTS
  {
    (hash(pc) + k) % SLOTS
  }

  /** How far slot `i` is along the probe sequence of `pc`. */
  function Distance(hash: Hash, pc: U64, i: nat): (d: nat)
    requires i < SLOTS
    ensures d < SLOTS && Probe(hash, pc, d) == i
  {
    var home := hash(pc) % SLOTS;
    var d := if home <= i then i - home else i - home + SLOTS;
    ProbeAdds(hash(pc), home, d);
    d
  }

  lemma ProbeAdds(h: nat, home: nat, d: nat)
    requires home == h % SLOTS
    ensures (h + d) % SLOTS == (home + d) % SLOTS
  {
    var q := h / SLOTS;
    assert h == q * SLOTS + home;
  }

  type Table = t: seq<Slot> | |t| == SLOTS witness seq(SLOTS, k => Slot(false, 0, []))

  /** No pc is stored twice. */
  ghost predicate Unique(t: Table) {
    forall i, j :: 0 <= i < SLOTS && 0 <= j < SLOTS && t[i].used && t[j].used && t[i].pc == t[j].pc ==> i == j
  }

  /** Every stored pc can be reached: the probe sequence up to it has no hole. */
  ghost predicate Reachable(t: Table, hash: Hash) {
    forall i, k :: 0 <= i < SLOTS && t[i].used && 0 <= k < Distance(hash, t[i].pc, i) ==>
      t[Probe(hash, t[i].pc, k)].used
  }

  ghost predicate Stores(t: Table, pc: U64) {
    exists i :: 0 <= i < SLOTS && t[i].used && t[i].pc == pc
  }

  ghost function IndexOf(t: Table, pc: U64): (i: nat)
    requires Stores(t, pc)
    ensures i < SLOTS && t[i].used && t[i].pc == pc
  {
    var i :| 0 <= i < SLOTS && t[i].used && t[i].pc == pc;
    i
  }

  /** The abstract map the table stands for. */
  ghost function Contents(t: Table): map<U64, seq<U8>> {
    map pc | pc in (set i | 0 <= i < SLOTS && t[i].used :: t[i].pc) && Stores(t, pc) :: t[IndexOf(t, pc)].code
  }

  ghost function UsedSlots(t: Table): set<nat> {
    set i: nat | i < SLOTS && t[i].used
  }

  lemma ContentsAt(t: Table, i: nat)
    requires Unique(t) && i < SLOTS && t[i].used
    ensures t[i].pc in Contents(t) && Contents(t)[t[i].pc] == t[i].code
  {
    assert Stores(t, t[i].pc);
  }

  lemma ContentsOnly(t: Table, pc: U64)
    ensures pc in Contents(t) <==> Stores(t, pc)
  {
    if Stores(t, pc) {
      var i := IndexOf(t, pc);
      assert t[i].pc == pc;
    }
  }

  /** A hole in the probe sequence, with nothing before it, proves absence. */
  lemma HoleMeansAbsent(t: Table, hash: Hash, pc: U64, p: nat)
    requires Reachable(t, hash) && p <= SLOTS
    requires forall k :: 0 <= k < p ==> t[Probe(hash, pc, k)].pc != pc
    requires p < SLOTS ==> !t[Probe(hash, pc, p)].used
    ensures !Stores(t, pc)
  {
    if Stores(t, pc) {
      var i := IndexOf(t, pc);
      var d := Distance(hash, pc, i);
    }
  }

  /** Storing at the first hole keeps every pc reachable and stored once. */
  lemma StoreAtHole(t: Table, hash: Hash, pc: U64, p: nat, code: seq<U8>)
    requires Unique(t) && Reachable(t, hash) && !Stores(t, pc) && p < SLOTS
    requires forall k :: 0 <= k < p ==> t[Probe(hash, pc, k)].used
    requires !t[Probe(hash, pc, p)].used
    ensures var t' := t[Probe(hash, pc, p) := Slot(true, pc, code)];
            Unique(t') && Reachable(t', hash)
  {
    var i := Probe(hash, pc, p);
    var t' := t[i := Slot(true, pc, code)];
    forall a, b | 0 <= a < SLOTS && 0 <= b < SLOTS && t'[a].used && t'[b].used && t'[a].pc == t'[b].pc
      ensures a == b
    {
      if a != b && (a == i || b == i) {
        assert Stores(t, pc);
      }
    }
    forall j, k | 0 <= j < SLOTS && t'[j].used && 0 <= k < Distance(hash, t'[j].pc, j)
      ensures t'[Probe(hash, t'[j].pc, k)].used
    {
      if j == i {
        FirstVisit(hash, pc, p);
      }
    }
  }

  /** A probe sequence does not come back to a slot within one round. */
  lemma FirstVisit(hash: Hash, pc: U64, p: nat)
    requires p < SLOTS
    ensures Distance(hash, pc, Probe(hash, pc, p)) == p
  {
    var home := hash(pc) % SLOTS;
    ProbeAdds(hash(pc), home, p);
  }

  lemma StoredElsewhere(t: Table, i: nat, pc: U64, code: seq<U8>, q: U64)
    requires i < SLOTS && !t[i].used && q != pc && Unique(t) && Unique(t[i := Slot(true, pc, code)])
    ensures var t' := t[i := Slot(true, pc, code)];
            && (Stores(t', q) <==> Stores(t, q))
            && (Stores(t, q) ==> q in Contents(t) && q in Contents(t') && Contents(t')[q] == Contents(t)[q])
  {
    var t' := t[i := Slot(true, pc, code)];
    if Stores(t, q) {
      var j := IndexOf(t, q);
      assert t'[j] == t[j];
      ContentsAt(t', j);
      ContentsAt(t, j);
    }
  }

  lemma StoredContents(t: Table, i: nat, pc: U64, code: seq<U8>)
    requires i < SLOTS && !t[i].used && !Stores(t, pc)
    requires Unique(t[i := Slot(true, pc, code)]) && Unique(t)
    ensures Contents(t[i := Slot(true, pc, code)]) == Contents(t)[pc := code]
  {
    var t' := t[i := Slot(true, pc, code)];
    ContentsAt(t', i);
    forall q
      ensures q in Contents(t') <==> q in Contents(t)[pc := code]
      ensures q in Contents(t') ==> Contents(t')[q] == Contents(t)[pc := code][q]
    {
      ContentsOnly(t, q);
      ContentsOnly(t', q);
      if q != pc {
        StoredElsewhere(t, i, pc, code, q);
      }
    }
  }

  lemma {:induction false} FullTable(n: nat, s: set<nat>)
    requires forall i: nat :: i in s <==> i < n
    ensures |s| == n
  {
    if n > 0 {
      FullTable(n - 1, s - {n - 1});
    } else {
      assert s == {};
    }
  }

  class BlockCache {
    var table: array<Slot>
    var live: nat
    const hash: Hash

    ghost predicate Valid()
      reads this, table
    {
      && table.Length == 16384
      && Unique(table[..]) && Reachable(table[..], hash)
      && live == |UsedSlots(table[..])| <= 12288
    }

    ghost function Map(): map<U64, seq<U8>>
      requires Valid()
      reads this, table
    {
      Contents(table[..])
    }

    constructor (hash: Hash)
      ensures Valid() && fresh(table) && Map() == map[] && live == 0
    {
      this.hash := hash;
      table := new Slot[SLOTS](k => Slot(false, 0, []));
      live := 0;
      new;
      assert UsedSlots(table[..]) == {};
    }

    /** Hit exactly when the pc is in the map, and then its code. */
    method Find(pc: U64) returns (found: bool, code: seq<U8>)
      requires Valid()
      ensures found <==> pc in Map()
      ensures found ==> code == Map()[pc]
    {
      ghost var t: Table := table[..];
      ContentsOnly(t, pc);
      var i := Probe(hash, pc, 0);
      for p := 0 to SLOTS
        invariant i == Probe(hash, pc, p)
        invariant forall k :: 0 <= k < p ==> t[Probe(hash, pc, k)].used && t[Probe(hash, pc, k)].pc != pc
      {
        if !table[i].used {
          HoleMeansAbsent(t, hash, pc, p);
          return false, [];
        }
        if table[i].pc == pc {
          ContentsAt(t, i);
          return true, table[i].code;
        }
        i := (i + 1) % SLOTS;
        NextProbe(hash, pc, p);
      }
      HoleMeansAbsent(t, hash, pc, SLOTS);
      return false, [];
    }

    /** Forget every block. */
    method Flush()
      requires Valid()
      modifies this`live, table
      ensures Valid() && Map() == map[] && live == 0
    {
      for i := 0 to SLOTS
        invariant forall j :: 0 <= j < i ==> !table[j].used
      {
        table[i] := table[i].(used := false);
      }
      live := 0;
      assert UsedSlots(table[..]) == {};
    }

    /** Store a missing block. Below the cap there is always a free slot, so this never fails. */
    method Insert(pc: U64, code: seq<U8>) returns (ok: bool)
      requires Valid() && pc !in Map() && live < CAP
      modifies this`live, table
      ensures Valid() && ok && live == old(live) + 1
      ensures Map() == old(Map())[pc := code]
    {
      ghost var t: Table := table[..];
      ContentsOnly(t, pc);
      var i := Probe(hash, pc, 0);
      for p := 0 to SLOTS
        invariant table[..] == t && live == old(live)
        invariant i == Probe(hash, pc, p)
        invariant forall k :: 0 <= k < p ==> t[Probe(hash, pc, k)].used
      {
        if !table[i].used {
          Stored(t, hash, pc, p, code);
          table[i] := Slot(true, pc, code);
          live := live + 1;
          assert table[..] == t[i := Slot(true, pc, code)];
          return true;
        }
        i := (i + 1) % SLOTS;
        NextProbe(hash, pc, p);
      }
      NotFull(t, hash, pc);
      ok := false;
    }
  }

  lemma Stored(t: Table, hash: Hash, pc: U64, p: nat, code: seq<U8>)
    requires Unique(t) && Reachable(t, hash) && !Stores(t, pc) && p < SLOTS
    requires forall k :: 0 <= k < p ==> t[Probe(hash, pc, k)].used
    requires !t[Probe(hash, pc, p)].used
    ensures var t' := t[Probe(hash, pc, p) := Slot(true, pc, code)];
            && Unique(t') && Reachable(t', hash)
            && Contents(t') == Contents(t)[pc := code]
            && |UsedSlots(t')| == |UsedSlots(t)| + 1
  {
    var i := Probe(hash, pc, p);
    StoreAtHole(t, hash, pc, p, code);
    StoredContents(t, i, pc, code);
    assert UsedSlots(t[i := Slot(true, pc, code)]) == UsedSlots(t) + {i};
  }

  lemma NextProbe(hash: Hash, pc: U64, p: nat)
    ensures (Probe(hash, pc, p) + 1) % SLOTS == Probe(hash, pc, p + 1)
  {
    var h := hash(pc) + p;
    ProbeAdds(h, h % SLOTS, 1);
  }

  /** A whole round of used slots would fill the table beyond the cap. */
  lemma NotFull(t: Table, hash: Hash, pc: U64)
    requires |UsedSlots(t)| < CAP
    ensures exists k :: 0 <= k < SLOTS && !t[Probe(hash, pc, k)].used
  {
    if forall k :: 0 <= k < SLOTS ==> t[Probe(hash, pc, k)].used {
      forall i: nat | i < SLOTS
        ensures t[i].used
      {
        var d := Distance(hash, pc, i);
        assert t[Probe(hash, pc, d)].used;
      }
      FullTable(SLOTS, UsedSlots(t));
    }
  }
}
