/** The OMC1 memory-class map format. */
module MapFormat {
  import opened Words
  import opened Errors
  import opened Layout

  const MAGIC := 0x31434d4f
  const VERSION := 1
  const HEADER := 56
  const ENTRY := 12

  datatype Entry = Entry(pc: U64, mclass: U8, eflags: U8)

  /** What a map was made for. */
  datatype Identity = Identity(moduleHash: Hash, analyzer: U32, version: U32, isa: U32)

  datatype RawMap = Map(id: Identity, flags: U16, entries: seq<Entry>)

  type Map = m: RawMap | |m.entries| < 0x1_0000_0000
    witness Map(Identity(seq(32, k => 0), 0, 0, 0), 0, [])

  predicate Ascending(es: seq<Entry>) {
    forall i, j :: 0 <= i < j < |es| ==> es[i].pc < es[j].pc
  }

  // ---- entries ----

  function PutEntry(e: Entry): (s: seq<U8>)
    ensures |s| == 12
  {
    Le64(e.pc) + [e.mclass, e.eflags] + [0, 0]
  }

  function GetEntry(s: seq<U8>): Entry {
    if |s| == 12 then Entry(Get64(s[..8]), s[8], s[9]) else Entry(0, 0, 0)
  }

  /** The two reserved bytes come back as zeros. */
  function CanonEntry(s: seq<U8>): seq<U8> {
    if |s| == 12 then s[..10] + [0, 0] else s
  }

  const ENTRIES: Record<Entry> := Record(12, PutEntry, GetEntry, CanonEntry)

  lemma EntryOfBytes(e: Entry)
    ensures GetEntry(PutEntry(e)) == e
  {
    assert PutEntry(e)[..8] == Le64(e.pc);
    FieldRoundTrips(0, 0, e.pc);
  }

  lemma BytesOfEntry(s: seq<U8>)
    requires |s| == 12
    ensures PutEntry(GetEntry(s)) == CanonEntry(s)
  {
    LeOfFromLe(s[..8]);
    assert s[..10] == s[..8] + [s[8], s[9]];
  }

  lemma EntriesLawful()
    ensures Lawful(ENTRIES)
  {
    forall e ensures |ENTRIES.put(e)| == 12 && ENTRIES.get(ENTRIES.put(e)) == e {
      EntryOfBytes(e);
    }
    forall s: seq<U8> | |s| == 12 ensures ENTRIES.put(ENTRIES.get(s)) == ENTRIES.canon(s) {
      BytesOfEntry(s);
    }
  }

  // ---- header ----

  datatype Head = Head(flags: U16, isa: U32, analyzer: U32, version: U32, count: U32)

  function PutHead(h: Head): (s: seq<U8>)
    ensures |s| == 18
  {
    Le16(h.flags) + Le32(h.isa) + Le32(h.analyzer) + Le32(h.version) + Le32(h.count)
  }

  function GetHead(s: seq<U8>): Head
    requires |s| == 18
  {
    Head(Get16(s[..2]), Get32(s[2..6]), Get32(s[6..10]), Get32(s[10..14]), Get32(s[14..18]))
  }

  lemma HeadParts(a: seq<U8>, b: seq<U8>, c: seq<U8>, d: seq<U8>, e: seq<U8>)
    requires |a| == 2 && |b| == 4 && |c| == 4 && |d| == 4 && |e| == 4
    ensures var s := a + b + c + d + e;
            s[..2] == a && s[2..6] == b && s[6..10] == c && s[10..14] == d && s[14..18] == e
  {
  }

  lemma HeadOfBytes(h: Head)
    ensures GetHead(PutHead(h)) == h
  {
    HeadParts(Le16(h.flags), Le32(h.isa), Le32(h.analyzer), Le32(h.version), Le32(h.count));
    FieldRoundTrips(h.flags, h.isa, 0);
    FieldRoundTrips(h.flags, h.analyzer, 0);
    FieldRoundTrips(h.flags, h.version, 0);
    FieldRoundTrips(h.flags, h.count, 0);
  }

  lemma BytesOfHead(s: seq<U8>)
    requires |s| == 18
    ensures PutHead(GetHead(s)) == s
  {
    LeOfFromLe(s[..2]);
    LeOfFromLe(s[2..6]);
    LeOfFromLe(s[6..10]);
    LeOfFromLe(s[10..14]);
    LeOfFromLe(s[14..18]);
    HeadJoins(s);
  }

  lemma HeadJoins(s: seq<U8>)
    requires |s| == 18
    ensures s[..2] + s[2..6] + s[6..10] + s[10..14] + s[14..18] == s
  {
  }

  // ---- the whole map ----

  function HeadOf(m: Map): Head {
    Head(m.flags, m.id.isa, m.id.analyzer, m.id.version, |m.entries|)
  }

  function MapBytes(m: Map): seq<U8> {
    Lead(MAGIC, VERSION) + PutHead(HeadOf(m)) + m.id.moduleHash + PutAll(ENTRIES, m.entries)
  }

  function ParseMap(b: seq<U8>): Result<Map> {
    if |b| < HEADER || Get32(b[..4]) != MAGIC || Get16(b[4..6]) != VERSION then Err(Format)
    else
      var h := GetHead(b[6..24]);
      if HEADER + h.count * ENTRY != |b| then Err(Format)
      else
        var es := GetAll(ENTRIES, b[56..], h.count);
        if !Ascending(es) then Err(Format)
        else Ok(Map(Identity(b[24..56], h.analyzer, h.version, h.isa), h.flags, es))
  }

  method SerializeMap(m: Map) returns (out: seq<U8>)
    ensures out == MapBytes(m)
  {
    out := WriteAll(ENTRIES, Lead(MAGIC, VERSION) + PutHead(HeadOf(m)) + m.id.moduleHash, m.entries);
  }

  lemma AscendingSnoc(es: seq<Entry>, e: Entry)
    ensures Ascending(es + [e]) <==> Ascending(es) && (es != [] ==> es[|es| - 1].pc < e.pc)
  {
    var all := es + [e];
    if Ascending(all) {
      forall i, j | 0 <= i < j < |es| ensures es[i].pc < es[j].pc {
        assert all[i] == es[i] && all[j] == es[j];
      }
      assert es != [] ==> all[|es| - 1] == es[|es| - 1] && all[|es|] == e;
    }
    if Ascending(es) && (es != [] ==> es[|es| - 1].pc < e.pc) {
      forall i, j | 0 <= i < j < |all| ensures all[i].pc < all[j].pc {
        assert i < |es| - 1 ==> es[i].pc < es[|es| - 1].pc;
      }
    }
  }

  lemma AscendingPrefix(es: seq<Entry>, k: nat)
    requires k <= |es| && Ascending(es)
    ensures Ascending(es[..k])
  {
  }

  /** The entry loop: reads an entry, refuses it unless its pc is above the one before. */
  method ReadEntries(r: Record<Entry>, s: seq<U8>, n: nat) returns (ok: bool, es: seq<Entry>)
    requires |s| == n * r.len
    ensures ok == Ascending(GetAll(r, s, n)) && (ok ==> es == GetAll(r, s, n))
  {
    ghost var all := GetAll(r, s, n);
    es := [];
    var p, prev, first := s, 0, true;
    for k := 0 to n
      invariant |p| == (n - k) * r.len && es + GetAll(r, p, n - k) == all
      invariant |es| == k && Ascending(es) && first == (es == []) && (!first ==> prev == es[k - 1].pc)
    {
      Product(n - k, r.len);
      var e := r.get(p[..r.len]);
      ghost var more := GetAll(r, p[r.len..], n - k - 1);
      assert es + ([e] + more) == (es + [e]) + more;
      AscendingSnoc(es, e);
      if !first && e.pc <= prev {
        assert all[..k + 1] == es + [e];
        if Ascending(all) {
          AscendingPrefix(all, k + 1);
        }
        return false, [];
      }
      es, prev, first, p := es + [e], e.pc, false, p[r.len..];
    }
    ok := true;
  }

  method ParseMapBytes(b: seq<U8>) returns (r: Result<Map>)
    ensures r == ParseMap(b)
  {
    if |b| < HEADER || Get32(b[..4]) != MAGIC || Get16(b[4..6]) != VERSION {
      return Err(Format);
    }
    var h := GetHead(b[6..24]);
    if HEADER + h.count * ENTRY != |b| {
      return Err(Format);
    }
    var ok, es := ReadEntries(ENTRIES, b[56..], h.count);
    if !ok {
      return Err(Format);
    }
    r := Ok(Map(Identity(b[24..56], h.analyzer, h.version, h.isa), h.flags, es));
  }

  // ---- layout ----

  lemma HeadReads(b: seq<U8>, h: Head)
    requires |b| >= 56 && b[6..24] == PutHead(h)
    ensures At(b, 6, 2) == h.flags && At(b, 8, 4) == h.isa && At(b, 12, 4) == h.analyzer
    ensures At(b, 16, 4) == h.version && At(b, 20, 4) == h.count
  {
    HeadOfBytes(h);
    SliceOfSlice(b, 6, 24, 0, 2);
    SliceOfSlice(b, 6, 24, 2, 6);
    SliceOfSlice(b, 6, 24, 6, 10);
    SliceOfSlice(b, 6, 24, 10, 14);
    SliceOfSlice(b, 6, 24, 14, 18);
    assert b[6..24][0..2] == b[6..24][..2];
  }

  lemma EntryReads(b: seq<U8>, e: Entry, off: nat)
    requires off + 12 <= |b| && b[off..off + 12] == PutEntry(e)
    ensures At(b, off, 8) == e.pc && b[off + 8] == e.mclass
    ensures b[off + 9] == e.eflags && b[off + 10] == 0 && b[off + 11] == 0
  {
    var s := b[off..off + 12];
    EntryOfBytes(e);
    SliceOfSlice(b, off, off + 12, 0, 8);
    assert s[0..8] == s[..8];
    assert s[8] == b[off + 8] && s[9] == b[off + 9] && s[10] == b[off + 10] && s[11] == b[off + 11];
  }

  lemma {:induction false} EntriesRead(es: seq<Entry>, k: nat)
    requires k < |es|
    ensures 12 * k + 12 <= |PutAll(ENTRIES, es)| && PutAll(ENTRIES, es)[12 * k..12 * k + 12] == PutEntry(es[k])
    decreases k
  {
    EntriesLawful();
    PutAllSize(ENTRIES, es);
    if k > 0 {
      EntriesRead(es[1..], k - 1);
      assert PutAll(ENTRIES, es)[12 * k..12 * k + 12] == PutAll(ENTRIES, es[1..])[12 * (k - 1)..12 * (k - 1) + 12];
    }
  }

  /** The header, byte offset by byte offset. */
  lemma MapHeaderLayout(m: Map)
    ensures var b := MapBytes(m);
            && At(b, 0, 4) == 0x31434d4f && At(b, 4, 2) == 1 && At(b, 6, 2) == m.flags
            && At(b, 8, 4) == m.id.isa && At(b, 12, 4) == m.id.analyzer && At(b, 16, 4) == m.id.version
            && At(b, 20, 4) == |m.entries| && |b| >= 56
            && b[24..56] == m.id.moduleHash && b[56..] == PutAll(ENTRIES, m.entries)
  {
    var b := MapBytes(m);
    Sections(Lead(MAGIC, VERSION), PutHead(HeadOf(m)), m.id.moduleHash, PutAll(ENTRIES, m.entries));
    LeadExactly(Lead(MAGIC, VERSION), MAGIC, VERSION);
    HeadReads(b, HeadOf(m));
    assert b[0..4] == b[..4];
  }

  lemma {:induction false} EntryIn(b: seq<U8>, es: seq<Entry>, k: nat)
    requires |b| >= 56 && b[56..] == PutAll(ENTRIES, es) && k < |es|
    ensures 56 + 12 * k + 12 <= |b| && b[56 + 12 * k..56 + 12 * k + 12] == PutEntry(es[k])
  {
    EntriesRead(es, k);
    SliceOfSlice(b, 56, |b|, 12 * k, 12 * k + 12);
    assert b[56..|b|] == b[56..];
  }

  /** Behind it, twelve bytes for each entry. */
  lemma {:induction false} EntryLayout(b: seq<U8>, es: seq<Entry>, k: nat)
    requires |b| >= 56 && b[56..] == PutAll(ENTRIES, es) && k < |es|
    ensures var e, off := es[k], 56 + 12 * k;
            && off + 12 <= |b| && At(b, off, 8) == e.pc && b[off + 8] == e.mclass && b[off + 9] == e.eflags
            && b[off + 10] == 0 && b[off + 11] == 0
  {
    EntryIn(b, es, k);
    EntryReads(b, es[k], 56 + 12 * k);
  }

  // ---- round trips ----

  lemma Sections(lead: seq<U8>, head: seq<U8>, hash: seq<U8>, body: seq<U8>)
    requires |lead| == 6 && |head| == 18 && |hash| == 32
    ensures var s := lead + head + hash + body;
            && |s| == 56 + |body| && s[..4] == lead[..4] && s[4..6] == lead[4..6]
            && s[6..24] == head && s[24..56] == hash && s[56..] == body
  {
  }

  /** Parsing undoes serializing for the maps whose pcs ascend strictly; the others are refused. */
  lemma ParseOfMapBytes(m: Map)
    ensures ParseMap(MapBytes(m)) == if Ascending(m.entries) then Ok(m) else Err(Format)
  {
    EntriesLawful();
    GetAllOfPutAll(ENTRIES, m.entries);
    Sections(Lead(MAGIC, VERSION), PutHead(HeadOf(m)), m.id.moduleHash, PutAll(ENTRIES, m.entries));
    LeadExactly(Lead(MAGIC, VERSION), MAGIC, VERSION);
    HeadOfBytes(HeadOf(m));
  }

  /** Different maps have different bytes, in whatever order their entries are. */
  lemma MapBytesInjective(m: Map, n: Map)
    requires MapBytes(m) == MapBytes(n)
    ensures m == n
  {
    EntriesLawful();
    GetAllOfPutAll(ENTRIES, m.entries);
    GetAllOfPutAll(ENTRIES, n.entries);
    Sections(Lead(MAGIC, VERSION), PutHead(HeadOf(m)), m.id.moduleHash, PutAll(ENTRIES, m.entries));
    Sections(Lead(MAGIC, VERSION), PutHead(HeadOf(n)), n.id.moduleHash, PutAll(ENTRIES, n.entries));
    HeadOfBytes(HeadOf(m));
    HeadOfBytes(HeadOf(n));
  }

  /** A buffer with its entries' reserved bytes zeroed. */
  function Canon(b: seq<U8>): seq<U8>
    requires |b| >= HEADER && (|b| - HEADER) % ENTRY == 0
  {
    b[..56] + CanonAll(ENTRIES, b[56..], (|b| - HEADER) / ENTRY)
  }

  lemma Rejoin56(b: seq<U8>)
    requires |b| >= 56
    ensures b[..6] + b[6..24] + b[24..56] == b[..56]
  {
  }

  lemma CountIs(n: nat, count: nat)
    requires HEADER + count * ENTRY == n
    ensures (n - HEADER) % ENTRY == 0 && (n - HEADER) / ENTRY == count
  {
  }

  lemma HeaderBack(b: seq<U8>)
    requires |b| >= 56 && Get32(b[..4]) == MAGIC && Get16(b[4..6]) == VERSION
    ensures Lead(MAGIC, VERSION) + PutHead(GetHead(b[6..24])) + b[24..56] == b[..56]
  {
    assert b[..6][..4] == b[..4] && b[..6][4..6] == b[4..6];
    LeadExactly(b[..6], MAGIC, VERSION);
    BytesOfHead(b[6..24]);
    Rejoin56(b);
  }

  /** Serializing what was parsed gives back the buffer up to the reserved bytes. */
  lemma MapBytesOfParse(b: seq<U8>)
    requires ParseMap(b).Ok?
    ensures |b| >= HEADER && (|b| - HEADER) % ENTRY == 0 && Ascending(ParseMap(b).value.entries)
    ensures MapBytes(ParseMap(b).value) == Canon(b)
  {
    EntriesLawful();
    CountIs(|b|, GetHead(b[6..24]).count);
    PutAllOfGetAll(ENTRIES, b[56..], GetHead(b[6..24]).count);
    HeaderBack(b);
  }
}
