/** The OTU1 translation-unit format. */
module TuFormat {
  import opened Words
  import opened Errors
  import opened Layout
  import Translate

  const MAGIC := 0x3155544f
  const VERSION := 1
  const HEADER := 84

  /** What identifies the code of a unit: guest block, translator, profile and ISA. */
  datatype Identity = Identity(isa: U32, translator: U32, version: U32, profile: U32, guestHash: Hash)

  datatype RawTu = Tu(id: Identity, flags: U32, entryPc: U64, guestLen: U32,
                      code: seq<U8>, relocs: seq<Translate.Reloc>, exits: seq<U64>)

  /** Every count fits its 32-bit field. */
  type Tu = t: RawTu | |t.code| < 0x1_0000_0000 && |t.relocs| < 0x1_0000_0000 && |t.exits| < 0x1_0000_0000
    witness Tu(Identity(0, 0, 0, 0, seq(32, k => 0)), 0, 0, 0, [], [], [])

  // ---- records ----

  const RELOC_WIDTHS: seq<nat> := [4, 4, 8]

  lemma RelocWidth()
    ensures Width(RELOC_WIDTHS) == 16
  {
    assert RELOC_WIDTHS[1..] == [4, 8] && RELOC_WIDTHS[1..][1..] == [8] && RELOC_WIDTHS[1..][1..][1..] == [];
  }

  function ToU32(v: nat): U32 { if v < TWO_32 then v else 0 }
  function ToWord(v: nat): U64 { if v < TWO_64 then v else 0 }

  function RelocFields(r: Translate.Reloc): (vs: seq<nat>) ensures |vs| == 3 { [r.offset, r.kind, r.target] }

  function PutReloc(r: Translate.Reloc): (s: seq<U8>)
    ensures |s| == 16
  {
    RelocWidth();
    Put(RELOC_WIDTHS, RelocFields(r))
  }

  function GetReloc(s: seq<U8>): Translate.Reloc {
    RelocWidth();
    if |s| != 16 then Translate.Reloc(0, 0, 0)
    else
      var vs := Get(RELOC_WIDTHS, s);
      Translate.Reloc(ToU32(vs[0]), ToU32(vs[1]), ToWord(vs[2]))
  }

  function Same(s: seq<U8>): seq<U8> { s }

  const RELOCS: Record<Translate.Reloc> := Record(16, PutReloc, GetReloc, Same)

  lemma RelocFits(r: Translate.Reloc)
    ensures Fits(RELOC_WIDTHS, RelocFields(r))
  {
    Pow256Widths();
  }

  lemma RelocFieldsBack(vs: seq<nat>)
    requires |vs| == 3 && Fits(RELOC_WIDTHS, vs)
    ensures RelocFields(Translate.Reloc(ToU32(vs[0]), ToU32(vs[1]), ToWord(vs[2]))) == vs
  {
    Pow256Widths();
    assert RELOC_WIDTHS[0] == 4 && RELOC_WIDTHS[1] == 4 && RELOC_WIDTHS[2] == 8;
  }

  lemma RelocsLawful()
    ensures Lawful(RELOCS)
  {
    RelocWidth();
    forall r ensures |RELOCS.put(r)| == 16 && RELOCS.get(RELOCS.put(r)) == r {
      RelocFits(r);
      GetOfPut(RELOC_WIDTHS, RelocFields(r));
    }
    forall s: seq<U8> | |s| == 16 ensures RELOCS.put(RELOCS.get(s)) == RELOCS.canon(s) {
      GetFits(RELOC_WIDTHS, s);
      RelocFieldsBack(Get(RELOC_WIDTHS, s));
      PutOfGet(RELOC_WIDTHS, s);
    }
  }

  function PutExit(e: U64): seq<U8> { Le64(e) }
  function GetExit(s: seq<U8>): U64 { if |s| == 8 then Get64(s) else 0 }

  const EXITS: Record<U64> := Record(8, PutExit, GetExit, Same)

  lemma ExitsLawful()
    ensures Lawful(EXITS)
  {
    forall e: U64 ensures |EXITS.put(e)| == 8 && EXITS.get(EXITS.put(e)) == e {
      FieldRoundTrips(0, 0, e);
    }
    forall s: seq<U8> | |s| == 8 ensures EXITS.put(EXITS.get(s)) == EXITS.canon(s) {
      LeOfFromLe(s);
    }
  }

  // ---- header ----

  /** The header fields between the reserved half-word and the hash. */
  datatype Head = Head(isa: U32, translator: U32, version: U32, profile: U32, flags: U32, entryPc: U64,
                       guestLen: U32, codeLen: U32, relocCount: U32, exitCount: U32)

  const HEAD_WIDTHS: seq<nat> := [4, 4, 4, 4, 4, 8, 4, 4, 4, 4]

  lemma WidthSteps(ws: seq<nat>, k: nat)
    requires k < |ws|
    ensures Width(ws[k..]) == ws[k] + Width(ws[k + 1..])
  {
    assert ws[k..][1..] == ws[k + 1..];
  }

  lemma HeadWidthEnd(ws: seq<nat>)
    requires |ws| == 10 && ws[5] == 8 && forall k :: 4 <= k < 10 && k != 5 ==> ws[k] == 4
    ensures Width(ws[4..]) == 28
  {
    assert ws[10..] == [] && Width(ws[10..]) == 0;
    WidthSteps(ws, 9);
    WidthSteps(ws, 8);
    WidthSteps(ws, 7);
    WidthSteps(ws, 6);
    WidthSteps(ws, 5);
    WidthSteps(ws, 4);
  }

  lemma HeadWidth()
    ensures Width(HEAD_WIDTHS) == 44
  {
    var ws := HEAD_WIDTHS;
    HeadWidthEnd(ws);
    WidthSteps(ws, 3);
    WidthSteps(ws, 2);
    WidthSteps(ws, 1);
    WidthSteps(ws, 0);
    assert ws[0..] == ws;
  }

  function HeadFields(h: Head): (vs: seq<nat>)
    ensures |vs| == 10
  {
    [h.isa, h.translator, h.version, h.profile, h.flags, h.entryPc, h.guestLen, h.codeLen, h.relocCount, h.exitCount]
  }

  function HeadOf(vs: seq<nat>): Head
    requires |vs| == 10
  {
    Head(ToU32(vs[0]), ToU32(vs[1]), ToU32(vs[2]), ToU32(vs[3]), ToU32(vs[4]), ToWord(vs[5]),
         ToU32(vs[6]), ToU32(vs[7]), ToU32(vs[8]), ToU32(vs[9]))
  }

  lemma HeadFits(h: Head)
    ensures Fits(HEAD_WIDTHS, HeadFields(h)) && HeadOf(HeadFields(h)) == h
  {
    Pow256Widths();
  }

  lemma HeadFieldsBack(vs: seq<nat>)
    requires |vs| == 10 && Fits(HEAD_WIDTHS, vs)
    ensures HeadFields(HeadOf(vs)) == vs
  {
    Pow256Widths();
    forall k | 0 <= k < 10 ensures HeadFields(HeadOf(vs))[k] == vs[k] {
      assert HEAD_WIDTHS[k] == if k == 5 then 8 else 4;
    }
  }

  function PutHead(h: Head): (s: seq<U8>)
    ensures |s| == 44
  {
    HeadWidth();
    Put(HEAD_WIDTHS, HeadFields(h))
  }

  function GetHead(s: seq<U8>): Head
    requires |s| == 44
  {
    HeadWidth();
    HeadOf(Get(HEAD_WIDTHS, s))
  }

  lemma HeadRoundTrips(h: Head, s: seq<U8>)
    requires |s| == 44
    ensures GetHead(PutHead(h)) == h && PutHead(GetHead(s)) == s
  {
    HeadWidth();
    HeadFits(h);
    GetOfPut(HEAD_WIDTHS, HeadFields(h));
    GetFits(HEAD_WIDTHS, s);
    HeadFieldsBack(Get(HEAD_WIDTHS, s));
    PutOfGet(HEAD_WIDTHS, s);
  }

  /** Where each header field starts, counted from the isa field. */
  lemma {:induction false} HeadOffset(i: nat)
    requires i <= 10
    ensures Width(HEAD_WIDTHS[..i]) == if i <= 5 then 4 * i else 4 * i + 4
  {
    if i > 0 {
      HeadOffset(i - 1);
      WidthSnoc(HEAD_WIDTHS, i - 1);
      assert HEAD_WIDTHS[i - 1] == if i == 6 then 8 else 4;
    } else {
      assert HEAD_WIDTHS[..0] == [];
    }
  }

  lemma HeadField(h: Head, i: nat)
    requires i < 10
    ensures var off := if i <= 5 then 4 * i else 4 * i + 4;
            var w := if i == 5 then 8 else 4;
            off + w <= 44 && PutHead(h)[off..off + w] == Le(HeadFields(h)[i], w)
  {
    HeadWidth();
    HeadOffset(i);
    FieldAt(HEAD_WIDTHS, HeadFields(h), i);
    assert HEAD_WIDTHS[i] == if i == 5 then 8 else 4;
  }

  // ---- the whole unit ----

  function HeadOfTu(t: Tu): Head {
    Head(t.id.isa, t.id.translator, t.id.version, t.id.profile, t.flags, t.entryPc, t.guestLen,
         |t.code|, |t.relocs|, |t.exits|)
  }

  /** The sections behind the header. */
  function BodyBytes(t: Tu): seq<U8> {
    t.code + PutAll(RELOCS, t.relocs) + PutAll(EXITS, t.exits)
  }

  function TuBytes(t: Tu): seq<U8> {
    Lead(MAGIC, VERSION) + [0, 0] + PutHead(HeadOfTu(t)) + t.id.guestHash + BodyBytes(t)
  }

  /** The size a header announces. */
  function Need(h: Head): nat {
    HEADER + h.codeLen + h.relocCount * 16 + h.exitCount * 8
  }

  function BodyOf(h: Head, hash: Hash, b: seq<U8>): Tu
    requires |b| == h.codeLen + h.relocCount * 16 + h.exitCount * 8
  {
    var relocsAt, exitsAt := h.codeLen, h.codeLen + h.relocCount * 16;
    Tu(Identity(h.isa, h.translator, h.version, h.profile, hash), h.flags, h.entryPc, h.guestLen,
       b[..relocsAt], GetAll(RELOCS, b[relocsAt..exitsAt], h.relocCount), GetAll(EXITS, b[exitsAt..], h.exitCount))
  }

  function ParseTu(b: seq<U8>): Result<Tu> {
    if |b| < HEADER then Err(Format)
    else if Get32(b[..4]) != MAGIC || Get16(b[4..6]) != VERSION then Err(Format)
    else
      var h := GetHead(b[8..52]);
      if Need(h) != |b| then Err(Format) else Ok(BodyOf(h, b[52..84], b[84..]))
  }

  lemma Associates(a: seq<U8>, b: seq<U8>, c: seq<U8>, d: seq<U8>)
    ensures a + b + c + d == a + (b + c + d)
  {
  }

  method SerializeTu(t: Tu) returns (out: seq<U8>)
    ensures out == TuBytes(t)
  {
    var header := Lead(MAGIC, VERSION) + [0, 0] + PutHead(HeadOfTu(t)) + t.id.guestHash;
    out := WriteAll(RELOCS, header + t.code, t.relocs);
    out := WriteAll(EXITS, out, t.exits);
    Associates(header, t.code, PutAll(RELOCS, t.relocs), PutAll(EXITS, t.exits));
  }

  /** The sections, read in order. */
  method ReadBody(h: Head, hash: Hash, body: seq<U8>) returns (t: Tu)
    requires |body| == h.codeLen + h.relocCount * 16 + h.exitCount * 8
    ensures t == BodyOf(h, hash, body)
  {
    var relocsAt, exitsAt := h.codeLen, h.codeLen + h.relocCount * 16;
    var relocs := ReadAll(RELOCS, body[relocsAt..exitsAt], h.relocCount);
    var exits := ReadAll(EXITS, body[exitsAt..], h.exitCount);
    t := Tu(Identity(h.isa, h.translator, h.version, h.profile, hash), h.flags, h.entryPc, h.guestLen,
            body[..relocsAt], relocs, exits);
  }

  method ParseTuBytes(b: seq<U8>) returns (r: Result<Tu>)
    ensures r == ParseTu(b)
  {
    if |b| < HEADER || Get32(b[..4]) != MAGIC || Get16(b[4..6]) != VERSION {
      return Err(Format);
    }
    var h := GetHead(b[8..52]);
    if Need(h) != |b| {
      return Err(Format);
    }
    var t := ReadBody(h, b[52..84], b[84..]);
    r := Ok(t);
  }

  // ---- layout ----

  lemma FieldReads(ws: seq<nat>, vs: seq<nat>, i: nat, s: seq<U8>)
    requires |ws| == |vs| && i < |ws| && Fits(ws, vs) && s == Le(vs[i], ws[i])
    ensures FromLe(s) == vs[i]
  {
    FromLeOfLe(vs[i], ws[i]);
  }

  lemma HeadAt(b: seq<U8>, h: Head, i: nat, off: nat, w: nat)
    requires |b| >= 84 && b[8..52] == PutHead(h) && i < 10
    requires off == (if i <= 5 then 4 * i else 4 * i + 4) && w == if i == 5 then 8 else 4
    ensures At(b, 8 + off, w) == HeadFields(h)[i]
  {
    HeadField(h, i);
    SliceOfSlice(b, 8, 52, off, off + w);
    HeadFits(h);
    FieldReads(HEAD_WIDTHS, HeadFields(h), i, b[8 + off..8 + off + w]);
  }

  lemma HeadReads(b: seq<U8>, h: Head)
    requires |b| >= 84 && b[8..52] == PutHead(h)
    ensures At(b, 8, 4) == h.isa && At(b, 12, 4) == h.translator
    ensures At(b, 16, 4) == h.version && At(b, 20, 4) == h.profile
    ensures At(b, 24, 4) == h.flags
  {
    HeadAt(b, h, 0, 0, 4);
    HeadAt(b, h, 1, 4, 4);
    HeadAt(b, h, 2, 8, 4);
    HeadAt(b, h, 3, 12, 4);
    HeadAt(b, h, 4, 16, 4);
  }

  lemma CountsRead(b: seq<U8>, h: Head)
    requires |b| >= 84 && b[8..52] == PutHead(h)
    ensures At(b, 28, 8) == h.entryPc && At(b, 36, 4) == h.guestLen
    ensures At(b, 40, 4) == h.codeLen && At(b, 44, 4) == h.relocCount && At(b, 48, 4) == h.exitCount
  {
    HeadAt(b, h, 5, 20, 8);
    HeadAt(b, h, 6, 28, 4);
    HeadAt(b, h, 7, 32, 4);
    HeadAt(b, h, 8, 36, 4);
    HeadAt(b, h, 9, 40, 4);
  }

  /** The header, byte offset by byte offset. */
  lemma TuLayout(t: Tu)
    ensures var b := TuBytes(t);
            && At(b, 0, 4) == 0x3155544f && At(b, 4, 2) == 1 && At(b, 6, 2) == 0
            && At(b, 8, 4) == t.id.isa && At(b, 12, 4) == t.id.translator && At(b, 16, 4) == t.id.version
            && At(b, 20, 4) == t.id.profile && At(b, 24, 4) == t.flags && At(b, 28, 8) == t.entryPc
            && At(b, 36, 4) == t.guestLen && At(b, 40, 4) == |t.code| && At(b, 44, 4) == |t.relocs|
            && At(b, 48, 4) == |t.exits| && |b| >= 84 && b[52..84] == t.id.guestHash && b[84..] == BodyBytes(t)
  {
    var head := PutHead(HeadOfTu(t));
    Sections(Lead(MAGIC, VERSION), [0, 0], head, t.id.guestHash, BodyBytes(t));
    Associates(Lead(MAGIC, VERSION) + [0, 0], head, t.id.guestHash, BodyBytes(t));
    LeadAt(TuBytes(t), head + t.id.guestHash + BodyBytes(t));
    HeadReads(TuBytes(t), HeadOfTu(t));
    CountsRead(TuBytes(t), HeadOfTu(t));
  }

  lemma LeadAt(b: seq<U8>, rest: seq<U8>)
    requires b == Lead(MAGIC, VERSION) + [0, 0] + rest
    ensures At(b, 0, 4) == MAGIC && At(b, 4, 2) == VERSION && At(b, 6, 2) == 0
  {
    LeadExactly(Lead(MAGIC, VERSION), MAGIC, VERSION);
    assert b[0..4] == Lead(MAGIC, VERSION)[..4] && b[4..6] == Lead(MAGIC, VERSION)[4..6] && b[6..8] == [0, 0];
    assert FromLe([0, 0]) == 0 + 256 * FromLe([0, 0][1..]);
  }

  lemma SectionSizes(t: Tu)
    ensures |PutAll(RELOCS, t.relocs)| == 16 * |t.relocs| && |PutAll(EXITS, t.exits)| == 8 * |t.exits|
  {
    RelocsLawful();
    ExitsLawful();
    PutAllSize(RELOCS, t.relocs);
    PutAllSize(EXITS, t.exits);
  }

  lemma RelocSlice(rs: seq<Translate.Reloc>, k: nat)
    requires k < |rs|
    ensures var s := PutAll(RELOCS, rs); 16 * k + 16 <= |s| && s[16 * k..16 * k + 16] == PutReloc(rs[k])
  {
    RelocsLawful();
    PutAllAt(RELOCS, rs, k, 16 * k);
  }

  lemma ExitSlice(es: seq<U64>, k: nat)
    requires k < |es|
    ensures var s := PutAll(EXITS, es); 8 * k + 8 <= |s| && s[8 * k..8 * k + 8] == Le64(es[k])
  {
    ExitsLawful();
    PutAllAt(EXITS, es, k, 8 * k);
  }

  /** The three sections behind the header, in order. */
  lemma BodyLayout(b: seq<U8>, t: Tu)
    requires |b| >= 84 && b[84..] == BodyBytes(t)
    ensures var relocsAt := 84 + |t.code|;
            var exitsAt := relocsAt + 16 * |t.relocs|;
            && |b| == exitsAt + 8 * |t.exits| && b[84..relocsAt] == t.code
            && b[relocsAt..exitsAt] == PutAll(RELOCS, t.relocs) && b[exitsAt..] == PutAll(EXITS, t.exits)
  {
    SectionSizes(t);
    BodySlices(b, t.code, PutAll(RELOCS, t.relocs), PutAll(EXITS, t.exits));
  }

  lemma BodySlices(b: seq<U8>, code: seq<U8>, relocs: seq<U8>, exits: seq<U8>)
    requires |b| >= 84 && b[84..] == code + relocs + exits
    ensures var r, e := 84 + |code|, 84 + |code| + |relocs|;
            |b| == e + |exits| && b[84..r] == code && b[r..e] == relocs && b[e..] == exits
  {
    var body := b[84..];
    BodyParts(code, relocs, exits);
    SliceOfTail(b, 84, 0, |code|);
    SliceOfTail(b, 84, |code|, |relocs|);
    SliceOfTail(b, 84, |code| + |relocs|, |exits|);
    assert body[0..|code|] == body[..|code|];
    assert body[|code| + |relocs|..|body|] == body[|code| + |relocs|..];
  }

  /** The fields of relocation `k`. */
  lemma RelocLayout(b: seq<U8>, t: Tu, k: nat)
    requires |b| >= 84 && b[84..] == BodyBytes(t) && k < |t.relocs|
    ensures var r, off := t.relocs[k], 84 + |t.code| + 16 * k;
            && off + 16 <= |b| && At(b, off, 4) == r.offset && At(b, off + 4, 4) == r.kind
            && At(b, off + 8, 8) == r.target
  {
    var at := 84 + |t.code|;
    BodyLayout(b, t);
    RelocSlice(t.relocs, k);
    SliceOfSlice(b, at, at + 16 * |t.relocs|, 16 * k, 16 * k + 16);
    RelocReads(b, t.relocs[k], at + 16 * k);
  }

  lemma RelocOffsets()
    ensures Width(RELOC_WIDTHS[..0]) == 0 && Width(RELOC_WIDTHS[..1]) == 4 && Width(RELOC_WIDTHS[..2]) == 8
  {
    assert RELOC_WIDTHS[..0] == [];
    WidthSnoc(RELOC_WIDTHS, 0);
    WidthSnoc(RELOC_WIDTHS, 1);
  }

  lemma RelocReads(b: seq<U8>, r: Translate.Reloc, off: nat)
    requires off + 16 <= |b| && b[off..off + 16] == PutReloc(r)
    ensures At(b, off, 4) == r.offset && At(b, off + 4, 4) == r.kind && At(b, off + 8, 8) == r.target
  {
    RelocWidth();
    RelocOffsets();
    RelocFits(r);
    var ws, vs := RELOC_WIDTHS, RelocFields(r);
    FieldAt(ws, vs, 0);
    FieldAt(ws, vs, 1);
    FieldAt(ws, vs, 2);
    SliceOfSlice(b, off, off + 16, 0, 4);
    SliceOfSlice(b, off, off + 16, 4, 8);
    SliceOfSlice(b, off, off + 16, 8, 16);
    FieldReads(ws, vs, 0, b[off..off + 4]);
    FieldReads(ws, vs, 1, b[off + 4..off + 8]);
    FieldReads(ws, vs, 2, b[off + 8..off + 16]);
  }

  /** The exits follow the relocations. */
  lemma ExitLayout(b: seq<U8>, t: Tu, k: nat)
    requires |b| >= 84 && b[84..] == BodyBytes(t) && k < |t.exits|
    ensures At(b, 84 + |t.code| + 16 * |t.relocs| + 8 * k, 8) == t.exits[k]
  {
    var at := 84 + |t.code| + 16 * |t.relocs|;
    BodyLayout(b, t);
    ExitSlice(t.exits, k);
    SliceOfTail(b, at, 8 * k, 8);
    FieldRoundTrips(0, 0, t.exits[k]);
  }

  // ---- round trips ----

  lemma Sections(lead: seq<U8>, gap: seq<U8>, head: seq<U8>, hash: seq<U8>, body: seq<U8>)
    requires |lead| == 6 && |gap| == 2 && |head| == 44 && |hash| == 32
    ensures var s := lead + gap + head + hash + body;
            && |s| == 84 + |body| && s[..4] == lead[..4] && s[4..6] == lead[4..6]
            && s[8..52] == head && s[52..84] == hash && s[84..] == body
  {
  }

  lemma BodyParts(code: seq<U8>, relocs: seq<U8>, exits: seq<U8>)
    ensures var b, r, e := code + relocs + exits, |code|, |code| + |relocs|;
            b[..r] == code && b[r..e] == relocs && b[e..] == exits
  {
  }

  lemma BodyRoundTrip(t: Tu)
    ensures |BodyBytes(t)| == |t.code| + |t.relocs| * 16 + |t.exits| * 8
    ensures BodyOf(HeadOfTu(t), t.id.guestHash, BodyBytes(t)) == t
  {
    RelocsLawful();
    ExitsLawful();
    GetAllOfPutAll(RELOCS, t.relocs);
    GetAllOfPutAll(EXITS, t.exits);
    BodyParts(t.code, PutAll(RELOCS, t.relocs), PutAll(EXITS, t.exits));
  }

  /** Parsing undoes serializing, for every unit. */
  lemma ParseOfTuBytes(t: Tu)
    ensures ParseTu(TuBytes(t)) == Ok(t)
  {
    var head := PutHead(HeadOfTu(t));
    Sections(Lead(MAGIC, VERSION), [0, 0], head, t.id.guestHash, BodyBytes(t));
    LeadExactly(Lead(MAGIC, VERSION), MAGIC, VERSION);
    HeadRoundTrips(HeadOfTu(t), head);
    BodyRoundTrip(t);
  }

  /** So different units have different bytes. */
  lemma TuBytesInjective(t: Tu, u: Tu)
    requires TuBytes(t) == TuBytes(u)
    ensures t == u
  {
    ParseOfTuBytes(t);
    ParseOfTuBytes(u);
  }

  lemma Rejoin(b: seq<U8>, i: nat, j: nat)
    requires i <= j <= |b|
    ensures b[..i] + b[i..j] + b[j..] == b
  {
  }

  lemma Rejoin84(b: seq<U8>)
    requires |b| >= 84
    ensures b[..6] + [0, 0] + b[8..52] + b[52..84] + b[84..] == b[..6] + [0, 0] + b[8..]
  {
  }

  lemma RecordsBack<T(!new)>(r: Record<T>, s: seq<U8>, n: nat)
    requires Lawful(r) && |s| == n * r.len && forall x :: r.canon(x) == x
    ensures PutAll(r, GetAll(r, s, n)) == s
  {
    PutAllOfGetAll(r, s, n);
    CanonIsSame(r, s, n);
  }

  lemma BodyBack(h: Head, hash: Hash, b: seq<U8>)
    requires |b| == h.codeLen + h.relocCount * 16 + h.exitCount * 8
    ensures BodyBytes(BodyOf(h, hash, b)) == b && HeadOfTu(BodyOf(h, hash, b)) == h
  {
    RelocsLawful();
    ExitsLawful();
    var relocsAt, exitsAt := h.codeLen, h.codeLen + h.relocCount * 16;
    RecordsBack(RELOCS, b[relocsAt..exitsAt], h.relocCount);
    RecordsBack(EXITS, b[exitsAt..], h.exitCount);
    Rejoin(b, relocsAt, exitsAt);
  }

  /** Serializing what was parsed gives back the buffer, except for the reserved half-word, which
      parsing ignores. */
  lemma TuBytesOfParse(b: seq<U8>)
    requires ParseTu(b).Ok?
    ensures |b| >= HEADER && TuBytes(ParseTu(b).value) == b[..6] + [0, 0] + b[8..]
  {
    var h := GetHead(b[8..52]);
    assert b[..6][..4] == b[..4] && b[..6][4..6] == b[4..6];
    LeadExactly(b[..6], MAGIC, VERSION);
    HeadRoundTrips(h, b[8..52]);
    BodyBack(h, b[52..84], b[84..]);
    Rejoin84(b);
  }

  /** A buffer is accepted exactly when it is some unit's bytes, up to the reserved half-word. */
  lemma AcceptedExactly(b: seq<U8>)
    ensures ParseTu(b).Ok? <==> |b| >= 8 && exists t: Tu :: TuBytes(t) == b[..6] + [0, 0] + b[8..]
  {
    if ParseTu(b).Ok? {
      TuBytesOfParse(b);
    }
    if |b| >= 8 {
      if t: Tu :| TuBytes(t) == b[..6] + [0, 0] + b[8..] {
        ParseOfTuBytes(t);
        ReservedIgnored(TuBytes(t), b);
      }
    }
  }

  lemma ReservedIgnored(a: seq<U8>, b: seq<U8>)
    requires |b| >= 8 && a == b[..6] + [0, 0] + b[8..]
    ensures ParseTu(a) == ParseTu(b)
  {
    if |b| >= HEADER {
      OutsideGap(a, b, 0, 4);
      OutsideGap(a, b, 4, 6);
      OutsideGap(a, b, 8, 52);
      OutsideGap(a, b, 52, 84);
      OutsideGap(a, b, 84, |b|);
      assert a[0..4] == a[..4] && b[0..4] == b[..4] && a[84..|b|] == a[84..] && b[84..|b|] == b[84..];
    }
  }

  lemma OutsideGap(a: seq<U8>, b: seq<U8>, i: nat, j: nat)
    requires |b| >= 8 && a == b[..6] + [0, 0] + b[8..] && i <= j <= |b| && (j <= 6 || 8 <= i)
    ensures |a| == |b| && a[i..j] == b[i..j]
  {
  }
}
