/** The content-addressed store: blobs named by the hash of their bytes, an index from logical keys
    to addresses. Files are two maps; writes succeed. */
module Store {
  import opened Words
  import opened Errors
  import TuFormat
  import MapFormat

  const HEX_LEN := 64

  predicate IsHexDigit(c: char) {
    '0' <= c <= '9' || 'a' <= c <= 'f'
  }

  predicate IsHex64(s: string) {
    |s| == HEX_LEN && forall k :: 0 <= k < |s| ==> IsHexDigit(s[k])
  }

  lemma HexExactly(s: string)
    ensures IsHex64(s) <==> |s| == 64 && forall k :: 0 <= k < |s| ==> s[k] in "0123456789abcdef"
  {
    forall k | 0 <= k < |s| ensures IsHexDigit(s[k]) <==> s[k] in "0123456789abcdef" {
      DigitExactly(s[k]);
    }
  }

  lemma DigitExactly(c: char)
    ensures IsHexDigit(c) <==> c in "0123456789abcdef"
  {
    var digits := "0123456789abcdef";
    if IsHexDigit(c) {
      var k: nat := if c <= '9' then c as int - '0' as int else c as int - 'a' as int + 10;
      assert digits[k] == c;
    }
  }

  /** The hex digest of some bytes. */
  type Digest = seq<U8> -> string

  ghost predicate GivesHex(h: Digest) {
    forall b :: IsHex64(h(b))
  }

  /** No two of these byte strings share a digest. */
  ghost predicate CollisionFree(h: Digest, all: set<seq<U8>>) {
    forall a, b :: a in all && b in all && h(a) == h(b) ==> a == b
  }

  /** What is on disk. */
  datatype Files = Files(blobs: map<string, seq<U8>>, index: map<string, string>)

  // ---- the operations, on files ----

  function Stored(h: Digest, f: Files, data: seq<U8>, key: string): Files {
    var addr := h(data);
    Files(if addr in f.blobs then f.blobs else f.blobs[addr := data], f.index[key := addr])
  }

  function Blob(h: Digest, f: Files, addr: string): Result<seq<U8>> {
    if !IsHex64(addr) then Err(Inval)
    else if addr !in f.blobs then Err(NotFound)
    else if h(f.blobs[addr]) != addr then Err(Integrity)
    else Ok(f.blobs[addr])
  }

  function Resolved(f: Files, key: string): Result<string> {
    if !IsHex64(key) then Err(Inval)
    else if key !in f.index then Err(NotFound)
    else if |f.index[key]| < HEX_LEN then Err(Format)
    else if !IsHex64(f.index[key][..HEX_LEN]) then Err(Format)
    else Ok(f.index[key][..HEX_LEN])
  }

  function Fetched(h: Digest, f: Files, key: string): Result<seq<U8>> {
    var addr := Resolved(f, key);
    if addr.Err? then Err(addr.error) else Blob(h, f, addr.value)
  }

  class Cache {
    var blobs: map<string, seq<U8>>
    var index: map<string, string>
    const h: Digest

    constructor (h: Digest)
      ensures Disk() == Files(map[], map[]) && this.h == h
    {
      blobs, index := map[], map[];
      this.h := h;
    }

    function Disk(): Files
      reads this
    {
      Files(blobs, index)
    }

    /** The blob is written only if absent; the index is always pointed at it. */
    method PutBlob(data: seq<U8>, key: string) returns (r: Result<string>)
      modifies this
      ensures r == if IsHex64(key) then Ok(h(data)) else Err(Inval)
      ensures Disk() == if IsHex64(key) then Stored(h, old(Disk()), data, key) else old(Disk())
    {
      if !IsHex64(key) {
        return Err(Inval);
      }
      var addr := h(data);
      if addr !in blobs {
        blobs := blobs[addr := data];
      }
      index := index[key := addr];
      r := Ok(addr);
    }

    /** Whatever comes back hashes to the address asked for. */
    method GetBlob(addr: string) returns (r: Result<seq<U8>>)
      ensures r == Blob(h, Disk(), addr)
      ensures r.Ok? ==> h(r.value) == addr
    {
      if !IsHex64(addr) {
        return Err(Inval);
      }
      if addr !in blobs {
        return Err(NotFound);
      }
      var bytes := blobs[addr];
      if h(bytes) != addr {
        return Err(Integrity);
      }
      r := Ok(bytes);
    }

    method Resolve(key: string) returns (r: Result<string>)
      ensures r == Resolved(Disk(), key)
    {
      if !IsHex64(key) {
        return Err(Inval);
      }
      if key !in index {
        return Err(NotFound);
      }
      if |index[key]| < HEX_LEN {
        return Err(Format);
      }
      var addr := index[key][..HEX_LEN];
      if !IsHex64(addr) {
        return Err(Format);
      }
      r := Ok(addr);
    }

    method PutTu(t: TuFormat.Tu) returns (r: Result<string>)
      modifies this
      ensures var key := TuKey(h, t.id);
              && (r.Ok? <==> IsHex64(key))
              && Disk() == (if IsHex64(key) then Stored(h, old(Disk()), TuFormat.TuBytes(t), key) else old(Disk()))
    {
      var bytes := TuFormat.SerializeTu(t);
      r := PutBlob(bytes, TuKey(h, t.id));
    }

    method GetTu(key: string) returns (r: Result<TuFormat.Tu>)
      ensures r == FetchedTu(h, Disk(), key)
    {
      var addr := Resolve(key);
      if addr.Err? {
        return Err(addr.error);
      }
      var bytes := GetBlob(addr.value);
      if bytes.Err? {
        return Err(bytes.error);
      }
      r := TuFormat.ParseTuBytes(bytes.value);
    }

    method PutMap(m: MapFormat.Map) returns (r: Result<string>)
      modifies this
      ensures var key := MapKey(h, m.id);
              && (r.Ok? <==> IsHex64(key))
              && Disk() == (if IsHex64(key) then Stored(h, old(Disk()), MapFormat.MapBytes(m), key) else old(Disk()))
    {
      var bytes := MapFormat.SerializeMap(m);
      r := PutBlob(bytes, MapKey(h, m.id));
    }

    method GetMap(id: MapFormat.Identity) returns (r: Result<MapFormat.Map>)
      ensures r == FetchedMap(h, Disk(), id)
    {
      var addr := Resolve(MapKey(h, id));
      if addr.Err? {
        return Err(addr.error);
      }
      var bytes := GetBlob(addr.value);
      if bytes.Err? {
        return Err(bytes.error);
      }
      var m := MapFormat.ParseMapBytes(bytes.value);
      if m.Err? {
        return m;
      }
      if m.value.id.moduleHash != id.moduleHash {
        return Err(Integrity);
      }
      if m.value.id.analyzer != id.analyzer || m.value.id.version != id.version || m.value.id.isa != id.isa {
        return Err(Integrity);
      }
      r := m;
    }
  }

  // ---- keys ----

  function TuPreimage(id: TuFormat.Identity): seq<U8> {
    id.guestHash + Le32(id.translator) + Le32(id.version) + Le32(id.profile) + Le32(id.isa)
  }

  function TuKey(h: Digest, id: TuFormat.Identity): string {
    h(TuPreimage(id))
  }

  function MapPreimage(id: MapFormat.Identity): seq<U8> {
    id.moduleHash + Le32(id.analyzer) + Le32(id.version) + Le32(id.isa)
  }

  function MapKey(h: Digest, id: MapFormat.Identity): string {
    h(MapPreimage(id))
  }

  function FetchedTu(h: Digest, f: Files, key: string): Result<TuFormat.Tu> {
    var b := Fetched(h, f, key);
    if b.Err? then Err(b.error) else TuFormat.ParseTu(b.value)
  }

  function FetchedMap(h: Digest, f: Files, id: MapFormat.Identity): Result<MapFormat.Map> {
    var b := Fetched(h, f, MapKey(h, id));
    if b.Err? then Err(b.error)
    else
      var m := MapFormat.ParseMap(b.value);
      if m.Err? then m else if m.value.id != id then Err(Integrity) else m
  }

  /** What the keys are hashes of: the content hash, then the other identifiers, four bytes each. */
  lemma PreimageLayouts(i: TuFormat.Identity, m: MapFormat.Identity)
    ensures var b := TuPreimage(i);
            && |b| == 48 && b[..32] == i.guestHash && b[32..36] == Le32(i.translator) && b[36..40] == Le32(i.version)
            && b[40..44] == Le32(i.profile) && b[44..] == Le32(i.isa)
    ensures var b := MapPreimage(m);
            && |b| == 44 && b[..32] == m.moduleHash && b[32..36] == Le32(m.analyzer) && b[36..40] == Le32(m.version)
            && b[40..] == Le32(m.isa)
  {
  }

  lemma Word32Injective(a: U32, b: U32)
    requires Le32(a) == Le32(b)
    ensures a == b
  {
    FieldRoundTrips(0, a, 0);
    FieldRoundTrips(0, b, 0);
  }

  lemma SplitEqual(a: seq<U8>, b: seq<U8>, c: seq<U8>, d: seq<U8>)
    requires a + b == c + d && |b| == |d|
    ensures a == c && b == d
  {
    assert |a| == |c|;
    assert a == (a + b)[..|a|] && c == (c + d)[..|c|] && b == (a + b)[|a|..] && d == (c + d)[|c|..];
  }

  /** A unit's key preimage determines its identity. */
  lemma TuPreimageInjective(i: TuFormat.Identity, j: TuFormat.Identity)
    requires TuPreimage(i) == TuPreimage(j)
    ensures i == j
  {
    var a1, b1 := i.guestHash + Le32(i.translator), j.guestHash + Le32(j.translator);
    var a2, b2 := a1 + Le32(i.version), b1 + Le32(j.version);
    var a3, b3 := a2 + Le32(i.profile), b2 + Le32(j.profile);
    SplitEqual(a3, Le32(i.isa), b3, Le32(j.isa));
    SplitEqual(a2, Le32(i.profile), b2, Le32(j.profile));
    SplitEqual(a1, Le32(i.version), b1, Le32(j.version));
    SplitEqual(i.guestHash, Le32(i.translator), j.guestHash, Le32(j.translator));
    Word32Injective(i.translator, j.translator);
    Word32Injective(i.version, j.version);
    Word32Injective(i.profile, j.profile);
    Word32Injective(i.isa, j.isa);
  }

  lemma MapPreimageInjective(i: MapFormat.Identity, j: MapFormat.Identity)
    requires MapPreimage(i) == MapPreimage(j)
    ensures i == j
  {
    var a1, b1 := i.moduleHash + Le32(i.analyzer), j.moduleHash + Le32(j.analyzer);
    var a2, b2 := a1 + Le32(i.version), b1 + Le32(j.version);
    SplitEqual(a2, Le32(i.isa), b2, Le32(j.isa));
    SplitEqual(a1, Le32(i.version), b1, Le32(j.version));
    SplitEqual(i.moduleHash, Le32(i.analyzer), j.moduleHash, Le32(j.analyzer));
    Word32Injective(i.analyzer, j.analyzer);
    Word32Injective(i.version, j.version);
    Word32Injective(i.isa, j.isa);
  }

  /** With a collision-free hash, keys are as distinct as identities, and no unit shares a key with a
      map. */
  lemma KeysApart(h: Digest, i: TuFormat.Identity, j: TuFormat.Identity, m: MapFormat.Identity, n: MapFormat.Identity)
    requires CollisionFree(h, {TuPreimage(i), TuPreimage(j), MapPreimage(m), MapPreimage(n)})
    ensures TuKey(h, i) == TuKey(h, j) <==> i == j
    ensures MapKey(h, m) == MapKey(h, n) <==> m == n
    ensures TuKey(h, i) != MapKey(h, m)
  {
    if TuKey(h, i) == TuKey(h, j) {
      TuPreimageInjective(i, j);
    }
    if MapKey(h, m) == MapKey(h, n) {
      MapPreimageInjective(m, n);
    }
    assert |TuPreimage(i)| == 48 && |MapPreimage(m)| == 44;
  }

  // ---- runs ----

  datatype Event =
    | Put(key: string, data: seq<U8>)
    | Overwrite(addr: string, bytes: seq<U8>)   // corrupt a blob, or plant one
    | Delete(addr: string)
    | Redirect(key: string, entry: string)      // corrupt an index entry, or plant one
    | Unlink(key: string)

  function Next(h: Digest, f: Files, e: Event): Files {
    match e
    case Put(key, data) => if IsHex64(key) then Stored(h, f, data, key) else f
    case Overwrite(addr, bytes) => f.(blobs := f.blobs[addr := bytes])
    case Delete(addr) => f.(blobs := f.blobs - {addr})
    case Redirect(key, entry) => f.(index := f.index[key := entry])
    case Unlink(key) => f.(index := f.index - {key})
  }

  function Run(h: Digest, events: seq<Event>): Files {
    if events == [] then Files(map[], map[])
    else Next(h, Run(h, events[..|events| - 1]), events[|events| - 1])
  }

  predicate PutsUnder(e: Event, key: string) {
    e.Put? && e.key == key && IsHex64(key)
  }

  /** What was last put under a key. */
  function LastPut(events: seq<Event>, key: string): Option<seq<U8>> {
    if events == [] then None
    else
      var n := |events| - 1;
      if PutsUnder(events[n], key) then Some(events[n].data) else LastPut(events[..n], key)
  }

  /** The key's index entry has not been damaged since. */
  predicate EntryKept(events: seq<Event>, key: string) {
    events == [] ||
    var n := |events| - 1;
    PutsUnder(events[n], key)
    || (!((events[n].Redirect? || events[n].Unlink?) && events[n].key == key) && EntryKept(events[..n], key))
  }

  /** Every byte string that was put or planted. */
  ghost function Content(events: seq<Event>): set<seq<U8>> {
    if events == [] then {}
    else
      var n := |events| - 1;
      Content(events[..n])
      + (if events[n].Put? then {events[n].data} else if events[n].Overwrite? then {events[n].bytes} else {})
  }

  lemma {:induction false} BlobsAreContent(h: Digest, events: seq<Event>)
    ensures forall a :: a in Run(h, events).blobs ==> Run(h, events).blobs[a] in Content(events)
  {
    if events != [] {
      BlobsAreContent(h, events[..|events| - 1]);
    }
  }

  lemma {:induction false} LastIsContent(events: seq<Event>, key: string)
    requires LastPut(events, key).Some?
    ensures LastPut(events, key).value in Content(events)
  {
    var n := |events| - 1;
    if !PutsUnder(events[n], key) {
      LastIsContent(events[..n], key);
    }
  }

  /** Damage to blobs never touches the index. */
  lemma {:induction false} IndexIsLast(h: Digest, events: seq<Event>, key: string)
    requires EntryKept(events, key)
    ensures var f, last := Run(h, events), LastPut(events, key);
            (key in f.index <==> last.Some?) && (last.Some? ==> IsHex64(key) && f.index[key] == h(last.value))
  {
    if events != [] && !PutsUnder(events[|events| - 1], key) {
      IndexIsLast(h, events[..|events| - 1], key);
    }
  }

  lemma WholeIsPrefix(s: string)
    requires |s| == HEX_LEN
    ensures s[..HEX_LEN] == s
  {
  }

  lemma KeptResolves(h: Digest, events: seq<Event>, key: string)
    requires GivesHex(h) && EntryKept(events, key)
    ensures var last := LastPut(events, key);
            if last.Some? then Resolved(Run(h, events), key) == Ok(h(last.value))
            else Resolved(Run(h, events), key).Err?
  {
    IndexIsLast(h, events, key);
    if LastPut(events, key).Some? {
      WholeIsPrefix(h(LastPut(events, key).value));
    }
  }

  /** A blob that hashes to its name. */
  predicate IntactAt(h: Digest, f: Files, addr: string) {
    addr in f.blobs && h(f.blobs[addr]) == addr
  }

  lemma FetchedIs(h: Digest, f: Files, key: string)
    ensures var a, r := Resolved(f, key), Fetched(h, f, key);
            (r.Ok? <==> a.Ok? && IntactAt(h, f, a.value)) && (r.Ok? ==> r.value == f.blobs[a.value])
  {
  }

  /** An intact blob in the place of something put is that. */
  lemma IntactIsPut(h: Digest, events: seq<Event>, key: string, addr: string)
    requires CollisionFree(h, Content(events)) && LastPut(events, key).Some? && IntactAt(h, Run(h, events), addr)
    ensures addr == h(LastPut(events, key).value) <==> Run(h, events).blobs[addr] == LastPut(events, key).value
  {
    LastIsContent(events, key);
    BlobsAreContent(h, events);
  }

  /** Over any run of puts and of damage to blobs and index: a get returns an error or what was last put
      under the key exactly when the entry resolves to no other intact blob. */
  lemma GetExactly(h: Digest, events: seq<Event>, key: string)
    requires CollisionFree(h, Content(events)) && LastPut(events, key).Some?
    ensures var f, d := Run(h, events), LastPut(events, key).value;
            var a, r := Resolved(f, key), Fetched(h, f, key);
            && (r.Err? || r == Ok(d) <==> a.Err? || a.value == h(d) || !IntactAt(h, f, a.value))
            && (r == Ok(d) <==> a == Ok(h(d)) && IntactAt(h, f, h(d)))
  {
    var f := Run(h, events);
    FetchedIs(h, f, key);
    var a := Resolved(f, key);
    if a.Ok? && IntactAt(h, f, a.value) {
      IntactIsPut(h, events, key, a.value);
    }
  }

  /** With the index undamaged, a get returns an error or exactly what was last put under the key; it
      succeeds exactly when that blob is there undamaged. */
  lemma GetIsLastPut(h: Digest, events: seq<Event>, key: string)
    requires GivesHex(h) && CollisionFree(h, Content(events)) && EntryKept(events, key)
    ensures var f, last := Run(h, events), LastPut(events, key);
            Fetched(h, f, key).Ok? <==> last.Some? && IntactAt(h, f, h(last.value))
    ensures Fetched(h, Run(h, events), key).Ok? ==> Fetched(h, Run(h, events), key) == Ok(LastPut(events, key).value)
  {
    KeptResolves(h, events, key);
    FetchedIs(h, Run(h, events), key);
    if LastPut(events, key).Some? {
      GetExactly(h, events, key);
    }
  }

  /** The same for translation units. */
  lemma GetTuIsLastPut(h: Digest, events: seq<Event>, key: string, t: TuFormat.Tu)
    requires GivesHex(h) && CollisionFree(h, Content(events)) && EntryKept(events, key)
    requires LastPut(events, key) == Some(TuFormat.TuBytes(t))
    ensures var f := Run(h, events);
            if IntactAt(h, f, h(TuFormat.TuBytes(t))) then FetchedTu(h, f, key) == Ok(t) else FetchedTu(h, f, key).Err?
  {
    GetIsLastPut(h, events, key);
    TuFormat.ParseOfTuBytes(t);
  }

  /** And for maps, which must have ascending pcs to parse. */
  lemma GetMapIsLastPut(h: Digest, events: seq<Event>, m: MapFormat.Map)
    requires GivesHex(h) && CollisionFree(h, Content(events)) && EntryKept(events, MapKey(h, m.id))
    requires LastPut(events, MapKey(h, m.id)) == Some(MapFormat.MapBytes(m))
    ensures var f := Run(h, events);
            if IntactAt(h, f, h(MapFormat.MapBytes(m))) && MapFormat.Ascending(m.entries)
            then FetchedMap(h, f, m.id) == Ok(m) else FetchedMap(h, f, m.id).Err?
  {
    GetIsLastPut(h, events, MapKey(h, m.id));
    MapFormat.ParseOfMapBytes(m);
  }

  /** No damage: every get succeeds. */
  lemma UndamagedIsComplete(h: Digest, events: seq<Event>, key: string)
    requires GivesHex(h) && CollisionFree(h, Content(events)) && LastPut(events, key).Some?
    requires forall k :: 0 <= k < |events| ==> events[k].Put?
    ensures Fetched(h, Run(h, events), key) == Ok(LastPut(events, key).value)
  {
    PutsKeepBlobs(h, events);
    PutsKeepEntries(events, key);
    LastIsStored(h, events, key);
    GetIsLastPut(h, events, key);
  }

  ghost predicate Intact(h: Digest, f: Files) {
    forall a :: a in f.blobs ==> IntactAt(h, f, a)
  }

  lemma {:induction false} PutsKeepBlobs(h: Digest, events: seq<Event>)
    requires forall k :: 0 <= k < |events| ==> events[k].Put?
    ensures Intact(h, Run(h, events))
  {
    if events != [] {
      PutsKeepBlobs(h, events[..|events| - 1]);
    }
  }

  lemma {:induction false} PutsKeepEntries(events: seq<Event>, key: string)
    requires forall k :: 0 <= k < |events| ==> events[k].Put?
    ensures EntryKept(events, key)
  {
    if events != [] {
      PutsKeepEntries(events[..|events| - 1], key);
    }
  }

  lemma {:induction false} LastIsStored(h: Digest, events: seq<Event>, key: string)
    requires (forall k :: 0 <= k < |events| ==> events[k].Put?) && LastPut(events, key).Some?
    ensures h(LastPut(events, key).value) in Run(h, events).blobs
  {
    var n := |events| - 1;
    if !PutsUnder(events[n], key) {
      LastIsStored(h, events[..n], key);
    }
  }

  /** A put makes a get succeed exactly when the blob was absent or intact: a damaged one is left alone,
      because the file exists. */
  lemma PutRepairsExactly(h: Digest, f: Files, data: seq<U8>, key: string)
    requires GivesHex(h) && IsHex64(key)
    ensures Fetched(h, Stored(h, f, data, key), key).Ok? <==> h(data) !in f.blobs || IntactAt(h, f, h(data))
    ensures h(data) !in f.blobs ==> Fetched(h, Stored(h, f, data, key), key) == Ok(data)
  {
    WholeIsPrefix(h(data));
  }

  // ---- damage to the index ----

  /** Over any run, map retrieval returns an error or a map made for the requested identity, parsed from
      bytes that were put or planted and that hash to the address the entry names. */
  lemma MapIsGenuine(h: Digest, events: seq<Event>, id: MapFormat.Identity)
    ensures var f := Run(h, events);
            var r := FetchedMap(h, f, id);
            r.Err? || (r.value.id == id
              && exists b :: b in Content(events) && MapFormat.ParseMap(b) == r
                          && Resolved(f, MapKey(h, id)) == Ok(h(b)))
  {
    var f := Run(h, events);
    FetchedIs(h, f, MapKey(h, id));
    BlobsAreContent(h, events);
    if FetchedMap(h, f, id).Ok? {
      var b := Fetched(h, f, MapKey(h, id)).value;
      assert b in Content(events) && MapFormat.ParseMap(b) == FetchedMap(h, f, id);
    }
  }

  /** The entry names an intact blob that parses to another unit. */
  predicate NamesAnother(h: Digest, f: Files, key: string, t: TuFormat.Tu) {
    var a := Resolved(f, key);
    a.Ok? && IntactAt(h, f, a.value)
    && TuFormat.ParseTu(f.blobs[a.value]).Ok? && TuFormat.ParseTu(f.blobs[a.value]).value != t
  }

  /** Unit retrieval has no identity check: over any run it returns an error or the unit last put exactly
      when the entry still names that unit's address, or names no intact blob of another unit. */
  lemma GetTuExactly(h: Digest, events: seq<Event>, key: string, t: TuFormat.Tu)
    requires CollisionFree(h, Content(events)) && LastPut(events, key) == Some(TuFormat.TuBytes(t))
    ensures var f := Run(h, events);
            var r := FetchedTu(h, f, key);
            r.Err? || r == Ok(t) <==> Resolved(f, key) == Ok(h(TuFormat.TuBytes(t))) || !NamesAnother(h, f, key, t)
  {
    var f := Run(h, events);
    FetchedIs(h, f, key);
    GetExactly(h, events, key);
    TuFormat.ParseOfTuBytes(t);
  }

  lemma ThreeEvents(h: Digest, a: Event, b: Event, c: Event)
    ensures Run(h, [a, b, c]) == Next(h, Next(h, Next(h, Files(map[], map[]), a), b), c)
  {
    assert [a, b, c][..2] == [a, b] && [a, b][..1] == [a] && [a][..0] == [];
    assert Run(h, []) == Files(map[], map[]);
    assert Run(h, [a]) == Next(h, Run(h, []), a);
    assert Run(h, [a, b]) == Next(h, Run(h, [a]), b);
  }

  /** Two puts, and the second key's entry redirected to the first one's blob. */
  function Redirection(h: Digest, theirs: string, mine: string, d: seq<U8>, e: seq<U8>): seq<Event> {
    [Put(theirs, d), Put(mine, e), Redirect(mine, h(d))]
  }

  lemma RedirectionServes(h: Digest, theirs: string, mine: string, d: seq<U8>, e: seq<U8>)
    requires GivesHex(h) && IsHex64(theirs) && IsHex64(mine)
    ensures var events := Redirection(h, theirs, mine, d, e);
            LastPut(events, mine) == Some(e) && Fetched(h, Run(h, events), mine) == Ok(d)
  {
    var a, b, c := Put(theirs, d), Put(mine, e), Redirect(mine, h(d));
    ThreeEvents(h, a, b, c);
    assert [a, b, c][..2] == [a, b];
    assert LastPut([a, b], mine) == Some(e);
    WholeIsPrefix(h(d));
  }

  /** So an entry redirected to another unit's blob serves that unit under a key that is not its own. */
  lemma RedirectedUnitIsServed(h: Digest, t: TuFormat.Tu, u: TuFormat.Tu)
    requires GivesHex(h) && t.id != u.id && TuKey(h, t.id) != TuKey(h, u.id)
    ensures var mine := TuKey(h, u.id);
            var events := Redirection(h, TuKey(h, t.id), mine, TuFormat.TuBytes(t), TuFormat.TuBytes(u));
            LastPut(events, mine) == Some(TuFormat.TuBytes(u)) && FetchedTu(h, Run(h, events), mine) == Ok(t)
  {
    RedirectionServes(h, TuKey(h, t.id), TuKey(h, u.id), TuFormat.TuBytes(t), TuFormat.TuBytes(u));
    TuFormat.ParseOfTuBytes(t);
  }
}
