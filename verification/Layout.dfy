/** Little-endian file layouts: a run of fixed-width fields, and a run of fixed-length records. */
module Layout {
  import opened Words

  // ---- fields ----

  function Width(ws: seq<nat>): nat {
    if ws == [] then 0 else ws[0] + Width(ws[1..])
  }

  /** The fields one after the other. */
  function Put(ws: seq<nat>, vs: seq<nat>): (s: seq<U8>)
    requires |ws| == |vs|
    ensures |s| == Width(ws)
  {
    if ws == [] then [] else Le(vs[0], ws[0]) + Put(ws[1..], vs[1..])
  }

  function Get(ws: seq<nat>, s: seq<U8>): (vs: seq<nat>)
    requires |s| == Width(ws)
    ensures |vs| == |ws|
  {
    if ws == [] then [] else [FromLe(s[..ws[0]])] + Get(ws[1..], s[ws[0]..])
  }

  /** Every value fits its field. */
  predicate Fits(ws: seq<nat>, vs: seq<nat>)
    requires |ws| == |vs|
  {
    forall k :: 0 <= k < |ws| ==> vs[k] < Pow256(ws[k])
  }

  lemma FitsTail(ws: seq<nat>, vs: seq<nat>)
    requires |ws| == |vs| && ws != [] && Fits(ws, vs)
    ensures Fits(ws[1..], vs[1..])
  {
    forall k | 0 <= k < |ws[1..]| ensures vs[1..][k] < Pow256(ws[1..][k]) {
      assert ws[1..][k] == ws[k + 1] && vs[1..][k] == vs[k + 1];
    }
  }

  lemma {:induction false} GetOfPut(ws: seq<nat>, vs: seq<nat>)
    requires |ws| == |vs| && Fits(ws, vs)
    ensures Get(ws, Put(ws, vs)) == vs
  {
    if ws != [] {
      FitsTail(ws, vs);
      GetOfPut(ws[1..], vs[1..]);
      FromLeOfLe(vs[0], ws[0]);
      var s := Put(ws, vs);
      assert s[..ws[0]] == Le(vs[0], ws[0]) && s[ws[0]..] == Put(ws[1..], vs[1..]);
    }
  }

  lemma {:induction false} PutOfGet(ws: seq<nat>, s: seq<U8>)
    requires |s| == Width(ws)
    ensures Put(ws, Get(ws, s)) == s
  {
    if ws != [] {
      PutOfGet(ws[1..], s[ws[0]..]);
      LeOfFromLe(s[..ws[0]]);
      var vs := Get(ws, s);
      assert vs[0] == FromLe(s[..ws[0]]) && vs[1..] == Get(ws[1..], s[ws[0]..]);
      assert s == s[..ws[0]] + s[ws[0]..];
    }
  }

  lemma {:induction false} GetFits(ws: seq<nat>, s: seq<U8>)
    requires |s| == Width(ws)
    ensures Fits(ws, Get(ws, s))
  {
    if ws != [] {
      GetFits(ws[1..], s[ws[0]..]);
      var vs := Get(ws, s);
      forall k | 0 <= k < |ws| ensures vs[k] < Pow256(ws[k]) {
        assert k > 0 ==> vs[k] == Get(ws[1..], s[ws[0]..])[k - 1] && ws[k] == ws[1..][k - 1];
      }
    }
  }

  lemma {:induction false} WidthSnoc(ws: seq<nat>, i: nat)
    requires i < |ws|
    ensures Width(ws[..i + 1]) == Width(ws[..i]) + ws[i]
  {
    if i > 0 {
      WidthSnoc(ws[1..], i - 1);
      assert ws[..i + 1][1..] == ws[1..][..i] && ws[..i][1..] == ws[1..][..i - 1];
    } else {
      assert ws[..1][1..] == [] && ws[..0] == [];
    }
  }

  /** Field `i` starts where the fields before it end. */
  lemma {:induction false} FieldAt(ws: seq<nat>, vs: seq<nat>, i: nat)
    requires |ws| == |vs| && i < |ws|
    ensures var off := Width(ws[..i]);
            off + ws[i] <= Width(ws) && Put(ws, vs)[off..off + ws[i]] == Le(vs[i], ws[i])
  {
    if i > 0 {
      FieldAt(ws[1..], vs[1..], i - 1);
      assert ws[..i][1..] == ws[1..][..i - 1];
      var off := Width(ws[1..][..i - 1]);
      assert Put(ws, vs)[ws[0] + off..ws[0] + off + ws[i]] == Put(ws[1..], vs[1..])[off..off + ws[i]];
    } else {
      assert ws[..0] == [];
    }
  }

  /** The value of the `w` bytes at `off`. */
  function At(b: seq<U8>, off: nat, w: nat): nat {
    if off + w <= |b| then FromLe(b[off..off + w]) else 0
  }

  lemma SliceOfSlice(b: seq<U8>, lo: nat, hi: nat, i: nat, j: nat)
    requires lo <= hi <= |b| && i <= j <= hi - lo
    ensures b[lo..hi][i..j] == b[lo + i..lo + j]
  {
    var s, t := b[lo..hi][i..j], b[lo + i..lo + j];
    assert |s| == |t|;
    forall k | 0 <= k < |s| ensures s[k] == t[k] {
      assert s[k] == b[lo..hi][i + k];
    }
  }

  /** A SHA-256 digest. */
  type Hash = s: seq<U8> | |s| == 32 witness seq(32, k => 0)

  /** What a file starts with. */
  function Lead(magic: U32, version: U16): (s: seq<U8>)
    ensures |s| == 6
  {
    Le32(magic) + Le16(version)
  }

  /** Six bytes hold this magic number and version exactly when they are its lead. */
  lemma LeadExactly(s: seq<U8>, magic: U32, version: U16)
    requires |s| == 6
    ensures Get32(s[..4]) == magic && Get16(s[4..6]) == version <==> s == Lead(magic, version)
  {
    if s == Lead(magic, version) {
      assert s[..4] == Le32(magic) && s[4..6] == Le16(version);
      FieldRoundTrips(version, magic, 0);
    }
    LeOfFromLe(s[..4]);
    LeOfFromLe(s[4..6]);
    assert s == s[..4] + s[4..6];
  }

  // ---- records ----

  /** How a record is written, read, and what its bytes look like after reading and writing again. */
  datatype Record<!T> = Record(len: nat, put: T -> seq<U8>, get: seq<U8> -> T, canon: seq<U8> -> seq<U8>)

  ghost predicate Lawful<T(!new)>(r: Record<T>) {
    && r.len > 0
    && (forall t :: |r.put(t)| == r.len && r.get(r.put(t)) == t)
    && (forall s :: |s| == r.len ==> r.put(r.get(s)) == r.canon(s))
  }

  function PutAll<T>(r: Record<T>, ts: seq<T>): seq<U8> {
    if ts == [] then [] else r.put(ts[0]) + PutAll(r, ts[1..])
  }

  /** `n` records. */
  function GetAll<T>(r: Record<T>, s: seq<U8>, n: nat): (ts: seq<T>)
    requires |s| == n * r.len
    ensures |ts| == n
    decreases n, |s|
  {
    if n == 0 then []
    else
      Product(n, r.len);
      [r.get(s[..r.len])] + GetAll(r, s[r.len..], n - 1)
  }

  function CanonAll<T>(r: Record<T>, s: seq<U8>, n: nat): seq<U8>
    requires |s| == n * r.len
    decreases n, |s|
  {
    if n == 0 then []
    else
      Product(n, r.len);
      r.canon(s[..r.len]) + CanonAll(r, s[r.len..], n - 1)
  }

  lemma Product(n: nat, k: nat)
    requires n > 0
    ensures n * k == k + (n - 1) * k && (n - 1) * k >= 0
  {
  }

  lemma {:induction false} PutAllSize<T(!new)>(r: Record<T>, ts: seq<T>)
    requires Lawful(r)
    ensures |PutAll(r, ts)| == |ts| * r.len
  {
    if ts != [] {
      PutAllSize(r, ts[1..]);
      Product(|ts|, r.len);
    }
  }

  /** Record `k` stands behind `k` others. */
  lemma {:induction false} PutAllAt<T(!new)>(r: Record<T>, ts: seq<T>, k: nat, off: nat)
    requires Lawful(r) && k < |ts| && off == k * r.len
    ensures off + r.len <= |PutAll(r, ts)| && PutAll(r, ts)[off..off + r.len] == r.put(ts[k])
    decreases k
  {
    if k > 0 {
      Product(k, r.len);
      var before := off - r.len;
      PutAllAt(r, ts[1..], k - 1, before);
      SliceOfTail(PutAll(r, ts), r.len, before, r.len);
      assert PutAll(r, ts)[r.len..] == PutAll(r, ts[1..]);
    }
  }

  lemma SliceOfTail(s: seq<U8>, cut: nat, off: nat, w: nat)
    requires cut + off + w <= |s|
    ensures s[cut..][off..off + w] == s[cut + off..cut + off + w]
  {
    SliceOfSlice(s, cut, |s|, off, off + w);
    assert s[cut..|s|] == s[cut..];
  }

  lemma {:induction false} PutAllSnoc<T>(r: Record<T>, ts: seq<T>, t: T)
    ensures PutAll(r, ts + [t]) == PutAll(r, ts) + r.put(t)
  {
    if ts == [] {
      assert PutAll(r, [t]) == r.put(t) + PutAll(r, []);
      assert [] + [t] == [t];
    } else {
      PutAllSnoc(r, ts[1..], t);
      assert (ts + [t])[1..] == ts[1..] + [t];
    }
  }

  lemma {:induction false} GetAllOfPutAll<T(!new)>(r: Record<T>, ts: seq<T>)
    requires Lawful(r)
    ensures |PutAll(r, ts)| == |ts| * r.len && GetAll(r, PutAll(r, ts), |ts|) == ts
  {
    PutAllSize(r, ts);
    if ts != [] {
      GetAllOfPutAll(r, ts[1..]);
      var s := PutAll(r, ts);
      assert s[..r.len] == r.put(ts[0]) && s[r.len..] == PutAll(r, ts[1..]);
      assert ts == [ts[0]] + ts[1..];
    }
  }

  lemma {:induction false} PutAllOfGetAll<T(!new)>(r: Record<T>, s: seq<U8>, n: nat)
    requires Lawful(r) && |s| == n * r.len
    ensures PutAll(r, GetAll(r, s, n)) == CanonAll(r, s, n)
    decreases n, |s|
  {
    if n > 0 {
      Product(n, r.len);
      PutAllOfGetAll(r, s[r.len..], n - 1);
      assert GetAll(r, s, n)[1..] == GetAll(r, s[r.len..], n - 1);
    }
  }

  /** Records whose every byte is read keep their bytes. */
  lemma {:induction false} CanonIsSame<T>(r: Record<T>, s: seq<U8>, n: nat)
    requires |s| == n * r.len && forall x :: r.canon(x) == x
    ensures CanonAll(r, s, n) == s
    decreases n, |s|
  {
    if n > 0 {
      Product(n, r.len);
      CanonIsSame(r, s[r.len..], n - 1);
      assert s == s[..r.len] + s[r.len..];
    }
  }

  /** Write records behind the bytes `b`. */
  method WriteAll<T>(r: Record<T>, b: seq<U8>, ts: seq<T>) returns (out: seq<U8>)
    ensures out == b + PutAll(r, ts)
  {
    out := b;
    for k := 0 to |ts|
      invariant out == b + PutAll(r, ts[..k])
    {
      out := out + r.put(ts[k]);
      PutAllSnoc(r, ts[..k], ts[k]);
      assert ts[..k + 1] == ts[..k] + [ts[k]];
    }
    assert ts[..|ts|] == ts;
  }

  /** Read `n` records. */
  method ReadAll<T>(r: Record<T>, s: seq<U8>, n: nat) returns (ts: seq<T>)
    requires |s| == n * r.len
    ensures ts == GetAll(r, s, n)
  {
    ts := [];
    var p := s;
    for k := 0 to n
      invariant |p| == (n - k) * r.len && ts + GetAll(r, p, n - k) == GetAll(r, s, n)
    {
      Product(n - k, r.len);
      ghost var now, more := r.get(p[..r.len]), GetAll(r, p[r.len..], n - k - 1);
      assert ts + ([now] + more) == (ts + [now]) + more;
      ts := ts + [r.get(p[..r.len])];
      p := p[r.len..];
    }
  }
}
