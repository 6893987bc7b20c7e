/** SHA-256 as section 6.2 of FIPS 180-4 defines it, and the streaming implementation that fills a
    64-byte buffer in place. */
module Sha256 {
  import opened Words
  import opened ShaConstants

  type Word = bv32

  // ---- FIPS 180-4 ----

  /** Eight working variables or hash words. */
  datatype Eight<W> = Eight(a: W, b: W, c: W, d: W, e: W, f: W, g: W, h: W)

  type Hash = Eight<Word>

  type Block = s: seq<U8> | |s| == 64 witness seq(64, k => 0)

  /** The word operations the compression function is made of. */
  datatype Algebra<!W> = Algebra(
    load: (U8, U8, U8, U8) -> W,          // four bytes, most significant first
    expand: (W, W, W, W) -> W,            // the next schedule word from those 16, 15, 7 and 2 back
    t1: (W, W, W, W, W, W) -> W,          // from e, f, g, h, the round constant and the schedule word
    t2: (W, W, W) -> W,                   // from a, b, c
    add: (W, W) -> W,
    k: seq<W>)

  /** Section 6.2.2, step 1: the message schedule. */
  function Schedule<W>(o: Algebra<W>, m: Block, t: nat): W
    decreases t, m
  {
    if t < 16 then o.load(m[4 * t], m[4 * t + 1], m[4 * t + 2], m[4 * t + 3])
    else o.expand(Schedule(o, m, t - 16), Schedule(o, m, t - 15), Schedule(o, m, t - 7), Schedule(o, m, t - 2))
  }

  /** Step 3: one round. */
  function Round<W>(o: Algebra<W>, v: Eight<W>, k: W, w: W): Eight<W> {
    var t1 := o.t1(v.e, v.f, v.g, v.h, k, w);
    Eight(o.add(t1, o.t2(v.a, v.b, v.c)), v.a, v.b, v.c, o.add(v.d, t1), v.e, v.f, v.g)
  }

  function Rounds<W>(o: Algebra<W>, v: Eight<W>, m: Block, t: nat): Eight<W>
    requires t <= |o.k|
    decreases t, m
  {
    if t == 0 then v else Round(o, Rounds(o, v, m, t - 1), o.k[t - 1], Schedule(o, m, t - 1))
  }

  function Sums<W>(o: Algebra<W>, v: Eight<W>, r: Eight<W>): Eight<W> {
    Eight(o.add(v.a, r.a), o.add(v.b, r.b), o.add(v.c, r.c), o.add(v.d, r.d),
          o.add(v.e, r.e), o.add(v.f, r.f), o.add(v.g, r.g), o.add(v.h, r.h))
  }

  /** Step 4: the next hash value. */
  function CompressWith<W>(o: Algebra<W>, v: Eight<W>, m: Block): Eight<W>
    requires |o.k| == 64
  {
    Sums(o, v, Rounds(o, v, m, |o.k|))
  }

  // the functions of section 4.1.2
  function Ror(x: Word, n: int): Word requires 0 < n < 32 { (x >> n) | (x << (32 - n)) }
  function Ch(x: Word, y: Word, z: Word): Word { (x & y) ^ (!x & z) }
  function Maj(x: Word, y: Word, z: Word): Word { (x & y) ^ (x & z) ^ (y & z) }
  function BigSigma0(x: Word): Word { Ror(x, 2) ^ Ror(x, 13) ^ Ror(x, 22) }
  function BigSigma1(x: Word): Word { Ror(x, 6) ^ Ror(x, 11) ^ Ror(x, 25) }
  function SmallSigma0(x: Word): Word { Ror(x, 7) ^ Ror(x, 18) ^ (x >> 3) }
  function SmallSigma1(x: Word): Word { Ror(x, 17) ^ Ror(x, 19) ^ (x >> 10) }

  /** Ch picks the second or the third operand, bit by bit; Maj takes the majority. */
  lemma ChooseAndMajority(x: Word, y: Word, z: Word)
    ensures Ch(x, y, z) == (x & y) | (!x & z)
    ensures Maj(x, y, z) == (x & y) | (x & z) | (y & z)
  {
  }

  function LoadWord(a: U8, b: U8, c: U8, d: U8): Word {
    (a as Word << 24) | (b as Word << 16) | (c as Word << 8) | d as Word
  }

  /** The schedule sum, in the order the implementation adds it up. */
  function ScheduleSum(w16: Word, s0: Word, w7: Word, s1: Word): Word {
    w16 + s0 + w7 + s1
  }

  /** It is the sum of section 6.2.2, step 1. */
  lemma SumIsStandard(w16: Word, s0: Word, w7: Word, s1: Word)
    ensures ScheduleSum(w16, s0, w7, s1) == s1 + w7 + s0 + w16
  {
  }

  function Expand(w16: Word, w15: Word, w7: Word, w2: Word): Word {
    ScheduleSum(w16, SmallSigma0(w15), w7, SmallSigma1(w2))
  }

  function T1(e: Word, f: Word, g: Word, h: Word, k: Word, w: Word): Word {
    h + BigSigma1(e) + Ch(e, f, g) + k + w
  }

  function T2(a: Word, b: Word, c: Word): Word {
    BigSigma0(a) + Maj(a, b, c)
  }

  function AddWords(a: Word, b: Word): Word {
    a + b
  }

  function RoundWord(k: nat): Word
    requires k < 64
  {
    ROUND_WORDS[k / 8][k % 8] as Word
  }

  const K: seq<Word> := seq(64, k requires 0 <= k < 64 => RoundWord(k))

  function Sha(): (o: Algebra<Word>)
    ensures |o.k| == 64
  {
    Algebra(LoadWord, Expand, T1, T2, AddWords, K)
  }

  function StartWord(k: nat): Word
    requires k < 8
  {
    START_WORDS[k] as Word
  }

  const INITIAL: Hash := Eight(StartWord(0), StartWord(1), StartWord(2), StartWord(3),
                               StartWord(4), StartWord(5), StartWord(6), StartWord(7))

  /** Both tables are used in order. */
  lemma WordsInOrder(r: nat, c: nat)
    requires r < 8 && c < 8
    ensures K[8 * r + c] == ROUND_WORDS[r][c] as Word
    ensures INITIAL.a == START_WORDS[0] as Word && INITIAL.b == START_WORDS[1] as Word
    ensures INITIAL.c == START_WORDS[2] as Word && INITIAL.d == START_WORDS[3] as Word
    ensures INITIAL.e == START_WORDS[4] as Word && INITIAL.f == START_WORDS[5] as Word
    ensures INITIAL.g == START_WORDS[6] as Word && INITIAL.h == START_WORDS[7] as Word
  {
    var k := 8 * r + c;
    assert k / 8 == r && k % 8 == c;
  }

  /** The functions of section 4.1.2, by their rotations and shifts. */
  lemma Sigmas(x: Word)
    ensures BigSigma0(x) == Ror(x, 2) ^ Ror(x, 13) ^ Ror(x, 22)
    ensures BigSigma1(x) == Ror(x, 6) ^ Ror(x, 11) ^ Ror(x, 25)
    ensures SmallSigma0(x) == Ror(x, 7) ^ Ror(x, 18) ^ (x >> 3)
    ensures SmallSigma1(x) == Ror(x, 17) ^ Ror(x, 19) ^ (x >> 10)
  {
  }

  /** Rotating moves the upper bits down and brings the lower ones to the top. */
  lemma RotatesBy2(x: Word)
    ensures Ror(x, 2) & 0x3fffffff == x >> 2 && Ror(x, 2) >> 30 == x & 0x3
  {
  }

  lemma RotatesBy6(x: Word)
    ensures Ror(x, 6) & 0x3ffffff == x >> 6 && Ror(x, 6) >> 26 == x & 0x3f
  {
  }

  lemma RotatesBy7(x: Word)
    ensures Ror(x, 7) & 0x1ffffff == x >> 7 && Ror(x, 7) >> 25 == x & 0x7f
  {
  }

  lemma RotatesBy11(x: Word)
    ensures Ror(x, 11) & 0x1fffff == x >> 11 && Ror(x, 11) >> 21 == x & 0x7ff
  {
  }

  lemma RotatesBy13(x: Word)
    ensures Ror(x, 13) & 0x7ffff == x >> 13 && Ror(x, 13) >> 19 == x & 0x1fff
  {
  }

  lemma RotatesBy17(x: Word)
    ensures Ror(x, 17) & 0x7fff == x >> 17 && Ror(x, 17) >> 15 == x & 0x1ffff
  {
  }

  lemma RotatesBy18(x: Word)
    ensures Ror(x, 18) & 0x3fff == x >> 18 && Ror(x, 18) >> 14 == x & 0x3ffff
  {
  }

  lemma RotatesBy19(x: Word)
    ensures Ror(x, 19) & 0x1fff == x >> 19 && Ror(x, 19) >> 13 == x & 0x7ffff
  {
  }

  lemma RotatesBy22(x: Word)
    ensures Ror(x, 22) & 0x3ff == x >> 22 && Ror(x, 22) >> 10 == x & 0x3fffff
  {
  }

  lemma RotatesBy25(x: Word)
    ensures Ror(x, 25) & 0x7f == x >> 25 && Ror(x, 25) >> 7 == x & 0x1ffffff
  {
  }

  /** The two sums of a round. */
  lemma RoundSums(a: Word, b: Word, c: Word, e: Word, f: Word, g: Word, h: Word, k: Word, w: Word)
    ensures T1(e, f, g, h, k, w) == h + BigSigma1(e) + Ch(e, f, g) + k + w
    ensures T2(a, b, c) == BigSigma0(a) + Maj(a, b, c)
  {
  }

  /** The schedule sum, in the standard's order. */
  lemma ExpandIsStandard(w16: Word, w15: Word, w7: Word, w2: Word)
    ensures Expand(w16, w15, w7, w2) == SmallSigma1(w2) + w7 + SmallSigma0(w15) + w16
  {
    SumIsStandard(w16, SmallSigma0(w15), w7, SmallSigma1(w2));
  }

  /** The most significant byte comes first, in both directions. */
  lemma BigEndian()
    ensures LoadWord(0x12, 0x34, 0x56, 0x78) == 0x1234_5678 && WordBytes(0x1234_5678) == [0x12, 0x34, 0x56, 0x78]
  {
  }

  type Compression<!V> = (V, Block) -> V

  function CompressionOf<W>(o: Algebra<W>): Compression<Eight<W>>
    requires |o.k| == 64
  {
    (v: Eight<W>, m: Block) => CompressWith(o, v, m)
  }

  /** Section 5.2.1 and the outer loop of 6.2.2: block after block. */
  function Absorb<V>(f: Compression<V>, v: V, s: seq<U8>): V
    requires |s| % 64 == 0
    decreases |s|
  {
    if s == [] then v else Absorb(f, f(v, s[..64]), s[64..])
  }

  /** `v` in eight bytes, most significant first. */
  function Be64(v: U64): (s: seq<U8>)
    ensures |s| == 8
  {
    seq(8, k requires 0 <= k < 8 => Le64(v)[7 - k])
  }

  function Zeros(n: nat): (s: seq<U8>)
    ensures |s| == n
  {
    seq(n, k => 0)
  }

  /** Section 5.1.1: a 1 bit, the least number of 0 bits that makes the length 448 modulo 512, and
      the length in 64 bits. */
  function ZeroCount(n: nat): (k: nat)
    ensures (n + 1 + k) % 64 == 56 && k < 64
  {
    (119 - n % 64) % 64
  }

  function Padding(n: nat, bits: U64): seq<U8> {
    [0x80] + Zeros(ZeroCount(n)) + Be64(bits)
  }

  lemma PaddingFills(n: nat, bits: U64)
    ensures (n + |Padding(n, bits)|) % 64 == 0
  {
  }

  /** A hash word in four bytes, most significant first. */
  function WordBytes(w: Word): seq<U8> {
    BytesOfWord(w as U32)
  }

  function BytesOfWord(v: U32): seq<U8> {
    [v / 0x100_0000, v / 0x1_0000 % 0x100, v / 0x100 % 0x100, v % 0x100]
  }

  function HashBytes(v: Hash): seq<U8> {
    (WordBytes(v.a) + WordBytes(v.b) + WordBytes(v.c) + WordBytes(v.d))
    + (WordBytes(v.e) + WordBytes(v.f) + WordBytes(v.g) + WordBytes(v.h))
  }

  lemma Joined(a: seq<U8>, b: seq<U8>, c: seq<U8>, d: seq<U8>)
    requires |a| == |b| == |c| == |d| == 4
    ensures var s := a + b + c + d; |s| == 16 && s[..4] == a && s[4..8] == b && s[8..12] == c && s[12..] == d
  {
  }

  /** The hash words follow one another, each in four bytes. */
  lemma HashBytesAt(v: Hash)
    ensures |HashBytes(v)| == 32
    ensures var s := HashBytes(v)[..16];
            && s[..4] == WordBytes(v.a) && s[4..8] == WordBytes(v.b)
            && s[8..12] == WordBytes(v.c) && s[12..] == WordBytes(v.d)
    ensures var s := HashBytes(v)[16..];
            && s[..4] == WordBytes(v.e) && s[4..8] == WordBytes(v.f)
            && s[8..12] == WordBytes(v.g) && s[12..] == WordBytes(v.h)
  {
    Joined(WordBytes(v.a), WordBytes(v.b), WordBytes(v.c), WordBytes(v.d));
    Joined(WordBytes(v.e), WordBytes(v.f), WordBytes(v.g), WordBytes(v.h));
    var x := WordBytes(v.a) + WordBytes(v.b) + WordBytes(v.c) + WordBytes(v.d);
    assert HashBytes(v)[..16] == x;
    assert HashBytes(v)[16..] == WordBytes(v.e) + WordBytes(v.f) + WordBytes(v.g) + WordBytes(v.h);
  }

  /** The hash value of the padded message. */
  function HashOf<W>(o: Algebra<W>, init: Eight<W>, m: seq<U8>, bits: U64): Eight<W>
    requires |o.k| == 64
  {
    PaddingFills(|m|, bits);
    Absorb(CompressionOf(o), init, m + Padding(|m|, bits))
  }

  function DigestWith(m: seq<U8>, bits: U64): seq<U8> {
    HashBytes(HashOf(Sha(), INITIAL, m, bits))
  }

  const MAX_BYTES: nat := 0x2000_0000_0000_0000

  /** The digest of a message of fewer than 2^64 bits. */
  function Digest(m: seq<U8>): seq<U8>
    requires |m| < MAX_BYTES
  {
    DigestWith(m, 8 * |m|)
  }

  // ---- absorbing in pieces ----

  lemma {:induction false} AbsorbAppend<V>(f: Compression<V>, v: V, a: seq<U8>, b: seq<U8>)
    requires |a| % 64 == 0 && |b| % 64 == 0
    ensures |a + b| % 64 == 0 && Absorb(f, v, a + b) == Absorb(f, Absorb(f, v, a), b)
    decreases |a|
  {
    if a == [] {
      assert a + b == b;
    } else {
      AbsorbAppend(f, f(v, a[..64]), a[64..], b);
      assert (a + b)[..64] == a[..64] && (a + b)[64..] == a[64..] + b;
    }
  }

  lemma AbsorbOne<V>(f: Compression<V>, v: V, m: Block)
    ensures Absorb(f, v, m) == f(v, m)
  {
    assert m[..64] == m && m[64..] == [];
    assert Absorb(f, f(v, m), []) == f(v, m);
  }

  // ---- the block function ----

  /** The message schedule, filled into an array. */
  method ExpandBlock<W(0)>(o: Algebra<W>, m: Block) returns (w: array<W>)
    ensures fresh(w) && w.Length == 64 && forall k :: 0 <= k < 64 ==> w[k] == Schedule(o, m, k)
  {
    w := new W[64];
    for i := 0 to 16
      invariant forall k :: 0 <= k < i ==> w[k] == Schedule(o, m, k)
    {
      w[i] := o.load(m[i * 4], m[i * 4 + 1], m[i * 4 + 2], m[i * 4 + 3]);
    }
    for i := 16 to 64
      invariant forall k :: 0 <= k < i ==> w[k] == Schedule(o, m, k)
    {
      w[i] := o.expand(w[i - 16], w[i - 15], w[i - 7], w[i - 2]);
    }
  }

  /** Sixty-four rounds over the working variables, then the sums. */
  method CompressBlock<W(0)>(o: Algebra<W>, v: Eight<W>, m: Block) returns (r: Eight<W>)
    requires |o.k| == 64
    ensures r == CompressWith(o, v, m)
  {
    var w := ExpandBlock(o, m);
    var a, b, c, d, e, f, g, h := v.a, v.b, v.c, v.d, v.e, v.f, v.g, v.h;
    for i := 0 to 64
      invariant Eight(a, b, c, d, e, f, g, h) == Rounds(o, v, m, i)
    {
      var t1 := o.t1(e, f, g, h, o.k[i], w[i]);
      var t2 := o.t2(a, b, c);
      h := g;
      g := f;
      f := e;
      e := o.add(d, t1);
      d := c;
      c := b;
      b := a;
      a := o.add(t1, t2);
    }
    r := Eight(o.add(v.a, a), o.add(v.b, b), o.add(v.c, c), o.add(v.d, d),
               o.add(v.e, e), o.add(v.f, f), o.add(v.g, g), o.add(v.h, h));
  }

  // ---- the streaming context ----

  /** `v` has absorbed all of `m` but the bytes `b` at its end. */
  ghost predicate Holding<V>(f: Compression<V>, init: V, v: V, b: seq<U8>, m: seq<U8>) {
    var n := |m| - |b|;
    n >= 0 && n % 64 == 0 && v == Absorb(f, init, m[..n]) && b == m[n..]
  }

  lemma HoldMore<V>(f: Compression<V>, init: V, v: V, b: seq<U8>, m: seq<U8>, x: seq<U8>)
    requires Holding(f, init, v, b, m)
    ensures Holding(f, init, v, b + x, m + x)
  {
    var n := |m| - |b|;
    assert (m + x)[..n] == m[..n] && (m + x)[n..] == m[n..] + x;
  }

  lemma HoldBlock<V>(f: Compression<V>, init: V, v: V, b: seq<U8>, m: seq<U8>)
    requires Holding(f, init, v, b, m) && |b| == 64
    ensures Holding(f, init, f(v, b), [], m)
  {
    var n := |m| - 64;
    AbsorbAppend(f, init, m[..n], b);
    AbsorbOne(f, v, b);
    assert m[..n] + b == m && m[..|m|] == m;
  }

  /** Absorbing the rest and the padding gives the state for the padded message. */
  lemma HoldEnd<V>(f: Compression<V>, init: V, v: V, b: seq<U8>, m: seq<U8>, pad: seq<U8>)
    requires Holding(f, init, v, b, m) && |b + pad| % 64 == 0
    ensures |m + pad| % 64 == 0 && Absorb(f, v, b + pad) == Absorb(f, init, m + pad)
  {
    var n := |m| - |b|;
    AbsorbAppend(f, init, m[..n], b + pad);
    assert m[..n] + (b + pad) == m + pad;
  }

  lemma PaddingFits(n: nat, r: nat)
    requires r < 64 && r <= n && (n - r) % 64 == 0
    ensures ZeroCount(n) == if r + 1 <= 56 then 55 - r else 119 - r
  {
    assert n % 64 == r;
  }

  /** Room for the length: the padding ends in the same block. */
  lemma PadOne<V>(f: Compression<V>, v: V, b: seq<U8>, n: nat, bits: U64, block: Block)
    requires |b| < 56 && |b| <= n && (n - |b|) % 64 == 0 && block == b + [0x80] + Zeros(55 - |b|) + Be64(bits)
    ensures |b + Padding(n, bits)| % 64 == 0 && Absorb(f, v, b + Padding(n, bits)) == f(v, block)
  {
    PaddingFits(n, |b|);
    assert b + Padding(n, bits) == block;
    AbsorbOne(f, v, block);
  }

  /** No room: it spills into a second block. */
  lemma PadTwo<V>(f: Compression<V>, v: V, b: seq<U8>, n: nat, bits: U64, first: Block, second: Block)
    requires 56 <= |b| < 64 && |b| <= n && (n - |b|) % 64 == 0
    requires first == b + [0x80] + Zeros(63 - |b|) && second == Zeros(56) + Be64(bits)
    ensures |b + Padding(n, bits)| % 64 == 0 && Absorb(f, v, b + Padding(n, bits)) == f(f(v, first), second)
  {
    PaddingFits(n, |b|);
    ZerosSplit(63 - |b|, 56);
    assert b + Padding(n, bits) == first + second;
    AbsorbAppend(f, v, first, second);
    AbsorbOne(f, v, first);
    AbsorbOne(f, f(v, first), second);
  }

  lemma ZerosSplit(a: nat, b: nat)
    ensures Zeros(a + b) == Zeros(a) + Zeros(b)
  {
  }

  lemma Regroup(m: seq<U8>, rest: seq<U8>, n: nat)
    requires n <= |rest|
    ensures m + rest[..n] + rest[n..] == m + rest
  {
  }

  /** `v` shifted right by `i` bytes. */
  function ShiftBytes(v: nat, i: nat): nat {
    if i == 0 then v else ShiftBytes(v / 256, i - 1)
  }

  lemma {:induction false} LeByte(v: nat, n: nat, i: nat)
    requires i < n
    ensures Le(v, n)[i] == ShiftBytes(v, i) % 256
  {
    if i > 0 {
      LeByte(v / 256, n - 1, i - 1);
    }
  }

  lemma BeByte(v: U64, k: nat)
    requires k < 8
    ensures Be64(v)[k] == ShiftBytes(v, 7 - k) % 256
  {
    assert Be64(v)[k] == Le64(v)[7 - k];
    var n := 8;
    LeByte(v, n, 7 - k);
  }

  lemma BitsAdd(n: nat, k: nat)
    ensures (8 * n % TWO_64 + 8 * k) % TWO_64 == 8 * (n + k) % TWO_64
  {
    var q, r := 8 * n / TWO_64, 8 * n % TWO_64;
    ModWraps(r + 8 * k, q);
    assert 8 * (n + k) == r + 8 * k + q * TWO_64;
  }

  lemma {:induction false} ModWraps(x: nat, q: nat)
    ensures (x + q * TWO_64) % TWO_64 == x % TWO_64
    decreases q
  {
    if q > 0 {
      ModWraps(x + TWO_64, q - 1);
      assert x + q * TWO_64 == x + TWO_64 + (q - 1) * TWO_64;
    }
  }

  /** `message` is everything given to Update so far. */
  class Context<W(0)> {
    const o: Algebra<W>
    const init: Eight<W>
    var state: Eight<W>
    var bitlen: U64
    const buf: array<U8>
    var buflen: nat
    ghost var message: seq<U8>

    ghost predicate Valid()
      reads this, buf
    {
      && |o.k| == 64 && buf.Length == 64 && buflen < 64
      && Holding(CompressionOf(o), init, state, buf[..buflen], message)
      && bitlen == 8 * |message| % TWO_64
    }

    constructor (o: Algebra<W>, init: Eight<W>)
      requires |o.k| == 64
      ensures Valid() && message == [] && fresh(buf) && this.o == o && this.init == init
    {
      this.o := o;
      this.init := init;
      state := init;
      bitlen := 0;
      buf := new U8[64](k => 0);
      buflen := 0;
      message := [];
    }

    method Transform()
      requires |o.k| == 64 && buf.Length == 64
      modifies this`state
      ensures state == CompressionOf(o)(old(state), buf[..])
    {
      state := CompressBlock(o, state, buf[..]);
    }

    /** Copy bytes behind those already buffered. */
    method Append(s: seq<U8>)
      requires buf.Length == 64 && buflen + |s| <= 64
      modifies this`buflen, buf
      ensures buflen == old(buflen) + |s| && buf[..buflen] == old(buf[..buflen]) + s
    {
      ghost var before := buf[..buflen];
      for k := 0 to |s|
        invariant buflen == |before| && buf[..buflen + k] == before + s[..k]
      {
        buf[buflen + k] := s[k];
      }
      buflen := buflen + |s|;
    }

    /** Zero the buffer up to `n`. */
    method ZeroTo(n: nat)
      requires buf.Length == 64 && buflen <= n <= 64
      modifies this`buflen, buf
      ensures buflen == n && buf[..n] == old(buf[..buflen]) + Zeros(n - old(buflen))
    {
      ghost var before := buf[..buflen];
      while buflen < n
        invariant |before| <= buflen <= n && buf[..buflen] == before + Zeros(buflen - |before|)
      {
        buf[buflen] := 0;
        buflen := buflen + 1;
      }
    }

    /** The length, most significant byte first, into the last eight bytes. */
    method PutLength(bits: U64)
      requires buf.Length == 64 && buflen == 56
      modifies this`buflen, buf
      ensures buflen == 64 && buf[..] == old(buf[..56]) + Be64(bits)
    {
      ghost var before := buf[..56];
      for k := 0 to 8
        invariant buflen == 56 + k && buf[..buflen] == before + Be64(bits)[..k]
      {
        BeByte(bits, k);
        buf[buflen] := ShiftBytes(bits, 7 - k) % 256;
        buflen := buflen + 1;
      }
    }

    /** The buffer is full: compress it. */
    method Empty(ghost m: seq<U8>)
      requires |o.k| == 64 && buf.Length == 64 && buflen == 64 && Holding(CompressionOf(o), init, state, buf[..], m)
      modifies this`state, this`buflen
      ensures buflen == 0 && Holding(CompressionOf(o), init, state, [], m)
    {
      HoldBlock(CompressionOf(o), init, state, buf[..], m);
      Transform();
      buflen := 0;
    }

    /** Buffer `s`, which fits, behind message `m`. */
    method Take(s: seq<U8>, ghost m: seq<U8>)
      requires |o.k| == 64 && buf.Length == 64 && buflen + |s| <= 64
      requires Holding(CompressionOf(o), init, state, buf[..buflen], m)
      modifies this`state, this`buflen, buf
      ensures buflen < 64 && Holding(CompressionOf(o), init, state, buf[..buflen], m + s)
    {
      HoldMore(CompressionOf(o), init, state, buf[..buflen], m, s);
      Append(s);
      if buflen == 64 {
        assert buf[..64] == buf[..];
        Empty(m + s);
        assert buf[..0] == [];
      }
    }

    /** Fill the buffer, compressing it whenever it is full. */
    method Fill(data: seq<U8>)
      requires |o.k| == 64 && buf.Length == 64 && buflen < 64
      requires Holding(CompressionOf(o), init, state, buf[..buflen], message)
      modifies this`state, this`buflen, buf
      ensures buflen < 64 && Holding(CompressionOf(o), init, state, buf[..buflen], message + data)
    {
      var rest := data;
      ghost var m := message;
      while rest != []
        invariant m + rest == message + data && buflen < 64
        invariant Holding(CompressionOf(o), init, state, buf[..buflen], m)
        decreases |rest|
      {
        var n := 64 - buflen;
        if n > |rest| {
          n := |rest|;
        }
        Take(rest[..n], m);
        Regroup(m, rest, n);
        m := m + rest[..n];
        rest := rest[n..];
      }
      assert m + rest == m;
    }

    /** Absorb more of the message. */
    method Update(data: seq<U8>)
      requires Valid()
      modifies this`state, this`bitlen, this`buflen, this`message, buf
      ensures Valid() && message == old(message) + data
    {
      BitsAdd(|message|, |data|);
      bitlen := (bitlen + 8 * |data|) % TWO_64;
      Fill(data);
      message := message + data;
    }

    /** No room for the length: zero the rest of the block and compress it. */
    method Spill(ghost block: Block)
      requires |o.k| == 64 && buf.Length == 64 && 56 < buflen <= 64 && block == buf[..buflen] + Zeros(64 - buflen)
      modifies this`state, this`buflen, buf
      ensures buflen == 0 && state == CompressionOf(o)(old(state), block)
    {
      ZeroTo(64);
      assert buf[..64] == buf[..];
      Transform();
      buflen := 0;
    }

    /** Zeros and the length complete the block. */
    method Close()
      requires buf.Length == 64 && buflen <= 56
      modifies this`buflen, buf
      ensures buf[..] == old(buf[..buflen]) + Zeros(56 - old(buflen)) + Be64(bitlen)
    {
      ZeroTo(56);
      PutLength(bitlen);
    }

    /** A last block with nothing but zeros and the length. */
    method CloseFresh()
      requires buf.Length == 64 && buflen == 0
      modifies this`buflen, buf
      ensures buf[..] == Zeros(56) + Be64(bitlen)
    {
      Close();
      assert [] + Zeros(56) + Be64(bitlen) == Zeros(56) + Be64(bitlen);
    }

    /** The terminating 1 bit is buffered, and the length fits behind it. */
    method PadHere(ghost b: seq<U8>, ghost n: nat)
      requires |o.k| == 64 && buf.Length == 64 && buflen == |b| + 1 <= 56 && buf[..buflen] == b + [0x80]
      requires |b| <= n && (n - |b|) % 64 == 0
      modifies this`state, this`buflen, buf
      ensures |b + Padding(n, bitlen)| % 64 == 0
      ensures state == Absorb(CompressionOf(o), old(state), b + Padding(n, bitlen))
    {
      Close();
      PadOne(CompressionOf(o), state, b, n, bitlen, buf[..]);
      Transform();
    }

    /** It does not fit: the padding spills into a second block. */
    method PadBeyond(ghost b: seq<U8>, ghost n: nat)
      requires |o.k| == 64 && buf.Length == 64 && 56 < buflen == |b| + 1 <= 64 && buf[..buflen] == b + [0x80]
      requires |b| <= n && (n - |b|) % 64 == 0
      modifies this`state, this`buflen, buf
      ensures |b + Padding(n, bitlen)| % 64 == 0
      ensures state == Absorb(CompressionOf(o), old(state), b + Padding(n, bitlen))
    {
      ghost var v, first := state, b + [0x80] + Zeros(63 - |b|);
      Spill(first);
      CloseFresh();
      PadTwo(CompressionOf(o), v, b, n, bitlen, first, buf[..]);
      Transform();
    }

    /** The last one or two blocks. */
    method Pad(ghost b: seq<U8>, ghost n: nat)
      requires |o.k| == 64 && buf.Length == 64 && buflen < 64 && b == buf[..buflen] && |b| <= n && (n - |b|) % 64 == 0
      modifies this`state, this`buflen, buf
      ensures |b + Padding(n, bitlen)| % 64 == 0
      ensures state == Absorb(CompressionOf(o), old(state), b + Padding(n, bitlen))
    {
      Append([0x80]);
      if buflen > 56 {
        PadBeyond(b, n);
      } else {
        PadHere(b, n);
      }
    }

    /** Pad and compress what is left; the state then is that of the padded message. */
    method Finish()
      requires Valid()
      modifies this`state, this`buflen, buf
      ensures state == HashOf(o, init, message, bitlen)
    {
      ghost var v, b, n := state, buf[..buflen], |message|;
      PaddingFills(n, bitlen);
      Pad(b, n);
      HoldEnd(CompressionOf(o), init, v, b, message, Padding(n, bitlen));
    }
  }

  function Concat(parts: seq<seq<U8>>): seq<U8> {
    if parts == [] then [] else Concat(parts[..|parts| - 1]) + parts[|parts| - 1]
  }

  lemma ConcatSnoc(parts: seq<seq<U8>>, k: nat)
    requires k < |parts|
    ensures Concat(parts[..k + 1]) == Concat(parts[..k]) + parts[k]
  {
    assert parts[..k + 1][..k] == parts[..k];
  }

  /** Init, one update for each part, final. Only the low 64 bits of the bit length are kept. */
  method Absorbed<W(0)>(o: Algebra<W>, init: Eight<W>, parts: seq<seq<U8>>) returns (v: Eight<W>)
    requires |o.k| == 64
    ensures v == HashOf(o, init, Concat(parts), 8 * |Concat(parts)| % TWO_64)
  {
    var c := new Context<W>(o, init);
    for k := 0 to |parts|
      invariant c.Valid() && c.message == Concat(parts[..k]) && fresh(c) && fresh(c.buf) && c.o == o && c.init == init
    {
      c.Update(parts[k]);
      ConcatSnoc(parts, k);
    }
    assert parts[..|parts|] == parts;
    c.Finish();
    v := c.state;
  }

  lemma BitsFit(m: seq<U8>)
    requires |m| < MAX_BYTES
    ensures 8 * |m| % TWO_64 == 8 * |m|
  {
  }

  /** Hashing a message piece by piece, with the length counter as it is. */
  method HashPieces(parts: seq<seq<U8>>) returns (out: seq<U8>)
    ensures out == DigestWith(Concat(parts), 8 * |Concat(parts)| % TWO_64)
  {
    var v := Absorbed(Sha(), INITIAL, parts);
    out := HashBytes(v);
  }

  /** Any split of a message shorter than 2^61 bytes gives the digest of the standard. */
  method HashParts(parts: seq<seq<U8>>) returns (out: seq<U8>)
    requires |Concat(parts)| < MAX_BYTES
    ensures out == Digest(Concat(parts))
  {
    BitsFit(Concat(parts));
    out := HashPieces(parts);
  }
}
