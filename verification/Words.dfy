/** Machine integers, bitwise operations, little-endian bytes and guest memory.
    Every width is a subset type of `int`; wrap-around is written out with `%`. */
module Words {

  const TWO_31: int := 0x8000_0000
  const TWO_32: int := 0x1_0000_0000
  const TWO_63: int := 0x8000_0000_0000_0000
  const TWO_64: int := 0x1_0000_0000_0000_0000

  type U8 = x: int | 0 <= x < 0x100
  type U16 = x: int | 0 <= x < 0x1_0000
  type U32 = x: int | 0 <= x < 0x1_0000_0000
  type U64 = x: int | 0 <= x < 0x1_0000_0000_0000_0000
  type I32 = x: int | -0x8000_0000 <= x < 0x8000_0000
  type I64 = x: int | -0x8000_0000_0000_0000 <= x < 0x8000_0000_0000_0000

  /** C's conversion from `int64_t` to `uint64_t`. */
  function ToU64(x: I64): U64 {
    if x < 0 then x + TWO_64 else x
  }

  /** `uint64_t` addition and subtraction: the exact result, wrapped at most once. */
  function Plus(a: U64, b: U64): U64 {
    var s: int := a + b;
    if s < TWO_64 then s else s - TWO_64
  }

  function Minus(a: U64, b: U64): U64 {
    var d: int := a - b;
    if 0 <= d then d else d + TWO_64
  }

  /** Both are arithmetic modulo 2^64. */
  lemma Wraps(a: U64, b: U64)
    ensures Plus(a, b) == (a + b) % 0x1_0000_0000_0000_0000 && Minus(a, b) == (a - b) % 0x1_0000_0000_0000_0000
  {
  }

  /** The two's-complement reading of a 64-bit word. */
  function Signed(x: U64): I64 {
    if x < TWO_63 then x else x - TWO_64
  }

  predicate FitsI64(x: int) {
    -TWO_63 <= x < TWO_63
  }

  // ---- bitwise operations, bit by bit ----

  function Pow2(n: nat): (p: nat)
    ensures p > 0
  {
    if n == 0 then 1 else 2 * Pow2(n - 1)
  }

  lemma {:induction false} Pow2At64(n: nat)
    requires n == 64
    ensures Pow2(n) == TWO_64
  {
    Pow2Plus8(n - 8);
    Pow2Plus8(n - 16);
    Pow2Plus8(n - 24);
    Pow2Plus8(n - 32);
    Pow2Plus8(n - 40);
    Pow2Plus8(n - 48);
    Pow2Plus8(n - 56);
    Pow2Plus8(n - 64);
  }

  lemma Pow2Plus8(n: nat)
    ensures Pow2(n + 8) == 256 * Pow2(n)
  {
    assert Pow2(n + 2) == 4 * Pow2(n);
    assert Pow2(n + 4) == 4 * Pow2(n + 2);
    assert Pow2(n + 6) == 4 * Pow2(n + 4);
  }

  datatype Logic = And | Or | Xor

  function LogicBit(op: Logic, a: bool, b: bool): bool {
    match op
    case And => a && b
    case Or => a || b
    case Xor => a != b
  }

  function LogicBits(op: Logic, a: nat, b: nat, n: nat): nat
    decreases n, a, b
  {
    if n == 0 then 0
    else
      (if LogicBit(op, a % 2 == 1, b % 2 == 1) then 1 else 0) + 2 * LogicBits(op, a / 2, b / 2, n - 1)
  }

  lemma {:induction false} LogicBound(op: Logic, a: nat, b: nat, n: nat)
    ensures LogicBits(op, a, b, n) < Pow2(n)
    decreases n
  {
    if n > 0 {
      LogicBound(op, a / 2, b / 2, n - 1);
    }
  }

  lemma LogicFits(op: Logic, a: nat, b: nat, n: nat)
    requires n == 64
    ensures LogicBits(op, a, b, n) < TWO_64
  {
    LogicBound(op, a, b, n);
    Pow2At64(n);
  }

  function Logic64(op: Logic, a: U64, b: U64): U64 {
    LogicFits(op, a, b, 64);
    LogicBits(op, a, b, 64)
  }

  predicate Bit(v: nat, i: nat)
    decreases i, v
  {
    if i == 0 then v % 2 == 1 else Bit(v / 2, i - 1)
  }

  /** Every bit of the result is made of the two bits in its place. */
  lemma {:induction false} LogicAt(op: Logic, a: nat, b: nat, n: nat, i: nat)
    requires i < n
    ensures var bit := Bit(LogicBits(op, a, b, n), i);
            match op
            case And => bit == (Bit(a, i) && Bit(b, i))
            case Or => bit == (Bit(a, i) || Bit(b, i))
            case Xor => bit == (Bit(a, i) != Bit(b, i))
    decreases n
  {
    if i > 0 {
      LogicAt(op, a / 2, b / 2, n - 1, i - 1);
    }
  }

  // ---- little-endian byte strings ----

  function Pow256(n: nat): (p: nat)
    ensures p > 0
  {
    if n == 0 then 1 else 256 * Pow256(n - 1)
  }

  /** The `n` low bytes of `v`, least significant first. */
  function Le(v: nat, n: nat): (s: seq<U8>)
    ensures |s| == n
  {
    if n == 0 then [] else [v % 256] + Le(v / 256, n - 1)
  }

  function FromLe(s: seq<U8>): (v: nat)
    ensures v < Pow256(|s|)
  {
    if s == [] then 0 else s[0] + 256 * FromLe(s[1..])
  }

  lemma {:induction false} FromLeOfLe(v: nat, n: nat)
    requires v < Pow256(n)
    ensures FromLe(Le(v, n)) == v
  {
    if n > 0 {
      FromLeOfLe(v / 256, n - 1);
      assert Le(v, n)[1..] == Le(v / 256, n - 1);
    }
  }

  lemma {:induction false} LeOfFromLe(s: seq<U8>)
    ensures Le(FromLe(s), |s|) == s
  {
    if s != [] {
      LeOfFromLe(s[1..]);
      var v := FromLe(s);
      assert v % 256 == s[0] && v / 256 == FromLe(s[1..]);
      assert s == [s[0]] + s[1..];
    }
  }

  lemma Pow256Widths()
    ensures Pow256(2) == 0x1_0000 && Pow256(4) == TWO_32 && Pow256(8) == TWO_64
  {
  }

  function Le16(v: U16): (s: seq<U8>) ensures |s| == 2 { Le(v, 2) }
  function Le32(v: U32): (s: seq<U8>) ensures |s| == 4 { Le(v, 4) }
  function Le64(v: U64): (s: seq<U8>) ensures |s| == 8 { Le(v, 8) }

  function Get16(s: seq<U8>): U16 requires |s| == 2 { Pow256Widths(); FromLe(s) }
  function Get32(s: seq<U8>): U32 requires |s| == 4 { Pow256Widths(); FromLe(s) }
  function Get64(s: seq<U8>): U64 requires |s| == 8 { Pow256Widths(); FromLe(s) }

  /** Writing a field and reading it back, and reading a field and writing it back. */
  lemma FieldRoundTrips(a: U16, b: U32, c: U64)
    ensures Get16(Le16(a)) == a && Get32(Le32(b)) == b && Get64(Le64(c)) == c
  {
    Pow256Widths();
    FromLeOfLe(a, 2);
    FromLeOfLe(b, 4);
    FromLeOfLe(c, 8);
  }

  // ---- guest memory: byte addressed, 64-bit addresses that wrap ----

  type Memory = map<U64, U8>

  function ByteAt(m: Memory, a: U64): U8 {
    if a in m then m[a] else 0
  }

  function ReadBytes(m: Memory, a: U64, n: nat): (s: seq<U8>)
    ensures |s| == n
    decreases n, a
  {
    if n == 0 then [] else [ByteAt(m, a)] + ReadBytes(m, Plus(a, 1), n - 1)
  }

  function WriteBytes(m: Memory, a: U64, s: seq<U8>): Memory
    decreases |s|
  {
    if s == [] then m else WriteBytes(m[a := s[0]], Plus(a, 1), s[1..])
  }

  function Load64(m: Memory, a: U64): U64 {
    Get64(ReadBytes(m, a, 8))
  }

  function Store64(m: Memory, a: U64, v: U64): Memory {
    WriteBytes(m, a, Le64(v))
  }

  /** A write leaves every byte at distance `|s|` or more above its start alone. */
  lemma {:induction false} WriteMisses(m: Memory, a: U64, s: seq<U8>, b: U64)
    requires Minus(b, a) >= |s|
    ensures ByteAt(WriteBytes(m, a, s), b) == ByteAt(m, b)
    decreases |s|
  {
    if s != [] {
      WriteMisses(m[a := s[0]], Plus(a, 1), s[1..], b);
    }
  }

  lemma {:induction false} ReadOfWrite(m: Memory, a: U64, s: seq<U8>)
    requires |s| < TWO_64
    ensures ReadBytes(WriteBytes(m, a, s), a, |s|) == s
    decreases |s|
  {
    if s != [] {
      var m1 := m[a := s[0]];
      ReadOfWrite(m1, Plus(a, 1), s[1..]);
      WriteMisses(m1, Plus(a, 1), s[1..], a);
    }
  }

  lemma {:induction false} WriteHits(m: Memory, a: U64, s: seq<U8>, k: nat)
    requires k < |s| < TWO_64
    ensures ByteAt(WriteBytes(m, a, s), Plus(a, k)) == s[k]
    decreases |s|
  {
    if k == 0 {
      WriteMisses(m[a := s[0]], Plus(a, 1), s[1..], a);
    } else {
      WriteHits(m[a := s[0]], Plus(a, 1), s[1..], k - 1);
    }
  }

  /** A stored word is in eight bytes, least significant first, and no other byte changes. */
  lemma StoreIsLocal(m: Memory, a: U64, v: U64, b: U64)
    ensures var d := Minus(b, a); ByteAt(Store64(m, a, v), b) == if d < 8 then Le64(v)[d] else ByteAt(m, b)
  {
    var d := Minus(b, a);
    if d < 8 {
      WriteHits(m, a, Le64(v), d);
    } else {
      WriteMisses(m, a, Le64(v), b);
    }
  }

  /** A stored word loads back, also across the top of the address space. */
  lemma LoadOfStore(m: Memory, a: U64, v: U64)
    ensures Load64(Store64(m, a, v), a) == v
  {
    ReadOfWrite(m, a, Le64(v));
    FieldRoundTrips(0, 0, v);
  }
}
