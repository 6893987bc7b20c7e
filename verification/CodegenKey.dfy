/** The guest hash of a translated block: what goes into it, and what equal hashes imply about the
    emitted unit. */
module CodegenKey {
  import opened Words
  import opened Errors
  import opened GuestIr
  import opened Translate
  import Encode
  import Layout
  import Sha256
  import TuFormat
  import BlobStore = Store

  /** The numbers of the opcodes. */
  function OpNumber(op: Opcode): int {
    match op
    case MovRR => 0
    case MovRI => 1
    case AddRR => 2
    case SubRR => 3
    case CmpRR => 4
    case Load => 5
    case Store => 6
    case Br => 7
    case Jmp => 8
    case Ret => 9
    case AtomicAdd => 10
    case AtomicCas => 11
    case Fence => 12
    case SetCc => 13
    case AddRI => 14
    case SubRI => 15
    case CmpRI => 16
    case TestRR => 17
    case XorRR => 18
    case AndRR => 19
    case OrRR => 20
    case Lea => 21
    case Push => 22
    case Pop => 23
    case Call => 24
    case X86Ret => 25
    case Unknown(code) => code
  }

  function PolicyNumber(p: Policy): U8 { if p.Drf? then 0 else 1 }
  function StrengthNumber(s: Strength): U8 { if s.Sc? then 0 else if s.Rcpc? then 1 else 2 }

  /** C's conversion of an int to 32 unsigned bits. */
  function Low32(x: int): U32 { x % TWO_32 }

  const HEADER_BYTES := 16
  const OP_BYTES := 32

  function KeyHeader(pc: U64, policy: Policy, strength: Strength): (s: seq<U8>)
    ensures |s| == HEADER_BYTES
  {
    Le64(pc) + [PolicyNumber(policy), StrengthNumber(strength)] + [0, 0, 0, 0, 0, 0]
  }

  /** One operation: of the target only the low half is folded in. */
  function OpFields(o: Insn): (vs: seq<U32>)
    ensures |vs| == 8
  {
    var imm := ToU64(o.imm);
    [Low32(OpNumber(o.op)), Low32(o.rd), Low32(o.rn), Low32(imm), imm / TWO_32,
     Low32(o.target), Low32(o.cc), Low32(o.mclass)]
  }

  function OpRecord(o: Insn): (s: seq<U8>)
    ensures |s| == OP_BYTES
  {
    Encode.BytesOf(OpFields(o))
  }

  type Recorder = Insn -> seq<U8>

  function Records(f: Recorder, ops: seq<Insn>): seq<U8> {
    if ops == [] then [] else Records(f, ops[..|ops| - 1]) + f(ops[|ops| - 1])
  }

  function Preimage(ops: seq<Insn>, pc: U64, policy: Policy, strength: Strength): seq<U8> {
    KeyHeader(pc, policy, strength) + Records(OpRecord, ops)
  }

  // ---- the preimage, byte by byte ----

  lemma {:induction false} WordSlice(ws: seq<U32>, i: nat)
    requires i < |ws|
    ensures Encode.BytesOf(ws)[4 * i..4 * i + 4] == Le32(ws[i])
  {
    var b := Encode.BytesOf(ws);
    if i > 0 {
      WordSlice(ws[1..], i - 1);
      assert b[4 * i..4 * i + 4] == b[4..][4 * (i - 1)..4 * (i - 1) + 4];
    }
  }

  /** Opcode, registers, both halves of the immediate, the low half of the target, condition and
      memory class, four bytes each. */
  lemma RecordLayout(o: Insn)
    ensures var b := OpRecord(o);
            && b[0..4] == Le32(Low32(OpNumber(o.op))) && b[4..8] == Le32(Low32(o.rd)) && b[8..12] == Le32(Low32(o.rn))
            && b[12..16] == Le32(Low32(ToU64(o.imm))) && b[16..20] == Le32(ToU64(o.imm) / TWO_32)
            && b[20..24] == Le32(Low32(o.target)) && b[24..28] == Le32(Low32(o.cc))
            && b[28..32] == Le32(Low32(o.mclass))
  {
    WordSlice(OpFields(o), 0);
    WordSlice(OpFields(o), 1);
    WordSlice(OpFields(o), 2);
    WordSlice(OpFields(o), 3);
    WordSlice(OpFields(o), 4);
    WordSlice(OpFields(o), 5);
    WordSlice(OpFields(o), 6);
    WordSlice(OpFields(o), 7);
  }

  lemma {:induction false} RecordSlice(f: Recorder, ops: seq<Insn>, k: nat)
    requires FixedSize(f) && k < |ops|
    ensures |Records(f, ops)| == 32 * |ops| && Records(f, ops)[32 * k..32 * k + 32] == f(ops[k])
  {
    var n := |ops| - 1;
    RecordsSize(f, ops);
    RecordsSize(f, ops[..n]);
    if k < n {
      RecordSlice(f, ops[..n], k);
    }
  }

  /** Guest pc, policy, strength and six zeros, then one record for each operation. */
  lemma PreimageLayout(ops: seq<Insn>, pc: U64, policy: Policy, strength: Strength)
    ensures var b := Preimage(ops, pc, policy, strength);
            && |b| == 16 + 32 * |ops| && b[..8] == Le64(pc) && b[8] == (if policy.Conservative? then 1 else 0)
            && b[9] == (if strength.Sc? then 0 else if strength.Rcpc? then 1 else 2) && b[10..16] == [0, 0, 0, 0, 0, 0]
            && forall k :: 0 <= k < |ops| ==> RecordAt(b, ops, k)
  {
    var header, records := KeyHeader(pc, policy, strength), Records(OpRecord, ops);
    RecordsSize(OpRecord, ops);
    forall k | 0 <= k < |ops| ensures RecordAt(header + records, ops, k) {
      RecordSlice(OpRecord, ops, k);
      assert (header + records)[16 + 32 * k..48 + 32 * k] == records[32 * k..32 * k + 32];
    }
  }

  predicate RecordAt(b: seq<U8>, ops: seq<Insn>, k: nat)
    requires k < |ops|
  {
    48 + 32 * k <= |b| && b[16 + 32 * k..48 + 32 * k] == OpRecord(ops[k])
  }

  // ---- equal preimages ----

  ghost predicate FixedSize(f: Recorder) {
    forall o :: |f(o)| == OP_BYTES
  }

  lemma {:induction false} RecordsSize(f: Recorder, ops: seq<Insn>)
    requires FixedSize(f)
    ensures |Records(f, ops)| == OP_BYTES * |ops|
  {
    if ops != [] {
      RecordsSize(f, ops[..|ops| - 1]);
    }
  }

  /** Equal records come from lists that agree record by record. */
  lemma {:induction false} RecordsInjective(f: Recorder, a: seq<Insn>, b: seq<Insn>)
    requires FixedSize(f) && Records(f, a) == Records(f, b)
    ensures |a| == |b| && forall k :: 0 <= k < |a| ==> f(a[k]) == f(b[k])
    decreases |a|
  {
    RecordsSize(f, a);
    RecordsSize(f, b);
    if a != [] {
      var n := |a| - 1;
      BlobStore.SplitEqual(Records(f, a[..n]), f(a[n]), Records(f, b[..n]), f(b[n]));
      RecordsInjective(f, a[..n], b[..n]);
      forall k | 0 <= k < |a| ensures f(a[k]) == f(b[k]) {
        assert k < n ==> a[..n][k] == a[k] && b[..n][k] == b[k];
      }
    }
  }

  lemma HeaderInjective(pc: U64, policy: Policy, strength: Strength, pc': U64, policy': Policy, strength': Strength)
    requires KeyHeader(pc, policy, strength) == KeyHeader(pc', policy', strength')
    ensures pc == pc' && policy == policy' && strength == strength'
  {
    var a, b := KeyHeader(pc, policy, strength), KeyHeader(pc', policy', strength');
    assert a[..8] == Le64(pc) && b[..8] == Le64(pc');
    FieldRoundTrips(0, 0, pc);
    FieldRoundTrips(0, 0, pc');
    assert a[8] == PolicyNumber(policy) && b[8] == PolicyNumber(policy');
    assert a[9] == StrengthNumber(strength) && b[9] == StrengthNumber(strength');
  }

  lemma FieldsInjective(a: seq<U32>, b: seq<U32>)
    requires Encode.BytesOf(a) == Encode.BytesOf(b)
    ensures a == b
  {
    Encode.WordsOfBytes(a);
    Encode.WordsOfBytes(b);
  }

  function OpOf(n: int): Opcode {
    match n
    case 0 => MovRR
    case 1 => MovRI
    case 2 => AddRR
    case 3 => SubRR
    case 4 => CmpRR
    case 5 => Load
    case 6 => Opcode.Store
    case 7 => Br
    case 8 => Jmp
    case 9 => Ret
    case 10 => AtomicAdd
    case 11 => AtomicCas
    case 12 => Fence
    case 13 => SetCc
    case 14 => AddRI
    case 15 => SubRI
    case 16 => CmpRI
    case 17 => TestRR
    case 18 => XorRR
    case 19 => AndRR
    case 20 => OrRR
    case 21 => Lea
    case 22 => Push
    case 23 => Pop
    case 24 => Call
    case 25 => X86Ret
    case _ => Unknown(n)
  }

  lemma OpOfNumber(op: Opcode)
    requires !op.Unknown?
    ensures 0 <= OpNumber(op) < 26 && OpOf(OpNumber(op)) == op
  {
  }

  lemma Low32Injective(x: I32, y: I32)
    requires Low32(x) == Low32(y)
    ensures x == y
  {
  }

  lemma HalvesInjective(x: U64, y: U64)
    requires Low32(x) == Low32(y) && x / TWO_32 == y / TWO_32
    ensures x == y
  {
  }

  /** Equal but for the high half of the target. */
  predicate SameButTarget(a: Insn, b: Insn) {
    a == b.(target := a.target) && Low32(a.target) == Low32(b.target)
  }

  lemma OpNumberInjective(p: Opcode, q: Opcode)
    requires !p.Unknown? && !q.Unknown? && Low32(OpNumber(p)) == Low32(OpNumber(q))
    ensures p == q
  {
    OpOfNumber(p);
    OpOfNumber(q);
    SameNumber(OpNumber(p), OpNumber(q), p, q);
  }

  lemma SameNumber(m: int, n: int, p: Opcode, q: Opcode)
    requires 0 <= m < 26 && 0 <= n < 26 && OpOf(m) == p && OpOf(n) == q && Low32(m) == Low32(n)
    ensures p == q
  {
  }

  lemma FieldValues(a: Insn, b: Insn)
    requires OpFields(a) == OpFields(b)
    ensures Low32(OpNumber(a.op)) == Low32(OpNumber(b.op)) && Low32(a.rd) == Low32(b.rd) && Low32(a.rn) == Low32(b.rn)
    ensures Low32(ToU64(a.imm)) == Low32(ToU64(b.imm)) && ToU64(a.imm) / TWO_32 == ToU64(b.imm) / TWO_32
    ensures Low32(a.target) == Low32(b.target) && Low32(a.cc) == Low32(b.cc) && Low32(a.mclass) == Low32(b.mclass)
  {
    var u, v := OpFields(a), OpFields(b);
    assert u[0] == v[0] && u[1] == v[1] && u[2] == v[2] && u[3] == v[3];
    assert u[4] == v[4] && u[5] == v[5] && u[6] == v[6] && u[7] == v[7];
  }

  lemma FieldsAgree(a: Insn, b: Insn)
    requires OpFields(a) == OpFields(b) && !a.op.Unknown? && !b.op.Unknown?
    ensures SameButTarget(a, b)
  {
    FieldValues(a, b);
    OpNumberInjective(a.op, b.op);
    Low32Injective(a.rd, b.rd);
    Low32Injective(a.rn, b.rn);
    Low32Injective(a.cc, b.cc);
    Low32Injective(a.mclass, b.mclass);
    HalvesInjective(ToU64(a.imm), ToU64(b.imm));
  }

  lemma RecordsAgree(a: Insn, b: Insn)
    requires OpRecord(a) == OpRecord(b) && !a.op.Unknown? && !b.op.Unknown?
    ensures SameButTarget(a, b)
  {
    FieldsInjective(OpFields(a), OpFields(b));
    FieldsAgree(a, b);
  }

  // ---- equal code ----

  /** What an operation is lowered to does not depend on its target. */
  lemma LowerIgnoresTarget(a: Insn, b: Insn, policy: Policy, strength: Strength)
    requires SameButTarget(a, b)
    ensures Lower(a, policy, strength) == Lower(b, policy, strength)
  {
  }

  lemma EmitIgnoresTarget(a: Insn, b: Insn, policy: Policy, strength: Strength)
    requires SameButTarget(a, b)
    ensures Emit(a, policy, strength) == Emit(b, policy, strength)
  {
    LowerIgnoresTarget(a, b, policy, strength);
  }

  lemma KnownIfLowered(o: Insn, policy: Policy, strength: Strength)
    requires Emit(o, policy, strength).Ok?
    ensures !o.op.Unknown?
  {
  }

  /** Blocks that agree up to target high halves. */
  predicate AllSame(a: seq<Insn>, b: seq<Insn>) {
    |a| == |b| && forall k :: 0 <= k < |a| ==> SameButTarget(a[k], b[k])
  }

  ghost predicate IgnoresTargets(f: Lowering) {
    forall a, b :: SameButTarget(a, b) ==> f(a) == f(b)
  }

  lemma {:induction false} SameWords(a: seq<Insn>, b: seq<Insn>, f: Lowering)
    requires AllSame(a, b) && IgnoresTargets(f) && AllLowered(a, f) && AllLowered(b, f)
    ensures WordsFor(a, f) == WordsFor(b, f)
    decreases |a|
  {
    if a != [] {
      assert SameButTarget(a[0], b[0]);
      forall k | 0 <= k < |a[1..]| ensures SameButTarget(a[1..][k], b[1..][k]) {
        assert SameButTarget(a[k + 1], b[k + 1]);
      }
      SameWords(a[1..], b[1..], f);
    }
  }

  /** A translation: a block, where it is, how long it is, and the settings. */
  datatype Job = Job(ops: seq<Insn>, pc: U64, len: U32, policy: Policy, strength: Strength)

  predicate Accepted(j: Job) {
    Accepts(j.ops, EmitWith(j.policy, j.strength))
  }

  function UnitFor(j: Job): Unit
    requires Accepted(j)
  {
    UnitOf(j.ops, j.pc, j.len, EmitWith(j.policy, j.strength))
  }

  function KeyBytes(j: Job): seq<U8> {
    Preimage(j.ops, j.pc, j.policy, j.strength)
  }

  /** Equal preimages: same place, same settings, same operations up to target high halves. */
  lemma PreimageDetermines(j: Job, k: Job)
    requires Accepted(j) && Accepted(k) && KeyBytes(j) == KeyBytes(k)
    ensures j.pc == k.pc && j.policy == k.policy && j.strength == k.strength && AllSame(j.ops, k.ops)
  {
    var hj, hk := KeyHeader(j.pc, j.policy, j.strength), KeyHeader(k.pc, k.policy, k.strength);
    assert KeyBytes(j)[..16] == hj && KeyBytes(k)[..16] == hk;
    HeaderInjective(j.pc, j.policy, j.strength, k.pc, k.policy, k.strength);
    assert KeyBytes(j)[16..] == Records(OpRecord, j.ops) && KeyBytes(k)[16..] == Records(OpRecord, k.ops);
    RecordsInjective(OpRecord, j.ops, k.ops);
    var f := EmitWith(j.policy, j.strength);
    forall n | 0 <= n < |j.ops| ensures SameButTarget(j.ops[n], k.ops[n]) {
      assert f(j.ops[n]).Ok? && f(k.ops[n]).Ok?;
      KnownIfLowered(j.ops[n], j.policy, j.strength);
      KnownIfLowered(k.ops[n], j.policy, j.strength);
      RecordsAgree(j.ops[n], k.ops[n]);
    }
  }

  lemma EmitWithIgnores(policy: Policy, strength: Strength)
    ensures IgnoresTargets(EmitWith(policy, strength))
  {
    forall a, b | SameButTarget(a, b) ensures EmitWith(policy, strength)(a) == EmitWith(policy, strength)(b) {
      EmitIgnoresTarget(a, b, policy, strength);
    }
  }

  /** Two translations with equal preimages have byte-identical code. */
  lemma KeyCoversCode(j: Job, k: Job)
    requires Accepted(j) && Accepted(k) && KeyBytes(j) == KeyBytes(k)
    ensures UnitFor(j).code == UnitFor(k).code
  {
    PreimageDetermines(j, k);
    EmitWithIgnores(j.policy, j.strength);
    SameWords(j.ops, k.ops, EmitWith(j.policy, j.strength));
  }

  function Last(j: Job): Insn
    requires Accepted(j)
  {
    j.ops[|j.ops| - 1]
  }

  lemma HighHalves(x: U64, y: U64)
    requires Low32(x) == Low32(y)
    ensures x == y <==> x / TWO_32 == y / TWO_32
  {
  }

  lemma PlusCancels(a: U64, x: U64, y: U64)
    ensures Plus(a, x) == Plus(a, y) <==> x == y
  {
  }

  /** Their relocations agree exactly when the high halves of the branch target do, and their exits
      exactly when, for a conditional branch, the guest lengths do too. */
  lemma KeyCoversRestExactly(j: Job, k: Job)
    requires Accepted(j) && Accepted(k) && KeyBytes(j) == KeyBytes(k)
    ensures var a, b := Last(j), Last(k);
            var sameTarget := Branches(a.op) ==> a.target / TWO_32 == b.target / TWO_32;
            && (UnitFor(j).relocs == UnitFor(k).relocs <==> sameTarget)
            && (UnitFor(j).exits == UnitFor(k).exits <==> (sameTarget && (a.op.Br? ==> j.len == k.len)))
  {
    PreimageDetermines(j, k);
    KeyCoversCode(j, k);
    var a, b := Last(j), Last(k);
    assert SameButTarget(a, b);
    HighHalves(a.target, b.target);
    PlusCancels(j.pc, j.len, k.len);
    RestAgrees(a, b, |UnitFor(j).code|, j.pc, j.len, k.len);
  }

  lemma RestAgrees(a: Insn, b: Insn, size: int, pc: U64, len: U32, len': U32)
    requires SameButTarget(a, b) && 4 <= size < TWO_32
    ensures RelocsFor(a, size) == RelocsFor(b, size) <==> (Branches(a.op) ==> a.target == b.target)
    ensures ExitsFor(a, pc, len) == ExitsFor(b, pc, len')
       <==> ((Branches(a.op) ==> a.target == b.target) && (a.op.Br? ==> len == len'))
  {
    var r, s := RelocsFor(a, size), RelocsFor(b, size);
    var x, y := ExitsFor(a, pc, len), ExitsFor(b, pc, len');
    if Branches(a.op) {
      assert r[0].target == a.target && s[0].target == b.target && x[0] == a.target && y[0] == b.target;
    }
    if a.op.Br? {
      PlusCancels(pc, len, len');
      assert x[1] == Plus(pc, len) && y[1] == Plus(pc, len');
    }
  }

  // ---- the limits of the claim ----

  function JumpTo(target: U64): Insn {
    Insn(Jmp, 0, 0, 0, target, 0, 0)
  }

  lemma JumpAccepted(target: U64, pc: U64, len: U32)
    ensures Accepted(Job([JumpTo(target)], pc, len, Drf, Sc))
  {
    var f := EmitWith(Drf, Sc);
    assert Lower(JumpTo(target), Drf, Sc).Ok?;
    assert f(JumpTo(target)).Ok?;
  }

  /** Equal preimages, different relocations: jumps 2^32 apart. */
  lemma FarJumpsShareAKey(pc: U64, len: U32)
    ensures var j, k := Job([JumpTo(0)], pc, len, Drf, Sc), Job([JumpTo(TWO_32)], pc, len, Drf, Sc);
            Accepted(j) && Accepted(k) && KeyBytes(j) == KeyBytes(k) && UnitFor(j).relocs != UnitFor(k).relocs
  {
    var j, k := Job([JumpTo(0)], pc, len, Drf, Sc), Job([JumpTo(TWO_32)], pc, len, Drf, Sc);
    JumpAccepted(0, pc, len);
    JumpAccepted(TWO_32, pc, len);
    assert OpFields(JumpTo(0)) == OpFields(JumpTo(TWO_32));
    OneRecord(JumpTo(0));
    OneRecord(JumpTo(TWO_32));
    KeyCoversRestExactly(j, k);
  }

  lemma OneRecord(o: Insn)
    ensures Records(OpRecord, [o]) == OpRecord(o)
  {
    assert [o][..0] == [];
    assert Records(OpRecord, []) == [];
  }

  /** Equal code, different preimages: the same jump at two places. So the key is not the identity of
      the code the other way round. */
  lemma MovedBlocksDiffer(target: U64, len: U32, pc: U64, pc': U64)
    requires pc != pc'
    ensures var j, k := Job([JumpTo(target)], pc, len, Drf, Sc), Job([JumpTo(target)], pc', len, Drf, Sc);
            Accepted(j) && Accepted(k) && KeyBytes(j) != KeyBytes(k) && UnitFor(j).code == UnitFor(k).code
  {
    var j, k := Job([JumpTo(target)], pc, len, Drf, Sc), Job([JumpTo(target)], pc', len, Drf, Sc);
    JumpAccepted(target, pc, len);
    JumpAccepted(target, pc', len);
    if KeyBytes(j) == KeyBytes(k) {
      PreimageDetermines(j, k);
    }
  }

  // ---- computing the hash ----

  lemma RecordsSnoc(f: Recorder, ops: seq<Insn>, n: nat)
    requires n < |ops|
    ensures Records(f, ops[..n + 1]) == Records(f, ops[..n]) + f(ops[n])
  {
    assert ops[..n + 1][..n] == ops[..n];
  }

  /** The pieces the hash is fed with: the header, then one record for each operation. */
  method KeyParts(header: seq<U8>, f: Recorder, ops: seq<Insn>) returns (parts: seq<seq<U8>>)
    ensures Sha256.Concat(parts) == header + Records(f, ops)
  {
    parts := [header];
    assert parts[..0] == [] && Sha256.Concat(parts) == header;
    for n := 0 to |ops|
      invariant Sha256.Concat(parts) == header + Records(f, ops[..n])
    {
      RecordsSnoc(f, ops, n);
      ghost var before := parts;
      parts := parts + [f(ops[n])];
      assert parts[..|parts| - 1] == before;
    }
    assert ops[..|ops|] == ops;
  }

  lemma PreimageFits(ops: seq<Insn>, pc: U64, policy: Policy, strength: Strength)
    requires |ops| <= MAX_OPS
    ensures |Preimage(ops, pc, policy, strength)| < Sha256.MAX_BYTES
  {
    RecordsSize(OpRecord, ops);
  }

  /** The guest hash is the SHA-256 digest of the preimage. */
  method HashBlock(ops: seq<Insn>, pc: U64, policy: Policy, strength: Strength) returns (out: seq<U8>)
    requires |ops| <= MAX_OPS
    ensures |Preimage(ops, pc, policy, strength)| < Sha256.MAX_BYTES
    ensures out == Sha256.Digest(Preimage(ops, pc, policy, strength))
  {
    PreimageFits(ops, pc, policy, strength);
    var parts := KeyParts(KeyHeader(pc, policy, strength), OpRecord, ops);
    out := Sha256.HashParts(parts);
  }

  // ---- the logical key ----

  const ISA: U32 := 0x5338_4850
  const TRANSLATOR: U32 := 0x4f52_5958
  const TRANSLATOR_VERSION: U32 := 1

  /** The identity the translator stamps into a unit, for a block digest `d`. */
  function IdentityOf(d: seq<U8> -> Layout.Hash, j: Job, profile: U32): TuFormat.Identity {
    TuFormat.Identity(ISA, TRANSLATOR, TRANSLATOR_VERSION, profile, d(KeyBytes(j)))
  }

  /** The tags of the header, "S8HP" and "ORYX", with version 1. */
  lemma Stamps(d: seq<U8> -> Layout.Hash, j: Job, profile: U32)
    ensures var id := IdentityOf(d, j, profile);
            && Sha256.BytesOfWord(id.isa) == ['S' as U8, '8' as U8, 'H' as U8, 'P' as U8]
            && Sha256.BytesOfWord(id.translator) == ['O' as U8, 'R' as U8, 'Y' as U8, 'X' as U8]
            && id.version == 1 && id.profile == profile && id.guestHash == d(KeyBytes(j))
  {
  }

  /** Two translations stored under the same logical key have byte-identical code, if neither hash
      collides on them. */
  lemma SameKeySameCode(h: BlobStore.Digest, d: seq<U8> -> Layout.Hash, j: Job, k: Job, profile: U32, profile': U32)
    requires Accepted(j) && Accepted(k)
    requires d(KeyBytes(j)) == d(KeyBytes(k)) ==> KeyBytes(j) == KeyBytes(k)
    requires BlobStore.CollisionFree(h, {BlobStore.TuPreimage(IdentityOf(d, j, profile)),
                                         BlobStore.TuPreimage(IdentityOf(d, k, profile'))})
    requires BlobStore.TuKey(h, IdentityOf(d, j, profile)) == BlobStore.TuKey(h, IdentityOf(d, k, profile'))
    ensures profile == profile' && UnitFor(j).code == UnitFor(k).code
  {
    BlobStore.TuPreimageInjective(IdentityOf(d, j, profile), IdentityOf(d, k, profile'));
    KeyCoversCode(j, k);
  }
}
