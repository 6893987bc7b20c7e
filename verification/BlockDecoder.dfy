/** Decoding a basic block: the loop, and what it has to do with the encodings in the image. */
module BlockDecoder {
  import opened Words
  import opened Errors
  import opened GuestIr
  import opened X86
  import opened Decoder

  /** `bytes[0]` lives at guest address `base`. */
  datatype RawImage = Image(bytes: seq<U8>, base: U64)

  type Image = i: RawImage | |i.bytes| < 0x8000_0000_0000_0000 witness Image([], 0)

  function AluIr(op: AluOp): Opcode {
    match op
    case AddOp => AddRR
    case SubOp => SubRR
    case XorOp => XorRR
    case AndOp => AndRR
    case OrOp => OrRR
    case CmpOp => CmpRR
    case TestOp => TestRR
  }

  function Simple(op: Opcode, rd: Reg, rn: Reg, imm: I64): Insn {
    Insn(op, rd, rn, imm, 0, 0, 0)
  }

  function Jump(op: Opcode, target: U64, cc: I32, imm: I64): Insn {
    Insn(op, 0, 0, imm, target, cc, 0)
  }

  /** The IR operation for an instruction whose successor is at `next`; a CALL carries its return
      address. */
  function IrOf(i: Instr, next: U64): Insn
    requires !i.Endbr64?
  {
    match i
    case Mov(d, s) => Simple(MovRR, d, s, 0)
    case LeaDisp(d, base, disp) => Simple(Lea, d, base, disp)
    case MovConst(d, v) => Simple(MovRI, d, 0, Signed(v))
    case Alu(op, d, s) => Simple(AluIr(op), d, s, 0)
    case AluConst(op, d, imm) => Simple(if op.AddOp? then AddRI else if op.SubOp? then SubRI else CmpRI, d, 0, imm)
    case PushReg(r) => Simple(Push, r, 0, 0)
    case PopReg(r) => Simple(Pop, r, 0, 0)
    case CallRel(rel) => Jump(Call, Plus(next, ToU64(rel)), 0, Signed(next))
    case JmpRel(rel) => Jump(Jmp, Plus(next, ToU64(rel)), 0, 0)
    case Jcc(cc, rel) => Jump(Br, Plus(next, ToU64(rel)), cc, 0)
    case RetNear => Jump(X86Ret, 0, 0, 0)
  }

  /** Only branches have a target, only conditional ones a condition, and nothing a memory class. */
  lemma UnusedAreZero(i: Instr, next: U64)
    requires !i.Endbr64?
    ensures var o := IrOf(i, next);
            o.mclass == 0 && (!i.Jcc? ==> o.cc == 0) && (!(i.CallRel? || i.JmpRel? || i.Jcc?) ==> o.target == 0)
  {
  }

  /** What the decode loop knows about instructions: how they are written, how one is read off the
      front of some bytes, whether it ends a block, and its IR, if any, before a successor pc. */
  datatype Codec<!T> = Codec(
    bytes: T -> seq<U8>,
    read: seq<U8> -> Result<T>,
    ends: T -> bool,
    ir: (T, U64) -> seq<Insn>)

  ghost predicate Lawful<T(!new)>(c: Codec<T>) {
    && (forall t :: 1 <= |c.bytes(t)| <= 10)
    && (forall t, rest :: c.read(c.bytes(t) + rest) == Ok(t))
    && (forall s :: c.read(s).Ok? ==> c.bytes(c.read(s).value) <= s)
    && (forall t, pc :: |c.ir(t, pc)| <= 1 && (c.ends(t) ==> |c.ir(t, pc)| == 1))
  }

  datatype Decoded = Decoded(ops: seq<Insn>, used: nat)

  function Prepend(ops: seq<Insn>, used: nat, r: Result<Decoded>): Result<Decoded> {
    if r.Err? then r else Ok(Decoded(ops + r.value.ops, used + r.value.used))
  }

  /** Decoding the bytes `s` found at `cur`, with room for so many more operations. */
  function DecodeFrom<T(!new)>(c: Codec<T>, s: seq<U8>, cur: U64, room: nat): Result<Decoded>
    requires Lawful(c)
    decreases |s|
  {
    var t := c.read(s);
    if t.Err? then Err(t.error)
    else
      var n := |c.bytes(t.value)|;
      var next := Plus(cur, n);
      var ops := c.ir(t.value, next);
      if |ops| > room then Err(Inval)
      else if c.ends(t.value) then Ok(Decoded(ops, n))
      else Prepend(ops, n, DecodeFrom(c, s[n..], next, room - |ops|))
  }

  /** The block at `pc`. The reported length is the bytes used, truncated to 32 bits. */
  function BlockIn<T(!new)>(c: Codec<T>, img: Image, pc: U64, cap: nat): Result<Fetched>
    requires Lawful(c)
  {
    if pc < img.base || pc >= Plus(img.base, |img.bytes|) then Err(NotFound)
    else
      var d := DecodeFrom(c, img.bytes[pc - img.base..], pc, cap);
      if d.Err? then Err(d.error) else Ok(Fetched(d.value.ops, d.value.used % TWO_32))
  }

  lemma PrependTwice(a: seq<Insn>, m: nat, b: seq<Insn>, n: nat, r: Result<Decoded>)
    ensures Prepend(a, m, Prepend(b, n, r)) == Prepend(a + b, m + n, r)
  {
    if r.Ok? {
      assert a + (b + r.value.ops) == (a + b) + r.value.ops;
    }
  }

  lemma PrependNothing(r: Result<Decoded>)
    ensures Prepend([], 0, r) == r
  {
    if r.Ok? {
      assert [] + r.value.ops == r.value.ops;
    }
  }

  /** Decoding has produced `ops` from `used` bytes and goes on at `s`; `goal` is the final result. */
  ghost predicate Pending<T(!new)>(c: Codec<T>, s: seq<U8>, cur: U64, ops: seq<Insn>, used: nat, cap: nat,
                                   goal: Result<Decoded>)
    requires Lawful(c)
  {
    |ops| <= cap && goal == Prepend(ops, used, DecodeFrom(c, s, cur, cap - |ops|))
  }

  /** One round of the loop. */
  lemma Round<T(!new)>(c: Codec<T>, s: seq<U8>, cur: U64, ops: seq<Insn>, used: nat, cap: nat,
                                          goal: Result<Decoded>, t: T, n: nat, more: seq<Insn>)
    requires Lawful(c) && Pending(c, s, cur, ops, used, cap, goal)
    requires c.read(s) == Ok(t) && n == |c.bytes(t)| && more == c.ir(t, Plus(cur, n))
    ensures n <= |s|
    ensures if |ops| + |more| > cap then goal == Err(Inval)
            else if c.ends(t) then goal == Ok(Decoded(ops + more, used + n))
            else Pending(c, s[n..], Plus(cur, n), ops + more, used + n, cap, goal)
  {
    if |ops| + |more| <= cap && !c.ends(t) {
      PrependTwice(ops, used, more, n, DecodeFrom(c, s[n..], Plus(cur, n), cap - |ops + more|));
    }
  }

  lemma SuffixOfSuffix(bytes: seq<U8>, off: nat, n: nat)
    requires off + n <= |bytes|
    ensures bytes[off..][n..] == bytes[off + n..]
  {
  }

  /** The decode loop: `off`, `cur` and `ops` advance together until a terminator. Every byte read
      lies in the image, and each round shortens what remains. */
  method DecodeLoop<T(!new)>(c: Codec<T>, bytes: seq<U8>, start: nat, pc: U64, cap: nat) returns (r: Result<Decoded>)
    requires Lawful(c) && start <= |bytes|
    ensures r == DecodeFrom(c, bytes[start..], pc, cap)
  {
    var off, cur, ops: seq<Insn>, done := start, pc, [], false;
    ghost var goal := DecodeFrom(c, bytes[start..], pc, cap);
    PrependNothing(goal);
    while !done
      invariant start <= off <= |bytes| && |ops| <= cap
      invariant !done ==> Pending(c, bytes[off..], cur, ops, off - start, cap, goal)
      invariant done ==> goal == Ok(Decoded(ops, off - start))
      decreases !done, |bytes| - off
    {
      var t := c.read(bytes[off..]);
      if t.Err? {
        return Err(t.error);
      }
      var n := |c.bytes(t.value)|;
      var more := c.ir(t.value, Plus(cur, n));
      Round(c, bytes[off..], cur, ops, off - start, cap, goal, t.value, n, more);
      SuffixOfSuffix(bytes, off, n);
      off, cur := off + n, Plus(cur, n);
      if |ops| + |more| > cap {
        return Err(Inval);
      }
      ops := ops + more;
      done := c.ends(t.value);
    }
    r := Ok(Decoded(ops, off - start));
  }

  // ---- the block is the encodings in the image ----

  /** The bytes of consecutive instructions. */
  function CodeOf<T>(c: Codec<T>, items: seq<T>): seq<U8> {
    if items == [] then [] else c.bytes(items[0]) + CodeOf(c, items[1..])
  }

  /** The IR of consecutive instructions placed at `cur`. */
  function IrAll<T(!new)>(c: Codec<T>, items: seq<T>, cur: U64): seq<Insn>
    requires Lawful(c)
  {
    if items == [] then []
    else
      var next := Plus(cur, |c.bytes(items[0])|);
      c.ir(items[0], next) + IrAll(c, items[1..], next)
  }

  /** A block: instructions up to and including the first control transfer. */
  predicate IsRun<T>(c: Codec<T>, items: seq<T>) {
    items != [] && forall k :: 0 <= k < |items| ==> (c.ends(items[k]) <==> k == |items| - 1)
  }

  lemma TailIsRun<T>(c: Codec<T>, items: seq<T>)
    requires IsRun(c, items) && !c.ends(items[0])
    ensures |items| > 1 && IsRun(c, items[1..])
  {
    var t := items[1..];
    assert t != [];
    forall k | 0 <= k < |t| ensures c.ends(t[k]) <==> k == |t| - 1 {
      assert t[k] == items[k + 1];
    }
  }

  lemma FirstReads<T(!new)>(c: Codec<T>, items: seq<T>, rest: seq<U8>)
    requires Lawful(c) && items != []
    ensures var s, n := CodeOf(c, items) + rest, |c.bytes(items[0])|;
            n <= |s| && c.read(s) == Ok(items[0]) && s[n..] == CodeOf(c, items[1..]) + rest
  {
    assert CodeOf(c, items) + rest == c.bytes(items[0]) + (CodeOf(c, items[1..]) + rest);
  }

  lemma LastIsAlone<T(!new)>(c: Codec<T>, items: seq<T>, cur: U64)
    requires Lawful(c) && IsRun(c, items) && c.ends(items[0])
    ensures |items| == 1 && CodeOf(c, items) == c.bytes(items[0])
    ensures IrAll(c, items, cur) == c.ir(items[0], Plus(cur, |c.bytes(items[0])|))
  {
    assert items[1..] == [];
    assert CodeOf(c, items[1..]) == [];
    assert IrAll(c, items[1..], Plus(cur, |c.bytes(items[0])|)) == [];
  }

  /** What decoding a block must give. */
  function Expected<T(!new)>(c: Codec<T>, items: seq<T>, cur: U64, room: nat): Result<Decoded>
    requires Lawful(c)
  {
    var ops := IrAll(c, items, cur);
    if |ops| <= room then Ok(Decoded(ops, |CodeOf(c, items)|)) else Err(Inval)
  }

  /** Any concatenation of supported encodings up to its first control transfer decodes to exactly
      those operations whatever follows, or runs out of room. */
  lemma {:induction false} DecodeInverts<T(!new)>(c: Codec<T>, items: seq<T>, rest: seq<U8>, cur: U64, room: nat)
    requires Lawful(c) && IsRun(c, items)
    ensures DecodeFrom(c, CodeOf(c, items) + rest, cur, room) == Expected(c, items, cur, room)
    decreases items
  {
    FirstReads(c, items, rest);
    var next := Plus(cur, |c.bytes(items[0])|);
    var ops := c.ir(items[0], next);
    if c.ends(items[0]) {
      LastIsAlone(c, items, cur);
    } else if |ops| <= room {
      TailIsRun(c, items);
      DecodeInverts(c, items[1..], rest, next, room - |ops|);
    }
  }

  /** The instructions found at the start of some bytes. */
  function ItemsIn<T(!new)>(c: Codec<T>, s: seq<U8>): seq<T>
    requires Lawful(c)
    decreases |s|
  {
    var t := c.read(s);
    if t.Err? then []
    else [t.value] + if c.ends(t.value) then [] else ItemsIn(c, s[|c.bytes(t.value)|..])
  }

  /** These instructions, and no others before a control transfer, start the bytes `s`. */
  predicate RunAt<T>(c: Codec<T>, s: seq<U8>, items: seq<T>) {
    IsRun(c, items) && CodeOf(c, items) <= s
  }

  lemma ConsRunAt<T(!new)>(c: Codec<T>, s: seq<U8>, t: T, items: seq<T>)
    requires Lawful(c) && c.bytes(t) <= s && !c.ends(t) && RunAt(c, s[|c.bytes(t)|..], items)
    ensures RunAt(c, s, [t] + items)
  {
    var all, n := [t] + items, |c.bytes(t)|;
    forall k | 0 <= k < |all| ensures c.ends(all[k]) <==> k == |all| - 1 {
      assert k > 0 ==> all[k] == items[k - 1];
    }
    assert all[1..] == items;
    assert s == s[..n] + s[n..];
  }

  /** Whatever decodes is such a concatenation. */
  lemma {:induction false} DecodedIsRun<T(!new)>(c: Codec<T>, s: seq<U8>, cur: U64, room: nat)
    requires Lawful(c) && DecodeFrom(c, s, cur, room).Ok?
    ensures RunAt(c, s, ItemsIn(c, s))
    decreases |s|
  {
    var t := c.read(s).value;
    var n := |c.bytes(t)|;
    if c.ends(t) {
      assert ItemsIn(c, s) == [t];
      LastIsAlone(c, [t], cur);
    } else {
      DecodedIsRun(c, s[n..], Plus(cur, n), room - |c.ir(t, Plus(cur, n))|);
      ConsRunAt(c, s, t, ItemsIn(c, s[n..]));
    }
  }

  lemma RunDecodes<T(!new)>(c: Codec<T>, s: seq<U8>, items: seq<T>, cur: U64, room: nat)
    requires Lawful(c) && RunAt(c, s, items)
    ensures DecodeFrom(c, s, cur, room) == Expected(c, items, cur, room)
  {
    var n := |CodeOf(c, items)|;
    assert s == CodeOf(c, items) + s[n..];
    DecodeInverts(c, items, s[n..], cur, room);
  }

  /** The decoder accepts exactly the bytes that start with a block of supported encodings that
      fits, and reports exactly its operations and its length. */
  lemma DecodesExactly<T(!new)>(c: Codec<T>, s: seq<U8>, cur: U64, room: nat, d: Decoded)
    requires Lawful(c)
    ensures DecodeFrom(c, s, cur, room) == Ok(d)
       <==> exists items :: RunAt(c, s, items) && Expected(c, items, cur, room) == Ok(d)
  {
    if DecodeFrom(c, s, cur, room) == Ok(d) {
      DecodedIsRun(c, s, cur, room);
      RunDecodes(c, s, ItemsIn(c, s), cur, room);
    }
    if items :| RunAt(c, s, items) && Expected(c, items, cur, room) == Ok(d) {
      RunDecodes(c, s, items, cur, room);
    }
  }

  /** A block in the image that fits is fetched with its operations; the reported length is right
      exactly when the block, endbr64 padding included, is shorter than 2^32 bytes. */
  lemma FetchedExactly<T(!new)>(c: Codec<T>, img: Image, pc: U64, cap: nat, items: seq<T>)
    requires Lawful(c) && img.base <= pc < Plus(img.base, |img.bytes|)
    requires RunAt(c, img.bytes[pc - img.base..], items) && |IrAll(c, items, pc)| <= cap
    ensures var f, n := BlockIn(c, img, pc, cap), |CodeOf(c, items)|;
            f.Ok? && f.value.ops == IrAll(c, items, pc) && (f.value.len == n <==> n < TWO_32)
  {
    RunDecodes(c, img.bytes[pc - img.base..], items, pc, cap);
  }

  /** At most one block starts at a place. */
  lemma {:induction false} RunIsUnique<T(!new)>(c: Codec<T>, s: seq<U8>, items: seq<T>)
    requires Lawful(c) && RunAt(c, s, items)
    ensures items == ItemsIn(c, s)
    decreases items
  {
    var n := |CodeOf(c, items)|;
    assert s == CodeOf(c, items) + s[n..];
    FirstReads(c, items, s[n..]);
    if c.ends(items[0]) {
      LastIsAlone(c, items, 0);
    } else {
      TailIsRun(c, items);
      RunIsUnique(c, s[|c.bytes(items[0])|..], items[1..]);
    }
  }

  /** The result depends on the bytes used and on nothing behind them. */
  lemma DecodeIsLocal<T(!new)>(c: Codec<T>, s: seq<U8>, other: seq<U8>, cur: U64, room: nat)
    requires Lawful(c) && DecodeFrom(c, s, cur, room).Ok?
    ensures var d := DecodeFrom(c, s, cur, room).value;
            d.used <= |s| && DecodeFrom(c, s[..d.used] + other, cur, room) == Ok(d)
  {
    DecodedIsRun(c, s, cur, room);
    var items := ItemsIn(c, s);
    RunDecodes(c, s, items, cur, room);
    assert s[..|CodeOf(c, items)|] == CodeOf(c, items);
    DecodeInverts(c, items, other, cur, room);
  }

  // ---- the x86 codec ----

  function ReadItem(s: seq<U8>): (r: Result<Item>)
    ensures r.Ok? ==> Bytes(r.value.insn, r.value.form) <= s
  {
    var p := Parse(s);
    if p.Err? then Err(p.error)
    else
      BytesOfParse(s);
      Ok(Coded(p.value.insn, p.value.form))
  }

  function ItemIr(c: Item, next: U64): seq<Insn> {
    if c.insn.Endbr64? then [] else [IrOf(c.insn, next)]
  }

  function ItemEnds(c: Item): bool {
    Ends(c.insn)
  }

  const X86_CODEC: Codec<Item> := Codec(ItemBytes, ReadItem, ItemEnds, ItemIr)

  lemma ReadOfBytes(c: Item, rest: seq<U8>)
    ensures ReadItem(ItemBytes(c) + rest) == Ok(c)
  {
    ParseOfBytes(c.insn, c.form, rest);
  }

  /** Reading and writing instructions are inverse. */
  lemma X86Lawful()
    ensures Lawful(X86_CODEC)
  {
    var c := X86_CODEC;
    forall t: Item, rest ensures c.read(c.bytes(t) + rest) == Ok(t) {
      ReadOfBytes(t, rest);
    }
    forall s | c.read(s).Ok? ensures c.bytes(c.read(s).value) <= s {
      assert c.read(s) == ReadItem(s);
    }
    forall t: Item ensures 1 <= |c.bytes(t)| <= 10 {
      assert c.bytes(t) == ItemBytes(t);
    }
    forall t: Item, pc ensures |c.ir(t, pc)| <= 1 && (c.ends(t) ==> |c.ir(t, pc)| == 1) {
      assert c.ir(t, pc) == ItemIr(t, pc);
    }
  }

  /** The decoder's output for these instructions. */
  function IrOfRun(items: seq<Item>, pc: U64): seq<Insn> {
    X86Lawful();
    IrAll(X86_CODEC, items, pc)
  }

  /** The x86 block at `pc`. */
  function X86Block(img: Image, pc: U64, cap: nat): Result<Fetched> {
    X86Lawful();
    BlockIn(X86_CODEC, img, pc, cap)
  }

  method DecodeBlock(img: Image, pc: U64, cap: nat) returns (r: Result<Fetched>)
    ensures r == X86Block(img, pc, cap)
  {
    X86Lawful();
    if pc < img.base || pc >= Plus(img.base, |img.bytes|) {
      return Err(NotFound);
    }
    var d := DecodeLoop(X86_CODEC, img.bytes, pc - img.base, pc, cap);
    r := if d.Err? then Err(d.error) else Ok(Fetched(d.value.ops, d.value.used % TWO_32));
  }

  // ---- moving the image ----

  /** An operation decoded `d` bytes further up: branch targets and return addresses move, nothing
      else does. */
  function Moved(o: Insn, d: U64): Insn {
    match o.op
    case Br => o.(target := Plus(o.target, d))
    case Jmp => o.(target := Plus(o.target, d))
    case Call => o.(target := Plus(o.target, d), imm := Signed(Plus(ToU64(o.imm), d)))
    case _ => o
  }

  function MovedAll(ops: seq<Insn>, d: U64): (r: seq<Insn>)
    ensures |r| == |ops| && forall k :: 0 <= k < |r| ==> r[k] == Moved(ops[k], d)
  {
    if ops == [] then [] else [Moved(ops[0], d)] + MovedAll(ops[1..], d)
  }

  lemma PlusSwaps(a: U64, d: U64, n: U64)
    ensures Plus(Plus(a, d), n) == Plus(Plus(a, n), d)
  {
  }

  lemma SignedRoundTrip(v: U64)
    ensures ToU64(Signed(v)) == v
  {
  }

  lemma IrMoves(i: Instr, next: U64, d: U64)
    requires !i.Endbr64?
    ensures IrOf(i, Plus(next, d)) == Moved(IrOf(i, next), d)
  {
    if i.CallRel? || i.JmpRel? || i.Jcc? {
      PlusSwaps(next, d, ToU64(i.rel));
      SignedRoundTrip(next);
    }
  }

  ghost predicate Moves<T(!new)>(c: Codec<T>, d: U64) {
    forall t, next :: c.ir(t, Plus(next, d)) == MovedAll(c.ir(t, next), d)
  }

  lemma X86Moves(d: U64)
    ensures Moves(X86_CODEC, d)
  {
    forall t: Item, next: U64 ensures X86_CODEC.ir(t, Plus(next, d)) == MovedAll(X86_CODEC.ir(t, next), d) {
      if !t.insn.Endbr64? {
        IrMoves(t.insn, next, d);
      }
    }
  }

  lemma MovedAppend(a: seq<Insn>, b: seq<Insn>, d: U64)
    ensures MovedAll(a + b, d) == MovedAll(a, d) + MovedAll(b, d)
  {
  }

  function MovedResult(r: Result<Decoded>, d: U64): Result<Decoded> {
    if r.Err? then r else Ok(Decoded(MovedAll(r.value.ops, d), r.value.used))
  }

  lemma MovedPrepend(ops: seq<Insn>, n: nat, r: Result<Decoded>, d: U64)
    ensures Prepend(MovedAll(ops, d), n, MovedResult(r, d)) == MovedResult(Prepend(ops, n, r), d)
  {
    if r.Ok? {
      MovedAppend(ops, r.value.ops, d);
    }
  }

  lemma IrMovesAt<T(!new)>(c: Codec<T>, t: T, cur: U64, n: U64, d: U64)
    requires Moves(c, d)
    ensures Plus(Plus(cur, d), n) == Plus(Plus(cur, n), d)
    ensures c.ir(t, Plus(Plus(cur, d), n)) == MovedAll(c.ir(t, Plus(cur, n)), d)
  {
    PlusSwaps(cur, d, n);
  }

  lemma StepMoves<T(!new)>(c: Codec<T>, s: seq<U8>, cur: U64, cur': U64, room: nat, d: U64, t: T, n: nat)
    requires Lawful(c) && c.read(s) == Ok(t) && n == |c.bytes(t)| && !c.ends(t)
    requires c.ir(t, Plus(cur', n)) == MovedAll(c.ir(t, Plus(cur, n)), d)
    requires forall left: nat :: left == room - |c.ir(t, Plus(cur, n))| ==>
      (DecodeFrom(c, s[n..], Plus(cur', n), left) == MovedResult(DecodeFrom(c, s[n..], Plus(cur, n), left), d))
    ensures DecodeFrom(c, s, cur', room) == MovedResult(DecodeFrom(c, s, cur, room), d)
  {
    var ops := c.ir(t, Plus(cur, n));
    if |ops| <= room {
      MovedPrepend(ops, n, DecodeFrom(c, s[n..], Plus(cur, n), room - |ops|), d);
    }
  }

  /** The same bytes at another address: same errors, same length, moved operations. */
  lemma {:induction false} DecodeMoves<T(!new)>(c: Codec<T>, s: seq<U8>, cur: U64, room: nat, d: U64)
    requires Lawful(c) && Moves(c, d)
    ensures DecodeFrom(c, s, Plus(cur, d), room) == MovedResult(DecodeFrom(c, s, cur, room), d)
    decreases |s|
  {
    if c.read(s).Ok? {
      var t := c.read(s).value;
      var n := |c.bytes(t)|;
      IrMovesAt(c, t, cur, n, d);
      if !c.ends(t) {
        var left := room - |c.ir(t, Plus(cur, n))|;
        if left >= 0 {
          DecodeMoves(c, s[n..], Plus(cur, n), left, d);
        }
        StepMoves(c, s, cur, Plus(cur, d), room, d, t, n);
      }
    }
  }

  /** An image moved up by `d` bytes, still inside the address space: the same error or the same
      length, and the moved operations. */
  lemma ImageMoves(img: Image, d: U64, pc: U64, cap: nat)
    requires img.base + |img.bytes| + d < TWO_64 && pc + d < TWO_64
    ensures var a, b := X86Block(img, pc, cap), X86Block(Image(img.bytes, img.base + d), pc + d, cap);
            if a.Err? then b == a else b == Ok(Fetched(MovedAll(a.value.ops, d), a.value.len))
  {
    X86Lawful();
    if img.base <= pc < img.base + |img.bytes| {
      X86Moves(d);
      DecodeMoves(X86_CODEC, img.bytes[pc - img.base..], pc, cap, d);
      assert Plus(pc, d) == pc + d;
    }
  }

  // ---- truncated images ----

  /** The part of the instruction that a cut `m` bytes into the code falls into. */
  function Leftover<T>(c: Codec<T>, items: seq<T>, m: nat): seq<U8> {
    if items == [] then []
    else
      var first := c.bytes(items[0]);
      if m < |first| then first[..m] else Leftover(c, items[1..], m - |first|)
  }

  /** How reading part of an instruction fails. */
  ghost predicate CutsAs<T(!new)>(c: Codec<T>, e: seq<U8> -> Error) {
    forall t, n: nat :: n < |c.bytes(t)| ==> c.read(c.bytes(t)[..n]) == Err(e(c.bytes(t)[..n]))
  }

  lemma CutCode<T(!new)>(c: Codec<T>, items: seq<T>, m: nat)
    requires Lawful(c) && items != [] && m < |CodeOf(c, items)|
    ensures var first, s := c.bytes(items[0]), CodeOf(c, items)[..m];
            if m < |first| then s == first[..m]
            else m - |first| < |CodeOf(c, items[1..])| && s == first + CodeOf(c, items[1..])[..m - |first|]
  {
  }

  /** A block whose bytes are cut off fails as the instruction the cut falls into does. */
  lemma {:induction false} CutRun<T(!new)>(c: Codec<T>, items: seq<T>, m: nat, cur: U64, room: nat, e: seq<U8> -> Error)
    requires Lawful(c) && CutsAs(c, e) && IsRun(c, items) && m < |CodeOf(c, items)| && |IrAll(c, items, cur)| <= room
    ensures DecodeFrom(c, CodeOf(c, items)[..m], cur, room) == Err(e(Leftover(c, items, m)))
    decreases items
  {
    CutCode(c, items, m);
    var first := c.bytes(items[0]);
    if m >= |first| {
      var next, rest := Plus(cur, |first|), CodeOf(c, items[1..])[..m - |first|];
      assert c.read(first + rest) == Ok(items[0]);
      assert (first + rest)[|first|..] == rest;
      if c.ends(items[0]) {
        LastIsAlone(c, items, cur);
      }
      TailIsRun(c, items);
      CutRun(c, items[1..], m - |first|, next, room - |c.ir(items[0], next)|, e);
    }
  }

  lemma CutImage<T(!new)>(c: Codec<T>, img: Image, items: seq<T>, m: nat, pc: U64, cap: nat,
                                             e: seq<U8> -> Error)
    requires Lawful(c) && CutsAs(c, e) && IsRun(c, items) && m < |CodeOf(c, items)| && |IrAll(c, items, pc)| <= cap
    requires img.base <= pc < Plus(img.base, |img.bytes|) && img.bytes[pc - img.base..] == CodeOf(c, items)[..m]
    ensures BlockIn(c, img, pc, cap) == Err(e(Leftover(c, items, m)))
  {
    CutRun(c, items, m, pc, cap, e);
  }

  function CutError(cut: seq<U8>): Error {
    if CutEndbr(cut) then Unsupported else Format
  }

  lemma X86Cuts()
    ensures CutsAs(X86_CODEC, CutError)
  {
    var c := X86_CODEC;
    forall t: Item, n: nat | n < |c.bytes(t)| ensures c.read(c.bytes(t)[..n]) == Err(CutError(c.bytes(t)[..n])) {
      assert c.bytes(t) == Bytes(t.insn, t.form);
      TruncatedExactly(t.insn, t.form, n);
      assert c.read(c.bytes(t)[..n]) == ReadItem(c.bytes(t)[..n]);
    }
  }

  /** An image that ends inside a block, `m` bytes into it: truncation is reported exactly when the cut
      does not fall into an endbr64, which is then reported as unsupported. */
  lemma TruncatedImage(img: Image, items: seq<Item>, m: nat, pc: U64, cap: nat)
    requires IsRun(X86_CODEC, items) && m < |CodeOf(X86_CODEC, items)| && |IrOfRun(items, pc)| <= cap
    requires img.base <= pc < Plus(img.base, |img.bytes|) && img.bytes[pc - img.base..] == CodeOf(X86_CODEC, items)[..m]
    ensures X86Block(img, pc, cap) == Err(CutError(Leftover(X86_CODEC, items, m)))
  {
    X86Lawful();
    X86Cuts();
    CutImage(X86_CODEC, img, items, m, pc, cap, CutError);
  }
}
