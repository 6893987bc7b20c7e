/** Linking: append exit stubs behind a unit's code, repoint its branch at them, and what the
    resulting image then does. */
module Link {
  import opened Words
  import opened Errors
  import opened GuestIr
  import opened A64
  import opened Encode
  import opened Translate

  const STUB_BYTES := 20

  function Rd32(b: seq<U8>, at: nat): U32
    requires at + 4 <= |b|
  {
    Get32(b[at..at + 4])
  }

  /** MOVZ and three MOVK of x17, then RET: five words for any pc. */
  function StubFrom(pc: U64, hw: nat): (ws: seq<U32>)
    requires hw <= 4
    ensures |ws| == 5 - hw
    decreases 4 - hw, pc
  {
    if hw == 4 then [0xD65F_03C0]
    else
      var mov := if hw == 0 then 0xD280_0000 else 0xF280_0000 + hw * 0x20_0000;
      [mov + LaneOf(pc, hw) * 0x20 + NEXT_PC] + StubFrom(pc, hw + 1)
  }

  function StubWords(pc: U64): (ws: seq<U32>)
    ensures |ws| == 5
  {
    StubFrom(pc, 0)
  }

  /** The branch word with its displacement, in words, filled in; B.cond keeps its condition. */
  function PatchedWord(insn: U32, disp: int): U32
    requires 0 <= disp < 0x4_0000
  {
    if insn / 0x100_0000 == 0x14 then 0x1400_0000 + disp % 0x400_0000
    else 0x5400_0000 + disp % 0x8_0000 * 0x20 + insn % 16
  }

  function Patched(b: seq<U8>, site: nat, to: nat): (r: seq<U8>)
    requires site + 4 <= |b| && site <= to && (to - site) / 4 < 0x4_0000
    ensures |r| == |b|
  {
    Splice(b, site, Le32(PatchedWord(Rd32(b, site), (to - site) / 4)))
  }

  /** How many stubs a unit needs, or why it cannot be linked. */
  function StubCount(u: Unit): Result<nat> {
    if |u.code| == 0 then Err(Inval)
    else if |u.code| % 4 != 0 then Err(Format)
    else if |u.relocs| > 1 then Err(Inval)
    else if |u.relocs| == 1 then
      if u.relocs[0].kind != RELOC_BRANCH || (u.relocs[0].offset + 4) % TWO_32 != |u.code| then Err(Format)
      else if |u.exits| < 1 then Err(Format)
      else Ok(if |u.exits| >= 2 then 2 else 1)
    else if Rd32(u.code, |u.code| - 4) != 0xD65F_03C0 then Err(Inval)
    else Ok(0)
  }

  /** The image: the code, the stubs, the patched branch. */
  function Linked(u: Unit): Result<seq<U8>>
    requires |u.code| < TWO_32
  {
    var stubs := StubCount(u);
    if stubs.Err? then Err(stubs.error)
    else if stubs.value == 0 then Ok(u.code)
    else
      var n, site, target := |u.code|, |u.code| - 4, u.relocs[0].target;
      if stubs.value == 1 then Ok(Patched(u.code, site, n) + BytesOf(StubWords(target)))
      else Ok(Patched(u.code, site, n + STUB_BYTES) + BytesOf(StubWords(u.exits[1]) + StubWords(target)))
  }

  /** Which units are linked, and what is wrong with the others: no code, two relocations, or no
      branch and no return at the end is an invalid unit; anything else is malformed. */
  lemma StubsExactly(u: Unit)
    requires |u.code| < TWO_32
    ensures var r, n, aligned, one := StubCount(u), |u.code|, |u.code| % 4 == 0, |u.relocs| == 1;
            && (r.Ok? <==> n > 0 && aligned && if one then GoodReloc(u) else u.relocs == [] && EndsInRet(u.code))
            && (r == Err(Inval) <==> n == 0 || (aligned && !one && (u.relocs != [] || !EndsInRet(u.code))))
            && (r == Err(Format) <==> n > 0 && (!aligned || (one && !GoodReloc(u))))
            && (r.Ok? ==> r.value == if one then (if |u.exits| == 1 then 1 else 2) else 0)
  {
    if |u.code| >= 4 {
      RetExactly(u.code);
    }
  }

  lemma LinkedAsCounted(u: Unit)
    requires |u.code| < TWO_32
    ensures StubCount(u).Ok? ==> Linked(u).Ok? && |Linked(u).value| == |u.code| + 20 * StubCount(u).value
    ensures StubCount(u).Err? ==> Linked(u) == Err(StubCount(u).error)
  {
  }

  /** The relocation is a branch at the last word of the code, and there is an exit. */
  predicate GoodReloc(u: Unit)
    requires |u.code| > 0 && |u.relocs| == 1
  {
    u.relocs[0].kind == 2 && u.relocs[0].offset == |u.code| - 4 && u.exits != []
  }

  predicate EndsInRet(code: seq<U8>) {
    |code| >= 4 && code[|code| - 4..] == [0xC0, 0x03, 0x5F, 0xD6]
  }

  lemma RetExactly(code: seq<U8>)
    requires |code| >= 4
    ensures Rd32(code, |code| - 4) == 0xD65F_03C0 <==> EndsInRet(code)
  {
    var s: seq<U8> := code[|code| - 4..];
    var ret: seq<U8> := [0xC0, 0x03, 0x5F, 0xD6];
    assert code[|code| - 4..|code|] == s;
    assert Le32(0xD65F_03C0) == ret;
    LeOfFromLe(s);
    FieldRoundTrips(0, 0xD65F_03C0, 0);
  }

  // ---- the image in memory ----

  /** `b` with `s` written over it from `at` on. */
  function Splice(b: seq<U8>, at: nat, s: seq<U8>): (r: seq<U8>)
    requires at + |s| <= |b|
    ensures |r| == |b|
  {
    b[..at] + s + b[at + |s|..]
  }

  lemma SpliceAfter(pre: seq<U8>, blank: seq<U8>, s: seq<U8>)
    requires |s| <= |blank|
    ensures Splice(pre + blank, |pre|, s) == (pre + s) + blank[|s|..]
  {
  }

  lemma SpliceEnd(pre: seq<U8>, last: seq<U8>, s: seq<U8>)
    requires |s| == |last|
    ensures Splice(pre + last, |pre|, s) == pre + s
  {
  }

  lemma SpliceSnoc(b: seq<U8>, at: nat, s: seq<U8>, t: seq<U8>)
    requires at + |s| + |t| <= |b|
    ensures Splice(Splice(b, at, s), at + |s|, t) == Splice(b, at, s + t)
  {
  }

  method WriteWord(m: array<U8>, at: nat, w: U32)
    requires at + 4 <= m.Length
    modifies m
    ensures m[..] == Splice(old(m[..]), at, Le32(w))
  {
    var b := Le32(w);
    m[at] := b[0];
    m[at + 1] := b[1];
    m[at + 2] := b[2];
    m[at + 3] := b[3];
  }

  method WriteWords(m: array<U8>, at: nat, ws: seq<U32>)
    requires at + 4 * |ws| <= m.Length
    modifies m
    ensures m[..] == Splice(old(m[..]), at, BytesOf(ws))
  {
    ghost var before := m[..];
    for k := 0 to |ws|
      invariant m[..] == Splice(before, at, BytesOf(ws[..k]))
    {
      WriteWord(m, at + 4 * k, ws[k]);
      SpliceSnoc(before, at, BytesOf(ws[..k]), Le32(ws[k]));
      assert ws[..k + 1] == ws[..k] + [ws[k]];
      BytesOfAppend(ws[..k], [ws[k]]);
      assert BytesOf([ws[k]]) == Le32(ws[k]) + BytesOf([]);
    }
    assert ws[..|ws|] == ws;
  }

  method PatchBranch(m: array<U8>, site: nat, to: nat)
    requires site + 4 <= m.Length && site <= to && (to - site) / 4 < 0x4_0000
    modifies m
    ensures m[..] == Patched(old(m[..]), site, to)
  {
    var insn := Rd32(m[..], site);
    WriteWord(m, site, PatchedWord(insn, (to - site) / 4));
  }

  /** Copy the code, write the stubs behind it, and repoint the last word at byte `to`. */
  method MapWithStubs(code: seq<U8>, stubs: seq<U32>, to: nat) returns (image: seq<U8>)
    requires 4 <= |code| <= to && (to - (|code| - 4)) / 4 < 0x4_0000
    ensures image == Patched(code, |code| - 4, to) + BytesOf(stubs)
  {
    var n := |code|;
    var m := new U8[n + 4 * |stubs|](k requires 0 <= k => if k < n then code[k] else 0);
    ghost var blank := m[n..];
    assert m[..] == code + blank;
    WriteWords(m, n, stubs);
    SpliceAfter(code, blank, BytesOf(stubs));
    assert m[..] == code + BytesOf(stubs);
    PatchPrefix(code, BytesOf(stubs), to);
    PatchBranch(m, n - 4, to);
    image := m[..];
  }

  /** Map a unit: check it, copy its code, append the stubs (a conditional branch falls into the
      first and is taken to the second), repoint the branch. */
  method MapLinked(u: Unit) returns (r: Result<seq<U8>>)
    requires |u.code| < TWO_32
    ensures r == Linked(u)
  {
    var stubs := StubCount(u);
    if stubs.Err? {
      r := Err(stubs.error);
    } else if stubs.value == 0 {
      r := Ok(u.code);
    } else if stubs.value == 1 {
      var image := MapWithStubs(u.code, StubWords(u.relocs[0].target), |u.code|);
      r := Ok(image);
    } else {
      var image := MapWithStubs(u.code, StubWords(u.exits[1]) + StubWords(u.relocs[0].target), |u.code| + STUB_BYTES);
      r := Ok(image);
    }
  }

  /** Patching the last word of the code does not touch what follows it. */
  lemma PatchPrefix(code: seq<U8>, tail: seq<U8>, to: nat)
    requires 4 <= |code| && |code| - 4 <= to && (to - (|code| - 4)) / 4 < 0x4_0000
    ensures Patched(code + tail, |code| - 4, to) == Patched(code, |code| - 4, to) + tail
  {
    var at := |code| - 4;
    assert (code + tail)[at..at + 4] == code[at..at + 4];
    assert (code + tail)[..at] == code[..at];
    assert (code + tail)[at + 4..] == tail && code[at + 4..] == [];
  }
}
