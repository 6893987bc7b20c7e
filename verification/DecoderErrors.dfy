/** Which bytes the decoder rejects, and with which error: what is not an encoding is truncated when
    the bytes the opcode asks for are not all there, and unsupported otherwise. */
module DecoderErrors {
  import opened Words
  import opened Errors
  import opened GuestIr
  import opened X86
  import opened Decoder

  /** Opcodes with a ModRM byte. */
  predicate HasModrm(op: U8) {
    op in {0x01, 0x09, 0x21, 0x29, 0x31, 0x39, 0x3B, 0x81, 0x83, 0x85, 0x89, 0x8B, 0x8D, 0xC7}
  }

  /** Displacement bytes a ModRM byte asks for; SIB operands are turned down before theirs. */
  function DispLength(b: U8): nat {
    if b % 8 == 4 then 0 else if 0x40 <= b <= 0x7F then 1 else if 0x80 <= b <= 0xBF then 4 else 0
  }

  /** Immediate bytes: only a 64-bit register form gets as far, and for C7 only digit 0. */
  function ImmLength(op: U8, b: U8, wide: bool): nat {
    if !wide || b < 0xC0 then 0
    else if op == 0x83 then 1
    else if op == 0x81 || (op == 0xC7 && b <= 0xC7) then 4
    else 0
  }

  /** How many bytes, from the opcode on, the decoder asks for. */
  function OpLength(t: seq<U8>, wide: bool): nat {
    if t == [] then 1
    else if HasModrm(t[0]) then
      if |t| < 2 then 2 else 2 + DispLength(t[1]) + ImmLength(t[0], t[1], wide)
    else if 0xB8 <= t[0] <= 0xBF then (if wide then 9 else 5)
    else if t[0] == 0xE8 || t[0] == 0xE9 then 5
    else if t[0] == 0xEB || 0x70 <= t[0] <= 0x7F then 2
    else if t[0] == 0x0F then (if |t| >= 2 && 0x80 <= t[1] <= 0x8F then 6 else 2)
    else 1
  }

  /** The same from the start of the instruction; 48 to 4F are the prefixes with REX.W. */
  function Length(s: seq<U8>): nat {
    if s == [] then 1
    else if s[0] == 0xF3 then (if |s| >= 4 && s[..4] == [0xF3, 0x0F, 0x1E, 0xFA] then 4 else 1)
    else if 0x40 <= s[0] <= 0x4F then 1 + OpLength(s[1..], s[0] >= 0x48)
    else OpLength(s, false)
  }

  /** An outcome that fits the length asked for. */
  predicate Judged(r: Result<Parsed>, have: nat, need: nat) {
    match r
    case Ok(p) => p.size == need <= have
    case Err(e) => e == if have < need then Format else Unsupported
  }

  lemma ModrmLength(t: seq<U8>, x: Rex)
    requires |t| >= 2
    ensures DecodeModrm(t, x) == Err(Format) <==> |t| < 2 + DispLength(t[1])
    ensures DecodeModrm(t, x).Ok? || DecodeModrm(t, x) == Err(Format) || DecodeModrm(t, x) == Err(Unsupported)
    ensures var m := DecodeModrm(t, x);
            m.Ok? ==> m.value.size == 1 + DispLength(t[1]) && (m.value.isMem <==> t[1] < 0xC0)
  {
  }

  lemma DigitOf(b: U8, x: Rex)
    requires b >= 0xC0 && RexFits(x)
    ensures (b / 8 % 8 + 8 * x.r) % 8 == 0 <==> b <= 0xC7
  {
  }

  lemma ModrmJudged(t: seq<U8>, x: Rex)
    requires |t| >= 1 && HasModrm(t[0]) && RexFits(x)
    ensures Judged(ParseOp(t, x), |t|, OpLength(t, x.w == 1))
  {
    if |t| >= 2 {
      ModrmLength(t, x);
      if t[1] >= 0xC0 {
        DigitOf(t[1], x);
      }
    }
  }

  lemma OpJudged(t: seq<U8>, x: Rex)
    requires RexFits(x)
    ensures Judged(ParseOp(t, x), |t|, OpLength(t, x.w == 1))
  {
    if |t| >= 1 && HasModrm(t[0]) {
      ModrmJudged(t, x);
    }
  }

  lemma EndbrStarts(s: seq<U8>)
    ensures StartsEndbr(s) <==> |s| >= 4 && s[..4] == [0xF3, 0x0F, 0x1E, 0xFA]
  {
    if |s| >= 4 {
      assert s[..4] == [s[0], s[1], s[2], s[3]];
    }
  }

  lemma WideExactly(b: U8)
    requires IsRexByte(b)
    ensures RexFits(RexOf(b)) && (RexOf(b).w == 1 <==> b >= 0x48)
  {
  }

  lemma EncodingParses(i: Instr, f: Form, s: seq<U8>)
    requires CanEncode(i, f) && Bytes(i, f) <= s
    ensures Parse(s).Ok?
  {
    ParseOfBytes(i, f, s[|Bytes(i, f)|..]);
    assert s == Bytes(i, f) + s[|Bytes(i, f)|..];
  }

  /** For any bytes: they parse exactly if an encoding of a supported instruction stands at their
      start, and then as long as it is; otherwise they are truncated if fewer than asked for, and
      unsupported if not. */
  lemma ParsesExactly(s: seq<U8>)
    ensures Parse(s).Ok? <==> exists i, f :: CanEncode(i, f) && Bytes(i, f) <= s
    ensures Judged(Parse(s), |s|, Length(s))
  {
    EndbrStarts(s);
    if s != [] && !StartsEndbr(s) {
      if IsRexByte(s[0]) {
        WideExactly(s[0]);
        OpJudged(s[1..], RexOf(s[0]));
      } else {
        OpJudged(s, NO_REX);
      }
    }
    if Parse(s).Ok? {
      BytesOfParse(s);
      var p := Parse(s).value;
      assert CanEncode(p.insn, p.form) && Bytes(p.insn, p.form) <= s;
    }
    forall i, f | CanEncode(i, f) && Bytes(i, f) <= s ensures Parse(s).Ok? {
      EncodingParses(i, f, s);
    }
  }
}
