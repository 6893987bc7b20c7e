/** The dispatcher: translate, link and cache the block at each guest pc, run it, follow the
    successor it reports. */
module Dispatch {
  import opened Words
  import opened Errors
  import opened GuestIr
  import opened A64
  import opened Encode
  import opened Translate
  import opened Link
  import CodeCache

  const MAX_BLOCK_OPS := 64
  const DEFAULT_STEPS: nat := 10_000_000

  /** Fetching is a pure function of the pc. */
  type Fetch = U64 -> Result<Fetched>

  /** What a block finds in the rest of the host: x16, x18..x30 and the flags. */
  datatype Ambient = Ambient(x: seq<U64>, nzcv: Nzcv)

  type Ambience = a: Ambient | |a.x| == 31 witness Ambient(seq(31, k => 0), Nzcv(false, false, false, false))

  /** The guest between two blocks. */
  datatype RawPoint = Point(regs: seq<U64>, mem: Memory, pc: U64)

  type Point = p: RawPoint | |p.regs| == REG_COUNT witness Point(seq(REG_COUNT, k => 0), map[], 0)

  /** The host on entry to a block: x0..x15 loaded, x17 the halt sentinel. */
  function Entry(regs: seq<U64>, mem: Memory, a: Ambience): (h: Host)
    requires |regs| == REG_COUNT
    ensures h.Valid()
  {
    Host(regs + [a.x[16], HALT_PC] + a.x[18..], mem, a.nzcv)
  }

  /** The trampoline: load the registers, run the block, store them back, return x17. A stuck run
      has no meaning on a machine; accepted blocks never are (BlockCorrect). */
  function Tramp(image: seq<U8>, regs: seq<U64>, mem: Memory, a: Ambience): Point
    requires |regs| == REG_COUNT && |image| % 4 == 0
  {
    var o := Run(Disassemble(image), 0, Entry(regs, mem, a));
    if o.Returned? && o.host.Valid() then Point(o.host.x[..REG_COUNT], o.host.mem, o.host.x[17])
    else Point(regs, mem, HALT_PC)
  }

  /** The image of the block at `pc`, or why there is none. */
  ghost function Prepared(fetch: Fetch, policy: Policy, strength: Strength, pc: U64): Result<seq<U8>> {
    var f := fetch(pc);
    if f.Err? then Err(f.error)
    else if |f.value.ops| == 0 || |f.value.ops| > 64 then Err(Format)
    else
      var u := Translated(f.value.ops, pc, f.value.len, EmitWith(policy, strength));
      if u.Err? then Err(u.error) else Linked(u.value)
  }

  lemma LinkedIsWords(u: Unit)
    requires |u.code| < TWO_32 && Linked(u).Ok?
    ensures |Linked(u).value| % 4 == 0
  {
  }

  lemma PreparedIsWords(fetch: Fetch, policy: Policy, strength: Strength, pc: U64)
    requires Prepared(fetch, policy, strength, pc).Ok?
    ensures |Prepared(fetch, policy, strength, pc).value| % 4 == 0
  {
    var f := fetch(pc).value;
    LinkedIsWords(Translated(f.ops, pc, f.len, EmitWith(policy, strength)).value);
  }

  /** Running the block at a point: number `n` of the run, freshly translated. */
  ghost function BlockAt(fetch: Fetch, policy: Policy, strength: Strength, host: nat -> Ambience,
                         n: nat, p: Point): Result<Point>
  {
    var image := Prepared(fetch, policy, strength, p.pc);
    if image.Err? then Err(image.error)
    else
      PreparedIsWords(fetch, policy, strength, p.pc);
      Ok(Tramp(image.value, p.regs, p.mem, host(n)))
  }

  type BlockStep = (nat, Point) -> Result<Point>

  ghost function BlockSteps(fetch: Fetch, policy: Policy, strength: Strength, host: nat -> Ambience): BlockStep {
    (n: nat, p: Point) => BlockAt(fetch, policy, strength, host, n, p)
  }

  datatype Final = Final(rc: Result<()>, steps: nat, regs: seq<U64>, mem: Memory)

  /** The run that retranslates every block and caches nothing. */
  ghost function Uncached(step: BlockStep, p: Point, steps: nat, limit: nat): Final
    decreases limit - steps
  {
    if p.pc == 0xFFFF_FFFF_FFFF_FFFF then Final(Ok(()), steps, p.regs, p.mem)
    else if steps >= limit then Final(Err(Steps), steps, p.regs, p.mem)
    else
      var next := step(steps, p);
      if next.Err? then Final(Err(next.error), steps, p.regs, p.mem)
      else Uncached(step, next.value, steps + 1, limit)
  }

  function PcHash(pc: U64): U64 {
    var m := pc * 0x9E37_79B9_7F4A_7C15 % TWO_64;
    Logic64(Xor, m, m / 0x2000_0000)
  }

  class GuestState {
    var regs: seq<U64>
    var mem: Memory
  }

  /** Translate and link the block at `pc`. */
  method Prepare(fetch: Fetch, policy: Policy, strength: Strength, pc: U64) returns (r: Result<seq<U8>>)
    ensures r == Prepared(fetch, policy, strength, pc)
  {
    var f := fetch(pc);
    if f.Err? {
      return Err(f.error);
    }
    if |f.value.ops| == 0 || |f.value.ops| > MAX_BLOCK_OPS {
      return Err(Format);
    }
    var u := TranslateEx(f.value.ops, pc, f.value.len, policy, strength);
    if u.Err? {
      return Err(u.error);
    }
    r := MapLinked(u.value);
  }

  /** Every cached image is the one translation would give. */
  ghost predicate Faithful(m: map<U64, seq<U8>>, fetch: Fetch, policy: Policy, strength: Strength) {
    forall pc :: pc in m ==> Prepared(fetch, policy, strength, pc) == Ok(m[pc])
  }

  /** The image at `pc`, from the cache or translated and cached; the cache is flushed when full. */
  method Obtain(cache: CodeCache.BlockCache, fetch: Fetch, policy: Policy, strength: Strength, pc: U64)
    returns (r: Result<seq<U8>>)
    requires cache.Valid() && Faithful(cache.Map(), fetch, policy, strength)
    modifies cache`live, cache.table
    ensures cache.Valid() && Faithful(cache.Map(), fetch, policy, strength)
    ensures r == Prepared(fetch, policy, strength, pc)
    ensures cache.Map() == if pc in old(cache.Map()) || r.Err? then old(cache.Map())
                           else (if old(cache.live) < 12288 then old(cache.Map()) else map[])[pc := r.value]
  {
    var found, code := cache.Find(pc);
    if found {
      return Ok(code);
    }
    r := Prepare(fetch, policy, strength, pc);
    if r.Err? {
      return;
    }
    if cache.live >= CodeCache.CAP {
      cache.Flush();
    }
    var ok := cache.Insert(pc, r.value);
    if !ok {
      r := Err(NoMem);
    }
  }

  /** The caching dispatcher computes what the uncached run computes: result code, step count,
      registers and memory. */
  method RunProgram(fetch: Fetch, policy: Policy, strength: Strength, host: nat -> Ambience,
                    entryPc: U64, g: GuestState, maxSteps: nat) returns (rc: Result<()>, steps: nat)
    requires |g.regs| == REG_COUNT
    modifies g
    ensures |g.regs| == REG_COUNT
    ensures Final(rc, steps, g.regs, g.mem)
         == Uncached(BlockSteps(fetch, policy, strength, host), Point(old(g.regs), old(g.mem), entryPc), 0,
                     if maxSteps == 0 then 10_000_000 else maxSteps)
  {
    var limit := if maxSteps == 0 then DEFAULT_STEPS else maxSteps;
    var cache := new CodeCache.BlockCache(PcHash);
    var pc := entryPc;
    rc, steps := Ok(()), 0;
    ghost var step := BlockSteps(fetch, policy, strength, host);
    ghost var goal := Uncached(step, Point(g.regs, g.mem, pc), 0, limit);
    while pc != HALT_PC
      invariant |g.regs| == REG_COUNT && rc == Ok(())
      invariant cache.Valid() && fresh(cache) && fresh(cache.table)
      invariant Faithful(cache.Map(), fetch, policy, strength)
      invariant steps <= limit && Uncached(step, Point(g.regs, g.mem, pc), steps, limit) == goal
      decreases limit - steps
    {
      if steps >= limit {
        rc := Err(Steps);
        break;
      }
      var image := Obtain(cache, fetch, policy, strength, pc);
      ghost var p := Point(g.regs, g.mem, pc);
      assert step(steps, p) == BlockAt(fetch, policy, strength, host, steps, p);
      if image.Err? {
        rc := Err(image.error);
        break;
      }
      PreparedIsWords(fetch, policy, strength, pc);
      var l := Tramp(image.value, g.regs, g.mem, host(steps));
      g.regs, g.mem, pc := l.regs, l.mem, l.pc;
      steps := steps + 1;
    }
  }

  // ---- when the step limit strikes ----

  datatype Progress = Running(point: Point) | Over

  /** Where the program is after `n` blocks, with no limit at all. */
  ghost function After(step: BlockStep, start: Point, n: nat): Progress {
    if n == 0 then Running(start)
    else
      var p := After(step, start, n - 1);
      if p.Over? || p.point.pc == HALT_PC || step(n - 1, p.point).Err? then Over
      else Running(step(n - 1, p.point).value)
  }

  lemma {:induction false} UncachedFrom(step: BlockStep, start: Point, n: nat, limit: nat)
    requires n <= limit && After(step, start, n).Running?
    ensures Uncached(step, start, 0, limit) == Uncached(step, After(step, start, n).point, n, limit)
  {
    if n > 0 {
      UncachedFrom(step, start, n - 1, limit);
    }
  }

  /** From any point still running, the limit is reported or the program ends before it. */
  lemma {:induction false} LimitOrEnd(step: BlockStep, start: Point, n: nat, limit: nat)
    requires n <= limit && After(step, start, n).Running?
    ensures var r, p := Uncached(step, start, 0, limit), After(step, start, limit);
            && n <= r.steps <= limit
            && (r.rc == Err(Steps) && r.steps == limit ==> p.Running? && p.point.pc != HALT_PC)
    decreases limit - n
  {
    UncachedFrom(step, start, n, limit);
    var p := After(step, start, n).point;
    if n < limit && p.pc != HALT_PC && step(n, p).Ok? {
      LimitOrEnd(step, start, n + 1, limit);
    }
  }

  /** The step error is reported at the limit exactly when `limit` blocks run without reaching the
      halt sentinel. */
  lemma StepErrorExactly(step: BlockStep, start: Point, limit: nat)
    ensures var r, p := Uncached(step, start, 0, limit), After(step, start, limit);
            (r.rc == Err(Steps) && r.steps == limit) <==> (p.Running? && p.point.pc != HALT_PC)
  {
    LimitOrEnd(step, start, 0, limit);
    if After(step, start, limit).Running? {
      UncachedFrom(step, start, limit, limit);
    }
  }
}
