/**
 The SHA request stream: how update, finup and final calls of any size are cut into
 block-aligned tasks for the remote hash engine, and what digest comes back.
 Functions on values; `ShaRequest` is the class that updates the request context in place.
 */
module ShaStream {
  import opened Common

  /** Size of the linear buffer a request context owns, and of one slow-path slice. */
  const SZ_4M: nat := 0x40_0000
  /** Largest request the character device accepts. */
  const SHA_MAX_LEN: nat := 0x100_0000 - 1

  type HashState = seq<byte>

  /** The remote engine, of which only the framing is known here. */
  datatype Engine = Engine(
    iv: HashState,
    compress: (HashState, seq<byte>) -> HashState,
    finalise: (HashState, seq<byte>, nat) -> HashState,
    zeroVector: HashState)

  datatype Config = Config(blk: nat, shake: bool, engine: Engine) {
    ghost predicate Ok() { 0 < 2 * blk < SZ_4M }
    function Pad(): seq<byte> { if shake then [0xff] else [] }
  }

  /** A 64-bit length as the two 32-bit words a task carries. */
  datatype Words = Words(lo: nat, hi: nat) {
    function Value(): nat { lo + hi * TWO32 }
  }

  function Split(n: nat): Words { Words(n % TWO32, n / TWO32 % TWO32) }

  lemma SplitValue(n: nat)
    requires n < TWO64
    ensures Split(n).Value() == n
  {
    assert n / TWO32 < TWO32;
  }

  datatype Task = Task(data: seq<byte>, left: Words, total: Words, chain: HashState) {
    /** The engine sees a first task by equal lengths, and a last one by nothing left over. */
    predicate First() { left == total }
    predicate Last() { left.Value() <= |data| }
  }

  datatype Request = Request(data: seq<byte>, entries: nat)

  datatype State = State(
    sent: seq<Task>,
    held: seq<byte>,
    count: nat,
    align: bool,
    first: bool,
    hash: HashState)

  datatype Source = HashBuffer | ZeroVector

  function Init(garbage: HashState): State { State([], [], 0, false, true, garbage) }

  // ---------------------------------------------------------------- the engine

  function Fold(c: Config, h: HashState, data: seq<byte>): HashState
    requires c.Ok()
    decreases |data|
  {
    if |data| < c.blk then h
    else Fold(c, c.engine.compress(h, data[..c.blk]), data[c.blk..])
  }

  function Run(c: Config, t: Task): HashState
    requires c.Ok()
  {
    var h := if t.First() then c.engine.iv else t.chain;
    if t.Last() then c.engine.finalise(h, t.data, t.total.Value()) else Fold(c, h, t.data)
  }

  // ---------------------------------------------------------------- the driver

  function Emit(c: Config, s: State, data: seq<byte>, last: bool): State
    requires c.Ok()
  {
    var left := if last then Split(|data|) else Split(|data| + 8);
    var total := if last then Split(s.count) else if s.first then left else Split(|data| + 16);
    var t := Task(data, left, total, s.hash);
    s.(sent := s.sent + [t], first := s.first && last, hash := Run(c, t))
  }

  function SendOne(c: Config, s: State, data: seq<byte>, last: bool): State
    requires c.Ok()
  {
    if last && c.shake then Emit(c, s.(count := s.count + 1), data + [0xff], true)
    else Emit(c, s, data, last)
  }

  function SendAll(c: Config, s: State, chunks: seq<seq<byte>>): State
    requires c.Ok()
  {
    if chunks == [] then s
    else SendOne(c, SendAll(c, s, chunks[..|chunks| - 1]), chunks[|chunks| - 1], false)
  }

  /** How one call cuts what it has: the tasks sent now, and what is held back. */
  datatype Plan = Plan(chunks: seq<seq<byte>>, rest: seq<byte>)

  /** What the fast path sends at once: whole blocks, but never the last one. */
  function FastCut(c: Config, n: nat): (cut: nat)
    requires c.Ok()
    ensures cut <= n
  {
    if n >= c.blk && Multiple(n, c.blk) then n - c.blk else Whole(n, c.blk)
  }

  /** The held bytes go out on their own, but only when they are a whole block. */
  function FastPlan(c: Config, held: seq<byte>, data: seq<byte>): Plan
    requires c.Ok()
  {
    var cut := FastCut(c, |data|);
    Plan((if |held| == c.blk then [held] else []) + (if cut > 0 then [data[..cut]] else []), data[cut..])
  }

  /** Bytes the slow path may send now: if they are whole blocks, one is kept for the last task. */
  function Spendable(c: Config, total: nat): (n: int)
    requires c.Ok()
    ensures n <= total
  {
    if Multiple(total, c.blk) then total - c.blk else total
  }

  function SlicePlan(c: Config, bytes: seq<byte>, spend: int): Plan
    requires c.Ok() && spend <= |bytes|
    decreases spend
  {
    if spend < c.blk then Plan([], bytes)
    else
      var size := Min(SZ_4M, Whole(spend, c.blk));
      var p := SlicePlan(c, bytes[size..], spend - size);
      Plan([bytes[..size]] + p.chunks, p.rest)
  }

  function SlowPlan(c: Config, held: seq<byte>, data: seq<byte>): Plan
    requires c.Ok()
  {
    SlicePlan(c, held + data, Spendable(c, |held + data|))
  }

  predicate TakesFast(c: Config, align: bool, n: nat, entries: nat)
    requires c.Ok()
  {
    entries <= 1 && !align && n >= c.blk
  }

  function PlanOf(c: Config, s: State, r: Request): Plan
    requires c.Ok()
  {
    if TakesFast(c, s.align, |r.data|, r.entries) then FastPlan(c, s.held, r.data)
    else SlowPlan(c, s.held, r.data)
  }

  function AlignAfter(c: Config, align: bool, n: nat, entries: nat, held: nat): bool
    requires c.Ok()
  {
    if TakesFast(c, align, n, entries) then 0 < held < c.blk
    else (align || entries > 1) && held != c.blk
  }

  function Process(c: Config, s: State, r: Request): State
    requires c.Ok() && |s.held| <= c.blk
  {
    var p := PlanOf(c, s, r);
    SendAll(c, s, p.chunks).(
      held := p.rest,
      count := s.count + |r.data|,
      align := AlignAfter(c, s.align, |r.data|, r.entries, |p.rest|))
  }

  function Update(c: Config, s: State, r: Request): State
    requires c.Ok() && |s.held| <= c.blk
  {
    if r.data != [] then Process(c, s, r)
    else if s.count == 0 && c.shake then SendOne(c, s, [], false)
    else s
  }

  function Seal(c: Config, s: State): State
    requires c.Ok()
  {
    if s.held != [] then SendOne(c, s, s.held, true).(held := []) else s
  }

  /** finup and digest process their data first; final ignores whatever the request still holds. */
  function Finish(c: Config, s: State, r: Request, process: bool): (State, Source)
    requires c.Ok() && |s.held| <= c.blk
  {
    if r.data != [] then
      var s0 := if process then Process(c, s, r) else s.(align := s.align || r.entries > 1);
      (Seal(c, s0), HashBuffer)
    else if s.count > 0 then (Seal(c, s), HashBuffer)
    else if c.shake then (SendOne(c, s, [], true), HashBuffer)
    else (s, ZeroVector)
  }
}
