/**
 What a whole hash session promises: the digest is that of the message, however the message was
 cut into requests, and exactly which sessions keep that promise.
 */
module ShaTheorems {
  import opened Common
  import opened ShaStream

  // ---------------------------------------------------------------- what a session should send

  function Payload(sent: seq<Task>): seq<byte> {
    if sent == [] then [] else Payload(sent[..|sent| - 1]) + sent[|sent| - 1].data
  }

  predicate Aligned(c: Config, t: Task)
    requires c.Ok()
  {
    |t.data| > 0 && Multiple(|t.data|, c.blk)
  }

  /** How many of the first n message bytes wait for the last task: 1 to blk of them, 0 only for n = 0. */
  function Waiting(c: Config, n: nat): (w: nat)
    requires c.Ok()
    ensures w <= c.blk && w <= n && (w == 0 <==> n == 0)
  {
    if n == 0 then 0 else n - Whole(n - 1, c.blk)
  }

  /** The digest of a message: fold whole blocks, finalise with what is left (FIPS 180-4, section 5.2). */
  function Reference(c: Config, m: seq<byte>): HashState
    requires c.Ok()
  {
    if m == [] && !c.shake then c.engine.zeroVector
    else
      var cut := |m| - Waiting(c, |m|);
      c.engine.finalise(Fold(c, c.engine.iv, m[..cut]), m[cut..] + c.Pad(), |m + c.Pad()|)
  }

  /** Exactly one last task, all others whole blocks, and together they are the message. */
  ghost predicate Faithful(c: Config, m: seq<byte>, sent: seq<Task>, source: Source)
    requires c.Ok()
  {
    if m == [] && !c.shake then sent == [] && source == ZeroVector
    else
      && source == HashBuffer
      && |sent| > 0
      && Payload(sent) == m + c.Pad()
      && (forall i | 0 <= i < |sent| :: sent[i].Last() <==> i == |sent| - 1)
      && (forall i | 0 <= i < |sent| - 1 :: Aligned(c, sent[i]))
  }

  // ---------------------------------------------------------------- sessions

  datatype Session = Session(updates: seq<Request>, ending: Request, process: bool) {
    ghost predicate Ok() {
      && (forall i | 0 <= i < |updates| :: |updates[i].data| <= SHA_MAX_LEN)
      && |ending.data| <= SHA_MAX_LEN
    }
    function Message(): seq<byte> {
      Input(updates) + if process then ending.data else []
    }
  }

  function Input(updates: seq<Request>): seq<byte> {
    if updates == [] then [] else Input(updates[..|updates| - 1]) + updates[|updates| - 1].data
  }

  /** A context holding more than one block no longer has a defined next step; it stays where it is. */
  function AfterUpdates(c: Config, garbage: HashState, updates: seq<Request>): State
    requires c.Ok()
  {
    if updates == [] then Init(garbage)
    else
      var s := AfterUpdates(c, garbage, updates[..|updates| - 1]);
      if |s.held| > c.blk then s else Update(c, s, updates[|updates| - 1])
  }

  function AfterSession(c: Config, garbage: HashState, x: Session): (State, Source)
    requires c.Ok()
  {
    var s := AfterUpdates(c, garbage, x.updates);
    if |s.held| > c.blk then (s, HashBuffer) else Finish(c, s, x.ending, x.process)
  }

  function Digest(c: Config, garbage: HashState, x: Session): HashState
    requires c.Ok()
  {
    var (s, source) := AfterSession(c, garbage, x);
    if source == ZeroVector then c.engine.zeroVector else s.hash
  }

  // ---------------------------------------------------------------- the condition a caller can check

  /** All a caller has to remember: how much it sent, and whether requests are being realigned. */
  datatype Ledger = Ledger(count: nat, align: bool)

  /** A 4 MiB slice is whole blocks, or no slice of that size is cut. */
  predicate SliceAligned(c: Config, total: int)
    requires c.Ok()
  {
    total < c.blk || Multiple(SZ_4M, c.blk) || Whole(total, c.blk) <= SZ_4M
  }

  predicate KeepsStream(c: Config, l: Ledger, n: nat, entries: nat)
    requires c.Ok()
  {
    var w := Waiting(c, l.count);
    if n == 0 then !(c.shake && l.count == 0)
    else if TakesFast(c, l.align, n, entries) then w == 0 || w == c.blk
    else SliceAligned(c, Spendable(c, w + n))
  }

  function Advance(c: Config, l: Ledger, n: nat, entries: nat): Ledger
    requires c.Ok()
  {
    if n == 0 then l
    else
      Ledger(l.count + n, AlignAfter(c, l.align, n, entries, Waiting(c, l.count + n)))
  }

  function LedgerAfter(c: Config, updates: seq<Request>): Ledger
    requires c.Ok()
  {
    if updates == [] then Ledger(0, false)
    else
      var r := updates[|updates| - 1];
      Advance(c, LedgerAfter(c, updates[..|updates| - 1]), |r.data|, r.entries)
  }

  predicate Lossless(c: Config, updates: seq<Request>)
    requires c.Ok()
  {
    updates != [] ==>
      var r := updates[|updates| - 1];
      && Lossless(c, updates[..|updates| - 1])
      && KeepsStream(c, LedgerAfter(c, updates[..|updates| - 1]), |r.data|, r.entries)
  }

  /** Depends only on lengths and entry counts; the content of the requests plays no part. */
  predicate LosslessSession(c: Config, x: Session)
    requires c.Ok()
  {
    var l := LedgerAfter(c, x.updates);
    && Lossless(c, x.updates)
    && (|x.ending.data| == 0 ||
        if x.process then KeepsStream(c, l, |x.ending.data|, x.ending.entries) else l.count > 0)
  }

  // ---------------------------------------------------------------- folding

  lemma {:induction false} FoldAppend(c: Config, h: HashState, a: seq<byte>, b: seq<byte>)
    requires c.Ok() && Multiple(|a|, c.blk)
    ensures Fold(c, h, a + b) == Fold(c, Fold(c, h, a), b)
    decreases |a|
  {
    if |a| < c.blk {
      assert a == [] && a + b == b;
    } else {
      assert (a + b)[..c.blk] == a[..c.blk];
      assert (a + b)[c.blk..] == a[c.blk..] + b;
      FoldAppend(c, c.engine.compress(h, a[..c.blk]), a[c.blk..], b);
    }
  }

  lemma PayloadSnoc(sent: seq<Task>, t: Task)
    ensures Payload(sent + [t]) == Payload(sent) + t.data
  {
    assert (sent + [t])[..|sent|] == sent;
  }

  lemma {:induction false} PayloadAligned(c: Config, sent: seq<Task>)
    requires c.Ok() && forall i | 0 <= i < |sent| :: Aligned(c, sent[i])
    ensures Multiple(|Payload(sent)|, c.blk)
  {
    if sent != [] {
      PayloadAligned(c, sent[..|sent| - 1]);
      WholeAdd(|Payload(sent[..|sent| - 1])|, |sent[|sent| - 1].data|, c.blk);
    }
  }

  /** The same number of bytes waits whichever way the total splits into whole blocks and a rest. */
  lemma WaitingUnique(c: Config, p: nat, w: nat)
    requires c.Ok() && 1 <= w <= c.blk && Multiple(p, c.blk)
    ensures Waiting(c, p + w) == w
  {
    WholeAdd(p, w - 1, c.blk);
  }

  // ---------------------------------------------------------------- the streaming invariant

  ghost predicate PlainTask(t: Task, i: nat) {
    && |t.data| <= SHA_MAX_LEN
    && t.left == Split(|t.data| + 8)
    && t.total == if i == 0 then t.left else Split(|t.data| + 16)
  }

  ghost predicate AllPlain(c: Config, sent: seq<Task>)
    requires c.Ok()
  {
    forall i | 0 <= i < |sent| :: Aligned(c, sent[i]) && PlainTask(sent[i], i)
  }

  ghost predicate Tidy(c: Config, sent: seq<Task>, first: bool, hash: HashState)
    requires c.Ok()
  {
    && AllPlain(c, sent)
    && first == (sent == [])
    && (sent != [] ==> hash == Fold(c, c.engine.iv, Payload(sent)))
  }

  /** Sent bytes followed by held bytes are the input so far; at most a block, and never nothing, is held. */
  ghost predicate Streaming(c: Config, s: State, m: seq<byte>)
    requires c.Ok()
  {
    && Tidy(c, s.sent, s.first, s.hash)
    && Payload(s.sent) + s.held == m
    && s.count == |m|
    && |s.held| == Waiting(c, |m|)
  }

  lemma PlainTaskCode(t: Task, i: nat)
    requires PlainTask(t, i)
    ensures t.First() <==> i == 0
    ensures !t.Last()
  {
    SplitValue(|t.data| + 8);
    assert Split(|t.data| + 8).lo == |t.data| + 8;
    assert Split(|t.data| + 16).lo == |t.data| + 16;
  }

  lemma EmitTidy(c: Config, s: State, data: seq<byte>)
    requires c.Ok() && Tidy(c, s.sent, s.first, s.hash)
    requires 0 < |data| <= SHA_MAX_LEN && Multiple(|data|, c.blk)
    ensures var s' := Emit(c, s, data, false);
            Tidy(c, s'.sent, s'.first, s'.hash) && Payload(s'.sent) == Payload(s.sent) + data
  {
    var s' := Emit(c, s, data, false);
    var t := s'.sent[|s.sent|];
    assert PlainTask(t, |s.sent|);
    PlainTaskCode(t, |s.sent|);
    PayloadSnoc(s.sent, t);
    PayloadAligned(c, s.sent);
    if s.sent == [] {
      assert Payload(s.sent) + data == data;
    } else {
      FoldAppend(c, c.engine.iv, Payload(s.sent), data);
    }
  }

  // ---------------------------------------------------------------- plans

  ghost predicate AlignedChunks(c: Config, chunks: seq<seq<byte>>)
    requires c.Ok()
  {
    forall i | 0 <= i < |chunks| :: 0 < |chunks[i]| <= SHA_MAX_LEN && Multiple(|chunks[i]|, c.blk)
  }

  lemma SendTidy(c: Config, s: State, data: seq<byte>) returns (s': State)
    requires c.Ok() && Tidy(c, s.sent, s.first, s.hash)
    requires 0 < |data| <= SHA_MAX_LEN && Multiple(|data|, c.blk)
    ensures s' == SendOne(c, s, data, false)
    ensures Tidy(c, s'.sent, s'.first, s'.hash) && Payload(s'.sent) == Payload(s.sent) + data
  {
    EmitTidy(c, s, data);
    s' := SendOne(c, s, data, false);
  }

  lemma {:induction false} SendAllTidy(c: Config, s: State, chunks: seq<seq<byte>>) returns (s': State)
    requires c.Ok() && Tidy(c, s.sent, s.first, s.hash) && AlignedChunks(c, chunks)
    ensures s' == SendAll(c, s, chunks)
    ensures Tidy(c, s'.sent, s'.first, s'.hash) && Payload(s'.sent) == Payload(s.sent) + Concat(chunks)
  {
    if chunks == [] {
      s' := s;
    } else {
      var last := |chunks| - 1;
      var s1 := SendAllTidy(c, s, chunks[..last]);
      s' := SendTidy(c, s1, chunks[last]);
      Assoc(Payload(s.sent), Concat(chunks[..last]), chunks[last]);
    }
  }

  lemma AlignedCons(c: Config, p: seq<byte>, chunks: seq<seq<byte>>)
    requires c.Ok() && 0 < |p| <= SHA_MAX_LEN && Multiple(|p|, c.blk) && AlignedChunks(c, chunks)
    ensures AlignedChunks(c, [p] + chunks)
  {
  }

  ghost predicate PlanKeeps(c: Config, p: Plan, bytes: seq<byte>)
    requires c.Ok()
  {
    AlignedChunks(c, p.chunks) && Concat(p.chunks) + p.rest == bytes && 1 <= |p.rest| <= c.blk
  }

  lemma PlanCons(c: Config, chunk: seq<byte>, p: Plan, rest: seq<byte>)
    requires c.Ok() && PlanKeeps(c, p, rest)
    requires 0 < |chunk| <= SHA_MAX_LEN && Multiple(|chunk|, c.blk)
    ensures PlanKeeps(c, Plan([chunk] + p.chunks, p.rest), chunk + rest)
  {
    AlignedCons(c, chunk, p.chunks);
    ConcatCons(chunk, p.chunks);
    Assoc(chunk, Concat(p.chunks), p.rest);
  }

  lemma FastCutFacts(c: Config, n: nat)
    requires c.Ok() && n >= c.blk
    ensures Multiple(FastCut(c, n), c.blk) && Multiple(c.blk, c.blk) && 1 <= n - FastCut(c, n) <= c.blk
  {
    WholeMultiple(n, c.blk);
  }

  lemma FastPlanKeeps(c: Config, held: seq<byte>, data: seq<byte>)
    requires c.Ok() && (|held| == 0 || |held| == c.blk) && c.blk <= |data| <= SHA_MAX_LEN
    ensures PlanKeeps(c, FastPlan(c, held, data), held + data)
  {
    FastCutFacts(c, |data|);
    var cut := FastCut(c, |data|);
    var p := Plan([], data[cut..]);
    if cut > 0 {
      PlanCons(c, data[..cut], p, data[cut..]);
      p := Plan([data[..cut]], data[cut..]);
      SplitAt(data, cut);
    }
    assert PlanKeeps(c, p, data);
    if held != [] {
      PlanCons(c, held, p, data);
      p := Plan([held] + p.chunks, p.rest);
    }
    assert FastPlan(c, held, data) == p;
  }

  lemma SliceFacts(c: Config, n: nat, spend: int) returns (size: nat)
    requires c.Ok() && n > 0 && spend == Spendable(c, n) && SliceAligned(c, spend) && spend >= c.blk
    ensures size == Min(SZ_4M, Whole(spend, c.blk)) && 0 < size <= SZ_4M && Multiple(size, c.blk)
    ensures size < n && spend - size == Spendable(c, n - size) && SliceAligned(c, spend - size)
  {
    size := Min(SZ_4M, Whole(spend, c.blk));
    WholeMultiple(spend, c.blk);
    WholeAdd(size, n - size, c.blk);
  }

  lemma SliceUnfold(c: Config, bytes: seq<byte>, spend: int, size: nat) returns (p: Plan)
    requires c.Ok() && c.blk <= spend <= |bytes| && size == Min(SZ_4M, Whole(spend, c.blk))
    ensures p == SlicePlan(c, bytes[size..], spend - size)
    ensures SlicePlan(c, bytes, spend) == Plan([bytes[..size]] + p.chunks, p.rest)
  {
    p := SlicePlan(c, bytes[size..], spend - size);
  }

  lemma {:induction false} SlicePlanKeeps(c: Config, bytes: seq<byte>, spend: int)
    requires c.Ok() && bytes != [] && spend == Spendable(c, |bytes|) && SliceAligned(c, spend)
    ensures PlanKeeps(c, SlicePlan(c, bytes, spend), bytes)
    decreases spend
  {
    if spend >= c.blk {
      var size := SliceFacts(c, |bytes|, spend);
      var p := SliceUnfold(c, bytes, spend, size);
      SlicePlanKeeps(c, bytes[size..], spend - size);
      PlanCons(c, bytes[..size], p, bytes[size..]);
      SplitAt(bytes, size);
    }
  }

  lemma PlanOfKeeps(c: Config, s: State, r: Request)
    requires c.Ok() && 0 < |r.data| <= SHA_MAX_LEN && |s.held| == Waiting(c, s.count)
    requires KeepsStream(c, Ledger(s.count, s.align), |r.data|, r.entries)
    ensures PlanKeeps(c, PlanOf(c, s, r), s.held + r.data)
  {
    if TakesFast(c, s.align, |r.data|, r.entries) {
      FastPlanKeeps(c, s.held, r.data);
    } else {
      SlicePlanKeeps(c, s.held + r.data, Spendable(c, |s.held + r.data|));
    }
  }

  lemma ProcessStreams(c: Config, s: State, m: seq<byte>, r: Request)
    requires c.Ok() && Streaming(c, s, m) && 0 < |r.data| <= SHA_MAX_LEN
    requires KeepsStream(c, Ledger(|m|, s.align), |r.data|, r.entries)
    ensures Streaming(c, Process(c, s, r), m + r.data)
  {
    hide SendAll, Fold, Whole, AlignAfter, FastPlan, SlowPlan;
    PlanOfKeeps(c, s, r);
    var p := PlanOf(c, s, r);
    var s' := SendAllTidy(c, s, p.chunks);
    PayloadAligned(c, s'.sent);
    Assoc(Payload(s.sent), Concat(p.chunks), p.rest);
    Assoc(Payload(s.sent), s.held, r.data);
    WaitingUnique(c, |Payload(s'.sent)|, |p.rest|);
  }

  lemma LedgerForetells(c: Config, s: State, m: seq<byte>, r: Request)
    requires c.Ok() && Streaming(c, s, m) && r.data != [] && Streaming(c, Process(c, s, r), m + r.data)
    ensures Advance(c, Ledger(|m|, s.align), |r.data|, r.entries) == Ledger(|m + r.data|, Process(c, s, r).align)
  {
    hide SendAll, Fold, Whole, Waiting, AlignAfter, Tidy, Payload, FastPlan, SlowPlan;
  }

  /** One call keeps the invariant, and the ledger foretells the flag, whenever the caller's check passes. */
  lemma UpdateStreams(c: Config, s: State, m: seq<byte>, r: Request)
    requires c.Ok() && Streaming(c, s, m) && |r.data| <= SHA_MAX_LEN
    requires KeepsStream(c, Ledger(|m|, s.align), |r.data|, r.entries)
    ensures Streaming(c, Update(c, s, r), m + r.data)
    ensures Advance(c, Ledger(|m|, s.align), |r.data|, r.entries) == Ledger(|m + r.data|, Update(c, s, r).align)
  {
    if r.data == [] {
      assert m + r.data == m;
    } else {
      ProcessStreams(c, s, m, r);
      LedgerForetells(c, s, m, r);
      hide Process, Streaming, Advance;
    }
  }

  // ---------------------------------------------------------------- sealing a session

  lemma SealsFaithfully(c: Config, s: State, m: seq<byte>)
    requires c.Ok() && Streaming(c, s, m) && (m != [] || c.shake)
    ensures var s' := SendOne(c, s, s.held, true);
            Faithful(c, m, s'.sent, HashBuffer)
  {
    var s' := SendOne(c, s, s.held, true);
    var n := |s.sent|;
    PayloadSnoc(s.sent, s'.sent[n]);
    Assoc(Payload(s.sent), s.held, c.Pad());
    SplitValue(|s.held + c.Pad()|);
    forall i | 0 <= i < |s'.sent|
      ensures s'.sent[i].Last() <==> i == n
      ensures i < n ==> Aligned(c, s'.sent[i])
    {
      if i < n {
        assert s'.sent[i] == s.sent[i];
        PlainTaskCode(s.sent[i], i);
      }
    }
  }

  lemma SplitInjective(a: nat, b: nat)
    requires a < TWO64 && b < TWO64
    ensures Split(a) == Split(b) <==> a == b
  {
    SplitValue(a);
    SplitValue(b);
  }

  /** The last task carries the full length, so the engine recognises it as first only when it is alone. */
  lemma LastIsFirstWhenAlone(c: Config, s: State, m: seq<byte>)
    requires c.Ok() && Streaming(c, s, m) && |m| + 1 < TWO64
    ensures SendOne(c, s, s.held, true).sent[|s.sent|].First() <==> s.sent == []
  {
    var pad := |c.Pad()|;
    SplitInjective(|s.held| + pad, |m| + pad);
    assert |m| == |Payload(s.sent)| + |s.held|;
    if s.sent != [] {
      assert Aligned(c, s.sent[|s.sent| - 1]);
      assert |Payload(s.sent)| > 0;
    }
  }

  lemma SealsDigest(c: Config, s: State, m: seq<byte>)
    requires c.Ok() && Streaming(c, s, m) && (m != [] || c.shake) && |m| + 1 < TWO64
    ensures SendOne(c, s, s.held, true).hash == Reference(c, m)
  {
    LastIsFirstWhenAlone(c, s, m);
    var t := SendOne(c, s, s.held, true).sent[|s.sent|];
    SplitValue(|t.data|);
    SplitValue(|m| + |c.Pad()|);
    var cut := |m| - Waiting(c, |m|);
    assert m[..cut] == Payload(s.sent) && m[cut..] == s.held;
    assert t.data == m[cut..] + c.Pad();
    assert t.total.Value() == |m + c.Pad()|;
    assert s.sent == [] ==> Fold(c, c.engine.iv, m[..cut]) == c.engine.iv;
  }

  // ---------------------------------------------------------------- what every call conserves

  ghost predicate NoneLast(sent: seq<Task>) {
    forall i | 0 <= i < |sent| :: !sent[i].Last()
  }

  ghost predicate Short(chunks: seq<seq<byte>>) {
    forall i | 0 <= i < |chunks| :: |chunks[i]| <= SHA_MAX_LEN
  }

  lemma SendAppends(c: Config, s: State, data: seq<byte>) returns (s': State)
    requires c.Ok() && NoneLast(s.sent) && |data| <= SHA_MAX_LEN
    ensures s' == SendOne(c, s, data, false)
    ensures s.sent <= s'.sent && |s'.sent| == |s.sent| + 1 && s'.sent[|s.sent|].data == data
    ensures NoneLast(s'.sent) && Payload(s'.sent) == Payload(s.sent) + data
  {
    s' := SendOne(c, s, data, false);
    SplitValue(|data| + 8);
    PayloadSnoc(s.sent, s'.sent[|s.sent|]);
  }

  lemma {:induction false} SendAllAppends(c: Config, s: State, chunks: seq<seq<byte>>) returns (s': State)
    requires c.Ok() && NoneLast(s.sent) && Short(chunks)
    ensures s' == SendAll(c, s, chunks)
    ensures s.sent <= s'.sent && |s'.sent| == |s.sent| + |chunks|
    ensures chunks != [] ==> s'.sent[|s.sent|].data == chunks[0]
    ensures NoneLast(s'.sent) && Payload(s'.sent) == Payload(s.sent) + Concat(chunks)
  {
    if chunks == [] {
      s' := s;
    } else {
      var last := |chunks| - 1;
      var s1 := SendAllAppends(c, s, chunks[..last]);
      s' := SendAppends(c, s1, chunks[last]);
      Assoc(Payload(s.sent), Concat(chunks[..last]), chunks[last]);
    }
  }

  lemma {:induction false} SlicePlanConserves(c: Config, bytes: seq<byte>, spend: int)
    requires c.Ok() && spend <= |bytes|
    ensures var p := SlicePlan(c, bytes, spend);
            Short(p.chunks) && |Concat(p.chunks)| + |p.rest| == |bytes|
    decreases spend
  {
    if spend >= c.blk {
      var size := Min(SZ_4M, Whole(spend, c.blk));
      SlicePlanConserves(c, bytes[size..], spend - size);
      ConcatCons(bytes[..size], SlicePlan(c, bytes[size..], spend - size).chunks);
    }
  }

  lemma FastPlanSize(c: Config, held: seq<byte>, data: seq<byte>)
    requires c.Ok() && |held| <= c.blk && |data| <= SHA_MAX_LEN
    ensures var p := FastPlan(c, held, data);
            && Short(p.chunks)
            && |Concat(p.chunks)| + |p.rest| == (if |held| == c.blk then |held| else 0) + |data|
  {
    var cut := FastCut(c, |data|);
    var tail := if cut > 0 then [data[..cut]] else [];
    var p := FastPlan(c, held, data);
    assert Short(tail) && |Concat(tail)| == cut by { ConcatCons(data[..cut], []); }
    if |held| == c.blk {
      ConcatCons(held, tail);
      assert p.chunks == [held] + tail;
    } else {
      assert p.chunks == tail;
    }
  }

  lemma ProcessConserves(c: Config, s: State, r: Request) returns (s': State)
    requires c.Ok() && |s.held| <= c.blk && NoneLast(s.sent) && |r.data| <= SHA_MAX_LEN
    ensures s' == Process(c, s, r)
    ensures s.sent <= s'.sent && NoneLast(s'.sent)
    ensures |Payload(s'.sent)| + |s'.held| <= |Payload(s.sent)| + |s.held| + |r.data|
  {
    var p := PlanOf(c, s, r);
    if TakesFast(c, s.align, |r.data|, r.entries) {
      FastPlanSize(c, s.held, r.data);
    } else {
      SlicePlanConserves(c, s.held + r.data, Spendable(c, |s.held + r.data|));
    }
    var s1 := SendAllAppends(c, s, p.chunks);
    s' := Process(c, s, r);
  }

  // ---------------------------------------------------------------- what a lost check costs

  /** A task that is not whole blocks, or message bytes neither sent nor held; neither is ever repaired. */
  ghost predicate Broken(c: Config, s: State, n: nat)
    requires c.Ok()
  {
    || (exists i :: 0 <= i < |s.sent| && !Aligned(c, s.sent[i]))
    || |Payload(s.sent)| + |s.held| < n
  }

  lemma SlowBreaks(c: Config, s: State, r: Request)
    requires c.Ok() && |s.held| <= c.blk && NoneLast(s.sent) && 0 < |r.data| <= SHA_MAX_LEN
    requires !TakesFast(c, s.align, |r.data|, r.entries)
    requires !SliceAligned(c, Spendable(c, |s.held| + |r.data|))
    ensures exists i :: 0 <= i < |Process(c, s, r).sent| && !Aligned(c, Process(c, s, r).sent[i])
  {
    var bytes := s.held + r.data;
    var p := PlanOf(c, s, r);
    SlicePlanConserves(c, bytes, Spendable(c, |bytes|));
    assert p.chunks[0] == bytes[..SZ_4M];
    var s1 := SendAllAppends(c, s, p.chunks);
    assert !Aligned(c, Process(c, s, r).sent[|s.sent|]);
  }

  lemma ProcessBreaks(c: Config, s: State, m: seq<byte>, r: Request)
    requires c.Ok() && Streaming(c, s, m) && NoneLast(s.sent) && 0 < |r.data| <= SHA_MAX_LEN
    requires !KeepsStream(c, Ledger(|m|, s.align), |r.data|, r.entries)
    ensures Broken(c, Process(c, s, r), |m| + |r.data|)
  {
    if TakesFast(c, s.align, |r.data|, r.entries) {
      FastPlanSize(c, s.held, r.data);
      var s1 := SendAllAppends(c, s, FastPlan(c, s.held, r.data).chunks);
    } else {
      SlowBreaks(c, s, r);
    }
  }

  lemma BrokenStays(c: Config, s: State, s': State, n: nat, more: nat)
    requires c.Ok() && Broken(c, s, n) && s.sent <= s'.sent
    requires |Payload(s'.sent)| + |s'.held| <= |Payload(s.sent)| + |s.held| + more
    ensures Broken(c, s', n + more)
  {
    if i :| 0 <= i < |s.sent| && !Aligned(c, s.sent[i]) {
      assert s'.sent[i] == s.sent[i];
    }
  }

  // ---------------------------------------------------------------- whole sessions

  lemma {:induction false} UpdatesStream(c: Config, garbage: HashState, updates: seq<Request>)
    requires c.Ok() && Session(updates, Request([], 1), false).Ok() && Lossless(c, updates)
    ensures var s := AfterUpdates(c, garbage, updates);
            && Streaming(c, s, Input(updates))
            && LedgerAfter(c, updates) == Ledger(|Input(updates)|, s.align)
  {
    if updates != [] {
      var init, r := updates[..|updates| - 1], updates[|updates| - 1];
      UpdatesStream(c, garbage, init);
      UpdateStreams(c, AfterUpdates(c, garbage, init), Input(init), r);
    }
  }

  lemma TidyNoneLast(c: Config, sent: seq<Task>)
    requires c.Ok() && AllPlain(c, sent)
    ensures NoneLast(sent)
  {
    forall i | 0 <= i < |sent| ensures !sent[i].Last() {
      PlainTaskCode(sent[i], i);
    }
  }

  lemma UpdateStaysBroken(c: Config, s: State, n: nat, r: Request)
    requires c.Ok() && |s.held| <= c.blk && NoneLast(s.sent) && Broken(c, s, n) && |r.data| <= SHA_MAX_LEN
    ensures NoneLast(Update(c, s, r).sent) && Broken(c, Update(c, s, r), n + |r.data|)
  {
    if r.data != [] {
      var s' := ProcessConserves(c, s, r);
      BrokenStays(c, s, s', n, |r.data|);
    } else if s.count == 0 && c.shake {
      var s' := SendAppends(c, s, []);
      BrokenStays(c, s, s', n, 0);
    }
  }

  lemma UpdateBreaks(c: Config, s: State, m: seq<byte>, r: Request)
    requires c.Ok() && Streaming(c, s, m) && NoneLast(s.sent) && |r.data| <= SHA_MAX_LEN
    requires !KeepsStream(c, Ledger(|m|, s.align), |r.data|, r.entries)
    ensures NoneLast(Update(c, s, r).sent) && Broken(c, Update(c, s, r), |m| + |r.data|)
  {
    if r.data != [] {
      ProcessBreaks(c, s, m, r);
      var s' := ProcessConserves(c, s, r);
    } else {
      var s' := SendAppends(c, s, []);
      assert !Aligned(c, s'.sent[|s.sent|]);
    }
  }

  lemma {:induction false} UpdatesBreak(c: Config, garbage: HashState, updates: seq<Request>)
    requires c.Ok() && Session(updates, Request([], 1), false).Ok() && !Lossless(c, updates)
    ensures var s := AfterUpdates(c, garbage, updates);
            NoneLast(s.sent) && Broken(c, s, |Input(updates)|)
  {
    var init, r := updates[..|updates| - 1], updates[|updates| - 1];
    var s := AfterUpdates(c, garbage, init);
    if Lossless(c, init) {
      UpdatesStream(c, garbage, init);
      TidyNoneLast(c, s.sent);
      UpdateBreaks(c, s, Input(init), r);
    } else {
      UpdatesBreak(c, garbage, init);
      if |s.held| > c.blk {
        BrokenStays(c, s, s, |Input(init)|, |r.data|);
      } else {
        UpdateStaysBroken(c, s, |Input(init)|, r);
      }
    }
  }

  lemma SealStaysUnfaithful(c: Config, s: State, m: seq<byte>)
    requires c.Ok() && NoneLast(s.sent) && Broken(c, s, |m|)
    ensures !Faithful(c, m, Seal(c, s).sent, HashBuffer)
  {
    if s.held != [] {
      var s' := SendOne(c, s, s.held, true);
      PayloadSnoc(s.sent, s'.sent[|s.sent|]);
      if i :| 0 <= i < |s.sent| && !Aligned(c, s.sent[i]) {
        assert s'.sent[i] == s.sent[i];
      }
    } else if s.sent != [] {
      assert !s.sent[|s.sent| - 1].Last();
    }
  }

  lemma FinishBroken(c: Config, s: State, n: nat, x: Session)
    requires c.Ok() && NoneLast(s.sent) && Broken(c, s, n) && x.Ok() && |s.held| <= c.blk
    requires |x.Message()| == n + if x.process then |x.ending.data| else 0
    ensures var (s', source) := Finish(c, s, x.ending, x.process);
            !Faithful(c, x.Message(), s'.sent, source)
  {
    var r := x.ending;
    if r.data != [] {
      if x.process {
        var s' := ProcessConserves(c, s, r);
        BrokenStays(c, s, s', n, |r.data|);
        SealStaysUnfaithful(c, s', x.Message());
      } else {
        SealStaysUnfaithful(c, s.(align := s.align || r.entries > 1), x.Message());
      }
    } else if s.count > 0 {
      SealStaysUnfaithful(c, s, x.Message());
    } else if c.shake {
      var s' := SendOne(c, s, [], true);
      PayloadSnoc(s.sent, s'.sent[|s.sent|]);
      if i :| 0 <= i < |s.sent| && !Aligned(c, s.sent[i]) {
        assert s'.sent[i] == s.sent[i];
      }
    }
  }

  /** A session's ending sends what is left and gives the digest of the whole message. */
  ghost predicate Closes(c: Config, whole: seq<byte>, s: State, source: Source)
    requires c.Ok()
  {
    && Faithful(c, whole, s.sent, source)
    && (|whole| + 1 < TWO64 ==> (if source == ZeroVector then c.engine.zeroVector else s.hash) == Reference(c, whole))
  }

  lemma FinishStreams(c: Config, s: State, m: seq<byte>, x: Session)
    requires c.Ok() && Streaming(c, s, m) && x.Ok()
    requires x.ending.data == [] ||
             if x.process then KeepsStream(c, Ledger(|m|, s.align), |x.ending.data|, x.ending.entries) else m != []
    ensures var (s', source) := Finish(c, s, x.ending, x.process);
            Closes(c, m + if x.process then x.ending.data else [], s', source)
  {
    var r := x.ending;
    if r.data != [] && x.process {
      ProcessStreams(c, s, m, r);
      Sealing(c, Process(c, s, r), m + r.data);
    } else {
      assert m + [] == m;
      if r.data != [] {
        Sealing(c, s.(align := s.align || r.entries > 1), m);
      } else if m != [] || c.shake {
        Sealing(c, s, m);
      } else {
        NothingSent(c, s);
      }
    }
    hide Closes, Process, SendOne, Streaming;
  }

  lemma NothingSent(c: Config, s: State)
    requires c.Ok() && Streaming(c, s, [])
    ensures s.sent == [] && s.held == [] && s.count == 0
    ensures !c.shake ==> Closes(c, [], s, ZeroVector)
  {
  }

  lemma Sealing(c: Config, s: State, m: seq<byte>)
    requires c.Ok() && Streaming(c, s, m) && (m != [] || c.shake)
    ensures Closes(c, m, SendOne(c, s, s.held, true), HashBuffer)
    ensures Closes(c, m, SendOne(c, s, s.held, true).(held := []), HashBuffer)
    ensures (m == [] <==> s.held == []) && s.count == |m|
  {
    SealsFaithfully(c, s, m);
    if |m| + 1 < TWO64 {
      SealsDigest(c, s, m);
    }
    hide Faithful, Reference, SendOne, Tidy, Payload;
  }

  lemma EndingBreaks(c: Config, s: State, m: seq<byte>, x: Session)
    requires c.Ok() && Streaming(c, s, m) && NoneLast(s.sent) && x.Ok() && x.ending.data != []
    requires if x.process then !KeepsStream(c, Ledger(|m|, s.align), |x.ending.data|, x.ending.entries) else m == []
    ensures var (s', source) := Finish(c, s, x.ending, x.process);
            !Faithful(c, m + if x.process then x.ending.data else [], s'.sent, source)
  {
    var r := x.ending;
    if x.process {
      ProcessBreaks(c, s, m, r);
      var s' := ProcessConserves(c, s, r);
      SealStaysUnfaithful(c, s', m + r.data);
    } else {
      NothingSent(c, s);
    }
  }

  /**
   A session sends the engine exactly its message, in whole blocks closed by one last task,
   if and only if the lengths and entry counts of its requests pass the check above.
   */
  lemma ExactlyLossless(c: Config, garbage: HashState, x: Session)
    requires c.Ok() && x.Ok()
    ensures var (s, source) := AfterSession(c, garbage, x);
            Faithful(c, x.Message(), s.sent, source) <==> LosslessSession(c, x)
  {
    var s := AfterUpdates(c, garbage, x.updates);
    var m := Input(x.updates);
    assert x.Message() == m + if x.process then x.ending.data else [];
    if Lossless(c, x.updates) {
      UpdatesStream(c, garbage, x.updates);
      TidyNoneLast(c, s.sent);
      if LosslessSession(c, x) {
        FinishStreams(c, s, m, x);
      } else {
        EndingBreaks(c, s, m, x);
      }
    } else {
      UpdatesBreak(c, garbage, x.updates);
      if |s.held| <= c.blk {
        FinishBroken(c, s, |m|, x);
      } else if s.sent != [] {
        assert !s.sent[|s.sent| - 1].Last();
      }
    }
  }

  /** The digest of a lossless session is the digest of its message, whatever the engine computes. */
  lemma DigestIsReference(c: Config, garbage: HashState, x: Session)
    requires c.Ok() && x.Ok() && LosslessSession(c, x) && |x.Message()| + 1 < TWO64
    ensures Digest(c, garbage, x) == Reference(c, x.Message())
  {
    UpdatesStream(c, garbage, x.updates);
    FinishStreams(c, AfterUpdates(c, garbage, x.updates), Input(x.updates), x);
  }

  /** Two lossless sessions over the same bytes agree, however differently they cut them. */
  lemma SegmentationIndependence(c: Config, garbage: HashState, other: HashState, x: Session, y: Session)
    requires c.Ok() && x.Ok() && y.Ok() && LosslessSession(c, x) && LosslessSession(c, y)
    requires x.Message() == y.Message() && |x.Message()| + 1 < TWO64
    ensures Digest(c, garbage, x) == Digest(c, other, y)
  {
    DigestIsReference(c, garbage, x);
    DigestIsReference(c, other, y);
  }

  lemma {:induction false} ScatteredUpdates(c: Config, updates: seq<Request>)
    requires c.Ok() && !c.shake && Multiple(SZ_4M, c.blk)
    requires forall i | 0 <= i < |updates| :: updates[i].entries > 1
    ensures Lossless(c, updates)
  {
    if updates != [] {
      ScatteredUpdates(c, updates[..|updates| - 1]);
    }
  }

  /** Every session whose lists have several entries and whose block size divides 4 MiB is lossless. */
  lemma ScatteredIsLossless(c: Config, x: Session)
    requires c.Ok() && !c.shake && Multiple(SZ_4M, c.blk)
    requires forall i | 0 <= i < |x.updates| :: x.updates[i].entries > 1
    requires x.ending.data == [] || (x.process && x.ending.entries > 1)
    ensures LosslessSession(c, x)
  {
    ScatteredUpdates(c, x.updates);
  }

  /** The SHA-2 block sizes divide a slice; those of SHA-3 and SHAKE do not. */
  lemma WhichSlicesAlign(blk: nat)
    requires blk in {64, 128, 72, 104, 136, 168}
    ensures Multiple(SZ_4M, blk) <==> blk == 64 || blk == 128
  {
    MultipleIsMod(SZ_4M, blk);
  }

  lemma {:induction false} LosslessPrefix(c: Config, updates: seq<Request>, i: nat)
    requires c.Ok() && Lossless(c, updates) && i <= |updates|
    ensures Lossless(c, updates[..i])
  {
    if i == |updates| {
      assert updates[..i] == updates;
    } else {
      LosslessPrefix(c, updates[..|updates| - 1], i);
      assert updates[..|updates| - 1][..i] == updates[..i];
    }
  }

  /** A short single-entry request, then one of at least a block: the first bytes never reach the engine. */
  lemma ShortThenLong(c: Config, garbage: HashState, a: seq<byte>, b: seq<byte>)
    requires c.Ok() && 0 < |a| < c.blk <= |b| <= SHA_MAX_LEN && |a| <= SHA_MAX_LEN
    ensures var x := Session([Request(a, 1)], Request(b, 1), true);
            var (s, source) := AfterSession(c, garbage, x);
            x.Ok() && x.Message() == a + b && !Faithful(c, a + b, s.sent, source)
  {
    var x := Session([Request(a, 1)], Request(b, 1), true);
    assert x.updates[..0] == [];
    assert Input(x.updates) == a;
    assert LedgerAfter(c, x.updates) == Advance(c, Ledger(0, false), |a|, 1);
    assert Whole(|a| - 1, c.blk) == 0;
    ExactlyLossless(c, garbage, x);
  }

  /** By the length words alone the engine can tell the first task and the last one. */
  lemma LengthWordsTell(c: Config, garbage: HashState, x: Session, i: nat)
    requires c.Ok() && x.Ok() && LosslessSession(c, x) && |Input(x.updates)| + |x.ending.data| + 1 < TWO64
    requires i < |AfterSession(c, garbage, x).0.sent|
    ensures var sent := AfterSession(c, garbage, x).0.sent;
            && (sent[i].First() <==> i == 0)
            && (sent[i].Last() <==> i == |sent| - 1)
  {
    ExactlyLossless(c, garbage, x);
    UpdatesStream(c, garbage, x.updates);
    FinishFirst(c, AfterUpdates(c, garbage, x.updates), Input(x.updates), x, i);
  }

  lemma FinishFirst(c: Config, s: State, m: seq<byte>, x: Session, i: nat)
    requires c.Ok() && Streaming(c, s, m) && x.Ok() && |m| + |x.ending.data| + 1 < TWO64
    requires x.ending.data != [] && x.process ==>
               KeepsStream(c, Ledger(|m|, s.align), |x.ending.data|, x.ending.entries)
    requires i < |Finish(c, s, x.ending, x.process).0.sent|
    ensures Finish(c, s, x.ending, x.process).0.sent[i].First() <==> i == 0
  {
    var r := x.ending;
    if r.data != [] && x.process {
      ProcessStreams(c, s, m, r);
      SealedFirst(c, Process(c, s, r), m + r.data, i);
    } else {
      SealedFirst(c, s, m, i);
    }
  }

  lemma SealedFirst(c: Config, s: State, m: seq<byte>, i: nat)
    requires c.Ok() && Streaming(c, s, m) && |m| + 1 < TWO64 && i <= |s.sent|
    ensures SendOne(c, s, s.held, true).sent[i].First() <==> i == 0
  {
    if i < |s.sent| {
      assert SendOne(c, s, s.held, true).sent[i] == s.sent[i];
      PlainTaskCode(s.sent[i], i);
    } else {
      LastIsFirstWhenAlone(c, s, m);
    }
  }

  // ---------------------------------------------------------------- the condition without the flag

  /** All requests of a session that reach one of the two paths. */
  function Calls(x: Session): seq<Request> { x.updates + if x.process then [x.ending] else [] }

  predicate Small(c: Config, r: Request) { r.data == [] || (|r.data| < c.blk && r.entries <= 1) }

  /** The stream is inside a block, and since some block boundary only small single-entry requests have come. */
  ghost predicate Strays(c: Config, calls: seq<Request>)
    requires c.Ok()
  {
    !Multiple(|Input(calls)|, c.blk) && exists j | 0 <= j <= |calls| :: SmallSince(c, calls, j)
  }

  /** After the first j requests the stream was at a block boundary, and all others are small. */
  ghost predicate SmallSince(c: Config, calls: seq<Request>, j: nat)
    requires c.Ok() && j <= |calls|
  {
    Multiple(|Input(calls[..j])|, c.blk) && forall k | j <= k < |calls| :: Small(c, calls[k])
  }

  /** Request i is single-entry, of at least a block, and comes while the stream strays. */
  ghost predicate Overwrites(c: Config, calls: seq<Request>, i: nat)
    requires c.Ok() && i < |calls|
  {
    calls[i].entries <= 1 && |calls[i].data| >= c.blk && Strays(c, calls[..i])
  }

  lemma WaitingAtBoundary(c: Config, n: nat)
    requires c.Ok()
    ensures Multiple(n, c.blk) <==> Waiting(c, n) == 0 || Waiting(c, n) == c.blk
  {
    if n > 0 {
      var m := Whole(n - 1, c.blk);
      WholeMultiple(n - 1, c.blk);
      WholeAdd(m, n - m, c.blk);
    }
  }

  lemma {:induction false} LedgerCounts(c: Config, calls: seq<Request>)
    requires c.Ok()
    ensures LedgerAfter(c, calls).count == |Input(calls)|
  {
    if calls != [] {
      LedgerCounts(c, calls[..|calls| - 1]);
    }
  }

  /** A request more keeps a stray stream stray only if it is small. */
  lemma StraysStep(c: Config, calls: seq<Request>)
    requires c.Ok() && calls != []
    ensures var before := calls[..|calls| - 1];
            Strays(c, calls) <==>
              && !Multiple(|Input(calls)|, c.blk)
              && Small(c, calls[|calls| - 1])
              && (Multiple(|Input(before)|, c.blk) || Strays(c, before))
  {
    var before := calls[..|calls| - 1];
    hide Multiple, Input, Small, SmallSince;
    forall j | 0 <= j < |calls|
      ensures SmallSince(c, calls, j) <==> SmallSince(c, before, j) && Small(c, calls[|calls| - 1])
    {
      SmallSinceStep(c, calls, j);
    }
    SmallSinceEnd(c, before);
    SmallSinceEnd(c, calls);
  }

  lemma SmallSinceStep(c: Config, calls: seq<Request>, j: nat)
    requires c.Ok() && j < |calls|
    ensures SmallSince(c, calls, j) <==> SmallSince(c, calls[..|calls| - 1], j) && Small(c, calls[|calls| - 1])
  {
    hide Multiple, Input, Small;
    assert calls[..|calls| - 1][..j] == calls[..j];
  }

  lemma SmallSinceEnd(c: Config, calls: seq<Request>)
    requires c.Ok()
    ensures SmallSince(c, calls, |calls|) <==> Multiple(|Input(calls)|, c.blk)
  {
    hide Multiple, Input, Small;
    assert calls[..|calls|] == calls;
  }

  /** The requests are being realigned exactly when the stream is inside a block but does not stray. */
  lemma {:induction false} RealignedExactly(c: Config, calls: seq<Request>)
    requires c.Ok() && Lossless(c, calls)
    ensures LedgerAfter(c, calls).align <==> !Multiple(|Input(calls)|, c.blk) && !Strays(c, calls)
  {
    if calls != [] {
      var before, r := calls[..|calls| - 1], calls[|calls| - 1];
      RealignedExactly(c, before);
      StraysStep(c, calls);
      LedgerCounts(c, before);
      LedgerCounts(c, calls);
      WaitingAtBoundary(c, |Input(before)|);
      WaitingAtBoundary(c, |Input(calls)|);
      RealignStep(c, LedgerAfter(c, before), r, Strays(c, before), Strays(c, calls));
    }
  }

  /** One request on the ledger, with all that is known of the two streams. */
  lemma RealignStep(c: Config, l: Ledger, r: Request, strayed: bool, strays: bool)
    requires c.Ok() && KeepsStream(c, l, |r.data|, r.entries)
    requires var w := Waiting(c, l.count); l.align <==> 0 < w < c.blk && !strayed
    requires strayed ==> 0 < Waiting(c, l.count) < c.blk
    requires var w := Waiting(c, l.count + |r.data|);
             strays <==> 0 < w < c.blk && Small(c, r) && (strayed || !(0 < Waiting(c, l.count) < c.blk))
    ensures var w := Waiting(c, l.count + |r.data|);
            Advance(c, l, |r.data|, r.entries).align <==> 0 < w < c.blk && !strays
  {
    hide Waiting, SliceAligned;
  }

  /**
   With slices that are whole blocks, a session is lossless unless a single-entry request of at
   least a block comes while the stream strays: the flag plays no part in the condition.
   */
  lemma {:induction false} OverwritesExactly(c: Config, calls: seq<Request>)
    requires c.Ok() && !c.shake && Multiple(SZ_4M, c.blk)
    ensures Lossless(c, calls) <==> forall i | 0 <= i < |calls| :: !Overwrites(c, calls, i)
  {
    if calls != [] {
      var before, r := calls[..|calls| - 1], calls[|calls| - 1];
      OverwritesExactly(c, before);
      assert forall i | 0 <= i < |before| :: before[i] == calls[i] && before[..i] == calls[..i];
      assert forall i | 0 <= i < |before| :: Overwrites(c, before, i) <==> Overwrites(c, calls, i);
      if Lossless(c, before) {
        RealignedExactly(c, before);
        LedgerCounts(c, before);
        WaitingAtBoundary(c, |Input(before)|);
        assert KeepsStream(c, LedgerAfter(c, before), |r.data|, r.entries) <==> !Overwrites(c, calls, |before|);
      }
    }
  }

  /** The same for whole sessions: what a caller may send, in terms of lengths and entries alone. */
  lemma LosslessExactly(c: Config, x: Session)
    requires c.Ok() && !c.shake && Multiple(SZ_4M, c.blk)
    ensures LosslessSession(c, x) <==>
              && (x.ending.data == [] || x.process || Input(x.updates) != [])
              && forall i | 0 <= i < |Calls(x)| :: !Overwrites(c, Calls(x), i)
  {
    OverwritesExactly(c, Calls(x));
    LedgerCounts(c, x.updates);
    if x.process {
      assert Calls(x)[..|Calls(x)| - 1] == x.updates;
    } else {
      assert Calls(x) == x.updates;
    }
  }

  /** Requests that are scattered or of at least a block never stray, so the digest is the message's. */
  lemma LargeOrScatteredDigest(c: Config, garbage: HashState, x: Session)
    requires c.Ok() && !c.shake && Multiple(SZ_4M, c.blk) && x.Ok() && |x.Message()| + 1 < TWO64
    requires forall r | r in x.updates :: r.entries > 1 || |r.data| >= c.blk || r.data == []
    requires x.ending.data == [] || x.process
    ensures Digest(c, garbage, x) == Reference(c, x.Message())
  {
    forall i | 0 <= i < |Calls(x)| ensures !Overwrites(c, Calls(x), i) {
      assert forall k | 0 <= k < i :: Calls(x)[..i][k] in x.updates;
      NeverStrays(c, Calls(x)[..i]);
    }
    LosslessExactly(c, x);
    DigestIsReference(c, garbage, x);
  }

  lemma {:induction false} NeverStrays(c: Config, calls: seq<Request>)
    requires c.Ok() && forall k | 0 <= k < |calls| :: calls[k].entries > 1 || |calls[k].data| >= c.blk || calls[k].data == []
    ensures !Strays(c, calls)
  {
    if calls != [] {
      NeverStrays(c, calls[..|calls| - 1]);
      StraysStep(c, calls);
    }
  }
}
