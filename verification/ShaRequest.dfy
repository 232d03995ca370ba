/**
 The ahash request context of the SHA driver, updated in place. Each method is tied to the
 function of `ShaStream` that says what it does; what those promise is in `ShaTheorems`.
 */
module ShaRequest {
  import opened Common
  import opened ShaStream
  import T = ShaTheorems

  class Context {
    const c: Config
    const shaBuf: array<byte>
    var residualBytes: nat
    var totalCount: nat
    var forceAlign: bool
    var isFirst: bool
    var hashResult: HashState
    ghost var sent: seq<Task>

    ghost predicate Valid()
      reads this
    {
      c.Ok() && shaBuf.Length == SZ_4M && residualBytes <= SZ_4M
    }

    ghost function Abs(): State
      reads this, shaBuf
      requires Valid()
    {
      State(sent, shaBuf[..residualBytes], totalCount, forceAlign, isFirst, hashResult)
    }

    constructor (c: Config, garbage: HashState)
      requires c.Ok()
      ensures Valid() && fresh(shaBuf) && this.c == c && Abs() == Init(garbage)
    {
      this.c := c;
      shaBuf := new byte[SZ_4M](_ => 0);
      residualBytes, totalCount := 0, 0;
      forceAlign, isFirst := false, true;
      hashResult := garbage;
      sent := [];
    }

    /** sg_pcopy_to_buffer: put `data` into the linear buffer from index `at` on. */
    method CopyIn(at: nat, data: seq<byte>)
      requires Valid() && at + |data| <= SZ_4M
      modifies shaBuf
      ensures shaBuf[..at] == old(shaBuf[..at]) && shaBuf[at..at + |data|] == data
      ensures shaBuf[..at + |data|] == old(shaBuf[..at]) + data
    {
      forall i | 0 <= i < |data| {
        shaBuf[at + i] := data[i];
      }
      assert shaBuf[..at + |data|] == shaBuf[..at] + shaBuf[at..at + |data|];
    }

    /** Encode the length words, hand the data over as one task, take back the new hash state. */
    method SendShaData(data: seq<byte>, isLast: bool)
      requires Valid() && |data| < TWO32
      modifies `isFirst, `hashResult, `sent
      ensures Abs() == Emit(c, old(Abs()), data, isLast)
    {
      var count := |data|;
      var total, left := Words(count % TWO32, 0), Words(count % TWO32, 0);
      if isLast {
        total := Words(totalCount % TWO32, totalCount / TWO32 % TWO32);
      } else {
        var msgLen := count + 8;
        left := Split(msgLen);
        if isFirst {
          total := Split(msgLen);
          isFirst := false;
        } else {
          msgLen := msgLen + 8;
          total := Split(msgLen);
        }
      }
      var task := Task(data, left, total, hashResult);
      sent := sent + [task];
      hashResult := Run(c, task);
    }

    /** Send the first `nbytes` of the linear buffer; a last SHAKE task gets its 0xff byte here. */
    method SendOne(nbytes: nat, isLast: bool)
      requires Valid() && nbytes <= SZ_4M && (isLast ==> nbytes < SZ_4M)
      modifies `isFirst, `hashResult, `sent, `totalCount, shaBuf
      ensures var s := ShaStream.SendOne(c, old(Abs()), old(shaBuf[..nbytes]), isLast);
              sent == s.sent && isFirst == s.first && hashResult == s.hash && totalCount == s.count
      ensures shaBuf[..nbytes] == old(shaBuf[..nbytes])
    {
      var n := nbytes;
      if isLast && c.shake {
        shaBuf[n] := 0xff;
        n := n + 1;
        totalCount := totalCount + 1;
        assert shaBuf[..n] == old(shaBuf[..nbytes]) + [0xff];
      }
      SendShaData(shaBuf[..n], isLast);
    }

    /** finup, digest and final: whatever is held goes out as the last task. */
    method Seal()
      requires Valid() && residualBytes < SZ_4M
      modifies this, shaBuf
      ensures Valid() && Abs() == ShaStream.Seal(c, old(Abs()))
    {
      if residualBytes > 0 {
        SendOne(residualBytes, true);
        residualBytes := 0;
      }
    }

    /** A whole task from the linear buffer, in the middle of the request that began in state s0. */
    method SendChunk(nbytes: nat, ghost s0: State, ghost done: seq<seq<byte>>)
      requires Valid() && nbytes <= SZ_4M && SentAs(c, s0, done, sent, isFirst, hashResult)
      modifies `isFirst, `hashResult, `sent, `totalCount, shaBuf
      ensures SentAs(c, s0, done + [old(shaBuf[..nbytes])], sent, isFirst, hashResult)
      ensures totalCount == old(totalCount) && shaBuf[..nbytes] == old(shaBuf[..nbytes])
    {
      SentStep(c, s0, done, Abs(), shaBuf[..nbytes]);
      SendOne(nbytes, false);
    }

    /** A whole task straight from the request, nothing copied. */
    method SendDirect(data: seq<byte>, ghost s0: State, ghost done: seq<seq<byte>>)
      requires Valid() && |data| < TWO32 && SentAs(c, s0, done, sent, isFirst, hashResult)
      modifies `isFirst, `hashResult, `sent
      ensures SentAs(c, s0, done + [data], sent, isFirst, hashResult)
    {
      SentStep(c, s0, done, Abs(), data);
      SendShaData(data, false);
    }

    /** A whole held block goes out first; what else is held is left to be overwritten. */
    method FlushBlock(ghost s0: State) returns (ghost done: seq<seq<byte>>)
      requires Valid() && Abs() == s0
      modifies this, shaBuf
      ensures Valid() && totalCount == s0.count && forceAlign == s0.align
      ensures done == if |s0.held| == c.blk then [s0.held] else []
      ensures SentAs(c, s0, done, sent, isFirst, hashResult)
    {
      done := [];
      if residualBytes == c.blk {
        SendChunk(residualBytes, s0, done);
        done := done + [s0.held];
        residualBytes := 0;
      }
    }

    method FastPath(r: Request)
      requires Valid() && c.blk <= |r.data| <= SHA_MAX_LEN && residualBytes <= c.blk && !forceAlign
      modifies this, shaBuf
      ensures Valid()
      ensures var s := old(Abs());
              Abs() == AfterPlan(c, s, FastPlan(c, s.held, r.data), |r.data|, 0 < residualBytes < c.blk)
    {
      hide SentAs, AfterPlan, FastPlan, Whole, FastCut;
      ghost var s0 := Abs();
      ghost var done := FlushBlock(s0);
      var numBlks := |r.data| / c.blk;
      residualBytes := |r.data| - numBlks * c.blk;
      FastCutIsBlocks(c, |r.data|);
      if numBlks > 0 && residualBytes == 0 {
        residualBytes := c.blk;
        totalCount := totalCount + residualBytes;
        numBlks := numBlks - 1;
      } else {
        totalCount := totalCount + residualBytes;
      }
      var cut := numBlks * c.blk;
      assert cut == FastCut(c, |r.data|) && residualBytes == |r.data| - cut && (cut > 0 <==> numBlks > 0);
      CopyIn(0, r.data[cut..]);
      if numBlks > 0 {
        totalCount := totalCount + cut;
        SendDirect(r.data[..cut], s0, done);
        done := done + [r.data[..cut]];
      }
      if residualBytes > 0 && residualBytes < c.blk {
        forceAlign := true;
      }
      FastPlanIs(c, s0.held, r.data, done);
      AfterPlanIs(c, s0, Abs(), FastPlan(c, s0.held, r.data), |r.data|);
    }

    /** One slice: top the buffer up from the request and send it. */
    method SendSlice(r: Request, totalBytes: int, offset: nat, skip: nat,
                     ghost s0: State, ghost done: seq<seq<byte>>, ghost rest: seq<byte>)
      returns (length: nat)
      requires Valid() && skip <= |r.data| && offset <= c.blk <= totalBytes <= offset + |r.data| - skip
      requires rest == shaBuf[..offset] + r.data[skip..]
      requires SentAs(c, s0, done, sent, isFirst, hashResult)
      modifies `isFirst, `hashResult, `sent, `totalCount, shaBuf
      ensures length + offset == Min(SZ_4M, Whole(totalBytes, c.blk)) && length <= |r.data| - skip
      ensures rest[length + offset..] == r.data[skip + length..]
      ensures totalCount == old(totalCount) + length
      ensures SentAs(c, s0, done + [rest[..length + offset]], sent, isFirst, hashResult)
    {
      hide SentAs;
      var nblkBytes := totalBytes / c.blk * c.blk;
      ghost var whole := WholeBlocks(c, totalBytes);
      length := Min(SZ_4M, nblkBytes) - offset;
      TakeAcross(shaBuf[..offset], r.data, skip, length);
      CopyIn(offset, r.data[skip..skip + length]);
      totalCount := totalCount + length;
      SendChunk(length + offset, s0, done);
    }

    /** The slicing loop: copy behind what is held, send, and start over at the front of the buffer. */
    method SendSlices(r: Request, spend: int, ghost s0: State)
      returns (skip: nat, ghost done: seq<seq<byte>>, ghost rest: seq<byte>)
      requires Valid() && Abs() == s0 && residualBytes <= c.blk
      requires spend <= residualBytes + |r.data| <= spend + c.blk
      modifies this, shaBuf
      ensures Valid() && residualBytes == |s0.held| && forceAlign == s0.align
      ensures skip <= |r.data| && totalCount == s0.count + skip
      ensures if spend >= c.blk then rest == r.data[skip..]
              else skip == 0 && rest == shaBuf[..residualBytes] + r.data
      ensures |rest| < 2 * c.blk && SlicePlan(c, s0.held + r.data, spend) == Plan(done, rest)
      ensures SentAs(c, s0, done, sent, isFirst, hashResult)
    {
      hide SentAs, Slicing, SlicePlan;
      var totalBytes := spend;
      var offset: nat := residualBytes;
      skip, done, rest := 0, [], s0.held + r.data;
      SentNone(c, s0);
      SlicingStart(c, s0, r.data, spend);
      while totalBytes >= c.blk
        invariant Valid() && residualBytes == |s0.held| && forceAlign == s0.align && offset <= c.blk
        invariant Slicing(c, s0, r.data, spend, shaBuf[..offset], totalBytes, skip, totalCount, done, rest)
        invariant SentAs(c, s0, done, sent, isFirst, hashResult)
        decreases totalBytes
      {
        totalBytes, skip, done, rest := NextSlice(r, spend, totalBytes, offset, skip, s0, done, rest);
        offset := 0;
      }
      SlicingDone(c, s0, r.data, spend, shaBuf[..offset], totalBytes, skip, totalCount, done, rest);
    }

    /** One round of that loop. */
    method NextSlice(r: Request, ghost spend: int, total0: int, offset: nat, skip0: nat,
                     ghost s0: State, ghost done0: seq<seq<byte>>, ghost rest0: seq<byte>)
      returns (total: int, skip: nat, ghost done: seq<seq<byte>>, ghost rest: seq<byte>)
      requires Valid() && offset <= c.blk <= total0
      requires Slicing(c, s0, r.data, spend, shaBuf[..offset], total0, skip0, totalCount, done0, rest0)
      requires SentAs(c, s0, done0, sent, isFirst, hashResult)
      modifies `isFirst, `hashResult, `sent, `totalCount, shaBuf
      ensures 0 <= total < total0
      ensures Slicing(c, s0, r.data, spend, shaBuf[..0], total, skip, totalCount, done, rest)
      ensures SentAs(c, s0, done, sent, isFirst, hashResult)
    {
      hide SentAs, Slicing, SlicePlan;
      ghost var buf, count := shaBuf[..offset], totalCount;
      SlicingMeans(c, s0, r.data, spend, buf, total0, skip0, totalCount, done0, rest0);
      SliceSize(c, total0);
      var length := SendSlice(r, total0, offset, skip0, s0, done0, rest0);
      SlicingStep(c, s0, r.data, spend, buf, total0, skip0, count, done0, rest0, length);
      done, rest := done0 + [rest0[..length + offset]], rest0[length + offset..];
      total, skip := total0 - (length + offset), skip0 + length;
      assert shaBuf[..0] == [];
    }

    method SlowPath(r: Request)
      requires Valid() && 0 < |r.data| <= SHA_MAX_LEN && residualBytes <= c.blk
      modifies this, shaBuf
      ensures Valid()
      ensures var s := old(Abs());
              Abs() == AfterPlan(c, s, SlowPlan(c, s.held, r.data), |r.data|, s.align && residualBytes != c.blk)
    {
      ghost var s0 := Abs();
      var totalBytes := residualBytes + |r.data|;
      var nblkBytes := totalBytes / c.blk * c.blk;
      ghost var whole := WholeBlocks(c, totalBytes);
      if totalBytes - nblkBytes == 0 {
        totalBytes := totalBytes - c.blk;
      }
      SlowPlanIs(c, s0.held, r.data, totalBytes);
      hide *;
      var skip;
      ghost var done, rest;
      skip, done, rest := SendSlices(r, totalBytes, s0);
      KeepRest(r, totalBytes, skip, s0, rest);
      if forceAlign && residualBytes == c.blk {
        forceAlign := false;
      }
      AfterPlanIs(c, s0, Abs(), Plan(done, rest), |r.data|);
    }

    /** What is not sent goes to the front of the buffer, or behind what is already held. */
    method KeepRest(r: Request, spend: int, skip: nat, ghost s0: State, ghost rest: seq<byte>)
      requires Valid() && skip <= |r.data| && totalCount == s0.count + skip && residualBytes == |s0.held|
      requires if spend >= c.blk then rest == r.data[skip..]
               else skip == 0 && rest == shaBuf[..residualBytes] + r.data
      requires |rest| < 2 * c.blk
      modifies this`residualBytes, this`totalCount, shaBuf
      ensures Valid() && totalCount == s0.count + |r.data| && Abs().held == rest
    {
      if spend >= c.blk {
        CopyIn(0, r.data[skip..]);
        totalCount := totalCount + |r.data| - skip;
        residualBytes := |r.data| - skip;
      } else {
        CopyIn(residualBytes, r.data);
        totalCount := totalCount + |r.data|;
        residualBytes := residualBytes + |r.data|;
      }
    }

    /** Every entry point ends here: update (false, false), final (true, false), finup and digest (true, true). */
    method Op(r: Request, isLast: bool, processCurReq: bool) returns (source: Source)
      requires Valid() && |r.data| <= SHA_MAX_LEN && residualBytes <= c.blk && (processCurReq ==> isLast)
      requires residualBytes <= totalCount
      modifies this, shaBuf
      ensures Valid() && residualBytes <= totalCount
      ensures !isLast ==> Abs() == Update(c, old(Abs()), r)
      ensures isLast ==> (Abs(), source) == Finish(c, old(Abs()), r, processCurReq)
    {
      if |r.data| == 0 {
        source := OpEmpty(isLast);
      } else {
        OpData(r, isLast, processCurReq);
        source := HashBuffer;
      }
    }

    /** A request without data: only the end of a stream does anything. */
    method OpEmpty(isLast: bool) returns (source: Source)
      requires Valid() && residualBytes <= c.blk && residualBytes <= totalCount
      modifies this, shaBuf
      ensures Valid() && residualBytes <= totalCount
      ensures !isLast ==> Abs() == Update(c, old(Abs()), Request([], 1))
      ensures isLast ==> forall n, p :: (Abs(), source) == Finish(c, old(Abs()), Request([], n), p)
    {
      source := HashBuffer;
      if totalCount > 0 {
        if isLast {
          Seal();
        }
      } else if c.shake {
        SendOne(0, isLast);
      } else {
        source := ZeroVector;
      }
    }

    method OpData(r: Request, isLast: bool, processCurReq: bool)
      requires Valid() && 0 < |r.data| <= SHA_MAX_LEN && residualBytes <= c.blk && (processCurReq ==> isLast)
      requires residualBytes <= totalCount
      modifies this, shaBuf
      ensures Valid() && residualBytes <= totalCount
      ensures !isLast ==> Abs() == Process(c, old(Abs()), r)
      ensures isLast ==> Abs() == ShaStream.Seal(c,
                if processCurReq then Process(c, old(Abs()), r)
                else old(Abs()).(align := old(forceAlign) || r.entries > 1))
    {
      if !isLast || processCurReq {
        OneRequest(r);
      } else if r.entries > 1 {
        forceAlign := true;
      }
      if isLast {
        Seal();
      }
    }

    method OneRequest(r: Request)
      requires Valid() && 0 < |r.data| <= SHA_MAX_LEN && residualBytes <= c.blk && residualBytes <= totalCount
      modifies this, shaBuf
      ensures Valid() && residualBytes <= totalCount && residualBytes < SZ_4M
      ensures Abs() == Process(c, old(Abs()), r)
    {
      hide SendAll, SlicePlan, FastPlan;
      ghost var s0 := Abs();
      if r.entries > 1 {
        forceAlign := true;
      }
      WholeBlocksPositive(c, |r.data|);
      RestIsShort(c, s0, r);
      AfterPlanFrame(c, s0, PlanOf(c, s0, r), |r.data|, forceAlign);
      if !forceAlign && |r.data| / c.blk > 0 {
        FastPath(r);
      } else {
        SlowPath(r);
      }
    }
  }

  /** In a lossless session every update finds a context with at most a block held. */
  lemma SessionStep(c: Config, garbage: HashState, updates: seq<Request>, i: nat)
    requires c.Ok() && T.Lossless(c, updates) && i < |updates|
    requires forall k | 0 <= k < |updates| :: |updates[k].data| <= SHA_MAX_LEN
    ensures var s := T.AfterUpdates(c, garbage, updates[..i]);
            && |s.held| <= c.blk && |s.held| <= s.count
            && T.AfterUpdates(c, garbage, updates[..i + 1]) == Update(c, s, updates[i])
  {
    T.LosslessPrefix(c, updates, i);
    T.UpdatesStream(c, garbage, updates[..i]);
    assert updates[..i + 1][..i] == updates[..i];
    hide Update;
  }

  lemma SessionEnd(c: Config, garbage: HashState, x: T.Session)
    requires c.Ok() && x.Ok() && T.LosslessSession(c, x) && |x.Message()| + 1 < TWO64
    ensures T.Lossless(c, x.updates) && x.updates[..|x.updates|] == x.updates
    ensures var s := T.AfterUpdates(c, garbage, x.updates);
            && |s.held| <= c.blk && |s.held| <= s.count
            && var (s', source) := Finish(c, s, x.ending, x.process);
               (if source == ZeroVector then c.engine.zeroVector else s'.hash) == T.Reference(c, x.Message())
  {
    T.UpdatesStream(c, garbage, x.updates);
    T.DigestIsReference(c, garbage, x);
    hide Finish, T.Reference;
  }

  lemma SessionStart(c: Config, garbage: HashState, updates: seq<Request>)
    requires c.Ok()
    ensures T.AfterUpdates(c, garbage, updates[..0]) == Init(garbage)
  {
  }

  /** A whole session on one context: a lossless one returns the digest of its message. */
  method HashSession(c: Config, garbage: HashState, x: T.Session) returns (digest: HashState)
    requires c.Ok() && x.Ok() && T.LosslessSession(c, x) && |x.Message()| + 1 < TWO64
    ensures digest == T.Reference(c, x.Message())
  {
    var ctx := new Context(c, garbage);
    SessionEnd(c, garbage, x);
    SessionStart(c, garbage, x.updates);
    hide T.AfterUpdates, T.Lossless, T.LosslessSession, T.Reference, Update, Finish, Init;
    for i := 0 to |x.updates|
      invariant ctx.Valid() && ctx.c == c && fresh(ctx) && fresh(ctx.shaBuf)
      invariant ctx.Abs() == T.AfterUpdates(c, garbage, x.updates[..i])
    {
      SessionStep(c, garbage, x.updates, i);
      var _ := ctx.Op(x.updates[i], false, false);
    }
    var source := ctx.Op(x.ending, true, x.process);
    digest := if source == ZeroVector then c.engine.zeroVector else ctx.hashResult;
  }

  ghost predicate SentAs(c: Config, s0: State, done: seq<seq<byte>>, sent: seq<Task>, first: bool, hash: HashState)
    requires c.Ok()
  {
    var s := SendAll(c, s0, done);
    s.sent == sent && s.first == first && s.hash == hash
  }

  ghost function AfterPlan(c: Config, s: State, p: Plan, n: nat, align: bool): State
    requires c.Ok()
  {
    SendAll(c, s, p.chunks).(held := p.rest, count := s.count + n, align := align)
  }

  lemma SentNone(c: Config, s0: State)
    requires c.Ok()
    ensures SentAs(c, s0, [], s0.sent, s0.first, s0.hash)
  {
  }

  lemma ProgressNone(c: Config, all: seq<byte>, spend: int)
    requires c.Ok() && spend <= |all| <= spend + c.blk
    ensures Progress(c, all, spend, [], all, spend)
  {
    var p := SlicePlan(c, all, spend);
    assert [] + p.chunks == p.chunks;
  }

  lemma AfterPlanIs(c: Config, s0: State, s: State, p: Plan, n: nat)
    requires c.Ok() && SentAs(c, s0, p.chunks, s.sent, s.first, s.hash)
    requires s.held == p.rest && s.count == s0.count + n
    ensures s == AfterPlan(c, s0, p, n, s.align)
  {
  }

  lemma SlowPlanIs(c: Config, held: seq<byte>, data: seq<byte>, spend: int)
    requires c.Ok() && |held| <= c.blk
    requires var n := |held| + |data|; spend == if n - n / c.blk * c.blk == 0 then n - c.blk else n
    ensures spend <= |held| + |data| <= spend + c.blk
    ensures SlowPlan(c, held, data) == SlicePlan(c, held + data, spend)
  {
    var n := |held + data|;
    var whole := WholeBlocks(c, n);
    hide SlicePlan;
  }

  /** What is still to be planned, behind what is already done. */
  ghost predicate Progress(c: Config, all: seq<byte>, spend: int, done: seq<seq<byte>>, rest: seq<byte>, left: int)
    requires c.Ok()
  {
    && spend <= |all|
    && left <= |rest| <= left + c.blk
    && SlicePlan(c, all, spend) == Prepend(done, SlicePlan(c, rest, left))
  }

  /** The slicing loop: how far the request is copied, what is planned behind it, and what the buffer holds. */
  ghost predicate Slicing(c: Config, s0: State, data: seq<byte>, spend: int, buf: seq<byte>, total: int, skip: nat,
                          count: nat, done: seq<seq<byte>>, rest: seq<byte>)
    requires c.Ok()
  {
    && skip <= |data| && count == s0.count + skip && total <= spend
    && (if total == spend then skip == 0 && buf == s0.held else buf == [] && spend >= c.blk)
    && rest == buf + data[skip..]
    && Progress(c, s0.held + data, spend, done, rest, total)
  }

  lemma SlicingStart(c: Config, s0: State, data: seq<byte>, spend: int)
    requires c.Ok() && spend <= |s0.held| + |data| <= spend + c.blk
    ensures Slicing(c, s0, data, spend, s0.held, spend, 0, s0.count, [], s0.held + data)
  {
    ProgressNone(c, s0.held + data, spend);
  }

  lemma SlicingMeans(c: Config, s0: State, data: seq<byte>, spend: int, buf: seq<byte>, total: int, skip: nat,
                     count: nat, done: seq<seq<byte>>, rest: seq<byte>)
    requires c.Ok() && Slicing(c, s0, data, spend, buf, total, skip, count, done, rest)
    ensures skip <= |data| && total <= |buf| + |data| - skip && rest == buf + data[skip..]
  {
  }

  lemma SliceSize(c: Config, total: int)
    requires c.Ok() && total >= c.blk
    ensures c.blk <= Min(SZ_4M, Whole(total, c.blk)) <= total
  {
  }

  lemma SlicingStep(c: Config, s0: State, data: seq<byte>, spend: int, buf: seq<byte>, total: int, skip: nat,
                    count: nat, done: seq<seq<byte>>, rest: seq<byte>, length: nat)
    requires c.Ok() && Slicing(c, s0, data, spend, buf, total, skip, count, done, rest) && total >= c.blk
    requires length + |buf| == Min(SZ_4M, Whole(total, c.blk)) && length <= |data| - skip
    ensures var size := length + |buf|;
            && 0 < size <= total <= |rest|
            && Slicing(c, s0, data, spend, [], total - size, skip + length, count + length, done + [rest[..size]], rest[size..])
  {
    SliceSize(c, total);
    TakeAcross(buf, data, skip, length);
    ProgressStep(c, s0.held + data, spend, done, rest, total, length + |buf|);
    assert rest[length + |buf|..] == [] + data[skip + length..];
  }

  lemma SlicingDone(c: Config, s0: State, data: seq<byte>, spend: int, buf: seq<byte>, total: int, skip: nat,
                    count: nat, done: seq<seq<byte>>, rest: seq<byte>)
    requires c.Ok() && Slicing(c, s0, data, spend, buf, total, skip, count, done, rest) && total < c.blk
    ensures skip <= |data| && count == s0.count + skip
    ensures if spend >= c.blk then rest == data[skip..] else skip == 0 && rest == buf + data && buf == s0.held
    ensures |rest| < 2 * c.blk && SlicePlan(c, s0.held + data, spend) == Plan(done, rest)
  {
    ProgressDone(c, s0.held + data, spend, done, rest, total);
    assert data[0..] == data;
    assert [] + data[skip..] == data[skip..];
  }

  ghost function Prepend(done: seq<seq<byte>>, p: Plan): Plan { Plan(done + p.chunks, p.rest) }

  lemma TakeAcross(a: seq<byte>, b: seq<byte>, skip: nat, n: nat)
    requires skip + n <= |b|
    ensures (a + b[skip..])[..|a| + n] == a + b[skip..skip + n]
    ensures (a + b[skip..])[|a| + n..] == b[skip + n..]
  {
  }

  lemma ProgressStep(c: Config, all: seq<byte>, spend: int, done: seq<seq<byte>>, rest: seq<byte>, left: int, size: nat)
    requires c.Ok() && Progress(c, all, spend, done, rest, left)
    requires left >= c.blk && size == Min(SZ_4M, Whole(left, c.blk))
    ensures Progress(c, all, spend, done + [rest[..size]], rest[size..], left - size)
  {
    PrependSnoc(done, rest[..size], SlicePlan(c, rest[size..], left - size));
  }

  lemma ProgressDone(c: Config, all: seq<byte>, spend: int, done: seq<seq<byte>>, rest: seq<byte>, left: int)
    requires c.Ok() && Progress(c, all, spend, done, rest, left) && left < c.blk
    ensures SlicePlan(c, all, spend) == Plan(done, rest) && |rest| < 2 * c.blk
  {
    assert done + [] == done;
  }

  lemma WholeBlocks(c: Config, n: nat) returns (whole: nat)
    requires c.Ok()
    ensures whole == n / c.blk * c.blk == Whole(n, c.blk)
    ensures n / c.blk > 0 <==> n >= c.blk
  {
    whole := Whole(n, c.blk);
    WholeIsDivision(n, c.blk);
    WholeBlocksPositive(c, n);
  }

  lemma WholeBlocksPositive(c: Config, n: nat)
    requires c.Ok()
    ensures n / c.blk > 0 <==> n >= c.blk
  {
    if n >= c.blk {
      WholeIsDivision(n, c.blk);
    }
  }

  /** The block count the fast path works with, one less when nothing would be left over. */
  lemma FastCutIsBlocks(c: Config, n: nat)
    requires c.Ok() && n >= c.blk
    ensures var k := n / c.blk;
            && k > 0 && k * c.blk <= n < k * c.blk + c.blk
            && (k - 1) * c.blk == k * c.blk - c.blk && (k == 1 <==> k * c.blk == c.blk)
            && FastCut(c, n) == (if n == k * c.blk then k * c.blk - c.blk else k * c.blk)
  {
    WholeIsDivision(n, c.blk);
    WholeBlocksPositive(c, n);
    var k := n / c.blk;
    assert (k - 1) * c.blk == k * c.blk - c.blk;
    if k > 1 {
      assert (k - 1) * c.blk > 0;
    }
  }

  lemma FastPlanIs(c: Config, held: seq<byte>, data: seq<byte>, done: seq<seq<byte>>)
    requires c.Ok()
    requires var cut := FastCut(c, |data|);
             done == (if |held| == c.blk then [held] else []) + (if cut > 0 then [data[..cut]] else [])
    ensures FastPlan(c, held, data) == Plan(done, data[FastCut(c, |data|)..])
  {
  }

  lemma {:induction false} SliceRestIsShort(c: Config, bytes: seq<byte>, spend: int)
    requires c.Ok() && spend <= |bytes| <= spend + c.blk
    ensures |SlicePlan(c, bytes, spend).rest| < 2 * c.blk && |SlicePlan(c, bytes, spend).rest| <= |bytes|
    decreases spend
  {
    if spend >= c.blk {
      var size := Min(SZ_4M, Whole(spend, c.blk));
      SliceRestIsShort(c, bytes[size..], spend - size);
    }
  }

  lemma RestIsShort(c: Config, s: State, r: Request)
    requires c.Ok() && |s.held| <= c.blk
    ensures |PlanOf(c, s, r).rest| < SZ_4M && |PlanOf(c, s, r).rest| <= |s.held| + |r.data|
  {
    if !TakesFast(c, s.align, |r.data|, r.entries) {
      SliceRestIsShort(c, s.held + r.data, Spendable(c, |s.held + r.data|));
    }
  }

  /** A task that is not the last depends on what was sent, the first-task mark and the hash alone. */
  lemma SendOneSame(c: Config, a: State, b: State, data: seq<byte>)
    requires c.Ok() && a.sent == b.sent && a.first == b.first && a.hash == b.hash
    ensures var a', b' := ShaStream.SendOne(c, a, data, false), ShaStream.SendOne(c, b, data, false);
            a'.sent == b'.sent && a'.first == b'.first && a'.hash == b'.hash && a'.count == a.count
  {
    hide Run, Split;
  }

  lemma SendAllSnoc(c: Config, s0: State, done: seq<seq<byte>>, data: seq<byte>)
    requires c.Ok()
    ensures SendAll(c, s0, done + [data]) == ShaStream.SendOne(c, SendAll(c, s0, done), data, false)
  {
    assert (done + [data])[..|done|] == done;
    hide ShaStream.SendOne;
  }

  lemma SentStep(c: Config, s0: State, done: seq<seq<byte>>, s: State, data: seq<byte>)
    requires c.Ok() && SentAs(c, s0, done, s.sent, s.first, s.hash)
    ensures var s' := ShaStream.SendOne(c, s, data, false);
            SentAs(c, s0, done + [data], s'.sent, s'.first, s'.hash) && s'.count == s.count
  {
    hide ShaStream.SendOne, SendAll;
    SendOneSame(c, s, SendAll(c, s0, done), data);
    SendAllSnoc(c, s0, done, data);
  }

  lemma PrependSnoc(done: seq<seq<byte>>, chunk: seq<byte>, p: Plan)
    ensures Prepend(done, Plan([chunk] + p.chunks, p.rest)) == Prepend(done + [chunk], p)
  {
    assert done + ([chunk] + p.chunks) == done + [chunk] + p.chunks;
  }

  /** Sending whole tasks neither looks at nor touches what is held, counted or to be realigned. */
  lemma {:induction false} SendAllFrame(c: Config, s: State, chunks: seq<seq<byte>>, held: seq<byte>, count: nat, align: bool)
    requires c.Ok()
    ensures SendAll(c, s.(held := held, count := count, align := align), chunks)
         == SendAll(c, s, chunks).(held := held, count := count, align := align)
  {
    if chunks != [] {
      SendAllFrame(c, s, chunks[..|chunks| - 1], held, count, align);
    }
  }

  lemma AfterPlanFrame(c: Config, s: State, p: Plan, n: nat, align: bool)
    requires c.Ok()
    ensures forall b :: AfterPlan(c, s.(align := align), p, n, b) == AfterPlan(c, s, p, n, b)
  {
    SendAllFrame(c, s, p.chunks, s.held, s.count, align);
  }
}
