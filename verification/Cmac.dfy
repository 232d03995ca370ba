/**
 Cutting a CMAC request into whole blocks, which go to the engine as descriptors, and the last
 block, which travels inside the message and is copied out of the scatterlist in place.
 */
module Cmac {
  import opened Common
  import D = Descriptors

  const AES_BLOCK: nat := 16

  /** Blocks sent by descriptor, and bytes in the last block. */
  function SplitRequest(nbytes: nat, isLast: bool): (nat, nat) {
    var blocks := nbytes / AES_BLOCK;
    if !isLast then (blocks, 0)
    else if nbytes % AES_BLOCK != 0 || blocks == 0 then (blocks, nbytes % AES_BLOCK)
    else (blocks - 1, AES_BLOCK)
  }

  /**
   The split of RFC 4493, section 2.4: the message is ceil(len/16) blocks (one, if it is empty), all
   but the last are whole, and the last is whole exactly when it is flagged complete.
   */
  lemma SplitIsRfc4493(nbytes: nat)
    ensures var (blocks, last) := SplitRequest(nbytes, true);
            var n := if nbytes == 0 then 1 else (nbytes + 15) / 16;
            var complete := nbytes > 0 && nbytes % 16 == 0;
            && blocks == n - 1
            && last == nbytes - 16 * blocks <= 16
            && (last == 16 <==> complete)
            && (last == 0 <==> nbytes == 0)
  {
  }

  /**
   A request that is not the last sends all its whole blocks and keeps no last block; nothing of it
   is dropped exactly when it is whole blocks.
   */
  lemma SplitUpdate(nbytes: nat)
    ensures var (blocks, last) := SplitRequest(nbytes, false);
            && last == 0
            && 16 * blocks <= nbytes < 16 * blocks + 16
            && (16 * blocks + last == nbytes <==> nbytes % 16 == 0)
  {
    DivModUnique(nbytes, 16, nbytes / 16, nbytes % 16);
  }

  /** Two requests of whole blocks split as their concatenation does: the last block belongs to the second alone. */
  lemma SplitInTwo(first: nat, second: nat)
    requires first % 16 == 0 && second > 0
    ensures var (b1, l1) := SplitRequest(first, false); var (b2, l2) := SplitRequest(second, true);
            (b1 + b2, l1 + l2) == SplitRequest(first + second, true)
  {
    var q := first / 16;
    DivModUnique(first + second, 16, q + second / 16, second % 16);
  }

  // ---------------------------------------------------------------- the last block

  /** What lies before the segment walk's position, and what of the last block was copied from it. */
  ghost predicate Copied(m: seq<byte>, last: nat, total: nat, out: seq<byte>, left: nat) {
    && total <= |m| && last <= |m|
    && |out| + left == last
    && (if |m| - total >= last then out == [] else out == m[|m| - last..total])
  }

  /**
   The walk over the mapped segments of the list. Each segment gives the bytes of it that fall
   into the last `last` bytes of the message; `lastblock` is written in place.
   */
  method CopyLastBlock(segments: seq<seq<byte>>, nbytes: nat, last: nat, lastblock: array<byte>)
    requires nbytes <= |Concat(segments)| && last <= nbytes && last <= lastblock.Length
    modifies lastblock
    ensures lastblock[..last] == Concat(segments)[nbytes - last..nbytes]
    ensures lastblock[last..] == old(lastblock[last..])
  {
    hide Concat, Copied;
    ghost var m := Concat(segments)[..nbytes];
    var k: nat, total: nat, tempLen: nat, at: nat := 0, 0, last, 0;
    ghost var walked := WalkStart(segments);
    CopiedNone(m, last);
    assert lastblock[..0] == [];
    while k < |segments| && total < nbytes
      invariant k <= |segments| && Concat(segments[..k]) == walked && walked <= Concat(segments)
      invariant total == Min(|walked|, nbytes) && at + tempLen == last
      invariant Copied(m, last, total, lastblock[..at], tempLen)
      invariant lastblock[last..] == old(lastblock[last..])
    {
      var seg := segments[k];
      walked := WalkStep(segments, k);
      var len: nat := Min(|seg|, nbytes - total);
      SegmentOf(Concat(segments), Concat(segments[..k]), seg, nbytes, len);
      tempLen, at := TakeSegment(seg, len, nbytes, last, total, tempLen, at, lastblock, m);
      total, k := total + len, k + 1;
    }
    WalkEnd(segments, k);
    CopiedAll(m, last, lastblock[..at], tempLen);
  }

  /** The copy of one segment, of which `len` bytes belong to the request. */
  method TakeSegment(seg: seq<byte>, len: nat, nbytes: nat, last: nat, total: nat, tempLen0: nat, at0: nat,
                     lastblock: array<byte>, ghost m: seq<byte>) returns (tempLen: nat, at: nat)
    requires at0 + tempLen0 == last <= lastblock.Length && len <= |seg| && total + len <= nbytes == |m|
    requires m[total..total + len] == seg[..len] && Copied(m, last, total, lastblock[..at0], tempLen0)
    modifies lastblock
    ensures at + tempLen == last && Copied(m, last, total + len, lastblock[..at], tempLen)
    ensures lastblock[last..] == old(lastblock[last..])
  {
    hide Copied;
    tempLen, at := tempLen0, at0;
    ghost var due := CopiedStep(m, last, total, lastblock[..at], tempLen, seg[..len]);
    if nbytes - (total + len) <= tempLen {
      var bytesToCopy := tempLen - (nbytes - (total + len));
      Place(lastblock, at, seg[len - bytesToCopy..len], last);
      assert seg[..len][len - due..] == seg[len - bytesToCopy..len];
      tempLen, at := tempLen - bytesToCopy, at + bytesToCopy;
    } else {
      assert lastblock[..at] + seg[..len][len..] == lastblock[..at];
    }
  }

  lemma CopiedNone(m: seq<byte>, last: nat)
    requires last <= |m|
    ensures Copied(m, last, 0, [], last)
  {
  }

  /** memcpy into the buffer; nothing from index `limit` on is touched. */
  method Place(buf: array<byte>, at: nat, data: seq<byte>, limit: nat)
    requires at + |data| <= limit <= buf.Length
    modifies buf
    ensures buf[..at + |data|] == old(buf[..at]) + data
    ensures buf[limit..] == old(buf[limit..])
  {
    forall i | 0 <= i < |data| {
      buf[at + i] := data[i];
    }
  }

  /** The driver's copy length for a segment never exceeds the segment, and copies what is due of it. */
  lemma CopiedStep(m: seq<byte>, last: nat, total: nat, out: seq<byte>, left: nat, seg: seq<byte>) returns (n: nat)
    requires Copied(m, last, total, out, left)
    requires total + |seg| <= |m| && m[total..total + |seg|] == seg
    ensures var ahead := |m| - (total + |seg|);
            n == if ahead <= left then left - ahead else 0
    ensures n <= |seg| && n <= left && Copied(m, last, total + |seg|, out + seg[|seg| - n..], left - n)
  {
    var ahead := |m| - (total + |seg|);
    n := if ahead <= left then left - ahead else 0;
    if n > 0 {
      assert seg[|seg| - n..] == m[total + |seg| - n..total + |seg|];
      if out != [] {
        SliceJoin(m, |m| - last, total, total + |seg|);
      }
    } else {
      assert out + seg[|seg|..] == out;
    }
  }

  lemma CopiedAll(m: seq<byte>, last: nat, out: seq<byte>, left: nat)
    requires Copied(m, last, |m|, out, left)
    ensures left == 0 && out == m[|m| - last..]
  {
  }

  lemma SegmentOf(all: seq<byte>, before: seq<byte>, seg: seq<byte>, nbytes: nat, len: nat)
    requires before + seg <= all && nbytes <= |all| && len <= |seg| && |before| + len <= nbytes
    ensures all[..nbytes][|before|..|before| + len] == seg[..len]
  {
  }

  lemma WalkStart(segments: seq<seq<byte>>) returns (walked: seq<byte>)
    ensures walked == [] == Concat(segments[..0]) && walked <= Concat(segments)
  {
    walked := [];
  }

  lemma WalkStep(segments: seq<seq<byte>>, k: nat) returns (walked: seq<byte>)
    requires k < |segments|
    ensures walked == Concat(segments[..k + 1]) == Concat(segments[..k]) + segments[k]
    ensures walked <= Concat(segments)
  {
    walked := Concat(segments[..k]) + segments[k];
    assert segments[..k + 1][..k] == segments[..k];
    assert segments == segments[..k + 1] + segments[k + 1..];
    ConcatAppend(segments[..k + 1], segments[k + 1..]);
  }

  lemma WalkEnd(segments: seq<seq<byte>>, k: nat)
    requires k <= |segments|
    ensures k == |segments| ==> segments[..k] == segments
  {
  }

  // ---------------------------------------------------------------- what the engine reads

  /** The one descriptor that is sent: the address of the first piece, and the length of all whole blocks. */
  ghost function SentDescriptor(lens: seq<nat>, blocks: nat): D.Piece
    requires D.ListPieces(lens, 0, blocks * AES_BLOCK, AES_BLOCK) != []
  {
    D.Piece(D.ListPieces(lens, 0, blocks * AES_BLOCK, AES_BLOCK)[0].entry, 0, blocks * AES_BLOCK)
  }

  /** What the engine reads through a descriptor; `beyond` is what its address space holds behind the entry. */
  ghost function EngineReads(entries: seq<seq<byte>>, d: D.Piece, beyond: seq<byte>): seq<byte>
    requires d.entry < |entries| && |beyond| >= d.length
  {
    (entries[d.entry] + beyond)[..d.length]
  }

  /** Descriptor and last block give the engine the message, whatever lies behind the entry that is pointed to. */
  ghost predicate Delivered(entries: seq<seq<byte>>, nbytes: nat)
    requires 0 < nbytes <= |Concat(entries)|
  {
    var (blocks, last) := SplitRequest(nbytes, true);
    var m := Concat(entries)[..nbytes];
    blocks == 0 ||
    (blocks * AES_BLOCK < D.MAX_BUFFER_SIZE
     && D.ListPieces(D.Lengths(entries), 0, blocks * AES_BLOCK, AES_BLOCK) != []
     && var d := SentDescriptor(D.Lengths(entries), blocks);
        d.entry < |entries| && Completes(entries, d, m[nbytes - last..], m))
  }

  ghost predicate Completes(entries: seq<seq<byte>>, d: D.Piece, tail: seq<byte>, m: seq<byte>)
    requires d.entry < |entries|
  {
    forall beyond: seq<byte> | |beyond| >= d.length :: EngineReads(entries, d, beyond) + tail == m
  }

  lemma DescriptorFits(entries: seq<seq<byte>>, total: nat, d: D.Piece, beyond: seq<byte>)
    requires 0 < total < D.MAX_BUFFER_SIZE && total <= |Concat(entries)| && d.entry < |entries|
    requires D.ListPieces(D.Lengths(entries), 0, total, AES_BLOCK) == [d] && d == D.Piece(d.entry, 0, total)
    requires |beyond| >= total
    ensures EngineReads(entries, d, beyond) == Concat(entries)[..total]
  {
    D.ListPiecesRead(entries, 0, total, AES_BLOCK);
    assert entries[0..] == entries;
    assert D.Read(entries, [d]) == D.PieceBytes(entries, d) + D.Read(entries, []) by { assert [d][1..] == []; }
    assert D.Within(entries, [d][0]);
  }

  /** If the entry is too short, something behind it would make the engine read another message. */
  lemma DescriptorTooLong(entries: seq<seq<byte>>, d: D.Piece, m: seq<byte>, tail: seq<byte>) returns (beyond: seq<byte>)
    requires d.entry < |entries| && |entries[d.entry]| < d.length <= |m|
    ensures |beyond| == d.length && EngineReads(entries, d, beyond) + tail != m
  {
    var n := |entries[d.entry]|;
    var other: byte := if m[n] == 0 then 1 else 0;
    beyond := seq(d.length, _ => other);
    assert EngineReads(entries, d, beyond)[n] == other;
  }

  /**
   The engine gets the message exactly when the whole blocks lie in the first entry that is not empty
   and stay below 2 to the 24: further pieces of the list are never sent.
   */
  lemma DeliveredExactly(entries: seq<seq<byte>>, nbytes: nat)
    requires 0 < nbytes <= |Concat(entries)|
    ensures Delivered(entries, nbytes)
       <==> D.Fits(D.Lengths(entries), 0, SplitRequest(nbytes, true).0 * AES_BLOCK)
    ensures Delivered(entries, nbytes)
       <==> |D.ListPieces(D.Lengths(entries), 0, SplitRequest(nbytes, true).0 * AES_BLOCK, AES_BLOCK)| <= 1
  {
    var (blocks, last) := SplitRequest(nbytes, true);
    var lens, total, m := D.Lengths(entries), blocks * AES_BLOCK, Concat(entries)[..nbytes];
    SplitIsRfc4493(nbytes);
    D.SumIsLength(entries, 0);
    assert entries[0..] == entries;
    D.OnePieceExactly(lens, 0, total, AES_BLOCK);
    if D.Fits(lens, 0, total) {
      D.FitsIsShort(lens, 0, total);
    }
    if 0 < total < D.MAX_BUFFER_SIZE {
      D.FirstPiece(lens, 0, total, AES_BLOCK);
      var d := SentDescriptor(lens, blocks);
      if D.Fits(lens, 0, total) {
        FitsCompletes(entries, nbytes, d);
      } else {
        var beyond := DescriptorTooLong(entries, d, m, m[nbytes - last..]);
        assert !Completes(entries, d, m[nbytes - last..], m);
      }
    }
  }

  lemma FitsCompletes(entries: seq<seq<byte>>, nbytes: nat, d: D.Piece)
    requires d.entry < |entries| && 0 < d.length <= nbytes <= |Concat(entries)| && d.length < D.MAX_BUFFER_SIZE
    requires D.ListPieces(D.Lengths(entries), 0, d.length, AES_BLOCK) == [d] && d.offset == 0
    ensures Completes(entries, d, Concat(entries)[..nbytes][d.length..], Concat(entries)[..nbytes])
  {
    forall beyond: seq<byte> | |beyond| >= d.length
      ensures EngineReads(entries, d, beyond) + Concat(entries)[..nbytes][d.length..] == Concat(entries)[..nbytes]
    {
      DescriptorFits(entries, d.length, d, beyond);
      TwoParts(Concat(entries), d.length, nbytes);
    }
  }

  lemma TwoParts(all: seq<byte>, k: nat, n: nat)
    requires k <= n <= |all|
    ensures all[..k] + all[..n][k..] == all[..n]
  {
  }

  // ---------------------------------------------------------------- requests of the character device

  const CHUNK: nat := 0x10_0000

  /** The entries of the character device's table for a request of n bytes below 2 MiB. */
  function DeviceLengths(n: nat): (lens: seq<nat>)
    requires n < 2 * CHUNK
    ensures |lens| == n / CHUNK + 1 && D.Sum(lens, 0) == n && (forall k | 0 <= k < |lens| - 1 :: lens[k] == CHUNK)
  {
    assert n >= CHUNK ==> D.Sum([CHUNK, n - CHUNK], 1) == n - CHUNK;
    if n < CHUNK then [n] else [CHUNK, n - CHUNK]
  }

  /** A request the driver accepts reaches the engine whole exactly up to 1 MiB and one block; only then is the second store avoided. */
  lemma DeviceRequests(entries: seq<seq<byte>>, n: nat)
    requires 0 < n < 2 * CHUNK && D.Lengths(entries) == DeviceLengths(n) && n <= |Concat(entries)|
    ensures Delivered(entries, n) <==> n <= CHUNK + AES_BLOCK
    ensures |D.ListPieces(D.Lengths(entries), 0, SplitRequest(n, true).0 * AES_BLOCK, AES_BLOCK)| <= 1 <==> n <= CHUNK + AES_BLOCK
  {
    var total := SplitRequest(n, true).0 * AES_BLOCK;
    DeliveredExactly(entries, n);
    DeviceFits(n, total);
  }

  lemma DeviceFits(n: nat, total: nat)
    requires 0 < n < 2 * CHUNK && total == SplitRequest(n, true).0 * AES_BLOCK
    ensures D.Fits(DeviceLengths(n), 0, total) <==> n <= CHUNK + AES_BLOCK
  {
    SplitIsRfc4493(n);
  }

  /** 1 MiB and 32 bytes: two pieces, one descriptor, and 16 bytes the engine never sees. */
  lemma DeviceRequestCutShort(entries: seq<seq<byte>>)
    requires |entries| == 2 && |entries[0]| == CHUNK && |entries[1]| == 32
    ensures |Concat(entries)| == CHUNK + 32 && SplitRequest(CHUNK + 32, true) == (0x1_0001, AES_BLOCK)
    ensures D.ListPieces(D.Lengths(entries), 0, 0x1_0001 * AES_BLOCK, AES_BLOCK) == [D.Piece(0, 0, CHUNK), D.Piece(1, 0, 16)]
    ensures !Delivered(entries, CHUNK + 32)
  {
    var lens := D.Lengths(entries);
    assert lens == [CHUNK, 32];
    D.SumIsLength(entries, 0);
    assert entries[0..] == entries;
    assert D.Sum(lens, 1) == 32;
    D.ListStep(lens, 0, 0x10_0010, AES_BLOCK);
    D.ListStep(lens, 1, 16, AES_BLOCK);
    DeliveredExactly(entries, CHUNK + 32);
  }
}
