/**
 The character device's chunk tables: user data is laid across fixed-size chunks, in place, and
 the AEAD layout assoc data || text || tag is filled in and unpicked chunk by chunk.
 A table is an array of chunks; `c` is the chunk size.
 */
module ChunkedBuffers {
  import opened Common

  const NVVSE_MAX_CHUNKS: nat := 33
  const NVVSE_CHUNK_SIZE: nat := 1024 * 1024
  const GCM_PT_MAX_LEN: nat := 16 * 1024 * 1024 - 1
  const GCM_AAD_MAX_LEN: nat := 16 * 1024 * 1024 - 1
  const TAG_SIZE: nat := 16

  datatype Status = OK | EINVAL | ENOMEM

  // ---------------------------------------------------------------- chunks of a user buffer

  lemma ChunkFits(i: nat, c: nat, len: nat)
    requires c > 0 && i < len / c
    ensures (i + 1) * c == i * c + c <= len
  {
    var rest := len / c - (i + 1);
    assert rest * c >= 0;
    assert len / c * c == (i + 1) * c + rest * c;
  }

  /** Chunk i of a user buffer: `src + i * c`, c bytes long. */
  function Chunk(src: seq<byte>, c: nat, i: nat): (r: seq<byte>)
    requires c > 0 && i < |src| / c
    ensures |r| == c
  {
    ChunkFits(i, c, |src|);
    src[i * c..i * c + c]
  }

  /** The first i chunks of a user buffer. */
  function Head(src: seq<byte>, c: nat, i: nat): (r: seq<byte>)
    requires c > 0 && i <= |src| / c
    ensures |r| <= |src|
  {
    if i == 0 then [] else ChunkFits(i - 1, c, |src|); src[..i * c]
  }

  /** What is left of a user buffer behind its whole chunks. */
  function Tail(src: seq<byte>, c: nat): (r: seq<byte>)
    requires c > 0
    ensures |r| == |src| % c
  {
    src[|src| - |src| % c..]
  }

  lemma HeadNext(src: seq<byte>, c: nat, i: nat)
    requires c > 0 && i < |src| / c
    ensures Head(src, c, i + 1) == Head(src, c, i) + Chunk(src, c, i)
  {
    ChunkFits(i, c, |src|);
    assert Head(src, c, i) == src[..i * c];
  }

  lemma HeadTail(src: seq<byte>, c: nat)
    requires c > 0
    ensures Head(src, c, |src| / c) + Tail(src, c) == src
  {
    assert Head(src, c, |src| / c) == src[..|src| - |src| % c];
  }

  // ---------------------------------------------------------------- positions in a table

  ghost predicate Uniform(cs: seq<seq<byte>>, c: nat) { forall i | 0 <= i < |cs| :: |cs[i]| == c }

  lemma {:induction false} UniformLength(cs: seq<seq<byte>>, c: nat)
    requires Uniform(cs, c)
    ensures |Concat(cs)| == |cs| * c
  {
    if cs != [] {
      var n := |cs| - 1;
      UniformLength(cs[..n], c);
      assert (n + 1) * c == n * c + c;
    }
  }

  /** The first `idx` chunks and `off` bytes of the next hold exactly `m`. */
  ghost predicate Filled(cs: seq<seq<byte>>, c: nat, idx: nat, off: nat, m: seq<byte>) {
    && Uniform(cs, c) && idx < |cs| && off <= c
    && Concat(cs[..idx]) + cs[idx][..off] == m
  }

  function Written(cs: seq<seq<byte>>, idx: nat, at: nat, data: seq<byte>): (r: seq<seq<byte>>)
    requires idx < |cs| && at + |data| <= |cs[idx]|
    ensures |r| == |cs|
  {
    cs[idx := cs[idx][..at] + data + cs[idx][at + |data|..]]
  }

  lemma FilledBounds(cs: seq<seq<byte>>, c: nat, idx: nat, off: nat, m: seq<byte>)
    requires Filled(cs, c, idx, off, m)
    ensures idx < |cs| && off <= c && |cs[idx]| == c
  {
  }

  lemma FilledNone(cs: seq<seq<byte>>, c: nat)
    requires Uniform(cs, c) && cs != []
    ensures Filled(cs, c, 0, 0, [])
  {
  }

  lemma FilledLength(cs: seq<seq<byte>>, c: nat, idx: nat, off: nat, m: seq<byte>)
    requires Filled(cs, c, idx, off, m)
    ensures |m| == idx * c + off
  {
    UniformLength(cs[..idx], c);
  }

  lemma FilledWrite(cs: seq<seq<byte>>, c: nat, idx: nat, off: nat, m: seq<byte>, data: seq<byte>)
    requires Filled(cs, c, idx, off, m) && off + |data| <= c
    ensures Filled(Written(cs, idx, off, data), c, idx, off + |data|, m + data)
  {
    var w := Written(cs, idx, off, data);
    assert w[..idx] == cs[..idx];
    assert w[idx][..off + |data|] == cs[idx][..off] + data;
    Assoc(Concat(cs[..idx]), cs[idx][..off], data);
  }

  lemma FilledRead(cs: seq<seq<byte>>, c: nat, idx: nat, off: nat, m: seq<byte>, k: nat)
    requires Filled(cs, c, idx, off, m) && off + k <= c
    ensures Filled(cs, c, idx, off + k, m + cs[idx][off..off + k])
  {
    assert cs[idx][..off + k] == cs[idx][..off] + cs[idx][off..off + k];
    Assoc(Concat(cs[..idx]), cs[idx][..off], cs[idx][off..off + k]);
  }

  lemma FilledNext(cs: seq<seq<byte>>, c: nat, idx: nat, m: seq<byte>)
    requires Filled(cs, c, idx, c, m) && idx + 1 < |cs|
    ensures Filled(cs, c, idx + 1, 0, m)
  {
    assert cs[..idx + 1][..idx] == cs[..idx];
    assert cs[idx][..c] == cs[idx];
    assert m + cs[idx + 1][..0] == m;
  }

  lemma MoreChunks(a: nat, b: nat, c: nat)
    requires a >= b
    ensures a * c >= b * c
  {
  }

  lemma LessChunks(a: nat, b: nat, c: nat)
    requires a * c < b * c
    ensures a < b
  {
    if a >= b {
      MoreChunks(a, b, c);
    }
  }

  /** A table of size / c + 1 chunks has a next chunk whenever this one is full and all of it fits. */
  lemma HasNext(cs: seq<seq<byte>>, c: nat, idx: nat, m: seq<byte>, size: nat)
    requires c > 0 && Filled(cs, c, idx, c, m) && |m| <= size && |cs| == size / c + 1
    ensures Filled(cs, c, idx + 1, 0, m)
  {
    FilledLength(cs, c, idx, c, m);
    assert (idx + 1) * c == idx * c + c <= size < (size / c + 1) * c;
    LessChunks(idx + 1, |cs|, c);
    FilledNext(cs, c, idx, m);
  }

  lemma {:induction false} ConcatTake(cs: seq<seq<byte>>, k: nat)
    requires k < |cs|
    ensures Concat(cs[..k]) + cs[k] <= Concat(cs)
  {
    assert cs == cs[..k + 1] + cs[k + 1..];
    ConcatAppend(cs[..k + 1], cs[k + 1..]);
    assert cs[..k + 1][..k] == cs[..k];
  }

  lemma FilledPrefix(cs: seq<seq<byte>>, c: nat, idx: nat, off: nat, m: seq<byte>)
    requires Filled(cs, c, idx, off, m)
    ensures m <= Concat(cs)
  {
    ConcatTake(cs, idx);
    assert m <= Concat(cs[..idx]) + cs[idx];
  }

  lemma FewerChunks(n: nat, size: nat, c: nat)
    requires c > 0 && n <= size
    ensures n / c < size / c + 1
  {
    assert n / c * c <= n <= size < (size / c + 1) * c;
    LessChunks(n / c, size / c + 1, c);
  }

  lemma SumOfDivMod(n: nat, c: nat)
    requires c > 0
    ensures n / c * c + n % c == n
  {
  }

  lemma FilledAt(cs: seq<seq<byte>>, c: nat, n: nat, size: nat) returns (m: seq<byte>)
    requires c > 0 && Uniform(cs, c) && n <= size && |cs| == size / c + 1
    ensures Filled(cs, c, n / c, n % c, m) && |m| == n
  {
    FewerChunks(n, size, c);
    m := Concat(cs[..n / c]) + cs[n / c][..n % c];
    FilledLength(cs, c, n / c, n % c, m);
    SumOfDivMod(n, c);
  }

  /** What the scatterlist over the table spans: whole chunks, the last entry cut to size % c. */
  ghost function SgBytes(cs: seq<seq<byte>>, c: nat, size: nat): (r: seq<byte>)
    requires c > 0 && |cs| == size / c + 1 && Uniform(cs, c)
    ensures |r| == size
  {
    UniformLength(cs[..size / c], c);
    Concat(cs[..size / c]) + cs[size / c][..size % c]
  }

  lemma SgIsFilled(cs: seq<seq<byte>>, c: nat, size: nat)
    requires c > 0 && |cs| == size / c + 1 && Uniform(cs, c)
    ensures Filled(cs, c, size / c, size % c, SgBytes(cs, c, size))
  {
  }

  /** What has been read or written so far is a prefix of what the scatterlist spans. */
  lemma FilledIsSg(cs: seq<seq<byte>>, c: nat, idx: nat, off: nat, m: seq<byte>, size: nat)
    requires c > 0 && Filled(cs, c, idx, off, m) && |cs| == size / c + 1 && |m| <= size
    ensures m == SgBytes(cs, c, size)[..|m|]
    ensures |m| == size ==> m == SgBytes(cs, c, size)
  {
    SgIsFilled(cs, c, size);
    FilledPrefix(cs, c, idx, off, m);
    FilledPrefix(cs, c, size / c, size % c, SgBytes(cs, c, size));
  }

  // ---------------------------------------------------------------- allocating a table

  /** The table has size / c + 1 chunks of c zero bytes, unless that is more than the driver holds. */
  method AllocBuf(c: nat, size: nat) returns (ret: Status, buf: array<seq<byte>>)
    requires c > 0
    ensures fresh(buf)
    ensures ret == OK <==> size / c + 1 <= NVVSE_MAX_CHUNKS
    ensures ret == OK || ret == ENOMEM
    ensures ret == OK ==> buf.Length == size / c + 1 && Uniform(buf[..], c)
    ensures ret == OK ==> forall i, j | 0 <= i < buf.Length && 0 <= j < |buf[i]| :: buf[i][j] == 0
  {
    var nents := size / c + 1;
    if nents > NVVSE_MAX_CHUNKS {
      buf := new seq<byte>[0];
      return ENOMEM, buf;
    }
    buf := new seq<byte>[nents];
    for i := 0 to nents
      invariant forall k | 0 <= k < i :: |buf[k]| == c && forall j | 0 <= j < c :: buf[k][j] == 0
    {
      buf[i] := seq(c, _ => 0);
    }
    ret := OK;
  }

  /** Every AEAD request the length checks let through fits the chunk table, and 33 is needed. */
  lemma AeadTablesFit(aad: nat, data: nat)
    requires aad <= GCM_AAD_MAX_LEN && data <= GCM_PT_MAX_LEN
    ensures (aad + data + TAG_SIZE) / NVVSE_CHUNK_SIZE + 1 <= NVVSE_MAX_CHUNKS
    ensures aad == GCM_AAD_MAX_LEN && data == GCM_PT_MAX_LEN ==>
              (aad + data) / NVVSE_CHUNK_SIZE + 1 == NVVSE_MAX_CHUNKS - 1
              && (aad + data + TAG_SIZE) / NVVSE_CHUNK_SIZE + 1 == NVVSE_MAX_CHUNKS
  {
  }

  // ---------------------------------------------------------------- filling a table

  method CopyFromUser(buf: array<seq<byte>>, c: nat, idx: nat, at: nat, data: seq<byte>, ghost m: seq<byte>)
    requires Filled(buf[..], c, idx, at, m) && at + |data| <= c
    modifies buf
    ensures buf[..] == Written(old(buf[..]), idx, at, data)
    ensures Filled(buf[..], c, idx, at + |data|, m + data)
  {
    FilledWrite(buf[..], c, idx, at, m, data);
    buf[idx] := buf[idx][..at] + data + buf[idx][at + |data|..];
  }

  method CopyChunk(buf: array<seq<byte>>, c: nat, idx: nat, src: seq<byte>, i: nat, ghost m: seq<byte>, ghost size: nat)
    requires c > 0 && i < |src| / c && Filled(buf[..], c, idx, 0, m + Head(src, c, i))
    requires |m| + |src| <= size && buf.Length == size / c + 1
    modifies buf
    ensures Filled(buf[..], c, idx + 1, 0, m + Head(src, c, i + 1))
  {
    hide *;
    CopyFromUser(buf, c, idx, 0, Chunk(src, c, i), m + Head(src, c, i));
    Assoc(m, Head(src, c, i), Chunk(src, c, i));
    HeadNext(src, c, i);
    HasNext(buf[..], c, idx, m + Head(src, c, i + 1), size);
  }

  /**
   Whole chunks first, then the rest, from the start of chunk idx0 on: the loops that copy the
   assoc data, the text behind a partly filled chunk, and a plain user buffer.
   */
  method CopyChunks(buf: array<seq<byte>>, c: nat, idx0: nat, src: seq<byte>, ghost m: seq<byte>, ghost size: nat)
    returns (idx: nat, offset: nat)
    requires c > 0 && Filled(buf[..], c, idx0, 0, m) && |m| + |src| <= size && buf.Length == size / c + 1
    modifies buf
    ensures Filled(buf[..], c, idx, offset, m + src) && offset == |src| % c
  {
    idx := idx0;
    var n := |src| / c;
    assert m + Head(src, c, 0) == m;
    hide Filled, Uniform, Concat, Chunk, Head, Tail, Written;
    for i := 0 to n
      invariant Filled(buf[..], c, idx, 0, m + Head(src, c, i))
    {
      CopyChunk(buf, c, idx, src, i, m, size);
      idx := idx + 1;
    }
    offset := 0;
    HeadTail(src, c);
    Assoc(m, Head(src, c, n), Tail(src, c));
    if |src| % c != 0 {
      CopyFromUser(buf, c, idx, 0, Tail(src, c), m + Head(src, c, n));
      offset := |src| % c;
    } else {
      assert Tail(src, c) == [];
    }
  }

  /** The text behind the assoc data: top up a partly filled chunk, then copy chunk by chunk. */
  method CopyText(buf: array<seq<byte>>, c: nat, idx0: nat, offset0: nat, src: seq<byte>,
                  ghost m: seq<byte>, ghost size: nat)
    returns (idx: nat, offset: nat)
    requires c > 0 && Filled(buf[..], c, idx0, offset0, m) && offset0 < c
    requires |m| + |src| <= size && buf.Length == size / c + 1
    modifies buf
    ensures Filled(buf[..], c, idx, offset, m + src)
  {
    hide Filled, Uniform, Concat, Written;
    idx, offset := idx0, offset0;
    var copied := 0;
    assert m + src[..0] == m;
    if offset != 0 && |src| != 0 {
      copied := Min(c - offset, |src|);
      CopyFromUser(buf, c, idx, offset, src[..copied], m);
      if copied == |src| {
        offset := offset + copied;
      } else {
        HasNext(buf[..], c, idx, m + src[..copied], size);
        offset := 0;
        idx := idx + 1;
      }
    }
    SplitAt(src, copied);
    Assoc(m, src[..copied], src[copied..]);
    if |src| - copied > 0 {
      idx, offset := CopyChunks(buf, c, idx, src[copied..], m + src[..copied], size);
    } else {
      assert src[..copied] == src;
    }
  }

  /** The tag goes behind the text in one piece, or straddles the edge of its chunk. */
  method CopyTag(buf: array<seq<byte>>, c: nat, idx: nat, offset: nat, tag: seq<byte>,
                 ghost m: seq<byte>, ghost size: nat) returns (ghost last: nat, ghost end: nat)
    requires c > TAG_SIZE && |tag| == TAG_SIZE && Filled(buf[..], c, idx, offset, m)
    requires |m| + TAG_SIZE <= size && buf.Length == size / c + 1
    modifies buf
    ensures Filled(buf[..], c, last, end, m + tag)
  {
    FilledBounds(buf[..], c, idx, offset, m);
    hide Filled, Uniform, Concat, Written;
    if c - offset > TAG_SIZE {
      CopyFromUser(buf, c, idx, offset, tag, m);
      last, end := idx, offset + TAG_SIZE;
    } else {
      var copied := c - offset;
      CopyFromUser(buf, c, idx, offset, tag[..copied], m);
      HasNext(buf[..], c, idx, m + tag[..copied], size);
      CopyFromUser(buf, c, idx + 1, 0, tag[copied..], m + tag[..copied]);
      SplitAt(tag, copied);
      Assoc(m, tag[..copied], tag[copied..]);
      last, end := idx + 1, TAG_SIZE - copied;
    }
  }

  /** What is handed to the engine: assoc data, then text, then the tag when decrypting. */
  function AeadInput(enc: bool, aad: seq<byte>, text: seq<byte>, tag: seq<byte>): seq<byte> {
    if enc then aad + text else aad + text + tag
  }

  /** The filled table spans exactly assoc data || text, with the tag behind them on decryption. */
  method FillInput(buf: array<seq<byte>>, c: nat, enc: bool, aad: seq<byte>, text: seq<byte>, tag: seq<byte>)
    requires c > TAG_SIZE && |tag| == TAG_SIZE && Uniform(buf[..], c)
    requires buf.Length == |AeadInput(enc, aad, text, tag)| / c + 1
    modifies buf
    ensures Uniform(buf[..], c)
    ensures SgBytes(buf[..], c, |AeadInput(enc, aad, text, tag)|) == AeadInput(enc, aad, text, tag)
  {
    ghost var size := |AeadInput(enc, aad, text, tag)|;
    FilledNone(buf[..], c);
    assert [] + aad == aad;
    var idx, offset := CopyChunks(buf, c, 0, aad, [], size);
    idx, offset := CopyText(buf, c, idx, offset, text, aad, size);
    if enc {
      FilledIsSg(buf[..], c, idx, offset, aad + text, size);
    } else {
      ghost var last, end := CopyTag(buf, c, idx, offset, tag, aad + text, size);
      FilledIsSg(buf[..], c, last, end, aad + text + tag, size);
    }
  }

  // ---------------------------------------------------------------- unpicking a table

  /** The reading twin of CopyChunks: appends len bytes from the start of chunk idx0 on to dst. */
  method ReadChunks(buf: array<seq<byte>>, c: nat, idx0: nat, len: nat, ghost m: seq<byte>, ghost size: nat)
    returns (dst: seq<byte>, idx: nat, offset: nat)
    requires c > 0 && Filled(buf[..], c, idx0, 0, m) && |m| + len <= size && buf.Length == size / c + 1
    ensures Filled(buf[..], c, idx, offset, m + dst) && |dst| == len && offset == len % c
  {
    idx, dst := idx0, [];
    var n := len / c;
    ghost var shape := seq(len, _ => 0);
    assert m + dst == m;
    hide Filled, Uniform, Concat, Chunk, Head, Tail;
    assert Head(shape, c, 0) == [] by { HeadNone(shape, c); }
    for i := 0 to n
      invariant Filled(buf[..], c, idx, 0, m + dst) && |dst| == |Head(shape, c, i)|
    {
      FilledBounds(buf[..], c, idx, 0, m + dst);
      FilledRead(buf[..], c, idx, 0, m + dst, c);
      Assoc(m, dst, buf[idx][0..c]);
      dst := dst + buf[idx][0..c];
      HeadNext(shape, c, i);
      HasNext(buf[..], c, idx, m + dst, size);
      idx := idx + 1;
    }
    offset := 0;
    HeadTail(shape, c);
    if len % c != 0 {
      FilledBounds(buf[..], c, idx, 0, m + dst);
      FilledRead(buf[..], c, idx, 0, m + dst, len % c);
      Assoc(m, dst, buf[idx][0..len % c]);
      dst := dst + buf[idx][0..len % c];
      offset := len % c;
    }
  }

  lemma HeadNone(src: seq<byte>, c: nat)
    requires c > 0
    ensures Head(src, c, 0) == []
  {
  }

  method ReadText(buf: array<seq<byte>>, c: nat, idx0: nat, offset0: nat, len: nat,
                  ghost m: seq<byte>, ghost size: nat)
    returns (dst: seq<byte>, idx: nat, offset: nat)
    requires c > 0 && Filled(buf[..], c, idx0, offset0, m) && offset0 < c
    requires |m| + len <= size && buf.Length == size / c + 1
    ensures Filled(buf[..], c, idx, offset, m + dst) && |dst| == len
  {
    FilledBounds(buf[..], c, idx0, offset0, m);
    hide Filled, Uniform, Concat;
    idx, offset, dst := idx0, offset0, [];
    assert m + dst == m;
    if offset != 0 && len != 0 {
      var copied := Min(c - offset, len);
      FilledRead(buf[..], c, idx, offset, m, copied);
      dst := buf[idx][offset..offset + copied];
      if copied == len {
        offset := offset + copied;
      } else {
        HasNext(buf[..], c, idx, m + dst, size);
        offset := 0;
        idx := idx + 1;
      }
    }
    if len - |dst| > 0 {
      var rest;
      rest, idx, offset := ReadChunks(buf, c, idx, len - |dst|, m + dst, size);
      Assoc(m, dst, rest);
      dst := dst + rest;
    }
  }

  method ReadTag(buf: array<seq<byte>>, c: nat, idx: nat, offset: nat, ghost m: seq<byte>, ghost size: nat)
    returns (tag: seq<byte>, ghost last: nat, ghost end: nat)
    requires c > TAG_SIZE && Filled(buf[..], c, idx, offset, m)
    requires |m| + TAG_SIZE <= size && buf.Length == size / c + 1
    ensures Filled(buf[..], c, last, end, m + tag) && |tag| == TAG_SIZE
  {
    FilledBounds(buf[..], c, idx, offset, m);
    hide Filled, Uniform, Concat;
    if c - offset > TAG_SIZE {
      FilledRead(buf[..], c, idx, offset, m, TAG_SIZE);
      tag := buf[idx][offset..offset + TAG_SIZE];
      last, end := idx, offset + TAG_SIZE;
    } else {
      var copied := c - offset;
      FilledRead(buf[..], c, idx, offset, m, copied);
      tag := buf[idx][offset..offset + copied];
      HasNext(buf[..], c, idx, m + tag, size);
      FilledBounds(buf[..], c, idx + 1, 0, m + tag);
      FilledRead(buf[..], c, idx + 1, 0, m + tag, TAG_SIZE - copied);
      Assoc(m, tag, buf[idx + 1][0..TAG_SIZE - copied]);
      tag := tag + buf[idx + 1][0..TAG_SIZE - copied];
      last, end := idx + 1, TAG_SIZE - copied;
    }
  }

  /** Whatever table spans assoc data || text || tag, the copier hands back exactly text and tag. */
  method ReadOutput(buf: array<seq<byte>>, c: nat, enc: bool, aadLength: nat, dataLength: nat, ghost size: nat)
    returns (text: seq<byte>, tag: seq<byte>)
    requires c > TAG_SIZE && Uniform(buf[..], c) && buf.Length == size / c + 1
    requires size == aadLength + dataLength + if enc then TAG_SIZE else 0
    ensures |text| == dataLength && |tag| == if enc then TAG_SIZE else 0
    ensures exists aad: seq<byte> :: |aad| == aadLength && SgBytes(buf[..], c, size) == aad + text + tag
  {
    ghost var aad := FilledAt(buf[..], c, aadLength, size);
    var idx, offset := aadLength / c, aadLength % c;
    text, idx, offset := ReadText(buf, c, idx, offset, dataLength, aad, size);
    if enc {
      ghost var last, end;
      tag, last, end := ReadTag(buf, c, idx, offset, aad + text, size);
      FilledIsSg(buf[..], c, last, end, aad + text + tag, size);
    } else {
      tag := [];
      assert aad + text + tag == aad + text;
      FilledIsSg(buf[..], c, idx, offset, aad + text, size);
    }
    assert |aad| == aadLength && SgBytes(buf[..], c, size) == aad + text + tag;
  }

  lemma SameParts(a: seq<byte>, b: seq<byte>, t: seq<byte>, a': seq<byte>, b': seq<byte>, t': seq<byte>)
    requires a + b + t == a' + b' + t' && |a| == |a'| && |b| == |b'|
    ensures a == a' && b == b' && t == t'
  {
    var s := a + b + t;
    assert a == s[..|a|] && b == s[|a|..|a| + |b|] && t == s[|a| + |b|..];
    assert a' == s[..|a|] && b' == s[|a|..|a| + |b|] && t' == s[|a| + |b|..];
  }

  /** A table filled as decryption input is read back, as encryption output, unchanged. */
  method LayoutRoundTrip(c: nat, aad: seq<byte>, text: seq<byte>, tag: seq<byte>)
    returns (ret: Status, text': seq<byte>, tag': seq<byte>)
    requires c > TAG_SIZE && |tag| == TAG_SIZE
    ensures ret == OK <==> |aad + text + tag| / c + 1 <= NVVSE_MAX_CHUNKS
    ensures ret == OK ==> text' == text && tag' == tag
  {
    var buf;
    ret, buf := AllocBuf(c, |aad + text + tag|);
    text', tag' := [], [];
    if ret == OK {
      FillInput(buf, c, false, aad, text, tag);
      text', tag' := ReadOutput(buf, c, true, |aad|, |text|, |aad + text + tag|);
      ghost var aad': seq<byte> :| |aad'| == |aad| && SgBytes(buf[..], c, |aad + text + tag|) == aad' + text' + tag';
      SameParts(aad, text, tag, aad', text', tag');
    }
  }

  // ---------------------------------------------------------------- plain user buffers

  method CopyUserBuf(buf: array<seq<byte>>, c: nat, kernSize: nat, src: seq<byte>) returns (ret: Status)
    requires c > 0 && Uniform(buf[..], c) && buf.Length == kernSize / c + 1
    modifies buf
    ensures ret == if |src| > kernSize then EINVAL else OK
    ensures ret == EINVAL ==> buf[..] == old(buf[..])
    ensures Uniform(buf[..], c)
    ensures ret == OK ==> SgBytes(buf[..], c, kernSize)[..|src|] == src
  {
    if |src| > kernSize {
      return EINVAL;
    }
    FilledNone(buf[..], c);
    var idx, offset := CopyChunks(buf, c, 0, src, [], kernSize);
    assert [] + src == src;
    FilledIsSg(buf[..], c, idx, offset, src, kernSize);
    ret := OK;
  }

  method CopyKernBuf(buf: array<seq<byte>>, c: nat, userSize: nat, kernSize: nat)
    returns (ret: Status, dst: seq<byte>)
    requires c > 0 && Uniform(buf[..], c) && buf.Length == kernSize / c + 1
    ensures ret == if kernSize > userSize then EINVAL else OK
    ensures dst == if ret == OK then SgBytes(buf[..], c, kernSize) else []
  {
    if kernSize > userSize {
      return EINVAL, [];
    }
    FilledNone(buf[..], c);
    var idx, offset;
    dst, idx, offset := ReadChunks(buf, c, 0, kernSize, [], kernSize);
    assert [] + dst == dst;
    FilledIsSg(buf[..], c, idx, offset, dst, kernSize);
    ret := OK;
  }
}
