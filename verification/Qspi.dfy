/**
 Half-duplex transfers of the quad SPI controller: round by round, packed or one packet per FIFO
 word, by processor or by DMA, until every byte of the client's buffer has gone over the wire.
 */
module Qspi {
  import opened Common

  const QSPI_FIFO_DEPTH: nat := 64

  // ---------------------------------------------------------------- bytes in FIFO words

  /** Byte i of a FIFO word is shifted by 8 * i bits. */
  function Shift(i: nat): nat { if i == 0 then 1 else if i == 1 then 0x100 else if i == 2 then 0x1_0000 else 0x100_0000 }

  /** The number whose bytes are b, least significant first. */
  function Le(b: seq<byte>): nat { if b == [] then 0 else b[0] + 256 * Le(b[1..]) }

  function LowBytes(x: nat, n: nat): (r: seq<byte>)
    ensures |r| == n
  {
    if n == 0 then [] else [x % 256] + LowBytes(x / 256, n - 1)
  }

  lemma {:induction false} LeLow(b: seq<byte>)
    ensures LowBytes(Le(b), |b|) == b
  {
    if b != [] {
      LeLow(b[1..]);
      assert Le(b) % 256 == b[0] && Le(b) / 256 == Le(b[1..]);
    }
  }

  lemma {:induction false} LeSnoc(b: seq<byte>, x: byte)
    requires |b| < 4
    ensures Le(b + [x]) == Le(b) + x * Shift(|b|)
  {
    if b == [] {
      assert [x][1..] == [];
    } else {
      assert (b + [x])[1..] == b[1..] + [x];
      LeSnoc(b[1..], x);
    }
  }

  lemma {:induction false} LowBytesNext(x: nat, n: nat)
    requires n < 4
    ensures LowBytes(x, n + 1) == LowBytes(x, n) + [x / Shift(n) % 256]
  {
    if n == 0 {
      assert LowBytes(x / 256, 0) == [];
    } else {
      LowBytesNext(x / 256, n - 1);
      assert x / 256 / Shift(n - 1) == x / Shift(n);
      assert LowBytes(x, n + 1) == [x % 256] + LowBytes(x / 256, n);
    }
  }

  /** The FIFO words that carry data, k bytes in each, the last perhaps fewer. */
  function Words(data: seq<byte>, k: nat): seq<nat>
    requires k > 0
  {
    if data == [] then [] else
      var m := Min(k, |data|);
      [Le(data[..m])] + Words(data[m..], k)
  }

  /** The first n bytes that FIFO words carry, k in each. */
  function Carried(ws: seq<nat>, k: nat, n: nat): (r: seq<byte>)
    requires k > 0
    ensures |r| <= n
    decreases |ws|
  {
    if ws == [] || n == 0 then [] else
      var m := Min(k, n);
      LowBytes(ws[0], m) + Carried(ws[1..], k, n - m)
  }

  lemma CarriedStep(ws: seq<nat>, k: nat, n: nat)
    requires ws != [] && k > 0
    ensures var m := Min(k, n); Carried(ws, k, n) == LowBytes(ws[0], m) + Carried(ws[1..], k, n - m)
  {
  }

  lemma ConsParts<T>(x: T, xs: seq<T>)
    ensures ([x] + xs)[0] == x && ([x] + xs)[1..] == xs
  {
  }

  /** What the words carry is the data they were made from. */
  lemma {:induction false} CarriedWords(data: seq<byte>, k: nat)
    requires k > 0
    ensures Carried(Words(data, k), k, |data|) == data
    decreases |data|
  {
    if data != [] {
      var m := Min(k, |data|);
      LeLow(data[..m]);
      CarriedWords(data[m..], k);
      ConsParts(Le(data[..m]), Words(data[m..], k));
      CarriedStep(Words(data, k), k, |data|);
      SplitAt(data, m);
      hide Carried, LowBytes, Le;
    }
  }

  /** Rounded-up division by the sizes that occur. */
  function CeilDiv(n: nat, k: nat): nat
    requires 1 <= k <= 4
  {
    if k == 1 then n else if k == 2 then (n + 1) / 2 else if k == 3 then (n + 2) / 3 else (n + 3) / 4
  }

  lemma {:induction false} WordCount(data: seq<byte>, k: nat)
    requires 1 <= k <= 4
    ensures |Words(data, k)| == CeilDiv(|data|, k)
    decreases |data|
  {
    if data != [] {
      WordCount(data[Min(k, |data|)..], k);
    }
  }

  lemma {:induction false} CarriedAll(ws: seq<nat>, k: nat, n: nat)
    requires 1 <= k <= 4 && |ws| >= CeilDiv(n, k)
    ensures |Carried(ws, k, n)| == n
    decreases |ws|
  {
    if ws != [] && n != 0 {
      CarriedAll(ws[1..], k, n - Min(k, n));
    }
  }

  /** The value of four bytes, written out: byte i counts 256 to the power of i. */
  lemma LeOfFour(a: byte, b: byte, c: byte, d: byte)
    ensures Le([a, b, c, d]) == a + 0x100 * b + 0x1_0000 * c + 0x100_0000 * d
  {
    assert [a, b, c, d][1..] == [b, c, d] && [b, c, d][1..] == [c, d] && [c, d][1..] == [d] && [d][1..] == [];
    assert Le([d]) == d + 256 * Le([]);
    assert Le([c, d]) == c + 256 * Le([d]);
    assert Le([b, c, d]) == b + 256 * Le([c, d]);
    assert Le([a, b, c, d]) == a + 256 * Le([b, c, d]);
  }

  // ---------------------------------------------------------------- words as they arrive

  /** One more than the largest value of m bytes. */
  function Unit(m: nat): nat
    requires m <= 4
  {
    if m == 0 then 1 else if m == 1 then 0x100 else if m == 2 then 0x1_0000 else if m == 3 then 0x100_0000 else 0x1_0000_0000
  }

  /** The low bytes of x are b; what is above them is anything at all. */
  ghost predicate LowAre(x: nat, b: seq<byte>)
    requires |b| <= 4
  {
    exists garbage: nat :: x == Le(b) + garbage * Unit(|b|)
  }

  /** These words bring the data, k bytes in each and fewer in the last, with garbage above the bytes they bring. */
  ghost predicate Arrives(words: seq<nat>, data: seq<byte>, k: nat)
    requires 1 <= k <= 4
    decreases |data|
  {
    if data == [] then words == []
    else
      var m := Min(k, |data|);
      words != [] && LowAre(words[0], data[..m]) && Arrives(words[1..], data[m..], k)
  }

  lemma LowIsFirst(x: nat, b: seq<byte>, garbage: nat)
    requires 1 <= |b| <= 4 && x == Le(b) + garbage * Unit(|b|)
    ensures x % 256 == b[0] && x / 256 == Le(b[1..]) + garbage * Unit(|b| - 1)
  {
    assert garbage * Unit(|b|) == 256 * (garbage * Unit(|b| - 1));
    assert Le(b) == b[0] + 256 * Le(b[1..]);
    DivModUnique(x, 256, Le(b[1..]) + garbage * Unit(|b| - 1), b[0]);
  }

  lemma {:induction false} LowBytesAre(x: nat, b: seq<byte>)
    requires |b| <= 4 && LowAre(x, b)
    ensures LowBytes(x, |b|) == b
  {
    if b != [] {
      var garbage: nat :| x == Le(b) + garbage * Unit(|b|);
      LowIsFirst(x, b, garbage);
      LowBytesAre(x / 256, b[1..]);
    }
  }

  /** Whatever the garbage, reading the words that bring the data yields the data; and there are as many as it takes. */
  lemma {:induction false} ArrivedIsCarried(words: seq<nat>, data: seq<byte>, k: nat)
    requires 1 <= k <= 4 && Arrives(words, data, k)
    ensures Carried(words, k, |data|) == data && |words| == CeilDiv(|data|, k)
    decreases |data|
  {
    if data != [] {
      var m := Min(k, |data|);
      LowBytesAre(words[0], data[..m]);
      ArrivedIsCarried(words[1..], data[m..], k);
      CarriedStep(words, k, |data|);
      SplitAt(data, m);
      hide Carried, LowBytes, LowAre, Arrives;
    }
  }

  /** The words a sender makes from data are words that bring it. */
  lemma {:induction false} WordsArrive(data: seq<byte>, k: nat)
    requires 1 <= k <= 4
    ensures Arrives(Words(data, k), data, k)
    decreases |data|
  {
    if data != [] {
      var m := Min(k, |data|);
      WordsArrive(data[m..], k);
      assert Le(data[..m]) == Le(data[..m]) + 0 * Unit(m);
    }
  }

  // ---------------------------------------------------------------- one transfer's geometry

  /** One transfer: its length, its word size in bits, and whether the controller may use DMA. */
  datatype Xfer = Xfer(len: nat, bits: nat, dma: bool) {
    predicate Ok() { len > 0 && (bits == 8 || bits == 16 || bits == 32) }

    function Bytes(): nat { (bits + 7) / 8 }

    /** n / Bytes(), w * Bytes() and n % Bytes() == 0, spelt out for the three packet sizes. */
    function Packets(n: nat): nat
      requires Ok()
    {
      if bits == 8 then n else if bits == 16 then n / 2 else n / 4
    }

    function Size(w: nat): nat
      requires Ok()
    {
      if bits == 8 then w else if bits == 16 then 2 * w else 4 * w
    }

    predicate OnPacket(n: nat)
      requires Ok()
    {
      if bits == 8 then true else if bits == 16 then n % 2 == 0 else n % 4 == 0
    }

    lemma PacketSize(n: nat)
      requires Ok()
      ensures Packets(n) == n / Bytes() && Size(n) == n * Bytes() && (OnPacket(n) <==> n % Bytes() == 0)
    {
      if bits == 8 {
        assert Bytes() == 1;
      } else if bits == 16 {
        assert Bytes() == 2;
      } else {
        assert Bytes() == 4;
      }
    }

    predicate Packed() { (bits == 8 || bits == 16 || bits == 32) && len > 3 }

    /** Bytes of payload per FIFO word. */
    function Lane(): nat { if Packed() then 4 else Bytes() }

    function MaxBuf(): nat { if dma then 0x1_0000 else 256 }

    /** The packets the driver plans for a round that starts at pos. */
    function Plan(pos: nat): nat
      requires Ok() && pos < len
    {
      if Packed() then Packets(Min(len - pos, MaxBuf())) else Min(Packets(len - pos - 1) + 1, if dma then 0x4000 else 64)
    }

    function FifoWords(pos: nat): nat
      requires Ok() && pos < len
    {
      if Packed() then (Min(len - pos, MaxBuf()) + 3) / 4 else Plan(pos)
    }

    /** The bytes a round of w packets moves. */
    function Moved(pos: nat, w: nat): nat
      requires Ok() && pos <= len
    {
      if Packed() then Size(w) else Min(Size(w), len - pos)
    }

    predicate Whole()
      requires Ok()
    {
      OnPacket(len)
    }
  }

  lemma RoundOfBytes(x: Xfer, pos: nat, w: nat)
    requires x.Ok() && x.bits == 8 && pos < x.len && x.OnPacket(pos) && (x.Packed() ==> x.Whole())
    requires 1 <= w <= x.Plan(pos)
    ensures 0 < x.Moved(pos, w) <= x.len - pos
    ensures pos + x.Moved(pos, w) == x.len || x.OnPacket(pos + x.Moved(pos, w))
  {
  }

  lemma RoundOfHalfwords(x: Xfer, pos: nat, w: nat)
    requires x.Ok() && x.bits == 16 && pos < x.len && x.OnPacket(pos) && (x.Packed() ==> x.Whole())
    requires 1 <= w <= x.Plan(pos)
    ensures 0 < x.Moved(pos, w) <= x.len - pos
    ensures pos + x.Moved(pos, w) == x.len || x.OnPacket(pos + x.Moved(pos, w))
  {
  }

  lemma RoundOfWords(x: Xfer, pos: nat, w: nat)
    requires x.Ok() && x.bits == 32 && pos < x.len && x.OnPacket(pos) && (x.Packed() ==> x.Whole())
    requires 1 <= w <= x.Plan(pos)
    ensures 0 < x.Moved(pos, w) <= x.len - pos
    ensures pos + x.Moved(pos, w) == x.len || x.OnPacket(pos + x.Moved(pos, w))
  {
  }

  /** Every round from an aligned position moves something, stays in the buffer and ends aligned, or at the end. */
  lemma RoundIsSound(x: Xfer, pos: nat, w: nat)
    requires x.Ok() && pos < x.len && x.OnPacket(pos) && (x.Packed() ==> x.Whole())
    requires 1 <= w <= x.Plan(pos)
    ensures 0 < x.Moved(pos, w) <= x.len - pos
    ensures pos + x.Moved(pos, w) == x.len || x.OnPacket(pos + x.Moved(pos, w))
  {
    if x.bits == 8 {
      RoundOfBytes(x, pos, w);
    } else if x.bits == 16 {
      RoundOfHalfwords(x, pos, w);
    } else {
      RoundOfWords(x, pos, w);
    }
  }

  lemma PlanOfBytes(x: Xfer, pos: nat)
    requires x.Ok() && x.bits == 8 && pos < x.len && x.OnPacket(pos) && (x.Packed() ==> x.Whole())
    ensures 1 <= x.Plan(pos) <= 0x1_0000
  {
  }

  lemma PlanOfHalfwords(x: Xfer, pos: nat)
    requires x.Ok() && x.bits == 16 && pos < x.len && x.OnPacket(pos) && (x.Packed() ==> x.Whole())
    ensures 1 <= x.Plan(pos) <= 0x1_0000
  {
    if x.Packed() {
      EvenDifference(x.len, pos);
    }
  }

  lemma PlanOfWords(x: Xfer, pos: nat)
    requires x.Ok() && x.bits == 32 && pos < x.len && x.OnPacket(pos) && (x.Packed() ==> x.Whole())
    ensures 1 <= x.Plan(pos) <= 0x1_0000
  {
    if x.Packed() {
      FourfoldDifference(x.len, pos);
    }
  }

  /** Every round from an aligned position has at least one packet and at most the block field holds. */
  lemma PlanIsSound(x: Xfer, pos: nat)
    requires x.Ok() && pos < x.len && x.OnPacket(pos) && (x.Packed() ==> x.Whole())
    ensures 1 <= x.Plan(pos) <= 0x1_0000
  {
    if x.bits == 8 {
      PlanOfBytes(x, pos);
    } else if x.bits == 16 {
      PlanOfHalfwords(x, pos);
    } else {
      PlanOfWords(x, pos);
    }
  }

  /**
   A packed round has the most packets that fit what is left and the buffer; an unpacked one has as
   many as cover what is left, one to a FIFO word, but no more than the words the buffer has.
   */
  lemma PlanExactly(x: Xfer, pos: nat)
    requires x.Ok() && pos < x.len
    ensures var w := x.Plan(pos);
            if x.len > 3 then x.Size(w) <= Min(x.len - pos, x.MaxBuf()) < x.Size(w + 1)
            else 1 <= w <= x.MaxBuf() / 4 && x.Size(w - 1) < x.len - pos && (x.Size(w) >= x.len - pos || w == x.MaxBuf() / 4)
    ensures x.FifoWords(pos) * 4 <= x.MaxBuf()
  {
    if x.bits == 8 {
    } else if x.bits == 16 {
    } else {
    }
  }

  lemma Even(n: nat, k: nat)
    requires n == 2 * k
    ensures n % 2 == 0 && n / 2 == k
  {
  }

  lemma FourfoldIsEven(n: nat)
    requires n % 4 == 0
    ensures n % 2 == 0
  {
    Even(n, 2 * (n / 4));
  }

  lemma EvenDifference(a: nat, b: nat)
    requires b <= a && a % 2 == 0 && b % 2 == 0
    ensures (a - b) % 2 == 0
  {
    Even(a - b, a / 2 - b / 2);
  }

  lemma Fourfold(n: nat, k: nat)
    requires n == 4 * k
    ensures n % 4 == 0 && n / 4 == k
  {
  }

  lemma FourfoldDifference(a: nat, b: nat)
    requires b <= a && a % 4 == 0 && b % 4 == 0
    ensures (a - b) % 4 == 0
  {
    Fourfold(a - b, a / 4 - b / 4);
  }

  lemma WholePackets(n: nat)
    ensures n % 2 == 0 ==> 2 * (n / 2) == n
    ensures n % 4 == 0 ==> 4 * (n / 4) == n
  {
  }

  lemma PackedRound(x: Xfer, pos: nat)
    requires x.Ok() && pos < x.len && x.OnPacket(pos) && x.Packed() && x.Whole()
    ensures x.Moved(pos, x.Plan(pos)) == Min(x.len - pos, x.MaxBuf())
  {
    WholePackets(Min(x.len - pos, x.MaxBuf()));
    if x.bits == 16 {
      EvenDifference(x.len, pos);
    } else if x.bits == 32 {
      FourfoldDifference(x.len, pos);
    }
  }

  /** The FIFO words of a full round are those its bytes take. */
  lemma FifoWordsHold(x: Xfer, pos: nat)
    requires x.Ok() && pos < x.len && x.OnPacket(pos) && (x.Packed() ==> x.Whole())
    ensures x.FifoWords(pos) == CeilDiv(x.Moved(pos, x.Plan(pos)), x.Lane())
  {
    if x.Packed() {
      PackedRound(x, pos);
    } else {
      PlanIsSound(x, pos);
      UnpackedWords(x, pos, x.Plan(pos));
    }
  }

  /** Unpacked transfers of whole words never have 32-bit words, so the receive mask never shifts by 32. */
  lemma UnpackedIsNarrow(x: Xfer)
    requires x.Ok() && x.Whole() && !x.Packed()
    ensures x.bits < 32
  {
  }

  /** A round left to the processor fits the FIFO, and so does every round after it. */
  lemma ProcessorRoundsFit(x: Xfer, pos: nat, later: nat)
    requires x.Ok() && pos <= later < x.len && (x.dma ==> x.FifoWords(pos) <= QSPI_FIFO_DEPTH)
    ensures x.FifoWords(later) <= QSPI_FIFO_DEPTH
  {
    if x.bits == 8 {
    } else if x.bits == 16 {
    } else {
    }
  }

  // ---------------------------------------------------------------- the byte loops

  method PackWord(src: seq<byte>) returns (x: nat)
    requires |src| <= 4
    ensures x == Le(src)
  {
    x := 0;
    assert src[..0] == [];
    for i := 0 to |src|
      invariant x == Le(src[..i])
    {
      assert src[..i + 1] == src[..i] + [src[i]];
      LeSnoc(src[..i], src[i]);
      x := x + src[i] * Shift(i);
    }
    assert src[..|src|] == src;
  }

  /** Writes exactly n FIFO words, k bytes of data in each: the loops that fill the FIFO and the DMA buffer. */
  method FillWords(data: seq<byte>, k: nat, n: nat) returns (fifo: seq<nat>)
    requires 1 <= k <= 4 && n == CeilDiv(|data|, k)
    ensures fifo == Words(data, k)
  {
    WordCount(data, k);
    fifo := [];
    var rest := data;
    for count := 0 to n
      invariant fifo + Words(rest, k) == Words(data, k) && |fifo| == count
    {
      WordCount(rest, k);
      var m := Min(k, |rest|);
      var x := PackWord(rest[..m]);
      Assoc(fifo, [x], Words(rest[m..], k));
      fifo := fifo + [x];
      rest := rest[m..];
    }
    assert Words(rest, k) == [];
  }

  /** The buffer with b written at pos. */
  function Placed(s: seq<byte>, pos: nat, b: seq<byte>): (r: seq<byte>)
    requires pos + |b| <= |s|
    ensures |r| == |s|
  {
    s[..pos] + b + s[pos + |b|..]
  }

  lemma PlacedNone(s: seq<byte>, pos: nat)
    requires pos <= |s|
    ensures Placed(s, pos, []) == s
  {
  }

  lemma PlacedTwice(s: seq<byte>, pos: nat, a: seq<byte>, b: seq<byte>)
    requires pos + |a| + |b| <= |s|
    ensures Placed(Placed(s, pos, a), pos + |a|, b) == Placed(s, pos, a + b)
  {
  }

  lemma PlacedByte(s: seq<byte>, pos: nat, b: byte)
    requires pos < |s|
    ensures Placed(s, pos, [b]) == s[pos := b]
  {
  }

  lemma PlacedBehind(s: seq<byte>, pos: nat, b: seq<byte>, surplus: seq<byte>, data: seq<byte>)
    requires pos + |b| <= |data| && |data| + |surplus| <= |s| && (surplus == [] || pos + |b| == |data|)
    requires s[..pos] == data[..pos] && b == data[pos..pos + |b|]
    ensures pos + |b + surplus| <= |s|
    ensures Placed(s, pos, b + surplus)[..pos + |b|] == data[..pos + |b|]
    ensures Placed(s, pos, b + surplus)[|data|..] == surplus + s[|data| + |surplus|..]
  {
    assert data[..pos + |b|] == data[..pos] + data[pos..pos + |b|];
  }

  lemma PlacedNext(s: seq<byte>, pos: nat, a: seq<byte>, b: byte)
    requires pos + |a| < |s|
    ensures Placed(s, pos, a)[pos + |a| := b] == Placed(s, pos, a + [b])
  {
    PlacedByte(Placed(s, pos, a), pos + |a|, b);
    PlacedTwice(s, pos, a, [b]);
  }

  method StoreByte(rx: array<byte>, pos: nat, i: nat, b: byte, ghost was: seq<byte>, ghost done: seq<byte>)
    requires i == |done| && pos + i < rx.Length == |was| && rx[..] == Placed(was, pos, done)
    modifies rx
    ensures rx[..] == Placed(was, pos, done + [b])
  {
    PlacedNext(was, pos, done, b);
    hide Placed;
    rx[pos + i] := b;
  }

  method StoreWord(rx: array<byte>, pos: nat, x: nat, m: nat)
    requires m <= 4 && pos + m <= rx.Length
    modifies rx
    ensures rx[..] == Placed(old(rx[..]), pos, LowBytes(x, m))
  {
    PlacedNone(rx[..], pos);
    assert LowBytes(x, 0) == [];
    hide Placed, LowBytes, Shift;
    ghost var was := rx[..];
    for i := 0 to m
      invariant rx[..] == Placed(was, pos, LowBytes(x, i))
    {
      LowBytesNext(x, i);
      StoreByte(rx, pos, i, x / Shift(i) % 256, was, LowBytes(x, i));
    }
  }

  method StoreOne(rx: array<byte>, at: nat, ws: seq<nat>, count: nat, k: nat, len: nat,
                  ghost was: seq<byte>, ghost pos: nat, ghost goal: seq<byte>) returns (left: nat)
    requires 1 <= k <= 4 && count < |ws| && Storing(rx[..], was, pos, goal, ws[count..], k, len)
    requires at == pos + |goal| - len
    modifies rx
    ensures left <= len && Storing(rx[..], was, pos, goal, ws[count + 1..], k, left)
  {
    StoreStep(rx[..], was, pos, goal, ws, count, k, len);
    StoreBounds(k, len);
    hide *;
    var m := Min(k, len);
    StoreWord(rx, at, ws[count], m);
    left := len - m;
  }

  /** Stores n bytes at pos, k from each word: the loops that empty the FIFO and the DMA buffer. */
  method StoreWords(rx: array<byte>, pos: nat, ws: seq<nat>, k: nat, n: nat)
    requires 1 <= k <= 4 && pos + n <= rx.Length && |ws| >= CeilDiv(n, k)
    modifies rx
    ensures |Carried(ws, k, n)| == n && rx[..] == Placed(old(rx[..]), pos, Carried(ws, k, n))
  {
    ghost var was, goal := rx[..], Carried(ws, k, n);
    StoreStart(was, pos, ws, k, n);
    hide *;
    var len: nat := n;
    for count := 0 to |ws|
      invariant len <= n && Storing(rx[..], was, pos, goal, ws[count..], k, len)
    {
      len := StoreOne(rx, pos + (n - len), ws, count, k, len, was, pos, goal);
    }
    StoreDone(rx[..], was, pos, goal, ws, k, len);
  }

  /** All of the goal but its last `len` bytes is stored, and the words left carry those. */
  ghost predicate Storing(now: seq<byte>, was: seq<byte>, pos: nat, goal: seq<byte>, left: seq<nat>, k: nat, len: nat) {
    && k > 0 && len <= |goal| && pos + |goal| <= |was|
    && now == Placed(was, pos, goal[..|goal| - len])
    && Carried(left, k, len) == goal[|goal| - len..]
  }

  lemma StoreBounds(k: nat, len: nat)
    ensures 0 <= Min(k, len) <= len && Min(k, len) <= k
  {
  }

  lemma StoreStart(was: seq<byte>, pos: nat, ws: seq<nat>, k: nat, n: nat)
    requires 1 <= k <= 4 && pos + n <= |was| && |ws| >= CeilDiv(n, k)
    ensures |Carried(ws, k, n)| == n && Storing(was, was, pos, Carried(ws, k, n), ws[0..], k, n)
  {
    CarriedAll(ws, k, n);
    PlacedNone(was, pos);
    assert ws[0..] == ws;
  }

  lemma StoreStep(now: seq<byte>, was: seq<byte>, pos: nat, goal: seq<byte>, ws: seq<nat>, count: nat, k: nat, len: nat)
    requires k > 0 && count < |ws| && Storing(now, was, pos, goal, ws[count..], k, len)
    ensures var at, m := pos + |goal| - len, Min(k, len);
            && 0 <= m <= len && at + m <= |now|
            && Storing(Placed(now, at, LowBytes(ws[count], m)), was, pos, goal, ws[count + 1..], k, len - m)
  {
    var at, m: nat := |goal| - len, Min(k, len);
    var word := LowBytes(ws[count], m);
    CarriedStep(ws[count..], k, len);
    assert ws[count..][1..] == ws[count + 1..];
    hide Carried, LowBytes, Placed;
    Behind(goal, at, word, Carried(ws[count + 1..], k, len - m));
    PlacedTwice(was, pos, goal[..at], word);
  }

  lemma Behind(goal: seq<byte>, at: nat, word: seq<byte>, rest: seq<byte>)
    requires at <= |goal| && goal[at..] == word + rest
    ensures goal[..at] + word == goal[..at + |word|] && goal[at + |word|..] == rest
  {
    assert goal[at..][..|word|] == word && goal[at..][|word|..] == rest;
  }

  lemma StoreDone(now: seq<byte>, was: seq<byte>, pos: nat, goal: seq<byte>, ws: seq<nat>, k: nat, len: nat)
    requires Storing(now, was, pos, goal, ws[|ws|..], k, len)
    ensures pos + |goal| <= |was| && now == Placed(was, pos, goal)
  {
    assert len == |goal[|goal| - len..]| == 0;
    assert goal[..|goal|] == goal;
  }

  // ---------------------------------------------------------------- rounds

  /** The receive mask keeps the low `bits` bits of an unpacked word. */
  function Mask(x: nat, bits: nat): nat { if bits == 8 then x % 0x100 else if bits == 16 then x % 0x1_0000 else x }

  function Masked(ws: seq<nat>, bits: nat): (r: seq<nat>)
    ensures |r| == |ws|
  {
    if ws == [] then [] else [Mask(ws[0], bits)] + Masked(ws[1..], bits)
  }

  /** Masking to at least the bytes a word brings changes only its garbage. */
  lemma MaskKeepsLow(x: nat, bits: nat, b: seq<byte>)
    requires (bits == 8 || bits == 16 || bits == 32) && 1 <= |b| <= bits / 8 && LowAre(x, b)
    ensures LowAre(Mask(x, bits), b)
  {
    var garbage: nat :| x == Le(b) + garbage * Unit(|b|);
    LeBelow(b);
    var v := Le(b);
    hide Le;
    if bits == 32 {
    } else if bits == 8 * |b| {
      DivModUnique(x, Unit(|b|), garbage, v);
      assert Mask(x, bits) == v + 0 * Unit(|b|);
    } else {
      HalfwordKeepsByte(x, v, garbage);
      assert Mask(x, bits) == v + garbage % 0x100 * Unit(1);
    }
  }

  lemma HalfwordKeepsByte(x: nat, v: byte, garbage: nat)
    requires x == v + garbage * 0x100
    ensures x % 0x1_0000 == v + garbage % 0x100 * 0x100
  {
    DivModUnique(x, 0x1_0000, garbage / 0x100, v + garbage % 0x100 * 0x100);
  }

  lemma {:induction false} LeBelow(b: seq<byte>)
    requires |b| <= 4
    ensures Le(b) < Unit(|b|)
  {
    if b != [] {
      LeBelow(b[1..]);
    }
  }

  /** So masked words still bring the data, for each of the three packet sizes. */
  lemma {:induction false} MaskedArrives(words: seq<nat>, data: seq<byte>, bits: nat)
    requires (bits == 8 || bits == 16 || bits == 32) && Arrives(words, data, bits / 8)
    ensures Arrives(Masked(words, bits), data, bits / 8)
    decreases |data|
  {
    if data != [] {
      var m := Min(bits / 8, |data|);
      MaskKeepsLow(words[0], bits, data[..m]);
      MaskedArrives(words[1..], data[m..], bits);
      ConsParts(Mask(words[0], bits), Masked(words[1..], bits));
      hide LowAre, Mask;
    }
  }

  /** The valid parts of received words: all of a packed word, the masked bits of an unpacked one. */
  function Valid(x: Xfer, ws: seq<nat>): (r: seq<nat>)
    ensures |r| == |ws|
  {
    if x.Packed() then ws else Masked(ws, x.bits)
  }

  /** The most bytes a packed DMA round may store behind what it was asked for. */
  const SURPLUS: nat := 3

  /**
   The bytes a receiving round stores: those it was asked for, except that packed DMA writes whole
   FIFO words straight into the client's buffer.
   */
  function Stored(x: Xfer, pos: nat, pio: bool, words: seq<nat>): seq<byte>
    requires x.Ok() && pos < x.len
  {
    var n := x.Moved(pos, x.Plan(pos));
    Carried(Valid(x, words), x.Lane(), if x.Packed() && !pio then CeilDiv(n, 4) * 4 else n)
  }

  /** Where rounds may start: on a packet boundary; a packed transfer must be whole packets. */
  predicate Aligned(x: Xfer, pos: nat) {
    x.Ok() && pos <= x.len && (x.Packed() ==> x.Whole()) && (pos == x.len || x.OnPacket(pos))
  }

  lemma NextIsAligned(x: Xfer, pos: nat, w: nat)
    requires Aligned(x, pos) && pos < x.len && 1 <= w <= x.Plan(pos)
    ensures pos < pos + x.Moved(pos, w) <= x.len && Aligned(x, pos + x.Moved(pos, w))
  {
    RoundIsSound(x, pos, w);
  }

  lemma PackedBytes(x: Xfer, pos: nat, empty: nat, w: nat)
    requires Aligned(x, pos) && pos < x.len && x.Packed() && empty >= 1
    requires w == Min(empty * (32 / x.bits), x.Plan(pos))
    ensures 1 <= w <= x.Plan(pos) && x.Moved(pos, w) == x.Size(w) && x.Lane() == 4
    ensures CeilDiv(x.Size(w), 4) <= empty
  {
    PlanIsSound(x, pos);
    if x.bits == 8 {
    } else if x.bits == 16 {
    } else {
    }
  }

  lemma UnpackedWords(x: Xfer, pos: nat, w: nat)
    requires Aligned(x, pos) && pos < x.len && !x.Packed() && 1 <= w <= x.Plan(pos)
    ensures CeilDiv(x.Moved(pos, w), x.Bytes()) == w
    ensures x.Moved(pos, w) == Min(x.Size(w), x.len - pos) && 1 <= x.Lane() == x.Bytes() <= 4
  {
    if x.bits == 8 {
    } else if x.bits == 16 {
    } else {
    }
  }

  method FillPacked(x: Xfer, pos: nat, tx: seq<byte>, empty: nat, per: nat, words: nat, bytes: nat)
    returns (written: nat, len: nat, fifo: seq<nat>)
    requires Aligned(x, pos) && pos < x.len == |tx| && x.Packed() && empty >= 1
    requires per == 32 / x.bits && words == x.Plan(pos) && bytes == x.Bytes()
    ensures 1 <= written <= words && |fifo| <= empty
    ensures 0 < len == x.Moved(pos, written) <= x.len - pos
    ensures fifo == Words(tx[pos..pos + len], x.Lane())
  {
    AlignedIsOk(x, pos);
    written := Min(empty * per, words);
    x.PacketSize(written);
    PackedBytes(x, pos, empty, written);
    NextIsAligned(x, pos, written);
    hide *;
    len := written * bytes;
    WordCount(tx[pos..pos + len], 4);
    fifo := FillWords(tx[pos..pos + len], 4, CeilDiv(len, 4));
  }

  method FillUnpacked(x: Xfer, pos: nat, tx: seq<byte>, empty: nat, words: nat, bytes: nat)
    returns (written: nat, len: nat, fifo: seq<nat>)
    requires Aligned(x, pos) && pos < x.len == |tx| && !x.Packed() && empty >= 1
    requires words == x.Plan(pos) && bytes == x.Bytes()
    ensures 1 <= written <= words && |fifo| <= empty
    ensures 0 < len == x.Moved(pos, written) <= x.len - pos
    ensures fifo == Words(tx[pos..pos + len], x.Lane())
  {
    AlignedIsOk(x, pos);
    PlanIsSound(x, pos);
    written := Min(words, empty);
    x.PacketSize(written);
    UnpackedWords(x, pos, written);
    NextIsAligned(x, pos, written);
    len := Min(written * bytes, x.len - pos);
    hide *;
    WordCount(tx[pos..pos + len], bytes);
    fifo := FillWords(tx[pos..pos + len], bytes, written);
  }

  method CopyUnpacked(x: Xfer, pos: nat, tx: seq<byte>, words: nat, bytes: nat) returns (len: nat, buf: seq<nat>)
    requires Aligned(x, pos) && pos < x.len == |tx| && !x.Packed() && words == x.Plan(pos) && bytes == x.Bytes()
    ensures 0 < len == x.Moved(pos, words) <= x.len - pos && buf == Words(tx[pos..pos + len], x.Lane())
  {
    AlignedIsOk(x, pos);
    PlanIsSound(x, pos);
    x.PacketSize(words);
    UnpackedWords(x, pos, words);
    NextIsAligned(x, pos, words);
    len := Min(words * bytes, x.len - pos);
    hide *;
    buf := FillWords(tx[pos..pos + len], bytes, words);
  }

  method StorePacked(x: Xfer, pos: nat, rx: array<byte>, words: seq<nat>, packets: nat, bytes: nat, pio: bool)
    returns (len: nat)
    requires Aligned(x, pos) && pos < x.len <= rx.Length - SURPLUS && x.Packed()
    requires |words| == x.FifoWords(pos) && packets == x.Plan(pos) && bytes == x.Bytes()
    modifies rx
    ensures 0 < len == x.Moved(pos, packets) <= x.len - pos && Aligned(x, pos + len)
    ensures pos + |Stored(x, pos, pio, words)| <= rx.Length && rx[..] == Placed(old(rx[..]), pos, Stored(x, pos, pio, words))
  {
    AlignedIsOk(x, pos);
    PlanIsSound(x, pos);
    FifoWordsHold(x, pos);
    NextIsAligned(x, pos, packets);
    PackedLane(x, pos, packets);
    x.PacketSize(packets);
    StoredIs(x, pos, pio, words);
    hide *;
    len := packets * bytes;
    if pio {
      StoreWords(rx, pos, words, 4, len);
    } else {
      RoundUp(len);
      StoreWords(rx, pos, words, 4, CeilDiv(len, 4) * 4);
    }
  }

  lemma RoundUp(n: nat)
    ensures CeilDiv(CeilDiv(n, 4) * 4, 4) == CeilDiv(n, 4) && n <= CeilDiv(n, 4) * 4 <= n + SURPLUS
  {
  }

  method StoreUnpacked(x: Xfer, pos: nat, rx: array<byte>, words: seq<nat>, packets: nat, bytes: nat) returns (len: nat)
    requires Aligned(x, pos) && pos < x.len <= rx.Length && !x.Packed()
    requires |words| == x.FifoWords(pos) && packets == x.Plan(pos) && bytes == x.Bytes()
    modifies rx
    ensures 0 < len == x.Moved(pos, packets) <= x.len - pos && Aligned(x, pos + len)
    ensures forall pio :: pos + |Stored(x, pos, pio, words)| <= rx.Length
                       && rx[..] == Placed(old(rx[..]), pos, Stored(x, pos, pio, words))
  {
    AlignedIsOk(x, pos);
    PlanIsSound(x, pos);
    FifoWordsHold(x, pos);
    NextIsAligned(x, pos, packets);
    UnpackedWords(x, pos, packets);
    x.PacketSize(packets);
    StoredIs(x, pos, true, words);
    StoredIs(x, pos, false, words);
    len := Min(|words| * bytes, x.len - pos);
    hide *;
    StoreWords(rx, pos, Masked(words, x.bits), bytes, len);
  }

  /** What the controller shifts out of FIFO words made from data. */
  method Shifted(k: nat, fifo: seq<nat>, n: nat, ghost data: seq<byte>) returns (sent: seq<byte>)
    requires k > 0 && n == |data| && fifo == Words(data, k)
    ensures sent == data
  {
    CarriedWords(data, k);
    sent := Carried(fifo, k, n);
  }

  /** One round: where it starts, and whether it goes by DMA. */
  datatype Round = Round(pos: nat, byDma: bool)

  predicate ByDma(x: Xfer, pos: nat)
    requires x.Ok() && pos < x.len
  {
    x.dma && x.FifoWords(pos) > QSPI_FIFO_DEPTH
  }

  class Engine {
    const x: Xfer
    var curPos: nat
    var curTxPos: nat
    var curRxPos: nat
    var packed: bool
    var bytesPerWord: nat
    var wordsPer32: nat
    var currWords: nat

    constructor (x: Xfer)
      ensures this.x == x && curPos == 0 && curTxPos == 0 && curRxPos == 0
    {
      this.x := x;
      curPos, curTxPos, curRxPos, currWords := 0, 0, 0, 0;
      packed, bytesPerWord, wordsPer32 := false, 0, 0;
    }

    /** The parameters of the current round are the transfer's; the mode is the same in every round. */
    predicate Planned()
      reads this
      requires x.Ok() && curPos < x.len
    {
      && packed == x.Packed() && bytesPerWord == x.Bytes()
      && wordsPer32 == (if packed then 32 / x.bits else 1)
      && currWords == x.Plan(curPos)
    }

    method CalcParam() returns (total: nat)
      requires x.Ok() && curPos < x.len
      modifies this`packed, this`bytesPerWord, this`wordsPer32, this`currWords
      ensures Planned() && total == x.FifoWords(curPos)
    {
      bytesPerWord := (x.bits + 7) / 8;
      if (x.bits == 8 || x.bits == 16 || x.bits == 32) && x.len > 3 {
        packed := true;
        wordsPer32 := 32 / x.bits;
      } else {
        packed := false;
        wordsPer32 := 1;
      }
      var remain: nat := x.len - curPos;
      x.PacketSize(Min(remain, x.MaxBuf()));
      x.PacketSize(remain - 1);
      assert x.MaxBuf() / 4 == if x.dma then 0x4000 else 64;
      hide Xfer.Packets, Xfer.MaxBuf;
      if packed {
        var maxLen := Min(remain, x.MaxBuf());
        currWords := maxLen / bytesPerWord;
        total := (maxLen + 3) / 4;
      } else {
        var maxWord := Min((remain - 1) / bytesPerWord + 1, x.MaxBuf() / 4);
        currWords := maxWord;
        total := maxWord;
      }
    }

    lemma PlannedMeans()
      requires x.Ok() && curPos < x.len && Planned()
      ensures packed == x.Packed() && bytesPerWord == x.Bytes() && 1 <= bytesPerWord <= 4 && 1 <= x.Lane() <= 4
      ensures wordsPer32 == (if packed then 32 / x.bits else 1) && currWords == x.Plan(curPos)
    {
    }

    /** Packed are the transfers of more than three bytes, with as many packets in a FIFO word as fill it. */
    lemma ModeExactly()
      requires x.Ok() && curPos < x.len && Planned()
      ensures (packed <==> x.len > 3) && bytesPerWord * 8 == x.bits
      ensures if packed then wordsPer32 * bytesPerWord == 4 else wordsPer32 == 1
    {
      if x.bits == 8 {
      } else if x.bits == 16 {
      } else {
      }
    }

    /** Processor round, sending: as many packets as the FIFO has room for. */
    method FillTx(tx: seq<byte>, empty: nat) returns (written: nat, fifo: seq<nat>)
      requires Aligned(x, curPos) && curPos < x.len && Planned() && curTxPos == curPos && |tx| == x.len && empty >= 1
      modifies this`curTxPos
      ensures 1 <= written <= currWords && |fifo| <= empty
      ensures old(curTxPos) < curTxPos == old(curTxPos) + x.Moved(old(curTxPos), written) <= x.len
      ensures fifo == Words(tx[old(curTxPos)..curTxPos], x.Lane())
    {
      PlannedMeans();
      hide Aligned, Words, CeilDiv;
      var len: nat;
      if packed {
        written, len, fifo := FillPacked(x, curTxPos, tx, empty, wordsPer32, currWords, bytesPerWord);
      } else {
        written, len, fifo := FillUnpacked(x, curTxPos, tx, empty, currWords, bytesPerWord);
      }
      curTxPos := curTxPos + len;
    }

    /** DMA round, sending: packed data goes straight from the client's buffer, other data through a copy. */
    method CopyTx(tx: seq<byte>) returns (buf: seq<nat>)
      requires Aligned(x, curPos) && curPos < x.len && Planned() && curTxPos == curPos && |tx| == x.len
      modifies this`curTxPos
      ensures old(curTxPos) < curTxPos == old(curTxPos) + x.Moved(old(curTxPos), currWords) <= x.len
      ensures !packed ==> buf == Words(tx[old(curTxPos)..curTxPos], x.Lane())
    {
      PlannedMeans();
      PlanIsSound(x, curPos);
      NextIsAligned(x, curPos, currWords);
      PackedLane(x, curPos, currWords);
      hide *;
      buf := [];
      if packed {
        curTxPos := curTxPos + currWords * bytesPerWord;
      } else {
        var len;
        len, buf := CopyUnpacked(x, curPos, tx, currWords, bytesPerWord);
        curTxPos := curTxPos + len;
      }
    }

    method SendPio(tx: seq<byte>, empty: nat) returns (sent: seq<byte>)
      requires Aligned(x, curPos) && curPos < x.len && Planned() && curTxPos == curPos && |tx| == x.len && empty >= 1
      modifies this`curTxPos
      ensures curPos < curTxPos && Aligned(x, curTxPos) && curTxPos <= x.len && sent == tx[curPos..curTxPos]
    {
      PlannedMeans();
      hide *;
      var written, fifo := FillTx(tx, empty);
      NextIsAligned(x, curPos, written);
      sent := Shifted(x.Lane(), fifo, curTxPos - curPos, tx[curPos..curTxPos]);
    }

    method SendDma(tx: seq<byte>) returns (sent: seq<byte>)
      requires Aligned(x, curPos) && curPos < x.len && Planned() && curTxPos == curPos && |tx| == x.len
      modifies this`curTxPos
      ensures curPos < curTxPos && Aligned(x, curTxPos) && curTxPos <= x.len && sent == tx[curPos..curTxPos]
    {
      DmaStep(curPos);
      hide *;
      var buf := CopyTx(tx);
      if packed {
        sent := tx[curPos..curTxPos];
      } else {
        sent := Shifted(x.Lane(), buf, curTxPos - curPos, tx[curPos..curTxPos]);
      }
    }

    lemma DmaStep(pos: nat)
      requires pos == curPos && Aligned(x, pos) && pos < x.len && Planned()
      ensures Aligned(x, pos + x.Moved(pos, currWords)) && 1 <= x.Lane() <= 4
    {
      PlannedMeans();
      PlanIsSound(x, pos);
      NextIsAligned(x, pos, currWords);
    }

    /**
     A whole sending transfer, from its start through every interrupt; room(r) is the space the FIFO
     reports in round r. The bytes on the wire are exactly the client's, whatever the rounds were, and
     a round goes by DMA exactly when the controller may use it and the words do not fit the FIFO.
     */
    method SendAll(tx: seq<byte>, room: nat -> nat) returns (wire: seq<byte>, rounds: seq<Round>)
      requires Aligned(x, 0) && |tx| == x.len && curPos == curTxPos == 0 && forall r :: room(r) >= 1
      modifies this
      ensures wire == tx && curPos == x.len
      ensures rounds != [] && forall r | r in rounds :: r.pos < x.len && r.byDma == ByDma(x, r.pos)
    {
      hide Aligned;
      wire, rounds := [], [];
      AlignedIsOk(x, 0);
      var total := CalcParam();
      var pio := !(x.dma && total > QSPI_FIFO_DEPTH);
      if pio && !x.dma { ProcessorRoundsFit(x, 0, 0); }
      while curPos != x.len
        invariant Aligned(x, curPos) && curPos <= x.len && curTxPos == curPos && wire == tx[..curPos]
        invariant x.Ok() && (curPos < x.len ==> Planned())
        invariant curPos < x.len ==> pio == !ByDma(x, curPos)
        invariant (curPos > 0 ==> rounds != []) && forall r | r in rounds :: r.pos < x.len && r.byDma == ByDma(x, r.pos)
        decreases x.len - curPos
      {
        ghost var was := curPos;
        var sent;
        if pio { sent := SendPio(tx, room(|rounds|)); } else { sent := SendDma(tx); }
        assert tx[..curTxPos] == tx[..curPos] + tx[curPos..curTxPos];
        wire := wire + sent;
        rounds := rounds + [Round(curPos, !pio)];
        curPos := curTxPos;
        if curPos != x.len {
          total := CalcParam();
          if pio { ProcessorRoundsFit(x, was, curPos); }
          pio := pio || !(total > QSPI_FIFO_DEPTH);
        }
      }
    }

    /** One receiving round: the words that arrived are stored behind what the buffer already holds. */
    method ReceiveRound(rx: array<byte>, words: seq<nat>, pio: bool)
      requires Aligned(x, curPos) && curPos < x.len && Planned() && curRxPos == curPos && x.len <= rx.Length - SURPLUS
      requires |words| == x.FifoWords(curPos)
      modifies this`curRxPos, rx
      ensures curPos < curRxPos == curPos + x.Moved(curPos, currWords) <= x.len && Aligned(x, curRxPos)
      ensures curPos + |Stored(x, curPos, pio, words)| <= rx.Length
      ensures rx[..] == Placed(old(rx[..]), curPos, Stored(x, curPos, pio, words))
    {
      PlannedMeans();
      hide *;
      var len: nat;
      if packed {
        len := StorePacked(x, curPos, rx, words, currWords, bytesPerWord, pio);
      } else {
        len := StoreUnpacked(x, curPos, rx, words, currWords, bytesPerWord);
      }
      curRxPos := curRxPos + len;
    }

    /** One round of a transfer whose words carry the peer's data. */
    method ReceiveNext(rx: array<byte>, words: seq<nat>, pio: bool, ghost line: seq<seq<nat>>,
                       ghost was: seq<byte>, ghost data: seq<byte>)
      requires Aligned(x, curPos) && curPos < x.len && Planned() && curRxPos == curPos && x.len <= rx.Length - SURPLUS
      requires x.Ok() && x.len == |data| == |line| && words == line[curPos] && AllDelivered(x, line, data)
      requires pio <==> !(x.dma && x.FifoWords(curPos) > QSPI_FIFO_DEPTH)
      requires Receiving(x, rx[..], was, curPos, line, data)
      modifies this`curRxPos, this`curPos, rx
      ensures old(curPos) < curPos == curRxPos <= x.len && Aligned(x, curPos)
      ensures Receiving(x, rx[..], was, curPos, line, data)
    {
      hide *;
      RoundReceives(x, rx[..], was, curPos, pio, line, data);
      PlannedMeans();
      ReceiveRound(rx, words, pio);
      curPos := curRxPos;
    }

    /**
     A whole receiving transfer into a buffer with memory behind it; line[pos] are the words that
     arrive in the round that starts at pos. If their valid parts carry the peer's data, the client's
     buffer ends up holding exactly that, and what is behind it is overwritten by the surplus bytes of
     the last round, if there are any.
     */
    method ReceiveAll(rx: array<byte>, line: seq<seq<nat>>, ghost data: seq<byte>)
      requires Aligned(x, 0) && x.len == |data| == |line| && x.len <= rx.Length - SURPLUS && curPos == curRxPos == 0
      requires AllDelivered(x, line, data)
      modifies this, rx
      ensures rx[..][..x.len] == data && curPos == x.len
      ensures var surplus := LastSurplus(x, line);
              |surplus| <= SURPLUS && rx[..][x.len..] == surplus + old(rx[..])[x.len + |surplus|..]
    {
      AlignedIsOk(x, 0);
      OverrunsExactly(x, line, data);
      ReceivingNothing(x, rx[..], line, data);
      hide *;
      var total := CalcParam();
      var pio := !(x.dma && total > QSPI_FIFO_DEPTH);
      ghost var was := rx[..];
      while curPos != x.len
        invariant x.Ok() && Aligned(x, curPos) && curPos <= x.len && curRxPos == curPos
        invariant Receiving(x, rx[..], was, curPos, line, data)
        invariant curPos < x.len ==> Planned() && (pio <==> !(x.dma && x.FifoWords(curPos) > QSPI_FIFO_DEPTH))
        decreases x.len - curPos
      {
        ghost var pos := curPos;
        ReceiveNext(rx, line[curPos], pio, line, was, data);
        if curPos != x.len {
          total := CalcParam();
          if pio { ProcessorRoundsFit(x, pos, curPos); }
          pio := pio || !(total > QSPI_FIFO_DEPTH);
        }
      }
      ReceivedAll(x, rx[..], was, line, data);
    }
  }

  lemma TailOf(was: seq<byte>, now: seq<byte>, len: nat, k: nat)
    requires len + k <= |was| == |now| && now[len..] == was[len..]
    ensures now[len + k..] == was[len + k..]
  {
    assert now[len + k..] == now[len..][k..];
    assert was[len + k..] == was[len..][k..];
  }

  // ---------------------------------------------------------------- the bytes behind the buffer

  /** Receiving rounds start at multiples of the buffer size; an unpacked transfer has one round only. */
  predicate RxStart(x: Xfer, pos: nat) {
    pos < x.len ==> if x.Packed() then (if x.dma then pos % 0x1_0000 == 0 else pos % 256 == 0) else pos == 0
  }

  /** Where the last round of a packed transfer starts. */
  function LastStart(x: Xfer): (pos: nat)
    requires x.len > 0
    ensures pos < x.len
  {
    if x.dma then (x.len - 1) / 0x1_0000 * 0x1_0000 else (x.len - 1) / 256 * 256
  }

  /** What a round stores behind the bytes it was asked for. */
  function Surplus(x: Xfer, pos: nat, pio: bool, words: seq<nat>): seq<byte>
    requires x.Ok() && pos < x.len
  {
    var stored, n := Stored(x, pos, pio, words), x.Moved(pos, x.Plan(pos));
    if n <= |stored| then stored[n..] else []
  }

  /** The surplus of the last round, the only one that can have any. */
  function LastSurplus(x: Xfer, line: seq<seq<nat>>): seq<byte>
    requires x.Ok() && |line| == x.len
  {
    var pos := LastStart(x);
    if x.Packed() then Surplus(x, pos, !(x.dma && x.FifoWords(pos) > QSPI_FIFO_DEPTH), line[pos]) else []
  }

  /** The transfers that write behind the client's buffer: an odd number of bytes at the end of a packed DMA round. */
  predicate Overruns(x: Xfer)
    requires x.Ok()
  {
    x.Packed() && x.dma && x.len % 4 != 0 && x.FifoWords(LastStart(x)) > QSPI_FIFO_DEPTH
  }

  lemma RxNext(x: Xfer, pos: nat)
    requires Aligned(x, pos) && pos < x.len && RxStart(x, pos)
    ensures var to := pos + x.Moved(pos, x.Plan(pos)); RxStart(x, to) && (to == x.len ==> pos == LastStart(x))
  {
    if x.Packed() {
      PackedRound(x, pos);
      if x.dma {
        NextBuffer(x.len, pos);
      } else {
        NextFifo(x.len, pos);
      }
    } else {
      OneRound(x);
    }
  }

  lemma NextBuffer(len: nat, pos: nat)
    requires pos < len && pos % 0x1_0000 == 0
    ensures (pos + 0x1_0000) % 0x1_0000 == 0
    ensures len - pos <= 0x1_0000 ==> (len - 1) / 0x1_0000 * 0x1_0000 == pos
  {
  }

  lemma NextFifo(len: nat, pos: nat)
    requires pos < len && pos % 256 == 0
    ensures (pos + 256) % 256 == 0
    ensures len - pos <= 256 ==> (len - 1) / 256 * 256 == pos
  {
  }

  lemma OneRound(x: Xfer)
    requires x.Ok() && !x.Packed()
    ensures x.Moved(0, x.Plan(0)) == x.len && LastStart(x) == 0
  {
  }

  lemma {:induction false} CarriedPrefix(ws: seq<nat>, k: nat, n: nat, m: nat)
    requires 1 <= k <= 4 && n <= m && |ws| >= CeilDiv(m, k)
    ensures |Carried(ws, k, m)| == m && Carried(ws, k, m)[..n] == Carried(ws, k, n)
    decreases |ws|
  {
    CarriedAll(ws, k, m);
    CarriedAll(ws, k, n);
    if n == 0 {
      assert Carried(ws, k, 0) == [];
    } else {
      CarriedStep(ws, k, n);
      CarriedStep(ws, k, m);
      LowBytesPrefix(ws[0], Min(k, n), Min(k, m));
      if n < k {
        assert Carried(ws[1..], k, 0) == [];
      } else {
        CarriedPrefix(ws[1..], k, n - k, m - k);
      }
      hide Carried, LowBytes;
    }
  }

  lemma {:induction false} LowBytesPrefix(x: nat, n: nat, m: nat)
    requires n <= m
    ensures LowBytes(x, m)[..n] == LowBytes(x, n)
  {
    if n > 0 {
      LowBytesPrefix(x / 256, n - 1, m - 1);
    }
  }

  /** What a round stores is what it was asked for, and surplus only at the end of the transfer. */
  lemma SurplusIs(x: Xfer, pos: nat, pio: bool, words: seq<nat>)
    requires Aligned(x, pos) && pos < x.len && RxStart(x, pos) && |words| == x.FifoWords(pos)
    ensures var n, surplus := x.Moved(pos, x.Plan(pos)), Surplus(x, pos, pio, words);
            && Stored(x, pos, pio, words) == Carried(Valid(x, words), x.Lane(), n) + surplus
            && |surplus| == (if x.Packed() && !pio then CeilDiv(n, 4) * 4 - n else 0) <= SURPLUS
            && (surplus == [] || pos + n == x.len)
  {
    var n := x.Moved(pos, x.Plan(pos));
    FifoWordsHold(x, pos);
    PlanIsSound(x, pos);
    RoundUp(n);
    if x.Packed() {
      PackedRound(x, pos);
      LastIsOdd(x, pos);
      CarriedPrefix(words, 4, n, CeilDiv(n, 4) * 4);
      CarriedAll(words, 4, n);
      SplitAt(Stored(x, pos, pio, words), n);
    } else {
      UnpackedWords(x, pos, x.Plan(pos));
      CarriedAll(Valid(x, words), x.Lane(), n);
      SplitAt(Stored(x, pos, pio, words), n);
    }
  }

  lemma LastIsOdd(x: Xfer, pos: nat)
    requires x.Ok() && pos < x.len
    ensures var n := Min(x.len - pos, x.MaxBuf()); pos + n == x.len || CeilDiv(n, 4) * 4 == n
  {
  }

  /** What a round that delivers the data makes of the buffer and of the memory behind it. */
  lemma RoundStores(x: Xfer, was: seq<byte>, pos: nat, pio: bool, words: seq<nat>, data: seq<byte>)
    requires Aligned(x, pos) && pos < x.len == |data| <= |was| - SURPLUS && RxStart(x, pos)
    requires Delivers(x, words, pos, data) && was[..pos] == data[..pos]
    ensures |words| == x.FifoWords(pos)
    ensures var to, surplus := pos + x.Moved(pos, x.Plan(pos)), Surplus(x, pos, pio, words);
            && pos + |Stored(x, pos, pio, words)| <= |was| && to <= x.len && |surplus| <= SURPLUS
            && var now := Placed(was, pos, Stored(x, pos, pio, words));
               now[..to] == data[..to] && now[x.len..] == surplus + was[x.len + |surplus|..]
  {
    var bytes := DeliversMeans(x, words, pos, data);
    SurplusIs(x, pos, pio, words);
    PlacedBehind(was, pos, bytes, Surplus(x, pos, pio, words), data);
  }

  /** The buffer holds the data up to pos; what is behind it is untouched until the last round leaves its surplus. */
  ghost predicate Receiving(x: Xfer, now: seq<byte>, was: seq<byte>, pos: nat, line: seq<seq<nat>>, data: seq<byte>) {
    && x.Ok() && pos <= x.len == |data| == |line| && x.len <= |was| - SURPLUS && |now| == |was| && RxStart(x, pos)
    && now[..pos] == data[..pos]
    && if pos < x.len then now[x.len..] == was[x.len..]
       else var surplus := LastSurplus(x, line);
            |surplus| <= SURPLUS && now[x.len..] == surplus + was[x.len + |surplus|..]
  }

  lemma ReceivingNothing(x: Xfer, was: seq<byte>, line: seq<seq<nat>>, data: seq<byte>)
    requires x.Ok() && x.len == |data| == |line| && x.len <= |was| - SURPLUS
    ensures Receiving(x, was, was, 0, line, data)
  {
  }

  lemma ReceivedAll(x: Xfer, now: seq<byte>, was: seq<byte>, line: seq<seq<nat>>, data: seq<byte>)
    requires Receiving(x, now, was, x.len, line, data)
    ensures x.Ok() && x.len == |line| && x.len <= |now| == |was| && now[..x.len] == data
    ensures var surplus := LastSurplus(x, line);
            |surplus| <= SURPLUS && x.len + |surplus| <= |was| && now[x.len..] == surplus + was[x.len + |surplus|..]
  {
    assert data[..x.len] == data;
  }

  lemma RoundReceives(x: Xfer, now: seq<byte>, was: seq<byte>, pos: nat, pio: bool, line: seq<seq<nat>>, data: seq<byte>)
    requires Aligned(x, pos) && pos < x.len == |data| == |line| && AllDelivered(x, line, data)
    requires pio <==> !(x.dma && x.FifoWords(pos) > QSPI_FIFO_DEPTH)
    requires Receiving(x, now, was, pos, line, data)
    ensures |line[pos]| == x.FifoWords(pos) && pos + |Stored(x, pos, pio, line[pos])| <= |now|
    ensures var to := pos + x.Moved(pos, x.Plan(pos));
            Receiving(x, Placed(now, pos, Stored(x, pos, pio, line[pos])), was, to, line, data)
  {
    AllDeliveredAt(x, line, pos, data);
    RoundStores(x, now, pos, pio, line[pos], data);
    NoSurplusYet(x, pos, pio, line);
    RxNext(x, pos);
    TailOf(was, now, x.len, |Surplus(x, pos, pio, line[pos])|);
    hide Surplus, Stored, Placed, LastSurplus, AllDelivered, RxStart, LastStart;
  }

  lemma StoredIs(x: Xfer, pos: nat, pio: bool, words: seq<nat>)
    requires x.Ok() && pos < x.len
    ensures var n := x.Moved(pos, x.Plan(pos));
            && (x.Packed() ==> Stored(x, pos, pio, words) == Carried(words, 4, if pio then n else CeilDiv(n, 4) * 4))
            && (!x.Packed() ==> Stored(x, pos, pio, words) == Carried(Masked(words, x.bits), x.Bytes(), n))
  {
  }

  lemma NoSurplusYet(x: Xfer, pos: nat, pio: bool, line: seq<seq<nat>>)
    requires Aligned(x, pos) && pos < x.len == |line| && RxStart(x, pos) && |line[pos]| == x.FifoWords(pos)
    requires pio <==> !(x.dma && x.FifoWords(pos) > QSPI_FIFO_DEPTH)
    ensures |Surplus(x, pos, pio, line[pos])| <= SURPLUS
    ensures pos + x.Moved(pos, x.Plan(pos)) < x.len ==> Surplus(x, pos, pio, line[pos]) == []
    ensures pos == LastStart(x) ==> Surplus(x, pos, pio, line[pos]) == LastSurplus(x, line)
  {
    SurplusIs(x, pos, pio, line[pos]);
  }

  lemma LastStartIs(x: Xfer)
    requires x.Ok()
    ensures var pos := LastStart(x);
            (if x.dma then pos % 0x1_0000 == 0 else pos % 256 == 0) && x.len - pos <= x.MaxBuf() && (!x.Packed() ==> pos == 0)
  {
  }

  lemma MultipleOfFour(x: Xfer, pos: nat)
    requires if x.dma then pos % 0x1_0000 == 0 else pos % 256 == 0
    ensures pos % 4 == 0
  {
    Fourfold(pos, if x.dma then 0x4000 * (pos / 0x1_0000) else 64 * (pos / 256));
  }

  lemma MultipleOfPackets(x: Xfer, pos: nat)
    requires x.Ok() && pos % 4 == 0
    ensures x.OnPacket(pos)
  {
    FourfoldIsEven(pos);
  }

  lemma OddEnd(pos: nat, len: nat)
    requires pos < len && pos % 4 == 0
    ensures CeilDiv(len - pos, 4) * 4 - (len - pos) == if len % 4 == 0 then 0 else 4 - len % 4
  {
  }

  /** A receiving transfer writes behind the client's buffer exactly when it overruns, and then up to the next multiple of four. */
  lemma OverrunsExactly(x: Xfer, line: seq<seq<nat>>, data: seq<byte>)
    requires Aligned(x, 0) && 0 < x.len == |data| == |line| && AllDelivered(x, line, data)
    ensures |LastSurplus(x, line)| == if Overruns(x) then 4 - x.len % 4 else 0
  {
    var pos := LastStart(x);
    LastStartIs(x);
    MultipleOfFour(x, pos);
    MultipleOfPackets(x, pos);
    OddEnd(pos, x.len);
    AllDeliveredAt(x, line, pos, data);
    DeliveredIsStored(x, line[pos], pos, data);
    SurplusIs(x, pos, !(x.dma && x.FifoWords(pos) > QSPI_FIFO_DEPTH), line[pos]);
    if x.Packed() {
      PackedRound(x, pos);
    }
  }

  lemma ValidIs(x: Xfer, words: seq<nat>)
    ensures Valid(x, words) == if x.Packed() then words else Masked(words, x.bits)
  {
  }

  lemma PackedLane(x: Xfer, pos: nat, w: nat)
    requires x.Ok() && pos <= x.len
    ensures x.Packed() ==> x.Moved(pos, w) == w * x.Bytes() && x.Lane() == 4
  {
    x.PacketSize(w);
  }

  lemma AlignedIsOk(x: Xfer, pos: nat)
    requires Aligned(x, pos)
    ensures x.Ok() && pos <= x.len
  {
  }

  /** The words of the round at pos bring the data of that round; where a word has more bits, they are garbage. */
  ghost predicate Delivers(x: Xfer, words: seq<nat>, pos: nat, data: seq<byte>)
    requires x.Ok() && pos < x.len == |data|
  {
    var n := x.Moved(pos, x.Plan(pos));
    pos + n <= x.len && Arrives(words, data[pos..pos + n], x.Lane())
  }

  /** A round that delivers the data stores it, after masking or in whole words, and no garbage before its end. */
  lemma DeliveredIsStored(x: Xfer, words: seq<nat>, pos: nat, data: seq<byte>)
    requires Aligned(x, pos) && pos < x.len == |data| && Delivers(x, words, pos, data)
    ensures var n := x.Moved(pos, x.Plan(pos));
            |words| == x.FifoWords(pos) && pos + n <= x.len && Carried(Valid(x, words), x.Lane(), n) == data[pos..pos + n]
  {
    WholeRound(x, pos);
    hide *;
    DeliversIs(x, words, pos, data);
    ValidBytes(x, words, data[pos..pos + x.Moved(pos, x.Plan(pos))]);
  }

  lemma WholeRound(x: Xfer, pos: nat)
    requires Aligned(x, pos) && pos < x.len
    ensures x.FifoWords(pos) == CeilDiv(x.Moved(pos, x.Plan(pos)), x.Lane())
  {
    FifoWordsHold(x, pos);
  }

  lemma DeliversIs(x: Xfer, words: seq<nat>, pos: nat, data: seq<byte>)
    requires x.Ok() && pos < x.len == |data| && Delivers(x, words, pos, data)
    ensures var n := x.Moved(pos, x.Plan(pos)); pos + n <= x.len && Arrives(words, data[pos..pos + n], x.Lane())
  {
    hide Arrives, Xfer.Moved, Xfer.Plan;
  }

  lemma ValidBytes(x: Xfer, words: seq<nat>, bytes: seq<byte>)
    requires x.Ok() && Arrives(words, bytes, x.Lane())
    ensures Carried(Valid(x, words), x.Lane(), |bytes|) == bytes && |words| == CeilDiv(|bytes|, x.Lane())
  {
    hide Arrives, Carried, Masked, CeilDiv;
    ArrivedIsCarried(words, bytes, x.Lane());
    if !x.Packed() {
      MaskedArrives(words, bytes, x.bits);
      ArrivedIsCarried(Masked(words, x.bits), bytes, x.Lane());
    }
  }

  ghost predicate AllDelivered(x: Xfer, line: seq<seq<nat>>, data: seq<byte>)
    requires x.len == |data| == |line|
  {
    forall pos: nat | Aligned(x, pos) && pos < x.len :: Delivers(x, line[pos], pos, data)
  }

  lemma AllDeliveredAt(x: Xfer, line: seq<seq<nat>>, pos: nat, data: seq<byte>)
    requires x.len == |data| == |line| && Aligned(x, pos) && pos < x.len && AllDelivered(x, line, data)
    ensures Delivers(x, line[pos], pos, data)
  {
  }

  lemma DeliversMeans(x: Xfer, words: seq<nat>, pos: nat, data: seq<byte>) returns (bytes: seq<byte>)
    requires Aligned(x, pos) && pos < x.len == |data| && Delivers(x, words, pos, data)
    ensures |words| == x.FifoWords(pos) && pos + |bytes| <= x.len && bytes == data[pos..pos + |bytes|]
    ensures |bytes| == x.Moved(pos, x.Plan(pos)) && Carried(Valid(x, words), x.Lane(), |bytes|) == bytes
  {
    DeliveredIsStored(x, words, pos, data);
    bytes := data[pos..pos + x.Moved(pos, x.Plan(pos))];
  }

  // ---------------------------------------------------------------- which transfers complete

  /** Positions a transfer can go through: each round moves at least one and at most the planned packets. */
  ghost predicate Rounds(x: Xfer, path: seq<nat>) {
    && x.Ok() && path != [] && path[0] == 0 && (forall k | 0 <= k < |path| :: path[k] <= x.len)
    && forall k | 0 <= k < |path| - 1 ::
         path[k] < x.len && exists w | 1 <= w <= x.Plan(path[k]) :: path[k + 1] == path[k] + x.Moved(path[k], w)
  }

  /** No round can follow: everything is transferred, or the driver plans a round of no packets. */
  predicate Stuck(x: Xfer, pos: nat)
    requires x.Ok() && pos <= x.len
  {
    pos == x.len || x.Plan(pos) == 0
  }

  lemma RoundAt(x: Xfer, path: seq<nat>, k: nat) returns (w: nat)
    requires Rounds(x, path) && k + 1 < |path|
    ensures path[k] < x.len && 1 <= w <= x.Plan(path[k]) && path[k + 1] == path[k] + x.Moved(path[k], w)
  {
    w :| 1 <= w <= x.Plan(path[k]) && path[k + 1] == path[k] + x.Moved(path[k], w);
  }

  lemma NextPosition(x: Xfer, path: seq<nat>, k: nat)
    requires Rounds(x, path) && k + 1 < |path|
    ensures path[k] < x.len
    ensures x.OnPacket(path[k]) ==>
              path[k] < path[k + 1] && (x.OnPacket(path[k + 1]) || (!x.Packed() && path[k + 1] == x.len))
  {
    var w := RoundAt(x, path, k);
    var pos, to := path[k], path[k + 1];
    hide Rounds;
    if x.OnPacket(pos) {
      StaysAligned(x, pos, w);
    }
  }

  lemma {:induction false} PositionsAligned(x: Xfer, path: seq<nat>, k: nat)
    requires Rounds(x, path) && k < |path|
    ensures x.OnPacket(path[k]) || (!x.Packed() && path[k] == x.len)
    ensures k > 0 ==> path[k - 1] < path[k]
  {
    StartsAtZero(x, path);
    hide *;
    if k > 0 {
      PositionsAligned(x, path, k - 1);
      NextPosition(x, path, k - 1);
    }
  }

  lemma StartsAtZero(x: Xfer, path: seq<nat>)
    requires Rounds(x, path)
    ensures x.OnPacket(path[0])
  {
  }

  lemma StaysAligned(x: Xfer, pos: nat, w: nat)
    requires x.Ok() && pos < x.len && x.OnPacket(pos) && 1 <= w
    ensures var to := pos + x.Moved(pos, w); pos < to && (x.OnPacket(to) || (!x.Packed() && to == x.len))
  {
    if x.bits == 8 {
    } else if x.bits == 16 {
    } else {
    }
  }

  lemma StuckWhere(x: Xfer, pos: nat)
    requires x.Ok() && pos <= x.len && (x.OnPacket(pos) || (!x.Packed() && pos == x.len)) && Stuck(x, pos)
    ensures pos == x.len <==> !x.Packed() || x.Whole()
  {
    if x.bits == 8 {
    } else if x.bits == 16 {
    } else {
    }
  }

  /**
   Positions grow with every round, so rounds run out; and where they run out is the end of the
   buffer exactly when the transfer is unpacked or a whole number of packets.
   */
  lemma CompletesExactly(x: Xfer, path: seq<nat>)
    requires Rounds(x, path)
    ensures |path| - 1 <= path[|path| - 1] <= x.len
    ensures Stuck(x, path[|path| - 1]) ==> (path[|path| - 1] == x.len <==> !x.Packed() || x.Whole())
  {
    PositionsAligned(x, path, |path| - 1);
    PathGrows(x, path, |path| - 1);
    if Stuck(x, path[|path| - 1]) {
      StuckWhere(x, path[|path| - 1]);
    }
  }

  lemma {:induction false} PathGrows(x: Xfer, path: seq<nat>, k: nat)
    requires Rounds(x, path) && k < |path|
    ensures k <= path[k]
  {
    if k > 0 {
      PathGrows(x, path, k - 1);
      PositionsAligned(x, path, k);
    }
  }
}
