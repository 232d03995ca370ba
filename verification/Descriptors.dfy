/**
 Turning a scatterlist into the bounded (address, length) pairs a task can carry, with the DMA
 mappings taken and given back on the way.
 */
module Descriptors {
  import opened Common

  /** One more than the longest length a descriptor can hold. */
  const MAX_BUFFER_SIZE: nat := 0x100_0000

  /** `entry`'s bytes from `offset`, `length` of them. */
  datatype Piece = Piece(entry: nat, offset: nat, length: nat)

  // ---------------------------------------------------------------- what the list should be

  /** The rest of one entry: full-size pieces, each short of the limit by one block, then what is left. */
  function EntryPieces(entry: nat, offset: nat, len: nat, block: nat): seq<Piece>
    requires 0 < block < MAX_BUFFER_SIZE
    decreases len
  {
    if len >= MAX_BUFFER_SIZE then
      [Piece(entry, offset, MAX_BUFFER_SIZE - block)]
      + EntryPieces(entry, offset + MAX_BUFFER_SIZE - block, len - (MAX_BUFFER_SIZE - block), block)
    else if len > 0 then [Piece(entry, offset, len)]
    else []
  }

  function ListPieces(lens: seq<nat>, entry: nat, total: nat, block: nat): seq<Piece>
    requires 0 < block < MAX_BUFFER_SIZE && entry <= |lens|
    decreases |lens| - entry
  {
    if entry == |lens| || total == 0 then []
    else
      var len := Min(lens[entry], total);
      EntryPieces(entry, 0, len, block) + ListPieces(lens, entry + 1, total - len, block)
  }

  /** How many entries are looked at, and so mapped. */
  function Visited(lens: seq<nat>, entry: nat, total: nat): nat
    requires entry <= |lens|
    decreases |lens| - entry
  {
    if entry == |lens| || total == 0 then entry
    else Visited(lens, entry + 1, total - Min(lens[entry], total))
  }

  // ---------------------------------------------------------------- what the list means

  ghost predicate Within(entries: seq<seq<byte>>, p: Piece) {
    p.entry < |entries| && p.offset + p.length <= |entries[p.entry]|
  }

  ghost function PieceBytes(entries: seq<seq<byte>>, p: Piece): seq<byte> {
    if Within(entries, p) then entries[p.entry][p.offset..p.offset + p.length] else []
  }

  /** The bytes the engine reads through a list of pieces. */
  ghost function Read(entries: seq<seq<byte>>, pieces: seq<Piece>): seq<byte> {
    if pieces == [] then [] else PieceBytes(entries, pieces[0]) + Read(entries, pieces[1..])
  }

  ghost predicate Sound(entries: seq<seq<byte>>, pieces: seq<Piece>) {
    forall i | 0 <= i < |pieces| :: Within(entries, pieces[i]) && 0 < pieces[i].length < MAX_BUFFER_SIZE
  }

  lemma {:induction false} ReadAppend(entries: seq<seq<byte>>, a: seq<Piece>, b: seq<Piece>)
    ensures Read(entries, a + b) == Read(entries, a) + Read(entries, b)
  {
    if a == [] {
      assert a + b == b;
    } else {
      assert (a + b)[1..] == a[1..] + b;
      ReadAppend(entries, a[1..], b);
    }
  }

  ghost predicate Covers(entries: seq<seq<byte>>, pieces: seq<Piece>, bytes: seq<byte>) {
    Sound(entries, pieces) && Read(entries, pieces) == bytes
  }

  lemma CoversAppend(entries: seq<seq<byte>>, a: seq<Piece>, x: seq<byte>, b: seq<Piece>, y: seq<byte>)
    requires Covers(entries, a, x) && Covers(entries, b, y)
    ensures Covers(entries, a + b, x + y)
  {
    ReadAppend(entries, a, b);
  }

  lemma CoversNone(entries: seq<seq<byte>>)
    ensures Covers(entries, [], [])
  {
  }

  lemma CoversOne(entries: seq<seq<byte>>, p: Piece)
    requires Within(entries, p) && 0 < p.length < MAX_BUFFER_SIZE
    ensures Covers(entries, [p], entries[p.entry][p.offset..p.offset + p.length])
  {
    assert [p][1..] == [];
  }

  lemma {:induction false} EntryPiecesRead(entries: seq<seq<byte>>, entry: nat, offset: nat, len: nat, block: nat)
    requires 0 < block < MAX_BUFFER_SIZE && entry < |entries| && offset + len <= |entries[entry]|
    ensures Covers(entries, EntryPieces(entry, offset, len, block), entries[entry][offset..offset + len])
    decreases len
  {
    hide Covers;
    if len >= MAX_BUFFER_SIZE {
      var n, rest := EntryUnfold(entry, offset, len, block);
      EntryPiecesRead(entries, entry, offset + n, len - n, block);
      CoversOne(entries, Piece(entry, offset, n));
      CoversAppend(entries, [Piece(entry, offset, n)], entries[entry][offset..offset + n],
                   rest, entries[entry][offset + n..offset + len]);
      SliceJoin(entries[entry], offset, offset + n, offset + len);
    } else if len > 0 {
      CoversOne(entries, Piece(entry, offset, len));
    } else {
      CoversNone(entries);
      assert entries[entry][offset..offset] == [];
    }
  }

  lemma EntryUnfold(entry: nat, offset: nat, len: nat, block: nat) returns (n: nat, rest: seq<Piece>)
    requires 0 < block < MAX_BUFFER_SIZE <= len
    ensures n == MAX_BUFFER_SIZE - block && rest == EntryPieces(entry, offset + n, len - n, block)
    ensures EntryPieces(entry, offset, len, block) == [Piece(entry, offset, n)] + rest
  {
    n := MAX_BUFFER_SIZE - block;
    rest := EntryPieces(entry, offset + n, len - n, block);
  }

  ghost function Lengths(entries: seq<seq<byte>>): (lens: seq<nat>)
    ensures |lens| == |entries| && forall i | 0 <= i < |entries| :: lens[i] == |entries[i]|
  {
    seq(|entries|, i requires 0 <= i < |entries| => |entries[i]|)
  }

  /**
   Read through the descriptors, the list is exactly the first `total` bytes (all of them, if the list
   is shorter), in pieces that are never empty and always fit the 24-bit length.
   */
  lemma {:induction false} ListPiecesRead(entries: seq<seq<byte>>, entry: nat, total: nat, block: nat)
    requires 0 < block < MAX_BUFFER_SIZE && entry <= |entries|
    ensures var all := Concat(entries[entry..]);
            Covers(entries, ListPieces(Lengths(entries), entry, total, block), all[..Min(total, |all|)])
    decreases |entries| - entry
  {
    hide Covers;
    CoversNone(entries);
    if entry < |entries| && total > 0 {
      var len := Min(|entries[entry]|, total);
      EntryPiecesRead(entries, entry, 0, len, block);
      ListPiecesRead(entries, entry + 1, total - len, block);
      var rest := Concat(entries[entry + 1..]);
      CoversAppend(entries, EntryPieces(entry, 0, len, block), entries[entry][0..len],
                   ListPieces(Lengths(entries), entry + 1, total - len, block), rest[..Min(total - len, |rest|)]);
      ConcatFrom(entries, entry);
      TakeTwo(entries[entry], rest, total);
    }
  }

  lemma ConcatFrom(entries: seq<seq<byte>>, entry: nat)
    requires entry < |entries|
    ensures Concat(entries[entry..]) == entries[entry] + Concat(entries[entry + 1..])
  {
    assert entries[entry..] == [entries[entry]] + entries[entry + 1..];
    ConcatCons(entries[entry], entries[entry + 1..]);
  }

  lemma TakeTwo(a: seq<byte>, b: seq<byte>, n: nat)
    ensures var k := Min(|a|, n);
            (a + b)[..Min(n, |a + b|)] == a[0..k] + b[..Min(n - k, |b|)]
  {
  }

  // ---------------------------------------------------------------- how many pieces

  /** All `total` bytes lie in the first entry that is not empty, and their length fits a descriptor. */
  predicate Fits(lens: seq<nat>, entry: nat, total: nat)
    requires entry <= |lens|
    decreases |lens| - entry
  {
    total == 0 ||
    (entry < |lens| &&
     if lens[entry] == 0 then Fits(lens, entry + 1, total) else total <= lens[entry] && total < MAX_BUFFER_SIZE)
  }

  lemma {:induction false} FitsIsShort(lens: seq<nat>, entry: nat, total: nat)
    requires entry <= |lens| && Fits(lens, entry, total)
    ensures total < MAX_BUFFER_SIZE
    decreases |lens| - entry
  {
    if total > 0 && lens[entry] == 0 {
      FitsIsShort(lens, entry + 1, total);
    }
  }

  function Sum(lens: seq<nat>, entry: nat): nat
    requires entry <= |lens|
    decreases |lens| - entry
  {
    if entry == |lens| then 0 else lens[entry] + Sum(lens, entry + 1)
  }

  lemma {:induction false} SomePieces(lens: seq<nat>, entry: nat, total: nat, block: nat)
    requires 0 < block < MAX_BUFFER_SIZE && entry <= |lens| && 0 < total && 0 < Sum(lens, entry)
    ensures |ListPieces(lens, entry, total, block)| > 0
    decreases |lens| - entry
  {
    if lens[entry] == 0 {
      SomePieces(lens, entry + 1, total, block);
      assert EntryPieces(entry, 0, 0, block) == [];
    }
  }

  /** One descriptor is enough for `total` bytes the list holds exactly when they fit. */
  lemma {:induction false} OnePieceExactly(lens: seq<nat>, entry: nat, total: nat, block: nat)
    requires 0 < block < MAX_BUFFER_SIZE && entry <= |lens| && total <= Sum(lens, entry)
    ensures |ListPieces(lens, entry, total, block)| <= 1 <==> Fits(lens, entry, total)
    ensures total > 0 && Fits(lens, entry, total) ==>
              var ps := ListPieces(lens, entry, total, block);
              |ps| == 1 && ps == [Piece(ps[0].entry, 0, total)]
    decreases |lens| - entry
  {
    if total > 0 {
      var len := Min(lens[entry], total);
      ListStep(lens, entry, total, block);
      if lens[entry] == 0 {
        OnePieceExactly(lens, entry + 1, total, block);
        assert EntryPieces(entry, 0, 0, block) == [];
      } else if len < total {
        SomePieces(lens, entry + 1, total - len, block);
      } else if len >= MAX_BUFFER_SIZE {
        var n, rest := EntryUnfold(entry, 0, len, block);
        assert |rest| > 0;
      } else {
        ListEnd(lens, entry + 1, 0, block);
      }
    }
  }

  /** The first piece starts the first entry that is not empty, and it is the only one if that entry holds everything. */
  lemma {:induction false} FirstPiece(lens: seq<nat>, entry: nat, total: nat, block: nat)
    requires 0 < block < MAX_BUFFER_SIZE && entry <= |lens| && 0 < total < MAX_BUFFER_SIZE && total <= Sum(lens, entry)
    ensures var ps := ListPieces(lens, entry, total, block);
            && |ps| > 0 && ps[0].offset == 0 && ps[0].entry < |lens|
            && (Fits(lens, entry, total) <==> total <= lens[ps[0].entry])
    decreases |lens| - entry
  {
    ListStep(lens, entry, total, block);
    if lens[entry] == 0 {
      FirstPiece(lens, entry + 1, total, block);
      assert EntryPieces(entry, 0, 0, block) == [];
    }
  }

  lemma {:induction false} SumIsLength(entries: seq<seq<byte>>, entry: nat)
    requires entry <= |entries|
    ensures Sum(Lengths(entries), entry) == |Concat(entries[entry..])|
    decreases |entries| - entry
  {
    if entry < |entries| {
      SumIsLength(entries, entry + 1);
      ConcatFrom(entries, entry);
    }
  }

  /** A list of one entry with a request below 2^24 bytes, which is all the fast hash path sends, has one piece at most. */
  lemma OneEntryFits(len: nat, total: nat, block: nat)
    requires 0 < block < MAX_BUFFER_SIZE && total < MAX_BUFFER_SIZE
    ensures |ListPieces([len], 0, total, block)| <= 1
    ensures 0 < total <= len ==> ListPieces([len], 0, total, block) == [Piece(0, 0, total)]
  {
    if total > 0 {
      ListStep([len], 0, total, block);
    }
  }

  lemma DifferenceOfMultiples(a: nat, b: nat, unit: nat)
    requires unit > 0 && b <= a && Multiple(a, unit) && Multiple(b, unit)
    ensures Multiple(a - b, unit)
  {
    WholeAdd(b, a - b, unit);
  }

  /** Whole blocks in every piece, so a block never straddles two descriptors. */
  ghost predicate InBlocks(pieces: seq<Piece>, block: nat)
    requires block > 0
  {
    forall i | 0 <= i < |pieces| :: Multiple(pieces[i].length, block)
  }

  /** Every piece of an entry but the one that ends it is one block short of the limit. */
  lemma {:induction false} EntryPiecesAre(entry: nat, offset: nat, len: nat, block: nat)
    requires 0 < block < MAX_BUFFER_SIZE
    ensures var ps := EntryPieces(entry, offset, len, block);
            forall i | 0 <= i < |ps| :: ps[i].length == MAX_BUFFER_SIZE - block || ps[i].offset + ps[i].length == offset + len
    ensures Multiple(MAX_BUFFER_SIZE, block) && Multiple(len, block) ==> InBlocks(EntryPieces(entry, offset, len, block), block)
    decreases len
  {
    hide Multiple;
    if len >= MAX_BUFFER_SIZE {
      var n, rest := EntryUnfold(entry, offset, len, block);
      EntryPiecesAre(entry, offset + n, len - n, block);
      if Multiple(MAX_BUFFER_SIZE, block) && Multiple(len, block) {
        OneUnit(block);
        DifferenceOfMultiples(MAX_BUFFER_SIZE, block, block);
        DifferenceOfMultiples(len, n, block);
      }
    }
  }

  lemma OneUnit(unit: nat)
    requires unit > 0
    ensures Multiple(unit, unit) && Multiple(0, unit)
  {
  }

  /** With a block size that divides 2^24, lists whose entries are whole blocks are cut between blocks only. */
  lemma {:induction false} CutBetweenBlocks(lens: seq<nat>, entry: nat, total: nat, block: nat)
    requires 0 < block < MAX_BUFFER_SIZE && entry <= |lens| && Multiple(MAX_BUFFER_SIZE, block) && Multiple(total, block)
    requires forall k | 0 <= k < |lens| :: Multiple(lens[k], block)
    ensures InBlocks(ListPieces(lens, entry, total, block), block)
    decreases |lens| - entry
  {
    hide Multiple;
    if entry < |lens| && total > 0 {
      var len := Min(lens[entry], total);
      DifferenceOfMultiples(total, len, block);
      EntryPiecesAre(entry, 0, len, block);
      CutBetweenBlocks(lens, entry + 1, total - len, block);
    }
  }

  /** And only with such a block size: otherwise the first piece of an entry of 2^24 bytes or more ends inside a block. */
  lemma CutInsideBlock(len: nat, total: nat, block: nat)
    requires 0 < block < MAX_BUFFER_SIZE <= total <= len && !Multiple(MAX_BUFFER_SIZE, block)
    ensures !InBlocks(ListPieces([len], 0, total, block), block)
  {
    ListStep([len], 0, total, block);
    var n, rest := EntryUnfold(0, 0, total, block);
    if Multiple(n, block) {
      WholeAdd(n, block, block);
      OneUnit(block);
    }
    assert ListPieces([len], 0, total, block)[0].length == n;
  }

  // ---------------------------------------------------------------- the loops

  /** Entries lo up to hi, and no others. */
  ghost predicate Between(live: set<int>, lo: int, hi: int) { forall e :: e in live <==> lo <= e < hi }

  /** The destination once `written` has been stored from its front on; what is behind its end is not part of it. */
  function Overlaid(dest: seq<Piece>, written: seq<Piece>): (r: seq<Piece>)
    ensures |r| == |dest|
  {
    if |written| >= |dest| then written[..|dest|] else written + dest[|written|..]
  }

  lemma OverlaidNone(dest: seq<Piece>)
    ensures Overlaid(dest, []) == dest
  {
  }

  lemma OverlaidNext(dest: seq<Piece>, written: seq<Piece>, p: Piece)
    ensures var i := |written|;
            Overlaid(dest, written + [p])
            == if i < |dest| then Overlaid(dest, written)[i := p] else Overlaid(dest, written)
  {
  }

  /** One store through the destination pointer; `inside` says whether it stays in the destination. */
  method Store(srcAddr: array<Piece>, i: nat, p: Piece, ghost dest: seq<Piece>, ghost written: seq<Piece>)
    returns (inside: bool)
    requires |written| == i && srcAddr[..] == Overlaid(dest, written)
    modifies srcAddr
    ensures inside <==> i < srcAddr.Length
    ensures srcAddr[..] == Overlaid(dest, written + [p])
  {
    OverlaidNext(dest, written, p);
    inside := i < srcAddr.Length;
    if inside {
      srcAddr[i] := p;
    }
  }

  /**
   prepare_ivc_linked_list. `mapOk[e]` is what mapping entry e returns; `live` collects the entries
   mapped and not unmapped. The bound lets one piece more through than its name says, and knows
   nothing of the destination: `srcAddr` is as long as what the caller points to, `written[k]` went
   to index k, and `inside` says whether every index was in the destination.
   */
  method PrepareList(lens: seq<nat>, totalLen: nat, maxLlLen: nat, block: nat, mapOk: seq<bool>, srcAddr: array<Piece>)
    returns (ok: bool, numLists: nat, numMapped: nat, inside: bool, ghost written: seq<Piece>, ghost live: set<int>)
    requires 0 < block < MAX_BUFFER_SIZE && |mapOk| == |lens|
    modifies srcAddr
    ensures var ps := ListPieces(lens, 0, totalLen, block);
            && (ok <==> |ps| <= maxLlLen + 1 && AllMapped(lens, totalLen, mapOk))
            && (ok ==> written == ps && numLists == |ps| && numMapped == Visited(lens, 0, totalLen))
            && written <= ps
            && (AllMapped(lens, totalLen, mapOk) ==> written == ps[..Min(|ps|, maxLlLen + 1)])
    ensures srcAddr[..] == Overlaid(old(srcAddr[..]), written)
    ensures inside <==> |written| <= srcAddr.Length
    ensures AllMapped(lens, totalLen, mapOk) && srcAddr.Length <= maxLlLen ==>
              (inside <==> |ListPieces(lens, 0, totalLen, block)| <= srcAddr.Length)
    ensures Between(live, 0, numMapped) && numMapped <= |lens| && (!ok ==> numMapped == 0)
  {
    hide ListPieces, Visited, Overlaid;
    var sgCount;
    ok, numLists, sgCount, inside, written, live := BuildList(lens, totalLen, maxLlLen, block, mapOk, srcAddr);
    numMapped := sgCount;
    if !ok {
      live := UnmapList(lens, sgCount, live);
      numMapped := 0;
    }
  }

  /** Its outer loop: one mapping and one call of the inner loop for each entry. */
  method BuildList(lens: seq<nat>, totalLen: nat, maxLlLen: nat, block: nat, mapOk: seq<bool>, srcAddr: array<Piece>)
    returns (ok: bool, i: nat, sgCount: nat, inside: bool, ghost written: seq<Piece>, ghost live: set<int>)
    requires 0 < block < MAX_BUFFER_SIZE && |mapOk| == |lens|
    modifies srcAddr
    ensures var ps := ListPieces(lens, 0, totalLen, block);
            && |written| == i <= maxLlLen + 1 && written <= ps
            && (ok ==> written == ps && sgCount == Visited(lens, 0, totalLen) && AllMapped(lens, totalLen, mapOk))
            && (!ok ==> |ps| > i == maxLlLen + 1 || !AllMapped(lens, totalLen, mapOk))
    ensures srcAddr[..] == Overlaid(old(srcAddr[..]), written) && (inside <==> i <= srcAddr.Length)
    ensures Between(live, 0, sgCount) && sgCount <= |lens|
  {
    hide ListPieces, EntryPieces, Visited, Overlaid, Listed;
    var sg: nat, total: nat := 0, totalLen;
    i, sgCount := 0, 0;
    ok, inside, live, written := true, true, {}, [];
    ghost var dest, all := srcAddr[..], ListPieces(lens, 0, totalLen, block);
    OverlaidNone(dest);
    ListedStart(lens, totalLen, block);
    while ok && sg < |lens| && total > 0
      invariant sg <= |lens| && Between(live, 0, sgCount) && sgCount <= |lens|
      invariant |written| == i <= maxLlLen + 1 && srcAddr[..] == Overlaid(dest, written)
      invariant (inside <==> i <= srcAddr.Length) && written <= all
      invariant ok ==> sgCount == sg && Listed(all, written, lens, sg, total, block)
      invariant ok ==> Visited(lens, 0, totalLen) == Visited(lens, sg, total)
      invariant ok ==> forall e | 0 <= e < sg :: mapOk[e]
      invariant !ok ==> |all| > i == maxLlLen + 1 || (sg < Visited(lens, 0, totalLen) && sg < |lens| && !mapOk[sg])
      decreases ok, |lens| - sg
    {
      ListedStep(all, written, lens, sg, total, block);
      if !mapOk[sg] {
        ok := false;
      } else {
        live := live + {sgCount};
        sgCount := sgCount + 1;
        var len: nat := Min(lens[sg], total);
        ok, i, inside, written := AddEntry(sg, len, i, maxLlLen, block, srcAddr, inside, dest, written, all);
        total := total - len;
        if ok {
          sg := sg + 1;
        }
      }
    }
    if ok {
      ListedEnd(all, written, lens, sg, total, block);
    }
  }

  method AddEntry(entry: nat, len: nat, i0: nat, maxLlLen: nat, block: nat, srcAddr: array<Piece>, inside0: bool,
                  ghost dest: seq<Piece>, ghost before: seq<Piece>, ghost all: seq<Piece>)
    returns (ok: bool, i: nat, inside: bool, ghost written: seq<Piece>)
    requires 0 < block < MAX_BUFFER_SIZE && |before| == i0 <= maxLlLen + 1 && srcAddr[..] == Overlaid(dest, before)
    requires (inside0 <==> i0 <= srcAddr.Length) && before + EntryPieces(entry, 0, len, block) <= all
    modifies srcAddr
    ensures |written| == i <= maxLlLen + 1 && srcAddr[..] == Overlaid(dest, written) && written <= all
    ensures inside <==> i <= srcAddr.Length
    ensures ok ==> written == before + EntryPieces(entry, 0, len, block)
    ensures !ok ==> |all| > i == maxLlLen + 1
  {
    hide *;
    ok, i, inside, written := CutEntry(entry, len, i0, maxLlLen, block, srcAddr, dest, before);
    inside := inside0 && inside;
    CutIsPrefix(all, before + EntryPieces(entry, 0, len, block), written, maxLlLen + 1);
  }

  /** Every entry that is looked at can be mapped. */
  ghost predicate AllMapped(lens: seq<nat>, totalLen: nat, mapOk: seq<bool>) {
    forall e | 0 <= e < Visited(lens, 0, totalLen) :: e < |mapOk| && mapOk[e]
  }

  /** What is written, and the pieces of the entries still to come. */
  ghost predicate Listed(all: seq<Piece>, written: seq<Piece>, lens: seq<nat>, sg: nat, total: nat, block: nat) {
    0 < block < MAX_BUFFER_SIZE && sg <= |lens| && all == written + ListPieces(lens, sg, total, block)
  }

  lemma ListedStart(lens: seq<nat>, total: nat, block: nat)
    requires 0 < block < MAX_BUFFER_SIZE
    ensures Listed(ListPieces(lens, 0, total, block), [], lens, 0, total, block)
  {
  }

  lemma ListedStep(all: seq<Piece>, written: seq<Piece>, lens: seq<nat>, sg: nat, total: nat, block: nat)
    requires Listed(all, written, lens, sg, total, block) && sg < |lens| && total > 0
    ensures var len := Min(lens[sg], total);
            && 0 <= len <= total
            && sg < Visited(lens, sg, total) == Visited(lens, sg + 1, total - len)
            && written + EntryPieces(sg, 0, len, block) <= all
            && Listed(all, written + EntryPieces(sg, 0, len, block), lens, sg + 1, total - len, block)
  {
    ListStep(lens, sg, total, block);
    var len := Min(lens[sg], total);
    Assoc(written, EntryPieces(sg, 0, len, block), ListPieces(lens, sg + 1, total - len, block));
  }

  lemma ListedEnd(all: seq<Piece>, written: seq<Piece>, lens: seq<nat>, sg: nat, total: nat, block: nat)
    requires Listed(all, written, lens, sg, total, block) && (sg == |lens| || total == 0)
    ensures all == written && Visited(lens, sg, total) == sg
  {
    ListEnd(lens, sg, total, block);
    assert written + [] == written;
  }

  lemma CutIsPrefix(all: seq<Piece>, some: seq<Piece>, written: seq<Piece>, bound: nat)
    requires some <= all && written == some[..Min(|some|, bound)]
    ensures written <= all && (|some| <= bound ==> written == some)
    ensures |some| > bound ==> |all| > |written| == bound
  {
  }

  /** What the callers run once the engine has answered, or the list could not be built. */
  method UnmapList(lens: seq<nat>, numMapped0: nat, ghost live0: set<int>) returns (ghost live: set<int>)
    requires numMapped0 <= |lens| && Between(live0, 0, numMapped0)
    ensures live == {}
  {
    live := live0;
    var sg: nat, numMapped: nat := 0, numMapped0;
    while sg < |lens| && numMapped > 0
      invariant sg + numMapped <= |lens| && Between(live, sg, sg + numMapped)
    {
      live := live - {sg};
      sg, numMapped := sg + 1, numMapped - 1;
    }
    assert forall e :: e !in live;
  }

  /** From building the list to the caller's clean-up, on success and on every error, all mappings are given back. */
  method MapAndUnmap(lens: seq<nat>, totalLen: nat, maxLlLen: nat, block: nat, mapOk: seq<bool>, srcAddr: array<Piece>)
    returns (ok: bool, ghost live: set<int>)
    requires 0 < block < MAX_BUFFER_SIZE && |mapOk| == |lens|
    modifies srcAddr
    ensures live == {}
    ensures ok <==> |ListPieces(lens, 0, totalLen, block)| <= maxLlLen + 1 && AllMapped(lens, totalLen, mapOk)
  {
    var numLists, numMapped, inside;
    ghost var written;
    ok, numLists, numMapped, inside, written, live := PrepareList(lens, totalLen, maxLlLen, block, mapOk, srcAddr);
    live := UnmapList(lens, numMapped, live);
  }

  /** The pieces of one entry: those already written, then those of what is left of it. */
  ghost predicate Cut(all: seq<Piece>, entry: nat, done: seq<Piece>, offset: nat, len: nat, block: nat)
    requires 0 < block < MAX_BUFFER_SIZE
  {
    all == done + EntryPieces(entry, offset, len, block)
  }

  lemma CutStep(all: seq<Piece>, entry: nat, done: seq<Piece>, offset: nat, len: nat, block: nat)
    requires 0 < block < MAX_BUFFER_SIZE && Cut(all, entry, done, offset, len, block) && len > 0
    ensures |all| > |done| && done <= all
    ensures var n := if len >= MAX_BUFFER_SIZE then MAX_BUFFER_SIZE - block else len;
            Cut(all, entry, done + [Piece(entry, offset, n)], offset + n, len - n, block)
  {
    if len >= MAX_BUFFER_SIZE {
      var n, rest := EntryUnfold(entry, offset, len, block);
      Assoc(done, [Piece(entry, offset, n)], rest);
    }
  }

  /** The inner loop over one entry; it stops at the first piece the bound does not let through. */
  method CutEntry(entry: nat, len0: nat, i0: nat, maxLlLen: nat, block: nat, srcAddr: array<Piece>,
                  ghost dest: seq<Piece>, ghost before: seq<Piece>)
    returns (ok: bool, i: nat, inside: bool, ghost written: seq<Piece>)
    requires 0 < block < MAX_BUFFER_SIZE && |before| == i0 <= maxLlLen + 1 && srcAddr[..] == Overlaid(dest, before)
    modifies srcAddr
    ensures var all := before + EntryPieces(entry, 0, len0, block);
            && (ok <==> |all| <= maxLlLen + 1)
            && written == all[..Min(|all|, maxLlLen + 1)]
    ensures i == |written| && srcAddr[..] == Overlaid(dest, written)
    ensures inside <==> i == i0 || i <= srcAddr.Length
  {
    hide Cut, EntryPieces, Overlaid;
    var len: nat, addrOffset: nat := len0, 0;
    i, inside, written := i0, true, before;
    ghost var all := CutStart(before, entry, len0, block);
    while len >= MAX_BUFFER_SIZE
      invariant |written| == i && i0 <= i <= maxLlLen + 1 && srcAddr[..] == Overlaid(dest, written)
      invariant inside <==> i == i0 || i <= srcAddr.Length
      invariant Cut(all, entry, written, addrOffset, len, block)
      decreases len
    {
      var processLen := MAX_BUFFER_SIZE - block;
      CutStep(all, entry, written, addrOffset, len, block);
      if i > maxLlLen {
        return false, i, inside, written;
      }
      var stored := Store(srcAddr, i, Piece(entry, addrOffset, processLen), dest, written);
      inside, written := inside && stored, written + [Piece(entry, addrOffset, processLen)];
      i := i + 1;
      addrOffset := addrOffset + processLen;
      len := len - processLen;
    }
    if len > 0 {
      CutStep(all, entry, written, addrOffset, len, block);
      if i > maxLlLen {
        return false, i, inside, written;
      }
      var stored := Store(srcAddr, i, Piece(entry, addrOffset, len), dest, written);
      inside, written := inside && stored, written + [Piece(entry, addrOffset, len)];
      i := i + 1;
      addrOffset, len := addrOffset + len, 0;
    }
    ok := true;
    CutDone(all, entry, written, addrOffset, block);
  }

  lemma CutStart(before: seq<Piece>, entry: nat, len: nat, block: nat) returns (all: seq<Piece>)
    requires 0 < block < MAX_BUFFER_SIZE
    ensures all == before + EntryPieces(entry, 0, len, block) && Cut(all, entry, before, 0, len, block)
  {
    all := before + EntryPieces(entry, 0, len, block);
  }

  lemma CutDone(all: seq<Piece>, entry: nat, done: seq<Piece>, offset: nat, block: nat)
    requires 0 < block < MAX_BUFFER_SIZE && Cut(all, entry, done, offset, 0, block)
    ensures all == done
  {
    assert done + [] == done;
  }

  lemma ListStep(lens: seq<nat>, entry: nat, total: nat, block: nat)
    requires 0 < block < MAX_BUFFER_SIZE && entry < |lens| && total > 0
    ensures var len := Min(lens[entry], total);
            && ListPieces(lens, entry, total, block)
            == EntryPieces(entry, 0, len, block) + ListPieces(lens, entry + 1, total - len, block)
            && entry < Visited(lens, entry, total) == Visited(lens, entry + 1, total - len)
  {
    VisitedAtLeast(lens, entry + 1, total - Min(lens[entry], total));
  }

  lemma ListEnd(lens: seq<nat>, entry: nat, total: nat, block: nat)
    requires 0 < block < MAX_BUFFER_SIZE && entry <= |lens| && (entry == |lens| || total == 0)
    ensures ListPieces(lens, entry, total, block) == [] && Visited(lens, entry, total) == entry
  {
  }

  lemma {:induction false} VisitedAtLeast(lens: seq<nat>, entry: nat, total: nat)
    requires entry <= |lens|
    ensures entry <= Visited(lens, entry, total) <= |lens|
    decreases |lens| - entry
  {
    if entry < |lens| && total > 0 {
      VisitedAtLeast(lens, entry + 1, total - Min(lens[entry], total));
    }
  }
}
