/**
 The 128-bit AES-CTR counter of the character device: advanced in place by 32-bit limbs, and
 carried from one encryption call of a message to the next.
 */
module CtrCounter {
  import opened Common

  const CTR_LEN: nat := 16
  const INT32_BYTES: nat := 4
  const CTR_TO_INT32: nat := 4
  const TWO128: nat := 0x1_0000_0000_0000_0000_0000_0000_0000_0000
  const AES_PT_MAX_LEN: nat := 16 * 1024 * 1024 - 1
  const STATUS_OK: int := 0
  const STATUS_INVALID_PARAMETER: int := 60

  /** The number a byte string denotes, most significant byte first. */
  function Value(b: seq<byte>): nat {
    if b == [] then 0 else Value(b[..|b| - 1]) * 256 + b[|b| - 1]
  }

  // ---------------------------------------------------------------- limbs

  function Word32(a: nat, b: nat, c: nat, d: nat): nat { ((a * 256 + b) * 256 + c) * 256 + d }

  /** 256 to the power 3 - j: where byte j of a big-endian 32-bit limb sits. */
  function Place(j: nat): nat { if j == 0 then 0x100_0000 else if j == 1 then 0x1_0000 else if j == 2 then 0x100 else 1 }

  /** 2 to the power 32 * (4 - k): what limbs k and up stay below. */
  function Weight(k: nat): nat {
    if k >= 4 then 1 else if k == 3 then TWO32 else if k == 2 then TWO64 else if k == 1 then TWO32 * TWO64 else TWO128
  }

  /** Limb k of the counter, as far as its first j bytes tell. */
  function Limb(b: seq<byte>, k: nat, j: nat): nat
    requires |b| == CTR_LEN && k < CTR_TO_INT32 && j <= INT32_BYTES
  {
    if j == 0 then 0 else Limb(b, k, j - 1) + b[4 * k + j - 1] * Place(j - 1)
  }

  /** The number that limbs k and up denote. */
  function Limbs(l: seq<nat>, k: nat): nat
    requires |l| == CTR_TO_INT32 && k <= CTR_TO_INT32
    decreases CTR_TO_INT32 - k
  {
    if k == CTR_TO_INT32 then 0 else l[k] * Weight(k + 1) + Limbs(l, k + 1)
  }

  predicate Words(l: seq<nat>, k: nat) {
    forall i | k <= i < |l| :: l[i] < TWO32
  }

  lemma LimbIs(b: seq<byte>, k: nat)
    requires |b| == CTR_LEN && k < CTR_TO_INT32
    ensures Limb(b, k, 4) == Word32(b[4 * k], b[4 * k + 1], b[4 * k + 2], b[4 * k + 3])
  {
    assert Limb(b, k, 2) == Limb(b, k, 1) + b[4 * k + 1] * Place(1);
    assert Limb(b, k, 3) == Limb(b, k, 2) + b[4 * k + 2] * Place(2);
  }

  lemma ValueOne(b: seq<byte>, n: nat)
    requires n < |b|
    ensures Value(b[..n + 1]) == Value(b[..n]) * 256 + b[n]
  {
    assert b[..n + 1][..n] == b[..n];
  }

  lemma ValueFour(b: seq<byte>, n: nat)
    requires n + 4 <= |b|
    ensures Value(b[..n + 4]) == Value(b[..n]) * TWO32 + Word32(b[n], b[n + 1], b[n + 2], b[n + 3])
  {
    ValueOne(b, n); ValueOne(b, n + 1); ValueOne(b, n + 2); ValueOne(b, n + 3);
  }

  lemma ValueStep(b: seq<byte>, k: nat)
    requires |b| == CTR_LEN && k < CTR_TO_INT32
    ensures Value(b[..4 * (k + 1)]) == Value(b[..4 * k]) * TWO32 + Limb(b, k, 4)
  {
    LimbIs(b, k);
    ValueFour(b, 4 * k);
  }

  lemma ValueNone(b: seq<byte>)
    ensures Value(b[..0]) == 0
  {
  }

  lemma LimbsOf(x: nat, y: nat, z: nat, w: nat, l: seq<nat>)
    requires l == [x, y, z, w]
    ensures Limbs(l, 0) == ((x * TWO32 + y) * TWO32 + z) * TWO32 + w
  {
    assert Limbs(l, 3) == w * Weight(4) + Limbs(l, 4);
    assert Limbs(l, 2) == z * Weight(3) + Limbs(l, 3);
    assert Limbs(l, 1) == y * Weight(2) + Limbs(l, 2);
  }

  lemma ValueOfLimbs(b: seq<byte>, l: seq<nat>)
    requires |b| == CTR_LEN && |l| == CTR_TO_INT32
    requires forall k | 0 <= k < CTR_TO_INT32 :: l[k] == Limb(b, k, 4)
    ensures Value(b) == Limbs(l, 0)
  {
    hide Value, Limb, Limbs;
    ValueNone(b);
    ValueStep(b, 0); ValueStep(b, 1); ValueStep(b, 2); ValueStep(b, 3);
    assert b[..16] == b;
    LimbsOf(l[0], l[1], l[2], l[3], l);
  }

  lemma {:induction false} LimbsBelow(l: seq<nat>, k: nat)
    requires |l| == CTR_TO_INT32 && k <= CTR_TO_INT32 && Words(l, k)
    ensures Limbs(l, k) < Weight(k)
    decreases CTR_TO_INT32 - k
  {
    if k < CTR_TO_INT32 {
      LimbsBelow(l, k + 1);
    }
  }

  lemma {:induction false} LimbsSame(l: seq<nat>, m: seq<nat>, k: nat)
    requires |l| == |m| == CTR_TO_INT32 && k <= CTR_TO_INT32
    requires forall i | k <= i < CTR_TO_INT32 :: l[i] == m[i]
    ensures Limbs(l, k) == Limbs(m, k)
    decreases CTR_TO_INT32 - k
  {
    if k < CTR_TO_INT32 {
      LimbsSame(l, m, k + 1);
    }
  }

  lemma Carried(x: nat, carry: nat, r: nat, q: nat, w: nat)
    requires x + carry == r + q * TWO32
    ensures x * w + carry * w == r * w + q * (TWO32 * w)
  {
    assert (x + carry) * w == (r + q * TWO32) * w;
  }

  /** One round of the carry loop. */
  lemma CarryStep(ctr: seq<nat>, was: seq<nat>, res: seq<nat>, k: nat, carry: nat, carry': nat, size: nat)
    requires |ctr| == |was| == |res| == CTR_TO_INT32 && k < CTR_TO_INT32
    requires Limbs(was, k + 1) + carry * Weight(k + 1) == Limbs(ctr, k + 1) + size
    requires res == was[k := res[k]] && ctr[k] + carry == res[k] + carry' * TWO32
    ensures Limbs(res, k) + carry' * Weight(k) == Limbs(ctr, k) + size
  {
    LimbsSame(was, res, k + 1);
    Carried(ctr[k], carry, res[k], carry', Weight(k + 1));
    assert Weight(k) == TWO32 * Weight(k + 1);
  }

  function ByteOf(limb: nat, j: nat): byte
    requires j < INT32_BYTES
  {
    limb / Place(j) % 256
  }

  lemma DivTwice(x: nat)
    ensures x / 0x1_0000 == x / 0x100 / 0x100 && x / 0x100_0000 == x / 0x1_0000 / 0x100
  {
  }

  lemma BytesOfLimb(x: nat)
    requires x < TWO32
    ensures Word32(ByteOf(x, 0), ByteOf(x, 1), ByteOf(x, 2), ByteOf(x, 3)) == x
  {
    DivTwice(x);
    TopByte(x / 0x1_0000 / 0x100, x / 0x1_0000, x / 0x100, x);
  }

  lemma TopByte(d: nat, c: nat, b: nat, a: nat)
    requires d == c / 256 && c == b / 256 && b == a / 256 && a < TWO32
    ensures Word32(d % 256, c % 256, b % 256, a % 256) == a
  {
  }

  /** Every byte is the one its limb has in its place. */
  predicate BytesOf(b: seq<byte>, l: seq<nat>)
    requires |b| == CTR_LEN && |l| == CTR_TO_INT32
  {
    forall i: nat | i < CTR_LEN :: b[i] == ByteOf(l[i / 4], i % 4)
  }

  lemma LimbOfBytes(b: seq<byte>, l: seq<nat>, k: nat)
    requires |b| == CTR_LEN && |l| == CTR_TO_INT32 && k < CTR_TO_INT32 && l[k] < TWO32 && BytesOf(b, l)
    ensures l[k] == Limb(b, k, 4)
  {
    ByteAt(b, l, k, 0);
    ByteAt(b, l, k, 1);
    ByteAt(b, l, k, 2);
    ByteAt(b, l, k, 3);
    hide BytesOf, ByteOf;
    LimbIs(b, k);
    BytesOfLimb(l[k]);
  }

  lemma ByteAt(b: seq<byte>, l: seq<nat>, k: nat, j: nat)
    requires |b| == CTR_LEN && |l| == CTR_TO_INT32 && k < CTR_TO_INT32 && j < INT32_BYTES && BytesOf(b, l)
    ensures b[4 * k + j] == ByteOf(l[k], j)
  {
    assert (4 * k + j) / 4 == k && (4 * k + j) % 4 == j;
  }

  lemma ValueOfBytes(b: seq<byte>, l: seq<nat>)
    requires |b| == CTR_LEN && |l| == CTR_TO_INT32 && Words(l, 0) && BytesOf(b, l)
    ensures Value(b) == Limbs(l, 0)
  {
    hide BytesOf, Limb;
    forall k: nat | k < CTR_TO_INT32 ensures l[k] == Limb(b, k, 4) {
      LimbOfBytes(b, l, k);
    }
    ValueOfLimbs(b, l);
  }

  // ---------------------------------------------------------------- update_counter

  method ReadLimbs(pctr: array<byte>) returns (ctr: array<nat>)
    requires pctr.Length == CTR_LEN
    ensures fresh(ctr) && ctr.Length == CTR_TO_INT32
    ensures Words(ctr[..], 0) && Limbs(ctr[..], 0) == Value(pctr[..])
  {
    ctr := new nat[CTR_TO_INT32](_ => 0);
    for index := 0 to CTR_LEN
      invariant forall k | 0 <= k < CTR_TO_INT32 ::
          ctr[k] == Limb(pctr[..], k, if 4 * k >= index then 0 else if index >= 4 * k + 4 then 4 else index - 4 * k)
    {
      ctr[index / 4] := ctr[index / 4] + pctr[index] * Place(index % 4);
    }
    ValueOfLimbs(pctr[..], ctr[..]);
    forall k | 0 <= k < CTR_TO_INT32 ensures ctr[k] < TWO32 {
      LimbIs(pctr[..], k);
    }
  }

  method AddLimbs(ctr: array<nat>, size: nat) returns (res: array<nat>, carry: nat)
    requires ctr.Length == CTR_TO_INT32 && Words(ctr[..], 0) && size < TWO32
    ensures fresh(res) && res.Length == CTR_TO_INT32 && Words(res[..], 0)
    ensures Limbs(res[..], 0) + carry * TWO128 == Limbs(ctr[..], 0) + size
  {
    res := new nat[CTR_TO_INT32](_ => 0);
    carry := size;
    var count: nat := CTR_TO_INT32;
    while count > 0
      invariant count <= CTR_TO_INT32 && Words(res[..], count)
      invariant Limbs(res[..], count) + carry * Weight(count) == Limbs(ctr[..], count) + size
    {
      count := count - 1;
      ghost var was, before := res[..], carry;
      var sum := ctr[count] + carry;
      carry := sum / TWO32;
      var word: nat := sum % TWO32;
      res[count] := word;
      assert res[..] == was[count := word];
      CarryStep(ctr[..], was, res[..], count, before, carry, size);
    }
  }

  /** Adds exactly `size` to the counter, or fails and leaves its bytes alone. */
  method UpdateCounter(pctr: array<byte>, size: nat) returns (status: int)
    requires pctr.Length == CTR_LEN && size < TWO32
    modifies pctr
    ensures status == if Value(old(pctr[..])) + size < TWO128 then STATUS_OK else STATUS_INVALID_PARAMETER
    ensures status == STATUS_OK ==> Value(pctr[..]) == Value(old(pctr[..])) + size
    ensures status != STATUS_OK ==> pctr[..] == old(pctr[..])
  {
    var ctr := ReadLimbs(pctr);
    var res, increment := AddLimbs(ctr, size);
    LimbsBelow(res[..], 0);
    if increment != 0 {
      return STATUS_INVALID_PARAMETER;
    }
    for index := 0 to CTR_LEN
      modifies pctr
      invariant forall i | 0 <= i < index :: pctr[i] == ByteOf(res[i / 4], i % 4)
    {
      pctr[index] := ByteOf(res[index / 4], index % 4);
    }
    ValueOfBytes(pctr[..], res[..]);
    status := STATUS_OK;
  }

  lemma {:induction false} ValueBound(b: seq<byte>, n: nat)
    requires |b| == CTR_LEN && n <= 4
    ensures Value(b[..4 * n]) < Weight(4 - n)
  {
    if n > 0 {
      ValueBound(b, n - 1);
      ValueFour(b, 4 * (n - 1));
    }
  }

  lemma CounterBound(b: seq<byte>)
    requires |b| == CTR_LEN
    ensures Value(b) < TWO128
  {
    ValueBound(b, 4);
    assert b[..16] == b;
  }

  // ---------------------------------------------------------------- calls

  datatype Mode = CBC | ECB | CTR

  /** One encrypt/decrypt request; `served` says whether the engine and the copies succeed. */
  datatype Call = Call(mode: Mode, encrypt: bool, first: bool, userNonce: nat, length: nat,
                       iv: seq<byte>, ctr: seq<byte>, served: bool)

  predicate WellFormed(c: Call) { |c.iv| == CTR_LEN && |c.ctr| == CTR_LEN }

  predicate Accepted(c: Call) { c.length <= AES_PT_MAX_LEN }

  /** The IV a request starts from, given the counter carried over. */
  function StartIv(mid: seq<byte>, c: Call): (iv: seq<byte>)
    requires WellFormed(c) && |mid| == CTR_LEN
    ensures |iv| == CTR_LEN
  {
    if c.first || !c.encrypt then
      match c.mode { case CBC => c.iv case CTR => c.ctr case ECB => seq(CTR_LEN, _ => 0) }
    else if c.mode.CTR? then mid
    else seq(CTR_LEN, _ => 0)
  }

  /** Without a nonce of the user's, the first byte asks the engine for a random one, or for no new one. */
  function Marked(iv: seq<byte>, c: Call): seq<byte>
    requires |iv| == CTR_LEN
  {
    if c.encrypt && c.userNonce == 0 then iv[0 := if c.first then 1 else 0] else iv
  }

  /** The user's nonce, or a decryption: no random number is asked for. */
  predicate OwnNonce(c: Call) { c.userNonce != 0 || !c.encrypt }

  predicate IsZero(b: seq<byte>) { forall i | 0 <= i < |b| :: b[i] == 0 }

  /** Mode by mode: what the engine is given when it must not make up a number of its own. */
  lemma OwnNonceIv(mid: seq<byte>, c: Call)
    requires WellFormed(c) && |mid| == CTR_LEN && OwnNonce(c)
    ensures var iv := Marked(StartIv(mid, c), c);
            && |iv| == CTR_LEN
            && (c.mode.CBC? && (c.first || !c.encrypt) ==> iv == c.iv)
            && (c.mode.CTR? && (c.first || !c.encrypt) ==> iv == c.ctr)
            && (c.mode.CTR? && !c.first && c.encrypt ==> iv == mid)
            && (c.mode.ECB? || (c.mode.CBC? && !c.first && c.encrypt) ==> IsZero(iv))
  {
  }

  /** And when it must: the first byte says whether, the other fifteen are as they would be otherwise. */
  lemma RandomNonceIv(mid: seq<byte>, c: Call)
    requires WellFormed(c) && |mid| == CTR_LEN && !OwnNonce(c)
    ensures var iv := Marked(StartIv(mid, c), c);
            && |iv| == CTR_LEN && iv[0] == (if c.first then 1 else 0)
            && (c.mode.CBC? && c.first ==> iv[1..] == c.iv[1..])
            && (c.mode.CTR? ==> iv[1..] == if c.first then c.ctr[1..] else mid[1..])
            && (c.mode.ECB? || (c.mode.CBC? && !c.first) ==> IsZero(iv[1..]))
  {
  }

  predicate Carries(c: Call) { c.served && c.userNonce == 1 && c.encrypt && c.mode.CTR? }

  /** The carried counter after a request, as a number. */
  function After(mid: nat, c: Call): nat
    requires WellFormed(c)
  {
    var entry := if c.first then 0 else mid;
    var start := if c.first then Value(c.ctr) else mid;
    if !Accepted(c) then mid
    else if Carries(c) && start + c.length / 16 < TWO128 then start + c.length / 16
    else entry
  }

  class Device {
    const intermediate: array<byte>

    constructor ()
      ensures fresh(intermediate) && intermediate.Length == CTR_LEN
    {
      intermediate := new byte[CTR_LEN](_ => 0);
    }

    ghost function Mid(): nat
      reads intermediate
    {
      Value(intermediate[..])
    }

    /** One request: what IV reaches the engine and what is carried over to the next request. */
    method EncDec(c: Call) returns (ret: int, engineIv: seq<byte>)
      requires intermediate.Length == CTR_LEN && WellFormed(c)
      modifies intermediate
      ensures Mid() == After(old(Mid()), c)
      ensures Accepted(c) && c.mode.CTR? && (c.userNonce != 0 || !c.encrypt) ==>
                Value(engineIv) == if c.first || !c.encrypt then Value(c.ctr) else old(Mid())
      ensures Accepted(c) ==> |engineIv| == CTR_LEN && engineIv == Marked(StartIv(old(intermediate[..]), c), c)
      // No random number wanted: the caller's vector or counter, the carried counter, or zeros.
      ensures Accepted(c) && OwnNonce(c) && c.mode.CBC? && (c.first || !c.encrypt) ==> engineIv == c.iv
      ensures Accepted(c) && OwnNonce(c) && c.mode.CTR? ==>
                engineIv == if c.first || !c.encrypt then c.ctr else old(intermediate[..])
      ensures Accepted(c) && OwnNonce(c) && (c.mode.ECB? || (c.mode.CBC? && !c.first && c.encrypt)) ==> IsZero(engineIv)
      // A random number wanted: the first byte asks for it, once.
      ensures Accepted(c) && !OwnNonce(c) ==> engineIv[0] == if c.first then 1 else 0
      ensures Accepted(c) && !OwnNonce(c) && c.mode.CBC? && c.first ==> engineIv[1..] == c.iv[1..]
      ensures Accepted(c) && !OwnNonce(c) && c.mode.CTR? ==>
                engineIv[1..] == if c.first then c.ctr[1..] else old(intermediate[..])[1..]
      ensures Accepted(c) && !OwnNonce(c) && (c.mode.ECB? || (c.mode.CBC? && !c.first)) ==> IsZero(engineIv[1..])
      ensures !Accepted(c) ==> engineIv == [] && intermediate[..] == old(intermediate[..])
      ensures (ret == STATUS_OK) ==
                (Accepted(c) && c.served && (Carries(c) ==> Value(engineIv) + c.length / 16 < TWO128))
    {
      engineIv := [];
      if c.length > AES_PT_MAX_LEN {
        return -22, [];
      }
      if c.first {
        forall i | 0 <= i < CTR_LEN { intermediate[i] := 0; }
        ZeroValue(intermediate[..]);
      }
      ghost var entry := intermediate[..];
      var next := NextBlockIv(c);
      assert intermediate[..] == entry;
      engineIv := next[..];
      if OwnNonce(c) { OwnNonceIv(old(intermediate[..]), c); } else { RandomNonceIv(old(intermediate[..]), c); }
      if !c.served {
        return -5, engineIv;
      }
      ret := STATUS_OK;
      if c.userNonce == 1 && c.encrypt && c.mode.CTR? {
        assert Value(engineIv) == if c.first then Value(c.ctr) else old(Mid());
        ret := UpdateCounter(next, c.length / 16);
        if ret == STATUS_OK {
          ghost var advanced := next[..];
          forall i | 0 <= i < CTR_LEN { intermediate[i] := next[i]; }
          assert intermediate[..] == advanced;
        } else {
          assert intermediate[..] == entry;
        }
      }
    }

    /** The IV buffer, its first byte marked when a random nonce is wanted from the engine. */
    method NextBlockIv(c: Call) returns (next: array<byte>)
      requires intermediate.Length == CTR_LEN && WellFormed(c)
      ensures fresh(next) && next.Length == CTR_LEN
      ensures next[..] == Marked(StartIv(intermediate[..], c), c)
    {
      next := new byte[CTR_LEN];
      var start := StartIv(intermediate[..], c);
      forall i | 0 <= i < CTR_LEN { next[i] := start[i]; }
      assert next[..] == start;
      if c.encrypt && c.userNonce == 0 {
        next[0] := if c.first then 1 else 0;
      }
    }
  }

  lemma {:induction false} ZeroValue(b: seq<byte>)
    requires forall i | 0 <= i < |b| :: b[i] == 0
    ensures Value(b) == 0
  {
    if b != [] {
      ZeroValue(b[..|b| - 1]);
    }
  }

  // ---------------------------------------------------------------- runs of calls

  /** A served CTR encryption with a nonce of the user's: nonzero, as the interface promises. */
  predicate IsUse(c: Call) {
    Accepted(c) && c.served && c.encrypt && c.mode.CTR? && c.userNonce != 0
  }

  /** The counter blocks [start, start + Blocks(length)) one such call feeds to AES. */
  datatype Use = Use(start: nat, length: nat, userNonce: nat, first: bool)

  function Blocks(length: nat): nat { (length + 15) / 16 }

  function UseOf(mid: nat, c: Call): Use {
    Use(if c.first then Value(c.ctr) else mid, c.length, c.userNonce, c.first)
  }

  function Uses(mid: nat, calls: seq<Call>): seq<Use>
    requires forall c | c in calls :: WellFormed(c)
    decreases |calls|
  {
    if calls == [] then [] else
      (if IsUse(calls[0]) then [UseOf(mid, calls[0])] else []) + Uses(After(mid, calls[0]), calls[1..])
  }

  /** A message: one first call, then calls that say they are not the first. */
  predicate Message(calls: seq<Call>) {
    && (forall c | c in calls :: WellFormed(c) && (IsUse(c) ==> c.length > 0))
    && (forall i | 1 <= i < |calls| :: !calls[i].first)
  }

  /** What a call must be for its successor to go on where it stopped. */
  predicate Proper(u: Use) {
    u.userNonce == 1 && u.length % 16 == 0 && u.start + u.length / 16 < TWO128
  }

  function TotalBlocks(us: seq<Use>): nat {
    if us == [] then 0 else TotalBlocks(us[..|us| - 1]) + Blocks(us[|us| - 1].length)
  }

  /** Call k starts at the first call's counter plus the blocks already used. */
  ghost predicate Contiguous(us: seq<Use>) {
    forall k | 0 <= k < |us| :: us[k].start == us[0].start + TotalBlocks(us[..k])
  }

  lemma {:induction false} FirstUse(mid: nat, calls: seq<Call>)
    requires Message(calls) && (calls != [] ==> !calls[0].first)
    ensures Uses(mid, calls) != [] ==> Uses(mid, calls)[0].start == mid
    decreases |calls|
  {
    if calls != [] && !IsUse(calls[0]) {
      assert After(mid, calls[0]) == mid;
      FirstUse(mid, calls[1..]);
    }
  }

  /** The carried counter is advanced: the nonce is marked 1 and the sum fits 128 bits. */
  predicate Advances(u: Use) { u.userNonce == 1 && u.start + u.length / 16 < TWO128 }

  /** Where the next use starts, whatever other requests come in between. */
  lemma {:induction false} NextStart(mid: nat, calls: seq<Call>, k: nat)
    requires Message(calls) && k + 1 < |Uses(mid, calls)|
    ensures var us := Uses(mid, calls);
            && (Advances(us[k]) ==> us[k + 1].start == us[k].start + us[k].length / 16)
            && (!Advances(us[k]) ==> us[k + 1].start == if us[k].first then 0 else us[k].start)
    decreases |calls|
  {
    var c, rest := calls[0], calls[1..];
    if !IsUse(c) {
      NextStart(After(mid, c), rest, k);
    } else if k > 0 {
      NextStart(After(mid, c), rest, k - 1);
    } else {
      FirstUse(After(mid, c), rest);
    }
  }

  lemma {:induction false} OnlyFirstIsFirst(mid: nat, calls: seq<Call>, k: nat)
    requires Message(calls) && k < |Uses(mid, calls)|
    ensures Uses(mid, calls)[k].first ==> k == 0 && calls[0].first
    decreases |calls|
  {
    var c, rest := calls[0], calls[1..];
    if !IsUse(c) {
      OnlyFirstIsFirst(After(mid, c), rest, k);
    } else if k > 0 {
      OnlyFirstIsFirst(After(mid, c), rest, k - 1);
    }
  }

  /** What follows the first use is the uses of a message of its own. */
  lemma {:induction false} LaterUses(mid: nat, calls: seq<Call>) returns (mid': nat, rest: seq<Call>)
    requires Message(calls) && mid < TWO128 && Uses(mid, calls) != []
    ensures mid' < TWO128 && Message(rest) && Uses(mid', rest) == Uses(mid, calls)[1..]
    decreases |calls|
  {
    var c := calls[0];
    CounterBound(c.ctr);
    if IsUse(c) {
      mid', rest := After(mid, c), calls[1..];
      assert Uses(mid, calls) == [UseOf(mid, c)] + Uses(mid', rest);
    } else {
      assert Uses(mid, calls) == [] + Uses(After(mid, c), calls[1..]);
      mid', rest := LaterUses(After(mid, c), calls[1..]);
    }
  }

  lemma {:induction false} UseRange(mid: nat, calls: seq<Call>, k: nat)
    requires Message(calls) && mid < TWO128 && k < |Uses(mid, calls)|
    ensures var u := Uses(mid, calls)[k]; u.start < TWO128 && 0 < u.length <= AES_PT_MAX_LEN
    decreases |calls|
  {
    var c, rest := calls[0], calls[1..];
    CounterBound(c.ctr);
    if !IsUse(c) {
      UseRange(After(mid, c), rest, k);
    } else if k > 0 {
      UseRange(After(mid, c), rest, k - 1);
    }
  }

  /** The next use starts where this one stopped exactly when this one is proper. */
  lemma AdjacentUses(mid: nat, calls: seq<Call>, k: nat)
    requires Message(calls) && mid < TWO128 && k + 1 < |Uses(mid, calls)|
    ensures var us := Uses(mid, calls);
            us[k + 1].start == us[k].start + Blocks(us[k].length) <==> Proper(us[k])
  {
    NextStart(mid, calls, k);
    UseRange(mid, calls, k);
    OnlyFirstIsFirst(mid, calls, k);
  }

  lemma {:induction false} ContiguousNext(us: seq<Use>, k: nat)
    requires k < |us| && forall i | 0 <= i < |us| - 1 :: us[i + 1].start == us[i].start + Blocks(us[i].length)
    ensures us[k].start == us[0].start + TotalBlocks(us[..k])
  {
    if k > 0 {
      ContiguousNext(us, k - 1);
      assert us[..k][..k - 1] == us[..k - 1];
    }
  }

  lemma ProperRunsOn(mid: nat, calls: seq<Call>, us: seq<Use>)
    requires Message(calls) && mid < TWO128 && us == Uses(mid, calls)
    requires forall k | 0 <= k < |us| - 1 :: Proper(us[k])
    ensures Contiguous(us)
  {
    forall i | 0 <= i < |us| - 1 ensures us[i + 1].start == us[i].start + Blocks(us[i].length) {
      AdjacentUses(mid, calls, i);
    }
    forall k | 0 <= k < |us| ensures us[k].start == us[0].start + TotalBlocks(us[..k]) {
      ContiguousNext(us, k);
    }
  }

  lemma GoesOn(us: seq<Use>, k: nat)
    requires Contiguous(us) && k + 1 < |us|
    ensures us[k + 1].start == us[k].start + Blocks(us[k].length)
  {
    assert us[k + 1].start == us[0].start + TotalBlocks(us[..k + 1]);
    assert us[..k + 1][..k] == us[..k];
  }

  lemma RunningOnIsProper(mid: nat, calls: seq<Call>, us: seq<Use>)
    requires Message(calls) && mid < TWO128 && us == Uses(mid, calls) && Contiguous(us)
    ensures forall k | 0 <= k < |us| - 1 :: Proper(us[k])
  {
    forall k | 0 <= k < |us| - 1 ensures Proper(us[k]) {
      GoesOn(us, k);
      AdjacentUses(mid, calls, k);
    }
  }

  /** Over a whole message the counters run on without gap or overlap exactly when all calls but the last are proper. */
  lemma CountersRunOn(mid: nat, calls: seq<Call>)
    requires Message(calls) && mid < TWO128
    ensures var us := Uses(mid, calls);
            Contiguous(us) <==> forall k | 0 <= k < |us| - 1 :: Proper(us[k])
  {
    var us := Uses(mid, calls);
    if forall k | 0 <= k < |us| - 1 :: Proper(us[k]) {
      ProperRunsOn(mid, calls, us);
    }
    if Contiguous(us) {
      RunningOnIsProper(mid, calls, us);
    }
  }

  /** The call feeds counter value v to AES; past 2 to the 128 counters wrap to zero. */
  predicate Hits(u: Use, v: nat) {
    v < TWO128 && (u.start <= v < u.start + Blocks(u.length) || v + TWO128 < u.start + Blocks(u.length))
  }

  ghost predicate NoReuse(us: seq<Use>) {
    forall i: nat, j: nat, v: nat | i < j < |us| && Hits(us[i], v) :: !Hits(us[j], v)
  }

  /** All calls but the last advance the counter, that is return success with the nonce marked 1. */
  predicate AllAdvance(us: seq<Use>) { forall k | 0 <= k < |us| - 1 :: Advances(us[k]) }

  predicate AllWhole(us: seq<Use>) { forall k | 0 <= k < |us| - 1 :: us[k].length % 16 == 0 }

  lemma {:induction false} TotalGrows(us: seq<Use>, i: nat, j: nat)
    requires i < j <= |us|
    ensures TotalBlocks(us[..i]) + Blocks(us[i].length) <= TotalBlocks(us[..j])
  {
    assert us[..j][..j - 1] == us[..j - 1];
    if i < j - 1 {
      TotalGrows(us, i, j - 1);
    }
  }

  lemma RangesApart(us: seq<Use>, i: nat, j: nat, v: nat)
    requires Contiguous(us) && i < j < |us| && us[j].start < TWO128 && TotalBlocks(us) <= TWO128
    requires Hits(us[i], v)
    ensures !Hits(us[j], v)
  {
    TotalGrows(us, i, j);
    TotalGrows(us, j, |us|);
    assert us[..|us|] == us;
    assert us[i].start == us[0].start + TotalBlocks(us[..i]);
  }

  lemma TotalTooLong(us: seq<Use>)
    requires Contiguous(us) && TotalBlocks(us) > TWO128 && us != []
    requires 0 < us[0].length <= AES_PT_MAX_LEN && us[0].start < TWO128
    ensures !NoReuse(us)
  {
    var last: nat := |us| - 1;
    assert us[last].start == us[0].start + TotalBlocks(us[..last]);
    assert Hits(us[0], us[0].start) && Hits(us[last], us[0].start);
  }

  lemma PartialBlockReused(mid: nat, calls: seq<Call>, k: nat)
    requires Message(calls) && mid < TWO128 && k + 1 < |Uses(mid, calls)|
    requires Advances(Uses(mid, calls)[k]) && Uses(mid, calls)[k].length % 16 != 0
    ensures !NoReuse(Uses(mid, calls))
  {
    var us := Uses(mid, calls);
    NextStart(mid, calls, k);
    UseRange(mid, calls, k);
    UseRange(mid, calls, k + 1);
    assert Hits(us[k], us[k + 1].start) && Hits(us[k + 1], us[k + 1].start);
  }

  /** When every call carries the counter on, whole calls and no more than 2 to the 128 blocks are what it takes. */
  lemma AdvancingReuse(mid: nat, calls: seq<Call>)
    requires Message(calls) && mid < TWO128 && AllAdvance(Uses(mid, calls))
    ensures var us := Uses(mid, calls);
            NoReuse(us) <==> AllWhole(us) && TotalBlocks(us) <= TWO128
  {
    var us := Uses(mid, calls);
    if k: nat :| k < |us| - 1 && us[k].length % 16 != 0 {
      PartialBlockReused(mid, calls, k);
    } else {
      CountersRunOn(mid, calls);
      assert Contiguous(us);
      if us != [] && TotalBlocks(us) > TWO128 {
        UseRange(mid, calls, 0);
        TotalTooLong(us);
      } else {
        forall i: nat, j: nat, v: nat | i < j < |us| && Hits(us[i], v) ensures !Hits(us[j], v) {
          UseRange(mid, calls, j);
          RangesApart(us, i, j, v);
        }
      }
    }
  }

  /**
   Either every call but the last carries the counter on, is whole blocks, and 2 to the 128 blocks
   suffice; or just the first call does not carry it on, the others start from zero, and they stop
   before the first call's counters begin.
   */
  predicate KeepsApart(us: seq<Use>) {
    if AllAdvance(us) then AllWhole(us) && TotalBlocks(us) <= TWO128
    else
      && us[0].first && AllAdvance(us[1..]) && AllWhole(us[1..])
      && TotalBlocks(us[1..]) <= us[0].start && us[0].start + Blocks(us[0].length) <= TWO128
  }

  /** A call that is not the message's first and does not carry the counter on gives it to the next call again. */
  lemma StandingStillReuses(mid: nat, calls: seq<Call>, k: nat)
    requires Message(calls) && mid < TWO128 && k + 1 < |Uses(mid, calls)|
    requires !Advances(Uses(mid, calls)[k]) && !Uses(mid, calls)[k].first
    ensures !NoReuse(Uses(mid, calls))
  {
    var us := Uses(mid, calls);
    NextStart(mid, calls, k);
    UseRange(mid, calls, k);
    UseRange(mid, calls, k + 1);
    assert Hits(us[k], us[k].start) && Hits(us[k + 1], us[k].start);
  }

  lemma HitsBelow(us: seq<Use>, j: nat, v: nat)
    requires Contiguous(us) && j < |us| && us[0].start == 0 && TotalBlocks(us) <= TWO128 && Hits(us[j], v)
    ensures v < TotalBlocks(us)
  {
    TotalGrows(us, j, |us|);
    assert us[..|us|] == us;
  }

  lemma {:induction false} Covered(us: seq<Use>, n: nat, v: nat) returns (j: nat)
    requires Contiguous(us) && n <= |us| && us != [] && us[0].start == 0 && v < TotalBlocks(us[..n]) && v < TWO128
    ensures j < n && Hits(us[j], v)
  {
    assert us[..n][..n - 1] == us[..n - 1];
    if v < TotalBlocks(us[..n - 1]) {
      j := Covered(us, n - 1, v);
    } else {
      j := n - 1;
    }
  }

  ghost predicate Apart(first: Use, us: seq<Use>) {
    forall j: nat, v: nat | j < |us| && Hits(first, v) :: !Hits(us[j], v)
  }

  /** The first call's counters and those of the others, which start from zero. */
  lemma FirstApart(first: Use, us: seq<Use>)
    requires us != [] && Contiguous(us) && us[0].start == 0 && TotalBlocks(us) <= TWO128
    requires first.start < TWO128 && first.length > 0 && us[0].length > 0
    ensures Apart(first, us)
       <==> TotalBlocks(us) <= first.start && first.start + Blocks(first.length) <= TWO128
  {
    if first.start + Blocks(first.length) > TWO128 {
      assert Hits(first, 0) && Hits(us[0], 0);
    } else if TotalBlocks(us) > first.start {
      assert us[..|us|] == us;
      var j := Covered(us, |us|, first.start);
      assert Hits(first, first.start);
    } else {
      forall j: nat, v: nat | j < |us| && Hits(first, v) ensures !Hits(us[j], v) {
        if Hits(us[j], v) {
          HitsBelow(us, j, v);
        }
      }
    }
  }

  lemma ReuseSplits(first: Use, us: seq<Use>)
    ensures NoReuse([first] + us)
       <==> NoReuse(us) && Apart(first, us)
  {
    var all := [first] + us;
    assert forall j: nat | j < |us| :: all[j + 1] == us[j];
    if NoReuse(all) {
      forall i: nat, j: nat, v: nat | i < j < |us| && Hits(us[i], v) ensures !Hits(us[j], v) {
        assert Hits(all[i + 1], v) && all[j + 1] == us[j];
      }
      forall j: nat, v: nat | j < |us| && Hits(first, v) ensures !Hits(us[j], v) {
        assert Hits(all[0], v) && all[j + 1] == us[j];
      }
    }
    if NoReuse(us) && Apart(first, us) {
      forall i: nat, j: nat, v: nat | i < j < |all| && Hits(all[i], v) ensures !Hits(all[j], v) {
        assert all[j] == us[j - 1];
        if i > 0 {
          assert all[i] == us[i - 1];
        }
      }
    }
  }

  /** Only the first call does not carry the counter on: the others start over from zero. */
  lemma RestartReuse(mid: nat, calls: seq<Call>)
    requires Message(calls) && mid < TWO128 && |Uses(mid, calls)| > 1
    requires Uses(mid, calls)[0].first && !Advances(Uses(mid, calls)[0]) && AllAdvance(Uses(mid, calls)[1..])
    ensures NoReuse(Uses(mid, calls)) <==> KeepsApart(Uses(mid, calls))
  {
    var us := Uses(mid, calls);
    var mid', rest := LaterUses(mid, calls);
    NextStart(mid, calls, 0);
    UseRange(mid, calls, 0);
    UseRange(mid, calls, 1);
    hide Uses;
    var first, later := us[0], us[1..];
    assert us == [first] + later && later[0] == us[1];
    RestartMeans(us);
    AdvancingReuse(mid', rest);
    ReuseSplits(first, later);
    if AllWhole(later) && TotalBlocks(later) <= TWO128 {
      WholeRunsOn(mid', rest, later);
      FirstApart(first, later);
    }
    hide *;
  }

  lemma RestartMeans(us: seq<Use>)
    requires |us| > 1 && us[0].first && !Advances(us[0]) && AllAdvance(us[1..]) && us[0].start < TWO128
    ensures KeepsApart(us) <==> AllWhole(us[1..]) && TotalBlocks(us[1..]) <= us[0].start
                                && us[0].start + Blocks(us[0].length) <= TWO128
    ensures KeepsApart(us) ==> TotalBlocks(us[1..]) <= TWO128
  {
  }

  lemma WholeRunsOn(mid: nat, calls: seq<Call>, us: seq<Use>)
    requires Message(calls) && mid < TWO128 && us == Uses(mid, calls) && AllAdvance(us) && AllWhole(us)
    ensures Contiguous(us)
  {
    CountersRunOn(mid, calls);
  }

  /** Over every message, whatever its nonces and overflows, this is exactly when no counter value is used twice. */
  lemma CounterReuse(mid: nat, calls: seq<Call>)
    requires Message(calls) && mid < TWO128
    ensures NoReuse(Uses(mid, calls)) <==> KeepsApart(Uses(mid, calls))
  {
    var us := Uses(mid, calls);
    if AllAdvance(us) {
      AdvancingReuse(mid, calls);
    } else if k: nat :| 0 < k < |us| - 1 && !Advances(us[k]) {
      OnlyFirstIsFirst(mid, calls, k);
      StandingStillReuses(mid, calls, k);
      assert us[1..][k - 1] == us[k];
    } else if us[0].first {
      RestartReuse(mid, calls);
    } else {
      StandingStillReuses(mid, calls, 0);
    }
  }
}
