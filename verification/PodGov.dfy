/**
 The pod scaling governor: a ring buffer keeps the highest of the recent loads, and a damped,
 clamped decision turns it into a request that is rounded up to a table entry.
 */
module PodGov {
  import opened Common

  const MHZ: nat := 1_000_000
  const MAX_HZ: nat := 1_000_000_000_000
  /** No request and no average gets above the highest frequency and a third of it, in MHz. */
  const MAX_MHZ: nat := 1_333_333
  const ULONG_MAX: nat := 0xFFFF_FFFF_FFFF_FFFF
  const BLOCK_WINDOW: nat := 50000

  // ---------------------------------------------------------------- the window

  function MaxOf(s: seq<nat>): nat { if s == [] then 0 else Max(MaxOf(s[..|s| - 1]), s[|s| - 1]) }

  lemma {:induction false} MaxOfIs(s: seq<nat>)
    ensures forall x | x in s :: x <= MaxOf(s)
    ensures s != [] ==> MaxOf(s) in s
  {
    if s != [] {
      var p, last := s[..|s| - 1], s[|s| - 1];
      MaxOfIs(p);
      assert s == p + [last];
    }
  }

  lemma MaxOfSnoc(s: seq<nat>, x: nat)
    ensures MaxOf(s + [x]) == Max(MaxOf(s), x)
  {
    assert (s + [x])[..|s|] == s;
  }

  function LastOf(s: seq<nat>, n: nat): seq<nat> { if |s| <= n then s else s[|s| - n..] }

  function Succ(i: nat, size: nat): (r: nat)
    requires i < size
    ensures r == if i + 1 == size then 0 else i + 1
  {
    (i + 1) % size
  }

  /** The entries from the oldest on, once the buffer is full. */
  function Ring(buf: seq<nat>, size: nat, next: nat): seq<nat>
    requires next < size <= |buf|
  {
    buf[next..size] + buf[..next]
  }

  /** All entries but the oldest. */
  function Newer(buf: seq<nat>, size: nat, next: nat): seq<nat>
    requires next < size <= |buf|
  {
    buf[next + 1..size] + buf[..next]
  }

  /** What the rescan has looked at when it comes to entry i. */
  function Seen(buf: seq<nat>, size: nat, next: nat, i: nat): seq<nat>
    requires next < size <= |buf| && i < size
  {
    if i > next then buf[next + 1..i] else buf[next + 1..size] + buf[..i]
  }

  lemma SeenFirst(buf: seq<nat>, size: nat, next: nat)
    requires next < size <= |buf|
    ensures MaxOf(Seen(buf, size, next, Succ(next, size))) == 0
    ensures Seen(buf, size, next, next) == Newer(buf, size, next)
  {
  }

  lemma SeenNext(buf: seq<nat>, size: nat, next: nat, i: nat)
    requires next < size <= |buf| && i < size && i != next
    ensures Seen(buf, size, next, Succ(i, size)) == Seen(buf, size, next, i) + [buf[i]]
  {
    if i > next {
      assert buf[next + 1..i + 1] == buf[next + 1..i] + [buf[i]];
    } else {
      assert buf[..i + 1] == buf[..i] + [buf[i]];
      Assoc(buf[next + 1..size], buf[..i], [buf[i]]);
    }
  }

  /** The buffer holds the last `size` loads, the oldest at `next` once it is full. */
  ghost predicate Window(buf: seq<nat>, size: nat, next: nat, count: nat, loads: seq<nat>) {
    && size <= |buf| && count == Min(|loads|, size)
    && if count < size then next == count && buf[..next] == loads
       else if size == 0 then next == 0
       else next < size && Ring(buf, size, next) == loads[|loads| - size..]
  }

  /** The window, and recent_high the highest load in it. */
  ghost predicate Tracks(buf: seq<nat>, size: nat, next: nat, count: nat, high: nat, loads: seq<nat>) {
    Window(buf, size, next, count, loads) && high == if size == 0 then 0 else MaxOf(LastOf(loads, size))
  }

  lemma TracksNothing(buf: seq<nat>, size: nat)
    requires size <= |buf|
    ensures Tracks(buf, size, 0, 0, 0, [])
  {
    assert buf[..0] == [];
  }

  lemma RingSlides(buf: seq<nat>, size: nat, next: nat, load: nat)
    requires next < size <= |buf|
    ensures Ring(buf, size, next) == [buf[next]] + Newer(buf, size, next)
    ensures Ring(buf[next := load], size, Succ(next, size)) == Newer(buf, size, next) + [load]
  {
  }

  lemma TailSlides(loads: seq<nat>, size: nat, load: nat, oldest: nat, newer: seq<nat>)
    requires 0 < size <= |loads| && loads[|loads| - size..] == [oldest] + newer
    ensures (loads + [load])[|loads| + 1 - size..] == newer + [load]
  {
    assert newer == loads[|loads| - size..][1..];
  }

  lemma TracksSlides(buf: seq<nat>, size: nat, next: nat, high: nat, loads: seq<nat>, load: nat)
    requires Tracks(buf, size, next, size, high, loads) && size > 0
    ensures next < size <= |buf|
    ensures Tracks(buf[next := load], size, Succ(next, size), size, Max(MaxOf(Newer(buf, size, next)), load), loads + [load])
  {
    RingSlides(buf, size, next, load);
    TailSlides(loads, size, load, buf[next], Newer(buf, size, next));
    MaxOfSnoc(Newer(buf, size, next), load);
  }

  lemma TracksNone(buf: seq<nat>, next: nat, count: nat, high: nat, loads: seq<nat>, load: nat)
    requires Tracks(buf, 0, next, count, high, loads)
    ensures Tracks(buf, 0, next, count, high, loads + [load])
  {
  }

  lemma TracksGrows(buf: seq<nat>, size: nat, next: nat, count: nat, high: nat, loads: seq<nat>, load: nat)
    requires Tracks(buf, size, next, count, high, loads) && count != size
    ensures next < size <= |buf| && count < size
    ensures Tracks(buf[next := load], size, Succ(next, size), count + 1, Max(high, load), loads + [load])
  {
    var b := buf[next := load];
    assert b[..next + 1] == buf[..next] + [load];
    MaxOfSnoc(loads, load);
    if next + 1 == size {
      assert Ring(b, size, 0) == b[..next + 1];
    }
  }

  // ---------------------------------------------------------------- the decision

  datatype Tunables = Tunables(loadMax: nat, loadTarget: nat, bias: nat, smooth: nat, damp: nat)

  const DEFAULTS: Tunables := Tunables(900, 700, 80, 10, 7)

  predicate Sane(t: Tunables) {
    0 < t.loadTarget <= 1000 && t.bias <= 100 && 0 < t.smooth <= 1000 && t.damp <= 10
  }

  /** C's division of signed values. */
  function TruncDiv(a: int, b: int): int
    requires b > 0
  {
    if a >= 0 then a / b else -(-a / b)
  }

  function Boost(t: Tunables, freq: nat, busyness: nat, rtLoad: nat, maxBoost: nat): int
    requires t.loadTarget > 0
  {
    if rtLoad > t.loadMax then maxBoost
    else Min(TruncDiv((busyness - t.loadTarget) * (t.bias * freq), 100 * t.loadTarget), maxBoost)
  }

  /** freq_avg is divided as an unsigned 32-bit number. */
  function Average(t: Tunables, avg: int, res: int): int {
    (avg * t.smooth + res) % 0x1_0000_0000 / (t.smooth + 1)
  }

  function Damped(t: Tunables, rtLoad: nat, res: int, avg: int): int {
    var damp := if rtLoad > t.loadMax then 10 else t.damp;
    TruncDiv(damp * res + (10 - damp) * avg, 10)
  }

  lemma MulMono(a: nat, b: nat, c: nat)
    requires a <= b
    ensures 0 <= a * c <= b * c
  {
  }

  lemma DivAtMost(y: nat, d: nat, f: nat)
    requires d > 0 && y <= f * d
    ensures 0 <= y / d <= f
  {
    assert y / d * d <= y;
    if y / d > f {
      MulMore(f, y / d, d);
    }
  }

  lemma MulMore(f: nat, q: nat, d: nat)
    requires f < q
    ensures q * d >= f * d + d
  {
    MulMono(f + 1, q, d);
    assert (f + 1) * d == f * d + d;
  }

  lemma DivNat(y: nat, d: nat)
    requires d > 0
    ensures y / d >= 0
  {
  }

  lemma TruncBelow(x: int, d: nat, f: nat)
    requires d > 0 && x >= 0 - f * d
    ensures TruncDiv(x, d) >= 0 - f
  {
    if x < 0 {
      DivAtMost(-x, d, f);
    } else {
      DivNat(x, d);
    }
  }

  /** A load below target takes at most bias percent off the frequency. */
  lemma BoostAbove(t: Tunables, freq: nat, busyness: nat, rtLoad: nat, maxBoost: nat)
    requires t.loadTarget > 0 && t.bias <= 100
    ensures 0 - freq <= Boost(t, freq, busyness, rtLoad, maxBoost) <= maxBoost
  {
    if rtLoad <= t.loadMax {
      MulMono(t.bias, 100, freq);
      var w: nat := t.bias * freq;
      var x := (busyness - t.loadTarget) * w;
      AtLeast(busyness, t.loadTarget, w, freq);
      TruncBelow(x, 100 * t.loadTarget, freq);
    }
  }

  lemma AtLeast(busyness: nat, target: nat, w: nat, freq: nat)
    requires w <= 100 * freq
    ensures (busyness - target) * w >= 0 - freq * (100 * target)
  {
    MulMono(w, 100 * freq, target);
    MulMono(0, busyness, w);
    assert (busyness - target) * w == busyness * w - w * target;
    assert 100 * freq * target == freq * (100 * target);
  }

  lemma BiasTooHigh(t: Tunables)
    requires t.loadTarget > 0 && t.bias > 100
    ensures 100 + Boost(t, 100, 0, 0, 0) < 0
  {
    var a := t.loadTarget * (t.bias * 100);
    assert (0 - t.loadTarget) * (t.bias * 100) == -a;
    assert a == t.bias * (100 * t.loadTarget);
    DivModUnique(a, 100 * t.loadTarget, t.bias, 0);
    assert a > 0;
  }

  /** The new request is non-negative for every frequency and load exactly when the bias is at most 100. */
  lemma SafeBias(t: Tunables)
    requires t.loadTarget > 0
    ensures (forall freq: nat, busyness: nat, rtLoad: nat, maxBoost: nat ::
               freq + Boost(t, freq, busyness, rtLoad, maxBoost) >= 0) <==> t.bias <= 100
  {
    if t.bias <= 100 {
      forall freq: nat, busyness: nat, rtLoad: nat, maxBoost: nat
        ensures freq + Boost(t, freq, busyness, rtLoad, maxBoost) >= 0
      {
        BoostAbove(t, freq, busyness, rtLoad, maxBoost);
      }
    } else {
      BiasTooHigh(t);
    }
  }

  lemma Mean(a: nat, b: nat, s: nat, limit: nat)
    requires a <= limit && b <= limit
    ensures 0 <= (a * s + b) / (s + 1) <= limit
  {
    MulMono(a, limit, s);
    assert limit * (s + 1) == limit * s + limit;
    DivAtMost(a * s + b, s + 1, limit);
  }

  lemma Fits32(x: nat)
    requires x < TWO32
    ensures x % 0x1_0000_0000 == x
  {
  }

  lemma AverageInRange(t: Tunables, avg: int, res: int)
    requires Sane(t) && 0 <= avg <= MAX_MHZ && 0 <= res <= MAX_MHZ
    ensures Average(t, avg, res) == (avg * t.smooth + res) / (t.smooth + 1)
    ensures 0 <= Average(t, avg, res) <= MAX_MHZ
  {
    MulMono(avg, 1_333_333, t.smooth);
    assert 0 <= avg * t.smooth <= 1_333_333 * t.smooth;
    Fits32(avg * t.smooth + res);
    Mean(avg, res, t.smooth, MAX_MHZ);
  }

  lemma DampedSum(x: int, y: int, damp: nat)
    requires 0 <= x <= 1_333_333 * damp && 0 <= y <= 1_333_333 * (10 - damp)
    ensures 0 <= TruncDiv(x + y, 10) <= MAX_MHZ
  {
  }

  lemma DampedInRange(t: Tunables, rtLoad: nat, res: int, avg: int)
    requires Sane(t) && 0 <= avg <= MAX_MHZ && 0 <= res <= MAX_MHZ
    ensures 0 <= Damped(t, rtLoad, res, avg) <= MAX_MHZ
  {
    var damp := if rtLoad > t.loadMax then 10 else t.damp;
    MulMono(res, 1_333_333, damp);
    MulMono(avg, 1_333_333, 10 - damp);
    DampedSum(damp * res, (10 - damp) * avg, damp);
  }

  lemma DivAtLeast(y: int, d: nat, f: int)
    requires d > 0 && y >= f * d
    ensures y / d >= f
  {
    assert y < y / d * d + d;
    if y / d < f {
      StepsApart(y / d, f, d);
    }
  }

  lemma StepsApart(q: int, f: int, d: nat)
    requires q < f
    ensures q * d + d <= f * d
  {
    MulMono(1, f - q, d);
    assert f * d == q * d + (f - q) * d;
  }

  /** A smoothed value lies between the old value and the new one. */
  lemma MeanBetween(a: nat, b: nat, s: nat)
    ensures Min(a, b) <= (a * s + b) / (s + 1) <= Max(a, b)
  {
    var lo: nat, hi: nat := Min(a, b), Max(a, b);
    MulMono(lo, a, s);
    MulMono(a, hi, s);
    assert lo * (s + 1) == lo * s + lo && hi * (s + 1) == hi * s + hi;
    DivAtLeast(a * s + b, s + 1, lo);
    DivAtMost(a * s + b, s + 1, hi);
  }

  lemma AverageBetween(t: Tunables, avg: int, res: int)
    requires Sane(t) && 0 <= avg <= MAX_MHZ && 0 <= res <= MAX_MHZ
    ensures Min(avg, res) <= Average(t, avg, res) <= Max(avg, res)
  {
    AverageInRange(t, avg, res);
    MeanBetween(avg, res, t.smooth);
  }

  lemma WeighedBetween(a: nat, b: nat, w: nat)
    requires w <= 10
    ensures Min(a, b) <= (w * a + (10 - w) * b) / 10 <= Max(a, b)
    ensures w == 10 ==> (w * a + (10 - w) * b) / 10 == a
    ensures w == 0 ==> (w * a + (10 - w) * b) / 10 == b
  {
    var lo: nat, hi: nat := Min(a, b), Max(a, b);
    MulMono(lo, a, w);
    MulMono(a, hi, w);
    MulMono(lo, b, 10 - w);
    MulMono(b, hi, 10 - w);
    assert w * lo + (10 - w) * lo == 10 * lo && w * hi + (10 - w) * hi == 10 * hi;
  }

  /** The damped request lies between the request and the average; a load above the maximum is not damped. */
  lemma DampedBetween(t: Tunables, rtLoad: nat, res: nat, avg: nat)
    requires t.damp <= 10
    ensures Min(res, avg) <= Damped(t, rtLoad, res, avg) <= Max(res, avg)
    ensures rtLoad > t.loadMax || t.damp == 10 ==> Damped(t, rtLoad, res, avg) == res
    ensures rtLoad <= t.loadMax ==> 0 <= t.damp * res + (10 - t.damp) * avg - 10 * Damped(t, rtLoad, res, avg) < 10
    ensures rtLoad <= t.loadMax && t.damp == 0 ==> Damped(t, rtLoad, res, avg) == avg
  {
    var damp := if rtLoad > t.loadMax then 10 else t.damp;
    MulMono(0, res, damp);
    MulMono(0, avg, 10 - damp);
    WeighedBetween(res, avg, damp);
  }

  lemma TruncMono(x: int, y: int, d: nat)
    requires d > 0 && x <= y
    ensures TruncDiv(x, d) <= TruncDiv(y, d)
  {
    if 0 <= x {
      DivAtLeast(y, d, x / d);
    } else if y < 0 {
      DivAtLeast(-x, d, -y / d);
    } else {
      DivNat(-x, d);
      DivNat(y, d);
    }
  }

  /** More load never asks for less; at its target a load asks for no change. */
  lemma BoostFollowsLoad(t: Tunables, freq: nat, busyness: nat, more: nat, rtLoad: nat, maxBoost: nat)
    requires t.loadTarget > 0 && rtLoad <= t.loadMax && busyness <= more
    ensures Boost(t, freq, busyness, rtLoad, maxBoost) <= Boost(t, freq, more, rtLoad, maxBoost) <= maxBoost
    ensures Boost(t, freq, t.loadTarget, rtLoad, maxBoost) == 0
  {
    var w: nat := t.bias * freq;
    MulMono(0, more - busyness, w);
    assert (more - t.loadTarget) * w == (busyness - t.loadTarget) * w + (more - busyness) * w;
    TruncMono((busyness - t.loadTarget) * w, (more - t.loadTarget) * w, 100 * t.loadTarget);
  }

  /** With the full bias the request is the frequency at which the same cycles would meet the target, rounded down. */
  lemma FullBias(t: Tunables, freq: nat, busyness: nat, rtLoad: nat, maxBoost: nat)
    requires t.loadTarget > 0 && t.bias == 100 && rtLoad <= t.loadMax && busyness >= t.loadTarget
    ensures freq + Boost(t, freq, busyness, rtLoad, maxBoost) == Min(freq * busyness / t.loadTarget, freq + maxBoost)
  {
    var g, over: nat := t.loadTarget, busyness - t.loadTarget;
    MulMono(0, over, freq);
    var y := over * freq;
    assert over * (100 * freq) == 100 * y;
    assert 100 * y == y / g * (100 * g) + 100 * (y % g);
    DivModUnique(100 * y, 100 * g, y / g, 100 * (y % g));
    assert freq * busyness == (freq + y / g) * g + y % g by {
      assert freq * busyness == freq * g + y;
      assert (freq + y / g) * g == freq * g + y / g * g;
    }
    DivModUnique(freq * busyness, g, freq + y / g, y % g);
  }

  // ---------------------------------------------------------------- limits and the table

  function Range(table: seq<nat>, scalingMin: nat, scalingMax: nat): (nat, nat)
    requires table != []
  {
    var first, last := table[0], table[|table| - 1];
    var lo, hi := if first < last then first else last, if first < last then last else first;
    var lo', hi' := Max(lo, scalingMin), Min(hi, scalingMax);
    (if lo' > hi' then hi' else lo', hi')
  }

  function ScalingLimit(range: (nat, nat), freq: nat): nat {
    if freq < range.0 then range.0 else if freq > range.1 then range.1 else freq
  }

  ghost predicate Descending(table: seq<nat>) { forall i, j | 0 <= i < j < |table| :: table[i] > table[j] }

  /** Inside the limits that were set and between two entries of the table. */
  ghost predicate Allowed(table: seq<nat>, scalingMin: nat, scalingMax: nat, freq: nat) {
    && scalingMin <= freq <= scalingMax
    && (exists i | 0 <= i < |table| :: table[i] <= freq)
    && exists i | 0 <= i < |table| :: freq <= table[i]
  }

  /** For a table in either order, the range is exactly what is allowed, if anything is; otherwise it is one frequency. */
  lemma RangeExactly(table: seq<nat>, scalingMin: nat, scalingMax: nat)
    requires table != [] && (Ascending(table) || Descending(table))
    ensures var range := Range(table, scalingMin, scalingMax);
            && range.0 <= range.1 <= scalingMax
            && ((exists f: nat :: Allowed(table, scalingMin, scalingMax, f)) ==>
                forall f: nat :: Allowed(table, scalingMin, scalingMax, f) <==> range.0 <= f <= range.1)
            && ((forall f: nat :: !Allowed(table, scalingMin, scalingMax, f)) ==> range.0 == range.1)
  {
    var range := Range(table, scalingMin, scalingMax);
    forall f: nat ensures Allowed(table, scalingMin, scalingMax, f) ==> range.0 <= f <= range.1 {
    }
    if Allowed(table, scalingMin, scalingMax, range.1) && Allowed(table, scalingMin, scalingMax, range.0) {
      forall f: nat | range.0 <= f <= range.1 ensures Allowed(table, scalingMin, scalingMax, f) {
      }
    }
  }

  /** The limited frequency is the nearest one within the range: the request itself if it is inside. */
  lemma NearestInRange(range: (nat, nat), freq: nat, other: nat)
    requires range.0 <= range.1 && range.0 <= other <= range.1
    ensures var r := ScalingLimit(range, freq);
            && range.0 <= r <= range.1
            && (range.0 <= freq <= range.1 ==> r == freq)
            && (r != other && freq <= range.0 ==> r < other)
            && (r != other && freq >= range.1 ==> r > other)
  {
  }

  /** An int return value stored in an unsigned long. */
  function ThroughInt(x: nat): nat {
    var low := x % 0x1_0000_0000;
    if low < 0x8000_0000 then low else low + 0xFFFF_FFFF_0000_0000
  }

  ghost predicate Ascending(table: seq<nat>) { forall i, j | 0 <= i < j < |table| :: table[i] < table[j] }

  /** The least entry at or above the target, or the last one. */
  ghost predicate IsUp(table: seq<nat>, target: nat, pos: nat) {
    && pos < |table|
    && (forall k | 0 <= k < pos :: table[k] < target)
    && (pos < |table| - 1 ==> table[pos] >= target)
  }

  method FreqlistUp(table: seq<nat>, target: nat) returns (freq: nat)
    requires table != []
    ensures exists pos: nat :: IsUp(table, target, pos) && freq == ThroughInt(table[pos])
  {
    var i := 0;
    while i < |table|
      invariant i <= |table| && forall k | 0 <= k < i :: table[k] < target
    {
      if table[i] >= target { break; }
      i := i + 1;
    }
    var pos: nat := Min(|table| - 1, i);
    freq := ThroughInt(table[pos]);
    assert IsUp(table, target, pos);
  }

  /** Entries go through an int unchanged exactly when they are below 2 to the 31. */
  lemma IntKeeps(x: nat)
    requires x <= ULONG_MAX - 0x8000_0000
    ensures ThroughInt(x) == x <==> x < 0x8000_0000
    ensures ThroughInt(x) <= ULONG_MAX && ThroughInt(x) % 0x1_0000_0000 == x % 0x1_0000_0000
  {
  }

  /** With limits on table entries, the choice is the least entry at or above the clamped request and within them. */
  lemma ChosenWithinLimits(table: seq<nat>, lo: nat, hi: nat, request: nat, pos: nat)
    requires Ascending(table) && lo <= hi < |table|
    requires IsUp(table, ScalingLimit(Range(table, table[lo], table[hi]), request), pos)
    ensures Range(table, table[lo], table[hi]) == (table[lo], table[hi])
    ensures lo <= pos <= hi && table[pos] >= ScalingLimit(Range(table, table[lo], table[hi]), request)
  {
  }

  /** For any limits, the choice lies within them exactly when some entry lies between clamped request and maximum. */
  lemma ChosenWithinAnyLimits(table: seq<nat>, range: (nat, nat), request: nat, pos: nat)
    requires Ascending(table) && range.0 <= range.1
    requires IsUp(table, ScalingLimit(range, request), pos)
    ensures var target := ScalingLimit(range, request);
            target <= table[pos] <= range.1 <==> exists k | 0 <= k < |table| :: target <= table[k] <= range.1
  {
  }

  // ---------------------------------------------------------------- the governor

  /** What one evaluation sees: device status, previous frequency, limits and time since the last change. */
  datatype Status = Status(busy: nat, total: nat, current: nat, previous: nat, scalingMin: nat, scalingMax: nat, dt: nat)

  predicate Plausible(st: Status) {
    MHZ <= st.current <= MAX_HZ && st.previous <= MAX_HZ && st.busy <= st.total
  }

  predicate Waits(st: Status) { st.dt < BLOCK_WINDOW || st.previous == 0 }

  /** Cycles the device would have been busy for, at its current frequency. */
  function NormLoad(st: Status): nat
    requires st.total > 0
  {
    st.current * st.busy / st.total
  }

  /** The undamped request in MHz. */
  function Request(t: Tunables, table: seq<nat>, st: Status, busyness: nat, rtLoad: nat): int
    requires table != [] && t.loadTarget > 0
  {
    var freq := st.previous / 1_000_000;
    freq + Boost(t, freq, busyness, rtLoad, Range(table, st.scalingMin, st.scalingMax).1 / 3 / 1_000_000)
  }

  lemma RequestInRange(t: Tunables, table: seq<nat>, st: Status, busyness: nat, rtLoad: nat)
    requires Sane(t) && table != [] && (forall k | 0 <= k < |table| :: table[k] <= MAX_HZ) && Plausible(st)
    ensures 0 <= Request(t, table, st, busyness, rtLoad) <= MAX_MHZ
  {
    BoostAbove(t, st.previous / 1_000_000, busyness, rtLoad, Range(table, st.scalingMin, st.scalingMax).1 / 3 / 1_000_000);
  }

  lemma NormInRange(st: Status)
    requires Plausible(st) && st.total > 0
    ensures 0 <= NormLoad(st) <= st.current
  {
    MulMono(st.busy, st.total, st.current);
    DivAtMost(st.current * st.busy, st.total, st.current);
  }

  /** No signed 64-bit intermediate of the decision overflows. */
  lemma BoostFitsLong(t: Tunables, freq: nat, high: nat, current: nat)
    requires Sane(t) && freq <= 1_000_000 && high <= MAX_HZ && current >= MHZ
    ensures var x := (1000 * high / current - t.loadTarget) * (t.bias * freq);
            -0x8000_0000_0000_0000 <= x < 0x8000_0000_0000_0000
  {
    MulMono(1_000_000, current, 1_000_000_000);
    DivAtMost(1000 * high, current, 1_000_000_000);
    MulMono(t.bias, 100, freq);
    var b, w := 1000 * high / current - t.loadTarget, t.bias * freq;
    if b >= 0 {
      MulMono(b, 1_000_000_000, w);
    } else {
      MulMono(-b, 1000, w);
      assert b * w == -(-b * w);
    }
  }

  /** The new freq_avg and the damped request, both in MHz. */
  datatype Decision = Decision(avg: int, mhz: int)

  function Decide(t: Tunables, table: seq<nat>, st: Status, busyness: nat, rtLoad: nat, avg: int): Decision
    requires table != [] && t.loadTarget > 0
  {
    var request := Request(t, table, st, busyness, rtLoad);
    var avg' := Average(t, avg, request);
    Decision(avg', Damped(t, rtLoad, request, avg'))
  }

  /** Whatever the load history, request and average stay non-negative and small, so the unsigned clamp is safe. */
  lemma DecideInRange(t: Tunables, table: seq<nat>, st: Status, busyness: nat, rtLoad: nat, avg: int)
    requires Sane(t) && table != [] && (forall k | 0 <= k < |table| :: table[k] <= MAX_HZ) && Plausible(st)
    requires 0 <= avg <= MAX_MHZ
    ensures 0 <= Request(t, table, st, busyness, rtLoad) <= MAX_MHZ
    ensures var d := Decide(t, table, st, busyness, rtLoad, avg); 0 <= d.avg <= MAX_MHZ && 0 <= d.mhz <= MAX_MHZ
  {
    RequestInRange(t, table, st, busyness, rtLoad);
    var request := Request(t, table, st, busyness, rtLoad);
    hide Boost, Average, Damped;
    AverageInRange(t, avg, request);
    DampedInRange(t, rtLoad, request, Average(t, avg, request));
  }

  /** A load above the maximum asks for a third of the highest frequency more, and gets it undamped. */
  lemma TooBusy(t: Tunables, table: seq<nat>, st: Status, busyness: nat, rtLoad: nat, avg: int)
    requires Sane(t) && table != [] && (forall k | 0 <= k < |table| :: table[k] <= MAX_HZ) && Plausible(st)
    requires 0 <= avg <= MAX_MHZ && rtLoad > t.loadMax
    ensures Decide(t, table, st, busyness, rtLoad, avg).mhz ==
              st.previous / 1_000_000 + Range(table, st.scalingMin, st.scalingMax).1 / 3 / 1_000_000
  {
    DecideInRange(t, table, st, busyness, rtLoad, avg);
    var request := Request(t, table, st, busyness, rtLoad);
    DampedBetween(t, rtLoad, request, Average(t, avg, request));
  }

  /** Every decision lies between the undamped request and the average so far. */
  lemma DecideBetween(t: Tunables, table: seq<nat>, st: Status, busyness: nat, rtLoad: nat, avg: int)
    requires Sane(t) && table != [] && (forall k | 0 <= k < |table| :: table[k] <= MAX_HZ) && Plausible(st)
    requires 0 <= avg <= MAX_MHZ
    ensures var request, d := Request(t, table, st, busyness, rtLoad), Decide(t, table, st, busyness, rtLoad, avg);
            Min(avg, request) <= d.avg <= Max(avg, request) && Min(d.avg, request) <= d.mhz <= Max(d.avg, request)
  {
    DecideInRange(t, table, st, busyness, rtLoad, avg);
    var request := Request(t, table, st, busyness, rtLoad);
    hide Boost, Average, Damped, Request;
    AverageBetween(t, avg, request);
    AverageInRange(t, avg, request);
    DampedBetween(t, rtLoad, request, Average(t, avg, request));
  }

  function Limited(table: seq<nat>, st: Status, mhz: nat): nat
    requires table != []
  {
    ScalingLimit(Range(table, st.scalingMin, st.scalingMax), mhz * 1_000_000)
  }

  /** What the governor answers to a damped request: the table entry for it, or no change if it is zero. */
  ghost predicate Answers(table: seq<nat>, st: Status, mhz: int, freq: nat) {
    && table != [] && mhz >= 0
    && var target := Limited(table, st, mhz);
       if target == 0 then freq == st.current
       else exists pos: nat :: IsUp(table, target, pos) && freq == ThroughInt(table[pos])
  }

  /** With limits on table entries below 2 GHz, the answer is the least entry at or above the clamped request, and within them. */
  lemma AnswersStayWithinLimits(table: seq<nat>, st: Status, mhz: nat, freq: nat, lo: nat, hi: nat) returns (k: nat)
    requires Ascending(table) && (forall k | 0 <= k < |table| :: 0 < table[k] < 0x8000_0000)
    requires lo <= hi < |table| && st.scalingMin == table[lo] && st.scalingMax == table[hi]
    requires Answers(table, st, mhz, freq)
    ensures lo <= k <= hi && freq == table[k] >= Limited(table, st, mhz)
    ensures forall j | 0 <= j < k :: table[j] < Limited(table, st, mhz)
  {
    var pos: nat :| IsUp(table, Limited(table, st, mhz), pos) && freq == ThroughInt(table[pos]);
    ChosenWithinLimits(table, lo, hi, mhz * 1_000_000, pos);
    IntKeeps(table[pos]);
    k := pos;
  }

  class Governor {
    const table: seq<nat>
    const buf: array<nat>
    const size: nat
    const tun: Tunables
    var next: nat
    var count: nat
    var recentHigh: nat
    var cyclesAvg: nat
    var freqAvg: int
    var suspended: bool
    var enabled: bool
    var user: bool
    var local: bool
    var freqRequest: nat
    var adjustment: nat
    /** The loads recorded since the last suspend. */
    ghost var loads: seq<nat>

    ghost predicate Valid()
      reads this, buf
    {
      && table != [] && Sane(tun) && (forall k | 0 <= k < |table| :: table[k] <= MAX_HZ)
      && Tracks(buf[..], size, next, count, recentHigh, loads)
      && (forall x | x in loads :: x <= MAX_HZ)
      && cyclesAvg <= MAX_HZ && 0 <= freqAvg <= MAX_MHZ
    }

    /** A request that is answered without looking at the load. */
    ghost predicate Bypassed(st: Status, statsFail: bool)
      reads this
    {
      !enabled || user || statsFail || st.total == 0 || local
    }

    constructor (table: seq<nat>, maxHistory: nat)
      requires table != [] && forall k | 0 <= k < |table| :: table[k] <= MAX_HZ
      ensures Valid() && fresh(buf) && loads == [] && tun == DEFAULTS && this.table == table
      ensures size == Min(maxHistory, 100)
    {
      this.table := table;
      buf := new nat[maxHistory](_ => 0);
      size := Min(maxHistory, 100);
      tun := DEFAULTS;
      next, count, recentHigh, cyclesAvg, freqAvg := 0, 0, 0, 0, 0;
      suspended, enabled, user, local := false, true, false, false;
      freqRequest, adjustment := table[|table| - 1], 0;
      loads := [];
      new;
      TracksNothing(buf[..], size);
    }

    /** A suspended device forgets its history. */
    method Suspend()
      requires Valid()
      modifies this`count, this`next, this`recentHigh, this`freqAvg, this`loads, buf
      ensures Valid() && loads == [] && freqAvg == 0 && recentHigh == 0
    {
      for i := 0 to buf.Length
        modifies buf
      {
        buf[i] := 0;
      }
      count, next, recentHigh, freqAvg := 0, 0, 0, 0;
      loads := [];
      TracksNothing(buf[..], size);
    }

    /** The circular rescan: the highest of all entries but the oldest. */
    method Rescan() returns (high: nat)
      requires next < size <= buf.Length
      ensures high == MaxOf(Newer(buf[..], size, next))
    {
      high := 0;
      var i: nat := Succ(next, size);
      SeenFirst(buf[..], size, next);
      hide Seen, MaxOf, Newer;
      while i != next
        invariant i < size && high == MaxOf(Seen(buf[..], size, next, i))
        decreases if i > next then size + next - i else next - i
      {
        SeenNext(buf[..], size, next, i);
        MaxOfSnoc(Seen(buf[..], size, next, i), buf[i]);
        if buf[i] > high { high := buf[i]; }
        i := Succ(i, size);
      }
    }

    /** After any run of loads and suspends, recentHigh is the highest of the last `size` loads since the last suspend. */
    method Remember(load: nat)
      requires Valid() && load <= MAX_HZ
      modifies this`next, this`count, this`recentHigh, this`loads, buf
      ensures Valid() && loads == old(loads) + [load]
    {
      hide Tracks;
      ghost var was := buf[..];
      if size != 0 {
        if count == size {
          TracksSlides(was, size, next, recentHigh, loads, load);
          recentHigh := Rescan();
          assert buf[..] == was;
        } else {
          TracksGrows(was, size, next, count, recentHigh, loads, load);
        }
        buf[next] := load;
        assert buf[..] == was[next := load];
        next := Succ(next, size);
        if count < size { count := count + 1; }
        if load > recentHigh { recentHigh := load; }
      } else {
        assert buf[..] == was;
        TracksNone(was, next, count, recentHigh, loads, load);
      }
      loads := loads + [load];
    }

    /** The desired frequency in Hz, or 0 when it is too early to change it. */
    method ScalingStateCheck(st: Status, rtLoad: nat) returns (res: nat)
      requires Valid() && Plausible(st)
      modifies this`freqAvg
      ensures Valid()
      ensures Waits(st) ==> res == 0 && freqAvg == old(freqAvg)
      ensures !Waits(st) ==>
                var d := Decide(tun, table, st, Busyness(st), rtLoad, old(freqAvg));
                freqAvg == d.avg && 0 <= d.mhz <= MAX_MHZ && res == Limited(table, st, d.mhz)
    {
      if st.dt < BLOCK_WINDOW || st.previous == 0 {
        return 0;
      }
      DecideInRange(tun, table, st, Busyness(st), rtLoad, freqAvg);
      hide Boost, Average, Damped, Tracks, Range;
      var freq := st.previous / 1_000_000;
      var maxBoost := Range(table, st.scalingMin, st.scalingMax).1 / 3 / 1_000_000;
      var busyness := 1000 * cyclesAvg / st.current;
      if size != 0 && count != 0 {
        busyness := 1000 * recentHigh / st.current;
      }
      var request := freq + Boost(tun, freq, busyness, rtLoad, maxBoost);
      assert request == Request(tun, table, st, Busyness(st), rtLoad);
      freqAvg := Average(tun, freqAvg, request);
      var mhz := Damped(tun, rtLoad, request, freqAvg);
      res := ScalingLimit(Range(table, st.scalingMin, st.scalingMax), mhz * 1_000_000);
    }

    ghost function Busyness(st: Status): nat
      requires st.current > 0
      reads this
    {
      1000 * (if size != 0 && count != 0 then recentHigh else cyclesAvg) / st.current
    }

    /** The decision the current history gives rise to. */
    ghost function Decided(st: Status, avg: int): Decision
      requires table != [] && Sane(tun) && st.current > 0 && st.total > 0
      reads this
    {
      Decide(tun, table, st, Busyness(st), 1000 * st.busy / st.total, avg)
    }

    method AverageCycles(load: nat)
      requires Valid() && load <= MAX_HZ
      modifies this`cyclesAvg
      ensures Valid() && cyclesAvg == (old(cyclesAvg) * tun.smooth + load) / (tun.smooth + 1)
    {
      Mean(cyclesAvg, load, tun.smooth, MAX_HZ);
      cyclesAvg := (cyclesAvg * tun.smooth + load) / (tun.smooth + 1);
    }

    /** Records the load, then answers the damped request that the new history gives rise to. */
    method Scale(st: Status) returns (freq: nat)
      requires Valid() && Plausible(st) && st.total > 0
      modifies this`next, this`count, this`recentHigh, this`cyclesAvg, this`freqAvg, this`loads, buf
      ensures Valid() && loads == old(loads) + [NormLoad(st)]
      ensures cyclesAvg == (old(cyclesAvg) * tun.smooth + NormLoad(st)) / (tun.smooth + 1)
      ensures Waits(st) ==> freqAvg == old(freqAvg) && freq == st.current
      ensures !Waits(st) ==>
                freqAvg == Decided(st, old(freqAvg)).avg && Answers(table, st, Decided(st, old(freqAvg)).mhz, freq)
    {
      hide Tracks, Decide, Limited;
      NormInRange(st);
      var normLoad := st.current * st.busy / st.total;
      AverageCycles(normLoad);
      var rtLoad := 1000 * st.busy / st.total;
      Remember(normLoad);
      var target := ScalingStateCheck(st, rtLoad);
      if target == 0 {
        freq := st.current;
      } else {
        freq := FreqlistUp(table, target);
      }
    }

    /** One evaluation of the governor; only the last branch records a load and decides. */
    method Estimate(st: Status, statsFail: bool) returns (ret: int, freq: nat)
      requires Valid() && (suspended || Bypassed(st, statsFail) || Plausible(st))
      modifies this`next, this`count, this`recentHigh, this`cyclesAvg, this`freqAvg, this`loads, this`local, this`adjustment, buf
      ensures Valid()
      ensures loads == LoadsAfter(old(loads), st, suspended, old(Bypassed(st, statsFail)))
      ensures suspended ==> ret == 0 && freq == 0 && freqAvg == 0
      ensures !suspended && old(Bypassed(st, statsFail)) ==>
                && freqAvg == old(freqAvg)
                && ret == EarlyReturn(st, enabled, user, statsFail)
                && freq == EarlyAnswer(st, statsFail, enabled, user, freqRequest,
                                       ScalingLimit(Range(table, st.scalingMin, st.scalingMax), old(adjustment)))
      ensures !suspended && !old(Bypassed(st, statsFail)) ==>
                && ret == 0
                && (Waits(st) ==> freqAvg == old(freqAvg) && freq == st.current)
                && (!Waits(st) ==> freqAvg == Decided(st, old(freqAvg)).avg
                                   && Answers(table, st, Decided(st, old(freqAvg)).mhz, freq))
    {
      hide Tracks, Answers, Decide, Range, ScalingLimit, Limited, NormLoad;
      ret, freq := 0, 0;
      if suspended {
        Suspend();
      } else if !enabled {
        ret, freq := if st.previous == ULONG_MAX then 1 else 0, ULONG_MAX;
      } else if user {
        freq := freqRequest;
      } else if statsFail {
        ret := -1;
      } else if st.total == 0 {
        freq := st.current;
      } else if local {
        local := false;
        adjustment := ScalingLimit(Range(table, st.scalingMin, st.scalingMax), adjustment);
        freq := adjustment;
      } else {
        freq := Scale(st);
      }
    }

    /**
     After any run of evaluations, with suspends, mode changes and local requests in between,
     recentHigh is the highest of the last `size` loads recorded since the last suspend.
     */
    method Evaluate(events: seq<Event>)
      requires Valid() && forall e | e in events :: e.Early() || Plausible(e.st)
      modifies this, buf
      ensures Valid() && loads == LoadsOver(old(loads), events)
      ensures count == Min(|loads|, size) && recentHigh == if size == 0 then 0 else MaxOf(LastOf(loads, size))
    {
      ghost var first := loads;
      hide *;
      LoadsOverNone(first, events);
      for i := 0 to |events|
        invariant Valid() && loads == LoadsOver(first, events[..i])
      {
        Evaluation(events[i]);
        LoadsOverNext(first, events, i);
      }
      HistoryIs();
    }

    method Evaluation(e: Event)
      requires Valid() && (e.Early() || Plausible(e.st))
      modifies this, buf
      ensures Valid() && loads == LoadsAfterEvent(old(loads), e)
    {
      hide Tracks, Decide, Answers, Plausible, EarlyAnswer, EarlyReturn;
      suspended, enabled, user, local := e.suspended, e.enabled, e.user, e.local;
      freqRequest, adjustment := e.request, e.request;
      var _, _ := Estimate(e.st, e.statsFail);
    }

    lemma HistoryIs()
      requires Valid()
      ensures count == Min(|loads|, size) && recentHigh == if size == 0 then 0 else MaxOf(LastOf(loads, size))
    {
    }
  }

  /** What an evaluation finds: the device's status and the modes set since the one before. */
  datatype Event = Event(st: Status, statsFail: bool, suspended: bool, enabled: bool, user: bool, local: bool, request: nat) {
    /** It is answered without looking at the load. */
    predicate Early() { suspended || !enabled || user || statsFail || st.total == 0 || local }
  }

  /** A suspended device has no history; a request answered without looking at the load adds nothing to it. */
  function LoadsAfter(loads: seq<nat>, st: Status, suspended: bool, bypassed: bool): seq<nat> {
    if suspended then [] else if bypassed || st.total == 0 then loads else loads + [NormLoad(st)]
  }

  function LoadsOver(loads: seq<nat>, events: seq<Event>): seq<nat> {
    if events == [] then loads
    else
      var e := events[|events| - 1];
      LoadsAfterEvent(LoadsOver(loads, events[..|events| - 1]), e)
  }

  function LoadsAfterEvent(loads: seq<nat>, e: Event): seq<nat> {
    LoadsAfter(loads, e.st, e.suspended, !e.enabled || e.user || e.statsFail || e.local)
  }

  lemma LoadsOverNone(loads: seq<nat>, events: seq<Event>)
    ensures LoadsOver(loads, events[..0]) == loads && events[..|events|] == events
  {
  }

  lemma LoadsOverNext(loads: seq<nat>, events: seq<Event>, i: nat)
    requires i < |events|
    ensures LoadsOver(loads, events[..i + 1]) == LoadsAfterEvent(LoadsOver(loads, events[..i]), events[i])
  {
    assert events[..i + 1][..i] == events[..i];
  }

  function EarlyReturn(st: Status, enabled: bool, user: bool, statsFail: bool): int {
    if !enabled then if st.previous == ULONG_MAX then 1 else 0
    else if !user && statsFail then -1
    else 0
  }

  /** The maximum when scaling is off, the user's request, the current frequency, or a limited local request. */
  function EarlyAnswer(st: Status, statsFail: bool, enabled: bool, user: bool, request: nat, adjusted: nat): nat {
    if !enabled then ULONG_MAX else if user then request else if statsFail then 0
    else if st.total == 0 then st.current else adjusted
  }
}
