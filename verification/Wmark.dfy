/**
 The watermark governor: after each frequency change it programs load thresholds around the current
 table entry, and each threshold interrupt moves the table index. Thresholds are 32-bit fields.
 */
module Wmark {
  import opened Common

  datatype Event = AvgBelow | AvgAbove | ConsecBelow | ConsecAbove

  datatype Tunables = Tunables(loadTarget: nat, upWmark: nat, downWmark: nat, upFreq: nat, downFreq: nat)

  /** One side of the thresholds; the fields of a side that is not enabled are not set. */
  datatype Side = Disabled | Enabled(avg: nat, consec: nat)

  datatype Config = Config(lower: Side, upper: Side)

  predicate Clamped(t: Tunables) { t.loadTarget <= 1000 && t.upWmark <= 1000 && t.downWmark <= 1000 }

  function U32(x: int): nat { x % 0x1_0000_0000 }

  // ---------------------------------------------------------------- the table search

  /** The first entry at or above freq, or |table|. */
  ghost predicate IsIndex(table: seq<nat>, freq: nat, i: nat) {
    && i <= |table|
    && (forall k | 0 <= k < i :: table[k] < freq)
    && (i < |table| ==> table[i] >= freq)
  }

  method GetFreqIndex(table: seq<nat>, freq: nat) returns (i: nat)
    ensures IsIndex(table, freq, i)
    ensures i < |table| <==> exists k | 0 <= k < |table| :: table[k] >= freq
  {
    i := 0;
    while i < |table|
      invariant i <= |table| && forall k | 0 <= k < i :: table[k] < freq
    {
      if table[i] >= freq { break; }
      i := i + 1;
    }
  }

  ghost predicate Ascending(table: seq<nat>) { forall i, j | 0 <= i < j < |table| :: table[i] < table[j] }

  lemma EntryIndex(table: seq<nat>, i: nat, k: nat)
    requires Ascending(table) && i < |table| && IsIndex(table, table[i], k)
    ensures k == i
  {
  }

  // ---------------------------------------------------------------- thresholds

  function Upper(t: Tunables, freq: nat): Side {
    var avg := U32(freq / 1000 * t.loadTarget);
    Enabled(avg, U32(avg + freq / 1000 * t.upWmark))
  }

  function Lower(t: Tunables, freq: nat): Side {
    var avg := U32(freq / 1000 * t.loadTarget);
    Enabled(avg, U32(avg - freq / 1000 * t.downWmark))
  }

  function Thresholds(t: Tunables, table: seq<nat>, i: nat, minFreq: nat, maxFreq: nat): Config
    requires i < |table|
  {
    var prev := Max(table[Max(i - 1, 0)], minFreq);
    Config(if table[i] > minFreq then Lower(t, prev) else Disabled,
           if table[i] < maxFreq then Upper(t, table[i]) else Disabled)
  }

  predicate Ordered(c: Config)
    requires c.lower.Enabled? && c.upper.Enabled?
  {
    c.lower.consec <= c.lower.avg <= c.upper.avg <= c.upper.consec
  }

  lemma MulMono(a: nat, b: nat, c: nat)
    requires a <= b
    ensures 0 <= a * c <= b * c
  {
  }

  lemma Fits32(x: int)
    requires 0 <= x < TWO32
    ensures U32(x) == x
  {
  }

  lemma SumIn32(x: nat, y: nat)
    requires x < TWO32 && y < TWO32
    ensures x <= U32(x + y) <==> x + y < TWO32
  {
  }

  lemma DifferenceIn32(x: nat, y: nat)
    requires x < TWO32 && y < TWO32
    ensures U32(x - y) <= x <==> y <= x
  {
  }

  /** A per-mille share of a 32-bit frequency fits 32 bits. */
  lemma ShareFits(freq: nat, share: nat)
    requires freq < TWO32 && share <= 1000
    ensures 0 <= freq / 1000 * share < TWO32
  {
    MulMono(share, 1000, freq / 1000);
  }

  lemma UpperInOrder(t: Tunables, freq: nat)
    requires Clamped(t) && freq < TWO32
    ensures Upper(t, freq).avg == freq / 1000 * t.loadTarget
    ensures Upper(t, freq).avg <= Upper(t, freq).consec <==> freq / 1000 * (t.loadTarget + t.upWmark) < TWO32
  {
    var x := freq / 1000;
    ShareFits(freq, t.loadTarget);
    ShareFits(freq, t.upWmark);
    Fits32(x * t.loadTarget);
    SumIn32(x * t.loadTarget, x * t.upWmark);
    Distributes(x, t.loadTarget, t.upWmark);
    hide U32;
  }

  lemma Distributes(x: nat, a: nat, b: nat)
    ensures x * (a + b) == x * a + x * b
  {
  }

  /** Shares of at least 1000 Hz compare like their per-mille values; below that they are all zero. */
  lemma SharesCompare(x: nat, a: nat, b: nat)
    ensures x * a <= x * b <==> a <= b || x == 0
  {
    if a <= b {
      MulMono(a, b, x);
    } else {
      Distributes(x, b, a - b);
      if x > 0 {
        MulMono(1, x, a - b);
      }
    }
  }

  lemma LowerInOrder(t: Tunables, freq: nat)
    requires Clamped(t) && freq < TWO32
    ensures Lower(t, freq).avg == freq / 1000 * t.loadTarget
    ensures Lower(t, freq).consec <= Lower(t, freq).avg <==> t.downWmark <= t.loadTarget || freq < 1000
  {
    var x := freq / 1000;
    ShareFits(freq, t.loadTarget);
    ShareFits(freq, t.downWmark);
    Fits32(x * t.loadTarget);
    DifferenceIn32(x * t.loadTarget, x * t.downWmark);
    SharesCompare(x, t.downWmark, t.loadTarget);
    hide U32;
  }

  /**
   The consecutive threshold is the margin away from the average one, on its own side: the tunable's
   per-mille share of the frequency in kHz. Outside the 32-bit range it is 2 to the 32 off.
   */
  lemma UpperMargin(t: Tunables, freq: nat)
    requires Clamped(t) && freq < TWO32
    ensures var margin := freq / 1000 * t.upWmark;
            Upper(t, freq).consec - Upper(t, freq).avg ==
              if freq / 1000 * (t.loadTarget + t.upWmark) < TWO32 then margin else margin - TWO32
  {
    var x := freq / 1000;
    ShareFits(freq, t.loadTarget);
    ShareFits(freq, t.upWmark);
    Fits32(x * t.loadTarget);
    Distributes(x, t.loadTarget, t.upWmark);
    SumWraps(x * t.loadTarget, x * t.upWmark);
    hide U32;
  }

  lemma SumWraps(x: nat, y: nat)
    requires x < TWO32 && y < TWO32
    ensures U32(x + y) == if x + y < TWO32 then x + y else x + y - TWO32
  {
  }

  lemma DifferenceWraps(x: nat, y: nat)
    requires x < TWO32 && y < TWO32
    ensures U32(x - y) == if y <= x then x - y else x - y + TWO32
  {
  }

  lemma LowerMargin(t: Tunables, freq: nat)
    requires Clamped(t) && freq < TWO32
    ensures var margin := freq / 1000 * t.downWmark;
            Lower(t, freq).avg - Lower(t, freq).consec ==
              if t.downWmark <= t.loadTarget || freq < 1000 then margin else margin - TWO32
  {
    var x := freq / 1000;
    ShareFits(freq, t.loadTarget);
    ShareFits(freq, t.downWmark);
    Fits32(x * t.loadTarget);
    DifferenceWraps(x * t.loadTarget, x * t.downWmark);
    SharesCompare(x, t.downWmark, t.loadTarget);
    hide U32;
  }

  /** The four thresholds are in order exactly when neither margin leaves the 32-bit range. */
  lemma ThresholdsOrdered(t: Tunables, table: seq<nat>, i: nat, minFreq: nat, maxFreq: nat)
    requires Clamped(t) && Ascending(table) && i < |table| && table[i] < TWO32
    requires var c := Thresholds(t, table, i, minFreq, maxFreq); c.lower.Enabled? && c.upper.Enabled?
    ensures var prev := Max(table[Max(i - 1, 0)], minFreq);
            Ordered(Thresholds(t, table, i, minFreq, maxFreq)) <==>
              && (t.downWmark <= t.loadTarget || prev < 1000)
              && table[i] / 1000 * (t.loadTarget + t.upWmark) < TWO32
  {
    var prev := Max(table[Max(i - 1, 0)], minFreq);
    UpperInOrder(t, table[i]);
    LowerInOrder(t, prev);
    MulMono(prev / 1000, table[i] / 1000, t.loadTarget);
  }

  /** The average thresholds of neighbouring entries meet: no gap and no overlap. */
  lemma AveragesMeet(t: Tunables, table: seq<nat>, i: nat, minFreq: nat, maxFreq: nat)
    requires Ascending(table) && 0 < i < |table| && minFreq <= table[i - 1] && table[i] <= maxFreq
    ensures var below, here := Thresholds(t, table, i - 1, minFreq, maxFreq), Thresholds(t, table, i, minFreq, maxFreq);
            here.lower.Enabled? && below.upper.Enabled? && here.lower.avg == below.upper.avg
  {
  }

  // ---------------------------------------------------------------- the governor

  function TargetIndex(t: Tunables, size: nat, index: nat, event: Event): int {
    match event
    case AvgBelow => Max(0, index - 1)
    case AvgAbove => Min(size - 1, index + 1)
    case ConsecBelow => Max(0, index - t.downFreq)
    case ConsecAbove => Min(size - 1, index + t.upFreq)
  }

  /**
   A consecutive event moves the index by the step that was set, an average event by one; either
   stops short only at the end of the table.
   */
  lemma StepsTaken(t: Tunables, size: nat, index: nat, event: Event)
    requires index < size
    ensures var to, step := TargetIndex(t, size, index, event),
                            match event case ConsecAbove => t.upFreq case ConsecBelow => t.downFreq case _ => 1;
            if event.AvgAbove? || event.ConsecAbove?
            then index <= to < size && to - index <= step && (to - index == step || to == size - 1)
            else 0 <= to <= index && index - to <= step && (index - to == step || to == 0)
  {
  }

  /** The steps the clamps of their two files let through, and the defaults. */
  predicate StepsClamped(t: Tunables, size: nat) { t.upFreq <= Max(4, size) && t.downFreq <= Max(1, size) }

  /** A sum or difference of C's int and unsigned int, stored in an int. */
  function AsInt(x: int): int {
    var low := x % 0x1_0000_0000;
    if low < 0x8000_0000 then low else low - 0x1_0000_0000
  }

  lemma AsIntKeeps(x: int)
    requires -0x1_0000_0000 <= x < 0x1_0000_0000
    ensures AsInt(x) == x <==> -0x8000_0000 <= x < 0x8000_0000
  {
  }

  /** The target index as C computes it. */
  function CTargetIndex(t: Tunables, size: nat, index: nat, event: Event): int {
    match event
    case AvgBelow => Max(0, AsInt(index - 1))
    case AvgAbove => Min(size - 1, AsInt(index + 1))
    case ConsecBelow => Max(0, AsInt(index - t.downFreq))
    case ConsecAbove => Min(size - 1, AsInt(index + t.upFreq))
  }

  /** C's mixed arithmetic finds the target for 32-bit steps exactly when neither sum leaves the range of an int. */
  lemma StepsExactly(t: Tunables, size: nat, index: nat)
    requires index < size < 0x4000_0000 && t.upFreq < TWO32 && t.downFreq < TWO32
    ensures (forall e :: CTargetIndex(t, size, index, e) == TargetIndex(t, size, index, e)) <==>
              index + t.upFreq < 0x8000_0000 && t.downFreq - index <= 0x8000_0000
  {
    var up, down := index + t.upFreq, index - t.downFreq;
    assert CTargetIndex(t, size, index, ConsecAbove) == TargetIndex(t, size, index, ConsecAbove) <==> up < 0x8000_0000;
    assert CTargetIndex(t, size, index, ConsecBelow) == TargetIndex(t, size, index, ConsecBelow) <==> down >= -0x8000_0000;
  }

  /** That is what the clamps are for: with them the index C computes is the target, inside the table, for every event. */
  lemma ClampsSuffice(t: Tunables, size: nat, index: nat, event: Event)
    requires index < size < 0x4000_0000 && StepsClamped(t, size)
    ensures CTargetIndex(t, size, index, event) == TargetIndex(t, size, index, event)
    ensures 0 <= CTargetIndex(t, size, index, event) < size
  {
    StepsExactly(t, size, index);
  }

  class Governor {
    const table: seq<nat>
    var tun: Tunables
    var index: nat

    ghost predicate Valid()
      reads this
    {
      && Clamped(tun) && StepsClamped(tun, |table|) && index < |table|
      && (forall k | 0 <= k < |table| :: table[k] <= table[|table| - 1])
    }

    constructor (table: seq<nat>)
      requires table != [] && forall k | 0 <= k < |table| :: table[k] <= table[|table| - 1]
      ensures Valid() && this.table == table && index == 0 && tun == Tunables(800, 100, 100, 4, 1)
    {
      this.table := table;
      tun := Tunables(800, 100, 100, 4, 1);
      index := 0;
    }

    /** The frequency asked for on an event: always an entry of the table. */
    method TargetFreq(event: Event) returns (freq: nat)
      requires Valid()
      ensures 0 <= TargetIndex(tun, |table|, index, event) < |table|
      ensures freq == table[TargetIndex(tun, |table|, index, event)]
    {
      var target := 0;
      match event {
        case AvgBelow => target := Max(0, index - 1);
        case AvgAbove => target := Min(|table| - 1, index + 1);
        case ConsecBelow => target := Max(0, index - tun.downFreq);
        case ConsecAbove => target := Min(|table| - 1, index + tun.upFreq);
      }
      freq := table[target];
    }

    /**
     Finds the current entry and programs the thresholds around it. A frequency above the whole table
     has no entry: the index found is the table size, and the driver would read behind the table.
     */
    method UpdateThreshold(current: nat, minFreq: nat, maxFreq: nat) returns (inTable: bool, c: Config)
      requires Valid()
      modifies this`index
      ensures inTable <==> current <= table[|table| - 1]
      ensures IsIndex(table, current, index) && (!inTable ==> index == |table|)
      ensures inTable ==> Valid() && c == Thresholds(tun, table, index, minFreq, maxFreq)
    {
      index := GetFreqIndex(table, current);
      if index == |table| {
        return false, Config(Disabled, Disabled);
      }
      var curr := table[index];
      var lower, upper := Disabled, Disabled;
      if curr < maxFreq {
        var avg := U32(curr / 1000 * tun.loadTarget);
        upper := Enabled(avg, U32(avg + curr / 1000 * tun.upWmark));
      }
      if curr > minFreq {
        var prev := Max(table[Max(index - 1, 0)], minFreq);
        var avg := U32(prev / 1000 * tun.loadTarget);
        lower := Enabled(avg, U32(avg - prev / 1000 * tun.downWmark));
      }
      inTable, c := true, Config(lower, upper);
    }

    /** An event with the limits at entries lo and hi: target, the core's clamp, the new thresholds. */
    method React(event: Event, lo: nat, hi: nat) returns (c: Config)
      requires Valid() && Ascending(table) && lo <= hi < |table|
      modifies this
      ensures Valid() && tun == old(tun)
      ensures index == Min(Max(TargetIndex(tun, |table|, old(index), event), lo), hi)
      ensures c == Thresholds(tun, table, index, table[lo], table[hi])
    {
      var freq := TargetFreq(event);
      ghost var target: nat := TargetIndex(tun, |table|, index, event);
      ghost var to: nat := Min(Max(target, lo), hi);
      freq := Min(Max(freq, table[lo]), table[hi]);
      assert freq == table[to] by {
        assert target < lo ==> table[target] < table[lo];
        assert target > hi ==> table[target] > table[hi];
        assert lo < target ==> table[lo] < table[target];
        assert target < hi ==> table[target] < table[hi];
        assert lo < hi ==> table[lo] < table[hi];
      }
      assert to < |table| - 1 ==> table[to] < table[|table| - 1];
      var inTable;
      inTable, c := UpdateThreshold(freq, table[lo], table[hi]);
      EntryIndex(table, to, index);
    }

    // The files in sysfs: each value is clamped, and new load margins are programmed at once.

    method StoreLoadTarget(v: nat, current: nat, minFreq: nat, maxFreq: nat) returns (inTable: bool, c: Config)
      requires Valid()
      modifies this
      ensures tun == old(tun).(loadTarget := Min(v, 1000)) && (inTable <==> current <= table[|table| - 1])
      ensures inTable ==> Valid() && IsIndex(table, current, index)
      ensures inTable ==> c == Thresholds(tun, table, index, minFreq, maxFreq)
    {
      tun := tun.(loadTarget := Min(v, 1000));
      inTable, c := UpdateThreshold(current, minFreq, maxFreq);
    }

    method StoreUpWmark(v: nat, current: nat, minFreq: nat, maxFreq: nat) returns (inTable: bool, c: Config)
      requires Valid()
      modifies this
      ensures tun == old(tun).(upWmark := Min(v, 1000)) && (inTable <==> current <= table[|table| - 1])
      ensures inTable ==> Valid() && IsIndex(table, current, index)
      ensures inTable ==> c == Thresholds(tun, table, index, minFreq, maxFreq)
    {
      tun := tun.(upWmark := Min(v, 1000));
      inTable, c := UpdateThreshold(current, minFreq, maxFreq);
    }

    method StoreDownWmark(v: nat, current: nat, minFreq: nat, maxFreq: nat) returns (inTable: bool, c: Config)
      requires Valid()
      modifies this
      ensures tun == old(tun).(downWmark := Min(v, 1000)) && (inTable <==> current <= table[|table| - 1])
      ensures inTable ==> Valid() && IsIndex(table, current, index)
      ensures inTable ==> c == Thresholds(tun, table, index, minFreq, maxFreq)
    {
      tun := tun.(downWmark := Min(v, 1000));
      inTable, c := UpdateThreshold(current, minFreq, maxFreq);
    }

    method StoreUpFreq(v: nat)
      requires Valid()
      modifies this`tun
      ensures Valid() && tun == old(tun).(upFreq := Min(v, |table|))
    {
      tun := tun.(upFreq := Min(v, |table|));
    }

    method StoreDownFreq(v: nat)
      requires Valid()
      modifies this`tun
      ensures Valid() && tun == old(tun).(downFreq := Min(v, |table|))
    {
      tun := tun.(downFreq := Min(v, |table|));
    }
  }

  // ---------------------------------------------------------------- constant load

  /** The table and its limits while a constant load is served. */
  datatype Setup = Setup(t: Tunables, table: seq<nat>, lo: nat, hi: nat) {
    ghost predicate Ok() { Ascending(table) && lo <= hi < |table| }

    function At(i: nat): Config
      requires Ok() && lo <= i <= hi
    {
      Thresholds(t, table, i, table[lo], table[hi])
    }
  }

  /** The average-watermark event, if any, that entry i can raise under the load. */
  predicate Raises(s: Setup, load: nat, i: nat, event: Event)
    requires s.Ok() && s.lo <= i <= s.hi
  {
    match event
    case AvgAbove => s.At(i).upper.Enabled? && load > s.At(i).upper.avg
    case AvgBelow => s.At(i).lower.Enabled? && load < s.At(i).lower.avg
    case _ => false
  }

  function Next(s: Setup, i: nat, event: Event): int {
    Min(Max(TargetIndex(s.t, |s.table|, i, event), s.lo), s.hi)
  }

  /** Any interleaving of the average events a constant load can raise. */
  ghost predicate Run(s: Setup, load: nat, path: seq<nat>, events: seq<Event>)
    requires s.Ok()
  {
    && |path| == |events| + 1
    && (forall k | 0 <= k < |path| :: s.lo <= path[k] <= s.hi)
    && forall k | 0 <= k < |events| :: Raises(s, load, path[k], events[k]) && path[k + 1] == Next(s, path[k], events[k])
  }

  /** After a move one way, the next average event cannot ask for the way back. */
  lemma NoPingPong(s: Setup, load: nat, path: seq<nat>, events: seq<Event>, k: nat)
    requires s.Ok() && Run(s, load, path, events) && k + 1 < |events|
    ensures events[k + 1] == events[k]
  {
    var i := path[k];
    assert Raises(s, load, i, events[k]) && Raises(s, load, path[k + 1], events[k + 1]);
    if events[k] == AvgAbove {
      AveragesMeet(s.t, s.table, i + 1, s.table[s.lo], s.table[s.hi]);
    } else {
      AveragesMeet(s.t, s.table, i, s.table[s.lo], s.table[s.hi]);
    }
  }

  lemma {:induction false} OneWay(s: Setup, load: nat, path: seq<nat>, events: seq<Event>, k: nat)
    requires s.Ok() && Run(s, load, path, events) && k < |events|
    ensures events[k] == events[0]
    ensures path[k + 1] == if events[0] == AvgAbove then path[0] + k + 1 else path[0] - k - 1
  {
    assert Raises(s, load, path[k], events[k]);
    if k > 0 {
      OneWay(s, load, path, events, k - 1);
      NoPingPong(s, load, path, events, k - 1);
    }
  }

  /** The load lies between the enabled average thresholds of entry i. */
  predicate Bracketed(s: Setup, load: nat, i: nat)
    requires s.Ok() && s.lo <= i <= s.hi
  {
    && (s.At(i).upper.Enabled? ==> load <= s.At(i).upper.avg)
    && (s.At(i).lower.Enabled? ==> load >= s.At(i).lower.avg)
  }

  /** Where a constant load takes the index: over every entry whose threshold it passes, to one it does not. */
  ghost predicate RestsAt(s: Setup, load: nat, from: nat, to: nat)
    requires s.Ok() && s.lo <= from <= s.hi && s.lo <= to <= s.hi
  {
    && Bracketed(s, load, to)
    && (forall j | from <= j < to :: load > s.At(j).upper.avg)
    && (forall j | to < j <= from :: load < s.At(j).lower.avg)
  }

  lemma PassedUp(s: Setup, load: nat, path: seq<nat>, events: seq<Event>, k: nat)
    requires s.Ok() && Run(s, load, path, events) && k < |events| && path[|events|] > path[0]
    ensures path[k] == path[0] + k && s.At(path[k]).upper.Enabled? && load > s.At(path[k]).upper.avg
  {
    OneWay(s, load, path, events, |events| - 1);
    OneWay(s, load, path, events, k);
    if k > 0 {
      OneWay(s, load, path, events, k - 1);
    }
    assert Raises(s, load, path[k], events[k]) && Raises(s, load, path[0], events[0]);
  }

  lemma PassedDown(s: Setup, load: nat, path: seq<nat>, events: seq<Event>, k: nat)
    requires s.Ok() && Run(s, load, path, events) && k < |events| && path[|events|] < path[0]
    ensures path[k] == path[0] - k && s.At(path[k]).lower.Enabled? && load < s.At(path[k]).lower.avg
  {
    OneWay(s, load, path, events, |events| - 1);
    OneWay(s, load, path, events, k);
    if k > 0 {
      OneWay(s, load, path, events, k - 1);
    }
    assert Raises(s, load, path[k], events[k]) && Raises(s, load, path[0], events[0]);
  }

  /** Every entry the index left behind was left because the load passes its threshold. */
  lemma Passed(s: Setup, load: nat, path: seq<nat>, events: seq<Event>)
    requires s.Ok() && Run(s, load, path, events)
    ensures forall j | path[0] <= j < path[|events|] :: s.At(j).upper.Enabled? && load > s.At(j).upper.avg
    ensures forall j | path[|events|] < j <= path[0] :: s.At(j).lower.Enabled? && load < s.At(j).lower.avg
  {
    if events != [] {
      OneWay(s, load, path, events, |events| - 1);
    }
    hide Run, Thresholds, Ascending;
    forall j | path[0] <= j < path[|events|] ensures s.At(j).upper.Enabled? && load > s.At(j).upper.avg {
      PassedUp(s, load, path, events, j - path[0]);
    }
    forall j | path[|events|] < j <= path[0] ensures s.At(j).lower.Enabled? && load < s.At(j).lower.avg {
      PassedDown(s, load, path, events, path[0] - j);
    }
  }

  /**
   Under a constant load the index moves one way only and comes to rest within |table| - 1 events:
   at the next entry whose enabled average thresholds bracket the load.
   */
  lemma Converges(s: Setup, load: nat, path: seq<nat>, events: seq<Event>)
    requires s.Ok() && Run(s, load, path, events)
    ensures |events| <= s.hi - s.lo <= |s.table| - 1
    ensures forall k | 0 <= k < |events| :: events[k] == events[0]
    ensures (forall e :: !Raises(s, load, path[|events|], e)) ==> RestsAt(s, load, path[0], path[|events|])
  {
    forall k | 0 <= k < |events| ensures events[k] == events[0] {
      OneWay(s, load, path, events, k);
    }
    if events != [] {
      OneWay(s, load, path, events, |events| - 1);
    }
    var last := path[|events|];
    Passed(s, load, path, events);
    hide Thresholds, Ascending;
    if forall e :: !Raises(s, load, last, e) {
      assert !Raises(s, load, last, AvgAbove) && !Raises(s, load, last, AvgBelow);
    }
  }

  lemma UpperAt(s: Setup, j: nat)
    requires s.Ok() && s.lo <= j < s.hi
    ensures s.At(j).upper == Upper(s.t, s.table[j])
  {
  }

  lemma LowerAt(s: Setup, j: nat)
    requires s.Ok() && s.lo < j <= s.hi
    ensures s.At(j).lower.Enabled? && s.At(j).lower.avg == Upper(s.t, s.table[j - 1]).avg
  {
  }

  lemma AveragesRise(s: Setup, j: nat)
    requires s.Ok() && Clamped(s.t) && s.table[s.hi] < TWO32 && s.lo < j <= s.hi
    ensures Upper(s.t, s.table[j - 1]).avg <= Upper(s.t, s.table[j]).avg
  {
    assert s.table[j - 1] < s.table[j] <= s.table[s.hi];
    UpperInOrder(s.t, s.table[j - 1]);
    UpperInOrder(s.t, s.table[j]);
    MulMono(s.table[j - 1] / 1000, s.table[j] / 1000, s.t.loadTarget);
  }

  /** A place of rest rules out every lower one. */
  lemma NoRestBelow(s: Setup, load: nat, from: nat, a: nat, b: nat)
    requires s.Ok() && Clamped(s.t) && s.table[s.hi] < TWO32 && s.lo <= from <= s.hi && s.lo <= a < b <= s.hi
    requires RestsAt(s, load, from, b)
    ensures !RestsAt(s, load, from, a)
  {
    UpperAt(s, a);
    LowerAt(s, b);
    if a < from < b {
      UpperAt(s, from);
      LowerAt(s, from);
      AveragesRise(s, from);
    }
    hide Upper, Lower, Thresholds, Ascending;
    if from <= a {
      assert load > s.At(a).upper.avg;
    } else if from >= b {
      assert load >= s.At(b).lower.avg;
    } else {
      assert load > s.At(from).upper.avg;
      assert load >= s.At(from).lower.avg;
    }
  }

  /** As long as thresholds fit 32 bits, the place of rest depends on the load and the start alone. */
  lemma RestIsUnique(s: Setup, load: nat, from: nat, a: nat, b: nat)
    requires s.Ok() && Clamped(s.t) && s.table[s.hi] < TWO32
    requires s.lo <= from <= s.hi && s.lo <= a <= s.hi && s.lo <= b <= s.hi
    requires RestsAt(s, load, from, a) && RestsAt(s, load, from, b)
    ensures a == b
  {
    if a < b {
      NoRestBelow(s, load, from, a, b);
    } else if b < a {
      NoRestBelow(s, load, from, b, a);
    }
  }
}
