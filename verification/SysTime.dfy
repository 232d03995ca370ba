/**
 Reading the PTP hardware clock without tearing: nanoseconds, seconds, nanoseconds again, and the
 seconds once more if the nanoseconds have wrapped. Times are nanoseconds of the running clock.
 */
module SysTime {
  import opened Common

  const SECOND: nat := 1_000_000_000

  function Sec(t: nat): nat { t / 1_000_000_000 }

  function Nsec(t: nat): nat { t % 1_000_000_000 }

  /** A seconds and a nanoseconds value put together, as the driver does. */
  function Time(sec: nat, ns: nat): nat { ns + sec * 1_000_000_000 }

  /**
   When each access of one call takes place: the two nanosecond reads, the seconds reads behind
   them and the TSC reads. `top1` and `top3` are bit 31 of the nanosecond register, not part of the time.
   */
  datatype Reads = Reads(t1: nat, t2: nat, u2: nat, t3: nat, u4: nat, t4: nat, top1: bool, top3: bool)

  predicate Ordered(r: Reads) {
    r.t1 <= r.t2 <= r.u2 <= r.t3 <= r.u4 <= r.t4 && Sec(r.t4) < TWO32
  }

  function Stnsr(t: nat, top: bool): nat { Nsec(t) + if top then 0x8000_0000 else 0 }

  function Stsr(t: nat): nat { Sec(t) % 0x1_0000_0000 }

  /** GET_VALUE over bits 0 to 30. */
  function GetValue(data: nat): nat { data % 0x8000_0000 }

  function RolledOver(r: Reads): bool { Nsec(r.t1) > Nsec(r.t3) }

  /** The last register access the call makes. */
  function End(r: Reads): nat { if RolledOver(r) then r.t4 else r.t3 }

  function Systime(r: Reads): nat {
    if RolledOver(r) then Time(Sec(r.t4), Nsec(r.t3))
    else Time(Sec(r.t2), Nsec(r.t1))
  }

  lemma Registers(t: nat, top: bool)
    requires Sec(t) < TWO32
    ensures GetValue(Stnsr(t, top)) == Nsec(t) && Stsr(t) == Sec(t)
    ensures forall ns: nat | ns < SECOND :: Time(Sec(t), ns) < TWO64
  {
  }

  method GetSystime(r: Reads) returns (ns: nat, tsc: nat)
    requires Ordered(r)
    ensures ns == Systime(r) < TWO64
    ensures End(r) - r.t1 <= SECOND ==> ns == r.t1 || ns == r.t3
    ensures End(r) - r.t1 < SECOND ==> ns <= tsc <= End(r)
  {
    InRange(r);
    Registers(r.t1, r.top1);
    Registers(r.t2, false);
    Registers(r.t3, r.top3);
    Registers(r.t4, false);
    if End(r) - r.t1 <= SECOND {
      NotTorn(r);
    }
    if !RolledOver(r) && r.t3 - r.t1 < SECOND {
      NotAheadOfTsc(r);
    }
    hide GetValue, Stnsr, Stsr, Time, Sec;
    var stnsr1 := Stnsr(r.t1, r.top1);
    var stsr := Stsr(r.t2);
    tsc := r.u2;
    var stnsr2 := Stnsr(r.t3, r.top3);
    var ns1 := GetValue(stnsr1);
    var ns2 := GetValue(stnsr2);
    if ns1 > ns2 {
      tsc := r.u4;
      stsr := Stsr(r.t4);
      ns := Time(stsr, ns2);
    } else {
      ns := Time(stsr, ns1);
    }
  }

  lemma InRange(r: Reads)
    requires Ordered(r)
    ensures Sec(r.t1) < TWO32 && Sec(r.t2) < TWO32 && Sec(r.t3) < TWO32 && Sec(r.t4) < TWO32
  {
    SameSecond(r.t1, r.t2, r.t4);
    SameSecond(r.t1, r.t3, r.t4);
  }

  lemma SameSecond(a: nat, b: nat, c: nat)
    requires a <= b <= c
    ensures Sec(a) <= Sec(b) <= Sec(c)
  {
  }

  /** Without a rollover, and in less than a second, the time returned is not later than the TSC read. */
  lemma NotAheadOfTsc(r: Reads)
    requires Ordered(r) && !RolledOver(r) && r.t3 - r.t1 < SECOND
    ensures Systime(r) <= r.u2
  {
    SameSecond(r.t1, r.t2, r.t3);
  }

  /** If its reads span at most one second, a call returns the time of its first or second nanosecond read. */
  lemma NotTorn(r: Reads)
    requires Ordered(r) && End(r) - r.t1 <= SECOND
    ensures Systime(r) == if RolledOver(r) || Sec(r.t2) != Sec(r.t1) then r.t3 else r.t1
  {
    SameSecond(r.t1, r.t2, r.t3);
    SameSecond(r.t3, r.t4, r.t4);
  }

  predicate Right(r: Reads) { Systime(r) == r.t1 || Systime(r) == r.t3 }

  /** One second is exactly the span the call tolerates. */
  lemma ToleratedSpan(span: nat)
    ensures (forall r | Ordered(r) && End(r) - r.t1 <= span :: Right(r)) <==> span <= SECOND
  {
    if span <= SECOND {
      forall r | Ordered(r) && End(r) - r.t1 <= span ensures Right(r) {
        NotTorn(r);
      }
    } else {
      var torn := Reads(0, SECOND, SECOND, SECOND + 1, SECOND + 1, SECOND + 1, false, false);
      assert Ordered(torn) && End(torn) - torn.t1 <= span;
      assert !Right(torn);
    }
  }

  lemma Bracketed(r: Reads)
    requires Ordered(r) && End(r) - r.t1 <= SECOND
    ensures r.t1 <= Systime(r) <= End(r)
  {
    NotTorn(r);
  }

  /** Results of successive calls never go backwards. */
  lemma {:induction false} NeverBackwards(calls: seq<Reads>, i: nat, j: nat)
    requires i <= j < |calls|
    requires forall k | 0 <= k < |calls| :: Ordered(calls[k]) && End(calls[k]) - calls[k].t1 <= SECOND
    requires forall k | 0 <= k < |calls| - 1 :: End(calls[k]) <= calls[k + 1].t1
    ensures Systime(calls[i]) <= Systime(calls[j])
  {
    hide Systime, End, Ordered;
    if i < j {
      NeverBackwards(calls, i, j - 1);
      Bracketed(calls[j - 1]);
      Bracketed(calls[j]);
    }
  }
}
