/**
 The s2idle rendezvous: any number of CPUs park in a wait loop, the boot CPU waits for all of them,
 asks the hypervisor to pause the guest and then releases them. One action is one access to the
 shared mask or state; the power-management notifier may fire between any two of them.
 */
module S2idle {
  const BOOT: nat := 0

  /** Where a CPU other than the boot CPU is. */
  datatype Pc = Running | Marking | Parked

  /** Where the boot CPU is; `left` are the CPUs whose mask bits are still to be cleared. */
  datatype BootPc = BootRunning | Scanning(next: nat) | Calling | Returned | Clearing(left: set<nat>)

  /**
   `sc7` is s2idle_sc7_state, a bool: RESUME_START is stored as the same value as SUSPEND_START.
   `pauses` and `marked` are history: pause calls made, and how many had been made when a bit was set.
   */
  datatype State = State(
    sc7: bool,
    mask: set<nat>,
    boot: BootPc,
    pcs: seq<Pc>,
    pauses: nat,
    marked: seq<nat>)

  datatype Action =
    | SuspendPrepare | PostSuspend
    | Enter(i: nat) | Mark(i: nat) | Test(i: nat)
    | BootEnter | Scan | Pause | ResumeStart | Clear(some: set<nat>) | BootExit

  function Below(n: nat): (r: set<nat>)
    ensures forall i: nat :: i in r <==> i < n
  {
    if n == 0 then {} else Below(n - 1) + {n - 1}
  }

  predicate At(s: State, i: nat, pc: Pc) { i != BOOT && i < |s.pcs| && s.pcs[i] == pc }

  predicate Shaped(online: set<nat>, s: State) {
    && |s.marked| == |s.pcs|
    && (forall i | i in online :: i < |s.pcs|)
  }

  function Init(n: nat): State { State(false, {}, BootRunning, seq(n, _ => Running), 0, seq(n, _ => 0)) }

  predicate Enabled(online: set<nat>, s: State, a: Action) {
    match a
    case SuspendPrepare => true
    case PostSuspend => true
    case Enter(i) => i in online && At(s, i, Running)
    case Mark(i) => At(s, i, Marking)
    case Test(i) => At(s, i, Parked)
    case BootEnter => s.boot == BootRunning
    case Scan => s.boot.Scanning?
    case Pause => s.boot == Calling
    case ResumeStart => s.boot == Returned
    case Clear(some) => s.boot.Clearing? && some != {} && some <= s.boot.left
    case BootExit => s.boot.Clearing? && s.boot.left == {}
  }

  function Go(s: State, i: nat, pc: Pc): State
    requires i < |s.pcs|
  {
    s.(pcs := s.pcs[i := pc])
  }

  function Step(online: set<nat>, s: State, a: Action): State
    requires Shaped(online, s) && Enabled(online, s, a)
  {
    match a
    case SuspendPrepare => s.(sc7 := true)
    case PostSuspend => s.(sc7 := false)
    case Enter(i) => if s.sc7 then Go(s, i, Marking) else s
    case Mark(i) => Go(s, i, Parked).(mask := s.mask + {i}, marked := s.marked[i := s.pauses])
    case Test(i) => if i in s.mask then s else Go(s, i, Running)
    case BootEnter => if s.sc7 then s.(boot := Scanning(0)) else s
    case Scan =>
      var k := s.boot.next;
      if k >= |s.pcs| then s.(boot := Calling)
      else if k == BOOT || k !in online || k in s.mask then s.(boot := Scanning(k + 1))
      else s
    case Pause => s.(boot := Returned, pauses := s.pauses + 1)
    case ResumeStart => s.(sc7 := true, boot := Clearing(Below(|s.pcs|)))
    case Clear(some) => s.(mask := s.mask - some, boot := Clearing(s.boot.left - some))
    case BootExit => s.(boot := BootRunning)
  }

  // ---------------------------------------------------------------- the invariant

  /** Every other online CPU below k has its bit set. */
  predicate Gathered(online: set<nat>, s: State, k: nat) {
    forall i | i in online && i != BOOT && i < k :: i in s.mask
  }

  /** Bits the boot CPU will not clear any more were set after the latest pause. */
  predicate Fresh(s: State, left: set<nat>) {
    forall i | i in s.mask && i !in left && i < |s.marked| :: s.marked[i] == s.pauses
  }

  predicate Inv(online: set<nat>, s: State) {
    && Shaped(online, s)
    && (forall i | i in s.mask :: At(s, i, Parked))
    && (s.boot.Scanning? ==> Gathered(online, s, s.boot.next))
    && (s.boot == Calling ==> Gathered(online, s, |s.pcs|))
    && match s.boot {
         case Returned => true
         case Clearing(left) => Fresh(s, left)
         case _ => Fresh(s, {})
       }
  }

  lemma InvStep(online: set<nat>, s: State, a: Action)
    requires Inv(online, s) && Enabled(online, s, a)
    ensures Inv(online, Step(online, s, a))
  {
  }

  ghost predicate Run(online: set<nat>, states: seq<State>, actions: seq<Action>) {
    && |states| == |actions| + 1
    && (forall k | 0 <= k < |states| :: Shaped(online, states[k]))
    && forall k | 0 <= k < |actions| ::
         Enabled(online, states[k], actions[k]) && states[k + 1] == Step(online, states[k], actions[k])
  }

  ghost predicate RunFromBoot(online: set<nat>, states: seq<State>, actions: seq<Action>) {
    Run(online, states, actions) && states[0] == Init(|states[0].pcs|)
  }

  lemma {:induction false} InvAlong(online: set<nat>, states: seq<State>, actions: seq<Action>, k: nat)
    requires RunFromBoot(online, states, actions) && k < |states|
    ensures Inv(online, states[k])
  {
    if k > 0 {
      InvAlong(online, states, actions, k - 1);
      InvStep(online, states[k - 1], actions[k - 1]);
    }
  }

  // ---------------------------------------------------------------- what it is for

  /** Whenever the pause call is made, every other online CPU has its bit set and is in its wait loop. */
  lemma PausedTogether(online: set<nat>, states: seq<State>, actions: seq<Action>, k: nat)
    requires RunFromBoot(online, states, actions) && k < |actions| && actions[k] == Pause
    ensures forall i | i in online && i != BOOT :: i in states[k].mask && At(states[k], i, Parked)
  {
    InvAlong(online, states, actions, k);
  }

  /** A set bit means a parked CPU, and a parked CPU leaves only when its bit is clear. */
  lemma OnlyAClearBitReleases(online: set<nat>, states: seq<State>, actions: seq<Action>, k: nat, i: nat)
    requires RunFromBoot(online, states, actions) && k < |actions|
    ensures i in states[k].mask ==> At(states[k], i, Parked)
    ensures At(states[k], i, Parked) && !At(states[k + 1], i, Parked) ==> i !in states[k].mask
    ensures i in states[k].mask && i !in states[k + 1].mask ==> actions[k].Clear?
  {
    InvAlong(online, states, actions, k);
  }

  /** When the boot CPU is back, no CPU is still held by a bit it set before the latest pause. */
  lemma NoneLeftBehind(online: set<nat>, states: seq<State>, actions: seq<Action>, k: nat, i: nat)
    requires RunFromBoot(online, states, actions) && k < |states|
    requires states[k].boot == BootRunning && i in states[k].mask
    ensures i < |states[k].marked| && states[k].marked[i] == states[k].pauses
  {
    InvAlong(online, states, actions, k);
  }

  /** Without another pause, whatever the notifier says, CPUs that have parked stay parked. */
  lemma {:induction false} StuckWithoutPause(online: set<nat>, states: seq<State>, actions: seq<Action>, k: nat)
    requires Run(online, states, actions) && k < |states| && Inv(online, states[0])
    requires !states[0].boot.Returned? && !states[0].boot.Clearing?
    requires Pause !in actions
    ensures Inv(online, states[k]) && states[0].mask <= states[k].mask
    ensures !states[k].boot.Returned? && !states[k].boot.Clearing?
    ensures forall i | i in states[0].mask :: At(states[k], i, Parked)
  {
    if k > 0 {
      StuckWithoutPause(online, states, actions, k - 1);
      assert actions[k - 1] in actions;
      InvStep(online, states[k - 1], actions[k - 1]);
    }
  }

  /** Once a wave has resumed, the flag stays up until PM_POST_SUSPEND, so a CPU that comes back parks again. */
  lemma {:induction false} ReentryParksAgain(online: set<nat>, states: seq<State>, actions: seq<Action>, j: nat, k: nat, i: nat)
    requires Run(online, states, actions) && j < k < |actions|
    requires actions[j] == ResumeStart && actions[k] == Enter(i)
    requires forall m | j < m < k :: actions[m] != PostSuspend
    ensures At(states[k + 1], i, Marking)
  {
    FlagStays(online, states, actions, j, k);
  }

  lemma {:induction false} FlagStays(online: set<nat>, states: seq<State>, actions: seq<Action>, j: nat, k: nat)
    requires Run(online, states, actions) && j < k < |actions| && actions[j] == ResumeStart
    requires forall m | j < m < k :: actions[m] != PostSuspend
    ensures states[k].sc7
  {
    if k > j + 1 {
      FlagStays(online, states, actions, j, k - 1);
    }
  }

  // ---------------------------------------------------------------- entering and leaving the wait

  /** What the latest write to the flag was: the notifier's, or the boot CPU's after a pause. */
  function LastNotice(actions: seq<Action>): bool {
    if actions == [] then false
    else
      match actions[|actions| - 1]
      case SuspendPrepare => true
      case ResumeStart => true
      case PostSuspend => false
      case _ => LastNotice(actions[..|actions| - 1])
  }

  lemma {:induction false} FlagIsLastNotice(online: set<nat>, states: seq<State>, actions: seq<Action>, k: nat)
    requires RunFromBoot(online, states, actions) && k < |states|
    ensures states[k].sc7 == LastNotice(actions[..k])
  {
    if k > 0 {
      FlagIsLastNotice(online, states, actions, k - 1);
      assert actions[..k][..k - 1] == actions[..k - 1];
    }
  }

  /** A CPU that comes to the idle state goes on to park exactly when the latest notice is not of the end of the suspend. */
  lemma EntryExactly(online: set<nat>, states: seq<State>, actions: seq<Action>, k: nat, i: nat)
    requires RunFromBoot(online, states, actions) && k < |actions| && actions[k] == Enter(i)
    ensures At(states[k + 1], i, if LastNotice(actions[..k]) then Marking else Running)
  {
    FlagIsLastNotice(online, states, actions, k);
  }

  /** And the boot CPU goes on to wait for the others under the same condition. */
  lemma BootEntryExactly(online: set<nat>, states: seq<State>, actions: seq<Action>, k: nat)
    requires RunFromBoot(online, states, actions) && k < |actions| && actions[k] == BootEnter
    ensures states[k + 1].boot == if LastNotice(actions[..k]) then Scanning(0) else BootRunning
  {
    FlagIsLastNotice(online, states, actions, k);
  }

  /** A parked CPU that looks at its bit is running afterwards exactly when the bit is clear. */
  lemma TestExactly(online: set<nat>, states: seq<State>, actions: seq<Action>, k: nat, i: nat)
    requires RunFromBoot(online, states, actions) && k < |actions| && actions[k] == Test(i)
    ensures At(states[k + 1], i, Running) <==> i !in states[k].mask
    ensures states[k + 1] == states[k].(pcs := states[k + 1].pcs)
    ensures forall j: nat, pc: Pc | j != i :: At(states[k + 1], j, pc) <==> At(states[k], j, pc)
  {
  }

  // ---------------------------------------------------------------- a wave can always be completed

  /** The actions, taken one after the other from s, are all possible and end in t. */
  ghost predicate Leads(online: set<nat>, s: State, actions: seq<Action>, t: State)
    decreases |actions|
  {
    if actions == [] then s == t
    else
      && Shaped(online, s) && Enabled(online, s, actions[0])
      && Leads(online, Step(online, s, actions[0]), actions[1..], t)
  }

  lemma LeadsBy(online: set<nat>, s: State, a: Action, rest: seq<Action>, t: State)
    requires Shaped(online, s) && Enabled(online, s, a) && Leads(online, Step(online, s, a), rest, t)
    ensures Leads(online, s, [a] + rest, t)
  {
    assert ([a] + rest)[1..] == rest;
  }

  lemma {:induction false} LeadsOn(online: set<nat>, s: State, a: seq<Action>, t: State, b: seq<Action>, u: State)
    requires Leads(online, s, a, t) && Leads(online, t, b, u)
    ensures Leads(online, s, a + b, u)
    decreases |a|
  {
    if a == [] {
      assert a + b == b;
    } else {
      assert (a + b)[1..] == a[1..] + b;
      LeadsOn(online, Step(online, s, a[0]), a[1..], t, b, u);
    }
  }

  predicate ByOthers(a: Action) { a.Enter? || a.Mark? || a.Test? }

  predicate ByBoot(a: Action) { a.BootEnter? || a.Scan? || a.Pause? || a.ResumeStart? || a.Clear? || a.BootExit? }

  /** Before the boot CPU comes: the flag is up, and only the other CPUs have moved, none of them out of its wait. */
  ghost predicate Gathering(online: set<nat>, s: State, t: State) {
    && Inv(online, t) && t.sc7 && t.boot == BootRunning && t.pauses == s.pauses
    && |t.pcs| == |s.pcs| && s.mask <= t.mask
  }

  /** A CPU parks with its bit set by its own actions alone, wherever it is. */
  lemma {:induction false} Parks(online: set<nat>, s: State, i: nat) returns (actions: seq<Action>, t: State)
    requires Gathering(online, s, s) && i in online && i != BOOT
    ensures Leads(online, s, actions, t) && (forall a | a in actions :: ByOthers(a))
    ensures Gathering(online, s, t) && i in t.mask
    decreases if i in s.mask then 0 else match s.pcs[i] case Parked => 3 case Running => 2 case Marking => 1
  {
    if i in s.mask {
      actions, t := [], s;
    } else {
      var a := match s.pcs[i] case Parked => Test(i) case Running => Enter(i) case Marking => Mark(i);
      InvStep(online, s, a);
      var rest;
      rest, t := Parks(online, Step(online, s, a), i);
      LeadsBy(online, s, a, rest, t);
      actions := [a] + rest;
    }
  }

  lemma {:induction false} AllPark(online: set<nat>, s: State, k: nat) returns (actions: seq<Action>, t: State)
    requires Gathering(online, s, s)
    ensures Leads(online, s, actions, t) && (forall a | a in actions :: ByOthers(a))
    ensures Gathering(online, s, t) && Gathered(online, t, k)
  {
    if k == 0 {
      actions, t := [], s;
    } else {
      var before, u := AllPark(online, s, k - 1);
      if k - 1 in online && k - 1 != BOOT {
        var more;
        more, t := Parks(online, u, k - 1);
        LeadsOn(online, s, before, u, more, t);
        actions := before + more;
      } else {
        actions, t := before, u;
      }
    }
  }

  /** With every bit set the scan of the boot CPU runs through to the pause call. */
  lemma {:induction false} ScansThrough(online: set<nat>, s: State) returns (actions: seq<Action>)
    requires Shaped(online, s) && s.boot.Scanning? && Gathered(online, s, |s.pcs|)
    ensures Leads(online, s, actions, s.(boot := Calling)) && (forall a | a in actions :: ByBoot(a))
    decreases if s.boot.next < |s.pcs| then |s.pcs| - s.boot.next else 0
  {
    var t := Step(online, s, Scan);
    var rest: seq<Action> := [];
    if s.boot.next < |s.pcs| {
      rest := ScansThrough(online, t);
    }
    LeadsBy(online, s, Scan, rest, s.(boot := Calling));
    actions := [Scan] + rest;
  }

  /** With no bit set every parked CPU leaves its wait when it looks. */
  lemma {:induction false} AllLeave(online: set<nat>, s: State, k: nat) returns (actions: seq<Action>, t: State)
    requires Shaped(online, s) && s.mask == {} && k <= |s.pcs|
    ensures Leads(online, s, actions, t) && (forall a | a in actions :: ByOthers(a))
    ensures t == s.(pcs := t.pcs) && |t.pcs| == |s.pcs|
    ensures forall i | 0 < i < k :: t.pcs[i] != Parked
  {
    if k == 0 {
      actions, t := [], s;
    } else {
      var before, u := AllLeave(online, s, k - 1);
      if At(u, k - 1, Parked) {
        t := Step(online, u, Test(k - 1));
        assert Leads(online, t, [], t);
        LeadsBy(online, u, Test(k - 1), [], t);
        LeadsOn(online, s, before, u, [Test(k - 1)], t);
        actions := before + [Test(k - 1)];
      } else {
        actions, t := before, u;
      }
    }
  }

  function Resuming(n: nat): seq<Action> { [Pause, ResumeStart, Clear(Below(n)), BootExit] }

  /** After the pause the boot CPU clears every bit and leaves; the flag stays up. */
  lemma Resumes(online: set<nat>, s: State)
    requires Inv(online, s) && s.boot == Calling && |s.pcs| > 0
    ensures Leads(online, s, Resuming(|s.pcs|), s.(sc7 := true, boot := BootRunning, pauses := s.pauses + 1, mask := {}))
  {
    var all := Below(|s.pcs|);
    assert 0 in all;
    assert s.mask - all == {} && all - all == {};
    var t := Step(online, s, Pause);
    var u := Step(online, t, ResumeStart);
    var v := Step(online, u, Clear(all));
    var w := Step(online, v, BootExit);
    assert Leads(online, w, [], w);
    LeadsBy(online, v, BootExit, [], w);
    LeadsBy(online, u, Clear(all), [BootExit], w);
    LeadsBy(online, t, ResumeStart, [Clear(all), BootExit], w);
    LeadsBy(online, s, Pause, [ResumeStart, Clear(all), BootExit], w);
  }

  /**
   From every state a run can reach with the flag up and the boot CPU outside, a wave can be
   completed without the notifier: the other CPUs park, the boot CPU finds all of them and pauses,
   and afterwards no bit is set and no CPU is left in its wait.
   */
  lemma WaveCompletes(online: set<nat>, states: seq<State>, actions: seq<Action>, k: nat)
    returns (parking: seq<Action>, scanning: seq<Action>, leaving: seq<Action>, t: State)
    requires RunFromBoot(online, states, actions) && k < |states| && |states[k].pcs| > 0
    requires states[k].boot == BootRunning && LastNotice(actions[..k])
    ensures Leads(online, states[k], parking + (scanning + (Resuming(|states[k].pcs|) + leaving)), t)
    ensures (forall a | a in parking + leaving :: ByOthers(a)) && forall a | a in scanning :: ByBoot(a)
    ensures t.boot == BootRunning && t.mask == {} && t.pauses == states[k].pauses + 1
    ensures forall i | 0 < i < |t.pcs| :: t.pcs[i] != Parked
  {
    var s, n := states[k], |states[k].pcs|;
    InvAlong(online, states, actions, k);
    FlagIsLastNotice(online, states, actions, k);
    var u;
    parking, u := AllPark(online, s, n);
    InvStep(online, u, BootEnter);
    var v := Step(online, u, BootEnter);
    var scan := ScansThrough(online, v);
    var w := v.(boot := Calling);
    LeadsBy(online, u, BootEnter, scan, w);
    scanning := [BootEnter] + scan;
    Resumes(online, w);
    var r := w.(sc7 := true, boot := BootRunning, pauses := w.pauses + 1, mask := {});
    leaving, t := AllLeave(online, r, n);
    hide Leads;
    LeadsOn(online, w, Resuming(n), r, leaving, t);
    LeadsOn(online, u, scanning, w, Resuming(n) + leaving, t);
    LeadsOn(online, s, parking, u, scanning + (Resuming(n) + leaving), t);
  }
}
