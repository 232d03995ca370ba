/**
 Suspending an engine while any number of senders use any number of IVC channels: the suspended
 flag is set first, then each of the engine's channels is watched until its lock is seen free once.
 Shutdown and resume do nothing at all while `gcmSupportsDma` is up: one variable for the whole
 module, which the probe of every node overwrites.
 */
module Quiesce {
  /** Where a sender is: holding no lock, before the suspended check, past it, or on its way out. */
  datatype SenderPc = Outside | Locked | Past | Leaving

  /** The power-management thread: not suspending, watching channel `next`, or returned. */
  datatype PmPc = Active | Watching(next: nat) | Suspended

  datatype Holder = Free | By(who: nat)

  /** `mine[c]`: channel c is a live channel of the engine; `chan[i]`: the channel sender i uses. */
  datatype Config = Config(mine: seq<bool>, chan: seq<nat>) {
    ghost predicate Ok() { forall i | 0 <= i < |chan| :: chan[i] < |mine| }

    predicate Uses(i: nat)
      requires Ok()
    {
      i < |chan| && mine[chan[i]]
    }
  }

  datatype State = State(suspended: bool, gcmSupportsDma: bool, holder: seq<Holder>, senders: seq<SenderPc>, pm: PmPc)

  datatype Action =
    | Acquire(i: nat) | Check(i: nat) | WriteFrame(i: nat) | Leave(i: nat) | Release(i: nat)
    | Shutdown | Watch | Resume
    | Probe(dmaNode: bool)

  function Init(c: Config): State {
    State(false, false, seq(|c.mine|, _ => Free), seq(|c.chan|, _ => Outside), Active)
  }

  predicate Shaped(c: Config, s: State) { |s.holder| == |c.mine| && |s.senders| == |c.chan| }

  predicate At(s: State, i: nat, pc: SenderPc) { i < |s.senders| && s.senders[i] == pc }

  predicate Enabled(c: Config, s: State, a: Action)
    requires c.Ok() && Shaped(c, s)
  {
    match a
    case Acquire(i) => At(s, i, Outside) && s.holder[c.chan[i]] == Free
    case Check(i) => At(s, i, Locked)
    case WriteFrame(i) => At(s, i, Past)
    case Leave(i) => At(s, i, Past)
    case Release(i) => At(s, i, Leaving)
    case Shutdown => s.pm == Active
    // The channel is skipped if it is not this engine's, and left only when its lock is seen free.
    // That the interrupt-state lock must be free as well only removes behaviours.
    case Watch => s.pm.Watching? && (s.pm.next < |c.mine| && c.mine[s.pm.next] ==> s.holder[s.pm.next] == Free)
    case Resume => s.pm == Suspended
    case Probe(_) => true
  }

  function Go(s: State, i: nat, pc: SenderPc): State
    requires i < |s.senders|
  {
    s.(senders := s.senders[i := pc])
  }

  function Step(c: Config, s: State, a: Action): (t: State)
    requires c.Ok() && Shaped(c, s) && Enabled(c, s, a)
    ensures Shaped(c, t)
  {
    match a
    case Acquire(i) => Go(s, i, Locked).(holder := s.holder[c.chan[i] := By(i)])
    case Check(i) => Go(s, i, if s.suspended && c.mine[c.chan[i]] then Leaving else Past)
    case WriteFrame(i) => s
    case Leave(i) => Go(s, i, Leaving)
    case Release(i) => Go(s, i, Outside).(holder := s.holder[c.chan[i] := Free])
    case Shutdown => if s.gcmSupportsDma then s.(pm := Suspended) else s.(suspended := true, pm := Watching(0))
    case Watch => if s.pm.next < |c.mine| then s.(pm := Watching(s.pm.next + 1)) else s.(pm := Suspended)
    case Resume => if s.gcmSupportsDma then s.(pm := Active) else s.(suspended := false, pm := Active)
    case Probe(dmaNode) => s.(gcmSupportsDma := dmaNode)
  }

  // ---------------------------------------------------------------- quiescence

  /** No sender on one of the engine's channels is past the check, so none can write a frame. */
  ghost predicate Quiet(c: Config, s: State, upTo: nat)
    requires c.Ok() && Shaped(c, s)
  {
    forall i | 0 <= i < |s.senders| && c.chan[i] < upTo && c.mine[c.chan[i]] :: s.senders[i] != Past
  }

  /** A channel's lock is held by exactly the sender that is inside it. */
  ghost predicate HoldersInside(c: Config, s: State)
    requires c.Ok() && Shaped(c, s)
  {
    && (forall i | 0 <= i < |s.senders| :: s.senders[i] != Outside <==> s.holder[c.chan[i]] == By(i))
    && forall ch | 0 <= ch < |s.holder| && s.holder[ch].By? :: s.holder[ch].who < |c.chan| && c.chan[s.holder[ch].who] == ch
  }

  /** Channels already watched are quiet; once all are, they stay so while the flag is up. */
  ghost predicate WatchedQuiet(c: Config, s: State)
    requires c.Ok() && Shaped(c, s)
  {
    if s.pm.Watching? then s.suspended && Quiet(c, s, s.pm.next) else s.suspended ==> Quiet(c, s, |c.mine|)
  }

  ghost predicate Inv(c: Config, s: State)
    requires c.Ok() && Shaped(c, s)
  {
    HoldersInside(c, s) && WatchedQuiet(c, s)
  }

  lemma HoldersStep(c: Config, s: State, a: Action)
    requires c.Ok() && Shaped(c, s) && HoldersInside(c, s) && Enabled(c, s, a)
    ensures HoldersInside(c, Step(c, s, a))
  {
  }

  lemma WatchedStep(c: Config, s: State, a: Action)
    requires c.Ok() && Shaped(c, s) && Inv(c, s) && Enabled(c, s, a)
    ensures WatchedQuiet(c, Step(c, s, a))
  {
    var t := Step(c, s, a);
    if a.Watch? && s.pm.next < |c.mine| && c.mine[s.pm.next] {
      forall i | 0 <= i < |t.senders| && c.chan[i] < s.pm.next + 1 && c.mine[c.chan[i]] ensures t.senders[i] != Past {
        assert c.chan[i] == s.pm.next ==> s.senders[i] == Outside;
      }
    }
  }

  lemma InvStep(c: Config, s: State, a: Action)
    requires c.Ok() && Shaped(c, s) && Inv(c, s) && Enabled(c, s, a)
    ensures Inv(c, Step(c, s, a))
  {
    HoldersStep(c, s, a);
    WatchedStep(c, s, a);
    hide HoldersInside, WatchedQuiet;
  }

  // ---------------------------------------------------------------- runs

  /** A run from any state. */
  ghost predicate RunFrom(c: Config, states: seq<State>, actions: seq<Action>)
    requires c.Ok()
  {
    && |states| == |actions| + 1
    && (forall k | 0 <= k < |states| :: Shaped(c, states[k]))
    && forall k | 0 <= k < |actions| ::
         Enabled(c, states[k], actions[k]) && states[k + 1] == Step(c, states[k], actions[k])
  }

  ghost predicate Run(c: Config, states: seq<State>, actions: seq<Action>)
    requires c.Ok()
  {
    RunFrom(c, states, actions) && states[0] == Init(c)
  }

  lemma {:induction false} InvAlong(c: Config, states: seq<State>, actions: seq<Action>, k: nat)
    requires c.Ok() && RunFrom(c, states, actions) && k < |states| && Inv(c, states[0])
    ensures Inv(c, states[k])
  {
    if k > 0 {
      InvAlong(c, states, actions, k - 1);
      InvStep(c, states[k - 1], actions[k - 1]);
    }
  }

  /** Whether the node probed last, if any, was the one that only allocates GPC-DMA buffers. */
  function LastProbe(actions: seq<Action>): bool {
    if actions == [] then false
    else
      match actions[|actions| - 1]
      case Probe(dmaNode) => dmaNode
      case _ => LastProbe(actions[..|actions| - 1])
  }

  lemma {:induction false} FlagIsLastProbe(c: Config, states: seq<State>, actions: seq<Action>, k: nat)
    requires c.Ok() && Run(c, states, actions) && k < |states|
    ensures states[k].gcmSupportsDma == LastProbe(actions[..k])
  {
    if k > 0 {
      FlagIsLastProbe(c, states, actions, k - 1);
      assert actions[..k][..k - 1] == actions[..k - 1];
    }
  }

  /** Before the first resume an engine that is not suspending has its flag down. */
  lemma {:induction false} DownBeforeResume(c: Config, states: seq<State>, actions: seq<Action>, k: nat)
    requires c.Ok() && Run(c, states, actions) && k < |states| && Resume !in actions[..k]
    ensures states[k].suspended ==> states[k].pm != Active
  {
    if k > 0 {
      assert actions[..k - 1] == actions[..k][..k - 1];
      assert actions[k - 1] in actions[..k];
      DownBeforeResume(c, states, actions, k - 1);
    }
  }

  // ---------------------------------------------------------------- what a suspend is for

  /** Whatever happens from state s on, no sender of the engine can write between the return of shutdown and the next resume. */
  ghost predicate StaysQuiet(c: Config, s: State)
    requires c.Ok()
  {
    forall states: seq<State>, actions: seq<Action>, i: nat | RunFrom(c, states, actions) && states[0] == s && Resume !in actions && c.Uses(i) ::
      states[|actions|].pm == Suspended ==> !Enabled(c, states[|actions|], WriteFrame(i))
  }

  lemma {:induction false} SuspendedStays(c: Config, states: seq<State>, actions: seq<Action>, k: nat)
    requires c.Ok() && RunFrom(c, states, actions) && k < |states| && Resume !in actions
    requires states[0].suspended && states[0].pm != Active
    ensures states[k].suspended && states[k].pm != Active
  {
    if k > 0 {
      SuspendedStays(c, states, actions, k - 1);
      assert actions[k - 1] in actions;
    }
  }

  /** With the flag set, shutdown keeps its promise over every continuation. */
  lemma SuspendedIsQuiet(c: Config, s: State)
    requires c.Ok() && Shaped(c, s) && Inv(c, s) && s.suspended && s.pm != Active
    ensures StaysQuiet(c, s)
  {
    forall states: seq<State>, actions: seq<Action>, i: nat | RunFrom(c, states, actions) && states[0] == s && Resume !in actions && c.Uses(i)
      ensures states[|actions|].pm == Suspended ==> !Enabled(c, states[|actions|], WriteFrame(i))
    {
      InvAlong(c, states, actions, |actions|);
      SuspendedStays(c, states, actions, |actions|);
    }
  }

  // ---------------------------------------------------------------- what a resume is for

  /** Some continuation, in which the engine is neither suspended nor resumed, lets a sender of channel ch write. */
  ghost predicate Serves(c: Config, s: State, ch: nat)
    requires c.Ok()
  {
    exists states: seq<State>, actions: seq<Action>, j: nat :: RunFrom(c, states, actions) && states[0] == s && Writes(c, states, actions, j, ch)
  }

  ghost predicate Writes(c: Config, states: seq<State>, actions: seq<Action>, j: nat, ch: nat)
    requires c.Ok() && RunFrom(c, states, actions)
  {
    && Shutdown !in actions && Resume !in actions
    && j < |c.chan| && c.chan[j] == ch
    && Enabled(c, states[|actions|], WriteFrame(j))
  }

  lemma RunCons(c: Config, s: State, a: Action, states: seq<State>, actions: seq<Action>)
    requires c.Ok() && Shaped(c, s) && Enabled(c, s, a) && RunFrom(c, states, actions) && states[0] == Step(c, s, a)
    ensures RunFrom(c, [s] + states, [a] + actions)
  {
    hide Step;
  }

  /** The actions sender j takes to get past the check once its channel is free or its own. */
  function WayIn(pc: SenderPc, j: nat): seq<Action> {
    match pc
    case Past => [] case Locked => [Check(j)]
    case Outside => [Acquire(j), Check(j)] case Leaving => [Release(j), Acquire(j), Check(j)]
  }

  /** Whoever holds the channel gets past the check in at most three actions of its own; nobody else moves. */
  lemma GetsPast(c: Config, s: State, i: nat) returns (states: seq<State>, j: nat)
    requires c.Ok() && Shaped(c, s) && Inv(c, s) && i < |c.chan| && !(s.suspended && c.mine[c.chan[i]])
    ensures j < |c.chan| && c.chan[j] == c.chan[i]
    ensures var actions := WayIn(s.senders[j], j);
            && RunFrom(c, states, actions) && states[0] == s
            && states[|actions|].senders == s.senders[j := Past]
            && states[|actions|].pm == s.pm
  {
    j := if s.holder[c.chan[i]] == Free then i else s.holder[c.chan[i]].who;
    states := GoesIn(c, s, j);
  }

  lemma {:induction false} GoesIn(c: Config, s: State, j: nat) returns (states: seq<State>)
    requires c.Ok() && Shaped(c, s) && j < |c.chan| && !(s.suspended && c.mine[c.chan[j]])
    requires s.senders[j] == Outside ==> s.holder[c.chan[j]] == Free
    ensures var actions := WayIn(s.senders[j], j);
            && RunFrom(c, states, actions) && states[0] == s
            && states[|actions|].senders == s.senders[j := Past]
            && states[|actions|].pm == s.pm
    decreases |WayIn(s.senders[j], j)|
  {
    var actions := WayIn(s.senders[j], j);
    if actions == [] {
      states := [s];
    } else {
      var t := Step(c, s, actions[0]);
      assert WayIn(t.senders[j], j) == actions[1..];
      var rest := GoesIn(c, t, j);
      RunCons(c, s, actions[0], rest, actions[1..]);
      states := [s] + rest;
    }
  }

  /** A channel serves its senders exactly when it is another engine's or the flag is down; not so while a suspend is under way. */
  lemma ServesExactly(c: Config, s: State, i: nat)
    requires c.Ok() && Shaped(c, s) && Inv(c, s) && i < |c.chan|
    ensures !(s.suspended && c.mine[c.chan[i]]) ==> Serves(c, s, c.chan[i])
    ensures s.suspended && c.mine[c.chan[i]] && !s.pm.Watching? ==> !Serves(c, s, c.chan[i])
  {
    if !(s.suspended && c.mine[c.chan[i]]) {
      var states, j := GetsPast(c, s, i);
      assert Writes(c, states, WayIn(s.senders[j], j), j, c.chan[i]);
    } else if !s.pm.Watching? {
      forall states: seq<State>, actions: seq<Action>, j: nat | RunFrom(c, states, actions) && states[0] == s
        ensures !Writes(c, states, actions, j, c.chan[i])
      {
        if Shutdown !in actions && Resume !in actions {
          FlagStays(c, states, actions, |actions|);
          InvAlong(c, states, actions, |actions|);
        }
      }
    }
  }

  /** Without a shutdown or a resume the flag stays as it is, and no suspend begins. */
  lemma {:induction false} FlagStays(c: Config, states: seq<State>, actions: seq<Action>, k: nat)
    requires c.Ok() && RunFrom(c, states, actions) && k < |states| && Shutdown !in actions && Resume !in actions
    ensures states[k].suspended == states[0].suspended
    ensures !states[0].pm.Watching? ==> !states[k].pm.Watching?
  {
    if k > 0 {
      FlagStays(c, states, actions, k - 1);
      assert actions[k - 1] in actions;
    }
  }

  /**
   Over every run: after a resume an engine serves its senders exactly when the node probed last
   is not the GPC-DMA one, or the engine's flag was down already. A skipped resume leaves it shut.
   */
  lemma ReopensExactly(c: Config, states: seq<State>, actions: seq<Action>, k: nat, i: nat)
    requires c.Ok() && Run(c, states, actions) && k < |actions| && actions[k] == Resume && c.Uses(i)
    ensures Serves(c, states[k + 1], c.chan[i]) <==> !LastProbe(actions[..k]) || !states[k].suspended
  {
    InvAlong(c, states, actions, k);
    InvStep(c, states[k], Resume);
    FlagIsLastProbe(c, states, actions, k);
    ServesExactly(c, states[k + 1], i);
  }

  /** Over every run and at every moment, suspending this engine leaves the other engines' channels at work. */
  lemma OthersKeepServing(c: Config, states: seq<State>, actions: seq<Action>, k: nat, i: nat)
    requires c.Ok() && Run(c, states, actions) && k < |states| && i < |c.chan| && !c.mine[c.chan[i]]
    ensures Serves(c, states[k], c.chan[i])
  {
    InvAlong(c, states, actions, k);
    ServesExactly(c, states[k], i);
  }

  // ---------------------------------------------------------------- a suspend can always finish

  /** How far a sender on a watched channel is from giving its lock back, at most. */
  function Distance(pc: SenderPc): nat {
    match pc case Outside => 0 case Leaving => 1 case Past => 2 case Locked => 3
  }

  /** Actions of senders that are inside already, and of the suspending thread: no lock is taken, nothing is resumed. */
  predicate Winds(a: Action) { a.Check? || a.Leave? || a.Release? || a.Watch? }

  /** The next action of a suspend: the holder of the watched channel moves on, or the channel is left. */
  function Wind(c: Config, s: State): Action
    requires c.Ok() && Shaped(c, s) && s.pm.Watching?
  {
    var next := s.pm.next;
    if next < |c.mine| && c.mine[next] && s.holder[next].By? then
      var j := s.holder[next].who;
      if At(s, j, Locked) then Check(j) else if At(s, j, Past) then Leave(j) else Release(j)
    else Watch
  }

  /** Channels left to watch, and how far the holder of the watched one is from leaving. */
  function ChannelsLeft(c: Config, s: State): nat {
    if s.pm.Watching? && s.pm.next < |c.mine| then |c.mine| - s.pm.next else 0
  }

  function HolderLeft(c: Config, s: State): nat
    requires c.Ok() && Shaped(c, s)
  {
    if s.pm.Watching? && s.pm.next < |c.mine| && s.holder[s.pm.next].By? && s.holder[s.pm.next].who < |s.senders|
    then 1 + Distance(s.senders[s.holder[s.pm.next].who])
    else 0
  }

  lemma WindsNearer(c: Config, s: State)
    requires c.Ok() && Shaped(c, s) && Inv(c, s) && s.pm.Watching?
    ensures var a := Wind(c, s);
            && Winds(a) && Enabled(c, s, a) && Step(c, s, a).suspended
            && (Step(c, s, a).pm == Suspended ||
                (Step(c, s, a).pm.Watching? &&
                 (ChannelsLeft(c, Step(c, s, a)) < ChannelsLeft(c, s) ||
                  (ChannelsLeft(c, Step(c, s, a)) == ChannelsLeft(c, s) && HolderLeft(c, Step(c, s, a)) < HolderLeft(c, s)))))
  {
  }

  /** Every suspend that has begun can return: the senders inside need only go on, and no new one is needed. */
  lemma {:induction false} SuspendReturns(c: Config, s: State) returns (states: seq<State>, actions: seq<Action>)
    requires c.Ok() && Shaped(c, s) && Inv(c, s) && s.pm.Watching?
    ensures RunFrom(c, states, actions) && states[0] == s && states[|actions|].pm == Suspended && states[|actions|].suspended
    ensures forall a | a in actions :: Winds(a)
    decreases ChannelsLeft(c, s), HolderLeft(c, s)
  {
    var a := Wind(c, s);
    WindsNearer(c, s);
    InvStep(c, s, a);
    var t := Step(c, s, a);
    if t.pm == Suspended {
      states, actions := [t], [];
    } else {
      states, actions := SuspendReturns(c, t);
    }
    RunCons(c, s, a, states, actions);
    states, actions := [s] + states, [a] + actions;
  }

  // ---------------------------------------------------------------- when a suspend quiets

  /** With the flag down, some sender of the engine gets past the check in at most three steps. */
  lemma SkippedKeepsWriting(c: Config, s: State, i: nat)
    requires c.Ok() && Shaped(c, s) && Inv(c, s) && !s.suspended && s.pm == Suspended && c.Uses(i)
    ensures !StaysQuiet(c, s)
  {
    var states, j := GetsPast(c, s, i);
    NotQuiet(c, states, WayIn(s.senders[j], j), j);
  }

  lemma NotQuiet(c: Config, states: seq<State>, actions: seq<Action>, i: nat)
    requires c.Ok() && RunFrom(c, states, actions) && Resume !in actions && c.Uses(i)
    requires states[|actions|].pm == Suspended && states[|actions|].senders[i] == Past
    ensures !StaysQuiet(c, states[0])
  {
    assert Enabled(c, states[|actions|], WriteFrame(i));
  }

  /**
   Over every run: a shutdown quiets an engine that has a sender exactly when the node probed last
   is not the GPC-DMA one, or a resume that was skipped earlier has left the engine's flag up.
   */
  lemma QuietExactly(c: Config, states: seq<State>, actions: seq<Action>, k: nat, i: nat)
    requires c.Ok() && Run(c, states, actions) && k < |actions| && actions[k] == Shutdown && c.Uses(i)
    ensures StaysQuiet(c, states[k + 1]) <==> !LastProbe(actions[..k]) || states[k].suspended
  {
    InvAlong(c, states, actions, k);
    InvStep(c, states[k], Shutdown);
    FlagIsLastProbe(c, states, actions, k);
    if !LastProbe(actions[..k]) || states[k].suspended {
      SuspendedIsQuiet(c, states[k + 1]);
    } else {
      SkippedKeepsWriting(c, states[k + 1], i);
    }
  }

  /** For the first suspend the order in which the nodes were probed alone decides. */
  lemma FirstSuspend(c: Config, states: seq<State>, actions: seq<Action>, k: nat, i: nat)
    requires c.Ok() && Run(c, states, actions) && k < |actions| && actions[k] == Shutdown && c.Uses(i)
    requires Resume !in actions[..k]
    ensures StaysQuiet(c, states[k + 1]) <==> !LastProbe(actions[..k])
  {
    QuietExactly(c, states, actions, k, i);
    DownBeforeResume(c, states, actions, k);
  }
}
