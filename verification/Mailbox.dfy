/**
 The request/response mailbox of one IVC channel: any number of senders serialised by the channel
 lock, the kernel thread that reads on interrupts, and a server that answers with a filler frame
 before every message frame. One action is one access to shared state; actions interleave freely.
 */
module Mailbox {
  datatype IrqState = NoInterrupt | FirstReq | Intermediate
  datatype Kind = Filler | Message

  /** Where a sender is inside send_ivc_wait. */
  datatype SenderPc =
    | Outside        // does not hold the channel lock
    | Locked         // holds it, nothing written yet
    | Written        // request written, interrupt state not yet looked at
    | AtFiller       // saw NO_INTERRUPT, about to read the filler
    | AtProbe        // filler read, about to ask whether the message is there
    | AtMessage      // the message is there, about to read it
    | AtPark         // it is not, about to ask for an interrupt
    | Waiting        // waits for its completion
    | Leaving        // about to release the lock

  /** Where the kernel thread is; `local` is its copy of the interrupt state. */
  datatype ThreadPc =
    | Asleep
    | Loop(local: IrqState)
    | KFiller        // can read, state FIRST: about to read the filler
    | KPromote       // filler read, about to set INTERMEDIATE
    | KProbe         // can read, state INTERMEDIATE: about to ask again
    | KMessage       // about to read the message
    | KPark          // asked again and found nothing
    | KReset         // about to set NO_INTERRUPT

  datatype Holder = Free | By(who: nat)

  datatype State = State(
    irq: IrqState,
    ring: seq<Kind>,
    server: Kind,
    holder: Holder,
    senders: seq<SenderPc>,
    thread: ThreadPc)

  datatype Action =
    | Post
    | Acquire(i: nat) | Refuse(i: nat) | Write(i: nat) | Look(i: nat)
    | ReadFiller(i: nat) | FillerNoMemory(i: nat)
    | Probe(i: nat) | ReadMessage(i: nat) | MessageNoMemory(i: nat) | Park(i: nat)
    | WakeOrTimeout(i: nat) | Release(i: nat)
    | KWake | KGuard
    | KReadFiller | KFillerNoMemory | KDoPromote
    | KDoProbe | KReadMessage | KMessageNoMemory | KDoPark | KDoReset

  function Other(k: Kind): Kind { if k == Filler then Message else Filler }

  function Init(n: nat): State {
    State(FirstReq, [], Filler, Free, seq(n, _ => Outside), Asleep)
  }

  predicate At(s: State, i: nat, pc: SenderPc) { i < |s.senders| && s.senders[i] == pc }

  predicate Enabled(s: State, a: Action) {
    match a
    case Post => true
    case Acquire(i) => At(s, i, Outside) && s.holder == Free
    case Refuse(i) => At(s, i, Locked)
    case Write(i) => At(s, i, Locked)
    case Look(i) => At(s, i, Written)
    case ReadFiller(i) => At(s, i, AtFiller)
    case FillerNoMemory(i) => At(s, i, AtFiller)
    case Probe(i) => At(s, i, AtProbe)
    case ReadMessage(i) => At(s, i, AtMessage)
    case MessageNoMemory(i) => At(s, i, AtMessage)
    case Park(i) => At(s, i, AtPark)
    case WakeOrTimeout(i) => At(s, i, Waiting)
    case Release(i) => At(s, i, Leaving)
    case KWake => s.thread == Asleep
    case KGuard => s.thread.Loop?
    case KReadFiller => s.thread == KFiller
    case KFillerNoMemory => s.thread == KFiller
    case KDoPromote => s.thread == KPromote
    case KDoProbe => s.thread == KProbe
    case KReadMessage => s.thread == KMessage
    case KMessageNoMemory => s.thread == KMessage
    case KDoPark => s.thread == KPark
    case KDoReset => s.thread == KReset
  }

  function Go(s: State, i: nat, pc: SenderPc): State
    requires i < |s.senders|
  {
    s.(senders := s.senders[i := pc])
  }

  /** tegra_hv_ivc_read: the oldest frame leaves the ring; an empty ring yields nothing. */
  function Pop(s: State): State { if s.ring == [] then s else s.(ring := s.ring[1..]) }

  predicate Head(s: State, k: Kind) { s.ring != [] && s.ring[0] == k }

  function Step(s: State, a: Action): State
    requires Enabled(s, a)
  {
    match a
    case Post => s.(ring := s.ring + [s.server], server := Other(s.server))
    case Acquire(i) => Go(s, i, Locked).(holder := By(i))
    case Refuse(i) => Go(s, i, Leaving)
    case Write(i) => Go(s, i, Written)
    case Look(i) => Go(s, i, if s.irq == NoInterrupt then AtFiller else Waiting)
    case ReadFiller(i) => Pop(Go(s, i, if Head(s, Filler) then AtProbe else Leaving))
    case FillerNoMemory(i) => Go(s, i, Leaving)
    case Probe(i) => Go(s, i, if s.ring == [] then AtPark else AtMessage)
    case ReadMessage(i) => Pop(Go(s, i, Leaving))
    case MessageNoMemory(i) => Go(s, i, Leaving)
    case Park(i) => Go(s, i, Waiting).(irq := Intermediate)
    case WakeOrTimeout(i) => Go(s, i, Leaving)
    case Release(i) => Go(s, i, Outside).(holder := Free)
    case KWake => s.(thread := Loop(s.irq))
    case KGuard =>
      s.(thread := if s.ring == [] || s.thread.local == NoInterrupt then Asleep
                   else if s.thread.local == Intermediate then KProbe else KFiller)
    case KReadFiller =>
      Pop(s.(thread := if s.ring == [] then Loop(FirstReq) else if Head(s, Filler) then KPromote else Asleep))
    case KFillerNoMemory => s.(thread := Loop(FirstReq))
    case KDoPromote => s.(irq := Intermediate, thread := Loop(Intermediate))
    case KDoProbe => s.(thread := if s.ring == [] then KPark else KMessage)
    case KReadMessage => Pop(s.(thread := KReset))
    case KMessageNoMemory => s.(thread := KReset)
    case KDoPark => s.(irq := Intermediate, thread := KReset)
    case KDoReset => s.(irq := NoInterrupt, thread := Asleep)
  }

  // ---------------------------------------------------------------- safety

  /** A sender between seeing NO_INTERRUPT and being done with the ring. */
  predicate Reading(pc: SenderPc) { pc in {AtFiller, AtProbe, AtMessage, AtPark} }

  predicate ThreadReading(pc: ThreadPc) { pc in {KFiller, KProbe, KMessage} }

  /** At most one thread is reading the ring. */
  ghost predicate OneReader(s: State) {
    && (forall i, j | 0 <= i < |s.senders| && 0 <= j < |s.senders| ::
          Reading(s.senders[i]) && Reading(s.senders[j]) ==> i == j)
    && (ThreadReading(s.thread) ==> forall i | 0 <= i < |s.senders| :: !Reading(s.senders[i]))
  }

  predicate PastFiller(s: State) {
    s.holder.By? && s.holder.who < |s.senders| && s.senders[s.holder.who] in {AtProbe, AtMessage, AtPark}
  }

  /** What the interrupt state, with the point each reader has reached, says the next frame is. */
  function Expected(s: State): Kind {
    if PastFiller(s) || s.thread == KPromote then Message
    else if s.thread == KReset then Filler
    else if s.irq == Intermediate then Message
    else Filler
  }

  function Nth(k: Kind, n: nat): Kind { if n % 2 == 0 then k else Other(k) }

  /** The frames in the ring, and the next one to come, alternate from the expected kind on. */
  ghost predicate InStep(s: State) {
    && (forall n | 0 <= n < |s.ring| :: s.ring[n] == Nth(Expected(s), n))
    && s.server == Nth(Expected(s), |s.ring|)
  }

  /** Exactly the lock holder is inside. */
  ghost predicate HolderInside(s: State) {
    forall i | 0 <= i < |s.senders| :: s.senders[i] != Outside <==> s.holder == By(i)
  }

  /** A reading sender has the state at NO_INTERRUPT. */
  ghost predicate ReadersUninterrupted(s: State) {
    forall i | 0 <= i < |s.senders| :: Reading(s.senders[i]) ==> s.irq == NoInterrupt
  }

  ghost predicate MessageThere(s: State) {
    forall i | 0 <= i < |s.senders| :: s.senders[i] == AtMessage ==> s.ring != []
  }

  ghost predicate Disciplined(s: State) { HolderInside(s) && ReadersUninterrupted(s) && MessageThere(s) }

  /** The kernel thread's copy of the state is current while it acts on it, and it never finds the ring empty. */
  ghost predicate ThreadCurrent(s: State) {
    && (s.thread.Loop? ==> s.thread.local == NoInterrupt || s.thread.local == s.irq)
    && (s.thread in {KFiller, KPromote} ==> s.irq == FirstReq)
    && (s.thread in {KProbe, KMessage, KReset} ==> s.irq == Intermediate)
    && (ThreadReading(s.thread) ==> s.ring != [])
    && s.thread != KPark
  }

  ghost predicate Inv(s: State) { Disciplined(s) && ThreadCurrent(s) && InStep(s) }

  /** The driver's own "wrong sequence" branches, and a check that turned false before its read. */
  ghost predicate GoesWrong(s: State, a: Action) {
    match a
    case ReadFiller(_) => Head(s, Message)
    case ReadMessage(_) => !Head(s, Message)
    case KReadFiller => !Head(s, Filler)
    case KDoProbe => s.ring == []
    case KReadMessage => !Head(s, Message)
    case KDoPark => true
    case _ => false
  }

  /** A message read that gives up for want of memory, with the message still in the ring. */
  predicate SkipsMessage(a: Action) { a.MessageNoMemory? || a.KMessageNoMemory? }

  lemma HolderStep(s: State, a: Action)
    requires HolderInside(s) && Enabled(s, a)
    ensures HolderInside(Step(s, a))
  {
  }

  lemma ReadersStep(s: State, a: Action)
    requires Inv(s) && Enabled(s, a)
    ensures ReadersUninterrupted(Step(s, a))
  {
    hide InStep, MessageThere;
  }

  lemma MessageStep(s: State, a: Action)
    requires Inv(s) && Enabled(s, a)
    ensures MessageThere(Step(s, a))
  {
    hide InStep;
  }

  lemma DisciplinedStep(s: State, a: Action)
    requires Inv(s) && Enabled(s, a)
    ensures Disciplined(Step(s, a))
  {
    HolderStep(s, a);
    ReadersStep(s, a);
    MessageStep(s, a);
    hide Step, HolderInside, ReadersUninterrupted, MessageThere;
  }

  lemma ThreadCurrentStep(s: State, a: Action)
    requires Inv(s) && Enabled(s, a)
    ensures ThreadCurrent(Step(s, a))
  {
  }

  /** A frame read or posted shifts the alternation by one; any other action leaves it. */
  lemma InStepMoves(s: State, t: State)
    requires InStep(s)
    requires || (t.ring == s.ring && t.server == s.server && Expected(t) == Expected(s))
             || (s.ring != [] && t.ring == s.ring[1..] && t.server == s.server && Expected(t) != Expected(s))
             || (t.ring == s.ring + [s.server] && t.server == Other(s.server) && Expected(t) == Expected(s))
    ensures InStep(t)
  {
  }

  lemma ExpectedStep(s: State, a: Action)
    requires Inv(s) && Enabled(s, a) && !SkipsMessage(a)
    ensures var t := Step(s, a);
            if t.ring == s.ring || a.Post? then Expected(t) == Expected(s) else Expected(t) != Expected(s)
  {
    assert s.ring != [] ==> s.ring[0] == Nth(Expected(s), 0);
    hide InStep, MessageThere;
  }

  lemma RingStep(s: State, a: Action)
    requires Enabled(s, a)
    ensures var t := Step(s, a);
            || (t.ring == s.ring && t.server == s.server)
            || (s.ring != [] && t.ring == s.ring[1..] && t.server == s.server)
            || (a.Post? && t.ring == s.ring + [s.server] && t.server == Other(s.server))
  {
  }

  /** Every action keeps the invariant, apart from a message read that is skipped. */
  lemma InvStep(s: State, a: Action)
    requires Inv(s) && Enabled(s, a) && !SkipsMessage(a)
    ensures Inv(Step(s, a))
  {
    DisciplinedStep(s, a);
    ThreadCurrentStep(s, a);
    ExpectedStep(s, a);
    RingStep(s, a);
    InStepMoves(s, Step(s, a));
  }

  /** A skipped message read leaves the two sides out of step at once. */
  lemma SkipLosesStep(s: State, a: Action)
    requires Inv(s) && Enabled(s, a) && SkipsMessage(a)
    ensures !InStep(Step(s, a))
  {
    assert s.ring[0] == Nth(Expected(s), 0);
    assert Step(s, a).ring[0] == Message;
  }

  lemma InvMeans(s: State, a: Action)
    requires Inv(s) && Enabled(s, a)
    ensures OneReader(s) && !GoesWrong(s, a)
  {
    assert s.ring != [] ==> s.ring[0] == Nth(Expected(s), 0);
  }

  // ---------------------------------------------------------------- every run

  ghost predicate Run(n: nat, states: seq<State>, actions: seq<Action>) {
    && |states| == |actions| + 1
    && states[0] == Init(n)
    && forall k | 0 <= k < |actions| :: Enabled(states[k], actions[k]) && states[k + 1] == Step(states[k], actions[k])
  }

  lemma {:induction false} InvAlong(n: nat, states: seq<State>, actions: seq<Action>, k: nat)
    requires Run(n, states, actions) && k < |states|
    requires forall j | 0 <= j < k :: !SkipsMessage(actions[j])
    ensures Inv(states[k])
  {
    if k > 0 {
      InvAlong(n, states, actions, k - 1);
      InvStep(states[k - 1], actions[k - 1]);
    }
  }

  /**
   Over every interleaving of any number of senders, the thread, the server, timeouts and lost
   wake-ups: there is never a second reader, and no read meets an empty ring or the wrong frame,
   as long as no earlier message read was skipped.
   */
  lemma MailboxSafety(n: nat, states: seq<State>, actions: seq<Action>, k: nat)
    requires Run(n, states, actions) && k < |actions|
    requires forall j | 0 <= j < k :: !SkipsMessage(actions[j])
    ensures OneReader(states[k]) && !GoesWrong(states[k], actions[k])
  {
    InvAlong(n, states, actions, k);
    InvMeans(states[k], actions[k]);
  }

  /** The state and the reader's position name the next frame throughout a run exactly when no message read is skipped. */
  lemma InStepExactly(n: nat, states: seq<State>, actions: seq<Action>)
    requires Run(n, states, actions)
    ensures (forall k | 0 <= k < |states| :: InStep(states[k]))
       <==> (forall k | 0 <= k < |actions| :: !SkipsMessage(actions[k]))
  {
    if forall k | 0 <= k < |actions| :: !SkipsMessage(actions[k]) {
      forall k | 0 <= k < |states| ensures InStep(states[k]) {
        InvAlong(n, states, actions, k);
      }
    } else {
      var k := FirstSkip(actions);
      InvAlong(n, states, actions, k);
      SkipLosesStep(states[k], actions[k]);
      assert !InStep(states[k + 1]);
    }
  }

  lemma FirstSkip(actions: seq<Action>) returns (k: nat)
    requires exists j :: 0 <= j < |actions| && SkipsMessage(actions[j])
    ensures k < |actions| && SkipsMessage(actions[k]) && forall j | 0 <= j < k :: !SkipsMessage(actions[j])
  {
    k := 0;
    while !SkipsMessage(actions[k])
      invariant k < |actions| && forall j | 0 <= j < k :: !SkipsMessage(actions[j])
      decreases |actions| - k
    {
      k := k + 1;
    }
  }

  // ---------------------------------------------------------------- replies are read

  /** These actions, in this order, take s to t. */
  ghost predicate Leads(s: State, actions: seq<Action>, t: State)
    decreases |actions|
  {
    if actions == [] then s == t else Enabled(s, actions[0]) && Leads(Step(s, actions[0]), actions[1..], t)
  }

  lemma LeadsNow(s: State)
    ensures Leads(s, [], s)
  {
  }

  lemma LeadsBy(s: State, a: Action, rest: seq<Action>, t: State)
    requires Enabled(s, a) && Leads(Step(s, a), rest, t)
    ensures Leads(s, [a] + rest, t)
  {
    assert ([a] + rest)[1..] == rest;
  }

  lemma {:induction false} LeadsOn(s: State, a: seq<Action>, t: State, b: seq<Action>, u: State)
    requires Leads(s, a, t) && Leads(t, b, u)
    ensures Leads(s, a + b, u)
    decreases |a|
  {
    if a == [] {
      assert a + b == b;
    } else {
      LeadsOn(Step(s, a[0]), a[1..], t, b, u);
      assert (a + b)[0] == a[0] && (a + b)[1..] == a[1..] + b;
    }
  }

  /** The sender's own way through a reply it finds in the ring. */
  function OwnRead(i: nat): seq<Action> { [Look(i), ReadFiller(i)] + ([Probe(i), ReadMessage(i)] + [Release(i)]) }

  lemma Overwrite<T>(s: seq<T>, i: nat, x: T, y: T)
    requires i < |s|
    ensures s[i := x][i := y] == s[i := y]
  {
  }

  lemma Two(s: State, a: Action, b: Action, t: State)
    requires Enabled(s, a) && Enabled(Step(s, a), b) && t == Step(Step(s, a), b)
    ensures Leads(s, [a, b], t)
  {
    LeadsNow(t);
    LeadsBy(Step(s, a), b, [], t);
    LeadsBy(s, a, [b], t);
    assert [b] + [] == [b] && [a] + [b] == [a, b];
  }

  lemma One(s: State, a: Action)
    requires Enabled(s, a)
    ensures Leads(s, [a], Step(s, a))
  {
    LeadsNow(Step(s, a));
    LeadsBy(s, a, [], Step(s, a));
    assert [a] + [] == [a];
  }

  lemma LooksAndReadsFiller(s: State, i: nat)
    requires Inv(s) && s.irq == NoInterrupt && At(s, i, Written) && s.ring != []
    ensures s.ring[0] == Filler
    ensures Leads(s, [Look(i), ReadFiller(i)], Go(s, i, AtProbe).(ring := s.ring[1..]))
  {
    InvFront(s, i);
    Overwrite(s.senders, i, AtFiller, AtProbe);
    Two(s, Look(i), ReadFiller(i), Go(s, i, AtProbe).(ring := s.ring[1..]));
  }

  /** With the state at NO_INTERRUPT and a sender about to look, what comes next is a whole reply, and the thread is idle. */
  lemma InvFront(s: State, i: nat)
    requires Inv(s) && s.irq == NoInterrupt && At(s, i, Written)
    ensures s.holder == By(i) && Expected(s) == Filler
    ensures |s.ring| > 0 ==> s.ring[0] == Filler
    ensures |s.ring| > 1 ==> s.ring[1] == Message
    ensures |s.ring| == 1 ==> s.server == Message
    ensures s.thread == Asleep || s.thread == Loop(NoInterrupt)
  {
    assert |s.ring| > 0 ==> s.ring[0] == Nth(Expected(s), 0);
    assert |s.ring| > 1 ==> s.ring[1] == Nth(Expected(s), 1);
  }

  lemma ReadsMessage(s: State, i: nat)
    requires At(s, i, AtProbe) && s.ring != []
    ensures Leads(s, [Probe(i), ReadMessage(i)], Go(s, i, Leaving).(ring := s.ring[1..]))
  {
    Overwrite(s.senders, i, AtMessage, Leaving);
    Two(s, Probe(i), ReadMessage(i), Go(s, i, Leaving).(ring := s.ring[1..]));
  }

  lemma GivesBack(s: State, i: nat)
    requires At(s, i, Leaving)
    ensures Leads(s, [Release(i)], Go(s, i, Outside).(holder := Free))
  {
    One(s, Release(i));
  }

  lemma ReadsReply(s: State, i: nat)
    requires Inv(s) && s.irq == NoInterrupt && At(s, i, Written) && |s.ring| >= 2
    ensures Leads(s, OwnRead(i), Go(s, i, Outside).(ring := s.ring[2..], holder := Free))
  {
    LooksAndReadsFiller(s, i);
    hide Inv, Leads;
    var t := Go(s, i, AtProbe).(ring := s.ring[1..]);
    ReadsMessage(t, i);
    Overwrite(s.senders, i, AtProbe, Leaving);
    Overwrite(s.senders, i, Leaving, Outside);
    var u := Go(s, i, Leaving).(ring := s.ring[2..]);
    assert s.ring[1..][1..] == s.ring[2..];
    GivesBack(u, i);
    var end := Go(s, i, Outside).(ring := s.ring[2..], holder := Free);
    LeadsOn(t, [Probe(i), ReadMessage(i)], u, [Release(i)], end);
    LeadsOn(s, [Look(i), ReadFiller(i)], t, [Probe(i), ReadMessage(i)] + [Release(i)], end);
  }

  /**
   From every state a run can reach: a sender that sees NO_INTERRUPT and finds its reply in the ring
   reads exactly its two frames itself, without waiting, and frees the lock.
   */
  lemma SenderReadsReply(n: nat, states: seq<State>, actions: seq<Action>, k: nat, i: nat)
    requires Run(n, states, actions) && k < |states| && forall j | 0 <= j < k :: !SkipsMessage(actions[j])
    requires states[k].irq == NoInterrupt && At(states[k], i, Written) && |states[k].ring| >= 2
    ensures var s := states[k];
            && s.ring[..2] == [Filler, Message]
            && Leads(s, OwnRead(i), Go(s, i, Outside).(ring := s.ring[2..], holder := Free))
  {
    InvAlong(n, states, actions, k);
    InvFront(states[k], i);
    ReadsReply(states[k], i);
  }

  /** A request from beginning to end: the lock, the frame, the server's reply, and the reading of it. */
  function Exchange(i: nat): seq<Action> { [Acquire(i), Write(i)] + ([Post, Post] + OwnRead(i)) }

  /**
   From every state a run can reach with the lock free, the state at NO_INTERRUPT and nothing in the
   ring, any sender can have its request answered, and the mailbox is then exactly as it was.
   */
  lemma ExchangeReturns(n: nat, states: seq<State>, actions: seq<Action>, k: nat, i: nat)
    requires Run(n, states, actions) && k < |states| && forall j | 0 <= j < k :: !SkipsMessage(actions[j])
    requires states[k].irq == NoInterrupt && states[k].holder == Free && states[k].ring == [] && i < |states[k].senders|
    ensures Leads(states[k], Exchange(i), states[k])
  {
    var s := states[k];
    InvAlong(n, states, actions, k);
    var t := Go(s, i, Written).(holder := By(i));
    Requests(s, i);
    Replies(t);
    var u := t.(ring := [Filler, Message]);
    ReadsReply(u, i);
    assert u.ring[2..] == [];
    Overwrite(s.senders, i, Written, Outside);
    Unchanged(s.senders, i);
    hide Leads, Inv, Run;
    LeadsOn(t, [Post, Post], u, OwnRead(i), s);
    LeadsOn(s, [Acquire(i), Write(i)], t, [Post, Post] + OwnRead(i), s);
  }

  lemma Requests(s: State, i: nat)
    requires Inv(s) && s.holder == Free && i < |s.senders| && s.irq == NoInterrupt && s.ring == []
    ensures s.senders[i] == Outside && s.server == Filler
    ensures var t := Go(s, i, Written).(holder := By(i)); Inv(t) && Leads(s, [Acquire(i), Write(i)], t)
  {
    assert s.server == Nth(Expected(s), 0);
    InvStep(s, Acquire(i));
    InvStep(Step(s, Acquire(i)), Write(i));
    Overwrite(s.senders, i, Locked, Written);
    hide Inv, Leads;
    Two(s, Acquire(i), Write(i), Go(s, i, Written).(holder := By(i)));
  }

  lemma Replies(t: State)
    requires Inv(t) && t.ring == [] && t.server == Filler
    ensures var u := t.(ring := [Filler, Message]); Inv(u) && Leads(t, [Post, Post], u)
  {
    var u := t.(ring := [Filler, Message]);
    InvStep(t, Post);
    InvStep(Step(t, Post), Post);
    assert [] + [Filler] == [Filler] && [Filler] + [Message] == [Filler, Message];
    hide Inv, Leads;
    Two(t, Post, Post, u);
  }

  /** A request that is refused because the engine is suspended leaves no trace. */
  lemma RefusedReturns(s: State, i: nat)
    requires At(s, i, Outside) && s.holder == Free
    ensures Leads(s, [Acquire(i), Refuse(i)] + [Release(i)], s)
  {
    var t := Go(s, i, Leaving).(holder := By(i));
    Overwrite(s.senders, i, Locked, Leaving);
    Overwrite(s.senders, i, Leaving, Outside);
    Unchanged(s.senders, i);
    Two(s, Acquire(i), Refuse(i), t);
    GivesBack(t, i);
    hide Leads;
    LeadsOn(s, [Acquire(i), Refuse(i)], t, [Release(i)], s);
  }

  /** An exchange in which the message read gives up for want of memory. */
  function SkippedExchange(i: nat): seq<Action> {
    [Acquire(i), Write(i)] + ([Post, Post] + ([Look(i), ReadFiller(i)] + ([Probe(i), MessageNoMemory(i)] + [Release(i)])))
  }

  /** The next sender's way to its failure. */
  function MisreadExchange(j: nat): seq<Action> { [Acquire(j), Write(j)] + [Look(j), ReadFiller(j)] }

  /** It leaves the message behind, and the next sender, whoever it is, takes that for its filler and fails. */
  lemma SkipFailsNext(s: State, i: nat, j: nat)
    requires Inv(s) && s.irq == NoInterrupt && s.holder == Free && s.ring == [] && i < |s.senders| && j < |s.senders|
    ensures Leads(s, SkippedExchange(i) + MisreadExchange(j), Go(s, j, Leaving).(holder := By(j)))
    ensures GoesWrong(Go(s, j, AtFiller).(ring := [Message], holder := By(j)), ReadFiller(j))
  {
    Requests(s, i);
    var t := s.(ring := [Message]);
    LeavesMessage(s, i);
    assert s.senders[j] == Outside by { Requests(s, j); }
    Misreads(t, j);
    hide Leads, Inv;
    LeadsOn(s, SkippedExchange(i), t, MisreadExchange(j), Go(s, j, Leaving).(holder := By(j)));
  }

  lemma LeavesMessage(s: State, i: nat)
    requires Inv(s) && s.irq == NoInterrupt && s.holder == Free && s.ring == [] && i < |s.senders|
    ensures Leads(s, SkippedExchange(i), s.(ring := [Message]))
  {
    Requests(s, i);
    var t := Go(s, i, Written).(holder := By(i));
    Replies(t);
    var u := t.(ring := [Filler, Message]);
    LooksAndReadsFiller(u, i);
    hide Inv;
    assert u.ring[1..] == [Message];
    Overwrite(s.senders, i, Written, AtProbe);
    var v := Go(s, i, AtProbe).(ring := [Message], holder := By(i));
    GivesUp(v, i);
    Overwrite(s.senders, i, AtProbe, Outside);
    Unchanged(s.senders, i);
    hide Leads;
    var end := s.(ring := [Message]);
    LeadsOn(u, [Look(i), ReadFiller(i)], v, [Probe(i), MessageNoMemory(i)] + [Release(i)], end);
    LeadsOn(t, [Post, Post], u, [Look(i), ReadFiller(i)] + ([Probe(i), MessageNoMemory(i)] + [Release(i)]), end);
    LeadsOn(s, [Acquire(i), Write(i)], t,
            [Post, Post] + ([Look(i), ReadFiller(i)] + ([Probe(i), MessageNoMemory(i)] + [Release(i)])), end);
  }

  lemma GivesUp(v: State, i: nat)
    requires At(v, i, AtProbe) && v.ring != []
    ensures Leads(v, [Probe(i), MessageNoMemory(i)] + [Release(i)], Go(v, i, Outside).(holder := Free))
  {
    Overwrite(v.senders, i, AtMessage, Leaving);
    Overwrite(v.senders, i, Leaving, Outside);
    var w := Go(v, i, Leaving);
    Two(v, Probe(i), MessageNoMemory(i), w);
    GivesBack(w, i);
    hide Leads;
    LeadsOn(v, [Probe(i), MessageNoMemory(i)], w, [Release(i)], Go(v, i, Outside).(holder := Free));
  }

  lemma Misreads(t: State, j: nat)
    requires At(t, j, Outside) && t.holder == Free && t.irq == NoInterrupt && t.ring == [Message]
    ensures Leads(t, MisreadExchange(j), Go(t, j, Leaving).(ring := [], holder := By(j)))
  {
    var u := Go(t, j, Written).(holder := By(j));
    Overwrite(t.senders, j, Locked, Written);
    Two(t, Acquire(j), Write(j), u);
    Overwrite(t.senders, j, Written, AtFiller);
    Overwrite(t.senders, j, AtFiller, Leaving);
    assert t.ring[1..] == [];
    var end := Go(t, j, Leaving).(ring := [], holder := By(j));
    Two(u, Look(j), ReadFiller(j), end);
    hide Leads;
    LeadsOn(t, [Acquire(j), Write(j)], u, [Look(j), ReadFiller(j)], end);
  }

  lemma Unchanged<T>(s: seq<T>, i: nat)
    requires i < |s|
    ensures s[i := s[i]] == s
  {
  }

  /** What the thread does from its wake-up on when the next frame is a message it was asked to fetch. */
  function ThreadFetch(): seq<Action> { [KWake, KGuard] + ([KDoProbe, KReadMessage] + [KDoReset]) }

  lemma ThreadFetches(s: State)
    requires s.thread == Asleep && s.irq == Intermediate && s.ring != []
    ensures Leads(s, ThreadFetch(), s.(ring := s.ring[1..], irq := NoInterrupt))
  {
    var t := s.(thread := KProbe);
    Two(s, KWake, KGuard, t);
    ThreadTakes(t);
    hide Leads;
    LeadsOn(s, [KWake, KGuard], t, [KDoProbe, KReadMessage] + [KDoReset], s.(ring := s.ring[1..], irq := NoInterrupt));
  }

  lemma ThreadTakes(s: State)
    requires s.thread == KProbe && s.ring != []
    ensures Leads(s, [KDoProbe, KReadMessage] + [KDoReset], s.(ring := s.ring[1..], irq := NoInterrupt, thread := Asleep))
  {
    var u := s.(thread := KReset, ring := s.ring[1..]);
    Two(s, KDoProbe, KReadMessage, u);
    One(u, KDoReset);
    hide Leads;
    LeadsOn(s, [KDoProbe, KReadMessage], u, [KDoReset], s.(ring := s.ring[1..], irq := NoInterrupt, thread := Asleep));
  }

  lemma Completes(s: State, i: nat)
    requires At(s, i, Waiting)
    ensures Leads(s, [WakeOrTimeout(i), Release(i)], Go(s, i, Outside).(holder := Free))
  {
    Overwrite(s.senders, i, Leaving, Outside);
    Two(s, WakeOrTimeout(i), Release(i), Go(s, i, Outside).(holder := Free));
  }

  /** The thread's return to sleep, if it has just seen that nothing is asked of it. */
  function Settle(pc: ThreadPc): seq<Action> { if pc == Asleep then [] else [KGuard] }

  lemma Settles(s: State)
    requires s.thread == Asleep || (s.thread.Loop? && s.ring == [])
    ensures Leads(s, Settle(s.thread), s.(thread := Asleep))
  {
    if s.thread == Asleep {
      LeadsNow(s);
    } else {
      One(s, KGuard);
    }
  }

  /** What happens when the filler is there and the message is not: the sender asks for an interrupt, the thread fetches. */
  function LateRead(i: nat, pc: ThreadPc): seq<Action> {
    [Look(i), ReadFiller(i)] + ([Probe(i), Park(i)] + (Settle(pc) + ([Post] + (ThreadFetch() + [WakeOrTimeout(i), Release(i)]))))
  }

  /** If only the filler has arrived, the message that follows is fetched by the thread, and the lock is freed all the same. */
  lemma ThreadReadsLateMessage(n: nat, states: seq<State>, actions: seq<Action>, k: nat, i: nat)
    requires Run(n, states, actions) && k < |states| && forall j | 0 <= j < k :: !SkipsMessage(actions[j])
    requires states[k].irq == NoInterrupt && At(states[k], i, Written) && |states[k].ring| == 1
    ensures var s := states[k];
            && s.ring == [Filler] && s.server == Message
            && Leads(s, LateRead(i, s.thread),
                     Go(s, i, Outside).(ring := [], server := Filler, holder := Free, thread := Asleep))
  {
    var s := states[k];
    InvAlong(n, states, actions, k);
    InvFront(s, i);
    LooksAndReadsFiller(s, i);
    hide Inv, Run, Leads;
    var t := Go(s, i, AtProbe).(ring := s.ring[1..]);
    AsksForInterrupt(t, i);
    Overwrite(s.senders, i, AtProbe, Waiting);
    var u := Go(s, i, Waiting).(ring := [], irq := Intermediate);
    LateMessage(u, i);
    Overwrite(s.senders, i, Waiting, Outside);
    var end := Go(s, i, Outside).(ring := [], server := Filler, holder := Free, thread := Asleep);
    var rest := Settle(s.thread) + ([Post] + (ThreadFetch() + [WakeOrTimeout(i), Release(i)]));
    LeadsOn(t, [Probe(i), Park(i)], u, rest, end);
    LeadsOn(s, [Look(i), ReadFiller(i)], t, [Probe(i), Park(i)] + rest, end);
  }

  lemma AsksForInterrupt(s: State, i: nat)
    requires At(s, i, AtProbe) && s.ring == []
    ensures Leads(s, [Probe(i), Park(i)], Go(s, i, Waiting).(irq := Intermediate))
  {
    Overwrite(s.senders, i, AtPark, Waiting);
    Two(s, Probe(i), Park(i), Go(s, i, Waiting).(irq := Intermediate));
  }

  lemma LateMessage(s: State, i: nat)
    requires At(s, i, Waiting) && s.ring == [] && s.server == Message && s.irq == Intermediate
    requires s.thread == Asleep || s.thread == Loop(NoInterrupt)
    ensures Leads(s, Settle(s.thread) + ([Post] + (ThreadFetch() + [WakeOrTimeout(i), Release(i)])),
                  Go(s, i, Outside).(server := Filler, holder := Free, thread := Asleep, irq := NoInterrupt))
  {
    Settles(s);
    var v := s.(thread := Asleep);
    var w := v.(ring := [Message], server := Filler);
    assert [] + [Message] == [Message];
    One(v, Post);
    ThreadFetches(w);
    assert w.ring[1..] == [];
    var x := w.(ring := [], irq := NoInterrupt);
    Completes(x, i);
    hide Leads;
    var end := Go(x, i, Outside).(holder := Free);
    LeadsOn(w, ThreadFetch(), x, [WakeOrTimeout(i), Release(i)], end);
    LeadsOn(v, [Post], w, ThreadFetch() + [WakeOrTimeout(i), Release(i)], end);
    LeadsOn(s, Settle(s.thread), v, [Post] + (ThreadFetch() + [WakeOrTimeout(i), Release(i)]), end);
  }

  /** The thread reads a whole reply while the state is still FIRST. */
  function ThreadReadBoth(): seq<Action> {
    [KWake, KGuard] + ([KReadFiller, KDoPromote] + ([KGuard] + ([KDoProbe, KReadMessage] + [KDoReset])))
  }

  lemma ThreadReadsBoth(s: State)
    requires s.thread == Asleep && s.irq == FirstReq && |s.ring| >= 2 && s.ring[0] == Filler
    ensures Leads(s, ThreadReadBoth(), s.(ring := s.ring[2..], irq := NoInterrupt))
  {
    var u := s.(thread := KFiller);
    Two(s, KWake, KGuard, u);
    var v := s.(thread := Loop(Intermediate), irq := Intermediate, ring := s.ring[1..]);
    Two(u, KReadFiller, KDoPromote, v);
    var w := v.(thread := KProbe);
    One(v, KGuard);
    ThreadTakes(w);
    assert s.ring[1..][1..] == s.ring[2..];
    hide Leads;
    var end := s.(ring := s.ring[2..], irq := NoInterrupt);
    LeadsOn(v, [KGuard], w, [KDoProbe, KReadMessage] + [KDoReset], end);
    LeadsOn(u, [KReadFiller, KDoPromote], v, [KGuard] + ([KDoProbe, KReadMessage] + [KDoReset]), end);
    LeadsOn(s, [KWake, KGuard], u,
            [KReadFiller, KDoPromote] + ([KGuard] + ([KDoProbe, KReadMessage] + [KDoReset])), end);
  }

  /** The first request: the sender waits, the thread reads filler and message. */
  function FirstRead(i: nat): seq<Action> { [Look(i)] + (ThreadReadBoth() + [WakeOrTimeout(i), Release(i)]) }

  /** From every state a run can reach before the first reply: the sleeping thread reads both frames and the sender completes. */
  lemma ThreadReadsFirstReply(n: nat, states: seq<State>, actions: seq<Action>, k: nat, i: nat)
    requires Run(n, states, actions) && k < |states| && forall j | 0 <= j < k :: !SkipsMessage(actions[j])
    requires states[k].irq == FirstReq && states[k].thread == Asleep && At(states[k], i, Written) && |states[k].ring| >= 2
    ensures var s := states[k];
            && s.ring[..2] == [Filler, Message]
            && Leads(s, FirstRead(i), Go(s, i, Outside).(ring := s.ring[2..], holder := Free, irq := NoInterrupt))
  {
    var s := states[k];
    InvAlong(n, states, actions, k);
    FirstFront(s, i);
    var t := Go(s, i, Waiting);
    One(s, Look(i));
    ThreadReadsBoth(t);
    var x := t.(ring := s.ring[2..], irq := NoInterrupt);
    Completes(x, i);
    hide Inv, Run, Leads;
    Overwrite(s.senders, i, Waiting, Outside);
    var end := Go(s, i, Outside).(ring := s.ring[2..], holder := Free, irq := NoInterrupt);
    LeadsOn(t, ThreadReadBoth(), x, [WakeOrTimeout(i), Release(i)], end);
    LeadsOn(s, [Look(i)], t, ThreadReadBoth() + [WakeOrTimeout(i), Release(i)], end);
  }

  lemma FirstFront(s: State, i: nat)
    requires Inv(s) && s.irq == FirstReq && s.thread == Asleep && At(s, i, Written) && |s.ring| >= 2
    ensures s.ring[0] == Filler && s.ring[1] == Message
  {
    assert s.ring[0] == Nth(Expected(s), 0) && s.ring[1] == Nth(Expected(s), 1);
  }

  // ---------------------------------------------------------------- nothing is held for good

  predicate ActsFor(a: Action, i: nat) {
    match a
    case Refuse(j) => j == i case Write(j) => j == i case Look(j) => j == i
    case ReadFiller(j) => j == i case FillerNoMemory(j) => j == i
    case Probe(j) => j == i case ReadMessage(j) => j == i case MessageNoMemory(j) => j == i case Park(j) => j == i
    case WakeOrTimeout(j) => j == i case Release(j) => j == i
    case _ => false
  }

  /** How far a sender is from giving the lock back, at most. */
  function Distance(pc: SenderPc): nat {
    match pc
    case Outside => 0 case Leaving => 1 case Waiting => 2 case AtPark => 3 case AtMessage => 3
    case AtProbe => 4 case AtFiller => 5 case Written => 6 case Locked => 7
  }

  /** Every action a sender takes while it holds the lock brings it nearer to giving it back, failing ones included. */
  lemma SenderGetsNearer(s: State, a: Action, i: nat)
    requires i < |s.senders| && Enabled(s, a) && ActsFor(a, i)
    ensures |Step(s, a).senders| == |s.senders|
    ensures Distance(Step(s, a).senders[i]) < Distance(s.senders[i])
    ensures a.Release? ==> Step(s, a).holder == Free
  {
  }

  /** A sender inside always has an action of its own, so it gives the lock back in at most seven of them. */
  lemma {:induction false} LockComesFree(s: State, i: nat) returns (actions: seq<Action>, t: State)
    requires Inv(s) && i < |s.senders| && s.senders[i] != Outside
    ensures Leads(s, actions, t) && (forall a | a in actions :: ActsFor(a, i)) && |actions| <= Distance(s.senders[i])
    ensures |t.senders| == |s.senders| && t.senders[i] == Outside && t.holder == Free
    decreases Distance(s.senders[i])
  {
    var a := match s.senders[i]
      case Locked => Write(i) case Written => Look(i) case AtFiller => ReadFiller(i)
      case AtProbe => Probe(i) case AtMessage => ReadMessage(i) case AtPark => Park(i)
      case Waiting => WakeOrTimeout(i) case _ => Release(i);
    SenderGetsNearer(s, a, i);
    InvStep(s, a);
    var u := Step(s, a);
    var rest: seq<Action> := [];
    if u.senders[i] == Outside {
      t := u;
      LeadsNow(u);
    } else {
      rest, t := LockComesFree(u, i);
    }
    LeadsBy(s, a, rest, t);
    actions := [a] + rest;
  }

  /** How far the thread is from sleep, at most. */
  function ThreadDistance(pc: ThreadPc): nat {
    match pc
    case Asleep => 0 case Loop(local) => (match local case NoInterrupt => 1 case Intermediate => 5 case FirstReq => 8)
    case KReset => 1 case KPark => 2 case KMessage => 2 case KProbe => 3 case KPromote => 6 case KFiller => 7
  }

  /** The thread always has an action that brings it nearer to its wait, and keeps the invariant. */
  lemma {:induction false} ThreadComesBack(s: State) returns (actions: seq<Action>, t: State)
    requires Inv(s)
    ensures Leads(s, actions, t) && t.thread == Asleep && |actions| <= ThreadDistance(s.thread)
    ensures t.senders == s.senders && t.holder == s.holder
    decreases ThreadDistance(s.thread)
  {
    if s.thread == Asleep {
      LeadsNow(s);
      actions, t := [], s;
    } else {
      var a := match s.thread
        case Loop(_) => KGuard case KFiller => KReadFiller case KPromote => KDoPromote
        case KProbe => KDoProbe case KMessage => KReadMessage case _ => KDoReset;
      InvMeans(s, a);
      InvStep(s, a);
      var rest;
      rest, t := ThreadComesBack(Step(s, a));
      LeadsBy(s, a, rest, t);
      actions := [a] + rest;
    }
  }

  /** A filler the thread had no memory for is still there, and is what it looks at again. */
  lemma FillerIsRetried(s: State)
    requires Inv(s) && s.thread == KFiller
    ensures Leads(s, [KFillerNoMemory, KGuard], s)
  {
    Two(s, KFillerNoMemory, KGuard, s);
  }
}
