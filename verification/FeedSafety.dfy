/** What every step of the feed pipeline keeps, and what follows for whole runs. */
module FeedSafety {
  import opened Tally
  import opened FeedProtocol

  // ---------- shutting down ----------

  function IsGone(pc: PusherPc): nat { if pc == PGone then 1 else 0 }

  function IsLoaded(pc: PusherPc): nat { if pc.PLoaded? then 1 else 0 }

  // On the way out, or out.
  function IsExiting(pc: PusherPc): nat { if pc == PLeaving || pc.PLoaded? || pc == PGone then 1 else 0 }

  /** thread_to_join counts exactly the threads that are done, although it is written under two
      different mutexes: no increment is lost, for pushers leave only after the simulator has left,
      and one at a time. */
  ghost predicate JoinOk(s: State) {
    && s.joinCount == (if s.sim == SimGone then 1 else 0) + Total(IsGone, s.pushers) + s.joined
    && (s.sim != SimGone ==> Total(IsExiting, s.pushers) == 0 && s.joined == 0)
    && (s.sim.SimLoaded? ==> s.sim.v == s.joinCount)
    && Total(IsLoaded, s.pushers) == (if s.locked then 1 else 0)
    && (forall pc :: pc in s.pushers && pc.PLoaded? ==> pc.v == s.joinCount)
    && (s.joined > 0 ==> s.sim == SimGone && AllPushersGone(s))
  }

  /** A reader that has left: everybody who could notify readers has left before, and nothing is
      queued. */
  ghost predicate ExitOk(s: State) {
    RGone in s.readers ==> s.sim == SimGone && AllPushersGone(s) && s.updateQ == []
  }

  // ---------- where the actions are ----------

  function HeldBy(pc: PusherPc): multiset<Action> {
    match pc
    case Pushing(a, _) => multiset{a}
    case Notified(a, _) => multiset{a}
    case _ => multiset{}
  }

  ghost predicate Conserved(s: State) {
    multiset(s.log.generated) == multiset(s.pending) + multiset(s.actionQ) + Bag(HeldBy, s.pushers) + multiset(s.log.done)
  }

  // No two generated actions are the same.
  ghost predicate Numbered(s: State) {
    && (forall a :: a in s.log.generated ==> a.id <= Counter(s, a.user, a.kind))
    && (forall a :: multiset(s.log.generated)[a] <= 1)
  }

  // How many of the actions are of this user and kind.
  function CountOf(actions: seq<Action>, user: nat, kind: nat): nat {
    if actions == [] then 0
    else var last := actions[|actions| - 1];
         CountOf(actions[..|actions| - 1], user, kind) + if last.user == user && last.kind == kind then 1 else 0
  }

  // The counters say how many actions there are of each user and kind, and each action has its number.
  ghost predicate IdsCount(s: State) {
    && (forall u, k :: Counter(s, u, k) == CountOf(s.log.generated, u, k))
    && forall i :: 0 <= i < |s.log.generated| ==> HasItsNumber(s.log.generated, i)
  }

  ghost predicate HasItsNumber(actions: seq<Action>, i: nat) {
    i < |actions| && actions[i].id == CountOf(actions[..i], actions[i].user, actions[i].kind) + 1
  }

  // The batch is of the user being simulated, or of the one who was; between users there is none.
  ghost predicate OwnBatch(s: State) {
    && (s.sim.Building? ==> forall a :: a in s.pending ==> a.user == s.sim.user)
    && (s.sim == Emitting ==> forall a, b :: a in s.pending && b in s.pending ==> a.user == b.user)
    && (!s.sim.Building? && s.sim != Emitting ==> s.pending == [])
  }

  // How many actions have been popped.
  function Popped(s: State): int {
    |s.log.generated| - |s.actionQ| - |s.pending|
  }

  // What has not been popped are the last actions generated, in the order they were generated.
  ghost predicate InLine(s: State) {
    0 <= Popped(s) && s.log.generated[Popped(s)..] == s.actionQ + s.pending
  }

  ghost predicate LinedUp(s: State) {
    IdsCount(s) && OwnBatch(s) && InLine(s)
  }

  // ---------- what was delivered ----------

  // What user u gets while action a is pushed to the first k neighbours.
  function Sent(net: Net, u: nat, a: Action, k: nat): multiset<Item> {
    if k == 0 || k > Degree(net, a.user) then multiset{}
    else Sent(net, u, a, k - 1) +
         (if NeighborOf(net, a.user, k - 1).id == u then multiset{Item(NeighborOf(net, a.user, k - 1).prio, a)} else multiset{})
  }

  function SentBy(net: Net, u: nat, pc: PusherPc): multiset<Item> {
    match pc
    case Pushing(a, i) => Sent(net, u, a, i)
    case Notified(a, i) => Sent(net, u, a, i)
    case _ => multiset{}
  }

  function SentHeld(net: Net, u: nat, pcs: seq<PusherPc>): multiset<Item> {
    if pcs == [] then multiset{} else SentHeld(net, u, pcs[..|pcs| - 1]) + SentBy(net, u, pcs[|pcs| - 1])
  }

  function SentDone(net: Net, u: nat, done: seq<Action>): multiset<Item> {
    if done == [] then multiset{}
    else SentDone(net, u, done[..|done| - 1]) + Sent(net, u, done[|done| - 1], Degree(net, done[|done| - 1].user))
  }

  /** User u has got exactly what finished pushes, and running ones as far as they are, owe it. */
  ghost predicate DeliveredOk(s: State, u: nat) {
    u < |s.log.delivered| && multiset(s.log.delivered[u]) == SentDone(s.net, u, s.log.done) + SentHeld(s.net, u, s.pushers)
  }

  /** What was delivered is read or still in the feed; chronological feeds keep the order. */
  ghost predicate ReadOk(s: State, u: nat) {
    && u < |s.feeds| && u < |s.log.delivered| && u < |s.log.read| && u < |s.net.chrono|
    && (if s.net.chrono[u] then s.log.read[u] + s.feeds[u] == s.log.delivered[u]
        else multiset(s.log.read[u]) + multiset(s.feeds[u]) == multiset(s.log.delivered[u]))
  }

  ghost predicate QueueOk(s: State) {
    s.log.notified == s.log.consumed + s.updateQ
  }

  // Pushers that have announced something to user u and not put it into the feed yet.
  function Announcing(net: Net, u: nat, pc: PusherPc): nat {
    if pc.Notified? && pc.i < Degree(net, pc.action.user) && NeighborOf(net, pc.action.user, pc.i).id == u then 1 else 0
  }

  function AnnouncingAll(net: Net, u: nat, pcs: seq<PusherPc>): nat {
    if pcs == [] then 0 else AnnouncingAll(net, u, pcs[..|pcs| - 1]) + Announcing(net, u, pcs[|pcs| - 1])
  }

  /** Every delivery was announced, by a notification of its own, and before it was made. */
  ghost predicate AnnouncedOk(s: State, u: nat) {
    u < |s.log.delivered| && multiset(s.log.notified)[u] == |s.log.delivered[u]| + AnnouncingAll(s.net, u, s.pushers)
  }

  ghost predicate UserOk(s: State, u: nat) {
    DeliveredOk(s, u) && ReadOk(s, u) && AnnouncedOk(s, u)
  }

  ghost predicate Inv(s: State) {
    && WellFormed(s) && JoinOk(s) && ExitOk(s) && Conserved(s) && Numbered(s) && LinedUp(s) && QueueOk(s)
    && (forall u :: 0 <= u < |s.feeds| ==> UserOk(s, u))
  }

  lemma {:induction false} InvWellFormed(s: State)
    requires Inv(s)
    ensures WellFormed(s)
  {
  }

  // ---------- one pusher changes ----------

  lemma {:induction false} OneForAnother(all: multiset<Item>, x: multiset<Item>, y: multiset<Item>, last: multiset<Item>)
    requires x <= all
    ensures x <= all + last && all - x + y + last == all + last - x + y
  {
  }

  lemma {:induction false} SentHeldUpdate(net: Net, u: nat, pcs: seq<PusherPc>, p: nat, pc: PusherPc)
    requires p < |pcs|
    ensures SentBy(net, u, pcs[p]) <= SentHeld(net, u, pcs)
    ensures SentHeld(net, u, pcs[p := pc]) == SentHeld(net, u, pcs) - SentBy(net, u, pcs[p]) + SentBy(net, u, pc)
  {
    hide SentBy;
    var k := |pcs| - 1;
    if p < k {
      SentHeldUpdate(net, u, pcs[..k], p, pc);
      assert pcs[p := pc][..k] == pcs[..k][p := pc];
      OneForAnother(SentHeld(net, u, pcs[..k]), SentBy(net, u, pcs[p]), SentBy(net, u, pc), SentBy(net, u, pcs[k]));
    } else {
      assert pcs[p := pc][..k] == pcs[..k];
    }
  }

  lemma {:induction false} InUpdated<T>(s: seq<T>, i: nat, x: T)
    requires i < |s|
    ensures s[i] in s
    ensures forall y :: y in s[i := x] ==> y == x || y in s
  {
  }

  // The pusher that a step is about, if it is about one.
  function Pusher(s: State, e: Event): nat {
    match e
    case TakeAction(p) => p
    case WakePusher(p) => p
    case Notify(p) => p
    case Deliver(p) => p
    case Finish(p) => p
    case PusherLoad(p) => p
    case PusherStore(p) => p
    case _ => |s.pushers|
  }

  // ---------- the log of notifications ----------

  lemma {:induction false} QueueKeeps(s: State, e: Event)
    requires WellFormed(s) && Enabled(s, e) && QueueOk(s)
    ensures QueueOk(Apply(s, e))
  {
    hide WellFormed, DrainOrder;
    if s.updateQ != [] {
      assert s.updateQ == [s.updateQ[0]] + s.updateQ[1..];
    }
  }

  // ---------- conservation of actions ----------

  lemma {:induction false} TailBag<T>(s: seq<T>)
    requires s != []
    ensures multiset(s) == multiset{s[0]} + multiset(s[1..])
  {
    assert s == [s[0]] + s[1..];
  }

  lemma {:induction false} PoppedKeeps(s: State, p: nat)
    requires p < |s.pushers| && HeldBy(s.pushers[p]) == multiset{} && Conserved(s)
    ensures Conserved(PopAction(s, p))
  {
    if s.actionQ == [] {
      hide HeldBy;
      WaitsWithNothing();
      HolderKeeps(s, PopAction(s, p), p, PWait);
    } else {
      hide Bag;
      BagUpdate(HeldBy, s.pushers, p, Pushing(s.actionQ[0], 0));
      TailBag(s.actionQ);
      TakenOut(multiset(s.log.generated), multiset(s.pending), multiset(s.actionQ), multiset(s.actionQ[1..]), Bag(HeldBy, s.pushers), multiset(s.log.done), s.actionQ[0]);
    }
  }

  // What leaves the queue is in somebody's hands.
  lemma {:induction false} TakenOut(all: multiset<Action>, x: multiset<Action>, queue: multiset<Action>, tail: multiset<Action>,
                                    held: multiset<Action>, done: multiset<Action>, a: Action)
    requires all == x + queue + held + done && queue == multiset{a} + tail
    ensures all == x + tail + (held + multiset{a}) + done
  {
  }

  lemma {:induction false} WaitsWithNothing()
    ensures HeldBy(PWait) == multiset{}
  {
  }

  /** A pusher that goes on with the same action, or without one. */
  lemma {:induction false} HolderKeeps(s: State, s': State, p: nat, pc: PusherPc)
    requires p < |s.pushers| && HeldBy(pc) == HeldBy(s.pushers[p]) && Conserved(s)
    requires s'.pushers == s.pushers[p := pc] && s'.pending == s.pending && s'.actionQ == s.actionQ
    requires s'.log.generated == s.log.generated && s'.log.done == s.log.done
    ensures Conserved(s')
  {
    hide Bag, HeldBy;
    BagUpdate(HeldBy, s.pushers, p, pc);
  }

  lemma {:induction false} NotifyConserves(s: State, p: nat)
    requires Serving(s, p) && Conserved(s)
    ensures Conserved(NotifiedBy(s, p))
  {
    hide Conserved;
    HolderKeeps(s, NotifiedBy(s, p), p, Notified(s.pushers[p].action, s.pushers[p].i));
  }

  lemma {:induction false} DeliverConserves(s: State, p: nat)
    requires Serving(s, p) && Conserved(s)
    ensures Conserved(DeliveredBy(s, p))
  {
    hide Conserved;
    HolderKeeps(s, DeliveredBy(s, p), p, Pushing(s.pushers[p].action, s.pushers[p].i + 1));
  }

  // On its way out a pusher holds nothing.
  lemma {:induction false} LeaveConserves(s: State, p: nat)
    requires p < |s.pushers| && HeldBy(s.pushers[p]) == multiset{} && Conserved(s)
    ensures Conserved(PusherTo(s, p, PLeaving)) && Conserved(LoadedBy(s, p))
    ensures s.pushers[p].PLoaded? ==> Conserved(StoredBy(s, p))
  {
    hide Conserved;
    HolderKeeps(s, PusherTo(s, p, PLeaving), p, PLeaving);
    HolderKeeps(s, LoadedBy(s, p), p, PLoaded(s.joinCount));
    if s.pushers[p].PLoaded? {
      HolderKeeps(s, StoredBy(s, p), p, PGone);
    }
  }

  // a moves from one of the four places to another.
  lemma {:induction false} Moved(all: multiset<Action>, x: multiset<Action>, y: multiset<Action>, held: multiset<Action>, done: multiset<Action>, a: Action)
    requires all == x + y + held + done && a in held
    ensures all == x + y + (held - multiset{a}) + (done + multiset{a})
  {
  }

  lemma {:induction false} FinishConserves(s: State, p: nat)
    requires p < |s.pushers| && s.pushers[p].Pushing? && Conserved(s)
    ensures Conserved(FinishedBy(s, p))
  {
    var a := s.pushers[p].action;
    var held := Bag(HeldBy, s.pushers);
    hide Bag;
    BagUpdate(HeldBy, s.pushers, p, PTop);
    assert Bag(HeldBy, s.pushers[p := PTop]) == held - multiset{a};
    assert multiset(s.log.done + [a]) == multiset(s.log.done) + multiset{a};
    hide HeldBy;
    Moved(multiset(s.log.generated), multiset(s.pending), multiset(s.actionQ), held, multiset(s.log.done), a);
  }

  lemma {:induction false} GenerateConserves(s: State, kind: nat, time: int)
    requires s.sim.Building? && Conserved(s)
    ensures Conserved(Generated(s, kind, time))
  {
    hide Bag, HeldBy, Counter;
  }

  lemma {:induction false} EmitConserves(s: State)
    requires Conserved(s)
    ensures Conserved(Emitted(s))
  {
    hide Bag, HeldBy;
    if s.pending != [] { TailBag(s.pending); }
  }

  // Nothing that concerns actions.
  lemma {:induction false} OthersConserve(s: State, s': State)
    requires Conserved(s) && s'.pushers == s.pushers && s'.pending == s.pending && s'.actionQ == s.actionQ
    requires s'.log.generated == s.log.generated && s'.log.done == s.log.done
    ensures Conserved(s')
  {
  }

  /** Steps of readers and of main leave all the actions where they are, and users' deliveries too. */
  lemma {:induction false} ReadersLeaveAlone(s: State, e: Event)
    requires WellFormed(s) && Enabled(s, e) && (e.TakeUpdate? || e.WakeReader? || e.Drain? || e.JoinReader?)
    ensures var s' := Apply(s, e);
            && s'.net == s.net && s'.pushers == s.pushers && s'.pending == s.pending && s'.actionQ == s.actionQ
            && s'.log.generated == s.log.generated && s'.log.done == s.log.done
            && s'.log.delivered == s.log.delivered && s'.log.notified == s.log.notified
  {
    hide WellFormed, DrainOrder;
  }

  lemma {:induction false} ConservedKeeps(s: State, e: Event)
    requires WellFormed(s) && Enabled(s, e) && Conserved(s)
    ensures Conserved(Apply(s, e))
  {
    hide WellFormed, DrainOrder, Conserved, Bag, Generated, Emitted, PopAction, NotifiedBy, DeliveredBy, FinishedBy, LoadedBy, StoredBy, PopUpdate, DrainedBy, PusherTo, ReaderTo, Serving;
    match e
    case TakeAction(p) => PoppedKeeps(s, p);
    case WakePusher(p) => if s.joinCount >= 1 { LeaveConserves(s, p); } else { PoppedKeeps(s, p); }
    case Notify(p) => IsServing(s, p); NotifyConserves(s, p);
    case Deliver(p) => IsServing(s, p); DeliverConserves(s, p);
    case PusherLoad(p) => LeaveConserves(s, p);
    case PusherStore(p) => LeaveConserves(s, p);
    case Finish(p) => FinishConserves(s, p);
    case Generate(kind, time) => GenerateConserves(s, kind, time);
    case Emit => EmitConserves(s);
    case ChooseUser(_) => OthersConserve(s, Apply(s, e));
    case StopBuilding => OthersConserve(s, Apply(s, e));
    case SimLoad => OthersConserve(s, Apply(s, e));
    case SimStore => OthersConserve(s, Apply(s, e));
    case _ => ReadersLeaveAlone(s, e); OthersConserve(s, Apply(s, e));
  }

  lemma {:induction false} GenerateNumbers(s: State, kind: nat, time: int)
    requires s.sim.Building? && Numbered(s)
    ensures Numbered(Generated(s, kind, time))
  {
    var s' := Generated(s, kind, time);
    var u := s.sim.user;
    var a := Action(u, kind, Counter(s, u, kind) + 1, time);
    assert a !in s.log.generated;
    assert multiset(s'.log.generated) == multiset(s.log.generated) + multiset{a};
  }

  // Only the simulator, when it generates an action, touches what the numbering is about.
  lemma {:induction false} OthersNumber(s: State, s': State)
    requires Numbered(s) && s'.counters == s.counters && s'.log.generated == s.log.generated
    ensures Numbered(s')
  {
  }

  lemma {:induction false} SimulatorNumbers(s: State, e: Event)
    requires WellFormed(s) && Enabled(s, e) && (e.ChooseUser? || e.StopBuilding? || e.Emit? || e.SimLoad? || e.SimStore?)
    ensures Apply(s, e).counters == s.counters && Apply(s, e).log.generated == s.log.generated
  {
    hide WellFormed, DrainOrder;
  }

  lemma {:induction false} PushersNumber(s: State, e: Event)
    requires WellFormed(s) && Enabled(s, e) && Pusher(s, e) < |s.pushers|
    ensures Apply(s, e).counters == s.counters && Apply(s, e).log.generated == s.log.generated
  {
    hide WellFormed, DrainOrder, Serving;
  }

  lemma {:induction false} ReadersNumber(s: State, e: Event)
    requires WellFormed(s) && Enabled(s, e) && (e.TakeUpdate? || e.WakeReader? || e.Drain? || e.JoinReader?)
    ensures Apply(s, e).counters == s.counters && Apply(s, e).log.generated == s.log.generated
  {
    hide WellFormed, DrainOrder;
  }

  lemma {:induction false} NumberedKeeps(s: State, e: Event)
    requires WellFormed(s) && Enabled(s, e) && Numbered(s)
    ensures Numbered(Apply(s, e))
  {
    hide WellFormed, DrainOrder, Numbered, Generated, Emitted, PopAction, NotifiedBy, DeliveredBy, FinishedBy, LoadedBy, StoredBy, PopUpdate, DrainedBy, PusherTo, ReaderTo, Serving;
    if e.Generate? {
      GenerateNumbers(s, e.kind, e.time);
    } else {
      if e.ChooseUser? || e.StopBuilding? || e.Emit? || e.SimLoad? || e.SimStore? {
        SimulatorNumbers(s, e);
      } else if e.TakeUpdate? || e.WakeReader? || e.Drain? || e.JoinReader? {
        ReadersNumber(s, e);
      } else {
        PushersNumber(s, e);
      }
      OthersNumber(s, Apply(s, e));
    }
  }

  // ---------- deliveries ----------

  // ---------- the order of actions ----------

  lemma {:induction false} CountMore(actions: seq<Action>, a: Action, user: nat, kind: nat)
    ensures CountOf(actions + [a], user, kind) == CountOf(actions, user, kind) + if a.user == user && a.kind == kind then 1 else 0
  {
    assert (actions + [a])[..|actions|] == actions;
  }

  lemma {:induction false} GenerateCounts(s: State, kind: nat, time: int)
    requires s.sim.Building? && IdsCount(s)
    ensures IdsCount(Generated(s, kind, time))
  {
    var s' := Generated(s, kind, time);
    var before, user := s.log.generated, s.sim.user;
    var a := Action(user, kind, Counter(s, user, kind) + 1, time);
    forall u, k ensures Counter(s', u, k) == CountOf(s'.log.generated, u, k) {
      CountMore(before, a, u, k);
    }
    hide Counter;
    forall i | 0 <= i < |s'.log.generated| ensures HasItsNumber(s'.log.generated, i) {
      assert s'.log.generated[..i] == before[..i];
      if i < |before| {
        assert HasItsNumber(before, i);
      } else {
        assert before[..i] == before;
      }
    }
  }

  lemma {:induction false} GenerateLinesUp(s: State, kind: nat, time: int)
    requires s.sim.Building? && LinedUp(s)
    ensures LinedUp(Generated(s, kind, time))
  {
    GenerateCounts(s, kind, time);
    hide IdsCount, Counter;
    var s' := Generated(s, kind, time);
    var a := s'.pending[|s.pending|];
    assert s'.log.generated[Popped(s')..] == s.log.generated[Popped(s)..] + [a];
  }

  lemma {:induction false} EmitLinesUp(s: State)
    requires s.sim == Emitting && LinedUp(s)
    ensures LinedUp(Emitted(s))
  {
    SameCounts(s, Emitted(s));
    hide IdsCount;
    if s.pending != [] {
      assert s.pending == [s.pending[0]] + s.pending[1..];
      assert forall a :: a in s.pending[1..] ==> a in s.pending;
      assert s.actionQ + [s.pending[0]] + s.pending[1..] == s.actionQ + s.pending;
    }
  }

  lemma {:induction false} SameCounts(s: State, s': State)
    requires IdsCount(s) && s'.counters == s.counters && s'.log.generated == s.log.generated
    ensures IdsCount(s')
  {
    hide HasItsNumber, CountOf;
    assert forall u, k :: Counter(s', u, k) == Counter(s, u, k);
  }

  lemma {:induction false} PopLinesUp(s: State, p: nat)
    requires p < |s.pushers| && LinedUp(s)
    ensures LinedUp(PopAction(s, p))
    ensures s.actionQ != [] ==> 0 <= Popped(s) < |s.log.generated| && s.actionQ[0] == s.log.generated[Popped(s)]
  {
    SameCounts(s, PopAction(s, p));
    hide IdsCount;
    if s.actionQ != [] {
      var rest := s.log.generated[Popped(s)..];
      assert rest[0] == s.actionQ[0] && rest[1..] == s.actionQ[1..] + s.pending;
      assert rest[1..] == s.log.generated[Popped(s) + 1..];
    }
  }

  // The simulator goes on, or somebody else.
  lemma {:induction false} OthersLineUp(s: State, s': State)
    requires LinedUp(s) && s'.counters == s.counters && s'.log.generated == s.log.generated
    requires s'.actionQ == s.actionQ && s'.pending == s.pending
    requires s'.sim == s.sim || (s.pending == [] && s.sim != Emitting && !s.sim.Building?) || (s.sim.Building? && s'.sim == Emitting)
    ensures LinedUp(s')
  {
    SameCounts(s, s');
    hide IdsCount;
  }

  lemma {:induction false} PushersLeaveLine(s: State, e: Event)
    requires WellFormed(s) && Enabled(s, e) && (e.Notify? || e.Deliver? || e.Finish? || e.PusherLoad? || e.PusherStore?)
    ensures var s' := Apply(s, e); s'.sim == s.sim && s'.actionQ == s.actionQ && s'.pending == s.pending
  {
    hide WellFormed, DrainOrder, Serving;
  }

  lemma {:induction false} ReadersLeaveLine(s: State, e: Event)
    requires WellFormed(s) && Enabled(s, e) && (e.TakeUpdate? || e.WakeReader? || e.Drain? || e.JoinReader?)
    ensures Apply(s, e).sim == s.sim
  {
    hide WellFormed, DrainOrder;
  }

  lemma {:induction false} BetweenUsers(s: State)
    requires LinedUp(s) && !s.sim.Building? && s.sim != Emitting
    ensures s.pending == []
  {
    hide IdsCount, InLine;
  }

  /** Actions stay in the order of their generation, each batch with its user. */
  lemma {:induction false} LineKeeps(s: State, e: Event)
    requires WellFormed(s) && Enabled(s, e) && LinedUp(s)
    ensures LinedUp(Apply(s, e))
  {
    hide WellFormed, DrainOrder, LinedUp, Generated, Emitted, PopAction, NotifiedBy, DeliveredBy, FinishedBy, LoadedBy, StoredBy, PopUpdate, DrainedBy, ReaderTo, Serving;
    match e
    case Generate(kind, time) => GenerateLinesUp(s, kind, time);
    case Emit => EmitLinesUp(s);
    case TakeAction(p) => PopLinesUp(s, p);
    case WakePusher(p) => if s.joinCount >= 1 { OthersLineUp(s, PusherTo(s, p, PLeaving)); } else { PopLinesUp(s, p); }
    case ChooseUser(_) => BetweenUsers(s); OthersLineUp(s, Apply(s, e));
    case SimLoad => BetweenUsers(s); OthersLineUp(s, Apply(s, e));
    case SimStore => BetweenUsers(s); OthersLineUp(s, Apply(s, e));
    case StopBuilding => OthersLineUp(s, Apply(s, e));
    case TakeUpdate(_) => ReadersLeaveAlone(s, e); ReadersNumber(s, e); ReadersLeaveLine(s, e); OthersLineUp(s, Apply(s, e));
    case WakeReader(_) => ReadersLeaveAlone(s, e); ReadersNumber(s, e); ReadersLeaveLine(s, e); OthersLineUp(s, Apply(s, e));
    case Drain(_, _) => ReadersLeaveAlone(s, e); ReadersNumber(s, e); ReadersLeaveLine(s, e); OthersLineUp(s, Apply(s, e));
    case JoinReader => ReadersLeaveAlone(s, e); ReadersNumber(s, e); ReadersLeaveLine(s, e); OthersLineUp(s, Apply(s, e));
    case _ => PushersNumber(s, e); PushersLeaveLine(s, e); OthersLineUp(s, Apply(s, e));
  }

  lemma {:induction false} SentDoneMore(net: Net, u: nat, done: seq<Action>, a: Action)
    ensures SentDone(net, u, done + [a]) == SentDone(net, u, done) + Sent(net, u, a, Degree(net, a.user))
  {
    assert (done + [a])[..|done|] == done;
  }

  /** A pusher that owes user u as much as before. */
  lemma {:induction false} OwesTheSame(s: State, s': State, u: nat, p: nat, pc: PusherPc)
    requires p < |s.pushers| && SentBy(s.net, u, pc) == SentBy(s.net, u, s.pushers[p]) && DeliveredOk(s, u)
    requires s'.pushers == s.pushers[p := pc] && s'.net == s.net && s'.log.delivered == s.log.delivered && s'.log.done == s.log.done
    ensures DeliveredOk(s', u)
  {
    hide SentBy, SentDone, SentHeld;
    SentHeldUpdate(s.net, u, s.pushers, p, pc);
  }

  lemma {:induction false} PopOwes(s: State, u: nat, p: nat)
    requires p < |s.pushers| && SentBy(s.net, u, s.pushers[p]) == multiset{} && DeliveredOk(s, u)
    ensures DeliveredOk(PopAction(s, p), u) && DeliveredOk(PusherTo(s, p, PLeaving), u) && DeliveredOk(LoadedBy(s, p), u)
    ensures s.pushers[p].PLoaded? ==> DeliveredOk(StoredBy(s, p), u)
  {
    hide DeliveredOk;
    OwesTheSame(s, PopAction(s, p), u, p, PopAction(s, p).pushers[p]);
    OwesTheSame(s, PusherTo(s, p, PLeaving), u, p, PLeaving);
    OwesTheSame(s, LoadedBy(s, p), u, p, PLoaded(s.joinCount));
    if s.pushers[p].PLoaded? {
      OwesTheSame(s, StoredBy(s, p), u, p, PGone);
    }
  }

  lemma {:induction false} NotifyOwes(s: State, u: nat, p: nat)
    requires Serving(s, p) && DeliveredOk(s, u)
    ensures DeliveredOk(NotifiedBy(s, p), u)
  {
    hide DeliveredOk, Sent;
    OwesTheSame(s, NotifiedBy(s, p), u, p, Notified(s.pushers[p].action, s.pushers[p].i));
  }

  lemma {:induction false} Paid(all: multiset<Item>, done: multiset<Item>, held: multiset<Item>, sent: multiset<Item>, more: multiset<Item>)
    requires all == done + held && sent <= held
    ensures all + more == done + (held - sent + (sent + more))
  {
  }

  // What user u gets from serving neighbour number i.
  function Next(net: Net, u: nat, a: Action, i: nat): multiset<Item>
    requires i < Degree(net, a.user)
  {
    var to := NeighborOf(net, a.user, i);
    if to.id == u then multiset{Item(to.prio, a)} else multiset{}
  }

  lemma {:induction false} HeldAfterServing(s: State, p: nat, u: nat)
    requires Serving(s, p)
    ensures var pc, pcs := s.pushers[p], s.pushers;
            && Sent(s.net, u, pc.action, pc.i) <= SentHeld(s.net, u, pcs)
            && SentHeld(s.net, u, pcs[p := Pushing(pc.action, pc.i + 1)])
               == SentHeld(s.net, u, pcs) - Sent(s.net, u, pc.action, pc.i) + (Sent(s.net, u, pc.action, pc.i) + Next(s.net, u, pc.action, pc.i))
  {
    hide SentHeld;
    var pc := s.pushers[p];
    SentHeldUpdate(s.net, u, s.pushers, p, Pushing(pc.action, pc.i + 1));
  }

  lemma {:induction false} DeliveryGrows(s: State, p: nat, u: nat)
    requires Serving(s, p) && u < |s.feeds|
    ensures var pc := s.pushers[p];
            multiset(DeliveredBy(s, p).log.delivered[u]) == multiset(s.log.delivered[u]) + Next(s.net, u, pc.action, pc.i)
  {
  }

  lemma {:induction false} DeliverPays(s: State, p: nat, u: nat)
    requires Serving(s, p) && u < |s.feeds| && DeliveredOk(s, u)
    ensures DeliveredOk(DeliveredBy(s, p), u)
  {
    hide SentDone, SentHeld, Sent, Next;
    var pc := s.pushers[p];
    HeldAfterServing(s, p, u);
    DeliveryGrows(s, p, u);
    Paid(multiset(s.log.delivered[u]), SentDone(s.net, u, s.log.done), SentHeld(s.net, u, s.pushers),
         Sent(s.net, u, pc.action, pc.i), Next(s.net, u, pc.action, pc.i));
  }

  lemma {:induction false} FinishMovesDebt(s: State, p: nat, u: nat)
    requires p < |s.pushers| && s.pushers[p].Pushing? && s.pushers[p].i == Degree(s.net, s.pushers[p].action.user) && DeliveredOk(s, u)
    ensures DeliveredOk(FinishedBy(s, p), u)
  {
    hide SentDone, SentHeld, Sent;
    SentHeldUpdate(s.net, u, s.pushers, p, PTop);
    SentDoneMore(s.net, u, s.log.done, s.pushers[p].action);
  }

  lemma {:induction false} OthersDeliver(s: State, s': State, u: nat)
    requires DeliveredOk(s, u) && s'.net == s.net && s'.pushers == s.pushers && s'.log.done == s.log.done && s'.log.delivered == s.log.delivered
    ensures DeliveredOk(s', u)
  {
  }

  lemma {:induction false} SimulatorLeavesAlone(s: State, e: Event)
    requires WellFormed(s) && Enabled(s, e) && (e.ChooseUser? || e.Generate? || e.StopBuilding? || e.Emit? || e.SimLoad? || e.SimStore?)
    ensures var s' := Apply(s, e);
            && s'.net == s.net && s'.pushers == s.pushers && s'.updateQ == s.updateQ && s'.feeds == s.feeds && s'.readers == s.readers
            && s'.log.done == s.log.done && s'.log.delivered == s.log.delivered && s'.log.read == s.log.read
            && s'.log.notified == s.log.notified && s'.log.consumed == s.log.consumed
  {
    hide WellFormed, DrainOrder, Counter;
  }

  lemma {:induction false} IsFinished(s: State, p: nat)
    requires WellFormed(s) && Enabled(s, Finish(p))
    ensures s.pushers[p].i == Degree(s.net, s.pushers[p].action.user)
  {
  }

  lemma {:induction false} DeliveredKeeps(s: State, e: Event, u: nat)
    requires WellFormed(s) && Enabled(s, e) && u < |s.feeds| && DeliveredOk(s, u)
    ensures DeliveredOk(Apply(s, e), u)
  {
    hide WellFormed, DrainOrder, DeliveredOk, Sent, Generated, Emitted, PopAction, NotifiedBy, DeliveredBy, FinishedBy, LoadedBy, StoredBy, PopUpdate, DrainedBy, PusherTo, ReaderTo, Serving;
    match e
    case TakeAction(p) => PopOwes(s, u, p);
    case WakePusher(p) => PopOwes(s, u, p);
    case PusherLoad(p) => PopOwes(s, u, p);
    case PusherStore(p) => PopOwes(s, u, p);
    case Notify(p) => IsServing(s, p); NotifyOwes(s, u, p);
    case Deliver(p) => IsServing(s, p); DeliverPays(s, p, u);
    case Finish(p) => IsFinished(s, p); FinishMovesDebt(s, p, u);
    case TakeUpdate(_) => ReadersLeaveAlone(s, e); OthersDeliver(s, Apply(s, e), u);
    case WakeReader(_) => ReadersLeaveAlone(s, e); OthersDeliver(s, Apply(s, e), u);
    case Drain(_, _) => ReadersLeaveAlone(s, e); OthersDeliver(s, Apply(s, e), u);
    case JoinReader => ReadersLeaveAlone(s, e); OthersDeliver(s, Apply(s, e), u);
    case _ => SimulatorLeavesAlone(s, e); OthersDeliver(s, Apply(s, e), u);
  }

  // A feed grows at its end, or is read as a whole.
  lemma {:induction false} DeliverReads(s: State, p: nat, u: nat)
    requires Serving(s, p) && ReadOk(s, u)
    ensures ReadOk(DeliveredBy(s, p), u)
  {
    var to := Target(s, p);
    if to.id == u {
      var item := Item(to.prio, s.pushers[p].action);
      assert s.log.read[u] + (s.feeds[u] + [item]) == s.log.read[u] + s.feeds[u] + [item];
    }
  }

  lemma {:induction false} DrainReads(s: State, r: nat, out: seq<Item>, u: nat)
    requires WellFormed(s) && Enabled(s, Drain(r, out)) && ReadOk(s, u)
    ensures ReadOk(DrainedBy(s, r, out), u)
  {
    if s.readers[r].user == u {
      assert s.log.read[u] + out + [] == s.log.read[u] + out;
    }
  }

  lemma {:induction false} OthersRead(s: State, s': State, u: nat)
    requires ReadOk(s, u) && s'.net == s.net && s'.feeds == s.feeds && s'.log.delivered == s.log.delivered && s'.log.read == s.log.read
    ensures ReadOk(s', u)
  {
  }

  lemma {:induction false} OnlyDeliverAndDrain(s: State, e: Event)
    requires WellFormed(s) && Enabled(s, e) && !e.Deliver? && !e.Drain?
    ensures var s' := Apply(s, e);
            s'.net == s.net && s'.feeds == s.feeds && s'.log.delivered == s.log.delivered && s'.log.read == s.log.read
  {
    hide WellFormed, DrainOrder, Counter;
  }

  lemma {:induction false} ReadKeeps(s: State, e: Event, u: nat)
    requires WellFormed(s) && Enabled(s, e) && u < |s.feeds| && ReadOk(s, u)
    ensures ReadOk(Apply(s, e), u)
  {
    hide WellFormed, DrainOrder, ReadOk, Generated, Emitted, PopAction, NotifiedBy, DeliveredBy, FinishedBy, LoadedBy, StoredBy, PopUpdate, DrainedBy, PusherTo, ReaderTo, Serving;
    match e
    case Deliver(p) => IsServing(s, p); DeliverReads(s, p, u);
    case Drain(r, out) => DrainReads(s, r, out, u);
    case _ => OnlyDeliverAndDrain(s, e); OthersRead(s, Apply(s, e), u);
  }

  // ---------- shutting down ----------

  lemma {:induction false} GoneAre(s: State)
    ensures AllPushersGone(s) <==> Total(IsGone, s.pushers) == |s.pushers|
    ensures Total(IsGone, s.pushers) <= |s.pushers|
  {
    TotalAtMost(IsGone, s.pushers, 1);
    if AllPushersGone(s) {
      AllOnes(s.pushers);
    }
  }

  lemma {:induction false} AllOnes(pcs: seq<PusherPc>)
    requires forall p :: 0 <= p < |pcs| ==> pcs[p] == PGone
    ensures Total(IsGone, pcs) == |pcs|
  {
    if pcs != [] {
      AllOnes(pcs[..|pcs| - 1]);
    }
  }

  // As long as the simulator is there, no pusher is on its way out.
  lemma {:induction false} ExitingMeansSimGone(s: State, p: nat)
    requires JoinOk(s) && p < |s.pushers| && IsExiting(s.pushers[p]) == 1
    ensures s.sim == SimGone
  {
    hide Total;
    TotalUpdate(IsExiting, s.pushers, p, PTop);
  }

  lemma {:induction false} NotGoneMeansNoneJoined(s: State, p: nat)
    requires JoinOk(s) && p < |s.pushers| && s.pushers[p] != PGone
    ensures s.joined == 0 && !AllPushersGone(s)
  {
  }

  // A pusher changes its place without going out or counting.
  lemma {:induction false} JoinSame(s: State, s': State, p: nat, pc: PusherPc)
    requires JoinOk(s) && p < |s.pushers| && s.pushers[p] != PGone && !pc.PLoaded? && pc != PGone
    requires IsLoaded(s.pushers[p]) == 0 && (IsExiting(pc) == IsExiting(s.pushers[p]) || s.sim == SimGone)
    requires s'.pushers == s.pushers[p := pc] && s'.sim == s.sim && s'.joinCount == s.joinCount && s'.joined == s.joined && s'.locked == s.locked
    ensures JoinOk(s')
  {
    hide Total;
    NotGoneMeansNoneJoined(s, p);
    TotalUpdate(IsGone, s.pushers, p, pc);
    TotalUpdate(IsLoaded, s.pushers, p, pc);
    TotalUpdate(IsExiting, s.pushers, p, pc);
    InUpdated(s.pushers, p, pc);
  }

  lemma {:induction false} JoinWakePusher(s: State, p: nat)
    requires WellFormed(s) && Enabled(s, WakePusher(p)) && JoinOk(s)
    ensures JoinOk(Apply(s, WakePusher(p)))
  {
    hide WellFormed, Total;
    var s' := Apply(s, WakePusher(p));
    TotalUpdate(IsGone, s.pushers, p, PTop);
    TotalUpdate(IsExiting, s.pushers, p, PTop);
    if s.sim != SimGone {
      GoneIsExiting(s.pushers);
    }
    JoinSame(s, s', p, s'.pushers[p]);
  }

  lemma {:induction false} GoneIsExiting(pcs: seq<PusherPc>)
    ensures Total(IsGone, pcs) <= Total(IsExiting, pcs)
  {
    if pcs != [] {
      GoneIsExiting(pcs[..|pcs| - 1]);
    }
  }

  lemma {:induction false} JoinLoad(s: State, p: nat)
    requires WellFormed(s) && Enabled(s, PusherLoad(p)) && JoinOk(s)
    ensures JoinOk(Apply(s, PusherLoad(p)))
  {
    hide WellFormed, Total;
    ExitingMeansSimGone(s, p);
    NotGoneMeansNoneJoined(s, p);
    var pc := PLoaded(s.joinCount);
    TotalUpdate(IsGone, s.pushers, p, pc);
    TotalUpdate(IsLoaded, s.pushers, p, pc);
    InUpdated(s.pushers, p, pc);
  }

  // The one pusher in the middle of its increment is the holder of the lock.
  lemma {:induction false} OneLoaded(pcs: seq<PusherPc>, p: nat)
    requires p < |pcs| && pcs[p].PLoaded? && Total(IsLoaded, pcs) == 1
    ensures forall pc :: pc in pcs[p := PGone] ==> !pc.PLoaded?
  {
    hide Total;
    var rest := pcs[p := PGone];
    TotalUpdate(IsLoaded, pcs, p, PGone);
    TotalZero(IsLoaded, rest);
    forall pc | pc in rest ensures !pc.PLoaded? {
      var i :| 0 <= i < |rest| && rest[i] == pc;
      assert IsLoaded(rest[i]) == 0;
    }
  }

  lemma {:induction false} JoinStore(s: State, p: nat)
    requires WellFormed(s) && Enabled(s, PusherStore(p)) && JoinOk(s)
    ensures JoinOk(Apply(s, PusherStore(p)))
  {
    hide WellFormed, Total;
    ExitingMeansSimGone(s, p);
    NotGoneMeansNoneJoined(s, p);
    assert s.pushers[p] in s.pushers;
    TotalUpdate(IsGone, s.pushers, p, PGone);
    TotalUpdate(IsLoaded, s.pushers, p, PGone);
    OneLoaded(s.pushers, p);
  }

  lemma {:induction false} JoinPop(s: State, p: nat)
    requires JoinOk(s) && p < |s.pushers| && s.pushers[p] == PTop
    ensures JoinOk(PopAction(s, p))
  {
    hide JoinOk;
    JoinSame(s, PopAction(s, p), p, PopAction(s, p).pushers[p]);
  }

  lemma {:induction false} JoinServe(s: State, p: nat)
    requires JoinOk(s) && Serving(s, p)
    ensures JoinOk(NotifiedBy(s, p)) && JoinOk(DeliveredBy(s, p))
  {
    hide JoinOk;
    JoinSame(s, NotifiedBy(s, p), p, Notified(s.pushers[p].action, s.pushers[p].i));
    JoinSame(s, DeliveredBy(s, p), p, Pushing(s.pushers[p].action, s.pushers[p].i + 1));
  }

  lemma {:induction false} JoinFinish(s: State, p: nat)
    requires JoinOk(s) && p < |s.pushers| && s.pushers[p].Pushing?
    ensures JoinOk(FinishedBy(s, p))
  {
    hide JoinOk;
    JoinSame(s, FinishedBy(s, p), p, PTop);
  }

  // Steps that touch neither the counter nor the pushers, nor let the simulator leave.
  lemma {:induction false} OthersJoin(s: State, s': State)
    requires JoinOk(s) && s'.pushers == s.pushers && s'.joinCount == s.joinCount && s'.joined == s.joined && s'.locked == s.locked
    requires s.sim == s'.sim || (!s.sim.SimLoaded? && s.sim != SimGone && s'.sim != SimGone && (s'.sim.SimLoaded? ==> s'.sim.v == s.joinCount))
    ensures JoinOk(s')
  {
    hide Total;
  }

  lemma {:induction false} SimulatorJoins(s: State, e: Event)
    requires WellFormed(s) && Enabled(s, e) && JoinOk(s) && (e.ChooseUser? || e.Generate? || e.StopBuilding? || e.Emit? || e.SimLoad?)
    ensures JoinOk(Apply(s, e))
  {
    hide WellFormed, JoinOk, Counter, DrainOrder;
    OthersJoin(s, Apply(s, e));
  }

  lemma {:induction false} ReadersJoin(s: State, e: Event)
    requires WellFormed(s) && Enabled(s, e) && JoinOk(s) && (e.TakeUpdate? || e.WakeReader? || e.Drain?)
    ensures JoinOk(Apply(s, e))
  {
    hide WellFormed, JoinOk, DrainOrder;
    OthersJoin(s, Apply(s, e));
  }

  /** thread_to_join stays the number of threads that are done. */
  lemma {:induction false} JoinKeeps(s: State, e: Event)
    requires WellFormed(s) && Enabled(s, e) && JoinOk(s)
    ensures JoinOk(Apply(s, e))
  {
    hide WellFormed, DrainOrder, JoinOk, Generated, Emitted, PopAction, NotifiedBy, DeliveredBy, FinishedBy, LoadedBy, StoredBy, PopUpdate, DrainedBy, PusherTo, ReaderTo, Serving;
    match e
    case TakeAction(p) => JoinPop(s, p);
    case WakePusher(p) => JoinWakePusher(s, p);
    case Notify(p) => IsServing(s, p); JoinServe(s, p);
    case Deliver(p) => IsServing(s, p); JoinServe(s, p);
    case Finish(p) => JoinFinish(s, p);
    case PusherLoad(p) => JoinLoad(s, p);
    case PusherStore(p) => JoinStore(s, p);
    case SimStore => JoinSimStore(s);
    case JoinReader => JoinMain(s);
    case TakeUpdate(_) => ReadersJoin(s, e);
    case WakeReader(_) => ReadersJoin(s, e);
    case Drain(_, _) => ReadersJoin(s, e);
    case _ => SimulatorJoins(s, e);
  }

  lemma {:induction false} JoinSimStore(s: State)
    requires WellFormed(s) && Enabled(s, SimStore) && JoinOk(s)
    ensures JoinOk(Apply(s, SimStore))
  {
    hide WellFormed, Total;
    LoadedIsExiting(s.pushers);
  }

  lemma {:induction false} LoadedIsExiting(pcs: seq<PusherPc>)
    ensures Total(IsExiting, pcs) == 0 ==> forall pc :: pc in pcs ==> !pc.PLoaded?
  {
    TotalZero(IsExiting, pcs);
    if Total(IsExiting, pcs) == 0 {
      forall pc | pc in pcs ensures !pc.PLoaded? {
        var i :| 0 <= i < |pcs| && pcs[i] == pc;
        assert IsExiting(pcs[i]) == 0;
      }
    }
  }

  lemma {:induction false} JoinMain(s: State)
    requires WellFormed(s) && Enabled(s, JoinReader) && JoinOk(s)
    ensures JoinOk(Apply(s, JoinReader))
  {
    hide WellFormed, Total;
    forall pc | pc in s.pushers ensures !pc.PLoaded? {
      var i :| 0 <= i < |s.pushers| && s.pushers[i] == pc;
    }
  }

  /** A reader leaves only when that is safe, and it stays safe. */
  lemma {:induction false} ExitKeeps(s: State, e: Event)
    requires WellFormed(s) && Enabled(s, e) && JoinOk(s) && ExitOk(s)
    ensures ExitOk(Apply(s, e))
  {
    hide WellFormed, DrainOrder, Total;
    var s' := Apply(s, e);
    GoneAre(s);
    match e
    case TakeUpdate(r) => InUpdated(s.readers, r, s'.readers[r]);
    case WakeReader(r) => InUpdated(s.readers, r, s'.readers[r]);
    case Drain(r, _) => InUpdated(s.readers, r, s'.readers[r]);
    case _ =>
  }

  // ---------- announcements ----------

  lemma {:induction false} AnnouncingUpdate(net: Net, u: nat, pcs: seq<PusherPc>, p: nat, pc: PusherPc)
    requires p < |pcs|
    ensures AnnouncingAll(net, u, pcs[p := pc]) == AnnouncingAll(net, u, pcs) - Announcing(net, u, pcs[p]) + Announcing(net, u, pc)
  {
    hide Announcing;
    var k := |pcs| - 1;
    if p < k {
      AnnouncingUpdate(net, u, pcs[..k], p, pc);
      assert pcs[p := pc][..k] == pcs[..k][p := pc];
    } else {
      assert pcs[p := pc][..k] == pcs[..k];
    }
  }

  lemma {:induction false} NotifyAnnounces(s: State, p: nat, u: nat)
    requires Serving(s, p) && s.pushers[p].Pushing? && AnnouncedOk(s, u)
    ensures AnnouncedOk(NotifiedBy(s, p), u)
  {
    hide AnnouncingAll;
    AnnouncingUpdate(s.net, u, s.pushers, p, Notified(s.pushers[p].action, s.pushers[p].i));
  }

  lemma {:induction false} DeliverAnnounced(s: State, p: nat, u: nat)
    requires Serving(s, p) && s.pushers[p].Notified? && AnnouncedOk(s, u)
    ensures AnnouncedOk(DeliveredBy(s, p), u)
  {
    hide AnnouncingAll;
    AnnouncingUpdate(s.net, u, s.pushers, p, Pushing(s.pushers[p].action, s.pushers[p].i + 1));
  }

  // A pusher that was not announcing anything, and is not now.
  lemma {:induction false} SilentStep(s: State, s': State, u: nat, p: nat, pc: PusherPc)
    requires p < |s.pushers| && !s.pushers[p].Notified? && !pc.Notified? && AnnouncedOk(s, u)
    requires s'.pushers == s.pushers[p := pc] && s'.net == s.net && s'.log.notified == s.log.notified && s'.log.delivered == s.log.delivered
    ensures AnnouncedOk(s', u)
  {
    hide AnnouncingAll;
    AnnouncingUpdate(s.net, u, s.pushers, p, pc);
  }

  lemma {:induction false} SilentSteps(s: State, u: nat, p: nat)
    requires p < |s.pushers| && !s.pushers[p].Notified? && AnnouncedOk(s, u)
    ensures AnnouncedOk(PopAction(s, p), u) && AnnouncedOk(PusherTo(s, p, PLeaving), u) && AnnouncedOk(LoadedBy(s, p), u)
    ensures s.pushers[p].PLoaded? ==> AnnouncedOk(StoredBy(s, p), u)
    ensures s.pushers[p].Pushing? ==> AnnouncedOk(FinishedBy(s, p), u)
  {
    hide AnnouncedOk;
    SilentStep(s, PopAction(s, p), u, p, PopAction(s, p).pushers[p]);
    SilentStep(s, PusherTo(s, p, PLeaving), u, p, PLeaving);
    SilentStep(s, LoadedBy(s, p), u, p, PLoaded(s.joinCount));
    if s.pushers[p].PLoaded? {
      SilentStep(s, StoredBy(s, p), u, p, PGone);
    }
    if s.pushers[p].Pushing? {
      SilentStep(s, FinishedBy(s, p), u, p, PTop);
    }
  }

  lemma {:induction false} OthersAnnounce(s: State, s': State, u: nat)
    requires AnnouncedOk(s, u) && s'.net == s.net && s'.pushers == s.pushers && s'.log.notified == s.log.notified && s'.log.delivered == s.log.delivered
    ensures AnnouncedOk(s', u)
  {
  }

  lemma {:induction false} AnnouncedKeeps(s: State, e: Event, u: nat)
    requires WellFormed(s) && Enabled(s, e) && u < |s.feeds| && AnnouncedOk(s, u)
    ensures AnnouncedOk(Apply(s, e), u)
  {
    hide WellFormed, DrainOrder, AnnouncedOk, Generated, Emitted, PopAction, NotifiedBy, DeliveredBy, FinishedBy, LoadedBy, StoredBy, PopUpdate, DrainedBy, PusherTo, ReaderTo, Serving;
    match e
    case TakeAction(p) => SilentSteps(s, u, p);
    case WakePusher(p) => SilentSteps(s, u, p);
    case PusherLoad(p) => SilentSteps(s, u, p);
    case PusherStore(p) => SilentSteps(s, u, p);
    case Finish(p) => SilentSteps(s, u, p);
    case Notify(p) => IsServing(s, p); NotifyAnnounces(s, p, u);
    case Deliver(p) => IsServing(s, p); DeliverAnnounced(s, p, u);
    case TakeUpdate(_) => ReadersLeaveAlone(s, e); OthersAnnounce(s, Apply(s, e), u);
    case WakeReader(_) => ReadersLeaveAlone(s, e); OthersAnnounce(s, Apply(s, e), u);
    case Drain(_, _) => ReadersLeaveAlone(s, e); OthersAnnounce(s, Apply(s, e), u);
    case JoinReader => ReadersLeaveAlone(s, e); OthersAnnounce(s, Apply(s, e), u);
    case _ => SimulatorLeavesAlone(s, e); OthersAnnounce(s, Apply(s, e), u);
  }

  // ---------- every step keeps the invariant ----------

  ghost predicate Fits(net: Net, pc: PusherPc) {
    && (pc.Pushing? || pc.Notified? ==> pc.i <= Degree(net, pc.action.user))
    && (pc.Notified? ==> pc.i < Degree(net, pc.action.user))
  }

  // The same numbers of everything, and notifications of users there are.
  ghost predicate SameShape(s: State, s': State) {
    && s'.net == s.net && |s'.feeds| == |s.feeds| && |s'.log.delivered| == |s.log.delivered| && |s'.log.read| == |s.log.read|
    && (forall u :: u in s'.updateQ ==> u < |s.feeds|)
  }

  lemma {:induction false} PusherWellFormed(s: State, s': State, p: nat, pc: PusherPc)
    requires WellFormed(s) && p < |s.pushers| && Fits(s.net, pc) && SameShape(s, s')
    requires s'.pushers == s.pushers[p := pc] && s'.readers == s.readers
    ensures WellFormed(s')
  {
  }

  lemma {:induction false} ReaderWellFormed(s: State, s': State, r: nat, pc: ReaderPc)
    requires WellFormed(s) && r < |s.readers| && (pc.Reading? ==> pc.user < |s.feeds|) && SameShape(s, s')
    requires s'.pushers == s.pushers && s'.readers == s.readers[r := pc]
    ensures WellFormed(s')
  {
  }

  lemma {:induction false} OthersWellFormed(s: State, s': State)
    requires WellFormed(s) && SameShape(s, s') && s'.pushers == s.pushers && s'.readers == s.readers
    ensures WellFormed(s')
  {
  }

  lemma {:induction false} QueueInRange(s: State)
    requires WellFormed(s)
    ensures forall u :: u in s.updateQ ==> u < |s.feeds|
    ensures s.updateQ != [] ==> s.updateQ[0] < |s.feeds| && forall u :: u in s.updateQ[1..] ==> u < |s.feeds|
    ensures |s.feeds| == |s.log.delivered| == |s.log.read|
  {
    if s.updateQ != [] {
      assert s.updateQ[0] in s.updateQ;
      forall u | u in s.updateQ[1..] ensures u < |s.feeds| {
        assert u in s.updateQ;
      }
    }
  }

  lemma {:induction false} FitsNow(s: State, p: nat)
    requires WellFormed(s) && p < |s.pushers|
    ensures Fits(s.net, s.pushers[p])
  {
  }

  lemma {:induction false} PusherStepWellFormed(s: State, e: Event)
    requires WellFormed(s) && Enabled(s, e) && Pusher(s, e) < |s.pushers|
    ensures WellFormed(Apply(s, e))
  {
    hide WellFormed, DrainOrder;
    var p, s' := Pusher(s, e), Apply(s, e);
    QueueInRange(s);
    FitsNow(s, p);
    if e.Notify? || e.Deliver? {
      IsServing(s, p);
    }
    PusherWellFormed(s, s', p, s'.pushers[p]);
  }

  lemma {:induction false} ReaderStepWellFormed(s: State, e: Event)
    requires WellFormed(s) && Enabled(s, e) && (e.TakeUpdate? || e.WakeReader? || e.Drain?)
    ensures WellFormed(Apply(s, e))
  {
    hide WellFormed, DrainOrder;
    var s' := Apply(s, e);
    QueueInRange(s);
    ReaderWellFormed(s, s', e.r, s'.readers[e.r]);
  }

  lemma {:induction false} WellFormedKeeps(s: State, e: Event)
    requires WellFormed(s) && Enabled(s, e)
    ensures WellFormed(Apply(s, e))
  {
    hide WellFormed, DrainOrder, Generated, Emitted, PopAction, NotifiedBy, DeliveredBy, FinishedBy, LoadedBy, StoredBy, PopUpdate, DrainedBy, PusherTo, ReaderTo, Serving;
    match e
    case TakeUpdate(_) => ReaderStepWellFormed(s, e);
    case WakeReader(_) => ReaderStepWellFormed(s, e);
    case Drain(_, _) => ReaderStepWellFormed(s, e);
    case JoinReader => QueueInRange(s); OthersWellFormed(s, Apply(s, e));
    case ChooseUser(_) => QueueInRange(s); OthersWellFormed(s, Apply(s, e));
    case Generate(_, _) => QueueInRange(s); SimulatorLeavesAlone(s, e); OthersWellFormed(s, Apply(s, e));
    case StopBuilding => QueueInRange(s); OthersWellFormed(s, Apply(s, e));
    case Emit => QueueInRange(s); SimulatorLeavesAlone(s, e); OthersWellFormed(s, Apply(s, e));
    case SimLoad => QueueInRange(s); OthersWellFormed(s, Apply(s, e));
    case SimStore => QueueInRange(s); OthersWellFormed(s, Apply(s, e));
    case _ => PusherStepWellFormed(s, e);
  }

  lemma {:induction false} UserKeeps(s: State, e: Event, u: nat)
    requires WellFormed(s) && Enabled(s, e) && u < |s.feeds| && UserOk(s, u)
    ensures UserOk(Apply(s, e), u)
  {
    hide WellFormed, DeliveredOk, ReadOk, AnnouncedOk, Enabled, Apply;
    DeliveredKeeps(s, e, u);
    ReadKeeps(s, e, u);
    AnnouncedKeeps(s, e, u);
  }

  lemma {:induction false} SameUsers(s: State, e: Event)
    requires WellFormed(s) && Enabled(s, e)
    ensures |Apply(s, e).feeds| == |s.feeds| && Apply(s, e).net == s.net
  {
    hide DrainOrder;
    if e.Deliver? {
      var pc := s.pushers[e.p];
      assert NeighborOf(s.net, pc.action.user, pc.i) in s.net.neighbors[pc.action.user];
    }
  }

  /** Every step keeps the invariant. */
  lemma {:induction false} StepKeeps(s: State, e: Event)
    requires Inv(s) && Enabled(s, e)
    ensures Inv(Apply(s, e))
  {
    hide WellFormed, JoinOk, ExitOk, Conserved, Numbered, QueueOk, UserOk, Enabled, Apply, LinedUp;
    WellFormedKeeps(s, e);
    JoinKeeps(s, e);
    ExitKeeps(s, e);
    ConservedKeeps(s, e);
    NumberedKeeps(s, e);
    LineKeeps(s, e);
    QueueKeeps(s, e);
    SameUsers(s, e);
    forall u: nat | u < |s.feeds| ensures UserOk(Apply(s, e), u) {
      UserKeeps(s, e, u);
    }
  }

  lemma {:induction false} AllAtTop(pcs: seq<PusherPc>)
    requires forall p :: 0 <= p < |pcs| ==> pcs[p] == PTop
    ensures Total(IsGone, pcs) == 0 && Total(IsExiting, pcs) == 0 && Total(IsLoaded, pcs) == 0
    ensures Bag(HeldBy, pcs) == multiset{}
  {
    if pcs != [] {
      AllAtTop(pcs[..|pcs| - 1]);
    }
  }

  lemma {:induction false} NothingSent(net: Net, u: nat, pcs: seq<PusherPc>)
    requires forall p :: 0 <= p < |pcs| ==> pcs[p] == PTop
    ensures SentHeld(net, u, pcs) == multiset{} && AnnouncingAll(net, u, pcs) == 0
  {
    if pcs != [] {
      NothingSent(net, u, pcs[..|pcs| - 1]);
    }
  }

  lemma {:induction false} InitInv(s: State)
    requires Init(s)
    ensures Inv(s)
  {
    hide Total, Bag, SentHeld, AnnouncingAll, HeldBy, IsGone, IsExiting, IsLoaded;
    AllAtTop(s.pushers);
    assert WellFormed(s) && JoinOk(s) && ExitOk(s) && Conserved(s) && Numbered(s) && LinedUp(s) && QueueOk(s);
    forall u: nat | u < |s.feeds| ensures UserOk(s, u) {
      NothingSent(s.net, u, s.pushers);
    }
  }
}
