/** What the feed pipeline does not ensure: runs in which an action is left behind, and exactly when
    none is. */
module FeedLimits {
  import opened Tally
  import opened FeedProtocol
  import opened FeedSafety
  import opened FeedRuns

  // Some run ends in s.
  ghost predicate Reachable(s: State) {
    exists ss, es :: IsRun(ss, es) && ss[|es|] == s
  }

  lemma {:induction false} Start(s: State)
    requires Init(s)
    ensures Reachable(s)
  {
    hide Init;
    var none: seq<Event> := [];
    assert IsRun([s], none) && [s][|none|] == s;
  }

  /** One more step. */
  lemma {:induction false} Goes(s: State, e: Event, s': State)
    requires Reachable(s) && Enabled(s, e) && (WellFormed(s) ==> s' == Apply(s, e))
    ensures Reachable(s')
  {
    hide Init, WellFormed, Enabled, Apply;
    var ss, es :| IsRun(ss, es) && ss[|es|] == s;
    RunGoesOn(ss, es, e, s');
    var longer, steps := ss + [s'], es + [e];
    assert IsRun(longer, steps) && longer[|steps|] == s';
  }

  // ---------- two users, one pusher, one reader ----------

  const NET := Net([[Neighbor(1, 0)], [Neighbor(0, 0)]], [true, true])
  const START := State(NET, Choosing, map[], [], [], [PTop], [], false, [[], []], [RTop], 0, 0, Log([], [], [[], []], [[], []], [], []))

  lemma {:induction false} StartIs()
    ensures Reachable(START)
  {
    Start(START);
  }

  // The one action there is, and what its user's neighbour gets.
  const POST := Action(0, 0, 1, 0)
  const ITEM := Item(0, POST)

  // User 0 has posted once; the post is in new_action_q; the pusher is where it was.
  function Posted(pc: PusherPc): State {
    START.(counters := map[(0, 0) := 1], actionQ := [POST], pushers := [pc], log := START.log.(generated := [POST]))
  }

  lemma {:induction false} PostOnce(pc: PusherPc)
    requires Reachable(START.(pushers := [pc])) && (pc == PTop || pc == PWait)
    ensures Reachable(Posted(pc))
  {
    hide Reachable, WellFormed;
    var s0 := START.(pushers := [pc]);
    var s1 := s0.(sim := Building(0));
    var s2 := s1.(counters := map[(0, 0) := 1], pending := [POST], log := START.log.(generated := [POST]));
    var s3 := s2.(sim := Emitting);
    var s4 := s3.(pending := [], actionQ := [POST]);
    Goes(s0, ChooseUser(0), s1);
    Goes(s1, Generate(0, 0), s2);
    Goes(s2, StopBuilding, s3);
    Goes(s3, Emit, s4);
    Goes(s4, Emit, Posted(pc));
  }

  // The simulator and then the pusher leave, the pusher from its wait.
  lemma {:induction false} AllLeave(s: State)
    requires Reachable(s) && s.sim == Choosing && s.pushers == [PWait] && s.joinCount == 0 && !s.locked
    ensures Reachable(s.(sim := SimGone, pushers := [PGone], joinCount := 2))
  {
    hide Reachable, WellFormed;
    var s1 := s.(sim := SimLoaded(0));
    var s2 := s.(sim := SimGone, joinCount := 1);
    var s3 := s2.(pushers := [PLeaving]);
    var s4 := s2.(pushers := [PLoaded(1)], locked := true);
    Goes(s, SimLoad, s1);
    Goes(s1, SimStore, s2);
    Goes(s2, WakePusher(0), s3);
    Goes(s3, PusherLoad(0), s4);
    Goes(s4, PusherStore(0), s.(sim := SimGone, pushers := [PGone], joinCount := 2));
  }

  /** A run in which the post stays in new_action_q although everybody has left: the pusher is woken
      when the simulator has left, and leaves without looking at the queue. */
  lemma {:induction false} ActionLeftBehind()
    ensures exists s :: Reachable(s) && s.sim == SimGone && AllPushersGone(s) && s.actionQ == [POST] && s.log.done == []
  {
    hide Reachable, WellFormed;
    StartIs();
    Goes(START, TakeAction(0), START.(pushers := [PWait]));
    PostOnce(PWait);
    AllLeave(Posted(PWait));
    var s := Posted(PWait).(sim := SimGone, pushers := [PGone], joinCount := 2);
    assert Reachable(s) && AllPushersGone(s);
  }

  // The post is with the pusher, which has notified the neighbour; the reader has looked too early.
  lemma {:induction false} ReadTooEarly()
    requires Reachable(Posted(PTop))
    ensures Reachable(Posted(PTop).(actionQ := [], pushers := [Notified(POST, 0)],
                                    log := Posted(PTop).log.(notified := [1], consumed := [1])))
  {
    hide Reachable, WellFormed;
    var s0 := Posted(PTop);
    var s1 := s0.(actionQ := [], pushers := [Pushing(POST, 0)]);
    var s2 := s1.(pushers := [Notified(POST, 0)], updateQ := [1], log := s1.log.(notified := [1]));
    var s3 := s2.(updateQ := [], readers := [Reading(1)], log := s2.log.(consumed := [1]));
    Goes(s0, TakeAction(0), s1);
    IsServingHere(s1);
    Goes(s1, Notify(0), s2);
    Goes(s2, TakeUpdate(0), s3);
    ReadsNothing(s3);
  }

  lemma {:induction false} ReadsNothing(s: State)
    requires Reachable(s) && s.readers == [Reading(1)] && s.net == NET && s.feeds == [[], []] && s.log.read == [[], []]
    ensures Reachable(s.(readers := [RTop]))
  {
    hide Reachable, WellFormed;
    assert s.log.read[1] + [] == [] && s.feeds[1 := []] == s.feeds && s.log.read[1 := []] == s.log.read;
    Goes(s, Drain(0, []), s.(readers := [RTop]));
  }

  lemma {:induction false} IsServingHere(s: State)
    requires s.net == NET && |s.feeds| == |s.log.delivered| == 2 && (s.pushers == [Pushing(POST, 0)] || s.pushers == [Notified(POST, 0)])
    ensures Serving(s, 0) && Target(s, 0) == Neighbor(1, 0)
  {
  }

  /** A run in which the delivered post is never read although all threads have left: the notification
      comes before the push, and a reader can come between. */
  lemma {:induction false} ItemNeverRead()
    ensures exists s :: Reachable(s) && AllPushersGone(s) && s.readers == [RGone] && s.log.done == [POST] && s.feeds == [[], [ITEM]] && s.log.read == [[], []]
  {
    hide Reachable, WellFormed;
    StartIs();
    PostOnce(PTop);
    ReadTooEarly();
    DeliveredLate();
    var s3 := Posted(PTop).(actionQ := [], pushers := [PWait], feeds := [[], [ITEM]],
                            log := Posted(PTop).log.(notified := [1], consumed := [1], delivered := [[], [ITEM]], done := [POST]));
    var s4 := s3.(readers := [RWait]);
    var s5 := s4.(sim := SimGone, pushers := [PGone], joinCount := 2);
    Goes(s3, TakeUpdate(0), s4);
    AllLeave(s4);
    var s6 := s5.(readers := [RGone]);
    Goes(s5, WakeReader(0), s6);
    assert Reachable(s6) && AllPushersGone(s6);
  }

  // The post reaches the feed after that, and the pusher finds nothing more to do.
  lemma {:induction false} DeliveredLate()
    requires Reachable(Posted(PTop).(actionQ := [], pushers := [Notified(POST, 0)],
                                     log := Posted(PTop).log.(notified := [1], consumed := [1])))
    ensures Reachable(Posted(PTop).(actionQ := [], pushers := [PWait], feeds := [[], [ITEM]],
                                    log := Posted(PTop).log.(notified := [1], consumed := [1], delivered := [[], [ITEM]], done := [POST])))
  {
    hide Reachable, WellFormed;
    var s0 := Posted(PTop).(actionQ := [], pushers := [Notified(POST, 0)], log := Posted(PTop).log.(notified := [1], consumed := [1]));
    var s1 := s0.(pushers := [Pushing(POST, 1)], feeds := [[], [ITEM]], log := s0.log.(delivered := [[], [ITEM]]));
    var s2 := s1.(pushers := [PTop], log := s1.log.(done := [POST]));
    IsServingHere(s0);
    assert s0.feeds[1] == [] && s0.feeds[1] + [ITEM] == [ITEM];
    assert s0.feeds[1 := s0.feeds[1] + [ITEM]] == [[], [ITEM]];
    Goes(s0, Deliver(0), s1);
    Goes(s1, Finish(0), s2);
    Goes(s2, TakeAction(0), s2.(pushers := [PWait]));
  }

  // ---------- exactly when no action is left in new_action_q ----------

  lemma {:induction false} GoneHoldNothing(pcs: seq<PusherPc>)
    requires forall p :: 0 <= p < |pcs| ==> pcs[p] == PGone
    ensures Bag(HeldBy, pcs) == multiset{}
  {
    if pcs != [] {
      GoneHoldNothing(pcs[..|pcs| - 1]);
    }
  }

  // Once the pushers have left, what is not done is still in one of two queues.
  lemma {:induction false} DoneIffQueuesEmpty(ss: seq<State>, es: seq<Event>, i: nat)
    requires IsRun(ss, es) && i < |ss| && AllPushersGone(ss[i])
    ensures (forall a :: a in ss[i].log.generated ==> a in ss[i].log.done) <==> ss[i].pending == [] && ss[i].actionQ == []
  {
    hide IsRun, Bag;
    var s := ss[i];
    GoneHoldNothing(s.pushers);
    if s.pending != [] {
      OneStage(ss, es, i, s.pending[0]);
      assert s.pending[0] in multiset(s.pending);
    }
    if s.actionQ != [] {
      OneStage(ss, es, i, s.actionQ[0]);
      assert s.actionQ[0] in multiset(s.actionQ);
    }
    forall a | a in s.log.generated && s.pending == [] && s.actionQ == [] ensures a in s.log.done {
      OneStage(ss, es, i, a);
    }
  }

  // A pusher wakes up and finds that the simulator has left.
  ghost predicate Leaves(s: State, e: Event) {
    e.WakePusher? && s.joinCount >= 1
  }

  // All pushers are on their way out, or out.
  ghost predicate AllExiting(s: State) {
    forall q :: 0 <= q < |s.pushers| ==> IsExiting(s.pushers[q]) == 1
  }

  // Only by that step a pusher gets onto its way out.
  lemma {:induction false} ExitingBefore(s: State, e: Event)
    requires WellFormed(s) && Enabled(s, e) && !Leaves(s, e) && AllExiting(Apply(s, e))
    ensures AllExiting(s)
  {
    hide WellFormed, DrainOrder;
    var s' := Apply(s, e);
    SamePushers(s, e);
    forall q | 0 <= q < |s.pushers| ensures IsExiting(s.pushers[q]) == 1 {
      assert IsExiting(s'.pushers[q]) == 1;
    }
  }

  lemma {:induction false} SamePushers(s: State, e: Event)
    requires WellFormed(s) && Enabled(s, e)
    ensures |Apply(s, e).pushers| == |s.pushers|
    ensures var p := Pusher(s, e);
            && (p == |s.pushers| ==> Apply(s, e).pushers == s.pushers)
            && (p < |s.pushers| ==> Apply(s, e).pushers == s.pushers[p := Apply(s, e).pushers[p]])
  {
    hide WellFormed, DrainOrder, Counter;
  }

  // With the simulator gone and all pushers exiting, nothing reaches or leaves the two queues.
  lemma {:induction false} QueuesFrozen(s: State, e: Event)
    requires WellFormed(s) && Enabled(s, e) && s.sim == SimGone && AllExiting(s)
    ensures Apply(s, e).sim == SimGone && Apply(s, e).actionQ == s.actionQ
  {
    hide WellFormed, DrainOrder;
    var p := Pusher(s, e);
    if p < |s.pushers| {
      assert IsExiting(s.pushers[p]) == 1;
    }
  }

  lemma {:induction false} LeavesAfterSimulator(s: State, p: nat)
    requires JoinOk(s) && p < |s.pushers| && s.joinCount >= 1
    ensures s.sim == SimGone
  {
    hide Total;
    if s.sim != SimGone {
      GoneIsExiting(s.pushers);
    }
  }

  // No pusher leaves at the steps from to, ..., i - 1.
  ghost predicate NoneLeaves(ss: seq<State>, es: seq<Event>, from: nat, i: nat) {
    i <= |es| && |ss| == |es| + 1 && forall k :: from <= k < i ==> !Leaves(ss[k], es[k])
  }

  lemma {:induction false} AllExitingSince(ss: seq<State>, es: seq<Event>, k: nat, i: nat)
    requires IsRun(ss, es) && k <= i < |ss| && AllPushersGone(ss[i]) && NoneLeaves(ss, es, k, i)
    ensures AllExiting(ss[k])
    decreases i - k
  {
    hide Init, WellFormed, Enabled, Apply, Leaves, JoinOk, ExitOk, Conserved, Numbered, QueueOk, UserOk, LinedUp;
    if k < i {
      AllExitingSince(ss, es, k + 1, i);
      RunKeeps(ss, es, k);
      var s, e, s' := ss[k], es[k], ss[k + 1];
      hide AllExiting;
      ExitingBefore(s, e);
    }
  }

  lemma {:induction false} QueuesFrozenSince(ss: seq<State>, es: seq<Event>, k: nat, i: nat)
    requires IsRun(ss, es) && k <= i < |ss| && AllPushersGone(ss[i]) && NoneLeaves(ss, es, k, i) && ss[k].sim == SimGone
    ensures ss[i].actionQ == ss[k].actionQ && ss[i].sim == SimGone
    decreases i - k
  {
    hide Init, WellFormed, Enabled, Apply, Leaves, JoinOk, ExitOk, Conserved, Numbered, QueueOk, UserOk, AllExiting, AllPushersGone, LinedUp;
    if k < i {
      AllExitingSince(ss, es, k, i);
      RunKeeps(ss, es, k);
      var s, e, s' := ss[k], es[k], ss[k + 1];
      QueuesFrozen(s, e);
      QueuesFrozenSince(ss, es, k + 1, i);
    }
  }

  lemma {:induction false} NoneExitingYet(s: State)
    requires Init(s) && |s.pushers| >= 1
    ensures !AllExiting(s)
  {
    assert IsExiting(s.pushers[0]) == 0;
  }

  /** When all pushers have left there is a step at which the last of them was woken and left. */
  lemma {:induction false} SomeoneLeft(ss: seq<State>, es: seq<Event>, k: nat, i: nat) returns (t: nat)
    requires IsRun(ss, es) && k <= i < |ss| && AllPushersGone(ss[i]) && |ss[0].pushers| >= 1 && NoneLeaves(ss, es, k, i)
    ensures t < i && Leaves(ss[t], es[t]) && NoneLeaves(ss, es, t + 1, i)
    decreases k
  {
    hide WellFormed, Enabled, Apply;
    if k == 0 {
      NoneExitingYet(ss[0]);
      AllExitingSince(ss, es, 0, i);
      assert false;
    } else if Leaves(ss[k - 1], es[k - 1]) {
      t := k - 1;
    } else {
      t := SomeoneLeft(ss, es, k - 1, i);
    }
  }

  /** Once the pushers have left, every generated action was pushed to all neighbours if and only if
      new_action_q was empty when the last pusher was woken and left. The guard of that step does not
      look at the queue. */
  lemma {:induction false} AllPushedIff(ss: seq<State>, es: seq<Event>, t: nat, i: nat)
    requires IsRun(ss, es) && t < i < |ss| && AllPushersGone(ss[i]) && Leaves(ss[t], es[t]) && NoneLeaves(ss, es, t + 1, i)
    ensures (forall a :: a in ss[i].log.generated ==> a in ss[i].log.done) <==> ss[t].actionQ == []
  {
    hide Init, WellFormed, JoinOk, ExitOk, Conserved, Numbered, QueueOk, UserOk, AllPushersGone, NoneLeaves, DrainOrder, LinedUp;
    RunKeeps(ss, es, t);
    var s, e, s' := ss[t], es[t], ss[t + 1];
    LeavesAfterSimulator(s, e.p);
    QueuesFrozenSince(ss, es, t + 1, i);
    RunKeeps(ss, es, i);
    BetweenUsers(ss[i]);
    DoneIffQueuesEmpty(ss, es, i);
  }

  // ---------- exactly when no item is left in a feed ----------

  // Readers that have taken a notification for user u and not read the feed yet.
  function ReadingNow(u: nat, pc: ReaderPc): nat {
    if pc == Reading(u) then 1 else 0
  }

  function ReadingAll(u: nat, pcs: seq<ReaderPc>): nat {
    if pcs == [] then 0 else ReadingAll(u, pcs[..|pcs| - 1]) + ReadingNow(u, pcs[|pcs| - 1])
  }

  lemma {:induction false} ReadingUpdate(u: nat, pcs: seq<ReaderPc>, r: nat, pc: ReaderPc)
    requires r < |pcs|
    ensures ReadingAll(u, pcs[r := pc]) == ReadingAll(u, pcs) - ReadingNow(u, pcs[r]) + ReadingNow(u, pc)
  {
    hide ReadingNow;
    var k := |pcs| - 1;
    if r < k {
      ReadingUpdate(u, pcs[..k], r, pc);
      assert pcs[r := pc][..k] == pcs[..k][r := pc];
    } else {
      assert pcs[r := pc][..k] == pcs[..k];
    }
  }

  lemma {:induction false} NoneReading(u: nat, pcs: seq<ReaderPc>)
    requires forall r :: 0 <= r < |pcs| ==> !pcs[r].Reading?
    ensures ReadingAll(u, pcs) == 0
  {
    if pcs != [] {
      NoneReading(u, pcs[..|pcs| - 1]);
    }
  }

  // The step reads the feed of user u.
  ghost predicate ReadsFeed(s: State, e: Event, u: nat) {
    e.Drain? && e.r < |s.readers| && s.readers[e.r] == Reading(u)
  }

  // Notifications for u that were taken and are not being acted on now.
  ghost function ActedOn(s: State, u: nat): int {
    multiset(s.log.consumed)[u] - ReadingAll(u, s.readers)
  }

  // A step that is not a read of u's feed acts on no notification for u.
  ghost predicate SameForReader(s: State, s': State, u: nat) {
    && |s.log.read| == |s'.log.read| && (u < |s.log.read| ==> s'.log.read[u] == s.log.read[u])
    && ActedOn(s', u) == ActedOn(s, u) && multiset(s.log.notified)[u] <= multiset(s'.log.notified)[u]
    && |s'.readers| == |s.readers|
  }

  lemma {:induction false} OthersSame(s: State, s': State, u: nat)
    requires s'.log.read == s.log.read && s'.log.consumed == s.log.consumed && s'.readers == s.readers
    requires s'.log.notified == s.log.notified || exists x :: s'.log.notified == s.log.notified + [x]
    ensures SameForReader(s, s', u)
  {
    hide ReadingAll;
  }

  lemma {:induction false} PopSame(s: State, r: nat, u: nat)
    requires r < |s.readers| && !s.readers[r].Reading?
    ensures SameForReader(s, PopUpdate(s, r), u) && SameForReader(s, ReaderTo(s, r, RGone), u)
  {
    hide ReadingAll;
    ReadingUpdate(u, s.readers, r, PopUpdate(s, r).readers[r]);
    ReadingUpdate(u, s.readers, r, RGone);
  }

  lemma {:induction false} DrainSame(s: State, r: nat, out: seq<Item>, u: nat)
    requires r < |s.readers| && s.readers[r].Reading? && s.readers[r].user < |s.feeds| == |s.log.read| && s.readers[r].user != u
    ensures SameForReader(s, DrainedBy(s, r, out), u)
  {
    hide ReadingAll;
    ReadingUpdate(u, s.readers, r, RTop);
  }

  lemma {:induction false} PusherSame(s: State, e: Event, u: nat)
    requires WellFormed(s) && Enabled(s, e) && Pusher(s, e) < |s.pushers|
    ensures SameForReader(s, Apply(s, e), u)
  {
    hide WellFormed, DrainOrder, SameForReader;
    OthersSame(s, Apply(s, e), u);
  }

  lemma {:induction false} NotReadingSame(s: State, e: Event, u: nat)
    requires WellFormed(s) && Enabled(s, e) && !ReadsFeed(s, e, u)
    ensures SameForReader(s, Apply(s, e), u)
  {
    hide WellFormed, DrainOrder, SameForReader, PopUpdate, DrainedBy, ReaderTo;
    match e
    case TakeUpdate(r) => PopSame(s, r, u);
    case WakeReader(r) => PopSame(s, r, u);
    case Drain(r, out) => DrainShape(s); DrainSame(s, r, out, u);
    case JoinReader => OthersSame(s, Apply(s, e), u);
    case TakeAction(_) => PusherSame(s, e, u);
    case WakePusher(_) => PusherSame(s, e, u);
    case Notify(_) => PusherSame(s, e, u);
    case Deliver(_) => PusherSame(s, e, u);
    case Finish(_) => PusherSame(s, e, u);
    case PusherLoad(_) => PusherSame(s, e, u);
    case PusherStore(_) => PusherSame(s, e, u);
    case _ => SimulatorLeavesAlone(s, e); OthersSame(s, Apply(s, e), u);
  }

  lemma {:induction false} DrainShape(s: State)
    requires WellFormed(s)
    ensures |s.feeds| == |s.log.read|
  {
  }

  // The feed of u is not read at the steps from, ..., i - 1.
  ghost predicate NotRead(ss: seq<State>, es: seq<Event>, u: nat, from: nat, i: nat) {
    i <= |es| && |ss| == |es| + 1 && forall k :: from <= k < i ==> !ReadsFeed(ss[k], es[k], u)
  }

  lemma {:induction false} NotReadSame(ss: seq<State>, es: seq<Event>, u: nat, k: nat, i: nat)
    requires IsRun(ss, es) && k <= i < |ss| && NotRead(ss, es, u, k, i)
    ensures SameForReader(ss[k], ss[i], u)
    decreases i - k
  {
    hide Init, WellFormed, Enabled, Apply, ReadsFeed, JoinOk, ExitOk, Conserved, Numbered, QueueOk, UserOk, ReadingAll, LinedUp;
    if k < i {
      NotReadSame(ss, es, u, k, i - 1);
      RunKeeps(ss, es, i - 1);
      var s, e, s' := ss[i - 1], es[i - 1], ss[i];
      NotReadingSame(s, e, u);
    }
  }

  ghost predicate AllReadersGone(s: State) {
    |s.readers| >= 1 && forall r :: 0 <= r < |s.readers| ==> s.readers[r] == RGone
  }

  // At the end: all notifications were acted on, and as many items delivered.
  lemma {:induction false} AtTheEnd(s: State, u: nat)
    requires Inv(s) && AllReadersGone(s) && u < |s.feeds|
    ensures ActedOn(s, u) == multiset(s.log.notified)[u] == |s.log.delivered[u]|
  {
    hide WellFormed, JoinOk, Conserved, Numbered, DeliveredOk, ReadOk, LinedUp;
    assert s.readers[0] in s.readers;
    TakenAll(s);
    NoneReading(u, s.readers);
    assert UserOk(s, u);
    NoneAnnouncing(s.net, u, s.pushers);
  }

  // At any time: no more were acted on than made.
  lemma {:induction false} ActedOnAtMost(s: State, u: nat)
    requires Inv(s) && u < |s.feeds|
    ensures ActedOn(s, u) <= multiset(s.log.notified)[u] == |s.log.delivered[u]| + AnnouncingAll(s.net, u, s.pushers)
  {
    hide WellFormed, JoinOk, ExitOk, Conserved, Numbered, DeliveredOk, ReadOk, ReadingAll, LinedUp;
    assert UserOk(s, u);
    assert multiset(s.log.consumed + s.updateQ)[u] == multiset(s.log.consumed)[u] + multiset(s.updateQ)[u];
  }

  // Directly after a read of its feed user u has read everything delivered.
  lemma {:induction false} AfterRead(s: State, e: Event, u: nat)
    requires Inv(s) && Enabled(s, e) && ReadsFeed(s, e, u) && u < |s.feeds|
    ensures var s' := Apply(s, e);
            && |s'.log.read[u]| == |s'.log.delivered[u]| == |s.log.delivered[u]|
            && AnnouncingAll(s'.net, u, s'.pushers) == AnnouncingAll(s.net, u, s.pushers)
  {
    hide JoinOk, ExitOk, Conserved, Numbered, QueueOk, DeliveredOk, AnnouncedOk, DrainOrder, AnnouncingAll, LinedUp;
    var s' := Apply(s, e);
    StepKeeps(s, e);
    assert UserOk(s', u);
    ReadBag(s', u);
    assert s'.feeds[u] == [];
    assert |multiset(s'.log.read[u]) + multiset(s'.feeds[u])| == |s'.log.read[u]|;
  }

  lemma {:induction false} ReadIffAsMany(s: State, u: nat)
    requires Inv(s) && u < |s.feeds|
    ensures |s.log.read| == |s.log.delivered| == |s.feeds|
    ensures multiset(s.log.read[u]) == multiset(s.log.delivered[u]) <==> |s.log.read[u]| == |s.log.delivered[u]|
  {
    hide JoinOk, ExitOk, Conserved, Numbered, QueueOk, DeliveredOk, AnnouncedOk, LinedUp;
    assert UserOk(s, u);
    ReadBag(s, u);
    var r, f := multiset(s.log.read[u]), multiset(s.feeds[u]);
    assert |r + f| == |r| + |f|;
    if |f| == 0 {
      assert f == multiset{};
    }
  }

  lemma {:induction false} SameUsersInRun(ss: seq<State>, es: seq<Event>, k: nat, i: nat)
    requires IsRun(ss, es) && k <= i < |ss|
    ensures |ss[i].feeds| == |ss[k].feeds| && |ss[i].log.read| == |ss[i].log.delivered| == |ss[i].feeds|
  {
    hide Init, Enabled, Apply, JoinOk, ExitOk, Conserved, Numbered, QueueOk, UserOk, LinedUp;
    RunKeeps(ss, es, i);
    if k < i {
      SameUsersInRun(ss, es, k, i - 1);
      RunKeeps(ss, es, i - 1);
      var s, e, s' := ss[i - 1], es[i - 1], ss[i];
      SameUsers(s, e);
    }
  }

  /** When all readers have left, user u has read everything that was delivered if and only if no pusher
      was between its notification to u and its push when the feed of u was read for the last time. */
  lemma {:induction false} AllReadIff(ss: seq<State>, es: seq<Event>, u: nat, t: nat, i: nat)
    requires IsRun(ss, es) && t < i < |ss| && u < |ss[i].feeds| == |ss[i].log.read| == |ss[i].log.delivered|
    requires AllReadersGone(ss[i]) && ReadsFeed(ss[t], es[t], u) && NotRead(ss, es, u, t + 1, i)
    ensures multiset(ss[i].log.read[u]) == multiset(ss[i].log.delivered[u]) <==> AnnouncingAll(ss[t].net, u, ss[t].pushers) == 0
  {
    hide Init, WellFormed, Enabled, Apply, Inv, ReadsFeed, NotRead, AllReadersGone, ActedOn, AnnouncingAll;
    SameUsersInRun(ss, es, t, i);
    SameUsersInRun(ss, es, t + 1, i);
    RunKeeps(ss, es, t);
    RunKeeps(ss, es, t + 1);
    RunKeeps(ss, es, i);
    InvWellFormed(ss[t]);
    var s, e, s' := ss[t], es[t], ss[t + 1];
    AfterRead(s, e, u);
    ActedOnAtMost(s', u);
    NotReadSame(ss, es, u, t + 1, i);
    AtTheEnd(ss[i], u);
    ReadIffAsMany(ss[i], u);
  }

  // A feed that was read was read for a last time.
  lemma {:induction false} LastRead(ss: seq<State>, es: seq<Event>, u: nat, k: nat, i: nat) returns (t: nat)
    requires |ss| == |es| + 1 && k <= i <= |es| && NotRead(ss, es, u, k, i) && !NotRead(ss, es, u, 0, i)
    ensures t < i && ReadsFeed(ss[t], es[t], u) && NotRead(ss, es, u, t + 1, i)
    decreases k
  {
    if ReadsFeed(ss[k - 1], es[k - 1], u) {
      t := k - 1;
    } else {
      t := LastRead(ss, es, u, k - 1, i);
    }
  }

  /** And a user whose feed was never read was delivered nothing. */
  lemma {:induction false} NeverReadIsEmpty(ss: seq<State>, es: seq<Event>, u: nat, i: nat)
    requires IsRun(ss, es) && i < |ss| && u < |ss[i].feeds| == |ss[i].log.delivered|
    requires AllReadersGone(ss[i]) && NotRead(ss, es, u, 0, i)
    ensures ss[i].log.delivered[u] == []
  {
    hide WellFormed, Enabled, Apply, Inv, ReadsFeed, NotRead, AllReadersGone;
    RunKeeps(ss, es, i);
    NotReadSame(ss, es, u, 0, i);
    AtTheEnd(ss[i], u);
    NoneReading(u, ss[0].readers);
  }
}
