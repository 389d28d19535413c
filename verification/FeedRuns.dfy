/** Whole runs of the feed pipeline, under every interleaving of any number of threads. */
module FeedRuns {
  import opened Tally
  import opened FeedProtocol
  import opened FeedSafety

  ghost predicate IsRun(ss: seq<State>, es: seq<Event>) {
    && |ss| == |es| + 1 && Init(ss[0])
    && forall i, j :: 0 <= i < |es| && j == i + 1 ==> Enabled(ss[i], es[i]) && (WellFormed(ss[i]) ==> ss[j] == Apply(ss[i], es[i]))
  }

  lemma {:induction false} RunKeeps(ss: seq<State>, es: seq<Event>, i: nat)
    requires IsRun(ss, es) && i < |ss|
    ensures Inv(ss[i])
  {
    hide Init, WellFormed, Enabled, JoinOk, ExitOk, Conserved, Numbered, QueueOk, UserOk, Apply, LinedUp;
    if i == 0 {
      InitInv(ss[0]);
    } else {
      RunKeeps(ss, es, i - 1);
      var before, e, after := ss[i - 1], es[i - 1], ss[i];
      StepKeeps(before, e);
    }
  }

  /** A run may go on with any step that is possible at its end. */
  lemma {:induction false} RunGoesOn(ss: seq<State>, es: seq<Event>, e: Event, s': State)
    requires IsRun(ss, es) && Enabled(ss[|es|], e) && (WellFormed(ss[|es|]) ==> s' == Apply(ss[|es|], e))
    ensures IsRun(ss + [s'], es + [e])
  {
    hide Init, WellFormed, Enabled, Apply;
    var longer, steps := ss + [s'], es + [e];
    assert longer[0] == ss[0];
    forall i | 0 <= i < |steps|
      ensures Enabled(longer[i], steps[i]) && (WellFormed(longer[i]) ==> longer[i + 1] == Apply(longer[i], steps[i]))
    {
      if i < |es| {
        var j := i + 1;
        assert longer[i] == ss[i] && longer[j] == ss[j] && steps[i] == es[i];
      }
    }
  }

  // ---------- one stage for each action ----------

  // How many times a is held by a pusher.
  ghost function Held(s: State, a: Action): nat { Bag(HeldBy, s.pushers)[a] }

  lemma {:induction false} OneStageNow(s: State, a: Action)
    requires Conserved(s) && Numbered(s)
    ensures multiset(s.pending)[a] + multiset(s.actionQ)[a] + Held(s, a) + multiset(s.log.done)[a] == (if a in s.log.generated then 1 else 0)
  {
    hide Bag, Counter;
    var m := multiset(s.log.generated);
    assert a in s.log.generated <==> a in m;
    assert m[a] == (multiset(s.pending) + multiset(s.actionQ) + Bag(HeldBy, s.pushers) + multiset(s.log.done))[a];
  }

  /** Main result 1. At every moment a generated action is in exactly one place, once: in the pending
      batch, in new_action_q, with one pusher, or done. Nothing else is anywhere. */
  lemma {:induction false} OneStage(ss: seq<State>, es: seq<Event>, i: nat, a: Action)
    requires IsRun(ss, es) && i < |ss|
    ensures var s := ss[i];
            multiset(s.pending)[a] + multiset(s.actionQ)[a] + Held(s, a) + multiset(s.log.done)[a] == (if a in s.log.generated then 1 else 0)
  {
    hide WellFormed, Conserved, Numbered, JoinOk, ExitOk, QueueOk, UserOk, IsRun, LinedUp;
    RunKeeps(ss, es, i);
    OneStageNow(ss[i], a);
  }

  // ---------- the order of actions ----------

  /** Every action carries the user who was being simulated: the batch is of one user. */
  lemma {:induction false} BatchIsOwn(ss: seq<State>, es: seq<Event>, i: nat)
    requires IsRun(ss, es) && i < |ss|
    ensures ss[i].sim.Building? ==> forall a :: a in ss[i].pending ==> a.user == ss[i].sim.user
    ensures ss[i].sim == Emitting ==> forall a, b :: a in ss[i].pending && b in ss[i].pending ==> a.user == b.user
    ensures !ss[i].sim.Building? && ss[i].sim != Emitting ==> ss[i].pending == []
  {
    hide WellFormed, Conserved, Numbered, JoinOk, ExitOk, QueueOk, UserOk, IsRun, IdsCount, InLine;
    RunKeeps(ss, es, i);
  }

  /** And it carries its number: how many actions of its user and kind there were before it, and one. */
  lemma {:induction false} NumberedInOrder(ss: seq<State>, es: seq<Event>, i: nat, k: nat)
    requires IsRun(ss, es) && i < |ss| && k < |ss[i].log.generated|
    ensures var all := ss[i].log.generated; all[k].id == CountOf(all[..k], all[k].user, all[k].kind) + 1
  {
    hide WellFormed, Conserved, Numbered, JoinOk, ExitOk, QueueOk, UserOk, IsRun, OwnBatch, InLine, CountOf;
    RunKeeps(ss, es, i);
    assert HasItsNumber(ss[i].log.generated, k);
  }

  /** Main result 7. Actions are popped from new_action_q in the order in which they were generated: the
      one that a pusher gets is the first that no pusher has got before. */
  lemma {:induction false} PoppedInOrder(ss: seq<State>, es: seq<Event>, i: nat)
    requires IsRun(ss, es) && i < |es| && (es[i].TakeAction? || es[i].WakePusher?) && ss[i + 1].actionQ != ss[i].actionQ
    ensures var s, s', p := ss[i], ss[i + 1], es[i].p;
            && 0 <= Popped(s) < |s.log.generated| && p < |s'.pushers| && s'.pushers[p] == Pushing(s.log.generated[Popped(s)], 0)
            && Popped(s') == Popped(s) + 1 && s'.log.generated == s.log.generated
  {
    hide WellFormed, Conserved, Numbered, JoinOk, ExitOk, QueueOk, UserOk, Init, DrainOrder, LinedUp;
    RunKeeps(ss, es, i);
    var s, e, j := ss[i], es[i], i + 1;
    assert ss[j] == Apply(s, e);
    PopLinesUp(s, e.p);
  }

  // ---------- exactly one delivery ----------

  // No neighbour is listed twice.
  ghost predicate Distinct(net: Net) {
    forall u, i, j :: 0 <= u < |net.neighbors| && 0 <= i < j < |net.neighbors[u]| ==> net.neighbors[u][i].id != net.neighbors[u][j].id
  }

  // User u, with this priority, is one of the first k neighbours of v.
  ghost predicate AmongFirst(net: Net, v: nat, k: nat, u: nat, prio: int) {
    exists i :: 0 <= i < k && i < Degree(net, v) && NeighborOf(net, v, i) == Neighbor(u, prio)
  }

  lemma {:induction false} SentWho(net: Net, u: nat, a: Action, k: nat, item: Item)
    requires item in Sent(net, u, a, k) && k <= Degree(net, a.user)
    ensures item.action == a && exists i :: 0 <= i < k && NeighborOf(net, a.user, i) == Neighbor(u, item.prio)
  {
    if item in Sent(net, u, a, k - 1) {
      SentWho(net, u, a, k - 1, item);
    } else {
      assert NeighborOf(net, a.user, k - 1) == Neighbor(u, item.prio);
    }
  }

  lemma {:induction false} SentOnce(net: Net, u: nat, a: Action, k: nat, prio: int)
    requires Distinct(net) && k <= Degree(net, a.user)
    ensures Sent(net, u, a, k)[Item(prio, a)] == (if AmongFirst(net, a.user, k, u, prio) then 1 else 0)
  {
    var item := Item(prio, a);
    if k > 0 {
      hide AmongFirst, Distinct;
      SentOnce(net, u, a, k - 1, prio);
      AmongNext(net, a.user, k, u, prio);
      if NeighborOf(net, a.user, k - 1).id == u {
        NotBefore(net, u, a, k - 1, item);
      }
    }
  }

  lemma {:induction false} AmongNext(net: Net, v: nat, k: nat, u: nat, prio: int)
    requires 0 < k <= Degree(net, v)
    ensures AmongFirst(net, v, k, u, prio) <==> AmongFirst(net, v, k - 1, u, prio) || NeighborOf(net, v, k - 1) == Neighbor(u, prio)
  {
  }

  lemma {:induction false} NotBefore(net: Net, u: nat, a: Action, k: nat, item: Item)
    requires Distinct(net) && k < Degree(net, a.user) && NeighborOf(net, a.user, k).id == u
    ensures item !in Sent(net, u, a, k)
  {
    hide Sent;
    if item in Sent(net, u, a, k) {
      SentWho(net, u, a, k, item);
    }
  }

  lemma {:induction false} SentDoneCount(net: Net, u: nat, done: seq<Action>, item: Item)
    requires multiset(done)[item.action] <= 1
    ensures SentDone(net, u, done)[item] == (if item.action in done then Sent(net, u, item.action, Degree(net, item.action.user))[item] else 0)
  {
    hide Sent;
    if done != [] {
      var k := |done| - 1;
      var last := done[k];
      assert done == done[..k] + [last];
      SentDoneCount(net, u, done[..k], item);
      if last != item.action && item in Sent(net, u, last, Degree(net, last.user)) {
        SentWho(net, u, last, Degree(net, last.user), item);
      }
    }
  }

  // What pushers that do not hold the action have sent does not contain it.
  lemma {:induction false} SentHeldNone(net: Net, u: nat, pcs: seq<PusherPc>, item: Item)
    requires Bag(HeldBy, pcs)[item.action] == 0
    requires forall p :: 0 <= p < |pcs| && (pcs[p].Pushing? || pcs[p].Notified?) ==> pcs[p].i <= Degree(net, pcs[p].action.user)
    ensures SentHeld(net, u, pcs)[item] == 0
  {
    hide Sent;
    if pcs != [] {
      var pc := pcs[|pcs| - 1];
      SentHeldNone(net, u, pcs[..|pcs| - 1], item);
      if item in SentBy(net, u, pc) {
        SentWho(net, u, pc.action, pc.i, item);
      }
    }
  }

  lemma {:induction false} SentHeldOne(net: Net, u: nat, pcs: seq<PusherPc>, p: nat, item: Item)
    requires Bag(HeldBy, pcs)[item.action] == 1 && p < |pcs| && item.action in HeldBy(pcs[p])
    requires forall q :: 0 <= q < |pcs| && (pcs[q].Pushing? || pcs[q].Notified?) ==> pcs[q].i <= Degree(net, pcs[q].action.user)
    ensures SentHeld(net, u, pcs)[item] == Sent(net, u, item.action, pcs[p].i)[item]
  {
    hide Sent, Bag, SentHeld;
    SentHeldUpdate(net, u, pcs, p, PTop);
    BagUpdate(HeldBy, pcs, p, PTop);
    SentHeldNone(net, u, pcs[p := PTop], item);
  }

  // How many neighbours have been served with action a.
  ghost predicate Served(s: State, a: Action, k: nat) {
    || (a in s.log.done && k == Degree(s.net, a.user))
    || (exists p :: 0 <= p < |s.pushers| && a in HeldBy(s.pushers[p]) && k == s.pushers[p].i)
    || (a !in s.log.done && (forall p :: 0 <= p < |s.pushers| ==> a !in HeldBy(s.pushers[p])) && k == 0)
  }

  lemma {:induction false} ServedAtMost(s: State, a: Action, k: nat)
    requires WellFormed(s) && Served(s, a, k)
    ensures k <= Degree(s.net, a.user)
  {
  }

  lemma {:induction false} DeliveredCount(s: State, a: Action, k: nat, u: nat, prio: int)
    requires WellFormed(s) && Conserved(s) && Numbered(s) && u < |s.feeds| && DeliveredOk(s, u) && Served(s, a, k)
    ensures multiset(s.log.delivered[u])[Item(prio, a)] == Sent(s.net, u, a, k)[Item(prio, a)]
  {
    hide SentDone, SentHeld, Bag, Conserved, Numbered, LinedUp;
    var item := Item(prio, a);
    OneStageNow(s, a);
    SentDoneCount(s.net, u, s.log.done, item);
    BagHas(HeldBy, s.pushers, a);
    if a in Bag(HeldBy, s.pushers) {
      var p :| 0 <= p < |s.pushers| && a in HeldBy(s.pushers[p]) && k == s.pushers[p].i;
      SentHeldOne(s.net, u, s.pushers, p, item);
    } else {
      SentHeldNone(s.net, u, s.pushers, item);
    }
  }

  /** Main result 2. When a has been served to k neighbours of its user (all of them once a is done, as
      many as the loop has passed while a pusher holds it, none before), then exactly those have got it,
      each exactly once, with the priority of that edge; read and unread entries together. */
  lemma {:induction false} DeliveredOnce(ss: seq<State>, es: seq<Event>, i: nat, a: Action, k: nat, u: nat, prio: int)
    requires IsRun(ss, es) && i < |ss| && u < |ss[i].feeds| == |ss[i].log.read|
    requires Distinct(ss[i].net) && Served(ss[i], a, k)
    ensures (multiset(ss[i].log.read[u]) + multiset(ss[i].feeds[u]))[Item(prio, a)] == (if AmongFirst(ss[i].net, a.user, k, u, prio) then 1 else 0)
  {
    hide Inv, IsRun, Served, AmongFirst, Distinct;
    RunKeeps(ss, es, i);
    DeliveredNow(ss[i], a, k, u, prio);
  }

  lemma {:induction false} DeliveredNow(s: State, a: Action, k: nat, u: nat, prio: int)
    requires Inv(s) && u < |s.feeds| == |s.log.read| && Distinct(s.net) && Served(s, a, k)
    ensures (multiset(s.log.read[u]) + multiset(s.feeds[u]))[Item(prio, a)] == (if AmongFirst(s.net, a.user, k, u, prio) then 1 else 0)
  {
    hide Conserved, Numbered, JoinOk, ExitOk, QueueOk, DeliveredOk, AnnouncedOk, Served, AmongFirst, Distinct, WellFormed, Sent, LinedUp;
    assert UserOk(s, u);
    DeliveredCount(s, a, k, u, prio);
    ServedAtMost(s, a, k);
    SentOnce(s.net, u, a, k, prio);
    ReadBag(s, u);
  }

  lemma {:induction false} ReadBag(s: State, u: nat)
    requires ReadOk(s, u)
    ensures multiset(s.log.read[u]) + multiset(s.feeds[u]) == multiset(s.log.delivered[u])
  {
    if s.net.chrono[u] {
      assert multiset(s.log.read[u] + s.feeds[u]) == multiset(s.log.delivered[u]);
    }
  }

  /** The same for graphs that list neighbours more than once: user u has got, entry by entry, what the
      finished pushes owe it and what the running ones owe it so far. */
  lemma {:induction false} DeliveredExactly(ss: seq<State>, es: seq<Event>, i: nat, u: nat)
    requires IsRun(ss, es) && i < |ss| && u < |ss[i].feeds| == |ss[i].log.read|
    ensures multiset(ss[i].log.read[u]) + multiset(ss[i].feeds[u])
         == SentDone(ss[i].net, u, ss[i].log.done) + SentHeld(ss[i].net, u, ss[i].pushers)
  {
    hide Conserved, Numbered, JoinOk, ExitOk, QueueOk, IsRun, AnnouncedOk, WellFormed, SentDone, SentHeld, LinedUp;
    RunKeeps(ss, es, i);
    assert UserOk(ss[i], u);
    ReadBag(ss[i], u);
  }

  // Every action has some number of neighbours served, so main result 2 speaks about all of them.
  lemma {:induction false} SomeServed(s: State, a: Action) returns (k: nat)
    ensures Served(s, a, k)
  {
    if a in s.log.done {
      k := Degree(s.net, a.user);
    } else if p :| 0 <= p < |s.pushers| && a in HeldBy(s.pushers[p]) {
      k := s.pushers[p].i;
    } else {
      k := 0;
    }
  }

  /** No entry comes twice to anybody, at any time, and whoever has it is a neighbour of the action's
      user with that priority. */
  lemma {:induction false} NeverTwice(ss: seq<State>, es: seq<Event>, i: nat, u: nat, item: Item)
    requires IsRun(ss, es) && i < |ss| && u < |ss[i].feeds| == |ss[i].log.read| && Distinct(ss[i].net)
    ensures (multiset(ss[i].log.read[u]) + multiset(ss[i].feeds[u]))[item] <= 1
    ensures item in multiset(ss[i].log.read[u]) + multiset(ss[i].feeds[u])
            ==> AmongFirst(ss[i].net, item.action.user, Degree(ss[i].net, item.action.user), u, item.prio)
  {
    hide IsRun, Served, Distinct;
    var k := SomeServed(ss[i], item.action);
    DeliveredOnce(ss, es, i, item.action, k, u, item.prio);
    assert Item(item.prio, item.action) == item;
  }

  /** Main result 3. The reads of a chronological feed are the first deliveries in the order they were
      made; those of a feed ordered by priority are among the deliveries. */
  lemma {:induction false} ReadInOrder(ss: seq<State>, es: seq<Event>, i: nat, u: nat)
    requires IsRun(ss, es) && i < |ss| && u < |ss[i].feeds|
    requires |ss[i].feeds| == |ss[i].log.read| == |ss[i].log.delivered| == |ss[i].net.chrono|
    ensures ss[i].net.chrono[u] ==> ss[i].log.read[u] <= ss[i].log.delivered[u]
    ensures multiset(ss[i].log.read[u]) <= multiset(ss[i].log.delivered[u])
  {
    hide Conserved, Numbered, JoinOk, ExitOk, QueueOk, IsRun, DeliveredOk, AnnouncedOk, WellFormed, LinedUp;
    RunKeeps(ss, es, i);
    assert UserOk(ss[i], u);
    ReadBag(ss[i], u);
  }

  // ---------- shutting down ----------

  lemma {:induction false} JoinCountsNow(s: State)
    requires JoinOk(s)
    ensures s.joinCount == (if s.sim == SimGone then 1 else 0) + Total(IsGone, s.pushers) + s.joined
    ensures s.joinCount >= 1 + |s.pushers| <==> s.sim == SimGone && AllPushersGone(s)
  {
    hide Total;
    GoneAre(s);
  }

  /** Main result 4. thread_to_join is the number of threads that are done; so the test by which readers
      leave passes exactly when the simulator and all pushers are done. */
  lemma {:induction false} JoinCounts(ss: seq<State>, es: seq<Event>, i: nat)
    requires IsRun(ss, es) && i < |ss|
    ensures ss[i].joinCount == (if ss[i].sim == SimGone then 1 else 0) + Total(IsGone, ss[i].pushers) + ss[i].joined
    ensures ss[i].joinCount >= 1 + |ss[i].pushers| <==> ss[i].sim == SimGone && AllPushersGone(ss[i])
  {
    hide Conserved, Numbered, ExitOk, QueueOk, IsRun, UserOk, WellFormed, JoinOk, Total, LinedUp;
    RunKeeps(ss, es, i);
    JoinCountsNow(ss[i]);
  }

  /** What a step cannot undo once a reader has left. */
  lemma {:induction false} ExitStays(s: State, e: Event)
    requires WellFormed(s) && Enabled(s, e) && ExitOk(s) && RGone in s.readers
    ensures RGone in Apply(s, e).readers && Apply(s, e).log.notified == s.log.notified
  {
    hide WellFormed, DrainOrder;
    var s' := Apply(s, e);
    var r :| 0 <= r < |s.readers| && s.readers[r] == RGone;
    assert s'.readers[r] == RGone;
  }

  /** Main result 5. When one reader has left, all who notify have left for good, nothing is queued,
      nothing will be queued at any later time, and every notification ever made has been taken by
      some reader. */
  lemma {:induction false} ExitIsSafe(ss: seq<State>, es: seq<Event>, i: nat, j: nat)
    requires IsRun(ss, es) && i <= j < |ss| && RGone in ss[i].readers
    ensures RGone in ss[j].readers && AllPushersGone(ss[j]) && ss[j].updateQ == []
    ensures ss[j].log.notified == ss[i].log.notified == ss[j].log.consumed
    decreases j
  {
    hide Conserved, Numbered, JoinOk, UserOk, WellFormed, Init, Enabled, Apply, AllPushersGone, LinedUp;
    RunKeeps(ss, es, j);
    if i < j {
      ExitIsSafe(ss, es, i, j - 1);
      RunKeeps(ss, es, j - 1);
      hide ExitOk, QueueOk;
      ExitStays(ss[j - 1], es[j - 1]);
    }
    TakenAll(ss[j]);
  }

  lemma {:induction false} TakenAll(s: State)
    requires ExitOk(s) && QueueOk(s) && RGone in s.readers
    ensures AllPushersGone(s) && s.updateQ == [] && s.log.notified == s.log.consumed
  {
    assert s.log.consumed + [] == s.log.consumed;
  }

  lemma {:induction false} NoneAnnouncing(net: Net, u: nat, pcs: seq<PusherPc>)
    requires forall p :: 0 <= p < |pcs| ==> !pcs[p].Notified?
    ensures AnnouncingAll(net, u, pcs) == 0
  {
    if pcs != [] {
      NoneAnnouncing(net, u, pcs[..|pcs| - 1]);
    }
  }

  /** Main result 6. Deliveries to a user never outnumber the notifications made for that user, and when
      a reader has left, as many notifications for the user have been taken as items were delivered. */
  lemma {:induction false} DeliveriesAnnounced(ss: seq<State>, es: seq<Event>, i: nat, u: nat)
    requires IsRun(ss, es) && i < |ss| && u < |ss[i].feeds| == |ss[i].log.delivered|
    ensures |ss[i].log.delivered[u]| <= multiset(ss[i].log.notified)[u]
    ensures RGone in ss[i].readers ==> multiset(ss[i].log.consumed)[u] == |ss[i].log.delivered[u]|
  {
    hide Conserved, Numbered, JoinOk, IsRun, DeliveredOk, ReadOk, WellFormed, LinedUp;
    RunKeeps(ss, es, i);
    var s := ss[i];
    assert UserOk(s, u);
    if RGone in s.readers {
      TakenAll(s);
      NoneAnnouncing(s.net, u, s.pushers);
    }
  }
}
