/** What a thread of the feed pipeline may rely on after one of its steps. */
module FeedFacts {
  import opened Tally
  import opened FeedProtocol
  import opened FeedSafety
  import opened FeedRuns

  // Pusher p has action a in hand, and it is nowhere else.
  ghost predicate HeldAlone(s: State, p: nat, a: Action) {
    && p < |s.pushers| && a in HeldBy(s.pushers[p])
    && a in s.log.generated && a !in s.pending && a !in s.actionQ && a !in s.log.done
    && forall q :: 0 <= q < |s.pushers| && q != p ==> a !in HeldBy(s.pushers[q])
  }

  // User u has the entry once if the user's neighbour list says so, and not at all otherwise.
  ghost predicate HasIfNeighbor(s: State, a: Action, u: nat, prio: int) {
    && u < |s.feeds| && u < |s.log.read|
    && (multiset(s.log.read[u]) + multiset(s.feeds[u]))[Item(prio, a)]
       == (if AmongFirst(s.net, a.user, Degree(s.net, a.user), u, prio) then 1 else 0)
  }

  // All neighbours of its user have got a, each once, and nobody else has.
  ghost predicate ReachedAll(s: State, a: Action) {
    forall u, prio :: 0 <= u < |s.feeds| ==> HasIfNeighbor(s, a, u, prio)
  }

  // Whatever was delivered to user u has been read, by now, and in order if the feed is chronological.
  ghost predicate ReadUp(s: State, u: nat) {
    && u < |s.log.read| && u < |s.log.delivered| && u < |s.net.chrono|
    && multiset(s.log.read[u]) == multiset(s.log.delivered[u]) && (s.net.chrono[u] ==> s.log.read[u] == s.log.delivered[u])
  }

  // How many threads are done: the simulator, pushers, and readers joined by main.
  ghost function ThreadsDone(s: State): nat {
    (if s.sim == SimGone then 1 else 0) + Total(IsGone, s.pushers) + s.joined
  }

  /** An action in a pusher's hands is in no queue, not done, and with no other pusher. */
  lemma {:induction false} HoldsAlone(s: State, p: nat, a: Action)
    requires Inv(s) && p < |s.pushers| && a in HeldBy(s.pushers[p])
    ensures HeldAlone(s, p, a)
  {
    hide WellFormed, JoinOk, ExitOk, QueueOk, UserOk, Conserved, Numbered, Bag, HeldBy, LinedUp;
    OneStageNow(s, a);
    BagHas(HeldBy, s.pushers, a);
    assert a in s.pending <==> a in multiset(s.pending);
    assert a in s.actionQ <==> a in multiset(s.actionQ);
    assert a in s.log.done <==> a in multiset(s.log.done);
    forall q | 0 <= q < |s.pushers| && q != p ensures a !in HeldBy(s.pushers[q]) {
      if a in HeldBy(s.pushers[q]) {
        BagTwice(HeldBy, s.pushers, if p < q then p else q, if p < q then q else p, a);
      }
    }
  }

  /** An action is finished once, and when it is, every neighbour of its user has got it. */
  lemma {:induction false} DoneReachedAll(s: State, a: Action)
    requires Inv(s) && a in s.log.done
    ensures multiset(s.log.done)[a] == 1
    ensures Distinct(s.net) ==> ReachedAll(s, a)
  {
    hide JoinOk, ExitOk, QueueOk, UserOk, Conserved, Numbered, Bag, HeldBy, AmongFirst, Distinct, LinedUp;
    OneStageNow(s, a);
    if Distinct(s.net) {
      assert Served(s, a, Degree(s.net, a.user));
      forall u, prio | 0 <= u < |s.feeds| ensures HasIfNeighbor(s, a, u, prio) {
        hide WellFormed, Inv, Served;
        FeedsFit(s);
        DeliveredNow(s, a, Degree(s.net, a.user), u, prio);
      }
    }
  }

  lemma {:induction false} FeedsFit(s: State)
    requires Inv(s)
    ensures |s.feeds| == |s.log.read| == |s.log.delivered| == |s.net.chrono|
  {
    hide JoinOk, ExitOk, QueueOk, UserOk, Conserved, Numbered, LinedUp;
  }

  /** A generated action is like none before it. */
  lemma {:induction false} IsNew(s: State, before: seq<Action>, a: Action)
    requires Inv(s) && s.log.generated == before + [a]
    ensures a !in before
  {
    hide WellFormed, JoinOk, ExitOk, QueueOk, UserOk, Conserved, Counter, LinedUp;
    assert multiset(s.log.generated)[a] <= 1;
    assert multiset(s.log.generated)[a] == multiset(before)[a] + 1;
  }

  /** A user whose feed is empty has read all there was. */
  lemma {:induction false} EmptyMeansReadUp(s: State, u: nat)
    requires Inv(s) && u < |s.feeds| && s.feeds[u] == []
    ensures ReadUp(s, u)
  {
    hide WellFormed, JoinOk, ExitOk, QueueOk, Conserved, Numbered, DeliveredOk, AnnouncedOk, LinedUp;
    assert UserOk(s, u);
    assert s.log.read[u] + [] == s.log.read[u];
  }

  lemma {:induction false} CountsThreads(s: State)
    requires Inv(s)
    ensures s.joinCount == ThreadsDone(s)
    ensures s.joinCount >= 1 <==> s.sim == SimGone
    ensures s.joinCount >= 1 + |s.pushers| <==> s.sim == SimGone && AllPushersGone(s)
  {
    hide WellFormed, ExitOk, QueueOk, Conserved, Numbered, UserOk, Total, LinedUp;
    JoinCountsNow(s);
    GoneIsExiting(s.pushers);
  }

  /** A reader that has left can miss nothing. */
  lemma {:induction false} GoneTookAll(s: State)
    requires Inv(s) && RGone in s.readers
    ensures AllPushersGone(s) && s.updateQ == [] && s.log.notified == s.log.consumed
  {
    hide WellFormed, JoinOk, Conserved, Numbered, UserOk, ExitOk, QueueOk, AllPushersGone, LinedUp;
    TakenAll(s);
  }

  /** Nobody is done before the simulator. */
  lemma {:induction false} SimulatorFirst(s: State)
    requires Inv(s) && s.sim.SimLoaded?
    ensures s.sim.v == 0
  {
    hide WellFormed, ExitOk, QueueOk, Conserved, Numbered, UserOk, Total, LinedUp;
    GoneIsExiting(s.pushers);
  }

  lemma {:induction false} AllDone(s: State)
    requires s.sim == SimGone && AllPushersGone(s)
    ensures ThreadsDone(s) == 1 + |s.pushers| + s.joined
  {
    hide Total;
    GoneAre(s);
  }

  lemma {:induction false} CountersCount(s: State, user: nat, kind: nat)
    requires Inv(s)
    ensures Counter(s, user, kind) == CountOf(s.log.generated, user, kind)
  {
    hide WellFormed, JoinOk, ExitOk, QueueOk, Conserved, Numbered, UserOk, Counter, CountOf;
  }

  // Of all generated actions a is the first that has not been popped.
  ghost predicate IsNext(s: State, a: Action) {
    0 <= Popped(s) < |s.log.generated| && a == s.log.generated[Popped(s)]
  }

  /** The queue gives the actions in the order in which they were generated. */
  lemma {:induction false} FrontIsNext(s: State, p: nat)
    requires Inv(s) && p < |s.pushers|
    ensures s.actionQ != [] ==> IsNext(s, s.actionQ[0])
  {
    hide WellFormed, JoinOk, ExitOk, QueueOk, Conserved, Numbered, UserOk, LinedUp;
    PopLinesUp(s, p);
  }
}
