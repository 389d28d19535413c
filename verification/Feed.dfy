/** The critical sections of sns.cpp as methods on the shared variables. Each does what the step of
    the same name in FeedProtocol says and keeps the invariant; where the thread relies on something
    afterwards, the contract says what. */
module Feed {
  import opened FeedProtocol
  import opened FeedSafety
  import opened FeedRuns
  import opened FeedFacts

  const NO_LOG := Log([], [], [], [], [], [])

  class Shared {
    const net: Net
    var sim: SimPc
    var counters: map<(nat, nat), nat>
    var pending: seq<Action>
    var actionQ: seq<Action>
    var pushers: seq<PusherPc>
    var updateQ: seq<nat>
    var locked: bool
    var feeds: seq<seq<Item>>
    var readers: seq<ReaderPc>
    var threadToJoin: nat
    var joined: nat
    ghost var log: Log

    /** main: the graph as it was read, and so many pushers and readers. */
    constructor (graph: Net, numPushers: nat, numReaders: nat)
      requires |graph.neighbors| == |graph.chrono|
      requires forall u, e :: 0 <= u < |graph.neighbors| && e in graph.neighbors[u] ==> e.id < |graph.neighbors|
      ensures net == graph && |pushers| == numPushers && |readers| == numReaders
      ensures Init(State()) && Inv(State())
    {
      net := graph;
      sim, counters, pending, actionQ, updateQ, locked := Choosing, map[], [], [], [], false;
      pushers := seq(numPushers, i => PTop);
      readers := seq(numReaders, i => RTop);
      feeds := seq(|graph.neighbors|, i => []);
      threadToJoin, joined := 0, 0;
      log := Log([], [], seq(|graph.neighbors|, i => []), seq(|graph.neighbors|, i => []), [], []);
      new;
      hide Inv;
      InitInv(State());
    }

    // What the program has in memory.
    function View(): State
      reads this
    {
      FeedProtocol.State(net, sim, counters, pending, actionQ, pushers, updateQ, locked, feeds, readers, threadToJoin, joined, NO_LOG)
    }

    ghost function State(): State
      reads this
    {
      View().(log := log)
    }

    // Ready for step e.
    ghost predicate Can(e: Event)
      reads this
    {
      Inv(State()) && WellFormed(State()) && Enabled(State(), e)
    }

    method ChooseUser(u: nat)
      requires Can(Event.ChooseUser(u))
      modifies this`sim
      ensures State() == Apply(old(State()), Event.ChooseUser(u)) && Inv(State())
    {
      hide Inv, WellFormed;
      StepKeeps(State(), Event.ChooseUser(u));
      sim := Building(u);
    }

    /** One more action of the user being simulated, with the next number of its user and kind, different
        from all before. */
    method Generate(kind: nat, time: int) returns (a: Action)
      requires Can(Event.Generate(kind, time))
      modifies this`counters, this`pending, this`log
      ensures State() == Apply(old(State()), Event.Generate(kind, time)) && Inv(State())
      ensures old(sim).Building? && a.user == old(sim).user && a.kind == kind && a.time == time
      ensures a.id == CountOf(old(log.generated), a.user, kind) + 1
      ensures pending == old(pending) + [a] && log.generated == old(log.generated) + [a] && a !in old(log.generated)
    {
      hide Inv, WellFormed;
      StepKeeps(State(), Event.Generate(kind, time));
      ghost var before := log.generated;
      CountersCount(State(), sim.user, kind);
      var u := sim.user;
      var n := if (u, kind) in counters then counters[(u, kind)] else 0;
      counters := counters[(u, kind) := n + 1];
      a := Action(u, kind, n + 1, time);
      pending := pending + [a];
      log := log.(generated := log.generated + [a]);
      IsNew(State(), before, a);
    }

    method StopBuilding()
      requires Can(Event.StopBuilding)
      modifies this`sim
      ensures State() == Apply(old(State()), Event.StopBuilding) && Inv(State())
    {
      hide Inv, WellFormed;
      StepKeeps(State(), Event.StopBuilding);
      sim := Emitting;
    }

    method Emit()
      requires Can(Event.Emit)
      modifies this`sim, this`pending, this`actionQ
      ensures State() == Apply(old(State()), Event.Emit) && Inv(State())
    {
      hide Inv, WellFormed;
      StepKeeps(State(), Event.Emit);
      if pending == [] {
        sim := Choosing;
      } else {
        actionQ := actionQ + [pending[0]];
        pending := pending[1..];
      }
    }

    method SimLoad() returns (v: nat)
      requires Can(Event.SimLoad)
      modifies this`sim
      ensures State() == Apply(old(State()), Event.SimLoad) && Inv(State()) && v == threadToJoin
    {
      hide Inv, WellFormed;
      StepKeeps(State(), Event.SimLoad);
      v := threadToJoin;
      sim := SimLoaded(v);
    }

    method SimStore()
      requires Can(Event.SimStore)
      modifies this`sim, this`threadToJoin
      ensures State() == Apply(old(State()), Event.SimStore) && Inv(State())
      ensures threadToJoin == ThreadsDone(State()) == 1
    {
      hide Inv, WellFormed, ThreadsDone;
      StepKeeps(State(), Event.SimStore);
      SimulatorFirst(State());
      threadToJoin := sim.v + 1;
      sim := SimGone;
      CountsThreads(State());
    }

    /** Pop an action, which then nobody else has, or wait on action_q_cond. */
    method TakeAction(p: nat)
      requires Can(Event.TakeAction(p))
      modifies this`actionQ, this`pushers
      ensures State() == Apply(old(State()), Event.TakeAction(p)) && Inv(State())
      ensures old(actionQ) != [] ==> HeldAlone(State(), p, old(actionQ[0])) && IsNext(old(State()), old(actionQ[0]))
    {
      hide Inv, WellFormed, HeldAlone, IsNext;
      StepKeeps(State(), Event.TakeAction(p));
      FrontIsNext(State(), p);
      if actionQ == [] {
        pushers := pushers[p := PWait];
      } else {
        ghost var a := actionQ[0];
        pushers := pushers[p := Pushing(actionQ[0], 0)];
        actionQ := actionQ[1..];
        HoldsAlone(State(), p, a);
      }
    }

    /** Back from waiting: leave if and only if the simulator has left, even with actions still queued. */
    method WakePusher(p: nat)
      requires Can(Event.WakePusher(p))
      modifies this`actionQ, this`pushers
      ensures State() == Apply(old(State()), Event.WakePusher(p)) && Inv(State())
      ensures p < |pushers| && (pushers[p] == PLeaving <==> sim == SimGone)
      ensures sim != SimGone && old(actionQ) != [] ==> HeldAlone(State(), p, old(actionQ[0])) && IsNext(old(State()), old(actionQ[0]))
    {
      hide Inv, WellFormed, HeldAlone, IsNext, ThreadsDone;
      StepKeeps(State(), Event.WakePusher(p));
      FrontIsNext(State(), p);
      CountsThreads(State());
      if threadToJoin >= 1 {
        pushers := pushers[p := PLeaving];
      } else if actionQ == [] {
        pushers := pushers[p := PWait];
      } else {
        ghost var a := actionQ[0];
        pushers := pushers[p := Pushing(actionQ[0], 0)];
        actionQ := actionQ[1..];
        HoldsAlone(State(), p, a);
      }
    }

    method Notify(p: nat)
      requires Can(Event.Notify(p))
      modifies this`updateQ, this`pushers, this`log
      ensures State() == Apply(old(State()), Event.Notify(p)) && Inv(State())
    {
      hide Inv;
      StepKeeps(State(), Event.Notify(p));
      var pc := pushers[p];
      var to := net.neighbors[pc.action.user][pc.i];
      updateQ := updateQ + [to.id];
      log := log.(notified := log.notified + [to.id]);
      pushers := pushers[p := Notified(pc.action, pc.i)];
    }

    method Deliver(p: nat)
      requires Can(Event.Deliver(p))
      modifies this`feeds, this`pushers, this`log
      ensures State() == Apply(old(State()), Event.Deliver(p)) && Inv(State())
    {
      hide Inv;
      StepKeeps(State(), Event.Deliver(p));
      var pc := pushers[p];
      var to := net.neighbors[pc.action.user][pc.i];
      assert to in net.neighbors[pc.action.user];
      var item := Item(to.prio, pc.action);
      feeds := feeds[to.id := feeds[to.id] + [item]];
      log := log.(delivered := log.delivered[to.id := log.delivered[to.id] + [item]]);
      pushers := pushers[p := Pushing(pc.action, pc.i + 1)];
    }

    /** The loop over the neighbours is through: the action is done, for the only time, and each
        neighbour has got it once, everybody else not at all. */
    method Finish(p: nat)
      requires Can(Event.Finish(p))
      modifies this`pushers, this`log
      ensures State() == Apply(old(State()), Event.Finish(p)) && Inv(State())
      ensures exists a :: log.done == old(log.done) + [a] && multiset(log.done)[a] == 1 && (Distinct(net) ==> ReachedAll(State(), a))
    {
      hide Inv, WellFormed, Distinct, ReachedAll;
      StepKeeps(State(), Event.Finish(p));
      ghost var a := pushers[p].action;
      log := log.(done := log.done + [a]);
      pushers := pushers[p := PTop];
      DoneReachedAll(State(), a);
    }

    method PusherLoad(p: nat) returns (v: nat)
      requires Can(Event.PusherLoad(p))
      modifies this`locked, this`pushers
      ensures State() == Apply(old(State()), Event.PusherLoad(p)) && Inv(State()) && v == threadToJoin
    {
      hide Inv, WellFormed;
      StepKeeps(State(), Event.PusherLoad(p));
      locked := true;
      v := threadToJoin;
      pushers := pushers[p := PLoaded(v)];
    }

    /** The value read some time ago plus one is the number of threads that are done. */
    method PusherStore(p: nat)
      requires Can(Event.PusherStore(p))
      modifies this`locked, this`pushers, this`threadToJoin
      ensures State() == Apply(old(State()), Event.PusherStore(p)) && Inv(State())
      ensures threadToJoin == ThreadsDone(State()) && sim == SimGone
    {
      hide Inv, WellFormed, ThreadsDone;
      StepKeeps(State(), Event.PusherStore(p));
      threadToJoin := pushers[p].v + 1;
      locked := false;
      pushers := pushers[p := PGone];
      CountsThreads(State());
    }

    // Pop a notification, or wait on feed_update_q_cond.
    method PopOrWait(r: nat)
      requires r < |readers|
      modifies this`updateQ, this`readers, this`log
      ensures State() == PopUpdate(old(State()), r)
    {
      if updateQ == [] {
        readers := readers[r := RWait];
      } else {
        var u := updateQ[0];
        updateQ := updateQ[1..];
        log := log.(consumed := log.consumed + [u]);
        readers := readers[r := Reading(u)];
      }
    }

    method TakeUpdate(r: nat)
      requires Can(Event.TakeUpdate(r))
      modifies this`updateQ, this`readers, this`log
      ensures State() == Apply(old(State()), Event.TakeUpdate(r)) && Inv(State())
    {
      hide Inv, WellFormed;
      StepKeeps(State(), Event.TakeUpdate(r));
      PopOrWait(r);
    }

    /** Back from waiting: leave if and only if simulator and pushers are done and nothing is queued; then
        every notification there was has been taken. */
    method WakeReader(r: nat)
      requires Can(Event.WakeReader(r))
      modifies this`updateQ, this`readers, this`log
      ensures State() == Apply(old(State()), Event.WakeReader(r)) && Inv(State())
      ensures r < |readers| && (readers[r] == RGone <==> sim == SimGone && AllPushersGone(State()) && old(updateQ) == [])
      ensures readers[r] == RGone ==> log.notified == log.consumed
    {
      hide Inv, WellFormed, ThreadsDone;
      StepKeeps(State(), Event.WakeReader(r));
      CountsThreads(State());
      if threadToJoin >= 1 + |pushers| && updateQ == [] {
        readers := readers[r := RGone];
        assert readers[r] == RGone;
        GoneTookAll(State());
      } else {
        PopOrWait(r);
      }
    }

    /** Read the whole feed of the user the notification was about; nothing delivered before is unread
        then. */
    method Drain(r: nat) returns (out: seq<Item>)
      requires Inv(State()) && WellFormed(State()) && r < |readers| && readers[r].Reading?
      modifies this`feeds, this`readers, this`log
      ensures old(Can(Event.Drain(r, out))) && State() == Apply(old(State()), Event.Drain(r, out)) && Inv(State())
      ensures ReadUp(State(), old(readers[r].user))
    {
      hide Inv, ReadUp;
      var u := readers[r].user;
      if net.chrono[u] {
        out := InOrder(feeds[u]);
      } else {
        out := ByPriority(feeds[u]);
      }
      StepKeeps(State(), Event.Drain(r, out));
      feeds := feeds[u := []];
      log := log.(read := log.read[u := log.read[u] + out]);
      readers := readers[r := RTop];
      EmptyMeansReadUp(State(), u);
    }

    /** main has joined one more reader. */
    method JoinReader()
      requires Can(Event.JoinReader)
      modifies this`threadToJoin, this`joined
      ensures State() == Apply(old(State()), Event.JoinReader) && Inv(State())
      ensures threadToJoin == ThreadsDone(State()) == 1 + |pushers| + joined
    {
      hide Inv, WellFormed, ThreadsDone;
      StepKeeps(State(), Event.JoinReader);
      threadToJoin := threadToJoin + 1;
      joined := joined + 1;
      CountsThreads(State());
      AllDone(State());
    }

    /** Whichever thread is next, except that a reader reads its feed in some admissible order. */
    method Do(e: Event)
      requires Can(e) && !e.Drain?
      modifies this
      ensures State() == Apply(old(State()), e) && Inv(State())
    {
      hide Inv, WellFormed, Enabled, Apply;
      match e
      case ChooseUser(u) => ChooseUser(u);
      case Generate(kind, time) => var _ := Generate(kind, time);
      case StopBuilding => StopBuilding();
      case Emit => Emit();
      case SimLoad => var _ := SimLoad();
      case SimStore => SimStore();
      case TakeAction(p) => TakeAction(p);
      case WakePusher(p) => WakePusher(p);
      case Notify(p) => Notify(p);
      case Deliver(p) => Deliver(p);
      case Finish(p) => Finish(p);
      case PusherLoad(p) => var _ := PusherLoad(p);
      case PusherStore(p) => PusherStore(p);
      case TakeUpdate(r) => TakeUpdate(r);
      case WakeReader(r) => WakeReader(r);
      case JoinReader => JoinReader();
    }

    /** The threads, in any order the scheduler likes: steps that are not possible at their turn are
        passed over. What has happened is a run of the protocol, of which the main results speak. */
    method Run(es: seq<Event>) returns (ghost ss: seq<State>, ghost done: seq<Event>)
      requires Init(State())
      modifies this
      ensures IsRun(ss, done) && ss[0] == old(State()) && ss[|done|] == State() && Inv(State())
      ensures Played(ss, done, es)
    {
      hide Init, Inv, WellFormed, Enabled, Apply, Possible, Alike, Played;
      InitInv(State());
      ss, done := [State()], [];
      NothingPlayed(ss);
      for i := 0 to |es|
        invariant IsRun(ss, done) && ss[0] == old(State()) && ss[|done|] == State() && Inv(State())
        invariant Played(ss, done, es[..i])
      {
        assert es[..i + 1] == es[..i] + [es[i]];
        ghost var step := TakeTurn(es[i]);
        if step == [] {
          PassedOver(ss, done, es[..i], es[i]);
        } else {
          assert step == [step[0]];
          RunGoesOn(ss, done, step[0], State());
          PlayedOn(ss, done, es[..i], es[i], step[0], State());
          ss, done := ss + [State()], done + step;
        }
      }
      assert es[..|es|] == es;
    }

    // Event e if it is possible now; a reader finds its own order of reading.
    method TakeTurn(e: Event) returns (ghost step: seq<Event>)
      requires Inv(State())
      modifies this
      ensures Inv(State()) && WellFormed(old(State()))
      ensures if step == [] then State() == old(State()) && !Possible(State(), e)
              else |step| == 1 && Alike(e, step[0]) && Enabled(old(State()), step[0]) && State() == Apply(old(State()), step[0])
    {
      hide Inv, WellFormed, Enabled, Apply;
      InvWellFormed(State());
      step := [];
      if e.Drain? {
        if e.r < |readers| && readers[e.r].Reading? {
          var out := Drain(e.r);
          step := [Event.Drain(e.r, out)];
        } else {
          NothingToDrain(State(), e);
        }
      } else {
        SameGuards(View(), State(), e);
        if Enabled(View(), e) {
          Do(e);
          step := [e];
        }
      }
    }
  }

  // The same step, but for the order in which a reader empties a feed.
  ghost predicate Alike(e: Event, f: Event) {
    e == f || (e.Drain? && f.Drain? && e.r == f.r)
  }

  ghost predicate Possible(s: State, e: Event) {
    exists f :: Alike(e, f) && Enabled(s, f)
  }

  /** The run ss with the steps done is what the events es come to, those not possible at their turn
      passed over. */
  ghost predicate Played(ss: seq<State>, done: seq<Event>, es: seq<Event>)
    requires |ss| == |done| + 1
  {
    if es == [] then done == []
    else
      var e, before := es[|es| - 1], es[..|es| - 1];
      || (done != [] && Alike(e, done[|done| - 1]) && Played(ss[..|done|], done[..|done| - 1], before))
      || (!Possible(ss[|done|], e) && Played(ss, done, before))
  }

  lemma {:induction false} NothingPlayed(ss: seq<State>)
    requires |ss| == 1
    ensures Played(ss, [], [])
  {
  }

  lemma {:induction false} PassedOver(ss: seq<State>, done: seq<Event>, es: seq<Event>, e: Event)
    requires |ss| == |done| + 1 && Played(ss, done, es) && !Possible(ss[|done|], e)
    ensures Played(ss, done, es + [e])
  {
    assert (es + [e])[..|es|] == es;
  }

  lemma {:induction false} PlayedOn(ss: seq<State>, done: seq<Event>, es: seq<Event>, e: Event, step: Event, s': State)
    requires |ss| == |done| + 1 && Played(ss, done, es) && Alike(e, step)
    ensures Played(ss + [s'], done + [step], es + [e])
  {
    var longer, steps := ss + [s'], done + [step];
    assert (es + [e])[..|es|] == es && longer[..|steps|] == ss && steps[..|steps| - 1] == done;
  }

  // The program decides what is possible without knowing the log.
  lemma {:induction false} SameGuards(v: State, s: State, e: Event)
    requires v == s.(log := v.log) && !e.Drain?
    ensures Enabled(v, e) <==> Enabled(s, e)
    ensures Enabled(s, e) <==> Possible(s, e)
  {
    assert Alike(e, e);
  }

  lemma {:induction false} NothingToDrain(s: State, e: Event)
    requires e.Drain? && !(e.r < |s.readers| && s.readers[e.r].Reading?)
    ensures !Possible(s, e)
  {
  }

  /** Empty a queue from its front. */
  method InOrder(feed: seq<Item>) returns (out: seq<Item>)
    ensures out == feed && DrainOrder(true, feed, out)
  {
    var queue := feed;
    out := [];
    while queue != []
      invariant out + queue == feed
      decreases |queue|
    {
      out := out + [queue[0]];
      queue := queue[1..];
    }
  }

  // out is what has been taken from the heap so far.
  ghost predicate Taken(feed: seq<Item>, out: seq<Item>, heap: seq<Item>) {
    && multiset(out) + multiset(heap) == multiset(feed)
    && (forall i, j :: 0 <= i < j < |out| ==> out[i].prio >= out[j].prio)
    && (forall x, y :: x in out && y in heap ==> x.prio >= y.prio)
  }

  lemma {:induction false} TakeTop(feed: seq<Item>, out: seq<Item>, heap: seq<Item>, k: nat)
    requires Taken(feed, out, heap) && k < |heap| && IsTop(heap, heap[k].prio)
    ensures Taken(feed, out + [heap[k]], heap[..k] + heap[k + 1..])
  {
    var rest := heap[..k] + heap[k + 1..];
    assert heap == heap[..k] + [heap[k]] + heap[k + 1..];
    assert forall y :: y in rest ==> y in heap;
    assert multiset(heap) == multiset(rest) + multiset{heap[k]};
    assert forall i :: 0 <= i < |out| ==> out[i] in out;
    assert heap[k] in heap;
  }

  /** Empty a priority queue: the top is some entry of highest priority. */
  method ByPriority(feed: seq<Item>) returns (out: seq<Item>)
    ensures multiset(out) == multiset(feed) && forall i, j :: 0 <= i < j < |out| ==> out[i].prio >= out[j].prio
    ensures DrainOrder(false, feed, out)
  {
    var heap := feed;
    out := [];
    while heap != []
      invariant Taken(feed, out, heap)
      decreases |heap|
    {
      TopExists(heap);
      var k :| 0 <= k < |heap| && IsTop(heap, heap[k].prio);
      TakeTop(feed, out, heap, k);
      out := out + [heap[k]];
      heap := heap[..k] + heap[k + 1..];
    }
  }

  // Nothing in the heap has a higher priority.
  predicate IsTop(heap: seq<Item>, prio: int) {
    forall item :: item in heap ==> item.prio <= prio
  }

  lemma {:induction false} TopExists(heap: seq<Item>)
    requires heap != []
    ensures exists k :: 0 <= k < |heap| && IsTop(heap, heap[k].prio)
  {
    var n := |heap| - 1;
    var rest, last := heap[..n], heap[n];
    assert heap == rest + [last];
    if n == 0 || IsTop(rest, last.prio) {
      assert IsTop(heap, heap[n].prio);
    } else {
      TopExists(rest);
      var k :| 0 <= k < n && IsTop(rest, rest[k].prio);
      assert IsTop(heap, heap[k].prio);
    }
  }
}
