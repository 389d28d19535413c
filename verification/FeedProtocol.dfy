/** The feed pipeline as a protocol: one simulator of users, any number of threads that push actions
    to the feeds of neighbours, any number that read feeds, and the counter thread_to_join by which
    they shut down. thread_to_join++ is two steps, a load and a store. */
module FeedProtocol {

  datatype Action = Action(user: nat, kind: nat, id: nat, time: int)

  datatype Neighbor = Neighbor(id: nat, prio: int)

  // What is put into a feed: an action, and for feeds ordered by priority the priority.
  datatype Item = Item(prio: int, action: Action)

  // The graph does not change: who is next to whom, and which feeds are chronological.
  datatype Net = Net(neighbors: seq<seq<Neighbor>>, chrono: seq<bool>)

  datatype SimPc =
    | Choosing             // between two users
    | Building(user: nat)  // collecting this user's actions
    | Emitting             // pushing them on new_action_q
    | SimLoaded(v: nat)    // in the middle of thread_to_join++
    | SimGone

  datatype PusherPc =
    | PTop
    | PWait                        // on action_q_cond
    | Pushing(action: Action, i: nat)   // about to serve neighbour i
    | Notified(action: Action, i: nat)  // its id is in feed_update_q, the action not in its feed yet
    | PLeaving
    | PLoaded(v: nat)              // in the middle of thread_to_join++, holding feed_update_q_mutex
    | PGone

  datatype ReaderPc = RTop | RWait | Reading(user: nat) | RGone

  datatype State = State(
    net: Net,
    sim: SimPc, counters: map<(nat, nat), nat>, pending: seq<Action>,
    actionQ: seq<Action>, pushers: seq<PusherPc>,
    updateQ: seq<nat>, locked: bool,
    feeds: seq<seq<Item>>, readers: seq<ReaderPc>, joinCount: nat, joined: nat,
    log: Log)

  /** What happened so far. The program keeps none of this. */
  datatype Log = Log(
    generated: seq<Action>, done: seq<Action>,
    delivered: seq<seq<Item>>, read: seq<seq<Item>>,
    notified: seq<nat>, consumed: seq<nat>)

  datatype Event =
    | ChooseUser(user: nat)
    | Generate(kind: nat, time: int)
    | StopBuilding
    | Emit
    | SimLoad
    | SimStore
    | TakeAction(p: nat)
    | WakePusher(p: nat)
    | Notify(p: nat)
    | Deliver(p: nat)
    | Finish(p: nat)
    | PusherLoad(p: nat)
    | PusherStore(p: nat)
    | TakeUpdate(r: nat)
    | WakeReader(r: nat)
    | Drain(r: nat, out: seq<Item>)
    | JoinReader

  function Counter(s: State, user: nat, kind: nat): nat {
    if (user, kind) in s.counters then s.counters[(user, kind)] else 0
  }

  function Degree(net: Net, user: nat): nat {
    if user < |net.neighbors| then |net.neighbors[user]| else 0
  }

  function NeighborOf(net: Net, user: nat, i: nat): Neighbor
    requires i < Degree(net, user)
  {
    net.neighbors[user][i]
  }

  predicate AllPushersGone(s: State) {
    forall p :: 0 <= p < |s.pushers| ==> s.pushers[p] == PGone
  }

  // The order in which a reader empties a feed: first in first out, or by falling priority.
  predicate DrainOrder(chrono: bool, feed: seq<Item>, out: seq<Item>) {
    if chrono then out == feed
    else multiset(out) == multiset(feed) && forall i, j :: 0 <= i < j < |out| ==> out[i].prio >= out[j].prio
  }

  ghost predicate WellFormed(s: State) {
    && |s.feeds| == |s.net.neighbors| == |s.net.chrono| == |s.log.delivered| == |s.log.read|
    && (forall u, e :: 0 <= u < |s.net.neighbors| && e in s.net.neighbors[u] ==> e.id < |s.net.neighbors|)
    && (forall p :: 0 <= p < |s.pushers| && (s.pushers[p].Pushing? || s.pushers[p].Notified?) ==> s.pushers[p].i <= Degree(s.net, s.pushers[p].action.user))
    && (forall p :: 0 <= p < |s.pushers| && s.pushers[p].Notified? ==> s.pushers[p].i < Degree(s.net, s.pushers[p].action.user))
    && (forall r :: 0 <= r < |s.readers| && s.readers[r].Reading? ==> s.readers[r].user < |s.feeds|)
    && (forall u :: u in s.updateQ ==> u < |s.feeds|)
  }

  /** When a step can happen. feed_update_q_mutex keeps four kinds of steps apart from a pusher that
      is counting itself out. */
  predicate Enabled(s: State, e: Event) {
    match e
    case ChooseUser(u) => s.sim == Choosing && u < |s.net.neighbors|
    case Generate(_, _) => s.sim.Building?
    case StopBuilding => s.sim.Building?
    case Emit => s.sim == Emitting
    case SimLoad => s.sim == Choosing
    case SimStore => s.sim.SimLoaded?
    case TakeAction(p) => p < |s.pushers| && s.pushers[p] == PTop
    case WakePusher(p) => p < |s.pushers| && s.pushers[p] == PWait
    case Notify(p) => p < |s.pushers| && s.pushers[p].Pushing? && s.pushers[p].i < Degree(s.net, s.pushers[p].action.user) && !s.locked
    case Deliver(p) => p < |s.pushers| && s.pushers[p].Notified?
    case Finish(p) => p < |s.pushers| && s.pushers[p].Pushing? && s.pushers[p].i >= Degree(s.net, s.pushers[p].action.user)
    case PusherLoad(p) => p < |s.pushers| && s.pushers[p] == PLeaving && !s.locked
    case PusherStore(p) => p < |s.pushers| && s.pushers[p].PLoaded?
    case TakeUpdate(r) => r < |s.readers| && s.readers[r] == RTop && !s.locked
    case WakeReader(r) => r < |s.readers| && s.readers[r] == RWait && !s.locked
    case Drain(r, out) => r < |s.readers| && s.readers[r].Reading? && s.readers[r].user < |s.feeds| == |s.net.chrono|
                          && DrainOrder(s.net.chrono[s.readers[r].user], s.feeds[s.readers[r].user], out)
    case JoinReader => s.sim == SimGone && AllPushersGone(s) && s.joined < |s.readers| && s.readers[s.joined] == RGone
  }

  function PusherTo(s: State, p: nat, pc: PusherPc): State
    requires p < |s.pushers|
  {
    s.(pushers := s.pushers[p := pc])
  }

  function ReaderTo(s: State, r: nat, pc: ReaderPc): State
    requires r < |s.readers|
  {
    s.(readers := s.readers[r := pc])
  }

  // The front of new_action_q goes to pusher p, or p waits.
  function PopAction(s: State, p: nat): State
    requires p < |s.pushers|
  {
    if s.actionQ == [] then PusherTo(s, p, PWait)
    else PusherTo(s.(actionQ := s.actionQ[1..]), p, Pushing(s.actionQ[0], 0))
  }

  function PopUpdate(s: State, r: nat): State
    requires r < |s.readers|
  {
    if s.updateQ == [] then ReaderTo(s, r, RWait)
    else ReaderTo(s.(updateQ := s.updateQ[1..], log := s.log.(consumed := s.log.consumed + [s.updateQ[0]])), r, Reading(s.updateQ[0]))
  }

  function Generated(s: State, kind: nat, time: int): State
    requires s.sim.Building?
  {
    var u := s.sim.user;
    var a := Action(u, kind, Counter(s, u, kind) + 1, time);
    s.(counters := s.counters[(u, kind) := a.id], pending := s.pending + [a], log := s.log.(generated := s.log.generated + [a]))
  }

  function Emitted(s: State): State {
    if s.pending == [] then s.(sim := Choosing)
    else s.(pending := s.pending[1..], actionQ := s.actionQ + [s.pending[0]])
  }

  // Pusher p is at work for this neighbour, and the neighbour exists.
  ghost predicate Serving(s: State, p: nat) {
    && p < |s.pushers| && (s.pushers[p].Pushing? || s.pushers[p].Notified?)
    && s.pushers[p].i < Degree(s.net, s.pushers[p].action.user)
    && NeighborOf(s.net, s.pushers[p].action.user, s.pushers[p].i).id < |s.feeds| == |s.log.delivered|
  }

  function Target(s: State, p: nat): Neighbor
    requires Serving(s, p)
  {
    NeighborOf(s.net, s.pushers[p].action.user, s.pushers[p].i)
  }

  function NotifiedBy(s: State, p: nat): State
    requires Serving(s, p)
  {
    var pc := s.pushers[p];
    var u := Target(s, p).id;
    PusherTo(s.(updateQ := s.updateQ + [u], log := s.log.(notified := s.log.notified + [u])), p, Notified(pc.action, pc.i))
  }

  function DeliveredBy(s: State, p: nat): State
    requires Serving(s, p)
  {
    var pc := s.pushers[p];
    var u := Target(s, p).id;
    var item := Item(Target(s, p).prio, pc.action);
    PusherTo(s.(feeds := s.feeds[u := s.feeds[u] + [item]], log := s.log.(delivered := s.log.delivered[u := s.log.delivered[u] + [item]])),
             p, Pushing(pc.action, pc.i + 1))
  }

  function FinishedBy(s: State, p: nat): State
    requires p < |s.pushers| && s.pushers[p].Pushing?
  {
    PusherTo(s.(log := s.log.(done := s.log.done + [s.pushers[p].action])), p, PTop)
  }

  function LoadedBy(s: State, p: nat): State
    requires p < |s.pushers|
  {
    PusherTo(s.(locked := true), p, PLoaded(s.joinCount))
  }

  function StoredBy(s: State, p: nat): State
    requires p < |s.pushers| && s.pushers[p].PLoaded?
  {
    PusherTo(s.(joinCount := s.pushers[p].v + 1, locked := false), p, PGone)
  }

  function DrainedBy(s: State, r: nat, out: seq<Item>): State
    requires r < |s.readers| && s.readers[r].Reading? && s.readers[r].user < |s.feeds| == |s.log.read|
  {
    var u := s.readers[r].user;
    ReaderTo(s.(feeds := s.feeds[u := []], log := s.log.(read := s.log.read[u := s.log.read[u] + out])), r, RTop)
  }

  lemma {:induction false} IsServing(s: State, p: nat)
    requires WellFormed(s) && p < |s.pushers| && (s.pushers[p].Pushing? || s.pushers[p].Notified?)
    requires s.pushers[p].Pushing? ==> s.pushers[p].i < Degree(s.net, s.pushers[p].action.user)
    ensures Serving(s, p)
  {
    var pc := s.pushers[p];
    assert NeighborOf(s.net, pc.action.user, pc.i) in s.net.neighbors[pc.action.user];
  }

  /** What a step does. */
  ghost function Apply(s: State, e: Event): State
    requires WellFormed(s) && Enabled(s, e)
  {
    match e
    case ChooseUser(u) => s.(sim := Building(u))
    case Generate(kind, time) => Generated(s, kind, time)
    case StopBuilding => s.(sim := Emitting)
    case Emit => Emitted(s)
    case SimLoad => s.(sim := SimLoaded(s.joinCount))
    case SimStore => s.(joinCount := s.sim.v + 1, sim := SimGone)
    case TakeAction(p) => PopAction(s, p)
    case WakePusher(p) => if s.joinCount >= 1 then PusherTo(s, p, PLeaving) else PopAction(s, p)
    case Notify(p) => IsServing(s, p); NotifiedBy(s, p)
    case Deliver(p) => IsServing(s, p); DeliveredBy(s, p)
    case Finish(p) => FinishedBy(s, p)
    case PusherLoad(p) => LoadedBy(s, p)
    case PusherStore(p) => StoredBy(s, p)
    case TakeUpdate(r) => PopUpdate(s, r)
    case WakeReader(r) =>
      if s.joinCount >= 1 + |s.pushers| && s.updateQ == [] then ReaderTo(s, r, RGone) else PopUpdate(s, r)
    case Drain(r, out) => DrainedBy(s, r, out)
    case JoinReader => s.(joinCount := s.joinCount + 1, joined := s.joined + 1)
  }

  ghost predicate Init(s: State) {
    && WellFormed(s)
    && s.sim == Choosing && s.counters == map[] && s.pending == [] && s.actionQ == [] && s.updateQ == [] && !s.locked
    && s.joinCount == 0 && s.joined == 0
    && (forall p :: 0 <= p < |s.pushers| ==> s.pushers[p] == PTop)
    && (forall r :: 0 <= r < |s.readers| ==> s.readers[r] == RTop)
    && (forall u :: 0 <= u < |s.feeds| ==> s.feeds[u] == [] && s.log.delivered[u] == [] && s.log.read[u] == [])
    && s.log.generated == [] && s.log.done == [] && s.log.notified == [] && s.log.consumed == []
  }
}
