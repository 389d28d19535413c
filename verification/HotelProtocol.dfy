/** The hotel as a protocol: the rooms, the four queues and the program counters of guests and
    cleaners, with every critical section as one step, for any number of each. */
module HotelProtocol {

  datatype Room = Room(count: nat, occupied: bool, guest: int, cleanTime: nat)

  // Where a guest thread is; a room in brackets is one it took out of a queue or stays in.
  datatype GuestPc =
    | Outside          // at the top of its loop
    | Awake            // past the gate, about to look for a room
    | Took(room: nat)  // out of empty_q, first use not counted yet
    | Counted(room: nat)
    | Staying(room: nat)
    | Leaving(room: nat)  // timed out, about to look for the room in one_occ_q
    | Moving(room: nat)   // found it there
    | TryFree             // saw empty_q empty
    | TryEvict            // and one_free_q as well
    | Second(room: nat)   // out of one_free_q or one_occ_q, as second guest
    | Pushed(room: nat)   // the room is in two_occ_q, second use not counted yet
    | Staying2(room: nat)

  datatype CleanerPc =
    | Top
    | Waiting             // on signal_cond
    | Ready               // saw all rooms used twice
    | Cleaning(room: nat)
    | Returned            // the room is in empty_q, not counted as cleaned yet
    | AllWait             // on all_clean_cond

  // An entry of one_occ_q: a room and the priority of the guest in it.
  datatype Stay = Stay(room: nat, prio: int)

  datatype State = State(
    rooms: seq<Room>, prio: seq<int>,
    empty: seq<nat>, oneOcc: seq<Stay>, oneFree: seq<nat>, twoOcc: seq<nat>,
    useCount: nat, numCleaned: nat, tokens: seq<nat>,
    guests: seq<GuestPc>, cleaners: seq<CleanerPc>, crashed: bool)

  /** One critical section of a guest (guest.cpp) or a cleaner (cleaner.cpp). Sleeping times and
      time-outs are whatever the event says. */
  datatype Event =
    | PassGate(g: nat)
    | TryEmpty(g: nat, t: nat)
    | CountFirst(g: nat)
    | EnterOneOcc(g: nat)
    | EndStay(g: nat, timedOut: bool)
    | LeaveOneOcc(g: nat)
    | GiveFree(g: nat)
    | TryOneFree(g: nat, t: nat)
    | TryEvicting(g: nat, i: nat, t: nat)
    | EnterTwoOcc(g: nat)
    | SignalCleaners(g: nat)
    | EndSecond(g: nat)
    | Check(c: nat)
    | Wake(c: nat)
    | TakeRoom(c: nat)
    | ReturnRoom(c: nat)
    | CountCleaned(c: nat)
    | StopWaiting(c: nat)

  predicate Busy(pc: CleanerPc) {
    pc.Ready? || pc.Cleaning? || pc.Returned?
  }

  // No cleaner is between seeing all rooms used twice and being done.
  predicate RoundOpen(s: State) {
    s.useCount < 2 * |s.rooms| && forall i :: 0 <= i < |s.cleaners| ==> !Busy(s.cleaners[i])
  }

  // The top of the priority queue one_occ_q: a guest of least priority.
  predicate IsTop(q: seq<Stay>, i: nat) {
    i < |q| && forall k :: 0 <= k < |q| ==> q[i].prio <= q[k].prio
  }

  predicate NoneReturned(s: State) {
    forall i :: 0 <= i < |s.cleaners| ==> !s.cleaners[i].Returned?
  }

  /** When a step can happen. Three guards stand for what only sleeping times ensure in the program:
      a guest takes an empty room only while the round is open; a cleaner sets num_cleaned_rooms to
      0 on waking only before the first room of the round is cleaned; and a cleaner that does not
      have to wait at the top finds that reset done. */
  predicate Enabled(s: State, e: Event) {
    match e
    case PassGate(g) => g < |s.guests| && s.guests[g] == Outside && s.useCount != 2 * |s.rooms|
    case TryEmpty(g, _) => g < |s.guests| && s.guests[g] == Awake && (s.empty != [] ==> RoundOpen(s))
    case CountFirst(g) => g < |s.guests| && s.guests[g].Took?
    case EnterOneOcc(g) => g < |s.guests| && s.guests[g].Counted?
    case EndStay(g, timedOut) => g < |s.guests| && s.guests[g].Staying? && (timedOut || (s.guests[g].room < |s.tokens| && s.tokens[s.guests[g].room] > 0))
    case LeaveOneOcc(g) => g < |s.guests| && s.guests[g].Leaving?
    case GiveFree(g) => g < |s.guests| && s.guests[g].Moving?
    case TryOneFree(g, _) => g < |s.guests| && s.guests[g] == TryFree
    case TryEvicting(g, i, _) => g < |s.guests| && s.guests[g] == TryEvict && (s.oneOcc != [] ==> IsTop(s.oneOcc, i))
    case EnterTwoOcc(g) => g < |s.guests| && s.guests[g].Second?
    case SignalCleaners(g) => g < |s.guests| && s.guests[g].Pushed?
    case EndSecond(g) => g < |s.guests| && s.guests[g].Staying2?
    case Check(c) => c < |s.cleaners| && s.cleaners[c] == Top && (s.useCount >= 2 * |s.rooms| ==> s.numCleaned < |s.rooms|)
    case Wake(c) => c < |s.cleaners| && s.cleaners[c] == Waiting && (s.useCount >= 2 * |s.rooms| ==> s.empty == [] && NoneReturned(s))
    case TakeRoom(c) => c < |s.cleaners| && s.cleaners[c] == Ready
    case ReturnRoom(c) => c < |s.cleaners| && s.cleaners[c].Cleaning?
    case CountCleaned(c) => c < |s.cleaners| && s.cleaners[c] == Returned
    case StopWaiting(c) => c < |s.cleaners| && s.cleaners[c] == AllWait && s.numCleaned >= |s.rooms|
  }

  function GoTo(s: State, g: nat, pc: GuestPc): State
    requires g < |s.guests|
  {
    s.(guests := s.guests[g := pc])
  }

  function CleanerTo(s: State, c: nat, pc: CleanerPc): State
    requires c < |s.cleaners|
  {
    s.(cleaners := s.cleaners[c := pc])
  }

  // Guest g moves into the first empty room, as its first guest.
  function MoveIn(s: State, g: nat, t: nat): State
    requires g < |s.guests| && s.empty != [] && s.empty[0] < |s.rooms|
  {
    var r := s.empty[0];
    GoTo(s.(empty := s.empty[1..], rooms := s.rooms[r := Room(1, true, g, s.rooms[r].cleanTime + t)]), g, Took(r))
  }

  // Guest g moves into room r, which is in no queue now, as its first or second guest.
  function Occupy(s: State, g: nat, r: nat, t: nat): State
    requires g < |s.guests| && r < |s.rooms|
  {
    if s.rooms[r].count == 1 then
      GoTo(s.(rooms := s.rooms[r := Room(2, true, g, s.rooms[r].cleanTime + t)]), g, Second(r))
    else
      s.(crashed := true)
  }

  // one_occ_q without the entries of room r.
  function Without(q: seq<Stay>, r: nat): seq<Stay> {
    if q == [] then []
    else Without(q[..|q| - 1], r) + if q[|q| - 1].room == r then [] else [q[|q| - 1]]
  }

  predicate Has(q: seq<Stay>, r: nat) {
    exists i :: 0 <= i < |q| && q[i].room == r
  }

  // All room numbers in the state are room numbers.
  ghost predicate RoomsInRange(s: State) {
    && |s.tokens| == |s.rooms| && |s.prio| == |s.guests| && |s.rooms| > 0
    && (forall i :: 0 <= i < |s.empty| ==> s.empty[i] < |s.rooms|)
    && (forall i :: 0 <= i < |s.oneOcc| ==> s.oneOcc[i].room < |s.rooms|)
    && (forall i :: 0 <= i < |s.oneFree| ==> s.oneFree[i] < |s.rooms|)
    && (forall i :: 0 <= i < |s.twoOcc| ==> s.twoOcc[i] < |s.rooms|)
    && (forall g :: 0 <= g < |s.guests| ==> (s.guests[g].Took? || s.guests[g].Counted? || s.guests[g].Staying? || s.guests[g].Leaving?
                                             || s.guests[g].Moving? || s.guests[g].Second? || s.guests[g].Pushed? || s.guests[g].Staying2?)
                                            ==> s.guests[g].room < |s.rooms|)
    && (forall c :: 0 <= c < |s.cleaners| ==> s.cleaners[c].Cleaning? ==> s.cleaners[c].room < |s.rooms|)
  }

  /** What a step does. */
  function Apply(s: State, e: Event): State
    requires Enabled(s, e) && RoomsInRange(s)
  {
    match e
    case PassGate(g) => GoTo(s, g, Awake)
    case TryEmpty(g, t) =>
      if s.empty != [] then MoveIn(s, g, t) else GoTo(s, g, TryFree)
    case CountFirst(g) => GoTo(s.(useCount := s.useCount + 1), g, Counted(s.guests[g].room))
    case EnterOneOcc(g) =>
      var r := s.guests[g].room;
      GoTo(s.(oneOcc := s.oneOcc + [Stay(r, s.prio[g])]), g, Staying(r))
    case EndStay(g, timedOut) =>
      var r := s.guests[g].room;
      if timedOut then GoTo(s, g, Leaving(r)) else GoTo(s.(tokens := s.tokens[r := s.tokens[r] - 1]), g, Outside)
    case LeaveOneOcc(g) =>
      var r := s.guests[g].room;
      GoTo(s.(oneOcc := Without(s.oneOcc, r)), g, if Has(s.oneOcc, r) then Moving(r) else Outside)
    case GiveFree(g) =>
      var r := s.guests[g].room;
      GoTo(s.(rooms := s.rooms[r := s.rooms[r].(occupied := false, guest := -1)], oneFree := s.oneFree + [r]), g, Outside)
    case TryOneFree(g, t) =>
      if s.oneFree != [] then Occupy(s.(oneFree := s.oneFree[1..]), g, s.oneFree[0], t) else GoTo(s, g, TryEvict)
    case TryEvicting(g, i, t) =>
      if s.oneOcc != [] && s.oneOcc[i].prio < s.prio[g] then
        var r := s.oneOcc[i].room;
        Occupy(s.(oneOcc := s.oneOcc[..i] + s.oneOcc[i + 1..], tokens := s.tokens[r := s.tokens[r] + 1]), g, r, t)
      else GoTo(s, g, Outside)
    case EnterTwoOcc(g) =>
      var r := s.guests[g].room;
      GoTo(s.(twoOcc := s.twoOcc + [r]), g, Pushed(r))
    case SignalCleaners(g) =>
      GoTo(s.(useCount := s.useCount + 1), g, if s.useCount + 1 == 2 * |s.rooms| then Outside else Staying2(s.guests[g].room))
    case EndSecond(g) => GoTo(s, g, Outside)
    case Check(c) => CleanerTo(s, c, if s.useCount < 2 * |s.rooms| then Waiting else Ready)
    case Wake(c) => CleanerTo(s.(numCleaned := 0), c, if s.useCount < 2 * |s.rooms| then Waiting else Ready)
    case TakeRoom(c) =>
      if s.twoOcc != [] then
        var r := s.twoOcc[0];
        CleanerTo(s.(twoOcc := s.twoOcc[1..], rooms := s.rooms[r := Room(0, false, -1, 0)]), c, Cleaning(r))
      else CleanerTo(s, c, AllWait)
    case ReturnRoom(c) => CleanerTo(s.(empty := s.empty + [s.cleaners[c].room]), c, Returned)
    case CountCleaned(c) =>
      CleanerTo(s.(numCleaned := s.numCleaned + 1, useCount := if s.numCleaned + 1 == |s.rooms| then 0 else s.useCount), c, Top)
    case StopWaiting(c) => CleanerTo(s, c, Top)
  }
}
