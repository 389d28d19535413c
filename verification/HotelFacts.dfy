/** What a thread of the hotel may rely on after one of its steps. */
module HotelFacts {
  import opened Tally
  import opened HotelProtocol
  import opened HotelSafety

  ghost predicate InNoQueue(s: State, r: nat) {
    r !in s.empty && r !in s.oneFree && r !in s.twoOcc && forall q :: q in s.oneOcc ==> q.room != r
  }

  // Guest g has room r in hand, and nobody else can get at it.
  ghost predicate GuestAlone(s: State, g: nat, r: nat) {
    && g < |s.guests| && r in GuestHolds(s.guests[g]) && InNoQueue(s, r)
    && (forall h :: 0 <= h < |s.guests| && h != g ==> r !in GuestHolds(s.guests[h]))
    && (forall c :: 0 <= c < |s.cleaners| ==> r !in CleanerHolds(s.cleaners[c]))
  }

  ghost predicate CleanerAlone(s: State, c: nat, r: nat) {
    && c < |s.cleaners| && s.cleaners[c] == Cleaning(r) && InNoQueue(s, r)
    && (forall g :: 0 <= g < |s.guests| ==> r !in GuestHolds(s.guests[g]))
    && (forall d :: 0 <= d < |s.cleaners| && d != c ==> r !in CleanerHolds(s.cleaners[d]))
  }

  // All rooms have been used twice, all are waiting to be cleaned, and nobody has a use to count.
  ghost predicate AllUsed(s: State) {
    && multiset(s.twoOcc) == Once(|s.rooms|) && (forall room :: room in s.rooms ==> room.count == 2)
    && forall pc :: pc in s.guests ==> Uncounted(pc) == 0
  }

  // All rooms are clean and waiting to be used.
  ghost predicate AllClean(s: State) {
    multiset(s.empty) == Once(|s.rooms|) && forall room :: room in s.rooms ==> room.count == 0
  }

  // No room waits for a second guest, no guest has a room in hand or a use left to count.
  ghost predicate NothingToCome(s: State) {
    s.oneOcc == [] && s.oneFree == [] && forall pc :: pc in s.guests ==> Uncounted(pc) == 0 && GuestHolds(pc) == multiset{}
  }

  // What the main results say about one state.
  ghost predicate Sound(s: State) {
    && !s.crashed && (forall r :: 0 <= r < |s.rooms| ==> Places(s)[r] == 1)
    && (s.useCount < 2 * |s.rooms| ==> s.useCount + Total(Uncounted, s.guests) == Total(CountOf, s.rooms))
  }

  lemma {:induction false} InvIsSound(s: State)
    requires Inv(s)
    ensures Sound(s)
  {
    hide Places, CountsFit, Once, Total;
    OnceHas(|s.rooms|);
    forall r | 0 <= r < |s.rooms| ensures Places(s)[r] == 1 {
      assert Places(s)[r] == Once(|s.rooms|)[r];
    }
  }

  lemma {:induction false} OnePlace(s: State, r: nat)
    requires Inv(s)
    ensures multiset(s.empty)[r] + Bag(RoomOf, s.oneOcc)[r] + multiset(s.oneFree)[r] + multiset(s.twoOcc)[r]
            + Bag(GuestHolds, s.guests)[r] + Bag(CleanerHolds, s.cleaners)[r] <= 1
  {
    hide CountsFit, Phase, Shape, Bag;
    OnceHas(|s.rooms|);
    hide Once;
    assert Places(s)[r] == Once(|s.rooms|)[r];
  }

  lemma {:induction false} NoQueueHas(s: State, r: nat)
    requires multiset(s.empty)[r] + Bag(RoomOf, s.oneOcc)[r] + multiset(s.oneFree)[r] + multiset(s.twoOcc)[r] == 0
    ensures InNoQueue(s, r)
  {
    hide Bag;
    BagHas(RoomOf, s.oneOcc, r);
    forall q | q in s.oneOcc ensures q.room != r {
      var i :| 0 <= i < |s.oneOcc| && s.oneOcc[i] == q;
      assert r !in RoomOf(s.oneOcc[i]);
    }
    assert r !in multiset(s.empty) && r !in multiset(s.oneFree) && r !in multiset(s.twoOcc);
  }

  /** A guest that has taken a room has it to itself. */
  lemma {:induction false} HasItAlone(s: State, g: nat, r: nat)
    requires Inv(s) && g < |s.guests| && r in GuestHolds(s.guests[g])
    ensures GuestAlone(s, g, r)
  {
    hide Inv, Bag, GuestHolds, CleanerHolds, InNoQueue;
    OnePlace(s, r);
    BagHas(GuestHolds, s.guests, r);
    BagHas(CleanerHolds, s.cleaners, r);
    NoQueueHas(s, r);
    forall h | 0 <= h < |s.guests| && h != g ensures r !in GuestHolds(s.guests[h]) {
      if r in GuestHolds(s.guests[h]) {
        BagTwice(GuestHolds, s.guests, if g < h then g else h, if g < h then h else g, r);
      }
    }
  }

  /** So has a cleaner. */
  lemma {:induction false} CleansItAlone(s: State, c: nat)
    requires Inv(s) && c < |s.cleaners| && s.cleaners[c].Cleaning?
    ensures CleanerAlone(s, c, s.cleaners[c].room)
  {
    hide Inv, Bag, GuestHolds, InNoQueue;
    var r := s.cleaners[c].room;
    assert r in CleanerHolds(s.cleaners[c]);
    hide CleanerHolds;
    OnePlace(s, r);
    BagHas(GuestHolds, s.guests, r);
    BagHas(CleanerHolds, s.cleaners, r);
    NoQueueHas(s, r);
    forall d | 0 <= d < |s.cleaners| && d != c ensures r !in CleanerHolds(s.cleaners[d]) {
      if r in CleanerHolds(s.cleaners[d]) {
        BagTwice(CleanerHolds, s.cleaners, if c < d then c else d, if c < d then d else c, r);
      }
    }
  }

  /** signal_cleaners tells its caller that it was the last if and only if by then every room is used
      twice and every use counted. */
  lemma {:induction false} LastIffAllUsed(s: State, g: nat)
    requires Inv(s) && RoomsInRange(s) && Enabled(s, SignalCleaners(g))
    ensures var s' := Apply(s, SignalCleaners(g)); s'.useCount == 2 * |s.rooms| <==> AllUsed(s')
  {
    hide Places, CountsFit, Bag, Once, RoomsInRange, Total;
    var s' := Apply(s, SignalCleaners(g));
    SignalCleanersKeeps(s, g);
    if s'.useCount == 2 * |s.rooms| {
      LastUseFacts(s, g);
      TotalZero(Uncounted, s'.guests);
      forall pc | pc in s'.guests ensures Uncounted(pc) == 0 {
        var i :| 0 <= i < |s'.guests| && s'.guests[i] == pc;
        assert Uncounted(s'.guests[i]) == 0;
      }
    } else if AllUsed(s') {
      TwiceEach(s'.rooms);
      TotalZero(Uncounted, s'.guests);
    }
  }

  lemma {:induction false} TwiceEach(rooms: seq<Room>)
    requires forall room :: room in rooms ==> room.count == 2
    ensures Total(CountOf, rooms) == 2 * |rooms|
  {
    if rooms != [] {
      TwiceEach(rooms[..|rooms| - 1]);
    }
  }

  /** A cleaner that goes on finds every use counted and no room with a guest to come. */
  lemma {:induction false} CleanersFind(s: State)
    requires Inv(s) && s.useCount >= 2 * |s.rooms|
    ensures NothingToCome(s)
  {
    hide Places, CountsFit, Bag, Total;
    TotalZero(Uncounted, s.guests);
    forall pc | pc in s.guests ensures Uncounted(pc) == 0 && GuestHolds(pc) == multiset{} {
      var g :| 0 <= g < |s.guests| && s.guests[g] == pc;
      assert Uncounted(s.guests[g]) == 0;
      GuestMoves(s, g, Outside);
    }
  }

  /** use_count is 0 after a cleaner has counted its room only if all rooms are clean. */
  lemma {:induction false} ResetMeansClean(s: State, c: nat)
    requires Inv(s) && RoomsInRange(s) && Enabled(s, CountCleaned(c))
    ensures var s' := Apply(s, CountCleaned(c)); (s'.useCount == 0 ==> AllClean(s')) && (s'.useCount == 0 <==> s'.numCleaned == |s.rooms|)
  {
    hide Balanced, Registered, Once, RoomsInRange;
    BusyMeansCleaning(s, c);
    CountCleanedKeeps(s, c);
  }

  // ---------- moving in ----------

  // Guest g is registered in room r as the guest that makes count uses, and its stay adds to the cleaning.
  ghost predicate SettledIn(s: State, s': State, g: nat, r: nat, count: nat, t: nat) {
    r < |s.rooms| && r < |s'.rooms| && s'.rooms[r] == Room(count, true, g, s.rooms[r].cleanTime + t)
  }

  // Nobody is registered in room r.
  ghost predicate Vacant(s: State, r: nat) {
    r < |s.rooms| && !s.rooms[r].occupied && s.rooms[r].guest == -1
  }

  // And it counts as unused, with no time that it would take to clean.
  ghost predicate IsClean(s: State, r: nat) {
    Vacant(s, r) && s.rooms[r].count == 0 && s.rooms[r].cleanTime == 0
  }

  // The priority of the guest registered in room r.
  ghost predicate HasPriority(s: State, r: nat, p: int) {
    r < |s.rooms| && 0 <= s.rooms[r].guest < |s.prio| && s.prio[s.rooms[r].guest] == p
  }

  // Some room of one_occ_q has a guest of priority less than p.
  ghost predicate SomeGuestBelow(s: State, p: int) {
    exists q, low :: q in s.oneOcc && HasPriority(s, q.room, low) && low < p
  }

  // Room r is in one_occ_q, and no room there has a guest of lower priority.
  ghost predicate LeastGuestIn(s: State, r: nat) {
    && (exists q :: q in s.oneOcc && q.room == r)
    && forall q, p, p' :: q in s.oneOcc && HasPriority(s, r, p) && HasPriority(s, q.room, p') ==> p <= p'
  }

  /** An entry of one_occ_q has the priority of the guest registered in its room. */
  lemma {:induction false} EntryHasPriority(s: State, q: Stay)
    requires Inv(s) && q in s.oneOcc
    ensures HasPriority(s, q.room, q.prio)
    ensures forall p :: HasPriority(s, q.room, p) ==> p == q.prio
  {
    hide Balanced;
    assert EntryRegistered(s.rooms, s.prio, q);
  }

  /** A guest evicts another if and only if there is one of lower priority, and then one of the least. */
  lemma {:induction false} EvictsIffGuestBelow(s: State, g: nat, i: nat, t: nat)
    requires Inv(s) && RoomsInRange(s) && Enabled(s, TryEvicting(g, i, t))
    ensures |s.prio| == |s.guests|
    ensures s.oneOcc != [] && s.oneOcc[i].prio < s.prio[g] <==> SomeGuestBelow(s, s.prio[g])
    ensures s.oneOcc != [] ==> LeastGuestIn(s, s.oneOcc[i].room)
  {
    hide Inv, HasPriority;
    if s.oneOcc != [] {
      var top := s.oneOcc[i];
      assert top in s.oneOcc;
      EntryHasPriority(s, top);
      forall q | q in s.oneOcc ensures HasPriority(s, q.room, q.prio) && top.prio <= q.prio && forall p :: HasPriority(s, q.room, p) ==> p == q.prio {
        EntryHasPriority(s, q);
      }
    }
  }

  // A room that waits for its second guest has been used once.
  lemma {:induction false} NoErrorExit(s: State, r: nat)
    requires Inv(s) && r < |s.rooms| && ((exists q :: q in s.oneOcc && q.room == r) || r in s.oneFree)
    ensures s.rooms[r].count == 1 && !s.crashed
  {
    hide Places, Phase;
  }

  lemma {:induction false} NeverCrashed(s: State)
    requires Inv(s)
    ensures !s.crashed
  {
    hide Places, CountsFit, Phase;
  }

  // Guest g has evicted the guest of room r, who was of least priority, and has settled in alone; one
  // token was posted, for that room.
  ghost predicate Evicted(s: State, s': State, g: nat, r: nat, t: nat) {
    && LeastGuestIn(s, r) && SettledIn(s, s', g, r, 2, t) && GuestAlone(s', g, r)
    && r < |s.tokens| && s'.tokens == s.tokens[r := s.tokens[r] + 1]
  }

  /** What an eviction leads to. */
  lemma {:induction false} EvictedFacts(s: State, g: nat, i: nat, t: nat)
    requires Inv(s) && RoomsInRange(s) && Enabled(s, TryEvicting(g, i, t)) && s.oneOcc != [] && s.oneOcc[i].prio < s.prio[g]
    ensures var s', r := Apply(s, TryEvicting(g, i, t)), s.oneOcc[i].room;
            && !s'.crashed && g < |s'.guests| && s'.guests[g] == Second(r) && Evicted(s, s', g, r, t)
            && r < |s.tokens| && r < |s.rooms|
  {
    hide Inv, GuestAlone, LeastGuestIn, SomeGuestBelow;
    EvictsIffGuestBelow(s, g, i, t);
    assert s.oneOcc[i] in s.oneOcc;
    NoErrorExit(s, s.oneOcc[i].room);
    StepKeeps(s, TryEvicting(g, i, t));
    HasItAlone(Apply(s, TryEvicting(g, i, t)), g, s.oneOcc[i].room);
  }
}
