/** What every step of the hotel protocol keeps, and what follows for whole runs. */
module HotelSafety {
  import opened Tally
  import opened HotelProtocol

  // ---------- where the rooms are ----------

  function GuestHolds(pc: GuestPc): multiset<nat> {
    match pc
    case Took(r) => multiset{r}
    case Counted(r) => multiset{r}
    case Moving(r) => multiset{r}
    case Second(r) => multiset{r}
    case _ => multiset{}
  }

  function CleanerHolds(pc: CleanerPc): multiset<nat> {
    match pc
    case Cleaning(r) => multiset{r}
    case _ => multiset{}
  }

  function RoomOf(q: Stay): multiset<nat> {
    multiset{q.room}
  }

  // Every place a room can be in, with multiplicity.
  function Places(s: State): multiset<nat> {
    multiset(s.empty) + Bag(RoomOf, s.oneOcc) + multiset(s.oneFree) + multiset(s.twoOcc) + Bag(GuestHolds, s.guests) + Bag(CleanerHolds, s.cleaners)
  }

  function Once(n: nat): multiset<nat> {
    if n == 0 then multiset{} else Once(n - 1) + multiset{n - 1}
  }

  lemma {:induction false} OnceHas(n: nat)
    ensures forall r: nat :: Once(n)[r] == if r < n then 1 else 0
  {
    if n > 0 {
      OnceHas(n - 1);
    }
  }

  lemma {:induction false} OnceSize(n: nat)
    ensures |Once(n)| == n
  {
    if n > 0 {
      OnceSize(n - 1);
    }
  }

  /** How often a room was used this round, by the place it is in. */
  ghost predicate CountsFit(s: State) {
    && (forall r :: r in s.empty ==> r < |s.rooms| && s.rooms[r].count == 0)
    && (forall q :: q in s.oneOcc ==> q.room < |s.rooms| && s.rooms[q.room].count == 1)
    && (forall r :: r in s.oneFree ==> r < |s.rooms| && s.rooms[r].count == 1)
    && (forall r :: r in s.twoOcc ==> r < |s.rooms| && s.rooms[r].count == 2)
    && (forall pc :: pc in s.guests ==> GuestFits(s.rooms, pc))
    && (forall pc :: pc in s.cleaners ==> CleanerFits(s.rooms, pc))
  }

  ghost predicate GuestFits(rooms: seq<Room>, pc: GuestPc) {
    match pc
    case Took(r) => r < |rooms| && rooms[r].count == 1
    case Counted(r) => r < |rooms| && rooms[r].count == 1
    case Moving(r) => r < |rooms| && rooms[r].count == 1
    case Second(r) => r < |rooms| && rooms[r].count == 2
    case Staying(r) => r < |rooms|
    case Leaving(r) => r < |rooms|
    case Pushed(r) => r < |rooms|
    case Staying2(r) => r < |rooms|
    case _ => true
  }

  ghost predicate CleanerFits(rooms: seq<Room>, pc: CleanerPc) {
    match pc
    case Cleaning(r) => r < |rooms| && rooms[r].count == 0
    case _ => true
  }

  // ---------- how often rooms were used ----------

  function CountOf(r: Room): nat {
    r.count
  }

  // A use that is visible in the room but not in use_count yet.
  function Uncounted(pc: GuestPc): nat {
    if pc.Took? || pc.Second? || pc.Pushed? then 1 else 0
  }

  function IsReturned(pc: CleanerPc): nat {
    if pc.Returned? then 1 else 0
  }

  ghost predicate AnyBusyIn(cs: seq<CleanerPc>) {
    exists i :: 0 <= i < |cs| && Busy(cs[i])
  }

  /** While the rooms are being used: use_count is the number of uses, less those not counted yet;
      no room is being cleaned; and a cleaner that is still on its way finds nothing used. */
  ghost predicate Using(s: State) {
    && s.useCount + Total(Uncounted, s.guests) == Total(CountOf, s.rooms)
    && Bag(CleanerHolds, s.cleaners) == multiset{} && Total(IsReturned, s.cleaners) == 0
    && (s.numCleaned == 0 || s.numCleaned == |s.rooms|)
    && (AnyBusyIn(s.cleaners) ==> Total(CountOf, s.rooms) == 0)
  }

  /** While they are being cleaned: no use is left to count, rooms are in two_occ_q, with a cleaner or
      in empty_q, and num_cleaned_rooms, once reset, counts the last, less those not counted yet. */
  ghost predicate BeingCleaned(s: State) {
    && Total(Uncounted, s.guests) == 0
    && s.oneOcc == [] && s.oneFree == [] && Bag(GuestHolds, s.guests) == multiset{}
    && (if s.numCleaned == |s.rooms| then
          s.empty == [] && Total(IsReturned, s.cleaners) == 0 && !AnyBusyIn(s.cleaners)
        else
          s.numCleaned < |s.rooms| && |s.empty| == s.numCleaned + Total(IsReturned, s.cleaners))
  }

  ghost predicate Phase(s: State) {
    && s.useCount <= 2 * |s.rooms|
    && (if s.useCount < 2 * |s.rooms| then Using(s) else BeingCleaned(s))
  }

  ghost predicate Shape(s: State) {
    && |s.tokens| == |s.rooms| > 0 && |s.prio| == |s.guests|
    && (forall i :: 0 <= i < |s.rooms| ==> s.rooms[i].count <= 2)
  }

  /** Each room is in one place, with the count that belongs there, and the uses add up. */
  ghost predicate Balanced(s: State) {
    && !s.crashed && Shape(s)
    && Places(s) == Once(|s.rooms|)
    && CountsFit(s)
    && Phase(s)
  }

  lemma {:induction false} InvInRange(s: State)
    requires Balanced(s)
    ensures RoomsInRange(s)
  {
    hide Places, Once, Phase;
    forall i | 0 <= i < |s.empty| ensures s.empty[i] < |s.rooms| { assert s.empty[i] in s.empty; }
    forall i | 0 <= i < |s.oneOcc| ensures s.oneOcc[i].room < |s.rooms| { assert s.oneOcc[i] in s.oneOcc; }
    forall i | 0 <= i < |s.oneFree| ensures s.oneFree[i] < |s.rooms| { assert s.oneFree[i] in s.oneFree; }
    forall i | 0 <= i < |s.twoOcc| ensures s.twoOcc[i] < |s.rooms| { assert s.twoOcc[i] in s.twoOcc; }
    forall g | 0 <= g < |s.guests| ensures GuestFits(s.rooms, s.guests[g]) { assert s.guests[g] in s.guests; }
    forall c | 0 <= c < |s.cleaners| ensures CleanerFits(s.rooms, s.cleaners[c]) { assert s.cleaners[c] in s.cleaners; }
  }

  // ---------- one guest or one cleaner changes its place in the program ----------

  lemma {:induction false} InUpdated<T>(s: seq<T>, i: nat, x: T)
    requires i < |s|
    ensures forall y :: y in s[i := x] ==> y == x || y in s
  {
  }

  lemma {:induction false} GuestMoves(s: State, g: nat, pc: GuestPc)
    requires g < |s.guests|
    ensures GuestHolds(s.guests[g]) <= Bag(GuestHolds, s.guests)
    ensures Bag(GuestHolds, s.guests[g := pc]) == Bag(GuestHolds, s.guests) - GuestHolds(s.guests[g]) + GuestHolds(pc)
    ensures Uncounted(s.guests[g]) <= Total(Uncounted, s.guests)
    ensures Total(Uncounted, s.guests[g := pc]) == Total(Uncounted, s.guests) - Uncounted(s.guests[g]) + Uncounted(pc)
    ensures forall x :: x in s.guests[g := pc] ==> x == pc || x in s.guests
    ensures s.guests[g] in s.guests
  {
    BagUpdate(GuestHolds, s.guests, g, pc);
    TotalUpdate(Uncounted, s.guests, g, pc);
    InUpdated(s.guests, g, pc);
  }

  lemma {:induction false} CleanerMoves(s: State, c: nat, pc: CleanerPc)
    requires c < |s.cleaners|
    ensures CleanerHolds(s.cleaners[c]) <= Bag(CleanerHolds, s.cleaners)
    ensures Bag(CleanerHolds, s.cleaners[c := pc]) == Bag(CleanerHolds, s.cleaners) - CleanerHolds(s.cleaners[c]) + CleanerHolds(pc)
    ensures IsReturned(s.cleaners[c]) <= Total(IsReturned, s.cleaners)
    ensures Total(IsReturned, s.cleaners[c := pc]) == Total(IsReturned, s.cleaners) - IsReturned(s.cleaners[c]) + IsReturned(pc)
    ensures forall x :: x in s.cleaners[c := pc] ==> x == pc || x in s.cleaners
    ensures s.cleaners[c] in s.cleaners
    ensures AnyBusyIn(s.cleaners[c := pc]) ==> AnyBusyIn(s.cleaners) || Busy(pc)
    ensures Busy(s.cleaners[c]) ==> AnyBusyIn(s.cleaners)
  {
    hide Total, Bag;
    BagUpdate(CleanerHolds, s.cleaners, c, pc);
    TotalUpdate(IsReturned, s.cleaners, c, pc);
    InUpdated(s.cleaners, c, pc);
    BusyMoves(s.cleaners, c, pc);
  }

  lemma {:induction false} BusyMoves(cs: seq<CleanerPc>, c: nat, pc: CleanerPc)
    requires c < |cs|
    ensures AnyBusyIn(cs[c := pc]) ==> AnyBusyIn(cs) || Busy(pc)
    ensures Busy(cs[c]) ==> AnyBusyIn(cs)
  {
    if AnyBusyIn(cs[c := pc]) && !Busy(pc) {
      var i :| 0 <= i < |cs[c := pc]| && Busy(cs[c := pc][i]);
      assert Busy(cs[i]);
    }
  }

  // ---------- steps of a guest that leave rooms and queues alone ----------

  lemma {:induction false} PlacesGoTo(s: State, g: nat, pc: GuestPc)
    requires g < |s.guests|
    ensures GuestHolds(s.guests[g]) <= Places(s)
    ensures Places(GoTo(s, g, pc)) == Places(s) - GuestHolds(s.guests[g]) + GuestHolds(pc)
  {
    hide Bag, GuestHolds;
    BagUpdate(GuestHolds, s.guests, g, pc);
  }

  lemma {:induction false} CountsGoTo(s: State, g: nat, pc: GuestPc)
    requires g < |s.guests| && CountsFit(s) && GuestFits(s.rooms, pc)
    ensures CountsFit(GoTo(s, g, pc))
  {
    hide GuestFits, CleanerFits;
    InUpdated(s.guests, g, pc);
  }

  lemma {:induction false} PhaseGoTo(s: State, g: nat, pc: GuestPc)
    requires g < |s.guests| && Phase(s) && Uncounted(pc) == Uncounted(s.guests[g])
    requires GuestHolds(pc) == GuestHolds(s.guests[g]) || s.useCount < 2 * |s.rooms|
    ensures Phase(GoTo(s, g, pc))
  {
    hide Bag, Total, GuestHolds, Uncounted;
    BagUpdate(GuestHolds, s.guests, g, pc);
    TotalUpdate(Uncounted, s.guests, g, pc);
  }

  /** A guest goes on in its program without touching a room. */
  lemma {:induction false} IdleMoveKeeps(s: State, g: nat, pc: GuestPc)
    requires Balanced(s) && g < |s.guests|
    requires GuestHolds(pc) == GuestHolds(s.guests[g]) && Uncounted(pc) == Uncounted(s.guests[g]) && GuestFits(s.rooms, pc)
    ensures Balanced(GoTo(s, g, pc))
  {
    hide Places, CountsFit, Phase, GuestFits, Once, GuestHolds, Uncounted;
    PlacesGoTo(s, g, pc);
    CountsGoTo(s, g, pc);
    PhaseGoTo(s, g, pc);
  }

  // ---------- a room that is out of its place for the moment ----------

  ghost predicate Absent(s: State, r: nat) {
    && r !in s.empty && r !in s.oneFree && r !in s.twoOcc
    && (forall q :: q in s.oneOcc ==> q.room != r)
    && (forall pc :: pc in s.guests ==> r !in GuestHolds(pc))
    && (forall pc :: pc in s.cleaners ==> r !in CleanerHolds(pc))
  }

  lemma {:induction false} AbsentIf(s: State, r: nat)
    requires Places(s)[r] == 0
    ensures Absent(s, r)
  {
    hide Bag;
    forall q | q in s.oneOcc ensures q.room != r {
      var i :| 0 <= i < |s.oneOcc| && s.oneOcc[i] == q;
      BagUpdate(RoomOf, s.oneOcc, i, q);
      assert r in RoomOf(q) ==> Bag(RoomOf, s.oneOcc)[r] > 0;
    }
    forall pc | pc in s.guests ensures r !in GuestHolds(pc) {
      var i :| 0 <= i < |s.guests| && s.guests[i] == pc;
      BagUpdate(GuestHolds, s.guests, i, pc);
      assert r in GuestHolds(pc) ==> Bag(GuestHolds, s.guests)[r] > 0;
    }
    forall pc | pc in s.cleaners ensures r !in CleanerHolds(pc) {
      var i :| 0 <= i < |s.cleaners| && s.cleaners[i] == pc;
      BagUpdate(CleanerHolds, s.cleaners, i, pc);
      assert r in CleanerHolds(pc) ==> Bag(CleanerHolds, s.cleaners)[r] > 0;
    }
  }

  // Nothing else speaks about an absent room, so it may change.
  lemma {:induction false} SetAbsentRoom(s: State, r: nat, room: Room)
    requires CountsFit(s) && Absent(s, r) && r < |s.rooms|
    ensures CountsFit(s.(rooms := s.rooms[r := room]))
  {
    var rooms := s.rooms[r := room];
    forall pc | pc in s.guests ensures GuestFits(rooms, pc) {
      assert GuestFits(s.rooms, pc) && r !in GuestHolds(pc);
    }
    forall pc | pc in s.cleaners ensures CleanerFits(rooms, pc) {
      assert CleanerFits(s.rooms, pc) && r !in CleanerHolds(pc);
    }
  }

  lemma {:induction false} TailBag(s: seq<nat>)
    requires s != []
    ensures s[0] in s && multiset(s) == multiset{s[0]} + multiset(s[1..])
    ensures forall x :: x in s[1..] ==> x in s
  {
    assert s == [s[0]] + s[1..];
  }

  // ---------- steps of a guest that move a room ----------

  // A room taken out of a place (s1 is s without it there), changed, and given to guest g.
  lemma {:induction false} HandToGuest(s: State, s1: State, r: nat, room: Room, g: nat, pc: GuestPc)
    requires Balanced(s) && g < |s.guests| && r < |s.rooms| && room.count <= 2
    requires s1 == s.(empty := s1.empty, oneOcc := s1.oneOcc, oneFree := s1.oneFree, tokens := s1.tokens) && |s1.tokens| == |s.tokens|
    requires CountsFit(s1) && Places(s) == Places(s1) + multiset{r}
    requires GuestHolds(s.guests[g]) == multiset{} && GuestHolds(pc) == multiset{r} && GuestFits(s.rooms[r := room], pc)
    ensures var s' := GoTo(s1.(rooms := s.rooms[r := room]), g, pc);
            && Shape(s') && Places(s') == Once(|s.rooms|) && CountsFit(s')
            && Total(Uncounted, s'.guests) == Total(Uncounted, s.guests) - Uncounted(s.guests[g]) + Uncounted(pc)
            && Total(CountOf, s'.rooms) == Total(CountOf, s.rooms) - s.rooms[r].count + room.count
            && s.rooms[r].count <= Total(CountOf, s.rooms)
  {
    hide Bag, Total, Once, GuestFits, Phase, Places, CountsFit, Absent, GuestHolds, Uncounted;
    OnceHas(|s.rooms|);
    assert Once(|s.rooms|)[r] == 1 && Places(s)[r] == 1;
    AbsentIf(s1, r);
    SetAbsentRoom(s1, r, room);
    var s2 := s1.(rooms := s.rooms[r := room]);
    SamePlaces(s1, s2);
    PlacesGoTo(s2, g, pc);
    CountsGoTo(s2, g, pc);
    TotalUpdate(CountOf, s.rooms, r, room);
    TotalUpdate(Uncounted, s.guests, g, pc);
  }

  lemma {:induction false} SamePlaces(s: State, s': State)
    requires s' == s.(rooms := s'.rooms)
    ensures Places(s') == Places(s)
  {
  }

  lemma {:induction false} LeavesEmpty(s: State)
    requires s.empty != [] && CountsFit(s)
    ensures s.empty[0] < |s.rooms| && s.rooms[s.empty[0]].count == 0
    ensures var s1 := s.(empty := s.empty[1..]); CountsFit(s1) && Places(s) == Places(s1) + multiset{s.empty[0]}
  {
    hide Bag, GuestFits, CleanerFits;
    TailBag(s.empty);
  }

  lemma {:induction false} LeavesOneFree(s: State)
    requires s.oneFree != [] && CountsFit(s)
    ensures s.oneFree[0] < |s.rooms| && s.rooms[s.oneFree[0]].count == 1
    ensures var s1 := s.(oneFree := s.oneFree[1..]); CountsFit(s1) && Places(s) == Places(s1) + multiset{s.oneFree[0]}
  {
    hide Bag, GuestFits, CleanerFits;
    TailBag(s.oneFree);
  }

  lemma {:induction false} LeavesOneOcc(s: State, i: nat, tokens: seq<nat>)
    requires i < |s.oneOcc| && CountsFit(s)
    ensures s.oneOcc[i].room < |s.rooms| && s.rooms[s.oneOcc[i].room].count == 1
    ensures var s1 := s.(oneOcc := s.oneOcc[..i] + s.oneOcc[i + 1..], tokens := tokens);
            CountsFit(s1) && Places(s) == Places(s1) + multiset{s.oneOcc[i].room}
  {
    hide Bag, GuestFits, CleanerFits;
    assert s.oneOcc[i] in s.oneOcc;
    BagRemove(RoomOf, s.oneOcc, i);
  }

  /** The first guest of a room: from empty_q to the guest. */
  lemma {:induction false} MoveInKeeps(s: State, g: nat, t: nat)
    requires Balanced(s) && g < |s.guests| && s.guests[g] == Awake && s.empty != [] && RoundOpen(s)
    ensures s.empty[0] < |s.rooms| && Balanced(MoveIn(s, g, t))
  {
    hide Bag, Total, Once, CleanerFits, RoomsInRange, Absent, Places, CountsFit;
    LeavesEmpty(s);
    var r := s.empty[0];
    HandToGuest(s, s.(empty := s.empty[1..]), r, Room(1, true, g, s.rooms[r].cleanTime + t), g, Took(r));
  }

  /** The guard on taking an empty room is just what the invariant needs. HotelLimits has runs without it
      in which uses are lost, so the program relies on its sleeping times. */
  lemma {:induction false} MoveInKeepsIff(s: State, g: nat, t: nat)
    requires Balanced(s) && g < |s.guests| && s.guests[g] == Awake && s.empty != []
    ensures s.empty[0] < |s.rooms|
    ensures Balanced(MoveIn(s, g, t)) <==> RoundOpen(s)
  {
    hide Bag, Total, Once, CleanerFits, RoomsInRange, Absent, Places, CountsFit;
    LeavesEmpty(s);
    if RoundOpen(s) {
      MoveInKeeps(s, g, t);
    } else {
      var r := s.empty[0];
      HandToGuest(s, s.(empty := s.empty[1..]), r, Room(1, true, g, s.rooms[r].cleanTime + t), g, Took(r));
      assert s.useCount < 2 * |s.rooms| ==> AnyBusyIn(s.cleaners);
    }
  }

  lemma {:induction false} SecondUseKeeps(s: State, s1: State, r: nat, g: nat, t: nat)
    requires Balanced(s) && g < |s.guests| && r < |s.rooms| && s.rooms[r].count == 1 && s.useCount < 2 * |s.rooms|
    requires s1 == s.(oneOcc := s1.oneOcc, oneFree := s1.oneFree, tokens := s1.tokens) && |s1.tokens| == |s.tokens|
    requires CountsFit(s1) && Places(s) == Places(s1) + multiset{r}
    requires GuestHolds(s.guests[g]) == multiset{} && Uncounted(s.guests[g]) == 0
    ensures Balanced(Occupy(s1, g, r, t))
  {
    hide Bag, Total, Once, CleanerFits, Absent, Places, CountsFit;
    HandToGuest(s, s1, r, Room(2, true, g, s.rooms[r].cleanTime + t), g, Second(r));
  }

  // While rooms are being cleaned no room waits for a second guest.
  lemma {:induction false} SecondUseMeansUsing(s: State)
    requires Balanced(s) && (s.oneFree != [] || s.oneOcc != [])
    ensures s.useCount < 2 * |s.rooms|
  {
  }

  /** The second guest of a room, from one_free_q; the error exit is not taken. */
  lemma {:induction false} TryOneFreeKeeps(s: State, g: nat, t: nat)
    requires Balanced(s) && Enabled(s, TryOneFree(g, t))
    ensures RoomsInRange(s) && Balanced(Apply(s, TryOneFree(g, t)))
  {
    hide Bag, Total, Once, CleanerFits, RoomsInRange, Absent, Places, CountsFit, Phase, Shape;
    InvInRange(s);
    if s.oneFree == [] {
      IdleMoveKeeps(s, g, TryEvict);
    } else {
      SecondUseMeansUsing(s);
      LeavesOneFree(s);
      SecondUseKeeps(s, s.(oneFree := s.oneFree[1..]), s.oneFree[0], g, t);
    }
  }

  /** The second guest of a room, who evicts the first; the error exit is not taken. */
  lemma {:induction false} TryEvictingKeeps(s: State, g: nat, i: nat, t: nat)
    requires Balanced(s) && Enabled(s, TryEvicting(g, i, t))
    ensures RoomsInRange(s) && Balanced(Apply(s, TryEvicting(g, i, t)))
  {
    hide Bag, Total, Once, CleanerFits, Absent, Places, CountsFit, Phase;
    InvInRange(s);
    if s.oneOcc != [] && s.oneOcc[i].prio < s.prio[g] {
      var r := s.oneOcc[i].room;
      var tokens := s.tokens[r := s.tokens[r] + 1];
      SecondUseMeansUsing(s);
      LeavesOneOcc(s, i, tokens);
      SecondUseKeeps(s, s.(oneOcc := s.oneOcc[..i] + s.oneOcc[i + 1..], tokens := tokens), r, g, t);
    } else {
      IdleMoveKeeps(s, g, Outside);
    }
  }

  lemma {:induction false} HasInit(q: seq<Stay>, r: nat)
    requires q != []
    ensures Has(q, r) <==> Has(q[..|q| - 1], r) || q[|q| - 1].room == r
  {
    var init := q[..|q| - 1];
    if Has(init, r) {
      var i :| 0 <= i < |init| && init[i].room == r;
      assert q[i].room == r;
    }
    if Has(q, r) {
      var i :| 0 <= i < |q| && q[i].room == r;
      assert i < |init| ==> init[i].room == r;
    }
  }

  lemma {:induction false} WithoutElements(q: seq<Stay>, r: nat)
    ensures forall x :: x in Without(q, r) ==> x in q && x.room != r
    ensures !Has(q, r) ==> Without(q, r) == q
  {
    if q != [] {
      var init, last := q[..|q| - 1], q[|q| - 1];
      WithoutElements(init, r);
      HasInit(q, r);
      assert q == init + [last];
    }
  }

  lemma {:induction false} RoomsInit(q: seq<Stay>, x: nat)
    requires q != []
    ensures Bag(RoomOf, q)[x] == Bag(RoomOf, q[..|q| - 1])[x] + if q[|q| - 1].room == x then 1 else 0
  {
  }

  lemma {:induction false} HasBag(q: seq<Stay>, r: nat)
    ensures Has(q, r) <==> Bag(RoomOf, q)[r] > 0
  {
    if q != [] {
      HasInit(q, r);
      RoomsInit(q, r);
      hide Has, Bag;
      HasBag(q[..|q| - 1], r);
    }
  }

  lemma {:induction false} WithoutBag(q: seq<Stay>, r: nat, x: nat)
    ensures Bag(RoomOf, Without(q, r))[x] == if x == r then 0 else Bag(RoomOf, q)[x]
  {
    if q != [] {
      hide Bag;
      var init, last := q[..|q| - 1], q[|q| - 1];
      WithoutBag(init, r, x);
      RoomsInit(q, x);
      var w := Without(init, r);
      if last.room == r {
        assert Without(q, r) == w;
      } else {
        assert Without(q, r) == w + [last];
        RoomsInit(w + [last], x);
        assert (w + [last])[..|w|] == w;
      }
    }
  }

  lemma {:induction false} LeavesByFilter(s: State, r: nat)
    requires CountsFit(s) && Places(s)[r] <= 1 && Has(s.oneOcc, r)
    ensures r < |s.rooms| && s.rooms[r].count == 1
    ensures var s1 := s.(oneOcc := Without(s.oneOcc, r)); CountsFit(s1) && Places(s) == Places(s1) + multiset{r}
  {
    hide Bag, GuestFits, CleanerFits;
    var i :| 0 <= i < |s.oneOcc| && s.oneOcc[i].room == r;
    assert s.oneOcc[i] in s.oneOcc;
    WithoutElements(s.oneOcc, r);
    HasBag(s.oneOcc, r);
    WithoutBag(s.oneOcc, r, r);
    assert Bag(RoomOf, s.oneOcc)[r] == 1;
    forall x: nat ensures Bag(RoomOf, s.oneOcc)[x] == Bag(RoomOf, Without(s.oneOcc, r))[x] + multiset{r}[x] {
      WithoutBag(s.oneOcc, r, x);
    }
    assert Bag(RoomOf, s.oneOcc) == Bag(RoomOf, Without(s.oneOcc, r)) + multiset{r};
  }

  /** After a full stay: the room leaves one_occ_q with its guest, unless a new guest has it now. */
  lemma {:induction false} LeaveOneOccKeeps(s: State, g: nat)
    requires Balanced(s) && Enabled(s, LeaveOneOcc(g))
    ensures RoomsInRange(s) && Balanced(Apply(s, LeaveOneOcc(g)))
  {
    hide Bag, Total, Once, CleanerFits, Absent, Places, CountsFit, RoomsInRange, Has, Without;
    InvInRange(s);
    var r := s.guests[g].room;
    WithoutElements(s.oneOcc, r);
    if Has(s.oneOcc, r) {
      HasMeansSome(s.oneOcc, r);
      SecondUseMeansUsing(s);
      OnceHas(|s.rooms|);
      assert Once(|s.rooms|)[r] <= 1;
      LeavesByFilter(s, r);
      SameRoom(s.rooms, r);
      HandToGuest(s, s.(oneOcc := Without(s.oneOcc, r)), r, s.rooms[r], g, Moving(r));
    } else {
      IdleMoveKeeps(s, g, Outside);
    }
  }

  lemma {:induction false} HasMeansSome(q: seq<Stay>, r: nat)
    requires Has(q, r)
    ensures q != []
  {
  }

  lemma {:induction false} SameRoom(rooms: seq<Room>, r: nat)
    requires r < |rooms|
    ensures rooms[r := rooms[r]] == rooms
  {
  }

  // While rooms are being cleaned no guest holds one, or has a use left to count.
  lemma {:induction false} HoldingMeansUsing(s: State, g: nat)
    requires Balanced(s) && g < |s.guests| && (GuestHolds(s.guests[g]) != multiset{} || Uncounted(s.guests[g]) > 0)
    ensures s.useCount < 2 * |s.rooms|
  {
    hide Bag, Total, Once, Places, CountsFit;
    GuestMoves(s, g, Outside);
  }

  lemma {:induction false} GuestHoldsFits(s: State, g: nat)
    requires CountsFit(s) && g < |s.guests|
    ensures GuestFits(s.rooms, s.guests[g])
  {
    assert s.guests[g] in s.guests;
  }

  /** A guest lets its room go into a queue (s1 is s with the room there) and goes on. */
  lemma {:induction false} GiveFromGuest(s: State, s1: State, r: nat, g: nat, pc: GuestPc)
    requires Balanced(s) && g < |s.guests|
    requires s1 == s.(oneOcc := s1.oneOcc, oneFree := s1.oneFree, twoOcc := s1.twoOcc)
    requires CountsFit(s1) && Places(s1) == Places(s) + multiset{r}
    requires GuestHolds(s.guests[g]) == multiset{r} && GuestHolds(pc) == multiset{}
    requires GuestFits(s.rooms, pc) && Uncounted(pc) == Uncounted(s.guests[g])
    ensures Balanced(GoTo(s1, g, pc))
  {
    hide Bag, Total, Once, GuestFits, Phase, Places, CountsFit, Uncounted;
    HoldingMeansUsing(s, g);
    PlacesGoTo(s1, g, pc);
    CountsGoTo(s1, g, pc);
    UsingAnyQueues(s, s1);
    PhaseGoTo(s1, g, pc);
  }

  lemma {:induction false} UsingAnyQueues(s: State, s1: State)
    requires Phase(s) && s.useCount < 2 * |s.rooms|
    requires s1 == s.(oneOcc := s1.oneOcc, oneFree := s1.oneFree, twoOcc := s1.twoOcc)
    ensures Phase(s1)
  {
    hide Bag, Total;
  }

  lemma {:induction false} EntersOneOcc(s: State, q: Stay)
    requires CountsFit(s) && q.room < |s.rooms| && s.rooms[q.room].count == 1
    ensures var s1 := s.(oneOcc := s.oneOcc + [q]); CountsFit(s1) && Places(s1) == Places(s) + multiset{q.room}
  {
    hide Bag, GuestFits, CleanerFits;
    BagAppend(RoomOf, s.oneOcc, q);
  }

  lemma {:induction false} EntersOneFree(s: State, r: nat)
    requires CountsFit(s) && r < |s.rooms| && s.rooms[r].count == 1
    ensures var s1 := s.(oneFree := s.oneFree + [r]); CountsFit(s1) && Places(s1) == Places(s) + multiset{r}
  {
    hide Bag, GuestFits, CleanerFits;
  }

  lemma {:induction false} EntersTwoOcc(s: State, r: nat)
    requires CountsFit(s) && r < |s.rooms| && s.rooms[r].count == 2
    ensures var s1 := s.(twoOcc := s.twoOcc + [r]); CountsFit(s1) && Places(s1) == Places(s) + multiset{r}
  {
    hide Bag, GuestFits, CleanerFits;
  }

  lemma {:induction false} EnterOneOccKeeps(s: State, g: nat)
    requires Balanced(s) && Enabled(s, EnterOneOcc(g))
    ensures RoomsInRange(s) && Balanced(Apply(s, EnterOneOcc(g)))
  {
    hide Bag, Total, Once, CleanerFits, Places, CountsFit, Phase, RoomsInRange;
    InvInRange(s);
    GuestHoldsFits(s, g);
    var r := s.guests[g].room;
    GuestInRange(s, g);
    EntersOneOcc(s, Stay(r, s.prio[g]));
    GiveFromGuest(s, s.(oneOcc := s.oneOcc + [Stay(r, s.prio[g])]), r, g, Staying(r));
  }

  lemma {:induction false} GuestInRange(s: State, g: nat)
    requires Balanced(s) && g < |s.guests|
    ensures |s.prio| == |s.guests| && |s.tokens| == |s.rooms|
  {
  }

  lemma {:induction false} EnterTwoOccKeeps(s: State, g: nat)
    requires Balanced(s) && Enabled(s, EnterTwoOcc(g))
    ensures RoomsInRange(s) && Balanced(Apply(s, EnterTwoOcc(g)))
  {
    hide Bag, Total, Once, CleanerFits, Places, CountsFit, Phase, RoomsInRange;
    InvInRange(s);
    GuestHoldsFits(s, g);
    var r := s.guests[g].room;
    EntersTwoOcc(s, r);
    GiveFromGuest(s, s.(twoOcc := s.twoOcc + [r]), r, g, Pushed(r));
  }

  // Who is in a room does not matter to the counts.
  lemma {:induction false} FreeRoomKeeps(s: State, r: nat)
    requires Balanced(s) && r < |s.rooms|
    ensures Balanced(s.(rooms := s.rooms[r := s.rooms[r].(occupied := false, guest := -1)]))
  {
    hide Bag, Total, Once;
    var room := s.rooms[r].(occupied := false, guest := -1);
    TotalUpdate(CountOf, s.rooms, r, room);
    SameCounts(s, s.rooms[r := room]);
    hide CountsFit;
  }

  lemma {:induction false} SameCounts(s: State, rooms: seq<Room>)
    requires CountsFit(s) && |rooms| == |s.rooms| && forall i :: 0 <= i < |rooms| ==> rooms[i].count == s.rooms[i].count
    ensures CountsFit(s.(rooms := rooms))
  {
    forall pc | pc in s.guests ensures GuestFits(rooms, pc) {
      assert GuestFits(s.rooms, pc);
    }
    forall pc | pc in s.cleaners ensures CleanerFits(rooms, pc) {
      assert CleanerFits(s.rooms, pc);
    }
  }

  lemma {:induction false} GiveFreeKeeps(s: State, g: nat)
    requires Balanced(s) && Enabled(s, GiveFree(g))
    ensures RoomsInRange(s) && Balanced(Apply(s, GiveFree(g)))
  {
    hide Bag, Total, Once, CleanerFits, Places, CountsFit, Phase, RoomsInRange;
    InvInRange(s);
    GuestHoldsFits(s, g);
    var r := s.guests[g].room;
    var s0 := s.(rooms := s.rooms[r := s.rooms[r].(occupied := false, guest := -1)]);
    FreeRoomKeeps(s, r);
    EntersOneFree(s0, r);
    GiveFromGuest(s0, s0.(oneFree := s0.oneFree + [r]), r, g, Outside);
  }

  // ---------- counting the uses ----------

  lemma {:induction false} UsesAtMost(s: State)
    requires Shape(s)
    ensures Total(CountOf, s.rooms) <= 2 * |s.rooms|
    ensures Total(CountOf, s.rooms) == 2 * |s.rooms| ==> forall r :: 0 <= r < |s.rooms| ==> s.rooms[r].count == 2
  {
    hide Total;
    TotalAtMost(CountOf, s.rooms, 2);
    assert forall r :: 0 <= r < |s.rooms| ==> CountOf(s.rooms[r]) == s.rooms[r].count;
  }

  lemma {:induction false} CountFirstKeeps(s: State, g: nat)
    requires Balanced(s) && Enabled(s, CountFirst(g))
    ensures RoomsInRange(s) && Balanced(Apply(s, CountFirst(g)))
  {
    hide Bag, Total, Once, CleanerFits, Places, CountsFit, RoomsInRange;
    InvInRange(s);
    GuestHoldsFits(s, g);
    HoldingMeansUsing(s, g);
    UsesAtMost(s);
    var pc := Counted(s.guests[g].room);
    GuestMoves(s, g, pc);
    PlacesGoTo(s, g, pc);
    CountsGoTo(s, g, pc);
    var s1 := s.(useCount := s.useCount + 1);
    SameQueues(GoTo(s, g, pc), GoTo(s1, g, pc));
  }

  lemma {:induction false} SameQueues(s: State, s': State)
    requires s' == s.(useCount := s'.useCount, numCleaned := s'.numCleaned)
    ensures Places(s') == Places(s) && (CountsFit(s) ==> CountsFit(s'))
  {
    hide GuestFits, CleanerFits;
  }

  // When every room was used twice and every use is counted, all rooms are in two_occ_q.
  lemma {:induction false} AllUsedTwice(s: State)
    requires CountsFit(s) && Total(Uncounted, s.guests) == 0
    requires forall r :: 0 <= r < |s.rooms| ==> s.rooms[r].count == 2
    ensures s.empty == [] && s.oneOcc == [] && s.oneFree == []
    ensures Bag(GuestHolds, s.guests) == multiset{}
  {
    hide Bag, Total;
    if s.empty != [] { Head(s.empty); }
    if s.oneOcc != [] { Head(s.oneOcc); }
    if s.oneFree != [] { Head(s.oneFree); }
    TotalZero(Uncounted, s.guests);
    forall r ensures r !in Bag(GuestHolds, s.guests) {
      forall i | 0 <= i < |s.guests| ensures r !in GuestHolds(s.guests[i]) {
        GuestHoldsFits(s, i);
        assert Uncounted(s.guests[i]) == 0;
      }
      BagHas(GuestHolds, s.guests, r);
    }
  }

  lemma {:induction false} Head<T>(s: seq<T>)
    requires s != []
    ensures s[0] in s
  {
  }

  // Counting a use in use_count, before looking at phases.
  lemma {:induction false} CountedUse(s: State, g: nat, pc: GuestPc)
    requires Balanced(s) && g < |s.guests| && s.guests[g].Pushed? && GuestHolds(pc) == multiset{} && Uncounted(pc) == 0 && GuestFits(s.rooms, pc)
    ensures var s' := GoTo(s.(useCount := s.useCount + 1), g, pc);
            && Shape(s') && Places(s') == Once(|s.rooms|) && CountsFit(s')
            && Using(s) && s.useCount + 1 <= Total(CountOf, s.rooms) <= 2 * |s.rooms|
            && s'.useCount + Total(Uncounted, s'.guests) == Total(CountOf, s'.rooms)
  {
    hide Bag, Total, Once, CleanerFits, Places, CountsFit, AnyBusyIn, GuestFits;
    HoldingMeansUsing(s, g);
    UsesAtMost(s);
    GuestMoves(s, g, pc);
    PlacesGoTo(s, g, pc);
    CountsGoTo(s, g, pc);
    SameQueues(GoTo(s, g, pc), GoTo(s.(useCount := s.useCount + 1), g, pc));
  }

  lemma {:induction false} LastUseStartsCleaning(s: State, g: nat)
    requires Balanced(s) && g < |s.guests| && s.guests[g].Pushed? && s.useCount + 1 == 2 * |s.rooms|
    ensures var s' := GoTo(s.(useCount := s.useCount + 1), g, Outside);
            Balanced(s') && s'.empty == [] && s'.oneOcc == [] && s'.oneFree == []
            && Bag(GuestHolds, s'.guests) == multiset{} && Bag(CleanerHolds, s'.cleaners) == multiset{}
  {
    hide Bag, Total, Once, Places, CountsFit, AnyBusyIn, GuestHolds, Uncounted;
    GuestHoldsNothing();
    CountedUse(s, g, Outside);
    UsesAtMost(s);
    AllUsedTwice(GoTo(s.(useCount := s.useCount + 1), g, Outside));
  }

  lemma {:induction false} GuestHoldsNothing()
    ensures GuestHolds(Outside) == multiset{} && Uncounted(Outside) == 0
  {
  }

  /** The last of 2n uses is counted here, and it starts the cleaning. */
  lemma {:induction false} SignalCleanersKeeps(s: State, g: nat)
    requires Balanced(s) && Enabled(s, SignalCleaners(g))
    ensures RoomsInRange(s) && Balanced(Apply(s, SignalCleaners(g)))
  {
    hide Bag, Total, Once, CleanerFits, Places, CountsFit, RoomsInRange, AnyBusyIn, BeingCleaned;
    InvInRange(s);
    GuestHoldsFits(s, g);
    HoldingMeansUsing(s, g);
    if s.useCount + 1 == 2 * |s.rooms| {
      LastUseStartsCleaning(s, g);
    } else {
      CountedUse(s, g, Staying2(s.guests[g].room));
    }
  }

  // ---------- steps of a cleaner ----------

  lemma {:induction false} PlacesCleanerTo(s: State, c: nat, pc: CleanerPc)
    requires c < |s.cleaners|
    ensures CleanerHolds(s.cleaners[c]) <= Places(s)
    ensures Places(CleanerTo(s, c, pc)) == Places(s) - CleanerHolds(s.cleaners[c]) + CleanerHolds(pc)
  {
    hide Bag, CleanerHolds;
    BagUpdate(CleanerHolds, s.cleaners, c, pc);
  }

  lemma {:induction false} CountsCleanerTo(s: State, c: nat, pc: CleanerPc)
    requires c < |s.cleaners| && CountsFit(s) && CleanerFits(s.rooms, pc)
    ensures CountsFit(CleanerTo(s, c, pc))
  {
    hide GuestFits, CleanerFits;
    InUpdated(s.cleaners, c, pc);
  }

  lemma {:induction false} CleanerIdles(s: State, c: nat, pc: CleanerPc, numCleaned: nat)
    requires Balanced(s) && c < |s.cleaners| && CleanerHolds(s.cleaners[c]) == multiset{} == CleanerHolds(pc)
    requires IsReturned(pc) == 0 == IsReturned(s.cleaners[c])
    requires numCleaned == s.numCleaned || (numCleaned == 0 && (s.useCount == 2 * |s.rooms| ==> s.empty == [] && Total(IsReturned, s.cleaners) == 0))
    requires Busy(pc) ==> s.useCount == 2 * |s.rooms| && numCleaned < |s.rooms|
    ensures Balanced(CleanerTo(s.(numCleaned := numCleaned), c, pc))
  {
    hide Bag, Total, Once, Places, CountsFit, AnyBusyIn, CleanerHolds, IsReturned, Busy;
    HoldsNothingFits(s, pc);
    CleanerMoves(s, c, pc);
    PlacesCleanerTo(s, c, pc);
    CountsCleanerTo(s, c, pc);
    SameQueues(CleanerTo(s, c, pc), CleanerTo(s.(numCleaned := numCleaned), c, pc));
  }

  lemma {:induction false} HoldsNothingFits(s: State, pc: CleanerPc)
    requires CleanerHolds(pc) == multiset{}
    ensures CleanerFits(s.rooms, pc)
  {
  }

  lemma {:induction false} CheckKeeps(s: State, c: nat)
    requires Balanced(s) && Enabled(s, Check(c))
    ensures RoomsInRange(s) && Balanced(Apply(s, Check(c)))
  {
    hide Bag, Total, Once, Places, CountsFit, RoomsInRange, Using, BeingCleaned;
    InvInRange(s);
    CleanerIdles(s, c, if s.useCount < 2 * |s.rooms| then Waiting else Ready, s.numCleaned);
  }

  lemma {:induction false} WakeKeeps(s: State, c: nat)
    requires Balanced(s) && Enabled(s, Wake(c))
    ensures RoomsInRange(s) && Balanced(Apply(s, Wake(c)))
  {
    hide Bag, Total, Once, Places, CountsFit, RoomsInRange, Using, BeingCleaned;
    InvInRange(s);
    if NoneReturned(s) {
      TotalZero(IsReturned, s.cleaners);
    }
    CleanerIdles(s, c, if s.useCount < 2 * |s.rooms| then Waiting else Ready, 0);
  }

  lemma {:induction false} StopWaitingKeeps(s: State, c: nat)
    requires Balanced(s) && Enabled(s, StopWaiting(c))
    ensures RoomsInRange(s) && Balanced(Apply(s, StopWaiting(c)))
  {
    hide Bag, Total, Once, Places, CountsFit, RoomsInRange, Using, BeingCleaned;
    InvInRange(s);
    CleanerIdles(s, c, Top, s.numCleaned);
  }

  // A busy cleaner that finds something to clean, or has something, is in the cleaning phase.
  lemma {:induction false} BusyMeansCleaning(s: State, c: nat)
    requires Balanced(s) && c < |s.cleaners|
    requires (s.cleaners[c].Ready? && s.twoOcc != []) || s.cleaners[c].Cleaning? || s.cleaners[c].Returned?
    ensures s.useCount == 2 * |s.rooms| && s.numCleaned < |s.rooms|
  {
    hide Bag, Total, Once, Places;
    CleanerMoves(s, c, Top);
    if s.twoOcc != [] {
      var r := s.twoOcc[0];
      assert r in s.twoOcc && r < |s.rooms|;
      TotalUpdate(CountOf, s.rooms, r, s.rooms[r]);
    }
  }

  lemma {:induction false} LeavesTwoOcc(s: State)
    requires s.twoOcc != [] && CountsFit(s)
    ensures s.twoOcc[0] < |s.rooms|
    ensures var s1 := s.(twoOcc := s.twoOcc[1..]); CountsFit(s1) && Places(s) == Places(s1) + multiset{s.twoOcc[0]}
  {
    hide Bag, GuestFits, CleanerFits;
    TailBag(s.twoOcc);
  }

  // The phase while cleaning does not look at rooms and at two_occ_q.
  lemma {:induction false} CleaningGoesOn(s: State, s': State, c: nat, pc: CleanerPc)
    requires Phase(s) && s.useCount == 2 * |s.rooms| && s.numCleaned < |s.rooms| && c < |s.cleaners|
    requires s' == s.(rooms := s'.rooms, twoOcc := s'.twoOcc, empty := s'.empty, cleaners := s.cleaners[c := pc]) && |s'.rooms| == |s.rooms|
    requires |s'.empty| + IsReturned(s.cleaners[c]) == |s.empty| + IsReturned(pc)
    ensures Phase(s')
  {
    hide Bag, Total, IsReturned;
    TotalUpdate(IsReturned, s.cleaners, c, pc);
  }

  /** A room goes from two_occ_q to a cleaner, and counts as unused from then on. */
  lemma {:induction false} CleanerTakes(s: State, c: nat)
    requires Balanced(s) && c < |s.cleaners| && s.cleaners[c] == Ready && s.twoOcc != []
    ensures s.twoOcc[0] < |s.rooms|
    ensures var r := s.twoOcc[0];
            Balanced(CleanerTo(s.(twoOcc := s.twoOcc[1..], rooms := s.rooms[r := Room(0, false, -1, 0)]), c, Cleaning(r)))
  {
    hide Bag, Total, Once, Phase, Places, CountsFit, Absent;
    BusyMeansCleaning(s, c);
    LeavesTwoOcc(s);
    var r, room := s.twoOcc[0], Room(0, false, -1, 0);
    var s1 := s.(twoOcc := s.twoOcc[1..]);
    OnceHas(|s.rooms|);
    assert Once(|s.rooms|)[r] == 1 && Places(s)[r] == 1;
    AbsentIf(s1, r);
    SetAbsentRoom(s1, r, room);
    var s2 := s1.(rooms := s.rooms[r := room]);
    SamePlaces(s1, s2);
    PlacesCleanerTo(s2, c, Cleaning(r));
    CountsCleanerTo(s2, c, Cleaning(r));
    CleaningGoesOn(s, CleanerTo(s2, c, Cleaning(r)), c, Cleaning(r));
  }

  lemma {:induction false} TakeRoomKeeps(s: State, c: nat)
    requires Balanced(s) && Enabled(s, TakeRoom(c))
    ensures RoomsInRange(s) && Balanced(Apply(s, TakeRoom(c)))
  {
    hide Bag, Total, Once, Places, CountsFit, RoomsInRange, Phase, Shape;
    InvInRange(s);
    if s.twoOcc == [] {
      CleanerIdles(s, c, AllWait, s.numCleaned);
    } else {
      CleanerTakes(s, c);
    }
  }

  /** The cleaned room goes into empty_q. */
  lemma {:induction false} ReturnRoomKeeps(s: State, c: nat)
    requires Balanced(s) && Enabled(s, ReturnRoom(c))
    ensures RoomsInRange(s) && Balanced(Apply(s, ReturnRoom(c)))
  {
    hide Bag, Total, Once, Phase, Places, CountsFit, RoomsInRange;
    InvInRange(s);
    BusyMeansCleaning(s, c);
    CleanerHasFits(s, c);
    var r := s.cleaners[c].room;
    PlacesCleanerTo(s, c, Returned);
    CountsCleanerTo(s, c, Returned);
    var s1 := CleanerTo(s, c, Returned);
    EntersEmpty(s1, r);
    CleaningGoesOn(s, s1.(empty := s.empty + [r]), c, Returned);
  }

  lemma {:induction false} CleanerHasFits(s: State, c: nat)
    requires CountsFit(s) && c < |s.cleaners|
    ensures CleanerFits(s.rooms, s.cleaners[c])
  {
    assert s.cleaners[c] in s.cleaners;
  }

  lemma {:induction false} EntersEmpty(s: State, r: nat)
    requires CountsFit(s) && r < |s.rooms| && s.rooms[r].count == 0
    ensures var s1 := s.(empty := s.empty + [r]); CountsFit(s1) && Places(s1) == Places(s) + multiset{r}
  {
    hide Bag, GuestFits, CleanerFits;
  }

  lemma {:induction false} NoStays(q: seq<Stay>)
    ensures q == [] || Bag(RoomOf, q) != multiset{}
  {
    if q != [] {
      RoomsInit(q, q[|q| - 1].room);
    }
  }

  // When as many rooms are in empty_q as there are, all are there, and none counts as used.
  lemma {:induction false} AllEmpty(s: State)
    requires Places(s) == Once(|s.rooms|) && CountsFit(s) && |s.empty| >= |s.rooms|
    ensures multiset(s.empty) == Once(|s.rooms|) && |s.empty| == |s.rooms|
    ensures s.oneOcc == [] && s.oneFree == [] && s.twoOcc == []
    ensures Bag(GuestHolds, s.guests) == multiset{} && Bag(CleanerHolds, s.cleaners) == multiset{}
    ensures Total(CountOf, s.rooms) == 0
  {
    hide Bag, Total, GuestFits, CleanerFits;
    OnceSize(|s.rooms|);
    assert |multiset(s.empty)| == |s.empty|;
    var rest := Bag(RoomOf, s.oneOcc) + multiset(s.oneFree) + multiset(s.twoOcc) + Bag(GuestHolds, s.guests) + Bag(CleanerHolds, s.cleaners);
    assert Places(s) == multiset(s.empty) + rest;
    assert rest == multiset{};
    NoStays(s.oneOcc);
    assert |multiset(s.oneFree)| == |s.oneFree| && |multiset(s.twoOcc)| == |s.twoOcc|;
    OnceHas(|s.rooms|);
    forall i | 0 <= i < |s.rooms| ensures CountOf(s.rooms[i]) == 0 {
      assert Once(|s.rooms|)[i] == 1;
      assert i in multiset(s.empty);
    }
    TotalZero(CountOf, s.rooms);
  }

  /** use_count goes back to 0 when the last room is counted as cleaned. */
  lemma {:induction false} CountCleanedKeeps(s: State, c: nat)
    requires Balanced(s) && Enabled(s, CountCleaned(c))
    ensures RoomsInRange(s) && Balanced(Apply(s, CountCleaned(c)))
    ensures Apply(s, CountCleaned(c)).useCount == 0 ==>
              multiset(s.empty) == Once(|s.rooms|) && forall i :: 0 <= i < |s.rooms| ==> s.rooms[i].count == 0
  {
    hide Bag, Total, Once, Places, CountsFit, RoomsInRange, AnyBusyIn;
    InvInRange(s);
    BusyMeansCleaning(s, c);
    CleanerMoves(s, c, Top);
    PlacesCleanerTo(s, c, Top);
    CountsCleanerTo(s, c, Top);
    var s' := Apply(s, CountCleaned(c));
    SameQueues(CleanerTo(s, c, Top), s');
    if s.numCleaned + 1 == |s.rooms| {
      AllEmpty(s);
      TotalZero(CountOf, s.rooms);
      assert forall i :: 0 <= i < |s.rooms| ==> CountOf(s.rooms[i]) == s.rooms[i].count;
      AllEmpty(s');
    }
  }

  // ---------- every step, and whole runs ----------

  lemma {:induction false} FirstUseStepKeeps(s: State, e: Event)
    requires Balanced(s) && RoomsInRange(s) && Enabled(s, e)
    requires e.PassGate? || e.TryEmpty? || e.CountFirst? || e.EnterOneOcc? || e.EndStay? || e.LeaveOneOcc? || e.GiveFree?
    ensures Balanced(Apply(s, e))
  {
    hide Balanced, RoomsInRange, Places, CountsFit, Phase;
    match e
    case PassGate(g) => IdleMoveKeeps(s, g, Awake);
    case TryEmpty(g, t) =>
      if s.empty == [] {
        IdleMoveKeeps(s, g, TryFree);
      } else {
        MoveInKeeps(s, g, t);
      }
    case CountFirst(g) => CountFirstKeeps(s, g);
    case EnterOneOcc(g) => EnterOneOccKeeps(s, g);
    case EndStay(g, timedOut) => EndStayKeeps(s, g, timedOut);
    case LeaveOneOcc(g) => LeaveOneOccKeeps(s, g);
    case GiveFree(g) => GiveFreeKeeps(s, g);
  }

  lemma {:induction false} SecondUseStepKeeps(s: State, e: Event)
    requires Balanced(s) && RoomsInRange(s) && Enabled(s, e)
    requires e.TryOneFree? || e.TryEvicting? || e.EnterTwoOcc? || e.SignalCleaners? || e.EndSecond?
    ensures Balanced(Apply(s, e))
  {
    hide Balanced, RoomsInRange, Places, CountsFit, Phase;
    match e
    case TryOneFree(g, t) => TryOneFreeKeeps(s, g, t);
    case TryEvicting(g, i, t) => TryEvictingKeeps(s, g, i, t);
    case EnterTwoOcc(g) => EnterTwoOccKeeps(s, g);
    case SignalCleaners(g) => SignalCleanersKeeps(s, g);
    case EndSecond(g) => IdleMoveKeeps(s, g, Outside);
  }

  lemma {:induction false} CleanerStepKeeps(s: State, e: Event)
    requires Balanced(s) && RoomsInRange(s) && Enabled(s, e)
    requires e.Check? || e.Wake? || e.TakeRoom? || e.ReturnRoom? || e.CountCleaned? || e.StopWaiting?
    ensures Balanced(Apply(s, e))
  {
    hide Balanced, RoomsInRange, Places, CountsFit, Phase;
    match e
    case Check(c) => CheckKeeps(s, c);
    case Wake(c) => WakeKeeps(s, c);
    case TakeRoom(c) => TakeRoomKeeps(s, c);
    case ReturnRoom(c) => ReturnRoomKeeps(s, c);
    case CountCleaned(c) => CountCleanedKeeps(s, c);
    case StopWaiting(c) => StopWaitingKeeps(s, c);
  }

  lemma {:induction false} BalanceKeeps(s: State, e: Event)
    requires Balanced(s) && Enabled(s, e)
    ensures RoomsInRange(s) && Balanced(Apply(s, e))
  {
    hide Balanced, RoomsInRange, Enabled, Apply;
    InvInRange(s);
    if e.Check? || e.Wake? || e.TakeRoom? || e.ReturnRoom? || e.CountCleaned? || e.StopWaiting? {
      CleanerStepKeeps(s, e);
    } else if e.TryOneFree? || e.TryEvicting? || e.EnterTwoOcc? || e.SignalCleaners? || e.EndSecond? {
      SecondUseStepKeeps(s, e);
    } else {
      FirstUseStepKeeps(s, e);
    }
  }

  lemma {:induction false} EndStayKeeps(s: State, g: nat, timedOut: bool)
    requires Balanced(s) && Enabled(s, EndStay(g, timedOut))
    ensures RoomsInRange(s) && Balanced(Apply(s, EndStay(g, timedOut)))
  {
    hide Places, CountsFit, Phase, RoomsInRange;
    InvInRange(s);
    var r := s.guests[g].room;
    StayingFits(s, g);
    IdleMoveKeeps(s, g, if timedOut then Leaving(r) else Outside);
    if !timedOut {
      TokensDoNotMatter(GoTo(s, g, Outside), s.tokens[r := s.tokens[r] - 1]);
    }
  }

  lemma {:induction false} StayingFits(s: State, g: nat)
    requires Balanced(s) && g < |s.guests| && s.guests[g].Staying?
    ensures s.guests[g].room < |s.rooms| == |s.tokens|
  {
    hide Places, Phase;
    GuestHoldsFits(s, g);
  }

  lemma {:induction false} TokensDoNotMatter(s: State, tokens: seq<nat>)
    requires Balanced(s) && |tokens| == |s.tokens|
    ensures Balanced(s.(tokens := tokens))
  {
    hide Bag, Total, Once, GuestFits, CleanerFits;
  }

  // ---------- who is registered in a room ----------

  // The guest that holds a room is the one registered there.
  ghost predicate HolderRegistered(rooms: seq<Room>, g: nat, pc: GuestPc) {
    match pc
    case Took(r) => r < |rooms| && rooms[r].guest == g
    case Counted(r) => r < |rooms| && rooms[r].guest == g
    case Second(r) => r < |rooms| && rooms[r].guest == g
    case _ => true
  }

  // An entry of one_occ_q has the priority of the guest registered in its room.
  ghost predicate EntryRegistered(rooms: seq<Room>, prio: seq<int>, q: Stay) {
    && q.room < |rooms| && 0 <= rooms[q.room].guest < |prio|
    && q.prio == prio[rooms[q.room].guest]
  }

  ghost predicate Registered(s: State) {
    && (forall q :: q in s.oneOcc ==> EntryRegistered(s.rooms, s.prio, q))
    && (forall g :: 0 <= g < |s.guests| ==> HolderRegistered(s.rooms, g, s.guests[g]))
  }

  ghost predicate Inv(s: State) {
    Balanced(s) && Registered(s)
  }

  // A guest goes on, and no entry comes to one_occ_q.
  lemma {:induction false} RegisteredGoTo(s: State, s': State, g: nat, pc: GuestPc)
    requires Registered(s) && g < |s.guests| && HolderRegistered(s.rooms, g, pc)
    requires s'.rooms == s.rooms && s'.prio == s.prio && s'.guests == s.guests[g := pc] && forall q :: q in s'.oneOcc ==> q in s.oneOcc
    ensures Registered(s')
  {
    hide HolderRegistered, EntryRegistered;
  }

  lemma {:induction false} RegisteredCleanerTo(s: State, s': State)
    requires Registered(s)
    requires s'.rooms == s.rooms && s'.prio == s.prio && s'.guests == s.guests && s'.oneOcc == s.oneOcc
    ensures Registered(s')
  {
    hide HolderRegistered, EntryRegistered;
  }

  // Nothing else speaks about an absent room.
  lemma {:induction false} RegisterAbsent(s: State, s': State, r: nat, room: Room)
    requires Registered(s) && Absent(s, r) && r < |s.rooms|
    requires s'.rooms == s.rooms[r := room] && s'.prio == s.prio && s'.guests == s.guests && s'.oneOcc == s.oneOcc
    ensures Registered(s')
  {
    forall q | q in s'.oneOcc ensures EntryRegistered(s'.rooms, s'.prio, q) {
      assert EntryRegistered(s.rooms, s.prio, q) && q.room != r;
    }
    forall g | 0 <= g < |s'.guests| ensures HolderRegistered(s'.rooms, g, s'.guests[g]) {
      assert HolderRegistered(s.rooms, g, s.guests[g]) && s.guests[g] in s.guests;
      assert r !in GuestHolds(s.guests[g]);
    }
  }

  // The room with which a place was left is in no other.
  lemma {:induction false} AbsentNow(s: State, s1: State, r: nat)
    requires Balanced(s) && Places(s) == Places(s1) + multiset{r}
    ensures Absent(s1, r)
  {
    hide Places, CountsFit, Phase, Shape, Absent;
    OnceHas(|s.rooms|);
    hide Once;
    assert Places(s)[r] == Once(|s.rooms|)[r];
    AbsentIf(s1, r);
  }

  // Guest g is registered in a room that was taken from where it was (s1 is s without it there).
  lemma {:induction false} RegisterGuest(s: State, s1: State, r: nat, room: Room, g: nat, pc: GuestPc)
    requires Inv(s) && g < |s.guests| && r < |s.rooms|
    requires s1 == s.(empty := s1.empty, oneOcc := s1.oneOcc, oneFree := s1.oneFree, tokens := s1.tokens)
    requires (forall q :: q in s1.oneOcc ==> q in s.oneOcc) && Places(s) == Places(s1) + multiset{r}
    requires HolderRegistered(s.rooms[r := room], g, pc)
    ensures Registered(GoTo(s1.(rooms := s.rooms[r := room]), g, pc))
  {
    hide Balanced, Places, HolderRegistered, EntryRegistered, Absent;
    AbsentNow(s, s1, r);
    var s2 := s1.(rooms := s.rooms[r := room]);
    RegisterAbsent(s1, s2, r, room);
    RegisteredGoTo(s2, GoTo(s2, g, pc), g, pc);
  }

  lemma {:induction false} TryEmptyRegisters(s: State, g: nat, t: nat)
    requires Inv(s) && RoomsInRange(s) && Enabled(s, TryEmpty(g, t))
    ensures Registered(Apply(s, TryEmpty(g, t)))
  {
    hide Places, Phase, CountsFit, EntryRegistered, RoomsInRange;
    if s.empty == [] {
      RegisteredGoTo(s, GoTo(s, g, TryFree), g, TryFree);
    } else {
      LeavesEmpty(s);
      var r := s.empty[0];
      RegisterGuest(s, s.(empty := s.empty[1..]), r, Room(1, true, g, s.rooms[r].cleanTime + t), g, Took(r));
    }
  }

  lemma {:induction false} EnterOneOccRegisters(s: State, g: nat)
    requires Inv(s) && RoomsInRange(s) && Enabled(s, EnterOneOcc(g))
    ensures Registered(Apply(s, EnterOneOcc(g)))
  {
    hide Places, Phase, CountsFit, EntryRegistered, RoomsInRange;
    var r := s.guests[g].room;
    assert HolderRegistered(s.rooms, g, s.guests[g]);
    RegisteredGoTo(s, GoTo(s, g, Staying(r)), g, Staying(r));
    EntryOfHolder(s.rooms, s.prio, g, r);
  }

  lemma {:induction false} EntryOfHolder(rooms: seq<Room>, prio: seq<int>, g: nat, r: nat)
    requires HolderRegistered(rooms, g, Counted(r)) && g < |prio|
    ensures EntryRegistered(rooms, prio, Stay(r, prio[g]))
  {
  }

  lemma {:induction false} GiveFreeRegisters(s: State, g: nat)
    requires Inv(s) && RoomsInRange(s) && Enabled(s, GiveFree(g))
    ensures Registered(Apply(s, GiveFree(g)))
  {
    hide Balanced, HolderRegistered, EntryRegistered, RoomsInRange, Absent;
    var r := s.guests[g].room;
    var s1 := GoTo(s, g, Outside);
    RegisteredOutside(s, s1, g);
    GivenUp(s, g);
    hide Registered;
    RegisterAbsent(s1, Apply(s, GiveFree(g)), r, s.rooms[r].(occupied := false, guest := -1));
  }

  lemma {:induction false} RegisteredOutside(s: State, s': State, g: nat)
    requires Registered(s) && g < |s.guests|
    requires s'.rooms == s.rooms && s'.prio == s.prio && s'.guests == s.guests[g := Outside] && forall q :: q in s'.oneOcc ==> q in s.oneOcc
    ensures Registered(s')
  {
    assert HolderRegistered(s.rooms, g, Outside);
    hide HolderRegistered, EntryRegistered;
    RegisteredGoTo(s, s', g, Outside);
  }

  // The room that a guest gives up is in no other place.
  lemma {:induction false} GivenUp(s: State, g: nat)
    requires Balanced(s) && g < |s.guests| && s.guests[g].Moving?
    ensures s.guests[g].room < |s.rooms| && Absent(GoTo(s, g, Outside), s.guests[g].room)
  {
    hide Places, Phase, Absent;
    GuestHoldsFits(s, g);
    PlacesGoTo(s, g, Outside);
    AbsentNow(s, GoTo(s, g, Outside), s.guests[g].room);
  }

  lemma {:induction false} OccupyRegisters(s: State, s1: State, r: nat, g: nat, t: nat)
    requires Inv(s) && g < |s.guests| && r < |s.rooms| && s.rooms[r].count == 1
    requires s1 == s.(oneOcc := s1.oneOcc, oneFree := s1.oneFree, tokens := s1.tokens)
    requires (forall q :: q in s1.oneOcc ==> q in s.oneOcc) && Places(s) == Places(s1) + multiset{r}
    ensures Registered(Occupy(s1, g, r, t))
  {
    hide Inv, Places, EntryRegistered, Registered;
    RegisterGuest(s, s1, r, Room(2, true, g, s.rooms[r].cleanTime + t), g, Second(r));
  }

  lemma {:induction false} TryOneFreeRegisters(s: State, g: nat, t: nat)
    requires Inv(s) && RoomsInRange(s) && Enabled(s, TryOneFree(g, t))
    ensures Registered(Apply(s, TryOneFree(g, t)))
  {
    hide Places, Phase, CountsFit, EntryRegistered, RoomsInRange;
    if s.oneFree == [] {
      RegisteredGoTo(s, GoTo(s, g, TryEvict), g, TryEvict);
    } else {
      LeavesOneFree(s);
      OccupyRegisters(s, s.(oneFree := s.oneFree[1..]), s.oneFree[0], g, t);
    }
  }

  lemma {:induction false} TryEvictingRegisters(s: State, g: nat, i: nat, t: nat)
    requires Inv(s) && RoomsInRange(s) && Enabled(s, TryEvicting(g, i, t))
    ensures Registered(Apply(s, TryEvicting(g, i, t)))
  {
    hide Places, Phase, CountsFit, EntryRegistered, HolderRegistered;
    if s.oneOcc != [] && s.oneOcc[i].prio < s.prio[g] {
      var r := s.oneOcc[i].room;
      var tokens := s.tokens[r := s.tokens[r] + 1];
      LeavesOneOcc(s, i, tokens);
      OccupyRegisters(s, s.(oneOcc := s.oneOcc[..i] + s.oneOcc[i + 1..], tokens := tokens), r, g, t);
    } else {
      RegisteredOutside(s, GoTo(s, g, Outside), g);
    }
  }

  lemma {:induction false} LeaveOneOccRegisters(s: State, g: nat)
    requires Inv(s) && RoomsInRange(s) && Enabled(s, LeaveOneOcc(g))
    ensures Registered(Apply(s, LeaveOneOcc(g)))
  {
    hide Balanced, EntryRegistered, RoomsInRange, Without, Has;
    var r := s.guests[g].room;
    WithoutElements(s.oneOcc, r);
    RegisteredGoTo(s, Apply(s, LeaveOneOcc(g)), g, if Has(s.oneOcc, r) then Moving(r) else Outside);
  }

  lemma {:induction false} TakeRoomRegisters(s: State, c: nat)
    requires Inv(s) && RoomsInRange(s) && Enabled(s, TakeRoom(c))
    ensures Registered(Apply(s, TakeRoom(c)))
  {
    hide Places, Phase, CountsFit, EntryRegistered, HolderRegistered, Absent;
    if s.twoOcc == [] {
      RegisteredCleanerTo(s, Apply(s, TakeRoom(c)));
    } else {
      LeavesTwoOcc(s);
      var r := s.twoOcc[0];
      var s1 := s.(twoOcc := s.twoOcc[1..]);
      AbsentNow(s, s1, r);
      RegisteredCleanerTo(s, s1);
      RegisterAbsent(s1, Apply(s, TakeRoom(c)), r, Room(0, false, -1, 0));
    }
  }

  // Steps at which a guest only goes on.
  lemma {:induction false} IdleRegisters(s: State, e: Event)
    requires Registered(s) && RoomsInRange(s) && Enabled(s, e)
    requires e.PassGate? || e.CountFirst? || e.EndStay? || e.EnterTwoOcc? || e.SignalCleaners? || e.EndSecond?
    ensures Registered(Apply(s, e))
  {
    hide RoomsInRange, EntryRegistered;
    assert HolderRegistered(s.rooms, e.g, s.guests[e.g]);
    RegisteredGoTo(s, Apply(s, e), e.g, Apply(s, e).guests[e.g]);
  }

  /** Whoever is registered in a room stays the one whose priority its entry in one_occ_q has. */
  lemma {:induction false} RegisteredKeeps(s: State, e: Event)
    requires Inv(s) && RoomsInRange(s) && Enabled(s, e)
    ensures Registered(Apply(s, e))
  {
    hide Balanced, RoomsInRange, HolderRegistered, EntryRegistered;
    match e
    case TryEmpty(g, t) => TryEmptyRegisters(s, g, t);
    case EnterOneOcc(g) => EnterOneOccRegisters(s, g);
    case LeaveOneOcc(g) => LeaveOneOccRegisters(s, g);
    case GiveFree(g) => GiveFreeRegisters(s, g);
    case TryOneFree(g, t) => TryOneFreeRegisters(s, g, t);
    case TryEvicting(g, i, t) => TryEvictingRegisters(s, g, i, t);
    case TakeRoom(c) => TakeRoomRegisters(s, c);
    case Check(_) => RegisteredCleanerTo(s, Apply(s, e));
    case Wake(_) => RegisteredCleanerTo(s, Apply(s, e));
    case ReturnRoom(_) => RegisteredCleanerTo(s, Apply(s, e));
    case CountCleaned(_) => RegisteredCleanerTo(s, Apply(s, e));
    case StopWaiting(_) => RegisteredCleanerTo(s, Apply(s, e));
    case _ => IdleRegisters(s, e);
  }

  /** Whatever happens next, the invariant stays. */
  lemma {:induction false} StepKeeps(s: State, e: Event)
    requires Inv(s) && Enabled(s, e)
    ensures RoomsInRange(s) && Inv(Apply(s, e))
  {
    hide Balanced, Registered, RoomsInRange, Enabled, Apply;
    BalanceKeeps(s, e);
    RegisteredKeeps(s, e);
  }

  /** The start: all rooms in empty_q, nobody anywhere, nothing counted. */
  ghost predicate Init(s: State) {
    && |s.rooms| > 0 && |s.tokens| == |s.rooms| && |s.prio| == |s.guests|
    && (forall r :: 0 <= r < |s.rooms| ==> s.rooms[r] == Room(0, false, -1, 0))
    && s.empty == seq(|s.rooms|, i => i) && s.oneOcc == [] && s.oneFree == [] && s.twoOcc == []
    && s.useCount == 0 && s.numCleaned == 0 && !s.crashed
    && (forall g :: 0 <= g < |s.guests| ==> s.guests[g] == Outside)
    && (forall c :: 0 <= c < |s.cleaners| ==> s.cleaners[c] == Top)
  }

  lemma {:induction false} OnceUpTo(n: nat)
    ensures multiset(seq(n, i => i)) == Once(n)
  {
    if n > 0 {
      OnceUpTo(n - 1);
      assert seq(n, i => i) == seq(n - 1, i => i) + [n - 1];
    }
  }

  lemma {:induction false} InitBalanced(s: State)
    requires Init(s)
    ensures Balanced(s)
  {
    hide Bag, Total, Once;
    OnceUpTo(|s.rooms|);
    NothingHeld(s);
    forall g | 0 <= g < |s.guests| ensures Uncounted(s.guests[g]) == 0 {}
    TotalZero(Uncounted, s.guests);
    TotalZero(CountOf, s.rooms);
    TotalZero(IsReturned, s.cleaners);
  }

  lemma {:induction false} InitInv(s: State)
    requires Init(s)
    ensures Inv(s)
  {
    hide Balanced;
    InitBalanced(s);
  }

  lemma {:induction false} NothingHeld(s: State)
    requires Init(s)
    ensures Bag(RoomOf, s.oneOcc) == multiset{}
    ensures Bag(GuestHolds, s.guests) == multiset{} && Bag(CleanerHolds, s.cleaners) == multiset{}
  {
    forall r ensures r !in Bag(GuestHolds, s.guests) && r !in Bag(CleanerHolds, s.cleaners) {
      BagHas(GuestHolds, s.guests, r);
      BagHas(CleanerHolds, s.cleaners, r);
    }
  }

  /** Reachable states: some steps after the start. */
  ghost predicate IsRun(ss: seq<State>, es: seq<Event>) {
    && |ss| == |es| + 1 && Init(ss[0])
    && forall i, j :: 0 <= i < |es| && j == i + 1 ==> Enabled(ss[i], es[i]) && (RoomsInRange(ss[i]) ==> ss[j] == Apply(ss[i], es[i]))
  }

  lemma {:induction false} RunKeeps(ss: seq<State>, es: seq<Event>, i: nat)
    requires IsRun(ss, es) && i < |ss|
    ensures Inv(ss[i]) && RoomsInRange(ss[i])
  {
    hide Inv, Init, RoomsInRange, Enabled;
    if i == 0 {
      InitInv(ss[0]);
    } else {
      RunKeeps(ss, es, i - 1);
      var before, e, after := ss[i - 1], es[i - 1], ss[i];
      StepKeeps(before, e);
    }
    InvIsBalanced(ss[i]);
    InvInRange(ss[i]);
  }

  lemma {:induction false} InvIsBalanced(s: State)
    requires Inv(s)
    ensures Balanced(s)
  {
  }

  /** Main result 1. At every moment of every run each room is in exactly one queue or held by exactly
      one guest or cleaner, and the program never takes its error exit. */
  lemma {:induction false} EveryRoomInOnePlace(ss: seq<State>, es: seq<Event>, i: nat, r: nat)
    requires IsRun(ss, es) && i < |ss| && r < |ss[i].rooms|
    ensures Places(ss[i])[r] == 1 && !ss[i].crashed
  {
    hide Places, CountsFit, Phase, Once, Init, RoomsInRange, Enabled;
    RunKeeps(ss, es, i);
    OnceHas(|ss[i].rooms|);
    assert Once(|ss[i].rooms|)[r] == 1;
  }

  /** Main result 2. While rooms are being used, use_count is the sum of first and second uses of all
      rooms, less the uses of guests who are about to count theirs. */
  lemma {:induction false} UsesAreCounted(ss: seq<State>, es: seq<Event>, i: nat)
    requires IsRun(ss, es) && i < |ss| && ss[i].useCount < 2 * |ss[i].rooms|
    ensures ss[i].useCount + Total(Uncounted, ss[i].guests) == Total(CountOf, ss[i].rooms)
  {
    hide Places, CountsFit, Init, RoomsInRange, Enabled, Total;
    RunKeeps(ss, es, i);
  }

  /** Main result 3. The use that brings use_count to 2n is counted in signal_cleaners, when all n
      rooms are in two_occ_q, each used twice; no guest has another use to count, so no other guest
      can be the last. */
  lemma {:induction false} LastUse(ss: seq<State>, es: seq<Event>, i: nat, j: nat)
    requires IsRun(ss, es) && i < |es| && j == i + 1
    requires ss[i].useCount < 2 * |ss[i].rooms| && ss[j].useCount == 2 * |ss[i].rooms|
    ensures es[i].SignalCleaners?
    ensures multiset(ss[j].twoOcc) == Once(|ss[i].rooms|)
    ensures forall room :: room in ss[j].rooms ==> room.count == 2
    ensures forall pc :: pc in ss[j].guests ==> Uncounted(pc) == 0
  {
    hide Places, CountsFit, Init, Total, Bag, Once;
    RunKeeps(ss, es, i);
    var s, e, s' := ss[i], es[i], ss[j];
    assert s' == Apply(s, e);
    OnlyTwoCount(s, e);
    LastUseFacts(s, e.g);
    TotalZero(Uncounted, s'.guests);
  }

  lemma {:induction false} OnlyTwoCount(s: State, e: Event)
    requires Balanced(s) && Enabled(s, e) && RoomsInRange(s)
    requires s.useCount < 2 * |s.rooms| && Apply(s, e).useCount == 2 * |s.rooms|
    ensures e.SignalCleaners? && Apply(s, e) == GoTo(s.(useCount := s.useCount + 1), e.g, Outside) && s.useCount + 1 == 2 * |s.rooms|
  {
    hide Places, CountsFit, Total, Bag, Once, RoomsInRange;
    if e.CountFirst? {
      CountFirstIsNotLast(s, e.g);
    }
  }

  lemma {:induction false} CountFirstIsNotLast(s: State, g: nat)
    requires Balanced(s) && g < |s.guests| && s.guests[g].Took?
    ensures s.useCount + 1 < 2 * |s.rooms|
  {
    hide Bag, Total, Once, CleanerFits, Places;
    GuestHoldsFits(s, g);
    HoldingMeansUsing(s, g);
    UsesAtMost(s);
    GuestMoves(s, g, Outside);
  }

  lemma {:induction false} LastUseFacts(s: State, g: nat)
    requires Balanced(s) && g < |s.guests| && s.guests[g].Pushed? && s.useCount + 1 == 2 * |s.rooms|
    ensures var s' := GoTo(s.(useCount := s.useCount + 1), g, Outside);
            && multiset(s'.twoOcc) == Once(|s.rooms|) && Total(Uncounted, s'.guests) == 0
            && forall room :: room in s.rooms ==> room.count == 2
  {
    hide Bag, Total, Once, CountsFit, GuestHolds, Uncounted, AnyBusyIn;
    GuestHoldsNothing();
    LastUseStartsCleaning(s, g);
    CountedUse(s, g, Outside);
    UsesAtMost(s);
    BagOfNone();
  }

  lemma {:induction false} BagOfNone()
    ensures Bag(RoomOf, []) == multiset{}
  {
  }

  /** Main result 4. use_count never falls except back to 0, and that only when all n rooms are in
      empty_q again, each counting as unused. */
  lemma {:induction false} ResetOnlyWhenClean(ss: seq<State>, es: seq<Event>, i: nat, j: nat)
    requires IsRun(ss, es) && i < |es| && j == i + 1 && ss[j].useCount < ss[i].useCount
    ensures ss[i].useCount == 2 * |ss[i].rooms| && ss[j].useCount == 0
    ensures es[i].CountCleaned? && multiset(ss[j].empty) == Once(|ss[i].rooms|)
    ensures forall room :: room in ss[j].rooms ==> room.count == 0
  {
    hide Places, CountsFit, Init, Total, Bag, Once, RoomsInRange;
    RunKeeps(ss, es, i);
    var s, e, s' := ss[i], es[i], ss[j];
    assert s' == Apply(s, e);
    assert e.CountCleaned?;
    BusyMeansCleaning(s, e.c);
    CountCleanedKeeps(s, e.c);
  }
}
