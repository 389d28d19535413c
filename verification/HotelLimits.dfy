/** Why a guest may take an empty room only while the round is open: without that guard, and also with
    the weaker one that not all rooms have been used twice, there are runs in which uses are lost. */
module HotelLimits {
  import opened Tally
  import opened HotelProtocol
  import opened HotelSafety

  // What is asked of a guest who takes an empty room.
  datatype Guard = Nothing | UsesLeft

  ghost predicate EnabledUnder(b: Guard, s: State, e: Event) {
    if e.TryEmpty? then
      e.g < |s.guests| && s.guests[e.g] == Awake && (b == UsesLeft && s.empty != [] ==> s.useCount < 2 * |s.rooms|)
    else
      Enabled(s, e)
  }

  // The same steps, under the other guard.
  ghost function ApplyUnder(b: Guard, s: State, e: Event): State
    requires RoomsInRange(s) && EnabledUnder(b, s, e)
  {
    if e.TryEmpty? then
      if s.empty != [] then MoveIn(s, e.g, e.t) else GoTo(s, e.g, TryFree)
    else
      Apply(s, e)
  }

  /** Under the guard RoundOpen these are the steps of the hotel. */
  lemma {:induction false} SameSteps(s: State, e: Event)
    requires RoomsInRange(s) && Enabled(s, e)
    ensures EnabledUnder(UsesLeft, s, e) && ApplyUnder(UsesLeft, s, e) == Apply(s, e)
  {
    hide RoomsInRange;
  }

  ghost predicate IsRunUnder(b: Guard, ss: seq<State>, es: seq<Event>) {
    && |ss| == |es| + 1 && Init(ss[0])
    && forall i, j :: 0 <= i < |es| && j == i + 1 ==>
         RoomsInRange(ss[i]) && EnabledUnder(b, ss[i], es[i]) && ss[j] == ApplyUnder(b, ss[i], es[i])
  }

  ghost predicate ReachableUnder(b: Guard, s: State) {
    exists ss, es :: IsRunUnder(b, ss, es) && ss[|es|] == s
  }

  // Where a thread is, if it is about a room, it is about room 0.
  predicate AboutRoom0(pc: GuestPc) {
    match pc
    case Took(r) => r == 0
    case Counted(r) => r == 0
    case Staying(r) => r == 0
    case Leaving(r) => r == 0
    case Moving(r) => r == 0
    case Second(r) => r == 0
    case Pushed(r) => r == 0
    case Staying2(r) => r == 0
    case _ => true
  }

  predicate OneRoom(s: State) {
    && |s.rooms| == |s.tokens| == 1 && |s.prio| == |s.guests| == 2 && AboutRoom0(s.guests[0]) && AboutRoom0(s.guests[1])
    && (s.empty == [] || s.empty == [0]) && (s.oneOcc == [] || s.oneOcc == [Stay(0, 0)])
    && (s.oneFree == [] || s.oneFree == [0]) && (s.twoOcc == [] || s.twoOcc == [0])
    && (forall c :: 0 <= c < |s.cleaners| && s.cleaners[c].Cleaning? ==> s.cleaners[c].room == 0)
  }

  lemma {:induction false} OneRoomInRange(s: State)
    requires OneRoom(s)
    ensures RoomsInRange(s)
  {
  }

  /** One more step, in a hotel of one room. */
  lemma {:induction false} Goes(b: Guard, s: State, e: Event, s': State)
    requires ReachableUnder(b, s) && OneRoom(s) && EnabledUnder(b, s, e) && (RoomsInRange(s) ==> s' == ApplyUnder(b, s, e))
    ensures ReachableUnder(b, s')
  {
    hide Init, RoomsInRange, EnabledUnder, ApplyUnder, OneRoom;
    OneRoomInRange(s);
    var ss, es :| IsRunUnder(b, ss, es) && ss[|es|] == s;
    var longer, steps := ss + [s'], es + [e];
    assert longer[0] == ss[0];
    forall i | 0 <= i < |steps|
      ensures RoomsInRange(longer[i]) && EnabledUnder(b, longer[i], steps[i]) && longer[i + 1] == ApplyUnder(b, longer[i], steps[i])
    {
      if i < |es| {
        var j := i + 1;
        assert longer[i] == ss[i] && longer[j] == ss[j] && steps[i] == es[i];
      }
    }
    assert IsRunUnder(b, longer, steps) && longer[|steps|] == s';
  }

  // ---------- one room, two guests ----------

  const CLEAN := Room(0, false, -1, 0)

  // The room, the queues it may be in, the counters, and where the threads are.
  function Hotel(room: Room, empty: seq<nat>, oneOcc: seq<Stay>, oneFree: seq<nat>, twoOcc: seq<nat>, useCount: nat, numCleaned: nat,
                 g0: GuestPc, g1: GuestPc, cs: seq<CleanerPc>): State {
    State([room], [0, 0], empty, oneOcc, oneFree, twoOcc, useCount, numCleaned, [0], [g0, g1], cs, false)
  }

  // No cleaner has a room in hand.
  predicate HandsFree(cs: seq<CleanerPc>) {
    forall c :: 0 <= c < |cs| ==> !cs[c].Cleaning?
  }

  lemma {:induction false} Opens(b: Guard, cs: seq<CleanerPc>)
    requires forall c :: 0 <= c < |cs| ==> cs[c] == Top
    ensures ReachableUnder(b, Hotel(CLEAN, [0], [], [], [], 0, 0, Outside, Outside, cs))
  {
    var s := Hotel(CLEAN, [0], [], [], [], 0, 0, Outside, Outside, cs);
    assert s.empty == seq(1, i => i);
    assert Init(s);
    var none: seq<Event> := [];
    assert IsRunUnder(b, [s], none) && [s][|none|] == s;
  }

  // Guest 0, awake, moves into the clean room,
  lemma {:induction false} MovesIn(b: Guard, k: nat, g1: GuestPc, cs: seq<CleanerPc>)
    requires ReachableUnder(b, Hotel(CLEAN, [0], [], [], [], 0, k, Awake, g1, cs)) && HandsFree(cs) && (g1 == Outside || g1 == Awake)
    ensures ReachableUnder(b, Hotel(Room(1, true, 0, 0), [], [], [], [], 1, k, Counted(0), g1, cs))
  {
    hide ReachableUnder, RoomsInRange;
    var used := Room(1, true, 0, 0);
    var s0 := Hotel(CLEAN, [0], [], [], [], 0, k, Awake, g1, cs);
    var s1 := Hotel(used, [], [], [], [], 0, k, Took(0), g1, cs);
    Goes(b, s0, TryEmpty(0, 0), s1);
    Goes(b, s1, CountFirst(0), Hotel(used, [], [], [], [], 1, k, Counted(0), g1, cs));
  }

  // stays,
  lemma {:induction false} Stays(b: Guard, k: nat, g1: GuestPc, cs: seq<CleanerPc>)
    requires ReachableUnder(b, Hotel(Room(1, true, 0, 0), [], [], [], [], 1, k, Counted(0), g1, cs))
    requires HandsFree(cs) && (g1 == Outside || g1 == Awake)
    ensures ReachableUnder(b, Hotel(Room(1, true, 0, 0), [], [Stay(0, 0)], [], [], 1, k, Leaving(0), g1, cs))
  {
    hide ReachableUnder, RoomsInRange;
    var used := Room(1, true, 0, 0);
    var stay: seq<Stay> := [Stay(0, 0)];
    var s2 := Hotel(used, [], [], [], [], 1, k, Counted(0), g1, cs);
    var s3 := Hotel(used, [], stay, [], [], 1, k, Staying(0), g1, cs);
    Goes(b, s2, EnterOneOcc(0), s3);
    Goes(b, s3, EndStay(0, true), Hotel(used, [], stay, [], [], 1, k, Leaving(0), g1, cs));
  }

  // and leaves it.
  lemma {:induction false} Frees(b: Guard, k: nat, g1: GuestPc, cs: seq<CleanerPc>)
    requires ReachableUnder(b, Hotel(Room(1, true, 0, 0), [], [Stay(0, 0)], [], [], 1, k, Leaving(0), g1, cs))
    requires HandsFree(cs) && (g1 == Outside || g1 == Awake)
    ensures ReachableUnder(b, Hotel(Room(1, false, -1, 0), [], [], [0], [], 1, k, Outside, g1, cs))
  {
    hide ReachableUnder, RoomsInRange;
    var used := Room(1, true, 0, 0);
    var stay: seq<Stay> := [Stay(0, 0)];
    var s4 := Hotel(used, [], stay, [], [], 1, k, Leaving(0), g1, cs);
    var s5 := Hotel(used, [], [], [], [], 1, k, Moving(0), g1, cs);
    assert stay[..0] == [] && stay[0].room == 0;
    assert Without(stay, 0) == [] && Has(stay, 0);
    Goes(b, s4, LeaveOneOcc(0), s5);
    Goes(b, s5, GiveFree(0), Hotel(Room(1, false, -1, 0), [], [], [0], [], 1, k, Outside, g1, cs));
  }

  lemma {:induction false} FirstUse(b: Guard, k: nat, g1: GuestPc, cs: seq<CleanerPc>)
    requires ReachableUnder(b, Hotel(CLEAN, [0], [], [], [], 0, k, Awake, g1, cs)) && HandsFree(cs) && (g1 == Outside || g1 == Awake)
    ensures ReachableUnder(b, Hotel(Room(1, false, -1, 0), [], [], [0], [], 1, k, Outside, g1, cs))
  {
    hide ReachableUnder, Hotel, RoomsInRange;
    MovesIn(b, k, g1, cs);
    Stays(b, k, g1, cs);
    Frees(b, k, g1, cs);
  }

  // Guest 1 finds no clean room,
  lemma {:induction false} LooksFurther(b: Guard, k: nat, g0: GuestPc, cs: seq<CleanerPc>)
    requires ReachableUnder(b, Hotel(Room(1, false, -1, 0), [], [], [0], [], 1, k, g0, Outside, cs)) && HandsFree(cs) && (g0 == Outside || g0 == Awake)
    ensures ReachableUnder(b, Hotel(Room(1, false, -1, 0), [], [], [0], [], 1, k, g0, TryFree, cs))
  {
    hide ReachableUnder, RoomsInRange;
    var s0 := Hotel(Room(1, false, -1, 0), [], [], [0], [], 1, k, g0, Outside, cs);
    var s1 := Hotel(Room(1, false, -1, 0), [], [], [0], [], 1, k, g0, Awake, cs);
    Goes(b, s0, PassGate(1), s1);
    Goes(b, s1, TryEmpty(1, 0), Hotel(Room(1, false, -1, 0), [], [], [0], [], 1, k, g0, TryFree, cs));
  }

  // and uses this one as its second guest; the use is not counted yet.
  lemma {:induction false} SecondUse(b: Guard, k: nat, g0: GuestPc, cs: seq<CleanerPc>)
    requires ReachableUnder(b, Hotel(Room(1, false, -1, 0), [], [], [0], [], 1, k, g0, Outside, cs)) && HandsFree(cs) && (g0 == Outside || g0 == Awake)
    ensures ReachableUnder(b, Hotel(Room(2, true, 1, 0), [], [], [], [0], 1, k, g0, Pushed(0), cs))
  {
    hide ReachableUnder, RoomsInRange;
    LooksFurther(b, k, g0, cs);
    var s2 := Hotel(Room(1, false, -1, 0), [], [], [0], [], 1, k, g0, TryFree, cs);
    var s3 := Hotel(Room(2, true, 1, 0), [], [], [], [], 1, k, g0, Second(0), cs);
    Goes(b, s2, TryOneFree(1, 0), s3);
    Goes(b, s3, EnterTwoOcc(1), Hotel(Room(2, true, 1, 0), [], [], [], [0], 1, k, g0, Pushed(0), cs));
  }

  // A full round, but for the cleaning; guest 0 is past the gate again.
  lemma {:induction false} RoundUsed(b: Guard, cs: seq<CleanerPc>)
    requires forall c :: 0 <= c < |cs| ==> cs[c] == Top
    ensures ReachableUnder(b, Hotel(Room(2, true, 1, 0), [], [], [], [0], 2, 0, Awake, Outside, cs))
  {
    hide ReachableUnder, RoomsInRange;
    Opens(b, cs);
    Goes(b, Hotel(CLEAN, [0], [], [], [], 0, 0, Outside, Outside, cs), PassGate(0), Hotel(CLEAN, [0], [], [], [], 0, 0, Awake, Outside, cs));
    FirstUse(b, 0, Outside, cs);
    var s := Hotel(Room(1, false, -1, 0), [], [], [0], [], 1, 0, Outside, Outside, cs);
    Goes(b, s, PassGate(0), s.(guests := [Awake, Outside]));
    SecondUse(b, 0, Awake, cs);
    var t := Hotel(Room(2, true, 1, 0), [], [], [], [0], 1, 0, Awake, Pushed(0), cs);
    Goes(b, t, SignalCleaners(1), t.(useCount := 2, guests := [Awake, Outside]));
  }

  // What main result 2 of the hotel says about a state.
  ghost predicate UsesFit(s: State) {
    s.useCount < 2 * |s.rooms| ==> s.useCount + Total(Uncounted, s.guests) == Total(CountOf, s.rooms)
  }

  lemma {:induction false} TotalsOf(room: Room, g0: GuestPc, g1: GuestPc)
    ensures Total(CountOf, [room]) == room.count && Total(Uncounted, [g0, g1]) == Uncounted(g0) + Uncounted(g1)
  {
    var rooms, guests := [room], [g0, g1];
    assert rooms[..0] == [] && guests[..1] == [g0];
    var one := [g0];
    assert one[..0] == [] && Total(Uncounted, one) == Uncounted(g0);
  }

  /** Without a guard: a guest past the gate takes a room that has just been cleaned, while others are
      still being cleaned, and counts its use before the reset. The use is lost: use_count falls to 0
      with the room taken, so that neither main result 2 nor main result 4 holds. */
  lemma {:induction false} LateGuestLosesAUse()
    ensures exists s :: ReachableUnder(Nothing, s) && !UsesFit(s) && s.useCount == 0 && s.empty == []
  {
    hide ReachableUnder, RoomsInRange;
    RoundUsed(Nothing, [Top]);
    IsCleaned();
    LateGuestMovesIn();
    var s := Hotel(Room(1, true, 0, 0), [], [], [], [], 0, 1, Counted(0), Outside, [Top]);
    TotalsOf(s.rooms[0], Counted(0), Outside);
    assert ReachableUnder(Nothing, s) && !UsesFit(s);
  }

  lemma {:induction false} IsCleaned()
    requires ReachableUnder(Nothing, Hotel(Room(2, true, 1, 0), [], [], [], [0], 2, 0, Awake, Outside, [Top]))
    ensures ReachableUnder(Nothing, Hotel(CLEAN, [0], [], [], [], 2, 0, Awake, Outside, [Returned]))
  {
    hide ReachableUnder, RoomsInRange;
    var s0 := Hotel(Room(2, true, 1, 0), [], [], [], [0], 2, 0, Awake, Outside, [Top]);
    var s1 := s0.(cleaners := [Ready]);
    var s2 := Hotel(CLEAN, [], [], [], [], 2, 0, Awake, Outside, [Cleaning(0)]);
    Goes(Nothing, s0, Check(0), s1);
    Goes(Nothing, s1, TakeRoom(0), s2);
    Goes(Nothing, s2, ReturnRoom(0), Hotel(CLEAN, [0], [], [], [], 2, 0, Awake, Outside, [Returned]));
  }

  lemma {:induction false} LateGuestMovesIn()
    requires ReachableUnder(Nothing, Hotel(CLEAN, [0], [], [], [], 2, 0, Awake, Outside, [Returned]))
    ensures ReachableUnder(Nothing, Hotel(Room(1, true, 0, 0), [], [], [], [], 0, 1, Counted(0), Outside, [Top]))
  {
    hide ReachableUnder, RoomsInRange;
    var s3 := Hotel(CLEAN, [0], [], [], [], 2, 0, Awake, Outside, [Returned]);
    var s4 := Hotel(Room(1, true, 0, 0), [], [], [], [], 2, 0, Took(0), Outside, [Returned]);
    var s5 := Hotel(Room(1, true, 0, 0), [], [], [], [], 3, 0, Counted(0), Outside, [Returned]);
    Goes(Nothing, s3, TryEmpty(0, 0), s4);
    Goes(Nothing, s4, CountFirst(0), s5);
    Goes(Nothing, s5, CountCleaned(0), Hotel(Room(1, true, 0, 0), [], [], [], [], 0, 1, Counted(0), Outside, [Top]));
  }

  /** It does not help to ask only that uses are left: a cleaner that saw all rooms used twice, and found
      the last one taken by another cleaner, is still on its way when the next round begins, and takes a
      room of that round before its second use is counted. */
  lemma {:induction false} LateCleanerLosesUses()
    ensures exists s :: ReachableUnder(UsesLeft, s) && !UsesFit(s) && s.useCount == 1 && s.cleaners == [Top, Cleaning(0)]
  {
    hide ReachableUnder, RoomsInRange;
    RoundUsed(UsesLeft, [Top, Top]);
    OneCleanerDoesAll();
    FirstUse(UsesLeft, 1, Outside, [Top, Ready]);
    SecondUse(UsesLeft, 1, Outside, [Top, Ready]);
    var s0 := Hotel(Room(2, true, 1, 0), [], [], [], [0], 1, 1, Outside, Pushed(0), [Top, Ready]);
    var s := Hotel(CLEAN, [], [], [], [], 1, 1, Outside, Pushed(0), [Top, Cleaning(0)]);
    Goes(UsesLeft, s0, TakeRoom(1), s);
    TotalsOf(s.rooms[0], Outside, Pushed(0));
    assert ReachableUnder(UsesLeft, s) && !UsesFit(s);
  }

  lemma {:induction false} OneCleanerDoesAll()
    requires ReachableUnder(UsesLeft, Hotel(Room(2, true, 1, 0), [], [], [], [0], 2, 0, Awake, Outside, [Top, Top]))
    ensures ReachableUnder(UsesLeft, Hotel(CLEAN, [0], [], [], [], 0, 1, Awake, Outside, [Top, Ready]))
  {
    hide ReachableUnder, RoomsInRange;
    BothSeeAllUsed();
    var s2 := Hotel(Room(2, true, 1, 0), [], [], [], [0], 2, 0, Awake, Outside, [Ready, Ready]);
    var s3 := Hotel(CLEAN, [], [], [], [], 2, 0, Awake, Outside, [Cleaning(0), Ready]);
    var s4 := Hotel(CLEAN, [0], [], [], [], 2, 0, Awake, Outside, [Returned, Ready]);
    Goes(UsesLeft, s2, TakeRoom(0), s3);
    Goes(UsesLeft, s3, ReturnRoom(0), s4);
    Goes(UsesLeft, s4, CountCleaned(0), Hotel(CLEAN, [0], [], [], [], 0, 1, Awake, Outside, [Top, Ready]));
  }

  lemma {:induction false} BothSeeAllUsed()
    requires ReachableUnder(UsesLeft, Hotel(Room(2, true, 1, 0), [], [], [], [0], 2, 0, Awake, Outside, [Top, Top]))
    ensures ReachableUnder(UsesLeft, Hotel(Room(2, true, 1, 0), [], [], [], [0], 2, 0, Awake, Outside, [Ready, Ready]))
  {
    hide ReachableUnder, RoomsInRange;
    var s0 := Hotel(Room(2, true, 1, 0), [], [], [], [0], 2, 0, Awake, Outside, [Top, Top]);
    var s1 := s0.(cleaners := [Ready, Top]);
    Goes(UsesLeft, s0, Check(0), s1);
    Goes(UsesLeft, s1, Check(1), s0.(cleaners := [Ready, Ready]));
  }
}
