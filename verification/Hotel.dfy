/** The critical sections of guest.cpp and cleaner.cpp as methods on the shared variables. Each does
    what the step of the same name in HotelProtocol says and keeps the invariant; where the thread
    relies on something afterwards, the contract says what. */
module Hotel {
  import opened HotelProtocol
  import opened HotelSafety
  import opened HotelFacts

  class Shared {
    var rooms: seq<Room>
    var prio: seq<int>
    var emptyQ: seq<nat>
    var oneOccQ: seq<Stay>
    var oneFreeQ: seq<nat>
    var twoOccQ: seq<nat>
    var useCount: nat
    var numCleaned: nat
    var roomSem: seq<nat>
    var guests: seq<GuestPc>
    var cleaners: seq<CleanerPc>
    var crashed: bool  // the error exit was taken

    /** main: all rooms empty, guests with these priorities, and so many cleaners. */
    constructor (numRooms: nat, priorities: seq<int>, numCleaners: nat)
      requires numRooms > 0
      ensures Init(State()) && Inv(State()) && |rooms| == numRooms && prio == priorities && |cleaners| == numCleaners
    {
      rooms := seq(numRooms, i => Room(0, false, -1, 0));
      prio := priorities;
      emptyQ := seq(numRooms, i => i);
      oneOccQ, oneFreeQ, twoOccQ := [], [], [];
      useCount, numCleaned := 0, 0;
      roomSem := seq(numRooms, i => 0);
      guests := seq(|priorities|, i => Outside);
      cleaners := seq(numCleaners, i => Top);
      crashed := false;
      new;
      hide Inv;
      InitInv(State());
    }

    function State(): State
      reads this
    {
      HotelProtocol.State(rooms, prio, emptyQ, oneOccQ, oneFreeQ, twoOccQ, useCount, numCleaned, roomSem, guests, cleaners, crashed)
    }

    // Ready for step e.
    ghost predicate Can(e: Event)
      reads this
    {
      Inv(State()) && RoomsInRange(State()) && Enabled(State(), e)
    }

    method PassGate(g: nat)
      requires Can(Event.PassGate(g))
      modifies this`guests
      ensures State() == Apply(old(State()), Event.PassGate(g)) && Inv(State())
    {
      hide Inv;
      StepKeeps(State(), Event.PassGate(g));
      guests := guests[g := Awake];
    }

    /** Look into empty_q; take a room from its front or go on to one_free_q. */
    method TryEmpty(g: nat, sleepTime: nat)
      requires Can(Event.TryEmpty(g, sleepTime))
      modifies this`emptyQ, this`rooms, this`guests
      ensures State() == Apply(old(State()), Event.TryEmpty(g, sleepTime)) && Inv(State())
      ensures old(emptyQ) != [] ==> GuestAlone(State(), g, old(emptyQ[0])) && SettledIn(old(State()), State(), g, old(emptyQ[0]), 1, sleepTime)
    {
      hide Inv, GuestAlone;
      StepKeeps(State(), Event.TryEmpty(g, sleepTime));
      if emptyQ != [] {
        var r := emptyQ[0];
        emptyQ := emptyQ[1..];
        rooms := rooms[r := rooms[r].(count := 1, occupied := true, guest := g, cleanTime := rooms[r].cleanTime + sleepTime)];
        guests := guests[g := Took(r)];
        HasItAlone(State(), g, r);
      } else {
        guests := guests[g := GuestPc.TryFree];
      }
    }

    method CountFirst(g: nat)
      requires Can(Event.CountFirst(g))
      modifies this`useCount, this`guests
      ensures State() == Apply(old(State()), Event.CountFirst(g)) && Inv(State())
    {
      hide Inv;
      StepKeeps(State(), Event.CountFirst(g));
      useCount := useCount + 1;
      guests := guests[g := Counted(guests[g].room)];
    }

    method EnterOneOcc(g: nat)
      requires Can(Event.EnterOneOcc(g))
      modifies this`oneOccQ, this`guests
      ensures State() == Apply(old(State()), Event.EnterOneOcc(g)) && Inv(State())
    {
      hide Inv;
      StepKeeps(State(), Event.EnterOneOcc(g));
      var r := guests[g].room;
      oneOccQ := oneOccQ + [Stay(r, prio[g])];
      guests := guests[g := Staying(r)];
    }

    /** sem_timedwait: either the time is up, or a token was posted by an evicting guest. */
    method EndStay(g: nat, timedOut: bool)
      requires Can(Event.EndStay(g, timedOut))
      modifies this`roomSem, this`guests
      ensures State() == Apply(old(State()), Event.EndStay(g, timedOut)) && Inv(State())
    {
      hide Inv;
      StepKeeps(State(), Event.EndStay(g, timedOut));
      var r := guests[g].room;
      if timedOut {
        guests := guests[g := Leaving(r)];
      } else {
        roomSem := roomSem[r := roomSem[r] - 1];
        guests := guests[g := Outside];
      }
    }

    /** Go through all of one_occ_q, keeping the entries of other rooms. */
    method LeaveOneOcc(g: nat)
      requires Can(Event.LeaveOneOcc(g))
      modifies this`oneOccQ, this`guests
      ensures State() == Apply(old(State()), Event.LeaveOneOcc(g)) && Inv(State())
      ensures g < |guests| && (guests[g].Moving? ==> GuestAlone(State(), g, guests[g].room))
    {
      hide Inv, RoomsInRange, GuestAlone;
      StepKeeps(State(), Event.LeaveOneOcc(g));
      var r := guests[g].room;
      var kept, found := FilterOut(oneOccQ, r);
      oneOccQ := kept;
      guests := guests[g := if found then Moving(r) else Outside];
      if found {
        HasItAlone(State(), g, r);
      }
    }

    method GiveFree(g: nat)
      requires Can(Event.GiveFree(g))
      modifies this`rooms, this`oneFreeQ, this`guests
      ensures State() == Apply(old(State()), Event.GiveFree(g)) && Inv(State())
      ensures oneFreeQ != [] && Vacant(State(), oneFreeQ[|oneFreeQ| - 1])
    {
      hide Inv;
      StepKeeps(State(), Event.GiveFree(g));
      var r := guests[g].room;
      rooms := rooms[r := rooms[r].(occupied := false, guest := -1)];
      oneFreeQ := oneFreeQ + [r];
      guests := guests[g := Outside];
    }

    // The second guest settles in; a room not used exactly once is the program's error exit.
    method SettleIn(g: nat, r: nat, sleepTime: nat)
      requires g < |guests| && r < |rooms|
      modifies this`rooms, this`guests, this`crashed
      ensures State() == Occupy(old(State()), g, r, sleepTime)
    {
      if rooms[r].count == 1 {
        rooms := rooms[r := Room(2, true, g, rooms[r].cleanTime + sleepTime)];
        guests := guests[g := Second(r)];
      } else {
        crashed := true;
      }
    }

    method TryOneFree(g: nat, sleepTime: nat)
      requires Can(Event.TryOneFree(g, sleepTime))
      modifies this`oneFreeQ, this`rooms, this`guests, this`crashed
      ensures State() == Apply(old(State()), Event.TryOneFree(g, sleepTime)) && Inv(State()) && !crashed
      ensures old(oneFreeQ) != [] ==> GuestAlone(State(), g, old(oneFreeQ[0])) && SettledIn(old(State()), State(), g, old(oneFreeQ[0]), 2, sleepTime)
    {
      hide Inv, GuestAlone;
      StepKeeps(State(), Event.TryOneFree(g, sleepTime));
      ghost var s' := Apply(State(), Event.TryOneFree(g, sleepTime));
      if oneFreeQ != [] {
        NoErrorExit(State(), oneFreeQ[0]);
        var r := oneFreeQ[0];
        oneFreeQ := oneFreeQ[1..];
        SettleIn(g, r, sleepTime);
        HasItAlone(s', g, r);
      } else {
        NeverCrashed(State());
        guests := guests[g := GuestPc.TryEvict];
      }
    }

    /** Evict the guest of least priority, if its priority is lower than one's own: the guest registered
        in the room, whose priority is the one that the entry of one_occ_q has. */
    method TryEvicting(g: nat, i: nat, sleepTime: nat)
      requires Can(Event.TryEvicting(g, i, sleepTime))
      modifies this`oneOccQ, this`roomSem, this`rooms, this`guests, this`crashed
      ensures State() == Apply(old(State()), Event.TryEvicting(g, i, sleepTime)) && Inv(State()) && !crashed
      ensures g < |guests| == |prio| && (guests[g].Second? <==> SomeGuestBelow(old(State()), prio[g]))
      ensures guests[g].Second? ==> Evicted(old(State()), State(), g, guests[g].room, sleepTime)
    {
      hide Inv, RoomsInRange, SomeGuestBelow, Evicted;
      StepKeeps(State(), Event.TryEvicting(g, i, sleepTime));
      EvictsIffGuestBelow(State(), g, i, sleepTime);
      hide LeastGuestIn;
      if oneOccQ != [] && oneOccQ[i].prio < prio[g] {
        EvictedFacts(State(), g, i, sleepTime);
        var r := oneOccQ[i].room;
        oneOccQ := oneOccQ[..i] + oneOccQ[i + 1..];
        roomSem := roomSem[r := roomSem[r] + 1];
        SettleIn(g, r, sleepTime);
      } else {
        NeverCrashed(State());
        guests := guests[g := Outside];
      }
    }

    method EnterTwoOcc(g: nat)
      requires Can(Event.EnterTwoOcc(g))
      modifies this`twoOccQ, this`guests
      ensures State() == Apply(old(State()), Event.EnterTwoOcc(g)) && Inv(State())
    {
      hide Inv;
      StepKeeps(State(), Event.EnterTwoOcc(g));
      var r := guests[g].room;
      twoOccQ := twoOccQ + [r];
      guests := guests[g := Pushed(r)];
    }

    /** signal_cleaners: true for the guest whose use is the last, and then all rooms are used twice and
        nobody has a use left to count. */
    method SignalCleaners(g: nat) returns (last: bool)
      requires Can(Event.SignalCleaners(g))
      modifies this`useCount, this`guests
      ensures State() == Apply(old(State()), Event.SignalCleaners(g)) && Inv(State())
      ensures last <==> useCount == 2 * |rooms|
      ensures last <==> AllUsed(State())
    {
      hide Inv, RoomsInRange, AllUsed;
      StepKeeps(State(), Event.SignalCleaners(g));
      LastIffAllUsed(State(), g);
      useCount := useCount + 1;
      last := useCount == 2 * |rooms|;
      guests := guests[g := if last then Outside else Staying2(guests[g].room)];
    }

    method EndSecond(g: nat)
      requires Can(Event.EndSecond(g))
      modifies this`guests
      ensures State() == Apply(old(State()), Event.EndSecond(g)) && Inv(State())
    {
      hide Inv;
      StepKeeps(State(), Event.EndSecond(g));
      guests := guests[g := Outside];
    }

    /** A cleaner looks whether all rooms have been used twice, and goes on only if nothing is left to use. */
    method Check(c: nat)
      requires Can(Event.Check(c))
      modifies this`cleaners
      ensures State() == Apply(old(State()), Event.Check(c)) && Inv(State())
      ensures c < |cleaners| && (cleaners[c] == Ready <==> useCount >= 2 * |rooms|)
      ensures cleaners[c] == Ready ==> NothingToCome(State())
    {
      hide Inv, RoomsInRange, NothingToCome;
      StepKeeps(State(), Event.Check(c));
      cleaners := cleaners[c := if useCount < 2 * |rooms| then Waiting else Ready];
      if useCount >= 2 * |rooms| {
        CleanersFind(State());
      }
    }

    method Wake(c: nat)
      requires Can(Event.Wake(c))
      modifies this`numCleaned, this`cleaners
      ensures State() == Apply(old(State()), Event.Wake(c)) && Inv(State())
      ensures c < |cleaners| && (cleaners[c] == Ready <==> useCount >= 2 * |rooms|) && numCleaned == 0
      ensures cleaners[c] == Ready ==> NothingToCome(State()) && emptyQ == []
    {
      hide Inv, RoomsInRange, NothingToCome;
      StepKeeps(State(), Event.Wake(c));
      numCleaned := 0;
      cleaners := cleaners[c := if useCount < 2 * |rooms| then Waiting else Ready];
      if useCount >= 2 * |rooms| {
        CleanersFind(State());
      }
    }

    method TakeRoom(c: nat)
      requires Can(Event.TakeRoom(c))
      modifies this`twoOccQ, this`rooms, this`cleaners
      ensures State() == Apply(old(State()), Event.TakeRoom(c)) && Inv(State())
      ensures old(twoOccQ) != [] ==> CleanerAlone(State(), c, old(twoOccQ[0])) && IsClean(State(), old(twoOccQ[0]))
      ensures old(twoOccQ) == [] ==> c < |cleaners| && cleaners[c] == AllWait
    {
      hide Inv, CleanerAlone;
      StepKeeps(State(), Event.TakeRoom(c));
      if twoOccQ != [] {
        var r := twoOccQ[0];
        twoOccQ := twoOccQ[1..];
        rooms := rooms[r := Room(0, false, -1, 0)];
        cleaners := cleaners[c := Cleaning(r)];
        CleansItAlone(State(), c);
      } else {
        cleaners := cleaners[c := AllWait];
      }
    }

    method ReturnRoom(c: nat)
      requires Can(Event.ReturnRoom(c))
      modifies this`emptyQ, this`cleaners
      ensures State() == Apply(old(State()), Event.ReturnRoom(c)) && Inv(State())
    {
      hide Inv;
      StepKeeps(State(), Event.ReturnRoom(c));
      emptyQ := emptyQ + [cleaners[c].room];
      cleaners := cleaners[c := Returned];
    }

    /** The cleaner that counts the last room opens the next round, with all rooms clean. */
    method CountCleaned(c: nat)
      requires Can(Event.CountCleaned(c))
      modifies this`numCleaned, this`useCount, this`cleaners
      ensures State() == Apply(old(State()), Event.CountCleaned(c)) && Inv(State())
      ensures numCleaned == old(numCleaned) + 1 && (useCount == 0 <==> numCleaned == |rooms|)
      ensures useCount == 0 ==> AllClean(State())
    {
      hide Inv, RoomsInRange, AllClean;
      StepKeeps(State(), Event.CountCleaned(c));
      ResetMeansClean(State(), c);
      numCleaned := numCleaned + 1;
      if numCleaned == |rooms| {
        useCount := 0;
      }
      cleaners := cleaners[c := Top];
    }

    method StopWaiting(c: nat)
      requires Can(Event.StopWaiting(c))
      modifies this`cleaners
      ensures State() == Apply(old(State()), Event.StopWaiting(c)) && Inv(State())
    {
      hide Inv;
      StepKeeps(State(), Event.StopWaiting(c));
      cleaners := cleaners[c := Top];
    }

    /** Whichever thread is next. */
    method Do(e: Event)
      requires Can(e)
      modifies this
      ensures State() == Apply(old(State()), e) && Inv(State())
    {
      hide Inv, RoomsInRange, Enabled, Apply;
      match e
      case PassGate(g) => PassGate(g);
      case TryEmpty(g, t) => TryEmpty(g, t);
      case CountFirst(g) => CountFirst(g);
      case EnterOneOcc(g) => EnterOneOcc(g);
      case EndStay(g, timedOut) => EndStay(g, timedOut);
      case LeaveOneOcc(g) => LeaveOneOcc(g);
      case GiveFree(g) => GiveFree(g);
      case TryOneFree(g, t) => TryOneFree(g, t);
      case TryEvicting(g, i, t) => TryEvicting(g, i, t);
      case EnterTwoOcc(g) => EnterTwoOcc(g);
      case SignalCleaners(g) => var _ := SignalCleaners(g);
      case EndSecond(g) => EndSecond(g);
      case Check(c) => Check(c);
      case Wake(c) => Wake(c);
      case TakeRoom(c) => TakeRoom(c);
      case ReturnRoom(c) => ReturnRoom(c);
      case CountCleaned(c) => CountCleaned(c);
      case StopWaiting(c) => StopWaiting(c);
    }

    /** The threads, in any order the scheduler likes: steps that are not possible at their turn are
        passed over. What has happened is a run of the protocol, and what the main results say of states
        holds of the shared variables. */
    method Run(es: seq<Event>) returns (ghost ss: seq<State>, ghost done: seq<Event>)
      requires Init(State())
      modifies this
      ensures IsRun(ss, done) && ss[0] == old(State()) && ss[|done|] == State()
      ensures State() == Play(old(State()), es) && Sound(State())
    {
      hide Init, Inv, RoomsInRange, Enabled, Apply, Sound;
      InitInv(State());
      ss, done := [State()], [];
      for i := 0 to |es|
        invariant IsRun(ss, done) && ss[0] == old(State()) && ss[|done|] == State() && Inv(State())
        invariant State() == Play(old(State()), es[..i])
      {
        InvIsBalanced(State());
        InvInRange(State());
        assert es[..i + 1][..i] == es[..i];
        if Enabled(State(), es[i]) {
          ghost var s := State();
          Do(es[i]);
          RunGoesOn(ss, done, es[i], State());
          ss, done := ss + [State()], done + [es[i]];
        }
      }
      assert es[..|es|] == es;
      InvIsSound(State());
    }
  }

  /** The state after these steps, those not possible at their turn passed over. */
  ghost function Play(s: State, es: seq<Event>): State {
    if es == [] then s
    else
      var before, e := Play(s, es[..|es| - 1]), es[|es| - 1];
      if RoomsInRange(before) && Enabled(before, e) then Apply(before, e) else before
  }

  /** Every run of the protocol is played by its own list of steps: together with the contract of Run,
      the states of the protocol are exactly those of the shared variables. */
  lemma {:induction false} PlaysEveryRun(ss: seq<State>, es: seq<Event>)
    requires IsRun(ss, es)
    ensures Play(ss[0], es) == ss[|es|]
  {
    hide Init, RoomsInRange, Enabled, Apply;
    if es != [] {
      var n := |es| - 1;
      RunKeeps(ss, es, n);
      RunStart(ss, es);
      PlaysEveryRun(ss[..n + 1], es[..n]);
      assert n + 1 == |es|;
    }
  }

  // A run without its last step.
  lemma {:induction false} RunStart(ss: seq<State>, es: seq<Event>)
    requires IsRun(ss, es) && es != []
    ensures IsRun(ss[..|es|], es[..|es| - 1])
  {
    hide Init, RoomsInRange, Enabled, Apply;
    var n := |es| - 1;
    var short, steps := ss[..|es|], es[..n];
    forall i | 0 <= i < n
      ensures Enabled(short[i], steps[i]) && (RoomsInRange(short[i]) ==> short[i + 1] == Apply(short[i], steps[i]))
    {
      var j := i + 1;
      assert short[i] == ss[i] && short[j] == ss[j] && steps[i] == es[i];
    }
  }

  lemma {:induction false} RunGoesOn(ss: seq<State>, es: seq<Event>, e: Event, s': State)
    requires IsRun(ss, es) && RoomsInRange(ss[|es|]) && Enabled(ss[|es|], e) && s' == Apply(ss[|es|], e)
    ensures IsRun(ss + [s'], es + [e])
  {
    hide Init, RoomsInRange, Enabled, Apply;
    var longer, steps := ss + [s'], es + [e];
    assert longer[0] == ss[0];
    forall i | 0 <= i < |steps|
      ensures Enabled(longer[i], steps[i]) && (RoomsInRange(longer[i]) ==> longer[i + 1] == Apply(longer[i], steps[i]))
    {
      if i < |es| {
        var j := i + 1;
        assert longer[i] == ss[i] && longer[j] == ss[j] && steps[i] == es[i];
      }
    }
  }

  /** The loop over one_occ_q: the entries of other rooms, and whether there was one of room r. */
  method FilterOut(q: seq<Stay>, r: nat) returns (kept: seq<Stay>, found: bool)
    ensures kept == Without(q, r) && (found <==> Has(q, r))
  {
    kept, found := [], false;
    for i := 0 to |q|
      invariant kept == Without(q[..i], r)
      invariant found <==> Has(q[..i], r)
    {
      var p := q[i];
      assert q[..i + 1][..i] == q[..i];
      HasNext(q, i, r);
      if p.room != r {
        kept := kept + [p];
      } else {
        found := true;
      }
    }
    assert q[..|q|] == q;
  }

  lemma {:induction false} HasNext(q: seq<Stay>, i: nat, r: nat)
    requires i < |q|
    ensures Has(q[..i + 1], r) <==> Has(q[..i], r) || q[i].room == r
  {
    if Has(q[..i], r) {
      var k :| 0 <= k < i && q[..i][k].room == r;
      assert q[..i + 1][k].room == r;
    }
    if q[i].room == r {
      assert q[..i + 1][i].room == r;
    }
    if Has(q[..i + 1], r) {
      var k :| 0 <= k < i + 1 && q[..i + 1][k].room == r;
      assert k < i ==> q[..i][k].room == r;
    }
  }
}
