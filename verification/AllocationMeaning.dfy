/** What placements mean in instants, rooms and answers, apart from the functions that compute them. */
module AllocationMeaning {
  import opened Seqs
  import opened Ledgers
  import opened Allocator
  import opened AllocationSafety
  import opened AllocationResults

  // Instants.

  ghost predicate AllProper(log: Log) {
    forall e <- log :: Proper(e.slot)
  }

  /** Nothing this run gave the therapist has an instant in common with the slot. */
  ghost predicate FreeThroughout(log: Log, t: Id, slot: Slot) {
    forall e, at :: e in log && e.therapist == t && Covers(e.slot, at) ==> !Covers(slot, at)
  }

  lemma {:induction false} FreeIffNotBusy(log: Log, t: Id, slot: Slot)
    requires AllProper(log) && Proper(slot)
    ensures FreeThroughout(log, t, slot) <==> !Busy(TherapistSlots(log, t), slot)
  {
    BusyIffLogged(log, t, slot);
    forall e | e in log
      ensures Overlap(slot, e.slot) <==> exists at :: Covers(slot, at) && Covers(e.slot, at)
    {
      OverlapIffSharedInstant(slot, e.slot);
    }
  }

  /** A single row is placed iff some pool therapist has nothing at any instant of its slot. */
  lemma {:induction false} SinglePlacedIffFree(cfg: Config, row: Row, log: Log)
    requires !row.isCouple && row.rooms != [] && NoConflict(cfg, row)
    requires AllProper(log) && Proper(row.slot)
    ensures PlaceRow(cfg, row, log).placed <==> exists t <- row.pool :: FreeThroughout(log, t, row.slot)
  {
    SinglePlacedIff(cfg, row, log);
    forall t | t in row.pool
      ensures FreeThroughout(log, t, row.slot) <==> !Busy(TherapistSlots(log, t), row.slot)
    {
      FreeIffNotBusy(log, t, row.slot);
    }
  }

  /** Two rows back to back go to the one therapist and the one room there are. */
  lemma {:induction false} NeighboursAreBothPlaced(cfg: Config, row: Row, t: Id, r: Room, how: How)
    requires !row.isCouple && row.rooms == [r] && row.pool == [t] && !cfg.execute
    requires row.slot == Slot(660, 720)
    ensures PlaceRow(cfg, row, [Placed(t, r.id, Slot(600, 660), how)]).placed
  {
    var log := [Placed(t, r.id, Slot(600, 660), how)];
    assert t in row.pool && FreeThroughout(log, t, row.slot);
    SinglePlacedIffFree(cfg, row, log);
  }

  // Seats.

  function SeatsOf(rawCapacity: int): nat {
    if rawCapacity == 0 then 1 else if rawCapacity < 0 then 0 else rawCapacity
  }

  /** The placements of the log that occupy the room at an instant. */
  ghost function UnitsIn(log: Log, r: Id, at: int): set<nat> {
    set i: nat | i < |log| && log[i].Placed? && log[i].room == r && log[i].slot.start <= at < log[i].slot.end
  }

  lemma {:induction false} CoveringIsUnits(log: Log, r: Id, at: int)
    ensures Covering(RoomSlots(log, r), at) == |UnitsIn(log, r, at)|
  {
    if log != [] {
      var front, n := log[..|log| - 1], |log| - 1;
      assert log == front + [log[n]];
      CoveringIsUnits(front, r, at);
      AppendEntry(front, log[n]);
      AppendSlot(RoomSlots(front, r), log[n].slot);
      UnitsNext(front, log[n], r, at);
    }
  }

  lemma {:induction false} UnitsNext(log: Log, e: Entry, r: Id, at: int)
    ensures UnitsIn(log + [e], r, at) ==
            if e.Placed? && e.room == r && e.slot.start <= at < e.slot.end then UnitsIn(log, r, at) + {|log|}
            else UnitsIn(log, r, at)
  {
  }

  /** No room ever holds more running placements than it has seats, in a run that never relaxed. */
  lemma {:induction false} StrictRunKeepsSeats(cfg: Config, rows: seq<Row>, r: Id, at: int)
    requires forall row <- rows :: WellFormed(row)
    requires forall e <- PlaceAll(cfg, rows, []) :: e.how.checked
    ensures |UnitsIn(PlaceAll(cfg, rows, []), r, at)| <= SeatsOf(cfg.rawCapacity(r))
  {
    StrictRunNeverOverbooks(cfg, rows, r, at);
    CoveringIsUnits(PlaceAll(cfg, rows, []), r, at);
  }

  /** The placements of the log that meet a slot in the room. */
  ghost function UnitsMeeting(log: Log, r: Id, slot: Slot): set<nat> {
    set i: nat | i < |log| && log[i].Placed? && log[i].room == r && Overlap(slot, log[i].slot)
  }

  lemma {:induction false} OverlapsIsUnits(log: Log, r: Id, slot: Slot)
    ensures Overlaps(RoomSlots(log, r), slot) == |UnitsMeeting(log, r, slot)|
  {
    if log != [] {
      var front, n := log[..|log| - 1], |log| - 1;
      assert log == front + [log[n]];
      OverlapsIsUnits(front, r, slot);
      AppendEntry(front, log[n]);
      AppendSlot(RoomSlots(front, r), log[n].slot);
      MeetingNext(front, log[n], r, slot);
    }
  }

  lemma {:induction false} MeetingNext(log: Log, e: Entry, r: Id, slot: Slot)
    ensures UnitsMeeting(log + [e], r, slot) ==
            if e.Placed? && e.room == r && Overlap(slot, e.slot) then UnitsMeeting(log, r, slot) + {|log|}
            else UnitsMeeting(log, r, slot)
  {
  }

  /** The strict test admits a room exactly while the placements meeting the slot leave the seats asked for. */
  lemma {:induction false} StrictAdmitsIff(cfg: Config, row: Row, aid: Id, units: nat, log: Log)
    requires !cfg.ignoreAvailability
    ensures Admits(cfg, row, false, aid, units, log) <==>
            |UnitsMeeting(log, aid, row.slot)| + units <=
            if cfg.rawCapacity(aid) == 0 then 1 else cfg.rawCapacity(aid)
  {
    OverlapsIsUnits(log, aid, row.slot);
  }

  // Rooms.

  /** The rooms a row may use: any, one for two, or those named Japanese. */
  predicate Suits(cfg: Config, row: Row, r: Room) {
    && r in row.rooms
    && (row.isCouple && !row.japaneseService ==> SeatsOf(cfg.rawCapacity(r.id)) >= 2 || r.coupleName)
    && (row.isCouple && row.japaneseService ==> r.japaneseName)
  }

  lemma {:induction false} RoomsToTryIff(cfg: Config, row: Row, r: Room)
    ensures r in RoomsToTry(cfg, row) <==> Suits(cfg, row, r)
  {
  }

  /** Whatever a row adds to the ledger is in a room that suits it, for a therapist of its pool and its own slot. */
  lemma {:induction false} PlacedWhereSuited(cfg: Config, row: Row, log: Log, i: nat)
    requires Distinct(row.pool) && |log| <= i < |PlaceRow(cfg, row, log).log|
    ensures var e := PlaceRow(cfg, row, log).log[i];
            && e.therapist in row.pool && e.slot == row.slot
            && (e.Placed? ==> exists r: Room :: Suits(cfg, row, r) && r.id == e.room)
  {
    RowIsAllOrNothing(cfg, row, log);
    var o := PlaceRow(cfg, row, log);
    var e := o.log[i];
    assert o.log[|log|..][i - |log|] == e;
    assert FromRow(cfg, row, e);
    if e.Placed? {
      var r :| r in RoomsToTry(cfg, row) && r.id == e.room;
      RoomsToTryIff(cfg, row, r);
    }
  }

  /** A couple row is placed iff it has a room for two and two therapists. */
  lemma {:induction false} CoupleRowPlacedIff(cfg: Config, row: Row, log: Log)
    requires row.isCouple && !row.japaneseService && NoConflict(cfg, row)
    ensures PlaceRow(cfg, row, log).placed <==>
            |row.pool| >= 2 && exists r <- row.rooms :: SeatsOf(cfg.rawCapacity(r.id)) >= 2 || r.coupleName
  {
    var rooms := RoomsToTry(cfg, row);
    if rooms != [] {
      RoomsToTryIff(cfg, row, rooms[0]);
      CouplePlacedIff(cfg, row, log);
    } else if r :| r in row.rooms && (SeatsOf(cfg.rawCapacity(r.id)) >= 2 || r.coupleName) {
      RoomsToTryIff(cfg, row, r);
    }
  }

  lemma {:induction false} SecondKept<T>(xs: seq<T>, keep: T -> bool) returns (i: nat, j: nat)
    requires |Filter(xs, keep)| >= 2
    ensures i < j < |xs| && keep(xs[i]) && keep(xs[j])
  {
    var rest := xs[1..];
    if keep(xs[0]) {
      var m := FirstKept(rest, keep);
      i, j := 0, m + 1;
    } else {
      var a, b := SecondKept(rest, keep);
      i, j := a + 1, b + 1;
    }
  }

  lemma {:induction false} KeptIsIn<T>(xs: seq<T>, keep: T -> bool, j: nat)
    requires j < |xs| && keep(xs[j])
    ensures Filter(xs, keep) != []
  {
    assert xs[j] in Filter(xs, keep);
  }

  lemma {:induction false} TwoAreKept<T>(xs: seq<T>, keep: T -> bool, i: nat, j: nat)
    requires i < j < |xs| && keep(xs[i]) && keep(xs[j])
    ensures |Filter(xs, keep)| >= 2
  {
    var rest := xs[1..];
    if i == 0 {
      KeptIsIn(rest, keep, j - 1);
    } else {
      TwoAreKept(rest, keep, i - 1, j - 1);
    }
  }

  /** A dual Japanese row is placed iff it has two rooms named so and two therapists. */
  lemma {:induction false} DualRowPlacedIff(cfg: Config, row: Row, log: Log)
    requires row.isCouple && row.japaneseService && NoConflict(cfg, row)
    ensures PlaceRow(cfg, row, log).placed <==>
            && |row.pool| >= 2
            && exists i, j :: 0 <= i < j < |row.rooms| && row.rooms[i].japaneseName && row.rooms[j].japaneseName
  {
    JapanesePlacedIff(cfg, row, log);
    if |Filter(row.rooms, NamedJapanese())| >= 2 {
      var i, j := SecondKept(row.rooms, NamedJapanese());
    } else if i, j :| 0 <= i < j < |row.rooms| && row.rooms[i].japaneseName && row.rooms[j].japaneseName {
      TwoAreKept(row.rooms, NamedJapanese(), i, j);
    }
  }

  /** `i` and `j` are the positions of the first two elements kept. */
  ghost predicate FirstTwoAre<T>(xs: seq<T>, keep: T -> bool, i: nat, j: nat) {
    && i < j < |xs| && keep(xs[i]) && keep(xs[j])
    && forall k :: 0 <= k < j && k != i ==> !keep(xs[k])
  }

  lemma {:induction false} FirstTwoPositions<T>(xs: seq<T>, keep: T -> bool) returns (i: nat, j: nat)
    requires |Filter(xs, keep)| >= 2
    ensures FirstTwoAre(xs, keep, i, j)
    ensures FirstTwo(Filter(xs, keep)) == [xs[i], xs[j]]
  {
    var rest := xs[1..];
    if keep(xs[0]) {
      var m := FirstKept(rest, keep);
      i, j := 0, m + 1;
      assert forall k :: 0 < k < j ==> xs[k] == rest[k - 1];
    } else {
      var a, b := FirstTwoPositions(rest, keep);
      i, j := a + 1, b + 1;
      assert forall k :: 0 < k < j ==> xs[k] == rest[k - 1];
    }
  }

  lemma {:induction false} FirstTwoAreTaken<T>(xs: seq<T>, keep: T -> bool, i: nat, j: nat)
    requires FirstTwoAre(xs, keep, i, j)
    ensures FirstTwo(Filter(xs, keep)) == [xs[i], xs[j]]
  {
    TwoAreKept(xs, keep, i, j);
    var a, b := FirstTwoPositions(xs, keep);
    assert a == i && b == j;
  }

  lemma {:induction false} FilterTwice<T>(xs: seq<T>, p: T -> bool, q: T -> bool, both: T -> bool)
    requires forall x <- xs :: both(x) == (p(x) && q(x))
    ensures Filter(Filter(xs, p), q) == Filter(xs, both)
  {
    if xs != [] {
      assert xs[0] in xs;
      FilterTwice(xs[1..], p, q, both);
      if p(xs[0]) {
        assert ([xs[0]] + Filter(xs[1..], p))[1..] == Filter(xs[1..], p);
      }
    }
  }

  /** A room named Japanese that one more placement fits into for the whole slot, by its count of placements. */
  ghost function JapaneseSeatLeft(cfg: Config, row: Row, log: Log): Room -> bool {
    (r: Room) =>
      && r.japaneseName
      && |UnitsMeeting(log, r.id, row.slot)| < if cfg.rawCapacity(r.id) == 0 then 1 else cfg.rawCapacity(r.id)
  }

  lemma {:induction false} DualRoomsTested(cfg: Config, row: Row, log: Log)
    requires row.isCouple && row.japaneseService && !cfg.ignoreAvailability
    ensures Filter(RoomsToTry(cfg, row), AdmitsOne(cfg, row, false, log)) ==
            Filter(row.rooms, JapaneseSeatLeft(cfg, row, log))
  {
    var seat, admits := JapaneseSeatLeft(cfg, row, log), AdmitsOne(cfg, row, false, log);
    forall r <- row.rooms
      ensures seat(r) == (NamedJapanese()(r) && admits(r))
    {
      StrictAdmitsIff(cfg, row, r.id, 1, log);
    }
    FilterTwice(row.rooms, NamedJapanese(), admits, seat);
  }

  /** The strict pass puts a dual row into the first two Japanese rooms with a seat, or nowhere. */
  lemma {:induction false} DualTestedIff(cfg: Config, row: Row, log: Log)
    requires row.isCouple && row.japaneseService && !cfg.ignoreAvailability && NoConflict(cfg, row)
    ensures var o, seat := TryPass(cfg, row, false, log), JapaneseSeatLeft(cfg, row, log);
            && (o.placed <==> exists i: nat, j: nat | FirstTwoAre(row.rooms, seat, i, j) ::
                  PickPair(cfg, row, false, row.rooms[i].id, row.rooms[j].id, log).Some?)
            && forall i: nat, j: nat | o.placed && FirstTwoAre(row.rooms, seat, i, j) ::
                 && |o.log| == |log| + 2
                 && o.log[|log|].Placed? && o.log[|log|].room == row.rooms[i].id
                 && o.log[|log| + 1].Placed? && o.log[|log| + 1].room == row.rooms[j].id
  {
    var o, seat := TryPass(cfg, row, false, log), JapaneseSeatLeft(cfg, row, log);
    DualRoomsTested(cfg, row, log);
    var rooms := Filter(row.rooms, seat);
    if |rooms| >= 2 {
      var i, j := FirstTwoPositions(row.rooms, seat);
      forall a: nat, b: nat | FirstTwoAre(row.rooms, seat, a, b)
        ensures FirstTwo(rooms) == [row.rooms[a], row.rooms[b]]
      {
        FirstTwoAreTaken(row.rooms, seat, a, b);
      }
      DualOutcome(cfg, row, row.rooms[i].id, row.rooms[j].id, log);
    } else {
      forall a: nat, b: nat
        ensures !FirstTwoAre(row.rooms, seat, a, b)
      {
        if FirstTwoAre(row.rooms, seat, a, b) {
          TwoAreKept(row.rooms, seat, a, b);
        }
      }
    }
  }

  lemma {:induction false} DualOutcome(cfg: Config, row: Row, aid1: Id, aid2: Id, log: Log)
    requires NoConflict(cfg, row)
    ensures var pick := PickPair(cfg, row, false, aid1, aid2, log);
            pick.Some? ==>
              var o := BookPair(cfg, row, false, pick.value.0, aid1, pick.value.1, aid2, log);
              && o.placed && |o.log| == |log| + 2
              && o.log[|log|].Placed? && o.log[|log|].room == aid1
              && o.log[|log| + 1].Placed? && o.log[|log| + 1].room == aid2
  {
    var pick := PickPair(cfg, row, false, aid1, aid2, log);
    if pick.Some? {
      NoConflictBooks(cfg, row, false, pick.value.0, aid1, pick.value.1, aid2, log);
    }
  }

  // Answers: who is booked is who ushauth accepted for that room.

  /** `k` is the first suffix of the candidates whose question ends the retry loop. */
  ghost predicate EndsAt(cands: seq<Id>, aid: Id, avail: Question -> Answer, k: nat) {
    && k < |cands|
    && (forall j :: 0 <= j < k ==> Unlisted(cands[j..], avail(Question(aid, cands[j..], None))))
    && !Unlisted(cands[k..], avail(Question(aid, cands[k..], None)))
  }

  predicate Unlisted(therapists: seq<Id>, a: Answer) {
    a.Yes? && a.therapist !in therapists
  }

  lemma {:induction false} AskAllEnds(cands: seq<Id>, aid: Id, avail: Question -> Answer) returns (k: nat)
    requires AskAll(cands, aid, avail).Some?
    ensures EndsAt(cands, aid, avail, k)
    ensures avail(Question(aid, cands[k..], None)) == Yes(AskAll(cands, aid, avail).value)
  {
    assert cands[0..] == cands;
    if Unlisted(cands, avail(Question(aid, cands, None))) {
      k := AskAllEnds(cands[1..], aid, avail);
      LaterSuffixes(cands, aid, avail, k);
      k := k + 1;
    } else {
      k := 0;
    }
  }

  lemma {:induction false} AskAllAt(cands: seq<Id>, aid: Id, avail: Question -> Answer, k: nat)
    requires EndsAt(cands, aid, avail, k)
    ensures AskAll(cands, aid, avail) ==
            match avail(Question(aid, cands[k..], None)) case No => None case Yes(t) => Some(t)
  {
    assert cands[0..] == cands;
    if k > 0 {
      LaterSuffixes(cands, aid, avail, k - 1);
      AskAllAt(cands[1..], aid, avail, k - 1);
    }
  }

  /** The retry loop books the listed therapist of the first answer that names one, unless a "no" comes before. */
  lemma {:induction false} AskAllIff(cands: seq<Id>, aid: Id, avail: Question -> Answer, t: Id)
    ensures AskAll(cands, aid, avail) == Some(t) <==>
            exists k: nat :: EndsAt(cands, aid, avail, k) && avail(Question(aid, cands[k..], None)) == Yes(t)
  {
    if AskAll(cands, aid, avail) == Some(t) {
      var k := AskAllEnds(cands, aid, avail);
    } else if k: nat :| EndsAt(cands, aid, avail, k) && avail(Question(aid, cands[k..], None)) == Yes(t) {
      AskAllAt(cands, aid, avail, k);
    }
  }

  lemma {:induction false} LaterSuffixes(cands: seq<Id>, aid: Id, avail: Question -> Answer, k: nat)
    requires cands != [] && Unlisted(cands, avail(Question(aid, cands, None)))
    ensures EndsAt(cands[1..], aid, avail, k) <==> EndsAt(cands, aid, avail, k + 1)
    ensures k < |cands| ==> cands[1..][k..] == cands[k + 1..]
  {
    var rest := cands[1..];
    assert forall j :: 0 <= j <= |rest| ==> rest[j..] == cands[j + 1..];
    assert cands[0..] == cands;
    if EndsAt(rest, aid, avail, k) {
      forall j | 0 <= j < k + 1
        ensures Unlisted(cands[j..], avail(Question(aid, cands[j..], None)))
      {
        if j > 0 {
          assert rest[j - 1..] == cands[j..];
        }
      }
    }
    if EndsAt(cands, aid, avail, k + 1) {
      forall j | 0 <= j < k
        ensures Unlisted(rest[j..], avail(Question(aid, rest[j..], None)))
      {
        assert rest[j..] == cands[j + 1..];
      }
    }
  }

  ghost predicate Named(row: Row, t: Id, aid: Id) {
    exists q: Question :: q.room == aid && q.beside == None && t in q.therapists && row.avail(q) == Yes(t)
  }

  ghost predicate PairAccepted(row: Row, e: Entry, f: Entry)
    requires e.Placed? && f.Placed?
  {
    && row.avail(Question(e.room, [e.therapist], None)).Yes?
    && row.avail(Question(f.room, [f.therapist], Some(e.therapist))).Yes?
  }

  /** The last placement of the log was accepted by ushauth, each therapist for the very room it got. */
  ghost predicate Accepted(row: Row, log: Log) {
    if !row.isCouple then
      |log| >= 1 && log[|log| - 1].Placed? && Named(row, log[|log| - 1].therapist, log[|log| - 1].room)
    else
      && |log| >= 2 && log[|log| - 2].Placed? && log[|log| - 1].Placed?
      && PairAccepted(row, log[|log| - 2], log[|log| - 1])
      && (!row.japaneseService ==> log[|log| - 2].room == log[|log| - 1].room)
  }

  lemma {:induction false} StrictSingleIsNamed(cfg: Config, row: Row, aid: Id, log: Log)
    requires !cfg.ignoreAvailability && PickSingle(cfg, row, false, aid, log).Some?
    ensures Named(row, PickSingle(cfg, row, false, aid, log).value, aid)
  {
    var cands, t := Candidates(log, row, false), PickSingle(cfg, row, false, aid, log).value;
    AskAllIff(cands, aid, row.avail, t);
    var k: nat :| EndsAt(cands, aid, row.avail, k) && row.avail(Question(aid, cands[k..], None)) == Yes(t);
    assert t in Question(aid, cands[k..], None).therapists;
  }

  lemma {:induction false} StrictPairIsAccepted(cfg: Config, row: Row, aid1: Id, aid2: Id, log: Log)
    requires !cfg.ignoreAvailability && PickPair(cfg, row, false, aid1, aid2, log).Some?
    ensures var p := PickPair(cfg, row, false, aid1, aid2, log).value;
            && row.avail(Question(aid1, [p.0], None)).Yes?
            && row.avail(Question(aid2, [p.1], Some(p.0))).Yes?
  {
    var i, j := FirstPairOrdered(Candidates(log, row, false), SaysYes(row, aid1), SaysYesBeside(row, aid2));
  }

  lemma {:induction false} CoupleRoomIsAccepted(cfg: Config, row: Row, aid: Id, log: Log)
    requires !cfg.ignoreAvailability && row.isCouple && TryRoom(cfg, row, false, aid, log).placed
    ensures Accepted(row, TryRoom(cfg, row, false, aid, log).log) || row.japaneseService
  {
    StrictPairIsAccepted(cfg, row, aid, aid, log);
  }

  lemma {:induction false} SingleRoomIsAccepted(cfg: Config, row: Row, aid: Id, log: Log)
    requires !cfg.ignoreAvailability && !row.isCouple && TryRoom(cfg, row, false, aid, log).placed
    ensures Accepted(row, TryRoom(cfg, row, false, aid, log).log)
  {
    StrictSingleIsNamed(cfg, row, aid, log);
  }

  lemma {:induction false} RoomsAreAccepted(cfg: Config, row: Row, rooms: seq<Room>, log: Log)
    requires !cfg.ignoreAvailability && !ShapeOf(row).Japanese? && TryRooms(cfg, row, false, rooms, log).placed
    ensures Accepted(row, TryRooms(cfg, row, false, rooms, log).log)
    decreases rooms
  {
    var o := TryRoom(cfg, row, false, rooms[0].id, log);
    if !o.placed {
      RoomsAreAccepted(cfg, row, rooms[1..], o.log);
    } else if row.isCouple {
      CoupleRoomIsAccepted(cfg, row, rooms[0].id, log);
    } else {
      SingleRoomIsAccepted(cfg, row, rooms[0].id, log);
    }
  }

  lemma {:induction false} DualIsAccepted(cfg: Config, row: Row, rooms: seq<Room>, log: Log)
    requires !cfg.ignoreAvailability && ShapeOf(row).Japanese? && TryJapanese(cfg, row, false, rooms, log).placed
    ensures Accepted(row, TryJapanese(cfg, row, false, rooms, log).log)
  {
    var free := FirstTwo(Filter(rooms, AdmitsOne(cfg, row, false, log)));
    StrictPairIsAccepted(cfg, row, free[0].id, free[1].id, log);
  }

  /** A placement of the strict pass was accepted by ushauth, whatever conflicts came before it. */
  lemma {:induction false} TestedPlacementIsAccepted(cfg: Config, row: Row, log: Log)
    requires !cfg.ignoreAvailability && !Rejected(cfg, row) && TryPass(cfg, row, false, log).placed
    ensures PlaceRow(cfg, row, log) == TryPass(cfg, row, false, log) && Accepted(row, PlaceRow(cfg, row, log).log)
  {
    if ShapeOf(row).Japanese? {
      DualIsAccepted(cfg, row, RoomsToTry(cfg, row), log);
    } else {
      RoomsAreAccepted(cfg, row, RoomsToTry(cfg, row), log);
    }
  }

  // Conflicts: the therapists of a refused booking count as taken, its room does not.

  lemma {:induction false} LoggedIsTaken(log: Log, e: Entry, slot: Slot)
    requires e in log && e.slot == slot && Proper(slot)
    ensures !FreeThroughout(log, e.therapist, slot)
  {
    assert Covers(e.slot, slot.start) && Covers(slot, slot.start);
  }

  lemma {:induction false} SingleConflictTakesTherapist(cfg: Config, row: Row, relax: bool, t: Id, aid: Id, log: Log)
    requires cfg.execute && row.conflict(relax, aid, [t]) && Proper(row.slot)
    ensures var o := BookSingle(cfg, row, relax, t, aid, log);
            && !o.placed && !FreeThroughout(o.log, t, row.slot)
            && forall r, at :: UnitsIn(o.log, r, at) == UnitsIn(log, r, at)
  {
    var o := BookSingle(cfg, row, relax, t, aid, log);
    assert o.log[|log|] in o.log;
    LoggedIsTaken(o.log, o.log[|log|], row.slot);
  }

  lemma {:induction false} PairConflictTakesBoth(
    cfg: Config, row: Row, relax: bool, t1: Id, aid1: Id, t2: Id, aid2: Id, log: Log)
    requires cfg.execute && row.conflict(relax, aid1, [t1, t2]) && Proper(row.slot)
    ensures var o := BookPair(cfg, row, relax, t1, aid1, t2, aid2, log);
            && !o.placed && !FreeThroughout(o.log, t1, row.slot) && !FreeThroughout(o.log, t2, row.slot)
            && forall r, at :: UnitsIn(o.log, r, at) == UnitsIn(log, r, at)
  {
    var o := BookPair(cfg, row, relax, t1, aid1, t2, aid2, log);
    assert o.log[|log|] in o.log && o.log[|log| + 1] in o.log;
    LoggedIsTaken(o.log, o.log[|log|], row.slot);
    LoggedIsTaken(o.log, o.log[|log| + 1], row.slot);
  }

  // The strict pass takes the first room in order, the relaxed pass the least loaded one.

  /** `k` is the first of the rooms for which the strict search finds a seat and therapists. */
  ghost predicate FirstStaffed(cfg: Config, row: Row, rooms: seq<Room>, log: Log, k: nat) {
    && k < |rooms| && Staffed(cfg, row, false, rooms[k].id, log)
    && forall j :: 0 <= j < k ==> !Staffed(cfg, row, false, rooms[j].id, log)
  }

  lemma {:induction false} LaterIsFirst(cfg: Config, row: Row, rooms: seq<Room>, log: Log, m: nat)
    requires rooms != [] && !Staffed(cfg, row, false, rooms[0].id, log)
    requires FirstStaffed(cfg, row, rooms[1..], log, m)
    ensures FirstStaffed(cfg, row, rooms, log, m + 1)
  {
    var rest := rooms[1..];
    forall j | 0 <= j < m + 1
      ensures !Staffed(cfg, row, false, rooms[j].id, log)
    {
      if j > 0 {
        assert rooms[j] == rest[j - 1];
      }
    }
  }

  lemma {:induction false} StrictTakesFirst(cfg: Config, row: Row, rooms: seq<Room>, log: Log) returns (k: nat)
    requires NoConflict(cfg, row) && TryRooms(cfg, row, false, rooms, log).placed
    ensures FirstStaffed(cfg, row, rooms, log, k)
    ensures TryRooms(cfg, row, false, rooms, log) == TryRoom(cfg, row, false, rooms[k].id, log)
  {
    RoomPlacedIff(cfg, row, false, rooms[0].id, log);
    if Staffed(cfg, row, false, rooms[0].id, log) {
      k := 0;
    } else {
      var m := StrictTakesFirst(cfg, row, rooms[1..], log);
      LaterIsFirst(cfg, row, rooms, log, m);
      k := m + 1;
    }
  }

  /** A tested placement of a single or couple row is in the first room that has a seat and therapists for it. */
  lemma {:induction false} StrictTakesFirstRoom(cfg: Config, row: Row, log: Log)
    requires !ShapeOf(row).Japanese? && !Rejected(cfg, row) && NoConflict(cfg, row)
    requires TryPass(cfg, row, false, log).placed
    ensures var o := PlaceRow(cfg, row, log);
            && o.log != [] && o.log[|o.log| - 1].Placed?
            && exists k: nat :: FirstStaffed(cfg, row, RoomsToTry(cfg, row), log, k) &&
                                o.log[|o.log| - 1].room == RoomsToTry(cfg, row)[k].id
  {
    var rooms := RoomsToTry(cfg, row);
    var k := StrictTakesFirst(cfg, row, rooms, log);
    RoomEntryIsThere(cfg, row, false, rooms[k].id, log);
  }


  lemma {:induction false} RelaxedRoomsAgree(cfg: Config, row: Row, a: Id, b: Id, log: Log)
    ensures Staffed(cfg, row, true, a, log) <==> Staffed(cfg, row, true, b, log)
  {
    if row.isCouple {
      CoupleStaffed(cfg, row, a, log);
      CoupleStaffed(cfg, row, b, log);
    } else {
      SingleStaffed(cfg, row, a, log);
      SingleStaffed(cfg, row, b, log);
    }
  }

  lemma {:induction false} RoomEntryIsThere(cfg: Config, row: Row, relax: bool, aid: Id, log: Log)
    requires NoConflict(cfg, row) && TryRoom(cfg, row, relax, aid, log).placed
    ensures var o := TryRoom(cfg, row, relax, aid, log);
            o.log != [] && o.log[|o.log| - 1].Placed? && o.log[|o.log| - 1].room == aid
  {
    if row.isCouple {
      CoupleRoomOutcome(cfg, row, relax, aid, log);
    } else {
      SingleRoomOutcome(cfg, row, relax, aid, log);
    }
  }

  /** Every suiting room being as good for the relaxed search, it takes the first of its order. */
  lemma {:induction false} RelaxedTakesFirst(cfg: Config, row: Row, order: seq<Room>, log: Log)
    requires NoConflict(cfg, row) && TryRooms(cfg, row, true, order, log).placed
    ensures order != [] && TryRooms(cfg, row, true, order, log) == TryRoom(cfg, row, true, order[0].id, log)
  {
    RoomsPlacedIff(cfg, row, true, order, log);
    var s :| s in order && Staffed(cfg, row, true, s.id, log);
    RelaxedRoomsAgree(cfg, row, s.id, order[0].id, log);
    RoomPlacedIff(cfg, row, true, order[0].id, log);
  }

  lemma {:induction false} FirstOfOrderIsLeast(rooms: seq<Room>, log: Log, slot: Slot, r: Room)
    requires r in rooms
    ensures var order := SortBy(rooms, LoadOf(log, slot));
            |UnitsMeeting(log, order[0].id, slot)| <= |UnitsMeeting(log, r.id, slot)|
  {
    var load := LoadOf(log, slot);
    var order := SortBy(rooms, load);
    SortMember(rooms, load, r);
    SortAscending(rooms, load);
    var j :| 0 <= j < |order| && order[j] == r;
    assert load(order[0]) <= load(order[j]);
    OverlapsIsUnits(log, order[0].id, slot);
    OverlapsIsUnits(log, r.id, slot);
  }

  lemma {:induction false} RelaxedOutcome(cfg: Config, row: Row, log: Log)
    requires !ShapeOf(row).Japanese? && !Rejected(cfg, row) && NoConflict(cfg, row)
    requires !TryPass(cfg, row, false, log).placed && PlaceRow(cfg, row, log).placed
    ensures var order := SortBy(RoomsToTry(cfg, row), LoadOf(log, row.slot));
            order != [] && PlaceRow(cfg, row, log) == TryRoom(cfg, row, true, order[0].id, log)
  {
    var rooms := RoomsToTry(cfg, row);
    RoomsPlacedIff(cfg, row, false, rooms, log);
    RelaxedTakesFirst(cfg, row, SortBy(rooms, LoadOf(log, row.slot)), log);
  }

  /** A relaxed placement of a single or couple row is in a room that fewest placements meet. */
  lemma {:induction false} RelaxedTakesLeastLoaded(cfg: Config, row: Row, log: Log, r: Room)
    requires !ShapeOf(row).Japanese? && !Rejected(cfg, row) && NoConflict(cfg, row)
    requires !TryPass(cfg, row, false, log).placed && PlaceRow(cfg, row, log).placed
    requires Suits(cfg, row, r)
    ensures var o := PlaceRow(cfg, row, log);
            && o.log != [] && o.log[|o.log| - 1].Placed?
            && |UnitsMeeting(log, o.log[|o.log| - 1].room, row.slot)| <= |UnitsMeeting(log, r.id, row.slot)|
  {
    RelaxedOutcome(cfg, row, log);
    var rooms := RoomsToTry(cfg, row);
    RoomEntryIsThere(cfg, row, true, SortBy(rooms, LoadOf(log, row.slot))[0].id, log);
    RoomsToTryIff(cfg, row, r);
    FirstOfOrderIsLeast(rooms, log, row.slot, r);
  }
}
