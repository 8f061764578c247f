/** What a row's placement adds, exactly when it succeeds, which therapists it takes, and how fair a run is. */
module AllocationResults {
  import opened Seqs
  import opened Ledgers
  import opened Allocator
  import opened AllocationSafety

  // The footprint of a row: which entries it may add, and how many units a placement takes.

  function Units(log: Log): nat {
    if log == [] then 0 else Units(log[..|log| - 1]) + if log[|log| - 1].Placed? then 1 else 0
  }

  lemma {:induction false} UnitsOfConcat(a: Log, b: Log)
    ensures Units(a + b) == Units(a) + Units(b)
  {
    if b == [] {
      assert a + b == a;
    } else {
      assert (a + b)[..|a + b| - 1] == a + b[..|b| - 1];
      UnitsOfConcat(a, b[..|b| - 1]);
    }
  }

  ghost predicate FromRow(cfg: Config, row: Row, e: Entry) {
    && e.therapist in row.pool
    && e.slot == row.slot
    && e.how.shape == ShapeOf(row)
    && (e.Placed? ==> exists r <- RoomsToTry(cfg, row) :: r.id == e.room)
    && (e.Marked? ==> cfg.execute)
  }

  function UnitsNeeded(row: Row): nat {
    if row.isCouple then 2 else 1
  }

  /** `o` extends `log` by entries of this row: a whole placement if it succeeded, no unit at all if not. */
  ghost predicate Accounts(cfg: Config, row: Row, log: Log, o: Outcome) {
    && log <= o.log
    && (forall e <- o.log[|log|..] :: FromRow(cfg, row, e))
    && Units(o.log) == Units(log) + if o.placed then UnitsNeeded(row) else 0
  }

  lemma {:induction false} AccountsTwice(cfg: Config, row: Row, log: Log, mid: Outcome, o: Outcome)
    requires Accounts(cfg, row, log, mid) && !mid.placed
    requires Accounts(cfg, row, mid.log, o)
    ensures Accounts(cfg, row, log, o)
  {
    assert o.log[|log|..] == mid.log[|log|..] + o.log[|mid.log|..];
  }

  lemma {:induction false} SingleAccounts(cfg: Config, row: Row, relax: bool, t: Id, r: Room, log: Log)
    requires !row.isCouple && t in row.pool && r in RoomsToTry(cfg, row)
    ensures Accounts(cfg, row, log, BookSingle(cfg, row, relax, t, r.id, log))
  {
    var o := BookSingle(cfg, row, relax, t, r.id, log);
    assert o.log[|log|..] == [o.log[|log|]];
    UnitsOfConcat(log, [o.log[|log|]]);
  }

  lemma {:induction false} PairAccounts(
    cfg: Config, row: Row, relax: bool, t1: Id, r1: Room, t2: Id, r2: Room, log: Log)
    requires row.isCouple && t1 in row.pool && t2 in row.pool
    requires r1 in RoomsToTry(cfg, row) && r2 in RoomsToTry(cfg, row)
    ensures Accounts(cfg, row, log, BookPair(cfg, row, relax, t1, r1.id, t2, r2.id, log))
  {
    var o := BookPair(cfg, row, relax, t1, r1.id, t2, r2.id, log);
    var e1, e2 := o.log[|log|], o.log[|log| + 1];
    assert o.log == log + [e1] + [e2];
    UnitsOfTwo(log, e1, e2);
    assert FromRow(cfg, row, e1) && FromRow(cfg, row, e2);
  }

  lemma {:induction false} UnitsOfTwo(log: Log, e1: Entry, e2: Entry)
    ensures (log + [e1] + [e2])[|log|..] == [e1, e2]
    ensures Units(log + [e1] + [e2]) == Units(log) + (if e1.Placed? then 1 else 0) + (if e2.Placed? then 1 else 0)
  {
    UnitsOfConcat(log, [e1]);
    UnitsOfConcat(log + [e1], [e2]);
  }

  lemma {:induction false} NothingAccounts(cfg: Config, row: Row, log: Log)
    ensures Accounts(cfg, row, log, Outcome(log, false))
  {
  }

  lemma {:induction false} RoomAccounts(cfg: Config, row: Row, relax: bool, r: Room, log: Log)
    requires Distinct(row.pool) && r in RoomsToTry(cfg, row)
    ensures Accounts(cfg, row, log, TryRoom(cfg, row, relax, r.id, log))
  {
    NothingAccounts(cfg, row, log);
    if row.isCouple {
      PairRoomAccounts(cfg, row, relax, r, log);
    } else {
      var pick := PickSingle(cfg, row, relax, r.id, log);
      if pick.Some? {
        SingleIsFree(cfg, row, relax, r.id, log);
        SingleAccounts(cfg, row, relax, pick.value, r, log);
      }
    }
  }

  lemma {:induction false} PairRoomAccounts(cfg: Config, row: Row, relax: bool, r: Room, log: Log)
    requires row.isCouple && Distinct(row.pool) && r in RoomsToTry(cfg, row)
    ensures Accounts(cfg, row, log, TryRoom(cfg, row, relax, r.id, log))
  {
    NothingAccounts(cfg, row, log);
    var pick := PickPair(cfg, row, relax, r.id, r.id, log);
    if pick.Some? {
      PairIsDistinct(cfg, row, relax, r.id, r.id, log);
      PairAccounts(cfg, row, relax, pick.value.0, r, pick.value.1, r, log);
    }
  }

  lemma {:induction false} RoomsAccount(cfg: Config, row: Row, relax: bool, rooms: seq<Room>, log: Log)
    requires Distinct(row.pool) && forall r <- rooms :: r in RoomsToTry(cfg, row)
    ensures Accounts(cfg, row, log, TryRooms(cfg, row, relax, rooms, log))
    decreases rooms
  {
    if rooms != [] {
      var o := TryRoom(cfg, row, relax, rooms[0].id, log);
      RoomAccounts(cfg, row, relax, rooms[0], log);
      if !o.placed {
        RoomsAccount(cfg, row, relax, rooms[1..], o.log);
        AccountsTwice(cfg, row, log, o, TryRooms(cfg, row, relax, rooms[1..], o.log));
      }
    }
  }

  lemma {:induction false} PassAccounts(cfg: Config, row: Row, relax: bool, log: Log)
    requires Distinct(row.pool)
    ensures Accounts(cfg, row, log, TryPass(cfg, row, relax, log))
  {
    var rooms := RoomsToTry(cfg, row);
    if ShapeOf(row).Japanese? {
      var admitted := Filter(rooms, AdmitsOne(cfg, row, relax, log));
      var free := FirstTwo(admitted);
      if |free| == 2 {
        assert free[0] in admitted && free[1] in admitted;
        var pick := PickPair(cfg, row, relax, free[0].id, free[1].id, log);
        if pick.Some? {
          PairIsDistinct(cfg, row, relax, free[0].id, free[1].id, log);
          PairAccounts(cfg, row, relax, pick.value.0, free[0], pick.value.1, free[1], log);
        }
      }
    } else {
      var order := if relax then SortBy(rooms, LoadOf(log, row.slot)) else rooms;
      forall r | r in order
        ensures r in rooms
      {
        SortMember(rooms, LoadOf(log, row.slot), r);
      }
      RoomsAccount(cfg, row, relax, order, log);
    }
  }

  /** A row is placed whole or not at all, in its own rooms, with its own therapists, for its own slot. */
  lemma {:induction false} RowIsAllOrNothing(cfg: Config, row: Row, log: Log)
    requires Distinct(row.pool)
    ensures Accounts(cfg, row, log, PlaceRow(cfg, row, log))
  {
    if !Rejected(cfg, row) {
      PassAccounts(cfg, row, false, log);
      var strict := TryPass(cfg, row, false, log);
      if !strict.placed {
        PassAccounts(cfg, row, true, strict.log);
        AccountsTwice(cfg, row, log, strict, TryPass(cfg, row, true, strict.log));
      }
    }
  }

  // Single-therapist runs.

  ghost predicate AllSingle(log: Log) {
    forall e <- log :: e.how.shape.Single?
  }

  lemma {:induction false} SingleRowsLogSingles(cfg: Config, rows: seq<Row>, log: Log)
    requires forall row <- rows :: Distinct(row.pool) && !row.isCouple
    requires AllSingle(log)
    ensures AllSingle(PlaceAll(cfg, rows, log))
    decreases rows
  {
    if rows != [] {
      var o := PlaceRow(cfg, rows[0], log);
      RowIsAllOrNothing(cfg, rows[0], log);
      assert o.log == log + o.log[|log|..];
      SingleRowsLogSingles(cfg, rows[1..], o.log);
    }
  }

  /** Without couples no therapist ever holds two overlapping slots, relaxed and conflicting rows included. */
  lemma {:induction false} SinglesNeverOverlap(cfg: Config, rows: seq<Row>, i: nat, j: nat)
    requires forall row <- rows :: WellFormed(row) && !row.isCouple
    requires i < j < |PlaceAll(cfg, rows, [])|
    requires PlaceAll(cfg, rows, [])[i].therapist == PlaceAll(cfg, rows, [])[j].therapist
    ensures !Overlap(PlaceAll(cfg, rows, [])[i].slot, PlaceAll(cfg, rows, [])[j].slot)
  {
    var log := PlaceAll(cfg, rows, []);
    assert Safe(cfg, []);
    EveryRunIsSafe(cfg, rows, []);
    SingleRowsLogSingles(cfg, rows, []);
    assert log[j] in log;
  }

  // Exactly when a row is placed.

  ghost predicate NoConflict(cfg: Config, row: Row) {
    !cfg.execute || forall relax, aid, ts :: !row.conflict(relax, aid, ts)
  }

  lemma {:induction false} NoConflictBooks(
    cfg: Config, row: Row, relax: bool, t1: Id, aid1: Id, t2: Id, aid2: Id, log: Log)
    requires NoConflict(cfg, row)
    ensures BookSingle(cfg, row, relax, t1, aid1, log).placed
    ensures BookPair(cfg, row, relax, t1, aid1, t2, aid2, log).placed
  {
  }

  /** A room either stays as it is or gets the booking of the pick. */
  lemma {:induction false} CoupleRoomOutcome(cfg: Config, row: Row, relax: bool, aid: Id, log: Log)
    requires NoConflict(cfg, row) && row.isCouple
    ensures var o := TryRoom(cfg, row, relax, aid, log);
            var pick := PickPair(cfg, row, relax, aid, aid, log);
            if !o.placed then o == Outcome(log, false)
            else pick.Some? && o == BookPair(cfg, row, relax, pick.value.0, aid, pick.value.1, aid, log)
  {
    var pick := PickPair(cfg, row, relax, aid, aid, log);
    if pick.Some? {
      NoConflictBooks(cfg, row, relax, pick.value.0, aid, pick.value.1, aid, log);
    }
  }

  lemma {:induction false} SingleRoomOutcome(cfg: Config, row: Row, relax: bool, aid: Id, log: Log)
    requires NoConflict(cfg, row) && !row.isCouple
    ensures var o := TryRoom(cfg, row, relax, aid, log);
            var pick := PickSingle(cfg, row, relax, aid, log);
            if !o.placed then o == Outcome(log, false)
            else pick.Some? && o == BookSingle(cfg, row, relax, pick.value, aid, log)
  {
    var pick := PickSingle(cfg, row, relax, aid, log);
    if pick.Some? {
      NoConflictBooks(cfg, row, relax, pick.value, aid, pick.value, aid, log);
    }
  }

  /** The strict or relaxed search finds therapists for this room. */
  ghost predicate Staffed(cfg: Config, row: Row, relax: bool, aid: Id, log: Log) {
    && Admits(cfg, row, relax, aid, UnitsNeeded(row), log)
    && if row.isCouple then PickPair(cfg, row, relax, aid, aid, log).Some?
       else PickSingle(cfg, row, relax, aid, log).Some?
  }

  lemma {:induction false} RoomPlacedIff(cfg: Config, row: Row, relax: bool, aid: Id, log: Log)
    requires NoConflict(cfg, row)
    ensures var o := TryRoom(cfg, row, relax, aid, log);
            && (o.placed <==> Staffed(cfg, row, relax, aid, log))
            && (!o.placed ==> o.log == log)
  {
    if row.isCouple {
      CoupleRoomOutcome(cfg, row, relax, aid, log);
      var pick := PickPair(cfg, row, relax, aid, aid, log);
      if pick.Some? {
        NoConflictBooks(cfg, row, relax, pick.value.0, aid, pick.value.1, aid, log);
      }
    } else {
      SingleRoomOutcome(cfg, row, relax, aid, log);
      var pick := PickSingle(cfg, row, relax, aid, log);
      if pick.Some? {
        NoConflictBooks(cfg, row, relax, pick.value, aid, pick.value, aid, log);
      }
    }
  }

  lemma {:induction false} RoomsPlacedIff(cfg: Config, row: Row, relax: bool, rooms: seq<Room>, log: Log)
    requires NoConflict(cfg, row)
    ensures var o := TryRooms(cfg, row, relax, rooms, log);
            && (o.placed <==> exists r <- rooms :: Staffed(cfg, row, relax, r.id, log))
            && (!o.placed ==> o.log == log)
  {
    if rooms != [] {
      RoomPlacedIff(cfg, row, relax, rooms[0].id, log);
      if !Staffed(cfg, row, relax, rooms[0].id, log) {
        RoomsPlacedIff(cfg, row, relax, rooms[1..], log);
      } else {
        assert rooms[0] in rooms;
      }
    }
  }

  lemma {:induction false} CandidateExists(log: Log, row: Row)
    ensures Candidates(log, row, false) != [] <==> exists t <- row.pool :: !Busy(TherapistSlots(log, t), row.slot)
  {
    var cands := Candidates(log, row, false);
    if cands != [] {
      CandidateMember(log, row, false, cands[0]);
    }
    if t :| t in row.pool && !Busy(TherapistSlots(log, t), row.slot) {
      CandidateMember(log, row, false, t);
    }
  }

  lemma {:induction false} CoupleCandidates(log: Log, row: Row)
    ensures |Candidates(log, row, true)| == |row.pool|
    ensures |Candidates(log, row, false)| <= |row.pool|
  {
  }

  /** Outside the Japanese shape a row is placed exactly when some room is staffed in the strict or the relaxed pass. */
  lemma {:induction false} PlacedIffStaffed(cfg: Config, row: Row, log: Log)
    requires !ShapeOf(row).Japanese? && !Rejected(cfg, row) && NoConflict(cfg, row)
    ensures var order := SortBy(RoomsToTry(cfg, row), LoadOf(log, row.slot));
            PlaceRow(cfg, row, log).placed <==>
            (exists r <- RoomsToTry(cfg, row) :: Staffed(cfg, row, false, r.id, log)) ||
            (exists r <- order :: Staffed(cfg, row, true, r.id, log))
  {
    var rooms := RoomsToTry(cfg, row);
    RoomsPlacedIff(cfg, row, false, rooms, log);
    RoomsPlacedIff(cfg, row, true, SortBy(rooms, LoadOf(log, row.slot)), log);
  }

  lemma {:induction false} SingleStaffed(cfg: Config, row: Row, aid: Id, log: Log)
    requires !row.isCouple
    ensures Staffed(cfg, row, false, aid, log) ==> Candidates(log, row, false) != []
    ensures Staffed(cfg, row, true, aid, log) <==> Candidates(log, row, false) != []
  {
  }

  lemma {:induction false} CoupleStaffed(cfg: Config, row: Row, aid: Id, log: Log)
    requires row.isCouple
    ensures Staffed(cfg, row, false, aid, log) ==> |row.pool| >= 2
    ensures Staffed(cfg, row, true, aid, log) <==> |row.pool| >= 2
  {
    CoupleCandidates(log, row);
  }

  /** A single row stays unplaced exactly when every therapist of its pool is taken for the slot. */
  lemma {:induction false} SinglePlacedIff(cfg: Config, row: Row, log: Log)
    requires !row.isCouple && row.rooms != [] && NoConflict(cfg, row)
    ensures PlaceRow(cfg, row, log).placed <==> exists t <- row.pool :: !Busy(TherapistSlots(log, t), row.slot)
  {
    CandidateExists(log, row);
    forall aid
      ensures Staffed(cfg, row, false, aid, log) ==> Candidates(log, row, false) != []
      ensures Staffed(cfg, row, true, aid, log) <==> Candidates(log, row, false) != []
    {
      SingleStaffed(cfg, row, aid, log);
    }
    if row.pool != [] {
      PlacedIffStaffed(cfg, row, log);
      var order := SortBy(row.rooms, LoadOf(log, row.slot));
      assert order[0] in order;
    }
  }

  /** A couple row with a couple room stays unplaced exactly when its pool has fewer than two therapists. */
  lemma {:induction false} CouplePlacedIff(cfg: Config, row: Row, log: Log)
    requires ShapeOf(row).Couple? && RoomsToTry(cfg, row) != [] && NoConflict(cfg, row)
    ensures PlaceRow(cfg, row, log).placed <==> |row.pool| >= 2
  {
    var rooms := RoomsToTry(cfg, row);
    assert row.rooms != [] by {
      assert rooms[0] in row.rooms;
    }
    forall aid
      ensures Staffed(cfg, row, false, aid, log) ==> |row.pool| >= 2
      ensures Staffed(cfg, row, true, aid, log) <==> |row.pool| >= 2
    {
      CoupleStaffed(cfg, row, aid, log);
    }
    if row.pool != [] {
      PlacedIffStaffed(cfg, row, log);
      var order := SortBy(rooms, LoadOf(log, row.slot));
      assert order[0] in order;
    }
  }

  /** A dual Japanese row is placed exactly when there are two Japanese rooms and two therapists. */
  lemma {:induction false} JapanesePlacedIff(cfg: Config, row: Row, log: Log)
    requires ShapeOf(row).Japanese? && NoConflict(cfg, row)
    ensures PlaceRow(cfg, row, log).placed <==> |RoomsToTry(cfg, row)| >= 2 && |row.pool| >= 2
  {
    var rooms := RoomsToTry(cfg, row);
    JapanesePassPlaced(cfg, row, false, rooms, log);
    JapanesePassPlaced(cfg, row, true, rooms, log);
    if |rooms| >= 2 {
      assert rooms[0] in row.rooms;
    }
  }

  lemma {:induction false} JapanesePassPlaced(cfg: Config, row: Row, relax: bool, rooms: seq<Room>, log: Log)
    requires NoConflict(cfg, row)
    ensures var o := TryJapanese(cfg, row, relax, rooms, log);
            && (o.placed ==> |rooms| >= 2 && |row.pool| >= 2)
            && (!o.placed ==> o.log == log)
            && (relax && |rooms| >= 2 && |row.pool| >= 2 ==> o.placed)
  {
    var free := FirstTwo(Filter(rooms, AdmitsOne(cfg, row, relax, log)));
    if relax {
      FilterAll(rooms, AdmitsOne(cfg, row, relax, log));
    }
    if |free| == 2 {
      var pick := PickPair(cfg, row, relax, free[0].id, free[1].id, log);
      PairNeedsTwo(cfg, row, relax, free[0].id, free[1].id, log);
      if pick.Some? {
        NoConflictBooks(cfg, row, relax, pick.value.0, free[0].id, pick.value.1, free[1].id, log);
      }
    }
  }

  lemma {:induction false} PairNeedsTwo(cfg: Config, row: Row, relax: bool, aid1: Id, aid2: Id, log: Log)
    ensures PickPair(cfg, row, relax, aid1, aid2, log).Some? ==> |row.pool| >= 2
    ensures relax && |row.pool| >= 2 ==> PickPair(cfg, row, relax, aid1, aid2, log).Some?
  {
    CoupleCandidates(log, row);
  }

  /** Two Japanese rooms with space and two therapists for them, by the strict search. */
  ghost predicate DualStaffed(cfg: Config, row: Row, log: Log) {
    var free := FirstTwo(Filter(RoomsToTry(cfg, row), AdmitsOne(cfg, row, false, log)));
    |free| == 2 && PickPair(cfg, row, false, free[0].id, free[1].id, log).Some?
  }

  /** A strict placement is preferred, for all three shapes: the relaxed pass runs only when the strict one fails. */
  lemma {:induction false} RelaxedOnlyWhenStrictFails(cfg: Config, row: Row, log: Log)
    requires !Rejected(cfg, row) && NoConflict(cfg, row) && !cfg.ignoreAvailability
    requires PlaceRow(cfg, row, log).placed
    ensures var o := PlaceRow(cfg, row, log);
            && o.log != []
            && (o.log[|o.log| - 1].how.checked <==>
                  if ShapeOf(row).Japanese? then DualStaffed(cfg, row, log)
                  else exists r <- RoomsToTry(cfg, row) :: Staffed(cfg, row, false, r.id, log))
  {
    WhichPass(cfg, row, log);
    if ShapeOf(row).Japanese? {
      DualPlacedIff(cfg, row, log);
    } else {
      RoomsPlacedIff(cfg, row, false, RoomsToTry(cfg, row), log);
    }
  }

  lemma {:induction false} DualPlacedIff(cfg: Config, row: Row, log: Log)
    requires ShapeOf(row).Japanese? && NoConflict(cfg, row)
    ensures TryPass(cfg, row, false, log).placed <==> DualStaffed(cfg, row, log)
  {
    var free := FirstTwo(Filter(RoomsToTry(cfg, row), AdmitsOne(cfg, row, false, log)));
    if DualStaffed(cfg, row, log) {
      var pick := PickPair(cfg, row, false, free[0].id, free[1].id, log);
      NoConflictBooks(cfg, row, false, pick.value.0, free[0].id, pick.value.1, free[1].id, log);
    }
  }

  /** Whatever conflicts: a placed row was placed by the strict pass iff that pass placed it. */
  lemma {:induction false} WhichPass(cfg: Config, row: Row, log: Log)
    requires !Rejected(cfg, row) && !cfg.ignoreAvailability && PlaceRow(cfg, row, log).placed
    ensures var o := PlaceRow(cfg, row, log);
            o.log != [] && o.log[|o.log| - 1].how.checked == TryPass(cfg, row, false, log).placed
  {
    var strict := TryPass(cfg, row, false, log);
    if strict.placed {
      PassEntryHow(cfg, row, false, log);
    } else {
      PassEntryHow(cfg, row, true, strict.log);
    }
  }

  lemma {:induction false} PassEntryHow(cfg: Config, row: Row, relax: bool, log: Log)
    requires TryPass(cfg, row, relax, log).placed
    ensures var o := TryPass(cfg, row, relax, log);
            o.log != [] && o.log[|o.log| - 1].how == HowOf(cfg, row, relax)
  {
    var rooms := RoomsToTry(cfg, row);
    if ShapeOf(row).Japanese? {
      var free := FirstTwo(Filter(rooms, AdmitsOne(cfg, row, relax, log)));
      var pick := PickPair(cfg, row, relax, free[0].id, free[1].id, log);
      BookingEntryHow(cfg, row, relax, pick.value.0, free[0].id, pick.value.1, free[1].id, log);
    } else {
      LastEntryHow(cfg, row, relax, if relax then SortBy(rooms, LoadOf(log, row.slot)) else rooms, log);
    }
  }

  lemma {:induction false} LastEntryHow(cfg: Config, row: Row, relax: bool, rooms: seq<Room>, log: Log)
    requires TryRooms(cfg, row, relax, rooms, log).placed
    ensures var o := TryRooms(cfg, row, relax, rooms, log);
            o.log != [] && o.log[|o.log| - 1].how == HowOf(cfg, row, relax)
    decreases rooms
  {
    var o := TryRoom(cfg, row, relax, rooms[0].id, log);
    if o.placed {
      RoomEntryHow(cfg, row, relax, rooms[0].id, log);
    } else {
      LastEntryHow(cfg, row, relax, rooms[1..], o.log);
    }
  }

  lemma {:induction false} RoomEntryHow(cfg: Config, row: Row, relax: bool, aid: Id, log: Log)
    requires TryRoom(cfg, row, relax, aid, log).placed
    ensures var o := TryRoom(cfg, row, relax, aid, log);
            o.log != [] && o.log[|o.log| - 1].how == HowOf(cfg, row, relax)
  {
    if row.isCouple {
      var pick := PickPair(cfg, row, relax, aid, aid, log);
      BookingEntryHow(cfg, row, relax, pick.value.0, aid, pick.value.1, aid, log);
    } else {
      var pick := PickSingle(cfg, row, relax, aid, log);
      BookingEntryHow(cfg, row, relax, pick.value, aid, pick.value, aid, log);
    }
  }

  lemma {:induction false} BookingEntryHow(
    cfg: Config, row: Row, relax: bool, t1: Id, aid1: Id, t2: Id, aid2: Id, log: Log)
    ensures var o := BookSingle(cfg, row, relax, t1, aid1, log);
            o.log != [] && o.log[|o.log| - 1].how == HowOf(cfg, row, relax)
    ensures var o := BookPair(cfg, row, relax, t1, aid1, t2, aid2, log);
            o.log != [] && o.log[|o.log| - 1].how == HowOf(cfg, row, relax)
  {
  }

  // Which therapists a strict search returns.

  /** With one room and answers that do not depend on the first therapist: the first two accepted, or nothing. */
  lemma {:induction false} FirstPairIsFirstTwoAccepted<T>(cands: seq<T>, yes: T -> bool, second: (T, T) -> bool)
    requires forall t <- cands, u <- cands :: second(t, u) == yes(u)
    ensures var accepted := Filter(cands, yes);
            FirstPair(cands, yes, second) ==
            if |accepted| < 2 then None else Some((accepted[0], accepted[1]))
  {
    if cands != [] {
      var rest := cands[1..];
      assert forall t <- rest :: t in cands;
      FirstPairIsFirstTwoAccepted(rest, yes, second);
      FilterSame(rest, Beside(second, cands[0]), yes);
      var partners := Filter(rest, yes);
      assert Filter(cands, yes) == if yes(cands[0]) then [cands[0]] + partners else partners;
    }
  }

  /** The strict couple picker over the ledger: the two least booked of the free therapists ushauth accepts. */
  lemma {:induction false} StrictPairIsFirstTwo(cfg: Config, row: Row, aid: Id, log: Log)
    requires !cfg.ignoreAvailability
    requires forall t <- row.pool, u <- row.pool :: SaysYesBeside(row, aid)(t, u) == SaysYes(row, aid)(u)
    ensures var accepted := Filter(Candidates(log, row, false), SaysYes(row, aid));
            && (forall t :: t in accepted <==>
                  t in row.pool && !Busy(TherapistSlots(log, t), row.slot) && SaysYes(row, aid)(t))
            && Ascending(Candidates(log, row, false), MinutesOf(log))
            && PickPair(cfg, row, false, aid, aid, log) ==
               if |accepted| < 2 then None else Some((accepted[0], accepted[1]))
  {
    var cands := Candidates(log, row, false);
    forall t
      ensures t in cands <==> t in row.pool && !Busy(TherapistSlots(log, t), row.slot)
    {
      CandidateMember(log, row, false, t);
    }
    SortAscending(Filter(row.pool, FreeOf(log, row.slot)), MinutesOf(log));
    FirstPairIsFirstTwoAccepted(cands, SaysYes(row, aid), SaysYesBeside(row, aid));
  }

  /** Whatever is answered, it returns the least index-ordered pair that fits, and nothing iff there is none. */
  lemma {:induction false} FirstPairIsLeast<T>(cands: seq<T>, first: T -> bool, second: (T, T) -> bool)
    ensures FirstPair(cands, first, second).None? <==>
            !exists i, j :: 0 <= i < j < |cands| && first(cands[i]) && second(cands[i], cands[j])
    ensures FirstPair(cands, first, second).Some? ==>
            exists i, j :: && 0 <= i < j < |cands|
                           && FirstPair(cands, first, second) == Some((cands[i], cands[j]))
                           && LeastFit(cands, first, second, i, j)
  {
    if FirstPair(cands, first, second).Some? {
      var i, j := FirstPairIndices(cands, first, second);
    } else if i, j :| 0 <= i < j < |cands| && first(cands[i]) && second(cands[i], cands[j]) {
      NoPairNoFit(cands, first, second, i, j);
    }
  }

  ghost predicate LeastFit<T>(cands: seq<T>, first: T -> bool, second: (T, T) -> bool, i: nat, j: nat)
    requires i < j < |cands|
  {
    && first(cands[i]) && second(cands[i], cands[j])
    && forall k, l :: 0 <= k < l < |cands| && first(cands[k]) && second(cands[k], cands[l]) ==>
         i < k || (i == k && j <= l)
  }

  lemma {:induction false} NoPairNoFit<T>(cands: seq<T>, first: T -> bool, second: (T, T) -> bool, i: nat, j: nat)
    requires FirstPair(cands, first, second).None? && i < j < |cands|
    ensures !(first(cands[i]) && second(cands[i], cands[j]))
    decreases i
  {
    if i == 0 {
      assert cands[j] in cands[1..];
    } else {
      NoPairNoFit(cands[1..], first, second, i - 1, j - 1);
    }
  }

  lemma {:induction false} FirstPairIndices<T>(cands: seq<T>, first: T -> bool, second: (T, T) -> bool)
    returns (i: nat, j: nat)
    requires FirstPair(cands, first, second).Some?
    ensures i < j < |cands| && FirstPair(cands, first, second) == Some((cands[i], cands[j]))
    ensures LeastFit(cands, first, second, i, j)
  {
    var rest := cands[1..];
    var partners := Filter(rest, Beside(second, cands[0]));
    forall l | 0 < l < |cands| && second(cands[0], cands[l])
      ensures cands[l] in partners
    {
      assert cands[l] == rest[l - 1] && Beside(second, cands[0])(cands[l]);
    }
    if first(cands[0]) && partners != [] {
      var m := FirstKept(rest, Beside(second, cands[0]));
      i, j := 0, m + 1;
    } else {
      var a, b := FirstPairIndices(rest, first, second);
      i, j := a + 1, b + 1;
      forall k, l | 0 <= k < l < |cands| && first(cands[k]) && second(cands[k], cands[l])
        ensures i < k || (i == k && j <= l)
      {
        assert k != 0;
        assert rest[k - 1] == cands[k] && rest[l - 1] == cands[l];
      }
    }
  }

  lemma {:induction false} FirstKept<T>(xs: seq<T>, keep: T -> bool) returns (m: nat)
    requires Filter(xs, keep) != []
    ensures m < |xs| && xs[m] == Filter(xs, keep)[0] && keep(xs[m])
    ensures forall k :: 0 <= k < m ==> !keep(xs[k])
  {
    if keep(xs[0]) {
      m := 0;
    } else {
      m := FirstKept(xs[1..], keep);
      m := m + 1;
    }
  }
}
