/** What every run of the importer keeps: room capacity at every instant, and therapist exclusivity. */
module AllocationSafety {
  import opened Seqs
  import opened Ledgers
  import opened Allocator

  /** Ids are unique in a branch's room and therapist lists. */
  ghost predicate WellFormed(row: Row) {
    && Distinct(row.pool)
    && Distinct(row.rooms)
    && forall a <- row.rooms, b <- row.rooms :: a.id == b.id ==> a == b
  }

  function Seats(cfg: Config, r: Id): nat {
    if Capacity(cfg, r) < 0 then 0 else Capacity(cfg, r)
  }

  /** Occupancy never exceeds the seats plus the units placed without the test and still running. */
  ghost predicate CapacityKept(cfg: Config, log: Log) {
    forall r, at :: Covering(RoomSlots(log, r), at) <= Seats(cfg, r) + Covering(ExemptSlots(log, r), at)
  }

  /** A therapist's overlapping slots are explained by the later one being an untested pair. */
  ghost predicate OverlapsExplained(log: Log) {
    forall i, j :: 0 <= i < j < |log| && log[i].therapist == log[j].therapist && Overlap(log[i].slot, log[j].slot) ==>
      !log[j].how.shape.Single? && !log[j].how.checked
  }

  ghost predicate Safe(cfg: Config, log: Log) {
    CapacityKept(cfg, log) && OverlapsExplained(log)
  }

  ghost predicate Fits(cfg: Config, log: Log, r: Id, slot: Slot, units: nat) {
    Overlaps(RoomSlots(log, r), slot) + units <= Capacity(cfg, r)
  }

  ghost predicate Exempt(how: How) {
    !how.shape.Single? && !how.checked
  }

  lemma {:induction false} UnitKeepsCapacity(cfg: Config, log: Log, e: Entry)
    requires CapacityKept(cfg, log)
    requires e.Placed? && e.how.checked ==> Fits(cfg, log, e.room, e.slot, 1)
    ensures CapacityKept(cfg, log + [e])
  {
    AppendEntry(log, e);
    if e.Placed? {
      forall r, at
        ensures Covering(RoomSlots(log + [e], r), at) <= Seats(cfg, r) + Covering(ExemptSlots(log + [e], r), at)
      {
        AppendSlot(RoomSlots(log, r), e.slot);
        AppendSlot(ExemptSlots(log, r), e.slot);
        if r == e.room && e.how.checked && Covers(e.slot, at) {
          OverlapsBoundCovering(RoomSlots(log, r), e.slot, at);
        }
      }
    }
  }

  lemma {:induction false} EntryKeepsOverlaps(log: Log, e: Entry)
    requires OverlapsExplained(log)
    requires Exempt(e.how) || !Busy(TherapistSlots(log, e.therapist), e.slot)
    ensures OverlapsExplained(log + [e])
  {
    BusyIffLogged(log, e.therapist, e.slot);
    var log' := log + [e];
    forall i, j | 0 <= i < j < |log'| && log'[i].therapist == log'[j].therapist && Overlap(log'[i].slot, log'[j].slot)
      ensures Exempt(log'[j].how)
    {
      if j == |log| {
        assert log[i] in log;
      }
    }
  }

  /** Taking a unit uses up one unit of room for the same slot. */
  lemma {:induction false} FitsAfterUnit(cfg: Config, log: Log, e: Entry, r: Id, units: nat)
    requires Fits(cfg, log, r, e.slot, units + if e.Placed? && e.room == r then 1 else 0)
    ensures Fits(cfg, log + [e], r, e.slot, units)
  {
    AppendEntry(log, e);
    AppendSlot(RoomSlots(log, r), e.slot);
  }

  lemma {:induction false} StillFree(log: Log, e: Entry, t: Id, slot: Slot)
    requires e.therapist != t
    ensures Busy(TherapistSlots(log + [e], t), slot) == Busy(TherapistSlots(log, t), slot)
  {
    AppendEntry(log, e);
  }

  // The picks.

  lemma {:induction false} CandidateMember(log: Log, row: Row, override: bool, t: Id)
    ensures t in Candidates(log, row, override) <==>
            t in row.pool && (override || !Busy(TherapistSlots(log, t), row.slot))
  {
    var from := if override then row.pool else Filter(row.pool, FreeOf(log, row.slot));
    SortMember(from, MinutesOf(log), t);
  }

  lemma {:induction false} CandidatesDistinct(log: Log, row: Row, override: bool)
    requires Distinct(row.pool)
    ensures Distinct(Candidates(log, row, override))
  {
    FilterDistinct(row.pool, FreeOf(log, row.slot));
    SortDistinct(if override then row.pool else Filter(row.pool, FreeOf(log, row.slot)), MinutesOf(log));
  }

  lemma {:induction false} AskAllMember(cands: seq<Id>, aid: Id, avail: Question -> Answer)
    ensures var r := AskAll(cands, aid, avail); r.Some? ==> r.value in cands
  {
    if cands != [] {
      AskAllMember(cands[1..], aid, avail);
    }
  }

  lemma {:induction false} FirstPairOrdered<T>(cands: seq<T>, first: T -> bool, second: (T, T) -> bool)
    returns (i: nat, j: nat)
    requires FirstPair(cands, first, second).Some?
    ensures i < j < |cands| && FirstPair(cands, first, second) == Some((cands[i], cands[j]))
    ensures first(cands[i]) && second(cands[i], cands[j])
  {
    var partners := Filter(cands[1..], Beside(second, cands[0]));
    if first(cands[0]) && partners != [] {
      assert partners[0] in partners;
      i := 0;
      j :| 1 <= j < |cands| && cands[j] == partners[0];
    } else {
      i, j := FirstPairOrdered(cands[1..], first, second);
      i, j := i + 1, j + 1;
    }
  }

  lemma {:induction false} SingleIsFree(cfg: Config, row: Row, relax: bool, aid: Id, log: Log)
    requires PickSingle(cfg, row, relax, aid, log).Some?
    ensures var t := PickSingle(cfg, row, relax, aid, log).value;
            t in row.pool && !Busy(TherapistSlots(log, t), row.slot)
  {
    var cands := Candidates(log, row, false);
    AskAllMember(cands, aid, row.avail);
    CandidateMember(log, row, false, PickSingle(cfg, row, relax, aid, log).value);
  }

  lemma {:induction false} PairIsDistinct(cfg: Config, row: Row, relax: bool, aid1: Id, aid2: Id, log: Log)
    requires Distinct(row.pool)
    requires PickPair(cfg, row, relax, aid1, aid2, log).Some?
    ensures var p := PickPair(cfg, row, relax, aid1, aid2, log).value;
            p.0 != p.1 && p.0 in row.pool && p.1 in row.pool
    ensures var p := PickPair(cfg, row, relax, aid1, aid2, log).value;
            relax || cfg.ignoreAvailability ||
            (!Busy(TherapistSlots(log, p.0), row.slot) && !Busy(TherapistSlots(log, p.1), row.slot))
  {
    var override := relax || cfg.ignoreAvailability;
    var cands := Candidates(log, row, override);
    var p := PickPair(cfg, row, relax, aid1, aid2, log).value;
    CandidatesDistinct(log, row, override);
    if !override {
      var i, j := FirstPairOrdered(cands, SaysYes(row, aid1), SaysYesBeside(row, aid2));
      assert p == (cands[i], cands[j]);
    }
    CandidateMember(log, row, override, p.0);
    CandidateMember(log, row, override, p.1);
  }

  // The bookings.

  lemma {:induction false} SingleKeepsSafe(cfg: Config, row: Row, relax: bool, t: Id, aid: Id, log: Log)
    requires Safe(cfg, log)
    requires !Busy(TherapistSlots(log, t), row.slot)
    requires Admits(cfg, row, relax, aid, 1, log)
    ensures Safe(cfg, BookSingle(cfg, row, relax, t, aid, log).log)
  {
    var o := BookSingle(cfg, row, relax, t, aid, log);
    var e := o.log[|log|];
    UnitKeepsCapacity(cfg, log, e);
    EntryKeepsOverlaps(log, e);
  }

  lemma {:induction false} TwoKeepSafe(cfg: Config, log: Log, e1: Entry, e2: Entry)
    requires Safe(cfg, log)
    requires e1.how == e2.how && e1.slot == e2.slot && e1.therapist != e2.therapist
    requires e1.Placed? == e2.Placed?
    requires Exempt(e1.how) ||
             (!Busy(TherapistSlots(log, e1.therapist), e1.slot) && !Busy(TherapistSlots(log, e2.therapist), e2.slot))
    requires e1.Placed? && e1.how.checked ==>
               && Fits(cfg, log, e1.room, e1.slot, if e1.room == e2.room then 2 else 1)
               && Fits(cfg, log, e2.room, e2.slot, if e1.room == e2.room then 2 else 1)
    ensures Safe(cfg, log + [e1] + [e2])
  {
    UnitKeepsCapacity(cfg, log, e1);
    EntryKeepsOverlaps(log, e1);
    if e1.Placed? && e1.how.checked {
      FitsAfterUnit(cfg, log, e1, e2.room, 1);
    }
    StillFree(log, e1, e2.therapist, e2.slot);
    UnitKeepsCapacity(cfg, log + [e1], e2);
    EntryKeepsOverlaps(log + [e1], e2);
  }

  lemma {:induction false} PairKeepsSafe(
    cfg: Config, row: Row, relax: bool, t1: Id, aid1: Id, t2: Id, aid2: Id, log: Log)
    requires Safe(cfg, log) && row.isCouple && t1 != t2
    requires relax || cfg.ignoreAvailability ||
             (!Busy(TherapistSlots(log, t1), row.slot) && !Busy(TherapistSlots(log, t2), row.slot))
    requires Admits(cfg, row, relax, aid1, if aid1 == aid2 then 2 else 1, log)
    requires Admits(cfg, row, relax, aid2, if aid1 == aid2 then 2 else 1, log)
    ensures Safe(cfg, BookPair(cfg, row, relax, t1, aid1, t2, aid2, log).log)
  {
    var o := BookPair(cfg, row, relax, t1, aid1, t2, aid2, log);
    TwoKeepSafe(cfg, log, o.log[|log|], o.log[|log| + 1]);
  }

  // The loops.

  lemma {:induction false} RoomKeepsSafe(cfg: Config, row: Row, relax: bool, aid: Id, log: Log)
    requires Safe(cfg, log) && Distinct(row.pool)
    ensures Safe(cfg, TryRoom(cfg, row, relax, aid, log).log)
  {
    if Admits(cfg, row, relax, aid, if row.isCouple then 2 else 1, log) {
      if row.isCouple {
        var pick := PickPair(cfg, row, relax, aid, aid, log);
        if pick.Some? {
          PairIsDistinct(cfg, row, relax, aid, aid, log);
          PairKeepsSafe(cfg, row, relax, pick.value.0, aid, pick.value.1, aid, log);
        }
      } else {
        var pick := PickSingle(cfg, row, relax, aid, log);
        if pick.Some? {
          SingleIsFree(cfg, row, relax, aid, log);
          SingleKeepsSafe(cfg, row, relax, pick.value, aid, log);
        }
      }
    }
  }

  lemma {:induction false} RoomsKeepSafe(cfg: Config, row: Row, relax: bool, rooms: seq<Room>, log: Log)
    requires Safe(cfg, log) && Distinct(row.pool)
    ensures Safe(cfg, TryRooms(cfg, row, relax, rooms, log).log)
    decreases rooms
  {
    if rooms != [] {
      RoomKeepsSafe(cfg, row, relax, rooms[0].id, log);
      var o := TryRoom(cfg, row, relax, rooms[0].id, log);
      if !o.placed {
        RoomsKeepSafe(cfg, row, relax, rooms[1..], o.log);
      }
    }
  }

  lemma {:induction false} JapaneseKeepsSafe(cfg: Config, row: Row, relax: bool, log: Log)
    requires Safe(cfg, log) && WellFormed(row) && ShapeOf(row).Japanese?
    ensures Safe(cfg, TryJapanese(cfg, row, relax, RoomsToTry(cfg, row), log).log)
  {
    var rooms := RoomsToTry(cfg, row);
    var admitted := Filter(rooms, AdmitsOne(cfg, row, relax, log));
    var free := FirstTwo(admitted);
    if |free| == 2 {
      FilterDistinct(row.rooms, NamedJapanese());
      FilterDistinct(rooms, AdmitsOne(cfg, row, relax, log));
      assert free[0] in admitted && free[1] in admitted;
      assert free[0] in rooms && free[1] in rooms;
      assert free[0] in row.rooms && free[1] in row.rooms;
      var pick := PickPair(cfg, row, relax, free[0].id, free[1].id, log);
      if pick.Some? {
        PairIsDistinct(cfg, row, relax, free[0].id, free[1].id, log);
        PairKeepsSafe(cfg, row, relax, pick.value.0, free[0].id, pick.value.1, free[1].id, log);
      }
    }
  }

  lemma {:induction false} PassKeepsSafe(cfg: Config, row: Row, relax: bool, log: Log)
    requires Safe(cfg, log) && WellFormed(row)
    ensures Safe(cfg, TryPass(cfg, row, relax, log).log)
  {
    if ShapeOf(row).Japanese? {
      JapaneseKeepsSafe(cfg, row, relax, log);
    } else {
      var rooms := RoomsToTry(cfg, row);
      RoomsKeepSafe(cfg, row, relax, if relax then SortBy(rooms, LoadOf(log, row.slot)) else rooms, log);
    }
  }

  /** Main invariant: whatever ushauth answers and whichever bookings conflict, every run stays safe. */
  lemma {:induction false} EveryRunIsSafe(cfg: Config, rows: seq<Row>, log: Log)
    requires forall row <- rows :: WellFormed(row)
    requires Safe(cfg, log)
    ensures Safe(cfg, PlaceAll(cfg, rows, log))
    decreases rows
  {
    if rows != [] {
      var row := rows[0];
      if !Rejected(cfg, row) {
        PassKeepsSafe(cfg, row, false, log);
        var strict := TryPass(cfg, row, false, log);
        if !strict.placed {
          PassKeepsSafe(cfg, row, true, strict.log);
        }
      }
      EveryRunIsSafe(cfg, rows[1..], PlaceRow(cfg, row, log).log);
    }
  }

  lemma {:induction false} NothingExempt(log: Log, r: Id)
    requires forall e <- log :: e.how.checked
    ensures ExemptSlots(log, r) == []
  {
    if log != [] {
      assert log[|log| - 1] in log;
      NothingExempt(log[..|log| - 1], r);
    }
  }

  /** A run from an empty ledger that never needed the relaxed pass respects capacity at every instant. */
  lemma {:induction false} StrictRunNeverOverbooks(cfg: Config, rows: seq<Row>, r: Id, at: int)
    requires forall row <- rows :: WellFormed(row)
    requires forall e <- PlaceAll(cfg, rows, []) :: e.how.checked
    ensures Covering(RoomSlots(PlaceAll(cfg, rows, []), r), at) <= Seats(cfg, r)
  {
    assert Safe(cfg, []);
    EveryRunIsSafe(cfg, rows, []);
    NothingExempt(PlaceAll(cfg, rows, []), r);
  }

  // How far the admission test is from occupancy at an instant.

  /** At an instant of the slot the count is the occupancy exactly when every overlapping slot is running then. */
  lemma {:induction false} CountIsOccupancyIff(slots: seq<Slot>, slot: Slot, at: int)
    requires Covers(slot, at)
    ensures Covering(slots, at) == Overlaps(slots, slot) <==>
            forall s <- slots :: Overlap(slot, s) ==> Covers(s, at)
  {
    if slots != [] {
      var front, last := slots[..|slots| - 1], slots[|slots| - 1];
      assert slots == front + [last];
      CountIsOccupancyIff(front, slot, at);
      OverlapsBoundCovering(front, slot, at);
    }
  }

  function LatestStart(slots: seq<Slot>, slot: Slot): (t: int)
    ensures t >= slot.start
  {
    if slots == [] then slot.start
    else
      var t, s := LatestStart(slots[..|slots| - 1], slot), slots[|slots| - 1];
      if Overlap(slot, s) && s.start > t then s.start else t
  }

  function EarliestEnd(slots: seq<Slot>, slot: Slot): (t: int)
    ensures t <= slot.end
  {
    if slots == [] then slot.end
    else
      var t, s := EarliestEnd(slots[..|slots| - 1], slot), slots[|slots| - 1];
      if Overlap(slot, s) && s.end < t then s.end else t
  }

  /** An instant is common to the candidate and all slots overlapping it iff it lies between these two times. */
  lemma {:induction false} CommonInstantIff(slots: seq<Slot>, slot: Slot, at: int)
    ensures LatestStart(slots, slot) <= at < EarliestEnd(slots, slot) <==>
            Covers(slot, at) && forall s <- slots :: Overlap(slot, s) ==> Covers(s, at)
  {
    if slots != [] {
      var front, last := slots[..|slots| - 1], slots[|slots| - 1];
      assert slots == front + [last];
      CommonInstantIff(front, slot, at);
    }
  }

  /** The code's test for `units` more units, and the guarantee it stands for. */
  predicate TestAdmits(slots: seq<Slot>, slot: Slot, units: nat, capacity: int) {
    Overlaps(slots, slot) + units <= capacity
  }

  ghost predicate AlwaysFits(slots: seq<Slot>, slot: Slot, units: nat, capacity: int) {
    forall at :: Covers(slot, at) ==> Covering(slots, at) + units <= capacity
  }

  lemma {:induction false} TestIsSufficient(slots: seq<Slot>, slot: Slot, units: nat, capacity: int)
    requires TestAdmits(slots, slot, units, capacity)
    ensures AlwaysFits(slots, slot, units, capacity)
  {
    forall at | Covers(slot, at)
      ensures Covering(slots, at) + units <= capacity
    {
      OverlapsBoundCovering(slots, slot, at);
    }
  }

  /**
   * The test answers as occupancy would, for every capacity and number of units, exactly when the overlapping slots
   * and the candidate have an instant in common: the latest start comes before the earliest end.
   */
  lemma {:induction false} TestIsExactIff(slots: seq<Slot>, slot: Slot)
    requires slot.start < slot.end
    ensures (forall units, capacity ::
               TestAdmits(slots, slot, units, capacity) <==> AlwaysFits(slots, slot, units, capacity)) <==>
            LatestStart(slots, slot) < EarliestEnd(slots, slot)
  {
    var at, n := LatestStart(slots, slot), Overlaps(slots, slot);
    if at < EarliestEnd(slots, slot) {
      CommonInstantIff(slots, slot, at);
      CountIsOccupancyIff(slots, slot, at);
      forall units: nat, capacity
        ensures TestAdmits(slots, slot, units, capacity) <==> AlwaysFits(slots, slot, units, capacity)
      {
        if TestAdmits(slots, slot, units, capacity) {
          TestIsSufficient(slots, slot, units, capacity);
        }
      }
    } else {
      forall at | Covers(slot, at)
        ensures Covering(slots, at) < n
      {
        CommonInstantIff(slots, slot, at);
        CountIsOccupancyIff(slots, slot, at);
        OverlapsBoundCovering(slots, slot, at);
      }
      assert AlwaysFits(slots, slot, 1, n) && !TestAdmits(slots, slot, 1, n);
    }
  }

  /** Two neighbours of a slot that do not meet each other: the test refuses, although a seat is always left. */
  lemma {:induction false} LoadTestIsConservative()
    ensures var slots, slot := [Slot(0, 30), Slot(30, 60)], Slot(15, 45);
            && Overlaps(slots, slot) + 1 > 2
            && forall at :: Covering(slots + [slot], at) <= 2
  {
    var first, second, slot := Slot(0, 30), Slot(30, 60), Slot(15, 45);
    AppendSlot([], first);
    AppendSlot([first], second);
    AppendSlot([first, second], slot);
    assert [] + [first] == [first] && [first] + [second] == [first, second];
  }
}
