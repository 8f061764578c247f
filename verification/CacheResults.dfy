/** What the reconciler guarantees over any starting table, and when an availability "yes" can be trusted. */
module CacheResults {
  import opened Seqs
  import opened CacheTable

  // Convergence.

  /** The shape this code inserts: a secondary row names no room. */
  ghost predicate Standard(c: Cell) {
    c.arrangement == None && c.arrangementName == "" && c.bookingType == "branch"
  }

  ghost predicate StandardSecondaries(t: Table, b: Id) {
    forall id <- Ids(t, b, true) :: Standard(t[id].cell)
  }

  /** A non-forced sync depends on its arguments only, whatever rows the booking had. */
  lemma {:induction false} SyncReachesTarget(before: Table, after: Table, a: Args)
    requires Synced(before, after, a) && StandardSecondaries(before, a.booking)
    ensures ViewOf(after, a.booking) == Target(a) && StandardSecondaries(after, a.booking)
  {
    var ids := Ids(after, a.booking, true);
    if a.secondary.None? {
      assert Cells(after, ids) == {};
    } else {
      var id :| ids == {id} && after[id].cell == FreshSecondary(a);
      assert Cells(after, ids) == {FreshSecondary(a)};
    }
  }

  /** With one secondary row on file, the target is reached iff no second therapist is given or the row is standard. */
  lemma {:induction false} SyncReachesTargetIff(before: Table, after: Table, a: Args, k: nat)
    requires Synced(before, after, a) && Ids(before, a.booking, true) == {k}
    ensures ViewOf(after, a.booking) == Target(a) <==> a.secondary.None? || Standard(before[k].cell)
  {
    if a.secondary.None? {
      assert Cells(after, Ids(after, a.booking, true)) == {};
    } else if Standard(before[k].cell) {
      SyncReachesTarget(before, after, a);
    } else {
      var kept := after[k].cell;
      assert Ids(after, a.booking, true) == {k};
      assert kept in Cells(after, {k});
      assert kept != FreshSecondary(a);
    }
  }

  lemma {:induction false} LastSyncWins(t0: Table, t1: Table, t2: Table, a: Args, c: Args)
    requires Synced(t0, t1, a) && Synced(t1, t2, c) && a.booking == c.booking
    requires StandardSecondaries(t0, a.booking)
    ensures ViewOf(t2, c.booking) == Target(c)
    ensures a == c ==> ViewOf(t2, c.booking) == ViewOf(t1, c.booking)
  {
    SyncReachesTarget(t0, t1, a);
    SyncReachesTarget(t1, t2, c);
  }

  // One row per wanted room.

  ghost predicate Wanted(a: Args, r: Id) {
    a.arrangement == Some(r) || exists s <- a.services :: s.arrangement == Some(r)
  }

  ghost function RowsInRoom(t: Table, b: Id, r: Id): set<nat> {
    set id | id in Ids(t, b, false) && t[id].cell.arrangement == Some(r)
  }

  lemma {:induction false} NoMoreCellsThanRows(t: Table, ids: set<nat>)
    requires ids <= t.Keys
    ensures |Cells(t, ids)| <= |ids|
  {
    if ids != {} {
      var id :| id in ids;
      NoMoreCellsThanRows(t, ids - {id});
      assert Cells(t, ids) == Cells(t, ids - {id}) + {t[id].cell};
    }
  }

  /** As many different cells as rows: no two rows carry the same cell. */
  lemma {:induction false} CellsDiffer(t: Table, ids: set<nat>, i: nat, j: nat)
    requires ids <= t.Keys && |Cells(t, ids)| == |ids|
    requires i in ids && j in ids && i != j
    ensures t[i].cell != t[j].cell
  {
    NoMoreCellsThanRows(t, ids - {i});
    assert Cells(t, ids) == Cells(t, ids - {i}) + {t[i].cell};
    assert t[j].cell in Cells(t, ids - {i});
  }

  lemma {:induction false} ExtraCellCount(a: Args, extras: seq<Service>)
    requires forall i, j :: 0 <= i < j < |extras| ==> extras[i].arrangement != extras[j].arrangement
    ensures |set s | s in extras :: ExtraCell(a, s)| == |extras|
  {
    if extras != [] {
      var front, last := extras[..|extras| - 1], extras[|extras| - 1];
      ExtraCellCount(a, front);
      var rest := set s | s in front :: ExtraCell(a, s);
      assert (set s | s in extras :: ExtraCell(a, s)) == rest + {ExtraCell(a, last)} by {
        assert extras == front + [last];
      }
      forall s | s in front
        ensures ExtraCell(a, s) != ExtraCell(a, last)
      {
        assert ExtraCell(a, s).arrangement == s.arrangement;
      }
    }
  }

  lemma {:induction false} TargetCount(a: Args)
    ensures |TargetPrimary(a)| == 1 + |Extras(a)|
  {
    NewRoomsDistinct(a.services, PrimaryRooms(a));
    var extras := Extras(a);
    ExtraCellCount(a, extras);
    var cells := set s | s in extras :: ExtraCell(a, s);
    assert PrimaryCell(a) !in cells by {
      forall s | s in extras
        ensures ExtraCell(a, s) != PrimaryCell(a)
      {
        assert ExtraCell(a, s).arrangement == s.arrangement;
      }
    }
    assert TargetPrimary(a) == {PrimaryCell(a)} + cells;
  }

  lemma {:induction false} TargetRooms(a: Args, r: Id)
    ensures (exists c <- TargetPrimary(a) :: c.arrangement == Some(r)) <==> Wanted(a, r)
    ensures forall c <- TargetPrimary(a), d <- TargetPrimary(a) :: c.arrangement == d.arrangement ==> c == d
  {
    NewRoomsCover(a.services, PrimaryRooms(a), r);
    NewRoomsDistinct(a.services, PrimaryRooms(a));
    assert PrimaryCell(a) in TargetPrimary(a);
    forall s | s in Extras(a)
      ensures ExtraCell(a, s) in TargetPrimary(a) && ExtraCell(a, s).arrangement == s.arrangement
    {
    }
    forall s, u | s in Extras(a) && u in Extras(a) && s.arrangement == u.arrangement
      ensures s == u
    {
      var i :| 0 <= i < |Extras(a)| && Extras(a)[i] == s;
      var j :| 0 <= j < |Extras(a)| && Extras(a)[j] == u;
    }
  }

  /** After a sync the booking holds exactly one non-secondary row per wanted room and none elsewhere. */
  lemma {:induction false} OneRowPerWantedRoom(before: Table, after: Table, a: Args, r: Id)
    requires Synced(before, after, a)
    ensures |RowsInRoom(after, a.booking, r)| == if Wanted(a, r) then 1 else 0
  {
    var ids := Ids(after, a.booking, false);
    TargetCount(a);
    TargetRooms(a, r);
    if Wanted(a, r) {
      var c :| c in TargetPrimary(a) && c.arrangement == Some(r);
      assert c in Cells(after, ids);
      var id :| id in ids && after[id].cell == c;
      forall other | other in RowsInRoom(after, a.booking, r)
        ensures other == id
      {
        assert after[other].cell in Cells(after, ids);
        if other != id {
          CellsDiffer(after, ids, other, id);
        }
      }
      assert RowsInRoom(after, a.booking, r) == {id};
    } else {
      forall id | id in ids
        ensures after[id].cell.arrangement != Some(r)
      {
        assert after[id].cell in Cells(after, ids);
      }
      assert RowsInRoom(after, a.booking, r) == {};
    }
  }

  // Trusting an availability "yes".

  ghost predicate LiveFor(t: Table, id: nat, therapist: Id) {
    id in t && Active(t[id].cell.common.status) && t[id].cell.therapist == Some(therapist)
  }

  /** Active rows of different bookings never overlap on one therapist. */
  ghost predicate TherapistsExclusive(t: Table) {
    forall i, j, w :: LiveFor(t, i, w) && LiveFor(t, j, w) && t[i].cell.booking != t[j].cell.booking ==>
      !Meets(t[i].cell.common, t[j].cell.common.start, t[j].cell.common.end)
  }

  ghost function RunningIn(t: Table, room: Id, at: int): set<nat> {
    set id | id in t && Active(t[id].cell.common.status) && t[id].cell.arrangement == Some(room)
             && t[id].cell.common.start <= at < t[id].cell.common.end
  }

  ghost predicate RoomsWithinCapacity(t: Table, caps: Capacities) {
    forall room, at :: room in caps ==>
      |RunningIn(t, room, at)| <= if Capacity(caps, room) < 0 then 0 else Capacity(caps, room)
  }

  ghost predicate WithinOneDay(date: int, start: int, end: int) {
    date * DAY <= start && end <= (date + 1) * DAY
  }

  ghost predicate SingleDayRows(t: Table) {
    forall id <- t :: Active(t[id].cell.common.status) ==>
      WithinOneDay(t[id].cell.date, t[id].cell.common.start, t[id].cell.common.end)
  }

  /** A booking new to the table, with one service, one therapist, and one row to write. */
  ghost predicate NewSimpleBooking(t: Table, a: Args) {
    && Ids(t, a.booking, false) == {} && Ids(t, a.booking, true) == {}
    && a.services == [] && a.secondary.None? && Active(a.common.status)
  }

  lemma {:induction false} SyncAddsOneRow(before: Table, after: Table, a: Args) returns (id: nat)
    requires Synced(before, after, a) && NewSimpleBooking(before, a)
    ensures id !in before && id in after && after[id].cell == PrimaryCell(a)
    ensures forall k :: k in after <==> k in before || k == id
    ensures forall k <- before :: after[k] == before[k]
  {
    var ids := Ids(after, a.booking, false);
    assert |ids| == 1;
    id :| id in ids;
    assert ids == {id} by {
      assert |ids - {id}| == 0;
    }
    assert after[id].cell in Cells(after, ids);
    assert Ids(after, a.booking, true) == {};
    OnlyTheseRows(before, a.booking);
    OnlyTheseRows(after, a.booking);
  }

  lemma {:induction false} OnlyTheseRows(t: Table, b: Id)
    ensures forall k <- t :: t[k].cell.booking == b <==> k in Ids(t, b, false) || k in Ids(t, b, true)
  {
  }

  /**
   * A "yes" for therapist `w` followed by the sync keeps therapists exclusive exactly when no active row of `w`
   * dated on another day reaches into the slot: the query only looks at one calendar date.
   */
  lemma {:induction false} YesKeepsTherapistsIff(before: Table, after: Table, a: Args, w: Id)
    requires TherapistsExclusive(before)
    requires Synced(before, after, a) && NewSimpleBooking(before, a) && a.therapist == Some(w)
    requires TherapistHits(before, w, DayOf(a.common.start), a.common.start, a.common.end) == {}
    ensures TherapistsExclusive(after) <==>
            !exists id :: && LiveFor(before, id, w) && before[id].cell.date != DayOf(a.common.start)
                          && Meets(before[id].cell.common, a.common.start, a.common.end)
  {
    var id := SyncAddsOneRow(before, after, a);
    assert LiveFor(after, id, w);
    forall k, v | LiveFor(before, k, v)
      ensures LiveFor(after, k, v) && before[k].cell.booking != a.booking
    {
      OnlyTheseRows(before, a.booking);
    }
    if k :| && LiveFor(before, k, w) && before[k].cell.date != DayOf(a.common.start)
            && Meets(before[k].cell.common, a.common.start, a.common.end) {
      assert LiveFor(after, k, w);
    } else {
      forall i, j, v | LiveFor(after, i, v) && LiveFor(after, j, v) && after[i].cell.booking != after[j].cell.booking
        ensures !Meets(after[i].cell.common, after[j].cell.common.start, after[j].cell.common.end)
      {
        var k := if i == id then j else i;
        assert LiveFor(before, k, v);
        if i == id || j == id {
          assert v == w;
          assert k !in TherapistHits(before, w, DayOf(a.common.start), a.common.start, a.common.end);
        } else {
          assert LiveFor(before, j, v);
        }
      }
    }
  }

  /** The counterexample: a late row of the evening before, invisible to the query, and a slot after midnight. */
  lemma {:induction false} MidnightRowIsMissed(before: Table, after: Table, a: Args, w: Id, k: nat)
    requires TherapistsExclusive(before)
    requires Synced(before, after, a) && NewSimpleBooking(before, a) && a.therapist == Some(w)
    requires TherapistHits(before, w, DayOf(a.common.start), a.common.start, a.common.end) == {}
    requires a.common.start == DAY + 15 && a.common.end == DAY + 75
    requires LiveFor(before, k, w) && before[k].cell.date == 0
    requires before[k].cell.common.start == DAY - 60 && before[k].cell.common.end == DAY + 60
    ensures !TherapistsExclusive(after)
  {
    YesKeepsTherapistsIff(before, after, a, w);
  }

  /** The rows of `RunningIn` that the one-date query sees, and those it does not. */
  ghost function RunningOn(t: Table, room: Id, date: int, at: int): set<nat> {
    set id | id in RunningIn(t, room, at) && t[id].cell.date == date
  }

  ghost function RunningOff(t: Table, room: Id, date: int, at: int): set<nat> {
    set id | id in RunningIn(t, room, at) && t[id].cell.date != date
  }

  lemma {:induction false} RunningSplits(t: Table, room: Id, date: int, at: int)
    ensures |RunningIn(t, room, at)| == |RunningOn(t, room, date, at)| + |RunningOff(t, room, date, at)|
  {
    assert RunningIn(t, room, at) == RunningOn(t, room, date, at) + RunningOff(t, room, date, at);
  }

  /** Rows of other dates leave a seat at every instant of the slot. */
  ghost predicate OtherDatesLeaveSeat(t: Table, room: Id, date: int, start: int, end: int, capacity: int) {
    forall at :: start <= at < end ==>
      |RunningOff(t, room, date, at)| < capacity - |RunningOn(t, room, date, at)|
  }

  /** The room half: capacity survives exactly when the rows the query cannot see leave a seat at every instant. */
  lemma {:induction false} YesKeepsRoomsIff(before: Table, after: Table, a: Args, caps: Capacities, room: Id)
    requires RoomsWithinCapacity(before, caps)
    requires Synced(before, after, a) && NewSimpleBooking(before, a) && a.arrangement == Some(room)
    requires room in caps
    requires |RoomHits(before, room, DayOf(a.common.start), a.common.start, a.common.end)| < Capacity(caps, room)
    ensures RoomsWithinCapacity(after, caps) <==>
            OtherDatesLeaveSeat(
              before, room, DayOf(a.common.start), a.common.start, a.common.end, Capacity(caps, room))
  {
    var id := SyncAddsOneRow(before, after, a);
    var date := DayOf(a.common.start);
    forall r, at | r in caps && !(r == room && a.common.start <= at < a.common.end)
      ensures RunningIn(after, r, at) == RunningIn(before, r, at)
    {
      RunningSame(before, after, id, r, at);
    }
    forall at | a.common.start <= at < a.common.end
      ensures |RunningIn(after, room, at)| ==
              |RunningOn(before, room, date, at)| + |RunningOff(before, room, date, at)| + 1
    {
      assert RunningIn(after, room, at) == RunningIn(before, room, at) + {id};
      RunningSplits(before, room, date, at);
    }
    InstantsDecide(before, after, a, caps, room);
  }

  lemma {:induction false} InstantsDecide(before: Table, after: Table, a: Args, caps: Capacities, room: Id)
    requires RoomsWithinCapacity(before, caps) && room in caps && Capacity(caps, room) >= 0
    requires forall r, at :: r in caps && !(r == room && a.common.start <= at < a.common.end) ==>
               RunningIn(after, r, at) == RunningIn(before, r, at)
    requires forall at :: a.common.start <= at < a.common.end ==>
               |RunningIn(after, room, at)| ==
               |RunningOn(before, room, DayOf(a.common.start), at)| +
               |RunningOff(before, room, DayOf(a.common.start), at)| + 1
    ensures RoomsWithinCapacity(after, caps) <==>
            OtherDatesLeaveSeat(
              before, room, DayOf(a.common.start), a.common.start, a.common.end, Capacity(caps, room))
  {
    if RoomsWithinCapacity(after, caps) {
      forall at | a.common.start <= at < a.common.end
        ensures |RunningOff(before, room, DayOf(a.common.start), at)| <
                Capacity(caps, room) - |RunningOn(before, room, DayOf(a.common.start), at)|
      {
        assert |RunningIn(after, room, at)| <= Capacity(caps, room);
      }
    } else {
      var r, at :| r in caps &&
                   |RunningIn(after, r, at)| > if Capacity(caps, r) < 0 then 0 else Capacity(caps, r);
      assert |RunningIn(before, r, at)| <= if Capacity(caps, r) < 0 then 0 else Capacity(caps, r);
      assert r == room && a.common.start <= at < a.common.end;
    }
  }

  /** A one-seat room is overbooked across midnight: its row of the evening before is invisible to the query. */
  lemma {:induction false} MidnightRoomIsOverbooked(
    before: Table, after: Table, a: Args, caps: Capacities, room: Id, k: nat)
    requires RoomsWithinCapacity(before, caps)
    requires Synced(before, after, a) && NewSimpleBooking(before, a) && a.arrangement == Some(room)
    requires room in caps && Capacity(caps, room) == 1
    requires |RoomHits(before, room, DayOf(a.common.start), a.common.start, a.common.end)| < 1
    requires a.common.start == DAY + 15 && a.common.end == DAY + 75
    requires k in before && Active(before[k].cell.common.status) && before[k].cell.arrangement == Some(room)
    requires before[k].cell.date == 0
    requires before[k].cell.common.start == DAY - 60 && before[k].cell.common.end == DAY + 60
    ensures !RoomsWithinCapacity(after, caps)
  {
    YesKeepsRoomsIff(before, after, a, caps, room);
    assert k in RunningOff(before, room, DayOf(a.common.start), a.common.start);
  }

  /** Inside one local date a "yes" followed by the sync keeps both table invariants. */
  lemma {:induction false} YesThenSyncIsSafe(before: Table, after: Table, a: Args, caps: Capacities, room: Id, w: Id)
    requires TherapistsExclusive(before) && RoomsWithinCapacity(before, caps) && SingleDayRows(before)
    requires Synced(before, after, a) && NewSimpleBooking(before, a)
    requires a.arrangement == Some(room) && a.therapist == Some(w)
    requires WithinOneDay(DayOf(a.common.start), a.common.start, a.common.end)
    requires room in caps
    requires |RoomHits(before, room, DayOf(a.common.start), a.common.start, a.common.end)| < Capacity(caps, room)
    requires TherapistHits(before, w, DayOf(a.common.start), a.common.start, a.common.end) == {}
    ensures TherapistsExclusive(after) && RoomsWithinCapacity(after, caps) && SingleDayRows(after)
  {
    var id := SyncAddsOneRow(before, after, a);
    YesKeepsTherapistsIff(before, after, a, w);
    forall k | k in before && Active(before[k].cell.common.status)
               && Meets(before[k].cell.common, a.common.start, a.common.end)
      ensures before[k].cell.date == DayOf(a.common.start)
    {
      SameDay(before[k].cell.date, before[k].cell.common, DayOf(a.common.start), a.common);
    }
    RoomsStayWithin(before, after, a, caps, room, id);
  }

  lemma {:induction false} RoomsStayWithin(
    before: Table, after: Table, a: Args, caps: Capacities, room: Id, id: nat)
    requires RoomsWithinCapacity(before, caps) && a.arrangement == Some(room) && room in caps
    requires OneRowMore(before, after, id) && after[id].cell == PrimaryCell(a) && Active(a.common.status)
    requires forall k | k in before && Active(before[k].cell.common.status)
                        && Meets(before[k].cell.common, a.common.start, a.common.end) ::
               before[k].cell.date == DayOf(a.common.start)
    requires |RoomHits(before, room, DayOf(a.common.start), a.common.start, a.common.end)| < Capacity(caps, room)
    ensures RoomsWithinCapacity(after, caps)
  {
    var date, start, end := DayOf(a.common.start), a.common.start, a.common.end;
    forall r, at | r in caps
      ensures |RunningIn(after, r, at)| <= if Capacity(caps, r) < 0 then 0 else Capacity(caps, r)
    {
      assert |RunningIn(before, r, at)| <= if Capacity(caps, r) < 0 then 0 else Capacity(caps, r);
      if r == room && start <= at < end {
        RunningGains(before, after, id, room, at);
        HitsCoverInstant(before, room, date, start, end, at);
        SubsetSize(RunningIn(before, r, at), RoomHits(before, room, date, start, end));
      } else {
        RunningSame(before, after, id, r, at);
      }
    }
  }

  ghost predicate OneRowMore(before: Table, after: Table, id: nat) {
    && id !in before && id in after
    && (forall k :: k in after <==> k in before || k == id)
    && (forall k <- before :: after[k] == before[k])
  }

  lemma {:induction false} RunningGains(before: Table, after: Table, id: nat, room: Id, at: int)
    requires OneRowMore(before, after, id)
    ensures |RunningIn(after, room, at)| <= |RunningIn(before, room, at)| + 1
  {
    assert RunningIn(after, room, at) <= RunningIn(before, room, at) + {id};
    SubsetSize(RunningIn(after, room, at), RunningIn(before, room, at) + {id});
  }

  lemma {:induction false} RunningSame(before: Table, after: Table, id: nat, room: Id, at: int)
    requires OneRowMore(before, after, id)
    requires after[id].cell.arrangement != Some(room)
             || !(after[id].cell.common.start <= at < after[id].cell.common.end)
    ensures RunningIn(after, room, at) == RunningIn(before, room, at)
  {
  }

  /** Every row running in the room at an instant of the slot is one the query counts. */
  lemma {:induction false} HitsCoverInstant(t: Table, room: Id, date: int, start: int, end: int, at: int)
    requires start <= at < end
    requires forall k | k in t && Active(t[k].cell.common.status) && Meets(t[k].cell.common, start, end) ::
               t[k].cell.date == date
    ensures RunningIn(t, room, at) <= RoomHits(t, room, date, start, end)
  {
    forall k | k in RunningIn(t, room, at)
      ensures k in RoomHits(t, room, date, start, end)
    {
      assert Meets(t[k].cell.common, start, end);
    }
  }

  lemma {:induction false} SameDay(d: int, c: Common, e: int, f: Common)
    requires WithinOneDay(d, c.start, c.end) && WithinOneDay(e, f.start, f.end) && Meets(c, f.start, f.end)
    ensures d == e
  {
  }
}
