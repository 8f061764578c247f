/** What the cache rows say after a sync, column by column, and which rows stand in the way of a slot. */
module CacheColumns {
  import opened Seqs
  import opened CacheTable
  import opened CacheResults

  // The columns of the non-secondary rows.

  /** The columns every non-secondary row takes from the call. */
  ghost predicate SharedColumns(c: Cell, a: Args) {
    && c.booking == a.booking && !c.secondary && c.bookingType == "branch"
    && c.therapist == a.therapist && c.therapistName == a.therapistName
    && c.date * 1440 <= a.common.start < (c.date + 1) * 1440
    && c.common == a.common
  }

  /** `k` is the first service entry that names the room. */
  predicate FirstNaming(services: seq<Service>, r: Id, k: nat) {
    && k < |services| && services[k].arrangement == Some(r)
    && forall j :: 0 <= j < k ==> services[j].arrangement != Some(r)
  }

  lemma {:induction false} NewRoomsTakeFirst(services: seq<Service>, seen: set<Id>, s: Service)
    requires s in NewRooms(services, seen)
    ensures s.arrangement.Some? && exists k: nat :: FirstNaming(services, s.arrangement.value, k) && services[k] == s
  {
    NewRoomsDistinct(services, seen);
    var r, rest := s.arrangement.value, services[1..];
    var first := services[0];
    if first.arrangement.Some? && first.arrangement.value !in seen && s == first {
      assert FirstNaming(services, r, 0);
    } else {
      var later := if first.arrangement.None? || first.arrangement.value in seen then seen
                   else seen + {first.arrangement.value};
      assert s in NewRooms(rest, later);
      NewRoomsTakeFirst(rest, later, s);
      NewRoomsDistinct(rest, later);
      var k: nat :| FirstNaming(rest, r, k) && rest[k] == s;
      assert first.arrangement != Some(r);
      assert FirstNaming(services, r, k + 1);
    }
  }

  lemma {:induction false} DayHoldsStart(at: int)
    ensures DayOf(at) * 1440 <= at < (DayOf(at) + 1) * 1440
  {
  }

  /** The row in the booking's own room, or without a room, carries the call's values. */
  lemma {:induction false} OwnRoomColumns(before: Table, after: Table, a: Args, id: nat)
    requires Synced(before, after, a)
    requires id in Ids(after, a.booking, false) && after[id].cell.arrangement == a.arrangement
    ensures var c := after[id].cell;
            && SharedColumns(c, a)
            && c.arrangementName == a.arrangementName && c.service == a.service && c.serviceName == a.serviceName
  {
    var c := after[id].cell;
    assert c in Cells(after, Ids(after, a.booking, false));
    DayHoldsStart(a.common.start);
    NewRoomsDistinct(a.services, PrimaryRooms(a));
    assert forall s <- Extras(a) :: s.arrangement != a.arrangement;
  }

  /** The row in any other room carries the first service entry that names the room. */
  lemma {:induction false} OtherRoomColumns(before: Table, after: Table, a: Args, id: nat, r: Id)
    requires Synced(before, after, a)
    requires id in Ids(after, a.booking, false) && after[id].cell.arrangement == Some(r) != a.arrangement
    ensures var c := after[id].cell;
            && SharedColumns(c, a)
            && exists k: nat :: FirstNaming(a.services, r, k) && NamesService(c, a, a.services[k])
  {
    var c := after[id].cell;
    assert c in Cells(after, Ids(after, a.booking, false));
    DayHoldsStart(a.common.start);
    var s :| s in Extras(a) && c == ExtraCell(a, s);
    NewRoomsTakeFirst(a.services, PrimaryRooms(a), s);
    var k: nat :| FirstNaming(a.services, r, k) && a.services[k] == s;
    assert NamesService(c, a, a.services[k]);
  }

  /** The entry's own service and names; the call's service where the entry has none. */
  ghost predicate NamesService(c: Cell, a: Args, s: Service) {
    && c.arrangementName == s.arrangementName
    && (s.service.Some? ==> c.service == s.service)
    && (s.service.None? ==> c.service == a.service)
    && (s.name != "" ==> c.serviceName == s.name)
    && (s.name == "" ==> c.serviceName == a.serviceName)
  }

  /** A massage in one room and a facial in another: each room's row names its own service. */
  lemma {:induction false} EachRoomItsService(before: Table, after: Table, a: Args, massage: Service, facial: Service)
    requires Synced(before, after, a) && a.services == [massage, facial]
    requires a.arrangement == massage.arrangement && a.service == massage.service
    requires massage.arrangement.Some? && facial.arrangement.Some? && massage.arrangement != facial.arrangement
    requires facial.service.Some? && facial.service != massage.service
    ensures exists id <- Ids(after, a.booking, false) ::
              after[id].cell.arrangement == facial.arrangement && after[id].cell.service == facial.service
  {
    var r := facial.arrangement.value;
    assert facial in a.services && Wanted(a, r);
    OneRowPerWantedRoom(before, after, a, r);
    var id :| id in RowsInRoom(after, a.booking, r);
    OtherRoomColumns(before, after, a, id, r);
    var k: nat :| FirstNaming(a.services, r, k) && NamesService(after[id].cell, a, a.services[k]);
    assert k == 1;
  }

  // The secondary row and the forced row.

  /** The second therapist's row: a new one names no room, an existing one keeps its room and type. */
  lemma {:induction false} SecondaryColumns(before: Table, after: Table, a: Args, id: nat)
    requires SecondaryDone(before, after, a) && id in Ids(after, a.booking, true)
    ensures a.secondary.Some? && Ids(after, a.booking, true) == {id}
    ensures var c := after[id].cell;
            && c.booking == a.booking && c.secondary
            && c.therapist == a.secondary && c.therapistName == a.secondaryName
            && c.service == a.service && c.serviceName == a.serviceName
            && c.date * 1440 <= a.common.start < (c.date + 1) * 1440 && c.common == a.common
            && if Ids(before, a.booking, true) == {} then
                 c.arrangement == None && c.arrangementName == "" && c.bookingType == "branch"
               else
                 && id in Ids(before, a.booking, true)
                 && c.arrangement == before[id].cell.arrangement
                 && c.arrangementName == before[id].cell.arrangementName
                 && c.bookingType == before[id].cell.bookingType
  {
    DayHoldsStart(a.common.start);
  }

  /** The row a forced sync adds carries the call's values, and the rows there before stay. */
  lemma {:induction false} ForcedColumns(before: Table, after: Table, a: Args)
    requires ForceSynced(before, after, a)
    ensures exists id :: && id !in before && id in Ids(after, a.booking, false)
                         && SharedColumns(after[id].cell, a) && after[id].cell.arrangement == a.arrangement
                         && after[id].cell.arrangementName == a.arrangementName
                         && after[id].cell.service == a.service && after[id].cell.serviceName == a.serviceName
    ensures forall id <- Ids(before, a.booking, false) :: id in after && after[id] == before[id]
  {
    DayHoldsStart(a.common.start);
  }

  // What stands in the way of a slot.

  predicate During(start: int, end: int, at: int) {
    start <= at < end
  }

  /** Two time spans of positive length meet exactly when they share an instant. */
  lemma {:induction false} MeetsIffSharedInstant(c: Common, start: int, end: int)
    requires c.start < c.end && start < end
    ensures Meets(c, start, end) <==> exists at :: During(c.start, c.end, at) && During(start, end, at)
  {
    if Meets(c, start, end) {
      var at := if c.start < start then start else c.start;
      assert During(c.start, c.end, at) && During(start, end, at);
    }
  }

  /** Held, requested and agreed bookings block; finished and called-off ones do not. */
  lemma {:induction false} BlockingStatuses()
    ensures Active("requested") && Active("confirmed") && Active("rescheduled") && Active("payment_pending")
    ensures Active("hold")
    ensures !Active("completed") && !Active("cancelled") && !Active("no_show") && !Active("draft") && !Active("")
  {
  }

  ghost predicate Blocks(t: Table, id: nat, start: int, end: int) {
    && id in t && Active(t[id].cell.common.status)
    && exists at :: During(t[id].cell.common.start, t[id].cell.common.end, at) && During(start, end, at)
  }

  /** Over rows of positive length, the room query counts the room's active rows of that date sharing an instant. */
  lemma {:induction false} RoomHitsIff(t: Table, room: Id, date: int, start: int, end: int, id: nat)
    requires start < end && forall k <- t :: t[k].cell.common.start < t[k].cell.common.end
    ensures id in RoomHits(t, room, date, start, end) <==>
            Blocks(t, id, start, end) && t[id].cell.arrangement == Some(room) && t[id].cell.date == date
  {
    if id in t {
      MeetsIffSharedInstant(t[id].cell.common, start, end);
    }
  }

  lemma {:induction false} TherapistHitsIff(t: Table, therapist: Id, date: int, start: int, end: int, id: nat)
    requires start < end && forall k <- t :: t[k].cell.common.start < t[k].cell.common.end
    ensures id in TherapistHits(t, therapist, date, start, end) <==>
            Blocks(t, id, start, end) && t[id].cell.therapist == Some(therapist) && t[id].cell.date == date
  {
    if id in t {
      MeetsIffSharedInstant(t[id].cell.common, start, end);
    }
  }

  /** A room and a therapist with nothing at any instant of the slot are offered; an empty capacity is one seat. */
  method OfferIfNothingBlocks(
    cache: AppointmentCache, caps: Capacities, room: Id, start: int, duration: int, therapist: Id)
    returns (r: Availability)
    requires room in caps && caps[room] >= 0 && duration > 0
    requires forall k <- cache.rows :: cache.rows[k].cell.common.start < cache.rows[k].cell.common.end
    requires forall id :: Blocks(cache.rows, id, start, start + duration) ==>
               cache.rows[id].cell.arrangement != Some(room) && cache.rows[id].cell.therapist != Some(therapist)
    ensures r == Available(therapist)
  {
    forall id | id in cache.rows
      ensures id !in RoomHits(cache.rows, room, DayOf(start), start, start + duration)
      ensures id !in TherapistHits(cache.rows, therapist, DayOf(start), start, start + duration)
    {
      RoomHitsIff(cache.rows, room, DayOf(start), start, start + duration, id);
      TherapistHitsIff(cache.rows, therapist, DayOf(start), start, start + duration, id);
    }
    assert RoomHits(cache.rows, room, DayOf(start), start, start + duration) == {};
    r := cache.CheckAvailability(caps, room, start, duration, [therapist]);
    assert therapist in [therapist];
  }
}
