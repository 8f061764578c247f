/** ushauth's appointment cache: availability questions and the reconciler that writes a booking's rows. */
module CacheTable {
  import opened Seqs

  type Id = string

  // Rows. Times are minutes on the branch clock; `created`/`updated` are timestamps.

  /** The columns every row of a sync takes straight from the call. */
  datatype Common = Common(
    branch: Option<Id>, branchName: string, customer: Option<Id>, customerName: string,
    paymentStatus: string, start: int, end: int, duration: int, status: string)

  datatype Cell = Cell(
    booking: Id, secondary: bool,
    arrangement: Option<Id>, arrangementName: string, bookingType: string,
    therapist: Option<Id>, therapistName: string,
    service: Option<Id>, serviceName: string,
    date: int, common: Common)

  datatype Row = Row(cell: Cell, created: int, updated: int)

  /** Row ids are fresh UUIDs; here they are numbers the table has not used. */
  type Table = map<nat, Row>

  ghost function Ids(t: Table, b: Id, secondary: bool): set<nat> {
    set id | id in t && t[id].cell.booking == b && t[id].cell.secondary == secondary
  }

  ghost function Cells(t: Table, ids: set<nat>): set<Cell>
    requires ids <= t.Keys
  {
    set id | id in ids :: t[id].cell
  }

  /** Everything of a booking but row ids and timestamps. */
  datatype View = View(primary: set<Cell>, primaryRows: nat, secondary: set<Cell>, secondaryRows: nat)

  ghost function ViewOf(t: Table, b: Id): View {
    View(Cells(t, Ids(t, b, false)), |Ids(t, b, false)|, Cells(t, Ids(t, b, true)), |Ids(t, b, true)|)
  }

  ghost predicate SameElsewhere(before: Table, after: Table, b: Id) {
    forall id :: (id in before && before[id].cell.booking != b) || (id in after && after[id].cell.booking != b) ==>
      id in before && id in after && before[id] == after[id]
  }

  const DAY := 1440

  function DayOf(at: int): int {
    at / DAY
  }

  // The availability question.

  predicate Active(status: string) {
    status in {"requested", "confirmed", "rescheduled", "payment_pending", "hold"}
  }

  predicate Meets(c: Common, start: int, end: int) {
    c.start < end && c.end > start
  }

  /** Rows the room query counts: this room, this calendar date, active, overlapping. */
  function RoomHits(t: Table, room: Id, date: int, start: int, end: int): set<nat> {
    set id | id in t && t[id].cell.arrangement == Some(room) && t[id].cell.date == date
             && Active(t[id].cell.common.status) && Meets(t[id].cell.common, start, end)
  }

  function TherapistHits(t: Table, therapist: Id, date: int, start: int, end: int): set<nat> {
    set id | id in t && t[id].cell.therapist == Some(therapist) && t[id].cell.date == date
             && Active(t[id].cell.common.status) && Meets(t[id].cell.common, start, end)
  }

  /** Room capacities as stored, 0 when the column is empty. */
  type Capacities = map<Id, int>

  function Capacity(caps: Capacities, room: Id): int
    requires room in caps
  {
    if caps[room] == 0 then 1 else caps[room]
  }

  datatype Availability = ArrangementNotFound | AtCapacity | NoTherapist | Available(therapist: Id)

  /** `k` is the first listed therapist with nothing in the way. */
  ghost predicate FirstFree(t: Table, therapists: seq<Id>, date: int, start: int, end: int, k: nat) {
    && k < |therapists|
    && TherapistHits(t, therapists[k], date, start, end) == {}
    && forall j :: 0 <= j < k ==> TherapistHits(t, therapists[j], date, start, end) != {}
  }

  // The call.

  datatype Service = Service(service: Option<Id>, name: string, arrangement: Option<Id>, arrangementName: string)

  datatype Args = Args(
    booking: Id,
    arrangement: Option<Id>, arrangementName: string,
    therapist: Option<Id>, therapistName: string,
    service: Option<Id>, serviceName: string,
    services: seq<Service>,
    secondary: Option<Id>, secondaryName: string,
    common: Common)

  function PrimaryCell(a: Args): Cell {
    Cell(a.booking, false, a.arrangement, a.arrangementName, "branch", a.therapist, a.therapistName,
         a.service, a.serviceName, DayOf(a.common.start), a.common)
  }

  function ExtraCell(a: Args, s: Service): Cell {
    Cell(a.booking, false, s.arrangement, s.arrangementName, "branch", a.therapist, a.therapistName,
         if s.service.Some? then s.service else a.service, if s.name != "" then s.name else a.serviceName,
         DayOf(a.common.start), a.common)
  }

  /** A secondary row; an update leaves the room columns and the booking type as they were. */
  function SecondaryCell(a: Args, arrangement: Option<Id>, arrangementName: string, bookingType: string): Cell {
    Cell(a.booking, true, arrangement, arrangementName, bookingType, a.secondary, a.secondaryName,
         a.service, a.serviceName, DayOf(a.common.start), a.common)
  }

  function FreshSecondary(a: Args): Cell {
    SecondaryCell(a, None, "", "branch")
  }

  /** The services whose room is mentioned for the first time, given the rooms already seen. */
  function NewRooms(services: seq<Service>, seen: set<Id>): seq<Service> {
    if services == [] then []
    else if services[0].arrangement.None? || services[0].arrangement.value in seen then NewRooms(services[1..], seen)
    else [services[0]] + NewRooms(services[1..], seen + {services[0].arrangement.value})
  }

  function PrimaryRooms(a: Args): set<Id> {
    if a.arrangement.Some? then {a.arrangement.value} else {}
  }

  function Extras(a: Args): seq<Service> {
    NewRooms(a.services, PrimaryRooms(a))
  }

  ghost function TargetPrimary(a: Args): set<Cell> {
    {PrimaryCell(a)} + set s | s in Extras(a) :: ExtraCell(a, s)
  }

  ghost function Target(a: Args): View {
    View(
      TargetPrimary(a), 1 + |Extras(a)|,
      if a.secondary.Some? then {FreshSecondary(a)} else {}, if a.secondary.Some? then 1 else 0)
  }

  lemma {:induction false} NewRoomsDistinct(services: seq<Service>, seen: set<Id>)
    ensures var rs := NewRooms(services, seen);
            && (forall s <- rs :: s.arrangement.Some? && s.arrangement.value !in seen)
            && (forall i, j :: 0 <= i < j < |rs| ==> rs[i].arrangement != rs[j].arrangement)
  {
    if services != [] {
      var s := services[0];
      if s.arrangement.None? || s.arrangement.value in seen {
        NewRoomsDistinct(services[1..], seen);
      } else {
        var rest := NewRooms(services[1..], seen + {s.arrangement.value});
        NewRoomsDistinct(services[1..], seen + {s.arrangement.value});
        assert forall k :: 0 <= k < |rest| ==> rest[k] in rest && rest[k].arrangement != s.arrangement;
      }
    }
  }

  /** Each wanted room is among the extras, and nothing else is. */
  lemma {:induction false} NewRoomsCover(services: seq<Service>, seen: set<Id>, r: Id)
    ensures (exists s <- NewRooms(services, seen) :: s.arrangement == Some(r)) <==>
            r !in seen && exists s <- services :: s.arrangement == Some(r)
  {
    if services != [] {
      var s, rest := services[0], services[1..];
      assert services == [s] + rest;
      if s.arrangement.None? || s.arrangement.value in seen {
        NewRoomsCover(rest, seen, r);
      } else {
        NewRoomsCover(rest, seen + {s.arrangement.value}, r);
      }
    }
  }

  class AppointmentCache {
    var rows: Table

    // The SQL statements.

    /** SELECT id ... WHERE bookings_id = b AND is_secondary_therapist = secondary, in no promised order. */
    method Select(b: Id, secondary: bool) returns (ids: seq<nat>)
      ensures Distinct(ids) && forall id :: id in ids <==> id in Ids(rows, b, secondary)
    {
      ids := [];
      var todo := set id | id in rows && rows[id].cell.booking == b && rows[id].cell.secondary == secondary;
      while todo != {}
        invariant Distinct(ids)
        invariant forall id :: id in Ids(rows, b, secondary) <==> id in ids || id in todo
        invariant forall id <- ids :: id !in todo
        decreases |todo|
      {
        var id :| id in todo;
        ids, todo := ids + [id], todo - {id};
      }
    }

    method Insert(cell: Cell, now: int) returns (ghost id: nat)
      modifies this
      ensures id !in old(rows) && rows == old(rows)[id := Row(cell, now, now)]
    {
      var uuid := Unused(rows.Keys);
      id := uuid;
      rows := rows[uuid := Row(cell, now, now)];
    }

    method Update(id: nat, cell: Cell, now: int)
      requires id in rows
      modifies this
      ensures rows == old(rows)[id := Row(cell, old(rows)[id].created, now)]
    {
      rows := rows[id := Row(cell, rows[id].created, now)];
    }

    /** DELETE ... WHERE id = rid, once per id. */
    method DeleteEach(ids: seq<nat>)
      modifies this
      ensures rows == old(rows) - set id | id in ids
    {
      for i := 0 to |ids|
        invariant rows == old(rows) - set id | id in ids[..i]
      {
        rows := rows - {ids[i]};
        assert ids[..i + 1] == ids[..i] + [ids[i]];
      }
      assert ids[..|ids|] == ids;
    }

    method CheckAvailability(caps: Capacities, room: Id, start: int, duration: int, therapists: seq<Id>)
      returns (r: Availability)
      ensures r.ArrangementNotFound? <==> room !in caps
      ensures r.AtCapacity? <==>
              && room in caps
              && |RoomHits(rows, room, DayOf(start), start, start + duration)| >=
                 if caps[room] == 0 then 1 else caps[room]
      ensures r.Available? ==>
                && room in caps
                && |RoomHits(rows, room, DayOf(start), start, start + duration)| < Capacity(caps, room)
                && exists k: nat :: && FirstFree(rows, therapists, DayOf(start), start, start + duration, k)
                               && r.therapist == therapists[k]
      ensures r.NoTherapist? ==>
                forall t <- therapists :: TherapistHits(rows, t, DayOf(start), start, start + duration) != {}
    {
      var day, end := DayOf(start), start + duration;
      if room !in caps {
        return ArrangementNotFound;
      }
      if |RoomHits(rows, room, day, start, end)| >= Capacity(caps, room) {
        return AtCapacity;
      }
      for k := 0 to |therapists|
        invariant forall j :: 0 <= j < k ==> TherapistHits(rows, therapists[j], day, start, end) != {}
      {
        if |TherapistHits(rows, therapists[k], day, start, end)| == 0 {
          assert FirstFree(rows, therapists, day, start, end, k);
          return Available(therapists[k]);
        }
      }
      return NoTherapist;
    }

    // The three stages of `sync_appointment_cache`.

    method UpsertPrimary(a: Args, now: int) returns (ghost kept: nat)
      modifies this
      ensures OnlyTouches(old(rows), rows, a.booking, false)
      ensures Ids(rows, a.booking, false) == {kept} && rows[kept].cell == PrimaryCell(a)
      ensures rows[kept].updated == now
      ensures rows[kept].created == if kept in old(rows) then old(rows)[kept].created else now
      ensures kept in old(rows) <==> old(Ids(rows, a.booking, false)) != {}
    {
      var primary := Select(a.booking, false);
      ghost var was := rows;
      if primary == [] {
        assert Ids(was, a.booking, false) == {};
        kept := Insert(PrimaryCell(a), now);
        InsertAddsCell(was, rows, kept, a.booking, false);
        assert Ids(rows, a.booking, false) == {kept};
      } else {
        kept := primary[0];
        assert kept in primary && kept !in primary[1..];
        DeleteEach(primary[1..]);
        Update(primary[0], PrimaryCell(a), now);
        OnlyOneLeft(was, rows, primary, a.booking, false);
      }
    }

    method ReconcileExtras(a: Args, now: int, ghost kept: nat)
      requires Ids(rows, a.booking, false) == {kept} && rows[kept].cell == PrimaryCell(a)
      modifies this
      ensures OnlyTouches(old(rows), rows, a.booking, false)
      ensures Cells(rows, Ids(rows, a.booking, false)) == TargetPrimary(a)
      ensures |Ids(rows, a.booking, false)| == 1 + |Extras(a)|
    {
      var extras := Extras(a);
      if a.services != [] {
        var primary := Select(a.booking, false);
        var t, room := rows, a.arrangement;
        var stale := Filter(primary, id => id in t && t[id].cell.arrangement.Some? && t[id].cell.arrangement != room);
        DeleteEach(stale);
        assert rows == t;
        InsertExtras(a, extras, now);
      }
    }

    method InsertExtras(a: Args, extras: seq<Service>, now: int)
      modifies this
      ensures OnlyTouches(old(rows), rows, a.booking, false)
      ensures |Ids(rows, a.booking, false)| == |old(Ids(rows, a.booking, false))| + |extras|
      ensures Cells(rows, Ids(rows, a.booking, false)) ==
              old(Cells(rows, Ids(rows, a.booking, false))) + set s | s in extras :: ExtraCell(a, s)
    {
      for i := 0 to |extras|
        invariant ExtrasWritten(old(rows), rows, a, extras, i)
      {
        ghost var was := rows;
        ghost var id := Insert(ExtraCell(a, extras[i]), now);
        OneMoreWritten(old(rows), was, rows, id, a, extras, i);
      }
      assert extras[..|extras|] == extras;
    }

    method ReconcileSecondary(a: Args, now: int)
      modifies this
      ensures OnlyTouches(old(rows), rows, a.booking, true)
      ensures SecondaryDone(old(rows), rows, a)
      ensures forall id <- Ids(rows, a.booking, true) ::
                && rows[id].updated == now
                && rows[id].created == if id in old(rows) then old(rows)[id].created else now
    {
      var secondary := Select(a.booking, true);
      if a.secondary.Some? {
        if secondary == [] {
          assert Ids(rows, a.booking, true) == {};
          ghost var id := Insert(FreshSecondary(a), now);
          assert Ids(rows, a.booking, true) == {id};
        } else {
          var k := secondary[0];
          assert k in secondary && k !in secondary[1..];
          var was := rows[k].cell;
          ghost var before := rows;
          Update(k, SecondaryCell(a, was.arrangement, was.arrangementName, was.bookingType), now);
          DeleteEach(secondary[1..]);
          OnlyOneLeft(before, rows, secondary, a.booking, true);
        }
      } else {
        DeleteEach(secondary);
        assert Ids(rows, a.booking, true) == {};
      }
    }

    method SyncAppointmentCache(a: Args, forceNewPrimary: bool, now: int)
      modifies this
      ensures !forceNewPrimary ==> Synced(old(rows), rows, a)
      ensures forceNewPrimary ==> ForceSynced(old(rows), rows, a)
    {
      ghost var before := rows;
      if forceNewPrimary {
        ghost var id := Insert(PrimaryCell(a), now);
        InsertAddsCell(before, rows, id, a.booking, false);
        assert OnePrimaryMore(before, rows, a);
      } else {
        ghost var kept := UpsertPrimary(a, now);
        ghost var upserted := rows;
        ReconcileExtras(a, now, kept);
        TouchesCompose(before, upserted, rows, a.booking, false);
      }
      ghost var mid := rows;
      ReconcileSecondary(a, now);
      SecondarySince(before, mid, rows, a);
      if forceNewPrimary {
        ForceSyncedAfter(before, mid, rows, a);
      } else {
        SyncedAfter(before, mid, rows, a);
      }
    }
  }

  /** Only rows on one side (primary or secondary) of one booking differ. */
  ghost predicate OnlyTouches(before: Table, after: Table, b: Id, secondary: bool) {
    forall id ::
      (id in before && id !in Ids(before, b, secondary)) || (id in after && id !in Ids(after, b, secondary)) ==>
      id in before && id in after && before[id] == after[id]
  }

  /** One secondary row iff a second therapist was given; an existing row keeps its room columns and booking type. */
  ghost predicate SecondaryDone(before: Table, after: Table, a: Args) {
    var was, now := Ids(before, a.booking, true), Ids(after, a.booking, true);
    if a.secondary.None? then now == {}
    else if was == {} then exists id :: now == {id} && after[id].cell == FreshSecondary(a)
    else exists id ::
      && id in was && now == {id}
      && after[id].cell ==
         SecondaryCell(a, before[id].cell.arrangement, before[id].cell.arrangementName, before[id].cell.bookingType)
  }

  ghost predicate Synced(before: Table, after: Table, a: Args) {
    && SameElsewhere(before, after, a.booking)
    && Cells(after, Ids(after, a.booking, false)) == TargetPrimary(a)
    && |Ids(after, a.booking, false)| == 1 + |Extras(a)|
    && SecondaryDone(before, after, a)
  }

  ghost predicate OnePrimaryMore(before: Table, after: Table, a: Args) {
    && (exists id :: && id !in before && Ids(after, a.booking, false) == Ids(before, a.booking, false) + {id}
                     && after[id].cell == PrimaryCell(a))
    && (forall id <- Ids(before, a.booking, false) :: id in after && after[id] == before[id])
  }

  /** The forced variant adds one more primary row whatever is there. */
  ghost predicate ForceSynced(before: Table, after: Table, a: Args) {
    SameElsewhere(before, after, a.booking) && OnePrimaryMore(before, after, a) && SecondaryDone(before, after, a)
  }

  /** Deleting all but the first of a side's rows and rewriting that one leaves just it. */
  lemma {:induction false} OnlyOneLeft(t: Table, t': Table, ids: seq<nat>, b: Id, secondary: bool)
    requires ids != [] && Distinct(ids) && forall id :: id in ids <==> id in Ids(t, b, secondary)
    requires t'.Keys == t.Keys - set id | id in ids[1..]
    requires forall id <- t' :: id != ids[0] ==> t'[id] == t[id]
    requires ids[0] in t' && t'[ids[0]].cell.booking == b && t'[ids[0]].cell.secondary == secondary
    ensures Ids(t', b, secondary) == {ids[0]}
    ensures OnlyTouches(t, t', b, secondary)
  {
    assert ids == [ids[0]] + ids[1..];
    assert forall id :: id in ids <==> id == ids[0] || id in ids[1..];
    assert forall id <- t'.Keys :: id !in ids[1..];
  }

  /** The primary stage leaves the secondary rows for the last stage as they were. */
  lemma {:induction false} SecondarySince(before: Table, mid: Table, after: Table, a: Args)
    requires OnlyTouches(before, mid, a.booking, false) && SecondaryDone(mid, after, a)
    ensures SecondaryDone(before, after, a)
  {
    OtherSideKept(before, mid, a.booking, false);
  }

  lemma {:induction false} SyncedAfter(before: Table, mid: Table, after: Table, a: Args)
    requires OnlyTouches(before, mid, a.booking, false) && OnlyTouches(mid, after, a.booking, true)
    requires Cells(mid, Ids(mid, a.booking, false)) == TargetPrimary(a)
    requires |Ids(mid, a.booking, false)| == 1 + |Extras(a)|
    requires SecondaryDone(before, after, a)
    ensures Synced(before, after, a)
  {
    SidesAreIndependent(before, mid, after, a.booking);
    SameCells(mid, after, Ids(mid, a.booking, false));
  }

  lemma {:induction false} SameCells(t: Table, t': Table, ids: set<nat>)
    requires ids <= t.Keys && ids <= t'.Keys && forall id <- ids :: t'[id] == t[id]
    ensures Cells(t', ids) == Cells(t, ids)
  {
  }

  lemma {:induction false} ForceSyncedAfter(before: Table, mid: Table, after: Table, a: Args)
    requires OnlyTouches(before, mid, a.booking, false) && OnlyTouches(mid, after, a.booking, true)
    requires OnePrimaryMore(before, mid, a) && SecondaryDone(before, after, a)
    ensures ForceSynced(before, after, a)
  {
    SidesAreIndependent(before, mid, after, a.booking);
    var id :| id !in before && Ids(mid, a.booking, false) == Ids(before, a.booking, false) + {id}
              && mid[id].cell == PrimaryCell(a);
    assert after[id].cell == PrimaryCell(a);
  }

  lemma {:induction false} TouchesCompose(t0: Table, t1: Table, t2: Table, b: Id, secondary: bool)
    requires OnlyTouches(t0, t1, b, secondary) && OnlyTouches(t1, t2, b, secondary)
    ensures OnlyTouches(t0, t2, b, secondary)
  {
  }

  lemma {:induction false} MoreExtras(a: Args, extras: seq<Service>, i: nat)
    requires i < |extras|
    ensures (set s | s in extras[..i + 1] :: ExtraCell(a, s)) ==
            (set s | s in extras[..i] :: ExtraCell(a, s)) + {ExtraCell(a, extras[i])}
  {
    assert extras[..i + 1] == extras[..i] + [extras[i]];
  }

  /** The first `i` extras have been inserted since `before`. */
  ghost predicate ExtrasWritten(before: Table, now: Table, a: Args, extras: seq<Service>, i: nat)
    requires i <= |extras|
  {
    && OnlyTouches(before, now, a.booking, false)
    && |Ids(now, a.booking, false)| == |Ids(before, a.booking, false)| + i
    && Cells(now, Ids(now, a.booking, false)) ==
       Cells(before, Ids(before, a.booking, false)) + set s | s in extras[..i] :: ExtraCell(a, s)
  }

  lemma {:induction false} OneMoreWritten(
    before: Table, t: Table, t': Table, id: nat, a: Args, extras: seq<Service>, i: nat)
    requires i < |extras| && ExtrasWritten(before, t, a, extras, i)
    requires id !in t && id in t' && t' == t[id := t'[id]] && t'[id].cell == ExtraCell(a, extras[i])
    ensures ExtrasWritten(before, t', a, extras, i + 1)
  {
    InsertAddsCell(t, t', id, a.booking, false);
    TouchesCompose(before, t, t', a.booking, false);
    MoreExtras(a, extras, i);
    MoreOfBoth(
      Cells(before, Ids(before, a.booking, false)), set s | s in extras[..i] :: ExtraCell(a, s),
      ExtraCell(a, extras[i]));
  }

  lemma {:induction false} MoreOfBoth<T>(a: set<T>, b: set<T>, x: T)
    ensures (a + b) + {x} == a + (b + {x})
  {
  }

  lemma {:induction false} OtherSideKept(t: Table, t': Table, b: Id, secondary: bool)
    requires OnlyTouches(t, t', b, secondary)
    ensures Ids(t', b, !secondary) == Ids(t, b, !secondary)
    ensures forall id <- Ids(t, b, !secondary) :: t'[id] == t[id]
    ensures SameElsewhere(t, t', b)
  {
  }

  lemma {:induction false} SidesAreIndependent(before: Table, mid: Table, after: Table, b: Id)
    requires OnlyTouches(before, mid, b, false) && OnlyTouches(mid, after, b, true)
    ensures Ids(after, b, false) == Ids(mid, b, false)
    ensures forall id <- Ids(mid, b, false) :: after[id] == mid[id]
    ensures Ids(mid, b, true) == Ids(before, b, true)
    ensures forall id <- Ids(before, b, true) :: mid[id] == before[id]
    ensures SameElsewhere(before, after, b)
  {
    OtherSideKept(before, mid, b, false);
    OtherSideKept(mid, after, b, true);
  }

  lemma {:induction false} InsertAddsCell(t: Table, t': Table, id: nat, b: Id, secondary: bool)
    requires id !in t && id in t' && t' == t[id := t'[id]]
    requires t'[id].cell.booking == b && t'[id].cell.secondary == secondary
    ensures Ids(t', b, secondary) == Ids(t, b, secondary) + {id}
    ensures Cells(t', Ids(t', b, secondary)) == Cells(t, Ids(t, b, secondary)) + {t'[id].cell}
    ensures OnlyTouches(t, t', b, secondary)
  {
    assert Ids(t', b, secondary) == Ids(t, b, secondary) + {id};
  }

  method Unused(used: set<nat>) returns (id: nat)
    ensures id !in used
  {
    id := 0;
    var todo := used;
    while todo != {}
      invariant todo <= used
      invariant forall k :: k in used && k !in todo ==> k < id
      decreases |todo|
    {
      var k :| k in todo;
      todo := todo - {k};
      if k >= id {
        id := k + 1;
      }
    }
  }
}
