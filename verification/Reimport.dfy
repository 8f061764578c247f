/** Importing the same file again: the booking exists by then, and its cache rows are synced once more. */
module Reimport {
  import opened Seqs
  import opened CacheTable
  import opened CacheResults
  import opened CacheColumns

  /** The second call leaves the rows as they are exactly when it has the same target. */
  lemma {:induction false} SameTargetIff(t0: Table, t1: Table, t2: Table, one: Args, again: Args)
    requires Synced(t0, t1, one) && Synced(t1, t2, again) && one.booking == again.booking
    requires StandardSecondaries(t0, one.booking)
    ensures ViewOf(t2, again.booking) == ViewOf(t1, again.booking) <==> Target(again) == Target(one)
  {
    SyncReachesTarget(t0, t1, one);
    SyncReachesTarget(t1, t2, again);
  }

  // An ordinary booking: the two calls the importer makes of one row.

  /** A distinct service of the row with the duration its catalogue entry carries, 0 when absent. */
  datatype Listed = Listed(service: Service, rawMinutes: int)

  /** What both calls of one row share; the first service drives the room and the therapist. */
  datatype Import = Import(
    booking: Id,
    arrangement: Id, arrangementName: string,
    therapist: Id, therapistName: string,
    secondary: Option<Id>, secondaryName: string,
    branch: Option<Id>, branchName: string, customer: Option<Id>, customerName: string,
    start: int, services: seq<Listed>)

  function ServiceMinutes(l: Listed): int {
    if l.rawMinutes == 0 then 60 else l.rawMinutes
  }

  function TotalMinutes(services: seq<Listed>): int {
    if services == [] then 0 else ServiceMinutes(services[0]) + TotalMinutes(services[1..])
  }

  function ServicesOf(listed: seq<Listed>): seq<Service> {
    if listed == [] then [] else [listed[0].service] + ServicesOf(listed[1..])
  }

  function CallWith(i: Import, duration: int): Args
    requires i.services != []
  {
    Args(
      i.booking, Some(i.arrangement), i.arrangementName, Some(i.therapist), i.therapistName,
      i.services[0].service.service, i.services[0].service.name,
      if |i.services| > 1 then ServicesOf(i.services) else [],
      i.secondary, i.secondaryName,
      Common(i.branch, i.branchName, i.customer, i.customerName, "pending",
             i.start, i.start + TotalMinutes(i.services), duration, "confirmed"))
  }

  /** The call that follows the creation of the booking. */
  function FirstCall(i: Import): Args
    requires i.services != []
  {
    CallWith(i, TotalMinutes(i.services))
  }

  /** The booking keeps the minutes of its first service, and the next run passes those. */
  function StoredMinutes(i: Import): int
    requires i.services != []
  {
    ServiceMinutes(i.services[0])
  }

  function SecondCall(i: Import): Args
    requires i.services != []
  {
    CallWith(i, if StoredMinutes(i) != 0 then StoredMinutes(i) else TotalMinutes(i.services))
  }

  lemma {:induction false} TargetCommon(a: Args)
    ensures forall c <- TargetPrimary(a) :: c.common == a.common
    ensures PrimaryCell(a) in TargetPrimary(a)
  {
  }

  /** Two calls that differ at most in the duration have one target iff they do not differ. */
  lemma {:induction false} DurationDecides(one: Args, d: int)
    ensures var again := one.(common := one.common.(duration := d));
            Target(again) == Target(one) <==> d == one.common.duration
  {
    var again := one.(common := one.common.(duration := d));
    TargetCommon(one);
    TargetCommon(again);
    assert TargetPrimary(again) == TargetPrimary(one) ==> PrimaryCell(again) in TargetPrimary(one);
    if d == one.common.duration {
      assert again == one;
    }
  }

  /** Importing a row again leaves an ordinary booking's rows as they are iff its later services add no minutes. */
  lemma {:induction false} OrdinaryReimportUnchangedIff(t0: Table, t1: Table, t2: Table, i: Import)
    requires i.services != [] && StandardSecondaries(t0, i.booking)
    requires Synced(t0, t1, FirstCall(i)) && Synced(t1, t2, SecondCall(i))
    ensures ViewOf(t2, i.booking) == ViewOf(t1, i.booking) <==> TotalMinutes(i.services[1..]) == 0
  {
    SameTargetIff(t0, t1, t2, FirstCall(i), SecondCall(i));
    assert SecondCall(i) == FirstCall(i).(common := FirstCall(i).common.(duration := SecondCall(i).common.duration));
    DurationDecides(FirstCall(i), SecondCall(i).common.duration);
  }

  lemma {:induction false} MinutesAreAdded(services: seq<Listed>)
    requires forall l <- services :: l.rawMinutes >= 0
    ensures TotalMinutes(services) >= 0 && (TotalMinutes(services) == 0 <==> services == [])
  {
    if services != [] {
      assert services[0] in services;
      assert forall l <- services[1..] :: l in services;
      MinutesAreAdded(services[1..]);
    }
  }

  /** The importer's own two calls for one row, on any table: with proper durations, stable iff it has one service. */
  method ImportTwice(cache: AppointmentCache, i: Import, now: int, later: int) returns (ghost first: Table)
    requires i.services != [] && forall l <- i.services :: l.rawMinutes >= 0
    requires StandardSecondaries(cache.rows, i.booking)
    modifies cache
    ensures ViewOf(first, i.booking) == Target(FirstCall(i)) && ViewOf(cache.rows, i.booking) == Target(SecondCall(i))
    ensures ViewOf(cache.rows, i.booking) == ViewOf(first, i.booking) <==> |i.services| == 1
    ensures SameElsewhere(old(cache.rows), cache.rows, i.booking)
  {
    ghost var t0 := cache.rows;
    cache.SyncAppointmentCache(FirstCall(i), false, now);
    first := cache.rows;
    cache.SyncAppointmentCache(SecondCall(i), false, later);
    SyncReachesTarget(t0, first, FirstCall(i));
    SyncReachesTarget(first, cache.rows, SecondCall(i));
    OrdinaryReimportUnchangedIff(t0, first, cache.rows, i);
    assert forall l <- i.services[1..] :: l in i.services;
    MinutesAreAdded(i.services[1..]);
  }

  /** An hour's massage with half an hour of another service: 90 minutes after the first import, 60 after the second. */
  lemma {:induction false} TwoServicesAreRewritten(t0: Table, t1: Table, t2: Table, i: Import, a: Service, b: Service)
    requires i.services == [Listed(a, 60), Listed(b, 30)] && StandardSecondaries(t0, i.booking)
    requires Synced(t0, t1, FirstCall(i)) && Synced(t1, t2, SecondCall(i))
    ensures forall c <- ViewOf(t1, i.booking).primary :: c.common.duration == 90
    ensures forall c <- ViewOf(t2, i.booking).primary :: c.common.duration == 60
    ensures ViewOf(t2, i.booking) != ViewOf(t1, i.booking)
  {
    var later := i.services[1..];
    assert later == [Listed(b, 30)];
    assert TotalMinutes(later) == 30 + TotalMinutes(later[1..]) == 30;
    assert TotalMinutes(i.services) == 60 + TotalMinutes(later);
    SyncReachesTarget(t0, t1, FirstCall(i));
    SyncReachesTarget(t1, t2, SecondCall(i));
    TargetCommon(FirstCall(i));
    TargetCommon(SecondCall(i));
    OrdinaryReimportUnchangedIff(t0, t1, t2, i);
  }

  /** A service without a duration counts as an hour, in both imports. */
  lemma {:induction false} MissingDurationIsAnHour(t0: Table, t1: Table, t2: Table, i: Import, a: Service)
    requires i.services == [Listed(a, 0)] && StandardSecondaries(t0, i.booking)
    requires Synced(t0, t1, FirstCall(i)) && Synced(t1, t2, SecondCall(i))
    ensures forall c <- ViewOf(t1, i.booking).primary + ViewOf(t2, i.booking).primary ::
              c.common.duration == 60 && c.common.start == i.start && c.common.end == i.start + 60
  {
    assert TotalMinutes(i.services[1..]) == 0;
    assert TotalMinutes(i.services) == 60 + TotalMinutes(i.services[1..]);
    SyncReachesTarget(t0, t1, FirstCall(i));
    SyncReachesTarget(t1, t2, SecondCall(i));
    TargetCommon(FirstCall(i));
    TargetCommon(SecondCall(i));
  }

  /** Either of the importer's calls for the row; they differ in the duration alone. */
  ghost predicate CallOf(i: Import, a: Args)
    requires i.services != []
  {
    a == FirstCall(i) || a == SecondCall(i)
  }

  /** What an import leaves in the booking's own room: a confirmed, unpaid visit as long as all its services. */
  lemma {:induction false} ImportedColumns(before: Table, after: Table, i: Import, a: Args, id: nat)
    requires i.services != [] && CallOf(i, a) && Synced(before, after, a)
    requires id in RowsInRoom(after, i.booking, i.arrangement)
    ensures var c := after[id].cell;
            && c.arrangementName == i.arrangementName
            && c.therapist == Some(i.therapist) && c.therapistName == i.therapistName
            && c.service == i.services[0].service.service && c.serviceName == i.services[0].service.name
            && c.common.branch == i.branch && c.common.branchName == i.branchName
            && c.common.customer == i.customer && c.common.customerName == i.customerName
            && c.common.status == "confirmed" && c.common.paymentStatus == "pending"
            && c.common.start == i.start && c.common.end == i.start + TotalMinutes(i.services)
  {
    OwnRoomColumns(before, after, a, id);
  }

  /** An imported row blocks other visits in exactly the minutes from its start to the end of its last service. */
  lemma {:induction false} ImportedRowBlocks(
    before: Table, after: Table, i: Import, a: Args, id: nat, start: int, end: int)
    requires i.services != [] && CallOf(i, a) && Synced(before, after, a)
    requires id in RowsInRoom(after, i.booking, i.arrangement)
    requires TotalMinutes(i.services) > 0 && start < end
    ensures id in RoomHits(after, i.arrangement, DayOf(i.start), start, end) <==>
            exists at :: During(i.start, i.start + TotalMinutes(i.services), at) && During(start, end, at)
  {
    ImportedColumns(before, after, i, a, id);
    OwnRoomColumns(before, after, a, id);
    MeetsIffSharedInstant(after[id].cell.common, start, end);
  }

  lemma {:induction false} ServicesNameRooms(listed: seq<Listed>, r: Id)
    ensures (exists s <- ServicesOf(listed) :: s.arrangement == Some(r)) <==>
            exists l <- listed :: l.service.arrangement == Some(r)
  {
    if listed != [] {
      var l, rest := listed[0], listed[1..];
      assert listed == [l] + rest;
      ServicesNameRooms(rest, r);
    }
  }

  /** An import leaves a row in the booking's room, and in the rooms of its services when it has several. */
  lemma {:induction false} ImportedRooms(before: Table, after: Table, i: Import, a: Args, r: Id)
    requires i.services != [] && CallOf(i, a) && Synced(before, after, a)
    ensures |RowsInRoom(after, i.booking, r)| ==
            if r == i.arrangement || (|i.services| > 1 && exists l <- i.services :: l.service.arrangement == Some(r))
            then 1 else 0
  {
    OneRowPerWantedRoom(before, after, a, r);
    ServicesNameRooms(i.services, r);
  }

  // A dual Japanese booking.

  lemma {:induction false} CellsWithOneMore(t: Table, ids: set<nat>, id: nat)
    requires ids <= t.Keys && id in t
    ensures Cells(t, ids + {id}) == Cells(t, ids) + {t[id].cell}
  {
  }

  lemma {:induction false} ForcedView(t1: Table, t2: Table, one: Args, two: Args)
    requires Cells(t1, Ids(t1, one.booking, false)) == TargetPrimary(one)
    requires |Ids(t1, one.booking, false)| == 1 + |Extras(one)|
    requires ForceSynced(t1, t2, two) && one.booking == two.booking && two.secondary.None?
    ensures ViewOf(t2, two.booking) == View(TargetPrimary(one) + {PrimaryCell(two)}, 2 + |Extras(one)|, {}, 0)
  {
    var was := Ids(t1, one.booking, false);
    var id :| id !in t1 && Ids(t2, two.booking, false) == was + {id} && t2[id].cell == PrimaryCell(two);
    SameCells(t1, t2, was);
    CellsWithOneMore(t2, was, id);
    assert Cells(t2, Ids(t2, two.booking, true)) == {};
  }

  /**
   * A dual Japanese booking is written by a sync for room one and a forced sync for room two, neither naming a
   * secondary therapist. The exact condition under which syncing it once more leaves its rows as they are.
   */
  lemma {:induction false} DualReimportUnchangedIff(
    t0: Table, t1: Table, t2: Table, t3: Table, one: Args, two: Args, again: Args)
    requires Synced(t0, t1, one) && ForceSynced(t1, t2, two) && Synced(t2, t3, again)
    requires one.booking == two.booking == again.booking && two.secondary.None?
    ensures ViewOf(t3, again.booking) == ViewOf(t2, again.booking) <==>
            && again.secondary.None?
            && TargetPrimary(again) == TargetPrimary(one) + {PrimaryCell(two)}
            && |Extras(again)| == 1 + |Extras(one)|
  {
    ForcedView(t1, t2, one, two);
    assert StandardSecondaries(t2, again.booking) by {
      assert Ids(t2, two.booking, true) == {};
    }
    SyncReachesTarget(t2, t3, again);
  }

  lemma {:induction false} TargetTherapist(a: Args)
    ensures forall c <- TargetPrimary(a) :: c.therapist == a.therapist
    ensures PrimaryCell(a) in TargetPrimary(a)
  {
  }

  /**
   * So it never does: the two rooms were given to different therapists, and one sync writes a single therapist into
   * every primary row. A call that names the second therapist as secondary changes the rows in any case.
   */
  lemma {:induction false} DualReimportChanges(
    t0: Table, t1: Table, t2: Table, t3: Table, one: Args, two: Args, again: Args)
    requires Synced(t0, t1, one) && ForceSynced(t1, t2, two) && Synced(t2, t3, again)
    requires one.booking == two.booking == again.booking && two.secondary.None?
    requires one.therapist != two.therapist || again.secondary.Some?
    ensures ViewOf(t3, again.booking) != ViewOf(t2, again.booking)
  {
    DualReimportUnchangedIff(t0, t1, t2, t3, one, two, again);
    TargetTherapist(one);
    TargetTherapist(again);
    assert PrimaryCell(two) in TargetPrimary(one) + {PrimaryCell(two)};
    assert PrimaryCell(one) in TargetPrimary(one) + {PrimaryCell(two)};
  }

  /** What the importer does with a dual booking over two runs: both syncs of the first, then that of the second. */
  method ImportDualTwice(cache: AppointmentCache, one: Args, two: Args, again: Args, now: int, later: int)
    returns (ghost first: Table)
    requires one.booking == two.booking == again.booking && two.secondary.None?
    requires one.therapist != two.therapist || again.secondary.Some?
    modifies cache
    ensures ViewOf(first, one.booking) == View(TargetPrimary(one) + {PrimaryCell(two)}, 2 + |Extras(one)|, {}, 0)
    ensures ViewOf(cache.rows, again.booking) != ViewOf(first, again.booking)
    ensures SameElsewhere(old(cache.rows), first, one.booking) && SameElsewhere(first, cache.rows, one.booking)
  {
    ghost var t0 := cache.rows;
    cache.SyncAppointmentCache(one, false, now);
    ghost var t1 := cache.rows;
    cache.SyncAppointmentCache(two, true, now);
    first := cache.rows;
    ForcedView(t1, first, one, two);
    cache.SyncAppointmentCache(again, false, later);
    DualReimportChanges(t0, t1, first, cache.rows, one, two, again);
  }

  /** Room two is occupied after the second import iff that call names it; it then has that call's therapist. */
  lemma {:induction false} ReimportOccupiesRoomTwoIff(
    t0: Table, t1: Table, t2: Table, t3: Table, one: Args, two: Args, again: Args, r: Id)
    requires Synced(t0, t1, one) && ForceSynced(t1, t2, two) && Synced(t2, t3, again)
    requires one.booking == two.booking == again.booking && two.arrangement == Some(r)
    ensures exists id <- RowsInRoom(t2, two.booking, r) :: t2[id].cell.therapist == two.therapist
    ensures RowsInRoom(t3, two.booking, r) != {} <==> Wanted(again, r)
    ensures forall id <- RowsInRoom(t3, two.booking, r) :: t3[id].cell.therapist == again.therapist
  {
    var id :| Ids(t2, two.booking, false) == Ids(t1, two.booking, false) + {id} && t2[id].cell == PrimaryCell(two);
    assert id in RowsInRoom(t2, two.booking, r);
    OneRowPerWantedRoom(t2, t3, again, r);
    assert |RowsInRoom(t3, two.booking, r)| == 0 ==> RowsInRoom(t3, two.booking, r) == {};
    TargetTherapist(again);
    forall k | k in RowsInRoom(t3, two.booking, r)
      ensures t3[k].cell.therapist == again.therapist
    {
      assert t3[k].cell in Cells(t3, Ids(t3, two.booking, false));
    }
  }

  /** In particular a second import that does not name room two changes the rows. */
  lemma {:induction false} ReimportDropsRoomTwo(
    t0: Table, t1: Table, t2: Table, t3: Table, one: Args, two: Args, again: Args, r: Id)
    requires Synced(t0, t1, one) && ForceSynced(t1, t2, two) && Synced(t2, t3, again)
    requires one.booking == two.booking == again.booking && two.arrangement == Some(r)
    requires !Wanted(again, r)
    ensures ViewOf(t3, again.booking) != ViewOf(t2, again.booking)
  {
    ReimportOccupiesRoomTwoIff(t0, t1, t2, t3, one, two, again, r);
    var id :| id in RowsInRoom(t2, two.booking, r);
    assert t2[id].cell in ViewOf(t2, two.booking).primary;
    forall k | k in Ids(t3, two.booking, false)
      ensures t3[k].cell != t2[id].cell
    {
      assert k !in RowsInRoom(t3, two.booking, r);
    }
    assert t2[id].cell !in ViewOf(t3, two.booking).primary;
  }
}
