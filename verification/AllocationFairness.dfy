/** A run over non-overlapping slots keeps its therapists' booked minutes within one longest slot of each other. */
module AllocationFairness {
  import opened Seqs
  import opened Ledgers
  import opened Allocator
  import opened AllocationResults

  function Booked(log: Log, t: Id): int {
    Minutes(TherapistSlots(log, t))
  }

  ghost predicate Balanced(log: Log, pool: seq<Id>, longest: int) {
    forall t <- pool, u <- pool :: Booked(log, t) - Booked(log, u) <= longest
  }

  /** ushauth accepts whoever is asked about first, so candidates are taken in sorted order. */
  ghost predicate Willing(cfg: Config, row: Row) {
    cfg.ignoreAvailability || forall q: Question :: q.therapists != [] ==> row.avail(q) == Yes(q.therapists[0])
  }

  ghost predicate Idle(log: Log, slot: Slot) {
    forall e <- log :: !Overlap(slot, e.slot)
  }

  function Duration(row: Row): int {
    row.slot.end - row.slot.start
  }

  function Order(row: Row, log: Log): seq<Id> {
    SortBy(row.pool, MinutesOf(log))
  }

  // A booking or a double-booking mark of the least booked one or two therapists of the whole pool.

  ghost predicate TakesLeastBooked(row: Row, log: Log, o: Outcome) {
    var order := SortBy(row.pool, MinutesOf(log));
    || o.log == log
    || (|order| >= 1 && exists e: Entry :: o.log == log + [e] && e.therapist == order[0] && e.slot == row.slot)
    || (|order| >= 2 && exists e, f: Entry :: && o.log == log + [e] + [f]
                                              && e.therapist == order[0] && f.therapist == order[1]
                                              && e.slot == f.slot == row.slot)
  }

  lemma {:induction false} BookedAfter(log: Log, e: Entry, t: Id)
    ensures Booked(log + [e], t) == Booked(log, t) + if e.therapist == t then e.slot.end - e.slot.start else 0
  {
    AppendEntry(log, e);
    AppendSlot(TherapistSlots(log, t), e.slot);
  }

  lemma {:induction false} LeastFirst(pool: seq<Id>, log: Log, i: nat, t: Id)
    requires i < |pool| && t in pool
    requires forall k :: 0 <= k < i ==> SortBy(pool, MinutesOf(log))[k] != t
    ensures Booked(log, SortBy(pool, MinutesOf(log))[i]) <= Booked(log, t)
  {
    SortedBefore(pool, MinutesOf(log), i, t);
    var order := SortBy(pool, MinutesOf(log));
    assert MinutesOf(log)(order[i]) == Booked(log, order[i]) && MinutesOf(log)(t) == Booked(log, t);
  }

  /** Giving the same slot to the least booked one or two therapists keeps the spread within the longest slot. */
  lemma {:induction false} LeastKeepsBalance(row: Row, log: Log, o: Outcome, longest: int)
    requires Distinct(row.pool) && Balanced(log, row.pool, longest)
    requires 0 <= row.slot.end - row.slot.start <= longest
    requires TakesLeastBooked(row, log, o)
    ensures Balanced(o.log, row.pool, longest)
  {
    var order := SortBy(row.pool, MinutesOf(log));
    if o.log != log {
      var d := row.slot.end - row.slot.start;
      SortDistinct(row.pool, MinutesOf(log));
      forall t, u | t in row.pool && u in row.pool
        ensures Booked(o.log, t) - Booked(o.log, u) <= longest
      {
        if e: Entry :| o.log == log + [e] && e.therapist == order[0] && e.slot == row.slot {
          BookedAfter(log, e, t);
          BookedAfter(log, e, u);
          LeastFirst(row.pool, log, 0, u);
        } else {
          var e: Entry, f: Entry :| && o.log == log + [e] + [f]
                                    && e.therapist == order[0] && f.therapist == order[1]
                                    && e.slot == f.slot == row.slot;
          BookedAfter(log, e, t);
          BookedAfter(log + [e], f, t);
          BookedAfter(log, e, u);
          BookedAfter(log + [e], f, u);
          LeastFirst(row.pool, log, 0, u);
          if u != order[0] {
            LeastFirst(row.pool, log, 1, u);
          }
          assert order[1] in row.pool && order[0] in row.pool by {
            SortMember(row.pool, MinutesOf(log), order[0]);
            SortMember(row.pool, MinutesOf(log), order[1]);
          }
        }
      }
    }
  }

  // A row in progress, from its starting log `was` to `log`: the first `n` of the starting order took its slot once.

  ghost predicate Chain(row: Row, was: Log, log: Log, n: nat) {
    var taken := Order(row, was)[..if n < |row.pool| then n else |row.pool|];
    && n <= |row.pool|
    && (forall t <- row.pool :: Booked(log, t) == Booked(was, t) + if t in taken then Duration(row) else 0)
    && (forall t <- row.pool :: Busy(TherapistSlots(log, t), row.slot) <==> t in taken)
  }

  ghost predicate Chained(row: Row, was: Log, log: Log) {
    exists n: nat :: Chain(row, was, log, n)
  }

  lemma {:induction false} ChainStarts(row: Row, log: Log)
    requires Idle(log, row.slot)
    ensures Chained(row, log, log)
  {
    forall t | t in row.pool
      ensures !Busy(TherapistSlots(log, t), row.slot)
    {
      BusyIffLogged(log, t, row.slot);
    }
    assert Chain(row, log, log, 0);
  }

  lemma {:induction false} ChainBalanced(row: Row, was: Log, log: Log, longest: int)
    requires Chained(row, was, log) && Balanced(was, row.pool, longest) && 0 <= Duration(row) <= longest
    ensures Balanced(log, row.pool, longest)
  {
    var n: nat :| Chain(row, was, log, n);
    var order := Order(row, was);
    SortAscending(row.pool, MinutesOf(was));
    assert forall k :: 0 <= k < n ==> order[k] in order[..n];
    forall t, u | t in row.pool && u in row.pool
      ensures Booked(log, t) - Booked(log, u) <= longest
    {
      SortMember(row.pool, MinutesOf(was), u);
      if t in order[..n] && u !in order[..n] {
        var i :| 0 <= i < n && order[i] == t;
        var j :| 0 <= j < |order| && order[j] == u;
        assert MinutesOf(was)(order[i]) <= MinutesOf(was)(order[j]);
      }
    }
  }

  /** The free therapists are the rest of the starting order, still in that order. */
  lemma {:induction false} FreeAreTheRest(row: Row, was: Log, log: Log, n: nat)
    requires Distinct(row.pool) && Chain(row, was, log, n)
    ensures Candidates(log, row, false) == Order(row, was)[n..]
  {
    var order, free := Order(row, was), FreeOf(log, row.slot);
    SortDistinct(row.pool, MinutesOf(was));
    SortSame(Filter(row.pool, free), MinutesOf(log), MinutesOf(was));
    SortFilter(row.pool, free, MinutesOf(was));
    forall t | t in order
      ensures free(t) <==> t !in order[..n]
    {
      SortMember(row.pool, MinutesOf(was), t);
    }
    FilterSuffix(order, free, n);
  }

  lemma {:induction false} BusyAfter(log: Log, e: Entry, t: Id, slot: Slot)
    ensures Busy(TherapistSlots(log + [e], t), slot) <==>
            Busy(TherapistSlots(log, t), slot) || (e.therapist == t && Overlap(slot, e.slot))
  {
    AppendEntry(log, e);
    if e.therapist == t {
      var slots := TherapistSlots(log, t);
      assert forall s :: s in slots + [e.slot] <==> s in slots || s == e.slot;
    }
  }

  /** Whether a therapist is among the first `n + 1`, by the first `n` and the next. */
  lemma {:induction false} OneMoreTaken(order: seq<Id>, n: nat, t: Id)
    requires n < |order| && Distinct(order)
    ensures t in order[..n + 1] <==> t in order[..n] || t == order[n]
    ensures order[n] !in order[..n]
  {
    assert order[..n + 1] == order[..n] + [order[n]];
  }

  lemma {:induction false} ChainNextFor(row: Row, was: Log, log: Log, n: nat, e: Entry, t: Id)
    requires Distinct(row.pool) && Chain(row, was, log, n) && Duration(row) > 0
    requires n < |row.pool| && e.therapist == Order(row, was)[n] && e.slot == row.slot && t in row.pool
    ensures Booked(log + [e], t) == Booked(was, t) + if t in Order(row, was)[..n + 1] then Duration(row) else 0
    ensures Busy(TherapistSlots(log + [e], t), row.slot) <==> t in Order(row, was)[..n + 1]
  {
    SortDistinct(row.pool, MinutesOf(was));
    OneMoreTaken(Order(row, was), n, t);
    BookedAfter(log, e, t);
    BusyAfter(log, e, t, row.slot);
  }

  lemma {:induction false} ChainNext(row: Row, was: Log, log: Log, n: nat, e: Entry)
    requires Distinct(row.pool) && Chain(row, was, log, n) && Duration(row) > 0
    requires n < |row.pool| && e.therapist == Order(row, was)[n] && e.slot == row.slot
    ensures Chain(row, was, log + [e], n + 1)
  {
    forall t | t in row.pool
      ensures Booked(log + [e], t) == Booked(was, t) + if t in Order(row, was)[..n + 1] then Duration(row) else 0
      ensures Busy(TherapistSlots(log + [e], t), row.slot) <==> t in Order(row, was)[..n + 1]
    {
      ChainNextFor(row, was, log, n, e, t);
    }
  }

  // The attempts. Overriding pairs are drawn from the whole pool, everything else from the free therapists.

  predicate FromWholePool(cfg: Config, row: Row, relax: bool) {
    row.isCouple && (relax || cfg.ignoreAvailability)
  }

  ghost predicate Fair(cfg: Config, row: Row, relax: bool, was: Log, log: Log, longest: int) {
    Balanced(log, row.pool, longest) && (FromWholePool(cfg, row, relax) || Chained(row, was, log))
  }

  /** A row of a run this module speaks of, started from a balanced log. */
  ghost predicate Started(cfg: Config, row: Row, was: Log, longest: int) {
    Distinct(row.pool) && Willing(cfg, row) && 0 < Duration(row) <= longest && Balanced(was, row.pool, longest)
  }

  lemma {:induction false} WillingSingle(cfg: Config, row: Row, relax: bool, aid: Id, log: Log)
    requires Willing(cfg, row)
    ensures var cands := Candidates(log, row, false);
            PickSingle(cfg, row, relax, aid, log) == if cands == [] then None else Some(cands[0])
  {
  }

  lemma {:induction false} SingleIsFair(
    cfg: Config, row: Row, relax: bool, aid: Id, was: Log, log: Log, t: Id, longest: int)
    requires Started(cfg, row, was, longest) && Fair(cfg, row, relax, was, log, longest) && !row.isCouple
    requires PickSingle(cfg, row, relax, aid, log) == Some(t)
    ensures Fair(cfg, row, relax, was, BookSingle(cfg, row, relax, t, aid, log).log, longest)
  {
    var n: nat :| Chain(row, was, log, n);
    FreeAreTheRest(row, was, log, n);
    WillingSingle(cfg, row, relax, aid, log);
    var o := BookSingle(cfg, row, relax, t, aid, log);
    var e := o.log[|log|];
    assert o.log == log + [e];
    ChainNext(row, was, log, n, e);
    ChainBalanced(row, was, o.log, longest);
  }

  lemma {:induction false} FirstPairAllAccepted<T>(cands: seq<T>, first: T -> bool, second: (T, T) -> bool)
    requires |cands| >= 2 && forall t <- cands :: first(t) && second(cands[0], t)
    ensures FirstPair(cands, first, second) == Some((cands[0], cands[1]))
  {
    FilterAll(cands[1..], Beside(second, cands[0]));
  }

  lemma {:induction false} WillingPair(cfg: Config, row: Row, relax: bool, aid1: Id, aid2: Id, log: Log)
    requires Willing(cfg, row)
    ensures var cands := Candidates(log, row, relax || cfg.ignoreAvailability);
            PickPair(cfg, row, relax, aid1, aid2, log) == if |cands| < 2 then None else Some((cands[0], cands[1]))
  {
    var cands := Candidates(log, row, relax || cfg.ignoreAvailability);
    if |cands| >= 2 && !relax && !cfg.ignoreAvailability {
      WillingOrder(cfg, row, aid1, aid2, cands);
    }
  }

  lemma {:induction false} WillingOrder(cfg: Config, row: Row, aid1: Id, aid2: Id, cands: seq<Id>)
    requires Willing(cfg, row) && !cfg.ignoreAvailability && |cands| >= 2
    ensures FirstPair(cands, SaysYes(row, aid1), SaysYesBeside(row, aid2)) == Some((cands[0], cands[1]))
  {
    FirstPairAllAccepted(cands, SaysYes(row, aid1), SaysYesBeside(row, aid2));
  }

  lemma {:induction false} PairEntries(
    cfg: Config, row: Row, relax: bool, t1: Id, aid1: Id, t2: Id, aid2: Id, log: Log) returns (e: Entry, f: Entry)
    ensures BookPair(cfg, row, relax, t1, aid1, t2, aid2, log).log == log + [e] + [f]
    ensures e.therapist == t1 && f.therapist == t2 && e.slot == f.slot == row.slot
  {
    var o := BookPair(cfg, row, relax, t1, aid1, t2, aid2, log);
    e, f := o.log[|log|], o.log[|log| + 1];
  }

  /** Two entries for the least booked of the whole pool. */
  lemma {:induction false} WholePoolPair(row: Row, log: Log, e: Entry, f: Entry, longest: int)
    requires Distinct(row.pool) && Balanced(log, row.pool, longest) && 0 <= Duration(row) <= longest
    requires |row.pool| >= 2 && e.therapist == Order(row, log)[0] && f.therapist == Order(row, log)[1]
    requires e.slot == f.slot == row.slot
    ensures Balanced(log + [e] + [f], row.pool, longest)
  {
    var o := Outcome(log + [e] + [f], false);
    assert TakesLeastBooked(row, log, o);
    LeastKeepsBalance(row, log, o, longest);
  }

  /** Two entries for the next of the starting order. */
  lemma {:induction false} NextPair(row: Row, was: Log, log: Log, n: nat, e: Entry, f: Entry)
    requires Distinct(row.pool) && Chain(row, was, log, n) && Duration(row) > 0
    requires n + 1 < |row.pool| && e.therapist == Order(row, was)[n] && f.therapist == Order(row, was)[n + 1]
    requires e.slot == f.slot == row.slot
    ensures Chained(row, was, log + [e] + [f])
  {
    ChainNext(row, was, log, n, e);
    ChainNext(row, was, log + [e], n + 1, f);
  }

  lemma {:induction false} PairIsFair(
    cfg: Config, row: Row, relax: bool, aid1: Id, aid2: Id, was: Log, log: Log, t1: Id, t2: Id, longest: int)
    requires Started(cfg, row, was, longest) && Fair(cfg, row, relax, was, log, longest) && row.isCouple
    requires PickPair(cfg, row, relax, aid1, aid2, log) == Some((t1, t2))
    ensures Fair(cfg, row, relax, was, BookPair(cfg, row, relax, t1, aid1, t2, aid2, log).log, longest)
  {
    WillingPair(cfg, row, relax, aid1, aid2, log);
    var e, f := PairEntries(cfg, row, relax, t1, aid1, t2, aid2, log);
    if FromWholePool(cfg, row, relax) {
      assert Candidates(log, row, true) == Order(row, log);
      WholePoolPair(row, log, e, f, longest);
    } else {
      var n: nat :| Chain(row, was, log, n);
      FreeAreTheRest(row, was, log, n);
      NextPair(row, was, log, n, e, f);
      ChainBalanced(row, was, log + [e] + [f], longest);
    }
  }

  /** What trying a room does: nothing, or the booking of the pick, which may end as a mark. */
  lemma {:induction false} CoupleRoomCases(cfg: Config, row: Row, relax: bool, aid: Id, log: Log)
    requires row.isCouple
    ensures var o, pick := TryRoom(cfg, row, relax, aid, log), PickPair(cfg, row, relax, aid, aid, log);
            o == Outcome(log, false) ||
            (pick.Some? && o == BookPair(cfg, row, relax, pick.value.0, aid, pick.value.1, aid, log))
  {
  }

  lemma {:induction false} SingleRoomCases(cfg: Config, row: Row, relax: bool, aid: Id, log: Log)
    requires !row.isCouple
    ensures var o, pick := TryRoom(cfg, row, relax, aid, log), PickSingle(cfg, row, relax, aid, log);
            o == Outcome(log, false) ||
            (pick.Some? && o == BookSingle(cfg, row, relax, pick.value, aid, log))
  {
  }

  lemma {:induction false} RoomIsFair(
    cfg: Config, row: Row, relax: bool, aid: Id, was: Log, log: Log, longest: int)
    requires Started(cfg, row, was, longest) && Fair(cfg, row, relax, was, log, longest)
    ensures Fair(cfg, row, relax, was, TryRoom(cfg, row, relax, aid, log).log, longest)
  {
    if row.isCouple {
      CoupleRoomIsFair(cfg, row, relax, aid, was, log, longest);
    } else {
      SingleRoomIsFair(cfg, row, relax, aid, was, log, longest);
    }
  }

  lemma {:induction false} CoupleRoomIsFair(
    cfg: Config, row: Row, relax: bool, aid: Id, was: Log, log: Log, longest: int)
    requires Started(cfg, row, was, longest) && Fair(cfg, row, relax, was, log, longest) && row.isCouple
    ensures Fair(cfg, row, relax, was, TryRoom(cfg, row, relax, aid, log).log, longest)
  {
    CoupleRoomCases(cfg, row, relax, aid, log);
    var pick := PickPair(cfg, row, relax, aid, aid, log);
    if pick.Some? {
      PairIsFair(cfg, row, relax, aid, aid, was, log, pick.value.0, pick.value.1, longest);
    }
  }

  lemma {:induction false} SingleRoomIsFair(
    cfg: Config, row: Row, relax: bool, aid: Id, was: Log, log: Log, longest: int)
    requires Started(cfg, row, was, longest) && Fair(cfg, row, relax, was, log, longest) && !row.isCouple
    ensures Fair(cfg, row, relax, was, TryRoom(cfg, row, relax, aid, log).log, longest)
  {
    SingleRoomCases(cfg, row, relax, aid, log);
    var pick := PickSingle(cfg, row, relax, aid, log);
    if pick.Some? {
      SingleIsFair(cfg, row, relax, aid, was, log, pick.value, longest);
    }
  }

  lemma {:induction false} RoomsAreFair(
    cfg: Config, row: Row, relax: bool, rooms: seq<Room>, was: Log, log: Log, longest: int)
    requires Started(cfg, row, was, longest) && Fair(cfg, row, relax, was, log, longest)
    ensures Fair(cfg, row, relax, was, TryRooms(cfg, row, relax, rooms, log).log, longest)
    decreases rooms
  {
    if rooms != [] {
      RoomIsFair(cfg, row, relax, rooms[0].id, was, log, longest);
      var o := TryRoom(cfg, row, relax, rooms[0].id, log);
      if !o.placed {
        RoomsAreFair(cfg, row, relax, rooms[1..], was, o.log, longest);
      }
    }
  }

  lemma {:induction false} PassIsFair(cfg: Config, row: Row, relax: bool, was: Log, log: Log, longest: int)
    requires Started(cfg, row, was, longest) && Fair(cfg, row, relax, was, log, longest)
    ensures Fair(cfg, row, relax, was, TryPass(cfg, row, relax, log).log, longest)
  {
    var rooms := RoomsToTry(cfg, row);
    if ShapeOf(row).Japanese? {
      var free := FirstTwo(Filter(rooms, AdmitsOne(cfg, row, relax, log)));
      if |free| == 2 {
        var pick := PickPair(cfg, row, relax, free[0].id, free[1].id, log);
        if pick.Some? {
          PairIsFair(cfg, row, relax, free[0].id, free[1].id, was, log, pick.value.0, pick.value.1, longest);
        }
      }
    } else {
      RoomsAreFair(cfg, row, relax, if relax then SortBy(rooms, LoadOf(log, row.slot)) else rooms, was, log, longest);
    }
  }

  /** A whole row, with every double-booking mark it leaves on the way. */
  lemma {:induction false} RowIsFair(cfg: Config, row: Row, log: Log, longest: int)
    requires Started(cfg, row, log, longest) && Idle(log, row.slot)
    ensures Balanced(PlaceRow(cfg, row, log).log, row.pool, longest)
  {
    ChainStarts(row, log);
    if !Rejected(cfg, row) {
      PassIsFair(cfg, row, false, log, log, longest);
      var strict := TryPass(cfg, row, false, log);
      if !strict.placed {
        PassIsFair(cfg, row, true, log, strict.log, longest);
      }
    }
  }

  /** A slot without duration adds no minutes to anybody. */
  lemma {:induction false} EmptySlotsAddNothing(log: Log, more: Log, slot: Slot, t: Id)
    requires slot.start == slot.end && forall e <- more :: e.slot == slot
    ensures Booked(log + more, t) == Booked(log, t)
  {
    if more == [] {
      assert log + more == log;
    } else {
      var front, last := more[..|more| - 1], more[|more| - 1];
      assert log + more == log + front + [last];
      assert last in more;
      EmptySlotsAddNothing(log, front, slot, t);
      BookedAfter(log + front, last, t);
    }
  }

  lemma {:induction false} EmptyRowIsFair(cfg: Config, row: Row, log: Log, longest: int)
    requires Distinct(row.pool) && Duration(row) == 0 && Balanced(log, row.pool, longest)
    ensures Balanced(PlaceRow(cfg, row, log).log, row.pool, longest)
  {
    var after := PlaceRow(cfg, row, log).log;
    RowIsAllOrNothing(cfg, row, log);
    assert after == log + after[|log|..];
    forall t | t in row.pool
      ensures Booked(after, t) == Booked(log, t)
    {
      EmptySlotsAddNothing(log, after[|log|..], row.slot, t);
    }
  }

  /**
   * Main fairness result, after every row of the run (apply it to each prefix), whichever bookings conflict and
   * however often a row is tried again.
   */
  lemma {:induction false} RunStaysBalanced(cfg: Config, rows: seq<Row>, pool: seq<Id>, longest: int, log: Log)
    requires Distinct(pool)
    requires forall row <- rows :: row.pool == pool && Willing(cfg, row) && 0 <= Duration(row) <= longest
    requires forall i, j :: 0 <= i < j < |rows| ==> !Overlap(rows[j].slot, rows[i].slot)
    requires forall row <- rows :: Idle(log, row.slot)
    requires Balanced(log, pool, longest)
    ensures Balanced(PlaceAll(cfg, rows, log), pool, longest)
    decreases rows
  {
    if rows != [] {
      var row, rest := rows[0], rows[1..];
      var o := PlaceRow(cfg, row, log);
      if Duration(row) == 0 {
        EmptyRowIsFair(cfg, row, log, longest);
      } else {
        RowIsFair(cfg, row, log, longest);
      }
      RowIsAllOrNothing(cfg, row, log);
      forall next | next in rest
        ensures Idle(o.log, next.slot)
      {
        var k :| 0 <= k < |rest| && rest[k] == next;
        assert rows[k + 1] == next && !Overlap(rows[k + 1].slot, rows[0].slot);
        assert o.log == log + o.log[|log|..];
      }
      RunStaysBalanced(cfg, rest, pool, longest, o.log);
    }
  }
}
