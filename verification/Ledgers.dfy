/** The importer's placement book-keeping: slots, the run's log, and the ledger object. */
module Ledgers {

  type Id = string

  /** A half-open interval of minutes on the branch clock. */
  datatype Slot = Slot(start: int, end: int)

  predicate Overlap(a: Slot, b: Slot) {
    a.start < b.end && a.end > b.start
  }

  predicate Covers(s: Slot, at: int) {
    s.start <= at < s.end
  }

  predicate Proper(s: Slot) {
    s.start < s.end
  }

  /** The comparison of end points decides whether two slots have an instant in common. */
  lemma {:induction false} OverlapIffSharedInstant(a: Slot, b: Slot)
    requires Proper(a) && Proper(b)
    ensures Overlap(a, b) <==> exists at :: Covers(a, at) && Covers(b, at)
  {
    if Overlap(a, b) {
      var at := if a.start < b.start then b.start else a.start;
      assert Covers(a, at) && Covers(b, at);
    }
  }

  /** A slot runs from its first minute up to, and not in, its last; neighbours share nothing. */
  lemma {:induction false} NeighboursDoNotMeet(a: Slot, b: Slot)
    requires Proper(a) && Proper(b) && a.end == b.start
    ensures Covers(a, a.start) && Covers(a, a.end - 1) && !Covers(a, a.end) && !Covers(a, a.start - 1)
    ensures !Overlap(a, b) && !Overlap(b, a)
    ensures forall at :: !(Covers(a, at) && Covers(b, at))
  {
  }

  predicate Busy(slots: seq<Slot>, slot: Slot) {
    exists s <- slots :: Overlap(slot, s)
  }

  /** The admission test's measure: how many slots overlap this one anywhere. */
  function Overlaps(slots: seq<Slot>, slot: Slot): nat {
    if slots == [] then 0
    else Overlaps(slots[..|slots| - 1], slot) + if Overlap(slot, slots[|slots| - 1]) then 1 else 0
  }

  /** The wanted guarantee's measure: how many slots are running at one instant. */
  function Covering(slots: seq<Slot>, at: int): nat {
    if slots == [] then 0
    else Covering(slots[..|slots| - 1], at) + if Covers(slots[|slots| - 1], at) then 1 else 0
  }

  lemma {:induction false} CoveringCounts(slots: seq<Slot>, at: int)
    ensures Covering(slots, at) == |set i: nat | i < |slots| && Covers(slots[i], at)|
  {
    var running := set i: nat | i < |slots| && Covers(slots[i], at);
    if slots != [] {
      var front, n := slots[..|slots| - 1], |slots| - 1;
      CoveringCounts(front, at);
      var before := set i: nat | i < |front| && Covers(front[i], at);
      assert running == if Covers(slots[n], at) then before + {n} else before;
    }
  }

  function Minutes(slots: seq<Slot>): int {
    if slots == [] then 0
    else Minutes(slots[..|slots| - 1]) + slots[|slots| - 1].end - slots[|slots| - 1].start
  }

  lemma {:induction false} AppendSlot(slots: seq<Slot>, s: Slot)
    ensures forall slot :: Overlaps(slots + [s], slot) == Overlaps(slots, slot) + if Overlap(slot, s) then 1 else 0
    ensures forall at :: Covering(slots + [s], at) == Covering(slots, at) + if Covers(s, at) then 1 else 0
    ensures Minutes(slots + [s]) == Minutes(slots) + s.end - s.start
  {
    assert (slots + [s])[..|slots|] == slots;
  }

  /** The overlap count dominates the occupancy of every instant the slot covers. */
  lemma {:induction false} OverlapsBoundCovering(slots: seq<Slot>, slot: Slot, at: int)
    requires Covers(slot, at)
    ensures Covering(slots, at) <= Overlaps(slots, slot)
  {
    if slots != [] {
      OverlapsBoundCovering(slots[..|slots| - 1], slot, at);
    }
  }

  // What a run did, in order.

  datatype Shape = Single | Couple | Japanese

  /** `checked`: placed by the strict pass of a run without --ignore-availability. */
  datatype How = How(shape: Shape, checked: bool)

  /** A placement, or a therapist marked busy after a DoubleBookingError. */
  datatype Entry =
    | Placed(therapist: Id, room: Id, slot: Slot, how: How)
    | Marked(therapist: Id, slot: Slot, how: How)

  type Log = seq<Entry>

  function TherapistSlots(log: Log, t: Id): seq<Slot> {
    if log == [] then []
    else
      var e := log[|log| - 1];
      TherapistSlots(log[..|log| - 1], t) + if e.therapist == t then [e.slot] else []
  }

  function RoomSlots(log: Log, r: Id): seq<Slot> {
    if log == [] then []
    else
      var e := log[|log| - 1];
      RoomSlots(log[..|log| - 1], r) + if e.Placed? && e.room == r then [e.slot] else []
  }

  /** The units placed in a room without the capacity test. */
  ghost function ExemptSlots(log: Log, r: Id): seq<Slot> {
    if log == [] then []
    else
      var e := log[|log| - 1];
      ExemptSlots(log[..|log| - 1], r) + if e.Placed? && e.room == r && !e.how.checked then [e.slot] else []
  }

  lemma {:induction false} AppendEntry(log: Log, e: Entry)
    ensures forall t :: TherapistSlots(log + [e], t) ==
                        if e.therapist == t then TherapistSlots(log, t) + [e.slot] else TherapistSlots(log, t)
    ensures forall r :: RoomSlots(log + [e], r) ==
                        if e.Placed? && e.room == r then RoomSlots(log, r) + [e.slot] else RoomSlots(log, r)
    ensures forall r :: ExemptSlots(log + [e], r) ==
                        if e.Placed? && e.room == r && !e.how.checked then ExemptSlots(log, r) + [e.slot]
                        else ExemptSlots(log, r)
  {
    assert (log + [e])[..|log|] == log;
  }

  lemma {:induction false} BusyIffLogged(log: Log, t: Id, slot: Slot)
    ensures Busy(TherapistSlots(log, t), slot) <==> exists e <- log :: e.therapist == t && Overlap(slot, e.slot)
  {
    if log != [] {
      var front, last := log[..|log| - 1], log[|log| - 1];
      BusyIffLogged(front, t, slot);
      assert log == front + [last];
      assert TherapistSlots(log, t) == TherapistSlots(front, t) + if last.therapist == t then [last.slot] else [];
      if last.therapist == t && Overlap(slot, last.slot) {
        assert last in log;
        assert last.slot in TherapistSlots(log, t);
      } else if e :| e in log && e.therapist == t && Overlap(slot, e.slot) {
        assert e in front;
        var s :| s in TherapistSlots(front, t) && Overlap(slot, s);
        assert s in TherapistSlots(log, t);
      }
    }
  }

  function SlotsOf(m: map<Id, seq<Slot>>, id: Id): seq<Slot> {
    if id in m then m[id] else []
  }

  lemma {:induction false} OneSlotMore(m: map<Id, seq<Slot>>, id: Id, slot: Slot)
    ensures forall t :: SlotsOf(m[id := SlotsOf(m, id) + [slot]], t) ==
                        if id == t then SlotsOf(m, t) + [slot] else SlotsOf(m, t)
  {
  }

  /** The two maps the importer keeps say of each therapist and of each room what the log says. */
  ghost predicate Mirrors(therapist: map<Id, seq<Slot>>, arrangement: map<Id, seq<Slot>>, log: Log) {
    && (forall t :: SlotsOf(therapist, t) == TherapistSlots(log, t))
    && (forall r :: SlotsOf(arrangement, r) == RoomSlots(log, r))
  }

  lemma {:induction false} AddMirrored(
    therapist: map<Id, seq<Slot>>, arrangement: map<Id, seq<Slot>>, log: Log, t: Id, r: Id, slot: Slot, how: How)
    requires Mirrors(therapist, arrangement, log)
    ensures Mirrors(
              therapist[t := SlotsOf(therapist, t) + [slot]], arrangement[r := SlotsOf(arrangement, r) + [slot]],
              log + [Placed(t, r, slot, how)])
  {
    OneSlotMore(therapist, t, slot);
    OneSlotMore(arrangement, r, slot);
    AppendEntry(log, Placed(t, r, slot, how));
  }

  lemma {:induction false} MarkMirrored(
    therapist: map<Id, seq<Slot>>, arrangement: map<Id, seq<Slot>>, log: Log, t: Id, slot: Slot, how: How)
    requires Mirrors(therapist, arrangement, log)
    ensures Mirrors(therapist[t := SlotsOf(therapist, t) + [slot]], arrangement, log + [Marked(t, slot, how)])
  {
    OneSlotMore(therapist, t, slot);
    AppendEntry(log, Marked(t, slot, how));
  }

  /** What this run already assigned. `log` remembers how; the maps are what the importer keeps. */
  class Ledger {
    var therapist: map<Id, seq<Slot>>
    var arrangement: map<Id, seq<Slot>>
    ghost var log: Log

    ghost predicate Valid()
      reads this
    {
      Mirrors(therapist, arrangement, log)
    }

    constructor ()
      ensures Valid() && log == []
    {
      therapist, arrangement, log := map[], map[], [];
    }

    predicate TherapistBusy(tid: Id, slot: Slot)
      requires Valid()
      reads this
      ensures TherapistBusy(tid, slot) <==> exists e <- log :: e.therapist == tid && Overlap(slot, e.slot)
    {
      BusyIffLogged(log, tid, slot);
      Busy(SlotsOf(therapist, tid), slot)
    }

    function ArrangementLoad(aid: Id, slot: Slot): (n: nat)
      requires Valid()
      reads this
      ensures n == Overlaps(RoomSlots(log, aid), slot)
    {
      Overlaps(SlotsOf(arrangement, aid), slot)
    }

    method Add(tid: Id, aid: Id, slot: Slot, ghost how: How)
      requires Valid()
      modifies this
      ensures Valid() && log == old(log) + [Placed(tid, aid, slot, how)]
    {
      AddMirrored(therapist, arrangement, log, tid, aid, slot, how);
      therapist := therapist[tid := SlotsOf(therapist, tid) + [slot]];
      arrangement := arrangement[aid := SlotsOf(arrangement, aid) + [slot]];
      log := log + [Placed(tid, aid, slot, how)];
    }

    /** The DoubleBookingError handler: the therapist is taken, no room is. */
    method MarkBusy(tid: Id, slot: Slot, ghost how: How)
      requires Valid()
      modifies this
      ensures Valid() && log == old(log) + [Marked(tid, slot, how)]
    {
      MarkMirrored(therapist, arrangement, log, tid, slot, how);
      therapist := therapist[tid := SlotsOf(therapist, tid) + [slot]];
      log := log + [Marked(tid, slot, how)];
    }
  }
}
