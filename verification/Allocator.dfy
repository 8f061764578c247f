/** Placing appointment rows into rooms and therapists: the pickers and the placement loop. */
module Allocator {
  import opened Seqs
  import opened Ledgers

  /** Whether a room's name mentions "couple"/"double" or "japanese" is all the loop reads of it. */
  datatype Room = Room(id: Id, coupleName: bool, japaneseName: bool)

  /**
   * An availability question: a room, the therapists it lists, and the first therapist it is asked beside, if any.
   * Placing one row never asks the same question twice, so ushauth may answer each call as it likes.
   */
  datatype Question = Question(room: Id, therapists: seq<Id>, beside: Option<Id>)

  /** ushauth's reply. */
  datatype Answer = No | Yes(therapist: Id)

  /** `rawCapacity` is the capacity field as received, 0 when absent. */
  datatype Config = Config(execute: bool, ignoreAvailability: bool, rawCapacity: Id -> int)

  function Capacity(cfg: Config, room: Id): int {
    if cfg.rawCapacity(room) == 0 then 1 else cfg.rawCapacity(room)
  }

  /**
   * One appointment that reached placement. The outside world answers through two oracles:
   * `avail` is ushauth, and `conflict(relaxed, room, therapists)` says whether
   * creating the booking raises DoubleBookingError.
   */
  datatype Row = Row(
    slot: Slot,
    isCouple: bool,
    japaneseService: bool,
    rooms: seq<Room>,
    pool: seq<Id>,
    avail: Question -> Answer,
    conflict: (bool, Id, seq<Id>) -> bool)

  function ShapeOf(row: Row): Shape {
    if !row.isCouple then Single else if row.japaneseService then Japanese else Couple
  }

  function ForTwo(cfg: Config): Room -> bool {
    (r: Room) => Capacity(cfg, r.id) >= 2 || r.coupleName
  }

  function NamedJapanese(): Room -> bool {
    (r: Room) => r.japaneseName
  }

  function RoomsToTry(cfg: Config, row: Row): seq<Room> {
    match ShapeOf(row)
    case Single => row.rooms
    case Couple => Filter(row.rooms, ForTwo(cfg))
    case Japanese => Filter(row.rooms, NamedJapanese())
  }

  /** The row is given up before any placement is tried. */
  predicate Rejected(cfg: Config, row: Row) {
    || row.rooms == []
    || row.pool == []
    || RoomsToTry(cfg, row) == []
    || (ShapeOf(row).Japanese? && |RoomsToTry(cfg, row)| < 2 && !cfg.ignoreAvailability)
  }

  // Reference definitions, over the log alone.

  function FreeOf(log: Log, slot: Slot): Id -> bool {
    t => !Busy(TherapistSlots(log, t), slot)
  }

  function MinutesOf(log: Log): Id -> int {
    t => Minutes(TherapistSlots(log, t))
  }

  function LoadOf(log: Log, slot: Slot): Room -> int {
    (r: Room) => Overlaps(RoomSlots(log, r.id), slot)
  }

  /** Therapists least booked first; without the override only those free for the slot. */
  function Candidates(log: Log, row: Row, override: bool): seq<Id> {
    SortBy(if override then row.pool else Filter(row.pool, FreeOf(log, row.slot)), MinutesOf(log))
  }

  function SaysYes(row: Row, aid: Id): Id -> bool {
    t => row.avail(Question(aid, [t], None)).Yes?
  }

  function SaysYesBeside(row: Row, aid: Id): (Id, Id) -> bool {
    (t1, t2) => row.avail(Question(aid, [t2], Some(t1))).Yes?
  }

  function Beside<T>(second: (T, T) -> bool, t: T): T -> bool {
    u => second(t, u)
  }

  /** The first therapist `first` accepts that is followed by one `second` accepts beside it, with the nearest such. */
  function FirstPair<T>(cands: seq<T>, first: T -> bool, second: (T, T) -> bool): Option<(T, T)> {
    if cands == [] then None
    else
      var partners := Filter(cands[1..], Beside(second, cands[0]));
      if first(cands[0]) && partners != [] then Some((cands[0], partners[0]))
      else FirstPair(cands[1..], first, second)
  }

  function PickPair(cfg: Config, row: Row, relax: bool, aid1: Id, aid2: Id, log: Log): Option<(Id, Id)> {
    var override := relax || cfg.ignoreAvailability;
    var cands := Candidates(log, row, override);
    if |cands| < 2 then None
    else if override then Some((cands[0], cands[1]))
    else FirstPair(cands, SaysYes(row, aid1), SaysYesBeside(row, aid2))
  }

  /** Ask with the whole list; drop the head while ushauth names somebody who is not in it. */
  function AskAll(cands: seq<Id>, aid: Id, avail: Question -> Answer): Option<Id> {
    if cands == [] then None
    else
      match avail(Question(aid, cands, None))
      case No => None
      case Yes(t) => if t in cands then Some(t) else AskAll(cands[1..], aid, avail)
  }

  function PickSingle(cfg: Config, row: Row, relax: bool, aid: Id, log: Log): Option<Id> {
    var cands := Candidates(log, row, false);
    if cands == [] then None
    else if cfg.ignoreAvailability || relax then Some(cands[0])
    else AskAll(cands, aid, row.avail)
  }

  datatype Outcome = Outcome(log: Log, placed: bool)

  function HowOf(cfg: Config, row: Row, relax: bool): How {
    How(ShapeOf(row), !relax && !cfg.ignoreAvailability)
  }

  function BookSingle(cfg: Config, row: Row, relax: bool, t: Id, aid: Id, log: Log): Outcome {
    var how := HowOf(cfg, row, relax);
    if cfg.execute && row.conflict(relax, aid, [t]) then Outcome(log + [Marked(t, row.slot, how)], false)
    else Outcome(log + [Placed(t, aid, row.slot, how)], true)
  }

  function BookPair(cfg: Config, row: Row, relax: bool, t1: Id, aid1: Id, t2: Id, aid2: Id, log: Log): Outcome {
    var how := HowOf(cfg, row, relax);
    if cfg.execute && row.conflict(relax, aid1, [t1, t2]) then
      Outcome(log + [Marked(t1, row.slot, how)] + [Marked(t2, row.slot, how)], false)
    else
      Outcome(log + [Placed(t1, aid1, row.slot, how)] + [Placed(t2, aid2, row.slot, how)], true)
  }

  predicate Admits(cfg: Config, row: Row, relax: bool, aid: Id, units: nat, log: Log) {
    relax || cfg.ignoreAvailability || Overlaps(RoomSlots(log, aid), row.slot) + units <= Capacity(cfg, aid)
  }

  function AdmitsOne(cfg: Config, row: Row, relax: bool, log: Log): Room -> bool {
    (r: Room) => Admits(cfg, row, relax, r.id, 1, log)
  }

  function TryRoom(cfg: Config, row: Row, relax: bool, aid: Id, log: Log): Outcome {
    if !Admits(cfg, row, relax, aid, if row.isCouple then 2 else 1, log) then Outcome(log, false)
    else if row.isCouple then
      match PickPair(cfg, row, relax, aid, aid, log)
      case None => Outcome(log, false)
      case Some(p) => BookPair(cfg, row, relax, p.0, aid, p.1, aid, log)
    else
      match PickSingle(cfg, row, relax, aid, log)
      case None => Outcome(log, false)
      case Some(t) => BookSingle(cfg, row, relax, t, aid, log)
  }

  function TryRooms(cfg: Config, row: Row, relax: bool, rooms: seq<Room>, log: Log): Outcome {
    if rooms == [] then Outcome(log, false)
    else
      var o := TryRoom(cfg, row, relax, rooms[0].id, log);
      if o.placed then o else TryRooms(cfg, row, relax, rooms[1..], o.log)
  }

  function TryJapanese(cfg: Config, row: Row, relax: bool, rooms: seq<Room>, log: Log): Outcome {
    var free := FirstTwo(Filter(rooms, AdmitsOne(cfg, row, relax, log)));
    if |free| < 2 then Outcome(log, false)
    else
      match PickPair(cfg, row, relax, free[0].id, free[1].id, log)
      case None => Outcome(log, false)
      case Some(p) => BookPair(cfg, row, relax, p.0, free[0].id, p.1, free[1].id, log)
  }

  function TryPass(cfg: Config, row: Row, relax: bool, log: Log): Outcome {
    var rooms := RoomsToTry(cfg, row);
    if ShapeOf(row).Japanese? then TryJapanese(cfg, row, relax, rooms, log)
    else TryRooms(cfg, row, relax, if relax then SortBy(rooms, LoadOf(log, row.slot)) else rooms, log)
  }

  function PlaceRow(cfg: Config, row: Row, log: Log): Outcome {
    if Rejected(cfg, row) then Outcome(log, false)
    else
      var strict := TryPass(cfg, row, false, log);
      if strict.placed then strict else TryPass(cfg, row, true, strict.log)
  }

  function PlaceAll(cfg: Config, rows: seq<Row>, log: Log): Log {
    if rows == [] then log else PlaceAll(cfg, rows[1..], PlaceRow(cfg, rows[0], log).log)
  }

  // One step of each search, counted by position.

  lemma {:induction false} FilterNext<T>(xs: seq<T>, keep: T -> bool, i: nat)
    requires i < |xs|
    ensures Filter(xs[i..], keep) ==
            if keep(xs[i]) then [xs[i]] + Filter(xs[i + 1..], keep) else Filter(xs[i + 1..], keep)
  {
    assert xs[i..][1..] == xs[i + 1..];
  }

  function First<T>(xs: seq<T>): Option<T> {
    if xs == [] then None else Some(xs[0])
  }

  lemma {:induction false} FirstNext<T>(xs: seq<T>, keep: T -> bool, i: nat)
    requires i < |xs|
    ensures First(Filter(xs[i..], keep)) == if keep(xs[i]) then Some(xs[i]) else First(Filter(xs[i + 1..], keep))
  {
    FilterNext(xs, keep, i);
  }

  lemma {:induction false} FirstPairNext<T>(cands: seq<T>, first: T -> bool, second: (T, T) -> bool, i: nat)
    requires i < |cands|
    ensures var partners := Filter(cands[i + 1..], Beside(second, cands[i]));
            FirstPair(cands[i..], first, second) ==
            if first(cands[i]) && partners != [] then Some((cands[i], partners[0]))
            else FirstPair(cands[i + 1..], first, second)
  {
    assert cands[i..][1..] == cands[i + 1..];
  }

  lemma {:induction false} TryRoomsNext(cfg: Config, row: Row, relax: bool, rooms: seq<Room>, i: nat, log: Log)
    requires i < |rooms|
    ensures var o := TryRoom(cfg, row, relax, rooms[i].id, log);
            TryRooms(cfg, row, relax, rooms[i..], log) ==
            if o.placed then o else TryRooms(cfg, row, relax, rooms[i + 1..], o.log)
  {
    assert rooms[i..][1..] == rooms[i + 1..];
  }

  // The importer itself, updating the ledger in place.

  method LeastBooked(ledger: Ledger, row: Row, override: bool) returns (cands: seq<Id>)
    requires ledger.Valid()
    ensures cands == Candidates(ledger.log, row, override)
  {
    var m, slot := ledger.therapist, row.slot;
    var free := row.pool;
    if !override {
      free := Filter(row.pool, t => !Busy(SlotsOf(m, t), slot));
      FilterSame(row.pool, t => !Busy(SlotsOf(m, t), slot), FreeOf(ledger.log, slot));
    }
    cands := SortBy(free, t => Minutes(SlotsOf(m, t)));
    SortSame(free, t => Minutes(SlotsOf(m, t)), MinutesOf(ledger.log));
  }

  /** The inner loop: the first accepted therapist from position `start` on. */
  method SearchPartner(cands: seq<Id>, start: nat, accepts: Id -> bool) returns (partner: Option<Id>)
    requires start <= |cands|
    ensures partner == First(Filter(cands[start..], accepts))
  {
    var j := start;
    while j < |cands|
      invariant start <= j <= |cands|
      invariant First(Filter(cands[start..], accepts)) == First(Filter(cands[j..], accepts))
    {
      FirstNext(cands, accepts, j);
      if accepts(cands[j]) {
        return Some(cands[j]);
      }
      j := j + 1;
    }
    return None;
  }

  /** The nested search shared by `_pick_two_therapists` and the Japanese picker. */
  method SearchPair(cands: seq<Id>, first: Id -> bool, second: (Id, Id) -> bool) returns (pair: Option<(Id, Id)>)
    ensures pair == FirstPair(cands, first, second)
  {
    var i := 0;
    while i < |cands|
      invariant i <= |cands|
      invariant FirstPair(cands, first, second) == FirstPair(cands[i..], first, second)
    {
      FirstPairNext(cands, first, second, i);
      if first(cands[i]) {
        var partner := SearchPartner(cands, i + 1, Beside(second, cands[i]));
        if partner.Some? {
          return Some((cands[i], partner.value));
        }
      }
      i := i + 1;
    }
    return None;
  }

  method PickTwoTherapists(cfg: Config, row: Row, relax: bool, aid1: Id, aid2: Id, ledger: Ledger)
    returns (pair: Option<(Id, Id)>)
    requires ledger.Valid()
    ensures pair == PickPair(cfg, row, relax, aid1, aid2, ledger.log)
  {
    var override := relax || cfg.ignoreAvailability;
    var cands := LeastBooked(ledger, row, override);
    if |cands| < 2 {
      return None;
    }
    if override {
      return Some((cands[0], cands[1]));
    }
    pair := SearchPair(cands, SaysYes(row, aid1), SaysYesBeside(row, aid2));
  }

  method PickOneTherapist(cfg: Config, row: Row, relax: bool, aid: Id, ledger: Ledger) returns (chosen: Option<Id>)
    requires ledger.Valid()
    ensures chosen == PickSingle(cfg, row, relax, aid, ledger.log)
  {
    var cands := LeastBooked(ledger, row, false);
    ghost var all := cands;
    chosen := None;
    while cands != []
      invariant chosen.None?
      invariant cands != [] && (cfg.ignoreAvailability || relax) ==> cands == all
      invariant !(cfg.ignoreAvailability || relax) ==> AskAll(all, aid, row.avail) == AskAll(cands, aid, row.avail)
      invariant (cfg.ignoreAvailability || relax) && all != [] ==> cands == all
      decreases |cands|
    {
      if cfg.ignoreAvailability || relax {
        return Some(cands[0]);
      }
      match row.avail(Question(aid, cands, None)) {
        case No =>
          return None;
        case Yes(t) =>
          if t in cands {
            return Some(t);
          }
      }
      cands := cands[1..];
    }
  }

  method BookOne(cfg: Config, row: Row, relax: bool, t: Id, aid: Id, ledger: Ledger) returns (placed: bool)
    requires ledger.Valid()
    modifies ledger
    ensures ledger.Valid() && Outcome(ledger.log, placed) == BookSingle(cfg, row, relax, t, aid, old(ledger.log))
  {
    if cfg.execute && row.conflict(relax, aid, [t]) {
      ledger.MarkBusy(t, row.slot, HowOf(cfg, row, relax));
      return false;
    }
    ledger.Add(t, aid, row.slot, HowOf(cfg, row, relax));
    return true;
  }

  method BookTwo(cfg: Config, row: Row, relax: bool, t1: Id, aid1: Id, t2: Id, aid2: Id, ledger: Ledger)
    returns (placed: bool)
    requires ledger.Valid()
    modifies ledger
    ensures ledger.Valid()
    ensures Outcome(ledger.log, placed) == BookPair(cfg, row, relax, t1, aid1, t2, aid2, old(ledger.log))
  {
    if cfg.execute && row.conflict(relax, aid1, [t1, t2]) {
      ledger.MarkBusy(t1, row.slot, HowOf(cfg, row, relax));
      ledger.MarkBusy(t2, row.slot, HowOf(cfg, row, relax));
      return false;
    }
    ledger.Add(t1, aid1, row.slot, HowOf(cfg, row, relax));
    ledger.Add(t2, aid2, row.slot, HowOf(cfg, row, relax));
    return true;
  }

  method TryOneRoom(cfg: Config, row: Row, relax: bool, aid: Id, ledger: Ledger) returns (placed: bool)
    requires ledger.Valid()
    modifies ledger
    ensures ledger.Valid() && Outcome(ledger.log, placed) == TryRoom(cfg, row, relax, aid, old(ledger.log))
  {
    if !relax && !cfg.ignoreAvailability {
      var required := if row.isCouple then 2 else 1;
      if ledger.ArrangementLoad(aid, row.slot) + required > Capacity(cfg, aid) {
        return false;
      }
    }
    if row.isCouple {
      var pair := PickTwoTherapists(cfg, row, relax, aid, aid, ledger);
      if pair.None? {
        return false;
      }
      placed := BookTwo(cfg, row, relax, pair.value.0, aid, pair.value.1, aid, ledger);
    } else {
      var chosen := PickOneTherapist(cfg, row, relax, aid, ledger);
      if chosen.None? {
        return false;
      }
      placed := BookOne(cfg, row, relax, chosen.value, aid, ledger);
    }
  }

  method TryEachRoom(cfg: Config, row: Row, relax: bool, rooms: seq<Room>, ledger: Ledger) returns (placed: bool)
    requires ledger.Valid()
    modifies ledger
    ensures ledger.Valid() && Outcome(ledger.log, placed) == TryRooms(cfg, row, relax, rooms, old(ledger.log))
  {
    placed := false;
    var i := 0;
    while i < |rooms|
      invariant i <= |rooms| && ledger.Valid() && !placed
      invariant TryRooms(cfg, row, relax, rooms, old(ledger.log)) == TryRooms(cfg, row, relax, rooms[i..], ledger.log)
    {
      TryRoomsNext(cfg, row, relax, rooms, i, ledger.log);
      placed := TryOneRoom(cfg, row, relax, rooms[i].id, ledger);
      if placed {
        return;
      }
      i := i + 1;
    }
  }

  /** The room loop of the Japanese picker: it stops at two. */
  method FirstTwoFree(rooms: seq<Room>, hasSpace: Room -> bool) returns (free: seq<Room>)
    ensures free == FirstTwo(Filter(rooms, hasSpace))
  {
    free := [];
    var i := 0;
    while i < |rooms| && |free| < 2
      invariant i <= |rooms| && |free| <= 2
      invariant Filter(rooms, hasSpace) == free + Filter(rooms[i..], hasSpace)
    {
      FilterNext(rooms, hasSpace, i);
      if hasSpace(rooms[i]) {
        MoveOne(free, rooms[i], Filter(rooms[i + 1..], hasSpace));
        free := free + [rooms[i]];
      }
      i := i + 1;
    }
    TwoOrAll(free, Filter(rooms[i..], hasSpace));
  }

  lemma {:induction false} MoveOne<T>(taken: seq<T>, x: T, rest: seq<T>)
    ensures taken + ([x] + rest) == (taken + [x]) + rest
  {
  }

  lemma {:induction false} TwoOrAll<T>(taken: seq<T>, rest: seq<T>)
    requires |taken| == 2 || (|taken| < 2 && rest == [])
    ensures FirstTwo(taken + rest) == taken
  {
    if |taken| == 2 {
      assert (taken + rest)[..2] == taken;
    }
  }

  /** A relaxed pass that finds fewer than two falls back on the first two rooms: the same rooms, all being admitted. */
  method PickJapaneseRooms(cfg: Config, row: Row, relax: bool, rooms: seq<Room>, ledger: Ledger)
    returns (free: seq<Room>)
    requires ledger.Valid()
    ensures free == FirstTwo(Filter(rooms, AdmitsOne(cfg, row, relax, ledger.log)))
  {
    var m := ledger.arrangement;
    var hasSpace := (r: Room) =>
      relax || cfg.ignoreAvailability || Overlaps(SlotsOf(m, r.id), row.slot) < Capacity(cfg, r.id);
    FilterSame(rooms, hasSpace, AdmitsOne(cfg, row, relax, ledger.log));
    free := FirstTwoFree(rooms, hasSpace);
    if |free| < 2 && relax {
      FilterAll(rooms, hasSpace);
      free := FirstTwo(rooms);
    }
  }

  method TryTwoJapaneseRooms(cfg: Config, row: Row, relax: bool, rooms: seq<Room>, ledger: Ledger)
    returns (placed: bool)
    requires ledger.Valid()
    modifies ledger
    ensures ledger.Valid() && Outcome(ledger.log, placed) == TryJapanese(cfg, row, relax, rooms, old(ledger.log))
  {
    var free := PickJapaneseRooms(cfg, row, relax, rooms, ledger);
    if |free| < 2 {
      return false;
    }
    var pair := PickTwoTherapists(cfg, row, relax, free[0].id, free[1].id, ledger);
    if pair.None? {
      return false;
    }
    placed := BookTwo(cfg, row, relax, pair.value.0, free[0].id, pair.value.1, free[1].id, ledger);
  }

  method Place(cfg: Config, row: Row, ledger: Ledger) returns (placed: bool)
    requires ledger.Valid()
    modifies ledger
    ensures ledger.Valid() && Outcome(ledger.log, placed) == PlaceRow(cfg, row, old(ledger.log))
  {
    placed := false;
    if Rejected(cfg, row) {
      return;
    }
    var rooms := RoomsToTry(cfg, row);
    if ShapeOf(row).Japanese? {
      placed := TryTwoJapaneseRooms(cfg, row, false, rooms, ledger);
      if !placed {
        placed := TryTwoJapaneseRooms(cfg, row, true, rooms, ledger);
      }
    } else {
      placed := TryEachRoom(cfg, row, false, rooms, ledger);
      if !placed {
        var m, slot := ledger.arrangement, row.slot;
        var load := (r: Room) => Overlaps(SlotsOf(m, r.id), slot) as int;
        SortSame(rooms, load, LoadOf(ledger.log, slot));
        placed := TryEachRoom(cfg, row, true, SortBy(rooms, load), ledger);
      }
    }
  }

  /** The placement part of `run`: every row in file order against one ledger. */
  method PlaceEveryRow(cfg: Config, rows: seq<Row>, ledger: Ledger)
    requires ledger.Valid()
    modifies ledger
    ensures ledger.Valid() && ledger.log == PlaceAll(cfg, rows, old(ledger.log))
  {
    var i := 0;
    while i < |rows|
      invariant i <= |rows| && ledger.Valid()
      invariant PlaceAll(cfg, rows, old(ledger.log)) == PlaceAll(cfg, rows[i..], ledger.log)
    {
      assert rows[i..][1..] == rows[i + 1..];
      var _ := Place(cfg, rows[i], ledger);
      i := i + 1;
    }
  }
}
