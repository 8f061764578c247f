/** The gift code check with its attempt counter and lock. Times are in seconds. */
module Lockout {
  import opened Seqs

  const MAX_ATTEMPTS := 5
  const LOCKOUT_SECONDS := 15 * 60

  datatype Answer = Claimed | WrongCode | NotClaimable | Locked

  /** One submission: whether the hash matches, and the up to three clock readings the check makes, in order. */
  datatype Submission = Submission(matches: bool, checked: int, stamped: int, locked: int)

  /** The purchase's status, the verification record, and the history of counted wrong codes. */
  datatype State = State(
    status: string, attempts: nat, lockedUntil: Option<int>, lastAttempt: Option<int>, wrong: seq<int>)

  predicate IsLocked(s: State, now: int) {
    s.lockedUntil.Some? && s.lockedUntil.value > now
  }

  function Reply(s: State, c: Submission): Answer {
    if s.status != "ACTIVE" && s.status != "CLAIMED" then NotClaimable
    else if IsLocked(s, c.checked) then Locked
    else if c.matches then Claimed
    else WrongCode
  }

  function Verified(s: State, c: Submission): State {
    match Reply(s, c)
    case NotClaimable => s
    case Locked => s
    case Claimed => s.(status := "CLAIMED")
    case WrongCode =>
      s.(attempts := s.attempts + 1,
      lastAttempt := Some(c.stamped),
      lockedUntil := if s.attempts + 1 >= MAX_ATTEMPTS then Some(c.locked + LOCKOUT_SECONDS) else s.lockedUntil,
      wrong := s.wrong + [c.stamped])
  }

  /** Between submissions other code may move the purchase to any status. */
  datatype Event = Submit(c: Submission) | SetStatus(status: string)

  function Step(s: State, e: Event): State {
    match e
    case Submit(c) => Verified(s, c)
    case SetStatus(status) => s.(status := status)
  }

  function Run(s: State, events: seq<Event>): State {
    if events == [] then s
    else Step(Run(s, events[..|events| - 1]), events[|events| - 1])
  }

  function Start(status: string): State {
    State(status, 0, None, None, [])
  }

  class Verification {
    var status: string
    var attemptCount: nat
    var lockedUntil: Option<int>
    var lastAttemptAt: Option<int>
    ghost var wrong: seq<int>

    ghost function Now(): State
      reads this
    {
      State(status, attemptCount, lockedUntil, lastAttemptAt, wrong)
    }

    constructor (status: string)
      ensures Now() == Start(status)
    {
      this.status, attemptCount, lockedUntil, lastAttemptAt, wrong := status, 0, None, None, [];
    }

    method VerifySecretCode(c: Submission) returns (answer: Answer)
      modifies this
      ensures answer == Reply(old(Now()), c) && Now() == Verified(old(Now()), c)
    {
      if status != "ACTIVE" && status != "CLAIMED" {
        return NotClaimable;
      }
      if lockedUntil.Some? && lockedUntil.value > c.checked {
        return Locked;
      }
      if c.matches {
        status := "CLAIMED";
        return Claimed;
      }
      attemptCount := attemptCount + 1;
      lastAttemptAt := Some(c.stamped);
      wrong := wrong + [c.stamped];
      if attemptCount >= MAX_ATTEMPTS {
        lockedUntil := Some(c.locked + LOCKOUT_SECONDS);
      }
      return WrongCode;
    }
  }

  // The clock: readings never go back, within a submission and from one to the next.

  predicate ClockFrom(t: int, e: Event) {
    e.Submit? ==> t <= e.c.checked <= e.c.stamped <= e.c.locked
  }

  function Latest(t: int, events: seq<Event>): int {
    if events == [] then t
    else if events[|events| - 1].Submit? then events[|events| - 1].c.locked
    else Latest(t, events[..|events| - 1])
  }

  predicate Clocked(t: int, events: seq<Event>) {
    events == [] ||
    (Clocked(t, events[..|events| - 1]) &&
     ClockFrom(Latest(t, events[..|events| - 1]), events[|events| - 1]))
  }

  // What every run keeps.

  predicate Spaced(wrong: seq<int>) {
    && (forall i, j :: 0 <= i < j < |wrong| ==> wrong[i] <= wrong[j])
    && (forall k :: MAX_ATTEMPTS <= k < |wrong| ==> wrong[k] >= wrong[k - 1] + LOCKOUT_SECONDS)
  }

  predicate Kept(s: State, t: int) {
    && s.attempts == |s.wrong|
    && Spaced(s.wrong)
    && (s.wrong != [] ==> s.wrong[|s.wrong| - 1] <= t)
    && s.lastAttempt == (if s.wrong == [] then None else Some(s.wrong[|s.wrong| - 1]))
    && (if s.attempts < MAX_ATTEMPTS then s.lockedUntil.None?
        else s.lockedUntil.Some? && s.lockedUntil.value >= s.wrong[|s.wrong| - 1] + LOCKOUT_SECONDS)
    && (s.lockedUntil.Some? ==> s.lockedUntil.value <= t + LOCKOUT_SECONDS)
  }

  lemma {:induction false} StepKeeps(s: State, t: int, e: Event)
    requires Kept(s, t) && ClockFrom(t, e)
    ensures Kept(Step(s, e), if e.Submit? then e.c.locked else t)
  {
    if e.Submit? && Reply(s, e.c).WrongCode? {
      SpacedNext(s.wrong, e.c.stamped);
    }
  }

  lemma {:induction false} SpacedNext(wrong: seq<int>, at: int)
    requires Spaced(wrong)
    requires wrong != [] ==> wrong[|wrong| - 1] <= at
    requires |wrong| >= MAX_ATTEMPTS ==> wrong[|wrong| - 1] + LOCKOUT_SECONDS <= at
    ensures Spaced(wrong + [at])
  {
    assert forall i :: 0 <= i < |wrong| ==> wrong[i] <= wrong[|wrong| - 1];
  }

  lemma {:induction false} EveryRunIsKept(status: string, t: int, events: seq<Event>)
    requires Clocked(t, events)
    ensures Kept(Run(Start(status), events), Latest(t, events))
  {
    if events != [] {
      var front := events[..|events| - 1];
      EveryRunIsKept(status, t, front);
      StepKeeps(Run(Start(status), front), Latest(t, front), events[|events| - 1]);
    }
  }

  // The limits.

  lemma {:induction false} LateOnesAreSpaced(wrong: seq<int>, k: nat)
    requires Spaced(wrong) && MAX_ATTEMPTS <= k < |wrong|
    ensures wrong[k] >= wrong[0] + (k - MAX_ATTEMPTS + 1) * LOCKOUT_SECONDS
  {
    assert wrong[k] >= wrong[k - 1] + LOCKOUT_SECONDS;
    if k > MAX_ATTEMPTS {
      LateOnesAreSpaced(wrong, k - 1);
    } else {
      assert wrong[0] <= wrong[k - 1];
    }
  }

  lemma {:induction false} LateOnesAreApart(wrong: seq<int>)
    requires Spaced(wrong)
    ensures forall i, j :: 0 <= i < j < |wrong| && MAX_ATTEMPTS <= j ==> wrong[j] >= wrong[i] + LOCKOUT_SECONDS
  {
    forall i, j | 0 <= i < j < |wrong| && MAX_ATTEMPTS <= j
      ensures wrong[j] >= wrong[i] + LOCKOUT_SECONDS
    {
      assert wrong[j] >= wrong[j - 1] + LOCKOUT_SECONDS;
      assert i < j - 1 ==> wrong[i] <= wrong[j - 1];
    }
  }

  /** Counted wrong codes that fall within less than fifteen minutes number at most five. */
  lemma {:induction false} AtMostFiveInAnyQuarterHour(status: string, t: int, events: seq<Event>, i: nat, j: nat)
    requires Clocked(t, events)
    requires i <= j < |Run(Start(status), events).wrong|
    requires Run(Start(status), events).wrong[j] - Run(Start(status), events).wrong[i] < 15 * 60
    ensures j - i + 1 <= 5
  {
    EveryRunIsKept(status, t, events);
    LateOnesAreApart(Run(Start(status), events).wrong);
  }

  /** By `elapsed` seconds after the first wrong code, at most five plus one per full quarter hour were counted. */
  lemma {:induction false} TotalIsBounded(status: string, t: int, events: seq<Event>, elapsed: nat, n: nat)
    requires Clocked(t, events)
    requires 0 < n <= |Run(Start(status), events).wrong|
    requires Run(Start(status), events).wrong[n - 1] <= Run(Start(status), events).wrong[0] + elapsed
    ensures n <= 5 + elapsed / (15 * 60)
  {
    EveryRunIsKept(status, t, events);
    if n > MAX_ATTEMPTS {
      LateOnesAreSpaced(Run(Start(status), events).wrong, n - 1);
      assert (n - MAX_ATTEMPTS) * LOCKOUT_SECONDS <= elapsed;
    }
  }

  // The total bound is the best possible.

  function Wrong(at: int): Event {
    Submit(Submission(false, at, at, at))
  }

  /** Five wrong codes at time 0, then one at every full quarter hour. */
  function Persistent(n: nat): seq<Event> {
    if n == 0 then [] else Persistent(n - 1) + [Wrong(TimeOf(n - 1))]
  }

  function TimeOf(k: nat): int {
    if k < MAX_ATTEMPTS then 0 else (k - MAX_ATTEMPTS + 1) * LOCKOUT_SECONDS
  }

  function Times(n: nat): (r: seq<int>)
    ensures |r| == n && forall k :: 0 <= k < n ==> r[k] == TimeOf(k)
  {
    if n == 0 then [] else Times(n - 1) + [TimeOf(n - 1)]
  }

  lemma {:induction false} RunThen(s: State, t: int, events: seq<Event>, e: Event)
    requires Clocked(t, events) && ClockFrom(Latest(t, events), e)
    ensures Run(s, events + [e]) == Step(Run(s, events), e)
    ensures Clocked(t, events + [e]) && (e.Submit? ==> Latest(t, events + [e]) == e.c.locked)
  {
    assert (events + [e])[..|events|] == events;
  }

  /** Every one of these wrong codes is counted, so the bound of `TotalIsBounded` is met with equality. */
  lemma {:induction false} BoundIsReached(n: nat)
    requires n >= 5
    ensures Clocked(0, Persistent(n))
    ensures var wrong := Run(Start("ACTIVE"), Persistent(n)).wrong;
            |wrong| == n == 5 + (wrong[n - 1] - wrong[0]) / (15 * 60)
  {
    PersistentIsClocked(n);
    PersistentRun(n);
    assert (n - MAX_ATTEMPTS) * LOCKOUT_SECONDS / LOCKOUT_SECONDS == n - MAX_ATTEMPTS;
  }

  lemma {:induction false} PersistentIsClocked(n: nat)
    ensures Clocked(0, Persistent(n)) && Latest(0, Persistent(n)) == if n == 0 then 0 else TimeOf(n - 1)
  {
    if n > 0 {
      PersistentIsClocked(n - 1);
      assert n > 1 ==> TimeOf(n - 2) <= TimeOf(n - 1);
      RunThen(Start("ACTIVE"), 0, Persistent(n - 1), Wrong(TimeOf(n - 1)));
    }
  }

  lemma {:induction false} PersistentRun(n: nat)
    ensures Run(Start("ACTIVE"), Persistent(n)) == AllCounted(n)
  {
    if n > 0 {
      PersistentRun(n - 1);
      PersistentIsClocked(n - 1);
      var front, last := Persistent(n - 1), Wrong(TimeOf(n - 1));
      assert (front + [last])[..|front|] == front;
      OneMoreCounted(n - 1);
    }
  }

  /** The state after `n` of them. */
  function AllCounted(n: nat): State {
    State("ACTIVE", n,
          if n < MAX_ATTEMPTS then None else Some(TimeOf(n - 1) + LOCKOUT_SECONDS),
          if n == 0 then None else Some(TimeOf(n - 1)), Times(n))
  }

  lemma {:induction false} OneMoreCounted(n: nat)
    ensures Step(AllCounted(n), Wrong(TimeOf(n))) == AllCounted(n + 1)
  {
    assert !IsLocked(AllCounted(n), TimeOf(n));
  }

  // The lock also shuts out the right code, and always ends.

  /**
    * On a claimable purchase the right code is refused exactly while a lock runs; a lock ends at most fifteen minutes
    * after the last clock reading; and the counter never starts over, so every later wrong code locks again.
    */
  lemma {:induction false} LockDecides(status: string, t: int, events: seq<Event>, c: Submission)
    requires Clocked(t, events) && ClockFrom(Latest(t, events), Submit(c))
    requires Run(Start(status), events).status in {"ACTIVE", "CLAIMED"}
    ensures var s := Run(Start(status), events);
            && (c.matches ==> (Reply(s, c) == Claimed <==> !IsLocked(s, c.checked)))
            && (c.checked >= Latest(t, events) + 15 * 60 ==> Reply(s, c) != Locked)
            && (IsLocked(s, c.checked) ==> |s.wrong| >= 5)
            && (Reply(s, c) == WrongCode && |s.wrong| + 1 >= 5 ==>
                  forall now :: c.locked <= now < c.locked + 15 * 60 ==> IsLocked(Verified(s, c), now))
  {
    EveryRunIsKept(status, t, events);
  }

  // What an answer means.

  /** Only active and claimed purchases are checked; a claim needs the right code; a wrong one is counted. */
  lemma {:induction false} AnswerMeans(s: State, c: Submission)
    ensures s.status != "ACTIVE" && s.status != "CLAIMED" ==> Reply(s, c) == NotClaimable && Verified(s, c) == s
    ensures Reply(s, c) == Claimed ==> c.matches && Verified(s, c) == s.(status := "CLAIMED")
    ensures Reply(s, c) == WrongCode ==>
              !c.matches && Verified(s, c).attempts == s.attempts + 1 && Verified(s, c).status == s.status &&
              Verified(s, c).lastAttempt == Some(c.stamped) && Verified(s, c).wrong == s.wrong + [c.stamped]
    ensures Reply(s, c) == Locked ==> Verified(s, c) == s
    ensures Reply(s, c) == Locked <==>
              s.status in {"ACTIVE", "CLAIMED"} && s.lockedUntil.Some? && c.checked < s.lockedUntil.value
  {
  }

  /** In every run, a purchase that others do not mark as claimed is claimed only by submitting the right code. */
  lemma {:induction false} ClaimedOnlyByCode(status: string, events: seq<Event>)
    requires status != "CLAIMED" && forall e <- events :: e != SetStatus("CLAIMED")
    requires Run(Start(status), events).status == "CLAIMED"
    ensures exists k :: 0 <= k < |events| && events[k].Submit? && events[k].c.matches
  {
    var n := |events| - 1;
    var front := events[..n];
    if Run(Start(status), front).status == "CLAIMED" {
      assert forall e <- front :: e in events;
      ClaimedOnlyByCode(status, front);
      var k :| 0 <= k < |front| && front[k].Submit? && front[k].c.matches;
      assert events[k] == front[k];
    } else {
      assert events[n] in events;
    }
  }
}
