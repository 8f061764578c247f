/** The rate-limit middleware: one counter per key whose expiry every request pushes forward. */
module RateLimiter {
  import opened Seqs

  type Key = string

  datatype Counter = Counter(count: nat, expires: int)

  datatype Decision = Admitted(remaining: nat) | TooManyRequests

  /** The position of the last request in its burst: gaps shorter than the window keep a burst going. */
  function Position(times: seq<int>, window: int): nat {
    if times == [] then 0
    else if |times| == 1 || times[|times| - 1] - times[|times| - 2] >= window then 1
    else Position(times[..|times| - 1], window) + 1
  }

  ghost predicate Chronological(times: seq<int>) {
    forall i, j :: 0 <= i <= j < |times| ==> times[i] <= times[j]
  }

  ghost function TimesOf(arrivals: map<Key, seq<int>>, key: Key): seq<int> {
    if key in arrivals then arrivals[key] else []
  }

  /** The stored counter of a key whose requests came at `times`. */
  ghost predicate Tracks(c: Counter, times: seq<int>, window: int, clock: int) {
    && times != []
    && Chronological(times)
    && times[|times| - 1] <= clock
    && c == Counter(Position(times, window), times[|times| - 1] + window)
  }

  lemma {:induction false} TracksNext(c: Counter, times: seq<int>, window: int, clock: int, now: int)
    requires times == [] || Tracks(c, times, window, clock)
    requires clock <= now
    ensures var count := if times != [] && now < c.expires then c.count + 1 else 1;
            count == Position(times + [now], window) && Tracks(Counter(count, now + window), times + [now], window, now)
  {
    PositionNext(times, now, window);
    ChronologicalNext(times, now);
  }

  class RateLimitMiddleware {
    const limit: nat
    const window: int
    var store: map<Key, Counter>
    ghost var arrivals: map<Key, seq<int>>
    ghost var clock: int

    ghost predicate Valid()
      reads this
    {
      && window > 0
      && store.Keys == arrivals.Keys
      && forall key <- arrivals :: Tracks(store[key], arrivals[key], window, clock)
    }

    constructor (limit: nat, window: int)
      requires window > 0
      ensures Valid() && this.limit == limit && this.window == window && arrivals == map[]
    {
      this.limit, this.window := limit, window;
      store, arrivals := map[], map[];
    }

    /** INCR then EXPIRE in one transaction; an expired counter starts again from nothing. */
    method Increment(key: Key, now: int) returns (count: nat)
      modifies this`store
      ensures count == if key in old(store) && now < old(store)[key].expires then old(store)[key].count + 1 else 1
      ensures store == old(store)[key := Counter(count, now + window)]
    {
      count := if key in store && now < store[key].expires then store[key].count + 1 else 1;
      store := store[key := Counter(count, now + window)];
    }

    /** A request is admitted iff its position in the key's current burst is within the limit. */
    method Dispatch(key: Key, now: int) returns (d: Decision)
      requires Valid() && clock <= now
      modifies this
      ensures Valid() && clock == now
      ensures arrivals == old(arrivals)[key := TimesOf(old(arrivals), key) + [now]]
      ensures d == if Position(arrivals[key], window) <= limit
                   then Admitted(limit - Position(arrivals[key], window))
                   else TooManyRequests
      ensures forall b: nat | OpensLastBurst(arrivals[key], window, b) ::
                var taken := |arrivals[key]| - b;
                d == if taken <= limit then Admitted(limit - taken) else TooManyRequests
    {
      ghost var c := if key in store then store[key] else Counter(0, now);
      var count := Increment(key, now);
      ghost var before := TimesOf(arrivals, key);
      ghost var times := before + [now];
      clock := now;
      arrivals := arrivals[key := times];
      TracksNext(c, before, window, old(clock), now);
      assert count == Position(times, window) && arrivals[key] == times;
      assert Tracks(store[key], times, window, clock);
      assert forall k <- arrivals :: k != key ==> Tracks(store[k], arrivals[k], window, old(clock));
      LastBurstIsCounted(times, window);
      if count > limit {
        return TooManyRequests;
      }
      return Admitted(if limit - count > 0 then limit - count else 0);
    }
  }

  lemma {:induction false} PositionNext(times: seq<int>, now: int, window: int)
    ensures Position(times + [now], window) ==
            if times == [] || now - times[|times| - 1] >= window then 1 else Position(times, window) + 1
  {
    assert (times + [now])[..|times|] == times;
  }

  lemma {:induction false} ChronologicalNext(times: seq<int>, now: int)
    requires Chronological(times) && (times != [] ==> times[|times| - 1] <= now)
    ensures Chronological(times + [now])
  {
    assert forall i :: 0 <= i < |times| ==> times[i] <= times[|times| - 1];
  }

  // Which requests of one key are admitted.

  ghost predicate Admits(times: seq<int>, window: int, limit: nat, i: nat)
    requires i < |times|
  {
    Position(times[..i + 1], window) <= limit
  }

  /** `b` opens the burst `i` belongs to. */
  ghost predicate OpensBurst(times: seq<int>, window: int, b: nat, i: nat)
    requires b <= i < |times|
  {
    && (b == 0 || times[b] - times[b - 1] >= window)
    && forall k :: b < k <= i ==> times[k] - times[k - 1] < window
  }

  /** The burst of the last request began with request `b`. */
  ghost predicate OpensLastBurst(times: seq<int>, window: int, b: nat) {
    b < |times| && OpensBurst(times, window, b, |times| - 1)
  }

  lemma {:induction false} LastBurstIsCounted(times: seq<int>, window: int)
    ensures forall b: nat | OpensLastBurst(times, window, b) :: Position(times, window) == |times| - b
  {
    assert times[..|times|] == times;
    forall b: nat | OpensLastBurst(times, window, b)
      ensures Position(times, window) == |times| - b
    {
      BurstRank(times, window, b, |times| - 1);
    }
  }

  /** The counter is the rank of the request within its burst. */
  lemma {:induction false} PositionIsRankInBurst(times: seq<int>, window: int, i: nat) returns (b: nat)
    requires i < |times|
    ensures b <= i && OpensBurst(times, window, b, i)
    ensures Position(times[..i + 1], window) == i - b + 1
  {
    var upto := times[..i + 1];
    if i == 0 || times[i] - times[i - 1] >= window {
      b := i;
    } else {
      b := PositionIsRankInBurst(times, window, i - 1);
      assert upto[..|upto| - 1] == times[..i];
    }
  }

  lemma {:induction false} PositionWithinBurst(times: seq<int>, window: int, i: nat, j: nat)
    requires i <= j < |times| && forall k :: i < k <= j ==> times[k] - times[k - 1] < window
    ensures Position(times[..j + 1], window) == Position(times[..i + 1], window) + j - i
  {
    if i < j {
      PositionWithinBurst(times, window, i, j - 1);
      assert times[..j + 1][..j] == times[..j];
    }
  }

  ghost function AdmittedIn(times: seq<int>, window: int, limit: nat, from: int): set<nat> {
    set i: nat | i < |times| && from <= times[i] < from + window && Admits(times, window, limit, i)
  }

  function Range(lo: nat, hi: nat): (s: set<nat>)
    requires lo <= hi
    ensures |s| == hi - lo
    ensures forall i :: i in s <==> lo <= i < hi
    decreases hi
  {
    if lo == hi then {} else Range(lo, hi - 1) + {hi - 1}
  }

  /** No half-open window of the configured length, wherever it starts, admits more than the limit. */
  lemma {:induction false} WindowAdmitsAtMostLimit(times: seq<int>, window: int, limit: nat, from: int)
    requires Chronological(times)
    ensures |AdmittedIn(times, window, limit, from)| <= limit
  {
    var admitted := AdmittedIn(times, window, limit, from);
    if admitted != {} {
      var first := Least(admitted);
      forall i | i in admitted
        ensures first <= i < first + limit
      {
        PositionWithinBurst(times, window, first, i);
        var _ := PositionIsRankInBurst(times, window, first);
      }
      SubsetSize(admitted, Range(first, first + limit));
    }
  }

  lemma {:induction false} Least(s: set<nat>) returns (m: nat)
    requires s != {}
    ensures m in s && forall i <- s :: m <= i
  {
    m :| m in s;
    if s != {m} {
      var rest := Least(s - {m});
      assert forall i <- s :: i == m || i in s - {m};
      m := if rest < m then rest else m;
    }
  }

  /** After a full window of silence the next request is the first of a burst. */
  lemma {:induction false} AdmittedAfterSilence(times: seq<int>, window: int, limit: nat, i: nat)
    requires i < |times| && (i > 0 ==> times[i] - times[i - 1] >= window)
    ensures Admits(times, window, limit, i) <==> limit >= 1
  {
    var _ := PositionIsRankInBurst(times, window, i);
  }

  /** Rejected requests count too: once rejected, a key stays rejected until a full window passes in silence. */
  lemma {:induction false} RejectedUntilSilence(times: seq<int>, window: int, limit: nat, i: nat, j: nat)
    requires i <= j < |times| && !Admits(times, window, limit, i)
    ensures Admits(times, window, limit, j) ==> exists k :: i < k <= j && times[k] - times[k - 1] >= window
  {
    if forall k :: i < k <= j ==> times[k] - times[k - 1] < window {
      PositionWithinBurst(times, window, i, j);
    }
  }

  // Against the sliding window the documentation names.

  /** The requests of the last window before and including request `i`. */
  ghost function Recent(times: seq<int>, window: int, i: nat): set<nat>
    requires i < |times|
  {
    set j: nat | j <= i && times[j] > times[i] - window
  }

  /** The counter never undercounts a sliding window, so what it admits a sliding window admits too. */
  lemma {:induction false} SlidingWindowAdmitsMore(times: seq<int>, window: int, limit: nat, i: nat)
    requires Chronological(times) && i < |times| && window > 0
    ensures |Recent(times, window, i)| <= Position(times[..i + 1], window)
    ensures Admits(times, window, limit, i) ==> |Recent(times, window, i)| <= limit
  {
    var b := PositionIsRankInBurst(times, window, i);
    assert b > 0 ==> times[b - 1] <= times[i] - window;
    SubsetSize(Recent(times, window, i), Range(b, i + 1));
  }

  /**
   * The two agree on request `i`, for every limit, exactly when the whole burst lies inside the last window:
   * a caller can check that from the time the burst began.
   */
  lemma {:induction false} AgreesWithSlidingWindowIff(times: seq<int>, window: int, b: nat, i: nat)
    requires Chronological(times) && b <= i < |times| && window > 0 && OpensBurst(times, window, b, i)
    ensures (forall limit: nat :: Admits(times, window, limit, i) <==> |Recent(times, window, i)| <= limit) <==>
            times[i] - times[b] < window
  {
    SlidingWindowAdmitsMore(times, window, 0, i);
    BurstRank(times, window, b, i);
    var recent := Recent(times, window, i);
    var burst := Range(b, i + 1);
    if times[i] - times[b] < window {
      assert burst <= recent;
      SubsetSize(burst, recent);
    } else {
      SubsetSize(recent, Range(b + 1, i + 1));
      assert !Admits(times, window, |recent|, i);
    }
  }

  /** Three requests half a minute apart: the counter rejects the third, of which a sliding window sees only two. */
  lemma {:induction false} SteadyRequestsAreRejected()
    ensures var times := [0, 30, 60];
            Chronological(times) && !Admits(times, 60, 2, 2) && |Recent(times, 60, 2)| == 2
  {
    var times := [0, 30, 60];
    BurstRank(times, 60, 0, 2);
    assert Recent(times, 60, 2) == {1, 2};
  }

  lemma {:induction false} BurstRank(times: seq<int>, window: int, b: nat, i: nat)
    requires b <= i < |times| && OpensBurst(times, window, b, i)
    ensures Position(times[..i + 1], window) == i - b + 1
  {
    PositionWithinBurst(times, window, b, i);
    var c := PositionIsRankInBurst(times, window, b);
    assert c == b;
  }
}
