/** Reliable posting of one booking's cache requests to ushauth: the client, the outbox table and its relays. */
module Outbox {
  import opened Seqs

  // What a POST can come back with.

  /** How the HTTP exchange ended. `NoJson`: a 2xx answer whose body does not decode. */
  datatype Http = Response(status: int) | NoJson | TimedOut | ConnectionLost | BrokenAnswer

  /** The exception the caller of `_post` sees. */
  datatype Failure =
    | GatewayTimeout
    | TransportError
    | OtherHttpError
    | NotFound
    | Unauthorized
    | Gateway(upstreamStatus: int)
    | DecodeError

  function Post(h: Http): Option<Failure> {
    match h
    case Response(status) =>
      if 200 <= status < 300 then None
      else if status == 404 then Some(NotFound)
      else if status == 401 || status == 403 then Some(Unauthorized)
      else Some(Gateway(status))
    case NoJson => Some(DecodeError)
    case TimedOut => Some(GatewayTimeout)
    case ConnectionLost => Some(TransportError)
    case BrokenAnswer => Some(OtherHttpError)
  }

  predicate IsRetryable(f: Failure) {
    match f
    case GatewayTimeout => true
    case TransportError => true
    case Gateway(status) => status >= 500 || status == 429
    case _ => false
  }

  /** The relay also retries every other HTTP-level error. */
  predicate RelayRetries(f: Failure) {
    IsRetryable(f) || f.OtherHttpError?
  }

  /** One exchange with ushauth; a request may be applied although its acknowledgement is lost. */
  datatype Delivery = Delivery(http: Http, reached: bool)

  predicate Applies(d: Delivery) {
    d.reached || Post(d.http).None?
  }

  // One booking's world. Requests are numbered in issue order.

  datatype Status = Pending | Delivered | Dead

  datatype OutRow = OutRow(req: nat, status: Status, attempts: nat, due: int, lastError: Option<Failure>)

  /** Where the current `_post_reliable` call stands between two awaits. */
  datatype Call = Idle | Queueing(req: nat) | Sending(req: nat) | Requeueing(req: nat, error: Failure)

  type Relay = nat

  /**
    * A claimed row, held until `until`, with the attempts counter as it was read by the claim and the result of the
    * replay once it was posted.
    */
  datatype Lease = Lease(row: nat, until: int, attempts: nat, result: Option<Delivery>)

  datatype World = World(
    now: int, issued: nat, call: Call, rows: seq<OutRow>, leases: map<Relay, Lease>,
    applied: seq<nat>, refused: set<nat>, lost: set<nat>)

  datatype Config = Config(enabled: bool, maxAttempts: nat)

  const LEASE_SECONDS := 90
  const MAX_BACKOFF_SECONDS := 900

  function Pow2(n: nat): nat {
    if n == 0 then 1 else 2 * Pow2(n - 1)
  }

  function BackoffSeconds(attempts: nat): nat {
    var wait := 10 * Pow2(if attempts == 0 then 0 else attempts - 1);
    if wait < MAX_BACKOFF_SECONDS then wait else MAX_BACKOFF_SECONDS
  }

  predicate HasPending(rows: seq<OutRow>) {
    exists r <- rows :: r.status.Pending?
  }

  predicate OldestPending(rows: seq<OutRow>, i: nat) {
    i < |rows| && rows[i].status.Pending? && forall k :: 0 <= k < i ==> !rows[k].status.Pending?
  }

  datatype Action =
    | Tick(seconds: nat)
    | Issue(checkFails: bool)
    | Send(delivery: Delivery)
    | Enqueue(storeFails: bool)
    | Die
    | Claim(relay: Relay, row: nat)
    | Replay(relay: Relay, delivery: Delivery)
    | Finish(relay: Relay)
    | Crash(relay: Relay)

  function NewRow(req: nat, now: int, error: Option<Failure>): OutRow {
    OutRow(req, Pending, 1, now + BackoffSeconds(1), error)
  }

  predicate GivesUp(cfg: Config, f: Failure, attempts: nat) {
    !RelayRetries(f) || attempts >= cfg.maxAttempts
  }

  /** The row after the relay that claimed it with `attempts` wrote back the result `d`. */
  function Finished(cfg: Config, r: OutRow, attempts: nat, now: int, d: Delivery): OutRow {
    match Post(d.http)
    case None => r.(status := Delivered, lastError := None)
    case Some(f) =>
      var r := r.(attempts := attempts + 1, lastError := Some(f));
      if GivesUp(cfg, f, attempts + 1) then r.(status := Dead)
      else r.(due := now + BackoffSeconds(attempts + 1))
  }

  /** One atomic step of the client, a relay, or the clock; an action that is not enabled changes nothing. */
  function Step(cfg: Config, w: World, a: Action): World {
    match a
    case Tick(seconds) => w.(now := w.now + seconds)
    case Issue(checkFails) =>
      if !w.call.Idle? then w
      else
        w.(issued := w.issued + 1,
        call := if cfg.enabled && !checkFails && HasPending(w.rows) then Queueing(w.issued) else Sending(w.issued))
    case Send(d) =>
      if !w.call.Sending? then w
      else
        var req := w.call.req;
        var w := if Applies(d) then w.(applied := w.applied + [req]) else w;
        if Post(d.http).None? then w.(call := Idle)
        else if cfg.enabled && IsRetryable(Post(d.http).value) then w.(call := Requeueing(req, Post(d.http).value))
        else w.(call := Idle, refused := w.refused + {req})
    case Enqueue(storeFails) =>
      if !w.call.Queueing? && !w.call.Requeueing? then w
      else if storeFails then w.(call := Idle, lost := w.lost + {w.call.req})
      else
        var error := if w.call.Requeueing? then Some(w.call.error) else None;
        w.(call := Idle, rows := w.rows + [NewRow(w.call.req, w.now, error)])
    case Die =>
      if w.call.Idle? then w
      else w.(call := Idle, lost := w.lost + {w.call.req})
    case Claim(relay, i) =>
      if relay !in w.leases && OldestPending(w.rows, i) && w.rows[i].due <= w.now then
        w.(rows := w.rows[i := w.rows[i].(due := w.now + LEASE_SECONDS)],
        leases := w.leases[relay := Lease(i, w.now + LEASE_SECONDS, w.rows[i].attempts, None)])
      else w
    case Replay(relay, d) =>
      if relay in w.leases && w.leases[relay].result.None? && w.leases[relay].row < |w.rows| then
        var w := w.(leases := w.leases[relay := w.leases[relay].(result := Some(d))]);
        if Applies(d) then w.(applied := w.applied + [w.rows[w.leases[relay].row].req]) else w
      else w
    case Finish(relay) =>
      if relay in w.leases && w.leases[relay].result.Some? && w.leases[relay].row < |w.rows| then
        var lease := w.leases[relay];
        w.(rows := w.rows[lease.row := Finished(cfg, w.rows[lease.row], lease.attempts, w.now, lease.result.value)],
        leases := w.leases - {relay})
      else w
    case Crash(relay) => w.(leases := w.leases - {relay})
  }

  function Initial(now: int): World {
    World(now, 0, Idle, [], map[], [], {}, {})
  }

  function Run(cfg: Config, w: World, actions: seq<Action>): World {
    if actions == [] then w
    else Step(cfg, Run(cfg, w, actions[..|actions| - 1]), actions[|actions| - 1])
  }

  lemma {:induction false} RunThen(cfg: Config, w: World, actions: seq<Action>, a: Action)
    ensures Run(cfg, w, actions + [a]) == Step(cfg, Run(cfg, w, actions), a)
  {
    assert (actions + [a])[..|actions|] == actions;
  }

  lemma {:induction false} RunTwo(cfg: Config, w: World, a: Action, b: Action)
    ensures Run(cfg, w, [a, b]) == Step(cfg, Step(cfg, w, a), b)
  {
    assert [] + [a] == [a];
    assert [a] + [b] == [a, b];
    RunThen(cfg, w, [], a);
    RunThen(cfg, w, [a], b);
  }

  lemma {:induction false} RunThree(cfg: Config, w: World, a: Action, b: Action, c: Action)
    ensures Run(cfg, w, [a, b, c]) == Step(cfg, Step(cfg, Step(cfg, w, a), b), c)
  {
    RunTwo(cfg, w, a, b);
    assert [a, b] + [c] == [a, b, c];
    RunThen(cfg, w, [a, b], c);
  }

  // The code itself, on the outbox rows of one booking.

  class CacheOutbox {
    const cfg: Config
    var rows: seq<OutRow>
    ghost var world: World

    ghost predicate Valid()
      reads this
    {
      rows == world.rows
    }

    constructor (cfg: Config, ghost now: int)
      ensures Valid() && this.cfg == cfg && world == Initial(now)
    {
      this.cfg := cfg;
      rows := [];
      world := Initial(now);
    }

    method HasPendingForBooking() returns (b: bool)
      ensures b <==> HasPending(rows)
    {
      for i := 0 to |rows|
        invariant forall k :: 0 <= k < i ==> !rows[k].status.Pending?
      {
        if rows[i].status.Pending? {
          return true;
        }
      }
      return false;
    }

    method EnqueueCacheRequest(req: nat, now: int, error: Option<Failure>)
      modifies this`rows
      ensures rows == old(rows) + [NewRow(req, now, error)]
    {
      rows := rows + [OutRow(req, Pending, 1, now + BackoffSeconds(1), error)];
    }

    /** The enqueue step of the current call. */
    method AppendRow(req: nat, now: int, error: Option<Failure>)
      requires Valid() && now == world.now
      requires (world.call.Queueing? && error == None) || (world.call.Requeueing? && error == Some(world.call.error))
      requires req == world.call.req
      modifies this
      ensures Valid() && world == Step(cfg, old(world), Enqueue(false))
    {
      EnqueueCacheRequest(req, now, error);
      world := Step(cfg, world, Enqueue(false));
    }

    /** A whole `_post_reliable` call that nothing interrupts; `delivery` is what a direct POST would meet. */
    method PostReliable(req: nat, delivery: Delivery, now: int) returns (failure: Option<Failure>)
      requires Valid() && world.call.Idle? && now == world.now && req == world.issued
      modifies this
      ensures Valid() && world.call.Idle?
      ensures world == if cfg.enabled && HasPending(old(rows)) then
                         Run(cfg, old(world), [Issue(false), Enqueue(false)])
                       else
                         Run(cfg, old(world), [Issue(false), Send(delivery), Enqueue(false)])
      ensures failure == if cfg.enabled && HasPending(old(rows)) then None else Post(delivery.http)
      ensures cfg.enabled && HasPending(old(rows)) ==>
                rows == old(rows) + [OutRow(req, Pending, 1, now + 10, None)]
      ensures cfg.enabled && !HasPending(old(rows)) ==>
                rows == match delivery.http
                        case TimedOut => old(rows) + [OutRow(req, Pending, 1, now + 10, failure)]
                        case ConnectionLost => old(rows) + [OutRow(req, Pending, 1, now + 10, failure)]
                        case Response(status) =>
                          if status < 500 && status != 429 then old(rows)
                          else old(rows) + [OutRow(req, Pending, 1, now + 10, failure)]
                        case NoJson => old(rows)
                        case BrokenAnswer => old(rows)
    {
      assert BackoffSeconds(1) == 10;
      RunTwo(cfg, world, Issue(false), Enqueue(false));
      RunThree(cfg, world, Issue(false), Send(delivery), Enqueue(false));
      world := Step(cfg, world, Issue(false));
      if cfg.enabled {
        var pending := HasPendingForBooking();
        if pending {
          AppendRow(req, now, None);
          return None;
        }
      }
      world := Step(cfg, world, Send(delivery));
      failure := Post(delivery.http);
      if failure.Some? && cfg.enabled && IsRetryable(failure.value) {
        AppendRow(req, now, failure);
      }
    }

    /**
      * The claim of one relay pass: the due pending row with no older pending row. The lease pushes its due time
      * forward.
      */
    method ClaimDue(now: int) returns (claimed: Option<nat>)
      modifies this`rows
      ensures claimed.Some? ==>
                OldestPending(old(rows), claimed.value) && old(rows)[claimed.value].due <= now &&
                rows == old(rows)[claimed.value := old(rows)[claimed.value].(due := now + LEASE_SECONDS)]
      ensures claimed.None? ==>
                rows == old(rows) && forall i: nat :: OldestPending(rows, i) ==> rows[i].due > now
    {
      var i := 0;
      while i < |rows| && !rows[i].status.Pending?
        invariant 0 <= i <= |rows| && rows == old(rows)
        invariant forall k :: 0 <= k < i ==> !rows[k].status.Pending?
      {
        i := i + 1;
      }
      if i < |rows| && rows[i].due <= now {
        rows := rows[i := rows[i].(due := now + LEASE_SECONDS)];
        return Some(i);
      }
      return None;
    }

    method FinishRow(i: nat, attempts: nat, now: int, result: Option<Failure>)
      requires i < |rows|
      modifies this`rows
      ensures forall d: Delivery :: Post(d.http) == result ==>
                rows == old(rows)[i := Finished(cfg, old(rows)[i], attempts, now, d)]
    {
      if result.None? {
        rows := rows[i := rows[i].(status := Delivered, lastError := None)];
      } else {
        var retryable := IsRetryable(result.value) || result.value.OtherHttpError?;
        if !retryable || attempts + 1 >= cfg.maxAttempts {
          rows := rows[i := rows[i].(status := Dead, attempts := attempts + 1, lastError := result)];
        } else {
          rows := rows[i := rows[i].(attempts := attempts + 1, lastError := result,
          due := now + BackoffSeconds(attempts + 1))];
        }
      }
    }

    /** One uninterrupted relay pass over this booking's rows; `delivery` is what the replay would meet. */
    method ProcessOutboxOnce(ghost relay: Relay, delivery: Delivery, now: int) returns (ghost claimed: Option<nat>)
      requires Valid() && now == world.now && relay !in world.leases
      modifies this
      ensures Valid()
      ensures claimed.None? ==>
                world == old(world) && forall i: nat :: OldestPending(rows, i) ==> rows[i].due > now
      ensures claimed.Some? ==>
                OldestPending(old(rows), claimed.value) && old(rows)[claimed.value].due <= now &&
                world == Run(cfg, old(world), [Claim(relay, claimed.value), Replay(relay, delivery), Finish(relay)])
    {
      var row := ClaimDue(now);
      claimed := row;
      if row.Some? {
        RunThree(cfg, world, Claim(relay, row.value), Replay(relay, delivery), Finish(relay));
        world := Step(cfg, world, Claim(relay, row.value));
        var attempts := rows[row.value].attempts;
        world := Step(cfg, world, Replay(relay, delivery));
        FinishRow(row.value, attempts, now, Post(delivery.http));
        world := Step(cfg, world, Finish(relay));
      }
    }
  }
}
