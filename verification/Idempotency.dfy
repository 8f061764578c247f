/** The idempotency middleware: read the store, run the handler, write the response; requests interleave freely. */
module Idempotency {
  import opened Seqs

  type Key = string
  type Hash = string
  type Req = nat

  /** A handler's response; `body` is None when it is not JSON. */
  datatype Response = Response(status: int, body: Option<string>)

  datatype Entry = Entry(hash: Hash, status: int, body: string, expires: int)

  /** A request whose handler was started: what it read, and the response once the handler returned. */
  datatype Running = Running(key: Key, hash: Hash, readAt: int, readStep: nat, response: Option<Response>)

  /** A handler execution whose response went into the store. */
  datatype Execution = Execution(
    key: Key, hash: Hash, readAt: int, readStep: nat, storedAt: int, storedStep: nat, status: int, body: string)

  datatype Reply =
    | Replayed(key: Key, hash: Hash, status: int, body: string, at: int)
    | Conflict(key: Key, hash: Hash, at: int)

  /** `steps` numbers the actions, so that order is unambiguous within one instant. */
  datatype State = State(
    now: int, steps: nat, store: map<Key, Entry>, running: map<Req, Running>,
    executed: seq<Execution>, replies: seq<Reply>)

  datatype Action =
    | Tick(minutes: nat)
    | Look(req: Req, key: Key, hash: Hash)
    | Return(req: Req, response: Response)
    | Finish(req: Req)

  function Initial(now: int): State {
    State(now, 0, map[], map[], [], [])
  }

  predicate Live(s: State, key: Key) {
    key in s.store && s.now < s.store[key].expires
  }

  predicate Storable(r: Response) {
    200 <= r.status < 300 && r.body.Some?
  }

  /** One atomic step; an action that is not enabled changes nothing but the step count. */
  function Step(s: State, a: Action, ttl: int): State {
    var s := s.(steps := s.steps + 1);
    match a
    case Tick(m) => s.(now := s.now + m)
    case Look(req, key, hash) =>
      if req in s.running then s
      else if !Live(s, key) then s.(running := s.running[req := Running(key, hash, s.now, s.steps, None)])
      else if s.store[key].hash != hash then s.(replies := s.replies + [Conflict(key, hash, s.now)])
      else s.(replies := s.replies + [Replayed(key, hash, s.store[key].status, s.store[key].body, s.now)])
    case Return(req, response) =>
      if req in s.running && s.running[req].response.None? then
        s.(running := s.running[req := s.running[req].(response := Some(response))])
      else s
    case Finish(req) =>
      if req in s.running && s.running[req].response.Some? then
        var r := s.running[req];
        var response := r.response.value;
        var s := s.(running := s.running - {req});
        if Storable(response) then
          s.(store := s.store[r.key := Entry(r.hash, response.status, response.body.value, s.now + ttl)],
          executed := s.executed + [Execution(r.key, r.hash, r.readAt, r.readStep, s.now, s.steps,
                                              response.status, response.body.value)])
        else s
      else s
  }

  function Run(s: State, actions: seq<Action>, ttl: int): State {
    if actions == [] then s
    else Step(Run(s, actions[..|actions| - 1], ttl), actions[|actions| - 1], ttl)
  }

  /** The middleware over a shared store; concurrent requests are interleaved calls of its atomic steps. */
  class IdempotencyMiddleware {
    const ttl: int
    var store: map<Key, Entry>
    ghost var state: State

    ghost predicate Valid()
      reads this
    {
      store == state.store
    }

    constructor (ttl: int, ghost now: int)
      ensures Valid() && this.ttl == ttl && state == Initial(now)
    {
      this.ttl := ttl;
      store := map[];
      state := Initial(now);
    }

    ghost method Wait(minutes: nat)
      requires Valid()
      modifies this`state
      ensures Valid() && state == Step(old(state), Tick(minutes), ttl)
    {
      state := Step(state, Tick(minutes), ttl);
    }

    /** GET: None means the handler must run. */
    method LookUp(req: Req, key: Key, hash: Hash, now: int) returns (reply: Option<Reply>)
      requires Valid() && now == state.now && req !in state.running
      modifies this`state
      ensures Valid() && state == Step(old(state), Look(req, key, hash), ttl)
      ensures reply.None? <==> req in state.running
      ensures reply.Some? ==> state.replies == old(state.replies) + [reply.value]
    {
      state := Step(state, Look(req, key, hash), ttl);
      if key in store && now < store[key].expires {
        var stored := store[key];
        if stored.hash != hash {
          return Some(Conflict(key, hash, now));
        }
        return Some(Replayed(key, hash, stored.status, stored.body, now));
      }
      return None;
    }

    ghost method HandlerReturns(req: Req, response: Response)
      requires Valid()
      modifies this`state
      ensures Valid() && state == Step(old(state), Return(req, response), ttl)
    {
      state := Step(state, Return(req, response), ttl);
    }

    /** SETEX, for a 2xx response with a JSON body only. */
    method StoreResponse(req: Req, key: Key, hash: Hash, response: Response, now: int)
      requires Valid() && now == state.now && req in state.running
      requires state.running[req].key == key && state.running[req].hash == hash
      requires state.running[req].response == Some(response)
      modifies this
      ensures Valid() && state == Step(old(state), Finish(req), ttl)
    {
      if 200 <= response.status < 300 && response.body.Some? {
        store := store[key := Entry(hash, response.status, response.body.value, now + ttl)];
      }
      state := Step(state, Finish(req), ttl);
    }
  }

  // What every reachable state keeps.

  /** Non-overlapping executions of one key are at least a TTL apart. */
  ghost predicate KeptApart(first: Execution, key: Key, readAt: int, readStep: nat, ttl: int) {
    first.key == key && first.storedStep < readStep ==> readAt >= first.storedAt + ttl
  }

  ghost predicate FromExecution(s: State, key: Key, hash: Hash, status: int, body: string, expires: int, ttl: int) {
    exists e <- s.executed ::
      e.key == key && e.hash == hash && e.status == status && e.body == body && e.storedAt + ttl == expires
  }

  /** A replay was produced by an execution stored no earlier than a TTL ago; a conflict by one with another body. */
  ghost predicate Justified(s: State, r: Reply, ttl: int) {
    match r
    case Replayed(key, hash, status, body, at) =>
      exists e <- s.executed :: e.key == key && e.hash == hash && e.status == status && e.body == body
                                && e.storedAt <= at < e.storedAt + ttl
    case Conflict(key, hash, at) =>
      exists e <- s.executed :: e.key == key && e.hash != hash && e.storedAt <= at < e.storedAt + ttl
  }

  /** Times and step numbers lie in the past, and an unexpired execution still has an entry outliving it. */
  ghost predicate Timely(s: State, ttl: int) {
    && (forall e <- s.executed :: e.storedAt <= s.now && e.readStep <= e.storedStep <= s.steps)
    && (forall e <- s.executed :: s.now < e.storedAt + ttl ==>
          e.key in s.store && e.storedAt + ttl <= s.store[e.key].expires)
    && (forall req <- s.running :: s.running[req].readStep <= s.steps)
  }

  ghost predicate Apart(s: State, ttl: int) {
    && (forall e <- s.executed, req <- s.running ::
          KeptApart(e, s.running[req].key, s.running[req].readAt, s.running[req].readStep, ttl))
    && (forall e <- s.executed, f <- s.executed :: KeptApart(e, f.key, f.readAt, f.readStep, ttl))
  }

  ghost predicate Sourced(s: State, ttl: int) {
    && (forall key <- s.store ::
          var c := s.store[key]; FromExecution(s, key, c.hash, c.status, c.body, c.expires, ttl))
    && (forall r <- s.replies :: Justified(s, r, ttl))
  }

  ghost predicate Inv(s: State, ttl: int) {
    Timely(s, ttl) && Apart(s, ttl) && Sourced(s, ttl)
  }

  lemma {:induction false} LookKeepsApart(s: State, req: Req, key: Key, hash: Hash, ttl: int)
    requires Timely(s, ttl) && Apart(s, ttl)
    ensures Apart(Step(s, Look(req, key, hash), ttl), ttl)
  {
  }

  lemma {:induction false} LookKeepsSourced(s: State, req: Req, key: Key, hash: Hash, ttl: int)
    requires Timely(s, ttl) && Sourced(s, ttl)
    ensures Sourced(Step(s, Look(req, key, hash), ttl), ttl)
  {
    var s' := Step(s, Look(req, key, hash), ttl);
    forall k | k in s'.store
      ensures var c := s'.store[k]; FromExecution(s', k, c.hash, c.status, c.body, c.expires, ttl)
    {
      var c := s.store[k];
      assert FromExecution(s, k, c.hash, c.status, c.body, c.expires, ttl);
    }
    forall r | r in s'.replies
      ensures Justified(s', r, ttl)
    {
      if r in s.replies {
        assert Justified(s, r, ttl);
        JustifiedMonotone(s, s', r, ttl);
      } else {
        var c := s.store[key];
        assert FromExecution(s, key, c.hash, c.status, c.body, c.expires, ttl);
      }
    }
  }

  lemma {:induction false} FinishKeepsTimely(s: State, req: Req, ttl: int)
    requires Timely(s, ttl)
    ensures Timely(Step(s, Finish(req), ttl), ttl)
  {
  }

  lemma {:induction false} FinishKeepsApart(s: State, req: Req, ttl: int)
    requires Timely(s, ttl) && Apart(s, ttl)
    ensures Apart(Step(s, Finish(req), ttl), ttl)
  {
    var s' := Step(s, Finish(req), ttl);
    if req in s.running && s.running[req].response.Some? && Storable(s.running[req].response.value) {
      var e := s'.executed[|s.executed|];
      assert s'.executed == s.executed + [e];
      forall f, g | f in s'.executed && g in s'.executed
        ensures KeptApart(f, g.key, g.readAt, g.readStep, ttl)
      {
        if f in s.executed && g == e {
          assert KeptApart(f, s.running[req].key, s.running[req].readAt, s.running[req].readStep, ttl);
        }
      }
    }
  }

  lemma {:induction false} FinishKeepsSourced(s: State, req: Req, ttl: int)
    requires Sourced(s, ttl)
    ensures Sourced(Step(s, Finish(req), ttl), ttl)
  {
    var s' := Step(s, Finish(req), ttl);
    assert s.executed <= s'.executed;
    forall e | e in s.executed
      ensures e in s'.executed
    {
      var k :| 0 <= k < |s.executed| && s.executed[k] == e;
      assert s'.executed[k] == e;
    }
    forall r | r in s'.replies
      ensures Justified(s', r, ttl)
    {
      assert Justified(s, r, ttl);
      JustifiedMonotone(s, s', r, ttl);
    }
    forall key | key in s'.store
      ensures var c := s'.store[key]; FromExecution(s', key, c.hash, c.status, c.body, c.expires, ttl)
    {
      var c := s'.store[key];
      if key in s.store && s.store[key] == c {
        assert FromExecution(s, key, c.hash, c.status, c.body, c.expires, ttl);
      } else {
        assert s'.executed[|s.executed|] in s'.executed;
      }
    }
  }

  lemma {:induction false} JustifiedMonotone(s: State, s': State, r: Reply, ttl: int)
    requires Justified(s, r, ttl) && forall e <- s.executed :: e in s'.executed
    ensures Justified(s', r, ttl)
  {
  }

  /** Waiting and a handler's return leave the store, the executions and the replies alone. */
  lemma {:induction false} QuietStepKeepsSourced(s: State, s': State, ttl: int)
    requires Sourced(s, ttl)
    requires s'.store == s.store && s'.executed == s.executed && s'.replies == s.replies
    ensures Sourced(s', ttl)
  {
    forall r | r in s'.replies
      ensures Justified(s', r, ttl)
    {
      assert Justified(s, r, ttl);
      JustifiedMonotone(s, s', r, ttl);
    }
    forall key | key in s'.store
      ensures var c := s'.store[key]; FromExecution(s', key, c.hash, c.status, c.body, c.expires, ttl)
    {
      var c := s.store[key];
      assert FromExecution(s, key, c.hash, c.status, c.body, c.expires, ttl);
    }
  }

  lemma {:induction false} TickKeepsInv(s: State, minutes: nat, ttl: int)
    requires Inv(s, ttl)
    ensures Inv(Step(s, Tick(minutes), ttl), ttl)
  {
    QuietStepKeepsSourced(s, Step(s, Tick(minutes), ttl), ttl);
  }

  lemma {:induction false} ReturnKeepsInv(s: State, req: Req, response: Response, ttl: int)
    requires Inv(s, ttl)
    ensures Inv(Step(s, Return(req, response), ttl), ttl)
  {
    QuietStepKeepsSourced(s, Step(s, Return(req, response), ttl), ttl);
  }

  lemma {:induction false} LookKeepsInv(s: State, req: Req, key: Key, hash: Hash, ttl: int)
    requires Inv(s, ttl)
    ensures Inv(Step(s, Look(req, key, hash), ttl), ttl)
  {
    LookKeepsApart(s, req, key, hash, ttl);
    LookKeepsSourced(s, req, key, hash, ttl);
  }

  lemma {:induction false} FinishKeepsInv(s: State, req: Req, ttl: int)
    requires Inv(s, ttl)
    ensures Inv(Step(s, Finish(req), ttl), ttl)
  {
    FinishKeepsTimely(s, req, ttl);
    FinishKeepsApart(s, req, ttl);
    FinishKeepsSourced(s, req, ttl);
  }

  lemma {:induction false} EveryRunKeepsInv(now: int, actions: seq<Action>, ttl: int)
    ensures Inv(Run(Initial(now), actions, ttl), ttl)
  {
    if actions != [] {
      EveryRunKeepsInv(now, actions[..|actions| - 1], ttl);
      var s := Run(Initial(now), actions[..|actions| - 1], ttl);
      match actions[|actions| - 1] {
        case Tick(m) => TickKeepsInv(s, m, ttl);
        case Look(req, key, hash) => LookKeepsInv(s, req, key, hash, ttl);
        case Return(req, response) => ReturnKeepsInv(s, req, response, ttl);
        case Finish(req) => FinishKeepsInv(s, req, ttl);
      }
    }
  }

  // The main results.

  /** Two stored executions under one key overlap in time, or the later one read after the earlier entry's TTL. */
  lemma {:induction false} StoredExecutionsOverlapOrExpire(
    now: int, actions: seq<Action>, ttl: int, e: Execution, f: Execution)
    requires e in Run(Initial(now), actions, ttl).executed && f in Run(Initial(now), actions, ttl).executed
    requires e.key == f.key && e.storedStep < f.storedStep
    ensures f.readStep <= e.storedStep || f.readAt >= e.storedAt + ttl
  {
    EveryRunKeepsInv(now, actions, ttl);
    assert KeptApart(e, f.key, f.readAt, f.readStep, ttl);
  }

  /** Every replay repeats an earlier stored execution of the same key and body; every 409 has a different body. */
  lemma {:induction false} RepliesAreJustified(now: int, actions: seq<Action>, ttl: int, r: Reply)
    requires r in Run(Initial(now), actions, ttl).replies
    ensures Justified(Run(Initial(now), actions, ttl), r, ttl)
  {
    EveryRunKeepsInv(now, actions, ttl);
  }

  /** While an execution's TTL runs, a request under its key is answered from the store and starts no handler. */
  lemma {:induction false} AnsweredFromStoreWithinTtl(
    now: int, actions: seq<Action>, ttl: int, e: Execution, req: Req, hash: Hash)
    requires var s := Run(Initial(now), actions, ttl);
             e in s.executed && s.now < e.storedAt + ttl && req !in s.running
    ensures var s := Run(Initial(now), actions, ttl);
            var s' := Step(s, Look(req, e.key, hash), ttl);
            && s'.running == s.running
            && |s'.replies| == |s.replies| + 1
            && (s'.replies[|s.replies|].Replayed? <==> s.store[e.key].hash == hash)
  {
    EveryRunKeepsInv(now, actions, ttl);
  }

  /**
    * Exactly when a request reaches its handler, in every run: no execution under its key was stored within the TTL,
    * whatever the body. So a second execution needs an overlap with the first, or an expired or unstored first one.
    */
  lemma {:induction false} HandlerStartsIff(
    now: int, actions: seq<Action>, ttl: int, req: Req, key: Key, hash: Hash)
    requires req !in Run(Initial(now), actions, ttl).running
    ensures var s := Run(Initial(now), actions, ttl);
            req in Step(s, Look(req, key, hash), ttl).running <==>
            !exists e <- s.executed :: e.key == key && s.now < e.storedAt + ttl
  {
    EveryRunKeepsInv(now, actions, ttl);
    var s := Run(Initial(now), actions, ttl);
    if Live(s, key) {
      var c := s.store[key];
      assert FromExecution(s, key, c.hash, c.status, c.body, c.expires, ttl);
    }
  }

  // Which responses are kept.

  lemma {:induction false} ExecutionsAre2xx(now: int, actions: seq<Action>, ttl: int, e: Execution)
    requires e in Run(Initial(now), actions, ttl).executed
    ensures 200 <= e.status < 300
  {
    if actions != [] {
      var s := Run(Initial(now), actions[..|actions| - 1], ttl);
      if e in s.executed {
        ExecutionsAre2xx(now, actions[..|actions| - 1], ttl, e);
      }
    }
  }

  /** In every run only 2xx responses are stored, and only those are replayed. */
  lemma {:induction false} Only2xxIsReplayed(now: int, actions: seq<Action>, ttl: int)
    ensures var s := Run(Initial(now), actions, ttl);
            && (forall e <- s.executed :: 200 <= e.status < 300)
            && (forall key <- s.store :: 200 <= s.store[key].status < 300)
            && (forall r <- s.replies :: r.Replayed? ==> 200 <= r.status < 300)
  {
    var s := Run(Initial(now), actions, ttl);
    EveryRunKeepsInv(now, actions, ttl);
    forall e | e in s.executed
      ensures 200 <= e.status < 300
    {
      ExecutionsAre2xx(now, actions, ttl, e);
    }
    forall key | key in s.store
      ensures 200 <= s.store[key].status < 300
    {
      var c := s.store[key];
      assert FromExecution(s, key, c.hash, c.status, c.body, c.expires, ttl);
    }
    forall r | r in s.replies && r.Replayed?
      ensures 200 <= r.status < 300
    {
      assert Justified(s, r, ttl);
    }
  }

  /** A handler's response is stored for the whole TTL iff it is 2xx and its body is JSON. */
  lemma {:induction false} StoredIff2xxJson(s: State, req: Req, ttl: int)
    requires req in s.running && s.running[req].response.Some?
    ensures var r, v := s.running[req], Step(s, Finish(req), ttl);
            var response := r.response.value;
            if 200 <= response.status < 300 && response.body.Some? then
              && |v.executed| == |s.executed| + 1
              && r.key in v.store
              && v.store[r.key] == Entry(r.hash, response.status, response.body.value, s.now + ttl)
            else v.executed == s.executed && v.store == s.store
  {
  }

  /** Every response a handler of the key has returned so far lies outside 2xx. */
  ghost predicate OnlyFailed(now: int, actions: seq<Action>, ttl: int, key: Key) {
    forall k :: 0 <= k < |actions| && actions[k].Return? ==>
      var s := Run(Initial(now), actions[..k], ttl);
      actions[k].req in s.running && s.running[actions[k].req].key == key ==>
        !(200 <= actions[k].response.status < 300)
  }

  ghost predicate NoneKept(s: State, key: Key) {
    && (forall e <- s.executed :: e.key != key)
    && (forall req <- s.running :: s.running[req].key == key && s.running[req].response.Some? ==>
          !(200 <= s.running[req].response.value.status < 300))
  }

  lemma {:induction false} FailuresAreNotKept(now: int, actions: seq<Action>, ttl: int, key: Key)
    requires OnlyFailed(now, actions, ttl, key)
    ensures NoneKept(Run(Initial(now), actions, ttl), key)
  {
    if actions != [] {
      var n := |actions| - 1;
      var front := actions[..n];
      forall k | 0 <= k < |front| && front[k].Return?
        ensures front[..k] == actions[..k] && front[k] == actions[k]
      {
      }
      FailuresAreNotKept(now, front, ttl, key);
      var s := Run(Initial(now), front, ttl);
      var a := actions[n];
      if a.Return? && a.req in s.running && s.running[a.req].key == key {
        assert !(200 <= a.response.status < 300);
      }
    }
  }

  /** A key whose handlers only ever failed always reaches a handler again. */
  lemma {:induction false} FailuresAreRetried(
    now: int, actions: seq<Action>, ttl: int, req: Req, key: Key, hash: Hash)
    requires OnlyFailed(now, actions, ttl, key) && req !in Run(Initial(now), actions, ttl).running
    ensures req in Step(Run(Initial(now), actions, ttl), Look(req, key, hash), ttl).running
  {
    FailuresAreNotKept(now, actions, ttl, key);
    HandlerStartsIff(now, actions, ttl, req, key, hash);
  }

  lemma {:induction false} RunTwo(s: State, a: Action, b: Action, ttl: int)
    ensures Run(s, [a, b], ttl) == Step(Step(s, a, ttl), b, ttl)
  {
    assert [a, b][..1] == [a] && [a][..0] == [];
    assert Run(s, [a], ttl) == Step(s, a, ttl);
  }

  lemma {:induction false} RunAppend(s: State, front: seq<Action>, a: Action, b: Action, ttl: int)
    ensures Run(s, front + [a, b], ttl) == Step(Step(Run(s, front, ttl), a, ttl), b, ttl)
  {
    assert (front + [a, b])[..|front| + 1] == front + [a];
    assert (front + [a])[..|front|] == front;
    assert Run(s, front + [a], ttl) == Step(Run(s, front, ttl), a, ttl);
  }

  /** Overlap is a real exception: two concurrent requests with one key and one body both execute and both store. */
  lemma {:induction false} ConcurrentRequestsBothExecute(key: Key, hash: Hash, body: string, ttl: int)
    ensures var ok := Response(201, Some(body));
            var s := Run(Initial(0), [Look(1, key, hash), Look(2, key, hash)] + [Return(1, ok), Finish(1)] +
                                     [Return(2, ok), Finish(2)], ttl);
            |s.executed| == 2 && s.executed[0].key == s.executed[1].key == key && s.replies == []
  {
    var ok := Response(201, Some(body));
    var looks := [Look(1, key, hash), Look(2, key, hash)];
    RunTwo(Initial(0), Look(1, key, hash), Look(2, key, hash), ttl);
    var s := Run(Initial(0), looks, ttl);
    var running := map[1 := Running(key, hash, 0, 1, None), 2 := Running(key, hash, 0, 2, None)];
    assert s == State(0, 2, map[], running, [], []);
    RunAppend(Initial(0), looks, Return(1, ok), Finish(1), ttl);
    RunAppend(Initial(0), looks + [Return(1, ok), Finish(1)], Return(2, ok), Finish(2), ttl);
    WaitingRequestIsStored(s, 1, key, hash, ok, ttl);
    WaitingRequestIsStored(Step(Step(s, Return(1, ok), ttl), Finish(1), ttl), 2, key, hash, ok, ttl);
  }

  /** A waiting request whose handler returns a storable response is stored, whatever others stored meanwhile. */
  lemma {:induction false} WaitingRequestIsStored(s: State, req: Req, key: Key, hash: Hash, ok: Response, ttl: int)
    requires req in s.running && s.running[req].key == key && s.running[req].response.None? && Storable(ok)
    ensures var t := Step(Step(s, Return(req, ok), ttl), Finish(req), ttl);
            && |t.executed| == |s.executed| + 1 && t.executed[..|s.executed|] == s.executed
            && t.executed[|s.executed|].key == key && t.replies == s.replies
            && t.running == s.running - {req}
  {
  }
}
