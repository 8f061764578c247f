/** What becomes of every request given to the outbox protocol, in every run, however slow its relays. */
module OutboxFate {
  import opened Seqs
  import opened Outbox

  // No request disappears.

  predicate Rowed(w: World, req: nat) {
    exists r <- w.rows :: r.req == req && !r.status.Delivered?
  }

  /** A request is with its call, applied, pending or dead in the outbox, refused for good, or was never stored. */
  predicate Accounted(w: World, req: nat) {
    || (!w.call.Idle? && w.call.req == req)
    || req in w.applied
    || Rowed(w, req)
    || req in w.refused
    || req in w.lost
  }

  predicate NothingDisappears(w: World) {
    && (forall req: nat :: req < w.issued ==> Accounted(w, req))
    && (forall r <- w.rows :: r.status.Delivered? ==> r.req in w.applied)
    && (forall relay <- w.leases :: w.leases[relay].row < |w.rows|)
    && (forall relay <- w.leases ::
          w.leases[relay].result.Some? && Post(w.leases[relay].result.value.http).None? ==>
            w.rows[w.leases[relay].row].req in w.applied)
  }

  lemma {:induction false} FinishLosesNothing(cfg: Config, w: World, relay: Relay)
    requires NothingDisappears(w)
    ensures NothingDisappears(Step(cfg, w, Finish(relay)))
  {
    var v := Step(cfg, w, Finish(relay));
    if v != w {
      var row := w.leases[relay].row;
      assert forall k :: 0 <= k < |w.rows| ==> v.rows[k].req == w.rows[k].req && v.rows[k] in v.rows;
      assert w.rows[row] in w.rows;
      forall req: nat | req < w.issued ensures Accounted(v, req) {
        assert Accounted(w, req);
        if Rowed(w, req) {
          var k :| 0 <= k < |w.rows| && w.rows[k].req == req && !w.rows[k].status.Delivered?;
          assert v.rows[k] in v.rows;
        }
      }
    }
  }

  lemma {:induction false} ClaimLosesNothing(cfg: Config, w: World, relay: Relay, i: nat)
    requires NothingDisappears(w)
    ensures NothingDisappears(Step(cfg, w, Claim(relay, i)))
  {
    var v := Step(cfg, w, Claim(relay, i));
    assert forall k :: 0 <= k < |w.rows| ==>
        v.rows[k].req == w.rows[k].req && v.rows[k].status == w.rows[k].status && v.rows[k] in v.rows;
    forall req: nat | req < w.issued ensures Accounted(v, req) {
      assert Accounted(w, req);
      if Rowed(w, req) {
        var k :| 0 <= k < |w.rows| && w.rows[k].req == req && !w.rows[k].status.Delivered?;
        assert v.rows[k] in v.rows;
      }
    }
  }

  lemma {:induction false} EnqueueLosesNothing(cfg: Config, w: World, storeFails: bool)
    requires NothingDisappears(w)
    ensures NothingDisappears(Step(cfg, w, Enqueue(storeFails)))
  {
    var v := Step(cfg, w, Enqueue(storeFails));
    assert forall r <- w.rows :: r in v.rows;
    assert forall req :: Rowed(w, req) ==> Rowed(v, req);
    if (w.call.Queueing? || w.call.Requeueing?) && !storeFails {
      var row := NewRow(w.call.req, w.now, if w.call.Requeueing? then Some(w.call.error) else None);
      assert v.rows == w.rows + [row];
      assert row in v.rows && Rowed(v, w.call.req);
    }
    forall req: nat | req < w.issued ensures Accounted(v, req) {
      assert Accounted(w, req);
    }
  }

  lemma {:induction false} OtherStepsLoseNothing(cfg: Config, w: World, a: Action)
    requires NothingDisappears(w) && !a.Finish? && !a.Claim? && !a.Enqueue?
    ensures NothingDisappears(Step(cfg, w, a))
  {
    var v := Step(cfg, w, a);
    assert v.rows == w.rows;
    assert forall x <- w.applied :: x in v.applied;
    forall req: nat | req < v.issued ensures Accounted(v, req) {
      assert req < w.issued ==> Accounted(w, req);
      assert Rowed(w, req) ==> Rowed(v, req);
    }
  }

  /** Over every run each issued request is accounted for, and a row marked delivered was applied. */
  lemma {:induction false} EveryRunLosesNothing(cfg: Config, now: int, actions: seq<Action>)
    ensures NothingDisappears(Run(cfg, Initial(now), actions))
  {
    if actions != [] {
      var front, a := actions[..|actions| - 1], actions[|actions| - 1];
      EveryRunLosesNothing(cfg, now, front);
      var w := Run(cfg, Initial(now), front);
      match a
      case Finish(relay) => FinishLosesNothing(cfg, w, relay);
      case Claim(relay, i) => ClaimLosesNothing(cfg, w, relay, i);
      case Enqueue(storeFails) => EnqueueLosesNothing(cfg, w, storeFails);
      case _ => OtherStepsLoseNothing(cfg, w, a);
    }
  }

  // Why a request is dropped.

  /** This step is the write-back of a relay that gives row `i` up. */
  predicate GivesUpRow(cfg: Config, w: World, a: Action, i: nat) {
    && a.Finish? && a.relay in w.leases && w.leases[a.relay].row == i < |w.rows|
    && w.leases[a.relay].result.Some?
    && Post(w.leases[a.relay].result.value.http).Some?
    && GivesUp(cfg, Post(w.leases[a.relay].result.value.http).value, w.leases[a.relay].attempts + 1)
  }

  /** The direct POST of `req` fails for good: permanently, or with the outbox off. */
  predicate Refuses(cfg: Config, w: World, a: Action, req: nat) {
    && a.Send? && w.call.Sending? && w.call.req == req
    && Post(a.delivery.http).Some?
    && !(cfg.enabled && IsRetryable(Post(a.delivery.http).value))
  }

  /** The row of `req` could not be stored, or its caller died. */
  predicate Loses(w: World, a: Action, req: nat) {
    || (a == Enqueue(true) && (w.call.Queueing? || w.call.Requeueing?) && w.call.req == req)
    || (a == Die && !w.call.Idle? && w.call.req == req)
  }

  predicate Drops(cfg: Config, w: World, a: Action, req: nat) {
    || (exists i: nat | i < |w.rows| :: w.rows[i].req == req && GivesUpRow(cfg, w, a, i))
    || Refuses(cfg, w, a, req)
    || Loses(w, a, req)
  }

  /** Some step of the run drops `req`. */
  predicate EverDropped(cfg: Config, w: World, actions: seq<Action>, req: nat) {
    actions != [] &&
    (EverDropped(cfg, w, actions[..|actions| - 1], req) ||
     Drops(cfg, Run(cfg, w, actions[..|actions| - 1]), actions[|actions| - 1], req))
  }

  predicate GivenUp(w: World, req: nat) {
    || (exists r <- w.rows :: r.req == req && r.status.Dead?)
    || req in w.refused
    || req in w.lost
  }

  lemma {:induction false} RowDies(cfg: Config, w: World, a: Action, i: nat)
    requires i < |Step(cfg, w, a).rows| && Step(cfg, w, a).rows[i].status.Dead?
    ensures i < |w.rows| && Step(cfg, w, a).rows[i].req == w.rows[i].req
    ensures w.rows[i].status.Dead? || GivesUpRow(cfg, w, a, i)
  {
  }

  lemma {:induction false} GivenUpForAReason(cfg: Config, w: World, a: Action, req: nat)
    requires GivenUp(Step(cfg, w, a), req)
    ensures GivenUp(w, req) || Drops(cfg, w, a, req)
  {
    var v := Step(cfg, w, a);
    if i :| 0 <= i < |v.rows| && v.rows[i].req == req && v.rows[i].status.Dead? {
      RowDies(cfg, w, a, i);
      assert w.rows[i] in w.rows;
    }
  }

  /** Such a step really drops the request: its row is dead, or it is refused or lost. */
  lemma {:induction false} DropsTakeEffect(cfg: Config, w: World, a: Action, req: nat)
    requires Drops(cfg, w, a, req)
    ensures GivenUp(Step(cfg, w, a), req)
  {
    if i: nat :| i < |w.rows| && w.rows[i].req == req && GivesUpRow(cfg, w, a, i) {
      var v := Step(cfg, w, a);
      assert v.rows[i].status.Dead? && v.rows[i] in v.rows;
    }
  }

  lemma {:induction false} EveryLossHasAStep(cfg: Config, now: int, actions: seq<Action>, req: nat)
    requires GivenUp(Run(cfg, Initial(now), actions), req)
    ensures EverDropped(cfg, Initial(now), actions, req)
  {
    if actions != [] {
      var front := actions[..|actions| - 1];
      GivenUpForAReason(cfg, Run(cfg, Initial(now), front), actions[|actions| - 1], req);
      if GivenUp(Run(cfg, Initial(now), front), req) {
        EveryLossHasAStep(cfg, now, front, req);
      }
    }
  }

  predicate HasPendingRow(w: World, req: nat) {
    exists r <- w.rows :: r.req == req && r.status.Pending?
  }

  /**
    * Only permanent failures, exhausted retries, a failed insert or the caller's death drop a request: without such a
    * step, a request whose call has returned was applied or has a pending row, in every run.
    */
  lemma {:induction false} AppliedOrStillQueued(cfg: Config, now: int, actions: seq<Action>, req: nat)
    requires req < Run(cfg, Initial(now), actions).issued
    requires !EverDropped(cfg, Initial(now), actions, req)
    ensures var w := Run(cfg, Initial(now), actions);
            || (!w.call.Idle? && w.call.req == req)
            || req in w.applied
            || HasPendingRow(w, req)
  {
    var w := Run(cfg, Initial(now), actions);
    EveryRunLosesNothing(cfg, now, actions);
    assert Accounted(w, req);
    if GivenUp(w, req) {
      EveryLossHasAStep(cfg, now, actions, req);
    }
  }

  // What "exhausted" means: the attempts a relay reads were really made.

  /** How many relay write-backs of row `i` reported a failure. */
  function FailedReplays(cfg: Config, w: World, actions: seq<Action>, i: nat): nat {
    if actions == [] then 0
    else
      FailedReplays(cfg, w, actions[..|actions| - 1], i) +
      if FailsRow(Run(cfg, w, actions[..|actions| - 1]), actions[|actions| - 1], i) then 1 else 0
  }

  predicate FailsRow(w: World, a: Action, i: nat) {
    && a.Finish? && a.relay in w.leases && w.leases[a.relay].row == i < |w.rows|
    && w.leases[a.relay].result.Some?
    && Post(w.leases[a.relay].result.value.http).Some?
  }

  /** Attempts counters never exceed one plus the failed replays, slow relays with stale counters included. */
  ghost predicate CountersAreReal(cfg: Config, w: World, actions: seq<Action>) {
    var v := Run(cfg, w, actions);
    && (forall i :: 0 <= i < |v.rows| ==> v.rows[i].attempts <= 1 + FailedReplays(cfg, w, actions, i))
    && (forall relay <- v.leases ::
          v.leases[relay].attempts <= 1 + FailedReplays(cfg, w, actions, v.leases[relay].row))
  }

  lemma {:induction false} EveryRunCountsReal(cfg: Config, now: int, actions: seq<Action>)
    ensures CountersAreReal(cfg, Initial(now), actions)
  {
    if actions != [] {
      var front, a := actions[..|actions| - 1], actions[|actions| - 1];
      EveryRunCountsReal(cfg, now, front);
      var w := Run(cfg, Initial(now), front);
      assert forall i: nat ::
          FailedReplays(cfg, Initial(now), actions, i) ==
          FailedReplays(cfg, Initial(now), front, i) + if FailsRow(w, a, i) then 1 else 0;
      StepCounts(cfg, w, a);
    }
  }

  /** One step raises a counter at most by the failure it reports, over the row or the lease it came from. */
  lemma {:induction false} StepCounts(cfg: Config, w: World, a: Action)
    ensures var v := Step(cfg, w, a);
            && (forall i :: 0 <= i < |v.rows| ==>
                  || v.rows[i].attempts <= 1
                  || (i < |w.rows| && v.rows[i].attempts == w.rows[i].attempts)
                  || (a.Finish? && a.relay in w.leases && FailsRow(w, a, i) &&
                      v.rows[i].attempts == w.leases[a.relay].attempts + 1))
            && (forall relay <- v.leases ::
                  || (relay in w.leases && v.leases[relay].row == w.leases[relay].row &&
                      v.leases[relay].attempts == w.leases[relay].attempts)
                  || (v.leases[relay].row < |w.rows| &&
                      v.leases[relay].attempts == w.rows[v.leases[relay].row].attempts))
  {
  }

  /** A row is given up on a permanent failure, or after at least `maxAttempts - 1` replays of it failed. */
  lemma {:induction false} GivenUpOnlyWhenTried(cfg: Config, now: int, actions: seq<Action>, a: Action, i: nat)
    requires GivesUpRow(cfg, Run(cfg, Initial(now), actions), a, i)
    ensures var w := Run(cfg, Initial(now), actions);
            || !RelayRetries(Post(w.leases[a.relay].result.value.http).value)
            || FailedReplays(cfg, Initial(now), actions + [a], i) + 1 >= cfg.maxAttempts
  {
    EveryRunCountsReal(cfg, now, actions);
    assert (actions + [a])[..|actions|] == actions;
  }

  // Which answers are final, in terms of the exchange itself.

  /** An HTTP answer that no retry would change. */
  predicate FinalStatus(status: int) {
    !(200 <= status < 300) && status < 500 && status != 429
  }

  /** A direct call also gives up on an answer it cannot read. */
  predicate FinalForCaller(h: Http) {
    (h.Response? && FinalStatus(h.status)) || h.NoJson? || h.BrokenAnswer?
  }

  predicate FinalForRelay(h: Http) {
    (h.Response? && FinalStatus(h.status)) || h.NoJson?
  }

  /** What may pass: a timeout, a lost connection, an error of the server itself, or too many requests. */
  predicate Transient(h: Http) {
    h.TimedOut? || h.ConnectionLost? || (h.Response? && (h.status >= 500 || h.status == 429))
  }

  /** Step `k` of the run is a direct POST of `req` met by a final answer. */
  ghost predicate AnsweredFinally(cfg: Config, now: int, actions: seq<Action>, k: nat, req: nat) {
    && k < |actions| && actions[k].Send? && FinalForCaller(actions[k].delivery.http)
    && Run(cfg, Initial(now), actions[..k]).call == Sending(req)
  }

  /** With the outbox on, a request is refused only after a direct POST of it met a final answer, in every run. */
  lemma {:induction false} RefusedOnlyByFinalAnswer(cfg: Config, now: int, actions: seq<Action>, req: nat)
    requires cfg.enabled && req in Run(cfg, Initial(now), actions).refused
    ensures exists k: nat :: AnsweredFinally(cfg, now, actions, k, req)
  {
    if actions != [] {
      var n := |actions| - 1;
      var front := actions[..n];
      if req in Run(cfg, Initial(now), front).refused {
        RefusedOnlyByFinalAnswer(cfg, now, front, req);
        var k: nat :| AnsweredFinally(cfg, now, front, k, req);
        assert front[..k] == actions[..k];
        assert AnsweredFinally(cfg, now, actions, k, req);
      } else {
        assert AnsweredFinally(cfg, now, actions, n, req);
      }
    }
  }

  /** Step `k` of the run writes back a final answer to a replay of row `i`. */
  ghost predicate WrittenBackFinally(cfg: Config, now: int, actions: seq<Action>, k: nat, i: nat) {
    && k < |actions| && actions[k].Finish?
    && var leases := Run(cfg, Initial(now), actions[..k]).leases;
       && actions[k].relay in leases && leases[actions[k].relay].row == i
       && leases[actions[k].relay].result.Some? && FinalForRelay(leases[actions[k].relay].result.value.http)
  }

  /** A row dies only on a final answer, or after at least the maximum less one failed replays of it, in every run. */
  lemma {:induction false} DeadOnlyByFinalAnswer(cfg: Config, now: int, actions: seq<Action>, i: nat)
    requires var w := Run(cfg, Initial(now), actions); i < |w.rows| && w.rows[i].status.Dead?
    ensures (exists k: nat :: WrittenBackFinally(cfg, now, actions, k, i)) ||
            FailedReplays(cfg, Initial(now), actions, i) + 1 >= cfg.maxAttempts
  {
    if actions != [] {
      var n := |actions| - 1;
      var front, a := actions[..n], actions[n];
      var w := Run(cfg, Initial(now), front);
      RowDies(cfg, w, a, i);
      if w.rows[i].status.Dead? {
        DeadOnlyByFinalAnswer(cfg, now, front, i);
        if k: nat :| WrittenBackFinally(cfg, now, front, k, i) {
          assert front[..k] == actions[..k];
          assert WrittenBackFinally(cfg, now, actions, k, i);
        }
      } else {
        assert actions == front + [a];
        GivenUpOnlyWhenTried(cfg, now, front, a, i);
        if FinalForRelay(w.leases[a.relay].result.value.http) {
          assert WrittenBackFinally(cfg, now, actions, n, i);
        }
      }
    }
  }

  /** A direct POST that fails for the moment leaves exactly one new pending row, due in ten seconds. */
  lemma {:induction false} TransientFailureIsQueued(cfg: Config, w: World, d: Delivery)
    requires cfg.enabled && w.call.Idle? && !HasPending(w.rows) && Transient(d.http)
    ensures var v := Run(cfg, w, [Issue(false), Send(d), Enqueue(false)]);
            && v.call == Idle && v.refused == w.refused && v.lost == w.lost && v.issued == w.issued + 1
            && |v.rows| == |w.rows| + 1 && v.rows[..|w.rows|] == w.rows
            && v.rows[|w.rows|].req == w.issued && v.rows[|w.rows|].status == Pending
            && v.rows[|w.rows|].attempts == 1 && v.rows[|w.rows|].due == w.now + 10
  {
    RunThree(cfg, w, Issue(false), Send(d), Enqueue(false));
    assert BackoffSeconds(1) == 10;
  }

  /** A replay that fails for the moment, with attempts to spare, leaves the row pending for a later try. */
  lemma {:induction false} TransientReplayIsRetried(cfg: Config, w: World, relay: Relay)
    requires relay in w.leases && w.leases[relay].row < |w.rows| && w.leases[relay].result.Some?
    requires Transient(w.leases[relay].result.value.http) || w.leases[relay].result.value.http.BrokenAnswer?
    requires w.leases[relay].attempts + 1 < cfg.maxAttempts
    ensures var i, v := w.leases[relay].row, Step(cfg, w, Finish(relay));
            && v.rows[i].status == w.rows[i].status && v.rows[i].req == w.rows[i].req
            && v.rows[i].attempts == w.leases[relay].attempts + 1
            && v.rows[i].due == w.now + BackoffSeconds(v.rows[i].attempts)
  {
  }

  /** The waits: ten seconds, doubling, at most a quarter of an hour. */
  lemma {:induction false} WaitsDouble(attempts: nat)
    requires attempts >= 1
    ensures BackoffSeconds(1) == 10
    ensures BackoffSeconds(attempts + 1) ==
            if 2 * BackoffSeconds(attempts) < 900 then 2 * BackoffSeconds(attempts) else 900
  {
  }

  /** An answered request is done: a 2xx answer is applied, and delivers the row it was a replay of. */
  lemma {:induction false} AnsweredReplayDelivers(cfg: Config, w: World, relay: Relay, d: Delivery)
    requires relay in w.leases && w.leases[relay].row < |w.rows| && w.leases[relay].result.None?
    requires d.http.Response? && 200 <= d.http.status < 300
    ensures var i := w.leases[relay].row;
            var v := Run(cfg, w, [Replay(relay, d), Finish(relay)]);
            |v.rows| == |w.rows| && v.rows[i].status == Delivered && v.applied == w.applied + [w.rows[i].req]
  {
    RunTwo(cfg, w, Replay(relay, d), Finish(relay));
  }

  /** A relay that dies over its row holds the row up for the ninety seconds of the lease, and no longer. */
  lemma {:induction false} CrashedRowIsClaimedAgain(cfg: Config, w: World, relay: Relay, i: nat, seconds: nat)
    requires relay !in w.leases && OldestPending(w.rows, i) && w.rows[i].due <= w.now
    ensures var v := Run(cfg, w, [Claim(relay, i), Crash(relay), Tick(seconds)]);
            && |v.rows| == |w.rows| && v.rows[i].req == w.rows[i].req && v.rows[i].attempts == w.rows[i].attempts
            && (relay in Step(cfg, v, Claim(relay, i)).leases <==> seconds >= 90)
  {
    RunThree(cfg, w, Claim(relay, i), Crash(relay), Tick(seconds));
  }

  /** What a whole direct call comes to, by the answer it meets: done, queued, or refused. */
  lemma {:induction false} DirectCallOutcome(cfg: Config, w: World, d: Delivery)
    requires cfg.enabled && w.call.Idle? && !HasPending(w.rows)
    ensures var v := Run(cfg, w, [Issue(false), Send(d), Enqueue(false)]);
            && v.call == Idle && v.lost == w.lost
            && (d.http.Response? && 200 <= d.http.status < 300 ==>
                  v.rows == w.rows && v.refused == w.refused && v.applied == w.applied + [w.issued])
            && (Transient(d.http) ==> |v.rows| == |w.rows| + 1 && v.refused == w.refused)
            && (FinalForCaller(d.http) ==> v.rows == w.rows && v.refused == w.refused + {w.issued})
            && (Transient(d.http) || FinalForCaller(d.http) ==>
                  v.applied == if d.reached then w.applied + [w.issued] else w.applied)
  {
    RunThree(cfg, w, Issue(false), Send(d), Enqueue(false));
  }

  /** What a write-back does to the row: delivered, dead, or pending for another try. */
  lemma {:induction false} WriteBackOutcome(cfg: Config, w: World, relay: Relay)
    requires relay in w.leases && w.leases[relay].row < |w.rows| && w.leases[relay].result.Some?
    ensures var lease := w.leases[relay];
            var http, was := lease.result.value.http, w.rows[lease.row];
            var row := Step(cfg, w, Finish(relay)).rows[lease.row];
            && row.req == was.req
            && (http.Response? && 200 <= http.status < 300 ==> row.status == Delivered)
            && (FinalForRelay(http) ==> row.status == Dead && row.attempts == lease.attempts + 1)
            && (Transient(http) || http.BrokenAnswer? ==>
                  && row.attempts == lease.attempts + 1
                  && row.status == if lease.attempts + 1 >= cfg.maxAttempts then Dead else was.status)
  {
  }
}
