/** What the outbox protocol guarantees about the order in which one booking's requests are applied. */
module OutboxResults {
  import opened Seqs
  import opened Outbox

  // Runs restricted by what the database and the relays may do.

  /** The longest times, in seconds, from a claim to its replay and from the claim to its write-back. */
  datatype Hold = Hold(replay: nat, write: nat)

  predicate WithinLease(hold: Hold) {
    hold.replay < LEASE_SECONDS && hold.write < LEASE_SECONDS
  }

  /** `mayFail`: the pending check may fail and then answers "nothing pending". */
  predicate Timely(w: World, a: Action, mayFail: bool, hold: Hold) {
    match a
    case Issue(checkFails) => checkFails ==> mayFail
    case Replay(relay, _) => relay in w.leases ==> w.now + LEASE_SECONDS <= w.leases[relay].until + hold.replay
    case Finish(relay) => relay in w.leases ==> w.now + LEASE_SECONDS <= w.leases[relay].until + hold.write
    case _ => true
  }

  predicate AllTimely(cfg: Config, w: World, actions: seq<Action>, mayFail: bool, hold: Hold) {
    actions == [] ||
    (AllTimely(cfg, w, actions[..|actions| - 1], mayFail, hold) &&
     Timely(Run(cfg, w, actions[..|actions| - 1]), actions[|actions| - 1], mayFail, hold))
  }

  predicate Ascending(xs: seq<nat>) {
    forall i, j :: 0 <= i < j < |xs| ==> xs[i] <= xs[j]
  }

  predicate StrictlyAscending(xs: seq<nat>) {
    forall i, j :: 0 <= i < j < |xs| ==> xs[i] < xs[j]
  }

  /** Adjacent repeats collapsed into one. */
  function Collapse(xs: seq<nat>): (ys: seq<nat>)
    ensures forall y :: y in ys <==> y in xs
  {
    if |xs| < 2 then xs
    else
      var front := Collapse(xs[..|xs| - 1]);
      assert xs == xs[..|xs| - 1] + [xs[|xs| - 1]];
      if xs[|xs| - 1] == xs[|xs| - 2] then front else front + [xs[|xs| - 1]]
  }

  lemma {:induction false} AscendingByLast(xs: seq<nat>, y: nat)
    requires xs != []
    ensures Ascending(xs + [y]) <==> Ascending(xs) && xs[|xs| - 1] <= y
  {
    var zs := xs + [y];
    assert forall i :: 0 <= i < |xs| ==> zs[i] == xs[i];
    assert zs[|xs| - 1] == xs[|xs| - 1] && zs[|xs|] == y;
  }

  lemma {:induction false} StrictByLast(xs: seq<nat>, y: nat)
    requires xs != []
    ensures StrictlyAscending(xs + [y]) <==> StrictlyAscending(xs) && xs[|xs| - 1] < y
  {
    var zs := xs + [y];
    assert forall i :: 0 <= i < |xs| ==> zs[i] == xs[i];
    assert zs[|xs| - 1] == xs[|xs| - 1] && zs[|xs|] == y;
  }

  lemma {:induction false} AscendingIffCollapseStrict(xs: seq<nat>)
    ensures Ascending(xs) <==> StrictlyAscending(Collapse(xs))
    ensures xs != [] ==> Collapse(xs) != [] && Collapse(xs)[|Collapse(xs)| - 1] == xs[|xs| - 1]
  {
    if |xs| >= 2 {
      var front, last := xs[..|xs| - 1], xs[|xs| - 1];
      AscendingIffCollapseStrict(front);
      assert xs == front + [last];
      AscendingByLast(front, last);
      StrictByLast(Collapse(front), last);
    }
  }

  lemma {:induction false} AscendingAppend(xs: seq<nat>, y: nat)
    requires Ascending(xs) && forall x <- xs :: x <= y
    ensures Ascending(xs + [y])
  {
    var zs := xs + [y];
    forall i, j | 0 <= i < j < |zs| ensures zs[i] <= zs[j] {
      assert zs[i] == xs[i] && xs[i] in xs;
    }
  }

  // The invariant behind the order.

  predicate RowsInOrder(w: World) {
    && (forall i, j :: 0 <= i < j < |w.rows| ==> w.rows[i].req < w.rows[j].req)
    && (forall r <- w.rows :: r.req < w.issued)
  }

  predicate AppliedInOrder(w: World) {
    && Ascending(w.applied)
    && (forall a <- w.applied :: a < w.issued)
    && (forall a, i :: a in w.applied && 0 <= i < |w.rows| && w.rows[i].status.Pending? ==> a <= w.rows[i].req)
  }

  predicate CallInOrder(cfg: Config, w: World) {
    && (!w.call.Idle? ==>
          w.call.req + 1 == w.issued && forall r <- w.rows :: r.req < w.call.req)
    && (w.call.Queueing? || w.call.Sending? ==> forall a <- w.applied :: a < w.call.req)
    && (w.call.Sending? || w.call.Requeueing? ==> !HasPending(w.rows))
    && (w.call.Queueing? || w.call.Requeueing? ==> cfg.enabled)
  }

  predicate Live(w: World, relay: Relay) {
    relay in w.leases && w.now < w.leases[relay].until
  }

  ghost predicate LeasesHold(w: World) {
    && (forall r :: Live(w, r) ==>
          OldestPending(w.rows, w.leases[r].row) && w.rows[w.leases[r].row].due == w.leases[r].until)
    && (forall r, q :: Live(w, r) && Live(w, q) ==> r == q)
  }

  ghost predicate Orderly(cfg: Config, w: World) {
    RowsInOrder(w) && AppliedInOrder(w) && CallInOrder(cfg, w) && LeasesHold(w) &&
    (!cfg.enabled ==> w.rows == [] && w.leases == map[])
  }

  lemma {:induction false} OldestIsUnique(rows: seq<OutRow>, i: nat, j: nat)
    requires OldestPending(rows, i) && OldestPending(rows, j)
    ensures i == j
  {
  }

  lemma {:induction false} IssueKeepsOrder(cfg: Config, w: World)
    requires Orderly(cfg, w)
    ensures Orderly(cfg, Step(cfg, w, Issue(false)))
  {
    var v := Step(cfg, w, Issue(false));
    assert forall r :: Live(v, r) <==> Live(w, r);
    assert !cfg.enabled ==> !HasPending(w.rows);
  }

  lemma {:induction false} TickKeepsOrder(cfg: Config, w: World, seconds: nat)
    requires Orderly(cfg, w)
    ensures Orderly(cfg, Step(cfg, w, Tick(seconds)))
  {
    var v := Step(cfg, w, Tick(seconds));
    assert forall r :: Live(v, r) ==> Live(w, r);
  }

  lemma {:induction false} SendKeepsOrder(cfg: Config, w: World, d: Delivery)
    requires Orderly(cfg, w)
    ensures Orderly(cfg, Step(cfg, w, Send(d)))
  {
    var v := Step(cfg, w, Send(d));
    assert forall r :: Live(v, r) <==> Live(w, r);
    if w.call.Sending? {
      assert forall i :: 0 <= i < |w.rows| ==> w.rows[i] in w.rows && !w.rows[i].status.Pending?;
      AscendingAppend(w.applied, w.call.req);
      assert AppliedInOrder(v);
    }
  }

  lemma {:induction false} EnqueueKeepsOrder(cfg: Config, w: World, storeFails: bool)
    requires Orderly(cfg, w)
    ensures Orderly(cfg, Step(cfg, w, Enqueue(storeFails)))
  {
    var v := Step(cfg, w, Enqueue(storeFails));
    assert forall r :: Live(v, r) <==> Live(w, r);
    if (w.call.Queueing? || w.call.Requeueing?) && !storeFails {
      var error := if w.call.Requeueing? then Some(w.call.error) else None;
      var row := NewRow(w.call.req, w.now, error);
      assert v.rows == w.rows + [row];
      assert forall a <- w.applied :: a <= w.call.req;
      RowsGrowInOrder(w, v, row);
      assert LeasesHold(v);
    }
  }

  lemma {:induction false} RowsGrowInOrder(w: World, v: World, row: OutRow)
    requires RowsInOrder(w) && AppliedInOrder(w) && v.applied == w.applied && v.issued == w.issued
    requires v.rows == w.rows + [row] && row.req < w.issued
    requires forall r <- w.rows :: r.req < row.req
    requires forall a <- w.applied :: a <= row.req
    ensures RowsInOrder(v) && AppliedInOrder(v)
  {
    assert forall i :: 0 <= i < |w.rows| ==> v.rows[i] == w.rows[i] && w.rows[i] in w.rows;
  }

  lemma {:induction false} ClaimKeepsOrder(cfg: Config, w: World, relay: Relay, i: nat)
    requires Orderly(cfg, w)
    ensures Orderly(cfg, Step(cfg, w, Claim(relay, i)))
  {
    var v := Step(cfg, w, Claim(relay, i));
    if v != w {
      forall r ensures !Live(w, r) {
        if Live(w, r) {
          OldestIsUnique(w.rows, i, w.leases[r].row);
        }
      }
      assert forall k :: 0 <= k < |w.rows| ==>
          v.rows[k].req == w.rows[k].req && v.rows[k].status == w.rows[k].status && w.rows[k] in w.rows;
      assert forall r :: Live(v, r) ==> r == relay;
      assert HasPending(w.rows) by { assert w.rows[i] in w.rows; }
    }
  }

  lemma {:induction false} ReplayKeepsOrder(cfg: Config, w: World, relay: Relay, d: Delivery)
    requires Orderly(cfg, w)
    requires Timely(w, Replay(relay, d), false, Hold(LEASE_SECONDS - 1, LEASE_SECONDS - 1))
    ensures Orderly(cfg, Step(cfg, w, Replay(relay, d)))
  {
    var v := Step(cfg, w, Replay(relay, d));
    assert forall r :: Live(v, r) <==> Live(w, r);
    if v != w {
      var row := w.leases[relay].row;
      assert Live(w, relay);
      assert OldestPending(w.rows, row) && w.rows[row] in w.rows && HasPending(w.rows);
      AscendingAppend(w.applied, w.rows[row].req);
    }
  }

  lemma {:induction false} FinishKeepsOrder(cfg: Config, w: World, relay: Relay)
    requires Orderly(cfg, w)
    requires Timely(w, Finish(relay), false, Hold(LEASE_SECONDS - 1, LEASE_SECONDS - 1))
    ensures Orderly(cfg, Step(cfg, w, Finish(relay)))
  {
    var v := Step(cfg, w, Finish(relay));
    if v != w {
      assert Live(w, relay);
      assert forall k :: 0 <= k < |w.rows| ==>
          v.rows[k].req == w.rows[k].req && (v.rows[k].status.Pending? ==> w.rows[k].status.Pending?) &&
          w.rows[k] in w.rows;
      assert forall r :: Live(v, r) ==> Live(w, r) && r != relay;
      assert HasPending(w.rows) by { assert w.rows[w.leases[relay].row] in w.rows; }
    }
  }

  lemma {:induction false} StepKeepsOrder(cfg: Config, w: World, a: Action)
    requires Orderly(cfg, w)
    requires cfg.enabled ==> Timely(w, a, false, Hold(LEASE_SECONDS - 1, LEASE_SECONDS - 1))
    ensures Orderly(cfg, Step(cfg, w, a))
  {
    match a
    case Tick(seconds) => TickKeepsOrder(cfg, w, seconds);
    case Issue(checkFails) =>
      assert Step(cfg, w, a) == Step(cfg, w, Issue(false));
      IssueKeepsOrder(cfg, w);
    case Send(d) => SendKeepsOrder(cfg, w, d);
    case Enqueue(storeFails) => EnqueueKeepsOrder(cfg, w, storeFails);
    case Die =>
      assert forall r :: Live(Step(cfg, w, a), r) <==> Live(w, r);
    case Claim(relay, i) => ClaimKeepsOrder(cfg, w, relay, i);
    case Replay(relay, d) => ReplayKeepsOrder(cfg, w, relay, d);
    case Finish(relay) => FinishKeepsOrder(cfg, w, relay);
    case Crash(relay) =>
      assert forall r :: Live(Step(cfg, w, a), r) ==> Live(w, r);
  }

  lemma {:induction false} EveryTimelyRunIsOrderly(
    cfg: Config, now: int, actions: seq<Action>, mayFail: bool, hold: Hold)
    requires AllTimely(cfg, Initial(now), actions, mayFail, hold)
    requires !cfg.enabled || (!mayFail && WithinLease(hold))
    ensures Orderly(cfg, Run(cfg, Initial(now), actions))
  {
    if actions != [] {
      var front, a := actions[..|actions| - 1], actions[|actions| - 1];
      EveryTimelyRunIsOrderly(cfg, now, front, mayFail, hold);
      StepKeepsOrder(cfg, Run(cfg, Initial(now), front), a);
    }
  }

  /** The requests ushauth applies follow issue order once repeats are collapsed. */
  lemma {:induction false} AppliedInIssueOrder(
    cfg: Config, now: int, actions: seq<Action>, mayFail: bool, hold: Hold)
    requires AllTimely(cfg, Initial(now), actions, mayFail, hold)
    requires !cfg.enabled || (!mayFail && WithinLease(hold))
    ensures StrictlyAscending(Collapse(Run(cfg, Initial(now), actions).applied))
  {
    EveryTimelyRunIsOrderly(cfg, now, actions, mayFail, hold);
    AscendingIffCollapseStrict(Run(cfg, Initial(now), actions).applied);
  }

  /** A direct POST follows everything applied so far. */
  lemma {:induction false} DirectSendFollowsAll(
    cfg: Config, now: int, actions: seq<Action>, mayFail: bool, hold: Hold)
    requires AllTimely(cfg, Initial(now), actions, mayFail, hold)
    requires !cfg.enabled || (!mayFail && WithinLease(hold))
    requires Run(cfg, Initial(now), actions).call.Sending?
    ensures forall a <- Run(cfg, Initial(now), actions).applied :: a < Run(cfg, Initial(now), actions).call.req
  {
    EveryTimelyRunIsOrderly(cfg, now, actions, mayFail, hold);
  }

  // A direct POST with an older request pending: slow relays do not matter here.

  predicate ClearAtSend(cfg: Config, w: World) {
    && (w.call.Sending? || w.call.Requeueing? ==> !HasPending(w.rows))
    && (w.call.Queueing? || w.call.Requeueing? ==> cfg.enabled)
    && (!cfg.enabled ==> w.rows == [])
  }

  lemma {:induction false} StepKeepsClear(cfg: Config, w: World, a: Action)
    requires ClearAtSend(cfg, w) && (cfg.enabled && a.Issue? ==> !a.checkFails)
    ensures ClearAtSend(cfg, Step(cfg, w, a))
  {
    var v := Step(cfg, w, a);
    assert |v.rows| == |w.rows| ==> forall i :: 0 <= i < |v.rows| && v.rows[i].status.Pending? ==>
                                      w.rows[i].status.Pending? && w.rows[i] in w.rows;
  }

  /** However slow the relays: a direct POST happens only while nothing older of the booking is pending. */
  lemma {:induction false} DirectSendOnlyWhenNothingPending(
    cfg: Config, now: int, actions: seq<Action>, mayFail: bool, hold: Hold)
    requires AllTimely(cfg, Initial(now), actions, mayFail, hold) && (!cfg.enabled || !mayFail)
    ensures ClearAtSend(cfg, Run(cfg, Initial(now), actions))
    ensures Run(cfg, Initial(now), actions).call.Sending? ==> !HasPending(Run(cfg, Initial(now), actions).rows)
  {
    if actions != [] {
      var front := actions[..|actions| - 1];
      DirectSendOnlyWhenNothingPending(cfg, now, front, mayFail, hold);
      StepKeepsClear(cfg, Run(cfg, Initial(now), front), actions[|actions| - 1]);
    }
  }

  ghost predicate AlwaysClear(cfg: Config, mayFail: bool, hold: Hold) {
    forall now, actions :: AllTimely(cfg, Initial(now), actions, mayFail, hold) &&
                           Run(cfg, Initial(now), actions).call.Sending? ==>
                             !HasPending(Run(cfg, Initial(now), actions).rows)
  }

  // Both conditions are needed.

  const FINE: Delivery := Delivery(Response(200), true)

  /** The order is kept in every run that these two limits allow. */
  ghost predicate AlwaysInOrder(cfg: Config, mayFail: bool, hold: Hold) {
    forall now, actions :: AllTimely(cfg, Initial(now), actions, mayFail, hold) ==>
                             Ascending(Run(cfg, Initial(now), actions).applied)
  }

  lemma {:induction false} AllTimelyThen(
    cfg: Config, w: World, actions: seq<Action>, a: Action, mayFail: bool, hold: Hold)
    requires AllTimely(cfg, w, actions, mayFail, hold)
    requires Timely(Run(cfg, w, actions), a, mayFail, hold)
    ensures AllTimely(cfg, w, actions + [a], mayFail, hold)
    ensures Run(cfg, w, actions + [a]) == Step(cfg, Run(cfg, w, actions), a)
  {
    assert (actions + [a])[..|actions|] == actions;
  }

  /** One allowed run from time 0 ends in world `w`. */
  ghost predicate Reaches(cfg: Config, mayFail: bool, hold: Hold, w: World) {
    exists actions :: AllTimely(cfg, Initial(0), actions, mayFail, hold) && Run(cfg, Initial(0), actions) == w
  }

  lemma {:induction false} ReachesNext(cfg: Config, mayFail: bool, hold: Hold, w: World, a: Action)
    requires Reaches(cfg, mayFail, hold, w) && Timely(w, a, mayFail, hold)
    ensures Reaches(cfg, mayFail, hold, Step(cfg, w, a))
  {
    var actions :| AllTimely(cfg, Initial(0), actions, mayFail, hold) && Run(cfg, Initial(0), actions) == w;
    AllTimelyThen(cfg, Initial(0), actions, a, mayFail, hold);
  }

  /** The first request times out without reaching ushauth and is queued. */
  function OneQueued(): World {
    World(0, 1, Idle, [OutRow(0, Pending, 1, 10, Some(GatewayTimeout))], map[], [], {}, {})
  }

  lemma {:induction false} FirstRequestIsQueued(cfg: Config, mayFail: bool, hold: Hold)
    requires cfg.enabled
    ensures Reaches(cfg, mayFail, hold, OneQueued())
  {
    assert AllTimely(cfg, Initial(0), [], mayFail, hold) && Run(cfg, Initial(0), []) == Initial(0);
    var lost := Delivery(TimedOut, false);
    ReachesNext(cfg, mayFail, hold, Initial(0), Issue(false));
    var w1 := World(0, 1, Sending(0), [], map[], [], {}, {});
    ReachesNext(cfg, mayFail, hold, w1, Send(lost));
    var w2 := World(0, 1, Requeueing(0, GatewayTimeout), [], map[], [], {}, {});
    assert Step(cfg, w1, Send(lost)) == w2;
    ReachesNext(cfg, mayFail, hold, w2, Enqueue(false));
    assert BackoffSeconds(1) == 10;
    assert Step(cfg, w2, Enqueue(false)) == OneQueued();
  }

  /** The second request was applied while the first is still queued, and now due. */
  function SecondAhead(): World {
    World(10, 2, Idle, OneQueued().rows, map[], [1], {}, {})
  }

  lemma {:induction false} SecondGoesAhead(cfg: Config, hold: Hold)
    requires cfg.enabled
    ensures Reaches(cfg, true, hold, SecondAhead())
  {
    FirstRequestIsQueued(cfg, true, hold);
    ReachesNext(cfg, true, hold, OneQueued(), Issue(true));
    var w1 := World(0, 2, Sending(1), OneQueued().rows, map[], [], {}, {});
    assert Step(cfg, OneQueued(), Issue(true)) == w1;
    ReachesNext(cfg, true, hold, w1, Send(FINE));
    var w2 := World(0, 2, Idle, OneQueued().rows, map[], [1], {}, {});
    assert Step(cfg, w1, Send(FINE)) == w2;
    ReachesNext(cfg, true, hold, w2, Tick(10));
    assert Step(cfg, w2, Tick(10)) == SecondAhead();
  }

  /** The pending check of the second request fails, so it is sent directly, ahead of the first. */
  lemma {:induction false} BlindCheckReorders(cfg: Config, hold: Hold)
    requires cfg.enabled
    ensures !AlwaysInOrder(cfg, true, hold)
  {
    SecondGoesAhead(cfg, hold);
    var w3 := SecondAhead();
    var row := w3.rows[0];
    ReachesNext(cfg, true, hold, w3, Claim(0, 0));
    var w4 := w3.(rows := [row.(due := 100)], leases := map[0 := Lease(0, 100, 1, None)]);
    assert Step(cfg, w3, Claim(0, 0)) == w4;
    ReachesNext(cfg, true, hold, w4, Replay(0, FINE));
    var w5 := Step(cfg, w4, Replay(0, FINE));
    assert w5.applied == [1, 0];
    OutOfOrder(cfg, true, hold, w5, 0, 1);
  }

  lemma {:induction false} OutOfOrder(cfg: Config, mayFail: bool, hold: Hold, w: World, i: nat, j: nat)
    requires Reaches(cfg, mayFail, hold, w)
    requires i < j < |w.applied| && w.applied[i] > w.applied[j]
    ensures !AlwaysInOrder(cfg, mayFail, hold)
  {
    var actions :| AllTimely(cfg, Initial(0), actions, mayFail, hold) && Run(cfg, Initial(0), actions) == w;
    assert !Ascending(Run(cfg, Initial(0), actions).applied);
  }

  /** For any limits, that is so in all runs iff the outbox is off or the pending check cannot fail. */
  lemma {:induction false} AlwaysClearIff(cfg: Config, mayFail: bool, hold: Hold)
    ensures AlwaysClear(cfg, mayFail, hold) <==> !cfg.enabled || !mayFail
  {
    if !cfg.enabled || !mayFail {
      forall now, actions | AllTimely(cfg, Initial(now), actions, mayFail, hold)
        ensures Run(cfg, Initial(now), actions).call.Sending? ==> !HasPending(Run(cfg, Initial(now), actions).rows)
      {
        DirectSendOnlyWhenNothingPending(cfg, now, actions, mayFail, hold);
      }
    } else {
      FirstRequestIsQueued(cfg, mayFail, hold);
      ReachesNext(cfg, mayFail, hold, OneQueued(), Issue(true));
      var w := Step(cfg, OneQueued(), Issue(true));
      assert w.call.Sending? && w.rows[0] in w.rows && HasPending(w.rows);
      var actions :| AllTimely(cfg, Initial(0), actions, mayFail, hold) && Run(cfg, Initial(0), actions) == w;
    }
  }

  /** Two requests are queued, relay 0 claims the first, and its lease runs out. */
  function Overrun(): World {
    World(100, 2, Idle, [OutRow(0, Pending, 1, 100, Some(GatewayTimeout)), OutRow(1, Pending, 1, 10, None)],
          map[0 := Lease(0, 100, 1, None)], [], {}, {})
  }

  function Claimed(): World {
    Overrun().(now := 10)
  }

  lemma {:induction false} FirstIsClaimed(cfg: Config, mayFail: bool, hold: Hold)
    requires cfg.enabled
    ensures Reaches(cfg, mayFail, hold, Claimed())
  {
    FirstRequestIsQueued(cfg, mayFail, hold);
    var row := OneQueued().rows[0];
    assert row in OneQueued().rows && HasPending(OneQueued().rows);
    ReachesNext(cfg, mayFail, hold, OneQueued(), Issue(false));
    var w1 := World(0, 2, Queueing(1), [row], map[], [], {}, {});
    assert Step(cfg, OneQueued(), Issue(false)) == w1;
    ReachesNext(cfg, mayFail, hold, w1, Enqueue(false));
    assert BackoffSeconds(1) == 10;
    var w2 := World(0, 2, Idle, [row, OutRow(1, Pending, 1, 10, None)], map[], [], {}, {});
    assert Step(cfg, w1, Enqueue(false)) == w2;
    ReachesNext(cfg, mayFail, hold, w2, Tick(10));
    var w3 := w2.(now := 10);
    assert Step(cfg, w2, Tick(10)) == w3;
    ReachesNext(cfg, mayFail, hold, w3, Claim(0, 0));
    assert Step(cfg, w3, Claim(0, 0)) == Claimed();
  }

  lemma {:induction false} LeaseRunsOut(cfg: Config, mayFail: bool, hold: Hold)
    requires cfg.enabled
    ensures Reaches(cfg, mayFail, hold, Overrun())
  {
    FirstIsClaimed(cfg, mayFail, hold);
    ReachesNext(cfg, mayFail, hold, Claimed(), Tick(90));
    assert Step(cfg, Claimed(), Tick(90)) == Overrun();
  }

  /** Relay 1 takes the first row over and delivers it. */
  function TakenOver(): World {
    World(100, 2, Idle, [OutRow(0, Delivered, 1, 190, None), OutRow(1, Pending, 1, 10, None)],
          map[0 := Lease(0, 100, 1, None)], [0], {}, {})
  }

  function FirstReplayed(): World {
    var w := Overrun();
    w.(rows := [w.rows[0].(due := 190), w.rows[1]],
    leases := w.leases[1 := Lease(0, 190, 1, Some(FINE))], applied := [0])
  }

  lemma {:induction false} FirstIsReplayed(cfg: Config, mayFail: bool, hold: Hold)
    requires cfg.enabled
    ensures Reaches(cfg, mayFail, hold, FirstReplayed())
  {
    LeaseRunsOut(cfg, mayFail, hold);
    var w := Overrun();
    ReachesNext(cfg, mayFail, hold, w, Claim(1, 0));
    var w1 := w.(rows := FirstReplayed().rows, leases := w.leases[1 := Lease(0, 190, 1, None)]);
    assert Step(cfg, w, Claim(1, 0)) == w1;
    ReachesNext(cfg, mayFail, hold, w1, Replay(1, FINE));
    assert Step(cfg, w1, Replay(1, FINE)) == FirstReplayed();
  }

  lemma {:induction false} RowIsTakenOver(cfg: Config, mayFail: bool, hold: Hold)
    requires cfg.enabled
    ensures Reaches(cfg, mayFail, hold, TakenOver())
  {
    FirstIsReplayed(cfg, mayFail, hold);
    var w := Overrun();
    var w2 := FirstReplayed();
    ReachesNext(cfg, mayFail, hold, w2, Finish(1));
    assert Step(cfg, w2, Finish(1)).leases == w.leases;
    assert Step(cfg, w2, Finish(1)) == TakenOver();
  }

  function BothApplied(): World {
    var w := TakenOver();
    World(100, 2, Idle, [w.rows[0], w.rows[1].(due := 190)],
          map[0 := Lease(0, 100, 1, None), 1 := Lease(1, 190, 1, Some(FINE))], [0, 1], {}, {})
  }

  lemma {:induction false} SecondIsApplied(cfg: Config, mayFail: bool, hold: Hold)
    requires cfg.enabled
    ensures Reaches(cfg, mayFail, hold, BothApplied())
  {
    RowIsTakenOver(cfg, mayFail, hold);
    var w := TakenOver();
    ReachesNext(cfg, mayFail, hold, w, Claim(1, 1));
    var w1 := w.(rows := BothApplied().rows, leases := w.leases[1 := Lease(1, 190, 1, None)]);
    assert Step(cfg, w, Claim(1, 1)) == w1;
    ReachesNext(cfg, mayFail, hold, w1, Replay(1, FINE));
    assert Step(cfg, w1, Replay(1, FINE)) == BothApplied();
  }

  /** Relay 1 delivers both rows; then relay 0, whose lease has just run out, replays the first again. */
  lemma {:induction false} OverrunReorders(cfg: Config, mayFail: bool, hold: Hold)
    requires cfg.enabled && hold.replay >= LEASE_SECONDS
    ensures !AlwaysInOrder(cfg, mayFail, hold)
  {
    SecondIsApplied(cfg, mayFail, hold);
    var w2 := BothApplied();
    ReachesNext(cfg, mayFail, hold, w2, Replay(0, FINE));
    var w3 := Step(cfg, w2, Replay(0, FINE));
    assert w3.applied == [0, 1, 0];
    OutOfOrder(cfg, mayFail, hold, w3, 1, 2);
  }

  // The same with every replay in time: only the write-back of relay 0 comes too late.

  /** Relay 0 applied the first request but has not written that back when its lease runs out. */
  function Unwritten(): World {
    Overrun().(leases := map[0 := Lease(0, 100, 1, Some(FINE))], applied := [0])
  }

  lemma {:induction false} FirstIsUnwritten(cfg: Config, mayFail: bool, hold: Hold)
    requires cfg.enabled
    ensures Reaches(cfg, mayFail, hold, Unwritten())
  {
    FirstIsClaimed(cfg, mayFail, hold);
    var w := Claimed();
    ReachesNext(cfg, mayFail, hold, w, Replay(0, FINE));
    var w1 := w.(leases := map[0 := Lease(0, 100, 1, Some(FINE))], applied := [0]);
    assert Step(cfg, w, Replay(0, FINE)) == w1;
    ReachesNext(cfg, mayFail, hold, w1, Tick(90));
    assert Step(cfg, w1, Tick(90)) == Unwritten();
  }

  /** Relay 1 claims the first row again; then relay 0 marks it delivered, which frees the second row. */
  function Freed(): World {
    var w := Unwritten();
    w.(rows := [OutRow(0, Delivered, 1, 190, None), w.rows[1]], leases := map[1 := Lease(0, 190, 1, None)])
  }

  lemma {:induction false} SecondIsFreed(cfg: Config, mayFail: bool, hold: Hold)
    requires cfg.enabled && hold.write >= LEASE_SECONDS
    ensures Reaches(cfg, mayFail, hold, Freed())
  {
    FirstIsUnwritten(cfg, mayFail, hold);
    var w := Unwritten();
    ReachesNext(cfg, mayFail, hold, w, Claim(1, 0));
    var w1 := w.(rows := [w.rows[0].(due := 190), w.rows[1]], leases := w.leases[1 := Lease(0, 190, 1, None)]);
    assert Step(cfg, w, Claim(1, 0)) == w1;
    ReachesNext(cfg, mayFail, hold, w1, Finish(0));
    assert Step(cfg, w1, Finish(0)).leases == Freed().leases;
    assert Step(cfg, w1, Finish(0)) == Freed();
  }

  /** Relay 2 applied the second request. */
  function SecondDone(): World {
    var w := Freed();
    World(100, 2, Idle, [w.rows[0], w.rows[1].(due := 190)],
          w.leases[2 := Lease(1, 190, 1, Some(FINE))], [0, 1], {}, {})
  }

  function SecondClaimed(): World {
    var w := Freed();
    w.(rows := [w.rows[0], w.rows[1].(due := 190)], leases := w.leases[2 := Lease(1, 190, 1, None)])
  }

  lemma {:induction false} SecondIsClaimed(cfg: Config, mayFail: bool, hold: Hold)
    requires cfg.enabled && hold.write >= LEASE_SECONDS
    ensures Reaches(cfg, mayFail, hold, SecondClaimed())
  {
    SecondIsFreed(cfg, mayFail, hold);
    ReachesNext(cfg, mayFail, hold, Freed(), Claim(2, 1));
    assert Step(cfg, Freed(), Claim(2, 1)) == SecondClaimed();
  }

  lemma {:induction false} SecondIsDone(cfg: Config, mayFail: bool, hold: Hold)
    requires cfg.enabled && hold.write >= LEASE_SECONDS
    ensures Reaches(cfg, mayFail, hold, SecondDone())
  {
    SecondIsClaimed(cfg, mayFail, hold);
    ReachesNext(cfg, mayFail, hold, SecondClaimed(), Replay(2, FINE));
    assert Step(cfg, SecondClaimed(), Replay(2, FINE)) == SecondDone();
  }

  /** Relay 1, well inside its own lease, then applies the first request again. */
  lemma {:induction false} LateWriteReorders(cfg: Config, mayFail: bool, hold: Hold)
    requires cfg.enabled && hold.write >= LEASE_SECONDS
    ensures !AlwaysInOrder(cfg, mayFail, hold)
  {
    SecondIsDone(cfg, mayFail, hold);
    var w := SecondDone();
    ReachesNext(cfg, mayFail, hold, w, Replay(1, FINE));
    var w1 := Step(cfg, w, Replay(1, FINE));
    assert w1.applied == [0, 1, 0];
    OutOfOrder(cfg, mayFail, hold, w1, 1, 2);
  }

  /**
    * Exactly when order is guaranteed: the outbox is off, or the pending check cannot fail, every claimed row is
    * replayed before its lease ends, and every result is written back before it ends.
    */
  lemma {:induction false} AlwaysInOrderIff(cfg: Config, mayFail: bool, hold: Hold)
    ensures AlwaysInOrder(cfg, mayFail, hold) <==> !cfg.enabled || (!mayFail && WithinLease(hold))
  {
    if !cfg.enabled || (!mayFail && WithinLease(hold)) {
      forall now, actions | AllTimely(cfg, Initial(now), actions, mayFail, hold)
        ensures Ascending(Run(cfg, Initial(now), actions).applied)
      {
        EveryTimelyRunIsOrderly(cfg, now, actions, mayFail, hold);
      }
    } else if mayFail {
      BlindCheckReorders(cfg, hold);
    } else if hold.replay >= LEASE_SECONDS {
      OverrunReorders(cfg, mayFail, hold);
    } else {
      LateWriteReorders(cfg, mayFail, hold);
    }
  }
}
