/**
 * The dispatcher (`CEvent`): the keep-alive flag, the thread state, the wait
 * handle and its signal, `start`/`stop`, the wake-up upcall and the dispatch
 * loop. The OS wait is an outcome supplied by the environment, the clock a
 * reading supplied with it.
 */
module Dispatcher {
  import opened Types
  import opened TimerEntity
  import opened TimerRegistry

  /** The longest the dispatcher sleeps, in ms. */
  const DEFAULT_WAIT_TIME: u32 := 50

  datatype ThreadState = Waiting | Processing | Exited

  /** What one blocking wait on the event handle returns. */
  datatype WaitOutcome = TimedOut | Signaled | Interrupted | Error

  /** One blocking wait: the clock reading its timeout is computed from, and its outcome. */
  datatype WaitCall = WaitCall(now: u64, outcome: WaitOutcome)

  /**
   * What the environment does during one pass of the dispatch loop: the
   * waits (retried while interrupted), the clock reading used to collect
   * expired timers, the `AddTimer`/`DelTimer` calls made by the invoked
   * callbacks or by other threads before the next pass, and whether another
   * thread's `stop` has cleared the keep-alive flag by the time the loop
   * condition is read again.
   */
  datatype Round = Round(waits: seq<WaitCall>, expireNow: u64, ops: seq<RegistryOp>, stopRequested: bool)

  /** Every wait but the last was interrupted; the last one was not. */
  predicate WellFormedRound(r: Round)
  {
    && |r.waits| > 0
    && (forall j :: 0 <= j < |r.waits| - 1 ==> r.waits[j].outcome == Interrupted)
    && r.waits[|r.waits| - 1].outcome != Interrupted
  }

  function FinalOutcome(r: Round): WaitOutcome
    requires |r.waits| > 0
  {
    r.waits[|r.waits| - 1].outcome
  }

  predicate WellFormedRounds(rounds: seq<Round>)
  {
    forall k :: 0 <= k < |rounds| ==> WellFormedRound(rounds[k])
  }

  /** A trace after which the dispatcher thread has returned: its last round stops or fails. */
  predicate CompleteRun(rounds: seq<Round>)
  {
    && WellFormedRounds(rounds)
    && |rounds| > 0
    && (rounds[|rounds| - 1].stopRequested || FinalOutcome(rounds[|rounds| - 1]) == Error)
  }

  /**
   * The timeout of one wait: the nearest timeout cast to `uint32_t`, capped
   * at `DEFAULT_WAIT_TIME`. The cast keeps only the low 32 bits, so above
   * `UINT32_MAX` the result is the cap of those bits, not the cap.
   */
  function WaitTimeout(nearTimeout: u64): (timeout: u32)
    ensures timeout <= DEFAULT_WAIT_TIME
    ensures nearTimeout <= DEFAULT_WAIT_TIME ==> timeout == nearTimeout
    ensures DEFAULT_WAIT_TIME < nearTimeout <= U32_MAX ==> timeout == DEFAULT_WAIT_TIME
    ensures timeout == if nearTimeout % (U32_MAX + 1) > DEFAULT_WAIT_TIME then DEFAULT_WAIT_TIME
                       else nearTimeout % (U32_MAX + 1)
  {
    var truncated := TruncateTo32(nearTimeout);
    if truncated > DEFAULT_WAIT_TIME then DEFAULT_WAIT_TIME else truncated
  }

  /** No timeout of a sequence of waits exceeds `DEFAULT_WAIT_TIME`. */
  predicate Capped(timeouts: seq<u32>)
  {
    forall k :: 0 <= k < |timeouts| ==> timeouts[k] <= DEFAULT_WAIT_TIME
  }

  lemma CappedConcat(a: seq<u32>, b: seq<u32>)
    requires Capped(a) && Capped(b)
    ensures Capped(a + b)
  {
  }

  /**
   * The timeout depends only on the nearest timeout modulo 2^32: a nearest
   * deadline 2^32 ms further away gives the same wait, so one 2^32 ms away
   * gives a zero timeout instead of the full `DEFAULT_WAIT_TIME`.
   */
  lemma WaitTimeoutWraps(nearTimeout: u64)
    requires nearTimeout > U32_MAX
    ensures WaitTimeout(nearTimeout) == WaitTimeout(nearTimeout - (U32_MAX + 1))
  {
    TruncateTo32Wraps(nearTimeout);
  }

  /**
   * What a complete dispatch loop has done: the callbacks invoked, pass by
   * pass, the registry and counter it left and the keep-alive flag.
   */
  datatype RunResult = RunResult(invoked: seq<seq<Callback>>, registry: Registry, keepAlive: bool)

  /** How many registry calls the trace makes from pass `i` on. */
  function OpBudget(rounds: seq<Round>, i: nat): nat
    requires i <= |rounds|
    decreases |rounds| - i
  {
    if i == |rounds| then 0 else |rounds[i].ops| + OpBudget(rounds, i + 1)
  }

  /** The registry after one pass whose wait succeeded: expired timers collected, then the pass's calls. */
  function AfterPass(g: Registry, r: Round): (g': Registry)
    requires g.count as int + |r.ops| <= U64_MAX
    ensures g.count <= g'.count <= g.count as int + |r.ops|
  {
    ApplyAll(Registry(ExpireState(g.timers, r.expireNow), g.count), r.ops)
  }

  /**
   * The dispatch loop over the trace from pass `i` on, on values, after
   * `invoked` has been invoked already: while keep-alive is set and the wait
   * did not fail, collect the due callbacks, invoke them, let the pass's
   * registry calls happen and go on.
   */
  function Run(g: Registry, rounds: seq<Round>, i: nat, keepAlive: bool, invoked: seq<seq<Callback>>): RunResult
    requires WellFormedRounds(rounds) && i <= |rounds| && g.count as int + OpBudget(rounds, i) <= U64_MAX
    decreases |rounds| - i
  {
    if !keepAlive || i == |rounds| || FinalOutcome(rounds[i]) == Error then RunResult(invoked, g, keepAlive)
    else
      Run(AfterPass(g, rounds[i]), rounds, i + 1, !rounds[i].stopRequested, invoked + [DueCallbacks(g.timers, rounds[i].expireNow)])
  }

  /** A call made after one of the first `n` passes of the trace adds a timer with callback `c`. */
  predicate AddedIn(c: Callback, rounds: seq<Round>, n: nat)
  {
    exists k :: 0 <= k < n && k < |rounds| && AddedBy(c, rounds[k].ops)
  }

  lemma AddedInGrows(c: Callback, rounds: seq<Round>, n: nat, m: nat)
    requires AddedIn(c, rounds, n) && n <= m
    ensures AddedIn(c, rounds, m)
  {
    var k :| 0 <= k < n && k < |rounds| && AddedBy(c, rounds[k].ops);
    assert 0 <= k < m;
  }

  /**
   * Timer `x` is accounted for by the registry `g0` the loop started from
   * and the first `n` passes: it carries the uid and callback of a timer
   * registered at the start, or it was added by a call made after one of
   * those passes, under a uid handed out after the start.
   */
  predicate Origin(x: TimerEntry, g0: Registry, rounds: seq<Round>, n: nat)
  {
    || (exists y :: y in g0.timers && y.uid == x.uid && y.callback == x.callback)
    || (g0.count < x.uid && x.callback.Some? && AddedIn(x.callback.value, rounds, n))
  }

  /**
   * Callback `c` belongs to a timer registered at the start or added by a
   * call made after one of the first `n` passes.
   */
  predicate Provided(c: Callback, g0: Registry, rounds: seq<Round>, n: nat)
  {
    (exists y :: y in g0.timers && y.callback == Some(c)) || AddedIn(c, rounds, n)
  }

  predicate AllProvided(batch: seq<Callback>, g0: Registry, rounds: seq<Round>, n: nat)
  {
    forall c :: c in batch ==> Provided(c, g0, rounds, n)
  }

  /** The registry `g` is valid and every timer in it is accounted for by `g0` and the first `n` passes. */
  predicate Tracked(g: Registry, g0: Registry, rounds: seq<Round>, n: nat)
  {
    && WellFormed(g.timers) && UidsIssued(g) && g0.count <= g.count
    && forall x :: x in g.timers ==> Origin(x, g0, rounds, n)
  }

  /** A registry that is valid is accounted for by itself, before any pass. */
  lemma TrackedAtStart(g: Registry, rounds: seq<Round>)
    requires WellFormed(g.timers) && UidsIssued(g)
    ensures Tracked(g, g, rounds, 0)
  {
    forall x | x in g.timers ensures Origin(x, g, rounds, 0) {
      assert x in g.timers && x.uid == x.uid && x.callback == x.callback;
    }
  }

  lemma TrackedGrows(g: Registry, g0: Registry, rounds: seq<Round>, n: nat, m: nat)
    requires Tracked(g, g0, rounds, n) && n <= m
    ensures Tracked(g, g0, rounds, m)
  {
    forall x | x in g.timers ensures Origin(x, g0, rounds, m) {
      if !(exists y :: y in g0.timers && y.uid == x.uid && y.callback == x.callback) {
        AddedInGrows(x.callback.value, rounds, n, m);
      }
    }
  }

  /** Collecting expired timers keeps the registry valid and accounted for. */
  lemma ExpireTracked(g: Registry, g0: Registry, rounds: seq<Round>, n: nat, now: u64)
    requires Tracked(g, g0, rounds, n)
    ensures Tracked(Registry(ExpireState(g.timers, now), g.count), g0, rounds, n)
  {
    ExpireKeepsUidBound(g.timers, now, g.count as int);
    ExpireStateFacts(g.timers, now);
    forall x | x in ExpireState(g.timers, now) ensures Origin(x, g0, rounds, n) {
      var y :| y in g.timers && y.uid == x.uid && y.callback == x.callback;
      assert Origin(y, g0, rounds, n);
    }
  }

  /** The calls made after pass `i` keep the registry valid, accounted for by the first `i + 1` passes. */
  lemma OpsTracked(e: Registry, g0: Registry, rounds: seq<Round>, i: nat)
    requires i < |rounds| && Tracked(e, g0, rounds, i + 1) && e.count as int + |rounds[i].ops| <= U64_MAX
    ensures Tracked(ApplyAll(e, rounds[i].ops), g0, rounds, i + 1)
  {
    ApplyAllFacts(e, rounds[i].ops);
    forall x | x in ApplyAll(e, rounds[i].ops).timers ensures Origin(x, g0, rounds, i + 1) {
      if !(x in e.timers) {
        assert AddedBy(x.callback.value, rounds[i].ops);
        assert 0 <= i < i + 1 && i < |rounds|;
      }
    }
  }

  /** The callbacks collected from an accounted-for registry are accounted for. */
  lemma DueProvided(g: Registry, g0: Registry, rounds: seq<Round>, n: nat, now: u64)
    requires Tracked(g, g0, rounds, n)
    ensures AllProvided(DueCallbacks(g.timers, now), g0, rounds, n)
  {
    DueCallbacksFrom(g.timers, now);
    forall c | c in DueCallbacks(g.timers, now) ensures Provided(c, g0, rounds, n) {
      var y :| y in g.timers && y.time <= now && y.callback == Some(c);
      assert Origin(y, g0, rounds, n);
    }
  }

  /**
   * Pass `i`, with the registry calls after it, keeps the registry valid and
   * accounted for, now by the first `i + 1` passes; every callback it
   * collects is accounted for by the passes before it.
   */
  lemma PassTracked(g: Registry, g0: Registry, rounds: seq<Round>, i: nat)
    requires Tracked(g, g0, rounds, i) && i < |rounds| && g.count as int + |rounds[i].ops| <= U64_MAX
    ensures Tracked(AfterPass(g, rounds[i]), g0, rounds, i + 1)
    ensures AllProvided(DueCallbacks(g.timers, rounds[i].expireNow), g0, rounds, i)
  {
    TrackedGrows(g, g0, rounds, i, i + 1);
    ExpireTracked(g, g0, rounds, i + 1, rounds[i].expireNow);
    OpsTracked(Registry(ExpireState(g.timers, rounds[i].expireNow), g.count), g0, rounds, i);
    DueProvided(g, g0, rounds, i, rounds[i].expireNow);
  }

  /**
   * However many passes the loop makes, and whatever the calls between
   * them, the registry stays sorted with unique uids issued by the counter,
   * and every timer in it is accounted for by the registry it started from
   * and the calls of the trace.
   */
  lemma {:induction false} RunKeepsRegistryWellFormed(
    g0: Registry, g: Registry, rounds: seq<Round>, i: nat, keepAlive: bool, invoked: seq<seq<Callback>>)
    requires WellFormedRounds(rounds) && i <= |rounds| && g.count as int + OpBudget(rounds, i) <= U64_MAX
    requires Tracked(g, g0, rounds, i)
    ensures Tracked(Run(g, rounds, i, keepAlive, invoked).registry, g0, rounds, |rounds|)
    decreases |rounds| - i
  {
    if keepAlive && i < |rounds| && FinalOutcome(rounds[i]) != Error {
      PassTracked(g, g0, rounds, i);
      RunKeepsRegistryWellFormed(g0, AfterPass(g, rounds[i]), rounds, i + 1, !rounds[i].stopRequested,
        invoked + [DueCallbacks(g.timers, rounds[i].expireNow)]);
    } else {
      TrackedGrows(g, g0, rounds, i, |rounds|);
    }
  }

  /** The loop keeps the batches invoked before it and adds at most one batch per pass. */
  lemma {:induction false} RunExtendsInvoked(
    g: Registry, rounds: seq<Round>, i: nat, keepAlive: bool, invoked: seq<seq<Callback>>)
    requires WellFormedRounds(rounds) && i <= |rounds| && g.count as int + OpBudget(rounds, i) <= U64_MAX
    ensures invoked <= Run(g, rounds, i, keepAlive, invoked).invoked
    ensures |Run(g, rounds, i, keepAlive, invoked).invoked| <= |invoked| + |rounds| - i
    decreases |rounds| - i
  {
    if keepAlive && i < |rounds| && FinalOutcome(rounds[i]) != Error {
      var invoked' := invoked + [DueCallbacks(g.timers, rounds[i].expireNow)];
      RunExtendsInvoked(AfterPass(g, rounds[i]), rounds, i + 1, !rounds[i].stopRequested, invoked');
      assert invoked <= invoked';
    }
  }

  /**
   * Every callback in a batch the loop adds belongs to a timer that was
   * registered at its start, or added by a call made after an earlier pass:
   * the batch added at pass `i + d` is accounted for by the first `i + d`
   * passes.
   */
  lemma {:induction false} RunInvokesRegistered(
    g0: Registry, g: Registry, rounds: seq<Round>, i: nat, keepAlive: bool, invoked: seq<seq<Callback>>)
    requires WellFormedRounds(rounds) && i <= |rounds| && g.count as int + OpBudget(rounds, i) <= U64_MAX
    requires Tracked(g, g0, rounds, i)
    ensures forall k :: |invoked| <= k < |Run(g, rounds, i, keepAlive, invoked).invoked| ==>
      AllProvided(Run(g, rounds, i, keepAlive, invoked).invoked[k], g0, rounds, i + (k - |invoked|))
    decreases |rounds| - i
  {
    if keepAlive && i < |rounds| && FinalOutcome(rounds[i]) != Error {
      var g' := AfterPass(g, rounds[i]);
      var invoked' := invoked + [DueCallbacks(g.timers, rounds[i].expireNow)];
      var r := Run(g', rounds, i + 1, !rounds[i].stopRequested, invoked');
      PassTracked(g, g0, rounds, i);
      RunExtendsInvoked(g', rounds, i + 1, !rounds[i].stopRequested, invoked');
      RunInvokesRegistered(g0, g', rounds, i + 1, !rounds[i].stopRequested, invoked');
      forall k | |invoked| <= k < |r.invoked| ensures AllProvided(r.invoked[k], g0, rounds, i + (k - |invoked|)) {
        if k == |invoked| {
          assert r.invoked[k] == invoked'[k];
        } else {
          assert i + 1 + (k - |invoked'|) == i + (k - |invoked|);
        }
      }
    }
  }

  /**
   * From a valid registry, everything a whole run leaves is accounted for by
   * that registry and the calls of the trace, and the batch of pass `k` by
   * that registry and the calls made before pass `k`.
   */
  lemma RunFromStart(g: Registry, rounds: seq<Round>, keepAlive: bool)
    requires WellFormed(g.timers) && UidsIssued(g)
    requires WellFormedRounds(rounds) && g.count as int + OpBudget(rounds, 0) <= U64_MAX
    ensures Tracked(Run(g, rounds, 0, keepAlive, []).registry, g, rounds, |rounds|)
    ensures forall k :: 0 <= k < |Run(g, rounds, 0, keepAlive, []).invoked| ==>
      AllProvided(Run(g, rounds, 0, keepAlive, []).invoked[k], g, rounds, k)
  {
    TrackedAtStart(g, rounds);
    RunKeepsRegistryWellFormed(g, g, rounds, 0, keepAlive, []);
    RunInvokesRegistered(g, g, rounds, 0, keepAlive, []);
  }

  /**
   * On a complete trace the loop ends with keep-alive still set only when
   * some wait failed: otherwise the last pass saw the stop request.
   */
  lemma {:induction false} RunExitsOnStopOrError(
    g: Registry, rounds: seq<Round>, i: nat, keepAlive: bool, invoked: seq<seq<Callback>>)
    requires CompleteRun(rounds) && i <= |rounds| && (i < |rounds| || !keepAlive)
    requires g.count as int + OpBudget(rounds, i) <= U64_MAX
    ensures Run(g, rounds, i, keepAlive, invoked).keepAlive ==>
      keepAlive && exists k :: i <= k < |rounds| && FinalOutcome(rounds[k]) == Error
    decreases |rounds| - i
  {
    if keepAlive && i < |rounds| && FinalOutcome(rounds[i]) != Error {
      RunExitsOnStopOrError(AfterPass(g, rounds[i]), rounds, i + 1, !rounds[i].stopRequested,
        invoked + [DueCallbacks(g.timers, rounds[i].expireNow)]);
    }
  }

  /** One pass of `Run` whose wait did not fail. */
  lemma RunStep(g: Registry, rounds: seq<Round>, i: nat, invoked: seq<seq<Callback>>)
    requires WellFormedRounds(rounds) && i < |rounds| && FinalOutcome(rounds[i]) != Error
    requires g.count as int + OpBudget(rounds, i) <= U64_MAX
    ensures Run(g, rounds, i, true, invoked) ==
      Run(AfterPass(g, rounds[i]), rounds, i + 1, !rounds[i].stopRequested, invoked + [DueCallbacks(g.timers, rounds[i].expireNow)])
  {
  }

  /** A run that is not kept alive, has no rounds left or whose wait fails does nothing more. */
  lemma RunStops(g: Registry, rounds: seq<Round>, i: nat, keepAlive: bool, invoked: seq<seq<Callback>>)
    requires WellFormedRounds(rounds) && i <= |rounds| && g.count as int + OpBudget(rounds, i) <= U64_MAX
    requires !keepAlive || i == |rounds| || FinalOutcome(rounds[i]) == Error
    ensures Run(g, rounds, i, keepAlive, invoked) == RunResult(invoked, g, keepAlive)
  {
  }

  /** `CEvent`: a timer manager driven by one dispatcher thread. */
  class Event {
    const manager: TimerManager
    var state: ThreadState
    var keepAlive: bool
    /** The event handle (and, on Linux, the epoll handle) is open. */
    var handleValid: bool
    /** The eventfd counter is non-zero, or the Windows event is set. */
    var signaled: bool
    /** The dispatcher thread object is joinable. */
    var joinable: bool
    /** How many dispatcher threads `Start` has launched. */
    ghost var launches: nat

    ghost predicate Valid()
      reads this, manager, manager.ids
    {
      manager.Valid() && (keepAlive ==> handleValid)
    }

    /** A fresh dispatcher: handles open, no thread, not kept alive, `Exited`. */
    constructor (ids: UidCounter)
      ensures Valid() && fresh(manager) && manager.ids == ids && manager.timers == []
      ensures state == Exited && !keepAlive && handleValid && !signaled && !joinable && launches == 0
    {
      manager := new TimerManager(ids);
      state := Exited;
      keepAlive := false;
      handleValid := true;
      signaled := false;
      joinable := false;
      launches := 0;
    }

    /**
     * Fails once the handle is closed; does nothing but succeed while kept
     * alive; otherwise sets keep-alive and launches the dispatcher thread.
     * `spawnOk` is whether the thread could be created: when it could not,
     * `Start` fails but keep-alive stays set.
     */
    method Start(spawnOk: bool) returns (ok: bool)
      requires Valid()
      modifies this
      ensures Valid()
      ensures ok == (old(handleValid) && (old(keepAlive) || spawnOk))
      ensures !old(handleValid) || old(keepAlive) ==> unchanged(this)
      ensures old(handleValid) && !old(keepAlive) ==>
        && keepAlive && handleValid && state == old(state) && signaled == old(signaled)
        && joinable == (spawnOk || old(joinable))
        && launches == old(launches) + (if spawnOk then 1 else 0)
    {
      if !handleValid {
        return false;
      }
      if keepAlive {
        return true;
      }
      keepAlive := true;
      if !spawnOk {
        return false;
      }
      joinable := true;
      launches := launches + 1;
      ok := true;
    }

    /**
     * Does nothing once the handle is closed; otherwise clears keep-alive,
     * wakes a waiting dispatcher, joins it (its loop ends and it records
     * `Exited`) and closes the handle, discarding any pending signal.
     */
    method Stop()
      requires Valid()
      modifies this
      ensures Valid()
      ensures !old(handleValid) ==> unchanged(this)
      ensures old(handleValid) ==>
        && !keepAlive && !handleValid && !joinable && !signaled && launches == old(launches)
        && state == (if old(joinable) then Exited else old(state))
    {
      if !handleValid {
        return;
      }
      keepAlive := false;
      Tickle();
      if joinable {
        state := Exited;
        joinable := false;
      }
      signaled := false;
      handleValid := false;
    }

    /** Signals the handle only while the dispatcher is `Waiting`. */
    method Tickle()
      modifies this`signaled
      ensures signaled == (old(signaled) || state == Waiting)
    {
      if state == Waiting {
        signaled := true;
      }
    }

    /** The registry's upcall: a timer went in at the front, so wake the dispatcher. */
    method OnTimerInsertedAtFront()
      modifies this`signaled
      ensures signaled == (old(signaled) || state == Waiting)
    {
      Tickle();
    }

    /**
     * `AddTimer` as seen on the dispatcher: the registry operation, followed
     * by the upcall when the new timer became the first one.
     */
    method AddTimer(ms: u64, cb: Option<Callback>, recycle: u32, now: u64) returns (uid: u64)
      requires Valid() && manager.ids.count < U64_MAX
      modifies manager, manager.ids, this`signaled
      ensures Valid()
      ensures cb.None? ==> uid == INVALID_TIMER_ID && manager.timers == old(manager.timers) && signaled == old(signaled)
      ensures cb.Some? ==> uid != INVALID_TIMER_ID
      ensures cb.Some? ==>
        multiset(manager.timers) == multiset(old(manager.timers)) + multiset{TimerEntry(Add64(now, ms), recycle, cb, uid)}
      ensures cb.Some? ==> signaled == (old(signaled) || (manager.timers[0].uid == uid && state == Waiting))
      ensures manager.Snapshot() == ApplyOp(old(manager.Snapshot()), AddOp(ms, cb, recycle, now))
    {
      var atFront;
      uid, atFront := manager.AddTimer(ms, cb, recycle, now);
      if atFront {
        OnTimerInsertedAtFront();
      }
    }

    /**
     * The wait phase of one pass: state `Waiting`, timeout from the nearest
     * deadline, and the wait retried with a recomputed timeout while it is
     * interrupted. A signal that wakes the wait is consumed.
     */
    method WaitForWake(r: Round) returns (outcome: WaitOutcome, timeouts: seq<u32>)
      requires Sorted(manager.timers) && WellFormedRound(r)
      modifies this`state, this`signaled
      ensures state == Waiting
      ensures outcome == FinalOutcome(r)
      ensures |timeouts| == |r.waits|
      ensures forall j :: 0 <= j < |timeouts| ==> timeouts[j] == WaitTimeout(manager.GetNearTimeout(r.waits[j].now))
      ensures signaled == (old(signaled) && outcome != Signaled)
    {
      state := Waiting;
      var timeout := WaitTimeout(manager.GetNearTimeout(r.waits[0].now));
      timeouts := [timeout];
      var j := 0;
      outcome := r.waits[0].outcome;
      while outcome == Interrupted
        invariant 0 <= j < |r.waits| && |timeouts| == j + 1
        invariant outcome == r.waits[j].outcome
        invariant forall k :: 0 <= k <= j ==> timeouts[k] == WaitTimeout(manager.GetNearTimeout(r.waits[k].now))
        invariant state == Waiting && signaled == old(signaled)
        decreases |r.waits| - j
      {
        j := j + 1;
        timeout := WaitTimeout(manager.GetNearTimeout(r.waits[j].now));
        ghost var previous := timeouts;
        timeouts := timeouts + [timeout];
        assert forall k :: 0 <= k < j ==> timeouts[k] == previous[k];
        outcome := r.waits[j].outcome;
      }
      if outcome == Signaled {
        signaled := false;
      }
    }

    /** The processing phase of one pass: state `Processing`, then collect the due callbacks. */
    method Dispatch(now: u64) returns (cbs: seq<Callback>)
      requires Valid()
      modifies this`state, manager
      ensures Valid()
      ensures state == Processing
      ensures cbs == DueCallbacks(old(manager.timers), now)
      ensures manager.timers == ExpireState(old(manager.timers), now)
    {
      state := Processing;
      cbs := manager.ListExpireTimer(now);
    }

    /**
     * One pass of the loop body: wait, and unless the wait failed, dispatch.
     * On failure nothing is collected and the registry is untouched.
     */
    method Pass(r: Round) returns (outcome: WaitOutcome, timeouts: seq<u32>, cbs: seq<Callback>)
      requires Valid() && WellFormedRound(r)
      modifies this`state, this`signaled, manager
      ensures Valid() && keepAlive == old(keepAlive)
      ensures outcome == FinalOutcome(r)
      ensures |timeouts| == |r.waits| && Capped(timeouts)
      ensures outcome == Error ==> cbs == [] && manager.timers == old(manager.timers)
      ensures outcome != Error ==> cbs == DueCallbacks(old(manager.timers), r.expireNow)
      ensures outcome != Error ==> manager.timers == ExpireState(old(manager.timers), r.expireNow)
    {
      outcome, timeouts := WaitForWake(r);
      if outcome == Error {
        return outcome, timeouts, [];
      }
      cbs := Dispatch(r.expireNow);
    }

    /** Invokes the collected callbacks in order, appending each to the record of invocations. */
    method InvokeAll(cbs: seq<Callback>) returns (invoked: seq<Callback>)
      ensures invoked == cbs
    {
      invoked := [];
      for k := 0 to |cbs|
        invariant invoked == cbs[..k]
      {
        invoked := invoked + [cbs[k]];
      }
      assert cbs[..|cbs|] == cbs;
    }

    /**
     * The registry calls made between two passes, one after the other;
     * while the dispatcher is not waiting none of them signals it.
     */
    method ApplyOps(ops: seq<RegistryOp>)
      requires Valid() && manager.ids.count as int + |ops| <= U64_MAX
      modifies manager, manager.ids, this`signaled
      ensures Valid()
      ensures manager.Snapshot() == ApplyAll(old(manager.Snapshot()), ops)
      ensures state != Waiting ==> signaled == old(signaled)
    {
      ghost var g0 := manager.Snapshot();
      assert ops[..0] == [];
      for j := 0 to |ops|
        invariant Valid()
        invariant manager.Snapshot() == ApplyAll(g0, ops[..j])
        invariant state != Waiting ==> signaled == old(signaled)
      {
        assert ops[..j + 1][..j] == ops[..j];
        match ops[j]
        case AddOp(ms, cb, recycle, now) =>
          var _ := AddTimer(ms, cb, recycle, now);
        case DelOp(uid) =>
          manager.DelTimer(uid);
      }
      assert ops[..|ops|] == ops;
    }

    /**
     * Where the dispatch loop stands before pass `i`: the dispatcher is
     * valid, the counter has room for the calls left, no wait so far exceeded
     * `DEFAULT_WAIT_TIME`, and what is left of the run from its current
     * registry is the whole run `spec`.
     */
    ghost predicate Progress(rounds: seq<Round>, i: nat, invoked: seq<seq<Callback>>, timeouts: seq<u32>, spec: RunResult)
      reads this, manager, manager.ids
    {
      && Valid() && WellFormedRounds(rounds) && i <= |rounds| && (keepAlive ==> i < |rounds|)
      && manager.ids.count as int + OpBudget(rounds, i) <= U64_MAX
      && Capped(timeouts)
      && spec == Run(manager.Snapshot(), rounds, i, keepAlive, invoked)
    }

    /**
     * One iteration of the dispatch loop: a pass, the invocation of what it
     * collected, the registry calls made before the next pass, and the
     * keep-alive flag as the environment left it. It keeps `Progress`, moving
     * to the next pass; after a failed wait it stays at this pass, and the
     * run is over.
     */
    method Step(rounds: seq<Round>, i: nat, done: seq<seq<Callback>>, waited: seq<u32>, ghost spec: RunResult)
      returns (outcome: WaitOutcome, next: nat, invoked: seq<seq<Callback>>, timeouts: seq<u32>)
      requires Progress(rounds, i, done, waited, spec) && keepAlive
      requires i + 1 < |rounds| || rounds[i].stopRequested || FinalOutcome(rounds[i]) == Error
      modifies this`state, this`signaled, this`keepAlive, manager, manager.ids
      ensures Progress(rounds, next, invoked, timeouts, spec)
      ensures outcome == FinalOutcome(rounds[i])
      ensures outcome == Error ==> next == i && keepAlive && spec == RunResult(invoked, manager.Snapshot(), keepAlive)
      ensures outcome != Error ==> next == i + 1
    {
      ghost var g0 := manager.Snapshot();
      var cbs, ts;
      outcome, ts, cbs := Pass(rounds[i]);
      timeouts := waited + ts;
      CappedConcat(waited, ts);
      if outcome == Error {
        RunStops(g0, rounds, i, true, done);
        return outcome, i, done, timeouts;
      }
      var batch := InvokeAll(cbs);
      invoked := done + [batch];
      ApplyOps(rounds[i].ops);
      if rounds[i].stopRequested {
        keepAlive := false;
      }
      RunStep(g0, rounds, i, done);
      next := i + 1;
    }

    /**
     * `_ThreadEntry` over a complete trace: while keep-alive is set, wait,
     * stop on a fatal wait error, otherwise dispatch and invoke the collected
     * callbacks in order; on leaving the loop record `Exited`. Returns the
     * callbacks invoked and the timeout of every wait.
     */
    method ThreadEntry(rounds: seq<Round>) returns (invoked: seq<seq<Callback>>, timeouts: seq<u32>)
      requires Valid() && CompleteRun(rounds)
      requires manager.ids.count as int + OpBudget(rounds, 0) <= U64_MAX
      modifies this`state, this`signaled, this`keepAlive, manager, manager.ids
      ensures Valid()
      ensures state == Exited
      ensures handleValid == old(handleValid) && joinable == old(joinable) && launches == old(launches)
      ensures Capped(timeouts)
      ensures RunResult(invoked, manager.Snapshot(), keepAlive) == Run(old(manager.Snapshot()), rounds, 0, old(keepAlive), [])
    {
      invoked, timeouts := [], [];
      ghost var spec := Run(manager.Snapshot(), rounds, 0, keepAlive, []);
      var i := 0;
      while keepAlive
        invariant Progress(rounds, i, invoked, timeouts, spec)
        decreases |rounds| - i
      {
        var outcome;
        outcome, i, invoked, timeouts := Step(rounds, i, invoked, timeouts, spec);
        if outcome == Error {
          break;
        }
      }
      if !keepAlive {
        RunStops(manager.Snapshot(), rounds, i, false, invoked);
      }
      state := Exited;
    }
  }

  /** Calling `Start` twice succeeds both times and launches one thread. */
  method StartTwice(e: Event, retrySpawnOk: bool) returns (first: bool, second: bool)
    requires e.Valid() && e.handleValid && !e.keepAlive
    modifies e
    ensures first && second && e.launches == old(e.launches) + 1
  {
    first := e.Start(true);
    second := e.Start(retrySpawnOk);
  }

  /**
   * After a thread creation that failed, a second `Start` reports success
   * although no dispatcher thread was ever launched.
   */
  method StartAfterFailedSpawn(e: Event, retrySpawnOk: bool) returns (first: bool, second: bool)
    requires e.Valid() && e.handleValid && !e.keepAlive
    modifies e
    ensures !first && second && e.keepAlive && e.launches == old(e.launches)
  {
    first := e.Start(false);
    second := e.Start(retrySpawnOk);
  }

  /** Once stopped, a dispatcher cannot be started again. */
  method StartAfterStop(e: Event, spawnOk: bool) returns (ok: bool)
    requires e.Valid()
    modifies e
    ensures !ok && !e.keepAlive
  {
    e.Stop();
    ok := e.Start(spawnOk);
  }

  /** A second `Stop` changes nothing: two calls leave what one call leaves. */
  method StopTwice(e: Event)
    requires e.Valid()
    modifies e
    ensures e.Valid() && !e.handleValid && !e.keepAlive
    ensures !old(e.handleValid) ==> unchanged(e)
    ensures old(e.handleValid) ==>
      && !e.joinable && !e.signaled && e.launches == old(e.launches)
      && e.state == (if old(e.joinable) then Exited else old(e.state))
  {
    e.Stop();
    e.Stop();
  }
}
