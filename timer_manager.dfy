/**
 * The timer registry (`CTimerManager`): a set of timers ordered by the
 * comparator, modelled as a strictly sorted sequence of timer values with
 * unique uids.
 */
module TimerRegistry {
  import opened Types
  import opened TimerEntity

  // ------------------------------------------------------------- invariants

  predicate Sorted(s: seq<TimerEntry>)
  {
    forall i, j :: 0 <= i < j < |s| ==> Less(s[i], s[j])
  }

  predicate UniqueUids(s: seq<TimerEntry>)
  {
    forall i, j :: 0 <= i < j < |s| ==> s[i].uid != s[j].uid
  }

  /** The registry invariant: strictly sorted by (deadline, uid), no uid twice. */
  predicate WellFormed(s: seq<TimerEntry>)
  {
    Sorted(s) && UniqueUids(s)
  }

  predicate UidFree(s: seq<TimerEntry>, id: u64)
  {
    forall x :: x in s ==> x.uid != id
  }

  lemma SortedHeadLess(s: seq<TimerEntry>)
    requires Sorted(s) && s != []
    ensures forall x :: x in s[1..] ==> Less(s[0], x)
  {
    forall x | x in s[1..] ensures Less(s[0], x) {
      var i :| 0 <= i < |s[1..]| && s[1..][i] == x;
      assert s[i + 1] == x;
    }
  }

  lemma UniqueHeadFree(s: seq<TimerEntry>)
    requires UniqueUids(s) && s != []
    ensures UidFree(s[1..], s[0].uid)
  {
    forall x | x in s[1..] ensures x.uid != s[0].uid {
      var i :| 0 <= i < |s[1..]| && s[1..][i] == x;
      assert s[i + 1] == x;
    }
  }

  /** The invariant survives putting in front an element below all others. */
  lemma ConsWellFormed(h: TimerEntry, r: seq<TimerEntry>)
    requires WellFormed(r)
    requires forall x :: x in r ==> Less(h, x) && x.uid != h.uid
    ensures WellFormed([h] + r)
  {
    var s := [h] + r;
    forall i, j | 0 <= i < j < |s| ensures Less(s[i], s[j]) && s[i].uid != s[j].uid {
      assert s[j] == r[j - 1];
      if i > 0 {
        assert s[i] == r[i - 1];
      }
    }
  }

  // ------------------------------------------------------------------ insert

  /**
   * `std::set::insert` under the comparator: the timer goes in at its sorted
   * position, unless an equivalent one is present, which is then kept.
   */
  function Insert(s: seq<TimerEntry>, t: TimerEntry): (r: seq<TimerEntry>)
    ensures r != []
  {
    if s == [] then [t]
    else if Less(t, s[0]) then [t] + s
    else if Less(s[0], t) then [s[0]] + Insert(s[1..], t)
    else s
  }

  /** The iterator `insert` returns is `begin()`. */
  predicate InsertedAtFront(s: seq<TimerEntry>, t: TimerEntry)
  {
    s == [] || !Less(s[0], t)
  }

  /**
   * Inserting a timer whose uid is new keeps the invariant and adds exactly
   * that timer.
   */
  lemma {:induction false} InsertFacts(s: seq<TimerEntry>, t: TimerEntry)
    requires WellFormed(s) && UidFree(s, t.uid)
    ensures WellFormed(Insert(s, t))
    ensures multiset(Insert(s, t)) == multiset(s) + multiset{t}
    ensures forall x :: x in Insert(s, t) <==> x in s || x == t
    decreases |s|
  {
    if s == [] {
    } else if Less(t, s[0]) {
      SortedHeadLess(s);
      assert s == [s[0]] + s[1..];
      ConsWellFormed(t, s);
    } else {
      assert Less(s[0], t);
      assert s == [s[0]] + s[1..];
      var r := Insert(s[1..], t);
      InsertFacts(s[1..], t);
      SortedHeadLess(s);
      UniqueHeadFree(s);
      ConsWellFormed(s[0], r);
    }
  }

  /**
   * For a timer with a new uid, the upcall condition holds exactly when the
   * new timer precedes every registered one, i.e. when it is the new first
   * element.
   */
  lemma InsertedAtFrontIsMinimum(s: seq<TimerEntry>, t: TimerEntry)
    requires WellFormed(s) && UidFree(s, t.uid)
    ensures InsertedAtFront(s, t) <==> (forall x :: x in s ==> Less(t, x))
    ensures InsertedAtFront(s, t) <==> Insert(s, t)[0] == t
    ensures InsertedAtFront(s, t) <==> Insert(s, t)[0].uid == t.uid
  {
    if s != [] {
      SortedHeadLess(s);
      if !Less(s[0], t) {
        assert Less(t, s[0]);
        forall x | x in s ensures Less(t, x) {
          if x != s[0] {
            assert x in s[1..] by { assert s == [s[0]] + s[1..]; }
          }
        }
      }
      assert Less(s[0], t) ==> Insert(s, t)[0] == s[0];
    }
  }

  // ------------------------------------------------------------------ delete

  /** `DelTimer`'s scan: erase the first timer with uid `id`, if any. */
  function RemoveFirst(s: seq<TimerEntry>, id: u64): (r: seq<TimerEntry>)
    ensures |r| <= |s|
  {
    if s == [] then []
    else if s[0].uid == id then s[1..]
    else [s[0]] + RemoveFirst(s[1..], id)
  }

  /** With no such uid registered, removal changes nothing. */
  lemma {:induction false} RemoveFirstAbsent(s: seq<TimerEntry>, id: u64)
    requires UidFree(s, id)
    ensures RemoveFirst(s, id) == s
    decreases |s|
  {
    if s != [] {
      assert s == [s[0]] + s[1..];
      RemoveFirstAbsent(s[1..], id);
    }
  }

  /** Removal cuts out exactly the first match and keeps the rest in order. */
  lemma {:induction false} RemoveFirstAt(s: seq<TimerEntry>, id: u64, k: nat)
    requires k < |s| && s[k].uid == id
    requires forall j :: 0 <= j < k ==> s[j].uid != id
    ensures RemoveFirst(s, id) == s[..k] + s[k + 1..]
    decreases k
  {
    if k > 0 {
      RemoveFirstAt(s[1..], id, k - 1);
      assert s[..k] == [s[0]] + s[1..][..k - 1];
      assert s[k + 1..] == s[1..][k..];
    }
  }

  /**
   * Removal keeps the invariant, drops exactly the timer with that uid and
   * keeps every other one.
   */
  lemma {:induction false} RemoveFirstFacts(s: seq<TimerEntry>, id: u64)
    requires WellFormed(s)
    ensures WellFormed(RemoveFirst(s, id))
    ensures UidFree(RemoveFirst(s, id), id)
    ensures forall x :: x in RemoveFirst(s, id) <==> x in s && x.uid != id
    ensures |RemoveFirst(s, id)| == if UidFree(s, id) then |s| else |s| - 1
    decreases |s|
  {
    if s != [] {
      assert s == [s[0]] + s[1..];
      UniqueHeadFree(s);
      if s[0].uid == id {
        RemoveFirstAbsent(s[1..], id);
      } else {
        RemoveFirstFacts(s[1..], id);
        SortedHeadLess(s);
        ConsWellFormed(s[0], RemoveFirst(s[1..], id));
      }
    }
  }

  /** Deleting the same uid twice is the same as deleting it once. */
  lemma RemoveFirstIdempotent(s: seq<TimerEntry>, id: u64)
    requires WellFormed(s)
    ensures RemoveFirst(RemoveFirst(s, id), id) == RemoveFirst(s, id)
  {
    RemoveFirstFacts(s, id);
    RemoveFirstAbsent(RemoveFirst(s, id), id);
  }

  // ------------------------------------------------------------------ expire

  /** Length of the prefix `_ListExpireTimer`'s first loop passes over. */
  function ExpiredCount(s: seq<TimerEntry>, now: u64): (k: nat)
    ensures k <= |s|
  {
    if s == [] || s[0].time > now then 0 else 1 + ExpiredCount(s[1..], now)
  }

  /** The callback of a timer, as a list of zero or one element. */
  function CallbackOf(t: TimerEntry): seq<Callback>
  {
    if t.callback.Some? then [t.callback.value] else []
  }

  /** The callbacks `_ListExpireTimer`'s second loop collects from a batch. */
  function FiredCallbacks(e: seq<TimerEntry>): seq<Callback>
  {
    if e == [] then [] else CallbackOf(e[0]) + FiredCallbacks(e[1..])
  }

  /** One step of the second loop: reinsert a recurring timer that has a callback. */
  function ReinsertStep(s: seq<TimerEntry>, t: TimerEntry): seq<TimerEntry>
  {
    if t.callback.Some? && 0 < t.recycle then Insert(s, Refreshed(t)) else s
  }

  /** The second loop's effect on the registry, batch element by batch element. */
  function ReinsertAll(s: seq<TimerEntry>, e: seq<TimerEntry>): seq<TimerEntry>
    decreases |e|
  {
    if e == [] then s else ReinsertAll(ReinsertStep(s, e[0]), e[1..])
  }

  /** The timers of a batch that come back, with their deadlines advanced. */
  function BatchReschedules(e: seq<TimerEntry>): seq<TimerEntry>
  {
    if e == [] then []
    else (if e[0].callback.Some? && 0 < e[0].recycle then [Refreshed(e[0])] else []) + BatchReschedules(e[1..])
  }

  /** The registry `_ListExpireTimer` leaves behind. */
  function ExpireState(s: seq<TimerEntry>, now: u64): seq<TimerEntry>
  {
    var k := ExpiredCount(s, now);
    ReinsertAll(s[k..], s[..k])
  }

  // Reference definitions, read off the whole registry rather than its prefix.

  /** The callbacks of every timer due at `now`, in registry order. */
  function DueCallbacks(s: seq<TimerEntry>, now: u64): seq<Callback>
  {
    if s == [] then []
    else (if s[0].time <= now then CallbackOf(s[0]) else []) + DueCallbacks(s[1..], now)
  }

  /** The timers not yet due at `now`. */
  function Survivors(s: seq<TimerEntry>, now: u64): seq<TimerEntry>
  {
    if s == [] then []
    else (if s[0].time > now then [s[0]] else []) + Survivors(s[1..], now)
  }

  /** The due recurring timers with a callback, each advanced by its interval. */
  function Rescheduled(s: seq<TimerEntry>, now: u64): seq<TimerEntry>
  {
    if s == [] then []
    else (if s[0].time <= now && s[0].callback.Some? && 0 < s[0].recycle then [Refreshed(s[0])] else [])
         + Rescheduled(s[1..], now)
  }

  /** The first loop stops at the first timer that is not due. */
  lemma {:induction false} ExpiredCountFirstLate(s: seq<TimerEntry>, now: u64, k: nat)
    requires k <= |s|
    requires forall j :: 0 <= j < k ==> s[j].time <= now
    requires k == |s| || s[k].time > now
    ensures ExpiredCount(s, now) == k
    decreases k
  {
    if k > 0 {
      ExpiredCountFirstLate(s[1..], now, k - 1);
    }
  }

  /** In a sorted registry the prefix is exactly the set of due timers. */
  lemma ExpiredCountIsDue(s: seq<TimerEntry>, now: u64)
    requires Sorted(s)
    ensures forall i :: 0 <= i < |s| ==> (i < ExpiredCount(s, now) <==> s[i].time <= now)
  {
    var k := ExpiredCount(s, now);
    ExpiredCountPrefix(s, now);
    forall i | 0 <= i < |s| ensures i < k <==> s[i].time <= now {
      if k <= i {
        assert s[k].time > now;
        assert k == i || Less(s[k], s[i]);
      }
    }
  }

  lemma {:induction false} ExpiredCountPrefix(s: seq<TimerEntry>, now: u64)
    ensures forall j :: 0 <= j < ExpiredCount(s, now) ==> s[j].time <= now
    ensures ExpiredCount(s, now) == |s| || s[ExpiredCount(s, now)].time > now
    decreases |s|
  {
    if s != [] && s[0].time <= now {
      ExpiredCountPrefix(s[1..], now);
    }
  }

  lemma {:induction false} AllLate(s: seq<TimerEntry>, now: u64)
    requires forall j :: 0 <= j < |s| ==> s[j].time > now
    ensures DueCallbacks(s, now) == [] && Rescheduled(s, now) == [] && Survivors(s, now) == s
    decreases |s|
  {
    if s != [] {
      AllLate(s[1..], now);
      assert s == [s[0]] + s[1..];
    }
  }

  /**
   * The prefix the first loop cuts off yields the due callbacks and the
   * rescheduled timers, and what it leaves is the set of survivors.
   */
  lemma {:induction false} PrefixIsDue(s: seq<TimerEntry>, now: u64)
    requires Sorted(s)
    ensures FiredCallbacks(s[..ExpiredCount(s, now)]) == DueCallbacks(s, now)
    ensures BatchReschedules(s[..ExpiredCount(s, now)]) == Rescheduled(s, now)
    ensures s[ExpiredCount(s, now)..] == Survivors(s, now)
    decreases |s|
  {
    var k := ExpiredCount(s, now);
    if s == [] {
    } else if s[0].time > now {
      forall j | 0 <= j < |s| ensures s[j].time > now {
        assert j == 0 || Less(s[0], s[j]);
      }
      AllLate(s, now);
    } else {
      PrefixIsDue(s[1..], now);
      assert s[..k] == [s[0]] + s[1..][..k - 1];
      assert s[..k][1..] == s[1..][..k - 1];
      assert s[k..] == s[1..][k - 1..];
    }
  }

  /**
   * Reinserting a batch whose uids are disjoint from the registry's keeps the
   * invariant and adds exactly the batch's rescheduled timers.
   */
  lemma {:induction false} ReinsertAllFacts(s: seq<TimerEntry>, e: seq<TimerEntry>)
    requires WellFormed(s) && UniqueUids(e)
    requires forall x, y :: x in s && y in e ==> x.uid != y.uid
    ensures WellFormed(ReinsertAll(s, e))
    ensures multiset(ReinsertAll(s, e)) == multiset(s) + multiset(BatchReschedules(e))
    decreases |e|
  {
    if e != [] {
      var t := e[0];
      var s' := ReinsertStep(s, t);
      UniqueHeadFree(e);
      if t.callback.Some? && 0 < t.recycle {
        InsertFacts(s, Refreshed(t));
      }
      assert forall x :: x in s' ==> x in s || x.uid == t.uid;
      assert forall y :: y in e[1..] ==> y in e;
      assert UniqueUids(e[1..]) by {
        forall i, j | 0 <= i < j < |e[1..]| ensures e[1..][i].uid != e[1..][j].uid {
          assert e[1..][i] == e[i + 1] && e[1..][j] == e[j + 1];
        }
      }
      ReinsertAllFacts(s', e[1..]);
    }
  }

  /** A sorted registry with unique uids splits into two parts of the same kind. */
  lemma SplitFacts(s: seq<TimerEntry>, k: nat)
    requires WellFormed(s) && k <= |s|
    ensures WellFormed(s[k..]) && UniqueUids(s[..k])
    ensures forall x, y :: x in s[k..] && y in s[..k] ==> x.uid != y.uid
  {
    assert forall i :: 0 <= i < |s| - k ==> s[k..][i] == s[k + i];
    forall x, y | x in s[k..] && y in s[..k] ensures x.uid != y.uid {
      var i :| 0 <= i < |s[k..]| && s[k..][i] == x;
      var j :| 0 <= j < k && s[..k][j] == y;
      assert s[j] == y && s[k + i] == x;
    }
  }

  /** The survivors are exactly the registered timers not yet due. */
  lemma {:induction false} SurvivorsFrom(s: seq<TimerEntry>, now: u64)
    ensures forall x :: x in Survivors(s, now) <==> x in s && x.time > now
    decreases |s|
  {
    if s != [] {
      SurvivorsFrom(s[1..], now);
      assert s == [s[0]] + s[1..];
    }
  }

  /** The rescheduled timers are exactly the due recurring timers with a callback, advanced. */
  lemma {:induction false} RescheduledFrom(s: seq<TimerEntry>, now: u64)
    ensures forall x :: x in Rescheduled(s, now) <==>
      exists y :: y in s && y.time <= now && y.callback.Some? && 0 < y.recycle && x == Refreshed(y)
    decreases |s|
  {
    if s != [] {
      RescheduledFrom(s[1..], now);
      assert s == [s[0]] + s[1..];
    }
  }

  /** A callback is due exactly when some registered timer that is due carries it. */
  lemma {:induction false} DueCallbacksFrom(s: seq<TimerEntry>, now: u64)
    ensures forall c :: c in DueCallbacks(s, now) <==> exists y :: y in s && y.time <= now && y.callback == Some(c)
    decreases |s|
  {
    if s != [] {
      DueCallbacksFrom(s[1..], now);
      assert s == [s[0]] + s[1..];
    }
  }

  /**
   * What `_ListExpireTimer` leaves behind: a well-formed registry holding the
   * timers not yet due and the due recurring timers with a callback advanced
   * by their interval, and nothing else; every timer in it carries the uid
   * and the callback of a timer registered before.
   */
  lemma ExpireStateFacts(s: seq<TimerEntry>, now: u64)
    requires WellFormed(s)
    ensures WellFormed(ExpireState(s, now))
    ensures multiset(ExpireState(s, now)) == multiset(Survivors(s, now)) + multiset(Rescheduled(s, now))
    ensures forall x :: x in ExpireState(s, now) ==>
      exists y :: y in s && y.uid == x.uid && y.callback == x.callback
  {
    var k := ExpiredCount(s, now);
    SplitFacts(s, k);
    ReinsertAllFacts(s[k..], s[..k]);
    PrefixIsDue(s, now);
    SurvivorsFrom(s, now);
    RescheduledFrom(s, now);
    forall x | x in ExpireState(s, now)
      ensures exists y :: y in s && y.uid == x.uid && y.callback == x.callback
    {
      assert x in multiset(ExpireState(s, now));
      if x in Survivors(s, now) {
        assert x in s;
      } else {
        assert x in Rescheduled(s, now);
      }
    }
  }

  /** One iteration of `_ListExpireTimer`'s second loop, unfolded. */
  lemma BatchStep(acc: seq<Callback>, s: seq<TimerEntry>, e: seq<TimerEntry>, i: nat)
    requires i < |e|
    ensures acc + FiredCallbacks(e[i..]) == (acc + CallbackOf(e[i])) + FiredCallbacks(e[i + 1..])
    ensures ReinsertAll(s, e[i..]) == ReinsertAll(ReinsertStep(s, e[i]), e[i + 1..])
  {
    assert e[i..][1..] == e[i + 1..];
    assert acc + (CallbackOf(e[i]) + FiredCallbacks(e[i + 1..])) == (acc + CallbackOf(e[i])) + FiredCallbacks(e[i + 1..]);
  }

  /** Every uid left after expiry was registered before, so a bound on uids persists. */
  lemma ExpireKeepsUidBound(s: seq<TimerEntry>, now: u64, bound: int)
    requires WellFormed(s) && forall x :: x in s ==> 0 < x.uid <= bound
    ensures WellFormed(ExpireState(s, now))
    ensures multiset(ExpireState(s, now)) == multiset(Survivors(s, now)) + multiset(Rescheduled(s, now))
    ensures forall x :: x in ExpireState(s, now) ==> 0 < x.uid <= bound
  {
    ExpireStateFacts(s, now);
  }

  // --------------------------------------------------- operations on values

  /** The registry and the uid counter together, as values. */
  datatype Registry = Registry(timers: seq<TimerEntry>, count: u64)

  /** Every registered uid has been handed out by the counter. */
  predicate UidsIssued(g: Registry)
  {
    forall x :: x in g.timers ==> 0 < x.uid <= g.count
  }

  /** A call of `AddTimer` or `DelTimer` made from outside the dispatch loop. */
  datatype RegistryOp = AddOp(ms: u64, cb: Option<Callback>, recycle: u32, now: u64) | DelOp(uid: u64)

  /**
   * What one call does to the registry and the counter: an add with a
   * callback draws the next uid and inserts a timer due `ms` after `now`; a
   * delete of a uid other than `INVALID_TIMER_ID` erases that timer.
   */
  function ApplyOp(g: Registry, op: RegistryOp): (r: Registry)
    requires op.AddOp? && op.cb.Some? ==> g.count < U64_MAX
    ensures op.AddOp? && op.cb.Some? ==> r.count == g.count + 1
    ensures op.DelOp? || op.cb.None? ==> r.count == g.count
  {
    match op
    case AddOp(ms, cb, recycle, now) =>
      if cb.None? then g
      else Registry(Insert(g.timers, TimerEntry(Add64(now, ms), recycle, cb, g.count + 1)), g.count + 1)
    case DelOp(uid) =>
      if uid == INVALID_TIMER_ID then g else Registry(RemoveFirst(g.timers, uid), g.count)
  }

  /** The calls `ops`, one after the other. */
  function ApplyAll(g: Registry, ops: seq<RegistryOp>): (r: Registry)
    requires g.count as int + |ops| <= U64_MAX
    ensures g.count <= r.count <= g.count as int + |ops|
    decreases |ops|
  {
    if ops == [] then g
    else ApplyOp(ApplyAll(g, ops[..|ops| - 1]), ops[|ops| - 1])
  }

  /** `c` is the callback of a timer one of `ops` adds. */
  predicate AddedBy(c: Callback, ops: seq<RegistryOp>)
  {
    exists j :: 0 <= j < |ops| && ops[j].AddOp? && ops[j].cb == Some(c)
  }

  /**
   * One call keeps the registry valid; every timer afterwards was there
   * before, or is the one an add created, under a uid the counter had not
   * handed out yet.
   */
  lemma ApplyOpFacts(g: Registry, op: RegistryOp)
    requires WellFormed(g.timers) && UidsIssued(g)
    requires op.AddOp? && op.cb.Some? ==> g.count < U64_MAX
    ensures WellFormed(ApplyOp(g, op).timers) && UidsIssued(ApplyOp(g, op))
    ensures forall x :: x in ApplyOp(g, op).timers ==>
      x in g.timers || (op.AddOp? && g.count < x.uid && x.callback == op.cb && op.cb.Some?)
  {
    match op
    case AddOp(ms, cb, recycle, now) =>
      if cb.Some? {
        InsertFacts(g.timers, TimerEntry(Add64(now, ms), recycle, cb, g.count + 1));
      }
    case DelOp(uid) =>
      if uid != INVALID_TIMER_ID {
        RemoveFirstFacts(g.timers, uid);
      }
  }

  /** `ApplyOpFacts` for a sequence of calls. */
  lemma {:induction false} ApplyAllFacts(g: Registry, ops: seq<RegistryOp>)
    requires WellFormed(g.timers) && UidsIssued(g) && g.count as int + |ops| <= U64_MAX
    ensures WellFormed(ApplyAll(g, ops).timers) && UidsIssued(ApplyAll(g, ops))
    ensures forall x :: x in ApplyAll(g, ops).timers ==>
      x in g.timers || (g.count < x.uid && x.callback.Some? && AddedBy(x.callback.value, ops))
    decreases |ops|
  {
    if ops != [] {
      var init := ops[..|ops| - 1];
      var last := ops[|ops| - 1];
      var h := ApplyAll(g, init);
      ApplyAllFacts(g, init);
      ApplyOpFacts(h, last);
      forall x | x in ApplyAll(g, ops).timers
        ensures x in g.timers || (g.count < x.uid && x.callback.Some? && AddedBy(x.callback.value, ops))
      {
        if x in h.timers {
          if !(x in g.timers) {
            var j :| 0 <= j < |init| && init[j].AddOp? && init[j].cb == Some(x.callback.value);
            assert ops[j] == init[j];
          }
        } else {
          assert ops[|ops| - 1] == last;
        }
      }
    }
  }

  // ----------------------------------------------------------------- manager

  /** `CTimerManager`: the timer set, with the uid counter its timers draw from. */
  class TimerManager {
    var timers: seq<TimerEntry>
    const ids: UidCounter

    /** Sorted, unique uids, and every uid already handed out by the counter. */
    ghost predicate Valid()
      reads this, ids
    {
      WellFormed(timers) && forall x :: x in timers ==> 0 < x.uid <= ids.count
    }

    /** The registry and its counter as values. */
    function Snapshot(): Registry
      reads this, ids
    {
      Registry(timers, ids.count)
    }

    constructor (counter: UidCounter)
      ensures Valid() && timers == [] && ids == counter
    {
      timers := [];
      ids := counter;
    }

    /**
     * The time until the earliest deadline: `UINT32_MAX` for an empty
     * registry, 0 once the first timer is due, otherwise the distance to
     * the first deadline (see `NearTimeoutIsNearest` for what that means
     * over all registered timers).
     */
    function GetNearTimeout(now: u64): (r: u64)
      reads this
      requires Sorted(timers)
      ensures timers == [] ==> r == U32_MAX
    {
      if |timers| == 0 then U32_MAX
      else if now >= timers[0].time then 0
      else timers[0].time - now
    }

    /**
     * `AddTimer`: rejects a null callback with `INVALID_TIMER_ID`; otherwise
     * registers exactly one new timer, due `ms` after `now`, under a fresh
     * uid, and reports whether it became the first timer (the condition for
     * the inserted-at-front upcall).
     */
    method AddTimer(ms: u64, cb: Option<Callback>, recycle: u32, now: u64) returns (uid: u64, atFront: bool)
      requires Valid() && ids.count < U64_MAX
      modifies this, ids
      ensures Valid()
      ensures cb.None? ==> uid == INVALID_TIMER_ID && !atFront && timers == old(timers) && ids.count == old(ids.count)
      ensures cb.Some? ==> uid != INVALID_TIMER_ID && uid == ids.count == old(ids.count) + 1 && UidFree(old(timers), uid)
      ensures cb.Some? ==> |timers| == |old(timers)| + 1
      ensures cb.Some? ==>
        multiset(timers) == multiset(old(timers)) + multiset{TimerEntry(Add64(now, ms), recycle, cb, uid)}
      ensures cb.Some? ==> (atFront <==> timers[0].uid == uid)
      ensures cb.Some? ==>
        (atFront <==> forall x :: x in old(timers) ==> Less(TimerEntry(Add64(now, ms), recycle, cb, uid), x))
      ensures Snapshot() == ApplyOp(old(Snapshot()), AddOp(ms, cb, recycle, now))
    {
      if cb.None? {
        return INVALID_TIMER_ID, false;
      }
      var timer := new Timer(ms, cb, recycle, now, ids);
      uid, atFront := InsertTimer(timer);
    }

    /**
     * `_AddTimer`: inserts a timer object's value and reports whether it is
     * now the first one; a null timer is rejected with `INVALID_TIMER_ID`.
     */
    method InsertTimer(timer: Timer?) returns (uid: u64, atFront: bool)
      requires Valid()
      requires timer != null ==> 0 < timer.uid <= ids.count && UidFree(timers, timer.uid)
      modifies this
      ensures Valid()
      ensures timer == null ==> uid == INVALID_TIMER_ID && !atFront && timers == old(timers)
      ensures timer != null ==> uid == timer.uid && multiset(timers) == multiset(old(timers)) + multiset{timer.Value()}
      ensures timer != null ==> |timers| == |old(timers)| + 1
      ensures timer != null ==> (atFront <==> timers[0] == timer.Value())
      ensures timer != null ==> (atFront <==> timers[0].uid == uid)
      ensures timer != null ==> (atFront <==> forall x :: x in old(timers) ==> Less(timer.Value(), x))
      ensures timer != null ==> timers == Insert(old(timers), timer.Value())
    {
      if timer == null {
        return INVALID_TIMER_ID, false;
      }
      var t := timer.Value();
      InsertFacts(timers, t);
      InsertedAtFrontIsMinimum(timers, t);
      atFront := InsertedAtFront(timers, t);
      timers := Insert(timers, t);
      assert |multiset(timers)| == |timers|;
      uid := timer.GetUID();
    }

    /**
     * `DelTimer`: for `INVALID_TIMER_ID` or an unknown uid nothing changes;
     * otherwise exactly the timer with that uid is erased, the others stay in
     * their order.
     */
    method DelTimer(uniqueId: u64)
      requires Valid()
      modifies this
      ensures Valid()
      ensures uniqueId == INVALID_TIMER_ID || UidFree(old(timers), uniqueId) ==> timers == old(timers)
      ensures uniqueId != INVALID_TIMER_ID ==> timers == RemoveFirst(old(timers), uniqueId)
      ensures UidFree(timers, uniqueId)
      ensures forall x :: x in timers <==> x in old(timers) && x.uid != uniqueId
      ensures Snapshot() == ApplyOp(old(Snapshot()), DelOp(uniqueId))
    {
      if uniqueId == INVALID_TIMER_ID {
        assert forall x :: x in timers ==> x.uid != uniqueId;
        return;
      }
      RemoveFirstFacts(timers, uniqueId);
      var i := 0;
      while i < |timers|
        invariant 0 <= i <= |timers|
        invariant timers == old(timers)
        invariant forall j :: 0 <= j < i ==> timers[j].uid != uniqueId
      {
        if timers[i].uid == uniqueId {
          RemoveFirstAt(timers, uniqueId, i);
          timers := timers[..i] + timers[i + 1..];
          return;
        }
        i := i + 1;
      }
      RemoveFirstAbsent(timers, uniqueId);
    }

    /**
     * `_ListExpireTimer`: returns the callbacks of every timer due at `now`
     * in registry order, skipping null ones; afterwards the registry holds the
     * timers not yet due and the due recurring timers with a callback,
     * advanced by their interval. A reinserted timer is not collected again
     * in the same pass.
     */
    method ListExpireTimer(now: u64) returns (cbs: seq<Callback>)
      requires Valid()
      modifies this
      ensures Valid()
      ensures cbs == DueCallbacks(old(timers), now)
      ensures timers == ExpireState(old(timers), now)
      ensures multiset(timers) == multiset(Survivors(old(timers), now)) + multiset(Rescheduled(old(timers), now))
    {
      cbs := [];
      if |timers| == 0 {
        return;
      }
      ghost var s0 := timers;
      var it := 0;
      while it < |timers| && timers[it].time <= now
        invariant 0 <= it <= |timers|
        invariant forall j :: 0 <= j < it ==> timers[j].time <= now
      {
        it := it + 1;
      }
      ExpiredCountFirstLate(timers, now, it);
      var expired := timers[..it];
      timers := timers[it..];
      assert expired[0..] == expired;
      var i := 0;
      while i < |expired|
        invariant 0 <= i <= |expired|
        invariant cbs + FiredCallbacks(expired[i..]) == FiredCallbacks(expired)
        invariant ReinsertAll(timers, expired[i..]) == ExpireState(s0, now)
      {
        var timer := expired[i];
        BatchStep(cbs, timers, expired, i);
        if timer.callback.None? {
          assert cbs + CallbackOf(timer) == cbs;
          i := i + 1;
          continue;
        }
        cbs := cbs + [timer.callback.value];
        if 0 < timer.recycle {
          timers := Insert(timers, Refreshed(timer));
        }
        i := i + 1;
      }
      assert expired[|expired|..] == [];
      PrefixIsDue(s0, now);
      ExpireKeepsUidBound(s0, now, ids.count);
    }
  }

  /**
   * `GetNearTimeout` is 0 exactly when some timer is due, and otherwise the
   * distance to the nearest deadline over the whole registry.
   */
  lemma NearTimeoutIsNearest(m: TimerManager, now: u64)
    requires Sorted(m.timers)
    ensures m.timers != [] ==> (m.GetNearTimeout(now) == 0 <==> exists x :: x in m.timers && x.time <= now)
    ensures m.timers != [] && m.GetNearTimeout(now) > 0 ==> forall x :: x in m.timers ==> now + m.GetNearTimeout(now) <= x.time
    ensures m.timers != [] && m.GetNearTimeout(now) > 0 ==> exists x :: x in m.timers && now + m.GetNearTimeout(now) == x.time
  {
    var s := m.timers;
    if s != [] {
      forall x | x in s ensures s[0].time <= x.time {
        var i :| 0 <= i < |s| && s[i] == x;
        assert i == 0 || Less(s[0], s[i]);
      }
    }
  }
}
