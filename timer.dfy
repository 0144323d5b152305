/**
 * The timer entity (`CTimer`): its field record, the comparator that orders the
 * registry, the process-wide uid counter and the in-place mutators.
 */
module TimerEntity {
  import opened Types

  /** The uid that no timer ever receives; `AddTimer` returns it on rejection. */
  const INVALID_TIMER_ID: u64 := 0

  /**
   * The fields of one timer: the absolute deadline in ms, the recurrence
   * interval (0 for a one-shot timer), the callback (None for `nullptr`) and
   * the uid.
   */
  datatype TimerEntry = TimerEntry(time: u64, recycle: u64, callback: Option<Callback>, uid: u64)

  // ---------------------------------------------------------------- comparator

  /** `CTimer::Comparator` applied to two non-null timers. */
  predicate Less(a: TimerEntry, b: TimerEntry)
  {
    if a.time == b.time then a.uid < b.uid else a.time < b.time
  }

  /** `CTimer::Comparator` on shared pointers that may be null (None). */
  predicate LessRef(a: Option<TimerEntry>, b: Option<TimerEntry>)
  {
    if a.None? && b.None? then false
    else if a.None? then true
    else if b.None? then false
    else Less(a.value, b.value)
  }

  /** Two timers the comparator cannot tell apart (`std::set` equivalence). */
  predicate Equivalent(a: TimerEntry, b: TimerEntry)
  {
    !Less(a, b) && !Less(b, a)
  }

  /** The comparator is the lexicographic order on (deadline, uid). */
  lemma LessIsLexicographic(a: TimerEntry, b: TimerEntry)
    ensures Less(a, b) <==> a.time < b.time || (a.time == b.time && a.uid < b.uid)
  {
  }

  /** No timer is less than itself. */
  lemma LessIrreflexive(a: TimerEntry)
    ensures !Less(a, a)
  {
  }

  /** On timers with distinct uids exactly one of the two comparisons holds. */
  lemma LessTotal(a: TimerEntry, b: TimerEntry)
    requires a.uid != b.uid
    ensures Less(a, b) != Less(b, a)
  {
  }

  lemma LessTransitive(a: TimerEntry, b: TimerEntry, c: TimerEntry)
    requires Less(a, b) && Less(b, c)
    ensures Less(a, c)
  {
  }

  /** Equivalence under the comparator is equality of deadline and uid. */
  lemma EquivalentIsSameKey(a: TimerEntry, b: TimerEntry)
    ensures Equivalent(a, b) <==> a.time == b.time && a.uid == b.uid
  {
  }

  /** Null is never less than null, precedes every timer, and no timer precedes it. */
  lemma LessRefNull(a: TimerEntry)
    ensures !LessRef(None, None)
    ensures LessRef(None, Some(a))
    ensures !LessRef(Some(a), None)
  {
  }

  /** On two non-null pointers the comparator is `Less` on the pointees. */
  lemma LessRefOnTimers(a: TimerEntry, b: TimerEntry)
    ensures LessRef(Some(a), Some(b)) == Less(a, b)
  {
  }

  // ------------------------------------------------------------------- refresh

  /**
   * The value `CTimer::Refresh` leaves behind: a recurring timer's deadline
   * advances by its interval (with `uint64_t` wrap-around), a one-shot timer
   * is unchanged.
   */
  function Refreshed(t: TimerEntry): (r: TimerEntry)
    ensures r.uid == t.uid && r.recycle == t.recycle && r.callback == t.callback
    ensures t.recycle == 0 ==> r == t
    ensures t.recycle > 0 ==> r.time == Add64(t.time, t.recycle)
    ensures t.recycle > 0 && t.time + t.recycle <= U64_MAX ==> r.time == t.time + t.recycle > t.time
  {
    if t.recycle > 0 then t.(time := Add64(t.time, t.recycle)) else t
  }

  // ---------------------------------------------------------------- uid source

  /** The process-wide atomic `g_uniqueIdCount`: it only ever counts up. */
  class UidCounter {
    var count: u64

    constructor ()
      ensures count == 0
    {
      count := 0;
    }

    /** `++g_uniqueIdCount`: the new value is the next uid. */
    method Next() returns (uid: u64)
      requires count < U64_MAX
      modifies this
      ensures count == old(count) + 1 && uid == count
      ensures uid != INVALID_TIMER_ID
    {
      count := count + 1;
      uid := count;
    }
  }

  // --------------------------------------------------------------------- timer

  /** `CTimer`: a timer object whose mutators update its fields in place. */
  class Timer {
    var time: u64
    var recycle: u64
    var callback: Option<Callback>
    var uid: u64

    /** The fields as a value, the form in which the registry stores a timer. */
    function Value(): TimerEntry
      reads this
    {
      TimerEntry(time, recycle, callback, uid)
    }

    /** `CTimer()`: an idle timer with a fresh uid. */
    constructor Default(ids: UidCounter)
      requires ids.count < U64_MAX
      modifies ids
      ensures ids.count == old(ids.count) + 1
      ensures Value() == TimerEntry(0, 0, None, ids.count)
    {
      var id := ids.Next();
      time, recycle, callback, uid := 0, 0, None, id;
    }

    /** `CTimer(ms, cb, recycle)`: due `ms` after `now`, with a fresh uid. */
    constructor (ms: u64, cb: Option<Callback>, recycleMs: u32, now: u64, ids: UidCounter)
      requires ids.count < U64_MAX
      modifies ids
      ensures ids.count == old(ids.count) + 1
      ensures Value() == TimerEntry(Add64(now, ms), recycleMs, cb, ids.count)
    {
      time := Add64(now, ms);
      recycle := recycleMs;
      callback := cb;
      var id := ids.Next();
      uid := id;
    }

    /** The copy constructor: every field, the uid included, is copied. */
    constructor Copy(other: Timer)
      ensures Value() == other.Value()
    {
      time, recycle, callback, uid := other.time, other.recycle, other.callback, other.uid;
    }

    /** `operator=`: every field, the uid included, is copied. */
    method Assign(other: Timer)
      modifies this
      ensures Value() == old(other.Value())
    {
      time := other.time;
      recycle := other.recycle;
      callback := other.callback;
      uid := other.uid;
    }

    function GetTimeout(): (r: u64)
      reads this
      ensures r == Value().time
    {
      time
    }

    function GetUID(): (r: u64)
      reads this
      ensures r == Value().uid
    {
      uid
    }

    method SetNextTime(timeMs: u64)
      modifies this
      ensures Value() == old(Value()).(time := timeMs)
    {
      time := timeMs;
    }

    method SetCallback(cb: Option<Callback>)
      modifies this
      ensures Value() == old(Value()).(callback := cb)
    {
      callback := cb;
    }

    method SetRecycleTime(ms: u64)
      modifies this
      ensures Value() == old(Value()).(recycle := ms)
    {
      recycle := ms;
    }

    /** Clears deadline, interval and callback; the uid stays. */
    method Cancel()
      modifies this
      ensures Value() == TimerEntry(0, 0, None, old(uid))
    {
      time := 0;
      recycle := 0;
      callback := None;
    }

    method Refresh()
      modifies this
      ensures Value() == Refreshed(old(Value()))
    {
      if recycle > 0 {
        time := Add64(time, recycle);
      }
    }

    /** Reschedules, but never to a deadline earlier than the current one. */
    method Reset(ms: u64, cb: Option<Callback>, recycleMs: u32)
      modifies this
      ensures ms < old(time) ==> Value() == old(Value())
      ensures ms >= old(time) ==> Value() == TimerEntry(ms, recycleMs, cb, old(uid))
    {
      if ms < time {
        return;
      }
      time := ms;
      callback := cb;
      recycle := recycleMs;
    }
  }

  /** A fresh counter hands out 1, then 2: uids start at 1 and increase, never `INVALID_TIMER_ID`. */
  method FirstTwoTimers(cb: Option<Callback>, now: u64) returns (a: Timer, b: Timer)
    ensures a.uid == 1 && b.uid == 2
    ensures a.uid != INVALID_TIMER_ID && a.uid < b.uid
  {
    var ids := new UidCounter();
    a := new Timer.Default(ids);
    b := new Timer(0, cb, 0, now, ids);
  }
}
