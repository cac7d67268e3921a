/**
 * The two-minute inactivity rule both clients apply: the time left since the
 * last recorded activity, the `m:ss` display and its warning, and the
 * throttled activity handler that records `chatjet_last_active`.
 */
module Inactivity {
  import opened Strings
  import opened Browser

  /** `SESSION_TIMEOUT = 2 * 60 * 1000`, also written out in the plain client. */
  const SessionTimeout := 2 * 60 * 1000
  /** The timer turns to its warning style below thirty seconds. */
  const WarningBelow := 30000
  /** The activity handler records at most one timestamp per second. */
  const ThrottleWindow := 1000

  /** `parseInt(localStorage.getItem('chatjet_last_active') || Date.now())`:
      the recorded timestamp, or `now` when there is none. */
  function LastActive(items: map<string, Value>, now: int): (t: int)
    ensures LastActiveKey in items && items[LastActiveKey].Time? ==> t == items[LastActiveKey].t
    ensures !(LastActiveKey in items && items[LastActiveKey].Time?) ==> t == now
  {
    if LastActiveKey in items && items[LastActiveKey].Time? then items[LastActiveKey].t else now
  }

  /** `Math.max(0, SESSION_TIMEOUT - elapsed)`: the time left, never negative,
      and zero exactly when two minutes have passed since the last activity. */
  function Remaining(lastActive: int, now: int): (r: int)
    ensures r >= 0 && r >= SessionTimeout - (now - lastActive)
    ensures r == 0 || r == SessionTimeout - (now - lastActive)
    ensures r == 0 <==> now - lastActive >= SessionTimeout
    ensures lastActive <= now ==> r <= SessionTimeout
  {
    if SessionTimeout - (now - lastActive) > 0 then SessionTimeout - (now - lastActive) else 0
  }

  /** Recording a later activity never shortens the time left. */
  lemma LaterActivityLeavesMoreTime(t1: int, t2: int, now: int)
    requires t1 <= t2
    ensures Remaining(t1, now) <= Remaining(t2, now)
  {
  }

  /** The plain client's timer text: whole seconds left split into minutes
      and seconds, the seconds always below sixty. */
  function TimerDisplay(remaining: int): (ms: (int, int))
    requires remaining >= 0
    ensures 0 <= ms.1 < 60 && ms.0 >= 0
    ensures ms.0 * 60 + ms.1 == remaining / 1000
  {
    var totalSeconds := remaining / 1000;
    (totalSeconds / 60, totalSeconds % 60)
  }

  /** The chat screen's timer, `floor(t / 60000) : floor((t % 60000) / 1000)`,
      shows the same minutes and seconds as the plain client's. */
  lemma {:induction false} ChatScreenTimerAgrees(t: int)
    requires t >= 0
    ensures TimerDisplay(t) == (t / 60000, (t % 60000) / 1000)
  {
    var q := t / 60000;
    var r := t % 60000;
    assert t == 60000 * q + r && 0 <= r < 60000;
    var s := r / 1000;
    assert 0 <= s < 60 && r == 1000 * s + r % 1000;
    assert t == 1000 * (60 * q + s) + r % 1000;
    assert t / 1000 == 60 * q + s;
  }

  /** The warning style: shown exactly when less than thirty seconds are left. */
  predicate ShowsWarning(remaining: int) {
    remaining < WarningBelow
  }

  /** At load, the plain client clears the store when a recorded activity is
      more than two minutes old. */
  predicate ExpiredAtLoad(items: map<string, Value>, now: int) {
    LastActiveKey in items && items[LastActiveKey].Time? && now - items[LastActiveKey].t > SessionTimeout
  }

  /** The load check is stricter than the timer: a session it clears has no
      time left, but at exactly two minutes the timer expires while the load
      check does not. */
  lemma LoadCheckAgainstTimer(items: map<string, Value>, now: int)
    ensures ExpiredAtLoad(items, now) ==> Remaining(LastActive(items, now), now) == 0
    ensures var boundary := map[LastActiveKey := Time(now - SessionTimeout)];
            !ExpiredAtLoad(boundary, now) && Remaining(LastActive(boundary, now), now) == 0
  {
  }

  /** The `mousemove`/`keydown`/`click`/`scroll` handler with its
      `window.activityThrottled` flag: the flag is set when a timestamp is
      written and cleared by a one-second timeout, modelled by the time at
      which that timeout fires. */
  class ActivityThrottle {
    const store: LocalStorage
    /** when the pending `activityThrottled = false` timeout fires */
    var throttledUntil: Option<int>
    /** the timestamps written to `chatjet_last_active`, in order */
    var writes: seq<int>

    /** Written timestamps are at least one throttle window apart, and the
        flag is held for one window after the latest of them. */
    ghost predicate Valid()
      reads this
    {
      && (forall i :: 0 < i < |writes| ==> writes[i - 1] + ThrottleWindow <= writes[i])
      && (writes == [] <==> throttledUntil.None?)
      && (writes != [] ==> throttledUntil == Some(writes[|writes| - 1] + ThrottleWindow))
    }

    constructor (store: LocalStorage)
      ensures Valid()
      ensures this.store == store && throttledUntil.None? && writes == []
    {
      this.store := store;
      throttledUntil, writes := None, [];
    }

    predicate Throttled(now: int)
      reads this
    {
      throttledUntil.Some? && now < throttledUntil.value
    }

    /** One activity event at time `now`: unless throttled, record `now` and
        hold the flag for a second. */
    method OnActivity(now: int)
      requires Valid()
      requires writes != [] ==> now >= writes[|writes| - 1]
      modifies this, store
      ensures Valid()
      ensures old(Throttled(now)) ==> writes == old(writes) && store.items == old(store.items)
                                       && throttledUntil == old(throttledUntil)
      ensures !old(Throttled(now)) ==> writes == old(writes) + [now]
                                        && store.items == old(store.items)[LastActiveKey := Time(now)]
                                        && throttledUntil == Some(now + ThrottleWindow)
    {
      if !Throttled(now) {
        store.SetItem(LastActiveKey, Time(now));
        throttledUntil := Some(now + ThrottleWindow);
        writes := writes + [now];
      }
    }
  }

  /** A burst of activity within one second writes the timestamp once: the
      throttled events leave the store as the first one left it, and the
      first event after the window writes again. */
  method ActivityBurst(store: LocalStorage)
    modifies store
  {
    var t := new ActivityThrottle(store);
    t.OnActivity(1000);
    var first := store.items;
    t.OnActivity(1400);
    t.OnActivity(1999);
    assert store.items == first && t.writes == [1000];
    t.OnActivity(2000);
    assert t.writes == [1000, 2000] && store.items == first[LastActiveKey := Time(2000)];
  }
}
