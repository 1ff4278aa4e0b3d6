/**
 Whole runs of the rate limiter: the compacted slices refine a limiter that remembers every
 admission, no window admits more than the limit, and the advertised retry time is exact.
 */
module RateLimiterLaws {
  import opened Arithmetic
  import opened RateLimiter

  datatype Call = Call(key: string, now: int)

  ghost predicate Monotone(calls: seq<Call>) {
    forall i, j :: 0 <= i <= j < |calls| ==> calls[i].now <= calls[j].now
  }

  function StoreCall(stored: seq<int>, call: Call, key: string, limit: int, window: int): seq<int> {
    if call.key == key then Store(stored, call.now, limit, window) else stored
  }

  /** What the limiter has stored for a key after some calls. */
  function StoredAfter(calls: seq<Call>, key: string, limit: int, window: int): seq<int> {
    if calls == [] then []
    else StoreCall(StoredAfter(calls[..|calls| - 1], key, limit, window), calls[|calls| - 1], key, limit, window)
  }

  /** The admissions of a key after one more call, decided by counting those in the window that ends
      at the call. */
  function RememberCall(before: seq<int>, call: Call, key: string, limit: int, window: int): seq<int> {
    if call.key == key && |Recent(before, call.now - window)| < limit then before + [call.now] else before
  }

  /** The reference limiter: every admission of a key, none ever forgotten. */
  function History(calls: seq<Call>, key: string, limit: int, window: int): seq<int> {
    if calls == [] then []
    else RememberCall(History(calls[..|calls| - 1], key, limit, window), calls[|calls| - 1], key, limit, window)
  }

  function Between(times: seq<int>, lo: int, hi: int): seq<int> {
    if times == [] then []
    else
      var between, last := Between(times[..|times| - 1], lo, hi), times[|times| - 1];
      if lo <= last <= hi then between + [last] else between
  }

  function OnKey(calls: seq<Call>, key: string): seq<Call> {
    if calls == [] then []
    else
      var onKey := OnKey(calls[..|calls| - 1], key);
      if calls[|calls| - 1].key == key then onKey + [calls[|calls| - 1]] else onKey
  }

  // ----- Windows of a sequence -----

  lemma {:induction false} RecentOfRecent(times: seq<int>, c1: int, c2: int)
    requires c1 <= c2
    ensures Recent(Recent(times, c1), c2) == Recent(times, c2)
  {
    if times != [] {
      var init, last := times[..|times| - 1], times[|times| - 1];
      RecentOfRecent(init, c1, c2);
      if last >= c1 { RecentSnoc(Recent(init, c1), last, c2); }
    }
  }

  lemma RecentSnoc(times: seq<int>, x: int, cutoff: int)
    ensures Recent(times + [x], cutoff) == if x >= cutoff then Recent(times, cutoff) + [x] else Recent(times, cutoff)
  {
    assert (times + [x])[..|times|] == times;
  }

  lemma {:induction false} RecentKeepsAll(times: seq<int>, cutoff: int)
    ensures Recent(times, cutoff) == times <==> forall k :: 0 <= k < |times| ==> times[k] >= cutoff
    ensures |Recent(times, cutoff)| == |times| <==> Recent(times, cutoff) == times
  {
    if times != [] {
      var init, last := times[..|times| - 1], times[|times| - 1];
      RecentKeepsAll(init, cutoff);
      assert times == init + [last];
    }
  }

  lemma {:induction false} BetweenWithinRecent(times: seq<int>, lo: int, hi: int, cutoff: int)
    requires cutoff <= lo
    ensures |Between(times, lo, hi)| <= |Recent(times, cutoff)|
  {
    if times != [] { BetweenWithinRecent(times[..|times| - 1], lo, hi, cutoff); }
  }

  lemma {:induction false} BetweenIsRecent(times: seq<int>, lo: int, hi: int)
    requires forall k :: 0 <= k < |times| ==> times[k] <= hi
    ensures Between(times, lo, hi) == Recent(times, lo)
  {
    if times != [] { BetweenIsRecent(times[..|times| - 1], lo, hi); }
  }

  // ----- Refinement -----

  ghost predicate Ascending(times: seq<int>) {
    forall i, j :: 0 <= i <= j < |times| ==> times[i] <= times[j]
  }

  ghost predicate Bounded(times: seq<int>, lo: int, hi: int) {
    forall k :: 0 <= k < |times| ==> lo <= times[k] <= hi
  }

  lemma AscendingSnoc(times: seq<int>, x: int)
    requires Ascending(times) && forall k :: 0 <= k < |times| ==> times[k] <= x
    ensures Ascending(times + [x])
  {
  }

  lemma {:induction false} RecentShape(times: seq<int>, cutoff: int, lo: int, hi: int)
    requires Ascending(times) && Bounded(times, lo, hi)
    ensures Ascending(Recent(times, cutoff)) && Bounded(Recent(times, cutoff), Max(lo, cutoff), hi)
  {
    if times != [] {
      var init, last := times[..|times| - 1], times[|times| - 1];
      assert Bounded(init, lo, last);
      RecentShape(init, cutoff, lo, last);
      AscendingSnoc(Recent(init, cutoff), last);
    }
  }

  /** Admissions happen at call times, in order. */
  lemma {:induction false} HistoryShape(calls: seq<Call>, key: string, limit: int, window: int, lo: int, hi: int)
    requires Monotone(calls) && forall k :: 0 <= k < |calls| ==> lo <= calls[k].now <= hi
    ensures Ascending(History(calls, key, limit, window)) && Bounded(History(calls, key, limit, window), lo, hi)
  {
    if calls != [] {
      var init, last := calls[..|calls| - 1], calls[|calls| - 1];
      HistoryShape(init, key, limit, window, lo, last.now);
      AscendingSnoc(History(init, key, limit, window), last.now);
    }
  }

  lemma AdmitLikeHistory(stored: seq<int>, h: seq<int>, now: int, window: int, cutoff: int)
    requires cutoff >= now - window && Recent(stored, now - window) == Recent(h, now - window)
    ensures Recent(Recent(stored, now - window) + [now], cutoff) == Recent(h + [now], cutoff)
  {
    RecentOfRecent(stored, now - window, cutoff);
    RecentOfRecent(h, now - window, cutoff);
    RecentSnoc(Recent(stored, now - window), now, cutoff);
    RecentSnoc(h, now, cutoff);
  }

  lemma RefuseLikeHistory(stored: seq<int>, h: seq<int>, now: int, window: int, cutoff: int)
    requires cutoff >= now - window && Recent(stored, now - window) == Recent(h, now - window)
    ensures Recent(Recent(stored, now - window), cutoff) == Recent(h, cutoff) == Recent(stored, cutoff)
  {
    RecentOfRecent(stored, now - window, cutoff);
    RecentOfRecent(h, now - window, cutoff);
  }

  /** Storing or refusing one call keeps slice and history alike from its window on. */
  lemma CallLikeHistory(stored: seq<int>, h: seq<int>, call: Call, key: string, limit: int, window: int, cutoff: int)
    requires cutoff >= call.now - window && call.key == key
    requires Recent(stored, call.now - window) == Recent(h, call.now - window)
    ensures Recent(StoreCall(stored, call, key, limit, window), cutoff)
         == Recent(RememberCall(h, call, key, limit, window), cutoff)
  {
    AdmitLikeHistory(stored, h, call.now, window, cutoff);
    RefuseLikeHistory(stored, h, call.now, window, cutoff);
  }

  /** From the window of the latest call on, the stored slice and the whole history look the same. */
  lemma {:induction false} StoredLooksLikeHistory(calls: seq<Call>, key: string, limit: int, window: int, cutoff: int)
    requires Monotone(calls)
    requires calls != [] ==> cutoff >= calls[|calls| - 1].now - window
    ensures Recent(StoredAfter(calls, key, limit, window), cutoff) == Recent(History(calls, key, limit, window), cutoff)
  {
    if calls != [] {
      var init, last := calls[..|calls| - 1], calls[|calls| - 1];
      var stored, h := StoredAfter(init, key, limit, window), History(init, key, limit, window);
      StoredLooksLikeHistory(init, key, limit, window, if last.key == key then last.now - window else cutoff);
      if last.key == key { CallLikeHistory(stored, h, last, key, limit, window, cutoff); }
    }
  }

  /** The limiter decides every call as the reference limiter does. */
  lemma RefinesFullHistory(calls: seq<Call>, key: string, now: int, limit: int, window: int)
    requires Monotone(calls + [Call(key, now)])
    ensures Decide(StoredAfter(calls, key, limit, window), now, limit, window)
         == Decide(History(calls, key, limit, window), now, limit, window)
  {
    PrefixMonotone(calls, Call(key, now));
    StoredLooksLikeHistory(calls, key, limit, window, now - window);
  }

  /** Right after a call on the key, the slice is exactly the history inside the window. */
  lemma StoredIsWindowOfHistory(calls: seq<Call>, key: string, limit: int, window: int)
    requires Monotone(calls) && window >= 0
    requires calls != [] && calls[|calls| - 1].key == key
    ensures StoredAfter(calls, key, limit, window)
         == Recent(History(calls, key, limit, window), calls[|calls| - 1].now - window)
  {
    var init, last := calls[..|calls| - 1], calls[|calls| - 1];
    var stored, h := StoredAfter(init, key, limit, window), History(init, key, limit, window);
    assert Recent(stored, last.now - window) == Recent(h, last.now - window) by {
      StoredLooksLikeHistory(init, key, limit, window, last.now - window);
    }
    assert limit <= 0 ==> stored == [] by {
      if limit <= 0 { NothingStored(init, key, limit, window); }
    }
    StoreKeepsWindow(stored, h, last, key, limit, window);
  }

  lemma StoreKeepsWindow(stored: seq<int>, h: seq<int>, call: Call, key: string, limit: int, window: int)
    requires window >= 0 && call.key == key && Recent(stored, call.now - window) == Recent(h, call.now - window)
    requires limit <= 0 ==> stored == []
    ensures StoreCall(stored, call, key, limit, window)
         == Recent(RememberCall(h, call, key, limit, window), call.now - window)
  {
    RecentSnoc(h, call.now, call.now - window);
  }

  /** Calls on other keys do not matter. */
  lemma {:induction false} KeysAreIndependent(calls: seq<Call>, key: string, limit: int, window: int)
    ensures StoredAfter(calls, key, limit, window) == StoredAfter(OnKey(calls, key), key, limit, window)
  {
    if calls != [] {
      var init, last := calls[..|calls| - 1], calls[|calls| - 1];
      KeysAreIndependent(init, key, limit, window);
      if last.key == key {
        assert OnKey(calls, key)[..|OnKey(calls, key)| - 1] == OnKey(init, key);
      } else {
        assert OnKey(calls, key) == OnKey(init, key);
      }
    }
  }

  // ----- The window bound -----

  /** No closed interval as long as the window holds more than `limit` admissions of a key. */
  lemma {:induction false} WindowBound(calls: seq<Call>, key: string, limit: nat, window: int, start: int)
    requires Monotone(calls)
    ensures |Between(History(calls, key, limit, window), start, start + window)| <= limit
  {
    if calls != [] {
      var init, last := calls[..|calls| - 1], calls[|calls| - 1];
      var h := History(init, key, limit, window);
      WindowBound(init, key, limit, window, start);
      assert (h + [last.now])[..|h|] == h;
      if start <= last.now <= start + window {
        BetweenWithinRecent(h, start, start + window, last.now - window);
      }
    }
  }

  lemma {:induction false} NothingStored(calls: seq<Call>, key: string, limit: int, window: int)
    requires limit <= 0
    ensures StoredAfter(calls, key, limit, window) == []
  {
    if calls != [] { NothingStored(calls[..|calls| - 1], key, limit, window); }
  }

  /** The code reads `requests[0]` of an empty slice exactly when the limit is not positive. */
  lemma PanicsIffNoLimit(calls: seq<Call>, key: string, now: int, limit: int, window: int)
    ensures Decide(StoredAfter(calls, key, limit, window), now, limit, window) == IndexPanic <==> limit <= 0
  {
    if limit <= 0 { NothingStored(calls, key, limit, window); }
  }

  // ----- Retry after -----

  /** While every call on the key stays within the retry time, nothing is admitted. */
  lemma {:induction false} HistoryFrozen(calls: seq<Call>, more: seq<Call>, key: string, limit: int, window: int,
                                         until: int)
    requires forall k :: 0 <= k < |more| && more[k].key == key ==> more[k].now <= until
    requires |Recent(History(calls, key, limit, window), until - window)| >= limit
    ensures History(calls + more, key, limit, window) == History(calls, key, limit, window)
  {
    hide Recent;
    if more == [] {
      assert calls + more == calls;
    } else {
      var init, last := more[..|more| - 1], more[|more| - 1];
      HistoryFrozen(calls, init, key, limit, window, until);
      assert (calls + more)[..|calls + more| - 1] == calls + init;
      if last.key == key {
        RecentGrows(History(calls, key, limit, window), last.now - window, until - window);
      }
    }
  }

  lemma {:induction false} RecentGrows(times: seq<int>, c1: int, c2: int)
    requires c1 <= c2
    ensures |Recent(times, c1)| >= |Recent(times, c2)|
  {
    if times != [] { RecentGrows(times[..|times| - 1], c1, c2); }
  }

  /** What a refusal says about the window it looked at. */
  lemma RefusalMeaning(calls: seq<Call>, key: string, t: int, limit: nat, window: int)
    requires limit >= 1 && Monotone(calls + [Call(key, t)])
    requires Decide(StoredAfter(calls, key, limit, window), t, limit, window).Refused?
    ensures var r := Decide(StoredAfter(calls, key, limit, window), t, limit, window).retryAfter;
      var recent := Recent(History(calls, key, limit, window), t - window);
      && 0 <= r <= window
      && |recent| == limit
      && recent == Recent(StoredAfter(calls, key, limit, window), t - window)
      && t + r == recent[0] + window
      && Ascending(recent)
  {
    hide History, StoredAfter, Recent;
    PrefixMonotone(calls, Call(key, t));
    StoredLooksLikeHistory(calls, key, limit, window, t - window);
    FullWindow(calls, key, t, limit, window);
  }

  /** A refusal at time t that says "retry after r" is exact: however many calls follow up to t + r,
      a later call is admitted if and only if it comes strictly after t + r. The clamp to zero
      never applies, and r is never longer than the window. */
  lemma RetryAfterIsTight(calls: seq<Call>, key: string, t: int, more: seq<Call>, later: int, limit: nat, window: int)
    requires limit >= 1
    requires Monotone(calls + [Call(key, t)]) && Monotone(calls + more + [Call(key, later)]) && t <= later
    requires more != [] && more[0] == Call(key, t)
    requires Decide(StoredAfter(calls, key, limit, window), t, limit, window).Refused?
    requires forall k :: 0 <= k < |more| && more[k].key == key ==>
      more[k].now <= t + Decide(StoredAfter(calls, key, limit, window), t, limit, window).retryAfter
    ensures var r := Decide(StoredAfter(calls, key, limit, window), t, limit, window).retryAfter;
      && 0 <= r <= window
      && r == Recent(StoredAfter(calls, key, limit, window), t - window)[0] + window - t
      && (Decide(StoredAfter(calls + more, key, limit, window), later, limit, window) == Allowed <==> later > t + r)
  {
    var h := History(calls, key, limit, window);
    var until := t + Decide(StoredAfter(calls, key, limit, window), t, limit, window).retryAfter;
    RefusalMeaning(calls, key, t, limit, window);
    var recent := Recent(h, t - window);
    LaterWindow(h, recent, t, later, window);
    LaterWindow(h, recent, t, until, window);
    HistoryFrozen(calls, more, key, limit, window, until);
    RefinesFullHistory(calls + more, key, later, limit, window);
  }

  lemma PrefixMonotone(calls: seq<Call>, last: Call)
    requires Monotone(calls + [last])
    ensures Monotone(calls) && (calls != [] ==> calls[|calls| - 1].now <= last.now)
  {
    var all := calls + [last];
    assert forall k :: 0 <= k < |calls| ==> calls[k] == all[k];
    assert all[|calls|] == last;
  }

  /** A refusing window holds exactly `limit` admissions, oldest first, none in the future. */
  lemma FullWindow(calls: seq<Call>, key: string, t: int, limit: nat, window: int)
    requires limit >= 1 && Monotone(calls) && (calls != [] ==> calls[|calls| - 1].now <= t)
    requires |Recent(History(calls, key, limit, window), t - window)| >= limit
    ensures |Recent(History(calls, key, limit, window), t - window)| == limit
    ensures Ascending(Recent(History(calls, key, limit, window), t - window))
    ensures Bounded(Recent(History(calls, key, limit, window), t - window), t - window, t)
  {
    var h := History(calls, key, limit, window);
    var lo := if calls == [] then t else calls[0].now;
    HistoryShape(calls, key, limit, window, lo, t);
    RecentShape(h, t - window, lo, t);
    WindowCount(calls, key, t, limit, window);
  }

  lemma WindowCount(calls: seq<Call>, key: string, t: int, limit: nat, window: int)
    requires Monotone(calls) && forall k :: 0 <= k < |History(calls, key, limit, window)| ==>
      History(calls, key, limit, window)[k] <= t
    ensures |Recent(History(calls, key, limit, window), t - window)| <= limit
  {
    WindowBound(calls, key, limit, window, t - window);
    BetweenIsRecent(History(calls, key, limit, window), t - window, t);
  }

  lemma LaterWindow(h: seq<int>, recent: seq<int>, t: int, later: int, window: int)
    requires t <= later && recent == Recent(h, t - window) && recent != [] && Ascending(recent)
    ensures |Recent(h, later - window)| >= |recent| <==> later <= recent[0] + window
  {
    RecentOfRecent(h, t - window, later - window);
    FirstDecides(recent, later - window);
  }

  lemma FirstDecides(times: seq<int>, cutoff: int)
    requires times != [] && Ascending(times)
    ensures |Recent(times, cutoff)| >= |times| <==> times[0] >= cutoff
  {
    RecentKeepsAll(times, cutoff);
  }
}
