/**
 The sliding-window rate limiter of the admin API. `Allow` compacts the key's slice in place;
 the laws below show that the compacted slices behave as if every admission were remembered.
 */
module RateLimiter {
  import opened Arithmetic

  /** `IndexPanic` is the run-time panic of reading `requests[0]` from an empty slice. */
  datatype Result = Allowed | Refused(retryAfter: int) | IndexPanic

  function Recent(times: seq<int>, cutoff: int): (r: seq<int>)
    ensures |r| <= |times|
  {
    if times == [] then []
    else
      var recent := Recent(times[..|times| - 1], cutoff);
      if times[|times| - 1] >= cutoff then recent + [times[|times| - 1]] else recent
  }

  lemma RecentStep(times: seq<int>, i: nat, cutoff: int)
    requires i < |times|
    ensures Recent(times[..i + 1], cutoff)
         == if times[i] >= cutoff then Recent(times[..i], cutoff) + [times[i]] else Recent(times[..i], cutoff)
  {
    assert times[..i + 1][..i] == times[..i];
  }

  /** The outcome of one call from what the limiter has stored for the key. */
  function Decide(stored: seq<int>, now: int, limit: int, window: int): Result {
    var recent := Recent(stored, now - window);
    if |recent| < limit then Allowed
    else if recent == [] then IndexPanic
    else Refused(Max(0, recent[0] + window - now))
  }

  /** What the limiter stores for the key afterwards. */
  function Store(stored: seq<int>, now: int, limit: int, window: int): seq<int> {
    var recent := Recent(stored, now - window);
    if |recent| < limit then recent + [now]
    else if recent == [] then stored
    else recent
  }

  /** A Go slice: a backing array and the length in use. */
  datatype Slice = Slice(buffer: array<int>, len: nat) {
    predicate Valid() { len <= buffer.Length }
    function Contents(): seq<int>
      requires Valid()
      reads buffer
    {
      buffer[..len]
    }
  }

  class Limiter {
    const limit: int
    const window: int
    var entries: map<string, Slice>

    ghost function Buffers(): set<object>
      reads this
    {
      set key | key in entries :: entries[key].buffer as object
    }

    /** Every slice fits its backing array, and no two keys share one. */
    ghost predicate Valid()
      reads this
    {
      && (forall key :: key in entries ==> entries[key].Valid())
      && (forall k1, k2 :: k1 in entries && k2 in entries && k1 != k2 ==> entries[k1].buffer != entries[k2].buffer)
    }

    /** The admissions remembered for a key. */
    function Stored(key: string): seq<int>
      requires Valid()
      reads this, Buffers()
    {
      if key in entries then assert entries[key].buffer as object in Buffers(); entries[key].Contents() else []
    }

    constructor (limit: int, window: int)
      ensures Valid() && this.limit == limit && this.window == window
      ensures forall key :: Stored(key) == []
      ensures Buffers() == {}
    {
      this.limit := limit;
      this.window := window;
      entries := map[];
    }

    /** Keeps the timestamps that are not before the cutoff, writing them over the front of the
        slice they are read from. */
    method Compact(slice: Slice, cutoff: int) returns (kept: nat)
      requires slice.Valid()
      modifies slice.buffer
      ensures kept <= slice.len
      ensures slice.buffer[..kept] == Recent(old(slice.Contents()), cutoff)
      ensures kept == 0 ==> slice.Contents() == old(slice.Contents())
    {
      ghost var was := slice.Contents();
      kept := 0;
      for i := 0 to slice.len
        invariant kept <= i
        invariant slice.buffer[..kept] == Recent(was[..i], cutoff)
        invariant forall k :: kept <= k < slice.len ==> slice.buffer[k] == was[k]
      {
        var ts := slice.buffer[i];
        RecentStep(was, i, cutoff);
        if !(ts < cutoff) {
          slice.buffer[kept] := ts;
          kept := kept + 1;
        }
      }
      assert was[..slice.len] == was;
    }

    /** `append(requests, now)`: in place when the backing array has room, else into a new one. */
    method Append(slice: Slice, now: int) returns (longer: Slice)
      requires slice.Valid()
      modifies slice.buffer
      ensures longer.Valid() && longer.Contents() == old(slice.Contents()) + [now]
      ensures longer.buffer == slice.buffer || fresh(longer.buffer)
    {
      var buffer := slice.buffer;
      if slice.len == buffer.Length {
        buffer := new int[2 * slice.len + 1];
        for k := 0 to slice.len
          invariant forall j :: 0 <= j < k ==> buffer[j] == slice.buffer[j]
          invariant slice.buffer[..] == old(slice.buffer[..])
        {
          buffer[k] := slice.buffer[k];
        }
      }
      buffer[slice.len] := now;
      longer := Slice(buffer, slice.len + 1);
    }

    method Allow(key: string, now: int) returns (result: Result)
      requires Valid()
      modifies this, Buffers()
      ensures Valid() && fresh(Buffers() - old(Buffers()))
      ensures result == Decide(old(Stored(key)), now, limit, window)
      ensures Stored(key) == Store(old(Stored(key)), now, limit, window)
      ensures forall other :: other != key ==> Stored(other) == old(Stored(other))
    {
      var slice: Slice;
      if key in entries {
        slice := entries[key];
        assert slice.buffer as object in Buffers();
      } else {
        var empty := new int[0];
        slice := Slice(empty, 0);
      }
      ghost var was := slice.Contents();
      ghost var recent := Recent(was, now - window);
      assert was == old(Stored(key));
      var kept := Compact(slice, now - window);
      var requests := Slice(slice.buffer, kept);
      assert requests.Contents() == recent && |recent| == kept;
      if kept >= limit && kept == 0 {
        return IndexPanic;
      }
      if kept >= limit {
        var retryAfter := slice.buffer[0] + window - now;
        if retryAfter < 0 {
          retryAfter := 0;
        }
        result := Refused(retryAfter);
        assert result == Decide(was, now, limit, window);
        assert requests.Contents() == Store(was, now, limit, window);
      } else {
        requests := Append(requests, now);
        result := Allowed;
        assert requests.Contents() == Store(was, now, limit, window);
      }
      Assign(key, requests);
    }

    /** `l.entries[key] = requests`, where the slice is the key's own or a new one. */
    method Assign(key: string, requests: Slice)
      requires Valid() && requests.Valid()
      requires forall other :: other in entries && other != key ==> entries[other].buffer != requests.buffer
      modifies this`entries
      ensures Valid() && Buffers() <= old(Buffers()) + {requests.buffer}
      ensures Stored(key) == requests.Contents()
      ensures forall other :: other != key ==> Stored(other) == old(Stored(other))
    {
      entries := entries[key := requests];
    }
  }
}
