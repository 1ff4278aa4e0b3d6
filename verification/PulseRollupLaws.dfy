/**
 What one pump of the pulse relay scheduler guarantees, and what holds over whole runs of it:
 the concurrency limit, work conservation, no lost wake-up, backoff, silence after stop, and
 bounded overtaking.
 */
module PulseRollupLaws {
  import opened Arithmetic
  import opened Sequences
  import opened Text
  import opened Sorting
  import opened PulseRollup

  // ----- Settings and list -----

  /** Unset options take the defaults. */
  lemma UnsetOptions(url: string)
    ensures Configure(Options(None, None, None, None, None), url) == Config(url, 250, 4, 60000, 15000, 300000)
  {
  }

  /** Set options are rounded down, and raised to what makes sense. */
  lemma SetOptions(url: string, delay: real, limit: real, cooldown: real, base: real, max: real)
    ensures var c := Configure(Options(Some(delay), Some(limit), Some(cooldown), Some(base), Some(max)), url);
      && c.currentRelayUrl == url
      && c.initialDelayMs == (if delay >= 0.0 then delay.Floor else 0)
      && c.maxConcurrent == (if limit >= 1.0 then limit.Floor else 1)
      && c.cooldownMs == (if cooldown >= 0.0 then cooldown.Floor else 0)
      && c.baseMs == (if base >= 1.0 then base.Floor else 1)
      && c.maxMs == (if max >= c.baseMs as real then max.Floor else c.baseMs)
  {
  }

  lemma {:induction false} FilterOfFilter<T>(p: T -> bool, q: T -> bool, s: seq<T>, implied: bool)
    requires forall x :: x in s && p(x) ==> q(x) == implied
    ensures Filter(p, Filter(q, s)) == if implied then Filter(p, s) else []
  {
    if s != [] {
      var init, last := s[..|s| - 1], s[|s| - 1];
      assert last in s && forall x :: x in init ==> x in s;
      FilterOfFilter(p, q, init, implied);
      FilterSnoc(p, Filter(q, init), last);
      AppendNothing(Filter(q, init));
    }
  }

  lemma {:induction false} FilterCounts<T>(p: T -> bool, s: seq<T>, x: T)
    ensures multiset(Filter(p, s))[x] == if p(x) then multiset(s)[x] else 0
  {
    if s != [] {
      FilterCounts(p, s[..|s| - 1], x);
      InitAndLast(s);
    }
  }

  lemma PolledCounts(relays: seq<RelayListEntry>, url: string, e: RelayListEntry)
    ensures multiset(OrderPulseRelays(relays, url))[e] == if e.inbox then multiset(relays)[e] else 0
  {
    hide Filter;
    FilterCounts(Listed(url, true), relays, e);
    FilterCounts(Listed(url, false), relays, e);
  }

  lemma PolledInListOrder(relays: seq<RelayListEntry>, url: string, current: bool)
    ensures Filter(Listed(url, current), OrderPulseRelays(relays, url)) == Filter(Listed(url, current), relays)
  {
    hide Filter;
    FilterAppend(Listed(url, current), Filter(Listed(url, true), relays), Filter(Listed(url, false), relays));
    FilterOfFilter(Listed(url, current), Listed(url, true), relays, current);
    FilterOfFilter(Listed(url, current), Listed(url, false), relays, !current);
    AppendNothing(Filter(Listed(url, current), relays));
  }

  lemma CurrentPolledFirst(relays: seq<RelayListEntry>, url: string, i: nat, j: nat)
    requires i < |OrderPulseRelays(relays, url)| && j < |OrderPulseRelays(relays, url)|
    requires OrderPulseRelays(relays, url)[i].url == url && OrderPulseRelays(relays, url)[j].url != url
    ensures i < j
  {
    hide Filter;
    var first, others := Filter(Listed(url, true), relays), Filter(Listed(url, false), relays);
    if j < |first| { FilterMembers(Listed(url, true), relays, first[j]); }
    if i >= |first| { FilterMembers(Listed(url, false), relays, others[i - |first|]); }
  }

  /** The scheduler polls exactly the inbox relays, as often as they are listed, the current one first,
      and otherwise in the order of the list. */
  lemma PolledRelays(relays: seq<RelayListEntry>, url: string)
    ensures var polled := OrderPulseRelays(relays, url);
      && (forall e: RelayListEntry :: multiset(polled)[e] == if e.inbox then multiset(relays)[e] else 0)
      && (forall i, j :: 0 <= i < |polled| && 0 <= j < |polled| && polled[i].url == url != polled[j].url ==> i < j)
      && (forall current :: Filter(Listed(url, current), polled) == Filter(Listed(url, current), relays))
  {
    hide OrderPulseRelays, Listed, Filter;
    var polled := OrderPulseRelays(relays, url);
    forall e: RelayListEntry ensures multiset(polled)[e] == if e.inbox then multiset(relays)[e] else 0 {
      PolledCounts(relays, url, e);
    }
    forall i, j | 0 <= i < |polled| && 0 <= j < |polled| && polled[i].url == url != polled[j].url ensures i < j {
      CurrentPolledFirst(relays, url, i, j);
    }
    forall current ensures Filter(Listed(url, current), polled) == Filter(Listed(url, current), relays) {
      PolledInListOrder(relays, url, current);
    }
  }

  // ----- One pump -----

  lemma NoLaterIsTotalPreorder()
    ensures TotalPreorder(NoLater)
  {
  }

  lemma {:induction false} DueAscends(relays: seq<RelayState>, c: Config, now: int, n: nat)
    requires n <= |relays|
    ensures forall a :: 0 <= a < |DueUpTo(relays, c, now, n)| ==> DueUpTo(relays, c, now, n)[a].index < n
    ensures Distinct(DueUpTo(relays, c, now, n))
  {
    hide Due;
    if n > 0 { DueAscends(relays, c, now, n - 1); }
  }

  lemma {:induction false} DistinctOnce(s: seq<Candidate>, x: Candidate)
    requires Distinct(s)
    ensures multiset(s)[x] <= 1
  {
    if s != [] {
      var rest, last := s[..|s| - 1], s[|s| - 1];
      DistinctOnce(rest, x);
      assert s == rest + [last];
      assert last !in rest;
    }
  }

  lemma OnceEach<T>(s: seq<T>, a: nat, b: nat)
    requires a < b < |s| && multiset(s)[s[b]] <= 1
    ensures s[a] != s[b]
  {
    assert s == s[..b] + [s[b]] + s[b + 1..];
    assert s[a] in s[..b];
  }

  /** No relay is chosen twice in one pump. */
  lemma ChosenDistinct(relays: seq<RelayState>, c: Config, now: int, a: nat, b: nat)
    requires a < b < |Chosen(relays, c, now)|
    ensures Chosen(relays, c, now)[a].index != Chosen(relays, c, now)[b].index
  {
    var due := Sort(DueUpTo(relays, c, now, |relays|), NoLater);
    DueAscends(relays, c, now, |relays|);
    DistinctOnce(DueUpTo(relays, c, now, |relays|), due[b]);
    OnceEach(due, a, b);
    ChosenInRange(relays, c, now);
    assert due[a] == Chosen(relays, c, now)[a] && due[b] == Chosen(relays, c, now)[b];
  }

  function Indices(chosen: seq<Candidate>): set<nat> {
    set k | 0 <= k < |chosen| :: chosen[k].index
  }

  predicate Distinct(chosen: seq<Candidate>) {
    forall a, b :: 0 <= a < b < |chosen| ==> chosen[a].index != chosen[b].index
  }

  lemma {:induction false} IndicesCount(chosen: seq<Candidate>)
    requires Distinct(chosen)
    ensures |Indices(chosen)| == |chosen|
  {
    if chosen != [] {
      var init, last := chosen[..|chosen| - 1], chosen[|chosen| - 1];
      IndicesCount(init);
      assert Indices(chosen) == Indices(init) + {last.index};
    }
  }

  /** Launching changes nothing but the stage of the launched relays. */
  lemma {:induction false} LaunchEffect(relays: seq<RelayState>, chosen: seq<Candidate>, i: nat)
    requires i < |relays|
    ensures Launch(relays, chosen)[i] == if i in Indices(chosen) then relays[i].(stage := Querying) else relays[i]
  {
    if chosen != [] {
      var init, last := chosen[..|chosen| - 1], chosen[|chosen| - 1];
      LaunchEffect(relays, init, i);
      assert Indices(chosen) == Indices(init) + {last.index};
    }
  }

  lemma {:induction false} SoonestIsLeast(relays: seq<RelayState>, n: nat)
    requires n <= |relays|
    ensures SoonestUpTo(relays, n).None? <==> forall i :: 0 <= i < n ==> relays[i].InFlight()
    ensures SoonestUpTo(relays, n).Some? ==>
      (forall i :: 0 <= i < n && !relays[i].InFlight() ==> SoonestUpTo(relays, n).value <= relays[i].nextRunAt)
  {
    if n > 0 { SoonestIsLeast(relays, n - 1); }
  }

  lemma ChosenInOrder(relays: seq<RelayState>, c: Config, now: int, a: nat, b: nat)
    requires a < b < |Chosen(relays, c, now)|
    ensures Compare(Chosen(relays, c, now)[a], Chosen(relays, c, now)[b]) < 0
  {
    var due := Sort(DueUpTo(relays, c, now, |relays|), NoLater);
    NoLaterIsTotalPreorder();
    SortSorted(DueUpTo(relays, c, now, |relays|), NoLater);
    ChosenDistinct(relays, c, now, a, b);
    assert NoLater(due[a], due[b]);
  }

  lemma IndexChosen(chosen: seq<Candidate>, k: nat)
    requires k < |chosen|
    ensures chosen[k].index in Indices(chosen)
  {
  }

  lemma StrictlyBefore(x: Candidate, y: Candidate)
    requires NoLater(x, y) && x.index != y.index
    ensures Compare(x, y) < 0
  {
  }

  lemma ChosenBeforeWaiting(relays: seq<RelayState>, c: Config, now: int, a: nat, i: nat)
    requires a < |Chosen(relays, c, now)| && i < |relays| && Due(relays, i, now)
      && i !in Indices(Chosen(relays, c, now))
    ensures Compare(Chosen(relays, c, now)[a], CandidateAt(relays, c, i)) < 0
  {
    hide DueUpTo, Compare, Due, Slots;
    var due, chosen := Sort(DueUpTo(relays, c, now, |relays|), NoLater), Chosen(relays, c, now);
    var x := CandidateAt(relays, c, i);
    NoLaterIsTotalPreorder();
    SortSorted(DueUpTo(relays, c, now, |relays|), NoLater);
    DueUpToIffDue(relays, c, now, |relays|, x);
    assert x in multiset(due);
    var k: nat :| k < |due| && due[k] == x;
    if k < |chosen| { IndexChosen(chosen, k); }
    assert NoLater(due[a], due[k]);
    IndexChosen(chosen, a);
    StrictlyBefore(due[a], due[k]);
  }

  /** The order of the relay list: the current relay before all others, then the one due first, then the
      one listed first. */
  predicate Ahead(relays: seq<RelayState>, currentRelayUrl: string, i: nat, j: nat)
    requires i < |relays| && j < |relays|
  {
    var iCurrent, jCurrent := relays[i].relay.url == currentRelayUrl, relays[j].relay.url == currentRelayUrl;
    if iCurrent != jCurrent then iCurrent
    else if relays[i].nextRunAt != relays[j].nextRunAt then relays[i].nextRunAt < relays[j].nextRunAt
    else i < j
  }

  lemma ComparesAhead(relays: seq<RelayState>, c: Config, i: nat, j: nat)
    requires i < |relays| && j < |relays|
    ensures Compare(CandidateAt(relays, c, i), CandidateAt(relays, c, j)) < 0
       <==> Ahead(relays, c.currentRelayUrl, i, j)
  {
  }

  /** The relays a pump starts are idle and due, each started once and in order, and each ahead of every
      due relay the pump leaves waiting. */
  lemma ChosenAreMostUrgent(relays: seq<RelayState>, c: Config, now: int)
    ensures var chosen := Chosen(relays, c, now);
      && Distinct(chosen)
      && (forall a :: 0 <= a < |chosen| ==> chosen[a].index < |relays| && Due(relays, chosen[a].index, now))
      && (forall a, b :: 0 <= a < b < |chosen| ==> Ahead(relays, c.currentRelayUrl, chosen[a].index, chosen[b].index))
      && (forall a, i :: 0 <= a < |chosen| && 0 <= i < |relays| && Due(relays, i, now) && i !in Indices(chosen)
            ==> Ahead(relays, c.currentRelayUrl, chosen[a].index, i))
  {
    hide Chosen, Compare, Due, Ahead;
    var chosen := Chosen(relays, c, now);
    ChosenInRange(relays, c, now);
    forall a, b | 0 <= a < b < |chosen|
      ensures chosen[a].index != chosen[b].index && Ahead(relays, c.currentRelayUrl, chosen[a].index, chosen[b].index)
    {
      ChosenDistinct(relays, c, now, a, b);
      ChosenInOrder(relays, c, now, a, b);
      ComparesAhead(relays, c, chosen[a].index, chosen[b].index);
    }
    forall a, i | 0 <= a < |chosen| && 0 <= i < |relays| && Due(relays, i, now) && i !in Indices(chosen)
      ensures Ahead(relays, c.currentRelayUrl, chosen[a].index, i)
    {
      ChosenBeforeWaiting(relays, c, now, a, i);
      ComparesAhead(relays, c, chosen[a].index, i);
    }
  }

  lemma LaunchCount(relays: seq<RelayState>, c: Config, now: int)
    ensures InFlight(Launch(relays, Chosen(relays, c, now))) == InFlight(relays) + Indices(Chosen(relays, c, now))
    ensures |InFlight(Launch(relays, Chosen(relays, c, now)))| == |InFlight(relays)| + |Chosen(relays, c, now)|
  {
    hide Chosen, Launch;
    var chosen := Chosen(relays, c, now);
    var launched := Launch(relays, chosen);
    ChosenAreMostUrgent(relays, c, now);
    IndicesCount(chosen);
    ChosenInRange(relays, c, now);
    forall i: nat | i < |relays| ensures i in InFlight(launched) <==> i in InFlight(relays) || i in Indices(chosen) {
      LaunchEffect(relays, chosen, i);
    }
    forall i: nat | i in Indices(chosen) ensures i < |relays| && i !in InFlight(relays) {
      var k :| 0 <= k < |chosen| && chosen[k].index == i;
    }
  }

  /** Work conservation: a pump never exceeds the limit, and it leaves a due relay idle only
      when the limit is reached. */
  lemma PumpConservesWork(s: Rollup, c: Config, now: int, armNow: int)
    requires c.Valid() && !s.stopped && |InFlight(s.relays)| <= c.maxConcurrent
    ensures var p := Pump(s, c, now, armNow);
      && |InFlight(p.relays)| <= c.maxConcurrent
      && (|InFlight(p.relays)| == c.maxConcurrent || forall i :: 0 <= i < |p.relays| ==> !Due(p.relays, i, now))
  {
    var relays := s.relays;
    var due, chosen := Sort(DueUpTo(relays, c, now, |relays|), NoLater), Chosen(relays, c, now);
    LaunchCount(relays, c, now);
    var launched := Launch(relays, chosen);
    if |InFlight(launched)| != c.maxConcurrent {
      assert chosen == due;
      forall i | 0 <= i < |launched| ensures !Due(launched, i, now) {
        var x := CandidateAt(relays, c, i);
        DueUpToIffDue(relays, c, now, |relays|, x);
        LaunchEffect(relays, chosen, i);
        if Due(relays, i, now) {
          assert x in multiset(due);
          var k :| 0 <= k < |due| && due[k] == x;
          assert chosen[k].index == i;
        }
      }
    }
  }

  lemma {:induction false} SoonestIsAttained(relays: seq<RelayState>, n: nat)
    requires n <= |relays|
    ensures SoonestUpTo(relays, n).Some? ==>
      exists i :: 0 <= i < n && !relays[i].InFlight() && relays[i].nextRunAt == SoonestUpTo(relays, n).value
  {
    if n > 0 { SoonestIsAttained(relays, n - 1); }
  }

  /** A pump arms the timer whenever a relay is idle, no later than that relay needs it; and with no
      delay exactly when it leaves a relay waiting that is due by then. */
  lemma PumpArmsTimer(s: Rollup, c: Config, now: int, armNow: int)
    requires !s.stopped && now <= armNow
    ensures var p := Pump(s, c, now, armNow);
      && (p.timer.None? <==> forall i :: 0 <= i < |p.relays| ==> p.relays[i].InFlight())
      && (forall i :: 0 <= i < |p.relays| && !p.relays[i].InFlight() ==>
            armNow <= p.timer.value <= Max(armNow, p.relays[i].nextRunAt))
      && (p.timer == Some(armNow) <==> exists i :: 0 <= i < |p.relays| && Due(p.relays, i, armNow))
  {
    hide Launch, Chosen;
    var p := Pump(s, c, now, armNow);
    SoonestIsLeast(p.relays, |p.relays|);
    SoonestIsAttained(p.relays, |p.relays|);
    if p.timer == Some(armNow) {
      var i :| 0 <= i < |p.relays| && !p.relays[i].InFlight()
        && p.relays[i].nextRunAt == SoonestUpTo(p.relays, |p.relays|).value;
      assert Due(p.relays, i, armNow);
    }
  }

  /** A pump at the limit starts nothing. */
  lemma FullPumpStartsNothing(s: Rollup, c: Config, now: int, armNow: int)
    requires !s.stopped && |InFlight(s.relays)| >= c.maxConcurrent
    ensures Chosen(s.relays, c, now) == [] && Pump(s, c, now, armNow).relays == s.relays
  {
  }
}
