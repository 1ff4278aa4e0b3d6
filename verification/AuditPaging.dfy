/**
 Reading the audit log page by page while entries keep being appended.
 */
module AuditPaging {
  import opened Arithmetic
  import opened AuditCursor
  import opened MemoryStore

  function Reverse(log: seq<AuditEntry>): (r: seq<AuditEntry>)
    ensures |r| == |log|
    ensures forall k :: 0 <= k < |log| ==> r[k] == log[|log| - 1 - k]
  {
    if log == [] then [] else [log[|log| - 1]] + Reverse(log[..|log| - 1])
  }

  /** Ids grow along the log, as `nextID` makes them. */
  ghost predicate IdsGrow(log: seq<AuditEntry>) {
    && (forall k :: 0 <= k < |log| ==> IsInt64(log[k].id) && IsInt64(log[k].createdAt))
    && (forall i, j :: 0 <= i < j < |log| ==> log[i].id < log[j].id)
  }

  /** ... and so do creation times, as long as the clock is nondecreasing and sets them. */
  ghost predicate TimesGrow(log: seq<AuditEntry>) {
    forall i, j :: 0 <= i <= j < |log| ==> log[i].createdAt <= log[j].createdAt
  }

  function PositionOf(e: AuditEntry): Position {
    Position(e.createdAt, e.id)
  }

  lemma {:induction false} OlderMembers(log: seq<AuditEntry>, p: Position, e: AuditEntry)
    ensures e in Older(log, p) <==> e in log && Beyond(e, p)
  {
    if log != [] {
      OlderMembers(log[..|log| - 1], p, e);
      assert e in log <==> e in log[..|log| - 1] || e == log[|log| - 1];
    }
  }

  lemma {:induction false} OlderKeepsAll(log: seq<AuditEntry>, p: Position)
    requires forall k :: 0 <= k < |log| ==> Beyond(log[k], p)
    ensures Older(log, p) == Reverse(log)
  {
    if log != [] { OlderKeepsAll(log[..|log| - 1], p); }
  }

  lemma {:induction false} OlderDropsTail(log: seq<AuditEntry>, p: Position, k: nat)
    requires k <= |log| && forall j :: k <= j < |log| ==> !Beyond(log[j], p)
    ensures Older(log, p) == Older(log[..k], p)
  {
    if k < |log| {
      OlderDropsTail(log[..|log| - 1], p, k);
      assert log[..|log| - 1][..k] == log[..k];
    } else {
      assert log[..k] == log;
    }
  }

  ghost predicate InTimeOrderAround(log: seq<AuditEntry>, k: nat)
    requires k < |log|
  {
    && (forall j :: 0 <= j < k ==> log[j].createdAt <= log[k].createdAt)
    && (forall j :: k < j < |log| ==> log[k].createdAt <= log[j].createdAt)
  }

  lemma ResumesInOrder(log: seq<AuditEntry>, k: nat)
    requires IdsGrow(log) && k < |log| && Older(log, PositionOf(log[k])) == Reverse(log[..k])
    ensures InTimeOrderAround(log, k)
  {
    hide Older;
    var p := PositionOf(log[k]);
    assert p.time != ZERO_TIME;
    forall j | 0 <= j < k ensures log[j].createdAt <= log[k].createdAt {
      OlderMembers(log, p, log[j]);
      assert Reverse(log[..k])[k - 1 - j] == log[j];
    }
    forall j | k < j < |log| ensures log[k].createdAt <= log[j].createdAt {
      OlderMembers(log, p, log[j]);
      assert log[j] !in Reverse(log[..k]);
    }
  }

  /** A page resumes right after entry k, neither skipping nor repeating, exactly when no older
      entry carries a later time and no newer entry an earlier one. */
  lemma CursorResumes(log: seq<AuditEntry>, k: nat)
    requires IdsGrow(log) && k < |log|
    ensures Older(log, PositionOf(log[k])) == Reverse(log[..k]) <==> InTimeOrderAround(log, k)
  {
    hide Older, Reverse;
    var p := PositionOf(log[k]);
    if Older(log, p) == Reverse(log[..k]) { ResumesInOrder(log, k); }
    if InTimeOrderAround(log, k) {
      OlderDropsTail(log, p, k);
      OlderKeepsAll(log[..k], p);
    }
  }

  /** A clock that was set back makes a reader skip an entry. */
  lemma ClockSetBackSkips(e: AuditEntry)
    ensures var late, early := e.(id := 1, createdAt := 2), e.(id := 2, createdAt := 1);
      IdsGrow([late, early]) && Older([late, early], PositionOf(early)) == [] && Reverse([late, early][..1]) == [late]
  {
    var log := [e.(id := 1, createdAt := 2), e.(id := 2, createdAt := 1)];
    OlderDropsTail(log, PositionOf(log[1]), 0);
    assert log[..0] == [] && log[..1] == [log[0]] && log[..1][..0] == [];
  }

  // ----- Cursors as a codec -----

  /** The two cursor functions. The laws of reading hold for every faithful codec; the store's is one. */
  datatype Codec = Codec(encode: AuditEntry -> Cursor, decode: Cursor -> Decoded)

  const STORE_CODEC: Codec := Codec(EncodeAuditCursor, DecodeAuditCursor)

  ghost predicate Faithful(codec: Codec) {
    && codec.decode(NoCursor) == Ok(Position(ZERO_TIME, 0))
    && forall e: AuditEntry :: IsInt64(e.id) && IsInt64(e.createdAt) ==>
         codec.encode(e) != NoCursor && codec.decode(codec.encode(e)) == Ok(PositionOf(e))
  }

  /** The page that shows the given entries. */
  function Cut(codec: Codec, filtered: seq<AuditEntry>, size: nat): Page
    requires size >= 1
  {
    if |filtered| > size then Page(filtered[..size], codec.encode(filtered[size - 1])) else Page(filtered, NoCursor)
  }

  function PageBy(codec: Codec, log: seq<AuditEntry>, cursor: Cursor, limit: int): Page {
    match codec.decode(cursor)
    case DecodeError => PageError
    case Ok(position) => Cut(codec, Older(log, position), ClampLimit(limit))
  }

  lemma StoreCodecIsFaithful()
    ensures Faithful(STORE_CODEC)
  {
    forall e: AuditEntry | IsInt64(e.id) && IsInt64(e.createdAt)
      ensures EncodeAuditCursor(e) != NoCursor && DecodeAuditCursor(EncodeAuditCursor(e)) == Ok(PositionOf(e))
    {
      CursorRoundTrip(e);
    }
  }

  lemma StorePagesByItsCodec(log: seq<AuditEntry>, cursor: Cursor, limit: int)
    ensures AuditPage(log, cursor, limit) == PageBy(STORE_CODEC, log, cursor, limit)
  {
  }

  // ----- Runs -----

  /** A reader following `NextCursor`: the log and the page received at each request. Between
      requests the log only grows. */
  datatype Reading = Reading(codec: Codec, limit: int, logs: seq<seq<AuditEntry>>, pages: seq<Page>) {
    ghost predicate Valid() {
      && Faithful(codec)
      && |logs| == |pages| >= 1
      && (forall i :: 0 <= i < |logs| ==> IdsGrow(logs[i]) && TimesGrow(logs[i]))
      && (forall i :: 0 <= i < |logs| ==> logs[0] <= logs[i])
      && pages[0] == PageBy(codec, logs[0], NoCursor, limit)
      && (forall i :: 0 < i < |pages| ==> Follows(i))
    }

    ghost predicate Follows(i: nat)
      requires 0 < i < |pages| == |logs|
    {
      && pages[i - 1].Page? && pages[i - 1].next != NoCursor
      && pages[i] == PageBy(codec, logs[i], pages[i - 1].next, limit)
    }

    /** The entries of the first i pages, in the order received. */
    ghost function Received(i: nat): seq<AuditEntry>
      requires i <= |pages|
    {
      if i == 0 then []
      else if pages[i - 1].Page? then Received(i - 1) + pages[i - 1].entries
      else Received(i - 1)
    }
  }

  /** Page i continues the log as it stood at the first request where page i - 1 ended. */
  ghost predicate OnTrack(r: Reading, i: nat, start: nat, size: nat)
    requires i < |r.pages| && |r.logs| >= 1 && size >= 1
  {
    var n := |r.logs[0]|;
    && r.pages[i].Page? && start <= n
    && (n - start > size ==>
         && r.Received(i + 1) == Reverse(r.logs[0])[..start + size]
         && r.pages[i].next == r.codec.encode(r.logs[0][n - start - size]))
    && (n - start <= size ==> r.Received(i + 1) == Reverse(r.logs[0]) && r.pages[i].next == NoCursor)
  }

  lemma OnTrackEnds(r: Reading, i: nat, start: nat, size: nat)
    requires i < |r.pages| && |r.logs| >= 1 && size >= 1 && OnTrack(r, i, start, size)
    requires Faithful(r.codec) && IdsGrow(r.logs[0])
    ensures r.pages[i].Page? && (r.pages[i].next == NoCursor <==> |r.logs[0]| - start <= size)
    ensures r.pages[i].next == NoCursor ==> r.Received(i + 1) == Reverse(r.logs[0])
    ensures r.pages[i].next != NoCursor ==>
      && r.Received(i + 1) == Reverse(r.logs[0])[..start + size]
      && r.pages[i].next == r.codec.encode(r.logs[0][|r.logs[0]| - start - size])
  {
  }

  lemma PageFrom(r: Reading, i: nat, start: nat, size: nat, filtered: seq<AuditEntry>)
    requires i < |r.pages| && |r.logs| >= 1 && size >= 1 && start <= |r.logs[0]|
    requires r.Received(i) == Reverse(r.logs[0])[..start]
    requires filtered == Reverse(r.logs[0])[start..]
    requires r.pages[i] == Cut(r.codec, filtered, size)
    ensures OnTrack(r, i, start, size)
  {
    var all := Reverse(r.logs[0]);
    assert |filtered| > size ==> all[..start] + filtered[..size] == all[..start + size];
    assert all[..start] + filtered == all;
  }

  lemma {:induction false} ReverseSuffix(log: seq<AuditEntry>, start: nat)
    requires start <= |log|
    ensures Reverse(log)[start..] == Reverse(log[..|log| - start])
  {
    if start == 0 {
      assert log[..|log|] == log;
    } else {
      var init := log[..|log| - 1];
      ReverseSuffix(init, start - 1);
      assert Reverse(log)[1..] == Reverse(init);
      assert Reverse(log)[start..] == Reverse(log)[1..][start - 1..];
      assert init[..|init| - (start - 1)] == log[..|log| - start];
    }
  }

  /** What a cursor made from entry k of a prefix of the log selects from the whole log. */
  lemma ResumesInPrefix(log0: seq<AuditEntry>, log: seq<AuditEntry>, k: nat)
    requires IdsGrow(log) && TimesGrow(log) && log0 <= log && k < |log0|
    ensures Older(log, PositionOf(log0[k])) == Reverse(log0[..k])
  {
    assert log[k] == log0[k] && log[..k] == log0[..k];
    CursorResumes(log, k);
  }

  lemma PageAfter(codec: Codec, log0: seq<AuditEntry>, log: seq<AuditEntry>, k: nat, limit: int)
    requires Faithful(codec) && IdsGrow(log) && TimesGrow(log) && log0 <= log && k < |log0|
    ensures PageBy(codec, log, codec.encode(log0[k]), limit)
         == Cut(codec, Reverse(log0)[|log0| - k..], ClampLimit(limit))
  {
    ResumesInPrefix(log0, log, k);
    ReverseSuffix(log0, |log0| - k);
    assert log[k] == log0[k];
    assert codec.decode(codec.encode(log[k])) == Ok(PositionOf(log[k]));
  }

  lemma FirstPage(codec: Codec, log: seq<AuditEntry>, limit: int)
    requires Faithful(codec)
    ensures PageBy(codec, log, NoCursor, limit) == Cut(codec, Reverse(log), ClampLimit(limit))
  {
    OlderKeepsAll(log, Position(ZERO_TIME, 0));
  }

  lemma NextOnTrack(r: Reading, i: nat, before: nat, size: nat)
    requires 0 < i < |r.pages| == |r.logs| && size == ClampLimit(r.limit)
    requires Faithful(r.codec) && IdsGrow(r.logs[i]) && TimesGrow(r.logs[i]) && IdsGrow(r.logs[0])
      && r.logs[0] <= r.logs[i]
    requires OnTrack(r, i - 1, before, size) && r.Follows(i)
    ensures OnTrack(r, i, before + size, size)
  {
    hide OnTrack, Cut, ClampLimit, Reverse, IdsGrow, TimesGrow;
    var log0, start := r.logs[0], before + size;
    OnTrackEnds(r, i - 1, before, size);
    PageAfter(r.codec, log0, r.logs[i], |log0| - start, r.limit);
    PageFrom(r, i, start, size, Reverse(log0)[start..]);
  }

  lemma {:induction false} StaysOnTrack(r: Reading, i: nat)
    requires r.Valid() && i < |r.pages|
    ensures OnTrack(r, i, Times(i, ClampLimit(r.limit)), ClampLimit(r.limit))
  {
    hide OnTrack, PageBy, Cut, Reverse;
    var size := ClampLimit(r.limit);
    if i == 0 {
      FirstPage(r.codec, r.logs[0], r.limit);
      PageFrom(r, 0, 0, size, Reverse(r.logs[0]));
    } else {
      StaysOnTrack(r, i - 1);
      NextOnTrack(r, i, Times(i - 1, size), size);
    }
  }

  lemma LastPageEnds(r: Reading)
    requires r.Valid() && r.pages[|r.pages| - 1].Page? && r.pages[|r.pages| - 1].next == NoCursor
    ensures r.Received(|r.pages|) == Reverse(r.logs[0])
    ensures |r.logs[0]| <= Times(|r.pages|, ClampLimit(r.limit))
  {
    hide OnTrack, PageBy, Cut, Reverse, Reading.Received;
    var m, size := |r.pages|, ClampLimit(r.limit);
    StaysOnTrack(r, m - 1);
    OnTrackEnds(r, m - 1, Times(m - 1, size), size);
  }

  lemma EarlierPageGoesOn(r: Reading, i: nat)
    requires r.Valid() && 0 < i < |r.pages|
    ensures Times(i, ClampLimit(r.limit)) < |r.logs[0]|
  {
    assert r.Follows(i);
    PageServed(r, i - 1);
  }

  /** Completeness: a reader who follows the cursors to the end has received exactly the log as it
      stood at the first request, newest first, in ceil(n / limit) pages (one when it was empty),
      whatever was appended meanwhile. */
  lemma ReadsWholeLogOnce(r: Reading)
    requires r.Valid() && r.pages[|r.pages| - 1].Page? && r.pages[|r.pages| - 1].next == NoCursor
    ensures r.Received(|r.pages|) == Reverse(r.logs[0])
    ensures var n, size := |r.logs[0]|, ClampLimit(r.limit);
      |r.pages| == if n == 0 then 1 else (n + size - 1) / size
  {
    LastPageEnds(r);
    if |r.pages| > 1 { EarlierPageGoesOn(r, |r.pages| - 1); }
    CeilingUnique(|r.logs[0]|, ClampLimit(r.limit), |r.pages|);
  }

  lemma CeilingUnique(n: nat, size: nat, m: nat)
    requires size > 0 && m > 0 && n <= Times(m, size) && (m > 1 ==> Times(m - 1, size) < n)
    ensures m == if n == 0 then 1 else (n + size - 1) / size
  {
    TimesIsProduct(m, size);
    TimesIsProduct(m - 1, size);
    if n > 0 {
      QuotientBetween(n + size - 1, m, size);
    }
  }

  lemma PageServed(r: Reading, i: nat)
    requires r.Valid() && i < |r.pages|
    ensures r.pages[i].Page?
    ensures r.pages[i].next != NoCursor ==> Times(i + 1, ClampLimit(r.limit)) < |r.logs[0]|
  {
    var size := ClampLimit(r.limit);
    StaysOnTrack(r, i);
    OnTrackEnds(r, i, Times(i, size), size);
  }

  /** No request fails, and a reader who has not reached the end has seen fewer than ceil(n / limit)
      pages: following the cursors always ends. */
  lemma NeverStuck(r: Reading)
    requires r.Valid()
    ensures forall i :: 0 <= i < |r.pages| ==> r.pages[i].Page?
    ensures r.pages[|r.pages| - 1].next != NoCursor ==> |r.pages| * ClampLimit(r.limit) < |r.logs[0]|
  {
    forall i | 0 <= i < |r.pages| ensures r.pages[i].Page? {
      PageServed(r, i);
    }
    PageServed(r, |r.pages| - 1);
    TimesIsProduct(|r.pages|, ClampLimit(r.limit));
  }
}
