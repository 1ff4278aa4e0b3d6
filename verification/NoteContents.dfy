/**
 What the note reducers do, told from the fields of the notes: which relay notes a refresh leaves out,
 which note a server reply consumes, what the merged notes hold, and the order they come in.
 */
module NoteContents {
  import opened Arithmetic
  import opened NoteConvergence
  import opened NoteReconciliation
  import opened Notes
  import opened Sorting
  import opened Text
  import opened Timestamps

  // ----- Alike notes -----

  /** The same author, place, trimmed text, reply target and root, written at most five seconds apart; when
      a time cannot be parsed, at the same one. */
  predicate Alike(loc: Locale, a: Note, b: Note) {
    && a.geohash == b.geohash && a.author == b.author && Trim(a.content) == Trim(b.content)
    && OrEmpty(a.replyTarget) == OrEmpty(b.replyTarget) && OrEmpty(a.root) == OrEmpty(b.root)
    && (if loc.parse(a.createdAt).Some? && loc.parse(b.createdAt).Some?
        then -5000 <= loc.parse(a.createdAt).value - loc.parse(b.createdAt).value <= 5000
        else a.createdAt == b.createdAt)
  }

  lemma EquivalentIsAlike(loc: Locale, a: Note, b: Note)
    ensures Equivalent(loc, a, b) <==> Alike(loc, a, b)
  {
  }

  /** An id counts as an event id when it has, trimmed, 64 hex digits of either case. */
  lemma EventIdsAreHex(id: string)
    ensures IsRelayBacked(id) <==>
      |Trim(id)| == 64 && forall c :: c in Trim(id) ==> c in "0123456789abcdefABCDEF"
  {
    hide Trim, IsHex;
    forall c: char ensures IsHex(c) <==> c in "0123456789abcdefABCDEF" {
      HexDigit(c);
    }
    if |Trim(id)| == 64 && forall i :: 0 <= i < 64 ==> IsHex(Trim(id)[i]) {
      assert forall c :: c in Trim(id) ==> exists i :: 0 <= i < 64 && Trim(id)[i] == c;
    }
  }

  lemma HexDigit(c: char)
    ensures IsHex(c) <==> c in "0123456789abcdefABCDEF"
  {
    var digits := "0123456789abcdefABCDEF";
    if IsHex(c) {
      var i := if c <= '9' then c as int - 48 else if c <= 'F' then c as int - 49 else c as int - 87;
      assert digits[i] == c;
    }
  }

  /** A note of the state with a "note-" id is alike. */
  predicate Echoes(loc: Locale, current: seq<Note>, relay: Note) {
    exists i :: 0 <= i < |current| && "note-" <= current[i].id && Alike(loc, current[i], relay)
  }

  lemma EchoesLocal(loc: Locale, current: seq<Note>, relay: Note)
    ensures HasEquivalentLocal(loc, current, relay) <==> Echoes(loc, current, relay)
  {
    forall i | 0 <= i < |current|
      ensures IsLocal(current[i]) && Equivalent(loc, current[i], relay)
        <==> "note-" <= current[i].id && Alike(loc, current[i], relay)
    {
      EquivalentIsAlike(loc, current[i], relay);
    }
  }

  // ----- What a refresh leaves out -----

  lemma SetNoteHasId(notes: seq<Note>, note: Note, id: string)
    ensures HasId(SetNote(notes, note), id) <==> HasId(notes, id) || id == note.id
  {
    var r := SetNote(notes, note);
    if HasId(notes, note.id) {
      assert forall i :: 0 <= i < |notes| ==> r[i].id == notes[i].id;
    } else {
      assert r[|notes|] == note && forall i :: 0 <= i < |notes| ==> r[i] == notes[i];
    }
  }

  lemma {:induction false} IndexHasId(notes: seq<Note>, id: string)
    ensures HasId(IndexById(notes), id) <==> HasId(notes, id)
  {
    if notes != [] {
      var init, last := notes[..|notes| - 1], notes[|notes| - 1];
      IndexHasId(init, id);
      SetNoteHasId(IndexById(init), last, id);
      HasIdIffMember(notes, id);
      HasIdIffMember(init, id);
      assert forall n :: n in notes <==> n in init || n == last;
    }
  }

  /** The batch brings a note of this id that echoes nothing. */
  ghost predicate Brings(loc: Locale, current: seq<Note>, relays: seq<Note>, id: string) {
    exists r :: r in relays && r.id == id && !Echoes(loc, current, r)
  }

  lemma {:induction false} AbsorbAllHasId(loc: Locale, current: seq<Note>, relays: seq<Note>, id: string)
    ensures HasId(AbsorbAll(loc, current, relays), id) <==> HasId(current, id) || Brings(loc, current, relays, id)
  {
    hide Echoes, HasEquivalentLocal, Dedupe, MergeReactions;
    if relays == [] {
      IndexHasId(current, id);
    } else {
      var init, last := relays[..|relays| - 1], relays[|relays| - 1];
      var merged := AbsorbAll(loc, current, init);
      AbsorbAllHasId(loc, current, init, id);
      EchoesLocal(loc, current, last);
      SetNoteHasId(merged, Merged(ById(merged, last.id), last), id);
      BringsOneMore(loc, current, init, last, id);
      assert relays == init + [last];
    }
  }

  lemma BringsOneMore(loc: Locale, current: seq<Note>, init: seq<Note>, last: Note, id: string)
    ensures Brings(loc, current, init + [last], id)
       <==> Brings(loc, current, init, id) || (last.id == id && !Echoes(loc, current, last))
  {
    hide Echoes;
    assert forall r :: r in init + [last] <==> r in init || r == last;
  }

  /** A relay note is left out of the merged state exactly when its id is new to the state and every note
      the batch has for this id echoes a local note: one of the same author, place, trimmed text, reply
      target and root, at most five seconds apart. */
  lemma LeftOutIffEcho(loc: Locale, current: seq<Note>, relays: seq<Note>, relay: Note)
    requires relay in relays
    ensures !HasId(MergeRelayNotes(loc, current, relays), relay.id)
       <==> !HasId(current, relay.id) && forall r :: r in relays && r.id == relay.id ==> Echoes(loc, current, r)
  {
    hide Echoes;
    AbsorbAllHasId(loc, current, relays, relay.id);
    SortHasId(loc, AbsorbAll(loc, current, relays), relay.id);
  }

  lemma SortHasId(loc: Locale, notes: seq<Note>, id: string)
    ensures HasId(Sort(notes, NewestFirst(loc)), id) <==> HasId(notes, id)
  {
    var sorted := Sort(notes, NewestFirst(loc));
    HasIdIffMember(notes, id);
    HasIdIffMember(sorted, id);
    forall n ensures n in notes <==> n in sorted {
      assert n in multiset(notes) <==> n in multiset(sorted);
    }
  }

  // ----- What a refresh merges -----

  function CountIn(reactions: map<string, nat>, emoji: string): nat {
    if emoji in reactions then reactions[emoji] else 0
  }

  /** Replies and reactions are the larger ones of two notes, and the tagged keys those of both. */
  ghost predicate Pools(a: Note, b: Note, merged: Note) {
    && merged.replies == (if a.replies >= b.replies then a.replies else b.replies)
    && Tags(merged.tagged) == Tags(a.tagged) + Tags(b.tagged)
    && merged.reactions.Keys == a.reactions.Keys + b.reactions.Keys
    && forall emoji :: CountIn(merged.reactions, emoji) == Max(CountIn(a.reactions, emoji), CountIn(b.reactions, emoji))
  }

  /** The relay's note, with the counts and keys of both; references the relay lacks are kept. */
  ghost predicate TakesFromRelay(existing: Note, relay: Note, merged: Note) {
    && merged.id == relay.id && merged.geohash == relay.geohash && merged.author == relay.author
    && merged.content == relay.content && merged.createdAt == relay.createdAt
    && merged.replyTarget == (if relay.replyTarget.Some? then relay.replyTarget else existing.replyTarget)
    && merged.root == (if relay.root.Some? then relay.root else existing.root)
    && Pools(existing, relay, merged)
  }

  lemma TagsOfBoth(a: seq<string>, b: seq<string>)
    ensures Tags(Dedupe(a + b)) == Tags(a) + Tags(b)
  {
    TagsOfDedupe(a + b);
    TagsOfConcat(a, b);
  }

  /** What a refresh makes of a note both sides have: the fields of the relay, the counts and keys of both. */
  lemma RefreshMerges(loc: Locale, current: seq<Note>, relays: seq<Note>, existing: Note, relay: Note)
    requires DistinctIds(current) && DistinctIds(relays)
    requires existing in current && relay in relays && existing.id == relay.id
    ensures var merged := ById(MergeRelayNotes(loc, current, relays), relay.id);
      merged.Some? && TakesFromRelay(existing, relay, merged.value)
  {
    RefreshById(loc, current, relays, relay.id);
    ByIdFinds(current, existing);
    ByIdFinds(relays, relay);
    TagsOfBoth(existing.tagged, relay.tagged);
  }

  /** A note only the relay has is taken over as it is, its keys trimmed and without repetition. */
  lemma RefreshAdds(loc: Locale, current: seq<Note>, relays: seq<Note>, relay: Note)
    requires DistinctIds(current) && DistinctIds(relays)
    requires relay in relays && !HasId(current, relay.id) && !Echoes(loc, current, relay)
    ensures var added := ById(MergeRelayNotes(loc, current, relays), relay.id);
      added.Some? && added.value.(tagged := relay.tagged) == relay && Tags(added.value.tagged) == Tags(relay.tagged)
  {
    hide Echoes, HasEquivalentLocal;
    RefreshById(loc, current, relays, relay.id);
    ByIdFinds(relays, relay);
    HasIdIffById(current, relay.id);
    EchoesLocal(loc, current, relay);
    TagsOfDedupe(relay.tagged);
  }

  /** A note only the state has is not touched. */
  lemma RefreshKeeps(loc: Locale, current: seq<Note>, relays: seq<Note>, note: Note)
    requires DistinctIds(current) && DistinctIds(relays) && note in current && !HasId(relays, note.id)
    ensures ById(MergeRelayNotes(loc, current, relays), note.id) == Some(note)
  {
    RefreshById(loc, current, relays, note.id);
    ByIdFinds(current, note);
    HasIdIffById(relays, note.id);
  }

  /** The merged notes come newest first. */
  lemma RefreshIsNewestFirst(loc: Locale, current: seq<Note>, relays: seq<Note>, i: nat, j: nat)
    requires loc.Lawful() && i < j < |MergeRelayNotes(loc, current, relays)|
    ensures var notes := MergeRelayNotes(loc, current, relays);
      MayPrecede(loc, notes[i].createdAt, notes[j].createdAt)
  {
    hide MayPrecede, AbsorbAll;
    var notes := MergeRelayNotes(loc, current, relays);
    NewestFirstIsTotalPreorder(loc);
    SortSorted(AbsorbAll(loc, current, relays), NewestFirst(loc));
    assert NewestFirst(loc)(notes[i], notes[j]);
    DescendingIsNewestFirst(loc, notes[i].createdAt, notes[j].createdAt);
  }

  // ----- What a server reply consumes -----

  /** The i-th note is the first one with the optimistic id; or no note has it, and the i-th is the first
      one alike the server's. */
  ghost predicate Consumed(loc: Locale, current: seq<Note>, optimisticId: string, server: Note, i: nat) {
    && i < |current|
    && (if HasId(current, optimisticId) then
          current[i].id == optimisticId && forall j :: 0 <= j < i ==> current[j].id != optimisticId
        else Alike(loc, current[i], server) && forall j :: 0 <= j < i ==> !Alike(loc, current[j], server))
  }

  /** The server's note, with the counts and keys of both; the references of the existing note come first,
      and so does its id when it is an event id. */
  ghost predicate TakesFromServer(existing: Note, server: Note, merged: Note) {
    && merged.id == (if IsRelayBacked(existing.id) then existing.id else server.id)
    && merged.geohash == server.geohash && merged.author == server.author
    && merged.content == server.content && merged.createdAt == server.createdAt
    && merged.replyTarget == (if existing.replyTarget.Some? then existing.replyTarget else server.replyTarget)
    && merged.root == (if existing.root.Some? then existing.root else server.root)
    && Pools(existing, server, merged)
  }

  lemma {:induction false} FindIsFirst(notes: seq<Note>, p: Note -> bool, i: nat)
    requires i < |notes| && p(notes[i]) && forall j :: 0 <= j < i ==> !p(notes[j])
    ensures Find(notes, p) == Some(notes[i])
  {
    if i > 0 { FindIsFirst(notes[1..], p, i - 1); }
  }

  lemma ExistingIsConsumed(loc: Locale, current: seq<Note>, optimisticId: string, server: Note, i: nat)
    requires Consumed(loc, current, optimisticId, server, i)
    ensures Existing(loc, current, optimisticId, server) == Some(current[i])
  {
    hide Alike, Equivalent;
    var byId, alike := (n: Note) => n.id == optimisticId, (n: Note) => Equivalent(loc, n, server);
    FindFirst(current, byId);
    HasIdIffMember(current, optimisticId);
    if HasId(current, optimisticId) {
      FindIsFirst(current, byId, i);
    } else {
      forall j | 0 <= j <= i ensures alike(current[j]) == Alike(loc, current[j], server) {
        EquivalentIsAlike(loc, current[j], server);
      }
      FindIsFirst(current, alike, i);
    }
  }

  /** A server reply replaces the note it consumes, at the head of the list, and no other; when it consumes
      none it is added. */
  lemma ReplyConsumes(loc: Locale, current: seq<Note>, optimisticId: string, server: Note, i: nat)
    requires Consumed(loc, current, optimisticId, server, i)
    ensures var after := ReconcileServerNote(loc, current, optimisticId, server);
      && after != [] && TakesFromServer(current[i], server, after[0])
      && after[1..] == Filter((n: Note) => n.id != current[i].id, current)
  {
    hide Existing;
    ExistingIsConsumed(loc, current, optimisticId, server, i);
    TagsOfBoth(current[i].tagged, server.tagged);
  }

  lemma ReplyAdds(loc: Locale, current: seq<Note>, optimisticId: string, server: Note)
    requires !HasId(current, optimisticId) && forall n :: n in current ==> !Alike(loc, n, server)
    ensures ReconcileServerNote(loc, current, optimisticId, server) == [server] + current
  {
    hide Alike, Equivalent;
    FindFirst(current, (n: Note) => n.id == optimisticId);
    FindFirst(current, (n: Note) => Equivalent(loc, n, server));
    HasIdIffMember(current, optimisticId);
    forall n | n in current ensures !Equivalent(loc, n, server) {
      EquivalentIsAlike(loc, n, server);
    }
  }

  // ----- What a new note does -----

  /** A new note comes first; the note it answers gains one reply, and nothing else changes. */
  lemma NewNoteCountsOnce(current: seq<Note>, next: Note, i: nat)
    requires i < |current| && OrEmpty(next.replyTarget) != next.id
    ensures var after := AddOptimisticNote(current, next);
      && |after| == |current| + 1 && after[0] == next
      && after[i + 1].(replies := 0) == current[i].(replies := 0)
      && after[i + 1].replies == current[i].replies
           + (if next.replyTarget == Some(current[i].id) && current[i].id != "" then 1 else 0)
  {
  }

  // ----- The order of tagged keys -----

  /** Some key is a, up to spaces, and none up to there is b. */
  predicate AppearsFirst(keys: seq<string>, a: string, b: string) {
    exists p :: 0 <= p < |keys| && Trim(keys[p]) == a && forall q :: 0 <= q <= p ==> Trim(keys[q]) != b
  }

  /** Deduplicated keys stand in the order they first appear in: an earlier one appears before any later one. */
  lemma {:induction false} DedupeInOrder(pubkeys: seq<string>, i: nat, j: nat)
    requires i < j < |Dedupe(pubkeys)|
    ensures AppearsFirst(pubkeys, Dedupe(pubkeys)[i], Dedupe(pubkeys)[j])
  {
    hide Trim;
    var init, last := pubkeys[..|pubkeys| - 1], Trim(pubkeys[|pubkeys| - 1]);
    if j < |Dedupe(init)| {
      DedupeInOrder(init, i, j);
      var a, b := Dedupe(init)[i], Dedupe(init)[j];
      var p :| 0 <= p < |init| && Trim(init[p]) == a && forall q :: 0 <= q <= p ==> Trim(init[q]) != b;
      assert Trim(pubkeys[p]) == Dedupe(pubkeys)[i];
    } else {
      DedupeKeepsTags(init);
      assert Dedupe(init)[i] in Tags(init);
      var p :| 0 <= p < |init| && Trim(init[p]) == Dedupe(init)[i];
      assert Trim(pubkeys[p]) == Dedupe(pubkeys)[i];
      forall q | 0 <= q <= p ensures Trim(pubkeys[q]) != last {
        assert pubkeys[q] == init[q];
        assert Trim(init[q]) == "" || Trim(init[q]) in Tags(init);
      }
    }
  }
}
