/**
 Relay refreshes converge: repeating a batch changes nothing, the order of batches does not matter,
 and counts never go down.
 */
module NoteConvergence {
  import opened Text
  import opened Sorting
  import opened Timestamps
  import opened Notes
  import opened NoteReconciliation

  // ----- Reaction counts -----

  /** Every count of a is also counted, at least as high, in b. */
  ghost predicate CountsWithin(a: map<string, nat>, b: map<string, nat>) {
    forall emoji :: emoji in a ==> emoji in b && a[emoji] <= b[emoji]
  }

  /** Merging reactions is the least upper bound of the two ... */
  lemma MergeReactionsIsJoin(a: map<string, nat>, b: map<string, nat>, c: map<string, nat>)
    ensures CountsWithin(a, MergeReactions(a, b)) && CountsWithin(b, MergeReactions(a, b))
    ensures CountsWithin(a, c) && CountsWithin(b, c) ==> CountsWithin(MergeReactions(a, b), c)
  {
  }

  /** ... so it is commutative, idempotent, and absorbs what it already holds. */
  lemma MergeReactionsLaws(a: map<string, nat>, b: map<string, nat>)
    ensures MergeReactions(a, b) == MergeReactions(b, a)
    ensures MergeReactions(MergeReactions(a, b), b) == MergeReactions(a, b)
  {
  }

  lemma MergeReactionsAssociative(a: map<string, nat>, b: map<string, nat>, c: map<string, nat>)
    ensures MergeReactions(MergeReactions(a, b), c) == MergeReactions(a, MergeReactions(b, c))
  {
  }

  lemma MergeReactionsSwap(a: map<string, nat>, b: map<string, nat>, c: map<string, nat>)
    ensures MergeReactions(MergeReactions(a, b), c) == MergeReactions(MergeReactions(a, c), b)
  {
    MergeReactionsAssociative(a, b, c);
    MergeReactionsAssociative(a, c, b);
    MergeReactionsLaws(b, c);
  }

  // ----- Tagged keys -----

  ghost function Tags(pubkeys: seq<string>): set<string> {
    set k | 0 <= k < |pubkeys| && Trim(pubkeys[k]) != "" :: Trim(pubkeys[k])
  }

  lemma {:induction false} DedupeKeepsTags(pubkeys: seq<string>)
    ensures forall t :: t in Dedupe(pubkeys) <==> t in Tags(pubkeys)
    ensures forall t :: t in Dedupe(pubkeys) ==> t != "" && Trim(t) == t
  {
    if pubkeys != [] {
      var init, last := pubkeys[..|pubkeys| - 1], pubkeys[|pubkeys| - 1];
      DedupeKeepsTags(init);
      TrimIdempotent(last);
      assert Tags(pubkeys) == Tags(init) + (if Trim(last) == "" then {} else {Trim(last)}) by {
        forall t ensures t in Tags(pubkeys) <==> t in Tags(init) || (t == Trim(last) && t != "") {
          if t in Tags(pubkeys) {
            var k :| 0 <= k < |pubkeys| && Trim(pubkeys[k]) != "" && t == Trim(pubkeys[k]);
            if k < |init| { assert init[k] == pubkeys[k]; }
          }
          if t in Tags(init) {
            var k :| 0 <= k < |init| && Trim(init[k]) != "" && t == Trim(init[k]);
            assert pubkeys[k] == init[k];
          }
          assert pubkeys[|pubkeys| - 1] == last;
        }
      }
    }
  }

  /** Keys that are all present already add nothing. */
  lemma {:induction false} DedupeAbsorbs(kept: seq<string>, more: seq<string>)
    requires Dedupe(kept) == kept && forall k :: 0 <= k < |more| && Trim(more[k]) != "" ==> Trim(more[k]) in kept
    ensures Dedupe(kept + more) == kept
  {
    if more == [] {
      assert kept + more == kept;
    } else {
      DedupeAbsorbs(kept, more[..|more| - 1]);
      assert (kept + more)[..|kept + more| - 1] == kept + more[..|more| - 1];
    }
  }

  lemma {:induction false} DedupeIdempotent(pubkeys: seq<string>)
    ensures Dedupe(Dedupe(pubkeys)) == Dedupe(pubkeys)
  {
    if pubkeys != [] {
      var init, last := pubkeys[..|pubkeys| - 1], Trim(pubkeys[|pubkeys| - 1]);
      DedupeIdempotent(init);
      TrimIdempotent(pubkeys[|pubkeys| - 1]);
      if last != "" && last !in Dedupe(init) {
        assert (Dedupe(init) + [last])[..|Dedupe(init)|] == Dedupe(init);
      }
    }
  }

  lemma DedupeTwice(a: seq<string>, b: seq<string>)
    ensures Dedupe(Dedupe(a + b) + b) == Dedupe(a + b)
  {
    DedupeIdempotent(a + b);
    DedupeKeepsTags(a + b);
    forall k | 0 <= k < |b| && Trim(b[k]) != "" ensures Trim(b[k]) in Dedupe(a + b) {
      assert (a + b)[|a| + k] == b[k];
    }
    DedupeAbsorbs(Dedupe(a + b), b);
  }

  // ----- What one refresh does to one id -----

  /** What a refresh leaves under an id: the current note, merged with the batch's note unless that
      one only echoes a local note. */
  function Refreshed(loc: Locale, current: seq<Note>, relays: seq<Note>, id: string): Option<Note> {
    var existing, relay := ById(current, id), ById(relays, id);
    if relay.None? then existing
    else if existing.None? && HasEquivalentLocal(loc, current, relay.value) then None
    else Some(Merged(existing, relay.value))
  }

  lemma SetNoteById(notes: seq<Note>, note: Note, id: string)
    requires DistinctIds(notes)
    ensures DistinctIds(SetNote(notes, note))
    ensures ById(SetNote(notes, note), id) == if id == note.id then Some(note) else ById(notes, id)
  {
    SetNoteEffect(notes, note);
    SameMembersById(notes, SetNote(notes, note), id, note);
  }

  lemma SameMembersById(notes: seq<Note>, after: seq<Note>, id: string, note: Note)
    requires DistinctIds(notes) && DistinctIds(after)
    requires forall n :: n in after <==> n == note || (n in notes && n.id != note.id)
    ensures ById(after, id) == if id == note.id then Some(note) else ById(notes, id)
  {
    FindFirst(notes, (n: Note) => n.id == id);
    FindFirst(after, (n: Note) => n.id == id);
    if id == note.id {
      ByIdFinds(after, note);
    } else if ById(notes, id).Some? {
      ByIdFinds(after, ById(notes, id).value);
    }
  }

  lemma HasIdIffById(notes: seq<Note>, id: string)
    ensures HasId(notes, id) <==> ById(notes, id).Some?
    ensures ById(notes, id).Some? ==> ById(notes, id).value.id == id && ById(notes, id).value in notes
  {
    FindFirst(notes, (n: Note) => n.id == id);
    HasIdIffMember(notes, id);
  }

  lemma {:induction false} ByIdSnoc(relays: seq<Note>, id: string)
    requires relays != [] && DistinctIds(relays)
    ensures var init, last := relays[..|relays| - 1], relays[|relays| - 1];
      && ById(relays, id) == (if last.id == id then Some(last) else ById(init, id))
      && ById(init, last.id).None?
  {
    var init, last := relays[..|relays| - 1], relays[|relays| - 1];
    FindFirst(init, (n: Note) => n.id == last.id);
    forall n | n in init ensures n.id != last.id {
      var i :| 0 <= i < |init| && init[i] == n;
      assert relays[i] == n;
    }
    FindFirst(relays, (n: Note) => n.id == id);
    FindFirst(init, (n: Note) => n.id == id);
    if last.id == id {
      ByIdFinds(relays, last);
    } else if ById(init, id).Some? {
      ByIdFinds(relays, ById(init, id).value);
    } else {
      forall n | n in relays ensures n.id != id {
        assert n in init || n == last;
      }
    }
  }

  lemma {:induction false} AbsorbAllById(loc: Locale, current: seq<Note>, relays: seq<Note>, id: string)
    requires DistinctIds(current) && DistinctIds(relays)
    ensures DistinctIds(AbsorbAll(loc, current, relays))
    ensures ById(AbsorbAll(loc, current, relays), id) == Refreshed(loc, current, relays, id)
  {
    if relays == [] {
      IndexOfDistinct(current);
    } else {
      var init, last := relays[..|relays| - 1], relays[|relays| - 1];
      var merged := AbsorbAll(loc, current, init);
      AbsorbAllById(loc, current, init, id);
      AbsorbAllById(loc, current, init, last.id);
      ByIdSnoc(relays, id);
      HasIdIffById(merged, last.id);
      HasIdIffById(current, last.id);
      SetNoteById(merged, Merged(ById(merged, last.id), last), id);
    }
  }

  lemma SortById(loc: Locale, notes: seq<Note>, id: string)
    requires DistinctIds(notes)
    ensures DistinctIds(Sort(notes, NewestFirst(loc)))
    ensures ById(Sort(notes, NewestFirst(loc)), id) == ById(notes, id)
  {
    var sorted := Sort(notes, NewestFirst(loc));
    SortKeeps(loc, notes);
    HasIdIffById(notes, id);
    HasIdIffById(sorted, id);
    if ById(notes, id).Some? {
      ByIdFinds(sorted, ById(notes, id).value);
    }
  }

  /** A refresh, id by id. */
  lemma RefreshById(loc: Locale, current: seq<Note>, relays: seq<Note>, id: string)
    requires DistinctIds(current) && DistinctIds(relays)
    ensures DistinctIds(MergeRelayNotes(loc, current, relays))
    ensures ById(MergeRelayNotes(loc, current, relays), id) == Refreshed(loc, current, relays, id)
  {
    AbsorbAllById(loc, current, relays, id);
    SortById(loc, AbsorbAll(loc, current, relays), id);
  }

  // ----- Repeating a batch -----

  ghost predicate BatchOk(relays: seq<Note>) {
    DistinctIds(relays) && forall r :: r in relays ==> !IsLocal(r)
  }

  /** A refresh leaves the local notes alone, and so the test for echoes. */
  lemma LocalsUnchanged(loc: Locale, current: seq<Note>, relays: seq<Note>, relay: Note)
    requires DistinctIds(current) && BatchOk(relays)
    ensures HasEquivalentLocal(loc, MergeRelayNotes(loc, current, relays), relay)
         == HasEquivalentLocal(loc, current, relay)
  {
    var after := MergeRelayNotes(loc, current, relays);
    forall n: Note | IsLocal(n) ensures n in after <==> n in current {
      RefreshById(loc, current, relays, n.id);
      HasIdIffById(relays, n.id);
      HasIdIffById(after, n.id);
      HasIdIffById(current, n.id);
      if n in after { ByIdFinds(after, n); }
      if n in current { ByIdFinds(current, n); }
    }
    LocalMember(loc, after, relay);
    LocalMember(loc, current, relay);
  }

  lemma LocalMember(loc: Locale, notes: seq<Note>, relay: Note)
    ensures HasEquivalentLocal(loc, notes, relay) <==> exists n :: n in notes && IsLocal(n) && Equivalent(loc, n, relay)
  {
    if n :| n in notes && IsLocal(n) && Equivalent(loc, n, relay) {
      var i :| 0 <= i < |notes| && notes[i] == n;
    }
  }

  lemma MergedTwice(existing: Option<Note>, relay: Note)
    ensures Merged(Some(Merged(existing, relay)), relay) == Merged(existing, relay)
  {
    if existing.Some? {
      DedupeTwice(existing.value.tagged, relay.tagged);
      MergeReactionsLaws(existing.value.reactions, relay.reactions);
    } else {
      assert [] + relay.tagged == relay.tagged;
      DedupeTwice([], relay.tagged);
      MergeReactionsLaws(relay.reactions, relay.reactions);
      MergeSelf(relay.reactions);
    }
  }

  lemma MergeSelf(a: map<string, nat>)
    ensures MergeReactions(a, a) == a
  {
    assert MergeReactions(a, a).Keys == a.Keys;
  }

  lemma SetNoteSame(notes: seq<Note>, note: Note)
    requires DistinctIds(notes) && note in notes
    ensures SetNote(notes, note) == notes
  {
    HasIdIffMember(notes, note.id);
    var r := SetNote(notes, note);
    forall i | 0 <= i < |notes| ensures r[i] == notes[i] {
      if notes[i].id == note.id {
        ByIdFinds(notes, note);
        ByIdFinds(notes, notes[i]);
      }
    }
  }

  lemma {:induction false} AbsorbAllSame(loc: Locale, notes: seq<Note>, relays: seq<Note>)
    requires DistinctIds(notes)
    requires forall r :: r in relays ==>
      if HasId(notes, r.id) then ById(notes, r.id) == Some(Merged(ById(notes, r.id), r))
      else HasEquivalentLocal(loc, notes, r)
    ensures AbsorbAll(loc, notes, relays) == notes
  {
    if relays == [] {
      IndexOfDistinct(notes);
    } else {
      var last := relays[|relays| - 1];
      AbsorbAllSame(loc, notes, relays[..|relays| - 1]);
      if HasId(notes, last.id) {
        HasIdIffById(notes, last.id);
        SetNoteSame(notes, Merged(ById(notes, last.id), last));
      }
    }
  }

  /** Merging the same batch again changes nothing, not even the order. */
  lemma RefreshIdempotent(loc: Locale, current: seq<Note>, relays: seq<Note>)
    requires loc.Lawful() && DistinctIds(current) && BatchOk(relays)
    ensures MergeRelayNotes(loc, MergeRelayNotes(loc, current, relays), relays) == MergeRelayNotes(loc, current, relays)
  {
    var after := MergeRelayNotes(loc, current, relays);
    RefreshById(loc, current, relays, "");
    forall r | r in relays
      ensures if HasId(after, r.id) then ById(after, r.id) == Some(Merged(ById(after, r.id), r))
              else HasEquivalentLocal(loc, after, r)
    {
      RefreshById(loc, current, relays, r.id);
      ByIdFinds(relays, r);
      HasIdIffById(after, r.id);
      LocalsUnchanged(loc, current, relays, r);
      MergedTwice(ById(current, r.id), r);
    }
    AbsorbAllSame(loc, after, relays);
    NewestFirstIsTotalPreorder(loc);
    SortSorted(AbsorbAll(loc, current, relays), NewestFirst(loc));
    SortOfSorted(after, NewestFirst(loc));
  }

  lemma NewestFirstIsTotalPreorder(loc: Locale)
    requires loc.Lawful()
    ensures TotalPreorder(NewestFirst(loc))
  {
    DescendingIsTotalPreorder(loc);
    forall x: Note, y: Note, z: Note | NewestFirst(loc)(x, y) && NewestFirst(loc)(y, z) ensures NewestFirst(loc)(x, z) {
      TransitiveOrder(loc, x.createdAt, y.createdAt, z.createdAt);
    }
  }

  // ----- Swapping batches -----

  /** The same note, up to the order of its tagged keys. */
  ghost predicate SameNote(a: Option<Note>, b: Option<Note>) {
    if a.Some? && b.Some? then
      a.value.(tagged := []) == b.value.(tagged := []) && Tags(a.value.tagged) == Tags(b.value.tagged)
    else a.None? && b.None?
  }

  /** Events are immutable: what two batches say under one id differs only in counts and tags. */
  ghost predicate FixedByEvent(a: Note, b: Note) {
    a.(replies := 0, tagged := [], reactions := map[]) == b.(replies := 0, tagged := [], reactions := map[])
  }

  lemma TagsOfConcat(a: seq<string>, b: seq<string>)
    ensures Tags(a + b) == Tags(a) + Tags(b)
  {
    forall t ensures t in Tags(a + b) <==> t in Tags(a) || t in Tags(b) {
      if t in Tags(a + b) {
        var k :| 0 <= k < |a + b| && Trim((a + b)[k]) != "" && t == Trim((a + b)[k]);
        if k < |a| { assert a[k] == (a + b)[k]; } else { assert b[k - |a|] == (a + b)[k]; }
      }
      if t in Tags(a) {
        var k :| 0 <= k < |a| && Trim(a[k]) != "" && t == Trim(a[k]);
        assert (a + b)[k] == a[k];
      }
      if t in Tags(b) {
        var k :| 0 <= k < |b| && Trim(b[k]) != "" && t == Trim(b[k]);
        assert (a + b)[|a| + k] == b[k];
      }
    }
  }

  lemma TagsOfDedupe(a: seq<string>)
    ensures Tags(Dedupe(a)) == Tags(a)
  {
    DedupeKeepsTags(a);
    forall t ensures t in Tags(Dedupe(a)) <==> t in Tags(a) {
      if t in Tags(a) {
        var k :| 0 <= k < |Dedupe(a)| && Dedupe(a)[k] == t;
        assert Trim(Dedupe(a)[k]) == t && t != "";
      }
      if t in Tags(Dedupe(a)) {
        var k :| 0 <= k < |Dedupe(a)| && Trim(Dedupe(a)[k]) != "" && t == Trim(Dedupe(a)[k]);
        assert Dedupe(a)[k] in Dedupe(a);
      }
    }
  }

  lemma MergedTags(existing: Option<Note>, relay: Note)
    ensures Tags(Merged(existing, relay).tagged)
         == Tags(relay.tagged) + (if existing.Some? then Tags(existing.value.tagged) else {})
  {
    if existing.Some? {
      TagsOfDedupe(existing.value.tagged + relay.tagged);
      TagsOfConcat(existing.value.tagged, relay.tagged);
    } else {
      TagsOfDedupe(relay.tagged);
    }
  }

  lemma MergedSwap(existing: Option<Note>, a: Note, b: Note)
    requires FixedByEvent(a, b)
    ensures SameNote(Some(Merged(Some(Merged(existing, a)), b)), Some(Merged(Some(Merged(existing, b)), a)))
  {
    var ab, ba := Merged(Some(Merged(existing, a)), b), Merged(Some(Merged(existing, b)), a);
    assert a.(replies := 0, tagged := [], reactions := map[]).id == b.id;
    MergedTags(existing, a);
    MergedTags(existing, b);
    MergedTags(Some(Merged(existing, a)), b);
    MergedTags(Some(Merged(existing, b)), a);
    MergeReactionsLaws(a.reactions, b.reactions);
    if existing.Some? {
      MergeReactionsSwap(existing.value.reactions, a.reactions, b.reactions);
    }
    SameFields(a, b);
  }

  lemma SameFields(a: Note, b: Note)
    requires FixedByEvent(a, b)
    ensures a.id == b.id && a.geohash == b.geohash && a.author == b.author && a.content == b.content
    ensures a.createdAt == b.createdAt && a.replyTarget == b.replyTarget && a.root == b.root
  {
    var x, y := a.(replies := 0, tagged := [], reactions := map[]), b.(replies := 0, tagged := [], reactions := map[]);
    assert x == y;
    assert x.geohash == y.geohash && x.author == y.author && x.content == y.content;
    assert x.createdAt == y.createdAt && x.replyTarget == y.replyTarget && x.root == y.root;
  }

  /** Two refreshes in either order leave the same note under every id. */
  lemma RefreshesCommute(loc: Locale, current: seq<Note>, first: seq<Note>, second: seq<Note>, id: string)
    requires DistinctIds(current) && BatchOk(first) && BatchOk(second)
    requires forall a, b :: a in first && b in second && a.id == b.id ==> FixedByEvent(a, b)
    ensures SameNote(
      ById(MergeRelayNotes(loc, MergeRelayNotes(loc, current, first), second), id),
      ById(MergeRelayNotes(loc, MergeRelayNotes(loc, current, second), first), id))
  {
    hide MergeRelayNotes, Merged, ById, HasEquivalentLocal, Tags;
    var afterFirst, afterSecond := MergeRelayNotes(loc, current, first), MergeRelayNotes(loc, current, second);
    RefreshById(loc, current, first, id);
    RefreshById(loc, current, second, id);
    RefreshById(loc, afterFirst, second, id);
    RefreshById(loc, afterSecond, first, id);
    var a, b := ById(first, id), ById(second, id);
    HasIdIffById(first, id);
    HasIdIffById(second, id);
    if a.Some? { LocalsUnchanged(loc, current, second, a.value); }
    if b.Some? { LocalsUnchanged(loc, current, first, b.value); }
    if a.Some? && b.Some? {
      SameFields(a.value, b.value);
      SameEchoTest(loc, current, a.value, b.value);
      MergedSwap(ById(current, id), a.value, b.value);
    }
  }

  lemma SameEchoTest(loc: Locale, current: seq<Note>, a: Note, b: Note)
    requires FixedByEvent(a, b)
    ensures HasEquivalentLocal(loc, current, a) == HasEquivalentLocal(loc, current, b)
  {
    SameFields(a, b);
    assert forall n :: Equivalent(loc, n, a) == Equivalent(loc, n, b);
  }

  // ----- Counts -----

  /** Replies and reactions of a are within those of b. */
  ghost predicate CountsGrow(a: Note, b: Note) {
    a.replies <= b.replies && CountsWithin(a.reactions, b.reactions)
  }

  lemma CountsGrowTransitive(a: Note, b: Note, c: Note)
    requires CountsGrow(a, b) && CountsGrow(b, c)
    ensures CountsGrow(a, c)
  {
  }

  lemma {:induction false} AbsorbAllKeepsCounts(loc: Locale, current: seq<Note>, relays: seq<Note>, note: Note)
    requires DistinctIds(current) && note in current
    ensures DistinctIds(AbsorbAll(loc, current, relays))
    ensures var after := ById(AbsorbAll(loc, current, relays), note.id);
      after.Some? && CountsGrow(note, after.value)
  {
    if relays == [] {
      IndexOfDistinct(current);
      ByIdFinds(current, note);
    } else {
      var init, relay := relays[..|relays| - 1], relays[|relays| - 1];
      var merged := AbsorbAll(loc, current, init);
      AbsorbAllKeepsCounts(loc, current, init, note);
      var before, next := ById(merged, note.id), Merged(ById(merged, relay.id), relay);
      SetNoteById(merged, next, note.id);
      HasIdIffById(merged, note.id);
      if relay.id == note.id {
        MergeReactionsIsJoin(before.value.reactions, relay.reactions, map[]);
        CountsGrowTransitive(note, before.value, next);
      }
    }
  }

  /** A refresh never lowers a count, and keeps every note. */
  lemma RefreshKeepsCounts(loc: Locale, current: seq<Note>, relays: seq<Note>, note: Note)
    requires DistinctIds(current) && note in current
    ensures var after := ById(MergeRelayNotes(loc, current, relays), note.id);
      after.Some? && CountsGrow(note, after.value)
  {
    AbsorbAllKeepsCounts(loc, current, relays, note);
    SortById(loc, AbsorbAll(loc, current, relays), note.id);
  }

  /** A server reply never lowers a count of the note it is merged into. */
  lemma ReplyKeepsCounts(existing: Note, server: Note)
    ensures CountsGrow(existing, Reconciled(existing, server)) && CountsGrow(server, Reconciled(existing, server))
  {
    MergeReactionsIsJoin(existing.reactions, server.reactions, map[]);
  }

  /** Two notes that are copies of the post, or carry the same id. */
  predicate Continues(p: Post, before: Note, after: Note) {
    after.id == before.id || (p.IsCopyId(before.id) && p.IsCopyId(after.id))
  }

  ghost predicate SomeContinuation(p: Post, before: Note, notes: seq<Note>) {
    exists after :: after in notes && Continues(p, before, after) && CountsGrow(before, after)
  }

  /** No publish success, server reply or relay refresh of any run lowers a count, neither of the copy
      of the post nor of any other note. The published form carries no counts, but it only ever replaces
      a copy that has gathered none. */
  lemma CountsNeverDrop(loc: Locale, p: Post, states: seq<State>, events: seq<Event>, k: nat, note: Note)
    requires p.Valid(loc) && IsRun(loc, p, states, events) && k < |events| && !events[k].Others?
    requires note in states[k].notes
    ensures SomeContinuation(p, note, states[k + 1].notes)
  {
    var s, after := states[k], states[k + 1].notes;
    var own := RunHasOneCopy(loc, p, states, events, k);
    match events[k] {
      case Published =>
        var copy := PublishStep(loc, p, s.notes, own, s.isReplied);
        UnlessCopy(loc, p, s.notes, own, note, after, copy);
      case Replied =>
        var copy := ReplyStep(loc, p, s.notes, own, s.isPublished);
        ReplyKeepsCounts(own, p.server.value);
        UnlessCopy(loc, p, s.notes, own, note, after, copy);
      case Refreshed(relays) =>
        RefreshKeepsCounts(loc, s.notes, relays, note);
        HasIdIffById(after, note.id);
        assert ById(after, note.id).value in after;
    }
  }

  /** A note is the copy, which is continued, or another note, which stays. */
  lemma UnlessCopy(loc: Locale, p: Post, notes: seq<Note>, own: Note, note: Note, after: seq<Note>, copy: Note)
    requires OneCopy(loc, p, notes, own) && note in notes && OneCopy(loc, p, after, copy) && CountsGrow(own, copy)
    requires forall n: Note :: !p.IsCopyId(n.id) ==> (n in notes <==> n in after)
    ensures SomeContinuation(p, note, after)
  {
    if p.IsCopyId(note.id) {
      assert note == own && Continues(p, note, copy);
    } else {
      assert note in after && Continues(p, note, note);
    }
  }
}
