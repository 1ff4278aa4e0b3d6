/**
 One post, several copies of it: the optimistic note, its published form, the server's reply and
 the relay's echo arrive in any order, interleaved with anything that happens to other notes. The
 reducers keep exactly one copy and drop no other note.
 */
module NoteReconciliation {
  import opened Text
  import opened Sorting
  import opened Timestamps
  import opened Notes

  /** A post as it appears on its three ways. It is written without counts, and only a note with an
      event id can be replied to. A reply has no server form: only root notes are sent to the server,
      whose notes carry no thread references. */
  datatype Post = Post(optimistic: Note, published: Note, server: Option<Note>) {
    ghost predicate Valid(loc: Locale) {
      && IsLocal(optimistic) && IsRelayBacked(published.id) && Equivalent(loc, optimistic, published)
      && optimistic.replies == 0 && optimistic.reactions == map[]
      && (optimistic.replyTarget.Some? ==> IsRelayBacked(optimistic.replyTarget.value))
      && (server.Some? ==>
           && IsLocal(server.value) && server.value.id != optimistic.id
           && server.value.replyTarget.None? && server.value.root.None?
           && Equivalent(loc, optimistic, server.value) && Equivalent(loc, published, server.value))
    }

    predicate IsCopyId(id: string) {
      id == optimistic.id || id == published.id || (server.Some? && id == server.value.id)
    }

    /** A note of somebody else, or of another post. */
    predicate Foreign(loc: Locale, note: Note) {
      !IsCopyId(note.id) && (server.Some? ==> !Equivalent(loc, note, server.value))
    }

    /** What the one copy looks like, given what has happened so far. */
    predicate CopyOk(note: Note, isPublished: bool, isReplied: bool) {
      || (note.id == optimistic.id && !isPublished && !isReplied
          && SameThread(note, optimistic) && note.createdAt == optimistic.createdAt
          && note.replies == 0 && note.reactions == map[])
      || (server.Some? && note.id == server.value.id && isReplied
          && SameThread(note, server.value) && note.createdAt == server.value.createdAt)
      || (note.id == published.id && isPublished
          && (!isReplied ==> SameThread(note, published) && note.createdAt == published.createdAt))
    }
  }

  predicate DistinctIds(notes: seq<Note>) {
    forall i, j :: 0 <= i < j < |notes| ==> notes[i].id != notes[j].id
  }

  /** `copy` is the only copy of the post among the notes. */
  ghost predicate OneCopy(loc: Locale, p: Post, notes: seq<Note>, copy: Note) {
    && DistinctIds(notes)
    && copy in notes && p.IsCopyId(copy.id)
    && forall n :: n in notes && n != copy ==> p.Foreign(loc, n)
  }

  // ----- Laws of the pieces -----

  lemma {:induction false} TrimEndHead(s: string)
    requires s != "" && !IsSpace(s[0])
    ensures TrimEnd(s) != "" && TrimEnd(s)[0] == s[0]
  {
    if IsSpace(s[|s| - 1]) { TrimEndHead(s[..|s| - 1]); }
  }

  /** Local ids and event ids never coincide. */
  lemma LocalIsNotRelayBacked(note: Note)
    requires IsLocal(note)
    ensures !IsRelayBacked(note.id)
  {
    assert note.id[0] == 'n';
    TrimEndHead(note.id);
  }

  lemma {:induction false} FindFirst(notes: seq<Note>, p: Note -> bool)
    ensures Find(notes, p).None? <==> forall n :: n in notes ==> !p(n)
    ensures Find(notes, p).Some? ==> Find(notes, p).value in notes && p(Find(notes, p).value)
  {
    if notes != [] && !p(notes[0]) {
      FindFirst(notes[1..], p);
      assert forall n :: n in notes <==> n == notes[0] || n in notes[1..];
    }
  }

  lemma {:induction false} FilterDistinct(p: Note -> bool, s: seq<Note>)
    requires DistinctIds(s)
    ensures DistinctIds(Filter(p, s))
  {
    if s != [] {
      var init := s[..|s| - 1];
      FilterDistinct(p, init);
      forall i | 0 <= i < |Filter(p, init)| ensures Filter(p, init)[i].id != s[|s| - 1].id {
        FilterMembers(p, init, Filter(p, init)[i]);
      }
    }
  }

  lemma {:induction false} DistinctOnce(s: seq<Note>, x: Note)
    requires DistinctIds(s)
    ensures multiset(s)[x] <= 1
  {
    if s != [] {
      var init, last := s[..|s| - 1], s[|s| - 1];
      DistinctOnce(init, x);
      assert s == init + [last];
      if x == last { assert x !in init; }
    }
  }

  /** Reordering keeps ids distinct. */
  lemma PermutationDistinct(s: seq<Note>, t: seq<Note>)
    requires DistinctIds(s) && multiset(s) == multiset(t)
    ensures DistinctIds(t)
  {
    forall a, b | 0 <= a < b < |t| ensures t[a].id != t[b].id {
      assert t[a] in multiset(t) && t[b] in multiset(t);
      assert t[a] in s && t[b] in s;
      assert t == t[..b] + [t[b]] + t[b + 1..];
      assert t[a] in t[..b];
      DistinctOnce(s, t[b]);
    }
  }

  lemma SortKeeps(loc: Locale, s: seq<Note>)
    requires DistinctIds(s)
    ensures DistinctIds(Sort(s, NewestFirst(loc)))
    ensures forall n :: n in Sort(s, NewestFirst(loc)) <==> n in s
  {
    var t := Sort(s, NewestFirst(loc));
    PermutationDistinct(s, t);
    forall n ensures n in t <==> n in s {
      assert n in multiset(t) <==> n in multiset(s);
    }
  }

  lemma SetNoteEffect(notes: seq<Note>, note: Note)
    requires DistinctIds(notes)
    ensures DistinctIds(SetNote(notes, note))
    ensures forall n :: n in SetNote(notes, note) <==> n == note || (n in notes && n.id != note.id)
  {
    var r := SetNote(notes, note);
    if HasId(notes, note.id) {
      var k :| 0 <= k < |notes| && notes[k].id == note.id;
      assert r[k] == note;
      forall n | n in notes && n.id != note.id ensures n in r {
        var i :| 0 <= i < |notes| && notes[i] == n;
        assert r[i] == n;
      }
    }
  }

  lemma {:induction false} IndexOfDistinct(notes: seq<Note>)
    requires DistinctIds(notes)
    ensures IndexById(notes) == notes
  {
    if notes != [] {
      IndexOfDistinct(notes[..|notes| - 1]);
    }
  }

  lemma HasIdIffMember(notes: seq<Note>, id: string)
    ensures HasId(notes, id) <==> exists n :: n in notes && n.id == id
  {
    if n :| n in notes && n.id == id {
      var i :| 0 <= i < |notes| && notes[i] == n;
    }
  }

  lemma ByIdFinds(notes: seq<Note>, note: Note)
    requires DistinctIds(notes) && note in notes
    ensures ById(notes, note.id) == Some(note)
  {
    FindFirst(notes, (n: Note) => n.id == note.id);
  }

  // ----- One reducer at a time -----

  /** Every foreign note keeps its place in the state, by id. */
  ghost predicate KeepsForeign(p: Post, before: seq<Note>, after: seq<Note>) {
    forall n :: n in before && !p.IsCopyId(n.id) ==> HasId(after, n.id)
  }

  /** The ids of the copies are pairwise different, and only the published one is an event id. */
  lemma IdsDiffer(loc: Locale, p: Post)
    requires p.Valid(loc)
    ensures p.optimistic.id != p.published.id && !IsRelayBacked(p.optimistic.id) && !IsLocal(p.published)
    ensures p.server.Some? ==> p.server.value.id != p.published.id && !IsRelayBacked(p.server.value.id)
  {
    LocalIsNotRelayBacked(p.optimistic);
    if IsLocal(p.published) { LocalIsNotRelayBacked(p.published); }
    if p.server.Some? { LocalIsNotRelayBacked(p.server.value); }
  }

  /** The publish success swaps the optimistic copy for the published one, or finds it gone. */
  lemma PublishStep(loc: Locale, p: Post, notes: seq<Note>, copy: Note, isReplied: bool) returns (copy': Note)
    requires p.Valid(loc) && OneCopy(loc, p, notes, copy) && p.CopyOk(copy, false, isReplied)
    ensures var after := ReplaceNoteById(notes, p.optimistic.id, p.published);
      && OneCopy(loc, p, after, copy') && p.CopyOk(copy', true, isReplied)
      && copy' == (if copy.id == p.optimistic.id then p.published else copy)
      && (forall n: Note :: !p.IsCopyId(n.id) ==> (n in notes <==> n in after))
  {
    hide IsLocal, IsRelayBacked, Equivalent;
    var after := ReplaceNoteById(notes, p.optimistic.id, p.published);
    copy' := if copy.id == p.optimistic.id then p.published else copy;
    IdsDiffer(loc, p);
    forall i | 0 <= i < |notes| ensures after[i] == if notes[i] == copy then copy' else notes[i] {
      assert notes[i] in notes;
    }
    forall i, j | 0 <= i < j < |after| ensures after[i].id != after[j].id {
      assert notes[i] in notes && notes[j] in notes;
    }
    var k :| 0 <= k < |notes| && notes[k] == copy;
    assert after[k] == copy';
    forall n | n in notes && n != copy ensures n in after {
      var i :| 0 <= i < |notes| && notes[i] == n;
      assert after[i] == n;
    }
    forall n | n in after && n != copy' ensures n in notes && n != copy {
      var i :| 0 <= i < |after| && after[i] == n;
      assert notes[i] == n;
    }
  }

  /** The server's reply always finds the copy: by the optimistic id, or by equivalence. */
  lemma ReplyFindsCopy(loc: Locale, p: Post, notes: seq<Note>, copy: Note, isPublished: bool)
    requires p.Valid(loc) && p.server.Some? && OneCopy(loc, p, notes, copy) && p.CopyOk(copy, isPublished, false)
    ensures Existing(loc, notes, p.optimistic.id, p.server.value) == Some(copy)
  {
    var srv := p.server.value;
    FindFirst(notes, (n: Note) => n.id == p.optimistic.id);
    FindFirst(notes, (n: Note) => Equivalent(loc, n, srv));
    assert Equivalent(loc, copy, srv);
    if copy.id != p.optimistic.id {
      assert forall n :: n in notes ==> n.id != p.optimistic.id;
    }
  }

  lemma ReplyStep(loc: Locale, p: Post, notes: seq<Note>, copy: Note, isPublished: bool) returns (copy': Note)
    requires p.Valid(loc) && p.server.Some? && OneCopy(loc, p, notes, copy) && p.CopyOk(copy, isPublished, false)
    ensures var after := ReconcileServerNote(loc, notes, p.optimistic.id, p.server.value);
      && OneCopy(loc, p, after, copy') && p.CopyOk(copy', isPublished, true)
      && copy' == Reconciled(copy, p.server.value)
      && (forall n: Note :: !p.IsCopyId(n.id) ==> (n in notes <==> n in after))
  {
    hide MergeReactions, Dedupe, IsLocal, Filter;
    var srv := p.server.value;
    ReplyFindsCopy(loc, p, notes, copy, isPublished);
    copy' := Reconciled(copy, srv);
    IdsDiffer(loc, p);
    var others := Filter((n: Note) => n.id != copy.id, notes);
    FilterDistinct((n: Note) => n.id != copy.id, notes);
    forall n ensures n in others <==> n in notes && n.id != copy.id {
      FilterMembers((n: Note) => n.id != copy.id, notes, n);
    }
    var after := [copy'] + others;
    assert forall n :: n in after <==> n == copy' || n in others;
    forall n | n in others ensures n in notes && n != copy && n.id != copy'.id {
    }
  }

  /** A relay note of a batch: an echo of the post, or a foreign event. */
  predicate RelayOk(loc: Locale, p: Post, relay: Note) {
    && !IsLocal(relay)
    && (if relay.id == p.published.id then SameThread(relay, p.published) && relay.createdAt == p.published.createdAt
        else p.Foreign(loc, relay))
  }

  /** While the copy is local, an echo is recognised and skipped. */
  lemma EchoIsRecognised(loc: Locale, p: Post, current: seq<Note>, copy: Note, relay: Note, isPublished: bool,
                         isReplied: bool)
    requires p.Valid(loc) && copy in current && p.CopyOk(copy, isPublished, isReplied) && copy.id != p.published.id
    requires RelayOk(loc, p, relay) && relay.id == p.published.id
    ensures HasEquivalentLocal(loc, current, relay)
  {
    assert IsLocal(copy) && Equivalent(loc, copy, relay);
    var i :| 0 <= i < |current| && current[i] == copy;
  }

  lemma MergedForeign(loc: Locale, p: Post, existing: Option<Note>, relay: Note)
    requires p.Valid(loc) && p.Foreign(loc, relay) && (existing.Some? ==> existing.value.id == relay.id)
    ensures p.Foreign(loc, Merged(existing, relay))
  {
  }

  /** One relay note of a refresh. `current` is the state the refresh started from, `own` its copy. */
  lemma AbsorbStep(loc: Locale, p: Post, current: seq<Note>, own: Note, merged: seq<Note>, copy: Note, relay: Note,
                   isPublished: bool, isReplied: bool) returns (copy': Note)
    requires p.Valid(loc) && RelayOk(loc, p, relay)
    requires own in current && p.CopyOk(own, isPublished, isReplied) && own.id == copy.id
    requires OneCopy(loc, p, merged, copy) && p.CopyOk(copy, isPublished, isReplied)
    ensures var after := Absorb(loc, current, merged, relay);
      && OneCopy(loc, p, after, copy') && p.CopyOk(copy', isPublished, isReplied) && copy'.id == copy.id
      && (forall id :: HasId(merged, id) ==> HasId(after, id))
  {
    copy' := copy;
    IdsDiffer(loc, p);
    HasIdIffMember(merged, relay.id);
    if relay.id == p.published.id && copy.id != p.published.id {
      EchoIsRecognised(loc, p, current, own, relay, isPublished, isReplied);
    } else if HasId(merged, relay.id) || !HasEquivalentLocal(loc, current, relay) {
      var existing := ById(merged, relay.id);
      var next := Merged(existing, relay);
      FindFirst(merged, (n: Note) => n.id == relay.id);
      SetNoteEffect(merged, next);
      AbsorbKeepsIds(merged, next);
      if relay.id == p.published.id {
        ByIdFinds(merged, copy);
        copy' := next;
      } else {
        MergedForeign(loc, p, existing, relay);
      }
    }
  }

  lemma AbsorbKeepsIds(merged: seq<Note>, next: Note)
    requires DistinctIds(merged)
    ensures forall id :: HasId(merged, id) ==> HasId(SetNote(merged, next), id)
  {
    var after := SetNote(merged, next);
    forall id | HasId(merged, id) ensures HasId(after, id) {
      var i :| 0 <= i < |merged| && merged[i].id == id;
      assert after[i].id == id;
    }
  }

  lemma {:induction false} AbsorbAllSteps(loc: Locale, p: Post, current: seq<Note>, own: Note, relays: seq<Note>,
                                          isPublished: bool, isReplied: bool) returns (copy': Note)
    requires p.Valid(loc) && forall r :: r in relays ==> RelayOk(loc, p, r)
    requires OneCopy(loc, p, current, own) && p.CopyOk(own, isPublished, isReplied)
    ensures var after := AbsorbAll(loc, current, relays);
      && OneCopy(loc, p, after, copy') && p.CopyOk(copy', isPublished, isReplied) && copy'.id == own.id
      && (forall id :: HasId(current, id) ==> HasId(after, id))
  {
    if relays == [] {
      IndexOfDistinct(current);
      copy' := own;
    } else {
      var init := relays[..|relays| - 1];
      var copy := AbsorbAllSteps(loc, p, current, own, init, isPublished, isReplied);
      copy' := AbsorbStep(loc, p, current, own, AbsorbAll(loc, current, init), copy, relays[|relays| - 1],
        isPublished, isReplied);
    }
  }

  lemma RefreshStep(loc: Locale, p: Post, notes: seq<Note>, copy: Note, relays: seq<Note>, isPublished: bool,
                    isReplied: bool)
    returns (copy': Note)
    requires p.Valid(loc) && forall r :: r in relays ==> RelayOk(loc, p, r)
    requires OneCopy(loc, p, notes, copy) && p.CopyOk(copy, isPublished, isReplied)
    ensures var after := MergeRelayNotes(loc, notes, relays);
      && OneCopy(loc, p, after, copy') && p.CopyOk(copy', isPublished, isReplied) && copy'.id == copy.id
      && KeepsForeign(p, notes, after)
  {
    copy' := AbsorbAllSteps(loc, p, notes, copy, relays, isPublished, isReplied);
    var unsorted, after := AbsorbAll(loc, notes, relays), MergeRelayNotes(loc, notes, relays);
    SortKeeps(loc, unsorted);
    forall n | n in notes && !p.IsCopyId(n.id) ensures HasId(after, n.id) {
      assert HasId(notes, n.id);
      var i :| 0 <= i < |unsorted| && unsorted[i].id == n.id;
      assert unsorted[i] in after;
    }
  }

  // ----- Whole runs -----

  /** What can happen to the state. `Others` is any change to foreign notes by other posts, replies
      and reactions; it may also change the reply count and reactions of the copy, once that has an
      event id: replies and reactions to a note without one are refused. */
  datatype Event = Published | Replied | Refreshed(relays: seq<Note>) | Others(notes: seq<Note>)

  datatype State = State(notes: seq<Note>, isPublished: bool, isReplied: bool)

  /** What replies and reactions may do to a note. */
  predicate Touched(before: Note, after: Note) {
    && after.id == before.id && SameThread(after, before) && after.createdAt == before.createdAt
    && (!IsRelayBacked(before.id) ==> after.replies == before.replies && after.reactions == before.reactions)
  }

  ghost predicate Enabled(loc: Locale, p: Post, s: State, e: Event) {
    match e
    case Published => !s.isPublished
    case Replied => p.server.Some? && !s.isReplied
    case Refreshed(relays) => forall r :: r in relays ==> RelayOk(loc, p, r)
    case Others(notes) =>
      exists before, after :: before in s.notes && p.IsCopyId(before.id) && OneCopy(loc, p, notes, after)
        && Touched(before, after)
  }

  function Next(loc: Locale, p: Post, s: State, e: Event): State
    requires e.Replied? ==> p.server.Some?
  {
    match e
    case Published => State(ReplaceNoteById(s.notes, p.optimistic.id, p.published), true, s.isReplied)
    case Replied => State(ReconcileServerNote(loc, s.notes, p.optimistic.id, p.server.value), s.isPublished, true)
    case Refreshed(relays) => s.(notes := MergeRelayNotes(loc, s.notes, relays))
    case Others(notes) => s.(notes := notes)
  }

  ghost predicate IsRun(loc: Locale, p: Post, states: seq<State>, events: seq<Event>) {
    && |states| == |events| + 1
    && (exists before: seq<Note> :: StartsFrom(loc, p, before, states[0]))
    && forall k :: 0 <= k < |events| ==>
         Enabled(loc, p, states[k], events[k]) && states[k + 1] == Next(loc, p, states[k], events[k])
  }

  /** The post is written into a state that holds only foreign notes. */
  ghost predicate StartsFrom(loc: Locale, p: Post, before: seq<Note>, s: State) {
    && DistinctIds(before) && (forall n :: n in before ==> p.Foreign(loc, n))
    && s == State(AddOptimisticNote(before, p.optimistic), false, false)
  }

  lemma StartHasOneCopy(loc: Locale, p: Post, before: seq<Note>, s: State) returns (copy: Note)
    requires p.Valid(loc) && StartsFrom(loc, p, before, s)
    ensures OneCopy(loc, p, s.notes, copy) && p.CopyOk(copy, false, false)
  {
    copy := s.notes[0];
    LocalIsNotRelayBacked(p.optimistic);
    forall i | 1 <= i < |s.notes|
      ensures s.notes[i].id == before[i - 1].id && p.Foreign(loc, s.notes[i])
    {
      assert before[i - 1] in before;
    }
  }

  /** One event keeps the one copy. */
  lemma StepKeepsOneCopy(loc: Locale, p: Post, s: State, e: Event, own: Note) returns (copy: Note)
    requires p.Valid(loc) && Enabled(loc, p, s, e)
    requires OneCopy(loc, p, s.notes, own) && p.CopyOk(own, s.isPublished, s.isReplied)
    ensures var after := Next(loc, p, s, e);
      && OneCopy(loc, p, after.notes, copy) && p.CopyOk(copy, after.isPublished, after.isReplied)
      && (s.isPublished && s.isReplied ==> copy.id == own.id)
  {
    hide ReplaceNoteById, ReconcileServerNote, MergeRelayNotes, IsRelayBacked, IsLocal, Equivalent;
    IdsDiffer(loc, p);
    match e {
      case Published => copy := PublishStep(loc, p, s.notes, own, s.isReplied);
      case Replied => copy := ReplyStep(loc, p, s.notes, own, s.isPublished);
      case Refreshed(relays) => copy := RefreshStep(loc, p, s.notes, own, relays, s.isPublished, s.isReplied);
      case Others(notes) =>
        var before, after :| before in s.notes && p.IsCopyId(before.id) && OneCopy(loc, p, notes, after)
          && Touched(before, after);
        assert before == own;
        copy := after;
    }
  }

  lemma {:induction false} RunHasOneCopy(loc: Locale, p: Post, states: seq<State>, events: seq<Event>, k: nat)
    returns (copy: Note)
    requires p.Valid(loc) && IsRun(loc, p, states, events) && k < |states|
    ensures OneCopy(loc, p, states[k].notes, copy) && p.CopyOk(copy, states[k].isPublished, states[k].isReplied)
  {
    if k == 0 {
      var before: seq<Note> :| StartsFrom(loc, p, before, states[0]);
      copy := StartHasOneCopy(loc, p, before, states[0]);
    } else {
      var own := RunHasOneCopy(loc, p, states, events, k - 1);
      copy := StepKeepsOneCopy(loc, p, states[k - 1], events[k - 1], own);
    }
  }

  /** Exactly one copy: in every state of every run, exactly one note carries one of the post's ids. */
  lemma ExactlyOneCopy(loc: Locale, p: Post, states: seq<State>, events: seq<Event>, k: nat)
    requires p.Valid(loc) && IsRun(loc, p, states, events) && k < |states|
    ensures var notes := states[k].notes;
      exists i :: 0 <= i < |notes| && p.IsCopyId(notes[i].id)
        && forall j :: 0 <= j < |notes| && p.IsCopyId(notes[j].id) ==> j == i
  {
    var copy := RunHasOneCopy(loc, p, states, events, k);
    var notes := states[k].notes;
    var i :| 0 <= i < |notes| && notes[i] == copy;
    forall j | 0 <= j < |notes| && p.IsCopyId(notes[j].id) ensures j == i {
      assert notes[j] in notes;
    }
  }

  /** No publish success, server reply or relay refresh drops a note of another post. */
  lemma NoOtherNoteDropped(loc: Locale, p: Post, states: seq<State>, events: seq<Event>, k: nat, note: Note)
    requires p.Valid(loc) && IsRun(loc, p, states, events) && k < |events| && !events[k].Others?
    requires note in states[k].notes && !p.IsCopyId(note.id)
    ensures HasId(states[k + 1].notes, note.id)
    ensures events[k].Refreshed? || note in states[k + 1].notes
  {
    var s, e := states[k], events[k];
    var own := RunHasOneCopy(loc, p, states, events, k);
    match e {
      case Published =>
        var copy := PublishStep(loc, p, s.notes, own, s.isReplied);
        HasIdOfMember(states[k + 1].notes, note);
      case Replied =>
        var copy := ReplyStep(loc, p, s.notes, own, s.isPublished);
        HasIdOfMember(states[k + 1].notes, note);
      case Refreshed(relays) =>
        var copy := RefreshStep(loc, p, s.notes, own, relays, s.isPublished, s.isReplied);
    }
  }

  lemma HasIdOfMember(notes: seq<Note>, note: Note)
    requires note in notes
    ensures HasId(notes, note.id)
  {
    var i :| 0 <= i < |notes| && notes[i] == note;
  }

  // ----- Which id the copy ends up with -----

  lemma {:induction false} FlagsLast(loc: Locale, p: Post, states: seq<State>, events: seq<Event>, i: nat, k: nat)
    requires IsRun(loc, p, states, events) && i <= k < |states|
    ensures states[i].isPublished ==> states[k].isPublished
    ensures states[i].isReplied ==> states[k].isReplied
  {
    if i < k { FlagsLast(loc, p, states, events, i, k - 1); }
  }

  /** Once published and replied, the copy keeps its id. */
  lemma {:induction false} IdSettles(loc: Locale, p: Post, states: seq<State>, events: seq<Event>, i: nat,
                                     own: Note, k: nat)
    returns (copy: Note)
    requires p.Valid(loc) && IsRun(loc, p, states, events) && i <= k < |states|
    requires states[i].isPublished && states[i].isReplied
    requires OneCopy(loc, p, states[i].notes, own) && p.CopyOk(own, true, true)
    ensures OneCopy(loc, p, states[k].notes, copy) && p.CopyOk(copy, true, true) && copy.id == own.id
    ensures states[k].isPublished && states[k].isReplied
  {
    if i == k {
      copy := own;
    } else {
      var before := IdSettles(loc, p, states, events, i, own, k - 1);
      copy := StepKeepsOneCopy(loc, p, states[k - 1], events[k - 1], before);
    }
  }

  /** The first state with both flags set. */
  lemma SettledId(loc: Locale, p: Post, states: seq<State>, events: seq<Event>, i: nat, j: nat) returns (copy: Note)
    requires p.Valid(loc) && IsRun(loc, p, states, events)
    requires i < |events| && j < |events| && events[i].Published? && events[j].Replied?
    ensures var both := (if i < j then j else i) + 1;
      && states[both].isPublished && states[both].isReplied
      && OneCopy(loc, p, states[both].notes, copy) && p.CopyOk(copy, true, true)
      && copy.id == if i < j then p.published.id else p.server.value.id
  {
    IdsDiffer(loc, p);
    if i < j {
      FlagsLast(loc, p, states, events, i + 1, j);
      var own := RunHasOneCopy(loc, p, states, events, j);
      copy := ReplyStep(loc, p, states[j].notes, own, true);
    } else {
      FlagsLast(loc, p, states, events, j + 1, i);
      var own := RunHasOneCopy(loc, p, states, events, i);
      copy := PublishStep(loc, p, states[i].notes, own, true);
    }
  }

  /** After the publish success and the server's reply, in whatever later state, the copy carries the
      event id if and only if the publish success came first. If the reply came first the copy keeps
      the server's local id for ever, and with it every reply and reaction to it is refused. */
  lemma EventIdIffPublishedFirst(loc: Locale, p: Post, states: seq<State>, events: seq<Event>, i: nat, j: nat,
                                 k: nat, note: Note)
    requires p.Valid(loc) && IsRun(loc, p, states, events)
    requires i < k < |states| && j < k && events[i].Published? && events[j].Replied?
    requires note in states[k].notes && p.IsCopyId(note.id)
    ensures note.id == if i < j then p.published.id else p.server.value.id
    ensures IsRelayBacked(note.id) <==> i < j
  {
    IdsDiffer(loc, p);
    var settled := SettledId(loc, p, states, events, i, j);
    var copy := IdSettles(loc, p, states, events, (if i < j then j else i) + 1, settled, k);
  }
}
