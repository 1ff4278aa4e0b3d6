/**
 Reply tags survive a trip through a relay, so every note of a thread keeps the thread's first note
 as its root, and reply counts account for every reply.
 */
module ReplyTagLaws {
  import opened Text
  import opened Sorting
  import opened Timestamps
  import opened Notes
  import opened NoteReconciliation
  import opened ReplyTags

  // ----- Round trip -----

  lemma {:induction false} EventTagsConcat(a: seq<Tag>, b: seq<Tag>)
    ensures EventTags(a + b) == EventTags(a) + EventTags(b)
  {
    hide IsEventTag;
    if a == [] {
      assert a + b == b;
    } else {
      EventTagsConcat(a[1..], b);
      assert (a + b)[1..] == a[1..] + b;
    }
  }

  lemma {:induction false} KeyTagsAreNoEvents(codec: KeyCodec, pubkeys: seq<string>)
    ensures EventTags(KeyTags(codec, pubkeys)) == []
  {
    if pubkeys != [] {
      var init, hex := pubkeys[..|pubkeys| - 1], codec.toHex(pubkeys[|pubkeys| - 1]);
      KeyTagsAreNoEvents(codec, init);
      if hex.Some? && hex.value != "" {
        EventTagsConcat(KeyTags(codec, init), [["p", hex.value]]);
        assert EventTags([["p", hex.value]][1..]) == [];
      }
    }
  }

  /** The event tags of a reply are its reference tags with a non-blank id. */
  lemma ReplyEventTags(codec: KeyCodec, geohash: string, relayUrl: string, t: Note)
    ensures EventTags(GeoNoteTags(codec, geohash, relayUrl, Some(t))) == EventTags(ReferenceTags(codec, relayUrl, t))
  {
    var references, keys := ReferenceTags(codec, relayUrl, t), KeyTags(codec, Distinct([t.author] + t.tagged));
    var g := [["g", geohash]];
    EventTagsConcat(g + references, keys);
    EventTagsConcat(g, references);
    KeyTagsAreNoEvents(codec, Distinct([t.author] + t.tagged));
    assert g[1..] == [];
    assert EventTags(g) == [];
  }

  /** What parsing finds in the reference tags alone. */
  lemma ReferencesOfTags(codec: KeyCodec, relayUrl: string, t: Note)
    ensures var tags := EventTags(ReferenceTags(codec, relayUrl, t));
      var hex, root, reply := codec.toHex(t.author), RootIdOf(t), Trim(t.id);
      && (reply != "" && root != reply ==>
           tags == [ReplyReferenceTag(root, relayUrl, "root", hex), ReplyReferenceTag(reply, relayUrl, "reply", hex)])
      && (reply != "" && root == reply ==> tags == [ReplyReferenceTag(reply, relayUrl, "root", hex)])
      && (reply == "" && root != "" ==> tags == [ReplyReferenceTag(root, relayUrl, "root", hex)])
      && (reply == "" && root == "" ==> tags == [])
  {
    var hex, root, reply := codec.toHex(t.author), RootIdOf(t), Trim(t.id);
    TrimIdempotent(t.id);
    TrimIdempotent(OrEmpty(t.root));
    var first := ReplyReferenceTag(root, relayUrl, "root", hex);
    var second := ReplyReferenceTag(reply, relayUrl, "reply", hex);
    var only := ReplyReferenceTag(reply, relayUrl, "root", hex);
    assert [first, second][1..] == [second] && [second][1..] == [] && [only][1..] == [];
    assert EventTags([second]) == if reply != "" then [second] else [];
  }

  lemma TwoMarked(root: Tag, reply: Tag)
    requires |root| > 3 && root[3] == "root" && |reply| > 3 && reply[3] == "reply"
    ensures Marked([root, reply], "root") == Some(root) && Marked([root, reply], "reply") == Some(reply)
  {
    assert [root, reply][1..] == [reply];
  }

  lemma OneMarked(root: Tag)
    requires |root| > 3 && root[3] == "root"
    ensures Marked([root], "root") == Some(root) && Marked([root], "reply") == None
  {
    assert [root][1..] == [];
  }

  /** Parsing the tags built for a reply gives back the target's id and its root, or the target
      itself when it is a root; a target without an id leaves its root for both, and nothing at all
      without a root either. Ids come back trimmed and in lower case. */
  lemma TagsRoundTrip(codec: KeyCodec, geohash: string, relayUrl: string, t: Note)
    ensures var refs := ExtractEventReferences(GeoNoteTags(codec, geohash, relayUrl, Some(t)));
      var root, reply := RootIdOf(t), Trim(t.id);
      refs == if reply != "" then References(Some(TrimLower(root)), Some(TrimLower(reply)))
              else if root != "" then References(Some(TrimLower(root)), Some(TrimLower(root)))
              else References(None, None)
  {
    hide GeoNoteTags, EventTags, ReferenceTags, RootIdOf, TrimLower;
    var hex, root, reply := codec.toHex(t.author), RootIdOf(t), Trim(t.id);
    ReplyEventTags(codec, geohash, relayUrl, t);
    ReferencesOfTags(codec, relayUrl, t);
    var rootTag := ReplyReferenceTag(root, relayUrl, "root", hex);
    var replyTag := ReplyReferenceTag(reply, relayUrl, "reply", hex);
    TwoMarked(rootTag, replyTag);
    OneMarked(rootTag);
  }

  // ----- Threads -----

  /** An id as relays send it. */
  predicate Canonical(id: string) {
    id != "" && TrimLower(id) == id && Trim(id) == id
  }

  /** A thread: a root note, and replies that each travelled through a relay, the k-th one to an
      earlier note `parents[k]`. */
  datatype Thread = Thread(notes: seq<Note>, parents: seq<nat>, events: seq<RelayEvent>) {
    ghost predicate Valid(codec: KeyCodec, relayUrl: string, defaultGeohash: string) {
      && |notes| == |parents| == |events| >= 1
      && notes[0].root.None? && Canonical(notes[0].id)
      && forall k :: 1 <= k < |notes| ==> IsReply(codec, relayUrl, defaultGeohash, k)
    }

    ghost predicate IsReply(codec: KeyCodec, relayUrl: string, defaultGeohash: string, k: nat)
      requires 1 <= k < |notes| == |parents| == |events|
    {
      && parents[k] < k && Canonical(events[k].id)
      && events[k].tags == GeoNoteTags(codec, notes[parents[k]].geohash, relayUrl, Some(notes[parents[k]]))
      && NormalizeRelayNote(codec, events[k], defaultGeohash) == Some(notes[k])
    }
  }

  /** In a thread of any shape and length, every reply points at the note it answers and has the
      first note as its root. */
  lemma {:induction false} RepliesKeepRoot(codec: KeyCodec, relayUrl: string, defaultGeohash: string,
                                           thread: Thread, k: nat)
    requires thread.Valid(codec, relayUrl, defaultGeohash) && 1 <= k < |thread.notes|
    ensures thread.parents[k] < k && Canonical(thread.notes[k].id)
    ensures thread.notes[k].root == Some(thread.notes[0].id)
    ensures thread.notes[k].replyTarget == Some(thread.notes[thread.parents[k]].id)
    decreases k
  {
    assert thread.IsReply(codec, relayUrl, defaultGeohash, k);
    var parent := thread.parents[k];
    if parent > 0 { RepliesKeepRoot(codec, relayUrl, defaultGeohash, thread, parent); }
    TagsRoundTrip(codec, thread.notes[parent].geohash, relayUrl, thread.notes[parent]);
  }

  // ----- Reply counts -----

  function TotalReplies(notes: seq<Note>): nat {
    if notes == [] then 0 else TotalReplies(notes[..|notes| - 1]) + notes[|notes| - 1].replies
  }

  function Ids(notes: seq<Note>): set<string> {
    set i | 0 <= i < |notes| :: notes[i].id
  }

  /** The notes that answer one of the given ids. */
  function Answering(notes: seq<Note>, ids: set<string>): nat {
    if notes == [] then 0
    else
      var target := OrEmpty(notes[|notes| - 1].replyTarget);
      Answering(notes[..|notes| - 1], ids) + (if target != "" && target in ids then 1 else 0)
  }

  lemma {:induction false} AnsweringOneMore(notes: seq<Note>, ids: set<string>, id: string)
    requires id !in ids
    ensures Answering(notes, ids + {id}) == Answering(notes, ids) + RepliesTo(notes, id)
  {
    if notes != [] { AnsweringOneMore(notes[..|notes| - 1], ids, id); }
  }

  lemma {:induction false} AnsweringNobody(notes: seq<Note>)
    ensures Answering(notes, {}) == 0
  {
    if notes != [] { AnsweringNobody(notes[..|notes| - 1]); }
  }

  lemma {:induction false} CountsOfPrefix(notes: seq<Note>, reactions: Reactions, k: nat)
    requires k <= |notes| && DistinctIds(notes)
    ensures TotalReplies(WithCounts(notes, reactions)[..k]) == Answering(notes, Ids(notes[..k]))
  {
    var counted := WithCounts(notes, reactions);
    if k == 0 {
      AnsweringNobody(notes);
      assert Ids(notes[..0]) == {};
    } else {
      CountsOfPrefix(notes, reactions, k - 1);
      assert counted[..k][..k - 1] == counted[..k - 1];
      assert Ids(notes[..k]) == Ids(notes[..k - 1]) + {notes[k - 1].id} by {
        assert notes[..k] == notes[..k - 1] + [notes[k - 1]];
      }
      AnsweringOneMore(notes, Ids(notes[..k - 1]), notes[k - 1].id);
    }
  }

  lemma {:induction false} TotalOfInsert(s: seq<Note>, x: Note, leq: (Note, Note) -> bool)
    ensures TotalReplies(Insert(s, x, leq)) == TotalReplies(s) + x.replies
  {
    if s == [] || leq(s[|s| - 1], x) {
      assert (s + [x])[..|s|] == s;
    } else {
      var inserted := Insert(s[..|s| - 1], x, leq);
      TotalOfInsert(s[..|s| - 1], x, leq);
      assert (inserted + [s[|s| - 1]])[..|inserted|] == inserted;
    }
  }

  lemma {:induction false} TotalOfSort(s: seq<Note>, leq: (Note, Note) -> bool)
    ensures TotalReplies(Sort(s, leq)) == TotalReplies(s)
  {
    if s != [] {
      TotalOfSort(s[..|s| - 1], leq);
      TotalOfInsert(Sort(s[..|s| - 1], leq), s[|s| - 1], leq);
    }
  }

  lemma {:induction false} CollectedIdsDistinct(codec: KeyCodec, messages: seq<Message>, defaultGeohash: string)
    ensures DistinctIds(CollectAll(codec, messages, defaultGeohash).notes)
  {
    if messages != [] {
      var c, m := CollectAll(codec, messages[..|messages| - 1], defaultGeohash), messages[|messages| - 1];
      CollectedIdsDistinct(codec, messages[..|messages| - 1], defaultGeohash);
      if m.KindOne? && NormalizeRelayNote(codec, m.event, defaultGeohash).Some? {
        SetNoteEffect(c.notes, NormalizeRelayNote(codec, m.event, defaultGeohash).value);
      }
    }
  }

  /** Reply counts are conserved: whatever messages a query receives, the reply counts of its result
      add up to the number of notes whose target is in the result. */
  lemma RepliesAreConserved(codec: KeyCodec, loc: Locale, messages: seq<Message>, defaultGeohash: string)
    ensures var c := CollectAll(codec, messages, defaultGeohash);
      TotalReplies(Finalize(loc, c)) == Answering(c.notes, Ids(c.notes))
  {
    var c := CollectAll(codec, messages, defaultGeohash);
    var counted := WithCounts(c.notes, c.reactions);
    CollectedIdsDistinct(codec, messages, defaultGeohash);
    CountsOfPrefix(c.notes, c.reactions, |c.notes|);
    assert counted[..|c.notes|] == counted && c.notes[..|c.notes|] == c.notes;
    TotalOfSort(counted, NewestText(loc));
  }

  /** The number of received reactions of one kind to one note. */
  function Received(messages: seq<Message>, defaultGeohash: string, r: Reaction): nat {
    if messages == [] then 0
    else
      var last := messages[|messages| - 1];
      Received(messages[..|messages| - 1], defaultGeohash, r)
        + (if last.KindSeven? && NormalizeRelayReaction(last.event, defaultGeohash) == Some(r) then 1 else 0)
  }

  /** Every reaction is counted once, under its own note and emoji. */
  lemma {:induction false} ReactionsAreCounted(codec: KeyCodec, messages: seq<Message>, defaultGeohash: string,
                                               r: Reaction)
    ensures CountOf(CollectAll(codec, messages, defaultGeohash).reactions, r) == Received(messages, defaultGeohash, r)
  {
    if messages != [] { ReactionsAreCounted(codec, messages[..|messages| - 1], defaultGeohash, r); }
  }
}
