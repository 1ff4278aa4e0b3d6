/**
 What reply tags and relay events mean, tag by tag: the tags a reply carries, how markers and positions
 are read (NIP-10), which note or reaction an event stands for, and what a query returns.
 */
module ReplyTagMeaning {
  import opened NoteConvergence
  import opened NoteReconciliation
  import opened Notes
  import opened ReplyTagLaws
  import opened ReplyTags
  import opened Sequences
  import opened Sorting
  import opened Text
  import opened Timestamps

  // ----- The tags of a reply -----

  /** A reference tag: "e", the id, the relay and the marker, and the author's hex key when there is one. */
  predicate IsReference(tag: Tag, id: string, relayUrl: string, marker: string, hex: Option<string>) {
    tag == if hex.Some? && hex.value != "" then ["e", id, relayUrl, marker, hex.value] else ["e", id, relayUrl, marker]
  }

  /** A reply carries its geohash; a "root" and a "reply" reference, or one "root" reference to a note that is
      itself the root; and the keys of everybody involved. A note that answers none carries its geohash only. */
  lemma ReplyTagsShape(codec: KeyCodec, geohash: string, relayUrl: string, t: Note)
    ensures GeoNoteTags(codec, geohash, relayUrl, None) == [["g", geohash]]
    ensures var tags, id, hex := GeoNoteTags(codec, geohash, relayUrl, Some(t)), Trim(t.id), codec.toHex(t.author);
      var root := if t.root.Some? && Trim(t.root.value) != "" then Trim(t.root.value) else id;
      var keys := KeyTags(codec, Distinct([t.author] + t.tagged));
      if root != "" && root != id then
        |tags| == 3 + |keys| && tags[0] == ["g", geohash] && tags[3..] == keys
        && IsReference(tags[1], root, relayUrl, "root", hex) && IsReference(tags[2], id, relayUrl, "reply", hex)
      else
        |tags| == 2 + |keys| && tags[0] == ["g", geohash] && tags[2..] == keys
        && IsReference(tags[1], id, relayUrl, "root", hex)
  {
    assert Trim("") == "";
    hide KeyTags, Distinct, Trim, ReplyReferenceTag, IsReference;
    var tags := GeoNoteTags(codec, geohash, relayUrl, Some(t));
    var id, hex, root := Trim(t.id), codec.toHex(t.author), RootIdOf(t);
    var keys := KeyTags(codec, Distinct([t.author] + t.tagged));
    ReferenceShape(root, relayUrl, "root", hex);
    ReferenceShape(id, relayUrl, "reply", hex);
    ReferenceShape(id, relayUrl, "root", hex);
    assert tags == [["g", geohash]] + ReferenceTags(codec, relayUrl, t) + keys;
    if root != "" && root != id {
      assert tags[3..] == keys;
    } else {
      assert tags[2..] == keys;
    }
  }

  lemma ReferenceShape(id: string, relayUrl: string, marker: string, hex: Option<string>)
    ensures IsReference(ReplyReferenceTag(id, relayUrl, marker, hex), id, relayUrl, marker, hex)
  {
    var tag := ReplyReferenceTag(id, relayUrl, marker, hex);
    if hex.Some? && hex.value != "" {
      assert tag == ["e", id, relayUrl, marker, hex.value];
    } else {
      assert tag == ["e", id, relayUrl, marker];
    }
  }

  lemma {:induction false} DistinctMembers(keys: seq<string>, key: string)
    ensures key in Distinct(keys) <==> key in keys
  {
    if keys != [] {
      DistinctMembers(keys[..|keys| - 1], key);
      assert key in keys <==> key in keys[..|keys| - 1] || key == keys[|keys| - 1];
    }
  }

  lemma {:induction false} KeyTagMembers(codec: KeyCodec, keys: seq<string>, tag: Tag)
    ensures tag in KeyTags(codec, keys) <==>
      exists k :: k in keys && codec.toHex(k).Some? && codec.toHex(k).value != "" && tag == ["p", codec.toHex(k).value]
  {
    if keys != [] {
      KeyTagMembers(codec, keys[..|keys| - 1], tag);
      assert forall k :: k in keys <==> k in keys[..|keys| - 1] || k == keys[|keys| - 1];
    }
  }

  /** Distinct keys stand in the order they first appear in. */
  lemma {:induction false} DistinctInOrder(keys: seq<string>, i: nat, j: nat)
    requires i < j < |Distinct(keys)|
    ensures exists p :: 0 <= p < |keys| && keys[p] == Distinct(keys)[i] && Distinct(keys)[j] !in keys[..p + 1]
  {
    var init, last := keys[..|keys| - 1], keys[|keys| - 1];
    if j < |Distinct(init)| {
      DistinctInOrder(init, i, j);
      var p :| 0 <= p < |init| && init[p] == Distinct(init)[i] && Distinct(init)[j] !in init[..p + 1];
      assert keys[..p + 1] == init[..p + 1] && keys[p] == Distinct(keys)[i];
    } else {
      DistinctMembers(init, Distinct(init)[i]);
      DistinctMembers(init, last);
      var p :| 0 <= p < |init| && init[p] == Distinct(init)[i];
      assert keys[p] == Distinct(keys)[i] && keys[..p + 1] == init[..p + 1];
    }
  }

  /** The keys of a reply are those of the author and of everybody the target tags that have a hex form. */
  lemma ReplyTagsKeys(codec: KeyCodec, t: Note, tag: Tag)
    ensures tag in KeyTags(codec, Distinct([t.author] + t.tagged)) <==>
      exists k :: (k == t.author || k in t.tagged)
        && codec.toHex(k).Some? && codec.toHex(k).value != "" && tag == ["p", codec.toHex(k).value]
  {
    var keys := [t.author] + t.tagged;
    KeyTagMembers(codec, Distinct(keys), tag);
    forall k ensures k in Distinct(keys) <==> k == t.author || k in t.tagged {
      DistinctMembers(keys, k);
    }
  }

  // ----- Reading references -----

  /** An "e" tag with a non-blank id and the given marker. */
  predicate MarkedEvent(tag: Tag, marker: string) {
    |tag| > 3 && tag[0] == "e" && Trim(tag[1]) != "" && tag[3] == marker
  }

  predicate NoneMarked(tags: seq<Tag>, marker: string) {
    forall k :: 0 <= k < |tags| ==> !MarkedEvent(tags[k], marker)
  }

  lemma {:induction false} MarkedSkips(tags: seq<Tag>, more: seq<Tag>, marker: string)
    requires NoneMarked(tags, marker)
    ensures Marked(EventTags(tags) + more, marker) == Marked(more, marker)
  {
    if tags == [] {
      assert [] + more == more;
    } else {
      MarkedSkips(tags[1..], more, marker);
      if IsEventTag(tags[0]) {
        assert !MarkedEvent(tags[0], marker);
        assert EventTags(tags) + more == [tags[0]] + (EventTags(tags[1..]) + more);
        assert ([tags[0]] + (EventTags(tags[1..]) + more))[1..] == EventTags(tags[1..]) + more;
      }
    }
  }

  lemma MarkedFinds(a: seq<Tag>, tag: Tag, b: seq<Tag>, marker: string)
    requires NoneMarked(a, marker) && MarkedEvent(tag, marker)
    ensures Marked(EventTags(a + [tag] + b), marker) == Some(tag)
  {
    EventTagsConcat(a + [tag], b);
    EventTagsConcat(a, [tag]);
    assert [tag][1..] == [];
    assert EventTags([tag]) == [tag];
    AppendAssociates(EventTags(a), [tag], EventTags(b));
    MarkedSkips(a, [tag] + EventTags(b), marker);
    assert ([tag] + EventTags(b))[0] == tag;
  }

  lemma AppendAssociates<T>(a: seq<T>, b: seq<T>, c: seq<T>)
    ensures a + b + c == a + (b + c)
  {
  }

  lemma NoneMarkedFinds(tags: seq<Tag>, marker: string)
    requires NoneMarked(tags, marker)
    ensures Marked(EventTags(tags), marker) == None
  {
    MarkedSkips(tags, [], marker);
    AppendNothing(EventTags(tags));
  }

  /** The first tag marked "root" gives the root, and the first one marked "reply" the target; either stands
      for both when the other is missing. */
  lemma MarkersDecide(a: seq<Tag>, tag: Tag, b: seq<Tag>, marker: string)
    requires marker in {"root", "reply"} && MarkedEvent(tag, marker) && NoneMarked(a, marker)
    ensures var refs, id := ExtractEventReferences(a + [tag] + b), Some(TrimLower(tag[1]));
      && (marker == "root" ==> refs.root == id)
      && (marker == "reply" ==> refs.reply == id)
      && (NoneMarked(a + [tag] + b, "root") || NoneMarked(a + [tag] + b, "reply") ==> refs == References(id, id))
  {
    hide EventTags, Marked, TrimLower;
    MarkedFinds(a, tag, b, marker);
    if NoneMarked(a + [tag] + b, "root") { NoneMarkedFinds(a + [tag] + b, "root"); }
    if NoneMarked(a + [tag] + b, "reply") { NoneMarkedFinds(a + [tag] + b, "reply"); }
  }

  lemma {:induction false} NoEvents(tags: seq<Tag>)
    requires forall k :: 0 <= k < |tags| ==> !IsEventTag(tags[k])
    ensures EventTags(tags) == []
  {
    if tags != [] { NoEvents(tags[1..]); }
  }

  /** Without markers, position decides: the first "e" tag gives the root and the last one the target; without
      "e" tags there is neither. */
  lemma PositionsDecide(a: seq<Tag>, first: Tag, middle: seq<Tag>, last: Tag, b: seq<Tag>)
    requires forall k :: 0 <= k < |a| ==> !IsEventTag(a[k])
    requires forall k :: 0 <= k < |b| ==> !IsEventTag(b[k])
    requires IsEventTag(first) && IsEventTag(last)
    ensures ExtractEventReferences(a) == References(None, None)
    ensures NoneMarked([first], "root") && NoneMarked([first], "reply") ==>
      ExtractEventReferences(a + [first] + b) == References(Some(TrimLower(first[1])), Some(TrimLower(first[1])))
    ensures var tags := a + [first] + middle + [last] + b;
      NoneMarked(tags, "root") && NoneMarked(tags, "reply") ==>
        ExtractEventReferences(tags) == References(Some(TrimLower(first[1])), Some(TrimLower(last[1])))
  {
    hide TrimLower;
    NoEvents(a);
    NoEvents(b);
    OneEvent(first);
    OneEvent(last);
    OnlyEvent(a, first, b);
    FirstAndLastEvent(a, first, middle, last, b);
  }

  lemma OneEvent(tag: Tag)
    requires IsEventTag(tag)
    ensures EventTags([tag]) == [tag]
  {
    assert [tag][1..] == [];
  }

  lemma OnlyEvent(a: seq<Tag>, first: Tag, b: seq<Tag>)
    requires EventTags(a) == [] && EventTags(b) == [] && IsEventTag(first)
    requires forall k :: 0 <= k < |a| ==> !IsEventTag(a[k])
    requires forall k :: 0 <= k < |b| ==> !IsEventTag(b[k])
    ensures NoneMarked([first], "root") && NoneMarked([first], "reply") ==>
      ExtractEventReferences(a + [first] + b) == References(Some(TrimLower(first[1])), Some(TrimLower(first[1])))
  {
    hide TrimLower, EventTags;
    var tags := a + [first] + b;
    OneEvent(first);
    EventTagsConcat(a + [first], b);
    EventTagsConcat(a, [first]);
    assert EventTags(tags) == [first];
    if NoneMarked([first], "root") && NoneMarked([first], "reply") {
      assert !MarkedEvent([first][0], "root") && !MarkedEvent([first][0], "reply");
      assert [first][1..] == [];
    }
  }

  lemma FirstAndLastEvent(a: seq<Tag>, first: Tag, middle: seq<Tag>, last: Tag, b: seq<Tag>)
    requires EventTags(a) == [] && EventTags(b) == [] && IsEventTag(first) && IsEventTag(last)
    ensures var tags := a + [first] + middle + [last] + b;
      NoneMarked(tags, "root") && NoneMarked(tags, "reply") ==>
        ExtractEventReferences(tags) == References(Some(TrimLower(first[1])), Some(TrimLower(last[1])))
  {
    hide TrimLower, EventTags, Marked;
    var tags := a + [first] + middle + [last] + b;
    OneEvent(first);
    OneEvent(last);
    EventTagsConcat(a + [first] + middle + [last], b);
    EventTagsConcat(a + [first] + middle, [last]);
    EventTagsConcat(a + [first], middle);
    EventTagsConcat(a, [first]);
    assert EventTags(tags) == [first] + EventTags(middle) + [last];
    if NoneMarked(tags, "root") && NoneMarked(tags, "reply") {
      NoneMarkedFinds(tags, "root");
      NoneMarkedFinds(tags, "reply");
    }
  }

  // ----- Tag values -----

  /** A tag of the given name with a non-blank value. */
  predicate Carries(tag: Tag, name: string) {
    |tag| >= 2 && tag[0] == name && Trim(tag[1]) != ""
  }

  predicate NoneCarries(tags: seq<Tag>, name: string) {
    forall k :: 0 <= k < |tags| ==> !Carries(tags[k], name)
  }

  /** The value of a name is that of its first tag that has one, trimmed and in lower case. */
  lemma {:induction false} TagValueIsFirst(a: seq<Tag>, tag: Tag, b: seq<Tag>, name: string)
    requires NoneCarries(a, name) && Carries(tag, name)
    ensures TagValue(a + [tag] + b, name) == Some(TrimLower(tag[1]))
  {
    var tags := a + [tag] + b;
    if a == [] {
      assert tags[0] == tag;
    } else {
      TagValueIsFirst(a[1..], tag, b, name);
      assert tags[0] == a[0] && tags[1..] == a[1..] + [tag] + b;
      assert !Carries(a[0], name);
    }
  }

  lemma {:induction false} NoTagValue(tags: seq<Tag>, name: string)
    requires NoneCarries(tags, name)
    ensures TagValue(tags, name) == None && LastTagValue(tags, name) == None
  {
    if tags != [] {
      NoTagValue(tags[1..], name);
      NoTagValue(tags[..|tags| - 1], name);
      assert !Carries(tags[0], name) && !Carries(tags[|tags| - 1], name);
    }
  }

  lemma {:induction false} LastTagValueIsLast(a: seq<Tag>, tag: Tag, b: seq<Tag>, name: string)
    requires NoneCarries(b, name) && Carries(tag, name)
    ensures LastTagValue(a + [tag] + b, name) == Some(TrimLower(tag[1]))
  {
    var tags := a + [tag] + b;
    if b == [] {
      assert tags[|tags| - 1] == tag;
    } else {
      var init := b[..|b| - 1];
      LastTagValueIsLast(a, tag, init, name);
      assert tags[|tags| - 1] == b[|b| - 1] && tags[..|tags| - 1] == a + [tag] + init;
      assert !Carries(b[|b| - 1], name);
    }
  }

  // ----- Events -----

  /** A "p" tag of a key with the given npub form. */
  predicate NamesKey(codec: KeyCodec, tag: Tag, npub: string) {
    Carries(tag, "p") && codec.toNpub(TrimLower(tag[1])) == npub
  }

  lemma {:induction false} NpubMembers(codec: KeyCodec, tags: seq<Tag>, npub: string)
    ensures npub in Npubs(codec, TagValues(tags, "p")) <==>
      npub != "" && exists k :: 0 <= k < |tags| && NamesKey(codec, tags[k], npub)
  {
    if tags != [] {
      var init, last := tags[..|tags| - 1], tags[|tags| - 1];
      NpubMembers(codec, init, npub);
      assert forall k :: 0 <= k < |init| ==> init[k] == tags[k];
      if Carries(last, "p") {
        var values := TagValues(init, "p");
        assert (values + [TrimLower(last[1])])[..|values|] == values;
      }
    }
  }

  /** The note an event stands for: its own id and time, its author as npub, its text trimmed, no counts, the
      references its tags give, and the npubs its "p" tags name, each once. Its place is that of its first "g"
      tag, or the given one; without either there is no note. */
  lemma EventBecomesNote(codec: KeyCodec, e: RelayEvent, place: string, npub: string)
    ensures var note, tagged := NormalizeRelayNote(codec, e, place), TagValue(e.tags, "g");
      var refs := ExtractEventReferences(e.tags);
      var at := if tagged.Some? then tagged.value else place;
      && (note.None? <==> at == "")
      && (note.Some? ==>
           && note.value.id == e.id && note.value.geohash == at && note.value.author == codec.toNpub(e.pubkey)
           && note.value.content == Trim(e.content) && note.value.createdAt == e.createdAt
           && note.value.replies == 0 && note.value.reactions == map[]
           && note.value.root == refs.root && note.value.replyTarget == refs.reply
           && (npub in note.value.tagged <==>
                 npub != "" && exists k :: 0 <= k < |e.tags| && NamesKey(codec, e.tags[k], npub)))
  {
    hide TrimLower, Trim, ExtractEventReferences, TagValue;
    NpubMembers(codec, e.tags, npub);
    DistinctMembers(Npubs(codec, TagValues(e.tags, "p")), npub);
  }

  /** The reaction an event stands for: to its last "e" tag, with its trimmed text, or "+" when that is blank. */
  lemma EventBecomesReaction(e: RelayEvent, place: string, a: seq<Tag>, tag: Tag, b: seq<Tag>)
    requires e.tags == a + [tag] + b && Carries(tag, "e") && NoneCarries(b, "e")
    ensures NormalizeRelayReaction(e, place) ==
      if place == "" && TagValue(e.tags, "g").None? then None
      else Some(Reaction(TrimLower(tag[1]), if Trim(e.content) == "" then "+" else Trim(e.content)))
  {
    hide LastTagValue;
    LastTagValueIsLast(a, tag, b, "e");
    TagValueNotBlank(e.tags, "g");
  }

  lemma {:induction false} TagValueNotBlank(tags: seq<Tag>, name: string)
    ensures TagValue(tags, name).Some? ==> TagValue(tags, name).value != ""
  {
    if tags != [] { TagValueNotBlank(tags[1..], name); }
  }

  lemma NoReactionTarget(e: RelayEvent, place: string)
    requires NoneCarries(e.tags, "e")
    ensures NormalizeRelayReaction(e, place) == None
  {
    NoTagValue(e.tags, "e");
  }

  // ----- What a query returns -----

  /** The note of the last message with this id. */
  function LastNote(codec: KeyCodec, messages: seq<Message>, place: string, id: string): Option<Note> {
    if messages == [] then None
    else
      var last := messages[|messages| - 1];
      if last.KindOne? && last.event.id == id && NormalizeRelayNote(codec, last.event, place).Some?
      then NormalizeRelayNote(codec, last.event, place)
      else LastNote(codec, messages[..|messages| - 1], place, id)
  }

  /** Of several events with one id the last one counts. */
  lemma {:induction false} LastEventWins(codec: KeyCodec, messages: seq<Message>, place: string, id: string)
    ensures ById(CollectAll(codec, messages, place).notes, id) == LastNote(codec, messages, place, id)
  {
    if messages != [] {
      var init, m := messages[..|messages| - 1], messages[|messages| - 1];
      LastEventWins(codec, init, place, id);
      CollectedIdsDistinct(codec, init, place);
      if m.KindOne? && NormalizeRelayNote(codec, m.event, place).Some? {
        SetNoteById(CollectAll(codec, init, place).notes, NormalizeRelayNote(codec, m.event, place).value, id);
      }
    }
  }

  /** Every collected note is returned once, with its own count of replies and its own reactions. */
  lemma QueryReturns(codec: KeyCodec, loc: Locale, messages: seq<Message>, place: string, note: Note)
    requires note in CollectAll(codec, messages, place).notes
    ensures var c := CollectAll(codec, messages, place);
      ById(Finalize(loc, c), note.id)
      == Some(note.(replies := RepliesTo(c.notes, note.id),
                    reactions := if note.id in c.reactions then c.reactions[note.id] else map[]))
  {
    hide CollectAll, RepliesTo;
    var c := CollectAll(codec, messages, place);
    var counted := WithCounts(c.notes, c.reactions);
    CollectedIdsDistinct(codec, messages, place);
    var i :| 0 <= i < |c.notes| && c.notes[i] == note;
    var sorted := Sort(counted, NewestText(loc));
    assert DistinctIds(counted);
    PermutationDistinct(counted, sorted);
    assert counted[i] in multiset(sorted);
    ByIdFinds(sorted, counted[i]);
  }

  /** A query returns its notes with the latest creation text first. */
  lemma QueryIsNewestFirst(loc: Locale, c: Collection, i: nat, j: nat)
    requires loc.Lawful() && i < j < |Finalize(loc, c)|
    ensures loc.collate(Finalize(loc, c)[j].createdAt, Finalize(loc, c)[i].createdAt) <= 0
  {
    hide WithCounts;
    var leq := NewestText(loc);
    assert TotalPreorder(leq) by {
      forall x: Note, y: Note ensures leq(x, y) || leq(y, x) {
        assert loc.collate(x.createdAt, y.createdAt) <= 0 || loc.collate(y.createdAt, x.createdAt) <= 0;
      }
      forall x: Note, y: Note, z: Note | leq(x, y) && leq(y, z) ensures leq(x, z) {
        assert loc.collate(z.createdAt, y.createdAt) <= 0 && loc.collate(y.createdAt, x.createdAt) <= 0;
      }
    }
    SortSorted(WithCounts(c.notes, c.reactions), leq);
    assert leq(Finalize(loc, c)[i], Finalize(loc, c)[j]);
  }
}
