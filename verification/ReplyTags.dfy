/**
 Thread references in relay events: building the marked "e" tags of a reply (NIP-10), parsing them
 back, and counting the replies of the notes one relay query collected.
 */
module ReplyTags {
  import opened Text
  import opened Sorting
  import opened Timestamps
  import opened Notes

  type Tag = seq<string>

  /** Key conversions of the key library: to hex for tags, to `npub` for notes. */
  datatype KeyCodec = KeyCodec(toHex: string -> Option<string>, toNpub: string -> string)

  /** A kind-1 relay event. `createdAt` is the ISO text of its creation second. */
  datatype RelayEvent = RelayEvent(id: string, pubkey: string, content: string, createdAt: string, tags: seq<Tag>)

  // ----- Building -----

  function ReplyReferenceTag(id: string, relayUrl: string, marker: string, authorHex: Option<string>): Tag {
    ["e", id, relayUrl, marker] + (if authorHex.Some? && authorHex.value != "" then [authorHex.value] else [])
  }

  /** The distinct keys in order of first appearance. */
  function Distinct(keys: seq<string>): seq<string> {
    if keys == [] then []
    else
      var kept, last := Distinct(keys[..|keys| - 1]), keys[|keys| - 1];
      if last in kept then kept else kept + [last]
  }

  function KeyTags(codec: KeyCodec, pubkeys: seq<string>): seq<Tag> {
    if pubkeys == [] then []
    else
      var tags, hex := KeyTags(codec, pubkeys[..|pubkeys| - 1]), codec.toHex(pubkeys[|pubkeys| - 1]);
      if hex.Some? && hex.value != "" then tags + [["p", hex.value]] else tags
  }

  function RootIdOf(target: Note): string {
    if Trim(OrEmpty(target.root)) != "" then Trim(OrEmpty(target.root)) else Trim(target.id)
  }

  function ReferenceTags(codec: KeyCodec, relayUrl: string, target: Note): seq<Tag> {
    var hex, root, reply := codec.toHex(target.author), RootIdOf(target), Trim(target.id);
    if root != "" && root != reply then
      [ReplyReferenceTag(root, relayUrl, "root", hex), ReplyReferenceTag(reply, relayUrl, "reply", hex)]
    else [ReplyReferenceTag(reply, relayUrl, "root", hex)]
  }

  function GeoNoteTags(codec: KeyCodec, geohash: string, relayUrl: string, target: Option<Note>): seq<Tag> {
    match target
    case None => [["g", geohash]]
    case Some(t) =>
      [["g", geohash]] + ReferenceTags(codec, relayUrl, t) + KeyTags(codec, Distinct([t.author] + t.tagged))
  }

  method BuildGeoNoteTags(codec: KeyCodec, geohash: string, relayUrl: string, target: Option<Note>)
    returns (tags: seq<Tag>)
    ensures tags == GeoNoteTags(codec, geohash, relayUrl, target)
  {
    tags := [["g", geohash]];
    if target.None? {
      return;
    }
    var t := target.value;
    var referenced := Distinct([t.author] + t.tagged);
    var targetAuthorHex := codec.toHex(t.author);
    var rootId, replyId := RootIdOf(t), Trim(t.id);
    if rootId != "" && rootId != replyId {
      tags := tags + [ReplyReferenceTag(rootId, relayUrl, "root", targetAuthorHex)];
      tags := tags + [ReplyReferenceTag(replyId, relayUrl, "reply", targetAuthorHex)];
    } else {
      tags := tags + [ReplyReferenceTag(replyId, relayUrl, "root", targetAuthorHex)];
    }
    ghost var references := tags;
    assert references == [["g", geohash]] + ReferenceTags(codec, relayUrl, t);
    for i := 0 to |referenced|
      invariant tags == references + KeyTags(codec, referenced[..i])
    {
      assert referenced[..i + 1][..i] == referenced[..i];
      var hex := codec.toHex(referenced[i]);
      if hex.Some? && hex.value != "" {
        tags := tags + [["p", hex.value]];
      }
    }
    assert referenced[..|referenced|] == referenced;
  }

  // ----- Parsing -----

  datatype References = References(root: Option<string>, reply: Option<string>)

  predicate IsEventTag(tag: Tag) {
    |tag| >= 2 && tag[0] == "e" && Trim(tag[1]) != ""
  }

  function EventTags(tags: seq<Tag>): (r: seq<Tag>)
    ensures forall k :: 0 <= k < |r| ==> IsEventTag(r[k])
  {
    if tags == [] then []
    else
      var rest := EventTags(tags[1..]);
      if IsEventTag(tags[0]) then [tags[0]] + rest else rest
  }

  /** The first tag with the given marker. */
  function Marked(tags: seq<Tag>, marker: string): (r: Option<Tag>)
    ensures r.Some? ==> r.value in tags
  {
    if tags == [] then None
    else if |tags[0]| > 3 && tags[0][3] == marker then Some(tags[0])
    else Marked(tags[1..], marker)
  }

  function ExtractEventReferences(tags: seq<Tag>): References {
    var eventTags := EventTags(tags);
    var root, reply := Marked(eventTags, "root"), Marked(eventTags, "reply");
    if reply.Some? then
      References(Some(TrimLower(if root.Some? then root.value[1] else reply.value[1])), Some(TrimLower(reply.value[1])))
    else if root.Some? then References(Some(TrimLower(root.value[1])), Some(TrimLower(root.value[1])))
    else if |eventTags| == 0 then References(None, None)
    else References(Some(TrimLower(eventTags[0][1])), Some(TrimLower(eventTags[|eventTags| - 1][1])))
  }

  /** The first non-blank value of a tag with the given name. */
  function TagValue(tags: seq<Tag>, name: string): Option<string> {
    if tags == [] then None
    else if |tags[0]| >= 2 && tags[0][0] == name && Trim(tags[0][1]) != "" then Some(TrimLower(tags[0][1]))
    else TagValue(tags[1..], name)
  }

  function TagValues(tags: seq<Tag>, name: string): seq<string> {
    if tags == [] then []
    else
      var values, last := TagValues(tags[..|tags| - 1], name), tags[|tags| - 1];
      if |last| >= 2 && last[0] == name && Trim(last[1]) != "" then values + [TrimLower(last[1])] else values
  }

  function Npubs(codec: KeyCodec, keys: seq<string>): seq<string> {
    if keys == [] then []
    else
      var npubs, last := Npubs(codec, keys[..|keys| - 1]), codec.toNpub(keys[|keys| - 1]);
      if last == "" then npubs else npubs + [last]
  }

  /** The note a relay event stands for; none without a geohash. */
  function NormalizeRelayNote(codec: KeyCodec, e: RelayEvent, defaultGeohash: string): Option<Note> {
    var tagged, refs := TagValue(e.tags, "g"), ExtractEventReferences(e.tags);
    var geohash := if tagged.Some? then tagged.value else defaultGeohash;
    if geohash == "" then None
    else Some(Note(e.id, geohash, codec.toNpub(e.pubkey), Trim(e.content), e.createdAt, 0, refs.reply, refs.root,
                   Distinct(Npubs(codec, TagValues(e.tags, "p"))), map[]))
  }

  // ----- One query -----

  type Reactions = map<string, map<string, nat>>

  /** What a query's message handler has collected: notes by id, and reaction counts by note and emoji. */
  datatype Collection = Collection(notes: seq<Note>, reactions: Reactions)

  /** The last non-blank value of a tag with the given name. */
  function LastTagValue(tags: seq<Tag>, name: string): Option<string> {
    if tags == [] then None
    else
      var last := tags[|tags| - 1];
      if |last| >= 2 && last[0] == name && Trim(last[1]) != "" then Some(TrimLower(last[1]))
      else LastTagValue(tags[..|tags| - 1], name)
  }

  datatype Reaction = Reaction(target: string, emoji: string)

  /** The reaction a kind-7 event stands for; none without a geohash or a target. */
  function NormalizeRelayReaction(e: RelayEvent, defaultGeohash: string): Option<Reaction> {
    var tagged, target := TagValue(e.tags, "g"), LastTagValue(e.tags, "e");
    if (if tagged.Some? then tagged.value else defaultGeohash) == "" || target.None? then None
    else Some(Reaction(target.value, if Trim(e.content) == "" then "+" else Trim(e.content)))
  }

  function CountOf(reactions: Reactions, r: Reaction): nat {
    if r.target in reactions && r.emoji in reactions[r.target] then reactions[r.target][r.emoji] else 0
  }

  function AddReaction(reactions: Reactions, r: Reaction): Reactions {
    var existing := if r.target in reactions then reactions[r.target] else map[];
    reactions[r.target := existing[r.emoji := CountOf(reactions, r) + 1]]
  }

  datatype Message = KindOne(event: RelayEvent) | KindSeven(event: RelayEvent)

  function Collect(codec: KeyCodec, c: Collection, m: Message, defaultGeohash: string): Collection {
    match m
    case KindOne(e) =>
      var note := NormalizeRelayNote(codec, e, defaultGeohash);
      if note.None? then c else c.(notes := SetNote(c.notes, note.value))
    case KindSeven(e) =>
      var reaction := NormalizeRelayReaction(e, defaultGeohash);
      if reaction.None? then c else c.(reactions := AddReaction(c.reactions, reaction.value))
  }

  function CollectAll(codec: KeyCodec, messages: seq<Message>, defaultGeohash: string): Collection {
    if messages == [] then Collection([], map[])
    else
      var earlier := CollectAll(codec, messages[..|messages| - 1], defaultGeohash);
      Collect(codec, earlier, messages[|messages| - 1], defaultGeohash)
  }

  // ----- Counting replies -----

  /** The notes whose reply target is the given id. */
  function RepliesTo(notes: seq<Note>, id: string): nat {
    if notes == [] then 0
    else
      var target := OrEmpty(notes[|notes| - 1].replyTarget);
      RepliesTo(notes[..|notes| - 1], id) + (if target != "" && target == id then 1 else 0)
  }

  function WithCounts(notes: seq<Note>, reactions: Reactions): (r: seq<Note>)
    ensures |r| == |notes|
  {
    seq(|notes|, i requires 0 <= i < |notes| =>
      notes[i].(replies := RepliesTo(notes, notes[i].id),
        reactions := if notes[i].id in reactions then reactions[notes[i].id] else map[]))
  }

  function NewestText(loc: Locale): (Note, Note) -> bool {
    (a: Note, b: Note) => loc.collate(b.createdAt, a.createdAt) <= 0
  }

  /** `finalizeQueriedGeoNotes`. */
  function Finalize(loc: Locale, c: Collection): seq<Note> {
    Sort(WithCounts(c.notes, c.reactions), NewestText(loc))
  }

  /** The counting loops of `finalizeQueriedGeoNotes`, before its final sort. */
  method CountReplies(notes: seq<Note>, reactions: Reactions) returns (counted: seq<Note>)
    ensures counted == WithCounts(notes, reactions)
  {
    var replyCounts: map<string, nat> := map[];
    for i := 0 to |notes|
      invariant forall id :: id in replyCounts ==> replyCounts[id] == RepliesTo(notes[..i], id)
      invariant forall id :: id !in replyCounts ==> RepliesTo(notes[..i], id) == 0
    {
      assert notes[..i + 1][..i] == notes[..i];
      var target := OrEmpty(notes[i].replyTarget);
      if target == "" {
        continue;
      }
      replyCounts := replyCounts[target := (if target in replyCounts then replyCounts[target] else 0) + 1];
    }
    assert notes[..|notes|] == notes;
    counted := [];
    for i := 0 to |notes|
      invariant counted == WithCounts(notes, reactions)[..i]
    {
      var note := notes[i];
      var replies := if note.id in replyCounts then replyCounts[note.id] else 0;
      var received := if note.id in reactions then reactions[note.id] else map[];
      counted := counted + [note.(replies := replies, reactions := received)];
    }
  }

  method FinalizeQueriedGeoNotes(loc: Locale, c: Collection) returns (notes: seq<Note>)
    ensures notes == Finalize(loc, c)
  {
    var counted := CountReplies(c.notes, c.reactions);
    return Sort(counted, NewestText(loc));
  }
}
