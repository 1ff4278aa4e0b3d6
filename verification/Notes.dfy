/**
 Notes in the client's state: the reducers that add an optimistic note, replace it by its published
 form, reconcile it with the server's reply, and merge what a relay returns.
 */
module Notes {
  import opened Arithmetic
  import opened Text
  import opened Sorting
  import opened Timestamps

  /** Unset tagged keys and reactions are the empty sequence and the empty map. */
  datatype Note = Note(
    id: string, geohash: string, author: string, content: string, createdAt: string, replies: nat,
    replyTarget: Option<string>, root: Option<string>, tagged: seq<string>, reactions: map<string, nat>)

  function OrElse(a: Option<string>, b: Option<string>): Option<string> {
    if a.Some? then a else b
  }

  function OrEmpty(a: Option<string>): string {
    if a.Some? then a.value else ""
  }

  const ECHO_WINDOW_MS: int := 5000

  predicate SameThread(left: Note, right: Note) {
    && left.geohash == right.geohash && left.author == right.author
    && Trim(left.content) == Trim(right.content)
    && OrEmpty(left.replyTarget) == OrEmpty(right.replyTarget)
    && OrEmpty(left.root) == OrEmpty(right.root)
  }

  predicate SameMoment(loc: Locale, left: string, right: string) {
    var leftTime, rightTime := loc.parse(left), loc.parse(right);
    if leftTime.Some? && rightTime.Some? then Apart(leftTime.value, rightTime.value) <= ECHO_WINDOW_MS
    else left == right
  }

  /** `areEquivalentBeaconNotes`. */
  predicate Equivalent(loc: Locale, left: Note, right: Note) {
    SameThread(left, right) && SameMoment(loc, left.createdAt, right.createdAt)
  }

  predicate IsLocal(note: Note) {
    "note-" <= note.id
  }

  predicate IsHex(c: char) {
    '0' <= c <= '9' || 'a' <= c <= 'f' || 'A' <= c <= 'F'
  }

  /** `isRelayBackedEventID`. */
  predicate IsRelayBacked(id: string) {
    |Trim(id)| == 64 && forall i :: 0 <= i < 64 ==> IsHex(Trim(id)[i])
  }

  // ----- Collections -----

  /** The trimmed, non-empty keys, each at its first place. */
  function Dedupe(pubkeys: seq<string>): seq<string> {
    if pubkeys == [] then []
    else
      var kept, last := Dedupe(pubkeys[..|pubkeys| - 1]), Trim(pubkeys[|pubkeys| - 1]);
      if last == "" || last in kept then kept else kept + [last]
  }

  function MaxAt(a: map<string, nat>, b: map<string, nat>, emoji: string): nat
    requires emoji in a || emoji in b
  {
    if emoji !in a then b[emoji] else if emoji !in b then a[emoji] else Max(a[emoji], b[emoji])
  }

  /** `mergeNoteReactions`: the larger count of every emoji. */
  function MergeReactions(a: map<string, nat>, b: map<string, nat>): map<string, nat> {
    map emoji | emoji in a.Keys + b.Keys :: MaxAt(a, b, emoji)
  }

  function Find(notes: seq<Note>, p: Note -> bool): Option<Note> {
    if notes == [] then None
    else if p(notes[0]) then Some(notes[0])
    else Find(notes[1..], p)
  }

  predicate HasId(notes: seq<Note>, id: string) {
    exists i :: 0 <= i < |notes| && notes[i].id == id
  }

  // ----- Reducers -----

  function MapNotes(notes: seq<Note>, f: Note -> Note): (r: seq<Note>)
    ensures |r| == |notes|
  {
    seq(|notes|, i requires 0 <= i < |notes| => f(notes[i]))
  }

  function AddOptimisticNote(current: seq<Note>, next: Note): seq<Note> {
    var notes := [next] + current;
    if OrEmpty(next.replyTarget) == "" then notes
    else
      MapNotes(notes, (note: Note) =>
        if note.id == OrEmpty(next.replyTarget) then note.(replies := note.replies + 1) else note)
  }

  function ReplaceNoteById(current: seq<Note>, noteId: string, next: Note): seq<Note> {
    MapNotes(current, (note: Note) => if note.id == noteId then next else note)
  }

  function Reconciled(existing: Note, server: Note): Note {
    server.(
      id := if IsRelayBacked(existing.id) then existing.id else server.id,
      replies := Max(existing.replies, server.replies),
      replyTarget := OrElse(existing.replyTarget, server.replyTarget),
      root := OrElse(existing.root, server.root),
      tagged := Dedupe(existing.tagged + server.tagged),
      reactions := MergeReactions(existing.reactions, server.reactions))
  }

  /** The note a server reply belongs to: the optimistic note, or else the first equivalent one. */
  function Existing(loc: Locale, current: seq<Note>, optimisticId: string, server: Note): Option<Note> {
    var byId := Find(current, (note: Note) => note.id == optimisticId);
    if byId.Some? then byId else Find(current, (note: Note) => Equivalent(loc, note, server))
  }

  function ReconcileServerNote(loc: Locale, current: seq<Note>, optimisticId: string, server: Note): seq<Note> {
    match Existing(loc, current, optimisticId, server)
    case None => [server] + current
    case Some(existing) => [Reconciled(existing, server)] + Filter((note: Note) => note.id != existing.id, current)
  }

  /** A JavaScript Map from note ids to notes: the value at the key's place, or at the end. */
  function SetNote(notes: seq<Note>, note: Note): seq<Note> {
    if HasId(notes, note.id) then ReplaceNoteById(notes, note.id, note) else notes + [note]
  }

  function Merged(existing: Option<Note>, relay: Note): Note {
    match existing
    case None => relay.(tagged := Dedupe(relay.tagged))
    case Some(e) => relay.(
      replies := Max(e.replies, relay.replies),
      replyTarget := OrElse(relay.replyTarget, e.replyTarget),
      root := OrElse(relay.root, e.root),
      tagged := Dedupe(e.tagged + relay.tagged),
      reactions := MergeReactions(e.reactions, relay.reactions))
  }

  predicate HasEquivalentLocal(loc: Locale, current: seq<Note>, relay: Note) {
    exists i :: 0 <= i < |current| && IsLocal(current[i]) && Equivalent(loc, current[i], relay)
  }

  function ById(notes: seq<Note>, id: string): Option<Note> {
    Find(notes, (note: Note) => note.id == id)
  }

  /** One relay note, merged into the map built from the current notes. */
  function Absorb(loc: Locale, current: seq<Note>, merged: seq<Note>, relay: Note): seq<Note> {
    if !HasId(merged, relay.id) && HasEquivalentLocal(loc, current, relay) then merged
    else SetNote(merged, Merged(ById(merged, relay.id), relay))
  }

  function AbsorbAll(loc: Locale, current: seq<Note>, relays: seq<Note>): seq<Note> {
    if relays == [] then IndexById(current)
    else Absorb(loc, current, AbsorbAll(loc, current, relays[..|relays| - 1]), relays[|relays| - 1])
  }

  /** `new Map(notes.map((note) => [note.id, note]))`. */
  function IndexById(notes: seq<Note>): seq<Note> {
    if notes == [] then [] else SetNote(IndexById(notes[..|notes| - 1]), notes[|notes| - 1])
  }

  function NewestFirst(loc: Locale): (Note, Note) -> bool {
    (a: Note, b: Note) => NoNewer(loc, a.createdAt, b.createdAt)
  }

  function MergeRelayNotes(loc: Locale, current: seq<Note>, relays: seq<Note>): seq<Note> {
    Sort(AbsorbAll(loc, current, relays), NewestFirst(loc))
  }

  // ----- The reducers that update a local Map, as the client runs them -----

  method RunMergeReactions(a: map<string, nat>, b: map<string, nat>) returns (counts: map<string, nat>)
    ensures counts == MergeReactions(a, b)
  {
    counts := map[];
    var collections := [a, b];
    for c := 0 to 2
      invariant counts == if c == 0 then map[] else if c == 1 then a else MergeReactions(a, b)
    {
      var before, remaining := counts, collections[c].Keys;
      while remaining != {}
        invariant remaining <= collections[c].Keys
        invariant counts.Keys == before.Keys + (collections[c].Keys - remaining)
        invariant forall emoji :: emoji in counts ==>
          counts[emoji]
            == if emoji in remaining then before[emoji]
               else if emoji in collections[c] then MaxAt(before, collections[c], emoji) else before[emoji]
        decreases remaining
      {
        var emoji :| emoji in remaining;
        counts := counts[emoji := Max(if emoji in counts then counts[emoji] else 0, collections[c][emoji])];
        remaining := remaining - {emoji};
      }
    }
  }

  method RunMergeRelayNotes(loc: Locale, current: seq<Note>, relays: seq<Note>) returns (notes: seq<Note>)
    ensures notes == MergeRelayNotes(loc, current, relays)
  {
    var merged := IndexById(current);
    for i := 0 to |relays|
      invariant merged == AbsorbAll(loc, current, relays[..i])
    {
      var relay := relays[i];
      assert relays[..i + 1][..i] == relays[..i];
      if !HasId(merged, relay.id) && HasEquivalentLocal(loc, current, relay) {
        continue;
      }
      var existing := ById(merged, relay.id);
      merged := SetNote(merged, Merged(existing, relay));
    }
    assert relays[..|relays|] == relays;
    return Sort(merged, NewestFirst(loc));
  }
}
