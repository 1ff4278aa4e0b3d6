/**
 The pulse feed: items of several relays deduplicated into one chronological list, bursts of one
 author gathered into groups, and the groups of each lane ranked page by page.
 */
module PulseFeed {
  import opened Arithmetic
  import opened Text
  import opened Sorting
  import opened Timestamps

  datatype Item = Item(
    id: string, relayUrl: string, author: string, geohash: string, content: string, publishedAt: string,
    sourceLabel: string,
    zapCount: int, engagementScore: int, followGraphScore: int, followerCount: int)

  // ----- Deduplication -----

  function FallbackKey(x: Item): string {
    x.relayUrl + "\0" + x.author + "\0" + x.geohash + "\0" + x.publishedAt + "\0" + x.content
  }

  predicate Clash(a: Item, b: Item) {
    (Trim(a.id) != "" && Trim(a.id) == Trim(b.id)) || FallbackKey(a) == FallbackKey(b)
  }

  predicate ClashesWith(kept: seq<Item>, x: Item) {
    exists i :: 0 <= i < |kept| && Clash(kept[i], x)
  }

  /** The kept items extended, in order, by every item that clashes with none kept before it. */
  function Extend(kept: seq<Item>, items: seq<Item>): seq<Item> {
    if items == [] then kept
    else
      var sofar, last := Extend(kept, items[..|items| - 1]), items[|items| - 1];
      if ClashesWith(sofar, last) then sofar else sofar + [last]
  }

  function Flatten<T>(collections: seq<seq<T>>): seq<T> {
    if collections == [] then [] else Flatten(collections[..|collections| - 1]) + collections[|collections| - 1]
  }

  function ByTime(loc: Locale): (Item, Item) -> bool {
    (a: Item, b: Item) => NoNewer(loc, a.publishedAt, b.publishedAt)
  }

  function Merge(loc: Locale, collections: seq<seq<Item>>): seq<Item> {
    Sort(Extend([], Flatten(collections)), ByTime(loc))
  }

  ghost predicate Seen(kept: seq<Item>, ids: set<string>, keys: set<string>) {
    && (forall id :: id in ids <==> id != "" && exists i :: 0 <= i < |kept| && Trim(kept[i].id) == id)
    && (forall key :: key in keys <==> exists i :: 0 <= i < |kept| && FallbackKey(kept[i]) == key)
  }

  lemma SeenDecides(kept: seq<Item>, ids: set<string>, keys: set<string>, x: Item)
    requires Seen(kept, ids, keys)
    ensures ClashesWith(kept, x) <==> (Trim(x.id) != "" && Trim(x.id) in ids) || FallbackKey(x) in keys
  {
  }

  lemma SeenOneMore(kept: seq<Item>, ids: set<string>, keys: set<string>, x: Item)
    requires Seen(kept, ids, keys)
    ensures Seen(kept + [x], if Trim(x.id) != "" then ids + {Trim(x.id)} else ids, keys + {FallbackKey(x)})
  {
    var more := kept + [x];
    assert more[|kept|] == x;
    assert forall i :: 0 <= i < |kept| ==> more[i] == kept[i];
  }

  lemma ExtendOneMore(before: seq<Item>, collection: seq<Item>, i: nat)
    requires i < |collection|
    ensures var sofar := Extend([], before + collection[..i]);
      Extend([], before + collection[..i + 1])
        == if ClashesWith(sofar, collection[i]) then sofar
           else sofar + [collection[i]]
  {
    var longer := before + collection[..i + 1];
    assert longer[..|longer| - 1] == before + collection[..i];
  }

  lemma FlattenTake<T>(collections: seq<seq<T>>, c: nat)
    requires c < |collections|
    ensures Flatten(collections[..c + 1]) == Flatten(collections[..c]) + collections[c]
  {
    assert collections[..c + 1][..c] == collections[..c];
  }

  method MergeCrossRelayFeedItems(loc: Locale, collections: seq<seq<Item>>) returns (feed: seq<Item>)
    ensures feed == Merge(loc, collections)
  {
    var merged: seq<Item> := [];
    var seenIds: set<string>, seenKeys: set<string> := {}, {};
    for c := 0 to |collections|
      invariant merged == Extend([], Flatten(collections[..c]))
      invariant Seen(merged, seenIds, seenKeys)
    {
      var collection := collections[c];
      ghost var before := Flatten(collections[..c]);
      assert before + collection[..0] == before;
      for i := 0 to |collection|
        invariant merged == Extend([], before + collection[..i])
        invariant Seen(merged, seenIds, seenKeys)
      {
        var item := collection[i];
        ExtendOneMore(before, collection, i);
        SeenDecides(merged, seenIds, seenKeys, item);
        var normalizedId, key := Trim(item.id), FallbackKey(item);
        if normalizedId != "" && normalizedId in seenIds {
          continue;
        }
        if key in seenKeys {
          continue;
        }
        SeenOneMore(merged, seenIds, seenKeys, item);
        if normalizedId != "" {
          seenIds := seenIds + {normalizedId};
        }
        seenKeys := seenKeys + {key};
        merged := merged + [item];
      }
      assert collection[..|collection|] == collection;
      FlattenTake(collections, c);
    }
    assert collections[..|collections|] == collections;
    return Sort(merged, ByTime(loc));
  }

  // ----- Lanes and bursts -----

  datatype Lane = ForYou | Following

  datatype Tagged = Tagged(item: Item, lane: Lane)

  type Group = seq<Tagged>

  function LaneOf(followed: set<string>, toNpub: string -> string, x: Item): Lane {
    if x.sourceLabel == "Direct follow" || Trim(toNpub(x.author)) in followed then Following else ForYou
  }

  function TagAll(followed: set<string>, toNpub: string -> string, items: seq<Item>): seq<Tagged> {
    if items == [] then []
    else
      var x := items[|items| - 1];
      TagAll(followed, toNpub, items[..|items| - 1]) + [Tagged(x, LaneOf(followed, toNpub, x))]
  }

  const AGGREGATION_WINDOW_MS: int := 45 * 60 * 1000

  predicate ShouldAggregate(loc: Locale, anchor: Tagged, candidate: Tagged) {
    && anchor.lane == candidate.lane && anchor.item.relayUrl == candidate.item.relayUrl
    && anchor.item.author == candidate.item.author && anchor.item.geohash == candidate.item.geohash
    && var a, c := ParseTimestamp(loc, anchor.item.publishedAt), ParseTimestamp(loc, candidate.item.publishedAt);
       a.Some? && c.Some? && Apart(a.value, c.value) <= AGGREGATION_WINDOW_MS
  }

  /** The finished groups and the group being built. */
  datatype Grouping = Grouping(groups: seq<Group>, current: Group)

  function GroupUpTo(loc: Locale, items: seq<Tagged>): Grouping {
    if items == [] then Grouping([], [])
    else
      var g, x := GroupUpTo(loc, items[..|items| - 1]), items[|items| - 1];
      if g.current == [] || ShouldAggregate(loc, g.current[0], x) then g.(current := g.current + [x])
      else Grouping(g.groups + [g.current], [x])
  }

  function Groups(loc: Locale, items: seq<Tagged>): seq<Group> {
    var g := GroupUpTo(loc, items);
    if g.current == [] then g.groups else g.groups + [g.current]
  }

  method BuildPulseFeedGroups(loc: Locale, items: seq<Tagged>) returns (groups: seq<Group>)
    ensures groups == Groups(loc, items)
  {
    groups := [];
    var current: Group := [];
    for i := 0 to |items|
      invariant Grouping(groups, current) == GroupUpTo(loc, items[..i])
    {
      var item := items[i];
      assert items[..i + 1][..i] == items[..i];
      if |current| == 0 || ShouldAggregate(loc, current[0], item) {
        current := current + [item];
        continue;
      }
      groups := groups + [current];
      current := [item];
    }
    assert items[..|items|] == items;
    if |current| > 0 {
      groups := groups + [current];
    }
  }

  // ----- Ranking -----

  const PAGE_SIZE: nat := 30

  function Score(group: Group): int {
    if group == [] then 0
    else
      var x := group[|group| - 1].item;
      Score(group[..|group| - 1]) + x.zapCount + x.engagementScore + x.followGraphScore + x.followerCount
  }

  function HeadTime(group: Group): string { if group == [] then "" else group[0].item.publishedAt }
  function HeadId(group: Group): string { if group == [] then "" else group[0].item.id }

  function CompareRanking(loc: Locale, left: Group, right: Group): int {
    if Score(right) != Score(left) then Score(right) - Score(left)
    else if CompareDescending(loc, HeadTime(left), HeadTime(right)) != 0 then
      CompareDescending(loc, HeadTime(left), HeadTime(right))
    else loc.collate(HeadId(left), HeadId(right))
  }

  function ByRank(loc: Locale): (Group, Group) -> bool {
    (a: Group, b: Group) => CompareRanking(loc, a, b) <= 0
  }

  predicate InLane(group: Group, lane: Lane) {
    group != [] && group[0].lane == lane
  }

  function LaneGroups(groups: seq<Group>, lane: Lane): seq<Group> {
    Filter((g: Group) => InLane(g, lane), groups)
  }

  function PageSorter(loc: Locale): seq<Group> -> seq<Group> {
    (page: seq<Group>) => Sort(page, ByRank(loc))
  }

  /** The first `pages` pages of a lane, each sorted on its own. */
  function RankPages(sorter: seq<Group> -> seq<Group>, groups: seq<Group>, pages: nat): seq<Group> {
    if pages == 0 then [] else RankPages(sorter, groups, pages - 1) + sorter(PageOf(groups, pages - 1))
  }

  /** The groups at chronological positions 30 k to 30 k + 29. */
  function PageOf(groups: seq<Group>, k: nat): seq<Group> {
    if |groups| <= PAGE_SIZE * k then []
    else if |groups| <= PAGE_SIZE * k + PAGE_SIZE then groups[PAGE_SIZE * k..]
    else groups[PAGE_SIZE * k..PAGE_SIZE * k + PAGE_SIZE]
  }

  lemma PageIsSlice(groups: seq<Group>, k: nat)
    requires PAGE_SIZE * k < |groups|
    ensures var start := PAGE_SIZE * k;
      PageOf(groups, k) == groups[start..(if start + PAGE_SIZE <= |groups| then start + PAGE_SIZE else |groups|)]
    ensures k < PageCount(groups)
  {
  }

  function PageCount(groups: seq<Group>): nat {
    (|groups| + PAGE_SIZE - 1) / PAGE_SIZE
  }

  function RankLane(loc: Locale, groups: seq<Group>, lane: Lane): seq<Group> {
    var laneGroups := LaneGroups(groups, lane);
    RankPages(PageSorter(loc), laneGroups, PageCount(laneGroups))
  }

  function Rank(loc: Locale, groups: seq<Group>): seq<Group> {
    RankLane(loc, groups, ForYou) + RankLane(loc, groups, Following)
  }

  lemma OneMorePage(sorter: seq<Group> -> seq<Group>, groups: seq<Group>, k: nat, batch: seq<Group>)
    requires PAGE_SIZE * k < |groups|
    requires var start := PAGE_SIZE * k;
      batch == groups[start..(if start + PAGE_SIZE <= |groups| then start + PAGE_SIZE else |groups|)]
    ensures RankPages(sorter, groups, k + 1) == RankPages(sorter, groups, k) + sorter(batch)
  {
    PageIsSlice(groups, k);
  }

  /** The inner loop of `rankPulseFeedGroups`: one lane, page by page. */
  method RankLanePages(sorter: seq<Group> -> seq<Group>, laneGroups: seq<Group>) returns (ranked: seq<Group>)
    ensures ranked == RankPages(sorter, laneGroups, PageCount(laneGroups))
  {
    ranked := [];
    var index: nat := 0;
    ghost var page: nat := 0;
    while index < |laneGroups|
      invariant index == PAGE_SIZE * page && (page > 0 ==> index < |laneGroups| + PAGE_SIZE)
      invariant ranked == RankPages(sorter, laneGroups, page)
    {
      var batch := laneGroups[index..(if index + PAGE_SIZE <= |laneGroups| then index + PAGE_SIZE else |laneGroups|)];
      OneMorePage(sorter, laneGroups, page, batch);
      batch := sorter(batch);
      ranked := ranked + batch;
      index := index + PAGE_SIZE;
      page := page + 1;
    }
    assert page == PageCount(laneGroups);
  }

  method RankPulseFeedGroups(loc: Locale, groups: seq<Group>) returns (ranked: seq<Group>)
    ensures ranked == Rank(loc, groups)
  {
    ranked := [];
    var lanes := [ForYou, Following];
    for l := 0 to 2
      invariant ranked == if l == 0 then [] else if l == 1 then RankLane(loc, groups, ForYou) else Rank(loc, groups)
    {
      var batches := RankLanePages(PageSorter(loc), LaneGroups(groups, lanes[l]));
      ranked := ranked + batches;
    }
  }

  // ----- Feed items -----

  datatype Post = Post(id: string, content: string, publishedAt: string)

  datatype FeedItem = FeedItem(
    id: string, lane: Lane, relayUrl: string, author: string, geohash: string, content: string, publishedAt: string,
    sourceLabel: string, postCount: nat, posts: seq<Post>)

  function PostOf(x: Tagged): Post {
    Post(x.item.id, x.item.content, x.item.publishedAt)
  }

  function PostsOf(group: Group): (posts: seq<Post>)
    ensures |posts| == |group|
  {
    if group == [] then [] else PostsOf(group[..|group| - 1]) + [PostOf(group[|group| - 1])]
  }

  function BuildItem(group: Group): FeedItem
    requires group != []
  {
    var latest := group[0].item;
    FeedItem("pulse-remote-" + latest.id, group[0].lane, latest.relayUrl, latest.author, latest.geohash, latest.content,
             latest.publishedAt, latest.sourceLabel, |group|, PostsOf(group))
  }

  function TaggedByTime(loc: Locale): (Tagged, Tagged) -> bool {
    (a: Tagged, b: Tagged) => NoNewer(loc, a.item.publishedAt, b.item.publishedAt)
  }

  /** The ranked groups of a feed. */
  function RankedGroups(loc: Locale, followed: set<string>, toNpub: string -> string, items: seq<Item>): seq<Group> {
    Rank(loc, Groups(loc, Sort(TagAll(followed, toNpub, items), TaggedByTime(loc))))
  }

  /** Every group has a first item. */
  predicate NoneEmpty(groups: seq<Group>) {
    forall i :: 0 <= i < |groups| ==> groups[i] != []
  }

  function BuildItems(groups: seq<Group>): seq<FeedItem>
    requires NoneEmpty(groups)
  {
    if groups == [] then []
    else
      BuildItems(groups[..|groups| - 1]) + [BuildItem(groups[|groups| - 1])]
  }
}
