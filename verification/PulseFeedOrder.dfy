/**
 What the pulse feed shows, told from the items alone: which items are duplicates, that the merged list
 is newest first, and what a finished feed item presents.
 */
module PulseFeedOrder {
  import opened PulseFeed
  import opened PulseFeedItems
  import opened PulseFeedLaws
  import opened Sequences
  import opened Sorting
  import opened Text
  import opened Timestamps

  // ----- Duplicates -----

  predicate NoNul(s: string) {
    '\0' !in s
  }

  /** No field of the fallback key holds the character that separates them. */
  predicate PlainItem(x: Item) {
    NoNul(x.relayUrl) && NoNul(x.author) && NoNul(x.geohash) && NoNul(x.publishedAt) && NoNul(x.content)
  }

  lemma JoinInjective(a: string, restA: string, b: string, restB: string)
    requires NoNul(a) && NoNul(b)
    ensures a + "\0" + restA == b + "\0" + restB <==> a == b && restA == restB
  {
    var left, right := a + "\0" + restA, b + "\0" + restB;
    assert left[|a|] == '\0' && right[|b|] == '\0';
    if |a| < |b| {
      assert right[|a|] == b[|a|] && b[|a|] in b;
    } else if |b| < |a| {
      assert left[|b|] == a[|b|] && a[|b|] in a;
    } else {
      assert left[..|a|] == a && right[..|b|] == b;
      assert left[|a| + 1..] == restA && right[|b| + 1..] == restB;
    }
  }

  /** The same relay, author, place, time and text. */
  predicate SamePost(a: Item, b: Item) {
    && a.relayUrl == b.relayUrl && a.author == b.author && a.geohash == b.geohash
    && a.publishedAt == b.publishedAt && a.content == b.content
  }

  /** A shared id that is not blank, or the same post. */
  predicate Duplicates(a: Item, b: Item) {
    (Trim(a.id) != "" && Trim(a.id) == Trim(b.id)) || SamePost(a, b)
  }

  lemma KeyOfFields(x: Item)
    ensures FallbackKey(x)
         == x.relayUrl + "\0" + (x.author + "\0" + (x.geohash + "\0" + (x.publishedAt + "\0" + x.content)))
  {
    var a, b, c, d, e := x.relayUrl + "\0", x.author + "\0", x.geohash + "\0", x.publishedAt + "\0", x.content;
    assert FallbackKey(x) == a + b + c + d + e;
    assert a + b + c + d + e == a + (b + (c + (d + e)));
  }

  lemma ClashIffSamePost(a: Item, b: Item)
    requires PlainItem(a) && PlainItem(b)
    ensures Clash(a, b) <==> Duplicates(a, b)
  {
    hide FallbackKey;
    KeyOfFields(a);
    KeyOfFields(b);
    var a4, b4 := a.publishedAt + "\0" + a.content, b.publishedAt + "\0" + b.content;
    var a3, b3 := a.geohash + "\0" + a4, b.geohash + "\0" + b4;
    JoinInjective(a.relayUrl, a.author + "\0" + a3, b.relayUrl, b.author + "\0" + b3);
    JoinInjective(a.author, a3, b.author, b3);
    JoinInjective(a.geohash, a4, b.geohash, b4);
    JoinInjective(a.publishedAt, a.content, b.publishedAt, b.content);
  }

  /** How many separators a text holds. */
  function Nuls(s: string): nat {
    if s == "" then 0 else (if s[0] == '\0' then 1 else 0) + Nuls(s[1..])
  }

  lemma {:induction false} NulsOfJoin(a: string, b: string)
    ensures Nuls(a + "\0" + b) == Nuls(a) + 1 + Nuls(b)
  {
    if a == "" {
      assert (a + "\0" + b)[1..] == b;
    } else {
      assert (a + "\0" + b)[1..] == a[1..] + "\0" + b;
      NulsOfJoin(a[1..], b);
    }
  }

  lemma {:induction false} NulsIffHeld(s: string)
    ensures Nuls(s) == 0 <==> NoNul(s)
  {
    if s != "" {
      NulsIffHeld(s[1..]);
      assert s == [s[0]] + s[1..];
    }
  }

  lemma NulsOfKey(x: Item)
    ensures Nuls(FallbackKey(x)) == 4 <==> PlainItem(x)
  {
    hide Nuls, FallbackKey;
    KeyOfFields(x);
    var d := x.publishedAt + "\0" + x.content;
    var c := x.geohash + "\0" + d;
    NulsOfJoin(x.publishedAt, x.content);
    NulsOfJoin(x.geohash, d);
    NulsOfJoin(x.author, c);
    NulsOfJoin(x.relayUrl, x.author + "\0" + c);
    NulsIffHeld(x.relayUrl);
    NulsIffHeld(x.author);
    NulsIffHeld(x.geohash);
    NulsIffHeld(x.publishedAt);
    NulsIffHeld(x.content);
  }

  /** An item with a separator in a field has a double: another post with the same fallback key. */
  function Double(x: Item): Item
    requires !PlainItem(x)
  {
    if !NoNul(x.relayUrl) then
      var (u, v) := Cut(x.relayUrl);
      x.(id := "", relayUrl := u, author := v + "\0" + x.author)
    else if !NoNul(x.author) then
      var (u, v) := Cut(x.author);
      x.(id := "", author := u, geohash := v + "\0" + x.geohash)
    else if !NoNul(x.geohash) then
      var (u, v) := Cut(x.geohash);
      x.(id := "", geohash := u, publishedAt := v + "\0" + x.publishedAt)
    else if !NoNul(x.publishedAt) then
      var (u, v) := Cut(x.publishedAt);
      x.(id := "", publishedAt := u, content := v + "\0" + x.content)
    else
      var (u, v) := Cut(x.content);
      x.(id := "", publishedAt := x.publishedAt + "\0" + u, content := v)
  }

  function Cut(s: string): (r: (string, string))
    requires !NoNul(s)
    ensures s == r.0 + "\0" + r.1
  {
    if s[0] == '\0' then ("", s[1..]) else
      assert s == [s[0]] + s[1..];
      var (u, v) := Cut(s[1..]);
      ([s[0]] + u, v)
  }

  lemma DoubleClashes(x: Item)
    requires !PlainItem(x)
    ensures Clash(x, Double(x)) && !Duplicates(x, Double(x))
  {
    hide Cut, FallbackKey;
    assert Trim(Double(x).id) == "";
    KeyOfFields(x);
    KeyOfFields(Double(x));
    var d := x.publishedAt + "\0" + x.content;
    if !NoNul(x.relayUrl) {
      var (u, v) := Cut(x.relayUrl);
      var rest := x.author + "\0" + (x.geohash + "\0" + d);
      assert u + "\0" + v + "\0" + rest == u + "\0" + (v + "\0" + rest);
      assert v + "\0" + rest == v + "\0" + x.author + "\0" + (x.geohash + "\0" + d);
    } else if !NoNul(x.author) {
      var (u, v) := Cut(x.author);
      assert u + "\0" + v + "\0" + (x.geohash + "\0" + d) == u + "\0" + (v + "\0" + x.geohash + "\0" + d);
    } else if !NoNul(x.geohash) {
      var (u, v) := Cut(x.geohash);
      assert u + "\0" + v + "\0" + d == u + "\0" + (v + "\0" + x.publishedAt + "\0" + x.content);
    } else if !NoNul(x.publishedAt) {
      var (u, v) := Cut(x.publishedAt);
      assert u + "\0" + v + "\0" + x.content == u + "\0" + (v + "\0" + x.content);
    } else {
      var (u, v) := Cut(x.content);
      assert d == x.publishedAt + "\0" + u + "\0" + v;
    }
  }

  /** Clashing with an item means being its duplicate, whatever the other item, exactly when no field of its
      fallback key holds the separator. */
  lemma DuplicatesIffPlain(x: Item)
    ensures (forall y :: Clash(x, y) <==> Duplicates(x, y)) <==> PlainItem(x)
  {
    hide Nuls, FallbackKey, Double;
    if PlainItem(x) {
      forall y ensures Clash(x, y) <==> Duplicates(x, y) {
        NulsOfKey(x);
        NulsOfKey(y);
        if PlainItem(y) { ClashIffSamePost(x, y); }
      }
    } else {
      DoubleClashes(x);
    }
  }

  /** The first occurrence of an item is missing from the merged feed exactly when an earlier item that is in
      the feed has its id, or all its fields. */
  lemma MissingIffDuplicate(loc: Locale, collections: seq<seq<Item>>, i: nat)
    requires i < |Flatten(collections)| && PlainItem(Flatten(collections)[i])
    requires Flatten(collections)[i] !in Flatten(collections)[..i]
    ensures var items, feed := Flatten(collections), Merge(loc, collections);
      items[i] !in feed <==>
        exists k :: k in items[..i] && k in feed && Duplicates(k, items[i])
  {
    var items, feed := Flatten(collections), Merge(loc, collections);
    hide FallbackKey;
    DuplicatesIffPlain(items[i]);
    assert forall k :: Clash(k, items[i]) <==> Clash(items[i], k);
    if items[i] !in feed {
      DroppedClashesWithEarlier(loc, collections, i);
      var k :| k in items[..i] && k in feed && Clash(k, items[i]);
    }
    if k :| k in items[..i] && k in feed && Duplicates(k, items[i]) {
      MergedHasNoClash(loc, collections);
      if items[i] in feed { NoClashMembers(feed, k, items[i]); }
    }
  }

  lemma NoClashMembers(feed: seq<Item>, a: Item, b: Item)
    requires NoClash(feed) && Clash(a, b) && a in feed && b in feed
    ensures a == b
  {
    var i :| 0 <= i < |feed| && feed[i] == a;
    var j :| 0 <= j < |feed| && feed[j] == b;
    assert i < j ==> !Clash(a, b);
    assert j < i ==> !Clash(b, a);
  }

  // ----- Newest first -----

  ghost predicate ItemsNewestFirst(loc: Locale, items: seq<Item>) {
    forall i, j :: 0 <= i < j < |items| ==> MayPrecede(loc, items[i].publishedAt, items[j].publishedAt)
  }

  ghost predicate TaggedNewestFirst(loc: Locale, items: seq<Tagged>) {
    forall i, j :: 0 <= i < j < |items| ==> MayPrecede(loc, items[i].item.publishedAt, items[j].item.publishedAt)
  }

  /** The merged feed is newest first: readable times in descending order, then unreadable ones, missing ones
      last, and equal ones in descending collation. */
  lemma MergeIsNewestFirst(loc: Locale, collections: seq<seq<Item>>)
    requires loc.Lawful()
    ensures ItemsNewestFirst(loc, Merge(loc, collections))
  {
    hide MayPrecede, CompareDescending;
    var feed := Merge(loc, collections);
    ByTimeIsTotalPreorder(loc);
    SortSorted(Extend([], Flatten(collections)), ByTime(loc));
    forall i, j | 0 <= i < j < |feed| ensures MayPrecede(loc, feed[i].publishedAt, feed[j].publishedAt) {
      assert ByTime(loc)(feed[i], feed[j]);
      DescendingIsNewestFirst(loc, feed[i].publishedAt, feed[j].publishedAt);
    }
  }

  lemma TaggedByTimeIsTotalPreorder(loc: Locale)
    requires loc.Lawful()
    ensures TotalPreorder(TaggedByTime(loc))
  {
    DescendingIsTotalPreorder(loc);
    forall x: Tagged, y: Tagged, z: Tagged | TaggedByTime(loc)(x, y) && TaggedByTime(loc)(y, z)
      ensures TaggedByTime(loc)(x, z)
    {
      TransitiveOrder(loc, x.item.publishedAt, y.item.publishedAt, z.item.publishedAt);
    }
  }

  lemma SortedIsNewestFirst(loc: Locale, items: seq<Tagged>)
    requires loc.Lawful()
    ensures TaggedNewestFirst(loc, Sort(items, TaggedByTime(loc)))
  {
    hide MayPrecede, CompareDescending;
    var sorted := Sort(items, TaggedByTime(loc));
    TaggedByTimeIsTotalPreorder(loc);
    SortSorted(items, TaggedByTime(loc));
    forall i, j | 0 <= i < j < |sorted|
      ensures MayPrecede(loc, sorted[i].item.publishedAt, sorted[j].item.publishedAt)
    {
      assert TaggedByTime(loc)(sorted[i], sorted[j]);
      DescendingIsNewestFirst(loc, sorted[i].item.publishedAt, sorted[j].item.publishedAt);
    }
  }

  /** Where group k starts in the flat list. */
  function StartOf(groups: seq<Group>, k: nat): nat
    requires k <= |groups|
  {
    |Flatten(groups[..k])|
  }

  lemma {:induction false} GroupIsSlice(groups: seq<Group>, k: nat)
    requires k < |groups|
    ensures StartOf(groups, k) + |groups[k]| <= |Flatten(groups)|
    ensures Flatten(groups)[StartOf(groups, k)..StartOf(groups, k) + |groups[k]|] == groups[k]
  {
    var init := groups[..|groups| - 1];
    if k == |groups| - 1 {
      assert Flatten(groups) == Flatten(init) + groups[k];
    } else {
      GroupIsSlice(init, k);
      assert init[..k] == groups[..k];
      assert Flatten(init) <= Flatten(groups);
    }
  }

  lemma SliceNewestFirst(loc: Locale, flat: seq<Tagged>, start: nat, slice: seq<Tagged>)
    requires TaggedNewestFirst(loc, flat)
    requires start + |slice| <= |flat| && flat[start..start + |slice|] == slice
    ensures TaggedNewestFirst(loc, slice)
  {
    hide MayPrecede;
    forall i, j | 0 <= i < j < |slice| ensures MayPrecede(loc, slice[i].item.publishedAt, slice[j].item.publishedAt) {
      assert slice[i] == flat[start + i] && slice[j] == flat[start + j];
    }
  }

  lemma GroupNewestFirst(loc: Locale, groups: seq<Group>, k: nat)
    requires k < |groups| && TaggedNewestFirst(loc, Flatten(groups))
    ensures TaggedNewestFirst(loc, groups[k])
  {
    hide Flatten, TaggedNewestFirst, MayPrecede;
    GroupIsSlice(groups, k);
    SliceNewestFirst(loc, Flatten(groups), StartOf(groups, k), groups[k]);
  }

  // ----- Feed items -----

  /** An item is in the Following lane exactly when it comes from a direct follow, or its author is followed. */
  lemma {:induction false} LanesByFollow(toNpub: string -> string, followedPubkeys: seq<string>,
                                         items: seq<Item>, x: Tagged)
    requires x in TagAll(FollowedSet(toNpub, followedPubkeys), toNpub, items)
    ensures x.item in items
    ensures x.lane == Following <==>
      x.item.sourceLabel == "Direct follow"
      || exists k :: 0 <= k < |followedPubkeys| && FollowsAuthor(toNpub, followedPubkeys[k], x.item.author)
  {
    var init := items[..|items| - 1];
    if x in TagAll(FollowedSet(toNpub, followedPubkeys), toNpub, init) {
      LanesByFollow(toNpub, followedPubkeys, init, x);
      assert x.item in init;
    } else {
      assert x.item == items[|items| - 1];
      FollowedMember(toNpub, followedPubkeys, x.item.author);
    }
  }

  predicate FollowsAuthor(toNpub: string -> string, followed: string, author: string) {
    Trim(toNpub(followed)) != "" && Trim(toNpub(followed)) == Trim(toNpub(author))
  }

  lemma FollowedMember(toNpub: string -> string, followedPubkeys: seq<string>, author: string)
    ensures Trim(toNpub(author)) in FollowedSet(toNpub, followedPubkeys)
      <==> exists k :: 0 <= k < |followedPubkeys| && FollowsAuthor(toNpub, followedPubkeys[k], author)
  {
    hide Trim;
    var key, followed := Trim(toNpub(author)), FollowedSet(toNpub, followedPubkeys);
    if key in followed {
      var k :| 0 <= k < |followedPubkeys| && key != "" && Trim(toNpub(followedPubkeys[k])) == key;
      assert FollowsAuthor(toNpub, followedPubkeys[k], author);
    }
  }

  /** A feed item presents a burst: it shows the fields of the first item, which is a latest one, and lists
      the posts of all of them in order. */
  ghost predicate Presents(loc: Locale, f: FeedItem, group: Group) {
    && group != []
    && f.id == "pulse-remote-" + group[0].item.id && f.lane == group[0].lane
    && f.relayUrl == group[0].item.relayUrl && f.author == group[0].item.author && f.geohash == group[0].item.geohash
    && f.content == group[0].item.content && f.publishedAt == group[0].item.publishedAt
    && f.sourceLabel == group[0].item.sourceLabel
    && f.postCount == |f.posts| == |group|
    && (forall m :: 0 <= m < |group| ==>
          f.posts[m] == Post(group[m].item.id, group[m].item.content, group[m].item.publishedAt))
    && TaggedNewestFirst(loc, group)
  }

  lemma {:induction false} PostsInOrder(group: Group)
    ensures forall m :: 0 <= m < |group| ==>
      PostsOf(group)[m] == Post(group[m].item.id, group[m].item.content, group[m].item.publishedAt)
  {
    if group != [] { PostsInOrder(group[..|group| - 1]); }
  }

  lemma {:induction false} BuildItemsAt(groups: seq<Group>, k: nat)
    requires NoneEmpty(groups) && k < |groups|
    ensures |BuildItems(groups)| == |groups| && BuildItems(groups)[k] == BuildItem(groups[k])
  {
    ItemsCountPosts(groups);
    if k < |groups| - 1 {
      BuildItemsAt(groups[..|groups| - 1], k);
    }
  }

  /** Every item of the finished feed presents a burst of input items of one lane, relay, author and place. */
  lemma FeedItemShowsLatest(loc: Locale, toNpub: string -> string, remoteItems: seq<Item>,
                            followedPubkeys: seq<string>, k: nat)
    returns (group: Group)
    requires loc.Lawful() && k < |Feed(loc, toNpub, remoteItems, followedPubkeys)|
    ensures Presents(loc, Feed(loc, toNpub, remoteItems, followedPubkeys)[k], group)
    ensures IsBurst(loc, group)
    ensures forall x :: x in group ==> x in TagAll(FollowedSet(toNpub, followedPubkeys), toNpub, remoteItems)
  {
    hide Feed, TagAll, FollowedSet, Sort, Groups, Flatten, Together, TaggedNewestFirst, MayPrecede, PostsOf;
    var tagged := TagAll(FollowedSet(toNpub, followedPubkeys), toNpub, remoteItems);
    var sorted := Sort(tagged, TaggedByTime(loc));
    group := FeedGroup(loc, toNpub, remoteItems, followedPubkeys, k);
    SortedIsNewestFirst(loc, tagged);
    GroupOfSorted(loc, sorted, group);
    PostsInOrder(group);
    forall x | x in group ensures x in tagged {
      assert x in multiset(sorted);
    }
  }

  /** A group of a time-sorted list is newest first, and consists of items of the list. */
  lemma GroupOfSorted(loc: Locale, sorted: seq<Tagged>, group: Group)
    requires TaggedNewestFirst(loc, sorted) && group in Groups(loc, sorted)
    ensures TaggedNewestFirst(loc, group) && IsBurst(loc, group)
    ensures forall x :: x in group ==> x in sorted
  {
    hide TaggedNewestFirst, MayPrecede, Groups, Flatten, Together;
    var groups := Groups(loc, sorted);
    GroupsAreMaximalBursts(loc, sorted);
    var g :| 0 <= g < |groups| && groups[g] == group;
    GroupNewestFirst(loc, groups, g);
    GroupIsSlice(groups, g);
    SliceMembers(sorted, StartOf(groups, g), group);
  }

  lemma SliceMembers(flat: seq<Tagged>, start: nat, slice: seq<Tagged>)
    requires start + |slice| <= |flat| && flat[start..start + |slice|] == slice
    ensures forall x :: x in slice ==> x in flat
  {
  }

  /** The group a feed item is built from. */
  lemma FeedGroup(loc: Locale, toNpub: string -> string, remoteItems: seq<Item>, followedPubkeys: seq<string>, k: nat)
    returns (group: Group)
    requires k < |Feed(loc, toNpub, remoteItems, followedPubkeys)|
    ensures var tagged := TagAll(FollowedSet(toNpub, followedPubkeys), toNpub, remoteItems);
      group in Groups(loc, Sort(tagged, TaggedByTime(loc)))
    ensures group != [] && Feed(loc, toNpub, remoteItems, followedPubkeys)[k] == BuildItem(group)
  {
    hide Rank, Groups, Sort, BuildItem;
    var followed := FollowedSet(toNpub, followedPubkeys);
    var ranked := RankedGroups(loc, followed, toNpub, remoteItems);
    RankedGroupsNotEmpty(loc, followed, toNpub, remoteItems);
    ItemsCountPosts(ranked);
    BuildItemsAt(ranked, k);
    group := ranked[k];
    RankedAreGroups(loc, Groups(loc, Sort(TagAll(followed, toNpub, remoteItems), TaggedByTime(loc))), group);
  }

  lemma RankedLane(loc: Locale, groups: seq<Group>, lane: Lane, g: Group)
    requires g in RankLane(loc, groups, lane)
    ensures InLane(g, lane)
  {
    PageSorterPicksMembers(loc);
    PagesFromGroups(PageSorter(loc), LaneGroups(groups, lane), PageCount(LaneGroups(groups, lane)), g);
    LaneMembers(groups, lane, g);
  }

  /** The "For You" lane comes before the "Following" lane. */
  lemma ForYouFirst(loc: Locale, groups: seq<Group>, i: nat, j: nat)
    requires i < |Rank(loc, groups)| && j < |Rank(loc, groups)|
    requires InLane(Rank(loc, groups)[i], ForYou) && InLane(Rank(loc, groups)[j], Following)
    ensures i < j
  {
    hide RankLane;
    var forYou, following := RankLane(loc, groups, ForYou), RankLane(loc, groups, Following);
    if i >= |forYou| {
      assert following[i - |forYou|] == Rank(loc, groups)[i];
      RankedLane(loc, groups, Following, Rank(loc, groups)[i]);
    }
    if j < |forYou| {
      assert forYou[j] == Rank(loc, groups)[j];
      RankedLane(loc, groups, ForYou, Rank(loc, groups)[j]);
    }
  }
}
