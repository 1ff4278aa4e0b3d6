/**
 The finished pulse feed: lanes, time order, bursts, ranking and presentation, from the remote items
 and the followed keys to the list the client shows.
 */
module PulseFeedItems {
  import opened PulseFeed
  import opened PulseFeedLaws
  import opened Sequences
  import opened Sorting
  import opened Text
  import opened Timestamps

  /** The normalised, non-empty followed keys. */
  function FollowedSet(toNpub: string -> string, followedPubkeys: seq<string>): set<string> {
    set i | 0 <= i < |followedPubkeys| && Trim(toNpub(followedPubkeys[i])) != "" :: Trim(toNpub(followedPubkeys[i]))
  }

  /** No ranked group is empty, so every one has a first item to present. */
  lemma RankedGroupsNotEmpty(loc: Locale, followed: set<string>, toNpub: string -> string, items: seq<Item>)
    ensures NoneEmpty(RankedGroups(loc, followed, toNpub, items))
  {
    var sorted := Sort(TagAll(followed, toNpub, items), TaggedByTime(loc));
    var groups := Groups(loc, sorted);
    GroupsAreMaximalBursts(loc, sorted);
    forall k | 0 <= k < |Rank(loc, groups)| ensures Rank(loc, groups)[k] != [] {
      RankedAreGroups(loc, groups, Rank(loc, groups)[k]);
    }
  }

  /** The finished feed. */
  function Feed(loc: Locale, toNpub: string -> string, remoteItems: seq<Item>,
                followedPubkeys: seq<string>): seq<FeedItem>
  {
    var followed := FollowedSet(toNpub, followedPubkeys);
    RankedGroupsNotEmpty(loc, followed, toNpub, remoteItems);
    BuildItems(RankedGroups(loc, followed, toNpub, remoteItems))
  }

  /** The set of followed keys, as the client collects it. */
  method CollectFollowed(toNpub: string -> string, followedPubkeys: seq<string>) returns (followed: set<string>)
    ensures followed == FollowedSet(toNpub, followedPubkeys)
  {
    followed := {};
    for i := 0 to |followedPubkeys|
      invariant followed == FollowedSet(toNpub, followedPubkeys[..i])
    {
      var key := Trim(toNpub(followedPubkeys[i]));
      FollowedOneMore(toNpub, followedPubkeys, i);
      if key != "" {
        followed := followed + {key};
      }
    }
    assert followedPubkeys[..|followedPubkeys|] == followedPubkeys;
  }

  lemma FollowedOneMore(toNpub: string -> string, keys: seq<string>, i: nat)
    requires i < |keys|
    ensures var key := Trim(toNpub(keys[i]));
      FollowedSet(toNpub, keys[..i + 1]) == FollowedSet(toNpub, keys[..i]) + (if key != "" then {key} else {})
  {
    var before, after, key := FollowedSet(toNpub, keys[..i]), FollowedSet(toNpub, keys[..i + 1]), Trim(toNpub(keys[i]));
    assert keys[..i + 1][i] == keys[i];
    forall t ensures t in after <==> t in before || (t == key && key != "") {
      if t in before {
        var k :| 0 <= k < i && Trim(toNpub(keys[..i][k])) != "" && t == Trim(toNpub(keys[..i][k]));
        assert keys[..i + 1][k] == keys[k];
      }
      if t in after {
        var k :| 0 <= k < i + 1 && Trim(toNpub(keys[..i + 1][k])) != "" && t == Trim(toNpub(keys[..i + 1][k]));
        if k < i { assert keys[..i][k] == keys[k]; }
      }
    }
  }

  method BuildPulseFeedItems(loc: Locale, toNpub: string -> string, remoteItems: seq<Item>,
                             followedPubkeys: seq<string>)
    returns (feed: seq<FeedItem>)
    ensures feed == Feed(loc, toNpub, remoteItems, followedPubkeys)
  {
    hide NoneEmpty, FollowedSet, LaneOf, Sort, Groups, Rank, BuildItems;
    var followed := CollectFollowed(toNpub, followedPubkeys);
    var tagged: seq<Tagged> := [];
    for i := 0 to |remoteItems|
      invariant tagged == TagAll(followed, toNpub, remoteItems[..i])
    {
      TakeSnoc(remoteItems, i);
      tagged := tagged + [Tagged(remoteItems[i], LaneOf(followed, toNpub, remoteItems[i]))];
    }
    assert remoteItems[..|remoteItems|] == remoteItems;
    var aggregated := BuildPulseFeedGroups(loc, Sort(tagged, TaggedByTime(loc)));
    var ranked := RankPulseFeedGroups(loc, aggregated);
    RankedGroupsNotEmpty(loc, followed, toNpub, remoteItems);
    feed := Present(ranked);
  }

  /** One feed item per group. */
  method Present(groups: seq<Group>) returns (feed: seq<FeedItem>)
    requires NoneEmpty(groups)
    ensures feed == BuildItems(groups)
  {
    feed := [];
    for i := 0 to |groups|
      invariant feed == BuildItems(groups[..i])
    {
      TakeSnoc(groups, i);
      feed := feed + [BuildItem(groups[i])];
    }
    assert groups[..|groups|] == groups;
  }

  /** Conservation: the posts of the finished feed are a permutation of the posts that went in, and
      every feed item counts its own. */
  lemma FeedConservesPosts(loc: Locale, toNpub: string -> string, remoteItems: seq<Item>, followedPubkeys: seq<string>)
    ensures var feed := Feed(loc, toNpub, remoteItems, followedPubkeys);
      && multiset(PostsOfItems(feed)) == multiset(PostsIn(remoteItems))
      && forall k :: 0 <= k < |feed| ==> feed[k].postCount == |feed[k].posts| >= 1
  {
    hide NoneEmpty, FollowedSet, TagAll, LaneOf, Sort, Groups, Rank, BuildItems, Flatten, PostsOf, PostsOfGroups,
      PostsOfItems, PostsIn;
    var followed := FollowedSet(toNpub, followedPubkeys);
    var tagged := TagAll(followed, toNpub, remoteItems);
    var sorted := Sort(tagged, TaggedByTime(loc));
    var groups := Groups(loc, sorted);
    RankedGroupsNotEmpty(loc, followed, toNpub, remoteItems);
    GroupsAreMaximalBursts(loc, sorted);
    ItemsCarryPosts(Rank(loc, groups));
    ItemsCountPosts(Rank(loc, groups));
    RankConserves(loc, groups);
    PostsOfFlatten(groups);
    PostsOfSort(tagged, TaggedByTime(loc));
    PostsOfTagged(followed, toNpub, remoteItems);
  }

  lemma {:induction false} ItemsCountPosts(groups: seq<Group>)
    requires NoneEmpty(groups)
    ensures |BuildItems(groups)| == |groups|
    ensures forall k :: 0 <= k < |groups| ==> BuildItems(groups)[k].postCount == |BuildItems(groups)[k].posts| >= 1
  {
    if groups != [] { ItemsCountPosts(groups[..|groups| - 1]); }
  }
}
