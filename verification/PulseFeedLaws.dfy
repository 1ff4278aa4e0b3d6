/**
 What the pulse feed promises: deduplication is absorbing, no post is lost or invented, bursts hang
 together, and ranking never moves a group out of its page.
 */
module PulseFeedLaws {
  import opened Arithmetic
  import opened Sequences
  import opened Sorting
  import opened Timestamps
  import opened PulseFeed

  // ----- Deduplication -----

  ghost predicate NoClash(items: seq<Item>) {
    forall i, j :: 0 <= i < j < |items| ==> !Clash(items[i], items[j])
  }

  lemma {:induction false} ExtendNoClash(kept: seq<Item>, items: seq<Item>)
    requires NoClash(kept)
    ensures NoClash(Extend(kept, items))
  {
    if items != [] { ExtendNoClash(kept, items[..|items| - 1]); }
  }

  lemma {:induction false} ExtendAppend(kept: seq<Item>, a: seq<Item>, b: seq<Item>)
    ensures Extend(kept, a + b) == Extend(Extend(kept, a), b)
  {
    if b == [] {
      assert a + b == a;
    } else {
      ExtendAppend(kept, a, b[..|b| - 1]);
      assert (a + b)[..|a + b| - 1] == a + b[..|b| - 1];
    }
  }

  lemma {:induction false} ExtendNoClashKeepsAll(items: seq<Item>)
    requires NoClash(items)
    ensures Extend([], items) == items
  {
    hide Clash;
    if items != [] { ExtendNoClashKeepsAll(items[..|items| - 1]); }
  }

  lemma ClashesMember(kept: seq<Item>, x: Item)
    ensures ClashesWith(kept, x) <==> exists k :: k in kept && Clash(k, x)
  {
    if k :| k in kept && Clash(k, x) {
      var i :| 0 <= i < |kept| && kept[i] == k;
    }
  }

  lemma ClashesReordered(a: seq<Item>, b: seq<Item>, x: Item)
    requires multiset(a) == multiset(b)
    ensures ClashesWith(a, x) <==> ClashesWith(b, x)
  {
    ClashesMember(a, x);
    ClashesMember(b, x);
    forall k ensures k in a <==> k in b {
      assert k in multiset(a) <==> k in multiset(b);
    }
  }

  lemma SnocBoth<T>(a: seq<T>, ea: seq<T>, x: T)
    requires a <= ea
    ensures a <= ea + [x] && (ea + [x])[|a|..] == ea[|a|..] + [x]
  {
  }

  /** What is added depends on the kept items only as a collection. */
  lemma {:induction false} ExtendSameAdditions(a: seq<Item>, b: seq<Item>, items: seq<Item>)
    requires multiset(a) == multiset(b)
    ensures a <= Extend(a, items) && b <= Extend(b, items)
    ensures Extend(a, items)[|a|..] == Extend(b, items)[|b|..]
    ensures multiset(Extend(a, items)) == multiset(Extend(b, items))
  {
    if items != [] {
      var init, last := items[..|items| - 1], items[|items| - 1];
      ExtendSameAdditions(a, b, init);
      var ea, eb := Extend(a, init), Extend(b, init);
      ClashesReordered(ea, eb, last);
      SnocBoth(a, ea, last);
      SnocBoth(b, eb, last);
    }
  }

  lemma {:induction false} FlattenAppend<T>(a: seq<seq<T>>, b: seq<seq<T>>)
    ensures Flatten(a + b) == Flatten(a) + Flatten(b)
  {
    if b == [] {
      assert a + b == a;
    } else {
      var init, last := b[..|b| - 1], b[|b| - 1];
      FlattenAppend(a, init);
      assert a + b == (a + init) + [last];
      assert (a + b)[..|a + b| - 1] == a + init;
      assert Flatten(a) + (Flatten(init) + last) == Flatten(a) + Flatten(init) + last;
    }
  }

  lemma FlattenOne<T>(a: seq<T>)
    ensures Flatten([a]) == a
  {
    assert [a][..0] == [];
  }

  lemma ByTimeIsTotalPreorder(loc: Locale)
    requires loc.Lawful()
    ensures TotalPreorder(ByTime(loc))
  {
    DescendingIsTotalPreorder(loc);
    forall x: Item, y: Item, z: Item | ByTime(loc)(x, y) && ByTime(loc)(y, z) ensures ByTime(loc)(x, z) {
      TransitiveOrder(loc, x.publishedAt, y.publishedAt, z.publishedAt);
    }
  }

  lemma PermutationNoClash(a: seq<Item>, b: seq<Item>)
    requires NoClash(a) && multiset(a) == multiset(b)
    ensures NoClash(b)
  {
    forall i, j | 0 <= i < j < |b| ensures !Clash(b[i], b[j]) {
      assert b == b[..j] + [b[j]] + b[j + 1..];
      assert b[i] in b[..j];
      assert multiset(b)[b[j]] >= 1 && (b[i] == b[j] ==> multiset(b)[b[j]] >= 2);
      assert b[i] in multiset(a) && b[j] in multiset(a);
      var p :| 0 <= p < |a| && a[p] == b[i];
      var q :| 0 <= q < |a| && a[q] == b[j];
      if p == q { NoClashOnce(a, b[j]); }
    }
  }

  lemma {:induction false} NoClashOnce(a: seq<Item>, x: Item)
    requires NoClash(a)
    ensures multiset(a)[x] <= 1
  {
    if a != [] {
      var init, last := a[..|a| - 1], a[|a| - 1];
      NoClashOnce(init, x);
      assert a == init + [last];
      if x == last {
        forall i | 0 <= i < |init| ensures init[i] != x {
          assert !Clash(a[i], a[|a| - 1]);
        }
      }
    }
  }

  /** No two items of a merged feed share a non-empty id or a fallback key. */
  lemma MergedHasNoClash(loc: Locale, collections: seq<seq<Item>>)
    ensures NoClash(Merge(loc, collections))
  {
    ExtendNoClash([], Flatten(collections));
    PermutationNoClash(Extend([], Flatten(collections)), Merge(loc, collections));
  }

  lemma ExtendKeepsPrefix(items: seq<Item>, i: nat, k: Item)
    requires i <= |items| && k in Extend([], items[..i])
    ensures k in Extend([], items) && k in items[..i]
  {
    var earlier := Extend([], items[..i]);
    ExtendAppend([], items[..i], items[i..]);
    assert items[..i] + items[i..] == items;
    ExtendSameAdditions(earlier, earlier, items[i..]);
    assert k in Extend([], items)[..|earlier|];
    ExtendMembers([], items[..i], k);
  }

  lemma MergeMembers(loc: Locale, collections: seq<seq<Item>>, k: Item)
    ensures k in Merge(loc, collections) <==> k in Extend([], Flatten(collections))
  {
    assert k in multiset(Merge(loc, collections)) <==> k in multiset(Extend([], Flatten(collections)));
  }

  /** An item of the input is in the feed, or clashes with an earlier item that is. */
  lemma DroppedClashesWithEarlier(loc: Locale, collections: seq<seq<Item>>, i: nat)
    requires i < |Flatten(collections)|
    ensures var items, feed := Flatten(collections), Merge(loc, collections);
      items[i] in feed || exists k :: k in items[..i] && k in feed && Clash(k, items[i])
  {
    var items := Flatten(collections);
    var earlier := Extend([], items[..i]);
    assert items[..i + 1][..i] == items[..i];
    if ClashesWith(earlier, items[i]) {
      ClashesMember(earlier, items[i]);
      var k :| k in earlier && Clash(k, items[i]);
      ExtendKeepsPrefix(items, i, k);
      MergeMembers(loc, collections, k);
    } else {
      assert Extend([], items[..i + 1]) == earlier + [items[i]];
      ExtendKeepsPrefix(items, i + 1, items[i]);
      MergeMembers(loc, collections, items[i]);
    }
  }

  lemma {:induction false} ExtendMembers(kept: seq<Item>, items: seq<Item>, x: Item)
    requires x in Extend(kept, items)
    ensures x in kept || x in items
  {
    if items != [] && x in Extend(kept, items[..|items| - 1]) { ExtendMembers(kept, items[..|items| - 1], x); }
  }

  /** The items that extending adds. */
  function Added(kept: seq<Item>, rest: seq<Item>): seq<Item> {
    if |kept| <= |Extend(kept, rest)| then Extend(kept, rest)[|kept|..] else []
  }

  lemma ExtendAdds(kept: seq<Item>, rest: seq<Item>)
    ensures Extend(kept, rest) == kept + Added(kept, rest)
  {
    ExtendSameAdditions(kept, kept, rest);
  }

  /** Extending a reordering of the kept items adds the same items, in the same order. */
  lemma ExtendReordered(kept: seq<Item>, reordered: seq<Item>, rest: seq<Item>)
    requires NoClash(reordered) && multiset(kept) == multiset(reordered)
    ensures Extend([], reordered + rest) == reordered + Added(kept, rest)
  {
    ExtendAppend([], reordered, rest);
    ExtendNoClashKeepsAll(reordered);
    ExtendAdds(reordered, rest);
    ExtendSameAdditions(reordered, kept, rest);
  }

  /** Deduplication is absorbing: merging a merged feed with more collections gives exactly the feed
      of all of them. */
  lemma MergeAbsorbs(loc: Locale, first: seq<seq<Item>>, more: seq<seq<Item>>)
    requires loc.Lawful()
    ensures Merge(loc, [Merge(loc, first)] + more) == Merge(loc, first + more)
  {
    var kept, merged, rest := Extend([], Flatten(first)), Merge(loc, first), Flatten(more);
    FlattenAppend([merged], more);
    FlattenOne(merged);
    FlattenAppend(first, more);
    ExtendAppend([], Flatten(first), rest);
    MergedHasNoClash(loc, first);
    ExtendReordered(kept, merged, rest);
    ExtendAdds(kept, rest);
    ByTimeIsTotalPreorder(loc);
    SortPrefixFirst(kept, Added(kept, rest), ByTime(loc));
  }

  // ----- Bursts -----

  /** Two items of one lane, relay, author and place, published at most 45 minutes apart. */
  predicate Together(loc: Locale, a: Tagged, b: Tagged) {
    && a.lane == b.lane && a.item.relayUrl == b.item.relayUrl
    && a.item.author == b.item.author && a.item.geohash == b.item.geohash
    && Readable(loc, a.item.publishedAt) && Readable(loc, b.item.publishedAt)
    && -2700000 <= loc.parse(a.item.publishedAt).value - loc.parse(b.item.publishedAt).value <= 2700000
  }

  lemma AggregateIsTogether(loc: Locale, a: Tagged, b: Tagged)
    ensures ShouldAggregate(loc, a, b) <==> Together(loc, a, b)
  {
  }

  /** A burst: every member belongs with its first one. */
  ghost predicate IsBurst(loc: Locale, group: Group) {
    group != [] && forall i :: 1 <= i < |group| ==> Together(loc, group[0], group[i])
  }

  /** The next group starts where the previous one could not be continued. */
  ghost predicate Separate(loc: Locale, group: Group, next: Group) {
    group != [] && next != [] && !Together(loc, group[0], next[0])
  }

  ghost predicate Separated(loc: Locale, groups: seq<Group>) {
    forall k :: 0 <= k < |groups| - 1 ==> Separate(loc, groups[k], groups[k + 1])
  }

  lemma FlattenSnoc<T>(groups: seq<seq<T>>, g: seq<T>)
    ensures Flatten(groups + [g]) == Flatten(groups) + g
  {
    assert (groups + [g])[..|groups|] == groups;
  }

  lemma {:induction false} GroupingKeepsItems(loc: Locale, items: seq<Tagged>)
    ensures var g := GroupUpTo(loc, items);
      && Flatten(g.groups) + g.current == items
      && (g.current == [] ==> items == [] && g.groups == [])
  {
    hide ShouldAggregate;
    if items != [] {
      var g, x := GroupUpTo(loc, items[..|items| - 1]), items[|items| - 1];
      GroupingKeepsItems(loc, items[..|items| - 1]);
      InitAndLast(items);
      FlattenSnoc(g.groups, g.current);
      AppendSnoc(Flatten(g.groups), g.current, x);
    }
  }

  lemma {:induction false} GroupingIsBursts(loc: Locale, items: seq<Tagged>)
    ensures var g := GroupUpTo(loc, items);
      && (forall k :: 0 <= k < |g.groups| ==> IsBurst(loc, g.groups[k]))
      && (g.current != [] ==> IsBurst(loc, g.current))
  {
    if items != [] {
      var g, x := GroupUpTo(loc, items[..|items| - 1]), items[|items| - 1];
      GroupingIsBursts(loc, items[..|items| - 1]);
      GroupingKeepsItems(loc, items[..|items| - 1]);
      if g.current != [] { AggregateIsTogether(loc, g.current[0], x); }
    }
  }

  lemma {:induction false} GroupingSeparates(loc: Locale, items: seq<Tagged>)
    ensures var g := GroupUpTo(loc, items); g.current != [] ==> Separated(loc, g.groups + [g.current])
  {
    if items != [] {
      var g, x := GroupUpTo(loc, items[..|items| - 1]), items[|items| - 1];
      GroupingSeparates(loc, items[..|items| - 1]);
      GroupingKeepsItems(loc, items[..|items| - 1]);
      if g.current != [] { AggregateIsTogether(loc, g.current[0], x); }
      if g.current == [] || ShouldAggregate(loc, g.current[0], x) {
        SeparatedSameHead(loc, g.groups, g.current, g.current + [x]);
      } else {
        SeparatedOneMore(loc, g.groups + [g.current], [x]);
      }
    }
  }

  lemma SeparatedSameHead(loc: Locale, groups: seq<Group>, a: Group, b: Group)
    requires b != [] && (a != [] ==> a[0] == b[0] && Separated(loc, groups + [a])) && (a == [] ==> groups == [])
    ensures Separated(loc, groups + [b])
  {
    if a != [] {
      forall k | 0 <= k < |groups| ensures Separate(loc, (groups + [b])[k], (groups + [b])[k + 1]) {
        assert Separate(loc, (groups + [a])[k], (groups + [a])[k + 1]);
      }
    }
  }

  lemma SeparatedOneMore(loc: Locale, groups: seq<Group>, next: Group)
    requires groups != [] && Separated(loc, groups) && Separate(loc, groups[|groups| - 1], next)
    ensures Separated(loc, groups + [next])
  {
    forall k | 0 <= k < |groups| ensures Separate(loc, (groups + [next])[k], (groups + [next])[k + 1]) {
      if k < |groups| - 1 { assert Separate(loc, groups[k], groups[k + 1]); }
    }
  }

  /** Grouping cuts the list into consecutive bursts, each as long as it can be: all members share
      lane, relay, author and place with the first one and lie within 45 minutes of it, and the item
      that starts the next burst does not. */
  lemma GroupsAreMaximalBursts(loc: Locale, items: seq<Tagged>)
    ensures var groups := Groups(loc, items);
      && Flatten(groups) == items
      && (forall k :: 0 <= k < |groups| ==> IsBurst(loc, groups[k]))
      && Separated(loc, groups)
  {
    var g := GroupUpTo(loc, items);
    GroupingKeepsItems(loc, items);
    GroupingIsBursts(loc, items);
    GroupingSeparates(loc, items);
    if g.current != [] { FlattenSnoc(g.groups, g.current); }
  }

  // ----- Ranking -----

  lemma CompareRankingTransitive(loc: Locale, x: Group, y: Group, z: Group)
    requires loc.Lawful() && ByRank(loc)(x, y) && ByRank(loc)(y, z)
    ensures ByRank(loc)(x, z)
  {
    var a, b, c := HeadTime(x), HeadTime(y), HeadTime(z);
    DescendingIsTotalPreorder(loc);
    if Score(x) == Score(y) == Score(z) {
      TransitiveOrder(loc, a, b, c);
      if CompareDescending(loc, a, c) == 0 {
        if CompareDescending(loc, a, b) < 0 { BothWays(loc, a, b, c); }
        if CompareDescending(loc, b, c) < 0 { BothWays(loc, b, c, a); }
      }
    }
  }

  /** Nothing strictly newer than b can tie with something b is no newer than. */
  lemma BothWays(loc: Locale, a: string, b: string, c: string)
    requires loc.Lawful() && CompareDescending(loc, a, b) < 0 && NoNewer(loc, b, c)
    ensures CompareDescending(loc, c, a) > 0
  {
    DescendingIsTotalPreorder(loc);
    if NoNewer(loc, c, a) { TransitiveOrder(loc, b, c, a); }
  }

  lemma ByRankIsTotalPreorder(loc: Locale)
    requires loc.Lawful()
    ensures TotalPreorder(ByRank(loc))
  {
    forall x: Group, y: Group ensures ByRank(loc)(x, y) || ByRank(loc)(y, x) {
      DescendingIsTotalPreorder(loc);
    }
    forall x: Group, y: Group, z: Group | ByRank(loc)(x, y) && ByRank(loc)(y, z) ensures ByRank(loc)(x, z) {
      CompareRankingTransitive(loc, x, y, z);
    }
  }

  /** Where page k starts, or the end of the lane. */
  function PageStart(n: nat, k: nat): nat {
    if PAGE_SIZE * k <= n then PAGE_SIZE * k else n
  }

  lemma PageSlice(groups: seq<Group>, k: nat)
    ensures PageStart(|groups|, k) <= PageStart(|groups|, k + 1)
    ensures PageOf(groups, k) == groups[PageStart(|groups|, k)..PageStart(|groups|, k + 1)]
  {
    if PAGE_SIZE * k < |groups| { PageIsSlice(groups, k); }
  }

  ghost predicate KeepsLength(sorter: seq<Group> -> seq<Group>) {
    forall page {:trigger sorter(page)} :: |sorter(page)| == |page|
  }

  lemma {:induction false} PagesBefore(sorter: seq<Group> -> seq<Group>, groups: seq<Group>, k: nat)
    requires KeepsLength(sorter)
    ensures |RankPages(sorter, groups, k)| == PageStart(|groups|, k)
  {
    if k > 0 {
      PagesBefore(sorter, groups, k - 1);
      PageSlice(groups, k - 1);
    }
  }

  lemma {:induction false} LaterPagesKeep(sorter: seq<Group> -> seq<Group>, groups: seq<Group>, k: nat, n: nat)
    requires k <= n
    ensures RankPages(sorter, groups, k) <= RankPages(sorter, groups, n)
  {
    if k < n { LaterPagesKeep(sorter, groups, k, n - 1); }
  }

  lemma PageOfRanked(sorter: seq<Group> -> seq<Group>, groups: seq<Group>, k: nat, n: nat)
    requires KeepsLength(sorter) && k < n
    ensures PageStart(|groups|, k) <= PageStart(|groups|, k + 1) <= |RankPages(sorter, groups, n)|
    ensures RankPages(sorter, groups, n)[PageStart(|groups|, k)..PageStart(|groups|, k + 1)]
         == sorter(PageOf(groups, k))
  {
    var before, upTo := RankPages(sorter, groups, k), RankPages(sorter, groups, k + 1);
    PagesBefore(sorter, groups, k);
    PagesBefore(sorter, groups, k + 1);
    LaterPagesKeep(sorter, groups, k + 1, n);
    assert upTo[|before|..] == sorter(PageOf(groups, k));
    assert RankPages(sorter, groups, n)[..|upTo|] == upTo;
  }

  lemma {:induction false} ScoreIsAdditive(a: Group, b: Group)
    ensures Score(a + b) == Score(a) + Score(b)
  {
    if b == [] {
      AppendNothing(a);
    } else {
      ScoreIsAdditive(a, b[..|b| - 1]);
      DropLastOfAppend(a, b);
    }
  }

  /** A group scores what its items score, and an item the sum of its four numbers. */
  lemma ScoreOfOne(x: Tagged)
    ensures Score([x]) == x.item.zapCount + x.item.engagementScore + x.item.followGraphScore + x.item.followerCount
  {
    assert [x][..0] == [];
  }

  /** The rank of groups: the higher score first, then the newer first item, then the smaller id. */
  predicate RankedBefore(loc: Locale, a: Group, b: Group) {
    var (timeA, idA) := if a == [] then ("", "") else (a[0].item.publishedAt, a[0].item.id);
    var (timeB, idB) := if b == [] then ("", "") else (b[0].item.publishedAt, b[0].item.id);
    if Score(a) != Score(b) then Score(a) > Score(b)
    else if MayPrecede(loc, timeA, timeB) && MayPrecede(loc, timeB, timeA) then loc.collate(idA, idB) <= 0
    else MayPrecede(loc, timeA, timeB)
  }

  lemma ByRankIsRankedBefore(loc: Locale, a: Group, b: Group)
    requires loc.Lawful()
    ensures ByRank(loc)(a, b) <==> RankedBefore(loc, a, b)
  {
    hide Score, CompareDescending, MayPrecede;
    DescendingIsTotalPreorder(loc);
    DescendingIsNewestFirst(loc, HeadTime(a), HeadTime(b));
    DescendingIsNewestFirst(loc, HeadTime(b), HeadTime(a));
  }

  /** Bounded reordering: the groups at positions 30 k to 30 k + 29 of a ranked lane are a permutation
      of the groups at the same positions of the chronological lane, sorted by rank. Nothing crosses a
      page boundary. */
  lemma PagesAreSortedPermutations(loc: Locale, groups: seq<Group>, lane: Lane, k: nat)
    requires loc.Lawful() && 30 * k < |LaneGroups(groups, lane)|
    ensures var ranked, chronological := RankLane(loc, groups, lane), LaneGroups(groups, lane);
      var start, end := 30 * k, Min(30 * k + 30, |chronological|);
      && |ranked| == |chronological|
      && multiset(ranked[start..end]) == multiset(chronological[start..end])
      && forall i, j :: start <= i < j < end ==> RankedBefore(loc, ranked[i], ranked[j])
  {
    hide RankedBefore, ByRank, RankLane, LaneGroups;
    var ranked, chronological := RankLane(loc, groups, lane), LaneGroups(groups, lane);
    var start, end := 30 * k, Min(30 * k + 30, |chronological|);
    PageIsSortedPermutation(loc, groups, lane, k);
    forall i, j | start <= i < j < end ensures RankedBefore(loc, ranked[i], ranked[j]) {
      SliceAt(ranked, start, end, i);
      SliceAt(ranked, start, end, j);
      ByRankIsRankedBefore(loc, ranked[i], ranked[j]);
    }
  }

  lemma PageIsSortedPermutation(loc: Locale, groups: seq<Group>, lane: Lane, k: nat)
    requires loc.Lawful() && PAGE_SIZE * k < |LaneGroups(groups, lane)|
    ensures var ranked, chronological := RankLane(loc, groups, lane), LaneGroups(groups, lane);
      var start, end := PAGE_SIZE * k, PageStart(|chronological|, k + 1);
      && |ranked| == |chronological| && start < end
      && multiset(ranked[start..end]) == multiset(chronological[start..end])
      && Sorted(ranked[start..end], ByRank(loc))
  {
    var chronological, sorter := LaneGroups(groups, lane), PageSorter(loc);
    PageIsSlice(chronological, k);
    PagesBefore(sorter, chronological, PageCount(chronological));
    PageOfRanked(sorter, chronological, k, PageCount(chronological));
    PageSlice(chronological, k);
    ByRankIsTotalPreorder(loc);
    SortSorted(PageOf(chronological, k), ByRank(loc));
  }

  // ----- Conservation -----

  /** All posts of some groups, group by group. */
  function PostsOfGroups(groups: seq<Group>): seq<Post> {
    if groups == [] then [] else PostsOfGroups(groups[..|groups| - 1]) + PostsOf(groups[|groups| - 1])
  }

  function PostsOfItems(items: seq<FeedItem>): seq<Post> {
    if items == [] then [] else PostsOfItems(items[..|items| - 1]) + items[|items| - 1].posts
  }

  function PostsIn(items: seq<Item>): seq<Post> {
    if items == [] then []
    else
      var x := items[|items| - 1];
      PostsIn(items[..|items| - 1]) + [Post(x.id, x.content, x.publishedAt)]
  }

  lemma {:induction false} PostsOfInsert(s: Group, x: Tagged, leq: (Tagged, Tagged) -> bool)
    ensures multiset(PostsOf(Insert(s, x, leq))) == multiset(PostsOf(s)) + multiset{PostOf(x)}
  {
    if s == [] || leq(s[|s| - 1], x) {
      assert (s + [x])[..|s|] == s;
    } else {
      var inserted := Insert(s[..|s| - 1], x, leq);
      PostsOfInsert(s[..|s| - 1], x, leq);
      assert (inserted + [s[|s| - 1]])[..|inserted|] == inserted;
    }
  }

  lemma {:induction false} PostsOfSort(s: Group, leq: (Tagged, Tagged) -> bool)
    ensures multiset(PostsOf(Sort(s, leq))) == multiset(PostsOf(s))
  {
    if s != [] {
      PostsOfSort(s[..|s| - 1], leq);
      PostsOfInsert(Sort(s[..|s| - 1], leq), s[|s| - 1], leq);
    }
  }

  lemma {:induction false} PostsOfTagged(followed: set<string>, toNpub: string -> string, items: seq<Item>)
    ensures PostsOf(TagAll(followed, toNpub, items)) == PostsIn(items)
  {
    if items != [] {
      var tagged := TagAll(followed, toNpub, items);
      PostsOfTagged(followed, toNpub, items[..|items| - 1]);
      assert tagged[..|tagged| - 1] == TagAll(followed, toNpub, items[..|items| - 1]);
    }
  }

  lemma {:induction false} PostsOfAppend(a: Group, b: Group)
    ensures PostsOf(a + b) == PostsOf(a) + PostsOf(b)
  {
    if b == [] {
      assert a + b == a;
    } else {
      PostsOfAppend(a, b[..|b| - 1]);
      assert (a + b)[..|a + b| - 1] == a + b[..|b| - 1];
    }
  }

  lemma {:induction false} PostsOfFlatten(groups: seq<Group>)
    ensures PostsOf(Flatten(groups)) == PostsOfGroups(groups)
  {
    if groups != [] {
      PostsOfFlatten(groups[..|groups| - 1]);
      PostsOfAppend(Flatten(groups[..|groups| - 1]), groups[|groups| - 1]);
    }
  }

  lemma {:induction false} PostsOfGroupsAppend(a: seq<Group>, b: seq<Group>)
    ensures PostsOfGroups(a + b) == PostsOfGroups(a) + PostsOfGroups(b)
  {
    hide PostsOf;
    if b == [] {
      assert a + b == a;
    } else {
      PostsOfGroupsAppend(a, b[..|b| - 1]);
      DropLastOfAppend(a, b);
    }
  }

  lemma {:induction false} PostsOfGroupsInsert(s: seq<Group>, x: Group, leq: (Group, Group) -> bool)
    ensures multiset(PostsOfGroups(Insert(s, x, leq))) == multiset(PostsOfGroups(s)) + multiset(PostsOf(x))
  {
    if s == [] || leq(s[|s| - 1], x) {
      assert (s + [x])[..|s|] == s;
    } else {
      var inserted := Insert(s[..|s| - 1], x, leq);
      PostsOfGroupsInsert(s[..|s| - 1], x, leq);
      assert (inserted + [s[|s| - 1]])[..|inserted|] == inserted;
    }
  }

  lemma {:induction false} PostsOfGroupsSort(s: seq<Group>, leq: (Group, Group) -> bool)
    ensures multiset(PostsOfGroups(Sort(s, leq))) == multiset(PostsOfGroups(s))
  {
    if s != [] {
      PostsOfGroupsSort(s[..|s| - 1], leq);
      PostsOfGroupsInsert(Sort(s[..|s| - 1], leq), s[|s| - 1], leq);
    }
  }

  /** The posts of some groups, in no order. */
  function PostBag(groups: seq<Group>): multiset<Post> {
    multiset(PostsOfGroups(groups))
  }

  lemma PostBagAppend(a: seq<Group>, b: seq<Group>)
    ensures PostBag(a + b) == PostBag(a) + PostBag(b)
  {
    PostsOfGroupsAppend(a, b);
  }

  lemma PostBagUpTo(groups: seq<Group>, start: nat, end: nat)
    requires start <= end <= |groups|
    ensures PostBag(groups[..end]) == PostBag(groups[..start]) + PostBag(groups[start..end])
  {
    SplitAt(groups, start, end);
    PostBagAppend(groups[..start], groups[start..end]);
  }

  ghost predicate KeepsPosts(sorter: seq<Group> -> seq<Group>) {
    forall page {:trigger sorter(page)} :: PostBag(sorter(page)) == PostBag(page)
  }

  lemma PageBag(groups: seq<Group>, k: nat)
    ensures PageStart(|groups|, k) <= PageStart(|groups|, k + 1)
    ensures PostBag(groups[..PageStart(|groups|, k + 1)])
         == PostBag(groups[..PageStart(|groups|, k)]) + PostBag(PageOf(groups, k))
  {
    PageSlice(groups, k);
    PostBagUpTo(groups, PageStart(|groups|, k), PageStart(|groups|, k + 1));
  }

  lemma RankedPageBag(sorter: seq<Group> -> seq<Group>, groups: seq<Group>, k: nat)
    requires KeepsPosts(sorter)
    ensures PostBag(RankPages(sorter, groups, k + 1))
         == PostBag(RankPages(sorter, groups, k)) + PostBag(PageOf(groups, k))
  {
    PostBagAppend(RankPages(sorter, groups, k), sorter(PageOf(groups, k)));
  }

  lemma NoPages(sorter: seq<Group> -> seq<Group>, groups: seq<Group>)
    ensures PostBag(RankPages(sorter, groups, 0)) == PostBag(groups[..PageStart(|groups|, 0)])
  {
    TakeNone(groups);
  }

  lemma NextPage(sorter: seq<Group> -> seq<Group>, groups: seq<Group>, k: nat)
    requires KeepsPosts(sorter)
    requires PostBag(RankPages(sorter, groups, k)) == PostBag(groups[..PageStart(|groups|, k)])
    ensures PostBag(RankPages(sorter, groups, k + 1)) == PostBag(groups[..PageStart(|groups|, k + 1)])
  {
    RankedPageBag(sorter, groups, k);
    PageBag(groups, k);
  }

  lemma {:induction false} RankPagesConserve(sorter: seq<Group> -> seq<Group>, groups: seq<Group>, k: nat)
    requires KeepsPosts(sorter)
    ensures PostBag(RankPages(sorter, groups, k)) == PostBag(groups[..PageStart(|groups|, k)])
  {
    hide PostBag, RankPages, PageStart, KeepsPosts;
    if k == 0 {
      NoPages(sorter, groups);
    } else {
      RankPagesConserve(sorter, groups, k - 1);
      NextPage(sorter, groups, k - 1);
    }
  }

  lemma PageSorterKeepsPosts(loc: Locale)
    ensures KeepsPosts(PageSorter(loc))
  {
    forall page: seq<Group> ensures PostBag(PageSorter(loc)(page)) == PostBag(page) {
      PostsOfGroupsSort(page, ByRank(loc));
    }
  }

  lemma LaneSnoc(groups: seq<Group>, g: Group, lane: Lane)
    ensures LaneGroups(groups + [g], lane)
         == if InLane(g, lane) then LaneGroups(groups, lane) + [g]
            else LaneGroups(groups, lane)
  {
    assert (groups + [g])[..|groups|] == groups;
  }

  lemma PostsOfGroupsSnoc(groups: seq<Group>, g: Group)
    ensures PostsOfGroups(groups + [g]) == PostsOfGroups(groups) + PostsOf(g)
  {
    assert (groups + [g])[..|groups|] == groups;
  }

  lemma LaneBagSnoc(groups: seq<Group>, g: Group, lane: Lane)
    ensures PostBag(LaneGroups(groups + [g], lane))
         == if InLane(g, lane) then PostBag(LaneGroups(groups, lane)) + multiset(PostsOf(g))
            else PostBag(LaneGroups(groups, lane))
  {
    LaneSnoc(groups, g, lane);
    PostsOfGroupsSnoc(LaneGroups(groups, lane), g);
  }

  lemma PostBagSnoc(groups: seq<Group>, g: Group)
    ensures PostBag(groups + [g]) == PostBag(groups) + multiset(PostsOf(g))
  {
    PostsOfGroupsSnoc(groups, g);
  }

  lemma {:induction false} LanesPartition(groups: seq<Group>)
    requires NoneEmpty(groups)
    ensures PostBag(LaneGroups(groups, ForYou)) + PostBag(LaneGroups(groups, Following)) == PostBag(groups)
  {
    if groups != [] {
      var init, last := groups[..|groups| - 1], groups[|groups| - 1];
      LanesPartition(init);
      PartitionSnoc(init, last);
      InitAndLast(groups);
    }
  }

  lemma PartitionSnoc(groups: seq<Group>, g: Group)
    requires g != []
    requires PostBag(LaneGroups(groups, ForYou)) + PostBag(LaneGroups(groups, Following)) == PostBag(groups)
    ensures PostBag(LaneGroups(groups + [g], ForYou)) + PostBag(LaneGroups(groups + [g], Following))
         == PostBag(groups + [g])
  {
    hide PostBag, LaneGroups;
    LaneBagSnoc(groups, g, ForYou);
    LaneBagSnoc(groups, g, Following);
    PostBagSnoc(groups, g);
  }

  lemma RankLaneConserves(loc: Locale, groups: seq<Group>, lane: Lane)
    ensures PostBag(RankLane(loc, groups, lane)) == PostBag(LaneGroups(groups, lane))
  {
    var inLane := LaneGroups(groups, lane);
    PageSorterKeepsPosts(loc);
    RankPagesConserve(PageSorter(loc), inLane, PageCount(inLane));
    assert inLane[..PageStart(|inLane|, PageCount(inLane))] == inLane;
  }

  lemma RankConserves(loc: Locale, groups: seq<Group>)
    requires NoneEmpty(groups)
    ensures PostBag(Rank(loc, groups)) == PostBag(groups)
  {
    RankLaneConserves(loc, groups, ForYou);
    RankLaneConserves(loc, groups, Following);
    PostBagAppend(RankLane(loc, groups, ForYou), RankLane(loc, groups, Following));
    LanesPartition(groups);
  }

  lemma {:induction false} ItemsCarryPosts(groups: seq<Group>)
    requires NoneEmpty(groups)
    ensures PostsOfItems(BuildItems(groups)) == PostsOfGroups(groups)
  {
    if groups != [] {
      var items := BuildItems(groups);
      ItemsCarryPosts(groups[..|groups| - 1]);
      assert items[..|items| - 1] == BuildItems(groups[..|groups| - 1]);
    }
  }

  /** Every ranked group is one of the groups, so none is empty. */
  lemma RankedAreGroups(loc: Locale, groups: seq<Group>, g: Group)
    requires g in Rank(loc, groups)
    ensures g in groups
  {
    var lane := if g in RankLane(loc, groups, ForYou) then ForYou else Following;
    PageSorterPicksMembers(loc);
    PagesFromGroups(PageSorter(loc), LaneGroups(groups, lane), PageCount(LaneGroups(groups, lane)), g);
    LaneMembers(groups, lane, g);
  }

  lemma {:induction false} LaneMembers(groups: seq<Group>, lane: Lane, g: Group)
    requires g in LaneGroups(groups, lane)
    ensures InLane(g, lane) && g in groups
  {
    if groups != [] && g in LaneGroups(groups[..|groups| - 1], lane) { LaneMembers(groups[..|groups| - 1], lane, g); }
  }

  ghost predicate PicksMembers(sorter: seq<Group> -> seq<Group>) {
    forall page, g :: g in sorter(page) ==> g in page
  }

  lemma {:induction false} PagesFromGroups(sorter: seq<Group> -> seq<Group>, groups: seq<Group>, k: nat, g: Group)
    requires PicksMembers(sorter) && g in RankPages(sorter, groups, k)
    ensures g in groups
  {
    if k > 0 {
      PageSlice(groups, k - 1);
      if g in RankPages(sorter, groups, k - 1) {
        PagesFromGroups(sorter, groups, k - 1, g);
      } else {
        assert g in sorter(PageOf(groups, k - 1));
        assert g in PageOf(groups, k - 1);
      }
    }
  }

  lemma PageSorterPicksMembers(loc: Locale)
    ensures PicksMembers(PageSorter(loc))
  {
    forall page: seq<Group>, g | g in PageSorter(loc)(page) ensures g in page {
      assert g in multiset(Sort(page, ByRank(loc)));
    }
  }
}
