/**
 The stable sort behind `Array.prototype.sort`: the result is ordered, is a permutation,
 and keeps equally ranked elements in their original order.
 */
module Sorting {
  import opened Sequences

  ghost predicate TotalPreorder<T(!new)>(leq: (T, T) -> bool) {
    && (forall x, y :: leq(x, y) || leq(y, x))
    && (forall x, y, z :: leq(x, y) && leq(y, z) ==> leq(x, z))
  }

  ghost predicate Sorted<T>(s: seq<T>, leq: (T, T) -> bool) {
    forall i, j :: 0 <= i < j < |s| ==> leq(s[i], s[j])
  }

  /** Places x after every element it may follow, looking from the right. */
  function Insert<T>(s: seq<T>, x: T, leq: (T, T) -> bool): (r: seq<T>)
    ensures |r| == |s| + 1
    ensures multiset(r) == multiset(s) + multiset{x}
  {
    if s == [] || leq(s[|s| - 1], x) then s + [x]
    else
      assert s == s[..|s| - 1] + [s[|s| - 1]];
      Insert(s[..|s| - 1], x, leq) + [s[|s| - 1]]
  }

  function Sort<T>(s: seq<T>, leq: (T, T) -> bool): (r: seq<T>)
    ensures |r| == |s|
    ensures multiset(r) == multiset(s)
  {
    if s == [] then []
    else
      assert s == s[..|s| - 1] + [s[|s| - 1]];
      Insert(Sort(s[..|s| - 1], leq), s[|s| - 1], leq)
  }

  function InsertAll<T>(s: seq<T>, more: seq<T>, leq: (T, T) -> bool): seq<T> {
    if more == [] then s
    else Insert(InsertAll(s, more[..|more| - 1], leq), more[|more| - 1], leq)
  }

  function Filter<T>(p: T -> bool, s: seq<T>): (r: seq<T>)
    ensures |r| <= |s|
  {
    if s == [] then [] else Filter(p, s[..|s| - 1]) + (if p(s[|s| - 1]) then [s[|s| - 1]] else [])
  }

  lemma {:induction false} InsertSorted<T(!new)>(s: seq<T>, x: T, leq: (T, T) -> bool)
    requires TotalPreorder(leq) && Sorted(s, leq)
    ensures Sorted(Insert(s, x, leq), leq)
  {
    if s == [] || leq(s[|s| - 1], x) {
    } else {
      var init, last := s[..|s| - 1], s[|s| - 1];
      var inserted := Insert(init, x, leq);
      InsertSorted(init, x, leq);
      forall i | 0 <= i < |inserted| ensures leq(inserted[i], last) {
        assert inserted[i] in multiset(inserted);
        assert inserted[i] == x || inserted[i] in init;
      }
    }
  }

  lemma {:induction false} SortSorted<T(!new)>(s: seq<T>, leq: (T, T) -> bool)
    requires TotalPreorder(leq)
    ensures Sorted(Sort(s, leq), leq)
  {
    if s != [] {
      SortSorted(s[..|s| - 1], leq);
      InsertSorted(Sort(s[..|s| - 1], leq), s[|s| - 1], leq);
    }
  }

  lemma {:induction false} SortOfSorted<T(!new)>(s: seq<T>, leq: (T, T) -> bool)
    requires Sorted(s, leq)
    ensures Sort(s, leq) == s
  {
    if s != [] {
      SortOfSorted(s[..|s| - 1], leq);
      if |s| > 1 { assert leq(s[|s| - 2], s[|s| - 1]); }
    }
  }

  lemma SortSnoc<T>(s: seq<T>, x: T, leq: (T, T) -> bool)
    ensures Sort(s + [x], leq) == Insert(Sort(s, leq), x, leq)
  {
    hide Insert;
    assert (s + [x])[..|s + [x]| - 1] == s;
  }

  lemma {:induction false} SortAppend<T>(s: seq<T>, more: seq<T>, leq: (T, T) -> bool)
    ensures Sort(s + more, leq) == InsertAll(Sort(s, leq), more, leq)
  {
    hide Sort, Insert;
    if more == [] {
      AppendNothing(s);
    } else {
      var init, last := more[..|more| - 1], more[|more| - 1];
      SortAppend(s, init, leq);
      SortSnoc(s + init, last, leq);
      AppendSnoc(s, init, last);
      InitAndLast(more);
    }
  }

  /** Sorting a prefix first does not change the result. */
  lemma SortPrefixFirst<T(!new)>(s: seq<T>, more: seq<T>, leq: (T, T) -> bool)
    requires TotalPreorder(leq)
    ensures Sort(Sort(s, leq) + more, leq) == Sort(s + more, leq)
  {
    SortSorted(s, leq);
    SortOfSorted(Sort(s, leq), leq);
    SortAppend(s, more, leq);
    SortAppend(Sort(s, leq), more, leq);
  }

  lemma {:induction false} FilterMembers<T>(p: T -> bool, s: seq<T>, x: T)
    ensures x in Filter(p, s) <==> x in s && p(x)
  {
    if s != [] {
      FilterMembers(p, s[..|s| - 1], x);
      assert x in s <==> x in s[..|s| - 1] || x == s[|s| - 1];
    }
  }

  lemma FilterSnoc<T>(p: T -> bool, s: seq<T>, x: T)
    ensures Filter(p, s + [x]) == Filter(p, s) + (if p(x) then [x] else [])
  {
    assert (s + [x])[..|s|] == s;
  }

  lemma {:induction false} FilterAppend<T>(p: T -> bool, s: seq<T>, more: seq<T>)
    ensures Filter(p, s + more) == Filter(p, s) + Filter(p, more)
  {
    if more == [] {
      AppendNothing(s);
    } else {
      var init, last := more[..|more| - 1], more[|more| - 1];
      FilterAppend(p, s, init);
      FilterSnoc(p, s + init, last);
      AppendSnoc(s, init, last);
      InitAndLast(more);
    }
  }

  /** p picks elements of one rank only. */
  ghost predicate OneRank<T(!new)>(p: T -> bool, leq: (T, T) -> bool) {
    forall x, y :: p(x) && p(y) ==> leq(x, y)
  }

  lemma {:induction false} InsertStable<T(!new)>(s: seq<T>, x: T, leq: (T, T) -> bool, p: T -> bool)
    requires OneRank(p, leq)
    ensures Filter(p, Insert(s, x, leq)) == Filter(p, s) + (if p(x) then [x] else [])
  {
    if s == [] || leq(s[|s| - 1], x) {
      FilterSnoc(p, s, x);
    } else {
      var init, last := s[..|s| - 1], s[|s| - 1];
      InsertStable(init, x, leq, p);
      FilterSnoc(p, Insert(init, x, leq), last);
      assert !(p(x) && p(last));
    }
  }

  /** Equally ranked elements keep their order. */
  lemma {:induction false} SortStable<T(!new)>(s: seq<T>, leq: (T, T) -> bool, p: T -> bool)
    requires OneRank(p, leq)
    ensures Filter(p, Sort(s, leq)) == Filter(p, s)
  {
    if s != [] {
      SortStable(s[..|s| - 1], leq, p);
      InsertStable(Sort(s[..|s| - 1], leq), s[|s| - 1], leq, p);
    }
  }
}
