/**
 The client's timestamp order: newest first, unreadable timestamps after readable ones, missing
 ones last, ties by text in descending order.
 */
module Timestamps {
  import opened Text
  import opened Sorting

  /** `Date.parse` and `localeCompare`, about which only the laws of `Lawful` are used. */
  datatype Locale = Locale(parse: string -> Option<int>, collate: (string, string) -> int) {
    ghost predicate Lawful() {
      && (forall a, b :: collate(a, b) <= 0 || collate(b, a) <= 0)
      && (forall a, b, c :: collate(a, b) <= 0 && collate(b, c) <= 0 ==> collate(a, c) <= 0)
      && (forall a, b :: collate(a, b) < 0 <==> collate(b, a) > 0)
    }
  }

  function ParseTimestamp(loc: Locale, value: string): Option<int> {
    if value == "" then None else loc.parse(value)
  }

  function CompareDescending(loc: Locale, left: string, right: string): int {
    var leftTime, rightTime := ParseTimestamp(loc, left), ParseTimestamp(loc, right);
    if leftTime.Some? && rightTime.Some? && leftTime.value != rightTime.value then rightTime.value - leftTime.value
    else if rightTime.Some? && leftTime.None? then 1
    else if leftTime.Some? && rightTime.None? then -1
    else if left != "" && right != "" then loc.collate(right, left)
    else if right != "" then 1
    else if left != "" then -1
    else 0
  }

  predicate NoNewer(loc: Locale, left: string, right: string) {
    CompareDescending(loc, left, right) <= 0
  }

  /** The comparator is a total preorder, and antisymmetric in sign, as sorting needs. */
  lemma DescendingIsTotalPreorder(loc: Locale)
    requires loc.Lawful()
    ensures TotalPreorder((a, b) => NoNewer(loc, a, b))
    ensures forall a, b :: CompareDescending(loc, a, b) < 0 <==> CompareDescending(loc, b, a) > 0
  {
    forall x, y, z | NoNewer(loc, x, y) && NoNewer(loc, y, z) ensures NoNewer(loc, x, z) {
      TransitiveOrder(loc, x, y, z);
    }
  }

  lemma TransitiveOrder(loc: Locale, x: string, y: string, z: string)
    requires loc.Lawful() && NoNewer(loc, x, y) && NoNewer(loc, y, z)
    ensures NoNewer(loc, x, z)
  {
  }

  /** A timestamp that is there and can be parsed. */
  predicate Readable(loc: Locale, value: string) {
    value != "" && loc.parse(value).Some?
  }

  /** Newest first: a may stand before b. Readable timestamps come first, the later one ahead; missing ones
      come last; what is still equal stands in descending collation. */
  predicate MayPrecede(loc: Locale, a: string, b: string) {
    if Readable(loc, a) && Readable(loc, b) && loc.parse(a).value != loc.parse(b).value then
      loc.parse(a).value > loc.parse(b).value
    else if Readable(loc, a) != Readable(loc, b) then Readable(loc, a)
    else if a != "" && b != "" then loc.collate(b, a) <= 0
    else b == ""
  }

  /** The comparator orders timestamps newest first. */
  lemma DescendingIsNewestFirst(loc: Locale, a: string, b: string)
    ensures NoNewer(loc, a, b) <==> MayPrecede(loc, a, b)
  {
  }
}
