/** The gallery card's tag line: the few most used tags of an item. */
module MasonryGrid {
  import opened Common
  import opened Sorting

  /** A tag of a listed item; its usage count may be absent. */
  datatype CardTag = CardTag(id: string, name: string, usageCount: Option<int>)

  /** The default number of tags shown. */
  const DefaultLimit: nat := 3

  /** `usage_count ?? 0`. */
  function UsageOrZero(t: CardTag): int {
    if t.usageCount.Some? then t.usageCount.value else 0
  }

  predicate ByUsageDesc(a: CardTag, b: CardTag) {
    UsageOrZero(a) >= UsageOrZero(b)
  }

  /** `getTopTags(tags, limit)`: none for absent or empty tags, otherwise the
      first `limit` of a sorted copy. */
  function TopTags(tags: Option<seq<CardTag>>, limit: nat): seq<CardTag> {
    if tags.None? || tags.value == [] then []
    else Take(SortBy(tags.value, ByUsageDesc), limit)
  }

  /** The tags of a non-empty list that `TopTags` leaves out. */
  function LeftOut(tags: seq<CardTag>, limit: nat): seq<CardTag> {
    var sorted := SortBy(tags, ByUsageDesc);
    sorted[|Take(sorted, limit)|..]
  }

  /** The result has min(limit, n) tags, in descending usage (absent counted
      as 0). */
  lemma TopTagsOrdered(tags: seq<CardTag>, limit: nat)
    ensures |TopTags(Some(tags), limit)| == if limit < |tags| then limit else |tags|
    ensures forall i, j :: 0 <= i < j < |TopTags(Some(tags), limit)| ==>
      UsageOrZero(TopTags(Some(tags), limit)[i]) >= UsageOrZero(TopTags(Some(tags), limit)[j])
  {
    if tags != [] {
      SortByAll(tags, ByUsageDesc);
      TakeOfSorted(SortBy(tags, ByUsageDesc), limit, ByUsageDesc);
    }
  }

  /** The tags shown and the tags left out together are the input, and every
      tag shown is used at least as much as every tag left out. */
  lemma TopTagsDominate(tags: seq<CardTag>, limit: nat)
    requires tags != []
    ensures multiset(TopTags(Some(tags), limit)) + multiset(LeftOut(tags, limit)) == multiset(tags)
    ensures forall t, u :: t in TopTags(Some(tags), limit) && u in LeftOut(tags, limit) ==>
      UsageOrZero(t) >= UsageOrZero(u)
  {
    var sorted := SortBy(tags, ByUsageDesc);
    var top := Take(sorted, limit);
    SortByAll(tags, ByUsageDesc);
    TakeOfSorted(sorted, limit, ByUsageDesc);
    assert sorted == top + LeftOut(tags, limit);
  }

  /** With no tags there is nothing to show. */
  lemma NoTagsNoneShown(limit: nat)
    ensures TopTags(None, limit) == [] && TopTags(Some([]), limit) == []
  {
  }
}
