/** The content gallery page: tag popularity over the listed items, the
    tag filter, and the filter's toggle. */
module ContentPage {
  import opened Common
  import opened Sorting

  /** A tag of a listed item; its label (`name`) may be absent. */
  datatype ItemTag = ItemTag(id: string, name: Option<string>)

  /** A listed item; its tag list may be absent. */
  datatype Item = Item(id: string, tags: Option<seq<ItemTag>>)

  /** One popularity entry: a tag id, the label shown, and its count. */
  datatype TagStat = TagStat(id: string, name: string, count: nat)

  function TagsOf(item: Item): seq<ItemTag> {
    if item.tags.Some? then item.tags.value else []
  }

  /** Every item's tags, item after item, in list order. */
  function AllTags(items: seq<Item>): seq<ItemTag>
    decreases |items|
  {
    if items == [] then [] else AllTags(items[..|items| - 1]) + TagsOf(items[|items| - 1])
  }

  /** `tag.label ?? tag.id`. */
  function NameOf(t: ItemTag): string {
    if t.name.Some? then t.name.value else t.id
  }

  function IdsOf(tags: seq<ItemTag>): set<string> {
    set t | t in tags :: t.id
  }

  // ---------------------------------------------------------------
  // The popularity map, as it stands after a prefix of the tags
  // ---------------------------------------------------------------

  /** The map's entries after visiting `tags`: a new id gets its label and
      count 1, a known id has its count raised. */
  function Entries(tags: seq<ItemTag>): map<string, TagStat>
    decreases |tags|
  {
    if tags == [] then map[]
    else
      var m := Entries(tags[..|tags| - 1]);
      var t := tags[|tags| - 1];
      if t.id in m then m[t.id := m[t.id].(count := m[t.id].count + 1)]
      else m[t.id := TagStat(t.id, NameOf(t), 1)]
  }

  /** The map's insertion order after visiting `tags`. */
  function Order(tags: seq<ItemTag>): seq<string>
    decreases |tags|
  {
    if tags == [] then []
    else
      var o := Order(tags[..|tags| - 1]);
      var t := tags[|tags| - 1];
      if t.id in o then o else o + [t.id]
  }

  /** The map has one key per distinct id, the insertion order lists each key
      once. */
  lemma {:induction false} KeysAndOrder(tags: seq<ItemTag>)
    ensures Entries(tags).Keys == IdsOf(tags) == Elems(Order(tags))
    ensures NoDuplicates(Order(tags))
    decreases |tags|
  {
    if tags != [] {
      var init := tags[..|tags| - 1];
      var t := tags[|tags| - 1];
      KeysAndOrder(init);
      InitLast(tags);
      IdsOfSnoc(init, t);
      var o := Order(init);
      if t.id !in o {
        forall i, j | 0 <= i < j < |o + [t.id]| ensures (o + [t.id])[i] != (o + [t.id])[j] {
          if j == |o| { assert o[i] in o; }
        }
      }
    }
  }

  /** An entry has exactly one first-seen occurrence: `name` is the label (or
      the id) of the first tag carrying `id`. */
  predicate FirstSeen(tags: seq<ItemTag>, id: string, name: string) {
    exists k :: 0 <= k < |tags| && tags[k].id == id && NameOf(tags[k]) == name
      && forall j :: 0 <= j < k ==> tags[j].id != id
  }

  /** A tag list ends with `t` after `init`: its ids are `init`'s and `t`'s. */
  lemma IdsOfSnoc(init: seq<ItemTag>, t: ItemTag)
    ensures IdsOf(init + [t]) == IdsOf(init) + {t.id}
  {
    var tags := init + [t];
    forall x | x in tags ensures x in init || x == t {
      var k :| 0 <= k < |tags| && tags[k] == x;
      if k < |init| { assert init[k] == x; }
    }
  }

  /** The entry of an id counts its occurrences and shows its first-seen
      label, or the id when that label is absent. */
  lemma {:induction false} EntryOf(tags: seq<ItemTag>, id: string)
    requires id in IdsOf(tags)
    ensures id in Entries(tags)
    ensures Entries(tags)[id].id == id
    ensures Entries(tags)[id].count == CountIf(tags, (t: ItemTag) => t.id == id)
    ensures FirstSeen(tags, id, Entries(tags)[id].name)
    decreases |tags|
  {
    var init := tags[..|tags| - 1];
    var t := tags[|tags| - 1];
    InitLast(tags);
    IdsOfSnoc(init, t);
    if id in IdsOf(init) {
      EntryOf(init, id);
      EntryOfSeen(init, t, id);
    } else {
      EntryOfNew(init, t, id);
    }
  }

  /** The step for an id seen before the last tag. */
  lemma EntryOfSeen(init: seq<ItemTag>, t: ItemTag, id: string)
    requires id in Entries(init) && Entries(init)[id].id == id
    requires Entries(init)[id].count == CountIf(init, (u: ItemTag) => u.id == id)
    requires FirstSeen(init, id, Entries(init)[id].name)
    ensures id in Entries(init + [t])
    ensures Entries(init + [t])[id].id == id
    ensures Entries(init + [t])[id].count == CountIf(init + [t], (u: ItemTag) => u.id == id)
    ensures FirstSeen(init + [t], id, Entries(init + [t])[id].name)
  {
    KnownEntryStep(init, t, id);
    CountIfAppend(init, [t], (u: ItemTag) => u.id == id);
    FirstSeenExtends(init, t, id, Entries(init)[id].name);
  }

  /** Visiting one more tag raises a known id's count when the tag carries
      it, and leaves its entry alone otherwise. */
  lemma KnownEntryStep(init: seq<ItemTag>, t: ItemTag, id: string)
    requires id in Entries(init)
    ensures id in Entries(init + [t])
    ensures Entries(init + [t])[id]
      == if t.id == id then Entries(init)[id].(count := Entries(init)[id].count + 1) else Entries(init)[id]
  {
    VisitStep(init, t);
  }

  /** A first occurrence stays first when a tag is added at the end. */
  lemma FirstSeenExtends(init: seq<ItemTag>, t: ItemTag, id: string, name: string)
    requires FirstSeen(init, id, name)
    ensures FirstSeen(init + [t], id, name)
  {
    var tags := init + [t];
    var k :| 0 <= k < |init| && init[k].id == id && NameOf(init[k]) == name
      && forall j :: 0 <= j < k ==> init[j].id != id;
    assert tags[k] == init[k];
    assert forall j :: 0 <= j < k ==> tags[j] == init[j];
  }

  /** The step for an id first seen in the last tag. */
  lemma EntryOfNew(init: seq<ItemTag>, t: ItemTag, id: string)
    requires id !in IdsOf(init) && t.id == id
    ensures id in Entries(init + [t])
    ensures Entries(init + [t])[id].id == id
    ensures Entries(init + [t])[id].count == CountIf(init + [t], (u: ItemTag) => u.id == id)
    ensures FirstSeen(init + [t], id, Entries(init + [t])[id].name)
  {
    var tags := init + [t];
    var p := (u: ItemTag) => u.id == id;
    VisitStep(init, t);
    KeyIffOrdered(init, id);
    KeysAndOrder(init);
    CountIfAppend(init, [t], p);
    forall j | 0 <= j < |init| ensures !p(init[j]) {
      assert init[j] in init;
    }
    CountIfZero(init, p);
    assert tags[|init|] == t;
    assert forall j :: 0 <= j < |init| ==> tags[j] == init[j];
  }

  /** An id is a key of the map exactly when it is in the insertion order. */
  lemma KeyIffOrdered(tags: seq<ItemTag>, x: string)
    ensures x in Entries(tags) <==> x in Order(tags)
  {
    KeysAndOrder(tags);
    assert x in Order(tags) <==> x in Elems(Order(tags));
  }

  /** `Array.from(map.values())`: the entries in insertion order. */
  function Values(m: map<string, TagStat>, order: seq<string>): seq<TagStat>
    requires forall x :: x in order ==> x in m
  {
    seq(|order|, k requires 0 <= k < |order| => m[order[k]])
  }

  predicate ByCountDesc(a: TagStat, b: TagStat) {
    a.count >= b.count
  }

  /** `tagStats`: the popularity entries, sorted by count descending. */
  function StatsOf(items: seq<Item>): seq<TagStat> {
    var tags := AllTags(items);
    KeysAndOrder(tags);
    SortBy(Values(Entries(tags), Order(tags)), ByCountDesc)
  }

  lemma AllTagsStep(items: seq<Item>, i: nat)
    requires i < |items|
    ensures AllTags(items[..i + 1]) == AllTags(items[..i]) + TagsOf(items[i])
  {
    assert items[..i + 1][..i] == items[..i];
  }

  lemma VisitStep(seen: seq<ItemTag>, t: ItemTag)
    ensures Entries(seen + [t]) == (var m := Entries(seen);
      if t.id in m then m[t.id := m[t.id].(count := m[t.id].count + 1)]
      else m[t.id := TagStat(t.id, NameOf(t), 1)])
    ensures Order(seen + [t]) == (if t.id in Order(seen) then Order(seen) else Order(seen) + [t.id])
  {
    assert (seen + [t])[..|seen|] == seen;
  }

  /** The inner `forEach`: one item's tags visited in order, each raising a
      known id's count or adding a new entry at the end of the order. */
  method VisitTags(m0: map<string, TagStat>, order0: seq<string>, ghost seen: seq<ItemTag>, tags: seq<ItemTag>)
    returns (m: map<string, TagStat>, order: seq<string>)
    requires m0 == Entries(seen) && order0 == Order(seen)
    ensures m == Entries(seen + tags) && order == Order(seen + tags)
  {
    m, order := m0, order0;
    var j := 0;
    assert seen + tags[..j] == seen;
    while j < |tags|
      invariant 0 <= j <= |tags|
      invariant m == Entries(seen + tags[..j]) && order == Order(seen + tags[..j])
    {
      var t := tags[j];
      PrefixStep(seen, tags, j);
      VisitStep(seen + tags[..j], t);
      KeyIffOrdered(seen + tags[..j], t.id);
      if t.id in m {
        m := m[t.id := m[t.id].(count := m[t.id].count + 1)];
      } else {
        m := m[t.id := TagStat(t.id, NameOf(t), 1)];
        order := order + [t.id];
      }
      j := j + 1;
    }
    assert tags[..j] == tags;
  }

  lemma PrefixStep(seen: seq<ItemTag>, tags: seq<ItemTag>, j: nat)
    requires j < |tags|
    ensures seen + tags[..j + 1] == (seen + tags[..j]) + [tags[j]]
  {
    assert tags[..j + 1] == tags[..j] + [tags[j]];
  }

  /** The `tagStats` memo: a map filled item by item and tag by tag, then
      its values sorted by count. */
  method TagStats(items: seq<Item>) returns (stats: seq<TagStat>)
    ensures stats == StatsOf(items)
  {
    var m: map<string, TagStat> := map[];
    var order: seq<string> := [];
    var i := 0;
    while i < |items|
      invariant 0 <= i <= |items|
      invariant m == Entries(AllTags(items[..i])) && order == Order(AllTags(items[..i]))
    {
      m, order := VisitTags(m, order, AllTags(items[..i]), TagsOf(items[i]));
      AllTagsStep(items, i);
      i := i + 1;
    }
    assert items[..i] == items;
    KeysAndOrder(AllTags(items));
    stats := SortBy(Values(m, order), ByCountDesc);
  }

  /** Sorting the values of a map listed once per key in some order: one
      result per key, each the key's entry, in descending count. */
  lemma SortedValues(m: map<string, TagStat>, o: seq<string>)
    requires Elems(o) == m.Keys && NoDuplicates(o)
    ensures var s := SortBy(Values(m, o), ByCountDesc);
      |s| == |m.Keys|
      && (forall k :: 0 <= k < |s| ==> s[k] in m.Values)
      && (forall x :: x in m ==> m[x] in s)
      && (forall i, j :: 0 <= i < j < |s| ==> s[i].count >= s[j].count)
  {
    var vs := Values(m, o);
    var s := SortBy(vs, ByCountDesc);
    SortByAll(vs, ByCountDesc);
    DistinctCard(o);
    forall k | 0 <= k < |s| ensures s[k] in m.Values {
      assert s[k] in multiset(vs);
      var j :| 0 <= j < |vs| && vs[j] == s[k];
      assert o[j] in m;
    }
    forall x | x in m ensures m[x] in s {
      assert x in Elems(o);
      var j :| 0 <= j < |o| && o[j] == x;
      assert vs[j] in multiset(s);
    }
  }

  /** There is one entry per distinct tag id, sorted by count descending; the
      entry of every id is in the list, and every entry is one of them, so
      `EntryOf` gives each one's count and label. */
  lemma StatsOfMeaning(items: seq<Item>)
    ensures var tags := AllTags(items);
      |StatsOf(items)| == |IdsOf(tags)| && Entries(tags).Keys == IdsOf(tags)
      && (forall k :: 0 <= k < |StatsOf(items)| ==> StatsOf(items)[k] in Entries(tags).Values)
      && (forall id :: id in IdsOf(tags) ==> Entries(tags)[id] in StatsOf(items))
      && (forall i, j :: 0 <= i < j < |StatsOf(items)| ==> StatsOf(items)[i].count >= StatsOf(items)[j].count)
  {
    var tags := AllTags(items);
    KeysAndOrder(tags);
    SortedValues(Entries(tags), Order(tags));
  }

  // ---------------------------------------------------------------
  // Filter
  // ---------------------------------------------------------------

  /** `item.tags?.some(t => selected.has(t.id))`. */
  predicate HasSelectedTag(item: Item, selected: set<string>) {
    exists t :: t in TagsOf(item) && t.id in selected
  }

  /** `filteredItems`. */
  function FilteredItems(items: seq<Item>, selected: set<string>): seq<Item> {
    if |selected| == 0 then items
    else Filter(items, (it: Item) => HasSelectedTag(it, selected))
  }

  /** With no selection every item shows. Otherwise exactly the items with a
      selected tag show, in their original order. */
  lemma FilteredItemsMeaning(items: seq<Item>, selected: set<string>)
    ensures selected == {} ==> FilteredItems(items, selected) == items
    ensures selected != {} ==>
      (forall it :: it in FilteredItems(items, selected) <==> it in items && HasSelectedTag(it, selected))
      && IsSubsequence(FilteredItems(items, selected), items)
  {
    if selected != {} {
      var p := (it: Item) => HasSelectedTag(it, selected);
      FilterMembers(items, p);
      FilterSubsequence(items, p);
    }
  }

  /** `toggleFilter`: a new set with one id's membership flipped. */
  function ToggleFilter(selected: set<string>, id: string): set<string> {
    if id in selected then selected - {id} else selected + {id}
  }

  /** Exactly `id` changes membership, and toggling twice restores the set. */
  lemma ToggleFilterMeaning(selected: set<string>, id: string)
    ensures id in ToggleFilter(selected, id) <==> id !in selected
    ensures forall x :: x != id ==> (x in ToggleFilter(selected, id) <==> x in selected)
    ensures ToggleFilter(ToggleFilter(selected, id), id) == selected
  {
  }
}
