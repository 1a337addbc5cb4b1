/** The review page's panel for one tag group: the count badge, the
    "maximum reached" gate, the autocomplete suggestions and the add and
    remove handlers. Selection changes only after the server call it waits
    for has resolved; the answers of those calls are parameters here. */
module TagGroupPanel {
  import opened Common
  import opened GroupRules

  /** A tag as the client sees it (`name` is its `label`). */
  datatype Tag = Tag(id: string, name: string)

  // ---------------------------------------------------------------
  // Counter and status
  // ---------------------------------------------------------------

  /** The badge status as the panel computes it: missing is tested first,
      then a non-null maximum. */
  function PanelStatus(count: int, min: int, max: Option<int>): GroupStatus {
    if count < min then Missing
    else if max.Some? && count > max.value then Over
    else Ok
  }

  /** `maxReached`: a non-null maximum that the count has reached. */
  predicate PanelMaxReached(count: int, max: Option<int>) {
    max.Some? && count >= max.value
  }

  /** The panel applies the shared rule, reading a null maximum as unlimited. */
  lemma PanelUsesSharedRule(count: int, min: int, max: Option<int>)
    ensures PanelStatus(count, min, max) == Status(count, min, ClientBound(max))
    ensures PanelMaxReached(count, max) <==> MaxReached(count, ClientBound(max))
  {
  }

  /** While the gate is open the group is not over, and one more tag cannot
      make it over. */
  lemma GateKeepsWithinMax(count: int, min: int, max: Option<int>)
    requires !PanelMaxReached(count, max)
    ensures PanelStatus(count, min, max) != Over
    ensures PanelStatus(count + 1, min, max) != Over
  {
    PanelUsesSharedRule(count, min, max);
    PanelUsesSharedRule(count + 1, min, max);
    AddBelowMaxStaysWithin(count, ClientBound(max));
  }

  // ---------------------------------------------------------------
  // Suggestions
  // ---------------------------------------------------------------

  function SelectedIds(selected: seq<Tag>): set<string> {
    set t | t in selected :: t.id
  }

  /** The search results whose id is not selected, in result order. */
  function Suggestions(results: seq<Tag>, selected: seq<Tag>): seq<Tag> {
    Filter(results, (t: Tag) => t.id !in SelectedIds(selected))
  }

  /** "Create" is offered when no unselected suggestion remains. */
  predicate OffersCreate(results: seq<Tag>, selected: seq<Tag>) {
    |Suggestions(results, selected)| == 0
  }

  /** The suggestions are exactly the unselected results, and "Create" is
      offered exactly when every result is already selected. */
  lemma SuggestionsMeaning(results: seq<Tag>, selected: seq<Tag>)
    ensures forall t :: t in Suggestions(results, selected) <==>
      t in results && t.id !in SelectedIds(selected)
    ensures OffersCreate(results, selected) <==>
      forall t :: t in results ==> t.id in SelectedIds(selected)
  {
    var p := (t: Tag) => t.id !in SelectedIds(selected);
    FilterMembers(results, p);
    if !OffersCreate(results, selected) {
      assert Suggestions(results, selected)[0] in Suggestions(results, selected);
    }
  }

  /** The selection without every entry carrying `id`. */
  function Unselect(selected: seq<Tag>, id: string): seq<Tag> {
    Filter(selected, (t: Tag) => t.id != id)
  }

  /** Removing an id drops exactly the entries carrying it. */
  lemma UnselectMeaning(selected: seq<Tag>, id: string)
    ensures forall t :: t in Unselect(selected, id) <==> t in selected && t.id != id
    ensures SelectedIds(Unselect(selected, id)) == SelectedIds(selected) - {id}
  {
    FilterMembers(selected, (t: Tag) => t.id != id);
  }

  /** No two selected entries share an id. */
  predicate DistinctIds(selected: seq<Tag>) {
    forall i, j :: 0 <= i < j < |selected| ==> selected[i].id != selected[j].id
  }

  lemma {:induction false} UnselectKeepsDistinct(selected: seq<Tag>, id: string)
    requires DistinctIds(selected)
    ensures DistinctIds(Unselect(selected, id))
    decreases |selected|
  {
    var p := (t: Tag) => t.id != id;
    if selected != [] {
      UnselectKeepsDistinct(selected[1..], id);
      FilterMembers(selected[1..], p);
      var rest := Unselect(selected[1..], id);
      if p(selected[0]) {
        assert Unselect(selected, id) == [selected[0]] + rest;
        forall j | 0 <= j < |rest| ensures rest[j].id != selected[0].id {
          assert rest[j] in selected[1..];
          var m :| 0 <= m < |selected[1..]| && selected[1..][m] == rest[j];
          assert selected[m + 1] == rest[j];
        }
      }
    }
  }

  // ---------------------------------------------------------------
  // The panel and its events
  // ---------------------------------------------------------------

  class TagGroupPanel {
    const min: int
    const max: Option<int>
    var query: string
    var results: seq<Tag>
    var selected: seq<Tag>

    function Count(): int
      reads this
    {
      |selected|
    }

    function Badge(): GroupStatus
      reads this
    {
      PanelStatus(|selected|, min, max)
    }

    predicate MaxReachedNow()
      reads this
    {
      PanelMaxReached(|selected|, max)
    }

    constructor(min: int, max: Option<int>, initialTags: seq<Tag>)
      ensures this.min == min && this.max == max
      ensures query == "" && results == [] && selected == initialTags
    {
      this.min := min;
      this.max := max;
      query := "";
      results := [];
      selected := initialTags;
    }

    /** The parent passes new initial tags; the selection follows them. */
    method SyncInitial(initialTags: seq<Tag>)
      modifies this
      ensures selected == initialTags
      ensures query == old(query) && results == old(results)
    {
      selected := initialTags;
    }

    /** The input changes; an empty query clears the results at once,
        otherwise a search is started (its answer is `SearchAnswered`). */
    method SetQuery(q: string) returns (searched: bool)
      modifies this
      ensures query == q
      ensures searched <==> q != ""
      ensures q == "" ==> results == []
      ensures q != "" ==> results == old(results)
      ensures selected == old(selected)
    {
      query := q;
      searched := q != "";
      if !searched {
        results := [];
      }
    }

    /** A search answers. A successful answer replaces the results, whatever
        query it was sent for; a failed one is only logged. */
    method SearchAnswered(answer: Option<seq<Tag>>)
      modifies this
      ensures answer.Some? ==> results == answer.value
      ensures answer.None? ==> results == old(results)
      ensures query == old(query) && selected == old(selected)
    {
      if answer.Some? {
        results := answer.value;
      }
    }

    /** `handleAdd(label, tag)` (`name` is `label`). With the maximum reached
        nothing happens. Without a tag, `ensureTag` is called first with the
        name and its tag is used; a
        rejected ensure ends the handler. A tag whose id is already selected
        ends it with no assign call. Otherwise `assignTags` is called with
        that id, and only if it resolves is the tag appended and the query
        and results cleared. `ensured` and `assignOk` are the answers of the
        two calls; the outputs say which calls were made. */
    method HandleAdd(name: string, tag: Option<Tag>, ensured: Option<Tag>, assignOk: bool)
      returns (ensureCalled: Option<string>, assignedId: Option<string>)
      modifies this
      ensures ensureCalled.Some? <==> !PanelMaxReached(|old(selected)|, max) && tag.None?
      ensures ensureCalled.Some? ==> ensureCalled.value == name
      ensures assignedId.Some? <==>
        !PanelMaxReached(|old(selected)|, max) && (tag.Some? || ensured.Some?)
        && (if tag.Some? then tag.value else ensured.value).id !in SelectedIds(old(selected))
      ensures assignedId.Some? ==> assignedId.value == (if tag.Some? then tag.value else ensured.value).id
      ensures assignedId.Some? && assignOk ==>
        selected == old(selected) + [if tag.Some? then tag.value else ensured.value]
        && query == "" && results == []
      ensures !(assignedId.Some? && assignOk) ==>
        selected == old(selected) && query == old(query) && results == old(results)
      ensures DistinctIds(old(selected)) ==> DistinctIds(selected)
      ensures Within(|old(selected)|, ClientBound(max)) ==> Within(|selected|, ClientBound(max))
    {
      ensureCalled, assignedId := None, None;
      if PanelMaxReached(|selected|, max) {
        return;
      }
      var finalTag: Tag;
      if tag.Some? {
        finalTag := tag.value;
      } else {
        ensureCalled := Some(name);
        if ensured.None? {
          return;
        }
        finalTag := ensured.value;
      }
      if finalTag.id in SelectedIds(selected) {
        return;
      }
      assignedId := Some(finalTag.id);
      if !assignOk {
        return;
      }
      AddBelowMaxStaysWithin(|selected|, ClientBound(max));
      AppendKeepsDistinct(selected, finalTag);
      selected := selected + [finalTag];
      query := "";
      results := [];
    }

    /** `handleRemove(tag)`: `unassignTags` is called with the tag's id, and
        only if it resolves are the entries with that id dropped; a failure
        is logged and changes nothing. */
    method HandleRemove(tag: Tag, unassignOk: bool) returns (unassignedId: string)
      modifies this
      ensures unassignedId == tag.id
      ensures unassignOk ==> selected == Unselect(old(selected), tag.id)
      ensures !unassignOk ==> selected == old(selected)
      ensures tag.id !in SelectedIds(selected) || !unassignOk
      ensures DistinctIds(old(selected)) ==> DistinctIds(selected)
      ensures query == old(query) && results == old(results)
    {
      unassignedId := tag.id;
      if unassignOk {
        UnselectMeaning(selected, tag.id);
        if DistinctIds(selected) {
          UnselectKeepsDistinct(selected, tag.id);
        }
        selected := Unselect(selected, tag.id);
      }
    }
  }

  /** Appending a tag whose id is not yet selected keeps the ids distinct. */
  lemma AppendKeepsDistinct(selected: seq<Tag>, t: Tag)
    requires t.id !in SelectedIds(selected)
    ensures DistinctIds(selected) ==> DistinctIds(selected + [t])
  {
    forall i | 0 <= i < |selected| ensures selected[i].id != t.id {
      assert selected[i] in selected;
    }
  }
}
