/** The tag section of one group on the bulk-intake page: the group's tags
    sorted by usage and collapsed to the first six, the "show more" toggle,
    and the small "add new tag" input. */
module TagGroupSection {
  import opened Common
  import opened Sorting

  /** A tag of the group (`name` is its `label`). */
  datatype GroupTag = GroupTag(id: string, name: string, usageCount: int)

  /** How many tags the collapsed section shows. */
  const CollapsedLimit: nat := 6

  /** The sort comparator `b.usage_count - a.usage_count`: `a` may come first
      when its usage is at least `b`'s. */
  predicate ByUsageDesc(a: GroupTag, b: GroupTag) {
    a.usageCount >= b.usageCount
  }

  /** `sortedTags`: a sorted copy of the group's tags (the stable sort keeps
      tags of equal usage in their original order). */
  function SortedTags(tags: seq<GroupTag>): seq<GroupTag> {
    SortBy(tags, ByUsageDesc)
  }

  /** The sorted tags are a permutation of the group's tags, each used at
      least as much as every tag after it. */
  lemma SortedTagsMeaning(tags: seq<GroupTag>)
    ensures multiset(SortedTags(tags)) == multiset(tags)
    ensures forall i, j :: 0 <= i < j < |SortedTags(tags)| ==>
      SortedTags(tags)[i].usageCount >= SortedTags(tags)[j].usageCount
  {
    SortByAll(tags, ByUsageDesc);
  }

  /** `visibleTags`. */
  function VisibleTags(sorted: seq<GroupTag>, expanded: bool): seq<GroupTag> {
    if expanded then sorted else Take(sorted, CollapsedLimit)
  }

  /** Expanded, every tag shows; collapsed, the first min(6, n) do. Either
      way the visible tags are a prefix of the sorted ones. */
  lemma VisibleTagsMeaning(sorted: seq<GroupTag>, expanded: bool)
    ensures |VisibleTags(sorted, expanded)|
      == if expanded || |sorted| <= CollapsedLimit then |sorted| else CollapsedLimit
    ensures VisibleTags(sorted, expanded) == sorted[..|VisibleTags(sorted, expanded)|]
  {
  }

  /** The "show more" toggle is rendered. */
  predicate ShowsToggle(sorted: seq<GroupTag>) {
    |sorted| > CollapsedLimit
  }

  /** The toggle is rendered exactly when collapsing hides some tag. */
  lemma ToggleIffSomethingHidden(sorted: seq<GroupTag>)
    ensures ShowsToggle(sorted) <==> |VisibleTags(sorted, false)| < |sorted|
  {
  }

  /** A pill is drawn as selected exactly when its id is in the selection. */
  predicate PillSelected(tag: GroupTag, selectedTagIds: seq<string>) {
    tag.id in selectedTagIds
  }

  /** The section's own state; `canCreate` says whether an `onCreateTag`
      callback was passed. */
  class SectionState {
    const canCreate: bool
    var expanded: bool
    var adding: bool
    var newLabel: string

    constructor(canCreate: bool)
      ensures this.canCreate == canCreate
      ensures !expanded && !adding && newLabel == ""
    {
      this.canCreate := canCreate;
      expanded := false;
      adding := false;
      newLabel := "";
    }

    /** A click on "show more" / "show less". */
    method ToggleExpanded()
      modifies this
      ensures expanded == !old(expanded)
      ensures adding == old(adding) && newLabel == old(newLabel)
    {
      expanded := !expanded;
    }

    /** A click on "Add new tag". */
    method StartAdding()
      modifies this
      ensures adding
      ensures expanded == old(expanded) && newLabel == old(newLabel)
    {
      adding := true;
    }

    method SetNewLabel(s: string)
      modifies this
      ensures newLabel == s
      ensures expanded == old(expanded) && adding == old(adding)
    {
      newLabel := s;
    }

    /** Enter: `submit`. A blank label, or no callback, does nothing.
        Otherwise the callback gets the trimmed label once, and the input is
        cleared and closed. `created` is the callback's argument, if called. */
    method Submit() returns (created: Option<string>)
      modifies this
      ensures created.None? <==> JsTrim(old(newLabel)) == "" || !canCreate
      ensures created.Some? ==> created.value == JsTrim(old(newLabel))
      ensures created.Some? ==> newLabel == "" && !adding
      ensures created.None? ==> newLabel == old(newLabel) && adding == old(adding)
      ensures expanded == old(expanded)
    {
      var trimmed := JsTrim(newLabel);
      if trimmed == "" || !canCreate {
        return None;
      }
      created := Some(trimmed);
      newLabel := "";
      adding := false;
    }

    /** Escape closes the input and clears the label; nothing is created. */
    method Escape()
      modifies this
      ensures !adding && newLabel == ""
      ensures expanded == old(expanded)
    {
      adding := false;
      newLabel := "";
    }
  }

  /** `submit` ignores exactly the labels made only of whitespace, and the
      label it hands over is already trimmed. */
  lemma SubmittedLabel(text: string)
    ensures JsTrim(text) == "" <==> forall i :: 0 <= i < |text| ==> IsJsSpace(text[i])
    ensures JsTrim(JsTrim(text)) == JsTrim(text)
  {
    TrimEmptyIffAllSpace(text, IsJsSpace);
    TrimNoEdgeSpace(JsTrim(text), IsJsSpace);
  }
}
