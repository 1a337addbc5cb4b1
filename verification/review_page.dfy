/** The review page: which screen it shows, the "Complete & Next" gate,
    the split of the groups into required and optional panels, and the
    tags each panel starts with. */
module ReviewPage {
  import opened Common
  import opened GroupRules
  import TagGroupPanel

  /** A tag group as the page receives it from the server (`max` is the raw
      `max_count`: NULL or an integer, -1 included). */
  datatype GroupInfo = GroupInfo(id: string, required: bool, min: int, max: Option<int>)

  /** What the page renders. */
  datatype Screen =
    | LoadingScreen
    | GroupsErrorScreen(message: string)
    | NothingToReview
    | Review(required: seq<GroupInfo>, optional: seq<GroupInfo>, canComplete: bool)

  /** `canComplete`: validation is not loading and says `valid === true`
      (`validation` is None before any answer). */
  predicate CanComplete(validationLoading: bool, validation: Option<bool>) {
    !validationLoading && validation == Some(true)
  }

  predicate IsRequired(g: GroupInfo) { g.required }
  predicate IsOptional(g: GroupInfo) { !g.required }

  /** The page: the loading screen while groups or content load; then the
      groups error, when it is a non-empty message; then the empty state when
      there is no snapshot; otherwise the two panels and the gate. */
  function Render(groupsLoading: bool, contentLoading: bool, groupsError: Option<string>,
                  hasSnapshot: bool, groups: seq<GroupInfo>,
                  validationLoading: bool, validation: Option<bool>): (s: Screen)
  {
    if groupsLoading || contentLoading then LoadingScreen
    else if groupsError.Some? && groupsError.value != "" then GroupsErrorScreen(groupsError.value)
    else if !hasSnapshot then NothingToReview
    else Review(Filter(groups, IsRequired), Filter(groups, IsOptional),
                CanComplete(validationLoading, validation))
  }

  /** Loading wins over an error, an error over a missing snapshot, and the
      review is shown only when none of them applies. */
  lemma RenderOrder(groupsLoading: bool, contentLoading: bool, groupsError: Option<string>,
                    hasSnapshot: bool, groups: seq<GroupInfo>,
                    validationLoading: bool, validation: Option<bool>)
    ensures var s := Render(groupsLoading, contentLoading, groupsError, hasSnapshot, groups,
                            validationLoading, validation);
      (s.LoadingScreen? <==> groupsLoading || contentLoading)
      && (s.GroupsErrorScreen? <==> !groupsLoading && !contentLoading
                                    && groupsError.Some? && groupsError.value != "")
      && (s.NothingToReview? <==> !groupsLoading && !contentLoading
                                  && (groupsError.None? || groupsError.value == "") && !hasSnapshot)
      && (s.Review? ==> (s.canComplete <==> !validationLoading && validation == Some(true)))
  {
  }

  /** The required and optional panels partition the groups: every group is
      in exactly one list, each list keeps the groups' order, and together
      they have as many entries as there are groups. */
  lemma {:induction false} SplitPartitions(groups: seq<GroupInfo>)
    ensures forall g :: g in Filter(groups, IsRequired) <==> g in groups && g.required
    ensures forall g :: g in Filter(groups, IsOptional) <==> g in groups && !g.required
    ensures IsSubsequence(Filter(groups, IsRequired), groups)
    ensures IsSubsequence(Filter(groups, IsOptional), groups)
    ensures |Filter(groups, IsRequired)| + |Filter(groups, IsOptional)| == |groups|
  {
    FilterMembers(groups, IsRequired);
    FilterMembers(groups, IsOptional);
    FilterSubsequence(groups, IsRequired);
    FilterSubsequence(groups, IsOptional);
    CountsSplit(groups);
  }

  lemma {:induction false} CountsSplit(groups: seq<GroupInfo>)
    ensures CountIf(groups, IsRequired) + CountIf(groups, IsOptional) == |groups|
  {
    if groups != [] {
      CountsSplit(groups[1..]);
    }
  }

  /** `assignedTags[g.id] || []`. */
  function InitialTags(byGroup: map<string, seq<TagGroupPanel.Tag>>, groupId: string): seq<TagGroupPanel.Tag> {
    if groupId in byGroup then byGroup[groupId] else []
  }

  /** The panel the page mounts for a group: its minimum, its raw maximum,
      and as its selection the snapshot's tags for the group, or none when
      the snapshot has no entry for it. */
  method OpenPanel(g: GroupInfo, byGroup: map<string, seq<TagGroupPanel.Tag>>)
    returns (p: TagGroupPanel.TagGroupPanel)
    ensures p.min == g.min && p.max == g.max
    ensures g.id in byGroup ==> p.selected == byGroup[g.id]
    ensures g.id !in byGroup ==> p.selected == []
    ensures p.query == "" && p.results == []
  {
    p := new TagGroupPanel.TagGroupPanel(g.min, g.max, InitialTags(byGroup, g.id));
  }

  /** The panel for a group is built with the group's raw maximum. A group
      stored with the -1 sentinel therefore has its add gate closed from the
      start and shows "over" as soon as its minimum is met, although content
      validation reads the same -1 as unlimited. */
  lemma SentinelClosesPanelGate(g: GroupInfo, count: nat)
    requires g.max == Some(UnlimitedSentinel)
    ensures TagGroupPanel.PanelMaxReached(count, g.max)
    ensures g.min <= count ==> TagGroupPanel.PanelStatus(count, g.min, g.max) == Over
    ensures ContentValidationBound(IntMax(UnlimitedSentinel)) == Some(Unlimited)
  {
  }

  /** A NULL maximum reaches the panel as unlimited: the gate never closes
      and the group is never over. */
  lemma NullMaxKeepsPanelOpen(g: GroupInfo, count: nat)
    requires g.max.None?
    ensures !TagGroupPanel.PanelMaxReached(count, g.max)
    ensures TagGroupPanel.PanelStatus(count, g.min, g.max) != Over
  {
  }
}
