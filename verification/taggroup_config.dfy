/** Reading tag groups from the INI-style `.taggroups` file, twice over: the
    parser behind the upload route keeps the stored form of an unlimited
    maximum (-1) and numbers the groups, while the loader behind seeding
    strips the id and normalises -1 to NULL. Reading the file is outside the
    model: the sections arrive as a list in file order, each key already
    read as a typed value or absent. Seeding inserts the loaded groups
    without overwriting existing rows. */
module TagGroupConfig {
  import opened Common
  import opened GroupRules
  import opened Tables

  /** One section of the file: its name and the keys it sets. */
  datatype Section = Section(
    name: string, description: Option<string>, required: Option<bool>,
    min: Option<int>, max: Option<int>)

  const GroupPrefix: string := "group."

  /** Sections whose names start with "group." describe tag groups. */
  predicate IsGroupSection(s: Section) {
    StartsWith(s.name, GroupPrefix)
  }

  function GetOr<T>(o: Option<T>, default: T): T {
    if o.Some? then o.value else default
  }

  /** Python's `s.replace(p, "")`: every occurrence of `p`, scanning left to
      right without overlaps, is removed. */
  function RemoveAll(s: string, p: string): (r: string)
    requires p != []
    ensures |r| <= |s|
    decreases |s|
  {
    if s == [] then []
    else if StartsWith(s, p) then RemoveAll(s[|p|..], p)
    else [s[0]] + RemoveAll(s[1..], p)
  }

  /** A string with no occurrence of `p` loses nothing. */
  lemma {:induction false} RemoveAllAbsent(s: string, p: string)
    requires p != [] && !IsSubstring(p, s)
    ensures RemoveAll(s, p) == s
    decreases |s|
  {
    if s != [] {
      if StartsWith(s, p) {
        assert OccursAt(p, s, 0);
      }
      assert !IsSubstring(p, s[1..]) by {
        forall i | 0 <= i <= |s[1..]| - |p| ensures !OccursAt(p, s[1..], i) {
          assert s[1..][i..i + |p|] == s[i + 1..i + 1 + |p|];
          assert !OccursAt(p, s, i + 1);
        }
      }
      RemoveAllAbsent(s[1..], p);
    }
  }

  /** The id of the section `[group.x]` is `x`, as long as `x` does not
      itself contain "group.". */
  lemma GroupIdOfSection(x: string)
    requires !IsSubstring(GroupPrefix, x)
    ensures RemoveAll(GroupPrefix + x, GroupPrefix) == x
  {
    var s := GroupPrefix + x;
    assert s[..|GroupPrefix|] == GroupPrefix;
    assert s[|GroupPrefix|..] == x;
    RemoveAllAbsent(x, GroupPrefix);
  }

  // ---------------------------------------------------------------
  // parse_taggroups
  // ---------------------------------------------------------------

  /** A group as the upload parser reads it: max keeps the -1 default. */
  datatype ParsedGroup = ParsedGroup(
    id: string, description: Option<string>, required: bool, min: int, max: int, position: nat)

  /** The entry for a group section at position `pos`, with the parser's
      defaults: not required, min 0, max -1, no description. */
  function ParsedEntry(s: Section, pos: nat): ParsedGroup {
    ParsedGroup(RemoveAll(s.name, GroupPrefix), s.description, GetOr(s.required, false),
                GetOr(s.min, 0), GetOr(s.max, UnlimitedSentinel), pos)
  }

  /** What the parser returns for the sections, defined one section at a
      time: a group section appends its entry, numbered by how many came
      before. */
  function ParseAll(sections: seq<Section>): seq<ParsedGroup> {
    if sections == [] then []
    else
      var init := ParseAll(sections[..|sections| - 1]);
      var s := sections[|sections| - 1];
      if IsGroupSection(s) then init + [ParsedEntry(s, |init|)] else init
  }

  /** `parse_taggroups` over the sections of the file. */
  method ParseTagGroups(sections: seq<Section>) returns (groups: seq<ParsedGroup>)
    ensures groups == ParseAll(sections)
  {
    groups := [];
    var position := 0;
    var i := 0;
    while i < |sections|
      invariant 0 <= i <= |sections|
      invariant groups == ParseAll(sections[..i]) && position == |groups|
    {
      var s := sections[i];
      assert sections[..i + 1][..i] == sections[..i];
      if IsGroupSection(s) {
        groups := groups + [ParsedEntry(s, position)];
        position := position + 1;
      }
      i := i + 1;
    }
    assert sections[..i] == sections;
  }

  /** The parser keeps exactly the group sections, in file order: entry `k`
      comes from the `k`-th group section and has position `k`, so the
      positions run 0, 1, 2, … with no gaps. */
  lemma {:induction false} ParseAllIsFilter(sections: seq<Section>)
    ensures var g := ParseAll(sections);
      var kept := Filter(sections, IsGroupSection);
      && |g| == |kept| == CountIf(sections, IsGroupSection)
      && forall k :: 0 <= k < |g| ==> g[k] == ParsedEntry(kept[k], k)
  {
    if sections != [] {
      var n := |sections| - 1;
      ParseAllIsFilter(sections[..n]);
      InitLast(sections);
      FilterAppend(sections[..n], [sections[n]], IsGroupSection);
    }
  }

  /** Every parsed group is numbered by its place in the result. */
  lemma ParsePositions(sections: seq<Section>)
    ensures forall k :: 0 <= k < |ParseAll(sections)| ==> ParseAll(sections)[k].position == k
  {
    ParseAllIsFilter(sections);
  }

  // ---------------------------------------------------------------
  // load_taggroups_from_file and seed_taggroups
  // ---------------------------------------------------------------

  /** A group as the loader reads it: a stripped id, and max normalised. */
  datatype LoadedGroup = LoadedGroup(
    id: string, required: bool, description: Option<string>, min: int, max: StoredMax)

  /** The loader's entry for a group section. An absent max defaults to -1,
      which, like an explicit -1, becomes NULL. */
  function LoadedEntry(s: Section): LoadedGroup {
    LoadedGroup(PyStrip(RemoveAll(s.name, GroupPrefix)), GetOr(s.required, false), s.description,
                GetOr(s.min, 0), NormaliseMax(GetOr(s.max, UnlimitedSentinel)))
  }

  function LoadAll(sections: seq<Section>): seq<LoadedGroup> {
    if sections == [] then []
    else
      var init := LoadAll(sections[..|sections| - 1]);
      var s := sections[|sections| - 1];
      if IsGroupSection(s) then init + [LoadedEntry(s)] else init
  }

  /** The file is missing, or it was read. */
  datatype Loaded = FileNotFound | Groups(groups: seq<LoadedGroup>)

  /** `load_taggroups_from_file`: a missing file raises before any parsing. */
  method LoadTagGroups(fileExists: bool, sections: seq<Section>) returns (r: Loaded)
    ensures r.FileNotFound? <==> !fileExists
    ensures r.Groups? ==> r.groups == LoadAll(sections)
  {
    if !fileExists {
      return FileNotFound;
    }
    var groups := [];
    var i := 0;
    while i < |sections|
      invariant 0 <= i <= |sections|
      invariant groups == LoadAll(sections[..i])
    {
      var s := sections[i];
      assert sections[..i + 1][..i] == sections[..i];
      if IsGroupSection(s) {
        var maxCount := GetOr(s.max, UnlimitedSentinel);
        var max := if maxCount == UnlimitedSentinel then NullMax else IntMax(maxCount);
        groups := groups + [LoadedGroup(PyStrip(RemoveAll(s.name, GroupPrefix)), GetOr(s.required, false),
                                        s.description, GetOr(s.min, 0), max)];
      }
      i := i + 1;
    }
    assert sections[..i] == sections;
    return Groups(groups);
  }

  /** The two readers keep the same sections in the same order. They agree
      on everything but two fields: the loader strips the id, and it stores
      NULL where the parser stores -1. */
  lemma {:induction false} LoaderMatchesParser(sections: seq<Section>)
    ensures |LoadAll(sections)| == |ParseAll(sections)|
    ensures forall k :: 0 <= k < |LoadAll(sections)| ==>
      var l, p := LoadAll(sections)[k], ParseAll(sections)[k];
      && l.id == PyStrip(p.id) && l.required == p.required && l.description == p.description
      && l.min == p.min && l.max == NormaliseMax(p.max)
  {
    if sections != [] {
      LoaderMatchesParser(sections[..|sections| - 1]);
    }
  }

  /** The `tag_group` row that seeding writes for a loaded group. */
  function SeedRow(g: LoadedGroup, pos: int): GroupRow {
    GroupRow(g.description, g.required, g.min, g.max, pos)
  }

  /** The group table after `INSERT OR IGNORE` of each group in turn, the
      position being the group's index in the loaded list. */
  function SeedAll(table: map<string, GroupRow>, gs: seq<LoadedGroup>): (r: map<string, GroupRow>)
    ensures r.Keys == table.Keys + set k | 0 <= k < |gs| :: gs[k].id
  {
    if gs == [] then table
    else
      var n := |gs| - 1;
      var init := SeedAll(table, gs[..n]);
      assert forall k :: 0 <= k < n ==> gs[..n][k] == gs[k];
      assert (set k | 0 <= k < |gs| :: gs[k].id) == (set k | 0 <= k < n :: gs[..n][k].id) + {gs[n].id};
      if gs[n].id in init then init else init[gs[n].id := SeedRow(gs[n], n)]
  }

  /** The `INSERT OR IGNORE` loop of `seed_taggroups`, over `enumerate`. */
  method SeedRows(db: Db, groups: seq<LoadedGroup>)
    modifies db
    ensures db.groups == SeedAll(old(db.groups), groups)
    ensures db.content == old(db.content) && db.tags == old(db.tags)
    ensures db.contentTags == old(db.contentTags) && db.previews == old(db.previews)
  {
    var pos := 0;
    while pos < |groups|
      invariant 0 <= pos <= |groups|
      invariant db.groups == SeedAll(old(db.groups), groups[..pos])
      invariant db.content == old(db.content) && db.tags == old(db.tags)
      invariant db.contentTags == old(db.contentTags) && db.previews == old(db.previews)
    {
      var g := groups[pos];
      assert groups[..pos + 1][..pos] == groups[..pos];
      if g.id !in db.groups {
        db.groups := db.groups[g.id := SeedRow(g, pos)];
      }
      pos := pos + 1;
    }
    assert groups[..pos] == groups;
  }

  /** `seed_taggroups`: load, then insert. A missing file changes nothing. */
  method SeedTagGroups(db: Db, fileExists: bool, sections: seq<Section>) returns (seeded: bool)
    modifies db
    ensures seeded <==> fileExists
    ensures seeded ==> db.groups == SeedAll(old(db.groups), LoadAll(sections))
    ensures !seeded ==> db.groups == old(db.groups)
    ensures db.content == old(db.content) && db.tags == old(db.tags)
    ensures db.contentTags == old(db.contentTags) && db.previews == old(db.previews)
  {
    var loaded := LoadTagGroups(fileExists, sections);
    if loaded.FileNotFound? {
      return false;
    }
    SeedRows(db, loaded.groups);
    return true;
  }

  /** Seeding never overwrites a stored group, and a new id gets the row of
      its first occurrence in the loaded list, at that index. */
  lemma {:induction false} SeedKeepsFirst(table: map<string, GroupRow>, gs: seq<LoadedGroup>, id: string)
    ensures id in table ==> SeedAll(table, gs)[id] == table[id]
    ensures id !in table && (exists k :: 0 <= k < |gs| && gs[k].id == id) ==>
      var f := FirstWithId(gs, id);
      SeedAll(table, gs)[id] == SeedRow(gs[f], f)
  {
    if gs != [] {
      var n := |gs| - 1;
      SeedKeepsFirst(table, gs[..n], id);
      if id !in table && (exists k :: 0 <= k < |gs| && gs[k].id == id) {
        if exists k :: 0 <= k < n && gs[..n][k].id == id {
          FirstWithIdPrefix(gs, n, id);
        } else {
          assert gs[n].id == id;
          assert FirstWithId(gs, id) == n by {
            FirstWithIdLast(gs, id);
          }
        }
      }
    }
  }

  /** The index of the first loaded group with the given id. */
  function FirstWithId(gs: seq<LoadedGroup>, id: string): (k: nat)
    requires exists k :: 0 <= k < |gs| && gs[k].id == id
    ensures k < |gs| && gs[k].id == id
    ensures forall j :: 0 <= j < k ==> gs[j].id != id
  {
    if gs[0].id == id then 0
    else
      assert exists k :: 0 <= k < |gs[1..]| && gs[1..][k].id == id by {
        var k :| 0 <= k < |gs| && gs[k].id == id;
        assert gs[1..][k - 1] == gs[k];
      }
      1 + FirstWithId(gs[1..], id)
  }

  lemma FirstWithIdPrefix(gs: seq<LoadedGroup>, n: nat, id: string)
    requires n <= |gs| && exists k :: 0 <= k < n && gs[..n][k].id == id
    ensures exists k :: 0 <= k < |gs| && gs[k].id == id
    ensures FirstWithId(gs, id) == FirstWithId(gs[..n], id)
  {
    var k :| 0 <= k < n && gs[..n][k].id == id;
    assert gs[k] == gs[..n][k];
    var a, b := FirstWithId(gs, id), FirstWithId(gs[..n], id);
    assert gs[..n][b] == gs[b];
  }

  lemma FirstWithIdLast(gs: seq<LoadedGroup>, id: string)
    requires gs != [] && gs[|gs| - 1].id == id
    requires forall k :: 0 <= k < |gs| - 1 ==> gs[k].id != id
    ensures FirstWithId(gs, id) == |gs| - 1
  {
  }
}
