# py_tagging core, modelled in Dafny

py_tagging is a small system for tagging media links. It has two halves:

- A FastAPI backend stores content rows, tags, tag groups, content-tag links and link previews in DuckDB.
- A React UI lets a person paste URLs, tag them group by group, and review what is still missing.

Tag groups come from an INI-style config file. A group is `required` or optional and has a `min_count` and a `max_count`. A stored `max_count` of -1 or NULL means "unlimited", depending on who reads it.

This project models the rules at the heart of that system, one Dafny module per source file:

- **Group rules** (`group_rules.dfy`): the min/max status rule (`missing`, `ok`, `over`) shared by the backend and the UI. Also the three ways the code reads a stored maximum, which differ.
- **Backend services:**
  - content validation;
  - tag-assignment validation;
  - the content snapshot (tags grouped by group, completion percentage, missing required groups) and the snapshot list;
  - slugify and ensure-tag;
  - the gallery expanders (Imgur, ArtStation, generic HTML, Flickr);
  - link-preview extraction and storage;
  - tag-group config parsing, loading and seeding;
  - group-aware tag search.
- **Backend routes** (`content_routes.dfy`, `tag_routes.dfy`): bulk create, the duplicate check, complete, next, create tag, and transactional assign. Routes that change the database are methods on a `Db` object (`tables.dfy`) whose fields are the tables.
- **UI** (the bulk-intake page, the tag-group panel, the single-URL form, the tag section, the review page, the content page and the gallery card):
  - a component that keeps state becomes a class whose methods are its event handlers;
  - derived values become functions;
  - each handler states its whole new state.

I/O that the code only passes through becomes a parameter:

- `parse`, `hostOf` and `join` stand for the URL parser and URL joiner.
- `Network` and `Fetch` stand for HTTP answers.
- `pageOf` stands for parsed HTML.
- `now` stands for the clock. The bulk route takes one reading per insert statement (`nows`).
- SQL query results are inputs. At the routes, a `requires` ties each result to the tables it is read from: `LookupResult`, `CountRows`, `JoinResult` and `ValidationRows`, or a permutation of the table in the query's order. The services below the routes accept any rows.
- The driver's `rowcount` after an UPDATE is an input too.

## Model

| member | source | states |
|---|---|---|
| GroupRules.Status | app/services/content_validation.py:39-47 | Exactly one of missing / over / ok holds. The group is missing iff count < min, over iff min <= count and count is outside the bound, ok iff min <= count and count is within it. |
| GroupRules.AddBelowMaxStaysWithin | ui/src/components/TagGroup.tsx:49 | When the UI's "max reached" test is false, one more tag still fits the bound. |
| GroupRules.MaxReachedThenOneMoreIsOver | ui/src/components/TagGroup.tsx:49-57 | Once the maximum is reached, one more tag makes the group "over" (when the minimum is met). |
| GroupRules.StatusMonotoneInMissing | app/services/content_validation.py:39-42 | A group missing at some count is missing at every smaller count. |
| GroupRules.NormaliseMax | app/services/taggroup_loader.py:32 | The loader stores NULL exactly for -1 and keeps every other maximum unchanged. |
| GroupRules.ReadingsAgreeOffSentinel | app/services/tag_validation.py:70-74 | For a stored maximum other than -1, content validation and assignment validation read the same bound. |
| GroupRules.ReadingsDisagreeOnSentinels | app/services/content_validation.py:43-45 | A stored -1 is unlimited for content validation, but for assignment validation it makes every count that meets the minimum "over". A NULL is unlimited for assignment validation and unreadable for content validation. |
| GroupRules.LoadedMaxReadings | app/services/taggroup_loader.py:26-32 | After loading, the stored maximum is read as unlimited by assignment validation whenever the file said -1, and content validation sees NULL exactly then. |
| ContentValidation.Classify | app/services/content_validation.py:38-56 | The entry built for a count row carries the row's group, flags and count, with the status the group rule gives under content validation's reading of the maximum. |
| ContentValidation.ClassifiedUnique | app/services/content_validation.py:49-56 | A row that does not raise has exactly one entry. |
| ContentValidation.ValidateContent | app/services/content_validation.py:4-68 | Validation raises iff some row has a NULL maximum and a met minimum, and it reports the first such row. Otherwise it yields one classified entry per row, in order. The summary counts the required-missing and the over entries, and `valid` holds iff both counts are zero. |
| ContentValidation.RowStatus | app/services/content_validation.py:39-47 | A row gets no status iff it raises; otherwise its status classifies it. |
| ContentValidation.OptionalMissingNeverInvalidates | app/services/content_validation.py:58 | A missing optional group counts neither as required-missing nor as over. |
| TagValidation.ValidateTagAssignment | app/services/tag_validation.py:9-77 | The result is "unknown tags" iff the ids are not all known and distinct. Its list is the request filtered to the unknown ids: request order, one entry per unknown occurrence. Otherwise it is "violated" iff the per-group rows give a violation, listing all of them in row order; otherwise it passes. |
| TagValidation.CountIncoming | app/services/tag_validation.py:33-38 | The incoming count of every group is the number of found tags in that group. |
| TagValidation.CollectViolations | app/services/tag_validation.py:60-74 | The loop collects exactly the violations of every row, with current plus incoming as the total. |
| TagValidation.CheckGroupRow | app/services/tag_validation.py:64-74 | One row gives at most two violations: too few below the minimum, too many above a non-NULL maximum. |
| TagValidation.KnownAndDistinct | app/services/tag_validation.py:26-31 | The lookup finds as many tags as were asked for iff every id is known and no id is repeated. |
| TagValidation.IncomingIsDistinctCount | app/services/tag_validation.py:35-38 | A group's incoming count is the number of distinct known ids that belong to it. |
| TagValidation.RowViolationsMatchStatus | app/services/tag_validation.py:64-74 | A row has no violation iff the group rule says ok under the assignment reading. "Too few" appears iff the group is missing, and "too many" iff the count exceeds the maximum. |
| TagValidation.RowEmptyIffOk | app/services/tag_validation.py:60-74 | A row's violations are empty iff its current plus incoming count is ok. |
| TagValidation.NoViolationsIffAllOk | app/services/tag_validation.py:76-77 | The assignment raises no violation iff every group row is ok. |
| TagValidation.TwoSpeciesViolateMaxOne | app/services/tag_validation.py:70-74 | Two tags of a group with at most one allowed give exactly one "too many" violation. |
| ContentSnapshot.Refs | app/services/content_snapshot.py:51-55 | Each joined tag row gives one tag reference. |
| ContentSnapshot.GroupIds | app/services/content_snapshot.py:51-55 | Each joined tag row gives its group id. |
| ContentSnapshot.GroupTags | app/services/content_snapshot.py:51-55 | The loop builds the grouped-tags map, and the group order is the first-occurrence order of the rows' groups. |
| ContentSnapshot.GroupedTagsIsFilter | app/services/content_snapshot.py:51-55 | A group is a key iff some row is in it, and its list is exactly its rows in order. |
| ContentSnapshot.NoRowsInGroup | app/services/content_snapshot.py:51-55 | A group with no row has no tags. |
| ContentSnapshot.GroupedTagsShape | app/services/content_snapshot.py:51-55 | A group's list is never empty and has one entry per row of the group. |
| ContentSnapshot.GroupKeysAreAssignedGroups | app/services/content_snapshot.py:36-49 | When the rows are the join of the content's links with tags and groups, the keys are exactly the groups of the tags assigned to the content. |
| ContentSnapshot.CompletionPct | app/services/content_snapshot.py:63-76 | The percentage lies between 0 and 100. |
| ContentSnapshot.CompleteIffRequiredOk | app/services/content_snapshot.py:63-76 | The percentage is 100 iff every required group is ok (or there is no required group). |
| ContentSnapshot.ShareOfAll | app/services/content_snapshot.py:72-76 | All of n required groups satisfied gives 100. |
| ContentSnapshot.ShareBelowAll | app/services/content_snapshot.py:72-76 | Fewer satisfied than required gives less than 100. |
| ContentSnapshot.NoneOkIsZero | app/services/content_snapshot.py:72-76 | With required groups and none ok, the percentage is 0. |
| ContentSnapshot.MissingRequiredGroups | app/services/content_snapshot.py:78-82 | One id is listed per required-missing entry. |
| ContentSnapshot.MissingRequiredMembers | app/services/content_snapshot.py:78-82 | An id is listed iff some entry with that id is required and missing. |
| ContentSnapshot.ValidIsComplete | app/services/content_snapshot.py:58-82 | A valid content item is 100% complete and misses no required group. |
| ContentSnapshot.FindContent | app/services/content_snapshot.py:11-21 | The lookup finds nothing iff no content row has the id; otherwise it finds a row with that id. |
| ContentSnapshot.Entries | app/services/content_snapshot.py:60 | Validation of non-raising rows gives one entry per row. |
| ContentSnapshot.FlatNamesCarriedTags | app/services/content_snapshot.py:121-141 | A flat tag list built from the join names exactly the tags the item carries whose tag and group exist. |
| ContentSnapshot.GetContentSnapshot | app/services/content_snapshot.py:5-93 | The snapshot is absent iff the id is unknown. It raises iff validation raises. Otherwise its tags, completion, missing required groups and validation summary are the grouped tags, the percentage, the list and the summary defined above. The tag map's keys are exactly the groups in which the item carries a tag. |
| ContentSnapshot.Flat | app/services/content_snapshot.py:136-143 | Each tag row gives one flat tag. |
| ContentSnapshot.ListContentSnapshots | app/services/content_snapshot.py:95-150 | The list has one snapshot per content row, as a permutation of the table, newest first. Each snapshot carries its row's flat tags, which name exactly the tags the item carries whose tag and group exist. |
| TagEnsure.DeleteOthers | app/services/tag_ensure.py:13 | Only word characters, whitespace and '-' survive. A text made only of those is unchanged, and no uppercase letter appears. |
| TagEnsure.DropSeps | app/services/tag_ensure.py:14 | A dropped run of separators leaves a text that does not start with a separator. |
| TagEnsure.Collapse | app/services/tag_ensure.py:14 | Collapsing is empty iff its input is, and it starts with '_' iff the input starts with a separator. |
| TagEnsure.CollapseShape | app/services/tag_ensure.py:14 | After collapsing there is never "__", and lower-case kept text becomes lower-case word characters. |
| TagEnsure.SlugShape | app/services/tag_ensure.py:11-15 | A slug has no whitespace, no '-', no uppercase letter and no "__", and consists of word characters. |
| TagEnsure.CollapseOfSlug | app/services/tag_ensure.py:14 | Word text without "__" is left as it is by collapsing. |
| TagEnsure.SlugifyIdempotent | app/services/tag_ensure.py:11-15 | Slugifying a slug gives the same slug. |
| TagEnsure.TrimStartLower | app/services/tag_ensure.py:12 | Lower-casing commutes with stripping leading whitespace. |
| TagEnsure.TrimEndLower | app/services/tag_ensure.py:12 | Lower-casing commutes with stripping trailing whitespace. |
| TagEnsure.LowerPyStrip | app/services/tag_ensure.py:12 | `strip().lower()` equals `lower().strip()`. |
| TagEnsure.SlugifyIgnoresCase | app/services/tag_ensure.py:11-15 | Labels that differ only in ASCII case get the same slug. |
| TagEnsure.SlugCollapsesSpaces | app/services/tag_ensure.py:11-15 | "A  b" becomes "a_b". |
| TagEnsure.SlugKeepsGuardedSpace | app/services/tag_ensure.py:11-15 | "! a" becomes "_a": the space after a dropped character is stripped only after punctuation removal, so it survives as '_'. |
| TagEnsure.InsertOrIgnore | app/services/tag_ensure.py:24-42 | After the insert the id is present. An existing row is kept unchanged; a new row gets the label, the group as both category and group, and usage 0. |
| TagEnsure.CountId | app/services/tag_ensure.py:44-49 | The count of rows with the id is at most 1, and it is 1 iff the id exists. |
| TagEnsure.EnsureTag | app/services/tag_ensure.py:18-56 | The answer's id is "group:slug", and it echoes the label and the group. `created` is always true. The tag table changes as insert-or-ignore says and nothing else changes. |
| TagEnsure.EnsureCaseInsensitive | app/services/tag_ensure.py:21-22 | Labels that differ only in case ensure the same tag id. |
| ContentExpand.PathParts | app/services/content_expand.py:45-48 | Splitting the trimmed path always gives at least one part. |
| ContentExpand.TwoPieces | app/services/content_expand.py:45-48 | A path "a/b" splits into ["a", "b"]. |
| ContentExpand.SearchIdLeftmost | app/services/content_expand.py:57-61 | The regex search finds an id iff some position starts an alphanumeric tail of 5 to 8 characters. It returns the tail at the leftmost such position. |
| ContentExpand.SearchIdWitness | app/services/content_expand.py:57-61 | A found id is the tail at a matching position, and no earlier position matches. |
| ContentExpand.ImgurIdExists | app/services/content_expand.py:57-61 | An id exists iff the token has at least 5 characters and its last 5 are alphanumeric. |
| ContentExpand.ImgurIdIsAlnumTail | app/services/content_expand.py:57-61 | The id found is an alphanumeric tail of 5 to 8 characters, and the longest one: it has 8 characters, is the whole token, or follows a non-alphanumeric character. |
| ContentExpand.ImgurAlbumPath | app/services/content_expand.py:50-55 | For /a/<token> and /gallery/<token> the id comes from the token. |
| ContentExpand.ImgurOtherPaths | app/services/content_expand.py:50-55 | A path of two or more parts whose first part is neither "a" nor "gallery" gives no id. |
| ContentExpand.ArtstationProjectId | app/services/content_expand.py:132-142 | A project id exists iff the path has at least two parts and the first is "artwork". The id has no '/'. |
| ContentExpand.ArtworkPath | app/services/content_expand.py:132-142 | /artwork/<id> gives that id. |
| ContentExpand.HandlerIsFirstMatch | app/services/content_expand.py:259-266 | The handler is the first registry entry whose domain occurs in the host, and there is none iff no domain occurs. |
| ContentExpand.ImgurDomainWins | app/services/content_expand.py:248-266 | A host containing "imgur.com" is handled by the Imgur expander. |
| ContentExpand.Present | app/services/content_expand.py:190-197 | Only non-empty values that were present are kept. |
| ContentExpand.ExpandImgur | app/services/content_expand.py:65-126 | A direct i.imgur.com link expands to itself, and a URL without an id expands to nothing. |
| ContentExpand.DedupPreservingOrder | app/services/content_expand.py:190-197 | The loop keeps the first occurrence of each URL, in order. |
| ContentExpand.DedupPromise | app/services/content_expand.py:190-197 | The result has the same members as the input, has no duplicates, and keeps first-occurrence order. |
| ContentExpand.ExpandArtstation | app/services/content_expand.py:144-242 | The expander gives the ArtStation media list, without repeats: the JSON assets when they answer with a list. Otherwise it raises iff the page gives no HTML; else it gives the page data's assets, or nothing. |
| ContentExpand.ImgUrls | app/services/content_expand.py:295-302 | Every `img` URL kept is an image URL. |
| ContentExpand.HtmlImagesAreImages | app/services/content_expand.py:284-312 | Every URL extracted from a page is the og:image or an image URL. |
| ContentExpand.ExtractImagesFromHtml | app/services/content_expand.py:284-312 | The loop extracts the og:image, then the image `src`s, without duplicates. |
| ContentExpand.ExpandGeneric | app/services/content_expand.py:319-333 | The generic expander returns the generic media list. |
| ContentExpand.GenericImageShortCircuit | app/services/content_expand.py:326-327 | An image URL expands to itself whatever the network answers. |
| ContentExpand.FlickrIsEmpty | app/services/content_expand.py:27-29 | A Flickr URL (that is not Imgur) expands to nothing. |
| ContentExpand.Extractions | app/services/content_expand.py:356-366 | Each media URL gets its own preview extraction. |
| ContentExpand.ItemsOfPreviews | app/services/content_expand.py:356-366 | The items fail iff some extraction raised. Otherwise there is one item per media URL, with its preview and the source URL. |
| ContentExpand.ExpansionShape | app/services/content_expand.py:340-372 | The expansion raises iff some medium's preview raises. Otherwise the kind is "unknown" iff there is no medium, "single" iff there is one and "gallery" iff there are more, with one item per medium carrying its preview. |
| ContentExpand.ExpandMedia | app/services/content_expand.py:356-372 | The loop builds the expansion for the media list. |
| ContentExpand.ExpandUrl | app/services/content_expand.py:340-372 | The expander returns the expansion of the URL's media, or raises when the ArtStation expander raises. |
| ContentExpand.ArtstationWithoutPageRaises | app/services/content_expand.py:199-211 | An ArtStation URL without a JSON list and without HTML makes the whole expansion raise. |
| ContentExpand.ItemsRaisedStays | app/services/content_expand.py:356-366 | Once an extraction raises, the whole expansion raises. |
| ContentExpand.ExpandUrls | app/services/content_expand.py:375-376 | There is one expansion per URL, in order, or the first raise. |
| ContentPreview.NormalizeImageUrl | app/services/content_preview.py:30-39 | There is no normalised URL iff the URL is missing or empty. |
| ContentPreview.NormalizeDropsOnlyQuery | app/services/content_preview.py:30-39 | Normalising keeps scheme, host and path and drops the query. |
| ContentPreview.NormalizeWithoutQuery | app/services/content_preview.py:30-39 | A URL without a query is left unchanged. |
| ContentPreview.GetMeta | app/services/content_preview.py:42-50 | A meta value is absent iff the tag is missing or empty, and is otherwise the stripped content. |
| ContentPreview.OrPicksFirstTruthy | app/services/content_preview.py:107-127 | `a or b` is truthy iff either is, and it is `a` when `a` is truthy. |
| ContentPreview.ExtractPreview | app/services/content_preview.py:57-154 | The extraction raises iff the URL is neither a direct image nor a direct video, and either the fetch raises or the title falls back to a `<title>` with no string. An unknown preview is the empty one, and a normalised image is the normalisation of the image found. |
| ContentPreview.DirectUrlsDoNotFetch | app/services/content_preview.py:68-87 | An image or video URL gets its preview without fetching, as an image or video of itself. |
| ContentPreview.HtmlPageType | app/services/content_preview.py:107-154 | An HTML page raises iff neither title meta tag is truthy and the `<title>` has no string. Otherwise a video meta wins, then an image meta, otherwise the type is "page"; the title and description are the meta tags' fallbacks. |
| ContentPreview.BlankOpenGraphFallsThrough | app/services/content_preview.py:42-50 | A whitespace-only og:image strips to "", which is falsy, so the image falls through to twitter:image. |
| ContentPreview.PreviewAndStatus | app/services/content_preview.py:164-181 | The status is "ready" iff the type is known, otherwise "failed". A raised extraction stores the unknown preview. |
| ContentPreview.BuildAndStorePreview | app/services/content_preview.py:161-218 | Storing fails on the foreign key iff the content id is absent. Otherwise the preview row for the id is upserted and nothing else changes. |
| ContentRoutes.CreateContentBulk | app/routes/content.py:108-186 | An empty batch answers "no items" and changes nothing. Otherwise the content table and links become the bulk insert's, where an existing URL is skipped and a new one is created, linked and stamped with its own statement's time. The backup runs iff something was created. |
| ContentRoutes.LinkTags | app/routes/content.py:146-156 | Linking adds exactly the pairs (content, tag) and nothing else. |
| ContentRoutes.BulkPartition | app/routes/content.py:118-162 | Every item is either created or skipped, and the table grows by exactly the created rows. |
| ContentRoutes.BulkKeepsKeys | app/db/schema.py:20-35 | The bulk insert keeps content ids and URLs unique. |
| ContentRoutes.BulkUrlsPresent | app/routes/content.py:118-162 | After the bulk insert every item's URL is stored, whether created now or already there. |
| ContentRoutes.BulkIdsFrom | app/routes/content.py:124-143 | The insert only appends: the old rows stay as a prefix, and every new row carries one of the generated ids with the time of that item's insert. |
| ContentRoutes.BulkStampsInOrder | app/routes/content.py:124-143 | With a clock that never goes back, the created rows are stamped in payload order. |
| ContentRoutes.StoredAmong | app/routes/content.py:189-208 | Only URLs that were asked for and are stored are reported. |
| ContentRoutes.CheckDuplicates | app/routes/content.py:189-208 | An empty list reports nothing, and every URL reported was asked for and is stored. |
| ContentRoutes.StoredAmongComplete | app/routes/content.py:189-208 | Every stored URL that was asked for is reported, once. |
| ContentRoutes.MarkComplete | app/routes/content.py:64-83 | Only the row with the id changes, and its status becomes "complete". |
| ContentRoutes.MatchCount | app/routes/content.py:67-75 | The update matches no row iff the id is unknown, and at most one row under the primary key. |
| ContentRoutes.CompleteAnswer | app/routes/content.py:77-83 | The answer is 404 iff the reported rowcount is 0, and otherwise echoes the id. |
| ContentRoutes.CompleteContent | app/routes/content.py:64-83 | The update runs whatever the id: that row, if any, becomes complete, and nothing else changes. The answer is 404 iff the driver reports a rowcount of 0. When the report is the number of matched rows, that happens iff the id is unknown. |
| ContentRoutes.UnknownIdAnsweredOk | app/routes/content.py:77 | Under DuckDB's report of -1, an unknown id is answered as completed and the table is unchanged. |
| ContentRoutes.CompleteContentByMatch | app/routes/content.py:64-83 | Answers 404 iff the id is unknown, decided from the matched rows; the table changes as in the route. |
| ContentRoutes.CompleteIdempotent | app/routes/content.py:64-83 | Completing twice is completing once, and no row is lost. |
| ContentRoutes.NextContent | app/routes/content.py:31-61 | There is no next item iff every row is complete. Otherwise the next item is a not-complete row that no other not-complete row precedes: oldest first, NULL dates last. |
| TagRoutes.CreateTag | app/routes/tags.py:16-40 | Creating inserts the row with usage 0, or leaves an existing id unchanged, and nothing else changes. |
| TagRoutes.GroupOf | app/routes/tags.py:54-62 | Every tag is mapped to its group. |
| TagRoutes.BumpAll | app/routes/tags.py:113-125 | Bumping keeps the set of tags. |
| TagRoutes.SortedMissing | app/routes/tags.py:64-75 | The missing ids are exactly the unknown ids asked for, without repeats, in sorted order. |
| TagRoutes.AssignTags | app/routes/tags.py:43-140 | An empty request fails at the lookup (500). The route answers "unknown ids" (sorted) iff some id is unknown. It rejects iff the ids repeat or the groups are violated, and rolls back iff the transaction fails part-way. Otherwise it adds the links and bumps usage; on any failure the tables are unchanged. |
| TagRoutes.Transaction | app/routes/tags.py:93-134 | The transaction commits iff it does not fail part-way. A commit adds all pairs and bumps every tag; a rollback restores both tables. |
| TagRoutes.BumpAllUsage | app/routes/tags.py:113-125 | A tag's usage grows by the number of times it is assigned, and its last-used time is set iff it is assigned. |
| TagRoutes.RowViolationListed | app/services/tag_validation.py:60-74 | A violation of any one group row is among the reported violations. |
| TagRoutes.RelinkCountedTwice | app/services/tag_validation.py:36-62 | A tag the item already carries is counted twice, once by the count query and once as incoming. Re-requesting it in a group with at most 1 is rejected, although no pair would be added. |
| TagRoutes.AssignTwice | app/db/schema.py:76-79 | Assigning the same tags twice adds no new link but bumps usage twice. |
| TagGroupConfig.RemoveAll | app/services/taggroups.py:15 | Removing every occurrence never lengthens the text. |
| TagGroupConfig.RemoveAllAbsent | app/services/taggroups.py:15 | A text without the prefix is unchanged. |
| TagGroupConfig.GroupIdOfSection | app/services/taggroup_loader.py:22 | For a section "group.x" the id is x when x does not contain "group." again. |
| TagGroupConfig.ParseTagGroups | app/services/taggroups.py:4-28 | The loop parses exactly the group sections, with their defaults. |
| TagGroupConfig.ParseAllIsFilter | app/services/taggroups.py:12-13 | Only sections starting with "group." are parsed, in order. |
| TagGroupConfig.ParsePositions | app/services/taggroups.py:24-26 | The k-th parsed group has position k. |
| TagGroupConfig.LoadTagGroups | app/services/taggroup_loader.py:9-44 | Loading fails iff the file is missing. Otherwise it gives the loaded groups. |
| TagGroupConfig.LoaderMatchesParser | app/services/taggroup_loader.py:9-44 | The loader and the parser agree on ids, labels, flags and minimum. The maximum agrees off -1 and is NULL on -1. |
| TagGroupConfig.SeedAll | app/services/taggroup_loader.py:47-72 | Seeding adds exactly the loaded ids to the table. |
| TagGroupConfig.SeedRows | app/services/taggroup_loader.py:51-72 | The loop seeds the group table and changes nothing else. |
| TagGroupConfig.SeedTagGroups | app/services/taggroup_loader.py:47-72 | The table is seeded iff the file exists. Otherwise it is unchanged. |
| TagGroupConfig.SeedKeepsFirst | app/services/taggroup_loader.py:52-72 | An existing group is never overwritten, and a new id takes its first occurrence in the file. |
| TagGroupConfig.FirstWithId | app/services/taggroup_loader.py:51 | This is the first position with the id. |
| TagSearch.LikeAnyRest | app/services/tag_search.py:51 | "%" matches everything. |
| TagSearch.LikePrefix | app/services/tag_search.py:51 | Without wildcards in q, `LIKE q%` is exactly "starts with q". |
| TagSearch.UnderscoreMatchesSpace | app/services/tag_search.py:51 | An '_' in the query matches a space, since LIKE reads it as a wildcard. |
| TagSearch.EditDistanceBounds | app/services/tag_search.py:54-57 | The distance lies between the length difference and the longer length. |
| TagSearch.EditDistanceZero | app/services/tag_search.py:54-57 | The distance is 0 iff the strings are equal. |
| TagSearch.EditDistanceSymmetric | app/services/tag_search.py:54-57 | The distance is symmetric. |
| TagSearch.SpacesToUnderscores | app/services/tag_search.py:41 | The query has every space replaced by '_', and nothing else changes. |
| TagSearch.Candidates | app/services/tag_search.py:41-72 | Each row of the group gets its prefix flag and its distance to the query, or no distance without a query. |
| TagSearch.RankOrdersAreTotal | app/services/tag_search.py:20-22 | Both orderings are total and transitive. |
| TagSearch.Ranked | app/services/tag_search.py:20-22 | The ranking is a permutation of the group's candidates. Each carries a distance iff there is a query. |
| TagSearch.SearchTags | app/services/tag_search.py:4-84 | The search returns min(limit, group size) hits, and each carries a distance iff there is a query. |
| TagSearch.HitsComeFromGroup | app/services/tag_search.py:11-36 | Every hit is a tag of the requested group. |
| TagSearch.HitsAreTheBestRanked | app/services/tag_search.py:60-65 | The hits are the first ranked candidates, in rank order, and no candidate left out ranks above them. |
| TagSearch.PrefixMatchesFirst | app/services/tag_search.py:60-64 | With a query, no prefix match comes after a non-prefix match. |
| TagSearch.TopUsedOrder | app/services/tag_search.py:20-22 | Without a query, the hits come in descending usage. |
| TagSearch.SmallGroupReturnedWhole | app/services/tag_search.py:23 | A group no larger than the limit is returned whole. |
| ContentPage.KeysAndOrder | ui/src/pages/ContentPage.tsx:58-71 | The map's keys, the ids seen and the insertion order are the same set, and the order has no duplicates. |
| ContentPage.EntryOf | ui/src/pages/ContentPage.tsx:58-71 | A tag's entry counts its occurrences, and keeps the name of its first occurrence. |
| ContentPage.KeyIffOrdered | ui/src/pages/ContentPage.tsx:58-71 | An id is in the map iff it is in the insertion order. |
| ContentPage.VisitTags | ui/src/pages/ContentPage.tsx:58-71 | The inner loop extends the map and the order by one item's tags. |
| ContentPage.TagStats | ui/src/pages/ContentPage.tsx:55-74 | The loops compute the tag statistics. |
| ContentPage.SortedValues | ui/src/pages/ContentPage.tsx:73 | Sorting the values gives a permutation of them, in descending count. |
| ContentPage.StatsOfMeaning | ui/src/pages/ContentPage.tsx:55-74 | The statistics have one entry per distinct tag id, with its count, in descending count. |
| ContentPage.FilteredItemsMeaning | ui/src/pages/ContentPage.tsx:77-82 | With no filter every item is shown. Otherwise exactly the items with some selected tag are shown, in order. |
| ContentPage.ToggleFilterMeaning | ui/src/pages/ContentPage.tsx:84-90 | A toggle flips one id, leaves the others, and toggling twice restores the set. |
| MasonryGrid.TopTagsOrdered | ui/src/components/gallery/MasonryGrid.tsx:8-16 | The card shows min(limit, n) tags in descending usage (a missing count read as 0). |
| MasonryGrid.TopTagsDominate | ui/src/components/gallery/MasonryGrid.tsx:8-16 | Shown and hidden tags together are the input, and every shown tag is used at least as much as every hidden one. |
| MasonryGrid.NoTagsNoneShown | ui/src/components/gallery/MasonryGrid.tsx:9 | Absent or empty tags show nothing. |
| TagGroupSection.SortedTagsMeaning | ui/src/components/tags/TagGroupSection.tsx:24-26 | The sorted tags are a permutation in descending usage. |
| TagGroupSection.VisibleTagsMeaning | ui/src/components/tags/TagGroupSection.tsx:28-30 | Expanded shows everything, collapsed shows the first min(6, n). Either way the visible tags are a prefix. |
| TagGroupSection.ToggleIffSomethingHidden | ui/src/components/tags/TagGroupSection.tsx:132 | The toggle shows iff collapsing hides a tag. |
| TagGroupSection.SubmittedLabel | ui/src/components/tags/TagGroupSection.tsx:32-37 | A label is ignored iff it is all whitespace, and the label handed over is trimmed. |
| TagGroupSection.SectionState.constructor | ui/src/components/tags/TagGroupSection.tsx:20-22 | A new section starts collapsed, not adding, with an empty label. |
| TagGroupSection.SectionState.ToggleExpanded | ui/src/components/tags/TagGroupSection.tsx:134 | The section flips between expanded and collapsed, and nothing else changes. |
| TagGroupSection.SectionState.StartAdding | ui/src/components/tags/TagGroupSection.tsx:20-22 | The add input opens. |
| TagGroupSection.SectionState.SetNewLabel | ui/src/components/tags/TagGroupSection.tsx:20-22 | The typed label is stored. |
| TagGroupSection.SectionState.Submit | ui/src/components/tags/TagGroupSection.tsx:32-37 | A tag is created iff the trimmed label is non-empty and a callback exists. It gets the trimmed label, and the input then clears and closes; otherwise nothing changes. |
| TagGroupSection.SectionState.Escape | ui/src/components/tags/TagGroupSection.tsx:113-117 | Escape closes the input and clears the label. |
| UrlInput.WithScheme | ui/src/components/UrlInput.tsx:10 | The URL completed with a scheme starts with "http". |
| UrlInput.StripWww | ui/src/components/UrlInput.tsx:12 | One leading "www." is removed, and nothing else changes. |
| UrlInput.GuessSiteMeaning | ui/src/components/UrlInput.tsx:8-16 | An unparsable URL suggests no site. Otherwise the suggestion is its host, less one "www.". |
| UrlInput.OrUnknown | ui/src/components/UrlInput.tsx:37-42 | A field sent is never empty. |
| UrlInput.SiteField | ui/src/components/UrlInput.tsx:37-42 | The site sent is never empty. |
| UrlInput.BlankTypedSiteIsUnknown | ui/src/components/UrlInput.tsx:37-42 | A typed site of only whitespace is sent as "unknown", not as the suggestion. |
| UrlInput.OrUnknownMeaning | ui/src/components/UrlInput.tsx:37-42 | A non-blank value is sent trimmed, and a blank one as "unknown". |
| UrlInput.RequestFor | ui/src/components/UrlInput.tsx:29-42 | No request is sent iff the trimmed URL is empty. Otherwise the request has the completed URL, the site, the creator and the type. |
| UrlInput.BlankUrlIgnored | ui/src/components/UrlInput.tsx:30-31 | Submission is ignored iff the URL is all whitespace. |
| UrlInput.UrlInputForm.constructor | ui/src/components/UrlInput.tsx:19-25 | The form starts empty, with type image, not loading and no error. |
| UrlInput.UrlInputForm.SetUrl | ui/src/components/UrlInput.tsx:19-25 | The URL is stored, and nothing else changes. |
| UrlInput.UrlInputForm.SetSite | ui/src/components/UrlInput.tsx:19-25 | The site is stored, and nothing else changes. |
| UrlInput.UrlInputForm.SetCreator | ui/src/components/UrlInput.tsx:19-25 | The creator is stored, and nothing else changes. |
| UrlInput.UrlInputForm.SetKind | ui/src/components/UrlInput.tsx:19-25 | The type is stored, and nothing else changes. |
| UrlInput.UrlInputForm.Submit | ui/src/components/UrlInput.tsx:29-42 | Submitting sends the request for the fields. When it sends, it starts loading and clears the error. The fields are kept. |
| UrlInput.UrlInputForm.StartLoading | ui/src/components/UrlInput.tsx:34-35 | Loading starts and the error clears. |
| UrlInput.UrlInputForm.SubmitAnswered | ui/src/components/UrlInput.tsx:44-54 | Success resets the fields and notifies the parent. Failure keeps the fields and shows the message, or a default. Loading ends either way. |
| ReviewPage.RenderOrder | ui/src/pages/ReviewPage.tsx:34-49 | Loading wins over an error, and an error wins over a missing snapshot. Completion is enabled iff validation has answered "valid". |
| ReviewPage.SplitPartitions | ui/src/pages/ReviewPage.tsx:70-71 | The required and optional panels partition the groups and keep their order. |
| ReviewPage.OpenPanel | ui/src/pages/ReviewPage.tsx:96-115 | A panel gets the group's min, its raw max, and the snapshot's tags for the group, or none. |
| ReviewPage.SentinelClosesPanelGate | ui/src/pages/ReviewPage.tsx:96-97 | A group stored with max -1 has its add gate closed and shows "over" once its minimum is met, while content validation reads -1 as unlimited. |
| ReviewPage.NullMaxKeepsPanelOpen | ui/src/pages/ReviewPage.tsx:96-97 | A NULL max never closes the gate and never shows "over". |
| TagGroupPanel.PanelUsesSharedRule | ui/src/components/TagGroup.tsx:48-57 | The panel's badge and gate are the shared group rule under the client's reading of the maximum. |
| TagGroupPanel.GateKeepsWithinMax | ui/src/components/TagGroup.tsx:77 | While the gate is open the group is not over, and after one more tag it is still not over. |
| TagGroupPanel.SuggestionsMeaning | ui/src/components/TagGroup.tsx:203-224 | Suggestions are exactly the results not yet selected. "Create" is offered iff every result is already selected. |
| TagGroupPanel.UnselectMeaning | ui/src/components/TagGroup.tsx:96-106 | Removal drops exactly the tag's id. |
| TagGroupPanel.UnselectKeepsDistinct | ui/src/components/TagGroup.tsx:96-106 | Removal keeps ids distinct. |
| TagGroupPanel.AppendKeepsDistinct | ui/src/components/TagGroup.tsx:85-93 | Appending an unselected tag keeps ids distinct. |
| TagGroupPanel.TagGroupPanel.constructor | ui/src/components/TagGroup.tsx:33-43 | A panel starts with the initial tags, an empty query and no results. |
| TagGroupPanel.TagGroupPanel.SyncInitial | ui/src/components/TagGroup.tsx:33-35 | New initial tags replace the selection. |
| TagGroupPanel.TagGroupPanel.SetQuery | ui/src/components/TagGroup.tsx:62-71 | A search starts iff the query is non-empty. An empty query clears the results. |
| TagGroupPanel.TagGroupPanel.SearchAnswered | ui/src/components/TagGroup.tsx:62-71 | An answer replaces the results, and a failed search keeps them. |
| TagGroupPanel.TagGroupPanel.HandleAdd | ui/src/components/TagGroup.tsx:76-94 | The ensure call happens iff the gate is open and the tag is new. The assignment happens iff the gate is open, the tag resolves and it is not already selected. Only a successful assignment appends and clears the query. Distinct ids and "within max" are kept. |
| TagGroupPanel.TagGroupPanel.HandleRemove | ui/src/components/TagGroup.tsx:96-106 | The tag is unassigned. On success it leaves the selection, and on failure the selection is unchanged. Distinct ids are kept. |
| BulkIntake.IsHttpUrlPrefix | ui/src/pages/BulkIntakePage.tsx:57-59 | A line is a URL iff it starts with http:// or https://, case-insensitively. |
| BulkIntake.SeenMembers | ui/src/pages/BulkIntakePage.tsx:61-65 | The seen set is exactly the URL lines so far. |
| BulkIntake.ClassifyLineMeaning | ui/src/pages/BulkIntakePage.tsx:50-76 | A line is empty, invalid, a duplicate in the list, "checking", already in the database, or ok, decided in that order. |
| BulkIntake.ValidateLine | ui/src/pages/BulkIntakePage.tsx:50-76 | The loop body classifies the line and adds a URL to the seen set. |
| BulkIntake.ValidateLines | ui/src/pages/BulkIntakePage.tsx:47-77 | The loop classifies every line of the text. |
| BulkIntake.ClassifiedLength | ui/src/pages/BulkIntakePage.tsx:47-77 | There is one classification per line. |
| BulkIntake.ClassifiedAt | ui/src/pages/BulkIntakePage.tsx:47-77 | Line k is classified against the URLs before it. |
| BulkIntake.DuplicateInListIffEarlier | ui/src/pages/BulkIntakePage.tsx:61-63 | A URL is a duplicate in the list iff it occurs earlier. |
| BulkIntake.CountsPartition | ui/src/pages/BulkIntakePage.tsx:79-83 | Valid, invalid and empty lines add up to all lines. |
| BulkIntake.CheckingBlocksOnlyOnErrors | ui/src/pages/BulkIntakePage.tsx:67-69 | While the check runs no line is a database duplicate, so the invalid lines are exactly the lines in error. |
| BulkIntake.OkUrlMember | ui/src/pages/BulkIntakePage.tsx:75-79 | An ok URL is an http(s) URL of the text, and once the check has answered it is not a known database duplicate. |
| BulkIntake.OkLineMeans | ui/src/pages/BulkIntakePage.tsx:75 | An ok line is a new http(s) URL, and once the check has answered it is not a known database duplicate. |
| BulkIntake.OkUrlsDistinct | ui/src/pages/BulkIntakePage.tsx:79 | The URLs submitted are distinct. |
| BulkIntake.SeenCountsFirstOccurrences | ui/src/pages/BulkIntakePage.tsx:61-75 | The number of distinct URLs equals the number of ok or already-stored lines. |
| BulkIntake.FirstOccurrenceIsNew | ui/src/pages/BulkIntakePage.tsx:61-65 | A line is a first occurrence iff it is a URL not seen before. |
| BulkIntake.CandidatesSeen | ui/src/pages/BulkIntakePage.tsx:89-96 | The URLs checked against the database are the URL lines. |
| BulkIntake.CandidatesAreDedup | ui/src/pages/BulkIntakePage.tsx:89-96 | The candidates are the URL lines, deduplicated in order. |
| BulkIntake.CandidatesAreFirstOccurrences | ui/src/pages/BulkIntakePage.tsx:89-96 | The candidates are distinct, and there are as many as there are ok or already-stored lines. |
| BulkIntake.OrNull | ui/src/pages/BulkIntakePage.tsx:138-139 | An empty field is sent as null. |
| BulkIntake.PayloadShape | ui/src/pages/BulkIntakePage.tsx:136-142 | There is one item per valid URL, with the shared fields and tag ids. |
| BulkIntake.Without | ui/src/pages/BulkIntakePage.tsx:175 | The filtered list lacks the id. |
| BulkIntake.ToggleFlipsOne | ui/src/pages/BulkIntakePage.tsx:172-178 | A toggle flips one id's membership. |
| BulkIntake.ToggleKeepsNoDuplicates | ui/src/pages/BulkIntakePage.tsx:172-178 | A toggle keeps the ids distinct. |
| BulkIntake.WithoutKeepsNoDuplicates | ui/src/pages/BulkIntakePage.tsx:175 | Filtering keeps the ids distinct. |
| BulkIntake.ToggleTwiceAbsent | ui/src/pages/BulkIntakePage.tsx:172-178 | Toggling an absent id twice restores the list. |
| BulkIntake.ToggleTwicePresent | ui/src/pages/BulkIntakePage.tsx:172-178 | Toggling a present id twice moves it to the end. |
| BulkIntake.FilterAllKept | ui/src/pages/BulkIntakePage.tsx:175 | Filtering out an absent id changes nothing. |
| BulkIntake.BulkIntakePage.constructor | ui/src/pages/BulkIntakePage.tsx:20-31 | The page starts empty, with type image and nothing pending. |
| BulkIntake.BulkIntakePage.SetText | ui/src/pages/BulkIntakePage.tsx:88-112 | New text with no candidates clears the known duplicates. New text with candidates schedules a check and shows "checking". Unchanged text keeps the timer. |
| BulkIntake.BulkIntakePage.RestartCheck | ui/src/pages/BulkIntakePage.tsx:98-111 | The effect clears or schedules the duplicate check. |
| BulkIntake.BulkIntakePage.SetSite | ui/src/pages/BulkIntakePage.tsx:193 | The site is stored, and nothing else changes. |
| BulkIntake.BulkIntakePage.SetCreator | ui/src/pages/BulkIntakePage.tsx:199 | The creator is stored, and nothing else changes. |
| BulkIntake.BulkIntakePage.SetKind | ui/src/pages/BulkIntakePage.tsx:202 | The type is stored, and nothing else changes. |
| BulkIntake.BulkIntakePage.TimerFires | ui/src/pages/BulkIntakePage.tsx:105-109 | The debounce fires one more check request. |
| BulkIntake.BulkIntakePage.CheckAnswered | ui/src/pages/BulkIntakePage.tsx:114-125 | A non-ok answer empties the duplicates and ends checking. An ok one sets them to the answer. A thrown one changes neither. |
| BulkIntake.BulkIntakePage.Toggle | ui/src/pages/BulkIntakePage.tsx:172-178 | The selection is toggled, and distinct ids are kept. |
| BulkIntake.BulkIntakePage.Submit | ui/src/pages/BulkIntakePage.tsx:130-142 | Nothing is sent iff there is no valid line or some invalid line. Otherwise the payload is sent and loading starts. |
| BulkIntake.BulkIntakePage.SubmitAnswered | ui/src/pages/BulkIntakePage.tsx:153-170 | Success shows the count and clears text, duplicates and selection. A non-ok answer or a throw shows its message and keeps the form. Loading ends. |
| BulkIntake.BulkIntakePage.ShowResult | ui/src/pages/BulkIntakePage.tsx:153-156 | The result shows and loading ends. |
| BulkIntake.BulkIntakePage.ClearForm | ui/src/pages/BulkIntakePage.tsx:161-165 | The text, the duplicates and the selection are cleared. |
| Tables.AppendKeepsKeys | app/db/schema.py:20-35 | Appending a row with a new id and URL keeps both unique. |
| Tables.Db.constructor | app/db/schema.py:20-96 | A fresh database has empty tables and satisfies its invariant. |

## Findings

| source | as written | input that shows it | evidently intended | confidence | as-written member | corrected member |
|---|---|---|---|---|---|---|
| app/routes/content.py:77 | 404 only when `res.rowcount == 0` | any id not in the table: DuckDB's Python connection reports `rowcount` as -1, so the route answers ok | 404 exactly when no row has the id | medium (depends on how the DuckDB driver fills `rowcount`), not executed | ContentRoutes.UnknownIdAnsweredOk | ContentRoutes.CompleteContentByMatch |

## Left out

- Network and parsing are parameters: HTTP requests, HTML parsing (BeautifulSoup), URL parsing and joining, the browser's `new URL`, and the JSON answers of Imgur and ArtStation. The model proves what the code does with their answers.
- Only ASCII letters are lower-cased, and `\w` and `\s` are read as ASCII word characters and Python whitespace. Unicode case folding and Unicode word classes are not modelled.
- ContentSnapshot.CompletionPct: uses integer division `satisfied * 100 / total` where the code computes `int((satisfied / total) * 100)` in floating point. The two can differ by one for some ratios, so only the bounds, 0 and 100 are claimed.
- SQL queries are inputs: the rows a SELECT returns are given in the order the query asks for. The order among ties (equal `created_at`, equal usage) is left open. The grouped-tag join is pinned to its rows but not to its `ORDER BY tg.position, t.usage_count DESC`.
- Reading the config file (configparser) is not modelled: the sections are given as a sequence of optional values.
- The unassign route (DELETE /tags/assign), the single-item POST /content/, the Drive sync, the database snapshot, parquet export, the debug and tag-group routes, the schema DDL and DB_RESET are not part of this model.
- A content row's NULL `status` is not modelled: status is a string.
- BulkIntake.BulkIntakePage: in-flight duplicate checks are a count, not request identities. A stale answer overwrites a newer one, as in the code.
- TagSearch.SearchTags: the limit is a natural number. Negative limits are not modelled.
- TagGroupPanel.TagGroupPanel.HandleAdd: each await runs atomically, and a failed ensure ends the handler. Stale search answers in the panel are not distinguished from fresh ones.
- UrlInput.UrlInputForm.Submit: Enter submits even while loading (only the button is disabled); the model does the same and does not add a loading guard.
- The UI's `min`/`max` names for `min_count`/`max_count` are a renaming only.
- The 400 ms debounce is an event: `TimerFires`. Time is not modelled.
- Logging (`logger`, `console.log`) is left out.
- Where the code differs from the system's written design, the model follows the code:
  - The stored -1 closes the UI panel's gate.
  - Content validation raises on a NULL max once the minimum is met.
  - An '_' in a search query is a LIKE wildcard.
  - The panel does not update optimistically.
  - The UI does not expand galleries.
  - A non-ok duplicate check empties the set of known duplicates.
