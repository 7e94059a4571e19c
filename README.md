# Ukulele tutorial catalog: a Dafny model

This project models the core of a catalog of ukulele tutorial videos and the search
client of its web site.

The catalog updater (scripts/update-data.py) does five things:

- decides which harvested videos to keep (`_ignore_video`);
- cuts a video's title and description into fields (`_extract_info`);
- reconciles a freshly parsed batch with the curated catalog (`_merge_into_existing`);
- indexes renditions of the same song (`_update_related`);
- writes the published records (`_write_json_data`).

The web site's search client (site/lib/search.js) does four things:

- filters videos by favourites, by a text query and by facets;
- counts facet values;
- cuts pages of results (`makeResult`);
- derives the fields the facets use (`createSearchClient`).

Modules, one file each:

- `Wrappers` (`Option`, `Result`), `Order` (comparators, lexicographic order), `Text` (the
  Python/JavaScript string operations the code uses, ASCII case mapping) and `Seqs`
  (filter, map, `drop_duplicates`, a stable insertion sort) are the vocabulary.
- `Classifier`: `_ignore_video`, a loop over the drop words and then the select words.
- `Extraction`: `_extract_info` after its regular expressions. The title-noise pattern
  and the description patterns are parameters (a `Patterns` value). The pipe-collapsing
  substitution and the parenthesised-album pattern `\((.*)\)` are modelled exactly. The
  harvested entry is a class whose description the extractor rewrites in place.
- `Catalog`: the `COLUMNS` row, and the merge as a function over sequences of rows. A
  NaN cell is `None`. An upload date is a number when it was loaded from the catalog
  file and text when it came from a parsed batch.
- `Related`: the (track, album) grouping, the duplicate-dropping and the left join.
- `Publish`: the published records and their list columns.
- `JsValues`: JavaScript values and the coercions the search code relies on.
- `Search`: `filterFavorites`, `filterByQuery` and `filterByFacets`, whose `chords` query
  uses one of four modes and throws for any other `chordsSearchMode`.
- `Facets`: `getCounts`, `getListCounts`, `makeResult` and the derived search fields.

Behaviour of the code worth knowing:

- The merge is not idempotent. Two different parsed rows with one id, both marked
  ignored, survive a first merge. On the next merge they are curated and collapse into
  one row (`Catalog.MergeNotIdempotent`).
- The merge does not keep a curated row byte for byte. It fills the row's empty cells
  from the first parsed row with the same id that has them (`Catalog.MergedRowKeeps`).
- The merge deletes rows. A non-curated existing row whose id is not in the batch is
  dropped (`Catalog.MergeDropsStaleRows`).
- Related ids are joined in row order, not sorted.
- A row marked ignored that shares its (track, album) pair with a group gets the group's
  `id_related` through the left join.
- A group of one gets `''` only when it is the first such group in (track, album) order.
  Every later group of one is removed by `drop_duplicates` and its row gets a missing
  value (`Related.SingletonRelated`).
- The catalog file is read back without a `dtype` (line 191), so its `yyyymmdd` dates load
  as numbers. Once the batch adds text dates, `col.str.lower()` turns every loaded date into
  NaN. Among rows that tie on the first five sort keys, every parsed date then comes before
  every curated row's date, and the curated rows tie on date (`Catalog.MergeLoadedDatesLast`).
- The published records keep the `ignore` column, and their lists keep repeated items.

## Model

| member | source | states |
|---|---|---|
| Classifier.IgnoreVideo | scripts/update-data.py:275-286 | the loop returns exactly `ShouldIgnore`: a drop word in the lower-cased title means ignore, else a select word means keep, else ignore |
| Classifier.DropWordWins | scripts/update-data.py:280-285 | a drop word decides the verdict even when a select word is also present |
| Classifier.CaseInsensitive | scripts/update-data.py:276 | titles with the same lower-case form get the same verdict |
| Extraction.CollapseWellCollapsed | scripts/update-data.py:215 | after the collapse every pipe stands alone, with no whitespace or pipe beside it |
| Extraction.CollapseFixedPoint | scripts/update-data.py:215 | a title whose pipes already stand alone is unchanged by the collapse |
| Extraction.CollapseIdempotent | scripts/update-data.py:215 | collapsing twice equals collapsing once |
| Extraction.CollapseWithoutPipes | scripts/update-data.py:215 | a title without pipes is unchanged, whitespace included |
| Extraction.CollapsedTitleFields | scripts/update-data.py:215-216 | the fields cut from a collapsed title hold no pipe and no whitespace beside a pipe, and a field followed by another pipe is non-empty |
| Extraction.TitleFieldsRebuild | scripts/update-data.py:216 | a title with at most two pipes is its fields joined by pipes |
| Extraction.SearchParen | scripts/update-data.py:218 | a match of `\((.*)\)` lies inside the searched text and opens before it closes |
| Extraction.ParenMatch | scripts/update-data.py:218-223 | on one line, the group is the text between the first `(` and the last `)`, and the substitution removes exactly that clause |
| Extraction.ParenClauseMoves | scripts/update-data.py:217-223 | a track's parenthesised clause becomes the stripped album and leaves the stripped track |
| Extraction.UnclosedParen | scripts/update-data.py:217-223 | a `(` with no `)` after it gives an empty album and a track that is only stripped |
| Extraction.CleanChordsShape | scripts/update-data.py:227-232 | a cleaned chord list has no `.`, no outer whitespace and is title-cased |
| Extraction.CleanNamesShape | scripts/update-data.py:241-247 | a cleaned artist or composer list has no ` &` left, also after title-casing |
| Extraction.DetectLanguage | scripts/update-data.py:252-260 | the language is one named in the lower-cased title (`bangla` read as `bengali`), else the channel's `song_language`, or an error when the channel has none |
| Extraction.MentionedNames | scripts/update-data.py:252-257 | a detected language is a known language word and never `bangla` |
| Extraction.SingleLanguage | scripts/update-data.py:254-258 | a title naming exactly one language determines the result |
| Extraction.FindChannel | scripts/update-data.py:251 | the lookup succeeds exactly when some channel has the entry's channel id, and returns such a channel |
| Extraction.ExtractInfo | scripts/update-data.py:213-273 | the description is rewritten by the song-info substitution, even when the channel lookup then fails; a missing channel is an error; otherwise the result is `InfoOf` of the title, the original description and the language |
| Extraction.InfoShape | scripts/update-data.py:262-272 | `ignore` is 1 exactly for an empty cleaned title; `ignore` and `baritone` are 0 or 1; track, artists, album, composers and language are title-cased |
| Catalog.ColumnsListed | scripts/update-data.py:44-47 | every column of a row is listed in `COLUMNS` |
| Catalog.ColumnsCoverRow | scripts/update-data.py:44-47 | `COLUMNS` names every field of a row: two rows with the same cell in every listed column are the same row, so `data[COLUMNS]` loses nothing |
| Catalog.AggregateFirstKeeps | scripts/update-data.py:199-200 | `agg('first')` keeps every value of a group's first row, and a cell is missing only when it is missing in every row |
| Catalog.CoalesceKeeps | scripts/update-data.py:200 | coalescing two rows keeps every value of the first and leaves no cell empty that either row fills |
| Catalog.KeepsComplete | scripts/update-data.py:197-200 | a row that keeps every value of a complete row with the same id is that row |
| Catalog.GroupIdsAreCuratedIds | scripts/update-data.py:197-200 | the groups are the curated ids, each exactly once |
| Catalog.ReconciledRows | scripts/update-data.py:197-200 | the reconciled rows are exactly the merged rows of the curated ids |
| Catalog.MergeMultiplicity | scripts/update-data.py:197-204 | the merge holds every reconciled and every fresh row exactly once, and nothing else |
| Catalog.MergedRowKeeps | scripts/update-data.py:193-200 | the reconciled row of a curated id keeps every value its first curated row has, and is that row when the row has no empty cell |
| Catalog.MergeKeepsCurated | scripts/update-data.py:193-204 | a curated id has exactly one row in the merge; it keeps every value the curator set, and it is the curated row itself when that row has no empty cell |
| Catalog.MergeFreshRows | scripts/update-data.py:202-204 | a parsed row whose id is not curated reaches the merge; every other merged row is the reconciled row of a curated id |
| Catalog.MergeDropsStaleRows | scripts/update-data.py:190-204 | a non-curated existing row whose id is absent from the batch is dropped |
| Catalog.MergeWithoutCurated | scripts/update-data.py:197-204 | with no curated rows, the merge holds exactly the rows of the batch |
| Catalog.MergeOneId | scripts/update-data.py:197-204 | when every row has one curated id, every merged row is that id's reconciled row |
| Catalog.MergeSingleId | scripts/update-data.py:197-204 | when every row has one curated id, the merge holds at most one row |
| Catalog.MergeNotIdempotent | scripts/update-data.py:190-204 | merging the same batch twice can change the catalog |
| Catalog.MergeNoDuplicates | scripts/update-data.py:204 | no two rows of the merge are identical |
| Catalog.MergeSorted | scripts/update-data.py:191-209 | the merge is sorted by the multi-key order, with `upload_date` compared as text when some merged row has a parsed date and as a number otherwise; ignore, then publish, descending with missing values last |
| Catalog.ParsedDatesFirst | scripts/update-data.py:206-209 | in a text date column, of two rows that tie on the leading keys the one with a parsed date comes strictly first, since a loaded date's key is NaN |
| Catalog.LoadedDatesTie | scripts/update-data.py:206-209 | in a text date column, two rows that tie on the leading keys and have no parsed date tie on the whole order |
| Catalog.MergeLoadedDatesLast | scripts/update-data.py:191-209 | when the merge holds a parsed date, among rows that tie on the leading keys no loaded or missing date comes before a parsed one |
| Catalog.RowLeKeys | scripts/update-data.py:206-209 | what the row order says about the two leading keys |
| Catalog.RowLeIsPreorder | scripts/update-data.py:206-209 | the multi-key order is total and transitive, so sorting by it sorts |
| Catalog.SortOrderPreorder | scripts/update-data.py:206-209 | the comparator chain of the six sort keys is a preorder |
| Catalog.CaselessPreorder | scripts/update-data.py:208 | comparing lower-cased strings is a preorder |
| Catalog.IntDescPreorder | scripts/update-data.py:209 | descending numeric order is a preorder |
| Catalog.DateOrderPreorder | scripts/update-data.py:208 | the `upload_date` comparison is a preorder for either column type |
| Related.UpdateRelated | scripts/update-data.py:179-188 | every row stays in its place and only `id_related` changes; a row without track or album gets a missing value |
| Related.SharedGroupRelated | scripts/update-data.py:180-188 | with unique comma-free ids, two rows sharing a pair, neither ignored, get the comma-join of their group's ids, own id included; every row with that pair gets the same cell. The merge does not guarantee unique ids (`Catalog.MergeNotIdempotent`) |
| Related.RelatedSymmetric | scripts/update-data.py:179-188 | with unique comma-free ids, each of two such rows has the other's id among the comma-separated ids of its `id_related`. The merge does not guarantee unique ids (`Catalog.MergeNotIdempotent`) |
| Related.SingletonRelated | scripts/update-data.py:180-184 | a group of one gets `''` when no earlier group of one exists, and a missing value otherwise |
| Related.SharedGroupKept | scripts/update-data.py:184 | with unique comma-free ids, `drop_duplicates` keeps every group of two or more |
| Related.JoinIdsEmpty | scripts/update-data.py:181 | joined ids are `''` exactly for a group of one |
| Related.MemberInGroup | scripts/update-data.py:182-184 | a grouped row's pair forms a group that holds its id |
| Related.KeyHasMembers | scripts/update-data.py:182-184 | every group has at least one id |
| Related.GroupIdsCommaFree | scripts/update-data.py:180-184 | the ids of a group are comma-free when the catalog's are |
| Related.GroupIdRow | scripts/update-data.py:182-184 | every id of a group belongs to a grouped row with that pair |
| Related.KeyLessIrreflexive | scripts/update-data.py:183 | the group order is strict |
| Publish.SortListShape | scripts/update-data.py:159-160 | `sort_list` is sorted, keeps every non-empty item with its multiplicity and drops the empty ones |
| Publish.StrLeIsPreorder | scripts/update-data.py:160 | code-point order on strings is total and transitive |
| Publish.ListFieldRoundTrip | scripts/update-data.py:163-173 | joining the list of a canonical cell with commas gives the cell back |
| Publish.PublishRoundTrip | scripts/update-data.py:163-175 | publishing a row with canonical list cells loses nothing |
| Publish.PublishShape | scripts/update-data.py:157-175 | no ignored row is published, every other row is, and every list is sorted and free of `''` |
| Search.FilterFavorites | site/lib/search.js:1-4 | the videos unchanged without a favourite filter, and exactly the favourite videos with one |
| Search.FilterFavoritesSubseq | site/lib/search.js:1-4 | favourite filtering keeps the videos' order |
| Search.FilterByQuery | site/lib/search.js:6-14 | a video stays exactly when its lower-cased track or title contains the lower-cased query |
| Search.FilterByQuerySubseq | site/lib/search.js:13 | query filtering keeps the videos' order |
| Search.EmptyQuery | site/lib/search.js:6-14 | the empty query keeps exactly the videos with a string track or title |
| Search.QueryCaseInsensitive | site/lib/search.js:7-11 | queries with the same lower-case form select the same videos |
| Search.SetFacet | site/lib/search.js:21 | setting a key changes only entries with that key |
| Search.SetFacetLookup | site/lib/search.js:21 | after setting a key, it reads back the new items, and every other key is unchanged |
| Search.SetFacetDistinct | site/lib/search.js:21 | setting a key never makes it occur twice |
| Search.BuildQueriesMeaning | site/lib/search.js:19-22 | building `filterQ` throws exactly when a group is empty; otherwise each attribute occurs once and holds the values of the last group with that key |
| Search.ChordsMode | site/lib/search.js:31-54 | `listFilterFuncs[chordsSearchMode]` is a mode exactly when the value's property key is that mode's key |
| Search.FilterByFacets | site/lib/search.js:16-64 | throws exactly when building `filterQ` throws, or when a `chords` query meets a `chordsSearchMode` that names no mode (`undefined` included); otherwise the result is the videos that pass every query, in order |
| Search.ApplyQueries | site/lib/search.js:25-63 | the loop throws exactly when a `chords` query is present and no mode was chosen; otherwise it keeps the videos that pass every query, in order |
| Search.ModeUnread | site/lib/search.js:53-54 | without a `chords` query the mode does not change which videos pass |
| Search.PassesAllStep | site/lib/search.js:25-61 | one more loop step narrows by that query, or not at all for `favorite` |
| Search.AnyMeaning | site/lib/search.js:39-42 | `any` keeps a video when some query item is in its set |
| Search.AllMeaning | site/lib/search.js:43-46 | `all` keeps a video when every query item is defined and in its set |
| Search.NoneOfMeaning | site/lib/search.js:47-50 | `none` keeps a video when no query item is in its set |
| Search.ExactMeaning | site/lib/search.js:32-38 | `exact` keeps a video when every query item is in its set and the counts agree |
| Search.ExactWithoutRepeats | site/lib/search.js:32-38 | without repeated query items, `exact` keeps a video exactly when its set equals the query's |
| Search.FacetSelection | site/lib/search.js:24-63 | the facet filters keep order; a video stays when it matches every non-`favorite` attribute: chords by mode, artists by `any`, others by value |
| Search.FavoriteSkipped | site/lib/search.js:26-28 | `favorite` queries alone change nothing |
| JsValues.NatToString | site/lib/search.js:86-88 | a count's key is decimal digits without a leading zero |
| JsValues.NatToStringValue | site/lib/search.js:86-88 | the digits read back as the number |
| Facets.GetCounts | site/lib/search.js:85-92 | the tally is the `Counts` of the property keys of the videos' values |
| Facets.CountsTally | site/lib/search.js:85-92 | a tally maps every key, and nothing else, to its number of occurrences, and its counts add up to the number of keys |
| Facets.TallyStep | site/lib/search.js:88 | one bump keeps the tally exact and raises the total by one |
| Facets.CountItems | site/lib/search.js:71-76 | counting a list bumps every item, `''` counted as `"Unknown"` |
| Facets.GetListCounts | site/lib/search.js:66-80 | throws exactly when a value is missing or a non-empty string; otherwise the tally of every list item, `''` as `"Unknown"` |
| Facets.ListItemsNoEmpty | site/lib/search.js:71-75 | `''` is never counted under its own name |
| Facets.ListItemsMeaning | site/lib/search.js:66-80 | the counted items are exactly those of the videos' lists, `''` read as `"Unknown"` |
| Facets.NbPagesCeiling | site/lib/search.js:104 | the page count is the least number of pages that holds every hit |
| Facets.PageHits | site/lib/search.js:102 | a page holds at most `hitsPerPage` videos starting at `hitsPerPage * page`, cut short by the end of the list |
| Facets.VideoOnItsPage | site/lib/search.js:102-104 | every video is on page `index / hitsPerPage` at position `index % hitsPerPage`, and that page exists |
| Facets.MakeResult | site/lib/search.js:101-114 | throws exactly when artists or chords cannot be counted; otherwise gives the page, hit and page counts, the index name, and the tally of every facet, the album facet over videos whose album is not loosely `""` |
| Facets.SearchObjectFields | site/lib/search.js:131-138 | `objectID` is the id, `chordCount` the number of chords, `tuning` is `Baritone` exactly for a truthy `baritone`, `published` is `Published` exactly for `publish === 1`, and every other property is the record's; throws only without chords |
| Facets.SearchObjectsMeaning | site/lib/search.js:131 | the mapping succeeds when every record does, and keeps the records in order |

## Left out

- Downloading videos, reading and writing CSV and JSON files, the command line and printing: all I/O. The catalog is a value passed in and returned.
- The regular expressions `TITLE_RE`, `CHORDS_RE`, `SONG_INFO_RE`, `ALBUM2_RE`, `ARTISTS_RE` and `COMPOSERS_RE`. Their matching is not modelled: they are the fields of a `Patterns` parameter.
- Extraction.DetectLanguage: when a title names two languages, Python picks one by the iteration order of a set. The model admits any of them.
- `str.lower`, `str.title`, `toLocaleLowerCase` and `localeCompare` outside ASCII: the model maps case on ASCII letters only.
- The `sort_values` key `col.str.lower() if col.dtype == 'object'`: each column's type is modelled, not computed from pandas' inference. `ignore` and `publish` compare as numbers. `track`, `album` and `artists` compare as lower-cased strings. `upload_date` compares as text, with loaded dates read as NaN, when some merged row has a parsed date, and as numbers otherwise. A text column whose dtype is not `object` after loading (such as an all-missing column) is not modelled.
- Catalog.Merge: when the batch is not empty, holds only rows of curated ids, and every reconciled row keeps a loaded date, the date column is of type `object` but holds no strings. `col.str.lower()` then raises an `AttributeError`, and the model sorts those dates as numbers instead. The model also does not require the catalog's own rows to carry loaded dates.
- Catalog: after the left join, pandas moves `id_related` to the last column. Rows are records here, so column position is not modelled.
- `_write_json_data` assigns through `.loc` on the caller's dataframe. Mutating the caller's frame is not modelled; `Publish.PublishRecords` returns the records as a value.
- `_write_json_data` leaves the list cells of ignored rows as strings. Those rows are never published, so the model does not keep them.
- Search.FilterByQuery: a `track` or `title` that is a number or a boolean makes JavaScript throw a TypeError (it has no `toLocaleLowerCase`). The model treats it as no match.
- Search.KeepFacet: a `chords` or `artists` value that is a number or a boolean makes `new Set` throw. The model gives it no elements.
- Facets.GetCounts: a key that names an inherited property of `Object.prototype` (such as `constructor`) reads as truthy in the JavaScript and is counted wrongly there. The model counts every key from zero. Non-integer numbers are not modelled as keys.
- Facets.GetListCounts: the same inherited-property keys are not modelled. List items are strings only.
- Facets.MakeResult: `facets_stats` (the minimum and maximum of the chord-count keys through `Math.min`/`Math.max`) is floating point and is not modelled.
- `filterNumeric` evaluates filter strings with `eval`, so it is not modelled.
- The search client's `search` and `searchForFacetValues` handlers are asynchronous plumbing over the modelled filters, and their `resultsF`/`resultsA` caches are not modelled either. The same goes for the locale-aware sort of the data.
- Local storage is read as the `favorites` parameter of `Facets.SearchObject`.
- Search.ChordsMode: a `chordsSearchMode` naming an inherited property of `Object.prototype` (such as `toString`) finds a function there, which `filter` calls. The model treats it as naming no mode, so it throws.
- Search.FilterByFacets: `for ... in` visits integer-like keys first. The filters commute, so the result does not depend on the visit order, and the model visits keys in insertion order.
