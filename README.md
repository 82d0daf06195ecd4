# Fanlink identifier resolution, in Dafny

`generate-fanlinks.js` turns a catalogue of song releases into one static
"fanlink" page per release, published under
`fan.lucetune.com/<label folder>/<song number>`. Before any page is written,
two passes settle each release's address:

1. **Label conflicts** (`resolveLabelConflicts`). Each label name is
   normalised to a URL slug. Every release is flagged with whether its slug
   is shared with another release. A missing or zero label id is filled in
   with one value per slug: the larger of 1 and the largest explicit id of
   that slug.
2. **Song-number conflicts** (`resolveSongNumberConflicts`). Releases are
   grouped by the string key `<slug>-<label id>`, in the Map's
   first-insertion order. Each group is stably sorted by requested song
   number and then walked. A request of at least 1 that is still free is
   kept. Any other request receives the least positive number not yet
   handed out in that group.

Then each resolved release gets its label folder name
(`generateLabelFolderName`), its page URL and its page file, and the page
records are collected in output order (`generateFanlinkPage`,
`generateFanlinks`).

The model has one module per concern:

- `Records`: the catalogue entry and the records the two passes produce.
- `Slug`: `normalizeLabelName`.
- `Decimal`: how JavaScript writes a safe integer inside a template literal.
- `LabelConflicts`: pass 1, as imperative methods over maps, proved against
  the reference function `ResolveLabels`.
- `StableSort`: the stable sort used by pass 2, defined on values.
- `Allocation`: the walk over one group, as an imperative method, proved
  against the reference function `FinalNumbers`.
- `SongNumberConflicts`: pass 2, the grouping method and the group loop,
  proved against the reference function `ResolveSongNumbers`.
- `Paths`: folder names, URLs and page files.
- `Fanlinks`: the composition of the passes and the page loop.

Four behaviours of the code are easy to misread:

- The per-slug cursor of pass 1 never advances, because the id handed out
  is `cursor - 1` and the cursor is then set back to `id + 1`. So every
  unassigned release of a slug receives the same id, rather than ids that
  count upwards.
- Negative explicit label ids are kept as they are.
- Folder names are unique neither across slugs nor within one slug.
- An empty slug gives the URL `fan.lucetune.com//<n>`, while its page file
  sits directly under the output directory.

## Model

| member | source | states |
|---|---|---|
| Slug.NormalizeIsSlug | generate-fanlinks.js:35-37 | The normalised name is a slug: only `[a-z0-9-]`, no `--`, no leading or trailing `-`. It keeps exactly the alphanumerics of the lowercased name, in order. It is empty exactly when the lowercased name has no alphanumeric. |
| Slug.NormalizeOfSlug | generate-fanlinks.js:35-37 | A slug is left unchanged by normalisation. |
| Slug.NormalizeIdempotent | generate-fanlinks.js:35-37 | Normalising twice equals normalising once. |
| Slug.NormalizeTwoWords | generate-fanlinks.js:36 | Two alphanumeric words separated by a run of other characters, with an optional trailing run, normalise to `w1-w2`. |
| Slug.NormalizeNightCity | generate-fanlinks.js:35-37 | `Night City` and `night-city!!` both normalise to `night-city`. |
| Slug.NormalizeEmpty | generate-fanlinks.js:35-37 | The empty name normalises to the empty slug. |
| Decimal.ParseIntToString | generate-fanlinks.js:99 | The decimal text of an integer reads back to that integer. |
| Decimal.IntToStringInjective | generate-fanlinks.js:99 | Different integers have different decimal texts. |
| LabelConflicts.ResolveLabelConflicts | generate-fanlinks.js:40-91 | The method's output equals the reference `ResolveLabels` of its input. |
| LabelConflicts.CountLabels | generate-fanlinks.js:44-58 | The first pass builds exactly the count map `CountMap` and the id map `IdsMap` of the slug column. |
| LabelConflicts.AssignLabels | generate-fanlinks.js:60-90 | Given the first pass's maps, the second pass produces exactly `ResolveLabelsWith`: one record per release, in input order. |
| LabelConflicts.CountMapSpec | generate-fanlinks.js:49 | The count map has an entry exactly for the slugs seen, holding how many releases carry each. |
| LabelConflicts.IdsMapSpec | generate-fanlinks.js:51-57 | The id map has an entry exactly for the slugs seen. Its entry lists exactly the non-zero ids stated under that slug. |
| LabelConflicts.ExplicitIdsMembers | generate-fanlinks.js:55-56 | An id is an explicit id of a slug exactly when some release of that slug states it as non-zero. |
| LabelConflicts.MaxOf | generate-fanlinks.js:70 | `Math.max` over the id set: `None` (standing for `-Infinity`) exactly when the set is empty, otherwise a member that is at least every member. |
| LabelConflicts.CursorStart | generate-fanlinks.js:69-72 | The cursor's starting value minus one is `max(1, largest explicit id)`, the per-slug id `UnassignedId`. |
| LabelConflicts.UnassignedIdBounds | generate-fanlinks.js:69-72 | The per-slug id is at least 1 and at least every explicit id of the slug. It is 1 or one of those ids. |
| LabelConflicts.CountSlugShared | generate-fanlinks.js:49 | A slug is counted more than once exactly when two different positions carry it. |
| LabelConflicts.DuplicateIffShared | generate-fanlinks.js:66 | The duplicate flag of a release holds exactly when another release has the same slug. |
| LabelConflicts.ResolveLabelsSpec | generate-fanlinks.js:64-88 | Each pass-1 record keeps every field of its release except the label id. It carries the release's slug and the duplicate flag exactly when the slug is shared. A non-zero id, negative ones included, is kept. A zero or absent id becomes at least 1 and at least every explicit id of the slug, and it is 1 or an id some release of the slug states: `max(1, largest explicit id)`. |
| LabelConflicts.UnassignedIdsAgree | generate-fanlinks.js:82-84 | All releases of one slug with a zero or absent id receive the same id. |
| LabelConflicts.NoExplicitIdsGiveOne | generate-fanlinks.js:69-84 | When no release of a slug states an id, every release of it receives id 1. |
| LabelConflicts.ExplicitFiveShared | generate-fanlinks.js:69-84 | An explicit id 5 and an unassigned release under one slug: the unassigned one also receives 5, not 6. |
| StableSort.SortByNumberSpec | generate-fanlinks.js:111 | The sorted group is in ascending song-number order and is a permutation of the group. The releases of each song number keep their relative order (stability). |
| StableSort.SortByNumberMultiset | generate-fanlinks.js:111 | Sorting neither adds nor drops a release. |
| StableSort.SortDistinct | generate-fanlinks.js:111 | Sorting keeps pairwise distinct song numbers distinct. |
| Allocation.SkipUsed | generate-fanlinks.js:121-123 | The skip loop, started from a cursor below which all positive numbers are used, stops at the least positive number not used. |
| Allocation.LeastFree | generate-fanlinks.js:121-124 | The number handed out is at least 1 and not used, and every positive number below it is used. |
| Allocation.LeastFreeUnique | generate-fanlinks.js:121-124 | That characterisation determines the number uniquely. |
| Allocation.NumberLabelGroup | generate-fanlinks.js:113-130 | The walk over a sorted group pushes exactly `NumberGroup`: each release with its entry of `FinalNumbers`. |
| Allocation.FinalNumbersSpec | generate-fanlinks.js:113-129 | Every final number of a group is at least 1, and no two final numbers of a group are equal. |
| Allocation.FinalNumbersRule | generate-fanlinks.js:117-128 | A request that is at least 1 and not handed out earlier in the group is kept. Any other request receives a number not handed out earlier, below which every positive number was handed out earlier. |
| Allocation.FinalNumbersKeep | generate-fanlinks.js:117-120 | Requests that are all at least 1 and pairwise distinct are all kept. |
| Allocation.RepeatedThree | generate-fanlinks.js:116-128 | Sorted requests `[3, 3]` receive `[3, 1]`. |
| Allocation.ZeroThenOne | generate-fanlinks.js:116-128 | Sorted requests `[0, 1]` receive `[1, 2]`: the invalid 0 takes the cursor's 1 first. |
| Allocation.NumberGroupSpec | generate-fanlinks.js:113-130 | A group's records hold its sorted releases in order. Each final number is at least 1, and the final numbers are pairwise different. |
| Allocation.NumberGroupKeep | generate-fanlinks.js:117-120 | With valid, pairwise distinct requests every release of the group keeps its request. |
| SongNumberConflicts.GroupByLabel | generate-fanlinks.js:96-104 | The grouping loop builds exactly `GroupMap`, and its key list is the Map's keys in first-insertion order. |
| SongNumberConflicts.GroupMapSpec | generate-fanlinks.js:96-104 | The Map has an entry exactly for the keys seen. Each entry holds the releases of that key in input order. |
| SongNumberConflicts.ResolveSongNumberConflicts | generate-fanlinks.js:94-134 | The method's output equals the reference `ResolveSongNumbers`: the groups in key order, each sorted and walked. |
| SongNumberConflicts.GroupOfMembers | generate-fanlinks.js:98-104 | A release belongs to the group of key `k` exactly when it is an input release whose key is `k`. |
| SongNumberConflicts.GroupKeysCover | generate-fanlinks.js:98-104 | The Map's keys are exactly the keys of the input releases. |
| SongNumberConflicts.GroupKeysDistinct | generate-fanlinks.js:100-102 | Each key is listed once. |
| SongNumberConflicts.GroupKeysOrder | generate-fanlinks.js:100-102 | A key listed before another is carried by some release before every release of the other. |
| SongNumberConflicts.DecodeGroupKey | generate-fanlinks.js:99 | The key of a release with a slug-shaped label reads back to its slug and label id. |
| SongNumberConflicts.GroupKeyInjective | generate-fanlinks.js:99 | For slug-shaped labels, two releases share a key exactly when they share both the slug and the label id. |
| SongNumberConflicts.KeyNeedsSlugShape | generate-fanlinks.js:99 | Without the slug shape the key is ambiguous: `a-` with id 1 and `a` with id -1 both give `a--1`. |
| SongNumberConflicts.GroupOfLabel | generate-fanlinks.js:98-104 | With slug-shaped labels a group holds exactly the releases of one slug and one label id. |
| SongNumberConflicts.ResolveSongNumbersPermutation | generate-fanlinks.js:107-133 | Pass 2 outputs every input release exactly as often as it was given. |
| SongNumberConflicts.ResolveSongNumbersLength | generate-fanlinks.js:107-133 | Pass 2 outputs one record per input release. |
| SongNumberConflicts.ResolveGroupsMember | generate-fanlinks.js:109-131 | Every output record has one of the Map's keys, holds an input release and has a final number of at least 1. |
| SongNumberConflicts.ResolveGroupsOrder | generate-fanlinks.js:109-131 | Of two output records, the earlier one's key comes no later in the Map. Within one key the final numbers differ and the song numbers ascend. |
| SongNumberConflicts.ResolveSongNumbersSpec | generate-fanlinks.js:109-131 | Every final number is at least 1. Two records of one key have different final numbers and ascending song numbers. Records of different keys come in the Map's key order. |
| SongNumberConflicts.FirstAppearanceOrder | generate-fanlinks.js:98-109 | When output record `i` precedes record `j` of another key, every input release with `j`'s key is preceded, in the input, by a release with `i`'s key. |
| SongNumberConflicts.ResolveSongNumbersKeep | generate-fanlinks.js:116-129 | When every request is at least 1 and no two releases of one key request the same number, every request is kept. |
| SongNumberConflicts.ResolvedTriplesUnique | generate-fanlinks.js:109-131 | No two output records share slug, label id and final song number. |
| Paths.LabelFolderNameSuffix | generate-fanlinks.js:137-143 | The folder name starts with the slug. It is the slug itself exactly when the slug is not duplicated or the id is at most 1. Otherwise it continues with `-<id>`. |
| Paths.LabelFolderNameNoSlash | generate-fanlinks.js:137-143 | A slug-shaped label gives a folder name without `/`. |
| Paths.LabelFolderNameInjective | generate-fanlinks.js:139-140 | Under one duplicated slug, ids above 1 give the same folder name exactly when they are equal. |
| Paths.FolderNameAcrossSlugs | generate-fanlinks.js:137-143 | Folder names are not unique across slugs: `a` with id 2 (duplicated) and the unique slug `a-2` share `a-2`. |
| Paths.FolderNameWithinSlug | generate-fanlinks.js:139-142 | Nor within one duplicated slug: ids 1 and -3 both give the bare slug. |
| Paths.PageUrlInjective | generate-fanlinks.js:252 | For folder names without `/`, two URLs are equal exactly when folder and number are equal. |
| Paths.PageFileInjective | generate-fanlinks.js:231-232 | Within one folder, two page files are equal exactly when the numbers are equal. |
| Paths.PageFileMatchesUrl | generate-fanlinks.js:231-232 | For a non-empty folder the page file is `<folder>/<n>/index.html`, the URL's path followed by `/index.html`. |
| Paths.EmptyFolderPage | generate-fanlinks.js:231-232 | An empty folder gives the URL `fan.lucetune.com//3` but the file `3/index.html` (`path.join` drops the empty segment). |
| Fanlinks.ResolveConflicts | generate-fanlinks.js:267-268 | Label conflicts, then song-number conflicts: the result is `Resolved` of the catalogue. |
| Fanlinks.GeneratePages | generate-fanlinks.js:290-294 | The page loop collects exactly the page record of each resolved release, in order. |
| Fanlinks.GenerateFanlinks | generate-fanlinks.js:258-294 | The generated page records are the pages of the resolved catalogue. |
| Fanlinks.PageCount | generate-fanlinks.js:258-294 | There is one page per catalogue entry. |
| Fanlinks.ResolvedSource | generate-fanlinks.js:228-254 | Each resolved release is the pass-1 record of some catalogue entry. Its label is that entry's normalised, slug-shaped name, and its final number is at least 1. |
| Fanlinks.SameSlugSameFlag | generate-fanlinks.js:66 | Entries with the same slug get the same duplicate flag. |
| Fanlinks.SameLabelDistinctPages | generate-fanlinks.js:228-254 | Two pages of one slug and one label id have different URLs and different files. |
| Fanlinks.UrlCollisionsWithinSlug | generate-fanlinks.js:228-254 | Two different pages of one slug share a URL only when their label ids differ and neither exceeds 1. |

## Left out

- File and console I/O is not modelled: reading `songs.json`, creating directories, writing pages, copying and optimising cover images (`copyCoverImageIfNeeded`, `optimizeAndCopyCoverImages`, `optimize-images.js`), and all logging.
- `generateHtmlContent` and the template are left out: the HTML text does not take part in identifier resolution.
- The output directory `DIST_DIR` is left out: page files are given relative to it.
- `encodeURIComponent` is left out.
- Slug.Normalize: `toLowerCase` is modelled for ASCII letters only. Full Unicode case mapping is not modelled.
- Records.Song: a missing `label_id` or `song_number` is represented by 0. Every label-id test and the song-number test at line 120 treat a missing value and 0 alike. The sort comparator at line 111 does not: with a missing song number it returns `NaN`, so the order a real engine then produces is not modelled. `NaN`, non-integer and non-numeric values are not modelled.
- Records.Song: `label_name` is always a string. An absent or non-string label name makes `toLowerCase` throw a `TypeError` at line 36, which aborts the whole run; that failure is not modelled.
- Records.Song: label ids and song numbers are unbounded integers. JavaScript holds them as doubles, exact only up to 2^53, and writes magnitudes of 1e21 and more in exponent form; neither rounding nor exponent text is modelled, so `Decimal` matches JavaScript only on safe integers.
- StableSort.SortByNumber: the in-place `Array.prototype.sort` is modelled as a function on values, assuming it is stable (as ES2019 requires). Aliasing between the sorted array and the Map entry is not modelled.
- LabelConflicts.CountLabels: the JavaScript `Set` of ids is modelled as an insertion-ordered sequence without repetition. The slug column is a ghost parameter, so that the loop's specification can name it.
- Allocation.NumberLabelGroup: the JavaScript `Set` `usedNumbers` is a sequence that only ever holds distinct numbers.
- SongNumberConflicts.ResolveSongNumberConflicts: the group's sorted array is a fresh value rather than the Map entry sorted in place.
- Fanlinks.GenerateFanlinks: the page record's `file_path` is modelled as the path under the output directory. The cover-copy fallback between the passes and the page loop is left out.
