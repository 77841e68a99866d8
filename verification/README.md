# Flashcard trainer core, modelled in Dafny

This project models the logic of three parts of a flashcard learning tool for
primary-school subjects, and proves properties of the model:

- **The cross-unit quiz engine** (`trainer/assets/js/quiz-engine.js`):
  - reading the catalog of content packs;
  - deriving a subject tag from a pack's path and enriching every item's tags;
  - the OR filter by tags and the per-tag counts;
  - the per-item rating history kept in the browser's local store: the last ten ratings kept, the mean of the last three read back;
  - item selection: scoring, the review filters with their back-fill, the Fisher–Yates shuffle, and the cut to a limit;
  - `mount`'s assembly of all of it.
- **The manifest builder** (`scripts/update_manifest.js`):
  - the public URL of a file;
  - the title taken from a data file or from an HTML page's `<title>` tag;
  - the record built for each file;
  - de-duplication by key and the newest-first sort.
- **The unit-page generator** (`scripts/create_unit_html.js`):
  - command-line parsing into options with their defaults and error exits;
  - the run from the options to the file: building the embedded script from template literals, then the page, then writing it. As written, line 79 makes every run that passes the option checks throw before anything is written (see "## Findings"). The model keeps that run and, beside it, the run with the line fixed;
  - the head and output path of the page the fixed run writes;
  - the state logic of the script that page embeds: the level cycle, the saved answer, the theme toggle, reset, and export/import of the saved state.

The modules follow the source:

| Module | Models |
|---|---|
| `JsValue` | JSON values, truthiness, `Option` and `Result` |
| `Seqs` | order-preserving filter and JavaScript slices |
| `Text` | `trim`, `startsWith`, `includes`, backslash replacement, ASCII case folding |
| `QuizCatalog`, `QuizTags`, `QuizHistory`, `QuizPick` | the quiz engine |
| `Manifest`, `ManifestOrder` | the manifest builder |
| `UnitArgs`, `UnitPage`, `UnitScript`, `UnitRun` | the unit-page generator |

Everything is a pure function over immutable values, apart from `Shuffle`, `ShuffleCut`, `Pick` and `Mount`, which are methods.

The following are parameters of the model:

| Source | Stands in for | Model parameter |
|---|---|---|
| browser | the local store | a map from keys to stored text; in the quiz engine, to what `JSON.parse` makes of it |
| browser | `Math.random` | a sequence of reals in [0, 1) |
| browser | network fetches | the fetched documents |
| Node | filesystem listing | the lists of files |
| Node | `readJSON` of a data file | the parsed value `DataFile.meta`, `None` when reading or parsing threw |
| Node | `encodeURIComponent` | function parameter `encode` |
| Node | `JSON.stringify` of a record, for its key | function parameter `serialize` |
| Node | `Date.parse` | function parameter of `ManifestOrder.Stamp` |
| browser | `JSON.parse` in the embedded script | function parameter `parse` |
| browser | `JSON.stringify` in the embedded script | function parameter `stringify` |
| browser | `String(v)` in the embedded script's import | function parameter `toString` |
| both | clock readings | values |

In the generator, `String(args.withImage ?? 'true')` on an option value is modelled directly by `UnitArgs.Display`.

## Behaviour worth knowing

- **`pick` with a limit of 0.** A limit of 0 is not "nothing": `limit ? pool.slice(0, limit) : pool` treats 0 as false and returns the whole pool (`QuizPick.Cut`, `QuizPick.ShuffleCut`, `QuizPick.Pick`). A negative limit follows `slice` and drops items from the end.
- **Enriched tags may repeat.** `[...(it.tags||[]), ...(data.tags||[])]` concatenates the item's and the content pack's tags, so a tag declared on both appears twice (`QuizTags.EnrichedTagsKeepDuplicates`). Only the subject tag is guarded by `includes` and added at most once.
- **Items never rated.** The review filters compare `(x.__avg ?? 0)`, so such an item counts as average 0. It also passes through the `__seen < 3` test.
- **The generator's documented usage stops it.** The usage comment at the top of `create_unit_html.js` passes values as separate words (`--category sci`). The parser reads only `--k=v` as a value, so `--category` becomes a bare flag and `true.trim()` throws before the title check (`UnitRun.UsageLeavesCategoryFlag`, `UnitRun.DocumentedUsageStops`). Each value word also becomes a flag of its own name.
- **The generator never writes a page as written.** See "## Findings": every run that gets past the option checks throws a `ReferenceError` at line 79 (`UnitRun.Generate`).
- **Two subject tables.** The quiz engine recognises `/jp/` and labels `/geo/` as 社会. The manifest builder uses the key `jpn` and the label 地理. A pack under `/jpn/` therefore gets no subject tag in the quiz engine (`QuizTags.JpnPathHasNoSubject`).

## Model

| member | source | states |
|---|---|---|
| Text.Trim | scripts/update_manifest.js:33 | `trim()`: the result is the input with whitespace runs removed from both ends, and itself neither starts nor ends with whitespace |
| QuizCatalog.CatalogList | trainer/assets/js/quiz-engine.js:26 | the document itself when it is an array, its `sources` field when that is an array, and nothing otherwise |
| QuizCatalog.LoadCatalog | trainer/assets/js/quiz-engine.js:23-32 | a failed fetch gives no sources; otherwise exactly the truthy entries of the catalog list, in order, each as often as it occurs |
| QuizCatalog.UnrecognisedCatalogIsEmpty | trainer/assets/js/quiz-engine.js:26-27 | an object without a `sources` array names no pack |
| QuizCatalog.StringCatalogKept | trainer/assets/js/quiz-engine.js:26-27 | a list of non-empty names is loaded unchanged, whether bare or under `sources` |
| QuizTags.SubjectTagFromPath | trainer/assets/js/quiz-engine.js:46-53 | no tag exactly when no recognised segment occurs; otherwise the label of the first segment in test order that occurs |
| QuizTags.EmptyPathHasNoSubject | trainer/assets/js/quiz-engine.js:47-52 | a missing or empty source has no subject |
| QuizTags.JpnPathHasNoSubject | trainer/assets/js/quiz-engine.js:49 | a `/jpn/` path is not recognised as the language subject |
| QuizTags.MathTakesPriority | trainer/assets/js/quiz-engine.js:48 | a path containing `/math/` is always tagged 算数 |
| QuizTags.EnrichedTagsShape | trainer/assets/js/quiz-engine.js:59-60 | item tags then pack tags, in order, followed by the subject label exactly when there is one and neither list holds it, and nothing else; a tag is present exactly when the item, the content pack or the subject gives it |
| QuizTags.EnrichedTagsKeepDuplicates | trainer/assets/js/quiz-engine.js:59 | a tag on both item and pack is kept twice |
| QuizTags.EnrichedTagsDistinct | trainer/assets/js/quiz-engine.js:59-60 | distinct, disjoint item and pack tags give a list without duplicates |
| QuizTags.EnrichedTags | trainer/assets/js/quiz-engine.js:59-60 | definition only; its properties are stated by `QuizTags.EnrichedTagsShape` |
| QuizTags.FlatItems | trainer/assets/js/quiz-engine.js:56-63 | one card per pack item, in order, carrying the item, its source and its enriched tags |
| QuizTags.FlatItemsCarrySubject | trainer/assets/js/quiz-engine.js:57-61 | every card of a pack with a derived subject carries that label and keeps all declared tags |
| QuizTags.AllCards | trainer/assets/js/quiz-engine.js:176-177 | definition only; see `QuizTags.AllCardsMembership` |
| QuizTags.AllCardsMembership | trainer/assets/js/quiz-engine.js:176-177 | a card is among all cards exactly when the enriched items of one of the packs hold it |
| QuizTags.ByTags | trainer/assets/js/quiz-engine.js:78-82 | no wanted tags keeps everything; otherwise an ordered subsequence holding each card as often as in the input exactly when it shares a wanted tag |
| QuizTags.ByTagsMembership | trainer/assets/js/quiz-engine.js:81 | an input card is kept if and only if it shares a wanted tag |
| QuizTags.ByTagsSound | trainer/assets/js/quiz-engine.js:81 | every kept card is an input card carrying a wanted tag |
| QuizTags.Bump | trainer/assets/js/quiz-engine.js:71 | the tag's count rises by one and every other count stays; a new tag is appended with count 1 |
| QuizTags.TallyStep | trainer/assets/js/quiz-engine.js:71 | counting one more tag keeps the tally exact: distinct names, each with its number of occurrences, every tag listed |
| QuizTags.BumpKeepsDistinct | trainer/assets/js/quiz-engine.js:71 | the counting map never holds a tag twice |
| QuizTags.BumpCounts | trainer/assets/js/quiz-engine.js:71 | after a step each entry counts its tag's occurrences in the longer stream |
| QuizTags.BumpCovers | trainer/assets/js/quiz-engine.js:71 | after a step every tag of the longer stream has an entry |
| QuizTags.BumpKeepsOrder | trainer/assets/js/quiz-engine.js:71 | a tag seen for the first time is listed after every tag seen before it |
| QuizTags.CountTags | trainer/assets/js/quiz-engine.js:68-74 | one entry per distinct tag, each with that tag's number of occurrences, an entry for every tag, entries in order of first appearance as a `Map` keeps them |
| QuizTags.DiscoverTags | trainer/assets/js/quiz-engine.js:66-76 | a tag is listed exactly when some loaded item carries it, once, with its occurrence count, in order of first appearance; the sources are the packs' in load order |
| QuizHistory.Key | trainer/assets/js/quiz-engine.js:85 | the key is the prefix `anki-mix:`, the source, `#`, then the id |
| QuizHistory.KeyInjective | trainer/assets/js/quiz-engine.js:85 | for sources without `#`, equal keys mean equal source and equal id |
| QuizHistory.KeyCollision | trainer/assets/js/quiz-engine.js:85 | a `#` in source or id lets two different items share a history |
| QuizHistory.ReadHist | trainer/assets/js/quiz-engine.js:87-94 | at most the last three entries, as a suffix of the stored array; an average exactly when there is an entry, equal to their mean; nothing when the stored text is not an array |
| QuizHistory.SumBounds | trainer/assets/js/quiz-engine.js:91 | ratings on the 0..3 scale sum to between 0 and 3n |
| QuizHistory.MeanBounds | trainer/assets/js/quiz-engine.js:91 | such a sum gives a mean between 0 and 3 |
| QuizHistory.AverageOnScale | trainer/assets/js/quiz-engine.js:90-91 | when every stored rating is on the 0..3 scale, so is the recent average |
| QuizHistory.MeanOfThreeThreeZero | trainer/assets/js/quiz-engine.js:91 | ratings 3, 3, 0 average exactly 2 |
| QuizHistory.Appended | trainer/assets/js/quiz-engine.js:98-99 | the new entry comes last, the length is min(n+1, 10), and the rest is the tail of the old array |
| QuizHistory.PushHist | trainer/assets/js/quiz-engine.js:96-101 | a throw, with nothing written, exactly when the stored JSON is not an array; otherwise only this key changes, to the old entries (or none when unparseable) extended by the new one and cut to ten |
| QuizHistory.PushOnEntries | trainer/assets/js/quiz-engine.js:97-100 | on a stored array a push stores that array appended and cut |
| QuizHistory.AppendedLastN | trainer/assets/js/quiz-engine.js:98-99 | cutting to ten before or after appending gives the same array |
| QuizHistory.PushAllKeepsLastTen | trainer/assets/js/quiz-engine.js:96-101 | from an empty history, N pushes store exactly the last min(N, 10) ratings in order |
| QuizHistory.LastTenOfEleven | trainer/assets/js/quiz-engine.js:99 | the last ten of ratings 0..10 are 1..10 |
| QuizHistory.ElevenPushesDropOldest | trainer/assets/js/quiz-engine.js:96-101 | eleven pushes rated 0..10 leave the ten rated 1..10; the oldest is evicted |
| QuizHistory.ReadAfterPush | trainer/assets/js/quiz-engine.js:87-101 | right after a push, a read sees the new rating as the latest entry |
| QuizPick.HistoryId | trainer/assets/js/quiz-engine.js:107 | definition only: the non-empty id, else the non-empty question, else the empty text; the key it forms is used by `QuizPick.ScoreAfterRating` |
| QuizPick.Score | trainer/assets/js/quiz-engine.js:106-108 | definition only; see `QuizPick.ScoreAll`, `QuizPick.ScoreAfterRating` and `QuizPick.ScoreOfOthersKept` |
| QuizPick.ScoreAll | trainer/assets/js/quiz-engine.js:106-109 | one scored entry per item, in order, carrying the average and the number of ratings that a read of the item's history finds, the history being the one under its id, else its question, else the empty id: at most three, with an average exactly when rated |
| QuizPick.ScoreAfterRating | trainer/assets/js/quiz-engine.js:96-109 | after a rating is stored, the item's score counts it (up to three recent ratings) and has an average |
| QuizPick.ScoreOfOthersKept | trainer/assets/js/quiz-engine.js:96-109 | a rating stored for one item leaves the score of every item under another key unchanged |
| QuizPick.NeedsPractice | trainer/assets/js/quiz-engine.js:114-115 | definition only; its behaviour is stated by `QuizPick.OnlyLowTakesPrecedence`, `QuizPick.LowIsStricter` and `QuizPick.UnratedAlwaysPasses` |
| QuizPick.Kept | trainer/assets/js/quiz-engine.js:113-116 | an ordered subsequence holding exactly the entries that pass the review test, each as often as in the input |
| QuizPick.Rejected | trainer/assets/js/quiz-engine.js:113-116 | an ordered subsequence holding exactly the entries the review test rejects, each as often as in the input |
| QuizPick.Backfill | trainer/assets/js/quiz-engine.js:118 | exactly the entries not already in the pool, each as often as in the input |
| QuizPick.Candidates | trainer/assets/js/quiz-engine.js:111-119 | no flags: the scored list; with a flag the kept entries come first, padded, when fewer than max(5, limit), by the rejected entries in input order, giving a permutation of the scored list; otherwise alone; never fewer than min(n, max(5, limit)) |
| QuizPick.BackfillCompletes | trainer/assets/js/quiz-engine.js:117-118 | kept plus padding is a permutation of the scored list: nothing lost, nothing repeated |
| QuizPick.BackfillIsRejected | trainer/assets/js/quiz-engine.js:118 | the padding is exactly the entries the review test rejects, in order |
| QuizPick.OnlyLowTakesPrecedence | trainer/assets/js/quiz-engine.js:114-115 | with `onlyLow` set, `needReview` changes nothing |
| QuizPick.LowIsStricter | trainer/assets/js/quiz-engine.js:114-115 | whatever `onlyLow` keeps, `needReview` keeps |
| QuizPick.UnratedAlwaysPasses | trainer/assets/js/quiz-engine.js:114-115 | an item never rated passes both review tests |
| QuizPick.UnratedPoolUnfiltered | trainer/assets/js/quiz-engine.js:112-119 | a pool with no ratings comes through any filter unchanged |
| QuizPick.ThreeThreeZeroNotUnderReview | trainer/assets/js/quiz-engine.js:107-115 | an item rated 3, 3, 0 has average 2.0 and three ratings, and `needReview` rejects it |
| QuizPick.ScaledIndex | trainer/assets/js/quiz-engine.js:103 | a random value in [0, 1) scaled by m and floored is an index below m |
| QuizPick.RandomIndex | trainer/assets/js/quiz-engine.js:103 | the swap partner of position i is at most i |
| QuizPick.Shuffle | trainer/assets/js/quiz-engine.js:103 | the shuffled sequence is a permutation of the input |
| QuizPick.PoolFromInput | trainer/assets/js/quiz-engine.js:106-119 | every pooled entry scores one of the input items |
| QuizPick.Cut | trainer/assets/js/quiz-engine.js:122 | a prefix; the whole pool for limit 0; min(limit, n) items for a positive limit; n + limit (at least 0) for a negative one |
| QuizPick.ShuffleCut | trainer/assets/js/quiz-engine.js:121-122 | a sub-multiset of the pool of the length the cut rules give; all of it for limit 0; a prefix in pool order when not shuffled |
| QuizPick.Pick | trainer/assets/js/quiz-engine.js:105-123 | the shuffle-and-cut guarantees relative to the candidate pool, and every picked entry is one of the input items |
| QuizPick.Sources | trainer/assets/js/quiz-engine.js:184 | the loaded packs' sources in load order |
| QuizPick.Mount | trainer/assets/js/quiz-engine.js:174-185 | picked entries are loaded items carrying a wanted tag (when tags are given); relative to the candidate pool built from the tag-filtered, scored items they are a sub-multiset, all of it for limit 0, min(limit, n) for a positive limit, n + limit (at least 0) for a negative one, a prefix in pool order when not shuffled; the sources are reported in load order |
| QuizPick.DefaultMountPool | trainer/assets/js/quiz-engine.js:174-180 | with the defaults (no tags, no review filter, limit 10, shuffled) the pool is every loaded item scored, and ten of them are picked, or all when fewer |
| Manifest.ToPublicURL | scripts/update_manifest.js:36 | `/anki-project/` followed by the path with every backslash made a slash; no backslash remains |
| Manifest.PublicURLIgnoresSeparatorStyle | scripts/update_manifest.js:36 | a Windows-style and a POSIX-style path give one URL |
| Manifest.PublicURLInjective | scripts/update_manifest.js:36 | paths without backslashes give distinct URLs |
| Manifest.SlashPathIdempotent | scripts/update_manifest.js:51-54 | converting an already converted path changes nothing, so the double conversion is harmless |
| Manifest.Basename | scripts/update_manifest.js:52 | the text after the last slash: a suffix holding no slash, preceded by a slash when shorter than the path |
| Manifest.BasenameOfJoin | scripts/update_manifest.js:52 | the base name of `dir/name` is `name` |
| Manifest.RunEnd | scripts/update_manifest.js:33 | the end of the `[^<]+` run: the first `<` at or after the start, or the end of the text |
| Manifest.FirstTitleMatch | scripts/update_manifest.js:33 | the leftmost position where the pattern matches, or none when it matches nowhere |
| Manifest.ExtractTitle | scripts/update_manifest.js:33 | the trimmed capture of the leftmost match, or `""` when nothing matches; never holds `<`, never starts or ends with whitespace |
| Manifest.LeftmostMatchUnique | scripts/update_manifest.js:33 | only one position is the leftmost match |
| Manifest.TrimKeepsNoAngle | scripts/update_manifest.js:33 | trimming a text without `<` leaves none |
| Manifest.RunOfTitle | scripts/update_manifest.js:33 | a title without `<` followed by `<` is exactly the captured run |
| Manifest.TitleRoundTrip | scripts/update_manifest.js:33 | a non-empty title without `<` written in a title tag is extracted back, trimmed |
| Manifest.UpperCaseTagsMatch | scripts/update_manifest.js:33 | the tags match in any letter case |
| Manifest.NoOpenTagNoTitle | scripts/update_manifest.js:33 | without an opening tag the title is `""` |
| Manifest.BlankTitleIsEmpty | scripts/update_manifest.js:33 | a blank title extracts as `""` |
| Manifest.DataTitle | scripts/update_manifest.js:52-53 | the file's truthy `title` field, else its base name |
| Manifest.DataItem | scripts/update_manifest.js:48-83 | the kind's type and tags; data is the file's public URL; the path is the kind's viewer page under `/anki-project/modules/` with `?data=` that URL and `&title=` the encoded title; title and stamp as given |
| Manifest.HtmlItem | scripts/update_manifest.js:85-94 | type `html`, no data, path the page's public URL; title the extracted one, or the base name when it is empty |
| Manifest.DataItems | scripts/update_manifest.js:48-83 | one record per data file of a kind, the i-th built from the i-th file, each with the subject's tags |
| Manifest.HtmlItems | scripts/update_manifest.js:85-94 | one record per page, the i-th built from the i-th page, each with the subject's tags |
| Manifest.SubjectItems | scripts/update_manifest.js:97-103 | one record per file, in the order marker files, map-data files, no-image files, pages, each at its file's position and built from it; each has three tags, its kind first then the subject's tag and grade, and a non-empty path |
| Manifest.HtmlTitleFromPage | scripts/update_manifest.js:90 | a page with a non-blank title is listed under it, trimmed; a page without one under its file name |
| ManifestOrder.ItemKey | scripts/update_manifest.js:41 | definition only; see `ManifestOrder.PathlessKeyIsData` and `ManifestOrder.SamePathCollapses` |
| ManifestOrder.UniqFrom | scripts/update_manifest.js:38-46 | an ordered subsequence with distinct keys, none already seen, covering every unseen key of the input |
| ManifestOrder.UniqBy | scripts/update_manifest.js:38-46 | an ordered subsequence with distinct keys covering every key of the input |
| ManifestOrder.UniqFromSnoc | scripts/update_manifest.js:40-45 | a new last element is kept exactly when its key has not appeared |
| ManifestOrder.UniqIsFirstOccurrences | scripts/update_manifest.js:38-46 | de-duplication equals the reference definition that keeps each key's first element |
| ManifestOrder.UniqOfDistinct | scripts/update_manifest.js:38-46 | input with distinct, unseen keys is unchanged |
| ManifestOrder.UniqIdempotent | scripts/update_manifest.js:38-46 | de-duplicating twice is de-duplicating once |
| ManifestOrder.SamePathCollapses | scripts/update_manifest.js:41-43 | two records with one non-empty path keep only the first |
| ManifestOrder.PathlessKeyIsData | scripts/update_manifest.js:41 | a record without a path is keyed by its data URL |
| ManifestOrder.Insert | scripts/update_manifest.js:104 | insertion into a newest-first list keeps it sorted and adds exactly the element |
| ManifestOrder.SortByStamp | scripts/update_manifest.js:104 | the result is sorted newest first and is a permutation of the input |
| ManifestOrder.InsertStable | scripts/update_manifest.js:104 | an inserted element goes behind every element of equal stamp |
| ManifestOrder.SortStable | scripts/update_manifest.js:104 | records sharing a stamp keep their input order (the sort is stable) |
| ManifestOrder.SortSorted | scripts/update_manifest.js:104 | a strictly newest-first list is unchanged |
| ManifestOrder.InsertLast | scripts/update_manifest.js:104 | an element older than all others goes last |
| ManifestOrder.Stamp | scripts/update_manifest.js:104 | definition only: the parsed `updated` date, 0 when it does not parse, with the parser a parameter; the order it gives is stated by `ManifestOrder.SortByStamp` and `ManifestOrder.SortStable` |
| ManifestOrder.BuildManifest | scripts/update_manifest.js:103-104 | sorted newest first, a permutation of the de-duplicated records in which records of equal stamp keep their de-duplicated order, keys distinct, every record built from a listed file |
| UnitArgs.ParseToken | scripts/create_unit_html.js:24-28 | `--k=v` splits at the first `=` with a non-empty key and a value without line terminators; other `--` tokens become flags named by their remainder, and a remainder that is a flag admits no such split; anything else a flag named by itself |
| UnitArgs.KeyValueToken | scripts/create_unit_html.js:25-26 | `--k=v` reads back as `k` and the text `v`, `=` in `v` allowed |
| UnitArgs.BareFlagToken | scripts/create_unit_html.js:27 | `--k` is the flag `k` |
| UnitArgs.DashToken | scripts/create_unit_html.js:27 | a `--` token without `=` is the flag named by the rest of it |
| UnitArgs.PlainToken | scripts/create_unit_html.js:28 | a token not starting with `-` is the flag named by the whole token |
| UnitArgs.LineBreakInValue | scripts/create_unit_html.js:25-27 | a line break in the value makes the whole remainder a flag name |
| UnitArgs.EmptyKeyToken | scripts/create_unit_html.js:25-27 | `--=v` is the flag named `=v` |
| UnitArgs.ParseArgs | scripts/create_unit_html.js:24-29 | the last token's key is always present |
| UnitArgs.KeyWitness | scripts/create_unit_html.js:24-29 | every parsed option name is the key of some token, whose index it returns |
| UnitArgs.TokenKeyKept | scripts/create_unit_html.js:24-29 | every token's key is a parsed option name |
| UnitArgs.ParseArgsKeys | scripts/create_unit_html.js:24-29 | the option names are exactly the tokens' keys |
| UnitArgs.ParseArgsLastWins | scripts/create_unit_html.js:24-29 | an option holds the value of its last token |
| UnitArgs.LastSettingWins | scripts/create_unit_html.js:24-29 | of two settings of one option, the later wins |
| UnitArgs.Category | scripts/create_unit_html.js:33 | definition only; see `UnitArgs.DefaultCategory`, `UnitArgs.GeoCategoryDirectory` and `UnitArgs.ReadConfig` |
| UnitArgs.ReadRest | scripts/create_unit_html.js:31-40 | the title/slug error exactly when either is missing or empty; the directory error when both are given and `--out` is bare; success exactly when both are given and `--out` is not bare, with the given title and slug, the given category, the given directory or `modules/geo`/`modules/sci` by category, and images unless `--withImage=false` |
| UnitArgs.ReadConfig | scripts/create_unit_html.js:31-40 | a bare `--category` fails before anything else, since `true.trim()` throws; the title/slug error and the directory error exactly in their cases; on success the given title and slug, the trimmed category (default `sci`), the given directory or the one the category chooses, and images unless `--withImage=false` |
| UnitArgs.OptToken | scripts/create_unit_html.js:24-26 | a token `--k=v` with a valid key and a one-line value parses to `k` and the text `v` |
| UnitArgs.NameTokens | scripts/create_unit_html.js:24-26 | the spelled-out `--title` and `--slug` tokens parse to their values |
| UnitArgs.PlacementTokens | scripts/create_unit_html.js:24-26 | the spelled-out `--category` and `--out` tokens parse to their values |
| UnitArgs.ImageToken | scripts/create_unit_html.js:24-26 | the spelled-out `--withImage` token parses to the displayed image setting |
| UnitArgs.CommandLineSpells | scripts/create_unit_html.js:24-29 | parsing the spelled-out command line gives every option of the configuration as text |
| UnitArgs.ReadSpelled | scripts/create_unit_html.js:31-35 | options holding a configuration's values as text are read back as that configuration |
| UnitArgs.ConfigRoundTrip | scripts/create_unit_html.js:24-40 | spelling a configuration out as `--k=v` tokens, parsing and reading gives it back, for one-line values and a trimmed category |
| UnitArgs.DefaultCategory | scripts/create_unit_html.js:33 | without `--category` the category is `sci` |
| UnitArgs.DefaultRest | scripts/create_unit_html.js:31-35 | with `sci` and no `--out` or `--withImage`, the page goes to `modules/sci` with the image card |
| UnitArgs.DefaultsApply | scripts/create_unit_html.js:31-35 | only a title and slug give category `sci`, directory `modules/sci`, images on |
| UnitArgs.GeoCategoryDirectory | scripts/create_unit_html.js:33-34 | category `geo`, with surrounding spaces allowed, gives `modules/geo` |
| UnitArgs.FlagTitleIsTrue | scripts/create_unit_html.js:31-37 | a bare `--title` passes the check and titles the page `true` |
| UnitArgs.WithImageOnlyFalseDrops | scripts/create_unit_html.js:35 | a bare `--withImage` or the text `False` keeps the image card |
| UnitPage.Page | scripts/create_unit_html.js:120-129 | definition only: the page the fixed generator writes, head and title line modelled, the rest a parameter; see `UnitPage.HeadOpensNoTitle` and `UnitPage.GeneratedTitleFound` |
| UnitPage.OutPath | scripts/create_unit_html.js:175 | the file the fixed generator writes sits in the output directory and, for a slug without slashes, is named `<slug>.html` |
| UnitPage.SlugFileName | scripts/create_unit_html.js:175 | the base name of the output file is the slug plus `.html` |
| UnitPage.HeadOpensNoTitle | scripts/create_unit_html.js:120-124 | no title tag starts in the head of the fixed generator's page before the title line |
| UnitPage.GeneratedTitleFound | scripts/create_unit_html.js:125 | the manifest builder extracts the title of the fixed generator's page as given, trimmed, whatever the rest of the page holds |
| UnitPage.TitleAfterPrefix | scripts/update_manifest.js:33 | behind text that starts no title tag, the first title tag's text is the one extracted |
| UnitRun.Render | scripts/create_unit_html.js:78-79 | a template literal evaluates exactly when every hole names a binding; when it fails, the name is a hole of the template that is not bound |
| UnitRun.FirstUnboundThrows | scripts/create_unit_html.js:79 | evaluation throws for the first unbound hole, whatever follows it |
| UnitRun.RenderJoined | scripts/create_unit_html.js:78-79 | a template without holes evaluates to its text |
| UnitRun.JoinedAppend | scripts/create_unit_html.js:78-79 | joining hole-free pieces distributes over concatenation |
| UnitRun.Escape | scripts/create_unit_html.js:79 | escaping leaves literal text as it is and turns each hole into its own `${name}` text, so nothing is left to evaluate |
| UnitRun.KeyHelpersIntended | scripts/create_unit_html.js:79 | the key helpers with their holes escaped are the written line with `${id}` and `${qid}` kept as text and every other piece unchanged |
| UnitRun.NoKeyHelperNames | scripts/create_unit_html.js:20-43 | neither `id` nor `qid` is among the names bound where the generator runs |
| UnitRun.ModuleScope | scripts/create_unit_html.js:20-43 | the generator's bindings are exactly its module names and top-level constants, and hold neither `id` nor `qid` |
| UnitRun.IntendedScriptRenders | scripts/create_unit_html.js:78-79 | with the holes escaped, the script evaluates in any scope to its text |
| UnitRun.AsWrittenScriptThrows | scripts/create_unit_html.js:79 | as written, the script throws for `id` in any scope without `id` |
| UnitRun.Generate | scripts/create_unit_html.js:31-79 | as written no run writes a file: a bare `--category` or a missing title or slug stops it as the option reading says, and every other run, a bare `--out` included, throws for `id` before the writing at lines 174-176 |
| UnitRun.GenerateIntended | scripts/create_unit_html.js:31-176 | with the holes escaped a run writes exactly when the options are accepted, at the output path, the page titled as given around the script's text; otherwise it stops with the option reading's error |
| UnitRun.TitleSlugMap | scripts/create_unit_html.js:24-29 | `--title=T --slug=s` parses to those two options as text |
| UnitRun.TitleSlugArgs | scripts/create_unit_html.js:24-29 | those options hold title and slug and no category, output directory or image setting |
| UnitRun.TitleSlugAccepted | scripts/create_unit_html.js:31-40 | those options are accepted with the defaults: category `sci`, directory `modules/sci`, images on |
| UnitRun.AcceptedRunThrows | scripts/create_unit_html.js:31-79 | for `--title=T --slug=s` the options are accepted, yet the written generator throws for `id`, while the fixed one writes the page |
| UnitRun.UsageLeavesCategoryFlag | scripts/create_unit_html.js:5-29 | the usage comment's command line, values as separate words, leaves `category` a bare flag |
| UnitRun.DocumentedUsageStops | scripts/create_unit_html.js:5-33 | that command line stops both generators with the bare-category error before the title check |
| UnitRun.IntendedPageListed | scripts/create_unit_html.js:120-176 | for a page the fixed generator writes, with a title without `<` and a slug without `/`, the manifest record built for the file at its output path has that path's public URL and the trimmed `--title` as title, or the file name when that is blank |
| UnitScript.NextLevel | scripts/create_unit_html.js:88 | the next level is none, `ok`, `warn` or `ng` |
| UnitScript.CycleOrder | scripts/create_unit_html.js:88 | the cycle runs none → ok → warn → ng → none; an empty level, being falsy, also goes to ok |
| UnitScript.FourClicksReturn | scripts/create_unit_html.js:88 | four clicks bring every known level back |
| UnitScript.UnknownLevelClears | scripts/create_unit_html.js:88 | an unknown level clears on the next click |
| UnitScript.WithLevel | scripts/create_unit_html.js:88 | the saved record with only `level` changed: set to the new level, or removed; a falsy record starts from `{}`; a truthy non-object is saved exactly as it was |
| UnitScript.CycleLevel | scripts/create_unit_html.js:88 | the new level is the next in the cycle; the blank's own key holds its saved record as read back with only the level replaced, and no other key changes |
| UnitScript.CycleKeepsAnswer | scripts/create_unit_html.js:86-88 | a level click never touches the saved answer |
| UnitScript.WithAnswer | scripts/create_unit_html.js:86 | a reveal sets `ans` to the shown text and changes no other field; hiding saves the record as read back (`{}` when falsy); a truthy non-object is saved exactly as it was |
| UnitScript.RevealKeepsLevel | scripts/create_unit_html.js:86 | revealing keeps the saved level |
| UnitScript.ToggleTheme | scripts/create_unit_html.js:82 | `light` exactly when the current theme is `dark`, otherwise `dark`; only the theme key is written |
| UnitScript.ToggleTwice | scripts/create_unit_html.js:82 | two presses return to `dark` from `dark`, and to `light` from anything else |
| UnitScript.ThemeNotManaged | scripts/create_unit_html.js:79 | the theme key is neither a blank key nor a card-level key |
| UnitScript.Managed | scripts/create_unit_html.js:92 | definition only: keys starting with `mask:` or `qlevel:`; see `UnitScript.ThemeNotManaged`, `UnitScript.ResetAll` and `UnitScript.Export` |
| UnitScript.ResetAll | scripts/create_unit_html.js:92 | exactly the keys that are not managed survive, with their values |
| UnitScript.ResetIdempotent | scripts/create_unit_html.js:92 | resetting twice is resetting once |
| UnitScript.ResetKeepsTheme | scripts/create_unit_html.js:92 | the saved theme survives a reset |
| UnitScript.ResetCard | scripts/create_unit_html.js:91 | exactly the card's level and its blanks' records are removed |
| UnitScript.ResetCardWithinResetAll | scripts/create_unit_html.js:91-92 | a card reset keeps everything a full reset keeps |
| UnitScript.Export | scripts/create_unit_html.js:95 | the theme (default `light`) and exactly the managed entries |
| UnitScript.Import | scripts/create_unit_html.js:95 | a non-object changes nothing; otherwise every managed key in the file is written, a truthy theme is saved and applied, and all other keys keep their values |
| UnitScript.StoredText | scripts/create_unit_html.js:95 | definition only: a string value as it is, any other value through `String(v)`; see `UnitScript.Import` |
| UnitScript.ExportImportRoundTrip | scripts/create_unit_html.js:92-95 | export, reset, import restores exactly the managed entries and the theme |
| UnitScript.ThemeFieldNotManaged | scripts/create_unit_html.js:95 | the export's `theme` field is not copied as a managed key |

## Left out

- Network loading (`fetchJSON`, `loadAll`), the query-string options (`?src=`, `?catalog=`, `?debug=`), and the catalog URL default are left out. They are I/O; loaded packs and fetched catalogs are inputs.
- `render`, `figHTML` and the rating buttons are left out. They are DOM output and only call `readHist` and `pushHist`, which are modelled.
- A pack whose JSON is `null` makes `flatItems` throw. Packs are modelled as records with optional fields.
- `RawItem`'s `id` and `q` are text. A numeric id or question is not represented: in the source an id of `0` is falsy, so the history falls back to `q`, and other numbers are turned into text by the key's template literal.
- QuizPick.Shuffle: only proved to be a permutation; that it is uniform is a probabilistic property outside the model.
- `listFiles` is left out: the directory walk, the extension filter (`.json`, `.html`, `.htm`) and recursion into subdirectories. The listed files are inputs.
- `main`'s loop over the subjects, the directory creation and the writing of `manifest.json` are left out. So are the console output and, in the generator, `mkdirSync` and `writeFileSync`. They are I/O.
- An HTML page that cannot be read makes the manifest builder throw. The model's pages always have text.
- Manifest.Basename: models POSIX `path.basename` for paths without a trailing slash; trailing separators and Windows separators are not modelled.
- UnitRun.Generate and UnitRun.GenerateIntended: the script is modelled as the line-79 key helpers between two texts, `before` and `after`, since line 79 holds the script literal's only holes. The style sheet and the page after the title line are parameters (`css`, `tail`), and the directory creation and the write are the `Written` result rather than file-system effects.
- UnitRun.IntendedPageListed: whether the manifest builder's listing reaches the page is not modelled; it scans only `modules/<subject key>`, and the file listing is an input. The lemma speaks of the record built for the file at the output path.
- UnitPage.OutPath: `path.join` normalisation (`.`, `..`, repeated or trailing slashes) is not modelled; the directory and the file name are joined with one slash.
- The numbers behind `Date.parse` and the mean are modelled as unbounded integers and exact reals. A `NaN` from `Date.parse` is modelled as the missing value that `|| 0` replaces. Floating-point rounding of the mean is not modelled.
- QuizHistory.ReadHist: a stored array whose elements are not `{t, c}` records with a number `c` (for example `[1,2]`) is not represented, since a slot holds well-formed entries only. In the source such an array gives `hist` of that length and an `avg` of `NaN`; `NaN ?? 0` stays `NaN`, so only the `__seen < 3` test can keep the item.
- Only the head of the generated page, up to the `<title>` line, is modelled. The style sheet, the card templates (with or without the image card) and the rest are a parameter.
- Parts of the embedded script are left out:
  - applying the saved state on load;
  - hints;
  - long-press peek;
  - two-finger touch;
  - the per-card level buttons;
  - the red-only filter;
  - the red queue;
  - keyboard shortcuts;
  - confirmation dialogs;
  - reloads.

  They only touch the page and timers, or write one key as the modelled functions do.

## Findings

| source | as written | input that shows it | evidently intended | confidence | as-written member | corrected member |
|---|---|---|---|---|---|---|
| scripts/create_unit_html.js:79 | The script literal is closed in front of `mask:${id}` and `qlevel:${qid}`, so these become template literals of the generator itself. Their holes are evaluated while the generator runs, where nothing named `id` or `qid` is bound, and a `ReferenceError` is thrown before the file is written. | `--title=T --slug=s`, which the option checks accept | `\${id}` and `\${qid}`, so the page's script keeps the two key helpers as text and builds the storage keys in the browser | high; not executed | UnitRun.Generate, UnitRun.AcceptedRunThrows | UnitRun.GenerateIntended, UnitRun.IntendedPageListed |
