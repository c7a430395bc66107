# EarthQuake ingestion, modelled in Dafny

This project models the ingestion pipeline of the EarthQuake SwiftData app and
proves properties of that model. The app fetches the USGS "all earthquakes,
past month" GeoJSON summary feed. It decodes the feed's `features` array
lossily. Each surviving feature becomes a `Quake`. The batch is committed to a
store whose key is the unique `code`, and the `lastUpdated` time is stamped. The
model also covers the list screen's read-side logic: rows newest first, the
count-based title, swipe-to-delete and the trash button.

Files, one module each:

- `wrappers.dfy` (`Wrappers`): `Option`, `Result` and `Outcome`.
- `json.dfy` (`Json`): the parsed JSON tree the decoder walks.
- `data_error.dfy` (`DataErrors`): the app's `DataError` enum.
- `quake.dfy` (`QuakeModel`): `Date` (epoch milliseconds), `distantPast`, the
  `Quake` record, and the unique-code invariant.
- `store.dfy` (`Store`): the visible store (`QuakeStore`), the staging
  `ModelContext`, and `Commit`, which is the effect of one `save()`.
- `feed_decoder.dfy` (`FeedDecoder`): `RawContentNestedStructs.init(from:)`
  as a loop (`DecodeRawContent`), its recursive specification
  (`DecodeEntries`/`DecodeFeed`), and the lemmas about both.
- `data_transfer.dfy` (`DataTransfer`): `Quake(from:)`, `importSummary`,
  `fetchSummary` and the `lastUpdated` getter on `QuakesProvider`.
- `content_view.dfy` (`ContentView`): the newest-first order,
  `pluralizedTitle` and `deleteItems(offsets:)`.

Inputs the model takes as parameters, because the app gets them from the
environment:

- The HTTP response: transport error, non-HTTP response, or HTTP status plus
  a body that did or did not parse as JSON.
- The current time (`now`).
- The date entries already in the user defaults, among them the one under
  `lastUpdatedTimeStamp`.

Points where the code does less than its own declarations suggest; the model
follows the code:

- `DataError` (EarthQuake/Model/DataError.swift) declares `invalidData` and
  `missingData`, but no code path throws either. A fatal decode error reaches
  the caller as the JSON decoder's own error (`DecodingError` here).
- The status guard in `fetchSummary` checks the transport and the status
  code only. An empty body passes it and then fails in the decoder
  (`DataCorrupted`), not with `noData`.
- `importSummary` sets `lastUpdated` whenever the staging context has
  changes, which means the batch had at least one feature. That holds even
  when every code was already stored, and even when `try? save()` fails. A
  feed with no surviving features leaves the stamp unchanged.

## Model

| member | source | states |
|---|---|---|
| `FeedDecoder.DecodeRawContent` | EarthQuake/Model/DataTransferModel.swift:160-177 | the single-pass loop over the features array returns exactly what the decode specification `DecodeFeed` gives, on every input, including the fatal errors |
| `FeedDecoder.RootErrors` | EarthQuake/Model/DataTransferModel.swift:161-162 | the decode fails with `RootNotObject`, `FeaturesMissing` or `FeaturesNotArray` exactly when the root is not an object, lacks `features`, or has a non-array `features` (both directions) |
| `FeedDecoder.EntryError` | EarthQuake/Model/DataTransferModel.swift:166-168 | an entry is fatal exactly when it is not an object, lacks `id`, or has a non-string `id`; each of these three conditions holds exactly when the error is its own kind (`FeatureNotObject`, `IdMissing`, `IdNotString`), and the error names that entry's index |
| `FeedDecoder.DecodeEntries` | EarthQuake/Model/DataTransferModel.swift:165-176 | on success there are never more features than entries; a failure always names an entry inside the array |
| `FeedDecoder.FailureIsFinal` | EarthQuake/Model/DataTransferModel.swift:165-168 | once an entry is fatal, no later entry changes the outcome: the whole decode fails with that error |
| `FeedDecoder.EntriesFailOnFirstMalformed` | EarthQuake/Model/DataTransferModel.swift:165-168 | the array decode fails if and only if some entry is fatal, and then it reports the first fatal entry, by index, with its kind of error |
| `FeedDecoder.DecodeProperties` | EarthQuake/Model/DataTransferModel.swift:108-112 | the properties group decodes if and only if `mag`, `place`, `time` and `code` are all present with the right JSON types; it then carries exactly those values, with `time` read as epoch milliseconds; it is never partly filled |
| `FeedDecoder.DecodeEntry` | EarthQuake/Model/DataTransferModel.swift:168-175 | a well-formed entry yields a feature if and only if its `properties` group is present and decodes in full; the feature carries the entry's `id` and that whole group |
| `FeedDecoder.WellFormedWithoutEntry` | EarthQuake/Model/DataTransferModel.swift:166-168 | removing an entry that is not fatal does not change whether some entry of the array is fatal |
| `FeedDecoder.SkippedEntryContributesNothing` | EarthQuake/Model/DataTransferModel.swift:170-175 | an entry that is not fatal but whose properties do not decode is skipped: removing it from anywhere in the array never changes whether the decode succeeds, and when it succeeds the features are the same |
| `FeedDecoder.DecodeEntriesAppend` | EarthQuake/Model/DataTransferModel.swift:165-176 | when no entry of `a + b` is fatal, entries are decoded independently and in order: the features of `a + b` are those of `a` followed by those of `b` |
| `FeedDecoder.DecodeFeed` | EarthQuake/Model/DataTransferModel.swift:161-165 | a decode succeeds only on an object root whose `features` is an array, and never yields more features than that array has entries; on an object root with a `features` array the result is exactly the decode of the `features` entries; a failure is always one of the decoder's structural errors, never a corrupted body |
| `FeedDecoder.DecodedFeaturesComeFromEntries` | EarthQuake/Model/DataTransferModel.swift:165-176 | when no entry is fatal, a feature is in the result if and only if it is the decode of some entry with complete properties |
| `FeedDecoder.DecodedCount` | EarthQuake/Model/DataTransferModel.swift:165-176 | when no entry is fatal, the result has exactly one feature per entry whose properties decode |
| `DataTransfer.QuakeFrom` | EarthQuake/Model/DataTransferModel.swift:185-190 | `Quake(from:)` copies mag to magnitude, place to place, time to timestamp and code to code, unchanged |
| `DataTransfer.QuakeFromKeepsProperties` | EarthQuake/Model/DataTransferModel.swift:185-190 | the conversion loses none of the four properties: they can be read back from the quake |
| `DataTransfer.QuakesFrom` | EarthQuake/Model/DataTransferModel.swift:67-71 | the batch holds one quake per feature, in feed order |
| `DataTransfer.ImportedCodes` | EarthQuake/Model/DataTransferModel.swift:67-74 | after an import, the store's codes are exactly the old codes together with the batch's codes |
| `DataTransfer.QuakesProvider.ImportSummary` | EarthQuake/Model/DataTransferModel.swift:61-77 | `updateCount` ends equal to the number of features; the store becomes the one-step commit of the converted batch, and its codes stay unique; the user defaults get `now` under `lastUpdatedTimeStamp` exactly when the batch is non-empty, and are unchanged otherwise |
| `DataTransfer.Stamped` | EarthQuake/Model/DataTransferModel.swift:39-41 | setting `lastUpdated` writes `now` under `lastUpdatedTimeStamp` and leaves every other user-defaults entry as it was |
| `DataTransfer.QuakesProvider.constructor` | EarthQuake/Model/DataTransferModel.swift:31-37 | the shared provider starts over the user-defaults entries already persisted, unchanged |
| `DataTransfer.QuakesProvider.LastUpdated` | EarthQuake/Model/DataTransferModel.swift:35-38 | `lastUpdated` reads the entry under `lastUpdatedTimeStamp`, or `distantPast` when there is none |
| `DataTransfer.FetchedFeatures` | EarthQuake/Model/DataTransferModel.swift:48-56 | the only `DataError` a fetch throws is `noData`, and only when the guard fails; a decode error arises only after an HTTP 200; fetched features are exactly what the decoder produced from the body; a body that did not parse throws `DataCorrupted`, and a decode failure throws the decoder's own error unchanged |
| `DataTransfer.OnlyStatus200Passes` | EarthQuake/Model/DataTransferModel.swift:48-53 | a fetch fails with `noData` exactly when the round trip failed, was not HTTP, or had a status other than 200 |
| `DataTransfer.FetchedFeaturesAreDecoded` | EarthQuake/Model/DataTransferModel.swift:54-58 | a fetch yields features exactly when the guard passes and the body decodes; the features are then the decoder's result |
| `DataTransfer.QuakesProvider.FetchSummary` | EarthQuake/Model/DataTransferModel.swift:46-59 | every failing fetch throws before importing: the store and `lastUpdated` are unchanged; a successful fetch imports exactly the decoded features |
| `QuakeModel.NewQuake` | EarthQuake/Model/Quake.swift:14-19 | construction is total and stores magnitude, place, timestamp and code exactly as given |
| `QuakeModel.UniqueCodesCount` | EarthQuake/Model/Quake.swift:24 | a store with unique codes holds exactly as many distinct codes as rows |
| `QuakeModel.UniqueCodesCons` | EarthQuake/Model/Quake.swift:24 | putting a row with a new code in front keeps the codes unique |
| `Store.InsertIfAbsent` | EarthQuake/Model/Quake.swift:24 | storing a row whose code is already present changes nothing; a row with a new code is appended; either way the store's codes gain exactly that code |
| `Store.Commit` | EarthQuake/Model/DataTransferModel.swift:74 | saving a batch applies insert-if-absent row by row (the model fixes first write wins); the store never shrinks and grows by at most the batch's length |
| `Store.ModelContext.HasChanges` | EarthQuake/Model/DataTransferModel.swift:73 | a context has changes exactly when something has been staged since it was made or last saved |
| `Store.ModelContext.constructor` | EarthQuake/Model/DataTransferModel.swift:64 | a fresh context is bound to the given store and has nothing staged, so it has no changes |
| `Store.ModelContext.Insert` | EarthQuake/Model/DataTransferModel.swift:69 | an insert only adds to the staged batch; the visible store is not touched |
| `Store.ModelContext.Save` | EarthQuake/Model/DataTransferModel.swift:73-74 | the whole staged batch becomes visible in one step, with codes still unique, and the staged batch is emptied |
| `Store.CommitKeepsCodesUnique` | EarthQuake/Model/Quake.swift:24 | a commit never produces two rows with the same code |
| `Store.CommitCodes` | EarthQuake/Model/Quake.swift:24 | after a commit the store's codes are exactly the old codes together with the batch's codes |
| `Store.CommitExtends` | EarthQuake/Model/Quake.swift:24 | rows already stored stay as they are and in place; every added row comes from the batch |
| `Store.CommitOfKnownCodes` | EarthQuake/Model/Quake.swift:24 | a batch whose codes are all stored already leaves the store unchanged |
| `Store.CommitIdempotent` | EarthQuake/Model/Quake.swift:24 | importing the same feed again adds no row: a second commit of the same batch changes nothing |
| `Store.CommitSize` | EarthQuake/Model/Quake.swift:24 | the store grows by exactly one row per batch code it did not already hold |
| `Store.Without` | EarthQuake/ContentView.swift:84 | deleting a row removes exactly that row, keeps the others, and keeps the codes unique |
| `Store.QuakeStore.Delete` | EarthQuake/ContentView.swift:84 | `modelContext.delete(item)` leaves the store without that row and with unique codes |
| `Store.RemoveAll` | EarthQuake/ContentView.swift:83-84 | removing a set of rows keeps exactly the rows not in that set, and never lengthens the list |
| `Store.RemoveAllIsSubsequence` | EarthQuake/ContentView.swift:83-84 | the rows that survive a removal are a subsequence of the old rows: their relative order is kept |
| `Store.WithoutAfterRemoveAll` | EarthQuake/ContentView.swift:83-84 | deleting one more row after removing a set is the same as removing the set with that row added |
| `Store.RemoveNothing` | EarthQuake/ContentView.swift:83-84 | removing the empty set leaves the rows as they are |
| `Store.QuakeStore.DeleteAll` | EarthQuake/ContentView.swift:39 | the trash button removes every `Quake` from the store |
| `ContentView.InsertByTime` | EarthQuake/ContentView.swift:12 | inserting a row adds exactly that one row and keeps every other row |
| `ContentView.InsertByTimeKeepsOrder` | EarthQuake/ContentView.swift:12 | inserting into a newest-first list keeps it newest-first |
| `ContentView.SortNewestFirst` | EarthQuake/ContentView.swift:12 | the displayed items are ordered by timestamp, newest first, and are a permutation of the stored rows |
| `ContentView.Items` | EarthQuake/ContentView.swift:12 | the `@Query` list is newest first and holds each stored row exactly as often as the store does |
| `ContentView.InsertByTimeKeepsCodesUnique` | EarthQuake/ContentView.swift:12 | inserting a row with a new code keeps the list's codes unique |
| `ContentView.SortKeepsCodesUnique` | EarthQuake/ContentView.swift:12 | the displayed list shows each stored quake once, with no two items sharing a code |
| `ContentView.DecimalString` | EarthQuake/ContentView.swift:68 | the count is written as decimal digits with no leading zero |
| `ContentView.DecimalRoundTrip` | EarthQuake/ContentView.swift:68 | reading the decimal numeral back gives the count it was written from |
| `ContentView.PluralizedTitle` | EarthQuake/ContentView.swift:61-69 | the title is "No quakes" for no items, "One quake" for one item, and otherwise the decimal count followed by " quakes" |
| `ContentView.TitleStartsWithDigit` | EarthQuake/ContentView.swift:61-69 | a title starts with a digit exactly when there are two or more items |
| `ContentView.TitleDeterminesCount` | EarthQuake/ContentView.swift:61-69 | two different counts never get the same title |
| `ContentView.DeleteItems` | EarthQuake/ContentView.swift:81-87 | deletes exactly the items at the given offsets of the newest-first list shown: such an item is gone if and only if its offset was given; the surviving rows keep their order, no row is added and codes stay unique |
| `ContentView.DeleteEach` | EarthQuake/ContentView.swift:83-84 | deleting the items at a set of offsets one at a time leaves the rows not among them, in order, with unique codes |
| `ContentView.ItemsAtAdd` | EarthQuake/ContentView.swift:83-84 | the items found at one more offset are the items found before plus the item at that offset |
| `ContentView.RemovedExactlyAtOffsets` | EarthQuake/ContentView.swift:81-87 | with unique codes, removing the items at the offsets removes an item of the list if and only if its offset was given |

## Left out

- The network round trip (`URLSession.shared.data`). Its outcome is the `Response` parameter of `FetchSummary`.
- Byte-level JSON parsing by `JSONDecoder`. The body is given already parsed, or as "did not parse".
- `DecodeProperties`: does not model Swift's `Float` and `Double` conversions. Any JSON number decodes as `mag` and as `time`, with no rounding and no range check.
- The `UserDefaults` store behind `lastUpdated` holds only dates here. A non-`Date` value under the key, which the getter's `as? Date` turns into `distantPast`, is not modelled.
- The real clock. `Date.now` is the `now` parameter.
- SwiftData internals: `ModelContainer` creation and the silent `return` when it fails (DataTransferModel.swift:62), and how `save()` merges into the main context. A commit is one atomic assignment.
- A failing `save()`. `try?` swallows it in the app; in the model `Save` always commits.
- Store.QuakeStore.DeleteAll: a failing `delete(model:)` is not modelled. `try?` swallows that error in the app and the rows stay; in the model the store is always emptied.
- The engine's choice of row on a duplicate code. SwiftData's unique attribute decides this, and the app does not say. The model fixes insert-if-absent (first write wins), and only the key-set and uniqueness facts depend on no policy.
- `Quake` is a value record, not an object with identity. Since codes are unique, deleting "that object" and deleting "the row equal to it" are the same.
- `ContentView.SortNewestFirst`: lists rows with equal timestamps in insertion order, but that tie order is not stated as a proved property. SwiftData's `@Query` does not promise one.
- The order in which `deleteItems` visits its offsets. The model picks them in any order, which does not change the result.
- Async/await, and concurrency between the UI and the background context, including overlapping fetches, which the app does not guard against.
- `print` diagnostics, the `%.1f` and date formatting of list rows, and all SwiftUI layout, navigation, toolbar and previews.
- `fatalError()` in `fetchQuakes`. `FetchSummary` returns the error instead.
- The disabled `Properties` initializer (DataTransferModel.swift:126-149), which is commented out.
- EarthQuake/EarthQuakeApp.swift, EarthQuake/Preview Content/PreviewContainer.swift and NearthQuake/Item.swift are not part of this model.
