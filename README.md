# Cache-aside data access: a Dafny model

This project models the data-access layer of a small serverless API. The layer has four parts:

- **Snapshot cache.** A process-wide key-value store (`memCache`). It maps a collection name to a snapshot, which is a sequence of documents. It also holds arbitrary values in generic slots. The selector filter `filterBySelector` runs over snapshots.
- **Document-store gateway.** `MongoHelper` offers `find`, the decision and merge logic of `upsertDocument`, and `deleteMany`. They run over an abstract database that maps a collection name to its documents, keyed by `id`.
- **Repository.** The `MongoDataAccess` class is parameterised by a collection name and a `cacheData` flag. It decides when a read is served from the snapshot and when it goes to the database. It also patches the snapshot after creates, updates and deletes.
- **API helpers.** `stripExtraFields`, `isStringEmpty` and the `MongoDocument` shape.

Files and modules:

- `api_types.dfy` (`ApiTypes`): JSON values and documents, JavaScript `===`, selectors, `stripExtraFields`, `isStringEmpty`.
- `data_cache.dfy` (`DataCache`):
  - the selector filter: a specification function `Filter`, plus the looping method `FilterBySelector` proved equal to it;
  - the read-only lookups, as functions of the cache contents;
  - the class `MemCache`, whose methods change the cache.
- `mongo_helper.dfy` (`MongoHelper`):
  - the database as the class `DocumentStore`;
  - the upsert outcome `UpsertOutcome`, with its pieces `Verdict`, `Stamped` and `ErrorOnThrow`;
  - the imperative `UpsertDocument`, proved to produce that outcome.
- `data_access.dfy` (`DataAccess`):
  - one predicate per repository operation, relating the cache before and after, the collection and the outcome (`DocsRead`, `SelectorRead`, `PatchedAfterWrite`);
  - the class `MongoDataAccess`, whose methods are proved to establish those predicates;
  - lemmas proved from the predicates.

Whether the database is reachable during a call is a parameter `up`. For an upsert, the database's behaviour is a parameter `fault`: healthy, connect fails, write throws, or write unacknowledged. The current time `now` (seconds since the epoch) is a parameter. A database read returns the matching documents once each, in an order the model leaves open (`IsListing`).

Some of the code's behaviour is surprising; it is modelled as written:

- The security check runs only when `create` is undefined. `updateDoc` passes `create = false`, so it can never answer UNAUTHORIZED (`UpdateIgnoresSecurityCheck`, and the last `ensures` of `UpdateDoc`). `upsertDoc` passes no security check at all.
- `getDocs` stores what it read as the snapshot even when `cacheData` is false (`ReadAllStoresSnapshotEvenUncached`).
- On a selector miss, only the first fetched document is patched into the snapshot (`MissPatchesOnlyFirst`).
- An unacknowledged write makes `upsertDocument` return `null`. The writers' `typeof result === "object"` guard lets `null` through to `updateCache`. There, a non-empty snapshot throws a `TypeError`. An empty snapshot is replaced by the array `[null]` (`UpdateCacheWithNull`, `PatchedAfterWrite`).
- Any exception inside the upsert is reported as DOC_ALREADY_EXISTS when `create` is truthy, and as DOC_DOES_NOT_EXIST otherwise (`ErrorOnThrow`). A failing write therefore looks like a conflict.
- A cached selector read matches a missing field against nothing. The database's equality query matches a missing field against `null`. For selector keys that name top-level fields, the two paths agree on selectors without `null` (`MatchesAgreeWithQuery`, `CompleteSnapshotAnswersLikeDatabase`).

## Model

| member | source | states |
|---|---|---|
| `ApiTypes.StripExtraFields` | src/ApiTypes.ts:11-27 | `undefined` stays `undefined`; the result never has `_id`; a field is kept, with its value unchanged, iff the chosen branch does not drop it |
| `ApiTypes.StripDefaultKeepsIdAndActive` | src/ApiTypes.ts:23-25 | with default flags exactly `_id`, `creationDate` and `latestUpdate` are removed; `id` and `active` are kept unchanged |
| `ApiTypes.StripCreationDateTakesPrecedence` | src/ApiTypes.ts:17-19 | `keepOnlyCreationDate` wins whatever `keepOnlyLatestUpdate` says: `_id` and `latestUpdate` go, `creationDate` stays |
| `ApiTypes.StripLatestUpdateOnly` | src/ApiTypes.ts:20-22 | `keepOnlyLatestUpdate` alone removes `_id` and `creationDate` and keeps `latestUpdate` |
| `ApiTypes.StripKeepsMongoDocument` | src/ApiTypes.ts:3-27 | in every branch a `MongoDocument` stays one and its `id` is preserved |
| `ApiTypes.IsStringEmpty` | src/ApiTypes.ts:29 | true iff the string is absent or has length 0 |
| `DataCache.FilterBySelector` | helpers/DataCache.ts:21-34 | the flag-and-push loop over documents and selector keys returns exactly `Filter(collection, selector)` |
| `DataCache.FilterAppend` | helpers/DataCache.ts:25-32 | filtering distributes over concatenation, so each pushed document extends the result in order |
| `DataCache.FilterMembership` | helpers/DataCache.ts:28-31 | a document is kept iff it is in the input and, for every selector key, its field is strictly equal to the value or is an array containing it |
| `DataCache.FilterIsSubsequence` | helpers/DataCache.ts:25-33 | the result is a subsequence of the input, in the original order |
| `DataCache.FilterHeadIsFirstMatch` | helpers/DataCache.ts:25-33 | the head of a non-empty filter result is the first matching element of the input: no earlier element matches |
| `DataCache.FilterEmptySelector` | helpers/DataCache.ts:27-31 | an empty selector returns the collection unchanged |
| `DataCache.FilterIdempotent` | helpers/DataCache.ts:21-34 | filtering the result again with the same selector returns the same sequence |
| `DataCache.ReplaceById` | helpers/DataCache.ts:60-67 | the `map` pass keeps the length, puts the new value at every position whose id is strictly equal and leaves the rest; `found` is raised iff such a position exists |
| `DataCache.PatchedReplaces` | helpers/DataCache.ts:61-68 | when the id is present, every element with it is replaced; length and all other elements are unchanged and in place |
| `DataCache.PatchedAppends` | helpers/DataCache.ts:68 | when the id is absent, the new value is appended after the unchanged collection |
| `DataCache.RemovedMembership` | helpers/DataCache.ts:76 | after pruning no element has the id, and every other element is still there |
| `DataCache.RemovedIsSubsequence` | helpers/DataCache.ts:76 | pruning keeps the remaining elements in their order |
| `DataCache.FindById` | helpers/DataCache.ts:15 | `find` returns the first element whose id is the given one, and nothing iff no element has it |
| `DataCache.GetFromCache` | helpers/DataCache.ts:9-11 | the snapshot held under the collection name, if the key holds one |
| `DataCache.GetFromCacheById` | helpers/DataCache.ts:13-16 | `find`: the first snapshot element with the id, with no earlier element carrying it; nothing iff there is no snapshot or no element has the id |
| `DataCache.GetSeveralFromCacheBySelector` | helpers/DataCache.ts:45-52 | no snapshot gives `undefined`; otherwise the result is the filtered snapshot, holding exactly the matching elements in snapshot order |
| `DataCache.GetFromCacheBySelector` | helpers/DataCache.ts:36-43 | `?.[0]` of the filter: the first matching snapshot element, with no earlier element matching; nothing iff there is no snapshot or no element matches |
| `DataCache.AfterUpdateCache` | helpers/DataCache.ts:57-71 | `updateCache` changes only the collection's own key, and nothing at all without a snapshot |
| `DataCache.UpdateCacheWithNull` | helpers/DataCache.ts:57-71 | `updateCache` with `null`: no snapshot leaves the store alone; an empty snapshot becomes `[null]`; a non-empty one throws on `null.id` with the store unchanged |
| `DataCache.AfterRemoveFromCache` | helpers/DataCache.ts:73-80 | `removeFromCache` changes only the collection's own key, and nothing without a snapshot |
| `DataCache.SetThenGet` | helpers/DataCache.ts:54-55 | after `setCache`, `getFromCache` returns exactly the stored values; other collections are unaffected |
| `DataCache.UpdateThenGetById` | helpers/DataCache.ts:57-71 | after `updateCache` on a present snapshot, `getFromCacheById` finds the new value |
| `DataCache.RemoveThenGetById` | helpers/DataCache.ts:73-80 | after `removeFromCache`, `getFromCacheById` finds nothing with that id |
| `DataCache.MemCache.constructor` | helpers/DataCache.ts:7 | the store starts empty |
| `DataCache.MemCache.SaveInCacheByKey` | helpers/DataCache.ts:18 | stores the value under the key, succeeds, and reads back |
| `DataCache.MemCache.SetCache` | helpers/DataCache.ts:54-55 | replaces the collection's snapshot, succeeds, and reads back |
| `DataCache.MemCache.UpdateCache` | helpers/DataCache.ts:57-71 | returns false and changes nothing without a snapshot; otherwise writes the patched snapshot and returns true |
| `DataCache.MemCache.UpdateCacheNull` | helpers/DataCache.ts:57-71 | the three outcomes of `updateCache(name, null)` as in `UpdateCacheWithNull` |
| `DataCache.MemCache.RemoveFromCache` | helpers/DataCache.ts:73-80 | prunes the id from a present snapshot, and returns true with no change when there is none |
| `DataCache.MemCache.ResetAllCache` | helpers/DataCache.ts:86-89 | the store is empty afterwards |
| `DataCache.MemCache.Expire` | helpers/DataCache.ts:5-7 | an expired key is gone and reads as `undefined` |
| `MongoHelper.CollectionOf` | src/helpers/MongoHelper.ts:31 | a collection read from a well-formed database is keyed by id |
| `MongoHelper.ListingEmptyIff` | src/helpers/MongoHelper.ts:31-32 | a `find` result is empty exactly when no stored document matches |
| `MongoHelper.Lookup` | src/helpers/MongoHelper.ts:54-60 | `find({ id }).next()` yields a document iff one matches `{ id }`, and it is the one stored under that id |
| `MongoHelper.Verdict` | src/helpers/MongoHelper.ts:62-86 | DOC_ALREADY_EXISTS iff `create === true` and a document exists; DOC_DOES_NOT_EXIST iff `create === false` and none exists; SECURITY_CHECK_FAILED iff `create` is undefined, a document exists and some checked key differs |
| `MongoHelper.ErrorOnThrow` | src/helpers/MongoHelper.ts:122 | an exception gives DOC_ALREADY_EXISTS iff `create` is true, and never SECURITY_CHECK_FAILED |
| `MongoHelper.Stamped` | src/helpers/MongoHelper.ts:89-97 | merge: input fields win, untouched stored fields stay, `latestUpdate = now`; new: input fields plus `active = true` and `creationDate = latestUpdate = now`, overriding the input |
| `MongoHelper.UpsertOutcome` | src/helpers/MongoHelper.ts:46-127 | creating an existing document fails with DOC_ALREADY_EXISTS and updating a missing one with DOC_DOES_NOT_EXIST, whatever the database does; a document is written iff the checks pass and the database is healthy, and it is the stamped document; `null` iff the write is unacknowledged; a connect failure, or a write that throws after the checks pass, maps by `create` to DOC_ALREADY_EXISTS or DOC_DOES_NOT_EXIST; with a reachable database a refusal is exactly the verdict's error |
| `MongoHelper.UpsertStoresReturnedDoc` | src/helpers/MongoHelper.ts:99-113 | on success the database holds exactly the returned document under its id, and no other id changes |
| `MongoHelper.StoreKeepsWellFormed` | src/helpers/MongoHelper.ts:99-102 | writing a document under its own id keeps the database keyed by id |
| `MongoHelper.NoWriteUnlessWritten` | src/helpers/MongoHelper.ts:88 | any outcome other than a written document leaves the database unchanged |
| `MongoHelper.UpdateIgnoresSecurityCheck` | src/helpers/MongoHelper.ts:62-86 | with `create === false` the outcome is never SECURITY_CHECK_FAILED, whatever the check asks |
| `MongoHelper.StampedIsMongoDocument` | src/helpers/MongoHelper.ts:90-97 | the merged or new document of a well-typed input is a `MongoDocument` with the input's `id` |
| `MongoHelper.CheckSecurity` | src/helpers/MongoHelper.ts:81-85 | the key loop flags failure iff some checked key's stored value is not strictly equal to the expected one |
| `MongoHelper.Remaining` | src/helpers/MongoHelper.ts:134 | `deleteMany` leaves exactly the documents that do not match, unchanged |
| `MongoHelper.DeletedIffAnyMatch` | src/helpers/MongoHelper.ts:134-135 | `deletedCount > 0` iff some document matched the filter |
| `MongoHelper.AfterDelete` | src/helpers/MongoHelper.ts:134 | the database stays keyed by id after a delete |
| `MongoHelper.DocumentStore.GetDocumentsForCollection` | src/helpers/MongoHelper.ts:19-45 | throws iff the database is unreachable; otherwise returns each matching document exactly once, and nothing else |
| `MongoHelper.DocumentStore.UpsertDocument` | src/helpers/MongoHelper.ts:46-127 | the mutable `result` across the branches yields `UpsertOutcome` of the stored document, and the database changes only by the written document |
| `MongoHelper.DocumentStore.Store` | src/helpers/MongoHelper.ts:99-102 | the upserting `updateOne` puts the document under its own id in the collection, changes nothing else, and keeps the database keyed by id |
| `MongoHelper.DocumentStore.DeleteDocumentsForCollection` | src/helpers/MongoHelper.ts:128-148 | rethrows when unreachable with nothing deleted; otherwise deletes the matches and returns true iff at least one matched |
| `MongoHelper.DocumentStore.constructor` | src/helpers/MongoHelper.ts:18 | builds the gateway over a database that is well formed (keyed by id); the empty database is only a starting point, and every other contract holds for any well-formed database |
| `DataAccess.FirstOf` | helpers/MongoDataAccess.ts:58 | `?.[0]`: failures pass through; an empty result gives `undefined`; otherwise the first document |
| `DataAccess.ReadAllTwiceServesSnapshot` | helpers/MongoDataAccess.ts:25-33 | with caching on, a second `getDocs` returns the first's result without a database read or cache change |
| `DataAccess.ReadAllStoresSnapshotEvenUncached` | helpers/MongoDataAccess.ts:30-32 | `getDocs` stores its database result as the snapshot even when `cacheData` is false |
| `DataAccess.UncachedSelectorReadNeverNotFound` | helpers/MongoDataAccess.ts:39-41 | with caching off, `getDocsBySelector` never fails with NOT_FOUND and never changes the cache |
| `DataAccess.SelectorHitServesFilteredSnapshot` | helpers/MongoDataAccess.ts:42-44 | a warm snapshot with matches and no forced refresh gives exactly `filterBySelector(snapshot, selector)`, with no change |
| `DataAccess.MissPatchesOnlyFirst` | helpers/MongoDataAccess.ts:44-49 | on a miss or forced refresh only `data[0]` enters the snapshot; a second fetched document that was not cached stays out |
| `DataAccess.MatchesAgreeWithQuery` | helpers/DataCache.ts:28-30 | for selector keys that name top-level fields and selectors without `null`, the cache filter's per-document test equals the database's equality query |
| `DataCache.FilterKeepsDistinct` | helpers/DataCache.ts:25-33 | filtering a list with no repeats gives a list with no repeats |
| `DataAccess.CompleteSnapshotAnswersLikeDatabase` | helpers/MongoDataAccess.ts:42-51 | for selector keys that name top-level fields and selectors without `null`: when the snapshot lists the whole collection, the filtered snapshot lists exactly the documents the database would return |
| `DataAccess.WrittenDocIsCached` | helpers/MongoDataAccess.ts:83-91 | with caching on and a snapshot present, a written document is what `getFromCacheById` then finds |
| `DataAccess.DeletedIdIsGone` | helpers/MongoDataAccess.ts:107-110 | with caching on and the database reachable, after `deleteDocById` neither the snapshot (pruned by `removeFromCache`) nor the database (after `deleteMany({ id })`) has a document with the id |
| `DataAccess.NumCodeScenario` | helpers/DataCache.ts:21-34 | the selector `{numCode: 5}` keeps a document with `numCode: 5` and one whose `numCode` array holds 5, drops one without the field, and keeps order |
| `DataAccess.MongoDataAccess.constructor` | helpers/MongoDataAccess.ts:20-23 | sets the collection name, and `cacheData` defaults to true |
| `DataAccess.MongoDataAccess.GetDocs` | helpers/MongoDataAccess.ts:25-33 | with caching on and a snapshot present, returns it with no read and no change; otherwise reads the whole collection, stores it as the snapshot and returns it; unreachable means a transport error |
| `DataAccess.MongoDataAccess.GetDocsBySelector` | helpers/MongoDataAccess.ts:34-52 | establishes `SelectorRead`: a database answer with caching off; a filtered snapshot on a hit; on a miss, NOT_FOUND for an empty database answer, otherwise the answer, with only its first document patched in |
| `DataAccess.MongoDataAccess.GetDocBySelector` | helpers/MongoDataAccess.ts:53-59 | the first element of `getDocsBySelector` under the same conditions |
| `DataAccess.MongoDataAccess.GetDocById` | helpers/MongoDataAccess.ts:60-62 | `getDocBySelector({ id })` |
| `DataAccess.MongoDataAccess.TryGetDocBySelector` | helpers/MongoDataAccess.ts:63-74 | never fails: the first document; nothing (`undefined` in the source) when the read succeeds with no document, and nothing (`null` in the source) when the read fails |
| `DataAccess.MongoDataAccess.TryGetDocsBySelector` | helpers/MongoDataAccess.ts:75-82 | never fails: the documents, or `[]` on any failure; no forced refresh |
| `DataAccess.MongoDataAccess.PatchAfterWrite` | helpers/MongoDataAccess.ts:88 | an object result (document or `null`) goes through `updateCache` only when `cacheData` is true; error codes are returned untouched |
| `DataAccess.MongoDataAccess.CreateDoc` | helpers/MongoDataAccess.ts:83-91 | upserts with `create = true`; DOC_ALREADY_EXISTS becomes ALREADY_EXISTS with the cache unchanged; otherwise patches as `PatchedAfterWrite` says |
| `DataAccess.MongoDataAccess.UpdateDoc` | helpers/MongoDataAccess.ts:92-101 | upserts with `create = false`; DOC_DOES_NOT_EXIST becomes NOT_FOUND; UNAUTHORIZED is never produced; otherwise patches |
| `DataAccess.MongoDataAccess.UpsertDoc` | helpers/MongoDataAccess.ts:102-106 | upserts with neither `create` nor a security check; error codes come back as values; a document or `null` is patched |
| `DataAccess.MongoDataAccess.DeleteDocById` | helpers/MongoDataAccess.ts:107-110 | with caching on, prunes the id from the snapshot whatever the database does; then returns true iff a document with the id was stored, or a transport error |

## Left out

- NodeCache internals are not modelled: the TTL clock, the `checkperiod` sweep, statistics (`logStats`), and the `useClones: false` sharing of stored arrays with callers. Expiry is the explicit `Expire` operation, which the environment may invoke at any time. Snapshots are values, so aliasing between a returned array and the stored one is not captured.
- A key shared between a generic slot and a collection name is read as "no snapshot". So is the `[null]` array left by an unacknowledged write (create, update or upsert) over an empty snapshot. The source would use such a value as an array, which may throw later.
- `GetFromCacheByKey`: returns the stored entry rather than a value of the caller's chosen type; the type cast is not modelled.
- Connection handling (`MongoClient`, `connect`, `close`), cursors, logging and `console.log` are not modelled. Whether the database is reachable is the parameter `up`. For an upsert, how the database fails is the parameter `fault`.
- A repository call uses one `up` for all its database calls. A first read that succeeds followed by a second that fails is not modelled.
- `getMongoNow` and `getMongoDate` are replaced by the integer parameter `now`.
- The `sort` argument of every read is not modelled. The database's order is left open, and a sort would only choose among the orders the model already allows.
- `DocumentStore.UpsertDocument`, `MongoDataAccess.CreateDoc`, `MongoDataAccess.UpdateDoc`, `MongoDataAccess.UpsertDoc`: require the input document to carry a string `id`. The source takes a `Partial<T>` (the HTTP handler passes the raw request body), and the database's treatment of a missing or non-string `id` is not part of this model.
- `DocumentStore.UpsertDocument`: does not model the `_id` the database adds to an inserted document. An unacknowledged or throwing write is modelled as writing nothing.
- `MongoDataAccess.TryGetDocBySelector`: `undefined` (a successful read with no document) and `null` (a caught failure) are both `None`; the ghost `docs` result tells the two apart, but the returned value does not.
- `DataAccess.MatchesAgreeWithQuery`: the database query (`QueryMatches`) reads every selector key as the name of a top-level field. The database reads a dotted key (`"screens.id"`) as a path into embedded documents and arrays, and gives `$`-prefixed keys operator meaning. Neither is modelled, so the agreement with the cache filter is proved only for keys that name top-level fields. For a dotted key the cache filter reads an `undefined` field and drops documents that the database would return.
- `DataAccess.CompleteSnapshotAnswersLikeDatabase`: inherits the same restriction. A complete snapshot answers like the database only for selector keys that name top-level fields; dotted paths and `$` operators are not modelled.
- Numbers are integers. Floating-point values and `NaN !== NaN` are not modelled.
- Arrays and objects are never strictly equal to one another (`StrictEq`). JavaScript compares them by reference, and the model does not track object identity. Selectors are restricted to scalar values for this reason.
- Not part of this model: async scheduling and concurrent invocations; the HTTP handler (functions/Config.ts); response helpers (src/helpers/HttpHelper.ts); the logger (helpers/Logger.ts); environment configuration (helpers/EnvHelper.ts); the one-line delegations of business/ConfigBusiness.ts; and the duplicate type declarations of src/shared-types/Configuration.ts.
