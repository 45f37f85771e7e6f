# Inspekto Lite: local store and domain layer

Inspekto Lite is an offline-first field-inspection logger. Everything it records sits in
an IndexedDB database with six object stores:

- `settings`, keyed by `key`; the other five are keyed by `id`.
- `locations` and `inspections`.
- `equipment` and `issues`.
- `media`: photos and audio clips.

A few secondary indexes let the pages find the records that belong to a parent.

This project models that persistence and domain layer of `assets/app.js`:

- The record store: `put`, `del`, `get`, `all` and `byIndex`.
- The upgrade pass that creates missing stores and indexes.
- The settings helpers and the defaults installed at start-up.
- The record constructors and the read-modify-write mutators.
- The inspection bundle assembler.
- The upload reconciler that sends pending media to a server.
- The `conservativeSuggestions` grouping.

Modules:

- `Base`: `Option`, `Result`, `Filter` (the `Array.prototype.filter` of the source) and `NoDuplicates`.
- `Strings`: lexicographic order on strings, which is the key order IndexedDB returns, and `Number.prototype.toString(radix)` with its inverse.
- `Records`: one datatype per stored record, the `uid` generator, and the key and index fields.
- `Tables`: `Table<T>`, a class for one object store. Its `rows` map is changed by `Put` and `Del` and read by `Get`, `All` and `ByIndex`.
- `Schema`: the `onupgradeneeded` pass as functions on a `Layout` value (store names with key paths, plus index key paths).
- `Domain`: what each mutator does to the record it read, and the defaults table.
- `Upload`: which media one run sends, the request for each, the outcome of each attempt, and what each outcome writes back.
- `Suggestions`: the stable sort by capture time and the five tag groups.
- `App`: the class `Store`, with one `Table` per object store and one method per operation. The loops of `ensureDefaults`, `listInspectionBundle` and `tryUploadPending` are loops here too.

The clock (`Date.now()`), the random part of `uid` and the network (`fetch`) are parameters:

- `now: nat` is the clock reading.
- `random: string` is the random part of the id.
- `send: UploadRequest -> Response` answers each upload request with an HTTP status or a thrown error.

## Model

| member | source | states |
|---|---|---|
| Tables.Table.Put | assets/app.js:98-103 | the record is stored under its key and replaces any record there (no merge); `Get` on that key then returns exactly it; every other key reads as before |
| Tables.Table.Del | assets/app.js:105-109 | the key is removed, `Get` on it gives None afterwards, other keys unchanged; deleting a missing key changes nothing |
| Tables.Table.Get | assets/app.js:111-118 | None exactly when no record has that key (no error); otherwise the record stored under that key, whose own key equals the key asked for |
| Tables.Table.All | assets/app.js:120-127 | every stored record exactly once (length equals the number of keys, membership both ways), in strictly ascending key order |
| Tables.SortedKeys | assets/app.js:120-127 | the keys of a set, each once, in strictly ascending lexicographic order |
| Tables.Table.ByIndex | assets/app.js:129-137 | exactly the stored records whose indexed field equals the value (both directions), in ascending key order; empty when none match |
| App.Store.MediaOfParent | assets/app.js:78-80 | the `by_parent` lookup matches a media record only when both `parentType` and `parentId` match |
| Schema.EnsureStores | assets/app.js:52-62 | every declared store exists afterwards, no other store is created, existing stores keep their key paths, indexes untouched |
| Schema.EnsureIndexes | assets/app.js:64-83 | requires each index's store to exist; every declared index exists afterwards, existing indexes keep their key paths, stores untouched |
| Schema.IndexStoresDeclared | assets/app.js:52-65 | after the store pass every one of the six stores exists, so every index creation finds its store |
| Schema.Upgrade | assets/app.js:49-84 | afterwards all six object stores and every declared index exist, whatever the database held before |
| Schema.EnsureStoresKeyPaths | assets/app.js:52-55 | a store the pass creates gets exactly its declared key path (no store declared twice) |
| Schema.EnsureIndexesKeyPaths | assets/app.js:64-83 | an index the pass creates gets exactly its declared key path (no index declared twice on a store) |
| Schema.UpgradeKeyPaths | assets/app.js:49-84 | a store the upgrade creates is keyed by its declared key path (`key` for settings, `id` for the rest), and an index it creates by its declared key path (a single field, or the compound `["parentType","parentId"]` for `by_parent`) |
| Schema.UpgradeIsAdditive | assets/app.js:49-84 | the upgrade keeps every index attached to an existing store, creates all declared stores and indexes, creates nothing else and never changes an existing key path |
| Schema.EnsureStoresPresent | assets/app.js:52-55 | ensuring stores that all exist changes nothing |
| Schema.EnsureIndexesPresent | assets/app.js:65-83 | ensuring indexes that all exist changes nothing |
| Schema.UpgradeIdempotent | assets/app.js:49-84 | running the upgrade a second time changes nothing |
| Records.Uid | assets/app.js:22-24 | the id is the prefix, `_`, the clock reading written in base 36 (lowercase digits, no leading zero, reading back as the clock value), then `_` and the random part |
| Strings.Radix | assets/app.js:23 | the text is non-empty, made of digits valid in the base, with no leading zero |
| Strings.ParseRadixInverts | assets/app.js:23 | reading back the formatted number gives the number (used for the id stamp and the `HTTP <status>` text) |
| App.Store.GetSetting | assets/app.js:139-142 | the stored value when the key has a row, the fallback otherwise |
| App.Store.SetSetting | assets/app.js:144-146 | the row under the key is replaced by `{key, value, updatedAt: now}`, which then reads back as the value whatever the fallback |
| App.Store.EnsureDefaults | assets/app.js:148-175 | the settings table becomes `WithDefaults(old table, Defaults, now)`: the defaults visited in order, a row written only where the key had none |
| Domain.WithDefaultsAdds | assets/app.js:171-174 | existing rows are never changed, every default key has a row afterwards, no other key appears, new rows carry the clock reading |
| Domain.WithDefaultsValue | assets/app.js:149-174 | a default key that had no row afterwards holds exactly the declared value |
| Domain.WithDefaultsPresent | assets/app.js:171-174 | when every default key already has a row nothing is written |
| Domain.WithDefaultsIdempotent | assets/app.js:171-174 | running the defaults pass twice gives the same table as running it once, whatever the second clock reading |
| App.Store.CreateLocation | assets/app.js:209-213 | a `loc_` id, the given fields, both timestamps equal to the clock; stored under its id, other locations unchanged |
| App.Store.CreateInspection | assets/app.js:215-220 | an `ins_` record in the capturing state is stored; `activeInspectionId` is set to its id; `ActiveInspection()` then succeeds with exactly that record |
| App.Store.ActiveInspection | assets/app.js:222-226 | fails (`DataError`) exactly when the setting is a non-empty list, which is no valid key; otherwise some inspection exactly when the setting is non-empty text naming a stored inspection, and then that stored record; missing or empty text and the empty list give none |
| App.Store.EndInspection | assets/app.js:228-234 | a missing id changes nothing; otherwise only `status` (to review) and `updatedAt` of that record change |
| App.Store.CreateEquipment | assets/app.js:236-251 | an `eq_` record with the given fields and empty cover and sign ids, stored under its id |
| App.Store.CreateIssue | assets/app.js:253-266 | an `iss_` record with an empty media list, stored under its id |
| App.Store.AddMedia | assets/app.js:268-284 | an `m_` record, not uploaded and without error, stored under its id |
| Domain.AttachMedia | assets/app.js:286-295 | nothing is written exactly when the id is already listed; otherwise only the list and `updatedAt` change, the id is appended when there is room, and a full list is kept as its first four entries |
| Domain.AttachKeepsListOk | assets/app.js:289-291 | attaching keeps the list free of duplicates and at most four long; the id is listed afterwards exactly when it was listed or there was room |
| Domain.AttachAllStep | assets/app.js:286-295 | one attachment step of `AttachAll` is the list `AttachMedia` writes (the old list when nothing is written) |
| Domain.AttachAllKeepsFirstFour | assets/app.js:286-295 | any sequence of attachments to a new issue leaves the first four distinct ids in attachment order (a fifth distinct id is dropped, a repeat changes nothing) |
| App.Store.AttachMediaToIssue | assets/app.js:286-295 | a missing issue changes nothing; otherwise the stored issue becomes what `AttachMedia` says, or stays when the id is listed, and every issue keeps a well-formed list (the store invariant) |
| Domain.SetCover | assets/app.js:297-304 | `"cover"` sets only the cover id, `"sign"` only the sign id, any other kind neither; every field but those and `updatedAt` is unchanged |
| App.Store.SetEquipmentCover | assets/app.js:297-304 | a missing id changes nothing; otherwise the stored equipment becomes `SetCover` of it |
| App.Store.IssuesUnderMembers | assets/app.js:309-314 | an issue is in the flattened list exactly when it is stored and its equipment is one of the listed equipment |
| App.Store.CollectIssues | assets/app.js:309-314 | the loop builds `IssuesUnder(eqs)`: each equipment's `by_equipment` lookup concatenated in equipment order |
| App.Store.ListInspectionBundle | assets/app.js:306-317 | the inspection (None when missing), its location (None without an inspection), its equipment via `by_inspection`, the concatenated issues, and its media via `by_inspection`; all empty when no record names the id |
| Base.Filter | assets/app.js:327 | the kept elements are exactly the elements satisfying the test, and never more than the input |
| Upload.Batch | assets/app.js:327-331 | at most twelve records, each eligible and taken from the listed records; all eligible ones when there are at most twelve, otherwise exactly the first twelve eligible ones in listing order (key order for `all`) |
| Upload.UploadUrl | assets/app.js:338 | for a text endpoint the address ends with `/upload` and what precedes it is the endpoint with exactly one trailing slash removed; a non-text setting is an error |
| Upload.Request | assets/app.js:333-337 | the form carries the record's id, inspection id and tag, and its payload as a file named after the id with a `.jpg` extension, sent to the built address |
| Upload.Outcome | assets/app.js:333-345 | success exactly when the address was built and the answer is a 2xx status; an HTTP failure stores `HTTP ` followed by the status, which reads back as the status; the stored text is exactly `HTTP ` followed by the decimal status; a thrown error stores its message, or its name when the message is empty; an address that could not be built stores that failure's message |
| Upload.Settle | assets/app.js:340-345 | on success the record is marked uploaded with no error; on failure only the error text changes (uploaded stays as it was) |
| Upload.SettleEligible | assets/app.js:327-345 | after a successful attempt the record is no longer pending (not eligible); after a failed one it is pending exactly as before |
| Upload.Successes | assets/app.js:330-349 | the count never exceeds the batch, and equals it only when every attempt succeeded |
| Upload.SuccessesAll | assets/app.js:330-349 | the count equals the batch size exactly when every attempt succeeded (both directions) |
| Upload.SuccessesCountUploaded | assets/app.js:330-349 | for a batch of stored, not yet uploaded records without repeated ids, the count is the number of batch records that are uploaded after the run |
| App.Store.Attempt | assets/app.js:332-346 | `ok` exactly when the attempt succeeded; the record is written back under its id with its outcome; nothing else in the media store changes |
| App.Store.RunBatch | assets/app.js:330-349 | the loop writes the records back one after another (`Run`) and counts the successes (`Successes`) |
| App.BatchIsKeyed | assets/app.js:325-331 | every record of the batch is the one stored under its id, is not uploaded, and no id occurs twice |
| Upload.RunIsSettled | assets/app.js:330-348 | writing the batch back one after another leaves every attempted record with its own outcome and every other record unchanged |
| App.Store.TryUploadPending | assets/app.js:323-350 | an empty endpoint gives `no-endpoint` and changes no media; otherwise the report counts the successful attempts of `Batch(all media)`, the media store is `Settled` by that batch, and the reported number is the number of batch records now marked uploaded |
| Upload.RerunFindsNothing | assets/app.js:327-331 | after a run in which every attempt succeeded and the whole pending set fit in the batch, no stored record is eligible any more |
| Suggestions.ConservativeSuggestions | assets/app.js:354-364 | each of the five groups holds exactly the input media carrying its tag (both directions) and is in non-decreasing capture time |
| Suggestions.SortByCapture | assets/app.js:356 | the copy is in non-decreasing capture time and is a permutation of the input |
| Suggestions.SortKeepsTies | assets/app.js:356 | media all captured at the same moment are left in input order |
| Suggestions.SortIsStable | assets/app.js:356 | the sort is stable: the media captured at any one moment appear in the sorted copy in their input order |
| Suggestions.FilterSort | assets/app.js:356-362 | filtering the sorted list equals sorting the filtered list |
| Suggestions.GroupsAreTagsInCaptureOrder | assets/app.js:354-364 | each group is exactly the media with that tag, sorted by capture time |
| Suggestions.GroupMembership | assets/app.js:357-363 | a record of the input is in a group exactly when its tag is that group's tag, so records with other tags appear in no group |

## Left out

- IndexedDB requests, transactions and their atomicity (`openDB`, `tx`): each store is a map that operations change directly. Opening failures (a database that cannot be opened, a failing upgrade) are not modelled.
- Default arguments: `createInspection` defaults `kind` to `"annual"`, `setEquipmentCover` defaults `kind` to `"cover"`, and `createLocation`, `createEquipment`, `createIssue` and `addMedia` default their optional text fields to `""`. The model's callers pass every argument, so a call that omits one is modelled as a call passing that default.
- Interleaving between the asynchronous operations: every operation runs to completion before the next starts.
- The clock: each operation takes one reading `now`. The source reads `Date.now()` several times per operation: once inside `uid`, separately for `createdAt` and `updatedAt`, for the `activeInspectionId` row that `createInspection` writes after awaiting the inspection's `put`, and for each `ensureDefaults` row, each written after the previous awaited write. Readings taken after an await can differ by any amount. The model stamps them all with `now`, so it promises, for example, that the active-inspection row's `updatedAt` equals the new inspection's `createdAt`, which the source does not.
- The random part of `uid` is a parameter. Whether two ids collide is not modelled.
- `FormData`, `fetch` and the multipart body: `send` answers each request. Only a thrown error's name and message are kept.
- A failure of the `put` inside the upload loop's `try` (a storage error after a successful send) is not modelled.
- Values of other JavaScript types thrown into the upload `catch` are not modelled.
- Setting values other than text or a list of choices (the two shapes the application writes) are not modelled. So are `getSetting` fallbacks other than text.
- `fmt`, `qs`, `qsa`, `toast`, `mustServeSecure`, `registerSW`, `blobToDataURL`, `mediaThumbURL`, `service-worker.js` and `assets/ui.js` are browser, DOM and I/O glue and are not part of this model.
- Key order is compared by Unicode code point. IndexedDB compares UTF-16 code units; the two orders differ only for characters outside the Basic Multilingual Plane.
- Media payloads are byte sequences; `Blob` objects and their MIME sniffing are not modelled.
- The upload batch is the first twelve eligible records in ascending key order, as `getAll` returns them.
- `listInspectionBundle` for an inspection id that does not exist is empty only when no equipment or media record names that id. The code queries the indexes regardless, so orphaned records still appear.
