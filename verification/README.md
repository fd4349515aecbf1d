# Verification of the connector module

A Dafny model of the stateful parts of TinyConnectors, with proofs of what they promise.
The methods are the source's own procedures, the lemmas what is claimed of them; the table
below cites the lines each one is about.

* **Owner migration** (`StreamProtocol`, `StreamMigration`, `PrefProtocol`, `PrefMigration`,
  `Migration`, `LegacyKey`, `Preference`, `DocumentStore`, `MigratedPreferences`). Any number of openers, legacy
  writers and new writers share a store of versioned documents and append-only streams. The
  two protocol modules are state machines in which every port call is one atomic step, may be
  preceded by any steps of others, and may fail with or without having been committed. The two
  migration modules are the procedures themselves, proved to be runs of those machines under
  every schedule of interference, so what holds of every run holds of them. Run undisturbed,
  their exact result is stated as well.
* **Trigger history** (`Archive`, `Chronology`, `History`, `NewestHidden`, `OneOpener`,
  `Sorting`). The
  windowed backward read, among appends, against a one-record scan; the top of a deduplicated
  history; and when it is independent of how far the migration has got, and when not.
* **JSON walks and filters** (`SchemaWalk`, `TaskWindow`, `Text`, `Json`). The breadth-first
  search for a shallowest array, and filtering one array of a response by get/set laws.
* **Contract cache** (`CacheProtocol`, `ContractCache`). Double-checked locking with expiry and
  clear-on-Configure, as concurrent callers and as the class methods.
* **Action pipeline** (`Prepare`, `Retry`, `ScopeGate`, `Composio`). Argument preparation, the
  two nested retry policies over an arbitrary route, and the preference gate before them.
* **Failure text** (`HttpErrors`). Redaction by repeated replacement, then truncation to a
  budget.

`Base` and `Storage` hold what the others share.

What the host supplies is a parameter or an assumption of the state machines: streams never
shrink, a window read returns the records there are up to the limit, a prefix listing returns
the streams with that prefix, and a document write gets a version no document had. The clock,
the SHA-256 digest and `Key::new` check of `legacy_key`, timestamp parsing, the serde decoding
of an archived entry, the wording and classification of failures, the curated scope of an
action and every reply of a route are arbitrary functions or inputs. JSON objects are maps
visited in ascending key order, as serde_json keeps them here. Strings are sequences of
characters; where the source counts bytes (`legacy_key`), so does the model.

## Where code and documentation part

* A record written into a day while that day is being copied breaks the promise of the stream
  marker (`StreamProtocol.EarlyRecordBreaksCertificate`). The promise is kept because the
  module hands its stores out only after the migration
  (crates/tinyconnectors/src/tinybus_module/storage.rs:60-77), which is the condition of
  `MarkerCertifiesCopies`.
* A record written into a day some opener has not finished copying can end up ahead of older
  events, also when writers wait for the marker, because another opener's marker lets them in.
  A read of the most recent deliveries, which counts on each day being in time order, can then
  miss the newest (`NewestHidden.MigrationCanHideTheNewest`). It takes two openers: among
  writers that wait for the marker, order is kept, the migration is invisible and reads report
  the newest deliveries exactly for at most one (`OneOpener.OneOpenerExactly`).
* An opener that loses its write to a concurrent set of the very same value and expiry adopts
  that document, and may then overwrite it after the legacy row
  (`PrefProtocol.LostWhenSomeoneMayAdopt` has the exact condition on the state).
* The walk over a value takes everything below empty keys for the root
  (`SchemaWalk.RootIsRecognised` has the exact condition).
* A slug that starts with `_` names no toolkit either, not only a blank one
  (crates/tinyconnectors-bus/src/vocabulary/slug.rs:86-109), and so passes the gate
  (`ScopeGate.NamesAToolkit`).
* Dates accept a plus sign in front of each number (`Prepare.DatesAreFullDates`).
* A fetch in flight while Configure swaps the client and clears the cache stores the old
  client's catalog afterwards (`CacheProtocol.StraddlingServesStale`).
* A provider message without a fix can take 243 characters, three more than the stated
  longest (`HttpErrors.DetailOverflows`).
* "Newest day first" (crates/tinyconnectors/src/triggers/archive.rs:135) holds within a
  prefix (`Archive.NamesWithinPrefix`) and not beyond: every legacy name sorts above every
  current one (`Archive.LegacyNamesFirst`).
* Deliveries with different ids can share a key, exactly when one id goes on with a `:` where
  the other ends (`Archive.KeysCanMeet`), and of two with one key a read reports one
  (`History.SharedKeyHides`). So history is stated over keys, and over deliveries where no id
  that comes with a uuid holds a `:` (`History.DeliveriesAreReported`).
* The migration takes a legacy document's id, which is an escaped toolkit name already, for the
  name of the new one and escapes it again. A preference saved for a toolkit whose name needs
  escaping is not found afterwards (`MigratedPreferences.OldPreferenceIsRead` has the exact
  condition).

## Model

| member | source | states |
|---|---|---|
| Migration.Prepare | crates/tinyconnectors/src/state/migration.rs:34-47 | the two steps in order, each behind its marker: a failed preference step leaves the streams untouched; success leaves both markers; undisturbed, it succeeds exactly when every legacy id has a key and every target is a prefix of its source, and then every absent preference is filled and every day copied; where both markers stand it changes nothing |
| StreamProtocol.TargetsStayPrefixes | crates/tinyconnectors/src/state/migration.rs:230-316 | in every interleaving of any number of openers, faults and legacy appends, a target that starts as a prefix of its source stays one (nothing lost, doubled or reordered), and one that differs from its source is never appended to |
| StreamProtocol.MarkerCertifiesCopies | crates/tinyconnectors/src/state/migration.rs:34-87 | while new writers wait for the marker: once a pass has written it, every legacy event that pass listed is in its target at the same offset |
| StreamProtocol.FailedPassWritesNoMarker | crates/tinyconnectors/src/state/migration.rs:34-47 | the marker changes only by a pass that has copied every day it listed, so a pass that stops earlier leaves the step to be retried |
| StreamProtocol.PassProgresses | crates/tinyconnectors/src/state/migration.rs:270-304 | every port call of a pass, whether it appends or follows the identical page of a winner, brings it strictly closer to its end whatever others do in between |
| StreamProtocol.EarlyRecordBreaksCertificate | crates/tinyconnectors/src/tinybus_module/storage.rs:60-77 | why writers must wait: a record that lands between two pages of a copy is taken for copied history, and the pass completes with the last legacy event in no target; the cited code hands storage out only after the migration |
| StreamProtocol.HistoryKept | crates/tinyconnectors/src/state/migration.rs:230-316 | openers add no event and hide none: what the two stream families hold together is what writers appended |
| StreamProtocol.InvHolds | crates/tinyconnectors/src/state/migration.rs:230-316 | what every opener knows about the day it is on holds in every reachable state |
| StreamProtocol.RunEvolves | crates/tinyconnectors/src/state/migration.rs:230-316 | legacy and current streams only ever grow at their ends |
| StreamMigration.VerifyPrefix | crates/tinyconnectors/src/state/migration.rs:245-268 | undisturbed, it succeeds exactly when the target agrees with the source over its whole length; it writes nothing |
| StreamMigration.CopyPage | crates/tinyconnectors/src/state/migration.rs:270-304 | one round of the copy: after it the target reaches past the page, by this append or by an identical one that won the race; anything else is an error |
| StreamMigration.CopyRest | crates/tinyconnectors/src/state/migration.rs:270-304 | the loop ends under any interference and, undisturbed, leaves the target equal to the listed source |
| StreamMigration.CopyUnchanged | crates/tinyconnectors/src/state/migration.rs:292-312 | the second half of a day: the loop and the last look at the source; a source that changed meanwhile is refused, and an undisturbed prefix ends as the whole source |
| StreamMigration.MigrateDay | crates/tinyconnectors/src/state/migration.rs:231-312 | one day: refused when the target is longer or differs, when a source shrinks or grows meanwhile; otherwise copied |
| StreamMigration.MigrateStreams | crates/tinyconnectors/src/state/migration.rs:230-316 | undisturbed, from any matching partial targets, every listed day ends holding its whole source; it fails exactly when some target is no prefix |
| StreamMigration.Done | crates/tinyconnectors/src/state/migration.rs:48-62 | a marker document that is not the expected one is an error, not a "no" |
| StreamMigration.MarkDone | crates/tinyconnectors/src/state/migration.rs:64-87 | losing the write of the marker is success only when the winner's marker is the expected one |
| StreamMigration.PrepareStreams | crates/tinyconnectors/src/state/migration.rs:42-45 | under any interference and any faults a run of the protocol; undisturbed, succeeds exactly when all targets are prefixes, and a second run changes nothing |
| PrefProtocol.OnlyMigratedContentIsReplaced | crates/tinyconnectors/src/state/migration.rs:109-201 | the migration overwrites or deletes a target only at a version it holds, whose body and expiry are the encoding of a legacy row some opener read |
| PrefProtocol.UnheldDocumentSurvives | crates/tinyconnectors/src/state/migration.rs:109-201 | a document no opener holds survives every interleaving until another writer replaces it or an opener that read a legacy row of the very same value and expiry adopts it |
| PrefProtocol.ConcurrentSetSurvives | crates/tinyconnectors/src/state/document_store.rs:60-73 | a preference set at any moment of any number of running migrations is still what is read afterwards, unless an opener that read a legacy row of the same value adopts it |
| PrefProtocol.LostWhenAdopted | crates/tinyconnectors/src/state/migration.rs:109-201 | and there is nothing in between: a document nobody holds, such as one just set, can be lost to the migration exactly when it can be adopted |
| PrefProtocol.LostWhenSomeoneMayAdopt | crates/tinyconnectors/src/state/migration.rs:109-201 | the same as a condition on the state: exactly when some opener is at the write or the comparison of a row that encodes the document, has one ahead on its page, or can still query while some id has the document's key |
| PrefProtocol.AdoptedIsLost | crates/tinyconnectors/src/state/migration.rs:121-201 | from any world in which an opener is about to adopt a target, one change of the legacy row and the opener's own calls overwrite it |
| PrefProtocol.SetCanBeLost | crates/tinyconnectors/src/state/migration.rs:109-201 | such a set and such a run exist from every start with a legacy row without expiry that has a key |
| PrefProtocol.SetAfterWriteSurvives | crates/tinyconnectors/src/state/migration.rs:147-201 | a set that lands after the migration's write survives whatever openers and legacy writers do, also when its value is that of the legacy row |
| PrefProtocol.RowLeftAsLastRead | crates/tinyconnectors/src/state/migration.rs:146-201 | in every run, when an opener is done with a row, the version it held is no longer in place unless it carries the row, value and expiry, exactly as the opener last read it; this holds exactly if the store refuses no write whose version is in place |
| PrefProtocol.FailsOnlyFor | crates/tinyconnectors/src/state/migration.rs:109-201 | an opener on a row fails only with the backend, for a refused read, for a target that refused its write and is gone, or at a row without a key: a conflict while it follows a row is no failure |
| PrefProtocol.MarkerCertifiesTargets | crates/tinyconnectors/src/state/migration.rs:34-41 | the preference marker is written only by an opener for which every legacy row its queries returned has a target that is or was there |
| PrefProtocol.InvHolds | crates/tinyconnectors/src/state/migration.rs:109-201 | versions are never reused, and an opener holds a version only of a document carrying a row it read |
| PrefMigration.MigratePreference | crates/tinyconnectors/src/state/migration.rs:109-201 | write-if-absent, adopt an identical document, leave any other alone, then follow the row; undisturbed it fills exactly an absent target; while only legacy writers interfere it succeeds, leaves a target that held something else alone, and otherwise ends with the target encoding the row as it then is, or absent because the row was gone |
| PrefMigration.Follow | crates/tinyconnectors/src/state/migration.rs:146-201 | the re-read loop: rewrites or deletes only under the held version, and ends once the interference does; while only legacy writers interfere, the target ends as the encoding, value and expiry, of the row as it then is, or is deleted because the row was gone; with one turn of interference it is there exactly when the row is |
| PrefMigration.Withdraw | crates/tinyconnectors/src/state/migration.rs:147-168 | the row is gone: what was written for it is deleted under the held version, and a refusal is no failure |
| PrefMigration.ScanPage | crates/tinyconnectors/src/state/migration.rs:89-107 | one query and its rows; reports where the next page starts |
| PrefMigration.MigratePreferences | crates/tinyconnectors/src/state/migration.rs:89-107 | over any number of pages: every absent target is filled from the first row with that key, everything else is unchanged |
| PrefMigration.Done | crates/tinyconnectors/src/state/migration.rs:48-62 | as for streams, for the preference step |
| PrefMigration.MarkDone | crates/tinyconnectors/src/state/migration.rs:64-87 | as for streams, for the preference step |
| PrefMigration.PreparePreferences | crates/tinyconnectors/src/state/migration.rs:38-41 | under any interference and any faults a run of the protocol; undisturbed it fills every absent target or fails exactly when some legacy id has no key; a second run changes nothing |
| MigratedPreferences.PreparedReads | crates/tinyconnectors/src/state/document_store.rs:49-58 | after an undisturbed `prepare`, reading any legacy document id gives that document's value, null when it has none, wherever its target was absent, and what it gave before wherever it was not; only ids beyond 512 bytes rest on their digests being different |
| MigratedPreferences.PreparedOthers | crates/tinyconnectors/src/state/document_store.rs:42-58 | a name that is no legacy id reads as before |
| MigratedPreferences.OldPreferenceIsRead | crates/tinyconnectors/src/state/migration.rs:102-103 | the preference the retired core saved for a toolkit is what the store reads for that toolkit afterwards exactly when the name needs neither escaping nor hashing: it holds no `%`, `/` or NUL, does not start with `~`, and has at most 512 bytes |
| MigratedPreferences.SlashedToolkitIsMissed | crates/tinyconnectors/src/state/migration.rs:102-103 | a toolkit where it is not: the row of `a/b` goes to a document nobody asks for, and reading `a/b` finds nothing |
| DocumentStore.FilledReads | crates/tinyconnectors/src/state/document_store.rs:49-58 | what each name reads after a pass: what it did, or the value of the first legacy row with its key |
| DocumentStore.DocumentPrefsStore.Get | crates/tinyconnectors/src/state/document_store.rs:49-58 | absent is no error; a name without a key is, and so is a failing port; otherwise the decoded body |
| DocumentStore.DocumentPrefsStore.Set | crates/tinyconnectors/src/state/document_store.rs:60-73 | the value set is the value read back under every name of the same document, and no other name reads differently; a failed write may have landed |
| Preference.RoundTrip | crates/tinyconnectors-bus/src/storage/preference.rs:15-31 | decoding an encoded preference gives it back, and the encoding is always an object |
| Preference.EncodeInjective | crates/tinyconnectors-bus/src/storage/preference.rs:15-22 | different preferences have different bodies |
| Preference.Formats | crates/tinyconnectors/src/state/migration.rs:222-228 | a legacy document holds its preference under `value`, null otherwise; one that is no object is stored under the reserved field |
| LegacyKey.LegacyKey | crates/tinyconnectors/src/state/migration.rs:319-353 | the loop that pushes onto one string computes the escaped or hashed id, or refuses an empty list or an id the key type refuses |
| LegacyKey.EscapeRoundTrip | crates/tinyconnectors/src/state/migration.rs:319-345 | the list of parts can be parsed back from the escaped text |
| LegacyKey.EscapeHead | crates/tinyconnectors/src/state/migration.rs:326-352 | no escaped id starts with the sign that marks a hashed one |
| LegacyKey.EscapeTwice | crates/tinyconnectors/src/state/migration.rs:326-345 | escaping what is escaped changes it, unless there was nothing to escape |
| LegacyKey.KeyOfKey | crates/tinyconnectors/src/state/migration.rs:319-353 | the id of an id is that id again exactly for a name that needs neither escaping nor hashing |
| LegacyKey.KeysDistinct | crates/tinyconnectors/src/state/migration.rs:319-353 | two part lists share an id only if they are equal or both hashed with equal digests |
| LegacyKey.KeySpelled | crates/tinyconnectors/src/state/migration.rs:319-353 | the fixed points: no parts is an error, `~` is escaped at the very front only, and beyond 512 bytes the id is `~` and the digest |
| Archive.TriggerArchive.ReadDay | crates/tinyconnectors/src/triggers/archive.rs:138-170 | reading a day backwards in shrinking windows, while others append, finds exactly what a one-record-at-a-time backward scan of the stream as it was first measured finds, with corrupt records and duplicates in any place |
| Archive.ScanFinds | crates/tinyconnectors/src/triggers/archive.rs:146-170 | such a scan yields unseen keys, each once, and stops short only when it has found every one |
| Archive.ScanMisses | crates/tinyconnectors/src/triggers/archive.rs:138-170 | with times ascending in a stream, what the scan leaves unread is no newer than all it found, and it found as many as wanted |
| Archive.TriggerArchive.ListRecent | crates/tinyconnectors/src/triggers/archive.rs:103-183 | a failing port call is an error; otherwise each stream of both prefixes is read as it was when the read came to it, newest records first, deduplicated, sorted and cut off at what was asked for, 50 when nothing was, one when zero was |
| Archive.ReportedIsRecent | crates/tinyconnectors/src/triggers/archive.rs:103-183 | such a read, undisturbed and with no assumption on timestamps, corruption or duplicates, gives min(limit, distinct keys) entries, pairwise distinct, newest first; in orderly streams no key left out is newer than one returned |
| Archive.ReportedBetween | crates/tinyconnectors/src/triggers/archive.rs:103-183 | and among appends and copies: distinct keys, newest first, as many as there were at its start up to the limit; with room for all, every key there was at the start and none there is not at the end |
| Archive.ReportedIsTop | crates/tinyconnectors/src/triggers/archive.rs:138-177 | and when the streams are in time order at the end of such a read, no delivery that was there at its start and is left out is newer than one reported, whatever was appended meanwhile |
| Archive.TriggerArchive.Record | crates/tinyconnectors/src/triggers/archive.rs:51-95 | after whatever others append first, the delivery goes to the end of that day's stream and nowhere else, and is what a reader sees in addition from then on; an append that fails may have been made |
| Archive.NamesWithinPrefix | crates/tinyconnectors/src/triggers/archive.rs:135-136 | under one prefix names come newest day first |
| Archive.LegacyNamesFirst | crates/tinyconnectors/src/triggers/archive.rs:135-136 | across prefixes they do not: every legacy day comes before every current one |
| Archive.KeysCanMeet | crates/tinyconnectors/src/triggers/archive.rs:200-207 | deliveries with different ids can share a key exactly when one id goes on with a `:` where the other ends; ids without one never do |
| Archive.DeliveryKeysMeaning | crates/tinyconnectors/src/triggers/archive.rs:200-207 | the keys history is stated over are exactly those of the valid records under either prefix |
| History.HistoryIsComplete | crates/tinyconnectors/src/triggers/archive.rs:118-177 | a read that goes on from any point of an interleaving of migration and appends to any later one, with a large enough limit, reports every key appended before it began, each once, and none never appended, late legacy appends included; at a single point, exactly the keys ever appended |
| History.DeliveriesAreReported | crates/tinyconnectors/src/triggers/archive.rs:118-207 | where an id that comes with a uuid holds no `:`, and the JSON text of a delivery without one is its own: every delivery appended before such a read is in its answer, by id and uuid or by all it holds, no two entries are one delivery, and nothing in it was never appended |
| History.SharedKeyHides | crates/tinyconnectors/src/triggers/archive.rs:163-171 | of two different entries with one key at most one is ever reported |
| History.RunIsAppends | crates/tinyconnectors/src/state/migration.rs:270-304 | what any interleaving of openers and writers does to the streams is a succession of single appends, so whatever holds of a reader or writer among appends holds of it during a migration |
| History.DeliveredIsAppended | crates/tinyconnectors/src/state/migration.rs:270-314 | what can be delivered at any point is what was ever appended, although the migration leaves the legacy copies behind |
| Chronology.OrderlyTimesHold | crates/tinyconnectors/src/state/migration.rs:270-303 | from orderly streams, with appends in time order and no record landing in a day some opener is midway through, every interleaving of any number of openers keeps every stream in time order |
| Chronology.OneOpenerIsClear | crates/tinyconnectors/src/state/migration.rs:34-47 | with one opener, writers that wait for the marker never land in a day that is being copied: a valid marker means the opener copies no more |
| Chronology.LateCopyDisorders | crates/tinyconnectors/src/state/migration.rs:303-303 | a record that lands in a partly copied day while an opener is about to measure the target is followed by the next page, and the day stays in time order exactly when that page holds nothing older than the record |
| NewestHidden.MigrationCanHideTheNewest | crates/tinyconnectors/src/triggers/archive.rs:146-177 | from a start and with appends as orderly as can be, and new writers waiting for the marker, a state is reached in which a read of the most recent delivery reports an older one; three calls of one opener earlier it reported the newest |
| OneOpener.OneOpenerExactly | crates/tinyconnectors/src/state/migration.rs:34-47 | for writers that wait for the marker and append in time order, over all starts with at most n openers, all interleavings and all codecs: streams stay in time order, reads report the same times whatever the migration has done, and reads report the newest deliveries, each exactly when n is at most one |
| History.ClearMigrationIsInvisible | crates/tinyconnectors/src/triggers/archive.rs:118-177 | from orderly streams, with any number of openers, after two interleavings with the same appends, in time order and clear of days being copied, reads with any one limit report the same times in the same order |
| History.MigrationIsInvisible | crates/tinyconnectors/src/triggers/archive.rs:118-177 | with at most one opener it is enough that writers wait for the marker and append in time order: after any two interleavings with the same appends, reads with any one limit report the same times in the same order |
| History.TimesDetermined | crates/tinyconnectors/src/triggers/archive.rs:173-177 | in orderly streams the reported times depend only on what was delivered, not on where it is stored |
| Sorting.Sort | crates/tinyconnectors/src/triggers/archive.rs:136-136 | an unstable sort: some ordered permutation |
| SchemaWalk.PrimaryArrayPath | crates/tinyconnectors/src/contracts/schema_walk.rs:21-58 | both walks end on every tree, give nothing exactly when no array is reachable outside the skipped root keys, and otherwise the dotted path of the foremost one: of least depth, and of those the least key by key |
| SchemaWalk.ForemostIsUnique | crates/tinyconnectors/src/contracts/schema_walk.rs:15-17 | there is one such array at most, so the answer is settled by the tree |
| SchemaWalk.OneKey | crates/tinyconnectors/src/contracts/schema_walk.rs:30-48 | what counts as an array: a property declared as one, alone or among other types, or a key of a value that holds one and is not skipped |
| SchemaWalk.FindArray | crates/tinyconnectors/src/contracts/schema_walk.rs:92-107 | the first loop finds the array child with the least key, and none exactly when there is none that is not skipped |
| SchemaWalk.Enqueue | crates/tinyconnectors/src/contracts/schema_walk.rs:108-118 | the second loop queues every child that is not skipped, one level down, in key order |
| SchemaWalk.PathResolves | crates/tinyconnectors/src/contracts/schema_walk.rs:78-115 | with keys that are neither empty nor dotted, splitting the path at its dots leads to that very array |
| SchemaWalk.RootIsRecognised | crates/tinyconnectors/src/contracts/schema_walk.rs:64-68 | the documented "skipped at the root only" is what the code does exactly when no skipped key is found below an empty root key |
| SchemaWalk.EmptyRootKeyIsTakenForRoot | crates/tinyconnectors/src/contracts/schema_walk.rs:92-97 | a value where it is not: an array below an empty root key is missed |
| TaskWindow.FilterResponse | crates/tinyconnectors/src/execute/task_window.rs:224-275 | a failed response, an unknown slug, no array, or nothing to drop: the response itself; otherwise, at the first candidate path that leads to an array, exactly the kept rows in order, no rendered markdown, and nothing else changed |
| TaskWindow.KeepItem | crates/tinyconnectors/src/execute/task_window.rs:286-300 | a row is dropped exactly when some listed timestamp can be read and every one that can lies before the floor |
| TaskWindow.FieldAt | crates/tinyconnectors/src/execute/task_window.rs:304-310 | follows the dotted segments |
| TaskWindow.DescendBelow | crates/tinyconnectors/src/execute/task_window.rs:304-310 | one segment more is one lookup more |
| TaskWindow.KeepSelects | crates/tinyconnectors/src/execute/task_window.rs:248-253 | the kept rows are a subsequence, and the dropped ones are exactly those with a readable timestamp and none at or after the floor |
| TaskWindow.ArrayAtSet | crates/tinyconnectors/src/execute/task_window.rs:333-348 | a write under a key path is what that path reads back, and no other path reads a different array |
| TaskWindow.SetUndone | crates/tinyconnectors/src/execute/task_window.rs:342-348 | writing the old array back restores the whole tree, so nothing else was touched |
| TaskWindow.SetTwice | crates/tinyconnectors/src/execute/task_window.rs:342-348 | the later of two writes under a path wins |
| TaskWindow.FirstPathKept | crates/tinyconnectors/src/execute/task_window.rs:237-242 | after filtering, the chosen candidate path is still the chosen one |
| TaskWindow.FilterTouches | crates/tinyconnectors/src/execute/task_window.rs:224-275 | only the located array and the markdown change: restoring those two gives the original response |
| TaskWindow.FilterTwice | crates/tinyconnectors/src/execute/task_window.rs:224-275 | filtering at one floor and then another is filtering once at the later one; filtering again changes nothing |
| TaskWindow.ApplyWindowArgs | crates/tinyconnectors/src/execute/task_window.rs:178-213 | what a slug with a row gets in addition, and nothing else: its ordering, and Asana the floor, each unless the caller says otherwise; a slug without one and arguments that are no object pass as they are |
| TaskWindow.NarrowingYields | crates/tinyconnectors/src/execute/task_window.rs:173-176 | what the caller supplied is never overwritten, and narrowing again changes nothing |
| CacheProtocol.FetchesAreShared | crates/tinyconnectors/src/tinybus_module/contracts.rs:36-65 | in every interleaving of callers, expiries and Configures, two successful fetches of a toolkit have a clear between them or lie a whole time-to-live apart; and every catalog served was the latest stored for its toolkit, neither cleared nor expired |
| CacheProtocol.SingleFlight | crates/tinyconnectors/src/tinybus_module/contracts.rs:49-63 | at most one caller is fetching a toolkit |
| CacheProtocol.ConfigureTakesEffect | crates/tinyconnectors/src/tinybus_module/mod.rs:567-590 | in runs where no fetch straddles a Configure, whatever is cached, in flight or served comes from a client no older than the latest Configure that had completed |
| CacheProtocol.ClearIsFresh | crates/tinyconnectors/src/tinybus_module/mod.rs:583-588 | the clear of a Configure leaves nothing older cached, in flight or served since, exactly when no fetch straddles it |
| CacheProtocol.StraddlingServesStale | crates/tinyconnectors/src/tinybus_module/mod.rs:583-588 | and whenever a fetch does straddle one, with the answer still out or already in hand, that answer is served and stays cached past the clear: the next caller gets the old client's catalog |
| CacheProtocol.StraddleReachable | crates/tinyconnectors/src/tinybus_module/mod.rs:583-588 | such a moment is reachable from every start with a client and a caller |
| CacheProtocol.InvHolds | crates/tinyconnectors/src/contracts/mod.rs:60-80 | in every reachable state the cache is what the stores and clears before it leave, the locks belong to the callers between taking and releasing them, and a miss found under the lock stands until its store |
| CacheProtocol.KeysMeet | crates/tinyconnectors/src/tinybus_module/contracts.rs:40-43 | two lookups share an entry and a lock exactly when they spell one toolkit, white space around it and ASCII case aside; a blank one names none |
| ContractCache.ConnectorService.ToolkitContracts | crates/tinyconnectors/src/tinybus_module/contracts.rs:36-65 | among whatever others do to the shared caches, it ends as its caller in the protocol does; undisturbed it answers from the cache or fetches once, leaves the catalog behind and the lock free, and says so when no client is configured or the backend fails |
| ContractCache.ConnectorService.FetchLocked | crates/tinyconnectors/src/tinybus_module/contracts.rs:49-64 | the part under the lock: look again, then client, listing, store; every way out releases the lock |
| ContractCache.ConnectorService.Do | crates/tinyconnectors/src/contracts/mod.rs:114-125 | what callers store and Configure clears in the shared caches is what the protocol says of its cache, in every reachable state |
| ContractCache.ContractCaches.ApplyProbe | crates/tinyconnectors/src/contracts/mod.rs:164-172 | across stores, expiry and clears: a contract is served with what was last observed of its action, in whatever spelling, since the last clear and within the time-to-live, an observed path replacing the schema's even when it is none, observed fields when there are any; otherwise as it stands. The raw response observed has no influence |
| ContractCache.KeptIsLastObserved | crates/tinyconnectors/src/contracts/mod.rs:143-156 | a probe is kept exactly while its action has a last observation that was not cleared, and it is that one without its sample |
| ContractCache.ActionsMeet | crates/tinyconnectors/src/contracts/mod.rs:143-154 | probes meet exactly under the spellings of one action |
| ContractCache.ContractCaches.RememberProbe | crates/tinyconnectors/src/contracts/mod.rs:143-150 | the observation becomes its action's last; what is stored of it holds no sample |
| ContractCache.ContractCaches.Clear | crates/tinyconnectors/src/contracts/mod.rs:114-117 | nothing fetched or observed before answers afterwards |
| ContractCache.TtlCache.Get | crates/tinyconnectors/src/contracts/mod.rs:61-65 | an entry is served while it is younger than the time-to-live |
| ContractCache.TtlCache.Insert | crates/tinyconnectors/src/contracts/mod.rs:68-73 | replaces one entry and its stamp |
| ContractCache.TtlCache.Clear | crates/tinyconnectors/src/contracts/mod.rs:75-80 | forgets every entry |
| HttpErrors.StatusMessageScrubs | crates/tinyconnectors/src/client/http.rs:311-339 | whatever a provider answers, the surfaced text contains none of the six identifying names |
| HttpErrors.MessageIsQuoted | crates/tinyconnectors/src/client/http.rs:311-331 | the text names the status and quotes the provider's scrubbed message, cut at 240 characters, or with a fix at 117 and the fix at what is left; without a message it is the status alone |
| HttpErrors.ScrubbedIs | crates/tinyconnectors/src/client/http.rs:333-337 | line breaks become spaces, and then the six names, one after the other, the redaction |
| HttpErrors.ReplaceFirst | crates/tinyconnectors/src/client/http.rs:334-337 | a replacement starts at the first occurrence and goes on behind it |
| HttpErrors.DecimalReads | crates/tinyconnectors/src/client/http.rs:312-314 | the status reads back as its number |
| HttpErrors.ReplaceScrubs | crates/tinyconnectors/src/client/http.rs:335-337 | replacing one marker leaves none of it and makes no other appear |
| HttpErrors.TruncateScrubs | crates/tinyconnectors/src/client/http.rs:363-368 | cutting and the ellipsis complete no marker |
| HttpErrors.DetailBounded | crates/tinyconnectors/src/client/http.rs:311-331 | message and fix together have at most 240 characters; a message alone at most 243 |
| HttpErrors.DetailOverflows | crates/tinyconnectors/src/client/http.rs:315-320 | a message alone does reach 243, exactly when the scrubbed text is longer than 240 and not cut after white space |
| HttpErrors.FixNotCrowdedOut | crates/tinyconnectors/src/client/http.rs:321-331 | a fix of up to 101 scrubbed characters is quoted whole, however long the message |
| HttpErrors.NestedComesFirst | crates/tinyconnectors/src/client/http.rs:341-361 | the nested message and fix come first, an unusable one gives way to the top-level one, no message means no detail |
| HttpErrors.UnusableGivesWay | crates/tinyconnectors/src/client/http.rs:341-361 | a nested message that is no text, or an error that is no object, gives way to the top-level message |
| HttpErrors.Sanitize | crates/tinyconnectors/src/client/http.rs:333-339 | the loop over the markers |
| HttpErrors.SanitizedOneLine | crates/tinyconnectors/src/client/http.rs:333-334 | no line break survives |
| HttpErrors.SanitizedKeeps | crates/tinyconnectors/src/client/http.rs:333-339 | a short line that names no identifying field is quoted as it stands |
| HttpErrors.SanitizedTwice | crates/tinyconnectors/src/client/http.rs:333-339 | sanitizing what was not cut again changes nothing |
| Retry.ExecuteAction | crates/tinyconnectors/src/execute/retry.rs:45-64 | invalid arguments reach no route; otherwise the calls and waits are those of the policy, all with the same prepared arguments, and the last reply is returned with only the error of a refusal reworded, a missing one standing as "provider reported failure" |
| Retry.AskedFor | crates/tinyconnectors/src/execute/retry.rs:51-53 | the call asks for the trimmed tool with the prepared arguments, for a connection exactly when its name is not blank, trimmed as well |
| Retry.RetriedWhen | crates/tinyconnectors/src/execute/retry.rs:67-140 | what is asked again: a refusal whose error holds the readiness phrase in whatever case; a rate limit, as classified from the error reported or the empty text, of the one listed action |
| Retry.WithRateLimitRetry | crates/tinyconnectors/src/execute/retry.rs:67-108 | obeys the policy, and the call after its loop is never reached |
| Retry.WithPostOauthRetry | crates/tinyconnectors/src/execute/retry.rs:111-132 | asks a second time, after eight seconds, exactly when the first reply says the connection is not ready, and returns the second verbatim |
| Retry.PolicyBounds | crates/tinyconnectors/src/execute/retry.rs:67-132 | for every route: at most 7 calls and 68 seconds, 2 and 8 for an action off the list, every call the same, none after a success or an unanswered call |
| Retry.BoundsMet | crates/tinyconnectors/src/execute/retry.rs:67-132 | those bounds are reached |
| Retry.PolicyStops | crates/tinyconnectors/src/execute/retry.rs:84-92 | the replies decide when it stops: no run that obeys the policy continues another |
| Prepare.PrepareExecuteArguments | crates/tinyconnectors/src/execute/prepare.rs:20-44 | absent and null are the empty object, other non-objects are refused, and the rules of the tool apply |
| Prepare.NormalizeCalendarTimeBounds | crates/tinyconnectors/src/execute/prepare.rs:59-80 | the loop over the four bounds |
| Prepare.BoundsIndependent | crates/tinyconnectors/src/execute/prepare.rs:63-79 | each bound is treated as if alone; it fails exactly when some bound is text that is neither a timestamp nor a date, and reports the first |
| Prepare.PreparedTwice | crates/tinyconnectors/src/execute/prepare.rs:20-44 | preparing prepared arguments changes nothing |
| Prepare.PreparedTouches | crates/tinyconnectors/src/execute/prepare.rs:20-44 | no argument but the four calendar bounds and `fetch_type` ever changes |
| Prepare.DatesAreFullDates | crates/tinyconnectors/src/execute/prepare.rs:98-126 | the dates accepted are exactly the full-dates of RFC 3339 (grammar of section 5.6, day limits of section 5.7, leap years of appendix C), apart from texts with a plus sign |
| Prepare.DigitsAre | crates/tinyconnectors/src/execute/prepare.rs:103-109 | the digits of a date are the ten ASCII digits |
| Prepare.BareDatesPromoted | crates/tinyconnectors/src/execute/prepare.rs:82-91 | a bare date without a plus sign is promoted exactly when RFC 3339 knows it |
| Prepare.PlusSignAccepted | crates/tinyconnectors/src/execute/prepare.rs:103-109 | a text with plus signs that is accepted although it is no RFC 3339 date |
| Prepare.NormalizedStays | crates/tinyconnectors/src/execute/prepare.rs:82-91 | what a bound was normalized to is left alone |
| Prepare.FetchTypeStays | crates/tinyconnectors/src/execute/prepare.rs:133-167 | afterwards a usable fetch type is there, nothing else moved, and doing it again changes nothing |
| Prepare.FetchRule | crates/tinyconnectors/src/execute/prepare.rs:133-167 | a fetch that names a type in either spelling goes as it is; otherwise the type is what the filter's value, or else its property, names, singular or plural, and pages where it names nothing |
| Prepare.SendRule | crates/tinyconnectors/src/execute/prepare.rs:173-193 | a mail goes as it is exactly when one of three arguments names a recipient that is not blank |
| Prepare.LabelRule | crates/tinyconnectors/src/execute/prepare.rs:197-241 | a label change goes as it is exactly with a message and a label, alone or in a list, to add or to remove; a missing message is reported first |
| Prepare.CalendarRule | crates/tinyconnectors/src/execute/prepare.rs:33-35 | calendar tools have the four time bounds normalized and are refused exactly for one that is text but no time |
| Prepare.OtherTools | crates/tinyconnectors/src/execute/prepare.rs:33-44 | every other tool takes the arguments as they are |
| Prepare.ArgumentsAreAnObject | crates/tinyconnectors/src/execute/prepare.rs:22-31 | absent and null arguments are the empty object, and what else is no object is refused |
| Prepare.TimestampsPass | crates/tinyconnectors/src/execute/prepare.rs:82-91 | a bound with a `T` in it passes trimmed, a blank one is no time |
| ScopeGate.ConnectorService.ExecuteChecked | crates/tinyconnectors/src/tinybus_module/mod.rs:498-528 | in every history of settings and of executions that run at once, each call over the route has a check of its own before it at which the preference in force allowed the action's scope or the slug named no toolkit; with a store that works, an execution goes out exactly with that leave and otherwise reports what the governing preference says; a refusal or an unreadable preference leaves route and record alone; a permitted call follows the retry policy, after whatever others do between its check and its call |
| ScopeGate.ConnectorService.PassCheck | crates/tinyconnectors/src/tinybus_module/mod.rs:498-514 | the check: with a store that works an execution goes on exactly with leave of the preference in force, or when its slug names no toolkit, and the error is otherwise that of the governing preference; a stored false for the action's scope always refuses; it is pending from then on, and a refusal is recorded nowhere |
| ScopeGate.ConnectorService.MakeCall | crates/tinyconnectors/src/tinybus_module/mod.rs:515-528 | the call of a pending execution: it alone goes over the route, as often as the policy asks, and is pending no more |
| ScopeGate.ConnectorService.PrefFor | crates/tinyconnectors/src/tinybus_module/mod.rs:431-450 | the preference stored under the longest underscore-ended prefix of the normalized slug that has a row, the default if none has; a store or decode failure is an error |
| ScopeGate.ConnectorService.Permits | crates/tinyconnectors/src/tinybus_module/mod.rs:461-478 | a slug that names no toolkit is permitted, any other by the governing preference |
| ScopeGate.ConnectorService.SetUserScopes | crates/tinyconnectors/src/tinybus_module/mod.rs:679-692 | from then on the store reads this preference for the toolkit, and everything reached before stays authorised; a save that fails may have landed |
| ScopeGate.ConnectorService.LoadPref | crates/tinyconnectors-sync/src/prefs/types.rs:47-57 | only a missing row is the default; a malformed one is an error |
| ScopeGate.GoverningIsUnique | crates/tinyconnectors/src/tinybus_module/mod.rs:431-450 | one preference governs an action |
| ScopeGate.LastSettingGoverns | crates/tinyconnectors/src/tinybus_module/mod.rs:431-450 | the last preference saved under the longest prefix with a row is the one in force |
| ScopeGate.RowDecides | crates/tinyconnectors-bus/src/vocabulary/scopes.rs:41-78 | the stored row decides read, write and admin by the flag of that name, missing ones being true, true and false, and is an error exactly when it is malformed |
| ScopeGate.MalformedIs | crates/tinyconnectors-bus/src/vocabulary/scopes.rs:41-53 | what cannot be read as a preference: anything but an object or a list of at most three, or a flag that is none |
| ScopeGate.DecidesAtSeparator | crates/tinyconnectors/src/tinybus_module/mod.rs:431-447 | the names looked up are exactly what stands before some separator of the normalized slug |
| ScopeGate.NoRowDecides | crates/tinyconnectors-bus/src/vocabulary/scopes.rs:59-78 | without any row reads and writes are allowed and administration is not |
| ScopeGate.RowKeysMeet | crates/tinyconnectors-bus/src/vocabulary/scopes.rs:80-84 | settings and lookups meet in one row exactly under the spellings of one toolkit |
| ScopeGate.NamesAToolkit | crates/tinyconnectors-bus/src/vocabulary/slug.rs:88-110 | a slug names no toolkit exactly when it is blank or its first character is the separator |
| ScopeGate.PrefRoundTrip | crates/tinyconnectors-sync/src/prefs/types.rs:66-73 | a saved preference is the one loaded |

## Left out

- HTTP, TLS, proxies, bus dispatch, module exports and configuration parsing: input and output through foreign libraries.
- The routes, the curated catalogs, toolkit providers, triggers parsing, OAuth and the connected-integration overview: a route is an arbitrary reply, a scope an arbitrary function of the action.
- Sealing and retention of day streams: it changes no record.
- `probe_output` and `contract_with_probe`: gates and a lookup around members that are modelled; `resolve_action_scope` is a table.
- `contracts_from_listing` and `response_fields_from_schema`: shaping a listing, field by field.
- `spec_for` and the keyword tables of `classify.rs` and `slug.rs`: tables; they enter as parameters.
- LegacyKey.KeysDistinct: says nothing about hashed ids whose digests collide.
- `MigratedPreferences.PreparedReads`: two ids beyond 512 bytes with one digest share a document; the first one listed then wins, as `DocumentStore.FilledReads` states.
- `PrefMigration.Follow`: the loop could run for as long as the legacy row keeps changing; its end is proved for schedules of interference that end.
- `PrefProtocol.HonestlyRefused`: a store that refuses a conditional write although the version is in place is allowed here; `PrefProtocol.RowLeftAsLastRead` says that a row is then, and only then, not left as it was last read.
- `PrefMigration.Ports.Query`: the order in which the host lists a collection, over every id that is there or comes up, is a parameter that a pass sees unchanged.
- `Migration.Prepare`: the two steps run over two state machines, so a document write during the stream step is interference of the first machine's schedule only.
- `StreamProtocol.MarkerCertifiesCopies`: goes one way. A record that comes early is harmless when its day is already copied, so waiting for the marker is enough and not always needed.
- `SchemaWalk.PrimaryArrayPath`: one model for both walks, which differ in what a child and an array are; the search goes over values, as the source's does over borrowed ones.
- `TaskWindow.FilterResponse`: the write through a mutable borrow is a function on the tree, with its get/set laws, because JSON values here are not shared.
- `ScopeGate.ConnectorService.PrefFor`: its reads see the store at one moment. Settings and other executions land before it, between a check and the call, and after; a call with its retries is one step.
- `Chronology.OrderlyTimesHold`: goes one way for a given run of several openers. A record that lands in a day midway may do no harm, as when the opener's next append is refused and the page that won differs, or when what is left to copy is no older; `Chronology.LateCopyDisorders` decides the case of the measure, `OneOpener.OneOpenerExactly` the number of openers.
- `ContractCache.ConnectorService.TakeTheLock`: a wait that never ends is a caller given up on.
- `Retry.ExecuteAction`: waits are recorded, not slept.
