# Verification of the Standard Notes client sync engine

This project models the hard core of the Go library: how items are pushed to and pulled from a
Standard Notes server, how conflicts are resolved, how the local cache is brought into agreement
with the server, how items are encrypted and decrypted, and a few smaller algorithms with promises
of their own. Each file is one module. `dafny verify dfyconfig.toml` checks all of it.

| module | what it models |
|---|---|
| `Prelude`, `Records`, `Text` | shared datatypes, the records that travel, splitting of text |
| `Newest` | deduplication by identifier, as a join of newest versions |
| `Paging` | the paged push and pull against a scripted server, and its retries |
| `Delivery` | what the server has accepted after any run: batching, paging, delivery |
| `Vault` | decrypted items, and encryption as far as conflict resolution sees it |
| `Conflicts`, `NoLostEdit` | conflict resolution and reference rewriting; why no local edit is lost |
| `Deletions` | which conflicts make their resolution delete something protected |
| `Resolution` | deletions and server copies in conflict, and when resolution succeeds |
| `Envelope`, `PlainPrimitives` | the two-layer envelope over abstract primitives, which meets the laws `Vault` states; primitives that satisfy what it assumes |
| `ItemsSync` | a whole `items.Sync`: filter, first round, conflicts, second round, merge |
| `KeyMerge` | merging items keys into the session |
| `Store` | a transactional database, and saving, deleting and cleaning in batches |
| `CacheSteps`, `Reconcile`, `Cache` | the steps of a cache sync, the simple map it agrees with, and whole syncs in a row |
| `RecordFate` | what becomes of one record, and of the token, in a whole cache sync |
| `WorkerPool` | parallel decryption as a state machine over goroutines and channels |
| `Checklist` | the checklist printer and parser |
| `Backoff`, `Spacing` | retries with 64-bit delays, and the minimum time between syncs under a mutex |

The server is a finite script of steps, each of which acknowledges a request with a page or fails
it; a script that has ended fails everything. It remembers what it acknowledged, and delivery is
stated over that memory. The database may be flaky, which lets any operation fail, and the records
whose dirty mark cannot be cleared are fixed before a sync. Code that changes state is modelled by methods on classes (`Paging.Server`,
`ItemsSync.Session`, `Store.Database`, `Conflicts.RefMap`, `Backoff.RateLimitBackoff`) or on arrays,
each proved against a function or relation on values; the theorems are about those. The goroutines
of parallel decryption and of sync spacing are state machines, and what is proved of them holds in
every interleaving.

Some promises do not hold of the code as it is. Each of them is replaced by the exact condition
under which it does hold:

- Delivery across retries needs a page size that is the default or above 64, or at most one item
  to push (`Delivery.DeliveryExact`). Smaller pages shrink to one item, and a batch of one item at
  index 0 ends an attempt as if everything had been sent (`Delivery.ShrinkingStalls`).
- Pushing exactly once needs a start index other than 0 or a first batch of at least two items
  (`Delivery.BatchingExact`); a one-item list is pushed again with every cursor page.
- A cache record can stay dirty after a sync that reports success: an error met while the mark is
  cleared is overwritten when the date is reset (`Store.CleanRecord`). It does exactly if the mark is
  stuck and the server's output neither replaces nor removes the record
  (`Reconcile.StaysDirtyExactly`, `Reconcile.NothingStaysDirty`).
- Conflicts cannot always be resolved. A list of them is processed exactly if each, judged for
  itself, can be settled: its kind is known, the local item it needs is there, what must be read can
  be read, and what is pushed as it is names the default key (`Resolution.ProcessingSucceedsExactly`).
- A deleted protected item can be pushed when conflicts are resolved, exactly if one of the
  conflicts brings it in, which the conflict and the local items decide
  (`Deletions.BringsDeletion`, `ItemsSync.DeletionsExact`, `ItemsSync.DeletedKeyGoesOut`).
- A lone checklist task is not safe from the escape handling (`Checklist.RoundTripExact`).
- Rate-limit delays are right up to the 54th; the 55th wraps to a negative number and is not slept
  at all (`Backoff.DelayExact`, `Backoff.RetriesExact`).
- An envelope splits back into its fields only if none of them has a colon
  (`Envelope.SplitUndoesFormat`); hex and base64 fields have none.

Where the documentation and the code disagree, the code is followed. SYNC_IMPROVEMENTS_SUMMARY.md
speaks of five seconds between syncs and of delays from 5 to 60 seconds; the code waits one second
(common/common.go:73) and uses 1, 2, 4 and then 5 seconds (common/common.go:65-66). The error text
"EOF" is looked for in lower-cased text and is never found (items/sync.go:144), so such errors are
not retried.

## Model

| member | source | states |
|---|---|---|
| `Newest.SurvivorsAreFirstNewest` | items/items.go:1261-1286 | every identifier of a list has exactly one surviving version, and it is the first among those with the largest update time |
| `Newest.SurvivorsAppend` | items/sync.go:314-330 | the survivors of two lists joined end to end are the join of their survivors, the left one winning ties |
| `Newest.JoinAssociative` | items/sync.go:174-184 | that join is associative, so the grouping in which lists are deduplicated does not matter |
| `Newest.JoinIdempotent` | items/sync.go:314-330 | joining the same survivors again, from either side, changes nothing |
| `Newest.DeDupe` | items/items.go:1261-1286 | for every order in which the map is read back, one item per identifier is left, and it is the survivor of the original list |
| `Newest.DeDupedAreLatest` | items/items.go:1261-1286 | what is left has the latest update time among the items of its identifier, and no identifier is lost |
| `Newest.StagedDeDupe` | items/sync.go:314-330 | deduplicating two lists, then their concatenation, keeps the same items as deduplicating the concatenation at once |
| `Paging.Server.Post` | items/sync.go:982-1012 | the server takes the next step of its script, whose failure or page the client gets, unless the page has an items key that names an items key: that fails; an acknowledged request is remembered together with its page |
| `Paging.PayloadAdds` | items/sync.go:828-863 | payload sizes add up over lists, and one item counts the length of its content and 200 bytes more |
| `Paging.AverageOfSample` | items/sync.go:828-863 | the average is that of the next ten items, or of all that are left, rounded down |
| `Paging.CalculateOptimalBatchSize` | items/sync.go:828-863 | the batch size lies between 50 and 500 and is the largest one there whose estimated payload stays within 256 KB |
| `Paging.LimitChosen` | items/sync.go:865-965 | a page size that is given and not 150 is used as it is; otherwise it is chosen by payload, or is 150 when nothing is left to push |
| `Paging.OneLineBreakGoes` | items/sync.go:1066-1073 | one trailing line break of a token is dropped, and nothing else |
| `Paging.Quartered` | items/sync.go:1058-1064 | a page size is resized to the least that reaches it when taken four times; the default is 150 |
| `Paging.SyncItemsViaApi` | items/sync.go:948-1056 | one attempt sends the requests, and returns the output or failure, of the attempt function on the server's script |
| `Paging.TryOnce` | items/sync.go:106-168 | another attempt is asked for exactly before the fourth and after a request that was too large, timed out or met a server error; a server error leaves the input alone, the other two move the start index to the last item put and quarter the page size |
| `Paging.SyncWithRetries` | items/sync.go:80-172 | the retry loop ends with the outcome of the run function, having sent exactly its requests |
| `Delivery.AttemptSlices` | items/sync.go:878-908 | every batch ever sent in an attempt is an in-bounds slice of the list, no longer than its limit, and shorter only where the list ends |
| `Delivery.AttemptPushesOnce` | items/sync.go:948-1056 | the batches of an attempt that gets going are disjoint and in order: together a prefix of the list from its start index, and all of it on success |
| `Delivery.BatchingExact` | items/sync.go:1020-1036 | every successful attempt pushes the rest of the list exactly once, whatever the server answers, if and only if the list is empty, the start index is not 0, or the first batch has two items or more |
| `Delivery.FirstItemOnly` | items/sync.go:1020-1036 | otherwise one answer ends the attempt successfully with only the first item pushed |
| `Delivery.PushedTwice` | items/sync.go:1020-1036 | and a list of one item is pushed again with a cursor page |
| `Delivery.PagesFold` | items/sync.go:1012-1056 | a successful attempt returns the concatenation of all its pages in order, the sync token of the last one and no cursor |
| `Delivery.TokensChain` | items/sync.go:982-1036 | each request carries the sync and cursor tokens of the page before it, the first those of the caller |
| `Delivery.LimitsStay` | items/sync.go:1020-1036 | the first request keeps to the page size of the attempt and each later one to that of the one before it, as long as it is not 150 |
| `Delivery.GoesOnExactly` | items/sync.go:1020-1056 | an attempt stops only at a cursor that is empty or "null", and goes on after any other request only because of the cursor or of items left |
| `Delivery.PagingTerminates` | items/sync.go:1020-1036 | against a server with finitely many cursor pages an attempt ends, within as many requests as there are cursor pages and items left |
| `Delivery.AttemptDelivers` | items/sync.go:948-1056 | a successful attempt has had every item from its start index on accepted |
| `Delivery.NextAttemptDelivered` | items/sync.go:119-163 | after a failed attempt everything below the index the next one starts from has been accepted |
| `Delivery.RetryDelivers` | items/sync.go:106-168 | delivery over all remaining attempts: if everything below the start index was accepted, success means everything was |
| `Delivery.ShrinkingStalls` | items/sync.go:106-168 | the server script that breaks delivery for small page sizes: three failures that shrink the page to one item, then an acknowledgement |
| `Delivery.DeliveryExact` | items/sync.go:106-168 | against every server, success means that every item was accepted, if and only if there is at most one item, nothing is left to push, or the page size is the default or above 64 |
| `Delivery.AttemptsBounded` | items/sync.go:106-168 | at most four attempts run, and the outcome and the requests are those of the attempts |
| `Delivery.AttemptsStop` | items/sync.go:106-168 | every attempt but the last failed as too large, by timeout or with a server error; a run that ends so has made exactly four attempts; any other failure ends the run, or the program, at the first attempt that has it |
| `Delivery.AttemptRestarts` | items/sync.go:106-168 | after a server error the same input is tried again; after the others the next attempt starts from the last item of the first request that the failed one had accepted, or from 0 |
| `Delivery.AttemptSizes` | items/sync.go:1058-1064 | the page size of each attempt is the first one quartered, rounding up, once per earlier failure other than a server error |
| `Delivery.DefaultSizesShrink` | items/sync.go:1058-1064 | from the default page size the retries use 38, 10 and 3 |
| `Delivery.AttemptStarts` | items/sync.go:106-168 | every attempt of a run starts with all items below its start index already accepted |
| `Delivery.RunStaysWithin` | items/sync.go:80-172 | all requests of a run, over all attempts, are slices of the list, and the returned items come from its pages |
| `Delivery.RunDelivers` | items/sync.go:80-172 | a successful run from index 0 with an ample page size has had every item of the list in some accepted request |
| `Conflicts.ProcessSyncConflict` | items/sync.go:383-495 | the method resolves a sync conflict as the resolution function does, and changes the remap table exactly by the recorded copy; what that comes to is said by `NoLostEdit.NoEditIsLost`, `Resolution.DeletionIsPushed` and `Resolution.ServerCopyIsPushed` |
| `Conflicts.ProcessUuidConflict` | items/sync.go:497-560 | the same for an identifier conflict, with the same effect on the table |
| `Conflicts.ProcessConflict` | items/sync.go:562-605 | resolution by kind of conflict; unknown kinds and unresolvable items are errors |
| `Conflicts.ProcessConflicts` | items/sync.go:607-631 | all conflicts in order, then references rewritten through the complete table; the first error ends it |
| `Conflicts.UpdateEncryptedItemRefs` | items/sync.go:695-742 | every item is passed through reference rewriting in its place; the first error ends it |
| `Conflicts.Find` | items/sync.go:400-440 | the first local item with the identifier, which is the one a conflict is resolved against |
| `NoLostEdit.UpdateRefsExact` | items/sync.go:695-742 | rewriting one item maps each of its references through the table and changes nothing else that decryption shows; an unaffected item is returned as it is |
| `NoLostEdit.RemapExact` | items/sync.go:695-742 | on success a list keeps its length and order, each item is rewritten exactly, and deleted items, items keys and unaffected items are identical |
| `NoLostEdit.ResolvedPrefix` | items/sync.go:607-631 | what a conflict contributes to the push stands at the place given by the conflicts before it |
| `NoLostEdit.RemapTable` | items/sync.go:607-631 | the remap table has exactly the duplicated local items, each under the fresh identifier of its last copy |
| `NoLostEdit.ResolvesLocalEdit` | items/sync.go:383-560 | a conflict on a local edit yields exactly one item: the edit itself when the server copy is deleted or older, else a copy under a fresh identifier that decrypts to the same content; only where the code pushes the unsaved item the server returned must that be the one sent |
| `NoLostEdit.NoEditIsLost` | items/sync.go:383-631 | whenever all conflicts are processed, every sync or identifier conflict on a local edit is pushed exactly once with the local content up to remapped references, its type and its creation time, under its own identifier or a fresh one that the table records |
| `NoLostEdit.NoReferenceDangles` | items/sync.go:695-742 | with fresh identifiers no pushed item refers to an identifier that was replaced |
| `Deletions.OneConflict` | items/sync.go:383-605 | the resolution of one conflict deletes something protected if and only if the conflict, judged with the local items, brings that in |
| `Deletions.RewritingKeepsDeletions` | items/sync.go:695-742 | rewriting references adds and removes no deletion of a protected item |
| `Deletions.ResolutionDeletesExactly` | items/sync.go:607-631 | the pushed resolution of a list of conflicts deletes something protected if and only if one of them brings that in |
| `Resolution.DeletionIsPushed` | items/sync.go:383-560 | whenever all conflicts are processed, every sync or identifier conflict on an item that was deleted locally is pushed exactly once, deleted and under its own identifier: the version the server returned with its content emptied, or the local one when the server copy is deleted or older |
| `Resolution.OpaqueStays` | items/sync.go:695-742 | rewriting keeps the places of the items, and deleted items and items keys as they are |
| `Resolution.ServerCopyIsPushed` | items/sync.go:383-605 | type, content and read-only errors, and sync conflicts on items keys, have the server copy pushed, identical but for remapped references |
| `Resolution.NothingIsPushed` | items/sync.go:590-594 | identifier errors and invalid server items have nothing pushed |
| `Resolution.CopyCanBePushed` | items/sync.go:440-480 | a copy can be made of exactly what the session can decrypt, and can itself be pushed |
| `Resolution.OneSettles` | items/sync.go:383-605 | one conflict is resolved to something that can be pushed if and only if its kind is known, the local item it needs is there, what must be read can be read, and what is pushed as it is names the default key |
| `Resolution.ProcessingSucceedsExactly` | items/sync.go:607-742 | under a default key that encrypts, processing a list of conflicts succeeds if and only if each of them, judged for itself, can be settled |
| `Text.SplitFirst` | crypto/encryption.go:49-61 | splitting at a separator undoes joining with it, for a first field without the separator |
| `Text.SplitCount` | crypto/encryption.go:49-61 | a text has one part more than it has separators |
| `Text.SplitParts` | crypto/encryption.go:49-61 | no part contains the separator |
| `Envelope.HexRoundTrip` | crypto/encryption.go:63-75 | hex text decodes to the bytes it encodes, has two characters for each and no colon |
| `Envelope.HexDecodeBytes` | crypto/encryption.go:67-75 | decoding fills a zeroed buffer of the given size from the front; it fails on what is no hex and on what does not fit |
| `Envelope.HexDecodesExactly` | crypto/encryption.go:63-75 | exactly texts of pairs of hexadecimal digits, in either case, are decoded, each pair to one byte |
| `Envelope.EncryptsExactly` | crypto/encryption.go:136-165 | a text is sealed if and only if the key is hex for at most 32 bytes and the nonce, which is not empty, for at most 24; what is handed on are exactly 32 and 24 bytes, padded with zeros |
| `Envelope.StringRoundTrip` | crypto/encryption.go:77-165 | a text that is sealed, which `Envelope.EncryptsExactly` says when it is, opens again under the same key, nonce and associated data, both sides padding a short key alike |
| `Envelope.SplitUndoesFormat` | crypto/encryption.go:49-61 | the four fields of an envelope come back if and only if none of them contains a colon |
| `Envelope.SealBothOpens` | items/itemEncryption.go:119-223 | a text sealed under an item key, itself sealed under an outer key, opens under the outer key |
| `Envelope.EncryptItemSucceeds` | items/itemEncryption.go:119-165 | an item is encrypted if and only if the items key has an identifier and its text is hex for at most 32 bytes |
| `Envelope.EncryptDecryptedSucceeds` | items/itemEncryption.go:180-223 | a decrypted item is encrypted again under the same condition on the items key |
| `Envelope.EncryptItemsKeySucceeds` | items/itemEncryption.go:35-117 | an items key is encrypted if and only if it has an identifier, a text and a creation time, and the master key is hex for at most 32 bytes |
| `Envelope.ItemLayers` | items/itemEncryption.go:119-165 | the content of an encrypted item is sealed under 32 random bytes, and these under the items key; both layers have version 004 and one nonce, and are authenticated with the type and the identifier of the item |
| `Envelope.DecryptedLayers` | items/itemEncryption.go:180-223 | the content of a decrypted item is sealed again under 16 random bytes, and these under the items key, with a nonce for each layer |
| `Envelope.ItemsKeyLayers` | items/itemEncryption.go:35-117 | an items key is sealed under 32 random bytes, and these under the master key, with a nonce for each layer; both are authenticated with the type and the identifier of the key |
| `Envelope.TakenApartExactly` | crypto/encryption.go:49-61 | a text is taken apart if and only if it has three colons or more |
| `Envelope.EncryptItemOpens` | items/itemEncryption.go:119-165 | the marshalled content of an encrypted item opens under the items key text; `Envelope.EncryptItemSucceeds` says when an item is encrypted |
| `Envelope.EncryptDecryptedOpens` | items/itemEncryption.go:180-223 | so does the content of a decrypted item that is encrypted again |
| `Envelope.ItemsKeyRoundTrip` | items/itemEncryption.go:35-117 | an encrypted items key decrypts under the master key to its own text, version and default mark, with its identity and times, without update times if it is new, and names no items key |
| `Envelope.ItemRoundTrip` | items/itemDecryption.go:14-83 | decrypting what was encrypted gives back content, identity, type and times, if the session resolves the key that was used; `Envelope.EncryptItemSucceeds` says when an item is encrypted |
| `Envelope.ReEncryptPreserves` | items/items.go:172-185 | re-encryption keeps content, identity, type and times, and puts the item under the new key |
| `Envelope.DecryptsOnlyWithKey` | items/itemDecryption.go:14-83 | a deleted item is never decrypted; the key is the given one with the identifier the item names, else the master key for items keys, else the session's |
| `Envelope.ParsesExactly` | items/items.go:928-978 | an item is parsed if and only if it is no items key and its times and content can be read, with all fields in their places |
| `Envelope.EnvelopeIsLawful` | items/itemEncryption.go:119-165 | encryption and decryption as modelled meet every law that the conflict proofs assume, so those are not empty |
| `Envelope.EnvelopeEncrypts` | items/itemEncryption.go:119-165 | under a key with an identifier and a text that is hex for at most 32 bytes everything is encrypted, as `Resolution.ProcessingSucceedsExactly` asks; under no other key is anything |
| `Vault.KeyTextIsFirst` | items/item.go:76-84 | the text looked up for an identifier is that of the first key with it, and empty without one |
| `PlainPrimitives.PlainIsSound` | items/itemEncryption.go:119-165 | there are primitives that meet every assumption made of them, with content that can always be read back |
| `ItemsSync.ProcessSessionItemsKeys` | items/sync.go:336-381 | items keys among the saved items, or else the retrieved ones, replace the session's wholesale unless none can be read; the default is the first marked one, or else the first newest |
| `ItemsSync.LiveKeysAppend` | items/items.go:62-100 | the live items keys of a list are found part by part, in their order |
| `ItemsSync.FilterItems` | items/sync.go:226-250 | what is left to push are the items in order without deleted protected items and changed items keys; items of all other types are left |
| `ItemsSync.PushedExactly` | items/sync.go:226-250 | an item may be pushed always, unless it is of a protected type; user preferences exactly unless they are deleted, and an items key exactly while it is not deleted and lacks an identifier or an update time |
| `ItemsSync.FilteredAppend` | items/sync.go:226-250 | lists are filtered part by part, so what is left keeps its order |
| `ItemsSync.FilteredDistinct` | items/sync.go:226-250 | filtering keeps identifiers distinct |
| `ItemsSync.RemoveUnsupported` | items/items.go:1288-1301 | exactly the extensions and the items of version 003 go |
| `ItemsSync.UpdateTimestampsOnSavedItems` | items/sync.go:198-215 | saved items come back as exactly the pushed items with a saved version, with the update times of that version and otherwise unchanged |
| `ItemsSync.DeDupeConflicts` | items/sync.go:760-789 | what is left are the conflicts that no earlier one is the same as, in order |
| `ItemsSync.SameExactly` | items/sync.go:760-789 | two conflicts are the same if they have the same server item, or, both without one, the same unsaved item |
| `ItemsSync.FirstConflictsCover` | items/sync.go:760-789 | so no two are left for one server or unsaved item, and none is dropped that has no earlier one |
| `ItemsSync.FirstConflictsGrow` | items/sync.go:760-789 | what is left of the first conflicts of a list is where what is left of all of them starts, so each is judged by those before it |
| `ItemsSync.Clean` | items/sync.go:174-184 | the newest version of each item that is supported, and nothing else |
| `ItemsSync.SyncItems` | items/sync.go:80-196 | one call to the server: the run's requests, its error, and an output that is its pages deduplicated, cleaned and stamped |
| `ItemsSync.ProcessSyncOutput` | items/sync.go:633-693 | exactly when and with which error processing stops: an item that is live, encrypted and names an items key but has no encrypted key, or the first conflict that cannot be resolved; otherwise the resolved conflicts, and an empty output when all are skipped |
| `ItemsSync.PushResolved` | items/sync.go:293-324 | the second round pushes exactly the resolved conflicts; it fails exactly when its run does or a conflict comes back, and is otherwise merged with the first |
| `ItemsSync.MergeSaved` | items/sync.go:326-333 | saved items join the retrieved ones, the newest version of each being returned |
| `ItemsSync.FirstRound` | items/sync.go:254-274 | the first round sends the run of the filtered items and nothing else, also when it fails; what it resolves are the conflicts of its output, under the keys it brought |
| `ItemsSync.SecondRound` | items/sync.go:278-324 | the second round sends the run of what was resolved and nothing else, also when it fails; with nothing resolved it sends nothing |
| `ItemsSync.SlicesCarryNoDeletion` | items/sync.go:226-250 | no request cut from items that delete nothing protected deletes anything protected |
| `ItemsSync.RunGuarantees` | items/sync.go:219-260 | what one run from index 0 gives the sync: slices only, pages only, and delivery |
| `ItemsSync.CallGuarantees` | items/sync.go:219-324 | every call, whether it succeeds or not, sends only slices of what may be pushed and then of what was resolved, and its first round deletes nothing protected; one without an error and with an ample page size has everything of both accepted |
| `ItemsSync.Sync` | items/sync.go:219-333 | the requests of a call, its error, the keys it leaves and, without an error, its output are exactly those of its two rounds; a successful one leaves no conflicts, returns as saved only filtered items under new update times, and has had every filtered item, so every item of an unprotected type, and every resolved conflict accepted |
| `ItemsSync.EditReachesServer` | items/sync.go:219-333 | after a successful call with an ample page size, every conflict of the first round on a local edit has its content, with references remapped, in an accepted request of the second round |
| `ItemsSync.DeletionReachesServer` | items/sync.go:219-333 | after a successful call with an ample page size, every conflict of the first round on an item that was deleted locally has the deletion, under the identifier of the item, in an accepted request of the second round |
| `ItemsSync.NoDeletionWithoutConflict` | items/sync.go:219-324 | no request of a call, failed or not, deletes anything protected unless one of its conflicts brings that in |
| `ItemsSync.DeletionsExact` | items/sync.go:293-300 | as the second round is not filtered, a successful call has the server accept a deletion of a protected item if and only if one of the conflicts it reported brings one, which the conflict and the local items decide |
| `ItemsSync.DeletedKeyGoesOut` | items/sync.go:219-324 | the server that shows it: every call with nothing to push that is told of one conflict with a deleted items key succeeds and has the server accept that deletion |
| `KeyMerge.MergeItemsKeysSlices` | cache/cache.go:1591-1640 | the nested loops compute the merge of the two lists |
| `KeyMerge.MergeIsJoin` | cache/cache.go:1591-1640 | for lists with unique identifiers the merge has unique identifiers, is the newest-wins join with ties to the session, and starts with the session's keys in their order |
| `KeyMerge.MergeLaws` | cache/cache.go:1591-1640 | as maps, merging is associative and idempotent |
| `KeyMerge.MergedVersion` | cache/cache.go:1591-1640 | the version kept of one key is the one the join of both lists has |
| `KeyMerge.MergeKeeps` | cache/cache.go:1591-1640 | no session key is dropped or replaced by an older version |
| `KeyMerge.MergeManyKeeps` | cache/cache.go:1525-1640 | nor does that happen over any number of merges |
| `KeyMerge.NewerKeyArrives` | cache/cache.go:1525-1640 | a key that is read and newer than the session's version is in the session afterwards with its text and stamps, and not marked as default |
| `KeyMerge.PickDefault` | cache/cache.go:1555-1580 | the first key marked as default, and the latest created one up to it |
| `KeyMerge.ProcessCachedItemsKeys` | cache/cache.go:1525-1589 | the session gets the merge of its keys with those read, keeps all of its own, and its default is chosen again; unreadable keys change nothing |
| `Store.FilterProtectedItems` | cache/cache.go:122-136 | exactly the deleted items of protected types are held back, the rest keeps its order |
| `Store.SavedAppend` | cache/cache.go:410-462 | saving in batches equals saving at once |
| `Store.DeletedAppend` | cache/cache.go:465-526 | deleting in batches equals deleting at once |
| `Store.CleanedAppend` | cache/cache.go:529-591 | cleaning in batches equals cleaning at once |
| `Store.SaveBatch` | cache/cache.go:428-455 | one transaction saves its whole batch or nothing of it |
| `Store.SaveCacheItems` | cache/cache.go:410-462 | success equals the unbatched fold over the safe items; any failure leaves a whole number of batches |
| `Store.DeleteBatch` | cache/cache.go:483-520 | one transaction deletes its whole batch or nothing of it |
| `Store.DeleteCacheItems` | cache/cache.go:465-526 | deletion has the same atomicity, and never deletes a protected record that is marked deleted |
| `Store.CleanRecord` | cache/cache.go:552-565 | one record is made clean with nothing else changed, but for a dirty mark whose clearing fails: that mark stays and nothing seems to fail |
| `Store.CleanBatch` | cache/cache.go:547-585 | one transaction cleans its whole batch, but for the stuck marks, or nothing of it; only a flaky database makes it fail |
| `Store.CleanCacheItems` | cache/cache.go:529-591 | success equals the unbatched fold, in which exactly the stuck marks stay; any failure leaves a whole number of batches |
| `CacheSteps.Validate` | cache/cache.go:599-624 | records are valid if and only if each has the fields its type needs |
| `CacheSteps.DirtyItemsToPush` | cache/cache.go:1184-1222 | the push is the dirty records in order without deleted protected items and changed items keys, each with all its fields; a dirty items key is never empty |
| `CacheSteps.PushedForRecord` | cache/cache.go:1184-1222 | a dirty record is pushed with all its fields always, unless it is of a protected type; user preferences exactly unless they are deleted, and an items key exactly while it is not deleted and lacks an identifier or an update time |
| `CacheSteps.PushableAppend` | cache/cache.go:1184-1222 | dirty records are turned into the push part by part, in their order |
| `CacheSteps.PushableDistinct` | cache/cache.go:1184-1222 | distinct dirty records give distinct items to push |
| `CacheSteps.FilterKeepsAll` | items/sync.go:226-250 | what the cache pushes passes the filter of the items sync unchanged |
| `CacheSteps.ValidateAndCleanSyncToken` | cache/cache.go:921-963 | a token is used if and only if it can be read, is the only one stored and is no older than a day; otherwise the stored tokens are dropped |
| `CacheSteps.SortSaved` | cache/cache.go:1342-1401 | live saved items become clean records with the same fields, deleted ones lead to the deletion of what is stored for them; a deleted items key, which ends the program, is the one thing callers must rule out |
| `CacheSteps.SortItems` | cache/cache.go:1438-1468 | live items become clean records with the same fields and deleted unprotected ones are deleted; deleted protected ones are ignored |
| `Reconcile.LookupSaved` | cache/cache.go:1403-1412 | what saving live items does to one record |
| `Reconcile.LookupGone` | cache/cache.go:1470-1482 | what deleting the deleted items does to one record |
| `Reconcile.LookupStored` | cache/cache.go:1403-1420 | what deleting the stored records of deleted saved items does to one record |
| `Reconcile.LookupCleaned` | cache/cache.go:1422-1432 | what cleaning the dirty list does to one record |
| `Reconcile.SavedIsDirty` | cache/cache.go:1342-1362 | a saved item has the type and the deletion mark of the dirty record it was pushed from, so the fatal exit on a deleted items key is unreachable |
| `Reconcile.ReconciledAt` | cache/cache.go:1342-1482 | for each identifier the batched steps of a sync leave the record that the simple map expects |
| `Reconcile.ReconciledAgrees` | cache/cache.go:1342-1482 | hence the records agree with the simple map: the live entry of the output stored clean, none for a deleted unprotected entry, else the saved item or the old record made clean |
| `Reconcile.StaysDirtyExactly` | cache/cache.go:1403-1482 | after a sync a record is dirty if and only if it was, clearing its mark fails, and the output of the server neither replaces nor removes it |
| `Reconcile.SilenceKeepsDirty` | cache/cache.go:552-565 | the input that shows it: a dirty record whose mark is stuck, and a server that returns nothing |
| `Reconcile.NothingStaysDirty` | cache/cache.go:1403-1482 | no record is dirty after a sync, whatever the server returns, if and only if no dirty record was stuck before it |
| `Reconcile.SavingIsSafe` | cache/cache.go:410-462 | saving typed items keeps every protected record |
| `Reconcile.DeletingIsSafe` | cache/cache.go:465-526 | deleting unprotected items keeps every protected record |
| `Reconcile.CleaningIsSafe` | cache/cache.go:529-591 | cleaning keeps every protected record |
| `Reconcile.SavedPrefixIsSafe` | cache/cache.go:410-462 | so does saving that fails half-way |
| `Reconcile.DeletedPrefixIsSafe` | cache/cache.go:465-526 | so does deleting that fails half-way |
| `Reconcile.CleanedPrefixIsSafe` | cache/cache.go:529-591 | so does cleaning that fails half-way |
| `Cache.CallItemsSync` | cache/cache.go:1270-1309 | one to three calls of the items sync, each of the same push from where the one before left the server and the keys, all but the last with an error, and together everything the server accepted; it fails if and only if the last one did |
| `Cache.ApplySaved` | cache/cache.go:1403-1420 | saved items are written and their deleted ones removed, as the unbatched steps would, with stored deleted protected records left alone; on failure whole batches of that are done and protected records stay |
| `Cache.ApplyItems` | cache/cache.go:1438-1482 | the same for retrieved items; the items keys among them are handed on |
| `Cache.ApplyOutput` | cache/cache.go:1342-1482 | on success the records agree with the simple map; on failure nothing but whole batches of the steps, in their order, are done; protected records stay in any case |
| `Cache.WriteOutput` | cache/cache.go:1311-1482 | the same for any output that came through; the panic on left-over conflicts is unreachable |
| `Cache.OutputFits` | cache/cache.go:1311-1346 | what the items sync returns has the form that reconciliation relies on |
| `Cache.OutputTyped` | cache/cache.go:1311-1346 | if the server keeps the type of every identifier, so does everything that is written |
| `Cache.RetrieveItemsKeys` | cache/cache.go:651-676 | exactly the stored items keys that are not deleted are read back, with all their fields |
| `Cache.CachedKeysAppend` | cache/cache.go:651-676 | the stored items keys are read back in the order of the records they are among |
| `Cache.Prepare` | cache/cache.go:1110-1182 | before the push: all dirty records, each once and valid, the session keys merged with the stored ones, and the stored token if it is usable and the session has a default key; without database failures it fails if and only if a record is invalid or the stored keys cannot be read |
| `Cache.Finish` | cache/cache.go:1484-1523 | the stored token becomes the new one, which must not be empty; keys that cannot be read leave token and session keys alone; no session key is lost |
| `Cache.Settle` | cache/cache.go:1342-1523 | on success agreement with the simple map, exactly the stuck unmentioned records dirty, the token moved on and the returned keys merged; it fails only if an item has no identifier, the token is empty, or the database is flaky, and then leaves whole batches |
| `Cache.PushAndSettle` | cache/cache.go:1224-1523 | a sync that is not skipped: all that is sent are its calls of the items sync; it succeeds with the settled output of the last one; if the calls fail records and token are untouched, and if writing fails whole batches are left |
| `Cache.SkipOrPush` | cache/cache.go:1184-1523 | once prepared, a sync is skipped if and only if there is nothing to push and the token is recent, unless the database is flaky, and is otherwise pushed and settled |
| `Cache.Sync` | cache/cache.go:1014-1523 | all a sync sends are at most three calls with the dirty records that may be pushed, whose first rounds delete nothing protected; every protected record survives; and it ends in exactly one of four ways, each with what it leaves of records, token and keys: not prepared, with nothing sent; skipped; full; or broken |
| `Cache.NothingDirtyAfter` | cache/cache.go:1403-1482 | no record is dirty after a full sync when no dirty record was stuck |
| `Cache.CallsAreGuarded` | cache/cache.go:1270-1309 | so each of the calls, failed ones too, deletes nothing protected in its first round |
| `Cache.SyncMany` | cache/cache.go:1014-1523 | over any number of syncs, with any failures of server and database, everything the server accepts are at most three guarded calls for each, and protected records survive if it keeps the type of every identifier |
| `RecordFate.StoredAsReturned` | cache/cache.go:1403-1482 | after a full sync every live item of its output is stored with its content, keys, type, times and duplicate mark as they came, and is clean; a deleted one of an unprotected type is gone |
| `RecordFate.SavedIsStored` | cache/cache.go:1342-1482 | what the server saved is the dirty record it was pushed for under new update times, and is what is stored unless the output has a newer version |
| `RecordFate.UnmentionedStays` | cache/cache.go:1422-1432 | a record that the output does not mention stays as it is, but for the dirty mark and date of one that was dirty |
| `RecordFate.DirtyRecordReachesServer` | cache/cache.go:1184-1309 | after a full sync every dirty record has been accepted by the server with all its fields, but for deleted items keys and preferences and for items keys that are not new |
| `RecordFate.DirtyEditReachesServer` | cache/cache.go:1014-1523 | after a full sync every conflict that the last call reported on the edit of a dirty record has its content, with references remapped, in an accepted request of that call |
| `RecordFate.DirtyDeletionReachesServer` | cache/cache.go:1014-1523 | after a full sync every conflict that the last call reported on a dirty record that is deleted has the deletion in an accepted request |
| `RecordFate.TokenIsSent` | cache/cache.go:921-963 | a stored token is sent if it is the only one, no older than 24 hours, and the session has a default key, unless the database fails; none is sent otherwise |
| `RecordFate.SkippedExactly` | cache/cache.go:1224-1262 | with a working database a prepared sync is skipped if and only if no dirty record may be pushed, the session has a default key and there is one token, younger than five minutes |
| `RecordFate.BrokenOnlyIf` | cache/cache.go:1342-1523 | with a working database a sync whose call came through breaks only if a live item has no identifier or there is no new token |
| `RecordFate.UnpreparedOnlyIf` | cache/cache.go:1110-1182 | with a working database a sync that is not prepared found a stored record without a field its type needs, or items keys that cannot be read |
| `WorkerPool.DecryptItemsSequential` | items/itemDecryption.go:167-183 | the loop decrypts the live items in order, or stops with the error of the first that fails |
| `WorkerPool.LiveInOrder` | items/itemDecryption.go:167-183 | the live items are the items in order without the deleted ones |
| `WorkerPool.SequentialExact` | items/itemDecryption.go:167-183 | it succeeds if and only if every live item decrypts, with each result in its place, and fails with the error of one of them |
| `WorkerPool.StepKeepsPlaces` | items/itemDecryption.go:186-241 | no step of any goroutine loses, duplicates or invents a job: each stays in exactly one place |
| `WorkerPool.StepKeepsResults` | items/itemDecryption.go:186-241 | every result in the channel is the decryption of the item of its own job |
| `WorkerPool.StepKeepsOrder` | items/itemDecryption.go:186-241 | channels are closed in order: jobs after the last send, results after the last worker |
| `WorkerPool.StepKeepsOutcome` | items/itemDecryption.go:226-240 | a collected result is in its own slot, and what is returned is the slots or the error of an item |
| `WorkerPool.NothingBlocks` | items/itemDecryption.go:195-224 | no send waits for room, no send or close meets a closed channel, and no result is written out of range |
| `WorkerPool.NoDeadlock` | items/itemDecryption.go:186-241 | unless everything has finished some goroutine can go on, even after the collector returned early on an error |
| `WorkerPool.StepShrinks` | items/itemDecryption.go:186-241 | every step makes what is left to do smaller, so every interleaving ends with all workers finished |
| `WorkerPool.RunsAreSafe` | items/itemDecryption.go:186-241 | all of this holds in every state of every interleaving |
| `WorkerPool.AllCollected` | items/itemDecryption.go:226-240 | a return without error means that every job was collected |
| `WorkerPool.PoolRefinesLoop` | items/itemDecryption.go:186-241 | in every interleaving a returned list is the one of the sequential loop, in order, and an error is returned only if the loop fails too |
| `WorkerPool.DecryptItemsParallel` | items/itemDecryption.go:186-241 | the pool under any scheduler ends, with a result that agrees with the loop |
| `WorkerPool.DecryptItems` | items/itemDecryption.go:144-164 | whichever way is chosen, the result agrees with the loop; no live item gives an empty list |
| `Checklist.Sort` | items/checklist.go:91-98 | in place: the same tasks with no completed one before an open one, in any order otherwise |
| `Checklist.TasksToNoteText` | items/checklist.go:100-120 | the caller's list is left sorted, and the text is its lines |
| `Checklist.SplitTaskText` | items/checklist.go:26-42 | the parts between escapes, with doubled escapes left in them |
| `Checklist.NoteTextToTasks` | items/checklist.go:58-89 | the tasks of the lines, sorted; an empty text is an error, and a line without a readable bracket panics |
| `Checklist.TasksOfLines` | items/checklist.go:73-84 | one task for each line in order, unless some line has no bracket where one can be read |
| `Checklist.LineRead` | items/checklist.go:74-83 | a line is printed as "- [x] " or "- [ ] " and the title, and reading it gives its task back, whatever brackets the title holds |
| `Checklist.ReadAtBracket` | items/checklist.go:74-83 | any line is read at its first closing bracket, with the mark right before it and the title from the second character after it; without anything before or after the bracket it cannot be read |
| `Checklist.PrintedCount` | items/checklist.go:100-120 | a printed text has exactly one line for each task if and only if no title has a newline |
| `Checklist.NoPhantom` | items/checklist.go:26-42 | escaping never makes up a placeholder out of the text around it |
| `Checklist.UnescapedEscaped` | items/checklist.go:26-42 | restoring escaped text is restoring the text itself |
| `Checklist.UnescapedExact` | items/checklist.go:26-42 | restoring changes a text if and only if it holds the placeholder |
| `Checklist.EscapesLeft` | items/checklist.go:26-42 | escaping leaves nothing to split at if and only if every escape is doubled |
| `Checklist.SplitAtEscapesExact` | items/checklist.go:33-33 | a text is in one part if and only if it has no escape |
| `Checklist.PartsOfText` | items/checklist.go:26-42 | joining the parts of a text with the escape gives the text back, and no part has an escape |
| `Checklist.OldFormatRead` | items/checklist.go:26-89 | text whose lines are separated by escapes instead of newlines is read back to its tasks, for titles without escape, newline and placeholder that do not end in a backslash |
| `Checklist.SingleRead` | items/checklist.go:58-89 | a lone task is read with its title restored, or falls apart |
| `Checklist.SeveralRead` | items/checklist.go:58-89 | two or more tasks are read back exactly when each is on one line, else too many are read |
| `Checklist.LonePlaceholderChanged` | items/checklist.go:26-42 | a lone title that is the placeholder comes back changed |
| `Checklist.LoneEscapeLost` | items/checklist.go:26-42 | a lone title that is an escape does not come back |
| `Checklist.RoundTripExact` | items/checklist.go:58-120 | for every partitioning sort, reading what was printed gives the same tasks, in printed order, if and only if no title has a newline and a lone one has neither the placeholder nor an escape that is not doubled |
| `Checklist.PrintAndRead` | items/checklist.go:58-120 | the whole trip does nothing but sort the tasks, under the same condition |
| `Backoff.RateLimitBackoff.EnforceRateLimitBackoff` | cache/cache.go:694-708 | the k-th call sleeps the k-th delay, computed in 64 bits |
| `Backoff.DelayExact` | cache/cache.go:694-708 | the k-th delay is min(1000 * 2^(k-1), 5000) ms if and only if k is at most 54 or is 60; otherwise nothing is slept |
| `Backoff.FirstWrongDelay` | cache/cache.go:694-708 | the 55th product wraps to a negative number |
| `Backoff.DelaysGrow` | cache/cache.go:694-708 | up to the 54th the delays never decrease |
| `Backoff.PauseBounded` | cache/cache.go:694-708 | no delay is longer than the maximum, wrapped or not |
| `Backoff.SyncWithRetry` | cache/cache.go:826-884 | at most maxRetries + 1 calls; exactly rate limits, network errors, conflicts and unknown errors are retried, after 2 s for the network, 1 s for conflicts and unknown errors, and the next delay for a rate limit; it returns the last outcome; a negative maxRetries makes no call and no error |
| `Backoff.MeantDelays` | cache/cache.go:694-708 | the delays as meant are one, two and four seconds and then five |
| `Backoff.BackoffBounded` | cache/cache.go:826-884 | all pauses together last at most 5000 * maxRetries ms, for every maxRetries |
| `Backoff.PausesExact` | cache/cache.go:826-884 | all rate-limit pauses of a run are the meant ones if and only if it met the rate limit at most 54 times |
| `Backoff.RetriesExact` | cache/cache.go:826-884 | whatever the calls return, all rate-limit pauses are the meant ones if and only if at most 54 retries are allowed |
| `Backoff.OneRetryTooMany` | cache/cache.go:826-884 | the calls that show it: a server that never stops limiting the rate |
| `Backoff.PausesGrow` | cache/cache.go:826-884 | within 54 retries rate-limit pauses never get shorter |
| `Spacing.StepKeepsExclusion` | cache/cache.go:679-691 | only the holder of the mutex is in the locked section |
| `Spacing.SleepsOnlyIfEarly` | cache/cache.go:679-691 | a caller that is due records its time at once; another one sleeps exactly until a second after the last recorded time |
| `Spacing.StepKeepsOnTime` | cache/cache.go:679-691 | a caller that is past its check stays due, whatever the others do |
| `Spacing.StepKeepsLog` | cache/cache.go:679-691 | every newly recorded time is at least a second after the last |
| `Spacing.SyncsAreSpaced` | cache/cache.go:679-691 | in every interleaving the i-th and j-th recorded times are at least j - i seconds apart |
| `Spacing.CallsTakeTime` | cache/cache.go:679-691 | in every interleaving n completed calls span at least n - 1 seconds |
| `Spacing.HolderGoesOn` | cache/cache.go:679-691 | whoever holds the mutex can go on within a second, so nobody waits for ever |

## Left out

- HTTP, cookies, authentication, token refresh and the handling of status 429: a request is accepted with a page or fails with a kind of failure.
- The classification of error text: errors are enumerations of the kinds the code tells apart, in its order of tests. `os.Exit`, `log.Fatalf` and panics are outcomes or are proved unreachable; panics and errors of encryption are one kind of fault.
- Time spent: sleeps between attempts, timeouts and the slow-sync warning are not modelled, apart from the delays in `Backoff` and `Spacing`.
- XChaCha20-Poly1305, Argon2, base64, JSON and time layouts: they are function values with the laws collected in `Envelope.Sound`. Random keys and nonces are parameters, fresh identifiers a function of the draw.
- JSON content: an abstract value with a kind, a body and references. That re-marshalling drops fields the library does not know is not modelled.
- Fields of encrypted items that the sync only carries along (auth hash, user, key system and shared vault identifiers) and fields of items keys that are not read.
- Go strings as bytes: text is a sequence of characters, and encodings are not modelled.
- Decrypting a list of items keys: it is a parameter that fails or yields keys, on which both ways of reading them are built; panics on items keys without identifier or encrypted key are not modelled.
- The missing-default-key error of `items.Sync`: it is overwritten before it is read (items/sync.go:253-260), so it has no effect here either.
- The debug, schema and session checks of `items.Sync` and of the cache, the import paths, and `DuplicateOf` on pushed copies, which the code sets only after copying (items/sync.go:478-480).
- Reports of saved items across retries: a retry overwrites the response (items/sync.go:119), so what an earlier attempt had saved is delivered but not reported.
- The decision of `handleSyncError` (cache/cache.go:966-997): it is left open, which covers every choice; that it may reopen the database to drop the token is not modelled.
- Opening, closing and locking the database file, failing rollbacks, and the loop over saved items whose result is not used (cache/cache.go:1315-1330).
- `encryptItems`, whose loop lets a later item overwrite an earlier error (items/itemEncryption.go:16-33).
- items/filter.go, items/advancedChecklist.go, the edits of a task list (items/checklist.go:124-227) and the item types with their getters and setters: they would only add easy members.
- ItemsSync.Sync: the next index is taken to be 0, as all callers leave it.
- ItemsSync.ProcessSessionItemsKeys: session keys are replaced wholesale as in the code, so no claim is made that keys survive a sync of items; only merging in the cache keeps them.
- Delivery.RunDelivers: delivery is stated for page sizes that are ample; for the others `Delivery.DeliveryExact` shows that it fails.
- Delivery.PagingTerminates: the script is one that accepts everything, since a failure ends the attempt at once.
- Envelope.ItemRoundTrip: the session must resolve the key that was used, which the code itself needs; an ambiguous identifier picks the first key.
- NoLostEdit.NoEditIsLost: where the unsaved item is newer than a live server copy, the code pushes the item the server returned, so that one must be the item that was sent.
- Checklist.Sort: Go's sort is not stable and not modelled; the result is any partition, which covers whatever order it leaves.
- WorkerPool.PoolRefinesLoop: when several items fail, the pool may return the error of another item than the loop does.
- WorkerPool.DecryptItemsParallel: the state of each goroutine and channel is a value that the scheduler's loop updates; memory is not shared beyond that.
- Backoff.SyncWithRetry: the sync it calls is a function from the number of the call to its error.
- Spacing.SyncsAreSpaced: the clock never runs backwards and a sleep lasts at least as long as asked.
- The failures of a database: which marks are stuck is fixed during one sync; as a sync clears each mark at most once, this covers every pattern of failures.
