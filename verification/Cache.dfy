/** The cache sync as a whole, and any number of them in a row. */
module Cache {
  import opened Prelude
  import opened Records
  import opened Newest
  import opened Paging
  import opened Delivery
  import opened ItemsSync
  import opened KeyMerge
  import opened Store
  import opened CacheSteps
  import opened Reconcile
  import opened Vault

  ghost predicate TypedPages(accepted: seq<Exchange>, typeOf: string -> string) {
    forall x :: InPages(accepted, x) ==> x.contentType == typeOf(x.uuid)
  }

  // ---- Calling the items sync

  function SentBy(calls: seq<Rounds>): seq<Exchange> {
    if calls == [] then []
    else SentBy(calls[..|calls| - 1]) + (calls[|calls| - 1].first + calls[|calls| - 1].second)
  }

  /**
   Calls of the items sync in a row: at most three, each of the same push, each from where the
   one before left the server and the session's keys, and all but the last with an error.
   */
  ghost predicate IsCalls(tools: Tools, push: SyncInput, start: Point, calls: seq<Rounds>, end: Point) {
    if calls == [] then end == start
    else
      var t, before := calls[|calls| - 1], calls[..|calls| - 1];
      && |calls| <= SYNC_ATTEMPTS
      && IsCalls(tools, push, start, before, t.start) && (before != [] ==> Failed(tools, before[|before| - 1]))
      && IsCall(tools, t) && IsGuarded(t) && t.push == push && t.end == end
  }

  ghost predicate Failed(tools: Tools, t: Rounds) {
    IsCall(tools, t) && ErrorOf(tools, t).Some?
  }

  /** The last call has no error, its output is settled, and the server has every item. */
  ghost predicate CameThrough(tools: Tools, calls: seq<Rounds>, output: SyncOutput) {
    && calls != []
    && var t := calls[|calls| - 1];
    && IsSync(tools, t, output)
    && IsSettled(t.push.items, t.first + t.second, output) && IsDelivered(t)
  }

  /** How far the calls have come: only an error leads to another one. */
  ghost predicate IsTried(tools: Tools, push: SyncInput, start: Point, calls: seq<Rounds>, end: Point,
                          failed: bool, output: SyncOutput)
  {
    && IsCalls(tools, push, start, calls, end)
    && (failed <==> calls == [] || Failed(tools, calls[|calls| - 1]))
    && (!failed ==> CameThrough(tools, calls, output))
  }

  lemma AnotherCall(tools: Tools, push: SyncInput, start: Point, calls: seq<Rounds>, before: SyncOutput,
                    t: Rounds, output: SyncOutput)
    requires |calls| < SYNC_ATTEMPTS && IsTried(tools, push, start, calls, t.start, true, before)
    requires IsCall(tools, t) && IsGuarded(t) && t.push == push
    requires ErrorOf(tools, t).None? ==>
      IsSync(tools, t, output) && IsDelivered(t) && IsSettled(push.items, t.first + t.second, output)
    ensures IsTried(tools, push, start, calls + [t], t.end, ErrorOf(tools, t).Some?, output)
    ensures SentBy(calls + [t]) == SentBy(calls) + (t.first + t.second)
  {
    assert ErrorOf(tools, t).Some? <==> Failed(tools, t);
    hide IsSettled, IsDelivered, IsSync, IsCall, IsGuarded, ErrorOf, Failed;
    var all := calls + [t];
    assert all[..|calls|] == calls && all[|all| - 1] == t;
  }

  /** Calls the items sync, at most three times; only errors that may pass are retried. */
  method CallItemsSync(server: Server, session: Session, tools: Tools, input: SyncInput)
    returns (gSO: SyncOutput, failed: bool, ghost calls: seq<Rounds>)
    requires input.nextItem == 0 && Ample(input.pageSize, 1)
    modifies server, session
    ensures calls != []
    ensures IsTried(tools, input.(items := Filtered(input.items)), old(Point(server.script, session.Keys())),
                    calls, Point(server.script, session.Keys()), failed, gSO)
    ensures server.accepted == old(server.accepted) + SentBy(calls)
  {
    gSO, failed, calls := NO_OUTPUT, true, [];
    var attempt := 0;
    ghost var push, start := input.(items := Filtered(input.items)), Point(server.script, session.Keys());
    assert IsTried(tools, push, start, [], start, true, NO_OUTPUT) && SentBy([]) == [];
    hide IsCall, IsTried, SentBy, IsGuarded, IsSync, IsSettled, IsDelivered, Filtered, Ample, ErrorOf;
    while attempt < SYNC_ATTEMPTS && failed
      invariant |calls| == attempt <= SYNC_ATTEMPTS
      invariant IsTried(tools, push, start, calls, Point(server.script, session.Keys()), failed, gSO)
      invariant server.accepted == old(server.accepted) + SentBy(calls)
      decreases SYNC_ATTEMPTS - attempt
    {
      ghost var before, was := calls, gSO;
      var err;
      ghost var t;
      gSO, err, t := ItemsSync.Sync(server, session, tools, input);
      AnotherCall(tools, push, start, before, was, t, gSO);
      AppendAssociative(old(server.accepted), SentBy(before), t.first + t.second);
      calls := before + [t];
      failed := err.Some?;
      attempt := attempt + 1;
      if failed {
        var shouldRetry: bool := *;
        if !shouldRetry {
          return;
        }
      }
    }
  }

  lemma TypedInTurn(a: seq<Exchange>, b: seq<Exchange>, typeOf: string -> string)
    requires TypedPages(a + b, typeOf)
    ensures TypedPages(a, typeOf) && TypedPages(b, typeOf)
  {
    forall x | InPages(a, x) ensures x.contentType == typeOf(x.uuid) {
      var i :| 0 <= i < |a| && x in a[i].page.items;
      assert (a + b)[i] == a[i];
      assert InPages(a + b, x);
    }
    forall x | InPages(b, x) ensures x.contentType == typeOf(x.uuid) {
      var i :| 0 <= i < |b| && x in b[i].page.items;
      assert (a + b)[|a| + i] == b[i];
      assert InPages(a + b, x);
    }
  }

  lemma LaterPages(calls: seq<Rounds>, typeOf: string -> string)
    requires calls != [] && TypedPages(SentBy(calls), typeOf)
    ensures TypedPages(calls[|calls| - 1].first + calls[|calls| - 1].second, typeOf)
  {
    var t := calls[|calls| - 1];
    TypedInTurn(SentBy(calls[..|calls| - 1]), t.first + t.second, typeOf);
  }

  // ---- Bringing the records into agreement

  /** A saved item, being a dirty record under new times, is typed like that record. */
  lemma SavedTyped(records: Table, dirty: seq<CacheItem>, saved: seq<EncryptedItem>, typeOf: string -> string)
    requires IsDirtyList(records, dirty) && TypedTable(records, typeOf)
    requires forall x :: x in saved ==> IsStampedCopy(Pushable(dirty), x)
    ensures TypedItems(LiveItems(saved), typeOf) && Unprotected(StoredItems(records, saved), typeOf)
  {
    StoredUnprotected(records, dirty, saved);
    forall r | r in LiveItems(saved) ensures r.contentType == typeOf(r.uuid) {
      var x :| x in saved && !x.deleted && r == ToCache(x);
      SavedIsDirty(records, dirty, x);
    }
    forall r | r in StoredItems(records, saved) ensures !IsProtectedType(typeOf(r.uuid)) {
      var x :| x in saved && x.deleted && x.uuid in records && r == records[x.uuid];
    }
  }

  lemma ItemsTyped(items: seq<EncryptedItem>, typeOf: string -> string)
    requires forall x :: x in items ==> x.contentType == typeOf(x.uuid)
    ensures TypedItems(LiveItems(items), typeOf) && Unprotected(GoneItems(items), typeOf)
  {
    forall r | r in LiveItems(items) ensures r.contentType == typeOf(r.uuid) {
      var x :| x in items && !x.deleted && r == ToCache(x);
    }
    forall r | r in GoneItems(items) ensures !IsProtectedType(typeOf(r.uuid)) {
      var x :| x in items && x.deleted && !IsProtectedType(x.contentType) && r == ToCache(x);
    }
  }

  /** What the type discipline gives for the lists that are saved and deleted. */
  ghost predicate ListsTyped(records: Table, saved: seq<EncryptedItem>, items: seq<EncryptedItem>,
                          typeOf: string -> string)
  {
    && TypedItems(LiveItems(saved), typeOf) && Unprotected(StoredItems(records, saved), typeOf)
    && TypedItems(LiveItems(items), typeOf) && Unprotected(GoneItems(items), typeOf)
  }

  method SaveIfAny(db: Database, items: seq<CacheItem>, ghost typed: bool, ghost typeOf: string -> string)
    returns (failed: bool)
    requires SafeItems(items) == items && (typed ==> TypedItems(items, typeOf))
    modifies db`records, db`staged
    ensures failed ==> db.flaky || !AllNamed(items)
    ensures failed ==> SavedPrefix(old(db.records), items, db.records)
    ensures !failed ==> db.records == Saved(old(db.records), items)
    ensures typed ==> SafeStep(old(db.records), db.records, typeOf)
  {
    failed := false;
    if |items| > 0 {
      failed := SaveCacheItems(db, items, false);
      if typed {
        SavedPrefixIsSafe(old(db.records), items, db.records, typeOf);
      }
    }
  }

  method DeleteIfAny(db: Database, items: seq<CacheItem>, ghost typed: bool, ghost typeOf: string -> string)
    returns (failed: bool)
    requires typed ==> Unprotected(SafeItems(items), typeOf)
    modifies db`records, db`staged
    ensures failed ==> db.flaky
    ensures failed ==> DeletedPrefix(old(db.records), SafeItems(items), db.records)
    ensures !failed ==> db.records == Deleted(old(db.records), SafeItems(items))
    ensures typed ==> SafeStep(old(db.records), db.records, typeOf)
  {
    failed := false;
    if |items| > 0 {
      failed := DeleteCacheItems(db, items, false);
      if typed {
        DeletedPrefixIsSafe(old(db.records), SafeItems(items), db.records, typeOf);
      }
    }
  }

  method CleanIfAny(db: Database, items: seq<CacheItem>, ghost typeOf: string -> string) returns (failed: bool)
    modifies db`records, db`staged
    ensures failed ==> db.flaky
    ensures failed ==> CleanedPrefix(old(db.records), items, db.stuck, db.records)
    ensures !failed ==> db.records == Cleaned(old(db.records), items, db.stuck)
    ensures SafeStep(old(db.records), db.records, typeOf)
  {
    failed := false;
    if |items| > 0 {
      failed := CleanCacheItems(db, items, false);
      CleanedPrefixIsSafe(old(db.records), items, db.stuck, db.records, typeOf);
    }
  }

  /** Interrupted while the saved items are written: a whole number of batches of one of the two steps is done. */
  ghost predicate PartlyPushed(records: Table, saved: seq<EncryptedItem>, after: Table) {
    || SavedPrefix(records, LiveItems(saved), after)
    || DeletedPrefix(Saved(records, LiveItems(saved)), SafeItems(StoredItems(records, saved)), after)
  }

  /** The same while the retrieved items are written. */
  ghost predicate PartlyPulled(records: Table, items: seq<EncryptedItem>, after: Table) {
    || SavedPrefix(records, LiveItems(items), after)
    || DeletedPrefix(Saved(records, LiveItems(items)), GoneItems(items), after)
  }

  /** The records after an output was written in part: nothing but whole batches of its steps, in their order. */
  ghost predicate PartlyWritten(records: Table, dirty: seq<CacheItem>, stuck: set<string>, output: SyncOutput,
                                after: Table)
  {
    var pushed := AfterPush(records, output.savedItems);
    || PartlyPushed(records, output.savedItems, after)
    || CleanedPrefix(pushed, dirty, stuck, after)
    || PartlyPulled(Cleaned(pushed, dirty, stuck), output.items, after)
  }

  lemma NothingSaved(records: Table, items: seq<CacheItem>)
    ensures SavedPrefix(records, items, records)
  {
    assert items[..0 * BATCH_SIZE] == [];
  }

  /** Writes the saved items to the records, and removes those that are deleted. */
  method ApplySaved(db: Database, saved: seq<EncryptedItem>, ghost typed: bool, ghost typeOf: string -> string)
    returns (failed: bool)
    requires forall x :: x in saved ==> !(x.contentType == ITEMS_KEY && x.deleted)
    requires typed ==>
      TypedItems(LiveItems(saved), typeOf) && Unprotected(SafeItems(StoredItems(db.records, saved)), typeOf)
    modifies db`records, db`staged
    ensures failed ==> db.flaky || !AllNamed(LiveItems(saved))
    ensures failed ==> PartlyPushed(old(db.records), saved, db.records)
    ensures !failed ==> db.records == AfterPush(old(db.records), saved)
    ensures typed ==> SafeStep(old(db.records), db.records, typeOf)
  {
    ghost var r0 := db.records;
    LiveIsSafe(saved);
    SafeStart(r0, typeOf);
    NothingSaved(r0, LiveItems(saved));
    hide SafeItems, LiveItems, StoredItems, TypedItems, Unprotected, SafeStep, Saved, Deleted, SavedPrefix,
         DeletedPrefix;
    var savedItems, toDelete;
    savedItems, toDelete, failed := SortSaved(db, saved);
    if failed {
      return;
    }
    failed := SaveIfAny(db, savedItems, typed, typeOf);
    if failed {
      return;
    }
    ghost var r1 := db.records;
    failed := DeleteIfAny(db, toDelete, typed, typeOf);
    if typed {
      SafeSteps(r0, r1, db.records, typeOf);
    }
  }

  /** Writes the retrieved items to the records, and removes those that are deleted. */
  method ApplyItems(db: Database, items: seq<EncryptedItem>, ghost typed: bool, ghost typeOf: string -> string)
    returns (failed: bool, eiks: seq<EncryptedItem>)
    requires typed ==> TypedItems(LiveItems(items), typeOf) && Unprotected(GoneItems(items), typeOf)
    modifies db`records, db`staged
    ensures eiks == LiveKeys(items)
    ensures failed ==> db.flaky || !AllNamed(LiveItems(items))
    ensures failed ==> PartlyPulled(old(db.records), items, db.records)
    ensures !failed ==> db.records == AfterPull(old(db.records), items)
    ensures typed ==> SafeStep(old(db.records), db.records, typeOf)
  {
    ghost var r0 := db.records;
    LiveIsSafe(items);
    GoneIsSafe(items);
    hide SafeItems, LiveItems, GoneItems, TypedItems, Unprotected, SafeStep, Saved, Deleted, SavedPrefix, DeletedPrefix;
    var newItems, gone;
    newItems, gone, eiks := SortItems(items);
    failed := SaveIfAny(db, newItems, typed, typeOf);
    if failed {
      return;
    }
    ghost var r1 := db.records;
    failed := DeleteIfAny(db, gone, typed, typeOf);
    if typed {
      SafeSteps(r0, r1, db.records, typeOf);
    }
  }

  /** Every item of an output that is to be written can be. */
  predicate Writable(output: SyncOutput) {
    AllNamed(LiveItems(output.savedItems)) && AllNamed(LiveItems(output.items))
  }

  /** Writes an output to the records; whatever fails on the way, protected records stay. */
  method ApplyOutput(db: Database, dirty: seq<CacheItem>, gSO: SyncOutput,
                     ghost typed: bool, ghost typeOf: string -> string)
    returns (failed: bool, eiks: seq<EncryptedItem>)
    requires FitsRecords(db.records, dirty, gSO.savedItems, gSO.items)
    requires typed ==> ListsTyped(db.records, gSO.savedItems, gSO.items, typeOf)
    modifies db`records, db`staged
    ensures failed ==> db.flaky || !Writable(gSO)
    ensures failed ==> PartlyWritten(old(db.records), dirty, db.stuck, gSO, db.records)
    ensures !failed ==>
      && eiks == LiveKeys(gSO.items)
      && db.records == Reconciled(old(db.records), dirty, db.stuck, gSO.savedItems, gSO.items)
      && Agrees(old(db.records), db.stuck, gSO.savedItems, gSO.items, db.records)
    ensures typed ==> SafeStep(old(db.records), db.records, typeOf)
  {
    ghost var r0 := db.records;
    eiks := [];
    StoredUnprotected(r0, dirty, gSO.savedItems);
    SavedAllowed(r0, dirty, gSO.savedItems);
    hide Agrees, SafeStep, AfterPush, AfterPull, TypedItems, Unprotected, SafeItems, LiveItems, StoredItems,
         PartlyPushed, PartlyPulled, CleanedPrefix;
    failed := ApplySaved(db, gSO.savedItems, typed, typeOf);
    if failed {
      return;
    }
    ghost var r1 := db.records;
    hide FitsRecords;
    failed := CleanIfAny(db, dirty, typeOf);
    ghost var r2 := db.records;
    if typed {
      SafeSteps(r0, r1, r2, typeOf);
    }
    if failed {
      return;
    }
    failed, eiks := ApplyItems(db, gSO.items, typed, typeOf);
    if typed {
      SafeSteps(r0, r2, db.records, typeOf);
    }
    if !failed {
      ReconciledAgrees(r0, dirty, db.stuck, gSO.savedItems, gSO.items);
    }
  }

  lemma SafeStart(records: Table, typeOf: string -> string)
    ensures SafeStep(records, records, typeOf)
  {
  }

  lemma SavedAllowed(records: Table, dirty: seq<CacheItem>, saved: seq<EncryptedItem>)
    requires IsDirtyList(records, dirty)
    requires forall x :: x in saved ==> IsStampedCopy(Pushable(dirty), x)
    ensures forall x :: x in saved ==> !(x.contentType == ITEMS_KEY && x.deleted)
  {
    forall x | x in saved ensures !(x.contentType == ITEMS_KEY && x.deleted) {
      SavedIsDirty(records, dirty, x);
    }
  }

  lemma UntypedIsSafe(before: Table, after: Table, typeOf: string -> string)
    ensures !TypedTable(before, typeOf) ==> SafeStep(before, after, typeOf)
  {
  }

  lemma OutputFits(records: Table, dirty: seq<CacheItem>, gSO: SyncOutput, pages: seq<Exchange>)
    requires IsDirtyList(records, dirty) && IsSettled(Pushable(dirty), pages, gSO)
    ensures FitsRecords(records, dirty, gSO.savedItems, gSO.items)
  {
    PushableDistinct(dirty);
  }

  lemma OutputTyped(records: Table, dirty: seq<CacheItem>, gSO: SyncOutput, pages: seq<Exchange>,
                    typeOf: string -> string)
    requires IsDirtyList(records, dirty) && TypedTable(records, typeOf)
    requires IsSettled(Pushable(dirty), pages, gSO)
    requires forall x :: InPages(pages, x) ==> x.contentType == typeOf(x.uuid)
    ensures ListsTyped(records, gSO.savedItems, gSO.items, typeOf)
  {
    SavedTyped(records, dirty, gSO.savedItems, typeOf);
    forall x | x in gSO.items ensures x.contentType == typeOf(x.uuid) {
      if x in gSO.savedItems {
        SavedIsDirty(records, dirty, x);
      }
    }
    ItemsTyped(gSO.items, typeOf);
  }

  /** Writes an output that came through: it fits the records, and its conflicts are gone. */
  method WriteOutput(db: Database, dirty: seq<CacheItem>, gSO: SyncOutput, ghost pages: seq<Exchange>,
                     ghost typeOf: string -> string)
    returns (failed: bool, eiks: seq<EncryptedItem>)
    requires IsDirtyList(db.records, dirty) && IsSettled(Pushable(dirty), pages, gSO)
    modifies db`records, db`staged
    ensures failed ==> db.flaky || !Writable(gSO)
    ensures failed ==> PartlyWritten(old(db.records), dirty, db.stuck, gSO, db.records)
    ensures !failed ==>
      && eiks == LiveKeys(gSO.items)
      && db.records == Reconciled(old(db.records), dirty, db.stuck, gSO.savedItems, gSO.items)
      && Agrees(old(db.records), db.stuck, gSO.savedItems, gSO.items, db.records)
    ensures TypedPages(pages, typeOf) ==> SafeStep(old(db.records), db.records, typeOf)
  {
    assert gSO.conflicts == [];  // the program panics otherwise
    OutputFits(db.records, dirty, gSO, pages);
    ghost var typed := TypedPages(pages, typeOf) && TypedTable(db.records, typeOf);
    if typed {
      OutputTyped(db.records, dirty, gSO, pages, typeOf);
    }
    ghost var records := db.records;
    hide *;
    failed, eiks := ApplyOutput(db, dirty, gSO, typed, typeOf);
    if !typed {
      UntypedIsSafe(records, db.records, typeOf);
    }
  }

  // ---- One sync

  datatype SyncResult = Broken | Skipped | Synced

  function CachedKeys(all: seq<CacheItem>): seq<EncryptedItem> {
    if all == [] then []
    else
      var last := all[|all| - 1];
      var keys := CachedKeys(all[..|all| - 1]);
      if last.contentType == ITEMS_KEY && !last.deleted then keys + [ToEncrypted(last)] else keys
  }

  lemma {:induction false} CachedKeysAppend(a: seq<CacheItem>, b: seq<CacheItem>)
    ensures CachedKeys(a + b) == CachedKeys(a) + CachedKeys(b)
  {
    if b == [] {
      assert a + b == a;
    } else {
      assert (a + b)[..|a + b| - 1] == a + b[..|b| - 1];
      CachedKeysAppend(a, b[..|b| - 1]);
    }
  }

  method RetrieveItemsKeys(all: seq<CacheItem>) returns (keys: seq<EncryptedItem>)
    ensures keys == CachedKeys(all)
    ensures forall k :: k in keys ==>
      exists r :: r in all && r.contentType == "SN|ItemsKey" && !r.deleted && Holds(r, k)
    ensures forall r :: r in all && r.contentType == "SN|ItemsKey" && !r.deleted ==>
      exists k :: k in keys && Holds(r, k)
  {
    keys := [];
    for i := 0 to |all|
      invariant keys == CachedKeys(all[..i])
      invariant forall k :: k in keys ==>
        exists r :: r in all[..i] && r.contentType == ITEMS_KEY && !r.deleted && Holds(r, k)
      invariant forall r :: r in all[..i] && r.contentType == ITEMS_KEY && !r.deleted ==>
        exists k :: k in keys && Holds(r, k)
    {
      assert all[..i + 1][..i] == all[..i];
      if all[i].contentType == ITEMS_KEY && !all[i].deleted {
        keys := keys + [ToEncrypted(all[i])];
        assert Holds(all[i], keys[|keys| - 1]);
      }
    }
    assert all[..|all|] == all;
  }

  ghost predicate IsListOf(records: Table, all: seq<CacheItem>) {
    Distinct(ItemUuid, all) && forall x :: x in all <==> x.uuid in records && records[x.uuid] == x
  }

  /** What is stored is valid, and the items keys among it can be read. */
  predicate Loadable(tools: Tools, all: seq<CacheItem>) {
    (forall x :: x in all ==> ValidRecord(x)) && (all == [] || tools.parseKeys(CachedKeys(all)).Some?)
  }

  /** The session's keys once the stored ones are read. */
  ghost predicate KeysLoaded(tools: Tools, all: seq<CacheItem>, before: KeyRing, after: KeyRing) {
    if all == [] then after == before else KeysMerged(tools, CachedKeys(all), before, after)
  }

  /** The stored token, unless it is not usable or the session has no default key. */
  function TokenToSend(tokens: seq<SyncToken>, now: int, keys: KeyRing): string {
    if keys.defaultItemsKey.itemsKey == "" || !Usable(tokens, now) then "" else tokens[0].token
  }

  /** What is sent is that token; reading it may fail, and then none is sent. */
  predicate RightToken(tokens: seq<SyncToken>, now: int, keys: KeyRing, flaky: bool, token: string) {
    token == TokenToSend(tokens, now, keys) || (flaky && token == "")
  }

  /**
   Reads what is needed before anything is pushed: the session's keys, the dirty records and
   the token. It fails when something stored is invalid, or an operation of the database fails.
   */
  method Prepare(db: Database, session: Session, tools: Tools, now: int)
    returns (ok: bool, dirty: seq<CacheItem>, syncToken: string, ghost all: seq<CacheItem>)
    modifies db`tokens, session
    ensures ok ==>
      && IsListOf(db.records, all) && Loadable(tools, all)
      && IsDirtyList(db.records, dirty) && (forall d :: d in dirty ==> ValidRecord(d))
      && KeysLoaded(tools, all, old(session.Keys()), session.Keys())
      && RightToken(old(db.tokens), now, session.Keys(), db.flaky, syncToken)
    ensures !ok ==> db.flaky || (IsListOf(db.records, all) && !Loadable(tools, all))
    ensures !ok ==> session.Keys() == old(session.Keys()) || KeysLoaded(tools, all, old(session.Keys()), session.Keys())
    ensures db.tokens == old(db.tokens) || (db.tokens == [] && !Usable(old(db.tokens), now))
  {
    ok, dirty, syncToken, all := false, [], "", [];
    var items, failed := db.All();
    all := items;
    if failed {
      return;
    }
    var valid := Validate(items);
    if !valid {
      return;
    }
    if |items| > 0 {
      var cachedKeys := RetrieveItemsKeys(items);
      var parsed := ProcessCachedItemsKeys(session, tools, cachedKeys);
      if !parsed {
        return;
      }
    }
    hide KeysMerged, Keeps, CachedKeys;
    dirty, failed := db.FindDirty();
    if failed {
      return;
    }
    assert forall d :: d in dirty ==> d in all;
    ghost var unreadable;
    syncToken, failed, unreadable := ValidateAndCleanSyncToken(db, now);
    if failed {
      return;
    }
    if session.defaultItemsKey.itemsKey == "" {
      syncToken := "";
    }
    ok := true;
  }

  /** The session's keys once those that came back are read. */
  ghost predicate KeysReturned(tools: Tools, eiks: seq<EncryptedItem>, before: KeyRing, after: KeyRing) {
    if eiks == [] then after == before else KeysMerged(tools, eiks, before, after)
  }

  /**
   Merges the keys that came back, and replaces the stored token, which must not be empty;
   keys that cannot be read leave both alone.
   */
  method Finish(db: Database, session: Session, tools: Tools, eiks: seq<EncryptedItem>, syncToken: string, now: int)
    returns (ok: bool)
    modifies db`tokens, session
    ensures KeysReturned(tools, eiks, old(session.Keys()), session.Keys())
    ensures !ok ==> db.tokens == old(db.tokens) || db.tokens == [] || db.tokens == [SyncToken(syncToken, now)]
    ensures Keeps(old(session.itemsKeys), session.itemsKeys)
    ensures eiks != [] && tools.parseKeys(eiks).None? ==> ok && db.tokens == old(db.tokens)
    ensures eiks == [] || tools.parseKeys(eiks).Some? ==>
      && (ok ==> db.tokens == [SyncToken(syncToken, now)] && syncToken != "")
      && (!ok ==> db.flaky || syncToken == "")
  {
    KeepsItself(session.itemsKeys);
    if |eiks| > 0 {
      var parsed := ProcessCachedItemsKeys(session, tools, eiks);
      if !parsed {
        return true;  // the error is dropped, and the old token stays
      }
    }
    var failed := db.DropTokens();
    if failed {
      return false;
    }
    failed := db.SaveToken(SyncToken(syncToken, now));
    if failed {
      return false;
    }
    var all;
    all, failed := db.All();
    ok := !failed;
  }

  predicate Readable(tools: Tools, output: SyncOutput) {
    LiveKeys(output.items) == [] || tools.parseKeys(LiveKeys(output.items)).Some?
  }

  /**
   The token of an output is stored, unless it holds keys that cannot be read: then the old
   one stays, if it was not dropped before the call.
   */
  predicate TokenMoved(tools: Tools, output: SyncOutput, now: int, before: seq<SyncToken>, after: seq<SyncToken>) {
    if Readable(tools, output) then after == [SyncToken(output.syncToken, now)]
    else after == before || (after == [] && !Usable(before, now))
  }

  lemma TokenMovedLater(tools: Tools, output: SyncOutput, now: int,
                        before: seq<SyncToken>, between: seq<SyncToken>, after: seq<SyncToken>)
    requires between == before || (between == [] && !Usable(before, now))
    requires TokenMoved(tools, output, now, between, after)
    ensures TokenMoved(tools, output, now, before, after)
  {
  }

  /** Nothing but a flaky database stops an output from being written. */
  predicate Acceptable(tools: Tools, output: SyncOutput) {
    Writable(output) && (Readable(tools, output) ==> output.syncToken != "")
  }

  // What a sync of the cache finds and leaves.
  datatype Stored = Stored(records: Table, tokens: seq<SyncToken>, keys: KeyRing)

  /** What a full sync does to the records, the token and the session's keys. */
  ghost predicate IsSettlement(tools: Tools, output: SyncOutput, now: int, stuck: set<string>,
                               before: Stored, after: Stored)
  {
    && Agrees(before.records, stuck, output.savedItems, output.items, after.records)
    && DirtyExactly(before.records, stuck, output.savedItems, output.items, after.records)
    && TokenMoved(tools, output, now, before.tokens, after.tokens)
    && KeysReturned(tools, LiveKeys(output.items), before.keys, after.keys)
  }

  /** What is left when writing an output fails: whole batches of its steps, or all of them without its token. */
  ghost predicate IsInterrupted(output: SyncOutput, now: int, dirty: seq<CacheItem>, stuck: set<string>,
                                before: Stored, after: Stored)
  {
    || (PartlyWritten(before.records, dirty, stuck, output, after.records) && after.tokens == before.tokens)
    || (&& after.records == Reconciled(before.records, dirty, stuck, output.savedItems, output.items)
        && after.tokens in [before.tokens, [], [SyncToken(output.syncToken, now)]])
  }

  function Snapshot(db: Database, session: Session): Stored
    reads db, session
  {
    Stored(db.records, db.tokens, session.Keys())
  }

  /** Everything after the server has answered. */
  method Settle(db: Database, session: Session, tools: Tools, dirty: seq<CacheItem>, gSO: SyncOutput,
                ghost pages: seq<Exchange>, now: int, ghost typeOf: string -> string)
    returns (ok: bool)
    requires IsDirtyList(db.records, dirty) && IsSettled(Pushable(dirty), pages, gSO)
    modifies db`records, db`staged, db`tokens, session
    ensures ok ==> IsSettlement(tools, gSO, now, db.stuck, old(Snapshot(db, session)), Snapshot(db, session))
    ensures !ok ==> db.flaky || !Acceptable(tools, gSO)
    ensures !ok ==> IsInterrupted(gSO, now, dirty, db.stuck, old(Snapshot(db, session)), Snapshot(db, session))
    ensures TypedPages(pages, typeOf) ==> SafeStep(old(db.records), db.records, typeOf)
  {
    hide Agrees, IsDirtyList, IsSettled, TypedPages, SafeStep, DirtyExactly, Writable, Keeps, KeysMerged, PartlyWritten,
         Reconciled;
    ok := false;
    var failed, eiks;
    failed, eiks := WriteOutput(db, dirty, gSO, pages, typeOf);
    if failed {
      return;
    }
    StaysDirtyExactly(old(db.records), db.stuck, gSO.savedItems, gSO.items, db.records);
    ok := Finish(db, session, tools, eiks, gSO.syncToken, now);
  }

  /**
   How a sync that is not skipped ends: settled; or interrupted, because the database is flaky or
   the output cannot be stored; or, when the calls fail, as it began but for the session's keys.
   */
  ghost predicate HasEnded(tools: Tools, now: int, flaky: bool, stuck: set<string>, dirty: seq<CacheItem>,
                           before: Stored, after: Stored, ok: bool, calls: seq<Rounds>, left: KeyRing,
                           output: SyncOutput)
  {
    if !CameThrough(tools, calls, output) then !ok && after == before.(keys := left)
    else if ok then IsSettlement(tools, output, now, stuck, before.(keys := left), after)
    else (flaky || !Acceptable(tools, output)) && IsInterrupted(output, now, dirty, stuck, before, after)
  }

  /** A sync that is not skipped: the dirty records are pushed, and the answer is written. */
  method PushAndSettle(db: Database, session: Session, server: Server, tools: Tools, dirty: seq<CacheItem>,
                       push: seq<EncryptedItem>, syncToken: string, now: int, ghost typeOf: string -> string)
    returns (ok: bool, ghost output: SyncOutput, ghost calls: seq<Rounds>, ghost left: KeyRing)
    requires IsDirtyList(db.records, dirty) && push == Pushable(dirty)
    modifies db`records, db`staged, db`tokens, session, server
    ensures IsCalls(tools, SyncInput(push, 0, 0, syncToken, ""), old(Point(server.script, session.Keys())),
                    calls, Point(server.script, left))
    ensures server.accepted == old(server.accepted) + SentBy(calls)
    ensures HasEnded(tools, now, db.flaky, db.stuck, dirty, old(Snapshot(db, session)), Snapshot(db, session),
                     ok, calls, left, output)
    ensures TypedPages(SentBy(calls), typeOf) ==> SafeStep(old(db.records), db.records, typeOf)
  {
    SafeStart(db.records, typeOf);
    assert Ample(0, 1);
    FilterKeepsAll(push);
    hide SafeStep, IsDirtyList, Ample, Filtered, TypedPages, IsSettlement, IsSettled, IsSync, IsDelivered, IsCall,
         IsGuarded, Failed, SentBy, Acceptable, PartlyWritten, Reconciled;
    ok := false;
    var gSO, failed;
    gSO, failed, calls := CallItemsSync(server, session, tools, SyncInput(push, 0, 0, syncToken, ""));
    output, left := gSO, session.Keys();
    if failed {
      FailedIsNoSync(tools, calls, output);
      return;
    }
    ghost var t := calls[|calls| - 1];
    if TypedPages(SentBy(calls), typeOf) {
      LaterPages(calls, typeOf);
    }
    ok := Settle(db, session, tools, dirty, gSO, t.first + t.second, now, typeOf);
  }

  lemma FailedIsNoSync(tools: Tools, calls: seq<Rounds>, output: SyncOutput)
    requires calls != [] && Failed(tools, calls[|calls| - 1])
    ensures !CameThrough(tools, calls, output)
  {
  }

  // What happened in a sync of the cache: whether it was prepared, with which records, token and
  // keys, its calls of the items sync with the keys they left, and the output of the last of them.
  datatype Trace = Trace(
    ready: bool, all: seq<CacheItem>, dirty: seq<CacheItem>, syncToken: string, loaded: KeyRing,
    calls: seq<Rounds>, left: KeyRing, output: SyncOutput)

  /** There is nothing to push, and the last sync is recent. */
  predicate MaySkip(dirty: seq<CacheItem>, syncToken: string, tokens: seq<SyncToken>, now: int) {
    && Pushable(dirty) == [] && syncToken != ""
    && |tokens| == 1 && now - tokens[0].createdAt < MIN_SYNC_INTERVAL
  }

  /** A token is only ever dropped before a call because it is not usable. */
  predicate TokenKept(now: int, before: seq<SyncToken>, after: seq<SyncToken>) {
    after == before || (after == [] && !Usable(before, now))
  }

  /**
   How a sync of the cache ends. One that is not ready found something invalid and sent nothing;
   one that is skipped changed nothing; a full one has the server accept every item to push, leaves
   the records in agreement with its output, with exactly the stuck records dirty that it says
   nothing of, and moves the token on. Otherwise the last call failed, and the records are
   untouched, or its output could not be stored, and whole batches of it are written. Only a flaky
   database makes any other end possible.
   */
  ghost predicate IsCacheSync(tools: Tools, now: int, flaky: bool, stuck: set<string>, before: Stored, after: Stored,
                              result: SyncResult, x: Trace)
  {
    if !x.ready then
      && result.Broken? && (flaky || (IsListOf(before.records, x.all) && !Loadable(tools, x.all)))
      && x.calls == [] && after.records == before.records && TokenKept(now, before.tokens, after.tokens)
      && (after.keys == before.keys || KeysLoaded(tools, x.all, before.keys, after.keys))
    else
      && IsDirtyList(before.records, x.dirty) && KeysLoaded(tools, x.all, before.keys, x.loaded)
      && RightToken(before.tokens, now, x.loaded, flaky, x.syncToken)
      && (!result.Skipped? ==> flaky || !MaySkip(x.dirty, x.syncToken, before.tokens, now))
      && match result
         case Skipped =>
           && x.calls == [] && MaySkip(x.dirty, x.syncToken, before.tokens, now)
           && after == before.(keys := x.loaded)
         case Synced =>
           && CameThrough(tools, x.calls, x.output)
           && IsSettlement(tools, x.output, now, stuck, before.(keys := x.left), after)
         case Broken => IsBroken(tools, now, flaky, stuck, before, after, x)
  }

  ghost predicate IsBroken(tools: Tools, now: int, flaky: bool, stuck: set<string>, before: Stored, after: Stored,
                           x: Trace)
  {
    if CameThrough(tools, x.calls, x.output) then
      && (flaky || !Acceptable(tools, x.output))
      && exists between :: TokenKept(now, before.tokens, between)
           && IsInterrupted(x.output, now, x.dirty, stuck, before.(tokens := between), after)
    else after.records == before.records && TokenKept(now, before.tokens, after.tokens) && after.keys == x.left
  }

  /** What is prepared: the dirty records, the session's keys with the stored ones, and a token to send. */
  ghost predicate IsPrepared(tools: Tools, now: int, flaky: bool, before: Stored, between: Stored, x: Trace) {
    && x.ready && x.calls == []
    && IsDirtyList(before.records, x.dirty) && KeysLoaded(tools, x.all, before.keys, x.loaded)
    && between.records == before.records && TokenKept(now, before.tokens, between.tokens) && between.keys == x.loaded
    && RightToken(before.tokens, now, x.loaded, flaky, x.syncToken)
  }

  /** A sync that is prepared: it is skipped, or the dirty records are pushed and the answer is written. */
  method SkipOrPush(db: Database, session: Session, server: Server, tools: Tools, dirty: seq<CacheItem>,
                    token: string, now: int, ghost before: Stored, ghost ready: Trace, ghost typeOf: string -> string)
    returns (result: SyncResult, ghost x: Trace)
    requires IsPrepared(tools, now, db.flaky, before, Snapshot(db, session), ready) && dirty == ready.dirty
    requires token == ready.syncToken && forall d :: d in dirty ==> ValidRecord(d)
    modifies db`records, db`staged, db`tokens, session, server
    ensures x == ready.(calls := x.calls, left := x.left, output := x.output)
    ensures IsCalls(tools, SyncInput(Pushable(dirty), 0, 0, token, ""),
                    Point(old(server.script), x.loaded), x.calls, Point(server.script, x.left))
    ensures server.accepted == old(server.accepted) + SentBy(x.calls)
    ensures TypedPages(SentBy(x.calls), typeOf) ==> SafeStep(old(db.records), db.records, typeOf)
    ensures IsCacheSync(tools, now, db.flaky, db.stuck, before, Snapshot(db, session), result, x)
  {
    SafeStart(db.records, typeOf);
    NothingSent(tools, server.script);
    ghost var between := Snapshot(db, session);
    TokenSent(before.tokens, between.tokens, now, ready.loaded, db.flaky, token);
    x := ready.(left := ready.loaded);
    hide SafeStep, IsDirtyList, CameThrough, TypedPages, IsSettlement, ValidRecord, Pushable, KeysLoaded, Acceptable,
         IsCacheSync, RightToken, TokenKept, IsCalls, SentBy, IsInterrupted, HasEnded;
    var push := DirtyItemsToPush(dirty);
    if |push| == 0 && token != "" {
      var unreadable := db.Fails();
      if !unreadable && |db.tokens| == 1 && now - db.tokens[0].createdAt < MIN_SYNC_INTERVAL {
        result := Skipped;
        EndsSkipped(tools, now, db.flaky, db.stuck, before, x);
        return;
      }
    }
    assert !db.flaky ==> !MaySkip(dirty, token, before.tokens, now);
    hide MaySkip;
    var ok;
    ghost var output, calls, left;
    ok, output, calls, left := PushAndSettle(db, session, server, tools, dirty, push, token, now, typeOf);
    x := x.(calls := calls, left := left, output := output);
    result := if ok then Synced else Broken;
    EndsPushed(tools, now, db.flaky, db.stuck, before, between, Snapshot(db, session), result, x);
  }

  /**
   One sync of the cache. Whatever happens, all it sends are at most three calls of the items
   sync with the dirty records that may be pushed, whose first rounds delete nothing protected;
   and if the server never changes the type of an identifier, every protected record survives.
   */
  method Sync(db: Database, session: Session, server: Server, tools: Tools, now: int, ghost typeOf: string -> string)
    returns (result: SyncResult, ghost x: Trace)
    modifies db`records, db`staged, db`tokens, session, server
    ensures IsCalls(tools, SyncInput(Pushable(x.dirty), 0, 0, x.syncToken, ""),
                    Point(old(server.script), x.loaded), x.calls, Point(server.script, x.left))
    ensures server.accepted == old(server.accepted) + SentBy(x.calls)
    ensures TypedPages(SentBy(x.calls), typeOf) ==> SafeStep(old(db.records), db.records, typeOf)
    ensures IsCacheSync(tools, now, db.flaky, db.stuck, old(Snapshot(db, session)), Snapshot(db, session), result, x)
  {
    SafeStart(db.records, typeOf);
    NothingSent(tools, server.script);
    ghost var before := Snapshot(db, session);
    result, x := Broken, Trace(false, [], [], "", before.keys, [], before.keys, NO_OUTPUT);
    hide SafeStep, IsDirtyList, TypedPages, ValidRecord, Pushable, Loadable, IsListOf, KeysLoaded, IsCacheSync,
         RightToken, Usable, IsCalls, SentBy;
    var ok, dirty, token;
    ghost var all;
    ok, dirty, token, all := Prepare(db, session, tools, now);
    x := x.(ready := ok, all := all);
    if !ok {
      EndsUnprepared(tools, now, db.flaky, db.stuck, before, Snapshot(db, session), x);
      return;
    }
    x := x.(dirty := dirty, syncToken := token, loaded := session.Keys());
    result, x := SkipOrPush(db, session, server, tools, dirty, token, now, before, x, typeOf);
  }

  lemma NothingSent(tools: Tools, script: seq<Step>)
    ensures forall push, keys :: IsCalls(tools, push, Point(script, keys), [], Point(script, keys))
    ensures SentBy([]) == []
  {
  }

  /** A token that is sent is still stored. */
  lemma TokenSent(tokens: seq<SyncToken>, between: seq<SyncToken>, now: int, keys: KeyRing, flaky: bool, token: string)
    requires RightToken(tokens, now, keys, flaky, token) && TokenKept(now, tokens, between)
    ensures token != "" ==> between == tokens && |tokens| == 1
  {
  }

  lemma EndsUnprepared(tools: Tools, now: int, flaky: bool, stuck: set<string>, before: Stored, after: Stored, x: Trace)
    requires !x.ready && (flaky || (IsListOf(before.records, x.all) && !Loadable(tools, x.all)))
    requires x.calls == [] && after.records == before.records
    requires after.tokens == before.tokens || (after.tokens == [] && !Usable(before.tokens, now))
    requires after.keys == before.keys || KeysLoaded(tools, x.all, before.keys, after.keys)
    ensures IsCacheSync(tools, now, flaky, stuck, before, after, Broken, x)
  {
  }

  lemma EndsSkipped(tools: Tools, now: int, flaky: bool, stuck: set<string>, before: Stored, x: Trace)
    requires x.ready && IsDirtyList(before.records, x.dirty) && x.calls == []
    requires KeysLoaded(tools, x.all, before.keys, x.loaded)
    requires RightToken(before.tokens, now, x.loaded, flaky, x.syncToken)
    requires MaySkip(x.dirty, x.syncToken, before.tokens, now)
    ensures IsCacheSync(tools, now, flaky, stuck, before, before.(keys := x.loaded), Skipped, x)
  {
  }

  lemma EndsPushed(tools: Tools, now: int, flaky: bool, stuck: set<string>,
                   before: Stored, between: Stored, after: Stored, result: SyncResult, x: Trace)
    requires x.ready && IsDirtyList(before.records, x.dirty) && KeysLoaded(tools, x.all, before.keys, x.loaded)
    requires RightToken(before.tokens, now, x.loaded, flaky, x.syncToken)
    requires flaky || !MaySkip(x.dirty, x.syncToken, before.tokens, now)
    requires between.records == before.records
    requires between.tokens == before.tokens || (between.tokens == [] && !Usable(before.tokens, now))
    requires HasEnded(tools, now, flaky, stuck, x.dirty, between, after, result.Synced?, x.calls, x.left, x.output)
    requires !result.Skipped?
    ensures IsCacheSync(tools, now, flaky, stuck, before, after, result, x)
  {
    hide CameThrough, Acceptable, KeysLoaded, IsDirtyList, MaySkip, Usable, RightToken;
    if result.Synced? {
      SettlementLater(tools, x.output, now, stuck, before.(keys := x.left), between.(keys := x.left), after);
    } else if CameThrough(tools, x.calls, x.output) {
      InterruptedLater(x.output, now, x.dirty, stuck, before, between, after);
    }
  }

  lemma SettlementLater(tools: Tools, output: SyncOutput, now: int, stuck: set<string>,
                        before: Stored, between: Stored, after: Stored)
    requires between.records == before.records && between.keys == before.keys
    requires between.tokens == before.tokens || (between.tokens == [] && !Usable(before.tokens, now))
    requires IsSettlement(tools, output, now, stuck, between, after)
    ensures IsSettlement(tools, output, now, stuck, before, after)
  {
    TokenMovedLater(tools, output, now, before.tokens, between.tokens, after.tokens);
  }

  lemma InterruptedLater(output: SyncOutput, now: int, dirty: seq<CacheItem>, stuck: set<string>,
                         before: Stored, between: Stored, after: Stored)
    requires between.records == before.records
    requires IsInterrupted(output, now, dirty, stuck, between, after)
    ensures IsInterrupted(output, now, dirty, stuck, before.(tokens := between.tokens), after)
  {
    hide PartlyWritten, Reconciled;
  }

  /** So nothing is dirty after a full sync when no dirty record was stuck. */
  lemma NothingDirtyAfter(tools: Tools, output: SyncOutput, now: int, stuck: set<string>,
                          before: Stored, after: Stored)
    requires IsSettlement(tools, output, now, stuck, before, after)
    requires forall u :: IsDirty(before.records, u) ==> u !in stuck
    ensures forall u :: u in after.records ==> !after.records[u].dirty
  {
    forall u | u in after.records ensures !after.records[u].dirty {
      assert !IsDirty(after.records, u);
    }
  }

  // What the database is like during one sync.
  datatype Weather = Weather(now: int, flaky: bool, stuck: set<string>)

  /** Calls of any syncs: each is guarded, which holds whether it succeeded or not. */
  ghost predicate AllGuarded(tools: Tools, calls: seq<Rounds>) {
    forall t :: t in calls ==> IsCall(tools, t) && IsGuarded(t)
  }

  lemma {:induction false} CallsAreGuarded(tools: Tools, push: SyncInput, start: Point, calls: seq<Rounds>, end: Point)
    requires IsCalls(tools, push, start, calls, end)
    ensures AllGuarded(tools, calls) && |calls| <= 3
  {
    hide IsCall, IsGuarded, Failed;
    if calls != [] {
      var t := calls[|calls| - 1];
      CallsAreGuarded(tools, push, start, calls[..|calls| - 1], t.start);
      assert forall x :: x in calls ==> x == t || x in calls[..|calls| - 1];
    }
  }

  lemma {:induction false} SentInTurn(a: seq<Rounds>, b: seq<Rounds>)
    ensures SentBy(a + b) == SentBy(a) + SentBy(b)
  {
    if b == [] {
      assert a + b == a;
    } else {
      var t := b[|b| - 1];
      assert (a + b)[..|a + b| - 1] == a + b[..|b| - 1];
      SentInTurn(a, b[..|b| - 1]);
    }
  }

  /**
   Any number of syncs, each at a time of its own and with failures of the database of its own.
   All that the server accepts are at most three calls for each, of which no first round
   deletes anything protected; and if the server never changes the type of an identifier, every
   protected record survives them all.
   */
  method SyncMany(db: Database, session: Session, server: Server, tools: Tools, weather: seq<Weather>,
                  ghost typeOf: string -> string)
    returns (ghost calls: seq<Rounds>)
    modifies db, session, server
    ensures server.accepted == old(server.accepted) + SentBy(calls)
    ensures AllGuarded(tools, calls) && |calls| <= 3 * |weather|
    ensures TypedPages(SentBy(calls), typeOf) && TypedTable(old(db.records), typeOf) ==>
      TypedTable(db.records, typeOf) && KeepsProtected(old(db.records), db.records)
  {
    calls := [];
    SafeStart(db.records, typeOf);
    hide TypedPages, IsSettlement, CameThrough, Acceptable, Loadable, IsListOf, IsDirtyList, MaySkip, IsCall, IsCalls,
         IsGuarded;
    for n := 0 to |weather|
      invariant server.accepted == old(server.accepted) + SentBy(calls)
      invariant AllGuarded(tools, calls) && |calls| <= 3 * n
      invariant TypedPages(SentBy(calls), typeOf) ==> SafeStep(old(db.records), db.records, typeOf)
    {
      ghost var records, script := db.records, server.script;
      db.flaky, db.stuck := weather[n].flaky, weather[n].stuck;
      var result;
      ghost var x;
      result, x := Sync(db, session, server, tools, weather[n].now, typeOf);
      CallsAreGuarded(tools, SyncInput(Pushable(x.dirty), 0, 0, x.syncToken, ""), Point(script, x.loaded), x.calls,
                      Point(server.script, x.left));
      SentInTurn(calls, x.calls);
      AppendAssociative(old(server.accepted), SentBy(calls), SentBy(x.calls));
      if TypedPages(SentBy(calls + x.calls), typeOf) {
        TypedInTurn(SentBy(calls), SentBy(x.calls), typeOf);
        SafeSteps(old(db.records), records, db.records, typeOf);
      }
      calls := calls + x.calls;
    }
  }
}
