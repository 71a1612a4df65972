/** The cache database: a map of records written in transactions of at most 500 items. */
module Store {
  import opened Prelude
  import opened Records
  import opened Newest

  const BATCH_SIZE := 500
  const NO_DATE := 0

  datatype CacheItem = CacheItem(
    uuid: string, content: string, contentType: string, itemsKeyId: string, encItemKey: string,
    createdAt: string, updatedAt: string, duplicateOf: Option<string>, dirtiedDate: int,
    createdAtTimestamp: int, updatedAtTimestamp: int, deleted: bool, dirty: bool)

  datatype SyncToken = SyncToken(token: string, createdAt: int)

  function ItemUuid(item: CacheItem): string { item.uuid }

  predicate Keyed(records: map<string, CacheItem>) {
    forall u :: u in records ==> records[u].uuid == u
  }

  /** Records by their identifiers. */
  type Table = records: map<string, CacheItem> | Keyed(records)

  datatype Change = Done | NotFound | Failed

  /**
   A database. One writing transaction is open at a time; only a commit that succeeds changes
   the records. What can go wrong is fixed before a call: a flaky database may fail any
   operation, and clearing the dirty mark fails for exactly the records that are stuck.
   */
  class Database {
    var records: Table
    var staged: Table
    var tokens: seq<SyncToken>
    var flaky: bool
    var stuck: set<string>

    constructor (flaky: bool, stuck: set<string>)
      ensures records == map[] && tokens == []
      ensures this.flaky == flaky && this.stuck == stuck
    {
      records, staged, tokens := map[], map[], [];
      this.flaky, this.stuck := flaky, stuck;
    }

    /** Whether an operation fails, which only happens to a flaky database. */
    method Fails() returns (fails: bool)
      ensures fails ==> flaky
    {
      fails := *;
      fails := fails && flaky;
    }

    method Begin() returns (failed: bool)
      modifies this`staged
      ensures failed ==> flaky
      ensures !failed ==> staged == records
    {
      failed := Fails();
      if !failed {
        staged := records;
      }
    }

    /** A record without an identifier is refused. */
    method Save(item: CacheItem) returns (failed: bool)
      modifies this`staged
      ensures item.uuid == "" ==> failed
      ensures failed ==> flaky || item.uuid == ""
      ensures staged == if failed then old(staged) else old(staged)[item.uuid := item]
    {
      failed := Fails();
      failed := failed || item.uuid == "";
      if !failed {
        staged := staged[item.uuid := item];
      }
    }

    method Delete(uuid: string) returns (change: Change)
      modifies this`staged
      ensures change.Failed? ==> flaky
      ensures change.NotFound? ==> uuid !in old(staged)
      ensures staged == if change.Done? then old(staged) - {uuid} else old(staged)
    {
      var fails := Fails();
      change := if fails then Failed else if uuid in staged then Done else NotFound;
      if change.Done? {
        staged := staged - {uuid};
      }
    }

    method ClearDirty(uuid: string) returns (change: Change)
      modifies this`staged
      ensures change == if uuid in stuck then Failed else if uuid in old(staged) then Done else NotFound
      ensures staged ==
        if change.Done? then old(staged)[uuid := old(staged)[uuid].(dirty := false)] else old(staged)
    {
      change := if uuid in stuck then Failed else if uuid in staged then Done else NotFound;
      if change.Done? {
        staged := staged[uuid := staged[uuid].(dirty := false)];
      }
    }

    method ClearDirtiedDate(uuid: string) returns (change: Change)
      modifies this`staged
      ensures change.Failed? ==> flaky
      ensures change.NotFound? ==> uuid !in old(staged)
      ensures change.Done? ==> uuid in old(staged)
      ensures staged ==
        if change.Done? then old(staged)[uuid := old(staged)[uuid].(dirtiedDate := NO_DATE)] else old(staged)
    {
      var fails := Fails();
      change := if fails then Failed else if uuid in staged then Done else NotFound;
      if change.Done? {
        staged := staged[uuid := staged[uuid].(dirtiedDate := NO_DATE)];
      }
    }

    method Commit() returns (failed: bool)
      modifies this`records
      ensures failed ==> flaky
      ensures records == if failed then old(records) else staged
    {
      failed := Fails();
      if !failed {
        records := staged;
      }
    }

    method Close() returns (failed: bool)
      ensures failed ==> flaky
    {
      failed := Fails();
    }

    method All() returns (items: seq<CacheItem>, failed: bool)
      ensures failed ==> flaky
      ensures !failed ==> Distinct(ItemUuid, items)
      ensures !failed ==> forall x :: x in items <==> x.uuid in records && records[x.uuid] == x
    {
      failed := Fails();
      items := ValuesInSomeOrder(records, ItemUuid);
    }

    method FindDirty() returns (items: seq<CacheItem>, failed: bool)
      ensures failed ==> flaky
      ensures !failed ==> Distinct(ItemUuid, items)
      ensures !failed ==> forall x :: x in items <==> x.uuid in records && records[x.uuid] == x && x.dirty
    {
      failed := Fails();
      items := ValuesInSomeOrder(map u | u in records && records[u].dirty :: records[u], ItemUuid);
    }

    method FindUuid(uuid: string) returns (items: seq<CacheItem>, failed: bool)
      ensures failed ==> flaky
      ensures !failed ==> items == if uuid in records then [records[uuid]] else []
    {
      failed := Fails();
      items := if uuid in records then [records[uuid]] else [];
    }

    method DropTokens() returns (failed: bool)
      modifies this`tokens
      ensures failed ==> flaky
      ensures tokens == if failed then old(tokens) else []
    {
      failed := Fails();
      if !failed {
        tokens := [];
      }
    }

    /** An empty token is refused. */
    method SaveToken(token: SyncToken) returns (failed: bool)
      requires tokens == []
      modifies this`tokens
      ensures token.token == "" ==> failed
      ensures failed ==> flaky || token.token == ""
      ensures tokens == if failed then [] else [token]
    {
      failed := Fails();
      if token.token == "" {
        failed := true;
      }
      if !failed {
        tokens := [token];
      }
    }
  }

  // ---- Protected records

  /** A deleted protected item is never written to the cache, and never deleted from it. */
  predicate Refused(item: CacheItem) {
    IsProtectedType(item.contentType) && item.deleted
  }

  function SafeItems(items: seq<CacheItem>): (safe: seq<CacheItem>)
    ensures forall x :: x in safe <==> x in items && !Refused(x)
  {
    if items == [] then []
    else
      var last := items[|items| - 1];
      SafeItems(items[..|items| - 1]) + if Refused(last) then [] else [last]
  }

  lemma {:induction false} AllSafe(items: seq<CacheItem>)
    requires forall x :: x in items ==> !Refused(x)
    ensures SafeItems(items) == items
  {
    if items != [] {
      var front := items[..|items| - 1];
      assert items == front + [items[|items| - 1]];
      AllSafe(items[..|items| - 1]);
    }
  }

  method FilterProtectedItems(items: seq<CacheItem>) returns (safeItems: seq<CacheItem>)
    ensures safeItems == SafeItems(items)
    ensures forall x :: x in safeItems <==>
      x in items && !(x.deleted && x.contentType in ["SN|ItemsKey", "SN|UserPreferences"])
  {
    safeItems := [];
    for i := 0 to |items|
      invariant safeItems == SafeItems(items[..i])
    {
      var item := items[i];
      assert items[..i + 1][..i] == items[..i];
      if item.contentType == ITEMS_KEY && item.deleted {
        continue;
      }
      if item.contentType == USER_PREFERENCES && item.deleted {
        continue;
      }
      safeItems := safeItems + [item];
    }
    assert items[..|items|] == items;
  }

  // ---- What the batched operations do to the records, unbatched

  function Saved(records: Table, items: seq<CacheItem>): Table {
    if items == [] then records
    else
      var last := items[|items| - 1];
      Saved(records, items[..|items| - 1])[last.uuid := last]
  }

  function Deleted(records: Table, items: seq<CacheItem>): Table {
    if items == [] then records
    else Deleted(records, items[..|items| - 1]) - {items[|items| - 1].uuid}
  }

  function CleanedItem(item: CacheItem, stuck: set<string>): CacheItem {
    item.(dirty := item.dirty && item.uuid in stuck, dirtiedDate := NO_DATE)
  }

  /** Marks each listed record as clean, except those whose dirty mark is stuck. */
  function Cleaned(records: Table, items: seq<CacheItem>, stuck: set<string>): Table {
    if items == [] then records
    else
      var before := Cleaned(records, items[..|items| - 1], stuck);
      var u := items[|items| - 1].uuid;
      if u in before then before[u := CleanedItem(before[u], stuck)] else before
  }

  lemma {:induction false} SavedAppend(records: Table, a: seq<CacheItem>, b: seq<CacheItem>)
    ensures Saved(Saved(records, a), b) == Saved(records, a + b)
  {
    if b == [] {
      assert a + b == a;
    } else {
      assert (a + b)[..|a + b| - 1] == a + b[..|b| - 1];
      SavedAppend(records, a, b[..|b| - 1]);
    }
  }

  lemma {:induction false} DeletedAppend(records: Table, a: seq<CacheItem>, b: seq<CacheItem>)
    ensures Deleted(Deleted(records, a), b) == Deleted(records, a + b)
  {
    if b == [] {
      assert a + b == a;
    } else {
      assert (a + b)[..|a + b| - 1] == a + b[..|b| - 1];
      DeletedAppend(records, a, b[..|b| - 1]);
    }
  }

  lemma {:induction false} CleanedAppend(records: Table, a: seq<CacheItem>, b: seq<CacheItem>, stuck: set<string>)
    ensures Cleaned(Cleaned(records, a, stuck), b, stuck) == Cleaned(records, a + b, stuck)
  {
    if b == [] {
      assert a + b == a;
    } else {
      assert (a + b)[..|a + b| - 1] == a + b[..|b| - 1];
      CleanedAppend(records, a, b[..|b| - 1], stuck);
    }
  }

  // ---- The batched operations

  /** The records after a whole number of batches were saved, short of the end. */
  ghost predicate SavedPrefix(before: Table, items: seq<CacheItem>, after: Table) {
    exists batches: nat :: batches * 500 <= |items| && after == Saved(before, items[..batches * 500])
  }

  ghost predicate DeletedPrefix(before: Table, items: seq<CacheItem>, after: Table) {
    exists batches: nat :: batches * 500 <= |items| && after == Deleted(before, items[..batches * 500])
  }

  ghost predicate CleanedPrefix(before: Table, items: seq<CacheItem>, stuck: set<string>, after: Table) {
    exists batches: nat :: batches * 500 <= |items|
      && after == Cleaned(before, items[..batches * 500], stuck)
  }

  /** Every item can be saved. */
  predicate AllNamed(items: seq<CacheItem>) {
    forall x :: x in items ==> x.uuid != ""
  }

  /** Saves one batch in a transaction of its own: all of it, or nothing. */
  method SaveBatch(db: Database, sl: seq<CacheItem>) returns (failed: bool)
    modifies db`records, db`staged
    ensures failed ==> db.flaky || !AllNamed(sl)
    ensures db.records == if failed then old(db.records) else Saved(old(db.records), sl)
  {
    failed := db.Begin();
    if failed {
      return;
    }
    for v := 0 to |sl|
      invariant db.records == old(db.records) && db.staged == Saved(old(db.records), sl[..v])
    {
      assert sl[..v + 1][..v] == sl[..v];
      failed := db.Save(sl[v]);
      if failed {
        return;
      }
    }
    assert sl[..|sl|] == sl;
    failed := db.Commit();
  }

  lemma SaveStep(before: Table, items: seq<CacheItem>, i: nat, j: nat)
    requires i <= j <= |items|
    ensures Saved(Saved(before, items[..i]), items[i..j]) == Saved(before, items[..j])
    ensures j == |items| ==> items[..j] == items
    ensures Saved(before, items[..0]) == before
  {
    assert items[..i] + items[i..j] == items[..j];
    SavedAppend(before, items[..i], items[i..j]);
  }

  method SaveBatches(db: Database, items: seq<CacheItem>) returns (failed: bool)
    modifies db`records, db`staged
    ensures failed ==> db.flaky || !AllNamed(items)
    ensures !failed ==> db.records == Saved(old(db.records), items)
    ensures failed ==> SavedPrefix(old(db.records), items, db.records)
  {
    ghost var before := db.records;
    var total := |items|;
    var i := 0;
    ghost var batches: nat := 0;
    failed := false;
    SaveStep(before, items, 0, 0);
    hide Saved;
    while i < total
      invariant i == batches * BATCH_SIZE
      invariant db.records == Saved(before, items[..Min(i, total)])
    {
      var j := Min(i + BATCH_SIZE, total);
      SaveStep(before, items, i, j);
      failed := SaveBatch(db, items[i..j]);
      if failed {
        return;
      }
      i, batches := i + BATCH_SIZE, batches + 1;
    }
    SaveStep(before, items, total, total);
  }

  /**
   Saving equals the unbatched fold over what is not refused. On an error the records are the
   old ones with a whole number of batches applied, and nothing of the batch that failed.
   */
  method SaveCacheItems(db: Database, items: seq<CacheItem>, close: bool) returns (failed: bool)
    modifies db`records, db`staged
    ensures items == [] ==> failed && db.records == old(db.records)
    ensures failed ==> db.flaky || items == [] || !AllNamed(SafeItems(items))
    ensures !failed ==> db.records == Saved(old(db.records), SafeItems(items))
    ensures failed ==>
      || SavedPrefix(old(db.records), SafeItems(items), db.records)
      || (close && db.records == Saved(old(db.records), SafeItems(items)))
  {
    if items == [] {
      SaveStep(db.records, SafeItems(items), 0, 0);
      assert SafeItems(items)[..0 * BATCH_SIZE] == SafeItems(items)[..0];
      return true;
    }
    var safe := FilterProtectedItems(items);
    failed := SaveBatches(db, safe);
    if !failed && close {
      failed := db.Close();
    }
  }

  method DeleteBatch(db: Database, sl: seq<CacheItem>) returns (failed: bool)
    modifies db`records, db`staged
    ensures failed ==> db.flaky
    ensures db.records == if failed then old(db.records) else Deleted(old(db.records), sl)
  {
    failed := db.Begin();
    if failed {
      return;
    }
    for v := 0 to |sl|
      invariant db.records == old(db.records) && db.staged == Deleted(old(db.records), sl[..v])
    {
      assert sl[..v + 1][..v] == sl[..v];
      var change := db.Delete(sl[v].uuid);
      match change {
        case Done =>
        case NotFound =>
          assert Deleted(old(db.records), sl[..v]) - {sl[v].uuid} == Deleted(old(db.records), sl[..v]);
        case Failed =>
          return true;
      }
    }
    assert sl[..|sl|] == sl;
    failed := db.Commit();
  }

  lemma DeleteStep(before: Table, items: seq<CacheItem>, i: nat, j: nat)
    requires i <= j <= |items|
    ensures Deleted(Deleted(before, items[..i]), items[i..j]) == Deleted(before, items[..j])
    ensures j == |items| ==> items[..j] == items
    ensures Deleted(before, items[..0]) == before
  {
    assert items[..i] + items[i..j] == items[..j];
    DeletedAppend(before, items[..i], items[i..j]);
  }

  /** Deleting equals the unbatched fold over what is not refused, with the same atomicity as saving. */
  method DeleteCacheItems(db: Database, items: seq<CacheItem>, close: bool) returns (failed: bool)
    modifies db`records, db`staged
    ensures items == [] ==> failed && db.records == old(db.records)
    ensures failed ==> db.flaky || items == []
    ensures !failed ==> db.records == Deleted(old(db.records), SafeItems(items))
    ensures failed ==>
      || DeletedPrefix(old(db.records), SafeItems(items), db.records)
      || (close && db.records == Deleted(old(db.records), SafeItems(items)))
  {
    ghost var before := db.records;
    if items == [] {
      DeleteStep(before, SafeItems(items), 0, 0);
      assert SafeItems(items)[..0 * BATCH_SIZE] == SafeItems(items)[..0];
      return true;
    }
    var safe := FilterProtectedItems(items);
    if safe == [] {
      return false;
    }
    hide SafeItems;
    failed := DeleteBatches(db, safe);
    if !failed && close {
      failed := db.Close();
    }
  }

  method DeleteBatches(db: Database, items: seq<CacheItem>) returns (failed: bool)
    modifies db`records, db`staged
    ensures failed ==> db.flaky
    ensures !failed ==> db.records == Deleted(old(db.records), items)
    ensures failed ==> DeletedPrefix(old(db.records), items, db.records)
  {
    ghost var before := db.records;
    var total := |items|;
    var i := 0;
    ghost var batches: nat := 0;
    failed := false;
    DeleteStep(before, items, 0, 0);
    hide Deleted;
    while i < total
      invariant i == batches * BATCH_SIZE
      invariant db.records == Deleted(before, items[..Min(i, total)])
    {
      var j := Min(i + BATCH_SIZE, total);
      DeleteStep(before, items, i, j);
      failed := DeleteBatch(db, items[i..j]);
      if failed {
        return;
      }
      i, batches := i + BATCH_SIZE, batches + 1;
    }
    DeleteStep(before, items, total, total);
  }

  /**
   Cleans one record. An error that is met while its dirty mark is cleared is overwritten by
   the outcome of resetting the date: the mark then stays although nothing seems to fail.
   */
  method CleanRecord(db: Database, uuid: string) returns (failed: bool)
    modifies db`staged
    ensures failed ==> db.flaky
    ensures !failed ==>
      if uuid in old(db.staged)
      then db.staged == old(db.staged)[uuid := old(db.staged)[uuid].(
        dirty := old(db.staged)[uuid].dirty && uuid in db.stuck, dirtiedDate := 0)]
      else db.staged == old(db.staged)
  {
    failed := false;
    var change := db.ClearDirty(uuid);
    if change.NotFound? {
      return;
    }
    change := db.ClearDirtiedDate(uuid);
    if change.NotFound? {
      return;
    }
    failed := change.Failed?;
  }

  /** Cleans one batch in a transaction of its own. */
  method CleanBatch(db: Database, sl: seq<CacheItem>) returns (failed: bool)
    modifies db`records, db`staged
    ensures failed ==> db.flaky
    ensures db.records == if failed then old(db.records) else Cleaned(old(db.records), sl, db.stuck)
  {
    failed := db.Begin();
    if failed {
      return;
    }
    for v := 0 to |sl|
      invariant db.records == old(db.records) && db.staged == Cleaned(old(db.records), sl[..v], db.stuck)
    {
      assert sl[..v + 1][..v] == sl[..v];
      failed := CleanRecord(db, sl[v].uuid);
      if failed {
        return;
      }
    }
    assert sl[..|sl|] == sl;
    failed := db.Commit();
  }

  lemma CleanStep(before: Table, items: seq<CacheItem>, i: nat, j: nat, stuck: set<string>)
    requires i <= j <= |items|
    ensures Cleaned(Cleaned(before, items[..i], stuck), items[i..j], stuck) == Cleaned(before, items[..j], stuck)
    ensures j == |items| ==> items[..j] == items
    ensures Cleaned(before, items[..0], stuck) == before
  {
    assert items[..i] + items[i..j] == items[..j];
    CleanedAppend(before, items[..i], items[i..j], stuck);
  }

  /** Cleaning equals the unbatched fold, in which stuck marks stay, with the same atomicity as saving. */
  method CleanCacheItems(db: Database, items: seq<CacheItem>, close: bool) returns (failed: bool)
    modifies db`records, db`staged
    ensures items == [] ==> failed && db.records == old(db.records)
    ensures failed ==> db.flaky || items == []
    ensures !failed ==> db.records == Cleaned(old(db.records), items, db.stuck)
    ensures failed ==>
      || CleanedPrefix(old(db.records), items, db.stuck, db.records)
      || (close && db.records == Cleaned(old(db.records), items, db.stuck))
  {
    ghost var before := db.records;
    CleanStep(before, items, 0, 0, db.stuck);
    var total := |items|;
    var i := 0;
    ghost var batches: nat := 0;
    if items == [] {
      assert items[..batches * BATCH_SIZE] == [];
      return true;
    }
    failed := false;
    hide Cleaned;
    while i < total
      invariant i == batches * BATCH_SIZE
      invariant db.records == Cleaned(before, items[..Min(i, total)], db.stuck)
    {
      var j := Min(i + BATCH_SIZE, total);
      CleanStep(before, items, i, j, db.stuck);
      failed := CleanBatch(db, items[i..j]);
      if failed {
        return;
      }
      i, batches := i + BATCH_SIZE, batches + 1;
    }
    CleanStep(before, items, total, total, db.stuck);
    if close {
      failed := db.Close();
    }
  }

  // ---- Lists of records by identifier

  predicate HasItem(items: seq<CacheItem>, u: string) {
    exists i :: 0 <= i < |items| && items[i].uuid == u
  }

  lemma HasItemSnoc(items: seq<CacheItem>, u: string)
    requires items != []
    ensures HasItem(items, u) <==> HasItem(items[..|items| - 1], u) || items[|items| - 1].uuid == u
  {
    if i :| 0 <= i < |items| && items[i].uuid == u {
      assert i < |items| - 1 ==> items[..|items| - 1][i].uuid == u;
    }
  }
}
