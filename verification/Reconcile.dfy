/** Why the records agree with the server after a cache sync, and why protected ones survive. */
module Reconcile {
  import opened Prelude
  import opened Records
  import opened Newest
  import opened ItemsSync
  import opened Store
  import opened CacheSteps

  /** The records once saved items are written and deleted ones removed, unbatched. */
  function AfterPush(records: Table, saved: seq<EncryptedItem>): Table {
    Deleted(Saved(records, LiveItems(saved)), SafeItems(StoredItems(records, saved)))
  }

  /** The records once the retrieved items are written and deleted ones removed, unbatched. */
  function AfterPull(records: Table, items: seq<EncryptedItem>): Table {
    Deleted(Saved(records, LiveItems(items)), GoneItems(items))
  }

  /** The records after all steps of a sync. */
  function Reconciled(records: Table, dirty: seq<CacheItem>, stuck: set<string>,
                      saved: seq<EncryptedItem>, items: seq<EncryptedItem>): Table
  {
    AfterPull(Cleaned(AfterPush(records, saved), dirty, stuck), items)
  }

  /** The dirty list of a database: its dirty records, each once. */
  ghost predicate IsDirtyList(records: Table, dirty: seq<CacheItem>) {
    && Distinct(ItemUuid, dirty)
    && forall d :: d in dirty <==> d.uuid in records && records[d.uuid] == d && d.dirty
  }

  /** What the items sync promises about its output, for a push of the dirty records. */
  ghost predicate FitsRecords(records: Table, dirty: seq<CacheItem>,
                              saved: seq<EncryptedItem>, items: seq<EncryptedItem>)
  {
    && IsDirtyList(records, dirty)
    && Distinct(Uuid, saved) && Distinct(Uuid, items)
    && (forall x :: x in saved ==> exists y :: y in items && y.uuid == x.uuid)
    && (forall x :: x in saved ==> IsStampedCopy(Pushable(dirty), x))
  }

  // ---- The simple map

  /** The entry of a list for an identifier. */
  function Entry(items: seq<EncryptedItem>, u: string): (entry: Option<EncryptedItem>)
    ensures entry.Some? ==> entry.value in items && entry.value.uuid == u
    ensures entry.None? ==> forall x :: x in items ==> x.uuid != u
  {
    if items == [] then None
    else if items[|items| - 1].uuid == u then Some(items[|items| - 1])
    else Entry(items[..|items| - 1], u)
  }

  function Lookup(records: Table, u: string): Option<CacheItem> {
    if u in records then Some(records[u]) else None
  }

  /** A record the server did not mention: the old one, clean but for a mark that is stuck. */
  function OldRecord(records: Table, stuck: set<string>, u: string): Option<CacheItem> {
    if u in records && records[u].dirty then Some(CleanedItem(records[u], stuck)) else Lookup(records, u)
  }

  /**
   The record of an identifier after a sync. The live entry of the server's output is stored
   clean; an entry that is deleted and not protected leaves no record; otherwise it is the
   item that was saved, or else the old record with its dirty mark cleared, unless it is stuck.
   */
  function Expected(records: Table, stuck: set<string>,
                    saved: seq<EncryptedItem>, items: seq<EncryptedItem>, u: string): Option<CacheItem>
  {
    var entry := Entry(items, u);
    if entry.Some? && !entry.value.deleted then Some(ToCache(entry.value))
    else if entry.Some? && !IsProtectedType(entry.value.contentType) then None
    else
      match Entry(saved, u)
      case Some(x) => if x.deleted then None else Some(ToCache(x))
      case None => OldRecord(records, stuck, u)
  }

  ghost predicate Agrees(records: Table, stuck: set<string>,
                         saved: seq<EncryptedItem>, items: seq<EncryptedItem>, after: Table)
  {
    forall u :: Lookup(after, u) == Expected(records, stuck, saved, items, u)
  }

  // ---- One record through the steps

  lemma {:induction false} LookupSaved(records: Table, items: seq<EncryptedItem>, u: string)
    requires Distinct(Uuid, items)
    ensures var entry := Entry(items, u);
      Lookup(Saved(records, LiveItems(items)), u)
        == if entry.Some? && !entry.value.deleted then Some(ToCache(entry.value)) else Lookup(records, u)
  {
    if items != [] {
      var front, last := items[..|items| - 1], items[|items| - 1];
      DistinctFront(Uuid, items, |items| - 1);
      LookupSaved(records, front, u);
      if last.uuid == u {
        assert Entry(front, u).None?;
      }
    }
  }

  lemma DeletedSnoc(records: Table, items: seq<CacheItem>, last: CacheItem)
    ensures Deleted(records, items + [last]) == Deleted(records, items) - {last.uuid}
  {
    assert (items + [last])[..|items|] == items;
  }

  lemma {:induction false} LookupGone(records: Table, items: seq<EncryptedItem>, u: string)
    requires Distinct(Uuid, items)
    ensures var entry := Entry(items, u);
      Lookup(Deleted(records, GoneItems(items)), u)
        == if entry.Some? && entry.value.deleted && !IsProtectedType(entry.value.contentType) then None
           else Lookup(records, u)
  {
    if items != [] {
      var front, last := items[..|items| - 1], items[|items| - 1];
      var gone := GoneItems(front);
      assert GoneItems(items) ==
        if last.deleted && !IsProtectedType(last.contentType) then gone + [ToCache(last)] else gone;
      DistinctFront(Uuid, items, |items| - 1);
      LookupGone(records, front, u);
      DeletedSnoc(records, gone, ToCache(last));
      assert last.uuid == u ==> Entry(front, u).None?;
      hide Deleted, GoneItems, Distinct;
    }
  }

  lemma {:induction false} LookupStored(r: Table, records: Table, saved: seq<EncryptedItem>, u: string)
    requires Distinct(Uuid, saved)
    ensures var entry := Entry(saved, u);
      Lookup(Deleted(r, StoredItems(records, saved)), u)
        == if entry.Some? && entry.value.deleted && u in records then None else Lookup(r, u)
  {
    if saved != [] {
      var front, last := saved[..|saved| - 1], saved[|saved| - 1];
      DistinctFront(Uuid, saved, |saved| - 1);
      LookupStored(r, records, front, u);
      if last.uuid == u {
        assert Entry(front, u).None?;
      }
    }
  }

  lemma {:induction false} LookupCleaned(records: Table, dirty: seq<CacheItem>, stuck: set<string>, u: string)
    ensures Lookup(Cleaned(records, dirty, stuck), u)
      == if u in records && HasItem(dirty, u) then Some(CleanedItem(records[u], stuck)) else Lookup(records, u)
  {
    if dirty != [] {
      HasItemSnoc(dirty, u);
      LookupCleaned(records, dirty[..|dirty| - 1], stuck, u);
    }
  }

  // ---- What is saved comes from dirty records

  /** A saved item has the identifier, the type and the deletion mark of a dirty record. */
  lemma SavedIsDirty(records: Table, dirty: seq<CacheItem>, x: EncryptedItem)
    requires IsDirtyList(records, dirty) && IsStampedCopy(Pushable(dirty), x)
    ensures !(IsProtectedType(x.contentType) && x.deleted)
    ensures x.uuid in records && records[x.uuid].deleted == x.deleted && records[x.uuid].contentType == x.contentType
  {
    var y :| y in Pushable(dirty) && x == y.(updatedAtTimestamp := x.updatedAtTimestamp, updatedAt := x.updatedAt);
    var d :| d in dirty && y == ToEncrypted(d);
  }

  lemma StoredUnprotected(records: Table, dirty: seq<CacheItem>, saved: seq<EncryptedItem>)
    requires IsDirtyList(records, dirty)
    requires forall x :: x in saved ==> IsStampedCopy(Pushable(dirty), x)
    ensures forall r :: r in StoredItems(records, saved) ==> !IsProtectedType(r.contentType)
    ensures SafeItems(StoredItems(records, saved)) == StoredItems(records, saved)
  {
    forall r | r in StoredItems(records, saved) ensures !IsProtectedType(r.contentType) {
      var x :| x in saved && x.deleted && x.uuid in records && r == records[x.uuid];
      SavedIsDirty(records, dirty, x);
    }
    AllSafe(StoredItems(records, saved));
  }

  lemma LiveIsSafe(items: seq<EncryptedItem>)
    ensures SafeItems(LiveItems(items)) == LiveItems(items)
  {
    AllSafe(LiveItems(items));
  }

  lemma GoneIsSafe(items: seq<EncryptedItem>)
    ensures SafeItems(GoneItems(items)) == GoneItems(items)
  {
    AllSafe(GoneItems(items));
  }

  lemma DirtyHasItem(records: Table, dirty: seq<CacheItem>, u: string)
    requires IsDirtyList(records, dirty)
    ensures HasItem(dirty, u) <==> u in records && records[u].dirty
  {
    if i :| 0 <= i < |dirty| && dirty[i].uuid == u {
      assert dirty[i] in dirty;
    }
    if u in records && records[u].dirty {
      assert records[u] in dirty;
    }
  }

  lemma ReconciledAt(records: Table, dirty: seq<CacheItem>, stuck: set<string>,
                     saved: seq<EncryptedItem>, items: seq<EncryptedItem>, u: string)
    requires FitsRecords(records, dirty, saved, items)
    ensures Lookup(Reconciled(records, dirty, stuck, saved, items), u) == Expected(records, stuck, saved, items, u)
  {
    var r1 := Saved(records, LiveItems(saved));
    var r2 := Deleted(r1, StoredItems(records, saved));
    var r3 := Cleaned(r2, dirty, stuck);
    StoredUnprotected(records, dirty, saved);
    LookupSaved(records, saved, u);
    LookupStored(r1, records, saved, u);
    LookupCleaned(r2, dirty, stuck, u);
    LookupSaved(r3, items, u);
    LookupGone(Saved(r3, LiveItems(items)), items, u);
    DirtyHasItem(records, dirty, u);
    var x := Entry(saved, u);
    if x.Some? {
      SavedIsDirty(records, dirty, x.value);
      hide Saved, Deleted, Cleaned, LiveItems, GoneItems, StoredItems, SafeItems, Pushable, IsDirtyList, HasItem;
      CleanSavedItem(x.value, stuck);
    } else {
      hide Saved, Deleted, Cleaned, LiveItems, GoneItems, StoredItems, SafeItems, Pushable, IsDirtyList, HasItem;
    }
  }

  lemma CleanSavedItem(x: EncryptedItem, stuck: set<string>)
    ensures CleanedItem(ToCache(x), stuck) == ToCache(x)
  {
  }

  /** After a full sync the records agree with the server's output. */
  lemma ReconciledAgrees(records: Table, dirty: seq<CacheItem>, stuck: set<string>,
                         saved: seq<EncryptedItem>, items: seq<EncryptedItem>)
    requires FitsRecords(records, dirty, saved, items)
    ensures Agrees(records, stuck, saved, items, Reconciled(records, dirty, stuck, saved, items))
  {
    hide Reconciled, Expected, FitsRecords;
    forall u ensures Lookup(Reconciled(records, dirty, stuck, saved, items), u)
      == Expected(records, stuck, saved, items, u)
    {
      ReconciledAt(records, dirty, stuck, saved, items, u);
    }
  }

  predicate IsDirty(records: Table, u: string) {
    u in records && records[u].dirty
  }

  /** The server's output neither replaces nor removes a record. */
  predicate Unmentioned(saved: seq<EncryptedItem>, items: seq<EncryptedItem>, u: string) {
    var entry := Entry(items, u);
    && Entry(saved, u).None?
    && (entry.Some? ==> entry.value.deleted && IsProtectedType(entry.value.contentType))
  }

  /** The records that are dirty after a sync, given what was dirty and stuck before it. */
  ghost predicate DirtyExactly(records: Table, stuck: set<string>,
                               saved: seq<EncryptedItem>, items: seq<EncryptedItem>, after: Table)
  {
    forall u :: IsDirty(after, u) <==> IsDirty(records, u) && u in stuck && Unmentioned(saved, items, u)
  }

  /** Hence a record is dirty exactly if it was, its mark is stuck, and the server said nothing of it. */
  lemma StaysDirtyExactly(records: Table, stuck: set<string>,
                          saved: seq<EncryptedItem>, items: seq<EncryptedItem>, after: Table)
    requires Agrees(records, stuck, saved, items, after)
    ensures DirtyExactly(records, stuck, saved, items, after)
  {
    forall u ensures IsDirty(after, u) <==> IsDirty(records, u) && u in stuck && Unmentioned(saved, items, u) {
      assert Lookup(after, u) == Expected(records, stuck, saved, items, u);
    }
  }

  /** Nothing stays dirty, whatever the server returns, exactly when no dirty record is stuck. */
  lemma NothingStaysDirty(records: Table, dirty: seq<CacheItem>, stuck: set<string>)
    requires IsDirtyList(records, dirty)
    ensures (forall u :: IsDirty(records, u) ==> u !in stuck) <==>
      (forall saved, items, u :: FitsRecords(records, dirty, saved, items) ==>
         !IsDirty(Reconciled(records, dirty, stuck, saved, items), u))
  {
    if forall u :: IsDirty(records, u) ==> u !in stuck {
      forall saved, items, u | FitsRecords(records, dirty, saved, items)
        ensures !IsDirty(Reconciled(records, dirty, stuck, saved, items), u)
      {
        ReconciledAgrees(records, dirty, stuck, saved, items);
        StaysDirtyExactly(records, stuck, saved, items, Reconciled(records, dirty, stuck, saved, items));
      }
    } else {
      var u :| IsDirty(records, u) && u in stuck;
      SilenceKeepsDirty(records, dirty, stuck, u);
      assert FitsRecords(records, dirty, [], []);
    }
  }

  /** The input that shows it: a stuck record, and a server that returns nothing. */
  lemma SilenceKeepsDirty(records: Table, dirty: seq<CacheItem>, stuck: set<string>, u: string)
    requires IsDirtyList(records, dirty) && IsDirty(records, u) && u in stuck
    ensures FitsRecords(records, dirty, [], []) && IsDirty(Reconciled(records, dirty, stuck, [], []), u)
  {
    ReconciledAgrees(records, dirty, stuck, [], []);
    StaysDirtyExactly(records, stuck, [], [], Reconciled(records, dirty, stuck, [], []));
  }

  // ---- Protected records

  /** Every protected record is still there, under its type. */
  ghost predicate KeepsProtected(before: Table, after: Table) {
    forall u :: u in before && IsProtectedType(before[u].contentType) ==>
      u in after && after[u].contentType == before[u].contentType
  }

  ghost predicate TypedTable(records: Table, typeOf: string -> string) {
    forall u :: u in records ==> records[u].contentType == typeOf(u)
  }

  ghost predicate TypedItems(items: seq<CacheItem>, typeOf: string -> string) {
    forall x :: x in items ==> x.contentType == typeOf(x.uuid)
  }

  ghost predicate Unprotected(items: seq<CacheItem>, typeOf: string -> string) {
    forall x :: x in items ==> !IsProtectedType(typeOf(x.uuid))
  }

  /** A step that may happen to typed records: they stay typed, and protected ones stay. */
  ghost predicate SafeStep(before: Table, after: Table, typeOf: string -> string) {
    TypedTable(before, typeOf) ==> TypedTable(after, typeOf) && KeepsProtected(before, after)
  }

  lemma SafeSteps(a: Table, b: Table, c: Table, typeOf: string -> string)
    requires SafeStep(a, b, typeOf) && SafeStep(b, c, typeOf)
    ensures SafeStep(a, c, typeOf)
  {
  }

  lemma {:induction false} SavingIsSafe(records: Table, items: seq<CacheItem>, typeOf: string -> string)
    requires TypedItems(items, typeOf)
    ensures SafeStep(records, Saved(records, items), typeOf)
  {
    if items != [] {
      SavingIsSafe(records, items[..|items| - 1], typeOf);
      assert items[|items| - 1] in items;
    }
  }

  lemma {:induction false} DeletingIsSafe(records: Table, items: seq<CacheItem>, typeOf: string -> string)
    requires Unprotected(items, typeOf)
    ensures SafeStep(records, Deleted(records, items), typeOf)
  {
    if items != [] {
      DeletingIsSafe(records, items[..|items| - 1], typeOf);
      assert items[|items| - 1] in items;
    }
  }

  lemma {:induction false} CleaningIsSafe(records: Table, items: seq<CacheItem>, stuck: set<string>,
                          typeOf: string -> string)
    ensures SafeStep(records, Cleaned(records, items, stuck), typeOf)
  {
    if items != [] {
      CleaningIsSafe(records, items[..|items| - 1], stuck, typeOf);
    }
  }

  lemma SavedPrefixIsSafe(records: Table, items: seq<CacheItem>, after: Table, typeOf: string -> string)
    requires TypedItems(items, typeOf) && (SavedPrefix(records, items, after) || after == Saved(records, items))
    ensures SafeStep(records, after, typeOf)
  {
    SavingIsSafe(records, items, typeOf);
    if SavedPrefix(records, items, after) {
      var batches: nat :| batches * BATCH_SIZE <= |items| && after == Saved(records, items[..batches * BATCH_SIZE]);
      SavingIsSafe(records, items[..batches * BATCH_SIZE], typeOf);
    }
  }

  lemma DeletedPrefixIsSafe(records: Table, items: seq<CacheItem>, after: Table, typeOf: string -> string)
    requires Unprotected(items, typeOf) && (DeletedPrefix(records, items, after) || after == Deleted(records, items))
    ensures SafeStep(records, after, typeOf)
  {
    DeletingIsSafe(records, items, typeOf);
    if DeletedPrefix(records, items, after) {
      var batches: nat :| batches * BATCH_SIZE <= |items| && after == Deleted(records, items[..batches * BATCH_SIZE]);
      DeletingIsSafe(records, items[..batches * BATCH_SIZE], typeOf);
    }
  }

  lemma CleanedPrefixIsSafe(records: Table, items: seq<CacheItem>, stuck: set<string>, after: Table,
                            typeOf: string -> string)
    requires CleanedPrefix(records, items, stuck, after) || after == Cleaned(records, items, stuck)
    ensures SafeStep(records, after, typeOf)
  {
    CleaningIsSafe(records, items, stuck, typeOf);
    if CleanedPrefix(records, items, stuck, after) {
      var batches: nat :| batches * BATCH_SIZE <= |items|
        && after == Cleaned(records, items[..batches * BATCH_SIZE], stuck);
      CleaningIsSafe(records, items[..batches * BATCH_SIZE], stuck, typeOf);
    }
  }
}
