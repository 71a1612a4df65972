/**
 The steps of a cache sync: what is pushed, and how what comes back is sorted into records
 to save and records to delete.
 */
module CacheSteps {
  import opened Records
  import opened Newest
  import opened ItemsSync
  import opened Store

  // Times and durations are in milliseconds.
  const SYNC_TOKEN_MAX_AGE := 24 * 60 * 60 * 1000
  const MIN_SYNC_INTERVAL := 5 * 60 * 1000
  const SYNC_ATTEMPTS := 3

  /** A record holds an item: what the one says of content, keys, times and deletion, the other says too. */
  predicate Holds(r: CacheItem, e: EncryptedItem) {
    && r.uuid == e.uuid && r.contentType == e.contentType && r.deleted == e.deleted
    && r.content == e.content && r.encItemKey == e.encItemKey && r.itemsKeyId == e.itemsKeyId
    && r.duplicateOf == e.duplicateOf
    && r.createdAt == e.createdAt && r.createdAtTimestamp == e.createdAtTimestamp
    && r.updatedAt == e.updatedAt && r.updatedAtTimestamp == e.updatedAtTimestamp
  }

  function ToEncrypted(d: CacheItem): EncryptedItem {
    EncryptedItem(d.uuid, d.itemsKeyId, d.content, d.contentType, d.encItemKey, d.createdAt, d.updatedAt,
                  d.duplicateOf, d.createdAtTimestamp, d.updatedAtTimestamp, d.deleted)
  }

  /** A server item as a clean record. */
  function ToCache(e: EncryptedItem): CacheItem {
    CacheItem(e.uuid, e.content, e.contentType, e.itemsKeyId, e.encItemKey, e.createdAt, e.updatedAt,
              e.duplicateOf, NO_DATE, e.createdAtTimestamp, e.updatedAtTimestamp, e.deleted, false)
  }

  // ---- What is pushed

  predicate ValidRecord(d: CacheItem) {
    || HasPrefix(d.content, "003")
    || (&& d.uuid != "" && d.contentType != "" && d.content != ""
        && (d.encItemKey != "" || d.contentType == SF_EXTENSION)
        && (d.contentType == ITEMS_KEY || d.contentType == SF_EXTENSION || d.itemsKeyId != ""))
  }

  method Validate(items: seq<CacheItem>) returns (valid: bool)
    ensures valid <==> forall x :: x in items ==> ValidRecord(x)
    ensures valid <==> forall x :: x in items && !("003" <= x.content) ==>
      && x.uuid != "" && x.contentType != "" && x.content != ""
      && (x.encItemKey == "" ==> x.contentType == "SF|Extension")
      && (x.itemsKeyId == "" ==> x.contentType in ["SF|Extension", "SN|ItemsKey"])
  {
    for i := 0 to |items|
      invariant forall x :: x in items[..i] ==> ValidRecord(x)
    {
      if !ValidRecord(items[i]) {
        return false;
      }
    }
    valid := true;
  }

  function Pushable(dirty: seq<CacheItem>): (push: seq<EncryptedItem>)
    ensures forall x :: x in push ==> Allowed(x) && exists d :: d in dirty && x == ToEncrypted(d)
  {
    if dirty == [] then []
    else
      var last := dirty[|dirty| - 1];
      Pushable(dirty[..|dirty| - 1]) + if Allowed(ToEncrypted(last)) then [ToEncrypted(last)] else []
  }

  lemma {:induction false} PushableAppend(a: seq<CacheItem>, b: seq<CacheItem>)
    ensures Pushable(a + b) == Pushable(a) + Pushable(b)
  {
    if b == [] {
      assert a + b == a;
    } else {
      assert (a + b)[..|a + b| - 1] == a + b[..|b| - 1];
      PushableAppend(a, b[..|b| - 1]);
    }
  }

  /**
   Every dirty record of another type is pushed, with all its fields; user preferences are unless
   they are deleted, and an items key while it is new and not deleted.
   */
  lemma PushedForRecord(dirty: seq<CacheItem>, d: CacheItem)
    requires d in dirty
    ensures var pushed := exists e :: e in Pushable(dirty) && Holds(d, e);
      if d.contentType == "SN|ItemsKey" then pushed <==> !d.deleted && (d.uuid == "" || d.updatedAt == "")
      else if d.contentType == "SN|UserPreferences" then pushed <==> !d.deleted
      else pushed
  {
    assert forall e :: Holds(d, e) <==> e == ToEncrypted(d);
    if Allowed(ToEncrypted(d)) {
      PushedIfAllowed(dirty, d);
    }
  }

  lemma {:induction false} PushedIfAllowed(dirty: seq<CacheItem>, d: CacheItem)
    requires d in dirty && Allowed(ToEncrypted(d))
    ensures ToEncrypted(d) in Pushable(dirty)
  {
    if d in dirty[..|dirty| - 1] {
      PushedIfAllowed(dirty[..|dirty| - 1], d);
    }
  }

  lemma {:induction false} PushableDistinct(dirty: seq<CacheItem>)
    requires Distinct(ItemUuid, dirty)
    ensures Distinct(Uuid, Pushable(dirty))
  {
    if dirty != [] {
      var front, last := dirty[..|dirty| - 1], dirty[|dirty| - 1];
      DistinctFront(ItemUuid, dirty, |dirty| - 1);
      PushableDistinct(front);
      forall x | x in Pushable(front) ensures x.uuid != last.uuid {
        var d :| d in front && x == ToEncrypted(d);
        assert ItemUuid(d) != ItemUuid(last);
      }
    }
  }

  /** What the cache pushes passes the filter of the items sync unchanged. */
  lemma {:induction false} FilterKeepsAll(items: seq<EncryptedItem>)
    requires forall x :: x in items ==> Allowed(x)
    ensures Filtered(items) == items
  {
    if items != [] {
      var front := items[..|items| - 1];
      assert items == front + [items[|items| - 1]];
      FilterKeepsAll(front);
    }
  }

  /** Deleted protected items and changed items keys are not pushed; a dirty items key has content. */
  method DirtyItemsToPush(dirty: seq<CacheItem>) returns (push: seq<EncryptedItem>)
    requires forall d :: d in dirty ==> ValidRecord(d)
    ensures push == Pushable(dirty)
    ensures forall e :: e in push ==> exists d :: d in dirty && Holds(d, e)
  {
    push := [];
    for i := 0 to |dirty|
      invariant push == Pushable(dirty[..i])
    {
      var d := dirty[i];
      assert d in dirty;
      assert dirty[..i + 1][..i] == dirty[..i];
      if d.contentType == ITEMS_KEY {
        if d.deleted {
          continue;
        }
        assert ValidRecord(d) && d.content != "";  // the program panics otherwise
        if d.uuid != "" && d.updatedAt != "" {
          continue;
        }
      }
      if d.contentType == USER_PREFERENCES && d.deleted {
        continue;
      }
      push := push + [ToEncrypted(d)];
    }
    assert dirty[..|dirty|] == dirty;
  }

  /** Exactly one token, not older than a day. */
  predicate Usable(tokens: seq<SyncToken>, now: int) {
    |tokens| == 1 && now - tokens[0].createdAt <= SYNC_TOKEN_MAX_AGE
  }

  /** The stored token if it is usable; unusable ones are dropped, unless they cannot even be read. */
  method ValidateAndCleanSyncToken(db: Database, now: int) returns (token: string, failed: bool, ghost unreadable: bool)
    modifies db`tokens
    ensures failed || unreadable ==> db.flaky
    ensures unreadable || old(db.tokens) == [] ==> token == "" && !failed && db.tokens == old(db.tokens)
    ensures !unreadable && Usable(old(db.tokens), now) ==>
      token == old(db.tokens)[0].token && !failed && db.tokens == old(db.tokens)
    ensures !unreadable && old(db.tokens) != [] && !Usable(old(db.tokens), now) ==>
      token == "" && db.tokens == if failed then old(db.tokens) else []
  {
    token, failed := "", false;
    var readFails := db.Fails();
    unreadable := readFails;
    if readFails {
      return;
    }
    if |db.tokens| > 1 {
      failed := db.DropTokens();
      return;
    }
    if |db.tokens| == 1 {
      if now - db.tokens[0].createdAt > SYNC_TOKEN_MAX_AGE {
        failed := db.DropTokens();
        return;
      }
      token := db.tokens[0].token;
    }
  }

  // ---- What comes back

  /** The items that are not deleted, as clean records. */
  function LiveItems(items: seq<EncryptedItem>): (result: seq<CacheItem>)
    ensures forall x :: x in items && !x.deleted ==> ToCache(x) in result
    ensures forall r :: r in result ==> exists x :: x in items && !x.deleted && r == ToCache(x)
  {
    if items == [] then []
    else
      var last := items[|items| - 1];
      var live := LiveItems(items[..|items| - 1]);
      if last.deleted then live else live + [ToCache(last)]
  }

  /** The deleted items, but for those of protected types. */
  function GoneItems(items: seq<EncryptedItem>): (result: seq<CacheItem>)
    ensures forall x :: x in items && x.deleted && !IsProtectedType(x.contentType) ==> ToCache(x) in result
    ensures forall r :: r in result ==>
      exists x :: x in items && x.deleted && !IsProtectedType(x.contentType) && r == ToCache(x)
  {
    if items == [] then []
    else
      var last := items[|items| - 1];
      var gone := GoneItems(items[..|items| - 1]);
      if last.deleted && !IsProtectedType(last.contentType) then gone + [ToCache(last)] else gone
  }

  /** The stored records of the saved items that are deleted. */
  function StoredItems(records: Table, saved: seq<EncryptedItem>): (result: seq<CacheItem>)
    ensures forall x :: x in saved && x.deleted && x.uuid in records ==> records[x.uuid] in result
    ensures forall r :: r in result ==> exists x :: x in saved && x.deleted && x.uuid in records && r == records[x.uuid]
  {
    if saved == [] then []
    else
      var last := saved[|saved| - 1];
      var stored := StoredItems(records, saved[..|saved| - 1]);
      if last.deleted && last.uuid in records then stored + [records[last.uuid]] else stored
  }

  method SortSaved(db: Database, saved: seq<EncryptedItem>)
    returns (savedItems: seq<CacheItem>, itemsToDelete: seq<CacheItem>, failed: bool)
    requires forall x :: x in saved ==> !(x.contentType == ITEMS_KEY && x.deleted)
    ensures failed ==> db.flaky
    ensures !failed ==> savedItems == LiveItems(saved) && itemsToDelete == StoredItems(db.records, saved)
    ensures !failed ==> forall r :: r in savedItems ==> exists x :: x in saved && !x.deleted && Holds(r, x) && !r.dirty
  {
    savedItems, itemsToDelete, failed := [], [], false;
    for i := 0 to |saved|
      invariant savedItems == LiveItems(saved[..i]) && itemsToDelete == StoredItems(db.records, saved[..i])
    {
      var x := saved[i];
      assert saved[..i + 1][..i] == saved[..i];
      assert x in saved;
      assert !(x.contentType == ITEMS_KEY && x.deleted);  // the program exits otherwise
      if x.deleted {
        var found;
        found, failed := db.FindUuid(x.uuid);
        if failed {
          return;
        }
        itemsToDelete := itemsToDelete + found;
        continue;
      }
      savedItems := savedItems + [ToCache(x)];
    }
    assert saved[..|saved|] == saved;
  }

  method SortItems(items: seq<EncryptedItem>)
    returns (newItems: seq<CacheItem>, itemsToDelete: seq<CacheItem>, eiks: seq<EncryptedItem>)
    ensures newItems == LiveItems(items) && itemsToDelete == GoneItems(items) && eiks == LiveKeys(items)
    ensures forall r :: r in newItems ==> exists x :: x in items && !x.deleted && Holds(r, x) && !r.dirty
    ensures forall r :: r in itemsToDelete ==>
      exists x :: x in items && x.deleted && x.contentType !in ["SN|ItemsKey", "SN|UserPreferences"] && Holds(r, x)
  {
    newItems, itemsToDelete, eiks := [], [], [];
    for n := 0 to |items|
      invariant newItems == LiveItems(items[..n])
      invariant itemsToDelete == GoneItems(items[..n])
      invariant eiks == LiveKeys(items[..n])
    {
      var i := items[n];
      ghost var next := items[..n + 1];
      assert next[..|next| - 1] == items[..n] && next[|next| - 1] == i;
      if i.contentType == ITEMS_KEY && i.deleted {
        continue;
      }
      if i.contentType == USER_PREFERENCES && i.deleted {
        continue;
      }
      if i.deleted {
        itemsToDelete := itemsToDelete + [ToCache(i)];
        continue;
      }
      if i.contentType == ITEMS_KEY {
        eiks := eiks + [i];
      }
      newItems := newItems + [ToCache(i)];
    }
    assert items[..|items|] == items;
  }
}
