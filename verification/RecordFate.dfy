/** What becomes of one record in a whole sync of the cache. */
module RecordFate {
  import opened Prelude
  import opened Records
  import opened Newest
  import opened Paging
  import opened Delivery
  import opened Vault
  import opened ItemsSync
  import opened Store
  import opened CacheSteps
  import opened Reconcile
  import opened Cache
  import Conflicts
  import NoLostEdit
  import Resolution

  // ---- What is stored

  lemma EntryOf(items: seq<EncryptedItem>, e: EncryptedItem)
    requires Distinct(Uuid, items) && e in items
    ensures Entry(items, e.uuid) == Some(e)
  {
    var found := Entry(items, e.uuid);
    var i :| 0 <= i < |items| && items[i] == e;
    var j :| 0 <= j < |items| && items[j] == found.value;
    assert Uuid(items[i]) == Uuid(items[j]);
  }

  /** A clean record with every field of an item. */
  ghost predicate StoredClean(records: Table, e: EncryptedItem) {
    && e.uuid in records
    && var r := records[e.uuid];
    && r.content == e.content && r.encItemKey == e.encItemKey && r.itemsKeyId == e.itemsKeyId
    && r.contentType == e.contentType && r.duplicateOf == e.duplicateOf
    && r.createdAt == e.createdAt && r.createdAtTimestamp == e.createdAtTimestamp
    && r.updatedAt == e.updatedAt && r.updatedAtTimestamp == e.updatedAtTimestamp
    && !r.deleted && !r.dirty && r.dirtiedDate == 0
  }

  /** What a full sync gives to reason with about its output. */
  lemma SyncedAgrees(tools: Tools, now: int, flaky: bool, stuck: set<string>, before: Stored, after: Stored, x: Trace)
    requires IsCacheSync(tools, now, flaky, stuck, before, after, Synced, x)
    ensures Agrees(before.records, stuck, x.output.savedItems, x.output.items, after.records)
    ensures Distinct(Uuid, x.output.items) && CameThrough(tools, x.calls, x.output)
    ensures IsDirtyList(before.records, x.dirty)
    ensures forall s :: s in x.output.savedItems ==> exists e :: e in x.output.items && e.uuid == s.uuid
  {
    hide IsSync, IsDelivered, Agrees, IsDirtyList, KeysLoaded, RightToken;
  }

  lemma AgreesOnItem(records: Table, stuck: set<string>, saved: seq<EncryptedItem>, items: seq<EncryptedItem>,
                     after: Table, e: EncryptedItem)
    requires Agrees(records, stuck, saved, items, after) && Distinct(Uuid, items) && e in items
    ensures !e.deleted ==> StoredClean(after, e)
    ensures e.deleted && e.contentType !in ["SN|ItemsKey", "SN|UserPreferences"] ==> e.uuid !in after
  {
    EntryOf(items, e);
    hide Entry;
    assert Lookup(after, e.uuid) == Expected(records, stuck, saved, items, e.uuid);
  }

  lemma AgreesOnSaved(records: Table, stuck: set<string>, saved: seq<EncryptedItem>, items: seq<EncryptedItem>,
                      after: Table, s: EncryptedItem, e: EncryptedItem)
    requires Agrees(records, stuck, saved, items, after) && Distinct(Uuid, items) && Distinct(Uuid, saved)
    requires s in saved && e in items && e.uuid == s.uuid
    ensures if !e.deleted then StoredClean(after, e)
      else if e.contentType !in ["SN|ItemsKey", "SN|UserPreferences"] || s.deleted then s.uuid !in after
      else StoredClean(after, s)
  {
    EntryOf(items, e);
    EntryOf(saved, s);
    hide Entry;
    assert Lookup(after, s.uuid) == Expected(records, stuck, saved, items, s.uuid);
  }

  /**
   After a full sync every live item of its output is stored as it is, and clean; a deleted one is
   gone, unless it is an items key or the user's preferences.
   */
  lemma StoredAsReturned(tools: Tools, now: int, flaky: bool, stuck: set<string>, before: Stored, after: Stored,
                         x: Trace, e: EncryptedItem)
    requires IsCacheSync(tools, now, flaky, stuck, before, after, Synced, x) && e in x.output.items
    ensures !e.deleted ==> StoredClean(after.records, e)
    ensures e.deleted && e.contentType !in ["SN|ItemsKey", "SN|UserPreferences"] ==> e.uuid !in after.records
  {
    SyncedAgrees(tools, now, flaky, stuck, before, after, x);
    hide *;
    AgreesOnItem(before.records, stuck, x.output.savedItems, x.output.items, after.records, e);
  }

  /** An item is a dirty record under other update times. */
  ghost predicate IsUnderNewTimes(records: Table, s: EncryptedItem) {
    && s.uuid in records && records[s.uuid].dirty
    && Holds(records[s.uuid].(updatedAt := s.updatedAt, updatedAtTimestamp := s.updatedAtTimestamp), s)
  }

  lemma SavedFields(tools: Tools, records: Table, x: Trace, start: Point, end: Point, s: EncryptedItem)
    requires IsDirtyList(records, x.dirty) && CameThrough(tools, x.calls, x.output) && s in x.output.savedItems
    requires IsCalls(tools, SyncInput(Pushable(x.dirty), 0, 0, x.syncToken, ""), start, x.calls, end)
    ensures IsUnderNewTimes(records, s) && Distinct(Uuid, x.output.savedItems)
  {
    assert x.calls[|x.calls| - 1].push.items == Pushable(x.dirty);
    hide IsCalls, IsSync, IsDelivered;
    PushableDistinct(x.dirty);
    var y :|
      y in Pushable(x.dirty) && s == y.(updatedAtTimestamp := s.updatedAtTimestamp, updatedAt := s.updatedAt);
    var d :| d in x.dirty && y == ToEncrypted(d);
  }

  /**
   What the server saved is the dirty record it was pushed for, under new update times. It is what
   is stored, unless the output has a newer version of it.
   */
  lemma SavedIsStored(tools: Tools, now: int, flaky: bool, stuck: set<string>, before: Stored, after: Stored,
                      x: Trace, start: Point, end: Point, s: EncryptedItem)
    returns (e: EncryptedItem)
    requires IsCacheSync(tools, now, flaky, stuck, before, after, Synced, x)
    requires IsCalls(tools, SyncInput(Pushable(x.dirty), 0, 0, x.syncToken, ""), start, x.calls, end)
    requires s in x.output.savedItems
    ensures IsUnderNewTimes(before.records, s)
    ensures e in x.output.items && e.uuid == s.uuid
    ensures if !e.deleted then StoredClean(after.records, e)
      else if e.contentType !in ["SN|ItemsKey", "SN|UserPreferences"] || s.deleted then s.uuid !in after.records
      else StoredClean(after.records, s)
  {
    SyncedAgrees(tools, now, flaky, stuck, before, after, x);
    SavedFields(tools, before.records, x, start, end, s);
    hide *;
    e :| e in x.output.items && e.uuid == s.uuid;
    AgreesOnSaved(before.records, stuck, x.output.savedItems, x.output.items, after.records, s, e);
  }

  /** A record that the output does not mention stays as it is, but for its mark and its date if it was dirty. */
  lemma UnmentionedStays(tools: Tools, now: int, flaky: bool, stuck: set<string>, before: Stored, after: Stored,
                         x: Trace, u: string)
    requires IsCacheSync(tools, now, flaky, stuck, before, after, Synced, x)
    requires forall e :: e in x.output.items || e in x.output.savedItems ==> e.uuid != u
    ensures u in after.records <==> u in before.records
    ensures u in before.records ==>
      var r := before.records[u];
      after.records[u] == if r.dirty then r.(dirty := u in stuck, dirtiedDate := 0) else r
  {
    assert Lookup(after.records, u)
      == Expected(before.records, stuck, x.output.savedItems, x.output.items, u);
  }

  // ---- What is sent

  lemma RequestsLater(before: seq<Exchange>, after: seq<Exchange>, e: EncryptedItem)
    requires InRequests(after, e)
    ensures InRequests(before + after, e)
  {
    var i :| 0 <= i < |after| && e in after[i].request.items;
    assert (before + after)[|before| + i] == after[i];
  }

  lemma RequestsBefore(before: seq<Exchange>, after: seq<Exchange>, e: EncryptedItem)
    requires InRequests(before, e)
    ensures InRequests(before + after, e)
  {
    var i :| 0 <= i < |before| && e in before[i].request.items;
    assert (before + after)[i] == before[i];
  }

  lemma SentLast(calls: seq<Rounds>, e: EncryptedItem)
    requires calls != [] && InRequests(calls[|calls| - 1].second, e)
    ensures InRequests(SentBy(calls), e)
  {
    var t := calls[|calls| - 1];
    RequestsLater(t.first, t.second, e);
    RequestsLater(SentBy(calls[..|calls| - 1]), t.first + t.second, e);
  }

  lemma SentFirst(calls: seq<Rounds>, e: EncryptedItem)
    requires calls != [] && InRequests(calls[|calls| - 1].first, e)
    ensures InRequests(SentBy(calls), e)
  {
    var t := calls[|calls| - 1];
    RequestsBefore(t.first, t.second, e);
    RequestsLater(SentBy(calls[..|calls| - 1]), t.first + t.second, e);
  }

  /**
   After a full sync every dirty record has reached the server as it is, in an accepted request,
   but for deleted items keys and preferences and for items keys that are not new.
   */
  lemma DirtyRecordReachesServer(tools: Tools, now: int, flaky: bool, stuck: set<string>, before: Stored,
                                 after: Stored, x: Trace, start: Point, end: Point, d: CacheItem)
    returns (e: EncryptedItem)
    requires IsCacheSync(tools, now, flaky, stuck, before, after, Synced, x)
    requires IsCalls(tools, SyncInput(Pushable(x.dirty), 0, 0, x.syncToken, ""), start, x.calls, end)
    requires d.uuid in before.records && before.records[d.uuid] == d && d.dirty
    requires d.contentType == "SN|ItemsKey" ==> !d.deleted && (d.uuid == "" || d.updatedAt == "")
    requires d.contentType == "SN|UserPreferences" ==> !d.deleted
    ensures Holds(d, e) && InRequests(SentBy(x.calls), e)
  {
    var t := x.calls[|x.calls| - 1];
    assert t.push.items == Pushable(x.dirty) && IsDelivered(t) && d in x.dirty;
    hide IsCacheSync, IsCalls, IsSync, IsSettlement;
    PushedForRecord(x.dirty, d);
    e :| e in Pushable(x.dirty) && Holds(d, e);
    SentFirst(x.calls, e);
  }

  /** The local item of a conflict was pushed for a dirty record. */
  lemma LocalIsDirty(dirty: seq<CacheItem>, c: ConflictedItem) returns (d: CacheItem)
    requires NoLostEdit.OnLocalEdit(Pushable(dirty), c)
    ensures d in dirty && NoLostEdit.Local(Pushable(dirty), c) == ToEncrypted(d)
  {
    assert NoLostEdit.Local(Pushable(dirty), c) in Pushable(dirty);
    d :| d in dirty && NoLostEdit.Local(Pushable(dirty), c) == ToEncrypted(d);
  }

  /**
   After a full sync every conflict that the last call reported on the edit of a dirty record has
   reached the server: an accepted request of that call carries the content of the record, with
   its references sent through the remap table.
   */
  lemma DirtyEditReachesServer(tools: Tools, now: int, flaky: bool, stuck: set<string>, before: Stored, after: Stored,
                               x: Trace, start: Point, end: Point, i: nat)
    returns (d: CacheItem, e: EncryptedItem)
    requires IsCacheSync(tools, now, flaky, stuck, before, after, Synced, x)
    requires IsCalls(tools, SyncInput(Pushable(x.dirty), 0, 0, x.syncToken, ""), start, x.calls, end)
    requires x.calls != [] && i < |x.calls[|x.calls| - 1].one.conflicts|
    requires var t := x.calls[|x.calls| - 1];
      && Lawful(tools.cipher) && NoLostEdit.Coherent(ResolvingEnv(tools, t)) && tools.newUuid(i) != ""
      && NoLostEdit.OnLocalEdit(t.push.items, t.one.conflicts[i])
      && NoLostEdit.EchoesFaithfully(t.push.items, t.one.conflicts[i])
    ensures var t := x.calls[|x.calls| - 1];
      && t.push.items == Pushable(x.dirty) && IsDirtyList(before.records, x.dirty)
      && d in x.dirty && NoLostEdit.Local(t.push.items, t.one.conflicts[i]) == ToEncrypted(d)
      && CarriesEdit(tools, t, i, e) && InRequests(t.second, e) && InRequests(SentBy(x.calls), e)
  {
    var t := x.calls[|x.calls| - 1];
    assert t.push == SyncInput(Pushable(x.dirty), 0, 0, x.syncToken, "");
    assert IsSync(tools, t, x.output) && Ample(t.push.pageSize, 1);
    hide IsCacheSync, IsCalls, IsSync, Ample, Lawful, NoLostEdit.Coherent, NoLostEdit.EchoesFaithfully, IsSettlement,
         CarriesEdit, Pushable;
    d := LocalIsDirty(x.dirty, t.one.conflicts[i]);
    e := EditReachesServer(tools, t, x.output, i);
    SentLast(x.calls, e);
  }

  /**
   After a full sync every conflict that the last call reported on a dirty record that is deleted
   has had the deletion accepted by the server.
   */
  lemma DirtyDeletionReachesServer(tools: Tools, now: int, flaky: bool, stuck: set<string>, before: Stored,
                                   after: Stored, x: Trace, start: Point, end: Point, i: nat)
    returns (d: CacheItem, e: EncryptedItem)
    requires IsCacheSync(tools, now, flaky, stuck, before, after, Synced, x)
    requires IsCalls(tools, SyncInput(Pushable(x.dirty), 0, 0, x.syncToken, ""), start, x.calls, end)
    requires x.calls != [] && i < |x.calls[|x.calls| - 1].one.conflicts|
    requires var t := x.calls[|x.calls| - 1];
      && Resolution.OnLocalDeletion(t.push.items, t.one.conflicts[i])
      && Resolution.EchoesDeletion(t.push.items, t.one.conflicts[i])
    ensures d in x.dirty && d.deleted && d.uuid == NoLostEdit.LocalUuid(x.calls[|x.calls| - 1].one.conflicts[i])
    ensures e.deleted && e.uuid == d.uuid && InRequests(SentBy(x.calls), e)
  {
    var t := x.calls[|x.calls| - 1];
    assert t.push == SyncInput(Pushable(x.dirty), 0, 0, x.syncToken, "");
    assert IsSync(tools, t, x.output) && Ample(t.push.pageSize, 1);
    hide IsCacheSync, IsCalls, IsSync, Ample, IsSettlement;
    d := DeletedIsDirty(x.dirty, t.one.conflicts[i]);
    e := DeletionReachesServer(tools, t, x.output, i);
    SentLast(x.calls, e);
  }

  lemma DeletedIsDirty(dirty: seq<CacheItem>, c: ConflictedItem) returns (d: CacheItem)
    requires Resolution.OnLocalDeletion(Pushable(dirty), c)
    ensures d in dirty && d.deleted && d.uuid == NoLostEdit.LocalUuid(c)
  {
    var i := Conflicts.FirstWith(Pushable(dirty), NoLostEdit.LocalUuid(c));
    assert Pushable(dirty)[i] in Pushable(dirty);
    d :| d in dirty && Pushable(dirty)[i] == ToEncrypted(d);
  }

  // ---- The token, and when nothing is sent

  /** A stored token is sent exactly if it is the only one, no older than a day, and the session has a default key. */
  lemma TokenIsSent(tools: Tools, now: int, flaky: bool, stuck: set<string>, before: Stored, after: Stored,
                    result: SyncResult, x: Trace)
    requires IsCacheSync(tools, now, flaky, stuck, before, after, result, x) && x.ready
    ensures var usable := |before.tokens| == 1 && now - before.tokens[0].createdAt <= 24 * 60 * 60 * 1000
                          && x.loaded.defaultItemsKey.itemsKey != "";
      && (usable && !flaky ==> x.syncToken == before.tokens[0].token)
      && (x.syncToken != "" ==> usable && x.syncToken == before.tokens[0].token)
  {
  }

  /** A record that would not be pushed. */
  predicate StaysHere(d: CacheItem) {
    || (d.contentType == "SN|ItemsKey" && (d.deleted || (d.uuid != "" && d.updatedAt != "")))
    || (d.contentType == "SN|UserPreferences" && d.deleted)
  }

  lemma NothingToPush(records: Table, dirty: seq<CacheItem>)
    requires IsDirtyList(records, dirty)
    ensures Pushable(dirty) == [] <==>
      forall u :: u in records && records[u].dirty ==> StaysHere(records[u])
  {
    if Pushable(dirty) == [] {
      forall u | u in records && records[u].dirty ensures StaysHere(records[u]) {
        PushedForRecord(dirty, records[u]);
      }
    } else {
      var e := Pushable(dirty)[0];
      assert e in Pushable(dirty);
      var d :| d in dirty && e == ToEncrypted(d);
      assert d.uuid in records && !StaysHere(records[d.uuid]);
    }
  }
  /**
   With a database that works, a sync that finds everything valid is skipped if and only if it has
   nothing to push and there is one token, which is sent and was stored within the last five minutes.
   */
  lemma SkippedExactly(tools: Tools, now: int, stuck: set<string>, before: Stored, after: Stored,
                       result: SyncResult, x: Trace)
    requires IsCacheSync(tools, now, false, stuck, before, after, result, x) && x.ready
    ensures result.Skipped? <==>
      && (forall u :: u in before.records && before.records[u].dirty ==> StaysHere(before.records[u]))
      && x.loaded.defaultItemsKey.itemsKey != "" && |before.tokens| == 1 && before.tokens[0].token != ""
      && now - before.tokens[0].createdAt < 5 * 60 * 1000
  {
    TokenIsSent(tools, now, false, stuck, before, after, result, x);
    NothingToPush(before.records, x.dirty);
    hide Pushable, IsDirtyList, IsSettlement, CameThrough, IsBroken, KeysLoaded, StaysHere;
  }

  /**
   With a database that works, a sync whose last call came through only breaks if something live
   in its output has no identifier, or if there is no new token to store.
   */
  lemma BrokenOnlyIf(tools: Tools, now: int, stuck: set<string>, before: Stored, after: Stored, x: Trace)
    requires IsCacheSync(tools, now, false, stuck, before, after, Broken, x)
    requires x.ready && CameThrough(tools, x.calls, x.output)
    ensures x.output.syncToken == "" ||
      exists e :: e in x.output.items + x.output.savedItems && !e.deleted && e.uuid == ""
  {
    assert !Acceptable(tools, x.output) by {
      hide Acceptable, CameThrough, IsInterrupted, KeysLoaded, IsDirtyList, RightToken, MaySkip;
    }
    hide IsCacheSync, CameThrough, ToCache;
    if x.output.syncToken != "" {
      assert !Writable(x.output);
      NamelessItem(x.output.items);
      NamelessItem(x.output.savedItems);
    }
  }

  lemma NamelessItem(items: seq<EncryptedItem>)
    ensures AllNamed(LiveItems(items)) || exists e :: e in items && !e.deleted && e.uuid == ""
  {
    if r :| r in LiveItems(items) && r.uuid == "" {
      assert exists e :: e in items && !e.deleted && r == ToCache(e);
    }
  }

  /** A stored record that fails the check: it lacks a field that its type needs. */
  predicate LacksSomething(r: CacheItem) {
    && !("003" <= r.content)
    && (|| r.uuid == "" || r.contentType == "" || r.content == ""
        || (r.encItemKey == "" && r.contentType != "SF|Extension")
        || (r.itemsKeyId == "" && r.contentType !in ["SF|Extension", "SN|ItemsKey"]))
  }

  /** It sends nothing only if a stored record lacks something, or the stored items keys cannot be read. */
  lemma UnpreparedOnlyIf(tools: Tools, now: int, stuck: set<string>, before: Stored, after: Stored,
                         result: SyncResult, x: Trace)
    requires IsCacheSync(tools, now, false, stuck, before, after, result, x) && !x.ready
    ensures result.Broken? && x.calls == [] && after.records == before.records
    ensures (exists u :: u in before.records && LacksSomething(before.records[u])) ||
      tools.parseKeys(CachedKeys(x.all)).None?
  {
    if r :| r in x.all && !ValidRecord(r) {
      assert r.uuid in before.records && LacksSomething(before.records[r.uuid]);
    }
  }
}
