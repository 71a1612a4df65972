/**
 One sync of items/sync.go: protected items are held back, the rest is pushed, conflicts are
 resolved and pushed again, and the outputs of both rounds are merged.
 */
module ItemsSync {
  import opened Prelude
  import opened Records
  import opened Newest
  import opened Paging
  import opened Delivery
  import opened Vault
  import opened Conflicts
  import opened Deletions
  import NoLostEdit
  import Resolution

  // ---- The session

  class Session {
    var itemsKeys: seq<SessionItemsKey>
    var defaultItemsKey: SessionItemsKey

    constructor (itemsKeys: seq<SessionItemsKey>, defaultItemsKey: SessionItemsKey)
      ensures this.itemsKeys == itemsKeys && this.defaultItemsKey == defaultItemsKey
    {
      this.itemsKeys := itemsKeys;
      this.defaultItemsKey := defaultItemsKey;
    }

    function Keys(): KeyRing
      reads this
    {
      KeyRing(itemsKeys, defaultItemsKey)
    }
  }

  // What a sync works with besides its input: encryption, new identifiers, and the decryption of
  // a list of items keys, which fails on the first that does not decrypt, or yields those that
  // have a text in their order.
  datatype Tools = Tools(
    cipher: Cipher, newUuid: nat -> string,
    parseKeys: seq<EncryptedItem> -> Option<seq<SessionItemsKey>>)

  /** The items keys of a list that are not deleted. */
  function LiveKeys(items: seq<EncryptedItem>): (keys: seq<EncryptedItem>)
    ensures forall x :: x in keys <==> x in items && x.contentType == "SN|ItemsKey" && !x.deleted
  {
    if items == [] then []
    else
      var last := items[|items| - 1];
      LiveKeys(items[..|items| - 1]) + if !last.deleted && last.contentType == ITEMS_KEY then [last] else []
  }

  lemma {:induction false} LiveKeysAppend(a: seq<EncryptedItem>, b: seq<EncryptedItem>)
    ensures LiveKeys(a + b) == LiveKeys(a) + LiveKeys(b)
  {
    if b == [] {
      assert a + b == a;
    } else {
      assert (a + b)[..|a + b| - 1] == a + b[..|b| - 1];
      LiveKeysAppend(a, b[..|b| - 1]);
    }
  }

  /** The items keys among some items. Having some but not one that decrypts is an error, having none is not. */
  function ParseItemsKeys(tools: Tools, items: seq<EncryptedItem>): Option<seq<SessionItemsKey>> {
    if LiveKeys(items) == [] then Some([])
    else
      var keys := tools.parseKeys(LiveKeys(items));
      if keys == Some([]) then None else keys
  }

  /** The key that becomes the default: the first one marked so, or else the first newest. */
  ghost predicate IsDefaultOf(keys: seq<SessionItemsKey>, key: SessionItemsKey) {
    exists i :: 0 <= i < |keys| && keys[i] == key &&
      if key.isDefault then forall j :: 0 <= j < i ==> !keys[j].isDefault
      else
        && (forall j :: 0 <= j < |keys| ==> !keys[j].isDefault && keys[j].updatedAtTimestamp <= key.updatedAtTimestamp)
        && (forall j :: 0 <= j < i ==> keys[j].updatedAtTimestamp < key.updatedAtTimestamp)
  }

  // The keys of a session and which of them is the default.
  datatype KeyRing = KeyRing(itemsKeys: seq<SessionItemsKey>, defaultItemsKey: SessionItemsKey)

  /** When the items that were saved, or else those retrieved, hold items keys, these replace the session's. */
  ghost predicate KeysReplaced(tools: Tools, items: seq<EncryptedItem>, savedItems: seq<EncryptedItem>,
                               before: KeyRing, after: KeyRing)
  {
    var keys := ParseItemsKeys(tools, if savedItems != [] then savedItems else items);
    if keys.None? || keys.value == [] then after == before
    else after.itemsKeys == keys.value && IsDefaultOf(keys.value, after.defaultItemsKey)
  }

  method ProcessSessionItemsKeys(session: Session, tools: Tools, items: seq<EncryptedItem>,
                          savedItems: seq<EncryptedItem>)
    modifies session
    ensures KeysReplaced(tools, items, savedItems, old(session.Keys()), session.Keys())
    ensures var keys := LiveKeys(if savedItems != [] then savedItems else items);
      if keys == [] || tools.parseKeys(keys) in {None, Some([])} then session.Keys() == old(session.Keys())
      else session.itemsKeys == tools.parseKeys(keys).value
  {
    var parsed := ParseItemsKeys(tools, if |savedItems| > 0 then savedItems else items);
    if parsed.None? || parsed.value == [] {
      return;
    }
    var iks := parsed.value;
    var found, chosen := false, 0;
    for i := 0 to |iks|
      invariant !found && forall j :: 0 <= j < i ==> !iks[j].isDefault
    {
      if iks[i].isDefault {
        found, chosen := true, i;
        break;
      }
    }
    if !found {
      for i := 0 to |iks|
        invariant 0 <= chosen < |iks| && (i == 0 ==> chosen == 0) && (i > 0 ==> chosen < i)
        invariant forall j :: 0 <= j < i ==> iks[j].updatedAtTimestamp <= iks[chosen].updatedAtTimestamp
        invariant forall j :: 0 <= j < chosen ==> iks[j].updatedAtTimestamp < iks[chosen].updatedAtTimestamp
      {
        if iks[i].updatedAtTimestamp > iks[chosen].updatedAtTimestamp {
          chosen := i;
        }
      }
    }
    session.defaultItemsKey := iks[chosen];
    session.itemsKeys := iks;
  }

  // ---- What may be pushed

  /** Deleted protected items and changes to existing items keys are held back. */
  predicate Allowed(e: EncryptedItem) {
    && !(e.contentType == ITEMS_KEY && (e.deleted || (e.uuid != "" && e.updatedAt != "")))
    && !(e.contentType == USER_PREFERENCES && e.deleted)
  }

  function Filtered(items: seq<EncryptedItem>): (filtered: seq<EncryptedItem>)
    ensures forall x :: x in filtered <==> x in items && Allowed(x)
  {
    if items == [] then []
    else
      var last := items[|items| - 1];
      Filtered(items[..|items| - 1]) + if Allowed(last) then [last] else []
  }

  lemma {:induction false} FilteredAppend(a: seq<EncryptedItem>, b: seq<EncryptedItem>)
    ensures Filtered(a + b) == Filtered(a) + Filtered(b)
  {
    if b == [] {
      assert a + b == a;
    } else {
      assert (a + b)[..|a + b| - 1] == a + b[..|b| - 1];
      FilteredAppend(a, b[..|b| - 1]);
    }
  }

  lemma {:induction false} FilteredDistinct(items: seq<EncryptedItem>)
    requires Distinct(Uuid, items)
    ensures Distinct(Uuid, Filtered(items))
  {
    if items != [] {
      DistinctFront(Uuid, items, |items| - 1);
      FilteredDistinct(items[..|items| - 1]);
    }
  }

  /**
   Every item of another type may be pushed, whether it is new, changed or deleted; user
   preferences may unless they are deleted, and an items key while it is new and not deleted.
   */
  lemma PushedExactly(items: seq<EncryptedItem>, x: EncryptedItem)
    requires x in items
    ensures x.contentType !in ["SN|ItemsKey", "SN|UserPreferences"] ==> x in Filtered(items)
    ensures x.contentType == "SN|UserPreferences" ==> (x in Filtered(items) <==> !x.deleted)
    ensures x.contentType == "SN|ItemsKey" ==>
      (x in Filtered(items) <==> !x.deleted && (x.uuid == "" || x.updatedAt == ""))
  {
  }

  method FilterItems(items: seq<EncryptedItem>) returns (filteredItems: seq<EncryptedItem>)
    ensures filteredItems == Filtered(items)
    ensures forall x :: x in items && x.contentType !in ["SN|ItemsKey", "SN|UserPreferences"] ==> x in filteredItems
    ensures forall x :: x in filteredItems ==> x in items
  {
    filteredItems := [];
    for i := 0 to |items|
      invariant filteredItems == Filtered(items[..i])
    {
      var item := items[i];
      assert items[..i + 1][..i] == items[..i];
      if item.contentType == ITEMS_KEY {
        if item.deleted {
          continue;
        }
        if item.uuid != "" && item.updatedAt != "" {
          continue;
        }
      }
      if item.contentType == USER_PREFERENCES && item.deleted {
        continue;
      }
      filteredItems := filteredItems + [item];
    }
    assert items[..|items|] == items;
  }

  // ---- What comes back

  datatype SyncOutput = SyncOutput(
    items: seq<EncryptedItem>, savedItems: seq<EncryptedItem>, unsaved: seq<EncryptedItem>,
    conflicts: seq<ConflictedItem>, syncToken: string, cursor: string)

  const NO_OUTPUT := SyncOutput([], [], [], [], "", "")

  predicate Supported(e: EncryptedItem) {
    e.contentType != SF_EXTENSION && !HasPrefix(e.content, "003")
  }

  method RemoveUnsupported(items: seq<EncryptedItem>) returns (supported: seq<EncryptedItem>)
    ensures forall x :: x in supported <==> x in items && x.contentType != "SF|Extension" && !("003" <= x.content)
    ensures Distinct(Uuid, items) ==> Distinct(Uuid, supported)
  {
    supported := [];
    for i := 0 to |items|
      invariant forall x :: x in supported <==> x in items[..i] && Supported(x)
      invariant Distinct(Uuid, items) ==> Distinct(Uuid, supported)
    {
      if Distinct(Uuid, items) {
        DistinctFront(Uuid, items, i);
      }
      if items[i].contentType != SF_EXTENSION && !HasPrefix(items[i].content, "003") {
        supported := supported + [items[i]];
      }
    }
  }

  /** An item whose times are those of its saved version. */
  function Stamped(orig: EncryptedItem, synced: EncryptedItem): EncryptedItem {
    orig.(updatedAtTimestamp := synced.updatedAtTimestamp, updatedAt := synced.updatedAt)
  }

  ghost predicate IsStampedCopy(orig: seq<EncryptedItem>, x: EncryptedItem) {
    exists y :: y in orig && x == y.(updatedAtTimestamp := x.updatedAtTimestamp, updatedAt := x.updatedAt)
  }

  /** The items of one list that another one has too, each under the times it has there. */
  ghost predicate StampedFrom(orig: seq<EncryptedItem>, synced: seq<EncryptedItem>, stamped: seq<EncryptedItem>) {
    forall x :: x in stamped <==>
      exists i, j ::
        && 0 <= i < |synced| && 0 <= j < |orig|
        && synced[i].uuid == orig[j].uuid && x == Stamped(orig[j], synced[i])
  }

  /** Saved items come back without content: each is the pushed item under its new times. */
  method UpdateTimestampsOnSavedItems(orig: seq<EncryptedItem>, synced: seq<EncryptedItem>)
    returns (updatedSaved: seq<EncryptedItem>)
    ensures StampedFrom(orig, synced, updatedSaved)
    ensures Distinct(Uuid, orig) && Distinct(Uuid, synced) ==> Distinct(Uuid, updatedSaved)
    ensures forall x :: x in updatedSaved ==> IsStampedCopy(orig, x)
    ensures forall x :: x in updatedSaved ==>
      exists s :: s in synced && s.uuid == x.uuid
        && s.updatedAt == x.updatedAt && s.updatedAtTimestamp == x.updatedAtTimestamp
    ensures forall o, s :: o in orig && s in synced && o.uuid == s.uuid ==>
      o.(updatedAt := s.updatedAt, updatedAtTimestamp := s.updatedAtTimestamp) in updatedSaved
  {
    updatedSaved := [];
    for x := 0 to |synced|
      invariant forall e :: e in updatedSaved <==>
        exists i, j ::
          && 0 <= i < x && 0 <= j < |orig|
          && synced[i].uuid == orig[j].uuid && e == Stamped(orig[j], synced[i])
      invariant Distinct(Uuid, orig) && Distinct(Uuid, synced) ==> Distinct(Uuid, updatedSaved)
    {
      ghost var before := updatedSaved;
      for y := 0 to |orig|
        invariant before <= updatedSaved
        invariant forall e :: e in updatedSaved <==>
          (e in before || exists j :: 0 <= j < y && synced[x].uuid == orig[j].uuid && e == Stamped(orig[j], synced[x]))
        invariant Distinct(Uuid, orig) && Distinct(Uuid, synced) ==> Distinct(Uuid, updatedSaved)
        invariant Distinct(Uuid, orig) && Distinct(Uuid, synced) ==>
          forall e :: e in updatedSaved && e.uuid == synced[x].uuid ==>
            exists j :: 0 <= j < y && orig[j].uuid == synced[x].uuid
      {
        if synced[x].uuid == orig[y].uuid {
          updatedSaved := updatedSaved + [Stamped(orig[y], synced[x])];
        }
      }
    }
    forall e | e in updatedSaved ensures IsStampedCopy(orig, e) {
      var i, j :|
        && 0 <= i < |synced| && 0 <= j < |orig|
        && synced[i].uuid == orig[j].uuid && e == Stamped(orig[j], synced[i]);
      assert orig[j] in orig && synced[i] in synced;
    }
    forall o, s | o in orig && s in synced && o.uuid == s.uuid
      ensures o.(updatedAt := s.updatedAt, updatedAtTimestamp := s.updatedAtTimestamp) in updatedSaved
    {
      var i, j :| 0 <= i < |synced| && 0 <= j < |orig| && synced[i] == s && orig[j] == o;
      assert Stamped(orig[j], synced[i]) in updatedSaved;
    }
  }

  predicate SameConflict(c: ConflictedItem, d: ConflictedItem) {
    if c.serverItem.uuid != "" then d.serverItem.uuid == c.serverItem.uuid
    else c.unsavedItem.uuid != "" && d.serverItem.uuid == "" && d.unsavedItem.uuid == c.unsavedItem.uuid
  }

  /** The conflicts that no earlier one is the same as, in order. */
  function FirstConflicts(cs: seq<ConflictedItem>): (firsts: seq<ConflictedItem>)
    ensures forall c :: c in firsts ==> c in cs
  {
    if cs == [] then []
    else
      var last, firsts := cs[|cs| - 1], FirstConflicts(cs[..|cs| - 1]);
      if exists d :: d in firsts && SameConflict(d, last) then firsts else firsts + [last]
  }

  /** Each conflict is judged by those before it, so they are left in order. */
  lemma {:induction false} FirstConflictsGrow(cs: seq<ConflictedItem>, i: nat)
    requires i <= |cs|
    ensures FirstConflicts(cs[..i]) <= FirstConflicts(cs)
    decreases |cs| - i
  {
    if i == |cs| {
      assert cs[..i] == cs;
    } else {
      assert cs[..i + 1][..i] == cs[..i];
      FirstConflictsGrow(cs, i + 1);
    }
  }

  /** What makes two conflicts the same: the server item, or without one the unsaved item. */
  lemma SameExactly(c: ConflictedItem, d: ConflictedItem)
    ensures SameConflict(c, d) <==>
      if c.serverItem.uuid == d.serverItem.uuid == "" then c.unsavedItem.uuid == d.unsavedItem.uuid != ""
      else c.serverItem.uuid == d.serverItem.uuid
  {
  }

  /** No two of them are the same, and every conflict is the same as one of them. */
  lemma {:induction false} FirstConflictsCover(cs: seq<ConflictedItem>)
    ensures var firsts := FirstConflicts(cs);
      && (forall i, j :: 0 <= i < j < |firsts| ==> !SameConflict(firsts[i], firsts[j]))
      && (forall c :: c in cs ==> c in firsts || exists d :: d in firsts && SameConflict(d, c))
  {
    if cs != [] {
      var last, before := cs[|cs| - 1], FirstConflicts(cs[..|cs| - 1]);
      FirstConflictsCover(cs[..|cs| - 1]);
      var firsts := FirstConflicts(cs);
      assert firsts == before || (firsts == before + [last] && forall d :: d in before ==> !SameConflict(d, last));
      assert last in firsts || exists d :: d in firsts && SameConflict(d, last);
      hide FirstConflicts, SameConflict;
      assert forall d :: d in before ==> d in firsts;
      assert forall c :: c in cs ==> c in cs[..|cs| - 1] || c == last;
    }
  }

  /** One conflict per server item, or per unsaved item when there is no server item: the first. */
  method DeDupeConflicts(cs: seq<ConflictedItem>) returns (deDuped: seq<ConflictedItem>)
    ensures deDuped == FirstConflicts(cs)
  {
    deDuped := [];
    var seenServerItems, seenUnsavedItems: set<string> := {}, {};
    for i := 0 to |cs|
      invariant deDuped == FirstConflicts(cs[..i])
      invariant forall u :: u in seenServerItems <==> u != "" && exists d :: d in deDuped && d.serverItem.uuid == u
      invariant forall u :: u in seenUnsavedItems <==>
        u != "" && exists d :: d in deDuped && d.serverItem.uuid == "" && d.unsavedItem.uuid == u
    {
      var ci := cs[i];
      assert cs[..i + 1][..i] == cs[..i];
      if ci.serverItem.uuid != "" {
        if ci.serverItem.uuid !in seenServerItems {
          deDuped := deDuped + [ci];
          seenServerItems := seenServerItems + {ci.serverItem.uuid};
        }
      } else if ci.unsavedItem.uuid != "" {
        if ci.unsavedItem.uuid !in seenUnsavedItems {
          deDuped := deDuped + [ci];
          seenUnsavedItems := seenUnsavedItems + {ci.unsavedItem.uuid};
        }
      } else {
        deDuped := deDuped + [ci];
      }
    }
    assert cs[..|cs|] == cs;
  }

  // ---- One call to the server, with its retries

  datatype SyncError =
    | TransportFailed(failure: Failure) | ProcessExited | InvalidItems
    | ConflictFailed(fault: Fault) | UnexpectedConflicts

  function TransportError(outcome: Outcome): Option<SyncError> {
    match outcome
    case Succeeded(_) => None
    case Failed(failure) => Some(TransportFailed(failure))
    case Exited => Some(ProcessExited)
  }

  /** Removing duplicates and then what is not supported, whatever the order of the result. */
  ghost predicate IsCleaned(items: seq<EncryptedItem>, cleaned: seq<EncryptedItem>) {
    && Distinct(Uuid, cleaned)
    && forall x :: x in cleaned <==>
        var newest := Survivors(Uuid, UpdatedStamp, items);
        x.uuid in newest && newest[x.uuid] == x && Supported(x)
  }

  method Clean(items: seq<EncryptedItem>) returns (cleaned: seq<EncryptedItem>)
    ensures IsCleaned(items, cleaned)
    ensures forall x :: x in cleaned ==> x in items
  {
    var deDuped := DeDupe(items);
    cleaned := RemoveUnsupported(deDuped);
    forall x ensures x in cleaned <==>
      var newest := Survivors(Uuid, UpdatedStamp, items);
      x.uuid in newest && newest[x.uuid] == x && Supported(x)
    {
      DistinctMembers(deDuped, x);
    }
  }

  /** The output of a call, as far as it does not depend on the order maps are read in. */
  ghost predicate IsOutputOf(input: SyncInput, out: Response, so: SyncOutput) {
    && IsCleaned(out.items, so.items)
    && (forall x :: x in so.items ==> x in out.items)
    && IsCleaned(out.unsaved, so.unsaved)
    && (exists cleaned :: IsCleaned(out.savedItems, cleaned) && StampedFrom(input.items, cleaned, so.savedItems))
    && (forall x :: x in so.savedItems ==> IsStampedCopy(input.items, x))
    && (Distinct(Uuid, input.items) ==> Distinct(Uuid, so.savedItems))
    && so.conflicts == FirstConflicts(out.conflicts)
    && so.syncToken == out.syncToken && so.cursor == out.cursorToken
  }

  method SyncItems(server: Server, input: SyncInput) returns (so: SyncOutput, err: Option<SyncError>)
    requires Ready(input)
    modifies server
    ensures var r := Run(input, old(server.script));
      && server.script == r.rest && server.accepted == old(server.accepted) + r.accepted
      && err == TransportError(r.outcome)
      && (r.outcome.Succeeded? <==> err.None?) && (r.outcome.Exited? <==> err == Some(ProcessExited))
      && (r.outcome.Failed? ==> err == Some(TransportFailed(r.outcome.failure)))
      && (err.None? ==> IsOutputOf(input, r.outcome.out, so))
  {
    so := NO_OUTPUT;
    var outcome := SyncWithRetries(server, input);
    err := TransportError(outcome);
    if err.Some? {
      return;
    }
    var data := outcome.out;
    var items := Clean(data.items);
    var unsaved := Clean(data.unsaved);
    var savedItems := Clean(data.savedItems);
    var conflicts := DeDupeConflicts(data.conflicts);
    savedItems := UpdateTimestampsOnSavedItems(input.items, savedItems);
    so := SyncOutput(items, savedItems, unsaved, conflicts, data.syncToken, data.cursorToken);
  }

  // ---- The whole sync

  predicate IsEncryptedType(contentType: string) {
    !HasPrefix(contentType, "SF") && contentType != ITEMS_KEY
  }

  predicate ValidItem(e: EncryptedItem) {
    e.deleted || !IsEncryptedType(e.contentType) || e.itemsKeyId == "" || e.encItemKey != ""
  }

  function EnvOf(tools: Tools, itemsKeys: seq<SessionItemsKey>, defaultKey: SessionItemsKey): Env {
    Env(tools.cipher, tools.newUuid, itemsKeys, defaultKey)
  }

  /** What stops the processing of an output: an item that is not valid, or a conflict that cannot be resolved. */
  function ProcessingError(env: Env, items: seq<EncryptedItem>, syncOutput: SyncOutput): Option<SyncError> {
    if exists x :: x in syncOutput.items && !ValidItem(x) then Some(InvalidItems)
    else if syncOutput.conflicts == [] then None
    else
      match ProcessAll(env, items, syncOutput.conflicts)
      case Err(fault) => Some(ConflictFailed(fault))
      case Ok(_) => None
  }

  /**
   Resolves the conflicts of an output. When all of them are skipped the output that is
   passed on is empty: what the server returned with them is dropped.
   */
  method ProcessSyncOutput(env: Env, items: seq<EncryptedItem>, syncOutput: SyncOutput)
    returns (resolved: seq<EncryptedItem>, so: SyncOutput, err: Option<SyncError>)
    ensures err == ProcessingError(env, items, syncOutput)
    ensures err == Some(InvalidItems) <==>
      exists x :: x in syncOutput.items && !x.deleted
        && x.contentType != "SN|ItemsKey" && !("SF" <= x.contentType) && x.itemsKeyId != "" && x.encItemKey == ""
    ensures err.None? ==>
      if syncOutput.conflicts == [] then resolved == [] && so == syncOutput
      else
        && ProcessAll(env, items, syncOutput.conflicts) == Ok(resolved)
        && so == if resolved == [] then NO_OUTPUT else syncOutput
    ensures err.Some? ==> resolved == []
  {
    resolved, so, err := [], syncOutput, None;
    for i := 0 to |syncOutput.items|
      invariant forall j :: 0 <= j < i ==> ValidItem(syncOutput.items[j])
    {
      if !ValidItem(syncOutput.items[i]) {
        err := Some(InvalidItems);
        return;
      }
    }
    if syncOutput.conflicts == [] {
      return;
    }
    so := NO_OUTPUT;
    var processed := ProcessConflicts(env, items, syncOutput.conflicts);
    if processed.Err? {
      err := Some(ConflictFailed(processed.fault));
      return;
    }
    if |processed.value| > 0 {
      return processed.value, syncOutput, None;
    }
  }

  /** An output whose conflicts have been dealt with, before saved items join the retrieved ones. */
  ghost predicate IsResolved(filtered: seq<EncryptedItem>, accepted: seq<Exchange>, so: SyncOutput) {
    && so.conflicts == []
    && (forall x :: x in so.savedItems ==> IsStampedCopy(filtered, x))
    && (Distinct(Uuid, filtered) ==> Distinct(Uuid, so.savedItems))
    && Within(so.items, accepted)
  }

  /** What a successful sync returns, whatever the server did and whichever path was taken. */
  ghost predicate IsSettled(filtered: seq<EncryptedItem>, accepted: seq<Exchange>, output: SyncOutput) {
    && output.conflicts == []
    && (forall x :: x in output.savedItems ==> IsStampedCopy(filtered, x))
    && (Distinct(Uuid, filtered) ==> Distinct(Uuid, output.savedItems))
    && Distinct(Uuid, output.items)
    && (forall x :: x in output.items ==> x in output.savedItems || InPages(accepted, x))
    && (forall x :: x in output.savedItems ==> exists y :: y in output.items && y.uuid == x.uuid)
  }

  /** Saved items join the retrieved ones; the newest version of each is returned. */
  method MergeSaved(filtered: seq<EncryptedItem>, processed: SyncOutput, ghost accepted: seq<Exchange>)
    returns (output: SyncOutput)
    requires IsResolved(filtered, accepted, processed)
    ensures IsSettled(filtered, accepted, output)
    ensures output == processed.(items := output.items)
    ensures IsDeDuped(processed.items + processed.savedItems, output.items)
  {
    var items := DeDupe(processed.items + processed.savedItems);
    output := processed.(items := items);
    forall x | x in processed.savedItems ensures exists y :: y in items && y.uuid == x.uuid {
      SurvivorsAreFirstNewest(Uuid, UpdatedStamp, processed.items + processed.savedItems, x.uuid);
      var i :| 0 <= i < |processed.savedItems| && processed.savedItems[i] == x;
      assert (processed.items + processed.savedItems)[|processed.items| + i] == x;
      DistinctSurvive(Uuid, UpdatedStamp, items);
    }
  }

  /** The outputs of two rounds in one; saved items are those of the original push. */
  ghost predicate IsMergeOf(push: SyncInput, first: SyncOutput, second: SyncOutput, merged: SyncOutput) {
    && merged == first.(conflicts := [], items := merged.items, savedItems := merged.savedItems)
    && IsDeDuped(first.items + second.items, merged.items)
    && exists saved :: IsDeDuped(first.savedItems + second.savedItems, saved)
         && StampedFrom(push.items, saved, merged.savedItems)
  }

  function SecondError(outcome: Outcome, second: SyncOutput): Option<SyncError> {
    if TransportError(outcome).Some? then TransportError(outcome)
    else if second.conflicts != [] then Some(UnexpectedConflicts)
    else None
  }

  /** Pushes the resolved conflicts; none may come back, and the outputs of both rounds are merged. */
  method PushResolved(server: Server, push: SyncInput, toSync: seq<EncryptedItem>, first: SyncOutput,
                      ghost pages: seq<Exchange>)
    returns (processed: SyncOutput, err: Option<SyncError>, ghost second: SyncOutput)
    requires push.nextItem == 0 && Within(first.items, pages)
    requires forall x :: x in first.savedItems ==> IsStampedCopy(push.items, x)
    requires Distinct(Uuid, push.items) ==> Distinct(Uuid, first.savedItems)
    modifies server
    ensures var r := Run(push.(items := toSync), old(server.script));
      && server.accepted == old(server.accepted) + r.accepted && server.script == r.rest
      && (r.outcome.Succeeded? ==> IsOutputOf(push.(items := toSync), r.outcome.out, second))
      && err == SecondError(r.outcome, second)
      && (err.None? ==> second.conflicts == [])
      && (err == Some(UnexpectedConflicts) <==> r.outcome.Succeeded? && second.conflicts != [])
      && (err.None? ==> IsResolved(push.items, pages + r.accepted, processed))
      && (err.None? ==> IsMergeOf(push, first, second, processed))
  {
    processed := NO_OUTPUT;
    var again := push.(items := toSync);
    ghost var r := Run(again, server.script);
    RunStaysWithin(again, 1, server.script);
    var resyncOutput;
    resyncOutput, err := SyncItems(server, again);
    second := resyncOutput;
    if err.Some? {
      return;
    }
    if |resyncOutput.conflicts| > 0 {
      err := Some(UnexpectedConflicts);
      return;
    }
    var items := DeDupe(first.items + resyncOutput.items);
    var deDuped := DeDupe(first.savedItems + resyncOutput.savedItems);
    var savedItems := deDuped;
    if |savedItems| > 0 {
      savedItems := UpdateTimestampsOnSavedItems(push.items, savedItems);
    }
    assert StampedFrom(push.items, deDuped, savedItems);
    processed := first.(conflicts := [], items := items, savedItems := savedItems);
    WithinEither(items, first.items, resyncOutput.items, pages, r.accepted);
  }

  lemma WithinEither(items: seq<EncryptedItem>, a: seq<EncryptedItem>, b: seq<EncryptedItem>,
                     before: seq<Exchange>, after: seq<Exchange>)
    requires Within(a, before) && Within(b, after)
    requires forall x :: x in items ==> x in a + b
    ensures Within(items, before + after)
  {
    WithinLater(b, before, after);
    forall x | x in items ensures InPages(before + after, x) {
      if x in a {
        var i :| 0 <= i < |before| && x in before[i].page.items;
        assert (before + after)[i] == before[i];
      }
    }
  }

  /** No request carries a deleted protected item. */
  ghost predicate NoProtectedDeletion(accepted: seq<Exchange>) {
    forall i, x :: 0 <= i < |accepted| && x in accepted[i].request.items ==> !DeletesProtected(x)
  }

  lemma SlicesCarryNoDeletion(items: seq<EncryptedItem>, accepted: seq<Exchange>)
    requires SlicesOf(items, accepted) && forall x :: x in items ==> !DeletesProtected(x)
    ensures NoProtectedDeletion(accepted)
  {
    forall i, x | 0 <= i < |accepted| && x in accepted[i].request.items
      ensures !DeletesProtected(x)
    {
      assert IsSlice(items, accepted[i].request);
      assert x in items;
    }
  }

  // Where a call finds or leaves things: the steps of the server to come, and the session's keys.
  datatype Point = Point(script: seq<Step>, keys: KeyRing)

  // A call of sync and what happened in its rounds: what is pushed, where it starts and ends, the
  // accepted requests and the outputs of both rounds, what the conflicts were resolved with and
  // to, and the output before saved items join the retrieved ones.
  datatype Rounds = Rounds(
    push: SyncInput, start: Point, end: Point,
    first: seq<Exchange>, second: seq<Exchange>, one: SyncOutput, two: SyncOutput,
    keys: KeyRing, resolved: seq<EncryptedItem>, processed: SyncOutput)

  function ResolvingEnv(tools: Tools, t: Rounds): Env {
    EnvOf(tools, t.keys.itemsKeys, t.keys.defaultItemsKey)
  }

  /** What stops a call before its second round. */
  function FirstError(tools: Tools, t: Rounds): Option<SyncError>
    requires t.push.nextItem == 0
  {
    var outcome := Run(t.push, t.start.script).outcome;
    if TransportError(outcome).Some? then TransportError(outcome)
    else ProcessingError(ResolvingEnv(tools, t), t.push.items, t.one)
  }

  /**
   The first round, whether it succeeds or not: its requests are those of the run that pushes
   what may be pushed, and what is resolved are the conflicts of its output.
   */
  ghost predicate IsFirstRound(tools: Tools, t: Rounds) {
    && t.push.nextItem == 0
    && var r := Run(t.push, t.start.script);
    && t.first == r.accepted
    && (r.outcome.Succeeded? ==>
          && IsOutputOf(t.push, r.outcome.out, t.one)
          && KeysReplaced(tools, t.one.items, t.one.savedItems, t.start.keys, t.keys))
    && (!r.outcome.Succeeded? ==> t.keys == t.start.keys)
    && (if FirstError(tools, t).Some? || t.one.conflicts == [] then t.resolved == []
        else ProcessAll(ResolvingEnv(tools, t), t.push.items, t.one.conflicts) == Ok(t.resolved))
  }

  /** The second round: its requests are those of the run that pushes what was resolved. */
  ghost predicate IsSecondRound(t: Rounds)
    requires t.push.nextItem == 0
  {
    var again := t.push.(items := t.resolved);
    var r := Run(again, Run(t.push, t.start.script).rest);
    && t.second == r.accepted && t.end.script == r.rest
    && (r.outcome.Succeeded? ==> IsOutputOf(again, r.outcome.out, t.two))
  }

  /**
   A call, whether it succeeds or not: a first round and, if that leaves something to push, a
   second one. On an error the session is left with the keys of the first round.
   */
  ghost predicate IsCall(tools: Tools, t: Rounds) {
    && IsFirstRound(tools, t)
    && (ErrorOf(tools, t).Some? ==> t.end.keys == t.keys)
    && if t.resolved == [] then t.second == [] && t.end.script == Run(t.push, t.start.script).rest else IsSecondRound(t)
  }

  /** The error of a call. */
  function ErrorOf(tools: Tools, t: Rounds): Option<SyncError>
    requires t.push.nextItem == 0
  {
    if FirstError(tools, t).Some? then FirstError(tools, t)
    else if t.resolved == [] then None
    else SecondError(Run(t.push.(items := t.resolved), Run(t.push, t.start.script).rest).outcome, t.two)
  }

  /** The outputs of the rounds in one; it is empty when all conflicts were skipped. */
  ghost predicate IsProcessed(t: Rounds) {
    if t.resolved == [] then t.processed == if t.one.conflicts == [] then t.one else NO_OUTPUT
    else IsMergeOf(t.push, t.one, t.two, t.processed)
  }

  /**
   The output of a call without an error is the merge of both rounds, or empty when all
   conflicts were skipped.
   */
  ghost predicate IsSync(tools: Tools, t: Rounds, output: SyncOutput) {
    && IsCall(tools, t) && ErrorOf(tools, t).None? && IsProcessed(t)
    && output == t.processed.(items := output.items)
    && IsDeDuped(t.processed.items + t.processed.savedItems, output.items)
    && KeysReplaced(tools, t.processed.items, t.processed.savedItems, t.keys, t.end.keys)
  }

  /** Everything to push, and everything resolved, was accepted. */
  ghost predicate IsDelivered(t: Rounds) {
    && (forall x :: x in t.push.items ==> InRequests(t.first, x))
    && (forall x :: x in t.resolved ==> InRequests(t.second, x))
  }

  /** What every call keeps to, on an error too: the first round deletes nothing protected. */
  ghost predicate IsGuarded(t: Rounds) {
    && SlicesOf(t.push.items, t.first) && SlicesOf(t.resolved, t.second)
    && NoProtectedDeletion(t.first)
  }

  /** The first round of a call: what it pushes, the session's new keys and the resolved conflicts. */
  method FirstRound(server: Server, session: Session, tools: Tools, push: SyncInput)
    returns (toSync: seq<EncryptedItem>, processed: SyncOutput, err: Option<SyncError>, ghost t: Rounds)
    requires push.nextItem == 0
    modifies server, session
    ensures t.push == push && t.start == old(Point(server.script, session.Keys())) && t.second == []
    ensures t.end == Point(server.script, t.keys) && t.keys == session.Keys()
    ensures server.script == Run(push, old(server.script)).rest
    ensures server.accepted == old(server.accepted) + t.first
    ensures IsFirstRound(tools, t) && err == FirstError(tools, t) && toSync == t.resolved
    ensures err.None? ==>
      && processed == (if t.resolved == [] && t.one.conflicts != [] then NO_OUTPUT else t.one)
      && IsResolved(push.items, t.first, processed.(conflicts := []))
  {
    ghost var r, start := Run(push, server.script), Point(server.script, session.Keys());
    t := Rounds(push, start, Point(r.rest, start.keys), r.accepted, [], NO_OUTPUT, NO_OUTPUT,
                start.keys, [], NO_OUTPUT);
    RunGuarantees(push, server.script);
    hide Run, IsOutputOf, KeysReplaced, ProcessingError;
    toSync, processed := [], NO_OUTPUT;
    var output;
    output, err := SyncItems(server, push);
    t := t.(one := output);
    if err.Some? {
      return;
    }
    assert IsResolved(push.items, t.first, output.(conflicts := [])) by {
      OutputResolves(push, r, output);
    }
    ProcessSessionItemsKeys(session, tools, output.items, output.savedItems);
    t := t.(keys := session.Keys(), end := Point(r.rest, session.Keys()));
    var env := EnvOf(tools, session.itemsKeys, session.defaultItemsKey);
    toSync, processed, err := ProcessSyncOutput(env, push.items, output);
    t := t.(resolved := toSync);
  }

  /** The second round of a call, if the first one left anything to push. */
  method SecondRound(server: Server, tools: Tools, toSync: seq<EncryptedItem>, ready: SyncOutput, push: SyncInput,
                     ghost first: Rounds)
    returns (processed: SyncOutput, err: Option<SyncError>, ghost t: Rounds)
    requires IsFirstRound(tools, first) && FirstError(tools, first).None? && first.push == push
    requires first.resolved == toSync && first.second == [] && first.end == Point(server.script, first.keys)
    requires server.script == Run(push, first.start.script).rest
    requires ready == (if toSync == [] && first.one.conflicts != [] then NO_OUTPUT else first.one)
    requires IsResolved(push.items, first.first, ready.(conflicts := []))
    modifies server
    ensures IsCall(tools, t) && err == ErrorOf(tools, t) && t.end == Point(server.script, first.keys)
    ensures t == first.(second := t.second, end := t.end, two := t.two, processed := t.processed)
    ensures server.accepted == old(server.accepted) + t.second
    ensures err.None? ==> IsProcessed(t) && t.processed == processed
    ensures err.None? ==> IsResolved(push.items, t.first + t.second, processed)
  {
    processed, err, t := ready, None, first.(processed := ready);
    hide Run, IsOutputOf, KeysReplaced, IsMergeOf, ProcessingError;
    if toSync == [] {
      assert t.first + t.second == t.first;
      return;
    }
    ghost var again := push.(items := toSync);
    t := t.(second := Run(again, server.script).accepted);
    ghost var two;
    processed, err, two := PushResolved(server, push, toSync, ready, first.first);
    t := t.(two := two, end := Point(server.script, first.keys), processed := processed);
  }

  /** What is left after both rounds: the session's keys, and the saved items. */
  method Conclude(session: Session, tools: Tools, filteredItems: seq<EncryptedItem>, processed: SyncOutput,
                  ghost before: Rounds)
    returns (output: SyncOutput, ghost t: Rounds)
    requires IsCall(tools, before) && ErrorOf(tools, before).None?
    requires IsProcessed(before) && before.processed == processed && before.keys == session.Keys()
    requires IsResolved(filteredItems, before.first + before.second, processed)
    modifies session
    ensures t == before.(end := Point(before.end.script, session.Keys()))
    ensures IsSync(tools, t, output) && IsSettled(filteredItems, t.first + t.second, output)
    ensures IsGuarded(before) ==> IsGuarded(t)
    ensures IsDelivered(before) ==> IsDelivered(t)
  {
    hide Run, IsFirstRound, IsSecondRound, FirstError, IsResolved, IsSettled, IsCall, ErrorOf, IsProcessed, IsGuarded,
         IsDelivered, KeysReplaced, IsDeDuped;
    ProcessSessionItemsKeys(session, tools, processed.items, processed.savedItems);
    KeysLeftFree(tools, before, session.Keys());
    t := before.(end := Point(before.end.script, session.Keys()));
    output := MergeSaved(filteredItems, processed, t.first + t.second);
  }

  lemma CallGuarantees(tools: Tools, t: Rounds)
    requires IsCall(tools, t) && forall x :: x in t.push.items ==> Allowed(x)
    ensures IsGuarded(t)
    ensures ErrorOf(tools, t).None? && Ample(t.push.pageSize, 1) ==> IsDelivered(t)
  {
    RunGuarantees(t.push, t.start.script);
    SlicesCarryNoDeletion(t.push.items, t.first);
    RunGuarantees(t.push.(items := t.resolved), Run(t.push, t.start.script).rest);
    hide Run, Ample, NoProtectedDeletion, IsOutputOf, KeysReplaced, ProcessingError;
  }

  /** Every item of a type that is not protected is in some request. */
  ghost predicate HasUnprotected(accepted: seq<Exchange>, items: seq<EncryptedItem>) {
    forall x :: x in items && x.contentType !in ["SN|ItemsKey", "SN|UserPreferences"] ==> InRequests(accepted, x)
  }

  /** What a call promises the caller about the items it was given. */
  lemma CallPromises(tools: Tools, t: Rounds, items: seq<EncryptedItem>)
    requires IsCall(tools, t) && t.push.items == Filtered(items)
    ensures IsGuarded(t)
    ensures ErrorOf(tools, t).None? && Ample(t.push.pageSize, 1) ==> IsDelivered(t) && HasUnprotected(t.first, items)
  {
    CallGuarantees(tools, t);
    hide IsCall, ErrorOf, Ample, IsGuarded;
    forall x | IsDelivered(t) && x in items && x.contentType !in ["SN|ItemsKey", "SN|UserPreferences"]
      ensures InRequests(t.first, x)
    {
      PushedExactly(items, x);
    }
  }

  /**
   A successful sync leaves no conflicts, and returns as saved only items that may be
   pushed, changed only in their update times. Everything that may be pushed has been
   accepted by the server, and so has the resolution of each of the conflicts that the
   first round reported. Requests before the resolution carry nothing else.
   */
  method Sync(server: Server, session: Session, tools: Tools, input: SyncInput)
    returns (output: SyncOutput, err: Option<SyncError>, ghost t: Rounds)
    requires input.nextItem == 0
    modifies server, session
    ensures t.push == input.(items := Filtered(input.items))
    ensures t.start == old(Point(server.script, session.Keys())) && t.end == Point(server.script, session.Keys())
    ensures server.accepted == old(server.accepted) + (t.first + t.second)
    ensures IsCall(tools, t) && IsGuarded(t)
    ensures err == ErrorOf(tools, t)
    ensures err.None? ==> IsSync(tools, t, output)
    ensures err.None? ==> IsSettled(t.push.items, t.first + t.second, output)
    ensures err.None? && Distinct(Uuid, input.items) ==> Distinct(Uuid, output.savedItems)
    ensures err.None? && Ample(input.pageSize, 1) ==> IsDelivered(t) && HasUnprotected(t.first, input.items)
  {
    output := NO_OUTPUT;
    var filteredItems := FilterItems(input.items);
    var push := input.(items := filteredItems);
    ghost var log := server.accepted;
    if Distinct(Uuid, input.items) {
      FilteredDistinct(input.items);
    }
    hide Run, Ample, Filtered, KeysReplaced, IsDeDuped, IsFirstRound, IsSecondRound, FirstError, SecondError,
         IsProcessed, IsGuarded, IsDelivered, HasUnprotected, IsResolved, IsSettled, ErrorOf, IsCall;
    var toSync, processed;
    toSync, processed, err, t := FirstRound(server, session, tools, push);
    if err.Some? {
      OneRound(tools, t);
      CallPromises(tools, t, input.items);
      assert t.first + t.second == t.first;
      return;
    }
    processed, err, t := SecondRound(server, tools, toSync, processed, push, t);
    CallPromises(tools, t, input.items);
    AppendAssociative(log, t.first, t.second);
    if err.Some? {
      return;
    }
    output, t := Conclude(session, tools, filteredItems, processed, t);
  }

  lemma OneRound(tools: Tools, t: Rounds)
    requires IsFirstRound(tools, t) && FirstError(tools, t).Some?
    requires t.second == [] && t.end == Point(Run(t.push, t.start.script).rest, t.keys)
    ensures IsCall(tools, t) && ErrorOf(tools, t) == FirstError(tools, t)
  {
  }

  /** The keys that a call without an error leaves are those of its output. */
  lemma KeysLeftFree(tools: Tools, t: Rounds, keys: KeyRing)
    requires IsCall(tools, t) && ErrorOf(tools, t).None?
    ensures var u := t.(end := Point(t.end.script, keys));
      && IsCall(tools, u) && ErrorOf(tools, u).None?
      && (IsProcessed(t) ==> IsProcessed(u)) && (IsGuarded(t) ==> IsGuarded(u)) && (IsDelivered(t) ==> IsDelivered(u))
  {
    hide Run, IsOutputOf, KeysReplaced, ProcessingError, ProcessAll, IsMergeOf;
  }

  lemma OutputResolves(input: SyncInput, r: RunResult, so: SyncOutput)
    requires r.outcome.Succeeded? && IsOutputOf(input, r.outcome.out, so) && Within(r.outcome.out.items, r.accepted)
    ensures IsResolved(input.items, r.accepted, so.(conflicts := []))
  {
  }

  lemma RunGuarantees(input: SyncInput, script: seq<Step>)
    requires Ready(input) && input.nextItem == 0
    ensures var r := Run(input, script);
      && SlicesOf(input.items, r.accepted)
      && (r.outcome.Succeeded? ==> Within(r.outcome.out.items, r.accepted))
      && (r.outcome.Succeeded? && Ample(input.pageSize, 1) ==>
            forall x :: x in input.items ==> InRequests(r.accepted, x))
  {
    RunStaysWithin(input, 1, script);
    hide Retry, SlicesOf;
    if Run(input, script).outcome.Succeeded? && Ample(input.pageSize, 1) {
      forall x | x in input.items ensures InRequests(Run(input, script).accepted, x) {
        RunDelivers(input, script, x);
      }
    }
  }

  /**
   The second round is not filtered. No request of a call, whether it succeeds or not, deletes
   anything protected unless one of its conflicts brings a deletion.
   */
  lemma NoDeletionWithoutConflict(tools: Tools, t: Rounds)
    requires IsCall(tools, t) && forall x :: x in t.push.items ==> Allowed(x)
    requires EncryptKeepsFields(tools.cipher) && DecryptKeepsFields(tools.cipher)
    ensures t.resolved != [] ==> (HasDeletion(t.resolved) <==> AnyBringsDeletion(t.push.items, t.one.conflicts))
    ensures !(t.resolved != [] && AnyBringsDeletion(t.push.items, t.one.conflicts)) ==>
      NoProtectedDeletion(t.first + t.second)
  {
    CallGuarantees(tools, t);
    hide Run, NoProtectedDeletion, IsOutputOf, KeysReplaced, SlicesOf, BringsDeletion, ProcessAll, ProcessingError,
         SecondError, IsSecondRound;
    if t.resolved != [] {
      ResolutionDeletesExactly(ResolvingEnv(tools, t), t.push.items, t.one.conflicts);
    }
    hide IsFirstRound, IsCall, FirstError, AnyBringsDeletion;
    DeletionsCarried(t);
  }

  lemma DeletionsCarried(t: Rounds)
    requires IsGuarded(t)
    ensures !HasDeletion(t.resolved) ==> NoProtectedDeletion(t.first + t.second)
    ensures IsDelivered(t) ==> (NoProtectedDeletion(t.first + t.second) <==> !HasDeletion(t.resolved))
  {
    hide SlicesOf;
    var all := t.first + t.second;
    if !HasDeletion(t.resolved) {
      SlicesCarryNoDeletion(t.resolved, t.second);
      assert forall i :: 0 <= i < |all| ==> all[i] == if i < |t.first| then t.first[i] else t.second[i - |t.first|];
    } else if IsDelivered(t) {
      var x :| x in t.resolved && DeletesProtected(x);
      var i :| 0 <= i < |t.second| && x in t.second[i].request.items;
      assert all[|t.first| + i] == t.second[i];
    }
  }

  /**
   A successful call has the server accept the deletion of a protected item exactly if one of
   the conflicts that the first round reports brings one: a matter of the conflict and the
   local items alone.
   */
  lemma DeletionsExact(tools: Tools, t: Rounds, output: SyncOutput)
    requires IsSync(tools, t, output) && Ample(t.push.pageSize, 1)
    requires forall x :: x in t.push.items ==> Allowed(x)
    requires EncryptKeepsFields(tools.cipher) && DecryptKeepsFields(tools.cipher)
    ensures NoProtectedDeletion(t.first + t.second) <==> !AnyBringsDeletion(t.push.items, t.one.conflicts)
  {
    CallGuarantees(tools, t);
    hide Run, NoProtectedDeletion, IsOutputOf, KeysReplaced, SlicesOf, BringsDeletion, ProcessAll, ProcessingError,
         SecondError, IsSecondRound, IsDeDuped, IsProcessed, Ample, IsGuarded, IsDelivered;
    if t.one.conflicts != [] {
      ResolutionDeletesExactly(ResolvingEnv(tools, t), t.push.items, t.one.conflicts);
    }
    hide IsFirstRound, IsCall, FirstError;
    DeletionsCarried(t);
  }

  /**
   A server that makes it happen: asked with nothing to push, it reports one conflict whose
   server copy is a deleted items key, and accepts what comes back. The call succeeds, and has
   deleted that key.
   */
  lemma DeletedKeyGoesOut(tools: Tools, t: Rounds, c: ConflictedItem)
    requires c.kind.SyncConflict? && c.serverItem.contentType == ITEMS_KEY && c.serverItem.deleted
    requires c.serverItem.uuid != ""
    requires IsCall(tools, t) && t.push == SyncInput([], 0, 0, "", "")
    requires t.start.script == [Accept(NO_ITEMS.(conflicts := [c])), Accept(NO_ITEMS)]
    ensures ErrorOf(tools, t).None? && InRequests(t.second, c.serverItem) && DeletesProtected(c.serverItem)
  {
    KeyComesBack(tools, t, c);
    var again := t.push.(items := [c.serverItem]);
    OneAnswer(again, NO_ITEMS, []);
    hide Run, KeysReplaced, ProcessAll, IsFirstRound, FirstError;
    assert t.two.conflicts == [];
    assert t.second[0].request.items == [c.serverItem];
  }

  lemma KeyComesBack(tools: Tools, t: Rounds, c: ConflictedItem)
    requires c.kind.SyncConflict? && c.serverItem.contentType == ITEMS_KEY && c.serverItem.deleted
    requires c.serverItem.uuid != ""
    requires IsFirstRound(tools, t) && t.push == SyncInput([], 0, 0, "", "")
    requires t.start.script == [Accept(NO_ITEMS.(conflicts := [c])), Accept(NO_ITEMS)]
    ensures FirstError(tools, t).None? && t.resolved == [c.serverItem]
    ensures Run(t.push, t.start.script).rest == [Accept(NO_ITEMS)]
  {
    var page := NO_ITEMS.(conflicts := [c]);
    assert t.start.script == [Accept(page)] + [Accept(NO_ITEMS)];
    OneAnswer(t.push, page, [Accept(NO_ITEMS)]);
    ServerKeyPushedBack(ResolvingEnv(tools, t), [], c);
    assert [c][..0] == [] && FirstConflicts([c]) == [c];
    hide Run, KeysReplaced, ProcessAll, FirstConflicts, ResolvingEnv, IsCleaned, StampedFrom, IsStampedCopy;
    assert forall x :: x in t.one.items ==> x in [];
    assert t.one.conflicts == [c];
  }

  /** An answer without a cursor to a request for at most one item ends the run. */
  lemma OneAnswer(input: SyncInput, page: Page, script: seq<Step>)
    requires input.nextItem == 0 && |input.items| <= 1 && page.items == [] && page.cursorToken == ""
    ensures var r := Run(input, [Accept(page)] + script);
      && r.outcome.Succeeded? && r.rest == script
      && r.outcome.out.items == [] && r.outcome.out.conflicts == page.conflicts
      && |r.accepted| == 1 && r.accepted[0].request.items == input.items
  {
    var all := [Accept(page)] + script;
    assert all[1..] == script;
    assert !Continues(input, page);
    RetryUnfolds(input, 1, all);
  }

  lemma ServerKeyPushedBack(env: Env, items: seq<EncryptedItem>, c: ConflictedItem)
    requires c.kind.SyncConflict? && c.serverItem.contentType == ITEMS_KEY && c.serverItem.deleted
    requires c.serverItem.uuid != ""
    ensures ProcessAll(env, items, [c]) == Ok([c.serverItem]) && BringsDeletion(items, c)
  {
    var none: map<string, string> := map[];
    assert [c][..0] == [] && none + none == none && [] + [c.serverItem] == [c.serverItem];
    assert Resolve(env, items, c, 0) == Ok(Resolution([c.serverItem], none));
    assert ResolveAll(env, items, []) == Ok(Resolution([], none));
    assert ResolveAll(env, items, [c]) == Ok(Resolution([c.serverItem], none));
    assert [c.serverItem][..0] == [] && |[c]| == 1;
    assert UpdateAll(env, [], none, 1) == Ok([]);
    assert UpdateAll(env, [c.serverItem], none, 1) == Ok([c.serverItem]);
  }

  /** Everything that the conflicts of a successful call were resolved to is in its second round. */
  lemma ResolvedReachServer(tools: Tools, t: Rounds, output: SyncOutput)
    requires IsSync(tools, t, output) && Ample(t.push.pageSize, 1) && t.one.conflicts != []
    ensures ProcessAll(ResolvingEnv(tools, t), t.push.items, t.one.conflicts) == Ok(t.resolved)
    ensures ResolveAll(ResolvingEnv(tools, t), t.push.items, t.one.conflicts).Ok?
    ensures forall x :: x in t.resolved ==> InRequests(t.second, x)
  {
    RunGuarantees(t.push.(items := t.resolved), Run(t.push, t.start.script).rest);
    hide Run, ResolveAll, UpdateAll, IsOutputOf, KeysReplaced, Ample;
  }

  /** The pushed form of the local edit that a conflict of a call is about. */
  ghost predicate CarriesEdit(tools: Tools, t: Rounds, i: nat, x: EncryptedItem)
    requires i < |t.one.conflicts| && NoLostEdit.OnLocalEdit(t.push.items, t.one.conflicts[i])
  {
    var resolved := ResolveAll(ResolvingEnv(tools, t), t.push.items, t.one.conflicts);
    resolved.Ok? &&
      NoLostEdit.PushesEdit(ResolvingEnv(tools, t), t.push.items, t.one.conflicts[i], i, x, resolved.value.remap)
  }

  /**
   After a successful call every conflict on a local edit has reached the server: some request
   of the second round that was accepted carries the local content, with its references sent
   through the remap table, under the item's own identifier or the fresh one recorded for it.
   */
  lemma EditReachesServer(tools: Tools, t: Rounds, output: SyncOutput, i: nat)
    returns (x: EncryptedItem)
    requires IsSync(tools, t, output) && Ample(t.push.pageSize, 1)
    requires Lawful(tools.cipher) && NoLostEdit.Coherent(ResolvingEnv(tools, t)) && tools.newUuid(i) != ""
    requires i < |t.one.conflicts| && NoLostEdit.OnLocalEdit(t.push.items, t.one.conflicts[i])
    requires NoLostEdit.EchoesFaithfully(t.push.items, t.one.conflicts[i])
    ensures CarriesEdit(tools, t, i, x) && InRequests(t.second, x)
  {
    ResolvedReachServer(tools, t, output);
    hide IsSync, Lawful, ProcessAll, ResolveAll, NoLostEdit.Coherent, NoLostEdit.OnLocalEdit,
         NoLostEdit.EchoesFaithfully, NoLostEdit.PushesEdit, NoLostEdit.TableOf, NoLostEdit.Rank, Ample;
    var env := ResolvingEnv(tools, t);
    NoLostEdit.NoEditIsLost(env, t.push.items, t.one.conflicts, i);
    x := t.resolved[NoLostEdit.Rank(env, t.push.items, t.one.conflicts, i)];
  }

  /**
   After a successful call every conflict on an item that was deleted locally has had the deletion
   accepted by the server, in some request of the second round.
   */
  lemma DeletionReachesServer(tools: Tools, t: Rounds, output: SyncOutput, i: nat)
    returns (x: EncryptedItem)
    requires IsSync(tools, t, output) && Ample(t.push.pageSize, 1) && i < |t.one.conflicts|
    requires Resolution.OnLocalDeletion(t.push.items, t.one.conflicts[i])
    requires Resolution.EchoesDeletion(t.push.items, t.one.conflicts[i])
    ensures Resolution.PushesDeletion(t.push.items, t.one.conflicts[i], x)
    ensures x.deleted && x.uuid == NoLostEdit.LocalUuid(t.one.conflicts[i]) && InRequests(t.second, x)
  {
    ResolvedReachServer(tools, t, output);
    hide IsSync, ProcessAll, ResolveAll, NoLostEdit.Rank, Ample, Resolution.OnLocalDeletion,
         Resolution.EchoesDeletion, Resolution.PushesDeletion;
    var env := ResolvingEnv(tools, t);
    Resolution.DeletionIsPushed(env, t.push.items, t.one.conflicts, i);
    x := t.resolved[NoLostEdit.Rank(env, t.push.items, t.one.conflicts, i)];
  }
}
