/** When conflict resolution succeeds, and what conflicts other than those on local edits have pushed. */
module Resolution {
  import opened Records
  import opened Vault
  import opened Conflicts
  import opened NoLostEdit
  import opened Deletions

  // ---- Deletions of local items

  /** A sync or identifier conflict on an item that was deleted locally. */
  predicate OnLocalDeletion(items: seq<EncryptedItem>, c: ConflictedItem) {
    && (c.kind.UuidConflict? || (c.kind.SyncConflict? && c.serverItem.contentType != "SN|ItemsKey"))
    && IsGoneLocally(items, LocalUuid(c)) && LocalUuid(c) != ""
  }

  /** What is pushed for such a conflict: the deletion, in the version that the server can take. */
  ghost predicate PushesDeletion(items: seq<EncryptedItem>, c: ConflictedItem, pushed: EncryptedItem)
    requires OnLocalDeletion(items, c)
  {
    var l := items[FirstWith(items, LocalUuid(c))];
    if c.kind.UuidConflict? then pushed == c.unsavedItem.(deleted := true, content := "")
    else if c.serverItem.deleted then pushed == l.(updatedAtTimestamp := c.serverItem.updatedAtTimestamp)
    else if c.unsavedItem.updatedAtTimestamp > c.serverItem.updatedAtTimestamp then
      c.unsavedItem == l ==> pushed == l.(updatedAtTimestamp := c.serverItem.updatedAtTimestamp)
    else pushed == c.serverItem.(deleted := true, content := "")
  }

  /** The server returned the item that was sent, where that one is pushed again. */
  predicate EchoesDeletion(items: seq<EncryptedItem>, c: ConflictedItem)
    requires OnLocalDeletion(items, c)
  {
    c.kind.SyncConflict? && !c.serverItem.deleted
    && c.unsavedItem.updatedAtTimestamp > c.serverItem.updatedAtTimestamp
    ==> c.unsavedItem == items[FirstWith(items, LocalUuid(c))]
  }

  /** Rewriting references keeps the places of the items, and leaves deleted ones and items keys as they are. */
  lemma {:induction false} OpaqueStays(env: Env, items: seq<EncryptedItem>, remap: map<string, string>, draw: nat)
    requires UpdateAll(env, items, remap, draw).Ok?
    ensures var after := UpdateAll(env, items, remap, draw).value;
      |after| == |items| && forall k :: 0 <= k < |items| && Opaque(items[k]) ==> after[k] == items[k]
  {
    if items != [] {
      OpaqueStays(env, items[..|items| - 1], remap, draw);
    }
  }

  /**
   Whenever processing succeeds, each conflict on an item that was deleted locally contributes
   exactly one pushed item, at a place of its own, and that one is deleted under the same identifier.
   */
  lemma DeletionIsPushed(env: Env, items: seq<EncryptedItem>, cs: seq<ConflictedItem>, i: nat)
    requires i < |cs| && ProcessAll(env, items, cs).Ok?
    requires OnLocalDeletion(items, cs[i]) && EchoesDeletion(items, cs[i])
    ensures var pushed := ProcessAll(env, items, cs).value;
      var k := Rank(env, items, cs, i);
      && Rank(env, items, cs, i + 1) == k + 1 <= |pushed|
      && PushesDeletion(items, cs[i], pushed[k])
      && pushed[k].deleted && pushed[k].uuid == LocalUuid(cs[i])
  {
    var res := ResolveAll(env, items, cs).value;
    ResolvedPrefix(env, items, cs, i);
    OpaqueStays(env, res.pushes, res.remap, |cs|);
    hide ResolveAll, UpdateAll, Rank;
    var own, k := Resolve(env, items, cs[i], i).value.pushes, Rank(env, items, cs, i);
    assert |own| == 1 && PushesDeletion(items, cs[i], own[0]);
    assert res.pushes[k] == res.pushes[k..k + 1][0] == own[0];
  }

  // ---- The server's copy

  /** The conflicts that are resolved in favour of the server's copy, whatever there is locally. */
  predicate TakesServerCopy(c: ConflictedItem) {
    || c.kind.ContentTypeError? || c.kind.ContentError? || c.kind.ReadOnlyError?
    || (c.kind.SyncConflict? && c.serverItem.contentType == "SN|ItemsKey")
  }

  /** The server's copy is pushed in its place, but for its references, unless it has no identifier. */
  lemma ServerCopyIsPushed(env: Env, items: seq<EncryptedItem>, cs: seq<ConflictedItem>, i: nat)
    requires Lawful(env.cipher) && Coherent(env)
    requires i < |cs| && ProcessAll(env, items, cs).Ok? && TakesServerCopy(cs[i])
    ensures var server, pushed := cs[i].serverItem, ProcessAll(env, items, cs).value;
      var k := Rank(env, items, cs, i);
      if server.uuid == "" then Rank(env, items, cs, i + 1) == k
      else
        && Rank(env, items, cs, i + 1) == k + 1 <= |pushed|
        && if Opaque(server) then pushed[k] == server
           else Rewritten(env, server, pushed[k], ResolveAll(env, items, cs).value.remap)
  {
    var res := ResolveAll(env, items, cs).value;
    ResolvedPrefix(env, items, cs, i);
    RemapExact(env, res.pushes, res.remap, |cs|);
    hide ResolveAll, UpdateAll, Rank, Lawful, Rewritten, Coherent;
    var own, k := Resolve(env, items, cs[i], i).value.pushes, Rank(env, items, cs, i);
    if cs[i].serverItem.uuid != "" {
      assert own == [cs[i].serverItem];
      assert res.pushes[k] == res.pushes[k..k + 1][0] == own[0];
    }
  }

  /** Errors about an identifier and invalid server items have nothing pushed. */
  lemma NothingIsPushed(env: Env, items: seq<EncryptedItem>, cs: seq<ConflictedItem>, i: nat)
    requires i < |cs| && ResolveAll(env, items, cs).Ok? && (cs[i].kind.UuidError? || cs[i].kind.InvalidServerItem?)
    ensures Rank(env, items, cs, i + 1) == Rank(env, items, cs, i)
  {
    ResolvedPrefix(env, items, cs, i);
  }

  // ---- When it succeeds

  /** The default key of the session encrypts whatever it is given. */
  ghost predicate Encrypts(env: Env) {
    forall item, n :: env.cipher.encrypt(item, env.defaultKey, n).Ok?
  }

  predicate Readable(env: Env, e: EncryptedItem) {
    env.cipher.decrypt(e, env.itemsKeys).Ok?
  }

  /** An item can be pushed: it is dropped, it is not looked into, or it is readable under the default key. */
  predicate CanBePushed(env: Env, e: EncryptedItem) {
    || e.uuid == "" || e.deleted || e.contentType == "SN|ItemsKey"
    || (e.itemsKeyId == env.defaultKey.uuid && Readable(env, e))
  }

  /** The local item of a conflict is there, and readable if it must be copied. */
  predicate CanBeCopied(env: Env, items: seq<EncryptedItem>, uuid: string) {
    var i := FirstWith(items, uuid);
    i < |items| && (items[i].deleted || Readable(env, items[i]))
  }

  predicate Settles(env: Env, items: seq<EncryptedItem>, c: ConflictedItem) {
    var server, unsaved := c.serverItem, c.unsavedItem;
    match c.kind
    case SyncConflict =>
      if server.contentType == "SN|ItemsKey" then true
      else if server.deleted then
        var i := FirstWith(items, server.uuid);
        i < |items| && CanBePushed(env, items[i])
      else if unsaved.updatedAtTimestamp > server.updatedAtTimestamp then CanBePushed(env, unsaved)
      else CanBeCopied(env, items, server.uuid)
    case UuidConflict => CanBeCopied(env, items, unsaved.uuid)
    case UuidError => true
    case InvalidServerItem => true
    case UnknownConflict => false
    case _ => CanBePushed(env, server)
  }

  ghost predicate AllCanBePushed(env: Env, items: seq<EncryptedItem>) {
    forall x :: x in items ==> CanBePushed(env, x)
  }

  ghost predicate AllSettle(env: Env, items: seq<EncryptedItem>, cs: seq<ConflictedItem>) {
    forall c :: c in cs ==> Settles(env, items, c)
  }

  /** The stamp of an item makes no difference. */
  lemma StampedCanBePushed(env: Env, e: EncryptedItem, stamp: int)
    requires IgnoresStamp(env.cipher)
    ensures CanBePushed(env, e.(updatedAtTimestamp := stamp)) <==> CanBePushed(env, e)
  {
    var e' := e.(updatedAtTimestamp := stamp);
    assert e'.(updatedAtTimestamp := e.updatedAtTimestamp) == e;
    if Readable(env, e') {
      assert env.cipher.decrypt(e', env.itemsKeys).Ok?;
    }
    if Readable(env, e) {
      assert env.cipher.decrypt(e, env.itemsKeys).Ok?;
    }
  }

  /** A copy can be made of what is readable, and can be pushed. */
  lemma CopyCanBePushed(env: Env, local: EncryptedItem, n: nat)
    requires Lawful(env.cipher) && Coherent(env) && Encrypts(env)
    ensures Duplicate(env, local, n).Ok? <==> Readable(env, local)
    ensures Duplicate(env, local, n).Ok? ==> AllCanBePushed(env, Duplicate(env, local, n).value.pushes)
  {
    if Readable(env, local) {
      var item := env.cipher.decrypt(local, env.itemsKeys).value;
      assert env.cipher.encrypt(item.(uuid := env.newUuid(n)), env.defaultKey, n).Ok?;
    }
  }

  lemma OneSettles(env: Env, items: seq<EncryptedItem>, c: ConflictedItem, n: nat)
    requires Lawful(env.cipher) && Coherent(env) && Encrypts(env)
    ensures var r := Resolve(env, items, c, n);
      r.Ok? && AllCanBePushed(env, r.value.pushes) <==> Settles(env, items, c)
  {
    var i, j := FirstWith(items, c.serverItem.uuid), FirstWith(items, c.unsavedItem.uuid);
    if i < |items| {
      StampedCanBePushed(env, items[i], c.serverItem.updatedAtTimestamp);
      CopyCanBePushed(env, items[i], n);
    }
    if j < |items| {
      CopyCanBePushed(env, items[j], n);
    }
    StampedCanBePushed(env, c.unsavedItem, c.serverItem.updatedAtTimestamp);
    hide Lawful, Coherent, Encrypts, Readable, Duplicate, FirstWith;
    var r := Resolve(env, items, c, n);
    if r.Ok? && r.value.pushes != [] {
      assert AllCanBePushed(env, r.value.pushes) ==> CanBePushed(env, r.value.pushes[0]);
    }
  }

  lemma {:induction false} ResolvedSettle(env: Env, items: seq<EncryptedItem>, cs: seq<ConflictedItem>)
    requires Lawful(env.cipher) && Coherent(env) && Encrypts(env)
    ensures var r := ResolveAll(env, items, cs);
      r.Ok? && AllCanBePushed(env, r.value.pushes) <==> AllSettle(env, items, cs)
  {
    if cs != [] {
      var n := |cs| - 1;
      var front, last := cs[..n], cs[n];
      ResolvedSettle(env, items, front);
      OneSettles(env, items, last, n);
      hide Resolve, Settles, CanBePushed, Lawful, Coherent, Encrypts;
      assert forall c :: c in cs <==> c in front || c == last;
    }
  }

  lemma {:induction false} UpdatedExactly(env: Env, items: seq<EncryptedItem>, remap: map<string, string>, draw: nat)
    requires Encrypts(env) && forall x :: x in items ==> x.uuid != ""
    ensures UpdateAll(env, items, remap, draw).Ok? <==> AllCanBePushed(env, items)
  {
    if items != [] {
      var front, last := items[..|items| - 1], items[|items| - 1];
      UpdatedExactly(env, front, remap, draw);
      assert UpdateRefs(env, last, remap, draw + |front|).Ok? <==> CanBePushed(env, last);
      hide UpdateRefs, CanBePushed, Encrypts;
      assert forall x :: x in items <==> x in front || x == last;
    }
  }

  lemma {:induction false} PushesAreNamed(env: Env, items: seq<EncryptedItem>, cs: seq<ConflictedItem>)
    requires ResolveAll(env, items, cs).Ok?
    ensures forall x :: x in ResolveAll(env, items, cs).value.pushes ==> x.uuid != ""
  {
    if cs != [] {
      PushesAreNamed(env, items, cs[..|cs| - 1]);
    }
  }

  /**
   As long as the session's default key encrypts, processing succeeds if and only if every conflict
   settles, each for itself: its kind is known, a local item it needs is there, what must be read
   can be read, and what is pushed unread names the default key.
   */
  lemma ProcessingSucceedsExactly(env: Env, items: seq<EncryptedItem>, cs: seq<ConflictedItem>)
    requires Lawful(env.cipher) && Coherent(env) && Encrypts(env)
    ensures ProcessAll(env, items, cs).Ok? <==> forall c :: c in cs ==> Settles(env, items, c)
  {
    ResolvedSettle(env, items, cs);
    if ResolveAll(env, items, cs).Ok? {
      var res := ResolveAll(env, items, cs).value;
      PushesAreNamed(env, items, cs);
      UpdatedExactly(env, res.pushes, res.remap, |cs|);
    }
  }
}
