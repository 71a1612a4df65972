/** Which conflicts make their resolution push the deletion of a protected item. */
module Deletions {
  import opened Records
  import opened Vault
  import opened Conflicts

  predicate DeletesProtected(x: EncryptedItem) {
    x.deleted && IsProtectedType(x.contentType)
  }

  /** Whether the first local item with an identifier is deleted. */
  predicate IsGoneLocally(items: seq<EncryptedItem>, uuid: string) {
    var i := FirstWith(items, uuid);
    i < |items| && items[i].deleted
  }

  predicate BringsDeletion(items: seq<EncryptedItem>, c: ConflictedItem) {
    var server, unsaved := c.serverItem, c.unsavedItem;
    match c.kind
    case SyncConflict =>
      if server.contentType == ITEMS_KEY then server.uuid != "" && server.deleted
      else if server.deleted then false
      else if unsaved.updatedAtTimestamp > server.updatedAtTimestamp then
        unsaved.uuid != "" && DeletesProtected(unsaved)
      else server.uuid != "" && IsGoneLocally(items, server.uuid) && IsProtectedType(server.contentType)
    case UuidConflict =>
      unsaved.uuid != "" && IsGoneLocally(items, unsaved.uuid) && IsProtectedType(unsaved.contentType)
    case ContentTypeError => server.uuid != "" && DeletesProtected(server)
    case ContentError => server.uuid != "" && DeletesProtected(server)
    case ReadOnlyError => server.uuid != "" && DeletesProtected(server)
    case _ => false
  }

  predicate HasDeletion(items: seq<EncryptedItem>) {
    exists x :: x in items && DeletesProtected(x)
  }

  predicate AnyBringsDeletion(items: seq<EncryptedItem>, cs: seq<ConflictedItem>) {
    exists c :: c in cs && BringsDeletion(items, c)
  }

  lemma OneConflict(env: Env, items: seq<EncryptedItem>, c: ConflictedItem, n: nat)
    requires EncryptKeepsFields(env.cipher) && DecryptKeepsFields(env.cipher) && !HasDeletion(items)
    requires Resolve(env, items, c, n).Ok?
    ensures HasDeletion(Resolve(env, items, c, n).value.pushes) <==> BringsDeletion(items, c)
  {
    var pushes := Resolve(env, items, c, n).value.pushes;
    assert pushes == [] || pushes == [pushes[0]];
    if pushes != [] {
      assert HasDeletion(pushes) <==> DeletesProtected(pushes[0]);
    }
    var i, j := FirstWith(items, c.serverItem.uuid), FirstWith(items, c.unsavedItem.uuid);
    assert i < |items| ==> items[i] in items;
    assert j < |items| ==> items[j] in items;
  }

  lemma DeletionAppend(a: seq<EncryptedItem>, b: seq<EncryptedItem>)
    ensures HasDeletion(a + b) <==> HasDeletion(a) || HasDeletion(b)
  {
    if x :| x in a && DeletesProtected(x) {
      assert x in a + b;
    }
    if x :| x in b && DeletesProtected(x) {
      assert x in a + b;
    }
  }

  lemma {:induction false} AllConflicts(env: Env, items: seq<EncryptedItem>, cs: seq<ConflictedItem>)
    requires EncryptKeepsFields(env.cipher) && DecryptKeepsFields(env.cipher) && !HasDeletion(items)
    requires ResolveAll(env, items, cs).Ok?
    ensures HasDeletion(ResolveAll(env, items, cs).value.pushes) <==> AnyBringsDeletion(items, cs)
  {
    if cs != [] {
      var n := |cs| - 1;
      var before, last := cs[..n], cs[n];
      AllConflicts(env, items, before);
      OneConflict(env, items, last, n);
      DeletionAppend(ResolveAll(env, items, before).value.pushes, Resolve(env, items, last, n).value.pushes);
      hide Resolve, BringsDeletion, HasDeletion, EncryptKeepsFields, DecryptKeepsFields;
      assert forall c :: c in cs <==> c in before || c == last;
    }
  }

  lemma {:induction false} RewritingKeepsDeletions(env: Env, items: seq<EncryptedItem>, remap: map<string, string>,
                                                   draw: nat)
    requires EncryptKeepsFields(env.cipher) && DecryptKeepsFields(env.cipher)
    requires UpdateAll(env, items, remap, draw).Ok?
    ensures HasDeletion(UpdateAll(env, items, remap, draw).value) <==> HasDeletion(items)
  {
    if items != [] {
      var n := |items| - 1;
      RewritingKeepsDeletions(env, items[..n], remap, draw);
      var before := UpdateAll(env, items[..n], remap, draw).value;
      var last := UpdateRefs(env, items[n], remap, draw + n).value;
      assert DeletesProtected(last) <==> DeletesProtected(items[n]);
      assert items == items[..n] + [items[n]];
      DeletionAppend(items[..n], [items[n]]);
      DeletionAppend(before, [last]);
    }
  }

  /** The pushed resolution deletes something protected exactly if one of the conflicts brings that in. */
  lemma ResolutionDeletesExactly(env: Env, items: seq<EncryptedItem>, cs: seq<ConflictedItem>)
    requires EncryptKeepsFields(env.cipher) && DecryptKeepsFields(env.cipher) && !HasDeletion(items)
    requires ProcessAll(env, items, cs).Ok?
    ensures HasDeletion(ProcessAll(env, items, cs).value) <==> AnyBringsDeletion(items, cs)
  {
    var res := ResolveAll(env, items, cs).value;
    AllConflicts(env, items, cs);
    RewritingKeepsDeletions(env, res.pushes, res.remap, |cs|);
  }
}
