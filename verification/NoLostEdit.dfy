/** What conflict resolution guarantees: no local edit is lost and no reference dangles. */
module NoLostEdit {
  import opened Records
  import opened Vault
  import opened Conflicts

  // ---- Rewriting references

  /** An item after its references were rewritten: nothing else about it may differ. */
  ghost predicate Rewritten(env: Env, before: EncryptedItem, after: EncryptedItem, remap: map<string, string>) {
    var keys := env.itemsKeys;
    && env.cipher.decrypt(before, keys).Ok? && env.cipher.decrypt(after, keys).Ok?
    && after.uuid == before.uuid && after.contentType == before.contentType && !after.deleted
    && after.createdAtTimestamp == before.createdAtTimestamp
    && after.updatedAtTimestamp == before.updatedAtTimestamp
    && after.itemsKeyId == before.itemsKeyId == env.defaultKey.uuid
    && env.cipher.decrypt(after, keys).value.content
       == RemapContent(env.cipher.decrypt(before, keys).value.content, remap)
  }

  predicate Opaque(e: EncryptedItem) {
    e.deleted || e.contentType == ITEMS_KEY
  }

  /** The session resolves its own default key. */
  predicate Coherent(env: Env) {
    env.defaultKey.itemsKey != "" && KeyText(env.defaultKey.uuid, env.itemsKeys) == env.defaultKey.itemsKey
  }

  lemma UnaffectedRemap(refs: seq<Reference>, remap: map<string, string>)
    requires !Affected(refs, remap)
    ensures RemapReferences(refs, remap) == refs
  {
  }

  lemma UpdateRefsExact(env: Env, e: EncryptedItem, remap: map<string, string>, n: nat)
    requires Lawful(env.cipher) && Coherent(env)
    requires UpdateRefs(env, e, remap, n).Ok?
    ensures var after := UpdateRefs(env, e, remap, n).value;
      if Opaque(e) then after == e
      else
        && Rewritten(env, e, after, remap)
        && (!Affected(env.cipher.decrypt(e, env.itemsKeys).value.content.references, remap) ==> after == e)
  {
    if !Opaque(e) {
      var item := env.cipher.decrypt(e, env.itemsKeys).value;
      if Affected(item.content.references, remap) {
        var changed := item.(content := RemapContent(item.content, remap));
        assert env.cipher.encrypt(changed, env.defaultKey, n).Ok?;
      } else {
        UnaffectedRemap(item.content.references, remap);
      }
    }
  }

  /**
   Rewriting keeps the count and the order of the items, sends each reference of each item
   through the table and changes nothing else; what is not affected stays identical.
   */
  lemma {:induction false} RemapExact(env: Env, items: seq<EncryptedItem>, remap: map<string, string>, draw: nat)
    requires Lawful(env.cipher) && Coherent(env)
    requires UpdateAll(env, items, remap, draw).Ok?
    ensures var after := UpdateAll(env, items, remap, draw).value;
      && |after| == |items|
      && forall i :: 0 <= i < |items| ==>
          if Opaque(items[i]) then after[i] == items[i]
          else
            && Rewritten(env, items[i], after[i], remap)
            && (!Affected(env.cipher.decrypt(items[i], env.itemsKeys).value.content.references, remap)
                ==> after[i] == items[i])
  {
    if items != [] {
      var n := |items| - 1;
      RemapExact(env, items[..n], remap, draw);
      UpdateRefsExact(env, items[n], remap, draw + n);
    }
  }

  // ---- Every local edit is pushed once

  /** The identifier of the local item a conflict is about. */
  function LocalUuid(c: ConflictedItem): string {
    if c.kind.UuidConflict? then c.unsavedItem.uuid else c.serverItem.uuid
  }

  /** A conflict on a local edit: a sync or identifier conflict whose local item is not deleted. */
  predicate OnLocalEdit(items: seq<EncryptedItem>, c: ConflictedItem) {
    && (c.kind.UuidConflict? || (c.kind.SyncConflict? && c.serverItem.contentType != ITEMS_KEY))
    && var i := FirstWith(items, LocalUuid(c));
       i < |items| && !items[i].deleted && items[i].uuid != ""
  }

  function Local(items: seq<EncryptedItem>, c: ConflictedItem): EncryptedItem
    requires OnLocalEdit(items, c)
  {
    items[FirstWith(items, LocalUuid(c))]
  }

  /** Where the returned unsaved item is pushed again, it is the item that was sent; elsewhere it is not read. */
  predicate EchoesFaithfully(items: seq<EncryptedItem>, c: ConflictedItem)
    requires OnLocalEdit(items, c)
  {
    KeepsIdentity(c) && !c.serverItem.deleted ==> c.unsavedItem == Local(items, c)
  }

  /** How many items the first conflicts of a list contribute. */
  function Rank(env: Env, items: seq<EncryptedItem>, cs: seq<ConflictedItem>, i: nat): nat
    requires i <= |cs|
  {
    match ResolveAll(env, items, cs[..i])
    case Err(_) => 0
    case Ok(res) => |res.pushes|
  }

  lemma {:induction false} ResolvedPrefix(env: Env, items: seq<EncryptedItem>, cs: seq<ConflictedItem>, i: nat)
    requires i < |cs| && ResolveAll(env, items, cs).Ok?
    ensures ResolveAll(env, items, cs[..i]).Ok? && Resolve(env, items, cs[i], i).Ok?
    ensures var pushes := ResolveAll(env, items, cs).value.pushes;
      var own := Resolve(env, items, cs[i], i).value.pushes;
      var k := Rank(env, items, cs, i);
      && k + |own| <= |pushes| && pushes[k..k + |own|] == own
      && Rank(env, items, cs, i + 1) == k + |own|
    decreases |cs|
  {
    var n := |cs| - 1;
    if i < n {
      assert cs[..n][..i] == cs[..i] && cs[..n][..i + 1] == cs[..i + 1];
      ResolvedPrefix(env, items, cs[..n], i);
    } else {
      assert cs[..i + 1] == cs;
    }
  }

  /** The duplicated local items of a list of conflicts, by identifier. */
  ghost predicate DuplicatesAs(items: seq<EncryptedItem>, c: ConflictedItem, uuid: string) {
    && LocalUuid(c) == uuid
    && !KeepsIdentity(c)
    && (c.kind.UuidConflict? || (c.kind.SyncConflict? && c.serverItem.contentType != ITEMS_KEY))
    && var i := FirstWith(items, uuid); i < |items| && !items[i].deleted
  }

  /** The table holds exactly the duplicated items, each with the identifier of its last copy. */
  ghost predicate TableOf(env: Env, items: seq<EncryptedItem>, cs: seq<ConflictedItem>, remap: map<string, string>) {
    && (forall j :: 0 <= j < |cs| && DuplicatesAs(items, cs[j], LocalUuid(cs[j])) ==> LocalUuid(cs[j]) in remap)
    && (forall u :: u in remap ==>
          exists j :: 0 <= j < |cs| && LastDuplicate(items, cs, u, j) && remap[u] == env.newUuid(j))
  }

  ghost predicate LastDuplicate(items: seq<EncryptedItem>, cs: seq<ConflictedItem>, u: string, j: nat)
    requires j < |cs|
  {
    DuplicatesAs(items, cs[j], u) && forall j' :: j < j' < |cs| ==> !DuplicatesAs(items, cs[j'], u)
  }

  lemma ResolveShape(env: Env, items: seq<EncryptedItem>, c: ConflictedItem, n: nat)
    requires Lawful(env.cipher) && Resolve(env, items, c, n).Ok?
    ensures var res := Resolve(env, items, c, n).value;
      if DuplicatesAs(items, c, LocalUuid(c)) then res.remap == map[LocalUuid(c) := env.newUuid(n)]
      else res.remap == map[]
  {
  }

  /** One more conflict replaces or adds the entry of the item it duplicates. */
  lemma TableStep(env: Env, items: seq<EncryptedItem>, cs: seq<ConflictedItem>,
                  before: map<string, string>, after: map<string, string>)
    requires cs != [] && TableOf(env, items, cs[..|cs| - 1], before)
    requires var n := |cs| - 1;
      var u := LocalUuid(cs[n]);
      after == if DuplicatesAs(items, cs[n], u) then before[u := env.newUuid(n)] else before
    ensures TableOf(env, items, cs, after)
  {
    OwnUuid(items, cs[|cs| - 1]);
    hide DuplicatesAs, LocalUuid;
    var n := |cs| - 1;
    var front := cs[..n];
    assert forall j :: 0 <= j < n ==> front[j] == cs[j];
    forall j | 0 <= j < |cs| && DuplicatesAs(items, cs[j], LocalUuid(cs[j]))
      ensures LocalUuid(cs[j]) in after
    {
      if j < n {
        assert LocalUuid(front[j]) in before;
      }
    }
    forall u | u in after
      ensures exists j :: 0 <= j < |cs| && LastDuplicate(items, cs, u, j) && after[u] == env.newUuid(j)
    {
      if DuplicatesAs(items, cs[n], u) {
        assert LastDuplicate(items, cs, u, n);
      } else {
        var j :| 0 <= j < n && LastDuplicate(items, front, u, j) && before[u] == env.newUuid(j);
        assert LastDuplicate(items, cs, u, j);
      }
    }
  }

  lemma OwnUuid(items: seq<EncryptedItem>, c: ConflictedItem)
    ensures forall u :: DuplicatesAs(items, c, u) ==> u == LocalUuid(c)
  {
  }

  lemma ResolveAllStep(env: Env, items: seq<EncryptedItem>, cs: seq<ConflictedItem>)
    requires Lawful(env.cipher) && cs != [] && ResolveAll(env, items, cs).Ok?
    ensures var n := |cs| - 1;
      var u := LocalUuid(cs[n]);
      && ResolveAll(env, items, cs[..n]).Ok?
      && var before, after := ResolveAll(env, items, cs[..n]).value.remap, ResolveAll(env, items, cs).value.remap;
         after == if DuplicatesAs(items, cs[n], u) then before[u := env.newUuid(n)] else before
  {
    ResolveShape(env, items, cs[|cs| - 1], |cs| - 1);
    hide Resolve, Lawful, DuplicatesAs, LocalUuid;
  }

  lemma {:induction false} RemapTable(env: Env, items: seq<EncryptedItem>, cs: seq<ConflictedItem>)
    requires Lawful(env.cipher) && ResolveAll(env, items, cs).Ok?
    ensures TableOf(env, items, cs, ResolveAll(env, items, cs).value.remap)
  {
    if cs != [] {
      ResolveAllStep(env, items, cs);
      hide *;
      var n := |cs| - 1;
      RemapTable(env, items, cs[..n]);
      TableStep(env, items, cs, ResolveAll(env, items, cs[..n]).value.remap, ResolveAll(env, items, cs).value.remap);
    }
  }

  /** What one conflict on a local edit resolves to, before references. */
  lemma ResolvesLocalEdit(env: Env, items: seq<EncryptedItem>, c: ConflictedItem, n: nat)
    requires Lawful(env.cipher) && Coherent(env) && env.newUuid(n) != ""
    requires OnLocalEdit(items, c) && EchoesFaithfully(items, c)
    requires Resolve(env, items, c, n).Ok?
    ensures var l := Local(items, c);
      var res := Resolve(env, items, c, n).value;
      && |res.pushes| == 1
      && (if KeepsIdentity(c) then res.pushes[0] == l.(updatedAtTimestamp := c.serverItem.updatedAtTimestamp)
          else
            && res.pushes[0].uuid == env.newUuid(n) && !Opaque(res.pushes[0])
            && res.pushes[0].createdAtTimestamp == l.createdAtTimestamp
            && res.pushes[0].updatedAtTimestamp == l.updatedAtTimestamp
            && res.pushes[0].contentType == l.contentType
            && env.cipher.decrypt(l, env.itemsKeys).Ok? && env.cipher.decrypt(res.pushes[0], env.itemsKeys).Ok?
            && env.cipher.decrypt(res.pushes[0], env.itemsKeys).value.content
               == env.cipher.decrypt(l, env.itemsKeys).value.content)
  {
    var l := Local(items, c);
    if !KeepsIdentity(c) {
      var item := env.cipher.decrypt(l, env.itemsKeys).value;
      assert env.cipher.encrypt(item.(uuid := env.newUuid(n)), env.defaultKey, n).Ok?;
    }
  }

  /** The pushed form of a local edit, once references have been rewritten. */
  ghost predicate PushesEdit(env: Env, items: seq<EncryptedItem>, c: ConflictedItem, n: nat,
                             pushed: EncryptedItem, remap: map<string, string>)
    requires OnLocalEdit(items, c)
  {
    var l := Local(items, c);
    && pushed.uuid == (if KeepsIdentity(c) then l.uuid else env.newUuid(n))
    && (KeepsIdentity(c) ==> pushed.updatedAtTimestamp == c.serverItem.updatedAtTimestamp)
    && (!KeepsIdentity(c) ==> l.uuid in remap)
    && if l.contentType == ITEMS_KEY then pushed == l.(updatedAtTimestamp := c.serverItem.updatedAtTimestamp)
       else
         && !pushed.deleted && pushed.contentType == l.contentType && pushed.itemsKeyId == env.defaultKey.uuid
         && pushed.createdAtTimestamp == l.createdAtTimestamp
         && (!KeepsIdentity(c) ==> pushed.updatedAtTimestamp == l.updatedAtTimestamp)
         && env.cipher.decrypt(l, env.itemsKeys).Ok? && env.cipher.decrypt(pushed, env.itemsKeys).Ok?
         && env.cipher.decrypt(pushed, env.itemsKeys).value.content
            == RemapContent(env.cipher.decrypt(l, env.itemsKeys).value.content, remap)
  }

  /** From the resolved item to the pushed one. */
  lemma RewrittenEdit(env: Env, items: seq<EncryptedItem>, c: ConflictedItem, n: nat,
                      own: EncryptedItem, pushed: EncryptedItem, remap: map<string, string>)
    requires Lawful(env.cipher) && Coherent(env) && env.newUuid(n) != ""
    requires OnLocalEdit(items, c) && EchoesFaithfully(items, c)
    requires Resolve(env, items, c, n).Ok? && Resolve(env, items, c, n).value.pushes == [own]
    requires if Opaque(own) then pushed == own else Rewritten(env, own, pushed, remap)
    requires KeepsIdentity(c) || LocalUuid(c) in remap
    ensures PushesEdit(env, items, c, n, pushed, remap)
  {
    var l := Local(items, c);
    ResolvesLocalEdit(env, items, c, n);
    hide Resolve, FirstWith;
    if KeepsIdentity(c) && !Opaque(l) {
      assert own.(updatedAtTimestamp := l.updatedAtTimestamp) == l;
      assert env.cipher.decrypt(own, env.itemsKeys).Ok?;
    }
  }

  lemma OwnPush(env: Env, items: seq<EncryptedItem>, cs: seq<ConflictedItem>, i: nat)
    requires Lawful(env.cipher) && Coherent(env) && i < |cs| && env.newUuid(i) != ""
    requires ResolveAll(env, items, cs).Ok?
    requires OnLocalEdit(items, cs[i]) && EchoesFaithfully(items, cs[i])
    ensures var pushes := ResolveAll(env, items, cs).value.pushes;
      var k := Rank(env, items, cs, i);
      && Rank(env, items, cs, i + 1) == k + 1 <= |pushes|
      && Resolve(env, items, cs[i], i).Ok? && Resolve(env, items, cs[i], i).value.pushes == [pushes[k]]
  {
    ResolvedPrefix(env, items, cs, i);
    ResolvesLocalEdit(env, items, cs[i], i);
    hide *;
    var pushes, k := ResolveAll(env, items, cs).value.pushes, Rank(env, items, cs, i);
    assert pushes[k] == pushes[k..k + 1][0];
  }

  lemma DuplicateIsRecorded(env: Env, items: seq<EncryptedItem>, cs: seq<ConflictedItem>, i: nat)
    requires Lawful(env.cipher) && i < |cs| && ResolveAll(env, items, cs).Ok?
    requires OnLocalEdit(items, cs[i])
    ensures KeepsIdentity(cs[i]) || LocalUuid(cs[i]) in ResolveAll(env, items, cs).value.remap
  {
    RemapTable(env, items, cs);
    hide ResolveAll, Lawful;
    if !KeepsIdentity(cs[i]) {
      assert DuplicatesAs(items, cs[i], LocalUuid(cs[i]));
    }
  }

  /**
   Whenever processing succeeds, each conflict on a faithfully echoed local edit contributes
   exactly one pushed item, at a place of its own; its content is the local content with
   references sent through the table. It keeps its identifier when the server's copy is
   deleted or older, and otherwise gets a fresh one that the table records.
   */
  lemma NoEditIsLost(env: Env, items: seq<EncryptedItem>, cs: seq<ConflictedItem>, i: nat)
    requires Lawful(env.cipher) && Coherent(env) && i < |cs| && env.newUuid(i) != ""
    requires ProcessAll(env, items, cs).Ok?
    requires OnLocalEdit(items, cs[i]) && EchoesFaithfully(items, cs[i])
    ensures var pushed := ProcessAll(env, items, cs).value;
      var remap := ResolveAll(env, items, cs).value.remap;
      var k := Rank(env, items, cs, i);
      && |pushed| == Rank(env, items, cs, |cs|)
      && Rank(env, items, cs, i + 1) == k + 1 <= |pushed|
      && PushesEdit(env, items, cs[i], i, pushed[k], remap)
      && TableOf(env, items, cs, remap)
  {
    OwnPush(env, items, cs, i);
    DuplicateIsRecorded(env, items, cs, i);
    var res, k := ResolveAll(env, items, cs).value, Rank(env, items, cs, i);
    RemapExact(env, res.pushes, res.remap, |cs|);
    RemapTable(env, items, cs);
    assert cs[..|cs|] == cs;
    hide Resolve, FirstWith, DuplicatesAs, Lawful, ResolveAll, UpdateAll, KeepsIdentity, Rewritten, Opaque, Coherent,
         LocalUuid;
    RewrittenEdit(env, items, cs[i], i, res.pushes[k], ProcessAll(env, items, cs).value[k], res.remap);
  }

  // ---- No pushed reference dangles

  /** New identifiers differ from those of all items in hand. */
  ghost predicate FreshFor(env: Env, items: seq<EncryptedItem>) {
    forall n, x :: x in items ==> env.newUuid(n) != x.uuid
  }

  /** No pushed item still refers to an identifier that was replaced. */
  lemma NoReferenceDangles(env: Env, items: seq<EncryptedItem>, cs: seq<ConflictedItem>, k: nat, r: nat)
    requires Lawful(env.cipher) && Coherent(env) && FreshFor(env, items)
    requires ProcessAll(env, items, cs).Ok? && k < |ProcessAll(env, items, cs).value|
    requires var pushed := ProcessAll(env, items, cs).value[k];
      !Opaque(pushed) && env.cipher.decrypt(pushed, env.itemsKeys).Ok?
      && r < |env.cipher.decrypt(pushed, env.itemsKeys).value.content.references|
    ensures env.cipher.decrypt(ProcessAll(env, items, cs).value[k], env.itemsKeys).value.content.references[r].uuid
      !in ResolveAll(env, items, cs).value.remap
  {
    var res := ResolveAll(env, items, cs).value;
    RemapExact(env, res.pushes, res.remap, |cs|);
    RemapTable(env, items, cs);
    var before := env.cipher.decrypt(res.pushes[k], env.itemsKeys).value.content.references[r];
    if before.uuid in res.remap {
      var j :| 0 <= j < |cs| && LastDuplicate(items, cs, before.uuid, j)
        && res.remap[before.uuid] == env.newUuid(j);
      forall u | u in res.remap ensures u != env.newUuid(j) {
        var j' :| 0 <= j' < |cs| && LastDuplicate(items, cs, u, j') && res.remap[u] == env.newUuid(j');
        assert items[FirstWith(items, u)] in items;
      }
    }
  }
}
