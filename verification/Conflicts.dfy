/** Conflict resolution: which version survives, under which identifier, and what refers to it. */
module Conflicts {
  import opened Records
  import opened Vault

  /** What resolution works with: encryption, new identifiers and the keys of the session. */
  datatype Env = Env(
    cipher: Cipher, newUuid: nat -> string,
    itemsKeys: seq<SessionItemsKey>, defaultKey: SessionItemsKey)

  /** The index of the first item with an identifier, or the length of the list. */
  function FirstWith(items: seq<EncryptedItem>, uuid: string): (i: nat)
    ensures i <= |items|
    ensures i < |items| ==> items[i].uuid == uuid
    ensures forall j :: 0 <= j < i ==> items[j].uuid != uuid
  {
    if items == [] || items[0].uuid == uuid then 0
    else 1 + FirstWith(items[1..], uuid)
  }

  lemma FirstWithUnique(items: seq<EncryptedItem>, uuid: string, i: nat)
    requires i <= |items| && forall j :: 0 <= j < i ==> items[j].uuid != uuid
    requires i == |items| || items[i].uuid == uuid
    ensures FirstWith(items, uuid) == i
  {
  }

  method Find(items: seq<EncryptedItem>, uuid: string) returns (i: nat)
    ensures i == FirstWith(items, uuid)
  {
    i := 0;
    while i < |items|
      invariant i <= |items| && forall j :: 0 <= j < i ==> items[j].uuid != uuid
    {
      if items[i].uuid == uuid {
        break;
      }
      i := i + 1;
    }
    FirstWithUnique(items, uuid, i);
  }

  // ---- One conflict

  datatype Resolution = Resolution(pushes: seq<EncryptedItem>, remap: map<string, string>)

  /** A copy of a local item under a fresh identifier, re-encrypted with the default key. */
  function Duplicate(env: Env, local: EncryptedItem, n: nat): Result<Resolution> {
    match env.cipher.decrypt(local, env.itemsKeys)
    case Err(fault) => Err(fault)
    case Ok(item) =>
      match env.cipher.encrypt(item.(uuid := env.newUuid(n)), env.defaultKey, n)
      case Err(fault) => Err(fault)
      case Ok(copy) => Ok(Resolution([copy], map[item.uuid := env.newUuid(n)]))
  }

  predicate KeepsIdentity(c: ConflictedItem) {
    c.kind.SyncConflict?
    && (c.serverItem.deleted || c.unsavedItem.updatedAtTimestamp > c.serverItem.updatedAtTimestamp)
  }

  function Tombstone(e: EncryptedItem): EncryptedItem {
    e.(deleted := true, content := "")
  }

  function ResolveSync(env: Env, items: seq<EncryptedItem>, c: ConflictedItem, n: nat): Result<Resolution> {
    var i := FirstWith(items, c.serverItem.uuid);
    if c.serverItem.contentType == ITEMS_KEY then Ok(Resolution([c.serverItem], map[]))
    else if c.serverItem.deleted then
      if i == |items| then Err(NotFound)
      else Ok(Resolution([items[i].(updatedAtTimestamp := c.serverItem.updatedAtTimestamp)], map[]))
    else if c.unsavedItem.updatedAtTimestamp > c.serverItem.updatedAtTimestamp then
      Ok(Resolution([c.unsavedItem.(updatedAtTimestamp := c.serverItem.updatedAtTimestamp)], map[]))
    else if i == |items| then Err(NotFound)
    else if items[i].deleted then Ok(Resolution([Tombstone(c.serverItem)], map[]))
    else Duplicate(env, items[i], n)
  }

  function ResolveUuid(env: Env, items: seq<EncryptedItem>, c: ConflictedItem, n: nat): Result<Resolution> {
    var i := FirstWith(items, c.unsavedItem.uuid);
    if i == |items| then Err(NotFound)
    else if items[i].deleted then Ok(Resolution([Tombstone(c.unsavedItem)], map[]))
    else Duplicate(env, items[i], n)
  }

  /** Nothing without an identifier is pushed. */
  function DropAnonymous(r: Result<Resolution>): Result<Resolution> {
    match r
    case Err(fault) => r
    case Ok(res) => if res.pushes != [] && res.pushes[0].uuid == "" then Ok(res.(pushes := [])) else r
  }

  function Resolve(env: Env, items: seq<EncryptedItem>, c: ConflictedItem, n: nat): Result<Resolution> {
    DropAnonymous(
      match c.kind
      case SyncConflict => ResolveSync(env, items, c, n)
      case UuidConflict => ResolveUuid(env, items, c, n)
      case ContentTypeError => Ok(Resolution([c.serverItem], map[]))
      case ContentError => Ok(Resolution([c.serverItem], map[]))
      case ReadOnlyError => Ok(Resolution([c.serverItem], map[]))
      case UuidError => Ok(Resolution([], map[]))
      case InvalidServerItem => Ok(Resolution([], map[]))
      case UnknownConflict => Err(UnhandledConflict))
  }

  /** The table of identifiers that were replaced. */
  class RefMap {
    var entries: map<string, string>

    constructor ()
      ensures entries == map[]
    {
      entries := map[];
    }

    method Set(key: string, value: string)
      modifies this
      ensures entries == old(entries)[key := value]
    {
      entries := entries[key := value];
    }
  }

  ghost predicate Recorded(before: map<string, string>, after: map<string, string>, remap: map<string, string>) {
    after == before + remap
  }

  ghost predicate Implements(r: Result<EncryptedItem>, spec: Result<Resolution>,
                             before: map<string, string>, after: map<string, string>)
  {
    if spec.Err? then r == Err(spec.fault)
    else r.Ok? && spec.value.pushes == [r.value] && Recorded(before, after, spec.value.remap)
  }

  /** The part that both kinds of duplicating conflict share. */
  method DuplicateItem(env: Env, item: EncryptedItem, n: nat, refReMap: RefMap) returns (r: Result<EncryptedItem>)
    modifies refReMap
    ensures Implements(r, Duplicate(env, item, n), old(refReMap.entries), refReMap.entries)
  {
    var di := env.cipher.decrypt(item, env.itemsKeys);
    if di.Err? {
      return Err(di.fault);
    }
    var newUuid := env.newUuid(n);
    refReMap.Set(di.value.uuid, newUuid);
    r := env.cipher.encrypt(di.value.(uuid := newUuid), env.defaultKey, n);
  }

  method ProcessSyncConflict(env: Env, items: seq<EncryptedItem>, c: ConflictedItem, n: nat, refReMap: RefMap)
    returns (r: Result<EncryptedItem>)
    modifies refReMap
    ensures Implements(r, ResolveSync(env, items, c, n), old(refReMap.entries), refReMap.entries)
  {
    if c.serverItem.contentType == ITEMS_KEY {
      return Ok(c.serverItem);
    }
    var i := Find(items, c.serverItem.uuid);
    if c.serverItem.deleted {
      if i == |items| {
        return Err(NotFound);
      }
      return Ok(items[i].(updatedAtTimestamp := c.serverItem.updatedAtTimestamp));
    }
    if c.unsavedItem.updatedAtTimestamp > c.serverItem.updatedAtTimestamp {
      return Ok(c.unsavedItem.(updatedAtTimestamp := c.serverItem.updatedAtTimestamp));
    }
    if i == |items| {
      return Err(NotFound);
    }
    if items[i].deleted {
      return Ok(c.serverItem.(deleted := true, content := ""));
    }
    r := DuplicateItem(env, items[i], n, refReMap);
  }

  method ProcessUuidConflict(env: Env, items: seq<EncryptedItem>, c: ConflictedItem, n: nat, refReMap: RefMap)
    returns (r: Result<EncryptedItem>)
    modifies refReMap
    ensures Implements(r, ResolveUuid(env, items, c, n), old(refReMap.entries), refReMap.entries)
  {
    var i := Find(items, c.unsavedItem.uuid);
    if i == |items| {
      return Err(NotFound);
    }
    if items[i].deleted {
      return Ok(c.unsavedItem.(deleted := true, content := ""));
    }
    r := DuplicateItem(env, items[i], n, refReMap);
  }

  method ProcessConflict(env: Env, items: seq<EncryptedItem>, c: ConflictedItem, n: nat, refReMap: RefMap)
    returns (r: Result<seq<EncryptedItem>>)
    modifies refReMap
    ensures var spec := Resolve(env, items, c, n);
      if spec.Err? then r == Err(spec.fault)
      else r == Ok(spec.value.pushes) && Recorded(old(refReMap.entries), refReMap.entries, spec.value.remap)
  {
    var conflictedItem;
    match c.kind {
      case SyncConflict =>
        conflictedItem := ProcessSyncConflict(env, items, c, n, refReMap);
      case UuidConflict =>
        conflictedItem := ProcessUuidConflict(env, items, c, n, refReMap);
      case ContentTypeError =>
        if c.serverItem.uuid == "" {
          return Ok([]);
        }
        conflictedItem := Ok(c.serverItem);
      case ContentError =>
        if c.serverItem.uuid == "" {
          return Ok([]);
        }
        conflictedItem := Ok(c.serverItem);
      case ReadOnlyError =>
        conflictedItem := Ok(c.serverItem);
      case UuidError =>
        return Ok([]);
      case InvalidServerItem =>
        return Ok([]);
      case UnknownConflict =>
        return Err(UnhandledConflict);
    }
    if conflictedItem.Err? {
      return Err(conflictedItem.fault);
    }
    r := Ok(if conflictedItem.value.uuid != "" then [conflictedItem.value] else []);
  }

  // ---- All conflicts

  function ResolveAll(env: Env, items: seq<EncryptedItem>, cs: seq<ConflictedItem>): Result<Resolution> {
    if cs == [] then Ok(Resolution([], map[]))
    else
      var n := |cs| - 1;
      match ResolveAll(env, items, cs[..n])
      case Err(fault) => Err(fault)
      case Ok(before) =>
        match Resolve(env, items, cs[n], n)
        case Err(fault) => Err(fault)
        case Ok(last) => Ok(Resolution(before.pushes + last.pushes, before.remap + last.remap))
  }

  // ---- References

  function RemapReference(ref: Reference, remap: map<string, string>): Reference {
    if ref.uuid in remap then ref.(uuid := remap[ref.uuid]) else ref
  }

  function RemapReferences(refs: seq<Reference>, remap: map<string, string>): seq<Reference> {
    seq(|refs|, i requires 0 <= i < |refs| => RemapReference(refs[i], remap))
  }

  function RemapContent(content: Content, remap: map<string, string>): Content {
    content.(references := RemapReferences(content.references, remap))
  }

  predicate Affected(refs: seq<Reference>, remap: map<string, string>) {
    exists i :: 0 <= i < |refs| && refs[i].uuid in remap
  }

  function UpdateRefs(env: Env, e: EncryptedItem, remap: map<string, string>, n: nat): Result<EncryptedItem> {
    if e.deleted || e.contentType == ITEMS_KEY then Ok(e)
    else if e.itemsKeyId != env.defaultKey.uuid then Err(NotDefaultKey)
    else
      match env.cipher.decrypt(e, env.itemsKeys)
      case Err(fault) => Err(fault)
      case Ok(item) =>
        if !Affected(item.content.references, remap) then Ok(e)
        else env.cipher.encrypt(item.(content := RemapContent(item.content, remap)), env.defaultKey, n)
  }

  function UpdateAll(env: Env, items: seq<EncryptedItem>, remap: map<string, string>,
                     draw: nat): Result<seq<EncryptedItem>>
  {
    if items == [] then Ok([])
    else
      var n := |items| - 1;
      match UpdateAll(env, items[..n], remap, draw)
      case Err(fault) => Err(fault)
      case Ok(before) =>
        match UpdateRefs(env, items[n], remap, draw + n)
        case Err(fault) => Err(fault)
        case Ok(last) => Ok(before + [last])
  }

  method UpdateEncryptedItemRefs(env: Env, items: seq<EncryptedItem>, refMap: map<string, string>, draw: nat)
    returns (result: Result<seq<EncryptedItem>>)
    ensures result == UpdateAll(env, items, refMap, draw)
  {
    var updatedItems := [];
    for x := 0 to |items|
      invariant UpdateAll(env, items[..x], refMap, draw) == Ok(updatedItems)
    {
      var ei := items[x];
      assert items[..x + 1][..x] == items[..x];
      if ei.deleted || ei.contentType == ITEMS_KEY {
        updatedItems := updatedItems + [ei];
        continue;
      }
      if ei.itemsKeyId != env.defaultKey.uuid {
        UpdateStops(env, items, refMap, draw, x + 1);
        return Err(NotDefaultKey);
      }
      var di := env.cipher.decrypt(ei, env.itemsKeys);
      if di.Err? {
        UpdateStops(env, items, refMap, draw, x + 1);
        return Err(di.fault);
      }
      var content := di.value.content;
      var refs, updated := content.references, false;
      for i := 0 to |refs|
        invariant |refs| == |content.references|
        invariant forall j :: 0 <= j < i ==> refs[j] == RemapReference(content.references[j], refMap)
        invariant forall j :: i <= j < |refs| ==> refs[j] == content.references[j]
        invariant updated <==> exists j :: 0 <= j < i && content.references[j].uuid in refMap
      {
        if refs[i].uuid in refMap {
          refs := refs[i := refs[i].(uuid := refMap[refs[i].uuid])];
          updated := true;
        }
      }
      if !updated {
        updatedItems := updatedItems + [ei];
        continue;
      }
      assert refs == RemapReferences(content.references, refMap);
      var encrypted := env.cipher.encrypt(
        di.value.(content := content.(references := refs)), env.defaultKey, draw + x);
      if encrypted.Err? {
        UpdateStops(env, items, refMap, draw, x + 1);
        return Err(encrypted.fault);
      }
      updatedItems := updatedItems + [encrypted.value];
    }
    assert items[..|items|] == items;
    result := Ok(updatedItems);
  }

  lemma {:induction false} UpdateStops(env: Env, items: seq<EncryptedItem>, remap: map<string, string>, draw: nat,
                          x: nat)
    requires x <= |items| && UpdateAll(env, items[..x], remap, draw).Err?
    ensures UpdateAll(env, items, remap, draw) == UpdateAll(env, items[..x], remap, draw)
    decreases |items| - x
  {
    if x == |items| {
      assert items[..x] == items;
    } else {
      assert items[..x + 1][..x] == items[..x];
      UpdateStops(env, items, remap, draw, x + 1);
    }
  }

  /** The resolved items to push, with references to duplicated items rewritten. */
  function ProcessAll(env: Env, items: seq<EncryptedItem>, cs: seq<ConflictedItem>): Result<seq<EncryptedItem>> {
    match ResolveAll(env, items, cs)
    case Err(fault) => Err(fault)
    case Ok(res) => UpdateAll(env, res.pushes, res.remap, |cs|)
  }

  lemma {:induction false} ResolveStops(env: Env, items: seq<EncryptedItem>, cs: seq<ConflictedItem>, x: nat)
    requires x <= |cs| && ResolveAll(env, items, cs[..x]).Err?
    ensures ResolveAll(env, items, cs) == ResolveAll(env, items, cs[..x])
    decreases |cs| - x
  {
    if x == |cs| {
      assert cs[..x] == cs;
    } else {
      assert cs[..x + 1][..x] == cs[..x];
      ResolveStops(env, items, cs, x + 1);
    }
  }

  method ProcessConflicts(env: Env, items: seq<EncryptedItem>, cs: seq<ConflictedItem>)
    returns (r: Result<seq<EncryptedItem>>)
    ensures r == ProcessAll(env, items, cs)
  {
    var refReMap := new RefMap();
    var conflictsToSync := [];
    for x := 0 to |cs|
      invariant fresh(refReMap)
      invariant ResolveAll(env, items, cs[..x]) == Ok(Resolution(conflictsToSync, refReMap.entries))
    {
      assert cs[..x + 1][..x] == cs[..x];
      var resolved := ProcessConflict(env, items, cs[x], x, refReMap);
      if resolved.Err? {
        ResolveStops(env, items, cs, x + 1);
        return Err(resolved.fault);
      }
      conflictsToSync := conflictsToSync + resolved.value;
    }
    assert cs[..|cs|] == cs;
    r := UpdateEncryptedItemRefs(env, conflictsToSync, refReMap.entries, |cs|);
  }
}
