/** Merging the items keys found in the cache or on the server with those of the session. */
module KeyMerge {
  import opened Prelude
  import opened Records
  import opened Newest
  import opened ItemsSync

  /** The version of a session key that is kept: the other list's first match, if it is newer. */
  function Held(s: SessionItemsKey, another: seq<SessionItemsKey>): (held: SessionItemsKey)
    ensures held.uuid == s.uuid && held.updatedAtTimestamp >= s.updatedAtTimestamp
  {
    if another == [] then s
    else if another[0].uuid == s.uuid then Pick(KeyStamp, s, another[0])
    else Held(s, another[1..])
  }

  function HeldAll(sessionList: seq<SessionItemsKey>, another: seq<SessionItemsKey>): (held: seq<SessionItemsKey>)
    ensures |held| == |sessionList|
    ensures forall i :: 0 <= i < |held| ==> held[i] == Held(sessionList[i], another)
  {
    if sessionList == [] then []
    else HeldAll(sessionList[..|sessionList| - 1], another) + [Held(sessionList[|sessionList| - 1], another)]
  }

  predicate HasKey(keys: seq<SessionItemsKey>, uuid: string) {
    exists i :: 0 <= i < |keys| && keys[i].uuid == uuid
  }

  function Missing(another: seq<SessionItemsKey>, held: seq<SessionItemsKey>): (missing: seq<SessionItemsKey>)
    ensures forall k :: k in missing <==> k in another && !HasKey(held, k.uuid)
  {
    if another == [] then []
    else
      var last := another[|another| - 1];
      Missing(another[..|another| - 1], held) + if HasKey(held, last.uuid) then [] else [last]
  }

  function Merge(sessionList: seq<SessionItemsKey>, another: seq<SessionItemsKey>): seq<SessionItemsKey> {
    HeldAll(sessionList, another) + Missing(another, HeldAll(sessionList, another))
  }

  lemma {:induction false} HeldAt(s: SessionItemsKey, another: seq<SessionItemsKey>, i: nat)
    requires i <= |another| && forall j :: 0 <= j < i ==> another[j].uuid != s.uuid
    ensures i == |another| ==> Held(s, another) == s
    ensures i < |another| && another[i].uuid == s.uuid ==> Held(s, another) == Pick(KeyStamp, s, another[i])
  {
    if i > 0 {
      HeldAt(s, another[1..], i - 1);
    }
  }

  method FindHeld(s: SessionItemsKey, another: seq<SessionItemsKey>) returns (held: SessionItemsKey)
    ensures held == Held(s, another)
  {
    for j := 0 to |another|
      invariant forall k :: 0 <= k < j ==> another[k].uuid != s.uuid
    {
      var a := another[j];
      if a.uuid == s.uuid {
        HeldAt(s, another, j);
        return if a.updatedAtTimestamp > s.updatedAtTimestamp then a else s;
      }
    }
    HeldAt(s, another, |another|);
    held := s;
  }

  method FindKey(keys: seq<SessionItemsKey>, uuid: string) returns (found: bool)
    ensures found == HasKey(keys, uuid)
  {
    for j := 0 to |keys|
      invariant forall k :: 0 <= k < j ==> keys[k].uuid != uuid
    {
      if uuid == keys[j].uuid {
        return true;
      }
    }
    found := false;
  }

  lemma HeldStep(sessionList: seq<SessionItemsKey>, another: seq<SessionItemsKey>, i: nat)
    requires i < |sessionList|
    ensures HeldAll(sessionList[..i + 1], another)
      == HeldAll(sessionList[..i], another) + [Held(sessionList[i], another)]
  {
    assert sessionList[..i + 1][..i] == sessionList[..i];
  }

  lemma MissingStep(another: seq<SessionItemsKey>, held: seq<SessionItemsKey>, i: nat)
    requires i < |another|
    ensures Missing(another[..i + 1], held)
      == Missing(another[..i], held) + if HasKey(held, another[i].uuid) then [] else [another[i]]
  {
    assert another[..i + 1][..i] == another[..i];
  }

  method MergeItemsKeysSlices(sessionList: seq<SessionItemsKey>, another: seq<SessionItemsKey>)
    returns (out: seq<SessionItemsKey>)
    ensures out == Merge(sessionList, another)
  {
    var holdingList := [];
    assert HeldAll(sessionList[..0], another) == [];
    assert Missing(another[..0], HeldAll(sessionList, another)) == [];
    hide HeldAll, Held, Missing, HasKey;
    for i := 0 to |sessionList|
      invariant holdingList == HeldAll(sessionList[..i], another)
    {
      HeldStep(sessionList, another, i);
      var held := FindHeld(sessionList[i], another);
      holdingList := holdingList + [held];
    }
    assert sessionList[..|sessionList|] == sessionList;
    out := holdingList;
    for i := 0 to |another|
      invariant out == holdingList + Missing(another[..i], holdingList)
    {
      MissingStep(another, holdingList, i);
      var found := FindKey(holdingList, another[i].uuid);
      if !found {
        out := out + [another[i]];
      }
    }
    assert another[..|another|] == another;
  }

  lemma {:induction false} MissingDistinct(another: seq<SessionItemsKey>, held: seq<SessionItemsKey>)
    requires Distinct(KeyUuid, another)
    ensures Distinct(KeyUuid, Missing(another, held))
  {
    if another != [] {
      DistinctFront(KeyUuid, another, |another| - 1);
      MissingDistinct(another[..|another| - 1], held);
    }
  }

  function Versions(keys: seq<SessionItemsKey>): map<string, SessionItemsKey> {
    Survivors(KeyUuid, KeyStamp, keys)
  }

  lemma {:induction false} HeldIsPick(s: SessionItemsKey, another: seq<SessionItemsKey>)
    requires Distinct(KeyUuid, another)
    ensures Held(s, another)
      == if s.uuid in Versions(another) then Pick(KeyStamp, s, Versions(another)[s.uuid]) else s
  {
    DistinctSurvive(KeyUuid, KeyStamp, another);
    if i :| 0 <= i < |another| && another[i].uuid == s.uuid {
      HeldAt(s, another, i);
    } else {
      HeldAt(s, another, |another|);
    }
  }

  lemma HeldKeys(sessionList: seq<SessionItemsKey>, another: seq<SessionItemsKey>, u: string)
    ensures HasKey(HeldAll(sessionList, another), u) <==> HasKey(sessionList, u)
  {
    var held := HeldAll(sessionList, another);
    if i :| 0 <= i < |sessionList| && sessionList[i].uuid == u {
      assert held[i].uuid == u;
    }
    if i :| 0 <= i < |held| && held[i].uuid == u {
      assert sessionList[i].uuid == u;
    }
  }

  lemma VersionsOf(keys: seq<SessionItemsKey>, u: string)
    requires Distinct(KeyUuid, keys)
    ensures u in Versions(keys) <==> HasKey(keys, u)
    ensures u in Versions(keys) ==> Versions(keys)[u] in keys && Versions(keys)[u].uuid == u
    ensures forall k :: k in keys && k.uuid == u ==> u in Versions(keys) && Versions(keys)[u] == k
  {
    DistinctSurvive(KeyUuid, KeyStamp, keys);
    SurvivorsAreFirstNewest(KeyUuid, KeyStamp, keys, u);
  }

  lemma MergeDistinct(sessionList: seq<SessionItemsKey>, another: seq<SessionItemsKey>)
    requires Distinct(KeyUuid, sessionList) && Distinct(KeyUuid, another)
    ensures Distinct(KeyUuid, Merge(sessionList, another))
  {
    var held := HeldAll(sessionList, another);
    var missing := Missing(another, held);
    MissingDistinct(another, held);
    forall i, j | 0 <= i < |held| && 0 <= j < |missing| ensures held[i].uuid != missing[j].uuid {
      assert missing[j] in missing;
    }
    assert forall i :: 0 <= i < |held| ==> held[i].uuid == sessionList[i].uuid;
  }

  /** The version of one key in the merged list. */
  lemma MergedVersion(sessionList: seq<SessionItemsKey>, another: seq<SessionItemsKey>, u: string)
    requires Distinct(KeyUuid, sessionList) && Distinct(KeyUuid, another)
    ensures var joined := Join(KeyStamp, Versions(sessionList), Versions(another));
      var merged := Versions(Merge(sessionList, another));
      (u in merged <==> u in joined) && (u in joined ==> merged[u] == joined[u])
  {
    var held := HeldAll(sessionList, another);
    var missing := Missing(another, held);
    var merged := held + missing;
    MergeDistinct(sessionList, another);
    VersionsOf(sessionList, u);
    VersionsOf(another, u);
    VersionsOf(merged, u);
    HeldKeys(sessionList, another, u);
    if i :| 0 <= i < |sessionList| && sessionList[i].uuid == u {
      HeldIsPick(sessionList[i], another);
      assert merged[i] == held[i] && merged[i] in merged;
    } else if u in Versions(another) {
      assert Versions(another)[u] in missing;
      assert Versions(another)[u] in merged;
    } else if k :| k in merged && k.uuid == u {
      assert false;
    }
  }

  /**
   For lists without duplicates, the merged list has none either, covers both, holds the
   newer version of each key with ties going to the session, and keeps the session's order first.
   */
  lemma MergeIsJoin(sessionList: seq<SessionItemsKey>, another: seq<SessionItemsKey>)
    requires Distinct(KeyUuid, sessionList) && Distinct(KeyUuid, another)
    ensures var merged := Merge(sessionList, another);
      && Distinct(KeyUuid, merged)
      && Versions(merged) == Join(KeyStamp, Versions(sessionList), Versions(another))
      && |merged| >= |sessionList|
      && forall i :: 0 <= i < |sessionList| ==> merged[i].uuid == sessionList[i].uuid
  {
    MergeDistinct(sessionList, another);
    var joined := Join(KeyStamp, Versions(sessionList), Versions(another));
    var merged := Versions(Merge(sessionList, another));
    forall u ensures (u in merged <==> u in joined) && (u in joined ==> merged[u] == joined[u]) {
      MergedVersion(sessionList, another, u);
    }
    assert merged == joined;
  }

  /** As maps, merging is associative, and merging the same list again changes nothing. */
  lemma MergeLaws(a: seq<SessionItemsKey>, b: seq<SessionItemsKey>, c: seq<SessionItemsKey>)
    requires Distinct(KeyUuid, a) && Distinct(KeyUuid, b) && Distinct(KeyUuid, c)
    ensures Versions(Merge(Merge(a, b), c)) == Versions(Merge(a, Merge(b, c)))
    ensures Versions(Merge(Merge(a, b), b)) == Versions(Merge(a, b))
    ensures Versions(Merge(a, a)) == Versions(a)
  {
    MergeIsJoin(a, b);
    MergeIsJoin(b, c);
    MergeIsJoin(Merge(a, b), c);
    MergeIsJoin(a, Merge(b, c));
    MergeIsJoin(Merge(a, b), b);
    MergeIsJoin(a, a);
    JoinAssociative(KeyStamp, Versions(a), Versions(b), Versions(c));
    JoinIdempotent(KeyStamp, Versions(a), Versions(b));
  }

  /** A key is still there, in a version that is at least as new. */
  ghost predicate KeptIn(k: SessionItemsKey, after: seq<SessionItemsKey>) {
    exists j :: 0 <= j < |after| && after[j].uuid == k.uuid && after[j].updatedAtTimestamp >= k.updatedAtTimestamp
  }

  ghost predicate Keeps(before: seq<SessionItemsKey>, after: seq<SessionItemsKey>) {
    forall k :: k in before ==> KeptIn(k, after)
  }

  lemma MergeKeeps(sessionList: seq<SessionItemsKey>, another: seq<SessionItemsKey>)
    ensures Keeps(sessionList, Merge(sessionList, another))
  {
    var merged := Merge(sessionList, another);
    forall k | k in sessionList ensures KeptIn(k, merged) {
      var i :| 0 <= i < |sessionList| && sessionList[i] == k;
      assert merged[i] == Held(k, another);
    }
  }

  lemma KeepsTransitive(a: seq<SessionItemsKey>, b: seq<SessionItemsKey>, c: seq<SessionItemsKey>)
    requires Keeps(a, b) && Keeps(b, c)
    ensures Keeps(a, c)
  {
    forall k | k in a ensures KeptIn(k, c) {
      var j :| 0 <= j < |b| && b[j].uuid == k.uuid && b[j].updatedAtTimestamp >= k.updatedAtTimestamp;
      assert KeptIn(b[j], c);
    }
  }

  lemma KeepsItself(keys: seq<SessionItemsKey>)
    ensures Keeps(keys, keys)
  {
    forall k | k in keys ensures KeptIn(k, keys) {
      var i :| 0 <= i < |keys| && keys[i] == k;
    }
  }

  function MergeMany(sessionList: seq<SessionItemsKey>, batches: seq<seq<SessionItemsKey>>): seq<SessionItemsKey> {
    if batches == [] then sessionList
    else Merge(MergeMany(sessionList, batches[..|batches| - 1]), batches[|batches| - 1])
  }

  /** However often keys are processed, no session key is dropped or replaced by an older version. */
  lemma {:induction false} MergeManyKeeps(sessionList: seq<SessionItemsKey>, batches: seq<seq<SessionItemsKey>>)
    ensures Keeps(sessionList, MergeMany(sessionList, batches))
  {
    if batches != [] {
      var before := MergeMany(sessionList, batches[..|batches| - 1]);
      MergeManyKeeps(sessionList, batches[..|batches| - 1]);
      MergeKeeps(before, batches[|batches| - 1]);
      KeepsTransitive(sessionList, before, MergeMany(sessionList, batches));
    }
  }

  /** A synced key keeps its text and its stamps; whether it is the default is not carried over. */
  function Synced(k: SessionItemsKey): SessionItemsKey {
    SessionItemsKey(k.uuid, k.itemsKey, "", false, "", "", k.createdAtTimestamp, k.updatedAtTimestamp, false)
  }

  function SyncedAll(keys: seq<SessionItemsKey>): (synced: seq<SessionItemsKey>)
    ensures |synced| == |keys| && forall i :: 0 <= i < |keys| ==> synced[i] == Synced(keys[i])
  {
    if keys == [] then [] else SyncedAll(keys[..|keys| - 1]) + [Synced(keys[|keys| - 1])]
  }

  /**
   A key that is read and is newer than the session's version of it, if there is one, is in the
   session afterwards, with its text and its stamps; it is not marked as default.
   */
  lemma NewerKeyArrives(sessionList: seq<SessionItemsKey>, keys: seq<SessionItemsKey>, i: nat)
    returns (m: SessionItemsKey)
    requires i < |keys| && forall j :: 0 <= j < i ==> keys[j].uuid != keys[i].uuid
    requires forall s :: s in sessionList && s.uuid == keys[i].uuid ==>
      s.updatedAtTimestamp < keys[i].updatedAtTimestamp
    ensures m in Merge(sessionList, SyncedAll(keys)) && m.uuid == keys[i].uuid && m.itemsKey == keys[i].itemsKey
    ensures m.createdAtTimestamp == keys[i].createdAtTimestamp && m.updatedAtTimestamp == keys[i].updatedAtTimestamp
    ensures !m.isDefault && !m.deleted
  {
    var another := SyncedAll(keys);
    m := another[i];
    var held := HeldAll(sessionList, another);
    if n :| 0 <= n < |sessionList| && sessionList[n].uuid == m.uuid {
      HeldAt(sessionList[n], another, i);
      assert held[n] == m;
    } else {
      HeldKeys(sessionList, another, m.uuid);
      assert m in Missing(another, held);
    }
  }

  /** The index of the first key marked as default, or the length of the list. */
  predicate FirstDefault(keys: seq<SessionItemsKey>, i: nat) {
    i <= |keys| && (forall j :: 0 <= j < i ==> !keys[j].isDefault) && (i < |keys| ==> keys[i].isDefault)
  }

  /**
   The first of the most recently created keys before an index, among those with a positive
   creation time; the length of the list when there is none.
   */
  predicate IsLatest(keys: seq<SessionItemsKey>, upto: nat, latest: nat) {
    && upto <= |keys|
    && (latest == |keys| || (latest < upto && keys[latest].createdAtTimestamp > 0))
    && (latest == |keys| ==> forall j :: 0 <= j < upto ==> keys[j].createdAtTimestamp <= 0)
    && (latest < |keys| ==> forall j :: 0 <= j < upto ==>
          && keys[j].createdAtTimestamp <= keys[latest].createdAtTimestamp
          && (j < latest ==> keys[j].createdAtTimestamp < keys[latest].createdAtTimestamp))
  }

  /** The first marked key, and the latest key up to and including it. */
  predicate Picked(keys: seq<SessionItemsKey>, marked: nat, latest: nat) {
    FirstDefault(keys, marked) && IsLatest(keys, Min(marked + 1, |keys|), latest)
  }

  method PickDefault(keys: seq<SessionItemsKey>) returns (marked: nat, latest: nat)
    ensures Picked(keys, marked, latest)
  {
    marked, latest := 0, |keys|;
    while marked < |keys|
      invariant marked <= |keys| && forall j :: 0 <= j < marked ==> !keys[j].isDefault
      invariant IsLatest(keys, marked, latest)
    {
      if keys[marked].createdAtTimestamp > (if latest < |keys| then keys[latest].createdAtTimestamp else 0) {
        latest := marked;
      }
      if keys[marked].isDefault {
        break;
      }
      marked := marked + 1;
    }
  }

  /** How the default is chosen from the merged keys; nothing suitable leaves it alone. */
  ghost predicate DefaultChosen(keys: seq<SessionItemsKey>, before: SessionItemsKey, after: SessionItemsKey) {
    exists marked: nat, latest: nat ::
      && Picked(keys, marked, latest)
      && after == if marked < |keys| && keys[marked].uuid != "" then keys[marked]
                  else if latest < |keys| && keys[latest].uuid != "" then keys[latest]
                  else before
  }

  /** The keys read from some items are merged in, and the default is chosen again; unreadable ones change nothing. */
  ghost predicate KeysMerged(tools: Tools, eiks: seq<EncryptedItem>, before: KeyRing, after: KeyRing) {
    match tools.parseKeys(eiks)
    case None => after == before
    case Some(keys) =>
      && after.itemsKeys == Merge(before.itemsKeys, SyncedAll(keys))
      && DefaultChosen(after.itemsKeys, before.defaultItemsKey, after.defaultItemsKey)
  }

  /**
   Merges the keys among some items into the session and chooses the default again. No
   session key is dropped or replaced by an older version.
   */
  method ProcessCachedItemsKeys(session: Session, tools: Tools, eiks: seq<EncryptedItem>) returns (ok: bool)
    modifies session
    ensures ok <==> tools.parseKeys(eiks).Some?
    ensures KeysMerged(tools, eiks, old(session.Keys()), session.Keys())
    ensures Keeps(old(session.itemsKeys), session.itemsKeys)
  {
    var iks := tools.parseKeys(eiks);
    if iks.None? {
      KeepsItself(session.itemsKeys);
      return false;
    }
    var synced := [];
    for x := 0 to |iks.value|
      invariant synced == SyncedAll(iks.value[..x])
    {
      assert iks.value[..x + 1][..x] == iks.value[..x];
      synced := synced + [Synced(iks.value[x])];
    }
    assert iks.value[..|iks.value|] == iks.value;
    MergeKeeps(session.itemsKeys, synced);
    var keys := MergeItemsKeysSlices(session.itemsKeys, synced);
    hide Merge, Keeps;
    session.itemsKeys := keys;
    var marked, latest := PickDefault(keys);
    hide Picked;
    if marked < |keys| && keys[marked].uuid != "" {
      session.defaultItemsKey := keys[marked];
    } else if latest < |keys| && keys[latest].uuid != "" {
      session.defaultItemsKey := keys[latest];
    }
    return true;
  }
}
