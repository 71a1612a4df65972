/**
 Keeping the newest version of each record: the algebra behind removing duplicate
 items and merging items keys. The first of several equally new versions wins.
 */
module Newest {
  import opened Records

  function Pick<T>(stamp: T -> int, first: T, second: T): T {
    if stamp(second) > stamp(first) then second else first
  }

  function Insert<T>(id: T -> string, stamp: T -> int, m: map<string, T>, x: T): map<string, T> {
    m[id(x) := if id(x) in m then Pick(stamp, m[id(x)], x) else x]
  }

  /** The surviving version of every identifier in a list. */
  function Survivors<T>(id: T -> string, stamp: T -> int, s: seq<T>): map<string, T> {
    if s == [] then map[]
    else Insert(id, stamp, Survivors(id, stamp, s[..|s| - 1]), s[|s| - 1])
  }

  function Join<T>(stamp: T -> int, m: map<string, T>, n: map<string, T>): map<string, T> {
    map k | k in m.Keys + n.Keys ::
      if k !in n then m[k] else if k !in m then n[k] else Pick(stamp, m[k], n[k])
  }

  ghost predicate Distinct<T>(id: T -> string, s: seq<T>) {
    forall i, j :: 0 <= i < j < |s| ==> id(s[i]) != id(s[j])
  }

  lemma DistinctFront<T>(id: T -> string, s: seq<T>, i: nat)
    requires i < |s| && Distinct(id, s)
    ensures Distinct(id, s[..i])
    ensures forall x :: x in s[..i] ==> id(x) != id(s[i])
  {
  }

  ghost predicate FirstNewest<T>(id: T -> string, stamp: T -> int, s: seq<T>, i: nat)
    requires i < |s|
  {
    forall j :: 0 <= j < |s| && id(s[j]) == id(s[i]) ==>
      stamp(s[j]) <= stamp(s[i]) && (j < i ==> stamp(s[j]) < stamp(s[i]))
  }

  /** A survivor is the first of the newest versions, and every identifier has one. */
  lemma {:induction false} SurvivorsAreFirstNewest<T>(id: T -> string, stamp: T -> int, s: seq<T>, k: string)
    ensures k in Survivors(id, stamp, s) <==> exists i :: 0 <= i < |s| && id(s[i]) == k
    ensures k in Survivors(id, stamp, s) ==>
      exists i :: 0 <= i < |s| && id(s[i]) == k && s[i] == Survivors(id, stamp, s)[k] && FirstNewest(id, stamp, s, i)
  {
    if s != [] {
      var front, last := s[..|s| - 1], s[|s| - 1];
      SurvivorsAreFirstNewest(id, stamp, front, k);
      var before := Survivors(id, stamp, front);
      if k in before {
        var i :| 0 <= i < |front| && id(front[i]) == k && front[i] == before[k] && FirstNewest(id, stamp, front, i);
        assert s[i] == front[i];
        if id(last) == k && stamp(last) > stamp(before[k]) {
          assert s[|s| - 1] == Survivors(id, stamp, s)[k];
          assert FirstNewest(id, stamp, s, |s| - 1) by {
            forall j | 0 <= j < |s| && id(s[j]) == id(last)
              ensures stamp(s[j]) <= stamp(last) && (j < |s| - 1 ==> stamp(s[j]) < stamp(last))
            {
              if j < |s| - 1 {
                assert s[j] == front[j];
              }
            }
          }
        } else {
          assert FirstNewest(id, stamp, s, i) by {
            forall j | 0 <= j < |s| && id(s[j]) == id(s[i])
              ensures stamp(s[j]) <= stamp(s[i]) && (j < i ==> stamp(s[j]) < stamp(s[i]))
            {
              if j < |s| - 1 {
                assert s[j] == front[j];
              }
            }
          }
        }
      } else if id(last) == k {
        assert s[|s| - 1] == Survivors(id, stamp, s)[k];
        assert FirstNewest(id, stamp, s, |s| - 1) by {
          forall j | 0 <= j < |s| - 1 ensures id(s[j]) != k {
            assert s[j] == front[j];
          }
        }
      }
    }
  }

  lemma {:induction false} DistinctSurvive<T>(id: T -> string, stamp: T -> int, s: seq<T>)
    requires Distinct(id, s)
    ensures forall i :: 0 <= i < |s| ==>
      id(s[i]) in Survivors(id, stamp, s) && Survivors(id, stamp, s)[id(s[i])] == s[i]
    ensures forall k :: k in Survivors(id, stamp, s) ==> exists i :: 0 <= i < |s| && id(s[i]) == k
  {
    forall i | 0 <= i < |s|
      ensures id(s[i]) in Survivors(id, stamp, s) && Survivors(id, stamp, s)[id(s[i])] == s[i]
    {
      SurvivorsAreFirstNewest(id, stamp, s, id(s[i]));
    }
    forall k | k in Survivors(id, stamp, s) ensures exists i :: 0 <= i < |s| && id(s[i]) == k {
      SurvivorsAreFirstNewest(id, stamp, s, k);
    }
  }

  /** Concatenating lists joins their survivors. */
  lemma {:induction false} SurvivorsAppend<T>(id: T -> string, stamp: T -> int, a: seq<T>, b: seq<T>)
    ensures Survivors(id, stamp, a + b) == Join(stamp, Survivors(id, stamp, a), Survivors(id, stamp, b))
    decreases |b|
  {
    if b == [] {
      assert a + b == a;
    } else {
      var front, last := b[..|b| - 1], b[|b| - 1];
      assert (a + b)[..|a + b| - 1] == a + front;
      SurvivorsAppend(id, stamp, a, front);
    }
  }

  lemma JoinAssociative<T>(stamp: T -> int, a: map<string, T>, b: map<string, T>, c: map<string, T>)
    ensures Join(stamp, Join(stamp, a, b), c) == Join(stamp, a, Join(stamp, b, c))
  {
    var left, right := Join(stamp, Join(stamp, a, b), c), Join(stamp, a, Join(stamp, b, c));
    assert left.Keys == right.Keys;
    forall k | k in left ensures left[k] == right[k] {
    }
  }

  lemma JoinIdempotent<T>(stamp: T -> int, a: map<string, T>, b: map<string, T>)
    ensures Join(stamp, a, a) == a
    ensures Join(stamp, Join(stamp, a, b), b) == Join(stamp, a, b)
    ensures Join(stamp, a, Join(stamp, a, b)) == Join(stamp, a, b)
  {
  }

  /** The values of a map, in some order. */
  method ValuesInSomeOrder<T>(m: map<string, T>, id: T -> string) returns (values: seq<T>)
    requires forall k :: k in m ==> id(m[k]) == k
    ensures Distinct(id, values)
    ensures forall x :: x in values <==> id(x) in m && m[id(x)] == x
  {
    values := [];
    var left := m.Keys;
    while left != {}
      invariant left <= m.Keys
      invariant Distinct(id, values)
      invariant forall x :: x in values <==> id(x) in m && m[id(x)] == x && id(x) !in left
      decreases left
    {
      var k :| k in left;
      values := values + [m[k]];
      left := left - {k};
    }
  }

  /** What removing duplicates does to a list, whatever the order the map is read back in. */
  ghost predicate IsDeDuped(items: seq<EncryptedItem>, deDuped: seq<EncryptedItem>) {
    Distinct(Uuid, deDuped) && Survivors(Uuid, UpdatedStamp, deDuped) == Survivors(Uuid, UpdatedStamp, items)
  }

  /**
   Removes duplicates through a map that is read back in an unspecified order: whatever
   the order, each identifier is kept once, in its surviving version.
   */
  method DeDupe(items: seq<EncryptedItem>) returns (deDuped: seq<EncryptedItem>)
    ensures IsDeDuped(items, deDuped)
    ensures forall x :: x in deDuped ==> x in items
  {
    var uniqueItems: map<string, EncryptedItem> := map[];
    for i := 0 to |items|
      invariant uniqueItems == Survivors(Uuid, UpdatedStamp, items[..i])
      invariant forall k :: k in uniqueItems ==> uniqueItems[k].uuid == k && uniqueItems[k] in items
    {
      var item := items[i];
      assert items[..i + 1][..i] == items[..i];
      if item.uuid in uniqueItems {
        if item.updatedAtTimestamp > uniqueItems[item.uuid].updatedAtTimestamp {
          uniqueItems := uniqueItems[item.uuid := item];
        }
      } else {
        uniqueItems := uniqueItems[item.uuid := item];
      }
    }
    assert items[..|items|] == items;
    deDuped := ValuesInSomeOrder(uniqueItems, Uuid);
    DistinctValuesSurvive(Uuid, UpdatedStamp, uniqueItems, deDuped);
  }

  lemma DistinctValuesSurvive<T>(id: T -> string, stamp: T -> int, m: map<string, T>, s: seq<T>)
    requires forall k :: k in m ==> id(m[k]) == k
    requires Distinct(id, s)
    requires forall x :: x in s <==> id(x) in m && m[id(x)] == x
    ensures Survivors(id, stamp, s) == m
  {
    DistinctSurvive(id, stamp, s);
    var n := Survivors(id, stamp, s);
    forall k ensures k in n <==> k in m {
      if k in m {
        assert m[k] in s;
      }
    }
    forall k | k in m ensures n[k] == m[k] {
      assert m[k] in s;
    }
  }

  /** What is left has the latest update time of its identifier, and every identifier is left. */
  lemma DeDupedAreLatest(items: seq<EncryptedItem>, deDuped: seq<EncryptedItem>)
    requires IsDeDuped(items, deDuped)
    ensures forall x :: x in deDuped ==>
      x in items && forall y :: y in items && y.uuid == x.uuid ==> y.updatedAtTimestamp <= x.updatedAtTimestamp
    ensures forall y :: y in items ==> exists x :: x in deDuped && x.uuid == y.uuid
  {
    DistinctSurvive(Uuid, UpdatedStamp, deDuped);
    forall x | x in deDuped
      ensures x in items && forall y :: y in items && y.uuid == x.uuid ==> y.updatedAtTimestamp <= x.updatedAtTimestamp
    {
      SurvivorsAreFirstNewest(Uuid, UpdatedStamp, items, x.uuid);
      var i :|
        && 0 <= i < |items| && items[i].uuid == x.uuid
        && items[i] == Survivors(Uuid, UpdatedStamp, items)[x.uuid] && FirstNewest(Uuid, UpdatedStamp, items, i);
      forall y | y in items && y.uuid == x.uuid ensures y.updatedAtTimestamp <= x.updatedAtTimestamp {
        var j :| 0 <= j < |items| && items[j] == y;
        assert UpdatedStamp(items[j]) <= UpdatedStamp(items[i]);
      }
    }
    forall y | y in items ensures exists x :: x in deDuped && x.uuid == y.uuid {
      SurvivorsAreFirstNewest(Uuid, UpdatedStamp, items, y.uuid);
      var k :| 0 <= k < |deDuped| && Uuid(deDuped[k]) == y.uuid;
      assert deDuped[k] in deDuped;
    }
  }

  /**
   Removing duplicates from each of two lists and then from their concatenation keeps the
   same records as removing them from everything at once.
   */
  lemma StagedDeDupe(a: seq<EncryptedItem>, b: seq<EncryptedItem>,
                     a': seq<EncryptedItem>, b': seq<EncryptedItem>,
                     staged: seq<EncryptedItem>, atOnce: seq<EncryptedItem>)
    requires IsDeDuped(a, a') && IsDeDuped(b, b')
    requires IsDeDuped(a' + b', staged) && IsDeDuped(a + b, atOnce)
    ensures Survivors(Uuid, UpdatedStamp, a + b)
         == Join(UpdatedStamp, Survivors(Uuid, UpdatedStamp, a), Survivors(Uuid, UpdatedStamp, b))
    ensures forall x :: x in staged <==> x in atOnce
  {
    SurvivorsAppend(Uuid, UpdatedStamp, a, b);
    SurvivorsAppend(Uuid, UpdatedStamp, a', b');
    DistinctSurvive(Uuid, UpdatedStamp, staged);
    DistinctSurvive(Uuid, UpdatedStamp, atOnce);
    forall x ensures x in staged <==> x in atOnce {
      DistinctMembers(staged, x);
      DistinctMembers(atOnce, x);
    }
  }

  lemma DistinctMembers(s: seq<EncryptedItem>, x: EncryptedItem)
    requires Distinct(Uuid, s)
    ensures var m := Survivors(Uuid, UpdatedStamp, s); x in s <==> x.uuid in m && m[x.uuid] == x
  {
    DistinctSurvive(Uuid, UpdatedStamp, s);
  }
}
