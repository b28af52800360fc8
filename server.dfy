// FLUSHDB, FLUSHALL and DBSIZE over the registry of numbered databases.

module ServerCommands {

  import opened Common
  import opened ExpiringHashes
  import opened Instances

  /** Array#delete_at: the element at `i` goes and the later ones move down; an index past the end changes nothing. */
  function DeleteAt<T>(xs: seq<T>, i: nat): (r: seq<T>)
    ensures i < |xs| ==> |r| == |xs| - 1
    ensures i >= |xs| ==> r == xs
    ensures forall j :: 0 <= j < |r| ==> r[j] == if j < i then xs[j] else xs[j + 1]
  {
    if i < |xs| then xs[..i] + xs[i + 1..] else xs
  }

  /** The registry after FLUSHDB as intended: only database `id` is emptied. */
  function Cleared(dbs: seq<Option<Store>>, id: nat): seq<Option<Store>>
  {
    if id < |dbs| then dbs[id := None] else dbs
  }

  /** FLUSHDB as intended empties the current database and no other. */
  lemma ClearedEmptiesOne(dbs: seq<Option<Store>>, id: nat, i: nat)
    ensures ViewAt(Cleared(dbs, id), id) == EmptyStore()
    ensures i != id ==> ViewAt(Cleared(dbs, id), i) == ViewAt(dbs, i)
  {
  }

  /**
   * FLUSHDB as written deletes the slot: every later database moves down
   * one number, so the database after the current one is now read under
   * the current number.
   */
  lemma DeleteAtShifts(dbs: seq<Option<Store>>, id: nat, i: nat)
    requires id < |dbs|
    ensures i < id ==> ViewAt(DeleteAt(dbs, id), i) == ViewAt(dbs, i)
    ensures i >= id ==> ViewAt(DeleteAt(dbs, id), i) == ViewAt(dbs, i + 1)
  {
  }

  /**
   * With key "k" in database 1, FLUSHDB on database 0 as written leaves
   * database 0 holding "k" and database 1 empty.
   */
  lemma FlushDbAsWrittenMovesKeys()
    ensures var dbs := [Some(EmptyStore()), Some(Store(map["k" := StrVal("v")], map[]))];
      var after := DeleteAt(dbs, 0);
      Read(ViewAt(after, 0), "k", 0) == Some(StrVal("v")) && ViewAt(after, 1) == EmptyStore() &&
      Read(ViewAt(Cleared(dbs, 0), 1), "k", 0) == Some(StrVal("v")) && ViewAt(Cleared(dbs, 0), 0) == EmptyStore()
  {
    var dbs := [Some(EmptyStore()), Some(Store(map["k" := StrVal("v")], map[]))];
    assert DeleteAt(dbs, 0) == [dbs[1]];
  }

  /** Deleting a slot brings in no database object. */
  lemma DeleteAtKeepsObjects(dbs: seq<ExpiringHash?>, id: nat)
    ensures (set d: ExpiringHash | d in DeleteAt(dbs, id)) <= (set d: ExpiringHash | d in dbs)
  {
    forall d: ExpiringHash | d in DeleteAt(dbs, id) ensures d in dbs {
      var k :| 0 <= k < |DeleteAt(dbs, id)| && DeleteAt(dbs, id)[k] == d;
      assert d == if k < id then dbs[k] else dbs[k + 1];
    }
  }

  /** FLUSHDB as written: `databases.delete_at(database_id)`. */
  method FlushDbAsWritten(c: Instance) returns (r: Reply)
    requires c.Valid()
    modifies c
    ensures c.Valid() && r == Bulk("OK")
    ensures c.databaseId == old(c.databaseId) && c.inMulti == old(c.inMulti) && c.queue == old(c.queue) && c.replies == old(c.replies)
    ensures c.databases == DeleteAt(old(c.databases), c.databaseId)
    ensures c.Registry() == DeleteAt(old(c.Registry()), c.databaseId)
  {
    DeleteAtKeepsObjects(c.databases, c.databaseId);
    c.databases := DeleteAt(c.databases, c.databaseId);
    r := Bulk("OK");
  }

  /** FLUSHDB as intended: the current slot is emptied and every other database keeps its number. */
  method FlushDb(c: Instance) returns (r: Reply)
    requires c.Valid()
    modifies c
    ensures c.Valid() && r == Bulk("OK")
    ensures c.databaseId == old(c.databaseId) && c.inMulti == old(c.inMulti) && c.queue == old(c.queue) && c.replies == old(c.replies)
    ensures c.Registry() == Cleared(old(c.Registry()), c.databaseId)
    ensures c.Dbs() <= old(c.Dbs())
  {
    if c.databaseId < |c.databases| {
      ghost var dbs0 := c.databases;
      c.databases := c.databases[c.databaseId := null];
      forall d: ExpiringHash | d in c.databases ensures d in dbs0 {
        var k :| 0 <= k < |c.databases| && c.databases[k] == d;
        assert dbs0[k] == d;
      }
    }
    r := Bulk("OK");
  }

  /** FLUSHALL: the registry entry of this host and port becomes empty, so every database reads empty. */
  method FlushAll(c: Instance) returns (r: Reply)
    requires c.Valid()
    modifies c
    ensures c.Valid() && r == Bulk("OK")
    ensures c.databaseId == old(c.databaseId) && c.inMulti == old(c.inMulti) && c.queue == old(c.queue) && c.replies == old(c.replies)
    ensures c.databases == [] && c.Registry() == [] && forall i: nat :: c.View(i) == EmptyStore()
  {
    c.databases := [];
    r := Bulk("OK");
  }

  /** Storing a key counts it once: overwriting a live key leaves the number of keys as it was. */
  lemma AssignLiveKeys(s: Store, key: Key, v: Value, now: Time)
    ensures LiveKeys(Assign(s, key, v), now) == LiveKeys(s, now) + {key}
    ensures |LiveKeys(Assign(s, key, v), now)| == |LiveKeys(s, now)| + (if key in LiveKeys(s, now) then 0 else 1)
  {
    forall k ensures k in LiveKeys(Assign(s, key, v), now) <==> k in LiveKeys(s, now) + {key} {
      AssignRead(s, key, v, now, k);
    }
  }

  /** DBSIZE: the number of live keys of the current database, whose expired keys `keys` purges. */
  method DbSize(c: Instance, now: Time) returns (r: Reply)
    requires c.Valid()
    modifies c, c.Dbs()
    ensures c.Valid()
    ensures c.databaseId == old(c.databaseId) && c.inMulti == old(c.inMulti) && c.queue == old(c.queue) && c.replies == old(c.replies)
    ensures r == Int(|LiveKeys(old(c.View(c.databaseId)), now)|)
    ensures c.Registry() == Installed(old(c.Registry()), c.databaseId, PurgeAll(old(c.View(c.databaseId)), now))
    ensures forall d :: d in c.Dbs() ==> d in old(c.Dbs()) || fresh(d)
  {
    var db := FindDatabase(c, c.databaseId);
    ghost var mid := c.Registry();
    ghost var s := db.State();
    var ks := db.Keys(now);
    r := Int(|ks|);
    assert |c.Registry()| == |mid|;
    forall i | 0 <= i < |mid| ensures c.Registry()[i] == mid[c.databaseId := Some(db.State())][i] {
      if i != c.databaseId && c.databases[i] != null {
        assert c.databases[i] != db;
      }
    }
    InstalledTwice(old(c.Registry()), c.databaseId, s, db.State());
  }
}
