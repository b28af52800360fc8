// The key-space commands: deleting, renaming, moving between databases,
// expiry and the type of a key.

module KeyCommands {

  import opened Common
  import opened ExpiringHashes

  // ---------------------------------------------------------------------
  // DEL

  /** The store once every given key has been deleted. */
  function RemoveKeys(s: Store, ks: set<Key>): (r: Store)
    ensures r.data.Keys == s.data.Keys - ks && r.expires.Keys == s.expires.Keys - ks
    ensures forall k :: k in r.data ==> r.data[k] == s.data[k]
  {
    Store(s.data - ks, s.expires - ks)
  }

  /** Deleting keys takes exactly those keys out of the live ones. */
  lemma RemoveKeysLive(t: Store, ks: set<Key>, now: Time)
    ensures LiveKeys(RemoveKeys(t, ks), now) == LiveKeys(t, now) - ks
  {
    var u := RemoveKeys(t, ks);
    forall k ensures k in LiveKeys(u, now) <==> k in LiveKeys(t, now) - ks {
      if k in u.data {
        assert Expired(u, k, now) == Expired(t, k, now);
      }
    }
  }

  lemma DifferenceCard(a: set<Key>, ks: set<Key>)
    ensures |a| - |a - ks| == |a * ks|
  {
    assert a == (a - ks) + (a * ks);
    assert (a - ks) !! (a * ks);
  }

  /** DEL answers how many of the given keys were live: the live count before less the count after. */
  lemma DelCount(s: Store, ks: set<Key>, now: Time)
    ensures LiveKeys(RemoveKeys(PurgeAll(s, now), ks), now) == LiveKeys(s, now) - ks
    ensures |LiveKeys(s, now)| - |LiveKeys(RemoveKeys(PurgeAll(s, now), ks), now)| == |LiveKeys(s, now) * ks|
  {
    PurgeAllLeavesLive(s, now);
    RemoveKeysLive(PurgeAll(s, now), ks, now);
    DifferenceCard(LiveKeys(s, now), ks);
  }

  /** Once everything expired is purged, and some keys deleted, nothing left has expired. */
  lemma PurgedStaysLive(s: Store, ks: set<Key>, now: Time)
    ensures forall k :: k in RemoveKeys(PurgeAll(s, now), ks).data ==> !Expired(RemoveKeys(PurgeAll(s, now), ks), k, now)
  {
  }

  /** Purging a store in which nothing has expired changes nothing. */
  lemma PurgeAllNothing(t: Store, now: Time)
    requires forall k :: k in t.data ==> !Expired(t, k, now)
    ensures PurgeAll(t, now) == t
  {
    assert PurgeAll(t, now).data == t.data;
    assert PurgeAll(t, now).expires == t.expires;
  }

  /** The reply of `Del` and the store it leaves, given the store before. */
  ghost predicate DelOutcome(s: Store, keys: seq<Key>, now: Time, s': Store, r: Result<Reply>)
  {
        if keys == [] then r == Err(WrongArgCount("del")) && s' == s
    else
      s' == RemoveKeys(PurgeAll(s, now), KeySet(keys)) &&
      r == Ok(Int(|LiveKeys(s, now) * KeySet(keys)|))
  }

  /** DEL: an empty key list is an argument error; otherwise the keys go and the number of live ones is answered. */
  method Del(db: ExpiringHash, keys: seq<Key>, now: Time) returns (r: Result<Reply>)
    modifies db
    ensures DelOutcome(old(db.State()), keys, now, db.State(), r)
  {
    if keys == [] {
      return Err(WrongArgCount("del"));
    }
    ghost var s0 := db.State();
    var before := db.Keys(now);
    DeleteAll(db, keys);
    ghost var s1 := db.State();
    var after := db.Keys(now);
    DelCount(s0, KeySet(keys), now);
    PurgeAllLeavesLive(s1, now);
    PurgedStaysLive(s0, KeySet(keys), now);
    PurgeAllNothing(s1, now);
    r := Ok(Int(|before| - |after|));
  }

  /** `keys.each { |key| data.delete(key) }` */
  method DeleteAll(db: ExpiringHash, keys: seq<Key>)
    modifies db
    ensures db.State() == RemoveKeys(old(db.State()), KeySet(keys))
  {
    ghost var p := db.State();
    assert KeySet(keys[..0]) == {};
    assert RemoveKeys(p, {}) == p;
    var i := 0;
    while i < |keys|
      invariant 0 <= i <= |keys|
      invariant db.State() == RemoveKeys(p, KeySet(keys[..i]))
    {
      var _ := db.Delete(keys[i]);
      RemoveKeysStep(p, keys, i);
      i := i + 1;
    }
    assert keys[..i] == keys;
  }

  lemma RemoveKeysStep(p: Store, keys: seq<Key>, i: nat)
    requires i < |keys|
    ensures Remove(RemoveKeys(p, KeySet(keys[..i])), keys[i]) == RemoveKeys(p, KeySet(keys[..i + 1]))
  {
    KeySetSnoc(keys, i);
  }

  // ---------------------------------------------------------------------
  // MOVE

  /**
   * MOVE as the code is written: both presence tests use Hash#has_key?,
   * which ExpiringHash does not override, so an expired key still counts;
   * `delete` hands its value over and `[]=` stores it without an expiry.
   * Answers the two stores afterwards and whether the key moved.
   */
  function MoveAsWritten(src: Store, dst: Store, key: Key): (r: (Store, Store, bool))
    ensures r.2 <==> key in src.data && key !in dst.data
  {
    if key !in src.data || key in dst.data then (src, dst, false)
    else (Remove(src, key), Assign(dst, key, src.data[key]), true)
  }

  /** MOVE as intended: the key moves when it is live here and not live there; expired entries are purged on the way. */
  function Move(src: Store, dst: Store, key: Key, now: Time): (r: (Store, Store, bool))
    ensures r.2 <==> Read(src, key, now).Some? && Read(dst, key, now).None?
  {
    var src1 := Purge(src, key, now);
    if Read(src, key, now).None? then (src1, dst, false)
    else
      var dst1 := Purge(dst, key, now);
      if Read(dst, key, now).Some? then (src1, dst1, false)
      else (Remove(src1, key), Assign(dst1, key, src.data[key]), true)
  }

  /** After MOVE the key no longer reads here and reads there as it read here; other keys read as before. */
  lemma MoveMoves(src: Store, dst: Store, key: Key, now: Time, other: Key)
    ensures var r := Move(src, dst, key, now);
      (r.2 ==> Read(r.0, key, now) == None && Read(r.1, key, now) == Read(src, key, now)) &&
      (!r.2 ==> Read(r.0, key, now) == Read(src, key, now) && Read(r.1, key, now) == Read(dst, key, now)) &&
      (other != key ==> Read(r.0, other, now) == Read(src, other, now) && Read(r.1, other, now) == Read(dst, other, now))
  {
    PurgeInvisible(src, key, now, other);
    PurgeInvisible(dst, key, now, other);
    PurgeInvisible(src, key, now, key);
    PurgeInvisible(dst, key, now, key);
    var r := Move(src, dst, key, now);
    if r.2 {
      RemoveRead(Purge(src, key, now), key, now);
      AssignRead(Purge(dst, key, now), key, src.data[key], now, other);
    }
  }

  /** A key that expired here but was never purged is moved by the code as written and comes back to life there. */
  lemma MoveAsWrittenRevives()
    ensures var src := Store(map["k" := StrVal("v")], map["k" := 1]);
      var dst := Store(map[], map[]);
      Read(src, "k", 2) == None &&
      Read(MoveAsWritten(src, dst, "k").1, "k", 2) == Some(StrVal("v")) &&
      Read(Move(src, dst, "k", 2).1, "k", 2) == None
  {
    var src := Store(map["k" := StrVal("v")], map["k" := 1]);
    var dst := Store(map[], map[]);
    assert Expired(src, "k", 2);
    var moved := MoveAsWritten(src, dst, "k").1;
    assert moved == Assign(dst, "k", StrVal("v"));
    AssignRead(dst, "k", StrVal("v"), 2, "k");
  }

  /**
   * MOVE: the same database as destination is an error; otherwise the key
   * moves when it is live here and not live in the destination.
   */
  method MoveKey(db: ExpiringHash, dest: ExpiringHash, databaseId: int, destinationId: int, key: Key, now: Time) returns (r: Result<Reply>)
    requires databaseId != destinationId ==> db != dest
    modifies db, dest
    ensures databaseId == destinationId ==> r == Err(SameObject) && db.State() == old(db.State()) && dest.State() == old(dest.State())
    ensures databaseId != destinationId ==>
      var m := Move(old(db.State()), old(dest.State()), key, now);
      r == Ok(Bool(m.2)) && db.State() == m.0 && dest.State() == m.1
  {
    if databaseId == destinationId {
      return Err(SameObject);
    }
    var here := db.HasKey(key, now);
    if !here {
      return Ok(Bool(false));
    }
    var there := dest.HasKey(key, now);
    if there {
      return Ok(Bool(false));
    }
    var v := db.Delete(key);
    dest.Put(key, v.value);
    r := Ok(Bool(true));
  }

  // ---------------------------------------------------------------------
  // RENAME and RENAMENX

  /**
   * RENAME as the code is written. A missing key answers nil; otherwise the
   * value is stored under the new name (clearing its expiry), the old
   * key's expiry is copied over if it has one, and the old key is deleted,
   * its value being the answer. When both names are the same the store
   * clears the expiry, finds none to copy, and deletes the key.
   */
  function RenameAsWritten(s: Store, key: Key, newKey: Key, now: Time): (r: (Store, Reply))
  {
    var p := Purge(s, key, now);
    if key !in p.data then (p, Nil)
    else
      var v := p.data[key];
      var s1 := Assign(p, newKey, v);
      var s2 := if key in s1.expires then SetExpiry(s1, newKey, s1.expires[key]) else s1;
      (Remove(s2, key), ValueReply(Some(v)))
  }

  /** Renaming a key onto itself deletes it in the code as written. */
  lemma RenameAsWrittenSelf(s: Store, key: Key, now: Time)
    requires Read(s, key, now).Some?
    ensures Read(RenameAsWritten(s, key, key, now).0, key, now) == None
  {
  }

  /** RENAME as intended: the same, except that renaming a key onto itself changes nothing. */
  function Rename(s: Store, key: Key, newKey: Key, now: Time): (r: (Store, Reply))
    ensures Read(s, key, now).None? <==> r.1 == Nil
  {
    var p := Purge(s, key, now);
    if key !in p.data then (p, Nil)
    else
      var v := p.data[key];
      if key == newKey then (p, ValueReply(Some(v)))
      else
        var s1 := Assign(p, newKey, v);
        var s2 := if key in s1.expires then SetExpiry(s1, newKey, s1.expires[key]) else s1;
        (Remove(s2, key), ValueReply(Some(v)))
  }

  /** After RENAME the new name holds the value and the old name's expiry, the old name is gone, and other keys are untouched. */
  lemma RenameMoves(s: Store, key: Key, newKey: Key, now: Time, other: Key)
    requires Read(s, key, now).Some? && key != newKey
    ensures var t := Rename(s, key, newKey, now).0;
      key !in t.data && newKey in t.data && t.data[newKey] == s.data[key] &&
      (newKey in t.expires <==> key in s.expires) &&
      (key in s.expires ==> t.expires[newKey] == s.expires[key]) &&
      (other != key && other != newKey ==> Read(t, other, now) == Read(s, other, now))
  {
    PurgeLive(s, key, now);
  }

  /** Renaming onto itself keeps the key and its value. */
  lemma RenameSelf(s: Store, key: Key, now: Time)
    requires Read(s, key, now).Some?
    ensures Read(Rename(s, key, key, now).0, key, now) == Read(s, key, now)
  {
    PurgeLive(s, key, now);
  }

  /** RENAME: the corrected behaviour. */
  method RenameKey(db: ExpiringHash, key: Key, newKey: Key, now: Time) returns (r: Reply)
    modifies db
    ensures (db.State(), r) == Rename(old(db.State()), key, newKey, now)
  {
    var v := db.Get(key, now);
    if v.None? {
      return Nil;
    }
    if key == newKey {
      return ValueReply(v);
    }
    var hadExpiry := key in db.expires;
    var t := if hadExpiry then db.expires[key] else 0;
    db.Put(newKey, v.value);
    if hadExpiry {
      db.ExpireAt(newKey, t);
    }
    var _ := db.Delete(key);
    r := ValueReply(v);
  }

  /** The reply of `RenameNx` and the store it leaves, given the store before. */
  ghost predicate RenameNxOutcome(s: Store, key: Key, newKey: Key, now: Time, s': Store, r: Reply)
  {
        if Read(s, newKey, now).Some? then r == Bool(false) && s' == Purge(s, newKey, now)
    else r == Bool(true) && s' == Rename(Purge(s, newKey, now), key, newKey, now).0
  }

  /** RENAMENX: false and no change (beyond purging the new name) when the new name is live; otherwise RENAME and true. */
  method RenameNx(db: ExpiringHash, key: Key, newKey: Key, now: Time) returns (r: Reply)
    modifies db
    ensures RenameNxOutcome(old(db.State()), key, newKey, now, db.State(), r)
  {
    var taken := db.HasKey(newKey, now);
    if taken {
      return Bool(false);
    }
    var _ := RenameKey(db, key, newKey, now);
    r := Bool(true);
  }

  // ---------------------------------------------------------------------
  // EXISTS, TTL, EXPIRE, EXPIREAT, PERSIST

  /** The reply of `Exists` and the store it leaves, given the store before. */
  ghost predicate ExistsOutcome(s: Store, key: Key, now: Time, s': Store, r: Reply)
  {
    (r == Bool(Read(s, key, now).Some?)) &&
    (s' == Purge(s, key, now))
  }

  /** EXISTS: whether the key is live; an expired key is purged. */
  method Exists(db: ExpiringHash, key: Key, now: Time) returns (r: Reply)
    modifies db
    ensures ExistsOutcome(old(db.State()), key, now, db.State(), r)
  {
    var b := db.HasKey(key, now);
    r := Bool(b);
  }

  /** The seconds TTL reports: the time left when positive, otherwise -1 (also without an expiry). */
  function TimeToLive(s: Store, key: Key, now: Time): (r: int)
    ensures r == -1 || r > 0
    ensures r > 0 <==> key in s.expires && s.expires[key] > now
    ensures r > 0 ==> now + r == s.expires[key]
  {
    if key in s.expires && s.expires[key] - now > 0 then s.expires[key] - now else -1
  }

  /** TTL: reads the expiry record without purging. */
  method Ttl(db: ExpiringHash, key: Key, now: Time) returns (r: Reply)
    ensures r == Int(TimeToLive(db.State(), key, now))
  {
    if key in db.expires && db.expires[key] - now > 0 {
      r := Int(db.expires[key] - now);
    } else {
      r := Int(-1);
    }
  }

  /** The reply of `Expire` and the store it leaves, given the store before. */
  ghost predicate ExpireOutcome(s: Store, key: Key, ttl: int, now: Time, s': Store, r: Reply)
  {
        if Read(s, key, now).None? then r == Nil && s' == Purge(s, key, now)
    else r == Bool(true) && s' == SetExpiry(s, key, now + ttl)
  }

  /** EXPIRE: nil for a missing key; otherwise the expiry becomes now plus the given seconds. */
  method Expire(db: ExpiringHash, key: Key, ttl: int, now: Time) returns (r: Reply)
    modifies db
    ensures ExpireOutcome(old(db.State()), key, ttl, now, db.State(), r)
  {
    ghost var s0 := db.State();
    var v := db.Get(key, now);
    if v.None? {
      return Nil;
    }
    PurgeLive(s0, key, now);
    db.ExpireAt(key, now + ttl);
    r := Bool(true);
  }

  /** A positive EXPIRE is what TTL then reports, and the key stays live until then. */
  lemma ExpireThenTtl(s: Store, key: Key, ttl: int, now: Time, later: Time)
    requires Read(s, key, now).Some? && ttl > 0
    ensures TimeToLive(SetExpiry(s, key, now + ttl), key, now) == ttl
    ensures now <= later <= now + ttl ==> Read(SetExpiry(s, key, now + ttl), key, later) == Read(s, key, now)
    ensures later > now + ttl ==> Read(SetExpiry(s, key, now + ttl), key, later) == None
  {
  }

  /** The reply of `ExpireAtKey` and the store it leaves, given the store before. */
  ghost predicate ExpireAtKeyOutcome(s: Store, key: Key, timestamp: Time, s': Store, r: Reply)
  {
    r == Bool(true) && s' == SetExpiry(s, key, timestamp)
  }

  /** EXPIREAT: the expiry record is written whether or not the key exists. */
  method ExpireAtKey(db: ExpiringHash, key: Key, timestamp: Time) returns (r: Reply)
    modifies db
    ensures ExpireAtKeyOutcome(old(db.State()), key, timestamp, db.State(), r)
  {
    db.ExpireAt(key, timestamp);
    r := Bool(true);
  }

  /** PERSIST: true exactly when an expiry record was removed; the key is not purged first. */
  method Persist(db: ExpiringHash, key: Key) returns (r: Reply)
    modifies db
    ensures r == Bool(key in old(db.expires))
    ensures db.data == old(db.data) && db.expires == old(db.expires) - {key}
  {
    var t := db.ClearExpiry(key);
    r := Bool(t.Some?);
  }

  /** After PERSIST a key that is stored reads as live at every time, even one that had expired. */
  lemma PersistKeeps(s: Store, key: Key, later: Time)
    requires key in s.data
    ensures Read(Store(s.data, s.expires - {key}), key, later) == Some(s.data[key])
  {
  }

  // ---------------------------------------------------------------------
  // TYPE

  /**
   * The name TYPE reports. A sorted set is a Hash subclass in the source,
   * so it is reported as "hash".
   */
  function TypeName(v: Option<Value>): (r: string)
    ensures v.None? <==> r == "none"
    ensures v.Some? ==> r == match KindOf(v.value)
      case StringKind => "string"
      case ListKind => "list"
      case SetKind => "set"
      case HashKind => "hash"
      case ZSetKind => "hash"
  {
    if v.None? then "none"
    else match v.value
      case StrVal(_) => "string"
      case ListVal(_) => "list"
      case SetVal(_) => "set"
      case HashVal(_) => "hash"
      case ZSetVal(_) => "hash"
  }

  /** The reply of `Type` and the store it leaves, given the store before. */
  ghost predicate TypeOutcome(s: Store, key: Key, now: Time, s': Store, r: Reply)
  {
    (r == Bulk(TypeName(Read(s, key, now)))) &&
    (s' == Purge(s, key, now))
  }

  /** TYPE: the name for the live value, "none" for a missing key. */
  method Type(db: ExpiringHash, key: Key, now: Time) returns (r: Reply)
    modifies db
    ensures TypeOutcome(old(db.State()), key, now, db.State(), r)
  {
    var v := db.Get(key, now);
    r := Bulk(TypeName(v));
  }
}
