// The store of one logical database: a hash from keys to values together
// with a hash from keys to expiry times. Every lookup first deletes a key
// whose expiry has passed, so an expired key is never observed, and every
// assignment clears the expiry of the key it writes.

module ExpiringHashes {

  import opened Common

  /** The two hashes of an ExpiringHash as a value. */
  datatype Store = Store(data: map<Key, Value>, expires: map<Key, Time>)

  /** `expired?`: an expiry is recorded for the key and it lies strictly before now. */
  predicate Expired(s: Store, key: Key, now: Time)
  {
    key in s.expires && s.expires[key] < now
  }

  /** What a lookup of `key` answers at time `now`: nil when absent or expired. */
  function Read(s: Store, key: Key, now: Time): Option<Value>
  {
    if key in s.data && !Expired(s, key, now) then Some(s.data[key]) else None
  }

  /** The keys a reader can see at time `now`. */
  function LiveKeys(s: Store, now: Time): set<Key>
  {
    set k | k in s.data && !Expired(s, k, now)
  }

  /** `delete`: the value and the expiry of the key go. */
  function Remove(s: Store, key: Key): Store
  {
    Store(s.data - {key}, s.expires - {key})
  }

  /** What every lookup does first: delete the key when it has expired. */
  function Purge(s: Store, key: Key, now: Time): Store
  {
    if Expired(s, key, now) then Remove(s, key) else s
  }

  /** The set of keys a sequence mentions. */
  function KeySet(keys: seq<Key>): set<Key>
  {
    set k | k in keys
  }

  lemma KeySetSnoc(keys: seq<Key>, i: nat)
    requires i < |keys|
    ensures KeySet(keys[..i + 1]) == KeySet(keys[..i]) + {keys[i]}
  {
    assert keys[..i + 1] == keys[..i] + [keys[i]];
  }

  /** Purging of every key of `ks` that has expired. */
  function PurgeKeys(s: Store, ks: set<Key>, now: Time): Store
  {
    Store(map k | k in s.data && !(k in ks && Expired(s, k, now)) :: s.data[k],
          map k | k in s.expires && !(k in ks && Expired(s, k, now)) :: s.expires[k])
  }

  /** `keys` purges every stored key that has expired. */
  function PurgeAll(s: Store, now: Time): Store
  {
    PurgeKeys(s, s.data.Keys, now)
  }

  /** `[]=`: the key holds the new value and no longer has an expiry. */
  function Assign(s: Store, key: Key, v: Value): Store
  {
    Store(s.data[key := v], s.expires - {key})
  }

  /**
   * Changing the object a key already holds (push onto a list, add to a
   * set, Hash#[]= on a stored hash, merge!) bypasses `[]=`: the expiry stays.
   */
  function Mutate(s: Store, key: Key, v: Value): Store
  {
    Store(s.data[key := v], s.expires)
  }

  /** Recording an expiry (`expires[key] = t`); the value is untouched. */
  function SetExpiry(s: Store, key: Key, t: Time): Store
  {
    Store(s.data, s.expires[key := t])
  }

  // ---------------------------------------------------------------------
  // Properties of the store

  /** Purging never changes what any reader sees. */
  lemma PurgeInvisible(s: Store, key: Key, now: Time, other: Key)
    ensures Read(Purge(s, key, now), other, now) == Read(s, other, now)
    ensures LiveKeys(Purge(s, key, now), now) == LiveKeys(s, now)
  {
  }

  /** After a purge of `key` it is stored exactly when it is live. */
  lemma PurgeExact(s: Store, key: Key, now: Time)
    ensures key in Purge(s, key, now).data <==> Read(s, key, now).Some?
  {
  }

  /** Purging a set of keys never changes what any reader sees either. */
  lemma PurgeKeysInvisible(s: Store, ks: set<Key>, now: Time, other: Key)
    ensures Read(PurgeKeys(s, ks, now), other, now) == Read(s, other, now)
  {
  }

  /** After `keys`, every stored key is live. */
  lemma PurgeAllLeavesLive(s: Store, now: Time)
    ensures PurgeAll(s, now).data.Keys == LiveKeys(s, now)
    ensures LiveKeys(PurgeAll(s, now), now) == LiveKeys(s, now)
  {
  }

  /** Purging the keys one after another is purging them all at once. */
  lemma PurgeKeysStep(s: Store, ks: set<Key>, k: Key, now: Time)
    ensures Purge(PurgeKeys(s, ks, now), k, now) == PurgeKeys(s, ks + {k}, now)
  {
    var p := PurgeKeys(s, ks, now);
    if k in ks {
      assert ks + {k} == ks;
    } else if Expired(s, k, now) {
      assert Purge(p, k, now).data == PurgeKeys(s, ks + {k}, now).data;
      assert Purge(p, k, now).expires == PurgeKeys(s, ks + {k}, now).expires;
    } else {
      assert p.data == PurgeKeys(s, ks + {k}, now).data;
      assert p.expires == PurgeKeys(s, ks + {k}, now).expires;
    }
  }

  lemma PurgeKeysNone(s: Store, now: Time)
    ensures PurgeKeys(s, {}, now) == s
  {
    assert PurgeKeys(s, {}, now).data == s.data;
    assert PurgeKeys(s, {}, now).expires == s.expires;
  }

  /** An assigned value is read back, with no expiry, and no other key changes. */
  lemma AssignRead(s: Store, key: Key, v: Value, now: Time, other: Key)
    ensures Read(Assign(s, key, v), key, now) == Some(v)
    ensures key !in Assign(s, key, v).expires
    ensures other != key ==> Read(Assign(s, key, v), other, now) == Read(s, other, now)
  {
  }

  /** Assigning a key makes any earlier purge of it irrelevant. */
  lemma AssignAbsorbsPurge(s: Store, key: Key, v: Value, now: Time)
    ensures Assign(Purge(s, key, now), key, v) == Assign(s, key, v)
  {
    assert Assign(Purge(s, key, now), key, v).data == Assign(s, key, v).data;
    assert Assign(Purge(s, key, now), key, v).expires == Assign(s, key, v).expires;
  }

  /** Changing a live key in place keeps its expiry, so it stays live until that time. */
  lemma MutateRead(s: Store, key: Key, v: Value, now: Time, later: Time)
    requires Read(s, key, now).Some?
    ensures Read(Mutate(s, key, v), key, now) == Some(v)
    ensures Read(Mutate(s, key, v), key, later) == Read(Mutate(s, key, v), key, now) <==> !Expired(s, key, later)
  {
  }

  /** A removed key reads as nil and carries no expiry. */
  lemma RemoveRead(s: Store, key: Key, now: Time)
    ensures Read(Remove(s, key), key, now) == None
    ensures key !in Remove(s, key).expires
  {
  }

  /** Time only moves keys from live to expired: a key expired now stays expired later. */
  lemma ExpiryIsFinal(s: Store, key: Key, now: Time, later: Time)
    requires now <= later && Expired(s, key, now)
    ensures Read(s, key, later) == None
  {
  }

  /** Purging a key that is still live changes nothing. */
  lemma PurgeLive(s: Store, key: Key, now: Time)
    requires Read(s, key, now).Some?
    ensures Purge(s, key, now) == s
  {
  }

  /** Two in-place changes of one key amount to the last one. */
  lemma MutateTwice(s: Store, key: Key, v: Value, w: Value)
    ensures Mutate(Mutate(s, key, v), key, w) == Mutate(s, key, w)
  {
    assert Mutate(Mutate(s, key, v), key, w).data == Mutate(s, key, w).data;
  }

  /** Changing in place an object just assigned is the same as assigning the changed object. */
  lemma MutateAfterAssign(s: Store, key: Key, v: Value, w: Value)
    ensures Mutate(Assign(s, key, v), key, w) == Assign(s, key, w)
  {
    assert Mutate(Assign(s, key, v), key, w).data == Assign(s, key, w).data;
  }

  /** Deleting a key forgets what was written to it in place. */
  lemma MutateRemove(s: Store, key: Key, v: Value)
    ensures Remove(Mutate(s, key, v), key) == Remove(s, key)
  {
    assert Remove(Mutate(s, key, v), key).data == Remove(s, key).data;
  }

  /** Writing back the object a key already holds changes nothing. */
  lemma MutateSame(s: Store, key: Key)
    requires key in s.data
    ensures Mutate(s, key, s.data[key]) == s
  {
    assert Mutate(s, key, s.data[key]).data == s.data;
  }

  /** The ExpiringHash itself: two Ruby hashes updated in place. */
  class ExpiringHash {
    var data: map<Key, Value>
    var expires: map<Key, Time>

    function State(): Store
      reads this
    {
      Store(data, expires)
    }

    constructor ()
      ensures State() == Store(map[], map[])
    {
      data := map[];
      expires := map[];
    }

    /** `expired?` */
    predicate IsExpired(key: Key, now: Time)
      reads this
    {
      Expired(State(), key, now)
    }

    /** `[]`: purge the key when expired, then look it up. */
    method Get(key: Key, now: Time) returns (r: Option<Value>)
      modifies this
      ensures r == Read(old(State()), key, now)
      ensures State() == Purge(old(State()), key, now)
    {
      if IsExpired(key, now) {
        var _ := Delete(key);
      }
      r := if key in data then Some(data[key]) else None;
    }

    /** `[]=`: clear the expiry, then store the value. */
    method Put(key: Key, v: Value)
      modifies this
      ensures State() == Assign(old(State()), key, v)
    {
      var _ := ClearExpiry(key);
      data := data[key := v];
    }

    /** `delete`: clear the expiry, then remove the key; the old value is returned even if expired. */
    method Delete(key: Key) returns (r: Option<Value>)
      modifies this
      ensures r == if key in old(data) then Some(old(data)[key]) else None
      ensures State() == Remove(old(State()), key)
    {
      var _ := ClearExpiry(key);
      r := if key in data then Some(data[key]) else None;
      data := data - {key};
    }

    /** `expire(key)`: forget the key's expiry and return it. */
    method ClearExpiry(key: Key) returns (r: Option<Time>)
      modifies this
      ensures r == if key in old(expires) then Some(old(expires)[key]) else None
      ensures data == old(data) && expires == old(expires) - {key}
    {
      r := if key in expires then Some(expires[key]) else None;
      expires := expires - {key};
    }

    /** `key?`: purge the key when expired, then test for it. */
    method HasKey(key: Key, now: Time) returns (b: bool)
      modifies this
      ensures b == Read(old(State()), key, now).Some?
      ensures State() == Purge(old(State()), key, now)
    {
      if IsExpired(key, now) {
        var _ := Delete(key);
      }
      b := key in data;
    }

    /** Hash#has_key?, which the class does not override: an expired key still counts. */
    predicate HasKeyStored(key: Key)
      reads this
    {
      key in data
    }

    /** `values_at`: purge each requested key that has expired, then look them all up. */
    method ValuesAt(keys: seq<Key>, now: Time) returns (r: seq<Option<Value>>)
      modifies this
      ensures |r| == |keys|
      ensures forall i :: 0 <= i < |keys| ==> r[i] == Read(old(State()), keys[i], now)
      ensures State() == PurgeKeys(old(State()), KeySet(keys), now)
    {
      ghost var s0 := State();
      ghost var done: set<Key> := {};
      PurgeKeysNone(s0, now);
      var i := 0;
      while i < |keys|
        invariant 0 <= i <= |keys|
        invariant done == KeySet(keys[..i])
        invariant State() == PurgeKeys(s0, done, now)
      {
        var k := keys[i];
        PurgeKeysStep(s0, done, k, now);
        if IsExpired(k, now) {
          var _ := Delete(k);
        }
        assert keys[..i + 1] == keys[..i] + [k];
        done := done + {k};
        i := i + 1;
      }
      assert keys[..i] == keys;
      r := seq(|keys|, j requires 0 <= j < |keys| reads this => if keys[j] in data then Some(data[keys[j]]) else None);
    }

    /** `keys`: the live keys, purging every expired one on the way. */
    method Keys(now: Time) returns (ks: set<Key>)
      modifies this
      ensures ks == LiveKeys(old(State()), now)
      ensures State() == PurgeAll(old(State()), now)
    {
      ghost var s0 := State();
      var todo := data.Keys;
      ghost var done: set<Key> := {};
      ks := {};
      PurgeKeysNone(s0, now);
      while todo != {}
        invariant todo + done == s0.data.Keys && todo !! done
        invariant State() == PurgeKeys(s0, done, now)
        invariant ks == set k | k in done && !Expired(s0, k, now)
        decreases todo
      {
        var k :| k in todo;
        PurgeKeysStep(s0, done, k, now);
        assert IsExpired(k, now) == Expired(s0, k, now);
        if IsExpired(k, now) {
          var _ := Delete(k);
        } else {
          ks := ks + {k};
        }
        todo := todo - {k};
        done := done + {k};
      }
    }

    /** Replace the object under a key in place; the expiry stays. */
    method Update(key: Key, v: Value)
      modifies this
      ensures State() == Mutate(old(State()), key, v)
    {
      data := data[key := v];
    }

    /** `expires[key] = t` */
    method ExpireAt(key: Key, t: Time)
      modifies this
      ensures State() == SetExpiry(old(State()), key, t)
    {
      expires := expires[key := t];
    }
  }
}
