// Helpers every command module calls. Their definitions are not among the
// modelled source files; the behaviour below is what the commands rely on.

module CommandHelper {

  import opened Common
  import opened ExpiringHashes

  /**
   * `data_type_check(key, klass)`: the key is looked up (so an expired key
   * is purged) and WRONGTYPE is raised unless it is absent or holds a value
   * of the expected kind. The value seen is handed back.
   */
  method CheckType(db: ExpiringHash, key: Key, kind: Kind, now: Time) returns (r: Result<Option<Value>>)
    modifies db
    ensures db.State() == Purge(old(db.State()), key, now)
    ensures r == if Conforms(Read(old(db.State()), key, now), kind) then Ok(Read(old(db.State()), key, now)) else Err(WrongType)
  {
    var v := db.Get(key, now);
    if Conforms(v, kind) {
      r := Ok(v);
    } else {
      r := Err(WrongType);
    }
  }

  /** Ruby's `empty?` on the stored object. */
  predicate IsEmpty(v: Value)
  {
    match v
    case StrVal(t) => t == ""
    case ListVal(xs) => xs == []
    case SetVal(s) => s == {}
    case HashVal(h) => h == map[]
    case ZSetVal(z) => z == map[]
  }

  /**
   * `remove_key_for_empty_collection(key)`: a key whose value has become
   * empty is deleted (answering 1, the count of deleted keys); otherwise
   * nothing changes and the answer is nil.
   */
  method RemoveIfEmpty(db: ExpiringHash, key: Key, now: Time) returns (r: Reply)
    modifies db
    ensures var v := Read(old(db.State()), key, now);
      if v.Some? && IsEmpty(v.value) then db.State() == Remove(old(db.State()), key) && r == Int(1)
      else db.State() == Purge(old(db.State()), key, now) && r == Nil
  {
    var v := db.Get(key, now);
    if v.Some? && IsEmpty(v.value) {
      var _ := db.Delete(key);
      r := Int(1);
    } else {
      r := Nil;
    }
  }

  /** The position of the first key whose value is not of the expected kind. */
  function FirstMismatch(s: Store, keys: seq<Key>, kind: Kind, now: Time): (r: Option<nat>)
    ensures r.Some? ==> r.value < |keys| && !Conforms(Read(s, keys[r.value], now), kind)
    ensures r.Some? ==> forall i :: 0 <= i < r.value ==> Conforms(Read(s, keys[i], now), kind)
    ensures r.None? ==> forall i :: 0 <= i < |keys| ==> Conforms(Read(s, keys[i], now), kind)
  {
    if keys == [] then None
    else if !Conforms(Read(s, keys[0], now), kind) then Some(0)
    else match FirstMismatch(s, keys[1..], kind, now)
      case None => None
      case Some(i) => Some(i + 1)
  }

  lemma {:induction false} FirstMismatchIs(s: Store, keys: seq<Key>, kind: Kind, now: Time, i: nat)
    requires i < |keys| && !Conforms(Read(s, keys[i], now), kind)
    requires forall j :: 0 <= j < i ==> Conforms(Read(s, keys[j], now), kind)
    ensures FirstMismatch(s, keys, kind, now) == Some(i)
  {
    if i > 0 {
      FirstMismatchIs(s, keys[1..], kind, now, i - 1);
    }
  }

  /**
   * `keys.each { |k| data_type_check(k, klass) }`: the keys are checked in
   * order, each check purging its key, until one holds the wrong kind. The
   * values seen are handed back.
   */
  method CheckTypes(db: ExpiringHash, keys: seq<Key>, kind: Kind, now: Time) returns (r: Result<seq<Option<Value>>>)
    modifies db
    ensures match FirstMismatch(old(db.State()), keys, kind, now)
      case Some(j) => r == Err(WrongType) && db.State() == PurgeKeys(old(db.State()), KeySet(keys[..j + 1]), now)
      case None =>
        r.Ok? && |r.value| == |keys| && db.State() == PurgeKeys(old(db.State()), KeySet(keys), now) &&
        forall i :: 0 <= i < |keys| ==> r.value[i] == Read(old(db.State()), keys[i], now)
  {
    ghost var s0 := db.State();
    PurgeKeysNone(s0, now);
    assert KeySet(keys[..0]) == {};
    var seen: seq<Option<Value>> := [];
    var i := 0;
    while i < |keys|
      invariant 0 <= i <= |keys| && |seen| == i
      invariant db.State() == PurgeKeys(s0, KeySet(keys[..i]), now)
      invariant forall j :: 0 <= j < i ==> Conforms(Read(s0, keys[j], now), kind) && seen[j] == Read(s0, keys[j], now)
    {
      var v := CheckNext(db, s0, keys, i, kind, now);
      if v.Err? {
        FirstMismatchIs(s0, keys, kind, now, i);
        return Err(WrongType);
      }
      seen := seen + [v.value];
      i := i + 1;
    }
    assert keys[..i] == keys;
    r := Ok(seen);
  }

  /** One turn of the loop above: the check of key `i`, once the keys before it are checked. */
  method CheckNext(db: ExpiringHash, ghost s0: Store, keys: seq<Key>, i: nat, kind: Kind, now: Time) returns (r: Result<Option<Value>>)
    requires i < |keys| && db.State() == PurgeKeys(s0, KeySet(keys[..i]), now)
    modifies db
    ensures db.State() == PurgeKeys(s0, KeySet(keys[..i + 1]), now)
    ensures r == if Conforms(Read(s0, keys[i], now), kind) then Ok(Read(s0, keys[i], now)) else Err(WrongType)
  {
    PurgeKeysStep(s0, KeySet(keys[..i]), keys[i], now);
    PurgeKeysInvisible(s0, KeySet(keys[..i]), now, keys[i]);
    KeySetSnoc(keys, i);
    r := CheckType(db, keys[i], kind, now);
  }
}
