// The hash commands: a hash is a Ruby Hash from field to string stored
// under a key.

module HashCommands {

  import opened Common
  import opened Ruby
  import opened Ordering
  import opened ExpiringHashes
  import opened CommandHelper

  /** The hash under a key that passed the type check; an absent key is the empty hash. */
  function HashAt(s: Store, key: Key, now: Time): map<string, string>
    requires Conforms(Read(s, key, now), HashKind)
  {
    match Read(s, key, now)
    case Some(HashVal(h)) => h
    case _ => map[]
  }

  /** `h[f]`: the field's value or nil. */
  function Lookup(h: map<string, string>, f: string): Option<string>
  {
    if f in h then Some(h[f]) else None
  }

  function OptionReply(v: Option<string>): Reply
  {
    if v.Some? then Bulk(v.value) else Nil
  }

  /** The fields of a hash in the order the model lists them (string order). */
  function Fields(h: map<string, string>): (r: seq<string>)
    ensures |r| == |h| && forall f :: f in r <==> f in h
  {
    SortedStrings(h.Keys)
  }

  /** `to_a.flatten`: field, value, field, value, … */
  function FlattenPairs(h: map<string, string>, fs: seq<string>): (r: seq<string>)
    requires forall f :: f in fs ==> f in h
    ensures |r| == 2 * |fs|
    ensures forall i {:trigger fs[i]} :: 0 <= i < |fs| ==> r[2 * i] == fs[i] && r[2 * i + 1] == h[fs[i]]
  {
    if fs == [] then [] else [fs[0], h[fs[0]]] + FlattenPairs(h, fs[1..])
  }

  // ---------------------------------------------------------------------
  // HMSET

  /** The two shapes HMSET accepts: a flat field/value list or a list of pairs. */
  datatype FieldArgs = FlatFields(items: seq<string>) | PairList(pairs: seq<seq<string>>)

  /** The argument errors HMSET raises before it touches the key. */
  predicate FieldArgsValid(a: FieldArgs)
  {
    match a
    case FlatFields(xs) => xs != [] && |xs| % 2 == 0
    case PairList(ps) => ps != [] && forall i :: 0 <= i < |ps| ==> |ps[i]| == 2
  }

  /** The field/value assignments HMSET performs, in order. */
  function Assignments(a: FieldArgs): (r: seq<(string, string)>)
    requires FieldArgsValid(a)
    ensures a.FlatFields? ==> |r| == |a.items| / 2 && forall i :: 0 <= i < |r| ==> r[i] == (a.items[2 * i], a.items[2 * i + 1])
    ensures a.PairList? ==> |r| == |a.pairs| && forall i :: 0 <= i < |r| ==> r[i] == (a.pairs[i][0], a.pairs[i][1])
  {
    match a
    case FlatFields(xs) => seq(|xs| / 2, i requires 0 <= i < |xs| / 2 => (xs[2 * i], xs[2 * i + 1]))
    case PairList(ps) => seq(|ps|, i requires 0 <= i < |ps| => (ps[i][0], ps[i][1]))
  }

  /** The hash after each field in turn is given its value. */
  function SetFields(h: map<string, string>, kvs: seq<(string, string)>): map<string, string>
    decreases |kvs|
  {
    if kvs == [] then h else SetFields(h[kvs[0].0 := kvs[0].1], kvs[1..])
  }

  /** The value the last assignment to `f` gives it, if any does. */
  function LastValue(kvs: seq<(string, string)>, f: string): Option<string>
  {
    if kvs == [] then None
    else match LastValue(kvs[1..], f)
      case Some(v) => Some(v)
      case None => if kvs[0].0 == f then Some(kvs[0].1) else None
  }

  /** After HMSET every field holds the last value given for it; every other field is as before. */
  lemma {:induction false} SetFieldsLookup(h: map<string, string>, kvs: seq<(string, string)>, f: string)
    ensures Lookup(SetFields(h, kvs), f) == if LastValue(kvs, f).Some? then LastValue(kvs, f) else Lookup(h, f)
    decreases |kvs|
  {
    if kvs != [] {
      SetFieldsLookup(h[kvs[0].0 := kvs[0].1], kvs[1..], f);
    }
  }

  /** The text HINCRBY stores: the sum written back with `to_s`, so that `to_i` reads the sum again. */
  function Sum(current: int, increment: string): (v: string)
    ensures ToI(v) == current + ToI(increment)
  {
    ToIRoundTrip(current + ToI(increment));
    IntToString(current + ToI(increment))
  }

  /** Setting one field adds it to the fields and leaves every other field alone. */
  lemma UpdateKeepsOthers(h: map<string, string>, field: string, v: string)
    ensures h[field := v].Keys == h.Keys + {field}
    ensures h[field := v] - {field} == h - {field}
  {
    assert h[field := v] - {field} == h - {field};
  }

  /** The value HINCRBY leaves in a field of an existing hash. */
  function Incremented(h: map<string, string>, field: string, increment: string): (r: map<string, string>)
    ensures r.Keys == h.Keys + {field}
    ensures ToI(r[field]) == (if field in h then ToI(h[field]) else 0) + ToI(increment)
    ensures r - {field} == h - {field}
  {
    var r := h[field := Sum(if field in h then ToI(h[field]) else 0, increment)];
    UpdateKeepsOthers(h, field, r[field]);
    r
  }

  /** Two HINCRBYs on a field add up: the second starts from the number the first stored. */
  lemma IncrementedTwice(h: map<string, string>, field: string, a: string, b: string)
    ensures ToI(Incremented(Incremented(h, field, a), field, b)[field]) == (if field in h then ToI(h[field]) else 0) + ToI(a) + ToI(b)
  {
  }

  /** The store after an HSET that passed the type check. */
  function HSetState(s: Store, key: Key, field: string, value: string, now: Time): Store
    requires Conforms(Read(s, key, now), HashKind)
  {
    if Read(s, key, now).None? then Assign(s, key, HashVal(map[field := value]))
    else Mutate(s, key, HashVal(HashAt(s, key, now)[field := value]))
  }

  /** HGET after HSET answers the new value; every other field and every other key reads as before. */
  lemma HSetThenHGet(s: Store, key: Key, field: string, value: string, now: Time, other: Key)
    requires Conforms(Read(s, key, now), HashKind)
    ensures Conforms(Read(HSetState(s, key, field, value, now), key, now), HashKind)
    ensures Lookup(HashAt(HSetState(s, key, field, value, now), key, now), field) == Some(value)
    ensures forall f :: f != field ==> Lookup(HashAt(HSetState(s, key, field, value, now), key, now), f) == Lookup(HashAt(s, key, now), f)
    ensures other != key ==> Read(HSetState(s, key, field, value, now), other, now) == Read(s, other, now)
  {
    if Read(s, key, now).None? {
      AssignRead(s, key, HashVal(map[field := value]), now, other);
    } else {
      MutateRead(s, key, HashVal(HashAt(s, key, now)[field := value]), now, now);
    }
  }

  // ---------------------------------------------------------------------
  // Commands

  /** The reply of `HDel` and the store it leaves, given the store before. */
  ghost predicate HDelOutcome(s: Store, key: Key, field: string, now: Time, s': Store, r: Result<Reply>)
  {
        if !Conforms(Read(s, key, now), HashKind) then r == Err(WrongType) && s' == Purge(s, key, now)
    else if Read(s, key, now).None? then r == Ok(Nil) && s' == Purge(s, key, now)
    else
      var h := HashAt(s, key, now) - {field};
      var s1 := if field in HashAt(s, key, now) then Mutate(s, key, HashVal(h)) else s;
      if h == map[] then r == Ok(Int(1)) && s' == Remove(s1, key)
      else r == Ok(Nil) && s' == s1
  }

  /** HDEL: the field goes, in place; a hash left empty is deleted (see RemoveIfEmpty for the answer). */
  method HDel(db: ExpiringHash, key: Key, field: string, now: Time) returns (r: Result<Reply>)
    modifies db
    ensures HDelOutcome(old(db.State()), key, field, now, db.State(), r)
  {
    ghost var s0 := db.State();
    var cur := CheckType(db, key, HashKind, now);
    if cur.Err? {
      return Err(cur.error);
    }
    if cur.value.None? {
      var _ := RemoveIfEmpty(db, key, now);
      return Ok(Nil);
    }
    PurgeLive(s0, key, now);
    var h := cur.value.value.fields;
    if field in h {
      db.Update(key, HashVal(h - {field}));
      MutateRead(s0, key, HashVal(h - {field}), now, now);
    } else {
      assert h - {field} == h;
    }
    ghost var s1 := db.State();
    PurgeLive(s1, key, now);
    var reply := RemoveIfEmpty(db, key, now);
    r := Ok(reply);
  }

  /** The reply of `HIncrBy` and the store it leaves, given the store before. */
  ghost predicate HIncrByOutcome(s: Store, key: Key, field: string, increment: string, now: Time, s': Store, r: Result<Reply>)
  {
        if !Conforms(Read(s, key, now), HashKind) then r == Err(WrongType) && s' == Purge(s, key, now)
    else if Read(s, key, now).None? then
      r == Ok(Int(ToI(increment))) && s' == Assign(s, key, HashVal(map[field := increment]))
    else
      var h := Incremented(HashAt(s, key, now), field, increment);
      r == Ok(Int(ToI(h[field]))) && s' == Mutate(s, key, HashVal(h))
  }

  /**
   * HINCRBY: an absent key gets a new hash holding the increment exactly
   * as given; otherwise the field's value read with to_i (0 when missing)
   * is increased in place. The new value read with to_i is answered.
   */
  method HIncrBy(db: ExpiringHash, key: Key, field: string, increment: string, now: Time) returns (r: Result<Reply>)
    modifies db
    ensures HIncrByOutcome(old(db.State()), key, field, increment, now, db.State(), r)
  {
    ghost var s0 := db.State();
    var cur := CheckType(db, key, HashKind, now);
    if cur.Err? {
      return Err(cur.error);
    }
    if cur.value.None? {
      db.Put(key, HashVal(map[field := increment]));
      AssignAbsorbsPurge(s0, key, HashVal(map[field := increment]), now);
      return Ok(Int(ToI(increment)));
    }
    PurgeLive(s0, key, now);
    var h := Incremented(cur.value.value.fields, field, increment);
    db.Update(key, HashVal(h));
    r := Ok(Int(ToI(h[field])));
  }

  /** The reply of `HMGet` and the store it leaves, given the store before. */
  ghost predicate HMGetOutcome(s: Store, key: Key, fields: seq<string>, now: Time, s': Store, r: Result<Reply>)
  {
        if fields == [] then r == Err(WrongArgCount("hmget")) && s' == s
    else if !Conforms(Read(s, key, now), HashKind) then r == Err(WrongType) && s' == Purge(s, key, now)
    else
      s' == Purge(s, key, now) && r.Ok? && r.value.Array? && |r.value.items| == |fields| &&
      forall i :: 0 <= i < |fields| ==> r.value.items[i] == OptionReply(Lookup(HashAt(s, key, now), fields[i]))
  }

  /** HMGET: an empty field list is an argument error; otherwise one answer per field, nil when missing. */
  method HMGet(db: ExpiringHash, key: Key, fields: seq<string>, now: Time) returns (r: Result<Reply>)
    modifies db
    ensures HMGetOutcome(old(db.State()), key, fields, now, db.State(), r)
  {
    if fields == [] {
      return Err(WrongArgCount("hmget"));
    }
    var cur := CheckType(db, key, HashKind, now);
    if cur.Err? {
      return Err(cur.error);
    }
    var h := if cur.value.Some? then cur.value.value.fields else map[];
    r := Ok(Array(seq(|fields|, i requires 0 <= i < |fields| => OptionReply(Lookup(h, fields[i])))));
  }

  /** The reply of `HSet` and the store it leaves, given the store before. */
  ghost predicate HSetOutcome(s: Store, key: Key, field: string, value: string, now: Time, s': Store, r: Result<Reply>)
  {
        if !Conforms(Read(s, key, now), HashKind) then r == Err(WrongType) && s' == Purge(s, key, now)
    else r == Ok(Bool(field !in HashAt(s, key, now))) && s' == HSetState(s, key, field, value, now)
  }

  /** HSET: true exactly when the field is new; the value is stored and no other field changes. */
  method HSet(db: ExpiringHash, key: Key, field: string, value: string, now: Time) returns (r: Result<Reply>)
    modifies db
    ensures HSetOutcome(old(db.State()), key, field, value, now, db.State(), r)
  {
    ghost var s0 := db.State();
    var cur := CheckType(db, key, HashKind, now);
    if cur.Err? {
      return Err(cur.error);
    }
    if cur.value.None? {
      db.Put(key, HashVal(map[field := value]));
      AssignAbsorbsPurge(s0, key, HashVal(map[field := value]), now);
      return Ok(Bool(true));
    }
    PurgeLive(s0, key, now);
    var h := cur.value.value.fields;
    db.Update(key, HashVal(h[field := value]));
    r := Ok(Bool(field !in h));
  }

  /** The reply of `HSetNx` and the store it leaves, given the store before. */
  ghost predicate HSetNxOutcome(s: Store, key: Key, field: string, value: string, now: Time, s': Store, r: Result<Reply>)
  {
        if !Conforms(Read(s, key, now), HashKind) then r == Err(WrongType) && s' == Purge(s, key, now)
    else if field in HashAt(s, key, now) then r == Ok(Bool(false)) && s' == Purge(s, key, now)
    else r == Ok(Bool(true)) && s' == HSetState(s, key, field, value, now)
  }

  /** HSETNX: false and no change when the field has a value; otherwise HSET. */
  method HSetNx(db: ExpiringHash, key: Key, field: string, value: string, now: Time) returns (r: Result<Reply>)
    modifies db
    ensures HSetNxOutcome(old(db.State()), key, field, value, now, db.State(), r)
  {
    ghost var s0 := db.State();
    var cur := CheckType(db, key, HashKind, now);
    if cur.Err? {
      return Err(cur.error);
    }
    if cur.value.Some? && field in cur.value.value.fields {
      return Ok(Bool(false));
    }
    PurgeInvisible(s0, key, now, key);
    r := HSet(db, key, field, value, now);
    AssignAbsorbsPurge(s0, key, HashVal(map[field := value]), now);
  }

  /** The reply of `HMSet` and the store it leaves, given the store before. */
  ghost predicate HMSetOutcome(s: Store, key: Key, args: FieldArgs, now: Time, s': Store, r: Result<Reply>)
  {
        if !FieldArgsValid(args) then r == Err(WrongArgCount("hmset")) && s' == s
    else if !Conforms(Read(s, key, now), HashKind) then r == Err(WrongType) && s' == Purge(s, key, now)
    else
      var h := SetFields(HashAt(s, key, now), Assignments(args));
      r == Ok(if args.FlatFields? then Nil else Array(seq(|args.pairs|, i requires 0 <= i < |args.pairs| => Array(BulkAll(args.pairs[i]))))) &&
      s' == if Read(s, key, now).None? then Assign(s, key, HashVal(h)) else Mutate(s, key, HashVal(h))
  }

  /**
   * HMSET: the argument errors come first; then the type check; an absent
   * key gets an empty hash, and every assignment is then made in place.
   * The flat form answers nil, the list of pairs answers that list.
   */
  method HMSet(db: ExpiringHash, key: Key, args: FieldArgs, now: Time) returns (r: Result<Reply>)
    modifies db
    ensures HMSetOutcome(old(db.State()), key, args, now, db.State(), r)
  {
    if !FieldArgsValid(args) {
      return Err(WrongArgCount("hmset"));
    }
    ghost var s0 := db.State();
    var cur := CheckType(db, key, HashKind, now);
    if cur.Err? {
      return Err(cur.error);
    }
    var h: map<string, string>;
    if cur.value.None? {
      db.Put(key, HashVal(map[]));
      AssignAbsorbsPurge(s0, key, HashVal(map[]), now);
      h := map[];
    } else {
      PurgeLive(s0, key, now);
      h := cur.value.value.fields;
    }
    ghost var base := db.State();
    MutateSame(base, key);
    var kvs := Assignments(args);
    var i := 0;
    while i < |kvs|
      invariant 0 <= i <= |kvs|
      invariant SetFields(h, kvs[i..]) == SetFields(if cur.value.None? then map[] else cur.value.value.fields, kvs)
      invariant db.State() == Mutate(base, key, HashVal(h))
    {
      assert kvs[i..][1..] == kvs[i + 1..];
      MutateTwice(base, key, HashVal(h), HashVal(h[kvs[i].0 := kvs[i].1]));
      h := h[kvs[i].0 := kvs[i].1];
      db.Update(key, HashVal(h));
      i := i + 1;
    }
    if cur.value.None? {
      MutateAfterAssign(s0, key, HashVal(map[]), HashVal(h));
    }
    r := Ok(if args.FlatFields? then Nil else Array(seq(|args.pairs|, i requires 0 <= i < |args.pairs| => Array(BulkAll(args.pairs[i])))));
  }

  /** The reply of `HLen` and the store it leaves, given the store before. */
  ghost predicate HLenOutcome(s: Store, key: Key, now: Time, s': Store, r: Result<Reply>)
  {
    (s' == Purge(s, key, now)) &&
    (r == if Conforms(Read(s, key, now), HashKind) then Ok(Int(|HashAt(s, key, now)|)) else Err(WrongType))
  }

  /** HLEN: the number of fields, 0 for an absent key. */
  method HLen(db: ExpiringHash, key: Key, now: Time) returns (r: Result<Reply>)
    modifies db
    ensures HLenOutcome(old(db.State()), key, now, db.State(), r)
  {
    var cur := CheckType(db, key, HashKind, now);
    if cur.Err? {
      return Err(cur.error);
    }
    r := Ok(Int(if cur.value.Some? then |cur.value.value.fields| else 0));
  }

  /** `values_at`: the value of every field of `fs`, in order. */
  function Lookups(h: map<string, string>, fs: seq<string>): (r: seq<string>)
    requires forall f :: f in fs ==> f in h
    ensures |r| == |fs|
    ensures forall i {:trigger fs[i]} :: 0 <= i < |fs| ==> r[i] == h[fs[i]]
  {
    if fs == [] then [] else [h[fs[0]]] + Lookups(h, fs[1..])
  }

  /** The values of a hash, in the order its fields are listed. */
  function AllValues(h: map<string, string>): (r: seq<Reply>)
    ensures |r| == |h|
    ensures forall i {:trigger Fields(h)[i]} :: 0 <= i < |h| ==> r[i] == Bulk(h[Fields(h)[i]])
  {
    BulkAll(Lookups(h, Fields(h)))
  }

  /** The type check every hash read starts with; an absent key reads as the empty hash. */
  method ReadHash(db: ExpiringHash, key: Key, now: Time) returns (r: Result<map<string, string>>)
    modifies db
    ensures db.State() == Purge(old(db.State()), key, now)
    ensures r == if Conforms(Read(old(db.State()), key, now), HashKind) then Ok(HashAt(old(db.State()), key, now)) else Err(WrongType)
  {
    var cur := CheckType(db, key, HashKind, now);
    if cur.Err? {
      return Err(cur.error);
    }
    r := Ok(if cur.value.Some? then cur.value.value.fields else map[]);
  }

  /** The reply of `HVals` and the store it leaves, given the store before. */
  ghost predicate HValsOutcome(s: Store, key: Key, now: Time, s': Store, r: Result<Reply>)
  {
    (s' == Purge(s, key, now)) &&
    (r == if Conforms(Read(s, key, now), HashKind) then Ok(Array(AllValues(HashAt(s, key, now)))) else Err(WrongType))
  }

  /** HVALS: the values, `[]` for an absent key. */
  method HVals(db: ExpiringHash, key: Key, now: Time) returns (r: Result<Reply>)
    modifies db
    ensures HValsOutcome(old(db.State()), key, now, db.State(), r)
  {
    var h := ReadHash(db, key, now);
    if h.Err? {
      return Err(h.error);
    }
    r := Ok(Array(AllValues(h.value)));
  }

  /** The reply of `HExists` and the store it leaves, given the store before. */
  ghost predicate HExistsOutcome(s: Store, key: Key, field: string, now: Time, s': Store, r: Result<Reply>)
  {
    (s' == Purge(s, key, now)) &&
    (r == if Conforms(Read(s, key, now), HashKind) then Ok(Bool(field in HashAt(s, key, now))) else Err(WrongType))
  }

  /** HEXISTS: whether the field is in the hash, false for an absent key. */
  method HExists(db: ExpiringHash, key: Key, field: string, now: Time) returns (r: Result<Reply>)
    modifies db
    ensures HExistsOutcome(old(db.State()), key, field, now, db.State(), r)
  {
    var cur := CheckType(db, key, HashKind, now);
    if cur.Err? {
      return Err(cur.error);
    }
    r := Ok(Bool(cur.value.Some? && field in cur.value.value.fields));
  }

  /** The HGETALL answer for a hash: fields and values alternating. */
  function AllPairs(h: map<string, string>): (r: seq<Reply>)
    ensures |r| == 2 * |h|
    ensures forall i {:trigger Fields(h)[i]} :: 0 <= i < |h| ==> r[2 * i] == Bulk(Fields(h)[i]) && r[2 * i + 1] == Bulk(h[Fields(h)[i]])
  {
    var fs := Fields(h);
    var flat := FlattenPairs(h, fs);
    var r := BulkAll(flat);
    forall i | 0 <= i < |h| ensures r[2 * i] == Bulk(fs[i]) && r[2 * i + 1] == Bulk(h[fs[i]]) {
      assert flat[2 * i] == fs[i] && flat[2 * i + 1] == h[fs[i]];
    }
    r
  }

  /** The reply of `HGetAll` and the store it leaves, given the store before. */
  ghost predicate HGetAllOutcome(s: Store, key: Key, now: Time, s': Store, r: Result<Reply>)
  {
    (s' == Purge(s, key, now)) &&
    (r == if Conforms(Read(s, key, now), HashKind) then Ok(Array(AllPairs(HashAt(s, key, now)))) else Err(WrongType))
  }

  /** HGETALL: fields and values alternating, `[]` for an absent key. */
  method HGetAll(db: ExpiringHash, key: Key, now: Time) returns (r: Result<Reply>)
    modifies db
    ensures HGetAllOutcome(old(db.State()), key, now, db.State(), r)
  {
    var h := ReadHash(db, key, now);
    if h.Err? {
      return Err(h.error);
    }
    r := Ok(Array(AllPairs(h.value)));
  }

  /** The reply of `HGet` and the store it leaves, given the store before. */
  ghost predicate HGetOutcome(s: Store, key: Key, field: string, now: Time, s': Store, r: Result<Reply>)
  {
    (s' == Purge(s, key, now)) &&
    (r == if Conforms(Read(s, key, now), HashKind) then Ok(OptionReply(Lookup(HashAt(s, key, now), field))) else Err(WrongType))
  }

  /** HGET: the field's value, nil when the key or the field is missing. */
  method HGet(db: ExpiringHash, key: Key, field: string, now: Time) returns (r: Result<Reply>)
    modifies db
    ensures HGetOutcome(old(db.State()), key, field, now, db.State(), r)
  {
    var cur := CheckType(db, key, HashKind, now);
    if cur.Err? {
      return Err(cur.error);
    }
    r := Ok(OptionReply(if cur.value.Some? then Lookup(cur.value.value.fields, field) else None));
  }

  /** The reply of `HKeys` and the store it leaves, given the store before. */
  ghost predicate HKeysOutcome(s: Store, key: Key, now: Time, s': Store, r: Result<Reply>)
  {
    (s' == Purge(s, key, now)) &&
    (r == if Conforms(Read(s, key, now), HashKind) then Ok(Array(BulkAll(Fields(HashAt(s, key, now))))) else Err(WrongType))
  }

  /** HKEYS: the fields, `[]` for an absent key. */
  method HKeys(db: ExpiringHash, key: Key, now: Time) returns (r: Result<Reply>)
    modifies db
    ensures HKeysOutcome(old(db.State()), key, now, db.State(), r)
  {
    var h := ReadHash(db, key, now);
    if h.Err? {
      return Err(h.error);
    }
    r := Ok(Array(BulkAll(Fields(h.value))));
  }
}
