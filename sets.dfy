// The set commands: a set is a Ruby ::Set of strings stored under a key.

module SetCommands {

  import opened Common
  import opened Ordering
  import opened ExpiringHashes
  import opened CommandHelper

  /** The members a sequence of arguments names. */
  function Elements(xs: seq<string>): set<string>
  {
    set x | x in xs
  }

  /** The set under a key that passed the type check; an absent key is the empty set. */
  function SetAt(s: Store, key: Key, now: Time): set<string>
    requires Conforms(Read(s, key, now), SetKind)
  {
    match Read(s, key, now)
    case Some(SetVal(m)) => m
    case _ => {}
  }

  /** A set answered as an array; the model lists members in string order. */
  function SetReply(m: set<string>): Reply
  {
    Array(BulkAll(SortedStrings(m)))
  }

  // ---------------------------------------------------------------------
  // SADD and SREM as store transitions

  /**
   * SADD on a key that passed the type check: a stored set is merged in
   * place (keeping its expiry), a new set is assigned. The number of
   * members that were not there before comes with it.
   */
  function AddMembers(s: Store, key: Key, members: set<string>, now: Time): (Store, nat)
    requires Conforms(Read(s, key, now), SetKind)
  {
    var cur := Read(s, key, now);
    if cur.Some? then
      var m := cur.value.members;
      (Mutate(s, key, SetVal(m + members)), |members - m|)
    else (Assign(s, key, SetVal(members)), |members|)
  }

  /** SADD's answer: a count of 0 or 1 becomes false or true, larger counts stay. */
  function AddReply(n: nat): Reply
  {
    if n < 2 then Bool(n == 1) else Int(n)
  }

  /**
   * SREM on a key that passed the type check: whether the member was
   * there, and the store with it removed in place — and the key deleted
   * once its set is empty.
   */
  function RemoveMember(s: Store, key: Key, x: string, now: Time): (Store, bool)
    requires Conforms(Read(s, key, now), SetKind)
  {
    var cur := Read(s, key, now);
    if cur.None? then (Purge(s, key, now), false)
    else
      var m := cur.value.members;
      var rest := m - {x};
      (if rest == {} then Remove(s, key) else if x in m then Mutate(s, key, SetVal(rest)) else s, x in m)
  }

  /** After SADD the key holds the old set united with the new members, and the count is of the new ones. */
  lemma AddMembersRead(s: Store, key: Key, members: set<string>, now: Time)
    requires Conforms(Read(s, key, now), SetKind)
    ensures var (s1, n) := AddMembers(s, key, members, now);
      Read(s1, key, now) == Some(SetVal(SetAt(s, key, now) + members)) &&
      n == |members - SetAt(s, key, now)| &&
      forall k :: k != key ==> Read(s1, k, now) == Read(s, k, now)
  {
    if Read(s, key, now).None? {
      assert members - {} == members;
    }
  }

  /** SREM reports exactly whether the member was present, and afterwards it is not. */
  lemma RemoveMemberRead(s: Store, key: Key, x: string, now: Time)
    requires Conforms(Read(s, key, now), SetKind)
    ensures var (s1, deleted) := RemoveMember(s, key, x, now);
      deleted == (x in SetAt(s, key, now)) &&
      Conforms(Read(s1, key, now), SetKind) &&
      SetAt(s1, key, now) == SetAt(s, key, now) - {x} &&
      (Read(s1, key, now).Some? ==> SetAt(s1, key, now) != {}) &&
      forall k :: k != key ==> Read(s1, k, now) == Read(s, k, now)
  {
  }

  /** SADD of a new member followed by SREM of it leaves the key's members as they were. */
  lemma AddThenRemove(s: Store, key: Key, x: string, now: Time)
    requires Conforms(Read(s, key, now), SetKind) && x !in SetAt(s, key, now)
    ensures var (s1, n) := AddMembers(s, key, {x}, now);
      n == 1 && Conforms(Read(s1, key, now), SetKind) &&
      RemoveMember(s1, key, x, now).1 &&
      SetAt(RemoveMember(s1, key, x, now).0, key, now) == SetAt(s, key, now)
  {
    AddMembersRead(s, key, {x}, now);
    var (s1, n) := AddMembers(s, key, {x}, now);
    assert {x} - SetAt(s, key, now) == {x};
    RemoveMemberRead(s1, key, x, now);
    assert (SetAt(s, key, now) + {x}) - {x} == SetAt(s, key, now);
  }

  // ---------------------------------------------------------------------
  // The combinators

  /** `inject { |set, key| set & key }`: the first set intersected with each of the others. */
  function Intersection(sets: seq<set<string>>): set<string>
    requires sets != []
  {
    if |sets| == 1 then sets[0] else Intersection(sets[..|sets| - 1]) * sets[|sets| - 1]
  }

  /** `inject(Set.new) { |set, key| set | key }`. */
  function Union(sets: seq<set<string>>): set<string>
  {
    if sets == [] then {} else Union(sets[..|sets| - 1]) + sets[|sets| - 1]
  }

  /** `inject(first) { |memo, set| memo - set }`. */
  function Difference(first: set<string>, sets: seq<set<string>>): set<string>
  {
    if sets == [] then first else Difference(first, sets[..|sets| - 1]) - sets[|sets| - 1]
  }

  /** A member is in the intersection exactly when it is in every set. */
  lemma {:induction false} IntersectionMembers(sets: seq<set<string>>, x: string)
    requires sets != []
    ensures x in Intersection(sets) <==> forall i :: 0 <= i < |sets| ==> x in sets[i]
  {
    if |sets| > 1 {
      var init := sets[..|sets| - 1];
      IntersectionMembers(init, x);
      assert forall i :: 0 <= i < |init| ==> init[i] == sets[i];
    }
  }

  /** A member is in the union exactly when it is in some set. */
  lemma {:induction false} UnionMembers(sets: seq<set<string>>, x: string)
    ensures x in Union(sets) <==> exists i :: 0 <= i < |sets| && x in sets[i]
  {
    if sets != [] {
      var init := sets[..|sets| - 1];
      UnionMembers(init, x);
      assert forall i :: 0 <= i < |init| ==> init[i] == sets[i];
      if x in sets[|sets| - 1] {
        assert 0 <= |sets| - 1 < |sets| && x in sets[|sets| - 1];
      }
    }
  }

  /** A member is in the difference exactly when it is in the first set and in none of the others. */
  lemma {:induction false} DifferenceMembers(first: set<string>, sets: seq<set<string>>, x: string)
    ensures x in Difference(first, sets) <==> x in first && forall i :: 0 <= i < |sets| ==> x !in sets[i]
  {
    if sets != [] {
      var init := sets[..|sets| - 1];
      DifferenceMembers(first, init, x);
      assert forall i :: 0 <= i < |init| ==> init[i] == sets[i];
    }
  }

  /** The sets a sequence of looked-up values stands for, an absent key counting as empty. */
  function SetsOf(vs: seq<Option<Value>>): (r: seq<set<string>>)
    ensures |r| == |vs|
    ensures forall i :: 0 <= i < |vs| ==> r[i] == if vs[i].Some? && vs[i].value.SetVal? then vs[i].value.members else {}
  {
    seq(|vs|, i requires 0 <= i < |vs| => if vs[i].Some? && vs[i].value.SetVal? then vs[i].value.members else {})
  }

  /** The values the keys read as. */
  function ReadAll(s: Store, keys: seq<Key>, now: Time): (r: seq<Option<Value>>)
    ensures |r| == |keys| && forall i :: 0 <= i < |keys| ==> r[i] == Read(s, keys[i], now)
  {
    seq(|keys|, i requires 0 <= i < |keys| => Read(s, keys[i], now))
  }

  /** What SINTER computes once every key passed the type check. */
  function InterOf(vs: seq<Option<Value>>): set<string>
    requires vs != []
  {
    if exists i :: 0 <= i < |vs| && vs[i].None? then {} else Intersection(SetsOf(vs))
  }

  // ---------------------------------------------------------------------
  // Commands

  /** The reply of `SMembers` and the store it leaves, given the store before. */
  ghost predicate SMembersOutcome(s: Store, key: Key, now: Time, s': Store, r: Result<Reply>)
  {
    (s' == Purge(s, key, now)) &&
    (r == if Conforms(Read(s, key, now), SetKind) then Ok(SetReply(SetAt(s, key, now))) else Err(WrongType))
  }

  /** SMEMBERS: the members, `[]` for an absent key. */
  method SMembers(db: ExpiringHash, key: Key, now: Time) returns (r: Result<Reply>)
    modifies db
    ensures SMembersOutcome(old(db.State()), key, now, db.State(), r)
  {
    var cur := CheckType(db, key, SetKind, now);
    if cur.Err? {
      return Err(cur.error);
    }
    r := Ok(SetReply(if cur.value.Some? then cur.value.value.members else {}));
  }

  /** The reply of `SIsMember` and the store it leaves, given the store before. */
  ghost predicate SIsMemberOutcome(s: Store, key: Key, x: string, now: Time, s': Store, r: Result<Reply>)
  {
    (s' == Purge(s, key, now)) &&
    (r == if Conforms(Read(s, key, now), SetKind) then Ok(Bool(x in SetAt(s, key, now))) else Err(WrongType))
  }

  /** SISMEMBER: whether the member is in the set, false for an absent key. */
  method SIsMember(db: ExpiringHash, key: Key, x: string, now: Time) returns (r: Result<Reply>)
    modifies db
    ensures SIsMemberOutcome(old(db.State()), key, x, now, db.State(), r)
  {
    var cur := CheckType(db, key, SetKind, now);
    if cur.Err? {
      return Err(cur.error);
    }
    r := Ok(Bool(cur.value.Some? && x in cur.value.value.members));
  }

  /** The reply of `SAdd` and the store it leaves, given the store before. */
  ghost predicate SAddOutcome(s: Store, key: Key, values: seq<string>, now: Time, s': Store, r: Result<Reply>)
  {
        if !Conforms(Read(s, key, now), SetKind) then r == Err(WrongType) && s' == Purge(s, key, now)
    else if values == [] then r == Err(WrongArgCount("sadd")) && s' == Purge(s, key, now)
    else var (s1, n) := AddMembers(s, key, Elements(values), now); r == Ok(AddReply(n)) && s' == s1
  }

  /** SADD: an empty member list is an argument error; otherwise see AddMembers and AddReply. */
  method SAdd(db: ExpiringHash, key: Key, values: seq<string>, now: Time) returns (r: Result<Reply>)
    modifies db
    ensures SAddOutcome(old(db.State()), key, values, now, db.State(), r)
  {
    ghost var s0 := db.State();
    var cur := CheckType(db, key, SetKind, now);
    if cur.Err? {
      return Err(cur.error);
    }
    if values == [] {
      return Err(WrongArgCount("sadd"));
    }
    var members := Elements(values);
    var result: nat;
    if cur.value.Some? {
      PurgeLive(s0, key, now);
      var old_set := cur.value.value.members;
      db.Update(key, SetVal(old_set + members));
      assert (old_set + members) - old_set == members - old_set;
      result := |(old_set + members) - old_set|;
    } else {
      db.Put(key, SetVal(members));
      AssignAbsorbsPurge(s0, key, SetVal(members), now);
      result := |members|;
    }
    r := Ok(AddReply(result));
  }

  /** The reply of `SRem` and the store it leaves, given the store before. */
  ghost predicate SRemOutcome(s: Store, key: Key, x: string, now: Time, s': Store, r: Result<Reply>)
  {
        if !Conforms(Read(s, key, now), SetKind) then r == Err(WrongType) && s' == Purge(s, key, now)
    else var (s1, deleted) := RemoveMember(s, key, x, now); r == Ok(Bool(deleted)) && s' == s1
  }

  /** SREM: see RemoveMember; the answer says whether the member was there. */
  method SRem(db: ExpiringHash, key: Key, x: string, now: Time) returns (r: Result<Reply>)
    modifies db
    ensures SRemOutcome(old(db.State()), key, x, now, db.State(), r)
  {
    ghost var s0 := db.State();
    var cur := CheckType(db, key, SetKind, now);
    if cur.Err? {
      return Err(cur.error);
    }
    var deleted := cur.value.Some? && x in cur.value.value.members;
    if deleted {
      PurgeLive(s0, key, now);
      db.Update(key, SetVal(cur.value.value.members - {x}));
    }
    if cur.value.Some? {
      PurgeLive(s0, key, now);
      MutateRead(s0, key, SetVal(cur.value.value.members - {x}), now, now);
    }
    var _ := RemoveIfEmpty(db, key, now);
    if cur.value.Some? && deleted {
      ghost var m := cur.value.value.members;
      assert m - {x} == {} ==> Remove(Mutate(s0, key, SetVal(m - {x})), key) == Remove(s0, key) by {
        assert Remove(Mutate(s0, key, SetVal(m - {x})), key).data == Remove(s0, key).data;
      }
    }
    r := Ok(Bool(deleted));
  }

  /** The reply of `SMove` and the store it leaves, given the store before. */
  ghost predicate SMoveOutcome(s: Store, source: Key, destination: Key, x: string, now: Time, s': Store, r: Result<Reply>)
  {
        if !Conforms(Read(s, destination, now), SetKind) then r == Err(WrongType) && s' == Purge(s, destination, now)
    else
      var s1 := Purge(s, destination, now);
      if !Conforms(Read(s1, source, now), SetKind) then r == Err(WrongType) && s' == Purge(s1, source, now)
      else
        var (s2, deleted) := RemoveMember(s1, source, x, now);
        r == Ok(Bool(deleted)) &&
        s' == if deleted then AddMembers(s2, destination, {x}, now).0 else s2
  }

  /**
   * SMOVE: the destination is type-checked first; the member is added to
   * the destination only when SREM removed it from the source, and that
   * removal result is the answer.
   */
  method SMove(db: ExpiringHash, source: Key, destination: Key, x: string, now: Time) returns (r: Result<Reply>)
    modifies db
    ensures SMoveOutcome(old(db.State()), source, destination, x, now, db.State(), r)
  {
    ghost var s0 := db.State();
    var check := CheckType(db, destination, SetKind, now);
    if check.Err? {
      return Err(check.error);
    }
    ghost var s1 := db.State();
    PurgeInvisible(s0, destination, now, source);
    var removed := SRem(db, source, x, now);
    if removed.Err? {
      return removed;
    }
    ghost var s2 := db.State();
    if removed.value.b {
      RemoveMemberRead(s1, source, x, now);
      if source != destination {
        PurgeInvisible(s0, destination, now, destination);
      }
      assert Elements([x]) == {x};
      var _ := SAdd(db, destination, [x], now);
    }
    r := removed;
  }

  /** After a successful SMOVE between two keys the member is in the destination and not in the source. */
  lemma SMoveMoves(s: Store, source: Key, destination: Key, x: string, now: Time)
    requires source != destination
    requires Conforms(Read(s, source, now), SetKind) && Conforms(Read(s, destination, now), SetKind)
    requires x in SetAt(s, source, now)
    ensures var (s2, deleted) := RemoveMember(s, source, x, now);
      deleted && Conforms(Read(s2, destination, now), SetKind) &&
      var s3 := AddMembers(s2, destination, {x}, now).0;
      x !in SetAt(s3, source, now) && x in SetAt(s3, destination, now) &&
      SetAt(s3, destination, now) == SetAt(s, destination, now) + {x}
  {
    RemoveMemberRead(s, source, x, now);
    var (s2, deleted) := RemoveMember(s, source, x, now);
    AddMembersRead(s2, destination, {x}, now);
  }

  /** The reply of `SPop` and the store it leaves, given the store before. */
  ghost predicate SPopOutcome(s: Store, key: Key, now: Time, s': Store, r: Result<Reply>)
  {
        if !Conforms(Read(s, key, now), SetKind) then r == Err(WrongType) && s' == Purge(s, key, now)
    else if SetAt(s, key, now) == {} then r == Ok(Nil) && s' == RemoveMember(s, key, "", now).0
    else r.Ok? && r.value.Bulk? && r.value.s in SetAt(s, key, now) && s' == RemoveMember(s, key, r.value.s, now).0
  }

  /** SPOP: SRANDMEMBER, then SREM of what it chose (of "" when it chose nothing). */
  method SPop(db: ExpiringHash, key: Key, now: Time) returns (r: Result<Reply>)
    modifies db
    ensures SPopOutcome(old(db.State()), key, now, db.State(), r)
  {
    ghost var s0 := db.State();
    var elem := SRandMember(db, key, now);
    if elem.Err? {
      return elem;
    }
    ghost var s1 := db.State();
    var x := if elem.value.Bulk? then elem.value.s else "";
    var _ := SRem(db, key, x, now);
    r := elem;
  }

  /** The reply of `SCard` and the store it leaves, given the store before. */
  ghost predicate SCardOutcome(s: Store, key: Key, now: Time, s': Store, r: Result<Reply>)
  {
    (s' == Purge(s, key, now)) &&
    (r == if Conforms(Read(s, key, now), SetKind) then Ok(Int(|SetAt(s, key, now)|)) else Err(WrongType))
  }

  /** SCARD: the number of members, 0 for an absent key. */
  method SCard(db: ExpiringHash, key: Key, now: Time) returns (r: Result<Reply>)
    modifies db
    ensures SCardOutcome(old(db.State()), key, now, db.State(), r)
  {
    var cur := CheckType(db, key, SetKind, now);
    if cur.Err? {
      return Err(cur.error);
    }
    r := Ok(Int(if cur.value.Some? then |cur.value.value.members| else 0));
  }

  /** The reply of `SRandMember` and the store it leaves, given the store before. */
  ghost predicate SRandMemberOutcome(s: Store, key: Key, now: Time, s': Store, r: Result<Reply>)
  {
    (s' == Purge(s, key, now)) &&
    (      if !Conforms(Read(s, key, now), SetKind) then r == Err(WrongType)
      else if SetAt(s, key, now) == {} then r == Ok(Nil)
      else r.Ok? && r.value.Bulk? && r.value.s in SetAt(s, key, now))
  }

  /** SRANDMEMBER: some member, chosen freely; nil for an absent or empty set. */
  method SRandMember(db: ExpiringHash, key: Key, now: Time) returns (r: Result<Reply>)
    modifies db
    ensures SRandMemberOutcome(old(db.State()), key, now, db.State(), r)
  {
    var cur := CheckType(db, key, SetKind, now);
    if cur.Err? {
      return Err(cur.error);
    }
    if cur.value.None? || cur.value.value.members == {} {
      return Ok(Nil);
    }
    var x :| x in cur.value.value.members;
    r := Ok(Bulk(x));
  }

  /**
   * The result of `SInter` and the store it leaves, given the store before.
   * `asSet` says the answer is the `::Set` object of the early return for an
   * absent key rather than an array.
   */
  ghost predicate SInterOutcome(s: Store, keys: seq<Key>, now: Time, s': Store, r: Result<set<string>>, asSet: bool)
  {
        if keys == [] then r == Err(WrongArgCount("sinter")) && s' == s && !asSet
    else match FirstMismatch(s, keys, SetKind, now)
      case Some(j) => r == Err(WrongType) && s' == PurgeKeys(s, KeySet(keys[..j + 1]), now) && !asSet
      case None =>
        var vs := ReadAll(s, keys, now);
        r == Ok(InterOf(vs)) && s' == PurgeKeys(s, KeySet(keys), now) &&
        (asSet <==> exists i :: 0 <= i < |vs| && vs[i].None?)
  }

  /**
   * SINTER: an empty key list is an argument error; every key is
   * type-checked; any absent key makes the answer an empty `::Set`;
   * otherwise the members common to all the sets, as an array.
   */
  method SInter(db: ExpiringHash, keys: seq<Key>, now: Time) returns (r: Result<set<string>>, asSet: bool)
    modifies db
    ensures SInterOutcome(old(db.State()), keys, now, db.State(), r, asSet)
  {
    if keys == [] {
      return Err(WrongArgCount("sinter")), false;
    }
    ghost var s0 := db.State();
    var vs := CheckTypes(db, keys, SetKind, now);
    if vs.Err? {
      return Err(vs.error), false;
    }
    assert vs.value == ReadAll(s0, keys, now);
    if exists i :: 0 <= i < |vs.value| && vs.value[i].None? {
      return Ok({}), true;
    }
    r, asSet := Ok(Intersection(SetsOf(vs.value))), false;
  }

  /** The reply of `SUnion` and the store it leaves, given the store before. */
  ghost predicate SUnionOutcome(s: Store, keys: seq<Key>, now: Time, s': Store, r: Result<set<string>>)
  {
        match FirstMismatch(s, keys, SetKind, now)
    case Some(j) => r == Err(WrongType) && s' == PurgeKeys(s, KeySet(keys[..j + 1]), now)
    case None => r == Ok(Union(SetsOf(ReadAll(s, keys, now)))) && s' == PurgeKeys(s, KeySet(keys), now)
  }

  /** SUNION: every key is type-checked; the members of any of the sets. */
  method SUnion(db: ExpiringHash, keys: seq<Key>, now: Time) returns (r: Result<set<string>>)
    modifies db
    ensures SUnionOutcome(old(db.State()), keys, now, db.State(), r)
  {
    ghost var s0 := db.State();
    var vs := CheckTypes(db, keys, SetKind, now);
    if vs.Err? {
      return Err(vs.error);
    }
    assert vs.value == ReadAll(s0, keys, now);
    r := Ok(Union(SetsOf(vs.value)));
  }

  /** The reply of `SDiff` and the store it leaves, given the store before. */
  ghost predicate SDiffOutcome(s: Store, key1: Key, keys: seq<Key>, now: Time, s': Store, r: Result<set<string>>)
  {
    var all := [key1] + keys;
    match FirstMismatch(s, all, SetKind, now)
    case Some(j) => r == Err(WrongType) && s' == PurgeKeys(s, KeySet(all[..j + 1]), now)
    case None =>
      r == Ok(Difference(SetAt(s, key1, now), SetsOf(ReadAll(s, keys, now)))) && s' == PurgeKeys(s, KeySet(all), now)
  }

  /** SDIFF: every key is type-checked; the members of the first set that are in none of the others. */
  method SDiff(db: ExpiringHash, key1: Key, keys: seq<Key>, now: Time) returns (r: Result<set<string>>)
    modifies db
    ensures SDiffOutcome(old(db.State()), key1, keys, now, db.State(), r)
  {
    ghost var s0 := db.State();
    var vs := CheckTypes(db, [key1] + keys, SetKind, now);
    if vs.Err? {
      return Err(vs.error);
    }
    assert vs.value[1..] == ReadAll(s0, keys, now);
    var first := if vs.value[0].Some? then vs.value[0].value.members else {};
    r := Ok(Difference(first, SetsOf(vs.value[1..])));
  }

  /**
   * The `*store` commands: the destination is type-checked first, then the
   * combination is computed and assigned to the destination — even when it
   * is empty, and clearing the destination's expiry. The new set is the answer.
   */
  method StoreResult(db: ExpiringHash, destination: Key, result: Result<set<string>>) returns (r: Result<Reply>)
    modifies db
    ensures result.Err? ==> r == Err(result.error) && db.State() == old(db.State())
    ensures result.Ok? ==> r == Ok(Stored(SetVal(result.value))) && db.State() == Assign(old(db.State()), destination, SetVal(result.value))
  {
    if result.Err? {
      return Err(result.error);
    }
    db.Put(destination, SetVal(result.value));
    r := Ok(Stored(SetVal(result.value)));
  }

  /** The reply of `SInterStore` and the store it leaves, given the store before. */
  ghost predicate SInterStoreOutcome(s: Store, destination: Key, keys: seq<Key>, now: Time, s': Store, r: Result<Reply>)
  {
        if !Conforms(Read(s, destination, now), SetKind) then r == Err(WrongType) && s' == Purge(s, destination, now)
    else
      var s1 := Purge(s, destination, now);
      if keys == [] then r == Err(WrongArgCount("sinter")) && s' == s1
      else match FirstMismatch(s1, keys, SetKind, now)
        case Some(j) => r == Err(WrongType) && s' == PurgeKeys(s1, KeySet(keys[..j + 1]), now)
        case None =>
          var m := InterOf(ReadAll(s1, keys, now));
          r == Ok(Stored(SetVal(m))) && s' == Assign(PurgeKeys(s1, KeySet(keys), now), destination, SetVal(m))
  }

  /** SINTERSTORE. */
  method SInterStore(db: ExpiringHash, destination: Key, keys: seq<Key>, now: Time) returns (r: Result<Reply>)
    modifies db
    ensures SInterStoreOutcome(old(db.State()), destination, keys, now, db.State(), r)
  {
    var check := CheckType(db, destination, SetKind, now);
    if check.Err? {
      return Err(check.error);
    }
    var result, _ := SInter(db, keys, now);
    r := StoreResult(db, destination, result);
  }

  /** The reply of `SUnionStore` and the store it leaves, given the store before. */
  ghost predicate SUnionStoreOutcome(s: Store, destination: Key, keys: seq<Key>, now: Time, s': Store, r: Result<Reply>)
  {
        if !Conforms(Read(s, destination, now), SetKind) then r == Err(WrongType) && s' == Purge(s, destination, now)
    else
      var s1 := Purge(s, destination, now);
      match FirstMismatch(s1, keys, SetKind, now)
      case Some(j) => r == Err(WrongType) && s' == PurgeKeys(s1, KeySet(keys[..j + 1]), now)
      case None =>
        var m := Union(SetsOf(ReadAll(s1, keys, now)));
        r == Ok(Stored(SetVal(m))) && s' == Assign(PurgeKeys(s1, KeySet(keys), now), destination, SetVal(m))
  }

  /** SUNIONSTORE. */
  method SUnionStore(db: ExpiringHash, destination: Key, keys: seq<Key>, now: Time) returns (r: Result<Reply>)
    modifies db
    ensures SUnionStoreOutcome(old(db.State()), destination, keys, now, db.State(), r)
  {
    var check := CheckType(db, destination, SetKind, now);
    if check.Err? {
      return Err(check.error);
    }
    var result := SUnion(db, keys, now);
    r := StoreResult(db, destination, result);
  }

  /** The reply of `SDiffStore` and the store it leaves, given the store before. */
  ghost predicate SDiffStoreOutcome(s: Store, destination: Key, key1: Key, keys: seq<Key>, now: Time, s': Store, r: Result<Reply>)
  {
        if !Conforms(Read(s, destination, now), SetKind) then r == Err(WrongType) && s' == Purge(s, destination, now)
    else
      var s1 := Purge(s, destination, now); var all := [key1] + keys;
      match FirstMismatch(s1, all, SetKind, now)
      case Some(j) => r == Err(WrongType) && s' == PurgeKeys(s1, KeySet(all[..j + 1]), now)
      case None =>
        var m := Difference(SetAt(s1, key1, now), SetsOf(ReadAll(s1, keys, now)));
        r == Ok(Stored(SetVal(m))) && s' == Assign(PurgeKeys(s1, KeySet(all), now), destination, SetVal(m))
  }

  /** SDIFFSTORE. */
  method SDiffStore(db: ExpiringHash, destination: Key, key1: Key, keys: seq<Key>, now: Time) returns (r: Result<Reply>)
    modifies db
    ensures SDiffStoreOutcome(old(db.State()), destination, key1, keys, now, db.State(), r)
  {
    var check := CheckType(db, destination, SetKind, now);
    if check.Err? {
      return Err(check.error);
    }
    var result := SDiff(db, key1, keys, now);
    r := StoreResult(db, destination, result);
  }
}
