// The sorted-set commands over FakeRedis::ZSet values (member => score).

module SortedSetCommands {

  import opened Common
  import opened Ruby
  import opened Ordering
  import opened ExpiringHashes
  import opened CommandHelper
  import ZSets

  /** The score map under a key that passed the type check; an absent key is the empty map. */
  function ZSetAt(s: Store, key: Key, now: Time): map<string, Score>
    requires Conforms(Read(s, key, now), ZSetKind)
  {
    match Read(s, key, now)
    case Some(ZSetVal(z)) => z
    case _ => map[]
  }

  /**
   * The strings a listing answers: the members alone, or each member
   * followed by its score as Float#to_s prints it.
   */
  function Listing(z: map<string, Score>, ms: seq<string>, withScores: bool): (r: seq<string>)
    requires forall i :: 0 <= i < |ms| ==> ms[i] in z
    ensures !withScores ==> r == ms
    ensures withScores ==> |r| == 2 * |ms|
    ensures withScores ==> forall i {:trigger ms[i]} :: 0 <= i < |ms| ==> r[2 * i] == ms[i] && r[2 * i + 1] == ZSets.ScoreToString(z[ms[i]])
  {
    if !withScores then ms
    else if ms == [] then []
    else [ms[0], ZSets.ScoreToString(z[ms[0]])] + Listing(z, ms[1..], true)
  }

  /** The members in descending score order (the reverse of the ascending listing). */
  function Descending(z: map<string, Score>): (r: seq<string>)
    ensures |r| == |z|
    ensures forall i :: 0 <= i < |r| ==> r[i] in z
    ensures forall k :: k in z ==> k in r
    ensures forall i, j :: 0 <= i < j < |r| ==> ScoreLe(z[r[j]], z[r[i]])
  {
    var up := OrderMembers(z);
    DescendingFacts(z, up);
    Reverse(up)
  }

  lemma DescendingFacts(z: map<string, Score>, up: seq<string>)
    requires up == OrderMembers(z)
    ensures forall k :: k in z ==> k in Reverse(up)
    ensures forall i, j :: 0 <= i < j < |up| ==> ScoreLe(z[Reverse(up)[j]], z[Reverse(up)[i]])
  {
    ReverseHolds(up, z.Keys);
    ReverseDescends(z, up);
  }

  lemma ReverseHolds(up: seq<string>, ks: set<string>)
    requires forall k :: k in ks ==> k in up
    ensures forall k :: k in ks ==> k in Reverse(up)
  {
    var r := Reverse(up);
    forall k | k in ks ensures k in r {
      var i :| 0 <= i < |up| && up[i] == k;
      assert r[|up| - 1 - i] == k;
    }
  }

  lemma ReverseDescends(z: map<string, Score>, up: seq<string>)
    requires up == OrderMembers(z)
    ensures forall i, j :: 0 <= i < j < |up| ==> ScoreLe(z[Reverse(up)[j]], z[Reverse(up)[i]])
  {
    var r := Reverse(up);
    forall i, j | 0 <= i < j < |r| ensures ScoreLe(z[r[j]], z[r[i]]) {
      assert r[j] == up[|up| - 1 - j] && r[i] == up[|up| - 1 - i];
      OrderMembersByScore(z, |up| - 1 - j, |up| - 1 - i);
    }
  }

  // ---------------------------------------------------------------------
  // ZADD

  /** The two shapes ZADD accepts: a flat score/member list or a list of [score, member] pairs. */
  datatype ScoreArgs = FlatScores(items: seq<string>) | ScorePairs(pairs: seq<seq<string>>)

  /** The argument errors ZADD raises before it touches the key (an empty pair list is the empty flat list). */
  function ZAddArgsError(a: ScoreArgs): (r: Option<Error>)
    ensures r.None? <==> match a
      case FlatScores(xs) => |xs| >= 2 && |xs| % 2 == 0
      case ScorePairs(ps) => ps != [] && forall i :: 0 <= i < |ps| ==> |ps[i]| == 2
  {
    match a
    case FlatScores(xs) =>
      if |xs| < 2 then Some(WrongArgCount("zadd"))
      else if |xs| % 2 == 1 then Some(SyntaxError)
      else None
    case ScorePairs(ps) =>
      if ps == [] then Some(WrongArgCount("zadd"))
      else if exists i :: 0 <= i < |ps| && |ps[i]| != 2 then Some(SyntaxError)
      else None
  }

  /** The (score, member) assignments ZADD makes, in order. */
  function ScoreAssignments(a: ScoreArgs): (r: seq<(string, string)>)
    requires ZAddArgsError(a).None?
    ensures a.FlatScores? ==> |r| == |a.items| / 2 && forall i :: 0 <= i < |r| ==> r[i] == (a.items[2 * i], a.items[2 * i + 1])
    ensures a.ScorePairs? ==> |r| == |a.pairs| && forall i :: 0 <= i < |r| ==> r[i] == (a.pairs[i][0], a.pairs[i][1])
    ensures |r| > 0
  {
    match a
    case FlatScores(xs) => seq(|xs| / 2, i requires 0 <= i < |xs| / 2 => (xs[2 * i], xs[2 * i + 1]))
    case ScorePairs(ps) => seq(|ps|, i requires 0 <= i < |ps| => (ps[i][0], ps[i][1]))
  }

  /** The form that answers a boolean: exactly one flat score and member. */
  predicate SinglePair(a: ScoreArgs)
  {
    a.FlatScores? && |a.items| == 2
  }

  /**
   * The assignments made one after the other with `ZSet#[]=`; a score
   * that does not parse stops them, leaving the earlier ones in place.
   */
  function AssignScores(z: map<string, Score>, kvs: seq<(string, string)>): (r: (map<string, Score>, Option<Error>))
    ensures r.1.None? <==> forall i :: 0 <= i < |kvs| ==> ZSets.ParseScore(kvs[i].0).Ok?
    decreases |kvs|
  {
    if kvs == [] then (z, None)
    else match ZSets.Assign(z, kvs[0].1, kvs[0].0)
      case Err(e) => (z, Some(e))
      case Ok(z1) =>
        var rest := AssignScores(z1, kvs[1..]);
        assert rest.1.None? ==> forall i :: 1 <= i < |kvs| ==> ZSets.ParseScore(kvs[i].0).Ok? by {
          if rest.1.None? {
            forall i | 1 <= i < |kvs| ensures ZSets.ParseScore(kvs[i].0).Ok? {
              assert kvs[1..][i - 1] == kvs[i];
            }
          }
        }
        rest
  }

  /** When every score parses, each given member ends up with the score of its last assignment and no member goes. */
  lemma AssignScoresFinal(z: map<string, Score>, kvs: seq<(string, string)>)
    requires (AssignScores(z, kvs)).1.None?
    ensures forall m :: m in z ==> m in AssignScores(z, kvs).0
    ensures forall i :: 0 <= i < |kvs| ==> kvs[i].1 in AssignScores(z, kvs).0
    ensures forall i :: 0 <= i < |kvs| && (forall j :: i < j < |kvs| ==> kvs[j].1 != kvs[i].1) ==>
      AssignScores(z, kvs).0[kvs[i].1] == ZSets.ParseScore(kvs[i].0).value
    ensures forall m :: m in AssignScores(z, kvs).0 && (forall i :: 0 <= i < |kvs| ==> kvs[i].1 != m) ==>
      m in z && AssignScores(z, kvs).0[m] == z[m]
  {
    AssignScoresMembers(z, kvs);
    AssignScoresLast(z, kvs);
  }

  /** The members after the assignments: the earlier ones and the given ones, the others keeping their scores. */
  lemma {:induction false} AssignScoresMembers(z: map<string, Score>, kvs: seq<(string, string)>)
    requires (AssignScores(z, kvs)).1.None?
    ensures forall m :: m in z ==> m in AssignScores(z, kvs).0
    ensures forall i :: 0 <= i < |kvs| ==> kvs[i].1 in AssignScores(z, kvs).0
    ensures forall m :: m in AssignScores(z, kvs).0 && (forall i :: 0 <= i < |kvs| ==> kvs[i].1 != m) ==>
      m in z && AssignScores(z, kvs).0[m] == z[m]
    decreases |kvs|
  {
    if kvs != [] {
      var z1 := ZSets.Assign(z, kvs[0].1, kvs[0].0).value;
      var tail := kvs[1..];
      AssignScoresMembers(z1, tail);
      var r := AssignScores(z, kvs).0;
      assert r == AssignScores(z1, tail).0;
      forall i | 0 <= i < |kvs| ensures kvs[i].1 in r {
        if i > 0 { assert tail[i - 1] == kvs[i]; }
      }
      forall m | m in r && (forall i :: 0 <= i < |kvs| ==> kvs[i].1 != m)
        ensures m in z && r[m] == z[m]
      {
        assert forall i :: 0 <= i < |tail| ==> tail[i].1 != m by {
          forall i | 0 <= i < |tail| ensures tail[i].1 != m {
            assert tail[i] == kvs[i + 1];
          }
        }
      }
    }
  }

  /** A given member not given again later ends up with the score of that assignment. */
  lemma AssignScoresLast(z: map<string, Score>, kvs: seq<(string, string)>)
    requires (AssignScores(z, kvs)).1.None?
    ensures forall i :: 0 <= i < |kvs| && (forall j :: i < j < |kvs| ==> kvs[j].1 != kvs[i].1) ==>
      kvs[i].1 in AssignScores(z, kvs).0 && AssignScores(z, kvs).0[kvs[i].1] == ZSets.ParseScore(kvs[i].0).value
  {
    forall i | 0 <= i < |kvs| && (forall j :: i < j < |kvs| ==> kvs[j].1 != kvs[i].1)
      ensures kvs[i].1 in AssignScores(z, kvs).0 && AssignScores(z, kvs).0[kvs[i].1] == ZSets.ParseScore(kvs[i].0).value
    {
      AssignScoresAt(z, kvs, i);
    }
  }

  /** The assignment at `i`, when no later one names the same member, is the member's final score. */
  lemma {:induction false} AssignScoresAt(z: map<string, Score>, kvs: seq<(string, string)>, i: nat)
    requires (AssignScores(z, kvs)).1.None?
    requires i < |kvs| && forall j :: i < j < |kvs| ==> kvs[j].1 != kvs[i].1
    ensures kvs[i].1 in AssignScores(z, kvs).0 && AssignScores(z, kvs).0[kvs[i].1] == ZSets.ParseScore(kvs[i].0).value
    decreases |kvs|
  {
    var z1 := ZSets.Assign(z, kvs[0].1, kvs[0].0).value;
    var tail := kvs[1..];
    assert AssignScores(z, kvs).0 == AssignScores(z1, tail).0;
    if i > 0 {
      assert tail[i - 1] == kvs[i];
      forall j | i - 1 < j < |tail| ensures tail[j].1 != tail[i - 1].1 {
        assert tail[j] == kvs[j + 1];
      }
      AssignScoresAt(z1, tail, i - 1);
    } else {
      forall j | 0 <= j < |tail| ensures tail[j].1 != kvs[0].1 {
        assert tail[j] == kvs[j + 1];
      }
      AssignScoresMembers(z1, tail);
    }
  }

  /** How many of the given members (repeats counted) had no score before the assignments. */
  function NewCount(z: map<string, Score>, kvs: seq<(string, string)>): (n: nat)
    ensures n <= |kvs|
    ensures n == 0 <==> forall i :: 0 <= i < |kvs| ==> kvs[i].1 in z
  {
    if kvs == [] then 0
    else
      var rest := NewCount(z, kvs[1..]);
      assert forall i :: 1 <= i < |kvs| ==> kvs[i] == kvs[1..][i - 1];
      (if kvs[0].1 in z then 0 else 1) + rest
  }

  // ---------------------------------------------------------------------
  // ZREM

  /**
   * Deleting the given members one after the other, counting the
   * deletions that found their member.
   */
  function RemoveMembers(z: map<string, Score>, vs: seq<string>): (map<string, Score>, nat)
    decreases |vs|
  {
    if vs == [] then (z, 0)
    else if vs[0] in z then
      var rest := RemoveMembers(z - {vs[0]}, vs[1..]);
      (rest.0, rest.1 + 1)
    else RemoveMembers(z, vs[1..])
  }

  lemma KeySetHead(vs: seq<string>)
    requires vs != []
    ensures KeySet(vs) == {vs[0]} + KeySet(vs[1..])
  {
    assert vs == [vs[0]] + vs[1..];
    assert forall x :: x in vs <==> x == vs[0] || x in vs[1..];
  }

  /** Removing a present member first leaves the rest to remove from a smaller set. */
  lemma RemovePresent(z: map<string, Score>, v: string, rest: set<string>)
    ensures (z - {v}) - rest == z - ({v} + rest)
  {
  }

  /** Removing a present member first makes the common part one smaller. */
  lemma CommonWithPresent(z: map<string, Score>, v: string, rest: set<string>)
    requires v in z
    ensures |z.Keys * ({v} + rest)| == |(z - {v}).Keys * rest| + 1
  {
    var c := (z - {v}).Keys * rest;
    assert z.Keys * ({v} + rest) == {v} + c;
    assert v !in c;
  }

  lemma RemoveAbsent(z: map<string, Score>, v: string, rest: set<string>)
    requires v !in z
    ensures z - rest == z - ({v} + rest)
  {
  }

  lemma CommonWithAbsent(z: map<string, Score>, v: string, rest: set<string>)
    requires v !in z
    ensures z.Keys * ({v} + rest) == z.Keys * rest
  {
  }

  /** ZREM leaves exactly the members not named. */
  lemma {:induction false} RemoveMembersLeaves(z: map<string, Score>, vs: seq<string>)
    ensures RemoveMembers(z, vs).0 == z - KeySet(vs)
    decreases |vs|
  {
    if vs == [] {
      assert KeySet(vs) == {};
    } else {
      var v, tail := vs[0], vs[1..];
      KeySetHead(vs);
      if v in z {
        assert RemoveMembers(z, vs).0 == RemoveMembers(z - {v}, tail).0;
        RemoveMembersLeaves(z - {v}, tail);
        RemovePresent(z, v, KeySet(tail));
      } else {
        assert RemoveMembers(z, vs).0 == RemoveMembers(z, tail).0;
        RemoveMembersLeaves(z, tail);
        RemoveAbsent(z, v, KeySet(tail));
      }
    }
  }

  /** ZREM answers how many of the named members were there. */
  lemma {:induction false} RemoveMembersCount(z: map<string, Score>, vs: seq<string>)
    ensures RemoveMembers(z, vs).1 == |z.Keys * KeySet(vs)|
    decreases |vs|
  {
    if vs == [] {
      assert KeySet(vs) == {};
    } else {
      var v := vs[0];
      KeySetHead(vs);
      if v in z {
        RemoveMembersCount(z - {v}, vs[1..]);
        CommonWithPresent(z, v, KeySet(vs[1..]));
      } else {
        RemoveMembersCount(z, vs[1..]);
        CommonWithAbsent(z, v, KeySet(vs[1..]));
      }
    }
  }

  // ---------------------------------------------------------------------
  // Ranks

  /** ZRANK's answer: the position in ascending (score, member) order, nil for a non-member. */
  lemma RankMeaning(z: map<string, Score>, m: string)
    ensures IndexOf(OrderMembers(z), m).Some? <==> m in z
    ensures IndexOf(OrderMembers(z), m).Some? ==>
      var r := IndexOf(OrderMembers(z), m).value;
      OrderMembers(z)[r] == m &&
      (forall i :: 0 <= i < r ==> ScoreLe(z[OrderMembers(z)[i]], z[m])) &&
      (forall i :: r < i < |z| ==> ScoreLe(z[m], z[OrderMembers(z)[i]]))
  {
    var o := OrderMembers(z);
    if m in z {
      var r := IndexOf(o, m).value;
      forall i | 0 <= i < r ensures ScoreLe(z[o[i]], z[m]) {
        OrderMembersByScore(z, i, r);
      }
      forall i | r < i < |z| ensures ScoreLe(z[m], z[o[i]]) {
        OrderMembersByScore(z, r, i);
      }
    }
  }

  /** ZREVRANK's answer: the position in descending order. */
  lemma RevRankMeaning(z: map<string, Score>, m: string)
    ensures IndexOf(Descending(z), m).Some? <==> m in z
    ensures IndexOf(Descending(z), m).Some? ==>
      var r := IndexOf(Descending(z), m).value;
      Descending(z)[r] == m &&
      (forall i :: 0 <= i < r ==> ScoreLe(z[m], z[Descending(z)[i]])) &&
      (forall i :: r < i < |z| ==> ScoreLe(z[Descending(z)[i]], z[m]))
  {
  }

  // ---------------------------------------------------------------------
  // Commands

  /** The store after ZADD (or ZINCRBY) leaves `z` under a key that passed the type check. */
  function WithZSet(s: Store, key: Key, now: Time, z: map<string, Score>): Store
    requires Conforms(Read(s, key, now), ZSetKind)
  {
    if Read(s, key, now).None? then Assign(s, key, ZSetVal(z)) else Mutate(s, key, ZSetVal(z))
  }

  /** The reply of `ZAdd` and the store it leaves, given the store before. */
  ghost predicate ZAddOutcome(s: Store, key: Key, args: ScoreArgs, now: Time, s': Store, r: Result<Reply>)
  {
        if ZAddArgsError(args).Some? then r == Err(ZAddArgsError(args).value) && s' == s
    else if !Conforms(Read(s, key, now), ZSetKind) then r == Err(WrongType) && s' == Purge(s, key, now)
    else
      var kvs := ScoreAssignments(args);
      var z0 := ZSetAt(s, key, now);
      var done := AssignScores(z0, kvs);
      s' == WithZSet(s, key, now, done.0) &&
      r == if done.1.Some? then Err(done.1.value)
           else Ok(if SinglePair(args) then Bool(kvs[0].1 !in z0) else Int(NewCount(z0, kvs)))
  }

  /**
   * ZADD: the argument errors come first; after the type check an absent
   * key gets an empty sorted set, and the assignments are made in place.
   * A score that does not parse stops them with an error. The single pair
   * answers whether its member is new, the other forms how many given
   * members had no score.
   */
  method ZAdd(db: ExpiringHash, key: Key, args: ScoreArgs, now: Time) returns (r: Result<Reply>)
    modifies db
    ensures ZAddOutcome(old(db.State()), key, args, now, db.State(), r)
  {
    var bad := ZAddArgsError(args);
    if bad.Some? {
      return Err(bad.value);
    }
    ghost var s0 := db.State();
    var cur := CheckType(db, key, ZSetKind, now);
    if cur.Err? {
      return Err(cur.error);
    }
    var z0: map<string, Score> := if cur.value.Some? then cur.value.value.scores else map[];
    if cur.value.None? {
      db.Put(key, ZSetVal(map[]));
      AssignAbsorbsPurge(s0, key, ZSetVal(map[]), now);
    } else {
      PurgeLive(s0, key, now);
    }
    var kvs := ScoreAssignments(args);
    var answer := if SinglePair(args) then Bool(kvs[0].1 !in z0) else Int(NewCount(z0, kvs));
    var err := ApplyScores(db, key, z0, kvs);
    if cur.value.None? {
      MutateAfterAssign(s0, key, ZSetVal(map[]), ZSetVal(AssignScores(z0, kvs).0));
    }
    if err.Some? {
      return Err(err.value);
    }
    r := Ok(answer);
  }

  /** ZADD's loop over the pairs: each score is parsed and assigned in place, stopping at the first that does not parse. */
  method ApplyScores(db: ExpiringHash, key: Key, z0: map<string, Score>, kvs: seq<(string, string)>) returns (err: Option<Error>)
    requires key in db.State().data && db.State().data[key] == ZSetVal(z0)
    modifies db
    ensures db.State() == Mutate(old(db.State()), key, ZSetVal(AssignScores(z0, kvs).0))
    ensures err == AssignScores(z0, kvs).1
  {
    ghost var base := db.State();
    MutateSame(base, key);
    var z := z0;
    var i := 0;
    while i < |kvs|
      invariant 0 <= i <= |kvs|
      invariant AssignScores(z, kvs[i..]) == AssignScores(z0, kvs)
      invariant db.State() == Mutate(base, key, ZSetVal(z))
    {
      assert kvs[i..][1..] == kvs[i + 1..];
      var next := ZSets.Assign(z, kvs[i].1, kvs[i].0);
      if next.Err? {
        return Some(next.error);
      }
      MutateTwice(base, key, ZSetVal(z), ZSetVal(next.value));
      z := next.value;
      db.Update(key, ZSetVal(z));
      i := i + 1;
    }
    err := None;
  }

  /** The reply of `ZRem` and the store it leaves, given the store before. */
  ghost predicate ZRemOutcome(s: Store, key: Key, values: seq<string>, now: Time, s': Store, r: Result<Reply>)
  {
        if !Conforms(Read(s, key, now), ZSetKind) then r == Err(WrongType) && s' == Purge(s, key, now)
    else if Read(s, key, now).None? then r == Ok(Int(0)) && s' == Purge(s, key, now)
    else
      var done := RemoveMembers(ZSetAt(s, key, now), values);
      r == Ok(Int(done.1)) &&
      s' == if done.0 == map[] then Remove(s, key) else Mutate(s, key, ZSetVal(done.0))
  }

  /** ZREM: 0 for an absent key; otherwise the named members go, in place, and a set left empty is deleted. */
  method ZRem(db: ExpiringHash, key: Key, values: seq<string>, now: Time) returns (r: Result<Reply>)
    modifies db
    ensures ZRemOutcome(old(db.State()), key, values, now, db.State(), r)
  {
    ghost var s0 := db.State();
    var cur := CheckType(db, key, ZSetKind, now);
    if cur.Err? {
      return Err(cur.error);
    }
    if cur.value.None? {
      return Ok(Int(0));
    }
    PurgeLive(s0, key, now);
    MutateSame(s0, key);
    var z0 := cur.value.value.scores;
    var z := z0;
    var count := 0;
    var i := 0;
    while i < |values|
      invariant 0 <= i <= |values|
      invariant (RemoveMembers(z, values[i..]).0, RemoveMembers(z, values[i..]).1 + count) == RemoveMembers(z0, values)
      invariant db.State() == Mutate(s0, key, ZSetVal(z))
    {
      assert values[i..][1..] == values[i + 1..];
      if values[i] in z {
        MutateTwice(s0, key, ZSetVal(z), ZSetVal(z - {values[i]}));
        z := z - {values[i]};
        db.Update(key, ZSetVal(z));
        count := count + 1;
      }
      i := i + 1;
    }
    ghost var s1 := db.State();
    MutateRead(s0, key, ZSetVal(z), now, now);
    MutateRemove(s0, key, ZSetVal(z));
    var _ := RemoveIfEmpty(db, key, now);
    PurgeLive(s1, key, now);
    r := Ok(Int(count));
  }

  /** The reply of `ZCard` and the store it leaves, given the store before. */
  ghost predicate ZCardOutcome(s: Store, key: Key, now: Time, s': Store, r: Result<Reply>)
  {
    (s' == Purge(s, key, now)) &&
    (r == if Conforms(Read(s, key, now), ZSetKind) then Ok(Int(|ZSetAt(s, key, now)|)) else Err(WrongType))
  }

  /** ZCARD: the number of members, 0 for an absent key. */
  method ZCard(db: ExpiringHash, key: Key, now: Time) returns (r: Result<Reply>)
    modifies db
    ensures ZCardOutcome(old(db.State()), key, now, db.State(), r)
  {
    var cur := CheckType(db, key, ZSetKind, now);
    if cur.Err? {
      return Err(cur.error);
    }
    r := Ok(Int(if cur.value.Some? then |cur.value.value.scores| else 0));
  }

  /** The reply of `ZScore` and the store it leaves, given the store before. */
  ghost predicate ZScoreOutcome(s: Store, key: Key, member: string, now: Time, s': Store, r: Result<Reply>)
  {
    (s' == Purge(s, key, now)) &&
    (      r == if !Conforms(Read(s, key, now), ZSetKind) then Err(WrongType)
           else if member in ZSetAt(s, key, now) then Ok(Bulk(ZSets.ScoreToString(ZSetAt(s, key, now)[member])))
           else Ok(Nil))
  }

  /** ZSCORE: the member's score as Float#to_s prints it, nil for a non-member. */
  method ZScore(db: ExpiringHash, key: Key, member: string, now: Time) returns (r: Result<Reply>)
    modifies db
    ensures ZScoreOutcome(old(db.State()), key, member, now, db.State(), r)
  {
    var cur := CheckType(db, key, ZSetKind, now);
    if cur.Err? {
      return Err(cur.error);
    }
    var z := if cur.value.Some? then cur.value.value.scores else map[];
    r := Ok(if member in z then Bulk(ZSets.ScoreToString(z[member])) else Nil);
  }

  /** The reply of `ZCount` and the store it leaves, given the store before. */
  ghost predicate ZCountOutcome(s: Store, key: Key, min: string, max: string, now: Time, s': Store, r: Result<Reply>)
  {
    (s' == Purge(s, key, now)) &&
    (      r == if !Conforms(Read(s, key, now), ZSetKind) then Err(WrongType)
           else if Read(s, key, now).None? then Ok(Int(0))
           else match ZSets.SelectByScore(ZSetAt(s, key, now), min, max)
             case Err(e) => Err(e)
             case Ok(sel) => Ok(Int(|sel|)))
  }

  /** ZCOUNT: how many members score between the two bounds, 0 for an absent key. */
  method ZCount(db: ExpiringHash, key: Key, min: string, max: string, now: Time) returns (r: Result<Reply>)
    modifies db
    ensures ZCountOutcome(old(db.State()), key, min, max, now, db.State(), r)
  {
    var cur := CheckType(db, key, ZSetKind, now);
    if cur.Err? {
      return Err(cur.error);
    }
    if cur.value.None? {
      return Ok(Int(0));
    }
    var sel := ZSets.SelectByScore(cur.value.value.scores, min, max);
    if sel.Err? {
      return Err(sel.error);
    }
    r := Ok(Int(|sel.value|));
  }

  /** The score map ZINCRBY increments: an absent member first gets the score 0. */
  function WithMember(z: map<string, Score>, member: string): (r: map<string, Score>)
    ensures member in r && r.Keys == z.Keys + {member}
    ensures member in z ==> r == z
    ensures member !in z ==> r[member] == Fin(0)
    ensures forall m :: m in z ==> r[m] == z[m]
  {
    ZSets.ParseIntegerScore(0);
    if member in z then z else ZSets.Assign(z, member, IntToString(0)).value
  }

  /** The reply of `ZIncrBy` and the store it leaves, given the store before. */
  ghost predicate ZIncrByOutcome(s: Store, key: Key, num: string, member: string, now: Time, s': Store, r: Result<Reply>)
  {
        if !Conforms(Read(s, key, now), ZSetKind) then r == Err(WrongType) && s' == Purge(s, key, now)
    else
      var z := WithMember(ZSetAt(s, key, now), member);
      match ZSets.Increment(z, member, num)
      case Err(e) => r == Err(e) && s' == WithZSet(s, key, now, z)
      case Ok(z1) => r == Ok(Bulk(ZSets.ScoreToString(z1[member]))) && s' == WithZSet(s, key, now, z1)
  }

  /**
   * ZINCRBY: an absent key gets an empty sorted set and an absent member the
   * score 0, both kept even if the increment then fails; the answer is the
   * new score as a string.
   */
  method ZIncrBy(db: ExpiringHash, key: Key, num: string, member: string, now: Time) returns (r: Result<Reply>)
    modifies db
    ensures ZIncrByOutcome(old(db.State()), key, num, member, now, db.State(), r)
  {
    ghost var s0 := db.State();
    var cur := CheckType(db, key, ZSetKind, now);
    if cur.Err? {
      return Err(cur.error);
    }
    if cur.value.None? {
      db.Put(key, ZSetVal(map[]));
      AssignAbsorbsPurge(s0, key, ZSetVal(map[]), now);
    } else {
      PurgeLive(s0, key, now);
    }
    ghost var base := db.State();
    var z := WithMember(if cur.value.Some? then cur.value.value.scores else map[], member);
    db.Update(key, ZSetVal(z));
    if cur.value.None? {
      MutateAfterAssign(s0, key, ZSetVal(map[]), ZSetVal(z));
    } else {
      MutateTwice(s0, key, ZSetVal(cur.value.value.scores), ZSetVal(z));
      MutateSame(s0, key);
    }
    var next := ZSets.Increment(z, member, num);
    if next.Err? {
      return Err(next.error);
    }
    db.Update(key, ZSetVal(next.value));
    MutateTwice(base, key, ZSetVal(z), ZSetVal(next.value));
    if cur.value.None? {
      MutateAfterAssign(s0, key, ZSetVal(map[]), ZSetVal(next.value));
    } else {
      MutateTwice(s0, key, ZSetVal(z), ZSetVal(next.value));
    }
    r := Ok(Bulk(ZSets.ScoreToString(next.value[member])));
  }

  /** ZINCRBY with a whole number on a member without a score leaves it with that number. */
  lemma ZIncrByFromNothing(z: map<string, Score>, member: string, n: int)
    requires member !in z
    ensures ZSets.Increment(WithMember(z, member), member, IntToString(n)) == Ok(z[member := Fin(n)])
  {
    ZSets.ParseIntegerScore(n);
    var z0 := WithMember(z, member);
    assert z0[member := Fin(n)] == z[member := Fin(n)];
  }

  /** The reply of `ZRank` and the store it leaves, given the store before. */
  ghost predicate ZRankOutcome(s: Store, key: Key, member: string, now: Time, s': Store, r: Result<Reply>)
  {
    (s' == Purge(s, key, now)) &&
    (      r == if !Conforms(Read(s, key, now), ZSetKind) then Err(WrongType)
           else match IndexOf(OrderMembers(ZSetAt(s, key, now)), member)
             case None => Ok(Nil)
             case Some(i) => Ok(Int(i)))
  }

  /** ZRANK: the 0-based position in ascending order; nil for an absent key or a non-member. */
  method ZRank(db: ExpiringHash, key: Key, member: string, now: Time) returns (r: Result<Reply>)
    modifies db
    ensures ZRankOutcome(old(db.State()), key, member, now, db.State(), r)
  {
    var cur := CheckType(db, key, ZSetKind, now);
    if cur.Err? {
      return Err(cur.error);
    }
    var z := if cur.value.Some? then cur.value.value.scores else map[];
    var i := IndexOf(OrderMembers(z), member);
    r := Ok(if i.Some? then Int(i.value) else Nil);
  }

  /** The reply of `ZRevRank` and the store it leaves, given the store before. */
  ghost predicate ZRevRankOutcome(s: Store, key: Key, member: string, now: Time, s': Store, r: Result<Reply>)
  {
    (s' == Purge(s, key, now)) &&
    (      r == if !Conforms(Read(s, key, now), ZSetKind) then Err(WrongType)
           else match IndexOf(Descending(ZSetAt(s, key, now)), member)
             case None => Ok(Nil)
             case Some(i) => Ok(Int(i)))
  }

  /** ZREVRANK: the 0-based position in descending order; nil for an absent key or a non-member. */
  method ZRevRank(db: ExpiringHash, key: Key, member: string, now: Time) returns (r: Result<Reply>)
    modifies db
    ensures ZRevRankOutcome(old(db.State()), key, member, now, db.State(), r)
  {
    var cur := CheckType(db, key, ZSetKind, now);
    if cur.Err? {
      return Err(cur.error);
    }
    var z := if cur.value.Some? then cur.value.value.scores else map[];
    var i := IndexOf(Descending(z), member);
    r := Ok(if i.Some? then Int(i.value) else Nil);
  }

  /**
   * The answer for the slice `ms[start..stop]` of an ordered listing:
   * Ruby gives nil for a start outside it and then fails to flatten nil.
   */
  function SliceReply(z: map<string, Score>, ms: seq<string>, start: int, stop: int, withScores: bool): (r: Result<Reply>)
    requires forall i :: 0 <= i < |ms| ==> ms[i] in z
    ensures r.Err? <==> start > |ms| || start < -|ms|
    ensures r.Ok? ==> r.value == Array(BulkAll(Listing(z, RangeSlice(ms, start, stop).value, withScores)))
  {
    match RangeSlice(ms, start, stop)
    case None => Err(RubyError("NoMethodError"))
    case Some(part) => Ok(Array(BulkAll(Listing(z, part, withScores))))
  }

  /** The reply of `ZRange` and the store it leaves, given the store before. */
  ghost predicate ZRangeOutcome(s: Store, key: Key, start: int, stop: int, withScores: bool, now: Time, s': Store, r: Result<Reply>)
  {
    (s' == Purge(s, key, now)) &&
    (      r == if !Conforms(Read(s, key, now), ZSetKind) then Err(WrongType)
           else if Read(s, key, now).None? then Ok(Array([]))
           else SliceReply(ZSetAt(s, key, now), OrderMembers(ZSetAt(s, key, now)), start, stop, withScores))
  }

  /** ZRANGE: members in ascending (score, member) order sliced by rank, `[]` for an absent key. */
  method ZRange(db: ExpiringHash, key: Key, start: int, stop: int, withScores: bool, now: Time) returns (r: Result<Reply>)
    modifies db
    ensures ZRangeOutcome(old(db.State()), key, start, stop, withScores, now, db.State(), r)
  {
    var cur := CheckType(db, key, ZSetKind, now);
    if cur.Err? {
      return Err(cur.error);
    }
    if cur.value.None? {
      return Ok(Array([]));
    }
    var z := cur.value.value.scores;
    r := SliceReply(z, OrderMembers(z), start, stop, withScores);
  }

  /** The reply of `ZRevRange` and the store it leaves, given the store before. */
  ghost predicate ZRevRangeOutcome(s: Store, key: Key, start: int, stop: int, withScores: bool, now: Time, s': Store, r: Result<Reply>)
  {
    (s' == Purge(s, key, now)) &&
    (      r == if !Conforms(Read(s, key, now), ZSetKind) then Err(WrongType)
           else if Read(s, key, now).None? then Ok(Array([]))
           else SliceReply(ZSetAt(s, key, now), Descending(ZSetAt(s, key, now)), start, stop, withScores))
  }

  /** ZREVRANGE: the same over the descending order. */
  method ZRevRange(db: ExpiringHash, key: Key, start: int, stop: int, withScores: bool, now: Time) returns (r: Result<Reply>)
    modifies db
    ensures ZRevRangeOutcome(old(db.State()), key, start, stop, withScores, now, db.State(), r)
  {
    var cur := CheckType(db, key, ZSetKind, now);
    if cur.Err? {
      return Err(cur.error);
    }
    if cur.value.None? {
      return Ok(Array([]));
    }
    var z := cur.value.value.scores;
    r := SliceReply(z, Descending(z), start, stop, withScores);
  }

  /** The LIMIT window `vals[offset, count]`; without a limit every value. */
  function Window(ms: seq<string>, limit: Option<(int, int)>): (r: Option<seq<string>>)
    ensures limit.None? ==> r == Some(ms)
    ensures limit.Some? ==> r == StartLength(ms, limit.value.0, limit.value.1)
  {
    if limit.None? then Some(ms) else StartLength(ms, limit.value.0, limit.value.1)
  }

  /** The answer of ZRANGEBYSCORE and ZREVRANGEBYSCORE once the members in range are ordered. */
  function ByScoreReply(sel: map<string, Score>, ordered: seq<string>, withScores: bool, limit: Option<(int, int)>): (r: Result<Reply>)
    requires forall i :: 0 <= i < |ordered| ==> ordered[i] in sel
    ensures limit.None? ==> r == Ok(Array(BulkAll(Listing(sel, ordered, withScores))))
  {
    match Window(ordered, limit)
    case None => Err(RubyError("NoMethodError"))
    case Some(part) =>
      assert forall i :: 0 <= i < |part| ==> part[i] in sel;
      Ok(Array(BulkAll(Listing(sel, part, withScores))))
  }

  /** The reply of `ZRangeByScore` and the store it leaves, given the store before. */
  ghost predicate ZRangeByScoreOutcome(s: Store, key: Key, min: string, max: string, withScores: bool, limit: Option<(int, int)>, now: Time, s': Store, r: Result<Reply>)
  {
    (s' == Purge(s, key, now)) &&
    (      r == if !Conforms(Read(s, key, now), ZSetKind) then Err(WrongType)
           else if Read(s, key, now).None? then Ok(Array([]))
           else match ZSets.SelectByScore(ZSetAt(s, key, now), min, max)
             case Err(e) => Err(e)
             case Ok(sel) => ByScoreReply(sel, OrderMembers(sel), withScores, limit))
  }

  /** ZRANGEBYSCORE: the members scoring between the bounds, ascending, then the LIMIT window. */
  method ZRangeByScore(db: ExpiringHash, key: Key, min: string, max: string, withScores: bool, limit: Option<(int, int)>, now: Time) returns (r: Result<Reply>)
    modifies db
    ensures ZRangeByScoreOutcome(old(db.State()), key, min, max, withScores, limit, now, db.State(), r)
  {
    var cur := CheckType(db, key, ZSetKind, now);
    if cur.Err? {
      return Err(cur.error);
    }
    if cur.value.None? {
      return Ok(Array([]));
    }
    var sel := ZSets.SelectByScore(cur.value.value.scores, min, max);
    if sel.Err? {
      return Err(sel.error);
    }
    r := ByScoreReply(sel.value, OrderMembers(sel.value), withScores, limit);
  }

  /** The reply of `ZRevRangeByScore` and the store it leaves, given the store before. */
  ghost predicate ZRevRangeByScoreOutcome(s: Store, key: Key, max: string, min: string, withScores: bool, limit: Option<(int, int)>, now: Time, s': Store, r: Result<Reply>)
  {
    (s' == Purge(s, key, now)) &&
    (      r == if !Conforms(Read(s, key, now), ZSetKind) then Err(WrongType)
           else if Read(s, key, now).None? then Ok(Array([]))
           else match ZSets.SelectByScore(ZSetAt(s, key, now), min, max)
             case Err(e) => Err(e)
             case Ok(sel) => ByScoreReply(sel, Descending(sel), withScores, limit))
  }

  /** ZREVRANGEBYSCORE: the bounds come max first; the members in range descending, then the LIMIT window. */
  method ZRevRangeByScore(db: ExpiringHash, key: Key, max: string, min: string, withScores: bool, limit: Option<(int, int)>, now: Time) returns (r: Result<Reply>)
    modifies db
    ensures ZRevRangeByScoreOutcome(old(db.State()), key, max, min, withScores, limit, now, db.State(), r)
  {
    var cur := CheckType(db, key, ZSetKind, now);
    if cur.Err? {
      return Err(cur.error);
    }
    if cur.value.None? {
      return Ok(Array([]));
    }
    var sel := ZSets.SelectByScore(cur.value.value.scores, min, max);
    if sel.Err? {
      return Err(sel.error);
    }
    r := ByScoreReply(sel.value, Descending(sel.value), withScores, limit);
  }

  /**
   * Without a limit ZRANGEBYSCORE lists exactly the members scoring between
   * the bounds, each once, in ascending order.
   */
  lemma ByScoreListing(z: map<string, Score>, min: string, max: string)
    requires ZSets.SelectByScore(z, min, max).Ok?
    ensures var sel := ZSets.SelectByScore(z, min, max).value;
      var ms := OrderMembers(sel);
      (forall m :: m in ms <==> m in z && ZSets.InRange(z[m], ZSets.ParseScore(min).value, ZSets.ParseScore(max).value)) &&
      (forall i, j :: 0 <= i < j < |ms| ==> ScoreLe(z[ms[i]], z[ms[j]]) && ms[i] != ms[j])
  {
    var sel := ZSets.SelectByScore(z, min, max).value;
    var ms := OrderMembers(sel);
    OrderMembersDistinct(sel);
    forall i, j | 0 <= i < j < |ms| ensures ScoreLe(z[ms[i]], z[ms[j]]) {
      OrderMembersByScore(sel, i, j);
    }
  }

  /** The reply of `ZRemRangeByScore` and the store it leaves, given the store before. */
  ghost predicate ZRemRangeByScoreOutcome(s: Store, key: Key, min: string, max: string, now: Time, s': Store, r: Result<Reply>)
  {
        if !Conforms(Read(s, key, now), ZSetKind) then r == Err(WrongType) && s' == Purge(s, key, now)
    else if Read(s, key, now).None? then r == Ok(Int(0)) && s' == Purge(s, key, now)
    else match ZSets.SelectByScore(ZSetAt(s, key, now), min, max)
      case Err(e) => r == Err(e) && s' == s
      case Ok(sel) => r == Ok(Int(|sel|)) && s' == Mutate(s, key, ZSetVal(ZSetAt(s, key, now) - sel.Keys))
  }

  /** ZREMRANGEBYSCORE: the members in range go, in place, and their number is answered; an emptied set stays. */
  method ZRemRangeByScore(db: ExpiringHash, key: Key, min: string, max: string, now: Time) returns (r: Result<Reply>)
    modifies db
    ensures ZRemRangeByScoreOutcome(old(db.State()), key, min, max, now, db.State(), r)
  {
    ghost var s0 := db.State();
    var cur := CheckType(db, key, ZSetKind, now);
    if cur.Err? {
      return Err(cur.error);
    }
    if cur.value.None? {
      return Ok(Int(0));
    }
    PurgeLive(s0, key, now);
    var z := cur.value.value.scores;
    var sel := ZSets.SelectByScore(z, min, max);
    if sel.Err? {
      return Err(sel.error);
    }
    db.Update(key, ZSetVal(z - sel.value.Keys));
    r := Ok(Int(|sel.value|));
  }

  /** After ZREMRANGEBYSCORE exactly the members outside the range remain, with their scores. */
  lemma RemRangeByScoreLeaves(z: map<string, Score>, min: string, max: string)
    requires ZSets.SelectByScore(z, min, max).Ok?
    ensures var rest := z - ZSets.SelectByScore(z, min, max).value.Keys;
      (forall m :: m in rest <==> m in z && !ZSets.InRange(z[m], ZSets.ParseScore(min).value, ZSets.ParseScore(max).value)) &&
      (forall m :: m in rest ==> rest[m] == z[m])
  {
  }

  /**
   * The order `sort_by { |k, v| v }` lists a stored collection in. A list or
   * a set yields bare strings, so every weight is nil and the elements keep
   * their own order; a hash or a sorted set yields pairs and is ordered by
   * value.
   */
  function RankOrder(v: Value): (ms: seq<string>)
    requires !v.StrVal?
    ensures v.ListVal? ==> ms == v.items
    ensures v.SetVal? ==> |ms| == |v.members| && forall x :: x in ms <==> x in v.members
    ensures v.HashVal? ==> |ms| == |v.fields| && forall x :: x in ms <==> x in v.fields
    ensures v.ZSetVal? ==> ms == OrderMembers(v.scores)
  {
    match v
    case ListVal(xs) => xs
    case SetVal(m) => SortedStrings(m)
    case HashVal(h) => OrderFields(h)
    case ZSetVal(z) => OrderMembers(z)
  }

  /** `gone.each { |elem, _| data[key].delete(elem) }` on the stored collection. */
  function DeleteEach(v: Value, gone: seq<string>): (w: Value)
    requires !v.StrVal?
    ensures KindOf(w) == KindOf(v)
    ensures v.ListVal? ==> w.items == WithoutEach(v.items, gone)
    ensures v.SetVal? ==> forall x :: x in w.members <==> x in v.members && x !in gone
    ensures v.HashVal? ==> forall f :: f in w.fields <==> f in v.fields && f !in gone
    ensures v.HashVal? ==> forall f :: f in w.fields ==> w.fields[f] == v.fields[f]
    ensures v.ZSetVal? ==> forall m :: m in w.scores <==> m in v.scores && m !in gone
    ensures v.ZSetVal? ==> forall m :: m in w.scores ==> w.scores[m] == v.scores[m]
  {
    match v
    case ListVal(xs) => ListVal(WithoutEach(xs, gone))
    case SetVal(m) => SetVal(m - KeySet(gone))
    case HashVal(h) => HashVal(h - KeySet(gone))
    case ZSetVal(z) => ZSetVal(z - KeySet(gone))
  }

  /** The reply of `ZRemRangeByRank` and the store it leaves, given the store before. */
  ghost predicate ZRemRangeByRankOutcome(s: Store, key: Key, start: int, stop: int, now: Time, s': Store, r: Result<Reply>)
  {
    var v := Read(s, key, now);
    if v.None? || v.value.StrVal? then r == Err(RubyError("NoMethodError")) && s' == Purge(s, key, now)
    else
      var ms := RankOrder(v.value);
      var from := if start > |ms| then |ms| else start;
      match RangeSlice(ms, from, stop)
      case None => r == Err(RubyError("NoMethodError")) && s' == s
      case Some(gone) => r == Ok(Int(|gone|)) && s' == Mutate(s, key, DeleteEach(v.value, gone))
  }

  /**
   * ZREMRANGEBYRANK: no type check, so whatever collection the key holds is
   * listed by `sort_by` and edited in place; nil and a string have no
   * `sort_by`. A start beyond the end is moved to the end; a start before
   * the first element gives a nil slice, which cannot be iterated. The
   * elements in the slice go, and the answer is the size of the slice.
   */
  method ZRemRangeByRank(db: ExpiringHash, key: Key, start: int, stop: int, now: Time) returns (r: Result<Reply>)
    modifies db
    ensures ZRemRangeByRankOutcome(old(db.State()), key, start, stop, now, db.State(), r)
  {
    ghost var s0 := db.State();
    var v := db.Get(key, now);
    if v.None? || v.value.StrVal? {
      return Err(RubyError("NoMethodError"));
    }
    PurgeLive(s0, key, now);
    var ms := RankOrder(v.value);
    var from := if start > |ms| then |ms| else start;
    var gone := RangeSlice(ms, from, stop);
    if gone.None? {
      return Err(RubyError("NoMethodError"));
    }
    db.Update(key, DeleteEach(v.value, gone.value));
    r := Ok(Int(|gone.value|));
  }

  /** The members ZREMRANGEBYRANK removes are distinct, so its answer is how many members went. */
  lemma RemRangeByRankCount(z: map<string, Score>, from: int, stop: int)
    requires RangeSlice(OrderMembers(z), from, stop).Some?
    ensures var gone := RangeSlice(OrderMembers(z), from, stop).value;
      |z| - |z - KeySet(gone)| == |gone|
  {
    var gone := RangeSlice(OrderMembers(z), from, stop).value;
    SliceOfOrder(z, from, stop);
    DistinctCard(gone);
    RemoveCard(z, KeySet(gone));
  }

  lemma SliceOfOrder(z: map<string, Score>, from: int, stop: int)
    requires RangeSlice(OrderMembers(z), from, stop).Some?
    ensures var gone := RangeSlice(OrderMembers(z), from, stop).value;
      (forall i, j :: 0 <= i < j < |gone| ==> gone[i] != gone[j]) && KeySet(gone) <= z.Keys
  {
    OrderMembersDistinct(z);
    SliceDistinct(OrderMembers(z), z.Keys, from, stop);
  }

  /** A slice of a sequence without repeats drawn from `ks` has no repeats and is drawn from `ks`. */
  lemma SliceDistinct(ms: seq<string>, ks: set<string>, from: int, stop: int)
    requires forall i, j :: 0 <= i < j < |ms| ==> ms[i] != ms[j]
    requires forall i :: 0 <= i < |ms| ==> ms[i] in ks
    requires RangeSlice(ms, from, stop).Some?
    ensures var gone := RangeSlice(ms, from, stop).value;
      (forall i, j :: 0 <= i < j < |gone| ==> gone[i] != gone[j]) && KeySet(gone) <= ks
  {
    var gone := RangeSlice(ms, from, stop).value;
    var b := Normalize(from, |ms|);
    forall i, j | 0 <= i < j < |gone| ensures gone[i] != gone[j] {
      assert gone[i] == ms[b + i] && gone[j] == ms[b + j];
    }
    forall x | x in KeySet(gone) ensures x in ks {
      var i :| 0 <= i < |gone| && gone[i] == x;
      assert gone[i] == ms[b + i];
    }
  }

  /** Taking a set of present keys out of a map shrinks it by the size of that set. */
  lemma RemoveCard(z: map<string, Score>, ks: set<string>)
    requires ks <= z.Keys
    ensures |z - ks| == |z| - |ks|
  {
    assert (z - ks).Keys == z.Keys - ks;
  }

  /** A sequence without repeats has as many distinct elements as positions. */
  lemma {:induction false} DistinctCard(xs: seq<string>)
    requires forall i, j :: 0 <= i < j < |xs| ==> xs[i] != xs[j]
    ensures |KeySet(xs)| == |xs|
  {
    if xs != [] {
      var tail := xs[1..];
      KeySetHead(xs);
      assert forall i, j :: 0 <= i < j < |tail| ==> tail[i] != tail[j] by {
        forall i, j | 0 <= i < j < |tail| ensures tail[i] != tail[j] {
          assert tail[i] == xs[i + 1] && tail[j] == xs[j + 1];
        }
      }
      DistinctCard(tail);
      assert xs[0] !in KeySet(tail);
    } else {
      assert KeySet(xs) == {};
    }
  }
}
