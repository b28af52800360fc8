// The list commands: a list is a Ruby Array of strings stored under a key.
// Every command first checks that the key is absent or holds a list.

module ListCommands {

  import opened Common
  import opened Ruby
  import opened ExpiringHashes
  import opened CommandHelper

  /** The list under a key that passed the type check; an absent key is the empty list. */
  function ListAt(s: Store, key: Key, now: Time): seq<string>
    requires Conforms(Read(s, key, now), ListKind)
  {
    match Read(s, key, now)
    case Some(ListVal(xs)) => xs
    case _ => []
  }

  // ---------------------------------------------------------------------
  // LTRIM

  /**
   * LTRIM's new list as written: unchanged for a negative start before the
   * first element, otherwise `a[start..stop]`, which is nil for a start past
   * the end — and nil is then stored under the key.
   */
  function TrimAsWritten(xs: seq<string>, start: int, stop: int): Option<seq<string>>
  {
    if start < 0 && |xs| < -start then Some(xs) else RangeSlice(xs, start, stop)
  }

  /** The `n` elements of `xs` from position `b` on. */
  function Piece(xs: seq<string>, b: nat, n: nat): seq<string>
    requires b + n <= |xs|
  {
    xs[b..b + n]
  }

  /** `r` is a run of consecutive elements of `xs`. */
  predicate IsSegment(r: seq<string>, xs: seq<string>)
  {
    exists b: nat :: b + |r| <= |xs| && r == Piece(xs, b, |r|)
  }

  /** LTRIM's new list with a start past the end giving the empty list. */
  function Trim(xs: seq<string>, start: int, stop: int): (r: seq<string>)
    ensures start < -|xs| ==> r == xs
    ensures start > |xs| ==> r == []
    ensures IsSegment(r, xs)
  {
    if start < -|xs| then
      assert Piece(xs, 0, |xs|) == xs;
      xs
    else
      match RangeSlice(xs, start, stop)
      case None =>
        assert Piece(xs, 0, 0) == [];
        []
      case Some(ys) =>
        var b := Normalize(start, |xs|);
        assert ys == Piece(xs, b, |ys|);
        ys
  }

  /** Inside the list, LTRIM keeps exactly the inclusive range. */
  lemma TrimInside(xs: seq<string>, start: nat, stop: nat)
    requires start <= stop < |xs|
    ensures Trim(xs, start, stop) == xs[start..stop + 1]
  {
    RangeSliceInside(xs, start, stop);
  }

  /** As written, LTRIM 2 3 on a one-element list stores nil; the corrected list is empty. */
  lemma TrimAsWrittenCounterexample()
    ensures TrimAsWritten(["a"], 2, 3) == None
    ensures Trim(["a"], 2, 3) == []
  {
  }

  // ---------------------------------------------------------------------
  // LREM

  /** `a.delete_at(a.index(x) || a.length)`: the first element equal to `x` goes, if any. */
  function DeleteFirst(xs: seq<string>, x: string): seq<string>
  {
    match IndexOf(xs, x)
    case None => xs
    case Some(i) => xs[..i] + xs[i + 1..]
  }

  /** The first `n` elements equal to `x` removed, the others kept in order. */
  function RemoveFirstN(xs: seq<string>, x: string, n: nat): seq<string>
  {
    if n == 0 || xs == [] then xs
    else if xs[0] == x then RemoveFirstN(xs[1..], x, n - 1)
    else [xs[0]] + RemoveFirstN(xs[1..], x, n)
  }

  lemma DeleteFirstCons(xs: seq<string>, x: string)
    requires xs != [] && xs[0] != x
    ensures DeleteFirst(xs, x) == [xs[0]] + DeleteFirst(xs[1..], x)
  {
    match IndexOf(xs[1..], x)
    case None =>
      assert xs == [xs[0]] + xs[1..];
    case Some(i) =>
      assert IndexOf(xs, x) == Some(i + 1);
      assert xs[..i + 1] + xs[i + 2..] == [xs[0]] + (xs[1..][..i] + xs[1..][i + 1..]);
  }

  lemma {:induction false} RemoveFirstNStep(xs: seq<string>, x: string, n: nat)
    ensures RemoveFirstN(xs, x, n + 1) == RemoveFirstN(DeleteFirst(xs, x), x, n)
  {
    if xs == [] {
    } else if xs[0] == x {
      assert IndexOf(xs, x) == Some(0);
      assert xs[..0] + xs[1..] == xs[1..];
    } else {
      var d := DeleteFirst(xs[1..], x);
      DeleteFirstCons(xs, x);
      RemoveFirstNStep(xs[1..], x, n);
      assert ([xs[0]] + d)[0] == xs[0];
      assert ([xs[0]] + d)[1..] == d;
    }
  }

  /** Removing the first `n` matches removes min(n, count) elements and keeps every other element in order. */
  lemma {:induction false} RemoveFirstNCount(xs: seq<string>, x: string, n: nat)
    ensures |RemoveFirstN(xs, x, n)| == |xs| - Min(n, Count(xs, x))
    ensures Count(RemoveFirstN(xs, x, n), x) == Count(xs, x) - Min(n, Count(xs, x))
    ensures Without(RemoveFirstN(xs, x, n), x) == Without(xs, x)
  {
    if n > 0 && xs != [] {
      RemoveFirstNCount(xs[1..], x, if xs[0] == x then n - 1 else n);
      if xs[0] != x {
        var rest := RemoveFirstN(xs[1..], x, n);
        assert ([xs[0]] + rest)[1..] == rest;
      }
    }
  }

  /** Removing at least as many matches as there are removes them all, like `delete`. */
  lemma {:induction false} RemoveFirstNAll(xs: seq<string>, x: string, n: nat)
    requires n >= Count(xs, x)
    ensures RemoveFirstN(xs, x, n) == Without(xs, x)
  {
    if xs != [] {
      if n == 0 {
        assert x !in xs;
        WithoutAbsent(xs, x);
      } else {
        RemoveFirstNAll(xs[1..], x, if xs[0] == x then n - 1 else n);
      }
    }
  }

  lemma {:induction false} WithoutAbsent(xs: seq<string>, x: string)
    requires x !in xs
    ensures Without(xs, x) == xs
  {
    if xs != [] {
      WithoutAbsent(xs[1..], x);
    }
  }

  /** `count.abs.times { array.delete_at(array.index(value) || array.length) }`. */
  method RemoveMatches(xs: seq<string>, x: string, n: nat) returns (ys: seq<string>)
    ensures ys == RemoveFirstN(xs, x, n)
  {
    ys := xs;
    var k := 0;
    while k < n
      invariant 0 <= k <= n
      invariant RemoveFirstN(ys, x, n - k) == RemoveFirstN(xs, x, n)
    {
      RemoveFirstNStep(ys, x, n - k - 1);
      var i := IndexOf(ys, x);
      if i.Some? {
        ys := ys[..i.value] + ys[i.value + 1..];
      }
      k := k + 1;
    }
  }

  /** LREM's new list: every match for count 0, the first |count| from the head or, for a negative count, from the tail. */
  function Removed(xs: seq<string>, count: int, x: string): seq<string>
  {
    if count == 0 then Without(xs, x)
    else if count > 0 then RemoveFirstN(xs, x, count)
    else Reverse(RemoveFirstN(Reverse(xs), x, -count))
  }

  lemma {:induction false} WithoutCount(xs: seq<string>, x: string)
    ensures Count(Without(xs, x), x) == 0
  {
  }

  /** How LREM's result relates to the list it started from, given how many matches were removed. */
  predicate RemovalOf(r: seq<string>, xs: seq<string>, x: string, removed: nat)
  {
    |r| == |xs| - removed && Count(r, x) == Count(xs, x) - removed && Without(r, x) == Without(xs, x)
  }

  /** LREM from the tail: the same count as from the head, and the same elements left. */
  lemma {:induction false} RemovedFromTail(xs: seq<string>, n: nat, x: string)
    ensures RemovalOf(Reverse(RemoveFirstN(Reverse(xs), x, n)), xs, x, Min(n, Count(xs, x)))
  {
    var q := RemoveFirstN(Reverse(xs), x, n);
    RemoveFirstNCount(Reverse(xs), x, n);
    CountReverse(xs, x);
    CountReverse(q, x);
    WithoutReverse(q, x);
    WithoutReverse(xs, x);
    ReverseReverse(Without(xs, x));
  }

  lemma {:induction false} RemovedFromHead(xs: seq<string>, count: int, x: string)
    requires count > 0
    ensures RemovalOf(Removed(xs, count, x), xs, x, Min(count, Count(xs, x)))
  {
    assert Removed(xs, count, x) == RemoveFirstN(xs, x, count);
    RemoveFirstNCount(xs, x, count);
  }

  lemma {:induction false} RemovedBackward(xs: seq<string>, count: int, x: string)
    requires count < 0
    ensures RemovalOf(Removed(xs, count, x), xs, x, Min(-count, Count(xs, x)))
  {
    var n: nat := -count;
    var r := Reverse(RemoveFirstN(Reverse(xs), x, n));
    assert Removed(xs, count, x) == r;
    RemovedFromTail(xs, n, x);
  }

  lemma {:induction false} RemovedEvery(xs: seq<string>, x: string)
    ensures RemovalOf(Removed(xs, 0, x), xs, x, Count(xs, x))
  {
    WithoutCount(xs, x);
    WithoutTwice(xs, x);
  }

  /**
   * LREM removes min(|count|, matches) elements (all of them for count 0)
   * and leaves the other elements in their order.
   */
  lemma {:induction false} RemovedCount(xs: seq<string>, count: int, x: string)
    ensures RemovalOf(Removed(xs, count, x), xs, x,
      if count == 0 then Count(xs, x) else Min(if count < 0 then -count else count, Count(xs, x)))
  {
    if count > 0 {
      RemovedFromHead(xs, count, x);
    } else if count < 0 {
      RemovedBackward(xs, count, x);
    } else {
      RemovedEvery(xs, x);
    }
  }

  lemma {:induction false} WithoutTwice(xs: seq<string>, x: string)
    ensures Without(Without(xs, x), x) == Without(xs, x)
  {
    WithoutAbsent(Without(xs, x), x);
  }

  /** Removing every match from the head or from the tail leaves the same list. */
  lemma RemovedFromEitherEnd(xs: seq<string>, n: nat, x: string)
    requires n >= Count(xs, x) && n > 0
    ensures Removed(xs, n, x) == Removed(xs, -(n as int), x) == Removed(xs, 0, x)
  {
    RemoveFirstNAll(xs, x, n);
    CountReverse(xs, x);
    RemoveFirstNAll(Reverse(xs), x, n);
    WithoutReverse(xs, x);
    ReverseReverse(Without(xs, x));
  }

  // ---------------------------------------------------------------------
  // LINSERT

  /** The token LINSERT is given: `:before`, `:after`, or anything else. */
  datatype Where = Before | After | Elsewhere

  /** `a.insert(i, v)`: `v` lands at position `i` and the elements from `i` on move one up. */
  function InsertAt(xs: seq<string>, i: nat, v: string): (r: seq<string>)
    requires i <= |xs|
    ensures |r| == |xs| + 1 && r[i] == v
    ensures r[..i] == xs[..i] && r[i + 1..] == xs[i..]
  {
    assert (xs[..i] + [v] + xs[i..])[i + 1..] == xs[i..];
    xs[..i] + [v] + xs[i..]
  }

  // ---------------------------------------------------------------------
  // Commands

  /** The reply of `LLen` and the store it leaves, given the store before. */
  ghost predicate LLenOutcome(s: Store, key: Key, now: Time, s': Store, r: Result<Reply>)
  {
    (s' == Purge(s, key, now)) &&
    (r == if Conforms(Read(s, key, now), ListKind) then Ok(Int(|ListAt(s, key, now)|)) else Err(WrongType))
  }

  /** LLEN: 0 for an absent key, otherwise the length. */
  method LLen(db: ExpiringHash, key: Key, now: Time) returns (r: Result<Reply>)
    modifies db
    ensures LLenOutcome(old(db.State()), key, now, db.State(), r)
  {
    var cur := CheckType(db, key, ListKind, now);
    if cur.Err? {
      return Err(cur.error);
    }
    r := Ok(Int(if cur.value.Some? then |cur.value.value.items| else 0));
  }

  /** The reply of `LRange` and the store it leaves, given the store before. */
  ghost predicate LRangeOutcome(s: Store, key: Key, start: int, stop: int, now: Time, s': Store, r: Result<Reply>)
  {
    (s' == Purge(s, key, now)) &&
    (var cur := Read(s, key, now);
      r == if !Conforms(cur, ListKind) then Err(WrongType)
           else Ok(Array(BulkAll(match RangeSlice(ListAt(s, key, now), start, stop) case None => [] case Some(ys) => ys))))
  }

  /** LRANGE: the inclusive slice, `[]` for an absent key or a start past the end. */
  method LRange(db: ExpiringHash, key: Key, start: int, stop: int, now: Time) returns (r: Result<Reply>)
    modifies db
    ensures LRangeOutcome(old(db.State()), key, start, stop, now, db.State(), r)
  {
    var cur := CheckType(db, key, ListKind, now);
    if cur.Err? {
      return Err(cur.error);
    }
    var xs := if cur.value.Some? then cur.value.value.items else [];
    r := Ok(Array(BulkAll(match RangeSlice(xs, start, stop) case None => [] case Some(ys) => ys)));
  }

  /** The reply of `LTrim` and the store it leaves, given the store before. */
  ghost predicate LTrimOutcome(s: Store, key: Key, start: int, stop: int, now: Time, s': Store, r: Result<Reply>)
  {
    var cur := Read(s, key, now);
    if !Conforms(cur, ListKind) then r == Err(WrongType) && s' == Purge(s, key, now)
    else if cur.None? then r == Ok(Nil) && s' == Purge(s, key, now)
    else if start < -|cur.value.items| then r == Ok(Array(BulkAll(cur.value.items))) && s' == s
    else r == Ok(Array(BulkAll(Trim(cur.value.items, start, stop)))) && s' == Assign(s, key, ListVal(Trim(cur.value.items, start, stop)))
  }

  /**
   * LTRIM: nil for an absent key; a negative start before the first element
   * leaves the list alone; otherwise the trimmed list is assigned, which
   * clears the key's expiry. The list kept is answered.
   */
  method LTrim(db: ExpiringHash, key: Key, start: int, stop: int, now: Time) returns (r: Result<Reply>)
    modifies db
    ensures LTrimOutcome(old(db.State()), key, start, stop, now, db.State(), r)
  {
    ghost var s0 := db.State();
    var cur := CheckType(db, key, ListKind, now);
    if cur.Err? {
      return Err(cur.error);
    }
    if cur.value.None? {
      return Ok(Nil);
    }
    PurgeLive(s0, key, now);
    var xs := cur.value.value.items;
    if start < 0 && |xs| < -start {
      return Ok(Array(BulkAll(xs)));
    }
    var ys := Trim(xs, start, stop);
    db.Put(key, ListVal(ys));
    r := Ok(Array(BulkAll(ys)));
  }

  /** The reply of `LIndex` and the store it leaves, given the store before. */
  ghost predicate LIndexOutcome(s: Store, key: Key, index: int, now: Time, s': Store, r: Result<Reply>)
  {
    (s' == Purge(s, key, now)) &&
    (var cur := Read(s, key, now);
      r == if !Conforms(cur, ListKind) then Err(WrongType)
           else Ok(match At(ListAt(s, key, now), index) case None => Nil case Some(x) => Bulk(x)))
  }

  /** LINDEX: the element at a possibly negative index, nil outside the list. */
  method LIndex(db: ExpiringHash, key: Key, index: int, now: Time) returns (r: Result<Reply>)
    modifies db
    ensures LIndexOutcome(old(db.State()), key, index, now, db.State(), r)
  {
    var cur := CheckType(db, key, ListKind, now);
    if cur.Err? {
      return Err(cur.error);
    }
    var xs := if cur.value.Some? then cur.value.value.items else [];
    r := Ok(match At(xs, index) case None => Nil case Some(x) => Bulk(x));
  }

  /** The reply of `LInsert` and the store it leaves, given the store before. */
  ghost predicate LInsertOutcome(s: Store, key: Key, where: Where, pivot: string, value: string, now: Time, s': Store, r: Result<Reply>)
  {
    var cur := Read(s, key, now);
    if !Conforms(cur, ListKind) then r == Err(WrongType) && s' == Purge(s, key, now)
    else if cur.None? then r == Ok(Nil) && s' == Purge(s, key, now)
    else
      var xs := cur.value.items;
      match (where, IndexOf(xs, pivot))
      case (Elsewhere, _) => r == Err(SyntaxError) && s' == s
      case (Before, None) => r == Err(RubyError("TypeError")) && s' == s
      case (After, None) => r == Err(RubyError("NoMethodError")) && s' == s
      case (Before, Some(i)) =>
        r == Ok(Array(BulkAll(InsertAt(xs, i, value)))) && s' == Mutate(s, key, ListVal(InsertAt(xs, i, value)))
      case (After, Some(i)) =>
        r == Ok(Array(BulkAll(InsertAt(xs, i + 1, value)))) && s' == Mutate(s, key, ListVal(InsertAt(xs, i + 1, value)))
  }

  /**
   * LINSERT: the value goes immediately before or after the first
   * occurrence of the pivot, in place; a missing pivot makes Ruby raise and
   * any other position token is a syntax error.
   */
  method LInsert(db: ExpiringHash, key: Key, where: Where, pivot: string, value: string, now: Time) returns (r: Result<Reply>)
    modifies db
    ensures LInsertOutcome(old(db.State()), key, where, pivot, value, now, db.State(), r)
  {
    ghost var s0 := db.State();
    var cur := CheckType(db, key, ListKind, now);
    if cur.Err? {
      return Err(cur.error);
    }
    if cur.value.None? {
      return Ok(Nil);
    }
    PurgeLive(s0, key, now);
    var xs := cur.value.value.items;
    var index := IndexOf(xs, pivot);
    if where == Elsewhere {
      return Err(SyntaxError);
    }
    if index.None? {
      return Err(if where == Before then RubyError("TypeError") else RubyError("NoMethodError"));
    }
    var ys := InsertAt(xs, if where == Before then index.value else index.value + 1, value);
    db.Update(key, ListVal(ys));
    r := Ok(Array(BulkAll(ys)));
  }

  /** The reply of `LSet` and the store it leaves, given the store before. */
  ghost predicate LSetOutcome(s: Store, key: Key, index: int, value: string, now: Time, s': Store, r: Result<Reply>)
  {
    var cur := Read(s, key, now);
    if !Conforms(cur, ListKind) then r == Err(WrongType) && s' == Purge(s, key, now)
    else if cur.None? then r == Ok(Nil) && s' == Purge(s, key, now)
    else
      var xs := cur.value.items;
      if index >= |xs| then r == Err(IndexOutOfRange) && s' == s
      else if index < -|xs| then r == Err(RubyError("IndexError")) && s' == s
      else
        var j := Normalize(index, |xs|);
        r == Ok(Bulk(value)) && s' == Mutate(s, key, ListVal(xs[j := value]))
  }

  /** LSET: nil for an absent key; an index past the end is an error; otherwise only that position changes. */
  method LSet(db: ExpiringHash, key: Key, index: int, value: string, now: Time) returns (r: Result<Reply>)
    modifies db
    ensures LSetOutcome(old(db.State()), key, index, value, now, db.State(), r)
  {
    ghost var s0 := db.State();
    var cur := CheckType(db, key, ListKind, now);
    if cur.Err? {
      return Err(cur.error);
    }
    if cur.value.None? {
      return Ok(Nil);
    }
    PurgeLive(s0, key, now);
    var xs := cur.value.value.items;
    if index >= |xs| {
      return Err(IndexOutOfRange);
    }
    if index < -|xs| {
      return Err(RubyError("IndexError"));
    }
    db.Update(key, ListVal(xs[Normalize(index, |xs|) := value]));
    r := Ok(Bulk(value));
  }

  /** The reply of `LRem` and the store it leaves, given the store before. */
  ghost predicate LRemOutcome(s: Store, key: Key, count: int, value: string, now: Time, s': Store, r: Result<Reply>)
  {
    var cur := Read(s, key, now);
    if !Conforms(cur, ListKind) then r == Err(WrongType) && s' == Purge(s, key, now)
    else if cur.None? then r == Ok(Nil) && s' == Purge(s, key, now)
    else
      var xs := cur.value.items;
      var ys := Removed(xs, count, value);
      var written := if count == 0 then Mutate(s, key, ListVal(ys)) else Assign(s, key, ListVal(ys));
      r == Ok(Int(|xs| - |ys|)) && s' == if ys == [] then Remove(written, key) else written
  }

  /**
   * LREM: nil for an absent key. Count 0 deletes the matches in place;
   * otherwise the shortened copy is assigned, which clears the expiry. A
   * list left empty is deleted. The number of elements removed is answered.
   */
  method LRem(db: ExpiringHash, key: Key, count: int, value: string, now: Time) returns (r: Result<Reply>)
    modifies db
    ensures LRemOutcome(old(db.State()), key, count, value, now, db.State(), r)
  {
    ghost var s0 := db.State();
    var cur := CheckType(db, key, ListKind, now);
    if cur.Err? {
      return Err(cur.error);
    }
    if cur.value.None? {
      return Ok(Nil);
    }
    PurgeLive(s0, key, now);
    var xs := cur.value.value.items;
    var ys: seq<string>;
    if count == 0 {
      ys := Without(xs, value);
      db.Update(key, ListVal(ys));
      MutateRead(s0, key, ListVal(ys), now, now);
    } else {
      var copy := if count > 0 then xs else Reverse(xs);
      copy := RemoveMatches(copy, value, if count > 0 then count else -count);
      ys := if count > 0 then copy else Reverse(copy);
      db.Put(key, ListVal(ys));
      AssignRead(s0, key, ListVal(ys), now, key);
    }
    ghost var written := db.State();
    PurgeLive(written, key, now);
    var _ := RemoveIfEmpty(db, key, now);
    r := Ok(Int(|xs| - |ys|));
  }

  /** The reply of `RPush` and the store it leaves, given the store before. */
  ghost predicate RPushOutcome(s: Store, key: Key, values: seq<string>, now: Time, s': Store, r: Result<Reply>)
  {
    var cur := Read(s, key, now);
    if !Conforms(cur, ListKind) then r == Err(WrongType) && s' == Purge(s, key, now)
    else if cur.None? then r == Ok(Int(|values|)) && s' == Assign(s, key, ListVal(values))
    else r == Ok(Int(|cur.value.items| + |values|)) && s' == Mutate(s, key, ListVal(cur.value.items + values))
  }

  /**
   * RPUSH: an absent key is first given a new empty list; each value is
   * then pushed onto the end in place. The new length is answered.
   */
  method RPush(db: ExpiringHash, key: Key, values: seq<string>, now: Time) returns (r: Result<Reply>)
    modifies db
    ensures RPushOutcome(old(db.State()), key, values, now, db.State(), r)
  {
    ghost var s0 := db.State();
    var cur := CheckType(db, key, ListKind, now);
    if cur.Err? {
      return Err(cur.error);
    }
    var xs: seq<string>;
    if cur.value.None? {
      db.Put(key, ListVal([]));
      AssignAbsorbsPurge(s0, key, ListVal([]), now);
      xs := [];
    } else {
      PurgeLive(s0, key, now);
      xs := cur.value.value.items;
    }
    ghost var base := db.State();
    MutateSame(base, key);
    assert xs + values[..0] == xs;
    var i := 0;
    while i < |values|
      invariant 0 <= i <= |values|
      invariant db.State() == Mutate(base, key, ListVal(xs + values[..i]))
    {
      assert xs + values[..i + 1] == xs + values[..i] + [values[i]];
      MutateTwice(base, key, ListVal(xs + values[..i]), ListVal(xs + values[..i + 1]));
      db.Update(key, ListVal(xs + values[..i + 1]));
      i := i + 1;
    }
    assert values[..i] == values;
    if cur.value.None? {
      assert xs + values == values;
      MutateAfterAssign(s0, key, ListVal([]), ListVal(values));
    }
    r := Ok(Int(|xs| + |values|));
  }

  /** One more value pushed to the head extends the reversed prefix. */
  lemma PushFrontStep(values: seq<string>, i: nat, xs: seq<string>)
    requires i < |values|
    ensures [values[i]] + (Reverse(values[..i]) + xs) == Reverse(values[..i + 1]) + xs
  {
    assert values[..i + 1] == values[..i] + [values[i]];
    ReverseAppend(values[..i], [values[i]]);
    assert Reverse([values[i]]) == [values[i]];
  }

  /** The reply of `LPush` and the store it leaves, given the store before. */
  ghost predicate LPushOutcome(s: Store, key: Key, values: seq<string>, now: Time, s': Store, r: Result<Reply>)
  {
    var cur := Read(s, key, now);
    if !Conforms(cur, ListKind) then r == Err(WrongType) && s' == Purge(s, key, now)
    else if cur.None? then r == Ok(Int(|values|)) && s' == Assign(s, key, ListVal(Reverse(values)))
    else r == Ok(Int(|cur.value.items| + |values|)) && s' == Mutate(s, key, ListVal(Reverse(values) + cur.value.items))
  }

  /** LPUSH: like RPUSH, but each value in turn goes to the head, so they end up reversed. */
  method LPush(db: ExpiringHash, key: Key, values: seq<string>, now: Time) returns (r: Result<Reply>)
    modifies db
    ensures LPushOutcome(old(db.State()), key, values, now, db.State(), r)
  {
    ghost var s0 := db.State();
    var cur := CheckType(db, key, ListKind, now);
    if cur.Err? {
      return Err(cur.error);
    }
    var xs: seq<string>;
    if cur.value.None? {
      db.Put(key, ListVal([]));
      AssignAbsorbsPurge(s0, key, ListVal([]), now);
      xs := [];
    } else {
      PurgeLive(s0, key, now);
      xs := cur.value.value.items;
    }
    ghost var base := db.State();
    MutateSame(base, key);
    assert Reverse(values[..0]) + xs == xs;
    var i := 0;
    while i < |values|
      invariant 0 <= i <= |values|
      invariant db.State() == Mutate(base, key, ListVal(Reverse(values[..i]) + xs))
    {
      var next := [values[i]] + (Reverse(values[..i]) + xs);
      PushFrontStep(values, i, xs);
      MutateTwice(base, key, ListVal(Reverse(values[..i]) + xs), ListVal(next));
      db.Update(key, ListVal(next));
      i := i + 1;
    }
    assert values[..i] == values;
    if cur.value.None? {
      assert Reverse(values) + [] == Reverse(values);
      MutateAfterAssign(s0, key, ListVal([]), ListVal(Reverse(values)));
    }
    r := Ok(Int(|xs| + |values|));
  }

  /** The reply of `RPushX` and the store it leaves, given the store before. */
  ghost predicate RPushXOutcome(s: Store, key: Key, values: seq<string>, now: Time, s': Store, r: Result<Reply>)
  {
    var cur := Read(s, key, now);
    if !Conforms(cur, ListKind) then r == Err(WrongType) && s' == Purge(s, key, now)
    else if cur.None? then r == Ok(Nil) && s' == Purge(s, key, now)
    else r == Ok(Int(|cur.value.items| + |values|)) && s' == Mutate(s, key, ListVal(cur.value.items + values))
  }

  /** RPUSHX: nil, creating nothing, for an absent key; otherwise RPUSH. */
  method RPushX(db: ExpiringHash, key: Key, values: seq<string>, now: Time) returns (r: Result<Reply>)
    modifies db
    ensures RPushXOutcome(old(db.State()), key, values, now, db.State(), r)
  {
    ghost var s0 := db.State();
    var cur := CheckType(db, key, ListKind, now);
    if cur.Err? {
      return Err(cur.error);
    }
    if cur.value.None? {
      return Ok(Nil);
    }
    PurgeLive(s0, key, now);
    r := RPush(db, key, values, now);
  }

  /** The reply of `LPushX` and the store it leaves, given the store before. */
  ghost predicate LPushXOutcome(s: Store, key: Key, values: seq<string>, now: Time, s': Store, r: Result<Reply>)
  {
    var cur := Read(s, key, now);
    if !Conforms(cur, ListKind) then r == Err(WrongType) && s' == Purge(s, key, now)
    else if cur.None? then r == Ok(Nil) && s' == Purge(s, key, now)
    else r == Ok(Int(|cur.value.items| + |values|)) && s' == Mutate(s, key, ListVal(Reverse(values) + cur.value.items))
  }

  /** LPUSHX: nil, creating nothing, for an absent key; otherwise LPUSH. */
  method LPushX(db: ExpiringHash, key: Key, values: seq<string>, now: Time) returns (r: Result<Reply>)
    modifies db
    ensures LPushXOutcome(old(db.State()), key, values, now, db.State(), r)
  {
    ghost var s0 := db.State();
    var cur := CheckType(db, key, ListKind, now);
    if cur.Err? {
      return Err(cur.error);
    }
    if cur.value.None? {
      return Ok(Nil);
    }
    PurgeLive(s0, key, now);
    r := LPush(db, key, values, now);
  }

  /** What RPOP leaves in the store and answers, for a key that passed the type check. */
  function PopLast(s: Store, key: Key, now: Time): (Store, Option<string>)
    requires Conforms(Read(s, key, now), ListKind)
  {
    var xs := ListAt(s, key, now);
    if xs == [] then (Purge(s, key, now), None)
    else (Mutate(s, key, ListVal(xs[..|xs| - 1])), Some(xs[|xs| - 1]))
  }

  /** RPOP and then RPUSH of the popped element restores the list. */
  lemma PopLastThenPush(s: Store, key: Key, now: Time)
    requires Read(s, key, now).Some? && Read(s, key, now).value.ListVal? && Read(s, key, now).value.items != []
    ensures var (s1, x) := PopLast(s, key, now);
      x.Some? && Read(s1, key, now).Some? && Mutate(s1, key, ListVal(ListAt(s1, key, now) + [x.value])) == s
  {
    var xs := ListAt(s, key, now);
    assert xs[..|xs| - 1] + [xs[|xs| - 1]] == xs;
    MutateTwice(s, key, ListVal(xs[..|xs| - 1]), ListVal(xs));
    MutateSame(s, key);
  }

  /** The reply of `RPop` and the store it leaves, given the store before. */
  ghost predicate RPopOutcome(s: Store, key: Key, now: Time, s': Store, r: Result<Reply>)
  {
    var cur := Read(s, key, now);
    if !Conforms(cur, ListKind) then r == Err(WrongType) && s' == Purge(s, key, now)
    else
      var (s1, x) := PopLast(s, key, now);
      s' == s1 && r == Ok(if x.Some? then Bulk(x.value) else Nil)
  }

  /** RPOP: nil for an absent or empty list; otherwise the last element goes, in place. */
  method RPop(db: ExpiringHash, key: Key, now: Time) returns (r: Result<Reply>)
    modifies db
    ensures RPopOutcome(old(db.State()), key, now, db.State(), r)
  {
    ghost var s0 := db.State();
    var cur := CheckType(db, key, ListKind, now);
    if cur.Err? {
      return Err(cur.error);
    }
    if cur.value.None? || cur.value.value.items == [] {
      return Ok(Nil);
    }
    PurgeLive(s0, key, now);
    var xs := cur.value.value.items;
    db.Update(key, ListVal(xs[..|xs| - 1]));
    r := Ok(Bulk(xs[|xs| - 1]));
  }

  /** The reply of `LPop` and the store it leaves, given the store before. */
  ghost predicate LPopOutcome(s: Store, key: Key, now: Time, s': Store, r: Result<Reply>)
  {
    var cur := Read(s, key, now);
    if !Conforms(cur, ListKind) then r == Err(WrongType) && s' == Purge(s, key, now)
    else if cur.None? || cur.value.items == [] then r == Ok(Nil) && s' == Purge(s, key, now)
    else r == Ok(Bulk(cur.value.items[0])) && s' == Mutate(s, key, ListVal(cur.value.items[1..]))
  }

  /** LPOP: nil for an absent or empty list; otherwise the first element goes, in place. */
  method LPop(db: ExpiringHash, key: Key, now: Time) returns (r: Result<Reply>)
    modifies db
    ensures LPopOutcome(old(db.State()), key, now, db.State(), r)
  {
    ghost var s0 := db.State();
    var cur := CheckType(db, key, ListKind, now);
    if cur.Err? {
      return Err(cur.error);
    }
    if cur.value.None? || cur.value.value.items == [] {
      return Ok(Nil);
    }
    PurgeLive(s0, key, now);
    var xs := cur.value.value.items;
    db.Update(key, ListVal(xs[1..]));
    r := Ok(Bulk(xs[0]));
  }

  /** The store after LPUSH of `values` onto a key that passed the type check. */
  function PushedFront(s: Store, key: Key, values: seq<string>, now: Time): Store
    requires Conforms(Read(s, key, now), ListKind)
  {
    if Read(s, key, now).None? then Assign(s, key, ListVal(Reverse(values)))
    else Mutate(s, key, ListVal(Reverse(values) + ListAt(s, key, now)))
  }

  /** The reply of `RPopLPush` and the store it leaves, given the store before. */
  ghost predicate RPopLPushOutcome(s: Store, source: Key, destination: Key, now: Time, s': Store, r: Result<Reply>)
  {
    var cur := Read(s, source, now);
    if !Conforms(cur, ListKind) then r == Err(WrongType) && s' == Purge(s, source, now)
    else
      var (s1, x) := PopLast(s, source, now);
      var pushed := if x.Some? then x.value else "";
      if !Conforms(Read(s1, destination, now), ListKind) then r == Err(WrongType) && s' == Purge(s1, destination, now)
      else r == Ok(if x.Some? then Bulk(x.value) else Nil) && s' == PushedFront(s1, destination, [pushed], now)
  }

  /**
   * RPOPLPUSH: RPOP on the source, then LPUSH of the element onto the
   * destination — of "" when there was none, since nil.to_s is "". A
   * destination of the wrong kind fails only after the pop has happened.
   */
  method RPopLPush(db: ExpiringHash, source: Key, destination: Key, now: Time) returns (r: Result<Reply>)
    modifies db
    ensures RPopLPushOutcome(old(db.State()), source, destination, now, db.State(), r)
  {
    var check := CheckType(db, source, ListKind, now);
    if check.Err? {
      return Err(check.error);
    }
    ghost var s0 := old(db.State());
    PopLastPurged(s0, source, now);
    var popped := RPop(db, source, now);
    ghost var s1 := db.State();
    assert s1 == PopLast(s0, source, now).0;
    var elem := if popped.value.Bulk? then popped.value.s else "";
    var pushed := LPush(db, destination, [elem], now);
    if pushed.Err? {
      return Err(pushed.error);
    }
    assert Reverse([elem]) == [elem];
    assert db.State() == PushedFront(s1, destination, [elem], now);
    r := popped;
  }

  /** The type check before RPOP changes nothing RPOP sees. */
  lemma PopLastPurged(s: Store, key: Key, now: Time)
    requires Conforms(Read(s, key, now), ListKind)
    ensures Read(Purge(s, key, now), key, now) == Read(s, key, now)
    ensures PopLast(Purge(s, key, now), key, now) == PopLast(s, key, now)
  {
    PurgeInvisible(s, key, now, key);
    if Read(s, key, now).Some? {
      PurgeLive(s, key, now);
    } else {
      assert Purge(Purge(s, key, now), key, now) == Purge(s, key, now);
    }
  }
}
