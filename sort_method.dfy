// SORT: project the elements of a list, set or sorted set through the BY
// and GET patterns, order them by weight, cut the LIMIT window and
// answer it or push it onto a list.

module SortMethod {

  import opened Common
  import opened Ruby
  import opened Ordering
  import opened ExpiringHashes
  import KeyCommands
  import StringCommands
  import HashCommands
  import ListCommands

  // ---------------------------------------------------------------------
  // Which keys can be sorted

  /**
   * The check as written: the key's type name must be "list", "set" or
   * "zset". TYPE never reports "zset" (a sorted set is a Hash subclass),
   * so a sorted set is refused.
   */
  predicate SortableAsWritten(v: Option<Value>)
  {
    var t := KeyCommands.TypeName(v);
    t == "list" || t == "set" || t == "zset"
  }

  /** The check as intended: a list, a set or a sorted set. */
  predicate Sortable(v: Option<Value>)
  {
    v.Some? && (v.value.ListVal? || v.value.SetVal? || v.value.ZSetVal?)
  }

  /** The two checks differ exactly on sorted sets. */
  lemma SortableAsWrittenRefusesSortedSets(v: Option<Value>)
    ensures v.Some? && v.value.ZSetVal? ==> !SortableAsWritten(v) && Sortable(v)
    ensures !(v.Some? && v.value.ZSetVal?) ==> SortableAsWritten(v) == Sortable(v)
  {
  }

  /** The elements SORT projects: the list in order, the set or the sorted set's members. */
  function Elements(v: Value): (r: seq<string>)
    ensures v.ListVal? ==> r == v.items
    ensures v.SetVal? ==> forall x :: x in r <==> x in v.members
    ensures v.ZSetVal? ==> forall x :: x in r <==> x in v.scores
  {
    match v
    case ListVal(xs) => xs
    case SetVal(m) => SortedStrings(m)
    case ZSetVal(z) => OrderMembers(z)
    case _ => []
  }

  // ---------------------------------------------------------------------
  // lookup_from_pattern

  /** String#sub('*', element): the first star is replaced; a pattern without one is kept. */
  function SubStar(pattern: string, element: string): (r: string)
    ensures '*' !in pattern ==> r == pattern
    ensures '*' in pattern ==>
      exists i :: 0 <= i < |pattern| && pattern[i] == '*' && '*' !in pattern[..i] && r == pattern[..i] + element + pattern[i + 1..]
  {
    match IndexOf(pattern, '*')
    case None => pattern
    case Some(i) => pattern[..i] + element + pattern[i + 1..]
  }

  /** The pieces of `s` between the occurrences of "->", empty pieces included. */
  function SplitArrowAll(s: string): (r: seq<string>)
    ensures |r| >= 1
    decreases |s|
  {
    match FirstOccurrence(s, "->", 0)
    case None => [s]
    case Some(i) => [s[..i]] + SplitArrowAll(s[i + 2..])
  }

  /** The pieces joined back with "->". */
  function JoinArrow(parts: seq<string>): string
    requires |parts| >= 1
  {
    if |parts| == 1 then parts[0] else parts[0] + "->" + JoinArrow(parts[1..])
  }

  /** Splitting and joining again gives back the text. */
  lemma {:induction false} SplitArrowJoin(s: string)
    ensures JoinArrow(SplitArrowAll(s)) == s
    decreases |s|
  {
    match FirstOccurrence(s, "->", 0)
    case None =>
    case Some(i) =>
      var rest := s[i + 2..];
      var parts := SplitArrowAll(s);
      assert parts == [s[..i]] + SplitArrowAll(rest);
      assert parts[1..] == SplitArrowAll(rest);
      SplitArrowJoin(rest);
      assert JoinArrow(parts) == s[..i] + "->" + rest;
      assert s[i..i + 2] == "->";
      assert s == s[..i] + s[i..i + 2] + rest;
  }

  /** The text holds no "->". */
  ghost predicate NoArrow(p: string)
  {
    forall j :: 0 <= j <= |p| ==> !OccursAt(p, "->", j)
  }

  /** The text before the first "->" holds none. */
  lemma HeadNoArrow(s: string, i: nat)
    requires FirstOccurrence(s, "->", 0) == Some(i)
    ensures NoArrow(s[..i])
  {
    var head := s[..i];
    forall j | 0 <= j <= |head| ensures !OccursAt(head, "->", j) {
      if j + 2 <= |head| {
        assert !OccursAt(s, "->", j);
        assert s[j..j + 2] == head[j..j + 2];
      }
    }
  }

  /** No piece contains the separator. */
  lemma {:induction false} SplitArrowPieces(s: string)
    ensures forall k :: 0 <= k < |SplitArrowAll(s)| ==> NoArrow(SplitArrowAll(s)[k])
    decreases |s|
  {
    match FirstOccurrence(s, "->", 0)
    case None =>
    case Some(i) =>
      SplitArrowPieces(s[i + 2..]);
      HeadNoArrow(s, i);
      var r := SplitArrowAll(s);
      assert r == [s[..i]] + SplitArrowAll(s[i + 2..]);
      forall k | 0 <= k < |r| ensures NoArrow(r[k]) {
        if k > 0 { assert r[k] == SplitArrowAll(s[i + 2..])[k - 1]; }
      }
  }

  /** Drop the empty strings at the end, as String#split does. */
  function DropTrailingEmpty(parts: seq<string>): (r: seq<string>)
    ensures |r| <= |parts| && r == parts[..|r|]
    ensures r == [] || r[|r| - 1] != ""
    ensures forall i :: |r| <= i < |parts| ==> parts[i] == ""
  {
    if parts == [] then []
    else if parts[|parts| - 1] == "" then DropTrailingEmpty(parts[..|parts| - 1])
    else parts
  }

  /** String#split("->"). */
  function SplitArrow(s: string): seq<string>
  {
    DropTrailingEmpty(SplitArrowAll(s))
  }

  /** What GET answers for a key, as an optional string. */
  function GetValue(s: Store, key: Key, now: Time): (r: Result<Option<string>>)
    ensures r.Err? <==> !Conforms(Read(s, key, now), StringKind)
  {
    match Read(s, key, now)
    case None => Ok(None)
    case Some(v) => if v.StrVal? then Ok(Some(v.text)) else Err(WrongType)
  }

  /** What HGET answers for a key and field, as an optional string. */
  function HGetValue(s: Store, key: Key, field: string, now: Time): (r: Result<Option<string>>)
    ensures r.Err? <==> !Conforms(Read(s, key, now), HashKind)
  {
    match Read(s, key, now)
    case None => Ok(None)
    case Some(v) => if v.HashVal? then Ok(HashCommands.Lookup(v.fields, field)) else Err(WrongType)
  }

  /**
   * `lookup_from_pattern`: the element replaces the first star; a key with
   * "->" in it names a hash and a field (before the first and after the
   * last separator), anything else a string key.
   */
  function LookupFrom(s: Store, pattern: string, element: string, now: Time): Result<Option<string>>
  {
    var key := SubStar(pattern, element);
    var parts := SplitArrow(key);
    if |parts| > 1 then HGetValue(s, parts[0], parts[|parts| - 1], now) else GetValue(s, key, now)
  }

  // ---------------------------------------------------------------------
  // project

  /** One projected value: a single lookup or the list of lookups for several GET patterns. */
  datatype Projection = One(v: Option<string>) | Several(vs: seq<Option<string>>)

  /** An element's weight and value. */
  datatype Projected = Projected(weight: Option<string>, value: Projection)

  /** The GET lookups for one element, "#" standing for the element itself; the first failing lookup stops them. */
  function GetAll(s: Store, patterns: seq<string>, element: string, now: Time): (r: Result<seq<Option<string>>>)
    ensures r.Ok? ==> |r.value| == |patterns|
    ensures r.Ok? ==> forall i :: 0 <= i < |patterns| ==>
      if patterns[i] == "#" then r.value[i] == Some(element) else LookupFrom(s, patterns[i], element, now) == Ok(r.value[i])
  {
    if patterns == [] then Ok([])
    else
      var first :- if patterns[0] == "#" then Ok(Some(element)) else LookupFrom(s, patterns[0], element, now);
      var rest :- GetAll(s, patterns[1..], element, now);
      Ok([first] + rest)
  }

  /** The weight (the element, or its BY lookup) and the value of one element; the weight is looked up first. */
  function ProjectOne(s: Store, byPattern: Option<string>, patterns: seq<string>, element: string, now: Time): (r: Result<Projected>)
    ensures r.Ok? && byPattern.None? ==> r.value.weight == Some(element)
    ensures r.Ok? && patterns == [] ==> r.value.value == One(Some(element))
  {
    var weight :- if byPattern.Some? then LookupFrom(s, byPattern.value, element, now) else Ok(Some(element));
    if patterns == [] then Ok(Projected(weight, One(Some(element))))
    else
      var values :- GetAll(s, patterns, element, now);
      Ok(Projected(weight, if |values| == 1 then One(values[0]) else Several(values)))
  }

  /** `project`: every element in order; the first failing lookup stops the projection. */
  function ProjectAll(s: Store, byPattern: Option<string>, patterns: seq<string>, elements: seq<string>, now: Time): (r: Result<seq<Projected>>)
    ensures r.Ok? ==> |r.value| == |elements|
    ensures r.Ok? ==> forall i :: 0 <= i < |elements| ==> ProjectOne(s, byPattern, patterns, elements[i], now) == Ok(r.value[i])
  {
    if elements == [] then Ok([])
    else
      var first :- ProjectOne(s, byPattern, patterns, elements[0], now);
      var rest :- ProjectAll(s, byPattern, patterns, elements[1..], now);
      Ok([first] + rest)
  }

  // ---------------------------------------------------------------------
  // sort_by

  /** The first whitespace-separated word, as `split.first` gives it (nil for a blank text). */
  function FirstWord(s: string): (r: Option<string>)
    ensures r.Some? ==> r.value != [] && forall i :: 0 <= i < |r.value| ==> !IsSpace(r.value[i])
  {
    var t := SkipSpace(s);
    if t == [] then None else Some(TakeWord(t))
  }

  function TakeWord(t: string): (r: string)
    requires t != [] && !IsSpace(t[0])
    ensures r != [] && |r| <= |t| && r == t[..|r|] && forall i :: 0 <= i < |r| ==> !IsSpace(r[i])
  {
    if |t| == 1 || IsSpace(t[1]) then [t[0]] else [t[0]] + TakeWord(t[1..])
  }

  /** The sort direction a word names: whether it is descending. Case does not matter (ASCII letters). */
  function Direction(w: string): (r: Result<bool>)
    ensures r == Ok(true) <==> Lower(w) == "desc"
    ensures r == Ok(false) <==> Lower(w) == "asc" || Lower(w) == "alpha"
    ensures r.Err? ==> r.error == InvalidDirection
  {
    var l := Lower(w);
    if l == "desc" then Ok(true)
    else if l == "asc" || l == "alpha" then Ok(false)
    else Err(InvalidDirection)
  }

  /** The direction of the ORDER option, "ASC" when absent; a blank option has no first word to upcase. */
  function Descending(order: Option<string>): (r: Result<bool>)
    ensures order.Some? && FirstWord(order.value).None? ==> r == Err(RubyError("NoMethodError"))
    ensures order.Some? && FirstWord(order.value).Some? ==> r == Direction(FirstWord(order.value).value)
  {
    var text := if order.Some? then order.value else "ASC";
    match FirstWord(text)
    case None => Err(RubyError("NoMethodError"))
    case Some(w) => Direction(w)
  }

  /** Without an ORDER option the sort is ascending. */
  lemma AscendingByDefault()
    ensures Descending(None) == Ok(false)
  {
    FirstWordAsc();
    LowerAsc();
  }

  /** The first word of "ASC" is all of it. */
  lemma FirstWordAsc()
    ensures FirstWord("ASC") == Some("ASC")
  {
    assert SkipSpace("ASC") == "ASC";
    assert TakeWord("ASC") == "ASC" by {
      assert TakeWord("C") == "C";
      assert "ASC"[1..] == "SC" && "SC"[1..] == "C";
    }
  }

  /** "ASC" downcased. */
  lemma LowerAsc()
    ensures Lower("ASC") == "asc"
  {
  }

  /** String#<=> on weights says "less"; two nils compare equal. */
  predicate WeightLt(a: Option<string>, b: Option<string>)
  {
    a.Some? && b.Some? && StrLt(a.value, b.value)
  }

  /** Whether `a` goes strictly before `b` in the chosen direction. */
  predicate Before(a: Projected, b: Projected, desc: bool)
  {
    if desc then WeightLt(b.weight, a.weight) else WeightLt(a.weight, b.weight)
  }

  /** Every weight is a string. */
  predicate StringWeights(ps: seq<Projected>)
  {
    forall p | p in ps :: p.weight.Some?
  }

  /** Every weight is nil. */
  predicate NilWeights(ps: seq<Projected>)
  {
    forall p | p in ps :: p.weight.None?
  }

  /** The comparator never meets a nil weight and a string weight together. */
  predicate Comparable(ps: seq<Projected>)
  {
    StringWeights(ps) || NilWeights(ps)
  }

  /** No element goes strictly before an earlier one. */
  predicate SortedBy(ps: seq<Projected>, desc: bool)
  {
    forall i, j :: 0 <= i < j < |ps| ==> !Before(ps[j], ps[i], desc)
  }

  /** Put `x` in front of the first element that does not go strictly before it. */
  function Insert(x: Projected, ys: seq<Projected>, desc: bool): (r: seq<Projected>)
    ensures multiset(r) == multiset([x] + ys)
    ensures |r| == |ys| + 1
  {
    if ys == [] || !Before(ys[0], x, desc) then [x] + ys
    else
      var rest := Insert(x, ys[1..], desc);
      assert ys == [ys[0]] + ys[1..];
      [ys[0]] + rest
  }

  /** An insertion sort standing for Array#sort with the weight comparator. */
  function SortProjected(ps: seq<Projected>, desc: bool): (r: seq<Projected>)
    ensures multiset(r) == multiset(ps)
    ensures |r| == |ps|
  {
    if ps == [] then []
    else
      assert ps == [ps[0]] + ps[1..];
      Insert(ps[0], SortProjected(ps[1..], desc), desc)
  }

  /** Under String#<=>, "not less" chains. */
  lemma StrNotLtChain(x: string, y: string, z: string)
    requires !StrLt(x, y) && !StrLt(y, z)
    ensures !StrLt(x, z)
  {
    StrLtTotal(x, y);
    StrLtTotal(y, z);
    StrLtIrreflexive(x);
    if x != y && y != z {
      StrLtTransitive(z, y, x);
      StrLtAsymmetric(x, z);
    } else if x != y {
      StrLtAsymmetric(x, y);
    } else if y != z {
      StrLtAsymmetric(y, z);
    }
  }

  /** Nothing goes before itself, "before" is asymmetric, and between string weights "not before" chains. */
  lemma BeforeFacts(a: Projected, b: Projected, c: Projected, desc: bool)
    ensures !Before(a, a, desc)
    ensures Before(a, b, desc) ==> !Before(b, a, desc)
    ensures !Before(a, b, desc) && !Before(b, c, desc) && a.weight.Some? && b.weight.Some? && c.weight.Some? ==> !Before(a, c, desc)
  {
    if a.weight.Some? {
      StrLtIrreflexive(a.weight.value);
      if b.weight.Some? {
        StrLtAsymmetric(a.weight.value, b.weight.value);
        if c.weight.Some? && !Before(a, b, desc) && !Before(b, c, desc) {
          if desc {
            StrNotLtChain(c.weight.value, b.weight.value, a.weight.value);
          } else {
            StrNotLtChain(a.weight.value, b.weight.value, c.weight.value);
          }
        }
      }
    }
  }

  /** A permutation keeps every weight a string. */
  lemma StringWeightsPermuted(a: seq<Projected>, b: seq<Projected>)
    requires multiset(a) == multiset(b) && StringWeights(b)
    ensures StringWeights(a)
  {
    forall p | p in a ensures p.weight.Some? {
      assert p in multiset(a);
    }
  }

  /** Inserting in front of an element that does not go before it keeps a sorted sequence sorted. */
  lemma InsertFront(x: Projected, ys: seq<Projected>, desc: bool)
    requires SortedBy(ys, desc) && StringWeights(ys) && x.weight.Some?
    requires ys == [] || !Before(ys[0], x, desc)
    ensures SortedBy([x] + ys, desc)
  {
    var r := [x] + ys;
    forall i, j | 0 <= i < j < |r| ensures !Before(r[j], r[i], desc) {
      if i == 0 {
        assert r[j] == ys[j - 1] && ys[j - 1] in ys && ys[0] in ys;
        BeforeFacts(ys[j - 1], ys[0], x, desc);
      } else {
        assert r[i] == ys[i - 1] && r[j] == ys[j - 1];
      }
    }
  }

  /** The tail of a sorted sequence of string weights is one too. */
  lemma SortedTail(ys: seq<Projected>, desc: bool)
    requires ys != [] && SortedBy(ys, desc) && StringWeights(ys)
    ensures SortedBy(ys[1..], desc) && StringWeights(ys[1..])
  {
    var tail := ys[1..];
    forall i, j | 0 <= i < j < |tail| ensures !Before(tail[j], tail[i], desc) {
      assert tail[i] == ys[i + 1] && tail[j] == ys[j + 1];
    }
    forall p | p in tail ensures p.weight.Some? {
      assert p in ys;
    }
  }

  /** Keeping the head in front of a sorted insertion into the tail, when the head goes before the new element. */
  lemma InsertBehind(x: Projected, ys: seq<Projected>, rest: seq<Projected>, desc: bool)
    requires ys != [] && SortedBy(ys, desc) && Before(ys[0], x, desc)
    requires SortedBy(rest, desc) && multiset(rest) == multiset([x] + ys[1..])
    ensures SortedBy([ys[0]] + rest, desc)
  {
    var tail := ys[1..];
    var r := [ys[0]] + rest;
    forall i, j | 0 <= i < j < |r| ensures !Before(r[j], r[i], desc) {
      if i == 0 {
        var e := r[j];
        assert e in multiset(rest);
        assert e in multiset([x] + tail);
        if e == x {
          BeforeFacts(ys[0], x, x, desc);
        } else {
          assert e in tail;
          var k :| 0 <= k < |tail| && tail[k] == e;
          assert ys[k + 1] == e;
        }
      } else {
        assert r[i] == rest[i - 1] && r[j] == rest[j - 1];
      }
    }
  }

  /** Inserting into a sorted sequence of string weights keeps it sorted. */
  lemma {:induction false} InsertSorted(x: Projected, ys: seq<Projected>, desc: bool)
    requires SortedBy(ys, desc) && StringWeights(ys) && x.weight.Some?
    ensures SortedBy(Insert(x, ys, desc), desc)
    decreases |ys|
  {
    if ys == [] || !Before(ys[0], x, desc) {
      InsertFront(x, ys, desc);
    } else {
      SortedTail(ys, desc);
      InsertSorted(x, ys[1..], desc);
      InsertBehind(x, ys, Insert(x, ys[1..], desc), desc);
    }
  }

  /** With string weights throughout, the sort orders the elements by weight. */
  lemma {:induction false} SortProjectedSorted(ps: seq<Projected>, desc: bool)
    requires StringWeights(ps)
    ensures SortedBy(SortProjected(ps, desc), desc)
  {
    if ps != [] {
      var tail := ps[1..];
      assert StringWeights(tail) by {
        forall p | p in tail ensures p.weight.Some? {
          assert p in ps;
        }
      }
      SortProjectedSorted(tail, desc);
      StringWeightsPermuted(SortProjected(tail, desc), tail);
      assert ps[0] in ps;
      InsertSorted(ps[0], SortProjected(tail, desc), desc);
    }
  }

  /** With nil weights throughout, every comparison is a tie and the sort keeps the order. */
  lemma {:induction false} SortProjectedNil(ps: seq<Projected>, desc: bool)
    requires NilWeights(ps)
    ensures SortProjected(ps, desc) == ps
    ensures SortedBy(ps, desc)
  {
    if ps != [] {
      var tail := ps[1..];
      NilWeightsTail(ps);
      SortProjectedNil(tail, desc);
      assert ps[0] in ps;
      InsertNilFront(ps[0], tail, desc);
      assert [ps[0]] + tail == ps;
    }
    NilSorted(ps, desc);
  }

  lemma NilWeightsTail(ps: seq<Projected>)
    requires ps != [] && NilWeights(ps)
    ensures NilWeights(ps[1..])
  {
    forall p | p in ps[1..] ensures p.weight.None? {
      assert p in ps;
    }
  }

  /** An element with a nil weight goes before everything. */
  lemma InsertNilFront(x: Projected, ys: seq<Projected>, desc: bool)
    requires x.weight.None?
    ensures Insert(x, ys, desc) == [x] + ys
  {
  }

  lemma NilSorted(ps: seq<Projected>, desc: bool)
    requires NilWeights(ps)
    ensures SortedBy(ps, desc)
  {
    forall i, j | 0 <= i < j < |ps| ensures !Before(ps[j], ps[i], desc) {
      assert ps[i] in ps && ps[j] in ps;
    }
  }

  /** `sort_by`: a mix of nil and string weights makes Array#sort raise; otherwise the sorted values. */
  function SortBy(ps: seq<Projected>, desc: bool): (r: Result<seq<Projection>>)
    ensures r.Err? <==> !Comparable(ps)
    ensures r.Err? ==> r.error == RubyError("ArgumentError")
  {
    if !Comparable(ps) then Err(RubyError("ArgumentError"))
    else
      Ok(Values(SortProjected(ps, desc)))
  }

  /** `map(&:last)`: the value of every projection. */
  function Values(ps: seq<Projected>): (r: seq<Projection>)
    ensures |r| == |ps| && forall i :: 0 <= i < |ps| ==> r[i] == ps[i].value
  {
    seq(|ps|, i requires 0 <= i < |ps| => ps[i].value)
  }

  /** What `sort_by` promises: the values of a reordering of the projections, in weight order. */
  lemma SortByMeaning(ps: seq<Projected>, desc: bool)
    requires Comparable(ps)
    ensures exists sorted: seq<Projected> :: multiset(sorted) == multiset(ps) && SortedBy(sorted, desc) && SortBy(ps, desc) == Ok(Values(sorted))
  {
    var sorted := SortProjected(ps, desc);
    if StringWeights(ps) {
      SortProjectedSorted(ps, desc);
    } else {
      SortProjectedNil(ps, desc);
    }
    assert multiset(sorted) == multiset(ps) && SortedBy(sorted, desc);
  }

  // ---------------------------------------------------------------------
  // slice

  /** `slice`: skip the first LIMIT number (0 by default), take the last (everything by default); a nil slice keeps all. */
  function Window<T>(sorted: seq<T>, limit: seq<int>): (r: seq<T>)
    ensures limit == [] ==> r == sorted
    ensures limit != [] ==> r == match ExclusiveSlice(sorted, limit[0], limit[0] + limit[|limit| - 1])
      case None => sorted
      case Some(w) => w
  {
    var skip := if limit == [] then 0 else limit[0];
    var take := if limit == [] then |sorted| else limit[|limit| - 1];
    match ExclusiveSlice(sorted, skip, skip + take)
    case None => sorted
    case Some(w) => w
  }

  /** LIMIT with a start inside the list and a count keeps exactly that stretch of the sorted values. */
  lemma WindowInside<T>(sorted: seq<T>, skip: int, take: int)
    requires 0 <= skip <= |sorted| && 0 <= take && skip + take <= |sorted|
    ensures Window(sorted, [skip, take]) == sorted[skip..skip + take]
  {
  }

  // ---------------------------------------------------------------------
  // the reply and STORE

  /** How one sorted value is answered: a string, nil, or the array of several lookups. */
  function ProjectionReply(v: Projection): Reply
  {
    match v
    case One(x) => ValueOf(x)
    case Several(xs) => Array(seq(|xs|, i requires 0 <= i < |xs| => ValueOf(xs[i])))
  }

  function ValueOf(x: Option<string>): Reply
  {
    if x.Some? then Bulk(x.value) else Nil
  }

  /** What RPUSH receives for STORE: the values flattened, each `to_s` (nil becomes ""). */
  function Flatten(vs: seq<Projection>): (r: seq<string>)
    ensures (forall i :: 0 <= i < |vs| ==> vs[i].One?) ==> |r| == |vs|
  {
    if vs == [] then []
    else
      (match vs[0]
       case One(x) => [ToS(x)]
       case Several(xs) => seq(|xs|, i requires 0 <= i < |xs| => ToS(xs[i])))
      + Flatten(vs[1..])
  }

  function ToS(x: Option<string>): string
  {
    if x.Some? then x.value else ""
  }

  /**
   * Everything SORT computes once the key passed the type check, read from
   * the store as it stands: the projection first, then the direction, then
   * the comparison, then the window.
   */
  function Sorted(s: Store, key: Key, byPattern: Option<string>, limit: seq<int>, patterns: seq<string>, order: Option<string>, now: Time): (r: Result<seq<Projection>>)
    requires Sortable(Read(s, key, now))
    ensures r.Ok? && limit == [] ==> |r.value| == |Elements(Read(s, key, now).value)|
  {
    var projected :- ProjectAll(s, byPattern, patterns, Elements(Read(s, key, now).value), now);
    var desc :- Descending(order);
    var sorted :- SortBy(projected, desc);
    Ok(Window(sorted, limit))
  }

  /** RPUSH of the values onto `key`, as the state it leaves and the reply. */
  function PushedBack(s: Store, key: Key, values: seq<string>, now: Time): (Store, Result<Reply>)
  {
    var cur := Read(s, key, now);
    if !Conforms(cur, ListKind) then (Purge(s, key, now), Err(WrongType))
    else if cur.None? then (Assign(s, key, ListVal(values)), Ok(Int(|values|)))
    else (Mutate(s, key, ListVal(cur.value.items + values)), Ok(Int(|cur.value.items| + |values|)))
  }

  /** The sorted values as the reply array. */
  function Replies(vs: seq<Projection>): (r: seq<Reply>)
    ensures |r| == |vs| && forall i :: 0 <= i < |vs| ==> r[i] == ProjectionReply(vs[i])
  {
    seq(|vs|, i requires 0 <= i < |vs| => ProjectionReply(vs[i]))
  }

  /**
   * SORT: the state it leaves and its reply. A missing key answers the empty
   * array; a key that is not a list, a set or a sorted set is refused (the key
   * purged by the type check); with STORE the values are pushed onto that list
   * and its length is answered.
   */
  function SortOutcome(s: Store, key: Option<Key>, byPattern: Option<string>, limit: seq<int>, store: Option<Key>,
                       patterns: seq<string>, order: Option<string>, now: Time): (Store, Result<Reply>)
  {
    if key.None? then (s, Ok(Array([])))
    else
      var s1 := Purge(s, key.value, now);
      if !Sortable(Read(s, key.value, now)) then (s1, Err(WrongType))
      else
        PurgeInvisible(s, key.value, now, key.value);
        match Sorted(s1, key.value, byPattern, limit, patterns, order, now)
        case Err(e) => (s1, Err(e))
        case Ok(vs) => if store.None? then (s1, Ok(Array(Replies(vs)))) else PushedBack(s1, store.value, Flatten(vs), now)
  }

  /** SORT. */
  method Sort(db: ExpiringHash, key: Option<Key>, byPattern: Option<string>, limit: seq<int>, store: Option<Key>,
              patterns: seq<string>, order: Option<string>, now: Time) returns (r: Result<Reply>)
    modifies db
    ensures (db.State(), r) == SortOutcome(old(db.State()), key, byPattern, limit, store, patterns, order, now)
  {
    if key.None? {
      return Ok(Array([]));
    }
    ghost var s := db.State();
    var v := db.Get(key.value, now);
    if !Sortable(v) {
      return Err(WrongType);
    }
    PurgeInvisible(s, key.value, now, key.value);
    var sorted := Sorted(db.State(), key.value, byPattern, limit, patterns, order, now);
    if sorted.Err? {
      return Err(sorted.error);
    }
    var vs := sorted.value;
    if store.None? {
      return Ok(Array(Replies(vs)));
    }
    ghost var s1 := db.State();
    var values := Flatten(vs);
    assert SortOutcome(s, key, byPattern, limit, store, patterns, order, now) == PushedBack(s1, store.value, values, now);
    r := StoreValues(db, store.value, values, now);
  }

  /** The STORE step: RPUSH of the flattened values. */
  method StoreValues(db: ExpiringHash, key: Key, values: seq<string>, now: Time) returns (r: Result<Reply>)
    modifies db
    ensures (db.State(), r) == PushedBack(old(db.State()), key, values, now)
  {
    r := ListCommands.RPush(db, key, values, now);
  }

  /** SORT answers exactly as many values as the key holds elements when there is no LIMIT. */
  lemma SortKeepsEveryElement(s: Store, key: Key, byPattern: Option<string>, patterns: seq<string>, order: Option<string>, now: Time)
    requires Sortable(Read(s, key, now))
    ensures Sorted(s, key, byPattern, [], patterns, order, now).Ok? ==>
      |Sorted(s, key, byPattern, [], patterns, order, now).value| == |Elements(Read(s, key, now).value)|
  {
  }
}
