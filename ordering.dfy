// Orders the store relies on: Ruby's String#<=> (lexicographic by
// character), the order of sorted-set scores, and the listing of a score
// map by (score, member) that ZRANGE uses.

module Ordering {

  import opened Common

  /** String#<=> says "less": first differing character smaller, or a proper prefix. */
  predicate StrLt(a: string, b: string)
  {
    if a == [] then b != []
    else if b == [] then false
    else if a[0] != b[0] then a[0] < b[0]
    else StrLt(a[1..], b[1..])
  }

  lemma {:induction false} StrLtIrreflexive(a: string)
    ensures !StrLt(a, a)
  {
    if a != [] { StrLtIrreflexive(a[1..]); }
  }

  lemma {:induction false} StrLtTotal(a: string, b: string)
    ensures a == b || StrLt(a, b) || StrLt(b, a)
  {
    if a != [] && b != [] && a[0] == b[0] {
      StrLtTotal(a[1..], b[1..]);
      if a[1..] == b[1..] {
        assert a == [a[0]] + a[1..] && b == [b[0]] + b[1..];
      }
    }
  }

  lemma {:induction false} StrLtAsymmetric(a: string, b: string)
    ensures !(StrLt(a, b) && StrLt(b, a))
  {
    if a != [] && b != [] && a[0] == b[0] { StrLtAsymmetric(a[1..], b[1..]); }
  }

  lemma {:induction false} StrLtTransitive(a: string, b: string, c: string)
    requires StrLt(a, b) && StrLt(b, c)
    ensures StrLt(a, c)
  {
    if a != [] && b != [] && c != [] && a[0] == b[0] && b[0] == c[0] {
      StrLtTransitive(a[1..], b[1..], c[1..]);
    }
  }

  /** Float#< extended to both infinities. */
  predicate ScoreLt(x: Score, y: Score)
  {
    match (x, y)
    case (NegInf, NegInf) => false
    case (NegInf, _) => true
    case (Fin(a), Fin(b)) => a < b
    case (Fin(_), PosInf) => true
    case _ => false
  }

  predicate ScoreLe(x: Score, y: Score) { x == y || ScoreLt(x, y) }

  lemma ScoreLtTotal(x: Score, y: Score)
    ensures x == y || ScoreLt(x, y) || ScoreLt(y, x)
    ensures !(ScoreLt(x, y) && ScoreLt(y, x))
  {
  }

  /** The order ZRANGE lists entries in: by score, equal scores by member. */
  predicate EntryLt(z: map<string, Score>, a: string, b: string)
    requires a in z && b in z
  {
    ScoreLt(z[a], z[b]) || (z[a] == z[b] && StrLt(a, b))
  }

  lemma EntryLtFacts(z: map<string, Score>)
    ensures forall a, b :: a in z && b in z ==> !(EntryLt(z, a, b) && EntryLt(z, b, a))
    ensures forall a, b :: a in z && b in z && a != b ==> EntryLt(z, a, b) || EntryLt(z, b, a)
    ensures forall a, b, c :: a in z && b in z && c in z && EntryLt(z, a, b) && EntryLt(z, b, c) ==> EntryLt(z, a, c)
  {
    forall a, b | a in z && b in z
      ensures !(EntryLt(z, a, b) && EntryLt(z, b, a))
      ensures a != b ==> EntryLt(z, a, b) || EntryLt(z, b, a)
    {
      StrLtAsymmetric(a, b);
      StrLtTotal(a, b);
      ScoreLtTotal(z[a], z[b]);
    }
    forall a, b, c | a in z && b in z && c in z && EntryLt(z, a, b) && EntryLt(z, b, c)
      ensures EntryLt(z, a, c)
    {
      if z[a] == z[b] && z[b] == z[c] { StrLtTransitive(a, b, c); }
    }
  }

  predicate IsLeast(z: map<string, Score>, m: string)
  {
    m in z && forall k :: k in z && k != m ==> EntryLt(z, m, k)
  }

  lemma {:induction false} LeastExists(z: map<string, Score>)
    requires |z| > 0
    ensures exists m :: IsLeast(z, m)
    decreases |z|
  {
    var x :| x in z;
    var rest := z - {x};
    assert forall k :: k in rest ==> rest[k] == z[k];
    if rest == map[] {
      assert forall k :: k in z && k != x ==> k in rest;
      assert IsLeast(z, x);
    } else {
      assert |rest| == |z| - 1;
      LeastExists(rest);
      var m :| IsLeast(rest, m);
      EntryLtFacts(z);
      forall k | k in rest && k != m ensures EntryLt(z, m, k) {
        assert EntryLt(rest, m, k);
      }
      if EntryLt(z, x, m) {
        forall k | k in z && k != x ensures EntryLt(z, x, k) {
          if k != m { assert k in rest; }
        }
        assert IsLeast(z, x);
      } else {
        forall k | k in z && k != m ensures EntryLt(z, m, k) {
          if k != x { assert k in rest; }
        }
        assert IsLeast(z, m);
      }
    }
  }

  lemma LeastUnique(z: map<string, Score>)
    ensures forall m1, m2 :: IsLeast(z, m1) && IsLeast(z, m2) ==> m1 == m2
  {
    EntryLtFacts(z);
  }

  /** Putting the least member in front of an ordered listing of the others orders the whole map. */
  lemma OrderStep(z: map<string, Score>, m: string, tail: seq<string>)
    requires IsLeast(z, m)
    requires |tail| == |z| - 1
    requires forall i :: 0 <= i < |tail| ==> tail[i] in z - {m}
    requires forall k :: k in z - {m} ==> k in tail
    requires forall i, j :: 0 <= i < j < |tail| ==> EntryLt(z - {m}, tail[i], tail[j])
    ensures forall i :: 0 <= i < |[m] + tail| ==> ([m] + tail)[i] in z
    ensures forall k :: k in z ==> k in [m] + tail
    ensures forall i, j :: 0 <= i < j < |[m] + tail| ==> EntryLt(z, ([m] + tail)[i], ([m] + tail)[j])
  {
    var r := [m] + tail;
    forall i, j | 0 <= i < j < |r| ensures EntryLt(z, r[i], r[j]) {
      if i == 0 {
        assert r[j] == tail[j - 1] && r[j] != m;
      } else {
        assert r[i] == tail[i - 1] && r[j] == tail[j - 1];
        assert EntryLt(z - {m}, tail[i - 1], tail[j - 1]);
      }
    }
    forall k | k in z ensures k in r {
      if k != m { assert k in z - {m}; }
    }
  }

  /**
   * The members of a score map in ascending (score, member) order, each
   * exactly once.
   */
  function OrderMembers(z: map<string, Score>): (r: seq<string>)
    ensures |r| == |z|
    ensures forall i :: 0 <= i < |r| ==> r[i] in z
    ensures forall k :: k in z ==> k in r
    ensures forall i, j :: 0 <= i < j < |r| ==> EntryLt(z, r[i], r[j])
    decreases |z|
  {
    if |z| == 0 then []
    else
      LeastExists(z);
      LeastUnique(z);
      var m :| IsLeast(z, m);
      var tail := OrderMembers(z - {m});
      OrderStep(z, m, tail);
      [m] + tail
  }

  /** Members listed in order are never repeated. */
  lemma OrderMembersDistinct(z: map<string, Score>)
    ensures forall i, j :: 0 <= i < j < |OrderMembers(z)| ==> OrderMembers(z)[i] != OrderMembers(z)[j]
  {
    var r := OrderMembers(z);
    forall i, j | 0 <= i < j < |r| ensures r[i] != r[j] {
      assert EntryLt(z, r[i], r[j]);
      StrLtIrreflexive(r[i]);
    }
  }

  /**
   * The rank semantics: members before a member never score higher and
   * members after it never score lower.
   */
  lemma OrderMembersByScore(z: map<string, Score>, i: nat, j: nat)
    requires i < j < |OrderMembers(z)|
    ensures ScoreLe(z[OrderMembers(z)[i]], z[OrderMembers(z)[j]])
  {
  }

  /** The score map that gives every member the same score. */
  function Flat(s: set<string>): map<string, Score>
  {
    map m | m in s :: Fin(0)
  }

  /** A set of strings in ascending String#<=> order, each once. */
  function SortedStrings(s: set<string>): (r: seq<string>)
    ensures |r| == |s|
    ensures forall x :: x in r <==> x in s
    ensures forall i, j :: 0 <= i < j < |r| ==> StrLt(r[i], r[j])
  {
    var r := OrderMembers(Flat(s));
    assert Flat(s).Keys == s;
    assert forall i, j :: 0 <= i < j < |r| ==> EntryLt(Flat(s), r[i], r[j]);
    r
  }

  // ---------------------------------------------------------------------
  // A hash listed by value, as `sort_by { |k, v| v }` lists its pairs

  /** By value under String#<=>, equal values by field. */
  predicate FieldLt(h: map<string, string>, a: string, b: string)
    requires a in h && b in h
  {
    StrLt(h[a], h[b]) || (h[a] == h[b] && StrLt(a, b))
  }

  lemma FieldLtFacts(h: map<string, string>)
    ensures forall a, b :: a in h && b in h ==> !(FieldLt(h, a, b) && FieldLt(h, b, a))
    ensures forall a, b :: a in h && b in h && a != b ==> FieldLt(h, a, b) || FieldLt(h, b, a)
    ensures forall a, b, c :: a in h && b in h && c in h && FieldLt(h, a, b) && FieldLt(h, b, c) ==> FieldLt(h, a, c)
  {
    forall a, b | a in h && b in h
      ensures !(FieldLt(h, a, b) && FieldLt(h, b, a))
      ensures a != b ==> FieldLt(h, a, b) || FieldLt(h, b, a)
    {
      StrLtAsymmetric(a, b);
      StrLtTotal(a, b);
      StrLtAsymmetric(h[a], h[b]);
      StrLtTotal(h[a], h[b]);
    }
    forall a, b, c | a in h && b in h && c in h && FieldLt(h, a, b) && FieldLt(h, b, c)
      ensures FieldLt(h, a, c)
    {
      if h[a] == h[b] && h[b] == h[c] {
        StrLtTransitive(a, b, c);
      } else if h[a] == h[b] {
        assert StrLt(h[b], h[c]);
      } else if h[b] == h[c] {
        assert StrLt(h[a], h[b]);
      } else {
        StrLtTransitive(h[a], h[b], h[c]);
      }
    }
  }

  predicate IsLeastField(h: map<string, string>, m: string)
  {
    m in h && forall k :: k in h && k != m ==> FieldLt(h, m, k)
  }

  lemma {:induction false} LeastFieldExists(h: map<string, string>)
    requires |h| > 0
    ensures exists m :: IsLeastField(h, m)
    decreases |h|
  {
    var x :| x in h;
    var rest := h - {x};
    assert forall k :: k in rest ==> rest[k] == h[k];
    if rest == map[] {
      assert forall k :: k in h && k != x ==> k in rest;
      assert IsLeastField(h, x);
    } else {
      assert |rest| == |h| - 1;
      LeastFieldExists(rest);
      var m :| IsLeastField(rest, m);
      FieldLtFacts(h);
      forall k | k in rest && k != m ensures FieldLt(h, m, k) {
        assert FieldLt(rest, m, k);
      }
      if FieldLt(h, x, m) {
        forall k | k in h && k != x ensures FieldLt(h, x, k) {
          if k != m { assert k in rest; }
        }
        assert IsLeastField(h, x);
      } else {
        forall k | k in h && k != m ensures FieldLt(h, m, k) {
          if k != x { assert k in rest; }
        }
        assert IsLeastField(h, m);
      }
    }
  }

  /** Putting the least field in front of an ordered listing of the others orders the whole hash. */
  lemma FieldOrderStep(h: map<string, string>, m: string, tail: seq<string>)
    requires IsLeastField(h, m)
    requires |tail| == |h| - 1
    requires forall i :: 0 <= i < |tail| ==> tail[i] in h - {m}
    requires forall k :: k in h - {m} ==> k in tail
    requires forall i, j :: 0 <= i < j < |tail| ==> FieldLt(h - {m}, tail[i], tail[j])
    ensures forall i :: 0 <= i < |[m] + tail| ==> ([m] + tail)[i] in h
    ensures forall k :: k in h ==> k in [m] + tail
    ensures forall i, j :: 0 <= i < j < |[m] + tail| ==> FieldLt(h, ([m] + tail)[i], ([m] + tail)[j])
  {
    var r := [m] + tail;
    forall i, j | 0 <= i < j < |r| ensures FieldLt(h, r[i], r[j]) {
      if i == 0 {
        assert r[j] == tail[j - 1] && r[j] != m;
      } else {
        assert r[i] == tail[i - 1] && r[j] == tail[j - 1];
        assert FieldLt(h - {m}, tail[i - 1], tail[j - 1]);
      }
    }
    forall k | k in h ensures k in r {
      if k != m { assert k in h - {m}; }
    }
  }

  /** The fields of a hash in ascending (value, field) order, each exactly once. */
  function OrderFields(h: map<string, string>): (r: seq<string>)
    ensures |r| == |h|
    ensures forall i :: 0 <= i < |r| ==> r[i] in h
    ensures forall k :: k in h ==> k in r
    ensures forall i, j :: 0 <= i < j < |r| ==> FieldLt(h, r[i], r[j])
    decreases |h|
  {
    if |h| == 0 then []
    else
      LeastFieldExists(h);
      FieldLtFacts(h);
      var m :| IsLeastField(h, m);
      var tail := OrderFields(h - {m});
      FieldOrderStep(h, m, tail);
      [m] + tail
  }
}
