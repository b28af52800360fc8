// The handful of Ruby core operations whose exact edge cases the store's
// commands inherit: integer <-> string conversion, ASCII downcasing,
// index and range access on arrays and strings, and substring search.

module Ruby {

  import opened Common

  // ---------------------------------------------------------------------
  // Integer#to_s and String#to_i

  function DigitChar(d: int): (c: char)
    requires 0 <= d < 10
    ensures '0' <= c <= '9'
  {
    (48 + d) as char
  }

  predicate IsDigit(c: char) { '0' <= c <= '9' }

  function DigitValue(c: char): (d: int)
    requires IsDigit(c)
    ensures 0 <= d < 10 && DigitChar(d) == c
  {
    c as int - 48
  }

  function NatToString(n: nat): (s: string)
    ensures |s| > 0
    ensures forall i :: 0 <= i < |s| ==> IsDigit(s[i])
  {
    if n < 10 then [DigitChar(n)] else NatToString(n / 10) + [DigitChar(n % 10)]
  }

  /** Integer#to_s in base 10. */
  function IntToString(n: int): string
  {
    if n < 0 then "-" + NatToString(-n) else NatToString(n)
  }

  /** The value of a run of decimal digits. */
  function DigitsValue(ds: string): nat
    requires forall i :: 0 <= i < |ds| ==> IsDigit(ds[i])
  {
    if ds == [] then 0 else DigitsValue(ds[..|ds| - 1]) * 10 + DigitValue(ds[|ds| - 1])
  }

  /** The longest prefix of `s` made of digits. */
  function LeadingDigits(s: string): (ds: string)
    ensures |ds| <= |s| && ds == s[..|ds|]
    ensures forall i :: 0 <= i < |ds| ==> IsDigit(ds[i])
    ensures |ds| < |s| ==> !IsDigit(s[|ds|])
  {
    if s != [] && IsDigit(s[0]) then [s[0]] + LeadingDigits(s[1..]) else []
  }

  lemma {:induction false} LeadingDigitsOfPrefix(ds: string, rest: string)
    requires forall i :: 0 <= i < |ds| ==> IsDigit(ds[i])
    requires rest == [] || !IsDigit(rest[0])
    ensures LeadingDigits(ds + rest) == ds
  {
    if ds != [] {
      assert (ds + rest)[1..] == ds[1..] + rest;
      LeadingDigitsOfPrefix(ds[1..], rest);
    }
  }

  predicate IsSpace(c: char) { c == ' ' || c == '\t' || c == '\n' || c == '\U{0B}' || c == '\U{0C}' || c == '\r' }

  function SkipSpace(s: string): (t: string)
    ensures |t| <= |s| && t == s[|s| - |t|..]
    ensures t == [] || !IsSpace(t[0])
  {
    if s != [] && IsSpace(s[0]) then SkipSpace(s[1..]) else s
  }

  predicate AllDigits(ds: string)
  {
    forall i :: 0 <= i < |ds| ==> IsDigit(ds[i])
  }

  /**
   * The number whose digits so far are worth `acc`, continued by the digits
   * at the start of `s`: a digit, or a single "_" followed by a digit, adds
   * that digit; two underscores in a row, a trailing underscore or any other
   * character end the number.
   */
  function Continue(acc: nat, s: string): nat
    decreases |s|
  {
    if s != [] && IsDigit(s[0]) then Continue(acc * 10 + DigitValue(s[0]), s[1..])
    else if |s| > 1 && s[0] == '_' && IsDigit(s[1]) then Continue(acc * 10 + DigitValue(s[1]), s[2..])
    else acc
  }

  /** Base 10's optional radix prefix, "0d" or "0D". */
  predicate DecimalPrefix(t: string)
  {
    |t| >= 2 && t[0] == '0' && (t[1] == 'd' || t[1] == 'D')
  }

  /** The value of the number after the sign: its radix prefix is skipped, then its digits are read; no digit reads as 0. */
  function Unsigned(t: string): nat
  {
    var u := if DecimalPrefix(t) then t[2..] else t;
    if u != [] && IsDigit(u[0]) then Continue(DigitValue(u[0]), u[1..]) else 0
  }

  /**
   * String#to_i: leading white space is skipped, an optional sign is read,
   * then an optional "0d" prefix, then the digits, in which a single "_"
   * may stand between two digits; anything else ends the number, and a
   * string without digits is 0.
   */
  function ToI(s: string): int
    decreases |s|
  {
    if s != [] && IsSpace(s[0]) then ToI(s[1..]) else SignedNumber(s)
  }

  /** An optional sign and the number after it. */
  function SignedNumber(t: string): int
  {
    if t != [] && (t[0] == '-' || t[0] == '+') then
      var v: int := Unsigned(t[1..]);
      if t[0] == '-' then -v else v
    else Unsigned(t)
  }

  /** Whether `rest` cannot continue the digits before it: it holds no digit and no "_" then a digit at its start. */
  predicate EndsNumber(rest: string)
  {
    rest == [] || (!IsDigit(rest[0]) && !(|rest| > 1 && rest[0] == '_' && IsDigit(rest[1])))
  }

  lemma {:induction false} NatToStringValue(n: nat)
    ensures DigitsValue(NatToString(n)) == n
  {
    var s := NatToString(n);
    if n >= 10 {
      NatToStringValue(n / 10);
      assert s[..|s| - 1] == NatToString(n / 10);
    }
  }

  /** Digits followed by text that cannot continue them add exactly those digits to the number read so far. */
  lemma {:induction false} ContinueOf(p: string, ds: string, rest: string)
    requires AllDigits(p) && AllDigits(ds) && EndsNumber(rest)
    ensures Continue(DigitsValue(p), ds + rest) == DigitsValue(p + ds)
    decreases |ds|
  {
    if ds == [] {
      assert ds + rest == rest && p + ds == p;
    } else {
      var p' := p + [ds[0]];
      assert p'[..|p'| - 1] == p && p'[|p'| - 1] == ds[0];
      assert (ds + rest)[1..] == ds[1..] + rest;
      assert p' + ds[1..] == p + ds;
      ContinueOf(p', ds[1..], rest);
    }
  }

  /** The radix prefix needs a "0" then a "d": digits other than a lone "0" do not start one. */
  lemma {:induction false} NoDecimalPrefix(ds: string, rest: string)
    requires ds != [] && AllDigits(ds)
    requires |ds| == 1 && ds[0] == '0' ==> rest == [] || (rest[0] != 'd' && rest[0] != 'D')
    ensures !DecimalPrefix(ds + rest)
  {
    var t := ds + rest;
    if |t| >= 2 {
      if |ds| >= 2 {
        assert t[1] == ds[1];
      } else {
        assert t[1] == rest[0];
      }
    }
  }

  /** Digits followed by text that cannot continue them are read as exactly those digits. */
  lemma {:induction false} UnsignedOf(ds: string, rest: string)
    requires ds != [] && AllDigits(ds) && EndsNumber(rest)
    requires |ds| == 1 && ds[0] == '0' ==> rest == [] || (rest[0] != 'd' && rest[0] != 'D')
    ensures Unsigned(ds + rest) == DigitsValue(ds)
  {
    NoDecimalPrefix(ds, rest);
    var t := ds + rest;
    assert t[0] == ds[0] && t[1..] == ds[1..] + rest;
    var first := [ds[0]];
    assert first[..0] == [] && DigitsValue(first) == DigitValue(ds[0]);
    assert first + ds[1..] == ds;
    ContinueOf(first, ds[1..], rest);
  }

  lemma ToIOfDigitFirst(t: string)
    requires t != [] && IsDigit(t[0])
    ensures ToI(t) == Unsigned(t)
  {
  }

  lemma ToIOfMinusFirst(ds: string, rest: string)
    ensures ToI("-" + ds + rest) == 0 - Unsigned(ds + rest)
  {
    var s := "-" + ds + rest;
    assert s[1..] == ds + rest;
  }

  /** A natural number's digits followed by text that cannot continue them read as the number. */
  lemma {:induction false} UnsignedNat(m: nat, rest: string)
    requires EndsNumber(rest)
    requires m == 0 ==> rest == [] || (rest[0] != 'd' && rest[0] != 'D')
    ensures Unsigned(NatToString(m) + rest) == m
  {
    var ds := NatToString(m);
    NatToStringValue(m);
    if |ds| == 1 && ds[0] == '0' {
      assert ds == [ds[0]];
      assert DigitsValue(ds) == DigitsValue([]) * 10 + DigitValue('0');
    }
    UnsignedOf(ds, rest);
  }

  /**
   * An integer's text followed by text that cannot continue it reads as the
   * integer ("12abc".to_i is 12, "12__3".to_i is 12); a "0" followed by "d"
   * is the radix prefix instead.
   */
  lemma {:induction false} ToIIgnoresTrailingText(n: int, rest: string)
    requires EndsNumber(rest)
    requires n == 0 ==> rest == [] || (rest[0] != 'd' && rest[0] != 'D')
    ensures ToI(IntToString(n) + rest) == n
  {
    if n < 0 {
      ToINegativeText(n, rest);
    } else {
      ToINatural(n, rest);
    }
  }

  lemma {:induction false} ToINegativeText(n: int, rest: string)
    requires n < 0 && EndsNumber(rest)
    ensures ToI(IntToString(n) + rest) == n
  {
    var m: nat := -n;
    var ds := NatToString(m);
    assert IntToString(n) + rest == "-" + ds + rest;
    assert ToI("-" + ds + rest) == n by {
      UnsignedNat(m, rest);
      ToIOfMinusFirst(ds, rest);
    }
  }

  lemma {:induction false} ToINatural(m: nat, rest: string)
    requires EndsNumber(rest)
    requires m == 0 ==> rest == [] || (rest[0] != 'd' && rest[0] != 'D')
    ensures ToI(NatToString(m) + rest) == m
  {
    var ds := NatToString(m);
    UnsignedNat(m, rest);
    assert (ds + rest)[0] == ds[0];
    ToIOfDigitFirst(ds + rest);
  }

  /** Ruby's to_i reads back what to_s wrote, for every integer. */
  lemma {:induction false} ToIRoundTrip(n: int)
    ensures ToI(IntToString(n)) == n
  {
    ToIIgnoresTrailingText(n, []);
    assert IntToString(n) + [] == IntToString(n);
  }

  lemma {:induction false} ContinueSkipsUnderscore(acc: nat, ds: string, tail: string)
    requires AllDigits(ds) && tail != [] && IsDigit(tail[0])
    ensures Continue(acc, ds + "_" + tail) == Continue(acc, ds + tail)
    decreases |ds|
  {
    if ds == [] {
      assert ds + "_" + tail == "_" + tail && ds + tail == tail;
      assert ("_" + tail)[2..] == tail[1..];
    } else {
      assert (ds + "_" + tail)[1..] == ds[1..] + "_" + tail;
      assert (ds + tail)[1..] == ds[1..] + tail;
      ContinueSkipsUnderscore(acc * 10 + DigitValue(ds[0]), ds[1..], tail);
    }
  }

  lemma Regroup(x: string, y: string, z: string)
    ensures x + y + z == x + (y + z)
  {
  }

  /** A single underscore between two digits does not change the number ("1_0".to_i is 10). */
  lemma {:induction false} ToISkipsUnderscore(ds: string, tail: string)
    requires ds != [] && AllDigits(ds) && tail != [] && IsDigit(tail[0])
    ensures ToI(ds + "_" + tail) == ToI(ds + tail)
  {
    UnsignedAfterDigit(ds, "_" + tail);
    UnsignedAfterDigit(ds, tail);
    Regroup(ds, "_", tail);
    Regroup(ds[1..], "_", tail);
    ToIOfDigitFirst(ds + "_" + tail);
    ToIOfDigitFirst(ds + tail);
    ContinueSkipsUnderscore(DigitValue(ds[0]), ds[1..], tail);
  }

  /** Digits followed by anything but a "d" after a lone "0": the number is read from its first digit on. */
  lemma {:induction false} UnsignedAfterDigit(ds: string, more: string)
    requires ds != [] && AllDigits(ds)
    requires more != [] && (IsDigit(more[0]) || more[0] == '_')
    ensures (ds + more)[0] == ds[0]
    ensures Unsigned(ds + more) == Continue(DigitValue(ds[0]), ds[1..] + more)
  {
    NoDecimalPrefix(ds, more);
    var t := ds + more;
    assert t[0] == ds[0] && t[1..] == ds[1..] + more;
  }

  /** Base 10's radix prefix is skipped ("0d12".to_i is 12). */
  lemma {:induction false} ToIPrefixed(n: nat)
    ensures ToI("0d" + NatToString(n)) == n
  {
    var ds := NatToString(n);
    var s := "0d" + ds;
    assert s[0] == '0' && s[1] == 'd' && s[2..] == ds;
    ToIOfDigitFirst(s);
    UnsignedNat(n, []);
    assert ds + [] == ds;
    NoDecimalPrefix(ds, []);
  }


  // ---------------------------------------------------------------------
  // String#downcase (ASCII letters only)

  function LowerChar(c: char): char
  {
    if 'A' <= c <= 'Z' then (c as int + 32) as char else c
  }

  function Lower(s: string): (r: string)
    ensures |r| == |s|
    ensures forall i :: 0 <= i < |s| ==> r[i] == LowerChar(s[i])
  {
    if s == [] then [] else [LowerChar(s[0])] + Lower(s[1..])
  }

  /** Downcasing twice is downcasing once, so the queue and the dispatcher agree on names. */
  lemma LowerIdempotent(s: string)
    ensures Lower(Lower(s)) == Lower(s)
  {
    assert forall i :: 0 <= i < |s| ==> LowerChar(LowerChar(s[i])) == LowerChar(s[i]);
  }

  // ---------------------------------------------------------------------
  // Array#[] and String#[] on integers and ranges

  /** A possibly negative Ruby index as an offset from the front. */
  function Normalize(i: int, n: nat): int
  {
    if i < 0 then i + n else i
  }

  /** `a[i]`: negative indices count from the end; outside the sequence it is nil. */
  function At<T>(a: seq<T>, i: int): (r: Option<T>)
    ensures r.Some? <==> -|a| <= i < |a|
    ensures 0 <= i < |a| ==> r == Some(a[i])
    ensures -|a| <= i < 0 ==> r == Some(a[|a| + i])
  {
    var j := Normalize(i, |a|);
    if 0 <= j < |a| then Some(a[j]) else None
  }

  /**
   * `a[start..stop]`: both ends may count from the end, the stop is clipped
   * to the last element, and the result is nil exactly when the start lies
   * before the first element or after the last one plus one.
   */
  function RangeSlice<T>(a: seq<T>, start: int, stop: int): (r: Option<seq<T>>)
    ensures r.None? <==> start > |a| || start < -|a|
    ensures r.Some? ==> |r.value| <= |a| - Normalize(start, |a|)
    ensures r.Some? ==> forall i :: 0 <= i < |r.value| ==> r.value[i] == a[Normalize(start, |a|) + i]
  {
    var b := Normalize(start, |a|);
    if b < 0 || b > |a| then None
    else
      var e := Min(Normalize(stop, |a|) + 1, |a|);
      Some(if e <= b then [] else a[b..e])
  }

  /** `a[start...stop]`, the range that leaves out its stop. */
  function ExclusiveSlice<T>(a: seq<T>, start: int, stop: int): (r: Option<seq<T>>)
    ensures r.None? <==> start > |a| || start < -|a|
    ensures r.Some? ==> |r.value| <= |a| - Normalize(start, |a|)
    ensures r.Some? ==> forall i :: 0 <= i < |r.value| ==> r.value[i] == a[Normalize(start, |a|) + i]
  {
    var b := Normalize(start, |a|);
    if b < 0 || b > |a| then None
    else
      var e := Min(Normalize(stop, |a|), |a|);
      Some(if e <= b then [] else a[b..e])
  }

  /** `a[start, length]`: nil for a negative length or a start outside the sequence plus one. */
  function StartLength<T>(a: seq<T>, start: int, length: int): (r: Option<seq<T>>)
    ensures r.None? <==> start > |a| || start < -|a| || length < 0
    ensures r.Some? ==> |r.value| == Min(length, |a| - Normalize(start, |a|))
    ensures r.Some? ==> forall i :: 0 <= i < |r.value| ==> r.value[i] == a[Normalize(start, |a|) + i]
  {
    var b := Normalize(start, |a|);
    if b < 0 || b > |a| || length < 0 then None
    else Some(a[b..Min(b + length, |a|)])
  }

  /** An inclusive range of non-negative indices inside the sequence is the plain subsequence. */
  lemma RangeSliceInside<T>(a: seq<T>, start: nat, stop: nat)
    requires start <= stop < |a|
    ensures RangeSlice(a, start, stop) == Some(a[start..stop + 1])
  {
  }

  /** A range from a non-negative start whose stop reaches the last element is the whole tail. */
  lemma RangeSliceToEnd<T>(a: seq<T>, start: nat, stop: int)
    requires start <= |a| && stop >= |a| - 1
    ensures RangeSlice(a, start, stop) == Some(a[start..])
  {
    assert a[start..] == a[start..|a|];
    if a != [] {
      assert Normalize(stop, |a|) == stop;
    }
  }

  /** The whole-sequence range `0..-1` copies the sequence. */
  lemma RangeSliceAll<T>(a: seq<T>)
    ensures RangeSlice(a, 0, -1) == Some(a)
  {
    if a != [] {
      assert a[0..|a|] == a;
    }
  }

  // ---------------------------------------------------------------------
  // Array#index and String#[]= with a string

  /** Array#index: the first position holding `x`, or nil. */
  function IndexOf<T(==)>(a: seq<T>, x: T): (r: Option<nat>)
    ensures r.None? <==> x !in a
    ensures r.Some? ==> r.value < |a| && a[r.value] == x && x !in a[..r.value]
  {
    if a == [] then None
    else if a[0] == x then Some(0)
    else match IndexOf(a[1..], x)
      case None => None
      case Some(i) => assert a[1..][..i] == a[1..i + 1]; Some(i + 1)
  }

  predicate OccursAt(t: string, s: string, i: nat)
  {
    i + |s| <= |t| && t[i..i + |s|] == s
  }

  /** The first position where `s` occurs in `t`, searching from `from`. */
  function FirstOccurrence(t: string, s: string, from: nat): (r: Option<nat>)
    requires from <= |t|
    ensures r.Some? ==> from <= r.value && OccursAt(t, s, r.value)
    ensures r.Some? ==> forall j :: from <= j < r.value ==> !OccursAt(t, s, j)
    ensures r.None? ==> forall j :: from <= j <= |t| ==> !OccursAt(t, s, j)
    decreases |t| - from
  {
    if OccursAt(t, s, from) then Some(from)
    else if from == |t| then None
    else FirstOccurrence(t, s, from + 1)
  }

  /**
   * `t[s] = v` on a String: the first occurrence of `s` is replaced by `v`;
   * when `s` does not occur Ruby raises IndexError.
   */
  function ReplaceFirst(t: string, s: string, v: string): (r: Result<string>)
    ensures r.Err? <==> forall j :: 0 <= j <= |t| ==> !OccursAt(t, s, j)
    ensures r.Ok? ==>
      exists i: nat :: OccursAt(t, s, i) && (forall j :: 0 <= j < i ==> !OccursAt(t, s, j)) && r.value == t[..i] + v + t[i + |s|..]
  {
    match FirstOccurrence(t, s, 0)
    case None => Err(RubyError("IndexError"))
    case Some(i) => Ok(t[..i] + v + t[i + |s|..])
  }

  // ---------------------------------------------------------------------
  // Array#reverse, Array#count and Array#delete

  function Reverse<T>(a: seq<T>): (r: seq<T>)
    ensures |r| == |a|
    ensures forall i :: 0 <= i < |a| ==> r[i] == a[|a| - 1 - i]
  {
    if a == [] then [] else Reverse(a[1..]) + [a[0]]
  }

  lemma {:induction false} ReverseReverse<T>(a: seq<T>)
    ensures Reverse(Reverse(a)) == a
  {
    var r := Reverse(Reverse(a));
    assert forall i :: 0 <= i < |a| ==> r[i] == a[i];
  }

  /** `a.count(x)`. */
  function Count<T(==)>(a: seq<T>, x: T): (n: nat)
    ensures n <= |a|
    ensures n == 0 <==> x !in a
  {
    if a == [] then 0 else Count(a[1..], x) + (if a[0] == x then 1 else 0)
  }

  /** `a.delete(x)`: every element equal to `x` goes, the others keep their order. */
  function Without<T(==)>(a: seq<T>, x: T): (r: seq<T>)
    ensures x !in r
    ensures forall i :: 0 <= i < |r| ==> r[i] in a
    ensures forall i :: 0 <= i < |a| && a[i] != x ==> a[i] in r
    ensures |r| == |a| - Count(a, x)
  {
    if a == [] then [] else (if a[0] == x then [] else [a[0]]) + Without(a[1..], x)
  }

  /** `xs.each { |x| a.delete(x) }`: every element equal to one of `xs` goes, the others keep their order. */
  function WithoutEach<T(==)>(a: seq<T>, xs: seq<T>): (r: seq<T>)
    ensures forall x :: x in xs ==> x !in r
    ensures forall i :: 0 <= i < |r| ==> r[i] in a
    ensures forall i :: 0 <= i < |a| && a[i] !in xs ==> a[i] in r
    decreases |xs|
  {
    if xs == [] then a
    else
      var rest := WithoutEach(Without(a, xs[0]), xs[1..]);
      assert forall x :: x in xs ==> x == xs[0] || x in xs[1..];
      rest
  }

  lemma {:induction false} CountAppend<T>(a: seq<T>, b: seq<T>, x: T)
    ensures Count(a + b, x) == Count(a, x) + Count(b, x)
  {
    if a != [] {
      assert (a + b)[1..] == a[1..] + b;
      CountAppend(a[1..], b, x);
    } else {
      assert a + b == b;
    }
  }

  lemma {:induction false} CountReverse<T>(a: seq<T>, x: T)
    ensures Count(Reverse(a), x) == Count(a, x)
  {
    if a != [] {
      CountReverse(a[1..], x);
      CountAppend(Reverse(a[1..]), [a[0]], x);
    }
  }

  lemma {:induction false} WithoutAppend<T>(a: seq<T>, b: seq<T>, x: T)
    ensures Without(a + b, x) == Without(a, x) + Without(b, x)
  {
    if a != [] {
      var head := if a[0] == x then [] else [a[0]];
      assert (a + b)[0] == a[0] && (a + b)[1..] == a[1..] + b;
      assert Without(a + b, x) == head + Without(a[1..] + b, x);
      assert Without(a, x) == head + Without(a[1..], x);
      WithoutAppend(a[1..], b, x);
      assert head + (Without(a[1..], x) + Without(b, x)) == head + Without(a[1..], x) + Without(b, x);
    } else {
      assert a + b == b;
    }
  }

  lemma ReverseAppend<T>(a: seq<T>, b: seq<T>)
    ensures Reverse(a + b) == Reverse(b) + Reverse(a)
  {
    var l, r := Reverse(a + b), Reverse(b) + Reverse(a);
    assert |l| == |r|;
    forall i | 0 <= i < |l| ensures l[i] == r[i] {
      if i < |b| {
        assert r[i] == Reverse(b)[i];
      } else {
        assert r[i] == Reverse(a)[i - |b|];
      }
    }
  }

  lemma {:induction false} WithoutReverse<T>(a: seq<T>, x: T)
    ensures Without(Reverse(a), x) == Reverse(Without(a, x))
  {
    if a != [] {
      var head := if a[0] == x then [] else [a[0]];
      WithoutReverse(a[1..], x);
      assert Reverse(a) == Reverse(a[1..]) + [a[0]];
      WithoutAppend(Reverse(a[1..]), [a[0]], x);
      assert Without([a[0]], x) == head;
      assert Without(a, x) == head + Without(a[1..], x);
      ReverseAppend(head, Without(a[1..], x));
      assert Reverse(head) == head;
    }
  }
}
