// FakeRedis::ZSet: a hash from member to score whose assignment and
// increment parse their score argument the way `_floatify` does.

module ZSets {

  import opened Common
  import opened Ruby
  import opened Ordering

  // ---------------------------------------------------------------------
  // _floatify

  /** The three letters "inf" in any case. */
  predicate IsInfWord(w: string)
  {
    |w| == 3 && LowerChar(w[0]) == 'i' && LowerChar(w[1]) == 'n' && LowerChar(w[2]) == 'f'
  }

  /** `^` matches at the start of the text and after every line feed. */
  predicate LineStart(t: string, p: nat)
  {
    p == 0 || (p <= |t| && t[p - 1] == '\n')
  }

  /**
   * Whether `[+-]?inf` matches at `p` and, if so, whether the optional sign
   * was a minus: the sign is taken when one stands before "inf".
   */
  function InfAt(t: string, p: nat): Option<bool>
  {
    if p + 4 <= |t| && (t[p] == '+' || t[p] == '-') && IsInfWord(t[p + 1..p + 4]) then Some(t[p] == '-')
    else if p + 3 <= |t| && IsInfWord(t[p..p + 3]) then Some(false)
    else None
  }

  /** The leftmost match of /^([+-])?inf/i from position `p` on. */
  function InfMatch(t: string, p: nat): (r: Option<bool>)
    ensures r.Some? ==> exists q :: p <= q <= |t| && LineStart(t, q) && InfAt(t, q) == r
    decreases |t| + 1 - p
  {
    if p > |t| then None
    else if LineStart(t, p) && InfAt(t, p).Some? then InfAt(t, p)
    else InfMatch(t, p + 1)
  }

  /** The digits of a whole number, optionally followed by a fraction made of zeros ("3", "3.0", "3.00"). */
  predicate ZeroFraction(rest: string)
  {
    rest == [] || (|rest| > 1 && rest[0] == '.' && forall i :: 1 <= i < |rest| ==> rest[i] == '0')
  }

  /** Kernel#Float on a string, for the whole numbers this model represents. */
  function ParseFloat(t: string): Result<Score>
  {
    var negative := t != [] && t[0] == '-';
    var body := if t != [] && (t[0] == '-' || t[0] == '+') then t[1..] else t;
    var ds := LeadingDigits(body);
    if ds != [] && ZeroFraction(body[|ds|..]) then
      var v: int := DigitsValue(ds);
      Ok(Fin(if negative then -v else v))
    else Err(NotAFloat)
  }

  /** `_floatify`: an "inf" at the start of a line means an infinity; anything else goes through Float(). */
  function ParseScore(raw: string): (r: Result<Score>)
    ensures r.Ok? && !r.value.Fin? <==> InfMatch(raw, 0).Some?
    ensures r.Err? ==> r.error == NotAFloat && InfMatch(raw, 0).None?
  {
    match InfMatch(raw, 0)
    case Some(negative) => Ok(if negative then NegInf else PosInf)
    case None => ParseFloat(raw)
  }

  /**
   * Float#to_s of a score: the infinities by name, a whole number as its
   * digits and ".0". Ruby prints this form only for whole floats below
   * 10^16; the model has no other.
   */
  function ScoreToString(x: Score): (r: string)
    ensures x.Fin? <==> |r| >= 2 && r[|r| - 2..] == ".0"
    ensures x.Fin? ==> ToI(r) == x.n
  {
    match x
    case NegInf => "-Infinity"
    case PosInf => "Infinity"
    case Fin(n) => ToIIgnoresTrailingText(n, ".0"); IntToString(n) + ".0"
  }

  /** Float#+; opposite infinities give NaN, which the model reports as an error. */
  function AddScores(x: Score, y: Score): (r: Result<Score>)
    ensures r.Err? <==> (x == NegInf && y == PosInf) || (x == PosInf && y == NegInf)
    ensures r.Ok? && x.Fin? && y.Fin? ==> r.value == Fin(x.n + y.n)
    ensures r.Ok? && !(x.Fin? && y.Fin?) ==> r.value == (if x.Fin? then y else x)
  {
    match (x, y)
    case (Fin(a), Fin(b)) => Ok(Fin(a + b))
    case (NegInf, PosInf) => Err(NotANumber)
    case (PosInf, NegInf) => Err(NotANumber)
    case (Fin(_), _) => Ok(y)
    case _ => Ok(x)
  }

  // ---------------------------------------------------------------------
  // Properties of _floatify

  predicate NoLineFeed(t: string)
  {
    forall i :: 0 <= i < |t| ==> t[i] != '\n'
  }

  lemma {:induction false} NoInfMatch(t: string, p: nat)
    requires NoLineFeed(t) && 0 < p
    ensures InfMatch(t, p) == None
    decreases |t| + 1 - p
  {
    if p <= |t| {
      assert !LineStart(t, p);
      NoInfMatch(t, p + 1);
    }
  }

  /** A text that has no line feed and does not start with an "inf" is parsed as a number. */
  lemma NumericText(t: string)
    requires NoLineFeed(t) && InfAt(t, 0).None?
    ensures ParseScore(t) == ParseFloat(t)
  {
    NoInfMatch(t, 1);
  }

  /** A signed run of digits with a zero fraction parses to its value. */
  lemma {:induction false} ParseDecimal(sign: string, ds: string, rest: string)
    requires sign == "" || sign == "-"
    requires ds != [] && forall i :: 0 <= i < |ds| ==> IsDigit(ds[i])
    requires ZeroFraction(rest)
    ensures ParseScore(sign + ds + rest) == Ok(Fin(if sign == "-" then 0 - DigitsValue(ds) else DigitsValue(ds)))
  {
    DecimalText(sign, ds, rest);
    NumericText(sign + ds + rest);
    DecimalFloat(sign, ds, rest);
  }

  /** The text of a signed decimal has no line feed and does not start with "inf". */
  lemma {:induction false} DecimalText(sign: string, ds: string, rest: string)
    requires sign == "" || sign == "-"
    requires ds != [] && forall i :: 0 <= i < |ds| ==> IsDigit(ds[i])
    requires ZeroFraction(rest)
    ensures NoLineFeed(sign + ds + rest) && InfAt(sign + ds + rest, 0).None?
  {
    var t := sign + ds + rest;
    assert t[|sign|] == ds[0];
    forall i | 0 <= i < |t| ensures t[i] != '\n' {
      if i < |sign| { } else if i < |sign| + |ds| { assert t[i] == ds[i - |sign|]; } else { assert t[i] == rest[i - |sign| - |ds|]; }
    }
    assert t[0] == '-' || IsDigit(t[0]);
    if |t| >= 4 && sign == "-" { assert t[1] == ds[0]; }
  }

  /** Float() of a signed decimal is its value. */
  lemma {:induction false} DecimalFloat(sign: string, ds: string, rest: string)
    requires sign == "" || sign == "-"
    requires ds != [] && forall i :: 0 <= i < |ds| ==> IsDigit(ds[i])
    requires ZeroFraction(rest)
    ensures ParseFloat(sign + ds + rest) == Ok(Fin(if sign == "-" then 0 - DigitsValue(ds) else DigitsValue(ds)))
  {
    if sign == "-" {
      assert sign + ds + rest == "-" + (ds + rest);
      NegativeDecimalFloat(ds, rest);
    } else {
      assert sign + ds + rest == ds + rest;
      PositiveDecimalFloat(ds, rest);
    }
  }

  lemma {:induction false} NegativeDecimalFloat(ds: string, rest: string)
    requires ds != [] && forall i :: 0 <= i < |ds| ==> IsDigit(ds[i])
    requires ZeroFraction(rest)
    ensures ParseFloat("-" + (ds + rest)) == Ok(Fin(0 - DigitsValue(ds)))
  {
    var body := ds + rest;
    LeadingDigitsOfPrefix(ds, rest);
    assert body[|ds|..] == rest;
    var t := "-" + body;
    assert t[1..] == body;
    UnsignedFloat(true, t);
  }

  lemma {:induction false} PositiveDecimalFloat(ds: string, rest: string)
    requires ds != [] && forall i :: 0 <= i < |ds| ==> IsDigit(ds[i])
    requires ZeroFraction(rest)
    ensures ParseFloat(ds + rest) == Ok(Fin(DigitsValue(ds)))
  {
    var body := ds + rest;
    LeadingDigitsOfPrefix(ds, rest);
    assert body[|ds|..] == rest;
    assert body[0] == ds[0];
    UnsignedFloat(false, body);
  }

  /** Float() of a text with its sign, if any, already decided. */
  lemma {:induction false} UnsignedFloat(negative: bool, t: string)
    requires t != [] && (if negative then t[0] == '-' else IsDigit(t[0]))
    ensures var body := if negative then t[1..] else t;
      var ds := LeadingDigits(body);
      ParseFloat(t) == if ds != [] && ZeroFraction(body[|ds|..]) then Ok(Fin(if negative then 0 - DigitsValue(ds) else DigitsValue(ds))) else Err(NotAFloat)
  {
  }

  /** Every integer argument becomes the score of that value. */
  lemma {:induction false} ParseIntegerScore(n: int)
    ensures ParseScore(IntToString(n)) == Ok(Fin(n))
  {
    var m: nat := if n < 0 then -n else n;
    NatToStringValue(m);
    var sign := if n < 0 then "-" else "";
    ParseDecimal(sign, NatToString(m), "");
    assert sign + NatToString(m) + "" == IntToString(n);
  }

  lemma InfinityText()
    ensures ParseScore("Infinity") == Ok(PosInf)
    ensures ParseScore("-Infinity") == Ok(NegInf)
  {
    var t := "-Infinity";
    assert IsInfWord(t[1..4]);
    assert InfAt(t, 0) == Some(true);
    assert IsInfWord("Infinity"[0..3]);
    assert InfAt("Infinity", 0) == Some(false);
  }

  /** What ZSCORE prints, ZADD reads back as the same score. */
  lemma {:induction false} ScoreRoundTrip(x: Score)
    ensures ParseScore(ScoreToString(x)) == Ok(x)
  {
    if x.Fin? {
      FiniteRoundTrip(x.n);
    } else {
      InfinityText();
    }
  }

  /** A finite score printed with its ".0" reads back as the same integer. */
  lemma {:induction false} FiniteRoundTrip(n: int)
    ensures ParseScore(IntToString(n) + ".0") == Ok(Fin(n))
  {
    var m: nat := if n < 0 then -n else n;
    NatToStringValue(m);
    if n < 0 {
      ParseDecimal("-", NatToString(m), ".0");
      assert "-" + NatToString(m) + ".0" == IntToString(n) + ".0";
    } else {
      ParseDecimal("", NatToString(m), ".0");
      assert "" + NatToString(m) + ".0" == IntToString(n) + ".0";
    }
  }

  /** "inf", "+inf" and "-inf" in any case, and anything after them, are the infinities. */
  lemma ParseInfinities(t: string)
    requires |t| >= 3 && IsInfWord(t[..3])
    ensures ParseScore(t) == Ok(PosInf)
    ensures ParseScore("+" + t) == Ok(PosInf)
    ensures ParseScore("-" + t) == Ok(NegInf)
  {
    assert ("+" + t)[1..4] == t[..3];
    assert ("-" + t)[1..4] == t[..3];
    assert t[0..3] == t[..3];
  }

  // ---------------------------------------------------------------------
  // ZSet#[]=, ZSet#increment, ZSet#select_by_score

  /** `[]=`: the member's score becomes the parsed argument; an unparsable score changes nothing. */
  function Assign(z: map<string, Score>, member: string, raw: string): (r: Result<map<string, Score>>)
    ensures r.Err? <==> ParseScore(raw).Err?
    ensures r.Ok? ==> r.value == z[member := ParseScore(raw).value]
  {
    var x :- ParseScore(raw);
    Ok(z[member := x])
  }

  /**
   * `increment`: the member's score grows by the parsed argument. A member
   * without a score makes Ruby add to nil and raise.
   */
  function Increment(z: map<string, Score>, member: string, raw: string): (r: Result<map<string, Score>>)
    ensures member !in z ==> r.Err?
    ensures r.Ok? ==> r.value.Keys == z.Keys && (forall m :: m in z && m != member ==> r.value[m] == z[m])
    ensures r.Ok? ==> ParseScore(raw).Ok? && AddScores(z[member], ParseScore(raw).value) == Ok(r.value[member])
  {
    if member !in z then Err(RubyError("NoMethodError"))
    else
      var x :- ParseScore(raw);
      var sum :- AddScores(z[member], x);
      Ok(z[member := sum])
  }

  /** Whether a score lies in the closed interval [lo, hi]. */
  predicate InRange(x: Score, lo: Score, hi: Score)
  {
    ScoreLe(lo, x) && ScoreLe(x, hi)
  }

  /** `select_by_score`: the entries whose score lies between the two parsed bounds. */
  function SelectByScore(z: map<string, Score>, rawMin: string, rawMax: string): (r: Result<map<string, Score>>)
    ensures r.Err? <==> ParseScore(rawMin).Err? || ParseScore(rawMax).Err?
    ensures r.Ok? ==> forall m :: m in r.value <==> m in z && InRange(z[m], ParseScore(rawMin).value, ParseScore(rawMax).value)
    ensures r.Ok? ==> forall m :: m in r.value ==> r.value[m] == z[m]
  {
    var lo :- ParseScore(rawMin);
    var hi :- ParseScore(rawMax);
    Ok(map m | m in z && !(ScoreLt(z[m], lo) || ScoreLt(hi, z[m])) :: z[m])
  }

  /** The bounds "-inf" and "+inf" select the whole set. */
  lemma SelectEverything(z: map<string, Score>)
    ensures SelectByScore(z, "-inf", "+inf") == Ok(z)
  {
    ParseInfinities("inf");
    assert "-" + "inf" == "-inf" && "+" + "inf" == "+inf";
    var r := SelectByScore(z, "-inf", "+inf");
    assert r.Ok?;
    assert r.value == z;
  }
}
