// The string commands: values are Ruby strings stored under a key; the bit
// commands read a string as its bytes, most significant bit first.

module StringCommands {

  import opened Common
  import opened Ruby
  import opened ExpiringHashes
  import opened CommandHelper

  // ---------------------------------------------------------------------
  // Bytes as bits (String#unpack('B*') and Integer#chr)

  function Pow2(n: nat): (r: nat)
    ensures r >= 1
  {
    if n == 0 then 1 else 2 * Pow2(n - 1)
  }

  /** The low `w` bits of `b`, most significant first. */
  function ToBits(b: nat, w: nat): (r: seq<bool>)
    ensures |r| == w
  {
    if w == 0 then [] else ToBits(b / 2, w - 1) + [b % 2 == 1]
  }

  /** A sequence of bits read as a binary number, most significant first (`to_i(2)`). */
  function FromBits(bs: seq<bool>): (r: nat)
    ensures r < Pow2(|bs|)
  {
    if bs == [] then 0 else FromBits(bs[..|bs| - 1]) * 2 + (if bs[|bs| - 1] then 1 else 0)
  }

  lemma {:induction false} FromToBits(b: nat, w: nat)
    requires b < Pow2(w)
    ensures FromBits(ToBits(b, w)) == b
  {
    if w > 0 {
      FromToBits(b / 2, w - 1);
      assert ToBits(b, w)[..w - 1] == ToBits(b / 2, w - 1);
    }
  }

  lemma {:induction false} ToFromBits(bs: seq<bool>)
    ensures ToBits(FromBits(bs), |bs|) == bs
  {
    if bs != [] {
      var n := |bs|;
      ToFromBits(bs[..n - 1]);
      assert FromBits(bs) / 2 == FromBits(bs[..n - 1]);
      assert bs == bs[..n - 1] + [bs[n - 1]];
    }
  }

  /** The byte a character stands for; the model keeps one byte per character. */
  function CharByte(c: char): nat
  {
    c as int % 256
  }

  function ByteChar(b: nat): char
    requires b < 256
  {
    b as char
  }

  /** A string whose characters are all single bytes. */
  predicate IsByteString(t: string)
  {
    forall i :: 0 <= i < |t| ==> (t[i] as int) < 256
  }

  /** `unpack('B*')`: eight bits per character. */
  function BitsOf(t: string): (r: seq<bool>)
    ensures |r| == 8 * |t|
  {
    if t == [] then [] else BitsOf(t[..|t| - 1]) + ToBits(CharByte(t[|t| - 1]), 8)
  }

  /** Rebuilding a string from its bits, eight at a time (`each_slice(8)` and `chr`). */
  function BitsToText(bs: seq<bool>): (r: string)
    requires |bs| % 8 == 0
    ensures |r| == |bs| / 8
  {
    if bs == [] then []
    else
      assert FromBits(bs[|bs| - 8..]) < 256 by { Pow2Byte(); }
      BitsToText(bs[..|bs| - 8]) + [ByteChar(FromBits(bs[|bs| - 8..]))]
  }

  lemma Pow2Byte()
    ensures Pow2(8) == 256
  {
    assert Pow2(2) == 4;
    assert Pow2(4) == 16;
    assert Pow2(6) == 64;
  }

  lemma CharOfByte(b: nat)
    requires b < 256
    ensures CharByte(ByteChar(b)) == b
  {
  }

  lemma BitsOfSnoc(t: string, c: char)
    ensures BitsOf(t + [c]) == BitsOf(t) + ToBits(CharByte(c), 8)
  {
    assert (t + [c])[..|t|] == t;
  }

  lemma BitsToTextSnoc(p: seq<bool>, q: seq<bool>)
    requires |p| % 8 == 0 && |q| == 8
    ensures FromBits(q) < 256
    ensures BitsToText(p + q) == BitsToText(p) + [ByteChar(FromBits(q))]
  {
    Pow2Byte();
    assert (p + q)[..|p|] == p;
    assert (p + q)[|p|..] == q;
  }

  lemma ByteOfChar(c: char)
    requires (c as int) < 256
    ensures CharByte(c) < 256 && ByteChar(CharByte(c)) == c
  {
  }

  /** Writing bits out as text and reading them back gives the same bits. */
  lemma {:induction false} BitsRoundTrip(bs: seq<bool>)
    requires |bs| % 8 == 0
    ensures BitsOf(BitsToText(bs)) == bs
  {
    if bs != [] {
      var n := |bs|;
      var p, q := bs[..n - 8], bs[n - 8..];
      assert bs == p + q;
      BitsToTextSnoc(p, q);
      var c := ByteChar(FromBits(q));
      BitsOfSnoc(BitsToText(p), c);
      BitsRoundTrip(p);
      CharOfByte(FromBits(q));
      ToFromBits(q);
    }
  }

  /** A string of bytes read as bits and rebuilt is the same string. */
  lemma {:induction false} TextRoundTrip(t: string)
    requires IsByteString(t)
    ensures BitsToText(BitsOf(t)) == t
  {
    if t != [] {
      var n := |t|;
      var init, c := t[..n - 1], t[n - 1];
      assert t == init + [c];
      assert IsByteString(init) by {
        forall i | 0 <= i < |init| ensures (init[i] as int) < 256 { assert init[i] == t[i]; }
      }
      TextRoundTrip(init);
      BitsOfSnoc(init, c);
      BitsToTextSnoc(BitsOf(init), ToBits(CharByte(c), 8));
      Pow2Byte();
      FromToBits(CharByte(c), 8);
      assert (t[n - 1] as int) < 256;
      ByteOfChar(c);
    }
  }

  /** The bits of a character sit at positions 8i to 8i+7, the most significant first. */
  lemma {:induction false} BitsOfChar(t: string, i: nat)
    requires i < |t|
    ensures BitsOf(t)[8 * i..8 * i + 8] == ToBits(CharByte(t[i]), 8)
    ensures FromBits(BitsOf(t)[8 * i..8 * i + 8]) == CharByte(t[i])
  {
    BitsOfCharSlice(t, i);
    Pow2Byte();
    FromToBits(CharByte(t[i]), 8);
  }

  lemma {:induction false} BitsOfCharSlice(t: string, i: nat)
    requires i < |t|
    ensures BitsOf(t)[8 * i..8 * i + 8] == ToBits(CharByte(t[i]), 8)
  {
    var n := |t|;
    var init := t[..n - 1];
    var last := ToBits(CharByte(t[n - 1]), 8);
    assert BitsOf(t) == BitsOf(init) + last;
    if i < n - 1 {
      BitsOfCharSlice(init, i);
      assert init[i] == t[i];
      assert (BitsOf(init) + last)[8 * i..8 * i + 8] == BitsOf(init)[8 * i..8 * i + 8];
    } else {
      assert (BitsOf(init) + last)[8 * i..8 * i + 8] == last;
    }
  }

  function CountOnes(bs: seq<bool>): (r: nat)
    ensures r <= |bs|
  {
    if bs == [] then 0 else CountOnes(bs[1..]) + (if bs[0] then 1 else 0)
  }

  // ---------------------------------------------------------------------
  // The bit commands as functions of the stored text

  /** GETBIT on a stored string: bit `offset` (negative counts from the end), 0 past the end. */
  function BitAt(t: string, offset: int): (r: int)
    ensures r == 0 || r == 1
    ensures offset >= 8 * |t| ==> r == 0
    ensures 0 <= offset < 8 * |t| ==> (r == 1 <==> BitsOf(t)[offset])
  {
    match At(BitsOf(t), offset)
    case None => 0
    case Some(b) => if b then 1 else 0
  }

  /** The bits SETBIT edits: the old bits padded with zero bytes until byte `offset/8` exists. */
  function PaddedBits(t: string, offset: int): (r: seq<bool>)
    ensures |r| % 8 == 0 && |r| == Max(8 * |t|, (offset / 8 + 1) * 8)
    ensures r[..8 * |t|] == BitsOf(t)
    ensures forall i :: 8 * |t| <= i < |r| ==> !r[i]
  {
    var bits := BitsOf(t);
    bits + seq(Max((offset / 8 + 1) * 8 - |bits|, 0), _ => false)
  }

  /**
   * SETBIT on the stored text: the new text and the previous bit, or the
   * IndexError Ruby raises for a negative offset before the first bit.
   */
  function SetBitText(t: string, offset: int, bit: bool): (r: Result<(string, bool)>)
    ensures r.Err? <==> Normalize(offset, |PaddedBits(t, offset)|) < 0
  {
    var bits := PaddedBits(t, offset);
    var j := Normalize(offset, |bits|);
    if j < 0 then Err(RubyError("IndexError"))
    else
      assert j < |bits|;
      Ok((BitsToText(bits[j := bit]), bits[j]))
  }

  /** SETBIT answers the previous bit, and GETBIT then reads the bit just written. */
  lemma SetBitThenGetBit(t: string, offset: nat, bit: bool)
    ensures SetBitText(t, offset, bit).Ok?
    ensures SetBitText(t, offset, bit).value.1 == (BitAt(t, offset) == 1)
    ensures BitAt(SetBitText(t, offset, bit).value.0, offset) == (if bit then 1 else 0)
  {
    var bits := PaddedBits(t, offset);
    BitsRoundTrip(bits[offset := bit]);
    if offset < 8 * |t| {
      assert bits[offset] == bits[..8 * |t|][offset];
    }
  }

  /** SETBIT changes no other bit of a string of bytes and grows it only up to byte `offset/8`. */
  lemma SetBitKeepsOtherBits(t: string, offset: nat, bit: bool, other: nat)
    requires other != offset
    ensures SetBitText(t, offset, bit).Ok?
    ensures |SetBitText(t, offset, bit).value.0| == Max(|t|, offset / 8 + 1)
    ensures BitAt(SetBitText(t, offset, bit).value.0, other) == BitAt(t, other)
  {
    var bits := PaddedBits(t, offset);
    var edited := bits[offset := bit];
    var u := BitsToText(edited);
    assert SetBitText(t, offset, bit) == Ok((u, bits[offset]));
    BitsRoundTrip(edited);
    var m := offset / 8 + 1;
    assert |bits| == 8 * Max(|t|, m);
    assert |u| == Max(|t|, m);
    if other < |bits| {
      assert edited[other] == bits[other];
      if other < 8 * |t| {
        assert bits[other] == bits[..8 * |t|][other];
      } else {
        assert !bits[other];
      }
    }
  }

  /**
   * BITCOUNT as written: the default end is the length in characters, but
   * the range is applied to the bit string, so it counts bits, not bytes.
   */
  function BitCountAsWritten(t: string, start: int, ending: Option<int>): Result<int>
  {
    var e := if ending.Some? then ending.value else |t|;
    match RangeSlice(BitsOf(t), start, e)
    case None => Err(RubyError("NoMethodError"))
    case Some(bs) => Ok(CountOnes(bs))
  }

  /** BITCOUNT with the range applied to the bytes, as the default end in bytes implies. */
  function BitCountText(t: string, start: int, ending: Option<int>): Result<int>
  {
    var e := if ending.Some? then ending.value else |t|;
    match RangeSlice(t, start, e)
    case None => Err(RubyError("NoMethodError"))
    case Some(bytes) => Ok(CountOnes(BitsOf(bytes)))
  }

  /** Without a range the corrected count is the number of set bits of the whole string. */
  lemma BitCountWhole(t: string)
    ensures BitCountText(t, 0, None) == Ok(CountOnes(BitsOf(t)))
  {
    RangeSliceToEnd(t, 0, |t|);
    assert t[0..] == t;
  }

  lemma BitsOfA()
    ensures BitsOf("a") == [false, true, true, false, false, false, false, true]
  {
    assert CharByte('a') == 97;
    BitsOfSnoc("", 'a');
    assert "" + ['a'] == "a";
    BitsOf97();
  }

  lemma BitsOf97()
    ensures ToBits(97, 8) == [false, true, true, false, false, false, false, true]
  {
    assert ToBits(0, 1) == [false];
    assert ToBits(1, 2) == [false, true];
    assert ToBits(3, 3) == [false, true, true];
    assert ToBits(6, 4) == [false, true, true, false];
    assert ToBits(12, 5) == [false, true, true, false, false];
    assert ToBits(24, 6) == [false, true, true, false, false, false];
    assert ToBits(48, 7) == [false, true, true, false, false, false, false];
  }

  /** As written, "a" (bits 01100001) counts only its first two bits: 1 instead of 3. */
  lemma BitCountAsWrittenCounterexample()
    ensures BitCountAsWritten("a", 0, None) == Ok(1)
    ensures BitCountText("a", 0, None) == Ok(3)
  {
    var bits := BitsOf("a");
    BitsOfA();
    RangeSliceInside(bits, 0, 1);
    assert bits[0..2] == [false, true];
    assert CountOnes([true]) == 1;
    assert CountOnes([false, true]) == 1;
    assert CountOnes(bits[7..]) == 1;
    assert CountOnes(bits[5..]) == 1;
    assert CountOnes(bits[3..]) == 1;
    assert CountOnes(bits[2..]) == 2;
    assert CountOnes(bits) == 3;
    BitCountWhole("a");
  }

  // ---------------------------------------------------------------------
  // SETRANGE

  /**
   * SETRANGE as written: it takes the substring at the offset and replaces
   * the FIRST occurrence of that substring, wherever it is.
   */
  function SetRangeAsWritten(t: string, offset: int, value: string): Result<string>
  {
    match StartLength(t, offset, |value|)
    case None => Err(RubyError("TypeError"))
    case Some(s) => ReplaceFirst(t, s, value)
  }

  /** SETRANGE overwriting the text at the offset itself. */
  function SetRangeText(t: string, offset: int, value: string): (r: Result<string>)
    ensures r.Err? <==> offset > |t| || offset < -|t|
  {
    match StartLength(t, offset, |value|)
    case None => Err(RubyError("TypeError"))
    case Some(s) =>
      var j := Normalize(offset, |t|);
      Ok(t[..j] + value + t[j + |s|..])
  }

  /** The corrected SETRANGE keeps the text before the offset, writes the value there, and keeps the rest. */
  lemma SetRangeOverwrites(t: string, offset: nat, value: string)
    requires offset <= |t|
    ensures SetRangeText(t, offset, value).Ok?
    ensures var r := SetRangeText(t, offset, value).value;
      |r| == Max(|t|, offset + |value|) &&
      r[..offset] == t[..offset] &&
      r[offset..offset + |value|] == value &&
      forall i :: offset + |value| <= i < |t| ==> r[i] == t[i]
  {
  }

  /** As written, SETRANGE "aaaa" 2 "bb" rewrites the first two characters instead of the last two. */
  lemma SetRangeAsWrittenCounterexample()
    ensures SetRangeAsWritten("aaaa", 2, "bb") == Ok("bbaa")
    ensures SetRangeText("aaaa", 2, "bb") == Ok("aabb")
  {
    assert "aaaa"[2..4] == "aa";
    assert StartLength("aaaa", 2, 2) == Some("aa");
    assert "aaaa"[..0] + "bb" + "aaaa"[2..] == "bbaa";
    assert "aaaa"[..2] + "bb" + "aaaa"[4..] == "aabb";
    assert OccursAt("aaaa", "aa", 0);
    assert FirstOccurrence("aaaa", "aa", 0) == Some(0);
  }

  // ---------------------------------------------------------------------
  // MSET

  /** The stores after assigning each key/value pair of a flat list in turn. */
  function AssignPairs(s: Store, kvs: seq<string>): Store
    requires |kvs| % 2 == 0
    decreases |kvs|
  {
    if kvs == [] then s else AssignPairs(Assign(s, kvs[0], StrVal(kvs[1])), kvs[2..])
  }

  /** The value the last pair for `k` in a flat list gives it, if any pair does. */
  function LastFor(kvs: seq<string>, k: Key): Option<string>
    requires |kvs| % 2 == 0
    decreases |kvs|
  {
    if kvs == [] then None
    else match LastFor(kvs[2..], k)
      case Some(v) => Some(v)
      case None => if kvs[0] == k then Some(kvs[1]) else None
  }

  /** After MSET every key reads the last value given for it; other keys read as before. */
  lemma {:induction false} AssignPairsRead(s: Store, kvs: seq<string>, k: Key, now: Time)
    requires |kvs| % 2 == 0
    ensures Read(AssignPairs(s, kvs), k, now) == match LastFor(kvs, k) case Some(v) => Some(StrVal(v)) case None => Read(s, k, now)
    decreases |kvs|
  {
    if kvs != [] {
      AssignPairsRead(Assign(s, kvs[0], StrVal(kvs[1])), kvs[2..], k, now);
      AssignRead(s, kvs[0], StrVal(kvs[1]), now, k);
    }
  }

  /** The keys of a flat key/value list: its even positions stringified. */
  function EvenItems(kvs: seq<string>): (r: seq<Key>)
    ensures |r| == (|kvs| + 1) / 2
    ensures forall i :: 0 <= i < |r| ==> r[i] == kvs[2 * i]
    decreases |kvs|
  {
    if kvs == [] then []
    else
      var tail := if |kvs| >= 2 then kvs[2..] else [];
      var rest := EvenItems(tail);
      var r := [kvs[0]] + rest;
      assert forall i :: 0 < i < |r| ==> r[i] == rest[i - 1] == tail[2 * i - 2] == kvs[2 * i];
      r
  }

  /** The position of the first live key of a sequence. */
  function FirstLive(s: Store, keys: seq<Key>, now: Time): (r: Option<nat>)
    ensures r.Some? ==> r.value < |keys| && Read(s, keys[r.value], now).Some?
    ensures r.Some? ==> forall i :: 0 <= i < r.value ==> Read(s, keys[i], now).None?
    ensures r.None? ==> forall i :: 0 <= i < |keys| ==> Read(s, keys[i], now).None?
  {
    if keys == [] then None
    else if Read(s, keys[0], now).Some? then Some(0)
    else match FirstLive(s, keys[1..], now)
      case None => None
      case Some(i) => Some(i + 1)
  }

  // ---------------------------------------------------------------------
  // Commands

  /** Ruby's `+` on a stored object that is not a string raises. */
  function PlusError(v: Value): Error
  {
    match v
    case ListVal(_) => RubyError("TypeError")
    case SetVal(_) => RubyError("ArgumentError")
    case _ => RubyError("NoMethodError")
  }

  /** The reply of `Append` and the store it leaves, given the store before. */
  ghost predicate AppendOutcome(s: Store, key: Key, value: string, now: Time, s': Store, r: Result<Reply>)
  {
    var cur := Read(s, key, now);
    var base := if cur.Some? then cur.value else StrVal("");
    if base.StrVal? then
      r == Ok(Bulk(base.text + value)) && s' == Assign(s, key, StrVal(base.text + value))
    else
      r == Err(PlusError(base)) && s' == Assign(s, key, base)
  }

  /**
   * APPEND: the key is first re-assigned its own value (or "") — which
   * clears its expiry — and then the text is appended.
   */
  method Append(db: ExpiringHash, key: Key, value: string, now: Time) returns (r: Result<Reply>)
    modifies db
    ensures AppendOutcome(old(db.State()), key, value, now, db.State(), r)
  {
    ghost var s0 := db.State();
    var cur := db.Get(key, now);
    var base := if cur.Some? then cur.value else StrVal("");
    db.Put(key, base);
    AssignAbsorbsPurge(s0, key, base, now);
    if !base.StrVal? {
      r := Err(PlusError(base));
      return;
    }
    var t := base.text + value;
    db.Put(key, StrVal(t));
    assert Assign(Assign(s0, key, base), key, StrVal(t)).data == Assign(s0, key, StrVal(t)).data;
    r := Ok(Bulk(t));
  }

  /** The reply of `GetBit` and the store it leaves, given the store before. */
  ghost predicate GetBitOutcome(s: Store, key: Key, offset: int, now: Time, s': Store, r: Result<Reply>)
  {
    (s' == Purge(s, key, now)) &&
    (r == match Read(s, key, now)
      case None => Ok(Nil)
      case Some(StrVal(t)) => Ok(Int(BitAt(t, offset)))
      case Some(_) => Err(RubyError("NoMethodError")))
  }

  /** GETBIT: nil for an absent key; a non-string cannot be unpacked. */
  method GetBit(db: ExpiringHash, key: Key, offset: int, now: Time) returns (r: Result<Reply>)
    modifies db
    ensures GetBitOutcome(old(db.State()), key, offset, now, db.State(), r)
  {
    var cur := db.Get(key, now);
    match cur
    case None => r := Ok(Nil);
    case Some(StrVal(t)) => r := Ok(Int(BitAt(t, offset)));
    case Some(_) => r := Err(RubyError("NoMethodError"));
  }

  /** The reply of `MGet` and the store it leaves, given the store before. */
  ghost predicate MGetOutcome(s: Store, keys: seq<Key>, wrapped: bool, now: Time, s': Store, r: Result<Reply>)
  {
    (keys == [] && !wrapped ==> r == Err(WrongArgCount("mget")) && s' == s) &&
    (keys != [] || wrapped ==> r.Ok? && r.value.Array? && |r.value.items| == |keys|) &&
    (keys != [] || wrapped ==> forall i :: 0 <= i < |keys| ==> r.value.items[i] == ValueReply(Read(s, keys[i], now))) &&
    (keys != [] || wrapped ==> s' == PurgeKeys(s, KeySet(keys), now))
  }

  /**
   * MGET: one entry per key, in order, nil for missing keys. `wrapped` says the
   * keys came as one array argument; only an empty bare argument list is an
   * argument error, so an empty array answers the empty list.
   */
  method MGet(db: ExpiringHash, keys: seq<Key>, wrapped: bool, now: Time) returns (r: Result<Reply>)
    modifies db
    ensures MGetOutcome(old(db.State()), keys, wrapped, now, db.State(), r)
  {
    if keys == [] && !wrapped {
      return Err(WrongArgCount("mget"));
    }
    var vs := db.ValuesAt(keys, now);
    r := Ok(Array(seq(|vs|, i requires 0 <= i < |vs| => ValueReply(vs[i]))));
  }

  /** The reply of `SetEx` and the store it leaves, given the store before. */
  ghost predicate SetExOutcome(s: Store, key: Key, seconds: int, value: string, now: Time, s': Store, r: Result<Reply>)
  {
    (r == Ok(Bulk("OK"))) &&
    (s' == SetExpiry(Assign(s, key, StrVal(value)), key, now + seconds))
  }

  /** SETEX: SET, then an expiry `seconds` from now. */
  method SetEx(db: ExpiringHash, key: Key, seconds: int, value: string, now: Time) returns (r: Result<Reply>)
    modifies db
    ensures SetExOutcome(old(db.State()), key, seconds, value, now, db.State(), r)
  {
    db.Put(key, StrVal(value));
    db.ExpireAt(key, now + seconds);
    r := Ok(Bulk("OK"));
  }

  /** The reply of `GetRange` and the store it leaves, given the store before. */
  ghost predicate GetRangeOutcome(s: Store, key: Key, start: int, ending: int, now: Time, s': Store, r: Result<Reply>)
  {
    (s' == Purge(s, key, now)) &&
    (r == match Read(s, key, now)
      case None => Ok(Nil)
      case Some(StrVal(t)) => Ok(match RangeSlice(t, start, ending) case None => Nil case Some(u) => Bulk(u))
      case Some(ListVal(xs)) => Ok(match RangeSlice(xs, start, ending) case None => Nil case Some(ys) => Array(BulkAll(ys)))
      case Some(SetVal(_)) => Err(RubyError("NoMethodError"))
      case Some(_) => Ok(Nil))
  }

  /** GETRANGE: an inclusive slice of a string, or of a list; nil past the end or for a hash. */
  method GetRange(db: ExpiringHash, key: Key, start: int, ending: int, now: Time) returns (r: Result<Reply>)
    modifies db
    ensures GetRangeOutcome(old(db.State()), key, start, ending, now, db.State(), r)
  {
    var cur := db.Get(key, now);
    match cur
    case None => r := Ok(Nil);
    case Some(StrVal(t)) =>
      r := Ok(match RangeSlice(t, start, ending) case None => Nil case Some(u) => Bulk(u));
    case Some(ListVal(xs)) =>
      r := Ok(match RangeSlice(xs, start, ending) case None => Nil case Some(ys) => Array(BulkAll(ys)));
    case Some(SetVal(_)) => r := Err(RubyError("NoMethodError"));
    case Some(_) => r := Ok(Nil);
  }

  /** The reply of `MSet` and the store it leaves, given the store before. */
  ghost predicate MSetOutcome(s: Store, pairs: seq<string>, s': Store, r: Result<Reply>)
  {
    (pairs == [] || |pairs| % 2 == 1 ==> r == Err(WrongArgCount("mset")) && s' == s) &&
    (pairs != [] && |pairs| % 2 == 0 ==> r == Ok(Bulk("OK")) && s' == AssignPairs(s, pairs))
  }

  /** MSET: an empty or odd-length list is an argument error; otherwise every pair is assigned in order. */
  method MSet(db: ExpiringHash, pairs: seq<string>) returns (r: Result<Reply>)
    modifies db
    ensures MSetOutcome(old(db.State()), pairs, db.State(), r)
  {
    if pairs == [] || |pairs| % 2 == 1 {
      return Err(WrongArgCount("mset"));
    }
    ghost var s0 := db.State();
    var i := 0;
    while i < |pairs|
      invariant 0 <= i <= |pairs| && i % 2 == 0
      invariant AssignPairs(db.State(), pairs[i..]) == AssignPairs(s0, pairs)
    {
      assert pairs[i..][2..] == pairs[i + 2..];
      db.Put(pairs[i], StrVal(pairs[i + 1]));
      i := i + 2;
    }
    r := Ok(Bulk("OK"));
  }

  /** The reply of `SetNx` and the store it leaves, given the store before. */
  ghost predicate SetNxOutcome(s: Store, key: Key, value: string, now: Time, s': Store, r: Result<Reply>)
  {
    (Read(s, key, now).Some? ==> r == Ok(Bool(false)) && s' == Purge(s, key, now)) &&
    (Read(s, key, now).None? ==> r == Ok(Bool(true)) && s' == Assign(s, key, StrVal(value)))
  }

  /** SETNX: an existing value stays and the answer is false; otherwise SET and true. */
  method SetNx(db: ExpiringHash, key: Key, value: string, now: Time) returns (r: Result<Reply>)
    modifies db
    ensures SetNxOutcome(old(db.State()), key, value, now, db.State(), r)
  {
    ghost var s0 := db.State();
    var present := db.HasKey(key, now);
    if present {
      r := Ok(Bool(false));
    } else {
      db.Put(key, StrVal(value));
      AssignAbsorbsPurge(s0, key, StrVal(value), now);
      r := Ok(Bool(true));
    }
  }

  /** The reply of `GetSet` and the store it leaves, given the store before. */
  ghost predicate GetSetOutcome(s: Store, key: Key, value: string, now: Time, s': Store, r: Result<Reply>)
  {
    var cur := Read(s, key, now);
    if Conforms(cur, StringKind) then r == Ok(ValueReply(cur)) && s' == Assign(s, key, StrVal(value))
    else r == Err(WrongType) && s' == Purge(s, key, now)
  }

  /** GETSET: the previous string (or nil) is answered and the new one stored in its place. */
  method GetSet(db: ExpiringHash, key: Key, value: string, now: Time) returns (r: Result<Reply>)
    modifies db
    ensures GetSetOutcome(old(db.State()), key, value, now, db.State(), r)
  {
    ghost var s0 := db.State();
    var cur := CheckType(db, key, StringKind, now);
    if cur.Err? {
      return Err(cur.error);
    }
    db.Put(key, StrVal(value));
    AssignAbsorbsPurge(s0, key, StrVal(value), now);
    r := Ok(ValueReply(cur.value));
  }

  /**
   * `keys.any? { |key| data.key?(key) }`: the keys are looked up in order,
   * each lookup purging that key, until the first live one.
   */
  method AnyLive(db: ExpiringHash, keys: seq<Key>, now: Time) returns (found: Option<nat>)
    modifies db
    ensures found == FirstLive(old(db.State()), keys, now)
    ensures found.Some? ==> db.State() == PurgeKeys(old(db.State()), KeySet(keys[..found.value + 1]), now)
    ensures found.None? ==> db.State() == PurgeKeys(old(db.State()), KeySet(keys), now)
  {
    ghost var s0 := db.State();
    PurgeKeysNone(s0, now);
    assert KeySet(keys[..0]) == {};
    var i := 0;
    while i < |keys|
      invariant 0 <= i <= |keys|
      invariant db.State() == PurgeKeys(s0, KeySet(keys[..i]), now)
      invariant forall j :: 0 <= j < i ==> Read(s0, keys[j], now).None?
    {
      var present := LiveNext(db, s0, keys, i, now);
      if present {
        FirstLiveIs(s0, keys, now, i);
        return Some(i);
      }
      i := i + 1;
    }
    assert keys[..i] == keys;
    found := None;
  }

  /** One turn of the loop above: the lookup of key `i`, once the keys before it are looked up. */
  method LiveNext(db: ExpiringHash, ghost s0: Store, keys: seq<Key>, i: nat, now: Time) returns (present: bool)
    requires i < |keys| && db.State() == PurgeKeys(s0, KeySet(keys[..i]), now)
    modifies db
    ensures db.State() == PurgeKeys(s0, KeySet(keys[..i + 1]), now)
    ensures present == Read(s0, keys[i], now).Some?
  {
    PurgeKeysStep(s0, KeySet(keys[..i]), keys[i], now);
    PurgeKeysInvisible(s0, KeySet(keys[..i]), now, keys[i]);
    KeySetSnoc(keys, i);
    present := db.HasKey(keys[i], now);
  }

  lemma {:induction false} FirstLiveIs(s: Store, keys: seq<Key>, now: Time, i: nat)
    requires i < |keys| && Read(s, keys[i], now).Some?
    requires forall j :: 0 <= j < i ==> Read(s, keys[j], now).None?
    ensures FirstLive(s, keys, now) == Some(i)
  {
    if i > 0 {
      FirstLiveIs(s, keys[1..], now, i - 1);
    }
  }

  /** The reply of `MSetNx` and the store it leaves, given the store before. */
  ghost predicate MSetNxOutcome(s: Store, pairs: seq<string>, now: Time, s': Store, r: Result<Reply>)
  {
    var keys := EvenItems(pairs);
    match FirstLive(s, keys, now)
    case Some(j) =>
      r == Ok(Bool(false)) && s' == PurgeKeys(s, KeySet(keys[..j + 1]), now)
    case None =>
      var purged := PurgeKeys(s, KeySet(keys), now);
      if pairs == [] || |pairs| % 2 == 1 then r == Err(WrongArgCount("mset")) && s' == purged
      else r == Ok(Bool(true)) && s' == AssignPairs(purged, pairs)
  }

  /**
   * MSETNX: false, writing nothing, as soon as one of the keys exists (the
   * keys after it are not even looked up); otherwise MSET and true.
   */
  method MSetNx(db: ExpiringHash, pairs: seq<string>, now: Time) returns (r: Result<Reply>)
    modifies db
    ensures MSetNxOutcome(old(db.State()), pairs, now, db.State(), r)
  {
    var keys := EvenItems(pairs);
    var found := AnyLive(db, keys, now);
    if found.Some? {
      return Ok(Bool(false));
    }
    var m := MSet(db, pairs);
    if m.Err? {
      return m;
    }
    r := Ok(Bool(true));
  }

  /** What Ruby raises when SETRANGE finds something other than a string. */
  function SliceAssignError(v: Value): Error
  {
    match v
    case ListVal(_) => RubyError("TypeError")
    case SetVal(_) => RubyError("NoMethodError")
    case _ => RubyError("ArgumentError")
  }

  /** The reply of `SetRange` and the store it leaves, given the store before. */
  ghost predicate SetRangeOutcome(s: Store, key: Key, offset: int, value: string, now: Time, s': Store, r: Result<Reply>)
  {
    match Read(s, key, now)
    case None => r == Ok(Nil) && s' == Purge(s, key, now)
    case Some(StrVal(t)) =>
      (match SetRangeText(t, offset, value)
       case Err(e) => r == Err(e) && s' == Purge(s, key, now)
       case Ok(u) => r == Ok(Bulk(value)) && s' == Mutate(Purge(s, key, now), key, StrVal(u)))
    case Some(v) => r == Err(SliceAssignError(v)) && s' == Purge(s, key, now)
  }

  /** SETRANGE: nil for an absent key; the stored string is edited in place, keeping its expiry. */
  method SetRange(db: ExpiringHash, key: Key, offset: int, value: string, now: Time) returns (r: Result<Reply>)
    modifies db
    ensures SetRangeOutcome(old(db.State()), key, offset, value, now, db.State(), r)
  {
    var cur := db.Get(key, now);
    match cur
    case None => r := Ok(Nil);
    case Some(StrVal(t)) =>
      var u := SetRangeText(t, offset, value);
      if u.Err? {
        r := Err(u.error);
      } else {
        db.Update(key, StrVal(u.value));
        r := Ok(Bulk(value));
      }
    case Some(v) => r := Err(SliceAssignError(v));
  }

  /** The reply of `IncrBy` and the store it leaves, given the store before. */
  ghost predicate IncrByOutcome(s: Store, key: Key, delta: int, now: Time, s': Store, r: Result<Reply>)
  {
    match Read(s, key, now)
    case None => r == Ok(Int(delta)) && s' == Mutate(Purge(s, key, now), key, StrVal(IntToString(delta)))
    case Some(StrVal(t)) =>
      r == Ok(Int(ToI(t) + delta)) && s' == Mutate(Purge(s, key, now), key, StrVal(IntToString(ToI(t) + delta)))
    case Some(_) => r == Err(RubyError("NoMethodError")) && s' == Purge(s, key, now)
  }

  /**
   * INCR, INCRBY, DECR and DECRBY: the old value read with to_i (an absent
   * key is 0) moves by `delta`, is stored as a decimal string with merge! —
   * which keeps the expiry — and is answered as an integer.
   */
  method IncrBy(db: ExpiringHash, key: Key, delta: int, now: Time) returns (r: Result<Reply>)
    modifies db
    ensures IncrByOutcome(old(db.State()), key, delta, now, db.State(), r)
  {
    var cur := db.Get(key, now);
    // `data[key].to_i` reads back the sum just stored (Ruby.ToIRoundTrip).
    match cur {
      case None =>
        db.Update(key, StrVal(IntToString(delta)));
        r := Ok(Int(delta));
      case Some(StrVal(t)) =>
        var sum := ToI(t) + delta;
        db.Update(key, StrVal(IntToString(sum)));
        r := Ok(Int(sum));
      case Some(_) =>
        r := Err(RubyError("NoMethodError"));
    }
  }

  /** The reply of `StrLen` and the store it leaves, given the store before. */
  ghost predicate StrLenOutcome(s: Store, key: Key, now: Time, s': Store, r: Result<Reply>)
  {
    (s' == Purge(s, key, now)) &&
    (r == match Read(s, key, now)
      case None => Ok(Nil)
      case Some(StrVal(t)) => Ok(Int(|t|))
      case Some(ListVal(xs)) => Ok(Int(|xs|))
      case Some(SetVal(m)) => Ok(Int(|m|))
      case Some(HashVal(h)) => Ok(Int(|h|))
      case Some(ZSetVal(z)) => Ok(Int(|z|)))
  }

  /** STRLEN: nil for an absent key, otherwise the size of whatever is stored. */
  method StrLen(db: ExpiringHash, key: Key, now: Time) returns (r: Result<Reply>)
    modifies db
    ensures StrLenOutcome(old(db.State()), key, now, db.State(), r)
  {
    var cur := db.Get(key, now);
    match cur
    case None => r := Ok(Nil);
    case Some(StrVal(t)) => r := Ok(Int(|t|));
    case Some(ListVal(xs)) => r := Ok(Int(|xs|));
    case Some(SetVal(m)) => r := Ok(Int(|m|));
    case Some(HashVal(h)) => r := Ok(Int(|h|));
    case Some(ZSetVal(z)) => r := Ok(Int(|z|));
  }

  /** The reply of `Set` and the store it leaves, given the store before. */
  ghost predicate SetOutcome(s: Store, key: Key, value: string, s': Store, r: Result<Reply>)
  {
    r == Ok(Bulk("OK")) && s' == Assign(s, key, StrVal(value))
  }

  /** SET: the key holds the string and has no expiry. */
  method Set(db: ExpiringHash, key: Key, value: string) returns (r: Result<Reply>)
    modifies db
    ensures SetOutcome(old(db.State()), key, value, db.State(), r)
  {
    db.Put(key, StrVal(value));
    r := Ok(Bulk("OK"));
  }

  /** The reply of `Get` and the store it leaves, given the store before. */
  ghost predicate GetOutcome(s: Store, key: Key, now: Time, s': Store, r: Result<Reply>)
  {
    (s' == Purge(s, key, now)) &&
    (var cur := Read(s, key, now);
      r == if Conforms(cur, StringKind) then Ok(ValueReply(cur)) else Err(WrongType))
  }

  /** GET: the string or nil; any other kind is WRONGTYPE. */
  method Get(db: ExpiringHash, key: Key, now: Time) returns (r: Result<Reply>)
    modifies db
    ensures GetOutcome(old(db.State()), key, now, db.State(), r)
  {
    var cur := CheckType(db, key, StringKind, now);
    if cur.Err? {
      return Err(cur.error);
    }
    r := Ok(ValueReply(cur.value));
  }

  /** The reply of `SetBit` and the store it leaves, given the store before. */
  ghost predicate SetBitOutcome(s: Store, key: Key, offset: int, bit: bool, now: Time, s': Store, r: Result<Reply>)
  {
    var cur := Read(s, key, now);
    if cur.Some? && !cur.value.StrVal? then
      r == Err(RubyError("NoMethodError")) && s' == Purge(s, key, now)
    else
      match SetBitText(if cur.Some? then cur.value.text else "", offset, bit)
      case Err(e) => r == Err(e) && s' == Purge(s, key, now)
      case Ok((u, was)) => r == Ok(Bulk(if was then "1" else "0")) && s' == Assign(s, key, StrVal(u))
  }

  /**
   * SETBIT: the bits are padded, bit `offset` is replaced, and the string is
   * rebuilt byte by byte and assigned (clearing the expiry). The previous
   * bit is answered as the string "0" or "1".
   */
  method SetBit(db: ExpiringHash, key: Key, offset: int, bit: bool, now: Time) returns (r: Result<Reply>)
    modifies db
    ensures SetBitOutcome(old(db.State()), key, offset, bit, now, db.State(), r)
  {
    ghost var s0 := db.State();
    var cur := db.Get(key, now);
    if cur.Some? && !cur.value.StrVal? {
      return Err(RubyError("NoMethodError"));
    }
    var t := if cur.Some? then cur.value.text else "";
    var bits := PaddedBits(t, offset);
    var j := Normalize(offset, |bits|);
    if j < 0 {
      return Err(RubyError("IndexError"));
    }
    var original := bits[j];
    var text := Rebuild(bits[j := bit]);
    db.Put(key, StrVal(text));
    AssignAbsorbsPurge(s0, key, StrVal(text), now);
    r := Ok(Bulk(if original then "1" else "0"));
  }

  /** `each_slice(8) { |b| new_val = new_val + b.join("").to_i(2).chr }`. */
  method Rebuild(bits: seq<bool>) returns (text: string)
    requires |bits| % 8 == 0
    ensures text == BitsToText(bits)
  {
    text := "";
    var j := 0;
    while j < |bits|
      invariant 0 <= j <= |bits| && j % 8 == 0
      invariant text == BitsToText(bits[..j])
    {
      WholeByteLeft(|bits|, j);
      RebuildStep(bits, j);
      text := text + [ByteChar(FromBits(bits[j..j + 8]))];
      j := j + 8;
    }
    assert bits[..j] == bits;
  }

  lemma WholeByteLeft(n: int, j: int)
    requires n % 8 == 0 && j % 8 == 0 && j < n
    ensures j + 8 <= n
  {
  }

  lemma RebuildStep(bits: seq<bool>, j: nat)
    requires j % 8 == 0 && j + 8 <= |bits|
    ensures FromBits(bits[j..j + 8]) < 256
    ensures BitsToText(bits[..j + 8]) == BitsToText(bits[..j]) + [ByteChar(FromBits(bits[j..j + 8]))]
  {
    var byte := bits[j..j + 8];
    assert bits[..j + 8] == bits[..j] + byte;
    BitsToTextSnoc(bits[..j], byte);
  }

  /** The reply of `BitCount` and the store it leaves, given the store before. */
  ghost predicate BitCountOutcome(s: Store, key: Key, start: int, ending: Option<int>, now: Time, s': Store, r: Result<Reply>)
  {
    (s' == Purge(s, key, now)) &&
    (r == match Read(s, key, now)
      case None => Ok(Int(0))
      case Some(StrVal(t)) => (match BitCountText(t, start, ending) case Ok(n) => Ok(Int(n)) case Err(e) => Err(e))
      case Some(_) => Err(RubyError("NoMethodError")))
  }

  /** BITCOUNT: 0 for an absent key; the set bits of the byte range (see BitCountText). */
  method BitCount(db: ExpiringHash, key: Key, start: int, ending: Option<int>, now: Time) returns (r: Result<Reply>)
    modifies db
    ensures BitCountOutcome(old(db.State()), key, start, ending, now, db.State(), r)
  {
    var cur := db.Get(key, now);
    match cur
    case None => r := Ok(Int(0));
    case Some(StrVal(t)) =>
      var n := BitCountText(t, start, ending);
      r := if n.Ok? then Ok(Int(n.value)) else Err(n.error);
    case Some(_) => r := Err(RubyError("NoMethodError"));
  }
}
