// `send(name, *args)`: the commands an instance responds to, found by name,
// with the client's arguments decoded into the parameters of the command.
// A wrong number of arguments raises ArgumentError, as calling a Ruby
// method with the wrong arity does; an argument of a shape the command
// cannot use (an array where a key is expected, say) answers TypeError.

module Dispatch {

  import opened Common
  import opened Ruby
  import opened ExpiringHashes
  import opened Instances
  import StringCommands
  import ListCommands
  import SetCommands
  import HashCommands
  import SortedSetCommands
  import KeyCommands
  import SortMethod
  import ServerCommands
  import ConnectionCommands
  import Requests
  import CommandHelper
  import opened Names

  const Arity := RubyError("ArgumentError")
  const Shape := RubyError("TypeError")

  // ---------------------------------------------------------------------
  // Arguments

  /** A key, a field or any argument used as a String without conversion. */
  function TextArg(a: Arg): (r: Result<string>)
    ensures r.Ok? <==> a.Text?
  {
    if a.Text? then Ok(a.text) else Err(Shape)
  }

  /** An Integer argument. */
  function IntArg(a: Arg): (r: Result<int>)
    ensures r.Ok? <==> a.Num?
  {
    if a.Num? then Ok(a.num) else Err(Shape)
  }

  /** `to_s` of a string, an integer or a symbol argument; a symbol gives its name. */
  function ToSArg(a: Arg): (r: Result<string>)
    ensures a.Text? ==> r == Ok(a.text)
    ensures a.Num? ==> r == Ok(IntToString(a.num))
    ensures a.Sym? ==> r == Ok(a.name)
    ensures r.Ok? <==> a.Text? || a.Num? || a.Sym?
  {
    match a
    case Text(t) => Ok(t)
    case Num(n) => Ok(IntToString(n))
    case Sym(n) => Ok(n)
    case _ => Err(Shape)
  }

  /** `to_i` of a string or an integer argument. */
  function ToIArg(a: Arg): (r: Result<int>)
    ensures a.Text? ==> r == Ok(ToI(a.text))
    ensures a.Num? ==> r == Ok(a.num)
  {
    match a
    case Text(t) => Ok(ToI(t))
    case Num(n) => Ok(n)
    case _ => Err(Shape)
  }

  /** Every argument as a key. */
  function TextArgs(args: seq<Arg>): (r: Result<seq<string>>)
    ensures r.Ok? ==> |r.value| == |args| && forall i :: 0 <= i < |args| ==> args[i] == Text(r.value[i])
    ensures r.Err? ==> exists i :: 0 <= i < |args| && !args[i].Text?
    ensures r.Err? ==> r.error == Shape
  {
    if args == [] then Ok([])
    else
      var first :- TextArg(args[0]);
      var rest :- TextArgs(args[1..]);
      Ok([first] + rest)
  }

  /** Every argument through `to_s`. */
  function ToSArgs(args: seq<Arg>): (r: Result<seq<string>>)
    ensures r.Ok? ==> |r.value| == |args| && forall i :: 0 <= i < |args| ==> ToSArg(args[i]) == Ok(r.value[i])
    ensures r.Err? ==> r.error == Shape
  {
    if args == [] then Ok([])
    else
      var first :- ToSArg(args[0]);
      var rest :- ToSArgs(args[1..]);
      Ok([first] + rest)
  }

  /** `Array(value).map(&:to_s)`: an array's elements, or the value alone. */
  function ArrayArg(a: Arg): (r: Result<seq<string>>)
    ensures r.Err? ==> r.error == Shape
  {
    if a.Many? then ToSArgs(a.items) else var t :- ToSArg(a); Ok([t])
  }

  /** `[value].flatten.map(&:to_s)`: nested arrays are opened up, in order. */
  function FlatArgs(args: seq<Arg>): (r: Result<seq<string>>)
    ensures r.Err? ==> r.error == Shape
    decreases args
  {
    if args == [] then Ok([])
    else
      var first :- if args[0].Many? then FlatArgs(args[0].items) else var t :- ToSArg(args[0]); Ok([t]);
      var rest :- FlatArgs(args[1..]);
      Ok(first + rest)
  }

  /** `keys.flatten(1)`: arrays among the keys are opened up one level. */
  function FlatKeys(args: seq<Arg>): (r: Result<seq<string>>)
    ensures r.Err? ==> r.error == Shape
  {
    if args == [] then Ok([])
    else
      var first :- if args[0].Many? then TextArgs(args[0].items) else var t :- TextArg(args[0]); Ok([t]);
      var rest :- FlatKeys(args[1..]);
      Ok(first + rest)
  }

  /**
   * The position token of LINSERT: only the symbols `:before` and `:after`
   * name a position; a string, even "before", is not equal to a symbol.
   */
  function WhereArg(a: Arg): (r: ListCommands.Where)
    ensures r == ListCommands.Before <==> a == Sym("before")
    ensures r == ListCommands.After <==> a == Sym("after")
    ensures !a.Sym? ==> r == ListCommands.Elsewhere
  {
    if a == Sym("before") then ListCommands.Before
    else if a == Sym("after") then ListCommands.After
    else ListCommands.Elsewhere
  }

  /** The bit SETBIT writes: 0 or 1, as an integer or a string. */
  function BitArg(a: Arg): Result<bool>
  {
    if a == Num(1) || a == Text("1") then Ok(true)
    else if a == Num(0) || a == Text("0") then Ok(false)
    else Err(Shape)
  }

  /** The LIMIT of a by-score range: "LIMIT" followed by an offset and a count. */
  function LimitArg(opts: seq<Arg>): Option<(int, int)>
  {
    if |opts| < 3 then None
    else if opts[0] == Text("LIMIT") && opts[1].Num? && opts[2].Num? then Some((opts[1].num, opts[2].num))
    else LimitArg(opts[1..])
  }

  /** Every argument is an array: the pair form of ZADD and HMSET. */
  predicate AllArrays(args: seq<Arg>)
  {
    forall i :: 0 <= i < |args| ==> args[i].Many?
  }

  function Pairs(args: seq<Arg>): (r: Result<seq<seq<string>>>)
    requires AllArrays(args)
    ensures r.Ok? ==> |r.value| == |args| && forall i :: 0 <= i < |args| ==> |r.value[i]| == |args[i].items|
    ensures r.Err? ==> r.error == Shape
  {
    if args == [] then Ok([])
    else
      var first :- ToSArgs(args[0].items);
      var rest :- Pairs(args[1..]);
      Ok([first] + rest)
  }

  function OptionalText(m: map<string, Arg>, k: string): (r: Result<Option<string>>)
    ensures r.Err? ==> r.error == Shape
  {
    if k !in m then Ok(None) else var t :- TextArg(m[k]); Ok(Some(t))
  }

  function Ints(args: seq<Arg>): (r: Result<seq<int>>)
    ensures r.Ok? ==> |r.value| == |args|
    ensures r.Err? ==> r.error == Shape
  {
    if args == [] then Ok([])
    else
      var first :- IntArg(args[0]);
      var rest :- Ints(args[1..]);
      Ok([first] + rest)
  }

  function SortOptionsArg(m: map<string, Arg>): (r: Result<Requests.SortOptions>)
    ensures r.Err? ==> r.error == Shape
  {
    var byPattern :- OptionalText(m, "by");
    var limit :- if "limit" !in m then Ok([]) else if m["limit"].Many? then Ints(m["limit"].items) else Err(Shape);
    var get :- if "get" !in m then Ok([]) else if m["get"].Many? then TextArgs(m["get"].items) else var t :- TextArg(m["get"]); Ok([t]);
    var order :- OptionalText(m, "order");
    var store :- OptionalText(m, "store");
    Ok(Requests.SortOptions(byPattern, limit, get, order, store))
  }

  // ---------------------------------------------------------------------
  // The commands, family by family

  // ---------------------------------------------------------------------
  // Binding the arguments: the arity first, then each argument's shape, in
  // the order the method uses them.

  function DecodeString(name: string, args: seq<Arg>): (r: Result<Requests.StringRequest>)
    requires name in StringNames
    ensures r.Err? ==> r.error == Arity || r.error == Shape
  {
    match name
    case "append" =>
      if |args| != 2 then Err(Arity) else
      var key :- TextArg(args[0]); var value :- ToSArg(args[1]); Ok(Requests.Append(key, value))
    case "getbit" =>
      if |args| != 2 then Err(Arity) else
      var key :- TextArg(args[0]); var offset :- IntArg(args[1]); Ok(Requests.GetBit(key, offset))
    case "mget" =>
      var wrapped := |args| == 1 && args[0].Many?;
      var keys :- if wrapped then TextArgs(args[0].items) else TextArgs(args); Ok(Requests.MGet(keys, wrapped))
    case "setex" =>
      if |args| != 3 then Err(Arity) else
      var key :- TextArg(args[0]); var seconds :- IntArg(args[1]); var value :- ToSArg(args[2]); Ok(Requests.SetEx(key, seconds, value))
    case "getrange" =>
      if |args| != 3 then Err(Arity) else
      var key :- TextArg(args[0]); var start :- IntArg(args[1]); var ending :- IntArg(args[2]); Ok(Requests.GetRange(key, start, ending))
    case "substr" =>
      if |args| != 3 then Err(Arity) else
      var key :- TextArg(args[0]); var start :- IntArg(args[1]); var ending :- IntArg(args[2]); Ok(Requests.GetRange(key, start, ending))
    case "mset" =>
      var pairs :- ToSArgs(args); Ok(Requests.MSet(pairs))
    case "setnx" =>
      if |args| != 2 then Err(Arity) else
      var key :- TextArg(args[0]); var value :- ToSArg(args[1]); Ok(Requests.SetNx(key, value))
    case "getset" =>
      if |args| != 2 then Err(Arity) else
      var key :- TextArg(args[0]); var value :- ToSArg(args[1]); Ok(Requests.GetSet(key, value))
    case "msetnx" =>
      var pairs :- ToSArgs(args); Ok(Requests.MSetNx(pairs))
    case "setrange" =>
      if |args| != 3 then Err(Arity) else
      var key :- TextArg(args[0]); var offset :- IntArg(args[1]); var value :- TextArg(args[2]); Ok(Requests.SetRange(key, offset, value))
    case "incr" =>
      if |args| != 1 then Err(Arity) else
      var key :- TextArg(args[0]); Ok(Requests.IncrBy(key, 1))
    case "incrby" =>
      if |args| != 2 then Err(Arity) else
      var key :- TextArg(args[0]); var amount :- ToIArg(args[1]); Ok(Requests.IncrBy(key, amount))
    case "decr" =>
      if |args| != 1 then Err(Arity) else
      var key :- TextArg(args[0]); Ok(Requests.IncrBy(key, -1))
    case "decrby" =>
      if |args| != 2 then Err(Arity) else
      var key :- TextArg(args[0]); var amount :- ToIArg(args[1]); Ok(Requests.IncrBy(key, -amount))
    case "strlen" =>
      if |args| != 1 then Err(Arity) else
      var key :- TextArg(args[0]); Ok(Requests.StrLen(key))
    case "set" =>
      if |args| != 2 then Err(Arity) else
      var key :- TextArg(args[0]); var value :- ToSArg(args[1]); Ok(Requests.Set(key, value))
    case "get" =>
      if |args| != 1 then Err(Arity) else
      var key :- TextArg(args[0]); Ok(Requests.Get(key))
    case "setbit" =>
      if |args| != 3 then Err(Arity) else
      var key :- TextArg(args[0]); var offset :- IntArg(args[1]); var bit :- BitArg(args[2]); Ok(Requests.SetBit(key, offset, bit))
    case "bitcount" =>
      if |args| < 1 || |args| > 3 then Err(Arity) else
      var key :- TextArg(args[0]);
      var start :- if |args| >= 2 then IntArg(args[1]) else Ok(0);
      var last :- if |args| == 3 && args[2] != NilArg then (var e :- IntArg(args[2]); Ok(Some(e))) else Ok(None);
      Ok(Requests.BitCount(key, start, last))
  }

  /** The reply of a string command and the store it leaves. */
  ghost predicate StringsOutcome(s: Store, req: Requests.StringRequest, now: Time, s': Store, r: Result<Reply>)
  {
    match req
    case Append(key, value) => StringCommands.AppendOutcome(s, key, value, now, s', r)
    case GetBit(key, offset) => StringCommands.GetBitOutcome(s, key, offset, now, s', r)
    case MGet(keys, wrapped) => StringCommands.MGetOutcome(s, keys, wrapped, now, s', r)
    case SetEx(key, seconds, value) => StringCommands.SetExOutcome(s, key, seconds, value, now, s', r)
    case GetRange(key, start, ending) => StringCommands.GetRangeOutcome(s, key, start, ending, now, s', r)
    case MSet(pairs) => StringCommands.MSetOutcome(s, pairs, s', r)
    case SetNx(key, value) => StringCommands.SetNxOutcome(s, key, value, now, s', r)
    case GetSet(key, value) => StringCommands.GetSetOutcome(s, key, value, now, s', r)
    case MSetNx(pairs) => StringCommands.MSetNxOutcome(s, pairs, now, s', r)
    case SetRange(key, offset, value) => StringCommands.SetRangeOutcome(s, key, offset, value, now, s', r)
    case IncrBy(key, delta) => StringCommands.IncrByOutcome(s, key, delta, now, s', r)
    case StrLen(key) => StringCommands.StrLenOutcome(s, key, now, s', r)
    case Set(key, value) => StringCommands.SetOutcome(s, key, value, s', r)
    case Get(key) => StringCommands.GetOutcome(s, key, now, s', r)
    case SetBit(key, offset, bit) => StringCommands.SetBitOutcome(s, key, offset, bit, now, s', r)
    case BitCount(key, start, last) => StringCommands.BitCountOutcome(s, key, start, last, now, s', r)
  }

  method ExecuteStrings(db: ExpiringHash, req: Requests.StringRequest, now: Time) returns (r: Result<Reply>)
    modifies db
    ensures StringsOutcome(old(db.State()), req, now, db.State(), r)
  {
    match req
    case Append(key, value) => r := StringCommands.Append(db, key, value, now);
    case GetBit(key, offset) => r := StringCommands.GetBit(db, key, offset, now);
    case MGet(keys, wrapped) => r := StringCommands.MGet(db, keys, wrapped, now);
    case SetEx(key, seconds, value) => r := StringCommands.SetEx(db, key, seconds, value, now);
    case GetRange(key, start, ending) => r := StringCommands.GetRange(db, key, start, ending, now);
    case MSet(pairs) => r := StringCommands.MSet(db, pairs);
    case SetNx(key, value) => r := StringCommands.SetNx(db, key, value, now);
    case GetSet(key, value) => r := StringCommands.GetSet(db, key, value, now);
    case MSetNx(pairs) => r := StringCommands.MSetNx(db, pairs, now);
    case SetRange(key, offset, value) => r := StringCommands.SetRange(db, key, offset, value, now);
    case IncrBy(key, delta) => r := StringCommands.IncrBy(db, key, delta, now);
    case StrLen(key) => r := StringCommands.StrLen(db, key, now);
    case Set(key, value) => r := StringCommands.Set(db, key, value);
    case Get(key) => r := StringCommands.Get(db, key, now);
    case SetBit(key, offset, bit) => r := StringCommands.SetBit(db, key, offset, bit, now);
    case BitCount(key, start, last) => r := StringCommands.BitCount(db, key, start, last, now);
  }

  function DecodeList(name: string, args: seq<Arg>): (r: Result<Requests.ListRequest>)
    requires name in ListNames
    ensures r.Err? ==> r.error == Arity || r.error == Shape
  {
    match name
    case "llen" =>
      if |args| != 1 then Err(Arity) else
      var key :- TextArg(args[0]); Ok(Requests.LLen(key))
    case "lrange" =>
      if |args| != 3 then Err(Arity) else
      var key :- TextArg(args[0]); var start :- IntArg(args[1]); var stop :- IntArg(args[2]); Ok(Requests.LRange(key, start, stop))
    case "ltrim" =>
      if |args| != 3 then Err(Arity) else
      var key :- TextArg(args[0]); var start :- IntArg(args[1]); var stop :- IntArg(args[2]); Ok(Requests.LTrim(key, start, stop))
    case "lindex" =>
      if |args| != 2 then Err(Arity) else
      var key :- TextArg(args[0]); var index :- IntArg(args[1]); Ok(Requests.LIndex(key, index))
    case "linsert" =>
      if |args| != 4 then Err(Arity) else
      var key :- TextArg(args[0]); var pivot :- TextArg(args[2]); var value :- TextArg(args[3]);
      Ok(Requests.LInsert(key, WhereArg(args[1]), pivot, value))
    case "lset" =>
      if |args| != 3 then Err(Arity) else
      var key :- TextArg(args[0]); var index :- IntArg(args[1]); var value :- TextArg(args[2]); Ok(Requests.LSet(key, index, value))
    case "lrem" =>
      if |args| != 3 then Err(Arity) else
      var key :- TextArg(args[0]); var count :- IntArg(args[1]); var value :- TextArg(args[2]); Ok(Requests.LRem(key, count, value))
    case "rpush" =>
      if |args| != 2 then Err(Arity) else
      var key :- TextArg(args[0]); var values :- FlatArgs([args[1]]); Ok(Requests.RPush(key, values))
    case "rpushx" =>
      if |args| != 2 then Err(Arity) else
      var key :- TextArg(args[0]); var values :- FlatArgs([args[1]]); Ok(Requests.RPushX(key, values))
    case "lpush" =>
      if |args| != 2 then Err(Arity) else
      var key :- TextArg(args[0]); var values :- FlatArgs([args[1]]); Ok(Requests.LPush(key, values))
    case "lpushx" =>
      if |args| != 2 then Err(Arity) else
      var key :- TextArg(args[0]); var values :- FlatArgs([args[1]]); Ok(Requests.LPushX(key, values))
    case "rpop" =>
      if |args| != 1 then Err(Arity) else
      var key :- TextArg(args[0]); Ok(Requests.RPop(key))
    case "rpoplpush" =>
      if |args| != 2 then Err(Arity) else
      var source :- TextArg(args[0]); var destination :- TextArg(args[1]); Ok(Requests.RPopLPush(source, destination))
    case "lpop" =>
      if |args| != 1 then Err(Arity) else
      var key :- TextArg(args[0]); Ok(Requests.LPop(key))
  }

  /** The reply of a list command and the store it leaves. */
  ghost predicate ListsOutcome(s: Store, req: Requests.ListRequest, now: Time, s': Store, r: Result<Reply>)
  {
    match req
    case LLen(key) => ListCommands.LLenOutcome(s, key, now, s', r)
    case LRange(key, start, stop) => ListCommands.LRangeOutcome(s, key, start, stop, now, s', r)
    case LTrim(key, start, stop) => ListCommands.LTrimOutcome(s, key, start, stop, now, s', r)
    case LIndex(key, index) => ListCommands.LIndexOutcome(s, key, index, now, s', r)
    case LInsert(key, where, pivot, value) => ListCommands.LInsertOutcome(s, key, where, pivot, value, now, s', r)
    case LSet(key, index, value) => ListCommands.LSetOutcome(s, key, index, value, now, s', r)
    case LRem(key, count, value) => ListCommands.LRemOutcome(s, key, count, value, now, s', r)
    case RPush(key, values) => ListCommands.RPushOutcome(s, key, values, now, s', r)
    case RPushX(key, values) => ListCommands.RPushXOutcome(s, key, values, now, s', r)
    case LPush(key, values) => ListCommands.LPushOutcome(s, key, values, now, s', r)
    case LPushX(key, values) => ListCommands.LPushXOutcome(s, key, values, now, s', r)
    case RPop(key) => ListCommands.RPopOutcome(s, key, now, s', r)
    case RPopLPush(source, destination) => ListCommands.RPopLPushOutcome(s, source, destination, now, s', r)
    case LPop(key) => ListCommands.LPopOutcome(s, key, now, s', r)
  }

  method ExecuteLists(db: ExpiringHash, req: Requests.ListRequest, now: Time) returns (r: Result<Reply>)
    modifies db
    ensures ListsOutcome(old(db.State()), req, now, db.State(), r)
  {
    match req
    case LLen(key) => r := ListCommands.LLen(db, key, now);
    case LRange(key, start, stop) => r := ListCommands.LRange(db, key, start, stop, now);
    case LTrim(key, start, stop) => r := ListCommands.LTrim(db, key, start, stop, now);
    case LIndex(key, index) => r := ListCommands.LIndex(db, key, index, now);
    case LInsert(key, where, pivot, value) => r := ListCommands.LInsert(db, key, where, pivot, value, now);
    case LSet(key, index, value) => r := ListCommands.LSet(db, key, index, value, now);
    case LRem(key, count, value) => r := ListCommands.LRem(db, key, count, value, now);
    case RPush(key, values) => r := ListCommands.RPush(db, key, values, now);
    case RPushX(key, values) => r := ListCommands.RPushX(db, key, values, now);
    case LPush(key, values) => r := ListCommands.LPush(db, key, values, now);
    case LPushX(key, values) => r := ListCommands.LPushX(db, key, values, now);
    case RPop(key) => r := ListCommands.RPop(db, key, now);
    case RPopLPush(source, destination) => r := ListCommands.RPopLPush(db, source, destination, now);
    case LPop(key) => r := ListCommands.LPop(db, key, now);
  }

  function DecodeSet(name: string, args: seq<Arg>): (r: Result<Requests.SetRequest>)
    requires name in SetNames
    ensures r.Err? ==> r.error == Arity || r.error == Shape
  {
    match name
    case "smembers" =>
      if |args| != 1 then Err(Arity) else
      var key :- TextArg(args[0]); Ok(Requests.SMembers(key))
    case "sismember" =>
      if |args| != 2 then Err(Arity) else
      var key :- TextArg(args[0]); var value :- ToSArg(args[1]); Ok(Requests.SIsMember(key, value))
    case "sadd" =>
      if |args| != 2 then Err(Arity) else
      var key :- TextArg(args[0]); var values :- ArrayArg(args[1]); Ok(Requests.SAdd(key, values))
    case "srem" =>
      if |args| != 2 then Err(Arity) else
      var key :- TextArg(args[0]); var value :- ToSArg(args[1]); Ok(Requests.SRem(key, value))
    case "smove" =>
      if |args| != 3 then Err(Arity) else
      var source :- TextArg(args[0]); var destination :- TextArg(args[1]); var value :- ToSArg(args[2]);
      Ok(Requests.SMove(source, destination, value))
    case "spop" =>
      if |args| != 1 then Err(Arity) else
      var key :- TextArg(args[0]); Ok(Requests.SPop(key))
    case "scard" =>
      if |args| != 1 then Err(Arity) else
      var key :- TextArg(args[0]); Ok(Requests.SCard(key))
    case "sinter" =>
      var keys :- TextArgs(args); Ok(Requests.SInter(keys))
    case "sinterstore" =>
      if |args| < 1 then Err(Arity) else
      var destination :- TextArg(args[0]); var keys :- TextArgs(args[1..]); Ok(Requests.SInterStore(destination, keys))
    case "sunion" =>
      var keys :- TextArgs(args); Ok(Requests.SUnion(keys))
    case "sunionstore" =>
      if |args| < 1 then Err(Arity) else
      var destination :- TextArg(args[0]); var keys :- TextArgs(args[1..]); Ok(Requests.SUnionStore(destination, keys))
    case "sdiff" =>
      if |args| < 1 then Err(Arity) else
      var first :- TextArg(args[0]); var keys :- TextArgs(args[1..]); Ok(Requests.SDiff(first, keys))
    case "sdiffstore" =>
      if |args| < 2 then Err(Arity) else
      var destination :- TextArg(args[0]); var first :- TextArg(args[1]); var keys :- TextArgs(args[2..]);
      Ok(Requests.SDiffStore(destination, first, keys))
    case "srandmember" =>
      if |args| != 1 then Err(Arity) else
      var key :- TextArg(args[0]); Ok(Requests.SRandMember(key))
  }

  /** SINTER, SUNION and SDIFF answer their set as an array, or the error raised. */
  function MembersReply(m: Result<set<string>>): (r: Result<Reply>)
    ensures m.Err? ==> r == Err(m.error)
    ensures m.Ok? ==> r == Ok(SetCommands.SetReply(m.value))
  {
    if m.Err? then Err(m.error) else Ok(SetCommands.SetReply(m.value))
  }

  /**
   * SINTER's answer: the empty `::Set` object itself when a key is absent,
   * otherwise the common members as an array, or the error raised.
   */
  function InterReply(m: Result<set<string>>, asSet: bool): (r: Result<Reply>)
    ensures m.Err? ==> r == Err(m.error)
    ensures m.Ok? && asSet ==> r == Ok(Stored(SetVal(m.value)))
    ensures m.Ok? && !asSet ==> r == Ok(SetCommands.SetReply(m.value))
  {
    if m.Err? then Err(m.error)
    else if asSet then Ok(Stored(SetVal(m.value)))
    else Ok(SetCommands.SetReply(m.value))
  }

  /** The reply of a set command and the store it leaves. */
  ghost predicate SetsOutcome(s: Store, req: Requests.SetRequest, now: Time, s': Store, r: Result<Reply>)
  {
    match req
    case SMembers(key) => SetCommands.SMembersOutcome(s, key, now, s', r)
    case SIsMember(key, member) => SetCommands.SIsMemberOutcome(s, key, member, now, s', r)
    case SAdd(key, values) => SetCommands.SAddOutcome(s, key, values, now, s', r)
    case SRem(key, member) => SetCommands.SRemOutcome(s, key, member, now, s', r)
    case SMove(source, destination, member) => SetCommands.SMoveOutcome(s, source, destination, member, now, s', r)
    case SPop(key) => SetCommands.SPopOutcome(s, key, now, s', r)
    case SCard(key) => SetCommands.SCardOutcome(s, key, now, s', r)
    case SInter(keys) => exists m, asSet :: SetCommands.SInterOutcome(s, keys, now, s', m, asSet) && r == InterReply(m, asSet)
    case SInterStore(destination, keys) => SetCommands.SInterStoreOutcome(s, destination, keys, now, s', r)
    case SUnion(keys) => exists m :: SetCommands.SUnionOutcome(s, keys, now, s', m) && r == MembersReply(m)
    case SUnionStore(destination, keys) => SetCommands.SUnionStoreOutcome(s, destination, keys, now, s', r)
    case SDiff(first, keys) => exists m :: SetCommands.SDiffOutcome(s, first, keys, now, s', m) && r == MembersReply(m)
    case SDiffStore(destination, first, keys) => SetCommands.SDiffStoreOutcome(s, destination, first, keys, now, s', r)
    case SRandMember(key) => SetCommands.SRandMemberOutcome(s, key, now, s', r)
  }

  /**
   * SINTER with every key a set or absent and at least one absent answers
   * the empty `::Set` object, not an array.
   */
  lemma SInterAbsent(s: Store, keys: seq<Key>, now: Time, s': Store, r: Result<Reply>, k: nat)
    requires SetsOutcome(s, Requests.SInter(keys), now, s', r)
    requires forall i :: 0 <= i < |keys| ==> Conforms(Read(s, keys[i], now), SetKind)
    requires k < |keys| && Read(s, keys[k], now).None?
    ensures r == Ok(Stored(SetVal({})))
  {
    var m, asSet :| SetCommands.SInterOutcome(s, keys, now, s', m, asSet) && r == InterReply(m, asSet);
    var vs := SetCommands.ReadAll(s, keys, now);
    assert vs[k].None?;
    var f := CommandHelper.FirstMismatch(s, keys, SetKind, now);
    assert f.None?;
    assert SetCommands.InterOf(vs) == {};
    assert m == Ok({}) && asSet;
  }

  /**
   * SINTER with every key holding a set answers an array of the common
   * members.
   */
  lemma SInterPresent(s: Store, keys: seq<Key>, now: Time, s': Store, r: Result<Reply>)
    requires SetsOutcome(s, Requests.SInter(keys), now, s', r)
    requires keys != [] && forall i :: 0 <= i < |keys| ==> Read(s, keys[i], now).Some? && Read(s, keys[i], now).value.SetVal?
    ensures r.Ok? && r.value.Array?
  {
    var m, asSet :| SetCommands.SInterOutcome(s, keys, now, s', m, asSet) && r == InterReply(m, asSet);
    var vs := SetCommands.ReadAll(s, keys, now);
    assert !exists i :: 0 <= i < |vs| && vs[i].None?;
  }

  method ExecuteSets(db: ExpiringHash, req: Requests.SetRequest, now: Time) returns (r: Result<Reply>)
    modifies db
    ensures SetsOutcome(old(db.State()), req, now, db.State(), r)
  {
    match req
    case SMembers(key) => r := SetCommands.SMembers(db, key, now);
    case SIsMember(key, member) => r := SetCommands.SIsMember(db, key, member, now);
    case SAdd(key, values) => r := SetCommands.SAdd(db, key, values, now);
    case SRem(key, member) => r := SetCommands.SRem(db, key, member, now);
    case SMove(source, destination, member) => r := SetCommands.SMove(db, source, destination, member, now);
    case SPop(key) => r := SetCommands.SPop(db, key, now);
    case SCard(key) => r := SetCommands.SCard(db, key, now);
    case SInter(keys) =>
      var m, asSet := SetCommands.SInter(db, keys, now);
      r := InterReply(m, asSet);
    case SInterStore(destination, keys) => r := SetCommands.SInterStore(db, destination, keys, now);
    case SUnion(keys) =>
      var m := SetCommands.SUnion(db, keys, now);
      r := MembersReply(m);
    case SUnionStore(destination, keys) => r := SetCommands.SUnionStore(db, destination, keys, now);
    case SDiff(first, keys) =>
      var m := SetCommands.SDiff(db, first, keys, now);
      r := MembersReply(m);
    case SDiffStore(destination, first, keys) => r := SetCommands.SDiffStore(db, destination, first, keys, now);
    case SRandMember(key) => r := SetCommands.SRandMember(db, key, now);
  }

  function DecodeHash(name: string, args: seq<Arg>): (r: Result<Requests.HashRequest>)
    requires name in HashNames
    ensures r.Err? ==> r.error == Arity || r.error == Shape
  {
    match name
    case "hdel" =>
      if |args| != 2 then Err(Arity) else
      var field :- ToSArg(args[1]); var key :- TextArg(args[0]); Ok(Requests.HDel(key, field))
    case "hincrby" =>
      if |args| != 3 then Err(Arity) else
      var key :- TextArg(args[0]); var field :- ToSArg(args[1]); var increment :- ToSArg(args[2]);
      Ok(Requests.HIncrBy(key, field, increment))
    case "hmget" =>
      if |args| < 1 then Err(Arity) else
      var key :- TextArg(args[0]); var fields :- ToSArgs(args[1..]); Ok(Requests.HMGet(key, fields))
    case "hset" =>
      if |args| != 3 then Err(Arity) else
      var key :- TextArg(args[0]); var field :- ToSArg(args[1]); var value :- ToSArg(args[2]); Ok(Requests.HSet(key, field, value))
    case "hsetnx" =>
      if |args| != 3 then Err(Arity) else
      var key :- TextArg(args[0]); var field :- ToSArg(args[1]); var value :- ToSArg(args[2]); Ok(Requests.HSetNx(key, field, value))
    case "hmset" =>
      if |args| < 1 then Err(Arity) else
      var key :- TextArg(args[0]);
      var fields := args[1..];
      var shaped :-
        if fields != [] && AllArrays(fields) then var pairs :- Pairs(fields); Ok(HashCommands.PairList(pairs))
        else var items :- ToSArgs(fields); Ok(HashCommands.FlatFields(items));
      Ok(Requests.HMSet(key, shaped))
    case "hlen" =>
      if |args| != 1 then Err(Arity) else
      var key :- TextArg(args[0]); Ok(Requests.HLen(key))
    case "hvals" =>
      if |args| != 1 then Err(Arity) else
      var key :- TextArg(args[0]); Ok(Requests.HVals(key))
    case "hexists" =>
      if |args| != 2 then Err(Arity) else
      var key :- TextArg(args[0]); var field :- ToSArg(args[1]); Ok(Requests.HExists(key, field))
    case "hgetall" =>
      if |args| != 1 then Err(Arity) else
      var key :- TextArg(args[0]); Ok(Requests.HGetAll(key))
    case "hget" =>
      if |args| != 2 then Err(Arity) else
      var key :- TextArg(args[0]); var field :- ToSArg(args[1]); Ok(Requests.HGet(key, field))
    case "hkeys" =>
      if |args| != 1 then Err(Arity) else
      var key :- TextArg(args[0]); Ok(Requests.HKeys(key))
  }

  /** The reply of a hash command and the store it leaves. */
  ghost predicate HashesOutcome(s: Store, req: Requests.HashRequest, now: Time, s': Store, r: Result<Reply>)
  {
    match req
    case HDel(key, field) => HashCommands.HDelOutcome(s, key, field, now, s', r)
    case HIncrBy(key, field, increment) => HashCommands.HIncrByOutcome(s, key, field, increment, now, s', r)
    case HMGet(key, fields) => HashCommands.HMGetOutcome(s, key, fields, now, s', r)
    case HSet(key, field, value) => HashCommands.HSetOutcome(s, key, field, value, now, s', r)
    case HSetNx(key, field, value) => HashCommands.HSetNxOutcome(s, key, field, value, now, s', r)
    case HMSet(key, fieldArgs) => HashCommands.HMSetOutcome(s, key, fieldArgs, now, s', r)
    case HLen(key) => HashCommands.HLenOutcome(s, key, now, s', r)
    case HVals(key) => HashCommands.HValsOutcome(s, key, now, s', r)
    case HExists(key, field) => HashCommands.HExistsOutcome(s, key, field, now, s', r)
    case HGetAll(key) => HashCommands.HGetAllOutcome(s, key, now, s', r)
    case HGet(key, field) => HashCommands.HGetOutcome(s, key, field, now, s', r)
    case HKeys(key) => HashCommands.HKeysOutcome(s, key, now, s', r)
  }

  method ExecuteHashes(db: ExpiringHash, req: Requests.HashRequest, now: Time) returns (r: Result<Reply>)
    modifies db
    ensures HashesOutcome(old(db.State()), req, now, db.State(), r)
  {
    match req
    case HDel(key, field) => r := HashCommands.HDel(db, key, field, now);
    case HIncrBy(key, field, increment) => r := HashCommands.HIncrBy(db, key, field, increment, now);
    case HMGet(key, fields) => r := HashCommands.HMGet(db, key, fields, now);
    case HSet(key, field, value) => r := HashCommands.HSet(db, key, field, value, now);
    case HSetNx(key, field, value) => r := HashCommands.HSetNx(db, key, field, value, now);
    case HMSet(key, fieldArgs) => r := HashCommands.HMSet(db, key, fieldArgs, now);
    case HLen(key) => r := HashCommands.HLen(db, key, now);
    case HVals(key) => r := HashCommands.HVals(db, key, now);
    case HExists(key, field) => r := HashCommands.HExists(db, key, field, now);
    case HGetAll(key) => r := HashCommands.HGetAll(db, key, now);
    case HGet(key, field) => r := HashCommands.HGet(db, key, field, now);
    case HKeys(key) => r := HashCommands.HKeys(db, key, now);
  }

  function DecodeSortedSet(name: string, args: seq<Arg>): (r: Result<Requests.SortedSetRequest>)
    requires name in SortedSetNames
    ensures r.Err? ==> r.error == Arity || r.error == Shape || r.error == SyntaxError
  {
    match name
    case "zadd" =>
      if |args| < 1 then Err(Arity) else
      var key :- TextArg(args[0]);
      var rest := args[1..];
      var shaped :-
        if rest != [] && rest[0].Many? then
          if !AllArrays(rest) then Err(SyntaxError) else var pairs :- Pairs(rest); Ok(SortedSetCommands.ScorePairs(pairs))
        else var items :- ToSArgs(rest); Ok(SortedSetCommands.FlatScores(items));
      Ok(Requests.ZAdd(key, shaped))
    case "zrem" =>
      if |args| != 2 then Err(Arity) else
      var key :- TextArg(args[0]); var values :- ArrayArg(args[1]); Ok(Requests.ZRem(key, values))
    case "zcard" =>
      if |args| != 1 then Err(Arity) else
      var key :- TextArg(args[0]); Ok(Requests.ZCard(key))
    case "zscore" =>
      if |args| != 2 then Err(Arity) else
      var key :- TextArg(args[0]); var member :- ToSArg(args[1]); Ok(Requests.ZScore(key, member))
    case "zcount" =>
      if |args| != 3 then Err(Arity) else
      var key :- TextArg(args[0]); var min :- ToSArg(args[1]); var max :- ToSArg(args[2]); Ok(Requests.ZCount(key, min, max))
    case "zincrby" =>
      if |args| != 3 then Err(Arity) else
      var key :- TextArg(args[0]); var num :- ToSArg(args[1]); var member :- ToSArg(args[2]); Ok(Requests.ZIncrBy(key, num, member))
    case "zrank" =>
      if |args| != 2 then Err(Arity) else
      var key :- TextArg(args[0]); var member :- ToSArg(args[1]); Ok(Requests.ZRank(key, member))
    case "zrevrank" =>
      if |args| != 2 then Err(Arity) else
      var key :- TextArg(args[0]); var member :- ToSArg(args[1]); Ok(Requests.ZRevRank(key, member))
    case "zrange" =>
      if |args| < 3 || |args| > 4 then Err(Arity) else
      var key :- TextArg(args[0]); var start :- IntArg(args[1]); var stop :- IntArg(args[2]);
      Ok(Requests.ZRange(key, start, stop, |args| == 4 && args[3] != NilArg))
    case "zrevrange" =>
      if |args| < 3 || |args| > 4 then Err(Arity) else
      var key :- TextArg(args[0]); var start :- IntArg(args[1]); var stop :- IntArg(args[2]);
      Ok(Requests.ZRevRange(key, start, stop, |args| == 4 && args[3] != NilArg))
    case "zrangebyscore" =>
      if |args| < 3 then Err(Arity) else
      var key :- TextArg(args[0]); var min :- ToSArg(args[1]); var max :- ToSArg(args[2]);
      var opts := args[3..];
      Ok(Requests.ZRangeByScore(key, min, max, Text("WITHSCORES") in opts, LimitArg(opts)))
    case "zrevrangebyscore" =>
      if |args| < 3 then Err(Arity) else
      var key :- TextArg(args[0]); var max :- ToSArg(args[1]); var min :- ToSArg(args[2]);
      var opts := args[3..];
      Ok(Requests.ZRevRangeByScore(key, max, min, Text("WITHSCORES") in opts, LimitArg(opts)))
    case "zremrangebyscore" =>
      if |args| != 3 then Err(Arity) else
      var key :- TextArg(args[0]); var min :- ToSArg(args[1]); var max :- ToSArg(args[2]); Ok(Requests.ZRemRangeByScore(key, min, max))
    case "zremrangebyrank" =>
      if |args| != 3 then Err(Arity) else
      var key :- TextArg(args[0]); var start :- IntArg(args[1]); var stop :- IntArg(args[2]); Ok(Requests.ZRemRangeByRank(key, start, stop))
  }

  /** The reply of a sorted set command and the store it leaves. */
  ghost predicate SortedSetsOutcome(s: Store, req: Requests.SortedSetRequest, now: Time, s': Store, r: Result<Reply>)
  {
    match req
    case ZAdd(key, scores) => SortedSetCommands.ZAddOutcome(s, key, scores, now, s', r)
    case ZRem(key, values) => SortedSetCommands.ZRemOutcome(s, key, values, now, s', r)
    case ZCard(key) => SortedSetCommands.ZCardOutcome(s, key, now, s', r)
    case ZScore(key, member) => SortedSetCommands.ZScoreOutcome(s, key, member, now, s', r)
    case ZCount(key, min, max) => SortedSetCommands.ZCountOutcome(s, key, min, max, now, s', r)
    case ZIncrBy(key, num, member) => SortedSetCommands.ZIncrByOutcome(s, key, num, member, now, s', r)
    case ZRank(key, member) => SortedSetCommands.ZRankOutcome(s, key, member, now, s', r)
    case ZRevRank(key, member) => SortedSetCommands.ZRevRankOutcome(s, key, member, now, s', r)
    case ZRange(key, start, stop, withScores) => SortedSetCommands.ZRangeOutcome(s, key, start, stop, withScores, now, s', r)
    case ZRevRange(key, start, stop, withScores) => SortedSetCommands.ZRevRangeOutcome(s, key, start, stop, withScores, now, s', r)
    case ZRangeByScore(key, min, max, withScores, limit) =>
      SortedSetCommands.ZRangeByScoreOutcome(s, key, min, max, withScores, limit, now, s', r)
    case ZRevRangeByScore(key, max, min, withScores, limit) =>
      SortedSetCommands.ZRevRangeByScoreOutcome(s, key, max, min, withScores, limit, now, s', r)
    case ZRemRangeByScore(key, min, max) => SortedSetCommands.ZRemRangeByScoreOutcome(s, key, min, max, now, s', r)
    case ZRemRangeByRank(key, start, stop) => SortedSetCommands.ZRemRangeByRankOutcome(s, key, start, stop, now, s', r)
  }

  method ExecuteSortedSets(db: ExpiringHash, req: Requests.SortedSetRequest, now: Time) returns (r: Result<Reply>)
    modifies db
    ensures SortedSetsOutcome(old(db.State()), req, now, db.State(), r)
  {
    match req
    case ZAdd(key, scores) => r := SortedSetCommands.ZAdd(db, key, scores, now);
    case ZRem(key, values) => r := SortedSetCommands.ZRem(db, key, values, now);
    case ZCard(key) => r := SortedSetCommands.ZCard(db, key, now);
    case ZScore(key, member) => r := SortedSetCommands.ZScore(db, key, member, now);
    case ZCount(key, min, max) => r := SortedSetCommands.ZCount(db, key, min, max, now);
    case ZIncrBy(key, num, member) => r := SortedSetCommands.ZIncrBy(db, key, num, member, now);
    case ZRank(key, member) => r := SortedSetCommands.ZRank(db, key, member, now);
    case ZRevRank(key, member) => r := SortedSetCommands.ZRevRank(db, key, member, now);
    case ZRange(key, start, stop, withScores) => r := SortedSetCommands.ZRange(db, key, start, stop, withScores, now);
    case ZRevRange(key, start, stop, withScores) => r := SortedSetCommands.ZRevRange(db, key, start, stop, withScores, now);
    case ZRangeByScore(key, min, max, withScores, limit) =>
      r := SortedSetCommands.ZRangeByScore(db, key, min, max, withScores, limit, now);
    case ZRevRangeByScore(key, max, min, withScores, limit) =>
      r := SortedSetCommands.ZRevRangeByScore(db, key, max, min, withScores, limit, now);
    case ZRemRangeByScore(key, min, max) => r := SortedSetCommands.ZRemRangeByScore(db, key, min, max, now);
    case ZRemRangeByRank(key, start, stop) => r := SortedSetCommands.ZRemRangeByRank(db, key, start, stop, now);
  }

  function DecodeKey(name: string, args: seq<Arg>): (r: Result<Requests.KeyRequest>)
    requires name in KeyNames
    ensures r.Err? ==> r.error == Arity || r.error == Shape
  {
    match name
    case "del" =>
      var keys :- FlatKeys(args); Ok(Requests.Del(keys))
    case "rename" =>
      if |args| != 2 then Err(Arity) else
      var key :- TextArg(args[0]); var newKey :- TextArg(args[1]); Ok(Requests.Rename(key, newKey))
    case "exists" =>
      if |args| != 1 then Err(Arity) else
      var key :- TextArg(args[0]); Ok(Requests.Exists(key))
    case "ttl" =>
      if |args| != 1 then Err(Arity) else
      var key :- TextArg(args[0]); Ok(Requests.Ttl(key))
    case "expire" =>
      if |args| != 2 then Err(Arity) else
      var key :- TextArg(args[0]); var seconds :- IntArg(args[1]); Ok(Requests.Expire(key, seconds))
    case "persist" =>
      if |args| != 1 then Err(Arity) else
      var key :- TextArg(args[0]); Ok(Requests.Persist(key))
    case "renamenx" =>
      if |args| != 2 then Err(Arity) else
      var key :- TextArg(args[0]); var newKey :- TextArg(args[1]); Ok(Requests.RenameNx(key, newKey))
    case "expireat" =>
      if |args| != 2 then Err(Arity) else
      var key :- TextArg(args[0]); var timestamp :- IntArg(args[1]); Ok(Requests.ExpireAt(key, timestamp))
    case "type" =>
      if |args| != 1 then Err(Arity) else
      var key :- TextArg(args[0]); Ok(Requests.Type(key))
    case "sort" =>
      if |args| < 1 || |args| > 2 then Err(Arity) else
      var key :- if args[0] == NilArg then Ok(None) else var k :- TextArg(args[0]); Ok(Some(k));
      var options :-
        if |args| == 1 then Ok(Requests.SortOptions(None, [], [], None, None))
        else if !args[1].Options? then Err(Shape)
        else SortOptionsArg(args[1].entries);
      Ok(Requests.Sort(key, options))
  }

  /** The reply of a key command and the store it leaves. */
  ghost predicate KeysOutcome(s: Store, req: Requests.KeyRequest, now: Time, s': Store, r: Result<Reply>)
  {
    match req
    case Del(keys) => KeyCommands.DelOutcome(s, keys, now, s', r)
    case Rename(key, newKey) => r.Ok? && (s', r.value) == KeyCommands.Rename(s, key, newKey, now)
    case Exists(key) => r.Ok? && KeyCommands.ExistsOutcome(s, key, now, s', r.value)
    case Ttl(key) => s' == s && r == Ok(Int(KeyCommands.TimeToLive(s, key, now)))
    case Expire(key, seconds) => r.Ok? && KeyCommands.ExpireOutcome(s, key, seconds, now, s', r.value)
    case Persist(key) => s' == Store(s.data, s.expires - {key}) && r == Ok(Bool(key in s.expires))
    case RenameNx(key, newKey) => r.Ok? && KeyCommands.RenameNxOutcome(s, key, newKey, now, s', r.value)
    case ExpireAt(key, timestamp) => r.Ok? && KeyCommands.ExpireAtKeyOutcome(s, key, timestamp, s', r.value)
    case Type(key) => r.Ok? && KeyCommands.TypeOutcome(s, key, now, s', r.value)
    case Sort(sortKey, o) =>
      (s', r) == SortMethod.SortOutcome(s, sortKey, o.byPattern, o.limit, o.store, o.patterns, o.order, now)
  }

  method ExecuteKeys(db: ExpiringHash, req: Requests.KeyRequest, now: Time) returns (r: Result<Reply>)
    modifies db
    ensures KeysOutcome(old(db.State()), req, now, db.State(), r)
  {
    match req
    case Del(keys) => r := KeyCommands.Del(db, keys, now);
    case Rename(key, newKey) =>
      var reply := KeyCommands.RenameKey(db, key, newKey, now);
      r := Ok(reply);
    case Exists(key) =>
      var reply := KeyCommands.Exists(db, key, now);
      r := Ok(reply);
    case Ttl(key) =>
      var reply := KeyCommands.Ttl(db, key, now);
      r := Ok(reply);
    case Expire(key, seconds) =>
      var reply := KeyCommands.Expire(db, key, seconds, now);
      r := Ok(reply);
    case Persist(key) =>
      var reply := KeyCommands.Persist(db, key);
      r := Ok(reply);
    case RenameNx(key, newKey) =>
      var reply := KeyCommands.RenameNx(db, key, newKey, now);
      r := Ok(reply);
    case ExpireAt(key, timestamp) =>
      var reply := KeyCommands.ExpireAtKey(db, key, timestamp);
      r := Ok(reply);
    case Type(key) =>
      var reply := KeyCommands.Type(db, key, now);
      r := Ok(reply);
    case Sort(sortKey, o) =>
      r := SortMethod.Sort(db, sortKey, o.byPattern, o.limit, o.store, o.patterns, o.order, now);
  }

  // ---------------------------------------------------------------------
  // One database command

  /** The arguments of database command `name` bound to its method's parameters. */
  function Decode(name: string, args: seq<Arg>): (r: Result<Requests.Request>)
    requires name in DataNames()
    ensures r.Err? ==> r.error == Arity || r.error == Shape || r.error == SyntaxError
  {
    if name in StringNames then var q :- DecodeString(name, args); Ok(Requests.Strings(q))
    else if name in ListNames then var q :- DecodeList(name, args); Ok(Requests.Lists(q))
    else if name in SetNames then var q :- DecodeSet(name, args); Ok(Requests.Sets(q))
    else if name in HashNames then var q :- DecodeHash(name, args); Ok(Requests.Hashes(q))
    else if name in SortedSetNames then var q :- DecodeSortedSet(name, args); Ok(Requests.SortedSets(q))
    else var q :- DecodeKey(name, args); Ok(Requests.Keys(q))
  }

  /**
   * LINSERT's position must be a symbol: given as a string, even "before"
   * or "after", it decodes to the position that raises a syntax error.
   */
  lemma LInsertPosition(k: Key, pos: string, pivot: string, v: string)
    ensures "linsert" in ListNames
    ensures DecodeList("linsert", [Text(k), Text(pos), Text(pivot), Text(v)]) == Ok(Requests.LInsert(k, ListCommands.Elsewhere, pivot, v))
    ensures DecodeList("linsert", [Text(k), Sym("before"), Text(pivot), Text(v)]) == Ok(Requests.LInsert(k, ListCommands.Before, pivot, v))
    ensures DecodeList("linsert", [Text(k), Sym("after"), Text(pivot), Text(v)]) == Ok(Requests.LInsert(k, ListCommands.After, pivot, v))
  {
  }

  /** The string family's SET binds the key and the value. */
  lemma DecodeStringSet(k: Key, v: string)
    ensures DecodeString("set", [Text(k), Text(v)]) == Ok(Requests.Set(k, v))
  {
  }

  /** The string family's GET binds the key. */
  lemma DecodeStringGet(k: Key)
    ensures DecodeString("get", [Text(k)]) == Ok(Requests.Get(k))
  {
  }

  /** SET key value binds the key and the value. */
  lemma DecodeSetCommand(k: Key, v: string)
    ensures "set" in DataNames() && Decode("set", [Text(k), Text(v)]) == Ok(Requests.Strings(Requests.Set(k, v)))
  {
    assert "set" in StringNames;
    DecodeStringSet(k, v);
  }

  /** GET key binds the key. */
  lemma DecodeGetCommand(k: Key)
    ensures "get" in DataNames() && Decode("get", [Text(k)]) == Ok(Requests.Strings(Requests.Get(k)))
  {
    assert "get" in StringNames;
    DecodeStringGet(k);
  }

  /** The reply of a decoded database command and the store it leaves. */
  ghost predicate Outcome(s: Store, req: Requests.Request, now: Time, s': Store, r: Result<Reply>)
  {
    match req
    case Strings(q) => StringsOutcome(s, q, now, s', r)
    case Lists(q) => ListsOutcome(s, q, now, s', r)
    case Sets(q) => SetsOutcome(s, q, now, s', r)
    case Hashes(q) => HashesOutcome(s, q, now, s', r)
    case SortedSets(q) => SortedSetsOutcome(s, q, now, s', r)
    case Keys(q) => KeysOutcome(s, q, now, s', r)
  }

  method Execute(db: ExpiringHash, req: Requests.Request, now: Time) returns (r: Result<Reply>)
    modifies db
    ensures Outcome(old(db.State()), req, now, db.State(), r)
  {
    match req
    case Strings(q) => r := ExecuteStrings(db, q, now);
    case Lists(q) => r := ExecuteLists(db, q, now);
    case Sets(q) => r := ExecuteSets(db, q, now);
    case Hashes(q) => r := ExecuteHashes(db, q, now);
    case SortedSets(q) => r := ExecuteSortedSets(db, q, now);
    case Keys(q) => r := ExecuteKeys(db, q, now);
  }

  /**
   * Database command `name` given the store `s`: an argument error changes
   * nothing, otherwise the command's own outcome.
   */
  ghost predicate DataOutcome(s: Store, name: string, args: seq<Arg>, now: Time, s': Store, r: Result<Reply>)
    requires name in DataNames()
  {
    match Decode(name, args)
    case Err(e) => s' == s && r == Err(e)
    case Ok(req) => Outcome(s, req, now, s', r)
  }

  /** One database command: `None` when `name` is not one. */
  method DataCall(db: ExpiringHash, name: string, args: seq<Arg>, now: Time) returns (r: Option<Result<Reply>>)
    modifies db
    ensures r.Some? <==> name in DataNames()
    ensures r.None? ==> db.State() == old(db.State())
    ensures r.Some? ==> DataOutcome(old(db.State()), name, args, now, db.State(), r.value)
  {
    if name !in DataNames() {
      return None;
    }
    match Decode(name, args)
    case Err(e) =>
      r := Some(Err(e));
    case Ok(req) =>
      var res := Execute(db, req, now);
      r := Some(res);
  }

  /**
   * A database command on the current database: the slot is filled first
   * (so even a refused command leaves it filled), then only that database
   * changes, as the command's outcome says.
   */
  ghost predicate CurrentOutcome(w: World, name: string, args: seq<Arg>, now: Time, w': World, r: Result<Reply>)
    requires name in DataNames()
  {
    w'.databaseId == w.databaseId &&
    w'.registry == Installed(w.registry, w.databaseId, w'.Current()) &&
    DataOutcome(w.Current(), name, args, now, w'.Current(), r)
  }

  /** SET key value on a database is the SET method's outcome there. */
  lemma DataSet(s: Store, k: Key, v: string, now: Time, s': Store, r: Result<Reply>)
    requires "set" in DataNames() && DataOutcome(s, "set", [Text(k), Text(v)], now, s', r)
    ensures StringCommands.SetOutcome(s, k, v, s', r)
  {
    DecodeSetCommand(k, v);
    OutcomeSet(s, k, v, now, s', r);
  }

  /** A decoded SET runs the SET method. */
  lemma OutcomeSet(s: Store, k: Key, v: string, now: Time, s': Store, r: Result<Reply>)
    requires Outcome(s, Requests.Strings(Requests.Set(k, v)), now, s', r)
    ensures StringCommands.SetOutcome(s, k, v, s', r)
  {
  }

  /** A decoded GET runs the GET method. */
  lemma OutcomeGet(s: Store, k: Key, now: Time, s': Store, r: Result<Reply>)
    requires Outcome(s, Requests.Strings(Requests.Get(k)), now, s', r)
    ensures StringCommands.GetOutcome(s, k, now, s', r)
  {
  }

  /** GET key on a database is the GET method's outcome there. */
  lemma DataGet(s: Store, k: Key, now: Time, s': Store, r: Result<Reply>)
    requires "get" in DataNames() && DataOutcome(s, "get", [Text(k)], now, s', r)
    ensures StringCommands.GetOutcome(s, k, now, s', r)
  {
    DecodeGetCommand(k);
    OutcomeGet(s, k, now, s', r);
  }

  /** SET key value on the current database is the SET method's outcome there. */
  lemma CurrentSet(w: World, k: Key, v: string, now: Time, w': World, r: Result<Reply>)
    requires "set" in DataNames() && CurrentOutcome(w, "set", [Text(k), Text(v)], now, w', r)
    ensures StringCommands.SetOutcome(w.Current(), k, v, w'.Current(), r)
  {
    DataSet(w.Current(), k, v, now, w'.Current(), r);
  }

  /** GET key on the current database is the GET method's outcome there. */
  lemma CurrentGet(w: World, k: Key, now: Time, w': World, r: Result<Reply>)
    requires "get" in DataNames() && CurrentOutcome(w, "get", [Text(k)], now, w', r)
    ensures StringCommands.GetOutcome(w.Current(), k, now, w'.Current(), r)
  {
    DataGet(w.Current(), k, now, w'.Current(), r);
  }

  /** A database command on the current database, which is created if unused; no other database changes. */
  method CurrentCall(c: Instance, name: string, args: seq<Arg>, now: Time) returns (r: Result<Reply>)
    requires c.Valid() && name in DataNames()
    modifies c, c.Dbs()
    ensures c.Valid()
    ensures c.inMulti == old(c.inMulti) && c.queue == old(c.queue) && c.replies == old(c.replies)
    ensures forall d :: d in c.Dbs() ==> d in old(c.Dbs()) || fresh(d)
    ensures CurrentOutcome(old(c.Snapshot()), name, args, now, c.Snapshot(), r)
    ensures forall i: nat :: i != c.databaseId ==> c.View(i) == old(c.View(i))
  {
    ghost var w := c.Snapshot();
    var db := FindDatabase(c, c.databaseId);
    ghost var mid := c.Registry();
    ghost var s := db.State();
    assert s == w.Current();
    var res := DataCall(db, name, args, now);
    r := res.value;
    Refilled(c, mid, db, c.databaseId);
    InstalledTwice(w.registry, c.databaseId, s, db.State());
    InstalledViews(w.registry, c.databaseId, db.State());
  }

  /** After slot `id`'s database alone has changed, the registry differs from `mid` in that slot only. */
  lemma Refilled(c: Instance, mid: seq<Option<Store>>, db: ExpiringHash, id: nat)
    requires c.Valid() && id < |c.databases| && c.databases[id] == db && |mid| == |c.databases|
    requires forall i :: 0 <= i < |mid| && i != id ==> mid[i] == if c.databases[i] == null then None else Some(c.databases[i].State())
    ensures c.Registry() == mid[id := Some(db.State())]
  {
  }

  /**
   * An argument returned as it is: a string, an integer, nil, or an array
   * of those. An options hash and a symbol have no reply of their own here.
   */
  function ArgReply(a: Arg): (r: Result<Reply>)
    ensures a.Text? ==> r == Ok(Bulk(a.text))
    ensures a.Num? ==> r == Ok(Int(a.num))
    ensures a.NilArg? ==> r == Ok(Nil)
    ensures a.Options? || a.Sym? ==> r == Err(Shape)
    ensures a.Many? && r.Ok? ==> r.value.Array? && |r.value.items| == |a.items|
    ensures r.Err? ==> r.error == Shape
    decreases a
  {
    match a
    case Text(t) => Ok(Bulk(t))
    case Num(n) => Ok(Int(n))
    case NilArg => Ok(Nil)
    case Options(_) => Err(Shape)
    case Sym(_) => Err(Shape)
    case Many(items) => var rs :- ArgReplies(items); Ok(Array(rs))
  }

  /** Each argument of an array returned as it is, in order. */
  function ArgReplies(items: seq<Arg>): (r: Result<seq<Reply>>)
    ensures r.Ok? ==> |r.value| == |items|
    ensures r.Err? ==> r.error == Shape
    decreases items
  {
    if items == [] then Ok([])
    else
      var first :- ArgReply(items[0]);
      var rest :- ArgReplies(items[1..]);
      Ok([first] + rest)
  }

  /**
   * The commands that answer without looking at any database: AUTH accepts
   * any password, QUIT, SAVE and the other server commands do nothing, ECHO
   * answers its argument, PING answers PONG and LASTSAVE the current time.
   */
  function Constant(name: string, args: seq<Arg>, now: Time): (r: Result<Reply>)
    requires name in StatelessNames
    ensures name == "ping" && args == [] ==> r == Ok(Bulk("PONG"))
    ensures name == "echo" && |args| == 1 ==> r == ArgReply(args[0])
    ensures name == "auth" && |args| == 1 ==> r == Ok(Bulk("OK"))
    ensures name == "lastsave" && args == [] ==> r == Ok(Int(now))
    ensures name in {"quit", "monitor", "save", "bgsave", "shutdown", "sync"} && args == [] ==> r == Ok(Nil)
    ensures r.Err? ==> r.error == Arity || r.error == Shape
  {
    match name
    case "auth" => if |args| == 1 then Ok(Bulk("OK")) else Err(Arity)
    case "echo" => if |args| != 1 then Err(Arity) else ArgReply(args[0])
    case "ping" => if args == [] then Ok(Bulk("PONG")) else Err(Arity)
    case "bgrewriteaof" => if args == [] then Ok(Bulk("OK")) else Err(Arity)
    case "slaveof" => if |args| == 2 then Ok(Nil) else Err(Arity)
    case "lastsave" => if args == [] then Ok(Int(now)) else Err(Arity)
    case _ => if args == [] then Ok(Nil) else Err(Arity)
  }

  /** The current database and database `destinationId`, each created if unused. */
  method Locate(c: Instance, destinationId: nat) returns (db: ExpiringHash, dest: ExpiringHash)
    requires c.Valid() && destinationId != c.databaseId
    modifies c
    ensures c.Valid()
    ensures c.databaseId == old(c.databaseId) && c.inMulti == old(c.inMulti) && c.queue == old(c.queue) && c.replies == old(c.replies)
    ensures forall d :: d in c.Dbs() ==> d in old(c.Dbs()) || fresh(d)
    ensures c.databaseId < |c.databases| && c.databases[c.databaseId] == db
    ensures destinationId < |c.databases| && c.databases[destinationId] == dest
    ensures db.State() == old(c.View(c.databaseId)) && dest.State() == old(c.View(destinationId))
    ensures c.Registry() == Installed(Installed(old(c.Registry()), destinationId, dest.State()), c.databaseId, db.State())
  {
    dest := FindDatabase(c, destinationId);
    db := FindDatabase(c, c.databaseId);
  }

  /**
   * MOVE key db: the arity and the argument shapes first; moving to the
   * current database is refused before any database is looked up;
   * otherwise both databases are created if unused and the key moves when
   * it is live in the current one and not live in the other.
   */
  ghost predicate MoveOutcome(w: World, args: seq<Arg>, now: Time, w': World, r: Result<Reply>)
  {
    if |args| != 2 then w' == w && r == Err(Arity)
    else if !args[0].Text? || !args[1].Num? || args[1].num < 0 then w' == w && r == Err(Shape)
    else if args[1].num == w.databaseId then w' == w && r == Err(SameObject)
    else
      var dest: nat := args[1].num;
      var m := KeyCommands.Move(w.Current(), ViewAt(w.registry, dest), args[0].text, now);
      r == Ok(Bool(m.2)) && w' == World(Installed(Installed(w.registry, dest, m.1), w.databaseId, m.0), w.databaseId)
  }

  /** MOVE between two different databases; the destination is created if unused. */
  method MoveBetween(c: Instance, destinationId: nat, key: Key, now: Time) returns (r: Result<Reply>)
    requires c.Valid() && destinationId != c.databaseId
    modifies c, c.Dbs()
    ensures c.Valid()
    ensures c.databaseId == old(c.databaseId) && c.inMulti == old(c.inMulti) && c.queue == old(c.queue) && c.replies == old(c.replies)
    ensures forall d :: d in c.Dbs() ==> d in old(c.Dbs()) || fresh(d)
    ensures var m := KeyCommands.Move(old(c.View(c.databaseId)), old(c.View(destinationId)), key, now);
      r == Ok(Bool(m.2)) &&
      c.Registry() == Installed(Installed(old(c.Registry()), destinationId, m.1), c.databaseId, m.0)
  {
    var db, dest := Locate(c, destinationId);
    ghost var mid := c.Registry();
    ghost var s, t := db.State(), dest.State();
    r := KeyCommands.MoveKey(db, dest, c.databaseId, destinationId, key, now);
    InstalledTwiceBoth(old(c.Registry()), c.databaseId, destinationId, s, t, db.State(), dest.State());
    RefilledTwo(c, mid, db, dest, c.databaseId, destinationId);
  }

  /** After the databases of slots `id` and `other` alone have changed, the registry differs from `mid` in those slots only. */
  lemma RefilledTwo(c: Instance, mid: seq<Option<Store>>, db: ExpiringHash, dest: ExpiringHash, id: nat, other: nat)
    requires c.Valid() && id < |c.databases| && c.databases[id] == db && other < |c.databases| && c.databases[other] == dest
    requires |mid| == |c.databases|
    requires forall i :: 0 <= i < |mid| && i != id && i != other ==> mid[i] == if c.databases[i] == null then None else Some(c.databases[i].State())
    ensures c.Registry() == mid[id := Some(db.State())][other := Some(dest.State())]
  {
  }

  /** MOVE key db. */
  method Move(c: Instance, args: seq<Arg>, now: Time) returns (r: Result<Reply>)
    requires c.Valid()
    modifies c, c.Dbs()
    ensures c.Valid()
    ensures c.inMulti == old(c.inMulti) && c.queue == old(c.queue) && c.replies == old(c.replies)
    ensures forall d :: d in c.Dbs() ==> d in old(c.Dbs()) || fresh(d)
    ensures MoveOutcome(old(c.Snapshot()), args, now, c.Snapshot(), r)
  {
    if |args| != 2 { return Err(Arity); }
    if !args[0].Text? || !args[1].Num? || args[1].num < 0 { return Err(Shape); }
    if args[1].num == c.databaseId {
      return Err(SameObject);
    }
    r := MoveBetween(c, args[1].num, args[0].text, now);
  }

  /** The commands on the instance's registry and selection, given the world before. */
  ghost predicate InstanceOutcome(w: World, name: string, args: seq<Arg>, now: Time, w': World, r: Result<Reply>)
    requires name in InstanceNames
  {
    match name
    case "move" => MoveOutcome(w, args, now, w', r)
    case "select" =>
      if |args| != 1 then w' == w && r == Err(Arity)
      else if !args[0].Num? || args[0].num < 0 then w' == w && r == Err(Shape)
      else w' == World(w.registry, args[0].num) && r == Ok(Bulk("OK"))
    case "flushdb" =>
      if args != [] then w' == w && r == Err(Arity)
      else w' == World(ServerCommands.Cleared(w.registry, w.databaseId), w.databaseId) && r == Ok(Bulk("OK"))
    case "flushall" =>
      if args != [] then w' == w && r == Err(Arity)
      else w' == World([], w.databaseId) && r == Ok(Bulk("OK"))
    case "dbsize" =>
      if args != [] then w' == w && r == Err(Arity)
      else
        w' == World(Installed(w.registry, w.databaseId, PurgeAll(w.Current(), now)), w.databaseId) &&
        r == Ok(Int(|LiveKeys(w.Current(), now)|))
  }

  /** The commands on the instance's registry and selection. */
  method InstanceCall(c: Instance, name: string, args: seq<Arg>, now: Time) returns (r: Result<Reply>)
    requires c.Valid() && name in InstanceNames
    modifies c, c.Dbs()
    ensures c.Valid()
    ensures c.inMulti == old(c.inMulti) && c.queue == old(c.queue) && c.replies == old(c.replies)
    ensures forall d :: d in c.Dbs() ==> d in old(c.Dbs()) || fresh(d)
    ensures InstanceOutcome(old(c.Snapshot()), name, args, now, c.Snapshot(), r)
  {
    match name
    case "move" =>
      r := Move(c, args, now);
    case "select" =>
      if |args| != 1 { return Err(Arity); }
      if !args[0].Num? || args[0].num < 0 { return Err(Shape); }
      var reply := ConnectionCommands.Select(c, args[0].num);
      r := Ok(reply);
    case "flushdb" =>
      if args != [] { return Err(Arity); }
      var reply := ServerCommands.FlushDb(c);
      r := Ok(reply);
    case "flushall" =>
      if args != [] { return Err(Arity); }
      var reply := ServerCommands.FlushAll(c);
      r := Ok(reply);
    case "dbsize" =>
      if args != [] { return Err(Arity); }
      var reply := ServerCommands.DbSize(c, now);
      r := Ok(reply);
  }

  /**
   * `send(name, *args)` for every command but the transaction ones, given
   * the world before: `None` when the instance has no such command, which
   * then changes nothing.
   */
  ghost predicate SendOutcome(w: World, name: string, args: seq<Arg>, now: Time, w': World, r: Option<Result<Reply>>)
  {
    if name in StatelessNames then w' == w && r == Some(Constant(name, args, now))
    else if name in InstanceNames then r.Some? && InstanceOutcome(w, name, args, now, w', r.value)
    else if name in DataNames() then r.Some? && CurrentOutcome(w, name, args, now, w', r.value)
    else w' == w && r == None
  }

  /**
   * `send(name, *args)` for every command but the transaction ones.
   * Database commands run on the current database, created on first use;
   * no command touches the transaction state.
   */
  method Send(c: Instance, name: string, args: seq<Arg>, now: Time) returns (r: Option<Result<Reply>>)
    requires c.Valid()
    modifies c, c.Dbs()
    ensures c.Valid()
    ensures c.inMulti == old(c.inMulti) && c.queue == old(c.queue) && c.replies == old(c.replies)
    ensures forall d :: d in c.Dbs() ==> d in old(c.Dbs()) || fresh(d)
    ensures r.Some? <==> name in CommandNames()
    ensures name !in DataNames() + InstanceNames ==> c.databases == old(c.databases) && c.databaseId == old(c.databaseId)
    ensures name in StatelessNames ==> r == Some(Constant(name, args, now))
    ensures SendOutcome(old(c.Snapshot()), name, args, now, c.Snapshot(), r)
  {
    if name in StatelessNames {
      r := Some(Constant(name, args, now));
    } else if name in InstanceNames {
      var res := InstanceCall(c, name, args, now);
      r := Some(res);
    } else if name in DataNames() {
      var res := CurrentCall(c, name, args, now);
      r := Some(res);
    } else {
      r := None;
    }
  }
}
