// Shared vocabulary of the model: keys, stored values, replies, errors and
// the raw commands a client writes.

module Common {

  /** Keys are strings; the store never interprets them. */
  type Key = string

  /** Wall-clock time in whole seconds; every command receives the current time. */
  type Time = int

  datatype Option<+T> = None | Some(value: T)

  /** The result of an operation that can raise. */
  datatype Result<+T> = Ok(value: T) | Err(error: Error)
  {
    predicate IsFailure() { Err? }
    function PropagateFailure<U>(): Result<U>
      requires Err?
    {
      Err(error)
    }
    function Extract(): T
      requires Ok?
    {
      value
    }
  }

  /** A sorted-set score: double-precision values are modelled as whole numbers and the two infinities. */
  datatype Score = NegInf | Fin(n: int) | PosInf

  /** The five kinds of Ruby object the store holds under a key. */
  datatype Value =
    | StrVal(text: string)                     // String
    | ListVal(items: seq<string>)              // Array
    | SetVal(members: set<string>)             // Set
    | HashVal(fields: map<string, string>)     // Hash
    | ZSetVal(scores: map<string, Score>)      // ZSet, a Hash subclass mapping member => score

  datatype Kind = StringKind | ListKind | SetKind | HashKind | ZSetKind

  function KindOf(v: Value): Kind
  {
    match v
    case StrVal(_) => StringKind
    case ListVal(_) => ListKind
    case SetVal(_) => SetKind
    case HashVal(_) => HashKind
    case ZSetVal(_) => ZSetKind
  }

  /** The type check commands perform before touching a key: an absent key passes. */
  predicate Conforms(v: Option<Value>, k: Kind)
  {
    v.None? || KindOf(v.value) == k
  }

  /** The errors the core raises, each with the reply text the client sees. */
  datatype Error =
    | WrongType                        // "WRONGTYPE Operation against a key holding the wrong kind of value"
    | WrongArgCount(command: string)   // "ERR wrong number of arguments for '<command>' command"
    | SyntaxError                      // "ERR syntax error"
    | NotAFloat                        // Ruby Float() refusing a score
    | IndexOutOfRange                  // "ERR index out of range"
    | SameObject                       // "ERR source and destination objects are the same"
    | UnknownCommand(name: string)     // "ERR unknown command '<name>'"
    | NestedMulti                      // "ERR MULTI calls can not be nested"
    | ExecWithoutMulti                 // "ERR EXEC without MULTI"
    | DiscardWithoutMulti              // "ERR DISCARD without MULTI"
    | InvalidDirection                 // "Invalid direction '<order>'" raised by sort
    | NotANumber                       // adding opposite infinities (a NaN score in Ruby)
    | RubyError(exception: string)     // a Ruby exception the code does not anticipate

  /** What a command hands back to the client. */
  datatype Reply =
    | Nil
    | Bool(b: bool)
    | Int(i: int)
    | Bulk(s: string)
    | Array(items: seq<Reply>)
    | Stored(v: Value)          // a stored Ruby object returned as it is
    | Failed(e: Error)          // an error captured as one result of EXEC

  /** One argument as the client passes it: a string, an integer, a symbol, an array, an options hash or nil. */
  datatype Arg = Text(text: string) | Num(num: int) | Sym(name: string) | Many(items: seq<Arg>) | Options(entries: map<string, Arg>) | NilArg

  /** A command as written: its name and its arguments. */
  datatype Command = Command(name: string, args: seq<Arg>)

  /** Ruby `nil`, a string and any other stored object as a reply. */
  function ValueReply(v: Option<Value>): (r: Reply)
    ensures v.None? <==> r.Nil?
    ensures v.Some? && v.value.StrVal? ==> r == Bulk(v.value.text)
    ensures v.Some? && !v.value.StrVal? ==> r == Stored(v.value)
  {
    match v
    case None => Nil
    case Some(StrVal(t)) => Bulk(t)
    case Some(x) => Stored(x)
  }

  function BulkAll(xs: seq<string>): (r: seq<Reply>)
    ensures |r| == |xs|
    ensures forall i :: 0 <= i < |xs| ==> r[i] == Bulk(xs[i])
  {
    if xs == [] then [] else [Bulk(xs[0])] + BulkAll(xs[1..])
  }

  function Max(a: int, b: int): int { if a < b then b else a }
  function Min(a: int, b: int): int { if a < b then a else b }
}
