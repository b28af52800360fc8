// `write(command)`: the entry point of the connection. The command name is
// lower-cased; while queuing, anything but a transaction command is queued;
// otherwise the instance's command of that name runs. A true or false
// answer becomes 1 or 0, and every answer is appended to the replies.

module CommandExecutor {

  import opened Common
  import opened Ruby
  import opened Instances
  import Dispatch
  import Names
  import TransactionCommands

  /** Booleans reach the client as integers; every other reply is unchanged. */
  function Normalize(reply: Reply): (r: Reply)
    ensures reply == Bool(true) ==> r == Int(1)
    ensures reply == Bool(false) ==> r == Int(0)
    ensures !reply.Bool? ==> r == reply
    ensures !r.Bool?
  {
    if reply == Bool(true) then Int(1) else if reply == Bool(false) then Int(0) else reply
  }

  /** The names `respond_to?` finds. */
  function Known(): set<string>
  {
    Names.CommandNames() + TransactionCommands.TxNames
  }

  /** The instance's command `name` given the session before: `None` when it has none, which then changes nothing. */
  ghost predicate RunOutcome(c0: Session, name: string, args: seq<Arg>, now: Time, c1: Session, r: Option<Result<Reply>>)
  {
    if name in TransactionCommands.TxNames then r.Some? && TransactionCommands.TxOutcome(c0, name, args, now, c1, r.value)
    else c1.inMulti == c0.inMulti && c1.queue == c0.queue && Dispatch.SendOutcome(c0.world, name, args, now, c1.world, r)
  }

  /** The instance's command `name`, or None when it has none. */
  method Run(c: Instance, name: string, args: seq<Arg>, now: Time) returns (r: Option<Result<Reply>>)
    requires c.Valid()
    modifies c, c.Dbs()
    ensures c.Valid()
    ensures c.replies == old(c.replies)
    ensures forall d :: d in c.Dbs() ==> d in old(c.Dbs()) || fresh(d)
    ensures r.Some? <==> name in Known()
    ensures r.None? ==> c.inMulti == old(c.inMulti) && c.queue == old(c.queue) && c.databases == old(c.databases) && c.databaseId == old(c.databaseId)
    ensures RunOutcome(old(c.SessionOf()), name, args, now, c.SessionOf(), r)
  {
    if name in TransactionCommands.TxNames {
      var res := TransactionCommands.TxCall(c, name, args, now);
      r := Some(res);
    } else {
      r := Dispatch.Send(c, name, args, now);
    }
  }

  /** What `write` answers for the outcome of the command `name`. */
  function Answer(name: string, res: Option<Result<Reply>>): (r: Result<Reply>)
    ensures res.None? ==> r == Err(UnknownCommand(name))
    ensures res.Some? && res.value.Err? ==> r == res.value
    ensures res.Some? && res.value.Ok? ==> r == Ok(Normalize(res.value.value))
  {
    match res
    case None => Err(UnknownCommand(name))
    case Some(Err(e)) => Err(e)
    case Some(Ok(reply)) => Ok(Normalize(reply))
  }

  /**
   * `write(command)` given the session before: while queuing, a command
   * that is not a transaction command is stored under its lower-cased name
   * and answered QUEUED; otherwise the command of the lower-cased name runs.
   */
  ghost predicate WriteOutcome(c0: Session, txCommands: set<string>, cmd: Command, now: Time, c1: Session, r: Result<Reply>)
  {
    var name := Lower(cmd.name);
    if c0.inMulti && name !in txCommands then
      c1 == Session(c0.world, true, c0.queue + [Command(name, cmd.args)]) && r == Ok(Bulk("QUEUED"))
    else exists res :: RunOutcome(c0, name, cmd.args, now, c1, res) && r == Answer(name, res)
  }

  /** A command's name is matched without regard to case: `Command(n, a)` and `Command(Lower(n), a)` behave alike. */
  lemma WriteIgnoresCase(c0: Session, txCommands: set<string>, n: string, args: seq<Arg>, now: Time, c1: Session, r: Result<Reply>)
    ensures WriteOutcome(c0, txCommands, Command(n, args), now, c1, r) <==> WriteOutcome(c0, txCommands, Command(Lower(n), args), now, c1, r)
  {
    LowerIdempotent(n);
  }

  /**
   * `write(command)`. Every command that does not raise appends exactly one
   * reply, its answer with booleans made integers.
   */
  method Write(c: Instance, cmd: Command, now: Time) returns (r: Result<Reply>)
    requires c.Valid()
    modifies c, c.Dbs()
    ensures c.Valid()
    ensures forall d :: d in c.Dbs() ==> d in old(c.Dbs()) || fresh(d)
    ensures r.Ok? ==> c.replies == old(c.replies) + [r.value] && !r.value.Bool?
    ensures r.Err? ==> c.replies == old(c.replies)
    ensures old(c.inMulti) && Lower(cmd.name) !in c.txCommands ==>
      r == Ok(Bulk("QUEUED")) && c.inMulti &&
      c.queue == old(c.queue) + [Command(Lower(cmd.name), cmd.args)] &&
      c.databases == old(c.databases) && c.databaseId == old(c.databaseId)
    ensures !(old(c.inMulti) && Lower(cmd.name) !in c.txCommands) && Lower(cmd.name) !in Known() ==>
      r == Err(UnknownCommand(Lower(cmd.name))) && c.inMulti == old(c.inMulti) && c.queue == old(c.queue) &&
      c.databases == old(c.databases) && c.databaseId == old(c.databaseId)
    ensures WriteOutcome(old(c.SessionOf()), c.txCommands, cmd, now, c.SessionOf(), r)
  {
    var name := Lower(cmd.name);
    if c.inMulti && name !in c.txCommands {
      c.queue := c.queue + [Command(name, cmd.args)];
      c.AddReply(Bulk("QUEUED"));
      return Ok(Bulk("QUEUED"));
    }
    var res := Run(c, name, cmd.args, now);
    r := Answer(name, res);
    if r.Ok? {
      c.AddReply(r.value);
    }
  }
}
