// MULTI, EXEC, DISCARD, WATCH and UNWATCH: the instance is either idle or
// queuing; while queuing, commands are stored instead of run, and EXEC runs
// them in order, each error becoming that command's result.

module TransactionCommands {

  import opened Common
  import opened ExpiringHashes
  import opened Instances
  import Dispatch
  import Names
  import Requests

  /** The commands this module defines. */
  const TxNames: set<string> := { "multi", "exec", "discard", "watch", "unwatch" }

  /** WATCH takes one key and, since nothing is ever watched, answers OK. */
  function Watch(args: seq<Arg>): (r: Result<Reply>)
    ensures r.Ok? <==> |args| == 1
    ensures r.Ok? ==> r.value == Bulk("OK")
  {
    if |args| == 1 then Ok(Bulk("OK")) else Err(Dispatch.Arity)
  }

  /** UNWATCH takes nothing and answers OK. */
  function Unwatch(args: seq<Arg>): (r: Result<Reply>)
    ensures r.Ok? <==> args == []
    ensures r.Ok? ==> r.value == Bulk("OK")
  {
    if args == [] then Ok(Bulk("OK")) else Err(Dispatch.Arity)
  }

  /** `rescue => e; e`: a raised error becomes the result itself. */
  function Captured(r: Result<Reply>): (reply: Reply)
    ensures r.Ok? ==> reply == r.value
    ensures r.Err? ==> reply == Failed(r.error)
  {
    match r
    case Ok(v) => v
    case Err(e) => Failed(e)
  }

  /** A queued command's result: its answer or the error it raised, and NoMethodError for a name the instance lacks. */
  function QueuedReply(r: Option<Result<Reply>>): (reply: Reply)
    ensures r.None? ==> reply == Failed(RubyError("NoMethodError"))
    ensures r.Some? ==> reply == Captured(r.value)
  {
    if r.Some? then Captured(r.value) else Failed(RubyError("NoMethodError"))
  }

  /** One queued command run by EXEC on world `w`, leaving `w'`. */
  ghost predicate QueuedOutcome(w: World, cmd: Command, now: Time, w': World, reply: Reply)
  {
    if cmd.name == "watch" then w' == w && reply == Captured(Watch(cmd.args))
    else if cmd.name == "unwatch" then w' == w && reply == Captured(Unwatch(cmd.args))
    else exists r :: Dispatch.SendOutcome(w, cmd.name, cmd.args, now, w', r) && reply == QueuedReply(r)
  }

  /**
   * EXEC's loop: the commands run one after the other, each on the world the
   * previous one left, and `results` holds their results in order.
   */
  ghost predicate Runs(w: World, cmds: seq<Command>, now: Time, w': World, results: seq<Reply>)
    decreases |cmds|, 1
  {
    |results| == |cmds| &&
    if cmds == [] then w' == w else exists mid :: RunsThrough(w, cmds, now, mid, w', results)
  }

  /** The run of all but the last command leaves `mid`, and the last one, run on `mid`, leaves `w'`. */
  ghost predicate RunsThrough(w: World, cmds: seq<Command>, now: Time, mid: World, w': World, results: seq<Reply>)
    requires |cmds| == |results| > 0
    decreases |cmds|, 0
  {
    Runs(w, cmds[..|cmds| - 1], now, mid, results[..|results| - 1]) &&
    QueuedOutcome(mid, cmds[|cmds| - 1], now, w', results[|results| - 1])
  }

  /** Running one more command extends the run. */
  lemma RunsStep(w: World, cmds: seq<Command>, now: Time, mid: World, results: seq<Reply>, cmd: Command, w': World, reply: Reply)
    requires Runs(w, cmds, now, mid, results)
    requires QueuedOutcome(mid, cmd, now, w', reply)
    ensures Runs(w, cmds + [cmd], now, w', results + [reply])
  {
    assert (cmds + [cmd])[..|cmds|] == cmds;
    assert (results + [reply])[..|results|] == results;
    assert RunsThrough(w, cmds + [cmd], now, mid, w', results + [reply]);
  }

  /** Running command `i` after the run of the first `i` extends it to the first `i + 1`. */
  lemma RunsNext(w: World, cmds: seq<Command>, i: nat, now: Time, mid: World, results: seq<Reply>, w': World, reply: Reply)
    requires i < |cmds| && Runs(w, cmds[..i], now, mid, results)
    requires QueuedOutcome(mid, cmds[i], now, w', reply)
    ensures Runs(w, cmds[..i + 1], now, w', results + [reply])
  {
    var next := cmds[..i + 1];
    assert next[..i] == cmds[..i] && next[i] == cmds[i];
    assert (results + [reply])[..|results|] == results;
    assert RunsThrough(w, next, now, mid, w', results + [reply]);
  }

  /** One command run: on `w`, leaving the world the run ends in. */
  lemma RunsOne(w: World, first: Command, now: Time, w': World, results: seq<Reply>)
    requires Runs(w, [first], now, w', results)
    ensures |results| == 1
    ensures QueuedOutcome(w, first, now, w', results[0])
  {
    var cmds := [first];
    var start :| RunsThrough(w, cmds, now, start, w', results);
    assert Runs(w, cmds[..|cmds| - 1], now, start, results[..|results| - 1]);
    assert cmds[..|cmds| - 1] == [];
    assert Runs(w, [], now, start, results[..|results| - 1]);
    assert cmds[|cmds| - 1] == first;
    assert results[|results| - 1] == results[0];
  }

  /** Two commands run: the first on `w`, the second on the world `mid` the first left. */
  lemma RunsTwo(w: World, first: Command, second: Command, now: Time, w': World, results: seq<Reply>) returns (mid: World)
    requires Runs(w, [first, second], now, w', results)
    ensures |results| == 2
    ensures QueuedOutcome(w, first, now, mid, results[0]) && QueuedOutcome(mid, second, now, w', results[1])
  {
    var cmds := [first, second];
    mid :| RunsThrough(w, cmds, now, mid, w', results);
    assert cmds[..|cmds| - 1] == [first];
    RunsOne(w, first, now, mid, results[..|results| - 1]);
    assert cmds[|cmds| - 1] == second;
    assert results[|results| - 1] == results[1];
  }

  /** A queued database command: what the current database's outcome says, with the registry filled at the current slot. */
  lemma QueuedData(w: World, cmd: Command, now: Time, w': World, reply: Reply) returns (r: Result<Reply>)
    requires QueuedOutcome(w, cmd, now, w', reply)
    requires cmd.name in Names.DataNames() && cmd.name !in Names.StatelessNames + Names.InstanceNames + {"watch", "unwatch"}
    ensures Dispatch.CurrentOutcome(w, cmd.name, cmd.args, now, w', r) && reply == Captured(r)
  {
    var res :| Dispatch.SendOutcome(w, cmd.name, cmd.args, now, w', res) && reply == QueuedReply(res);
    r := res.value;
  }

  /** SET and GET are database commands, neither a constant one, an instance one nor WATCH or UNWATCH. */
  lemma SetGetQueued()
    ensures "set" in Names.DataNames() && "set" !in Names.StatelessNames + Names.InstanceNames + {"watch", "unwatch"}
    ensures "get" in Names.DataNames() && "get" !in Names.StatelessNames + Names.InstanceNames + {"watch", "unwatch"}
  {
    Names.SetGetNames();
  }

  /** SET k v in a transaction: OK, and the current database holds v under k. */
  lemma QueuedSet(w: World, k: Key, v: string, now: Time, w': World, reply: Reply)
    requires QueuedOutcome(w, Command("set", [Text(k), Text(v)]), now, w', reply)
    ensures reply == Bulk("OK") && Read(w'.Current(), k, now) == Some(StrVal(v))
  {
    SetGetQueued();
    var r := QueuedData(w, Command("set", [Text(k), Text(v)]), now, w', reply);
    Dispatch.CurrentSet(w, k, v, now, w', r);
    AssignRead(w.Current(), k, StrVal(v), now, k);
  }

  /** GET k in a transaction: the string k holds; nothing reads differently afterwards. */
  lemma QueuedGet(w: World, k: Key, v: string, now: Time, w': World, reply: Reply)
    requires QueuedOutcome(w, Command("get", [Text(k)]), now, w', reply)
    requires Read(w.Current(), k, now) == Some(StrVal(v))
    ensures reply == Bulk(v) && Read(w'.Current(), k, now) == Some(StrVal(v))
  {
    SetGetQueued();
    var r := QueuedData(w, Command("get", [Text(k)]), now, w', reply);
    Dispatch.CurrentGet(w, k, now, w', r);
    PurgeInvisible(w.Current(), k, now, k);
  }

  /**
   * MULTI; SET k v; GET k; EXEC answers OK and then v, because GET runs on
   * the database SET left, and afterwards k holds v.
   */
  lemma SetThenGet(w: World, k: Key, v: string, now: Time, w': World, results: seq<Reply>)
    requires Runs(w, [Command("set", [Text(k), Text(v)]), Command("get", [Text(k)])], now, w', results)
    ensures results == [Bulk("OK"), Bulk(v)]
    ensures Read(w'.Current(), k, now) == Some(StrVal(v))
  {
    var mid := RunsTwo(w, Command("set", [Text(k), Text(v)]), Command("get", [Text(k)]), now, w', results);
    QueuedSet(w, k, v, now, mid, results[0]);
    QueuedGet(mid, k, v, now, w', results[1]);
  }

  /**
   * `send(*cmd)` for a queued command: WATCH and UNWATCH answer here, every
   * other name goes to the instance's commands, and a name the instance
   * does not have raises NoMethodError, captured like any other error.
   */
  method RunQueued(c: Instance, cmd: Command, now: Time) returns (reply: Reply)
    requires c.Valid() && cmd.name !in {"multi", "exec", "discard"}
    modifies c, c.Dbs()
    ensures c.Valid()
    ensures c.inMulti == old(c.inMulti) && c.queue == old(c.queue) && c.replies == old(c.replies)
    ensures forall d :: d in c.Dbs() ==> d in old(c.Dbs()) || fresh(d)
    ensures QueuedOutcome(old(c.Snapshot()), cmd, now, c.Snapshot(), reply)
  {
    if cmd.name == "watch" {
      return Captured(Watch(cmd.args));
    }
    if cmd.name == "unwatch" {
      return Captured(Unwatch(cmd.args));
    }
    var r := Dispatch.Send(c, cmd.name, cmd.args, now);
    reply := QueuedReply(r);
  }

  /** One turn of EXEC's loop: queued command `i` runs and its result is appended. */
  method ExecStep(c: Instance, cmds: seq<Command>, i: nat, now: Time, ghost w0: World, results: seq<Reply>)
    returns (results': seq<Reply>)
    requires c.Valid() && i < |cmds| && cmds[i].name !in c.txCommands
    requires Runs(w0, cmds[..i], now, c.Snapshot(), results)
    modifies c, c.Dbs()
    ensures c.Valid()
    ensures c.inMulti == old(c.inMulti) && c.queue == old(c.queue) && c.replies == old(c.replies)
    ensures forall d :: d in c.Dbs() ==> d in old(c.Dbs()) || fresh(d)
    ensures |results'| == |results| + 1
    ensures Runs(w0, cmds[..i + 1], now, c.Snapshot(), results')
  {
    ghost var before := c.Snapshot();
    var reply := RunQueued(c, cmds[i], now);
    RunsNext(w0, cmds, i, now, before, results, c.Snapshot(), reply);
    results' := results + [reply];
  }

  /** A run of the whole prefix is a run of the sequence. */
  lemma RunsWhole(w: World, cmds: seq<Command>, now: Time, w': World, results: seq<Reply>)
    requires Runs(w, cmds[..|cmds|], now, w', results)
    ensures Runs(w, cmds, now, w', results)
  {
    assert cmds[..|cmds|] == cmds;
  }

  /** Queuing stops and the queue is dropped; no database changes. */
  method EndTransaction(c: Instance)
    requires c.Valid()
    modifies c
    ensures c.Valid()
    ensures c.SessionOf() == Session(old(c.Snapshot()), false, [])
    ensures c.databases == old(c.databases) && c.replies == old(c.replies)
  {
    c.inMulti := false;
    c.queue := [];
  }

  /** EXEC's loop: the commands run one after the other, and their results are collected in order. */
  method RunAll(c: Instance, cmds: seq<Command>, now: Time, ghost w0: World) returns (results: seq<Reply>)
    requires c.Valid() && forall i :: 0 <= i < |cmds| ==> cmds[i].name !in c.txCommands
    requires c.Snapshot() == w0
    modifies c, c.Dbs()
    ensures c.Valid()
    ensures c.inMulti == old(c.inMulti) && c.queue == old(c.queue) && c.replies == old(c.replies)
    ensures forall d :: d in c.Dbs() ==> d in old(c.Dbs()) || fresh(d)
    ensures |results| == |cmds|
    ensures Runs(w0, cmds, now, c.Snapshot(), results)
  {
    results := [];
    var i := 0;
    while i < |cmds|
      invariant 0 <= i <= |cmds|
      invariant c.Valid() && c.inMulti == old(c.inMulti) && c.queue == old(c.queue) && c.replies == old(c.replies)
      invariant forall d :: d in c.Dbs() ==> d in old(c.Dbs()) || fresh(d)
      invariant |results| == i
      invariant Runs(w0, cmds[..i], now, c.Snapshot(), results)
    {
      results := ExecStep(c, cmds, i, now, w0, results);
      i := i + 1;
    }
    RunsWhole(w0, cmds, now, c.Snapshot(), results);
  }

  /**
   * EXEC: refused when not queuing. Otherwise every queued command runs, in
   * the order queued, each on the world the previous one left, and
   * afterwards the instance is idle with an empty queue.
   */
  method Exec(c: Instance, now: Time) returns (r: Result<Reply>)
    requires c.Valid()
    modifies c, c.Dbs()
    ensures c.Valid()
    ensures c.replies == old(c.replies)
    ensures forall d :: d in c.Dbs() ==> d in old(c.Dbs()) || fresh(d)
    ensures !old(c.inMulti) ==> r == Err(ExecWithoutMulti) && c.SessionOf() == old(c.SessionOf())
    ensures old(c.inMulti) ==>
      !c.inMulti && c.queue == [] && r.Ok? && r.value.Array? && |r.value.items| == |old(c.queue)| &&
      Runs(old(c.Snapshot()), old(c.queue), now, c.Snapshot(), r.value.items)
  {
    if !c.inMulti {
      return Err(ExecWithoutMulti);
    }
    var results := RunAll(c, c.queue, now, c.Snapshot());
    EndTransaction(c);
    r := Ok(Array(results));
  }

  /**
   * MULTI: refused while already queuing; otherwise queuing starts. The
   * block form, which runs a block between MULTI and its answer, is not
   * modelled.
   */
  method Multi(c: Instance) returns (r: Result<Reply>)
    requires c.Valid()
    modifies c
    ensures c.Valid()
    ensures c.databases == old(c.databases) && c.databaseId == old(c.databaseId) && c.queue == old(c.queue) && c.replies == old(c.replies)
    ensures old(c.inMulti) ==> r == Err(NestedMulti) && c.inMulti
    ensures !old(c.inMulti) ==> r == Ok(Bulk("OK")) && c.inMulti
  {
    if c.inMulti {
      return Err(NestedMulti);
    }
    c.inMulti := true;
    r := Ok(Bulk("OK"));
  }

  /** DISCARD: refused when not queuing; otherwise the queue is dropped, no queued command having run. */
  method Discard(c: Instance) returns (r: Result<Reply>)
    requires c.Valid()
    modifies c
    ensures c.Valid()
    ensures c.databases == old(c.databases) && c.databaseId == old(c.databaseId) && c.replies == old(c.replies)
    ensures !c.inMulti && c.queue == []
    ensures r == if old(c.inMulti) then Ok(Bulk("OK")) else Err(DiscardWithoutMulti)
  {
    if !c.inMulti {
      return Err(DiscardWithoutMulti);
    }
    EndTransaction(c);
    r := Ok(Bulk("OK"));
  }

  /** One of this module's commands, given the session before. */
  ghost predicate TxOutcome(c0: Session, name: string, args: seq<Arg>, now: Time, c1: Session, r: Result<Reply>)
    requires name in TxNames
  {
    match name
    case "multi" =>
      if args != [] then c1 == c0 && r == Err(Dispatch.Arity)
      else if c0.inMulti then c1 == c0 && r == Err(NestedMulti)
      else c1 == Session(c0.world, true, c0.queue) && r == Ok(Bulk("OK"))
    case "exec" =>
      if args != [] then c1 == c0 && r == Err(Dispatch.Arity)
      else if !c0.inMulti then c1 == c0 && r == Err(ExecWithoutMulti)
      else !c1.inMulti && c1.queue == [] && r.Ok? && r.value.Array? && Runs(c0.world, c0.queue, now, c1.world, r.value.items)
    case "discard" =>
      if args != [] then c1 == c0 && r == Err(Dispatch.Arity)
      else if !c0.inMulti then c1 == c0 && r == Err(DiscardWithoutMulti)
      else c1 == Session(c0.world, false, []) && r == Ok(Bulk("OK"))
    case "watch" => c1 == c0 && r == Watch(args)
    case "unwatch" => c1 == c0 && r == Unwatch(args)
  }

  /** One of this module's commands, by name. */
  method TxCall(c: Instance, name: string, args: seq<Arg>, now: Time) returns (r: Result<Reply>)
    requires c.Valid() && name in TxNames
    modifies c, c.Dbs()
    ensures c.Valid()
    ensures c.replies == old(c.replies)
    ensures forall d :: d in c.Dbs() ==> d in old(c.Dbs()) || fresh(d)
    ensures name in {"watch", "unwatch"} ==> c.inMulti == old(c.inMulti) && c.queue == old(c.queue) && c.databases == old(c.databases)
    ensures TxOutcome(old(c.SessionOf()), name, args, now, c.SessionOf(), r)
  {
    match name
    case "multi" =>
      if args != [] { return Err(Dispatch.Arity); }
      r := Multi(c);
    case "exec" =>
      if args != [] { return Err(Dispatch.Arity); }
      r := Exec(c, now);
    case "discard" =>
      if args != [] { return Err(Dispatch.Arity); }
      r := Discard(c);
    case "watch" =>
      r := Watch(args);
    case "unwatch" =>
      r := Unwatch(args);
  }
}
