// The object a client talks to: the numbered databases registered for its
// host and port, the selected database, the transaction state and the
// replies waiting to be read.

module Instances {

  import opened Common
  import opened ExpiringHashes

  /** A database nobody has written to yet. */
  function EmptyStore(): Store
  {
    Store(map[], map[])
  }

  /** What reading database `i` of a registry sees: an unused or missing slot reads as an empty database. */
  function ViewAt(dbs: seq<Option<Store>>, i: nat): Store
  {
    if i < |dbs| && dbs[i].Some? then dbs[i].value else EmptyStore()
  }

  /**
   * `databases[id] ||= ExpiringHash.new` followed by a write: the registry
   * padded with nil up to `id`, slot `id` holding `st`, every other slot as
   * it was.
   */
  function Installed(dbs: seq<Option<Store>>, id: nat, st: Store): (r: seq<Option<Store>>)
    ensures |r| == Max(|dbs|, id + 1)
    ensures r[id] == Some(st)
    ensures forall i :: 0 <= i < |r| && i != id ==> r[i] == if i < |dbs| then dbs[i] else None
  {
    (if id < |dbs| then dbs else dbs + seq(id + 1 - |dbs|, _ => None))[id := Some(st)]
  }

  /** Installing twice in one slot is installing the last contents. */
  lemma InstalledTwice(dbs: seq<Option<Store>>, id: nat, a: Store, b: Store)
    ensures Installed(dbs, id, a)[id := Some(b)] == Installed(dbs, id, b)
  {
  }

  /** Overwriting two installed slots is installing the new contents. */
  lemma InstalledTwiceBoth(dbs: seq<Option<Store>>, id: nat, other: nat, a: Store, b: Store, a': Store, b': Store)
    requires id != other
    ensures Installed(Installed(dbs, other, b), id, a)[id := Some(a')][other := Some(b')] ==
      Installed(Installed(dbs, other, b'), id, a')
  {
    var x := Installed(Installed(dbs, other, b), id, a)[id := Some(a')][other := Some(b')];
    var y := Installed(Installed(dbs, other, b'), id, a');
    assert |x| == |y|;
    forall i | 0 <= i < |x| ensures x[i] == y[i] {
    }
  }

  /** Installing in a slot what it already holds changes nothing. */
  lemma InstalledSame(dbs: seq<Option<Store>>, id: nat)
    requires id < |dbs| && dbs[id].Some?
    ensures Installed(dbs, id, dbs[id].value) == dbs
  {
  }

  /** Installing in one slot leaves what every other slot reads as. */
  lemma InstalledViews(dbs: seq<Option<Store>>, id: nat, st: Store)
    ensures ViewAt(Installed(dbs, id, st), id) == st
    ensures forall i: nat :: i != id ==> ViewAt(Installed(dbs, id, st), i) == ViewAt(dbs, i)
  {
  }

  /** What an instance's databases hold and which one is selected: the state every command but the transaction ones works on. */
  datatype World = World(registry: seq<Option<Store>>, databaseId: nat)
  {
    /** What the selected database reads as. */
    function Current(): Store
    {
      ViewAt(registry, databaseId)
    }
  }

  /** A world together with the transaction state. */
  datatype Session = Session(world: World, inMulti: bool, queue: seq<Command>)

  class Instance {
    /** The registry entry of this host and port; a slot is nil until `find_database` fills it. */
    var databases: seq<ExpiringHash?>
    /** The database SELECT chose. */
    var databaseId: nat
    /** Whether MULTI has started queuing. */
    var inMulti: bool
    /** The commands queued since MULTI, as `[name, *args]`. */
    var queue: seq<Command>
    /** Replies waiting for the client to read them. */
    var replies: seq<Reply>
    /** The commands `write` runs even while queuing. */
    const txCommands: set<string>

    /** The databases that exist. */
    ghost function Dbs(): set<ExpiringHash>
      reads this
    {
      set d: ExpiringHash | d in databases
    }

    /**
     * No database object sits in two slots, a queue exists only while
     * queuing and never holds a transaction command, and MULTI, EXEC and
     * DISCARD are transaction commands.
     */
    ghost predicate Valid()
      reads this
    {
      (forall i, j :: 0 <= i < j < |databases| && databases[i] != null ==> databases[i] != databases[j]) &&
      (!inMulti ==> queue == []) &&
      (forall i :: 0 <= i < |queue| ==> queue[i].name !in txCommands) &&
      "multi" in txCommands && "exec" in txCommands && "discard" in txCommands
    }

    /** The contents of every slot. */
    ghost function Registry(): (r: seq<Option<Store>>)
      reads this, Dbs()
      ensures |r| == |databases|
      ensures forall i :: 0 <= i < |databases| ==> r[i] == if databases[i] == null then None else Some(databases[i].State())
    {
      RegistryOf(databases)
    }

    /** What database `i` reads as. */
    ghost function View(i: nat): Store
      reads this, Dbs()
    {
      ViewAt(Registry(), i)
    }

    /** The registry and the selection. */
    ghost function Snapshot(): World
      reads this, Dbs()
    {
      World(Registry(), databaseId)
    }

    /** The registry, the selection and the transaction state. */
    ghost function SessionOf(): Session
      reads this, Dbs()
    {
      Session(Snapshot(), inMulti, queue)
    }

    constructor (txCommands: set<string>)
      requires "multi" in txCommands && "exec" in txCommands && "discard" in txCommands
      ensures Valid()
      ensures databases == [] && databaseId == 0 && !inMulti && queue == [] && replies == []
      ensures this.txCommands == txCommands
    {
      databases := [];
      databaseId := 0;
      inMulti := false;
      queue := [];
      replies := [];
      this.txCommands := txCommands;
    }

    /** `replies << reply`: one more reply; the databases and the transaction state stay. */
    method AddReply(reply: Reply)
      requires Valid()
      modifies this
      ensures Valid()
      ensures replies == old(replies) + [reply]
      ensures databases == old(databases) && databaseId == old(databaseId)
      ensures inMulti == old(inMulti) && queue == old(queue)
      ensures SessionOf() == old(SessionOf())
    {
      replies := replies + [reply];
    }
  }

  ghost function RegistryOf(dbs: seq<ExpiringHash?>): (r: seq<Option<Store>>)
    reads set d: ExpiringHash | d in dbs
    ensures |r| == |dbs|
    ensures forall i :: 0 <= i < |dbs| ==> r[i] == if dbs[i] == null then None else Some(dbs[i].State())
  {
    if dbs == [] then []
    else [if dbs[0] == null then None else Some(dbs[0].State())] + RegistryOf(dbs[1..])
  }

  /** Ruby's array assignment past the end: the missing slots up to `n` are nil. */
  function Padded(dbs: seq<ExpiringHash?>, n: nat): (r: seq<ExpiringHash?>)
    ensures |r| == Max(|dbs|, n)
    ensures forall i :: 0 <= i < |r| ==> r[i] == if i < |dbs| then dbs[i] else null
  {
    if |dbs| >= n then dbs else dbs + seq(n - |dbs|, _ => null)
  }

  /** Filling an unused slot adds exactly the new database to the set of databases. */
  lemma FillSlot(dbs: seq<ExpiringHash?>, filled: seq<ExpiringHash?>, id: nat, db: ExpiringHash)
    requires id >= |dbs| || dbs[id] == null
    requires filled == Padded(dbs, id + 1)[id := db]
    ensures (set d: ExpiringHash | d in filled) == (set d: ExpiringHash | d in dbs) + {db}
  {
    assert filled[id] == db;
    forall d: ExpiringHash ensures d in filled <==> d in dbs || d == db {
      if d in filled {
        var k :| 0 <= k < |filled| && filled[k] == d;
        if k != id {
          assert dbs[k] == d;
        }
      }
      if d in dbs {
        var k :| 0 <= k < |dbs| && dbs[k] == d;
        assert filled[k] == d;
      }
    }
  }

  /**
   * `find_database(id)`: the database in slot `id`, created empty (and the
   * registry padded with nil) when the slot is unused. No database changes
   * what it reads as.
   */
  method FindDatabase(c: Instance, id: nat) returns (db: ExpiringHash)
    requires c.Valid()
    modifies c
    ensures c.Valid()
    ensures c.databaseId == old(c.databaseId) && c.inMulti == old(c.inMulti) && c.queue == old(c.queue) && c.replies == old(c.replies)
    ensures id < |c.databases| && c.databases[id] == db
    ensures |c.databases| == Max(|old(c.databases)|, id + 1)
    ensures forall i :: 0 <= i < |c.databases| && i != id ==> c.databases[i] == if i < |old(c.databases)| then old(c.databases)[i] else null
    ensures id < |old(c.databases)| && old(c.databases)[id] != null ==> db == old(c.databases)[id]
    ensures db in old(c.Dbs()) || (fresh(db) && db.State() == EmptyStore())
    ensures c.Dbs() == old(c.Dbs()) + {db}
    ensures forall i: nat :: c.View(i) == old(c.View(i))
    ensures c.Registry() == Installed(old(c.Registry()), id, db.State())
  {
    if id < |c.databases| && c.databases[id] != null {
      db := c.databases[id];
      assert db in c.Dbs();
      InstalledSame(c.Registry(), id);
      return;
    }
    db := AddDatabase(c, id);
  }

  /** The unused slot `id` gets a new, empty database; the registry is padded with nil up to it. */
  method AddDatabase(c: Instance, id: nat) returns (db: ExpiringHash)
    requires c.Valid() && (id >= |c.databases| || c.databases[id] == null)
    modifies c
    ensures c.Valid()
    ensures c.databaseId == old(c.databaseId) && c.inMulti == old(c.inMulti) && c.queue == old(c.queue) && c.replies == old(c.replies)
    ensures c.databases == Padded(old(c.databases), id + 1)[id := db]
    ensures fresh(db) && db.State() == EmptyStore()
    ensures c.Dbs() == old(c.Dbs()) + {db}
    ensures forall i: nat :: c.View(i) == old(c.View(i))
    ensures c.Registry() == Installed(old(c.Registry()), id, EmptyStore())
  {
    db := new ExpiringHash();
    InstallDatabase(c, id, db);
  }

  /** Slot `id`, unused, receives `db`, an empty database found in no slot. */
  method InstallDatabase(c: Instance, id: nat, db: ExpiringHash)
    requires c.Valid() && (id >= |c.databases| || c.databases[id] == null)
    requires db !in c.databases && db.State() == EmptyStore()
    modifies c
    ensures c.Valid()
    ensures c.databaseId == old(c.databaseId) && c.inMulti == old(c.inMulti) && c.queue == old(c.queue) && c.replies == old(c.replies)
    ensures c.databases == Padded(old(c.databases), id + 1)[id := db]
    ensures c.Dbs() == old(c.Dbs()) + {db}
    ensures forall i: nat :: c.View(i) == old(c.View(i))
    ensures c.Registry() == Installed(old(c.Registry()), id, EmptyStore())
  {
    ghost var dbs0 := c.databases;
    ghost var reg0 := RegistryOf(dbs0);
    c.databases := Padded(c.databases, id + 1)[id := db];
    assert c.Dbs() == old(c.Dbs()) + {db} by {
      FillSlot(dbs0, c.databases, id, db);
    }
    assert c.Valid() by {
      FilledDistinct(dbs0, c.databases, id, db);
    }
    assert RegistryOf(dbs0) == reg0;
    forall i: nat ensures c.View(i) == old(c.View(i)) {
      FilledView(dbs0, c.databases, id, db, i);
    }
    FilledRegistry(dbs0, c.databases, id, db);
  }

  /** The registry after a fresh, empty database fills an unused slot. */
  lemma FilledRegistry(dbs: seq<ExpiringHash?>, filled: seq<ExpiringHash?>, id: nat, db: ExpiringHash)
    requires id >= |dbs| || dbs[id] == null
    requires filled == Padded(dbs, id + 1)[id := db]
    requires db.State() == EmptyStore()
    ensures RegistryOf(filled) == Installed(RegistryOf(dbs), id, EmptyStore())
  {
    var r, e := RegistryOf(filled), Installed(RegistryOf(dbs), id, EmptyStore());
    assert |r| == |e|;
    forall i | 0 <= i < |r| ensures r[i] == e[i] {
      if i != id {
        assert filled[i] == if i < |dbs| then dbs[i] else null;
      }
    }
  }

  /** A fresh database in an unused slot keeps every database object in one slot. */
  lemma FilledDistinct(dbs: seq<ExpiringHash?>, filled: seq<ExpiringHash?>, id: nat, db: ExpiringHash)
    requires forall i, j :: 0 <= i < j < |dbs| && dbs[i] != null ==> dbs[i] != dbs[j]
    requires id >= |dbs| || dbs[id] == null
    requires db !in dbs
    requires filled == Padded(dbs, id + 1)[id := db]
    ensures forall i, j :: 0 <= i < j < |filled| && filled[i] != null ==> filled[i] != filled[j]
  {
    forall i, j | 0 <= i < j < |filled| && filled[i] != null ensures filled[i] != filled[j] {
      if i == id {
        if j < |dbs| { assert dbs[j] in dbs; }
      } else if j == id {
        assert dbs[i] in dbs;
      } else if j < |dbs| {
        assert filled[i] == dbs[i] && filled[j] == dbs[j];
      }
    }
  }

  /** An empty database in an unused slot changes what no slot reads as. */
  lemma FilledView(dbs: seq<ExpiringHash?>, filled: seq<ExpiringHash?>, id: nat, db: ExpiringHash, i: nat)
    requires id >= |dbs| || dbs[id] == null
    requires filled == Padded(dbs, id + 1)[id := db]
    requires db.State() == EmptyStore()
    ensures ViewAt(RegistryOf(filled), i) == ViewAt(RegistryOf(dbs), i)
  {
    if i < |filled| && i != id {
      assert filled[i] == if i < |dbs| then dbs[i] else null;
    }
  }
}
