// SELECT: the connection's choice of database. AUTH, QUIT, ECHO and PING
// answer constants and are answered by the dispatcher.

module ConnectionCommands {

  import opened Common
  import opened Instances

  /**
   * SELECT: the current database id becomes `index`; nothing else changes.
   * The type check on the index inspects the value stored under the index
   * as a key, and keys are strings, so it never refuses.
   */
  method Select(c: Instance, index: nat) returns (r: Reply)
    requires c.Valid()
    modifies c
    ensures c.Valid() && r == Bulk("OK")
    ensures c.databaseId == index
    ensures c.databases == old(c.databases) && c.inMulti == old(c.inMulti) && c.queue == old(c.queue) && c.replies == old(c.replies)
  {
    c.databaseId := index;
    r := Bulk("OK");
  }
}
