// The names an instance responds to, by the family of commands they belong to.

module Names {

  const StringNames: set<string> := {
    "append", "getbit", "mget", "setex", "getrange", "substr", "mset", "setnx", "getset", "msetnx",
    "setrange", "incr", "incrby", "decr", "decrby", "strlen", "set", "get", "setbit", "bitcount" }

  const ListNames: set<string> := {
    "llen", "lrange", "ltrim", "lindex", "linsert", "lset", "lrem", "rpush", "rpushx", "lpush", "lpushx",
    "rpop", "rpoplpush", "lpop" }

  const SetNames: set<string> := {
    "smembers", "sismember", "sadd", "srem", "smove", "spop", "scard", "sinter", "sinterstore",
    "sunion", "sunionstore", "sdiff", "sdiffstore", "srandmember" }

  const HashNames: set<string> := {
    "hdel", "hincrby", "hmget", "hset", "hsetnx", "hmset", "hlen", "hvals", "hexists", "hgetall", "hget", "hkeys" }

  const SortedSetNames: set<string> := {
    "zadd", "zrem", "zcard", "zscore", "zcount", "zincrby", "zrank", "zrevrank", "zrange", "zrevrange",
    "zrangebyscore", "zrevrangebyscore", "zremrangebyscore", "zremrangebyrank" }

  const KeyNames: set<string> := {
    "del", "rename", "exists", "ttl", "expire", "persist", "renamenx", "expireat", "type", "sort" }

  /** The commands that read or change the instance rather than one database. */
  const InstanceNames: set<string> := { "move", "select", "flushdb", "flushall", "dbsize" }

  /**
   * The commands that touch no database and change nothing: their answer
   * depends only on their arguments and the clock.
   */
  const StatelessNames: set<string> := {
    "auth", "quit", "echo", "ping", "bgrewriteaof", "monitor", "save", "bgsave", "shutdown",
    "slaveof", "sync", "lastsave" }

  /** The commands on one database. */
  function DataNames(): set<string>
  {
    StringNames + ListNames + SetNames + HashNames + SortedSetNames + KeyNames
  }

  /** The names `send` finds, apart from the transaction commands. */
  function CommandNames(): set<string>
  {
    DataNames() + InstanceNames + StatelessNames
  }

  /** SET and GET are database commands, neither constant nor instance ones. */
  lemma SetGetNames()
    ensures "set" in DataNames() && "set" !in StatelessNames + InstanceNames
    ensures "get" in DataNames() && "get" !in StatelessNames + InstanceNames
  {
    assert "set" in StringNames && "get" in StringNames;
    assert "set" !in StatelessNames && "get" !in StatelessNames;
    assert "set" !in InstanceNames && "get" !in InstanceNames;
  }
}
