// A database command after its arguments have been bound to the
// parameters of the method of that name: one constructor per method, with
// the aliases (SUBSTR, INCR, DECR, DECRBY) folded into the method they call.

module Requests {

  import opened Common
  import ListCommands
  import HashCommands
  import SortedSetCommands

  datatype StringRequest =
    | Append(key: Key, value: string)
    | GetBit(key: Key, offset: int)
    | MGet(keys: seq<Key>, wrapped: bool)
    | SetEx(key: Key, seconds: int, value: string)
    | GetRange(key: Key, start: int, ending: int)
    | MSet(pairs: seq<string>)
    | SetNx(key: Key, value: string)
    | GetSet(key: Key, value: string)
    | MSetNx(pairs: seq<string>)
    | SetRange(key: Key, offset: int, value: string)
    | IncrBy(key: Key, delta: int)
    | StrLen(key: Key)
    | Set(key: Key, value: string)
    | Get(key: Key)
    | SetBit(key: Key, offset: int, bit: bool)
    | BitCount(key: Key, start: int, last: Option<int>)

  datatype ListRequest =
    | LLen(key: Key)
    | LRange(key: Key, start: int, stop: int)
    | LTrim(key: Key, start: int, stop: int)
    | LIndex(key: Key, index: int)
    | LInsert(key: Key, where: ListCommands.Where, pivot: string, value: string)
    | LSet(key: Key, index: int, value: string)
    | LRem(key: Key, count: int, value: string)
    | RPush(key: Key, values: seq<string>)
    | RPushX(key: Key, values: seq<string>)
    | LPush(key: Key, values: seq<string>)
    | LPushX(key: Key, values: seq<string>)
    | RPop(key: Key)
    | RPopLPush(source: Key, destination: Key)
    | LPop(key: Key)

  datatype SetRequest =
    | SMembers(key: Key)
    | SIsMember(key: Key, member: string)
    | SAdd(key: Key, values: seq<string>)
    | SRem(key: Key, member: string)
    | SMove(source: Key, destination: Key, member: string)
    | SPop(key: Key)
    | SCard(key: Key)
    | SInter(keys: seq<Key>)
    | SInterStore(destination: Key, keys: seq<Key>)
    | SUnion(keys: seq<Key>)
    | SUnionStore(destination: Key, keys: seq<Key>)
    | SDiff(first: Key, keys: seq<Key>)
    | SDiffStore(destination: Key, first: Key, keys: seq<Key>)
    | SRandMember(key: Key)

  datatype HashRequest =
    | HDel(key: Key, field: string)
    | HIncrBy(key: Key, field: string, increment: string)
    | HMGet(key: Key, fields: seq<string>)
    | HSet(key: Key, field: string, value: string)
    | HSetNx(key: Key, field: string, value: string)
    | HMSet(key: Key, fieldArgs: HashCommands.FieldArgs)
    | HLen(key: Key)
    | HVals(key: Key)
    | HExists(key: Key, field: string)
    | HGetAll(key: Key)
    | HGet(key: Key, field: string)
    | HKeys(key: Key)

  datatype SortedSetRequest =
    | ZAdd(key: Key, scores: SortedSetCommands.ScoreArgs)
    | ZRem(key: Key, values: seq<string>)
    | ZCard(key: Key)
    | ZScore(key: Key, member: string)
    | ZCount(key: Key, min: string, max: string)
    | ZIncrBy(key: Key, num: string, member: string)
    | ZRank(key: Key, member: string)
    | ZRevRank(key: Key, member: string)
    | ZRange(key: Key, start: int, stop: int, withScores: bool)
    | ZRevRange(key: Key, start: int, stop: int, withScores: bool)
    | ZRangeByScore(key: Key, min: string, max: string, withScores: bool, limit: Option<(int, int)>)
    | ZRevRangeByScore(key: Key, max: string, min: string, withScores: bool, limit: Option<(int, int)>)
    | ZRemRangeByScore(key: Key, min: string, max: string)
    | ZRemRangeByRank(key: Key, start: int, stop: int)

  /** SORT's options hash. */
  datatype SortOptions = SortOptions(byPattern: Option<string>, limit: seq<int>, patterns: seq<string>, order: Option<string>, store: Option<Key>)

  datatype KeyRequest =
    | Del(keys: seq<Key>)
    | Rename(key: Key, newKey: Key)
    | Exists(key: Key)
    | Ttl(key: Key)
    | Expire(key: Key, seconds: int)
    | Persist(key: Key)
    | RenameNx(key: Key, newKey: Key)
    | ExpireAt(key: Key, timestamp: int)
    | Type(key: Key)
    | Sort(sortKey: Option<Key>, options: SortOptions)

  /** A command on one database, by family. */
  datatype Request =
    | Strings(s: StringRequest)
    | Lists(l: ListRequest)
    | Sets(t: SetRequest)
    | Hashes(h: HashRequest)
    | SortedSets(z: SortedSetRequest)
    | Keys(k: KeyRequest)
}
