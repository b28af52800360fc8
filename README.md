# fakeredis storage engine in Dafny

This model covers the in-memory key-value engine behind fakeredis, the Ruby stand-in for a Redis server. It includes:

- **The lazy-expiring key table.** `ExpiringHash` is a hash plus a hash of expiry times. Every lookup first deletes a key whose expiry has passed, and every assignment clears the key's expiry.
- **The sorted-set value.** `ZSet` is a member-to-score hash whose scores are parsed, `±inf` included.
- **The typed command modules.** These are strings, lists, sets, hashes, sorted sets, keys, server and connection, working on one numbered database or on the registry of databases.
- **SORT.** It projects elements through key patterns, orders them in a direction and takes a LIMIT window.
- **The transaction state machine and the entry point `write`.** `write` lower-cases the command name and, while queuing, queues the command. Otherwise it dispatches the command, and it turns boolean answers into 1 and 0.

## How it is modelled

- **A database** is the class `ExpiringHashes.ExpiringHash`. It has two `map` fields that its methods update in place.
- **The `Store` functions specify those methods.** Every method states its new state with a pure function on the pair of maps, a `Store`: `Read`, `Purge`, `Assign`, `Mutate`, `Remove`, `PurgeKeys`, `PurgeAll`, `SetExpiry`.
  - `Assign` is Ruby's `data[key] = v`, which clears the expiry.
  - `Mutate` is an in-place change of the stored Ruby object, such as `data[key] << v`, which keeps the expiry.
  - The properties of the table are lemmas about these functions.
- **Each command** is a method on a database.
  - Its `ensures` ties the reply and the new store to the old store.
  - Where the command loops or edits in place, so does the method.
  - The properties the source promises are lemmas about the functions those contracts use.
- **The connection** is the class `Instances.Instance`. It holds:
  - the registry of numbered databases (`nil` for a slot never used);
  - the selected database id;
  - the MULTI flag, the queue of commands and the replies.
- **`Instance.Registry()` and `Instance.View(i)`** give what each database reads as.
- **Time is a parameter `now`**, in whole seconds.
- **Scores are `NegInf | Fin(int) | PosInf`.**
- **Random choices are free choices.** SPOP and SRANDMEMBER may return any member.
- **Errors are `Err` values** of `Common.Result`. A Ruby exception the code does not anticipate is `RubyError(<class name>)`.
- **Dispatch.** `Dispatch.Decode` binds the client's arguments (`Common.Arg`: a string, an integer, a symbol, an array, an options hash or nil) to a database command's parameters, giving a `Requests.Request`. A wrong argument count is Ruby's `ArgumentError`. Keys are strings, and an argument of a shape the model does not represent is refused as a `TypeError`; these refusals are the model's own (see "## Left out"). `Dispatch.Execute` runs the decoded command, and `Dispatch.Send` routes a name to a command that touches no database, a registry command or a database command.
- **Outcome predicates specify the routing.** Each command family has a ghost predicate relating the store before, the request, the store after and the reply, built from the command methods' own contracts. `Dispatch.SendOutcome` does the same for a whole `World` (the registry and the selected id), `TransactionCommands.Runs` chains the outcomes of EXEC's queued commands in order, and `CommandExecutor.WriteOutcome` describes `write` on a `Session` (the world plus the MULTI flag and the queue).

## Model

| member | source | states |
|---|---|---|
| ExpiringHashes.PurgeInvisible | lib/fakeredis/expiring_hash.rb:12-15 | deleting an expired key changes what no key reads as, and leaves the set of live keys as it was |
| ExpiringHashes.PurgeExact | lib/fakeredis/expiring_hash.rb:35-38 | after the purge a key is stored exactly when it was live, so `key?` answers whether it is live |
| ExpiringHashes.PurgeKeysInvisible | lib/fakeredis/expiring_hash.rb:40-43 | purging the requested keys before `values_at` changes what no key reads as |
| ExpiringHashes.PurgeAllLeavesLive | lib/fakeredis/expiring_hash.rb:45-54 | after `keys` the stored keys are exactly the live ones |
| ExpiringHashes.AssignRead | lib/fakeredis/expiring_hash.rb:17-20 | an assigned key reads as the new value and has no expiry; no other key changes |
| ExpiringHashes.AssignAbsorbsPurge | lib/fakeredis/expiring_hash.rb:17-20 | assigning a key makes an earlier purge of it irrelevant |
| ExpiringHashes.MutateRead | lib/fakeredis/expiring_hash.rb:17-20 | an in-place change of a live object keeps its expiry: it reads as the new object until the time it expires |
| ExpiringHashes.RemoveRead | lib/fakeredis/expiring_hash.rb:22-25 | a deleted key reads as nil and has no expiry record |
| ExpiringHashes.ExpiryIsFinal | lib/fakeredis/expiring_hash.rb:31-33 | a key expired now is still expired at every later time |
| ExpiringHashes.PurgeLive | lib/fakeredis/expiring_hash.rb:12-15 | the purge of a key that has not expired changes nothing |
| ExpiringHashes.MutateTwice | lib/fakeredis/expiring_hash.rb:17-20 | two in-place changes of one key amount to the last one |
| ExpiringHashes.MutateAfterAssign | lib/fakeredis/expiring_hash.rb:17-20 | changing in place an object just assigned is assigning the changed object |
| ExpiringHashes.MutateRemove | lib/fakeredis/expiring_hash.rb:22-25 | deleting a key forgets every in-place change made to it |
| ExpiringHashes.MutateSame | lib/fakeredis/expiring_hash.rb:17-20 | writing back the object a key holds changes nothing |
| ExpiringHashes.PurgeKeysStep | lib/fakeredis/expiring_hash.rb:40-43 | purging keys one after another is purging the set of them |
| ExpiringHashes.ExpiringHash.constructor | lib/fakeredis/expiring_hash.rb:7-10 | a new table holds no key and no expiry |
| ExpiringHashes.ExpiringHash.Get | lib/fakeredis/expiring_hash.rb:12-15 | `[]` answers nil for an absent or expired key, else the value, and leaves the table purged of that key |
| ExpiringHashes.ExpiringHash.Put | lib/fakeredis/expiring_hash.rb:17-20 | `[]=` leaves the table with the key assigned and its expiry cleared |
| ExpiringHashes.ExpiringHash.Delete | lib/fakeredis/expiring_hash.rb:22-25 | `delete` answers the stored value, even an expired one, and removes both value and expiry |
| ExpiringHashes.ExpiringHash.ClearExpiry | lib/fakeredis/expiring_hash.rb:27-29 | `expire` answers and removes the expiry record only |
| ExpiringHashes.ExpiringHash.HasKey | lib/fakeredis/expiring_hash.rb:35-38 | `key?` answers whether the key is live and purges it when expired |
| ExpiringHashes.ExpiringHash.ValuesAt | lib/fakeredis/expiring_hash.rb:40-43 | one answer per requested key, each what that key reads as; exactly the expired requested keys are purged |
| ExpiringHashes.ExpiringHash.Keys | lib/fakeredis/expiring_hash.rb:45-54 | `keys` answers exactly the live keys and deletes every expired one |
| ExpiringHashes.ExpiringHash.Update | lib/redis/commands/lists.rb:97-104 | an in-place change of the stored object (as `<<` or `merge` do) keeps the expiry |
| ExpiringHashes.ExpiringHash.ExpireAt | lib/redis/commands/keys.rb:91-94 | writing `expires[key]` changes the expiry only |
| ZSets.ParseScore | lib/fakeredis/zset.rb:20-26 | `_floatify`: the score is infinite exactly when `/^([+-])?inf/i` matches; otherwise `Float()` decides, and its refusal is the only error |
| ZSets.ScoreToString | lib/redis/commands/sorted_sets.rb:82-83 | `to_s` of a score: a finite score ends in ".0" and its integer part reads back as the score, the infinities print as "Infinity" and "-Infinity" |
| ZSets.InfMatch | lib/fakeredis/zset.rb:20-26 | a match of `/^([+-])?inf/i` is an "inf" at the start of a line at or after the given position |
| ZSets.AddScores | lib/fakeredis/zset.rb:9-11 | Float addition on extended scores; opposite infinities (NaN in Ruby) are an error |
| ZSets.NumericText | lib/fakeredis/zset.rb:20-26 | a text with no line feed and no leading "inf" goes through `Float()` |
| ZSets.ParseDecimal | lib/fakeredis/zset.rb:20-26 | a signed digit run with a zero fraction parses to its value |
| ZSets.ParseIntegerScore | lib/fakeredis/zset.rb:20-26 | every integer written out parses back to that integer score |
| ZSets.InfinityText | lib/fakeredis/zset.rb:20-26 | "Infinity" and "-Infinity", which Float#to_s prints, parse to the infinities |
| ZSets.ScoreRoundTrip | lib/fakeredis/zset.rb:20-26 | parsing the printed form of any score gives the score back |
| ZSets.FiniteRoundTrip | lib/fakeredis/zset.rb:20-26 | a finite score printed as its integer and ".0" parses back to that integer |
| ZSets.ParseInfinities | lib/fakeredis/zset.rb:20-26 | "inf", "+inf", "-inf" in any case, with anything after them, are the infinities |
| ZSets.Assign | lib/fakeredis/zset.rb:4-6 | `[]=` stores the parsed score; a score that does not parse is an error and changes nothing |
| ZSets.Increment | lib/fakeredis/zset.rb:9-11 | the member's new score is its old score plus the parsed increment; other members keep theirs |
| ZSets.SelectByScore | lib/fakeredis/zset.rb:13-17 | exactly the entries whose score lies between the parsed bounds (both included), with their scores |
| ZSets.SelectEverything | lib/fakeredis/zset.rb:13-17 | "-inf" to "+inf" selects the whole sorted set |
| Ordering.StrLtTotal | lib/redis/commands/sorted_sets.rb:119-125 | String#<=> relates any two distinct strings |
| Ordering.StrLtTransitive | lib/redis/commands/sorted_sets.rb:119-125 | String#<=> "less" is transitive |
| Ordering.ScoreLtTotal | lib/redis/commands/sorted_sets.rb:119-125 | score order is total and asymmetric, infinities included |
| Ordering.EntryLtFacts | lib/redis/commands/sorted_sets.rb:119-125 | (score, member) order is a strict total order on the members of a sorted set |
| Ordering.LeastExists | lib/redis/commands/sorted_sets.rb:119-125 | every non-empty sorted set has a least member in (score, member) order |
| Ordering.OrderMembers | lib/redis/commands/sorted_sets.rb:119-125 | the members listed each once, strictly ascending by score and then by member |
| Ordering.OrderMembersDistinct | lib/redis/commands/sorted_sets.rb:119-125 | the ordered listing has no repeats |
| Ordering.OrderMembersByScore | lib/redis/commands/sorted_sets.rb:100-105 | an earlier position in the listing never has a higher score |
| Ordering.SortedStrings | lib/redis/commands/sets.rb:27-31 | a set listed each member once, in ascending string order |
| Ordering.OrderFields | lib/redis/commands/sorted_sets.rb:201 | a hash listed by `sort_by`: each field exactly once, ascending by (value, field) |
| Ruby.ToIRoundTrip | lib/redis/commands/strings.rb:110-113 | `to_i` reads back every integer `to_s` writes |
| Ruby.ToIIgnoresTrailingText | lib/redis/commands/strings.rb:110-113 | `to_i` reads an integer's text and ignores what follows, when what follows cannot continue the number (no digit, no "_" then a digit, and no "d" after a lone "0") |
| Ruby.ToISkipsUnderscore | lib/redis/commands/strings.rb:110-113 | a single "_" between two digits does not change what `to_i` reads ("1_0" is 10) |
| Ruby.ToIPrefixed | lib/redis/commands/strings.rb:110-113 | `to_i` skips base 10's "0d" prefix ("0d12" is 12) |
| Ruby.Lower | lib/fakeredis/command_executor.rb:4 | downcasing maps each character to its lower-case form and keeps the length |
| Ruby.LowerIdempotent | lib/fakeredis/command_executor.rb:4 | downcasing twice is downcasing once, so a queued name dispatches as the name written |
| Ruby.At | lib/redis/commands/lists.rb:56-59 | `a[i]`: nil outside the array, negative indices from the end |
| Ruby.RangeSlice | lib/redis/commands/lists.rb:34-37 | `a[start..stop]`: nil exactly when the start lies outside the array plus one, otherwise the elements from the normalized start |
| Ruby.ExclusiveSlice | lib/fakeredis/sort_method.rb:62-67 | `a[start...stop]`: the same without the stop element |
| Ruby.StartLength | lib/redis/commands/strings.rb:99-103 | `a[start, length]`: nil for a negative length or a start outside, otherwise at most `length` elements from the start |
| Ruby.RangeSliceInside | lib/redis/commands/lists.rb:34-37 | a range inside the array is the plain inclusive subsequence |
| Ruby.RangeSliceAll | lib/redis/commands/lists.rb:34-37 | `0..-1` is the whole array |
| Ruby.IndexOf | lib/redis/commands/sorted_sets.rb:100-105 | `index`: nil exactly for a missing element, otherwise its first position |
| Ruby.FirstOccurrence | lib/redis/commands/strings.rb:99-103 | the first position of a substring from a given position, or none |
| Ruby.ReplaceFirst | lib/redis/commands/strings.rb:99-103 | `t[s] = v`: an error exactly when `s` does not occur, otherwise `s` replaced at its first occurrence |
| Ruby.ReverseReverse | lib/redis/commands/lists.rb:112-119 | reversing twice is the identity |
| Ruby.Without | lib/redis/commands/lists.rb:79-95 | `delete(x)`: every `x` goes, every other element stays, and the length drops by the count of `x` |
| Ruby.WithoutReverse | lib/redis/commands/lists.rb:79-95 | deleting every `x` commutes with reversal |
| Ruby.WithoutEach | lib/redis/commands/sorted_sets.rb:203 | deleting several items from an array drops every occurrence of each of them, keeps every other item and adds none |
| CommandHelper.CheckType | lib/redis/commands/lists.rb:40 | `data_type_check`: WRONGTYPE exactly when a live value of another kind is stored; the key is purged |
| CommandHelper.RemoveIfEmpty | lib/redis/commands/hashes.rb:29 | `remove_key_for_empty_collection`: an emptied collection is deleted, anything else stays |
| CommandHelper.FirstMismatchIs | lib/redis/commands/sets.rb:85-94 | the first key of the wrong kind is the one the type checks in order stop at |
| CommandHelper.CheckTypes | lib/redis/commands/sets.rb:85-94 | the keys are checked in order; the first key of the wrong kind stops with WRONGTYPE, otherwise every value is answered |
| CommandHelper.CheckNext | lib/redis/commands/sets.rb:85-94 | one key's check, after the keys before it: it purges that key too and answers its value or WRONGTYPE |
| StringCommands.FromToBits | lib/redis/commands/strings.rb:140-150 | `to_i(2)` of the low `w` bits of a number below 2^w is the number |
| StringCommands.ToFromBits | lib/redis/commands/strings.rb:140-150 | writing a bit sequence as a number and back gives the bit sequence |
| StringCommands.BitsRoundTrip | lib/redis/commands/strings.rb:140-150 | bits rebuilt into text and unpacked again are the same bits |
| StringCommands.TextRoundTrip | lib/redis/commands/strings.rb:140-150 | a byte string unpacked to bits and rebuilt is the same string |
| StringCommands.BitsOfChar | lib/redis/commands/strings.rb:38-41 | character `i` occupies bits 8i to 8i+7, most significant first |
| StringCommands.BitAt | lib/redis/commands/strings.rb:38-41 | GETBIT on a string: the bit at the offset (negative from the end), 0 outside |
| StringCommands.PaddedBits | lib/redis/commands/strings.rb:140-150 | the bits padded with zeros to cover byte `offset/8` keep the old bits in front |
| StringCommands.SetBitText | lib/redis/commands/strings.rb:140-150 | SETBIT on a string: the previous bit and the rebuilt text; a negative offset before the start is an error |
| StringCommands.SetBitThenGetBit | lib/redis/commands/strings.rb:140-150 | SETBIT answers the previous bit, and GETBIT then reads the bit written |
| StringCommands.SetBitKeepsOtherBits | lib/redis/commands/strings.rb:140-150 | SETBIT changes no other bit and grows the string only up to byte `offset/8` |
| StringCommands.BitCountWhole | lib/redis/commands/strings.rb:152-158 | BITCOUNT without a range counts every set bit |
| StringCommands.BitCountAsWrittenCounterexample | lib/redis/commands/strings.rb:152-158 | as written, BITCOUNT of "a" is 1; corrected, 3 |
| StringCommands.SetRangeText | lib/redis/commands/strings.rb:99-103 | corrected SETRANGE fails exactly for an offset outside the string |
| StringCommands.SetRangeOverwrites | lib/redis/commands/strings.rb:99-103 | corrected SETRANGE keeps the text before the offset, writes the value there, keeps the rest, and has the expected length |
| StringCommands.SetRangeAsWrittenCounterexample | lib/redis/commands/strings.rb:99-103 | as written, SETRANGE "aaaa" 2 "bb" gives "bbaa"; corrected, "aabb" |
| StringCommands.AssignPairsRead | lib/redis/commands/strings.rb:62-71 | after MSET every key reads the last value given for it; other keys read as before |
| StringCommands.EvenItems | lib/redis/commands/strings.rb:89-97 | the keys of a flat key/value list are its even positions |
| StringCommands.FirstLive | lib/redis/commands/strings.rb:89-97 | the position of the first live key, with no live key before it; none when no key is live |
| StringCommands.FirstLiveIs | lib/redis/commands/strings.rb:89-97 | the first live key is the one `any?` stops at |
| StringCommands.Append | lib/redis/commands/strings.rb:33-36 | APPEND stores the old string (or "") followed by the value, answers the new string, and clears the expiry; a non-string is an error |
| StringCommands.GetBit | lib/redis/commands/strings.rb:38-41 | GETBIT: nil for an absent key, otherwise the bit of the stored string |
| StringCommands.MGet | lib/redis/commands/strings.rb:43-48 | MGET: an empty bare key list is an argument error (one empty array answers []); otherwise one answer per key, in order, nil when missing, and the requested keys are purged |
| StringCommands.SetEx | lib/redis/commands/strings.rb:50-54 | SETEX stores the string with an expiry `seconds` from now |
| StringCommands.GetRange | lib/redis/commands/strings.rb:56-59 | GETRANGE: the inclusive slice of a string or a list, nil past the end |
| StringCommands.MSet | lib/redis/commands/strings.rb:62-71 | MSET: an empty or odd list is an argument error and writes nothing; otherwise each pair is assigned in order and the answer is OK |
| StringCommands.SetNx | lib/redis/commands/strings.rb:73-80 | SETNX: false and no write when the key is live; otherwise it stores and answers true |
| StringCommands.GetSet | lib/redis/commands/strings.rb:82-87 | GETSET answers the previous string or nil and stores the new one |
| StringCommands.AnyLive | lib/redis/commands/strings.rb:89-97 | the keys are looked up in order until one is live; the answer is that key's position |
| StringCommands.LiveNext | lib/redis/commands/strings.rb:89-97 | one lookup, after the keys before it: it purges that key too and answers whether it is live |
| StringCommands.MSetNx | lib/redis/commands/strings.rb:89-97 | MSETNX: false and no write when any key is live; otherwise every pair is written and the answer is true |
| StringCommands.SetRange | lib/redis/commands/strings.rb:99-103 | SETRANGE: nil for an absent key; the stored string becomes the corrected overwrite, keeping its expiry |
| StringCommands.IncrBy | lib/redis/commands/strings.rb:110-113 | INCRBY and the others: the value read with `to_i` (0 when absent) plus the delta is stored as a string and answered |
| StringCommands.StrLen | lib/redis/commands/strings.rb:125-128 | STRLEN: nil for an absent key, otherwise the size of the stored object |
| StringCommands.Set | lib/redis/commands/strings.rb:130-133 | SET stores the string with no expiry and answers OK |
| StringCommands.Get | lib/redis/commands/strings.rb:135-138 | GET: the string or nil; any other kind is WRONGTYPE |
| StringCommands.SetBit | lib/redis/commands/strings.rb:140-150 | SETBIT stores the text with the bit replaced and answers the previous bit; a non-string is an error |
| StringCommands.Rebuild | lib/redis/commands/strings.rb:145-148 | the `each_slice(8)` loop builds the text whose bits are the given bits |
| StringCommands.BitCount | lib/redis/commands/strings.rb:152-158 | BITCOUNT: 0 for an absent key, otherwise the corrected count over the byte range |
| ListCommands.Trim | lib/redis/commands/lists.rb:39-54 | corrected LTRIM: the list unchanged for a start before its front, empty for a start past its end, always a run of consecutive elements |
| ListCommands.TrimInside | lib/redis/commands/lists.rb:39-54 | inside the list LTRIM keeps exactly the inclusive range |
| ListCommands.TrimAsWrittenCounterexample | lib/redis/commands/lists.rb:39-54 | as written, LTRIM 2 3 on ["a"] stores nil; corrected, the empty list |
| ListCommands.RemoveFirstNCount | lib/redis/commands/lists.rb:79-95 | removing the first n matches removes min(n, count) of them and keeps every other element in order |
| ListCommands.RemoveFirstNAll | lib/redis/commands/lists.rb:79-95 | removing at least as many matches as there are is `delete` |
| ListCommands.RemoveMatches | lib/redis/commands/lists.rb:87-88 | the `delete_at(index)` loop removes the first n matches |
| ListCommands.RemovedFromTail | lib/redis/commands/lists.rb:79-95 | a negative count removes from the tail as many matches as from the head |
| ListCommands.RemovedCount | lib/redis/commands/lists.rb:79-95 | LREM removes min(\|count\|, matches) elements (all of them for 0), and no other element |
| ListCommands.RemovedFromEitherEnd | lib/redis/commands/lists.rb:79-95 | removing every match from the head or from the tail leaves the same list |
| ListCommands.InsertAt | lib/redis/commands/lists.rb:61-70 | `insert(i, v)`: `v` lands at position i and later elements move up by one |
| ListCommands.LLen | lib/redis/commands/lists.rb:28-32 | LLEN: the length, 0 for an absent key |
| ListCommands.LRange | lib/redis/commands/lists.rb:34-37 | LRANGE: the inclusive slice, `[]` when absent or past the end |
| ListCommands.LTrim | lib/redis/commands/lists.rb:39-54 | LTRIM: a wrong type is an error; a missing key answers nil; a start before the first element leaves the list alone; otherwise the corrected trimmed list is assigned under the key, which clears its expiry as `data[key] =` does, and is answered |
| ListCommands.LIndex | lib/redis/commands/lists.rb:56-59 | LINDEX: the element at a possibly negative index, nil outside |
| ListCommands.LInsert | lib/redis/commands/lists.rb:61-70 | LINSERT: the value goes before or after the first copy of the pivot; an unknown position is a syntax error; a missing pivot raises TypeError before it and NoMethodError after it, leaving the list unchanged; an absent key answers nil |
| ListCommands.LSet | lib/redis/commands/lists.rb:72-77 | LSET: an index past the end is an error; otherwise only that position changes |
| ListCommands.LRem | lib/redis/commands/lists.rb:79-95 | LREM stores the list with the matches removed by the sign of count and answers how many went |
| ListCommands.RPush | lib/redis/commands/lists.rb:97-104 | RPUSH appends the values in order (an absent key first gets an empty list) and answers the new length |
| ListCommands.LPush | lib/redis/commands/lists.rb:112-119 | LPUSH puts each value in turn at the head, so they end up reversed in front, and answers the length |
| ListCommands.RPushX | lib/redis/commands/lists.rb:106-110 | RPUSHX: nil and no list created for an absent key, otherwise RPUSH |
| ListCommands.LPushX | lib/redis/commands/lists.rb:121-125 | LPUSHX: nil and no list created for an absent key, otherwise LPUSH |
| ListCommands.PopLastThenPush | lib/redis/commands/lists.rb:127-131 | RPOP followed by RPUSH of the popped element restores the list |
| ListCommands.RPop | lib/redis/commands/lists.rb:127-131 | RPOP: nil for an absent or empty list, otherwise the last element, removed in place |
| ListCommands.LPop | lib/redis/commands/lists.rb:140-144 | LPOP: nil for an absent or empty list, otherwise the first element, removed in place |
| ListCommands.RPopLPush | lib/redis/commands/lists.rb:133-138 | RPOPLPUSH: the last element of the source goes to the head of the destination |
| ListCommands.PopLastPurged | lib/redis/commands/lists.rb:133-138 | purging the source first changes neither what it reads as nor what popping its last element gives |
| SetCommands.AddMembersRead | lib/redis/commands/sets.rb:39-56 | after SADD the key holds the old members and the new ones; the count is of the members not there before |
| SetCommands.RemoveMemberRead | lib/redis/commands/sets.rb:58-63 | SREM reports whether the member was there; afterwards it is not |
| SetCommands.AddThenRemove | lib/redis/commands/sets.rb:39-63 | SADD of a new member and then SREM of it leaves the members as they were |
| SetCommands.IntersectionMembers | lib/redis/commands/sets.rb:85-94 | a member is in the intersection exactly when it is in every set |
| SetCommands.UnionMembers | lib/redis/commands/sets.rb:102-108 | a member is in the union exactly when it is in some set |
| SetCommands.DifferenceMembers | lib/redis/commands/sets.rb:116-122 | a member is in the difference exactly when it is in the first set and in no other |
| SetCommands.SMembers | lib/redis/commands/sets.rb:27-31 | SMEMBERS: the members, `[]` for an absent key |
| SetCommands.SIsMember | lib/redis/commands/sets.rb:33-37 | SISMEMBER: whether the member is in the set |
| SetCommands.SAdd | lib/redis/commands/sets.rb:39-56 | SADD: an empty list is an argument error; otherwise the members are merged in and 0/1 become false/true |
| SetCommands.SRem | lib/redis/commands/sets.rb:58-63 | SREM removes the member, deletes an emptied set and answers whether it was there |
| SetCommands.SMove | lib/redis/commands/sets.rb:65-70 | SMOVE: both keys are type-checked, then the member is removed from the source and added to the destination when it was there |
| SetCommands.SMoveMoves | lib/redis/commands/sets.rb:65-70 | after a successful SMOVE the member is in the destination and not in the source |
| SetCommands.SPop | lib/redis/commands/sets.rb:72-77 | SPOP: some member chosen as SRANDMEMBER chooses, then removed |
| SetCommands.SCard | lib/redis/commands/sets.rb:79-83 | SCARD: the number of members, 0 for an absent key |
| SetCommands.SRandMember | lib/redis/commands/sets.rb:130-134 | SRANDMEMBER: some member of the set, nil for an absent or empty one |
| SetCommands.SInter | lib/redis/commands/sets.rb:85-94 | SINTER: an empty key list is an argument error; every key is type-checked; an absent key makes the answer the empty `::Set` object itself (flagged `asSet`); otherwise the common members, to be answered as an array |
| SetCommands.SUnion | lib/redis/commands/sets.rb:102-108 | SUNION: every key is type-checked; the members of any set |
| SetCommands.SDiff | lib/redis/commands/sets.rb:116-122 | SDIFF: every key is type-checked; the first set less all the others |
| SetCommands.StoreResult | lib/redis/commands/sets.rb:96-100 | the `*store` step: an error from the combination passes through with the store unchanged; otherwise the destination is assigned exactly the result, clearing its expiry, and the answer is the stored set |
| SetCommands.SInterStore | lib/redis/commands/sets.rb:96-100 | SINTERSTORE stores exactly what SINTER computes |
| SetCommands.SUnionStore | lib/redis/commands/sets.rb:110-114 | SUNIONSTORE stores exactly what SUNION computes |
| SetCommands.SDiffStore | lib/redis/commands/sets.rb:124-128 | SDIFFSTORE stores exactly what SDIFF computes |
| HashCommands.FlattenPairs | lib/redis/commands/hashes.rb:119-122 | fields and values alternate, one pair per field |
| HashCommands.Assignments | lib/redis/commands/hashes.rb:77-99 | the field/value pairs HMSET assigns, in order, for either argument shape |
| HashCommands.SetFieldsLookup | lib/redis/commands/hashes.rb:77-99 | after HMSET each field holds the last value given for it; other fields are as before |
| HashCommands.Incremented | lib/redis/commands/hashes.rb:32-41 | HINCRBY stores the field's `to_i` plus the increment's `to_i`, as a string |
| HashCommands.Sum | lib/redis/commands/hashes.rb:36 | the text HINCRBY stores reads back with `to_i` as the old number plus the increment |
| HashCommands.IncrementedTwice | lib/redis/commands/hashes.rb:32-41 | two HINCRBYs on a field add up |
| HashCommands.HSetThenHGet | lib/redis/commands/hashes.rb:57-68 | HGET after HSET answers the new value; every other field and key reads as before |
| HashCommands.HDel | lib/redis/commands/hashes.rb:25-30 | HDEL removes the field in place and deletes an emptied hash |
| HashCommands.HIncrBy | lib/redis/commands/hashes.rb:32-41 | HINCRBY: an absent key gets a hash holding the increment; otherwise the field is incremented; the new value is answered |
| HashCommands.HMGet | lib/redis/commands/hashes.rb:43-55 | HMGET: an empty field list is an argument error; otherwise one answer per field, nil when missing |
| HashCommands.HSet | lib/redis/commands/hashes.rb:57-68 | HSET: true exactly when the field is new; the value is stored and no other field changes |
| HashCommands.HSetNx | lib/redis/commands/hashes.rb:70-75 | HSETNX: false and no change when the field has a value, otherwise HSET |
| HashCommands.HMSet | lib/redis/commands/hashes.rb:77-99 | HMSET: a wrong argument count is an error before the key is touched; otherwise every pair is assigned in order |
| HashCommands.HLen | lib/redis/commands/hashes.rb:101-105 | HLEN: the number of fields, 0 for an absent key |
| HashCommands.HVals | lib/redis/commands/hashes.rb:107-111 | HVALS: WRONGTYPE for another kind; otherwise the values in the order the fields are listed, `[]` for an absent key |
| HashCommands.Lookups | lib/redis/commands/hashes.rb:107-111 | one value per listed field: position i holds the value of field i |
| HashCommands.AllValues | lib/redis/commands/hashes.rb:107-111 | as many values as the hash has fields, position i holding the value of the i-th listed field |
| HashCommands.ReadHash | lib/redis/commands/hashes.rb:107-109 | the type check of a hash read: WRONGTYPE for another kind, otherwise the stored hash, empty when the key is absent |
| HashCommands.HExists | lib/redis/commands/hashes.rb:113-117 | HEXISTS: whether the field is there |
| HashCommands.AllPairs | lib/redis/commands/hashes.rb:119-122 | fields and values alternating, twice as many items as fields |
| HashCommands.HGetAll | lib/redis/commands/hashes.rb:119-122 | HGETALL: fields and values alternating, `[]` for an absent key |
| HashCommands.HGet | lib/redis/commands/hashes.rb:124-127 | HGET: the field's value, nil when key or field is missing |
| HashCommands.HKeys | lib/redis/commands/hashes.rb:129-133 | HKEYS: the fields, `[]` for an absent key |
| SortedSetCommands.Listing | lib/redis/commands/sorted_sets.rb:127-128 | with scores, each member is followed by its printed score; otherwise the members alone |
| SortedSetCommands.Descending | lib/redis/commands/sorted_sets.rb:136-139 | every member once, scores never increasing |
| SortedSetCommands.ZAddArgsError | lib/redis/commands/sorted_sets.rb:32-43 | the argument errors: fewer than two or an odd number of flat arguments, or a pair that is not a pair |
| SortedSetCommands.ScoreAssignments | lib/redis/commands/sorted_sets.rb:53-56 | the (score, member) assignments in order, for either argument shape |
| SortedSetCommands.AssignScores | lib/redis/commands/sorted_sets.rb:56 | the assignments made in turn stop at the first score that does not parse |
| SortedSetCommands.AssignScoresFinal | lib/redis/commands/sorted_sets.rb:48-59 | every given member ends up with the score of its last assignment, and no member goes |
| SortedSetCommands.ApplyScores | lib/redis/commands/sorted_sets.rb:48-59 | the assignment loop, in place: the stored set becomes the result of the assignments in turn, and the first score that does not parse is the error |
| SortedSetCommands.NewCount | lib/redis/commands/sorted_sets.rb:55 | the count is 0 exactly when every given member already had a score |
| SortedSetCommands.RemoveMembersLeaves | lib/redis/commands/sorted_sets.rb:62-73 | ZREM leaves exactly the members not named |
| SortedSetCommands.RemoveMembersCount | lib/redis/commands/sorted_sets.rb:62-73 | ZREM answers how many named members were there |
| SortedSetCommands.RankMeaning | lib/redis/commands/sorted_sets.rb:100-105 | ZRANK is nil exactly for a non-member, and otherwise the member's position in ascending order |
| SortedSetCommands.RevRankMeaning | lib/redis/commands/sorted_sets.rb:107-112 | ZREVRANK is the member's position in descending order |
| SortedSetCommands.ZAdd | lib/redis/commands/sorted_sets.rb:32-60 | ZADD: argument errors first, then the type check; the single pair answers whether the member is new, the other forms how many were new; every assignment is made in place |
| SortedSetCommands.ZRem | lib/redis/commands/sorted_sets.rb:62-73 | ZREM: 0 for an absent key; the named members go and an emptied set is deleted |
| SortedSetCommands.ZCard | lib/redis/commands/sorted_sets.rb:75-78 | ZCARD: the number of members, 0 for an absent key |
| SortedSetCommands.ZScore | lib/redis/commands/sorted_sets.rb:80-84 | ZSCORE: the printed score, nil for a non-member |
| SortedSetCommands.ZCount | lib/redis/commands/sorted_sets.rb:86-90 | ZCOUNT: how many scores lie between the bounds |
| SortedSetCommands.WithMember | lib/redis/commands/sorted_sets.rb:95 | an absent member first gets score 0; the others are unchanged |
| SortedSetCommands.ZIncrBy | lib/redis/commands/sorted_sets.rb:92-98 | ZINCRBY: the new score is the old (or 0) plus the increment, stored in place and answered as a string |
| SortedSetCommands.ZIncrByFromNothing | lib/redis/commands/sorted_sets.rb:92-98 | ZINCRBY by n on a member without a score gives it score n |
| SortedSetCommands.ZRank | lib/redis/commands/sorted_sets.rb:100-105 | ZRANK: the position in ascending order, nil for an absent key or a non-member |
| SortedSetCommands.ZRevRank | lib/redis/commands/sorted_sets.rb:107-112 | ZREVRANK: the position in descending order |
| SortedSetCommands.SliceReply | lib/redis/commands/sorted_sets.rb:128 | a start outside the listing fails to flatten nil; otherwise the sliced listing |
| SortedSetCommands.ZRange | lib/redis/commands/sorted_sets.rb:114-129 | ZRANGE: the slice of the ascending (score, member) listing, `[]` for an absent key |
| SortedSetCommands.ZRevRange | lib/redis/commands/sorted_sets.rb:131-140 | ZREVRANGE: the slice of the descending listing |
| SortedSetCommands.Window | lib/redis/commands/sorted_sets.rb:153-154 | a LIMIT is `vals[offset, count]`; without one, every value |
| SortedSetCommands.ByScoreReply | lib/redis/commands/sorted_sets.rb:153-156 | without a limit, the listing of the members in range |
| SortedSetCommands.ZRangeByScore | lib/redis/commands/sorted_sets.rb:142-157 | ZRANGEBYSCORE: the members in range, ascending, then the LIMIT window |
| SortedSetCommands.ZRevRangeByScore | lib/redis/commands/sorted_sets.rb:159-174 | ZREVRANGEBYSCORE: the bounds max first; the members in range, descending, then the window |
| SortedSetCommands.ByScoreListing | lib/redis/commands/sorted_sets.rb:142-157 | without a limit exactly the members in range, each once, ascending |
| SortedSetCommands.ZRemRangeByScore | lib/redis/commands/sorted_sets.rb:176-183 | ZREMRANGEBYSCORE removes the members in range in place and answers how many |
| SortedSetCommands.RemRangeByScoreLeaves | lib/redis/commands/sorted_sets.rb:176-183 | afterwards exactly the members outside the range remain, with their scores |
| SortedSetCommands.ZRemRangeByRank | lib/redis/commands/sorted_sets.rb:199-205 | ZREMRANGEBYRANK: no type check; nil or a string value raise NoMethodError; a list keeps its order, a set and a hash are listed once per element, a hash by value; a start past the end is moved to the end; a nil slice raises NoMethodError; the slice's elements are deleted in place and the answer is the slice size |
| SortedSetCommands.RankOrder | lib/redis/commands/sorted_sets.rb:201 | `sort_by` on the stored value: a list keeps its items in order, a set and a hash give each element once, a sorted set its members by ascending score |
| SortedSetCommands.DeleteEach | lib/redis/commands/sorted_sets.rb:203 | `each { \|k\| delete(k) }`: the value keeps its type; a list loses every occurrence of each named item, a set and a hash lose exactly the named elements, and a hash keeps the other values |
| SortedSetCommands.AssignScoresMembers | lib/redis/commands/sorted_sets.rb:53-56 | after the assignments every given member is present, the old members stay and a member not named keeps its score |
| SortedSetCommands.AssignScoresLast | lib/redis/commands/sorted_sets.rb:53-56 | a member assigned several times ends with the score of its last assignment |
| SortedSetCommands.RemRangeByRankCount | lib/redis/commands/sorted_sets.rb:199-205 | the removed members are distinct, so the answer is how many members went |
| KeyCommands.RemoveKeysLive | lib/redis/commands/keys.rb:29-38 | deleting keys takes exactly those out of the live keys |
| KeyCommands.DelCount | lib/redis/commands/keys.rb:29-38 | DEL's answer, the count before less the count after, is the number of given keys that were live |
| KeyCommands.Del | lib/redis/commands/keys.rb:29-38 | DEL: an empty key list is an argument error; otherwise the keys go and the live ones are counted |
| KeyCommands.DeleteAll | lib/redis/commands/keys.rb:33-35 | every listed key is removed and no other key changes |
| KeyCommands.Move | lib/redis/commands/keys.rb:40-47 | corrected MOVE: the key moves only when it is live here and not live there |
| KeyCommands.MoveMoves | lib/redis/commands/keys.rb:40-47 | after MOVE the key is gone here and reads there as it read here; other keys read as before |
| KeyCommands.MoveAsWritten | lib/redis/commands/keys.rb:40-47 | MOVE as written tests presence with `has_key?`, which ignores expiry |
| KeyCommands.MoveAsWrittenRevives | lib/redis/commands/keys.rb:40-47 | as written, an expired key is moved and reads as live in the destination |
| KeyCommands.MoveKey | lib/redis/commands/keys.rb:40-47 | MOVE onto the same database is an error; otherwise the two databases become what corrected MOVE gives |
| KeyCommands.RenameAsWrittenSelf | lib/redis/commands/keys.rb:53-58 | as written, renaming a key onto itself deletes it |
| KeyCommands.Rename | lib/redis/commands/keys.rb:53-58 | RENAME answers nil exactly for a missing key |
| KeyCommands.RenameMoves | lib/redis/commands/keys.rb:53-58 | after RENAME the new name holds the value and the old expiry, the old name is gone, other keys are untouched |
| KeyCommands.RenameSelf | lib/redis/commands/keys.rb:53-58 | corrected, renaming onto itself keeps the key and value |
| KeyCommands.RenameKey | lib/redis/commands/keys.rb:53-58 | RENAME leaves the corrected store and answers the value |
| KeyCommands.RenameNx | lib/redis/commands/keys.rb:82-89 | RENAMENX: false and nothing renamed when the new name is live; otherwise RENAME and true |
| KeyCommands.Exists | lib/redis/commands/keys.rb:60-62 | EXISTS: whether the key is live |
| KeyCommands.TimeToLive | lib/redis/commands/keys.rb:64-70 | the seconds left when positive, otherwise -1 |
| KeyCommands.Ttl | lib/redis/commands/keys.rb:64-70 | TTL reads the expiry record without purging |
| KeyCommands.Expire | lib/redis/commands/keys.rb:72-76 | EXPIRE: nil for a missing key; otherwise the expiry becomes now plus the seconds |
| KeyCommands.ExpireThenTtl | lib/redis/commands/keys.rb:64-76 | a positive EXPIRE is what TTL then reports, and the key stays live until then |
| KeyCommands.ExpireAtKey | lib/redis/commands/keys.rb:91-94 | EXPIREAT writes the expiry record whether or not the key exists |
| KeyCommands.Persist | lib/redis/commands/keys.rb:78-80 | PERSIST: true exactly when an expiry record was removed |
| KeyCommands.PersistKeeps | lib/redis/commands/keys.rb:78-80 | after PERSIST a stored key is live at every time |
| KeyCommands.TypeName | lib/redis/commands/keys.rb:100-108 | "none", "string", "list", "set" or "hash", with a sorted set reported as "hash" |
| KeyCommands.Type | lib/redis/commands/keys.rb:100-108 | TYPE names the live value |
| SortMethod.SortableAsWrittenRefusesSortedSets | lib/fakeredis/sort_method.rb:7-10 | the type check as written refuses exactly the sorted sets the corrected one accepts |
| SortMethod.Elements | lib/fakeredis/sort_method.rb:31-33 | the list in order, or exactly the members of the set or sorted set |
| SortMethod.SubStar | lib/fakeredis/sort_method.rb:70 | `sub('*', e)`: the first star replaced, a pattern without one unchanged |
| SortMethod.SplitArrowJoin | lib/fakeredis/sort_method.rb:72 | splitting at "->" and joining again gives the text back |
| SortMethod.SplitArrowPieces | lib/fakeredis/sort_method.rb:72 | no piece of the split holds "->" |
| SortMethod.GetValue | lib/fakeredis/sort_method.rb:75 | GET on a lookup key: nil when missing, the string, or WRONGTYPE |
| SortMethod.HGetValue | lib/fakeredis/sort_method.rb:73 | HGET on the parts before the first and after the last "->" |
| SortMethod.GetAll | lib/fakeredis/sort_method.rb:37-42 | one lookup per GET pattern, "#" being the element itself |
| SortMethod.ProjectOne | lib/fakeredis/sort_method.rb:31-46 | the weight is the element or its BY lookup; the value is the element, the single lookup, or all lookups |
| SortMethod.ProjectAll | lib/fakeredis/sort_method.rb:31-46 | one projection per element, in order |
| SortMethod.Direction | lib/fakeredis/sort_method.rb:48-57 | DESC (any case) is descending, ASC or ALPHA ascending; anything else is an invalid direction |
| SortMethod.Descending | lib/fakeredis/sort_method.rb:16-17 | the ORDER option's first word decides; no option is ascending; a blank one has no word |
| SortMethod.AscendingByDefault | lib/fakeredis/sort_method.rb:16-17 | without ORDER the sort is ascending |
| SortMethod.Insert | lib/fakeredis/sort_method.rb:59 | insertion keeps the elements as a multiset and adds one |
| SortMethod.SortProjected | lib/fakeredis/sort_method.rb:59 | the sort is a permutation of the projections |
| SortMethod.SortProjectedSorted | lib/fakeredis/sort_method.rb:48-60 | with string weights the result is in weight order for the direction |
| SortMethod.SortProjectedNil | lib/fakeredis/sort_method.rb:48-60 | with nil weights (BY to a missing key) the order is kept |
| SortMethod.SortBy | lib/fakeredis/sort_method.rb:48-60 | mixed nil and string weights raise ArgumentError; otherwise the values in sorted order |
| SortMethod.SortByMeaning | lib/fakeredis/sort_method.rb:48-60 | the answer is the values of a reordering of the projections that is sorted by weight |
| SortMethod.Window | lib/fakeredis/sort_method.rb:62-67 | LIMIT skips the first number and takes the last; a nil slice keeps everything |
| SortMethod.WindowInside | lib/fakeredis/sort_method.rb:62-67 | a window inside the list is exactly that stretch |
| SortMethod.Flatten | lib/fakeredis/sort_method.rb:23 | what RPUSH gets for STORE: every value `to_s`, lookups flattened |
| SortMethod.Sorted | lib/fakeredis/sort_method.rb:12-21 | project, then order, then window |
| SortMethod.Replies | lib/fakeredis/sort_method.rb:23 | one reply per sorted value |
| SortMethod.Sort | lib/fakeredis/sort_method.rb:4-24 | SORT: `[]` for a nil key; WRONGTYPE for a value that is not a list, set or sorted set; otherwise the sorted window, or its RPUSH onto STORE |
| SortMethod.StoreValues | lib/fakeredis/sort_method.rb:23 | STORE pushes the flattened values onto the destination as RPUSH does |
| SortMethod.SortKeepsEveryElement | lib/fakeredis/sort_method.rb:4-24 | without LIMIT, SORT answers one value per element |
| Instances.Instance.constructor | lib/fakeredis/transaction_commands.rb:27-33 | a new connection is idle with an empty queue, no replies and database 0 |
| Instances.Instance.AddReply | lib/fakeredis/command_executor.rb:21 | `replies << reply`: the reply is appended and nothing else about the connection changes |
| Instances.Installed | lib/redis/commands/keys.rb:42 | a store put in a registry slot: the registry is padded with nil up to the slot, the slot holds the store, every other slot is as before |
| Instances.InstalledTwice | lib/redis/commands/keys.rb:42 | installing in a slot and then overwriting it is installing the second store |
| Instances.InstalledTwiceBoth | lib/redis/commands/keys.rb:40-47 | the same for two distinct slots written in either order |
| Instances.InstalledSame | lib/redis/commands/keys.rb:42 | installing what a used slot already holds changes nothing |
| Instances.InstalledViews | lib/redis/commands/keys.rb:42 | after installing, the slot reads as the new store and every other slot reads as before |
| Instances.Padded | lib/redis/commands/keys.rb:42 | growing the registry pads the new slots with nil |
| Instances.FillSlot | lib/redis/commands/keys.rb:42 | filling an unused slot adds exactly the new database |
| Instances.FindDatabase | lib/redis/commands/keys.rb:42 | `find_database(id)`: the database in slot id, a fresh empty one when unused; the registry becomes the old one with that database installed at id, and no database changes what it reads as |
| Instances.AddDatabase | lib/redis/commands/keys.rb:42 | an unused slot gets a fresh empty database, the registry padded with nil; the registry is the old one with an empty store installed at id; no slot changes what it reads as |
| Instances.InstallDatabase | lib/redis/commands/keys.rb:42 | putting an empty database found in no slot into an unused slot keeps every object in one slot and every view as it was, and installs an empty store at that id |
| Instances.FilledDistinct | lib/redis/commands/keys.rb:42 | a database found in no slot, put in an unused slot, leaves no object in two slots |
| Instances.FilledView | lib/redis/commands/keys.rb:42 | an empty database in an unused slot changes what no slot reads as |
| Instances.FilledRegistry | lib/redis/commands/keys.rb:42 | an empty database put in an unused slot gives the registry with an empty store installed there |
| ServerCommands.DeleteAt | lib/redis/commands/server.rb:47 | `delete_at(i)`: the element at i goes and later ones move down |
| ServerCommands.ClearedEmptiesOne | lib/redis/commands/server.rb:46-49 | corrected FLUSHDB empties the current database and no other |
| ServerCommands.DeleteAtShifts | lib/redis/commands/server.rb:46-49 | as written, every database after the current one moves down one number |
| ServerCommands.FlushDbAsWrittenMovesKeys | lib/redis/commands/server.rb:46-49 | as written, a key of database 1 is read in database 0 after FLUSHDB on database 0 |
| ServerCommands.FlushDbAsWritten | lib/redis/commands/server.rb:46-49 | FLUSHDB as written deletes the registry slot |
| ServerCommands.FlushDb | lib/redis/commands/server.rb:46-49 | corrected FLUSHDB empties the current slot only and answers OK |
| ServerCommands.FlushAll | lib/redis/commands/server.rb:51-54 | FLUSHALL: the registry becomes empty, so every database reads empty; the answer is OK and the selected id and transaction state stay |
| ServerCommands.AssignLiveKeys | lib/redis/commands/server.rb:79-81 | assigning a key adds it to the live keys, so DBSIZE grows by one only for a new key |
| ServerCommands.DbSize | lib/redis/commands/server.rb:79-81 | DBSIZE: the number of live keys of the current database; the registry becomes the old one with that database purged of its expired keys installed at the current id |
| ConnectionCommands.Select | lib/redis/commands/connection.rb:20-24 | SELECT sets the current database id and answers OK; nothing else changes |
| Dispatch.ToSArg | lib/redis/commands/hashes.rb:26 | `to_s` of a string or integer argument, and a symbol's name; any other argument is refused |
| Dispatch.WhereArg | lib/redis/commands/lists.rb:65-69 | LINSERT's position is before exactly for the symbol `:before` and after exactly for `:after`; anything else, the strings "before" and "after" included, is the position that raises a syntax error |
| Dispatch.ToIArg | lib/redis/commands/strings.rb:110-113 | `to_i` of a string or integer argument |
| Dispatch.TextArgs | lib/redis/commands/sets.rb:85 | a key list decodes exactly when every argument is a string |
| Dispatch.DecodeString | lib/redis/commands/strings.rb:33-158 | the string commands' arguments bound to their parameters; a failure is only an argument count or shape error |
| Dispatch.DecodeList | lib/redis/commands/lists.rb:28-144 | the same for the list commands, with LINSERT's position read by `WhereArg` |
| Dispatch.LInsertPosition | lib/redis/commands/lists.rb:61-70 | LINSERT with the position given as a string, "before" and "after" included, decodes to the syntax-error position; the symbols `:before` and `:after` decode to before and after |
| Dispatch.DecodeSet | lib/redis/commands/sets.rb:27-134 | the same for the set commands |
| Dispatch.DecodeHash | lib/redis/commands/hashes.rb:25-133 | the same for the hash commands |
| Dispatch.DecodeSortedSet | lib/redis/commands/sorted_sets.rb:32-205 | the same for the sorted-set commands, which may also fail with ZADD's syntax error |
| Dispatch.DecodeKey | lib/redis/commands/keys.rb:29-108 | the same for the key commands |
| Dispatch.Decode | lib/fakeredis/command_executor.rb:10 | a database command's arguments bound to its method's parameters; a failure is an argument count, shape or syntax error |
| Dispatch.DecodeSetCommand | lib/redis/commands/strings.rb:130-133 | SET key value binds the key and the value |
| Dispatch.DecodeGetCommand | lib/redis/commands/strings.rb:135-138 | GET key binds the key |
| Dispatch.ExecuteStrings | lib/redis/commands/strings.rb:33-158 | a decoded string command runs its method: the reply and new store are that method's outcome |
| Dispatch.ExecuteLists | lib/redis/commands/lists.rb:28-144 | the same for the list commands |
| Dispatch.ExecuteSets | lib/redis/commands/sets.rb:27-134 | the same for the set commands |
| Dispatch.MembersReply | lib/redis/commands/sets.rb:102-122 | SUNION's and SDIFF's set of members becomes an array reply (`to_a`); an error stays |
| Dispatch.InterReply | lib/redis/commands/sets.rb:89-93 | SINTER's early return answers the `::Set` object itself, every other success the members as an array (`to_a`); an error stays |
| Dispatch.SInterAbsent | lib/redis/commands/sets.rb:88-89 | when every key holds a set or nothing and one key is absent, SINTER answers the empty `::Set` object, not an array |
| Dispatch.SInterPresent | lib/redis/commands/sets.rb:90-93 | when every key holds a set, SINTER answers an array |
| Dispatch.ExecuteHashes | lib/redis/commands/hashes.rb:25-133 | the same for the hash commands |
| Dispatch.ExecuteSortedSets | lib/redis/commands/sorted_sets.rb:32-205 | the same for the sorted-set commands |
| Dispatch.ExecuteKeys | lib/redis/commands/keys.rb:29-108 | the same for the key commands |
| Dispatch.Execute | lib/fakeredis/command_executor.rb:10 | a decoded database command runs its family's method |
| Dispatch.DataSet | lib/redis/commands/strings.rb:130-133 | SET sent to a database has the SET method's outcome |
| Dispatch.DataGet | lib/redis/commands/strings.rb:135-138 | GET sent to a database has the GET method's outcome |
| Dispatch.CurrentSet | lib/redis/commands/strings.rb:130-133 | SET on the current database has the SET method's outcome there |
| Dispatch.CurrentGet | lib/redis/commands/strings.rb:135-138 | GET on the current database has the GET method's outcome there |
| Dispatch.DataCall | lib/fakeredis/command_executor.rb:9-10 | `send` to a database command: found exactly when the name is one; then an argument error leaves the store as it was, and otherwise the reply and new store are those of the decoded command's method; an unknown name changes nothing |
| Dispatch.CurrentCall | lib/redis/commands/keys.rb:42 | a data command runs on the current database, created if unused: the registry becomes the old one with the command's resulting store installed at the current id |
| Dispatch.ArgReply | lib/redis/commands/connection.rb:26-28 | an argument returned unchanged: a string as a string, an integer as an integer, nil as nil, an array item by item; only an options hash and a symbol are refused |
| Dispatch.Constant | lib/redis/commands/connection.rb:14-32 | AUTH is OK whatever the password, PING is PONG, ECHO answers its argument as it is (a string, an integer, nil or an array of those), LASTSAVE the time, QUIT, MONITOR, SAVE, BGSAVE, SHUTDOWN and SYNC nil; a wrong argument count is an error |
| Dispatch.Locate | lib/redis/commands/keys.rb:42 | both databases found or created, reading as before |
| Dispatch.MoveBetween | lib/redis/commands/keys.rb:40-47 | MOVE between two databases: both become what corrected MOVE gives, installed in their two slots; the others do not change |
| Dispatch.Move | lib/redis/commands/keys.rb:40-47 | MOVE: a wrong argument count, then a wrong shape, then a destination equal to the current database are refused and change nothing; otherwise the reply and both databases are what corrected MOVE gives |
| Dispatch.InstanceCall | lib/redis/commands/connection.rb:20-24 | MOVE, SELECT, FLUSHDB, FLUSHALL and DBSIZE, each with its argument checks and its new registry and selected id; SELECT of a non-negative id selects it; none touches the transaction state |
| Dispatch.Send | lib/fakeredis/command_executor.rb:9-10 | `send`: found exactly for a command name; a command that touches no database answers from its arguments and the clock and changes nothing; a registry command has its outcome; a data command runs on the current database; any other name changes nothing |
| TransactionCommands.Watch | lib/fakeredis/transaction_commands.rb:99-101 | WATCH of one key is OK |
| TransactionCommands.Unwatch | lib/fakeredis/transaction_commands.rb:103-105 | UNWATCH is OK |
| TransactionCommands.Captured | lib/fakeredis/transaction_commands.rb:73-77 | `rescue => e; e`: an error becomes the result itself |
| TransactionCommands.QueuedReply | lib/fakeredis/transaction_commands.rb:73-77 | a command the instance lacks answers NoMethodError; otherwise its captured reply or error |
| TransactionCommands.RunsStep | lib/fakeredis/transaction_commands.rb:72-78 | running one more queued command on the world the run left extends the run |
| TransactionCommands.RunsNext | lib/fakeredis/transaction_commands.rb:72-78 | running command i after the run of the first i commands is the run of the first i + 1 |
| TransactionCommands.RunsOne | lib/fakeredis/transaction_commands.rb:72-78 | a run of one command is that command's outcome |
| TransactionCommands.RunsTwo | lib/fakeredis/transaction_commands.rb:72-78 | a run of two commands passes through the world the first one leaves |
| TransactionCommands.QueuedData | lib/fakeredis/transaction_commands.rb:73-77 | a queued database command runs on the current database and its reply is its captured result |
| TransactionCommands.QueuedSet | lib/fakeredis/transaction_commands.rb:73-77 | a queued SET answers OK and leaves the value readable |
| TransactionCommands.QueuedGet | lib/fakeredis/transaction_commands.rb:73-77 | a queued GET of a stored value answers it and keeps it |
| TransactionCommands.SetThenGet | lib/fakeredis/transaction_commands.rb:72-78 | a transaction of SET k v then GET k answers OK then v, and v stays under k |
| TransactionCommands.ExecStep | lib/fakeredis/transaction_commands.rb:73-77 | one step of EXEC's loop extends the run by the command's result |
| TransactionCommands.RunAll | lib/fakeredis/transaction_commands.rb:72-78 | the loop over the queue: one result per command, and results and final world are the run of the commands in order |
| TransactionCommands.EndTransaction | lib/fakeredis/transaction_commands.rb:80-81 | the queue is emptied and the flag cleared; the databases stay |
| TransactionCommands.RunQueued | lib/fakeredis/transaction_commands.rb:72-78 | one queued command is `send` on the world then current: WATCH and UNWATCH answer their own replies, an unknown name answers NoMethodError, any other command its reply or its captured error with its new world; the queue and flag stay |
| TransactionCommands.Exec | lib/fakeredis/transaction_commands.rb:65-84 | EXEC: an error when idle that changes nothing; otherwise the queued commands run in order, each on the world the previous one left, and the answer is their results; afterwards idle with an empty queue |
| TransactionCommands.Multi | lib/fakeredis/transaction_commands.rb:86-97 | MULTI: nested is an error; otherwise queuing starts and the answer is OK |
| TransactionCommands.Discard | lib/fakeredis/transaction_commands.rb:53-63 | DISCARD: an error when idle; otherwise the queue is dropped unrun and the answer is OK |
| TransactionCommands.TxCall | lib/fakeredis/transaction_commands.rb:53-105 | MULTI, EXEC, DISCARD, WATCH and UNWATCH with their argument count checks and their outcomes; WATCH and UNWATCH change no state |
| CommandExecutor.Normalize | lib/fakeredis/command_executor.rb:15-19 | true becomes 1, false 0, anything else stays; never a boolean |
| CommandExecutor.Run | lib/fakeredis/command_executor.rb:9-13 | a command is found exactly when `respond_to?` finds its name; a transaction command has its outcome, any other is `send` with the transaction state kept; an unknown one changes nothing |
| CommandExecutor.Answer | lib/fakeredis/command_executor.rb:9-19 | an unknown command is an error, an error stays, a reply has its booleans made integers |
| CommandExecutor.WriteIgnoresCase | lib/fakeredis/command_executor.rb:4 | a command's name is matched without regard to case |
| CommandExecutor.Write | lib/fakeredis/command_executor.rb:3-23 | while queuing, a non-transaction command is queued under its lower-cased name and answered QUEUED; otherwise the lower-cased command runs and the answer is its reply with booleans made integers, its error, or unknown command, which changes nothing; every success appends exactly one non-boolean reply |

## Left out

- Time is the parameter `now` in seconds; `Time.now` and the sub-second part of expiry times are not modelled.
- Floating-point scores are not modelled. Scores are whole numbers or infinities, and NaN (from adding opposite infinities) is the error `NotANumber`.
- ZSets.ScoreToString: every finite score prints as its exact integer and ".0". Ruby's `Float#to_s` prints whole floats of 10^16 and more in exponent form ("1.0e+16"), rounds integers beyond 2^53 to the nearest double before printing ("9007199254740993" gives "9.007199254740992e+15"), and keeps the sign of a negative zero ("-0" gives "-0.0"); the model's unbounded integer scores do none of these.
- ZSets.ParseFloat: accepts only an optional sign, decimal digits and an optional all-zero fraction. Texts that `Kernel#Float` turns into whole numbers in other spellings ("1e3", " 7", "1_000", "0x1A") are errors here, as are fractional texts, which have no score in this model.
- Strings are sequences of characters, one byte each; encodings are not modelled.
- Set members and hash fields are listed in string order, not in Ruby's insertion order.
- SORT orders by an insertion sort, which is stable; Ruby's sort is not, so ties may come out in another order. The purges that SORT's BY and GET lookups make on the keys they read are not modelled; they change no read (`ExpiringHashes.PurgeInvisible`).
- SortedSetCommands.ZRank, SortedSetCommands.ZRevRank, SortedSetCommands.ZRevRange, SortedSetCommands.ZRangeByScore, SortedSetCommands.ZRevRangeByScore, SortedSetCommands.ZRemRangeByRank, SortedSetCommands.RankMeaning and SortedSetCommands.RevRankMeaning: members with equal scores are ordered by member (ascending, or descending for the reverse commands). The source sorts on the score alone with Ruby's `sort_by`, which is not stable, so its order among equal scores is unspecified; only ZRANGE breaks ties on the member explicitly.
- SortedSetCommands.ZRemRangeByRank on a list, a set or a hash: every sort weight is nil for a list or a set, so Ruby's unstable `sort_by` may list them in any order; the model keeps the list's order and lists a set in string order and a hash by (value, field).
- A sorted set is a separate kind of value. In the source it is a Hash subclass, so it also passes the hash type check; the model refuses it there. `type` still reports "hash" for it, as written.
- The per-class hashes keyed by host and port, which share databases, MULTI state and queue between connections to the same server, are modelled as one connection's own fields.
- `alias_redis_commands!` redefines methods while queuing. It is modelled only by `write` queuing the command; direct method calls are not.
- `multi` with a block is not modelled.
- `respond_to?` finds every public method of the class; the model knows the command names only.
- `mapped_param?` (a hash passed in place of a list) is not modelled.
- Dispatch.Decode: keys, fields and members are strings. The source stores whatever object it is given, so an integer key is a key of its own there; the model refuses any key that is not a string with `TypeError`, which is the model's own refusal, not Ruby's. Likewise an argument the source would only convert later (with `to_s`, `to_i` or an index) but whose shape the model does not represent is refused at decoding.
- Dispatch.DecodeString: SETBIT's bit must be 0 or 1 (as an integer or a string); the source stores `bit.to_s` of anything and rebuilds the byte with `to_i(2)`. GETBIT's offset and GETRANGE's indices must be integers even when the key is absent, where the source answers nil before it uses them.
- Dispatch.Constant: ECHO of an options hash or of a symbol is refused with `TypeError`, since a reply cannot hold a hash or a symbol; the source returns either unchanged.
- SortMethod.SubStar: the element replaces the first star literally. Ruby's `String#sub` with a string replacement also expands the escapes `\0`, `\&`, `\\`, `` \` ``, `\'`, the group references and `\k<name>` inside the element, so an element holding a backslash can look up another key there.
- SELECT and MOVE with a negative database id are not modelled (the registry index is a natural number).
- INFO, KEYS with a pattern, RANDOMKEY, ZINTERSTORE and ZUNIONSTORE are not modelled. Their helpers are not among the modelled files, and KEYS needs glob matching.
- The `warn` output of SORT and all logging are left out.
- The definitions of `data_type_check`, `remove_key_for_empty_collection`, `raise_argument_error`, `get_limit` and `find_database` are not part of this model's source files. CommandHelper and `Instances.FindDatabase` model what the commands rely on.
- SetCommands.SRandMember: the member is any member, not a uniformly random one.
- RuntimeError messages are not modelled; each error is its variant of `Common.Error`.

## Findings

| source | as written | input that shows it | evidently intended | confidence | as-written member | corrected member |
|---|---|---|---|---|---|---|
| lib/redis/commands/server.rb:46-49 | FLUSHDB deletes the registry slot, so every later database moves down one number | key "k" in database 1, FLUSHDB on database 0: "k" is then read in database 0 | only the current database is emptied | not executed | ServerCommands.FlushDbAsWrittenMovesKeys | ServerCommands.ClearedEmptiesOne |
| lib/fakeredis/sort_method.rb:7-10 | SORT accepts only the type names list, set and zset, but `type` reports "hash" for a sorted set | SORT on any sorted set raises WRONGTYPE | lists, sets and sorted sets are sortable | not executed | SortMethod.SortableAsWrittenRefusesSortedSets | SortMethod.Sort |
| lib/redis/commands/lists.rb:39-54 | LTRIM stores `a[start..stop]`, which is nil for a start past the end | LTRIM 2 3 on ["a"] stores nil under the key | the list becomes empty | not executed | ListCommands.TrimAsWrittenCounterexample | ListCommands.TrimInside |
| lib/redis/commands/keys.rb:53-58 | RENAME assigns the new name and then deletes the old one, which is the same key | RENAME k k on a live key deletes it | renaming onto itself keeps the key | not executed | KeyCommands.RenameAsWrittenSelf | KeyCommands.RenameSelf |
| lib/redis/commands/keys.rb:40-47 | MOVE tests presence with `has_key?`, which does not look at expiry | a key expired at time 1, MOVE at time 2: it is moved and reads as live in the destination | an expired key is absent and is not moved | not executed | KeyCommands.MoveAsWrittenRevives | KeyCommands.MoveMoves |
| lib/redis/commands/strings.rb:99-103 | SETRANGE takes the substring at the offset and replaces its FIRST occurrence, wherever that is | SETRANGE "aaaa" 2 "bb" gives "bbaa" | the text at the offset is overwritten: "aabb" | not executed | StringCommands.SetRangeAsWrittenCounterexample | StringCommands.SetRangeOverwrites |
| lib/redis/commands/strings.rb:152-158 | BITCOUNT's default end is the length in characters, but the range is applied to the bit string | BITCOUNT of "a" (bits 01100001) counts bits 0 to 1 and answers 1 | the whole string is counted: 3 | not executed | StringCommands.BitCountAsWrittenCounterexample | StringCommands.BitCountWhole |
