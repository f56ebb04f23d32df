# Verified model of the storage engine and its codecs

This project models the parts of the server where the branching, the pointers and the arithmetic
are, and proves what they are for:

- the **sorted set**: a skip list of heap nodes with spans, and a hash table that must agree with it
  (`SkipList.dfy`, `HashTable.dfy`, `SortedSet.dfy`, `Ordering.dfy`), and the doubly-linked list
  (`LinkedList.dfy`);
- the **wire protocol**: the parser that works on whatever bytes have arrived, the serializer, and a
  connection's buffers (`Resp.dfy`, `RespParser.dfy`, `Inline.dfy`, `Connection.dfy`,
  `Numbers.dfy`);
- the **persistence codecs**: the binary snapshot with its running CRC-64 (`Crc64.dfy`, `Rdb.dfy`,
  `RdbFormat.dfy`, `RdbPersistence.dfy`) and the append-only file, a compiler from databases to
  commands with its interpreter (`Aof.dfy`, `AofCommands.dfy`, `AofMeaning.dfy`,
  `AofPersistence.dfy`);
- the **server state machine**: operations on databases, expiry, watched keys, transactions, the
  memory counter and eviction, subscriptions and blocking (`Keyspace.dfy`, `Stores.dfy`,
  `Expiry.dfy`, `Views.dfy`, `Memory.dfy`, `Registries.dfy`, `World.dfy`, `Mirrors.dfy`, `Steps.dfy`,
  `Blocking.dfy`, `Handover.dfy`, `Transactions.dfy`, `PubSub.dfy`, and the classes in
  `Database.dfy`, `Server.dfy`, `Eviction.dfy`);
- two loops with hard contracts: the pattern matcher (`Globs.dfy`) and the replication backlog ring
  (`Backlog.dfy`).

Code that changes fields in place is a class or a method with a loop, proved against functions on
sequences and maps; what the program promises is then proved about those functions, for every input
and every run. Bytes are `char`s, a `string` is a byte string. Clock readings, random choices and
hash iteration orders are parameters or arbitrary choices. `Wrappers.dfy`, `Seqs.dfy` and `Maps.dfy`
hold an option type and facts about sequences and enumerations.

Where the code does something other than its apparent intention, the code is modelled and the exact
condition under which the intention holds is proved:

- the skip-list head carries the member `""`, so the rank of an entry with that member is found
  exactly when the top level leads past the head (`SkipLists.SkipList.GetRank`,
  `SkipLists.HiddenEntry`); a sorted set then answers rank 0, which is right exactly if the entry
  comes first (`SortedSets.SortedSet.GetRank`, `SortedSets.WrongRank`);
- a cloned hash table forgets its tombstones; a table built by calls and its clones lose nothing,
  but a clone of a written clone can fill up unnoticed, and then exactly the new keys are lost
  (`HashTables.HashTable.Set`, `HashTables.LostEntry`);
- `append` to an existing string and writes through a pointer do not alert watchers, and they are the
  only operations that do not (`Stores.ChangeIsAnnounced`, `Transactions.AppendSlipsThrough`);
- `EXEC` keeps the watches and drops the dirty flag before the queue runs, so a transaction that
  writes to a key its own client watches makes that client's next `EXEC` fail, and only such a one
  does (`Transactions.OwnWritesStopNextExec`);
- writes through a pointer that change the estimated size are the only ones that the memory counter
  does not follow (`Memory.BookIsExact`);
- `rename` drops the time to live (`Stores.RenameForgetsExpiry`);
- `RPUSH` pushes twice, so a rewritten append-only file doubles lists, and scores are rounded to
  text; the load is exact exactly when no list has elements and every score survives
  (`AofMeaning.RewriteIsExact`);
- a `*` in the text can use up a wildcard: a text is found under every pattern that means it exactly
  if it has no `*`, and a pattern finds every text that it means exactly if it has none
  (`Globs.TextServedIffPlain`, `Globs.PatternServesIffPlain`);
- a list range whose stop lies before the list yields the first element (`LinkedLists.RangeIsSelection`);
- two blocking pops in one transaction leave an entry behind, under which a closed client is still
  known, unless the new keys include the old ones (`Mirrors.WaitKeeps`,
  `Blocking.BlockingTwiceDangles`); one is harmless, and outside transactions it cannot happen
  (`Blocking.OneBlockingPopIsAllowed`, `Blocking.OnlyExecBlocksTwice`); nobody behind such an entry is
  served any more (`Handover.StaleEntryServesNobody`);
- a blocked client is woken by the name of the key alone, so a push in another database can wake it;
  it is served exactly if the push went to its own database or its own has an element for it
  (`Handover.ServedIff`), and otherwise it goes on waiting behind everybody else
  (`Handover.LosesItsPlace`, with the run `Handover.WokenInVain`);
- looking at a sampled object refreshes its clock before the clock is read, so the LRU policies pick
  the last live sample and the LFU policies the first; whatever the clocks were, that is the least
  recently or least frequently used one exactly if all live samples are one key
  (`Eviction.BestKey`, `Eviction.LruIsRightIffForced`, `Eviction.LfuIsRightIffForced`);
- expired keys that are still stored are visible to `del` and to the setting of an expiry
  (`Expiry.DelSeesPurges`, `Expiry.ExpiryRevives`), and an append to one is lost
  (`Views.AppendShows`), but reads and plain writes do not see them.

## Model

| member | source | states |
|---|---|---|
| SkipLists.SkipList.Insert | src/storage/data_structures/skip_list.cpp:88-141 | for every tower height, the level-0 order stays sorted and gains exactly the entry; on every level the forward pointers are the next taller nodes, spans are distances in level 0 (nodes remaining at the end), backward pointers and tail mirror level 0 |
| SkipLists.SkipList.InsertTall | src/storage/data_structures/skip_list.cpp:106-141 | the same for a given tower height, with the place of the new node and the new top level |
| SkipLists.SkipList.DeleteNode | src/storage/data_structures/skip_list.cpp:166-189 | returns 1 exactly if the entry is there, removes exactly it, and keeps the same structure; no empty level stays on top |
| SkipLists.SkipList.DeleteNodeInternal | src/storage/data_structures/skip_list.cpp:143-164 | unlinks the node at a known position on all levels and shrinks the level |
| SkipLists.SkipList.Descend | src/storage/data_structures/skip_list.cpp:93-104 | the update and rank arrays hold, on each level, the last node before the entry and its position |
| SkipLists.SkipList.RandomLevel | src/storage/data_structures/skip_list.cpp:80-86 | any height between 1 and the maximum |
| SkipLists.SkipList.GetRank | src/storage/data_structures/skip_list.cpp:191-211 | the position of an entry whose member occurs once, counted from 1, and 0 exactly when the head's empty member cuts the search short |
| SkipLists.HiddenEntry | src/storage/data_structures/skip_list.cpp:191-211 | a list, built by insertions, that holds an entry with the member "" and answers that it has no rank |
| SkipLists.SkipList.GetElementByRank | src/storage/data_structures/skip_list.cpp:213-229 | the node at that position of level 0, or null |
| SkipLists.SkipList.GetFirstInRange | src/storage/data_structures/skip_list.cpp:231-243 | the first entry in the score interval, null only if there is none |
| SkipLists.SkipList.GetLastInRange | src/storage/data_structures/skip_list.cpp:245-256 | the last entry in the score interval, null only if there is none |
| SkipLists.SkipList.Clone | src/storage/data_structures/skip_list.cpp:70-78 | a list of new nodes with the same entries |
| SkipLists.SkipList.constructor | src/storage/data_structures/skip_list.cpp:7-16 | an empty list with a head of full height |
| SkipLists.LevelAfterInsert | src/storage/data_structures/skip_list.cpp:119-129 | a level whose spans are rank distances still has them after one node is spliced in |
| SkipLists.LevelAfterDelete | src/storage/data_structures/skip_list.cpp:144-151 | the same after one node is taken out |
| Ordering.InsertedKeepsOrder | src/storage/data_structures/skip_list.cpp:96-99 | inserting at the lower bound keeps the order by score and member |
| Ordering.SortedIsUnique | src/storage/data_structures/skip_list.cpp:88-141 | a multiset of entries has one sorted sequence, so tower heights and insertion order cannot matter |
| Ordering.StringLessIsByBytes | src/storage/data_structures/skip_list.cpp:96-99 | one member is before another exactly if it is a proper prefix of it or has the smaller byte at the first difference |
| HashTables.HashTable.constructor | src/storage/data_structures/hash_table.h:15 | sixteen empty buckets, the empty map |
| HashTables.HashTable.Set | src/storage/data_structures/hash_table.h:19-27 | updates the map; a table built by set, del and clear, and any clone of one, never loses an entry; in general an entry is lost exactly when all buckets are taken unnoticed and the key is new |
| HashTables.HashTable.Del | src/storage/data_structures/hash_table.h:29-40 | removes the key from the map and leaves a tombstone in the load |
| HashTables.HashTable.Get | src/storage/data_structures/hash_table.h:50-60 | what the map holds |
| HashTables.HashTable.Exists | src/storage/data_structures/hash_table.h:62-64 | whether the map holds the key |
| HashTables.HashTable.Clear | src/storage/data_structures/hash_table.h:69-73 | the empty map |
| HashTables.HashTable.Clone | src/storage/data_structures/hash_table.h:42-48 | the same map and buckets, with no tombstones counted; a clone of a table built by calls can be updated like it |
| HashTables.LostEntry | src/storage/data_structures/hash_table.h:42-48 | a clone of a written clone, under any hash function, in which a new key is lost |
| HashTables.HashTable.Items | src/storage/data_structures/hash_table.h:75-107 | the iterator visits every stored pair exactly once |
| HashTables.HashTable.CheckRehash | src/storage/data_structures/hash_table.h:126-132 | keeps the map and brings the visible load below half; full buckets survive only unnoticed |
| HashTables.HashTable.Rehash | src/storage/data_structures/hash_table.h:134-148 | keeps the map and drops all tombstones |
| HashTables.HashTable.InsertInternal | src/storage/data_structures/hash_table.h:150-176 | probing finds the key or the first empty bucket; an entry is refused exactly when no bucket is empty |
| HashTables.HashTable.FindIndex | src/storage/data_structures/hash_table.h:178-199 | finds a key exactly if it is stored |
| HashTables.Absent | src/storage/data_structures/hash_table.h:186-198 | an empty bucket or a full turn on the probe path proves that the key is not stored |
| SortedSets.SortedSet.Add | src/storage/data_structures/sorted_set.cpp:7-25 | dictionary and skip list go on agreeing; the score is set, 1 for a new member |
| SortedSets.SortedSet.Remove | src/storage/data_structures/sorted_set.cpp:27-38 | both forget the member |
| SortedSets.SortedSet.GetScore | src/storage/data_structures/sorted_set.cpp:40-46 | the member's score |
| SortedSets.SortedSet.GetRank | src/storage/data_structures/sorted_set.cpp:48-56 | the member's position in the ranking, 0 for absent ones; for the member "" the position exactly if the top level leads past the head or it comes first, and 0 otherwise |
| SortedSets.WrongRank | src/storage/data_structures/sorted_set.cpp:48-56 | a set, built by insertions, whose member "" is second and gets rank 0 |
| SortedSets.SortedSet.Clone | src/storage/data_structures/sorted_set.h:24-29 | new nodes and buckets with the same scores and ranking; the copy of a set that is no copy itself can be updated like it |
| SortedSets.SortedSet.RangeByRank | src/storage/data_structures/sorted_set.cpp:58-86 | the clamped slice of the sorted ranking |
| SortedSets.SliceIsSelection | src/storage/data_structures/sorted_set.cpp:58-86 | that slice is exactly the positions between start and stop, either counted from the end if negative |
| SortedSets.RanksFollowScores | src/storage/data_structures/sorted_set.cpp:7-86 | sets with the same scores rank alike, however they were built |
| SortedSets.AgreeIsUnique | src/storage/data_structures/sorted_set.cpp:7-25 | a map of scores has one sorted sequence that agrees with it |
| SortedSets.RankingIsStrict | src/storage/data_structures/sorted_set.cpp:7-25 | scores ascend along the ranking, and among equal scores the members, byte by byte; no two entries are level |
| LinkedLists.LinkedList.PushFront | src/storage/data_structures/linked_list.cpp:40-50 | the sequence with the value in front; prev and next stay mutual inverses |
| LinkedLists.LinkedList.PushBack | src/storage/data_structures/linked_list.cpp:52-62 | the sequence with the value behind |
| LinkedLists.LinkedList.PopFront | src/storage/data_structures/linked_list.cpp:64-80 | the first value and the rest |
| LinkedLists.LinkedList.PopBack | src/storage/data_structures/linked_list.cpp:82-98 | the last value and the rest |
| LinkedLists.LinkedList.Clear | src/storage/data_structures/linked_list.cpp:100-109 | the empty list |
| LinkedLists.LinkedList.Get | src/storage/data_structures/linked_list.cpp:111-136 | indexing, from whichever end it walks, negative from the back |
| LinkedLists.LinkedList.RangeOf | src/storage/data_structures/linked_list.cpp:138-166 | the slice between the clamped ends |
| LinkedLists.RangeIsSelection | src/storage/data_structures/linked_list.cpp:142-151 | the slice is the selected interval exactly unless the stop lies before the list and the start not behind its first element |
| LinkedLists.LinkedList.Clone | src/storage/data_structures/linked_list.cpp:30-38 | equal contents, no node in common |
| RespParser.Parse | src/protocol/resp_parser.cpp:11-38 | the loop computes the specification's batch and the number of bytes it took |
| RespParser.ParseValueAt | src/protocol/resp_parser.cpp:40-52 | the cursor moves as the specification says and stays on failure |
| RespParser.ParseInlineAt | src/protocol/resp_parser.cpp:54-97 | inline commands, with both kinds of quotes |
| Inline.InlineRoundTrip | src/protocol/resp_parser.cpp:54-97 | words written plainly or between either kind of quotes, with spaces and tabs between them, are read back as exactly these words, and what follows the line is untouched; a quote that is never closed runs to the end of the line |
| RespParser.ParseIntegerAt | src/protocol/resp_parser.cpp:127-151 | integers, read by either number routine |
| RespParser.ParseBulkStringAt | src/protocol/resp_parser.cpp:153-201 | bulk strings, null for length -1 |
| RespParser.ParseArrayAt | src/protocol/resp_parser.cpp:203-248 | arrays, going back to the start when an element is missing |
| RespParser.FindCRLFFrom | src/protocol/resp_parser.cpp:250-258 | the first line end at or behind the cursor |
| RespParser.ReadLineFrom | src/protocol/resp_parser.cpp:260-270 | the line up to it |
| RespParser.SerializeValue | src/protocol/resp_serializer.cpp:5-35 | the serializer with its loops writes the specified text |
| RespParser.BulkStringArray | src/protocol/resp_serializer.cpp:45-52 | a command is serialized as an array of bulk strings |
| Resp.ParseStable | src/protocol/resp_parser.cpp:40-52 | a value that parses still parses to the same when bytes are appended |
| Resp.ChunkInvariance | src/server/server.cpp:131-136 | however a stream is cut into reads, parse-then-consume gives the commands and leftover of one parse of the whole |
| Resp.RoundTrip | src/protocol/resp_serializer.cpp:5-35 | parsing what was serialized gives the value back and leaves exactly what follows, for all nested values |
| Resp.RoundTripExactly | src/protocol/resp_serializer.cpp:7-11 | that holds if and only if no simple string or error in the value spans lines |
| Resp.NullsAreRead | src/protocol/resp_parser.cpp:153-248 | length -1 is null for bulk strings and for arrays |
| Resp.BadHeaderIsStuck | src/protocol/resp_parser.cpp:127-248 | a header without a number, or with a length below -1, is never got over, whatever arrives later |
| Resp.BadEndIsStuck | src/protocol/resp_parser.cpp:153-201 | nor is a bulk string that does not end in a line end |
| Resp.ParseAllBack | src/protocol/resp_parser.cpp:11-38 | concatenated serializations parse to exactly the values, using every byte |
| Resp.Delivery | src/networking/client.cpp:85-92 | values sent arrive in order and once, however the bytes are cut |
| Resp.PrefixFree | src/protocol/resp_serializer.cpp:5-35 | no proper prefix of a serialized value parses |
| Resp.Unambiguous | src/protocol/resp_serializer.cpp:5-35 | different values have different texts |
| Resp.ParseValue | src/protocol/resp_parser.cpp:15-52 | every success takes at least two bytes and leaves a suffix, so the loop ends |
| Numbers.DecimalRoundTrip | src/protocol/resp_parser.cpp:138-148 | every 64-bit integer survives its decimal text for both readers |
| Numbers.FromCharsReads | src/protocol/resp_parser.cpp:138-148 | what from_chars makes of a number with anything behind it, within 64 bits |
| Numbers.StollReads | src/protocol/resp_parser.cpp:138-148 | what stoll makes of it behind white space and either sign |
| Numbers.NoDigitNoNumber | src/protocol/resp_parser.cpp:138-148 | without a digit in its place there is no number for either |
| Numbers.ValueIsDecimal | src/protocol/resp_parser.cpp:138-148 | digits are read to the base ten |
| Connections.Connection.AddReply | src/networking/client.cpp:83 | the reply goes behind what is pending |
| Connections.Connection.WriteToSocket | src/networking/client.cpp:56-81 | what was sent and what is pending always make up the replies in order |
| Connections.Connection.ConsumeInput | src/networking/client.cpp:85-92 | drops that many bytes, or all |
| Connections.Connection.OnReadable | src/networking/connection_manager.cpp:96-117 | one read event hands out the complete commands and keeps the rest; the end of the stream, an error or an overfull buffer ends the connection, and a read that would block changes nothing |
| Connections.Connection.ReadFromSocket | src/networking/client.cpp:24-54 | the bytes go behind what is left over; the number of bytes, -1 exactly when the socket would block, and 0 exactly when the connection is to end |
| Connections.Receive | src/server/server.cpp:131-136 | a whole connection's events give the commands of one parse of everything that arrived, unless one of them ended it, and it says exactly when one did |
| Crc64.InitTable | src/storage/rdb_persistence.cpp:12-27 | entry i is the register after eight shifts of i |
| Crc64.Update | src/storage/rdb_persistence.cpp:29-36 | the table loop computes the bit-at-a-time reflected CRC |
| Crc64.TableIsBitwise | src/storage/rdb_persistence.cpp:29-36 | table and bit-at-a-time form agree for every start and message |
| Crc64.UpdateConcat | src/storage/rdb_persistence.cpp:29-36 | updating piece by piece is updating on the concatenation |
| Crc64.ChangedByteIsNoticed | src/storage/rdb_persistence.cpp:29-36 | messages that differ in one byte have different checksums |
| Crc64.PolynomialIsSeen | src/storage/rdb_persistence.cpp:14-26 | the checksum of the single byte 0x80 is the polynomial |
| RdbPersistence.Writer.Write | src/storage/rdb_persistence.cpp:38-41 | the checksum is that of everything written |
| RdbPersistence.Writer.WriteString | src/storage/rdb_persistence.cpp:65-72 | length, then bytes |
| RdbPersistence.Writer.WriteObject | src/storage/rdb_persistence.cpp:141-196 | type byte, key and the value's elements in some order, for all five types |
| RdbPersistence.Writer.WriteRecordOf | src/storage/rdb_persistence.cpp:123-196 | the absolute expiry if there is one, then the record of a live key |
| RdbPersistence.Writer.SaveToFile | src/storage/rdb_persistence.cpp:97-204 | the file of a snapshot: one section for each database that is not empty, one record for each live key |
| RdbPersistence.LiveKeys | src/storage/db.cpp:320-332 | every key that has not expired, once |
| RdbPersistence.Reader.Take | src/storage/rdb_persistence.cpp:43-48 | the checksum is that of everything read |
| RdbPersistence.Reader.ReadString | src/storage/rdb_persistence.cpp:74-81 | as the format says, or the end of the file |
| RdbPersistence.Reader.ReadObject | src/storage/rdb_persistence.cpp:276-327 | as the format says for each type; nothing for an unknown one |
| RdbPersistence.Reader.ReadOpcode | src/storage/rdb_persistence.cpp:239-332 | one turn of the load loop |
| RdbPersistence.Reader.LoadFromFile | src/storage/rdb_persistence.cpp:206-345 | the loader computes the specified outcome, with its verdict on the checksum |
| Rdb.LoadFile | src/storage/rdb_persistence.cpp:206-345 | whatever is saved is accepted, and its records are applied in order |
| Rdb.LoadPayload | src/storage/rdb_persistence.cpp:206-345 | with any checksum in its place, a saved payload is loaded exactly if that is zero or right, and is reported corrupt otherwise |
| Rdb.LoadAfterSave | src/storage/rdb_persistence.cpp:97-345 | loading what was saved restores exactly every live key with its value and absolute expiry, in any iteration order |
| Rdb.AlteredByteIsNoticed | src/storage/rdb_persistence.cpp:335-341 | with one byte of the payload altered, a load that reaches the checksum reports corruption (unless the stored one is zero) |
| Rdb.NumberBack | src/storage/rdb_persistence.cpp:50-63 | eight bytes, lowest first, read back |
| RdbFormat.FileBytes | src/storage/rdb_persistence.cpp:97-204 | the bytes of a file: magic word, section header, records in order, end mark, checksum |
| RdbFormat.HeaderBytes | src/storage/rdb_persistence.cpp:116-121 | the bytes of a section header |
| RdbFormat.TextRecord | src/storage/rdb_persistence.cpp:141-196 | the bytes of a string's record, with type 0 |
| RdbFormat.ItemsRecord | src/storage/rdb_persistence.cpp:141-196 | the bytes of a list's record, with type 1 |
| RdbFormat.MembersRecord | src/storage/rdb_persistence.cpp:141-196 | the bytes of a set's record, with type 2 |
| RdbFormat.ScoresRecord | src/storage/rdb_persistence.cpp:141-196 | the bytes of a sorted set's record, with type 3 |
| RdbFormat.FieldsRecord | src/storage/rdb_persistence.cpp:141-196 | the bytes of a hash's record, with type 4 |
| RdbFormat.EndingRecord | src/storage/rdb_persistence.cpp:126-140 | an expiry is the byte 252 and eight bytes in front of the same record |
| RdbFormat.LittleIsLowFirst | src/storage/rdb_persistence.cpp:50-63 | byte i of a number is its digit number i to the base 256 |
| RdbFormat.SecondsAreRead | src/storage/rdb_persistence.cpp:250-258 | an expiry in seconds ends its key after so many thousand milliseconds; without a section header it goes to the first database, and without a checksum it is accepted |
| RdbFormat.OtherMagicIsRefused | src/storage/rdb_persistence.cpp:215-222 | a file is refused exactly if it begins with another magic word |
| RdbFormat.KeyIsPassed | src/storage/rdb_persistence.cpp:268-321 | of a record with an unknown type or for a database that does not exist the key is read and nothing stored |
| AofMeaning.LoadAfterRewrite | src/storage/aof_persistence.cpp:14-156 | running the rewritten script rebuilds every live key and expiry, lists doubled and scores as printed, for every order and clock |
| AofMeaning.RewriteIsExact | src/storage/aof_persistence.cpp:69-156 | that is the original if and only if no live list has elements and every live score survives its text |
| AofMeaning.ValueCommandRuns | src/storage/aof_persistence.cpp:89-138 | the command compiled from a value stores that value's echo under a new key |
| AofPersistence.RewriteAof | src/storage/aof_persistence.cpp:69-156 | writes the script of a snapshot |
| AofPersistence.ValueArgs | src/storage/aof_persistence.cpp:89-138 | the argument vector for each type |
| AofPersistence.RewriteRecord | src/storage/aof_persistence.cpp:85-152 | the value's command and the absolute expiry |
| AofPersistence.Replayer.LoadFromFile | src/storage/aof_persistence.cpp:14-67 | parses the file and runs its commands, skipping names that are not in the command table |
| AofPersistence.Replayer.Handle | src/storage/aof_persistence.cpp:50-64 | the handlers of SELECT, SET, RPUSH, HSET, SADD, ZADD and PEXPIREAT |
| AofPersistence.Replayer.Dispatch | src/storage/aof_persistence.cpp:46-64 | looks the name up in upper case; an unknown one changes nothing |
| AofPersistence.Replayer.SetCommand | src/commands/string_commands.cpp:10-76 | reads the options, then stores the text with its time to live unless NX or XX forbids it or a time is no positive number |
| AofCommands.SetWithOptions | src/commands/string_commands.cpp:10-76 | with any options in any order and either case: NX wants the key invisible and XX visible; else the text is visible until the last time asked for has passed, or for ever |
| AofCommands.TimesAreCounted | src/commands/string_commands.cpp:28-57 | after EX n the key is visible exactly for 1000 n milliseconds, after PX n exactly for n |
| AofCommands.PresenceIsAsked | src/commands/string_commands.cpp:60-67 | NX leaves a visible key as it is, XX makes none appear |
| AofCommands.BadTimeRefuses | src/commands/string_commands.cpp:28-57 | a time that is no number or not positive refuses the command, whatever options come before it |
| AofPersistence.Replayer.PushGeneric | src/commands/list_commands.cpp:10-43 | appends the values to a list, making it if needed |
| AofPersistence.Replayer.HSetCommand | src/commands/hash_commands.cpp:11-46 | stores the pairs, refusing an odd count and other types |
| AofPersistence.Replayer.SAddCommand | src/commands/set_commands.cpp:11-37 | adds the members |
| AofPersistence.Replayer.ZAddCommand | src/commands/zset_commands.cpp:11-53 | stores the scores up to the first unreadable one |
| AofPersistence.Replayer.SelectCommand | src/commands/server_commands.cpp:140-158 | changes the database if the index is in range |
| AofPersistence.Replayer.PExpireAtCommand | src/commands/key_commands.cpp:99-117 | sets the expiry of a stored key if the text is a number |
| AofCommands.PushShows | src/commands/list_commands.cpp:10-43 | the values are visible behind the elements that were, until the same end; another type is left alone |
| AofCommands.HSetShows | src/commands/hash_commands.cpp:11-46 | the pairs are visible over the fields that were, the last one under a name counting; an odd count or another type changes nothing visible |
| AofCommands.SAddShows | src/commands/set_commands.cpp:11-37 | the members are visible with those that were |
| AofCommands.ZAddShows | src/commands/zset_commands.cpp:11-53 | the scores in front of the first unreadable one are visible over those that were |
| AofCommands.PExpireAtShows | src/commands/key_commands.cpp:99-117 | a visible key ends at the time given |
| AofCommands.SelectChooses | src/commands/server_commands.cpp:140-158 | the number of a database selects it, another number nothing |
| AofCommands.NamesAreKnown | src/storage/aof_persistence.cpp:46-64 | a name in either case, or mixed, runs its handler on the selected database |
| Databases.Database.SetString | src/storage/db.cpp:24-43 | new value, no expiry, exact booking, the present clock, watchers of the key alerted |
| Databases.Database.SetObject | src/storage/db.cpp:92-109 | the same for any value |
| Databases.Database.Get | src/storage/db.cpp:45-63 | the live string with its clock renewed; an expired key is removed with its booking and alerts |
| Databases.Database.GetObject | src/storage/db.cpp:65-77 | the live value with its clock renewed; an expired key is removed with its booking and alerts |
| Databases.Database.GetObjectForWrite | src/storage/db.cpp:79-90 | the same for a handler that goes on to write |
| Databases.Database.Del | src/storage/db.cpp:111-125 | forgets the key, alerting only if it was stored |
| Databases.Database.Exists | src/storage/db.cpp:127-133 | whether the key is live; an expired one is removed with its booking and alerts |
| Databases.Database.Type | src/storage/db.cpp:135-146 | the live value's type name; an expired key is removed with its booking and alerts |
| Databases.Database.Rename | src/storage/db.cpp:148-176 | moves the value, alerts under both names |
| Databases.Database.Append | src/storage/db.cpp:209-230 | lengthens a string without an alert, or stores it with one |
| Databases.Database.SetExpiry | src/storage/db.cpp:232-242 | a time to live for a stored key |
| Databases.Database.SetExpiryAt | src/storage/db.cpp:244-248 | an expiry time for a stored key |
| Databases.Database.PttlOf | src/storage/db.cpp:250-265 | the time left, -1 or -2 |
| Databases.Database.PersistKey | src/storage/db.cpp:267-269 | drops the expiry |
| Databases.Database.CheckAndExpire | src/storage/db.cpp:271-299 | removes an expired key with its booking and alerts |
| Databases.Database.FlushDb | src/storage/db.cpp:301-318 | empties the database and alerts every watcher |
| Databases.Database.Keys | src/storage/db.cpp:320-332 | the live keys the matcher accepts, each once |
| Databases.Database.ActiveExpireCycle | src/storage/db.cpp:334-366 | removes the expired ones among the sampled keys, at most so many |
| Databases.StaysSound | src/storage/db.cpp:24-366 | every operation keeps expiries for stored keys alone and a clock for each stored key |
| Databases.Database.AddWatchedKey | src/storage/db.cpp:421-423 | registers a watcher |
| Databases.Database.RemoveWatchedKey | src/storage/db.cpp:425-435 | removes it, and the key with its last watcher |
| Databases.Database.TouchWatchedKey | src/storage/db.cpp:437-444 | exactly the key's watchers become dirty |
| Views.SetShows | src/storage/db.cpp:24-43 | a SET is visible at once and for ever, and nothing else changes for a reader |
| Views.AssignShows | src/storage/db.cpp:92-109 | the same for any value |
| Views.AppendShows | src/storage/db.cpp:209-230 | the text is visible behind what was, until the same end; on an expired string that is still stored it is lost |
| Views.InPlaceShows | src/storage/db.cpp:79-90 | a write through a pointer changes the visible value and not its end |
| Views.ExpireAtShows | src/storage/db.cpp:232-269 | setting an expiry changes the end and not the value; PERSIST takes the end away |
| Views.DelShows | src/storage/db.cpp:111-125 | the key is invisible from then on, the others as before |
| Views.RenameShows | src/storage/db.cpp:148-176 | the value is visible under the new name alone, for ever |
| Views.FlushShows | src/storage/db.cpp:301-318 | nothing is visible any more |
| Views.PurgeShows | src/storage/db.cpp:271-366 | removing expired keys is not visible, now or later |
| Views.RepliesTellLive | src/storage/db.cpp:45-133 | get, exists, keys and lookups answer what is visible |
| Views.TypesAreTold | src/storage/db.cpp:135-146 | the name of the type exactly |
| Expiry.PttlTells | src/storage/db.cpp:250-265 | -2 exactly for an invisible key, -1 exactly for one without an end, and otherwise t exactly if the key is visible for t milliseconds more and then not |
| Stores.ChangeIsAnnounced | src/storage/db.cpp:24-176 | every changed binding is announced to its watchers, if and only if the operation is not a silent one |
| Stores.AlertsAreDeserved | src/storage/db.cpp:24-444 | a key's watchers are alerted exactly if it has been stored by name, renamed from or to, or flushed, or has changed in another way that is not silent |
| Stores.ClocksTell | src/storage/db.cpp:24-230 | a changed value has the present clock, an untouched one its own |
| Expiry.PurgesAreInvisible | src/storage/db.cpp:45-366 | in runs of reads and plain writes under a monotone clock, removing expired keys at any moments never changes an answer |
| Memory.MemoryManager.AddMemory | src/server/memory_manager.h:17-19 | adds |
| Memory.MemoryManager.FreeMemory | src/server/memory_manager.h:21-28 | subtracts with a floor at zero |
| Memory.MemoryManager.UpdateLruClock | src/server/server.cpp:276-282 | the clock is the low 32 bits of the seconds |
| Memory.BookIsExact | src/storage/db.cpp:24-366 | after each operation the counter is the sum of the estimates, if and only if it does not resize a collection in place |
| Memory.CounterIsTotal | src/server/memory_manager.h:17-28 | over any run on any number of databases the counter equals the sum over all of them |
| Memory.RemoveIsExact | src/storage/db.cpp:114-119 | removing a key frees no more than the counter holds, so the floor is never reached |
| Memory.EstimatesGrow | src/server/memory_manager.cpp:5-40 | what one more byte, element, field, member or score adds to an estimate |
| Memory.TotalWithout | src/server/memory_manager.cpp:9-40 | the sum of the estimates does not depend on the order |
| Eviction.EvictKeysIfNeeded | src/server/server.cpp:494-570 | does nothing without a limit, under noeviction or below the limit; else ends, leaves the surviving values as they were, under volatile policies all keys without an expiry among them, and keeps an exact counter exact; gives up above the limit only after a pass in which every database had no samples or none to pick; under policies that overlook no key only when nothing is left, and never with an exact counter |
| Eviction.FirstLiveIs | src/server/server.cpp:530-541 | no sample in front of the first live one is alive |
| Eviction.LastLiveIs | src/server/server.cpp:542-557 | none behind the last live one is |
| Eviction.EvictUntil | src/server/server.cpp:507-569 | the same for a policy and a number of samples |
| Eviction.LruIsRead | src/server/server.cpp:502-505 | the two LRU names are read as LRU, on all keys or on those with an expiry |
| Eviction.LfuIsRead | src/server/server.cpp:502-505 | the same for the two LFU names |
| Eviction.RandomAndTtlAreRead | src/server/server.cpp:502-505 | the same for the random names and volatile-ttl |
| Eviction.EvictPass | src/server/server.cpp:509-568 | a pass that goes on has made the number of keys smaller; one that ends the loop above the limit found nothing in any database |
| Eviction.BestKey | src/server/server.cpp:517-558 | the first sample, the one with the least time left, the first live one or the last live one, by policy; nothing alive is removed by looking |
| Eviction.LookAt | src/server/server.cpp:533-548 | the clock that is read is the present one, because the lookup has just set it |
| Eviction.LruIsRightIffForced | src/server/server.cpp:542-557 | for whatever clocks the objects had, the LRU pick is the live sample idle longest, if and only if all live samples are one key (and a live key "" is not read as none) |
| Eviction.LfuIsRightIffForced | src/server/server.cpp:530-541 | the same for the LFU pick and the least counter |
| Eviction.RecentKeyIsEvicted | src/server/server.cpp:542-557 | two keys of which the one used a moment ago is picked |
| Eviction.EvictOne | src/server/server.cpp:514-563 | of what is alive exactly the picked key goes, and the database is smaller |
| Eviction.RandomSample | src/storage/db.cpp:368-392 | keys of the pool, none only if it is empty |
| Transactions.ChangeStopsExec | src/commands/transaction_commands.cpp:24-101 | over any run, one announced change of the value under a watched key, by whatever event, makes EXEC answer the null array and run nothing; nothing is asked of the rest of the run |
| Transactions.DirtyIffAlerted | src/commands/transaction_commands.cpp:32-36 | the flag is up exactly if an operation touched a watched key since the watch |
| Transactions.NoAlertLetsExecRun | src/commands/transaction_commands.cpp:38-63 | without an alert EXEC runs the queue |
| Transactions.TransactionIsAllOrNothing | src/commands/transaction_commands.cpp:10-64 | EXEC runs exactly the commands sent since MULTI, in order, or none |
| Transactions.WatchesAreEnded | src/commands/transaction_commands.cpp:66-118 | after UNWATCH, and after DISCARD inside MULTI, no database knows the client as a watcher and its flag is down |
| Transactions.UnwatchedExecRuns | src/commands/transaction_commands.cpp:24-118 | from then on, until the client watches again, its transactions run all that was queued, whatever keys anybody has changed before or changes since |
| Transactions.StepStaysUnwatching | src/commands/transaction_commands.cpp:87-102 | no event but a WATCH of its own outside MULTI makes a client a watcher or raises its flag |
| World.RunConcat | src/server/server.cpp:131-150 | a run is its events one after the other |
| Transactions.StepQueues | src/server/server.cpp:244-250 | inside MULTI commands of every kind are queued and change no database |
| Transactions.StepWatch | src/commands/transaction_commands.cpp:95-100 | a registration lasts until the client itself ends it |
| Transactions.AppendSlipsThrough | src/storage/db.cpp:209-225 | an append under a watched key does not stop EXEC |
| Transactions.OwnWritesAreNoted | src/commands/transaction_commands.cpp:38-62 | after EXEC the client is dirty exactly if its own queue touched a key it watches |
| Transactions.OwnWritesStopNextExec | src/commands/transaction_commands.cpp:32-62 | its next EXEC answers the null array exactly then, if nothing happens in between |
| Transactions.OwnChangeStopsNextExec | src/commands/transaction_commands.cpp:38-62 | in every state, one queued command that changes a watched key announced does that, whatever else is queued |
| Mirrors.ReachableIsMirrored | src/server/server.cpp:131-607 | in every reachable state channels, patterns, waiting lists and watch lists say of each client exactly what it knows of itself |
| Mirrors.ClosedClientIsForgotten | src/server/server.cpp:152-194 | after closing, no registry knows the client |
| Mirrors.WaitKeeps | src/server/server.cpp:436-457 | blocking keeps the mirror if and only if the client's old keys are among the new ones |
| Blocking.BlockingTwiceDangles | src/commands/list_commands.cpp:150-191 | MULTI, BLPOP a, BLPOP b, EXEC: the server knows the client under a when it has been closed |
| Blocking.OnlyExecBlocksTwice | src/server/server.cpp:138-139 | no request outside a transaction, and nothing the server does on its own, blocks a waiting client on other keys |
| Blocking.OneBlockingPopIsAllowed | src/commands/transaction_commands.cpp:38-62 | a queue with at most one blocking pop keeps the mirror, whatever else it holds and whomever it wakes |
| Blocking.WaitsUntilDeadline | src/server/server.cpp:304-320 | a client that blocks with a timeout of n seconds is released by the first cron turn 1000 n milliseconds later or after that, and by none before; with 0 never |
| Blocking.NegativeTimeIsRefused | src/commands/list_commands.cpp:155-162 | a negative timeout changes nothing |
| Blocking.RunStaysOutside | src/commands/transaction_commands.cpp:13-63 | along every run no client is blocked and inside MULTI at once |
| Blocking.ReachableFront | src/server/server.cpp:436-492 | in every reachable state the client that heads a waiting list is connected and blocked on that key outside MULTI, with a command to run again on exactly its blocked keys |
| Handover.PopTakesOne | src/commands/list_commands.cpp:150-191 | of the lists a reader can see, the first with an element loses it from its end, and goes with its last; without any, the database looks as before and the client waits for every key |
| Handover.FirstListIs | src/commands/list_commands.cpp:175-189 | that list is the one whose key comes first in the command, and there is none exactly if no list has an element |
| Handover.PopAfterPush | src/commands/list_commands.cpp:10-54 | a pop at the end of the last push takes that back, at the other end it takes the oldest |
| Handover.PushStores | src/commands/list_commands.cpp:10-43 | a push that nobody waits for: the values are visible at the right end in order, or at the left end with the last one first, and nothing else changes |
| Handover.PushCommandStores | src/commands/list_commands.cpp:10-54 | the same for the commands LPUSH and RPUSH, where RPUSH stores its values twice |
| Handover.PushRefused | src/commands/list_commands.cpp:10-43 | under a key of another type nothing visible changes and nobody is served |
| Handover.PushMeetsWaiter | src/server/server.cpp:477-487 | a push in any database under a key whose front client waits in any database: the client takes one element from the first list it can see in its own, or is entered anew under all its keys; a database that is not its own keeps all that was pushed |
| Handover.ServedIff | src/server/server.cpp:477-487 | the front client's wait ends if and only if the push went to its own database or that has an element under one of its keys |
| Handover.LosesItsPlace | src/server/server.cpp:477-487 | otherwise it goes on waiting, behind everybody else who waits for the key, and the elements stay where they were pushed |
| Handover.WokenInVain | src/server/server.cpp:477-487 | the failing run: two clients block in one database, a third selects another and pushes, and the first of them is now the second |
| Handover.WaitingIsReached | src/server/server.cpp:436-457 | that run starts from empty databases: three connections, two blocking pops, one SELECT |
| Handover.PushReachesWaiter | src/commands/list_commands.cpp:10-43 | a push under a key whose longest waiter waits in that database ends the wait with an element of the grown list |
| Handover.PassedThrough | src/server/server.cpp:477-487 | one element pushed where nothing was is handed over, and the database looks as if nothing had happened |
| Handover.StaleEntryServesNobody | src/server/server.cpp:477-487 | whatever is pushed to a key whose longest waiter waits no more, its entry stays in front and nobody is served |
| Mirrors.WakeKeeps | src/server/server.cpp:459-475 | unblocking keeps the mirror |
| Mirrors.ForgetKeeps | src/commands/transaction_commands.cpp:76-81 | dropping all watches keeps the mirror |
| PubSub.PublishMessage | src/server/server.cpp:609-651 | the texts and their receivers in order, channel first, then matching patterns, and their number |
| PubSub.DeliveredPerSubscription | src/server/server.cpp:609-651 | each client gets the message once for its channel and once for each of its matching patterns |
| PubSub.DeliveriesTell | src/server/server.cpp:609-651 | what arrives is read as message, channel and text by a subscriber of the channel, with the pattern by one of a matching pattern, and nobody else is sent anything |
| PubSub.DeliveriesInOrder | src/server/server.cpp:609-651 | subscribers of the channel come first, in their order, then the patterns in theirs |
| PubSub.StarTakesEndings | src/server/server.cpp:629-634 | a pattern that ends in a star takes exactly the channels that begin with what stands before it |
| PubSub.StarAtEndIsGlob | src/server/server.cpp:629-637 | if no other star or question mark stands in it, that is what the pattern means to the matcher of KEYS |
| PubSub.PlainPatternIsName | src/server/server.cpp:635-637 | any other pattern takes its own name only, which is its meaning if it has no star or question mark |
| PubSub.SubscriptionsAreKept | src/commands/pubsub_commands.cpp:13-68 | SUBSCRIBE adds its names, UNSUBSCRIBE takes its names away, and without names all |
| PubSub.PatternsAreKept | src/commands/pubsub_commands.cpp:74-125 | the same for patterns |
| Servers.Server.ExecuteCommand | src/server/server.cpp:244-253 | queues inside MULTI, runs otherwise, as the state machine says |
| Servers.Server.Multi | src/commands/transaction_commands.cpp:13-21 | opens a transaction, refused if one is open |
| Servers.Server.Exec | src/commands/transaction_commands.cpp:26-63 | the step and the reply of EXEC |
| Servers.Server.Discard | src/commands/transaction_commands.cpp:68-84 | drops queue and watches |
| Servers.Server.Watch | src/commands/transaction_commands.cpp:89-102 | registers in the selected database, refused inside MULTI |
| Servers.Server.Unwatch | src/commands/transaction_commands.cpp:108-118 | drops the watches and the dirty flag |
| Servers.Server.EvictKeysIfNeeded | src/server/server.cpp:494-570 | the eviction on the server's databases keeps the server valid and an exact counter exact, and leaves the surviving values as they were |
| Servers.Server.ExpireSome | src/server/server.cpp:284-286 | the cron's expiry turn: up to twenty different keys with an expiry, all of them if there are fewer |
| Servers.Server.SubscribeChannel | src/server/server.cpp:572-576 | enters the client once |
| Servers.Server.UnsubscribeChannel | src/server/server.cpp:578-590 | removes it |
| Servers.Server.PSubscribePattern | src/server/server.cpp:592-596 | enters the pattern once |
| Servers.Server.PUnsubscribePattern | src/server/server.cpp:598-607 | removes it |
| Servers.Server.SubscribeCommand | src/commands/pubsub_commands.cpp:13-31 | subscribes to the channels one after the other |
| Servers.Server.UnsubscribeCommand | src/commands/pubsub_commands.cpp:37-68 | leaves the named channels, or all, in any order |
| Servers.Server.PSubscribeCommand | src/commands/pubsub_commands.cpp:74-88 | the same for patterns |
| Servers.Server.PUnsubscribeCommand | src/commands/pubsub_commands.cpp:94-125 | the same for leaving patterns |
| Servers.Server.BlockClient | src/server/server.cpp:436-457 | blocks on the keys, with the deadline and the command to run again |
| Servers.Server.UnblockClient | src/server/server.cpp:459-475 | takes the client out of the waiting lists |
| Servers.Server.CheckTimeOut | src/server/server.cpp:304-320 | releases the client exactly if its deadline has passed on the clock that the cron reads |
| Servers.Server.BPopGeneric | src/commands/list_commands.cpp:150-191 | takes an element from the first of the lists that has one, removing a list with its last; else blocks |
| Servers.Server.PushGeneric | src/commands/list_commands.cpp:10-43 | makes the list if the key is free, refuses other types, pushes, and serves the client that waits |
| Servers.Server.PushAll | src/commands/list_commands.cpp:29-36 | the values behind the elements in order, or in front of them with the last one first |
| Servers.Server.PushCommand | src/commands/list_commands.cpp:45-54 | LPUSH once, RPUSH twice |
| Servers.Server.HandleClientsBlockedOnKey | src/server/server.cpp:477-487 | only the client that waited longest is unblocked, and its own stored command runs again |
| Servers.Server.ProcessClientInput | src/server/server.cpp:131-150 | a batch of requests is a run of the state machine; what follows a command that blocks is dropped |
| Servers.BlockedIsDeaf | src/server/server.cpp:138-139 | whatever a blocked client sends changes nothing |
| Servers.Server.CloseClient | src/server/server.cpp:152-194 | the closing step; nothing refers to the client afterwards |
| Globs.GlobMatch | src/storage/db.cpp:394-419 | the loop ends and accepts exactly the texts of its specification; what it accepts the pattern means, and all of it where pattern or text has no star |
| Globs.AcceptedIsMatch | src/storage/db.cpp:394-419 | soundness for every pattern and text |
| Globs.PlainMatchIsAccepted | src/storage/db.cpp:394-419 | completeness where the pattern or the text has no star |
| Globs.TextServedIffPlain | src/storage/db.cpp:394-419 | a text is accepted under every pattern that means it, if and only if it has no star |
| Globs.PatternServesIffPlain | src/storage/db.cpp:394-419 | a pattern accepts every text that it means, if and only if it has no star |
| Globs.StarInTextIsMissed | src/storage/db.cpp:399-403 | a pattern and a text with a star that match and are refused |
| Globs.LaterThanRun | src/storage/db.cpp:407-410 | going back to the last star alone loses no match |
| Backlog.BacklogIsLastBytes | src/server/replication.cpp:61-77 | after any feeds the ring holds exactly the last bytes of the stream at their positions, and dropped plus held is the offset |
| Backlog.Master.FeedReplicationBacklog | src/server/replication.cpp:61-77 | the byte loop is the specified feed |
| Backlog.Master.PropagateToReplicas | src/server/replication.cpp:79-96 | the same bytes go to the backlog and to every replica |

## Left out

- SkipLists.SkipList.Insert: scores are real numbers; NaN, infinities and signed zero are not modelled, and spans are unbounded where the program has 32 bits.
- RespParser.ParseArrayAt: the reserve call for an announced element count is not modelled, so neither is its failure for a huge count.
- AofPersistence.Replayer.Handle: registered commands without one of these handlers end a replay as outside the model; the milliseconds of SET's EX option are unbounded.
- Servers.Server.ExecuteCommand: commands that read, or that change collections in place, are known by the operations they perform on the database; argument counts, unknown commands, the memory check before writes, replies, the log and QUIT are not modelled, nor that transaction commands spelt in lower case are queued inside MULTI.
- Servers.Server.BlockClient: the target of a blocking command, which no command sets, is not modelled; deadlines are taken from the system clock and compared with the steady clock, and both readings are parameters here.
- Servers.Server.PushGeneric: a waiting list with an entry of a closed client, where the program's behaviour is undefined, is excluded by the server's validity; the machine lets such a push serve nobody.
- Servers.Server.CloseClient: replica and master bookkeeping is not modelled.
- Databases.Database.GetObject: the hit, miss and dirty counters are not modelled.
- Eviction.EvictKeysIfNeeded: the time stands still during one call.
- PubSub.PublishMessage: returns the texts in order instead of writing them to buffers; an empty pattern, for which the program reads before the string, is compared as it is.
- Databases.Database.ActiveExpireCycle: the clock is read once per cycle, not once per key.
- Memory.BookIsExact: string capacities are taken as sizes, and the sizes of the containers are constants.
- Rdb.LoadAfterSave: one clock reading per save, at most as many databases as a 32-bit index can name, and expiry times below 2^63 milliseconds; a file that ends early, or whose database number is negative as an int, leaves the program in a state the model calls unspecified.
- AofMeaning.LoadAfterRewrite: the printing and reading of scores are functions of which only readability is assumed.
- Sockets, the event loop, signal handling, configuration, logging and INFO texts: input and output around the modelled state.
- The replication handshake, the live append-only log and the equality of master and replica.
- Background threads, file renaming and fsync: a snapshot is a pure encoding of one state.
- incrby, set algebra, range-by-score commands and the other handlers that add no state of their own.
