# Qedis in Dafny

Models of the hard parts of Qedis, a Redis clone in C++, and proofs of what they are for. Each file models one source
file or component, in the form of the source: functions and lemmas where it computes, methods with loops over arrays and
objects with fields where it changes things step by step.

| file | models |
|---|---|
| `Ziplist.dfy`, `ZiplistFormat.dfy`, `ZiplistNarrow.dfy` | ziplists: a list in one byte buffer whose entries record the length of the one before; insertion, deletion, the cascade of widened fields, traversal both ways; an insertion outside the domain |
| `Lzf.dfy` | the LZF compressor and decompressor |
| `QdbFormat.dfy`, `Qdb.dfy` | the snapshot format, its saver and loader, DUMP and RESTORE |
| `ZookeeperConn.dfy`, `Election.dfy`, `ElectionCalls.dfy` | leader election over ephemeral sequential nodes: one client, all clients with a server, and what they are told |
| `Future.dfy` | a chain of futures, with the value and the timeout racing through per-state locks |
| `Intset.dfy` | sorted integer arrays with in-place widening |
| `QSortedSet.dfy` | sorted sets with two indexes, and rank queries |
| `Timer.dfy` | the five-level timer wheel with its linked lists |
| `Buffer.dfy`, `UnboundedBuffer.dfy`, `AsyncBuffer.dfy` | the byte queues between threads |
| `QGlobRegex.dfy` | the glob matcher |
| `QProtoParser.dfy`, `RequestGrammar.dfy`, `QAOF.dfy` | the resumable request parser, the grammar it accepts, the printer it inverts, and the file loader |
| `QMulti.dfy` | WATCH, MULTI and EXEC |
| `Bytes.dfy`, `Integers.dfy`, `Options.dfy` | bytes, fixed-width integers, and integers as text |

How to read it:

- Bytes are integers from 0 to 255, in little-endian order where several make up a number. Masks and shifts are written
  as remainders and quotients; the mask of the ring is a bitwise and, shown to be one.
- Buffers that the source reallocates are sequences that methods return or reassign; what realloc adds is arbitrary.
  Buffers of a fixed size are arrays.
- A ghost parameter of a ziplist method names the entries that the buffer holds; `Ziplist.Unambiguous` shows that there
  is only one choice. `Holds` and `WellFormed` say what a buffer must look like.
- `Ziplist.CanInsert` is the domain of `__ziplistInsert`: the list stays below 2^32 bytes, and the field of the next
  entry does not give up more bytes than the new entry takes. The source checks neither; `ZiplistNarrow` shows what it
  does one byte outside.
- In the LZF model the uninitialised hash table is an array of arbitrary integers, and the length of the output array is
  one more than the limit passed, as QDB.cc allocates it: on calls that return 0 the compressor may write that byte,
  although lzf.h speaks of outLen bytes only; `Lzf.WritesBehindTheEnd` is such a call.
- The ordered containers of a sorted set are maps and sets; going through one takes the least key that is left, names by
  their bytes. A score whose last member has gone keeps its empty set, as in the source.
- The checksum of DUMP is a parameter, any function. The order in which an unordered container is traversed is arbitrary.
- strtol is modelled in full for base 0; strings are taken to end where their length says, with no digits behind them.
- The election server numbers nodes upwards, serves each client in order, and fires a watch once. A session that ends
  takes its node and its watches along; packets already sent still arrive. Clients number freely, pings included.
- The steps of the future chain are the critical sections, the callbacks and the unlocking of single states, in any
  order. The chain is complete, with OnTimeout at its end, before the value or the timeout moves.
- The queue between threads takes each call of Write, ProcessBuffer and Skip as one step. try_lock may fail.
- The request parser is fed as the socket loop feeds it: what it has used is taken out of the buffer, and the next
  piece goes behind the rest. When its pointer has run behind the end there is nothing more to say, as the buffer holds
  no such bytes.
- Signed integers wrap around where the source lets them overflow: header numbers, and the negation of the most negative
  index or value.
- A glob pattern can make the matcher read behind the NUL that ends the text; what it reads there is a parameter.
- A packet that holds no whole command leaves `QClient::s_current` set until the next packet or connection. The timers
  run in between (QedisSvr/Qedis.cc:428-436), and `NotifyDirty` passes the current client over for them as well.
- `Expected` holds the calls of OnTimer that a timer manager owes: to timers on the first two levels, and on the others to a
  timer that is alone. `LateTimer` shows why not to all.
- Every call of OnTimer is logged with its time, its tick, and whether the timer goes on.
- Timers are due below 2^31 ms from the clock, as the 32-bit distance in the source demands, and callbacks do not touch
  other timers.

## Model

| member | source | states |
|---|---|---|
| Ziplist.Insert | QedisCore/redisZipList.c:590-678 | on a well-formed list with a gap that can hold the entry, the result is well formed (size, tail offset, count, links, end mark) and its items are the old ones with the new one put in at the cursor |
| Ziplist.Delete | QedisCore/redisZipList.c:530-587 | the result is well formed and its items are the old ones without up to num of them from the cursor on |
| Ziplist.CascadeUpdate | QedisCore/redisZipList.c:468-527 | from a buffer whose only stale link is the one behind the cursor to one that holds the repaired entries and the right tail offset; bytes before the cursor stay |
| ZiplistFormat.CascadeRepairs | QedisCore/redisZipList.c:447-467 | the cascade ends with every link right, the items unchanged, the first entry untouched and no byte lost |
| ZiplistFormat.CascadeExtent | QedisCore/redisZipList.c:460-467 | the cascade widens a run of entries once each from one byte to five, stops at the first whose width stays, and leaves everything behind that alone: no field shrinks |
| ZiplistFormat.InsertedItems | QedisCore/redisZipList.c:590-678 | inserting keeps all links right and all other items, and holds an integer in place of a string of at most 21 characters that spells one, the nearest 64-bit one when it is greater |
| ZiplistFormat.InsertedNarrow | QedisCore/redisZipList.c:612-634 | the new entry and the one behind it have the narrowest fields that hold the lengths before them |
| ZiplistFormat.DeletedItems | QedisCore/redisZipList.c:530-587 | deleting keeps all links right and all other items |
| ZiplistFormat.EncodedIsBody | QedisCore/redisZipList.c:330-355 | what an item is encoded as decodes to that item, across all string lengths and integer encodings |
| ZiplistFormat.DecimalItem | QedisCore/redisZipList.c:330-355 | the decimal rendering of any 64-bit integer goes in as that integer |
| ZiplistFormat.EncodedIsShortest | QedisCore/redisZipList.c:330-355 | no other entry that decodes to the same item is shorter |
| ZiplistFormat.HeadersAre | QedisCore/redisZipList.c:189-221 | the header bytes of strings on either side of where their forms change |
| ZiplistFormat.IntegersAre | QedisCore/redisZipList.c:330-386 | the bytes of integers of several encodings |
| ZiplistFormat.LoadSavedInteger | QedisCore/redisZipList.c:357-416 | zipLoadInteger undoes zipSaveInteger in every encoding, the shifted 24-bit one included |
| Ziplist.ReadFirst | QedisCore/redisZipList.c:419-427 | a cursor at an entry reads back the fields, the payload and the start of the next entry that were written |
| Ziplist.Unambiguous | QedisCore/redisZipList.c:419-427 | a buffer stands for one list of entries only |
| Ziplist.WidenNext | QedisCore/redisZipList.c:486-510 | one widening: the next entry grows by four bytes, all behind it moves, the size and the tail offset follow |
| Ziplist.SetNext | QedisCore/redisZipList.c:511-522 | a next entry whose field is wide enough keeps its width, five bytes if it has them |
| Ziplist.OpenGap | QedisCore/redisZipList.c:629-657 | the entries from the cursor on move behind a gap of reqlen bytes, the first records reqlen, and the tail offset is right whether or not that one is the tail |
| Ziplist.Excise | QedisCore/redisZipList.c:542-585 | what the deletion does once its loop has found where it ends, in all its cases |
| Ziplist.IncrLength | QedisCore/redisZipList.c:151-156 | the counter stays right or saturated |
| Ziplist.NarrowInsertLosesTail | QedisCore/redisZipList.c:629-641 | why the gap must fit, in terms of the move: when the next entry gives up more bytes than the new one takes, the resize cuts into the list before it is moved; two bytes short, the move reads past the buffer; one byte short, it reads the old tail exactly when its last byte was 255 anyway |
| ZiplistNarrow.MoveNarrow | QedisCore/redisZipList.c:629-641 | what the resize and the memmove leave of the entries behind the cursor when the gap is one byte too narrow, for every list: the entries they should be if and only if their last byte was 255; otherwise the last entry has 255 for its last byte, or, if it had no payload (an immediate integer or the empty string), what is left is no list at all |
| ZiplistNarrow.InsertNarrow | QedisCore/redisZipList.c:590-678 | the insertion one byte short, from end to end and with any number of entries behind: the list is well formed and holds the new entry, but the last byte of its last entry, which has a payload, has become 255; so it is the list it should be if and only if that byte was 255 before |
| ZiplistNarrow.NarrowExample | QedisCore/redisZipList.c:590-678 | a list of two strings "A", the second with a wide field: after "100" has been put between them the second is the byte 255 |
| Ziplist.Index | QedisCore/redisZipList.c:689-709 | index i from the head and i - n from the tail reach the same entry; anything else gives none; for every int |
| Ziplist.Next | QedisCore/redisZipList.c:717-733 | leads from entry k to entry k + 1, to none behind the last |
| Ziplist.Prev | QedisCore/redisZipList.c:736-752 | leads from entry k to entry k - 1, from the end mark to the last, to none before the first: it undoes Next |
| Ziplist.Get | QedisCore/redisZipList.c:758-775 | gives item k, string or integer |
| Ziplist.Len | QedisCore/redisZipList.c:891-906 | the true number of entries even when the 16-bit counter has saturated; the list stays well formed, and the counter is exact afterwards if it can be |
| Ziplist.Push | QedisCore/redisZipList.c:680-684 | adds the item at the chosen end |
| Ziplist.PushThenGet | QedisCore/redisZipList.c:680-775 | a 64-bit integer that is pushed in decimal at either end is what Index and Get then find there |
| Ziplist.New | QedisCore/redisZipList.c:430-438 | an empty well-formed list |
| Lzf.Compress | QBase/lzf/lzf_c.c:98-294 | a result n > 0 is a stream that expands to the input, whatever the table held; no byte behind outLen + 1 is written; the byte behind outLen changes only when a match is found while the output is full and no literal is open, and then n = 0; n > 0 when outLen >= inLen + inLen/32 + 4 |
| Lzf.Decompress | QBase/lzf/lzf_d.c:55-149 | computes what the stream means, overlapping back references included, or fails with the right errno |
| Lzf.RoundTrip | QBase/lzf/lzf.h:60-67 | compressing and decompressing gives the input back for every input of two bytes or more and any table contents |
| Lzf.ExpandConcat | QBase/lzf/lzf_d.c:64-146 | a stream may be cut between two instructions: the meaning of the whole is that of its parts in turn |
| Lzf.ExpandMonotone | QBase/lzf/lzf_d.c:72-76 | more room for the output does not change what a stream means |
| Lzf.ExpandErrors | QBase/lzf/lzf_d.c:72-118 | the errors tell a bad stream from too little room: EINVAL stays with more room, and with enough of it there is no E2BIG |
| Lzf.CopyBackRepeats | QBase/lzf/lzf_d.c:137-142 | a back reference that overlaps its own output repeats a period of the input |
| Lzf.ExpandRef | QBase/lzf/lzf_c.c:211-224 | the two or three bytes written for a match expand to the matched bytes |
| Lzf.MatchLength | QBase/lzf/lzf_c.c:169-209 | every byte of the match agrees, in the unrolled part and in the loop behind it, and the match ends at the first difference or at the limit |
| Lzf.AddMatch | QBase/lzf/lzf_c.c:166-227 | a found match ends the run, writes a back reference, and leaves a stream for the longer prefix |
| Lzf.AddLiteral | QBase/lzf/lzf_c.c:260-273 | a literal extends the open run, or closes a full one by patching its header |
| Lzf.WritesBehindTheEnd | QBase/lzf/lzf_c.c:142-170 | such a call of Compress: with room for 33 bytes, 32 literals and a match behind them, whatever the table held, the byte behind the room is written and the call gives up |
| QdbFormat.LoadSavedObject | QedisCore/QDB.cc:736-926 | what a saver may write for a string, list, set or hash loads back as the same value and uses up exactly those bytes |
| QdbFormat.StringSurvives | QedisCore/QDB.cc:270-287 | a string comes back unchanged if and only if it is no integer in base 0 of at most 20 characters and 64 bits, or is the decimal rendering of its value |
| QdbFormat.ElementSurvives | QedisCore/QDB.cc:820-848 | an element of a list, set or hash comes back unchanged if and only if it is faithful in the same sense, or has ten bytes or more and was written plainly |
| QdbFormat.PackedIsRewritten | QedisCore/QDB.cc:648-687 | 20 bytes are long enough to be packed and short enough for the integer test: "00000000000000000010" comes back as "8" when packed, and unchanged when not |
| QdbFormat.IntegerSurvives | QedisCore/QDB.cc:316-345 | what SaveString writes for an integer is read back if and only if it is not the most negative one |
| QdbFormat.OctalIsRewritten | QedisCore/QDB.cc:270-287 | a string that does not: "010" comes back as "8" |
| QdbFormat.LoadLengthBytes | QedisCore/QDB.cc:290-314 | a length in any of its three forms loads back, and uses up its bytes |
| QdbFormat.LengthIsShortest | QedisCore/QDB.cc:290-314 | no shorter form holds the length |
| QdbFormat.SavedForms | QedisCore/QDB.cc:270-287 | integers of fewer than ten characters are saved as such, all other strings of fewer than twenty as they are |
| QdbFormat.FormsAre | QedisCore/QDB.cc:290-314 | the bytes of lengths on either side of where their forms change |
| QdbFormat.IntegerFormsAre | QedisCore/QDB.cc:316-345 | the bytes of integers on either side of where theirs change |
| QdbFormat.LoadOdd | QedisCore/QDB.cc:648-728 | what is loaded from bytes that no saver writes: strings that end early, packed bytes that do not expand or expand to less, other special codes |
| QdbFormat.FirstValue | QedisCore/QDB.cc:884-926 | of several values of a key in a hash the first one counts |
| QdbFormat.LoadSavedString | QedisCore/QDB.cc:270-376 | a string in any of its forms loads back as its canonical spelling |
| QdbFormat.LoadSavedElement | QedisCore/QDB.cc:804-818 | an element in any of its forms loads back |
| Qdb.QDBSaver.SaveObject | QedisCore/QDB.cc:166-194 | writes one of the byte sequences allowed for the object |
| Qdb.QDBSaver.SaveString | QedisCore/QDB.cc:270-287 | writes one of the byte sequences allowed for the string |
| Qdb.QDBSaver.SaveLength | QedisCore/QDB.cc:290-314 | writes the 6-, 14- or 32-bit form |
| Qdb.QDBSaver.SaveInteger | QedisCore/QDB.cc:316-345 | writes the 8-, 16- or 32-bit form, or the digits; for the most negative integer only a minus sign |
| Qdb.QDBSaver.SaveLZFString | QedisCore/QDB.cc:348-376 | writes the packed form when compression gains, else nothing |
| Qdb.QDBLoader.LoadObject | QedisCore/QDB.cc:736-801 | loads what the format says, and moves on by what it used |
| Qdb.QDBLoader.LoadStringObject | QedisCore/QDB.cc:736-760 | loads a string object in any of its forms |
| Qdb.QDBLoader.LoadLZFString | QedisCore/QDB.cc:698-728 | loads and decompresses a packed string |
| Qdb.QDBLoader.LoadSpecialStringObject | QedisCore/QDB.cc:648-687 | loads the integer and packed forms |
| Qdb.RestoredDump | QedisCore/QDB.cc:1226-1289 | restoring a dump gives the object back, for every checksum function |
| Qdb.RestoredIff | QedisCore/QDB.cc:1257-1289 | a saved object followed by any bytes is restored if and only if they are ten or more, begin with version 6, and the last eight of the ten are the checksum of all but the last eight bytes of the payload |
| Qdb.WrongDump | QedisCore/QDB.cc:1257-1289 | a dump with any other checksum, with another version and the right checksum, or cut inside its trailer, restores to nothing |
| Qdb.DumpObject | QedisCore/QDB.cc:1226-1255 | the type, a saved form of the object, the version and the checksum of these; it restores to the object when its strings are safe |
| Qdb.RestoreObject | QedisCore/QDB.cc:1257-1289 | computes the object in a dump, or none when the version or the checksum is wrong |
| Integers.RendersBack | QedisCore/QCommon.cc:101-114 | a string equals the rendering of the integer it parses to exactly when it is in canonical decimal form |
| Integers.ParseDecimal | QedisCore/QCommon.h:109-151 | parsing undoes rendering |
| Integers.ParseReads | QedisCore/redisZipList.c:317-327 | what strtoll reads in base 0: white space, a sign or none, and the decimal, octal or hexadecimal digits of any number |
| Integers.Number2Str | QedisCore/QCommon.h:109-151 | writes the decimal rendering; of the most negative integer only the sign, as its negation wraps around |
| Integers.ShortIntegerRange | QedisCore/QDB.cc:273-279 | a spelling short enough for the integer form never exceeds 36 bits, so no 64-bit value is lost |
| Election.OneMaster | QSentinel/zookeeper/ZookeeperConn.cc:401-517 | election safety: in every run, two clients that have both been told to be master, and whose nodes both exist, are the same |
| Election.MasterIsLeast | QSentinel/zookeeper/ZookeeperConn.cc:441-457 | whoever was told so owns the least of all nodes while its node exists |
| Election.FirstReigns | QSentinel/zookeeper/ZookeeperConn.cc:441-517 | a run in which the first client comes to be master |
| Election.NoHandlerFails | QSentinel/zookeeper/ZookeeperConn.cc:330-354 | in every run no reply finds the wrong request and no assert of a handler is violated |
| Election.NoLostTakeover | QSentinel/zookeeper/ZookeeperConn.cc:447-457 | a client with a session that is not master has a packet of the election under way, or watches the closest node below its own, which exists |
| Election.Settled | QSentinel/zookeeper/ZookeeperConn.cc:636-657 | a client with nothing under way is master exactly when its node is the least, and otherwise watches the node right below |
| Election.DeleteLowers | QSentinel/zookeeper/ZookeeperConn.cc:636-657 | news of a deletion takes exactly the highest lower sibling away, and the next one is followed |
| Election.RelistedAsLeast | QSentinel/zookeeper/ZookeeperConn.cc:640-646 | a client that lists its siblings again because none was left below it finds itself least and goes on to become master |
| Election.TakeoverEnds | QSentinel/zookeeper/ZookeeperConn.cc:330-556 | while no client comes or goes only a bounded number of election packets can be moved, whatever the order |
| Election.StepKeeps | QSentinel/zookeeper/ZookeeperConn.cc:330-657 | every step of every client, of the server, and of a session that ends keeps the invariant |
| Election.FifoServe | QSentinel/zookeeper/ZookeeperConn.cc:339-354 | replies stay matched to pending requests in order |
| ElectionCalls.ToldIs | QSentinel/zookeeper/ZookeeperConn.cc:469-556 | what a client is told, in every run: on the news that the sibling it follows exists, that its master is the least of its siblings, which is below its own node and not above any node that exists; on the data, that it is master of its siblings above its own node; and nothing at any other step |
| ElectionCalls.SlavesAre | QSentinel/zookeeper/ZookeeperConn.cc:401-500 | the slaves that a new master is told of are exactly the nodes above its own that existed when the server answered its last list |
| ZookeeperConn.ZookeeperConn.ProcessResponse | QSentinel/zookeeper/ZookeeperConn.cc:330-556 | does to the fields and the socket what the transition function says, and reports failure when it says so |
| ZookeeperConn.ZookeeperConn.NodeDeleted | QSentinel/zookeeper/ZookeeperConn.cc:636-657 | the same for _OnNodeDelete |
| ZookeeperConn.ZookeeperConn.SendPacket | QSentinel/zookeeper/ZookeeperConn.cc:615-634 | appends the request to what is sent and to what is pending |
| Future.ExactlyOneOutcome | cluster/ananas/future/Future.h:491-501 | in every interleaving the callbacks and the timeout callback never both run and none runs twice; once both sides have run their course either all callbacks have run in order on the right values, or the timeout callback has run once |
| Future.RunsWhereItShould | cluster/ananas/future/Future.h:313-345 | a callback with a scheduler runs from its queue, and no other does |
| Future.NoDeadlock | cluster/ananas/future/Future.h:77-154 | while a side is not through, or a lock is held, some thread can go on |
| Future.RunsEnd | cluster/ananas/future/Future.h:308-346 | a run has at most 7n + 11 steps |
| Future.StepKeeps | cluster/ananas/future/Future.h:126-141 | every critical section of either thread keeps the invariant |
| Future.State.SetValue | cluster/ananas/future/Future.h:126-141 | only a root that is not fresh refuses; otherwise the value is set and the state done |
| Future.State.TimeOut | cluster/ananas/future/Future.h:503-521 | only a fresh state times out |
| Intset.Intset.Add | QedisCore/redisIntset.c:208-235 | the set gains the value, success says whether it is new, the encoding is the least that holds old and new, slots stay ascending |
| Intset.Intset.Remove | QedisCore/redisIntset.c:238-255 | the set loses the value, success says whether it was there |
| Intset.Intset.Find | QedisCore/redisIntset.c:258-261 | membership |
| Intset.Intset.Search | QedisCore/redisIntset.c:119-158 | the position of the value, or where it belongs |
| Intset.Intset.UpgradeAndAdd | QedisCore/redisIntset.c:161-184 | all values are kept in wider slots of the same bytes and the new one stands at the right end |
| Intset.UpgradeStep | QedisCore/redisIntset.c:171-175 | moving slot k overwrites no slot that is still to be read, and none moved before |
| Intset.UpgradeEnd | QedisCore/redisIntset.c:177-183 | the slot left free gets the value, the others stay |
| Intset.LeastEncoding | QedisCore/redisIntset.c:49-56 | the encoding chosen is the least that holds the value |
| Intset.MovedSlot | QedisCore/redisIntset.c:186-205 | memmove by whole slots moves values |
| Intset.InsertedAscends | QedisCore/redisIntset.c:208-235 | inserting where the search says keeps the order and adds one element |
| Intset.Intset.Member | QedisCore/redisIntset.c:276-282 | position k gives the k-th value in ascending order |
| QSortedSet.QSortedSet.AddMember | QedisCore/QSortedSet.cc:14-20 | adds the pair to both indexes, which still agree |
| QSortedSet.QSortedSet.UpdateMember | QedisCore/QSortedSet.cc:22-38 | the member moves to its new score in both indexes, which still agree; the new score is the result |
| QSortedSet.QSortedSet.DelMember | QedisCore/QSortedSet.cc:80-100 | takes the member out of both indexes, which still agree; success says whether it was there |
| QSortedSet.QSortedSet.Rank | QedisCore/QSortedSet.cc:40-68 | the number of members before the given one, by score and then by name; -1 when it is no member |
| QSortedSet.QSortedSet.RevRank | QedisCore/QSortedSet.cc:71-78 | the number of members after the given one |
| QSortedSet.QSortedSet.GetMemberByRank | QedisCore/QSortedSet.cc:102-135 | the pair that stands at the rank in ascending order; the last one when the rank is too great |
| QSortedSet.QSortedSet.RangeByRank | QedisCore/QSortedSet.cc:143-157 | the pairs at the ranks from start to end, both counted from the end when negative |
| QSortedSet.QSortedSet.RangeByScore | QedisCore/QSortedSet.cc:160-178 | the pairs with scores in the range |
| QSortedSet.RankInverse | QedisCore/QSortedSet.cc:102-135 | Rank and GetMemberByRank undo each other |
| QSortedSet.RankCounts | QedisCore/QSortedSet.cc:49-65 | the member at a rank of the order has exactly that many members before it |
| QSortedSet.OrderedIs | QedisCore/QSortedSet.cc:108-130 | going through the scores, and the names under each, gives strictly ascending pairs, all those of the score index |
| QSortedSet.BeforeIs | QedisCore/QSortedSet.cc:108-130 | names compare at the first byte where they differ, unsigned; a proper prefix comes first |
| QSortedSet.OrderedCount | QedisCore/QSortedSet.cc:14-20 | when the indexes agree the order has every member once, with its score |
| QSortedSet.WithScoresIs | QedisCore/QSortedSet.cc:160-178 | the result of RangeByScore is ascending and has exactly the pairs of the range |
| QSortedSet.AdjustedSlice | QedisCore/QCommon.h:182-195 | the adjusted ranks bound a slice of the order |
| AsyncBuffer.AsyncBuffer.Write | QBase/AsyncBuffer.cc:33-62 | everything written goes to the end of the queue; what the consumer has been shown stays at its front |
| AsyncBuffer.AsyncBuffer.ProcessBuffer | QBase/AsyncBuffer.cc:64-96 | shows the front of the queue and changes nothing in it, and shows something whenever the queue is not empty and the lock is free |
| AsyncBuffer.AsyncBuffer.Skip | QBase/AsyncBuffer.cc:98-110 | takes the given number of bytes from the front; skipped bytes and queue together are all that was written |
| Buffer.CircularBuffer.PushDataAt | QBase/Buffer.h:210-246 | all or nothing; the bytes stand on the ring where they belong, split at its end if need be, and the readable ones stay |
| Buffer.CircularBuffer.PushData | QBase/Buffer.h:248-256 | appends to the contents, or refuses when they do not fit |
| Buffer.CircularBuffer.GetDatum | QBase/Buffer.h:120-167 | the readable bytes from an offset on in at most two pieces |
| Buffer.CircularBuffer.PeekDataAt | QBase/Buffer.h:258-293 | the next bytes from an offset on; all or nothing |
| Buffer.CircularBuffer.AdjustReadPtr | QBase/Buffer.h:318-325 | drops bytes from the front of the contents |
| Buffer.RoundUp2Power | QBase/Buffer.h:34-43 | the least power of two not below the size |
| Buffer.MaskIsRemainder | QBase/Buffer.h:83 | for a power of two the bitwise and with size - 1 is the remainder |
| Buffer.OnlyPowersMask | QBase/Buffer.h:83 | for no other size is it |
| Buffer.MaskWraps | QBase/Buffer.h:83 | positions masked so go around the ring, differences below zero included, which are 64-bit numbers in the source |
| Buffer.Pieces | QBase/Buffer.h:133-166 | the pieces put together are the stretch, limited |
| UnboundedBuffer.UnboundedBuffer.AssureSpace | QBase/UnboundedBuffer.cc:67-94 | afterwards the data fits, and the contents are the same |
| UnboundedBuffer.UnboundedBuffer.PushDataAt | QBase/UnboundedBuffer.cc:26-40 | writes behind the contents and leaves them |
| UnboundedBuffer.UnboundedBuffer.PeekDataAt | QBase/UnboundedBuffer.cc:50-64 | as many bytes as there are, up to the size asked for |
| UnboundedBuffer.UnboundedBuffer.Swap | QBase/UnboundedBuffer.cc:129-134 | exchanges the contents |
| QGlobRegex.QGlobRegex.Match | QedisCore/QGlobRegex.cc:46-87 | for every pattern and text: true exactly when the text falls into pieces that fit the tokens of the pattern one by one, or when the pattern overruns the text: a bracket that takes the NUL behind it is reached at its end, brackets and question marks go on behind it, and stars end the pattern |
| QGlobRegex.NoOverruns | QedisCore/QGlobRegex.cc:209-243 | a pattern overruns no text when none of its brackets takes a NUL; then the matcher is right |
| QGlobRegex.PlainKeepsOff | QedisCore/QGlobRegex.cc:140-245 | so it is for all patterns of bytes from 1 to 127 without a caret |
| QGlobRegex.NegatedOverruns | QedisCore/QGlobRegex.cc:209-243 | the matcher is wrong about "[^a]*" and the empty text |
| QGlobRegex.AcceptsIs | QedisCore/QGlobRegex.cc:89-116 | backtracking misses no way to split the text, and accepts nothing else than that and what overruns it |
| QGlobRegex.QGlobRegex.TryMatch | QedisCore/QGlobRegex.cc:46-87 | accepts what the rest of the pattern accepts from the offset on; it terminates |
| QGlobRegex.QGlobRegex.ProcessStar | QedisCore/QGlobRegex.cc:89-116 | tries the rest of the pattern at every byte that is left, and accepts if one of them does |
| QGlobRegex.QGlobRegex.ProcessBracket | QedisCore/QGlobRegex.cc:140-245 | takes the next byte exactly when the bracket is closed and the byte is a member, or is none when there is a caret; range ends in either order, as signed chars |
| QGlobRegex.QGlobRegex.Collect | QedisCore/QGlobRegex.cc:163-194 | collects the members up to the closing bracket |
| QGlobRegex.QGlobRegex.ProcessQuestion | QedisCore/QGlobRegex.cc:118-137 | a run of question marks takes as many bytes |
| QGlobRegex.MatchesStar | QedisCore/QGlobRegex.cc:89-116 | a star takes any number of bytes |
| QGlobRegex.MatchesOne | QedisCore/QGlobRegex.cc:67-81 | any other token takes one byte that fits it |
| QGlobRegex.BracketTakes | QedisCore/QGlobRegex.cc:140-245 | a bracket of bytes and ranges takes exactly the bytes that are among them or between the ends of one, as signed chars and in either order; with a caret exactly the others |
| QGlobRegex.WildcardsTake | QedisCore/QGlobRegex.cc:89-137 | a question mark matches one byte, a star any number |
| QGlobRegex.EscapedMatches | QedisCore/QGlobRegex.cc:46-87 | a text without stars and question marks, with a backslash before each opening bracket, is matched by itself and nothing else |
| QProtoParser.RequestResumes | QedisCore/QProtoParser.cc:30-139 | parsing can stop and go on with more bytes as if all had been there at once, for any bytes at all, after a wait that has left the pointer inside the buffer and has not stepped over an asterisk |
| RequestGrammar.AcceptedIff | QedisCore/QProtoParser.cc:9-14 | the parser accepts exactly the requests of the grammar in its comment, with their strings, and uses up exactly their bytes; for any four bytes or more |
| RequestGrammar.Refused | QedisCore/QProtoParser.cc:30-139 | what is an error: no asterisk, a bad count or one below -1, and a bad string where one is due, be it without a dollar sign, with a bad length, or without a line end behind it |
| QAOF.FedInPieces | QedisCore/QProtoParser.cc:30-139 | a command fed in pieces parses as it does whole if and only if every piece before its end ends outside its headers, or within one where that does no harm: within two bytes of the request header, or anywhere in a string header but between the third digit and the line end |
| QAOF.CommandCut | QedisCore/QProtoParser.cc:30-139 | a command cut anywhere is waited for; which cuts can be taken up again, and what happens at the others: the asterisk is lost, or the pointer runs two bytes behind the buffer |
| QAOF.BehindHeader | QedisCore/QProtoParser.cc:59-104 | behind the header of a string, up to its end, a command can be cut anywhere |
| QAOF.NumberCut | QedisCore/QCommon.cc:338-382 | a number cut in the middle: fewer than three bytes are waited for, three digits or more are taken for the whole number |
| QAOF.NoAsterisk | QedisCore/QProtoParser.cc:46-57 | once the asterisk is lost no bytes that follow make a request |
| QProtoParser.IntMore | QedisCore/QCommon.cc:338-382 | a number that is complete does not depend on what follows |
| QProtoParser.QProtoParser.Parse | QedisCore/QProtoParser.cc:30-44 | does to the fields what the parsing function says, with its result and its movement of the pointer |
| QProtoParser.QProtoParser.ParseList | QedisCore/QProtoParser.cc:59-80 | the same for the strings of a request |
| QProtoParser.QProtoParser.ParseString | QedisCore/QProtoParser.cc:82-104 | the same for one string |
| QProtoParser.QProtoParser.Reset | QedisCore/QProtoParser.cc:19-28 | back to the start; at most three old strings are kept |
| QAOF.CommandParses | QedisCore/QAOF.h:124-132 | a printed command of fewer than 2^31 bytes parses to its parameters from any state between requests, and uses up exactly its bytes |
| QAOF.HeaderParses | QedisCore/QAOF.h:105-111 | a printed number below 2^31 parses back |
| QAOF.CommandsLoad | QedisCore/QAOF.cc:398-414 | a file of printed commands, of fewer than 2^31 bytes, loads as those commands |
| QAOF.CutFileLoads | QedisCore/QAOF.cc:398-414 | a file that ends within a command is refused, wherever it is cut |
| QAOF.BadTailLoads | QedisCore/QAOF.cc:398-414 | so is one in which commands are followed by anything that is no request |
| QAOF.SaveAndLoad | QedisCore/QAOF.cc:377-417 | saving and loading, with fewer than 2^31 bytes, gives the commands back if and only if there are any |
| QAOF.SaveCommand | QedisCore/QAOF.h:124-132 | appends the printed command |
| QAOF.WriteBulkString | QedisCore/QAOF.h:88-97 | appends the printed string |
| QAOF.Load | QedisCore/QAOF.cc:377-417 | the commands in a file; refuses an empty, wrong or incomplete one |
| QMulti.WatchGuardsExec | QedisCore/QClient.cc:368-402 | WATCH safety: a key changed between WATCH and EXEC by another client, or by a timer while the client is not the current one, keeps EXEC from running any queued command, unless the client ended its watching |
| QMulti.ExecRuns | QedisCore/QClient.cc:231-402 | what EXEC does in a run: it refuses if and only if a command has been refused since MULTI; otherwise, unless the client is dirty, it runs exactly what the client has queued since MULTI, in that order; afterwards the client is out of the transaction, clean, watches nothing and has no queue |
| QMulti.NotAborted | QedisCore/QClient.cc:346-396 | EXEC is not aborted when nothing the client was watching, and no whole database, has been changed since it watched nothing |
| QMulti.WatchesIff | QedisCore/QMulti.cc:125-148 | what a client watches in a run, exactly: the keys of its WATCH commands outside transactions since it was connected, or last gave UNWATCH or ended a transaction |
| QMulti.DatabaseDirties | QedisCore/QMulti.cc:91-121 | a change of a whole database makes only those dirty who have at some time watched a key of it |
| QMulti.NoMultiNoExec | QedisCore/QMulti.cc:162-193 | without MULTI, since the client was connected or its last transaction ended, EXEC does nothing |
| QMulti.TimerDirties | QedisCore/QMulti.cc:47-89 | a timer that changes a watched key makes a clean client dirty if and only if that client is not the current one |
| QMulti.CurrentIs | QedisCore/QClient.cc:141-183 | between packets a client is the current one if and only if the last packet of all was of that client and held no whole command, and no connection has been made since |
| QMulti.TimerMissed | QedisCore/QClient.cc:141-183 | a run in which WATCH does not guard: EXEC arrives in two parts, the watched key expires between them, and the queue is run |
| QMulti.StepKeeps | QedisCore/QMulti.cc:15-89 | every command keeps every clean client in the list of every key it watches |
| QMulti.SpreadKeeps | QedisCore/QMulti.cc:47-89 | a change makes clients dirty, never clean, changes nothing else of them, and misses no client that watches a key it hits, but for the current one |
| QMulti.LeftInList | QedisCore/QMulti.cc:62-88 | after the change of a key only the current client is left in its list, and clients that have stopped watching it and are not dirty |
| QMulti.ExactlyDirty | QedisCore/QClient.cc:346-366 | who is made dirty by a change, exactly |
| QMulti.AbortedForNothing | QedisCore/QMulti.cc:91-121 | lists are cleaned lazily: a client that has stopped watching can still have its next transaction aborted |
| QMulti.QMulti.NotifyDirty | QedisCore/QMulti.cc:47-89 | the walk with erasures leaves exactly the watchers that stay and makes exactly the others dirty |
| QMulti.QMulti.NotifyDirtyAll | QedisCore/QMulti.cc:91-121 | makes everyone in the lists of a database dirty |
| QMulti.QMulti.Watch | QedisCore/QMulti.cc:15-22 | registers the client once for a key |
| Timer.TimerManager.UpdateTimers | QBase/Timer.cc:296-338 | drains every tick up to now; every timer armed or pooled before is armed or pooled after; every expected call is made if its tick has come, and still expected if not; timers on higher levels stay in place and are not called before their turns; a call is early if and only if the one before it was of the same timer, which went on and was due again exactly 256 ticks after the tick; with all intervals below 256 none is |
| Timer.TimerManager.ScheduleAt | QBase/Timer.cc:392-399 | a call is expected exactly when the timer is due, or at once if it is overdue: within 0x4000 ms, on the first two levels, and at any distance for a timer that is alone; the calls expected of others on the first two levels stay |
| Timer.CalledWhenDue | QBase/Timer.cc:296-399 | a timer scheduled at most 0x4000 ms ahead, or as the only one at any distance, is called exactly when it is due |
| Timer.LateTimer | QBase/Timer.cc:316-322 | further ahead it can be called too late: two timers due at 0x4000 ms, scheduled at 0 and at 1; the clock has passed that time, the second has been called and the first has not |
| Timer.TimerManager.CascadeLevels | QBase/Timer.cc:316-322 | at a multiple of 256 a timer of a higher level is put in again if and only if the clock points at its bucket and the buckets it points at below are empty; no expected call is lost by that |
| Timer.TimerManager.OneTick | QBase/Timer.cc:313-336 | one turn of the loop moves a timer of a higher level only so, and calls none that stays there |
| Timer.PutOnTurn | QBase/Timer.cc:341-370 | a timer put in before its time is drained at that time, or on a higher level has its turn still to come, and the clock points at its bucket then |
| Timer.EarlyIffBack | QBase/Timer.cc:327-335 | some call is early if and only if a timer that goes on is due again exactly 256 ticks after the tick being drained |
| Timer.FiresEarly | QBase/Timer.cc:327-335 | such a run: a timer due at 0 with interval 256 is called a second time while the clock stands at 0 |
| Timer.InBucketAgain | QBase/Timer.cc:341-370 | a time falls into the bucket just being drained if and only if it is 256 ticks after that tick |
| Timer.TimerManager.AddTimer | QBase/Timer.cc:341-382 | the timer is armed on the bucket of its time, and all lists are still well linked |
| Timer.TimerManager.KillTimer | QBase/Timer.cc:402-419 | the timer is on no list, and all others stay |
| Timer.TimerManager.Cascade | QBase/Timer.cc:421-449 | the timers of one bucket are put in again where they belong now, no other moves, none is lost |
| Timer.TimerManager.Fire | QBase/Timer.cc:329-334 | one call is made and logged; the timer is armed again when it goes on and pooled when not; it comes back to the bucket being drained if and only if it is due again 256 ticks on |
| Timer.Timer.OnTimer | QBase/Timer.cc:193-208 | logs the call; says whether the timer goes on, and moves its time by the interval if so |
| Timer.TimerManager.Drain | QBase/Timer.cc:327-335 | empties the bucket and terminates; what was in it is called, at this tick |
| Timer.OnAList | QBase/Timer.cc:372-382 | every armed timer is on a list: a head leads to it |
| Timer.OnNoOther | QBase/Timer.cc:372-382 | and on no other: a head leads only to timers of its own bucket |
| Timer.NotEarly | QBase/Timer.cc:341-370 | a timer put on the first level is not before its time when its bucket is drained |
| Timer.PushFront | QBase/Timer.cc:372-382 | the pointers of an insertion keep all lists well linked |
| Timer.Unlink | QBase/Timer.cc:402-419 | the pointers of a removal keep all lists well linked |
| Timer.TakeOff | QBase/Timer.cc:427-434 | a list taken off its head leaves the others well linked |

## Left out

- ziplistFind, ziplistCompare and ziplistDeleteRange: they combine the cursor operations that are modelled.
- Scores of sorted sets as floating-point numbers: they are integers in the model, so that rounding of sums, infinities and NaN, which has no place in an order, are left out.
- Whole snapshot files, key expiry, zip-encoded and sorted-set objects in them: the loader model treats other type bytes as invalid.
- The loops of _LoadList, _LoadSet and _LoadHash share one method, as they differ only in the container they fill.
- A packed string whose bytes end early is an exception in the model; the source decompresses from a null pointer.
- Resumed ZooKeeper sessions, the handshake, and the deletion of the parent node: they depend on files and on other programs.
- A promise dropped before it is set, futures returned by callbacks, WhenAll and WhenAny: other protocols than the chain.
- Exceptions in callbacks of futures travel inside the value that a callback makes.
- CircularBuffer.GetSpace and the stream operators: the queue does not use them. A ring of size 0: its mask is all ones.
- ZiplistNarrow.InsertNarrow: when the last entry has no payload only what the resize and the memmove leave is stated, by `ZiplistNarrow.MoveNarrow`; the rest of the call then walks over bytes that are no entry.
- Connections are set up on another thread, which resets s_current too: a step between commands in the model.
- Interleavings inside one call of Write or ProcessBuffer.
- Requests and buffers of 2^31 bytes or more, and string lengths within two of 2^31: the casts and sums of the parser. Inline commands.
- The zero bytes behind the last command of a mapped file, cut off before it is loaded: a printed command ends in a line feed.
- Commands of clients other than those of transactions: what matters of them is which keys they change.
- AsyncAddTimer, which only queues timers for AddTimer, and the destructor. How late a timer of the three upper levels can be when others keep its level from being cascaded.
- Sockets, threads, logging, files and the clock.
