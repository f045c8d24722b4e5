# RedisPool: a verified model

RedisPool is a proxy that shares a few redis connections among many clients. This project models, in Dafny, the parts
of it that compute: the red-black tree and its traversal, the hash table, `parseInt`, the growable buffers, the resumable
parser of the redis protocol in both directions, the drain loop behind each socket, the pool of connections with the two
tables that say who uses which, and the table-driven CRC-32. What a socket or malloc gives is a parameter everywhere.

C code that changes things in place is a method on a class or an array here, and each such method is proved against a
function of the old state; the theorems are about those functions. Parsers and callbacks are also functions on values
(`Resp`, `Replies`, `Lease`), because theorems about whole runs are about them; `ClientParser`, `RedisParser` and
`LeaseServer` are the loops, shown to compute the same.

| part of the source | modules |
|---|---|
| `src/map/tree.c`, `src/map/tree.h`, `src/rstack.c` | `TreeShape`, `TreeHeap`, `TreeRepair`, `TreeUnlink`, `TreeMap`, `RedBlackTree`, `RStack`, `TreeTraversal`, `TreeAsWritten` |
| `src/map/hash.c` | `HashShape`, `HashSteps`, `HashTable`, `HashRun`, `HashAsWritten`, `HashStale` |
| `src/types.c` | `Decimal`, `Buffers`, `BuffersAsWritten` |
| `src/proto/multibulk.c`, client side | `Resp`, `RespMeaning`, `RespRefusal`, `RespLimit`, `ClientParser`, `RespAsWritten`, `RespEdge` |
| `src/proto/multibulk.c`, redis side | `Replies`, `ReplyRefusal`, `RedisParser`, `ReplyRun`, `RepliesAsWritten`, `ReplyEdge` |
| `src/net/client.c` | `Drain`, `Pipeline`, `BuffersAsWritten` |
| `src/net/server.c`, `src/net/pool.c` | `Lease`, `LeaseMeaning`, `LeaseServer`, `LeaseReplies`, `Proxy`, `LeaseAsWritten` |
| `src/crc32.c` | `Crc32` |

## What the text gets wrong

The main model does what the code is evidently for. Wherever its text departs from that, the model carries a comment that
starts with `repaired:` and names the lines, and an `AsWritten` module (or a lemma named below) takes the text at its word:
it says exactly when the text is right, and gives an input for which it is not. A few slips concern what a run may do rather
than what a step computes; the model keeps those, with their lines in a comment, and the theorems about runs say what they cost.

| lines | what fails | right exactly if |
|---|---|---|
| `src/map/tree.c:82`, `:108` | a rotation hangs the son on the wrong side | the rotated node is the root or a right child (`TreeAsWritten.RotationAsWritten`) |
| `src/map/tree.c:158` | no new node knows its parent, so nothing is repaired after an insertion | the new node's parent is not red (`TreeAsWritten.InsertAsWritten`) |
| `src/map/tree.c:267`, and `:158` again | a removal loses other keys: {1, 2, 3} without 1 is empty | the key is at the root, and the root has at most one child (`TreeAsWritten.RemoveAsWritten`, `RemoveLosesAll`) |
| `src/map/hash.c:137` | a table of 16 slots with more than 8 keys is halved | there are not 16 slots with more than 8 keys (`HashAsWritten.ShrinkGuard`) |
| `src/map/hash.c:141` | shrinking moves the slots up by almost 2^32 places, not down | never (`HashAsWritten.NeverMovedRight`) |
| `src/map/hash.c:183` | shrinking loses the first live key | never, for a table with keys (`HashAsWritten.ShrinkLosesFirst`, `FewShrinks`) |
| `src/map/hash.c:176` | the next new key is stored over a live one | never, for a table with keys and room (`HashAsWritten.AvalidNamesLive`) |
| `src/map/hash.c:132-209` | `undef` still leads into the old slots; new keys, or new keys after growing, are stored over live ones | `undef` is the end mark, which it never is after a removal (`HashStale.StaleUndef`, `RemovalIsStale`, `StaleFew`) |
| `src/map/hash.c:203-204` | growing loses every key | never (`HashAsWritten.GrowLosesAll`) |
| `src/map/hash.c:268` | the head of an emptied bucket names a freed slot | the entry was not alone in its bucket (`HashAsWritten.RemoveAsWritten`, `RemoveThenPutLoops`) |
| `src/types.c:284`, `:297` | `parseInt` takes "-0" with anything behind it, and refuses "10" | see `Decimal.ParseAsWritten` |
| `src/types.c:370-375`, `:421-425` | a buffer or an array grows too little | see `BuffersAsWritten.GrowthIsEnough`, `ArrayGrowthIsEnough` |
| `src/types.c:381` | `used` counts an append twice | the append fits without growing (`BuffersAsWritten.UsedIsWritten`) |
| `src/types.c:175` | dropping some buffers of an array drops all | none would be left (`BuffersAsWritten.SRangeDropsAll`) |
| `src/types.c:180` | the reading position goes back to the front, before it is used | all that was read is dropped (`BuffersAsWritten.RewindIsRight`, `RewindStops`) |
| `src/types.c:409-446` | the hand-over of complete buffers loses the pending one, or runs out of bounds | nothing is pending, or only the pending one is there (`BuffersAsWritten.HandOverKeeps`) |
| `src/net/client.c:191-206` | bytes of a long buffer are dropped | no buffer has more than 16384 unread bytes (`BuffersAsWritten.SendingKeeps`) |
| `src/net/server.c:558`, `:601` | queued buffers are freed | at most 60 slots are in use, sent ones included, or all have been sent (`BuffersAsWritten.ShrinkKeeps`) |
| `src/proto/multibulk.c:68`, `:229` | the beginning of a command is called an error | the read does not end inside a command just before a '$' line, or on the '\r' of a header line (`RespEdge.FailsExactlyAtEdges`; `ReadsFailExactly` for any sequence of reads) |
| `src/proto/multibulk.c:191` | a reply line cut before its '\n' is taken, and the '\n' becomes a reply of its own | the line is not cut there (`RepliesAsWritten.RightUnlessCut`, `CutStatus`, `CutHeader`, `StrayLf`) |
| `src/proto/multibulk.c:68`, `:86-94`, `:229` in a reply | a cut array is an error; the CRLF of an empty bulk string becomes a reply of its own | the read does not end between elements or inside a header, and the element is not empty (`RepliesAsWritten.ElementRight`, `CutArray`, `StrayCrlf`); whole calls, on bytes: `ReplyEdge.TextRightExactly`, `ReadTextExactly` |
| `src/proto/multibulk.c:219`, `:143` (kept in the model) | the size limit depends on how input is cut into reads | see `Resp.ChunkIndependence`, `TooBigIsLongLine`, `RespLimit.LongArgumentCut`; for replies `ReplyRun.ReadFailsExactly`, `LongStatus` |
| `src/net/server.c:389`, `:449` (kept in the model) | errno is looked at after a recv that succeeded, which does not reset it: the bytes are received and not looked at until the next read | errno was not left at EAGAIN by an earlier call, or the bytes complete nothing (`Pipeline.HandedOverExactly`, `StaleReadWaits`; `ReplyRun.CountedUnlessStale`, `LeaseReplies.ReturnedExactly`) |
| `src/net/client.c:125` (kept in the model) | a reply or command that does not fit into 2^30 bytes of buffer ends the connection | see `ReplyRun.ReadFailsExactly`, `Pipeline.After` |
| `src/net/pool.c:178-188`, `:219-233` | the counters are never counted back | never, when a connection is returned or dropped (`LeaseAsWritten.PutNeverRight`, `DelNeverRight`); `Drift` and `NextLoan` say how far they drift and when lending stops |
| `src/net/pool.c:225-230` | `delRedis` makes a leased connection the head of the idle list | the connection is the head, or its old successor is (`LeaseAsWritten.DelUnlinks`, `DelBringsBackLeased`) |
| `src/net/server.c:499` | a client that has just become blocked is not entered | it is not blocked, or was so before (`LeaseAsWritten.EnteredIfNotBlocked`) |
| `src/net/server.c:474-491` | after an error, a connection with replies outstanding goes back or keeps its entries | the client was not blocked (`LeaseAsWritten.RejectedIfNotBlocked`) |
| `src/net/server.c:422-424` | the entry of another connection goes | the client is not blocked on another one (`LeaseAsWritten.AnsweredIfNotBlocked`) |
| `src/net/server.c:376-379`, `:543-551` | the client's entry stays, and the client is not told | there is none (`LeaseAsWritten.DropIfNoEntry`); it is never told (`ClientIsNotTold`) |
| `src/net/server.c:437-447`, `:811-831` | other connections of a client that ends stay leased | it has no others (`LeaseAsWritten.FreedIfOnlyLease`) |
| `src/net/server.c:464` (kept in the model) | a read that completes no command leases a connection for good | the read completes a command (`LeaseReplies.LeaksIffNothingAsked`, `LeaksForGood`) |

Three promises hold with a condition of their own. `activeNum + avalidNum` never exceeds `maxNum` exactly if the pool does
not start with more connections than that (`Lease.NeverAboveMaxNum`). A client's commands keep their order on each
connection, but a client that is not in a blocking command gets another connection with every read, and nothing orders
these among each other; only as long as it stays on one is the proxy order-preserving as a whole (`Pipeline.OneConnection`).
A protocol error does mean that nothing can follow with which the client's bytes are commands; the converse holds exactly if
the parser is not waiting for the rest of something hopeless, as behind "*x" (`RespRefusal.ErrorUnlessDoomed`, `NoNumber`).

## Model

| member | source | states |
|---|---|---|
| `RedBlackTree.RbTree.constructor` | src/map/tree.c:3-18 | a new tree is a valid empty map |
| `RedBlackTree.RbTree.Put` | src/map/tree.c:123-169 | the red-black invariant with all parent links is kept and the map is updated at the key; it fails, changing nothing, exactly if the tree is full or a node is needed and cannot be had |
| `RedBlackTree.RbTree.SearchPlace` | src/map/tree.c:132-151 | the descent ends at the node with the key, or at the only place where the key can go; 2^depth <= (total + 1)^2 |
| `RedBlackTree.RbTree.FixAfterInsert` | src/map/tree.c:171-224 | from a tree whose only fault is one red node below a red one, a red-black tree with the same entries and nodes |
| `RedBlackTree.RbTree.Remove` | src/map/tree.c:226-289 | the invariant is kept, the key and nothing else leaves the map, its value is returned, total drops by one |
| `RedBlackTree.RbTree.SwapWithSuccessor` | src/map/tree.c:240-247 | what must remain stays the same when a node with two children trades entries with its successor, and the node to be taken out then has no left child |
| `RedBlackTree.RbTree.FixAfterRemove` | src/map/tree.c:296-366 | from a tree that lacks one black node at one place, a red-black tree with the same entries and nodes |
| `RedBlackTree.RbTree.LeftRotate` | src/map/tree.c:65-89 | does to memory what `Rotated` says, for which see `TreeHeap.RepRotate` |
| `RedBlackTree.RbTree.RightRotate` | src/map/tree.c:91-115 | the same, mirrored |
| `RedBlackTree.RbTree.GetTreeNode` | src/map/tree.c:432-450 | finds the node exactly if the map has the key, at a depth with 2^depth <= (total + 1)^2 |
| `RedBlackTree.RbTree.Get` | src/map/tree.c:117-121 | the map's value |
| `TreeHeap.RepRotate` | src/map/tree.c:65-115 | wherever a tree hangs in memory, rotating a node gives the rotated tree, every link and parent field right, and no node touched outside |
| `TreeShape.RotateSame` | src/map/tree.c:65-115 | rotations keep the sorted contents and the set of nodes |
| `TreeShape.InsertRecolour` | src/map/tree.c:185-189 | red uncle: the fault moves up two levels |
| `TreeShape.InsertOuter` | src/map/tree.c:198-200 | black uncle: one rotation about the grandparent ends the fault |
| `TreeRepair.RemoveRedSiblingMem` | src/map/tree.c:302-309 | red sibling: two paints and a rotation give a black one and keep the rest |
| `TreeRepair.RemoveOuterNephewMem` | src/map/tree.c:326-334 | far nephew red: three paints and a rotation end the shortage |
| `TreeUnlink.Unlink` | src/map/tree.c:270-280 | wherever the repair has moved a dead leaf, clearing its parent's link takes out that leaf only |
| `TreeMap.HeightBound` | src/map/tree.c:135-151 | in every red-black tree 2^height <= (size + 1)^2 |
| `TreeTraversal.ForEach` | src/map/tree.h:122-149 | visits every entry exactly once in ascending key order, terminates, and no push on its stack of total places ever fails |
| `TreeTraversal.GoLeft` | src/map/tree.h:133-137 | before each push the stack is shorter than the number of entries, because what is stacked is still to be visited |
| `RStack.Stack.Push` | src/rstack.c:30-39 | on top, or refused and nothing changed exactly when full |
| `RStack.Stack.Pop` | src/rstack.c:41-48 | the last one pushed, or none |
| `TreeAsWritten.RotationAsWritten` | src/map/tree.c:82-115 | the text's rotation is the right one exactly if the node is the root or a right child |
| `TreeAsWritten.InsertAsWritten` | src/map/tree.c:153-224 | the text stores the entry, and keeps the colours right exactly if the place is not below a red node |
| `TreeAsWritten.RemoveAsWritten` | src/map/tree.c:226-289 | the text removes just the key exactly if it is at a root with at most one child |
| `TreeAsWritten.RemoveLosesAll` | src/map/tree.c:226-289 | putting 2, 1 and 3 and removing 1 leaves the empty tree |
| `HashShape.OffsetIsBucket` | src/map/hash.c:31-42 | for every power of two `max`, the offset that getHashKey computes with `\|` is the bucket `h % max`, counted from the start of the index area |
| `HashShape.KeyEqual` | src/map/hash.c:6-29 | two keys are equal exactly if both the number and the string are, no string being equal only to no string |
| `HashShape.NormIs` | src/map/hash.c:31-39 | looking a key up keeps its string; it changes the number only of a key with number 0 and a non-empty string, to the hash code cut to 32 bits and extended with its sign |
| `HashShape.NormSame` | src/map/hash.c:6-39 | two string keys are one key exactly if the strings are the same, whatever their hash codes; with numbers given, exactly if both are the same |
| `HashShape.HashCodeMore` | src/map/map.c:66-81 | each character multiplies the code by 31 and is added, modulo 2^64 |
| `HashTable.HashMap.constructor` | src/map/hash.c:211-240 | a new table is a valid empty map of eight slots |
| `HashTable.HashMap.GetHashKey` | src/map/hash.c:31-42 | the key's bucket |
| `HashTable.HashMap.Find` | src/map/hash.c:53-71 | finds the key's slot exactly if the map has the key, following links |
| `HashTable.HashMap.Get` | src/map/hash.c:295-307 | the map's value at the key as `HashShape.NormIs` says it is looked up |
| `HashTable.HashMap.Put` | src/map/hash.c:83-125 | updates the map and returns the old value; turns away only a new key in a full table that cannot grow; the capacity doubles exactly if the table was full and could grow |
| `HashTable.HashMap.Store` | src/map/hash.c:101-120 | a new key goes into the slot that the free list or the unused end offers; `HashSteps.StoredKeeps` says what that keeps |
| `HashSteps.StoredKeeps` | src/map/hash.c:101-120 | storing a new key keeps chains and free list disjoint, acyclic and covering, and adds just that key to the map |
| `HashTable.HashMap.Remove` | src/map/hash.c:242-288 | takes the key and nothing else out of the map, returns its value, and the capacity halves exactly if a key went and then more than 8 keys are left and 16 more fit into half |
| `HashTable.HashMap.Seek` | src/map/hash.c:242-262 | the key's slot, its place in its chain and the slot before it |
| `HashTable.HashMap.Resize` | src/map/hash.c:132-209 | the map stays; the table doubles exactly if full and able to grow, halves exactly if more than 8 keys and 16 more fit into half, fails exactly if it is full and cannot grow |
| `HashTable.HashMap.Rechain` | src/map/hash.c:200-206 | after doubling, every live slot is in exactly the chain of its key |
| `HashTable.HashMap.Compact` | src/map/hash.c:172-190 | halving copies every live slot once, into slots 0 to total - 1, each chained in its bucket |
| `HashRun.RunAll` | src/map/hash.c:83-307 | any run of put, remove, get and resize, whatever malloc refuses, gives the answers, the contents and the capacity of a finite map with a capacity; that stays a power of two, at least 8 and at least the number of keys |
| `HashAsWritten.RemoveAsWritten` | src/map/hash.c:264-282 | the text's removal is right exactly if the entry is not alone in its bucket |
| `HashAsWritten.RemoveThenPutLoops` | src/map/hash.c:264-282 | otherwise the next new key of the bucket links its slot to itself: a walk along the chain never ends |
| `HashAsWritten.ShrinkGuard` | src/map/hash.c:137 | the unsigned guard is the meant one exactly if there are not 16 slots with more than 8 keys |
| `HashAsWritten.ShrinkLosesFirst` | src/map/hash.c:155-190 | every table with a key that shrinks, also one of 16 slots with more keys than it keeps, loses the key copied first, for every length of search |
| `HashAsWritten.FewShrinks` | src/map/hash.c:155-190 | a concrete family: keys 0 to m - 1 in n slots, for instance 9 in 64, lose key 0 |
| `HashAsWritten.AvalidNamesLive` | src/map/hash.c:176 | with avalid one too small, the next new key is stored over a live one |
| `HashAsWritten.NeverMovedRight` | src/map/hash.c:139-141 | the move computed in uint32_t is never the half downwards that is meant |
| `HashStale.StaleUndef` | src/map/hash.c:132-209 | after a shrink, every run of new keys and growths keeps the map (each key found with its value) exactly if undef is the end mark |
| `HashStale.RemovalIsStale` | src/map/hash.c:264-288 | and it is not when a removal has made the table shrink, so that the map is then lost for some run |
| `HashStale.StaleFew` | src/map/hash.c:132-209 | a concrete family, for instance 15 keys in 32 slots: after two new keys key 0 is not found |
| `HashAsWritten.GrowLosesAll` | src/map/hash.c:195-206 | a table that grows has keys, and after growth as written none is found, for every length of search |
| `Decimal.ParseInt` | src/types.c:252-331 | no intermediate value leaves uint64_t, and the result is the value `Parsed` gives |
| `Decimal.ParsedExactly` | src/types.c:252-331 | accepted are exactly the usual spellings of the signed 64-bit integers, -2^63 included, with their values, and "-0" |
| `Decimal.ParseAsWritten` | src/types.c:252-331 | the text is right exactly if nothing follows "-0" and no accepted number has a '0' after its first digit |
| `Buffers.Buffer.Add` | src/types.c:364-388 | the text grows by exactly the bytes added, whatever has to grow |
| `Buffers.Buffer.Resize` | src/types.c:64-83 | the size changes and what was written stays |
| `Buffers.Buffer.SRange` | src/types.c:85-121 | the first bytes go, the rest moves to the front |
| `Buffers.RunOps` | src/types.c:64-121 | over any run of appends and drops the readable bytes are those of a plain byte sequence, and 0 <= rpos <= wpos <= max, used >= wpos |
| `Buffers.AppliedIsRest` | src/types.c:85-121 | that sequence is all that was there and was added, less some beginning |
| `Buffers.BufferArray.AddBuffer` | src/types.c:333-362 | the bytes go to the buffer named, or to a new one behind the last; no other changes |
| `Buffers.BufferArray.Resize` | src/types.c:133-159 | the array changes its size and keeps all buffers in use |
| `Buffers.BufferArray.SRange` | src/types.c:161-213 | the first buffers go, the others move to the front with the reading position |
| `Buffers.MvArrayBuff` | src/types.c:409-446 | all complete buffers go behind those of the other array, in order; the pending one stays |
| `BuffersAsWritten.GrowthIsEnough` | src/types.c:368-375 | the text's growth is enough exactly if one unit is, or whole units are missing |
| `BuffersAsWritten.ArrayGrowthIsEnough` | src/types.c:421-425 | likewise for the array, with the room it had |
| `BuffersAsWritten.UsedIsWritten` | src/types.c:366-386 | used is the number of bytes written exactly if nothing had to grow |
| `BuffersAsWritten.SRangeDropsAll` | src/types.c:172-198 | asked to drop some buffers, the text is right exactly if none would be left |
| `BuffersAsWritten.RewindIsRight` | src/types.c:180-203 | with the sign right, what is left to send is right exactly if all that was read is dropped |
| `BuffersAsWritten.RewindStops` | src/types.c:180-203 | otherwise a sent buffer is in front again, and no number of writes sends anything more |
| `BuffersAsWritten.HandOverKeeps` | src/types.c:409-446 | every byte is kept exactly if nothing is pending or the pending buffer is the only one |
| `BuffersAsWritten.ShrinkKeeps` | src/net/server.c:555-563 | cutting the array back loses nothing exactly if at most 60 slots are in use or all are sent |
| `BuffersAsWritten.SendingKeeps` | src/net/client.c:138-209 | no sequence of sends, over any number of calls, loses a byte, exactly if no buffer has more than 16384 unread bytes |
| `Resp.RunMore` | src/proto/multibulk.c:17-58 | parsing what is there and then the rest is parsing all at once |
| `Resp.ChunkIndependence` | src/proto/multibulk.c:17-132 | however input is cut into reads, the state or the error is that of one piece, except exactly if some beginning of the reads ends on the size limit |
| `Resp.TooBigIsLongLine` | src/proto/multibulk.c:215-226 | a run ends on the size limit exactly if where it stops a header line has no end in sight and the buffer holds more than 65536 bytes |
| `Resp.HeaderLimit` | src/proto/multibulk.c:215-226 | streams of at most 65536 bytes never meet the limit |
| `RespLimit.LongArgumentCut` | src/proto/multibulk.c:17-132 | from a new client: a command whose first argument is longer than 65536 bytes, with a read that ends behind the second '$', is refused, though in one piece it is accepted |
| `Resp.NegativeCount` | src/proto/multibulk.c:31-42 | a negative argument count becomes a very large one |
| `Resp.CommandsAreUsual` | src/proto/multibulk.c:31-42 | up to 2^63 arguments, what the parser takes for a command is exactly the usual spelling of its arguments, none empty; but no arguments may be "-0" |
| `RespMeaning.RunWf` | src/proto/multibulk.c:17-132 | verbatim copy: the bytes appended to the command buffers are the bytes consumed, buffer i is exactly the i-th command, and only the last may be pending |
| `RespMeaning.RoundTrip` | src/proto/multibulk.c:17-132 | any list of non-empty argument lists, encoded and parsed, comes back as exactly those commands with no input left |
| `RespRefusal.StreamIsRead` | src/proto/multibulk.c:17-132 | any sequence of commands, in any spelling that parseInt takes, comes back as exactly those commands with no input left |
| `RespRefusal.RefusedExactly` | src/proto/multibulk.c:17-132 | bytes are a protocol error exactly if they are whole commands and parts of one up to some place, and right there: a line that does not start with the character due, or whose CR is followed by no LF, or whose text is no int64; a length that is not positive; or an argument not followed by CRLF |
| `RespRefusal.ReadsRefusedExactly` | src/proto/multibulk.c:17-132 | the same however the bytes are cut into reads, except for the limit on long lines |
| `RespRefusal.NoGoingOn` | src/proto/multibulk.c:17-132 | nothing can follow with which the bytes are a sequence of commands exactly if they are refused, or doomed: the parser waits with a line not ended whose text no int64 starts with, or an argument with no CR behind it |
| `RespRefusal.ErrorUnlessDoomed` | src/proto/multibulk.c:215-249 | that a protocol error is the answer exactly to bytes that nothing can follow holds exactly of bytes that are not doomed |
| `RespRefusal.NoNumber` | src/proto/multibulk.c:240-245 | for instance "*x", which the parser waits with, and which is an error with its CRLF |
| `RespRefusal.FindCrExactly` | src/proto/multibulk.c:215-226 | the end of a line is found exactly at its first CR, and only if no NUL is before it |
| `ClientParser.Client.ProcessClient` | src/proto/multibulk.c:17-58 | the loops compute `Resp.Run` in place: state, buffers and error |
| `ClientParser.Client.ProcessCmds` | src/proto/multibulk.c:60-132 | likewise for the rest of one command |
| `ClientParser.Client.ParseInputBuffNum` | src/proto/multibulk.c:215-249 | a number is read past exactly if it is complete and well formed; otherwise nothing moves; `RespRefusal.RefusedExactly` says on bytes when it is an error |
| `ClientParser.Client.AddReply` | src/net/client.c:288-292 | a line and CRLF go to the buffer of the command under way |
| `RespEdge.FailsExactlyAtEdges` | src/proto/multibulk.c:60-132 | the text calls a beginning of a command stream an error exactly if it ends inside a command just before a '$' line, or on the '\r' of a header line |
| `RespEdge.ReadsFailExactly` | src/proto/multibulk.c:17-132 | for any sequence of reads of a command stream the text fails exactly if some read ends at such an edge of the stream or on the size limit, and else does what parsing in one piece does |
| `RespAsWritten.FirstLineAlone` | src/proto/multibulk.c:60-70 | for instance a first read that ends behind "*1\r\n" |
| `Drain.BaseWrite` | src/net/client.c:138-209 | the loop sends what `Drained` says and leaves the queue it says, buffer by buffer |
| `Drain.DrainConserves` | src/net/client.c:138-209 | whatever the sends give, bytes sent and bytes queued are the queue; one call sends at most 2 * 16384 - 128 bytes |
| `Drain.DrainProgress` | src/net/client.c:138-209 | a willing socket empties the queue or gets more than 16384 - 128 bytes per call |
| `Drain.DrainedExactly` | src/net/client.c:138-209 | what the socket has is as many bytes from the front of the queue as the sends made have taken, each the least of what it gave, 16384 and what was left of the buffer in front; the queue is the rest; a further send is made exactly if all before took what they were offered, not more than 16384 - 128 bytes have gone, and something is left; the call fails exactly if the last send made failed or took nothing |
| `Drain.TwoOfThree` | src/net/client.c:171-188 | for instance a buffer of three bytes of which the socket takes two, or fails |
| `Drain.EmptyBufferBlocks` | src/net/client.c:154-162 | an empty buffer in front blocks every later write |
| `Drain.Tidy` | src/net/server.c:555-563 | the queue stays as it is; once 60 buffers have been sent these are dropped, and the array goes back to 60 slots if what is left fits; an array with nothing queued starts again at the front |
| `Drain.Clear` | src/types.c:448-452 | an array with nothing queued starts again at the front |
| `Pipeline.ForwardRead` | src/net/server.c:427-521 | receive, the check for errno, parse and hand over do together, in place, what a read event of the pipeline says |
| `Pipeline.EndToEnd` | src/net/client.c:98-209 | for any run of reads (with errno left at EAGAIN or not), errors and sends: each socket has a beginning of the commands handed to it; the commands are those of parsing in one piece all that the parser has been given; with what is buffered they are all bytes received, none lost, doubled or reordered |
| `Pipeline.HandedOverExactly` | src/net/server.c:436-496 | the commands handed over are those of all bytes received exactly if what has been received and not looked at is no error and completes no command |
| `Pipeline.StaleReadWaits` | src/net/server.c:449 | for instance one whole command read while errno is EAGAIN: nothing is handed over |
| `Pipeline.ReadDoes` | src/net/server.c:427-521 | in every reachable state, a read that is looked at ends the client exactly if all bytes received, in one piece, are an error; otherwise nothing waits, and all commands of those bytes that had not been handed over go behind the queue of the lease given, encoded as they came |
| `Pipeline.FreshReadHandsOver` | src/net/server.c:449 | for instance the same command read while errno is 0: it is handed over |
| `Pipeline.WriteDoes` | src/net/server.c:523-564 | a write puts on the socket of its lease exactly what the sends take of that lease's queue, and touches nothing else |
| `Pipeline.OneConnection` | src/net/client.c:98-209 | while a client stays on one connection, that socket's bytes are a beginning of the client's bytes |
| `Replies.RunMore` | src/proto/multibulk.c:134-213 | replies may arrive in any pieces |
| `Replies.RunReply` | src/proto/multibulk.c:134-213 | one whole reply of any kind counts exactly once and is copied verbatim |
| `Replies.RepliesAreCounted` | src/proto/multibulk.c:134-213 | any list of replies lowers rNum by its length and is copied byte for byte |
| `ReplyRefusal.TurnExactly` | src/proto/multibulk.c:134-213 | for every state and all bytes: which lines, headers and bodies a turn of the parser takes, what it then owes and expects, and that it fails exactly on an integer or array line whose text is no int64, on an element that does not start with '$', whose header is not ended by CRLF or is no int64, or that is not followed by CRLF |
| `ReplyRefusal.FailsExactly` | src/proto/multibulk.c:134-213 | redis's bytes are a protocol error exactly if some of them make up whole parts of the replies owed and such a fault is right behind |
| `ReplyRefusal.RunIs` | src/proto/multibulk.c:134-213 | a run goes on as far as it can, and adds to the buffers just what it reads, but a first line always with CRLF, and with an error in front if it is of no known type |
| `RedisParser.Connection.ProcessRedis` | src/proto/multibulk.c:134-213 | the loops compute `Replies.Run` in place, and pendding says whether replies are outstanding |
| `RedisParser.Connection.ProcessElements` | src/proto/multibulk.c:60-132 | likewise for the elements of an array or a single bulk string |
| `ReplyRun.Accounting` | src/proto/multibulk.c:134-213 | whatever the parser has been given so far, in whatever pieces: rNum is commands forwarded less whole replies; it is 0 exactly if all has come, and then nothing is left unread or unfinished |
| `ReplyRun.ForwardInv` | src/net/server.c:518-520 | forwarding commands in the middle of a reply changes only what is owed |
| `ReplyRun.ReadInv` | src/net/server.c:383-407 | a read keeps the accounting, and can only fail on one of the two size limits |
| `ReplyRun.ReadFailsExactly` | src/net/client.c:123-128 | a read fails exactly if it makes the buffer reach 2^30 bytes, or is looked at and, where the parser waits, a line has no end in sight and the buffer holds more than 65536 bytes |
| `ReplyRun.LongStatus` | src/proto/multibulk.c:141-150 | for instance a status line of more than 65536 characters, read without its CRLF |
| `ReplyRun.ReplyEndToEnd` | src/net/server.c:364-425 | for any interleaving of forwarding, reading and sending: the client's socket has a beginning of the replies, in order and byte for byte; rNum is forwarded less whole replies looked at; at rNum 0 all replies are sent or queued |
| `ReplyRun.CountedUnlessStale` | src/net/server.c:389 | after a read rNum is forwarded less whole replies arrived exactly if errno was not left at EAGAIN, or no reply has been completed since |
| `ReplyRun.ReadHandsOver` | src/net/server.c:400-407 | a read that is looked at hands over all but at most the last buffer, and that one too once nothing is owed |
| `ReplyRun.SendDoes` | src/net/server.c:566-609 | a write puts on the client's socket exactly what the sends take of what is queued |
| `ReplyRun.ReadReplies` | src/net/server.c:383-407 | receive, the checks, parse, hand over and tidy do together, in place, what a read event says |
| `RepliesAsWritten.RightUnlessCut` | src/proto/multibulk.c:140-193 | the text does with a first line what it should exactly if the line is not cut before its '\n' |
| `RepliesAsWritten.CutStatus` | src/proto/multibulk.c:152-192 | for instance a status line cut there: it is counted and the buffer cleared |
| `RepliesAsWritten.CutHeader` | src/proto/multibulk.c:179-196 | for instance the header of a bulk string cut there: the next thing is an error |
| `RepliesAsWritten.StrayLf` | src/proto/multibulk.c:183-192 | the '\n' that follows counts as a further reply |
| `RepliesAsWritten.ElementRight` | src/proto/multibulk.c:64-91 | the text reads the header of an element as it should exactly if the read does not end before it or inside it, and it is not the empty string's |
| `RepliesAsWritten.CutArray` | src/proto/multibulk.c:64-72 | for instance an array of two cut behind its first element: an error |
| `RepliesAsWritten.StrayCrlf` | src/proto/multibulk.c:86-94 | the CRLF left by an empty string counts as a reply, and an error text goes to the client |
| `ReplyEdge.TextRightExactly` | src/proto/multibulk.c:134-213 | on bytes, for a whole call given a beginning of the replies: the text does what it should exactly if the beginning does not end on the '\r' of a line or just before an element, and the header of no empty string is in it |
| `ReplyEdge.ReadTextExactly` | src/proto/multibulk.c:134-213 | the same for every read of a lease, wherever it starts: as long as no beginning was at such an edge, the next call is right exactly if the bytes up to it are not at one either |
| `Lease.StepKeeps` | src/net/server.c:364-609 | every callback keeps the invariant of pool, counters, tables and blocked clients |
| `Lease.Reachable` | src/net/server.c:364-609 | in every reachable state: entries are mirrored, nothing leased is idle, the list is as long as avalidNum, the counters stay within the larger of maxNum and minNum, idle connections owe nothing |
| `Lease.NeverAboveMaxNum` | src/net/pool.c:149-176 | they stay within maxNum exactly if the pool starts within it |
| `Lease.BlockedFinds` | src/net/server.c:454-465 | a client in a blocking command always finds its own connection |
| `Lease.NothingDangles` | src/net/server.c:437-447 | a client that leaves leaves no entry and no lease |
| `LeaseMeaning.ClientsExactly` | src/net/server.c:364-609 | over every run and for every event, said of the event and the state before it: a client is added exactly if less than maxNum connections are lent, is removed exactly if its read ends, its write fails or it had quit and all is sent, and is told to quit exactly if no connection can be had for it, it has sent an error, or a connection lent to it fails; and which connection it has as its own |
| `LeaseMeaning.ConnectionsExactly` | src/net/server.c:364-609 | likewise: exactly when each connection is opened, lent, given back and shut, to whom it is lent, what is counted on it, and the order of the idle list |
| `LeaseServer.Pool.Get` | src/net/pool.c:149-176 | the head of the linked list, or a new connection, or none, exactly as the counters say |
| `LeaseServer.Pool.Put` | src/net/pool.c:178-188 | the connection becomes the head of the idle list, and is counted back |
| `LeaseServer.Pool.Del` | src/net/pool.c:219-233 | the connection is unlinked wherever it is in the list, and counted |
| `LeaseServer.Pool.constructor` | src/net/pool.c:49-71 | the list links all connections in the order they were opened |
| `LeaseServer.Server.Accept` | src/net/server.c:685-705 | a new client is entered, unless as many connections are lent as may be |
| `LeaseServer.Server.ReadC` | src/net/server.c:427-521 | the callback, in place, does the step that `Lease` says, on the linked list and the tables |
| `LeaseServer.Server.ReadR` | src/net/server.c:364-425 | likewise |
| `LeaseServer.Server.WriteR` | src/net/server.c:523-564 | likewise |
| `LeaseServer.Server.WriteC` | src/net/server.c:566-609 | likewise |
| `LeaseReplies.AfterOk` | src/net/server.c:364-609 | pool, tables and parsers together: every step keeps their common invariant, where how many replies a read completes is not given but is what the parser finds in the bytes |
| `LeaseReplies.Accounted` | src/net/server.c:408-424 | in every reachable state rNum of each connection is commands forwarded on the lease less whole replies arrived, its client has been handed a beginning of those replies, and a connection in the pool has nothing unread or kept |
| `LeaseReplies.ReturnedExactly` | src/net/server.c:383-424 | a read that does not fail puts the connection back exactly if errno was not left at EAGAIN, it is not blocked, and all replies to what was forwarded have come to the last byte; the client has then been handed exactly these bytes |
| `LeaseReplies.NotTarget` | src/net/server.c:454-465 | commands never go to a connection leased already, unless a blocking command holds it |
| `LeaseReplies.ClosesExactly` | src/net/server.c:364-609 | which events close a leased connection, both ways |
| `LeaseReplies.LeaksIffNothingAsked` | src/net/server.c:464-520 | a read from a client leaks the connection it leases exactly if it completes no command; otherwise the replies, if they are shorter than 2^30 bytes, bring it back |
| `LeaseReplies.LeaksForGood` | src/net/server.c:364-609 | such a connection stays leased through every run without an event that closes it |
| `Proxy.AfterOk` | src/net/server.c:364-609 | clients' parsers, pool, tables and connections' parsers together: every step keeps their common invariant, where neither the commands nor the replies of a read are given but what the parsers find in the bytes |
| `Proxy.ForwardedLessAnswered` | src/net/server.c:518-520 | in every reachable state rNum of a leased connection is the commands found in its client's bytes and forwarded on the lease, less the whole replies found in the bytes from redis; and all commands forwarded for a client are those of its bytes parsed in one piece |
| `Proxy.EveryReadDoes` | src/net/server.c:427-521 | in every reachable state, what a read of a client's bytes does, said of all bytes that have come from it parsed in one piece: nothing is looked at if it has quit or errno was left at EAGAIN; it ends if the buffer gets too long; it is told to quit and nothing is handed over on an error or for want of a connection; else all commands not handed over before go to the connection that the pool gives for it, and as many more replies are due there |
| `LeaseAsWritten.PutNeverRight` | src/net/pool.c:178-188 | with the counters as written, returning a connection always breaks the invariant |
| `LeaseAsWritten.DelNeverRight` | src/net/pool.c:219-233 | so does dropping one, idle, leased or in hand |
| `LeaseAsWritten.FreedUncounted` | src/net/server.c:811-831 | the end of a client leaves the counters right exactly if it has no connection |
| `LeaseAsWritten.Drift` | src/net/pool.c:149-233 | over any run, activeNum counts all loans ever made, and is too high by the returns and drops of lent connections; avalidNum differs from the list by the returns less the idle drops |
| `LeaseAsWritten.NextLoan` | src/net/pool.c:149-176 | lending stops for good exactly after as many loans as the larger of maxNum and minNum; and follows an empty list exactly if, before minNum loans, all idle connections have been dropped |
| `LeaseAsWritten.DelUnlinks` | src/net/pool.c:225-230 | the text unlinks rightly exactly if the connection is the head, or is leased and its old successor is the head |
| `LeaseAsWritten.DelBringsBackLeased` | src/net/pool.c:225-230 | otherwise a leased connection can become the idle list |
| `LeaseAsWritten.EnteredIfNotBlocked` | src/net/server.c:498-516 | entering a connection is right exactly if the client is not blocked now, or was so before and is entered already |
| `LeaseAsWritten.RejectedIfNotBlocked` | src/net/server.c:474-496 | the error exits are right exactly if the client was not blocked |
| `LeaseAsWritten.AnsweredIfNotBlocked` | src/net/server.c:418-424 | removing the client's entry is right exactly if it is not blocked on another connection |
| `LeaseAsWritten.DropIfNoEntry` | src/net/server.c:376-379 | dropping without removing the client's entry is right exactly if it has none for the connection |
| `LeaseAsWritten.ClientIsNotTold` | src/net/server.c:542-553 | after a failed write the client is never told, though it should be |
| `LeaseAsWritten.FreedIfOnlyLease` | src/net/server.c:811-831 | freeing a client is right exactly if it has no other connection than the one it has an entry for |
| `Crc32.TableIsRight` | src/crc32.c:3-69 | each of the 256 constants is its index shifted out bit by bit through 0xEDB88320 |
| `Crc32.UpdatesAreBitwise` | src/crc32.c:71-81 | from any register and for every message, the table form is the bitwise reflected CRC of section 8 of RFC 1952 |
| `Crc32.UpdatesAppend` | src/crc32.c:71-81 | the register composes over concatenation |
| `Crc32.Compute` | src/crc32.c:71-81 | the loop computes that checksum of the first size bytes |
| `Crc32.OneByteIsDetected` | src/crc32.c:71-81 | changing any one byte changes the checksum |
| `Crc32.Residue` | src/crc32.c:71-81 | a message followed by its checksum, low byte first, has the checksum 0x2144DF1C, whatever the message; the empty message has 0 |

## Left out

- The operating system: sockets, event registration, fork, signals, threads and their mutex. What recv and send give is a parameter.
- Load sharing between processes (`readS`, `writeS`, `updateMin`, `newSock`), configuration, logging, authentication of a new connection, and `run`, `worker` and `task`.
- Failing malloc, except for a tree node and for a growing hash table; byte sizes given to realloc and memset; freeing.
- Which commands block: `isBlockCmd` and `isReleaseCmd` are not part of this model; whether a client is blocked after a read is part of the event.
- The limits on the number of clients in `acceptC`, but for the test of activeNum against maxNum.
- The text that is sent to a client on failure ("Server is Busy"), and what a client that has quit still gets.
- Order among several connections of one client, see above; in `LeaseReplies` each connection keeps its own account of what it has handed to its client.
- Nested arrays and integers inside arrays from redis: `processCmds` does not support them. Subscriptions, which redis answers more than once: `LeaseReplies.Possible` has one reply to each command.
- The buffers in a `Buffers.BufferArray` are values, so that aliasing between slots is not captured; that `mvArrayBuff` swaps pointers appears as swapping values.
- `strchr` running on behind the received bytes of a buffer without a NUL: `ClientParser.StrChr` ends at the last byte received.
- The uninitialised `multiBulkLen`, `bulkLen` and `isBlock` of a new client (src/net/client.c:58-61): they are 0 and false here, which `Lease.BlockedFinds` needs.
- Characters above 127 in a string key: `HashShape.HashCode` adds them as they are, `hashCode` as signed char.
- Where a shrunk table lies in memory: its slots behind the copied ones are blank here, while the text leaves there what the old index area held (src/map/hash.c:141-190).
- The 60-byte buffer in which the parser builds header lines, and the int32_t in which `addBuff` holds the missing size.
- The wrong comparison in `fixAfterRemove` (src/map/tree.c:300) has no theorem of its own: with parent fields as written the loop around it is never entered.
- What redis replies to which command: one good reply to each, in order, is an assumption about redis; so is that nothing else comes. Whether errno is left at EAGAIN is part of each read.
- `src/crc32.c` is not in the Makefile's list of objects; it is modelled by itself.
