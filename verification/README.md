# Verified model of the database, replication, RPC and calendar code

This project models, in Dafny, five parts of the repository and proves what each of them is for.

* **The gdbm hash file** (`gdbm-1.8.3`): extendible hashing with a directory of 2^dir_bits bucket
  addresses, buckets with linear probing, a round-robin write-back bucket cache, the split loop, and
  the space of the file: what is in use, and the free regions on the lists of buckets and header.
  `Bits`, `HashTable`, `Directory`, `BucketCache`, `Space`, `BucketFile`.
* **Networked variables** (`dcicommon/nv.c`, `broadcast.c`, `receiver.c`): arrays that log their
  changes, a broadcaster with reference-counted messages, framed delivery in chunks of any size, and
  clients that are brought up to date by a snapshot and the queued updates. `Wire`, `NvArray`,
  `NvServer`, `NvClient`, `Receiver`, `Outgoing`, `Turns`, `Broadcast`, `Replication`, `StaleReads`,
  `TurnRuns`, `LiveServer`.
* **Remote procedure calls** (`dcicommon/rpc.c`, `server.c`, `sock.c`): requests and responses over
  arbitrarily split I/O, the server's poll loop, and the connection pool with its two counters, shared
  by any number of threads. `ByteOrder`, `Iov`, `RpcWire`, `RpcConn`, `RpcServer`, `RpcPoll`,
  `RpcPool`, `RpcThreads`.
* **Tallies and polls** (`dcicommon/otally.c`, `poll.c`): message nodes that wander between a free
  list, a queue and many sender threads; the server's sums; a write-back cache of vote counts.
  `Tally`, `TallyServer`, `Poll`.
* **Arithmetic** (`dcicommon/datenum.c`, `time.c`, `ascii85.c`): day numbers, ISO week dates, and the
  base-85 codec. `Datenum`, `IsoWeek`, `Ascii85`.

`Options`, `Sequences` and `Words` hold what several of them share.

`dafny verify dfyconfig.toml` checks everything.

## How the models are built

Machine words have 32 bits: unsigned counters wrap modulo 2^32, the numbers in the year search and the
size of a directory wrap like signed ones, file offsets end at 2^31 - 1, and hashes are 31-bit values. Objects that the source
updates in place are classes; each class has a ghost view of what it means (the logical buckets, the
arrays' contents, the place of every connection) that its methods keep in step with the real fields.

Ordering decisions that the source leaves to a hash table (`order`, `kept`), to the kernel (how many
bytes a read or write handles, which sockets report what), to malloc (the address of a new message)
or to other threads (which critical section comes next) are parameters. Contracts hold for all their
values.

Where the code does not do what it seems meant to do, the model follows the code:

* `BucketFile.Dbf.SplitBucket`: the split loop may end with the program aborting, in two ways.
  If all hashes in a full bucket agree with the one being inserted in the first 28 bits, it never ends
  with a free slot: every round leaves one half full with the same contents, until the directory has 28
  bits. Doubling it once more would take 2^31 bytes; as an int that is negative, and it cannot be
  allocated. `BucketFile.StuckFile` fills a new file with blocks of 512 bytes, the smallest, in that way.
  Otherwise the program aborts only if the blocks of the rounds pass the last file offset; the old
  directories of one split are all still in the file. `BucketFile.CanSplit` is the exact condition for
  new blocks: some number of bits up to 28 tells an element from the new hash, and the blocks of as many
  rounds fit behind the end of the file. Then the loop ends with a free slot. By
  `BucketFile.OffsetsRunOut` it does not hold in a new file of such blocks when the hashes agree in 27
  bits, although the 28th bit would do. Whether free regions then help is left open.
* `StaleReads.SafeIfQuiet`: a client goes on reading a connection that the broadcaster has given up. It
  has the server's arrays whenever it has caught up, in every continuation, if and only if no command
  is left to be read from such a connection at some time before it reads the snapshot of the next one.
  `StaleReads.MayDiverge` gives a diverging run from every start, `StaleReads.Diverging` one with a
  single entry.
* `RpcPool.Rpc.ScanEnd`: the scan that follows an accept does not give back `httpAvail` for HTTP
  connections it closes. The sum of `httpAvail` and the live HTTP connections stays the same if and
  only if no HTTP connection was dropped; `RpcPool.ScanLosesLimit` builds a pool that ends with no
  HTTP connection and none available: callers that find the list empty then wait before they connect.
  In every schedule of `RpcThreads` this is the only way in which the sum changes
  (`RpcThreads.Threads.Step`, `LimitLost`).
* `RpcPoll.Polled.LeftBehind`: the server's poll loop looks at a connection again only when the kernel
  has bytes or the end of the stream, and after a response it does not look at what it has read ahead.
  When nothing more arrives, all requests that have arrived are served if and only if the last read
  from the kernel made no more than one of them whole; the others that it made whole wait.
  `RpcPoll.TwoAtOnce` is a client that sends two requests at once and gets one answer. Every request is
  served exactly once, in order, if the client sends each one only after the response to the one before,
  if it ends its stream, or if nothing is read ahead (`RpcPoll.Polled.RequestsServed`).
* `Ascii85.EndlessWhen`: the decoder never stops reading exactly when it comes to a tilde that is
  followed by at least one character, and by white space only. `Ascii85.EndlessInput` is the shortest
  such input.
* `Poll.PollStore.FreeEntry`: an evicted poll keeps its votes if and only if they could be written or
  the file already held them.
* `Datenum.SearchStops`: the year search stops at the right year if and only if the number of the last
  day of that year fits an int, which is so up to day 2147483455 since the beginning of year 1, the end
  of year 5879610; on the next day it passes the right year (`Datenum.SearchPassesBy`). The source's
  comment promises no more than day 5368699. From day 5368710 on the
  product in the search overflows, which only makes it start earlier.

## Assumptions

* gdbm: `lseek` to an offset that is not negative, `read`, `write`, and `malloc` of a size that is not
  negative succeed (the source aborts otherwise), and the cache has at least three entries
  (`gdbm-1.8.3/gdbmsetopt.c:59` gives it at least ten). `BucketFile.VictimsCoincide` shows that two
  would not do.
* Networked variables: no send timeout is configured (`dcicommon/broadcast.c:166-168`); messages are
  not empty and shorter than 2^31 bytes; clients know exactly the array names of the server, each
  name has its own array, and only received messages write to it.
* RPC: request and response bodies are shorter than 2^31 bytes; a response does not run on past its
  own length. A server sends each response without an error; a pass over the sockets may find that it
  cannot send all of it yet.

## Model

| member | source | states |
|---|---|---|
| HashTable.Place | gdbm-1.8.3/gdbmstore.c:137-143 | probing from the home slot puts an element into a free slot, and every element of the table can still be found from its own home slot without meeting a free one |
| HashTable.Search | gdbm-1.8.3/findkey.c:119-158 | the probe finds a matching element, and reports a miss if and only if the table holds none |
| HashTable.RemoveOne | gdbm-1.8.3/gdbmdelete.c:75-77 | emptying a slot removes one copy of its element and leaves a table in which everything is reachable if the hole is ignored |
| HashTable.MoveBackCloses | gdbm-1.8.3/gdbmdelete.c:85-95 | moving an element whose path crosses the hole back into it makes its old slot the new hole and keeps everything else reachable |
| HashTable.MoveBackCounts | gdbm-1.8.3/gdbmdelete.c:85-95 | each such move brings elements strictly closer to their home slots, which is why the loop ends |
| HashTable.ClosingDone | gdbm-1.8.3/gdbmdelete.c:79-96 | when the scan meets a free slot the table is searchable again |
| HashTable.Remove | gdbm-1.8.3/gdbmdelete.c:75-96 | deleting keeps the table searchable and removes exactly one copy of exactly that element |
| HashTable.Distribute | gdbm-1.8.3/bucket.c:228-238 | a full table is shared out between two searchable tables, each holding exactly the elements whose next hash bit selects it, with exact counts |
| HashTable.OneSideFull | gdbm-1.8.3/bucket.c:168-238 | if one half receives everything it has exactly the old contents and all hashes share the bit |
| Directory.PrefixIsQuotient | gdbm-1.8.3/bucket.c:283 | shifting a hash to the right to get its first bits is a division by a power of two |
| Directory.DoubleKeeps | gdbm-1.8.3/bucket.c:199-226 | doubling keeps the directory invariant: 2^bits entries, one aligned run of entries for each bucket, every element with its run's prefix |
| Directory.DoubleStored | gdbm-1.8.3/bucket.c:199-226 | doubling does not change where any element is found |
| Directory.RunHalves | gdbm-1.8.3/bucket.c:263-272 | the entries of a bucket are one aligned run, and one more hash bit cuts the run in the middle |
| Directory.SplitKeeps | gdbm-1.8.3/bucket.c:228-283 | replacing a bucket by its two halves and repointing its run keeps the directory invariant |
| Directory.SplitStored | gdbm-1.8.3/bucket.c:228-283 | after a split every 31-bit hash still leads to the same number of copies of each element |
| Directory.ReplaceBucket | gdbm-1.8.3/gdbmstore.c:127-164 | changing the elements of one bucket keeps the directory invariant |
| Directory.InsertStored | gdbm-1.8.3/gdbmstore.c:127-152 | storing adds one copy of one element and changes no other count |
| Directory.RemoveStored | gdbm-1.8.3/gdbmdelete.c:75-96 | deleting takes away one copy of one element and changes no other count |
| Directory.NewDirectory | gdbm-1.8.3/gdbmopen.c:228-273 | a new file meets the directory invariant with one bucket behind all entries |
| BucketCache.WriteKeeps | gdbm-1.8.3/bucket.c:320-337 | writing an entry back changes nothing in the logical file |
| BucketCache.ReadKeeps | gdbm-1.8.3/bucket.c:99-117 | reading over an unchanged entry changes nothing in the logical file and keeps cached addresses distinct |
| BucketCache.ReplaceKeeps | gdbm-1.8.3/bucket.c:170-195 | recycling two entries for new buckets and invalidating the old one changes the logical file by exactly these three buckets |
| BucketFile.DoublingOverflows | gdbm-1.8.3/bucket.c:202 | doubling the size of a directory is exact up to 27 bits, and from 28 bits it gives a negative int |
| Space.PutAvElem | gdbm-1.8.3/falloc.c:355-425 | a free region is merged with the first one that it adjoins, if that is asked for, and otherwise goes before the first one that is not smaller; regions too small to keep are dropped |
| Space.GetElem | gdbm-1.8.3/falloc.c:310-345 | the first region that is large enough is taken out of a list, and nothing else changes |
| Space.TakesFirst | gdbm-1.8.3/falloc.c:71-90 | an allocation takes the first region that is large enough from the current bucket's list, or else from the header's, or else as few whole blocks as will do at the end of the file |
| Space.TidyTaken | gdbm-1.8.3/falloc.c:71-90 | the region taken and all free ones that are left lie in the file, apart from each other and from what is in use |
| Space.TidyUsed | gdbm-1.8.3/falloc.c:92-101 | its first bytes overlap nothing in use, and the rest of it nothing in use or free |
| Space.TidyFreed | gdbm-1.8.3/falloc.c:111-161 | a region that goes out of use overlaps no free one |
| Space.TidyPut | gdbm-1.8.3/falloc.c:355-425 | inserting or merging a free region leaves every free region listed once and apart from all others and from what is in use |
| Space.TidySwitched | gdbm-1.8.3/bucket.c:240-307 | so does handing a split bucket's regions and its own on to the two new ones |
| BucketFile.VictimsDiffer | gdbm-1.8.3/bucket.c:170-188 | with three entries or more, the two entries a split recycles differ from each other and from the current one |
| BucketFile.VictimsCoincide | gdbm-1.8.3/bucket.c:170-188 | with two entries they are always the same one |
| BucketFile.RunCut | gdbm-1.8.3/bucket.c:263-268 | the shifts that compute the run's bounds give its start, middle and end inside the directory |
| BucketFile.Dbf.constructor | gdbm-1.8.3/gdbmopen.c:207-281 | a new file with blocks of 512 bytes or more is valid and holds nothing; its one free region overlaps neither directory nor bucket |
| BucketFile.Dbf.WriteBucket | gdbm-1.8.3/bucket.c:320-337 | the file gets the entry's bucket, the entry becomes unchanged, and the logical file stays the same |
| BucketFile.Dbf.GetBucket | gdbm-1.8.3/bucket.c:65-120 | afterwards the current bucket is the logical bucket of the directory entry, and no logical bucket has changed |
| BucketFile.Dbf.FreeRegion | gdbm-1.8.3/falloc.c:111-161 | a region that nothing uses is recorded, unless too small, in the current bucket's list or the header's, and all free regions stay apart from each other and from those in use |
| BucketFile.Dbf.Alloc | gdbm-1.8.3/falloc.c:61-103 | the region handed out comes from the bucket's list, the header's or new blocks, in this order; it overlaps none in use and none that is free afterwards; the bytes left over are recorded as free; the file grows by no more than enough whole blocks |
| BucketFile.Dbf.NextVictim | gdbm-1.8.3/bucket.c:170-188 | recycling skips the current bucket, writes a changed entry back first, and keeps the logical file |
| BucketFile.Dbf.DoubleDirectory | gdbm-1.8.3/bucket.c:199-226 | the new directory repeats every entry, at a fresh address, with its size doubled, which must not overflow, and the current index too |
| BucketFile.Dbf.UpdateDirectory | gdbm-1.8.3/bucket.c:263-272 | exactly the two halves of the current bucket's run are repointed |
| BucketFile.Dbf.MoveAvail | gdbm-1.8.3/bucket.c:240-262 | the full bucket's free regions go to the first half, except the first of a full list, which goes to the second half beside a fresh block |
| BucketFile.Dbf.MakeRoom | gdbm-1.8.3/bucket.c:199-226 | after the optional doubling the directory has a bit to spare, with every element still where it was |
| BucketFile.Dbf.SwitchTo | gdbm-1.8.3/bucket.c:275-307 | the bucket that the hash leads to becomes current, the old entry is invalid and unchanged, and the old bucket's space is recorded in the other half |
| BucketFile.Dbf.SplitRound | gdbm-1.8.3/bucket.c:168-309 | one round keeps the file valid and every element's count, adds one bit to the current bucket, leaves it the half that the hash selects, and grows the file by no more than three blocks and a directory of twice the size if one is needed |
| BucketFile.Dbf.MaySplit | gdbm-1.8.3/bucket.c:199-226 | another round is possible unless the directory's doubled size is negative, which is so at 28 bits exactly, or what the round needs passes the last file offset |
| BucketFile.Dbf.SplitFails | gdbm-1.8.3/bucket.c:127-314 | when no further round is possible, no number of bits both tells an element from the wanted hash and leaves room for the rounds up to it |
| BucketFile.Dbf.SplitBucket | gdbm-1.8.3/bucket.c:127-314 | over all rounds: validity, every element's count and all other file regions with their sizes are kept; the current bucket is the hash's; it gets room whenever some number of bits up to 28 tells an element from the hash and the rounds fit behind the end of the file, and never if all hashes agree in 28 bits; when bits run out the directory has 28 and its doubled size is negative, when offsets run out the next round does not fit; it has no more bits than the first disagreement needs; all replaced directories are freed with the sizes they had |
| BucketFile.WholeBlocks | gdbm-1.8.3/falloc.c:438-460 | a directory fills whole blocks, so that allocating it takes exactly its size |
| BucketFile.OffsetsRunOut | gdbm-1.8.3/bucket.c:199-226 | in a new file with blocks of 512 bytes, hashes that agree in 27 bits cannot be separated with new blocks |
| BucketFile.StillStuck | gdbm-1.8.3/bucket.c:168-309 | a full bucket whose hashes all agree with the wanted one in 28 bits leaves a full half of the same kind |
| BucketFile.StuckFile | gdbm-1.8.3/bucket.c:168-226 | in a new file with blocks of 512 bytes, any 22 elements whose hashes agree in all bits but the last three can be stored one after the other, and a further one then cannot |
| BucketFile.AgreeBounds | gdbm-1.8.3/bucket.c:168-189 | the bits after the loop are bounded by the first hash bit in which an element differs |
| BucketFile.Dbf.Insert | gdbm-1.8.3/gdbmstore.c:127-164 | storing a new element adds exactly one copy of it, splitting first if its bucket is full; it succeeds if there is a free slot or the split can be made, and fails if the bucket is full of hashes that agree with the new one in 28 bits |
| BucketFile.Dbf.Find | gdbm-1.8.3/findkey.c:90-160 | an element is found if and only if one that matches is stored anywhere in the file |
| BucketFile.Dbf.AllocHere | gdbm-1.8.3/gdbmstore.c:120-125 | space for a data item overlaps nothing in use and nothing that is free afterwards, and the file's elements stay as they are |
| BucketFile.Dbf.Store | gdbm-1.8.3/gdbmstore.c:120-164 | storing finds space for the data, splits the bucket if it is full and adds the element; if every stored element had a region of its own, of the size of its key and data, that is so afterwards |
| BucketFile.Dbf.RemoveHere | gdbm-1.8.3/gdbmdelete.c:72-96 | removing the current element takes away one copy of it and nothing else |
| BucketFile.Dbf.Delete | gdbm-1.8.3/gdbmdelete.c:72-104 | deleting the current element takes away one copy of it, and exactly the region of its data is given back; the other elements keep regions of their own |
| Wire.LastCommandWins | dcicommon/nv.c:1428-1549 | what a log leaves under a key depends only on the last command that touches it |
| Wire.Idempotent | dcicommon/nv.c:1428-1549 | applying a log twice is applying it once |
| Wire.SuffixReplay | dcicommon/nv.c:1702-1716 | updates that a snapshot already contains do no harm when they are applied to it again |
| Wire.IdleMessage | dcicommon/nv.c:1683-1727 | a message holds no command exactly if nothing but array names is found in its bytes |
| Wire.CommandLayout | dcicommon/nv.c:1428-1549 | the bytes of a command are a letter and strings that end with a NUL |
| Wire.ReadMessage | dcicommon/nv.c:1669-1739 | a client that knows the arrays of an encoded message applies exactly its commands, in order, and succeeds |
| NvArray.SizesSet | dcicommon/nv.c:1435-1450 | the size counters' changes on a set are the changes of the true sums |
| NvArray.SizesUnset | dcicommon/nv.c:1494-1496 | the size counters' changes on an unset are the changes of the true sums |
| NvArray.ReloadRestores | dcicommon/nv.c:1870-1892 | a flush and a set for every entry turn any array into the listed one |
| NvArray.ReloadLength | dcicommon/nv.c:1790-1791 | the encoded reload has 3 bytes more per entry than its keys and values |
| NvArray.NvArray.SetVar | dcicommon/nv.c:1428-1463 | sets the entry unless it exists and only new ones are allowed; counters stay exact; a change is logged or broadcast with the log, marks the array, and nothing is logged without a change |
| NvArray.NvArray.UnsetVar | dcicommon/nv.c:1484-1508 | the same for removing an entry; a missing key changes and logs nothing |
| NvArray.NvArray.FlushArray | dcicommon/nv.c:1528-1549 | the same for removing all entries |
| NvArray.NvArray.BroadcastUpdates | dcicommon/nv.c:1831-1848 | the message is the array's name and exactly the logged changes, and the log is empty afterwards |
| NvArray.NvArray.AppendReload | dcicommon/nv.c:1870-1892 | writes the encoded reload, whose length is 3 + name + 3 per key + the two counters |
| NvServer.NvServer.SetVar | dcicommon/nv.c:513-539 | whatever is set, the cached message stays honest about every array not marked for a rebuild, and exactly the change is broadcast |
| NvServer.NvServer.ClientInitMsg | dcicommon/nv.c:1762-1811 | the returned message, rebuilt or cached, is an exact snapshot of all arrays as they are, in a buffer of exactly its size |
| NvServer.SnapshotRestores | dcicommon/nv.c:1790-1800 | a snapshot brings any client with the same array names to the server's state |
| NvClient.NvClient.ReadOne | dcicommon/nv.c:1682-1727 | one pass of the parser applies one command |
| NvClient.NvClient.RecvUpdate | dcicommon/nv.c:1669-1739 | the pointer-walking parser does what the byte-level reading function says, on unknown names and commands too |
| Receiver.WholePrefix | dcicommon/receiver.c:225-262 | the whole frames in any first part of a stream are the first of its messages |
| Receiver.FeedStep | dcicommon/receiver.c:225-262 | reading on in a stream of frames completes exactly the next frame, or nothing |
| Receiver.FrameLayout | dcicommon/broadcast.c:780-787 | a frame is the length of the message, most significant byte first, and the message |
| Receiver.LoginThenMessages | dcicommon/receiver.c:207-263 | however a connection is split, the first frame is the login and the callback sees exactly the frames after it, in order |
| Receiver.AnySplit | dcicommon/receiver.c:207-263 | however a stream of any frames is split: a first frame that names no receiver is the end, with nothing handled; otherwise the callback sees exactly the frames after it up to and including the first one that it rejects, which is the end |
| Receiver.Sock.ReadOn | dcicommon/receiver.c:207-263 | the socket does just that over all its reads |
| Receiver.Sock.RecvMsg | dcicommon/receiver.c:207-263 | each read has the specified effect: nothing yet, a login, a message for the callback, or the end; a peer is logged in only as a receiver that exists, and nothing is handled before |
| Broadcast.Broadcaster.MsgDecr | dcicommon/broadcast.c:364-371 | a message is freed exactly with its last reference |
| Broadcast.Broadcaster.MsgSend | dcicommon/broadcast.c:780-787 | the client is about to be sent the whole frame, and the reference is counted |
| Broadcast.Broadcaster.MsgDone | dcicommon/broadcast.c:772-776 | the client has nothing left to be sent, and its reference is dropped |
| Broadcast.Broadcaster.RetryClient | dcicommon/broadcast.c:833-842 | the client is closed, its message dropped, and it is on the retry list and on no other |
| Broadcast.Broadcaster.Enqueue | dcicommon/broadcast.c:391-417 | a message goes to the end of the queue with its owner's reference |
| Broadcast.Broadcaster.RetryAll | dcicommon/broadcast.c:487-504 | exactly the clients whose connect succeeds move to the active list |
| Broadcast.Broadcaster.InitProc | dcicommon/nv.c:1790-1797 | replacing the cached message gives up the old reference and keeps the new one |
| Broadcast.Broadcaster.Advance | dcicommon/broadcast.c:587-604 | after a partial send exactly the rest remains; when the login is out the initial message follows, the rebuilt one or the one that the server keeps |
| Broadcast.Broadcaster.Serve | dcicommon/broadcast.c:554-643 | one client's turn in the scan changes the clients, the lists and the initial message as the turn on values says |
| Broadcast.Broadcaster.Scan | dcicommon/broadcast.c:552-644 | the scan does the same for all active clients in their order, and reports whether one is busy |
| Broadcast.Broadcaster.Pop | dcicommon/broadcast.c:662-680 | the first message of the queue is offered to exactly the connected clients, and its owner's reference is dropped |
| Broadcast.Broadcaster.Turn | dcicommon/broadcast.c:472-682 | a whole turn of the loop keeps the accounting and refines the turn on values: the pass over the retry list, the scan, and the queue's first message offered to all exactly when no client has one left to be sent |
| Turns.RetryEach | dcicommon/broadcast.c:487-504 | a pass over the retry list starts a connection for exactly the clients on it that have none and can be reached |
| Turns.ScanServesEach | dcicommon/broadcast.c:552-644 | a scan serves each of its clients once, with the initial message from before or one rebuilt in the scan, and leaves the others alone |
| Broadcast.Broadcaster.KeptWhileReferenced | dcicommon/broadcast.c:364-371 | at the head of the loop a message exists exactly as long as something refers to it, with a count that is the number of references |
| Replication.ChangeLink | dcicommon/nv.c:1831-1848 | a change that is applied and queued keeps a client's link in order |
| Replication.PopLink | dcicommon/broadcast.c:662-680 | so does offering the next message |
| Replication.SendLink | dcicommon/broadcast.c:587-604 | so does sending, and following the login with a snapshot while updates are still queued |
| Replication.ReadBound | dcicommon/receiver.c:225-262 | from any connection, given up or not, a client reads the login, exactly the next message, or nothing whole, and understands it |
| Replication.ReadQuiet | dcicommon/receiver.c:225-262 | a connection on which no command is left changes nothing and stays so |
| Replication.StepKeeps | dcicommon/broadcast.c:472-682 | every step of server, broadcaster, network or client keeps the invariant, reading old connections included |
| Replication.QuietSyncs | dcicommon/nv.c:1790-1797 | when no old command is left before the snapshot is read, what is still to be read brings the client to the server's state |
| Replication.Converges | dcicommon/broadcast.c:552-681 | in every run, with any drops, retries and splits: from a time before the snapshot is read at which no old command is left, a client that has read all it was sent is behind the server by exactly the queued updates, and equal to it when the queue is empty, as long as the connection lasts |
| Replication.Settled | dcicommon/broadcast.c:576-680 | when nothing more can be sent, read or taken from the queue, the queue is empty and every connected client has read all it was sent, and has the server's arrays if no old command could disturb it |
| Replication.ProgressEnds | dcicommon/broadcast.c:576-680 | sending, reading and taking from the queue cannot go on for ever |
| StaleReads.Quiesce | dcicommon/broadcast.c:576-680 | from every state such steps lead to one in which none of them is possible, without a connection being lost or an old one read |
| StaleReads.DivergesAt | dcicommon/receiver.c:147-263 | a message that a client can still read from an old connection makes it differ from the server, if the server undoes the message first and the client has otherwise caught up |
| StaleReads.SafeIfQuiet | dcicommon/receiver.c:147-263 | before its snapshot is read, a client has the server's arrays whenever it catches up, in every continuation, if and only if it has no command left to read from old connections |
| StaleReads.MayDiverge | dcicommon/broadcast.c:605-680 | from every start there is a run that ends with a client that has caught up and differs |
| StaleReads.Diverging | dcicommon/receiver.c:147-263 | such a run with one array of one entry |
| TurnRuns.ServeRun | dcicommon/broadcast.c:554-643 | one client's turn in the scan is at most one event of the replication system |
| TurnRuns.TurnIsRun | dcicommon/broadcast.c:472-682 | a turn of the broadcaster's loop, with its counted messages and lists, is a run of the replication system |
| LiveServer.Live.constructor | dcicommon/nv.c:254-285 | a server and its clients, which may hold anything, start as a system in which nobody is connected |
| LiveServer.CleanReloads | dcicommon/nv.c:1790-1800 | if no string holds a NUL and the counted sizes stay below 2^31, every message that reloads the arrays can be sent, whatever order they are listed in |
| LiveServer.Live.SetVar | dcicommon/nv.c:513-539 | a thread may set an entry between any two steps of the broadcaster, in the middle of a scan too: that is one change of the system, or nothing if the entry is kept |
| LiveServer.Live.UnsetVar | dcicommon/nv.c:715-732 | the same for removing an entry |
| LiveServer.Live.FlushArray | dcicommon/nv.c:832-863 | the same for removing all entries |
| LiveServer.Live.Retry | dcicommon/broadcast.c:487-504 | the pass over the retry list is the retries of the clients that can be reached |
| LiveServer.Live.BeginScan | dcicommon/broadcast.c:551-553 | the scan starts with all active clients still to come |
| LiveServer.Live.Report | dcicommon/broadcast.c:596-604 | when a login ends, the message that follows is brought up to date and is an exact snapshot of the arrays at that time |
| LiveServer.Live.ServeNext | dcicommon/broadcast.c:552-643 | a client's turn is exactly the event that its report means, with an exact snapshot if its login ends |
| LiveServer.Live.EndScan | dcicommon/broadcast.c:645-681 | after the scan the next queued message is offered exactly if no client was in the middle of one |
| LiveServer.Live.ClientReads | dcicommon/receiver.c:207-263 | a client may read at any time, from an old connection too |
| LiveServer.Live.ClientsFollow | dcicommon/broadcast.c:472-682 | however changes, the broadcaster's steps and reads are interleaved, a client that no old command can disturb lags the arrays of the server by the queued changes only when it has caught up, and equals them when the queue is empty |
| ByteOrder.HtonlIsBigEndian | dcicommon/receiver.c:240 | a word in network byte order is four bytes, the most significant one first |
| ByteOrder.NtohlOfHtonl | dcicommon/receiver.c:240 | a word in network byte order is read back as it was written |
| Iov.UpdateIov | dcicommon/sock.c:155-172 | after a partial send or receive the vector covers exactly the places behind the ones that were handled |
| RpcWire.PacketLayout | dcicommon/rpc.c:1896-1938 | a packet is the command, the length of the body, each most significant byte first, and the body |
| RpcWire.HeaderOf | dcicommon/rpc.c:1896-1938 | any part of a packet that has the header tells its command, its body length and how much is missing |
| RpcWire.OnlyAtTheEnd | dcicommon/rpc.c:1551-1564 | reading a packet in pieces hands it over with the last piece, and not before |
| RpcWire.TakeWhole | dcicommon/rpc.c:1551-1564 | reading no further than a packet lacks hands over the first whole packet of the bytes exactly when it is complete, and nothing before |
| RpcWire.PacketsWhole | dcicommon/rpc.c:1896-1938 | the whole packets in the bytes of some requests are these requests |
| RpcWire.ExactlyOnce | dcicommon/server.c:526-600 | however a request is split into reads, it is handed over exactly once and as it was sent |
| RpcConn.Conn.SetSend | dcicommon/rpc.c:1896-1938 | what is to be sent is the header with command and length, and the body |
| RpcConn.Conn.Send | dcicommon/rpc.c:1013-1030 | after a partial send exactly the rest remains; the job waits for the response once all is sent |
| RpcConn.Conn.HeaderRead | dcicommon/rpc.c:1094-1113 | when the header completes, result and length are taken from it and body bytes that came with it are kept |
| RpcConn.Conn.Recv | dcicommon/rpc.c:1033-1117 | over any sequence of scattered reads, the job is done exactly when the whole response is there, with its result and its body |
| RpcConn.ResponseIs | dcicommon/rpc.c:1094-1117 | if the bytes received are the response that was sent, result and body are its own |
| RpcServer.ServerConn.RpsProc | dcicommon/rpc.c:1539-1578 | a header with a length asks for the body, and otherwise the procedure is called once with command and body |
| RpcServer.ServerConn.Callback | dcicommon/server.c:526-600 | with read-ahead or without, each callback takes the next bytes of the stream, loses none, and the procedure is called exactly when the request is complete |
| RpcPoll.TakeOk | dcicommon/server.c:526-600 | a callback keeps the account of what arrived: the served requests, then the one being read, what was read ahead and what is unread |
| RpcPoll.Polled.Pass | dcicommon/server.c:747-787 | a pass does nothing to a connection that waits for a request unless the kernel has bytes or the end of the stream; otherwise it serves one request or takes all there is, and what it has read ahead then waits for another pass |
| RpcPoll.Polled.ServedInOrder | dcicommon/server.c:526-600 | at all times the calls are the first of the requests that arrived, once each and in order, and the others are in the bytes not used yet |
| RpcPoll.Polled.LeftBehind | dcicommon/server.c:747-787 | when no pass does anything any more, all requests that arrived are served if and only if the last read from the kernel made no more than one of them whole; otherwise all but one of these wait |
| RpcPoll.Polled.AllServedAtEnd | dcicommon/server.c:747-787 | at the end of the stream all are served |
| RpcPoll.Polled.AllServedDirectly | dcicommon/server.c:526-600 | without read-ahead all are served |
| RpcPoll.Polled.AllServedPolitely | dcicommon/server.c:764-773 | all are served if no request comes before the response to the one before has gone out |
| RpcPoll.Polled.RequestsServed | dcicommon/server.c:747-787 | the same for requests as a client sends them, split in any way |
| RpcPoll.Polled.Settle | dcicommon/server.c:747-787 | with nothing more arriving, passes come to an end |
| RpcPoll.Polled.Happen | dcicommon/server.c:747-787 | all this holds after any series of arrivals, passes and the end of the stream |
| RpcPoll.TwoAtOnce | dcicommon/server.c:762-787 | two requests that arrive together: the first is served and the second waits |
| RpcPool.Rpc.Pop | dcicommon/rpc.c:1462-1475 | the first idle connection is taken for a check |
| RpcPool.Rpc.CountDrop | dcicommon/rpc.c:936-944 | a connection that was found dropped stops counting, in both counters |
| RpcPool.Rpc.Dial | dcicommon/rpc.c:946-955 | a new HTTP connection counts, in both counters |
| RpcPool.Rpc.Put | dcicommon/rpc.c:972-993 | a connection goes back to the list, or leaves the pool if it is HTTP and not kept alive |
| RpcPool.Rpc.Fail | dcicommon/rpc.c:763-775 | the connection of a failed request stops counting, in both counters |
| RpcPool.Rpc.Accept | dcicommon/rpc.c:1350-1363 | a new connection counts, and all idle connections are taken off the list for the scan |
| RpcPool.Rpc.ScanEnd | dcicommon/rpc.c:1398-1409 | the scan returns the valid connections and uncounts the dropped ones; httpAvail plus live HTTP connections is unchanged if and only if none of the dropped ones was HTTP |
| RpcPool.ScanLosesLimit | dcicommon/rpc.c:1382-1409 | a pool whose limit on HTTP connections is used up though it has none |
| RpcThreads.Threads.Take | dcicommon/rpc.c:916-922 | with nothing on the list a thread waits exactly if there are connections, no new one is allowed and it has not waited long enough; otherwise it dials exactly if it can |
| RpcThreads.Threads.Check | dcicommon/rpc.c:923-937 | a fine connection becomes the thread's own, a dropped one is closed |
| RpcThreads.Threads.Uncount | dcicommon/rpc.c:937-946 | the dropped one stops counting, and in the same section the thread looks at the list again or gives up waiting, under the same conditions |
| RpcThreads.Threads.Dial | dcicommon/rpc.c:947-956 | a connection of its own is the thread's, and counts |
| RpcThreads.Threads.Give | dcicommon/rpc.c:720-776 | connection after connection is given up, to the list or to be closed, whether its job succeeded or not |
| RpcThreads.Threads.Step | dcicommon/rpc.c:590-777 | each step changes its thread as specified, all jobs are attempted or none, and no other thread's connections move; httpAvail plus the live HTTP connections stays the same, except that the end of a scan takes the HTTP connections off that the scan closed |
| RpcThreads.Threads.Interleave | dcicommon/rpc.c:590-777 | after any interleaving of any number of threads and accept scans, every connection is where its thread's stage says, in one place, and the counts are right; httpAvail plus the live HTTP connections never grows, and is the same if no scan made a step |
| RpcThreads.Threads.LimitLost | dcicommon/rpc.c:1398-1409 | at any time httpAvail plus the live HTTP connections is the limit less the HTTP connections that finished scans have closed, so it is the limit exactly if there is none |
| RpcThreads.Threads.GivenUpOnce | dcicommon/rpc.c:632-775 | a thread whose run is over has given up each connection exactly as often as it has obtained it, and holds none |
| RpcThreads.Threads.StillHeld | dcicommon/rpc.c:610-775 | in the middle of a run it has given up all but those it holds, which no other thread works with; while it works every job has one |
| RpcThreads.Threads.AllOrNone | dcicommon/rpc.c:637-717 | in every schedule, all jobs of a run are attempted if a connection was found for each of them, and none otherwise |
| RpcThreads.Threads.WithSomebody | dcicommon/rpc.c:901-922 | when a thread begins to wait, some connection that counts is with a thread or with the scan, and can come back |
| RpcThreads.Threads.AllIdle | dcicommon/rpc.c:901-993 | with all runs over and no scan under way, nsocks is the length of the list |
| Tally.Sender.constructor | dcicommon/otally.c:108-193 | all nodes start on the free list |
| Tally.Sender.LinkLast | dcicommon/otally.c:258-268 | the in-place append changes the links of the new node and the last one only |
| Tally.Sender.QueueMsg | dcicommon/otally.c:258-268 | a node that is nowhere goes to the end of the queue; all nodes are then in exactly one place |
| Tally.Sender.Send | dcicommon/otally.c:390-432 | a tally is accepted exactly if a node is free, and then it is the last one in the queue |
| Tally.Sender.Grab | dcicommon/otally.c:320-325 | a thread takes the whole queue |
| Tally.Sender.SendNext | dcicommon/otally.c:334-340 | a message that could be sent is delivered and moves to the thread's own free list; otherwise nothing changes |
| Tally.Sender.FreeOne | dcicommon/otally.c:353-358 | a sent node goes back to the shared free list |
| Tally.Sender.GiveBack | dcicommon/otally.c:352-371 | after a round the thread holds nothing, what was not sent is queued again in order, and nothing is lost or delivered twice |
| TallyServer.Server.Receive | dcicommon/otally.c:508-513 | a request is counted once under its bucket and key, and its value is added there |
| TallyServer.Server.Get | dcicommon/otally.c:642-717 | a drain reports exactly what came in since the last one, and drained plus pending amounts stay equal to what was received |
| TallyServer.CountedShown | dcicommon/otally.c:511-512 | the wrapping counters show the exact amounts modulo 2^32 |
| TallyServer.ShowsSums | dcicommon/otally.c:508-513 | a table that has not been drained shows the number of requests for a key and the sum of their values, modulo 2^32 |
| Poll.PollStore.FlushEntry | dcicommon/poll.c:379-393 | a written entry is clean and the file holds its votes; a failed write changes nothing |
| Poll.PollStore.FreeEntry | dcicommon/poll.c:366-375 | an eviction changes no votes if and only if they could be written or the file already held them |
| Poll.PollStore.FlushVotes | dcicommon/poll.c:397-412 | entries that could be written are clean, the others stay dirty; with none dirty the file alone shows every poll as it is |
| Poll.PollStore.Fetch | dcicommon/poll.c:435-454 | the entry that is found or loaded holds the poll's votes, whatever is evicted for it; evicted polls lose votes exactly if they were dirty and could not be written |
| Poll.PollStore.Vote | dcicommon/poll.c:427-460 | a valid choice goes up by one, modulo 2^32, and no other count of the poll changes; other polls lose votes only by evictions that could not be written |
| Poll.PollStore.VoteAll | dcicommon/poll.c:427-460 | after any series of votes without lost writes every count is what it was and the number of votes cast for it, modulo 2^32 |
| Poll.PollStore.Vote2 | dcicommon/poll.c:464-506 | the same for adjustments: the count changes by the amount, stops at zero and wraps at 2^32 |
| Poll.PollStore.Delete | dcicommon/poll.c:510-536 | the poll is gone from the uncached table; the result tells only whether the file had it |
| Datenum.YearsToDaysCounts | dcicommon/datenum.c:79-82 | the formula for years counts the days of the Gregorian calendar |
| Datenum.MonthsToDaysCounts | dcicommon/datenum.c:74-93 | the formula for months, with its adjustment past February, counts the days before each month |
| Datenum.DaysAreCounted | dcicommon/datenum.c:47 | 1 January 1970 is day 0, and the day after a date has the next number |
| Datenum.SinceYearOne | dcicommon/datenum.c:47 | counting from the beginning of year 1 gives the same number, less the offset 719163 |
| Datenum.Date2Dn | dcicommon/datenum.c:85-96 | the day number is the number of calendar days since 1 January 1970, as an int |
| Datenum.SearchIsShort | dcicommon/datenum.c:104-106 | with an exact product the year search starts no later than the answer and at most two years early |
| Datenum.SearchStart | dcicommon/datenum.c:104 | with a product that has overflowed it starts no later than the answer either |
| Datenum.SearchStops | dcicommon/datenum.c:104-106 | the search passes all years before the answer, and stops there if and only if the number of the answer's last day fits an int |
| Datenum.SearchPassesBy | dcicommon/datenum.c:104-106 | on day 2147483456, the first in year 5879611, the search passes every year up to the right one and that one too |
| Datenum.ProductBound | dcicommon/datenum.c:104 | the 32-bit product is exact if and only if the day is at most 5368709 |
| Datenum.LastDayFits | dcicommon/datenum.c:38-44 | 31 December 14699 is day 5368699 |
| Datenum.MonthAndDay | dcicommon/datenum.c:108-116 | the day of the year is split into the calendar's month and day |
| Datenum.Dn2Date | dcicommon/datenum.c:99-117 | the date of a day number is the valid date that has it, for all days on which the search stops |
| Datenum.DatesDiffer | dcicommon/datenum.c:85-117 | no two valid dates have the same day number |
| Datenum.RoundTrip | dcicommon/datenum.c:85-117 | converting any date through year 5879610 to a day number and back gives the same date |
| IsoWeek.DayOfWeek | dcicommon/datenum.c:120-124 | the day of the week, with 1 January 1970 a Thursday |
| IsoWeek.WeekOne | dcicommon/time.c:236-260 | week 1 runs from a Monday to a Sunday and holds 4 January, and weeks and days follow each other |
| IsoWeek.Jan1WeekdayIs | dcicommon/time.c:261-265 | the formula for 1 January gives its ISO weekday |
| IsoWeek.FirstMondayIs | dcicommon/time.c:265-283 | where the Monday of the week holding 4 January lies relative to 1 January |
| IsoWeek.MonthOf | dcicommon/time.c:292-302 | the month loop splits the day of the year as the calendar does |
| IsoWeek.Week2Gregorian | dcicommon/time.c:236-308 | the date has the day number that the week date means (section 4.1.4 of ISO 8601:2004), for every year from 1 on, week 1 to 53 and weekday 1 to 7 |
| IsoWeek.WeekdayIsKept | dcicommon/datenum.c:120-124 | the day number's weekday is the one asked for |
| Ascii85.EncodeChar | dcicommon/ascii85.c:252-273 | writes the first count + 1 base-85 digits, most significant first, with line breaks |
| Ascii85.Encode | dcicommon/ascii85.c:184-250 | the byte-by-byte encoder writes the groups, line breaks and end mark of the encoding function |
| Ascii85.Decode | dcicommon/ascii85.c:133-181 | the decoder does what the decoding function says, on invalid input too |
| Ascii85.DecodeGroup | dcicommon/ascii85.c:141-157 | a whole group, z or five digits, decodes to its four bytes |
| Ascii85.TailBytes | dcicommon/ascii85.c:164-169 | for one to three bytes, adding the weight of the last digit kept restores every byte |
| Ascii85.BreaksSkipped | dcicommon/ascii85.c:175-178 | breaking the data into lines does not change what is decoded |
| Ascii85.RoundTrip | dcicommon/ascii85.c:133-326 | decoding what was encoded gives back the same bytes, for every input and every width (section 7.4.3 of ISO 32000-1) |
| Ascii85.GroupMeans | dcicommon/ascii85.c:196-273 | four zero bytes are one z; other groups have one digit more than bytes, from an exclamation mark to u, which stand for the first digits of the number that the bytes are |
| Ascii85.LinesLayout | dcicommon/ascii85.c:207-238 | every character is in its place, and after every width + 1 of them there is a line break |
| Ascii85.LinesAreShort | dcicommon/ascii85.c:207-238 | no line of the output is longer than width + 1 characters |
| Ascii85.EndlessWhen | dcicommon/ascii85.c:133-181 | on any input, the decoder reads for ever if and only if it comes to a tilde that is followed by one character or more, all white space |
| Ascii85.EndlessInput | dcicommon/ascii85.c:158-163 | the decoder does not stop on a tilde and a line break |

## Left out

- BucketFile.Dbf.Alloc: the avail blocks that the source stacks in the file are not looked at.
- BucketFile.Dbf.SplitBucket: a split that new blocks do not fit for may still succeed in the source if the free lists have regions for it; that case has no condition here.
- BucketFile.Dbf.FreeRegion: the header's avail table has no size limit, so the stack of avail blocks is not modelled, nor is the shifting of regions between header and bucket.
- BucketFile.Dbf.Delete: it marks the cache entry as changed itself, which the source leaves to `_gdbm_end_update`; writing header, directory and buckets out at the end of an update is not modelled.
- BucketFile.Dbf.Store: replacing the data of an existing key, and a key and data that are both empty, are left out; like deleting, it marks the cache entry as changed itself.
- BucketFile.Dbf.Find: the one-element data cache of a bucket is left out, and comparing keys is a predicate on elements.
- Buckets are values inside cache entries, so that the source's separate pointers to the current bucket and to its cache entry cannot disagree.
- NvArray.NvArray.SetVar: statistics counters, locks and the file that arrays are saved to are left out, and sizes are unbounded.
- NvClient.NvClient.RecvUpdate: what a client that is itself a server hands on to its own clients is done but not stated; a string that is cut off by the end of the message ends there; what lies behind the buffer is not modelled.
- Receiver.Sock.RecvMsg: lengths of 2^31 and more, which the source turns into negative sizes, are read as large lengths.
- Broadcast.Broadcaster.Turn: send timeouts and shutdown are left out, and an initial message procedure is always present.
- TurnRuns.TurnIsRun: the initial messages are given and no array changes during the turn; `LiveServer.Live` has neither restriction.
- LiveServer.Live.SetVar: every change is broadcast at once; changes that are logged first and broadcast together later are modelled in `NvArray` only.
- Replication.Converges: clients hold exactly the server's array names; further arrays of a client would never be named by a message.
- RpcConn.Conn.Recv: the HTTP branch is left out, and without an output buffer the body is kept beside the header instead of over it.
- RpcServer.ServerConn.Callback: sending the response is one step, because the source's own iovec update on a partial send goes on after a partly sent piece.
- RpcThreads.Threads.Step: timeouts and I/O errors are the given outcome of each job, all jobs of a run use one pool, and statistics and log messages are left out.
- Tally.Sender.SendNext: sending a message is one step that succeeds or fails.
- TallyServer.Server.Get: reading sums back from a file, which overwrites them, is left out.
- Poll.PollStore.Fetch: a record is a sequence of whole counts, so one whose length is not a multiple of four bytes is not modelled.
- Datenum.Date2Dn: dates before 1 January of year 1 are not valid dates.
- `GetWeekCmd` in `dcicommon/time.c` is not the inverse of `Week2GregorianCmd` and is left out.
- Tcl commands, configuration, logging, sockets, threads and HTTP: interface code without a deep property of its own.
