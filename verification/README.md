# Proofs about the engine core

A Dafny model of the parts of the mini-app engine that can be right or wrong on their own: the document tree and its
transaction log, the reference-counted heap, the WebSocket framing, MD5, the dispatch queue, Base64, the flow layout,
the binary records, URIs, paths, buffered streams, and the template compiler's search for free names. Sockets, scripts
and native views are outside.

`dafny verify dfyconfig.toml` checks everything.

## How the model is made

Code that updates fields, arrays or lists in place is a class or a method with loops here too, and is proved against
functions on values; what the code promises is then proved about those functions, for all inputs and all runs.

| files | what they hold |
|---|---|
| `DomModel`, `Siblings`, `Replication`, `Document` | the tree as a value with its laws; the five pointers of an element; commands, recording and dispatch; the classes `Element` and `Document` |
| `Bits`, `Bio`, `Buffer`, `Records`, `Archiver`, `CommandLog`, `Transaction` | powers of two and bitwise or, integers as bytes, the growable buffer, the record format and its reader, the archiver, commands as records, transactions as bytes |
| `Ownership`, `RefCount` | the heap of counted objects and slots as a value with its invariant; `retain`, `release`, `Strong`, `Weak` and `Atomic` as methods |
| `Frames`, `WebSocket`, `ClientFrames` | decoding a whole stream of frames; the incremental parser; the masking writer and a reader for it |
| `Md5Block`, `Md5`, `Md5Vector` | the block function, the streaming state, and a digest of the test suite of RFC 1321 worked out |
| `Dispatch` | the queue's mutex, condition variable and threads as a state machine |
| `Base64Codec`, `Base64` | the tables, the slow state machine and the decoder of the standard; the loops with the fast path |
| `Flow`, `Layout` | the geometry of lines and boxes; measuring and placing elements |
| `Paths`, `UriText`, `UrlCodec`, `Uri`, `Streams`, `Template` | splitting, joining and normalising; the parts of a URI; escapes and queries; the URI object; buffered streams; names in templates |

Bytes are integers from 0 to 255, except in MD5, where they are bit-vectors. An element id, an object or a slot is a
number, and 0 stands for null. What the operating system decides (how much a read or write moves, when a thread runs,
a mask key, what laying out one element yields) is a parameter or an arbitrary choice.

## Where the code does not do what one would expect

Each of these is proved: the exact condition, or what happens instead, and for most of them an input that shows it.

- `append`, `before` and `after` do not look for cycles: an append keeps the forest acyclic exactly if the moved element is not the target or above it, the others exactly if it is not strictly above it.
- A replica lacks attributes that hold the empty text, because an erased attribute is recorded as an empty one.
- `WebSocket::write` sends pings of more than 125 bytes, which the standard's reader must refuse.
- `sync` waits once, without a loop: after a spurious wakeup it returns in time exactly if the worker has just run its function and is about to broadcast.
- An escape in a query that cannot be read stands for what the escape before it did; one with a single digit takes the next character with it.
- `toString` of a URI drops a query or fragment that is present and empty; a `://` inside a query is taken for the end of the scheme.
- A printed query can be read back exactly if no key has `&` or `=` in it and no value a NUL; keys are not escaped, and an escaped NUL in a query is read, but not printed.
- A `..` at the root takes the root away, so that normalising `/../a` gives the relative path `a`, and `/` alone becomes the empty text; a normal path is absolute exactly if the count of its segments says so.
- A pong or a continuation that is cut into several reads has the rest of its payload read as frames; a first fragment is delivered as a whole message as soon as anything follows it.
- The template compiler never collects the root of a callee, an identifier that is a computed key, or a name that every object inherits.
- `BufferOutputStream::write` keeps the bytes even when it reports that the sink failed.

## Model

| member | source | states |
|---|---|---|
| DomModel.WithoutAt | document/element.cc:234-279 | deleting a child leaves the other children, in their order |
| DomModel.InsertBeforeAt | document/element.cc:137-183 | the child lands directly before the target; all others keep their order |
| DomModel.InsertAfterAt | document/element.cc:185-232 | the child lands directly after the target; all others keep their order |
| DomModel.RemoveLinked | document/element.cc:234-279 | removal keeps parents and child lists consistent, without duplicates |
| DomModel.AppendLinked | document/element.cc:95-135 | so does append, with no condition on the elements |
| DomModel.BeforeLinked | document/element.cc:137-183 | so does before, including `x.before(x)` and a target without parent |
| DomModel.AfterLinked | document/element.cc:185-232 | so does after |
| DomModel.RemoveMoves | document/element.cc:234-279 | every node but the moved one and its old parent is unchanged, and the old child list is the old one without it |
| DomModel.AppendMoves | document/element.cc:95-135 | the new child list is the old one with the element deleted and put at its end |
| DomModel.BeforeMoves | document/element.cc:137-183 | the new child list is the old one with the element deleted and put right before the target, also when they were neighbours |
| DomModel.AfterMoves | document/element.cc:185-232 | the same, right after the target |
| DomModel.RemoveAcyclic | document/element.cc:234-279 | removal never closes a cycle of parents |
| DomModel.AppendAcyclic | document/element.cc:95-135 | an append leaves the forest acyclic if and only if the appended element is not the target or above it: the code has no guard |
| DomModel.BeforeAcyclic | document/element.cc:137-183 | a before leaves it acyclic if and only if the moved element is not strictly above the target |
| DomModel.AfterAcyclic | document/element.cc:185-232 | the same for after |
| DomModel.MovesThatCycle | document/element.cc:95-232 | in every document, appending an element to itself, or putting its parent into it or beside it, closes a cycle |
| Siblings.UnhookFields | document/element.cc:234-279 | what the five pointer assignments of a removal change, link by link |
| Siblings.UnhookChained | document/element.cc:234-279 | after a removal first, last, next, prev and parent still spell out every child list |
| Siblings.HookFields | document/element.cc:95-232 | what the assignments of an insertion change, link by link |
| Siblings.HookChained | document/element.cc:95-232 | after an insertion between any two neighbours the pointers still spell out every child list |
| Siblings.Neighbours | document/element.cc:234-279 | the prev and next pointers of a child are its neighbours in the list |
| Documents.Element.Unlink | document/element.cc:234-265 | the pointer surgery of remove: exactly the links of the element, its neighbours and its parent change |
| Documents.Element.Remove | document/element.cc:234-279 | the heap of elements afterwards is the model's removal, and the recorded command is the model's |
| Documents.Element.LinkLast | document/element.cc:95-135 | the pointer surgery of append |
| Documents.Element.Append | document/element.cc:95-135 | first the removal, then the element is the last child; both commands are recorded in order; null does nothing |
| Documents.Element.LinkBefore | document/element.cc:137-183 | the pointer surgery of before |
| Documents.Element.Before | document/element.cc:137-183 | the state and the recorded commands are those of the model; null does nothing |
| Documents.Element.MoveBefore | document/element.cc:139-183 | the element is removed first; if that has taken the parent of the target away, nothing is inserted or recorded |
| Documents.Element.LinkAfter | document/element.cc:185-232 | the pointer surgery of after |
| Documents.Element.After | document/element.cc:185-232 | the state and the recorded commands are those of the model; null does nothing |
| Documents.Element.MoveAfter | document/element.cc:187-232 | the same for after |
| Documents.Element.Set | document/element.cc:341-373 | afterwards the key has exactly the value, whatever it had, or is gone; all other keys and elements are as they were; installs the key, and records the key and the value (the empty text for an erased one) |
| Documents.Document.constructor | document/document.cc:217-219 | an empty document |
| Documents.Document.CreateElement | document/document.cc:258-328 | the id, the tables by id and by name, `_autoKey` and the recorded command |
| Documents.Document.Allot | document/document.cc:264-268 | a new id is above every id in use; a given id raises `_autoKey` |
| Documents.Document.Register | document/document.cc:301-301 | the new element is alone, and entered under its id |
| Documents.Document.ListByName | document/document.cc:303-311 | and behind the elements of its name |
| Documents.Document.ElementKey | document/document.cc:346-371 | the key of a name, made and recorded when it is new |
| Documents.Document.SetKey | document/document.cc:454-460 | both key tables, and `_autoKey` raised to the key |
| Documents.Document.SetRootElement | document/document.cc:229-241 | the root, and the recorded command |
| Documents.Document.ExecCommand | document/document.cc:520-524 | records a command, only while a transaction is open |
| Documents.Document.StartTransaction | document/document.cc:373-375 | opens an empty log |
| Documents.Document.CommitTransaction | document/document.cc:377-388 | closes the log and hands over its commands, or nothing if it is empty |
| Documents.Document.DispatchCommand | document/document.cc:526-623 | each command class does to the document what the model says; commands on unknown ids do nothing, and an unknown root is none |
| Documents.Document.SetTransaction | document/document.cc:390-432 | dispatches a list of commands in order |
| Documents.Document.Execute | document/document.cc:258-371 | one operation of a program on the heap is the model's step |
| Documents.Document.Transact | document/document.cc:373-388 | a transaction around any run of operations yields exactly the model's log |
| Documents.ReplicaOf | document/document.cc:390-432 | dispatching a log on a new document gives the state the model computes from it |
| Documents.RecordingOf | document/document.cc:373-388 | a run recorded from a new document |
| Documents.Replicate | document/document.cc:390-432 | two documents on the heap: a recorded run, replayed on the other, gives the same ids, names, trees, root, keys and counter, and the same attributes once empty ones are dropped |
| Replication.StepConsistent | document/document.cc:258-371 | every operation keeps links, key tables (mutually inverse) and the counter consistent |
| Replication.StepReplicates | document/document.cc:526-623 | dispatching the commands of one operation on the visible part of a state gives the visible part of its result |
| Replication.RunReplicates | document/document.cc:526-623 | the same for every run, from every consistent state |
| Replication.Replicates | document/document.cc:526-623 | for every run from the empty document the replica is the visible part of the original |
| Replication.ReplicaExact | document/document.cc:526-623 | the replica is equal to the original if and only if no attribute holds the empty text |
| Replication.EmptyValueLost | document/document.cc:526-623 | a run after which they differ: the empty text as value is an erased attribute on the replica |
| Replication.DispatchAppend | document/document.cc:390-432 | dispatching two logs one after the other is dispatching their concatenation |
| Replication.RemoveTwice | document/document.cc:526-623 | dispatch repeats the removal that append, before and after record: removing again changes nothing |
| Replication.AttributeStored | document/element.cc:341-373 | an assignment stores the value over whatever was there, or erases it, and changes nothing else but giving the name its number |
| Replication.ElementCreated | document/document.cc:258-328 | a new element is alone, without attributes, under a new number, behind those of its name |
| Replication.OperationsRecord | document/document.cc:14-213 | the commands each operation records, in order: a move records the removal first, an attribute its key if that is new |
| Replication.CommandsDo | document/document.cc:526-623 | what each command changes when it is dispatched, and that it changes nothing else |
| Replication.StepAcyclic | document/element.cc:95-279 | one operation leaves an acyclic forest acyclic if and only if it is no move below itself |
| Replication.RunAcyclic | document/element.cc:95-279 | a run never has a cycle on its way if and only if every move in it is such where it is made |
| Replication.EmptyRunAcyclic | document/element.cc:95-279 | so for every run from the empty document |
| Bio.DecodeEncode | core/bio.cc:33-57 | decoding the bytes of any two's-complement integer gives it back |
| Bio.EncodeDecode | core/bio.cc:83-111 | encoding what was decoded gives the bytes back |
| Bio.LittleEndianModulo | core/bio.cc:33-57 | the bytes are those of the value modulo a power of 256 |
| Bio.LittleEndianAt | core/bio.cc:33-57 | byte i is the value divided by 256 to the i, cut to eight bits |
| Bio.KnownBytes | core/bio.cc:33-57 | the bytes of 0x01020304, -1 and -2 |
| Bio.Encode | core/bio.cc:33-57 | the shifting loop writes exactly those bytes, and no others |
| Bio.Decode | core/bio.cc:83-111 | or-ing each byte, shifted into place, into the word yields the signed value of the bytes |
| Bits.OrDisjoint | core/bio.cc:83-111 | because the or of numbers without a common bit is their sum |
| Buffers.Buffer.constructor | core/kk.cc:267-269 | an empty buffer of 2048 bytes in line |
| Buffers.Buffer.Capacity | core/kk.cc:296-309 | growing, also from the inline block to the heap, keeps the contents |
| Buffers.Buffer.Append | core/kk.cc:311-317 | the contents are followed by the new bytes |
| Buffers.Buffer.Drain | core/kk.cc:346-353 | the first bytes are gone, the rest is in place |
| Archivers.WriteFrame | core/archiver.cc:174-195 | type byte, four length bytes, payload; the bytes before are kept |
| Archivers.MemArchiver.EncodeValue | core/archiver.cc:174-195 | one frame is appended to what has been written |
| Archivers.MemArchiver.Encode | core/archiver.cc:14-90 | one value, however deeply nested, is appended as its frames |
| Archivers.MemArchiver.EncodeBracketed | core/archiver.cc:14-29 | begin marker, members, end marker |
| Archivers.MemArchiver.EncodeAll | core/archiver.cc:82-90 | a list of values |
| Records.DecodingInverts | core/archiver.cc:14-90 | the walk over the frames recovers every nested list of values with NUL-free texts |
| Records.EncodingInjective | core/archiver.cc:174-195 | so no two lists have the same bytes |
| Records.EncodingAppend | core/archiver.cc:174-195 | archiving two lists one after the other is archiving their concatenation |
| Records.ReadFramesInverts | core/archiver.cc:174-195 | bytes are cut into frames in one way only |
| Records.ReadValuesInverts | core/archiver.cc:14-29 | frames are bracketed into values in one way only |
| Records.KnownRecords | core/archiver.h:16-28 | the bytes of each kind of value: type number, length and payload, with the final zero of a text |
| Records.KnownBrackets | core/archiver.cc:14-29 | objects and arrays are 8 or 9 with no payload, their parts, and 10 with none |
| CommandLog.RecordInverts | document/document.cc:14-213 | each of the eight command classes can be read back from its record |
| CommandLog.CommandBytes | document/document.cc:14-213 | the bytes of each command class: its number and its fields in order, as an object |
| CommandLog.LogInverts | document/document.cc:377-388 | the commands of a transaction can be read back from its bytes |
| CommandLog.RunWritable | document/document.cc:14-213 | every command of a run fits its record if the texts do and the ids stay below 2^63 |
| CommandLog.ReplicatesThroughBytes | document/document.cc:390-432 | replication holds through the archived bytes, read by the definition of the format |
| CommandLog.Archive | document/document.cc:520-524 | the archiver's bytes of a log are its encoding, and can be read back to that log |
| Transactions.Commit | document/document.cc:377-388 | the bytes of what has been recorded, or null for nothing; the recorder is off |
| Transactions.Apply | document/document.cc:390-432 | the commands that the bytes hold, by the definition of the format, are dispatched in order; null does nothing |
| Transactions.Synchronise | document/document.cc:373-432 | on the heap: the bytes of any run on a new document, applied to another one, make the two agree on all visible state |
| RefCount.Heap.Retain | core/kk.cc:73-93 | one reference more |
| RefCount.Heap.Release | core/kk.cc:36-71 | one reference less; at zero the object is gone, above zero nothing is deleted; the survivors are the greatest set that keeps itself alive, objects in destruction, and those never retained |
| RefCount.Heap.ReleaseContent | core/kk.h:199-207 | the old content of a slot is released while the slot still names it, with the same survivors |
| RefCount.Heap.Expire | core/kk.cc:47-69 | at zero the object is queued and the queue drained: the object is gone with all that hangs on it |
| RefCount.Heap.Unlock | core/kk.cc:152-177 | the queued object is deleted with all that hangs on it, and the queue is empty again |
| RefCount.Heap.AddObject | core/kk.cc:212-228 | queues the object and clears every Weak slot that points to it |
| RefCount.Heap.Delete | core/kk.cc:152-177 | the cascade through the members of a deleted object ends, and keeps the invariant |
| RefCount.Heap.DestroyMembers | core/kk.h:160-164 | a destructor gives up all slots of its object, each once |
| RefCount.Heap.DestroyStrong | core/kk.h:160-164 | a destroyed Strong slot releases what it held |
| RefCount.Heap.DestroyWeak | core/kk.h:220-224 | a destroyed Weak slot is taken out of the table |
| RefCount.Heap.UnWeak | core/kk.cc:194-210 | takes one slot out of the entry of an object |
| RefCount.Heap.Register | core/kk.cc:179-192 | puts one slot into the entry of an object |
| RefCount.Heap.NewObject | core/kk.cc:15-20 | a new object has count zero |
| RefCount.Heap.NewSlot | core/kk.h:153-159 | a new slot is empty |
| RefCount.Heap.StrongSet | core/kk.h:199-207 | afterwards the slot holds the new object, and alive is exactly what keeps itself alive, starting from variables and never-retained objects; members of objects under construction included |
| RefCount.Heap.DropVariable | core/kk.h:160-164 | a variable goes out of scope; exactly what then nothing keeps alive is deleted |
| RefCount.Heap.WeakSet | core/kk.h:260-268 | the slot leaves one entry and enters the other: afterwards it holds exactly the object, whatever other slots do, and all other slots hold what they held |
| RefCount.Heap.DropWeak | core/kk.h:220-224 | a Weak slot goes out of scope |
| RefCount.Perform | core/kk.h:153-268 | each call of a program has exactly its effect on the quiet heap: what its slot holds afterwards, which objects are deleted, that other slots and table entries hold what they held |
| RefCount.RunCalls | core/kk.h:153-268 | and every run of calls is a chain of such effects, from quiet heap to quiet heap |
| RefCount.DeletedOnce | core/kk.cc:152-177 | over every run no object is deleted twice, and none comes back |
| Ownership.QuietFacts | core/kk.cc:36-93 | what the invariant says when nothing is under way: counts are the numbers of Strong slots, no slot dangles, a Weak slot holds an object exactly if the table says so, nothing deleted is alive, and alive is exactly what keeps itself alive and what has never been retained |
| Ownership.Survivors | core/kk.cc:36-71 | after a cascade that has spared the greatest self-supporting set, that set, the objects in destruction and those never retained are all that is left |
| Ownership.LastingSupported | core/kk.h:199-207 | there is a greatest such set |
| Ownership.RetainedInv | core/kk.cc:73-93 | retaining keeps the invariant |
| Ownership.DroppedInv | core/kk.cc:36-60 | counting down keeps it while the count is not zero |
| Ownership.QueuedInv | core/kk.cc:36-71 | queueing at zero keeps it |
| Ownership.BuriedInv | core/kk.cc:152-177 | freeing a destructed object keeps it |
| Ownership.UnregisteredInv | core/kk.cc:194-210 | leaving the weak table keeps it |
| Ownership.RegisteredInv | core/kk.cc:179-192 | entering the weak table keeps it |
| Ownership.WeakHeld | core/kk.h:260-268 | a Weak slot that is set holds the object and is in its entry, and nothing else has changed |
| Ownership.ChainLasts | core/kk.h:199-207 | the objects on a path from a variable that avoids the assigned slot are in it, whatever is assigned |
| Ownership.OwnerOnChainLasts | core/kk.h:199-207 | so a slot can be assigned if it is a variable, a member of an object not yet retained, or a member of an object on such a path |
| Ownership.AssignSupport | core/kk.h:199-207 | if the owner of the slot outlasts the release, the assignment meets what the release asks for |
| Ownership.LastReference | core/kk.h:199-207 | an object that one slot alone holds is deleted when that slot is assigned something else |
| Frames.ParseHeadStable | core/WebSocket.cc:182-233 | more bytes behind a complete header do not change how it is read |
| Frames.DecodeMore | core/WebSocket.cc:154-281 | what has been decoded of a stream stays decoded when more arrives, and the rest is decoded with it |
| Frames.HeaderParses | core/WebSocket.cc:182-233 | the header of every frame a server may send is read back to its type and length (section 5.2 of RFC 6455) |
| Frames.NetworkOrderInverts | core/WebSocket.cc:222-229 | the extended length is read back |
| Frames.WireDecodes | core/WebSocket.cc:154-281 | the bytes of any list of final, unmasked text, binary and ping frames decode to exactly their payloads, with nothing left |
| Frames.FirstBytes | core/WebSocket.cc:184-218 | the complete table of the first two bytes: which are text, binary, ping, close, refused, or handled apart (section 5.2 of RFC 6455) |
| Frames.LengthBytes | core/WebSocket.cc:222-229 | the length field in its three forms |
| WebSockets.WebSocket.OnReading | core/WebSocket.cc:154-281 | for every input the state afterwards is the one the branches lead to; for ordinary frames the loop with its half-read body delivers exactly what the pending bytes decode to, closes on exactly the malformed frames, and keeps the rest |
| WebSockets.WebSocket.CollectBody | core/WebSocket.cc:161-180 | for every state; of an ordinary frame the body is delivered exactly when its last byte has come |
| WebSockets.WebSocket.ReadFrame | core/WebSocket.cc:182-276 | for every input; an ordinary frame, complete or only begun, is taken off it |
| WebSockets.WebSocket.TakePayload | core/WebSocket.cc:237-274 | as much of the payload as has arrived, for every kind of frame |
| WebSockets.WebSocket.Receive | core/WebSocket.cc:154-281 | any sequence of reads leaves the state of the read events one by one, and of ordinary frames delivers what the concatenation decodes to |
| WebSockets.ReceiveFrames | core/WebSocket.cc:154-281 | so for every list of legal frames and every way of cutting its bytes into reads, exactly the payloads and types arrive in order, and body and input end empty |
| WebSockets.ShortFrames | core/WebSocket.cc:154-281 | on a new connection the bytes 0x81, 0x82 and 0x89 with a length and a payload deliver exactly a text, a binary or a ping, and 0x88 closes |
| WebSockets.FrameStarted | core/WebSocket.cc:222-274 | a long frame waits for all of its header, and then what there is of the payload is put aside |
| WebSockets.BodyCollected | core/WebSocket.cc:161-180 | the rest of a started frame is taken when all of it has come, and not before |
| WebSockets.Refused | core/WebSocket.cc:192-220 | masked frames, reserved bits, unknown types, and fragmented or long control frames end the connection, and change nothing else |
| WebSockets.FragmentDelivered | core/WebSocket.cc:248-274 | a first fragment is not put together with the rest, but delivered as a whole message as soon as anything follows it |
| WebSockets.PongCut | core/WebSocket.cc:237-246 | a pong in one piece changes nothing; cut after its header, its payload is read as frames |
| WebSockets.PongCutCloses | core/WebSocket.cc:237-246 | so the same four bytes can end a connection or leave it alone |
| WebSockets.ContinuationCut | core/WebSocket.cc:248-274 | a final continuation in one piece is a message of its own without a type; cut after its header, its payload is read as frames |
| ClientFrames.XorTwice | core/WebSocket.cc:358-361 | masking a byte twice is no masking |
| ClientFrames.MaskedTwice | core/WebSocket.cc:358-361 | so a receiver undoes the mask with the same key (section 5.3 of RFC 6455) |
| ClientFrames.XorBit | core/WebSocket.cc:358-361 | each bit of an exclusive or is one where exactly one of the two is |
| ClientFrames.MaskedBit | core/WebSocket.cc:358-361 | each bit of each byte is flipped exactly where the key byte of its turn has a one |
| ClientFrames.FrameWritten | core/WebSocket.cc:306-364 | the bytes of a frame: 0x81, 0x82 or 0x89, the masked length in the shortest form, key, payload |
| ClientFrames.ClientLength | core/WebSocket.cc:330-342 | the length is in the form the header announces, and that form is the shortest |
| ClientFrames.FrameInverts | core/WebSocket.cc:306-364 | a reader of sections 5.2 and 5.3 of RFC 6455 gets type and payload back if and only if a ping has at most 125 bytes, which the code does not check |
| ClientFrames.LongPing | core/WebSocket.cc:306-364 | a ping of more bytes is written all the same, and refused |
| ClientFrames.StreamInverts | core/WebSocket.cc:306-364 | any list of legal writes, under any keys, is read back from the concatenated output |
| ClientFrames.Writer.Write | core/WebSocket.cc:306-364 | the output grows by exactly the masked frame; without connection or type by nothing |
| ClientFrames.FillHeader | core/WebSocket.cc:312-342 | the frame array holds the header of the message |
| ClientFrames.PutNetworkOrder | core/WebSocket.cc:334-341 | most significant byte first |
| Md5Block.SetF | lib/md5/md5.c:199-223 | one step of round 1 is the operation of section 3.4 of RFC 1321 with the word, shift and constant of its number |
| Md5Block.SetG | lib/md5/md5.c:225-249 | the same for round 2 |
| Md5Block.SetH | lib/md5/md5.c:251-275 | the same for round 3 |
| Md5Block.SetI | lib/md5/md5.c:277-301 | the same for round 4 |
| Md5Block.Rounds | lib/md5/md5.c:199-301 | the 64 written-out steps, with their rotating registers and listed words and shifts, are the 64 operations given by formula |
| Md5Block.Process | lib/md5/md5.c:131-310 | and the sums with the old words make the new ones |
| Md5Block.Chooses | lib/md5/md5.c:199-249 | the first function takes a bit of y where that of x is one, else of z; the second is the first with its arguments turned (section 3.4) |
| Md5Block.Parity | lib/md5/md5.c:251-275 | the third is symmetric, and two equal arguments cancel out |
| Md5Block.Flips | lib/md5/md5.c:277-301 | the fourth flips a bit of y where that of x is one or that of z is zero |
| Md5Block.Keeps | lib/md5/md5.c:277-301 | and keeps it elsewhere |
| Md5Block.RotatesBy7 | lib/md5/md5.c:199-223 | rotation moves the high bits to the low end and all others up |
| Md5Block.WordsOfTwo | lib/md5/md5.c:225-249 | round 2 starts at word 1 and moves on by 5 places |
| Md5Block.WordsOfThree | lib/md5/md5.c:251-275 | round 3 starts at word 5 and moves on by 3 |
| Md5Block.WordsOfFour | lib/md5/md5.c:277-301 | round 4 starts at word 0 and moves on by 7 |
| Md5.FoldPrefix | lib/md5/md5.c:322-358 | bytes that come later do not change the words of earlier blocks |
| Md5.OffsetFromCount | lib/md5/md5.c:327-327 | the place in the block can be read off the low word of the bit count, even after it has wrapped |
| Md5.CountStep | lib/md5/md5.c:333-337 | the two words hold the bit length modulo 2^64: the carry test by comparison is right |
| Md5.Md5State.constructor | lib/md5/md5.c:312-320 | the initial words and an empty message |
| Md5.InitialBytes | lib/md5/md5.c:312-320 | the bytes of the initial words, as section 3.3 lists them |
| Md5.Md5State.Count | lib/md5/md5.c:333-337 | the count after an append |
| Md5.Md5State.Complete | lib/md5/md5.c:340-350 | a partial block is completed and processed |
| Md5.Md5State.AppendAligned | lib/md5/md5.c:352-358 | whole blocks are processed, and the leftover is kept |
| Md5.Md5State.Append | lib/md5/md5.c:322-358 | for every state, offset and length: count, words and leftover are those of the longer message; nothing happens for a length of zero or less |
| Md5.PaddedWhole | lib/md5/md5.c:360-381 | the padded message ends on a block boundary for every length |
| Md5.NoShorter | lib/md5/md5.c:375-376 | no shorter padding with the one bit would do |
| Md5.PadCount | lib/md5/md5.c:375-376 | the padding length computed from the wrapped count is that of the message length |
| Md5.CountBytes | lib/md5/md5.c:372-374 | the eight length bytes are those of section 3.2 of RFC 1321 |
| Md5.KnownLength | lib/md5/md5.c:372-374 | the bytes of a length of 0x0102030405060708 bits, lowest first |
| Md5.LengthWraps | lib/md5/md5.c:333-337 | 2^64 bits more make no difference |
| Md5.Md5State.Finish | lib/md5/md5.c:360-381 | the result is the digest of RFC 1321: all blocks of message, padding and length, and the words in the byte order of section 3.5 |
| Md5.DigestOfChunks | lib/md5/md5.c:322-381 | every way of cutting a message into appends gives the digest of the message |
| Md5Vector.AlphabetDigest | lib/md5/md5.c:131-310 | the digest of the small letters a to z is that of the test suite of RFC 1321, by all 64 operations |
| Dispatch.InitialInv | core/dispatch-event.cc:18-26 | the invariant holds at the start |
| Dispatch.ClientInv | core/dispatch-event.cc:39-67 | it is kept by every action of a client in async and sync |
| Dispatch.WorkerInv | core/dispatch-event.cc:73-97 | and by every action of the worker in loop |
| Dispatch.RunningInv | core/dispatch-event.cc:90-91 | and by what a running function does: async and sync on its own queue, and returning |
| Dispatch.ReachableInv | core/dispatch-event.cc:39-97 | so by every interleaving |
| Dispatch.MutualExclusion | core/dispatch-event.cc:39-97 | at most one thread is between lock and unlock |
| Dispatch.FirstInFirstOut | core/dispatch-event.cc:39-97 | functions start in the order they were queued, each at most once, and each returns before the next starts; what has not started is still in the queue |
| Dispatch.NoLostWakeup | core/dispatch-event.cc:59-64 | when the worker broadcasts for a sync, its caller is already waiting for this very closure, and wakes up |
| Dispatch.SyncReturnsAfterRun | core/dispatch-event.cc:49-67 | a sync from another thread returns only after its function has run and returned |
| Dispatch.SpuriousReturns | core/dispatch-event.cc:64-66 | from every state in which a client waits while the mutex is free, a wakeup that nobody sent and two steps of its own take it out of sync, with no function run |
| Dispatch.WaitingPast | core/dispatch-event.cc:49-97 | in every reachable state a waiting client's function has returned if and only if the worker stands between that function and the broadcast for it |
| Dispatch.SpuriousBreaksIff | core/dispatch-event.cc:64-66 | so in every reachable such state sync returns in time after that wakeup if and only if the worker stands there |
| Dispatch.SpuriousWakeup | core/dispatch-event.cc:49-67 | and such a state is reached from the start |
| Dispatch.FinishingLowersWork | core/dispatch-event.cc:39-97 | every step that is not a new call or an idle tick brings the end nearer |
| Dispatch.NoDeadlock | core/dispatch-event.cc:39-97 | as long as a call is under way or a function queued, such a step is possible |
| Dispatch.Finishes | core/dispatch-event.cc:39-97 | so from every reachable state all calls can return, and all queued functions have run then |
| Dispatch.NothingLost | core/dispatch-event.cc:39-67 | over every run, what has been queued or is going to be is exactly what was asked for, each function as often |
| Dispatch.AllRun | core/dispatch-event.cc:39-97 | once all is quiet, exactly what was asked for has run |
| Dispatch.AllWillRun | core/dispatch-event.cc:39-97 | and every run without spurious wakeups can be brought there, by steps that ask for nothing more |
| Dispatch.LogsGrow | core/dispatch-event.cc:39-97 | what has been queued, started or returned stays so, in order |
| Dispatch.StepsPossible | core/dispatch-event.cc:39-97 | who can go on while the mutex is free, and that its holder always can |
| Dispatch.NestedReturns | core/dispatch-event.cc:53-57 | a sync on the queue itself runs inline: functions return once all those inside them have |
| Dispatch.CallsPossible | core/dispatch-event.cc:39-67 | an idle client may always call, and a running function may always call or return |
| Base64Codec.TablesInvert | core/crypto.cc:38-63 | a character stands for a value exactly if it is the character of that value |
| Base64Codec.Alphabet | core/crypto.cc:38-63 | the 64 characters in their order: A to Z, a to z, 0 to 9, + and / (section 4 of RFC 4648) |
| Base64Codec.OutsideAlphabet | core/crypto.cc:38-63 | of the other bytes = is padding, tab, line feed, carriage return and space are ignored, and all else is an error |
| Base64Codec.EncodeLength | core/crypto.cc:65-119 | four characters for every three bytes begun |
| Base64Codec.RoundTrip | core/crypto.cc:65-219 | decoding an encoding gives the bytes back, for all of them |
| Base64Codec.WhitespaceIgnored | core/crypto.cc:168-170 | texts that differ only in tabs, line feeds, carriage returns and spaces decode alike |
| Base64Codec.ConcatDecodes | core/crypto.cc:160-205 | after a text that decodes, another one decodes as it does alone, to both results in order |
| Base64Codec.DecodeIsReference | core/crypto.cc:160-205 | without whitespace the state machine is the decoder by quantums of section 4 of RFC 4648, rejecting exactly what that rejects |
| Base64Codec.SlowQuantum | core/crypto.cc:160-205 | four characters are a quantum exactly with padding only at its end |
| Base64Codec.BitsDecode | core/crypto.cc:160-205 | where each six bits go, the highest first; the bits in front of padding that fill no byte are dropped, whatever they are |
| Base64Codec.Foobar | core/crypto.cc:65-119 | the test vectors of section 10 of RFC 4648 for foob, fooba and foobar |
| Base64.OrShifted | core/crypto.cc:143-146 | or-ing a sign-extended entry into a shifted value: a negative entry covers all above it |
| Base64.SignTrick | core/crypto.cc:143-151 | the sum of the fast path is negative if and only if some table entry is, and else it is the value of the slow path |
| Base64.FastQuantum | core/crypto.cc:141-156 | a round of the fast path is four rounds of the slow one |
| Base64.FastLoop | core/crypto.cc:141-157 | the fast path changes nothing of the result |
| Base64.SlowLoop | core/crypto.cc:159-206 | one quantum, the end, or an error, as the state machine says |
| Base64.DecodeBase64 | core/crypto.cc:121-219 | success and bytes are those of the state machine alone; the writes stay within the capacity reserved; a failed decode leaves length and contents as they were |
| Base64.EncodeFull | core/crypto.cc:82-93 | the groups of three bytes |
| Base64.EncodeLast | core/crypto.cc:95-115 | the last one or two bytes, with padding |
| Base64.EncodeBase64 | core/crypto.cc:65-119 | the encoding is appended, within the capacity reserved |
| Flow.FitsInWidth | document/LayoutElement.cc:411-419 | every box but the first of its line ends within the width less the padding on the right |
| Flow.BreaksLate | document/LayoutElement.cc:411-419 | a line is broken only before a box that would not have fitted |
| Flow.NoWrapOneLine | document/LayoutElement.cc:411-419 | the horizontal layout has one line |
| Flow.StartsGrow | document/LayoutElement.cc:364-439 | lines are runs of boxes in the order of the visit |
| Flow.StaysInLine | document/LayoutElement.cc:320-348 | after alignment every margin box is within its line, whatever its alignment and margins |
| Flow.Aligned | document/LayoutElement.cc:320-348 | a margin box touches the upper edge of its line, or the lower one, or leaves the same room above and below, as its alignment says |
| Flow.Adjacent | document/LayoutElement.cc:421-424 | the next box of a line starts where the one before it ends |
| Flow.LinesStacked | document/LayoutElement.cc:411-428 | lines are one below the other |
| Flow.NoOverlap | document/LayoutElement.cc:350-447 | the margin boxes of any two children are disjoint, in the order of the visit, if none has a negative width |
| Flow.InsidePadding | document/LayoutElement.cc:350-447 | no margin box reaches into the padding above or below, and, if none has a negative width, none into that on the left |
| Flow.ContentHeightIsSum | document/LayoutElement.cc:441-445 | the content height is both paddings and the heights of all lines |
| Flow.LineTopIsSum | document/LayoutElement.cc:411-428 | a line starts below all lines before it |
| Flow.HeightCovers | document/LayoutElement.cc:426-428 | a line is as high as its highest box at least |
| Flow.HeightReached | document/LayoutElement.cc:426-428 | and no higher than that |
| Flow.ContentWidthCovers | document/LayoutElement.cc:433-435 | the content width is at least that of the left edge of each box and what is right of the box; its own width is left out, as in the code |
| Flow.ContentWidthReached | document/LayoutElement.cc:433-435 | and it is one of these, or that of both paddings |
| Layouts.Measure | document/LayoutElement.cc:370-409 | the box of a child: margins, given or content size, minimum and maximum |
| Layouts.Lengths | document/LayoutElement.cc:557-591 | what a length in pixels, in per cent, in an unknown unit or `auto` comes to |
| Layouts.PaddingLeavesRoom | document/LayoutElement.cc:350-358 | paddings are percentages of the container in their own direction, and what they leave is the room |
| Layouts.MarginsOfRoom | document/LayoutElement.cc:370-376 | margins are percentages of the room in their own direction, and a child of full width or height fills the room with them |
| Layouts.SidesOfContent | document/LayoutElement.cc:375-409 | a given side is taken as it is; one that is not follows the content, between minimum and maximum, of which the maximum counts if they cross |
| Layouts.VisitInOrder | document/LayoutElement.cc:165-191 | children are visited in order, those of a block in its place, others without layout not at all |
| Layouts.LayoutLine | document/LayoutElement.cc:320-348 | the children of one line are moved to where the geometry says |
| Layouts.Wrap | document/LayoutElement.cc:411-419 | the pen is where the next child goes, and a finished line is aligned |
| Layouts.PlaceChild | document/LayoutElement.cc:364-439 | after each child the frames, the pen and the current line agree with the geometry |
| Layouts.PlaceAll | document/LayoutElement.cc:364-445 | the loop leaves every visible frame where the geometry says and the pen at the end of the last line |
| Layouts.LayoutFlex | document/LayoutElement.cc:350-447 | all frames of visible children are those of the geometry, as are the content sizes; the margin boxes left on the heap keep out of the paddings and, if none has a negative width, are pairwise disjoint; hidden children are left alone |
| Layouts.PlacedTidy | document/LayoutElement.cc:350-447 | placed frames keep out of the paddings and off each other, and on the right only the first of a line can stick out |
| Paths.CStringSplit | core/kk.cc:1430-1454 | the pointer loop yields the pieces between delimiters |
| Paths.SplitAtFirst | core/kk.cc:1430-1454 | a delimiter of any length ends the first piece where it first occurs, and the rest is split in turn |
| Paths.SplitNone | core/kk.cc:1430-1454 | a text without the delimiter is one piece, and the empty text none |
| Paths.CStringJoin | core/kk.cc:1483-1496 | the items with delimiters between them |
| Paths.JoinUndoesSplit | core/kk.cc:1430-1496 | joining the pieces gives the string back, but for one delimiter at its end |
| Paths.SplitUndoesJoin | core/kk.cc:1430-1496 | splitting gives the items back if and only if none contains the delimiter and the last is not empty |
| Paths.EraseSegments | core/kk.cc:1297-1313 | erasing in place, walking back and forth, is evaluating the segments onto a stack |
| Paths.CStringPathNormalize | core/kk.cc:1293-1315 | the normal path is the join of the evaluated segments |
| Paths.Segments | core/kk.cc:1297-1313 | a name goes on top, `..` takes the top away, `.` does nothing, and an empty segment counts at the bottom alone |
| Paths.Normalized | core/kk.cc:1293-1315 | `a/./b//../c` becomes `a/c` |
| Paths.NormalizeClean | core/kk.cc:1293-1315 | it has no `.` or `..`, and no empty segment but the first |
| Paths.NormalizeIdempotent | core/kk.cc:1293-1315 | normalising again changes nothing |
| Paths.EvaluateConcat | core/kk.cc:1297-1313 | a path can be evaluated up to any segment first |
| Paths.AbsoluteIff | core/kk.cc:1293-1315 | the normal path is absolute if and only if counting down the segments ends below the root: a `..` at the root takes it away, an empty segment on the empty stack brings it back |
| Paths.DescendEvaluates | core/kk.cc:1297-1313 | that count agrees with the evaluation |
| Paths.RootEscapes | core/kk.cc:1302-1307 | `/../a` becomes the relative `a` |
| Paths.RootVanishes | core/kk.cc:1293-1315 | `/` becomes the empty text |
| Streams.BufferInputStream.Read | core/stream.cc:107-134 | bytes delivered followed by the buffer are the bytes pulled, over short reads and errors; the source is asked exactly if the buffer holds too little, for 2048 bytes and the length wanted at least; an error delivers nothing, and fewer bytes than asked for are delivered only if the buffer is empty then |
| Streams.BufferInputStream.Pull | core/stream.cc:111-122 | what is pulled comes behind what was there |
| Streams.ReadAll | core/stream.cc:107-134 | every read of a run has that effect, in order, and what they deliver, what is buffered and what is left make up the supply |
| Streams.ReadManyDelivers | core/stream.cc:107-134 | over every run the results put together are the bytes delivered |
| Streams.BufferOutputStream.Write | core/stream.cc:151-169 | every byte is taken over, even when the result says that the sink failed; the sink is offered the buffer exactly if it has reached its limit |
| Streams.BufferOutputStream.Flush | core/stream.cc:171-187 | true if and only if the sink has every byte written |
| Streams.BufferOutputStream.Close | core/stream.cc:143-149 | what is buffered is offered to the sink, once; nothing is lost but what it refused |
| Streams.WriteAll | core/stream.cc:151-187 | over every run of writes and a flush all chunks have been taken over in order, the sink has a prefix of all bytes written, and has them all if and only if the flush succeeds |
| UriText.TakeApart | core/uri.cc:13-48 | scheme, host, path, query and fragment put together are the text, each up to the first mark that ends it |
| UriText.PartsUnique | core/uri.cc:13-48 | there is only one such decomposition of a text |
| UriText.SchemeFound | core/uri.cc:16-22 | the scheme is what comes before the first `://`, wherever that is |
| UriText.SchemeInQuery | core/uri.cc:16-22 | so of `p?q://r` the scheme is `p?q` |
| UriText.AllParts | core/uri.cc:13-48 | the parts of `http://h/p?q#f`, and that they print as it |
| UriText.TextComesBack | core/uri.cc:199-230 | printing the parts gives the text back if and only if neither query nor fragment is present and empty |
| Uris.Uri.constructor | core/uri.cc:13-56 | the fields are those parts, and the host is cut at its first colon |
| Uris.Uri.ToString | core/uri.cc:199-230 | the text of the fields, without marks for what is empty; a cleared query is printed first |
| Uris.Reprint | core/uri.cc:13-56 | for every text: parsing and printing gives it back under exactly that condition |
| UrlCodec.DecodeInvertsEncode | core/uri.cc:232-283 | decoding an encoded text gives it back, byte for byte |
| UrlCodec.ByteEncoded | core/uri.cc:232-255 | letters and digits stand for themselves, a space for a plus, any other byte for a percent sign and two small hexadecimal digits |
| UrlCodec.HexDigits | core/uri.cc:267-271 | the hexadecimal digits of both cases, and nothing else |
| UrlCodec.SpacesAre | core/uri.cc:267-271 | the six characters that count as white space |
| UrlCodec.OddNumbers | core/uri.cc:267-271 | what a sign, white space, one digit alone and no digit come to in an escape |
| UrlCodec.OneDigit | core/uri.cc:267-271 | an escape with one hexadecimal digit stands for its value, and the character behind it is lost |
| UrlCodec.EscapeRepeated | core/uri.cc:262-271 | an escape that cannot be read repeats the one before it; without one before it there is no answer |
| UrlCodec.EncodedSafe | core/uri.cc:232-255 | an encoded text has no separator in it |
| UrlCodec.PrintInverts | core/uri.cc:115-169 | printing a query map and parsing it gives the map back if and only if no key has a separator in it and no value a NUL |
| UrlCodec.KeyNotEscaped | core/uri.cc:115-131 | a key `a&b` does not come back |
| UrlCodec.ParsePrinted | core/uri.cc:115-169 | a value with a NUL comes back cut off there |
| UrlCodec.OddItems | core/uri.cc:146-169 | a second `=` ends the value, an item without any has an empty value, and an empty item adds nothing |
| UrlCodec.ParsedKeysClean | core/uri.cc:146-169 | no parsed key has a separator in it |
| UrlCodec.ParsedBytes | core/uri.cc:146-169 | every query of bytes that can be parsed has values of bytes |
| Uris.EncodeURL | core/uri.cc:232-255 | the loop over the bytes up to the first NUL |
| Uris.DecodeURL | core/uri.cc:257-283 | the loop over the bytes, three at a time for an escape, with the variable that keeps what was read last |
| Uris.Uri.Query | core/uri.cc:115-131 | prints the map if the text has been cleared; the meaning stays; text and map then agree if and only if the map can be read back where it is printed |
| Uris.Uri.SetQuery | core/uri.cc:133-136 | the text decides the meaning, and the map is forgotten; for every text that can be parsed |
| Uris.Uri.QueryObject | core/uri.cc:146-169 | parses the text once; text and map agree afterwards if and only if they did |
| Uris.Uri.Get | core/uri.cc:170-180 | what the query says of a key, whether it is kept as text or as map |
| Uris.Uri.Set | core/uri.cc:182-197 | afterwards the key means exactly the value, or nothing, and all other keys what they meant; the text is cleared |
| Uris.RunCalls | core/uri.cc:115-230 | over every run of calls, with every query that can be parsed and every key, the meaning is what the calls made it; text and map stay in step as long as every meaning on the way can be printed |
| Uris.EscapedNul | core/uri.cc:115-230 | a run that takes them out of step: a query `a=%00`, then a key set, then the query printed |
| Template.Collector.CompileCode | ts/page.js:40-162 | succeeds exactly where the compiler does not abort, and collects the names in the order of their first use |
| Template.Collector.Collect | ts/page.js:71-77 | a name is taken once; a name every object inherits is taken to be known |
| Template.Collector.CollectRoot | ts/page.js:95-116 | the root of a chain of members, if it is an identifier |
| Template.AcceptedIff | ts/page.js:40-162 | an expression is accepted if and only if no call in the course of compiling it meets an unknown kind of expression, or an outermost chain of members on anything but a name |
| Template.UsesInOrder | ts/page.js:40-162 | names are collected in the order of the calls: what a call collects itself, then what those it makes do |
| Template.CompileAttribute | ts/page.js:164-222 | the expressions of an attribute share one parameter list, in order and without repetition; one bad expression aborts all |
| Template.ValueNames | ts/page.js:40-162 | a value depends only on the names that are looked up |
| Template.NamesCollected | ts/page.js:40-162 | a name is looked up if and only if it is collected, is the root of a callee, or is an identifier as a computed key; inside a chain of members, or its root |
| Template.GatherSet | ts/page.js:71-77 | the list holds each collected name once, and all but the inherited ones |
| Template.GatherInOrder | ts/page.js:71-77 | the list is in the order of first use: what the first uses yield is its beginning |
| Template.CalleeRootsAre | ts/page.js:135-147 | the roots of callees are the names at the bottom of what is called, anywhere in the expression |
| Template.ComputedKeysAre | ts/page.js:57-66 | computed keys are the names in brackets before a colon, anywhere |
| Template.NamesOfExpression | ts/page.js:40-162 | nothing superfluous is collected either |
| Template.DependencySound | ts/page.js:40-162 | environments that agree on the parameters and the callee roots give the same value, under any meaning of the operators, if no inherited name and no computed key is missing among them |
| Template.DependencyUnsound | ts/page.js:40-162 | and only then: otherwise two such environments give different values |

## Left out

- Documents.Document.CreateElement: an id that is given must be unused; creating an element over an existing one leaves two elements with one id.
- Documents.Document.Allot: likewise.
- Documents.Document.DispatchCommand: an attribute key must have been defined before it is used, as recording does, and a new element's id be unused; otherwise the code makes a string of a null pointer, or a second element with one id.
- Documents.Document.ExecCommand: the log is a list of commands; its bytes are made when Transactions.Commit hands them over.
- Documents.Document.CommitTransaction: the list of commands; Transactions.Commit makes the bytes.
- Documents.Document.SetTransaction: takes a list of commands, which Transactions.Apply reads from the bytes.
- Documents.Element.Append: custom element classes, events, `_depth` and the hooks that run during tree surgery are not modelled; elements stay alive during the run.
- Replication.Replicates: `StyleElement`, whose hooks record commands of their own during replay, is not modelled; ids are unbounded here and fit 2^63 only in `CommandLog`.
- CommandLog.ReplicatesThroughBytes: the bytes are read by the definition of the format, not by `UnArchiver::next`, which never advances and counts the type byte twice.
- Buffers.Buffer.Drain: `memcpy` over overlapping ranges is taken to copy upwards; `format` and the 32-bit wrap of lengths are excluded by preconditions.
- RefCount.Heap.Release: one thread of control; `release` drops the lock between counting and testing, so nothing is claimed for several. Addresses are not reused.
- RefCount.Heap.StrongSet: the owner of the slot must not be deleted by the release of the old content, as its destructor would release that once more; destructors only release their own slots.
- Ownership.QuietFacts: containers of Strong slots that grow, shrink or move are not modelled.
- WebSockets.WebSocket.OnReading: of streams with fragments, continuations, pongs or payloads of 2^31 bytes or more only the state after each read is given, as their handling depends on how they are cut into reads.
- WebSockets.WebSocket.Receive: likewise.
- WebSockets.WebSocket.ReadFrame: the extended length is read before the check that all its bytes have come, as in the code; the handshake and `open` are not modelled.
- ClientFrames.Writer.Write: the mask key is a parameter, and sizes stay below 2^31.
- Md5.Md5State.Append: the sum of offset and length must not overflow an int; the shift of the length wraps. The alignment and byte-order branches are one function here.
- Dispatch.Finishes: functions return, and only new calls and idle ticks are held back; the destruction of a queue, timers and calls between two queues are not modelled, nor are empty functions.
- Base64.DecodeBase64: `char` is signed, as the table entries below zero need; the tables are written as ranges; sizes fit 32 bits.
- Layouts.LayoutFlex: real numbers instead of floats; `Unit::Auto` absorbs what is taken from it; what an element's own layout yields is a function; relative layout and script layouts are not modelled.
- Flow.NoOverlap: no margin box may have a negative width, which negative margins can give it.
- Flow.InsidePadding: likewise, on the left.
- Paths.CStringSplit: an empty delimiter is excluded, because the loop does not end then.
- Streams.BufferInputStream.Read: lengths stay below 2^32; file streams are replaced by an arbitrary source and sink.
- UriText.TakeApart: strings have no NUL; `setHost` and `setPort`, which do not keep host, hostname and port together, are not modelled.
- Uris.DecodeURL: if the first escape of a text cannot be read the code uses a variable that is not set, if fewer than two characters follow a percent sign it runs past the end, and of `%0x` C libraries read different things; such texts have no decoding here, and no query with one can be set or parsed.
- Uris.PrintQuery: the keys come in any order, of which that of the map is one.
- Template.Collector.CompileCode: the text that is generated, which drops parentheses, is not modelled, only what is collected and where the compiler aborts.
- Template.CompileAttribute: an attribute is given as the list of its parsed expressions, which are collected one after the other into the same list.
- SQLite, HTTP, SSL, files, audio, GL, Duktape bindings, views, events, timers and string tables: calls into other systems, or members that would only be easy.
