# OpenFlux protocol engines, verified

Dafny models of the protocol engines in this repository: the VPN client's fragmentation,
serialization, frame forwarding, flow attachment, relaying, seed exchange, DHCP client,
connection setup and packet security (C, under `app/src/main/jni/badvpn`), and the exit
node's address translation, checksums and packet batching (Go, under `server`).

`dafny verify dfyconfig.toml` checks the whole project.

## What is here

| area | modules | main results |
|---|---|---|
| Fragmentation | `FragmentPieces`, `FragmentWire`, `FragmentAssembly`, `FragmentAssembler`, `FragmentDisassembly`, `FragmentDisassembler`, `FragmentRoundTrip`, `FragmentLink`, `FragmentCancel`, `FragmentClock` | what is delivered was sent; chunks tile frames exactly if no frame is cancelled half way; end-to-end round trip in any order; exactly when the 32-bit clock shows |
| Serialization | `BProtoWire`, `BProtoSchema`, `BProtoCodec`, `WireLayouts` | for every schema: accepted exactly if it encodes conforming records; values read back in order |
| Frame forwarding | `Frames`, `FrameLayout`, `FrameSwitch`, `Recency`, `FrameOwners`, `FrameDelivery`, `FrameIndex`, `FrameDecider` | what is read out of frames, byte by byte; destinations from the history alone; indexes stay exact |
| Flow attachment | `DataProtoModel`, `DataProto`, `DataProtoHistory` | deferred detaching never dangles; buffers freed once; where each buffer is, from the history alone |
| Relaying | `RelayModel`, `RelayClient`, `RelayHistory` | flags, lists and flows mirror each other; how each peer is reached, from the history alone |
| Seed exchange | `SeedProtocol` | a seed in use can be checked by the other end; exchanges complete; exactly when safety survives a new link |
| DHCP | `DhcpClient`, `DhcpBinding` | timers, reports and the lease bound in every run; which replies bind the client |
| TCP connections | `StreamPeers` | every resource acquired is freed once or held by one holder; a handed over socket stays the same |
| Packet security | `SPProtoCodec`, `SPProtoWork` | which packets decode, exactly, for any cipher; unique padding; no missed wake-up |
| Checksums | `Checksum` | no overflow, termination, both packages agree; exactly when recomputation gives zero |
| Address translation | `L3Nat`, `L3Flows` | answers reach the client, and nothing else does; the table from the history alone |
| Batching | `BatchFraming`, `BatchLoop` | order-preserving and lossless in every interleaving, up to an exact bound |

Code that works on objects is a class whose methods are proved against pure functions or
invariants; what holds over whole runs is proved of those functions as lemmas over
histories (`Legal`, `Final`). `Bytes` and `Lists` hold shared helpers.

## Conventions

- Linked lists are sequences, search trees are maps, pointers between objects are keys
  into tables of objects. Free pool entries of the frame decider are counted rather than
  named; those of the assembler are named.
- Timers are deadlines; the current time, random values and the outcome of system calls
  are parameters. Work handed to other threads is a pair of events, start and done.
- The cipher, the hash and the compressor are function values of which only sizes and the
  round trip are assumed (`Crypto.Sound`, `Zstd.Sound`).
- Integers are unbounded; 16- and 32-bit fields, the 32-bit packet clock and the 32-bit
  checksum accumulator are modelled with their widths.
- Ethernet addresses are 48-bit numbers and group addresses 32-bit numbers in network
  order, which compare as the bytes do.

## Findings

- A cancel in mid-frame keeps the frame number, so that the next frame collides with the
  remains of the old one: it is not delivered (`FragmentCancel.NextFrameLost`), or, if its
  first chunks are lost, a splice of the two frames is (`FragmentCancel.SpliceDelivered`).
  Nothing of this happens exactly if no cancel comes after a first chunk
  (`FragmentDisassembly.StreamShapeExactly`).
- Renormalising the full 32-bit packet clock also purges frames that have timed out, which
  can save another frame from eviction: the clock can be observed
  (`FragmentClock.ClockShows`), exactly when evictions differ (`FragmentClock.ClockVisible`).
- The frame decider ignores a frame when the previous multicast decision has not been read
  out (`FrameDecider.Decider.AnalyzeAndDecide`). The client always reads decisions out.
- The length of auxiliary data in IGMPv3 records is one byte but goes through a 16-bit byte
  swap, so that on little-endian machines it counts units of 256 bytes; section 4.2.6 of
  RFC 3376 says 32-bit words. Groups are lost (`Frames.AuxLosesGroups`) unless the records
  are read the same (`Frames.ReadsAsStandard`).
- Two branches of the flow code are unreachable: detaching on the spot when freeing a flow
  or attaching it anew (`DataProto.Objects.FlowFree`, `DataProto.Objects.FlowAttach`).
- Seed ids start again at zero with every link, so that a message of an old link can be
  taken for one of the new link's first seed (`SeedProtocol.StaleConfirmation`). It is safe
  exactly if no message with id 0 is left over (`SeedProtocol.RelinkSafe`); old messages
  with other ids do no harm.
- Packets longer than 65535 bytes do not survive batching, since the length prefix keeps 16
  bits (`BatchFraming.FramingRoundTrip`); and compressed batches beyond the decompression
  limit of 8 MiB are lost, which no batch can be exactly if
  min(maxBytes + 65536, maxCount * 65537) is within it (`BatchLoop.RunConserves`,
  `BatchLoop.BoundExact`). The defaults are.
- The exit node sums the first 20 bytes of an IP header, so that a header with options is
  accepted by a receiver only if they add up to zero (`Checksum.FixedVerifies`,
  `Checksum.AlertRefused`).
- A packet in work when the encryption key changes is encoded again and uses up a second
  password (`SPProtoWork.Encoder.SetEncryptionKey`).

## Model

| member | source | states |
|---|---|---|
| `FragmentPieces.FitsKeepsConsistent` | app/src/main/jni/badvpn/client/FragmentProtoAssembler.c:197-226 | A chunk that passes the overlap and length checks keeps the accepted chunks pairwise disjoint and inside the frame. |
| `FragmentPieces.CompleteSpells` | app/src/main/jni/badvpn/client/FragmentProtoAssembler.c:256-276 | If disjoint chunks add up to the length of the frame they cover it, and each byte of the frame comes from exactly one chunk. |
| `FragmentAssembly.ProcessKeeps` | app/src/main/jni/badvpn/client/FragmentProtoAssembler.c:154-283 | A chunk keeps the invariant: distinct ids, no more frames than the pool holds, times not in the future, chunks consistent and incomplete. |
| `FragmentAssembly.ReduceKeepsAges` | app/src/main/jni/badvpn/client/FragmentProtoAssembler.c:117-152 | Renormalisation keeps the age of every surviving frame and makes the clock smaller unless no frame survives. |
| `FragmentAssembly.AdvanceKeeps` | app/src/main/jni/badvpn/client/FragmentProtoAssembler.c:326-339 | Advancing the clock, at its maximum too, keeps the invariant and invents no chunks. |
| `FragmentAssembly.RunKeeps` | app/src/main/jni/badvpn/client/FragmentProtoAssembler.c:285-346 | The invariant holds after every history of chunks and packets; the 32-bit clock never overflows. |
| `FragmentAssembly.Provenance` | app/src/main/jni/badvpn/client/FragmentProtoAssembler.c:154-283 | In every run a frame under way holds exactly the most recent chunks of its id, in order. |
| `FragmentAssembly.DeliverySound` | app/src/main/jni/badvpn/client/FragmentProtoAssembler.c:154-283 | Every frame ever delivered is spelled by the most recent chunks of its id: disjoint, inside the frame, filling it. |
| `FragmentClock.OneEvent` | app/src/main/jni/badvpn/client/FragmentProtoAssembler.c:110-152 | Two assemblers with the same frames that have not timed out, one with the 32-bit clock and one with an unbounded clock, deliver the same on the next event, and still have the same such frames exactly if both or neither give up a good frame while holding one that has timed out. |
| `FragmentClock.ClockVisible` | app/src/main/jni/badvpn/client/FragmentProtoAssembler.c:110-152 | Over every history the two machines keep the same good frames if and only if such wasteful evictions happen at the same events in both. |
| `FragmentClock.SameDeliveries` | app/src/main/jni/badvpn/client/FragmentProtoAssembler.c:285-346 | Under that condition they deliver the same frames at every event. |
| `FragmentClock.UncrowdedRun` | app/src/main/jni/badvpn/client/FragmentProtoAssembler.c:57-103 | The condition holds if on the unbounded clock no chunk that needs an entry finds the pool full with a timed out frame in it. |
| `FragmentClock.FirstLap` | app/src/main/jni/badvpn/client/FragmentProtoAssembler.c:326-339 | The two machines are in the same state until the clock has filled for the first time. |
| `FragmentClock.ClockShows` | app/src/main/jni/badvpn/client/FragmentProtoAssembler.c:117-152 | A run in which the 32-bit machine, having purged a timed out frame at the full clock, delivers a frame that the unbounded machine has evicted. |
| `FragmentAssembler.CheckChunk` | app/src/main/jni/badvpn/client/FragmentProtoAssembler.c:197-226 | The loop over the accepted chunks and the length checks decide exactly whether the chunk fits. |
| `FragmentAssembler.WithChunk` | app/src/main/jni/badvpn/client/FragmentProtoAssembler.c:228-254 | Adding a chunk updates chunk list, sum, length and buffer so that the entry records exactly one more chunk. |
| `FragmentAssembler.BufferJoins` | app/src/main/jni/badvpn/client/FragmentProtoAssembler.c:253-276 | When the sum reaches the length they are equal, and the buffer holds the frame. |
| `FragmentAssembler.Partition` | app/src/main/jni/badvpn/client/FragmentProtoAssembler.c:392-426 | The used and free lists share out the pool: nothing twice, nothing in both, nothing missing. |
| `FragmentAssembler.TreeFinds` | app/src/main/jni/badvpn/client/FragmentProtoAssembler.c:179-181 | The id tree finds exactly the entry the list of frames under way has for an id. |
| `FragmentAssembler.Assembler.constructor` | app/src/main/jni/badvpn/client/FragmentProtoAssembler.c:370-445 | A new assembler has every entry free and nothing under way. |
| `FragmentAssembler.Assembler.FreeFrame` | app/src/main/jni/badvpn/client/FragmentProtoAssembler.c:46-55 | Freeing an entry takes it out of list and tree and returns it to the free list; the others stay. |
| `FragmentAssembler.Assembler.FreeOldestFrame` | app/src/main/jni/badvpn/client/FragmentProtoAssembler.c:57-68 | The entry of the oldest frame is freed; the others stay. |
| `FragmentAssembler.Assembler.AllocateNewFrame` | app/src/main/jni/badvpn/client/FragmentProtoAssembler.c:70-103 | A new frame takes a free entry, or that of the oldest frame. |
| `FragmentAssembler.Assembler.FetchFrame` | app/src/main/jni/badvpn/client/FragmentProtoAssembler.c:179-193 | The entry for a chunk: the live one, or a fresh one if there is none or it has timed out. |
| `FragmentAssembler.Assembler.ProcessChunk` | app/src/main/jni/badvpn/client/FragmentProtoAssembler.c:154-283 | Processing a chunk refines the abstract step: same frames under way, same delivery. |
| `FragmentAssembler.Assembler.ReduceTimes` | app/src/main/jni/badvpn/client/FragmentProtoAssembler.c:117-152 | The two loops drop the frames that have timed out and subtract the smallest time of the others. |
| `FragmentAssembler.Assembler.AdvanceClock` | app/src/main/jni/badvpn/client/FragmentProtoAssembler.c:326-339 | The clock advances, renormalising at its maximum. |
| `FragmentAssembler.Assembler.ProcessInput` | app/src/main/jni/badvpn/client/FragmentProtoAssembler.c:285-346 | Reading a packet processes its chunks up to a delivery or the end, and then advances the clock. |
| `FragmentAssembler.Assembler.Send` | app/src/main/jni/badvpn/client/FragmentProtoAssembler.c:348-360 | A packet is taken in and read from its start. |
| `FragmentWire.ParseEncode` | app/src/main/jni/badvpn/protocol/fragmentproto.h:36-80 | A packet reads back as the chunks that were written into it. |
| `FragmentWire.ReadExactly` | app/src/main/jni/badvpn/client/FragmentProtoAssembler.c:289-312 | A chunk is read from bytes exactly if they start with its encoding. |
| `FragmentWire.ReadAsFarAsPossible` | app/src/main/jni/badvpn/client/FragmentProtoAssembler.c:289-324 | What is read of a packet is its longest front made up of chunks. |
| `WireLayouts.ChunkBytes` | app/src/main/jni/badvpn/protocol/fragmentproto.h:52-80 | The bytes of a chunk: frame id, start, length, low byte first, last mark, payload. |
| `FragmentDisassembly.EmitTiles` | app/src/main/jni/badvpn/client/FragmentProtoDisassembler.c:48-70 | One pass of the loop extends the tiling of the frame without gap or overlap, marking exactly the final chunk. |
| `FragmentDisassembly.StepKeeps` | app/src/main/jni/badvpn/client/FragmentProtoDisassembler.c:104-162 | Every handler keeps the invariant; an open packet always has room for at least one byte of payload. |
| `FragmentDisassembly.StreamShape` | app/src/main/jni/badvpn/client/FragmentProtoDisassembler.c:39-162 | Over every run without a cancel in mid-frame, the chunks sent are those of the frames cut, in order, each frame tiled under its own number; without a chunk limit a frame takes at most 1 + ceil((n - 1) / (mtu - header)) chunks, wherever the packet stood. |
| `FragmentDisassembly.StreamShapeExactly` | app/src/main/jni/badvpn/client/FragmentProtoDisassembler.c:122-132 | Over every run with any cancels, the stream has that shape if and only if no frame was cancelled after its first chunk was written. |
| `FragmentDisassembler.Disassembler.constructor` | app/src/main/jni/badvpn/client/FragmentProtoDisassembler.c:164-199 | A new disassembler has no frame and no packet. |
| `FragmentDisassembler.Disassembler.WriteChunk` | app/src/main/jni/badvpn/client/FragmentProtoDisassembler.c:50-69 | One chunk is written into the packet: header and payload. |
| `FragmentDisassembler.Disassembler.WriteChunks` | app/src/main/jni/badvpn/client/FragmentProtoDisassembler.c:39-102 | The do-while loop writes exactly the chunks of the abstract pass and finishes frame and packet when that does. |
| `FragmentDisassembler.Disassembler.Send` | app/src/main/jni/badvpn/client/FragmentProtoDisassembler.c:104-120 | A frame is taken in, and cut at once if a packet is open. |
| `FragmentDisassembler.Disassembler.RequestCancel` | app/src/main/jni/badvpn/client/FragmentProtoDisassembler.c:122-132 | A frame whose cutting waits for a packet is given up; its number is kept. |
| `FragmentDisassembler.Disassembler.Recv` | app/src/main/jni/badvpn/client/FragmentProtoDisassembler.c:134-149 | A new packet is opened, and filled at once if a frame waits. |
| `FragmentDisassembler.Disassembler.TimerHandler` | app/src/main/jni/badvpn/client/FragmentProtoDisassembler.c:151-162 | The timer closes the packet as it is. |
| `FragmentRoundTrip.Rebuild` | app/src/main/jni/badvpn/client/FragmentProtoAssembler.c:154-283 | The pieces of a frame in any order, among any other traffic, deliver the frame once, with its last missing piece. |
| `FragmentRoundTrip.RoundTrip` | app/src/main/jni/badvpn/client/FragmentProtoDisassembler.c:39-102 | Any rearrangement of the chunks of a frame delivers exactly that frame once, if its id is not live and it is neither evicted nor timed out. |
| `FragmentRoundTrip.Unhurried` | app/src/main/jni/badvpn/client/FragmentProtoAssembler.c:110-115 | If few enough packets pass and few enough ids are in play, no frame is evicted or times out. |
| `FragmentRoundTrip.ChunksFit` | app/src/main/jni/badvpn/protocol/fragmentproto.h:82-98 | The documented number of chunks for an MTU is enough for every frame up to the MTU, however full the packet was in which it started. |
| `FragmentLink.AbsorbIsRun` | app/src/main/jni/badvpn/client/FragmentProtoAssembler.c:285-346 | Reading a packet, going on after each delivery, is a history: its chunks arrive one by one and then the clock ticks. |
| `FragmentLink.PacketSound` | app/src/main/jni/badvpn/client/FragmentProtoAssembler.c:285-360 | After any history, any packet of bytes continues the history by the chunks it parses to, and every frame it delivers is spelled by the latest chunks of one id. |
| `FragmentLink.ReceivedEncoded` | app/src/main/jni/badvpn/protocol/fragmentproto.h:36-80 | A packet filled by the cutter is received as exactly its chunks. |
| `FragmentLink.LinkRoundTrip` | app/src/main/jni/badvpn/client/DatagramPeerIO.c:196-226 | End to end: for every run of the cutter without mid-frame cancel and every frame it has cut, if each chunk of the frame reaches the assembler once, in packets in any order among other traffic within pool and tolerance, then that frame and no other is delivered under its number. |
| `FragmentCancel.NextFrameLost` | app/src/main/jni/badvpn/client/FragmentProtoDisassembler.c:122-132 | Whatever the frames: if all chunks of a frame cancelled half way and then all of the next frame arrive, nothing is delivered under their number. |
| `FragmentCancel.SpliceDelivered` | app/src/main/jni/badvpn/client/FragmentProtoDisassembler.c:122-132 | Whatever the frames: if the chunks of the next frame before the cut are lost, the start of the cancelled frame and the rest of the next are delivered as one frame, which nobody sent. |
| `FragmentCancel.CancelledRun` | app/src/main/jni/badvpn/client/FragmentProtoDisassembler.c:122-132 | A run of the cutter with both outcomes at the assembler. |
| `DataProtoModel.StepKeeps` | app/src/main/jni/badvpn/client/DataProto.c:127-225 | Every event keeps: wanting a sink implies being at one, a buffer elsewhere than wanted is the one its sink notes as detaching, and that one is in mid-packet. |
| `DataProtoModel.FreeSinkKeeps` | app/src/main/jni/badvpn/client/DataProto.c:297-309 | After a sink is freed no buffer is attached to it. |
| `DataProtoModel.CountedKeeps` | app/src/main/jni/badvpn/client/DataProto.c:516-566 | A sink's debug counter counts the flows that want it. |
| `DataProtoModel.StepConserves` | app/src/main/jni/badvpn/client/DataProto.c:127-144 | Buffers are live or freed: each event allocates or frees exactly what it says. |
| `DataProtoModel.RunKeeps` | app/src/main/jni/badvpn/client/DataProto.c:127-566 | In every interleaving the invariant holds and every buffer allocated is live or was freed once. |
| `DataProtoModel.Settled` | app/src/main/jni/badvpn/client/DataProto.c:458-543 | A buffer not in mid-packet has its flow and is exactly where the flow wants it. |
| `DataProtoModel.DoneSettles` | app/src/main/jni/badvpn/client/DataProto.c:200-225 | When the queue is done with the packet, the detaching buffer goes where its flow wants it by then, or is freed. |
| `DataProtoHistory.FlowsFromHistory` | app/src/main/jni/badvpn/client/DataProto.c:396-566 | In every run a flow exists, with its own buffer, exactly if it was made and not freed since, and wants the sink of its last attach unless detached since. |
| `DataProtoHistory.SinksFromHistory` | app/src/main/jni/badvpn/client/DataProto.c:218-309 | In every run a sink exists exactly if made and not freed since, and sends what it was last told to unless done since. |
| `DataProtoHistory.BufferFromHistory` | app/src/main/jni/badvpn/client/DataProto.c:160-225 | In every run a flow's buffer is at the sink in the middle of its packet, and if there is none exactly where the flow was last attached. |
| `DataProtoHistory.OrphanFromHistory` | app/src/main/jni/badvpn/client/DataProto.c:458-484 | In every run a buffer is live exactly if its flow is or a sink is in the middle of its packet; otherwise it has been freed. |
| `DataProtoHistory.OthersUntouched` | app/src/main/jni/badvpn/client/DataProto.c:516-566 | Attaching or detaching a flow touches no other flow, buffer or sink. |
| `DataProto.Objects.FlowBufferDetach` | app/src/main/jni/badvpn/client/DataProto.c:160-178 | Detaching clears the buffer's sink and the sink's note of it. |
| `DataProto.Objects.FlowBufferScheduleDetach` | app/src/main/jni/badvpn/client/DataProto.c:180-198 | The buffer is noted as detaching; noting it twice does nothing. |
| `DataProto.Objects.FlowBufferFinishDetach` | app/src/main/jni/badvpn/client/DataProto.c:200-216 | The buffer leaves, and is freed or attached where its flow now wants it. |
| `DataProto.Objects.SinkFree` | app/src/main/jni/badvpn/client/DataProto.c:297-309 | Freeing a sink takes the abstract step; the assertion about its detaching buffer holds. |
| `DataProto.Objects.FlowInit` | app/src/main/jni/badvpn/client/DataProto.c:396-456 | A new flow has a new buffer at no sink. |
| `DataProto.Objects.FlowFree` | app/src/main/jni/badvpn/client/DataProto.c:458-484 | Freeing a flow takes the abstract step; the branch that detaches on the spot is never reached. |
| `DataProto.Objects.FlowAttach` | app/src/main/jni/badvpn/client/DataProto.c:516-543 | Attaching takes the abstract step; the branch that moves the buffer on the spot is never reached. |
| `DataProto.Objects.FlowDetach` | app/src/main/jni/badvpn/client/DataProto.c:545-566 | Detaching takes the abstract step. |
| `DataProto.Objects.QueueDone` | app/src/main/jni/badvpn/client/DataProto.c:218-225 | The end of a packet takes the abstract step. |
| `BProtoWire.ParseExactly` | app/src/main/jni/badvpn/bproto_generator/bproto_functions.php:457-580 | Bytes parse to these records exactly if they are the encoding of these records. |
| `BProtoSchema.LookupKnown` | app/src/main/jni/badvpn/bproto_generator/bproto_functions.php:479-575 | The case the switches lead to is the only field a record can suit. |
| `BProtoSchema.ConformsExactly` | app/src/main/jni/badvpn/bproto_generator/bproto_functions.php:579-604 | A message conforms exactly if each record has a declared id, type number and size, each required field occurs once, each optional one at most once, each required repeated one at least once. |
| `WireLayouts.NumberBytes` | app/src/main/jni/badvpn/bproto/BProto.h:39-71 | The bytes of an integer field: id and type, low byte first, then the value in the width of its type. |
| `WireLayouts.LittleEnd` | app/src/main/jni/badvpn/bproto/BProto.h:46-71 | The value of one, two or four bytes stands low byte first. |
| `WireLayouts.DataBytes` | app/src/main/jni/badvpn/bproto/BProto.h:73-78 | The bytes of a data field: id and type, the length in four bytes, low byte first, the data. |
| `BProtoSchema.BodyRoundTrip` | app/src/main/jni/badvpn/bproto_generator/bproto_functions.php:362-402 | A value read back from its body is the value stored. |
| `BProtoSchema.WriteThenParse` | app/src/main/jni/badvpn/bproto_generator/bproto_functions.php:303-609 | For every schema, what was written within the cardinalities parses, conforms, and carries each field's values in order. |
| `BProtoCodec.Writer.AddValue` | app/src/main/jni/badvpn/bproto_generator/bproto_functions.php:349-420 | Adding a value appends its record to the buffer and counts it. |
| `BProtoCodec.Writer.Finish` | app/src/main/jni/badvpn/bproto_generator/bproto_functions.php:320-336 | What is in the buffer then parses, conforms, and carries the values added. |
| `BProtoCodec.Parser.Init` | app/src/main/jni/badvpn/bproto_generator/bproto_functions.php:422-610 | The buffer is accepted exactly if it encodes records as the schema declares them, each cardinality counted; then every value is there to be read. |
| `BProtoCodec.Parser.Get` | app/src/main/jni/badvpn/bproto_generator/bproto_functions.php:649-759 | Getting gives the next unread value of the field, none exactly if there is none, and does not disturb other fields. |
| `BProtoCodec.Parser.Scan` | app/src/main/jni/badvpn/bproto_generator/bproto_functions.php:656-755 | On every accepted buffer the assertions about lengths and types hold. |
| `BProtoCodec.Parser.Reset` | app/src/main/jni/badvpn/bproto_generator/bproto_functions.php:761-764 | All values of the field are unread again. |
| `BProtoCodec.Parser.Forward` | app/src/main/jni/badvpn/bproto_generator/bproto_functions.php:766-769 | No value of the field is unread. |
| `BProtoCodec.Parser.GotEverything` | app/src/main/jni/badvpn/bproto_generator/bproto_functions.php:612-640 | True exactly if no field has an unread value. |
| `Frames.MacHasGroupSig` | app/src/main/jni/badvpn/client/FrameDecider.c:120-131 | A group's Ethernet address (section 6.4 of RFC 1112) is a multicast address with the group's own signature. |
| `FrameLayout.AddressesAre` | app/src/main/jni/badvpn/client/FrameDecider.c:388-395 | The destination and the source of a frame are its first and second six bytes. |
| `FrameLayout.IgmpExactly` | app/src/main/jni/badvpn/misc/ipv4_proto.h:94-143 | A frame yields an IGMP message exactly if it is an Ethernet frame of type 0800 with a sound IPv4 header of protocol 2 for that message, padding aside. |
| `FrameLayout.ReportV2Joins` | app/src/main/jni/badvpn/client/FrameDecider.c:714-727 | Every frame laid out as a version 2 report joins exactly the group it names. |
| `FrameLayout.ReportV3Joins` | app/src/main/jni/badvpn/client/FrameDecider.c:729-790 | Every frame laid out as a version 3 report joins, in order, exactly the groups of its whole records of kinds 2 and 4, and of kinds 1 and 3 with sources. |
| `FrameLayout.OtherwiseNothing` | app/src/main/jni/badvpn/client/FrameDecider.c:690-792 | Nothing else joins anything. |
| `FrameLayout.QueriedExactly` | app/src/main/jni/badvpn/client/FrameDecider.c:423-463 | A group is asked after exactly if the frame is a version 2 or version 3 query naming it, without sources. |
| `Frames.ReadsAsStandard` | app/src/main/jni/badvpn/client/FrameDecider.c:742-775 | The records read from an IGMPv3 report are those of RFC 3376 if and only if the first whole record with auxiliary data is whole for the program too and neither reading finds a record after it. |
| `Frames.JoinsAsStandard` | app/src/main/jni/badvpn/client/FrameDecider.c:742-788 | Then the groups joined are those of the standard. |
| `Frames.AuxBeforeLast` | app/src/main/jni/badvpn/client/FrameDecider.c:767-775 | Auxiliary data in any record but the last one read makes the readings differ. |
| `Frames.NoAuxSame` | app/src/main/jni/badvpn/client/FrameDecider.c:767-775 | Reports without auxiliary data are read as the standard says. |
| `Frames.AuxLosesGroups` | app/src/main/jni/badvpn/client/FrameDecider.c:767-775 | A report that joins two groups by the standard and none for the program. |
| `FrameSwitch.StepKeeps` | app/src/main/jni/badvpn/client/FrameDecider.c:69-118 | Every event keeps: an address belongs to one peer at most, nothing is held twice, no pool overflows. |
| `FrameSwitch.RunKeeps` | app/src/main/jni/badvpn/client/FrameDecider.c:69-314 | The same over every history. |
| `FrameSwitch.OwnerSentLast` | app/src/main/jni/badvpn/client/FrameDecider.c:69-118 | In every run a peer owns an address only if the last frame from that address came from it. |
| `FrameOwners.OwnsExactly` | app/src/main/jni/badvpn/client/FrameDecider.c:69-118 | In every run a peer owns an address if and only if it was the last to send from it, has not been removed since, and has not since filled its pool with addresses used later. |
| `FrameDelivery.MemberExactly` | app/src/main/jni/badvpn/client/FrameDecider.c:199-279 | In every run a peer is a member of a group if and only if it has joined it, has not been removed since, the membership has not run out since, and it has not since filled its pool with groups joined later. |
| `FrameDelivery.PresentExactly` | app/src/main/jni/badvpn/client/FrameDecider.c:558-669 | In every run the peers are those added and not removed, in order. |
| `FrameDelivery.ToEverybody` | app/src/main/jni/badvpn/client/FrameDecider.c:474-509 | IGMP, broadcasts and frames to an address nobody owns by the history go to every peer once. |
| `FrameDelivery.ToOwner` | app/src/main/jni/badvpn/client/FrameDecider.c:498-504 | A frame to an address that a peer owns by the history goes to that peer alone. |
| `FrameDelivery.ToMembers` | app/src/main/jni/badvpn/client/FrameDecider.c:480-496 | A multicast frame goes to precisely the peers that are members, by the history, of a group with the address' last 23 bits, once for each such group. |
| `FrameDelivery.HeardOwns` | app/src/main/jni/badvpn/client/FrameDecider.c:671-689 | After a frame from a peer the peer owns its source address. |
| `FrameDelivery.HeardJoins` | app/src/main/jni/badvpn/client/FrameDecider.c:714-727 | After a version 2 report the peer is a member of the group it names. |
| `FrameDelivery.HeardJoinsInTurn` | app/src/main/jni/badvpn/client/FrameDecider.c:729-790 | A version 3 report makes the peer join the groups of its records one after the other. |
| `FrameSwitch.PoolsByAge` | app/src/main/jni/badvpn/client/FrameDecider.c:76-101 | In every run each peer's addresses and groups are listed by when they were last used, so that the least recently used is evicted. |
| `FrameSwitch.DeadlinesExact` | app/src/main/jni/badvpn/client/FrameDecider.c:199-314 | In every run the deadline of a membership depends only on its own joins and on queries for its own group, which only lower it. |
| `FrameIndex.EnterExact` | app/src/main/jni/badvpn/client/FrameDecider.c:133-164 | Entering a membership keeps the index exact: one master per signature, one chain of precisely its memberships. |
| `FrameIndex.ExitExact` | app/src/main/jni/badvpn/client/FrameDecider.c:166-197 | So does removing one, the master included. |
| `FrameIndex.ChainIsMemberships` | app/src/main/jni/badvpn/client/FrameDecider.c:481-496 | The chain of a signature lists its memberships, each once. |
| `FrameDecider.Decider.constructor` | app/src/main/jni/badvpn/client/FrameDecider.c:323-351 | A new decider is consistent and empty. |
| `FrameDecider.Decider.AddMacToPeer` | app/src/main/jni/badvpn/client/FrameDecider.c:69-118 | The address becomes the newest of the peer and leaves any other; the tree stays the disjoint union. |
| `FrameDecider.Decider.TakeMacEntry` | app/src/main/jni/badvpn/client/FrameDecider.c:88-117 | A new address takes a free entry, or that of the oldest address. |
| `FrameDecider.Decider.AddToMulticast` | app/src/main/jni/badvpn/client/FrameDecider.c:133-164 | The index stays exact with the new membership. |
| `FrameDecider.Decider.RemoveFromMulticast` | app/src/main/jni/badvpn/client/FrameDecider.c:166-197 | The index stays exact without it, and the memberships a decision has still to visit are the same but for it. |
| `FrameDecider.Decider.AddGroupToPeer` | app/src/main/jni/badvpn/client/FrameDecider.c:199-252 | The membership becomes the newest with a new deadline, evicting the oldest if the pool is full. |
| `FrameDecider.Decider.RemoveGroupEntry` | app/src/main/jni/badvpn/client/FrameDecider.c:254-279 | The membership ends; everything stays consistent, and a decision being read out loses just this membership. |
| `FrameDecider.Decider.LowerGroupTimers` | app/src/main/jni/badvpn/client/FrameDecider.c:281-314 | The deadlines of exactly this group come down to the limit, in every peer. |
| `FrameDecider.Decider.PeerInit` | app/src/main/jni/badvpn/client/FrameDecider.c:558-624 | The peer is added with nothing. |
| `FrameDecider.Decider.PeerFree` | app/src/main/jni/badvpn/client/FrameDecider.c:626-669 | The peer and all references to it are gone; what is left of the decision in progress is what was left, without the peer. |
| `FrameDecider.Decider.Analyze` | app/src/main/jni/badvpn/client/FrameDecider.c:671-795 | A frame from a peer does what its source address and its joins say, in order. |
| `FrameDecider.Decider.AnalyzeAndDecide` | app/src/main/jni/badvpn/client/FrameDecider.c:361-510 | What can then be read out are exactly the destinations; after an unread multicast decision the new frame is ignored. |
| `FrameDecider.Decider.NextDestination` | app/src/main/jni/badvpn/client/FrameDecider.c:512-556 | Reading out gives the pending destinations one by one. |
| `FrameDecider.Decider.Forward` | app/src/main/jni/badvpn/client/client.c:2666-2682 | The client sends a frame to precisely its destinations. |
| `Checksum.ChecksumVanishes` | server/tunnel/l3/flow.go:73-76 | With the checksum stored, the sum is all ones, so that recomputing gives zero. |
| `Checksum.NoOverflow` | server/tunnel/l3/flow.go:96-103 | Up to 131074 bytes the 32-bit accumulator does not overflow. |
| `Checksum.OnesComplementSum` | server/tunnel/l3/flow.go:95-108 | The result is the reference checksum modulo 65535. |
| `Checksum.TcpChecksum` | server/tunnel/l3/flow.go:110-129 | The result is the reference checksum of the pseudo header and the segment. |
| `Checksum.IPChecksum` | server/network/checksum.go:40-51 | Two folds without a test give the same reference checksum. |
| `Checksum.TcpChecksumBytes` | server/network/checksum.go:9-38 | Building the pseudo header as bytes gives the same reference checksum. |
| `Checksum.FixChecksums` | server/tunnel/l3/flow.go:69-93 | The packet in the buffer becomes the one with both checksums put right; anything else is left alone. |
| `Checksum.FixedVerifies` | server/tunnel/l3/flow.go:69-93 | Afterwards the segment's check comes out as zero, and the header's, taken over all of the header, if and only if the options add up to zero modulo 65535; only the checksum bytes have changed. |
| `Checksum.PlainAccepted` | server/tunnel/l3/flow.go:73-76 | A header without options is accepted. |
| `Checksum.AlertRefused` | server/tunnel/l3/flow.go:73-76 | A header with a router alert option is not. |
| `BatchFraming.FramingRoundTrip` | server/transport/framing.go:51-64 | Unframing undoes framing exactly for packets of at most 65535 bytes. |
| `BatchFraming.BatchRoundTrip` | server/transport/framing.go:68-120 | A message decodes to its packets exactly if their lengths fit the prefix; unless it is compressed and beyond what decompression allows, when it does not decode. |
| `BatchFraming.DecodedExactly` | server/transport/framing.go:85-120 | A message that decodes carries the framing of the result and nothing else. |
| `BatchFraming.DecodeExactly` | server/transport/framing.go:85-120 | A message decodes to packets exactly if it has version 2 and its body, decompressed if the flag says so, is their framing. |
| `WireLayouts.MessageBytes` | server/transport/framing.go:10-20 | The bytes of a message: version, flag, and each packet behind its length, high byte first. |
| `BatchFraming.FrameBatch` | server/transport/framing.go:51-64 | The loop produces the framing. |
| `BatchFraming.EncodeBatch` | server/transport/framing.go:68-82 | The message is the compressed framing if that is smaller, and the plain one otherwise. |
| `BatchFraming.DecodeBatch` | server/transport/framing.go:85-120 | The loop consumes the framing, and fails exactly where it is malformed. |
| `BatchLoop.RunConserves` | server/transport/batched.go:80-165 | If min(maxBytes + 65536, maxCount * 65537) is within the decompression limit, then in every interleaving received packets, then the batch, then the queue are the accepted packets in order. |
| `BatchLoop.RunBounded` | server/transport/batched.go:114-165 | Every message is a batch of 1 to maxCount packets that was below maxBytes before its last packet. |
| `BatchLoop.ReceivedPrefix` | server/transport/batched.go:80-165 | What the receiver has is a prefix of what was accepted, and all of it when the loop is idle and the queue empty. |
| `BatchLoop.LosingRun` | server/transport/batched.go:114-165 | Whenever the bound is exceeded, for any compressor that shrinks the batch and a decompressor that keeps to the limit, there is a run in which the receiver gets nothing of what was accepted. |
| `BatchLoop.BoundExact` | server/transport/framing.go:39-44 | For every configuration beyond the bound there is a sound compressor and a run that loses packets. |
| `SeedProtocol.StepKeeps` | app/src/main/jni/badvpn/client/client.c:2124-2259 | Every event keeps that a seed waiting for confirmation is in one place at most. |
| `SeedProtocol.RunKeeps` | app/src/main/jni/badvpn/client/client.c:2124-2259 | The same over every run of two peers, from any state in which it holds. |
| `SeedProtocol.SafeToUse` | app/src/main/jni/badvpn/client/client.c:2843-2848 | The seed a peer sends with is one the other end has generated and can check now; the job never runs while a seed waits. |
| `SeedProtocol.StaleConfirmation` | app/src/main/jni/badvpn/client/client.c:1635-1642 | A run that leaves a confirmation under way, which a new link takes for one of its first seed. |
| `SeedProtocol.RelinkSafe` | app/src/main/jni/badvpn/client/client.c:1635-1642 | When both ends get a new link, every continuation is safe if and only if no seed and no confirmation with id 0 of the old link is under way in either direction. |
| `SeedProtocol.LinksSafe` | app/src/main/jni/badvpn/client/client.c:1635-1642 | Over any number of links on one chat, each made when no such message is under way, both ends are always safe. |
| `SeedProtocol.ExchangeCompletes` | app/src/main/jni/badvpn/client/client.c:2124-2259 | From any state without a waiting seed, a warning leads to a seed with the next id in use once it is sent, generated and confirmed. |
| `SeedProtocol.SeedsNumbered` | app/src/main/jni/badvpn/client/client.c:2855-2862 | A peer's seeds are numbered one after the other, modulo 65536. |
| `SeedProtocol.SeedEnd.SeedWarning` | app/src/main/jni/badvpn/client/client.c:2239-2249 | A new seed is scheduled unless one waits. |
| `SeedProtocol.SeedEnd.JobSendSeed` | app/src/main/jni/badvpn/client/client.c:2843-2883 | A seed with the next id is made up, remembered and sent. |
| `SeedProtocol.SeedEnd.MsgSeed` | app/src/main/jni/badvpn/client/client.c:2124-2174 | A seed of the right sizes is taken for generation; others are ignored. |
| `SeedProtocol.SeedEnd.SeedReady` | app/src/main/jni/badvpn/client/client.c:2251-2259 | The generated seed becomes the newest table and its id is confirmed. |
| `SeedProtocol.SeedEnd.MsgConfirmSeed` | app/src/main/jni/badvpn/client/client.c:2176-2220 | A confirmation counts exactly if it names the seed that waits. |
| `RelayModel.InstallKeeps` | app/src/main/jni/badvpn/client/client.c:1802-1822 | Installing relaying keeps flags, lists and flows in step. |
| `RelayModel.FreeRelayingKeeps` | app/src/main/jni/badvpn/client/client.c:1824-1845 | So does uninstalling it. |
| `RelayModel.FlowsTo` | app/src/main/jni/badvpn/client/client.c:1802-1845 | A flow that goes to another peer's link belongs to one of that relay's users. |
| `RelayHistory.ReachedExactly` | app/src/main/jni/badvpn/client/client.c:1606-1898 | In every run a peer's packets go over its own link if it has one by the history, over the link of one of the relays if it needs one, and nowhere only if there is none or the peer is not reached. |
| `RelayHistory.ModesExactly` | app/src/main/jni/badvpn/client/client.c:1729-1800 | In every run the relays are those that came up as relays and have not gone since, in order, and each peer is reached as the history says. |
| `RelayHistory.FirstRelayServes` | app/src/main/jni/badvpn/client/client.c:2684-2709 | A peer that gets another relay gets the one that has served longest. |
| `RelayClient.Client.PeerInitLink` | app/src/main/jni/badvpn/client/client.c:1606-1693 | The peer has a link and its flow goes there. |
| `RelayClient.Client.PeerFreeLink` | app/src/main/jni/badvpn/client/client.c:1695-1727 | The link is gone, and nobody's flow wanted it. |
| `RelayClient.Client.PeerInstallRelaying` | app/src/main/jni/badvpn/client/client.c:1802-1822 | The peer is relayed and listed as a user. |
| `RelayClient.Client.PeerFreeRelaying` | app/src/main/jni/badvpn/client/client.c:1824-1845 | The peer is no longer relayed nor listed. |
| `RelayClient.Client.PeerRegisterNeedRelay` | app/src/main/jni/badvpn/client/client.c:1870-1883 | The peer waits, last in the list. |
| `RelayClient.Client.PeerUnregisterNeedRelay` | app/src/main/jni/badvpn/client/client.c:1885-1898 | The peer no longer waits. |
| `RelayClient.Client.AssignRelays` | app/src/main/jni/badvpn/client/client.c:2684-2709 | Everyone who waits gets the first relay if there is one, nobody else is touched; at rest nobody waits while there is a relay. |
| `RelayClient.Client.PeerEnableRelayProvider` | app/src/main/jni/badvpn/client/client.c:1750-1769 | The peer is a relay, and whoever waited is assigned. |
| `RelayClient.Client.PeerDisableRelayProvider` | app/src/main/jni/badvpn/client/client.c:1771-1800 | Its users wait and are assigned to the next relay if there is one. |
| `RelayClient.Client.PeerCleanupConnections` | app/src/main/jni/badvpn/client/client.c:1729-1748 | The peer is unreached, and nobody's flow goes to it. |
| `RelayClient.Client.PeerNewLink` | app/src/main/jni/badvpn/client/client.c:2348-2355 | The peer has a fresh link, or is unreached. |
| `RelayClient.Client.PeerDataprotoHandler` | app/src/main/jni/badvpn/client/client.c:2626-2645 | A relay is one exactly while its link is up and it may be one. |
| `RelayClient.Client.PeerNeedRelay` | app/src/main/jni/badvpn/client/client.c:1847-1868 | The peer is relayed if there is a relay, and waits otherwise. |
| `RelayClient.Client.PeerRemove` | app/src/main/jni/badvpn/client/client.c:1509-1527 | The peer is gone, and the structure is intact. |
| `DhcpClient.FireKeeps` | app/src/main/jni/badvpn/dhcpclient/BDHCPClientCore.c:591-678 | A timer that fires at most so late keeps the running timers, limits, reports and lease bound. |
| `DhcpClient.ReceiveKeeps` | app/src/main/jni/badvpn/dhcpclient/BDHCPClientCore.c:208-563 | So does every reply. |
| `DhcpClient.RunKeeps` | app/src/main/jni/badvpn/dhcpclient/BDHCPClientCore.c:406-678 | In every run the timers running are those of the phase; Up and Down alternate, Up exactly while there is an address; counters stay within limits. |
| `DhcpClient.NeverBeyondLease` | app/src/main/jni/badvpn/dhcpclient/BDHCPClientCore.c:628-678 | The client is never up longer than the lease after the last accepted ACK, plus twice the lateness of timers. |
| `DhcpBinding.RepliesThatCount` | app/src/main/jni/badvpn/dhcpclient/BDHCPClientCore.c:406-563 | What every reply does in every phase: offers count while discovering, acknowledgements and refusals only from the server whose offer was taken; nothing else changes anything. |
| `DhcpBinding.OfferTaken` | app/src/main/jni/badvpn/dhcpclient/BDHCPClientCore.c:478-499 | Whenever the client asks for or uses an address, an event of the run brought the offer of it, in the transaction still in use. |
| `DhcpBinding.UpByOfferAndAck` | app/src/main/jni/badvpn/dhcpclient/BDHCPClientCore.c:478-563 | Whenever the client is up, the same server has offered and then acknowledged its address in the transaction in use, and the lease is that of the acknowledgement. |
| `DhcpBinding.OfferThenAck` | app/src/main/jni/badvpn/dhcpclient/BDHCPClientCore.c:478-534 | An offer while discovering and then its acknowledgement, with time and other replies in between, bind the client, with one more Up. |
| `DhcpBinding.RequestsRepeated` | app/src/main/jni/badvpn/dhcpclient/BDHCPClientCore.c:601-626 | In every run a request is repeated once for each firing of its timer since the offer, four requests at most. |
| `DhcpBinding.TimersAct` | app/src/main/jni/badvpn/dhcpclient/BDHCPClientCore.c:565-678 | What each timer leads to, with its times and the use of transaction ids. |
| `DhcpBinding.TimersMoveOn` | app/src/main/jni/badvpn/dhcpclient/BDHCPClientCore.c:591-678 | In every run a timer that has fired does not fire again at the same time. |
| `DhcpClient.Core.Start` | app/src/main/jni/badvpn/dhcpclient/BDHCPClientCore.c:565-589 | A discovery starts, with a new transaction id when forced or when the old one was used up. |
| `DhcpClient.Core.ResetTimerHandler` | app/src/main/jni/badvpn/dhcpclient/BDHCPClientCore.c:591-599 | The reset timer takes the abstract step; its assertion holds. |
| `DhcpClient.Core.RequestTimerHandler` | app/src/main/jni/badvpn/dhcpclient/BDHCPClientCore.c:601-626 | Likewise the request timer. |
| `DhcpClient.Core.RenewTimerHandler` | app/src/main/jni/badvpn/dhcpclient/BDHCPClientCore.c:628-646 | Likewise the renew timer. |
| `DhcpClient.Core.RenewRequestTimerHandler` | app/src/main/jni/badvpn/dhcpclient/BDHCPClientCore.c:648-660 | Likewise the renew request timer. |
| `DhcpClient.Core.LeaseTimerHandler` | app/src/main/jni/badvpn/dhcpclient/BDHCPClientCore.c:662-678 | Likewise the lease timer, which reports Down. |
| `DhcpClient.Core.RecvHandler` | app/src/main/jni/badvpn/dhcpclient/BDHCPClientCore.c:404-563 | A well-formed reply takes the abstract step. |
| `StreamPeers.ResetExact` | app/src/main/jni/badvpn/client/StreamPeerIO.c:475-542 | From every stage, with and without SSL, a reset releases precisely what the stage holds, each thing once. |
| `StreamPeers.PasswordLeads` | app/src/main/jni/badvpn/client/StreamPeerIO.c:184-265 | The steps around sending the password lead from one stage's resources to the next's. |
| `StreamPeers.ClientLeads` | app/src/main/jni/badvpn/client/PasswordListener.c:230-256 | What the listener keeps back of a client is exactly what the connection takes over. |
| `StreamPeers.System.Acquire` | app/src/main/jni/badvpn/client/StreamPeerIO.c:83-165 | Every resource acquired gets a number of its own; each number ever issued is freed or held by one holder. |
| `StreamPeers.System.Release` | app/src/main/jni/badvpn/client/StreamPeerIO.c:349-378 | Only what is held is freed, and nothing twice. |
| `StreamPeers.System.Transfer` | app/src/main/jni/badvpn/client/PasswordListener.c:251-256 | A resource changes hands: nothing is freed and nothing acquired. |
| `StreamPeers.System.ResetState` | app/src/main/jni/badvpn/client/StreamPeerIO.c:475-542 | What the connection held has been freed, others are untouched, and a registered password is unregistered. |
| `StreamPeers.System.Connect` | app/src/main/jni/badvpn/client/StreamPeerIO.c:657-691 | The connection is connecting, or idle if it cannot. |
| `StreamPeers.System.ConnectorHandler` | app/src/main/jni/badvpn/client/StreamPeerIO.c:83-165 | However far setting up gets, the connection is at a stage with exactly its resources. |
| `StreamPeers.System.ConnectSslconHandler` | app/src/main/jni/badvpn/client/StreamPeerIO.c:184-225 | The password is being sent, or the connection is idle. |
| `StreamPeers.System.PwsenderHandler` | app/src/main/jni/badvpn/client/StreamPeerIO.c:227-265 | The connection is there. |
| `StreamPeers.System.Listen` | app/src/main/jni/badvpn/client/StreamPeerIO.c:693-712 | A password is registered for the connection. |
| `StreamPeers.System.HandOver` | app/src/main/jni/badvpn/client/PasswordListener.c:227-256 | The listener unregisters the password and the connection holds the very socket of the client, or, if the certificate is wrong, that socket has been freed. |
| `StreamPeers.System.CheckClient` | app/src/main/jni/badvpn/client/StreamPeerIO.c:267-312 | The client is accepted, or the connection is idle. |
| `StreamPeers.System.RemoveClient` | app/src/main/jni/badvpn/client/PasswordListener.c:60-91 | The client entry is free and holds nothing. |
| `StreamPeers.System.ListenerHandler` | app/src/main/jni/badvpn/client/PasswordListener.c:93-182 | A client takes an entry, the oldest making way; used and free entries still share out the pool. |
| `StreamPeers.System.ClientReceiverHandler` | app/src/main/jni/badvpn/client/PasswordListener.c:210-257 | A known password accepts its connection and is registered no more; an unknown one only removes the client. |
| `SPProtoCodec.UnpadExactly` | app/src/main/jni/badvpn/client/SPProtoDecoder.c:88-107 | The padding check accepts a buffer exactly if it is the padding of a plaintext, and of that one only. |
| `SPProtoCodec.PacketRoundTrip` | app/src/main/jni/badvpn/client/SPProtoEncoder.c:87-152 | For every cipher, hash, password and IV a packet decodes to its payload and password. |
| `SPProtoCodec.DecodeExactly` | app/src/main/jni/badvpn/client/SPProtoDecoder.c:42-155 | A packet decodes to a password and a payload exactly if it holds their plaintext, laid out with the right hash, and the payload is within the limit. |
| `SPProtoCodec.WrongHashRefused` | app/src/main/jni/badvpn/client/SPProtoDecoder.c:132-150 | A packet whose hash field is not the hash of the rest never decodes. |
| `SPProtoCodec.PlaintextExactly` | app/src/main/jni/badvpn/client/SPProtoEncoder.c:100-125 | What is encoded is that plaintext, and there is no other. |
| `SPProtoCodec.EncodedFits` | app/src/main/jni/badvpn/protocol/spproto.h:165-193 | An encoded packet fits the carrier MTU computed for the payload MTU. |
| `SPProtoCodec.EncodedFills` | app/src/main/jni/badvpn/protocol/spproto.h:165-193 | The longest payload takes all of that MTU. |
| `SPProtoWork.EncodeWork` | app/src/main/jni/badvpn/client/SPProtoEncoder.c:87-152 | Encoding in place gives the encoding of the payload. |
| `SPProtoWork.ScanPadding` | app/src/main/jni/badvpn/client/SPProtoDecoder.c:88-107 | The backward loop finds the end of the plaintext or reports wrong padding. |
| `SPProtoWork.CheckHash` | app/src/main/jni/badvpn/client/SPProtoDecoder.c:132-150 | The hash field is zeroed, checked and restored: the buffer is unchanged. |
| `SPProtoWork.DecodeWork` | app/src/main/jni/badvpn/client/SPProtoDecoder.c:42-155 | Decoding gives the decoded packet or fails exactly when it must. |
| `SPProtoWork.Encoder.EncodePacket` | app/src/main/jni/badvpn/client/SPProtoEncoder.c:64-85 | Work starts and uses up one password. |
| `SPProtoWork.Encoder.MaybeEncode` | app/src/main/jni/badvpn/client/SPProtoEncoder.c:170-175 | Afterwards the encoder does not sit on a packet it could encode. |
| `SPProtoWork.Encoder.OutputHandlerRecv` | app/src/main/jni/badvpn/client/SPProtoEncoder.c:177-193 | Room for output is there, input is asked for. |
| `SPProtoWork.Encoder.InputHandlerDone` | app/src/main/jni/badvpn/client/SPProtoEncoder.c:195-211 | Work runs exactly if encoding is possible. |
| `SPProtoWork.Encoder.WorkHandler` | app/src/main/jni/badvpn/client/SPProtoEncoder.c:154-168 | The packet is gone. |
| `SPProtoWork.Encoder.OtpGeneratorHandler` | app/src/main/jni/badvpn/client/SPProtoEncoder.c:224-234 | A packet that waited for passwords is encoded. |
| `SPProtoWork.Encoder.SetEncryptionKey` | app/src/main/jni/badvpn/client/SPProtoEncoder.c:369-390 | A packet that waited for the key, or was in work with the old one, is encoded. |
| `SPProtoWork.Encoder.RemoveEncryptionKey` | app/src/main/jni/badvpn/client/SPProtoEncoder.c:392-407 | Work stops, the packet stays. |
| `SPProtoWork.Encoder.SetOtpSeed` | app/src/main/jni/badvpn/client/SPProtoEncoder.c:409-419 | The old seed stays in use until the new passwords are there. |
| `SPProtoWork.Encoder.RemoveOtpSeed` | app/src/main/jni/badvpn/client/SPProtoEncoder.c:421-428 | No password is left. |
| `L3Nat.OutgoingFlow` | server/tunnel/l3/l3.go:84-93 | An outbound packet keeps its flow but for the source, which is the egress address. |
| `L3Nat.ReturnedFlow` | server/tunnel/l3/l3.go:146-147 | A returned packet keeps its flow but for the destination, the client; its segment checksum checks out, and its header's exactly if the options add up to zero. |
| `L3Nat.Transparent` | server/tunnel/l3/l3.go:67-154 | The client sees the reverse of the flow it sent when the reverse of the flow that left comes back. |
| `L3Nat.TableSound` | server/tunnel/l3/conntrack.go:35-96 | In every run a flow in the table has the egress source and stems from an outbound packet since which every sweep kept it. |
| `L3Nat.OnlyAnswers` | server/tunnel/l3/l3.go:111-154 | Every packet to the client is addressed to it, answers a flow remembered since an outbound packet, and has a good segment checksum, and a good header checksum exactly if its options add up to zero. |
| `L3Nat.DyingStays` | server/tunnel/l3/conntrack.go:46-55 | A flow marked as closing stays so while it is remembered. |
| `L3Flows.OutFlowExactly` | server/tunnel/l3/l3.go:67-93 | A client's packet leaves under a flow exactly if it is a TCP segment without RST, and the flow is that of its addresses and ports with the node as source. |
| `L3Flows.InFlowExactly` | server/tunnel/l3/l3.go:111-131 | A packet from the network answers a flow exactly if it is a TCP segment to the node with the addresses and ports exchanged. |
| `L3Flows.OppositeExactly` | server/tunnel/l3/flow.go:11-39 | Two segments have opposite flows exactly if the bytes of addresses and ports are exchanged. |
| `L3Flows.FlagsRead` | server/tunnel/l3/flow.go:49-67 | A segment counts as RST by its RST bit, and as closing by RST or FIN. |
| `L3Flows.TableExactly` | server/tunnel/l3/conntrack.go:35-96 | In every run the table holds precisely the flows remembered by the history, with the time last seen and whether they are closing. |
| `L3Flows.QuietFlow` | server/tunnel/l3/conntrack.go:83-96 | A flow nothing is heard of stays exactly until a sweep more than 300 seconds, or 15 when closing, after it was last seen. |
| `L3Flows.OutRemembered` | server/tunnel/l3/l3.go:84-98 | A client's segment is remembered under its flow. |
| `L3Flows.OutgoingBytes` | server/tunnel/l3/flow.go:41-43 | What leaves is the client's packet with the node's address, but for the checksums. |
| `L3Flows.ReturnedBytes` | server/tunnel/l3/flow.go:45-47 | What goes back is the network's packet with the client's address, but for the checksums. |
| `L3Flows.AnswerDelivered` | server/tunnel/l3/l3.go:111-154 | Whenever a client's segment is remembered, a segment from the network with its addresses and ports exchanged goes to the client, unchanged but for address and checksums. |
| `L3Nat.L3Exit.Insert` | server/tunnel/l3/conntrack.go:35-44 | A known flow is refreshed, a new one added. |
| `L3Nat.L3Exit.TouchEntry` | server/tunnel/l3/conntrack.go:46-55 | A known flow is refreshed, and marked if closing; an unknown one is not added. |
| `L3Nat.L3Exit.SweepTable` | server/tunnel/l3/conntrack.go:83-96 | Exactly the flows unseen for longer than their timeout are deleted. |
| `L3Nat.L3Exit.HandleFromTransport` | server/tunnel/l3/l3.go:67-109 | What is sent and remembered, and exactly when nothing is. |
| `L3Nat.L3Exit.HandleFromInternet` | server/tunnel/l3/l3.go:111-154 | The client gets a packet exactly if it answers a remembered flow. |

## Left out

- FragmentClock.ClockVisible: the frames that have not timed out differ exactly when evictions differ; whether a delivery differs later depends on which chunks still come, and is shown by a run.
- SeedProtocol.RelinkSafe: both ends get their new link at the same time; the time between one end's new link and the other's is not modelled.
- BProtoCodec.Writer.AddValue: copies data fields in, where the generated code returns a pointer for the caller to fill.
- FrameDecider.Decider.AddGroupToPeer: finds a peer's group by searching its list; the per-peer tree of groups is not modelled apart from it.
- StreamPeers.System.ListenerHandler: failures while a client is set up are one outcome, without the partial resources in between.
- DhcpClient.Core.RecvHandler: starts from a decoded reply; the byte-level option loop and the messages sent are not modelled.
- DPRelay.c: the lists of relayed flows per source and sink; attaching and detaching them is the flow attachment modelled in DataProto.
- DataProto.c keep-alives and the up/down report of a sink: one flag and one job.
- OTPChecker and OTPGenerator tables: only which seeds have passwords is modelled.
- SPProtoDecoder.c flow control (one packet at a time) and its password check against the tables.
- The rest of client.c: binding and connecting to addresses, chat, certificates, the server connection.
- PacketProto, flow interfaces, fair queues, reactor, linked lists and trees: taken as given.
- Transports, SOCKS, gVisor, WinDivert, routes, the control server and the mobile app: input and output, no protocol engine.
- Memory allocation failures, except where they lead to a state of their own.
