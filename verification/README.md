# A verified model of GoVPP

GoVPP talks to the VPP data plane: a generator turns VPP's API definitions into Go messages with
their own encoders and decoders, a connection multiplexes requests and replies over one socket,
and a stats client reads counters out of memory that VPP keeps changing. This project models those
three parts in Dafny and proves that they do what they are for.

`dafny verify dfyconfig.toml` checks everything.

## What is modelled

**The binding generator as a compiler.** `Schema` is the resolved schema: base types, enums,
aliases, structs, unions, fixed arrays, arrays counted by another field. `Program` is a small
language of the statements the generator emits (`size +=`, `buf.EncodeX`, `buf.DecodeX`, `make`,
counted loops with named variables) with an interpreter; reading or writing outside a slice is a
panic, written `None`. `Emitted` gives the three programs a schema is compiled to, and `Generator`
is the generator itself, as methods that append one line at a time and count their own nesting
level; its lines parse back to exactly those programs. `Values` defines, independently of the
generator, which bytes a value stands for (`Wire`) and which value those bytes stand for (`Norm`:
size fields replaced by the length of their array, fixed strings cut at the first NUL, short byte
arrays zero-padded). `SizeProof`, `MarshalProof` and `UnmarshalProof` prove about running the
emitted programs that they agree with these definitions. Two more proofs are about running them
where they may fail: `ShortBuffers` is the encoder in a buffer that is too short, and `AnyBytes` the
decoder on bytes that nobody encoded. `ScalarLayout` says of each scalar which digits its bytes are.
`MessageCodec` puts headers around all this and says exactly which messages come back;
`MessageHeaders` shows that together with its header fields, which the generator leaves out of the
Go type, that is the whole message of the API definition. `Unions` does the same for setters and
getters, and `Scoping` shows that no emitted loop captures the variable of another. `Codec` is the
buffer the programs run on, as a class over an array, proved against the values of `Cursors`.
`CountOverflow` says what an array that is longer than its size field can express turns into.

**The request/reply channel and the connection.** `RequestContext` has the packed context, its place
in headers, and the comparison of wrapping sequence numbers. `Channels` is one channel with its
one-slot `delayedReply`, proved to behave as a single queue with peek; `ChannelRuns` lifts this to
whole runs in which requests carry unbounded numbers and replies may be lost, repeated or reordered,
and `Receivers` says what callers are told: every answer as what it is, a dump in order and
complete. `Connections` is the FIFO pool of channel IDs, opening and closing channels, and the
dispatch of received messages; `ChannelIds` takes opening and closing apart into their steps, by any
number of goroutines. `Framing` is the 16-byte frame header, chunked writing, reassembly over
arbitrary short reads and the reused read buffer. `Lifecycle` is the background loop interleaved
step by step with any number of `Disconnect` calls, both what never happens and what is sure to:
retries, reports of a lost connection, and that `Disconnect` returns. `RequestReply` puts the parts
together: a reply's way from its frame to the value the receiver of its request gets.

**The stats reader.** `StatsProtocol` is the epoch protocol: any adaptive reader against a writer
that raises in-progress, changes the directory, increases the epoch and clears in-progress, with
every interleaving of their steps, and `UpdateDir` as one such reader. That order of the writer's
steps is an assumption; VPP's side is not in this repository. `StatSegment`, `StatCopies` and
`StatUpdates` are the version 2 memory layout: pointer adjustment in 64-bit arithmetic, names that
are slices of the mapped memory, copying entries, symlinks into other entries, and refreshing a copy
in place. `SegmentLayout` writes down, byte by byte and without the functions that read it, what a
segment looks like that holds given stats, and shows that just those are read. `SymlinkChains` says
when following symlinks comes to an end.

**Schema normalisation.** `Imports` is the import closure, `Normalization` the pruning of imported
types while the file list is rewritten, with the proof that the order of the files does not matter
unless a file uses one name for types of two kinds, and `CamelCase` the in-place name compaction and
casing.

## Findings

Where the code does less than one would expect, and exactly when.

- `GetEpoch` loads the epoch and then in-progress. A writer that is changing the directory when
  `accessEnd` loads the epoch, and has finished when it loads in-progress, makes a mixed read count as
  a success (`StatsProtocol.TornEpochPairMixesVersions`). A reader about to call `accessEnd` with a mixed
  read can get it reported if and only if the writer is in progress and has not moved the epoch
  (`StatsProtocol.MixtureReportedExactly`); in every other run what is reported is one version of the
  directory (`StatsProtocol.ReportsOneVersion`). The pair of loads in `accessStart` does no harm.
- `UpdateDir` compares the directory's epoch before `accessStart`, and a writer may come and go behind
  that (`StatsProtocol.UpdateMayOutrunItsEpoch`). The epoch of what it reports is that
  of the directory if and only if the writer did not move it between that comparison and the end of
  `accessStart` (`StatsProtocol.UpdateEpochExactly`).
- On a nil directory vector `UpdateDir` returns no error, without refreshing anything and without
  `accessEnd` (`StatsProtocol.UpdateDirSucceeds`). The vector may be nil only while the writer is at
  work (`StatsProtocol.NilVectorIsNotChecked`).
- A message comes back from the wire as the normalised value if and only if every length fits its size
  field (`MessageCodec.MessageRoundTrip`); no bytes at all decode to it otherwise
  (`MessageCodec.OnlyFittingValues`). An array that is too long is silently cut
  (`CountOverflow.CountWraps`).
- `getUnionSize` counts an alias of a struct as nothing and an array as one element, so that setting a
  member may overrun the data field (`Unions.AliasOfStructOverruns`). A member can be set if and only if
  its encoding is no longer than the data field (`Unions.SetterNeedsRoom`); `Unions.CountedExactly` says
  which members are counted in full, and unions of those never overrun (`Unions.GoodMembersFit`).
- A union with nothing but such aliases has size 0, for which the emitted `Size` adds 1 and `Marshal`
  writes nothing (`Unions.EmptyUnionIsCounted`). `Size` is what `Marshal` advances if and only if no union
  of size 0 is encoded (`MessageCodec.SizeIsAdvance`).
- A message is encoded for its API definition if and only if its header fields are those of one of the
  four types of message, in their order and spelling (`MessageHeaders.EncodedIsWhole`). With `context` in
  front of `client_index`, say, both are left out of the Go type, but there is room for one only
  (`MessageHeaders.ContextFirst`, and `MessageHeaders.CapitalContext` for the spelling).
- Sequence numbers exactly 2^15 apart each precede the other
  (`RequestContext.HalfwayIsAmbiguous`); `RequestContext.CompareExactly` says when the comparison
  is right.
- Symlinks without an item are followed for as long as they lead to each other: to themselves
  (`StatCopies.SelfLinkNeverEnds`, with a segment that holds one in `StatCopies.SelfLinkExists`) or round
  a cycle (`SymlinkChains.PairNeverEnds`). Reading an entry ends if and only if its chain of such links
  does not come back to an entry (`SymlinkChains.ReadingEndsExactly`).
- A reported name is a slice of the mapped memory, not a copy, and changes with it. While the directory
  vector stays in place, the check for a changed name in `UpdateDir` compares the memory with itself and
  notices only another length (`StatSegment.NameComparedWithItself`).
- Counters and names that cannot be reached are copied as nil, while an update reports success and leaves
  the old data (`StatUpdates.UnreachableIsKept`).
- A refreshed name that has a NUL before its last byte differs from a copied one unless that NUL is the
  only one and the bytes behind it were in place already (`StatUpdates.NameExactly`).
- A message of 2^32 bytes or more is framed with its length cut to 32 bits and cannot be found
  again (`Framing.UnframeFrame`).
- Pruning drops imported types by name alone (`Normalization.EnumIsLost`). A type is lost to a file if
  and only if the pruned file was the only one to provide it and drops it for the name of an imported
  type (`Normalization.KindLostExactly`), which is then one of another kind.

## Model

| member | source | states |
|---|---|---|
| Codec.Buffer.EncodeBytes | codec/buffer.go:41-47 | in place: the bytes at the position, cut or padded with what the buffer held, and the position advances by the length; a panic leaves the buffer as it was |
| Codec.Buffer.EncodeUint | codec/buffer.go:70-106 | the big-endian bytes at the position, for 1, 2, 4 and 8 bytes, or a panic past the end |
| Codec.Buffer.EncodeInt | codec/buffer.go:114-150 | the two's complement of the value, big-endian |
| Codec.Buffer.EncodeFloat64 | codec/buffer.go:158-161 | the bit pattern, little-endian |
| Codec.Buffer.EncodeBool | codec/buffer.go:55-62 | one byte, 1 or 0 |
| Codec.Buffer.EncodeString | codec/buffer.go:169-176 | a 4-byte length and the bytes, or a fixed field |
| Codec.Buffer.DecodeBytes | codec/buffer.go:49-53 | the bytes at the position, which advances over them |
| Codec.Buffer.DecodeUint | codec/buffer.go:75-112 | the big-endian value at the position |
| Codec.Buffer.DecodeInt | codec/buffer.go:119-156 | its two's complement reading |
| Codec.Buffer.DecodeFloat64 | codec/buffer.go:163-167 | the bit pattern from little-endian bytes |
| Codec.Buffer.DecodeBool | codec/buffer.go:64-68 | whether the byte is not zero |
| Codec.Buffer.DecodeString | codec/buffer.go:178-191 | a length-prefixed string, or a fixed field cut at its first NUL |
| Codec.Buffer.Bytes | codec/buffer.go:36-39 | the data in front of the position |
| Codec.IndexOfNul | codec/buffer.go:178-191 | the bytes in front of the index are what precedes the first NUL |
| Values.ScalarRoundTrip | codec/buffer.go:55-191 | every scalar is decoded from its own bytes, for each base type |
| ScalarLayout.TypedWithinLimits | codec/buffer.go:70-156 | the numbers of each type are those within the limits of Go's type |
| ScalarLayout.IntegerDigits | codec/buffer.go:70-156 | an integer's bytes, signed or not, are its digits to base 256 under flooring division, most significant first, as many as the limits of its type span |
| ScalarLayout.OtherDigits | codec/buffer.go:55-191 | a float's bits least significant byte first, a bool as 1 or 0, a string behind the four digits of its length |
| ScalarLayout.ZeroIsZeros | codec/buffer.go:55-191 | Go's zero values are zero bytes |
| Schema.LinksAgree | binapigen/binapigen.go:509-532 | in a well-formed schema an array's size field and a size field's array are inverse to each other |
| Schema.GetUnionSize | binapigen/types.go:126-136 | fails exactly on the members it cannot size, and otherwise computes the maximum of the member sizes |
| Schema.GetSizeOfField | binapigen/types.go:138-156 | the size of a field's type and whether it is a base type |
| Schema.GetSizeOfStruct | binapigen/types.go:158-168 | the sum over the fields |
| Generator.GenFile.GenMessageMethodSize | binapigen/generate_encoding.go:30-132 | the lines appended for Size are those of the Size program |
| Generator.GenFile.GenMessageMethodMarshal | binapigen/generate_encoding.go:134-145 | the lines appended for Marshal are those of the Marshal program |
| Generator.GenFile.GenMessageMethodUnmarshal | binapigen/generate_encoding.go:279-289 | the lines appended for Unmarshal are those of the Unmarshal program |
| Generator.GenFile.SizeBaseType | binapigen/generate_encoding.go:34-55 | one size line for a base type, in its string, counted, fixed and single forms |
| Generator.GenFile.SizeFields | binapigen/generate_encoding.go:57-125 | the lines of all fields, with the nesting level restored at the end |
| Generator.GenFile.SizeField | binapigen/generate_encoding.go:66-123 | a base field, a single value, or the loop over an array with its index named after the level |
| Generator.GenFile.SizeType | binapigen/generate_encoding.go:97-122 | the lines of one value of an enum, alias, struct or union |
| Generator.GenFile.EncodeBaseType | binapigen/generate_encoding.go:224-277 | the encoder lines of a base type, with the loop over an array |
| Generator.GenFile.EncodeFields | binapigen/generate_encoding.go:147-157 | the encoder lines of all fields at one nesting level |
| Generator.GenFile.EncodeField | binapigen/generate_encoding.go:159-222 | a size field encodes the length of its array, any other field its own value |
| Generator.GenFile.EncodeValue | binapigen/generate_encoding.go:168-222 | the encoder lines of a value, with the loop over an array |
| Generator.GenFile.EncodeType | binapigen/generate_encoding.go:196-217 | the encoder lines of one value of an enum, alias, struct or union |
| Generator.GenFile.DecodeBaseType | binapigen/generate_encoding.go:355-410 | the decoder lines of a base type, with allocation and loop |
| Generator.GenFile.DecodeFields | binapigen/generate_encoding.go:291-301 | the decoder lines of all fields at one nesting level |
| Generator.GenFile.DecodeField | binapigen/generate_encoding.go:303-353 | allocation of a counted array and the loop over its elements |
| Generator.GenFile.DecodeType | binapigen/generate_encoding.go:325-348 | the decoder lines of one value of an enum, alias, struct or union |
| Generator.ParseFlatten | binapigen/generate_encoding.go:30-410 | lines with matched braces parse back to the statements they came from |
| Scoping.TextIsProgram | binapigen/generate_encoding.go:24-28 | the appended lines of each of the three methods parse back to exactly its program |
| Scoping.NoCapture | binapigen/generate_encoding.go:147-353 | every variable an emitted statement uses is in scope and no loop declares one that is, at any nesting depth |
| SizeProof.EmittedSizeIsWireLength | binapigen/generate_encoding.go:30-132 | running the emitted Size returns the number of bytes the value stands for, and one more for each union of size 0, and changes nothing else |
| MarshalProof.EmittedMarshalWritesWire | binapigen/generate_encoding.go:134-277 | running the emitted Marshal in a zeroed buffer with that much room writes exactly those bytes and advances over them, without leaving the buffer |
| ShortBuffers.MarshalNeedsRoom | binapigen/generate_encoding.go:134-277 | running the emitted Marshal in a zeroed buffer succeeds exactly if the buffer holds the bytes of the value; otherwise it leaves the buffer |
| UnmarshalProof.EmittedUnmarshalReadsNorm | binapigen/generate_encoding.go:279-410 | running the emitted Unmarshal on those bytes replaces any earlier content of the receiver by the normalised value and consumes exactly those bytes |
| AnyBytes.EmittedUnmarshalOfAnyBytes | binapigen/generate_encoding.go:279-410 | running the emitted Unmarshal on any bytes panics, or gives a value of the type in which every size field holds the length of its array and every variable string is shorter than 2^32 |
| MessageCodec.EncodedBytes | codec/codec.go:41-76 | an encoded message is its header and the value's bytes, and one zero byte for each union of size 0 |
| MessageCodec.SizeIsAdvance | codec/codec.go:41-76 | Size exceeds what Marshal advances by the number of unions of size 0, so that they agree exactly if there is none |
| MessageCodec.DecodedValue | codec/codec.go:78-107 | decoding gives the normalised value whatever the header bytes hold |
| MessageCodec.MessageRoundTrip | codec/codec.go:41-107 | decoding an encoded message gives back the normalised value, and reads to the end of the value's bytes, exactly if every length fits its size field |
| MessageCodec.OnlyFittingValues | codec/codec.go:78-107 | no bytes at all decode to the normalised value of a value with a length that does not fit |
| MessageCodec.DecodedIsSound | codec/codec.go:78-107 | whatever is decoded is of its type, with every size field the length of its array |
| MessageCodec.TrailingBytes | codec/codec.go:78-107 | bytes behind the message do not change what is decoded |
| MessageHeaders.NewMessage | binapigen/binapigen.go:318-341 | the Go type has the fields from the first that has no header field's name on |
| MessageHeaders.GetMsgType | binapigen/binapigen.go:355-387 | the type of a message follows from its first three names |
| MessageHeaders.EncodedIsWhole | codec/codec.go:41-76 | EncodeMsg of the Go type's fields is the wire form of the whole API message, with the ID and zeros in its header fields, exactly if the header is one of the four plain ones |
| MessageHeaders.WholeIsDecoded | codec/codec.go:78-107 | DecodeMsg of a whole API message gives the normalised value of its own fields whatever the header fields hold, and refuses what is shorter than the header |
| MessageHeaders.HeaderFilledIn | adapter/socketclient/socketclient.go:505-509 | filling in the header of a request changes its fields client_index and context to the given values and nothing else |
| MessageHeaders.ContextIsField | codec/codec.go:109-118 | the decoded context is the value of the field context, and 0 without one |
| MessageHeaders.ContextFirst | binapigen/binapigen.go:318-387 | a message whose header fields are left out but have no room |
| MessageHeaders.CapitalContext | binapigen/binapigen.go:318-387 | one whose field Context is left out, by its name without case, but does not make it a reply |
| MessageCodec.NormUnchanged | binapigen/generate_encoding.go:147-410 | the normalised value is the value itself exactly for canonical values |
| MessageCodec.CanonicalRoundTrip | codec/codec.go:41-107 | among values whose lengths fit, exactly the canonical ones come back unchanged |
| CountOverflow.CountWraps | binapigen/generate_encoding.go:159-222 | for the smallest messages with a counted array: one that is too long comes back cut to its length modulo the range of the size field; whole exactly when it fits |
| Unions.FieldLengthIsWire | binapigen/generate_encoding.go:34-125 | fields without variable-length content take the same number of bytes for every value |
| Unions.CountedExactly | binapigen/types.go:138-181 | getSizeOfField never exceeds the encoded size, and equals it exactly for the members it counts in full |
| Unions.UnionSizeIsLargestEncoding | binapigen/types.go:126-136 | for such members getUnionSize is the largest encoded size: a bound for all and met by one |
| Unions.SetterNeedsRoom | binapigen/generate_api.go:318-333 | a member that is no array and of fixed size can be set exactly if its encoding is no longer than the data field, which then holds that encoding and zeros |
| Unions.UnionRoundTrip | binapigen/generate_api.go:289-346 | exactly under that condition the constructor succeeds, and the getter then returns the value set, up to what follows a NUL in a fixed string |
| Unions.GoodMembersFit | binapigen/types.go:126-168 | a union whose members are counted in full can hold each of them |
| Unions.AliasOfStructOverruns | binapigen/types.go:138-156 | a family of unions in which setting the first member leaves the data field, for every value |
| Unions.EmptyUnionIsCounted | binapigen/generate_encoding.go:34-122 | a union of size 0, which takes no byte and for which Size counts one |
| RequestContext.UnpackPack | core/request_handler.go:373-389 | unpacking gives back what was packed exactly for channel IDs below 2^15, and pool IDs never pack to 0 |
| RequestContext.PackUnpack | core/request_handler.go:373-389 | packing what was unpacked gives back the context |
| RequestContext.SetMsgRequestHeader | adapter/socketclient/socketclient.go:478-509 | too short a message is refused; otherwise only bytes 2 to 10 change |
| RequestContext.CorrelationRoundTrip | codec/codec.go:109-130 | a context put into a request leaves message ID and payload alone, is decoded from the request and from any reply that echoes it, is not 0 and unpacks to its channel, flag and number |
| RequestContext.HeaderKeepsMessage | adapter/socketclient/socketclient.go:505-509 | a request with its header filled in keeps its encoded fields from byte 10 on and decodes to the value that was encoded |
| RequestContext.CompareExactly | core/request_handler.go:391-410 | comparing unbounded counters by their low 16 bits gives the sign of their difference exactly when it is comparable, which it is within 2^15 |
| RequestContext.HalfwayIsAmbiguous | core/request_handler.go:396-410 | at a distance of 2^15 each number precedes the other |
| Channels.AwaitIsFifo | core/channel.go:292-347 | waiting for a request drops exactly the older replies in front, takes the head if it is for the request, and otherwise loses nothing |
| Channels.AwaitSettles | core/channel.go:292-347 | a receiver that gets enough turns finds the first reply that is not too old |
| Channels.Channel.NextSeqNum | core/channel.go:171-174 | the number shown is the low 16 bits of an unbounded counter, through wraparound |
| Channels.Channel.SendReply | core/request_handler.go:304-325 | a reply is queued last, or dropped if the channel is full |
| Channels.Channel.ProcessReply | core/channel.go:349-363 | an older reply is ignored, a newer one is kept in the free slot and reported missing, an equal one is taken |
| Channels.Channel.ReceiveReply | core/channel.go:292-347 | slot and channel together behave as one queue, and the slot is full afterwards exactly when a reply was reported missing |
| Channels.Channel.Reset | core/channel.go:423-445 | both Go channels are drained, in any order, and the slot is not |
| ChannelRuns.AwaitRefines | core/channel.go:292-363 | with 16-bit numbers a wait has the outcome, and leaves the queue, of a wait by true numbers |
| ChannelRuns.RunRefines | core/channel.go:171-363 | a whole run of sends, deliveries, waits and resets has the outcomes of the ideal channel, through any number of wraparounds |
| ChannelRuns.Execute | core/channel.go:171-445 | each step of these runs is what the methods of the channel object do |
| ChannelRuns.OnlyOwnReplies | core/channel.go:349-363 | no wait in any run accepts a reply to another request |
| ChannelRuns.OnlyOwnDataDecoded | core/channel.go:292-399 | in every run a wait decodes some data exactly if the ideal channel matches a reply with that data, which answers the request itself, is no error, not the end of a multipart reply, and the expected message |
| ChannelRuns.EarlyReplyIsNotLost | core/channel.go:300-315 | the reply that made an earlier one count as missing is returned by the next wait for it, at once |
| Receivers.AnswersAreReported | core/channel.go:349-399 | in every run each answer to a request is reported as what it is: a refusal as its error, the control ping reply as the end, another message decoded or as one of two errors; and an error, an end, a missing reply and a timeout are reported for nothing else |
| Receivers.TakenInOrder | core/channel.go:292-363 | while one request is received, what is accepted followed by what is queued are all its answers in order of arrival |
| Receivers.ToldInOrder | core/channel.go:258-264 | a receiver of one request is told its answers one by one in order, whatever else arrives; only a multipart request is told an end |
| Receivers.DumpIsComplete | core/channel.go:258-264 | a receiver of a dump is told its parts in order and the end behind all of them |
| Receivers.RefusalIsTold | core/request_handler.go:35-53 | a receiver of a refused request is told the error and nothing else |
| Connections.PoolIsFifo | core/channel.go:447-478 | over any run, IDs handed out followed by IDs left are the first IDs followed by those put back |
| Connections.ReissuedLast | core/channel.go:460-478 | a released ID is handed out again only after every ID that was free at its release |
| Connections.IdPool.constructor | core/channel.go:452-458 | the pool starts with 1 to the maximum in order |
| Connections.IdPool.Get | core/channel.go:460-472 | takes the first ID, and fails exactly on an empty pool |
| Connections.IdPool.Put | core/channel.go:474-478 | the ID goes to the end |
| Connections.PoolFitsContext | core/connection.go:180 | the IDs 1 to 0x7fff are exactly those that come back from every packed context and never make it 0 |
| Connections.PartitionMoves | core/channel.go:116-149 | taking, giving back and rotating IDs keep free and live IDs a partition of 1 to 0x7fff without duplicates |
| Connections.Connection.constructor | core/connection.go:157-208 | a new connection has all IDs free |
| Connections.Connection.NewChannel | core/channel.go:116-149 | success gives the first free ID, registers only that channel and takes it from the channel pool or makes it; failure changes no open channel; free and live IDs stay a partition and each live ID maps to a channel carrying it |
| Connections.Connection.ReleaseAPIChannel | core/connection.go:335-350 | the channel is no longer reachable and its ID is put at the end of the pool |
| Connections.Connection.Recycle | core/connection.go:348-349 | the channel object joins the pool with both Go channels drained, with its counter and slot |
| ChannelIds.EveryRun | core/channel.go:116-149 | in every interleaving of openings and closings each ID of 1 to 0x7fff is free, in transit or live, in one place and once, and the pool is worked as a queue |
| ChannelIds.StepKeepsOnePlace | core/connection.go:335-350 | taking, registering, giving up, unregistering and putting back an ID each keep it in one place |
| Connections.ReplyFindsItsRequest | core/request_handler.go:180-300 | a reply goes to a channel and sequence number exactly if it echoes the context packed for them |
| Connections.RoutedExactly | core/request_handler.go:180-300 | any message goes to a channel and number exactly if its context is the one packed for them and not 0, and nobody wants it as an event; events never do |
| Connections.Connection.MsgCallback | core/request_handler.go:262-294 | only the channel named by the context changes, by one reply holding a copy of the bytes; a control ping reply to a multipart request is its last part |
| RequestReply.ReplyReachesItsRequest | core/request_handler.go:56-300 | for every request on a pool channel and every reply value: the framed reply is read back whole, goes to the request's channel and number and is taken by the receiver behind any older replies; it ends the request exactly if it is the control ping reply of a multipart request, is otherwise decoded exactly if it is the expected message, and decodes to the normalised value |
| RequestReply.OlderAreDropped | core/channel.go:316-363 | a receiver with enough turns drops all older replies in front of its own and takes that one |
| Framing.UnframeFrame | adapter/socketclient/socketclient.go:541-553 | a framed message is found again, with what follows it, exactly when it is shorter than 2^32 bytes, whatever else the header holds |
| Framing.FrameLayout | adapter/socketclient/socketclient.go:541-553 | a frame is 16 bytes and the message; the length is big-endian in bytes 8 to 12 and the others are the pooled header's |
| Framing.StreamRoundTrip | adapter/socketclient/socketclient.go:511-573 | a stream of frames is the list of its messages, in order |
| Framing.WriteMsgHeader | adapter/socketclient/socketclient.go:541-553 | the length lands in bytes 8 to 12 and the pooled header is sent with its other bytes as they were |
| Framing.WriteMsgData | adapter/socketclient/socketclient.go:555-573 | the chunks are the message, for every writer size |
| Framing.WriteMsg | adapter/socketclient/socketclient.go:511-539 | one frame is appended to what was sent |
| Framing.ReadMsgHeader | adapter/socketclient/socketclient.go:669-691 | the length from bytes 8 to 12 after exactly 16 bytes, under any split into reads |
| Framing.ReadMsgData | adapter/socketclient/socketclient.go:693-734 | exactly the next bytes of the stream under any split into reads, in the caller's buffer if they fit there |
| Framing.ReadMsg | adapter/socketclient/socketclient.go:642-667 | the next message and nothing of the one behind it; fails exactly at an incomplete frame |
| Framing.ReaderLoop | adapter/socketclient/socketclient.go:575-605 | the queued copies hold all messages of the stream although the read buffer is reused |
| Framing.SendAndReceive | adapter/socketclient/socketclient.go:511-734 | every list of messages arrives exactly and in order |
| Lifecycle.EveryRun | core/connection.go:353-480 | in every interleaving adapter connects and disconnects alternate, events alternate and end with Failed, both channels are closed at most once, Failed follows exactly max(attempts, 0) + 1 attempts and NotResponding exactly threshold + 1 timeouts, and there are never more of either |
| Lifecycle.LoopEndsForAReason | core/connection.go:353-465 | the loop ends only after a Failed event, after a Disconnect closed healthCheckDone, or if no channel for probes can be opened |
| Lifecycle.AfterDisconnect | core/connection.go:273-306 | after a Disconnect has returned the loop is gone and the adapter is down unless another call is about to disconnect it |
| Lifecycle.StepKeepsInv | core/connection.go:243-397 | every single step of the loop or of a Disconnect call keeps the invariant behind both |
| Lifecycle.LoopFollowsPath | core/connection.go:353-480 | in every run the loop goes where its own choices take it, whatever Disconnect calls come in between |
| Lifecycle.ConnectsAtLast | core/connection.go:365-397 | failed attempts are repeated while there are attempts left, and the first that succeeds connects, unless a Disconnect stops the loop |
| Lifecycle.FailsInTheEnd | core/connection.go:365-397 | when all attempts fail the loop reports Failed and ends, unless a Disconnect stops it |
| Lifecycle.StaysConnected | core/connection.go:399-480 | nothing is reported while probes are answered or at most threshold in a row are not |
| Lifecycle.LossIsNoticed | core/connection.go:399-480 | one timeout more is reported as NotResponding and a failed probe as Disconnected, and the loop reconnects from attempt 0 |
| Lifecycle.DisconnectReturns | core/connection.go:273-306 | from every reachable state every Disconnect call can return without anything having to fail |
| StatsProtocol.ReportsOneVersion | adapter/statsclient/statsclient.go:166-238 | whatever the interleaving, a reported result, and an error that readErr lets through, are what the reader gets from the one directory of its epoch, unless a writer was in progress when accessEnd loaded the epoch and had finished when it loaded in-progress |
| StatsProtocol.StepKeepsInv | adapter/statsclient/statsclient.go:471-505 | every step of reader and writer keeps the invariant behind it |
| StatsProtocol.EpochNamesDirectory | adapter/statsclient/statsclient.go:487-493 | two idle states of a run with the same epoch have the same directory |
| StatsProtocol.QuietAccessSucceeds | adapter/statsclient/statsclient.go:471-493 | with an idle writer the access succeeds, with the result of the reader alone |
| StatsProtocol.WaitsForWriter | adapter/statsclient/statsclient.go:471-483 | while a writer is at work accessStart goes on looking, and gives up exactly when its time is up |
| StatsProtocol.OnlyTimeFails | adapter/statsclient/statsclient.go:471-483 | with an epoch in the segment nothing else makes an access fail to start |
| StatsProtocol.AccessAfterWriter | adapter/statsclient/statsclient.go:471-493 | once the writer has finished in time the access that waited succeeds with the result of the reader alone |
| StatsProtocol.TornEpochPairMixesVersions | adapter/statsclient/statseg_v2.go:58-91 | a whole run in which the two loads of accessEnd are torn and a mixed read succeeds |
| StatsProtocol.MixtureReportedExactly | adapter/statsclient/statsclient.go:487-505 | a reader that is done with a mixed read can have it reported exactly if the writer is in progress and has not moved the epoch |
| StatsProtocol.FinishBetweenLoads | adapter/statsclient/statseg_v2.go:58-91 | from every such state there is a run that reports what was read, whatever it is |
| StatsProtocol.UpdateEpochExactly | adapter/statsclient/statsclient.go:273-302 | in every run of UpdateDir that reports, the epoch is the directory's exactly if it did not move between the comparison and the end of accessStart |
| StatsProtocol.UpdateMayOutrunItsEpoch | adapter/statsclient/statsclient.go:273-302 | for every reader that finishes, a run in which UpdateDir reports what it reads on a later epoch than the directory's |
| StatsProtocol.StaleExactly | adapter/statsclient/statsclient.go:278-284 | UpdateDir refuses a directory as stale in exactly the runs that find another epoch at the comparison |
| StatsProtocol.UpdateDirSucceeds | adapter/statsclient/statsclient.go:273-302 | UpdateDir without an error either refreshed everything from one directory, or nothing, because one load gave a nil vector; that is the vector of its epoch if the writer has not moved since |
| StatsProtocol.NilVectorIsNotChecked | adapter/statsclient/statsclient.go:289-292 | a run in which the vector is nil only while the writer is at work and UpdateDir succeeds without refreshing anything |
| StatSegment.AdjustComparesAddresses | adapter/statsclient/statseg_v2.go:382-393 | the 64-bit arithmetic and comparisons on absolute addresses accept exactly the words that are offsets strictly inside the segment, wherever it is mapped |
| StatSegment.LegacyTypes | adapter/statsclient/stat_segment_api.go:42-59 | the two type numberings agree but for the error entries that the older one has at 4 |
| StatSegment.EntryName | adapter/statsclient/statseg_v2.go:75-86 | the slice of the mapped memory in front of the first NUL, and empty without one |
| StatSegment.NameOfEntry | adapter/statsclient/statseg_v2.go:75-86 | that slice is followed by a NUL and holds none, or is empty if there is none |
| StatSegment.NameCheckMeans | adapter/statsclient/statsclient.go:633-649 | while the memory of a held name is as it was, the name check accepts exactly the entries of that name |
| StatSegment.NameComparedWithItself | adapter/statsclient/statsclient.go:633-649 | while the directory vector stays in place the name check compares lengths only, and takes a new name for the old one exactly if it is as long |
| StatSegment.GetSymlinkIndexes | adapter/statsclient/statseg_v2.go:400-417 | the word is split exactly: word == index1 + index2 * 2^32 |
| StatCopies.CopyErrors | adapter/statsclient/statseg_v2.go:105-123 | one counter for each worker whose vector is in range, in order |
| StatCopies.CopyRow | adapter/statsclient/statseg_v2.go:142-148 | all counters of a worker |
| StatCopies.CopyItem | adapter/statsclient/statseg_v2.go:149-158 | the one counter asked for, or zero |
| StatCopies.CopyCounters | adapter/statsclient/statseg_v2.go:125-195 | the full table or one column of it, with empty rows for pointers out of range |
| StatCopies.CopyName | adapter/statsclient/statseg_v2.go:216-225 | the bytes of one name other than NUL |
| StatCopies.CopyNames | adapter/statsclient/statseg_v2.go:197-227 | the names without their NUL bytes |
| StatCopies.CopyEntryData | adapter/statsclient/statseg_v2.go:93-254 | a copy of what is in the segment, by entry type, following links |
| SegmentLayout.HeldIsCopied | adapter/statsclient/statseg_v2.go:93-227 | of a segment that holds a stat of any type, in either numbering of the types, CopyEntryData returns just that stat, or the one item of each worker |
| SegmentLayout.LinkIsFollowed | adapter/statsclient/statseg_v2.go:229-247 | through a link it returns what the named entry holds, for the named item |
| SegmentLayout.EntryNameIs | adapter/statsclient/statseg_v2.go:75-86 | the name found is the one held in the entry's 128 bytes, and none if they hold no NUL |
| SegmentLayout.RowCanBeHeld | adapter/statsclient/ statseg_v2.go:30-48 | every row of simple or combined counters is held by some segment |
| StatCopies.LinkReadsColumn | adapter/statsclient/statseg_v2.go:229-247 | a link to an item of a counter vector reads that column of the full read, zero where a worker's vector is shorter |
| StatCopies.OneLinkIsEnough | adapter/statsclient/statseg_v2.go:229-247 | one step of recursion suffices exactly unless a link without an item names a link |
| StatCopies.SelfLinkNeverEnds | adapter/statsclient/statseg_v2.go:229-247 | a link to itself without an item does not end in any number of steps |
| StatCopies.SelfLinkExists | adapter/statsclient/statseg_v2.go:229-247 | a segment with such a link |
| SymlinkChains.ReadingEndsExactly | adapter/statsclient/statseg_v2.go:229-247 | reading an entry ends exactly if the chain of links without an item from it does not come back to an entry, and then after at most 2^32 + 1 steps |
| SymlinkChains.StepsNeeded | adapter/statsclient/statseg_v2.go:229-247 | reading takes a step for each link of the chain |
| SymlinkChains.PairNeverEnds | adapter/statsclient/statseg_v2.go:229-247 | two links that name each other do not end |
| StatUpdates.Holder.UpdateCounters | adapter/statsclient/statseg_v2.go:283-335 | refuses another number of rows, and otherwise replaces the rows that can be read |
| StatUpdates.Holder.UpdateName | adapter/statsclient/statseg_v2.go:359-372 | overwrites in place up to the first NUL, and runs over the end exactly if there is none in time |
| StatUpdates.Holder.UpdateNames | adapter/statsclient/statseg_v2.go:337-372 | names one by one, stopping with those before a mismatch overwritten |
| StatUpdates.Holder.UpdateEntryData | adapter/statsclient/statseg_v2.go:256-380 | the new content of the variable for each kind of held data |
| StatUpdates.UpdateIsFreshCopy | adapter/statsclient/statseg_v2.go:93-380 | with the type unchanged, pointers in range and NUL-terminated names, an update of counters or names succeeds exactly when the lengths are unchanged, any other always, and then equals a fresh copy |
| StatUpdates.UnreachableIsKept | adapter/statsclient/statseg_v2.go:93-380 | of data that cannot be reached a copy is nil, while an update succeeds and keeps what was held |
| StatUpdates.RowsExactly | adapter/statsclient/statseg_v2.go:283-335 | without pointers in range the rows equal a fresh copy exactly when the unreadable rows were empty |
| StatUpdates.NameExactly | adapter/statsclient/statseg_v2.go:358-372 | with a NUL inside a name the update equals a copy exactly when it is the only one and the tail was in place |
| Imports.NormalizedName | binapigen/vppapi.go:89-95 | directories and dotted suffixes disappear, and a plain name stays |
| Imports.ListImportedFiles | binapigen/vppapi.go:56-86 | fails exactly if some import is not found, and otherwise lists all imported files, each once, each behind its own imports, and never the file itself |
| Imports.AddImport | binapigen/vppapi.go:68-84 | one import adds the imported file and what it imports, unless listed already |
| Imports.BelowRank | binapigen/vppapi.go:56-86 | in an acyclic graph what a file imports ranks below it |
| Normalization.ListOfKind | binapigen/vppapi.go:133-147 | the names of one kind that some imported file defines in that kind too |
| Normalization.Remove | binapigen/vppapi.go:227-256 | the types whose names are not dropped, whole and in order, and where they were |
| Normalization.ListImportedTypes | binapigen/vppapi.go:130-214 | the names a file defines and also gets by import in the same kind |
| Normalization.RemoveImportedTypes | binapigen/vppapi.go:217-262 | exactly the types of those names disappear, of whatever kind; the others stay whole and in order |
| Normalization.PrunedDefinitions | binapigen/vppapi.go:217-262 | a definition is in the pruned file exactly if it was there and its name is not imported |
| Normalization.NothingImported | binapigen/vppapi.go:217-262 | a file without imports is unchanged |
| Normalization.StaysProvided | binapigen/generator.go:80-87 | pruning one file leaves every name available in every file that had it |
| Normalization.KindLostExactly | binapigen/vppapi.go:217-262 | pruning a file takes a name of one kind from a file exactly if the pruned file was the only one to provide it and drops the name, which it then imports in another kind |
| Normalization.EnumIsLost | binapigen/vppapi.go:217-262 | a file with a struct and an enum of one name that imports such a struct loses the enum |
| Normalization.KindStays | binapigen/vppapi.go:217-262 | where no file uses a name for two kinds, every name stays available in its kind |
| Normalization.OrderDoesNotMatter | binapigen/generator.go:80-87 | where no file uses a name for two kinds, pruning a file when others are pruned already gives what pruning it first gives |
| Normalization.PrunedIsSeparate | binapigen/vppapi.go:217-262 | a pruned file shares no type name of one kind with what it imports |
| Normalization.Normalize | binapigen/generator.go:80-87 | after the loop, for any file order, each file has definitions it had, whole and in order, and all of them without imports; no file shares a same-kind type name with what it imports and every name first available in a file still is; where no file used a name for two kinds, also in its kind, and each file has lost exactly what it first had by import |
| CamelCase.CollapsedIsTidy | binapigen/strings.go:112-137 | only underscores go, and one stays only in front or singly between two digits |
| CamelCase.DigitsStayApart | binapigen/strings.go:128-131 | a run of underscores between two digits becomes one |
| CamelCase.Underscores | binapigen/strings.go:118-131 | how many of a run of underscores go: all, or all but one between digits |
| CamelCase.DropUnderscores | binapigen/strings.go:118-134 | shifting the rest forward in place leaves what is kept of the run and what follows it |
| CamelCase.Words | binapigen/strings.go:113-160 | the loop leaves in its array the words of the name, each in its case |
| CamelCase.Capitalize | binapigen/strings.go:144-157 | one word gets its case and nothing else changes |
| CamelCase.CamelCaseName | binapigen/strings.go:92-161 | ends within bounds for every name and gives its words in their case, which up to case is the name without superfluous underscores, all else in order |
| CamelCase.NameIsCollapsed | binapigen/strings.go:92-161 | the words in their case are, up to case, the name without superfluous underscores |
| CamelCase.SplitIntoWords | binapigen/strings.go:112-141 | no word has a small letter in front of anything but another |
| CamelCase.LaterWordsStand | binapigen/strings.go:144-157 | every later word starts with a capital or with no small letter, and is in the case of its initialism if it is one; the first keeps its case unless it is one |

## Left out

- Record fields are selected by position: the generator's Go names are taken to be distinct.
- A float64 is its 64-bit pattern; encoding does not look inside it.
- A slice's capacity is its length: Go lets `data[2:6]` reach into the capacity of a shorter slice.
- Well-formed schemas only (`Schema.WellFormed`): a size field precedes its one array, no array is
  unsized, an alias is a scalar, a byte array or an unsized struct, no member of a union is of a base
  type (the generator panics). For other array aliases the emitted encoder does not index the element.
- Codec.Buffer.EncodeUint: one method with the width as a parameter stands for the four methods of the source, which differ in nothing else.
- Union setters are modelled on zeroed data, as the constructor calls them. Setters and getters of members that are arrays do not compile and are not modelled.
- AnyBytes.EmittedUnmarshalOfAnyBytes: `make` with a negative count is a panic; running out of memory for a large one is not modelled.
- Channels.Channel.SendReply: a receiver that makes room while the sender waits for its timer is the same as one that made room before; the wait itself is not modelled.
- StatCopies.CopyEntryData: the number of links followed is bounded by a parameter, because the source may follow links for ever; `OutOfSteps` with every bound is that case, and `SymlinkChains` says exactly when it happens. Reading outside the mapping, which only a length in the segment can cause, reads whatever lies there.
- Connections.Connection.NewChannel: on the class opening, releasing, recycling and dispatching are single steps. `ChannelIds` takes the ID's way apart; a callback that looked a channel up before its release and queues a reply after its drain is not modelled.
- StatsProtocol.ReportsOneVersion: assumes the writer's order of steps; it does not hold for the torn loads of accessEnd, as under Findings.
- Imports.ListImportedFiles: on a cycle of imports the source does not terminate; the model asks for an acyclic graph.
- The order of files given by `SortFilesByImports` and the sorting inside a file: claims hold for any order.
- `Stream.recvReply`, which matches replies without sequence numbers.
- Receivers.RefusalIsTold: takes the refusal as given; which requests `processRequest` refuses (not connected, unknown message, failed encoding or sending) is not modelled.
- Refreshing symlink entries through `UpdateDir`, which skips them, and version 1 stats segments.
- Listing of stats names by pattern, and its early end at an unnamed entry.
- `adapter/tcpclient`, whose framing is that of the socket client.
- Read errors in the middle of a frame, after which the source goes on out of step.
- Delivery of notifications, return values in replies, logging, tracing, statistics of errors.
- The text of generated Go beyond its statements, import injection, RPC and HTTP stubs, helper types.
- The library functions behind `camelCaseName`: title-casing, the Unicode tables and the table of initialisms are parameters with the properties in `CamelCase.Sane`.
- Epochs, attempt counters and request numbers are unbounded; only sequence numbers wrap.
