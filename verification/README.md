# Consul's net/rpc and its codecs, verified

This project models, in Dafny, the RPC client and server of `net/rpc`, the MessagePack and Binc codecs of
`go-msgpack/codec` underneath them, and the framing of `net-rpc-msgpackrpc`, and proves what they promise:
calls complete exactly once, replies reach the call that asked, what is encoded comes back, symbol dictionaries
stay in step, and nothing is read or written outside its buffer. `dafny verify dfyconfig.toml` checks everything.

## How it is built

**The client as a protocol** (`Client`, `ClientRuns`, `ClientHistory`, `ClientProgress`, `ClientWrap`, `ClientObject`). Any number of
`send` threads, the `input` thread and `Close` callers are threads of a step machine; every lock operation, every
critical section and every codec call is a step of its own, and a codec call may return anything, including
responses with arbitrary sequence numbers. `Client.Inv` is kept by every step. From it follow, over all runs:
at-most-once completion, exactly one holder for each open call, exactly-once completion and a frozen client after
the input loop has exited, absence of deadlock, a bound on the length of runs, and that every call can be brought
to its end. `ClientHistory` says of each completion what it reports and why, from the codec calls and Close calls
of the run. `ClientObject` has the fields and methods of the source; its ghost trace shows that each method, run
without interruption, is a run of the machine.

**End to end** (`Wire`, `EndToEnd`, `EndToEndLimits`). The client machine, two byte streams, and a server that
serves one request at a time. Headers are the structs of `net/rpc`, written and read with the codec's own struct
encoding; bodies are read into the types that the method and the caller ask for. The service methods, the lookup
errors and the types are arbitrary functions. A failed write may leave any number of bytes. A run is whole
(`EndToEnd.Whole`, a condition on each step) when a write leaves nothing or all of an encodable message, a body that
decodes at all has a type that holds it, and nobody calls `ServeRequest` again on a connection whose last request
was left unread, which it reports as an error.

**The server** (`FreeList`, `Server`). Request and response objects on the heap, linked through `next`, with every
access to a free list a step of its own; connections interleave freely.

**The codecs**. `MsgpackDriver`, `BincDriver`, `Timestamp`, `Codec`, `Structs`, `Streams` and `SpecRpc` give the
formats as functions on values and byte strings and prove the round trips, both formats at once where they share
code. `Writer`, `MsgpackEncoder`, `BincEncoder`, `Encoder`, `StructEncoder`, `Reader`, `MsgpackDecoder`,
`BincDecoder`, `Decoder`, `StructDecoder` and `FieldIndex` are the source's own form (growing buffers, scratch
arrays, the looked-ahead descriptor, the symbol maps, the container loops) proved equal to those functions, errors
included. `Meaning`, `Keys`, `Floats`, `Updates` and `Formats` say in other terms what the formats' functions
mean: numbers and texts, equal keys, IEEE values, what decoding leaves in place, and the bytes of the formats' tables.
`Transfer` and `Connection` put the two halves together, value by value and as the codec of a connection.

A typed destination is a `Kind`, nested as deeply as the Go type; the value of a struct is the array of its fields.
Decoding updates a destination that already holds something, as the source's documentation says; `Populated` is
reflect's refusal to set a value that sits in an interface.

A Go panic that `Encode` or `Decode` turns into an error is an `Err` or `Panic` value. Floats are IEEE bit
patterns. A Go map is its entries in iteration order. Fixed-width arithmetic is written out (`% TWO64`,
`ToSigned`). Every lemma carries `{:induction false}`: all inductions are explicit. `hide` in a body keeps
definitions out of a proof that does not need them.

## Where a promise does not hold

- Sequence numbers: with more than 2^64 calls the counter wraps and an open call is lost (`ClientWrap.WrapLosesCall`).
- A request or response of which only the header was written shifts the stream, and later calls can get replies that
  are not theirs (`EndToEndLimits.HeaderOnlyRequest`, `HeaderOnlyResponse`). This happens without any network error:
  `MsgpackCodec.write` has encoded the header when the body turns out not to be encodable
  (`Connection.MsgpackCodec.Write`), and the next write follows it. The server ignores the write error altogether.
- A pre-body rejection does not read the body, which is taken for a header if the connection is served on
  (`EndToEndLimits.EarlyRejection`). The comment on `PreBodyInterceptor` promises only that an error response is
  returned, which it is.
- A number from -32 to -1 read into a string takes the bytes that follow for the string's
  (`EndToEndLimits.WrongReplyType`); `readContainerLen` accepts more descriptors than its family has
  (`MsgpackDriver.LenAccepts`, `TakesForeign`).
- An error with an empty text, from a method or from findMethod, is received as success
  (`EndToEndLimits.EmptyErrorIsSuccess`), and this is the only such error on whole runs (`EndToEnd.OwnResults`).
- `decodeInt` returns a uint64 of 2^63 or more as a negative number (`MsgpackDriver.DecIntExact`).
- Binc: negative integers of magnitude 0xFF800000 to 0xFFFFFFFF, lengths above 65535 and the 65537th symbol do not
  come back (`IntRoundTripExact`, `LenRoundTripExact`, `SymExact`). Minus zero comes back as zero
  (`FloatExact`), and minus one cannot be read into a float (`Structs.IntAsFloat`).
- The MessagePack-RPC codec writes the low 32 bits of a sequence number.

## Model

| member | source | states |
|---|---|---|
| Client.InvStep | net/rpc/client.go:71-182 | every step of every sender, of input, of Close and of a receiver keeps the protocol invariant, while at most 2^64 calls have been numbered: each lock has the owner its thread's program point says, and each numbered call is in exactly one of pending, the input thread, its failing sender and the completed calls |
| Client.InvRegister | net/rpc/client.go:76-87 | numbering a call keeps the invariant: the new number is used by nobody else |
| Client.InvDelete | net/rpc/client.go:92-96 | taking a call back after a failed write keeps the invariant, whether or not input has taken it first |
| Client.InvTake | net/rpc/client.go:113-117 | taking a call out for a response, of any sequence number, keeps the invariant |
| Client.InvFail | net/rpc/client.go:97-100 | completing a call whose write failed keeps the invariant |
| Client.InvDeliver | net/rpc/client.go:119-146 | completing a call by a response keeps the invariant |
| Client.InvTerminate | net/rpc/client.go:148-159 | announcing the shutdown under both locks keeps the invariant: no sender is between numbering and taking back |
| Client.InvSweep | net/rpc/client.go:160-163 | completing a pending call in the sweep, leaving its entry in place, keeps the invariant |
| Client.InvReject | net/rpc/client.go:77-82 | refusing a send keeps the invariant |
| ClientRuns.AtMostOnce | net/rpc/client.go:171-182 | in every reachable state done() has run at most once for any call, and no notification has been dropped by a private channel of capacity one or more |
| ClientRuns.OneHolder | net/rpc/client.go:83-117 | before shutdown a numbered call has not completed if and only if it is pending, with input or with its failing sender, and it is in only one of them |
| ClientRuns.SweepReports | net/rpc/client.go:151-163 | no call ended by the sweep carries a bare io.EOF, and a refused send carries ErrShutdown; which error a swept call carries is in the next row |
| ClientHistory.Explained | net/rpc/client.go:92-163 | every completion of every run is told by the run: a refusal only after a Close or the shutdown; a failed write's own error for the call it wrote; for a response, read under that call's number, the server's error, the reply or the reading error; for a swept call the error the loop ended on, where io.EOF becomes ErrShutdown if some Close came before the sweep and io.ErrUnexpectedEOF if none did |
| ClientHistory.EachNotified | net/rpc/client.go:171-182 | in every run each completion has put exactly one notification on its call's channel, where it waits or has been received |
| ClientHistory.NoneAfter | net/rpc/client.go:76-83 | once some Close has marked the client, or the input thread has shut it down, no further call is numbered |
| ClientRuns.FrozenRun | net/rpc/client.go:148-165 | once input has exited, no later run numbers, removes or writes anything; it adds only refusals of new calls to the completions |
| ClientRuns.AfterExit | net/rpc/client.go:148-169 | once input has exited, in every later run each call ever numbered has completed exactly once, stale pending entries are never completed again, and every send that returns has completed its call |
| ClientRuns.MutexHolderRuns | net/rpc/client.go:76-96 | whoever holds mutex can step, and its step is no codec call |
| ClientRuns.ReqHolderRuns | net/rpc/client.go:72-93 | when mutex is free, whoever holds reqMutex can step: reqMutex is always taken first |
| ClientRuns.NoDeadlock | net/rpc/client.go:71-165 | in every reachable state with an unfinished thread, the thread at the end of its chain of waits can step |
| ClientProgress.BoundedRun | net/rpc/client.go:104-169 | a run without new threads is no longer than a measure of its first state plus five steps for each response header received |
| ClientProgress.CanFinish | net/rpc/client.go:71-169 | from every reachable state some run ends all threads, with each call started completed exactly once |
| ClientWrap.WrapLosesCall | net/rpc/client.go:83-86 | the bound of 2^64 is needed: a run with one call more overwrites the first entry, and that call is never completed in any later run |
| ClientWrap.OverwriteExact | net/rpc/client.go:83-86 | in any state, registering a call leaves every call that is waiting under exactly one number with its own entry if and only if the counter's number is not in pending |
| ClientWrap.LostForever | net/rpc/client.go:83-117 | a call that no entry and no thread leads to stays uncompleted in every run |
| ClientObject.ClientObject.constructor | net/rpc/client.go:201-208 | a new client is in the protocol's initial state |
| ClientObject.ClientObject.Register | net/rpc/client.go:76-87 | the critical section numbers the call with the counter's value, or refuses it and changes nothing |
| ClientObject.ClientObject.Remove | net/rpc/client.go:93-96 | the critical section returns the call of that number, if any, and leaves the others |
| ClientObject.ClientObject.Send | net/rpc/client.go:71-102 | an uninterrupted send is a run of the protocol that ends refused, written or taken back, with exactly the pending entry and completion that belongs to it |
| ClientObject.ClientObject.HandleResponse | net/rpc/client.go:108-146 | one turn of the input loop is a run of the protocol; the waiting call, if any, is removed and completed with its reply, the server's error or the reading error |
| ClientObject.ClientObject.Terminate | net/rpc/client.go:148-165 | the termination loop is a run of the protocol that ends with input exited and the client shut down; it adds exactly one completion for each pending entry, with the error the loop ended on, or for io.EOF with ErrShutdown after Close and io.ErrUnexpectedEOF without |
| ClientObject.ClientObject.Input | net/rpc/client.go:104-169 | input, whatever the codec delivers before it fails, returns with every call ever numbered completed exactly once |
| ClientObject.ClientObject.Close | net/rpc/client.go:283-292 | only the first Close reaches the codec and returns its result; every other one returns ErrShutdown; pending is untouched |
| EndToEnd.SysStep | net/rpc/server.go:503-530 | every step of client, byte streams and server keeps both streams whole messages of the calls they belong to, at whatever point of a message each reader is |
| EndToEnd.OwnResults | net/rpc/client.go:83-146 | end to end, in every interleaving of calls with failed writes, on the bytes of every whole run: a call completed with a nil error that was not refused with an empty text has the reply of its own method on its own decoded arguments, in the type it asked for, if and only if its own error is not the empty text; a server error is the call's own or one it was refused with, and never empty |
| EndToEnd.ServiceResults | net/rpc/server.go:405-441 | the same in terms of the service: a call completed with a nil error was of a known method, that did not fail with a text other than the empty one and whose reply arrived; a server error is findMethod's or the method's |
| EndToEnd.ReplyOfSameType | net/rpc/client.go:139-145 | when the reply sent is the encoding of a value of the type the caller asked for, the caller has that value |
| EndToEnd.UpTake | net-rpc-msgpackrpc/codec.go:119-130 | bytes that are whole requests start with one that decodes as the header of a call and its number, with its arguments and whole requests behind it |
| EndToEnd.DownTake | net-rpc-msgpackrpc/codec.go:119-130 | the same for responses |
| Wire.RequestRead | net/rpc/server.go:174-178 | a request header written as a sorted map and followed by anything is read back into the declared struct with its number and method |
| Wire.ResponseRead | net/rpc/server.go:183-188 | a response header is read back with its number, method and error |
| Formats.RequestBytes | net/rpc/server.go:174-178 | a request header is, byte for byte, a map of the entries Seq and ServiceMethod |
| Formats.ResponseBytes | net/rpc/server.go:183-188 | a response header is a map of the entries Error, Seq and ServiceMethod |
| Wire.HeaderAsBody | go-msgpack/codec/decode.go:294-359 | a header read where a body is due is a map with an entry for each of its fields, without an error |
| Wire.ResponseAsRequest | go-msgpack/codec/decode.go:361-392 | a struct that has more fields than a request is read as a request header without an error |
| EndToEndLimits.CallCompletes | net/rpc/client.go:119-146 | for every service, method and arguments, some whole run completes the call with exactly what it is owed: the converted reply, the error, or for an empty error a success with an empty struct for reply |
| EndToEndLimits.CallSucceeds | net/rpc/client.go:298-323 | for every method that replies there is a whole run in which the call completes with exactly that reply, converted to the type it asked for |
| EndToEndLimits.EmptyErrorIsSuccess | net/rpc/server.go:405-422 | for every service and every call whose own error, from its method or from findMethod, has an empty text there is a whole run in which it completes with a nil error and a reply that is not its own |
| EndToEndLimits.HeaderOnlyRequest | net-rpc-msgpackrpc/codec.go:103-117 | with every setting of the handle: a request whose body the encoder refuses leaves its header, and the bytes that follow give a later call a reply that is not its own |
| EndToEndLimits.HeaderOnlyResponse | net/rpc/server.go:405-422 | a response whose body the encoder refuses, an error the server drops, gives its call the next header as reply |
| EndToEndLimits.EarlyRejection | net/rpc/server.go:583-589 | without any failed write: a pre-body rejection leaves arguments that read as a header, and when the connection is served on, another call gets a reply that is not its own |
| EndToEndLimits.WrongReplyType | go-msgpack/codec/msgpack.go:500-510 | a method that returns a small negative number to a caller that wants a string gives it, with a nil error, bytes of the next response |
| EndToEndLimits.NumberAsString | go-msgpack/codec/msgpack.go:601-619 | the one byte of the number -32 followed by 64 others is read as the string of those |
| FreeList.LinkedIsAcyclic | net/rpc/server.go:532-570 | a chain of next pointers that ends in nil meets no object twice |
| FreeList.FreeList.Get | net/rpc/server.go:532-543 | the object handed out is zeroed, was not in use, and is the head of the free list or new |
| FreeList.FreeList.Free | net/rpc/server.go:545-550 | the object given back becomes the head and is no longer in use; the list stays finite and disjoint from the objects in use |
| FreeList.FreeList.FreeTwice | net/rpc/server.go:441-442 | giving the same object back twice makes it its own successor, so that no finite list starts at the head |
| FreeList.FreeList.Count | net/rpc/server.go:532-570 | allocated = free + in use + dropped |
| Server.FoundExactly | net/rpc/server.go:627-649 | findMethod succeeds exactly on a registered service, a dot and one of its methods without a dot |
| Server.Server.Verdict | net/rpc/server.go:572-603 | a request's outcome is no error if and only if its name is a service, a dot and one of its methods, the method was called and returned none; a rejection, undecodable arguments and a failed method keep their own texts, and an unknown name gets a text that ends with it |
| Server.Fill | net/rpc/server.go:405-413 | a zeroed response object becomes the echo of the request's Seq and ServiceMethod with the call's error, if any |
| Server.Server.Begin | net/rpc/server.go:605-607 | a connection gets a zeroed request object that no other connection has |
| Server.Server.HeaderArrives | net/rpc/server.go:608-620 | the header read is in the connection's own request object and in nobody else's |
| Server.Server.ReadHeader | net/rpc/server.go:605-620 | the next item of the wire is consumed: a header goes into the connection's own request object, anything else is an error |
| Server.Server.HeaderFails | net/rpc/server.go:608-615 | a header that cannot be read writes no response, and its object is dropped |
| Server.Server.Handle | net/rpc/server.go:572-603 | exactly one more item of the wire is consumed on every path but an early rejection, where none is; the outcome is the verdict on what became of the request, which is recorded |
| Server.Server.TakeResponse | net/rpc/server.go:405-406 | a response object that no other connection has |
| Server.Server.WriteResponse | net/rpc/server.go:406-420 | the response written has the Seq and ServiceMethod of the header read, from the object the connection kept all along |
| Server.Server.FreeResponse | net/rpc/server.go:421-421 | the response object goes back to its free list |
| Server.Server.FreeRequest | net/rpc/server.go:441-443 | the request object goes back to its free list |
| Server.Server.Step | net/rpc/server.go:503-530 | any step of any connection keeps both free lists, the ownership of every object in use and every connection's record |
| Server.Server.Run | net/rpc/server.go:503-570 | any interleaving of any number of connections keeps them |
| Server.Server.OneResponseEach | net/rpc/server.go:503-530 | between requests a connection has written exactly one response for every header it read, in order, each echoing its header and carrying the outcome that what became of the request deserves |
| Server.Server.Accounting | net/rpc/server.go:532-570 | for both lists: no object twice in the list, allocated = free + in use + dropped, and each object in use is owned by exactly one connection |
| MsgpackDriver.HeadRoundTrip | go-msgpack/codec/msgpack.go:118-253 | schema-less reading of any scalar, or of a container's length, followed by anything, gives its normal form and stops at its end, under all four settings of WriteExt and RawToString |
| MsgpackDriver.LenRoundTrip | go-msgpack/codec/msgpack.go:240-253 | readContainerLen inverts writeContainerLen for every family and every length below 2^32 |
| MsgpackDriver.DecUintExact | go-msgpack/codec/msgpack.go:417-469 | for every integer from -2^63 to 2^64-1 and every width, decodeUint succeeds exactly on the naturals of that width and returns the number encoded |
| MsgpackDriver.DecIntExact | go-msgpack/codec/msgpack.go:378-414 | the same for decodeInt and signed ranges; from 2^63 on it returns the number less 2^64 |
| MsgpackDriver.FixTestAccepts | go-msgpack/codec/msgpack.go:612-613 | the descriptors that readContainerLen's mask test accepts, which are more than the fix range |
| MsgpackDriver.LenAccepts | go-msgpack/codec/msgpack.go:601-619 | readContainerLen takes a descriptor if and only if it is nil, one of the family's own, the zero byte for lists and maps, or one that the mask test lets through |
| MsgpackDriver.TakesForeign | go-msgpack/codec/msgpack.go:601-619 | for every family there is a descriptor that currentEncodedType gives another kind and that readContainerLen takes as a length |
| Formats.MsgpackIntegers | go-msgpack/codec/msgpack.go:122-160 | every integer is written in the shortest form of the format's table, byte by byte |
| Formats.MsgpackHeads | go-msgpack/codec/msgpack.go:118-253 | so are nil, booleans, floats and the lengths of strings, byte strings, arrays and maps, a string of 300 bytes for one starting with da 01 2c |
| Formats.MsgpackExtensions | go-msgpack/codec/msgpack.go:180-204 | so are extensions |
| Formats.MsgpackKinds | go-msgpack/codec/msgpack.go:551-591 | each of the 256 descriptors stands for what the format says |
| Formats.MsgpackNumbersRead | go-msgpack/codec/msgpack.go:277-336 | unsigned integers and floats are read from every form the format has, shortest or not |
| Formats.MsgpackSignedRead | go-msgpack/codec/msgpack.go:277-336 | so are signed integers, in two's complement |
| Formats.MsgpackLengthsRead | go-msgpack/codec/msgpack.go:601-619 | so are lengths |
| Formats.MsgpackExtensionsRead | go-msgpack/codec/msgpack.go:621-664 | so are extensions, of the fixed sizes and any other |
| Overflow.ShiftSignedIsRange | go-msgpack/codec/msgpack.go:407-411 | shifting an int64 up and down keeps it exactly when it is in the signed range of the width |
| Overflow.ShiftUnsignedIsRange | go-msgpack/codec/msgpack.go:462-466 | the same for a uint64 and the unsigned range |
| Floats.WidenKeepsValue | go-msgpack/codec/msgpack.go:473-477 | widening a float32 keeps its sign and value, subnormals included, and infinities and NaN stay so |
| Floats.FloatOfIntRounds | go-msgpack/codec/msgpack.go:478-479 | an int64 converts to the nearest double, ties to even, exactly below 2^53 |
| Codec.RoundTrip | go-msgpack/codec/encode.go:703-816 | for both formats: decoding the encoding of any encodable nested value, followed by any bytes, returns its normal form, leaves exactly those bytes and keeps the symbol dictionaries in step |
| Codec.SeqRoundTrip | go-msgpack/codec/encode.go:919-924 | the same for the elements of an array |
| Codec.MapRoundTrip | go-msgpack/codec/encode.go:990-996 | the same for the entries of a map, on top of entries already stored |
| Codec.StringsKeptApart | go-msgpack/codec/msgpack.go:338-353 | strings and byte strings come back apart if and only if the format is Binc or both flags are on |
| Codec.EncodableSupported | go-msgpack/codec/encode.go:703-816 | every value that the round trip is about is one that the encoder does not refuse |
| Meaning.SupportedExactly | go-msgpack/codec/encode.go:703-816 | the encoder refuses exactly the values that have a channel, function or the like somewhere inside, and in MessagePack a time |
| Meaning.DecodedMeans | go-msgpack/codec/encode.go:703-816 | decoding what was encoded, followed by anything, gives a value that means it: the same number whatever its Go type, the same bytes, tag and instant, and containers element by element, said without the normal form |
| Meaning.ScalarEncodable | go-msgpack/codec/encode.go:703-760 | what these theorems are about, for scalars: exactly what is within the widths of Go's types and the formats' lengths |
| Meaning.MapEncodable | go-msgpack/codec/encode.go:990-996 | a map whose keys are pairwise different integers or texts can be encoded whenever its parts can |
| Meaning.MapComesBack | go-msgpack/codec/decode.go:957-975 | such a map is decoded to as many entries, each under the same integer or text with a value of the same meaning |
| Keys.KeyEqExact | go-msgpack/codec/decode.go:964-974 | two decoded keys are one exactly when they are the same value, floats when they are equal numbers by IEEE 754, and times only in UTC |
| Keys.HashableExact | go-msgpack/codec/decode.go:964-974 | nil, booleans, numbers, texts, byte strings and times can be keys, containers and extensions cannot |
| Keys.LaterWins | go-msgpack/codec/decode.go:957-975 | storing an entry changes what is under its own key, to the later value, and under no other, and leaves one entry for each key |
| Keys.LastWins | go-msgpack/codec/decode.go:517-536 | after any sequence of entries each key has the last value stored under it |
| Updates.OverScalar | go-msgpack/codec/decode.go:294-299 | decoding onto an interface that holds a scalar, time or extension clears it for nil and is an error for anything else |
| Updates.OverSlice | go-msgpack/codec/decode.go:452-479 | onto a slice: a longer array is an error, a shorter one replaces its first elements and leaves the others |
| Updates.OverMap | go-msgpack/codec/decode.go:505-536 | onto a map: the entries are stored on top of those there |
| Updates.OntoBytes | go-msgpack/codec/msgpack.go:511-539 | onto a []byte: no bytes leave it as it is, others replace it, but not with another length when it sits in an interface |
| Updates.MapIntoSlice | go-msgpack/codec/decode.go:1027-1043 | a map read into a typed slice gives its keys and values in turn |
| Updates.OctetsIntoBytes | go-msgpack/codec/decode.go:421-480 | an array of small integers read into a []byte replaces its first bytes, or is longer |
| Updates.BoolsRead | go-msgpack/codec/msgpack.go:487-498 | booleans are read from exactly their descriptors, in MessagePack also from the integers 0 and 1 |
| Updates.NothingElse | go-msgpack/codec/msgpack.go:378-469 | no other descriptor is read as an integer, nor in Binc as a string |
| Codec.Dec | go-msgpack/codec/decode.go:294-359 | schema-less decoding is total on byte strings, and a success consumes at least one byte and never more than there are |
| Codec.DecSeq | go-msgpack/codec/decode.go:871-889 | n elements take at least n bytes, however large the claimed length |
| Codec.DecMap | go-msgpack/codec/decode.go:957-975 | n entries take at least 2n bytes |
| Bytes.PruneSignExt | go-msgpack/codec/helper_internal.go:90-100 | the loop counts exactly the leading bytes that repeat the sign of the byte after them |
| Bytes.PruneKeepsValue | go-msgpack/codec/helper_internal.go:90-100 | pruning keeps the two's-complement value, and the unsigned one when only zeros go |
| Bytes.PruneIsShortest | go-msgpack/codec/helper_internal.go:90-100 | a string pruned with its own sign is the shortest one with that value |
| BincDriver.IntRoundTripExact | go-msgpack/codec/binc.go:126-175 | an int64 decodes to itself if and only if it is not negative with a magnitude from 0xFF800000 to 0xFFFFFFFF |
| BincDriver.NegMagnitudeExact | go-msgpack/codec/binc.go:126-152 | exactly those magnitudes lose bytes that are not restored |
| BincDriver.MagnitudeShape | go-msgpack/codec/binc.go:438-469 | the width in the descriptor is always the number of bytes written, which is what the decoder reads |
| BincDriver.UintRoundTrip | go-msgpack/codec/binc.go:158-175 | for every integer and every width decodeUint succeeds exactly on the naturals of that width and returns the number encoded |
| BincDriver.DecIntExact | go-msgpack/codec/binc.go:500-505 | for every integer and every width decodeInt succeeds exactly when the integer seen is in the width's signed range, and the integer seen is the one encoded but for the pruned magnitudes and for 2^63 and above |
| BincDriver.LenRoundTripExact | go-msgpack/codec/binc.go:283-306 | encLen and decLen agree on a length if and only if it is below 65536 |
| BincDriver.FloatRoundTrip | go-msgpack/codec/binc.go:104-124 | a float64 other than zero keeps all its bits, pruned or not |
| BincDriver.FloatExact | go-msgpack/codec/binc.go:104-124 | a float64 decodes to the same bits if and only if it is not minus zero |
| BincDriver.SymRoundTrip | go-msgpack/codec/binc.go:198-264 | with at most 65536 symbols numbered, a symbol decodes to the string encoded, and the two dictionaries stay mutual inverses |
| BincDriver.SymbolIdsWrap | go-msgpack/codec/binc.go:229-233 | with 65536 symbols numbered, whichever they are, the next new one takes the id of an earlier one, which then decodes to the wrong string |
| BincDriver.SymExact | go-msgpack/codec/binc.go:198-264 | from any pair of inverse dictionaries a symbol decodes to its string, and the dictionaries stay inverse if and only if it has at most one byte, is known, or the counter is below 65536 |
| BincDriver.NumberedReached | go-msgpack/codec/binc.go:221-243 | writing the symbols 0 to k-1 one after another reaches k symbols numbered, for every k up to 65536 |
| BincDriver.HeadRoundTrip | go-msgpack/codec/binc.go:675-762 | schema-less reading of any Binc scalar, symbol or container length gives its normal form and keeps the dictionaries inverse |
| Formats.BincScalars | go-msgpack/codec/binc.go:126-175 | nil, booleans, zeros, minus one and small integers have the bytes of the format |
| Formats.BincWideScalars | go-msgpack/codec/binc.go:126-175 | larger naturals have a descriptor with their width and their big-endian bytes |
| Formats.BincLengths | go-msgpack/codec/binc.go:283-306 | lengths of strings, byte strings, arrays, maps and extensions have the bytes of the format |
| Formats.BincSymbols | go-msgpack/codec/binc.go:198-226 | a short symbol is written as a string and a known one by its id |
| Formats.BincNewSymbols | go-msgpack/codec/binc.go:227-264 | a new symbol is written with the next id, its length and its bytes |
| Formats.BincFloats | go-msgpack/codec/binc.go:104-124 | a float64 has its eight bytes, or says how many are left once trailing zeros are dropped |
| Formats.BincNumbersRead | go-msgpack/codec/binc.go:471-498 | integers are read at every width, shortest or not |
| Formats.BincLengthsRead | go-msgpack/codec/binc.go:576-581 | lengths are read from the descriptor or from a number after it |
| Formats.BincFloatsRead | go-msgpack/codec/binc.go:408-436 | floats of both widths are read in full or with zeros filled in |
| Formats.BincSpecialsRead | go-msgpack/codec/binc.go:675-710 | the special values, NaN and infinities included, are read from their descriptors |
| Formats.BincSymbolsRead | go-msgpack/codec/binc.go:588-606 | a known id is its symbol, an unknown one the empty string |
| Timestamp.TimeRoundTrip | go-msgpack/codec/time.go:111-173 | whatever lies beyond the slice: decoding an encoded time gives the same instant in the zone the format keeps, and the encoding has at most 15 bytes |
| Timestamp.SecsShortest | go-msgpack/codec/time.go:75-82 | the seconds field is the shortest two's-complement form of the seconds |
| Timestamp.ZoneKept | go-msgpack/codec/time.go:91-105 | a zone offset survives if and only if it is a whole number of minutes from -8192 to 8191 |
| Formats.TimeLayout | go-msgpack/codec/time.go:20-61 | the descriptor's bits and the three fields are laid out as the format's description says |
| Formats.CarriedTime | go-msgpack/codec/time.go:156-172 | nanoseconds of a second or more are carried into the seconds, and the instant stays |
| Timestamp.EncodeTime | go-msgpack/codec/time.go:62-108 | filling the two buffers in place yields the format |
| Timestamp.DecodeTime | go-msgpack/codec/time.go:111-173 | the in-place decoder reads the format, from the bytes beyond the slice where a field is cut off, and fails exactly where an index or a bound beyond the capacity would |
| Structs.FieldRoundTrip | go-msgpack/codec/decode.go:704-730 | a variable of any type, nested structs, slices and maps included, receives exactly the conversion of what was sent when it has a place for it, and reading stops at its end |
| Structs.TypedRoundTrip | go-msgpack/codec/decode.go:704-730 | encoding a value and decoding it into a variable of its own type gives the value back, however structs, slices and maps are nested in it and in whatever order fields are written |
| Structs.CanBeWritten | go-msgpack/codec/encode.go:457-503 | every value of every type that the format keeps has such an encoding |
| Structs.ElemsRoundTrip | go-msgpack/codec/decode.go:477-479 | the elements of a typed slice come back converted, in order, whatever basic values their places held |
| Structs.MapOfLastWins | go-msgpack/codec/decode.go:517-536 | the entries of a typed map, keys repeated or not, come back converted and stored one after the other on top of those there |
| Structs.SliceUpdate | go-msgpack/codec/decode.go:452-479 | a slice onto one that holds something replaces its first elements and leaves the others, or grows |
| Structs.MapUpdate | go-msgpack/codec/decode.go:505-536 | a map onto one that holds something replaces and adds entries |
| Structs.IntAsFloat | go-msgpack/codec/binc.go:517-540 | an integer sent reads into a float64 as its rounded conversion if and only if it is not Binc's minus one |
| Structs.IntegerExact | go-msgpack/codec/helper.go:581-596 | in both formats an integer read into an integer type of any width is the number if the width holds it and an error if not, but for what the formats change |
| Structs.NoConversion | go-msgpack/codec/helper.go:581-596 | reading an integer into an integer type fails exactly when it has no conversion |
| Structs.StructRoundTrip | go-msgpack/codec/decode.go:361-392 | a struct sent as a map by a sender with any other set of fields fills exactly the shared fields of a zeroed destination, of any types, stops at the end of the map and keeps the dictionaries in step, also when skipped values define symbols |
| Structs.StructUpdate | go-msgpack/codec/decode.go:600-618 | a struct sent onto one that already holds something: the shared fields become the conversions of what was sent, where their types replace or their places are zero, and every other field keeps what it held |
| Structs.MergedField | go-msgpack/codec/decode.go:361-392 | reading that result: a shared field has its conversion, every other field is zero |
| Structs.SentExactly | go-msgpack/codec/encode.go:471-487 | a field is left out exactly when it is marked omitempty and holds false, zero, no byte or element, or a nil interface; a field sent keeps its value |
| Structs.OmittedOrNot | go-msgpack/codec/encode.go:471-487 | between a sender and a receiver of one struct type every field arrives as the conversion of what the sender's held, even when it was left out, but that an empty slice or map may become nil and minus zero zero |
| Structs.ArrayForm | go-msgpack/codec/decode.go:393-414 | the elements of an array fill the fields by position; fields beyond the last keep what they held, and elements beyond the last field are consumed |
| Structs.FilledField | go-msgpack/codec/decode.go:393-414 | reading that result by position |
| FieldIndex.IndexForEncName | go-msgpack/codec/helper.go:393-419 | for every number of fields and every name, the linear and the binary search return the first field of that name, or -1 |
| FieldIndex.LessTotal | go-msgpack/codec/helper.go:356-358 | the order of encoded names is total and antisymmetric |
| FieldIndex.LessTrans | go-msgpack/codec/helper.go:356-358 | and transitive |
| Streams.StreamRoundTrip | net-rpc-msgpackrpc/codec.go:103-130 | after any sequence of header and body writes the reader recovers them in order, each body in the type asked for and whichever it reads to nowhere, and symbols defined in skipped parts stay known |
| Connection.MsgpackCodec.Write | net-rpc-msgpackrpc/codec.go:103-117 | a closed codec writes nothing and returns io.EOF; an open one returns an error if and only if the header or the body cannot be encoded, appends the header's and then the body's encoding otherwise, and leaves the header's bytes, and no others for a body refused outright, when the body fails |
| Connection.MsgpackCodec.ReadHeader | net-rpc-msgpackrpc/codec.go:119-130 | a closed codec returns io.EOF; an open one decodes the next struct and holds no descriptor afterwards |
| Connection.MsgpackCodec.ReadBody | net-rpc-msgpackrpc/codec.go:119-130 | the next value is decoded into the type asked for, and also when there is nothing to decode it into |
| Connection.MsgpackCodec.Close | net-rpc-msgpackrpc/codec.go:95-101 | only the first Close reaches the connection and returns its result |
| Connection.WriteMessages | net-rpc-msgpackrpc/codec.go:103-117 | messages written one after the other append exactly their stream, and succeed if and only if all can be encoded |
| Connection.ReadMessages | net-rpc-msgpackrpc/codec.go:119-130 | headers and bodies read in pairs from any bytes are those of the stream specification, errors included |
| Connection.Exchange | net-rpc-msgpackrpc/codec.go:103-130 | between two ends of a connection all headers and wanted bodies arrive in order and in their types, whichever bodies are read to nowhere, and no byte is left |
| SpecRpc.HeaderThenBody | go-msgpack/codec/msgpack.go:765-804 | the hand-written header parse followed by a body read gives the same four items as decoding the message as one array |
| SpecRpc.RequestHeader | go-msgpack/codec/msgpack.go:719-731 | a request's sequence number comes back if and only if it is below 2^32; method and arguments always do |
| SpecRpc.ResponseHeader | go-msgpack/codec/msgpack.go:733-743 | the same for a response; an error suppresses the body and no error reads as the empty text |
| Formats.SpecRequestBytes | go-msgpack/codec/msgpack.go:719-731 | a request is an array of the type 0, the number, the method and the arguments |
| Formats.SpecResponseBytes | go-msgpack/codec/msgpack.go:733-743 | a response is an array of the type 1, the number, nil or the error, and the result or nil |
| Writer.BytesEncWriter.Grow | go-msgpack/codec/encode.go:253-267 | the cursor moves by n, the bytes written so far are kept, and all the copying ever done is at most twice the bytes written |
| Writer.BytesEncWriter.Writen1 | go-msgpack/codec/encode.go:238-241 | one byte is appended |
| Writer.BytesEncWriter.Writen2 | go-msgpack/codec/encode.go:243-247 | two bytes are appended |
| Writer.BytesEncWriter.WriteUint16 | go-msgpack/codec/encode.go:199-203 | the big-endian bytes are appended |
| Writer.BytesEncWriter.WriteUint32 | go-msgpack/codec/encode.go:205-211 | the big-endian bytes are appended |
| Writer.BytesEncWriter.WriteUint64 | go-msgpack/codec/encode.go:213-223 | the big-endian bytes are appended |
| Writer.BytesEncWriter.Writeb | go-msgpack/codec/encode.go:225-231 | the bytes are appended |
| Writer.WriteAll | go-msgpack/codec/encode.go:193-267 | after any sequence of writes the buffer holds their concatenation, at a total copying cost linear in its length |
| MsgpackEncoder.MsgpackEncDriver.EncodeInt | go-msgpack/codec/msgpack.go:122-141 | what is appended is the encoding that the round trip is proved of |
| MsgpackEncoder.MsgpackEncDriver.EncodeUint | go-msgpack/codec/msgpack.go:143-160 | the same |
| MsgpackEncoder.MsgpackEncDriver.WriteContainerLen | go-msgpack/codec/msgpack.go:240-253 | the same, for each family and both settings of WriteExt |
| MsgpackEncoder.MsgpackEncDriver.EncodeExtPreamble | go-msgpack/codec/msgpack.go:180-204 | the same |
| MsgpackEncoder.MsgpackEncDriver.EncodeRawExt | go-msgpack/codec/encode.go:903-914 | the same, with nil data and with WriteExt off |
| MsgpackEncoder.MsgpackEncDriver.EncodeHead | go-msgpack/codec/msgpack.go:118-238 | the same for every kind of value |
| BincEncoder.BincEncDriver.EncIntegerPrune | go-msgpack/codec/binc.go:126-140 | filling the scratch array, pruning it and writing the rest appends the pruned form |
| BincEncoder.BincEncDriver.EncUint | go-msgpack/codec/binc.go:158-175 | what is appended is the encoding that the round trip is proved of |
| BincEncoder.BincEncDriver.EncodeInt | go-msgpack/codec/binc.go:142-152 | the same |
| BincEncoder.BincEncDriver.EncodeFloat64 | go-msgpack/codec/binc.go:104-124 | the loop drops exactly the trailing zero bytes |
| BincEncoder.BincEncDriver.EncLen | go-msgpack/codec/binc.go:283-306 | the same |
| BincEncoder.BincEncDriver.EncodeSymbol | go-msgpack/codec/binc.go:198-264 | the bytes appended and the new symbol map and counter are those of the dictionary proofs |
| BincEncoder.BincEncDriver.EncodeHead | go-msgpack/codec/binc.go:73-289 | the same for every kind of value |
| Encoder.Encoder.Encode | go-msgpack/codec/encode.go:703-816 | encode over either driver succeeds if and only if no value inside is of an unsupported kind; then it has appended the encoding of the nested value and left the symbols it numbers, and otherwise what was written before stays |
| Encoder.Encoder.EncSliceIntf | go-msgpack/codec/encode.go:919-924 | the loop over the elements does so for a sequence, stopping at the first failure |
| Encoder.Encoder.EncMapIntfIntf | go-msgpack/codec/encode.go:990-996 | the loop over the entries does so for a map |
| StructEncoder.CollectSent | go-msgpack/codec/encode.go:471-487 | the loop keeps exactly the fields that SentExactly speaks of, in order |
| StructEncoder.EncodeStruct | go-msgpack/codec/encode.go:457-503 | what is appended is the struct's encoding as a map, if every field sent can be encoded |
| Reader.BytesDecReader.Consume | go-msgpack/codec/decode.go:124-136 | cursor plus available stays the length; EOF exactly when nothing is left, an error exactly when too little is, and then the cursor stays |
| Reader.BytesDecReader.Readn | go-msgpack/codec/decode.go:138-145 | the next n bytes, none for n not positive |
| Reader.BytesDecReader.Readn1 | go-msgpack/codec/decode.go:151-154 | the next byte |
| Reader.BytesDecReader.ReadUintN | go-msgpack/codec/decode.go:160-173 | the next big-endian integer |
| MsgpackDecoder.MsgpackDecDriver.InitReadNext | go-msgpack/codec/msgpack.go:542-549 | what is left to decode, the descriptor held included, does not change; EOF exactly when there is nothing |
| MsgpackDecoder.MsgpackDecDriver.CurrentEncodedType | go-msgpack/codec/msgpack.go:551-591 | the cached kind is always that of the current descriptor |
| MsgpackDecoder.MsgpackDecDriver.ReadContainerLen | go-msgpack/codec/msgpack.go:601-619 | the length, the rest of the input and the errors are those of the specification, and no descriptor is held afterwards |
| MsgpackDecoder.MsgpackDecDriver.DecodeRaw | go-msgpack/codec/msgpack.go:500-539 | the same for strings and byte strings |
| MsgpackDecoder.MsgpackDecDriver.DecodeRawExt | go-msgpack/codec/msgpack.go:360-366 | the same for extensions |
| MsgpackDecoder.MsgpackDecDriver.DecodeInt | go-msgpack/codec/msgpack.go:378-414 | the same for integers of a width |
| MsgpackDecoder.MsgpackDecDriver.DecodeUint | go-msgpack/codec/msgpack.go:417-469 | the same for unsigned integers of a width |
| MsgpackDecoder.MsgpackDecDriver.DecodeFloat | go-msgpack/codec/msgpack.go:471-485 | the same for floats, converting integers |
| MsgpackDecoder.MsgpackDecDriver.DecodeBool | go-msgpack/codec/msgpack.go:487-498 | the same for booleans |
| MsgpackDecoder.MsgpackDecDriver.DecodeHead | go-msgpack/codec/msgpack.go:277-375 | decodeNaked and what it hands on agree with the specification on every input |
| BincDecoder.BincDecDriver.InitReadNext | go-msgpack/codec/binc.go:321-330 | what is left to decode does not change; EOF exactly when there is nothing |
| BincDecoder.BincDecDriver.DecUint | go-msgpack/codec/binc.go:438-469 | reading into the tail of the scratch array and zero-filling its front yields the big-endian number of the descriptor's width |
| BincDecoder.BincDecDriver.DecFloatPre | go-msgpack/codec/binc.go:408-421 | reading a short float and zero-filling yields its eight bytes |
| BincDecoder.BincDecDriver.DecodeSymbol | go-msgpack/codec/binc.go:588-622 | the string and the new symbol map are those of the dictionary proofs, also for an unknown id |
| BincDecoder.BincDecDriver.DecodeString | go-msgpack/codec/binc.go:583-629 | the same for strings, byte strings and symbols |
| BincDecoder.BincDecDriver.DecIntegers | go-msgpack/codec/binc.go:471-498 | the unsigned and signed readings and the sign flag |
| BincDecoder.BincDecDriver.DecodeInt | go-msgpack/codec/binc.go:500-505 | the same with the overflow test |
| BincDecoder.BincDecDriver.DecodeUint | go-msgpack/codec/binc.go:507-515 | the same with the sign and overflow tests |
| BincDecoder.BincDecDriver.DecodeFloat64 | go-msgpack/codec/binc.go:517-540 | the same for floats, the special ones and integers converted |
| BincDecoder.BincDecDriver.DecodeBytes | go-msgpack/codec/binc.go:631-655 | the same for byte strings |
| BincDecoder.BincDecDriver.ReadMapLen | go-msgpack/codec/binc.go:558-565 | the same for the length of a map |
| BincDecoder.BincDecDriver.DecodeHead | go-msgpack/codec/binc.go:675-762 | decodeNaked and what it hands on agree with the specification on every input |
| Decoder.Decoder.Decode | go-msgpack/codec/decode.go:294-359 | decode into a nil interface agrees with the specification on every input, in value, rest, symbols and error; it terminates because the bytes left, plus one for a descriptor held, strictly go down |
| Decoder.Decoder.DecSliceIntf | go-msgpack/codec/decode.go:871-889 | the loop over the elements does |
| Decoder.Decoder.DecMapIntfIntf | go-msgpack/codec/decode.go:957-975 | the loop over the entries does, a repeated key being decoded onto its earlier value |
| Decoder.Decoder.DecodeOver | go-msgpack/codec/decode.go:294-299 | decode into an interface that holds something does: nil clears it, a slice, byte string or map is updated in its own length, anything else is an error |
| Decoder.Decoder.DecodeEachOnto | go-msgpack/codec/decode.go:477-479 | the loop over the elements of such a slice does |
| Decoder.Decoder.DecodeMerge | go-msgpack/codec/decode.go:517-536 | the loop over the entries put into such a map does |
| Decoder.Decoder.DecodeBytesInto | go-msgpack/codec/decode.go:421-433 | a []byte from a string, a byte string or an array of small integers does, onto what it holds |
| StructDecoder.SlotOf | go-msgpack/codec/helper.go:371-373 | the position found in the sorted field list leads to the field of that name in the struct |
| StructDecoder.TypeInfoOf | go-msgpack/codec/helper.go:487-491 | sorting the fields by encoded name gives an order of all of them that the searches can use |
| StructDecoder.DecodeField | go-msgpack/codec/decode.go:704-760 | decoding into a zeroed variable of any type agrees with the specification on every input |
| StructDecoder.DecodeInto | go-msgpack/codec/decode.go:600-618 | decoding into a variable of any type that holds something does, recursively |
| StructDecoder.DecodeElems | go-msgpack/codec/decode.go:477-479 | the element loop of a typed slice does, each element onto what its place holds |
| StructDecoder.DecodeMapOf | go-msgpack/codec/decode.go:517-536 | the entry loop of a typed map does |
| StructDecoder.DecodeEntry | go-msgpack/codec/decode.go:370-391 | one entry of the map is decoded onto its field or read to nowhere |
| StructDecoder.DecodePositions | go-msgpack/codec/decode.go:393-414 | the array form decodes onto the fields by position and discards the surplus |
| StructDecoder.DecodeStruct | go-msgpack/codec/decode.go:361-419 | kStruct into a zeroed destination, nested structs inside it included, agrees with the specification on every input |
| StructDecoder.DecodeStructInto | go-msgpack/codec/decode.go:361-419 | kStruct, updating a destination in place, does |
| Transfer.WriteValues | go-msgpack/codec/encode.go:631-645 | the bytes of one encode call after another are the encodings one after another, under one symbol dictionary, if none is refused |
| Transfer.ReadValues | go-msgpack/codec/decode.go:570-580 | n decode calls over any byte string end as the specification says, with that many bytes unread |
| Transfer.SendAll | go-msgpack/codec/encode.go:696-701 | any sequence of encodable values written by the running encoder to a growing buffer and read by the running decoder arrives in its normal forms, in order, with no byte left |

## Left out

- Dialing, HTTP CONNECT, `bufio`, `net.Conn` and the gob codecs: replaced by byte streams and by codec calls with arbitrary results. What a buffered writer holds back until the next flush is on the stream at once here.
- Reflection, registration of services, type caching and extension callbacks: a struct type is a list of named fields, a method an arbitrary function.
- `simple.go`, `InvokeMethod`, `CallWithCodec` and `debug.go`: the same ideas again with easier proofs, or presentation.
- Memory: a huge claimed length makes the source allocate before it finds the input too short.
- nil and empty byte strings are one value, except in extension data, where the source tells them apart when encoding.
- Channels shared by several calls: `Go` leaves their capacity to the caller; each call has its own channel here.
- `debugLog` output and error texts, except where a text is sent or compared with the empty string.
- In MessagePack a time outside an extension is refused by the encoder here; the source can write it as a byte string through its binary marshaler.
- EndToEnd.OwnResults: is about whole runs; `EndToEndLimits` has a run for each way of not being whole on which a call gets the wrong reply, but not every such run goes wrong, since a misaligned stream may also merely fail. The format is MessagePack.
- EndToEnd.SysStep: the server of this machine handles one request after another, as `ServeRequest` does; several connections at once are the business of `Server`.
- StructDecoder.DecodeStruct: a stream that holds neither a map nor an array is an error as in the source, but a malformed scalar may give the reader's error instead of the wrong-kind one; ErrorIfNoField is off.
- Structs.FieldRoundTrip: the types are interface, bool, integers, float64, string, []byte, slices, maps from strings to non-interface types, and structs; float32, arrays, pointers and other maps are not modelled, nor is memory that two slices share. A value that does not fit the type may still be read, as `EndToEndLimits.WrongReplyType` shows.
- Structs.StructRoundTrip: the array form of a struct is decoded but not encoded, and embedded structs are not flattened.
- Connection.MsgpackCodec.ReadBody: the destination is a zeroed variable.
- StructDecoder.DecodeElems: a nil element is the zero value, which the source's special loops for []int64, []uint64 and []string do not allow for.
- BincDecoder.BincDecDriver.DecodeHead: the zero-copy reader's slice has the whole input for capacity, and the input's own capacity is its length; the reader over an io.Reader, which allocates exactly what it reads, fails on a truncated timestamp instead of reading on.
- Timestamp.DecodeTime: what lies beyond the slice is a parameter.
- Client.InvStep: the lock order, the critical sections and the codec calls are as in the source; Go's memory model and the fairness of its mutexes are not modelled.
- ClientObject.ClientObject.Send: runs without interruption; interleavings are the business of the step machine.
- Server.Server.Run: the call interceptor runs its handler exactly once; `FreeList.FreeList.FreeTwice` shows what a second run would do to the free list.
