# Whale-land, modelled and proved in Dafny

Whale-land is a Wayland client. It turns typed requests into packets, moves packets and the file descriptors
that belong to them over one Unix stream socket, generates its typed readers and writers from interface
descriptions, keeps a registry of event handlers behind two read-write locks, and comes with an example client
that draws a line of text into a shared buffer. This project models that behaviour and proves what it is for:
whatever the interleaving of tasks and however the socket fragments the bytes, the handler that an interface
description names gets the argument values that the sender passed.

To check the whole project: `dafny verify dfyconfig.toml`.

## How it is organised

| file | what it models |
|---|---|
| `Base.dfy`, `Arithmetic.dfy`, `Wire.dfy` | machine integers, native byte order as a parameter, padding |
| `Codec.dfy`, `CodecLaws.dfy`, `Utf8.dfy` | the fields of a packet as functions on values, what they look like on the wire, and the laws of reading and writing |
| `Packet.dfy` | the mutable `Packet` and `PacketReader`, proved against the codec |
| `Framing.dfy`, `Connection.dfy` | a packet as a run of stream cells; `send_packet` and `recv_packet` over a socket that moves any number of bytes at a time |
| `Transport.dfy`, `TransportLaws.dfy`, `TransportProgress.dfy`, `TransportCalls.dfy` | any number of tasks sending and receiving, as a state machine over the steps between suspension points: what is delivered, that it is delivered, and both again as functions of the calls alone |
| `Codegen.dfy`, `Published.dfy` | the code generator and a small language for what it emits, held against code that it has written |
| `Emitted.dfy`, `CompileLaws.dfy`, `CodegenLaws.dfy` | which emitted modules compile, what they do when they run, and that this is what the interface description says |
| `EndToEnd.dfy` | generated writer, shared stream and generated handler together |
| `Registry.dfy`, `Dispatch.dfy`, `DispatchLaws.dfy`, `DispatchProgress.dfy`, `DispatchCalls.dfy` | the coalescing queue of handler operations and the two locks: what a dispatch finds, when it can get stuck, that it ends, and what the log is in terms of the calls alone |
| `ObjectIds.dfy`, `FixedPoint.dfy` | the object ID allocator; 24.8 fixed-point conversions |
| `Raster.dfy`, `Session.dfy`, `SessionLaws.dfy`, `SessionTypes.dfy`, `SessionState.dfy` | the example: saturating composition, the pixel buffer, and the session driven by events |

A `Target` value carries what the code is compiled for: the native byte order, and whether integer overflow
panics or wraps. `usize` is 64 bits wide. A packet is a `Message`; a stream is a sequence of `Cell`s, one byte
each with the descriptors attached just before it. Code that updates things in place is modelled twice where tasks
share them: as methods of a class, proved against a function on values, and as the same code cut into steps at its
suspension points, so that the theorems about whole runs cover every interleaving. All four locks are served first
come, first served, as tokio documents its mutexes and read-write locks. States carry history, such as the packets
sent so far; the theorems of `TransportCalls.dfy`, `DispatchCalls.dfy` and `EndToEnd.dfy` speak of a run's calls and
of what they return, and of no history.

## Where the code differs from what it seems meant to do

The code is modelled as it is. In these places the evident property fails; the exact condition under which it
holds is proved, together with an input for which it does not.

- `recv_packet` masks the opcode with `0xFF`, while the sender packs 16 bits. A sent event reaches its own
  handler if and only if its opcode is at most 255 (`EndToEnd.EventArrives`, `EndToEnd.EventGoesAstray`,
  `Framing.OpcodeLost`).
- `checked_shl(8)` checks the shift amount only. The result of a fixed-point conversion is right if and only if
  the integer lies in [-2^23, 2^23), and every source type has an integer that converts without error to a
  wrong number (`FixedPoint.TryFromExact`, `FixedPoint.TryFromUnfaithful`).
- `read_str` subtracts one from a declared length that may be zero: it panics if and only if overflow is checked
  and the length is zero (`CodecLaws.StringPanic`, `CodecLaws.EmptyStringWitness`).
- The payload loop of `recv_packet` has no end-of-stream exit: a receiver inside it can finish on a closed stream
  if and only if the stream still holds what it misses; otherwise it keeps the receive lock for ever
  (`TransportLaws.PayloadLoopTerminates`, `TransportLaws.StarvedForever`, `Framing.TruncatedPayloadSpins`).
- For a packet without payload `recv_packet` still receives into an empty buffer, which waits until the socket is
  readable. Such a packet is handed on if and only if something is sent behind it or the stream ends
  (`TransportProgress.EmptyPacketExact`, and for receivers anywhere in line `TransportProgress.ReceiversFinish`).
- The generator does not keep the names in an interface description apart from each other and from the names it uses
  itself. Handler trait, proxy and argument structs are one Rust module, which compiles as a whole: every event is
  delivered, every request sent and every struct read back, for all values, if and only if the whole interface is
  hygienic and, if it has any request or event, emitted with `--in-crate`
  (`CompileLaws.HygienicInterface`, `CompileLaws.Emittable`, `CodegenLaws.HygieneExact`). Procedure names must be
  distinct in their list and no event called "event"; argument names distinct and none of `__packet_reader`,
  `__packet`, `__connection`, `__reader` in an event, none of `__packet`, `connection`, `__reader` in a request, and
  none of the prelude patterns `Ok`, `Err`, `Some`, `None`; no list longer than 65536; and, for a Rust function has at
  most 65535 parameters, no event with more than 65532 arguments and no request with more than 65534.
- Without `--in-crate`, which is the default, every argument struct comes with an implementation of a foreign trait
  for the foreign type `Packet`, which Rust's orphan rule forbids: no interface with a request or an event compiles
  (`CompileLaws.CompilesExact`, `CodegenLaws.OrphanImpl`).
- Two dispatches at once can deadlock (`DispatchLaws.DeadlockExact`, `DispatchLaws.TwoDispatchesDeadlock`); they cannot
  while no handler registers or drops anything (`DispatchLaws.QuietDeadlockFree`), and one at a time always finishes
  (`DispatchProgress.WorkFinishes`).
- The height of the text image is its largest y coordinate, so the last row of pixels is in the buffer only if
  rounding enlarges the height (`Raster.LastRowShown`, `Raster.LastRowLost`).
- The allocator hands out the display's own ID after 2^32 - 2 IDs (`ObjectIds.FirstIdsDistinct`).

## Model

| member | source | states |
|---|---|---|
| `EndToEnd.EventArrives` | whale-land/src/connection.rs:53-136 | In every run of any number of senders and receivers: if the emitted writer built the packet of call n of `send_packet`, then the packet that call n of `recv_packet` returns reaches the event's own handler with its own argument values if and only if the opcode is at most 255 |
| `EndToEnd.EventGoesAstray` | whale-land/src/connection.rs:104 | There is a hygienic interface and a run in which event 256, built by its own writer, calls the handler of event 0 |
| `EndToEnd.WrongArm` | whale-land/src/connection.rs:104 | Above 255, whatever handler the masked packet reaches is the one of event k mod 256, which has another name |
| `EndToEnd.RequestArrives` | wlproto/src/output.rs:213-248 | In every run, if the generated proxy made the packet of call n of `send_packet`, the packet that call n of `recv_packet` returns is read back by the generated struct with the values given to the proxy, whatever the opcode |
| `TransportCalls.CallsAnswered` | whale-land/src/connection.rs:53-136 | Over every run, call k of `recv_packet`, once it has returned, has returned the packet of call k of `send_packet`, refused calls not counted: same object, payload and descriptors, opcode modulo 256; or, only if the stream is closed and empty, the end-of-stream error |
| `TransportCalls.AllSentExact` | whale-land/src/connection.rs:53-73 | Over every run, what has been sent or waits to be sent is, in order, exactly the packets of the calls made, but for those of more than 65535 bytes |
| `TransportCalls.RefusedExact` | whale-land/src/packet.rs:114-122 | Over every run, a call of `send_packet` is refused if and only if its own packet has more than 65535 bytes, and the error gives its size and that limit |
| `TransportCalls.SendReturned` | whale-land/src/connection.rs:53-73 | When call k of `send_packet` has returned, its frame and those of all calls before it are on the stream, whole and in call order |
| `TransportCalls.CallsAnswerable` | whale-land/src/connection.rs:75-136 | While the stream is open, call k of `recv_packet` has returned or can return by the work of existing tasks if and only if k + 1 packets have been accepted for sending, and one more if packet k has no payload |
| `TransportCalls.EndOfStream` | whale-land/src/connection.rs:84-97 | When call k of `recv_packet` has got the end-of-stream error, the stream was closed after d whole packets and less than one header, for some d up to k |
| `TransportCalls.OneKindOfStep` | whale-land/src/connection.rs:75-136 | But for the number of bytes that the socket moves, the next step of a receiver is determined |
| `TransportCalls.CallsAreRuns` | whale-land/src/connection.rs:53-136 | Any calls of both functions can be made at any time in any order |
| `TransportCalls.CloseAnyTime` | whale-land/src/connection.rs:84-97 | After every run with an open stream the other end can close it, which changes nothing else |
| `TransportCalls.ReceiverWaitsFor` | whale-land/src/connection.rs:75-136 | In every reachable state a call of `recv_packet` has a step if and only if it is its turn at the lock and no byte that it needs is missing from the socket |
| `TransportCalls.SenderWaitsFor` | whale-land/src/connection.rs:53-73 | In every reachable state with an open stream, a call of `send_packet` that has not returned has a step if and only if it holds the lock or it is its turn at it |
| `TransportLaws.EndToEnd` | whale-land/src/connection.rs:53-136 | In every reachable state the results of `recv_packet`, in receive-lock order, are the packets sent, in send-lock order: same object, payload and descriptors, opcode masked; other results exist only once the stream is closed and empty, and are end-of-stream errors. That the descriptors are the same rests on an empty buffer receiving none, as said of `Connections.Socket.RecvWithFds` |
| `TransportLaws.OpenStreamDelivers` | whale-land/src/connection.rs:75-136 | While the stream is open, every finished receive delivered the packet with its number |
| `TransportLaws.WrittenIsFrames` | whale-land/src/connection.rs:53-73 | In every reachable state the cells ever written are whole frames in send-lock order followed by a prefix of the lock holder's frame, and nothing is lost between written and taken |
| `TransportLaws.SendProgress` | whale-land/src/connection.rs:64-68 | Each chunk makes the sender's measure of bytes left smaller and keeps it non-negative |
| `TransportLaws.StepKeepsInv` | whale-land/src/connection.rs:53-136 | Every step of every task, enabled in a state that meets the invariant, leads to one that does |
| `TransportLaws.StarvedForever` | whale-land/src/connection.rs:119-123 | A receiver in the payload loop of a closed stream that holds too little never leaves the loop and never gives up the lock, whatever the other tasks do |
| `TransportLaws.PayloadLoopTerminates` | whale-land/src/connection.rs:119-123 | In every reachable state with a closed stream, a receiver in the payload loop can finish if and only if the stream holds what it misses |
| `TransportProgress.SendersFinish` | whale-land/src/connection.rs:53-73 | In every reachable state with an open stream, a task that waits to send or is sending can finish, by the work of existing tasks alone, each in its turn at the lock |
| `TransportProgress.ReceiversFinish` | whale-land/src/connection.rs:75-136 | In every reachable state with an open stream, a receiver can finish by the work of existing tasks alone, each in its turn, if and only if its packet, numbered by its place at the lock, is among those sent or waiting to be sent, and, if that packet has no payload, another one stands behind it |
| `TransportProgress.EmptyPacketExact` | whale-land/src/connection.rs:116-123 | With no sender at work, a packet without payload that has been read to its last byte can be handed on by existing tasks if and only if something has been sent behind it |
| `Connections.Socket.SendWithFds` | whale-land/src/socket_fd_ext.rs:32-49 | The documented contract: at least one byte of non-empty data is sent, and all descriptors go with the first |
| `Connections.Socket.RecvWithFds` | whale-land/src/socket_fd_ext.rs:63-75 | The documented contract: some bytes from the front of the stream, with exactly the descriptors attached to them; an empty buffer, of which the documentation says nothing, gets none |
| `Connections.Connection.SendPacket` | whale-land/src/connection.rs:53-73 | Puts exactly the packet's frame on the stream in however many pieces, or, if it is too long, nothing |
| `Connections.Connection.RecvPacket` | whale-land/src/connection.rs:75-136 | Its result and exactly the cells it consumes are those of `Framing.Receive`, however the bytes arrive |
| `Connections.Connection.RecvPayload` | whale-land/src/connection.rs:114-123 | The payload loop, from any accepted header, completes what `Framing.Receive` says |
| `Framing.ReceiveFrame` | whale-land/src/connection.rs:75-136 | A frame at the front of any stream is received whole: exactly its cells are consumed and exactly its descriptors collected |
| `Framing.ReceiveExact` | whale-land/src/connection.rs:75-136 | Every way a receive can end, by the two words at the front of the stream: too short, rejected for its size or its object, spinning, or delivered byte by byte with the opcode modulo 256 |
| `Framing.ReceiveSettled` | whale-land/src/connection.rs:75-136 | What arrives later changes nothing about a receive that has delivered a packet or rejected its header |
| `Framing.ReceiveReleased` | whale-land/src/connection.rs:114-123 | A receive that spins goes on spinning until exactly the bytes its header asks for have arrived, and then delivers that header with the bytes and descriptors of both parts |
| `Framing.TruncatedPayloadSpins` | whale-land/src/connection.rs:119-123 | A frame cut off anywhere after its header makes the receiver spin, having taken everything |
| `Framing.HeaderRoundTrip` | whale-land/src/packet.rs:114-134 | In either byte order the header gives back the object, the buffer's length and the full 16-bit opcode, and the receiver accepts it with the opcode masked |
| `Framing.OpcodeSurvives` | whale-land/src/connection.rs:104 | The receiver's packet equals the sender's if and only if the opcode is at most 255 |
| `Framing.OpcodeLost` | whale-land/src/connection.rs:104 | There is a packet with opcode 256 that fits and, at the front of any stream, is received whole with opcode 0 |
| `Framing.PushedFits` | whale-land/src/packet.rs:114-122 | After any pushes, `serialize` succeeds if and only if the packet has at most 65532 bytes |
| `CodecLaws.WireLayout` | whale-land/src/packet.rs:50-107 | What every kind of value is on the wire: one word; or length, bytes and zeros up to a multiple of four, with the terminator counted for a string; or interface, version and ID; or nothing |
| `CodecLaws.TextExact` | whale-land/src/packet.rs:203-218 | A non-empty text field is accepted if and only if it is NUL-free UTF-8 and one NUL; otherwise the error gives the first NUL and where it should stand, or the bytes that are not UTF-8 |
| `CodecLaws.FailureSays` | whale-land/src/packet.rs:153-279 | Every error of a read says what is wrong: the end that the field would have beyond the payload, too few descriptors, a zero word where an object must be named, or malformed text |
| `Utf8.ValidUtf8Exact` | whale-land/src/packet.rs:215-216 | The UTF-8 check accepts exactly the encodings of sequences of Unicode scalar values |
| `CodecLaws.PayloadAligned` | whale-land/src/packet.rs:50-107 | Whatever is pushed, in whatever order, the payload stays a multiple of four bytes long |
| `CodecLaws.DecodeEncoded` | whale-land/src/packet.rs:50-295 | Reading back any one field gives the value that was pushed and moves both cursors just past it, wherever in the packet it stands |
| `CodecLaws.SignatureRoundTrip` | whale-land/src/packet.rs:50-295 | For every list of types and values that fit them, reading what was written gives the values in order and `finish` succeeds |
| `CodecLaws.DecodedReencodes` | whale-land/src/packet.rs:167-279 | Whatever a successful read consumed is the encoding of what it returned, except for padding bytes |
| `CodecLaws.CanonicalForm` | whale-land/src/packet.rs:65-295 | An arbitrary packet that decodes and finishes can be re-encoded: same length, same descriptors, every byte the same but for padding, which becomes zero, and it decodes to the same values again |
| `CodecLaws.ReadInside` | whale-land/src/packet.rs:153-279 | On arbitrary bytes a read leaves both cursors inside the packet, the payload cursor on a multiple of four, and neither moved back |
| `CodecLaws.ReaderSafety` | whale-land/src/packet.rs:153-295 | After any sequence of reads of any packet the cursors are inside it, and `finish` succeeds if and only if both stand exactly at the end; otherwise its error says how much has been read of how much |
| `CodecLaws.BoundsFailureMovesNothing` | whale-land/src/packet.rs:153-165 | A primitive read that runs out of bytes or descriptors moves no cursor |
| `CodecLaws.ContentFailureSkipsField` | whale-land/src/packet.rs:203-218 | A string that is in bounds but badly formed leaves the cursor past its padding |
| `CodecLaws.StringPanic` | whale-land/src/packet.rs:207-213 | `read_str` panics if and only if overflow is checked and the declared length is zero |
| `CodecLaws.EmptyStringWitness` | whale-land/src/packet.rs:208-211 | Four zero bytes make it panic, or, with overflow unchecked, report an expected position of 2^64 - 1 |
| `Wire.WordBytesAre` | whale-land/src/packet.rs:50-53 | The native bytes of a word, one by one: least significant first on a little-endian target, last on a big-endian one |
| `Wire.BytesWordIs` | whale-land/src/packet.rs:167-172 | The word that four native bytes decode to is their sum with the weights that the byte order gives them |
| `Wire.WordBytes` | whale-land/src/packet.rs:50-53 | The native bytes of a word decode to the word, in both byte orders |
| `Wire.WordBytesCanonical` | whale-land/src/packet.rs:167-172 | Any four bytes are the native bytes of the word they decode to |
| `Codec.FirstNul` | whale-land/src/packet.rs:207 | The position of the first zero byte, or none if there is none |
| `Packets.Packet.PushUint` | whale-land/src/packet.rs:50-53 | Appends the word's encoding and changes nothing else |
| `Packets.Packet.PushInt` | whale-land/src/packet.rs:55-58 | Appends the two's complement word and changes nothing else |
| `Packets.Packet.PushFixed` | whale-land/src/packet.rs:60-63 | Appends the inner value and changes nothing else |
| `Packets.Packet.PushStr` | whale-land/src/packet.rs:65-76 | Appends length with terminator, bytes, terminator and padding, and changes nothing else |
| `Packets.Packet.PushArray` | whale-land/src/packet.rs:78-86 | Appends length, bytes and padding, and changes nothing else |
| `Packets.Packet.PushObject` | whale-land/src/packet.rs:88-93 | Appends the ID, or zero for none, and changes nothing else |
| `Packets.Packet.PushNewIdKnownInterface` | whale-land/src/packet.rs:95-97 | Appends the new ID and changes nothing else |
| `Packets.Packet.PushNewIdUnknownInterface` | whale-land/src/packet.rs:99-103 | Appends interface name, version and ID in this order and changes nothing else |
| `Packets.Packet.PushFd` | whale-land/src/packet.rs:105-107 | Appends the descriptor to the descriptors and nothing to the payload |
| `Packets.Packet.Serialize` | whale-land/src/packet.rs:114-134 | The buffer filled in place is the serialized packet, or the length error beyond 65535 bytes |
| `Packets.PacketReader.ReadUint` | whale-land/src/packet.rs:167-172 | Result and cursor are those of decoding a word |
| `Packets.PacketReader.ReadInt` | whale-land/src/packet.rs:174-179 | Result and cursor are those of decoding a signed word |
| `Packets.PacketReader.ReadFixed` | whale-land/src/packet.rs:181-186 | Result and cursor are those of decoding a fixed-point number |
| `Packets.PacketReader.ReadStr` | whale-land/src/packet.rs:188-219 | Result, error or panic, and cursor are those of decoding a string |
| `Packets.PacketReader.ReadArray` | whale-land/src/packet.rs:221-241 | Result and cursor are those of decoding a byte array |
| `Packets.PacketReader.ReadObject` | whale-land/src/packet.rs:243-246 | Result and cursor are those of decoding an optional object |
| `Packets.PacketReader.ReadNewIdKnownInterface` | whale-land/src/packet.rs:248-254 | Result and cursor are those of decoding a new ID, zero being an error |
| `Packets.PacketReader.ReadNewIdUnknownInterface` | whale-land/src/packet.rs:256-269 | Result and cursor are those of decoding interface, version and ID, keeping what was consumed before a failure |
| `Packets.PacketReader.ReadFd` | whale-land/src/packet.rs:271-279 | Result and cursor are those of taking the next descriptor |
| `Packets.PacketReader.Finish` | whale-land/src/packet.rs:281-295 | Accepts exactly when both cursors have reached the end, else reports all four counts |
| `Codegen.TokenizeEvent` | wlproto/src/output.rs:97-148 | The loop over an event's arguments emits exactly the prototype and the arm specified for the event |
| `Codegen.TokenizeProxy` | wlproto/src/output.rs:213-247 | The loop over a request's arguments emits exactly the proxy specified for the request |
| `Codegen.TokenizeArgStruct` | wlproto/src/output.rs:377-439 | The loop over a procedure's arguments emits exactly the struct specified for it, named after interface, version, kind and procedure |
| `Codegen.TokenizeInterface` | wlproto/src/output.rs:80-447 | The whole module for an interface: prototype, arm, proxy and struct number i belong to procedure i of their list |
| `Published.DisplayIsAsShipped` | whale-land/src/protocol/wayland.rs:5-279 | For `wl_display` the generator emits the shipped module: every name, prototype, arm, proxy and argument struct, statement by statement |
| `Published.BindStructIsAsShipped` | whale-land/src/protocol/wayland.rs:398-422 | The struct of a request with a new ID of any interface is the shipped one |
| `Published.CreatePoolStructIsAsShipped` | whale-land/src/protocol/wayland.rs:1039-1066 | The struct of a request with a descriptor and a signed integer is the shipped one |
| `Published.EnterStructIsAsShipped` | whale-land/src/protocol/wayland.rs:7502-7533 | The struct of an event with an array is the shipped one |
| `Published.MotionStructIsAsShipped` | whale-land/src/protocol/wayland.rs:3378-3405 | The struct of an event with fixed-point numbers is the shipped one |
| `Published.DecimalExact` | wlproto/src/output.rs:81 | The decimal form of a version is made of digits that weigh the version, without a leading zero |
| `Published.VersionedNameInjective` | wlproto/src/output.rs:81 | Two interfaces have the same versioned name if and only if they have the same name and version |
| `CompileLaws.CompilesExact` | wlproto/src/output.rs:80-447 | The emitted module compiles if and only if the interface is hygienic and, where it has argument structs, emitted with `--in-crate`: every body type-checks, every literal and parameter list fits, no type, trait method, proxy method, field or parameter is defined twice, and no foreign trait is implemented for a foreign type |
| `CompileLaws.CompiledNeverStuck` | wlproto/src/output.rs:80-447 | Any module that compiles, emitted by this generator or not, runs to a proper end whichever of its functions is called with whatever packet or well-typed values |
| `CompileLaws.CompiledWellTyped` | wlproto/src/output.rs:80-447 | In any module that compiles, whatever packet arrives: a handler that is called is declared and gets values of its declared types, and a struct that is read has fields of theirs |
| `CompileLaws.ArmExact` | wlproto/src/output.rs:134-147 | An arm whose handler is declared checks if and only if its opcode fits and its argument names can be bound and are none of the three it uses itself |
| `CompileLaws.ProxyExact` | wlproto/src/output.rs:234-246 | A proxy method compiles if and only if its opcode fits and its parameters fit a signature and have names that are distinct, can be bound, and are neither `__packet` nor `connection` |
| `CompileLaws.StructExact` | wlproto/src/output.rs:403-425 | An argument struct compiles if and only if its opcode fits and its field names are distinct, can be bound, and none is `__reader` |
| `CodegenLaws.SelectsArm` | wlproto/src/output.rs:97-184 | For a hygienic interface opcode i runs the arm of event i, and an opcode past the list goes only to `unknown_event` |
| `CodegenLaws.EventCorrect` | wlproto/src/output.rs:97-184 | On any packet whatever, running the emitted `handle_event` does what the interface description says: handler with decoded values, decoding error, leftover error or `unknown_event` |
| `CodegenLaws.HygieneExact` | wlproto/src/output.rs:80-447 | All events are delivered, all requests sent and all argument structs built and read back, for all values, if and only if the interface is hygienic and, unless it is empty, emitted with `--in-crate` |
| `CodegenLaws.EventHygieneExact` | wlproto/src/output.rs:97-184 | All values of the declared types reach the handler of any one event if and only if the whole interface is hygienic and emitted with `--in-crate` |
| `CodegenLaws.OrphanImpl` | wlproto/src/output.rs:431-437 | Without `--in-crate` no event of any interface is handled, no request sent and no argument struct read |
| `CodegenLaws.TooManyArguments` | wlproto/src/output.rs:125-133 | One event with more than 65532 arguments keeps every event from being handled |
| `CodegenLaws.ReaderArgument` | wlproto/src/output.rs:410-417 | An event argument called `__reader`, which the event's own arm does not mind, keeps the event from being handled |
| `CodegenLaws.ConnectionArgument` | wlproto/src/output.rs:234-246 | A request argument called `connection` keeps every event of the interface from being handled |
| `CodegenLaws.SameEventTwice` | wlproto/src/output.rs:125-133 | Two events of one name keep each other from being handled |
| `CodegenLaws.EventCalledEvent` | wlproto/src/output.rs:98-101 | An event called "event" collides with the emitted `handle_event` |
| `CodegenLaws.PatternArgument` | wlproto/src/output.rs:120-122 | An argument called like a prelude pattern cannot be bound |
| `CodegenLaws.RequestCorrect` | wlproto/src/output.rs:213-248 | The emitted proxy sends opcode i to its object with the arguments in order, fails without a connection, and panics on a string with a NUL |
| `CodegenLaws.RequestHygieneExact` | wlproto/src/output.rs:213-248 | All values of the declared types are sent by any one proxy method if and only if the whole interface is hygienic and emitted with `--in-crate` |
| `CodegenLaws.FromPacketCorrect` | wlproto/src/output.rs:410-417 | On any packet whatever, `try_from_packet` decodes it against the signature |
| `CodegenLaws.IntoPacketCorrect` | wlproto/src/output.rs:419-423 | `try_into_packet` builds the packet with the struct's opcode and the fields in order, or panics at a string or array that cannot be pushed |
| `CodegenLaws.StructHygieneExact` | wlproto/src/output.rs:377-439 | Any one argument struct is built into its packet and read back, for all values, if and only if the whole interface is hygienic and emitted with `--in-crate` |
| `CodegenLaws.WritersAgree` | wlproto/src/output.rs:213-439 | Proxy and `try_into_packet` produce the same packet, and the struct reads it back |
| `CodegenLaws.TypedDeclared` | wlproto/src/output.rs:467-490 | Values are of the kinds that the interface description asks for if and only if they have the declared types |
| `CodegenLaws.TypedMatches` | wlproto/src/output.rs:449-490 | The read table returns, argument by argument, what the type table declares |
| `CompileLaws.TablesAccept` | wlproto/src/output.rs:467-520 | Each writer in the write table takes exactly what the type table declares, passed the way the reference table says |
| `Registry.LatestCallWins` | whale-land/src/connection.rs:151-163 | Replaying the log of calls leaves an object with what its latest call says |
| `Registry.OverlayPop` | whale-land/src/connection.rs:170-179 | Moving any one queued entry into the map changes nothing about the final map, whatever the key order |
| `Registry.OverlayInsert` | whale-land/src/connection.rs:151-163 | Queueing a call over whatever is queued for the object is performing it later |
| `Registry.HandlerRegistry.RegisterHandler` | whale-land/src/connection.rs:151-156 | The queue gets the operation, and map overlaid with queue stays what the log of all calls says |
| `Registry.HandlerRegistry.DropHandler` | whale-land/src/connection.rs:158-163 | The queue gets the operation, and map overlaid with queue stays what the log of all calls says |
| `Registry.HandlerRegistry.UpdateEventHandlerRegistrations` | whale-land/src/connection.rs:165-180 | Empties the queue and makes the map what the log of all calls says |
| `Registry.HandlerRegistry.FindHandler` | whale-land/src/connection.rs:182-198 | The handler found for a packet is the one that the log of all calls gives, and without one it is the missing-handler error |
| `DispatchCalls.LogExact` | whale-land/src/connection.rs:151-163 | Over every run, the log of calls is, in the order in which they took effect, what the tasks and running handlers themselves asked for |
| `DispatchCalls.FindsWhatWasAsked` | whale-land/src/connection.rs:151-198 | Over every run, with any number of dispatches, a dispatch runs the handler that its own packet's object has after the first n calls that took effect, where n includes all that did before the dispatch was started |
| `DispatchCalls.StartsAreRuns` | whale-land/src/connection.rs:151-198 | Any calls and dispatches can be started at any time in any order |
| `DispatchCalls.SoloExact` | whale-land/src/connection.rs:182-198 | Having one dispatch at a time restricts only the start of a dispatch, and only while another is in progress |
| `DispatchCalls.WaitsForTurn` | whale-land/src/connection.rs:151-198 | A task has a step if and only if it is its turn at the lock that it waits for, if it waits for one; a running handler can make any call |
| `DispatchLaws.DispatchFindsLogged` | whale-land/src/connection.rs:151-198 | In every reachable state the handler a dispatch runs is the one that the plain log gives, cut off at a point that includes every call made before the dispatch started |
| `DispatchLaws.HandlerCallIsForLater` | whale-land/src/connection.rs:151-198 | In every run a call made by a running handler comes after all its own dispatch saw, and is seen by every dispatch that starts later |
| `DispatchLaws.StepKeepsInv` | whale-land/src/connection.rs:151-198 | Every step keeps the locks, the waiting lines and the registry consistent |
| `DispatchLaws.DeadlockExact` | whale-land/src/connection.rs:151-198 | With any number of dispatches, a reachable state with unfinished work has no step that finishes any of it if and only if one dispatch holds the queue waiting for the map while every reader of the map waits for the queue, and no other dispatch is still to join the map's line |
| `DispatchLaws.DeadlockPersists` | whale-land/src/connection.rs:151-198 | Such a wait cycle lasts for ever, whatever tasks are started |
| `DispatchLaws.QuietDeadlockFree` | whale-land/src/connection.rs:151-198 | While no handler registers or drops anything, any number of overlapping dispatches always have a step until all work is finished |
| `DispatchLaws.DeadlockFree` | whale-land/src/connection.rs:151-198 | With one dispatch at a time and any number of calls by tasks and handlers there is always a step until all work is finished |
| `DispatchProgress.WorkFalls` | whale-land/src/connection.rs:151-198 | Every step that finishes something started lowers a measure of the tasks' remaining steps and the queued entries |
| `DispatchProgress.WorkEnds` | whale-land/src/connection.rs:151-198 | From any reachable state, with any number of dispatches, the measure bounds what can be done with the tasks there are; when nothing more can be done, all tasks have finished or there is a deadlock |
| `DispatchProgress.WorkFinishes` | whale-land/src/connection.rs:151-198 | With one dispatch at a time, carrying on in any order whatever as long as anything can be done takes boundedly many steps and finishes every task |
| `DispatchLaws.TwoDispatchesDeadlock` | whale-land/src/connection.rs:165-198 | Two dispatches at once reach a deadlock |
| `ObjectIds.Allocator.GetAndIncrementNextObjectId` | whale-land/src/connection.rs:138-145 | Returns the counter's value, skipping zero, and leaves the counter just past it |
| `ObjectIds.ReturnedIds` | whale-land/src/connection.rs:138-145 | Under any interleaving of the atomic increments the IDs are 2, 3, ... in order, never zero, also across wrap-around |
| `ObjectIds.CallsCounted` | whale-land/src/connection.rs:138-145 | Under any interleaving every fetch takes one value of the counter, all but the zeros are returned, and every call has returned one ID or is still in its loop |
| `ObjectIds.FirstIdsDistinct` | whale-land/src/connection.rs:46 | The first 2^32 - 2 IDs are pairwise distinct and never the display's; the next one is the display's |
| `ObjectIds.ClientRange` | whale-land/src/connection.rs:46 | Within the first round exactly the first 0xFEFFFFFE IDs lie in the range the Wayland section "Creating Objects" gives to clients |
| `ObjectIds.IdsRepeat` | whale-land/src/connection.rs:138-145 | Two IDs are equal if and only if they are a whole number of rounds apart |
| `FixedPoint.Ranges` | whale-land/src/fixed.rs:15-109 | The ranges of the ten primitive integer types |
| `FixedPoint.NarrowExact` | whale-land/src/fixed.rs:15-28 | The infallible conversions are exactly those from types all of whose integers can be held |
| `FixedPoint.FromNarrowExact` | whale-land/src/fixed.rs:15-28 | Every 8- and 16-bit integer is represented exactly and converts back |
| `FixedPoint.TryFromExact` | whale-land/src/fixed.rs:30-52 | Conversion succeeds if and only if the integer without its upper eight bits, read in the type's own signedness, lies in [-2^23, 2^23), and is right if and only if the integer itself does |
| `FixedPoint.ShiftKeeps` | whale-land/src/fixed.rs:36 | Shifting in the source width multiplies exactly what is left of the integer without its upper eight bits |
| `FixedPoint.TryFromUnfaithful` | whale-land/src/fixed.rs:36 | Every source type has an integer that converts without error to a wrong number |
| `FixedPoint.I32NeverFails` | whale-land/src/fixed.rs:36-38 | From a 32-bit signed integer conversion never fails, so every overflow is silent |
| `FixedPoint.IntRoundTrip` | whale-land/src/fixed.rs:30-109 | Integer to fixed-point and back is the identity on [-2^23, 2^23) |
| `FixedPoint.ToIntExact` | whale-land/src/fixed.rs:83-109 | Conversion out succeeds if and only if the number is a whole one that the type can hold, negative ones included, and then is exact |
| `FixedPoint.FixedRoundTrip` | whale-land/src/fixed.rs:15-109 | Fixed-point to integer and back is the identity wherever the first step succeeds |
| `Raster.AddGlyph` | examples/activate-linux/src/draw_text.rs:100-120 | Every pixel becomes its old value plus the bitmap byte landing on it, cut off at 255, and exactly the pixels that something lands on enter the map |
| `Raster.WholeBitmapExact` | examples/activate-linux/src/draw_text.rs:102-103 | What drawing a glyph asks of its bitmap is exactly that every position has its index in 32 bits and in bounds |
| `Raster.NoOverflowExact` | examples/activate-linux/src/draw_text.rs:105-114 | What drawing a glyph asks of its placement is exactly that no 32-bit sum overflows for a byte that is not transparent |
| `Raster.BitmapPlaced` | examples/activate-linux/src/draw_text.rs:100-120 | Byte i of a glyph's bitmap is what the glyph adds to the pixel at its placement plus column i mod width and row i / width |
| `Raster.NothingElsewhere` | examples/activate-linux/src/draw_text.rs:100-120 | A glyph adds nothing to a pixel that none of its bytes lands on |
| `Raster.DrawString` | examples/activate-linux/src/draw_text.rs:91-132 | Every pixel is the sum of all contributions landing on it, cut off at 255; the height is the largest y |
| `Raster.TotalPermuted` | examples/activate-linux/src/draw_text.rs:93-123 | That sum does not depend on the order of the glyphs |
| `Raster.AddImage` | examples/activate-linux/src/draw_text.rs:160-171 | Adding an image, shifted down, gives the same pixels whatever the iteration order of the hash map |
| `Raster.DrawText` | examples/activate-linux/src/draw_text.rs:136-175 | Every pixel of the two lines is the sum of everything that lands on it, the lower line shifted by the baseline spacing, cut off at 255; the map holds exactly the pixels that anything lands on, and the height is the largest y among them |
| `Raster.MaxYCoordinate` | examples/activate-linux/src/draw_text.rs:32-38 | The largest y of any pixel, or zero without pixels |
| `Raster.ToWhiteArgbLe` | examples/activate-linux/src/draw_text.rs:40-57 | The bytes are the rows of the image, or a panic if their number does not fit 32 bits |
| `Raster.BufferLayout` | examples/activate-linux/src/draw_text.rs:43-56 | The four bytes of pixel (x, y), at 4 (y width + x), all are its alpha, and zero where there is no pixel |
| `Raster.LastRowShown` | examples/activate-linux/src/draw_text.rs:172-173 | If the scale does not divide the height, the row of largest y is in the buffer with its alpha values |
| `Raster.LastRowLost` | examples/activate-linux/src/draw_text.rs:172-173 | If it does, no pixel of that row has any effect on the buffer |
| `Raster.RoundUpIsLeast` | examples/activate-linux/src/main.rs:343-348 | The rounded size is the least multiple of the scale that is not below the size |
| `Raster.RoundUpLoop` | examples/activate-linux/src/main.rs:343-348 | The loop stops at that size, or panics if it does not fit 32 bits |
| `Session.Client.constructor` | examples/activate-linux/src/main.rs:516-534 | The session starts with the display and registry handlers queued and one request sent |
| `Session.Client.SurfaceCreationRigmarole` | examples/activate-linux/src/main.rs:94-152 | Does nothing unless all three objects are known; else the new state, handlers and requests are as specified |
| `Session.Client.OnGlobal` | examples/activate-linux/src/main.rs:162-233 | The new state, handlers and requests of a global event are as specified |
| `Session.Client.OnConfigure` | examples/activate-linux/src/main.rs:317-459 | Panics exactly where the specification says, in the same order; panic or not, the new state and the requests sent are as specified, and without one the shared memory holds the rounded image's pixels |
| `SessionLaws.SessionSafety` | examples/activate-linux/src/main.rs:94-458 | Over every sequence of packets, panic or not: no `unwrap` of `handle_configure` meets a `None`, and every request is addressed to and names only the display and objects that an earlier request made |
| `SessionTypes.SessionTyped` | examples/activate-linux/src/main.rs:94-458 | In every session with at most 2^32 - 2 new objects, panic or not: every new ID is new, the IDs are 2, 3 and so on in the order of the requests, and every request is addressed to and names objects made with the interfaces the protocol asks for |
| `SessionTypes.HandlersTyped` | examples/activate-linux/src/main.rs:94-534 | In the same sessions every handler, of whichever of the six kinds, stands on an object of the interface whose events it decodes; after a panic this may fail only for handlers still queued |
| `SessionTypes.StepKeepsInv` | examples/activate-linux/src/main.rs:94-458 | While the IDs last, every event keeps each known ID's kind, the allocator just past the IDs used, and the IDs in the display state and under the handlers of the right kinds |
| `SessionState.HandlersExact` | examples/activate-linux/src/main.rs:94-534 | In every session that has not panicked and has at most 2^32 - 2 new objects: the display, every registry, shared memory object, surface, layer surface and buffer, the latest and all earlier ones, has the handler of its own kind, and nothing else has a handler |
| `SessionState.NoHandlerExact` | examples/activate-linux/src/main.rs:536-542 | In the same sessions an event finds no handler of its kind if and only if its target is not an object with such events |
| `SessionState.ConfigureCarriedOut` | examples/activate-linux/src/main.rs:317-459 | In the same sessions a configure event of the current layer surface is carried out if and only if scale and sizes are ones the arithmetic can handle |
| `SessionState.DisplayNamesLatest` | examples/activate-linux/src/main.rs:94-233 | Over every session, panic or not, the display state holds the IDs of the last compositor, layer shell and shared memory bound and the last surface and layer surface created |
| `SessionState.SettingsAreLatest` | examples/activate-linux/src/main.rs:256-334 | Over every session, scale, transform and size are those of the last event of their kind, and 1 and zero before the first |
| `SessionLaws.PanicPoint` | examples/activate-linux/src/main.rs:326-459 | Which panic a configure event ends in, and after how many of its eleven requests, by scale and sizes |
| `SessionLaws.ConfigureOutcome` | examples/activate-linux/src/main.rs:326-458 | In every reachable state a configure event that reaches its handler is carried out if and only if scale and sizes are ones the arithmetic can handle; a scale of zero panics |
| `SessionLaws.StepKeepsInv` | examples/activate-linux/src/main.rs:94-458 | Every event keeps the request stream well formed and handlers on existing objects, and registers the layer surface's handler only with everything bound |
| `SessionLaws.SurfacesCreated` | examples/activate-linux/src/main.rs:94-152 | Over every run, panic or not, the surfaces created, and the layer surfaces, are as many as the wanted globals handled from the moment all three objects are known |
| `SessionLaws.HandledExact` | examples/activate-linux/src/main.rs:536-542 | The packets counted as handled are all of them, or those up to the one at which the session panics |
| `SessionLaws.OneSurface` | examples/activate-linux/src/main.rs:177-232 | If each wanted interface is advertised exactly once among the packets handled, in any order among anything else and whether or not a panic follows, exactly one surface and one layer surface are created |
| `SessionLaws.SurfaceAfterLastBind` | examples/activate-linux/src/main.rs:94-232 | A wanted global sends its bind, followed by surface, layer surface and commit if and only if with it all three have been advertised |
| `SessionLaws.BufferAgreement` | examples/activate-linux/src/main.rs:341-458 | A configure event sends exactly eleven requests: least rounded sizes, a logical size that the scale multiplies back to them, and pool size, stride and height that agree with the number of bytes in the buffer |

## Left out

- `whale-land/src/socket_fd_ext.rs`: the calls into the C library; its documented contract is the contract of `Connections.Socket`. I/O errors and limits on descriptors per call are left out.
- `Connections.Socket.RecvWithFds`: the documentation does not say what an empty buffer receives, and it is taken to receive no bytes and no descriptors; that the code first waits for the socket to become readable is a step of `Transport`.
- Environment variables, connecting the socket, `Arc` and `Weak` beyond a connection being there or not, tracing, the executor, task cancellation.
- `whale-land/src/shared_memory.rs`: thin wrappers; the mapping is the field `sharedMemory`. Failing sends and failing shared memory calls in the example are left out.
- The socket's send buffer is taken to have room: a send never waits for a receiver.
- A dispatch that is re-entered from its own handler: only several dispatches by different tasks are modelled.
- XML parsing, documentation attributes, enum constants, the synchronous variant of the generator, and the generated protocol files. Names are taken to be Rust identifiers other than keywords, and not names of the emitted enumeration types; collisions between the type names of two interfaces of one protocol are left out.
- `Packets.Packet.PushStr`: a string with a NUL, for which the code panics, is excluded by the precondition; the generated code's panic on it is modelled in `Emitted.Execute`.
- `Packets.Packet.PushArray`: an array of 2^32 bytes or more, for which the code panics, is excluded by the precondition; the generated code's panic on it is modelled in `Emitted.Execute`.
- Setters, getters and `clear_payload` of `Packet`: easy members.
- UTF-8 decoding: one validity predicate after the grammar in section 4 of RFC 3629.
- Floating-point conversions, font loading, shaping, rendering and layout; glyph bitmaps and integer placements are inputs.
- `Raster.AddGlyph`: requires that the rendered glyph has a byte for every position of its placement; the code panics otherwise.
- `Raster.DrawString`: requires that no coordinate of a visible bitmap position leaves 32 bits; there a debug build panics and a release build wraps.
- `Raster.DrawText`: requires the same, and that no pixel of the lower line is shifted beyond 32 bits.
- `Session.Client.OnConfigure`: integer overflow is always taken to panic, as in a debug build.
- Shifts and masks are written as multiplication, division and remainder by powers of two.
