# Globed: a verified model of its protocol, connections and voice pipeline

Globed is a multiplayer mod: a C++ client and a Rust server that talk a hand-written binary
protocol. This project models the parts of both whose correctness is not obvious from the
code, and proves what they are for, over every input, every run and every reachable state.

| part | modules |
|---|---|
| the wire format of the `esp` crate, its derive macros and the C++ `ByteBuffer` | `Collections`, `Bytes`, `Utf8`, `Flags`, `Wire`, `WireLaws`, `WireSizes`, `WireReencode`, `WireAgreement`, `BitBuffers`, `CodecSteps`, `RustBuffers`, `CppBuffer`, `PlayerUpdates` |
| packets over TCP, with and without encryption | `Framing` |
| the client's connection and its recovery | `ClientConnection` |
| the server's two registries of client threads | `ServerRegistry` |
| voice capture, playback and voice packets | `VoiceCapture`, `AudioFrame` |
| session tokens, Adler-32 | `Decimal`, `Base64Url`, `SessionTokens`, `Adler32` |
| showing remote players, the list of central servers | `Interpolation`, `CentralServers` |

How the wire format is modelled: a `Schema` is a type of the protocol, an `Item` the object an
encoder walks over (a hash table is listed in its iteration order), a `Value` what a decoder
returns (a hash table is a map). `Wire` has one reference encoder and one reference decoder, on
sequences of bytes; a `Dialect` selects the few places where Rust and C++ differ. The classes
`RustBuffers.Input`, `Output` and `FastByteBuffer`, `CppBuffer.ByteBuffer` and the bit buffers
update positions and bytes as the sources do and are proved against that reference; the laws
are proved about the reference. State machines are a function on a state and an event, any
sequence of events is a run, and a class with the source's fields is proved to take those steps.

What the code does that one might not expect, each proved with its exact condition:

- a count of 65536 or more is cut to 16 bits, so the round trip holds exactly for values whose counts fit (`WireLaws.RoundTrip`);
- a bit struct without fields but with an explicit size counts 0 bytes and writes that many (`WireSizes.DynamicSizeExact`, `FieldlessBitStruct`);
- a C++ bit field of 3, 5, 6 or 7 bytes is written as 4 or 8, with the flags in the low bytes (`WireAgreement.FlagsAgreeExactly`);
- a raw write that straddles the end of a `ByteBuffer` inserts instead of overwriting (`CppBuffer.RawWriteOverwrites`);
- a recovery that is given up or cancelled does not disconnect the sockets, so that a `LoggedIn` packet can still establish a disconnected client, unless the connection was lost to the 20-second timeout (`ClientConnection.LoginWhileDisconnected`, `LoginOutOfNowhere`, `LoginAfterTimeout`);
- that timeout disconnects both sockets, though the comment in `src/net/manager.cpp:940` speaks of the TCP socket (`ClientConnection.SocketExactly`);
- a cancel is not noticed while a recovery awaits the server's answer (`ClientConnection.CancelEndsRecovery`, `CancelIgnored`);
- the server refuses a player's state with a float that is not finite, which the clients themselves would accept (`PlayerUpdates.Relay`);
- a frame of the size of the receive buffer or more is refused with its length already consumed, so the stream is no longer at a frame (`Framing.TakeFrameExactly`);
- a failed `sendAll` leaves a cut frame; if the connection stays open, the receiver fills it up with the bytes of later frames (`Framing.SendPackets`, `GoingOn`);
- the end of a recording drops what the sample queue still holds (`VoiceCapture.StopDrops`);
- falling back from a refused recovery loses the standalone mode (`ClientConnection.FallbackMode`);
- unwrapping an unauthorized thread panics when a claim or a recovery connection still holds a clone of it (`ServerRegistry.UnwrapOnUpgrade`, `ClaimStillHolding`, `RecoveryStillHolding`), contrary to the comment in `server/game/src/server.rs:307`;
- two live threads with the same UDP peer make `clients` incomplete (`ServerRegistry.ExactStep`, `SamePeerTwice`);
- a group of more than ten opus frames is written whole and read back cut off (`AudioFrame.LongGroupIsCut`);
- a dotted account name is cut at its dot and what follows is taken for the time (`SessionTokens.DottedName`);
- the compile-time Adler-32 of C++ leaves the standard at the first non-ASCII character, where `char` is signed (`Adler32.LiteralExactlyAscii`);
- past the newer frame the interpolation runs on beyond it (`Interpolation.OnSegment`);
- an emptied list of central servers is saved with the count 65535 and comes back as the main server alone (`CentralServers.EmptyListSaved`);
- both icons' jumps are reported from the first icon, and jumps and teleports of a state that is followed by another before the next swap are lost (`Interpolation.FlagReports`);
- a block on which the voice encoder fails is lost (`VoiceCapture.LostBlock`).

## Model

| member | source | states |
|---|---|---|
| `Bytes.FromBEOfBE` | server/esp/src/common.rs:58-68 | an integer that fits its width is what its big-endian bytes read back as |
| `Bytes.BEOfFromBE` | server/esp/src/common.rs:58-68 | bytes are what the integer read from them is written as |
| `Bytes.LengthPrefix` | server/esp/src/lib.rs:294-301 | a 16-bit length prefix reads back as the count modulo 65536 |
| `Utf8.ValidAppend` | server/esp/src/common.rs:84-103 | well-formed UTF-8 is closed under concatenation |
| `Utf8.WellFormedExactly` | server/esp/src/common.rs:84-103 | bytes are well-formed if and only if they are the encoding of some sequence of Unicode scalar values |
| `Flags.UnpackPack` | server/esp/src/types/bits.rs:31-56 | packed flags read back as themselves, for any number of flags that fits |
| `Flags.PackInjective` | server/derive/src/encode.rs:45-101 | different flags are packed differently |
| `WireLaws.RoundTripAt` | server/esp/src/common.rs:72-589 | wherever an encoding stands, decoding returns the encoded value and stops right behind it, for every schema and object whose counts fit |
| `WireLaws.RoundTrip` | server/derive/src/decode.rs:7-140 | inside any prefix and suffix the round trip holds if and only if every count fits its 16-bit prefix |
| `WireLaws.DecodedFits` | server/esp/src/common.rs:392-485 | no decoder returns a value with a count that does not fit |
| `WireLaws.IterationOrderIsIrrelevant` | server/esp/src/common.rs:423-485 | two objects that differ in hash iteration order only, at any depth, decode to the same value |
| `WireLaws.ReorderedTable` | server/esp/src/common.rs:429-445 | listing a hash table in another order changes neither its validity nor its meaning |
| `WireLaws.MapOfDistinct` | server/esp/src/common.rs:453-468 | inserting entries with distinct keys one by one gives exactly those entries |
| `WireLaws.Relocate` | server/esp/src/lib.rs:67-87 | decoding the rest of a buffer as a buffer of its own gives the same outcome, shifted; also on malformed input |
| `WireSizes.DynamicSizeExact` | server/derive/src/lib.rs:83-191 | without `as_static`, `encoded_size` is the number of bytes written if and only if no part is a field-less bit struct of non-zero size, and never more |
| `WireSizes.SizeBounds` | server/esp/src/common.rs:189-337 | with or without `as_static`, if no part is a field-less bit struct of non-zero size: bytes written are at most `encoded_size`, which is at most `ENCODED_SIZE` |
| `WireSizes.StaticSizeAttained` | server/esp/src/common.rs:189-337 | `ENCODED_SIZE` is no larger than need be: some object of the type takes exactly that many bytes |
| `WireSizes.FieldlessBitStruct` | server/derive/src/lib.rs:156-164 | the deviating family: such a struct writes `size` bytes and counts none |
| `WireReencode.Reify` | server/esp/src/common.rs:392-485 | every value decoded from arbitrary bytes is the meaning of an object of the type |
| `WireReencode.TableCost` | server/esp/src/common.rs:447-485 | entries kept from a table with repeated keys never cost more than all the pairs read |
| `WireReencode.ReencodeSize` | server/esp/src/lib.rs:330-411 | re-encoding a decoded value, in any iteration order, takes no more bytes than were consumed |
| `WireReencode.Reencode` | server/esp/src/lib.rs:330-411 | and decodes to the same value again |
| `WireAgreement.FlagsAgreeExactly` | src/data/bitbuffer.hpp:14-17 | Rust and C++ bit structs have the same bytes for all flags if and only if the Rust size is that of the C++ integer and each byte of it is used |
| `WireAgreement.DefaultSizeCompatible` | server/derive/src/lib.rs:83-191 | the default Rust size is compatible exactly when it is not 3, 5, 6 or 7 bytes |
| `WireAgreement.SameBytes` | src/data/bytebuffer.hpp:385-510 | both sides write identical bytes for every object of every shared type |
| `WireAgreement.SameReading` | src/data/bytebuffer.hpp:52-86 | on arbitrary bytes, what Rust accepts C++ reads as the same value at the same position; what Rust rejects C++ rejects, ill-formed UTF-8 and non-finite floats aside |
| `WireAgreement.CrossLanguage` | src/data/bytebuffer.hpp:72-86 | each side decodes the other's output, anywhere in a packet, to the value encoded |
| `WireAgreement.ServerReadsExactly` | server/esp/src/types/finite.rs:15-39 | the server reads what a client wrote if and only if all its text is well-formed and every float that must be finite is; otherwise it is refused for one of these reasons |
| `WireAgreement.MeaningInjective` | src/data/bytebuffer.hpp:385-510 | an object of a shared type is determined by its meaning |
| `BitBuffers.Bits.Reset` | server/esp/src/types/bits.rs:14-19 | all bits are off afterwards |
| `BitBuffers.Bits.AssignBit` | server/esp/src/types/bits.rs:39-56 | one bit of one byte changes, and no other |
| `BitBuffers.Bits.GetBit` | server/esp/src/types/bits.rs:31-37 | reads the bit of weight 2^(7 - pos % 8) of byte pos / 8 |
| `BitBuffers.PackStep` | server/esp/src/types/bits.rs:39-56 | assigning a field to the packing of the fields before it packs it too |
| `BitBuffers.PackFields` | server/derive/src/encode.rs:45-101 | the generated encoder of a bit struct writes the packed flags |
| `BitBuffers.UnpackFields` | server/derive/src/decode.rs:46-89 | the generated decoder reads them |
| `BitBuffers.BitBuffer.WriteBit` | src/data/bitbuffer.hpp:30-36 | sets the next bit from the top, or throws exactly when full |
| `BitBuffers.BitBuffer.ReadBit` | src/data/bitbuffer.hpp:49-54 | returns the next bit from the top, or throws exactly at the end |
| `BitBuffers.BitBuffer.Contents` | src/data/bitbuffer.hpp:65-67 | the integer fits in the bits of the buffer, and a buffer made from it holds the same bits again |
| `BitBuffers.LayoutValue` | src/data/bitbuffer.hpp:65-67 | the integer of a C++ bit buffer is the big-endian reading of the Rust byte array, for any number of bytes |
| `BitBuffers.BitfieldInteger` | src/data/bytebuffer.hpp:360-381 | writing flags bit by bit ends in that integer |
| `BitBuffers.BitsetReads` | src/data/bitbuffer.hpp:49-54 | bit `i` of a bit buffer filled from bytes is flag `i` of its low bytes |
| `BitBuffers.BitfieldFlags` | src/data/bytebuffer.hpp:337-358 | reading bit by bit returns the flags packed in the bytes |
| `RustBuffers.Input.ReadNumber` | server/esp/src/common.rs:33-44 | reads a big-endian number or fails without moving |
| `RustBuffers.Input.ReadLengthCheck` | server/esp/src/lib.rs:348-357 | returns the count exactly if that many elements can still follow |
| `RustBuffers.Input.ReadValue` | server/esp/src/lib.rs:382-385 | on every input, well-formed or not, result and final position are those of the reference decoder, for both buffer types |
| `RustBuffers.Input.DefaultDecode` | server/esp/src/lib.rs:67-82 | the default `decode`, through a reader and back, does so too |
| `RustBuffers.Input.ReadString` | server/esp/src/common.rs:84-103 | the length, the bytes, the UTF-8 check, in that order of failures |
| `RustBuffers.Input.ReadFlags` | server/esp/src/types/bits.rs:75-93 | bytes of a bit field one by one; a short buffer is used up |
| `RustBuffers.Input.ReadMany` | server/esp/src/lib.rs:387-411 | a loop of reads is the reference's list, failing at the first failure |
| `RustBuffers.Input.ReadTable` | server/esp/src/common.rs:447-485 | a table filled as it is read is the map of the pairs |
| `RustBuffers.Input.ValidateSelfChecksum` | server/esp/src/lib.rs:413-434 | accepts exactly buffers whose last four bytes are the checksum of the rest, and leaves the position alone |
| `RustBuffers.ChecksumBytes` | server/esp/src/lib.rs:413-434 | comparing numbers and comparing bytes is the same |
| `RustBuffers.ChecksummedRoundTrip` | server/esp/src/lib.rs:321-326 | a value, then the checksum: it validates and the value reads back |
| `RustBuffers.Output.WriteValue` | server/esp/src/lib.rs:310-313 | the reference bytes stand at the old position, the rest is unchanged |
| `RustBuffers.Output.WriteAll` | server/esp/src/common.rs:340-361 | a loop of writes is the reference's concatenation |
| `RustBuffers.Output.AppendSelfChecksum` | server/esp/src/lib.rs:321-326 | the checksum of the whole buffer stands at the write position; at the end of the buffer, the buffer then carries its checksum |
| `RustBuffers.FastByteBuffer.InternalWrite` | server/esp/src/fastbuffer.rs:108-120 | at any position with room the bytes stand there, every other byte of the slice is untouched, the length covers them |
| `RustBuffers.FastByteBuffer.WriteValue` | server/esp/src/fastbuffer.rs:22-75 | with room for the encoding, the fast encoder writes the same bytes and touches nothing else |
| `RustBuffers.EncodeDynamic` | server/esp/src/lib.rs:207-216 | for a value without a field-less bit struct of non-zero size, a slice of `encoded_size` bytes suffices and holds what `encode` writes |
| `RustBuffers.EncodeStatic` | server/esp/src/lib.rs:191-205 | and so does one of `ENCODED_SIZE` bytes |
| `CppBuffer.WritePrimitiveBytes` | src/util/data.hpp:90-97 | the byteswapped integer in little-endian memory is the big-endian number |
| `CppBuffer.ReadPrimitiveValue` | src/data/bytebuffer.hpp:202-211 | and the other way round |
| `CppBuffer.SwapTwice` | src/util/data.hpp:76-87 | byteswapping twice is the identity on every width |
| `CppBuffer.RawWriteOverwrites` | src/data/bytebuffer.cpp:35-49 | a raw write overwrites if and only if it starts at the end or lies inside the data |
| `CppBuffer.ByteBuffer.RawWriteBytes` | src/data/bytebuffer.cpp:35-49 | inserts or overwrites byte by byte as above |
| `CppBuffer.ByteBuffer.WritePrimitive` | src/data/bytebuffer.hpp:213-221 | writes the big-endian number |
| `CppBuffer.ByteBuffer.ReadPrimitive` | src/data/bytebuffer.hpp:202-211 | reads it, or fails in place |
| `CppBuffer.ByteBuffer.WriteValue` | src/data/bytebuffer.hpp:72-86 | at the end of the buffer, appends the reference bytes of the C++ dialect |
| `CppBuffer.ByteBuffer.WriteAll` | src/data/bytebuffer.hpp:437-444 | a loop of writes is the concatenation |
| `CppBuffer.ByteBuffer.WriteFlags` | src/data/bytebuffer.hpp:360-381 | a bit struct as a byteswapped integer is the packed flags, with leading zero bytes |
| `CppBuffer.FlagsInteger` | src/data/bitbuffer.hpp:14-17 | at the width of its C++ type the integer is the packed form behind zero bytes |
| `CppBuffer.ByteBuffer.ReadValue` | src/data/bytebuffer.hpp:52-70 | on every input, result and position of the reference decoder of the C++ dialect |
| `CppBuffer.ByteBuffer.ReadMany` | src/data/bytebuffer.hpp:419-435 | the vector loop, failing at the first failure |
| `CppBuffer.ByteBuffer.ReadFlags` | src/data/bytebuffer.hpp:337-358 | flags from the integer just read |
| `PlayerUpdates.MeaningOfIcon` | src/data/types/game.cpp:22-71 | every field and each of the eleven flags of an icon comes back as itself, on client and server |
| `PlayerUpdates.PackWidened` | src/data/types/game.cpp:27-41 | flags that are not there are packed like flags that are off |
| `PlayerUpdates.TwinPlayer` | server/game/src/data/types/game.rs:30-66 | the client's flags and the server's raw bit fields have the same bytes, 45 and 16 more for each teleport, and the state is one of the server's type exactly if all its floats are finite |
| `PlayerUpdates.WritesPlayer` | src/data/types/game.cpp:22-83 | the bytes of a player's state, field by field and bit by bit |
| `PlayerUpdates.Relay` | src/data/types/game.cpp:73-98 | a player's state anywhere in a packet: another client always reads it back; the server reads it if and only if every float is finite, then writes the same bytes again, and otherwise refuses it as not finite |
| `PlayerUpdates.InfinityIsRefused` | server/esp/src/types/finite.rs:15-39 | a refused state: any with an infinite timestamp |
| `PlayerUpdates.EncodePlayer` | src/data/types/game.cpp:73-83 | appends those bytes |
| `PlayerUpdates.DecodePlayer` | src/data/types/game.cpp:85-98 | on any input, the player the reference decoder reads, or its error |
| `Framing.EncryptInPlace` | src/crypto/base_box.hpp:75-78 | the text is replaced by nonce, tag and ciphertext, everything else stays |
| `Framing.DecryptInPlace` | src/crypto/base_box.hpp:99-108 | the plaintext is moved to the front of the box; short input is refused |
| `Framing.HeaderBytes` | src/net/game_socket.cpp:215-231 | the three header bytes are the encoding of id and flag |
| `Framing.EncodePacket` | src/net/game_socket.cpp:215-258 | appends the frame of the packet: patched length, header, plain or sealed body; fails exactly if a box is needed and missing |
| `Framing.DecodePacket` | src/net/game_socket.cpp:260-293 | for every sequence of bytes, the packet or the reason for its refusal |
| `Framing.AcceptedExactly` | src/net/game_socket.cpp:260-293 | over all messages of whatever origin: accepted as a packet if and only if the body, as it stands for a kind that is not encrypted or opened by the box, decodes to it; so nothing of an encrypted kind gets past the box |
| `Framing.RefusedExactly` | src/net/game_socket.cpp:260-293 | the exact condition of each of the six refusals, cleartext of an encrypted kind among them |
| `Framing.DecodeEncoded` | src/net/game_socket.cpp:215-293 | a message made by the encoder is accepted as its packet, sealed or not |
| `Framing.TcpSocket.Receive` | src/net/tcp_socket.cpp:87-106 | any non-empty part of what has arrived |
| `Framing.TcpSocket.RecvExact` | src/net/tcp_socket.cpp:108-121 | however the stream is cut, succeeds exactly when the bytes are there, and takes exactly them |
| `Framing.TcpSocket.SendAll` | src/net/tcp_socket.cpp:70-81 | however `send` splits the bytes and wherever it fails: the first `sent` of them are on the stream, in order, all of them exactly on success |
| `Framing.TakeFrameExactly` | src/net/game_socket.cpp:64-79 | a message behind its length is taken whole, and no more, if and only if it is smaller than the receive buffer; a bigger one is refused with only its length consumed |
| `Framing.FrameExactly` | src/net/game_socket.cpp:64-79 | so a deliverable packet comes back with the stream at the next frame exactly below that size |
| `Framing.SendPacket` | src/net/game_socket.cpp:123-140 | over TCP or UDP as the kind says; nothing goes out while disconnected or without a box that is needed; a TCP send that fails leaves a proper prefix of the frame, one that succeeds all of it |
| `Framing.RecvPacketTCP` | src/net/game_socket.cpp:64-79 | on every stream, however it is cut: the packet and the rest, or the refusal and where the stream then stands, or the end of the connection |
| `Framing.SendPackets` | src/net/game_socket.cpp:123-140 | a list of packets, going on after failures: prefixes of the TCP frames in order, whole exactly for those reported sent, and the datagrams of the others; if the connection closed at every cut frame, whole frames and at most one cut frame at the end |
| `Framing.CutFrameEnds` | src/net/game_socket.cpp:64-79 | a frame cut anywhere is the end of the stream for the receiver |
| `Framing.GoingOn` | src/net/tcp_socket.cpp:70-81 | if the sender goes on behind a cut frame, the receiver takes the next bytes for the missing ones |
| `Framing.PiecesSplit` | src/net/game_socket.cpp:123-140 | a stream cut at most once is the frames of the packets sent followed by nothing or the beginning of a frame |
| `Framing.ReceiveAll` | src/net/game_socket.cpp:64-79 | for every list of packets and every cutting of the stream, the packets come back in order and what follows is untouched |
| `Framing.ReceiveUntilEnd` | src/net/game_socket.cpp:64-79 | on a stream of frames with a cut one at the end, exactly the whole packets come back, in order, before the connection ends |
| `Framing.Exchange` | src/net/game_socket.cpp:64-140 | sending and receiving composed: if the connection closed at every cut frame, the other side gets exactly the TCP packets reported as sent, in order; all of them if none failed |
| `ClientConnection.ReachableInv` | src/net/manager.cpp:792-928 | in every reachable state: at most three attempts, counted only while recovering, and recovering only in TcpConnecting or Authenticating |
| `ClientConnection.PathToAuthenticating` | src/net/manager.cpp:792-825 | Authenticating is reached from Disconnected only through TcpConnecting |
| `ClientConnection.PathToEstablished` | src/net/manager.cpp:731-767 | from the start, Established is reached only through TcpConnecting, then Authenticating, then a LoggedIn packet, in every run in which no recovery was abandoned |
| `ClientConnection.DeafWhenDisconnected` | src/net/manager.cpp:283-305 | in such runs a disconnected client has no socket that a packet could come from |
| `ClientConnection.SocketExactly` | src/net/manager.cpp:930-945 | each of the two sockets counts as connected exactly if a connect got as far as that socket and nothing disconnected it since: `disconnect`, the 20-second timeout, or for TCP a lost connection or another attempt |
| `ClientConnection.LoginWhileDisconnected` | src/net/manager.cpp:731-767 | an event establishes a disconnected client if and only if it is a LoggedIn packet, the client is not suspended, and one of its sockets was left connected |
| `ClientConnection.EveryEntryExactly` | src/net/manager.cpp:613-625 | in every run: all ways into Established lead out of Authenticating if and only if no such stray login arrives |
| `ClientConnection.LoginOutOfNowhere` | src/net/manager.cpp:868-880 | a run with a stray login: lost, cancelled while it recovers, then established by the packet |
| `ClientConnection.LoginAfterTimeout` | src/net/manager.cpp:930-945 | the same run after a timeout, which disconnects both sockets: the login is not heard |
| `ClientConnection.MovesExactly` | src/net/manager.cpp:250-305 | in every run, the exact events behind each change of state: into TcpConnecting, Authenticating, Established and Disconnected |
| `ClientConnection.EndedForGood` | src/net/manager.cpp:283-305 | after a heard rejection, a disconnect by the user, a failed first connect, a loss or five seconds while authenticating: Disconnected, recovering nothing, both sockets down, through any run until the user connects |
| `ClientConnection.SuspendedExactly` | src/net/manager.cpp:731-735 | suspended exactly if that was the last of the two requests |
| `ClientConnection.SuspendedStandsStill` | src/net/manager.cpp:792-796 | a suspended client stands still through any run of passes and packets |
| `ClientConnection.StandaloneExactly` | src/net/manager.cpp:250-297 | in every run, standalone mode is on exactly from the request that chose it to the next request or the end of the connection |
| `ClientConnection.LossStartsRecovery` | src/net/manager.cpp:884-893 | a lost connection starts a recovery with 154 steps of the main thread ahead |
| `ClientConnection.RecoveryStep` | src/net/manager.cpp:826-883 | each failing connect and each slice of sleep is one step closer to giving up, anything else changes nothing |
| `ClientConnection.RecoveryGivesUp` | src/net/manager.cpp:826-883 | if every connect fails, for any interleaving of other events: in recovery until exactly then, and Disconnected after four connects and 60000 ms of sleep |
| `ClientConnection.CancelEndsRecovery` | src/net/manager.cpp:826-907 | after a cancel and any events short of a connect or disconnect, the next turn of the main thread ends the recovery and its sleep or finds its connect succeeded, exactly unless it awaits the server in Authenticating, where nothing changes |
| `ClientConnection.CancelIgnored` | src/net/manager.cpp:894-907 | while it awaits the server, passes with any outcome and any number of cancels leave it recovering |
| `ClientConnection.AwaitingHappens` | src/net/manager.cpp:826-850 | a run from the start to such a wait, in standalone mode and with the server heard |
| `ClientConnection.CancelOnlyOnRequest` | src/net/manager.cpp:312-314 | the cancel flag is set only by a request |
| `ClientConnection.CancelExactly` | src/net/manager.cpp:283-314 | in every run the cancel flag is up exactly if it was asked for and neither a disconnect nor a loss has cleared it since |
| `ClientConnection.OldCancelIsForgotten` | src/net/manager.cpp:884-893 | a cancel from before the loss never aborts the later recovery |
| `ClientConnection.FallbackMode` | src/net/manager.cpp:460-471 | after a refused recovery the mode is kept exactly if it was not standalone, and the sockets are closed; unheard, the packet changes nothing |
| `ClientConnection.NetworkManager.DoConnect` | src/net/manager.cpp:250-281 | connect: its refusals and its new state |
| `ClientConnection.NetworkManager.DoDisconnect` | src/net/manager.cpp:283-305 | disconnect: its new state |
| `ClientConnection.NetworkManager.OnPacketArrives` | src/net/manager.cpp:731-767 | the effect of each packet, and none when suspended, connecting, or when no socket is connected |
| `ClientConnection.NetworkManager.ThreadMainPass` | src/net/manager.cpp:792-945 | one pass of the main thread, with the timeout |
| `ClientConnection.NetworkManager.ThreadSleepSlice` | src/net/manager.cpp:863-880 | one slice of the back-off sleep |
| `ServerRegistry.InvAlways` | server/game/src/server.rs:187-374 | under every interleaving: unauthorized threads are listed exactly once while they run, `clients` names live threads under their own peers, threads belong to one task |
| `ServerRegistry.LookupNeverFails` | server/game/src/server.rs:286-293 | a terminated unauthorized thread is always found in the list, once |
| `ServerRegistry.UnwrapAfterWait` | server/game/src/server.rs:337-363 | after the wait, unwrapping an authorized thread never fails |
| `ServerRegistry.UnwrapOnUpgrade` | server/game/src/server.rs:307-322 | unwrapping an unauthorized thread fails if and only if a clone is outstanding or a recovery connection holds it |
| `ServerRegistry.ClaimStillHolding` | server/game/src/server.rs:422-431 | a run that reaches that failure |
| `ServerRegistry.RecoveryStillHolding` | server/game/src/server.rs:250-257 | another: a recovery connection that has not returned yet when its thread upgrades |
| `ServerRegistry.ExactStep` | server/game/src/server.rs:317-335 | every running authorized thread stays filed if and only if no upgrade uses the peer of a live one |
| `ServerRegistry.ExactAlways` | server/game/src/server.rs:281-374 | so over whole runs |
| `ServerRegistry.SamePeerTwice` | server/game/src/server.rs:317-322 | a run that reaches such a collision |
| `ServerRegistry.RegistriesPartition` | server/game/src/server.rs:281-374 | while live peers are distinct, each thread that runs is in exactly the registry of its kind |
| `ServerRegistry.RecoveryAddsNothing` | server/game/src/server.rs:200-265 | under every interleaving, a task that took the recovery marker never owns an entry of either registry: each entry belongs to another task that runs the thread |
| `ServerRegistry.RecoveryStep` | server/game/src/server.rs:200-265 | a recovery connection stays one whatever happens, and its own events leave both registries alone |
| `ServerRegistry.BorrowedUntilReturn` | server/game/src/server.rs:219-257 | through any run in which a recovery connection does not return, every upgrade of the thread it holds panics |
| `ServerRegistry.FinishedForGood` | server/game/src/server.rs:376-389 | a finished task stays finished through any run |
| `ServerRegistry.FinishedExactly` | server/game/src/server.rs:187-389 | under every interleaving, a task is finished exactly if it came to one of its six ends |
| `ServerRegistry.TerminatedForGood` | server/game/src/server.rs:324-354 | under every interleaving, a client whose authorized thread ended with a termination never has an entry in either registry again, and is finished exactly once nobody else was found holding the thread |
| `ServerRegistry.DowngradedNext` | server/game/src/server.rs:337-370 | one that only disconnected goes on to the downgrade, and then runs a fresh thread, listed behind the others |
| `ServerRegistry.ClonesGoExactly` | server/game/src/server.rs:337-347 | once no clone of a thread is handed out any more, as many are left as have not been dropped: the wait ends exactly when all have |
| `ServerRegistry.GameServer.InitialLogin` | server/game/src/server.rs:267-273 | lists a new thread |
| `ServerRegistry.GameServer.UnauthorizedEnds` | server/game/src/server.rs:283-299 | removes the thread found by pointer equality, and no other |
| `ServerRegistry.GameServer.UpgradeThread` | server/game/src/server.rs:301-322 | unwraps and files under the peer, or panics |
| `ServerRegistry.GameServer.AuthorizedEnds` | server/game/src/server.rs:324-354 | removes the entry of the peer |
| `ServerRegistry.GameServer.DowngradeThread` | server/game/src/server.rs:356-370 | lists the thread again |
| `ServerRegistry.GameServer.RecoveryFindsThread` | server/game/src/server.rs:216-241 | takes a clone of a matching thread exactly if one is listed, and otherwise ends |
| `ServerRegistry.GameServer.FindUnauthorized` | server/game/src/server.rs:219-224 | finds a match exactly when there is one |
| `VoiceCapture.SampleQueue.CopyTo` | src/audio/sample_queue.cpp:13-26 | takes at most that many samples from the front, in order |
| `VoiceCapture.PlaybackCallback` | src/audio/stream.cpp:20-50 | queued samples, then silence; starving exactly when the queue ran short |
| `VoiceCapture.RingHolds` | src/audio/manager.cpp:502-530 | the last second of samples is still in the ring, each in its slot |
| `VoiceCapture.FreshExactly` | src/audio/manager.cpp:519-530 | a pass copies exactly the samples recorded since the last one, across wrap-around, if and only if they are fewer than one ring |
| `VoiceCapture.SamplesConserved` | src/audio/manager.cpp:502-563 | through any run of starts, stops, halts, pauses, resumes, passes, device errors and changes of capacity: blocks taken for encoding, or samples given to the raw callback, followed by the queue are exactly the samples recorded during active passes; after the end, followed by the samples dropped with the queue |
| `VoiceCapture.StopDrops` | src/audio/manager.cpp:289-321 | the end of a recording drops exactly the queue, which may hold more than a block |
| `VoiceCapture.FramesConserved` | src/audio/manager.cpp:551-562 | through any run that changes the capacity between recordings only, also where the ring overran: every frame made is delivered at most once and in order, freed once or still held, in groups of 1 to capacity frames, and no push fails |
| `VoiceCapture.BuffersBalance` | src/audio/frame.cpp:31-37 | in terms of buffers: those made and not freed are exactly those held, and none is freed twice |
| `VoiceCapture.PassFailsExactly` | src/audio/manager.cpp:549-555 | for any capacity, changed at any time: a pass ends the recording by an error exactly when a block is waiting and the encoder fails or the group has no room |
| `VoiceCapture.RoomExactly` | src/audio/frame.cpp:14-29 | when the group has room after an event, given the room before it: a change of capacity takes it away exactly down to the frames held, an emitting pass restores it exactly for a capacity that is not 0 |
| `VoiceCapture.EndOfRecording` | src/audio/manager.cpp:289-321 | at the end what is held is delivered, or on a halt dropped, and freed either way |
| `VoiceCapture.RequestsExactly` | src/audio/manager.cpp:323-330 | while a recording goes on, a stop or halt is pending exactly if it was asked for since the start |
| `VoiceCapture.EndsExactly` | src/audio/manager.cpp:475-500 | a recording ends exactly by a device failure, by the pass after a stop or halt, or by a pass that fails |
| `VoiceCapture.DeliveredExactly` | src/audio/manager.cpp:289-330 | in terms of the events: once a recording has ended, every frame made was delivered if no halt was asked for since its start; otherwise exactly those held at the end are missing |
| `VoiceCapture.GroupStep` | src/audio/manager.cpp:545-563 | a pass makes at most one frame, out of one block, and delivers what is held exactly if the capacity is reached or the recording is paused |
| `VoiceCapture.FullGroups` | src/audio/manager.cpp:558-562 | a recording that is not passive delivers groups of exactly the capacity, as many as the frames made fill |
| `VoiceCapture.LostBlock` | src/audio/manager.cpp:549-555 | every block of 1440 samples taken became a frame, except one on which the encoder failed |
| `VoiceCapture.ResumedExactly` | src/audio/manager.cpp:361-367 | passive capture is on exactly if a resume came last, after any pause or end of a recording |
| `VoiceCapture.HeardIsCaptured` | src/audio/manager.cpp:517-547 | conservation in terms of the events alone: what was captured and queued, or given to the raw callback at once, is what the passes since the start recorded, without those of a passive recording not resumed |
| `VoiceCapture.GroupsSurviveTheWire` | src/audio/frame.cpp:51-84 | each group a run hands to the callback, of frames up to 1000 bytes and a capacity up to ten, is rebuilt by the codec |
| `VoiceCapture.AudioManager.StartRecording` | src/audio/manager.cpp:223-287 | refused exactly while active or when the device fails, and then nothing changes; otherwise a clean start |
| `VoiceCapture.AudioManager.SetRecordBufferCapacity` | src/audio/manager.cpp:219-221 | the new capacity; frames beyond it go, and their buffers are freed |
| `VoiceCapture.AudioManager.StopRecordingLater` | src/audio/manager.cpp:323-330 | stop and halt only leave a request |
| `VoiceCapture.AudioManager.RecordInvokeCallback` | src/audio/manager.cpp:453-463 | hands over the group and frees its buffers and no one else's |
| `VoiceCapture.AudioManager.InternalStopRecording` | src/audio/manager.cpp:289-321 | the end of a recording |
| `VoiceCapture.AudioManager.CollectSamples` | src/audio/manager.cpp:517-532 | moves what is new from the ring to the queue, unless paused |
| `VoiceCapture.AudioManager.EncodeFrame` | src/audio/manager.cpp:549-555 | takes one block and pushes its frame in a new buffer, or reports the error; a buffer is lost exactly when the group is full |
| `VoiceCapture.AudioManager.AudioThreadFunc` | src/audio/manager.cpp:475-500 | one whole pass of the audio thread: the step of the recorder, and while the group has room no buffer lost or wrongly freed |
| `AudioFrame.GroupRoundTrip` | src/audio/frame.cpp:51-84 | anywhere in a packet, a group reads back as itself and ends where it ended if and only if it has at most ten frames of at most 1000 bytes |
| `AudioFrame.GroupLayout` | src/audio/frame.cpp:51-67 | the bytes of a group: each frame behind a 1 and its length in four bytes, in order, and a zero for each slot left |
| `AudioFrame.LongGroupIsCut` | src/audio/frame.cpp:51-67 | a longer group is cut after ten frames and its rest left unread |
| `AudioFrame.OpusRoundTrip` | src/audio/encoder.cpp:21-46 | one opus frame reads back |
| `AudioFrame.EncodedAudioFrame.PushOpusFrame` | src/audio/frame.cpp:14-21 | refused exactly when full |
| `AudioFrame.EncodedAudioFrame.SetCapacity` | src/audio/frame.cpp:23-29 | keeps the oldest frames and frees each of the others once |
| `AudioFrame.EncodedAudioFrame.Clear` | src/audio/frame.cpp:31-37 | frees each buffer of the group once, and no other |
| `AudioFrame.EncodedAudioFrame.Encode` | src/audio/frame.cpp:51-67 | appends the ten-slot form |
| `AudioFrame.ReadOpus` | src/audio/encoder.cpp:26-46 | allocates what it returns and leaks nothing when it fails |
| `AudioFrame.DecodeGroup` | src/audio/frame.cpp:69-84 | on any input, the reference result; on failure every buffer allocated on the way is freed |
| `SessionTokens.OutcomeOfGenerated` | server/shared/src/token_issuer.rs:62-146 | the fate of every generated token for any ids and any time: its name, or the first check that fails |
| `SessionTokens.TokenRoundTrip` | server/shared/src/token_issuer.rs:62-146 | a token returns its name if and only if the name has no dot, the ids are the same, and the time is between the second of issue and the end of the period |
| `SessionTokens.LaterWithinPeriod` | server/shared/src/token_issuer.rs:62-146 | in particular at any later time, up to a second before the period is over |
| `SessionTokens.ValidExactly` | server/shared/src/token_issuer.rs:81-146 | accepted tokens are exactly the seals of readable claims in force |
| `SessionTokens.NamesHaveNoDot` | server/shared/src/token_issuer.rs:97-111 | a returned name has no dot |
| `SessionTokens.DottedName` | server/shared/src/token_issuer.rs:97-117 | what happens to a name with a dot and a number behind it |
| `SessionTokens.ClaimsReadBack` | server/shared/src/token_issuer.rs:68-68 | printed and joined claims are split and parsed back |
| `Decimal.ParsePrint` | server/shared/src/token_issuer.rs:99-117 | parsing undoes printing exactly on the range of the integer type |
| `Decimal.PrintParse` | server/shared/src/token_issuer.rs:99-117 | printing undoes parsing exactly on text without plus sign and leading zeros |
| `Base64Url.DecodeExactly` | server/shared/src/token_issuer.rs:73-77 | a text decodes to some bytes if and only if it is their encoding (section 5 of RFC 4648, no padding) |
| `Base64Url.AlphabetTable` | server/shared/src/token_issuer.rs:73-77 | the 64 symbols, one by one (table 2 of RFC 4648) |
| `Base64Url.SextetsAreDigits` | server/shared/src/token_issuer.rs:73-77 | the symbols are the base-64 digits of the bytes read as one number with zero bits behind, the grouping of section 4 of RFC 4648 |
| `Base64Url.EncodedSymbols` | server/shared/src/token_issuer.rs:73-77 | encodings are ASCII and hold no dot |
| `Adler32.Adler32` | src/util/adler32.hpp:6-17 | the run-time loop computes the checksum of section 2.2 of RFC 1950, without leaving 32 bits |
| `Adler32.Adler32Const` | server/esp/src/hash.rs:9-28 | so does the compile-time loop in Rust |
| `Adler32.HalvesAppend` | src/util/adler32.hpp:11-14 | one more byte changes the closed sums as one turn of the loop does |
| `Adler32.CombineHalves` | src/util/adler32.hpp:16-16 | shift and or put the halves side by side |
| `Adler32.LiteralExactlyAscii` | src/util/adler32.hpp:21-33 | the literal version follows the definition along a string if and only if the string is ASCII |
| `Adler32.LiteralChecksum` | src/util/adler32.hpp:21-33 | on ASCII all three versions agree |
| `Adler32.LiteralDiffers` | src/util/adler32.hpp:29-29 | a first non-ASCII character at the end always changes the result |
| `Interpolation.PlayerInterpolator.UpdatePlayer` | src/game/interpolator.cpp:28-57 | the new state of one player, the others unchanged |
| `Interpolation.PlayerInterpolator.Tick` | src/game/interpolator.cpp:97-116 | every player is ticked once, whatever the order of the map |
| `Interpolation.PlayerInterpolator.SwapFrameFlags` | src/game/interpolator.cpp:122-133 | hands out all pending flags and clears them |
| `Interpolation.PlayerInterpolator.IsPlayerStale` | src/game/interpolator.cpp:135-139 | stale exactly when updated at all and more than half a second away |
| `Interpolation.LerpPointIsLerp` | src/game/interpolator.cpp:59-76 | the two interpolation formulas agree |
| `Interpolation.ShownIsInterpolated` | src/game/interpolator.cpp:59-116 | after an update and any ticks, shown is the even movement between the last two states at the time elapsed before the last tick; spiders that jump 33 or more keep their height |
| `Interpolation.OnSegment` | src/game/interpolator.cpp:97-116 | a coordinate is on its segment if and only if no more than the delta has elapsed, or it stands still |
| `Interpolation.PictureMovesOneWay` | src/game/interpolator.cpp:59-116 | with a positive delta and non-negative ticks every coordinate only moves towards the newer state, and stays between while within the delta |
| `Interpolation.CourseEnds` | src/game/interpolator.cpp:97-116 | elapsed nothing shows the older state, elapsed the delta the newer |
| `Interpolation.DeathReports` | src/game/interpolator.cpp:34-39 | after any events the next swap reports a death if and only if a later state than the first changed the death time since the last swap |
| `Interpolation.DeathOnRecord` | src/game/interpolator.cpp:34-39 | the time a state is compared with is that of an earlier state, within 0.002 of the last one's |
| `Interpolation.FlagReports` | src/game/interpolator.cpp:41-44 | after any events the next swap reports the jump and the teleports of the last state if it came in since the last swap, and nothing otherwise |
| `Interpolation.LastStateShown` | src/game/interpolator.cpp:28-57 | after any events the last state decides staleness; in realtime mode it is what is shown, otherwise the newer of the two shown between |
| `Interpolation.NothingShownYet` | src/game/interpolator.cpp:97-101 | nothing is shown before the first state, and without realtime before the second |
| `Interpolation.NoTeleportShown` | src/data/types/game.cpp:7-20 | an interpolated picture never holds a teleport |
| `CentralServers.ActiveInRange` | src/managers/central_server.cpp:88-139 | through any run from an in-range index it is in range if and only if the list was never empty on the way, and otherwise -1 |
| `CentralServers.SameServerStaysActive` | src/managers/central_server.cpp:93-126 | through any run, unless an operation removed the entry that was active at the start, the active server is what the run last stored in that entry |
| `CentralServers.EntriesExactly` | src/managers/central_server.cpp:88-139 | after any run each entry holds what was last stored in it by adding or modifying it, or else what it held before |
| `CentralServers.PresentExactly` | src/managers/central_server.cpp:88-126 | an entry is in the list exactly if it was there or was added, and was not removed |
| `CentralServers.OrderKept` | src/managers/central_server.cpp:88-118 | new entries go to the end and the others keep their order |
| `CentralServers.NeighbourTakesOver` | src/managers/central_server.cpp:103-113 | when the active entry goes, the next one becomes active, behind the last the one before, and none if there is no other |
| `CentralServers.StandaloneStays` | src/managers/central_server.cpp:103-116 | an index that denotes no entry is left alone by every run |
| `CentralServers.SaveLoadExactly` | src/managers/central_server.cpp:164-216 | saving and loading restores the list if and only if it is not empty, starts with the main server, and counts and strings of the others fit 16 bits |
| `CentralServers.EmptyListSaved` | src/managers/central_server.cpp:199-216 | an empty list is saved as the bytes 255, 255 and read back as the main server alone |
| `CentralServers.CentralServerManager.constructor` | src/managers/central_server.cpp:8-38 | the stored index is taken over exactly if in range and not 0, or a standalone server that loads |
| `CentralServers.CentralServerManager.GetActive` | src/managers/central_server.cpp:45-62 | a server exactly when the index is in range |
| `CentralServers.CentralServerManager.AddServer` | src/managers/central_server.cpp:88-91 | appends and saves |
| `CentralServers.CentralServerManager.RemoveServer` | src/managers/central_server.cpp:93-126 | removes, corrects the index, switches if the active one went, saves; out of range nothing happens |
| `CentralServers.CentralServerManager.ModifyServer` | src/managers/central_server.cpp:128-139 | replaces and saves; out of range nothing happens |
| `CentralServers.CentralServerManager.Save` | src/managers/central_server.cpp:199-216 | the store holds the encoded list and the index |
| `CentralServers.CentralServerManager.Reload` | src/managers/central_server.cpp:164-196 | the main server, then what the store decodes to |

## Left out

- User interface, game hooks, rendering, asset loading, settings: calls into foreign code with no hard property of their own.
- libsodium, Opus, FMOD, CRC-32, HMAC, the `simd_adler32` and `bytebuffer` crates, tokio: abstract functions or events; reads of `bytebuffer` are taken to be all or nothing.
- Bodies of particular packets besides the player state, room and level managers, the internals of client threads: their outcomes are events that may happen at any time.
- `InlineString`, `FastVec`, `FastString`: further types of the protocol built like those modelled.
- Panics of debug assertions (`write_length`, `Bits` positions): the release behaviour is modelled.
- C++ `bool` values read from bytes other than 0 and 1: read as true; C++ arrays of any length, though the source instantiates a few.
- Races between single atomic stores: each handler, each pass of a thread, each locked section and each slice of a sleep is one step.
- The receiving side of UDP, pings, keepalives and the listener pool: they do not take part in the properties proved.
- Recovery while Authenticating has no timeout in the source, so the termination result is about failing connects.
- Floating-point rounding: reals in the interpolation, bit patterns in the codec.
- VoiceCapture.FramesConserved: the capacity changes between recordings only; `PassFailsExactly` and `RoomExactly` say what a change during a recording does.
- SessionTokens: the clock panics on times past 2^63 seconds are an outcome of their own; changing the secret key and the period are plain assignments and not modelled.
- CentralServers: Base64 of the saved list is taken to be faithful; clearing tokens and reconnecting on a switch is not modelled.
- Block list persistence and the interpolation log: their writers and readers use different count widths, so there is no round trip to prove.
- `SmallVector`, `PlayerStore`, central-server HTTP, the database and web hooks: no property beyond plumbing.
