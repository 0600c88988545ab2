# Verified model of a WebRTC stack

A Dafny model of the protocol logic of a WebRTC stack written in Rust, with proofs of what that logic
promises. `dafny verify dfyconfig.toml` checks the whole project. Code that updates state in place is a class
or a method with loops, proved against a specification function; the properties are lemmas about those
functions, over every input, every run or every reachable state.

## What is modelled and proved

**Secure media (`Bits`, `ReplayWindow`, `Rtp`, `RtpLayout`, `Srtp`, `SrtpStream`, `SendStream`).** RTP packets,
their protection under SRTP, and a stream from sender to receiver over a network that drops, repeats, reorders and
mixes packets. A protected packet is the header as it was, the rest XORed byte by byte with the key stream of the IV
for its SSRC and 48-bit index, and ten bytes of the HMAC over all of it and the rollover counter; opening answers a
tag mismatch exactly if those ten bytes differ. As long as every copy arrives in reach of the last accepted one (the
first in rollover period 0), the receiver computes the sender's true index, accepts every unseen packet less than 64
behind, answers no two copies of a packet with success and returns the sender's bytes; what a media sender put in
comes out there, payload, marker and timestamp. A packet it refuses changes nothing. On the sending side that is
false: `protect` stores counter and number before it reads the header, so a failed call leaves the context as it was
exactly if the packet is shorter than 12 bytes or its number is the last one stored. The rollover guess is exact if
and only if the new index is less than 2^15 away, or exactly 2^15 away in the neighbouring period, modulo 2^48. The
shifted bitmap agrees with the full history of recorded indices. Any number of send streams interleave on one shared
context: each uses the indices it would use alone, the n-th packet that the socket takes of a stream is the n-th
packet of that protected stream, and a completed send shares its IV with no later call of any stream, provided that
a stream added under a used SSRC starts beyond what was completed there. That proviso is necessary: from any start
that is not beyond, going on sending meets a used IV. AES in counter mode is XOR with a keystream function and HMAC
is a function; both are parameters.

**Session handshake and close (`AppProtocol`, `Session`, `Handshake`, `SessionWire`).** Two sessions with distinct
non-zero tokens over a network that loses, repeats and reorders. In every run the side with the higher token never
sends SYN-ACK; if the lower side is established at any point, the higher side was established strictly before, and
from then on both hold each other's token; a close is marked done only by a side that holds its peer's token, after
one of the two asked for it. Each reply and each flag is traced to the events that cause it, both ways: a side is
established exactly if it handled a SYN-ACK or ACK for its token with nothing ending that after it, and so on for
every message and for each flag of the close; for any two tokens there are runs in which both sides get established
and then both close. The runs over datagrams, with the text format and the first-byte routing, are step for step
runs over messages, and every run over messages is one of them. The higher side can be established while its peer
token is still 0: a retransmitted ACK alone establishes it; a lemma gives the run, and another says exactly when the
token is known. A close that is done does not keep a side from being established again: it is, exactly if an ACK or
SYN-ACK for its token was handled since, with no close request, FIN or FIN-ACK2 after it.

**RTCP (`RtcpTypes`, `RtcpFrame`, `RtcpReport`, `RtcpSdes`, `RtcpPackets`, `Rtcp`, `RtcpLayout`).** The seven packet
kinds, the common header and compound datagrams. Every packet that encodes has the header, the type numbers and the
fields where the standard puts them. A packet that encodes comes back alone and unchanged if and only if it is well
formed; lists of well-formed packets come back as they were; concatenated datagrams decode to concatenated lists.

**Receiving (`JitterBuffer`, `RxTracker`, `TxTracker`, `FarReport`).** The jitter buffer emits any sortable order of
arrivals in sequence across wrap-around; over any run, under any timeouts, every accepted packet is emitted once,
still waiting, or overwritten by a later arrival with its number. Each emitted packet was the awaited one, or the
lowest waiting one after it had waited too long; afterwards nothing that is due is left. Extended sequence numbers
are exact in a run if and only if every step is one that the update follows; a step back of more than 2^15 inside
one cycle is taken for a wrap, so staying inside the cycle is not enough. The loss count is the number of missing
positions less repeats and packets from before the first one; the far end reads it unchanged exactly if it lies in
0..2^23-1, and one repeat without any loss reads as a loss of 2^23-1. The jitter of a stream never falls; it is that
of RFC 3550 throughout a run exactly if no packet's variation is below the jitter held before it. What the far end
reads after any run is the largest position, the jitter, and when the last sender report was sent and how long it
was held; from this the sender computes the round trip, by clocks that need not agree, exactly if the block answers its last
report and was not built within the tick in which that arrived.

**Signaling (`SignalTypes`, `Presence`, `Rooms`, `SessionCodes`, `ServerEngine`, `ServerCode`, `ServerRuns`,
`Router`).** Who is logged in under which name, who is busy and who is in a session follows, after every run, from
what clients asked and were told; signals reach exactly the client that has the name. Whoever logs in under a name
that somebody answered before starts out busy. Of those who ask to join a session exactly the first get in, up to
its capacity. The server's maps stay consistent over every run; the two presence maps are inverses exactly if no
logged-in client logs in again, and a name left behind by such a login is locked for good. Code allocation ends and
is fresh. In every run of the router, what a client is handed plus what still waits for it is what the server
addressed to it since it was last unregistered, in order; unregistering a client puts exactly one notice for each
shared session into each other queue. A client that has gone and not written again has mail addressed to it exactly
if a signal was sent to a name that it left behind by logging in twice; where nobody does that, it gets none.

**Session descriptions (`SdpValues`, `Sdp`, `SdpSession`, `SdpGrammar`).** A text parses exactly if each line can be
read, every `r=` and `z=` line has a `t=` line before it, and there are `v=`, `o=` and `s=` lines; it does not
matter whether lines end in LF or CRLF. For every text that parses, writing the result and parsing it again gives
the same description if and only if there was a `t=` line; otherwise the difference is one unbounded time.

**Files and time (`SctpProtocol`, `FilePipeline`, `FileRelay`, `Utc`).** A file is cut into chunks by reads of any
size, passed from thread to thread through channels that other transfers use too, numbered and carried to the writer
at the other end. At every point of every run the writer has the beginning of the file or has finished with exactly
the file; once nothing is under way it has finished. UNIX seconds become the right Gregorian date, in strictly
increasing order, for exactly the inputs whose year fits 32 bits.

`Bytes`, `Utf8` and `Text` hold what these share: byte order, UTF-8 with strict and lossy decoding, words, trimming
and numbers as the Rust standard library treats them.

Threads are atomic steps, clocks and timeouts are oracles, and random draws, socket results and the answers of the
authentication backend are parameters. Fixed-width integers are integers with a bound, and wrap-around is written
out where the code wraps.

Where documentation and code differ, the code is followed. `rx_tracker.rs` says that it is called for unique
packets; `rtp_recv_stream.rs:93-95` calls it before duplicates are found, so repeats lower the loss count.
`rx_tracker.rs:86` masks the loss count to 24 bits before `report_block.rs` clamps it, so a negative count turns
into the largest positive one. `rx_tracker.rs:41-43` subtracts with saturation, so the jitter does not decay as
appendix A.8 of RFC 3550 has it. `presence.rs` speaks of a previous client of a user; `server_engine.rs:271` refuses
such a login before it gets there. `server_engine.rs:67` promises codes of six digits; the fallback walk prints a
counter that can have more.

## Model

| member | source | states |
|---|---|---|
| Replay.ReplayWindow.IsReplay | src/srtp/replay_window.rs:18-28 | the bit test answers what the window value says |
| Replay.ReplayWindow.Record | src/srtp/replay_window.rs:30-46 | the window after shifting and setting a bit |
| Replay.RecordTracks | src/srtp/replay_window.rs:30-46 | recording an index less than 64 behind keeps bitmap and set of seen indices in agreement; an older one changes nothing |
| Replay.IsReplayIff | src/srtp/replay_window.rs:18-28 | refused exactly if seen or 64 or more behind the maximum |
| Replay.WindowRefinesHistory | src/srtp/replay_window.rs:18-46 | after any records, an index is refused if and only if it was recorded or lies 64 or more behind the maximum of the whole history |
| Rtp.EncodePacket | src/rtp/rtp_packet.rs:50-111 | the appending encoder produces the specified bytes or reports an extension that is too long |
| Rtp.DecodePacket | src/rtp/rtp_packet.rs:113-233 | the decoder's loops and checks compute the specified result, errors included |
| Rtp.DecodeUndoesEncode | src/rtp/rtp_packet.rs:50-233 | every packet in normal form comes back from its bytes |
| Rtp.RoundTripIffNormal | src/rtp/rtp_packet.rs:50-233 | a packet survives encoding and decoding if and only if it is in normal form |
| Rtp.EncodeUndoesDecode | src/rtp/rtp_packet.rs:50-233 | re-encoding any accepted buffer reproduces it, with the padding filler zeroed |
| RtpLayout.EncodedLaid | src/rtp/rtp_packet.rs:50-111 | every packet that encodes has its fields where section 5.1 of RFC 3550 puts them: flags, marker, type, number, timestamp, sources, extension, payload and padding |
| RtpLayout.TakenForMedia | src/core/session.rs:302-345 | an encoded packet of version 2 is routed to media |
| Srtp.GetRtpHeaderLen | src/srtp/utils.rs:99-121 | the header length with CSRCs and extension, within the packet, or an error |
| Srtp.DecodableIff | src/srtp/utils.rs:99-121 | a buffer decodes as RTP exactly if this length is found, the version is 2 and the padding fits |
| Srtp.HeaderLenIsPayloadStart | src/srtp/utils.rs:99-121 | encryption starts where the RTP decoder starts the payload |
| Srtp.ComputeIv | src/srtp/utils.rs:83-97 | the XOR loops build salt XOR (SSRC, index) in place |
| Srtp.IvInjective | src/srtp/utils.rs:83-97 | under one salt, different SSRC and index pairs below 2^48 never share an IV, and the block counter bytes are zero |
| Srtp.IvByByte | src/srtp/utils.rs:83-97 | the sixteen bytes: salt, SSRC from the fifth byte, index from the ninth, two zeros |
| Srtp.ConstantTimeEq | src/srtp/utils.rs:24-33 | the accumulating comparison is equality |
| Srtp.SrtpContext.GetOrCreateRoc | src/srtp/srtp_context.rs:173-193 | the sender's rollover counter and the state it leaves |
| Srtp.SrtpContext.ProtectPacket | src/srtp/srtp_context.rs:48-94 | the protected packet, the error if any, and the whole new state |
| Srtp.SrtpContext.OpenPacket | src/srtp/srtp_context.rs:128-156 | tag comparison and decryption under a guessed rollover counter |
| Srtp.SrtpContext.UnprotectPacket | src/srtp/srtp_context.rs:96-171 | the recovered packet, the error if any, and the whole new state |
| Srtp.SealedBytes | src/srtp/srtp_context.rs:48-94 | a protected packet is the header unchanged, every other byte XORed with the key stream of the IV for SSRC and index, and the first ten bytes of the HMAC over these and the four counter bytes |
| Srtp.ProtectAnswers | src/srtp/srtp_context.rs:48-94 | for every packet: too short, bad header with the packet untouched, or protected so under the next counter |
| Srtp.OpenAnswers | src/srtp/srtp_context.rs:128-156 | for every packet of 22 bytes or more: a tag mismatch exactly if the last ten bytes are not the tag; else a bad header, or the bytes XORed back and the tag gone |
| Srtp.UnprotectAnswers | src/srtp/srtp_context.rs:96-171 | for every packet: too short, a replay, or opened so under the guessed counter |
| Srtp.OpenSeal | src/srtp/srtp_context.rs:48-156 | opening what was sealed under the same counter restores the packet |
| Srtp.UnprotectFrame | src/srtp/srtp_context.rs:96-171 | a refused packet changes no SSRC's counter, last number or window; an accepted one only its own |
| Srtp.ProtectFrame | src/srtp/srtp_context.rs:48-91 | protecting changes no other SSRC's state |
| Srtp.FailedProtectKeepsIff | src/srtp/srtp_context.rs:48-57 | a failed protect leaves the context as it was if and only if the packet is shorter than 12 bytes or its number is the last one stored |
| Srtp.FailedProtectStores | src/srtp/srtp_context.rs:48-57 | a 12-byte packet that announces an extension fails and its number is stored |
| Srtp.EstimateExactIff | src/srtp/srtp_context.rs:195-210 | the guessed counter is the true one if and only if the index is less than 2^15 away, or exactly 2^15 away in the neighbouring period, modulo 2^48 |
| SrtpStream.GenuineStep | src/srtp/srtp_context.rs:96-210 | one delivery of a stream packet is accepted exactly when it should be, with true index and bytes, and keeps the receiver in step |
| SrtpStream.ReceiverTracks | src/srtp/srtp_context.rs:96-210 | after any admissible traffic the receiver's counter, last number and window stand for exactly the accepted indices |
| SrtpStream.EndToEnd | src/srtp/srtp_context.rs:48-210 | after any admissible traffic, a packet in reach is accepted if and only if it is new and less than 64 behind; the receiver then holds its true index and returns the sender's bytes |
| SrtpStream.AcceptedOnce | src/srtp/srtp_context.rs:96-171 | of the receiver's answers to two copies of a packet, whatever arrives before and between, at most one is success |
| SendStream.RtpSendStream.ProtectPayload | src/rtp_session/rtp_send_stream.rs:131-155 | building and protecting never fails; the packet handed to the socket and the new SRTP state |
| SendStream.RtpSendStream.SendRtpPayload | src/rtp_session/rtp_send_stream.rs:131-170 | numbers and counters advance exactly if the socket takes the packet; the shared context in any case |
| SendStream.RtpSession.AddSendStream | src/rtp_session/rtp_session_c.rs:129-147 | a new stream on the shared context, replacing one with its SSRC |
| SendStream.RtpSession.SendRtpChunksForFrame | src/rtp_session/rtp_session_c.rs:402-421 | sends in order up to the first refusal; the other streams keep their numbers |
| SendStream.OthersInvisible | src/rtp_session/rtp_session_c.rs:129-147 | among any calls of other streams a call uses the index it would use if its stream were alone |
| SendStream.CallIndex | src/rtp_session/rtp_send_stream.rs:131-170 | whatever sends failed before and whatever other streams did, a call protects its packet under start number plus the sends its stream completed |
| SendStream.AfterCounts | src/rtp_session/rtp_send_stream.rs:158-168 | packet and octet counts of every stream are its totals since it was added, modulo 2^32 |
| SendStream.IvReuseIff | src/rtp_session/rtp_send_stream.rs:131-170 | two calls of a session use one IV if and only if they are on one stream and no send on it completed from the first to the second, the stream not being replaced between |
| SendStream.NoIvReuse | src/srtp/srtp_context.rs:48-91 | in any interleaving where streams start ahead, a completed send shares its IV with no later call under the key |
| SendStream.BehindReuses | src/rtp_session/rtp_session_c.rs:129-147 | a stream added under a used SSRC that does not start ahead meets the IV of a completed send if it goes on |
| SendStream.AheadIff | src/srtp/srtp_context.rs:173-193 | after a completed send a start is not ahead exactly if it is the last number or at most 1000 below it |
| SendStream.TransmittedIsStream | src/rtp_session/rtp_send_stream.rs:131-170 | among any other streams, the n-th packet the socket takes of a stream is the n-th packet of the protected stream |
| SendStream.BuiltCarries | src/rtp_session/rtp_send_stream.rs:131-155 | the packet built for a frame has its payload, marker and timestamp, the stream's SSRC and type, and the current number |
| SendStream.WireCarries | src/rtp_session/rtp_send_stream.rs:131-155 | what goes to the socket opens, under the counter it was protected with, to such a packet |
| SendStream.PayloadArrives | src/rtp_session/rtp_send_stream.rs:131-170 | among any streams and over any admissible network, the receiver's answer to the n-th packet sent is success, and decodes to the payload, marker and timestamp of the n-th frame that the socket took |
| AppProtocol.ParseUndoesEncode | src/core/protocol.rs:24-100 | the parser reads back every message the encoders produce, through UTF-8, trimming, words and hexadecimal |
| AppProtocol.EncodedSpelled | src/core/protocol.rs:24-60 | every message goes out as its ASCII text: the word, and each token in 16 hexadecimal digits |
| AppProtocol.HexDigit | src/core/protocol.rs:24-60 | which lower-case digit stands at which place of a printed token |
| AppProtocol.Delivered | src/core/session.rs:302-345 | a session message is never routed to DTLS or media, and arrives as itself |
| Session.Session.Start | src/core/session.rs:189-213 | the state of a started session |
| Session.Session.HandleAppMsg | src/core/session.rs:532-691 | the new flags and tokens and the replies, for each of the six messages |
| Session.Session.DriverIteration | src/core/session.rs:373-399 | one round of the handshake driver: stop, wait, or retransmit |
| Session.Session.RequestCloseCall | src/core/session.rs:405-419 | a close request ends the established state and starts a driver |
| Session.Session.CloserIteration | src/core/session.rs:428-452 | one round of a close driver: stop everything, wait, or retransmit |
| Handshake.SideStep | src/core/session.rs:355-452 | every reply and every driver round keeps what a side's messages and flags are evidence of |
| Handshake.Reachable | src/core/session.rs:355-691 | that invariant holds after every run |
| Handshake.HigherNeverSendsSynAck | src/core/session.rs:532-570 | in no run does the higher side send SYN-ACK |
| Handshake.Agreement | src/core/session.rs:355-641 | if the lower side is established at any point, the higher side was established strictly before, and both hold each other's token from then on |
| Handshake.CloseCausality | src/core/session.rs:405-691 | a side that marked its close done holds the peer's token and one of the two asked; a side that believes its peer asked is right |
| Handshake.KnowsPeerIff | src/core/session.rs:532-660 | in every run, each side knows its peer exactly if some handled message carried the token |
| Handshake.SentIff | src/core/session.rs:355-691 | in every run, a side has sent a message exactly if some event made it do so |
| Handshake.AckIff | src/core/session.rs:581-617 | the higher side has sent ACK exactly if it handled its peer's SYN-ACK while not established |
| Handshake.SynAckIff | src/core/session.rs:532-580 | the lower side has sent SYN-ACK exactly if it handled its peer's SYN while not established |
| Handshake.FinRepliesIff | src/core/session.rs:428-691 | a side has sent FIN-ACK exactly if it handled its peer's FIN or a close round came with the peer known; FIN-ACK2 exactly if it handled a FIN-ACK for its token |
| Handshake.CloseFlagsIff | src/core/session.rs:405-691 | the close is done exactly if a FIN-ACK2 for the side's token was handled; the two close flags exactly if the peer's FIN was handled, or the side was asked to close |
| Handshake.EstablishedIff | src/core/session.rs:405-691 | a side is established exactly if it handled a SYN-ACK or ACK for its token, with no close request, FIN or FIN-ACK2 after it |
| Handshake.BothEstablished | src/core/session.rs:355-641 | for any two tokens, a run in which both sides get established with each other's token |
| Handshake.BothClosed | src/core/session.rs:405-691 | for any two tokens, a run in which both then mark the close done |
| Handshake.EstablishedWithoutToken | src/core/session.rs:619-641 | a run in which the higher side is established with peer token 0 |
| Handshake.ReopenedIff | src/core/session.rs:581-691 | a side whose close is done is established exactly if it has since handled an ACK or SYN-ACK for its token, with nothing ending that state after it |
| Handshake.EstablishedAfterClose | src/core/session.rs:618-691 | a run in which a side is established although its close is done |
| SessionWire.RunRefines | src/core/session.rs:260-345 | a run over datagrams, read as messages, is step for step a run over messages |
| SessionWire.RunRealised | src/core/session.rs:260-345 | every run over messages is what some run over datagrams reads as |
| SessionWire.WireReaches | src/core/session.rs:260-691 | so over datagrams, too, both sides can get established and both can close |
| SessionWire.WireAgreement | src/core/session.rs:260-641 | handshake agreement for the sessions as they run over datagrams |
| SessionWire.WireCloseCausality | src/core/session.rs:260-691 | close causality for the sessions as they run over datagrams |
| RtcpReport.BlockDecoded | src/rtcp/report_block.rs:17-65 | a report block comes back with its loss count clamped to 24 bits and sign-extended |
| RtcpReport.AppendBlocks | src/rtcp/sender_report.rs:29-31 | the report loop appends every block |
| RtcpReport.ReadBlocks | src/rtcp/sender_report.rs:56-67 | the reading loop yields the announced number of blocks or Truncated |
| RtcpReport.ReadSr | src/rtcp/sender_report.rs:48-77 | the sender report decoder computes the specified result |
| RtcpReport.ReadRr | src/rtcp/receiver_report.rs:37-60 | the receiver report decoder computes the specified result |
| RtcpReport.SrDecoded | src/rtcp/sender_report.rs:19-77 | a sender report read back: loss counts clamped, extension with its padding |
| RtcpSdes.TypedIff | src/rtcp/sdes.rs:21-130 | items come back from their types and bytes exactly if no unknown item carries a known type or END |
| RtcpSdes.AppendChunk | src/rtcp/sdes.rs:57-76 | the chunk encoder: items, END, alignment, or an item that is too long |
| RtcpSdes.ReadChunk | src/rtcp/sdes.rs:78-129 | the item loop computes the specified items, end offset or error |
| RtcpSdes.ReadSdes | src/rtcp/sdes.rs:165-179 | the chunk loop computes the specified list or error |
| RtcpSdes.ItemsCutShort | src/rtcp/sdes.rs:88-100 | an END code among the items cuts the list short |
| RtcpSdes.ChunksDecoded | src/rtcp/sdes.rs:57-179 | typed chunks come back as they were |
| RtcpSdes.ChunksDecodedOnlyIf | src/rtcp/sdes.rs:57-179 | chunks that come back as they were are typed |
| RtcpPackets.ReasonDecoded | src/rtcp/bye.rs:25-34 | a reason of at most 255 bytes comes back, a longer one comes back empty |
| RtcpPackets.ByeDecoded | src/rtcp/bye.rs:15-79 | sources and reason read back |
| RtcpPackets.AppendBye | src/rtcp/bye.rs:22-34 | the encoder appends sources, reason and padding |
| RtcpPackets.ReadBye | src/rtcp/bye.rs:47-79 | the source loop and the reason computed as specified |
| RtcpPackets.AppDecoded | src/rtcp/app.rs:17-52 | name, SSRC and data read back, with padding |
| RtcpPackets.AppendNack | src/rtcp/generic_nack.rs:18-28 | the entry loop appends every pair |
| RtcpPackets.ReadNack | src/rtcp/generic_nack.rs:39-81 | the entry loop yields all pairs, or the error for a bad format or length |
| RtcpPackets.NackDecoded | src/rtcp/generic_nack.rs:18-81 | a generic NACK comes back as it was |
| RtcpPackets.PliDecoded | src/rtcp/picture_loss.rs:16-53 | a picture-loss indication comes back as it was |
| RtcpFrame.Finish | src/rtcp/sender_report.rs:34-45 | aligning and patching the length in place gives the framed packet |
| Rtcp.ReadFirst | src/rtcp/rtcp_c.rs:31-64 | one round of the decoding loop: version, length, padding, body |
| Rtcp.DecodeCompoundLoop | src/rtcp/rtcp_c.rs:24-72 | the loop over the packet readers computes the specified list or first error |
| Rtcp.EncodeCompoundLoop | src/rtcp/rtcp_c.rs:75-81 | the loop over the packet encoders concatenates or reports the first error |
| RtcpFrame.FrameDecoded | src/rtcp/common_header.rs:31-68 | a frame whose length fits decodes as the body it carries, whatever follows |
| RtcpFrame.OverlongNotOne | src/rtcp/common_header.rs:31-68 | a length that does not fit 16 bits never yields the single packet |
| RtcpFrame.CompoundConcat | src/rtcp/rtcp_c.rs:24-72 | if two datagrams decode, their concatenation decodes to the concatenated lists |
| Rtcp.EncodeSrInto | src/rtcp/sender_report.rs:19-46 | the framed sender report, or too many blocks |
| Rtcp.EncodeRrInto | src/rtcp/receiver_report.rs:16-35 | the framed receiver report |
| Rtcp.EncodeSdesInto | src/rtcp/sdes.rs:146-163 | the framed description, or an item that is too long |
| Rtcp.EncodeByeInto | src/rtcp/bye.rs:15-45 | the framed BYE, or too many sources |
| Rtcp.EncodeAppInto | src/rtcp/app.rs:17-33 | the framed APP packet |
| Rtcp.EncodeFeedbackInto | src/rtcp/generic_nack.rs:18-37 | the framed feedback packet |
| Rtcp.EncodeOneInto | src/rtcp/rtcp_c.rs:84-94 | the dispatch over the seven kinds |
| Rtcp.ReadBody | src/rtcp/rtcp_c.rs:53-62 | the dispatch over packet types |
| Rtcp.AllExact | src/rtcp/rtcp_c.rs:24-94 | a body decodes to its packet exactly if the packet is shaped, for all seven kinds |
| Rtcp.PacketRoundTripIff | src/rtcp/rtcp_c.rs:24-94 | a packet that encodes comes back alone and unchanged if and only if it is well formed |
| Rtcp.WellFormedRoundTrip | src/rtcp/rtcp_c.rs:24-94 | any non-empty list of well-formed packets comes back as it was |
| RtcpLayout.EncodedFramed | src/rtcp/common_header.rs:31-68 | every packet that encodes starts with version 2, no padding, its count, its type as a number and its length in words less one, then its body and zeros |
| RtcpLayout.WireLayout | src/rtcp/rtcp_c.rs:75-94 | and the body has every field where RFC 3550 and RFC 4585 put it, for all seven kinds |
| RtcpLayout.TakenForMedia | src/core/session.rs:302-345 | an encoded packet is routed to media |
| JitterBuffer.RtpRecvStream.ReceiveRtpPacket | src/rtp_session/rtp_recv_stream.rs:69-115 | SSRC check, statistics, duplicate handling, insertion and draining: the new state and what is emitted |
| JitterBuffer.RtpRecvStream.ProcessBuffer | src/rtp_session/rtp_recv_stream.rs:117-183 | the drain loop ends and computes the specified emission, buffer and next number |
| JitterBuffer.DrainConserves | src/rtp_session/rtp_recv_stream.rs:117-183 | under any timeouts, the awaited number is absent afterwards and each packet is emitted once or left |
| JitterBuffer.DrainExplained | src/rtp_session/rtp_recv_stream.rs:117-183 | under any timeouts, every packet emitted was the awaited one, or the lowest waiting one and overdue; the next awaited number follows the last one emitted |
| JitterBuffer.LateComesOut | src/rtp_session/rtp_recv_stream.rs:117-183 | if the lowest waiting packet is overdue, draining emits it |
| JitterBuffer.NothingDue | src/rtp_session/rtp_recv_stream.rs:117-183 | if the awaited number is absent and the lowest packet not overdue, draining changes nothing |
| JitterBuffer.RunSettles | src/rtp_session/rtp_recv_stream.rs:69-183 | at every arrival of every run that is taken in, what comes out is so explained, and afterwards nothing due is left |
| JitterBuffer.RunConserves | src/rtp_session/rtp_recv_stream.rs:69-183 | over any run every accepted packet is exactly one of emitted once, still buffered, overwritten once |
| JitterBuffer.RunReplaces | src/rtp_session/rtp_recv_stream.rs:97-106 | a packet was overwritten only by a later arrival with its sequence number |
| JitterBuffer.StatisticsOfAccepted | src/rtp_session/rtp_recv_stream.rs:90-107 | over any run the statistics are those of all accepted packets, overwritten ones included |
| JitterBuffer.DrainInOrder | src/rtp_session/rtp_recv_stream.rs:117-183 | without timeouts draining emits the waiting positions up to the first gap |
| JitterBuffer.SortsPrefix | src/rtp_session/rtp_recv_stream.rs:69-183 | any order in which no position comes 2^16 ahead of a missing one is emitted in sequence, across wrap-around, up to the first gap |
| JitterBuffer.Sorts | src/rtp_session/rtp_recv_stream.rs:69-183 | up to 65536 consecutive packets in any order that begins with the lowest are emitted exactly in sequence and none is left |
| RxTracker.SeqExt.Update | src/rtp_session/seq_ext.rs:8-15 | the new cycles and last number, and their bitwise or |
| RxTracker.WholeCycles | src/rtp_session/seq_ext.rs:8-15 | in every run the cycle count is a multiple of 2^16, and the bitwise or is the sum, below 2^32 |
| RxTracker.ExtendExactIff | src/rtp_session/seq_ext.rs:8-15 | one update is exact if and only if the step is followed |
| RxTracker.FollowedIff | src/rtp_session/seq_ext.rs:8-15 | for steps below 2^31, followed means short: within a cycle not back by more than 2^15, or into the next by less than 2^15 |
| RxTracker.RunExactIff | src/rtp_session/seq_ext.rs:8-15 | in a run all extended numbers are exact if and only if all steps are followed |
| RxTracker.RunByLengthIff | src/rtp_session/seq_ext.rs:8-15 | and, for steps below 2^31, if and only if all steps are short |
| RxTracker.BackTooFar | src/rtp_session/seq_ext.rs:8-15 | a step from 40000 back to 0 inside one cycle is taken for a wrap |
| RxTracker.RxTracker.OnRtpPacket | src/rtp_session/rx_tracker.rs:27-46 | base, highest, received, transit and jitter after a packet |
| RxTracker.RxTracker.OnSrReceived | src/rtp_session/rx_tracker.rs:49-52 | the compact times of a sender report and its arrival |
| RxTracker.RxTracker.BuildReportBlock | src/rtp_session/rx_tracker.rs:55-92 | the whole report block, and the new interval start |
| RxTracker.JitterStep | src/rtp_session/rx_tracker.rs:37-45 | a packet raises the jitter by a sixteenth of what its variation exceeds it by |
| RxTracker.JitterOnlyGrows | src/rtp_session/rx_tracker.rs:37-45 | over any run the jitter never falls and never exceeds the largest variation |
| RxTracker.JitterRightIff | src/rtp_session/rx_tracker.rs:37-45 | in any run every jitter is that of appendix A.8 of RFC 3550, rounded down, if and only if no packet's variation is below the jitter held before it |
| RxTracker.JitterNotBelowRfc | src/rtp_session/rx_tracker.rs:37-45 | in any run the jitter is at least that of the RFC |
| RxTracker.JitterDoesNotDecay | src/rtp_session/rx_tracker.rs:37-45 | a run that holds 10 where the RFC falls to 9 |
| RxTracker.ReportBelowExpectedIff | src/rtp_session/rx_tracker.rs:55-71 | a report loses less than it expected, or expected nothing, exactly if a packet or a report came before; its fraction is exact exactly if a packet did |
| RxTracker.Telescopes | src/rtp_session/rx_tracker.rs:55-71 | the interval deltas of all reports add up to the totals at the last one |
| RxTracker.LossCountsMissing | src/rtp_session/rx_tracker.rs:27-59 | the loss count is the number of missing positions less repeats and packets from before the first |
| RxTracker.LossOnWireIff | src/rtp_session/rx_tracker.rs:27-91 | after any run the far end reads the true count exactly if missing less surplus lies in 0..2^23-1; below that it reads 2^23-1 |
| RxTracker.RepeatReadsAsLoss | src/rtp_session/rx_tracker.rs:27-91 | a packet and its repeat, nothing lost: the far end reads a loss of 2^23-1 |
| TxTracker.TxTracker.MarkSrSent | src/rtp_session/tx_tracker.rs:26-28 | the compact time of the report sent |
| TxTracker.TxTracker.OnReportBlock | src/rtp_session/tx_tracker.rs:32-54 | what the far end said, and the round trip if the block answers the last report |
| FarReport.CompactIs | src/rtp_session/rx_tracker.rs:96-98 | the compact time is the middle 32 bits of the 64-bit time, also when seconds wrap |
| FarReport.FarReads | src/rtp_session/rx_tracker.rs:27-92 | after any run of packets, sender reports and blocks, the far end reads the SSRC, the largest position, the jitter of the packets, and of the last sender report when it was sent and how long it was held; zeros if there was none |
| FarReport.RoundTripIff | src/rtp_session/tx_tracker.rs:32-64 | a round trip is computed exactly if the last report heard is the last one sent, not at tick 0 and not answered within its tick; it is then the time from sending to arrival less the time held, by unrelated clocks, in milliseconds |
| FarReport.AnsweredAtOnce | src/rtp_session/tx_tracker.rs:40-44 | a report answered in the instant of its arrival gives no round trip |
| Presence.PresenceTable.Login | src/signaling/presence.rs:24-28 | both maps and the previous client |
| Presence.PresenceTable.Logout | src/signaling/presence.rs:30-39 | the client's user is removed from both maps and the busy set |
| Presence.LogInKeeps | src/signaling/presence.rs:24-28 | a login keeps agreement of the maps; they stay inverses exactly if the client was not logged in |
| Presence.LogOutKeeps | src/signaling/presence.rs:30-39 | a logout keeps agreement and neither makes nor cures stale names |
| Rooms.SessionTable.InsertRoom | src/signaling/sessions.rs:33-40 | both tables after an insertion |
| Rooms.SessionTable.JoinByCode | src/signaling/sessions.rs:63-85 | joining, NotFound or Full; the session behind a code always exists |
| Rooms.SessionTable.LeaveAll | src/signaling/sessions.rs:91-120 | the client is out of every session, empty ones are gone from both tables, and each session it was in is reported once with who remains |
| Rooms.InsertKeeps | src/signaling/sessions.rs:33-40 | a fresh session keeps the tables consistent and populated |
| Rooms.EnterKeeps | src/signaling/sessions.rs:63-85 | joining keeps them so, within capacity, and never panics |
| Rooms.EnterIff | src/signaling/sessions.rs:63-85 | not found exactly if the code is unknown, full exactly if there are as many members as seats; otherwise the session gains the client and nothing else changes |
| Rooms.LeaveKeeps | src/signaling/sessions.rs:91-120 | leaving keeps them so and leaves the client in no session |
| SessionCodes.CodeInjective | src/signaling/server_engine.rs:82-88 | different numbers print as different zero-padded codes |
| SessionCodes.SixDigitsIff | src/signaling/server_engine.rs:66-92 | a code has six digits exactly if its number is below a million |
| SessionCodes.AllocIs | src/signaling/server_engine.rs:66-92 | the code is that of the first free draw, or else of the first free number from the counter on |
| SessionCodes.WalkEnds | src/signaling/server_engine.rs:81-91 | the walk meets a free code within one try more than there are codes in use |
| SessionCodes.AllocSessionCode | src/signaling/server_engine.rs:66-92 | draws, then a walk that ends: the code and the new counter |
| SessionCodes.AllocFresh | src/signaling/server_engine.rs:66-92 | the code handed out is not in use |
| ServerEngine.CreateFresh | src/signaling/server_engine.rs:60-92 | id and code of a new session are those of no live one |
| ServerEngine.FewCodes | src/signaling/server_engine.rs:60-92 | there are fewer codes in use than numbers issued |
| ServerEngine.NextKeeps | src/signaling/server_engine.rs:97-231 | every event keeps the invariant, unless it runs the counter over |
| ServerEngine.RunKeeps | src/signaling/server_engine.rs:97-550 | in every run: presence maps agree, no two clients share a user, code and id tables describe the same sessions, none is empty or over capacity, every member is logged in, every id was issued |
| ServerEngine.InverseIff | src/signaling/server_engine.rs:235-302 | the presence maps are inverses after a run exactly if no logged-in client logged in again |
| ServerEngine.StaleForever | src/signaling/server_engine.rs:271-284 | a name left behind stays so and nobody can log in under it |
| ServerEngine.ReloginLeavesStale | src/signaling/server_engine.rs:235-302 | the run: any client logs in under two names and goes; the first name still resolves to it |
| ServerCode.Server.BroadcastPeerListUpdate | src/signaling/server_engine.rs:157-185 | exactly one update to every logged-in client, listing everyone else |
| ServerCode.Server.HandleLogin | src/signaling/server_engine.rs:235-302 | new state and, client by client, the replies for each outcome |
| ServerCode.Server.HandleListPeers | src/signaling/server_engine.rs:352-396 | the requester gets everyone else, or nothing if not logged in |
| ServerCode.Server.HandleCreateSession | src/signaling/server_engine.rs:398-452 | new session and reply, or NotLoggedIn |
| ServerCode.Server.HandleJoin | src/signaling/server_engine.rs:454-547 | new membership, JoinOk, PeerJoined to every other member, or the error |
| ServerCode.Server.ForwardSignaling | src/signaling/server_engine.rs:554-697 | the message goes to the named user under the sender's name; Answer and Bye change the status and broadcast |
| ServerCode.Server.Handle | src/signaling/server_engine.rs:97-156 | the dispatch: new state and replies for every message |
| ServerCode.Server.HandleDisconnect | src/signaling/server_engine.rs:188-231 | new state; every client's notices in the order of the report, then the update |
| ServerCode.OneNoticeEach | src/signaling/server_engine.rs:207-218 | a former co-member gets exactly one PeerLeft for each shared session |
| ServerCode.OneJoins | src/signaling/server_engine.rs:454-547 | a client that asks gets JoinOk and its seat exactly if one is left, else error 21; the members are told of it, and nobody else |
| ServerCode.SeatsFill | src/signaling/server_engine.rs:398-547 | from any state: of those who ask to join a new session the first get JoinOk, up to the capacity, and each later one error 21; in the end exactly they and the creator are members |
| ServerRuns.NameIs | src/signaling/server_engine.rs:235-302 | in every run a client is logged in exactly under the name it was last told, unless it has disconnected since |
| ServerRuns.HolderIs | src/signaling/presence.rs:24-45 | in every run a name resolves exactly to the client that was last told it has it, unless that has disconnected under it |
| ServerRuns.BusyIs | src/signaling/server_engine.rs:554-697 | in every run a user is busy exactly if the last answer or bye from or to it was an answer, and it has not disconnected since |
| ServerRuns.ListShown | src/signaling/server_engine.rs:352-396 | in every run a client is shown exactly the others that have a name, each with whether it is in a call |
| ServerRuns.SignalReaches | src/signaling/server_engine.rs:554-697 | in every run a signal reaches exactly the client that has the name it is addressed to, under its sender's name and otherwise unchanged |
| ServerRuns.LoginAnswered | src/signaling/server_engine.rs:235-302 | in every run a login gets error 3, 4 or 1, or LoginOk exactly if it is granted and nobody has the name |
| ServerRuns.BornBusy | src/signaling/server_engine.rs:554-697 | a run in which a user is busy from its first login on, because somebody answered its name before |
| ServerRuns.MembersAre | src/signaling/server_engine.rs:188-547 | in every run the members of a session are exactly the clients that were told they are in and have not disconnected since |
| Router.Router.HandleFromClient | src/signaling/router.rs:62-67 | the new server state, and every queue with what the server returned for it |
| Router.Router.UnregisterClient | src/signaling/router.rs:49-56 | the box dropped, the new server state, and every queue with its notices and the update |
| Router.Router.TakeOutgoingFor | src/signaling/router.rs:72-74 | the queue is handed out and gone |
| Router.Router.DrainAllOutgoing | src/signaling/router.rs:88-104 | every queue is handed out in order and all are gone |
| Router.MailConserved | src/signaling/router.rs:42-119 | in every run, what was handed out for a client, then what waits, is what the server's replies and parting notices addressed to it since it was last unregistered, in order |
| Router.UnregisterTells | src/signaling/router.rs:49-56 | at any point of any run, the client is then in no session, presence key or box; every other queue keeps what it held and gains exactly one PeerLeft per shared session |
| Router.ReplyToAbsentIff | src/signaling/server_engine.rs:97-697 | to a client that is not logged in and did not write, the server says something exactly if it passes on a signal to a name that resolves to it |
| Router.AbsentMailIff | src/signaling/router.rs:42-119 | in every run, a client that has not written since it was last unregistered is not logged in, and is addressed mail exactly if such a signal was handled since |
| Router.MailNeedsActivity | src/signaling/router.rs:42-119 | so where nobody logs in twice it is addressed nothing and nothing waits for it |
| Router.GoneGetsMail | src/signaling/server_engine.rs:554-697 | the run: a client logs in under two names and goes, anyone sends an offer to the first, and it waits for the client that has gone |
| Router.OnlyToOnline | src/signaling/server_engine.rs:97-697 | while no name is stale, the server writes only to the sender and to logged-in clients |
| SdpValues.OriginRead | src/sdp/origin.rs:160-207 | an origin reads back from its text |
| SdpValues.ConnectionRead | src/sdp/connection.rs:97-124 | connection data reads back from its text |
| SdpValues.BandwidthRead | src/sdp/bandwidth.rs:70-83 | a bandwidth reads back from its text |
| SdpValues.PortRead | src/sdp/port_spec.rs:55-74 | a port, with or without count, reads back from its text |
| SdpValues.TimeRead | src/sdp/time_desc.rs:101-128 | a time reads back from its text |
| SdpValues.AttributeRead | src/sdp/attribute.rs:64-84 | a trimmed attribute reads back from its text |
| SdpValues.ReadAttributeWf | src/sdp/attribute.rs:64-75 | what is read is trimmed, with no colon in its key |
| SdpValues.HeaderRead | src/sdp/media.rs:281-327 | the m= line reads back from its text |
| Sdp.ShowRead | src/sdp/sdpc.rs:148-250 | every line the parser can have read is written as one that it reads the same |
| Sdp.ReadLineWf | src/sdp/sdpc.rs:148-250 | what is read from a line is well formed |
| SdpSession.ParseText | src/sdp/sdpc.rs:131-269 | the line loop computes the specified description or first error |
| SdpSession.EncodeText | src/sdp/sdpc.rs:280-332 | the encoder appends the specified lines in order, each ended by CRLF |
| SdpSession.PushMedia | src/sdp/media.rs:309-335 | media sections are appended with their own lines |
| SdpSession.PushTimes | src/sdp/time_desc.rs:119-127 | time blocks are appended with repeats and zone |
| SdpSession.RunMedia | src/sdp/sdpc.rs:167-244 | inside a media section, i/c/b/a and unknown lines change its last entry and nothing else |
| SdpSession.RunTime | src/sdp/sdpc.rs:206-225 | a time block adds exactly itself, repeats and zone included |
| SdpSession.RunLines | src/sdp/sdpc.rs:131-332 | taking in the lines of a description gives its normal form |
| SdpSession.ParsedWf | src/sdp/sdpc.rs:131-269 | every description that parsing yields can be written and read back |
| SdpSession.Normalises | src/sdp/sdpc.rs:131-332 | for every text that parses, the second parse gives the same description if and only if some line reads as t=, else with one unbounded time; the normal form is then stable |
| SdpGrammar.LineEndsAlike | src/sdp/sdpc.rs:149-153 | every text parses to the same result with its lines ended by CRLF |
| SdpGrammar.RawIff | src/sdp/sdpc.rs:153-247 | a line is read exactly if it has no known letter before its equals sign or its value is readable, and becomes a line of that letter's kind |
| SdpGrammar.ParseIff | src/sdp/sdpc.rs:131-269 | a text parses exactly if all lines can be read, every r= and z= has a t= before it, and v=, o= and s= are there; otherwise the error names the first that is missing, if only that is wrong |
| SctpProtocol.SerializeMessage | src/sctp/protocol.rs:38-78 | the growing buffer holds the specified bytes |
| SctpProtocol.DeserializeMessage | src/sctp/protocol.rs:80-132 | the advancing cursor computes the specified message or error |
| SctpProtocol.RoundTripIff | src/sctp/protocol.rs:38-132 | a message survives if and only if the lengths it carries fit their fields |
| SctpProtocol.SerializedLaid | src/sctp/protocol.rs:38-78 | the type as a number, the transfer, and number, length and content at their offsets, for all six messages |
| FilePipeline.RunReader | src/file_handler/reader_worker.rs:48-122 | the command loop sends the specified chunks |
| FilePipeline.ReaderCuts | src/file_handler/reader_worker.rs:48-122 | chunks are the file so far in pieces of 1 to 16384 bytes, and one empty chunk ends it |
| FilePipeline.SctpSender.Process | src/sctp/sender.rs:77-228 | the stream map and what is sent, for each request |
| FilePipeline.ChunksNumbered | src/sctp/sender.rs:160-196 | on an open stream chunks are numbered 0, 1, 2, ... whatever other streams send |
| FilePipeline.StreamsAre | src/sctp/sender.rs:77-228 | after any requests a stream is open exactly if it was opened and not ended since, at the number of chunks asked for since then |
| FilePipeline.ReadAsCalled | src/sctp/sender.rs:77-228 | after any requests the far end reads exactly the messages they call for, in order, each as it was exactly if its lengths fit |
| FilePipeline.RunWriter | src/file_handler/writer_worker.rs:43-128 | the command loop ends with the file written, removed, or still open |
| FilePipeline.CommandKept | src/sctp/protocol.rs:38-132 | no message turns into a chunk of a stream on the way unless it was one |
| FileRelay.PassKeeps | src/file_handler/file_handler.rs:286-325 | threads that pass on what they receive keep everything in a chain of channels, in order |
| FileRelay.CommandsInOrder | src/sctp/sender.rs:160-226 | what the messages tell the writer is what the transfer asked to send, among any other requests and up to its end |
| FileRelay.AlwaysPrefix | src/core/engine.rs:491-517 | at every point of every run the writer has written the beginning of the file, or has finished with exactly the file |
| FileRelay.FileArrives | src/core/engine.rs:491-517 | in every run, once the file is read to its end and nothing of it is under way, the chunks were numbered from 0 on and the writer has finished with exactly the file |
| Utc.UnixToUtc | src/log/logger.rs:354-390 | a valid date and time that converts back to the input, or overflow |
| Utc.CivilCorrect | src/log/logger.rs:364-384 | the day number of the computed Gregorian date is the input, leap rules included |
| Utc.UtcRoundTrip | src/log/logger.rs:354-390 | the result is valid and converts back to the input |
| Utc.UtcStrictlyIncreasing | src/log/logger.rs:354-390 | later seconds give lexicographically later results |
| Utc.YearOverflowIff | src/log/logger.rs:354-390 | the conversion fails exactly from the first second of the year 2^31 on |
| Utc.UtcOnto | src/log/logger.rs:354-390 | every valid date up to that year is reached, from its own seconds |

## Left out

- Key derivation, AES and HMAC themselves: foreign code; they are parameters of the SRTP model.
- SRTCP and the unencrypted send path: they add no property beyond those of the SRTP path.
- DTLS, ICE, SCTP association handling and the sender's queue of pending messages: the libraries are not visible.
- That handshake and close always get there, and their timeouts: this depends on wall time, and drivers may stop at any round; runs that get there are given.
- Interleavings inside one handled message or one driver round: each is one atomic step.
- A session that is started twice, or asked to close before it is started: both sides begin started, with distinct non-zero tokens.
- Sorted output of the jitter buffer after a timeout: the skip goes to the numerically smallest key, so across a wrap the order is not that of sending.
- JitterBuffer.RtpRecvStream.ReceiveRtpPacket: emitted packets are kept whole instead of being copied field by field into an event; the arrival time in clock units is a parameter.
- TxTracker.TxTracker.OnReportBlock: does not keep the instant of the last report.
- ServerRuns.MembersAre: holds for runs in which the 64-bit counter does not run over, as ServerEngine.RunKeeps.
- RxTracker.RxTracker.BuildReportBlock: the time is a parameter; additions that a debug build would check wrap as in a release build.
- Rtcp.DecodeCompoundLoop: the second length test of the source, which can never succeed after the header was read, is not repeated.
- The order in which hash maps are walked: outputs are specified client by client, a list of peers is a set, and the order of leave notices is the order of the report.
- SendStream.NoIvReuse: holds while indices stay below 2^48; after that the rollover counter of an SSRC wraps.
- ServerEngine.RunKeeps: holds for runs in which the 64-bit counter does not run over; after that an id could be issued twice.
- Authentication backends and the framing of signaling messages: no strong property.
- Getters, setters and default constructors of the SDP records, and SDP offer and answer state: easy members only.
- FileRelay.FileArrives: the transfer is accepted, its writer is there before the first chunk, and nobody cancels it, restarts it or meets a time-out or an I/O error; the transport keeps order.
- Media devices, codecs, rendering, congestion control, logging and configuration: user interface, foreign libraries and input/output.
