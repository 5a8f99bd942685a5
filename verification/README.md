# Verified model of the Reticulum native stack

This project models, in Dafny, the parts of the stack whose behaviour is hardest to see by reading one
function: link framing and queues, the ratchet history, the parsers and printers, the UTF-8 editor, and the
bounded tables that must agree with a simple log or filter. `dafny verify dfyconfig.toml` checks all of it.

Each component comes in the same two layers. A value-level specification says what the component means: a state
machine, an encoder and its reader, a zipper, a log, a filter. Where the program updates structures in place, a class
or a method with arrays and loops does so too, and is proved to do exactly what the specification says. The theorems
are about the specification: about every run, every input, every reachable state.

Files, by component:

- Radio: `RadioFraming` (frames and reassembly as a machine), `RadioReassembler` (the structure that is updated in
  place), `RadioProperties` (guard and conservation over runs), `RadioChannel` (end to end, over a lossy channel).
- Serial framing: `Framing` (encoders, decoder, the cut-then-unescape specification), `FramingProofs`,
  `SerialCodecs` (the streaming decoders and encoders on buffers).
- KISS endpoint: `KissLine` (rings, the line, transmission and what was read, as values), `KissTrace` (the protocol as a
  machine over one log, and what its runs satisfy), `KissEndpoint` (the endpoint), `KissSafety` (what holds in every
  state it can reach).
- Ratchets: `RatchetFile`, `Identity`, `RatchetStore`.
- Text: `Utf8`, `TextWrap`, `CursorCell`, `Zipper`, `EditorBytes`, `Editor`.
- Settings: `Crc32`, `Settings`, `SettingsProofs`.
- Automatic interface: `Ipv6Text`, `AutoDedupe`, `AutoTable`, `AutoInterface`.
- Configuration: `ConfigText`, `Config`, `ConfigLines`, `ConfigKeys`, `ConfigRoundTrip`, `ConfigStability`,
  `ConfigFile`, `ConfigReader`, `ConfigWriter`, `ConfigEmitter`.
- Terminal client state: `LogRing`, `Conversations`, `ConversationCache`.

The outside world enters as values. Clocks, devices, callbacks, the file system and random keys answer through
parameters or through functions from a question's number to its answer, and nothing is assumed of the answers. Time
is a 64-bit millisecond count in the radio code and a real number in the KISS and automatic interfaces. Cryptographic
primitives are function values; the theorems that need it assume that key agreement agrees, that token keys separate
private keys with different public halves, and that tokens are authentic. `Identity.AssumptionsCanBeMet` shows that
these assumptions can hold together. A character's cell width is an arbitrary function.

Four promises hold only under a condition, and the model states it exactly:

- A KISS frame whose header octet is the frame delimiter, a data frame on port 12, is not read back
  (`FramingProofs.KissHeaderExact`).
- A reuse guard no longer than the channel delay lets one radio transmission through twice
  (`RadioChannel.ShortGuardRepeats`), and a split sequence reused too soon lets halves of two packets be joined
  (`RadioChannel.CloseReuseMixes`).
- Settings with an unused stamp cost of 255 are valid and are saved, but do not load
  (`SettingsProofs.SavedLoads`, `SettingsProofs.UnusedStampCostLost`).
- A configuration whose enabled listener has no address, or whose serial interface has no device, is accepted but
  what is written for it is not (`ConfigWriter.PrintParseStable`, `ConfigWriter.DevicelessLost`).

## Model

| member | source | states |
|---|---|---|
| RadioChannel.SplitPacketsAreSent | src/interfaces/radio_framing.c:148-249 | over a channel that loses, duplicates, reorders and delays frames by at most a bound, with a sender that spaces the uses of a split sequence so that no second fragment can arrive while the first one of another packet is held, every split packet handed over is, octet for octet, the sent packet whose second fragment completed it |
| RadioChannel.HandedOverAtMostOnce | src/interfaces/radio_framing.c:148-249 | on the same channel, with a reuse guard longer than the delay bound, no transmission is handed over twice |
| RadioChannel.ShortGuardRepeats | src/interfaces/radio_framing.c:20-38 | the guard bound is exact: for every guard no longer than the delay there is a channel on which one transmission is handed over twice |
| RadioChannel.CloseReuseMixes | src/interfaces/radio_framing.c:222-249 | the spacing is exact: for any two uses of a split sequence that are closer there is a channel on which the first half of one packet is handed over with the second half of the other |
| RadioChannel.RoundTrip | src/interfaces/radio_framing.c:40-79 | the frames of any encodable packet, arriving in order and in time on a sequence that is not blocked, hand the packet over |
| RadioChannel.FrameShape | src/interfaces/radio_framing.c:40-79 | both frames of a split packet carry the split flag and the sequence; the first is full, the second is not; together they carry the packet |
| RadioChannel.JoinIsSent | src/interfaces/radio_framing.c:222-249 | one step: a completed packet is the packet its second fragment was cut from |
| RadioChannel.AlwaysTracked | src/interfaces/radio_framing.c:148-249 | in every reachable state the held fragment is the first half of a packet sent recently enough |
| RadioProperties.CompletionsSpaced | src/interfaces/radio_framing.c:20-38 | over every run with a non-decreasing clock, two completions that use one sequence are at least the guard interval apart |
| RadioProperties.BlockedThroughGuard | src/interfaces/radio_framing.c:20-38 | a completed sequence stays blocked, with its own deadline, until the guard is over |
| RadioProperties.LiveBlockKept | src/interfaces/radio_framing.c:27-38 | no call changes or forgets a block that is live, and none accepts or completes that sequence |
| RadioProperties.JoinBlocks | src/interfaces/radio_framing.c:20-25 | a completion blocks its sequence until the saturated deadline |
| RadioProperties.FragmentsConserved | src/interfaces/radio_framing.c:108-249 | over every run, accepted first fragments are hand-overs, timeouts, discards, collisions, overflows and at most one that is still held |
| RadioProperties.StepConserves | src/interfaces/radio_framing.c:108-249 | the same balance for one call, whatever it is fed |
| RadioFraming.StepValid | src/interfaces/radio_framing.c:108-249 | every call keeps the invariant (a held sequence is never blocked) and the configuration |
| RadioReassembler.Reassembler.Init | src/interfaces/radio_framing.c:81-96 | initialisation succeeds exactly on a usable buffer, timeout and guard |
| RadioReassembler.Reassembler.Reset | src/interfaces/radio_framing.c:98-106 | a reset forgets the held fragment and every block, and keeps the counters |
| RadioReassembler.Reassembler.CheckExpiry | src/interfaces/radio_framing.c:108-123 | expiry drops, counts and blocks a fragment that has timed out, and nothing else |
| RadioReassembler.Reassembler.FinishPending | src/interfaces/radio_framing.c:13-25 | the held fragment goes and its sequence is blocked |
| RadioReassembler.Reassembler.SequenceBlocked | src/interfaces/radio_framing.c:27-38 | whether a sequence is blocked now; a block that is over is taken away |
| RadioReassembler.Reassembler.StoreFirst | src/interfaces/radio_framing.c:125-138 | a first fragment is held, or refused when it does not fit |
| RadioReassembler.Reassembler.DiscardPending | src/interfaces/radio_framing.c:140-146 | a held fragment is discarded, counted and its sequence blocked |
| RadioReassembler.Reassembler.FeedFrame | src/interfaces/radio_framing.c:148-249 | one frame does to the buffer, flags and counters exactly what the value machine does, and hands over exactly its packet |
| RadioReassembler.Reassembler.FeedUnsplit | src/interfaces/radio_framing.c:184-197 | an unsplit frame: discard what is held, then hand over or refuse for size |
| RadioReassembler.Reassembler.FeedFirstFragment | src/interfaces/radio_framing.c:199-220 | a first fragment against what is held and what is blocked |
| RadioReassembler.Reassembler.FeedSecondFragment | src/interfaces/radio_framing.c:222-249 | a second fragment completes its packet or is counted as what is wrong with it |
| FramingProofs.DecoderRefinesCut | src/interfaces/framing.c:48-237 | for every octet stream the streaming decoders hand over exactly the frames of the closed segments that unescape cleanly and fit, in order, and their counters count exactly the others |
| FramingProofs.CountedOnce | src/interfaces/framing.c:48-237 | each closed segment is handed over, counted malformed, counted oversized or empty, and exactly one of these |
| FramingProofs.StreamCountedOnce | src/interfaces/framing.c:48-237 | hand-overs and counters add up to the closed non-empty segments |
| Framing.CutIsExact | src/interfaces/framing.c:48-237 | the specification's cut at flags loses nothing and leaves no flag in a piece |
| FramingProofs.ChunkedRoundTrip | src/interfaces/framing.c:110-295 | encodings of any list of frames, cut into any chunks and fed to a decoder in any state, deliver at most one leftover frame and then exactly the list |
| FramingProofs.StreamRoundTrip | src/interfaces/framing.c:110-295 | the same for one stream, with the decoder left between frames |
| FramingProofs.FrameRoundTrip | src/interfaces/framing.c:110-295 | the same for one frame |
| FramingProofs.ChunkingInvisible | src/interfaces/framing.c:67-108 | how a stream is cut into chunks changes nothing |
| Framing.AfterAppend | src/interfaces/framing.c:67-108 | feeding two chunks is feeding their concatenation |
| FramingProofs.StuffReads | src/interfaces/framing.c:5-27 | stuffed data contains no flag and unescapes to itself |
| FramingProofs.KissHeaderExact | src/interfaces/framing.c:264-295 | a KISS frame comes back unchanged if and only if its header octet is not the flag, that is, unless it is a data frame on port 12 |
| FramingProofs.FlagHeaderLost | src/interfaces/framing.c:264-295 | what becomes of a frame whose header is the flag |
| SerialCodecs.HdlcDecoder.FeedChunk | src/interfaces/framing.c:67-108 | the HDLC loop, octet by octet in its buffer, is the decoder; a refusal by the callback ends the call at that frame |
| SerialCodecs.HdlcDecoder.CloseFrame | src/interfaces/framing.c:48-65 | a flag: hand over, count, or start afresh |
| SerialCodecs.HdlcDecoder.TakeOctet | src/interfaces/framing.c:88-105 | any other octet: escape, append or mark the frame bad |
| SerialCodecs.KissDecoder.FeedChunk | src/interfaces/framing.c:183-237 | the KISS loop is the decoder, with port and command |
| SerialCodecs.KissDecoder.CloseFrame | src/interfaces/framing.c:162-181 | a flag ends a KISS frame |
| SerialCodecs.KissDecoder.TakeOctet | src/interfaces/framing.c:201-234 | any other octet of a KISS frame |
| SerialCodecs.KissDecoder.Reset | src/interfaces/framing.c:152-160 | a reset forgets the frame and keeps the counters |
| SerialCodecs.EncodeHdlc | src/interfaces/framing.c:110-140 | the HDLC encoder succeeds exactly when the exact stuffed length fits, and then writes the encoding |
| SerialCodecs.EncodeKiss | src/interfaces/framing.c:264-295 | the KISS encoder refuses a bad port or command, and otherwise succeeds exactly when the exact stuffed length fits |
| SerialCodecs.AppendStuffed | src/interfaces/framing.c:5-27 | one octet is appended, escaped when it must be, or nothing is |
| KissSafety.TransmitSafety | src/interfaces/kiss.c:145-401 | over every run, with partial writes and reconnections: the octets written on a connection are complete frames and a prefix of one; accepted packets are those sent and those queued; data frames follow acceptance order; the commands are the first of the configuration |
| KissSafety.RepeatSafety | src/interfaces/kiss.c:145-401 | over every run, frames are begun in acceptance order, and the frame of one packet is begun a second time only if the connection went down in between; the data frames on a connection are the packets begun since it last went down |
| KissSafety.RunIsLegal | src/interfaces/kiss.c:145-429 | over every run, what happens is a legal run of the protocol machine (what may happen when, what it does), and rings, counters, claims and the flow switch are what replaying it gives |
| KissSafety.FlowSafety | src/interfaces/kiss.c:362-429 | with flow control, of two data frames that follow each other on one connection the first ended in between, and behind its end a READY was decoded or a clock reading came at least five seconds after the one taken at the end; only before the endpoint was up may its coming up stand for these, once on a connection; readings are used in the order they were asked for |
| KissSafety.ReceiveSafety | src/interfaces/kiss.c:300-360 | over every run, a data frame is lost if and only if eight packets are waiting where it arrives; each callback call offers the oldest kept packet no earlier call accepted; the ring holds the kept packets not accepted yet, and the drop counter counts the lost frames and the refused sends |
| KissSafety.InputSafety | src/interfaces/kiss.c:300-343 | over every run, the decoded frames are those carried by the octets the device gave, each connection cut at its own flags and unescaped on its own |
| KissSafety.PeerReadsLine | src/interfaces/kiss.c:224-401 | a KISS decoder at the other end reads back exactly the commands and packets completed on the connection, after at most one leftover frame of its own |
| KissLine.FramesFollowAcceptance | src/interfaces/kiss.c:276-401 | accepted packets are counted once, as sent or queued; the data frames of a connection are consecutive accepted packets, and only complete ones have left the ring |
| KissTrace.FlowControlled | src/interfaces/kiss.c:362-429 | the flow rule, for every legal run |
| KissTrace.LockedUntilReleased | src/interfaces/kiss.c:365-429 | after an end the next frame is locked out until a READY, the timeout or the end of the configuration |
| KissTrace.BegunAgain | src/interfaces/kiss.c:145-401 | for every legal run, frames are begun in acceptance order and one is begun again only after a loss of the connection |
| KissTrace.BegunExact | src/interfaces/kiss.c:362-401 | the frames begun since the last loss are those of the packets that left since, and of the claimed one |
| KissTrace.UpOnce | src/interfaces/kiss.c:242-274 | the endpoint comes up at most once on a connection |
| KissTrace.QuestionsInOrder | src/interfaces/kiss.c:323-429 | clock readings, reads and callback answers are used once each, in the order they were asked for |
| KissTrace.RingIsKept | src/interfaces/kiss.c:300-360 | for every legal run, the ring is what was kept and not accepted; kept and lost frames are all data frames; drops are losses and refusals |
| KissTrace.OfferedInOrder | src/interfaces/kiss.c:345-360 | for every legal run, each call offers the oldest kept packet that no earlier call accepted |
| KissTrace.ArrivalKept | src/interfaces/kiss.c:312-320 | for every legal run, a data frame is lost if and only if eight packets wait where it arrives |
| KissLine.FrameFits | src/interfaces/kiss.c:20-20 | whatever is put on the line fits the output buffer |
| KissEndpoint.Endpoint.Create | src/interfaces/kiss.c:82-208 | creation refuses unusable options and tries the device at once; a failure to open is not an error, and sets when to try again |
| KissEndpoint.Endpoint.OpenSerial | src/interfaces/kiss.c:164-181 | opening starts configuration, or changes nothing |
| KissEndpoint.Endpoint.MarkDown | src/interfaces/kiss.c:145-162 | a lost connection forgets its output, its configuration and what its decoder held, and keeps the rings; the loss is on record |
| KissEndpoint.Endpoint.QueueCommand | src/interfaces/kiss.c:216-222 | the next configuration command goes on an empty line |
| KissEndpoint.Endpoint.FlushOutput | src/interfaces/kiss.c:224-240 | which octets go out, in how many writes, with which status, for every sequence of answers of the device; the frame is complete exactly when all of it is out |
| KissEndpoint.Endpoint.ConfigureDevice | src/interfaces/kiss.c:242-274 | resumes the configuration where it stopped; up exactly once all five commands are out |
| KissEndpoint.Endpoint.Send | src/interfaces/kiss.c:276-294 | the status of every call; acceptance at the end of the queue or a counted refusal, and nothing else of the past changes |
| KissEndpoint.Endpoint.ReceiveFrame | src/interfaces/kiss.c:300-321 | READY releases flow control, data is queued or dropped and counted, the rest is ignored, and the frame is recorded |
| KissEndpoint.Endpoint.PollRead | src/interfaces/kiss.c:323-343 | what was read goes through the codec; the run is extended by exactly those frames, in wire order, and the read; a READY among them, and nothing else, releases the flow |
| KissEndpoint.Endpoint.OfferOldest | src/interfaces/kiss.c:350-357 | the oldest waiting packet is offered and leaves the ring exactly when the callback accepts it |
| KissEndpoint.Endpoint.DispatchReceived | src/interfaces/kiss.c:345-360 | waiting packets are offered oldest first until one is refused or the limit is reached |
| KissLine.FramesBegun | src/interfaces/kiss.c:362-401 | the data frames on the line are the packets that left on this connection and the claimed one |
| KissLine.HeardOctet | src/interfaces/kiss.c:323-330 | one octet more on a connection extends its decoded frames by what a fresh decoder fed the whole connection would add |
| KissEndpoint.Endpoint.ClaimPacket | src/interfaces/kiss.c:379-385 | the oldest queued packet goes on the line and stays in the ring |
| KissEndpoint.Endpoint.RetirePacket | src/interfaces/kiss.c:365-378 | a packet whose frame is out leaves the ring, its end is recorded and, under flow control, the next one is locked out at a clock reading |
| KissEndpoint.Endpoint.PollWrite | src/interfaces/kiss.c:362-401 | at most one packet leaves per round, and one does whenever the line is clear and the packet may go; exactly the start and the end that happened are recorded, and an end under flow control locks the flow |
| KissEndpoint.Endpoint.Reconnect | src/interfaces/kiss.c:410-419 | a closed device is reopened exactly when its delay is over |
| KissEndpoint.Endpoint.ReleaseFlow | src/interfaces/kiss.c:427-429 | the flow timeout |
| KissEndpoint.Endpoint.Advance | src/interfaces/kiss.c:403-429 | reconnection, configuration and the flow timeout at the head of a poll; before the reconnection time nothing happens; nothing written is given up unless the connection went down |
| KissEndpoint.Endpoint.Poll | src/interfaces/kiss.c:403-444 | one poll keeps the whole-run invariant whatever the device and the callback answer; what happens goes through its stages in order (coming up, timeout, offering, reading, offering again, one write, loss); what is on the wire is only given up if the connection went down; any failure takes it down |
| RatchetStore.Store.Current | src/identity/ratchet_store.c:295-353 | the current ratchet heads the history (persisted rotations, newest first, then the loaded keys); it rotates exactly when that is due, generated and persisted; otherwise list, time and file are what they were; the status of every failure |
| RatchetStore.Store.Rotate | src/identity/ratchet_store.c:306-345 | a rotation that cannot be persisted is undone exactly; one that can is the new front of the history |
| RatchetStore.PushedIsRotation | src/identity/ratchet_store.c:317-325 | shifting the key slots is taking the first `retained` keys of the longer history |
| RatchetStore.PopUndoesPush | src/identity/ratchet_store.c:328-337 | shifting back restores every slot in use |
| RatchetStore.Store.Persist | src/identity/ratchet_store.c:81-126 | the file is replaced by one that loads as the present list, or left alone, with the status for either |
| RatchetStore.Store.PackRatchets | src/identity/ratchet_store.c:59-79 | the packed array of the present list |
| RatchetStore.Store.Open | src/identity/ratchet_store.c:253-284 | opening loads the file, creates a missing one, or fails; the status for bad arguments, an unreadable file, a refused one and one that cannot be created |
| RatchetStore.Store.CopyPrivate | src/identity/ratchet_store.c:355-366 | copies the first `retained` keys of the history, or reports that they do not fit |
| RatchetStore.LoadInto | src/identity/ratchet_store.c:197-251 | loading into the key slots accepts, and refuses, exactly what the file specification does |
| RatchetStore.ReadTwoFields | src/identity/ratchet_store.c:211-228 | the two named fields, in either order |
| RatchetStore.UnpackInto | src/identity/ratchet_store.c:233-250 | keys beyond the retained ones are checked and dropped |
| RatchetFile.FileRoundTrip | src/identity/ratchet_store.c:81-251 | what was written for a list loads as that list, cut to what the reader retains |
| RatchetFile.LoadedIsSigned | src/identity/ratchet_store.c:197-251 | no file is accepted unless the identity's signature covers its ratchets |
| RatchetFile.PackReads | src/identity/ratchet_store.c:59-79 | a packed list unpacks to itself and fits its buffer |
| RatchetFile.BinReads | src/identity/ratchet_store.c:43-57 | a binary value of any length the writer uses reads back, whatever follows |
| RatchetStore.CurrentSurvives | src/identity/ratchet_store.c:317-325 | what was current stays in the list, at a known place, until `retained` further rotations |
| RatchetStore.CurrentDecrypts | src/identity/identity.c:141-179 | under agreement and authenticity of the primitives, what was encrypted to a ratchet that was current decrypts with the store's list, ratchets enforced, and reports that ratchet, while fewer than `retained` rotations were persisted since |
| Identity.RatchetDecrypts | src/identity/identity.c:141-179 | a ciphertext to any key of the list decrypts with the list, enforced or not, and names the key it was made to |
| Identity.ForgottenRatchetRefused | src/identity/identity.c:141-179 | with ratchets enforced, a ciphertext to a key none of whose copies is left is refused |
| Identity.OpenWithExact | src/identity/identity.c:123-139 | under any private key a token opens to its plaintext or not at all, and only under a key with the public half it was made to |
| Identity.DecryptWithRatchets | src/identity/identity.c:141-179 | the loop tries the keys in order, then the identity key unless ratchets are enforced |
| Identity.EncryptBoundExact | src/identity/identity.c:60-66 | the bound is the exact ciphertext size, and zero exactly when that size cannot be addressed |
| Identity.AssumptionsCanBeMet | src/identity/identity.c:68-94 | the assumptions made of the primitives can hold together, with encryption succeeding |
| Utf8.DecodeEncode | apps/tui_text.c:100-107 | every list of scalar values is valid when encoded, and decodes to itself |
| Utf8.EncodeDecode | apps/tui_text.c:100-107 | valid octets are the encoding of what they decode to: no overlong form, surrogate or value out of range passes |
| Utf8.FirstOfEncoding | apps/tui_text.c:77-98 | an encoded value is read back, whatever follows it |
| Utf8.FirstIsEncoding | apps/tui_text.c:77-98 | the reader accepts nothing but encodings |
| Utf8.SplitUnique | apps/tui_text.c:77-98 | no sequence straddles a boundary between two encoded texts |
| Utf8.SequenceLength | apps/tui_text.c:77-98 | the length of the sequence at the front, or zero |
| Utf8.CheckValid | apps/tui_text.c:100-107 | validity by stepping over sequences |
| TextWrap.WrapNext | apps/tui_text.c:133-155 | the next row: as many glyphs as fit, cut back to the last space when the line goes on; at least one octet is consumed |
| TextWrap.WrapAll | apps/tui_text.c:133-155 | repeated wrapping ends; the rows follow one another to the end, and with their newlines they are the text |
| TextWrap.RowFits | apps/tui_text.c:133-155 | a row fits its columns unless it is one glyph wider than they are |
| TextWrap.RowIsExact | apps/tui_text.c:133-155 | a row holds no newline, and with the newline that ended it it is exactly the octets up to the next row |
| TextWrap.RowKeepsBoundaries | apps/tui_text.c:133-155 | in valid text rows end on code-point boundaries |
| CursorCell.RowUnique | apps/tui_text.c:133-155 | what a row must be determines it |
| CursorCell.WrappedUnique | apps/tui_text.c:133-155 | a text is wrapped in one way |
| CursorCell.CellUnique | apps/tui_editor.c:181-203 | a cursor has one cell |
| Editor.Editor.Insert | apps/tui_editor.c:91-102 | valid UTF-8 with room for it is inserted at the cursor of the scalar-value zipper, anything else changes nothing |
| Editor.Editor.InsertByte | apps/tui_editor.c:104-126 | terminal octets are staged until a sequence is complete, as in the zipper's typing machine |
| Zipper.TypingScalar | apps/tui_editor.c:104-126 | typing the octets of any printable scalar value, from any state with room, inserts that value and leaves nothing staged |
| Editor.Editor.Apply | apps/tui_editor.c:128-179 | every editing command acts on whole scalar values as the two-list editor does, and drops what was staged |
| Editor.Editor.EraseWord | apps/tui_editor.c:169-176 | the word before the cursor goes, with the spaces behind it |
| EditorBytes.WordStartOctets | apps/tui_editor.c:169-176 | looking for the word in octets finds the scalar-value boundary |
| EditorBytes.LastSequence | apps/tui_editor.c:35-42 | going back over continuation octets stops at the start of the last scalar value |
| Editor.Editor.SequenceStart | apps/tui_editor.c:35-42 | the start of the sequence before an offset |
| Editor.Editor.Erase | apps/tui_editor.c:44-48 | the octets between two positions go and the cursor stays at the first |
| Editor.Editor.Clear | apps/tui_editor.c:56-62 | clearing leaves an empty text and nothing staged |
| Editor.FindCell | apps/tui_editor.c:181-203 | the row and column of a place in wrapped text, by rows and then by glyphs |
| Editor.Editor.Position | apps/tui_editor.c:181-203 | the cursor's cell, always inside the pane |
| Editor.ColumnInRow | apps/tui_editor.c:215-222 | the furthest glyph boundary of a row within some cells |
| Editor.Editor.MoveVertical | apps/tui_editor.c:205-233 | only the cursor moves: to the same column of the neighbouring row or as near before it as a glyph ends, back by one value if that is shown a row later, to the end if there is no next row; what was staged goes exactly when there is such a row |
| Editor.Editor.MoveIntoRow | apps/tui_editor.c:215-229 | the cursor in a row: the furthest glyph boundary within the column, or one value before it |
| Editor.RowsTo | apps/tui_editor.c:211-214 | the rows of a text up to a given one, or all of them |
| SettingsProofs.SavedLoads | apps/tui_settings.c:245-465 | valid settings that are saved load as themselves if the stored stamp cost is at most 254, and fail to load otherwise |
| SettingsProofs.UnusedStampCostLost | apps/tui_settings.c:126-156 | settings that are valid, are saved and cannot be loaded: an unused stamp cost of 255 |
| SettingsProofs.ResaveKeeps | apps/tui_settings.c:209-465 | for every file that loads, of either version, the settings fit the body, and saving and loading them again changes nothing |
| SettingsProofs.UnknownRecordsRetained | apps/tui_settings.c:336-342 | the records of unknown kind of a file stand unchanged and in order in the file it is saved as |
| SettingsProofs.BurstRefused | apps/tui_settings.c:50-57 | an accepted file of either version with up to four consecutive octets behind its header changed is refused |
| Crc32.BurstDetected | apps/tui_settings.c:50-57 | messages that differ only within four consecutive octets have different checksums |
| Crc32.UpdateInjective | apps/tui_settings.c:50-57 | different registers stay different whatever follows |
| Crc32.ShiftInjective | apps/tui_settings.c:54-54 | a shift of the register can be undone |
| Crc32.UpdateIsOneMix | apps/tui_settings.c:50-57 | up to four octets enter the register as one word |
| Crc32.UpdateInPlace | apps/tui_settings.c:50-57 | the loop over octets and bits computes the register |
| Crc32.ReadSpell | apps/tui_settings.c:38-48 | a stored word reads back |
| Settings.BodyFits | apps/tui_settings.c:419-448 | the records of valid settings and their unknown records always fit 4096 octets |
| Settings.Save | apps/tui_settings.c:398-453 | valid settings are saved, whatever they are, as the file image; others are refused |
| Settings.AppendRecord | apps/tui_settings.c:387-396 | one record is appended in place, or the buffer is left alone |
| Settings.AppendRecords | apps/tui_settings.c:419-443 | the records are written in order, exactly when all of them fit |
| Settings.TakeRecords | apps/tui_settings.c:264-345 | one pass over the body; known records at most once and within their limits, unknown ones copied as they stand |
| Settings.Open | apps/tui_settings.c:349-375 | a missing file gives the defaults; a path that is too long and a file that cannot be opened, is refused or does not close leave the settings alone |
| Settings.ReadVersion1 | apps/tui_settings.c:209-235 | the fixed version 1 layout, migrated |
| Settings.ReadVersion2 | apps/tui_settings.c:245-347 | header, length, checksum, records, validity |
| Settings.Check | apps/tui_settings.c:126-156 | every check a settings value must pass |
| Settings.CheckText | apps/tui_settings.c:78-89 | length, UTF-8 and control characters |
| Settings.CheckHex | apps/tui_settings.c:91-100 | exactly so many hexadecimal digits, or none |
| Settings.CheckUnknown | apps/tui_settings.c:112-124 | whole records, none of a known kind |
| SettingsProofs.LoadedIsSound | apps/tui_settings.c:209-347 | what loads is valid and has a stamp cost of at most 254 |
| SettingsProofs.TakeKeepsUnknown | apps/tui_settings.c:264-345 | what the reader keeps of unknown records is what stood in the body |
| Ipv6Text.Format | src/interfaces/auto.c:68-110 | every address is printed within 39 characters, as its one canonical text |
| Ipv6Text.Print | src/interfaces/auto.c:89-109 | printing into a buffer succeeds exactly when the canonical text and its terminator fit |
| Ipv6Text.LongestRun | src/interfaces/auto.c:76-88 | the first of the longest runs of at least two zero groups, if there is one |
| Ipv6Text.RoundTrip | src/interfaces/auto.c:68-110 | the text parses back, by an independent reader, to the same address |
| Ipv6Text.Injective | src/interfaces/auto.c:68-110 | different addresses have different texts |
| Ipv6Text.TextFits | src/interfaces/auto.c:68-110 | no text is longer than 39 characters |
| Ipv6Text.TextCanonical | src/interfaces/auto.c:68-110 | the text is lowercase and compressed exactly when two neighbouring groups are zero |
| Ipv6Text.HexCanonical | src/interfaces/auto.c:101-104 | a group has no leading zero, is lowercase and reads back |
| Ipv6Text.CompressedUnique | src/interfaces/auto.c:76-88 | the compressed run is determined by the address |
| AutoDedupe.Ring.Suppress | src/interfaces/auto.c:286-302 | a packet is suppressed exactly when it cannot be hashed or an equal digest lies among the last 48 records within the time limit; otherwise it is recorded |
| AutoDedupe.SlotsAreWindow | src/interfaces/auto.c:291-295 | scanning the slots is looking through the last 48 records |
| AutoDedupe.Recorded | src/interfaces/auto.c:296-300 | overwriting the next slot keeps the slots the last 48 records |
| AutoInterface.RepeatsAreFar | src/interfaces/auto.c:286-323 | over every run, a packet handed over again within the time limit had at least 48 others handed over in between |
| AutoInterface.Endpoint.Create | src/interfaces/auto.c:147-183 | every refused option; the multicast address from the digest of the group; when the endpoint comes online |
| AutoInterface.Endpoint.AddLocal | src/interfaces/auto.c:189-209 | a carrier is added unless it is not link-local, clashes, or the list is full |
| AutoInterface.MakeToken | src/interfaces/auto.c:112-123 | the token of an address is the digest of the group's octets followed by those of the canonical address text |
| AutoInterface.FindToken | src/interfaces/auto.c:221-232 | the token of a carrier, with the two ways there may be none |
| AutoInterface.Endpoint.FindPeer | src/interfaces/auto.c:234-241 | the one slot that holds an address, if any |
| AutoInterface.Endpoint.IngestDiscovery | src/interfaces/auto.c:243-284 | every status; an echo, news of a known peer, or a new peer while there is room, and nothing else changes the tables |
| AutoInterface.Endpoint.IngestData | src/interfaces/auto.c:304-323 | every status; a known peer is heard, a packet not suppressed is recorded and handed over once |
| AutoInterface.Endpoint.Send | src/interfaces/auto.c:325-350 | one copy to every peer, in slot order, the successes counted and the first error kept |
| AutoInterface.Endpoint.Poll | src/interfaces/auto.c:352-401 | exactly the peers silent beyond the timeout are dropped; the due announcements go out in order; the first error is returned |
| AutoInterface.Endpoint.Remember | src/interfaces/auto.c:263-283 | a known peer is refreshed, a new one takes the first free slot, and a full table overflows |
| AutoInterface.Endpoint.PollPeers | src/interfaces/auto.c:356-380 | the pass over the peers |
| AutoInterface.Endpoint.PollLocals | src/interfaces/auto.c:381-400 | the pass over the carriers |
| AutoInterface.Endpoint.PollPeer | src/interfaces/auto.c:357-379 | one slot: dropped, announced to, or left alone, with the count kept right |
| AutoTable.TablePut | src/interfaces/auto.c:263-282 | writing a free slot, or the slot of the same address, is one assignment of the address map and keeps addresses distinct |
| AutoTable.TableCount | src/interfaces/auto.c:408-410 | with distinct addresses the number of used slots is the number of peers |
| AutoTable.TablePolled | src/interfaces/auto.c:356-380 | a poll over the slots filters the address map |
| ConfigWriter.PrintParseStable | src/config/config.c:470-743 | for every text the reader accepts, what is written for it can be read if and only if every enabled TCP server and UDP interface names the address it listens on and every KISS and RNode interface its device; and then writing again gives the identical text |
| ConfigWriter.DevicelessLost | src/config/config.c:703-708 | a text that is accepted and whose written form is refused: a disabled KISS interface without a device |
| ConfigWriter.WrittenParses | src/config/config.c:621-743 | a sound configuration's text is read back as the configuration without what its interfaces' kinds do not use, or refused for an empty value |
| ConfigReader.ParsedIsSound | src/config/config.c:470-600 | whatever the reader accepts is within the bounds of every field, clean of comment signs and newlines, typed and validated |
| ConfigReader.AssignKeeps | src/config/config.c:237-394 | no option takes a field out of its bounds |
| ConfigStability.PairsRead | src/config/config.c:237-394 | the options written for an accepted interface are read back in order, up to one whose text is missing |
| ConfigStability.NormalPairs | src/config/config.c:641-739 | what reading forgets is never written |
| ConfigFile.StepItems | src/config/config.c:641-740 | written interfaces are read back one after another, up to the first that misses a text |
| ConfigFile.StepHeader | src/config/config.c:631-640 | the written instance section is read back |
| ConfigLines.StepPair | src/config/config.c:561-593 | a written option line reaches its key with its value; an empty value is an error |
| ConfigLines.StepName | src/config/config.c:507-544 | a written interface name is read back whole, whatever brackets it contains |
| ConfigLines.JoinedParses | src/config/config.c:485-506 | reading joined lines is taking them one by one |
| ConfigKeys.KeyRead | src/config/config.c:237-388 | the reader takes the writer's spelling of every interface option for that option |
| ConfigKeys.OptionRead | src/config/config.c:183-231 | the same for the instance options |
| ConfigKeys.KindReads | src/config/config.c:171-181 | every interface type name is read back |
| ConfigText.PercentReads | src/config/config.c:116-144 | every airtime limit of up to one hundred per cent prints to the hundredth and reads back |
| ConfigText.ReadPercent | src/config/config.c:116-144 | the digit loops compute the hundredths, and refuse what the specification refuses |
| ConfigText.DecUnsigned | src/config/config.c:92-104 | a printed number is read back exactly when it is within the limit |
| ConfigText.IntSigned | src/config/config.c:106-114 | the same for signed numbers |
| ConfigText.TrimSpan | src/config/config.c:34-45 | trimming from both ends |
| ConfigText.TrimPadded | src/config/config.c:34-45 | trimming takes away exactly the white space around a trimmed text |
| ConfigText.EqualIgnoreCase | src/config/config.c:56-65 | equality, letter case aside |
| ConfigWriter.ReadConfig | src/config/config.c:470-600 | the line loop and the final checks compute the reader |
| ConfigWriter.ReadLine | src/config/config.c:496-594 | one line: carriage return, length, comment, heading or option |
| ConfigWriter.ReadHeading | src/config/config.c:507-560 | section and interface headings and their errors |
| ConfigWriter.CheckAll | src/config/config.c:595-599 | the first complaint about any interface |
| ConfigEmitter.WriteConfig | src/config/config.c:621-743 | writing succeeds exactly when every interface has a type and the text fits with its terminator; the status of every failure; the length only on success |
| ConfigEmitter.Emitter.Emit | src/config/config.c:608-619 | a text is appended exactly when it fits with its terminator |
| ConfigEmitter.ResultExact | src/config/config.c:608-743 | piecewise writing succeeds exactly when the whole text fits |
| ConfigEmitter.PiecesText | src/config/config.c:631-740 | the pieces make up the written text |
| LogRing.Log.SetStatus | apps/tui_state.c:283-316 | a new status is one more line with the next number, the same status none; the ring stays the last 128 lines since the log was cleared; the selection follows the newest line if it stood there and never stays on a line that is gone |
| LogRing.Log.Append | apps/tui_state.c:300-310 | the next free slot, or the oldest line's |
| LogRing.Log.Entry | apps/tui_state.c:322-326 | the line shown for an index, if there is one |
| LogRing.Log.Position | apps/tui_state.c:328-336 | the position of the selected line |
| LogRing.Log.Move | apps/tui_state.c:338-352 | the selection moves by some lines, no further than the oldest and the newest |
| LogRing.Log.Clear | apps/tui_state.c:354-359 | clearing forgets the lines and keeps the numbering |
| LogRing.LiveIsShown | apps/tui_state.c:283-316 | the selection is the number of a line that is shown whenever there is one |
| ConversationCache.Cache.Ensure | apps/tui_state.c:153-164 | a contact is added once per peer while there is room |
| ConversationCache.Cache.Ingest | apps/tui_state.c:257-281 | a message is taken in with its conversation, or refused for want of room, and the tallies stay those of the cached messages |
| ConversationCache.Cache.Remove | apps/tui_state.c:635-656 | a message goes, the later ones move up and its conversation is counted again |
| ConversationCache.Cache.Tally | apps/tui_state.c:621-633 | count and latest time of a peer's cached messages |
| ConversationCache.Cache.FindMessage | apps/tui_state.c:608-619 | the first message with an identifier |
| ConversationCache.Cache.ApplyEvent | apps/tui_state.c:658-680 | a refused incoming message goes if it was unverified, any other takes the state of the event |
| ConversationCache.Cache.ApplySignature | apps/tui_state.c:745-762 | a message that fails its signature goes, any other is marked |
| ConversationCache.Cache.ApplyDelivery | apps/tui_state.c:764-773 | a delivery report marks its message and makes the filters run again |
| ConversationCache.Cache.Refresh | apps/tui_state.c:392-405 | after a refresh the cached lists are the filters of the present tables |
| ConversationCache.Cache.IsShown | apps/tui_state.c:363-381 | whether a contact is listed: tab, and search by address, note or message |
| ConversationCache.Cache.IsInThread | apps/tui_state.c:383-390 | whether a message belongs to the selected conversation and the search |
| ConversationCache.Cache.SelectOffset | apps/tui_state.c:1715-1733 | the next or previous visible conversation, around the ends, is selected and read |
| ConversationCache.Cache.SetTab | apps/tui_state.c:1735-1748 | another tab selects its first visible conversation |
| ConversationCache.Cache.OpenConversation | apps/tui_state.c:1779-1799 | a conversation is opened under the tab of its contact's trust, or refused when the table is full |
| ConversationCache.Cache.SetTrust | apps/tui_state.c:1990-1997 | the contact moves to the tab of its new trust and that tab is shown |
| ConversationCache.Cache.TogglePin | apps/tui_state.c:1999-2005 | a pin changes neither tallies nor filters |
| ConversationCache.Cache.ToggleBlock | apps/tui_state.c:2007-2013 | a block changes neither tallies nor filters |
| ConversationCache.Cache.ToggleNote | apps/tui_state.c:2015-2023 | a note is set or taken away and the filters run again |
| ConversationCache.Cache.LoadPeer | apps/tui_state.c:556-576 | what is stored of a peer is taken over, its note up to 47 octets or the first zero octet, without touching its tally |
| ConversationCache.Cache.EditSearch | apps/tui.c:180-183 | every edit of the search makes the filters run again |
| ConversationCache.Cache.SubmitSearch | apps/tui.c:159-163 | entering the search selects the first conversation it finds |
| Conversations.SearchText | apps/tui_text.c:36-50 | whether a text contains another, letter case aside |
| Conversations.VisibleExact | apps/tui_state.c:395-396 | the contact filter lists exactly the indices that qualify, ascending |
| Conversations.ThreadExact | apps/tui_state.c:398-400 | the thread filter lists exactly the indices that qualify, ascending |
| Conversations.WithContactConsistent | apps/tui_state.c:153-164 | a new contact keeps peers distinct and tallies right |
| Conversations.WithMessageConsistent | apps/tui_state.c:271-279 | taking a message in keeps every tally right |
| Conversations.WithoutConsistent | apps/tui_state.c:635-656 | dropping a message keeps every tally right, though only one is taken again |
| Conversations.WithoutOther | apps/tui_state.c:621-633 | a message of another peer counts for nothing, wherever it is taken out |
| Conversations.VisibleIgnores | apps/tui_state.c:363-381 | the contact filter looks only at peer, trust and note of a contact |

## Left out

- Transport, links, channels, resources, the router and the message store: their implementations are not part of this model.
- Packet, announce and destination layouts, and the IFAC and RNode commands: short fixed layouts that would only add easy members.
- Terminal drawing, QR codes, the browser, hosting, RRC and the command-line programs: plumbing around the state that is modelled.
- In the terminal client state: drafts, attachments, message metadata, the scroll position, peer persistence and start-up; the texts of status lines are arbitrary strings.
- Serial line settings, opening and polling of descriptors: a device is what it answers to open, read and write.
- File-system failure modes beyond "replaced as a whole or left alone", directory synchronisation and temporary names.
- Checks for null arguments, allocation failure and the zeroing of secrets.
- Wrap-around of 64-bit counters, sequence numbers and byte counts; byte and connection statistics and the last error of endpoints.
- Rounding of double-precision clock readings: they are real numbers.
- Configuration diagnostics: the status is modelled, the message and line number are not; nor is the flag that sharing was configured explicitly.
- The lexical order in which the configuration reader compares option names: spellings are grouped by length.
- The adapter that passes on only KISS data frames, the horizontal view of the editor, interval arithmetic and announce encoding of the settings: each is one expression over what is modelled.
- Identity generation, import and export, and the digests: they are values or functions of the caller.
