# Verification models

Dafny models of the four parts of this repository that follow a protocol or a standard, with proofs of what they are for.
`dafny verify dfyconfig.toml` checks everything.

**CRC (`Crc*.dfy`, `Gf2.dfy`).** `crc_ccitt` is a table loop. `Gf2` is polynomial arithmetic over GF(2) on sequences of
bits, `CrcRegister` the 16-bit register fed one bit at a time, `CrcTable` and `CrcByte` the table and its byte step,
`CrcMessage` the loop. `CrcOrder` proves that x has order exactly 32767 modulo the generator x^16+x^12+x^5+1;
`CrcDetection` and `CrcFrame` derive which errors the check value detects, for messages of every length, and `CrcPreset`
what the preset is for. Generator,
preset and complement are those of the 16-bit FCS of section 2.2.7 of ITU-T X.25, with the bits taken most significant
first.

**MD5 (`Md5*.dfy`).** `Md5Rounds` and `Md5Digest` state sections 3.1 to 3.5 of RFC 1321 on a whole message. `Md5Context` is
the streaming class with its carry-over buffer and its two-word bit counter, `Md5Transform` the 64 unrolled
assignments, `Md5Bits` the auxiliary functions bit by bit, `Md5Bytes` the two byte conversions, `Md5File` the read loop. The digest of any sequence of updates is the
digest of the bytes they bring, for every total length. From two messages below 2^61 bytes with one digest,
`DigestCollision` finds the place in their padded forms where the block transform takes two different inputs to one
result.

**File transfer over UDP (`Udp*.dfy`, `TransferFiles.dfy`).** The receiver is a class over its global path buffers,
descriptor and a file system of names and files; the sender is one step for each return of `recvfrom`, and a method
that refines those steps. `UdpSession` joins the two by a network that loses, repeats and reorders datagrams;
`UdpSafety` has what "ok" means, `UdpLate` what happens to a file after its publication, `UdpRepeats` sessions with
repeated announcements, `UdpOrder` channels that keep order, `UdpLossless` sessions without loss, `UdpPaths` the path
buffers and the descriptor, `UdpRetries` how often each chunk is sent and what the sender returns.
There are no sequence numbers, and a time-out after the first acknowledgement is read as an acknowledgement, so
everything rests on the digest at the end. The digest function is a parameter, and "no collision" is a hypothesis only where it
is named.

**File transfer over TCP (`Tcp*.dfy`).** The receiver keeps the message, every received segment and every reply in one
buffer. `TcpSession` runs the two ends together, in every interleaving and over a byte stream cut anywhere.

**Bandwidth test (`Speedtest*.dfy`).** A producer starts worker threads and puts them in a bounded queue; a consumer takes
them out, joins them and records their byte counts. `SpeedtestQueue` interleaves their steps, `SpeedtestRun` is the same as a
class run under any scheduler, `SpeedtestConfig` computes how many requests there are.

Where the code does not do what it seems to promise, the model keeps the code and the lemma says when the promise holds:

- `md5/md5.c:41`: the block loop's 32-bit test `i+64 <= inputlen` is right, and the loop ends, exactly below the limit
  of `Md5Context.GuardIff`; from there on the loop runs for ever and reaches beyond its input (`Md5Context.LoopEndsIff`).
- `filesend/udpfilesend/udp-server.c:195-202`: the digest of a part file that is gone is all zero. The sender's "ok" is
  justified for every run exactly when the announced digest is not zero, or there was nothing to send
  (`UdpSafety.SafeIff`; with repeated announcements, `UdpRepeats.HonestIff`).
- `filesend/udpfilesend/udp-server.c:192-234`: the descriptor stays open, so that a chunk repeated after the publication
  goes to the published file. Every source that can be confirmed has such a run (`UdpLate.AlwaysIntactIff`). Without a
  leftover part file, a run leaves the file intact exactly when nothing is written late (`UdpLate.IntactRunIff`), as
  when the channel keeps order (`UdpOrder.ConfirmedInOrder`).
- `filesend/udpfilesend/udp-server.c:149`: the part file is opened without truncation; a lossless transfer succeeds
  exactly when no longer part file was left over (`UdpLossless.LosslessSession`; for TCP, `TcpClient.Transferred`).
- `filesend/udpfilesend/udp-server.c:140-146`: the paths are appended to the buffers; they are right exactly when every earlier
  announcement was cleared (`UdpPaths.AnnouncementBuilds`), which an empty source prevents (`UdpPaths.AfterEmptySource`).
- `filesend/udpfilesend/udp-client.c:121-139`: time-outs alone end `sendfile` exactly when the last reply in the buffer does
  not make it repeat the chunk; else it repeats it for ever (`UdpClient.TimeoutsEndIff`).
- `filesend/tcpfilesend/server.c:81-97`: both ends come to wait for each other exactly for an empty source
  (`TcpSession.NeverStuckIff`, `TcpSession.EmptyStuck`).
- `filesend/tcpfilesend/server.c:70-79`: a part file that does not open is acknowledged all the same, and then judged as it
  is (`TcpClient.Transferred`, `TcpSession.Outcome`).
- `filesend/tcpfilesend/server.c:223-243`: whatever one `recv` returns is taken for the announcement, and the rest of it for
  contents; the file block is right exactly when only zeros are missing (`TcpSession.FirstSegmentIff`). The client's "ok"
  is justified for every run exactly when the announcement is sure to come in one segment, and its digest is not zero
  or the source is empty (`TcpSession.HonestIff`).
- `netspeed/speedtest.py:1116-1127`: no upload plan exists for a ratio above 7 (`SpeedtestConfig.UploadPlan`).

## Model

| member | source | states |
|---|---|---|
| CrcTable.TableIs | crc/crc_ccitt.c:6-39 | Entry i of the table is the register that eight zero bits leave when i is its top byte. |
| CrcByte.LookUpHolds | crc/crc_ccitt.c:47-53 | One table look-up is eight steps of long division, whatever the register and the byte. |
| CrcMessage.CrcCcitt | crc/crc_ccitt.c:47-53 | The loop returns the complement of the register fed bit by bit with the first len bytes; none when len is not positive. |
| CrcMessage.MessageHolds | crc/crc_ccitt.c:47-53 | The bit-at-a-time register holds the remainder of long division by the generator. |
| Gf2.Division | crc/crc_ccitt.c:6-53 | Long division: the dividend is quotient times generator plus remainder. |
| Gf2.DivisionUnique | crc/crc_ccitt.c:6-53 | Quotient and remainder of the division are the only ones. |
| CrcDetection.CrcIsRemainder | crc/crc_ccitt.c:47-53 | The register after a message holds p if and only if p is the remainder of message times x^16, preset added at the top. |
| CrcOrder.Order | crc/crc_ccitt.c:6-53 | x^k is 1 modulo the generator exactly when 32767 divides k. |
| CrcOrder.PeriodIff | crc/crc_ccitt.c:6-53 | A register that comes round after 32767 steps, but not after its largest proper divisors, comes round after k steps exactly when 32767 divides k. |
| CrcOrder.MulPowInjective | crc/crc_ccitt.c:50-52 | Multiplication by a power of x never merges two registers. |
| CrcDetection.UndetectedIff | crc/crc_ccitt.c:47-53 | Two messages of one length have one CRC exactly when their difference is a multiple of the generator. |
| CrcDetection.BurstDetected | crc/crc_ccitt.c:50-52 | Any error within 16 consecutive bits changes the CRC, wherever it is. |
| CrcDetection.RegisterParity | crc/crc_ccitt.c:50-52 | The register's parity is the message's: each byte changes it by that byte's parity. |
| CrcDetection.OddErrorDetected | crc/crc_ccitt.c:47-53 | Any odd number of wrong bits changes the CRC. |
| CrcDetection.TwoBitErrorIff | crc/crc_ccitt.c:47-53 | Two wrong bits go undetected exactly when 32767 divides their distance. |
| CrcDetection.FewErrorsDetected | crc/crc_ccitt.c:47-53 | Up to three wrong bits in a message of at most 32767 bits change the CRC. |
| CrcPreset.EmptyMessage | crc/crc_ccitt.c:4-53 | The CRC of no bytes is 0. |
| CrcPreset.LeadingZeros | crc/crc_ccitt.c:4-53 | n zero bytes in front of any message go unseen exactly when 32767 divides n. |
| CrcFrame.FrameAccepted | crc/crc_ccitt.c:47-53 | A message followed by its CRC, high byte first, has CRC 0xE2F0. |
| CrcFrame.AcceptedIff | crc/crc_ccitt.c:47-53 | Only the CRC, as last two bytes, gives 0xE2F0. |
| CrcFrame.DamageAcceptedIff | crc/crc_ccitt.c:47-53 | A damaged frame is taken for good exactly when the damage is a multiple of the generator. |
| CrcFrame.DamageCaught | crc/crc_ccitt.c:47-53 | One to three wrong bits in a frame of at most 32767 bits, or one burst of at most 16, are caught. |
| Md5Words.RotateBack | md5/md5.h:16 | Rotating by n and by 32 - n is the identity. |
| Md5Words.ShiftKeepsLow | md5/md5.h:16 | The left shift of the rotation modulo 2^32 is its low part moved up. |
| Md5Words.RotateLeftIs | md5/md5.h:16 | The or of the two shifts has the low part moved up and the high part come round. |
| Md5Words.OrSum | md5/md5.c:89-92 | The or of words without a common bit is their sum. |
| Md5Words.AndMask | md5/md5.c:73-76 | The and with k low-order ones is the remainder modulo 2^k. |
| Md5Bits.WordBits | md5/md5.h:12-15 | And, or, exclusive or and complement, on each of the 32 bits. |
| Md5Bits.MixBits | md5/md5.h:12-41 | On each bit, rounds 1 to 4 mix in: y or z by x; x or y by z; the parity; y, toggled where x is set or z clear. |
| Md5Rounds.RoundIs | md5/md5.h:18-41 | The order of additions in the step macros makes no difference: they compute section 3.4's operation. |
| Md5Rounds.FourSteps | md5/md5.c:108-177 | After four steps each of the four words has its role back. |
| Md5Transform.FirstRound | md5/md5.c:108-123 | The first 16 assignments are steps 0 to 15 of section 3.4, with words i. |
| Md5Transform.SecondRound | md5/md5.c:125-141 | The next 16 are steps 16 to 31, with words 5i+1 modulo 16. |
| Md5Transform.ThirdRound | md5/md5.c:143-159 | The next 16 are steps 32 to 47, with words 3i+5 modulo 16. |
| Md5Transform.FourthRound | md5/md5.c:161-177 | The last 16 are steps 48 to 63, with words 7i modulo 16. |
| Md5Transform.Transform | md5/md5.c:98-182 | The state array becomes the chaining value after the block, all 64 steps and the final additions. |
| Md5Inverse.UnStepsSteps | md5/md5.c:108-177 | The inverse steps undo the steps, for any number of them. |
| Md5Inverse.StepsBijective | md5/md5.c:108-177 | For a fixed block every four words come out of exactly one four words, the inverse's. |
| Md5Inverse.CompressIff | md5/md5.c:178-181 | t is the chaining value after s and a block exactly when taking s off each word of t and undoing the 64 steps gives s back. |
| Md5Bytes.Encode | md5/md5.c:66-80 | The output is the bytes of the words, low-order byte first; the rest of it is unchanged. |
| Md5Bytes.Decode | md5/md5.c:82-96 | The output is the words of the bytes; the rest of it is unchanged. |
| Md5Bytes.OrBytesIs | md5/md5.c:89-92 | The or of the shifted bytes is the number they stand for, low-order byte first. |
| Md5Bytes.MaskedBytesAre | md5/md5.c:73-76 | The shifted and masked words are the four bytes of the number. |
| Md5Bytes.WordsOfBytes | md5/md5.c:66-96 | Encoding and decoding give the words back. |
| Md5Bytes.BytesOfWords | md5/md5.c:66-96 | Decoding and encoding give the bytes back, for every length that is a multiple of 4. |
| Md5Context.CarryIff | md5/md5.c:32-33 | The test for the carry is true exactly when the low counter word wraps. |
| Md5Context.CounterStep | md5/md5.c:30-34 | The two counter words together go from 8n to 8(n + k) modulo 2^64. |
| Md5Context.GuardIff | md5/md5.c:41 | The 32-bit loop test is right for every position exactly below the stated limit on inputlen. |
| Md5Context.LoopEndsIff | md5/md5.c:36-43 | The block loop comes to an end exactly below the limit on inputlen; from there on it takes a block that reaches beyond the input and never ends. |
| Md5Context.Context.Init | md5/md5.c:12-20 | The streaming invariant holds of no bytes. |
| Md5Context.Context.Count | md5/md5.c:30-34 | Both counter words after inputlen more bytes. |
| Md5Context.Context.WholeBlocks | md5/md5.c:41-42 | The loop folds every complete block of the input into the state and leaves less than one block. |
| Md5Context.Context.Update | md5/md5.c:22-51 | Keeps the streaming invariant (counter, state over complete blocks, buffered tail) while the input is absorbed. |
| Md5Context.Context.Final | md5/md5.c:53-64 | The digest is that of RFC 1321 on everything absorbed since Init; what has been absorbed then is the padded message. |
| Md5Digest.InitialBytes | md5/md5.c:12-20 | The chaining value before any block is the sixteen bytes of section 3.3. |
| Md5Digest.NextOfWords | md5/md5.c:98-106 | A block is transformed as its sixteen words, in order. |
| Md5Digest.PadShape | md5/md5.c:4-10 | The padded message: the message, 0x80, fewer than 64 zeros, and 8 times the length modulo 2^64 in eight bytes, low-order first; whole blocks. |
| Md5Digest.PadInjective | md5/md5.c:53-62 | Two messages of any lengths have one padded form only if they are equal. |
| Md5Digest.DigestCollision | md5/md5.c:53-64 | For two different messages below 2^61 bytes with one digest: two blocks of their padded forms, at one distance from the ends, that with the chaining values before them are different inputs of the block transform with one result. |
| Md5File.AbsorbReads | md5/main.c:48-54 | The read loop absorbs exactly the bytes read before the first read that stops it. |
| Md5File.DigestFile | md5/main.c:35-58 | -1 and no output if the file does not open, else 0 and the digest of the bytes read. |
| Md5File.CutsDoNotMatter | md5/main.c:48-54 | The bytes read are the file up to where reading stopped, however the reads cut it; without a failure, all of it. |
| TransferFiles.SameDigest | filesend/udpfilesend/udp-server.c:203-209 | The comparison loop decides equality of the digests. |
| UdpServer.Receiver.CmdReqsendDeel | filesend/udpfilesend/udp-server.c:124-166 | Both buffers grow by prefix and name, the part file is opened at its start without truncation, and the reply says whether it opened. |
| UdpServer.Receiver.CmdRevfile | filesend/udpfilesend/udp-server.c:168-190 | What write took is laid over the file at the descriptor; a failed write clears the paths and closes. |
| UdpServer.Receiver.CmdRevfilefinsh | filesend/udpfilesend/udp-server.c:192-234 | OK and the rename exactly when the digest of the part file, or zero without one, is the announced one; the paths are cleared. |
| UdpServer.Receiver.OnRecv | filesend/udpfilesend/udp-server.c:236-262 | The table picks the handler by command and type; other datagrams change nothing and get no reply. |
| UdpServer.DispatchIff | filesend/udpfilesend/udp-server.c:124-262 | In numbers: which headers are answered, with which reply for which outcome; no others change anything. |
| UdpClient.SendFile | filesend/udpfilesend/udp-client.c:62-168 | For all returns of recvfrom: what is sent, how it ends and what is returned are those of the step function, stale acks and double sending included. |
| UdpClient.Datagrams | filesend/udpfilesend/udp-client.c:75-151 | In numbers: the headers sent, the announced name, length (right exactly below 2^32) and digest, and the 4096 bytes of chunk i. |
| UdpRetries.CopiesAre | filesend/udpfilesend/udp-client.c:115-140 | For all returns of recvfrom: each chunk that is sent goes out once, and twice more for every return that leaves neither its ack nor "no space" in the buffer. |
| UdpRetries.NoSpaceIff | filesend/udpfilesend/udp-client.c:130-134 | The sender gives up for lack of space exactly when a reply says so while a chunk waits for its ack. |
| UdpRetries.MinusOneIff | filesend/udpfilesend/udp-client.c:99-168 | The status is -1 exactly when the announcement is acknowledged, and the source does not open, is empty, or meets with no space. |
| UdpRetries.ConfirmedIff | filesend/udpfilesend/udp-client.c:150-161 | "ok" exactly when the reply to FINISH says so. |
| UdpClient.RunStopped | filesend/udpfilesend/udp-client.c:93-168 | Once the sender has ended, it sends nothing more. |
| UdpClient.TimeoutsEndIff | filesend/udpfilesend/udp-client.c:115-161 | From every state, time-outs alone bring the sender to its end exactly when it is not waiting for a chunk's ack with a last reply that is neither that ack nor "no space". |
| UdpSession.Keeps | filesend/udpfilesend/udp-server.c:124-262 | Every step of server, sender and network keeps the session invariant. |
| UdpSession.LateChunk | filesend/udpfilesend/udp-server.c:168-190 | A chunk after the publication is laid over the published file where the descriptor stood. |
| UdpSafety.SafeIff | filesend/udpfilesend/udp-client.c:99-161 | In every run of a session with one delivery of the announcement "ok" means that one part file with the announced digest was published, exactly when the announced digest is not zero, or the source is empty or does not open. |
| UdpSafety.ZeroDigestRun | filesend/udpfilesend/udp-server.c:195-217 | For every other source, a run that ends with "ok" and no publication. |
| UdpSafety.StaleAcks | filesend/udpfilesend/udp-client.c:121-129 | After one ack, time-outs alone take the sender to FINISH. |
| UdpSafety.ConfirmedContents | filesend/udpfilesend/udp-server.c:192-234 | Without collisions the published bytes are the source, the part file's name is gone and nothing else on the disk has changed; without a leftover the file under its name is the source followed by the chunks delivered later. |
| UdpLate.LateChunkRun | filesend/udpfilesend/udp-server.c:168-234 | For every nonempty source that opens, a run that ends with "ok" and a published file that holds the source and its first chunk once more. |
| UdpLate.AlwaysIntactIff | filesend/udpfilesend/udp-server.c:168-234 | Every confirmed run without a leftover leaves the source under its name exactly for sources that are empty or do not open. |
| UdpLate.IntactRunIff | filesend/udpfilesend/udp-server.c:168-234 | A confirmed run leaves the source exactly when the late bytes are those that stood at the descriptor; without a leftover, when there are none. |
| UdpRepeats.HonestIff | filesend/udpfilesend/udp-client.c:99-161 | With any number of deliveries of every datagram, announcement included: "ok" means that a file with the announced digest was published, under its name repeated once or more, exactly when the digest is not zero or there is nothing to send. |
| UdpOrder.SentInOrder | filesend/udpfilesend/udp-client.c:112-150 | Whatever it receives, the sender sends the announcement, chunks in order with none left out, each any number of times, then FINISH. |
| UdpOrder.PartFileInOrder | filesend/udpfilesend/udp-server.c:168-190 | Over a channel that loses and repeats but keeps order, with full and short writes, the part file always holds starts of source chunks with nondecreasing indices, over what was left in it; whole chunks when no write is short. |
| UdpOrder.NeverLate | filesend/udpfilesend/udp-server.c:168-190 | Over such a channel no chunk is written after the publication. |
| UdpOrder.ConfirmedInOrder | filesend/udpfilesend/udp-client.c:150-161 | Over such a channel "ok" means, without collisions, that the file under its name is the source. |
| UdpLossless.AfterChunks | filesend/udpfilesend/udp-client.c:112-129 | After k acknowledged chunks the part file starts with the first min(4096k, length) source bytes. |
| UdpLossless.LosslessSession | filesend/udpfilesend/udp-server.c:124-234 | A run of the session without loss publishes a nonempty source unchanged exactly when no longer part file was left over, and then the part file's name is gone and nothing else has changed; else the sender is told of the failure. |
| UdpLossless.NextSession | filesend/udpfilesend/udp-server.c:140-234 | After such a transfer, one of any other nonempty source under the same name succeeds too. |
| UdpLossless.RoundsLead | filesend/udpfilesend/udp-client.c:87-151 | Rounds of a delivery and its reply are runs of the session. |
| UdpPaths.PathsAre | filesend/udpfilesend/udp-server.c:140-181 | Both buffers are empty exactly when no announcement is later than the last FINISH or failed write. |
| UdpPaths.AnnouncementBuilds | filesend/udpfilesend/udp-server.c:140-146 | An announcement builds exactly prefix, name and suffix if and only if all earlier ones are cleared. |
| UdpPaths.AfterFailure | filesend/udpfilesend/udp-server.c:149-190 | After a failed write or opening every chunk is refused and no file changes, until a part file opens again; after a failed write and without an announcement, no name does either. |
| UdpPaths.AfterEmptySource | filesend/udpfilesend/udp-client.c:112-114 | After an empty source the next file, without any loss, goes to both names run together. |
| TcpWire.BlockRoundTrip | filesend/tcpfilesend/net_file.h:40-60 | The server reads the file block that the client wrote, whatever follows it in the buffer. |
| TcpWire.CutBlockIff | filesend/tcpfilesend/net_file.h:40-60 | A file block cut short in a cleared buffer reads as the whole one exactly when only zeros are missing. |
| TcpServer.Receiver.ReceivePart | filesend/tcpfilesend/server.c:81-97 | The part file gets the segments taken, in order; how many those are, and whether the loop ends, is Taken. |
| TcpServer.TakenBounds | filesend/tcpfilesend/server.c:81-97 | The count stays below the announced length until the last segment and below length + MAXLINE at exit; the loop ends exactly at the length or when the connection does. |
| TcpServer.FullDelivery | filesend/tcpfilesend/server.c:81-97 | However the announced bytes are cut into segments, all are taken and the loop ends with the last. |
| TcpServer.Receiver.Judge | filesend/tcpfilesend/server.c:99-128 | Rename and OK exactly when the digests agree; the reply's eight bytes are FINISH, the verdict and length 0, whatever the shared buffer held. |
| TcpServer.Receiver.CmdReqsendDeel | filesend/tcpfilesend/server.c:42-144 | The announcement read from the shared buffer, the two replies, the disk and the cleared paths. |
| TcpClient.SendContents | filesend/tcpfilesend/client.c:133-142 | What is sent, put together, is the source; every piece has 1 to 2048 bytes, and all but the last 2048. |
| TcpClient.RequestSendfile | filesend/tcpfilesend/client.c:94-165 | The announcement's bytes, and what is sent and reported for each acknowledgement and verdict. |
| TcpClient.Transferred | filesend/tcpfilesend/server.c:70-128 | For every cutting of a nonempty source, whether or not the part file opens: a positive verdict exactly when no longer one was left over, or, unopened, when its digest is the announced one; then the part file has become the source under its name and nothing else has changed, or there was no part file and nothing is published. |
| TcpClient.AnnouncementRead | filesend/tcpfilesend/client.c:103-114 | The server parses the file block that the client announces. |
| TcpClient.AnnouncementLayout | filesend/tcpfilesend/client.c:103-114 | The announcement byte by byte, with the number of bytes that follow the header in bytes 4 to 7. |
| TcpClient.VerdictBytes | filesend/tcpfilesend/server.c:109-128 | The eight bytes of the verdict. |
| TcpClient.VerdictRead | filesend/tcpfilesend/client.c:152-162 | The client confirms exactly a positive verdict. |
| TcpServer.LoopEndsIff | filesend/tcpfilesend/server.c:81-97 | On the segments of a source, however cut, the receive loop ends exactly when the source is not empty. |
| TcpSession.FirstSegmentIff | filesend/tcpfilesend/server.c:223-243 | Every first segment of the announcement is dispatched as one; the block read is the announced one exactly when only zeros are missing. |
| TcpSession.AlwaysInv | filesend/tcpfilesend/client.c:114-161 | Every interleaving keeps the bytes sent equal to those received and in flight, what was left of the announcement first, and the replies those of the server's state. |
| TcpSession.Outcome | filesend/tcpfilesend/client.c:94-165 | In every interleaving with the announcement in one segment, when the client ends: it confirms exactly when the server accepts, opened part file or not; then the part file has become the source under its name and nothing else has changed, or there was no part file and nothing is published. |
| TcpSession.HonestIff | filesend/tcpfilesend/server.c:70-128 | In every run "ok" means that a file with the source's digest stands under its name, exactly when the announcement is sure to come in one segment, and the digest is not zero or the source is empty. |
| TcpSession.DishonestRun | filesend/tcpfilesend/server.c:70-128 | A part file that does not open and a first segment with a zero digest: a run that ends with "ok" and a disk as empty as before. |
| TcpSession.NeverStuckIff | filesend/tcpfilesend/server.c:79-128 | No interleaving is stuck before the client ends, exactly when the source is not empty. |
| TcpSession.EmptyStuck | filesend/tcpfilesend/server.c:81-97 | For an empty source: a run to a state with nothing in flight either way, the server waiting for bytes and the client for the verdict. |
| TcpSession.SessionBound | filesend/tcpfilesend/client.c:94-165 | No interleaving has more than 2 length + 4 steps, or 2 length + 95 when the announcement may be cut. |
| TcpSession.Transfer | filesend/tcpfilesend/client.c:94-165 | The two programs on one transfer: for every cutting, part file opened or not, the client's result and the file on the server's disk. |
| SpeedtestQueue.RunKeeps | netspeed/speedtest.py:1458-1486 | Every interleaving keeps threads in order through put, get and record, and each step uses up one of finitely many. |
| SpeedtestQueue.RunBound | netspeed/speedtest.py:1458-1494 | No interleaving has more than 3 requests + 2 count steps. |
| SpeedtestQueue.FewInFlight | netspeed/speedtest.py:1458-1486 | At most maxsize + 2 threads are started and not recorded. |
| SpeedtestQueue.ManyInFlight | netspeed/speedtest.py:1458-1486 | With requests enough, so many there are in some interleaving. |
| SpeedtestQueue.FinalInOrder | netspeed/speedtest.py:1472-1481 | At the end the results stand in request order, one per request waited for. |
| SpeedtestQueue.NeverStuckIff | netspeed/speedtest.py:1458-1496 | No reachable state is stuck before both loops have ended, exactly when count is at most requests and the queue has room for the rest. |
| SpeedtestRun.Test.Run | netspeed/speedtest.py:1442-1496 | Under every scheduler that picks a possible step, the test ends with every result in request order. |
| SpeedtestConfig.UploadPlan | netspeed/speedtest.py:1116-1152 | A plan exists exactly for ratios up to 7; its sizes are the last 8 - ratio of the table (for ratios below 1 the last 1 - ratio, at most all), and upload_max is counts times sizes. |
| SpeedtestConfig.UpSizes | netspeed/speedtest.py:1118-1118 | The size table: 32 KiB, doubled up to 1 MiB, and 7 MiB. |
| SpeedtestConfig.PlannedRequests | netspeed/speedtest.py:1117-1127 | The number of requests is the configured one rounded to a multiple of the sizes, up in Python 3 and down in Python 2. |
| SpeedtestConfig.SliceToIff | netspeed/speedtest.py:1536-1536 | The slice keeps a prefix, and all of it exactly when the end is not before the list's. |
| SpeedtestConfig.LayOut | netspeed/speedtest.py:1507-1511 | The nested loops lay out every size count times, in order. |
| SpeedtestConfig.LaidAt | netspeed/speedtest.py:1507-1511 | Request i has the size number i / count. |
| SpeedtestConfig.NothingDropped | netspeed/speedtest.py:1514-1536 | The slice to upload_max drops no request, and the test never gets stuck, whatever the queue's size. |

## Left out

- Md5Context.Context.Update: requires that inputlen stays below the limit of GuardIff; from there on, by LoopEndsIff, the code never returns, so that there is nothing to state.
- Md5Rounds: the additive constants are taken as RFC 1321 lists them, not proved to be the integer parts of 2^32 times the sine.
- UdpClient: a read of the source returns a whole chunk except at end of file, and the source does not change during a session.
- UdpServer: the shell command of the rename is one step that succeeds, directories exist, names have no character special to the shell and fit the fixed buffers; the time stamp of the file is not modelled.
- TcpSession: each reply arrives in one segment, and the source opens at the client; one that does not makes the client close the connection.
- TcpServer: writes are whole once the part file is open, and numbers are in the byte order of the sender's and the receiver's machine, low-order byte first.
- TcpServer: the accept loop, the dispatch table of server.c:191-243 and the handlers that the client never addresses; what follows in the stream once the loop has ended would be dispatched there.
- SpeedtestRun: joins with a time-out of 0.1 seconds are one step that waits for the thread; timing, callbacks, the HTTP transfers and the shutdown event are not modelled, and a worker's result is any number.
- SpeedtestConfig.UploadPlan: the configuration dictionary is a value, and the quotient under the ceiling is exact.
- Sockets, select, printing and the measured speeds of all four programs.
- The rest of speedtest.py, netspeed.c, gps.cpp and the system-call demonstrations: library calls with no state of their own to reason about.
