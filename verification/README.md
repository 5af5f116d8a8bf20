# NetPort: a model of its algorithms, with proofs

NetPort is a small C++ networking library. Most of it wraps sockets; this project models the parts
that compute something, in Dafny, and proves what they promise:

- **Streaming SHA-1 and its Base64 text** (`Sha1Spec`, `Sha1Known`, `Sha1State`, `Hash`,
  `Base64`, `DigestText`). `Sha1Spec` is the one-shot function of FIPS 180-4, `Sha1Known` its published
  example; `Sha1State` is the streaming object with its
  64-byte buffer; `Base64` is section 4 of RFC 4648 and its inverse; `DigestText` is the loop that
  cuts 32-bit words into 6-bit groups.
- **The arc4 generator** (`Arc4`, `Arc4Random`, `Arc4Uniform`): draws and seeding as a state machine,
  the object that works on the table in place, the budget between seedings and the rejection sampler.
- **The MEI connection layer.** `PacketSpec`, `Frames` and `Packet`: the packet writer and reader.
  `TransferSpec`, `TransferQueue` and `Transfer`: one connection, its 64-bit counter, retransmit
  queue and timers. `AddressOrder`, `SystemSpec` and `MeiSystem`: the order of addresses and the
  session tables of one system. `HandshakeSpec`, `Handshake` and `Agreement`: any number of systems
  on a network that loses, duplicates and reorders.
- **The hand-off between worker threads and registering threads** (`ControlSpec`, `Control`,
  `ControlRuns`, `ControlProgress`, `ControlReturn`) as an interleaving of program counters, and the
  lists it protects (`Registry`).
- **Numbers and addresses as text** (`NumberText`, `AddressText`, `AddressParse6`).

Each part has a specification on values and, where the C++ code updates something in place, a class
or a method with loops whose postconditions tie it to that specification. The properties are lemmas
about the specification: for all inputs, all runs, or all reachable states. Definitions on which
such a lemma would stand either way (constants, bit positions, byte orders, which wait follows which
answer) are tied to something made without them: a published example, an algorithm as it was
published, a packet or a text written out in full, or a law that names the numbers.

`dafny verify dfyconfig.toml` checks the project.

## What was found

Some of what one would like to hold does not; the exact conditions are proved.

- `base64l_be`, called as `tobase64` calls it, is right for 0 and for 3 to 6 words, reads past the
  words for 1 and 2, and leaves its text unfinished from 7 words on. SHA-1 has 5.
- `ip6` writes behind its eight groups exactly when the text has an eighth colon with at most one
  pair of adjacent colons up to there. The text that `to_string` prints for an IPv6 address, with its
  port, always does; up to the bracket it is read back correctly.
- A double colon is filled with `0xfefe`; between groups the result is right exactly when it stands
  for a single group, at either end exactly when it stands for two, and alone never.
- `operator<` on IPv4 addresses looks at the port and the first two octets only, so the table of
  sessions takes peers that agree on these for one. If two such peers call a system with the same
  session id, one session serves both, at most one of them is ever answered, and the session may
  expect the other's number. On IPv6 addresses `operator<` is no order: two can each be less than
  the other.
- `InitSystem` on a registered system returns with both mutexes locked. From then on no worker and no
  other caller ever gets a mutex again. A run gets there exactly when, in the order in which the
  critical sections run, a system is registered twice.
- Both workers can be in their loops at the same time: their mutexes keep callers out, not each other.
- `arc4_count` leaves the range of `int` after 2^29 calls without any entropy.
- The poll types of the POSIX table do not survive a round trip when only one of priority and
  out-of-band data is asked for.
- Number text reads back exactly when the digits fit beside the sign; otherwise the low-order digits
  are kept, not the high-order ones.

## Model

| member | source | states |
|---|---|---|
| Sha1Known.Abc | src/crypt.cpp:124-202 | the digest of "abc" is the one published with FIPS 180-4, with its schedule and its registers after every phase |
| Sha1Spec.RotationsAre | src/crypt.cpp:141-149 | the three rotations turn a word by 1, 5 and 30 bits, for every word |
| Sha1Spec.ChIs | src/crypt.cpp:146 | the first function selects between its arguments bit by bit |
| Sha1Spec.MajIs | src/crypt.cpp:158 | the third function is the majority of its arguments |
| Sha1Spec.ConstantsAre | src/crypt.cpp:148-166 | the four constants are the square roots of 2, 3, 5 and 10 times 2^30, rounded down |
| Sha1Spec.InitialIs | src/crypt.cpp:125-129 | the initial value by its byte pattern |
| Sha1Spec.CompressFeedsForward | src/crypt.cpp:133-175 | a block is taken in by rounds that start from the hash value so far and can be undone, plus that value: taking it off and undoing the rounds gives it back |
| Sha1Spec.PadLength | src/crypt.cpp:185-201 | every message is padded to (len+8)/64 + 1 whole blocks, with 56 bytes before the length field |
| Sha1Spec.ZeroCountIsLeast | src/crypt.cpp:188-191 | the zero-filling stops at the first place that leaves room for the length, as section 5.1.1 of FIPS 180-4 asks |
| Sha1Spec.BigEndian64Value | src/crypt.cpp:193-200 | the eight length bytes read back as the 64-bit length they were written from |
| Sha1Spec.PadInjective | src/crypt.cpp:185-201 | two different messages, of any length, never give the same block sequence |
| Sha1State.ChForm | src/crypt.cpp:146 | the code's form of the first round function is Ch of FIPS 180-4 |
| Sha1State.MajForm | src/crypt.cpp:158 | the code's form of the third round function is Maj of FIPS 180-4 |
| Sha1State.SumForm | src/crypt.cpp:148 | the order in which a round's five terms are added does not matter modulo 2^32 |
| Sha1State.FoldSnoc | src/crypt.cpp:176-184 | one more block is taken in on top of the hash value of all blocks before it |
| Sha1State.Sha1State.Init | src/crypt.cpp:124-131 | starts an empty message at the initial hash value |
| Sha1State.Sha1State.MakeSchedule | src/crypt.cpp:134-143 | the 80 words are the message schedule of the buffered block |
| Sha1State.Sha1State.BlockUpdate | src/crypt.cpp:133-175 | the chaining words take in the buffered block by the compression function of section 6.1.2 |
| Sha1State.Sha1State.AddMessage | src/crypt.cpp:176-184 | after any chunk the chaining words are the fold over all whole blocks so far and the buffer holds the tail |
| Sha1State.Sha1State.AddZero | src/crypt.cpp:188-191 | one turn of the padding loop appends one zero to what is fed or buffered, whether or not a block is full |
| Sha1State.Sha1State.AddPadding | src/crypt.cpp:186-191 | in place and with an extra block if needed, appends 0x80 and exactly the required zeros |
| Sha1State.Sha1State.StoreLength | src/crypt.cpp:193-200 | the last eight buffer bytes become the big-endian length, the other 56 stay |
| Sha1State.Sha1State.EndMessage | src/crypt.cpp:185-202 | the blocks fed over the whole run are exactly the padded message, and the digest is its SHA-1 |
| Sha1State.BitLengthWraps | src/crypt.cpp:192 | the length in bits, shifted in 64 bits, is that of the message modulo 2^64 at every length |
| Hash.Hash.Full | src/crypt.cpp:229-234 | one call gives the SHA-1 of the message; a null message counts as empty |
| Hash.Hash.PartialBegin | src/crypt.cpp:235-238 | begins an empty message, or does nothing for hash types that are not implemented |
| Hash.Hash.PartialAdd | src/crypt.cpp:239-242 | the message so far grows by the chunk |
| Hash.Hash.PartialFinish | src/crypt.cpp:243-246 | the digest is the SHA-1 of all chunks joined |
| Hash.HashInChunks | src/crypt.cpp:229-246 | every way of splitting a message, empty chunks included, gives the digest that Full gives |
| Base64.DecodeEncode | src/crypt.cpp:59-109 | Base64 of RFC 4648 with padding decodes to the bytes it was made from, for every byte string |
| Base64.WordsOfOctets | src/crypt.cpp:61-109 | words are recovered from their big-endian bytes |
| Base64.TableIsAlphabet | src/crypt.cpp:59 | the table is the alphabet of RFC 4648 |
| Base64.GroupsInOrder | src/crypt.cpp:67-102 | the four groups in order are the bits of three bytes in order |
| Base64.PublishedVectors | src/crypt.cpp:59-109 | the test vectors of section 10 of RFC 4648 |
| Base64.Quad1Is | src/crypt.cpp:80-83 | the shifts that carry eight bits over from the previous word give the Base64 of the bytes they straddle |
| Base64.Quad2Is | src/crypt.cpp:93-96 | the same with sixteen bits carried over |
| Base64.EncodeTriple | src/crypt.cpp:66-108 | three words are the four character groups the loop writes, then the rest |
| Base64.DecodeDigest | src/crypt.cpp:256-266 | the words come back from the text |
| DigestText.TextSizeIs | src/crypt.cpp:258-263 | the computed size is four characters for every started group of three bytes, for every byte count |
| DigestText.Base64lBe | src/crypt.cpp:61-109 | complete and of exactly the given length for 0 and 3 to 6 words, out of bounds exactly for 1 and 2, never the encoding from 7 on |
| DigestText.ToBase64 | src/crypt.cpp:256-266 | the 28 characters of a digest are the Base64 of its big-endian bytes and decode to its five words |
| Arc4.DrawIs | src/arc4random.cpp:208-219 | the byte drawn is the entry at the sum of the two entries exchanged, in the state the draw leaves |
| Arc4.KeystreamIs | src/arc4random.cpp:208-219 | any number of draws, from any state, is RC4's output loop as published |
| Arc4.FirstBytes | src/arc4random.cpp:90-98 | a new table gives 2, 5, 7, 13 |
| Arc4.OncePerValue | src/arc4random.cpp:74-78 | in a permuted table every byte value occurs once |
| Arc4.NextFinney | src/arc4random.cpp:208-219 | a draw enters or leaves the degenerate cycle never: it is in it after if and only if before |
| Arc4.RunInvariant | src/arc4random.cpp:90-114 | after any draws and seedings in any order the table is a permutation and the state is outside the degenerate cycle |
| Arc4.UndoNext | src/arc4random.cpp:208-219 | every draw can be undone from the state it leaves |
| Arc4.NextUndo | src/arc4random.cpp:208-219 | and every state is the result of a draw |
| Arc4.UndoDraws | src/arc4random.cpp:261-262 | so can any number of draws, the discarded 12*256 included |
| Arc4.DrawsInjective | src/arc4random.cpp:208-219 | two different states never merge |
| Arc4.SeedIsKeySchedule | src/arc4random.cpp:100-114 | seeding a fresh state gives the permutation of RC4's published key schedule, with both indices at 255 |
| Arc4.SeedIs | src/arc4random.cpp:100-114 | seeding any state goes on with the schedule from its indices and table and leaves both indices one before the first |
| Arc4Uniform.MinIs | src/arc4random.cpp:306-312 | both branches of the 32-bit computation give 2^32 mod the bound |
| Arc4Uniform.Uniformity | src/arc4random.cpp:287-326 | every result has the same number of accepted draws, 2^32 / bound rounded down, and more than half of all draws are accepted |
| Arc4Uniform.Pick | src/arc4random.cpp:320-325 | on a given stream the sampler is below the bound, and has no result only if every draw is rejected |
| Arc4Uniform.PickDecides | src/arc4random.cpp:320-325 | behind any number of rejected draws the first other one decides alone, and gives each result on exactly the draws counted for it |
| Arc4Random.WordIs | src/arc4random.cpp:221-230 | a word is the next four bytes of the published loop, the first on top |
| Arc4Random.UnseededWord | src/arc4random.cpp:275-284 | the first word without entropy is 0205070d |
| Arc4Random.StirredWord | src/arc4random.cpp:232-284 | the first word after a stir is bytes 3072 to 3075 of the loop that starts from the seeded state |
| Arc4Random.PlainWord | src/arc4random.cpp:275-284 | a word without a stir is the next four bytes |
| Arc4Random.SeedsInOrder | src/arc4random.cpp:177-206 | what the sources deliver is mixed in in the order in which they are asked |
| Arc4Random.Budget | src/arc4random.cpp:232-284 | once seeded, exactly 400000 words are produced per stir and the count is a positive multiple of 4 up to 1600000 |
| Arc4Random.FailingCalls | src/arc4random.cpp:267-284 | without entropy every call tries again; the counter stays an int for exactly the first 2^29 such calls |
| Arc4Random.FirstSeeding | src/arc4random.cpp:232-273 | the first call that gets entropy starts a full budget |
| Arc4Random.CallsKeepStream | src/arc4random.cpp:275-284 | after any calls, whatever the sources deliver, the state is one that draws and seedings of a fresh one reach |
| Arc4Random.Generator.Init | src/arc4random.cpp:90-98 | the in-place loop sets up the identity table |
| Arc4Random.Generator.MixIn | src/arc4random.cpp:100-114 | 256 in-place swaps are the seeding of the state machine |
| Arc4Random.Generator.GetByte | src/arc4random.cpp:208-219 | one in-place draw: the state moves as the state machine does and the byte is the one it draws |
| Arc4Random.Generator.GetWord | src/arc4random.cpp:221-230 | four draws, the first byte on top |
| Arc4Random.Generator.Stir | src/arc4random.cpp:232-265 | seeds with whatever the sources deliver and reports failure exactly if nothing ever did |
| Arc4Random.Generator.StirIfNeeded | src/arc4random.cpp:267-273 | stirs exactly when the budget is used up or nothing was initialized |
| Arc4Random.Generator.Random | src/arc4random.cpp:275-284 | one word, and the next state of the call sequence |
| Arc4Random.Generator.Uniform | src/arc4random.cpp:297-326 | the result is the first word that is not rejected, reduced, and no word after it is drawn |
| PacketSpec.LeRoundTrip | include/net/MEISocket.hpp:69-87 | a stored word is fetched as it was |
| PacketSpec.FieldsRoundTrip | src/MEISocket.cpp:23-43 | code, flags and length are read back as put in, cut to 12, 7 and 13 bits |
| PacketSpec.WithLengthIs | src/MEISocket.cpp:53 | patching the length leaves code and flags as they were |
| PacketSpec.WriteKeeps | src/MEISocket.cpp:17-59 | every writer operation keeps ch <= mark <= pksz <= 2048 and ch a multiple of 4; a value that does not fit changes nothing |
| PacketSpec.CompleteKeeps | src/MEISocket.cpp:47-59 | completing keeps the invariant and closes the frame on a multiple of 4 |
| PacketSpec.WriterClosable | src/MEISocket.cpp:22 | the trailer always fits, because inserts stop at 2044 |
| PacketSpec.StoredLengthIs | src/MEISocket.cpp:50-51 | the stored length is the number of bytes behind the first twelve since the last trailer; with fewer than twelve it is all ones |
| PacketSpec.FullPacket | include/net/MEISocket.hpp:69-77 | inserts are accepted up to byte 2044 exactly, and the trailer then ends at byte 2048 |
| PacketSpec.FetchPastEnd | include/net/MEISocket.hpp:79-87 | what is not there reads as zeros and the cursor stays |
| PacketSpec.RewoundPacket | include/net/MEISocket.hpp:50-52 | a rewound packet is read from its first byte and written as from the start |
| PacketSpec.Overwritten | include/net/MEISocket.hpp:50-77 | writing over a rewound packet replaces the written bytes and no others |
| PacketSpec.HeaderOverwritten | src/MEISocket.cpp:17-59 | a completed header written over a rewound packet leaves what is behind it in place and in the packet |
| Frames.WritesRepresent | src/MEISocket.cpp:17-59 | after any writer operations, accepted or not, with or without headers, the buffer is the framed blocks, then the open one, then zeros, byte for byte |
| Frames.WalkWire | src/MEISocket.cpp:31-59 | walking by the length fields gives back every block that has a whole header |
| Frames.ShortLength | src/MEISocket.cpp:50-53 | the length stored for a block that is shorter than a header |
| Frames.WalkStops | src/MEISocket.cpp:47-59 | the walk fails at the first block of two to eleven bytes |
| Frames.BatchReadBack | src/MEISocket.cpp:17-59 | for every batch: what the completed packet holds, that the walk recovers it if all blocks have a whole header, and where it fails otherwise |
| Frames.MessagesReadBack | src/MEISocket.cpp:17-59 | a batch whose values follow accepted headers is walked back to exactly its headers and payloads in order |
| Frames.FrameIsBlock | src/MEISocket.cpp:17-59 | a message's frame carries its payload size in the length field |
| Frames.FetchMessage | include/net/MEISocket.hpp:79-87 | fetching a header and then values of the same sizes gives the values inserted, in order |
| Packet.Packet.Alloc | include/net/MEISocket.hpp:39-43 | a packet gets a cleared buffer only if it has none |
| Packet.Packet.Reset | include/net/MEISocket.hpp:45-49 | empty packet, cleared buffer |
| Packet.Packet.Rewind | include/net/MEISocket.hpp:50-52 | back to the start with the contents kept |
| Packet.Packet.Insert | include/net/MEISocket.hpp:69-77 | stores in place what the writer on values stores |
| Packet.Packet.Pad | src/MEISocket.cpp:54 | zero bytes up to the next multiple of four and no further |
| Packet.Packet.Complete | src/MEISocket.cpp:47-59 | closes the open frame in place: length, padding, trailer |
| Packet.Packet.InsertHeader | src/MEISocket.cpp:17-30 | closes an open frame first, then stores the header if it fits |
| Packet.Packet.FetchHeader | src/MEISocket.cpp:31-46 | reads a header, or zeros without moving if there is none |
| Packet.Packet.Fetch | include/net/MEISocket.hpp:79-87 | reads a value, or zeros without moving if it is not there |
| Packet.Packet.Fetch32 | include/net/MEISocket.hpp:79-87 | reads a 32-bit value, zero if it is not there |
| TransferSpec.AdvanceCounts | src/IMEI.hpp:69-73 | the two counter words with their carry count modulo 2^64 |
| TransferSpec.TickRefKeeps | src/MEISocket.cpp:94-108 | no timer ever wraps, wait + 500*(6-attempt) falls with every tick, and an entry goes exactly when its sixth wait ends |
| TransferSpec.RemainingBounds | src/MEISocket.cpp:67-108 | the waits still to come lie between 100 and 500 for each transmission left |
| TransferSpec.LifeIs | src/MEISocket.cpp:67-108 | an entry that no reply removes is there exactly as long as the sum of its six waits, whatever the socket reports |
| TransferSpec.LifeOfPacket | src/MEISocket.cpp:67-108 | a queued packet lives at least 600 and less than 3001 ticks |
| TransferSpec.TickSendsIff | src/MEISocket.cpp:94-108 | a tick transmits the packets of exactly those entries whose wait ends and that have attempts left |
| TransferSpec.SentAtCounts | src/MEISocket.cpp:71-77 | the time to any transmission is 500 for each one accepted before and 100 for each one refused |
| TransferSpec.LifeAt | src/MEISocket.cpp:67-108 | the exact wait and attempt count of a queued packet at every tick |
| TransferSpec.LifeExactly | src/MEISocket.cpp:67-108 | it is queued for exactly its six waits and sent again at exactly the five ticks between them |
| TransferSpec.SteadyLife | src/MEISocket.cpp:67-108 | 3000 ticks if every transmission is accepted, 600 if every one is refused |
| TransferQueue.IsConnectMeans | src/MEISocket.cpp:144 | the masked test on the first word picks exactly the queued session requests |
| TransferQueue.ConnectBytes | src/MEISocket.cpp:110-118 | the request on the wire is one frame with the session id and the whole 64-bit number |
| TransferQueue.AcceptBytes | src/MEISocket.cpp:124-136 | the answer on the wire is one frame with both session ids and the answering side's number |
| TransferQueue.ParseConnect | src/MEISocket.cpp:119-127 | the receiver of a request reads the id and number that were sent |
| TransferQueue.ParseAccept | src/MEISocket.cpp:139-142 | the receiver of an answer reads the ids and number that were sent |
| TransferQueue.PacketsInFull | src/MEISocket.cpp:17-59 | both packets of the handshake as the bytes on the wire, written out |
| TransferQueue.PaddingInFull | src/MEISocket.cpp:54-56 | a message of one byte with its padding and trailer, written out |
| TransferQueue.EnqueueInv | src/MEISocket.cpp:83-92 | a send puts its packet behind all queued ones, across the carry of the counter |
| TransferQueue.TickThins | src/MEISocket.cpp:94-108 | a tick only removes entries and keeps the order of the rest |
| TransferQueue.WithoutConnectsThins | src/MEISocket.cpp:143-151 | an answer removes exactly the queued session requests and keeps the order of the rest |
| TransferQueue.RunInv | src/MEISocket.cpp:67-156 | in every run of up to 2^64 sends the queue ascends strictly from the start of the counter and stays below it, with every timer and attempt in range |
| TransferQueue.DistinctNumbers | src/IMEI.hpp:69-77 | no number is in the queue twice |
| Transfer.Transfer.constructor | src/IMEI.hpp:62-66 | a connection starts without a system, with an empty queue and a random counter |
| Transfer.Transfer.SeqLocal | src/IMEI.hpp:69-73 | returns the number and moves the counter on by one |
| Transfer.Transfer.SendRef | src/MEISocket.cpp:67-78 | transmits the packet and restarts its timer, longer after success; nothing without a system or a packet |
| Transfer.Transfer.Send | src/MEISocket.cpp:83-92 | the packet is completed, its buffer changes hands and is queued under the next number; buffers in the queue stay distinct |
| Transfer.Transfer.Connect | src/MEISocket.cpp:110-118 | queues and transmits the session request of the byte format |
| Transfer.Transfer.TickEntry | src/MEISocket.cpp:97-106 | one entry: erased, sent again or one tick older |
| Transfer.Transfer.HandleInterval | src/MEISocket.cpp:94-108 | the erasing loop over the queue is one tick of every entry, and transmits exactly what is due, in order |
| Transfer.Transfer.EraseConnects | src/MEISocket.cpp:143-151 | the erasing loop leaves exactly the entries that are no session requests |
| Transfer.Transfer.HandleRecv | src/MEISocket.cpp:119-158 | requests note the peer's number and are answered, answers note id and number and stop the request, all else changes nothing |
| Transfer.Transfer.Reply | src/MEISocket.cpp:128-137 | builds the answer the peer will parse |
| SystemSpec.TickAllIs | src/MEISystem.cpp:274-285 | visiting every connection of the list is a tick of all connections |
| SystemSpec.NewestFirst | src/MEISystem.cpp:251-301 | a tick serves the connections that were made last first |
| MeiSystem.MeiSystem.ProcessReceive | src/MEISystem.cpp:230-272 | a request goes to the session made for its sender and id, which is created if missing; other packets go by session id or nowhere |
| MeiSystem.MeiSystem.NewSession | src/MEISystem.cpp:251-261 | a new session enters both tables and the list, under a random id and its client's address |
| MeiSystem.MeiSystem.Connect | src/MEISystem.cpp:291-301 | a client enters the table and the list under a random id and its request is sent |
| MeiSystem.MeiSystem.ProcessControl | src/MEISystem.cpp:274-285 | every connection's timers run once and due packets go to their remote ends |
| AddressOrder.OperatorLessIs | src/network.cpp:355-372 | one address is less than another if and only if a compared word is |
| AddressOrder.AlikeIff | src/network.cpp:355-372 | neither of two addresses is less exactly when family and compared words are equal |
| AddressOrder.Ipv4AlikeIff | src/network.cpp:363-365 | IPv4 addresses are alike exactly when port and first two octets agree |
| AddressOrder.Ipv6AlikeIff | src/network.cpp:366-371 | IPv6 addresses are alike exactly when port and first ten octets agree |
| AddressOrder.Ipv4LessIff | src/network.cpp:363-365 | of two IPv4 addresses the second octet decides, then the first, then the port's low and high byte |
| AddressOrder.NotCrossed | src/network.cpp:355-365 | outside IPv6 no two addresses are each less than the other |
| AddressOrder.Ipv6Crosses | src/network.cpp:366-371 | two IPv6 addresses that are each less than the other |
| AddressOrder.OrderWithoutCrossing | src/network.cpp:355-372 | among addresses that do not cross it is a strict order, total on what it compares |
| Handshake.RepeatMove | src/MEISystem.cpp:245-249 | a request for a slot that is taken makes its session note the number and answer its own client |
| Handshake.RepeatIsIdle | src/MEISystem.cpp:245-249 | a repeated request whose number nobody overwrote leaves the receiving system exactly as it was |
| Handshake.OpenMove | src/MEISystem.cpp:250-263 | a first request creates one session that knows the client's address, id and number |
| Handshake.AcceptMove | src/MEISocket.cpp:139-152 | an answer reaches the client it is for and leaves every session as it was |
| Handshake.InvKept | src/MEISystem.cpp:230-301 | every step of every system and of the network keeps the handshake invariant |
| Agreement.OneSession | src/MEISystem.cpp:243-262 | in every reachable state a client's request has led to at most one session, at the system it called |
| Agreement.Links | src/MEISystem.cpp:230-301 | under loss, duplication and reordering, a client that processed an answer and exactly one session know each other's ids, and the client the session's 64-bit number |
| Agreement.Agrees | src/MEISystem.cpp:230-301 | and the session the client's, unless a request with another number reached it from a peer that the table takes for the client |
| Agreement.AgreementIff | src/MEISystem.cpp:243-262 | for any two clients of one system: agreement holds in every reachable state if and only if the table tells them apart or their numbers are equal |
| Agreement.Disagreement | src/MEISystem.cpp:243-249 | a run in which it fails, for any two clients that the table does not tell apart |
| Agreement.OneAnswered | src/MEISocket.cpp:132-137 | of clients that share a slot at most one is ever answered |
| Agreement.Traffic | src/MEISocket.cpp:67-137 | in every reachable state data goes only to systems that were called, and requests and answers carry what their senders know |
| Agreement.DataSent | src/MEISocket.cpp:83-92 | a user's packet is on the network after it was sent |
| Agreement.ResentOnNet | src/MEISystem.cpp:274-285 | every packet that is due at a tick is on the network after it |
| Agreement.Completes | src/MEISocket.cpp:119-153 | from every reachable state, the request of a client that shares its slot with no other, and the answer to it, establish agreement by arriving |
| Agreement.NeverStuck | src/MEISystem.cpp:230-285 | in every reachable state all tables are consistent, every queue can tick, every datagram can be received, and lookups of IPv4 peers are defined |
| Control.Exclusion | src/MEISystem.cpp:66-122 | in every interleaving a worker in its loop owns its mutex, no caller is between its locks and unlocks, and the pass has seen the front of the list as it is |
| Control.PassIsComplete | src/MEISystem.cpp:106-114 | a pass ends exactly when it has visited every registered system once, in order |
| Control.OneCaller | src/MEISystem.cpp:165-201 | at most one caller is behind its first lock |
| Control.ControlmodCounts | src/MEISystem.cpp:167-200 | the counter is the number of callers between its increment and its decrement |
| Control.WaitsDown | src/MEISystem.cpp:167-169 | whoever is waited for waits, if at all, at a lower mutex |
| Control.WaitChain | src/MEISystem.cpp:66-201 | no circle of waiting threads, and no chain longer than three |
| Control.BoundedBypass | src/MEISystem.cpp:71-105 | while a caller is between increment and decrement each worker takes its mutex at most once |
| Control.StuckIff | src/MEISystem.cpp:170-175 | a caller keeps both locks exactly when it registers a registered system |
| Control.StuckForEver | src/MEISystem.cpp:173 | after that no worker runs, no caller passes its first lock and the list never changes, in every continuation |
| ControlRuns.TwiceGetsStuck | src/MEISystem.cpp:170-175 | a caller that registers a system twice reaches that state |
| ControlRuns.StuckOrder | src/MEISystem.cpp:165-201 | in every run, with any callers, someone is stuck if and only if a system was registered twice in the order of the critical sections; until then the list is what that order makes it |
| ControlRuns.BothAtWork | src/MEISystem.cpp:66-122 | a state is reachable in which both workers are in their loops |
| ControlRuns.LatestFirst | src/MEISystem.cpp:176-197 | after any operations in turn the list holds exactly the systems whose last operation was a registration, each once, the latest first |
| ControlProgress.CorrectRun | src/MEISystem.cpp:165-201 | callers that each deal with systems of their own, and register only what is not registered, never get stuck, in every interleaving |
| ControlProgress.Progress | src/MEISystem.cpp:66-201 | as long as a caller is unfinished and none is stuck, some thread can take a step that brings the end nearer |
| ControlReturn.WorkerReturns | src/MEISystem.cpp:71-84 | however the threads are scheduled: as long as no caller is inside, a worker starts a pass within five of its own turns more than there are systems |
| ControlReturn.OwnRun | src/MEISystem.cpp:96-105 | by its own steps alone, so many at most, a worker gets its mutex back and starts a pass; it never has to wait |
| ControlReturn.CanFinish | src/MEISystem.cpp:66-201 | from every state such callers reach, a schedule exists after which all have finished and both workers start a pass |
| Registry.TypesRoundTrip | src/network.cpp:397-413 | poll types survive the Windows table always, the POSIX table exactly if both or neither of priority and out-of-band are asked for |
| Registry.QueryBits | src/network.cpp:397-403 | each kind asked for sets its bit, and no other bit is set |
| Registry.ReportedBits | src/network.cpp:404-413 | each bit reported sets its kind, whatever the platform's bits are |
| Registry.ReadNative | src/network.cpp:380-398 | the numbers for reading and writing on both platforms |
| Registry.TroubleNative | src/network.cpp:380-412 | the numbers for an error, a hang-up and a bad socket |
| Registry.NetworkQuery.Rebuild | src/network.cpp:423-437 | an invalid poll list becomes the image of the queries, a valid one is kept |
| Registry.NetworkQuery.Update | src/network.cpp:469-472 | the poll list is the image of the queries, entry by entry |
| Registry.NetworkQuery.Add | src/network.cpp:473-476 | one query more, at the end |
| Registry.NetworkQuery.Remove | src/network.cpp:477-491 | the erasing loop removes exactly the queries of the socket |
| Registry.ImageAt | src/MEISystem.cpp:176-177 | the queries are the systems in reverse, each bound to its own callback |
| Registry.ImageWithout | src/MEISystem.cpp:191-194 | removing a system from both lists keeps them each other's reverse |
| Registry.Registry.InitSystem | src/MEISystem.cpp:170-181 | registers at the front with a callback of its own and a matching query, or reports -1 without a change |
| Registry.Registry.DeinitSystem | src/MEISystem.cpp:188-197 | the system and its query are gone and both lists still match |
| NumberText.TableIsDigits | src/network.cpp:8-11 | the digits are those of the table, in order |
| NumberText.DigitRoundTrip | src/network.cpp:8-11 | the 64 digits are told apart |
| NumberText.LowDigitsValue | src/network.cpp:21-25 | the digits kept have the value of the number modulo radix^room |
| NumberText.TextReadsBack | src/network.cpp:13-28 | reading the text gives the number back exactly when its digits fit beside the sign |
| NumberText.NItoan | src/network.cpp:13-28 | null exactly for a null or short buffer or a bad radix; an overflow exactly for the least integer; else the text and its end are stored in bounds and nothing behind them changes |
| NumberText.PutDigits | src/network.cpp:21-25 | the shifting loop builds the digits in place, lowest first |
| NumberText.Shift | src/network.cpp:23-24 | the digits move up by one and the new one is in front |
| AddressText.OctetText | src/network.cpp:158-165 | the three-character loop prints an octet in decimal without leading zeros |
| AddressText.ToString4 | src/network.cpp:152-169 | prints four octets and the port |
| AddressText.ToString6 | src/network.cpp:170-183 | prints eight groups in brackets and the port |
| AddressText.Ip4 | src/network.cpp:219-241 | the in-place loop is the section scanner, which wraps at 256 and stops after four sections |
| AddressText.Ip4RoundTrip | src/network.cpp:146-241 | for every IPv4 address and port, what is printed is parsed to the same address |
| AddressText.Ip4Sections | src/network.cpp:219-241 | a text of up to four numbers and nothing behind them sets exactly so many octets, each modulo 256, and keeps the others |
| AddressText.Ip4Plain | src/network.cpp:219-241 | the plain dotted text of every address gives the address |
| AddressText.PortReadsBack | src/network.cpp:167-181 | the number behind the last colon of a printed address is its port |
| AddressText.Loopback | src/network.cpp:152-169 | an IPv4 address in full |
| AddressText.Documentation | src/network.cpp:170-183 | an IPv6 address in full |
| AddressParse6.Ip6 | src/network.cpp:264-315 | the loop with its early return and the expansion are the group scanner |
| AddressParse6.ExpandInPlace | src/network.cpp:304-312 | the two overlapping loops move the tail to the end and fill the gap |
| AddressParse6.OverrunIff | src/network.cpp:277-303 | for every text, the store after the loop is out of bounds exactly when there is an eighth colon with at most one pair of adjacent colons up to it |
| AddressParse6.UnchangedIff | src/network.cpp:293-298 | for every text, the address is left alone exactly when a second pair of adjacent colons stands within the first eight colons |
| AddressParse6.Ip6RoundTrip | src/network.cpp:170-315 | for every IPv6 address the printed text up to the bracket is parsed to the same address |
| AddressParse6.UpperReads | src/network.cpp:279-287 | every text is read as the same text in capitals |
| AddressParse6.LongGroup | src/network.cpp:279-287 | a group of any length counts modulo 2^16 |
| AddressParse6.PrintedTextOverruns | src/network.cpp:170-303 | for every IPv6 address and port the whole printed text makes the parser write out of bounds |
| AddressParse6.DoubleColon | src/network.cpp:289-312 | what a double colon between groups becomes, and that it is right exactly when it stands for one group |
| AddressParse6.DoubleColonFirst | src/network.cpp:289-312 | what it becomes in front of groups: an overrun if it stands for one, right exactly when it stands for two |
| AddressParse6.DoubleColonLast | src/network.cpp:289-312 | the same behind groups |
| AddressParse6.DoubleColonOnly | src/network.cpp:289-312 | alone it does not give the zero address |

## Left out

- Sockets, TCP connections, name resolution, polling, time, logging: `send_to` is an answer that the
  environment chooses, and its packet enters the network (where it may be lost).
- Entropy sources and the generator's mutex: the seed bytes and the success of the sources are inputs.
- Termination of the rejection loop of `arc4random_uniform`: it is probabilistic. The loop runs over
  a given number of attempts, and the number of accepted draws is counted.
- `arc4_count` is unbounded in the model; where it would leave `int` is stated.
- MeiSystem.MeiSystem.ProcessReceive: the library's sorted table promises nothing for keys that its
  order does not order. A lookup requires that the peer does not cross any other in the table; for
  IPv4 that always holds. Received addresses have type and protocol zero, and no flow label.
- The handshake assumes that a session id is not in use at the system that draws it, that a
  `MEISocket` is connected once, that users send no control packets, and that only clients send
  data: a session made for a request is never handed to a user. That receiving, ticking and
  connecting are single steps is an assumption too: no mutex keeps the two workers apart.
- A connection lives as long as its system; the weak references of `mis` never expire.
- Fields that the source leaves uninitialized (`rsess`, `rseq`, `rseqh`) start at zero.
- Words in packets are stored least significant byte first, the order of the supported machines.
- The five words of the SHA-1 state are a record, and its bit fields and shifts in packets are
  arithmetic on ranges of the integers.
- Hash types other than SHA-1, and `tohex`: not implemented in the source.
- NumberText.NItoan: says nothing of the buffer when the negation overflows; the shift of the digits
  is the intended one, since the order of evaluation in the source's expression depends on the C++
  version.
- Frames.BatchReadBack: behind a block of a single byte the walk goes on at a place that depends on
  what follows; only its length field is stated.
- Control.BoundedBypass: speaks of each worker, not of other callers, which a mutex may let pass first.
- ControlReturn.CanFinish: for callers that each deal with systems of their own. It gives a schedule;
  that every fair one ends would need a fair mutex.
- The workers' shutdown and the destructor of `IMEIControl`. A worker's pass goes over the registered
  systems, which stand for the poll list in the receiving worker.
- A caller that returned with both locks makes no further calls; it could only wait for itself.
- The socket of a system goes by the name of the system, of which it is a part.
- `MEIP.md`, connection states, `Enter`, `EnterW`, `MEISocket::recv`: not used by the code.
