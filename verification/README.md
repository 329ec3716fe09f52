# Ruvchain: verified models of the DNS codec, the blockchain and the name answers

This project models the parts of a blockchain-backed DNS node whose correctness depends on state
spread over many steps, and proves what those parts promise each other.

- **The DNS wire codec** (RFC 1035, sections 4.1.1 to 4.1.4). Names are compressed through a table of
  suffixes, record lengths are patched in after the data, and a packet is measured in a dry run before
  it is written. `NameCodec` gives the meaning of bytes read as a name and the bytes a name is written
  as, `NameLimits` where the round trip and termination end; `Layout` does the same for any interleaving of
  names and plain bytes; `Utf8` is the reading of bytes as text; `Records`, `Packets`,
  `Messages` and `Authority` build records, packets and zone files from that. `WireFormat` and
  `WireMessages` say what stands at each position of what is written, `WireReading` what is made of any
  bytes, `Utf8Scalars` what text is, all in numbers. `PacketBuffers`,
  `RecordIO` and `PacketIO` hold the buffer and packet objects whose loops are proved against those
  functions, for the in-memory and the lazily filled stream buffer alike.
- **The chain** is a state machine. `Blocks` holds difficulty and fork choice, `ChainSpec` the judgement
  of a block and the two changes to the tables, `ChainInvariant` what every change keeps, `Signers`
  and `SignerSearch` the search for signers, `NodeSpec` a node's steps, `GoodRuns` what holds between the
  blocks of a chain grown by Good appends, `StartupCheck` and `Recheck` the check made at start-up,
  `NodeRuns` whole runs with restarts, `Timestamps` and `Ownership` what forks do to both, `Witnesses` the
  runs that show what can go wrong. `HashBits`, `SignerRules`, `Verdicts` and `CheckedChains` state
  difficulty, signers, each verdict and the start-up check on the fields of blocks and chain, `StoredBlocks`
  what is true of every stored block, `EarlyBlocks` and `ArrivalOrder` what becomes of blocks that come too
  early. `Chains` and `Networks` hold the objects, updated in place, with the
  signer memo and the cached blocks.
- **The resolver's cache** (`CacheSpec`, `CacheAnswers`, `Caches`) is proved against a log of the operations made on it.
- **The name answers** (`FilterSpec`, `FilterAnswers`, `Filter`) are proved against stored records, although the program
  renames those in place while it searches them.

How the parts are connected: specification functions (`EncName`, `ReadName`, `Encode`, `EncRecord`,
`ReadRecord`, `ReadPacket`, `Check`, `SignersOf`, `Handle`, `CheckChain`, `Replay`, `Response`, ...)
say what the code computes; the methods in the table are proved equal to them; the lemmas in the table
say what the functions mean, down to statements that use none of them: bytes at offsets, bits of hashes,
fields of blocks, rows and records, and the numbers of the standards.

## Findings

Properties one might expect that the code does not have, each with its exact condition proved; the lemmas
of `Witnesses` are whole runs that show them:

- A name reads back from a fresh buffer exactly when each of its labels has 1 to 63 bytes; the root name
  writes one byte too many, and the length of a label of 64 bytes reads as a pointer
  (`FreshNameReadsBack`, `RootNameLosesAByte`, `LongLabelIsAPointer`).
- A pointer is right exactly when it leads below offset 0x4000 (`PointerTarget`). Round trips are proved
  for buffers of any size whose pointers do; that covers all of up to 0x4000 bytes (`OutputWithin`,
  `SmallFileInReach`). Beyond, a name reads back exactly when its suffix happens to be spelt where the
  fourteen bits lead (`NameReadsBackExactly`; `FarNameMisreads`).
- A reader given arbitrary bytes never returns exactly when it comes twice to one position
  (`DivergesMeansRevisits`, `SelfPointerDiverges`).
- TXT data never reads back equal: the length byte comes back as data, or as a replacement character if
  it is 128 or more (`ReadbackIsExact`, `TxtComesBack`). A packet or a zone with an UNKNOWN record cannot
  be read back, because such a record is counted but not written (`PacketRoundTrip`, `ZoneRoundTrip`). A header loses an opcode of 16 or more (`HeaderRoundTrip`).
- A block of index 0 can be judged Good: in a release build `block.index - 1` wraps, nothing is found
  there, and the block is not above the tip. A Good block keeps the chain sound exactly when its index is
  not 0, and the id 0 never leaves the tables again (`GoodKeepsSoundExactly`, `HandleKeepsExactly`,
  `RunKeepsExactly`; `BrokenByZero`). A second one can delete the whole chain (`DeletedByZeros`).
- Timestamps can fall along the chain. `replace_block` compares none, and `check_block` only those of blocks
  above the tip, so they keep rising exactly unless a winning Fork is earlier than the block below it
  (`ReplaceRises`, `HandleRisesExactly`; `FallingTimestamps`).
- A full block and a signing block can each be better than the other (`BetterBothWays`).
- After `replace_block` (`ReplaceFreshness`, `ForkFreshness`; `StaleAfterFork`) and after the start-up
  check (`CheckFreshness`; `StaleAfterRestart`) the cached last full block can be one that was deleted.
- The signer search returns exactly when seven distinct eligible keys stand at the ids it probes, which the
  first 2 * 2^64 probes decide (`ReturnsExactly`, `ReturnsWithin`). It does not with fewer than
  seven such keys, nor with a signature whose tail is zero (`TooFewCandidates`, `ZeroTailNeverReturns`).
- Ownership of an identity is not checked against the row of the block just below, which is exactly the
  distance at which `OwnershipPasses` and `OwnershipSurvives` stop (`AdjacentRowIsIgnored`; `AdjacentTakeover`).
- Consecutive blocks that arrive out of order do not always all reach the chain: on reaching the height a node has
  heard of it forgets the blocks that wait. They do in every order exactly when that height does not lie
  between the node's own and that of the last block but one (`AnyOrderExactly`).
- The start-up check panics on a chain of Good blocks exactly when it starts from a first block that is not
  the configured origin; with none configured such chains are accepted (`GoodRunPasses`;
  `PanicsWithoutOrigin`).

## Modelling choices

- Text is the bytes of its UTF-8 encoding; lower-casing acts on ASCII letters. TXT and OPT data are
  decoded as text with replacement characters (`Utf8`).
- Unsigned integers have their width, and arithmetic on them wraps as in a release build.
- Tables are maps from id to row; a query is the function its SQL text describes.
- Hashing, signatures, key strength, wrong hashes, JSON parsing of domain data and the rules on record
  contents are arbitrary predicates (`Checks`); every theorem holds for all of them.
- The clock is a parameter, read as often as the program reads it: once per block judged, once per record
  stored, three times per cache lookup. Times in the cache are nanoseconds.
- Sets iterate in arbitrary order. What the tables and caches hold is proved for every order.
- The only inputs the reading methods exclude are those on which the program never returns. The theorems
  on round trips ask for labels of 1 to 63 bytes and for pointers in reach, which is what the encoding can
  express.
- Table ids are the block indexes; a query for the id before index 0 is bound as -1 and finds nothing.

## Model

| member | source | states |
|---|---|---|
| NameCodec.SettlesEarly | src/dns/buffer.rs:103-151 | a name read from any bytes at all settles, if ever, within as many labels and jumps as there are bytes plus one, with the same result |
| NameLimits.DivergesMeansRevisits | src/dns/buffer.rs:103-151 | reading a name never ends if and only if the reader comes twice to one position, for every byte string and start |
| NameCodec.DivergesMeansEndless | src/dns/buffer.rs:103-151 | reading a name loops forever exactly when no number of steps settles it, for every byte string and position |
| NameCodec.SelfPointerDiverges | src/dns/buffer.rs:108-127 | two bytes that point at themselves make the reader loop: termination is not a property of arbitrary input |
| NameCodec.BackwardSettles | src/dns/buffer.rs:103-151 | wherever every pointer leads strictly below the run of labels it stands in, the reader terminates with the answer of the strict reader |
| NameCodec.BackwardStable | src/dns/buffer.rs:57-86 | what reads with backward pointers reads the same after anything is appended |
| NameCodec.PointerTarget | src/dns/buffer.rs:68-70 | a compression pointer leads back to the saved offset if and only if that offset is below 0x4000 |
| NameCodec.EncNameReads | src/dns/buffer.rs:57-86 | a name whose hits are readable reads back, through backward pointers only; the entries it saves decode to their keys and the old ones keep their offsets; a suffix saved during the same call is never the one hit |
| NameCodec.ReachWithin | src/dns/buffer.rs:68-70 | in a buffer of no more than 0x4000 bytes every suffix a name can point back to is in reach |
| NameCodec.NameRoundTrip | src/dns/buffer.rs:57-86 | in a buffer of any size, if the suffix the name points back to was saved below 0x4000, writing a name keeps the whole table readable, and the name reads back lower-cased from its start whatever is appended later; the reader stops just after it |
| NameLimits.EmptyLabelStops | src/dns/buffer.rs:76-83 | an empty label ends the name early for the reader, before the end of what was written |
| NameLimits.FreshNameReadsBack | src/dns/buffer.rs:57-86 | in a fresh buffer a name, any name, reads back and is consumed whole if and only if each of its labels has 1 to 63 bytes |
| NameLimits.BadNameMisreads | src/dns/buffer.rs:57-86 | a name with an empty or overlong label never reads back, whatever was written before that is longer |
| NameLimits.LongLabelIsAPointer | src/dns/buffer.rs:115-127 | the length byte of a label of 64 bytes reads as a pointer |
| NameLimits.NameReadsBackExactly | src/dns/buffer.rs:57-151 | in a buffer of any size and with any table, a name with good labels reads back and is consumed whole if and only if it ends in no pointer, or the reader, sent where the fourteen bits lead, spells the suffix there |
| NameLimits.ReachIsHit | src/dns/buffer.rs:62-74 | a name is in reach if and only if the suffix it points to, if any, was saved below 0x4000 |
| NameLimits.FarNameMisreads | src/dns/buffer.rs:62-74 | a name written twice from 0x4000 on: the second time it reads as the empty name at the start |
| NameLimits.RootNameLosesAByte | src/dns/buffer.rs:57-86 | the empty name writes two zero bytes of which the reader takes one |
| NameCodec.NameLength | src/dns/buffer.rs:57-86 | compression never takes more bytes than the labels, their lengths and the terminator |
| NameCodec.NameShift | src/dns/buffer.rs:57-86 | two buffers whose tables and positions differ by d write the same name in the same number of bytes and stay d apart |
| Names.JoinLower | src/dns/buffer.rs:134-145 | lower-casing label by label is lower-casing the name |
| WireFormat.NameBytes | src/dns/buffer.rs:57-86 | the bytes of a name: each label after its length byte, up to the first suffix that was saved, then 0xC0 plus six bits and eight bits of the saved offset, or the zero byte if none was; exactly the suffixes spelt out are saved, each with the offset it starts at |
| WireReading.NameStops | src/dns/buffer.rs:108-147 | past the end is an error, a zero byte ends the name, and a pointer or a label cut off is an error |
| WireReading.PointerStep | src/dns/buffer.rs:108-127 | a byte of 64 or more sends the reader elsewhere and leaves it two bytes on |
| WireReading.PointerLeads | src/dns/buffer.rs:120-124 | where the two bytes of a pointer lead, also with only one of the two top bits set |
| WireReading.LabelStep | src/dns/buffer.rs:128-147 | a label is lower-cased and followed by a dot unless it is the last, whatever follows it |
| WireReading.LowerBytes | src/dns/buffer.rs:139 | A to Z become a to z and every other byte stays |
| Layout.RoundTrip | src/dns/buffer.rs:57-151 | any sequence of compressed names interleaved with other bytes, in a buffer of any size whose pointers are in reach: each name reads back where it starts, each run of bytes stands unchanged, the reader stops where the writer did, and the table stays readable |
| Layout.PiecesInReach | src/dns/buffer.rs:57-86 | within 0x4000 bytes all pointers are in reach |
| Layout.EncodeAppend | src/dns/buffer.rs:57-86 | writing two sequences one after the other is writing both at once, table included |
| Layout.EncodeShift | src/dns/buffer.rs:57-86 | whole sequences of names and bytes take equal length when everything lies d bytes later |
| PacketBuffers.PacketBuffer.constructor | src/dns/buffer.rs:161-165 | an empty in-memory buffer with an empty label table |
| PacketBuffers.PacketBuffer.FromStream | src/dns/buffer.rs:228-236 | a stream buffer has read nothing and can reach every byte of its source |
| PacketBuffers.PacketBuffer.Fill | src/dns/buffer.rs:239-250 | the lazy buffer pulls bytes in until enough are there or the stream ends; buffer plus remaining stream never changes |
| PacketBuffers.PacketBuffer.Read | src/dns/buffer.rs:239-250 | the next byte of all reachable bytes, or the error exactly past their end |
| PacketBuffers.PacketBuffer.Get | src/dns/buffer.rs:252-260 | the byte at any position, lazily or not, without moving |
| PacketBuffers.PacketBuffer.GetRange | src/dns/buffer.rs:262-270 | the bytes of any range, lazily or not, without moving |
| PacketBuffers.PacketBuffer.ReadQname | src/dns/buffer.rs:103-151 | the loop of read_qname returns and leaves the position exactly as the specification of reading says, on all bytes on which it terminates |
| PacketBuffers.PacketBuffer.SetU16 | src/dns/buffer.rs:34-39 | overwrites two bytes in place and no other |
| PacketBuffers.PacketBuffer.WriteQname | src/dns/buffer.rs:57-86 | the loop of write_qname appends exactly the specified bytes and leaves exactly the specified table |
| PacketBuffers.PacketBuffer.WriteU32 | src/dns/buffer.rs:48-55 | appends the four bytes big end first |
| Records.QueryTypeReadsBack | src/dns/protocol.rs:44-76 | a query type survives its number if and only if it is not an UNKNOWN carrying a named number |
| Records.RecordRoundTrip | src/dns/protocol.rs:178-472 | every record of every type but UNKNOWN reads back from where it was written, whatever follows, with its back-patched length right, if its pointers are in reach and a length the reader counts on fits its field; the reader stops where the writer did and the table stays readable |
| Records.ReadbackIsExact | src/dns/protocol.rs:178-472 | what comes back equals what was written if and only if the names are lower-case, OPT data is valid UTF-8 and the record is not TXT |
| Records.TxtComesBack | src/dns/protocol.rs:268-277 | TXT data comes back behind its length byte, or behind a replacement character if that byte is 128 or more |
| Utf8.LossyIsExact | src/dns/protocol.rs:272-283 | bytes read as text come back as they were if and only if they are valid UTF-8 |
| Utf8.LossyIsUtf8 | src/dns/protocol.rs:272-283 | whatever the bytes, what is read as text is valid UTF-8 |
| Utf8.ByteBeforeText | src/dns/protocol.rs:268-277 | a byte put in front of text stays if it is ASCII and is replaced otherwise |
| Utf8Scalars.FirstExactly | src/dns/protocol.rs:272-283 | a character is taken if and only if the encoding of one, in the six-bit groups of RFC 3629, stands there; otherwise the longest beginning of one there is, and at least a byte |
| Utf8Scalars.TextExactly | src/dns/protocol.rs:272-283 | bytes are text if and only if they are the encodings of characters in a row, no surrogates among them |
| Utf8Scalars.LossyExactly | src/dns/protocol.rs:272-283 | each stretch that is no character becomes one U+FFFD, and the characters stay |
| Records.EncRecordIsPieces | src/dns/protocol.rs:305-472 | the patched record is the one that would be written with the right length from the start: patching moves no name |
| Records.BodyReads | src/dns/protocol.rs:190-300 | the data of each type parses back to the record that wrote it |
| RecordIO.ReadRecordFrom | src/dns/protocol.rs:178-189 | record reading over any buffer agrees with parsing its bytes, position and errors included |
| WireReading.RecordRead | src/dns/protocol.rs:178-303 | whatever record is read from whatever bytes: the name that stands there, the type its number names, and each field the number or bytes at its own offset, with the end after them |
| RecordIO.ReadDataFrom | src/dns/protocol.rs:190-303 | the same for the data of each type |
| RecordIO.WriteBody | src/dns/protocol.rs:305-472 | the data fields appended are exactly those of the type |
| RecordIO.WriteRecord | src/dns/protocol.rs:305-472 | the buffer grows by exactly the specified bytes, the length field patched after the fact to the number of data bytes; returns the number written |
| WireFormat.RecordBytes | src/dns/protocol.rs:305-472 | every record that is written, byte by byte: owner (one zero byte for OPT), the type number of its RFC, class 1 (for OPT the payload size), TTL (for OPT the flags), the number of data bytes that follow, and the data |
| WireFormat.DataBytes | src/dns/protocol.rs:305-472 | the data of each type with every field at its own offset: addresses, priorities, weight, port, names, serial to minimum, the TXT length byte, the TLSA bytes |
| RecordIO.AnnouncedIsLength | src/dns/protocol.rs:305-472 | the lengths announced up front for A, AAAA, TXT, TLSA and OPT are the lengths of their data |
| Packets.HeaderRoundTrip | src/dns/protocol.rs:628-684 | a header reads back field by field if and only if its opcode is below 16 |
| WireMessages.HeaderBytes | src/dns/protocol.rs:628-653 | the twelve bytes of a header: id, each flag in its own bit of the two flag bytes, four bits of opcode, the number of the response code, and the four counts in order |
| WireMessages.FlagBytes | src/dns/protocol.rs:631-646 | each bit of the two flag bytes, and the six response codes by number |
| WireReading.HeaderRead | src/dns/protocol.rs:659-684 | any twelve bytes are read as a header, bit by bit; fewer are an error; an unknown code is no error |
| Packets.BinaryLenIsLength | src/dns/protocol.rs:725-727 | binary_len of a question is the length of its name written without compression |
| Packets.QuestionsRead | src/dns/protocol.rs:739-745 | questions read back in order, names lower-cased, stopping where they stop |
| WireMessages.QuestionBytes | src/dns/protocol.rs:729-737 | a question: its name, the number of its type, and class 1 |
| WireReading.QuestionRead | src/dns/protocol.rs:739-745 | a question is read from any bytes as a name, a type number and two bytes passed over |
| Packets.RecordsRoundTrip | src/dns/protocol.rs:777-801 | a row of records reads back without its UNKNOWN ones, which write nothing |
| Messages.RecordShift | src/dns/protocol.rs:940-979 | a record takes as many bytes d positions later |
| Messages.DryRunIsExact | src/dns/protocol.rs:940-979 | any number of records takes exactly as many bytes in the header-less dry run as in the real one |
| Messages.FittingIsGreatest | src/dns/protocol.rs:949-968 | the records kept fit the limit and one more would not |
| Messages.Truncation | src/dns/protocol.rs:940-979 | output length is at most the larger of the limit and 12 plus the questions' binary_len, plus 4 bytes a question; the truncation flag is set exactly when a record was dropped; a record is dropped only when it does not fit |
| WireMessages.MessageBytes | src/dns/protocol.rs:940-979 | a message as it is sent: id, flags with the truncation bit, the counts of what follows as shares of the records kept, the questions, and the records kept, answers before authorities before the rest |
| WireMessages.KeptIsGreatest | src/dns/protocol.rs:940-979 | the records kept are the most that fit with twelve bytes of header, the names of the questions at full length, and the records as written |
| WireMessages.RowBytes | src/dns/protocol.rs:974-976 | each record stands right after those before it, with the table of suffixes they left |
| Messages.PacketRoundTrip | src/dns/protocol.rs:777-801 | parsing what was written, its pointers being in reach, gives the final header, the questions and exactly the records kept, each in its section, consuming every byte, if and only if none of them is UNKNOWN; otherwise parsing runs off the end |
| Messages.OutputWithin | src/dns/protocol.rs:940-979 | the pointers of an output of no more than 0x4000 bytes are in reach |
| Messages.PlainPacketRoundTrip | src/dns/protocol.rs:777-801 | with lower-case names and no TXT or UNKNOWN the kept records come back equal, and a message that fits comes back whole |
| PacketIO.ReadHeaderFrom | src/dns/protocol.rs:659-684 | header reading over any buffer agrees with parsing its bytes |
| PacketIO.DnsPacket.FromBuffer | src/dns/protocol.rs:777-801 | packet parsing over either buffer agrees with parsing its bytes |
| PacketIO.DnsPacket.DryRun | src/dns/protocol.rs:943-968 | the measuring loop finds exactly the number of records that fit and counts each in the header counter of its section |
| PacketIO.DnsPacket.Write | src/dns/protocol.rs:940-979 | appends header, questions and the kept prefix of all records, and leaves the final header |
| PacketIO.WireTrip | src/dns/protocol.rs:989-1028 | writing any sendable packet, rewinding and parsing gives back its kept part, through the buffer code itself |
| Authority.SaveZone | src/dns/authority.rs:120-150 | the file written for a zone, in whatever order the set of records is visited |
| WireMessages.ZoneBytes | src/dns/authority.rs:132-147 | a zone file: three names, then serial, refresh, retry, expire, minimum and record count in four bytes each, then the records |
| Authority.LoadZone | src/dns/authority.rs:73-117 | loading over the lazily filled stream agrees with parsing all the bytes |
| Authority.ZoneRoundTrip | src/dns/authority.rs:93-147 | a zone whose file has its pointers in reach, whatever its size, loads back as itself, names lower-cased, whatever the order of its records, if and only if it holds no UNKNOWN record |
| Authority.SmallFileInReach | src/dns/authority.rs:120-150 | a saved file of no more than 0x4000 bytes has its pointers in reach |
| Authority.Zones.Load | src/dns/authority.rs:73-117 | files are loaded in turn up to the first unreadable one, and what was loaded stays |
| Authority.Zones.Save | src/dns/authority.rs:120-150 | every zone is written to the file of its own name |
| Authority.ZonesRoundTrip | src/dns/authority.rs:73-150 | saving zones and loading the files in any order gives back the zones |
| Blocks.LeadingZerosMean | src/blockchain/hash_utils.rs:79-85 | the count of leading zeros places the hash between two powers of two |
| Blocks.TrailingZerosMean | src/blockchain/hash_utils.rs:69-77 | the count of trailing zeros is the exact power of two in the tail |
| Blocks.HashDifficulty | src/blockchain/hash_utils.rs:69-77 | difficulty never exceeds 128 |
| HashBits.KeyHashCountsBits | src/blockchain/hash_utils.rs:79-84 | the first d bits of the hash, most significant first, are zero and the next is one |
| HashBits.HashCountsBits | src/blockchain/hash_utils.rs:69-77 | for any hash that starts with exactly d zero bits and ends with exactly e (of 64 each) the difficulty is d + e |
| HashBits.TailIsSum | src/bytes.rs:65-69 | the tail of a byte string is the sum of its last eight bytes times 256^7 to 256^0 |
| HashBits.ForkChoice | src/blockchain/block.rs:101-119 | which block wins, by kind, zero bits of the hashes, their last eight bytes modulo 0xFFFF, and the nonce |
| Blocks.RankIsLexicographic | src/blockchain/block.rs:101-119 | difficulty and tail packed into one 32-bit number compare as a pair: the halves do not interfere and nothing overflows |
| Blocks.StrictWeakOrder | src/blockchain/block.rs:101-119 | among blocks of one kind the order is irreflexive and transitive, and incomparable means tied |
| Blocks.BetterBothWays | src/blockchain/block.rs:101-119 | two blocks are each better than the other if and only if one is full, the other signing, and the signing one has the better hash |
| Blocks.WinnerIsMaximal | src/p2p/network.rs:709-722 | replacing by the better block leaves a contestant that no other beats |
| Blocks.WinnerIsOrderFree | src/p2p/network.rs:709-722 | without ties the same block wins in every order of arrival |
| ChainInvariant.ScreenedClass | src/blockchain/chain.rs:1001-1018 | a block that passes the difficulty check has a known transaction class and data that parses |
| ChainInvariant.GoodOrForkFits | src/blockchain/chain.rs:809-956 | a Good block of index 1 or more is the next one and names the tip; a Fork block contests a stored block of another hash and names that one's predecessor |
| ChainInvariant.IndexZeroIsGood | src/blockchain/chain.rs:855-856 | a block of index 0 that passes the first checks is judged Good by every chain that has blocks |
| ChainInvariant.IndexZeroBreaks | src/blockchain/chain.rs:252-261 | adding it makes a tip of height 0 and breaks the links |
| ChainInvariant.GoodKeepsSoundExactly | src/blockchain/chain.rs:809-956 | a Good block keeps the chain sound, and its links, if and only if its index is not 0 |
| ChainInvariant.AddKeepsSound | src/blockchain/chain.rs:252-273 | appending keeps ids 1..height, the hash links, the tip and the projection onto the domains table |
| ChainInvariant.ReplaceKeepsSound | src/blockchain/chain.rs:275-281 | so does replacing, at any stored index |
| ChainInvariant.CacheEqualsScan | src/blockchain/chain.rs:446-488 | while the cached full block is the chain's last, the fast path answers every query, bound and key, as the plain scan |
| ChainInvariant.AddKeepsFresh | src/blockchain/chain.rs:252-273 | appending keeps the cached full block the chain's last |
| ChainInvariant.ReplaceFreshness | src/blockchain/chain.rs:275-281 | replacing keeps it so if and only if the new block is full or the cached one lies below the cut |
| NodeSpec.ForkFreshness | src/p2p/network.rs:707-716 | handling a Fork keeps it so if and only if nothing is replaced, or the new block is full, or the cached one lies below it |
| EarlyBlocks.FutureWaits | src/p2p/network.rs:691-694 | a block that comes too early waits under its index; nothing else changes |
| EarlyBlocks.Refusals | src/p2p/network.rs:690-708 | Twin changes nothing; Rewind changes nothing and asks for the parent; Bad bans the sender and sets the announced height to the node's own exactly if the block was to be the next |
| EarlyBlocks.ForkSettles | src/p2p/network.rs:709-723 | a Fork replaces the stored block and all above it if it is better, or contests the tip of a node four behind; otherwise nothing changes and the stored block is sent |
| EarlyBlocks.GoodStays | src/p2p/network.rs:662-683 | a Good block is stored with all that was there; above it stand waiting blocks only, and the next one does not wait any more |
| EarlyBlocks.WaitingBlocks | src/p2p/network.rs:662-694 | a waiting block goes on waiting, is replaced, is stored, is dropped as the next one and not Good, or is forgotten at the announced height; nothing else comes to wait |
| EarlyBlocks.DrainTakes | src/p2p/network.rs:666-676 | draining stores the waiting blocks in a row up to the first that is missing or not Good, and leaves all others |
| ArrivalOrder.AnyOrder | src/p2p/network.rs:652-694 | consecutive blocks, each Good in its turn, lead a node to the same state in every order of arrival, whatever the clocks |
| ArrivalOrder.AnyOrderExactly | src/p2p/network.rs:652-694 | they do so if and only if the height the node has heard of does not lie between its own and that of the last block but one |
| Signers.SevenSigners | src/blockchain/chain.rs:1036-1083 | a search that returns yields seven distinct keys, none the owner's, each with a block below and the minimum count |
| SignerRules.SignersExactly | src/blockchain/chain.rs:1036-1083 | the signers are exactly the keys found at the ids of the first n probes, other than the owner's, with at least a hundredth of the blocks below (one up to block 854); there are seven, all different |
| SignerRules.ProbesAt | src/blockchain/chain.rs:1058-1078 | probe j looks at tail * (j + 1) modulo 2^64, modulo the window, plus 1; the tail is the last eight bytes of the signature, divided by 13 once changed, and never changed in the first 5000 probes |
| SignerRules.TailIs | src/blockchain/chain.rs:1074-1078 | the tail is divided by 13 once, at the first probe that leaves the counter past 5000 and finds no key with too few blocks |
| SignerRules.NoSigners | src/blockchain/chain.rs:1043-1045 | below index 35 and above the tip there are no signers |
| Signers.SignersAre | src/blockchain/chain.rs:1056-1078 | the result does not depend on how many probes are allowed |
| SignerSearch.ReturnsExactly | src/blockchain/chain.rs:1056-1078 | the search returns if and only if among the ids it probes stand seven distinct keys that may sign |
| SignerSearch.FoundIsMet | src/blockchain/chain.rs:1056-1078 | the keys found after any number of probes are exactly the eligible ones standing at the ids probed |
| SignerSearch.ReturnsWithin | src/blockchain/chain.rs:1056-1078 | it can be told in advance: the search returns if and only if those seven stand among the first 2 * 2^64 probes, after which it only goes around; the counter wraps as the program's does |
| SignerSearch.ZeroTailNeverReturns | src/blockchain/chain.rs:1056-1078 | with a signature whose tail is zero the search never returns, however many keys there are |
| SignerSearch.TooFewCandidates | src/blockchain/chain.rs:1056-1078 | with fewer than seven eligible keys it never returns, wherever they stand |
| Signers.SignersLocal | src/blockchain/chain.rs:1036-1083 | the signers are a function of the chain below the block and of its index, key and signature |
| NodeSpec.DrainKeeps | src/p2p/network.rs:666-676 | draining early blocks ends, keeps the chain sound, changes nothing below, only removes held-back blocks, and adds no more than it removes |
| NodeSpec.HandleKeepsExactly | src/p2p/network.rs:652-724 | a received block leaves the node's invariant in place if and only if it is not a block of index 0 judged Good |
| NodeSpec.StrandedDrains | src/p2p/network.rs:666-676 | after such a block nothing that waits can be added any more |
| NodeSpec.ForkFindsOurBlock | src/p2p/network.rs:707-716 | the contested block is always there: the unwrap cannot fail |
| NodeRuns.RunKeepsExactly | src/p2p/network.rs:652-724 | in the final state of every run from the empty chain, of received, mined and announced blocks and restarts in any order, the node is in order if and only if no event put a block of index 0 into the chain; in order: ids are 1..height, links hold, the tip is the top, domains mirror the domain blocks, no class is unknown, early blocks are filed under their index |
| StoredBlocks.RunIsVetted | src/blockchain/chain.rs:809-907 | in every run whatever, index 0 included, every stored block has version 1 or less, no blacklisted hash, a hash and a signature that check and the zero bits it announces; every full block has a strong key and allowed records, and its class is known |
| StoredBlocks.RunKeepsRows | src/blockchain/chain.rs:252-273 | in every run without a block of index 0 the domain rows are those of the stored domain blocks, field by field, an empty signing key replaced by the block's own |
| StoredBlocks.OtherEvents | src/blockchain/chain.rs:796-802 | mined blocks, announced heights and restarts change what they should and nothing else |
| NodeRuns.StepKeepsZeroed | src/p2p/network.rs:652-724 | a block of index 0, once stored, never leaves the tables again |
| NodeRuns.RunKeeps | src/p2p/network.rs:652-724 | so every run whose received and mined blocks have index 1 or more leaves the node in order |
| Timestamps.AddRises | src/blockchain/chain.rs:252-273 | appending keeps timestamps rising if and only if the block is not earlier than the tip |
| Timestamps.ReplaceRises | src/blockchain/chain.rs:275-281 | replacing keeps them rising if and only if the block is the first, or not earlier than the one below it |
| Timestamps.ForkIgnoresTimestamps | src/blockchain/chain.rs:919-922 | a Fork verdict does not depend on the timestamp of the tip |
| Timestamps.HandleRisesExactly | src/p2p/network.rs:652-724 | handling a block of index 1 or more keeps timestamps rising if and only if it is not a winning Fork earlier than the block below it |
| Ownership.RunIsRightful | src/p2p/network.rs:652-724 | in every run, forks and restarts included, whose clocks stay at or below a time, every stored full block may carry its identity at that time by the rows below it |
| Ownership.OwnershipSurvives | src/blockchain/chain.rs:532-546 | so of two stored blocks of an identity more than one apart the later is by the signing key of the earlier row, or that time is past lifetime and renewal period |
| NodeRuns.StepKeeps | src/p2p/network.rs:652-724 | each event keeps that and brings at most one block more |
| NodeSpec.TipWinsContest | src/p2p/network.rs:707-716 | a run of forks of the tip leaves the winner of the contest as the tip |
| GoodRuns.BuiltIs | src/blockchain/chain.rs:252-273 | a chain of Good appends holds exactly its blocks, in order, with fresh caches |
| GoodRuns.TimestampsRise | src/blockchain/chain.rs:919-922 | timestamps never decrease along a run of Good appends |
| GoodRuns.NewIdentityWaits | src/blockchain/chain.rs:518-529 | a full block with a new identity comes at least 86400 seconds after every earlier full block by its key |
| GoodRuns.OwnershipPasses | src/blockchain/chain.rs:532-546 | two successive rows of an identity more than one block apart: the later is by the signing key of the earlier, or the clock was past lifetime and renewal period |
| GoodRuns.AdjacentRowIsIgnored | src/blockchain/chain.rs:872-877 | the row of the block just below is never looked at, so adjacent rows escape the rule |
| Witnesses.AdjacentTakeover | src/blockchain/chain.rs:872-877 | three Good blocks in which an identity passes at once to a key its owner never named |
| Witnesses.StaleAfterFork | src/blockchain/chain.rs:275-281 | a run that ends with a cached full block that was replaced |
| Witnesses.StaleAfterRestart | src/blockchain/chain.rs:103-178 | a run that ends with a cached full block the start-up check deleted |
| Witnesses.BrokenByZero | src/blockchain/chain.rs:855-856 | a run that a block of index 0 breaks |
| Witnesses.DeletedByZeros | src/p2p/network.rs:707-716 | a run in which a second block of index 0 deletes the whole chain |
| Witnesses.FallingTimestamps | src/blockchain/chain.rs:919-922 | a run after which a stored block is earlier than the one below it |
| Witnesses.PanicsWithoutOrigin | src/blockchain/chain.rs:131-137 | a Good chain on which the start-up check panics |
| GoodRuns.SigningBlocks | src/blockchain/chain.rs:959-999 | the up to seven signing blocks above a full block are by its computed signers, not its owner, pairwise distinct |
| StartupCheck.OpenedIsFresh | src/blockchain/chain.rs:80-101 | opening the tables of a sound chain restores both caches exactly |
| StartupCheck.CheckFromCuts | src/blockchain/chain.rs:124-174 | how the start-up loop ends, whole: a panic at a foreign first block, no end where a judgement has none, and otherwise a cut at the first stored id that is not found Good, having noted the last full block passed, the first block excepted |
| StartupCheck.FirstFailingMeans | src/blockchain/chain.rs:124-174 | that id fails, and all before it are found Good |
| StartupCheck.Audited | src/blockchain/chain.rs:103-178 | the outcome of the whole check of a sound chain |
| CheckedChains.CheckedExactly | src/blockchain/chain.rs:103-178 | after the check every block it looked at is the origin or judged Good over the block below it, and the block that stood above the new tip is not; it panics only over a foreign first block |
| CheckedChains.LooksAt | src/blockchain/chain.rs:103-130 | the check visits the last count blocks, or all, each with the block and the last full block below it; only the genesis block is overlooked as that, in a full check |
| StartupCheck.CheckKeepsSound | src/blockchain/chain.rs:103-178 | whatever the start-up check decides, a sound chain is left: the stored one below the first block that fails |
| StartupCheck.CheckFreshness | src/blockchain/chain.rs:103-178 | afterwards the cached full block is the chain's last if and only if the old one lies below the first stored id that fails, or a full block after the first stands before that id among those checked: the reload asks the stale cache |
| Recheck.GoodLater | src/blockchain/chain.rs:809-956 | a block once Good is Good again where it stands, in any longer chain and at any later time |
| Recheck.DiscountGrows | src/blockchain/chain.rs:1020-1033 | a longer chain never lowers the discount of a stored block, which is at most 8 |
| Recheck.GoodRunPasses | src/blockchain/chain.rs:103-178 | a chain of Good appends passes the start-up check untouched over any number of last blocks, except that a check from block 1 panics if the genesis hash is not the configured origin |
| Recheck.RestartIsExact | src/blockchain/chain.rs:80-178 | closing and reopening such a chain, with the check, changes nothing |
| Chains.Chain.GetLastFullBlock | src/blockchain/chain.rs:446-488 | answers as specified, and while the cache is fresh as the plain scan |
| Chains.Chain.GetBlockSigners | src/blockchain/chain.rs:1036-1083 | the memo or the probing loop returns exactly the signers of the specification and leaves a right memo |
| Chains.Chain.IsGoodSignerForBlock | src/blockchain/chain.rs:983-999 | right verdict, and every block it expects in the tables is there |
| Chains.Chain.IsGoodSignBlock | src/blockchain/chain.rs:959-981 | right verdict in all branches |
| Chains.Chain.CheckBlockAgainst | src/blockchain/chain.rs:809-956 | the early returns of check_block give the specified judgement, for every block, index 0 included |
| Verdicts.VerdictsExactly | src/blockchain/chain.rs:809-956 | each of the six verdicts, and no verdict, if and only if the tests on the block's and the chain's fields came out so: version, blacklist, date, place, work, parent, entitlement, signer, fork |
| Verdicts.ScreenMeans | src/blockchain/chain.rs:810-907 | which test failed when a block is refused before its place is looked at |
| Verdicts.EntitledExactly | src/blockchain/chain.rs:868-907 | a full block passes if and only if its key is strong, its records are allowed, it may carry its identity and it may be mined now |
| Verdicts.CarriesExactly | src/blockchain/chain.rs:532-546 | an identity is available if and only if its latest row below names the key or expired 395 days ago or more |
| Verdicts.MinesExactly | src/blockchain/chain.rs:518-530 | a block may be mined if and only if its identity has a row below, or no full block of the key is younger than a day |
| Verdicts.LastByKeyExactly | src/blockchain/chain.rs:446-488 | the last full block before an id, by a key or any: the cached one if it lies there, else the stored one of greatest index |
| Verdicts.NeededFixed | src/blockchain/chain.rs:828-837 | the difficulty a signing, an origin and an unusable block need: 28, 16, 28 and one no hash has |
| Verdicts.NeededForDomain | src/blockchain/chain.rs:1001-1034 | the difficulty a domain block needs, by the age of the identity's latest row in weeks and the height of the chain |
| Verdicts.SignsExactly | src/blockchain/chain.rs:959-999 | from index 36 on, fewer than seven blocks above the last full block must be by a signer of it that has not signed yet |
| StoredBlocks.JudgedVetted | src/blockchain/chain.rs:809-907 | a block judged Good or Fork passed every test that does not depend on the chain |
| Chains.Chain.CheckNewBlock | src/blockchain/chain.rs:804-806 | the judgement over the tip, changing only the memo, which stays right |
| Chains.Chain.AddBlock | src/blockchain/chain.rs:252-273 | tables and caches after add_block; on top of a sound chain everything kept holds again, the memo included |
| Chains.Chain.ReplaceBlock | src/blockchain/chain.rs:275-281 | tables and caches after replace_block, sound again and no stale memo |
| StoredBlocks.AddsExactly | src/blockchain/chain.rs:252-273 | what adding changes in tables and caches, row by row and field by field |
| StoredBlocks.ReplacesExactly | src/blockchain/chain.rs:275-281 | what replacing leaves in both tables and in the caches |
| Chains.AddKeepsMemo | src/blockchain/chain.rs:1101-1120 | appends never make the memoised signers stale |
| Chains.Chain.constructor | src/blockchain/chain.rs:69-101 | opens stored tables with the specified caches and an empty memo |
| Chains.Chain.CheckChain | src/blockchain/chain.rs:103-178 | the in-place start-up check does what its specification says and leaves a valid chain |
| Networks.Network.HandleBlock | src/p2p/network.rs:652-724 | the in-place step on chain, early blocks and seen hashes equals the state machine's step for every block, and keeps the invariant unless the block has index 0 and is judged Good |
| Networks.Network.DrainFuture | src/p2p/network.rs:666-676 | the drain loop removes and adds exactly as specified |
| CacheSpec.LatestStoreMeans | src/dns/cache.rs:74-94 | the latest store time of a record, in terms of positions in the log: no later store of it and no later denial |
| CacheSpec.ReplayAgrees | src/dns/cache.rs:66-94 | for every name and type the tables hold exactly what the log says: nothing, the last denial, or the records with their latest store times |
| CacheSpec.TablesRefineLog | src/dns/cache.rs:96-157 | tables answer as the log: live records exactly, denial exactly when the last operation is an unexpired one, otherwise nothing |
| CacheAnswers.LiveExactly | src/dns/cache.rs:74-157 | a record is answered if and only if it was stored, at most its TTL in seconds ago, and since then neither stored again nor denied |
| CacheAnswers.StandsExactly | src/dns/cache.rs:66-133 | a denial is answered if and only if it was made at most its TTL ago and nothing of that name and type was stored or denied since |
| Caches.DomainEntry.StoreRecord | src/dns/cache.rs:74-94 | storing a record again renews its time |
| Caches.DomainEntry.GetCacheState | src/dns/cache.rs:96-133 | the counting loop finds the state of the entry |
| Caches.DomainEntry.FillQueryresult | src/dns/cache.rs:135-157 | appends each unexpired record once, in any order |
| Caches.Cache.Lookup | src/dns/cache.rs:186-203 | misses, denies or answers with exactly the live records and NS authorities of the log, at the times the clock was read |
| Caches.Cache.Store | src/dns/cache.rs:205-221 | extends the log by one store per record and keeps the tables in step with it |
| Caches.Cache.StoreNxdomain | src/dns/cache.rs:223-233 | extends the log by one denial and keeps the tables in step with it |
| FilterSpec.AnswersMean | src/blockchain/filter.rs:200-262 | each answer has the asked type or is an alias, comes from a stored record about the name or from a wildcard, and unless PTR is owned by the name asked |
| FilterSpec.WildcardsAreLast | src/blockchain/filter.rs:233-262 | wildcards are used if and only if no stored record about the name answers |
| FilterSpec.NameErrorExactly | src/blockchain/filter.rs:236-271 | NXDOMAIN if and only if there is a subdomain, nothing stored is owned by it or by the wildcard, and nothing spells the whole name and answers |
| FilterSpec.AsksExactly | src/blockchain/filter.rs:88-140 | other servers are asked if and only if a stored address is glued to a server the domain names for itself |
| FilterSpec.ResponseMeans | src/blockchain/filter.rs:144-271 | without glue the lookup answers with authority, owners are the name asked, and NXDOMAIN stands for exactly the unknown names |
| FilterSpec.NameIsSubAndTop | src/blockchain/filter.rs:145-167 | subdomain and top domain make up the name |
| FilterAnswers.LabelsExactly | src/blockchain/filter.rs:145-167 | labels hold no dot and make up the name |
| FilterAnswers.ZoneItself | src/blockchain/filter.rs:39-45 | a name of one label is answered, by the zone's SOA record alone, if and only if it is one of the node's zones |
| FilterAnswers.NothingStored | src/blockchain/filter.rs:171-192 | an absent domain is denied with authority, NXDOMAIN, the question and the zone's SOA record if and only if the zone is the node's own; data that do not parse are not answered |
| FilterAnswers.GlueAsks | src/blockchain/filter.rs:88-140 | a glued address makes the lookup return what the servers say, each server as often as it is named and glued |
| FilterAnswers.ServersExactly | src/blockchain/filter.rs:105-130 | each address is asked once for every pair of a server record and an address record that fit |
| FilterAnswers.StoredAnswers | src/blockchain/filter.rs:63-86 | every field of the answer from stored records: with answers the zone's server, without any its SOA record, and the code by whether the name exists |
| FilterAnswers.AnswersChosen | src/blockchain/filter.rs:230-262 | records about the name, or else its last alias, or else wildcards |
| FilterAnswers.DirectOne | src/blockchain/filter.rs:200-228 | when one stored record answers directly, by type, owner and "@", and that only its owner changes |
| FilterAnswers.DirectJoins | src/blockchain/filter.rs:200-228 | direct answers come in the order stored, none lost or doubled |
| FilterAnswers.AliasOne | src/blockchain/filter.rs:200-228 | when one stored record is an alias of the name |
| FilterAnswers.AliasJoins | src/blockchain/filter.rs:216-228 | a later alias hides an earlier one |
| FilterAnswers.WildcardsOne | src/blockchain/filter.rs:236-262 | when one stored record answers as a wildcard |
| FilterAnswers.WildcardsJoin | src/blockchain/filter.rs:236-262 | wildcard answers come in the order stored |
| Filter.SeenAfterPass | src/blockchain/filter.rs:202-228 | the comparison after renaming in place sees exactly the records that were about the name as stored |
| Filter.NothingRenamed | src/blockchain/filter.rs:202-262 | when the first pass answers nothing it has renamed nothing, so the second sees the records as stored |
| Filter.CollectDirect | src/blockchain/filter.rs:200-230 | the first pass: answers, last alias, and every record's name afterwards |
| Filter.CollectWildcards | src/blockchain/filter.rs:234-262 | the second pass: wildcard answers and whether the name is known |
| Filter.FindServers | src/blockchain/filter.rs:88-140 | the nested loops find the glued addresses with their multiplicity |
| Filter.Lookup | src/blockchain/filter.rs:144-271 | the program's lookup equals the specified response |

## Left out

- BytePacketBuffer (src/dns/buffer.rs:303-381): it never compresses and has a fixed size; only easy members.
- NameCodec.NameRoundTrip: invalid UTF-8 and non-ASCII letters in names are not modelled; the program replaces and folds them, the model keeps the bytes.
- ChainSpec.CanMine: does not model 64-bit wrap-around of signed timestamps; the program lets a timestamp near the least value wrap past the cooldown, which the model rejects. The same goes for the lifetime sums of domain rows near the greatest value.
- Debug-build overflow panics, among them the one on a block of index 0, and chains of 2^63 blocks and more, whose ids the tables would store as negative; hashes and signatures shorter than eight bytes, which make the program panic.
- File, SQL, JSON and network errors, and the failure of one file of a directory to open.
- Chains.Chain.CheckNewBlock: blocks whose judgement needs a signer search that never returns are excluded, since the program does not answer either.
- Chains.Chain.CheckChain: stated for a chain just opened, with an empty memo, which is the only place the program calls it.
- The branch of check_block that answers Future a second time and the full-block branch of is_good_sign_block: both are dead.
- get_sign_block, mining, domain listings and counters of the chain: they read the same tables and change nothing.
- Peers, handshakes, sockets, events, threads, and the random choice of peers and of the signing key.
- The inside of Blakeout, SHA-256, Ed25519, ECIES and ChaCha.
- Migration and clearing of the database on a changed origin or version.
- The shared ownership of cache entries while a listing is held: entries are taken as unshared, so an update never replaces an entry.
- The RecordSet's own copy of its query type, which nothing reads.
- A name lookup takes its context (zones, serial, stored records) at one moment; the program locks it several times.
- Authority answers (src/dns/authority.rs:190-252), the forwarding resolver, the DNS servers and the web interface.
