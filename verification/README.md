# Verified models of the storage, codec and peer layers

This project models the parts of the repository whose correctness rests on protocols rather than on
single functions, and proves what holds over all inputs and all runs. `dafny verify dfyconfig.toml`
checks everything.

| files | what they model |
|---|---|
| `FileNames`, `MetaDir`, `MetaProtocol`, `MetaRecovery`, `FileStorage` | the crash-safe meta pointer: file names, the steps of SetMeta and GetMeta on a directory, crash and recovery over whole runs, which directories survive any number of interruptions, and the storage object that performs the steps |
| `BufferShape`, `ByteBuffer` | the byte buffer: window, growth, copying cost, queue behaviour |
| `Varint`, `BatchFormat`, `BatchDecoder`, `Batch` | the write batch: varint records, side index, the decoder's loop with 64-bit arithmetic on any input |
| `Peer`, `PeerHistory`, `Server`, `ServerDiscovery`, `ServerPeers`, `Discover` | peers and server as interleaved steps over bounded channels, and what the actions of a run decide; discovery events and how the server follows them; what becomes of its peers |
| `BufferPool`, `PoolClasses`, `PoolSafety`, `PoolSizes`, `PoolCalls` | the buffer pool, one atomic action at a time; what sizes beyond 32 bits do to it; what whole calls do, alone and among others |
| `KeyRange`, `InternalKey` | prefix ranges and packed internal keys |
| `Basics` | results, bytes, integer widths |

How the source appears in the model:

- The directory is a map from names to contents. A call is the list of file-system steps it performs; an
  interrupted call leaves a *cut* of that list, where the file being written holds any prefix of its data and
  a rename or removal happens entirely or not at all. There are no other I/O errors. Contents are sequences of
  characters. `FileStorage` keeps a ghost journal, so the methods are tied to exactly those steps.
- Goroutines are step systems: a state, a set of actions with the condition under which each is enabled, and
  one step at a time in any order. A send on a bounded channel is enabled only while the channel has room.
- Go's integers are unbounded here except where width matters: int64 numbers in file names, `int(x)` and the
  wrapping sum in the batch decoder, uint32 in the pool's sizes and counters.
- Panics, closed storages and reader or writer errors are results, not preconditions. What the world outside
  decides (directory listings, reader chunks, writer answers, swarm reports) is a parameter.

Where the code departs from what it seems to promise, the code is modelled as it is, the exact condition
is proved and an input is given:

- GetMeta can be interrupted, once or several times, so that no later GetMeta succeeds.
  `MetaRecovery.RecoveryLasts` says of every directory whether some run of interruptions can do this: it
  cannot if and only if CURRENT is valid, or CURRENT is absent and the backup valid, or some valid pending file
  names a descriptor with another number and neither the chosen backup nor a torn copy of CURRENT can lead
  GetMeta to overwrite it. For a single interruption the condition is simpler
  (`MetaRecovery.RecoveryRepeatable`). `MetaRecovery.RecoveryCanLose` gives directories lost by one
  interruption, `MetaRecovery.TwoInterruptionsCanLose` and `MetaRecovery.MisreadCanLose` directories that survive
  every single interruption and not every run of them. Starting from a readable CURRENT none of this can
  happen (`MetaRecovery.ReadableForever`).
- decodeBatch checks `o+int(x)` in 64 bits, so a huge length passes. On any input it ends without a panic and
  with all its records inside the data if and only if no turn it makes wraps a length unnoticed
  (`BatchDecoder.DecodeExact`); an accepted input is tiled by its records if and only if no turn wraps one
  (`BatchDecoder.AcceptedExact`). Otherwise it may never end (`BatchDecoder.DecoderCanLoop`), report success with
  an out-of-bounds record and overlapping ones (`BatchDecoder.DecoderCanAcceptWrongly`) or panic
  (`BatchDecoder.DecoderCanPanic`).
- The server's run loop can block on its own one-slot channel. `Server.SelfBlockedWhen` says exactly which
  step causes it, `Server.SelfBlockedStays` that it is permanent, `Server.SelfBlockedReachable` that it occurs.
- GetMeta's comment speaks of `CURRENT.[0-9]+`; the code takes any name `strconv.ParseInt` accepts, signs
  included (`MetaDir.NegativeNumberUsed`), and then looks at the canonically numbered file only
  (`MetaDir.NonCanonicalIgnored`, with `MetaDir.LeadingZeros` as an instance). The interface comment promises
  `ErrNotExist` for a missing descriptor; the code returns a corruption error instead if and only if a file it
  tried is corrupted (`MetaDir.GetMetaExact`, with `MetaDir.CorruptionReported` as an instance).
- The pool keeps its adaptive sizes in 32 bits. Get(n) panics in some run if and only if n is 2^32 or more and
  not in class 0, the fast path (`PoolSizes.PanicExact`): on a new pool the first Get(n) does if n is a multiple
  of 2^32 (`PoolSizes.FirstGetPanics`), otherwise the second (`PoolSizes.SecondGetPanics`). The adaptive sizes a
  class can come to hold are 0 and its sizes cut to 32 bits, and no others (`PoolSizes.SizesExact`), so a size can
  leave its class if and only if the class is not the lowest and reaches beyond 2^32 (`PoolSizes.SizeLeavesClass`).
- appendRec reserves five bytes for each length. A record whose lengths take more is cut at the end of the room,
  while its index entry says otherwise: a batch still agrees with its index afterwards if and only if the lengths
  fit (`Batch.AddWritten`, `Batch.Batch.AppendRec`), for a deletion if and only if the key is shorter than 2^35 bytes
  (`Batch.FitsExact`).
- The server drops discovery events. It serves exactly the nodes reported connected until one of four steps:
  a connection reported at the limit or while the node's old peer is still leaving, a disconnection reported while
  the node waits in the server's own channel, an error that ends the peer, or the shutdown
  (`ServerDiscovery.LosesTrackExact`, `ServerDiscovery.FollowsDiscovery`, with the runs
  `ServerDiscovery.ConnLost` and `ServerDiscovery.DiscLost`).

## Model

| member | source | states |
|---|---|---|
| FileNames.ParseGenName | taudb/storage/file_storage.go:614-663 | for every descriptor with a known type and any int64 number, fsParseName undoes fsGenName |
| FileNames.ParseGenOldName | taudb/storage/file_storage.go:633-663 | fsParseName undoes fsGenOldName too |
| FileNames.GenNameInjective | taudb/storage/file_storage.go:614-639 | distinct descriptors never share a name, old or new style |
| FileNames.GenNameExact | taudb/storage/file_storage.go:614-639 | which text the name of a descriptor is, old and new style: its number as a numeral six wide, with the prefix or extension of its type |
| FileNames.FormatInt6Exact | taudb/storage/file_storage.go:614-623 | what `%06d` prints: digits of that value, at least six wide with the sign, padded with zeros and no further |
| FileNames.FormatIntExact | taudb/storage/file_storage.go:261-261 | what `%d` prints: digits of that value without leading zeros, behind a minus sign if it is negative |
| FileNames.GenNameExamples | taudb/storage/file_storage.go:614-627 | three names in full |
| FileNames.NameExact | taudb/storage/file_storage.go:641-663 | exactly which names fsParseName accepts and as what: numeral, dot, extension, or MANIFEST- and a numeral, with the blanks and trailing text Sscanf allows |
| FileNames.ScanWordExact | taudb/storage/file_storage.go:643-657 | `%s` reads the first word after blanks, and nothing exactly when the text or its first line is blank |
| FileNames.SpacesInFull | taudb/storage/file_storage.go:643-657 | the blanks Sscanf skips, one by one |
| FileNames.NumberedTail | taudb/storage/file_storage.go:643-656 | a printed number with any text behind it is accepted if and only if that text is a dot and one of the four extensions, up to blanks |
| FileNames.ManifestTail | taudb/storage/file_storage.go:657-662 | a manifest name with any text behind it is accepted if and only if `%s` finds no word there |
| FileNames.NextLineIgnored | taudb/storage/file_storage.go:641-663 | text on a further line never changes what an accepted name means |
| FileNames.ParseFormatInt | taudb/storage/file_storage.go:261-261 | the number printed into a pending file's name is read back, negative or not |
| FileNames.ParseIntExact | taudb/storage/file_storage.go:383-383 | exactly which texts are taken for a number: digits of that value, with or without a plus sign, or behind a minus sign |
| MetaProtocol.TornContent | taudb/storage/file_storage.go:331-338 | a CURRENT file is accepted exactly when all of its content was written; no strict prefix is |
| MetaProtocol.ExecSetMeta | taudb/storage/file_storage.go:240-277 | a completed setMeta leaves CURRENT on the new descriptor, the old content in CURRENT.bak and no pending file of its own, or changes nothing if CURRENT already says so |
| MetaProtocol.CutSetMeta | taudb/storage/file_storage.go:240-277 | the complete list of directories an interrupted setMeta can leave |
| MetaDir.WalkIsBest | taudb/storage/file_storage.go:348-404 | walking the pending files in descending order finds the valid one with the greatest number, whatever the listing order and repetitions |
| MetaDir.GetMetaExact | taudb/storage/file_storage.go:323-439 | on any directory GetMeta succeeds if and only if CURRENT, CURRENT.bak or a canonical pending file is valid, never returns a descriptor whose target is missing, and fails with corruption if and only if a file it tried is corrupted |
| MetaDir.NewestWins | taudb/storage/file_storage.go:406-415 | with a valid pending file, the newest naming p: GetMeta returns p if it is newer than what CURRENT, or else the backup, names, and that otherwise |
| MetaDir.CurrentThenBackup | taudb/storage/file_storage.go:406-439 | without one it returns what CURRENT names, or else the backup |
| MetaDir.MissingTarget | taudb/storage/file_storage.go:339-345 | a CURRENT whose target is missing does not count as corrupted |
| MetaDir.StepsInFull | taudb/storage/file_storage.go:240-277 | setMeta's steps on two directories and GetMeta's answer on one, file by file |
| MetaDir.NonCanonicalIgnored | taudb/storage/file_storage.go:381-399 | a complete pending file whose number is not written canonically is listed and never read: GetMeta reports that nothing exists |
| MetaDir.LeadingZeros | taudb/storage/file_storage.go:382-388 | CURRENT.007 is such a name |
| MetaDir.NegativeNumberUsed | taudb/storage/file_storage.go:314-388 | a pending file with any int64 number, negative ones included, is used |
| MetaDir.CorruptionReported | taudb/storage/storage.go:155-159 | a directory with no descriptor on which GetMeta returns another error than ErrNotExist |
| MetaProtocol.RecoveredSettles | taudb/storage/file_storage.go:412-432 | a completed GetMeta leaves CURRENT valid for what it returned and no pending file |
| MetaProtocol.GetMetaStable | taudb/storage/file_storage.go:295-439 | on any directory, once a GetMeta has completed, every later one returns the same descriptor across any completed or interrupted GetMeta calls |
| MetaProtocol.SetMetaAtomic | taudb/storage/file_storage.go:240-439 | cut SetMeta anywhere, recover with any interruptions: the first completed GetMeta returns the old or the new descriptor and all later ones agree |
| MetaProtocol.CutAnswer | taudb/storage/file_storage.go:240-439 | after a SetMeta cut anywhere GetMeta returns the new descriptor if and only if CURRENT says so, or all of CURRENT.N is written and it is newer |
| MetaProtocol.CleanUntouched | taudb/storage/file_storage.go:417-432 | on a directory with a valid CURRENT and no pending file GetMeta changes nothing |
| MetaProtocol.NeverOlder | taudb/storage/file_storage.go:240-439 | over every run with increasing numbers, completed and cut calls and recoveries in any order, GetMeta after a completed SetMeta returns that descriptor or one issued later |
| MetaProtocol.AnswersNeverGoBack | taudb/storage/file_storage.go:295-439 | over the same runs the answers of GetMeta never go back |
| MetaRecovery.RecoveryRepeatable | taudb/storage/file_storage.go:240-277 | a GetMeta interrupted once can be repeated if and only if CURRENT is valid, or CURRENT is absent and the backup valid, or a valid pending file has another number |
| MetaRecovery.RecoveryCanLose | taudb/storage/file_storage.go:254-265 | for every descriptor there is a directory on which an interrupted GetMeta loses it |
| MetaRecovery.StepCases | taudb/storage/file_storage.go:240-431 | unless CURRENT becomes valid, an interrupted GetMeta has overwritten the backup by a prefix of CURRENT and at most one pending file by a prefix of the chosen content, and nothing else |
| MetaRecovery.RecoveryLasts | taudb/storage/file_storage.go:240-439 | over every run of completed and interrupted GetMeta calls: all of them succeed if and only if the directory is lasting |
| MetaRecovery.LastingStep | taudb/storage/file_storage.go:240-439 | no interruption takes a lasting directory to one that is not |
| MetaRecovery.NotLastingLoses | taudb/storage/file_storage.go:240-439 | from every other directory some run of interruptions leads to one on which GetMeta fails |
| MetaRecovery.ReadableForever | taudb/storage/file_storage.go:240-439 | starting from a readable CURRENT, CURRENT stays readable along every such run |
| MetaRecovery.TwoInterruptionsCanLose | taudb/storage/file_storage.go:254-265 | directories that survive every single interruption and are lost by two |
| MetaRecovery.MisreadCanLose | taudb/storage/file_storage.go:254-265 | directories lost through a torn copy of CURRENT that is readable although CURRENT is not |
| FileStorage.FileStorage.StoreMeta | taudb/storage/file_storage.go:240-277 | performs exactly the setMeta steps, in order |
| FileStorage.FileStorage.SetMeta | taudb/storage/file_storage.go:279-293 | refuses invalid descriptors, read-only and closed storages without touching the directory |
| FileStorage.FileStorage.TryInOrder | taudb/storage/file_storage.go:348-377 | returns the first valid file, and corruption if one was seen and none is valid |
| FileStorage.FileStorage.PendingNumbers | taudb/storage/file_storage.go:379-388 | collects exactly the numbers of the pending names in any listing |
| FileStorage.FileStorage.TryPending | taudb/storage/file_storage.go:379-404 | finds the best pending file and names every pending file |
| FileStorage.FileStorage.Restore | taudb/storage/file_storage.go:417-431 | puts CURRENT in order and only then removes pending files |
| FileStorage.FileStorage.GetMeta | taudb/storage/file_storage.go:295-439 | for every listing order the answer is the function of the directory the lemmas speak of, and a writable directory is moved by exactly the recovery steps |
| BufferShape.GrowOutcomes | taudb/utils/buffer.go:63-90 | grow keeps the unread bytes, makes room for n, slides only if more was read than is left, and reallocates to at least twice the capacity |
| BufferShape.GrowInFull | taudb/utils/buffer.go:63-90 | every branch of grow with its limits, on given windows |
| BufferShape.AmortisedCopying | taudb/utils/buffer.go:63-90 | over every run of operations, copied bytes plus offset never exceed consumed bytes plus capacity |
| BufferShape.CapacityBound | taudb/utils/buffer.go:63-90 | if unread bytes plus room asked for stay within M, the capacity stays within the initial one, 64 or 5M |
| BufferShape.GrowLasts | taudb/utils/buffer.go:103-114 | after Grow(n), operations asking for n bytes in total neither allocate nor copy |
| ByteBuffer.Buffer.Relocate | taudb/utils/buffer.go:69-87 | the three out-of-space branches leave the unread bytes at the front of an array of the stated size |
| ByteBuffer.Buffer.GrowBy | taudb/utils/buffer.go:63-90 | unread bytes unchanged, n bytes after them, geometry as GrowShape |
| ByteBuffer.Buffer.Alloc | taudb/utils/buffer.go:95-101 | n bytes behind the unread ones; panics on a negative count |
| ByteBuffer.Buffer.Grow | taudb/utils/buffer.go:108-114 | contents unchanged, room for n bytes |
| ByteBuffer.Buffer.Write | taudb/utils/buffer.go:119-122 | appends p to the queue |
| ByteBuffer.Buffer.WriteByte | taudb/utils/buffer.go:208-212 | appends one byte |
| ByteBuffer.Buffer.Truncate | taudb/utils/buffer.go:45-54 | keeps the first n unread bytes; panics out of range |
| ByteBuffer.Buffer.Read | taudb/utils/buffer.go:218-230 | takes bytes off the front; end of file exactly when empty and bytes were asked for |
| ByteBuffer.Buffer.ReadByte | taudb/utils/buffer.go:248-257 | takes one byte off the front or reports the end |
| ByteBuffer.Buffer.Next | taudb/utils/buffer.go:236-244 | takes up to n bytes off the front; panics on a negative count |
| ByteBuffer.Buffer.ReadBytes | taudb/utils/buffer.go:265-284 | takes the first line; end of file if and only if it does not end in the delimiter |
| ByteBuffer.PiecesExact | taudb/utils/buffer.go:259-284 | the pieces of repeated ReadBytes concatenate to the content, are cut after every delimiter and nowhere else |
| ByteBuffer.Buffer.ReadFrom | taudb/utils/buffer.go:124-163 | appends exactly what any reader delivers, offering at least MinRead bytes each time; the array is kept if MinRead bytes beyond the contents fit in it, grows to at most twice the contents plus 3 MinRead otherwise, and the bytes moved in all are no more than its final size |
| ByteBuffer.Buffer.Pull | taudb/utils/buffer.go:139-160 | one turn of that loop: what came, what the reader still has, and what was moved |
| ByteBuffer.Buffer.MakeFree | taudb/utils/buffer.go:140-151 | contents unchanged, at least MinRead free bytes; a new array, then of twice the size and MinRead, only if less than MinRead bytes are not taken by unread ones |
| ByteBuffer.Buffer.WriteTo | taudb/utils/buffer.go:181-202 | drops what the writer took; the four results of the writer's answer; geometry as the WriteTo step of the amortised run |
| Varint.UvarintPut | taudb/batch.go:98-103 | a 64-bit varint is read back whatever follows it |
| Varint.PutInFull | taudb/batch.go:98-103 | two varints in full |
| Varint.PutIsShortest | taudb/batch.go:225-236 | no accepted varint is shorter than the written form of its value |
| Varint.ShortLengths | taudb/batch.go:88-91 | MaxVarintLen32 bytes are enough exactly for lengths below 2^35 |
| BatchDecoder.TurnExact | taudb/batch.go:216-247 | a turn of the decoder stays in the data and moves on, or reports corruption, if and only if no length it reads wraps or the wrapped one is rejected |
| BatchDecoder.EmitExact | taudb/batch.go:216-251 | a record handed over lies in the data if and only if no length wrapped |
| BatchDecoder.FateDecides | taudb/batch.go:216-253 | the loop, taken as it stands, ends within one turn more than there are bytes or never |
| BatchDecoder.DecodeExact | taudb/batch.go:214-254 | on any input: the loop ends without a panic and with every record in the data if and only if no turn it makes wraps a length unnoticed, if and only if the scan of SafeExact says so |
| BatchDecoder.SafeExact | taudb/batch.go:216-247 | that condition is decided by one scan of the input from record to record, in unbounded arithmetic and without running the loop |
| BatchDecoder.AcceptedExact | taudb/batch.go:214-254 | the records of an accepted input tile it without gap or overlap if and only if they lie in it, and if and only if no turn wrapped a length |
| BatchDecoder.TiledAccepted | taudb/batch.go:214-254 | an input tiled by some records is accepted with exactly those |
| BatchDecoder.DecoderCanLoop | taudb/batch.go:216-251 | on an eleven-byte input the loop is back at offset 0 after every turn, with one more record out of bounds |
| BatchDecoder.DecoderCanAcceptWrongly | taudb/batch.go:216-253 | a fifteen-byte input is accepted with one record outside it and two that overlap |
| BatchDecoder.DecoderCanPanic | taudb/batch.go:216-219 | on an eleven-byte input the loop leaves the data at the front and panics |
| BatchDecoder.DecodeEncode | taudb/batch.go:87-111 | decoding encoded records gives them back |
| BatchDecoder.ReencodeDecodes | taudb/batch.go:214-254 | any input accepted with its records inside it, minimal varints or not, re-encodes to no more bytes with the same records |
| BatchFormat.ConcatTiles | taudb/batch.go:168-185 | the index of joined data is the first index followed by the shifted second one |
| BatchFormat.EncodeInFull | taudb/batch.go:93-108 | a put and a delete record in full |
| BatchFormat.InternalLenOfRecords | taudb/batch.go:70-71 | internalLen is the sum over records of key length, value length and 8 |
| Batch.DumpDecodes | taudb/batch.go:131-141 | data that its index describes is accepted by the decoder, with the records of the index; positions differ only for empty values |
| Batch.Batch.Dump | taudb/batch.go:131-133 | what a coherent batch dumps decodes to exactly its records |
| Batch.AppendAgrees | taudb/batch.go:168-185 | shifting only non-empty values keeps the agreement between data and index |
| Batch.ShiftExact | taudb/batch.go:175-184 | how each appended index entry moves; an empty value stays where it was said to lie |
| Batch.DecodeBatch | taudb/batch.go:214-254 | hands over the records of the loop as written and ends as it does; cut short only where the loop never ends |
| Batch.Assemble | taudb/batch.go:93-108 | the bytes and the index entry of one record in the reserved room; the lengths never run out of it, the last copy is cut if it does |
| Batch.FitsExact | taudb/batch.go:88-108 | nothing is cut if and only if the lengths fit the room reserved for them; for a deletion, if and only if the key is shorter than 2^35 bytes |
| Batch.AddWritten | taudb/batch.go:87-111 | data and index agree after appending a record if and only if it fits, and then hold it as their last record |
| Batch.Batch.Grow | taudb/batch.go:74-85 | leaves room for n bytes, and by how much the capacity grows |
| Batch.Batch.AppendRec | taudb/batch.go:87-111 | on any batch: what data, index and internalLen become; a coherent batch stays coherent if and only if the record fits, and then gains it |
| Batch.Batch.Put | taudb/batch.go:116-118 | appends a put record to any batch |
| Batch.Batch.Delete | taudb/batch.go:123-125 | appends a delete record to any batch |
| Batch.Batch.Append | taudb/batch.go:168-185 | on any batches, or one and itself: the joined data and shifted index; coherent batches give a coherent one with the records of both |
| Batch.Batch.ShiftFrom | taudb/batch.go:175-184 | moves the appended index entries and no others |
| Batch.Batch.Load | taudb/batch.go:139-203 | the outcome of loading any bytes, failures and panics included; data and index agree if and only if decoding accepted them and every record lies in the data |
| Batch.Batch.Replay | taudb/batch.go:144-154 | after any Load: makes one call per record, in order, up to the first record outside the data, and panics there; never panics otherwise |
| Batch.Batch.CoherentIsStored | taudb/batch.go:144-154 | so a batch whose data and index agree replays exactly its records |
| Batch.Batch.Reset | taudb/batch.go:162-166 | empties any batch, also after a failed Load |
| Batch.SumLengths | taudb/batch.go:190-193 | the running 64-bit sum of decode is internalLen of what was decoded |
| Batch.Batch.InternalLenExact | taudb/batch.go:70-71 | below 2^61 bytes of data internalLen does not wrap: it is the sum over the records of key length, value length and 8 |
| KeyRange.BytesPrefix | taudb/utils/range.go:20-32 | the range of a prefix holds exactly the keys that start with it |
| KeyRange.PrefixRangeExact | taudb/utils/range.go:20-32 | the same for every prefix and key, empty and all-0xff prefixes included |
| InternalKey.MakeInternalKey | taudb/key.go:75-86 | builds a key that parses back, in the given buffer if it is large enough; panics exactly on a bad sequence number or type |
| InternalKey.ParseMake | taudb/key.go:75-99 | parsing undoes making |
| InternalKey.MakeParse | taudb/key.go:88-104 | making undoes parsing, and a parsed sequence number fits in 56 bits |
| InternalKey.CorruptedExact | taudb/key.go:88-99 | a key is corrupted if and only if it is shorter than eight bytes or the first of its last eight is above 1 |
| InternalKey.EncodeInFull | taudb/key.go:75-86 | one key in full |
| InternalKey.PackOrder | taudb/key.go:57-64 | packed numbers order as (sequence number, type), with keyMaxNum the maximum |
| Peer.OneToken | p2p/peer.go:117-174 | while the loop is live there is exactly one write token, and never more than one, so at most one write runs per peer |
| PeerHistory.NoWriteAfterFailure | p2p/peer.go:139-152 | in every run, after an EndWrite that reports an error no BeginWrite occurs |
| PeerHistory.OneWriteAfterExit | p2p/peer.go:139-187 | in every run at most one BeginWrite occurs after the loop has ended |
| PeerHistory.ExitError | p2p/peer.go:139-187 | the error run returns is the failed write's, the first one a read loop or a protocol reported, or the reason of the disconnection, according to the action that ended the loop; remoteRequested exactly for a read error that is a DiscReason |
| PeerHistory.AllReport | p2p/peer.go:125-187 | every topic has a read loop and every protocol a goroutine, each of which runs until it reports; when run returns all have |
| PeerHistory.LoopGoesOn | p2p/peer.go:132-187 | in every reachable state a waiting loop can take every error reported so far, a free token lets a write begin, and a loop that does not wait can go on |
| Peer.NoSenderBlocks | p2p/peer.go:117-291 | in every interleaving every sender on writeStart, writeErr, readErr and protoErr finds a free slot |
| Peer.ExitHasError | p2p/peer.go:139-187 | the loop ends only with an error; when run returns, no read loop and no protocol is left |
| Server.PeersAndLimit | p2p/server.go:183-238 | map entries and live runPeer goroutines correspond one to one, a pending node is not in the map, and together they stay within MaxPeers |
| Server.AnswersExact | p2p/server.go:133-159 | a Peers or PeerCount request sees exactly the live peers, within MaxPeers |
| Server.StoppedMeansNoneLive | p2p/server.go:243-252 | when the shutdown loop has ended no runPeer is live or waiting |
| Server.DropHasError | p2p/server.go:262-287 | runPeer always has an error to report, and the local node is known when a peer is made |
| Server.PeersKeepTheirs | p2p/server.go:262-287 | the single-write and no-blocking guarantees hold for every peer of a running server |
| Server.SelfBlockedWhen | p2p/server.go:199-212 | the loop blocks on its own channel exactly when it accepts a node while another is pending |
| Server.SelfBlockedStays | p2p/server.go:187-239 | from then on it takes no step |
| Server.SelfBlockedReachable | p2p/server.go:199-231 | such a state is reachable |
| ServerDiscovery.ServesStep | p2p/server.go:197-238 | for every step, whether the server serves a node afterwards |
| ServerDiscovery.LosesTrackExact | p2p/server.go:197-238 | a node the server was following is lost track of by exactly four kinds of steps |
| ServerDiscovery.FollowsDiscovery | p2p/server.go:183-238 | over every run without such a step for a node, it is pending or a working peer if and only if its last event is a connection |
| ServerDiscovery.UnservedStays | p2p/server.go:197-238 | a node that is not served stays so until its next connection is reported |
| ServerDiscovery.DiscLost | p2p/server.go:212-231 | a run in which a node reported gone while it waits in checkpointAddPeer becomes a working peer |
| ServerDiscovery.ConnLost | p2p/server.go:199-219 | a run in which a node reported connected while its old peer is leaving is not served |
| ServerPeers.PeersRunAsPeers | p2p/server.go:262-287 | in every run of the server each peer is where a run of a single peer leads, so the guarantees for peers hold of it; runPeer reports the error its peer returned; the reasons given are a network error or, when stopping, quitting |
| ServerPeers.ShutdownReachesAll | p2p/server.go:243-252 | while the server waits for its peers every live one has left its run loop |
| ServerPeers.NeverStuck | p2p/server.go:217-252 | while the server disconnects a peer or shuts down, in every reachable state some step of its own or of a peer it waits for brings it forward |
| ServerPeers.IdleTakesAll | p2p/server.go:187-238 | in every reachable state an idle loop takes any request, stop, event, pending node or dropped peer; a request sees exactly the live peers and changes nothing |
| ServerPeers.MembersExact | p2p/server.go:221-237 | peers come only by being taken from the channel and go only by reporting their error, each with its own goroutine |
| ServerPeers.StaysLive | p2p/server.go:183-252 | a peer's goroutine stays until its own error is taken |
| Discover.Missing | p2p/tnode/nodedb.go:80-90 | lists the nodes absent from the other map, each once, in any walking order |
| Discover.DB.Choose | p2p/tnode/nodedb.go:76-93 | added and removed nodes are the two set differences |
| Discover.DB.Replace | p2p/tnode/nodedb.go:95-100 | the node set becomes the new one |
| Discover.Discover.MakeNodesMap | p2p/tnode/node.go:54-63 | the nodes by identity; of connections that share one, the last is kept |
| Discover.Discover.Notify | p2p/discover/discover.go:132-140 | sends the disconnections and then the connections |
| Discover.Discover.Tick | p2p/discover/discover.go:89-140 | the node set becomes the wanted one; the events added are exactly one Disc for every identity that is gone and one Conn for every new one, with its node, the disconnections first; nothing if no identity changes; the stream still folds to the set |
| Discover.FoldExact | p2p/discover/discover.go:132-140 | a stream folds if and only if each identity's events alternate starting with Conn |
| Discover.FaithfulStream | p2p/discover/discover.go:121-140 | between ticks every identity alternates and is in the database exactly if it connected last |
| BufferPool.PoolNum | taudb/utils/buffer_pool.go:43-53 | the loop finds the size class |
| BufferPool.ClassConvex | taudb/utils/buffer_pool.go:43-53 | size classes are intervals, and class 0 holds no size twice another |
| BufferPool.ClassesInFull | taudb/utils/buffer_pool.go:43-53 | the class of every size in a pool with baseline 100 |
| PoolClasses.StepClasses | taudb/utils/buffer_pool.go:56-178 | every atomic step of Get and Put keeps pooled buffers in their class and adaptive sizes in or below theirs |
| PoolClasses.NoHalfOnFastPath | taudb/utils/buffer_pool.go:72-88 | the half branch of the fast path is dead |
| PoolSafety.GetStaysInClass | taudb/utils/buffer_pool.go:56-178 | for every n and every buffer ever put, Get(n) hands out n bytes in a buffer of n's class, the class of the queue a Put of it and the sends inside Get use |
| PoolCalls.GetAlone | taudb/utils/buffer_pool.go:56-155 | what a Get that runs alone hands out and leaves behind, as one function of what the pool holds: queues, adaptive sizes and their counters |
| PoolCalls.PutAlone | taudb/utils/buffer_pool.go:158-178 | a Put that runs alone adds the buffer to the end of its queue if there is room |
| PoolCalls.ClosedAlone | taudb/utils/buffer_pool.go:64-170 | on a closed pool Get allocates n bytes and Put drops |
| PoolCalls.PutAmongOthers | taudb/utils/buffer_pool.go:158-178 | in every interleaving a Put on an open pool leaves the buffer at the end of the queue of its class if that holds fewer than 2, 2, 4, 4, 2 or 1, and drops it otherwise |
| PoolCalls.GetAmongOthers | taudb/utils/buffer_pool.go:72-124 | in every interleaving a Get(n) that finds a buffer of n to 2n - 1 bytes hands out that very buffer |
| PoolCalls.NeverFuller | taudb/utils/buffer_pool.go:225-240 | in every run no queue exceeds its room |
| PoolCalls.DrainEmpties | taudb/utils/buffer_pool.go:202-214 | ticks of drain take the oldest buffers of a queue first, each once, until it is empty |
| PoolCalls.OutcomeCounted | taudb/utils/buffer_pool.go:74-138 | each outcome of a Get advances its own counter only |
| PoolSafety.SizesStayInClass | taudb/utils/buffer_pool.go:101-150 | adaptive sizes are unset or sizes of their class cut to 32 bits, so never above it; and in it as long as nothing in the run was too large |
| PoolSizes.PanicExact | taudb/utils/buffer_pool.go:140-153 | a Get(n) panics in some run if and only if n >= 2^32 and n is not in class 0 |
| PoolSizes.FirstGetPanics | taudb/utils/buffer_pool.go:140-153 | on a new pool of any baseline the first Get(n) of such an n panics if n is a multiple of 2^32 |
| PoolSizes.SecondGetPanics | taudb/utils/buffer_pool.go:140-153 | otherwise the first one stores n cut to 32 bits and the second panics |
| PoolSizes.SizesExact | taudb/utils/buffer_pool.go:101-150 | the adaptive sizes a class holds in some run are exactly 0 and its sizes cut to 32 bits |
| PoolSizes.SizeLeavesClass | taudb/utils/buffer_pool.go:101-150 | in some run an adaptive size lies outside its class if and only if the class is not the lowest and reaches beyond 2^32 |
| PoolSafety.OneOwner | taudb/utils/buffer_pool.go:56-178 | with single puts no buffer is in two places |
| PoolSafety.NoClosedQueueTouched | taudb/utils/buffer_pool.go:158-222 | no Get or Put touches a closed queue |
| PoolSafety.ClosedOnce | taudb/utils/buffer_pool.go:180-222 | however often Close is called it sends to closeC once; queues are closed only on a closed pool, and can be as soon as it is closed |
| PoolSafety.CountersAgree | taudb/utils/buffer_pool.go:64-138 | with no Get in progress get equals the sum of the outcomes modulo 2^32 |

## Left out

- taudb/storage/file_storage.go: Open, Create, Remove, Rename, List, the open-file counter beyond the closed check, and Lock/Unlock; simple bookkeeping around system calls.
- Logging, file locks and the platform files under taudb/storage: system calls and clocks; rename is taken to be atomic.
- taudb/storage/mem_storage.go, taudb/taudb.go, tau, forum, cmds, ipfs/api, p2p/pubsub.go, hashes and error wrappers: wiring and one-branch operations.
- MetaDir.GetMetaExact: invalid UTF-8 in file names and contents is not modelled; names and contents are character sequences.
- ByteBuffer.Buffer.Write: p is a value, so writing a slice of the buffer's own storage is not modelled; allocation always succeeds.
- ByteBuffer.Buffer.ReadFrom: a reader that never ends is covered turn by turn only, by Pull; readers that report more bytes than they were offered are not modelled. What it moves is bounded for each call and not part of the amortised bound, since every call may slide the unread bytes again.
- ByteBuffer.Buffer.WriteTo: a writer that reports a negative count is not modelled.
- Batch.Batch.AppendRec: data and encoded record together are shorter than 2^63 bytes, as any slice is.
- Batch.DecodeBatch: a loop that never ends is cut after one turn more than there are bytes; the source would go on appending records until memory is exhausted.
- InternalKey.MakeInternalKey: the user key does not alias the destination buffer.
- Peer.ExitHasError: the subscription map, message delivery to protocols, and the error value WriteMsg returns are not modelled; no fairness is assumed, so nothing is said to happen eventually.
- Server.PeersAndLimit: event broadcasts and the running flag of Start and Stop are not modelled; the server has one discovery stream, whose blocking is not modelled.
- Discover.Discover.Tick: the filter is any selection of the reported peers; sends are recorded in order and their blocking is not modelled.
- PoolSafety.GetStaysInClass: negative sizes and the nil pool are not modelled.
- PoolSafety.OneOwner: callers that put a buffer twice are not modelled.
