# A verified model of the Proxmox Backup data path

The project models, in Dafny, how Proxmox Backup turns a directory tree and a byte stream into a
backup, how it reads one back, and the state machines that keep this safe while other processes work
on the same data. It proves what these parts are for.

- **Catalog.** `Varint`, `Catalog` and `CatalogWriter` model the catalog file: variable-length
  integers, directory blocks written post-order with backward offsets, the writer with its explicit
  stack of open directories, and the reader that follows the offsets from the end of the file. A whole
  tree written and read again is the same tree, exactly when every name fits the parser's buffer, and
  path lookup in the file agrees with walking the tree.
- **Chunking and upload.** `Buzhash` and `Chunker` model the rolling hash over a ring buffer and the
  two chunkers; `Injection` and `ChunkStream` the stream that is cut at hash, suggested and forced
  boundaries; `UploadStream` the queue that injects reused chunks, the counters and the running
  checksum; `MergeChunks` the batching; `UploadProtocol` the upload queue and the server that has to
  accept its appends. What is sent is the input with every injection at its place, the chunks do not
  depend on how the input arrived, the server never refuses an append or the close, and an upload can
  always get through. `Restore` joins
  this with the readers: reading the index of an accepted upload gives the backed-up bytes.
- **Reading.** `DynamicIndex` and `Readers` model the index file, its binary search, the buffered
  reader with its sequential shortcut and cache, and `read_at`. Every read is a slice of one archive.
- **Concurrent protocols.** `LockFile` (lock files that their holder may delete), `ChunkStore`
  (inserting and touching chunks while garbage collection sweeps) and `TokenShadow` (a cache of token
  secrets per process, with a shared generation counter) are state machines; their properties hold in
  every state of every run.
- **Access control.** `AclTree`, `AclConfig`, `AclRoundTrip` and `UserInfo` model the permission tree,
  the printer that groups roles into lines and its parser, role inheritance, and the query for
  privileges below a path.

`Bytes`, `Words` and `Split` hold shared notions: bytes, 64-bit wrap-around, little-endian numbers,
32-bit words as numbers, splitting and joining. Objects that the program updates in place are classes, its loops are methods with invariants,
and each is proved against a function that the lemmas are about.

What comes from outside is a parameter or an arbitrary choice: the digest function, the table of the
rolling hash (any 256 words), the clock, file metadata, whether a try-lock succeeds, how each poll of
the input and each read of the store turns out, which data cannot be encoded, when a producer announces
an injection or suggests a boundary, which entry a cache drops, the order in which sorted sets are
listed, and how ids are written and read.

## Where code and documentation disagree

- `catalog_decode_i64` is documented to read `catalog_encode_u64` output if and only if the value is at
  most 2^63. The value 2^63 itself comes back negative; the bound is "less than 2^63"
  (`Varint.I64ReadsU64`).
- The chunker is documented to produce at most four times the average. The break test is first made at
  byte 65, so with an average of 16 or less every chunk but the last has 65 bytes and breaks the
  maximum (`Chunker.SmallAverageBreaksMaximum`, `Chunker.AverageAtLeast32`). All size bounds hold from
  an average of 32 on.
- `any_privs_below` is documented to check for privileges on any object below a path. It misses some in
  three cases: a role on the anchor that does not propagate hides an inherited one that does
  (`UserInfo.QueryMisses`); for a token, nodes with roles of its owner are not looked at
  (`UserInfo.QueryMissesToken`); and from an empty anchor no node is (`UserInfo.QueryMissesFromRoot`).
  `UserInfo.QueryIsExact` proves that these are all: for every id and every anchor the answer is right
  unless one of them applies.

## Model

| member | source | states |
|---|---|---|
| `Varint.U64RoundTrip` | pbs-datastore/src/catalog.rs:829-870 | for every `u64`, decoding an encoding followed by any bytes gives the value and exactly those bytes |
| `Varint.I64RoundTrip` | pbs-datastore/src/catalog.rs:764-824 | the same for every `i64`, the minimum included |
| `Varint.DecodeStays` | pbs-datastore/src/catalog.rs:797-870 | what follows a number plays no part in reading it |
| `Varint.I64ReadsU64` | pbs-datastore/src/catalog.rs:791-870 | the signed decoder reads an unsigned encoding as the same 64 bits, and as the same number if and only if it is below 2^63 |
| `Varint.WriteU64` | pbs-datastore/src/catalog.rs:829-845 | the encoding loop writes what `EncodeU64` defines, for which the round trip holds |
| `Varint.WriteI64` | pbs-datastore/src/catalog.rs:764-789 | the signed encoding loop, without overflow at the minimum, writes what `EncodeI64` defines |
| `Varint.ReadU64` | pbs-datastore/src/catalog.rs:850-870 | the decoding loop accepts just what has an end marker within ten bytes and gives the number its groups of seven bits stand for, modulo 2^64 |
| `Varint.ReadI64` | pbs-datastore/src/catalog.rs:797-824 | the signed loop over at most eleven bytes, with the zero end marker for negative numbers and the shift that wraps at the last byte |
| `Catalog.TypeOfByte` | pbs-datastore/src/catalog.rs:38-65 | a byte is accepted if and only if it is the code of that entry type, for all eight types |
| `Catalog.WriteBlock` | pbs-datastore/src/catalog.rs:227-312 | building a block entry by entry and putting its length in front gives the format that the round trips are about |
| `Catalog.ParseLoop` | pbs-datastore/src/catalog.rs:314-362 | the parser's loop hands on the entries up to the one that stops it, with every error of the recursive parser |
| `Catalog.ParseEntryEncoded` | pbs-datastore/src/catalog.rs:227-298 | an encoded entry parses as itself and leaves the rest, unless its name has 4096 bytes or more, which is an error; relative offsets resolve to the absolute ones |
| `Catalog.ParseEntriesEncoded` | pbs-datastore/src/catalog.rs:314-362 | the entries of a block parse back in order, if and only if all names are short enough |
| `Catalog.BlockRoundTrip` | pbs-datastore/src/catalog.rs:583-600 | `read_dir` of a block written anywhere in a file gives its entries, whatever surrounds it, or an error exactly if a name is too long |
| `Catalog.ReadBlock` | pbs-datastore/src/catalog.rs:657-665 | a block is read exactly if its length is at least one and that many bytes follow, and it is these bytes |
| `Catalog.BlockEnds` | pbs-datastore/src/catalog.rs:357-359 | a block is read to its last byte: with anything after its entries it is refused |
| `Catalog.ReadsOnlyCatalogs` | pbs-datastore/src/catalog.rs:566-580 | a root is found exactly in a file that begins with the magic number, and no path in any other |
| `Catalog.SpelledOnce` | pbs-datastore/src/catalog.rs:609-614 | every path is spelled by names without slashes, after one leading slash if it begins with one, and by no others |
| `Catalog.LookupLoop` | pbs-datastore/src/catalog.rs:603-627 | the loop follows from the root the names that spell the path, one lookup after the other, and fails where one fails; "/" is the root |
| `CatalogWriter.Writer.constructor` | pbs-datastore/src/catalog.rs:379-387 | a new writer has written the magic number and opened the root directory |
| `CatalogWriter.Writer.WriteAll` | pbs-datastore/src/catalog.rs:389-395 | the bytes are appended and the position stays the number of bytes written, as every method of the writer keeps it |
| `CatalogWriter.Writer.AddEntry` | pbs-datastore/src/catalog.rs:450-540 | an entry joins the innermost open directory; outside the root it is refused and nothing changes |
| `CatalogWriter.Writer.Start` | pbs-datastore/src/catalog.rs:418-422 | opening a directory is the start event |
| `CatalogWriter.Writer.End` | pbs-datastore/src/catalog.rs:424-448 | closing a directory writes its block and enters it in its parent; closing the root fails, after its block was written |
| `CatalogWriter.Writer.Close` | pbs-datastore/src/catalog.rs:398-415 | finishing succeeds only with the root alone on the stack and appends the root block and its position |
| `CatalogWriter.Writer.WriteNodes` | pbs-datastore/src/catalog.rs:417-540 | driving the writer object over a forest is the run of its events, with the same success |
| `CatalogWriter.RunAppend` | pbs-datastore/src/catalog.rs:417-448 | a sequence of calls runs as its parts do, up to the first error |
| `CatalogWriter.RunIsEmit` | pbs-datastore/src/catalog.rs:371-448 | the explicit stack computes the recursive post-order form: every call for a forest is accepted, its blocks are emitted innermost first and its entries point to them |
| `CatalogWriter.EmitEntries` | pbs-datastore/src/catalog.rs:424-448 | every child block starts before its parent's block |
| `CatalogWriter.ReadEmittedDir` | pbs-datastore/src/catalog.rs:583-600 | a directory written after its subdirectories reads back as the whole subtree, if and only if every name in it fits |
| `CatalogWriter.ReadEmitted` | pbs-datastore/src/catalog.rs:583-665 | emitted entries read back wherever their blocks lie in a file, by offsets that strictly decrease |
| `CatalogWriter.CatalogShape` | pbs-datastore/src/catalog.rs:377-448 | every tree can be written; the file is magic, blocks, root block, root position |
| `CatalogWriter.CatalogRoundTrip` | pbs-datastore/src/catalog.rs:566-665 | reading a written catalog recursively from its root gives the tree back if and only if every name is shorter than 4096 bytes, and fails otherwise |
| `CatalogWriter.WriteCatalog` | pbs-datastore/src/catalog.rs:371-448 | the writer object, driven over a tree, produces that file |
| `CatalogWriter.ParseStopsAtName` | pbs-datastore/src/catalog.rs:314-362 | stopping at a name sees a prefix of all entries, with the name at its end and nowhere before |
| `CatalogWriter.LookupIsFirst` | pbs-datastore/src/catalog.rs:630-654 | `lookup` returns the first entry of `read_dir` with the name, and nothing exactly if there is none |
| `CatalogWriter.LookupFollowsTree` | pbs-datastore/src/catalog.rs:603-654 | following components through the file finds what following them through the tree finds, or fails where the tree has nothing |
| `CatalogWriter.LookupRecursiveAgrees` | pbs-datastore/src/catalog.rs:603-627 | for every path, `lookup_recursive` in a written catalog agrees with the tree it was written from |
| `CatalogWriter.LookupByNames` | pbs-datastore/src/catalog.rs:603-627 | a path spelled by names, with or without a leading slash, leads through the written tree by exactly these names |
| `Buzhash.Rot64` | pbs-datastore/src/chunker.rs:203-206 | rotating a 32-bit word 64 times is the identity |
| `Buzhash.HashIsAgedXor` | pbs-datastore/src/chunker.rs:170-226 | the incremental hash is the exclusive or of the table entries, each rotated by its age |
| `Buzhash.HashRoll` | pbs-datastore/src/chunker.rs:201-206 | for a window of 64 bytes, one rotation and two table entries turn the hash of the window into that of the window moved by one byte |
| `Chunker.MaskIsRemainder` | pbs-datastore/src/chunker.rs:116-117 | masking the hash with a power of two less one is taking the remainder |
| `Chunker.BreakTest` | pbs-datastore/src/chunker.rs:100-149 | a chunk breaks at four times the average, or from a quarter of it on where one of the three numbers after the hash, taken as a number, is a multiple of twice the average, or of 2^32 if that is less; the mask is that multiple less one; with an average of 1 the threshold wraps around and only the maximum breaks |
| `Chunker.FirstCutIs` | pbs-datastore/src/chunker.rs:170-226 | a boundary is determined by the bytes up to it, whatever follows |
| `Chunker.CutBounds` | pbs-datastore/src/chunker.rs:135-149 | a hash boundary is never below the minimum and, if the maximum exceeds the window, never above the maximum |
| `Chunker.NoCutBound` | pbs-datastore/src/chunker.rs:135-149 | data without a boundary is shorter than the maximum, if that exceeds the window |
| `Chunker.SmallAverageBreaksMaximum` | pbs-datastore/src/chunker.rs:190-226 | with a maximum of at most 64 the first chunk has 65 bytes |
| `Chunker.AverageAtLeast32` | pbs-datastore/src/chunker.rs:100-131 | the maximum exceeds the window if and only if the average is at least 32 |
| `Chunker.ChunkerImpl.constructor` | pbs-datastore/src/chunker.rs:100-131 | a new chunker has seen nothing |
| `Chunker.ChunkerImpl.Reset` | pbs-datastore/src/chunker.rs:228-232 | a reset chunker stands like a new one although its ring is not cleared |
| `Chunker.ChunkerImpl.Fill` | pbs-datastore/src/chunker.rs:174-194 | filling the window takes bytes until 64 are there, with the hash of just those |
| `Chunker.ChunkerImpl.Roll` | pbs-datastore/src/chunker.rs:199-211 | after each byte the state holds the direct hash of the last 64 bytes, and byte k of the chunk is in cell k modulo 64 |
| `Chunker.ChunkerImpl.Scan` | pbs-datastore/src/chunker.rs:170-226 | scanning piece by piece finds exactly the first boundary of all bytes since the last one, and stands like a new chunker after it |
| `Chunker.ChunkerImpl.Clear` | pbs-datastore/src/chunker.rs:213-218 | at a boundary the chunker comes to stand like a new one |
| `Chunker.PayloadChunker.constructor` | pbs-datastore/src/chunker.rs:241-248 | no suggestion is pending at the start |
| `Chunker.PayloadChunker.PassOver` | pbs-datastore/src/chunker.rs:255-278 | suggestions in the past or below the minimum are dropped, in order, and no other |
| `Chunker.PayloadChunker.Decide` | pbs-datastore/src/chunker.rs:255-304 | the first suggestion that is not dropped decides, and is used up if it lies in the data read and within the maximum |
| `Chunker.PayloadChunker.Scan` | pbs-datastore/src/chunker.rs:251-306 | the deciding suggestion ends the chunk if it lies inside the new data and within the maximum; otherwise exactly the first hash boundary does; the other suggestions stay pending in order |
| `Injection.SplicePayload` | pbs-client/src/inject_reused_chunks.rs:73-126 | what remains of the spliced archive loses payload bytes from the front |
| `Injection.SpliceInject` | pbs-client/src/inject_reused_chunks.rs:73-126 | at an injection's place, what remains loses that injection |
| `Injection.Source.constructor` | pbs-client/src/chunk_stream.rs:45-67 | the producer starts with the whole input and an orderly list of injections before it |
| `Injection.Source.Tick` | pbs-client/src/chunk_stream.rs:94-98 | injections may be announced at any time and stay announced |
| `Injection.Source.Next` | pbs-client/src/chunk_stream.rs:170-186 | the producer yields the input piece by piece, or its error, and a byte past an injection only after announcing it |
| `ChunkStream.Stream.constructor` | pbs-client/src/chunk_stream.rs:45-67 | a new stream has handed on nothing |
| `ChunkStream.Stream.Environment` | pbs-client/src/chunk_stream.rs:94-98 | what other threads announce or suggest in between keeps the stream in order |
| `ChunkStream.Stream.Suggest` | pbs-datastore/src/chunker.rs:299-304 | a suggested boundary waits behind those suggested before |
| `ChunkStream.Stream.Scan` | pbs-client/src/chunk_stream.rs:102-106 | scanning the unscanned part of the buffer: the inner chunker has seen the whole buffer, or a hash boundary or suggested archive offset inside it was found; with suggestions, exactly the one that counts for the place of the chunk in the archive, or the first hash boundary |
| `ChunkStream.Stream.Receive` | pbs-client/src/chunk_stream.rs:94-98 | at most one injection waits, and it is the next of the announced ones |
| `ChunkStream.Stream.SplitOff` | pbs-client/src/chunk_stream.rs:116-119 | bytes split off the buffer are the next bytes of the input |
| `ChunkStream.Stream.Waiting` | pbs-client/src/chunk_stream.rs:100-146 | with an injection waiting: force its boundary as soon as the buffer reaches it, cut strictly before it, or read on strictly before it |
| `ChunkStream.Stream.Force` | pbs-client/src/chunk_stream.rs:100-131 | a forced cut ends exactly at the injection's payload position, resets the chunker and passes the injection on |
| `ChunkStream.Stream.ForceWithin` | pbs-client/src/chunk_stream.rs:114-131 | a boundary forced within bytes that hold no other one gives exactly the payload up to the injection, within the maximum if that is above 64, and for the plain chunker without a hash boundary before its end |
| `ChunkStream.Stream.Cut` | pbs-client/src/chunk_stream.rs:132-161 | another cut takes its bytes off the buffer and stays at or before the next injection |
| `ChunkStream.Stream.FindBoundary` | pbs-client/src/chunk_stream.rs:88-165 | an iteration emits the next piece of the input at one of the three kinds of boundary, or has scanned the whole buffer and passed no injection |
| `ChunkStream.Stream.FindRegular` | pbs-client/src/chunk_stream.rs:149-165 | with no injection waiting: cut at the next hash or suggested boundary, or scan to the end of the buffer |
| `ChunkStream.Stream.ReadMore` | pbs-client/src/chunk_stream.rs:167-186 | reading on extends the buffer by the next piece; the stream ends when the input does and fails only when the input does |
| `ChunkStream.Stream.Extend` | pbs-client/src/chunk_stream.rs:183-185 | the buffer stays the part of the input that was read and not handed on |
| `ChunkStream.Stream.PollNext` | pbs-client/src/chunk_stream.rs:79-188 | every emitted chunk is the next part of the input: at most the maximum, at least the minimum unless forced or last, at an injection's exact place if forced, else at a hash boundary or at a suggested offset of the archive unless last; a boundary outside the buffer does not occur; a poll fails only if the input does |
| `ChunkStream.Stream.Flush` | pbs-client/src/chunk_stream.rs:174-182 | at the end the rest of the buffer is the last chunk, once, and every injection was passed on |
| `ChunkStream.ChunksStep` | pbs-client/src/chunk_stream.rs:149-186 | one emitted chunk is the head of the chunks of what remains |
| `ChunkStream.SegmentCut` | pbs-client/src/chunk_stream.rs:149-161 | a chunk that ends at a hash boundary, or is the last, is the head of the chunks of its stretch |
| `ChunkStream.SegmentForced` | pbs-client/src/chunk_stream.rs:114-131 | a forced chunk, unless empty, is the last chunk of its stretch |
| `ChunkStream.SplitPlain` | pbs-client/src/chunk_stream.rs:79-188 | piece independence: however the input is split and whenever injections are announced in time, the non-empty chunks are those of every stretch of payload between two injections; without injections they are those of the concatenated input; it fails if and only if the input does |
| `ChunkStream.ChunksCover` | pbs-datastore/src/chunker.rs:135-226 | the chunks put together are the input, each within the bounds |
| `MergeChunks.Queue.constructor` | pbs-client/src/merge_known_chunks.rs:27-36 | a new queue holds nothing |
| `MergeChunks.Queue.PollNext` | pbs-client/src/merge_known_chunks.rs:45-97 | a poll passes on the head of the merged stream, and ends with an empty buffer |
| `MergeChunks.MergeStream` | pbs-client/src/merge_known_chunks.rs:27-97 | polling to the end gives the merged stream |
| `MergeChunks.StepKeeps` | pbs-client/src/merge_known_chunks.rs:58-93 | one item leaves the chunks passed on and held unchanged, in order |
| `MergeChunks.MergeKeeps` | pbs-client/src/merge_known_chunks.rs:45-97 | merging keeps every chunk, its kind and the order |
| `MergeChunks.MergeSpaced` | pbs-client/src/merge_known_chunks.rs:60-83 | two adjacent batches of known chunks occur only if the first holds at least 64 |
| `MergeChunks.MergeBound` | pbs-client/src/merge_known_chunks.rs:66-76 | a batch is passed on as soon as it holds 64: grown from single chunks it holds no more, grown from batches it holds less than 64 and one batch, or two batches |
| `MergeChunks.AcknowledgedKeeps` | pbs-client/src/backup_writer.rs:931-951 | turning uploaded chunks into known ones keeps every index entry and the order |
| `MergeChunks.MergeTwice` | pbs-client/src/backup_writer.rs:597-651 | merging, turning uploaded chunks into known ones and merging again appends every chunk once, in order, as known ones, in batches of at least 64 except for the last |
| `UploadStream.Counters.constructor` | pbs-client/src/backup_stats.rs:57-67 | all counters start at zero, in balance |
| `UploadStream.Counters.AddKnownChunk` | pbs-client/src/backup_stats.rs:70-77 | the offset is the length before; total is new plus known plus injected, and no more is reused than sent |
| `UploadStream.Counters.AddNewChunk` | pbs-client/src/backup_stats.rs:79-85 | the same for a new chunk, which is not reused |
| `UploadStream.Counters.AddInjectedChunk` | pbs-client/src/backup_stats.rs:87-97 | the same for an injected chunk, which counts as reused |
| `UploadStream.InjectQueue.constructor` | pbs-client/src/inject_reused_chunks.rs:49-64 | at the start nothing is on its way and the counters agree |
| `UploadStream.InjectQueue.Fetch` | pbs-client/src/inject_reused_chunks.rs:78-84 | an injection is taken off the channel if none is held; at most one is on its way, and it is the next one of the script |
| `UploadStream.InjectQueue.TakeInjection` | pbs-client/src/inject_reused_chunks.rs:78-103 | the next injection is handed on if what was handed on so far ends exactly at its boundary, waits if its boundary is later, and is an error if it is earlier; while the counters are in step it is always due, so neither waits nor fails |
| `UploadStream.InjectQueue.PollNext` | pbs-client/src/inject_reused_chunks.rs:73-126 | the queue hands on the next payload piece or injection of the spliced archive; it fails only if the input does, since both of its own errors are unreachable |
| `UploadStream.AvailableSnoc` | pbs-client/src/backup_writer.rs:812-846 | a chunk sent without upload was known at the start or sent as new before |
| `UploadStream.Uploader.constructor` | pbs-client/src/backup_writer.rs:787-793 | the client starts with an empty log and the chunks known from the previous backup |
| `UploadStream.Uploader.SendEntry` | pbs-client/src/backup_writer.rs:803-810 | one reused chunk is sent with its own digest at the current offset, and booked with its end |
| `UploadStream.Uploader.SendReused` | pbs-client/src/backup_writer.rs:798-811 | the batch names the digests of the reused chunks, in order, and they are booked |
| `UploadStream.Uploader.SendRaw` | pbs-client/src/backup_writer.rs:812-860 | a payload chunk is sent under the digest of its data, as known if and only if that digest is, and otherwise as new; it fails if and only if a new chunk cannot be encoded; it is counted as what it was sent as, and a new one is known from then on |
| `UploadStream.Produce` | pbs-client/src/backup_writer.rs:795-860 | splice refinement: what is sent, by the digests and sizes in its index entries, is exactly the input with every injection at its offset, and its total is their total; the run succeeds if the input does not fail and every part can be encoded |
| `UploadStream.NewQueue` | pbs-client/src/chunk_stream.rs:45-67 | a new source, chunker, stream and counters make a queue at its start |
| `UploadStream.BackUp` | pbs-client/src/backup_writer.rs:776-871 | the whole pipeline, made from nothing with either chunker, sends exactly the input with every injection at its offset and counts its length; it fails if the input does, and succeeds if the input does not and every part can be encoded |
| `UploadProtocol.AppendAccepted` | src/api2/backup/environment.rs:399-437 | the server accepts a list of known chunks that continues the index, and extends it by exactly these |
| `UploadProtocol.AppendIsExact` | src/api2/backup/environment.rs:399-437 | the server takes a list if and only if it knows every chunk and every offset is where the index ends then |
| `UploadProtocol.SendKeeps` | pbs-client/src/backup_writer.rs:912-965 | sending a batch, uploading a new chunk first, keeps the invariant |
| `UploadProtocol.UploadKeeps` | src/api2/backup/environment.rs:205-216 | registering an uploaded chunk with its length keeps the invariant |
| `UploadProtocol.AcknowledgeKeeps` | pbs-client/src/backup_writer.rs:600-617 | a response may arrive at any time and in any order |
| `UploadProtocol.TakenIsKnown` | pbs-client/src/backup_writer.rs:597-624 | a batch leaves the queue only when the server knows all of its chunks |
| `UploadProtocol.TakeKeeps` | pbs-client/src/backup_writer.rs:597-651 | a batch that goes through the second merge into an append keeps the invariant |
| `UploadProtocol.FlushKeeps` | pbs-client/src/merge_known_chunks.rs:51-57 | so does the last batch |
| `UploadProtocol.NextKeeps` | pbs-client/src/backup_writer.rs:587-658 | every step keeps the invariant |
| `UploadProtocol.InitInv` | pbs-client/src/backup_writer.rs:874-890 | a log in order and a fresh index give a state that satisfies the invariant |
| `UploadProtocol.RunKeeps` | pbs-client/src/backup_writer.rs:587-658 | the invariant holds in every state of every run |
| `UploadProtocol.LogFollows` | pbs-client/src/backup_writer.rs:797-860 | the bytes the client hashes are the bytes `compute_csum` hashes on the index of the same chunks, and the sizes add up |
| `UploadProtocol.CoveredFrom` | pbs-client/src/backup_writer.rs:824-846 | from any place of the stream, what is referenced is known or new before |
| `UploadProtocol.UploadIsSafe` | src/api2/backup/mod.rs:593-630 | upload before reference: no append is refused, every appended digest was known at the start or is acknowledged, the appends are a prefix of the chunk sequence and in the end all of it |
| `UploadProtocol.Closes` | src/api2/backup/environment.rs:513-565 | with all chunks appended, the server accepts the client's count, size and checksum |
| `UploadProtocol.ClosedIsWhole` | src/api2/backup/environment.rs:536-561 | an index that is closed with the client's count, size and checksum is the client's, unless the checksum collides |
| `UploadProtocol.NotStuck` | pbs-client/src/backup_writer.rs:912-965 | in every reachable state with something left to do, a step is possible that brings the end nearer |
| `UploadProtocol.CanFinish` | pbs-client/src/backup_writer.rs:587-658 | every run can be continued until all is uploaded, acknowledged and appended |
| `UploadProtocol.BackupIsAccepted` | pbs-client/src/backup_writer.rs:538-544 | pipeline and upload together: the server closes the index with the client's counters and checksum |
| `Restore.ArchiveIsSent` | pbs-client/src/backup_writer.rs:797-860 | the archive described by the index of a log is, byte for byte, what was sent, in every store that holds the sent chunks |
| `Restore.SentIsRestorable` | pbs-client/src/backup_writer.rs:587-658 | for every run of the upload queue and every store that holds what was sent, the server's index describes it byte for byte |
| `Restore.SentIsUploadable` | pbs-client/src/backup_writer.rs:874-965 | on every server with a new index that knows the previous chunks there is an upload of what was sent that gets through |
| `Restore.BackupRestores` | pbs-client/src/backup_writer.rs:587-658 | backup and restore in one: after a successful run of the whole pipeline an upload that gets through exists, and every one makes the server's index describe the input with every injection replaced by its bytes at its offset, in every store that holds what was sent |
| `Restore.RestoreBackup` | pbs-datastore/src/dynamic_index.rs:473-494 | reading that index to its end through the buffered reader restores these bytes, and fails if and only if the store does |
| `DynamicIndex.BinarySearch` | pbs-datastore/src/dynamic_index.rs:133-156 | without sorted ends: the search succeeds if and only if the offset is in range, and what it finds contains the offset |
| `DynamicIndex.ChunkFromOffset` | pbs-datastore/src/dynamic_index.rs:219-235 | a chunk is found if and only if the offset is below the last end, with the right relative position |
| `DynamicIndex.FoundIsUnique` | pbs-datastore/src/dynamic_index.rs:133-156 | with nondecreasing ends only one chunk contains the offset |
| `DynamicIndex.ComputeCsum` | pbs-datastore/src/dynamic_index.rs:180-191 | the loop hashes the entry bytes of the file and gives the archive size |
| `DynamicIndex.IndexWriter.constructor` | pbs-datastore/src/dynamic_index.rs:255-293 | a new index file is a header without checksum |
| `DynamicIndex.IndexWriter.AddChunk` | pbs-datastore/src/dynamic_index.rs:324-343 | an entry is added to file and checksum alike, and refused after closing |
| `DynamicIndex.IndexWriter.Close` | pbs-datastore/src/dynamic_index.rs:295-321 | closing puts the checksum of all entries into the header, once |
| `DynamicIndex.OpenIndex` | pbs-datastore/src/dynamic_index.rs:84-115 | a file opens only with the right size, magic number and at least one entry |
| `DynamicIndex.ParseEntryBytes` | pbs-datastore/src/index_mmap.rs:32-60 | mapping the entry bytes gives the entries back |
| `DynamicIndex.IndexRoundTrip` | pbs-datastore/src/dynamic_index.rs:84-115 | a closed index opens if and only if it is not empty, with the entries added and the checksum that recomputing gives |
| `DynamicIndex.OpenIsExact` | pbs-datastore/src/dynamic_index.rs:84-115 | a file opens if and only if it has a header with the magic number and then whole entries, at least one; the index is then all of the file after the header |
| `DynamicIndex.HeaderFields` | pbs-datastore/src/dynamic_index.rs:22-32 | where magic number, id, time and checksum are, and zeroes for the rest |
| `Readers.ChunkIsSlice` | pbs-datastore/src/dynamic_index.rs:193-209 | a chunk is the slice of the archive between its start and end |
| `Readers.Backend.ReadChunk` | pbs-datastore/src/dynamic_index.rs:387-388 | a chunk is read if and only if it is stored and the read does not fail |
| `Readers.BufferedReader.constructor` | pbs-datastore/src/dynamic_index.rs:393-405 | a new reader stands at the start with an empty buffer |
| `Readers.BufferedReader.Fetch` | pbs-datastore/src/dynamic_index.rs:350-390 | a fetched chunk has the indexed range and size; it fails only if the read does or the chunk is not stored with that size |
| `Readers.BufferedReader.Access` | pbs-datastore/src/dynamic_index.rs:411-425 | the cache gives what fetching would give, whichever entries it drops, and fails only as fetching does |
| `Readers.BufferedReader.BufferChunk` | pbs-datastore/src/dynamic_index.rs:411-434 | the buffer holds what fetching the chunk would give, through the cache or not; it fails only as fetching does |
| `Readers.BufferedReader.BufferedRead` | pbs-datastore/src/dynamic_index.rs:436-470 | by buffer, sequential shortcut or search: the tail of the chunk that contains the offset, and nothing only at the end; the search never fails, so only the store does |
| `Readers.BufferedReader.Read` | pbs-datastore/src/dynamic_index.rs:473-494 | a read is the archive's slice at the current offset and moves it on; on an error nothing changes; with all chunks stored it fails if and only if the store does |
| `Readers.BufferedReader.Seek` | pbs-datastore/src/dynamic_index.rs:496-515 | a seek succeeds if and only if the target lies in the archive and the archive is below 2^63 bytes, in all three modes, despite `i64` wrap-around |
| `Readers.ReadAll` | pbs-datastore/src/dynamic_index.rs:473-494 | reading to the end gives the whole archive, unless the store fails |
| `Readers.CachedChunkReader.constructor` | pbs-datastore/src/cached_chunk_reader.rs:49-70 | a new reader has an empty cache; the store may lack chunks of the archive |
| `Readers.CachedChunkReader.Access` | pbs-datastore/src/cached_chunk_reader.rs:24-40 | the cache gives what reading the chunk would give, and fails only if the read does or the chunk is not stored |
| `Readers.CachedChunkReader.Part` | pbs-datastore/src/cached_chunk_reader.rs:77-98 | one turn of the loop reads a non-empty slice of the archive, unless the offset is at or past its end; it fails only if the store does or lacks a chunk |
| `Readers.CachedChunkReader.ReadAt` | pbs-datastore/src/cached_chunk_reader.rs:74-101 | the buffer receives the archive's bytes from the offset on and is short only at the end of the archive; it fails only if the store does or lacks a chunk |
| `LockFile.OpenKeeps` | pbs-datastore/src/backup_info.rs:461-476 | opening or creating the lock file keeps the invariant |
| `LockFile.FlockKeeps` | pbs-datastore/src/backup_info.rs:721-753 | so does a granted `flock`, shared or exclusive |
| `LockFile.CompareKeeps` | pbs-datastore/src/backup_info.rs:1225-1254 | a lock that passes the second stat is for the file at the path |
| `LockFile.LeaveKeeps` | pbs-datastore/src/backup_info.rs:1241-1253 | giving up or dropping a lock keeps the invariant |
| `LockFile.UnlinkKeeps` | pbs-datastore/src/backup_info.rs:899-935 | deleting the lock file under an exclusive lock leaves no other guard for a file that is gone |
| `LockFile.NextKeeps` | pbs-datastore/src/backup_info.rs:1225-1254 | every step of any handle keeps the invariant |
| `LockFile.RunKeeps` | pbs-datastore/src/backup_info.rs:1225-1254 | the invariant holds in every state of every run |
| `LockFile.MutualExclusion` | pbs-datastore/src/backup_info.rs:1225-1254 | two guards for one path are both shared and for the file that is there; none exists beside an exclusive one |
| `LockFile.FreeLockIsHeld` | pbs-datastore/src/backup_info.rs:1225-1254 | a lock that no other is in the way of can be had, in three steps, on the file at the path or a new one, and nobody else's changes; shared locks are not in each other's way |
| `LockFile.HeldCanLeave` | pbs-datastore/src/backup_info.rs:1241-1253 | a lock that is held can be dropped, which leaves the files alone |
| `LockFile.HeldCanUnlink` | pbs-datastore/src/backup_info.rs:899-935 | under an exclusive lock the file can be deleted, and only that one is |
| `LockFile.RemovedIsGone` | pbs-datastore/src/backup_info.rs:408-433 | after a deletion, a guard for the path belongs to a new file |
| `ChunkStore.InsertLeaves` | pbs-datastore/src/chunk_store.rs:680-783 | a successful insert leaves the chunk present and accessed now, with the reported size, and nothing else changed; only an empty or bigger file is replaced, by an encrypted chunk only an empty one |
| `ChunkStore.InsertDecides` | pbs-datastore/src/chunk_store.rs:680-783 | an insert fails if and only if the file there is not regular or refuses an encrypted chunk, for the three reasons of the source; it writes the chunk, with its size and kind, if and only if there is no file, an empty one and the chunk is not, or a bigger one and the chunk is not encrypted; else the file stays; a chunk that is not empty never leaves an empty file |
| `ChunkStore.InsertTwice` | pbs-datastore/src/chunk_store.rs:701-704 | inserting a chunk again finds it and changes nothing |
| `ChunkStore.InsertKeeps` | pbs-datastore/src/chunk_store.rs:669-783 | inserting keeps safety and balance |
| `ChunkStore.TouchKeeps` | pbs-datastore/src/chunk_store.rs:228-286 | touching keeps safety and balance |
| `ChunkStore.SweepKeeps` | pbs-datastore/src/chunk_store.rs:437-586 | sweeping one file keeps safety and balance |
| `ChunkStore.NextKeeps` | pbs-datastore/src/chunk_store.rs:437-586 | every step of any thread keeps safety and balance |
| `ChunkStore.RunKeeps` | pbs-datastore/src/chunk_store.rs:437-586 | both hold in every state of every run |
| `ChunkStore.SweepIsSafe` | pbs-datastore/src/chunk_store.rs:437-586 | in every interleaving, a chunk inserted or touched at or after the minimum access time stays; removed, pending and disk bytes and counts are those of the files examined of each age, and add up to all of them |
| `ChunkStore.NothingLost` | pbs-datastore/src/chunk_store.rs:549-586 | every byte and every chunk examined is in exactly one of the sums, every damaged copy in one or in use |
| `ChunkStore.UsedInTimeStays` | pbs-datastore/src/chunk_store.rs:228-286 | in terms of the steps alone: after a successful insert or touch at or after the minimum access time the chunk is there in every later state |
| `ChunkStore.InsertedStays` | pbs-datastore/src/chunk_store.rs:680-783 | a chunk inserted in time stays stored: in every later state of every interleaving its file is there and not empty, whatever was there before |
| `ChunkStore.StaysSettled` | pbs-datastore/src/chunk_store.rs:469-520 | once an entry had its turn, it is gone, no regular file, new enough or a chunk used since, to the end of the sweep |
| `ChunkStore.KeepsNew` | pbs-datastore/src/chunk_store.rs:541-586 | a file that no entry names, or that is as new as the minimum access time, is not removed |
| `ChunkStore.SweepSweeps` | pbs-datastore/src/chunk_store.rs:437-586 | a whole sweep with other threads in between settles every entry, removes nothing else, and counts exactly the files that were there at their turn |
| `ChunkStore.Store.constructor` | pbs-datastore/src/chunk_store.rs:194-214 | a sweep starts with nothing counted |
| `ChunkStore.Store.Others` | pbs-datastore/src/chunk_store.rs:669-678 | inserts and touches of other threads keep safety; they remove nothing and change only chunks, at the time they happen |
| `ChunkStore.Store.Insert` | pbs-datastore/src/chunk_store.rs:669-783 | the insert on the store object is that step, with its result; it changes nothing when it fails, and reports the size of the file that is there when it succeeds |
| `ChunkStore.Store.Touch` | pbs-datastore/src/chunk_store.rs:241-286 | the touch on the store object is that step; it sets the access time of that chunk and changes nothing else, reports whether the chunk is there, and fails if and only if it has to be there and is not |
| `ChunkStore.Store.SweepUnused` | pbs-datastore/src/chunk_store.rs:437-586 | the loop gives every entry its turn; at its end every entry is gone, new enough or used since, listed markers are gone, nothing else was removed, every chunk used in time is there, and the sums are those of exactly the files counted |
| `TokenShadow.CheckKeeps` | pbs-config/src/token_shadow.rs:77-90 | the fast path keeps the invariant |
| `TokenShadow.RefreshKeeps` | pbs-config/src/token_shadow.rs:92-111 | so does the slow path that reads the generation again |
| `TokenShadow.StatKeeps` | pbs-config/src/token_shadow.rs:113-132 | so does the comparison of the file's metadata under the write lock |
| `TokenShadow.BumpKeeps` | pbs-config/src/token_shadow.rs:134-141 | so does the bump when a changed file is noticed |
| `TokenShadow.InsertKeeps` | pbs-config/src/token_shadow.rs:257-275 | a verified secret is cached only if the generation did not move in between |
| `TokenShadow.WriteKeeps` | pbs-config/src/token_shadow.rs:277-297 | writing the file keeps cached secrets right for its old or new contents |
| `TokenShadow.AnnounceKeeps` | pbs-config/src/token_shadow.rs:299-303 | the bump puts every cache behind the generation |
| `TokenShadow.ApplyKeeps` | pbs-config/src/token_shadow.rs:303-337 | the change goes into the own cache, whose other secrets are right for the file |
| `TokenShadow.FinishKeeps` | pbs-config/src/token_shadow.rs:339-355 | taking over the new metadata, or dropping the cache, keeps the invariant |
| `TokenShadow.ReadKeeps` | pbs-config/src/token_shadow.rs:145-173 | reading the generation and then the file keeps the invariant: a match is right while the generation stands |
| `TokenShadow.NextKeeps` | pbs-config/src/token_shadow.rs:77-355 | every step of any thread of any process keeps the invariant |
| `TokenShadow.RunKeeps` | pbs-config/src/token_shadow.rs:77-173 | the invariant holds in every state of every run |
| `TokenShadow.Origin` | pbs-config/src/token_shadow.rs:77-122 | a decision from the cache goes back to a moment of the same request at which the generation was read |
| `TokenShadow.HitIsSound` | pbs-config/src/token_shadow.rs:77-173 | every secret accepted from a cache was, at a moment during that request, right for the shadow file or for what the one unfinished change had just replaced |
| `TokenShadow.HitIsFresh` | pbs-config/src/token_shadow.rs:77-122 | every secret accepted from a cache was accepted because the cache holds it and either is of the current generation with metadata checked less than 60 seconds ago, or has the metadata the file has |
| `TokenShadow.AcceptIsSound` | pbs-config/src/token_shadow.rs:145-173 | every secret accepted otherwise fitted the hash in the shadow file at a moment of that very request |
| `TokenShadow.RejectIsJust` | pbs-config/src/token_shadow.rs:145-173 | a request is rejected only if its token or secret did not fit the shadow file at a moment of that very request |
| `TokenShadow.RequestOf` | pbs-config/src/token_shadow.rs:145-173 | every verification answers the request that was made: same token, same secret, from its beginning on |
| `TokenShadow.VerifierMoves` | pbs-config/src/token_shadow.rs:77-173 | whatever other threads hold, a request can move on until there is a verdict |
| `TokenShadow.ChangeIsStored` | pbs-config/src/token_shadow.rs:277-303 | once a change is written the file holds the hash of the new secret, or nothing for a deleted token |
| `TokenShadow.DoubtEmpties` | pbs-config/src/token_shadow.rs:117-355 | a cache whose file may not be the one it knows is emptied: on new or changed metadata, on unreadable metadata after a change, on a change by hand before one |
| `TokenShadow.QuietCachesAreRight` | pbs-config/src/token_shadow.rs:207-355 | with no change under way, every secret in a current cache and in the mutating process' own is right for the file |
| `AclTree.SplitAclPath` | pbs-config/src/acl.rs:37-50 | components are neither empty nor hold a slash |
| `AclTree.SplitAclPathIs` | pbs-config/src/acl.rs:37-50 | a name is one component, nothing is none, and a slash separates the components of what is before and after it |
| `AclTree.Tree.constructor` | pbs-config/src/acl.rs:334-340 | in a new tree nobody has a role on any path |
| `AclTree.Tree.Do` | pbs-config/src/acl.rs:382-445 | an operation changes exactly the roles it names, for every user, token and group on every path, and keeps a tree in order; a role added is there with its flag, `NoAccess` alone, any other without `NoAccess` and with all earlier roles as they were |
| `AclTree.ApplyAt` | pbs-config/src/acl.rs:382-445 | what each of the six operations makes of the roles of any subject on any path; an added role is there with its flag, drives out all others if it is `NoAccess`, and only `NoAccess` if not |
| `AclTree.InsertUserAt` | pbs-config/src/acl.rs:305-314 | inserting adds the role with its flag to the map of that id on that path; `NoAccess` clears the map first, any other role only takes out `NoAccess`; no other map changes |
| `AclTree.InsertGroupAt` | pbs-config/src/acl.rs:294-303 | the same for a group |
| `AclTree.DeleteUserAt` | pbs-config/src/acl.rs:279-285 | deleting takes the role out of the map of that id on that path, whether it was there or not, and changes no other |
| `AclTree.DeleteGroupAt` | pbs-config/src/acl.rs:271-277 | the same for a group |
| `AclTree.DeleteNodeAt` | pbs-config/src/acl.rs:407-421 | deleting a node takes all roles on and below its path, and none elsewhere; the root is not deleted |
| `AclTree.DeleteAuthidAt` | pbs-config/src/acl.rs:287-292 | deleting an id takes all of its roles everywhere, and nobody else's |
| `AclTree.PutOk` | pbs-config/src/acl.rs:294-314 | adding a role keeps `NoAccess` alone in its map, and gives the role with its flag beside what it does not drive out |
| `AclTree.InsertUserOk` | pbs-config/src/acl.rs:441-445 | inserting a user's role anywhere keeps the whole tree in order |
| `AclTree.InsertGroupOk` | pbs-config/src/acl.rs:431-435 | the same for a group |
| `AclTree.DeleteUserOk` | pbs-config/src/acl.rs:395-402 | deleting a user's role keeps the tree in order |
| `AclTree.DeleteGroupOk` | pbs-config/src/acl.rs:382-391 | the same for a group |
| `AclTree.DeleteNodeOk` | pbs-config/src/acl.rs:407-421 | deleting a node keeps the tree in order |
| `AclTree.DeleteAuthidOk` | pbs-config/src/acl.rs:287-292 | deleting an id everywhere keeps the tree in order |
| `AclTree.ApplyOk` | pbs-config/src/acl.rs:382-445 | every operation with known roles, valid ids and clean names keeps the tree in order |
| `AclTree.BuildOk` | pbs-config/src/acl.rs:271-445 | every tree that the operations can build has `NoAccess` alone in its maps, known roles, valid ids and clean names |
| `AclTree.ExtractLoop` | pbs-config/src/acl.rs:212-243 | the loop over the roles, in any order, gives `NoAccess` alone or the roles in effect |
| `AclTree.RolesLoop` | pbs-config/src/acl.rs:652-680 | roles depend only on the components of the path, flattened at slashes |
| `AclTree.ExtractMeans` | pbs-config/src/acl.rs:212-243 | on the end of a path every role is in effect, above it only propagating ones; `NoAccess` in effect drives out the others and does not propagate further |
| `AclTree.RolesAreNearest` | pbs-config/src/acl.rs:652-680 | the roles on a path are those of the deepest node on it that has roles in effect for the id, and none if there is no such node |
| `AclTree.SameMapsSameRoles` | pbs-config/src/acl.rs:652-680 | trees that agree on an id's role maps along a path agree on its roles there |
| `AclConfig.ParseInto` | pbs-config/src/acl.rs:569-585 | the nested loops insert every role of the line for every holder into the tree, and stop at the first unknown role or id |
| `AclConfig.ParseLine` | pbs-config/src/acl.rs:548-589 | a line is taken over whole, or refused with its reason |
| `AclConfig.Load` | pbs-config/src/acl.rs:591-642 | the loop over lines fills the tree object line by line and fails at the first bad line |
| `AclConfig.TrimIs` | pbs-config/src/acl.rs:571-573 | trimming takes white space off both ends, all of it and nothing else |
| `AclConfig.PathRoundTrip` | pbs-config/src/acl.rs:514-539 | the parser finds the path components the printer wrote |
| `AclConfig.RenderParses` | pbs-config/src/acl.rs:548-589 | a printed line parses as one insertion per holder and role |
| `AclRoundTrip.KeyDeterminesHolders` | pbs-config/src/acl.rs:478-496 | roles that share a line have the same holders |
| `AclRoundTrip.NoAccessLine` | pbs-config/src/acl.rs:501-512 | no other role shares a line with `NoAccess`, so shortening the list to it loses nothing |
| `AclRoundTrip.RoleListSplits` | pbs-config/src/acl.rs:501-512 | a printed role list splits into exactly its roles |
| `AclRoundTrip.ConfigSpeaks` | pbs-config/src/acl.rs:447-546 | parsing what was printed performs the insertions of all nodes |
| `AclRoundTrip.PerformAt` | pbs-config/src/acl.rs:548-589 | what parsing does to one id or group on one path |
| `AclRoundTrip.TreePuts` | pbs-config/src/acl.rs:447-542 | for one id or group on one path the printed tree makes just the insertions of the node there |
| `AclRoundTrip.PutAllGives` | pbs-config/src/acl.rs:305-314 | putting roles in any order and number gives the part of the map that was put, if `NoAccess` is alone |
| `AclRoundTrip.MapsSurvive` | pbs-config/src/acl.rs:447-642 | printing and parsing keep every role map of every group and of every id but the superuser, who has none afterwards |
| `AclRoundTrip.PrintParseKeepsRoles` | pbs-config/src/acl.rs:447-680 | for every tree that the operations can build, the printed form parses, and every id but the superuser has the same roles on every path |
| `UserInfo.CollectPrivs` | pbs-config/src/cached_user_info.rs:162-173 | the loop gathers the privileges of all roles and those of the propagating ones |
| `UserInfo.RolesGrant` | pbs-config/src/acl.rs:652-680 | an id has a privilege from its roles if and only if a role grants it that is in effect on the deepest node with roles in effect |
| `UserInfo.LookupMeans` | pbs-config/src/cached_user_info.rs:144-186 | only `root@pam` itself has the administrator's privileges, everybody else exactly what a role in the tree grants, and a token, of `root@pam` as well, only what its owner has too; the same for what propagates |
| `UserInfo.QueryBelow` | pbs-config/src/cached_user_info.rs:188-211 | the loop with its shortcut and early return answers the query over all candidates |
| `UserInfo.RolesSnoc` | pbs-config/src/acl.rs:652-680 | one component further, roles of the node there replace the inherited ones: all of them on the path, the propagating ones for what lies below |
| `UserInfo.PropagatedReaches` | pbs-config/src/cached_user_info.rs:157-186 | what propagates on a path reaches below it, for users and for tokens limited by their owner |
| `UserInfo.ReachingIsPropagated` | pbs-config/src/cached_user_info.rs:157-186 | unless roles end on the anchor, what reaches below it propagates on it |
| `UserInfo.NodeIsListed` | pbs-config/src/acl.rs:316-331 | every node below with roles of the id is among the child paths |
| `UserInfo.ListedIsNode` | pbs-config/src/acl.rs:316-331 | every child path is the anchor path, a slash and the names on the way to a node below with roles of the id |
| `UserInfo.FlattenBelow` | pbs-config/src/acl.rs:682-691 | a child path as text flattens to the anchor components followed by its own |
| `UserInfo.QueryIsSound` | pbs-config/src/cached_user_info.rs:188-211 | for a non-empty anchor, if the answer is yes then some path strictly below has one of the privileges, for users and for tokens |
| `UserInfo.BelowIsFound` | pbs-config/src/cached_user_info.rs:157-186 | for every id and every anchor, a privilege below is among those that reach below the anchor, or is found on a node with roles of the id, or on or below one with roles of its owner |
| `UserInfo.OwnIsAsked` | pbs-config/src/cached_user_info.rs:202-211 | with a non-empty anchor, every node below with roles of the id itself is looked at |
| `UserInfo.AnswerIs` | pbs-config/src/cached_user_info.rs:188-211 | with a non-empty anchor the answer is yes if and only if one of the privileges propagates on the anchor or is had on a node below with roles of the id |
| `UserInfo.QueryIsExact` | pbs-config/src/cached_user_info.rs:188-211 | for every user and token and every anchor: a path below has one of the privileges if and only if the answer is yes, or roles end on the anchor and the privilege is inherited past it, or it is found on or below a node with roles of a token's owner, or the anchor is empty and it is found on a node with roles of the id; the answer is wrong exactly if one of these three applies and nothing that the query looks at meets, stated without the answer itself |
| `UserInfo.QueryMisses` | pbs-config/src/cached_user_info.rs:196-200 | on a tree built by operations, with a user whose roles end on a non-empty anchor, the answer is no although a path below has the privilege |
| `UserInfo.QueryMissesToken` | pbs-config/src/cached_user_info.rs:202-211 | on a tree built by operations, with a token and a non-empty anchor on which no roles end, the answer is no although a path below has the privilege |
| `UserInfo.QueryMissesFromRoot` | pbs-config/src/acl.rs:682-691 | on a tree built by operations, with a user and the empty anchor, the answer is no although a path below has the privilege |
| `UserInfo.EmptyAnchor` | pbs-config/src/acl.rs:682-691 | with an empty anchor the answer is exactly what reaches from the root to everything below; no node below is looked at |

## Left out

- SHA-256, AES, zstd, CRC and the blob formats: digests are an arbitrary function to 32 bytes; for the upload, parts of the input that differ in length are taken to have different digests.
- HTTP transport, S3 backends, memory mapping, `fsync`, directory creation and permissions: I/O without logic of its own here.
- `CatalogReader::find`, `dump` and `list_dir_contents`, `catalog_shell.rs`: traversals over the modelled `read_dir`.
- `FixedChunkStream`, fixed indexes and their checksum: simpler cases of what is modelled.
- `SeekableCachedChunkReader`: rests on the buffers of an asynchronous runtime.
- `find_most_used_chunks` in `index.rs`: its list drops the largest count when it is full, so it does not hold the most used chunks as its documentation says, and nothing that is modelled rests on it.
- `traffic_control_cache.rs` (a best-match loop over networks), `backup_repo.rs` (regular expressions), configuration sections (a library that is not part of this model) and the user interface.
- `check_acl_path`, group membership (no user is a member of a group in the source either), and Unicode white space in configuration lines.
- CatalogWriter.CatalogRoundTrip: speaks of files shorter than 2^64 bytes, because the position in the file is a 64-bit number there.
- Chunker.ConfigOf: leaves out the unused floating-point discriminator and the panic for an average that is not a power of two, which is a precondition.
- Chunker.PayloadChunker.Scan: takes suggestions that arrive during a scan to be in the queue at its start; which boundary wins depends on arrival, so piece independence is claimed for the plain chunker only, with or without injections.
- ChunkStream.Stream.PollNext: an input that is not ready is an empty piece, so waking and waiting are not modelled.
- UploadStream.Produce: injections come in order with matching sizes and at least one payload byte after the last, as the archiver produces them; an injection announced only after the last byte was read would never be taken. 64-bit wrap-around of the counters and the 32-bit chunk length of the server are not modelled.
- UploadStream.BackUp: injections come as for `UploadStream.Produce`, and injected chunks are known to the server with the length of their digest.
- Restore.BackupRestores: as for `UploadStream.BackUp`; that an upload gets through and that the store holds what was sent are hypotheses.
- ChunkStream.SplitPlain: injections come as for `UploadStream.Produce`.
- UploadProtocol.UploadIsSafe: the server's answers other than the ones to appends and uploads, broken connections and several indexes at once are not modelled; that every upload is answered is not claimed, only that it can be.
- DynamicIndex.ChunkFromOffset: an empty index, on which the source panics, is excluded by opening.
- Readers.CachedChunkReader.ReadAt: a stored chunk of the wrong size, on which the source panics or reads other bytes, is excluded; the bytes of a buffer after a failed read are not described.
- LockFile.MutualExclusion: group and snapshot locks only; manifest locks have other unlink sites. Path encoding and lock directories are left out.
- ChunkStore.SweepIsSafe: filesystem backend only, without remote markers being set; a failing `unlink` ends the sweep and is not modelled.
- ChunkStore.InsertedStays: chunks to insert are not empty, because every encoded chunk has a header.
- AclTree.Tree.Do: nodes are values that an operation rebuilds along its path; the source changes nested maps in place, so sharing and update order inside one operation are not captured.
- TokenShadow.HitIsSound: one mutating process, generation counter available, no edits of the file by hand and no crash between writing and bumping. With several mutating processes the claim rests on file metadata as a version stamp.
- AclConfig.WriteConfig: the printer's loops over ordered maps are comprehensions and recursion on values here, and the order of a sorted set is any fixed listing; the text of an id comes from a library that is not part of this model: valid ids are those whose text holds no separator and is read back as the id.
