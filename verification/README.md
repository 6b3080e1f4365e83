# RPAK archives: packer, format and reader

An RPAK archive is a compressed, indexed, random-access form of a simple thing: a map from
normalized paths to bytes. This project models the Rust crate `rasen-archive` in Dafny and proves
that its three interlocking parts keep agreeing with that map.

1. The **packer** streams each asset through a reusable buffer, despite short and interrupted
   reads. It cuts the asset into fixed-size chunks, stores each chunk raw or LZ4-compressed, pads to
   a power-of-two alignment, optionally seals each block with its chunk index as associated data,
   and at the end appends the table of contents (TOC) and rewrites the header.
2. The **TOC and header codec** and the **layout validator**: a byte-level encoder and decoder, and
   a check with an ownership bitmap that decides whether two tables describe a legal archive.
3. The **reader** opens an archive within limits, builds a sorted hash index with collision
   buckets, and serves full, chunk, clipped-range and exact-range reads and a verification pass.

## How it is built

The code that changes things step by step is imperative here too: `Wire.Cursor` is the decoder's
cursor, `Source.Device` a file or stream with an arbitrary schedule of short and interrupted reads,
`Packer.Writer` a seekable destination that may fail in the middle of any write, `Packer.Packer`
the streaming packer with its `Valid` invariant and a ghost history of the files added,
`Reader.ArchiveScratch` the reusable buffers. Each loop is proved equal to a function of its inputs,
and the laws are proved about those functions:

| file | contents |
|---|---|
| `Prelude.dfy` | bounded integers, errors, constants, and `Env`, the library functions |
| `Bits.dfy`, `Wire.dfy` | bitwise arithmetic; little-endian fields, the cursor, `align_up` |
| `Path.dfy` | path normalization, and UTF-8 (section 4 of RFC 3629) |
| `Header.dfy`, `Toc.dfy` | the two codecs |
| `Layout.dfy` | legal tables, their validator, conservation |
| `Source.dfy` | positioned and streaming reads under any schedule |
| `Index.dfy` | the sorted hash index, its check, the lookups |
| `Cipher.dfy` | XOR, blocks under AEAD, exact decompression |
| `Archive.dfy`, `Reader.dfy`, `Access.dfy` | what reads mean, the read loops, the public reads and their laws |
| `Sharing.dfy` | any sequence of reads through one scratch |
| `Integrity.dfy`, `Ranges.dfy`, `ById.dfy` | which blocks are let through; range reads and reads by id of any archive |
| `Opening.dfy`, `Acceptance.dfy`, `Failures.dfy` | opening; what it accepts, described from the outside; what can still fail afterwards |
| `Packing.dfy`, `Packer.dfy`, `PackInvariant.dfy` | the packer as functions, as an object, and its invariant |
| `Format.dfy` | the file format byte by byte |
| `RoundTrip.dfy`, `PackedAccess.dfy`, `Delivery.dfy` | from packing through opening to reading, as laws and as one method |
| `Unfinished.dfy`, `Outcomes.dfy` | what a failed packer leaves behind; when packing succeeds |

`Prelude.Env.Lawful` is all that is trusted about libraries: LZ4 decompression undoes compression,
a non-empty input compresses to something non-empty and decompression respects its output size; a
nonce has 24 bytes; a sealed block is 16 bytes longer than its content and opens, under the same
key, nonce and associated data, to that content. XXH3 is an uninterpreted function to `u64` and is
never assumed to be injective. `Prelude.ContractsAreConsistent` gives a model of these contracts.

## Main results

- `RoundTrip.PackOpenRead`: for any files, options, key and limits, if the packer succeeds then
  opening accepts its output **exactly when** it is within the limits, and reading any path from any
  archive opened from it returns the bytes of the file answering to that path, "too many chunks" if
  one operation may not decode that many, or "not found" if no file answers.
- `Packer.Packer.AddReader`, `Packer.Packer.FinishPack`: the object does exactly that on a
  destination that may fail and from readers that deliver in pieces. `Delivery.PackOpenAndRead`
  composes the operations themselves.
- `Unfinished.FailedPackerIsRejected`, `Unfinished.CutHeaderIsRejected`: until the header is begun
  the output starts with zeros and is a bad magic. A failure while it is written leaves a prefix of
  it; such output is refused as well, or it is already the complete image because only zeros are
  missing. For a cut through the raw TOC size this takes one more fact about LZ4, named there: the
  decoder refuses a buffer that is too small.
- `Sharing.ServeAll`: reads of any kind, of any archives, one after the other through one scratch
  give what each of them gives by itself, whatever failed before.
- `Outcomes.AddFileFaults`, `Outcomes.FinishFaults`, `Outcomes.OneFileOpens`: the errors a run can
  still end with, exactly when a name is refused, and a family of runs that do succeed and open;
  `Outcomes.RunSucceeds` gives what suffices for any run.
- `Acceptance.AcceptedExactly`: opening accepts a file exactly when it is put together from a
  header, legal blocks and a TOC as described there, within the caller's and the hard limits, each
  in the caller's own numbers. `Layout.ValidateLayout` and `Index.ValidateIndex` decide legality.
- `Integrity.ReadIsChecked`, `Integrity.VerifyIsChecked`: reads and verification succeed exactly when
  every block involved decodes to bytes with its recorded checksum.
- `Ranges.RangeIsExact`, `PackedAccess.PackOpenAccess`: ranges, chunks and reads by id give what was
  packed even where the whole asset has too many chunks for one operation.
- `Format.FileLayout`, `Format.BlockLayout`, `Format.RunIsTight`: the bytes of a finished file.
- `Access.RangesRefineRead`, `Access.ChunksRefineRead`, `Access.VerifyIsExact`: every other way to
  read agrees with the full read, for every argument.
- `Failures.ReadsFailAsForeseen`, `Failures.RangesFailAsForeseen`: once an archive is open, the
  overflow, ordering and size checks that reading repeats for safety never fail.

## Where the code and its documentation differ

- The repository's `README.md:123-124` promises that `read_range` clips at the end of the asset. The code
  (`crates/rasen-archive/src/archive/reader.rs:652-654`) refuses with an invalid-range error when
  the requested end is not a `u64`, although the offset is inside the asset. The model follows the
  code: `Access.ClippingFailsOnOverflow` gives such a request, and
  `Access.ClippingHoldsUnlessEndOverflows` says exactly when clipping does hold.
- A stored path need not be in normal form: the decoder normalizes it. Re-encoding a decoded TOC
  therefore gives back the same bytes exactly when all paths were stored in normal form
  (`Toc.ReencodeDecoded`); `Toc.RespelledToc` is an accepted TOC where it does not.
- In a production archive a path that was never packed finds an entry when its hash collides.
  Lookups there are stated in terms of hashes (`RoundTrip.Answers`, `Index.Names`).
- The packer does not enforce the reader's limits on counts, sizes and bucket lengths.
  `RoundTrip.WithinLimits` lists what is left to the caller, and
  `RoundTrip.PackedArchiveOpensExactly` proves that this list is complete and nothing in it is
  superfluous.

## Model

| member | source | states |
|---|---|---|
| Wire.LittleEndianBijection | crates/rasen-archive/src/format/io.rs:13-29 | every field value has one byte string and every byte string one value |
| Format.DigitOf | crates/rasen-archive/src/format/io.rs:13-29 | byte j of a stored number is its digit of weight 256^j |
| Wire.Cursor.Take | crates/rasen-archive/src/format/io.rs:53-64 | delivers the next n bytes and moves past them, or fails and stays where it is: with an overflow if the end is no u64, as truncated if it is past the data |
| Wire.Cursor.U16 | crates/rasen-archive/src/format/io.rs:66-72 | the next two bytes as a number, like a read at that position |
| Wire.Cursor.U32 | crates/rasen-archive/src/format/io.rs:74-80 | the next four bytes as a number |
| Wire.Cursor.U64 | crates/rasen-archive/src/format/io.rs:82-88 | the next eight bytes as a number |
| Wire.AlignUpIsLeastMultiple | crates/rasen-archive/src/format/io.rs:5-11 | add-and-mask gives the least multiple of the alignment at or above the value; it fails only if that multiple is no u64 |
| Wire.ValidAlignments | crates/rasen-archive/src/format/mod.rs:48-53 | the alignments are exactly the powers of two up to 2^20 |
| Path.NormalizePath | crates/rasen-archive/src/path.rs:50-80 | the loop equals: split at either slash, drop empty and "." pieces, join with "/", with the same rejections |
| Path.NormalizedIsClean | crates/rasen-archive/src/path.rs:50-80 | the result never grows and has no NUL, no backslash and no empty, "." or ".." piece |
| Path.NormalizeIdempotent | crates/rasen-archive/src/path.rs:121-127 | normalizing twice changes nothing |
| Path.NormalizeSeparates | crates/rasen-archive/src/path.rs:50-80 | two accepted paths have the same normal form exactly when their kept pieces agree |
| Path.NormalFormsAreCleanPaths | crates/rasen-archive/src/path.rs:50-80 | the paths left unchanged are exactly the clean ones within the two limits |
| Path.RejectedExactly | crates/rasen-archive/src/path.rs:50-80 | which paths are invalid, by their bytes and pieces: too long, a NUL, a leading slash of either kind, 1024 separators, a ".." piece, or nothing to keep |
| Path.NormalizeKeepsUtf8 | crates/rasen-archive/src/path.rs:50-80 | normalizing text gives text: no character is ever cut |
| Header.HeaderRoundTrip | crates/rasen-archive/src/format/header.rs:27-61 | reading a written header gives it back, for all field values |
| Header.HeaderIsCanonical | crates/rasen-archive/src/format/header.rs:43-61 | the 60 bytes of any header that parses are the bytes it would be written as |
| Format.HeaderLayout | crates/rasen-archive/src/format/header.rs:27-41 | which bytes of the 60 hold which field |
| Header.ZeroHeaderIsRejected | crates/rasen-archive/src/format/header.rs:43-46 | a header area that still starts with zero is a bad magic |
| Header.ValidFlagsExactly | crates/rasen-archive/src/format/header.rs:70-75 | of all 16-bit flag words the mask tests let through exactly four, one for each mode and protection |
| Toc.EncodeToc | crates/rasen-archive/src/format/toc.rs:12-66 | writes the table image, or refuses long paths and large tables |
| Toc.DecodeEntry | crates/rasen-archive/src/format/toc.rs:100-147 | one entry record: what it decodes to or which fault it has, and how far the cursor moves |
| Toc.DecodePath | crates/rasen-archive/src/format/toc.rs:125-138 | the four combinations of mode and stored path, the rejection of stored bytes that are not UTF-8, and the tie between path and hash |
| Toc.DecodedPathExactly | crates/rasen-archive/src/format/toc.rs:125-138 | a stored path decodes to a path exactly when it is nothing in production, or text with that normal form under its hash |
| Toc.DecodeChunk | crates/rasen-archive/src/format/toc.rs:155-174 | one chunk record, with its flag and reserved-field checks |
| Toc.DecodeToc | crates/rasen-archive/src/format/toc.rs:68-183 | the cursor loops equal the position-based decoder, error by error |
| Toc.EntryAtExactly | crates/rasen-archive/src/format/toc.rs:99-148 | an accepted record written anywhere decodes there to its entry |
| Toc.ChunkAtExactly | crates/rasen-archive/src/format/toc.rs:154-175 | decoding a chunk record succeeds with c exactly when the bytes are those of c |
| Toc.ImageLength | crates/rasen-archive/src/format/toc.rs:13-30 | an image has 4 + 36 bytes per record + the stored path lengths |
| Format.EntryRecordLayout | crates/rasen-archive/src/format/toc.rs:37-52 | which bytes of an entry record hold which field |
| Format.ChunkRecordLayout | crates/rasen-archive/src/format/toc.rs:54-63 | which bytes of a chunk record hold which field |
| Format.TocLayout | crates/rasen-archive/src/format/toc.rs:12-66 | magic, entry records in order, chunk records in order, each at its offset |
| Toc.DecodeOfImage | crates/rasen-archive/src/format/toc.rs:12-183 | decoding an encoded table gives the table, for all tables within the limits |
| Toc.DecodedInputIsImage | crates/rasen-archive/src/format/toc.rs:68-183 | every accepted input is consumed exactly and is the image of what it decodes to, up to the spelling of paths |
| Toc.CanonicalPathsAccepted | crates/rasen-archive/src/format/toc.rs:124-138 | an accepted table stays accepted with its paths stored in normal form |
| Toc.StoredPathsAreUnique | crates/rasen-archive/src/format/toc.rs:99-148 | the bytes of the records determine the stored paths |
| Toc.ReencodeDecoded | crates/rasen-archive/src/format/toc.rs:12-183 | re-encoding a decoded TOC decodes to the same tables and never grows; it is byte-identical exactly when paths were stored in normal form |
| Toc.RespelledToc | crates/rasen-archive/src/format/toc.rs:129-137 | an accepted TOC whose path is not stored in normal form and which therefore re-encodes to fewer bytes |
| Toc.EncodedAcceptedExactly | crates/rasen-archive/src/format/toc.rs:107-122 | an encoded table passes other limits exactly when its entries do, and then decodes to itself |
| Layout.ValidateChunk | crates/rasen-archive/src/format/toc.rs:198-230 | one record passes exactly when it is legal and starts behind its predecessor |
| Layout.ValidateChunks | crates/rasen-archive/src/format/toc.rs:194-238 | passes exactly the chunk tables that are legal, ordered, disjoint, inside the payload and within the total |
| Layout.ClaimChunks | crates/rasen-archive/src/format/toc.rs:264-283 | marks exactly the entry's chunks and adds up both sizes; the sums cannot overflow |
| Layout.ValidateEntry | crates/rasen-archive/src/format/toc.rs:246-291 | one entry passes exactly when it is the sum of its chunks and none of them was taken |
| Layout.ValidateLayout | crates/rasen-archive/src/format/toc.rs:185-299 | accepts exactly the legal tables; an orphan is reported exactly when nothing else is wrong; per-entry overflow errors never occur |
| Layout.LocalChunkStart | crates/rasen-archive/src/archive/reader.rs:711-720 | local chunk k of a legal entry starts at byte k * chunk_size of the asset |
| Layout.LegalRecord | crates/rasen-archive/src/format/toc.rs:198-230 | what the numbers of a legal chunk record satisfy |
| Layout.BlocksApart | crates/rasen-archive/src/format/toc.rs:217-230 | no byte of a file belongs to two blocks or to a block and the header or TOC |
| Layout.OneOwner | crates/rasen-archive/src/format/toc.rs:246-297 | every chunk belongs to exactly one entry |
| Layout.EntryShape | crates/rasen-archive/src/format/toc.rs:258-287 | a legal entry has ceil(size / chunk_size) chunks, all full but for the last |
| Layout.Conservation | crates/rasen-archive/src/format/toc.rs:246-297 | any quantity spread over the chunks is conserved by their split into entries |
| Layout.TotalsConserved | crates/rasen-packer/src/commands.rs:131-142 | chunk counts, original sizes and stored sizes of the entries add up to those of the chunk table and fit the limits |
| Layout.EveryChunkOnce | crates/rasen-archive/src/archive/reader.rs:332-362 | going through all entries visits each chunk of the archive exactly once |
| Source.ReadSliceExact | crates/rasen-archive/src/archive/source.rs:110-121 | copies the requested slice, or fails and leaves the buffer alone |
| Source.Device.ReadAt | crates/rasen-archive/src/archive/source.rs:45-55 | one positioned read: interrupted, failed, or a non-empty part unless at the end |
| Source.ReadExactAt | crates/rasen-archive/src/archive/source.rs:21-42 | for any schedule of short and interrupted reads the loop delivers what the slice copy delivers |
| Index.SortUnstableByKey | crates/rasen-archive/src/archive/reader.rs:276-286 | the index holds every (hash, entry) pair once, in order of hashes |
| Index.PartitionPoint | crates/rasen-archive/src/archive/reader.rs:563-567 | the binary search finds the border between ids before and not before the wanted one |
| Index.HashRange | crates/rasen-archive/src/archive/reader.rs:563-567 | the two searches give exactly the positions with the wanted id |
| Index.ValidateBucket | crates/rasen-archive/src/archive/reader.rs:896-915 | a bucket passes exactly when it is short, collision-free if stripped, and free of equal paths |
| Index.ValidateIndex | crates/rasen-archive/src/archive/reader.rs:887-918 | accepts exactly when all buckets of the entries are legal, and each error names a real fault |
| Index.NamesAreUnique | crates/rasen-archive/src/archive/reader.rs:887-918 | checking bucket by bucket leaves at most one entry of the whole archive for any name |
| Index.PathsAreUnique | crates/rasen-archive/src/archive/reader.rs:887-918 | no two entries of an accepted debug archive share a path, whatever their hashes |
| Index.LookupIsLinearScan | crates/rasen-archive/src/archive/reader.rs:569-582 | indexed lookup finds entry i exactly when a look at every entry does, and is "not found" exactly when none matches |
| Index.FindByIdCounts | crates/rasen-archive/src/archive/reader.rs:583-591 | lookup by id answers found, not found or collision by the number of entries with that hash |
| Cipher.XorInPlace | crates/rasen-archive/src/crypto/xor.rs:1-5 | the in-place loop applies the repeated key |
| Cipher.XorKeyTwice | crates/rasen-archive/src/crypto/xor.rs:1-5 | applying the key twice restores the data |
| Format.XorKeyBits | crates/rasen-archive/src/crypto/xor.rs:1-5 | a bit is flipped exactly where the repeated key has a one |
| Cipher.DecryptUndoesEncrypt | crates/rasen-archive/src/crypto/aead.rs:23-56 | a block opens to what was sealed and is exactly 40 bytes longer |
| Cipher.ChunkAadSeparates | crates/rasen-archive/src/crypto/aead.rs:17-21 | different chunks have different associated data, and none has that of the TOC |
| Archive.ChunkDataSize | crates/rasen-archive/src/archive/reader.rs:760-811 | a chunk that reads at all has the size its record says |
| Archive.ReachOfChunks | crates/rasen-archive/src/archive/reader.rs:593-641 | the first n chunks of an entry cover min(n * chunk_size, size) bytes |
| Archive.RangeInside | crates/rasen-archive/src/archive/reader.rs:656-672 | the chunks computed from a range exist and cover it |
| Archive.RangeIsSlice | crates/rasen-archive/src/archive/reader.rs:682-751 | the cut-out of the touched chunks is that slice of the whole asset |
| Integrity.ChunkChecked | crates/rasen-archive/src/archive/reader.rs:760-811 | a chunk is delivered exactly when its block decodes to bytes with the recorded checksum; otherwise its damage is reported |
| Integrity.ReadIsChecked | crates/rasen-archive/src/archive/reader.rs:593-641 | a full read succeeds exactly when the operation limit allows it and every chunk is sound; then every piece of the result has its recorded checksum |
| Integrity.ReadReportsDamage | crates/rasen-archive/src/archive/reader.rs:804-809 | a full read reports the first unsound chunk, by path and number when its bytes are the wrong ones |
| Integrity.ChunkReadIsChecked | crates/rasen-archive/src/archive/reader.rs:436-464 | a chunk read depends on that chunk alone: out of range, refused, sound bytes, or its damage |
| Integrity.VerifyIsChecked | crates/rasen-archive/src/archive/reader.rs:332-362 | verification succeeds exactly when the limit allows it and every block of the archive is sound |
| Integrity.VerifyReportsDamage | crates/rasen-archive/src/archive/reader.rs:332-362 | verification reports the first unsound chunk of the first unsound entry, under its path or, in production, its hash |
| Ranges.RangeIsExact | crates/rasen-archive/src/archive/reader.rs:643-751 | every outcome of a range read, for assets readable as a whole or not: only the touched chunks count, for the limit and for the data |
| Ranges.RangeIsChecked | crates/rasen-archive/src/archive/reader.rs:682-751 | a range read vouches for every chunk it touches |
| ById.ReadByIdIs | crates/rasen-archive/src/archive/reader.rs:393-404 | a read by id returns the bytes of the only entry with that hash, labelled by hash or path |
| ById.ReadByIdFails | crates/rasen-archive/src/archive/reader.rs:583-591 | without such an entry it is not found, with several it is a collision |
| ById.ByIdAgreesWithPath | crates/rasen-archive/src/archive/reader.rs:393-419 | reading by the hash of a path agrees with reading by the path when no other entry shares the hash |
| Reader.ReadChunkByIndexInto | crates/rasen-archive/src/archive/reader.rs:760-811 | fills exactly its part of the destination with the chunk, whatever the scratch holds; the size checks after decryption never fail |
| Reader.ReadEntryInto | crates/rasen-archive/src/archive/reader.rs:593-641 | fills its part of the destination with the whole asset, or reports what the full read reports |
| Reader.RangeStep | crates/rasen-archive/src/archive/reader.rs:708-744 | decoding one more chunk and copying its share takes the range loop from one state to the next |
| Reader.ReadRangeIndexInto | crates/rasen-archive/src/archive/reader.rs:682-751 | fills its part of the destination with the range and touches nothing else; its ordering and size checks never fail |
| Access.Read | crates/rasen-archive/src/archive/reader.rs:406-419 | read returns the data of the entry the path names, or the error described |
| Access.ReadById | crates/rasen-archive/src/archive/reader.rs:393-404 | the same by id |
| Access.ReadChunk | crates/rasen-archive/src/archive/reader.rs:436-464 | the same for one chunk |
| Access.ReadIntoWithScratch | crates/rasen-archive/src/archive/reader.rs:425-434 | reading into a caller's buffer gives the same bytes or error as a plain read; a buffer of the wrong size is refused untouched; the scratch keeps its buffers or gets fresh ones |
| Access.ReadChunkIntoWithScratch | crates/rasen-archive/src/archive/reader.rs:470-497 | the same for one chunk, with the buffer untouched also for a chunk out of range |
| Access.ReadIntoExactly | crates/rasen-archive/src/archive/reader.rs:593-607 | a buffer is accepted exactly when it has the size of the asset, and then gets what a full read returns |
| Access.ReadChunkIntoExactly | crates/rasen-archive/src/archive/reader.rs:470-497 | the same for the size of a chunk, which is the chunk size but at the end |
| Access.ReadRange | crates/rasen-archive/src/archive/reader.rs:499-527 | both range reads, as specified by RangeResult |
| Access.ReadRangeWithScratch | crates/rasen-archive/src/archive/reader.rs:543-561 | same result as a fresh read; bytes past the length of the range stay unchanged, even when the read fails |
| Sharing.Serve | crates/rasen-archive/src/archive/reader.rs:425-561 | any one request puts its answer in front of the buffer and keeps everything out of its reach, with the scratch ready for the next |
| Sharing.ServeAll | crates/rasen-archive/src/archive/reader.rs:164-168 | scratch reuse is invisible: in any sequence of requests sharing one scratch, each result is that of the request alone and all other bytes stay as they were |
| Access.RangesRefineRead | crates/rasen-archive/src/archive/reader.rs:643-751 | for every offset and length, exact and clipped ranges are the slices of the full read, or invalid exactly as listed |
| Access.ClippingHoldsUnlessEndOverflows | crates/rasen-archive/src/archive/reader.rs:643-674 | clipping holds exactly when the requested end is a u64 or the offset is at the end |
| Access.ClippingFailsOnOverflow | crates/rasen-archive/src/archive/reader.rs:652-654 | a request that the documented clipping would serve and the code refuses |
| Access.AdjacentRangesConcatenate | crates/rasen-archive/src/archive/reader.rs:499-512 | two neighbouring range reads together are the range read of both |
| Access.ChunksRefineRead | crates/rasen-archive/src/archive/reader.rs:436-464 | chunk reads are the full read cut at multiples of the chunk size, and out of range behind it |
| Access.OneAssetReads | crates/rasen-archive/src/archive/reader.rs:406-419 | the reader's invariant can be met: an archive of one raw chunk satisfies it and reads as what is stored |
| Access.Verify | crates/rasen-archive/src/archive/reader.rs:332-362 | decodes every chunk exactly once and returns the first error |
| Access.VerifyIsExact | crates/rasen-archive/src/archive/reader.rs:332-362 | verification succeeds exactly when the chunk table is within the operation limit and every entry reads in full |
| Opening.ReadToc | crates/rasen-archive/src/archive/reader.rs:232-252 | reads, opens, decompresses and checks the stored TOC |
| Opening.OpenWithLimits | crates/rasen-archive/src/archive/reader.rs:203-301 | opening succeeds exactly on legal archives within the limits, reports the first fault of the pipeline, and establishes what the reads rely on |
| Opening.ClampedIsLower | crates/rasen-archive/src/archive/reader.rs:132-155 | each limit that applies is the lower one of the caller's and the hard one |
| Acceptance.AcceptedIsDescribed | crates/rasen-archive/src/archive/reader.rs:203-301 | whatever is opened is, byte for byte, a header, legal blocks and a sealed TOC that lists them, within the caller's and the hard limits |
| Acceptance.DescribedIsAccepted | crates/rasen-archive/src/archive/reader.rs:203-301 | whatever is put together that way is opened, with those tables |
| Acceptance.AcceptedExactly | crates/rasen-archive/src/archive/reader.rs:203-301 | both directions, without reference to the steps of opening |
| Acceptance.OpenedHoldsParts | crates/rasen-archive/src/archive/reader.rs:288-300 | the opened archive holds those parts, the derived key, and the lower of the two operation limits |
| Opening.OpenedIsWellFormed | crates/rasen-archive/src/archive/reader.rs:203-301 | every archive that opening can return satisfies the reader's invariant |
| Failures.BlocksInside | crates/rasen-archive/src/format/toc.rs:224-230 | every block of an opened archive lies inside its source and is long enough to open |
| Failures.ReadsFailAsForeseen | crates/rasen-archive/src/archive/reader.rs:593-641 | full, by-id and chunk reads of an opened archive fail only for the caller, the operation limit or damaged data |
| Failures.RangesFailAsForeseen | crates/rasen-archive/src/archive/reader.rs:643-751 | the same for range reads |
| Packing.XorOutputIgnoresNonces | crates/rasen-archive/src/pack/writer.rs:139-142 | with XOR protection the output is a function of files, key and options: every byte is the same whatever nonces the system would supply |
| Packing.RunStopsAtFailure | crates/rasen-archive/src/pack/writer.rs:90-95 | a file that fails fails the whole run with its error |
| Packer.ReadChunk | crates/rasen-archive/src/pack/writer.rs:289-300 | fills the buffer or stops at the end, whatever the schedule of short and interrupted reads |
| Packer.WriteZeros | crates/rasen-archive/src/pack/writer.rs:253-268 | ends after appending exactly the given number of zeros in blocks of at most 4096 |
| Packer.WriteHeader | crates/rasen-archive/src/format/header.rs:27-41 | writes the header over the start; what is on disk is always a prefix of it over what was there, even when a write fails midway |
| Packer.Packer.New | crates/rasen-archive/src/pack/writer.rs:53-88 | starts a packer on an empty destination only, and refuses bad keys and options before touching it |
| Packer.Packer.Align | crates/rasen-archive/src/pack/writer.rs:253-268 | pads the output to the next aligned offset |
| Packer.Packer.WriteChunk | crates/rasen-archive/src/pack/writer.rs:126-149 | the output grows by padding and the sealed block of the chunk |
| Packer.Packer.WriteChunks | crates/rasen-archive/src/pack/writer.rs:121-167 | the loop stores the stream cut at multiples of the chunk size, independently of how it is delivered |
| Packer.Packer.AddReader | crates/rasen-archive/src/pack/writer.rs:90-184 | success has exactly the effect of one more file and extends the history; failure is final; the first 60 bytes stay zero |
| Packer.Packer.FinishPack | crates/rasen-archive/src/pack/writer.rs:186-251 | success leaves exactly the finished image; a failure leaves zeros in the header area, or the finished body under a prefix of the header |
| Packer.PackWithOptions | crates/rasen-archive/src/pack/writer.rs:275-287 | the buffered wrapper writes the image of the run over its files, or reports the error of that run |
| PackInvariant.CutPieces | crates/rasen-archive/src/pack/writer.rs:121-125 | piece k of a stream is its bytes from k * chunk_size; none is empty and only the last is shorter |
| PackInvariant.CutCount | crates/rasen-archive/src/pack/writer.rs:121-125 | a stream gives ceil(size / chunk_size) pieces |
| PackInvariant.FlattenCut | crates/rasen-archive/src/pack/writer.rs:121-125 | the pieces put together are the stream |
| PackInvariant.StoreChunkKeeps | crates/rasen-archive/src/pack/writer.rs:126-165 | after one more chunk every record still describes bytes on disk that decode to its piece, stored as LZ4 exactly where that is shorter and sealed with nonce and associated data of its number |
| PackInvariant.StoreAllKeeps | crates/rasen-archive/src/pack/writer.rs:121-167 | after a whole asset the chunk table is that of all pieces so far, and both totals are right |
| PackInvariant.AddFileKeeps | crates/rasen-archive/src/pack/writer.rs:97-184 | one more file keeps the packer invariant, including unique names without assuming injective hashes |
| PackInvariant.RunKeeps | crates/rasen-archive/src/pack/writer.rs:53-184 | the packer invariant holds after every run |
| Format.PaddingIsLeast | crates/rasen-archive/src/pack/writer.rs:253-268 | padding is all zeros and goes up to the first aligned offset |
| Format.RunIsTight | crates/rasen-archive/src/pack/writer.rs:121-165 | in every run each block starts at the first aligned offset behind its predecessor, after zeros only |
| Format.BlockLayout | crates/rasen-archive/src/pack/writer.rs:126-165 | every block of a reopened archive: compressed exactly where that is shorter, of that size, and in that form |
| Format.FileLayout | crates/rasen-archive/src/pack/writer.rs:186-251 | a finished file is the header with the options and counts, the payload, zeros up to the first aligned offset, and the stored TOC, which is the LZ4 form of the tables under the key |
| RoundTrip.PackedTablesAreLegal | crates/rasen-archive/src/pack/writer.rs:97-251 | the tables of every run pass the layout validator if their total is within the limit |
| RoundTrip.PackedArchiveOpens | crates/rasen-archive/src/pack/writer.rs:186-251 | every finished archive within the limits passes all checks of opening |
| RoundTrip.PackedArchiveOpensExactly | crates/rasen-archive/src/archive/reader.rs:203-301 | a finished archive opens if and only if it is within the limits |
| RoundTrip.BothLimits | crates/rasen-archive/src/archive/reader.rs:132-155 | for a packed archive too the caller's and the hard limits apply each for itself |
| RoundTrip.DecodedIsPacked | crates/rasen-archive/src/archive/reader.rs:255-263 | the tables decoded from a finished archive are the packer's |
| RoundTrip.UnfinishedIsRejected | crates/rasen-archive/src/pack/writer.rs:61-62 | output whose header was never written is rejected as a bad magic |
| Unfinished.FailedPackerIsRejected | crates/rasen-archive/src/pack/writer.rs:90-95 | whatever made a packer fail, and at any point before the header, its output is rejected as a bad magic |
| Unfinished.CutHeaderIsRejected | crates/rasen-archive/src/pack/writer.rs:242-244 | output whose header was cut off after any number of bytes is refused, or it is the complete image already |
| Outcomes.StoreAllFaults | crates/rasen-archive/src/pack/writer.rs:149-166 | an asset fails only for sealing, for space or for the chunk count: neither total of its entry can overflow |
| Outcomes.AddFileFaults | crates/rasen-archive/src/pack/writer.rs:97-184 | invalid, duplicate and colliding names are refused exactly when they are that, and nothing but room and sealing can fail besides |
| Outcomes.FinishFaults | crates/rasen-archive/src/pack/writer.rs:186-225 | finishing fails only for room, for the size of the TOC or for sealing, never for a path |
| Outcomes.RunSucceeds | crates/rasen-archive/src/pack/writer.rs:53-184 | names that can be packed together and room for the contents are all that a run needs |
| Outcomes.FinishSucceedsExactly | crates/rasen-archive/src/pack/writer.rs:186-225 | a run with room left can be finished exactly when its TOC is not too large |
| Outcomes.OneFilePacks | crates/rasen-archive/src/pack/writer.rs:53-251 | any asset of at most one chunk packs under XOR in either mode |
| Outcomes.OneFileOpens | crates/rasen-archive/src/archive/reader.rs:203-301 | what is packed that way opens under the hard limits, so the premises of the round trip can be met |
| RoundTrip.ChunkReadsBack | crates/rasen-archive/src/archive/reader.rs:760-811 | the header rewrite leaves chunk bytes alone, and chunk k opens under the same associated data to piece k |
| RoundTrip.AssetReadsBack | crates/rasen-archive/src/archive/reader.rs:593-641 | entry i of a reopened archive reads as file i, unless it has more chunks than one operation may decode |
| RoundTrip.EndToEnd | crates/rasen-archive/src/archive/reader.rs:406-419 | for every path: invalid, not found because no file answers, or the bytes of the file that answers |
| Delivery.PackOpenAndRead | crates/rasen-archive/src/pack/writer.rs:275-287 | the operations composed: pack a list of files, open the result, read a path; opening succeeds exactly within the limits, and every path is answered as the list of files does |
| RoundTrip.PackOpenRead | crates/rasen-archive/src/pack/writer.rs:53-287 | the whole way from a list of files to reads of the opened archive, for all files, options, keys and limits |
| PackedAccess.PackedRange | crates/rasen-archive/src/archive/reader.rs:643-751 | a range of a packed file is the slice of the file, also when the whole file has too many chunks to be read at once |
| PackedAccess.PackedChunk | crates/rasen-archive/src/archive/reader.rs:436-464 | a chunk of a packed file is the piece of the file, likewise |
| PackedAccess.PackedById | crates/rasen-archive/src/archive/reader.rs:393-404 | reading by id gives the file whose name has that hash, or says that none or several have it |
| PackedAccess.PackOpenAccess | crates/rasen-archive/src/pack/writer.rs:53-287 | packing, opening and any of these reads, end to end |

## Left out

- `&str` in lookups: reads take any byte string as a path, of which text is a part; the packer takes text (`Path.text`).
- Allocation failure (`try_reserve*`) and 32-bit `usize`: allocation succeeds and `usize` is 64 bits wide.
- Sizes of records in memory: the metadata estimate takes them as the parameters `entryFootprint` and `chunkFootprint` of `Env`.
- The insides of LZ4, XXH3, BLAKE3, XChaCha20-Poly1305 and the system's random numbers: function values with the contracts of `Prelude.Env.Lawful`; confidentiality and forgery resistance are not stated. Compression itself never fails, as its output buffer has the maximal size.
- Source.Device: a reader at its end stays at its end. A reader that reports its end and later delivers more could produce a short chunk in the middle of an asset.
- Opening.OpenWithLimits: the source is an immutable byte sequence read through the slice source; a file source is covered by `Source.ReadExactAt`, which delivers the same bytes.
- Index.SortUnstableByKey: the library's sort is replaced by an insertion sort; the laws hold for every order of entries with equal hashes.
- Reader.ResizeBuffer: growing a scratch vector is modelled by a new zeroed buffer of the wanted size.
- Access.ReadIntoWithScratch: what a failed read leaves in a destination of the right size is not specified.
- Packer.Packer.WriteChunk: the compression buffer is a value that is replaced, not a fixed buffer that is overwritten; the raw buffer is overwritten in place.
- Unfinished.CutHeaderIsRejected: for 45 to 51 header bytes it needs the decoder to refuse buffers that are too small, which the repository does not say of its LZ4 library.
- Error message texts and the formatting of checksum labels: one constructor per reason instead.
- `entries`, `entry`, `contains` and the other accessors, `hash_path`, the limit presets and the wrappers without scratch: one-branch consequences of what is modelled.
- The C interface, the command line, the file system walk and threads: reads share an immutable source, so there is no interleaving to model.
