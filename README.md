# make_cdn_cia core, modelled in Dafny

make_cdn_cia turns a title downloaded from Nintendo's CDN into a CIA
installable archive. It reads a ticket (`cetk`) and a title metadata
file (`tmd`) and records where their signed headers and certificates
lie. It then writes the CIA file in this order:

- the CIA header;
- the certificate chain (CA, XS, CP);
- the ticket;
- the TMD;
- every content file the TMD lists.

Each group up to the contents starts on a 64-byte boundary.

The model covers:

- the packed wire structures of `cia.h`;
- the host byte-order conversions of `ctr_endian.h`;
- the chunk helpers of `chunkio.c` (marking a byte range of a file, copying it to another file, aligning a file position);
- the functions of `cia.c`, which are:
  - the signature and certificate size lookups;
  - `skipSignature` and `certSaveAndSkip`;
  - `processTIK` and `processTMD`;
  - `buildCIAHdr`;
  - `writeCIA`, including the content-file names and the block copy.

Modules, one per file:

| file | module | models |
|---|---|---|
| `endian.dfy` | `Endian` | byte values in both orders, `bswap`, the `htobe`/`betoh`/`htole`/`letoh` macros for a host of either byte order (the host is a parameter) |
| `layout.dfy` | `Layout` | the packed structures as field lists, their sizes and offsets, the signature-type enumeration, TMD content descriptors |
| `stdio.dfy` | `Stdio` | the stdio behaviour the program relies on: a file as bytes plus a position, `ftell`, `fseek`, one-item `fread`/`fwrite`, zero fill after a seek past the end, a device of bounded size |
| `chunkio.dfy` | `ChunkIo` | `alignFilePointer`, `chunk_t` with `chunkMarkStart`/`chunkMarkEnd`/`chunkAppendToFile`, `fastClone` |
| `tags.dfy` | `CiaTags` | `getSigSize`, `getCertSize` |
| `parse.dfy` | `CiaParse` | `skipSignature`, `certSaveAndSkip`, `TIKCtx`/`processTIK`, `TMDCtx`/`processTMD` |
| `header.dfy` | `CiaHeader` | `CIAHdr` and `buildCIAHdr` |
| `names.dfy` | `ContentNames` | the `%08x` content-file names and their upper-case fallback |
| `assemble.dfy` | `CiaWrite` | `writeCIA` |

The code that changes state stays imperative:

- `Stream`, `Chunk`, `TikCtx`, `TmdCtx` and `CiaHdr` are classes whose methods update their fields.
- The copy loops are `while` loops over a scratch `array`.
- The content index bitmap is an `array` that is set bit by bit.

Each method is proved against a pure function:

| method | specification function |
|---|---|
| `Process` (ticket) | `ParseTicket` |
| `Process` (TMD) | `ParseTmd` |
| `Build` | `HeaderFor` |
| `WriteCia` | `CiaFile` |
| `WriteContents` | `Run` |

The lemmas state the layout the functions produce.

Host byte order is a parameter (`Endian.Host`). The lemmas prove that the bytes in the file do not depend on it. The directory that content files are opened from is a parameter too: a map from file name to contents.

## Model

| member | source | states |
|---|---|---|
| Endian.Bswap | make_cdn_cia/ctr_endian.h:3-11 | a byte swap of an n-byte value is again an n-byte value |
| Endian.BswapInvolution | make_cdn_cia/ctr_endian.h:3-11 | swapping twice gives the value back |
| Endian.LittleEndianLeIsIdentity | make_cdn_cia/ctr_endian.h:28-41 | on a little-endian host `htoleNN` and `leNNtoh` change nothing |
| Endian.BigEndianBeIsIdentity | make_cdn_cia/ctr_endian.h:13-27 | on a big-endian host the `be` macros change nothing and the `le` macros swap |
| Endian.BeRoundTrip | make_cdn_cia/ctr_endian.h:13-41 | on either host `beNNtoh(htobeNN(x)) == x` |
| Endian.LeRoundTrip | make_cdn_cia/ctr_endian.h:13-41 | on either host `leNNtoh(htoleNN(x)) == x` |
| Endian.BeToHostOfLoad | make_cdn_cia/ctr_endian.h:13-41 | on either host, `beNNtoh` of a field read raw from a file is the big-endian value of its bytes |
| Endian.StoreOfHostToLe | make_cdn_cia/ctr_endian.h:13-41 | on either host, a value passed through `htoleNN` lies in memory as its little-endian bytes |
| Endian.LeValueOfLeBytes | make_cdn_cia/ctr_endian.h:28-41 | the little-endian bytes of a value read back as that value |
| Endian.LeBytesOfLeValue | make_cdn_cia/ctr_endian.h:28-41 | any byte string is the little-endian encoding of the value it holds |
| Endian.BeValueIsReversedLeValue | make_cdn_cia/ctr_endian.h:13-27 | big-endian order is little-endian order reversed |
| Endian.LoadOfStore | make_cdn_cia/ctr_endian.h:13-41 | a value stored in memory and loaded again is unchanged, on either host |
| Layout.SigTypeOf | make_cdn_cia/cia.h:25-32 | a recognised tag names the type whose tag it is |
| Layout.TagsRoundTrip | make_cdn_cia/cia.h:25-32 | every signature type is recognised from its own tag; the tags are 0x10000..0x10005 |
| Layout.FieldInside | make_cdn_cia/cia.h:44-45 | in a packed structure every field lies wholly inside the structure |
| Layout.OffsetConcat | make_cdn_cia/cia.h:44-45 | a field found only after a run of fields sits the run's size further on |
| Layout.TikHdrSize | make_cdn_cia/cia.h:46-70 | `sizeof(TIKHdr)` is 528 |
| Layout.TikHdrOffsets | make_cdn_cia/cia.h:46-70 | `TIKHdr.titleID` is 8 bytes at offset 156 |
| Layout.TmdContentSize | make_cdn_cia/cia.h:72-79 | `sizeof(TMDContent)` is 48 |
| Layout.TmdContentOffsets | make_cdn_cia/cia.h:72-79 | the offsets of `id`, `index`, `type`, `size` and `sha256` are 0, 4, 6, 8 and 16 |
| Layout.TmdHdrSize | make_cdn_cia/cia.h:81-111 | `sizeof(TMDContentInfo)` is 36 and `sizeof(TMDHdr)` is 2500 |
| Layout.TmdHdrTitleIdOffset | make_cdn_cia/cia.h:88-111 | `TMDHdr.titleID` is 8 bytes at offset 76 |
| Layout.TmdHdrContentCntOffset | make_cdn_cia/cia.h:88-111 | `TMDHdr.contentCnt` is 2 bytes at offset 158 |
| Layout.CiaHdrSize | make_cdn_cia/cia.h:127-138 | `sizeof(CIAHdr)` is 8224 |
| Layout.CiaHdrHeadOffsets | make_cdn_cia/cia.h:127-135 | the seven 16- and 32-bit fields of `CIAHdr` sit at offsets 0, 4, 6, 8, 12, 16 and 20 with their widths |
| Layout.CiaHdrTailOffsets | make_cdn_cia/cia.h:136-137 | `contentSize` is 8 bytes at offset 24 and `contentIndex` 8192 bytes at offset 32 |
| Layout.ContentRoundTrip | make_cdn_cia/cia.h:72-79 | decoding the encoding of a descriptor gives it back |
| Layout.ContentBytesRoundTrip | make_cdn_cia/cia.h:72-79 | any 48 bytes are the encoding of the descriptor they hold |
| Layout.DecodeContentAtOffsets | make_cdn_cia/cia.h:72-79 | each field of a decoded descriptor is the bytes at that field's offset in the packed structure |
| Layout.DecodeTable | cia.c:352-354 | `contentCnt` descriptors read back to back give `contentCnt` well-formed descriptors |
| Stdio.WriteAtEnd | chunkio.c:85-89 | a write after a seek past the end of the file appends zero padding up to the position and then the bytes |
| ChunkIo.AlignUp | chunkio.c:75-92 | the aligned position is a multiple of the chunk size, at or after the old position and less than one chunk further |
| ChunkIo.AlignUpIsLeast | chunkio.c:82-89 | no multiple of the chunk size lies between the position and its aligned position |
| ChunkIo.AlignUpIdempotent | chunkio.c:85-89 | an aligned position is not moved |
| ChunkIo.AlignFilePointer | chunkio.c:75-92 | the position moves to the next multiple of the power-of-two chunk size; the call fails exactly when the stream cannot seek and the chunk size is above 1 |
| ChunkIo.Chunk.MarkStart | chunkio.c:94-105 | on success the chunk is the empty range at the file's position; on failure it is unchanged |
| ChunkIo.Chunk.MarkEnd | chunkio.c:107-115 | on success the size is the position minus the offset, as a `size_t` |
| ChunkIo.Chunk.Contents | chunkio.c:117-124 | the chunk's bytes exist exactly when its file can seek and the range lies in the file; they are `size` bytes long |
| ChunkIo.Chunk.AppendTo | chunkio.c:117-124 | succeeds exactly when the chunk is readable and fits on the output device; the output then holds the chunk's bytes at its old position and has moved past them |
| ChunkIo.ReadWrite | chunkio.c:63-70 | one `fread` then one `fwrite` of n bytes: succeeds exactly when n > 0 and both sides have room; the bytes read are written |
| ChunkIo.CopiedGrows | chunkio.c:52-61 | writing the next n source bytes after a copy of `done` bytes is a copy of `done + n` |
| ChunkIo.Transfer | chunkio.c:54-60 | one block round of the copy keeps the copy invariant and advances both positions |
| ChunkIo.FullBlocks | chunkio.c:52-61 | after the full-block loop the first `size - left` bytes are copied and at most one block is left; it fails only when a block cannot be read or written |
| ChunkIo.CopyThrough | chunkio.c:52-72 | copying `size` bytes succeeds exactly when `size` is 0 or both sides have room; the output then holds the source window at its old position |
| ChunkIo.CopyBuffer.FastClone | chunkio.c:48-73 | `fastClone` through the 1 MiB buffer: the same outcome and output as one write of the `remaining` source bytes |
| CiaTags.GetSigSize | cia.c:31-50 | the size is 0 exactly for an unknown tag, and is otherwise 512, 256 or 60 |
| CiaTags.GetCertSize | cia.c:52-71 | the size is 0 exactly for an unknown tag, and is otherwise 1020, 764 or 140 |
| CiaTags.GetSigSizeOfFileTag | cia.c:31-50 | on either host the signature size of a tag read raw from the file depends only on its big-endian value: 512, 256, 60 or 0 |
| CiaTags.GetCertSizeOfFileTag | cia.c:52-71 | the same for the certificate sizes 1020, 764, 140 or 0 |
| CiaTags.SizesIgnoreHash | cia.c:34-44 | the SHA-1 and SHA-256 variants of a key type have the same sizes |
| CiaParse.SignatureEnd | cia.c:104-131 | the end of a signature is defined exactly when the tag can be read; it is a multiple of 64 past the tag and less than 576 bytes further |
| CiaParse.SignatureEndAtStart | cia.c:104-131 | from the start of a file the signature block ends at 0x240, 0x140 or 0x40 depending on the key type; an unknown tag gives 0x40 |
| CiaParse.SkipSignature | cia.c:104-131 | succeeds exactly when the stream seeks and the tag can be read; it then leaves the stream at the end of the signature |
| CiaParse.CertAt | cia.c:73-102 | a certificate is a known tag followed by its body: 144, 768 or 1024 bytes in all |
| CiaParse.CertSaveAndSkip | cia.c:73-102 | succeeds exactly when a certificate is at the position; it records that region in the chunk and moves past it |
| CiaParse.UnknownTag | cia.c:86-118 | a tag the table does not know is skipped as a signature of 0 bytes, but it makes a certificate fail |
| CiaParse.TmdBodyAt | cia.c:344-357 | the header and the descriptor table lie in the file and end `2500 + 48 * contentCnt` bytes on; the count is below 65536 |
| CiaParse.TikCtx.Process | cia.c:271-319 | `processTIK` succeeds exactly when the stream seeks and `ParseTicket` finds a ticket; the context then records it; `titleVer` is left as it was |
| CiaParse.TmdCtx.ReadBody | cia.c:344-357 | reading the header and the table succeeds exactly when `TmdBodyAt` finds them, and records the title id, the count and the descriptors |
| CiaParse.TmdCtx.ReadTable | cia.c:352-357 | the `fread` of `contentCnt` descriptors succeeds exactly when they are all in the file (always when there are none), and decodes them |
| CiaParse.TmdCtx.Process | cia.c:321-374 | `processTMD` succeeds exactly when the stream seeks and `ParseTmd` finds the metadata; the context then records it; `titleVer` is left as it was |
| CiaParse.TikTitleIdField | make_cdn_cia/cia.h:57 | the `titleID` field of a ticket header is its bytes 156..164 |
| CiaParse.TicketLayout | cia.c:285-316 | the header chunk runs from 0 through the signature and the 528-byte header; the XS certificate follows it and the CA certificate follows that; the title id is the header's `titleID` field |
| CiaParse.TmdHeaderFields | make_cdn_cia/cia.h:96-106 | the `titleID` and `contentCnt` fields of a TMD header are its bytes 76..84 and 158..160 |
| CiaParse.TmdLayout | cia.c:335-371 | the header chunk runs from 0 through the signature, the 2500-byte header and `48 * contentCnt` bytes of descriptors; the CP and CA certificates follow; the count and the title id come from the header's fields |
| CiaParse.TmdContentBytes | cia.c:352-354 | each descriptor of a parsed TMD is the 48 bytes at its place in the table |
| CiaHeader.DecodeEncode | make_cdn_cia/cia.h:127-138 | decoding an encoded header gives every field back |
| CiaHeader.EncodeDecode | make_cdn_cia/cia.h:127-138 | any 8224 bytes are the encoding of the header they hold |
| CiaHeader.DecodeReadsSizes | make_cdn_cia/cia.h:129-135 | the decoder reads each 16- and 32-bit field little-endian at its offset in the packed structure |
| CiaHeader.DecodeReadsContentFields | make_cdn_cia/cia.h:136-137 | the decoder reads `contentSize` and the bitmap at their offsets in the packed structure |
| CiaHeader.SetBitSpec | cia.c:156 | `b \| (0x80 >> bit)` turns that bit on and leaves the other seven as they were |
| CiaHeader.BitmapHolds | cia.c:153-157 | a content index's bit is set exactly when some descriptor carries that index |
| CiaHeader.HeaderForSizes | cia.c:141-147 | the header size is 8224, the type, version and meta size are 0, and `certSize`, `tikSize` and `tmdSize` are the chunk sizes when they fit in 32 bits |
| CiaHeader.HeaderForContents | cia.c:148-157 | the content size is the sum of the descriptors' sizes when it fits in 64 bits, and the bitmap marks exactly the indices in use |
| CiaHeader.TotalLengthPermutation | cia.c:148-150 | the descriptors' total length is the same in whatever order the TMD lists them |
| CiaHeader.IndexInPermutation | cia.c:153-157 | some descriptor carries a content index exactly when some descriptor of any rearrangement of them does |
| CiaHeader.HeaderForReordered | cia.c:148-157 | listing the same descriptors in another order builds a header with the same content size and the same content-index bits |
| CiaHeader.BitmapExamples | cia.c:155-156 | a descriptor with index 5 sets byte 0 to 0x04 and leaves byte 1 clear; one with index 8 sets byte 1 to 0x80 and leaves byte 0 clear |
| CiaHeader.MemoryOfToLe | cia.c:175 | on either host, writing the structure's memory after the `htoleNN` conversions gives the little-endian encoding of the header |
| CiaHeader.SumLengths | cia.c:148-150 | the loop's sum is the descriptors' total length modulo 2^64 |
| CiaHeader.CiaHdr.MarkIndices | cia.c:153-157 | after the `memset` and the marking loop the bitmap is `Bitmap` of the descriptors |
| CiaHeader.CiaHdr.SetSizes | cia.c:141-151 | each scalar field holds its value, truncated to the field's width, through `htoleNN` |
| CiaHeader.CiaHdr.Fill | cia.c:141-157 | the whole structure is the built header through `htoleNN` |
| CiaHeader.CiaHdr.Build | cia.c:133-160 | `buildCIAHdr` of the two contexts gives the header built from their chunk sizes and descriptors |
| ContentNames.ParseHexOfHex | cia.c:219 | the hexadecimal digits read back as the number they were printed from |
| ContentNames.Upper | cia.c:228-230 | upper-casing maps each character through the C-locale `toupper` and keeps the length |
| ContentNames.UpperOfHex | cia.c:228-230 | upper-casing the `%x` digits gives the `%X` digits |
| ContentNames.UpperName | cia.c:228-232 | the fallback name is the `%08X` name of the same id |
| ContentNames.NamesDistinct | cia.c:219 | two 32-bit ids name the same file, in either case, exactly when they are equal |
| CiaWrite.HeaderStageValue | cia.c:171-180 | on a seekable output the header stage succeeds exactly when the header fits; the header is then written at 0 and the position aligned |
| CiaWrite.HeaderStageLayout | cia.c:171-180 | after the header stage the header is at offset 0 and the position is its length rounded up to 64 |
| CiaWrite.CertsAsOne | cia.c:182-200 | the CA, XS and CP certificates appended one after another are one chain written at once |
| CiaWrite.ChunkStageLayout | cia.c:202-216 | a chunk stage writes the chunk at the position it starts at, keeps everything before it and aligns |
| CiaWrite.OffsetsOf | cia.c:170-216 | every section starts on a 64-byte boundary, after the end of the one before |
| CiaWrite.FixedPartStages | cia.c:170-216 | a fixed part that is written passes through the four aligned stages in order |
| CiaWrite.StagesLayout | cia.c:170-216 | what each stage wrote is still in place at the end |
| CiaWrite.FixedPartLayout | cia.c:170-216 | the header, the chain, the ticket and the TMD lie at their aligned offsets, and the fixed part ends where the contents begin |
| CiaWrite.ChunkStagePadded | chunkio.c:85-89 | after a chunk stage that starts at or past the end of the file, the file read up to the new position is the old file zero-padded to the old position, then the chunk, then zeros; a non-empty chunk ends the file, and the alignment adds no bytes |
| CiaWrite.FixedPartBytes | cia.c:170-216 | written to an empty file ("wb" in main.c:42) with a non-empty TMD, the fixed part is exactly the header, zeros, the chain, zeros, the ticket, zeros and the TMD, where the file ends, and the position is at the contents offset |
| CiaWrite.Step | cia.c:219-259 | a round that goes through writes at least one byte and goes on at an index within the table |
| CiaWrite.IntendedRunAppendsPayload | cia.c:218-261 | the intended loop succeeds exactly when every content file exists and the payload fits; the output is then the payload appended |
| CiaWrite.RunAsIntended | cia.c:218-261 | when every content is found under its `%08x` name and none has size 0, the loop as written is the intended one |
| CiaWrite.FallbackPastTable | cia.c:228-240 | with at most 16 contents, a content found only under its upper-case name makes the loop fail, although the file exists |
| CiaWrite.FallbackSkips | cia.c:228-259 | with more than 16 contents, the upper-case fallback copies the bytes of content 16's size from the found file and goes on at 17 |
| CiaWrite.EmptyContentFails | cia.c:240-255 | a content of size 0 makes the loop as written fail, while the intended round copies nothing and goes on |
| CiaWrite.CiaFileLayout | cia.c:162-269 | with every content present and non-empty, the file is the laid-out fixed part followed by the contents' bytes from the 64-aligned offset after the TMD |
| CiaWrite.CiaFileBytes | cia.c:162-269 | written to an empty file, the whole CIA file byte for byte: the fixed part with zero padding between its sections, then, when there are content bytes, zeros up to the contents offset and the contents; with none it ends at the TMD's end |
| CiaWrite.OpenContent | cia.c:219-238 | the file opened and the loop counter afterwards are those `Lookup` gives: the `%08x` name first, then the upper-case name with the counter at 16 |
| CiaWrite.CopyContent | cia.c:240-259 | the 1220-byte block loop and the final read and write succeed exactly when the size is positive, the file holds that many bytes and the output has room; the output then holds the file's first `size` bytes at its old position |
| CiaWrite.Append | cia.c:182-214 | `chunkAppendToFile` moves the output on as one piece of the fixed part and leaves the chunk's bytes unchanged |
| CiaWrite.BuildHeader | cia.c:170 | the bytes written are the built header of the two contexts |
| CiaWrite.WriteHeader | cia.c:170-180 | rewinding, writing the header and aligning give the header stage |
| CiaWrite.WriteCerts | cia.c:182-200 | appending the three certificates and aligning gives the certificate stage |
| CiaWrite.WriteChunk | cia.c:202-208 | appending one chunk and aligning gives the chunk stage |
| CiaWrite.WriteSections | cia.c:182-216 | everything after the header gives the certificate stage, then the ticket and TMD stages |
| CiaWrite.WriteFixedPart | cia.c:170-216 | writeCIA up to its content loop gives `FixedPart` |
| CiaWrite.CopyRound | cia.c:219-260 | one round of the content loop does what `Step` says, and fails exactly when `Step` does |
| CiaWrite.WriteContents | cia.c:218-261 | the content loop does what `Run` says, and fails exactly when `Run` does |
| CiaWrite.WriteCia | cia.c:162-269 | writeCIA leaves the file `CiaFile` describes and reports success exactly when that file exists |

## Left out

- `main.c` is not part of this model: argument handling, opening the ticket, TMD and output files, and the title-id comparison.
- The C stream library is modelled as bytes plus a position (the `Stdio` module). Buffering, `errno` and text mode are not modelled.
  - A stream that cannot seek fails `ftell` and `fseek`.
  - A device of fixed size makes writes fail once it is full.
  - A seek past the end followed by a write fills the gap with zeros.
- `perror` and `fprintf` messages are not modelled; a failure is only the `false` or `-1` result.
- `initBuffer`'s `malloc` and `exit(1)` are not modelled. The static 1 MiB buffer becomes a `CopyBuffer` object that the caller owns, and allocating it always succeeds. The `malloc` of the descriptor table is not modelled either.
- The `_WIN32` branch of `writeCIA` (cia.c:223-226) is left out; the model follows the other branch.
- `fclose` is not modelled. `fclose(fp)` is taken to succeed, and a content file that is not closed has no effect.
- Nothing is checked cryptographically, and neither does the program check anything. Signatures, hashes and title keys are opaque bytes.
- Results the C code ignores are ignored in the model too. These are `chunkMarkStart`/`chunkMarkEnd` in `certSaveAndSkip` and `processTIK`/`processTMD`, and `alignFilePointer` in `writeCIA`, and `buildCIAHdr`. Ignoring them only matters on a stream that cannot seek, and there the following `fseek` fails anyway.
- `titleVer` is never set by `processTIK` or `processTMD`. The methods promise only that it is left as it was.
- The `processTIK`/`processTMD` models require the file to be shorter than 2^64 bytes, so that the `size_t` difference in `chunkMarkEnd` is exact.
- Reading `content[16]` past the end of a table of at most 16 descriptors, after the upper-case fallback, is undefined behaviour in C. The model treats it as a failure.
- With more than 16 contents, a later fallback sends the C loop back to index 16, so it can loop until the output device is full. The model's loop ends for the same reason: it is bounded by the device's size.
- A title-id mismatch between ticket and TMD is a warning in `main.c` and is not modelled.
- An unknown signature tag is accepted as a signature of 0 bytes (cia.c:46-48, 117-118); only an unknown certificate tag fails (cia.c:86-91).

## Findings

| source | as written | input that shows it | evidently intended | confidence | as-written member | corrected member |
|---|---|---|---|---|---|---|
| cia.c:228 | the upper-case fallback loops over the name with the content loop's own counter `i`, so `i` is 16 afterwards, and the round copies `content[16].size` bytes and goes on at 17 | a TMD whose content 0 exists only under its upper-case name: with at most 16 contents `content[16]` lies past the table; with more, contents 1..16 are skipped and content 0's file is copied with content 16's size | the fallback uses its own counter; content `i` is copied with its own size and the loop goes on at `i + 1` | not executed | CiaWrite.FallbackSkips | CiaWrite.IntendedRunAppendsPayload |
| cia.c:251 | when `left` is 0 the final `fread(buf, 0, 1, content)` returns 0 and the round fails | a TMD descriptor with size 0 whose file exists | a content of size 0 copies nothing and the loop goes on | not executed | CiaWrite.EmptyContentFails | CiaWrite.IntendedRunAppendsPayload |

`CiaWrite.Step` and `CiaWrite.Run` model the loop as written, and so do `CopyRound`, `WriteContents` and `WriteCia`. `CiaWrite.FallbackPastTable` shows the first row for tables of at most 16 contents. `CiaWrite.IntendedStep` and `CiaWrite.IntendedRun` model the corrected loop. `CiaWrite.RunAsIntended` proves that the two agree whenever neither defect is triggered. `CiaWrite.CiaFileLayout` states the layout of the written file through the corrected loop.
