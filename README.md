# Nu and ExCamera core, modelled in Dafny

Nu is a runtime that runs an application as many small migratable units,
called proclets, on a cluster of nodes. ExCamera is a video encoder that uses
it. This project models and proves properties of the parts of the
repository whose logic can be stated without the network, threads or the
VP8 codec itself.

- **The IVF container** (`ivf.dfy`, module `Ivf`). An IVF file has a 32-byte
  header (the "DKIF" signature, version, header length, fourcc, width,
  height, frame rate, time scale, frame count and the expected decoder
  minihash, all little-endian). The frames follow, each with a 12-byte
  header giving its size. The model covers parsing, re-reading a frame,
  appending a frame, setting the minihash, and the writer used by the
  pipelines. `IvfMem` is the in-memory container class.
- **File names** (`names.dfy`). These are the zero-padded two-digit chunk
  names the pipelines read and write. Distinct chunks get distinct names.
- **BufferReader** (`buffer_reader.dfy`). A buffered reader over a byte
  stream, with `read`, `getline`, `read_exactly` and `reset`.
- **The ExCamera stages** (`excamera.dfy`, `xc_stages.dfy`).
  - `decode` replays a chunk into a decoder state.
  - `enc_given_state` re-encodes a chunk from a given decoder state.
  - `merge` concatenates two containers.
  - The codec is a parameter of type `Codec`.
- **Four pipeline variants.** Each one reads the chunks, decodes them,
  re-encodes them from the previous chunk's state, rebases them into one
  output and writes it:
  - `xc_baseline` (files on disk, `xc_baseline.dfy`);
  - `xc_mem` (in-memory vectors, `xc_mem.dfy`);
  - `xc_qs` (one chunk per task, `xc_qs.dfy`);
  - `xc_eval` (BATCH = 48 videos of N = 16 chunks in flat sharded vectors, `xc_eval.dfy`).
- **Nu's slab allocator** (`slab.dfy`, `slab_alloc.dfy`).
  - `FreePtrsLinkedList` is the intrusive free list, with its batches of six words stored in the freed slots themselves.
  - The allocator has per-core caches, per-core transferred lists, per-class slab lists, and a bump region between `cur_` and `end_`.
- **Nu's controller** (`ctrl.dfy`). It handles:
  - handing out lpids (logical process ids) and stack clusters in `register_node`;
  - the proclet heap segments, kept in size buckets;
  - proclet placement, with round-robin node choice;
  - node acquisition.
- **Caladan's full TCP transfers** (`net.dfy`). `WritevFullRaw` and
  `ReadvFullRaw` retry a scatter/gather transfer on what is left of an
  iovec array.
- **Phoenix++ map-reduce on Nu** (`map_reduce.dfy`). It covers:
  - the chunking of the input;
  - the default reduce;
  - the merge that concatenates the partitions;
  - the sorting merge: a stable sort of each partition, then pairwise merge rounds.

Each state-changing operation is a method of a class whose fields mirror the
source's. Its `ensures` ties the new state to a specification function of
the old state. The properties are then proved about those functions as
lemmas.

## Model

| member | source | states |
|---|---|---|
| Bytes.Le16 | app/excamera/alfalfa/src/util/ivf.cc:49-50 | a 16-bit header field read little-endian is below 2^16 |
| Bytes.Le32 | app/excamera/alfalfa/src/util/ivf.cc:51-54 | a 32-bit header field read little-endian is below 2^32 |
| Bytes.Le16Bytes | app/excamera/alfalfa/src/util/ivf.cc:49-50 | two bytes that read back, little-endian, as the value |
| Bytes.Le32RoundTrip | app/excamera/alfalfa/src/util/ivf.cc:38-42 | the four bytes memcpy_le32 stores read back as the stored value |
| Bytes.Le32BytesOfField | app/excamera/alfalfa/src/util/ivf.cc:38-42 | re-encoding a field that was read gives back exactly its four bytes |
| Bytes.WriteLe32 | app/excamera/alfalfa/src/util/ivf.cc:38-42 | memcpy_le32 keeps the buffer's size, makes the field at the offset read as the value, and leaves every other byte as it was |
| Wrappers.Collect | app/excamera/src/xc_mem.cpp:157-163 | a loop that stops at the first exception yields as many values as it had inputs |
| Wrappers.CollectOk | app/excamera/src/xc_mem.cpp:157-163 | the loop succeeds exactly when every step does; the values then come in order, and otherwise the error is the first step's error |
| Wrappers.CollectSnoc | app/excamera/src/xc_mem.cpp:157-163 | one more successful step appends its value; a failing step is the loop's error |
| Wrappers.CollectErr | app/excamera/src/xc_mem.cpp:157-163 | once a prefix of the steps has failed, the whole loop fails in the same way |
| Ivf.ScanStep | app/excamera/alfalfa/src/util/ivf.cc:120-127 | one pass of the index loop records the frame at `position` as (position + 12, its le32 length) and continues 12 + length bytes later |
| Ivf.FromHeader | app/excamera/alfalfa/src/util/ivf.cc:134-159 | the header-only constructor, when it succeeds, holds just the header bytes and indexes no frame |
| Ivf.Frame | app/excamera/alfalfa/src/util/ivf.cc:209-213 | frame(i) throws out_of_range past the index and otherwise returns `len` bytes of the indexed entry |
| Ivf.WithFrame | app/excamera/alfalfa/src/util/ivf.cc:187-201 | append_frame grows the buffer by the header and frame and rewrites bytes 24-27 to the new frame count |
| Ivf.WithMinihashAsWritten | app/excamera/alfalfa/src/util/ivf.cc:203-207 | as written, the minihash field takes the new value but bytes 28-31 take the frame count |
| Ivf.WithMinihash | app/excamera/alfalfa/src/util/ivf.cc:203-207 | corrected: the field and bytes 28-31 both hold the minihash |
| Ivf.ScanLayout | app/excamera/alfalfa/src/util/ivf.cc:117-127 | the index has frame_count entries, the first at byte 44, each 12 + len bytes after the previous one, and the scan ends right after the last frame |
| Ivf.ParseLayout | app/excamera/alfalfa/src/util/ivf.cc:92-128 | a parsed file's index is frame_count back-to-back entries starting at byte 44 |
| Ivf.ParseErrors | app/excamera/alfalfa/src/util/ivf.cc:92-132 | a short file is "IVF file truncated"; a wrong magic, a nonzero version and a header length other than 32 are each reported, checked in that order |
| Ivf.ScanAgree | app/excamera/alfalfa/src/util/ivf.cc:120-127 | the index loop reads no byte before its start, so changing those bytes or appending bytes does not change the index |
| Ivf.ScanSnoc | app/excamera/alfalfa/src/util/ivf.cc:120-127 | a scan that ends with a whole frame header still inside the buffer extends by exactly that frame |
| Ivf.FromHeaderRoundTrips | app/excamera/alfalfa/src/util/ivf.cc:134-159 | a valid header that announces no frames becomes a container whose buffer parses back to it |
| Ivf.HeaderAgree | app/excamera/alfalfa/src/util/ivf.cc:134-155 | headers that differ only in the frame count or minihash bytes pass the same checks and decode to the same other fields |
| Ivf.RoundTripFacts | app/excamera/alfalfa/src/util/ivf.cc:92-128 | a container that round-trips has a valid header, bytes 24-27 equal to its frame count, and an index scan covering its whole buffer |
| Ivf.AppendRoundTrips | app/excamera/alfalfa/src/util/ivf.cc:187-201 | appending a frame behind a header holding its length keeps the buffer parseable back to the container and counts one more frame |
| Ivf.AppendScan | app/excamera/alfalfa/src/util/ivf.cc:187-201 | from the buffer facts alone, any container laid out as an append leaves it round-trips |
| Ivf.ParseOfCount | app/excamera/alfalfa/src/util/ivf.cc:118-128 | a buffer whose header checks pass and whose frame_count frame headers scan to exactly its end parses back to the container built from that index |
| Ivf.AppendedIs | app/excamera/alfalfa/src/util/ivf.cc:187-201 | below 2^32 frames append_frame keeps the old bytes but the count at offset 24, puts the frame header and the frame behind them, counts and indexes one more frame and changes no other field |
| Ivf.AppendCount | app/excamera/alfalfa/src/util/ivf.cc:199-200 | an append counts exactly one more frame |
| Ivf.AppendHeader | app/excamera/alfalfa/src/util/ivf.cc:199-200 | an append leaves every header field except the frame count as it was |
| Ivf.Parse | app/excamera/alfalfa/src/util/ivf.cc:92-132 | the IVF constructor's checks and index scan as a value; characterised in Ivf.ParseErrors, Ivf.ParseLayout and Ivf.ParseOf |
| Ivf.ParseOf | app/excamera/alfalfa/src/util/ivf.cc:92-128 | a buffer with a valid header whose frames end exactly at its end parses to the container built from it |
| Ivf.AppendedScan | app/excamera/alfalfa/src/util/ivf.cc:187-201 | the index scan of an appended buffer finds the old frames, then the new one, and ends at the new end |
| Ivf.AppendedBytes | app/excamera/alfalfa/src/util/ivf.cc:190-200 | after an append the old bytes (except the count), the frame header and the frame sit one after another |
| Ivf.AppendFrames | app/excamera/alfalfa/src/util/ivf.cc:187-213 | frames already stored read back unchanged after an append, and the new frame reads back at the next index |
| Ivf.AppendKeepsFrame | app/excamera/alfalfa/src/util/ivf.cc:209-213 | a frame past byte 28 reads the same once later bytes are appended |
| Ivf.ScanOffsetsFrom | app/excamera/alfalfa/src/util/ivf.cc:120-127 | every indexed frame starts at least 12 bytes after the point where the scan started |
| Ivf.RoundTripFramesReadable | app/excamera/alfalfa/src/util/ivf.cc:209-213 | in a container that round-trips, every indexed frame can be read |
| Ivf.FrameWithinEnd | app/excamera/alfalfa/src/util/ivf.cc:120-127 | back-to-back entries end no later than the last one |
| Ivf.SetMinihashRoundTrips | app/excamera/alfalfa/src/util/ivf.cc:203-207 | the corrected minihash update keeps the container parseable back to itself |
| Ivf.SetMinihashAsWrittenRereads | app/excamera/alfalfa/src/util/ivf.cc:203-207 | as written, re-reading the buffer after the update reports the frame count as the minihash |
| Ivf.WriterHeader | app/excamera/src/xc_mem.cpp:155 | the writer's header is 32 bytes long |
| Ivf.FrameHeader | app/excamera/src/xc_mem.cpp:158 | the writer's frame header is 12 bytes long |
| Ivf.WriterHeaderParses | app/excamera/src/xc_mem.cpp:155 | the writer's header passes the checks, announces no frames and decodes to the fourcc, size, rate and scale it was given |
| Ivf.FrameHeaderLength | app/excamera/src/xc_mem.cpp:158 | the writer's frame header holds the frame's length in its first four bytes |
| Ivf.NewWriter | app/excamera/src/xc_mem.cpp:155 | a fresh writer is the 32-byte header with no frames and minihash 0 |
| Ivf.WriterAppend | app/excamera/src/xc_mem.cpp:158 | writing a frame keeps at least a header in the buffer |
| Ivf.WriteAll | app/excamera/src/xc_mem.cpp:155-163 | writing frames keeps at least a header in the buffer |
| Ivf.Frames | app/excamera/src/xc_mem.cpp:157-159 | reading every announced frame in order; its properties are those of Ivf.FramesUpTo and Ivf.RoundTripFrames |
| Ivf.FramesUpTo | app/excamera/src/xc_mem.cpp:157-159 | reading frames 0..n-1 in order yields n frames when it succeeds |
| Ivf.FramesUpToSnoc | app/excamera/src/xc_mem.cpp:157-159 | reading one more readable frame appends it |
| Ivf.FramesUpToErr | app/excamera/src/xc_mem.cpp:157-159 | once a frame cannot be read, reading further frames fails with the same error |
| Ivf.FramesUpToAgree | app/excamera/src/xc_mem.cpp:157-159 | two containers with the same frames one by one read the same frames |
| Ivf.RoundTripFrames | app/excamera/alfalfa/src/util/ivf.cc:209-213 | every frame of a container that round-trips can be read and fits a 32-bit frame header |
| Ivf.NewWriterRoundTrips | app/excamera/src/xc_mem.cpp:155 | a fresh writer's container round-trips and holds no frames |
| Ivf.WriterAppendFrames | app/excamera/src/xc_mem.cpp:158 | one written frame keeps the round trip, is counted, sits after the old frames, and leaves the other header fields alone |
| Ivf.WriteAllRoundTrips | app/excamera/src/xc_mem.cpp:155-163 | writing frames keeps the round trip, adds their number to the count and leaves the other header fields alone |
| Ivf.WriteAllFrames | app/excamera/src/xc_mem.cpp:155-163 | after writing, the container's frames are its old frames followed by the written ones |
| Ivf.WrittenFrames | app/excamera/src/xc_mem.cpp:155-163 | the container a writer builds from some frames round-trips and holds exactly those frames, with the writer's size and fourcc and minihash 0 |
| Ivf.SetMinihashAsWrittenExample | app/excamera/alfalfa/src/util/ivf.cc:203-207 | an empty VP80 container given minihash 7 is re-read with minihash 0 |
| Ivf.SetMinihashExample | app/excamera/alfalfa/src/util/ivf.cc:203-207 | with the correction, that container re-reads with minihash 7 |
| Ivf.IvfMem.Of | app/excamera/alfalfa/src/util/ivf.hh:73-93 | the object holds the given container value |
| Ivf.IvfMem.ParseBuffer | app/excamera/alfalfa/src/util/ivf.cc:92-132 | the constructor's header checks and index loop give exactly the parsed container or its error |
| Ivf.IvfMem.LoadFile | app/excamera/alfalfa/src/util/ivf.cc:161-185 | loading a named file and parsing it gives the container of that file's bytes, or the error |
| Ivf.IvfMem.AppendFrame | app/excamera/alfalfa/src/util/ivf.cc:187-201 | the object's new value is the container with the frame appended |
| Ivf.IvfMem.SetExpectedDecoderMinihashAsWritten | app/excamera/alfalfa/src/util/ivf.cc:203-207 | the object's new value is the as-written minihash update |
| Ivf.IvfMem.SetExpectedDecoderMinihash | app/excamera/alfalfa/src/util/ivf.cc:203-207 | the object's new value is the corrected minihash update |
| Names.Decimal | app/excamera/src/xc_mem.cpp:251 | at least one character, all of them decimal digits |
| Names.Pad2 | app/excamera/src/xc_mem.cpp:251 | the padded index is all decimal digits |
| Names.DecimalValue | app/excamera/src/xc_mem.cpp:251 | the digits read back as the number |
| Names.Pad2RoundTrip | app/excamera/src/xc_mem.cpp:251 | an index below 100 is written with exactly two digits that read back as the index |
| Names.Pad2Injective | app/excamera/src/xc_mem.cpp:251 | two indices below 100 get the same two digits only when they are equal |
| Names.TagOfTag | app/excamera/src/xc_mem.cpp:274 | a stage tag can be recovered from a name that continues without an underscore |
| Names.ChunkNameInjective | app/excamera/src/xc_mem.cpp:274 | two stage file names under the same prefix are equal only when their tags, indices (below 100) and extensions are |
| Names.ChunkNameExample | app/excamera/src/xc_mem.cpp:274 | chunk 7's VP8 file of the Sintel input is "sintel01_vpx_07.ivf" |
| BufferReaders.LineOf | app/excamera/alfalfa/src/util/buffer_reader.hh:57-72 | a line is no longer than the text it is read from |
| BufferReaders.LineOfSplit | app/excamera/alfalfa/src/util/buffer_reader.hh:57-72 | the line is a prefix holding no newline, followed by a newline unless it is the whole text |
| BufferReaders.LineOfRoundTrip | app/excamera/alfalfa/src/util/buffer_reader.hh:57-72 | a newline-free text followed by a newline, or by nothing, reads back as that text |
| BufferReaders.ChunksCeil | app/excamera/alfalfa/src/util/buffer_reader.hh:74-91 | consuming m bytes in reads of at most b bytes takes m / b reads, rounded up |
| BufferReaders.BufferReader.constructor | app/excamera/alfalfa/src/util/buffer_reader.hh:26 | the default reader is empty, at position 0, with no reads counted and eof clear |
| BufferReaders.BufferReader.FromFile | app/excamera/alfalfa/src/util/buffer_reader.hh:27-36 | the file reader holds the file's bytes, at position 0, with no reads counted and eof clear |
| BufferReaders.BufferReader.Read | app/excamera/alfalfa/src/util/buffer_reader.hh:74-91 | read after eof throws and changes nothing; otherwise it returns the next min(BUFFER_SIZE, limit, remaining) bytes, moves past them, counts one read, and an empty piece sets eof |
| BufferReaders.BufferReader.Getline | app/excamera/alfalfa/src/util/buffer_reader.hh:57-72 | getline returns the unread bytes before the next newline and moves past the newline; a line that ends the buffer leaves eof set; one read is counted per byte |
| BufferReaders.BufferReader.ReadExactly | app/excamera/alfalfa/src/util/buffer_reader.hh:93-105 | read_exactly returns exactly `length` next bytes, or throws when the buffer ends first |
| BufferReaders.ExactlyStep | app/excamera/alfalfa/src/util/buffer_reader.hh:96-97 | a read within read_exactly that gets bytes extends the result by a further prefix of the unread bytes and is one of the reads still to come |
| BufferReaders.ExactlyEof | app/excamera/alfalfa/src/util/buffer_reader.hh:97-100 | a read within read_exactly that gets nothing happens only with BUFFER_SIZE 0 or at the end of the buffer, and the reads counted are then all the reads of what was unread |
| BufferReaders.ExactlyDone | app/excamera/alfalfa/src/util/buffer_reader.hh:95-104 | when the read_exactly loop ends without EOF the result is exactly the next length unread bytes, the cursor can move past them, and a positive length needs a positive BUFFER_SIZE and enough bytes |
| BufferReaders.BufferReader.Reset | app/excamera/alfalfa/src/util/buffer_reader.hh:107-112 | reset goes back to the start with eof clear and no reads counted, keeping the buffer |
| Excamera.ReplayConcat | app/excamera/src/xc_mem.cpp:118-132 | decoding two frame lists one after the other continues from the state the first list leaves |
| Excamera.DecodeSpec | app/excamera/src/xc_mem.cpp:56-86 | decode's outcome as a value; characterised in Excamera.DecodeOutcome and met by Excamera.Decode |
| Excamera.Decode | app/excamera/src/xc_mem.cpp:56-86 | decode's frame loop returns exactly the specified outcome: the state after the last frame, or the mismatch, frame and "invalid frame number" errors |
| Excamera.ReplaySnoc | app/excamera/src/xc_mem.cpp:65-76 | decoding one more frame applies the decoder to the state so far |
| Excamera.DecodeOutcome | app/excamera/src/xc_mem.cpp:56-86 | with the codec's decoder and frame parser total, decode fails exactly on a minihash mismatch, an empty container or an unreadable frame, with the source's messages; a well-formed matching container decodes to the state after all its frames |
| Excamera.Predictions | app/excamera/src/xc_mem.cpp:118-132 | there is one prediction per frame, and each is paired with the state the prediction decoder is in when it parses that frame |
| Excamera.PredictionsSnoc | app/excamera/src/xc_mem.cpp:118-132 | one more prediction frame is appended together with the state reached before it |
| Excamera.EncodeWriter | app/excamera/src/xc_mem.cpp:106-136 | the writer enc_given_state re-encodes into starts as a bare 32-byte header |
| Excamera.EncGivenStateSpec | app/excamera/src/xc_mem.cpp:88-145 | enc_given_state's outcome as a value; characterised in Excamera.EncGivenStateErrors and Excamera.EncGivenStateOutput and met by Excamera.EncGivenState |
| Excamera.EncGivenState | app/excamera/src/xc_mem.cpp:88-145 | the method returns exactly the specified re-encoding: check the prediction minihash, replay the prediction frames, re-encode from the input state |
| Excamera.PredictionFrames | app/excamera/src/xc_mem.cpp:108-131 | with the codec's decoder and frame parser total, the pre-read of the prediction frames fails exactly when a prediction frame cannot be read, with that error, and otherwise yields each frame with the prediction decoder state it is replayed into |
| Excamera.EncGivenStateErrors | app/excamera/src/xc_mem.cpp:112-132 | with the codec's decoder, frame parser and state deserialiser total, enc_given_state fails exactly on a prediction minihash mismatch (with the source's message) or an unreadable prediction frame, and never on a well-formed matching prediction container |
| Excamera.EncGivenStateOutput | app/excamera/src/xc_mem.cpp:134-145 | the output container round-trips, has the display size and fourcc VP80, announces the input state's minihash and holds exactly the encoder's frames; the returned state is the encoder's, assuming Bounded(c): every re-encoding has fewer than 2^32 frames, each shorter than 2^32 bytes |
| Excamera.EncGivenStateChains | app/excamera/src/xc_mem.cpp:207-219 | a container re-encoded from some state passes the checks of a later call whose prediction decoder starts from that state, assuming Bounded(c): every re-encoding has fewer than 2^32 frames, each shorter than 2^32 bytes |
| Excamera.ChainsFromAnyInput | app/excamera/src/xc_mem.cpp:226-241 | a re-encoded container is accepted as the prediction of the next call whatever that call's input state, assuming Bounded(c): every re-encoding has fewer than 2^32 frames, each shorter than 2^32 bytes |
| Excamera.MergeSpec | app/excamera/src/xc_mem.cpp:147-166 | merge's outcome as a value; characterised in Excamera.MergeErrors and Excamera.MergeFrames and met by Excamera.Merge |
| Excamera.Merge | app/excamera/src/xc_mem.cpp:147-166 | merge's two writer loops yield exactly the specified outcome |
| Excamera.MergeErrors | app/excamera/src/xc_mem.cpp:147-166 | merge fails exactly on differing dimensions (with the source's message) or an unreadable frame, and never on two well-formed containers of the same size |
| Excamera.MergeFrames | app/excamera/src/xc_mem.cpp:155-165 | the merged container round-trips, keeps the size, holds the first container's frames followed by the second's, and counts their sum |
| Excamera.MergeFits | app/excamera/src/xc_mem.cpp:157-163 | a readable container yields as many frames as it announces, each short enough for a frame header |
| Excamera.FramesFitUpTo | app/excamera/src/xc_mem.cpp:157-163 | frames read through 32-bit lengths fit a frame header |
| Excamera.MergeChainFrames | app/excamera/src/xc_mem.cpp:226-241 | merging containers one at a time gives the first's frames followed by all the others', in order, with the counts added up |
| Excamera.MergeStepsChain | app/excamera/src/xc_mem.cpp:236 | outputs each merged onto the previous output form the merge chain from the first output |
| Excamera.ChainStep | app/excamera/src/xc_mem.cpp:236 | a chain that merges to output k - 1 merges to output k once container k is added |
| Excamera.MergeChainSnoc | app/excamera/src/xc_mem.cpp:236 | adding a container to a chain that succeeds merges that container onto the chain's result |
| Excamera.MergeStepsFrames | app/excamera/src/xc_mem.cpp:226-241 | the last output of an incremental merge holds every container's frames in order, round-trips and counts their sum |
| XcStages.DecodeSteps | app/excamera/src/xc_qs.cpp:211-227 | there is one decode task per container, each decoding that container |
| XcStages.DecodeEachOk | app/excamera/src/xc_qs.cpp:207-239 | decoding every container succeeds exactly when each one does, and then yields their states in order; otherwise the error is that of the first failing container |
| XcStages.Ivfs | app/excamera/src/xc_qs.cpp:289-296 | the containers of a list of outputs, one per output, in order |
| XcStages.States | app/excamera/src/xc_qs.cpp:289-296 | the states of a list of outputs, one per output, in order |
| XcStages.OutputsSnoc | app/excamera/src/xc_qs.cpp:290-295 | one more output appends its container and its state |
| XcStages.IvfsAppend | app/excamera/src/xc_qs.cpp:289-296 | the containers and states of two lists of outputs are those of each list, concatenated |
| XcStages.EncChunkChains | app/excamera/src/xc_qs.cpp:299-323 | a chunk re-encoded from state s with a fresh prediction decoder is accepted again with s as its prediction state, from any input state, assuming Bounded(c): every re-encoding has fewer than 2^32 frames, each shorter than 2^32 bytes |
| XcStages.DecodeTasks | app/excamera/src/xc_qs.cpp:211-227 | the distributed decode lambda's pop-and-decode loop yields exactly every container's state in order, or the first error |
| XcStages.EncodeChunk | app/excamera/src/xc_qs.cpp:129-187 | read_raster then enc_given_state on one chunk gives the specified chunk re-encoding |
| XcMem.Xc.constructor | app/excamera/src/xc_mem.cpp:287-297 | every vector is resized to N default elements and no rasters are read yet |
| XcMem.Xc.ReadChunk | app/excamera/src/xc_mem.cpp:249-278 | one read_input iteration succeeds exactly when chunk i's raw and VP8 files exist and the VP8 file parses, and then returns their raster and container; otherwise its error is the chunk's missing file or parse error (ChunkError) |
| XcMem.Xc.ReadInput | app/excamera/src/xc_mem.cpp:248-279 | read_input leaves chunk 0's display size and every chunk's rasters and container, touching no other vector, or fails with the error of the first chunk whose files are missing or do not parse, every earlier chunk being readable |
| XcMem.ReadStops | app/excamera/src/xc_mem.cpp:249-278 | a read_input iteration that fails at chunk i after reading every earlier chunk fails with the first chunk error, on a missing raw file, a missing VP8 file or an unparsable one |
| XcMem.Xc.DecodeTask | app/excamera/src/xc_mem.cpp:171-176 | one decode thread writes dec[i] with chunk i's decoded state and nothing else, or fails with decode's error |
| XcMem.Xc.DecodeAll | app/excamera/src/xc_mem.cpp:168-182 | decode_all leaves every chunk's decoded state in its slot, or fails with some chunk's decode error |
| XcMem.Xc.FirstPassTask | app/excamera/src/xc_mem.cpp:192-197 | a first-pass thread writes xc0[i] and enc0[i] (and nothing else) with the re-encoding of chunk i from dec[i-1] and a fresh prediction decoder |
| XcMem.Xc.SecondPassTask | app/excamera/src/xc_mem.cpp:212-218 | a second-pass thread writes xc1[i] and enc1[i] with the re-encoding of xc0[i] from enc0[i-1], predicted from dec[i-1] |
| XcMem.Xc.FirstPass | app/excamera/src/xc_mem.cpp:186-202 | the first pass copies chunk 0 and re-encodes every later chunk into its slot; it fails exactly when some chunk's re-encoding does, and then with that chunk's error |
| XcMem.Xc.SecondPass | app/excamera/src/xc_mem.cpp:206-223 | the second pass copies chunk 0 of the first pass and re-encodes every later chunk over the first pass's output; it fails exactly when some chunk's re-encoding does, and then with that chunk's error |
| XcMem.Xc.EncodeAll | app/excamera/src/xc_mem.cpp:184-224 | encode_all completes the first pass and then the second, leaving the decode results and inputs alone; it fails exactly when one pass does, with an error of the first pass or, after a complete first pass, of the second |
| XcMem.Xc.RebaseEncodeTask | app/excamera/src/xc_mem.cpp:235 | step i of the rebase re-encodes xc1[i] from rebased_state[i-1], predicted from enc0[i-1], into slot i only; on failure the error is that re-encoding's and nothing changes |
| XcMem.Xc.MergeTask | app/excamera/src/xc_mem.cpp:236 | step i of the rebase writes final[i] as final[i-1] merged with rebased[i]; on failure the error is the merge's and final is unchanged |
| XcMem.Xc.Rebase | app/excamera/src/xc_mem.cpp:226-241 | the serial rebase seeds slot 0 from the second pass and chains every later chunk's re-encoding and merge; on failure the steps before step i are done and step i's re-encoding, or its merge after a successful re-encoding, fails with the error returned |
| XcMem.ChunkReadExtend | app/excamera/src/xc_mem.cpp:248-279 | reading one more chunk keeps every earlier chunk as read |
| XcMem.FirstPassExtend | app/excamera/src/xc_mem.cpp:186-199 | one more finished first-pass task keeps every earlier one's result |
| XcMem.SecondPassExtend | app/excamera/src/xc_mem.cpp:206-220 | one more finished second-pass task keeps every earlier one's result |
| XcMem.RebaseExtend | app/excamera/src/xc_mem.cpp:228-240 | one more rebase step keeps every earlier step's result |
| XcMem.RebaseUpToFrame | app/excamera/src/xc_mem.cpp:235 | a rebase re-encoding step that fills only slot n keeps every earlier step's result |
| XcMem.DoWork | app/excamera/src/xc_mem.cpp:281-311 | on success every stage has done its work and prefix + "final.ivf" holds the buffer of final[N-1], with no other file changed; on failure the error is that of the first stage that fails, every earlier stage having succeeded (WorkFailed) |
| XcMem.SecondPassSucceeds | app/excamera/src/xc_mem.cpp:206-223 | once the first pass has succeeded, no second-pass task fails, assuming Bounded(c): every re-encoding has fewer than 2^32 frames, each shorter than 2^32 bytes |
| XcMem.RebaseEncodesSucceed | app/excamera/src/xc_mem.cpp:226-241 | once the second pass has succeeded, no rebase re-encoding fails, whatever state the chain hands it, assuming Bounded(c): every re-encoding has fewer than 2^32 frames, each shorter than 2^32 bytes |
| XcMem.FinalFrames | app/excamera/src/xc_mem.cpp:226-245 | the written container holds chunk 0's frames followed by every rebased chunk's, counts their sum and round-trips |
| XcQs.InputSplit | app/excamera/src/xc_qs.cpp:335-353 | the prediction group is the re-encoded group shifted by one, ivf0 is the first prediction container, and every chunk's files were readable |
| XcQs.PredictorsExtend | app/excamera/src/xc_qs.cpp:340-342 | loading the next chunk's container extends the prediction group by one chunk |
| XcQs.TargetsExtend | app/excamera/src/xc_qs.cpp:343-348 | loading the next chunk's container and raw file extends the re-encoded group by one chunk |
| XcQs.EncodeSteps | app/excamera/src/xc_qs.cpp:253-278 | encode_all has one task per entry, each re-encoding vpx1[k] from dec_state[k] with a fresh prediction decoder |
| XcQs.EncodeEachOk | app/excamera/src/xc_qs.cpp:241-297 | encode_all succeeds exactly when every re-encoding does, and then keeps them in order; otherwise the error is that of the first failing task |
| XcQs.RebasedExtend | app/excamera/src/xc_qs.cpp:309-323 | one more rebase step keeps every earlier step |
| XcQs.RebaseFinalFrames | app/excamera/src/xc_qs.cpp:299-323 | the last output of the rebase chain holds final[0]'s frames followed by every rebased chunk's, with the counts added up |
| XcQs.RebaseEncodesSucceed | app/excamera/src/xc_qs.cpp:309-323 | after a successful encode_all no re-encoding of the rebase fails, assuming Bounded(c): every re-encoding has fewer than 2^32 frames, each shorter than 2^32 bytes |
| XcQs.RebaseFailsInMerge | app/excamera/src/xc_qs.cpp:317-320 | so after a successful encode_all a failing rebase step fails in its merge, assuming Bounded(c): every re-encoding has fewer than 2^32 frames, each shorter than 2^32 bytes |
| XcQs.MainPrefixExample | app/excamera/src/xc_qs.cpp:413 | the arguments "sintel" and "/data" give the prefix "/data/sintel01_" |
| XcQs.ReadError | app/excamera/src/xc_qs.cpp:336-352 | a chunk gives no read error exactly when its container loads and (after chunk 0) its raw file exists; the container's error comes first |
| XcQs.Qs.constructor | app/excamera/src/xc_qs.cpp:356-363 | every vector starts empty (sharded vectors take only a size hint) |
| XcQs.Qs.ReadInput | app/excamera/src/xc_qs.cpp:335-353 | read_input succeeds exactly when every chunk's files are readable; it then appends chunks 0..N-2 to vpx0, chunks 1..N-1 to vpx1 and the raw files of chunks 1..N-1 to raster_buffer, sets ivf0 to chunk 0's container, and on failure changes nothing and fails with the first unreadable chunk's error |
| XcQs.Qs.ReadChunks | app/excamera/src/xc_qs.cpp:336-352 | the read_input loop succeeds exactly when every chunk is readable, and then reads the three groups and ivf0; otherwise it fails with the error of the first unreadable chunk |
| XcQs.Qs.DecodeAll | app/excamera/src/xc_qs.cpp:207-239 | decode_all succeeds exactly when every container decodes; state0 is the first state and the first N-1 states are appended to dec_state and dec_state_vec; on failure none of them changes |
| XcQs.Qs.PushStates | app/excamera/src/xc_qs.cpp:233-237 | the push loop yields the first n states, in order |
| XcQs.Qs.EncodeTasks | app/excamera/src/xc_qs.cpp:253-278 | the distributed lambda's loop yields exactly encode_all's specified outcome |
| XcQs.Qs.EncodeAll | app/excamera/src/xc_qs.cpp:241-297 | on success enc_state gets state0 and the first N-2 new states and xc_ivf gets all N-1 new containers; on failure neither changes |
| XcQs.Qs.EncodeOutputs | app/excamera/src/xc_qs.cpp:253-296 | the tasks and pushes give the containers of all N-1 outputs and the states of the first N-2 exactly when encode_all succeeds, and its first error otherwise |
| XcQs.Qs.PushOutputs | app/excamera/src/xc_qs.cpp:289-296 | the push loop yields all containers and the states of all but the last output |
| XcQs.Qs.Rebase | app/excamera/src/xc_qs.cpp:299-328 | the rebase seeds final_ivf with ivf0 and rebased_state with state0; on success every step was taken, and on failure the steps before the failing one were, and the failing step's re-encoding, or its merge after a successful re-encoding, gives the error returned |
| XcQs.RebaseSteps | app/excamera/src/xc_qs.cpp:309-323 | the rebase loop on values: final and the state list start with ivf0 and state0; on success every step was taken, and on failure the steps before the failing one were and that step's re-encoding or merge gives the error returned |
| XcQs.Qs.WriteOutput | app/excamera/src/xc_qs.cpp:330-333 | prefix + "final.ivf" gets the buffer of final_ivf[N-1], and no other file changes |
| XcQs.Qs.ComputeStages | app/excamera/src/xc_qs.cpp:368-372 | decode_all, encode_all and rebase in order: on success the state holds what do_work writes, on failure the error is that of the first failing stage after every earlier one succeeded |
| XcQs.RebasedGrown | app/excamera/src/xc_qs.cpp:317-320 | a state pushed before a merge throws leaves the finished steps as they were |
| XcQs.OutputFrames | app/excamera/src/xc_qs.cpp:330-333 | the written container holds chunk 0's frames followed by those of the rebased chunks 1..N-1 |
| XcQs.DoWork | app/excamera/src/xc_qs.cpp:355-374 | on success every stage has done its work and only prefix + "final.ivf" is written, with final_ivf[N-1]; on failure the error is that of the first stage that fails (read_input, decode_all, encode_all or the failing rebase step), every earlier stage having succeeded |
| XcBaseline.KindNamed | app/excamera/src/xc_baseline.cpp:156-252 | every stage file kind has a stage tag and an extension that together name it and no other kind |
| XcBaseline.PathInjective | app/excamera/src/xc_baseline.cpp:156-252 | two stage files under one prefix with indices of at most two digits have the same name only if they are the same kind and chunk |
| XcBaseline.Pred | app/excamera/src/xc_baseline.cpp:179 | the predecessor index `(i == 0) ? 0 : (i - 1)` is 0 for chunk 0 and i - 1 otherwise |
| XcBaseline.Lookup | app/excamera/src/xc_baseline.cpp:38 | a file's bytes are found exactly when the file exists, and are that file's contents |
| XcBaseline.EncFileAgree | app/excamera/src/xc_baseline.cpp:68-135 | enc_given_state depends only on the files it names |
| XcBaseline.Reads | app/excamera/src/xc_baseline.cpp:169-262 | a chunk's stage reads only files of that chunk or earlier ones, of the kinds it names |
| XcBaseline.DecodedKept | app/excamera/src/xc_baseline.cpp:156-167 | decode's result for chunk i still holds in any directory that agrees on the files it reads |
| XcBaseline.FirstPassKept | app/excamera/src/xc_baseline.cpp:171-194 | a first-pass chunk still holds in any directory that agrees on the files it reads |
| XcBaseline.SecondPassKept | app/excamera/src/xc_baseline.cpp:197-223 | a second-pass chunk still holds in any directory that agrees on the files it reads |
| XcBaseline.RebaseKept | app/excamera/src/xc_baseline.cpp:228-261 | a rebase chunk still holds in any directory that agrees on the files it reads |
| XcBaseline.DecodedBelow | app/excamera/src/xc_baseline.cpp:157-166 | writing files of chunk i or later keeps every earlier chunk decoded |
| XcBaseline.FirstPassBelow | app/excamera/src/xc_baseline.cpp:171-194 | writing files of chunk i or later keeps every earlier first-pass chunk |
| XcBaseline.SecondPassBelow | app/excamera/src/xc_baseline.cpp:197-223 | writing files of chunk i or later keeps every earlier second-pass chunk |
| XcBaseline.RebaseBelow | app/excamera/src/xc_baseline.cpp:228-261 | writing files of chunk i or later keeps every earlier rebase chunk |
| XcBaseline.KeptAcross | app/excamera/src/xc_baseline.cpp:273-275 | a file of a kind a stage does not write is kept by that stage |
| XcBaseline.FileSystem.constructor | app/excamera/src/xc_baseline.cpp:264-278 | the file system starts with the given directory |
| XcBaseline.FileSystem.Copy | app/excamera/src/xc_baseline.cpp:189-190 | fs::copy puts the source's bytes at the target, or throws on a missing source and changes nothing |
| XcBaseline.FileSystem.ReadIvfFile | app/excamera/src/xc_baseline.cpp:38 | opening a container file gives the file's container, or the parser's or the missing file's error |
| XcBaseline.FileSystem.DecodeToFile | app/excamera/src/xc_baseline.cpp:37-66 | decode writes exactly the decoded state to the output file on success, and changes nothing on failure |
| XcBaseline.FileSystem.EncGivenStateFiles | app/excamera/src/xc_baseline.cpp:68-135 | enc_given_state writes exactly the re-encoded container and the encoder state on success, and changes nothing on failure |
| XcBaseline.FileSystem.MergeFiles | app/excamera/src/xc_baseline.cpp:137-154 | merge writes exactly the merged container on success, and changes nothing on failure |
| XcBaseline.FileSystem.DecodeAll | app/excamera/src/xc_baseline.cpp:156-167 | decode_all writes only dec files; on success dec_i holds vpx_i's decoded state for every chunk, and on failure the chunks before some chunk i are decoded and vpx_i fails to decode with the error returned |
| XcBaseline.FileSystem.FirstPass | app/excamera/src/xc_baseline.cpp:171-194 | the first pass writes only xc0 and enc0 files; on success chunk 0 is copied and every later chunk re-encoded from dec_(i-1); on failure the chunks before some chunk i are done and chunk i's copy source is missing (i = 0) or its re-encoding fails, with the error returned |
| XcBaseline.FileSystem.SecondPass | app/excamera/src/xc_baseline.cpp:197-223 | the second pass writes only xc1 and enc1 files; on success chunk 0 is copied and every later chunk re-encoded from enc0_(i-1); on failure the chunks before some chunk i are done and chunk i's copy source is missing (i = 0) or its re-encoding fails, with the error returned |
| XcBaseline.FileSystem.EncodeAll | app/excamera/src/xc_baseline.cpp:169-224 | encode_all writes only the two passes' files; on success both passes hold for every chunk, and on failure the first pass failed, or it completed and the second pass failed, with the error returned |
| XcBaseline.FileSystem.Rebase | app/excamera/src/xc_baseline.cpp:226-262 | the rebase writes only rebased and final files; on success every chunk is re-encoded and merged onto the previous final; on failure the chunks before some chunk i are done and chunk i's copy source is missing (i = 0), its re-encoding fails, or its merge fails after the re-encoding was written, with the error returned |
| XcBaseline.DecodeStep | app/excamera/src/xc_baseline.cpp:157-166 | one decode iteration adds chunk i and keeps the earlier chunks |
| XcBaseline.WrittenAt | app/excamera/src/xc_baseline.cpp:171-262 | writing two files of chunk i or later keeps every file of an earlier chunk |
| XcBaseline.FirstPassFirstStep | app/excamera/src/xc_baseline.cpp:188-190 | the copies of chunk 0 complete the first pass for that chunk |
| XcBaseline.FirstPassStep | app/excamera/src/xc_baseline.cpp:191-193 | the re-encoding of chunk i > 0 adds it to the first pass and keeps the earlier chunks |
| XcBaseline.SecondPassFirstStep | app/excamera/src/xc_baseline.cpp:217-219 | the copies of chunk 0 complete the second pass for that chunk |
| XcBaseline.SecondPassStep | app/excamera/src/xc_baseline.cpp:220-222 | the re-encoding of chunk i > 0 adds it to the second pass and keeps the earlier chunks |
| XcBaseline.RebaseFirstStep | app/excamera/src/xc_baseline.cpp:254-256 | the copies of chunk 0 seed the rebase chain |
| XcBaseline.RebaseStep | app/excamera/src/xc_baseline.cpp:257-260 | the re-encoding and merge of chunk i > 0 add it to the chain and keep the earlier chunks |
| XcBaseline.RebaseNewChunk | app/excamera/src/xc_baseline.cpp:257-260 | chunk i of the rebase holds once both its re-encoding and its merge are written |
| XcBaseline.RebaseEncodeWritten | app/excamera/src/xc_baseline.cpp:258 | the re-encoding step writes the rebased container and state of chunk i |
| XcBaseline.RebaseMergeWritten | app/excamera/src/xc_baseline.cpp:259 | the merge step writes final_i as final_(i-1) followed by rebased_i, keeping the re-encoding |
| XcBaseline.RebaseMergeFails | app/excamera/src/xc_baseline.cpp:258-259 | a merge that throws after chunk i's re-encoding was written leaves the rebase stopped at chunk i with the earlier chunks done |
| XcBaseline.Run | app/excamera/src/xc_baseline.cpp:264-278 | a wrong argument count returns 1 and writes nothing; otherwise only pipeline files are written, a run that returns 0 leaves every stage's result for every chunk, and a run that throws stops at the first stage that fails, every earlier stage's result being kept, with that stage's error |
| XcBaseline.DecodedAcross | app/excamera/src/xc_baseline.cpp:273-275 | a stage that writes none of the kinds decode reads keeps every decoded chunk |
| XcBaseline.FirstPassAcross | app/excamera/src/xc_baseline.cpp:274-275 | a stage that writes none of the kinds the first pass reads keeps it |
| XcBaseline.SecondPassAcross | app/excamera/src/xc_baseline.cpp:274-275 | a stage that writes none of the kinds the second pass reads keeps it |
| XcBaseline.AllKept | app/excamera/src/xc_baseline.cpp:273-275 | what decode_all and encode_all leave survives the later stages |
| XcEval.FlatLayout | app/excamera/src/xc_eval.cpp:226-231 | entry i of batch b lies inside batch b's block of the flat vectors, blocks are in order, and division and remainder by N-1 recover b and i |
| XcEval.FlatBelow | app/excamera/src/xc_eval.cpp:226-231 | batch blocks start in increasing order, each N-1 positions after the previous one |
| XcEval.FlatOnto | app/excamera/src/xc_eval.cpp:226-231 | every position below BATCH*(N-1) is entry i of some batch b |
| XcEval.FlatInjective | app/excamera/src/xc_eval.cpp:226-231 | two (batch, entry) pairs never share a flat position |
| XcEval.Group | app/excamera/src/xc_eval.cpp:306-312 | batch b's block has N-1 entries, and its entry i is the flat vector's entry at batch b, position i |
| XcEval.Regroup | app/excamera/src/xc_eval.cpp:306-318 | the first nb blocks of a flat vector, one per batch, each equal to that batch's block |
| XcEval.FlattenRegroup | app/excamera/src/xc_eval.cpp:306-318 | cutting a flat vector into blocks and laying them back out gives the vector's first nb blocks unchanged |
| XcEval.FlattenAt | app/excamera/src/xc_eval.cpp:284-291 | laying out blocks of N-1 entries puts entry i of block b at flat position b*(N-1)+i |
| XcEval.FlattenLength | app/excamera/src/xc_eval.cpp:284-291 | blocks of N-1 entries laid out have length (N-1) times their number |
| XcEval.PathExample | app/excamera/src/xc_eval.cpp:75 | batch 3's chunk 7 of "sintel" under "/data" is read from "/data/03/sintel03_07.y4m" |
| XcEval.StemInjective | app/excamera/src/xc_eval.cpp:75 | with the same prefix and name, up to 100 batches, equal batch directories and name stems mean equal batches and equal remainders |
| XcEval.RasterPathInjective | app/excamera/src/xc_eval.cpp:75 | different chunks (below 100 batches and chunks) read different raw input files |
| XcEval.FinalPathInjective | app/excamera/src/xc_eval.cpp:373 | different batches write to different output files |
| XcEval.OutputsAreNotInputs | app/excamera/src/xc_eval.cpp:373-383 | no output file name equals a raw input file name or a container file name |
| XcEval.InputLayout | app/excamera/src/xc_eval.cpp:379-395 | after read_input, vpx0's entry i of batch b is chunk i, vpx1's is chunk i+1, ivf0[b] is chunk 0, and vpx1's entry i equals vpx0's entry i+1 |
| XcEval.BatchExtend | app/excamera/src/xc_eval.cpp:385-392 | loading one more container into the prediction and/or target group keeps the read prefix of the batch accurate |
| XcEval.GroupAppend | app/excamera/src/xc_eval.cpp:380-394 | appending a block of N-1 entries adds a new batch block and leaves every earlier block as it was |
| XcEval.InputExtend | app/excamera/src/xc_eval.cpp:380-394 | appending a fully read batch to nb read batches gives nb+1 read batches |
| XcEval.ReadBatch | app/excamera/src/xc_eval.cpp:381-393 | a batch reads successfully exactly when all N of its containers are readable, and then chunks 0..N-2 are the predictions, 1..N-1 the targets and chunk 0 the first; otherwise the error is that of the batch's first unreadable container |
| XcEval.ReadBatches | app/excamera/src/xc_eval.cpp:379-395 | read_input succeeds exactly when every container of every batch is readable, and then all BATCH batches are laid out in order; otherwise the error is that of the first unreadable container, batch by batch |
| XcEval.Firsts | app/excamera/src/xc_eval.cpp:226-227 | BATCH states, where entry b is the decoded state of batch b's first chunk |
| XcEval.SplitDecoded | app/excamera/src/xc_eval.cpp:226-231 | state0 is every batch's first decoded state, and dec_state is all decoded states in their order |
| XcEval.Batches | app/excamera/src/xc_eval.cpp:236-243 | the work list has one batch number per task, BATCH*(N-1) tasks in total |
| XcEval.Idxs | app/excamera/src/xc_eval.cpp:236-243 | the work list has one chunk index per task, BATCH*(N-1) tasks in total |
| XcEval.WorkOrder | app/excamera/src/xc_eval.cpp:238-243 | the work item at flat position (b, i) is chunk i+1 of batch b, so the list covers chunks 1..N-1 of each batch in batch-major order |
| XcEval.WorkList | app/excamera/src/xc_eval.cpp:236-243 | the nested loops build exactly the work list's batch and chunk sequences |
| XcEval.EncodeRaster | app/excamera/src/xc_eval.cpp:72-94 | the raw input read for a task is the file of its batch and chunk; a missing file is an error, otherwise enc_given_state runs on it |
| XcEval.EncodeSteps | app/excamera/src/xc_eval.cpp:251-270 | task k re-encodes vpx1[k] from dec_state[k] with a fresh prediction decoder, using the raw input of the batch and chunk the work list assigns to k |
| XcEval.EncodeEachOk | app/excamera/src/xc_eval.cpp:251-277 | encode_all succeeds exactly when every task does; then output k is task k's result, and otherwise the error is that of the first failing task |
| XcEval.EncodeTasks | app/excamera/src/xc_eval.cpp:255-270 | popping and running the zipped tasks in order gives the collected results of all tasks, or the first error |
| XcEval.EncGroups | app/excamera/src/xc_eval.cpp:284-291 | enc_state's blocks: BATCH blocks, each with N-1 states |
| XcEval.EncStateLayout | app/excamera/src/xc_eval.cpp:284-291 | enc_state's entry 0 of batch b is state0[b], and its entry i>0 is the state produced by the batch's task before it |
| XcEval.PushBatch | app/excamera/src/xc_eval.cpp:285-290 | batch b adds the containers of all N-1 of its tasks to xc_ivf, and adds state0[b] then the states of its first N-2 tasks to enc_state |
| XcEval.PushEncoded | app/excamera/src/xc_eval.cpp:284-291 | xc_ivf gets every task's container in task order, and enc_state is the batch blocks laid out |
| XcEval.PushStep | app/excamera/src/xc_eval.cpp:284-291 | one batch of the push loop extends xc_ivf by that batch's containers and enc_state by its state0 entry and states, keeping both equal to the laid-out prefix |
| XcEval.EvalEnc | app/excamera/src/xc_eval.cpp:125-184 | xc_eval's enc_given_state: read the chunk's raw rasters, then re-encode; a missing raster file is its error |
| XcEval.RasterIdxAsWritten | app/excamera/src/xc_eval.cpp:347 | the raster index rebase step i passes as written; exhibited in XcEval.RebaseRasterAsWritten (see Findings) |
| XcEval.RasterIdx | app/excamera/src/xc_eval.cpp:347 | the corrected raster index of rebase step i, that of chunk i+1; proved to match the rebased chunk in XcEval.RebaseRasterMatches |
| XcEval.Step | app/excamera/src/xc_eval.cpp:344-350 | one rebase step with the corrected raster index: re-encode the chunk from the previous state, then merge onto the previous container; chained in XcEval.ChainExtend |
| XcEval.ChainExtend | app/excamera/src/xc_eval.cpp:343-351 | one more successful re-encode and merge extends a batch's rebase chain by one step, with the raster index corrected (see Findings) |
| XcEval.BatchChain | app/excamera/src/xc_eval.cpp:337-352 | when all N-1 steps succeed, the result is the end of a full chain from ivf0[b] and state0[b]; otherwise the error is that of the first failing step; the raster index is corrected (see Findings) |
| XcEval.Stitch | app/excamera/src/xc_eval.cpp:304-318 | xc_ivf and dec_state are cut into BATCH consecutive blocks of N-1 entries each |
| XcEval.BatchFrames | app/excamera/src/xc_eval.cpp:343-352 | a batch's final container holds chunk 0's frames followed by those of its rebased chunks in order, and its frame count is their sum |
| XcEval.RebaseEncodesSucceed | app/excamera/src/xc_eval.cpp:343-350 | every rebase re-encode of a task's container succeeds once it reads the raw input that container came from, assuming Bounded(c): every re-encoding has fewer than 2^32 frames, each shorter than 2^32 bytes |
| XcEval.RebaseRasterAsWritten | app/excamera/src/xc_eval.cpp:347 | as written, rebase step i of a batch reads a raw input other than the one its container was encoded from; step 0 reads chunk 0's input, which no encode_all task reads, and no step reads chunk N-1's input |
| XcEval.RebaseRasterMatches | app/excamera/src/xc_eval.cpp:347 | corrected, rebase step i reads the raw input of the batch and chunk that its container was encoded from |
| XcEval.WrittenFiles | app/excamera/src/xc_eval.cpp:370-377 | after write_output, the output file of each batch holds that batch's final container, and every other file is unchanged |
| XcEval.MainArgs | app/excamera/src/xc_eval.cpp:423-427 | the prefix is the last command-line argument and the file name the one before it |
| XcEval.Fill | app/excamera/src/xc_eval.cpp:226-227 | the slot array holds the given sequence |
| XcEval.Eval.constructor | app/excamera/src/xc_eval.cpp:398-404 | every vector starts empty, and the ivf0 and state0 slots start value-initialised |
| XcEval.Eval.ReadInput | app/excamera/src/xc_eval.cpp:379-395 | succeeds exactly when every container is readable; then vpx0, vpx1 and ivf0 hold the laid-out input, and on failure they are unchanged and the error is that of the first unreadable container |
| XcEval.Eval.DecodeAll | app/excamera/src/xc_eval.cpp:204-233 | succeeds exactly when every prediction container decodes; then state0[b] is batch b's first state and dec_state gets all states in order, and otherwise the error is the first failing decode |
| XcEval.Eval.EncodeAll | app/excamera/src/xc_eval.cpp:235-292 | succeeds exactly when every encode task does; then xc_ivf and enc_state get the per-batch pushes, and the input vectors are unchanged |
| XcEval.EncodeStage | app/excamera/src/xc_eval.cpp:235-292 | the tasks over the zipped range succeed exactly when every encode does; then xc_ivf gets every container and enc_state, batch by batch, state0 followed by the states of all but the batch's last task |
| XcEval.Eval.Rebase | app/excamera/src/xc_eval.cpp:294-368 | on success, final_ivf[b] is the end of batch b's rebase chain over its blocks of xc_ivf and dec_state, from ivf0[b] and state0[b]; on failure, the last chain names the failing step and its error; the raster index is corrected (see Findings) |
| XcEval.Eval.WriteOutput | app/excamera/src/xc_eval.cpp:370-377 | the directory afterwards has each batch's final container in its output file |
| XcEval.Eval.ComputeStages | app/excamera/src/xc_eval.cpp:410-414 | decode_all, encode_all and rebase in order: on success the state holds what do_work writes, on failure the error is that of the first failing stage after every earlier one succeeded |
| XcEval.DoWork | app/excamera/src/xc_eval.cpp:397-421 | on success, the written directory is that of the input read, decoded, encoded and rebased in order, and each batch output file holds its final container; on failure the error is that of the first stage that fails (the first unreadable container, decode_all, encode_all or the last rebase chain's failing step), every earlier stage having succeeded; the rebase uses the corrected raster index (see Findings) |
| Slab.Slots | src/utils/slab.cpp:13-19 | the used slots of the head batch, from the highest slot down, which is the order pop hands them out |
| Slab.LinkedHead | src/utils/slab.cpp:13-19 | rewriting the head batch's pointer slots while keeping its link word keeps the chain of batches well linked |
| Slab.LinkedPush | src/utils/slab.cpp:39-42 | a new head batch whose link word points to the old, full head keeps the chain well linked |
| Slab.LinkedPop | src/utils/slab.cpp:20-22 | dropping the head batch leaves a well-linked chain; the head's link word is the next batch (or null), and that next batch is full |
| Slab.ListContentsFrame | src/utils/slab.cpp:10-43 | writing memory outside the chain's batches leaves the list's contents unchanged |
| Slab.ChainInContents | src/utils/slab.cpp:20-22 | every batch of the chain is itself one of the free pointers the list holds |
| Slab.HeadNotInRest | src/utils/slab.cpp:10-43 | when the list holds no pointer twice, the head batch does not occur again later in the chain |
| Slab.PushSlot | src/utils/slab.cpp:33-38 | pushing into the first free slot of the head batch puts the new pointer first in the list and keeps the rest |
| Slab.PushHead | src/utils/slab.cpp:27-42 | pushing onto an empty list or a full head batch makes the pushed block the new, empty head batch, and it is first in the list |
| Slab.PopSlot | src/utils/slab.cpp:13-19 | pop from the highest used slot of the head batch returns the list's first pointer, and clearing that slot leaves the rest |
| Slab.PopHead | src/utils/slab.cpp:20-22 | with every slot of the head batch empty, pop returns the head batch itself and the next batch, full, becomes the head |
| Slab.PushSlotKeeps | src/utils/slab.cpp:33-38 | storing a new pointer in the head batch's first free slot keeps the list well formed, one longer, with the new pointer first |
| Slab.PushBatchKeeps | src/utils/slab.cpp:27-42 | making the pushed block the new head batch, linked to the old head, keeps the list well formed, one longer, with the new pointer first |
| Slab.PopSlotKeeps | src/utils/slab.cpp:13-19 | clearing the highest used slot of the head batch hands out the list's first pointer and keeps the rest well formed |
| Slab.PopHeadKeeps | src/utils/slab.cpp:20-22 | with no slot of the head batch in use, handing out the head batch itself and making its link word the head keeps the rest well formed |
| Slab.FindFreeSlot | src/utils/slab.cpp:33-38 | push's upward scan from slot 1 stops at the first empty slot, the one just above the used ones (kBatchSize when the batch is full) |
| Slab.FindTopSlot | src/utils/slab.cpp:13-19 | pop's downward scan from the top slot stops at the highest used slot, or at 0 when none is used |
| Slab.FreePtrsLinkedList.constructor | inc/nu/utils/slab.hpp:68-69 | a new list is well formed and empty |
| Slab.FreePtrsLinkedList.Size | inc/nu/utils/slab.hpp:59-69 | the size is the number of free pointers in the list |
| Slab.FreePtrsLinkedList.Push | src/utils/slab.cpp:25-43 | after push the list is the pushed pointer followed by the old list (last in, first out) |
| Slab.FreePtrsLinkedList.Pop | src/utils/slab.cpp:10-23 | pop on a non-empty list returns its first pointer and leaves the rest, in order |
| SlabAllocators.SlabSize | inc/nu/utils/slab.hpp:17-94 | a slot of any class is larger than the 16-byte header stored in front of it |
| SlabAllocators.ShiftFromLeast | inc/nu/utils/slab.hpp:93 | the shift found from s upward is the least one, no smaller than s, whose class holds the size |
| SlabAllocators.SlabShift | inc/nu/utils/slab.hpp:93 | get_slab_shift: the class of a request; proved the least class of at least 32 bytes that holds it in SlabAllocators.SlabShiftLeast |
| SlabAllocators.SlabShiftLeast | inc/nu/utils/slab.hpp:30-93 | a request's class is the smallest class of at least 32 bytes that holds it |
| SlabAllocators.Align | src/utils/slab.cpp:246 | yield's 64-bit rounding of the size up to a multiple of 16; proved to round up in SlabAllocators.AlignRoundsUp |
| SlabAllocators.AlignRoundsUp | src/utils/slab.cpp:246 | yield's rounding gives the least multiple of 16 that is at least the size, except that 0 and sizes within 16 of 2^64 wrap to 0 |
| SlabAllocators.MaxCacheEntries | src/utils/slab.cpp:46-70 | get_max_num_cache_entries: the per-core cache bound of a class: 64 down to 1 slot from shift 4 to 12, then 1 slot up to shift 20 only with aggressive caching, else 0; its shape is proved in SlabAllocators.MaxCacheEntriesShape |
| SlabAllocators.MaxCacheEntriesShape | src/utils/slab.cpp:46-70 | the per-core cache bound never grows with the class, holds 1 to 64 slots up to shift 12 (4 KiB), and past that is one slot exactly under aggressive caching up to shift 20 (1 MiB) |
| SlabAllocators.CarvedAt | src/utils/slab.cpp:117-122 | slot i of a carved run lies i slab sizes above the run's base |
| SlabAllocators.CacheSpill | src/utils/slab.cpp:212-215 | on overflow the cache gives up at most the slots it holds |
| SlabAllocators.TransferSpill | src/utils/slab.cpp:230-233 | on overflow the transferred list gives up at most the slots it holds |
| SlabAllocators.FreeToCache | src/utils/slab.cpp:201-217 | freeing to the core's cache leaves cur_, the transferred lists and the headers unchanged |
| SlabAllocators.FreeToTransferred | src/utils/slab.cpp:219-242 | freeing to the owner's transferred list leaves cur_, every cache and the headers unchanged |
| SlabAllocators.DrainTransferred | src/utils/slab.cpp:72-85 | draining leaves this core's transferred list of the class empty and leaves cur_ and the headers unchanged |
| SlabAllocators.RefillBound | src/utils/slab.cpp:105-107 | refill aims at a bound of at least one slot |
| SlabAllocators.CarveCount | src/utils/slab.cpp:113-117 | refill carves no more slots than the bound lacks, and all of them fit between cur_ and end_ |
| SlabAllocators.Refill | src/utils/slab.cpp:103-123 | refilling moves cur_ only forward and never past end_, and leaves the headers and the transferred lists unchanged |
| SlabAllocators.AfterAllocate | src/utils/slab.cpp:87-143 | allocation keeps cur_ between its old value and end_, and every header written before stays recorded |
| SlabAllocators.AfterDoFree | src/utils/slab.cpp:190-199 | __do_free changes neither cur_ nor any header |
| SlabAllocators.AfterFree | src/utils/slab.cpp:145-161 | __free changes neither cur_ nor any header |
| SlabAllocators.AfterYield | src/utils/slab.cpp:244-253 | yield's specification: bump cur_ by the rounded size or fail past end_; characterised in SlabAllocators.YieldWithin and met by SlabAllocators.SlabAllocator.Yield |
| SlabAllocators.AfterReallocate | src/utils/slab.cpp:163-188 | reallocate's specification: the old slot's class must be below 2^35; allocate the new size and, when that succeeds, free the old slot; a failed allocation returns null and frees nothing; met by SlabAllocators.SlabAllocator.Reallocate |
| SlabAllocators.YieldWithin | src/utils/slab.cpp:244-253 | yield fails, changing nothing, exactly when the rounded size would pass end_; otherwise it returns the old cur_ and advances cur_ by the size rounded up to 16; a size that rounds to 0 returns cur_ and reserves nothing |
| SlabAllocators.FreeToCacheShape | src/utils/slab.cpp:201-217 | the freed slot goes on top of the cache; past the bound, the cache is popped down to half the bound and the popped slots go onto the slab list in reverse order |
| SlabAllocators.FreeToCacheKeeps | src/utils/slab.cpp:201-217 | freeing to the cache loses no slot and invents none: the cache and the slab list together gain exactly the freed slot |
| SlabAllocators.FreeToCacheBound | src/utils/slab.cpp:208-216 | below the bound the freed slot only goes on top of the cache; past the bound the cache is left with half the bound |
| SlabAllocators.FreeToCacheTracks | src/utils/slab.cpp:201-217 | freeing to the cache changes only this core's cache and this class's slab list, and global_free_bytes_ grows by one slab size per slot moved to the slab list |
| SlabAllocators.FreeToTransferredShape | src/utils/slab.cpp:219-242 | the freed slot goes onto the owner's transferred list; past the bound, min(transferred, total minus half the bound) slots go from it onto the slab list, in reverse order |
| SlabAllocators.FreeToTransferredKeeps | src/utils/slab.cpp:219-242 | freeing to a transferred list loses no slot and invents none: the transferred list and the slab list together gain exactly the freed slot |
| SlabAllocators.FreeToTransferredBound | src/utils/slab.cpp:230-241 | within the bound the freed slot only joins the transferred list; past it, the transferred list is emptied or the transferred list and cache together are left with exactly half the bound |
| SlabAllocators.FreeToTransferredTracks | src/utils/slab.cpp:219-242 | freeing to a transferred list changes only that list and this class's slab list, and global_free_bytes_ follows the slab list |
| SlabAllocators.DrainKeeps | src/utils/slab.cpp:72-85 | draining loses no slot and invents none: every transferred slot ends up in this core's cache or on the slab list |
| SlabAllocators.DrainTracks | src/utils/slab.cpp:72-85 | draining changes only this core's transferred list and cache and this class's slab list, and global_free_bytes_ follows the slab list |
| SlabAllocators.PopDownTo | src/utils/slab.cpp:212-215 | the overflow loop leaves the list's last `keep` slots, the popped ones go onto the slab list reversed, and the byte count grows by one slab size per slot |
| SlabAllocators.TurnIn | src/utils/slab.cpp:237-240 | the turn-in loop moves the top `num` slots of the transferred list onto the slab list, reversed, and adds their sizes to the byte count |
| SlabAllocators.TakeFromSlab | src/utils/slab.cpp:108-111 | the refill loop moves min(slab list, bound) slots from the slab list into the empty cache, reversed, and takes their sizes off the byte count |
| SlabAllocators.CarveFrom | src/utils/slab.cpp:113-123 | the bump step advances cur_ by the carved count times the slab size and puts the carved run, lowest address first, on top of the cache |
| SlabAllocators.Carve | src/utils/slab.cpp:117-122 | pushing top minus size, top minus twice the size, and so on for n slots leaves the run starting at top minus n sizes on top of the cache, lowest address first |
| SlabAllocators.SlabAllocator.constructor | inc/nu/utils/slab.hpp:36-37 | a new allocator covers the given buffer, with cur_ at its start and every list empty |
| SlabAllocators.SlabAllocator.Yield | src/utils/slab.cpp:244-253 | yield's new state and result are those of the yield specification |
| SlabAllocators.SlabAllocator.FreeToCacheList | src/utils/slab.cpp:201-217 | the new state is that of the free-to-cache specification |
| SlabAllocators.SlabAllocator.FreeToTransferredCacheList | src/utils/slab.cpp:219-242 | the new state is that of the free-to-transferred specification, for the core named in the slot's header |
| SlabAllocators.SlabAllocator.DrainTransferredCache | src/utils/slab.cpp:72-85 | the new state is that of the drain specification |
| SlabAllocators.SlabAllocator.RefillCache | src/utils/slab.cpp:102-123 | the new state is that of the refill specification |
| SlabAllocators.SlabAllocator.Allocate | src/utils/slab.cpp:87-143 | the new state and the returned pointer are those of the allocation specification |
| SlabAllocators.SlabAllocator.DoFree | src/utils/slab.cpp:190-199 | the new state is that of the __do_free specification |
| SlabAllocators.SlabAllocator.Free | src/utils/slab.cpp:145-161 | the new state is that of the __free specification |
| SlabAllocators.SlabAllocator.Reallocate | src/utils/slab.cpp:163-188 | the new state and result are those of the reallocate specification: allocate the new size, and free the old slot only when that succeeded |
| SlabAllocators.AllocateBump | src/utils/slab.cpp:87-143 | while one core bump-allocates one class, an allocation returns the slot at the run's base, past its header, exactly when a whole slot still fits, and the run then starts one slot higher; otherwise it fails and cur_ stays |
| SlabAllocators.BumpFromCache | src/utils/slab.cpp:97-100 | with the cache holding the run, the pop returns its lowest slot |
| SlabAllocators.BumpFromRefill | src/utils/slab.cpp:102-127 | with the cache empty, the refill carves up to the bound from cur_, or nothing when no whole slot fits, and the pop then returns the lowest new slot |
| SlabAllocators.AllocateRepeat | test/test_slab.cpp:35-40 | repeated allocations keep cur_ within the buffer |
| SlabAllocators.FreshRun | test/test_slab.cpp:35-40 | after i allocations from a fresh allocator that all fit, the carved run starts i slots into the buffer |
| SlabAllocators.AllocateSequence | test/test_slab.cpp:35-43 | on a fresh allocator, allocation i returns the address i slots into the buffer, past the header, while that slot fits, and null once it does not |
| SlabAllocators.FreeThenAllocate | test/test_slab.cpp:45-47 | a slot freed on the core that allocated it comes back from that core's next allocation of its class, when no transferred slot waits and the cache was empty or below its bound |
| SlabAllocators.FreeSpillsAll | src/utils/slab.cpp:201-216 | a free that leaves the core cache empty spilled every slot, which happens only when the refill bound is 1, and the freed slot is then on top of the slab list |
| SlabAllocators.PopsCacheTop | src/utils/slab.cpp:96-100 | with no transferred slot waiting and a non-empty core cache, allocate returns the top cache slot past its header |
| SlabAllocators.RefillPopsSlabTop | src/utils/slab.cpp:102-129 | with an empty core cache, a refill bound of 1 and a non-empty slab list, allocate returns the top slab slot past its header |
| SlabAllocators.RefillShape | src/utils/slab.cpp:108-111 | refilling an empty cache takes k = min(slab list, bound) slots off the slab list; they lie under the carved ones in reverse order, their bytes come off global_free_bytes_, and the cache holds at most the bound |
| SlabAllocators.RefillCarves | src/utils/slab.cpp:113-123 | refill carves n = min(bound - k, whole slots left) slots upward from cur_, on top of the cache, and moves cur_ past them; the cache stays below the bound only when the slab list ran dry and no whole slot is left |
| SlabAllocators.CarvedCache | src/utils/slab.cpp:113-123 | the carved slots number min(bound - k, whole slots left), sit on top of the slots taken from the slab list, and leave the cache below the bound only when both ran out |
| SlabAllocators.CarveCountIs | src/utils/slab.cpp:113-116 | the carved count is min(what the bound lacks, (end_ - cur_) / slab size), and it falls short of the lack only when no further whole slot fits |
| Controllers.BsrBounds | src/ctrl.cpp:26-27 | the highest set bit of a positive value is bit k exactly when 2^k <= value < 2^(k+1) |
| Controllers.BucketId | src/ctrl.cpp:25-30 | get_proclet_segment_bucket_id: the bucket of a capacity of at least 2^25 bytes is its highest set bit less 25; its bounds are proved in Controllers.BucketIdBounds |
| Controllers.Initial | src/ctrl.cpp:34-58 | the state the constructor builds; its shape is proved in Controllers.InitialShape |
| Controllers.RegisterWith | src/ctrl.cpp:65-126 | register_node's outcome, with a switch between the lpid refund as written and as corrected; the as-written case is exhibited in Controllers.RegisterAsWrittenFreesUsedLpid |
| Controllers.AfterRegister | src/ctrl.cpp:65-126 | register_node's specification with the corrected refund (see Findings); proved to keep Valid in Controllers.RegisterKeepsValid and characterised in Controllers.RegisterSmallestFree and Controllers.RegisterGivenLpid |
| Controllers.AfterAllocateProclet | src/ctrl.cpp:173-205 | allocate_proclet's specification: refill the capacity's bucket when empty, pop its top segment and record the proclet on the chosen node; proved in Controllers.AllocateResolves and Controllers.AllocateTakesTop |
| Controllers.AfterDestroyProclet | src/ctrl.cpp:207-221 | destroy_proclet's specification: a known proclet's segment goes back on top of its bucket and the proclet is forgotten; proved in Controllers.DestroyForgets and Controllers.DestroyKeepsValid |
| Controllers.Resolve | src/ctrl.cpp:223-228 | resolve_proclet's specification: the proclet's node, or 0 for an unknown id; used by Controllers.AllocateResolves, Controllers.DestroyForgets and Controllers.UpdateLocationResolves |
| Controllers.AfterUpdateLocation | src/ctrl.cpp:336-342 | update_location's specification: the proclet's node becomes the new one; proved in Controllers.UpdateLocationResolves |
| Controllers.AfterAcquire | src/ctrl.cpp:313-323 | acquire_node's specification: a known node that is not acquired becomes acquired; proved in Controllers.AcquireRelease and Controllers.AcquireKeepsValid |
| Controllers.AfterRelease | src/ctrl.cpp:325-334 | release_node's specification: the node is no longer acquired; proved in Controllers.AcquireRelease and Controllers.ReleaseKeepsValid |
| Controllers.BucketIdBounds | src/ctrl.cpp:25-30 | bucket b holds exactly the capacities in [2^(25+b), 2^(26+b)); a capacity below 2^25 is not allowed |
| Controllers.IndexOf | inc/nu/ctrl.hpp:49 | a find in the node map returns a position holding the key, or reports that no entry has that key |
| Controllers.Position | src/ctrl.cpp:123 | a new key is inserted after every smaller key and before every key at least as large |
| Controllers.AddNodeOk | src/ctrl.cpp:123 | inserting a new node keeps the node map in key order with rr_iter inside it, adds exactly one entry, and makes the node findable |
| Controllers.LpidsBelow | src/ctrl.cpp:35-37 | the set holds exactly the lpids from 1 up to the bound, excluding the bound |
| Controllers.HeapSlotsShape | src/ctrl.cpp:39-47 | the constructor pushes (end - start) / 2^36 max segments, each 2^36 bytes long, with host 0, inside the heap range |
| Controllers.StackSlotsShape | src/ctrl.cpp:49-55 | the constructor pushes (end - start) / 2^31 stack clusters, each 2^31 bytes long, inside the stack range |
| Controllers.InitialShape | src/ctrl.cpp:34-58 | a new controller has lpids 1..65534 free, 256 max segments in the highest bucket, 16384 stack clusters, and is Valid |
| Controllers.ChooseLpid | src/ctrl.cpp:69-96 | a chosen lpid is never 0, is no longer free, has this md5 recorded, and came from the free set when flagged so; only the free set and the md5 map change |
| Controllers.FirstActive | src/ctrl.cpp:249-254 | the first non-isolated node from a position on, or none when every node from there on is isolated |
| Controllers.RoundRobin | src/ctrl.cpp:248-256 | the round robin picks a node that is not isolated |
| Controllers.RoundRobinSkips | src/ctrl.cpp:248-256 | the picked node is not isolated, and every node passed over on the way, cyclically from rr_iter, is isolated |
| Controllers.FirstActiveIs | src/ctrl.cpp:249-254 | the first non-isolated node from a position on is the one with only isolated nodes between the position and it |
| Controllers.SelectNode | src/ctrl.cpp:230-257 | node selection leaves the node map unchanged and keeps rr_iter inside it |
| Controllers.SelectNodeChoice | src/ctrl.cpp:235-256 | with a hint, the result is the hint exactly when the hint is registered, and 0 otherwise; else the segment's previous host if it has one; else a registered node that is not isolated |
| Controllers.Pieces | src/ctrl.cpp:187-191 | the pieces cut from a max segment are all non-empty ranges |
| Controllers.PiecesShape | src/ctrl.cpp:187-191 | piece i from the bottom covers [start + i*capacity, start + (i+1)*capacity) and keeps the max segment's previous host; the highest one is on top |
| Controllers.PiecesCount | src/ctrl.cpp:187-191 | the pieces are just enough to cover the max segment: n pieces reach its end and n-1 do not |
| Controllers.RefillBucket | src/ctrl.cpp:179-192 | refilling keeps the controller Valid and changes only the buckets; it succeeds exactly when the bucket ends up non-empty |
| Controllers.RegisterKeepsValid | src/ctrl.cpp:65-126 | register_node keeps the controller Valid |
| Controllers.JoinKeepsValid | src/ctrl.cpp:103-124 | handing out the top stack cluster and adding a new node to an LP whose lpid is not free keeps the controller Valid |
| Controllers.RegisterSmallestFree | src/ctrl.cpp:88-125 | with lpid 0, register_node succeeds exactly when an lpid is free and a stack cluster is left; it then returns the smallest free lpid and the top cluster, removes both, records the md5 and adds the node to the LP |
| Controllers.RegisterGivenLpid | src/ctrl.cpp:69-125 | a free explicit lpid is claimed with this md5; a used one succeeds only when the recorded md5 (or the default) matches, and the free set stays as it was |
| Controllers.RegisterFailsCleanly | src/ctrl.cpp:72-101 | a failed register_node leaves the free lpids, the stack clusters and the LPs as they were |
| Controllers.RegisterAsWrittenFreesUsedLpid | src/ctrl.cpp:98-101 | as written, registering a second node with LP 7, which already has a node, while no stack cluster is left puts 7 into the free set and breaks Valid |
| Controllers.AllocateResolves | src/ctrl.cpp:173-205 | allocate_proclet keeps the controller Valid; a placed proclet has a non-zero node and resolves to it; with both the bucket and the highest bucket empty it fails and changes nothing |
| Controllers.AllocateTakesTop | src/ctrl.cpp:194-197 | allocate_proclet pops the top segment of the capacity's bucket, and the proclet id it returns is that segment's start |
| Controllers.DestroyForgets | src/ctrl.cpp:207-228 | after destroy_proclet the proclet resolves to 0; a known proclet's segment goes on top of its bucket with its last host; an unknown id changes nothing |
| Controllers.DestroyKeepsValid | src/ctrl.cpp:207-221 | destroy_proclet keeps the controller Valid |
| Controllers.UpdateLocationResolves | src/ctrl.cpp:336-342 | after update_location the proclet resolves to its new node, every other id resolves as before, the set of known proclets is unchanged, and Valid is kept |
| Controllers.AcquireRelease | src/ctrl.cpp:313-334 | acquire_node succeeds exactly on a known node that is not acquired and otherwise changes nothing; release_node afterwards restores the state |
| Controllers.IndexOfUnique | src/ctrl.cpp:313-334 | changing the status of entries leaves where find locates a key unchanged |
| Controllers.AcquireKeepsValid | src/ctrl.cpp:313-323 | acquire_node keeps the controller Valid |
| Controllers.ReleaseKeepsValid | src/ctrl.cpp:325-334 | release_node keeps the controller Valid |
| Controllers.FreeLpids | src/ctrl.cpp:35-37 | the constructor's first loop frees exactly the lpids 1..65534 |
| Controllers.HeapSegments | src/ctrl.cpp:39-47 | the constructor's second loop pushes the max segments in address order, so the highest is on top |
| Controllers.StackClusters | src/ctrl.cpp:49-55 | the constructor's third loop pushes the stack clusters in address order, so the highest is on top |
| Controllers.PushPieces | src/ctrl.cpp:187-191 | the split loop pushes exactly the pieces of the max segment onto the bucket |
| Controllers.RoundRobinLoop | src/ctrl.cpp:248-254 | the do-while returns the round robin's node and leaves rr_iter just past it |
| Controllers.Controller.constructor | src/ctrl.cpp:34-58 | the new controller's state is the initial one: lpids 1..65534 free, the highest bucket full, the stack clusters pushed, and no maps filled |
| Controllers.Controller.RegisterNode | src/ctrl.cpp:65-126 | the new state and result are those of register_node's specification, with the lpid refund corrected |
| Controllers.Controller.SelectNodeForProclet | src/ctrl.cpp:230-257 | the chosen node is node selection's, and only the LP's rr_iter changes |
| Controllers.Controller.AllocateProclet | src/ctrl.cpp:173-205 | the new state and result are those of allocate_proclet's specification |
| Controllers.Controller.DestroyProclet | src/ctrl.cpp:207-221 | the new state is that of destroy_proclet's specification |
| Controllers.Controller.ResolveProclet | src/ctrl.cpp:223-228 | the result is the proclet's node, or 0 when the id is unknown |
| Controllers.Controller.UpdateLocation | src/ctrl.cpp:336-342 | the new state is that of update_location's specification |
| Controllers.Controller.AcquireNode | src/ctrl.cpp:313-323 | the new state and result are those of acquire_node's specification |
| Controllers.Controller.ReleaseNode | src/ctrl.cpp:325-334 | the new state is that of release_node's specification |
| Net.Sum | caladan/bindings/cc/net.cc:9-15 | SumIOV: the total length of the vector entries; related to Net.Pull in Net.PullSum |
| Net.Pull | caladan/bindings/cc/net.cc:17-30 | PullIOV: the entries left once n bytes have moved, the first of them shortened; proved to leave the total minus n in Net.PullSum |
| Net.Outcome | caladan/bindings/cc/net.cc:35-87 | the value a full transfer returns for a trace of the connection's answers; characterised in Net.OutcomeIs and met by Net.TransferFull |
| Net.PullSum | caladan/bindings/cc/net.cc:17-30 | pulling n bytes leaves exactly the total minus n; the rest is empty exactly when n is the whole total, and otherwise starts with a non-empty entry |
| Net.PullSuffix | caladan/bindings/cc/net.cc:17-25 | what is left is a suffix of the original array, except that its first entry starts later and still ends where the original entry ended |
| Net.SumIOV | caladan/bindings/cc/net.cc:9-15 | the result is the sum of every entry's length |
| Net.PullIOV | caladan/bindings/cc/net.cc:17-29 | entries used up in full are skipped and the first one used only in part is trimmed in place; the span returned is exactly the remainder, empty when n equals the total, and entries before it are untouched |
| Net.OutcomeIs | caladan/bindings/cc/net.cc:35-87 | a full transfer either moves every byte and returns their number, or returns one of the connection's own non-positive results, which for writes is negative |
| Net.TransferStep | caladan/bindings/cc/net.cc:35-87 | a call that moves all that is left ends the transfer with the running total; otherwise the rest of the answers describe the transfer of what is left, and a non-positive next answer is the result |
| Net.TransferFull | caladan/bindings/cc/net.cc:35-87 | the shared retry loop returns the value the transfer specification gives for the connection's answers |
| Net.WritevFullRaw | caladan/bindings/cc/net.cc:35-61 | the result is the total byte count once everything was sent, or else the negative error of a failed write |
| Net.ReadvFullRaw | caladan/bindings/cc/net.cc:63-87 | the result is the total byte count once everything was received, or else the first read result that is zero or negative |
| MapReduces.Flatten | app/phoenix++-1.0/nu/include/map_reduce.h:362-378 | the lists of a run joined in order; its algebra is proved in MapReduces.FlattenConcat and MapReduces.FlattenPrefix |
| MapReduces.FlattenConcat | app/phoenix++-1.0/nu/include/map_reduce.h:362-378 | joining two runs of lists in order is joining each and concatenating the results |
| MapReduces.FlattenAppend | app/phoenix++-1.0/nu/include/map_reduce.h:365-368 | joining one more list appends it to what was joined before |
| MapReduces.FlattenPrefix | app/phoenix++-1.0/nu/include/map_reduce.h:362-378 | joining the first t lists gives a prefix of joining all of them, and the rest is the remaining lists joined |
| MapReduces.WithKeyConcat | app/phoenix++-1.0/nu/include/map_reduce.h:525-527 | the keyvals of a key in a concatenation are those of the first part, then those of the second |
| MapReduces.WithKeyBelow | app/phoenix++-1.0/nu/include/map_reduce.h:460 | a list sorted by key holds no keyval with a key below its first one |
| MapReduces.Insert | app/phoenix++-1.0/nu/include/map_reduce.h:527 | inserting one keyval into a list adds exactly one element |
| MapReduces.StableSort | app/phoenix++-1.0/nu/include/map_reduce.h:527 | the stable sort keeps the list's length |
| MapReduces.InsertProps | app/phoenix++-1.0/nu/include/map_reduce.h:527 | inserting into a sorted list keeps it sorted, adds exactly that keyval, and puts it ahead of the keyvals that already had its key |
| MapReduces.InsertSorted | app/phoenix++-1.0/nu/include/map_reduce.h:527 | inserting into a sorted list keeps it sorted and heads it by the new keyval or the old head |
| MapReduces.InsertMultiset | app/phoenix++-1.0/nu/include/map_reduce.h:527 | inserting adds exactly the new keyval to the list's contents |
| MapReduces.InsertWithKey | app/phoenix++-1.0/nu/include/map_reduce.h:527 | the new keyval goes ahead of every keyval that already had its key, and other keys keep their keyvals |
| MapReduces.StableSortProps | app/phoenix++-1.0/nu/include/map_reduce.h:523-527 | merge_fn with length 0 sorts its list by key, keeps the same keyvals, and keeps the keyvals of each key in their original order |
| MapReduces.Merge | app/phoenix++-1.0/nu/include/map_reduce.h:533-535 | the merged list's size is the sum of the inputs' sizes |
| MapReduces.SortedTail | app/phoenix++-1.0/nu/include/map_reduce.h:460 | the tail of a sorted list is sorted |
| MapReduces.SortedCons | app/phoenix++-1.0/nu/include/map_reduce.h:460 | a keyval whose key is no greater than a sorted list's head can go in front, and the list stays sorted |
| MapReduces.MergeSorted | app/phoenix++-1.0/nu/include/map_reduce.h:531-535 | merging two sorted lists gives a sorted list holding exactly the keyvals of both, headed by the head of one of them |
| MapReduces.MergeSortedB | app/phoenix++-1.0/nu/include/map_reduce.h:534-535 | when the second list's head has the smaller key, the merge starts with it and the rest is the merge that remains |
| MapReduces.MergeSortedA | app/phoenix++-1.0/nu/include/map_reduce.h:534-535 | otherwise, the merge starts with the first list's head and the rest is the merge that remains |
| MapReduces.MergeWithKey | app/phoenix++-1.0/nu/include/map_reduce.h:534-535 | merging two sorted lists keeps, for each key, the first list's keyvals ahead of the second's |
| MapReduces.MergeWithKeyA | app/phoenix++-1.0/nu/include/map_reduce.h:534-535 | when the first list's head is taken, each key still has the first list's keyvals ahead of the second's |
| MapReduces.MergeWithKeyB | app/phoenix++-1.0/nu/include/map_reduce.h:534-535 | when the second list's head is taken (its key is smaller), each key still has the first list's keyvals ahead of the second's |
| MapReduces.MergeRound | app/phoenix++-1.0/nu/include/map_reduce.h:489-507 | one round of the parallel merge, pairing lists 2i and 2i+1; characterised in MapReduces.MergeRoundAt and MapReduces.MergeRoundKeeps |
| MapReduces.MergeRoundAt | app/phoenix++-1.0/nu/include/map_reduce.h:489-507 | a round leaves ceil(q/2) lists; list i is the merge of lists 2i and 2i+1, or list 2i moved over alone when it is the last |
| MapReduces.PairedShift | app/phoenix++-1.0/nu/include/map_reduce.h:501-507 | after the first pair, pair i of a round is pair i - 1 of the round on the lists that remain |
| MapReduces.MergeRoundKeeps | app/phoenix++-1.0/nu/include/map_reduce.h:489-516 | a round over sorted lists gives sorted lists that hold exactly the same keyvals |
| MapReduces.MergeRoundSplit | app/phoenix++-1.0/nu/include/map_reduce.h:501-507 | the first task of a round merges lists 0 and 1, and the rest of the round acts on the lists after them |
| MapReduces.MergeRoundWithKey | app/phoenix++-1.0/nu/include/map_reduce.h:489-516 | a round over sorted lists keeps each key's keyvals in the order the lists held them |
| MapReduces.Rounds | app/phoenix++-1.0/nu/include/map_reduce.h:489-518 | merge rounds repeated until one list is left; proved sorted and complete in MapReduces.RoundsKeep and stable in MapReduces.RoundsWithKey |
| MapReduces.RoundsKeep | app/phoenix++-1.0/nu/include/map_reduce.h:489-518 | merging round by round until one list is left gives one sorted list of all the keyvals |
| MapReduces.FlattenOne | app/phoenix++-1.0/nu/include/map_reduce.h:518 | joining a single list gives that list |
| MapReduces.RoundsWithKey | app/phoenix++-1.0/nu/include/map_reduce.h:489-518 | the rounds keep each key's keyvals in the order the lists held them |
| MapReduces.SortEach | app/phoenix++-1.0/nu/include/map_reduce.h:476-484 | every partition is replaced by its stable sort, and the number of partitions is kept |
| MapReduces.SortEachKeeps | app/phoenix++-1.0/nu/include/map_reduce.h:476-484 | after the per-partition sorts every partition is sorted, the keyvals are the same, and each key's keyvals keep their order across the partitions |
| MapReduces.SortMerge | app/phoenix++-1.0/nu/include/map_reduce.h:470-519 | MapReduceSort's merge: sort each list, then merge in rounds; proved a stable sort of the joined lists in MapReduces.SortMergeIsStableSort |
| MapReduces.SortMergeIsStableSort | app/phoenix++-1.0/nu/include/map_reduce.h:470-519 | MapReduceSort's merge output is sorted, holds every reduced keyval, and lists each key's keyvals as the stable sort of the partitions joined in order does |
| MapReduces.Pairs | app/phoenix++-1.0/nu/include/map_reduce.h:95-102 | the default reduce emits one keyval per value, pairing the key with each value in order |
| MapReduces.ChunkCount | app/phoenix++-1.0/nu/include/map_reduce.h:229-231 | the chunks, all full but the last, are just enough: ceil(count / chunk_size) of them |
| MapReduces.MapReduce.constructor | app/phoenix++-1.0/nu/include/map_reduce.h:86-105 | a new run starts with no partitions |
| MapReduces.MapReduce.RunMap | app/phoenix++-1.0/nu/include/map_reduce.h:229-236 | the chunks are consecutive, non-empty and at most chunk_size long, all but the last exactly chunk_size, and together they are the input in order |
| MapReduces.MapReduce.CopyChunk | app/phoenix++-1.0/nu/include/map_reduce.h:233-236 | the chunk holds the input elements from begin up to end, in order |
| MapReduces.MapReduce.Reduce | app/phoenix++-1.0/nu/include/map_reduce.h:95-102 | the output gets one keyval per value of the key, appended in order |
| MapReduces.MapReduce.RunMerge | app/phoenix++-1.0/nu/include/map_reduce.h:361-386 | the partitions end up as one list: all of them concatenated in order |
| MapReduces.MapReduce.PrefixSums | app/phoenix++-1.0/nu/include/map_reduce.h:362-368 | indices[t] is the number of keyvals in the partitions before partition t |
| MapReduces.MapReduce.CopyPartition | app/phoenix++-1.0/nu/include/map_reduce.h:374-379 | a partition is copied to the output from its offset on, and the output before that offset is unchanged |
| MapReduces.MapReduceSort.constructor | app/phoenix++-1.0/nu/include/map_reduce.h:86-105 | a new sorting run starts with no partitions |
| MapReduces.MapReduceSort.MergeFn | app/phoenix++-1.0/nu/include/map_reduce.h:521-540 | length 0 stable-sorts the list, length 1 moves it over unchanged, length 2 merges the two lists; only the output slot changes |
| MapReduces.MapReduceSort.RunMerge | app/phoenix++-1.0/nu/include/map_reduce.h:470-519 | the partitions end up as one list: each partition sorted, then merged round by round |
| MapReduces.MapReduceSort.SortQueues | app/phoenix++-1.0/nu/include/map_reduce.h:476-485 | every partition is replaced by its stable sort |
| MapReduces.MapReduceSort.MergeRoundTasks | app/phoenix++-1.0/nu/include/map_reduce.h:490-515 | after a round the partitions are the round's merged lists |

## Left out

- The VP8 decoder, encoder, `reencode` and the YUV4MPEG reader are not part of this model: they are a `Codec` datatype of function values, passed to every stage as a parameter. The YUV4MPEG reader never fails in the model.
- Excamera.DecodeOutcome, Excamera.PredictionFrames, Excamera.EncGivenStateErrors: the decoder, the frame parser and the state deserialiser never throw in the model. In the source `UncompressedChunk`, `parse_frame` and `decode_frame` (`app/excamera/src/xc_mem.cpp:66-74` and `:119-128`) and `EncoderStateDeserializer_MEM::build` (`:103`, `:134`) can also throw, so the failure cases these members list are only those of the modelled code.
- Excamera.EncGivenStateOutput, Excamera.EncGivenStateChains, Excamera.ChainsFromAnyInput, XcStages.EncChunkChains, XcMem.SecondPassSucceeds, XcMem.RebaseEncodesSucceed, XcQs.RebaseEncodesSucceed, XcQs.RebaseFailsInMerge, XcEval.RebaseEncodesSucceed: the chaining lemmas assume `Bounded(c)`: every re-encoding has fewer than 2^32 frames, each shorter than 2^32 bytes, so IVFWriter's uint32 frame count and frame lengths never wrap. A codec that breaks this is not covered.
- File I/O becomes a directory: a map from file names (or paths) to byte strings. Timing (`microtime`, the logging to `cout`) is left out.
- The in-memory `IVF_MEM(filename)` constructor does no bounds checks. The model rejects a short buffer the way the file-based reader in `app/excamera/alfalfa/src/util/ivf.cc` (lines 44-84) does, with "IVF file truncated". Likewise Ivf.Frame returns `Err(OutOfRange)` for an index entry that runs past the buffer, where `IVF_MEM::frame` (`app/excamera/alfalfa/src/util/ivf.cc:209-213`) does no check; for a parsed container that case cannot arise (Ivf.RoundTripFramesReadable).
- The IVF writer classes (`IVFWriter`, `IVFWriter_MEM`) are not part of this model. Their use is modelled as the container value they produce.
- Threads, the distributed executor and sharded vectors become sequential loops that run the tasks in index order. The tasks are independent, so a successful run gives the same result.
- `encode_all` in `xc_qs.cpp` and `xc_eval.cpp` calls `enc_given_state` twice on the same inputs. It is modelled as one call, since the codec is deterministic.
- `fs::copy` with `update_existing` is modelled as a copy that always overwrites. Output files are written only when the whole stage succeeds; the writer creates its file earlier, and that file is not modelled.
- XcQs.Qs.Rebase: requires that `final` and `rebasedState` are empty, which is the state `do_work` leaves them in before rebase.
- N = 16 chunks per video and BATCH = 48 videos are fixed constants, as in the source. The cereal serialisation of states is left out: a state is passed as a value.
- BufferReaders.BufferReader.Read: BUFFER_SIZE is a parameter below 2^31 rather than the fixed constant, and `read_count` is an unbounded counter, so its width is not modelled.
- `slab.ipp` is not part of this model, so the bodies of `get_slab_shift` and `get_slab_size` are reconstructed: only their declarations (`inc/nu/utils/slab.hpp:93-94`) and the constants are available. SlabShift is the least shift of at least kMinSlabClassShift = 5 whose class 2^shift holds the request, and SlabSize is 2^shift plus the 16-byte header. By that reading shift 5 is 32 B (the comment at `slab.hpp:30`), shift 12 is 4 KiB and shift 20 is 1 MiB. The case comments in `src/utils/slab.cpp:49-68` (`4 → 32 B` up to `12 → 8192 B`, `20 → 2 MiB`) count one shift higher and so disagree with `slab.hpp:30`. The model follows `slab.hpp`; the cache bounds themselves are keyed by shift and do not depend on which reading is right.
- Slab.FreePtrsLinkedList.Push: requires `ptr != NULL` and `ptr !in Contents()`, so a double free (pushing a pointer that is already free) is excluded. `push` in `src/utils/slab.cpp:25-43` checks neither. A double free there leaves the pointer in the list twice, and pushing a pointer that is itself a batch overwrites that batch's slots; neither is modelled.
- SlabAllocators.SlabAllocator.Allocate: the `global_free_bytes_` counter is unbounded, so its unsigned wrap-around is not modelled. The CPU id is a parameter, and the per-core locks and preemption guards are left out.
- SlabAllocators.SlabAllocator.Reallocate: the `memcpy` of the old contents is left out. The model states only the slot chosen and the allocator state.
- The global `slabs_` registry of allocators is left out. The debug asserts in `__free` become preconditions.
- `destroy_lp`, `acquire_migration_dest` and `report_free_resource` in `src/ctrl.cpp` are left out. They wait on condition variables, send RPCs or compute on floating-point resource figures.
- The RPC calls `register_node` makes to other nodes (ctrl.cpp:106-121) are left out, and so is the floating-point `free_resource` of a node's status.
- `md5.hpp` and `ctrl.ipp` are not part of this model. A digest is 16 bytes, and the default digest is 16 zero bytes.
- Controllers.Controller.SelectNodeForProclet: the round-robin loop in `select_node_for_proclet` (ctrl.cpp:248-254) never ends when every node is isolated. The model requires that some node is not isolated (`SelectOk`). The `BUG_ON` checks become preconditions.
- The array `free_proclet_heap_segments_` of size buckets is modelled as a sequence of NUM_BUCKETS stacks, one per bucket.
- Controllers.Controller.AllocateProclet: requires `BucketId(capacity) < NUM_BUCKETS`, so capacities of 2^37 bytes or more are excluded. In the source such a capacity indexes past the end of `free_proclet_heap_segments_`, which is undefined behaviour. The same precondition is on DestroyProclet, AfterAllocateProclet, AfterDestroyProclet and the lemmas about them.
- Controllers.AfterAllocateProclet: when no node is chosen, the popped address segment is not returned to the free stack. The model keeps this as the source does.
- Net.WritevFullRaw: the connection's `writev` and `readv` become a trace of their results, `results`. The `size_t` wrap-around in `SumIOV` is not modelled.
- Net.WritevFullRaw: the `assert(n > 0)` after each write (`caladan/bindings/cc/net.cc:39` and `:55`) becomes a condition on the trace (`Trace` allows no write result of 0), so the abort it raises in a debug build is not modelled.
- Net.PullIOV: the closing `assert(n == 0)` (`caladan/bindings/cc/net.cc:27`) becomes the precondition `n <= Sum(v[lo..])`, so the abort when more bytes are pulled than the span holds is not modelled.
- The map-reduce worker dispatch and futures, `map_chunk`, the shuffle, the hash-table containers, associative combiners, `run()` and `split`, and the BSP variant are left out. Threads become sequential loops.
- MapReduces.MapReduce.RunMap: the `uint32_t` truncation of chunk indices is not modelled. Keys are integers ordered by `<`. A `chunk_size` of 0, which makes the source loop forever, is excluded by a precondition.
- MapReduces.MapReduceSort.MergeFn: the assert that a merge is given at most two queues becomes a precondition.
- MapReduces.MapReduceSort.MergeFn: with length 0 the source sorts `*vals` in place (`map_reduce.h:525-527`). The model writes the sorted list to `finalVals[outIndex]`, which is the list that `run_merge` passes in that case (MapReduces.MapReduceSort.RunMerge calls it on `finalVals[i..]` with out index i), so the in-place sort and any aliasing of `vals` are not modelled.
- MapReduces.MapReduce.PrefixSums: the `uint32_t` entries of `indices` (`map_reduce.h:362-367`) are unbounded naturals, so their wrap-around once the partitions hold 2^32 keyvals or more is not modelled; MapReduces.MapReduce.RunMerge inherits this.
- MapReduces.MapReduceSort.RunMerge: requires at least one queue, which matches the closing `assert(merge_queues == 1)`. `std::stable_sort` and `std::merge` are modelled by a stable insertion sort and a recursive stable merge. The `ceil` of a division, computed through `double` in the source, is taken as exact.

## Findings

| source | as written | input that shows it | evidently intended | confidence | as-written member | corrected member |
|---|---|---|---|---|---|---|
| app/excamera/alfalfa/src/util/ivf.cc:203-207 | `set_expected_decoder_minihash` writes `frame_count` into header bytes 28-31 instead of the minihash | an empty VP80 container given minihash 7 is read back with minihash 0 | bytes 28-31 hold the minihash passed in | not executed | Ivf.SetMinihashAsWrittenExample | Ivf.SetMinihashRoundTrips |
| app/excamera/src/xc_eval.cpp:347 | rebase step `i` passes `idx` `i` to `read_raster`, but the container it rebases was encoded from chunk `i+1` | any batch: step 0 reads raster 0 of the batch while the container it rebases was encoded from chunk 1 | the raster of chunk `i+1`, the chunk being rebased | not executed | XcEval.RebaseRasterAsWritten | XcEval.RebaseRasterMatches |
| src/ctrl.cpp:98-101 | when no stack cluster is left, `free_lpids_.insert(lpid)` runs even for an lpid already in use | lpid 7 used by node 1, no stack clusters and no free lpids; registering node 2 with lpid 7 and the same md5 leaves 7 marked free while in use | an lpid already in use is not added to the free set | not executed | Controllers.RegisterAsWrittenFreesUsedLpid | Controllers.RegisterKeepsValid |
