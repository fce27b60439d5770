# Acquisition path of the AqMD3 console, verified

A Dafny model of how the console turns what the digitizer card streams into published and stored
spectra, and proofs that each stage keeps what the next one relies on. Run
`dafny verify dfyconfig.toml` in this directory.

The stages, in the order data passes through them:

- **Two streams.** `AcquisitionBuffer` is the cursor algebra over a word buffer and a driver that
  may return any multiple of 16 words, up to 15 words into the space it is given, or an error.
  `MarkerStream` says what a marker stream means, as a one-pass parse into triggers and gates, and
  `MarkerSpelling` is the printer that parse inverts, octet by octet.
  `CstZs1Context` is the zero-suppress reader (walk, carry-over, request sizing, samples fetch,
  replay guard) and `CstContext` the plain one. Whatever the driver's chunking, a call that
  succeeds returns the parse of the stretch it walked.
- **The frame loop.** `AcquirePublisher` acquires a frame in segments and publishes records. Over
  a frame the records are the parse of one stretch of the stream and tile the scan numbers; over
  any number of frames no samples are read against replayed markers.
- **Gates to spectra and back.** `GateSamples` is the index arithmetic of a gate and the packing of
  samples,
  `UimfAcquisitionRecord` the run-length encoder with its running summary, `AcquiredRecords` the
  reader of the streams against the encoder, `RunLength` what a reader makes of a vector,
  `PackedSamples` and `SpelledRecords` the way of a sample from the card to its bin,
  `ZmqAcquiredDataSubscriber` the summing reader, `VectorBounds` which gates its bins can take, and
  `SummedFrames` the agreement of the two and the conservation of the total ion count.
- **The chain of threads.** `Subscriber` is the two-queue worker, as a state machine and as the
  class that runs it; `Publisher` is the list of subscribers; `Pipeline` is the chain of stages
  under every interleaving, `ChainDelivery` the arrival of every record while it runs, and
  `ChainCompletion` its completion after a stop.
- **The codec.** `LzfFormat` is the stream format and what it means, `LzfMatches` which matches are
  taken and what that is worth, `LzfCompress` and `LzfDecompress` the two C functions on arrays, `CompressedSpectra` their caller and the round trip.
- **The period.** `TofTimingInformation` is the median of timestamp differences.

State that the C and C++ code updates in place is held in classes and arrays here; each method is
proved against a function of its inputs, and the theorems are lemmas about those functions. A
method whose loop body is long in the source is split into one method per step, in the source's
order.

## What the code does not promise

Places where a property fails. Each has the exact condition, and a concrete case where the
condition does not name one itself.

- A skipped empty gate moves later gates towards bin 0, because the next gap is measured from the
  skipped gate's stop. `UimfAcquisitionRecord.LandsInPlaceExactly` gives the condition and
  `EmptyGateDisplaces` a marker hunk and a bin that differs; `ReadsBack` says where samples land in
  general.
- The summing reader checks where a skip leads and not where a store goes. It stores outside its
  vector exactly when a kept gate ends past the last bin and no gap up to that gate leads past it
  (`VectorBounds.EncodedFitsExactly`, with the case `GateAcrossTheEnd`).
- A record published after the stop command may be lost: the completion signal is given before
  the acquisition thread is joined. `Pipeline.LateRecordIsLost` is such a run, and
  `Pipeline.WholeDelivery` says that only a record published after the processing stage has left
  its loop is lost.
- The terminating zero octet of a compressed spectrum lies outside the buffer exactly when the
  spectrum is empty (`CompressedSpectra.GetCompressedSpectra`).
- The guard of the record size lets through 1 to 31 samples, which round down to a record of none
  (`TofTimingInformation.RecordIsLongest`).
- The plain reader overwrites the words of a short samples reply with the next reply, so the
  record starts late by the words of all replies but the last (`CstContext.Context.Acquire`): in
  place exactly when those were all empty (`NothingLostExactly`, with the case
  `ShortReplyLosesWords`).
- The two readers decode a trigger's time differently when the top bit of its high word is set
  (`MarkerStream.TimestampsAgree`).

Where comments and code disagree the code is followed: the format comment at
`UIMFWriter/src/lzf_c.c:90-97` gives runs of 33 and offsets of 4096 where the code has 32 and 8192;
the comment at `UIMFWriter/src/lzf_c.c:207` calls the length less two `#octets - 1`; and
`UIMFWriter/include/lzf/lzf.h:57-61` promises less than 104% of the input, which four distinct
octets exceed by taking at least 5 in any spelling (`LzfFormat.FourTakeFive`); the bound proved is
one octet in 32 more than the input, rounded up, and distinct octets attain it.

## Model

| member | source | states |
|---|---|---|
| LzfFormat.CopyBackIsUnique | UIMFWriter/src/lzf_d.c:145-177 | a back reference has one result: every new octet repeats the one `distance` before it, which all three copy strategies must reach |
| LzfFormat.CopyBackRepeats | UIMFWriter/src/lzf_d.c:157-161 | and that result does repeat at that distance, also where it reads what it has just written |
| LzfFormat.Step | UIMFWriter/src/lzf_d.c:64-181 | one turn of the decoder moves forward in both buffers and stays inside both, or stops with an error |
| LzfFormat.StepAtToken | UIMFWriter/src/lzf_d.c:66-139 | at the spelling of any well-formed token a turn appends exactly that token's octets, or reports too big |
| LzfFormat.DecodeEncoded | UIMFWriter/src/lzf_d.c:64-183 | decoding the spelling of any meaningful token list gives its expansion if it fits and E2BIG otherwise, never EINVAL |
| LzfFormat.DecodeAcceptsExactly | UIMFWriter/src/lzf_d.c:64-183 | the decoder succeeds with a result exactly when the input spells a token list with that expansion and it fits |
| LzfFormat.MeaningIsUnambiguous | UIMFWriter/src/lzf_d.c:64-183 | no octet stream has two meanings |
| LzfFormat.DecodeOctets | UIMFWriter/src/lzf_d.c:64-181 | octet by octet what follows a decoded stream: a run, a reference of two octets and one of three, with the length before the low octet of the offset |
| LzfFormat.StreamOfSeven | UIMFWriter/src/lzf_d.c:104-139 | seven literal octets and the twelve they decode to |
| LzfFormat.FirstErrorDecides | UIMFWriter/src/lzf_d.c:73-139 | which error is reported when a token is both cut off, too long for the room, or reaches back too far |
| LzfFormat.DistinctNeedsRuns | UIMFWriter/src/lzf_d.c:64-183 | distinct octets cannot be spelled with references, so no spelling of them is shorter than n + ceil(n/32) |
| LzfFormat.FourTakeFive | UIMFWriter/include/lzf/lzf.h:57-61 | no spelling of four distinct octets has less than five, more than 104% |
| LzfDecompress.CopyLiteral | UIMFWriter/src/lzf_d.c:89-99 | the fall-through switch copies exactly the run and touches nothing else |
| LzfDecompress.CopyReference | UIMFWriter/src/lzf_d.c:145-177 | the unrolled, the disjoint and the overlapping copy all give the back reference's one result |
| LzfDecompress.Decompress | UIMFWriter/src/lzf_d.c:55-184 | terminates inside both buffers; returns the decoded length and data, or 0 with E2BIG or EINVAL exactly when decoding fails so; writes nothing past the result |
| LzfCompress.CompareSixteen | UIMFWriter/src/lzf_c.c:175-198 | the unrolled compares find a common prefix and stop at the first octet that differs, inside the input |
| LzfCompress.ExtendMatch | UIMFWriter/src/lzf_c.c:164-205 | the match length is 3 to 264, inside the input, a true common prefix, and as long as the limit allows |
| LzfCompress.StopRun | UIMFWriter/src/lzf_c.c:172-173 | back-patching the run header yields a stream that spells the input so far; an empty run gives its place back |
| LzfCompress.PutLiteral | UIMFWriter/src/lzf_c.c:263-269 | one literal more keeps the stream and its size account, closing the run at 32 octets |
| LzfCompress.PutReference | UIMFWriter/src/lzf_c.c:207-220 | the octets written spell a reference that expands to the matched input |
| LzfCompress.PutMatch | UIMFWriter/src/lzf_c.c:163-224 | a match is written unless fewer than four octets would be left, which is exactly when 0 is returned; it is one reference to the candidate, as long as the limits let it be, after the stopped run |
| LzfCompress.PutTail | UIMFWriter/src/lzf_c.c:273-288 | three spare octets are enough for the last literals, and the whole size is at most 33/32 of the input, rounded up |
| LzfCompress.Reindex | UIMFWriter/src/lzf_c.c:229-244 | exactly two entries of the table change: the last two positions of a match, each under its own hash, read inside the input |
| LzfCompress.TakeMatch | UIMFWriter/src/lzf_c.c:149-244 | a match taken keeps the tokens the table's choice, and the table the latest positions entered |
| LzfCompress.LzfIndexOfThree | UIMFWriter/src/lzf_c.c:52-66 | the hash that is built depends on the last three octets only |
| LzfCompress.LzfIndexSpreads | UIMFWriter/src/lzf_c.c:52-66 | and never puts two hashes that differ in the last octet only in one slot |
| LzfMatches.LatestIsLatest | UIMFWriter/src/lzf_c.c:146-147 | what the table is said to hold is the latest position entered in that slot |
| LzfMatches.EqualOctetsAreShort | UIMFWriter/src/lzf_c.c:141-288 | tokens in which every choice is the table's spell n equal octets in at most 3 (n / 264) + 9 |
| LzfCompress.Compress | UIMFWriter/src/lzf_c.c:99-291 | for any hash function: no write outside the output; a positive result spells tokens that expand to the input; if the hash looks at three octets, a position is a literal only when the latest entry in its slot is no match within reach, a reference goes to that entry and is as long as it can be, and n equal octets take at most 3 (n / 264) + 9; at most n + ceil(n/32) octets, and exactly that for distinct octets; never 0 when the output has 2n octets, or n + n/32 + 4 |
| CompressedSpectra.WordsRoundTrip | UIMFWriter/src/encodedresult.cpp:11-15 | the octets of a vector in memory determine the vector |
| CompressedSpectra.OctetsOfWords | UIMFWriter/src/encodedresult.cpp:11-15 | octets 4i to 4i + 3 are word i, lowest first, as a sum of powers of 256 |
| CompressedSpectra.GetCompressedSpectra | UIMFWriter/src/encodedresult.cpp:9-37 | with twice the room compression never fails on a non-empty spectrum, and decodes to it for every sufficient capacity; one of equal octets takes next to nothing; the terminating zero fits exactly when the spectrum is not empty |
| CompressedSpectra.RoundTrip | UIMFWriter/include/lzf/lzf.h:63-67 | for every hash function and both buffer sizes, what is compressed decompresses to the same octets, and to nothing when the capacity is short |
| AcquisitionBuffer.Buffer.AdvanceProcessed | libaqmd3/src/acquisitionbuffer.cpp:38-41 | processing drops words from the front of the unread ones and changes nothing else |
| AcquisitionBuffer.Buffer.AdvanceReply | libaqmd3/src/acquisitionbuffer.cpp:43-51 | a reply that starts at its place, or is the first, extends the unread words; any other shifts the view of the earlier words by its first index |
| AcquisitionBuffer.Buffer.Reset | libaqmd3/src/acquisitionbuffer.cpp:53-58 | all cursors return to the start |
| MarkerStream.ParseSplitsAtTrigger | libaqmd3/src/cstzs1context.cpp:165-187 | cutting the stream at a trigger hunk cuts the parse: calls that stop there lose and duplicate nothing |
| MarkerStream.TriggerOwnsItsGates | libaqmd3/src/cstzs1context.cpp:188-273 | a trigger owns exactly the gates between its hunk and the next trigger hunk, in stream order |
| MarkerStream.WalkEndIsUnique | libaqmd3/src/cstzs1context.cpp:155-170 | there is one place where a walk for n triggers can end, so chunking cannot change a result |
| MarkerStream.FetchSplitsAtTrigger | libaqmd3/src/cstzs1context.cpp:207-258 | the sample words to fetch add up over calls |
| MarkerStream.FetchSizeOrdered | libaqmd3/src/cstzs1context.cpp:207-219 | four words a block rounded up to 16 when the blocks are in order, and exactly when that stays below 2^32 |
| MarkerStream.FetchTotalAligned | libaqmd3/src/cstzs1context.cpp:218-219 | every samples request is a multiple of 16 |
| MarkerStream.CountIsFetch | libaqmd3/src/cstzs1context.cpp:250-258 | the 32-bit element count of a gate equals the 64-bit count fetched for it exactly when the latter is below 2^32 |
| MarkerStream.FetchIsElements | libaqmd3/src/cstzs1context.cpp:250-258 | over a stretch whose counts fit, the words fetched are the gates' element counts added up |
| MarkerStream.TimestampsAgree | libaqmd3/src/cstzs1context.cpp:177-182 | sign-extending the high word gives the unsigned reader's time exactly when its top bit is clear |
| MarkerSpelling.HeaderDecides | libaqmd3/src/cstzs1context.cpp:163-286 | the lowest octet of a hunk alone makes it a trigger (01), gates (04 or 0a), a dummy (08) or an error |
| MarkerSpelling.ParseOfSpelled | libaqmd3/src/cstzs1context.cpp:163-273 | any stream of trigger and gate hunks, spelled octet by octet from index, time, blocks and positions, parses to those triggers and gates, whatever the words that say nothing hold, also for a stop before its start |
| MarkerSpelling.ParseOfPrinted | libaqmd3/src/cstzs1context.cpp:163-273 | every list of triggers the card can describe, printed four gates to a hunk, parses back to itself |
| MarkerSpelling.WalkReadsSpelled | libaqmd3/src/cstzs1context.cpp:155-170 | a walk over spelled hunks ends right behind them and returns what they mean |
| CstZs1Context.RequestFits | libaqmd3/include/libaqmd3/cstzs1context.h:57-62 | a marker request is a positive multiple of 16 and with 15 words of slack fits the buffer, up to the largest multiplier |
| CstZs1Context.Context.Start | libaqmd3/src/cstzs1context.cpp:40-49 | a frame begins with the latest trigger of all earlier frames frozen and nothing refused |
| CstZs1Context.Context.Stop | libaqmd3/src/cstzs1context.cpp:51-65 | markers fetched and not walked are dropped |
| CstZs1Context.Context.NoteTrigger | libaqmd3/src/cstzs1context.cpp:67-97 | the trigger remembered is the greatest noted; only a frame's first trigger can be refused, and only when some earlier frame's trigger is not before it |
| CstZs1Context.Context.ReadGates | libaqmd3/src/cstzs1context.cpp:190-269 | the four quarters add exactly their gates to the last trigger and their fetch sizes to the total, modulo 2^64, and nothing before the first trigger |
| CstZs1Context.Context.WalkHunk | libaqmd3/src/cstzs1context.cpp:158-286 | one hunk extends the parse, or ends the walk unread at the trigger after the n-th, or fails at a hunk of the kind the error names |
| CstZs1Context.Context.Refill | libaqmd3/src/cstzs1context.cpp:288-357 | new markers continue the stream where the walk stands; requests grow with the backlog up to the multiplier; misaligned exactly when no trigger is asked for |
| CstZs1Context.Context.FetchSamples | libaqmd3/src/cstzs1context.cpp:372-401 | exactly the words needed are consumed, whatever the replies; if no reply but those before the first words starts part way, the buffer shows them in order |
| CstZs1Context.Context.Acquire | libaqmd3/src/cstzs1context.cpp:114-412 | a success returns exactly n triggers, the parse from where the walk stood to the next trigger, with exactly their gates' samples; every error has its stated cause, a timeout exactly when the last markers came after the deadline; marker requests grow with the backlog, up to eightfold, and each samples request is all that is outstanding; the replay guard holds |
| CstContext.ReadersAgree | libaqmd3/src/cstcontext.cpp:84-105 | both readers find the same triggers with the same indices, and the same times exactly when all high words have a clear top bit |
| CstContext.NextRequest | libaqmd3/src/cstcontext.cpp:64-69 | the request is the base without a backlog, and otherwise all of it but its last part hunk, up to sixteen times the base |
| CstContext.Context.Scan | libaqmd3/src/cstcontext.cpp:83-111 | keeps exactly the trigger hunks of a reply, up to the one that completes the count |
| CstContext.Context.CollectTriggers | libaqmd3/src/cstcontext.cpp:55-124 | the triggers are the first n of the stream from where it stood, in however many replies and whatever lies between them |
| CstContext.Context.FetchRecord | libaqmd3/src/cstcontext.cpp:140-164 | the loop ends at the first reply that brings everything; the buffer shows its words, and those of all replies before it are consumed and lost; every error has its cause |
| CstContext.NothingLostExactly | libaqmd3/src/cstcontext.cpp:143-161 | no word is lost exactly when every reply before the last was empty |
| CstContext.ShortReplyLosesWords | libaqmd3/src/cstcontext.cpp:143-161 | a record of 32 words after one short reply of 16 holds other words than the stream's next 32 |
| CstContext.Context.Acquire | libaqmd3/src/cstcontext.cpp:12-167 | n triggers and one record each, two samples to a word, starting where the samples stream stood but for the words of the replies that were short; misaligned, and nothing read, unless the record is a positive multiple of 16; a timeout exactly when the last reply of either stream came after the deadline; driver errors only from the driver; marker requests follow the backlog, and each samples request is the whole record |
| AcquirePublisher.ParseExtends | AqMD3_console/src/acquirepublisher.cpp:128-132 | a record that begins where the last ended extends the frame's parse and changes none of it |
| AcquirePublisher.FrameIsDetermined | AqMD3_console/src/acquirepublisher.cpp:109-133 | two runs of a frame from the same place that publish as many scans publish the same triggers and gates, whatever the driver, the chunking and the segment size |
| AcquirePublisher.EveryScanOnce | AqMD3_console/src/acquirepublisher.cpp:130-132 | every scan number of a frame is in exactly one record |
| AcquirePublisher.FrameElements | AqMD3_console/src/acquirepublisher.cpp:109-133 | over a frame whose counts fit, the samples read are the element counts of all gates delivered |
| AcquirePublisher.RecordsOfFrame | AqMD3_console/src/acquirepublisher.cpp:124-132 | every record but the last is full, the last not empty, and a whole frame takes its length over the segment size, rounded up |
| AcquirePublisher.Publisher.AcquireRecord | AqMD3_console/src/acquirepublisher.cpp:116-167 | a turn publishes one contiguous record of a segment, or of what is left, or reports one error, damaged data apart from failure; it fails when the markers come too late, and otherwise only for a named reason |
| AcquirePublisher.Publisher.AcquireFrame | AqMD3_console/src/acquirepublisher.cpp:91-179 | the records tile the scans, record k from scan k times the segment size on, all but the last full, and are the parse of one stretch; all scans unless busy, failed, or asked to stop, which ends the loop at the first look that finds it; at most one error status, then finished; no samples unless the first trigger is later than all before |
| AcquirePublisher.Publisher.AcquireFrames | libaqmd3/src/cstzs1context.cpp:67-97 | over any sequence of frames the trigger remembered is the latest of all, and no frame reads samples unless its first trigger is later than every trigger of earlier frames |
| GateSamples.PlacedGate | libaqmd3/include/libaqmd3/acquireddata.h:47-53 | for placed gates the unsigned index arithmetic is the plain one |
| GateSamples.SamplesOfWord | AqMD3_console/src/uimfacquisitionrecord.cpp:93-96 | both samples of a word are 16-bit values, the sign-extended halves shifted, and together determine the word |
| GateSamples.HalfWordIsSample | AqMD3_console/src/uimfacquisitionrecord.cpp:93-96 | of signed samples packed two to a word, first in the low half, half-word i unpacks to sample i plus 32768 |
| GateSamples.EveryWordPacks | AqMD3_console/src/uimfacquisitionrecord.cpp:93-96 | every word packs exactly one pair of samples |
| GateSamples.GateReadsItsWindow | AqMD3_console/src/uimfacquisitionrecord.cpp:86-96 | a gate with blocks in order never reads outside the words fetched for it |
| AcquiredRecords.WindowsDisjoint | AqMD3_console/src/uimfacquisitionrecord.cpp:53-109 | the words of two gates never overlap, in one trigger or across triggers, and lie in gate order inside what was acquired |
| AcquiredRecords.EveryWordOnce | AqMD3_console/src/uimfacquisitionrecord.cpp:53-109 | every word acquired belongs to exactly one gate of one trigger |
| AcquiredRecords.SoundStretch | libaqmd3/src/cstzs1context.cpp:188-273 | over a stretch whose gates have blocks in order and indices that fit, every gate parsed reads inside its own count, and the counts are the words fetched |
| AcquiredRecords.AcquiredIsReadable | AqMD3_console/src/uimfacquisitionrecord.cpp:53-109 | what is acquired for such a stretch is exactly its gates' words, and the running offset stays inside the buffer for every gate of every trigger |
| AcquiredRecords.SamplesAreItsOwn | AqMD3_console/src/uimfacquisitionrecord.cpp:86-96 | the samples read for a gate depend on its own words only |
| AcquiredRecords.AcquireAndEncode | AqMD3_console/src/uimfacquisitionrecord.cpp:9-122 | a record acquired from any point of such a stream meets what the encoder asks; with the replies in step each gate's samples come from its own slice of the samples stream, at its running offset |
| RunLength.StoreRun | AqMD3_console/src/zmqacquireddatasubscriber.cpp:105-120 | a run of stored values fills consecutive bins and no other |
| RunLength.ReadersAgree | AqMD3_console/src/uimfacquisitionrecord.cpp:69-77 | a reader that treats a zero after -32768 as padding reads the same bins if -32768 never occurs |
| RunLength.BinsHoldAll | AqMD3_console/src/zmqacquireddatasubscriber.cpp:105-120 | the bins of a vector that fits add up to its stored values |
| UimfAcquisitionRecord.CursorOfGates | AqMD3_console/src/uimfacquisitionrecord.cpp:51-84 | the reader stands after a list of gates where the last one stops, less the drift of the skipped ones |
| UimfAcquisitionRecord.ReadsBack | AqMD3_console/src/uimfacquisitionrecord.cpp:44-110 | reading the encoding gives, bin by bin, every gate's samples at its landing and nothing else |
| UimfAcquisitionRecord.LandsInPlaceExactly | AqMD3_console/src/uimfacquisitionrecord.cpp:51-67 | every kept gate lands in place exactly when each skipped gate before a kept one stops where its predecessor did; always so without skipped gates |
| UimfAcquisitionRecord.RoundTrip | AqMD3_console/src/uimfacquisitionrecord.cpp:44-110 | then sample k of gate j is read in bin offset + start + k, and nothing anywhere else |
| UimfAcquisitionRecord.EmptyGateDisplaces | AqMD3_console/src/uimfacquisitionrecord.cpp:51-67 | a marker hunk with an empty gate at sample 8 and a gate at sample 16: the second lands in bin 8, which reads 32768 where nothing is described |
| UimfAcquisitionRecord.NoForbiddenRun | AqMD3_console/src/uimfacquisitionrecord.cpp:69-77 | -32768 is never emitted, and readers that treat it specially agree with the others |
| UimfAcquisitionRecord.EntriesAreWords | AqMD3_console/src/uimfacquisitionrecord.cpp:73-104 | every entry is a 32-bit word |
| UimfAcquisitionRecord.SamplesOfPacked | AqMD3_console/src/uimfacquisitionrecord.cpp:86-96 | a gate's samples are a contiguous part of the list its words pack, in order, shifted into range |
| UimfAcquisitionRecord.EncodeSamples | AqMD3_console/src/uimfacquisitionrecord.cpp:86-107 | unpacks exactly the gate's samples and keeps the summary true of the vector |
| UimfAcquisitionRecord.ProcessTrigger | AqMD3_console/src/uimfacquisitionrecord.cpp:16-118 | tic and count are those of the stored values; the peak is their maximum, and its index the bin where the reader puts its first occurrence |
| UimfAcquisitionRecord.Process | AqMD3_console/src/uimfacquisitionrecord.cpp:9-122 | one such result per trigger, numbered from the start index, each from its own words |
| PackedSamples.BinsHoldSamples | AqMD3_console/src/uimfacquisitionrecord.cpp:44-110 | reading the encoding finds sample k of gate j, of the list the words pack, in bin offset + start + k |
| PackedSamples.ProcessedHoldsSamples | AqMD3_console/src/uimfacquisitionrecord.cpp:9-122 | and so in every scan of a processed record |
| SpelledRecords.AcquireSpelled | libaqmd3/src/cstzs1context.cpp:114-412 | from the card to the bins: a stream that spells some triggers is acquired as those, and with the replies in step each gate's samples are read from their own bins of its scan's vector |
| UimfAcquisitionRecord.StoredIsSamples | AqMD3_console/src/uimfacquisitionrecord.cpp:86-107 | a vector stores every sample of every gate, zeros too, and nothing else: their number and their sum |
| ZmqAcquiredDataSubscriber.BatchConserves | AqMD3_console/src/zmqacquireddatasubscriber.cpp:94-123 | the bins of a batch that fits add up to the scans' tic values |
| ZmqAcquiredDataSubscriber.Subscriber.CheckAlignment | AqMD3_console/src/zmqacquireddatasubscriber.cpp:40-75 | counts the runs that open in the batch and those that open below the floor |
| ZmqAcquiredDataSubscriber.Subscriber.AddScan | AqMD3_console/src/zmqacquireddatasubscriber.cpp:105-120 | adds a scan bin by bin; the exception is raised exactly when a skip reaches the end of the vector before any store has passed it, and a store outside is made exactly when one passes it first |
| ZmqAcquiredDataSubscriber.Subscriber.OnNotify | AqMD3_console/src/zmqacquireddatasubscriber.cpp:77-164 | a batch is published as the dense sum with its tics and times, or refused whole with an error, or stores outside the vector, each under its exact condition; a low opening is reported in every case |
| VectorBounds.EncodedFitsExactly | AqMD3_console/src/zmqacquireddatasubscriber.cpp:105-120 | the skips of encoded gates fit exactly when every gap leads inside; a store goes outside exactly when a kept gate ends past the bins and no gap up to it leads there |
| VectorBounds.EncodedAddsExactly | AqMD3_console/src/zmqacquireddatasubscriber.cpp:105-120 | so encoded gates are added whole exactly when no kept gate ends past the bins |
| VectorBounds.GateAcrossTheEnd | AqMD3_console/src/zmqacquireddatasubscriber.cpp:105-120 | a gate that starts inside the record and ends past it: no skip is refused, and a store goes outside |
| VectorBounds.EncodedFits | AqMD3_console/src/zmqacquireddatasubscriber.cpp:105-120 | gates inside the record never make the reader leave the vector |
| SummedFrames.AlignmentCounts | AqMD3_console/src/zmqacquireddatasubscriber.cpp:42-67 | the check's counts are the gates that open a run and those that open low; a gate touching its predecessor is not counted |
| SummedFrames.ToFrameAndSum | AqMD3_console/src/processsubject.cpp:126-128 | a sound record is summed without an exception, every bin holds what all gates describe there, and the bins add up to the total of the tic values |
| Subscriber.TurnKeepsInv | AqMD3_console/include/subscriber.h:68-93 | every turn keeps log = delivered, current, items, queue in this order, and never takes a delivery back |
| Subscriber.UpdateKeepsInv | AqMD3_console/include/subscriber.h:99-104 | so does an update at any moment |
| Subscriber.TurnsDeliver | AqMD3_console/include/subscriber.h:68-89 | while one of the first k items is undelivered every turn brings it nearer, with or without the stop signal, and none leaves the loop |
| Subscriber.DeliversInTime | AqMD3_console/include/subscriber.h:68-89 | whatever updates come in between, the first k items are delivered within a bounded number of the worker's own turns |
| Subscriber.StoppedWorkDecreases | AqMD3_console/include/subscriber.h:68-93 | after the stop every turn leaves less work, although a pass moves only half the queue |
| Subscriber.LeavesOnlyEmpty | AqMD3_console/include/subscriber.h:68-93 | the loop is left only when everything logged has been delivered |
| Subscriber.PassesAreLogarithmic | AqMD3_console/include/subscriber.h:75-82 | n queued items take at most k passes exactly when n < 2^k |
| Subscriber.Queues.Update | AqMD3_console/include/subscriber.h:99-104 | appends to the log and to the protected queue only, as the machine's update |
| Subscriber.Queues.DrainPass | AqMD3_console/include/subscriber.h:75-82 | moves the first half of the queue, rounded up, in order: the loop with the shrinking bound is the machine's one drain turn |
| Subscriber.Queues.DeliverAll | AqMD3_console/include/subscriber.h:84-89 | notifies of all items in order: the loop is that many deliveries of the machine |
| Subscriber.Queues.Pass | AqMD3_console/include/subscriber.h:70-89 | one turn of the loop, stop signal up or not, is a run of the machine and notifies of the first half of what is queued |
| Subscriber.Queues.Run | AqMD3_console/include/subscriber.h:68-93 | the whole thread, with updates before every pass: each pass notifies of at least half of what is outstanding, before any stop, and in the end of everything in order |
| Subscriber.Queues.RunStopped | AqMD3_console/include/subscriber.h:68-93 | after the stop the loop is a run of the machine to completion: all that was logged is notified in order, in logarithmically many passes, and completion is called once |
| Publisher.Publisher.RegisterSubscriber | AqMD3_console/include/publisher.h:23-27 | a subscriber is appended with its kind, after those there are |
| Publisher.Publisher.UnregisterSubscriber | AqMD3_console/include/publisher.h:29-39 | removes the one registration of a subscriber, if any, and keeps the order of the rest |
| Publisher.KindsThatMeet | AqMD3_console/include/publisher.h:42-51 | of the three kinds only the two single ones miss each other |
| Publisher.Publisher.Notify | AqMD3_console/include/publisher.h:42-51 | updates exactly the subscribers whose kind intersects, each once, and touches nothing else of any subscriber |
| Publisher.Publisher.NotifyCompleted | AqMD3_console/include/publisher.h:53-59 | completion can be signalled once; a second time fails |
| Pipeline.AcquireFrameGetsNamed | AqMD3_console/src/processsubject.cpp:127-128 | the masks send the file writer exactly the frames with a file name |
| Pipeline.AcquireGetsAll | AqMD3_console/include/publisher.h:42-51 | and the summing subscriber every frame |
| Pipeline.ConsistentStep | AqMD3_console/include/publisher.h:42-51 | every step of the chain keeps what each subscriber was sent equal to what was processed |
| Pipeline.SignalsStep | AqMD3_console/include/publisher.h:53-73 | every step keeps the order of the completion signals, and a subscriber that has left has nothing queued |
| Pipeline.NothingOutOfOrder | AqMD3_console/include/subscriber.h:68-93 | in every run, at every point, nothing is lost or reordered on the way to either subscriber |
| Pipeline.WholeDelivery | AqMD3_console/src/aqmd3_console.cpp:560-562 | once the chain has completed both subscribers have got exactly what they should if and only if no record was published after the processing stage left its loop; stopping before the last record is enough |
| Pipeline.SecondStageStopsFirst | AqMD3_console/include/processsubject.h:84-89 | the processing stage's subscribers are never updated after its signal |
| Pipeline.LateRecordIsLost | AqMD3_console/src/acquirepublisher.cpp:205-216 | a run in which a record published after the stop is lost |
| ChainCompletion.StoppedChainMoves | AqMD3_console/include/publisher.h:61-73 | a stopped chain has completed exactly when no thread can move; until the processing stage has signalled, it can |
| ChainCompletion.ChainSettles | AqMD3_console/include/publisher.h:61-73 | after the stop every step of the processing stage leaves less to do, and after its signal so does every other step; before it an idle subscriber may turn round without effect |
| ChainCompletion.StepsAreBounded | AqMD3_console/include/publisher.h:61-73 | however a stopped run goes on without a new record, the processing stage takes a bounded number of steps, and after its signal so do all others together |
| ChainCompletion.CanComplete | AqMD3_console/include/publisher.h:61-73 | every stopped run has a continuation to completion, so there is no deadlock anywhere |
| ChainCompletion.FairExecutionCompletes | AqMD3_console/include/publisher.h:61-73 | in every execution that keeps no thread waiting for ever, under any schedule, the wait of the stop command returns once the records cease |
| ChainCompletion.FairExecutionDelivers | AqMD3_console/include/publisher.h:61-73 | and then both subscribers have got exactly what they should of all records published, if none came too late |
| ChainCompletion.FairExecutionsExist | AqMD3_console/include/publisher.h:61-73 | every run, stopped or not, can be carried on to such an execution |
| ChainDelivery.DueStep | AqMD3_console/include/subscriber.h:68-93 | no step of the chain puts off the first k deliveries of a stage, and the stage's own steps bring them nearer |
| ChainDelivery.EventuallyDelivers | AqMD3_console/include/subscriber.h:68-93 | in every fair execution each stage delivers its first k items |
| ChainDelivery.EveryRecordArrives | AqMD3_console/include/subscriber.h:68-93 | in every fair execution, with or without a stop and whatever is published meanwhile, each record published by any moment reaches the summing subscriber, and the file writer if it has a file name, unless it came too late |
| TofTimingInformation.MiddleIsRobust | AqMD3_console/src/massspec/toftiminginformation.cpp:93-114 | for any correct selection, if fewer than half the differences lie outside a band the median lies inside it |
| TofTimingInformation.HalfIsTooMany | AqMD3_console/src/massspec/toftiminginformation.cpp:111-114 | with half of them bad the bad one can be returned |
| TofTimingInformation.NthElement | AqMD3_console/src/massspec/toftiminginformation.cpp:112 | a rearrangement with the k-th smallest in place |
| TofTimingInformation.TriggerPeriodSamples | AqMD3_console/src/massspec/toftiminginformation.cpp:86-114 | the period is the middle one of the wrapped differences, the upper of two, robust in that sense, and the step itself for stamps that rise evenly; fewer than two stamps are refused |
| TofTimingInformation.RecordIsLongest | AqMD3_console/src/massspec/toftiminginformation.cpp:128-140 | the record is the longest multiple of 32 that fits; it is not empty exactly when 32 samples are left |

## Left out

- Compress: a 0 on a buffer that is neither twice the input nor n + n/32 + 4 octets is not characterised further; for a hash function that looks at other than the last three octets, which the built one does not, nothing is said of the matches taken.
- Compress: pointer and 32-bit length overflow is not modelled; the octet past a one-octet input, which the hash start reads, is taken to be any value.
- AddScan: a store outside the vector ends the method here; the source goes on, and what it then overwrites is not modelled.
- OnNotify: as for `AddScan`, nothing is claimed of a batch after a store outside the vector but that it was made.
- AcquireAndEncode: asks that no more than 2^32 words of markers are left, so that the 64-bit count of words to fetch does not wrap.
- Acquire: the clock moves only while a fetch is under way, by any amount; the driver answers finitely often in a run, which stands for every fetch loop that ends.
- Acquire: a failed driver call is taken to consume nothing.
- FetchSamples: that a reply which starts part way after the first words misplaces them is stated by `AdvanceReply`, not by `FetchSamples`, since equal words could hide it.
- ToFrameAndSum: 32-bit overflow of a bin and of the tic, and 64-bit overflow of counters, are not modelled.
- WholeDelivery: `to_frame` is taken not to throw; a throw there is logged and drops that one frame.
- AcquireFrame: the segment size is at least one and at most the pool's maximum, as the console passes it; an exception of the card's own start or stop ends the process and is not modelled.
- The adjustment of a stop block before its start block is decoded as written, but nothing is claimed about the samples of such a gate.
- The sub-sample position of a trigger: an integer quotient of -255..0 by 256, so always 0.
- Marker diagnostics, logging and error texts, and the log's index of the last trigger.
- The buffer pool: every call gets a reset buffer that nobody else holds.
- Memory ordering: `update` and the drain are atomic under the queue's lock, and the unlocked look at the queue in the loop condition is taken to be atomic too.
- Snappy and protobuf encoding, ZeroMQ, the command dispatcher, and writing to the database.
- Conversion of times in seconds to samples in `get_optimal_record_size`, and the band check on the period.
- The best-compression variant of the codec, which is not built.
