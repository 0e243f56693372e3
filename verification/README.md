# Verified models of the OpenJFX toys and tools

This project models four programs of the repository in Dafny and proves what they promise.

**The GL trace (`tools/gltrace`).** The tracer writes one record per intercepted call from many threads
into a file; the replayer decodes it. `Fields` has the codecs, `Commands` the encoders and the state the
tracer follows, `Replay` and `Bodies` the decoder and the law for single records, `Arguments` where each argument stands,
`Trace` whole files, `Bindings` what the tracked state means, `Refusals` the records the replayer does not
get through.
`Recorder` is the machine of threads, lock and reentrancy counter; `Sync` and `Shapes` say when its
recordings decode, and exactly when. `TraceWriter` is the chunked writer and `TraceReader` the decoder
loop, both proved to do what those functions say. `HandleMap`, `Renaming` and `HandleTrace` cover the renaming of EGL
handles, `Gather` and `Formats` the vertex arrays, `Fps` the frame rates.

**The terminal (`WebTerminal`).** `Scanner` and `Parameters` are the escape sequences, `Terminal` the loop
that runs them; `Properties`, `Styles`, `Restyling` and `Rendering` the style spans around the cursor,
`Graphics` what SGR parameters mean, and `Display` raw output all the way to them; `Positions`, `Walking`, `Remains`, `Moving`, `Cursor`, `Touring` and
`Delta` the cursor, its cache and the walk over the tree.

**The mesh viewer (`PNTMeshViewer`)** in `Grid`, `Surface` and `Mesh`, and **the slide show (`FXSlideShow`)** in
`Slides`, which is the machine and its laws, and `SlideShow`, the objects that follow it. `Words`, `Strings`
and `Arithmetic` hold what the others share.

Several properties one would expect do not hold of the code. They are kept as the code has them, with the
exact condition under which they hold and an input for which they do not: null or marker floats derail the
reader (`Fields.FloatPtrExact`, `Fields.NullFloatStops`, `Shapes.RunExact`), 4-byte pointers are sign-extended
(`Fields.PointersExact`, `Fields.UpperPointerChanges`), racing or nested bindings change the shape of draw
records unseen (`Shapes.RunExact`, `Shapes.RacingBindingBreaksReplay`), the vertex count is right for quads
only (`Gather.DrawExact`, `Gather.TriangleIsLost`), a lookup before the first creation crashes
(`Renaming.Renamer.Renamed`, `Renaming.EarlyLookup`), a chunk boundary inside CR LF adds a line
(`Scanner.ChunkingExact`, `Scanner.SplitPairDiffers`), unstyled elements defeat restyling
(`Styles.AdjustExact`, `Styles.PlainElementDefeats`), a move that ends at the end of the document can
record a wrong position (`Cursor.RecordedExact`, `Cursor.MoveBelowLastLine`, `Cursor.TabAtTheEnd`,
`Cursor.NegativeColumn`), and the walk over the tree counts CR LF once (`Delta.UpdateCursorCache`,
`Delta.PairIsOneLine`). The documentation of
`moveTo` promises the goal column in every case; the model follows the code.

`dafny verify dfyconfig.toml` checks the whole project.

## Model

| member | source | states |
|---|---|---|
| `Words.ValueOfLittleEndian` | tools/gltrace/iolib.c:232-268 | an n-byte little-endian number reads back as itself |
| `Words.LittleEndianOfValue` | tools/gltrace/iolib.c:394-409 | and writing what was read gives the same bytes: the layout is a bijection |
| `Words.ByteMeans` | tools/gltrace/iolib.c:232-268 | byte i of a number is that power of 256 of it |
| `Words.SignedMeans` | tools/gltrace/iolib.c:423-436 | a signed pattern differs from the unsigned one by a multiple of 2^32; a negative count runs no loop |
| `Words.PaddingMeans` | tools/gltrace/iolib.c:291-292 | padding is the least number of bytes that makes a multiple of four |
| `Fields.EncAligned` | tools/gltrace/iolib.c:176-314 | every field leaves the stream 4-aligned |
| `Fields.IntPtrRoundTrip` | tools/gltrace/iolib.c:185-202 | a nullable int, the marker value included, is read back and passed completely |
| `Fields.FloatPtrExact` | tools/gltrace/iolib.c:378-391 | a nullable float is read back, but passed completely if and only if it was neither null nor the marker: the escape branch of the reader stays in front of the second word |
| `Fields.StrRoundTrip` | tools/gltrace/iolib.c:411-421 | a NUL-free string is read back and passed with its padding, whatever follows |
| `Fields.BytesRoundTrip` | tools/gltrace/iolib.c:423-436 | a byte block is read back and passed with its padding, an empty one as null |
| `Fields.FieldRoundTrip` | tools/gltrace/iolib.c:176-436 | at any position and before any bytes each kind of field reads back as the value written (null strings as empty) and the reader stands at the next field, unless it is an escaped float |
| `Fields.PointersExact` | tools/gltrace/iolib.c:402-409 | a pointer comes back unchanged if and only if pointers are 8 bytes or its sign bit is clear; distinct pointers stay distinct and null stays null in any case |
| `Fields.UpperPointerChanges` | tools/gltrace/iolib.c:402-409 | the lowest 4-byte pointer with the sign bit is read back as another one |
| `Fields.NullFloatStops` | tools/gltrace/iolib.c:378-391 | of the eight bytes of a null float the reader passes four |
| `Fields.FloatMarkerMeans` | tools/gltrace/iolib.c:40-40 | the marker of floats is the float nearest to the marker of ints |
| `Fields.ZerosAreNull` | tools/gltrace/iolib.c:385-389 | a zero of either sign behind the marker is read as null |
| `Fields.PaddedMeans` | tools/gltrace/iolib.c:270-314 | a padded run is the run itself and zeros behind it |
| `Fields.SizeMeans` | tools/gltrace/iolib.c:176-268 | how much ints, pointers and values behind pointers take |
| `Fields.RunMeans` | tools/gltrace/iolib.c:270-314 | strings come with their NUL and blocks behind their size, in whole words |
| `Fields.FieldsRoundTrip` | tools/gltrace/iolib.c:176-436 | field lists are self-delimiting: reading the kinds of a list returns its values and ends behind it |
| `Commands.RecordWellFormed` | tools/gltrace/gles.c:210-2268 | what any encoder puts for a call the tracer accepts is well formed, and only glGetFloatv can need the float escape |
| `Replay.TablesAgree` | tools/gltrace/retrace.c:2486-3657 | for every opcode the tracer writes straight-line records for, the replayer reads exactly the same kinds in the same order, except for the six it has no decoder for |
| `Replay.OpcodesAreCommands` | tools/gltrace/retrace.c:2475-2484 | no recorded opcode can be taken for a thread prefix, for OPC_NONE or for the end of the file |
| `Replay.OpcodesCovered` | tools/gltrace/gles.c:210-2268 | every opcode from 100 to 149 has its one kind of record |
| `Replay.NameListsCovered` | tools/gltrace/gles.c:210-2268 | the lists of names among the other opcodes |
| `Replay.UniformFamily` | tools/gltrace/gles.c:1856-2150 | the uniform calls put the location and as many values as their names say |
| `Bodies.DrawShape` | tools/gltrace/gles.c:962-987 | the shape of a draw record is decided by the bindings and the number of enabled attributes alone |
| `Bodies.AttribsBody` | tools/gltrace/retrace.c:3439-3448 | the attribute loop returns the list and stops behind its terminator if and only if the terminator still finds one of the 64 slots (31 pairs); otherwise it gives up |
| `Bodies.SourcesBody` | tools/gltrace/retrace.c:3128-3147 | shader sources with and without lengths are read back one by one |
| `Bodies.ConfigsBody` | tools/gltrace/retrace.c:3450-3457 | counted configurations are read back, min(count, size) of them |
| `Bodies.BodyExact` | tools/gltrace/retrace.c:2486-3657 | a replayer tracking the state the tracer had decodes the body of any recordable call to its own values and end if and only if the call passes the replayer's guards |
| `Bodies.OpcodesMean` | tools/gltrace/retrace.c:2802-2802 | the opcodes of the calls with lists, and the terminator of attribute lists |
| `Bodies.ThirtyOnePairs` | tools/gltrace/retrace.c:3439-3448 | attribute lists of up to 31 pairs are replayed, longer ones refused |
| `Bodies.EscapeDerails` | tools/gltrace/retrace.c:3002-3007 | a float query with a null or marker result is read to its own values, but four bytes short, in front of the second word of the escape |
| `Arguments.DrawArguments` | tools/gltrace/retrace.c:2802-2817 | mode, count, type and indices, and for every enabled attribute the block packed for it, stand where the decoder looks for them |
| `Arguments.RankMeans` | tools/gltrace/gles.c:194-205 | the place of a block is the number of enabled attributes in front of its own |
| `Arguments.NameArguments` | tools/gltrace/retrace.c:2713-2722 | count and names stand in order |
| `Arguments.SourceArguments` | tools/gltrace/retrace.c:3128-3147 | every shader source stands behind its length |
| `Arguments.HandleArguments` | tools/gltrace/retrace.c:3480-3501 | handles, attribute pairs, terminator and result stand in order |
| `Arguments.ConfigArguments` | tools/gltrace/retrace.c:3437-3457 | display, attribute pairs, both counts, configurations and result stand in order |
| `Arguments.UniformArguments` | tools/gltrace/retrace.c:2902-2913 | a result stands for each non-null pointer, in order |
| `Trace.TrackersAgree` | tools/gltrace/retrace.c:2513-2524 | a record changes the replayer's bindings and enabled set exactly as the call changed the tracer's |
| `Trace.LeadRoundTrip` | tools/gltrace/iolib.c:160-174 | the thread prefix is read exactly where it was written, and the current thread is known after it |
| `Trace.ItemRoundTrip` | tools/gltrace/retrace.c:2473-2484 | one record is decoded to thread, opcode, arguments and both times and consumed exactly |
| `Trace.TraceRoundTrip` | tools/gltrace/retrace.c:2468-2657 | for every finite run of replayable calls the decoder yields the run record by record and stops behind it |
| `Trace.FileRoundTrip` | tools/gltrace/iolib.c:110-154 | the truncated file and the file with any zero-filled tail decode to the same run |
| `Trace.EncTraceAppend` | tools/gltrace/iolib.c:160-174 | the stream grows by whole records; a record is prefixed by its thread exactly when the previous one had another |
| `Trace.HeaderMeans` | tools/gltrace/iolib.c:51-75 | the header byte by byte: magic word, version 1.0.0, pointer width |
| `Trace.ThreadMeans` | tools/gltrace/iolib.c:160-174 | the prefix of a record by another thread: the opcode 2 and the thread |
| `Trace.LengthMeans` | tools/gltrace/iolib.c:160-174 | a run takes its fields, twenty bytes for each call, and a thread prefix exactly where the thread changes |
| `Bindings.StepMeans` | tools/gltrace/gles.c:261-283 | a call changes the tracked state by its arguments: glBindBuffer one of two bindings, enabling and disabling one attribute |
| `Bindings.StateIsLatest` | tools/gltrace/gles.c:261-283 | the tracked state after any calls is what the latest call for each target and each attribute said |
| `Bindings.TrackedIsLatest` | tools/gltrace/retrace.c:2513-2524 | so is the state a replayer has behind any recording |
| `Bindings.TracerIsLatest` | tools/gltrace/gles.c:261-283 | in every run of the recorder, disciplined or not, the tracer's own state is what took effect last: calls when they end, nested ones included, and bindings when they are stored |
| `Bindings.DrawFields` | tools/gltrace/gles.c:962-987 | a draw record has exactly four fields, and one block more for each attribute that is on unless an array buffer is bound; the indices are an address if an element buffer is bound and a block if not, as the latest calls say |
| `Recorder.Apply` | tools/gltrace/iolib.c:156-183 | every step of every thread keeps the tracked state and the open calls well formed |
| `Recorder.NestedCallsAreSilent` | tools/gltrace/iolib.c:164-179 | nested calls add no bytes |
| `Recorder.StepKeepsInv` | tools/gltrace/iolib.c:156-329 | each step keeps mutual exclusion, the counter and the layout of the stream |
| `Recorder.LockProtocol` | tools/gltrace/iolib.c:156-329 | in every interleaving the reentrancy counter is the owner's nesting depth, nobody else is inside a call, and the stream is the header, whole outermost records and the beginning of the open one |
| `Sync.StepKeepsSync` | tools/gltrace/gles.c:261-283 | in a disciplined run every step keeps the tracer's state equal to the one the records announce, but for a binding on its way |
| `Sync.RecordingDecodes` | tools/gltrace/gles.c:962-987 | every disciplined concurrent run, stopped between records, decodes to exactly its outermost calls, and the replayer ends up with the tracer's bindings |
| `Shapes.DrawExact` | tools/gltrace/retrace.c:2802-2817 | a draw record is decoded to its own values if and only if it has the shape the replayer expects |
| `Shapes.TraceExact` | tools/gltrace/retrace.c:2802-2817 | a trace of any recordable calls, made under any states, decodes to itself if and only if it is legible: every draw record has the shape its predecessors announce and every call passes the replayer's guards, but the last one may be a float query whose times hide that it was misread |
| `Shapes.LegibleIsShaped` | tools/gltrace/retrace.c:2802-2817 | where all calls pass the guards, shapes alone decide |
| `Refusals.ShiftedTimes` | tools/gltrace/iolib.c:393-400 | times read one word early: every half slips by one place |
| `Refusals.ShiftedExact` | tools/gltrace/iolib.c:393-400 | they are the recorded times if and only if all their words repeat the word in front |
| `Refusals.RefusedItem` | tools/gltrace/retrace.c:2473-3645 | the record of a call the replayer refuses: decoding stops there, except for a float query, which is decoded with its own times if and only if those are frozen to the word in front of them, and then nothing follows |
| `Shapes.StepKeepsMade` | tools/gltrace/gles.c:962-987 | every record, open or closed, was made under some state the tracer tracked |
| `Shapes.RunExact` | tools/gltrace/gles.c:261-283 | the same for every run of the recorder, with nested calls and racing bindings: it decodes to its closed calls if and only if those are legible |
| `Shapes.RacingBindingBreaksReplay` | tools/gltrace/gles.c:273-280 | the binding is stored after the record is closed: a run of two threads in which this makes the finished file decode to something else |
| `TraceWriter.Writer.Enlarge` | tools/gltrace/iolib.c:126-154 | mapping the next chunk keeps what was written and needs a full chunk |
| `TraceWriter.Writer.StoreWord` | tools/gltrace/iolib.c:176-183 | an aligned word never crosses the end of the chunk and is appended |
| `TraceWriter.Writer.Copy` | tools/gltrace/iolib.c:232-268 | a byte run is appended even when it is split over any number of chunks; no store leaves the mapped chunk |
| `TraceWriter.Writer.Pad` | tools/gltrace/iolib.c:291-292 | zeros up to the next multiple of four |
| `TraceWriter.Writer.PutInt` | tools/gltrace/iolib.c:176-183 | appends the word, or nothing in a nested call |
| `TraceWriter.Writer.PutEscaped` | tools/gltrace/iolib.c:185-230 | appends the nullable value with its escape |
| `TraceWriter.Writer.PutLong` | tools/gltrace/iolib.c:232-249 | appends eight bytes |
| `TraceWriter.Writer.PutPtr` | tools/gltrace/iolib.c:251-268 | appends a pointer of the traced width |
| `TraceWriter.Writer.PutString` | tools/gltrace/iolib.c:270-292 | appends the padded string, zeros for null |
| `TraceWriter.Writer.PutBytes` | tools/gltrace/iolib.c:294-314 | appends size and padded block, zero for null |
| `TraceWriter.Writer.PutField` | tools/gltrace/iolib.c:176-314 | appends the encoding of any field and keeps the stream aligned |
| `TraceWriter.Writer.PutCmd` | tools/gltrace/iolib.c:160-174 | opens a record with a thread prefix where the thread changes |
| `TraceWriter.Writer.PutTime` | tools/gltrace/iolib.c:316-329 | closes a record with both times |
| `TraceWriter.Writer.constructor` | tools/gltrace/iolib.c:51-75 | a new file holds the header |
| `TraceWriter.Writer.Fini` | tools/gltrace/iolib.c:110-120 | the file is cut back to exactly what was written |
| `TraceWriter.Writer.UnfinishedFile` | tools/gltrace/iolib.c:126-154 | without that it is what was written and zeros, up to a whole number of chunks |
| `TraceWriter.Writer.Perform` | tools/gltrace/iolib.c:160-329 | each step of the recorder machine, done through the chunked writer, leaves the machine's stream |
| `TraceWriter.RecordRun` | tools/gltrace/iolib.c:51-329 | for every run of the recorder the finished file is the flat stream and the unfinished one adds zeros only |
| `TraceWriter.RecordAndDecode` | tools/gltrace/iolib.c:51-443 | the whole pipeline, for every run stopped between records: the finished and the unfinished file decode to its closed calls if and only if those are legible, and those of orderly runs are |
| `TraceReader.FramesCounted` | tools/gltrace/retrace.c:3648-3655 | a request for n frames delivers at most n swaps, fewer only at the end of the trace |
| `TraceReader.FramesCompose` | tools/gltrace/retrace.c:2473-2473 | playing a frames and then b frames is playing a + b frames |
| `TraceReader.Reader.GetArrays` | tools/gltrace/retrace.c:2807-2814 | the loop over 128 attributes reads one block per enabled one |
| `TraceReader.Reader.GetSources` | tools/gltrace/retrace.c:3128-3147 | the source loop reads what the grammar says |
| `TraceReader.Reader.GetAttribs` | tools/gltrace/retrace.c:3439-3448 | the attribute loop stays inside its 64 slots and reads what the grammar says |
| `TraceReader.Reader.GetBody` | tools/gltrace/retrace.c:2486-3639 | the switch reads the body the grammar says for every opcode and tracked state |
| `TraceReader.Reader.GetItem` | tools/gltrace/retrace.c:2473-2484 | one turn of the loop delivers the next record and mirrors its effect on the tracked state |
| `TraceReader.Reader.Process` | tools/gltrace/retrace.c:2468-3657 | the loop delivers the decoded trace, all of it or up to the requested frame |
| `TraceReader.ReplayFile` | tools/gltrace/iolib.c:76-107 | opening and playing a file delivers its decoding, or nothing if it does not start like a trace |
| `HandleMap.Maps.CreateMap` | tools/gltrace/map.c:41-49 | a fresh empty map, none when all sixteen are in use; the others are unchanged |
| `HandleMap.Maps.PutMap` | tools/gltrace/map.c:51-69 | the key now has the value; fails if and only if the map is full and does not know the key; a null key changes no association; other maps are unchanged |
| `HandleMap.Maps.GetMap` | tools/gltrace/map.c:71-85 | the value of the key, null if it has none |
| `Renaming.TableIsLatest` | tools/gltrace/retrace.c:3496-3501 | the table a history leaves maps exactly the recorded handles, each to the result of its latest creation |
| `Renaming.Renamer.Created` | tools/gltrace/retrace.c:3492-3501 | a creation goes through if and only if the handle is known or fewer than sixteen are |
| `Renaming.Renamer.Renamed` | tools/gltrace/retrace.c:3524-3527 | a mentioned handle becomes the result of its latest creation, null stays null; crashes if and only if nothing of its kind was created yet |
| `Renaming.EarlyLookup` | tools/gltrace/retrace.c:3524-3527 | even the null handle crashes a lookup before the first creation |
| `Renaming.SixteenFit` | tools/gltrace/map.c:51-69 | sixteen handles of a kind fit, and no more |
| `Renaming.RenameAll` | tools/gltrace/retrace.c:3492-3613 | the same over whole sequences of actions, up to the first fatal one |
| `HandleTrace.RecordActions` | tools/gltrace/retrace.c:3478-3613 | a decoded record causes exactly the creations and lookups of the recorded call; a null shared context causes none |
| `HandleTrace.DecodedActions` | tools/gltrace/retrace.c:3478-3613 | so does a decoded run, with every handle widened |
| `HandleTrace.FatalWidened` | tools/gltrace/map.c:51-85 | widening changes nothing about which action is the first fatal one |
| `HandleTrace.ActionsMean` | tools/gltrace/retrace.c:3478-3613 | the six calls that touch handles, by their arguments: which handle is recorded, which are looked up, of which kind and in which order |
| `HandleTrace.RenameRun` | tools/gltrace/retrace.c:3478-3613 | the renaming law for decoded files: every handle a recorded call mentions becomes the result of its latest replayed creation, up to the first action that is fatal for the recorded calls |
| `Gather.BufferSize` | tools/gltrace/gles.c:185-191 | the buffer is as large as the largest enabled array needs, and no larger |
| `Gather.PackInto` | tools/gltrace/gles.c:194-205 | the gather loops fill the buffer with the vertices of the array, one behind the other, and stay inside it |
| `Gather.PutVertexAttrib` | tools/gltrace/gles.c:180-207 | one block per enabled attribute, in order, as the grammar expects them |
| `Gather.PackedVertex` | tools/gltrace/retrace.c:302-308 | fetching vertex x from a block with stride 0 gives the bytes the original pointer and stride gave if and only if x was packed |
| `Gather.ElemSizeMeans` | tools/gltrace/gles.c:194-205 | bytes per element by size and type, and from one vertex to the next by the stride |
| `Gather.PackedByte` | tools/gltrace/gles.c:194-205 | a block byte by byte: which address of client memory each byte comes from, for every stride |
| `Gather.DrawExact` | tools/gltrace/retrace.c:2807-2814 | replay fetches the original vertices of every enabled array if and only if no index reaches the vertex count, or nothing is enabled |
| `Gather.ReplayedVertex` | tools/gltrace/retrace.c:2807-2814 | through record and replay: the value the decoder binds to an attribute yields, in elements of the size they were packed with, the original bytes for an index if and only if it is below the vertex count |
| `Formats.AgreeRun` | tools/gltrace/retrace.c:1978-1983 | over any recorded calls the sizes, types and flags the replayer keeps are those in the tracer's table |
| `Formats.PointerMeans` | tools/gltrace/gles.c:2225-2250 | glVertexAttribPointer sets one entry of the table from its arguments and no other |
| `Formats.RunTable` | tools/gltrace/gles.c:2236-2240 | in every run whose nested calls leave it alone the tracer's table is that of the closed calls |
| `Formats.RunAgrees` | tools/gltrace/gles.c:2225-2250 | both together for every orderly run of the recorder |
| `Formats.FormatExact` | tools/gltrace/retrace.c:302-308 | a draw from a block gives the original vertex if and only if it was packed and the bytes per vertex are those it was packed with |
| `Formats.ReplayedDraw` | tools/gltrace/retrace.c:2807-2814 | the drawing law with both sides' own tables: behind any recorded calls the replayer, with the sizes and types it decoded, fetches the original vertex if and only if the index is below the vertex count |
| `Gather.QuadsReplay` | tools/gltrace/gles.c:163-163 | the count taken from six indices per quad is right for quads |
| `Gather.TriangleIsLost` | tools/gltrace/gles.c:163-163 | and wrong for a single triangle, for which nothing is packed |
| `Gather.VertexCountMeans` | tools/gltrace/gles.c:163-163 | four vertices for every six indices and none for a rest, negative counts mirrored |
| `Fps.Meter.NewFrame` | tools/gltrace/retrace.c:178-208 | a report, of the recorded rate and when executing of the actual one, covers exactly min(frame, 30) frames of the whole history and comes when it is due |
| `Fps.Meter.Total` | tools/gltrace/retrace.c:210-221 | both totals run from the true first to the true last frame |
| `Fps.MeterRun` | tools/gltrace/retrace.c:167-221 | the same for every run of recorded and actual time stamps |
| `Fps.RateMeans` | tools/gltrace/retrace.c:190-201 | as long as time goes on a rate is a number of frames and the time they took |
| `Fps.SpanMeans` | tools/gltrace/retrace.c:190-201 | differences of stamps are undone by adding, whatever wraps around |
| `Fps.DueMeans` | tools/gltrace/retrace.c:185-203 | the n-th report comes n times two seconds after the first frame, at the earliest |
| `Scanner.StepConsumes` | apps/experiments/WebTerminal/src/webterminal/WebTerminal.java:1167-1341 | each character joins exactly one action or the open sequence |
| `Scanner.RunConsumes` | apps/experiments/WebTerminal/src/webterminal/WebTerminal.java:1167-1341 | conservation: the actions and the open sequence spell out the input, in order |
| `Scanner.ChunkingExact` | apps/experiments/WebTerminal/src/webterminal/WebTerminal.java:1260-1272 | feeding two chunks equals feeding them as one if and only if the cut does not fall inside a CR LF that would be taken together |
| `Scanner.SplitPairDiffers` | apps/experiments/WebTerminal/src/webterminal/WebTerminal.java:1260-1272 | a cut there makes the terminal see a line feed of its own |
| `Scanner.PairMeans` | apps/experiments/WebTerminal/src/webterminal/WebTerminal.java:1260-1272 | in one chunk the pair is taken together, except on the last line of the scroll region |
| `Scanner.PrintedMeans` | apps/experiments/WebTerminal/src/webterminal/WebTerminal.java:1259-1319 | no control character of the scanner is ever printed |
| `Scanner.WrapMeans` | apps/experiments/WebTerminal/src/webterminal/WebTerminal.java:1204-1207 | the arithmetic of parameters is that of Java ints |
| `Parameters.AnyChunks` | apps/experiments/WebTerminal/src/webterminal/WebTerminal.java:1167-1341 | any number of chunks, none but the last ending in CR, equals one |
| `Parameters.NumeralExact` | apps/experiments/WebTerminal/src/webterminal/WebTerminal.java:1204-1207 | a parameter is read as its decimal value if and only if that fits an int |
| `Parameters.ControlRoundTrip` | apps/experiments/WebTerminal/src/webterminal/WebTerminal.java:1202-1227 | ESC [ with any list of decimal or empty parameters reaches the handler with exactly that list, empty as -1, and the question mark |
| `Parameters.ControlInPieces` | apps/experiments/WebTerminal/src/webterminal/WebTerminal.java:1176-1227 | in however many pieces the sequence arrives |
| `Parameters.DecimalRoundTrip` | apps/experiments/WebTerminal/src/webterminal/WebTerminal.java:1204-1207 | a number written out in decimal reads as itself |
| `Parameters.ValuesMean` | apps/experiments/WebTerminal/src/webterminal/WebTerminal.java:1202-1227 | so does it as a parameter, and an empty one as -1 |
| `Parameters.CommandRoundTrip` | apps/experiments/WebTerminal/src/webterminal/WebTerminal.java:1229-1256 | ESC ] with a number, a text and BEL or NUL reaches the handler with that number and that text |
| `Parameters.EscapeMeans` | apps/experiments/WebTerminal/src/webterminal/WebTerminal.java:1176-1201 | any other character behind ESC ends the sequence |
| `Terminal.Handler.PushParameter` | apps/experiments/WebTerminal/src/webterminal/WebTerminal.java:1208-1217 | the parameter array is created, doubled and written in bounds and holds every parameter in order |
| `Terminal.Handler.ControlCharacter` | apps/experiments/WebTerminal/src/webterminal/WebTerminal.java:1259-1319 | control characters and CR LF pairs act as the scanner says |
| `Terminal.Handler.InsertString` | apps/experiments/WebTerminal/src/webterminal/WebTerminal.java:1167-1341 | the loop with its text runs leaves the handler and everything passed on as the scanner says, whatever sequence was open |
| `Terminal.Session` | apps/experiments/WebTerminal/src/webterminal/WebTerminal.java:428-434 | the same for whole sessions |
| `Properties.PropsOfJoin` | apps/experiments/WebTerminal/src/webterminal/WebTerminal.java:771-815 | joining properties with semicolons and splitting them again is the identity for clean properties |
| `Properties.TrimMeans` | apps/experiments/WebTerminal/src/webterminal/WebTerminal.java:771-793 | trim takes away all characters up to U+0020 at both ends and nothing else |
| `Restyling.PropsMean` | apps/experiments/WebTerminal/src/webterminal/WebTerminal.java:771-793 | style attributes are cut at their semicolons and the parts trimmed; empty parts do not count |
| `Strings.JoinMeans` | apps/experiments/WebTerminal/src/webterminal/WebTerminal.java:804-815 | joined properties stand with one semicolon between them |
| `Properties.PushMeans` | apps/experiments/WebTerminal/src/webterminal/WebTerminal.java:719-731 | a new setting goes behind all others, which keep their order |
| `Properties.StyleList.PushSimpleStyle` | apps/experiments/WebTerminal/src/webterminal/WebTerminal.java:719-731 | removes every setting of the property in place and appends the new one |
| `Properties.StyleList.SelectGraphicRendition` | apps/experiments/WebTerminal/src/webterminal/WebTerminal.java:569-618 | the parameters of an SGR sequence are applied one after the other |
| `Properties.RenditionExact` | apps/experiments/WebTerminal/src/webterminal/WebTerminal.java:569-618 | after any SGR parameters each property has exactly the setting the latest relevant parameter asks for, once |
| `Properties.RenditionClean` | apps/experiments/WebTerminal/src/webterminal/WebTerminal.java:719-731 | everything SGR can produce survives the join and split |
| `Graphics.RenditionDressed` | apps/experiments/WebTerminal/src/webterminal/WebTerminal.java:569-618 | after any SGR parameters the list holds exactly, for weight, decoration, foreground and background, what the latest parameter that decides it selects, read off the numbers: 1 and 22, 4 and 24, 7, 27, 30 to 49 |
| `Styles.PopPreserves` | apps/experiments/WebTerminal/src/webterminal/WebTerminal.java:828-853 | popping moves the cursor out of one element; every character keeps its order, classes and properties |
| `Styles.PopMeans` | apps/experiments/WebTerminal/src/webterminal/WebTerminal.java:828-853 | a copy of the element goes behind the input line exactly if something there went into it |
| `Styles.KeepSpells` | apps/experiments/WebTerminal/src/webterminal/WebTerminal.java:758-799 | the kept attributes spell out a prefix of the wanted list |
| `Styles.KeepExact` | apps/experiments/WebTerminal/src/webterminal/WebTerminal.java:758-799 | and no more is popped than has to be: the number kept is the greatest that spells out such a prefix |
| `Styles.AdjustPreserves` | apps/experiments/WebTerminal/src/webterminal/WebTerminal.java:741-821 | restyling leaves every character, its order and its enclosing properties unchanged on both sides of the cursor |
| `Styles.AdjustExact` | apps/experiments/WebTerminal/src/webterminal/WebTerminal.java:741-821 | the properties at the cursor are the wanted ones, with those of styled elements left standing, for which unstyled ones were popped, between the kept and the new; so they are exactly the wanted ones if and only if no property is left over |
| `Styles.StyledLevelsSuffice` | apps/experiments/WebTerminal/src/webterminal/WebTerminal.java:800-803 | which is so when the popped elements are all styled |
| `Styles.PlainElementDefeats` | apps/experiments/WebTerminal/src/webterminal/WebTerminal.java:800-803 | and is not for a plain element inside one with any property |
| `Restyling.Page.ParentStyles` | apps/experiments/WebTerminal/src/webterminal/WebTerminal.java:744-753 | the walk to the body collects the present style attributes |
| `Restyling.Page.Spelled` | apps/experiments/WebTerminal/src/webterminal/WebTerminal.java:771-793 | the property loop tells whether an attribute continues the wanted list and by how much |
| `Restyling.Page.Compare` | apps/experiments/WebTerminal/src/webterminal/WebTerminal.java:758-800 | the comparison loop finds how many elements to leave and how many properties to keep |
| `Restyling.Page.PopStyle` | apps/experiments/WebTerminal/src/webterminal/WebTerminal.java:828-853 | the siblings behind the input line move into a copy of the element |
| `Restyling.Page.AdjustStyle` | apps/experiments/WebTerminal/src/webterminal/WebTerminal.java:741-821 | the loops compute the specified document |
| `Rendering.SessionRenders` | apps/experiments/WebTerminal/src/webterminal/WebTerminal.java:1343-1376 | however SGR sequences and printed runs alternate, every printed character is shown with exactly the properties current when it was printed |
| `Display.OutputsShow` | apps/experiments/WebTerminal/src/webterminal/WebTerminal.java:1343-1376 | how the scanner cuts text into runs does not matter to what is shown |
| `Display.ScanSegments` | apps/experiments/WebTerminal/src/webterminal/WebTerminal.java:1176-1227 | raw text and SGR sequences are scanned to just those characters and parameters |
| `Display.ShowChunks` | apps/experiments/WebTerminal/src/webterminal/WebTerminal.java:1167-1376 | output of text and SGR sequences in any chunks, through scanner, style list and spans, shows what its actions say |
| `Display.ShowRaw` | apps/experiments/WebTerminal/src/webterminal/WebTerminal.java:1167-1376 | the rendering law on raw characters: text and SGR sequences, cut anywhere, show each character with the properties selected in front of it |
| `Graphics.ShowDressed` | apps/experiments/WebTerminal/src/webterminal/WebTerminal.java:1167-1376 | the same by parameters: raw text and SGR sequences, cut anywhere, add the printed characters in order, each with exactly the properties the parameters in front of it select |
| `Graphics.SequenceMeans` | apps/experiments/WebTerminal/src/webterminal/WebTerminal.java:1202-1227 | an SGR sequence as it is written |
| `Display.SelectMeans` | apps/experiments/WebTerminal/src/webterminal/WebTerminal.java:569-618 | exactly the control sequences that end in m select, with a question mark or without |
| `Positions.LineMeans` | apps/experiments/WebTerminal/src/webterminal/WebTerminal.java:1820-1829 | a line is a number of line feeds, carriage returns, form feeds and breaks |
| `Positions.ColumnMeans` | apps/experiments/WebTerminal/src/webterminal/WebTerminal.java:1820-1829 | without tabs a column is a number of characters other than the zero-width space |
| `Positions.TabMeans` | apps/experiments/WebTerminal/src/webterminal/WebTerminal.java:1145-1152 | a tab leads to the least multiple of eight above the column, and what follows counts from there |
| `Positions.NewLineMeans` | apps/experiments/WebTerminal/src/webterminal/WebTerminal.java:1849-1867 | behind the end of a line columns start again at zero |
| `Positions.OrderMeans` | apps/experiments/WebTerminal/src/webterminal/WebTerminal.java:1601-1614 | the test for a fast start is a total order of positions in which content leads forward |
| `Positions.ArrivalIsTrue` | apps/experiments/WebTerminal/src/webterminal/WebTerminal.java:1635-1760 | the position behind the content in front of the cursor after a move |
| `Positions.RecordedGoalExact` | apps/experiments/WebTerminal/src/webterminal/WebTerminal.java:1739-1760 | after padding, recording the goal is right if and only if the walk did not end above the goal line, or the goal column is zero, or the last line was empty |
| `Positions.ReachedExact` | apps/experiments/WebTerminal/src/webterminal/WebTerminal.java:1671-1760 | a walk that meets the goal with its last item stands elsewhere if and only if that is a tab that stops at another column, or a newline and the goal column is negative |
| `Positions.FastStartExact` | apps/experiments/WebTerminal/src/webterminal/WebTerminal.java:1601-1614 | starting at the cursor and starting at home stop at the same line and column with the same padding; at the same place if and only if the move is not to the cursor's own place behind a zero-width character |
| `Walking.EnterMoves` | apps/experiments/WebTerminal/src/webterminal/WebTerminal.java:1709-1721 | entering a span changes neither what is in front of the cursor nor what is behind it |
| `Walking.PassTextMoves` | apps/experiments/WebTerminal/src/webterminal/WebTerminal.java:1659-1705 | merging and splitting text nodes only moves the passed characters to the front |
| `Walking.InsertTextMoves` | apps/experiments/WebTerminal/src/webterminal/WebTerminal.java:1446-1454 | appended text goes directly in front of the cursor, the rest is unchanged |
| `Walking.TextMerged` | apps/experiments/WebTerminal/src/webterminal/WebTerminal.java:1659-1705 | passing text leaves one text node in front of the cursor and none directly in front of that |
| `Walking.TextJoined` | apps/experiments/WebTerminal/src/webterminal/WebTerminal.java:1446-1454 | inserted text joins a text node that ends there |
| `Moving.MakeSpaces` | apps/experiments/WebTerminal/src/webterminal/WebTerminal.java:1887-1894 | exactly count spaces |
| `Moving.WalkText` | apps/experiments/WebTerminal/src/webterminal/WebTerminal.java:1671-1705 | the character loop stops where the goal is met, pads a short line, or ends with the text |
| `Moving.GoUp` | apps/experiments/WebTerminal/src/webterminal/WebTerminal.java:1737-1773 | leaving elements that end, or appending lines and spaces at the end of the document |
| `Moving.Walk` | apps/experiments/WebTerminal/src/webterminal/WebTerminal.java:1635-1774 | from any known place the main loop terminates with the specified content in front of the cursor and behind it |
| `Cursor.HomeKeepsContent` | apps/experiments/WebTerminal/src/webterminal/WebTerminal.java:1619-1632 | taking the input line out of the tree loses nothing |
| `Cursor.RecordedExact` | apps/experiments/WebTerminal/src/webterminal/WebTerminal.java:1739-1790 | the recorded line and column are the true ones if and only if the stop is honest: it is not at the end of the document above the goal line with a column left over, and the last thing in the document does not carry it beyond the goal, as a tab that stops elsewhere does, or a newline if the goal column is negative |
| `Cursor.OnlyBlanksAdded` | apps/experiments/WebTerminal/src/webterminal/WebTerminal.java:1593-1792 | a move adds spaces and newlines at the cursor and nothing else |
| `Cursor.Screen.MoveTo` | apps/experiments/WebTerminal/src/webterminal/WebTerminal.java:1593-1792 | from the cursor or from home, with the cache right afterwards under that condition if it was right or unknown before |
| `Cursor.StartsAgree` | apps/experiments/WebTerminal/src/webterminal/WebTerminal.java:1601-1614 | fast and slow start on documents |
| `Cursor.MoveBelowLastLine` | apps/experiments/WebTerminal/src/webterminal/WebTerminal.java:1739-1760 | a move below a last line that is not empty adds too few spaces and records the wrong column |
| `Cursor.TabAtTheEnd` | apps/experiments/WebTerminal/src/webterminal/WebTerminal.java:1739-1760 | so does a move into a tab at the very end |
| `Cursor.NegativeColumn` | apps/experiments/WebTerminal/src/webterminal/WebTerminal.java:1739-1760 | and so does a move to a negative column behind a newline at the very end |
| `Touring.RunExact` | apps/experiments/WebTerminal/src/webterminal/WebTerminal.java:1593-1792 | over any run of moveTo, each on the document and the cache the one before left, the recorded positions are right up to any point if and only if all moves up to there are honest |
| `Touring.HomeHeals` | apps/experiments/WebTerminal/src/webterminal/WebTerminal.java:1601-1632 | a move that starts from home records the true position if and only if it is honest, however wrong the cache was before |
| `Touring.RunPads` | apps/experiments/WebTerminal/src/webterminal/WebTerminal.java:1593-1792 | no move of a run loses, moves or restyles anything; it only pads |
| `Touring.Tour` | apps/experiments/WebTerminal/src/webterminal/WebTerminal.java:1593-1792 | any moves on a terminal are such a run, step by step, with both consequences |
| `Delta.PackRoundTrip` | apps/experiments/WebTerminal/src/webterminal/WebTerminal.java:183-187 | line and column below 2^31 and 2^30 survive packing, with and without the stop bit, in both ways of unpacking |
| `Delta.DeltaNode` | apps/experiments/WebTerminal/src/webterminal/WebTerminal.java:1840-1885 | the recursive walk over a node adds the position of its content, CR LF inside a text node being one line |
| `Delta.TextLoses` | apps/experiments/WebTerminal/src/webterminal/WebTerminal.java:1849-1867 | the walk over a text is short of its lines by the number of CR LF pairs in it |
| `Delta.UpdateCursorCache` | apps/experiments/WebTerminal/src/webterminal/WebTerminal.java:183-187 | for every document whose positions fit, the walk finds the place of the cursor, but for one line for each CR LF inside a text node in front of it; so exactly, if and only if there is none |
| `Delta.PairIsOneLine` | apps/experiments/WebTerminal/src/webterminal/WebTerminal.java:1859-1864 | a text with such a pair, behind which the walk is a line short |
| `Delta.MoveAndWalk` | apps/experiments/WebTerminal/src/webterminal/WebTerminal.java:1836-1885 | what a move records and what the walk finds afterwards agree if and only if the stop was honest |
| `Grid.EdgeOnce` | apps/toys/FX8-3DFeatures/src/fx83dfeatures/PNTMeshViewer.java:195-268 | no directed side occurs in two faces |
| `Grid.OtherFace` | apps/toys/FX8-3DFeatures/src/fx83dfeatures/PNTMeshViewer.java:195-268 | a side occurs reversed in another face if and only if it is not on the border |
| `Grid.RowByRow` | apps/toys/FX8-3DFeatures/src/fx83dfeatures/PNTMeshViewer.java:98-98 | points are numbered row by row |
| `Grid.DiagonalMeans` | apps/toys/FX8-3DFeatures/src/fx83dfeatures/PNTMeshViewer.java:195-262 | both faces of a cell share its diagonal from the first to the last point |
| `Surface.FacesLieFlat` | apps/toys/FX8-3DFeatures/src/fx83dfeatures/PNTMeshViewer.java:63-108 | seen from above every face is half a cell, wound the same way, whatever the function value |
| `Surface.NormalsAgree` | apps/toys/FX8-3DFeatures/src/fx83dfeatures/PNTMeshViewer.java:63-69 | so every face has a direction, and all are on the same side, if and only if the scale is not zero |
| `Surface.FacesCover` | apps/toys/FX8-3DFeatures/src/fx83dfeatures/PNTMeshViewer.java:63-108 | the areas of all faces, seen from above, add up to the area of the square, for every function value |
| `Surface.TextureFits` | apps/toys/FX8-3DFeatures/src/fx83dfeatures/PNTMeshViewer.java:181-184 | texture coordinates lie between 0 and 1 |
| `Surface.NormalMeans` | apps/toys/FX8-3DFeatures/src/fx83dfeatures/PNTMeshViewer.java:63-69 | a normal is perpendicular to two sides of its face, and of length one if the inverse length is one |
| `Surface.CornersPlaced` | apps/toys/FX8-3DFeatures/src/fx83dfeatures/PNTMeshViewer.java:90-108 | the grid runs from -10 to 10 in both directions, scaled |
| `Surface.OnGraph` | apps/toys/FX8-3DFeatures/src/fx83dfeatures/PNTMeshViewer.java:77-108 | every point lies on the graph of the function over its place, which its texture coordinates tell |
| `Mesh.TriangleMesh.PlacePoints` | apps/toys/FX8-3DFeatures/src/fx83dfeatures/PNTMeshViewer.java:167-186 | the nested loops of the first build fill every point and texture coordinate in bounds |
| `Mesh.TriangleMesh.SetPoints` | apps/toys/FX8-3DFeatures/src/fx83dfeatures/PNTMeshViewer.java:90-108 | the nested loops of an update fill every point in bounds |
| `Mesh.TriangleMesh.ComputeNormal` | apps/toys/FX8-3DFeatures/src/fx83dfeatures/PNTMeshViewer.java:63-69 | the normalised cross product for the three points of a face |
| `Mesh.TriangleMesh.PutCell` | apps/toys/FX8-3DFeatures/src/fx83dfeatures/PNTMeshViewer.java:195-268 | both faces of a cell and their normals |
| `Mesh.TriangleMesh.constructor` | apps/toys/FX8-3DFeatures/src/fx83dfeatures/PNTMeshViewer.java:150-268 | points, texture coordinates, normals and faces show the function |
| `Mesh.TriangleMesh.ComputeMesh` | apps/toys/FX8-3DFeatures/src/fx83dfeatures/PNTMeshViewer.java:82-148 | after an update in place they show the new one |
| `Mesh.TriangleMesh.NormalsOnOneSide` | apps/toys/FX8-3DFeatures/src/fx83dfeatures/PNTMeshViewer.java:63-148 | in a mesh that shows any function value every stored normal points to the same side |
| `Mesh.TriangleMesh.OrientedManifold` | apps/toys/FX8-3DFeatures/src/fx83dfeatures/PNTMeshViewer.java:195-268 | on the numbers in the face array: indices in range, each directed side in one face, each inner side in exactly one more face the other way |
| `Mesh.TriangleMesh.FaceNumbers` | apps/toys/FX8-3DFeatures/src/fx83dfeatures/PNTMeshViewer.java:217-262 | points and texture coordinates of a face go by the same numbers, its normals by its own |
| `Mesh.AnimateAndRebuild` | apps/toys/FX8-3DFeatures/src/fx83dfeatures/PNTMeshViewer.java:82-268 | after any sequence of updates all four arrays equal those built now |
| `Slides.AheadBehind` | apps/toys/FXSlideShow/src/fxslideshow/Files.java:112-134 | forward and backward undo each other |
| `Slides.LoopingIndex` | apps/toys/FXSlideShow/src/fxslideshow/Files.java:140-171 | a looping show is at the net number of moves modulo the number of files |
| `Slides.LinearWalk` | apps/toys/FXSlideShow/src/fxslideshow/Files.java:140-171 | a list that does not loop is walked file by file up to its ends |
| `Slides.MoveKeeps` | apps/toys/FXSlideShow/src/fxslideshow/FXSlideShow.java:419-479 | after a move the current loader is for the current file, prefetched ones for its neighbours, none is cancelled or shared; and the busy indicator is up if and only if the loader that became current is not done |
| `Slides.StepKeepsInv` | apps/toys/FXSlideShow/src/fxslideshow/FXSlideShow.java:82-479 | all of this holds whatever happens: moves, and loaders that run and report at any time |
| `Slides.RunIndex` | apps/toys/FXSlideShow/src/fxslideshow/FXSlideShow.java:419-479 | a show is at the file its moves lead to |
| `Slides.QuietExact` | apps/toys/FXSlideShow/src/fxslideshow/FXSlideShow.java:125-141 | until the next move the picture comes up exactly when the current loader reports success, being done; no other loader, dropped or prefetched, changes what is seen |
| `Slides.StartExact` | apps/toys/FXSlideShow/src/fxslideshow/FXSlideShow.java:647-655 | before the first move the busy indicator is up until the first loader delivers |
| `Slides.MoveExact` | apps/toys/FXSlideShow/src/fxslideshow/FXSlideShow.java:419-479 | after any events and a move, the busy indicator is up if and only if the loader that became current was not done then and has not delivered since; otherwise the picture is that of the file the index names |
| `Slides.Settles` | apps/toys/FXSlideShow/src/fxslideshow/FXSlideShow.java:82-479 | after any events the indicator goes down and the file the index names is shown as soon as its loader finishes and reports success |
| `Slides.WindowExact` | apps/toys/FXSlideShow/src/fxslideshow/FXSlideShow.java:419-479 | the window after a move, slot by slot: a loader for the next file is made if and only if there is one, the one that was current is kept or not, the prefetched one becomes current |
| `Slides.StartWindow` | apps/toys/FXSlideShow/src/fxslideshow/FXSlideShow.java:647-655 | at the start a loader for the second file is made if and only if there is one |
| `Slides.DropExact` | apps/toys/FXSlideShow/src/fxslideshow/FXSlideShow.java:444-459 | exactly the running loaders a move leaves behind are cancelled, and nothing else happens to any |
| `Slides.ShownAtOnce` | apps/toys/FXSlideShow/src/fxslideshow/FXSlideShow.java:419-479 | once the loader for the next file has finished, a move to it shows the picture at once |
| `Slides.LeftBehind` | apps/toys/FXSlideShow/src/fxslideshow/FXSlideShow.java:444-459 | a loader that was started, has not finished and is left behind is cancelled |
| `SlideShow.Files.SetLoop` | apps/toys/FXSlideShow/src/fxslideshow/Files.java:184-188 | next and previous indices follow the loop setting |
| `SlideShow.Files.Next` | apps/toys/FXSlideShow/src/fxslideshow/Files.java:140-152 | one file forward, or none at the end of a list that does not loop |
| `SlideShow.Files.Previous` | apps/toys/FXSlideShow/src/fxslideshow/Files.java:158-171 | one file back, likewise |
| `SlideShow.Show.constructor` | apps/toys/FXSlideShow/src/fxslideshow/FXSlideShow.java:647-655 | the objects start as the machine does, with loaders for the first file and the next |
| `SlideShow.Show.Progress` | apps/toys/FXSlideShow/src/fxslideshow/FXSlideShow.java:101-123 | a loader that starts or finishes does so in the machine, and nothing is seen of it |
| `SlideShow.Show.Report` | apps/toys/FXSlideShow/src/fxslideshow/FXSlideShow.java:125-155 | loader and screen change as the machine says: a picture is shown if its loader is done, succeeds and is the current one |
| `SlideShow.Show.Shift` | apps/toys/FXSlideShow/src/fxslideshow/FXSlideShow.java:444-459 | the loader on the near side is dropped, the current one kept or dropped, the far one taken; no cancelled loader stays |
| `SlideShow.Show.NextImage` | apps/toys/FXSlideShow/src/fxslideshow/FXSlideShow.java:419-479 | cancelling, shifting, showing and prefetching on the array of tasks is the move of the machine |
| `SlideShow.Play` | apps/toys/FXSlideShow/src/fxslideshow/FXSlideShow.java:82-479 | over every sequence of events the objects show exactly what the machine shows after each of them: the file the index names, unless the busy indicator is up |

## Left out

- macOS-only calls and the platform layers: mmap, open, truncate, pthread and dlsym are a file of bytes and a lock with an owner and a depth.
- `glGetAttachedShaders` (its list is consumed only when executing), `eglGetConfigAttrib` (its arguments are read in unspecified order) and the calls whose recorder or decoder is not implemented.
- The sizes of individual uniform, texture and index blocks: blocks are length prefixed and treated as given; floats are 32-bit patterns.
- `eglChooseConfig` with a null array and a positive size, which reads through a null pointer; attribute indices of 128 and above, which write outside the attribute tables on both sides.
- Nested `glVertexAttribPointer` calls, which change the tracer's table and leave no record, are outside `Formats.RunTable`.
- Integer overflow of the block sizes in `putVertexAttrib`: block sizes are assumed to fit an int, as the length prefix does.
- A draw record takes its shape from the state tracked when it is opened; a binding stored by another thread while the record is being put would mix two such states; the runs do not contain that, but `Shapes.TraceExact` holds for records made under any state, mixed ones included.
- A pointer width other than 4 or 8 in a header is treated like a file that is no trace; the version numbers behind the magic word only produce a message. The byte order is little-endian.
- What the replayer prints and executes, PNG output, native windows, and reading on after the end of a trace.
- Erasing, line insertion and deletion, scrolling, wrapping at a column, prompts, error spans and HTML injection in the terminal; `insertSimpleOutput` is taken in insert mode, and the output position is the input line itself.
- `moveTo` without padding, embedded `a`, `img` and `object` elements, nested block elements, carriage returns inside document text in `moveTo` (but not in `delta2D`), wrapping at a column, and negative goal lines; characters are Unicode scalar values rather than UTF-16 units.
- Smoothing groups and the rounding of floats in the mesh: coordinates are real numbers, and sin(r) / r and the inverse of a length are arbitrary functions.
- The reload key, shuffling, transitions and the contents of images; loaders may be started, finished and reported at any time, and the broken picture counts as the picture of its file.
