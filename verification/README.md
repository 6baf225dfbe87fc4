# A verified model of the terminal program

The repository is a small terminal runtime in Rust: an event loop reads bytes from a
TTY, a parser turns them into keycodes, handlers update a model, commands run on worker
threads, and the model is written back to the screen. This project models that path in
Dafny and proves what it promises.

| file | content |
|---|---|
| Bytes.dfy | bytes, options, concatenation and searching |
| KeyCodes.dfy | what a keycode is and how it is classified |
| TokenTheory.dfy | the language of the parser: decodability, dead queues, draining in portions |
| KeyCodeParsing.dfy | the parser, a class over a byte queue and an undo log |
| BufSpec.dfy | null-terminated buffers as values: the meaning of every buffer operation |
| Buffers.dfy | the same operations on a heap of hand-managed blocks and aliased headers |
| Decimal.dfy | parsing and printing of decimal numerals |
| Handshake.dfy | initialisation: accumulating and decoding the cursor position report |
| Messages.dfy | messages, commands and handlers; what publishing and draining mean |
| Pipeline.dfy | the running program as a step protocol over threads, mutexes and a channel |
| PipelineSafety.dfy | invariants of every reachable state, deadlock freedom |
| Publication.dfy | every message reaches its handler once and in order, on any thread |
| Quiescence.dfy | once terminate has been called the program runs out of work |
| EndToEnd.dfy | the handler of main.rs, from the bytes typed to the frames written, and its end |
| CallbackRuns.dfy | the callbacks and commands, taken without interference, as runs of the protocol |
| Sessions.dfy | callbacks and workers one after the other as a function of what happens |
| Programs.dfy | the broker, the callbacks of run and the program of main.rs as imperative code |

## How the model is set up

- The parser theorems hold for any set of digit bytes without `;` and `R`. The code
  accepts '1' to '8' only, because it compares with `<=` and `>=`; `CODED_DIGITS` is that
  set. Initialisation therefore fails for every cursor position with a 0 or a 9 in it.
  `Handshake.ReportOfPosition` gives the exact condition, `Handshake.RowTenFails` one
  such position, and `Handshake.DecimalDigitsDecodeAll` what holds for '0' to '9'.
- The head byte is never read again inside the loop of `parse_keycode`, so a head of 0x80
  or more makes it spin. Methods that parse require an ASCII head. In the theory such a
  queue counts as dead.
- A `Buf` is a handle (a number) on a header; copies of a handle alias. Headers are
  numbered by creation and never freed, as in the original. Blocks live in a map from
  addresses to bytes; the allocator is used through contracts that leave it free to pick
  any unused address, and to move or not to move a block it resizes.
- The pipeline has one loop thread and any number of workers. A handler and a view take
  time: a thread reads the model when it has locked what it needs, and what it computes from
  that takes effect with a later step. The steps leave open what a handler does to the
  model and which command it returns; the runs in which the handlers are those of a given
  program are singled out by `Pipeline.ObeyingRun`. In main.rs there is one handler,
  `EndToEnd.FrameUpdate`. A command other than Terminate makes finitely many lock requests
  and stop calls, takes context before inner, and answers with some message. Commands of
  this kind may call terminate, and may answer with any message.
- The state of the pipeline carries logs of what has happened: messages sent, received and
  handled (and on which thread), commands returned and accepted, calls of terminate, check
  callbacks started, attempts to write and frames written. The theorems relate these logs.
- Three layers describe the callbacks: the steps of the pipeline, a function of events
  (`Sessions.AfterEvents`), and imperative code (`Programs.Program`). The code computes the
  function, and every value of the function is reached by steps, in any program.
- `isize` has 64 bits. A frame is the bytes of the two buffers passed to one write, with
  their terminators.
- Assumed of the environment: queued work runs once, on some worker; callbacks run on the
  loop thread; a stop call is atomic; reads do not leave a byte of 0x80 or more at the
  head of the parser's queue.

## Model

| member | source | states |
|---|---|---|
| KeyCodes.SingleByteKey | src/rust/tea/keycode.rs:52-173 | for every ASCII byte other than NUL and ESC: the code is that byte, the key is named exactly for bytes 7 to 13 and 127, control is held exactly below 32 and for 127, alt never |
| KeyCodes.LetterShift | src/rust/tea/keycode.rs:35-44 | upper-case letters have the shift flag and the lower-case ones do not |
| KeyCodes.SymbolShift | src/rust/tea/keycode.rs:35-44 | of the two characters on each other key of a US keyboard the second has the shift flag and the first does not |
| KeyCodes.ReportKey | src/rust/tea/keycode.rs:129-140 | a report, in bytes, is no named key and has no flag |
| TokenTheory.TokenLenExact | src/rust/tea/keycode.rs:47-179 | the recogniser answers n if and only if the queue starts with a code of length n: one ASCII byte other than NUL and ESC, or a whole report |
| TokenTheory.ByteIsKey | src/rust/tea/keycode.rs:50-51 | a byte is a key at once, whatever follows, exactly when it is ASCII and neither 0 nor 0x1b |
| TokenTheory.PrefixFree | src/rust/tea/keycode.rs:47-179 | no keycode's code is a proper prefix of another |
| TokenTheory.TokenStable | src/rust/tea/keycode.rs:116-141 | bytes that arrive later never change a key that is already complete |
| TokenTheory.Trichotomy | src/rust/tea/keycode.rs:116-127 | every queue starts with a code, or can be completed to one, or is dead, and exactly one of these; dead is a condition on the bytes present |
| TokenTheory.DeadForever | src/rust/tea/keycode.rs:175-179 | from a dead queue no input ever yields another keycode, and every byte fed stays queued |
| TokenTheory.DrainConserves | src/rust/tea/program/mod.rs:165-167 | the codes emitted by a drain followed by what is left are the queue |
| TokenTheory.DrainStops | src/rust/tea/program/mod.rs:165-167 | a drain emits only codes, at most one a byte, and stops only where no code is complete |
| TokenTheory.ResidueHead | src/rust/tea/keycode.rs:175-179 | a drain stops at an empty queue, a NUL, a non-ASCII byte, or an ESC with no complete report |
| TokenTheory.DrainSplit | src/rust/tea/keycode.rs:190-192 | draining, then feeding more and draining again, is draining everything at once |
| TokenTheory.DrainRoundTrip | src/rust/tea/keycode.rs:47-179 | draining the concatenation of any list of codes returns that list and empties the queue |
| TokenTheory.UniqueDecoding | src/rust/tea/keycode.rs:47-179 | two lists of keys with the same bytes are equal |
| TokenTheory.UseIsPrefixOfDrain | src/rust/tea/keycode.rs:47-210 | for any interleaving of buffer and parse_keycode: bytes are conserved, and what was emitted is an initial part of the tokenisation of the whole stream |
| TokenTheory.ChunkingIndependence | src/rust/tea/program/mod.rs:160-167 | for every split into chunks and every queue: buffering and draining chunk by chunk emits the same codes and leaves the same queue as draining the whole stream, if and only if there is a chunk or the queue starts with no complete key |
| KeyCodeParsing.KeyCodeParser.ParseKeycode | src/rust/tea/keycode.rs:47-179 | returns the classified code at the head and removes it, or returns nothing and leaves the queue as it was |
| KeyCodeParsing.KeyCodeParser.ParseReport | src/rust/tea/keycode.rs:116-127 | consumes a whole report if one is complete at the head, and loses no byte otherwise |
| KeyCodeParsing.KeyCodeParser.Rollback | src/rust/tea/keycode.rs:175-178 | restores the queue from the undo log, in the original order |
| KeyCodeParsing.KeyCodeParser.ParseNum | src/rust/tea/keycode.rs:181-188 | moves the longest run of coded digits to the undo log |
| KeyCodeParsing.KeyCodeParser.Buffer | src/rust/tea/keycode.rs:190-192 | appends a buffer without its terminator |
| KeyCodeParsing.KeyCodeParser.Match | src/rust/tea/keycode.rs:194-200 | consumes one byte, if there is one, and says whether it is the expected one |
| KeyCodeParsing.KeyCodeParser.Advance | src/rust/tea/keycode.rs:202-210 | moves the front byte to the undo log; 0 stands for an empty queue |
| BufSpec.AppendConcatenates | src/rust/uv/buf.rs:131-146 | append yields the concatenated contents and a terminator exactly when its handles do not alias (or the content is empty), empties its argument and touches no other buffer |
| BufSpec.JoinIsConcatenation | src/rust/uv/buf.rs:107-129 | join yields the contents of the first occurrence of each buffer, in order |
| BufSpec.JoinDistinct | src/rust/uv/buf.rs:107-129 | for distinct buffers the result is all contents in the order of the arguments, and one NUL |
| BufSpec.ConsumeStore | src/rust/uv/buf.rs:111-123 | after join every argument is uninitialised and every other buffer unchanged |
| BufSpec.JoinTurn | src/rust/uv/buf.rs:111-123 | each turn of the loop of join copies within bounds, and skips a buffer that an earlier alias emptied |
| BufSpec.JoinEqualsFoldedAppend | src/rust/uv/buf.rs:107-146 | join equals append folded over its arguments from a new buffer if and only if one of them is initialised |
| BufSpec.ResizeKeepsContent | src/rust/uv/buf.rs:148-166 | resizing keeps content and terminator exactly when the new length exceeds the content; otherwise the terminator is lost |
| BufSpec.ResizeTwice | src/rust/uv/buf.rs:49-69 | two resizes equal the last one exactly when the first cut nothing but zeros that the second would show |
| BufSpec.StepWellFormed | src/rust/uv/buf.rs:193-200 | every operation keeps all buffers null-terminated, so that non_null_len succeeds, unless it shrinks a buffer into its content; then it does not |
| BufSpec.CleanRunIsAllowed | src/rust/uv/buf.rs:84-166 | a program of buffer operations that never shrinks a buffer into its content never meets a buffer without a terminator: all its appends and joins are allowed, from valid handles and lengths alone |
| Buffers.MoveHeader | src/rust/uv/buf.rs:148-166 | giving a header an unowned block, or its own resized, keeps ownership one to one and changes that buffer only |
| Buffers.ClearHeader | src/rust/uv/buf.rs:118-120 | freeing a base and zeroing its header keeps ownership: nothing dangles and nothing leaks |
| Buffers.LengthCast | src/rust/uv/buf.rs:100-105 | the cast of a length to u32 keeps ownership if and only if the length is below 0x1_0000_0000 |
| Buffers.Memory.New | src/rust/uv/buf.rs:85-98 | adds an uninitialised buffer |
| Buffers.Memory.NewWithLen | src/rust/uv/buf.rs:100-105 | adds a zeroed buffer of the given length |
| Buffers.Memory.From | src/rust/uv/buf.rs:295-313 | adds a buffer of the bytes and a terminator |
| Buffers.Memory.Clone | src/rust/uv/buf.rs:232-249 | adds a buffer with the same bytes on a block of its own |
| Buffers.Memory.Resize | src/rust/uv/buf.rs:148-166 | cuts or zero-pads one buffer to the new length |
| Buffers.Memory.Append | src/rust/uv/buf.rs:131-146 | does to the heap what append means on values, aliased or not; every access is to a live block and in bounds, the freed base is freed once |
| Buffers.Memory.Join | src/rust/uv/buf.rs:107-129 | does to the heap what join means on values, with repeated handles allowed |
| Buffers.Memory.NonNullLen | src/rust/uv/buf.rs:193-200 | the number of bytes before the first NUL |
| Buffers.Memory.ReallocBase | src/rust/uv/buf.rs:49-69 | keeps the common prefix and zero-fills the rest |
| Buffers.Memory.DeallocBase | src/rust/uv/buf.rs:71-80 | frees a block that is live and has the stated size |
| Buffers.Memory.Execute | src/rust/uv/buf.rs:84-166 | any program of buffer operations keeps the ownership invariant and computes what it means on values |
| Decimal.ValueOfPrint | src/rust/tea/program/mod.rs:199-202 | printing a number then reading it back is the identity |
| Decimal.PrintOrdered | src/rust/tea/program/mod.rs:199-202 | numerals are strings of the bytes 0x30 to 0x39, and are ordered, by length and then bytewise, as their numbers are; so each digit stands for its value |
| Decimal.PrintOfValue | src/rust/tea/program/mod.rs:116-122 | reading digits then printing gives them back if and only if they have no superfluous leading zero |
| Decimal.CodedIsCanonical | src/rust/tea/keycode.rs:181-188 | the digits that the parser accepts never have one |
| Handshake.DecodeExact | src/rust/tea/program/mod.rs:113-128 | init yields (r, c) if and only if the buffer starts with a report whose fields are numerals of r and c within isize |
| Handshake.HomeExactly | src/rust/tea/program/mod.rs:113-128 | in bytes: home is (r, c) if and only if the buffer starts with ESC [, the numeral of r, a semicolon, the numeral of c and R, where both are below 2^63 and have no digit 0 or 9 |
| Handshake.DecodeFailures | src/rust/tea/program/mod.rs:115-128 | exactly when init fails for want of a key, panics on a key that is no report, or fails on a field |
| Handshake.ReportOfPosition | src/rust/tea/program/mod.rs:113-128 | the report of a position is decoded to it if and only if the parser accepts all its digits; otherwise init fails and the queue is dead |
| Handshake.CodedPositions | src/rust/tea/keycode.rs:181-188 | as coded, the report of a position is decoded to it if and only if no digit of it is a 0 or a 9 |
| Handshake.ReportOfNumerals | src/rust/tea/program/mod.rs:113-128 | the same for any two numerals within isize, leading zeros included |
| Handshake.RowTenFails | src/rust/tea/keycode.rs:181-188 | as coded, the report of row 10 is rejected |
| Handshake.DecimalDigitsDecodeAll | src/rust/tea/keycode.rs:181-188 | with all ten digits accepted, every position would be decoded |
| Handshake.StopsAtFinalR | src/rust/tea/program/mod.rs:96-106 | for any chunks: all bytes received are kept, each chunk up to its first NUL, and the callback stops at the first chunk after which the text ends with R, wherever other Rs are, or panics at the first after which it is still empty |
| Handshake.AnyChunkingStops | src/rust/tea/program/mod.rs:96-106 | a NUL-free text whose only R is its last byte, split into non-empty chunks, stops the callback exactly at its last chunk |
| Handshake.HandshakeAnyChunking | src/rust/tea/program/mod.rs:93-128 | for every split of the bytes of the report of (r, c) into non-empty chunks the report is kept whole, and home is (r, c) if and only if no digit is 0 or 9 |
| Handshake.CursorEcho | src/rust/tea/program/mod.rs:199-202 | the cursor command written for home is the report received with its final byte replaced |
| Handshake.InitReader.OnRead | src/rust/tea/program/mod.rs:96-106 | the report buffer holds the bytes received, each chunk cut at its first NUL, and one terminator; reading stops when the last byte is R |
| Handshake.InitReader.Run | src/rust/tea/program/mod.rs:94-111 | delivering chunks until the callback stops accumulates what ReadAll says |
| Handshake.InitReader.Finish | src/rust/tea/program/mod.rs:113-128 | decodes home from the report and leaves the bytes after the report in the parser |
| Handshake.Init | src/rust/tea/program/mod.rs:93-128 | the whole of init, from chunks to home and parser |
| PipelineSafety.LocksStep | src/rust/tea/program/update.rs:30-51 | every step keeps: a mutex is owned by exactly the thread that is inside it |
| PipelineSafety.MutualExclusion | src/rust/tea/program/mod.rs:194-206 | no two handlers overlap, and no view overlaps a handler or another view |
| PipelineSafety.Undisturbed | src/rust/tea/program/update.rs:30-32 | while a thread is in a handler or a view, no step of another thread changes the model |
| PipelineSafety.SeenStep | src/rust/tea/program/update.rs:30-32 | every step keeps: what a thread in a handler or a view has read is still the model |
| PipelineSafety.NoRelock | src/rust/tea/program/command.rs:10-15 | no thread waits for a mutex it holds, nor for context while holding inner |
| PipelineSafety.DeadlockFree | src/rust/tea/program/update.rs:29-51 | for any handlers and any number of workers: while some thread is unfinished, some unfinished thread has a step that does what the handlers say |
| PipelineSafety.QueueStep | src/rust/tea/program/update.rs:32-46 | every command a handler returned is being queued, was refused, or was accepted, in order |
| PipelineSafety.StopsStep | src/rust/tea/program/command.rs:10-15 | every step keeps: reading and checking are on exactly until some thread has called terminate, and the thread of a Terminate command has called it exactly once by the time its call is over, and not before |
| PipelineSafety.ChecksStep | src/rust/tea/program/mod.rs:182-213 | every check callback, unless it is still on its way there, has made one attempt to write a frame; each attempt that did not fail wrote one, and it is pending until its write has ended |
| PipelineSafety.ReportedStep | src/rust/tea/program/update.rs:33-46 | the errors sent for refused commands are, in order, those that queue_work returned, and the errors sent for frames those that the writes returned |
| PipelineSafety.LexedStep | src/rust/tea/program/mod.rs:160-172 | the keypresses sent are an initial part of the tokenisation of all input, and the parser holds the rest |
| PipelineSafety.Reachable | src/rust/tea/program/mod.rs:150-219 | all these invariants hold in every state reachable by any interleaving |
| Publication.PublishedStep | src/rust/tea/program/update.rs:20-52 | every step keeps, for each thread: the messages on which it ran a handler, then the one in its hand, are those it was given that have a handler: what the loop received, and for a worker its Terminate result |
| Publication.EveryState | src/rust/tea/program/update.rs:20-52 | so it is in every state reachable from the one in which init leaves the program |
| Publication.ExactlyOnceInOrder | src/rust/tea/program/mod.rs:182-192 | the messages sent that have a handler are, in the order sent, those handled by the loop thread, the one in its hand and those still in the channel |
| Publication.WorkersHandleTerminate | src/rust/tea/program/update.rs:35-42 | a worker runs a handler on at most one message, a Terminate that is the result of its command, and only after its call |
| Publication.FinishedCommand | src/rust/tea/program/update.rs:33-43 | when a thread is done: a Terminate command, or another with that result, has sent nothing and run the handler for Terminate exactly once, if there is one; any other command has sent its result exactly once and run no handler; a Terminate command has stopped reading and checking |
| Publication.RunIsSequential | src/rust/tea/program/update.rs:29-51 | for any handlers, on any threads and in any interleaving: because of the lock on context, handlers that compute from the model they read on entry leave the model, and return the commands, of publishing the handled messages one after the other |
| Publication.HandledInOrder | src/rust/tea/program/mod.rs:182-192 | this from the state in which init leaves the program; and without a handler for Terminate the handled messages are those received, less the one in hand |
| Quiescence.StepsTowardsEnd | src/rust/tea/program/mod.rs:51-56 | once some thread has called terminate, no read or check callback starts, and each step decreases a lexicographic measure |
| Quiescence.EveryRunEnds | src/rust/tea/program/mod.rs:51-56 | from there the program has no infinite run, however many commands overlap |
| Quiescence.EndIsQuiescence | src/rust/tea/program/mod.rs:218-218 | from there it can take no step that its handlers allow exactly when every thread has finished and no write is pending |
| EndToEnd.TypedBytes | src/rust/main.rs:23-27 | what counts as typed: byte 3 and no other is left out, and order is kept |
| EndToEnd.EchoStep | src/rust/main.rs:19-33 | every step keeps: the bytes fed without ETX are the model, then the keys in hand and in the channel, then the parser's queue; and each ETX fed has asked to terminate once or is still among these |
| EndToEnd.GrowingStep | src/rust/tea/program/mod.rs:194-208 | every step of main keeps: each frame is the cursor command for home, a NUL, the text shown and a NUL; the text is a prefix of what the next frame shows, and the last one a prefix of the model |
| EndToEnd.CurrentStep | src/rust/tea/program/mod.rs:194-208 | every step of main keeps: between check callbacks, if the last one could write its frame, this frame is the cursor command, a NUL, the whole model and a NUL, whatever failed before |
| EndToEnd.EndToEnd | src/rust/main.rs:16-38 | in every reachable state of main all the invariants hold, the only command ever asked for is Terminate, and the frames, byte by byte, show longer and longer prefixes of the bytes typed |
| EndToEnd.MainTerminates | src/rust/main.rs:19-35 | in any run of main, once some worker is past its call: reading and checking are off, main cannot run forever, and it can halt only with every thread finished and no write pending |
| EndToEnd.EtxStops | src/rust/main.rs:21-25 | in every reachable state of main between callbacks with nothing on its way, reading and checking are off if and only if more complete ETX keys were read than commands refused |
| Messages.EachTypeHasItsHandler | src/rust/tea/message.rs:21-28 | an error, a keypress, a Terminate and an Interrupt each run the handler registered for that type and no other, and nothing without it |
| Messages.DrainIsPublishAll | src/rust/tea/program/mod.rs:182-192 | draining the channel, with refused commands sending errors on it, is publishing the messages received one after the other |
| Messages.DrainReceivesAll | src/rust/tea/program/update.rs:33-46 | it receives the whole channel in order, then, in order, the errors of the commands that were refused; all others are accepted |
| Messages.DrainAcceptsAll | src/rust/tea/program/update.rs:33-46 | when no command is refused it receives exactly the channel and every command is accepted |
| CallbackRuns.ReadRun | src/rust/tea/program/mod.rs:160-168 | the read callback, taken without interference, is a run of the protocol that sends the complete keys in order, keeps the rest and changes nothing else |
| CallbackRuns.CheckRun | src/rust/tea/program/mod.rs:182-213 | for any handlers, the check callback, taken without interference, is a run of the protocol that drains the channel, writes exactly one frame (the cursor command, a NUL, the resulting model, a NUL) or reports the failure to, and returns to the loop |
| CallbackRuns.CommandRun | src/rust/tea/program/update.rs:33-43 | for any handlers and any command, a queued command, taken without interference, is a run of the protocol: its call stops the handles if it is Terminate or calls terminate, its result is published on its thread if it is Terminate and sent otherwise, and the thread is done |
| Sessions.SessionIsRun | src/rust/tea/program/mod.rs:150-219 | for any handlers and commands, any session, as a function of reads, read errors, loop turns, workers and failures, is a run of the protocol with the same outcome |
| Sessions.SessionEcho | src/rust/main.rs:19-33 | after any session of main the bytes fed without ETX are the model followed by what is on its way, and the frames, byte by byte, show longer and longer prefixes of them |
| Sessions.FedIsInput | src/rust/tea/program/mod.rs:51-56 | what was fed is an initial part of the input, and all of it as long as the program is reading |
| Sessions.FrameOfReport | src/rust/tea/program/mod.rs:195-205 | in bytes: a frame is the report that init decoded with its R replaced by 0x48, then 0x00, the model and 0x00 |
| Sessions.ScreenShowsInput | src/rust/tea/program/mod.rs:182-208 | while main is reading, a turn of the loop writes such a frame of the model, and the model is all the input except ETX and the incomplete key in the parser, whatever the chunks and events before |
| Sessions.AsciiReadable | src/rust/tea/program/mod.rs:160-168 | with ASCII input every event finds what it needs, so that the theorems on sessions apply |
| Sessions.PublishKeys | src/rust/main.rs:21-32 | publishing keys appends their bytes other than ETX, and asks to terminate, and nothing else, once for each ETX |
| Sessions.ReadThenCheck | src/rust/tea/program/mod.rs:160-192 | for every queue and every split: reading and then publishing appends exactly the complete keys without ETX, and no byte is lost |
| Programs.Program.OnRead | src/rust/tea/program/mod.rs:160-168 | sends the complete keys of the parser's queue extended by the chunk, in order, and leaves the rest |
| Programs.Program.Publish | src/rust/tea/program/update.rs:20-52 | runs the handler of the message, if any, and queues the command it returns, or sends an error if it is refused |
| Programs.Program.Work | src/rust/tea/program/update.rs:33-43 | the command queued first is run: it stops reading and checking if it is Terminate or calls terminate, a result of Terminate is published, any other result is sent |
| Programs.Program.Run | src/rust/tea/program/mod.rs:150-219 | the loop of main computes the session of the events that happen |
| Programs.RunMain | src/rust/main.rs:16-38 | init, the subscription of the one handler and the loop together: home is decoded or init fails as it should, and otherwise the model, the channel and the parser make up what was typed after the report, and every frame is the report with its R replaced by H, a NUL, a prefix of what was typed and a NUL |

## Left out

- KeyCodeParsing.KeyCodeParser.ParseKeycode: a head byte of 0x80 or more is excluded, because the original then never returns; since with any other head its loop body runs at most once, the loop is written as a conditional.
- Handshake.InitReader.OnRead: a read error makes the callback panic and is not modelled; an empty report panics on the length subtraction, as in a build with overflow checks.
- Programs.Program.OnCheck: workers that step in between are modelled in the pipeline and not in this sequential form.
- Programs.Program.Publish: the lock on context is a step of the pipeline and does not appear in this sequential form.
- Programs.Program.Work: a command is run in one go; its lock requests, which have no effect without interference, are steps of the pipeline.
- Messages.Drain: queue_work fails finitely often in one drain; if it failed forever, and errors kept asking for commands, the original would not leave the loop.
- Programs.RunMain: assumes that the input fits in buffers of 32-bit length, and that workers run between callbacks; sessions in which they interleave are runs of the pipeline.
- Decimal.ParseIsize: the signs that parsing to isize accepts are not modelled; they never occur in a keycode that the parser returns.
- Messages.Handler: a handler is a function of a model that is a string of bytes; state that a closure keeps for itself is not modelled apart from it. The results that do not fix the handlers hold for such closures too, because a step leaves open what a handler does.
- Reading a buffer that was never initialised, zero-length allocation, allocation failure and freeing a null base: excluded by what the operations require of their callers.
- The layout passed to realloc: the block is taken to keep the common prefix.
- Lock poisoning and panics inside handlers, commands and callbacks.
- Handle, stream, TTY, check, loop and request wrappers: casts and calls into libuv.
- Error number, handle type and request type conversions: tables of foreign constants.
- Conversions of Buf from and to raw pointers, indexing, formatting: reinterpretation of memory outside the ownership model.
- Data attached to handles and requests: unsafe type reinterpretation without algorithmic content.
- Window size, TTY modes, the cursor field of the context, and what a terminal does with the frames.
