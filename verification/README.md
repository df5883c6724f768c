# Verification of the tracer

A Dafny 4.11 model of jniprobe: the kernel-side probes that stamp call and return events with
a per-thread depth, the consumer that pairs the events, learns names and prints the call tree,
the argument snapshot with its decoders, the scan that finds the JNI tables, and the offset
file. `dafny verify dfyconfig.toml` verifies all of it.

## How the model is laid out

| file | what it holds |
|---|---|
| Words, Text, Schema | machine words and casts, strings, the JNI schema as an arbitrary table |
| Filters | filter state, slot and line tests, interactive commands |
| Descriptor | the parser of method descriptors and the grammar it inverts |
| Snapshot, Aapcs64 | the argument snapshot, the three decoders, and AAPCS64 `va_arg` |
| Kernel | the probes, the depth map with its limited room, ring-buffer reservation |
| Caches, Tracer | what a completed call teaches; the consumer |
| Protocol | target, probes, ring buffer and consumer as one step system, and the abstract machine it refines: one stack of frames per thread |
| Lag | which records a run makes, and the earlier point of the run at which a lagging consumer stands |
| Pairing, Names, Durations, Display, Answers, CallText | the main results on top of that refinement |
| Scan, OffsetFile | table discovery, the offset map, and the offset file |

A run is a list of actions: the target enters or leaves a function (the ring buffer grants or
refuses the record, whichever), the consumer polls one record, the user types a command. All
interleavings, losses and lags are runs. A call carries what the consumer's surroundings
(target memory, module map) will hold when it handles that event; these values are arbitrary,
so they cover every delay. Classes (`Probes`, `Record`, `Filters`, `Tracer`) follow the
imperative source, and each method is proved equal to the step function that the system uses.
`paired` and `shown` are history variables of the consumer: nothing else reads them.

Conditions that appear in the statements:

- `Fits`: a recorded tracked entry finds its thread in the depth map or the map not full
  (4096 threads), and a depth below 2^31. `EntryKeepsLockstepIff` shows that this is exactly
  what lockstep needs, and `SmallRunsFit` that few threads and at most 2^31 moves always fit.
- `Lossless`: no record was refused. Exact pairing of a whole run and what is learned need it;
  lockstep, drift, recovery, that durations nest, independence of threads, and what the return
  of a shown frame prints hold under any loss. `CallIsAnswered` needs it only on the call's own thread, while the call is active.
- Two runs over the same moves (`FilterIndependence`) also have the same memory of the target
  at each move's record: a move carries what the consumer will find when it handles that record.
- `NoCommands`: no filter command is typed. Results about lines assume it where they relate an
  entry to a later return; pairing and learning do not.
- `Standard`: what AAPCS64 (appendix "Variable argument lists") says of every `va_list`.
- `Search.Valid`, `Range.Valid`: the schema is longer than its four reserved words, code is not
  mapped at address 0, and mappings end far enough below 2^64 that no loop bound wraps.

## What was found

- A printed call is split at its last '.', so its class and method are recovered if and only if
  neither the method name nor any printed argument contains one (`SplitRecoversIff`).
- Entry and return lines are tested differently, in three ways: a call through an id without a
  name prints no entry unless `--verbose` is on; the grep text is looked for in the call at the
  entry, in the call and the value at the return; and `--class`/`--method` are asked about the
  slot's name at the entry of a plain slot, about the split text at every return. So a return
  can appear without its entry (`ReturnWithoutEntryIff` says exactly when, and
  `UnknownCallShowsReturnOnly` gives a family), and an entry without its return only for plain
  slots (`EntryWithoutReturnIff`, `MethodExpressionHidesReturn`).
- For a parameter that is not F or D, the `va_list` decoder reads the address `va_arg` reads if
  and only if that is in the save area or no F/D parameter before it went to the stack
  (`DecoderAddressIff`; `OverflowMisreads` is a list where they part).
- `decodeDirect` takes register ix + j for parameter j, of whatever type. That is the register
  of the procedure call standard if and only if neither this parameter nor one before it is F
  or D (`DecodeDirectReads`).
- A depth limit from 2^31 to below 2^32 becomes negative in the cast and hides every tracked
  call (`DepthLimit`).
- A lost return leaves its frame behind for good: with no lost entry the depth is exactly the
  true one plus the lost returns. Later calls still pair exactly on top of it (`Recovery`).
- The program's README says that --no-returns captures no return values; the code still tracks
  the always-watched slots, which is what makes names independent of that flag. It also lists
  the interactive `only` as taking a regular expression; the code matches substrings. The model
  follows the code in both.

## Model

| member | source | states |
|---|---|---|
| Protocol.SystemRefinesStacks | bpf/recon.bpf.c:123-224 | for every run with any losses, lag and commands, depth map plus pending ring plus consumer frames are, per thread, one stack that a recorded tracked entry pushes and a recorded return pops, and the matches are those of the stacks |
| Protocol.ReceiveFeeds | loader/trace.go:353-421 | which frames are open and what is matched after an event follows from the event alone; filters, view options and caches play no part |
| Protocol.CatchingUp | loader/trace.go:353-361 | polling the ring empty brings the consumer to exactly the settled frames and matches that the results speak of |
| Pairing.Lockstep | bpf/recon.bpf.c:157-167 | in every reachable state, whatever was lost, a watched thread's open frames have exactly the depths below the depth map's value, other threads none |
| Pairing.EntryKeepsLockstepIff | bpf/recon.bpf.c:158-167 | from a reachable state, a recorded tracked entry keeps lockstep if and only if the depth map has room for its thread and the depth fits a signed word |
| Pairing.SmallRunsFit | bpf/recon.bpf.c:79-84 | at most 4096 threads and 2^31 moves never meet those limits |
| Pairing.PairingIsExact | loader/trace.go:428-438 | without loss, for every tracked subset and interleaving, the matches are exactly the tracked returns each with its own call's frame and its count of active tracked ancestors as depth; depth map and open frames of watched threads are exactly the active tracked calls |
| Names.MatchedSoFarIsTrue | loader/trace.go:428-438 | without loss, in every reachable state however far the consumer lags, its matches are a first part of the true ones |
| Names.TakenFrameIsOwn | loader/trace.go:433-438 | without loss the frame that the next return takes carries its own call's slot, time, caller and arguments |
| Pairing.Recovery | bpf/recon.bpf.c:212-221 | from any drifted state, while a thread loses nothing and does not return below where it was, its calls pair exactly on top of the leftover frames |
| Pairing.BalancedSegmentRestores | bpf/recon.bpf.c:215-221 | a balanced loss-free segment restores depth and every open frame of its thread in the system, with the true matches in between |
| Pairing.DriftIsBounded | bpf/recon.bpf.c:184-186 | active minus lost entries <= depth <= active plus lost returns; exact when no entry is lost; zero on a quiet thread when no return is lost |
| Pairing.ThreadsAreIndependent | bpf/recon.bpf.c:129-130 | depth, open frames and matches of a thread equal those of its own moves run alone |
| Lag.HandledThenRing | loader/trace.go:353-361 | in every reachable state the records made so far are those handled, in order, followed by the ring; without commands the consumer is the fold of the step function over the handled ones |
| Lag.LagPoint | loader/trace.go:353-361 | in every reachable state, under any loss, the consumer stands at an earlier point of the run: its frames and matches are the settled ones of that point, its ring holds exactly what was recorded since, and its next record is that of the action there |
| Lag.EntryFindsNoFrame | loader/trace.go:377-385 | under any loss and lag, an entry that stores a frame never finds its place taken, so no open frame and no mark is overwritten |
| Names.CachesFollowTarget | loader/trace.go:440-485 | without loss, in every reachable state, the ring holds what was recorded since some point of the run, and the caches are exactly what the target's own returns up to that point teach; no filter or command enters |
| Names.FilterIndependence | loader/trace.go:49-54 | two loss-free runs over the same target moves, both with everything polled, with any start-up filters, --no-returns, commands and polling end with identical caches |
| Names.NamesComeFromTarget | loader/trace.go:440-448 | without loss, in every reachable state, also with records waiting: a cached id name, class or string is the one taught by the target's latest completed call that could teach it, among those that returned before the first waiting record; absent exactly if there was none |
| Names.PrintedNameIsLatest | loader/decode.go:286-317 | without loss, when the entry of a call is handled, however late, the printed method is spelled by the name and descriptor that the latest lookup of its id asked for, among those that returned before the call was made, with one argument per parameter; with no such lookup, and only then, it prints as unknown |
| CallText.PrintedCallIsTrue | loader/decode.go:286-317 | the whole text, end to end: the class FindClass was asked for (of the receiver, else of the class the id was looked up in), the looked-up name, and for each parameter of the looked-up descriptor the array element, va_list word or entry register of this very call |
| CallText.PrintedArgument | loader/trace.go:220-230 | by the name of the call function: an ...A function's j-th argument shows the j-th word of the array it was given, a ...V function's the word va_arg reads, any other's the j-th register behind the method id; the id stands in the third register, or the fourth for Nonvirtual calls |
| CallText.CalleeIs | loader/decode.go:297-305 | the class printed is the one last told of the receiver, as class object, as object of it or by its reference, else the one told of the class the id was looked up in |
| Names.NamedIdsHaveClasses | loader/trace.go:445-448 | under any loss every id with a name has a class |
| Names.DescribeRecovers | loader/decode.go:286-317 | a cached method name and descriptor print as that name with one argument per parameter of the descriptor |
| Names.SplitRecoversIff | loader/trace.go:513-522 | splitting the printed call gives back class and method if and only if no '.' follows the one between them |
| Learning.WatchedIffRole | loader/trace.go:49-54 | the always-watched slots are exactly those whose returns teach something |
| Learning.OnlyWatchedTeach | loader/trace.go:440-485 | dropping every call of another slot changes no cache |
| Learning.NameProvenance | loader/trace.go:441-449 | id names and classes are those of the latest lookup that could set them, over any list of completed calls |
| Learning.LookupTeaches | loader/trace.go:441-449 | a lookup by one of the four names that returned an id names it by the looked-up name followed by the looked-up descriptor if both are plausible (lengths, characters), and gives it the class looked into; nothing else changes |
| Learning.FindClassTeaches | loader/trace.go:450-460 | FindClass names the returned reference, and the class object behind it, by the text with '/' turned into '.' |
| Learning.ObjectsTeach | loader/trace.go:461-476 | an object gets the class that GetObjectClass found for it or that it was made from |
| Learning.StringsTeach | loader/trace.go:477-484 | a string gets the characters read from it or that it was made from |
| Learning.ObjectProvenance | loader/trace.go:461-476 | the class of an object is that of the latest such call with both references readable |
| Learning.ClassNameProvenance | loader/trace.go:450-460 | class names by reference and by object come from the latest FindClass with a valid name |
| Learning.TextProvenance | loader/trace.go:477-484 | string texts come from the latest GetStringUTFChars or NewStringUTF about the reference |
| Durations.DurationsNest | loader/trace.go:491 | under any loss, with a clock that never runs backwards on a thread, the 64-bit difference never wraps and the matches one level deeper made since a match's call was entered take together at most its time |
| Durations.ChildTimeIsTrue | loader/trace.go:433-438 | on the true matches those are exactly the calls of the target whose innermost active tracked caller is the parent |
| Durations.ChildrenFit | loader/trace.go:491 | without loss, a tracked call takes at least as long as all its tracked children in the target's own call tree |
| Answers.CallIsAnswered | loader/trace.go:363-421 | for every call that returns on a thread that loses nothing meanwhile, whatever is lost elsewhere and whatever it calls: the return takes the frame its own entry left, marked exactly if that entry printed, and then prints exactly its one line if and only if the expressions accept the split of its text |
| Answers.CallLines | loader/trace.go:487-498 | with a clock that never runs backwards on a thread, such a call's printed lines are, letter by letter: margin, "->" and its text; margin, "<-", that same text, the value left in the return register by the slot's return type, and exactly the time from entry to return |
| Display.StoredEntry | loader/trace.go:377-420 | the entry of a tracked call leaves the specified frame, and prints a line and marks the frame if and only if slot, depth, grep, expressions, caller and a known id (or --verbose) say so |
| Display.EntrySays | loader/trace.go:402-420 | an entry adds exactly one line or count, two blanks per level up to 24, "->", its text and with --verbose the caller of a call slot, if wanted; else nothing |
| Display.PlainTextIs | loader/trace.go:559-572 | a plain slot prints its name and its arguments from the second to the fifth register that have a text; without types, the three registers |
| Display.DepthLimit | loader/trace.go:390-392 | the depth limit is a plain one below 2^31; from there to 2^32 the cast makes it negative and it hides every tracked call |
| Display.ReturnOutcome | loader/trace.go:487-498 | a return takes its frame and prints its own line if and only if slot, depth, grep on call and value, expressions on the split text and caller say so; otherwise nothing |
| Display.ShownReturnIff | loader/trace.go:487-498 | in every reachable state without commands, for every slot: the return of a frame whose entry was shown prints exactly its line if and only if the expressions accept the split of its text |
| Display.ShownEntryShownReturn | loader/trace.go:487-498 | hence always for call slots, and for every slot without expressions |
| Display.RunKeepsShown | loader/trace.go:387-420 | in every run without commands, each open frame whose entry line was shown passes all tests of that entry ever after |
| Display.MarkedIffPrinted | loader/trace.go:402-420 | a tracked entry is marked shown if and only if it printed or counted a line |
| Display.ReturnWithoutEntryIff | loader/trace.go:395-420 | a return is printed without its entry if and only if all tests of the return hold and the id was unknown, or the grep text is in the value only, or the expressions refuse a plain slot's name |
| Display.EntryWithoutReturnIff | loader/trace.go:487-498 | an entry is printed without its return if and only if all tests of the entry hold, the slot is plain, and the expressions refuse the split of its text |
| Display.MethodExpressionHidesReturn | loader/trace.go:493-495 | one such family: a method expression that accepts a plain slot's name and not its whole text, which has no '.' |
| Display.UnknownCallShowsReturnOnly | loader/trace.go:395-403 | a call through an unknown id without --verbose and other filters prints no entry and does print its return line |
| Aapcs64.DecodeVRefinesVaArg | bpf/recon.bpf.c:97-115 | snapshot then decoder yields, for every memory, the word va_arg reads for a parameter with no F/D overflow before it; 0 past the sixteenth stack word |
| Aapcs64.DecoderAddressIff | loader/decode.go:245-272 | for a parameter that is not F or D, the decoder's address is va_arg's if and only if that is in the save area or no F/D parameter before it took a stack word |
| Aapcs64.OverflowMisreads | loader/decode.go:260-268 | a list where they part: for double, double, int with one vector register left, the int decodes to the second double's stack word |
| Aapcs64.WordsVByIndex | loader/decode.go:249-268 | the wrapping pointer arithmetic, vgr-128 included, is plain indexing into the two windows |
| Aapcs64.DecodeDirectReads | bpf/recon.bpf.c:116-120 | parameter j of a variadic call decodes to entry register ix + j while that was captured, else to nothing; that is the register where AAPCS64 places it if and only if neither it nor a parameter before it is F or D |
| Aapcs64.DecodeAReads | bpf/recon.bpf.c:90-96 | parameter j of a jvalue call is the caller's j-th element, unknown past sixteen |
| Snapshots.Record.Capture | bpf/recon.bpf.c:86-121 | the loops in place leave exactly the specified windows, all else as found |
| Snapshots.DecodeA | loader/decode.go:233-243 | the loop renders exactly the specified words |
| Snapshots.DecodeV | loader/decode.go:245-272 | the loop with its two cursors renders exactly the specified words |
| Snapshots.DecodeDirect | loader/decode.go:274-284 | the loop renders exactly the specified words |
| Snapshots.DecodersReadOnlyCaptured | bpf/recon.bpf.c:86-121 | the decoded words do not depend on what the record held before |
| CallText.TextIgnoresStaleRecords | loader/trace.go:220-232 | the set-up's snapshot kind and the decoder agree, so a printed call never shows leftovers of a ring-buffer record |
| Descriptor.ParseParams | loader/decode.go:174-209 | the loops terminate on any text, stay in bounds and compute the specified pieces |
| Descriptor.ParseRoundTrip | loader/decode.go:174-209 | parsing a method descriptor gives exactly its parameter descriptors, for any parameters and return type |
| Descriptor.ParseIsPrefix | loader/decode.go:180-207 | on any text the pieces are non-empty and together all of the text after '(' up to where the text ends, a ')' stands, or one descriptor is cut off |
| Descriptor.StopsAtEnd | loader/decode.go:180-206 | what is left unread starts with ')', is empty, or is one cut-off descriptor |
| Kernel.Probes.UpAll | bpf/recon.bpf.c:123-179 | refused: nothing changes; granted: depth pushed with wrap and limited room, the event with depth, registers and snapshot appended |
| Kernel.Probes.UpRet | bpf/recon.bpf.c:181-224 | refused: nothing changes; granted: depth popped, never below 0, the event with the popped depth appended |
| Tracing.Configure | loader/trace.go:218-246 | in any map order: a slot is tracked if and only if it is found and is one of the twelve watched names, or returns are on, its return type is not void, no start exclusion occurs in its name, and an only-item does (with no only-list, a mode allows its category); its offsets get return probes; the call set and kernel tables are the specified ones |
| Tracing.Tracer.EventLoop | loader/trace.go:353-421 | the loop folds the step function over the records |
| Tracing.Tracer.HandleEvent | loader/trace.go:363-421 | one turn is the step function, by thread, kind, offset, filter, depth and call or plain slot |
| Tracing.Tracer.OnReturn | loader/trace.go:428-499 | takes the frame at (thread, depth), learns, prints if wanted; nothing for a negative depth or a missing frame |
| Tracing.Tracer.FeedCaches | loader/trace.go:440-485 | the switch updates exactly the specified caches |
| Filtering.Filters.NameMatches | loader/filters.go:56-82 | wanted if and only if no exclusion occurs in the name and, with an only-list, one of it does, else the mode allows the category |
| Filtering.Filters.MatchLine | loader/filters.go:84-109 | kept if and only if grep text, class and method expressions and caller list all accept |
| Filtering.Filters.ApplyCommand | loader/trace.go:574-625 | read off the line's text: its first word chooses which field is replaced, by the list or the trimmed text behind it, and all others stay; "clear" resets all; any other word changes nothing |
| Filtering.CommandsAsTyped | loader/trace.go:581-616 | word, blank, text: only, exclude, from and mode take the list of the text, grep the trimmed text |
| Filtering.OnlyAndExclude | loader/filters.go:66-80 | after "only ..." a slot is wanted if and only if a listed text occurs in its name and no exclusion does; after "exclude ..." if and only if it was wanted without exclusions and no listed text occurs |
| Filtering.ClearWantsEverything | loader/trace.go:610-616 | after "clear" every slot and line is wanted |
| Filtering.SplitListAtComma | loader/filters.go:44-53 | lists split at each comma into trimmed non-empty items |
| Filtering.TrimIs | loader/filters.go:46-47 | trimming takes the blanks at both ends and nothing else |
| Schema.CategoriesOfFamilies | loader/schema.go:31-40 | call functions, constructions, field access and field ids in all variants have their category |
| Schema.CategoryOfOther | loader/schema.go:40-46 | the six class functions, else "string" if the name contains it, else "other" |
| Scan.OffsetsFromScan | loader/offsets.go:41-95 | the skipping scan yields the map of the naive scan of all positions, or fails if that is empty |
| Scan.TablesDoNotOverlap | loader/offsets.go:58-87 | two tables eight-byte steps apart never overlap |
| Scan.JumpMissesNothing | loader/offsets.go:87 | starting again behind an accepted table misses no table |
| Scan.AcceptedIff | loader/offsets.go:59 | a position is accepted if and only if it is on the grid, fits and holds a table |
| Scan.TableWords | loader/offsets.go:60-80 | a position holds a table if and only if four readable null words are followed by words that are all readable and in the executable segment |
| Scan.InsertKeepsLast | loader/offsets.go:82-86 | each offset maps to the slot of its last occurrence in scan order, no other offset is in the map |
| Scan.ProbesResolve | loader/trace.go:372-375 | an address resolves modulo 2^64 if and only if it is an entry of an accepted table, and to a slot it serves |
| Scan.ResolvesToEverySlotIff | loader/offsets.go:82-86 | it resolves to the slot of every entry that holds it if and only if it stands in one slot only |
| OffsetFile.WriteFields | loader/env.go:64-88 | writes exactly the in-segment slots in order, unless they are fewer than half |
| OffsetFile.OffsetsFromFields | loader/offsets.go:12-33 | in any map order, every readable pair inside the schema is in the map and nothing else is |
| OffsetFile.FileRoundTrip | loader/env.go:73-90 | for distinct addresses, reading a written file gives exactly the inverse map, restricted to the schema |
| OffsetFile.HexRoundTrip | loader/offsets.go:27 | a printed 0x offset reads back as itself, for all 64-bit values |
| OffsetFile.PrefixChoosesBase | loader/offsets.go:27 | hexadecimal, octal and binary offsets are read by their prefix, for all 64-bit values |

## Left out

- Attaching probes, eBPF loading, /proc and ring-buffer I/O, signals, timers, the `dump` subcommand, module parsing, flag parsing: effects of the operating system and libraries.
- The window in which entry probes are live before return probes, returns that skip frames, and a failing map update other than the full depth map: runs of the model start with all probes attached, and every return ends the innermost call.
- Call stacks (`stackid`), the pid of an event, and the total number of events: nothing modelled depends on them.
- A command that arrives while one event is being handled: the model applies commands between events. `quit` ends the process and has no effect here; `stats` only prints.
- Printing of single values (`fmtJV`, `fmtArg`, `fmtRet`), of milliseconds and of JSON, and regular expressions: uninterpreted functions.
- Filtering.IsSpace: only blank, tab, line feed and carriage return count as white space.
- OffsetFile.ParseOffset: underscores between digits, which the Go parser also accepts, are read as an error; the JSON syntax around the pairs is uninterpreted.
- The target's memory is taken not to change while one event is handled (the code reads some strings twice).
- The target's C strings are a partial map from address to text: the 256-byte read limit of the memory reader is not modelled.
- The concrete rows of the schema: the table is arbitrary.
- bpf/smoke.bpf.c, the probe logic of bpf/envprobe.bpf.c and the test application.
