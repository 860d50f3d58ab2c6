# Amon, modelled and proved in Dafny

Amon watches selected programs and writes a report when one of them crashes. It has two
stages, and this project models both as one system:

1. **Probes** (`bpf/trace.c`). Small programs run in the kernel whenever a thread opens a
   file, connects, forks, execs, faults, receives a signal or exits. They share four maps
   and one ring of records.
2. **Consumer** (`cmd/amon/main.go` and `internal/`). A loop reads the ring, keeps a
   bounded history per process, and turns the history of a crashed process into a report
   with a symbolized stack and a root-cause verdict.

## How the model is built

A *run* of the probes is a sequence of `Trace.Step`s, one per program execution, by any
number of threads in any interleaving. Everything a program reads from outside is part
of its step: the current thread and its name, user memory (readable or not), the clock,
and whether a map update or a ring reservation succeeds. `Trace` says, by looking back
over a run, what every map must hold and which records the ring must have received;
`Probes.Kernel` is the imperative form of the probes, and each of its methods is proved
to keep its maps and its ring exactly as the run prescribes. The pairing, hand-off and
ancestry results are theorems about all runs.

The consumer is imperative as in the source: `CircularBuffer`, `ProcessRegistry`,
`Symbolizer` and `Amon` are classes whose methods update their fields, and the sort works
in place on an array. `Consumer` says, over the log of everything handled so far, what
each process's buffer, its remembered signal and the reports written must be;
`Daemon.Amon` is proved to hold exactly that after every sample. `Wire` gives the packed
little-endian layout of the records and `EndToEnd` puts the two stages together. The whole
system is a sequence of probe executions and reads in any order, joined by a ring that is
a queue (`EndToEnd.Fifo`). Whatever the interleaving, the consumer holds the records of a
front part of the ring (`EndToEnd.Interleaved`), so the theorems about runs become theorems
about the reports written (`EndToEnd.WrittenReport`).

| file | part of the program |
|---|---|
| `types.dfy`, `wire.dfy` | events, records and their bytes |
| `history.dfy`, `circular_buffer.dfy`, `registry.dfy`, `arithmetic.dfy` | bounded history per process |
| `trace.dfy`, `probes.dfy` | probe programs as steps over shared maps |
| `openat_pairing.dfy`, `connect_pairing.dfy`, `fault_handoff.dfy`, `fork_tree.dfy` | what holds in every run of the probes |
| `text.dfy`, `maps_format.dfy`, `intervals.dfy` | the two parsers of `/proc/<pid>/maps` |
| `resolver.dfy` | stack symbolization and its cache |
| `analysis.dfy`, `noise_filter.dfy`, `reports.dfy` | verdict and report data |
| `consumer.dfy`, `daemon.dfy`, `tracking.dfy` | handlers, dispatch loop, configuration |
| `end_to_end.dfy` | probes, ring and consumer together |

## Assumptions stated in the lemmas

The contracts hold for every run and every input unless a lemma requires one of these by
name: ids are not reused (`ForkTree.Fresh`), the clock does not run backwards
(`Trace.Monotone`), a thread leaves an openat before it enters the next
(`OpenatPairing.OneInFlight`), at most one thread of a process is in connect at a time
(`ConnectPairing.OneAtATime`), and configured names contain no NUL byte.

## Where the code does less than one might expect

Each of these is proved: a lemma shows the input or run at fault, and another says when the
code does what one expects.

- An openat call whose own enter was filtered out can report the file of an earlier
  `open` or `openat2`, because only the exit of openat is hooked
  (`OpenatPairing.StaleOpen`). What the exit probe finds is the exiting call's exactly
  when that call's enter passed every filter (`OwnCallIff`); without the two other calls
  in the run every event is right (`OnlyOpenatIsOwn`).
- `connect_start` is keyed by process, so two threads inside connect at once can have
  their destinations crossed and the second call lost (`ConnectPairing.CrossedConnects`).
  A call finds its own entry exactly under the condition of `OwnConnectIff`, and is
  reported as itself exactly under that of `OwnReportIff`; an exit reports nothing
  exactly under that of `LostIff`.
- `pending_signals` is keyed by process as well, so of two threads that fault at once the
  first can report the other's address and the second none (`FaultHandoff.CrossedFaults`;
  exactly when not: `OwnFaultIff`).
- A report does not compare the number of the remembered signal with that of the crash, so
  a crash whose own signal record was dropped is analysed with the address of an earlier
  signal the process survived (`EndToEnd.StaleAddress`; exactly when not: `OwnSignalIff`, and together with the point above, `OwnAddressIff`).
- With a reused id the `ppid` links in `child_root` can lead past the recorded root
  (`ForkTree.ReuseMisleads`) or in a circle (`ReuseLoops`). They are the very forks of a
  process's ancestry exactly when no id of that ancestry was created again
  (`AncestryIff`). What the map shows is less: its ids and its links retrace the ancestry
  exactly when whoever of it was created again has the same forker, under an equally
  allowed name (`AncestryInMapIff`; `ReuseRetraces` is a run where only this holds). With
  fresh ids both are always so (`FreshAncestry`), and reuse elsewhere does no harm.
- The two maps parsers disagree on numbers that are out of range or followed by other
  characters, since one keeps the value that comes with a parse error and the other keeps
  zero (`MapsFormat.ParsersDisagree`; exactly when not: `ParsersAgreeIff`).
- The start-up warning (`cmd/amon/main.go:406-412`) suggests that a configured name of
  more than 15 bytes is shortened to match. Neither side shortens it that way, so such a
  name never matches a terminated command name (`Tracking.LongNamesNeverMatch`).
- A comment calls a buffer's start time the start of the process
  (`internal/circular_buffer/circular_buffer.go:28`); the handlers pass the time of the
  first event, and that is what reports show (`Consumer.ReportStatistics`).

## Model

| member | source | states |
|---|---|---|
| CircularBuffers.CircularBuffer.constructor | internal/circular_buffer/registry.go:27-38 | a new buffer has the given size, caps of 100 and an empty history |
| CircularBuffers.CircularBuffer.Push | internal/circular_buffer/circular_buffer.go:36-71 | the whole new state field by field, and that it is what the push history, now longer by this event, prescribes |
| CircularBuffers.RingMeaning | internal/circular_buffer/circular_buffer.go:55-61 | for every history and size, position i of the last `size` events sits in slot i mod size |
| History.FirstErrorsAre | internal/circular_buffer/circular_buffer.go:43-50 | the error list is the first 100 events with a negative result other than -115, at increasing positions with none skipped |
| History.FirstSlowAre | internal/circular_buffer/circular_buffer.go:45-53 | the slow list is the first 100 events over 100 ms whose result is not -115, with none skipped |
| History.CountsAre | internal/circular_buffer/circular_buffer.go:63-70 | the two counts are the numbers of such events in the whole history |
| CircularBuffers.CircularBuffer.Recent | internal/circular_buffer/circular_buffer.go:91-105 | full and not-full paths, every index in range, both give the last events of the history in push order |
| CircularBuffers.CircularBuffer.Drain | internal/circular_buffer/circular_buffer.go:75-141 | a fresh array holding the drain of the history; no field of the buffer is written, so two drains in a row return equal sequences |
| CircularBuffers.ShiftIn | internal/circular_buffer/circular_buffer.go:146-154 | one round of the in-place sort inserts the next event behind every event that is not later, and leaves the rest of the array |
| CircularBuffers.SortByTimestamp | internal/circular_buffer/circular_buffer.go:144-156 | the in-place sort terminates with the stable sort of its input |
| History.StableSortIsStable | internal/circular_buffer/circular_buffer.go:144-156 | the sort is ordered by time, a permutation, and keeps the order of events with equal timestamps |
| History.StableSortUnique | internal/circular_buffer/circular_buffer.go:144-156 | only one sequence is a stable sort of given events |
| CircularBuffers.HasPriorityIff | internal/circular_buffer/circular_buffer.go:82-82 | a drain merges exactly when some event of the history failed, or took over 100 ms, without EINPROGRESS |
| CircularBuffers.PlainDrain | internal/circular_buffer/circular_buffer.go:82-107 | without error or slow events a drain is exactly the last min(50, count) events in push order |
| CircularBuffers.PriorityDrain | internal/circular_buffer/circular_buffer.go:109-140 | otherwise it is a stable, sorted permutation of the error list, the slow list and the last min(30, count) events of the history; at most 230 long |
| CircularBuffers.DrainIsDetermined | internal/circular_buffer/circular_buffer.go:109-140 | any stable sort of that material equals the drain |
| CircularBuffers.DrainChronological | internal/circular_buffer/circular_buffer.go:138-140 | a drain is in time order once a priority event exists or if pushes were in time order |
| CircularBuffers.DrainMembers | internal/circular_buffer/circular_buffer.go:75-141 | a drain invents nothing: each of its events was pushed |
| CircularBuffers.PrioritiesSurvive | internal/circular_buffer/circular_buffer.go:47-53 | the first 100 errors and slow events stay in the drain whatever is pushed later |
| Registry.ProcessRegistry.GetOrCreate | internal/circular_buffer/registry.go:19-41 | returns the buffer held for the pid or enters a fresh empty one; other processes keep theirs and no two share storage |
| Registry.ProcessRegistry.Get | internal/circular_buffer/registry.go:43-49 | finds the buffer exactly when the process has one, and what it stands for |
| Registry.ProcessRegistry.Delete | internal/circular_buffer/registry.go:51-55 | forgets that process and nothing else |
| Registry.ProcessRegistry.PushTo | cmd/amon/main.go:148-164 | a push through the registry extends one process's history and leaves every other process's alone |
| Probes.IsNoise | bpf/trace.c:158-186 | comparing single characters finds exactly the unreadable paths and those that begin with /dev, /proc or /sys or end in .gitconfig |
| Trace.NoisyPaths | bpf/trace.c:158-186 | the same paths written as character strings |
| OpenatPairing.OpenStoredIff | bpf/trace.c:188-236 | an enter is stored exactly when its path is readable and useful, its command not ignored, it is allowed or in the tree, and the map has room |
| Probes.Kernel.TraceOpenCommon | bpf/trace.c:188-254 | after the step maps and ring are exactly what the run prescribes: an enter is stored just when it passes the path, ignore and tracking filters and is readable |
| Probes.Kernel.TraceOpenatExit | bpf/trace.c:256-295 | same for an openat exit: the stored enter is consumed whether or not the ring has room, and its event emitted if it has |
| Probes.Kernel.HandleFork | bpf/trace.c:298-357 | same for a fork: an entry for the child with forker, root and fork name |
| Probes.Kernel.HandleExecve | bpf/trace.c:360-382 | same for an execve: the current name of a recorded process |
| Probes.Kernel.ProbeForceSigFault | bpf/trace.c:401-435 | same for a fault: the capture of the process is replaced |
| Probes.Kernel.HandleSignalDeliver | bpf/trace.c:439-496 | same for a delivery: a capture of the same signal is consumed even if the ring is full |
| Probes.Kernel.HandleExit | bpf/trace.c:498-565 | same for an exit: a record only when the whole group of a tracked process is dead |
| Probes.Kernel.HandleConnectEnter | bpf/trace.c:567-595 | same for a connect enter: only readable IPv4 addresses are stored, under the process id |
| Probes.Kernel.HandleConnectExit | bpf/trace.c:597-647 | same for a connect exit: every path that finds an entry clears it |
| Probes.NextPrescribed | bpf/trace.c:97-156 | one step moves all maps and the ring together from what the run prescribed to what the longer run prescribes |
| Trace.EmittedMeaning | bpf/trace.c:143-147 | every record in the ring is what its step submits given the run before it, in step order |
| Trace.EmittedComplete | bpf/trace.c:143-147 | no submitted record is missing from the ring |
| Trace.EmittedAtIff | bpf/trace.c:143-147 | a step has a record in the ring exactly when it submits one |
| Trace.SilentSteps | bpf/trace.c:188-595 | enters, forks, execves and faults never put anything into the ring |
| Trace.PortInHostOrder | bpf/trace.c:590-590 | a port whose high byte comes first in memory is stored as its number |
| OpenatPairing.OpenSlotIff | bpf/trace.c:233-292 | in every run an enter is remembered exactly while it is its thread's latest stored one with no openat exit of the thread behind it |
| OpenatPairing.OpenatEventPairs | bpf/trace.c:256-295 | in every interleaving an openat event carries file name, command and enter time of that enter; latency never wraps under a monotone clock |
| OpenatPairing.OpenatAtMostOnce | bpf/trace.c:272-292 | a stored enter yields at most one event |
| OpenatPairing.OpenatReportedIff | bpf/trace.c:256-295 | an exit has its event in the ring exactly when a stored enter of the thread is pending and the ring has room, whatever the call returned |
| OpenatPairing.OwnCallIff | bpf/trace.c:188-262 | what an exit finds belongs to the exiting call exactly when that call's enter was stored |
| OpenatPairing.OnlyOpenatIsOwn | bpf/trace.c:188-295 | without open and openat2 every event is built from the enter of the call that is exiting, filtered enters mixed in or not |
| OpenatPairing.StaleOpen | bpf/trace.c:244-295 | a run in which an openat exit reports the file of an earlier open |
| ConnectPairing.ConnectSlotIff | bpf/trace.c:593-645 | in every run an entry is the process's latest stored IPv4 connect with no connect exit of the process behind it |
| ConnectPairing.EntryMeansInside | bpf/trace.c:597-647 | an entry implies that the thread that stored it is still inside that connect |
| ConnectPairing.ConnectEventPairs | bpf/trace.c:597-647 | every event is IPv4 and carries address, port in host order and enter time of the process's latest stored connect |
| ConnectPairing.ConnectAtMostOnce | bpf/trace.c:602-645 | a stored connect yields at most one event |
| ConnectPairing.OwnConnectIff | bpf/trace.c:593-605 | reported or not, what an exit finds is its own call exactly when that call's enter was stored and no other connect of the process was stored or left meanwhile |
| ConnectPairing.OwnReportIff | bpf/trace.c:597-645 | a call is reported as itself exactly when, besides that, its thread is tracked and not ignored and the ring has room |
| ConnectPairing.LostIff | bpf/trace.c:597-632 | an exit submits nothing exactly when nothing is pending for the process, its thread is filtered, or the ring is full |
| ConnectPairing.ConnectReportedIff | bpf/trace.c:597-647 | an exit has its event in the ring exactly when a stored connect of the process is pending, its thread is tracked and not ignored, and there is room |
| ConnectPairing.OwnEventIff | bpf/trace.c:593-645 | among emitted events, one is about the exiting call exactly when its own enter was stored and no other thread stored one since |
| ConnectPairing.OneAtATimeIsOwn | bpf/trace.c:567-647 | with one thread per process in connect at a time every event is built from the enter of the call that is exiting |
| ConnectPairing.CrossedConnects | bpf/trace.c:593-605 | a run in which two threads' destinations are crossed and one event is lost |
| FaultHandoff.FaultSlotIff | bpf/trace.c:426-476 | a capture is pending exactly until a later capture or a reported delivery of its signal in its process |
| FaultHandoff.SignalEventPairs | bpf/trace.c:467-495 | a signal event carries the pending capture of the same signal, else address 0; a nonzero address is that of the latest capture |
| FaultHandoff.SignalReportedIff | bpf/trace.c:442-495 | a delivery has its event in the ring exactly for signals 4, 6, 7, 8 and 11 of a tracked process, when there is room |
| FaultHandoff.FaultStoredIff | bpf/trace.c:409-433 | a fault is captured exactly for signals 7 and 11 of a tracked process, when the map has room |
| FaultHandoff.CaptureUsedOnce | bpf/trace.c:471-476 | no two deliveries take the same capture, reported or not |
| FaultHandoff.CaptureAtMostOnce | bpf/trace.c:471-495 | a capture feeds at most one signal event |
| FaultHandoff.OwnFaultIff | bpf/trace.c:426-476 | a reported delivery takes its own thread's fault exactly when that was stored and meanwhile no thread of the process stored another or had the same signal reported |
| FaultHandoff.CrossedFaults | bpf/trace.c:433-476 | a run in which one thread's delivery reports another's address and the other reports 0 |
| FaultHandoff.ExitDecodes | bpf/trace.c:503-549 | an exit record is of a tracked, wholly dead process and splits the wait status into exit status and signal |
| FaultHandoff.ExitReportedIff | bpf/trace.c:505-563 | an exit has its record in the ring exactly when the whole group is dead, the thread is tracked and there is room |
| ForkTree.LinkIff | bpf/trace.c:321-355 | in every run a process's link is the recorded fork that last created it |
| ForkTree.AncestryIff | bpf/trace.c:298-357 | in every run the links from a process are the very forks of its ancestry exactly when no id of that ancestry was created again after it was relied on; they then end at its recorded root |
| ForkTree.Ancestry | bpf/trace.c:298-357 | following the links of an intact ancestry ends, strictly older link by link, at the forker of the nearest link made under an allowed name |
| ForkTree.FreshIsIntact | bpf/trace.c:298-357 | with fresh ids the ancestry of every recorded process is intact |
| ForkTree.FreshAncestry | bpf/trace.c:298-357 | with fresh ids a process is in child_root exactly when it has an intact ancestry |
| ForkTree.AncestryInMapIff | bpf/trace.c:298-357 | in every run the ppid links that child_root shows lead through the ids of a recorded process's ancestry, to its recorded root, exactly when whoever of them was created again has the same forker, under an equally allowed name |
| ForkTree.AncestryInMap | bpf/trace.c:298-357 | so they do whenever the ancestry is intact |
| ForkTree.RecordedIff | bpf/trace.c:309-356 | in every run a process is recorded exactly when a chain of stored forks leads up to one made under an allowed name |
| ForkTree.ExecveKeepsLinks | bpf/trace.c:360-382 | execve changes no link, root or fork name and no membership |
| ForkTree.CurrentName | bpf/trace.c:372-379 | the current name of a recorded process is the one of its last execve with a readable name since it was created |
| ForkTree.NoCurrentName | bpf/trace.c:312-345 | it is 16 zero bytes when there was none |
| ForkTree.LinkStays | bpf/trace.c:321-326 | with fresh ids a recorded link is never replaced |
| ForkTree.ReuseMisleads | bpf/trace.c:321-355 | a run with a reused id whose links lead past the recorded root |
| ForkTree.ReuseLoops | bpf/trace.c:321-355 | a run with a reused id whose links form a circle |
| ForkTree.ReuseRetraces | bpf/trace.c:321-355 | a run with a reused id whose links still retrace the ids, though not the forks, of the ancestry |
| Wire.StructRoundTrip | types/types.go:48-108 | any packed layout: what is stored field by field is read back field by field, two's complement included |
| Wire.FourBytes | cmd/amon/main.go:588-588 | four bytes make a number lowest byte first |
| Wire.EightBytes | types/types.go:48-108 | and so do eight |
| Wire.TwoBytes | types/types.go:66-67 | and two |
| Wire.BytesOfU32 | cmd/amon/main.go:246-249 | the four bytes of a number, lowest first |
| Wire.OpenatSample | types/types.go:49-58 | a sample of 308 bytes that begins 1, 0, 0, 0 is an openat record, each member at its byte offset |
| Wire.ConnectSample | types/types.go:60-69 | 40 bytes that begin 3, 0, 0, 0 are a connect record, each member at its byte offset |
| Wire.SignalSample | types/types.go:77-89 | 56 bytes that begin 4, 0, 0, 0 are a signal record, each member at its byte offset |
| Wire.ExitSample | types/types.go:91-108 | 76 bytes that begin 2, 0, 0, 0 are an exit record, each member at its byte offset, padding skipped |
| Wire.WireRoundTrip | cmd/amon/main.go:581-604 | every record of every kind, with any values and any padding bytes, is read back by the handler its first four bytes select |
| Wire.WireSizes | types/types.go:49-108 | the four structs take 308, 40, 56 and 76 bytes |
| Wire.IgnoredSamples | cmd/amon/main.go:582-604 | a sample is ignored exactly when it has no type field, an unknown type, or is shorter than the struct of its type |
| MapsFormat.ParseMemoryMaps | internal/forensics/analysis.go:42-71 | the regions of all well-formed lines in order, with the last heap and stack region |
| MapsFormat.ParseProcessMaps | internal/stacktrace/resolver.go:77-126 | the mappings of all well-formed lines in order, none when the file cannot be read |
| MapsFormat.RegionsInOrder | internal/forensics/analysis.go:53-60 | the regions of a text are those of its lines in order |
| MapsFormat.MappingsInOrder | internal/stacktrace/resolver.go:89-123 | so are the mappings |
| MapsFormat.RejectedIff | internal/forensics/analysis.go:77-85 | a line is rejected, by either parser, exactly when it has fewer than five words or its first is not two parts around one dash |
| MapsFormat.LastNamedIs | internal/forensics/analysis.go:63-67 | heap and stack are the last regions of those names |
| MapsFormat.LineRoundTrip | internal/forensics/analysis.go:73-106 | any region, written with any numerals, spacing and single-spaced path, is read back by both parsers |
| MapsFormat.ParsersAgreeIff | internal/stacktrace/resolver.go:94-120 | on every line whatever both parsers accept or neither does, and they agree exactly when the number tokens are in order |
| MapsFormat.ParsersDisagree | internal/stacktrace/resolver.go:106-106 | a line whose start address the two parsers read as 0 and as 1 |
| MapsFormat.FilesAgree | internal/stacktrace/resolver.go:87-123 | on whole files of such lines both build the same list, though they split lines differently |
| Text.FieldsOfWoven | internal/forensics/analysis.go:76-76 | splitting at whitespace undoes any padding between and around words |
| Text.SpacesAre | internal/forensics/analysis.go:76-76 | the 25 characters that separate words |
| Text.SplitParts | internal/stacktrace/resolver.go:87-100 | the parts of a split contain no separator and make up the text again |
| Text.ParseMeaning | internal/forensics/analysis.go:87-90 | the value ParseUint yields, with or without an error, by the digits in front |
| Text.HexReadersAgree | internal/stacktrace/resolver.go:106-109 | ParseUint and Sscanf yield the same value of a token exactly when its leading hex digits are in range and are all of it or worth 0 |
| Text.HexRoundTrip | internal/stacktrace/resolver.go:237-237 | a number printed in hexadecimal is a numeral for that number |
| Text.HexShape | internal/stacktrace/resolver.go:131-131 | it has lower-case digits and no leading zero |
| Text.DigitsAre | internal/forensics/analysis.go:87-89 | what each hexadecimal digit is worth, in either case |
| Resolver.Symbolizer.LookupSymbol | internal/stacktrace/resolver.go:165-245 | after any lookups the answer equals the uncached search, every remembered answer equals a recomputation, and a miss that finds a symbol replaces what was remembered for the path |
| Resolver.NearestIff | internal/stacktrace/resolver.go:195-244 | the search finds k exactly when k is the first named function symbol at minimal distance that covers the offset, and nothing exactly when none does |
| Resolver.AnswerIs | internal/stacktrace/resolver.go:203-241 | the answer for the nearest covering function is its name, with "+0x" and the distance in hexadecimal unless that is 0 |
| Resolver.NoAnswerIff | internal/stacktrace/resolver.go:173-244 | the answer is empty exactly when there is no symbol table or no named function covers the offset |
| Resolver.FrameIs | internal/stacktrace/resolver.go:136-158 | the frame of an address by the first mapping around it, whatever the layout |
| Resolver.FrameOutside | internal/stacktrace/resolver.go:129-133 | an address in no mapping keeps its raw form and the module "unknown" |
| Resolver.FramesAre | internal/stacktrace/resolver.go:54-62 | one frame per address before the first zero, in order |
| Resolver.Symbolizer.ResolvePC | internal/stacktrace/resolver.go:128-162 | the frame depends on address, mappings and symbol tables only, not on earlier lookups |
| Resolver.Symbolizer.ResolveStackTrace | internal/stacktrace/resolver.go:34-65 | frames up to the first zero address, or raw addresses when the maps cannot be read |
| Resolver.FrameInside | internal/stacktrace/resolver.go:136-158 | in a disjoint layout the frame is computed from the one mapping around the address |
| Resolver.AslrInvariance | internal/stacktrace/resolver.go:136-158 | moving the mappings, and the address within its mapping, to any other disjoint layout keeps module, offset and symbol |
| Resolver.OffsetRoundTrip | internal/stacktrace/resolver.go:143-148 | resolving the address at which a covered file offset is mapped gives that offset |
| Resolver.BaseIsName | internal/stacktrace/resolver.go:138-138 | the module shown for a path is its last name, whatever directory and however many slashes follow |
| Analysis.ClassifyAddress | internal/forensics/analysis.go:109-141 | null, low, the class of the first region around the address, or unmapped |
| Analysis.ClassIs | internal/forensics/analysis.go:121-136 | the class of a mapped address, path by path |
| Analysis.ClassOutside | internal/forensics/analysis.go:110-140 | null, low and unmapped addresses |
| Analysis.AnalyzeCrash | internal/forensics/analysis.go:144-228 | the same verdict as a table by signal and memory type, with or without a readable map |
| Analysis.MemoryVerdicts | internal/forensics/analysis.go:168-215 | cause and advice of SIGSEGV and SIGBUS for each memory type, with and without a map |
| Analysis.OtherVerdicts | internal/forensics/analysis.go:216-225 | cause and advice of every other signal |
| Analysis.OrderDoesNotMatter | internal/forensics/analysis.go:121-138 | for disjoint regions the class does not depend on their order |
| Analysis.SameRegionAsResolver | internal/forensics/analysis.go:121-122 | analysis and resolver pick the same region of the same file, the only half-open interval around the address when regions are disjoint |
| Analysis.MapIndependentIff | internal/forensics/analysis.go:168-215 | the verdict is the same for every map and without one exactly below 0x10000 or for other signals than SIGSEGV and SIGBUS |
| NoiseFilter.FilterNoise | internal/forensics/noise_filter.go:42-52 | keeps the events that are not noise, in order |
| NoiseFilter.CountNoise | internal/forensics/noise_filter.go:55-63 | counts exactly the events that FilterNoise drops |
| NoiseFilter.KeptMember | internal/forensics/noise_filter.go:19-39 | an event is kept exactly when it was there and is not an ENOENT file probe of a known pattern |
| NoiseFilter.KeptIff | internal/forensics/noise_filter.go:10-39 | an event is dropped exactly when it is a file event that failed with -2 and one of the five patterns, written out, stands in its name |
| NoiseFilter.FilterTwice | internal/forensics/noise_filter.go:42-52 | filtering is idempotent |
| Reports.GenerateCrashReport | internal/reports/reports.go:127-202 | every field of the report from exit record, buffer, signal context and maps |
| Reports.ReportConserves | internal/reports/reports.go:155-164 | shown plus filtered events equal the drain; what is shown is an order-preserving subsequence |
| Reports.ReportedWasPushed | internal/reports/reports.go:155-164 | a report shows only events pushed into its buffer |
| Reports.ReportChronological | internal/reports/reports.go:155-164 | reports are in time order once a priority event exists or if pushes were |
| Reports.PriorityIsReported | internal/reports/reports.go:155-164 | the first 100 errors and slow events are shown unless they are known start-up probes, whatever came later |
| Consumer.Demultiplexed | cmd/amon/main.go:138-316 | after any samples a process's buffer holds exactly its own events since its last crash exit, and exists exactly when there is one |
| Consumer.BufferOrigin | cmd/amon/main.go:147-148 | a buffer has the size configured at, and the name and time of, its first event since the last crash |
| Consumer.Projection | cmd/amon/main.go:138-316 | the buffer is that of a consumer that read this process's records only |
| Consumer.CrashForgets | cmd/amon/main.go:271-315 | a crash exit, reported or not, wipes the process's buffer |
| Consumer.HeldEventSource | cmd/amon/main.go:147-164 | every held event came from a record of the same process since its last crash |
| Consumer.OpenatSyscallIs | cmd/amon/main.go:151-162 | each member of the event made of an openat record |
| Consumer.ConnectSyscallIs | cmd/amon/main.go:238-254 | each member of the event made of a connect record, the address lowest byte first |
| Consumer.CrashSignals | cmd/amon/main.go:59-78 | exactly signals 4, 6, 7, 8 and 11 are crashes |
| Consumer.LastSignalIff | cmd/amon/main.go:212-220 | the remembered signal is the last one of the process with no tracked crash behind it |
| Consumer.CutAtZero | cmd/amon/main.go:197-207 | cutting a captured stack at its first zero before resolving it changes no frame |
| Consumer.EarlyPriorityIsReported | internal/reports/reports.go:155-164 | an error or slow event among the first hundred since the previous crash is shown whatever came later, unless it is a known start-up probe |
| Consumer.ReportStatistics | internal/reports/reports.go:165-176 | the counts cover every event since the previous crash, shown or not; the start time is the first event's |
| Consumer.ReportedStack | cmd/amon/main.go:191-219 | a report shows a stack exactly when the last signal since the last tracked crash came with one: a frame per address before the first zero, resolved against the mappings of that moment, or raw when they could not be read |
| Consumer.WrittenMeaning | cmd/amon/main.go:297-301 | each report written is what one delivery produces, in delivery order |
| Consumer.WrittenComplete | cmd/amon/main.go:297-301 | no delivery that produces a report goes without it |
| Daemon.Amon.HandleOpenatEvent | cmd/amon/main.go:138-165 | buffers, signals and reports stay what the log prescribes after an openat sample; a short one changes nothing |
| Daemon.Amon.HandleConnectEvent | cmd/amon/main.go:228-257 | same for a connect sample |
| Daemon.Amon.Counters | cmd/amon/main.go:197-204 | the captured program counters before the first zero |
| Daemon.Amon.HandleSignalEvent | cmd/amon/main.go:180-226 | same for a signal sample, whose resolved stack and address are remembered |
| Daemon.Amon.HandleExitEvent | cmd/amon/main.go:259-316 | same for an exit sample |
| Daemon.Amon.ProcessExit | cmd/amon/main.go:270-315 | ignores exits that are no crash, forgets untracked crashes, reports tracked ones |
| Daemon.Amon.ReportCrash | cmd/amon/main.go:279-307 | uses up the process's signal and buffer; a report exactly when there is a buffer and files can be written |
| Daemon.Amon.Dispatch | cmd/amon/main.go:581-604 | one sample handled: the log grows by it and the state is what the log prescribes |
| Daemon.Amon.Run | cmd/amon/main.go:567-606 | any sequence of samples handled in order |
| Tracking.LoadConfig | cmd/amon/main.go:318-341 | fills both kernel maps with the names' keys; fails exactly when a list has more distinct keys than its map holds |
| Tracking.LookupsAgree | cmd/amon/main.go:418-422 | for any 16 bytes kernel and user lookups differ only on an unterminated comm that is the front of a longer name |
| Tracking.TrackingAgrees | cmd/amon/main.go:265-273 | on every terminated comm the kernel's key lookup hits exactly when user space tracks the trimmed name |
| Tracking.LongNamesNeverMatch | cmd/amon/main.go:406-412 | a name of more than 15 bytes matches no terminated comm on either side |
| EndToEnd.ReadsFollow | cmd/amon/main.go:569-604 | while the consumer has understood a front part of the submitted records, reading the next samples off the ring makes it a longer front part |
| EndToEnd.Interleaved | cmd/amon/main.go:567-606 | from the start, whatever the interleaving of probe executions and reads of a first-in first-out ring, the consumer has understood a front part of the submitted records in order |
| EndToEnd.FaultAddressOrigin | cmd/amon/main.go:279-294 | the address analysed is 0 or that of the capture, pending for the process with the same signal, behind the last signal event since the last tracked crash |
| EndToEnd.OwnSignalIff | internal/reports/reports.go:178-182 | the address analysed comes from the last crash signal delivered to the process, with its number, exactly when that delivery was reported and the ring had room; else it is 0 or an earlier delivery's |
| EndToEnd.OwnAddressIff | internal/reports/reports.go:178-185 | the address analysed is that of the dying thread's own fault exactly when its signal record found room, the fault was captured, and meanwhile no thread of the process had another captured or the same signal reported |
| EndToEnd.StaleAddress | internal/reports/reports.go:178-185 | a run whose SIGBUS crash is analysed with the address of a SIGSEGV the process survived |
| EndToEnd.ReportedEventsAreOwn | cmd/amon/main.go:296-304 | every event shown was submitted by the probes for that process after its previous crash and before this one |
| EndToEnd.ReportedOpenOrigin | internal/reports/reports.go:155-164 | a file event shown is an openat exit of that process, with name and duration of its thread's latest stored enter |
| EndToEnd.ReportedConnectOrigin | internal/reports/reports.go:155-164 | a network event shown is a connect exit of that process, with destination and duration of the process's latest stored connect |
| EndToEnd.ReportedIff | cmd/amon/main.go:271-314 | a crash is reported exactly when its name is an allowed key of the kernel, files can be written and the process has had an event since its previous crash |
| EndToEnd.WrittenTells | cmd/amon/main.go:259-316 | each report written is of one crash in the run: whole process gone, tracked, ids, time, status and signal as at that exit, and every event shown submitted for that process since its previous crash |
| EndToEnd.WrittenReport | cmd/amon/main.go:567-606 | the same of the reports the consumer object holds after it and the probes object ran in any interleaving, joined by the ring |

## Left out

- Loading, verifying, attaching and pinning the probe programs, the ring reader, rlimits, signal handling and shutdown in `main`: plumbing. A run covers the time in which all hooks are attached.
- Buffer size: `GetEventThreshold` (`utils/utils.go:27-34`) reads the configuration again for every event. Each delivery carries the size it yields, required to be positive; with the field missing from the file it is 0 and the first push would fail.
- Clocks, user memory, `/proc` files, captured stacks and whether report files can be written are inputs of a step or a delivery. A maps file is one text per delivery; the 64 KiB line limit of `bufio.Scanner` and other read errors in the middle of the file count as unreadable, and text is characters, not bytes of invalid UTF-8.
- Map capacities and failing updates of the probe maps are the `updated` flag of a step, ring capacity is its `reserved` flag, so no bound on the number of entries is modelled.
- Each probe execution and each handler is atomic: mutexes, weak memory and races between two executions on one map entry are not modelled.
- Clean-up on normal exit: the program keeps buffers, signal data and `child_root` entries then, and nothing is claimed about their growth.
- ELF files: symbol tables are a fixed function from path to symbols, as the resolver reads them; that a symbol value is compared with a file offset is kept, whether it names the true function is not claimed.
- `isExecutable` and `exePath` in the resolver's parser, the `File` field of a frame, the `[anonymous]` module (never produced, the base of an empty path is "."), the `base` field of the cache, `ProcessData`, `isConnectError` and `uint32ToIP`: unused.
- Causes and recommendations are enumerated values, one per message; signal and error names, report text, JSON, file names, logging and home directory lookup are presentation.
- The report function without a stack (`internal/reports/reports.go:119-124`) only calls the other with no signal context.
- Text.ParseMeaning: models ParseUint for an explicit base only, the only way the program calls it.
- Probes.Kernel.HandleSignalDeliver: the content of the kernel's stack map is not modelled; the stack behind an id is an input when the record is handled.
- Analysis.SameRegionAsResolver: both read the same text; that the file of a live process may change between two reads is not modelled.
