# Verification model of the SSH MCP server's core

This project models the parts of the server in which a mistake is hardest to see, and proves what they
promise. Each module follows one source file or one part of it.

| modules | what they model |
|---|---|
| `RouteState`, `RouteProtocol`, `RouteSafety`, `RouteTheorems`, `RouteProgress` | the connection manager as a concurrent protocol: a shared route slot, su channel, health cache, frozen platform, owner flag and shutdown flag, changed by locked blocks that any number of tasks run in any order, each of which may be cancelled at any await |
| `ConnectHandoff` | how the connection attempt passes from one task to the next: registering, the owner flag, and the two halves of the guard's drop |
| `RouterOsCollector`, `RouterOsOwner` | the one-shot owner task of a native RouterOS command, its slot, OPEN, EXEC and CLOSE, and the collector of its channel messages (sections 5.3 and 6.10 of RFC 4254) |
| `TarHeader`, `TarArchive`, `TarTree`, `TarTransfer`, `TarForeign` (with `Utf8`, `Utf8Meaning`) | the ustar writer and extractor (the ustar Interchange Format of the POSIX.1 pax utility), from octal fields to whole directory trees, what any archive may do to the destination, and what archives of other programs extract to |
| `PatchText`, `PatchParser`, `PatchRoundTrip`, `PatchGrammar`, `PatchApply`, `PatchBatch`, `PatchOutcome` | the patch language, its parser against a grammar, its hunk applier and the multi-file plan-then-commit tool |
| `Identification`, `IdentificationLines` (with `ByteStreams`) | the SSH identification scanner and the stream that hides it from both peers (section 4.2 of RFC 4253) |
| `ShellQuoting` | nested command wrappers, read back by the quoting rules of section 2.2 of the POSIX Shell Command Language |
| `RemotePaths` | lexical path normalisation and the set of busy transfer destinations |
| `LogTail`, `LogLines` | the backwards chunked reader of job logs |
| `EnvRecords`, `EnvSnapshot`, `EnvFields` | the bounded capture, framing and parsing of the host probe |

## How to read the model

- Code that changes state step by step is a class or a method with loops. Each such method is proved equal
  to a specification function, and what the source promises is proved about that function.
- The connection manager is a state machine. A task is at one of the points where it can be suspended, an
  event is one locked block (or one atomic flag access) together with the answers of the outside world:
  whether a transport is closed, which platform authenticated, whether an open, probe or EXEC succeeded.
  `Stop` may end any task at any point, which is how cancellation is modelled. A theorem about
  `Reachable` states or about `Run` therefore covers every interleaving. Channels carry the generation of
  the route they were opened on; the source has no such tag, and no step reads it.
- Deadlines, cancellation, a vanished caller and shutdown of a RouterOS request are one monotone "stopped"
  condition, observed at the points where the code looks at it.
- A byte stream delivers and accepts pieces of any size (`Transport`), so a contract over it holds under
  every fragmentation. Where a read must not have zero length, that is a precondition of the read.
- The remote commit of a patch is an abstract compare-and-swap that is acknowledged, refused, or loses its
  acknowledgement before or after the swap. Anybody else may write any file between any two requests, and a
  load may fail; the theorems say what became of each file in terms of what the others did to it.

## Where the code and what it promises differ

- A numeric tar field holds its value modulo its capacity, so a file of 8^11 bytes or more gets a wrong
  size. `TarHeader.FieldExactBelowCapacity` states the exact condition, and the round trips assume it.
- The writer converts file names with `to_string_lossy`, so a name that is not UTF-8 is accepted and arrives
  under another name. `TarTransfer.TreeRoundTripsExactly` states that a tree arrives as it was if and only if
  all its names are UTF-8.
- A path of more than 100 bytes whose only slash is its first byte loses that slash in the header
  (`TarHeader.SplitUstarJoins`, `TarHeader.HeaderRoundTrip`); the directory walk never makes such a path.
- The tail reader's one-mebibyte limit can cut the first line it returns.
  `LogTail.AnswerIsWholeExactlyWithinLimit` states exactly when the returned text is that of the whole file,
  and `LogTail.LongLineIsCut` is a family of files for which it is not. The branch that would cut a chunk in
  the middle cannot be taken.
- Truncating the host probe never changes a scalar field that is already known, but the two virtualization
  fields are refined by records that are read later. `EnvSnapshot.ContainerSettlesExactly` and
  `EnvSnapshot.VmSettlesExactly` give the exact conditions for a cut at any byte;
  `EnvSnapshot.OciIsRefinedLater` and `EnvSnapshot.HypervisorFlagIsRefinedLater` are whole probe outputs, and
  cuts of them, that show the change.
- `validate_tar_header` compares a six-byte field with a seven-byte string for the old GNU magic. The
  comparison is never true, and the model leaves it out.

## Model

| member | source | states |
|---|---|---|
| RouteState.ConnectionManager.PublishRoute | src/ssh/connection.rs:453-494 | without a shutdown, and with the platform unset or the candidate's, the candidate is in the slot, published and its platform frozen, and the health cache is empty; otherwise slot, su state and cache are as they were and nothing is published |
| RouteState.ConnectionManager.InvalidateSession | src/ssh/connection.rs:1366-1382 | invalidation of an expected generation empties route, su state and cache together, and touches nothing and hands out nothing when another route is current |
| RouteState.ConnectionManager.ResetSuState | src/ssh/connection.rs:1057-1071 | su state is reset, and its channel handed back, only if the generation is current |
| RouteState.ConnectionManager.StoreElevated | src/ssh/connection.rs:1172-1186 | an elevated shell is stored exactly when no shutdown has begun and its route is still current |
| RouteState.ConnectionManager.TryTakeSuChannel | src/ssh/command.rs:348-362 | the su channel is handed out only for the current, open route, and the slot is then empty |
| RouteState.ConnectionManager.RestoreSuChannel | src/ssh/command.rs:364-384 | a borrowed su channel is put back only into an empty slot of its own, current, open route |
| RouteState.ConnectionManager.MarkHealthProbeOk | src/ssh/connection.rs:745-756 | the health cache is written only for the current, open route |
| RouteState.ConnectionManager.BeginAutoElevation | src/ssh/connection.rs:505-527 | the automatic elevation of a route is claimed once, and not during shutdown |
| RouteState.ConnectionManager.CloseLocked | src/ssh/connection.rs:1327-1350 | the locked block of close empties route, su state and cache and hands out channel and route |
| RouteSafety.StepKeepsInv | src/ssh/connection.rs:205-260 | every locked step of every task keeps the whole protocol invariant |
| RouteSafety.ReachableInv | src/ssh/connection.rs:205-260 | the invariant holds in every reachable state of every interleaving, with cancellation at any await |
| RouteSafety.PublishKeepsInv | src/ssh/connection.rs:466-490 | publication keeps the invariant: the slot is empty, the generation is larger than all published ones, the platform is the frozen one |
| RouteSafety.QuietKeepsInv | src/ssh/connection.rs:667-756 | a step that only tames the shared state and moves one task keeps what every other suspended task relies on |
| RouteTheorems.ElevationAndHealthFollowRoute | src/ssh/connection.rs:1057-1071 | in every reachable state a stored su channel was opened on the current route, the elevation flag is up exactly when the su generation is nonzero and then names the current POSIX route, and a health-cache entry names the current POSIX route |
| RouteTheorems.OneConnectOwner | src/ssh/connection.rs:205-260 | in every reachable state at most one task owns the connection attempt, and the flag is up if and only if one does |
| ConnectHandoff.NoWaiterIsForgotten | src/ssh/connection.rs:214-235 | registering before the flag is inspected loses no wake-up: in every run a waiter that has not been notified has an owner, or a guard in the middle of its drop, left to notify it |
| ConnectHandoff.StepKeepsInv | src/ssh/connection.rs:205-242 | every step of every contender keeps it that the flag is up exactly while one task owns the attempt and that no waiter is forgotten |
| ConnectHandoff.DroppedGuardWakesEveryone | src/ssh/connection.rs:60-65 | however an owner ends, its dropped guard frees the flag for the next contender and lets every waiter go on |
| ConnectHandoff.RegisteredKeepsTheNotification | src/ssh/connection.rs:214-235 | a contender that registered before the drop was complete is not put to sleep by a flag that is up again |
| RouteTheorems.NoRouteIsOverwritten | src/ssh/connection.rs:466-490 | every publication finds the slot empty, no step replaces one route by another, and a route that appears is the one just published |
| RouteTheorems.GenerationsStrictlyIncrease | src/ssh/connection.rs:466-490 | over any run published generations strictly increase, none is forgotten, and the current route is the last one published |
| RouteTheorems.PlatformIsFrozen | src/ssh/connection.rs:453-494 | the platform is unset exactly until the first publication, never changes afterwards, and is that of every route ever published |
| RouteTheorems.CloseIsFinal | src/ssh/connection.rs:1327-1340 | after the locked block of close no route, su channel, elevation or cache entry appears in any continuation, and nothing more is published |
| RouteTheorems.CommandIsEnqueuedAtMostOnce | src/ssh/command.rs:617-674 | in any run a call through the pre-exec retry enqueues its command at most once, and once enqueued it can never enqueue again |
| RouteTheorems.LateFailureIsHarmless | src/ssh/connection.rs:1361-1382 | handling the failure of a route that is no longer current changes nothing, and the current route has the larger generation |
| RouteTheorems.RouteIsRemovedOnlyByItsOwnFailure | src/ssh/connection.rs:1361-1382 | a route disappears only by a failure handled for its own generation, an explicit invalidation, or close |
| RouteTheorems.AutoElevationOncePerRoute | src/ssh/connection.rs:505-527 | automatic elevation is attempted at most once for each published route |
| RouteProgress.PublicationFillsTheSlot | src/ssh/connection.rs:453-494 | in every reachable state a publication step is recorded if and only if its candidate is in the slot afterwards, and that is if and only if no shutdown has begun and the platform is unset or the candidate's |
| RouteProgress.ElevationIsStored | src/ssh/connection.rs:1172-1186 | a finished elevation is stored, flag, generation and channel, exactly when its route is still current and no shutdown has begun |
| RouteProgress.BorrowAndReturn | src/ssh/command.rs:348-384 | borrowing the su channel empties its slot, and giving it back undisturbed restores the whole shared state |
| RouteProgress.ProbeIsRemembered | src/ssh/connection.rs:745-756 | a successful probe of the current, open route is in the health cache afterwards |
| RouteProgress.ConnectSucceeds | src/ssh/connection.rs:205-494 | a run: a contender that meets a free flag, no shutdown, and no route or a closed one, and whose peer authenticates with an admissible platform, ends with its own fresh route published and the flag free |
| RouteProgress.ProbeDecidesHealth | src/ssh/connection.rs:667-756 | a run: an open POSIX route that answers its probe is remembered as healthy and the call ends; one that fails it is gone and the call starts over |
| RouteProgress.ElevationSucceeds | src/ssh/connection.rs:505-527 | a run: a route that was never tried is claimed, elevated, and its shell stored under its generation |
| RouteProgress.CloseEmptiesEverything | src/ssh/connection.rs:1327-1350 | a run: beginning and finishing close leaves no route, su channel, elevation or cache entry, whatever was there |
| RouteProgress.EveryFailureForgetsItsRoute | src/ssh/connection.rs:1361-1382 | whichever of the five failures is handled, its own route is emptied out with all that hangs on it, and any other route is left alone |
| RouteProgress.CommandRuns | src/ssh/command.rs:617-674 | a run: on a published route a retrying call whose open and EXEC succeed enqueues its command once, on that route |
| RouteProgress.FailureIsRetriedOnce | src/ssh/command.rs:617-674 | a run: a first failure before EXEC invalidates its own generation only, reconnects and opens a second attempt without having enqueued anything |
| RouterOsCollector.BytePrefix.Append | src/ssh/routeros.rs:88-94 | appending keeps what fits the limit and counts everything |
| RouterOsCollector.Collector.Event | src/ssh/routeros.rs:131-168 | one channel message updates the collector as the step `Step` and yields its verdict |
| RouterOsCollector.CollectorMeaning | src/ssh/routeros.rs:131-190 | for every message sequence collection succeeds exactly when the first terminal message is a Close preceded by an exit status and no exit signal; each stream is the limit-length prefix of all bytes written to it; only a rejection clears "may have run" |
| RouterOsCollector.AnswerMeaning | src/ssh/routeros.rs:131-190 | what the caller of an enqueued command learns, from the messages alone: success exactly for a Close after a status and no signal, each stream as a prefix marked when bytes are missing and with its total rounded up, the last exit status, and on failure whether the command may have run |
| RouterOsCollector.ReportIsExact | src/ssh/routeros.rs:96-105 | the reported bytes are a prefix of the stream, the truncation flag is set exactly when bytes are missing, and the token total is the stream's length rounded up |
| RouterOsCollector.TokenLimitIsExact | src/ssh/routeros.rs:81-105 | under a token limit a stream of at most that many tokens' bytes is reported whole and unmarked, and a longer one cut at exactly that length and marked |
| RouterOsCollector.PacketBoundariesAreInvisible | src/ssh/routeros.rs:88-190 | message sequences that differ only in how output was cut into packets give the same state and verdict |
| RouterOsCollector.AppendExtendsPrefix | src/ssh/routeros.rs:88-94 | the capture of a stream extended by a packet is the capture of the longer stream |
| RouterOsOwner.Owner.Serve | src/ssh/routeros.rs:262-353 | whatever the world does, the run sends exactly one response, enqueues EXEC at most once and never after a response, closes every channel it opens, holds its slot to the end, retires a generation exactly when the OPEN budget ran out on it, answers before it retires, and reports "may have run" honestly; EXEC is enqueued if and only if slot, connection, channel and EXEC are granted and no stop comes within six observations; without a stop the one response is then the verdict of the message queue; a command that was not enqueued is answered as refused or as not started, and a stop seen during the OPEN without waiting for it |
| RouterOsOwner.Owner.UseChannel | src/ssh/routeros.rs:328-353 | the same from the opened channel on, including the late channel of a request that was already answered |
| RouterOsOwner.Owner.ExecOn | src/ssh/routeros.rs:328-350 | EXEC is enqueued if and only if it is accepted and no stop has come, and the command is then answered from its own messages; otherwise the verdict tells a stop from a refusal |
| RouterOsOwner.GrantedCommandIsAnswered | src/ssh/routeros.rs:328-353 | without a stop, the caller of an enqueued command gets the verdict of its message queue, and nothing else |
| RouterOsOwner.Owner.Collect | src/ssh/routeros.rs:335-344 | collection ends with the verdict of the message queue, or with a stop on what had arrived by then |
| RouterOsOwner.Owner.Stopped | src/ssh/routeros.rs:43-79 | shutdown, cancellation and deadline are one condition that, once visible, stays visible |
| RouterOsOwner.Owner.SendResult | src/ssh/routeros.rs:193-197 | the response sender is used at most once |
| TarHeader.WriteOctal | src/transfer/tar.rs:213-231 | the digit loop, with its early exit, fills the field with the low octal digits of the value and a NUL |
| TarHeader.WriteOctalChecksum | src/transfer/tar.rs:233-244 | the checksum field is six octal digits, NUL and space |
| TarHeader.WriteHeader | src/transfer/tar.rs:168-203 | writing fields into a zeroed block and then the checksum gives exactly `HeaderFor`, or is refused when the path does not fit |
| TarHeader.DigitsRoundTrip | src/transfer/tar.rs:550-558 | reading back octal digits gives the value modulo 8 to the power of the width |
| TarHeader.FieldExactBelowCapacity | src/transfer/tar.rs:213-231 | a written field reads back as its value if and only if the value is below the field's capacity |
| TarHeader.ChecksumFits | src/transfer/tar.rs:524-535 | the checksum of every block fits six octal digits |
| TarHeader.HeaderIsValid | src/transfer/tar.rs:482-522 | a written header is never an end-of-archive block and passes checksum and magic validation |
| TarHeader.HeaderRoundTrip | src/transfer/tar.rs:453-480 | parsing a written header gives its type and its size modulo 8^11, and its path if and only if no leading slash is lost in the split |
| TarHeader.SplitUstarJoins | src/transfer/tar.rs:246-261 | an accepted split fits both fields, and joins back to the path if and only if it is not a long path whose only slash is its first byte |
| TarArchive.ArchiveRoundTrip | src/transfer/tar.rs:302-388 | extracting any written archive has exactly the effect of its entries applied directly, whatever follows the end blocks |
| TarArchive.EntryComesBack | src/transfer/tar.rs:302-388 | a written entry at the front of a stream is taken for that entry and nothing else, and leaves the rest of the stream |
| TarArchive.ExtractStaysInside | src/transfer/tar.rs:302-388 | for every stream, hostile ones included, and however extraction ends: nothing changes but paths whose components are all non-empty, neither `.` nor `..`, free of slashes and well-formed text |
| TarArchive.SanitizeIsSafe | src/transfer/tar.rs:560-588 | whatever path an entry has, what it leads to is such a path |
| Utf8.LossyIsIdentityExactly | src/transfer/tar.rs:537-548 | the lossy conversion changes a name if and only if it is not UTF-8 |
| Utf8Meaning.ValidMeaning | src/transfer/tar.rs:537-548 | a name is taken as text exactly when it is the UTF-8 encoding of a sequence of code points (section 3 of RFC 3629) |
| Utf8Meaning.BrokenOffExactly | src/transfer/tar.rs:537-548 | one replacement character stands for the longest start of an encoding that broke off, or for one byte that starts none |
| Utf8Meaning.LossyAround | src/transfer/tar.rs:537-548 | text in front of a broken part is kept, and the broken part becomes U+FFFD |
| TarTree.SanitizeJoined | src/transfer/tar.rs:560-588 | a joined path of proper names is accepted and leads back to its components, with or without a trailing slash |
| TarTree.GrowEntries | src/transfer/tar.rs:47-131 | applying the items of a directory adds exactly the nodes of that directory and changes nothing else |
| TarTransfer.TreeRoundTrip | src/transfer/tar.rs:18-131 | for every tree with UTF-8 names that the writer accepts and whose files fit their size fields, extraction into an empty directory yields exactly the tree's paths and contents, with the counts the writer reported |
| TarTransfer.TreeRoundTripsExactly | src/transfer/tar.rs:18-131 | for every real directory tree the writer accepts whose files fit their size fields, the tree arrives as it was if and only if all its names are UTF-8 |
| TarTransfer.WriteEntries | src/transfer/tar.rs:47-131 | the loop over the explicit stack succeeds exactly when every item can be encoded, and then writes their codes in walk order |
| TarTransfer.WriteDirAsTar | src/transfer/tar.rs:18-131 | the whole archive: refused for anything but a directory, otherwise the entries and two zero blocks |
| TarTransfer.ExtractTarToDir | src/transfer/tar.rs:302-388 | the extraction loop, however the stream arrives and wherever it ends or breaks, equals the stream decoder `Extract`, whose effect the rows of `TarArchive` and `TarForeign` state, including what an aborted extraction leaves behind |
| TarTransfer.CopyExact | src/transfer/tar.rs:263-283 | exactly the requested bytes are moved, or the source was too short |
| TarTransfer.TransferTree | src/transfer/tar.rs:18-388 | writer and extractor run end to end: the same tree arrives if and only if all names are UTF-8, and then both sides report the same counts |
| TarForeign.SkippedExactly | src/transfer/tar.rs:333-340 | an entry is skipped exactly when its path is any number of `./` |
| TarForeign.DotSlashLeadsNowhere | src/transfer/tar.rs:560-570 | `./` in front of any path leads where the path leads |
| TarForeign.ComponentsLead | src/transfer/tar.rs:560-588 | a path built from components is refused exactly for a leading slash, a `..`, or nothing but `.` and empty names, and otherwise leads to its other components in order |
| TarForeign.EntryIsPassedOver | src/transfer/tar.rs:329-375 | an entry for the directory itself and an extended header are passed over with their content and padding: file system, counts and all that follows are as without it |
| TarForeign.TreeBehindOthers | src/transfer/tar.rs:302-388 | a tree's archive behind any number of such entries extracts to the same tree with the same counts |
| TarForeign.RemoteTarArrives | src/transfer/exec_raw.rs:836-840 | what a remote tar of `.` sends, entries for the directory and extended headers in front and every path behind `./`, extracts to exactly the tree |
| TarForeign.FileArrives | src/transfer/tar.rs:361-370 | a regular file arrives if and only if no file stands in its way and its place is no directory; then it holds the content, the directories above exist, and nothing else has changed |
| TarForeign.DirectoryArrives | src/transfer/tar.rs:345-360 | a directory arrives if and only if its size is zero and no file stands at its path or above; nothing else changes |
| TarForeign.CutFileKeepsWhatArrived | src/transfer/tar.rs:361-370 | a file that the stream ends in is left with the bytes that arrived; any other entry cut short leaves nothing |
| TarForeign.FieldIsRead | src/transfer/tar.rs:550-558 | a number field is read through blanks and zero bytes on either side |
| TarForeign.StrangeByteIsRefused | src/transfer/tar.rs:550-558 | any byte but an octal digit, a filler or a plus sign spoils a number field |
| TarForeign.ForeignHeaderIsRead | src/transfer/tar.rs:453-522 | a header of another program with a right checksum gives its name, size and type whatever its other bytes, with the prefix exactly when it says `ustar` |
| TarForeign.OthersReadHeader | src/transfer/tar.rs:168-203 | in a written header any reader finds mode and time modulo their fields, owner zero, the type and the `ustar` magic |
| TarForeign.WriterAcceptsExactly | src/transfer/tar.rs:47-131 | the writer accepts entries exactly when all are files and directories whose paths fit a name field, or a prefix and a name field split at their last slash |
| TarForeign.DamageStopsExtraction | src/transfer/tar.rs:498-535 | one damaged byte of a written header outside its checksum field is always noticed, and ends the extraction with what came before it |
| PatchRoundTrip.PrintThenParse | src/patch.rs:95-164 | parsing the canonical printing of any well-formed patch list returns that list, including lines that look like section headers |
| PatchRoundTrip.ParsedIsWellFormed | src/patch.rs:95-134 | every successful parse yields a well-formed list with distinct valid paths |
| PatchRoundTrip.ParsePrintParse | src/patch.rs:95-164 | printing and parsing again what was parsed changes nothing |
| PatchParser.ParseAddLoop | src/patch.rs:203-219 | the loop of an add section equals its parser function |
| PatchParser.ScanHunkLoop | src/patch.rs:254-285 | the inner loop of an update section equals the hunk scanner, whose meaning is `PatchGrammar.BodyIsScanned` |
| PatchParser.ParseUpdateLoop | src/patch.rs:221-305 | the outer loop of an update section equals its parser function |
| PatchParser.ParseSectionsLoop | src/patch.rs:115-133 | sections are cut at headers only, and a repeated path is refused at its second section |
| PatchParser.ParsePatchLoop | src/patch.rs:95-134 | the whole parser, loops included, equals `ParsePatch` |
| PatchGrammar.ParserMeaning | src/patch.rs:95-305 | for every input and every list of file patches: the input is accepted as that list if and only if the grammar says it is that list's text |
| PatchGrammar.BodyIsScanned | src/patch.rs:254-285 | of any hunk body the old lines are, in order, the texts marked blank or `-`, the new ones those marked blank or `+`, and a change is one marked `-` or `+` |
| PatchGrammar.UpdateMeaning | src/patch.rs:221-305 | an update is accepted exactly when it is the text of at least one hunk: a marker and lines that all carry one of the three marks, at least one of them old and at least one changed |
| PatchGrammar.AddMeaning | src/patch.rs:203-219 | an added file's body is accepted exactly when every line carries `+`, and its content is each line without it and with a line feed |
| PatchGrammar.SectionMeaning | src/patch.rs:136-176 | a section is accepted exactly as header, valid path and the body its operation asks for |
| PatchGrammar.PathMeaning | src/patch.rs:350-363 | a path is valid exactly when it is absolute, does not end in a slash or in white space, and holds no control character, the characters given by their code points |
| PatchGrammar.EnvelopeIsChecked | src/patch.rs:95-113 | an input is refused for its envelope exactly when first line, last line or the section in between is missing |
| PatchGrammar.BadSectionIsReported | src/patch.rs:117-133 | behind sound sections the first section that is none is refused with its own error, whatever follows |
| PatchGrammar.RepeatedPathIsRefused | src/patch.rs:117-133 | behind sound sections a section that repeats a path is refused for that path, whatever follows |
| PatchGrammar.StrayInAdd | src/patch.rs:203-219 | the first line of an added file without `+` is refused by name, a move as unsupported |
| PatchGrammar.StrayInHunk | src/patch.rs:254-262 | a line like a header inside a hunk is refused by name, a move as unsupported |
| PatchGrammar.ErrorBehindHunks | src/patch.rs:221-305 | behind any number of sound hunks the error of the next one is reported |
| PatchGrammar.EmptyHunkIsRefused | src/patch.rs:287-296 | a hunk without an old line, or without a changed one, is refused |
| PatchApply.SplitThenJoin | src/patch.rs:307-348 | splitting a text into lines and joining them again is the identity on every string |
| PatchApply.AnchorMeaning | src/patch.rs:324-330 | a window is anchored exactly when it ends past the first line that contains the anchor |
| PatchApply.HunkMeaning | src/patch.rs:316-341 | a hunk applies exactly when it has one window, the result then being prefix, new lines and suffix; otherwise the error tells no window from several |
| PatchApply.HunksMeaning | src/patch.rs:307-348 | the hunks apply exactly when each in turn has one window in the lines left by those before it |
| PatchApply.ErrorNamesFirstFailure | src/patch.rs:307-348 | an error names the first failing hunk and its kind of failure |
| PatchApply.FirstFailureIsReported | src/patch.rs:307-348 | conversely, a hunk without a single window after a chain of unique edits is exactly what is reported |
| PatchApply.ApplyHunksLoop | src/patch.rs:307-348 | the in-place splice loop equals `ApplyHunks` |
| PatchApply.PlanChangedMeaning | src/patch.rs:178-200 | a plan is marked changed exactly when it would leave the file different |
| PatchOutcome.WindowMeaning | src/patch.rs:316-333 | a window is a place where the old lines stand between some lines before and after, with the anchor's text inside one of the lines up to their end |
| PatchOutcome.EditedMeaning | src/patch.rs:316-341 | an edit puts the new lines where the old ones stood and keeps every other line, index by index |
| PatchOutcome.ApplyHunksMeaning | src/patch.rs:307-348 | hunks make a text if and only if it is that of a chain of unique edits of the lines, with a final line feed exactly where there was one and lines are left |
| PatchOutcome.PlanMeaning | src/patch.rs:178-200 | a plan is given if and only if an update's hunks make its content, an added file was missing, or a deleted one was there; it is marked changed exactly when it differs |
| PatchOutcome.PlanRefusals | src/patch.rs:178-200 | adding over an existing file and changing a missing one are refused, each for exactly that reason |
| PatchOutcome.HunkRefusals | src/patch.rs:178-200 | any other refusal of an update names the first hunk that has no window, or several |
| PatchBatch.BatchOutcome | src/server/handlers/apply_patch.rs:21-158 | whatever anybody else writes at any time, every reported status is true of its file: applied means swapped at a moment at which it held exactly what its plan was made for, failed, unchanged and not attempted mean changed only by others, unknown means one or the other; no other file is touched, and a bad patch touches nothing |
| PatchBatch.QuietFilesOutcome | src/server/handlers/apply_patch.rs:21-158 | every file that nobody else writes to ends as its status says, whatever others do elsewhere: done as planned on its initial content, untouched, or for a lost acknowledgement one of the two; so a full success equals all plans carried out at once |
| PatchBatch.PreflightOnlyReads | src/server/handlers/apply_patch.rs:40-46 | whoever else writes, a preflight, successful or not, changes no file |
| PatchBatch.CommitsTouchOnlyAttempted | src/server/handlers/apply_patch.rs:48-78 | whoever else writes, a file outside the attempted commits changes only by others' hands |
| PatchBatch.CommitsMeanWhatTheySay | src/server/handlers/apply_patch.rs:48-78 | whoever else writes, every planned file before the stop was swapped from its expected content, every file after it was left to the others, and the stopping one was left alone unless its acknowledgement was lost |
| PatchBatch.SnapshotWasTaken | src/server/handlers/apply_patch.rs:98-107 | every plan was made for what its file held at some moment of the preflight |
| PatchBatch.PrepareLoop | src/server/handlers/apply_patch.rs:38-46 | the preparation loop equals `PrepareAll` and stops at the first file that cannot be loaded, planned or is too large |
| PatchBatch.CommitLoop | src/server/handlers/apply_patch.rs:48-78 | the commit loop, overwriting statuses in place, equals `CommitAll` with the statuses of its outcome |
| PatchBatch.ExecuteApplyPatch | src/server/handlers/apply_patch.rs:21-89 | the whole tool equals `Batch` |
| PatchOutcome.TryPlanMeaning | src/server/handlers/apply_patch.rs:92-127 | a file is ready exactly when it was read, has a plan for what was read, and the planned content is not too large |
| PatchOutcome.PreflightMeaning | src/server/handlers/apply_patch.rs:40-46 | whoever else writes, a preflight succeeds with the plans for exactly what each read found, or fails at exactly the first file that is unreadable, has no plan or is too large |
| PatchOutcome.CommitsStopExactly | src/server/handlers/apply_patch.rs:48-78 | whoever else writes, the commits stop at exactly the first changed file whose compare-and-swap is not acknowledged, with that reply |
| PatchOutcome.UndisturbedBatch | src/server/handlers/apply_patch.rs:21-89 | undisturbed, a text of the grammar whose files all have a plan of permitted size is carried out as a whole: each file holds its planned content, each status says so, and no other file changes |
| Identification.Identify | src/ssh/identification.rs:68-139 | for every stream and every fragmentation the verdict is that of a one-pass scan, replayed and unread bytes are the stream, the replay buffer holds at most 20*255+256 bytes, and the client identification is sent once |
| Identification.PrefixDecides | src/ssh/identification.rs:83-139 | a decision taken on any prefix of the stream is the decision of the one-pass scan of the whole |
| Identification.ScanMeaning | src/ssh/identification.rs:83-139 | a stream identifies a platform if and only if at most 20 complete lines of at most 255 bytes that identify nothing stand in front of such a line that identifies it |
| IdentificationLines.VerdictMeaning | src/ssh/identification.rs:83-139 | for every stream and each of the four verdicts: it is given if and only if the stream is that many lines, ended by LF or CR LF, whose texts identify nothing, and then an identifying line, a twenty-first line, 255 bytes without a line end, or an end |
| IdentificationLines.BannerIdentifies | src/ssh/identification.rs:99-117 | a text of at most 253 bytes that identifies a platform does so ended by LF and by CR LF, behind up to twenty lines that identify nothing, and whatever follows |
| Identification.ClassifyMeaning | src/ssh/identification.rs:148-161 | a line identifies RouterOS exactly when it is valid UTF-8 and its whole software token is the RouterOS one |
| Identification.IdentificationStream.PollRead | src/ssh/identification.rs:163-181 | a read delivers the next bytes of replay and stream and is empty only at the end |
| Identification.IdentificationStream.ReadInPieces | src/ssh/identification.rs:163-181 | any sequence of read sizes delivers exactly the peer's bytes |
| Identification.IdentificationStream.PollWrite | src/ssh/identification.rs:183-205 | a write fails exactly when the bytes written so far disagree with the client identification, and then forwards nothing |
| Identification.IdentificationStream.WriteInPieces | src/ssh/identification.rs:183-205 | however the writer fragments its bytes, the wire carries the identification once followed by the rest, or nothing beyond it on a mismatch |
| ShellQuoting.EscapedComesBack | src/shell_escape.rs:9-11 | an escaped string read inside single quotes gives back the string, then the shell continues outside |
| ShellQuoting.QuotedIsOneWord | src/ssh/sanitize.rs:104-141 | a quoted string is one word, or the end of one, equal to the string |
| ShellQuoting.LexOfPrint | src/ssh/elevation.rs:33-51 | the shell reads a formatted command line as exactly the tokens its parts stand for |
| ShellQuoting.WrapText | src/ssh/sanitize.rs:104-141 | every wrapped line is its front, a blank, and the prelude and escaped command between single quotes |
| ShellQuoting.PosixShellFront | src/ssh/sanitize.rs:104-111 | the POSIX shell wrapper starts with `sh -c`, or `sh -lc` for a login shell |
| ShellQuoting.TimeoutFront | src/ssh/command.rs:136-142 | the timeout wrapper starts with `timeout -k 2s`, the seconds and `sh -lc` |
| ShellQuoting.PlainSudoFront | src/ssh/elevation.rs:33-39 | sudo without a password starts with `sudo -n sh -c` |
| ShellQuoting.PasswordSudoFront | src/ssh/elevation.rs:40-50 | sudo with a password starts with the quoted password printed into `sudo -S -p '' sh -c` |
| ShellQuoting.BackgroundFront | src/background/wrapper.rs:15-28 | a background job starts with its quoted log path, the three marker lines and `exec sh -c` |
| ShellQuoting.EscapeKeepsPrefix | src/background/wrapper.rs:10-28 | a fixed prelude in front of the command is not touched by escaping |
| ShellQuoting.WrappedLine | src/background/wrapper.rs:10-28 | the shell that runs a wrapped line sees the wrapper's own words and then the command as one word |
| ShellQuoting.PasswordIsOneWord | src/ssh/elevation.rs:33-51 | the sudo password reaches printf as one word of its own, whatever it contains |
| ShellQuoting.WrapDeliversCommand | src/ssh/command.rs:136-146 | every wrapper hands its inner shell exactly the embedded command after its fixed prelude, free of expansions |
| ShellQuoting.NestingDeliversCommand | src/ssh/command.rs:136-146 | through any nesting of wrappers the innermost shell receives the original command |
| RemotePaths.NormalizeRemotePath | src/transfer/mod.rs:857-880 | the loop over the parts stack equals `Normalize` |
| RemotePaths.NormalizeIsIdempotent | src/transfer/mod.rs:857-880 | normalising twice is normalising once |
| RemotePaths.NormalizeKeepsMeaning | src/transfer/mod.rs:857-880 | a path and its normal form name the same place from every working directory |
| RemotePaths.SameFormIffSamePlace | src/transfer/mod.rs:857-880 | any two paths have the same normal form if and only if they name the same place from every directory |
| RemotePaths.AbsoluteSameFormIffSamePlace | src/transfer/mod.rs:857-880 | two absolute paths have the same normal form if and only if they name the same place |
| RemotePaths.ProbeDecides | src/transfer/mod.rs:857-880 | one directory, deep enough and with names foreign to both paths, already tells any two different forms apart |
| RemotePaths.NoTwoPutsToOnePlace | src/transfer/mod.rs:240-276 | in no run are two live put guards on paths that mean the same place |
| RemotePaths.RefusedOnlyByALiveGuard | src/transfer/mod.rs:240-276 | a put is refused exactly when a live put guard has the same normal form, so a dropped guard leaves nothing behind |
| RemotePaths.TransferEngine.ReserveDestination | src/transfer/mod.rs:240-276 | a reservation succeeds exactly when its key is free, and then adds exactly that key |
| RemotePaths.TransferEngine.DropGuard | src/transfer/mod.rs:202-213 | dropping a guard frees its key and no other |
| LogTail.ReadLocalLogTail | src/ssh/command.rs:1396-1454 | on a stable file the reader returns the last n lines of the whole file when its limit allows it, and otherwise those of the file's last mebibyte |
| LogTail.AnswerIsWholeExactlyWithinLimit | src/ssh/command.rs:1396-1454 | the returned text is the tail of the whole file if and only if the limit allows it |
| LogTail.LongLineIsCut | src/ssh/command.rs:1410-1453 | a file of more than a mebibyte without a line end is one for which it does not |
| LogTail.ReadBack | src/ssh/command.rs:1413-1443 | the buffer is always a suffix of the file within the limit, the loop stops at the start, after enough line ends or at exactly the limit, and no chunk is ever cut |
| LogTail.SuffixIsExact | src/ssh/command.rs:1413-1453 | a suffix has the file's last n lines if and only if it has more than n lines, or its first line is intact (it begins where a line begins, or only the CR of a split CRLF was missed) and it has exactly n lines or no line was left out |
| LogTail.StoppedReaderIsRight | src/ssh/command.rs:1413-1453 | in every state in which the loop may stop, the suffix read gives the promised answer |
| LogTail.BeyondLimitLinesAreCut | src/ssh/command.rs:1410-1453 | outside the condition the lines read differ from those of the whole file |
| LogLines.WrittenIsRead | src/ssh/command.rs:1445-1453 | the lines of a file are the texts that were written, ended by LF or CR LF, and an unfinished last line keeps all of its bytes |
| LogLines.FileIsWritten | src/ssh/command.rs:1445-1453 | every file is such a text |
| LogLines.LastLinesComeBack | src/ssh/command.rs:1396-1454 | for every log within the limit the answer is exactly the texts of its last n lines, joined by line feeds |
| EnvRecords.AppendBounded | src/ssh/environment.rs:328-332 | what still fits is kept, and true is returned exactly when bytes were discarded |
| EnvRecords.Collect | src/ssh/environment.rs:284-326 | the capture is what the limit allows of the output up to exactly the event that ends the collection: the first that overflows a stream, a failure, a close, the deadline or the last one |
| EnvRecords.RecordsGrow | src/ssh/environment.rs:334-393 | more output only adds records behind those already complete |
| EnvRecords.FrameComesBack | src/ssh/environment.rs:334-400 | whatever records a probe can report, with NUL-free texts and a 64-byte binary header, the framing is read back exactly |
| EnvSnapshot.ParseSnapshot | src/ssh/environment.rs:341-467 | the assigning loop, with its early ends and its order-dependent fallbacks, gives each field the value its records stand for |
| EnvSnapshot.MeaningSnoc | src/ssh/environment.rs:403-453 | reading one record more makes exactly the assignment the program makes |
| EnvSnapshot.SortDedupMeaning | src/ssh/environment.rs:455-457 | the model list is strictly increasing with the same members |
| EnvSnapshot.TruncationNeverChangesWhatIsKnown | src/ssh/environment.rs:341-467 | cutting the output at any byte leaves every scalar field unknown or equal to its full value, and the models a sorted, duplicate-free list of at most four that is a subset of the full one |
| EnvSnapshot.Probe | src/ssh/environment.rs:284-326 | the same for the bounded capture of the output under any chunking and any deadline |
| EnvSnapshot.ContainerSettlesExactly | src/ssh/environment.rs:475-492 | cutting the output at any byte leaves the container unknown or right, if and only if no `oci` declaration was read whose known marker was cut off |
| EnvSnapshot.OciIsRefinedLater | src/ssh/environment.rs:475-492 | a whole probe output and a cut of it: unknown after the cut, docker without it |
| EnvSnapshot.VmSettlesExactly | src/ssh/environment.rs:494-529 | cutting the output at any byte leaves the virtual machine unknown or right if and only if the vendor was read, or xen was, or what product and vendor still say adds nothing to what was read |
| EnvSnapshot.HypervisorFlagIsRefinedLater | src/ssh/environment.rs:505-529 | a whole probe output and a cut of it: unknown after the cut, kvm without it |
| EnvSnapshot.OutputComesBack | src/ssh/environment.rs:341-402 | a probe output is read back as its records, and a cut behind any record leaves exactly the records before it |
| EnvFields.OutputIsReported | src/ssh/environment.rs:341-457 | for every output a probe can report, each field is what the records say: first or second text, identity or else process status, root exactly for user zero, positive parallelism, absolute shell, architecture with width, sorted models |
| EnvFields.VirtualizationIsReported | src/ssh/environment.rs:459-529 | for every such output container and virtual machine are exactly those that declaration, marker, kernel, firmware and processor stand for, value by value |
| EnvFields.ContainerIsReported | src/ssh/environment.rs:475-492 | each container is reported for exactly these declarations and markers |
| EnvFields.VmIsReported | src/ssh/environment.rs:494-529 | each virtual machine is reported for exactly these kinds, kernel answers and processor flags |

## Left out

- Foreign code (russh, tokio, TCP, key parsing, host-key files, process spawning) and real time: their answers are nondeterministic, deadlines a monotone "stopped" condition or a number of events let through.
- Holding a lock across an await, and one task awaiting another: the model lets other tasks run there and treats nested calls as separate tasks, so it has more runs than the program.
- The wrap-around of the 64-bit generation counter after 2^64 connections.
- `with_su_channel`: it hands the su slot to an arbitrary closure, so no invariant of that slot survives it.
- The elevation dialogue with the su shell, backoff, jump hosts, and the timeout probe.
- The timeout-wrapper fallback of `exec_via_channel`, which runs the command again on purpose; at-most-once is about the retry helper.
- `collect_channel_output` and the job reconciliation of `check_process`: their boundary and stability properties do not hold as one would state them.
- Conversion of captured command output to text (`from_utf8_lossy`): the model works on bytes.
- LogTail.ReadLocalLogTail: works on the file's bytes; the lossy conversion of what was read to text is not modelled.
- Tar modes, times, PAX contents and GNU variants, which the extractor does not restore; a file that changes while it is read; whether the last bytes of a file that was cut short reach the disk; the sort order of directories, since the theorems hold for every order.
- SHA-256 comparison in the remote commit is taken as equality of contents; the JSON replies, the single-file reply format and fault injection of the patch tool.
- I/O errors of the transport during identification and the flush and shutdown calls of its stream.
- `get` destinations: their keys are resolved local paths that are not normalised here, so alias exclusion is claimed for `put` only; validation of remote paths comes before the reservation and is not part of this model.
- The decoders of the probe's payloads (`scalar`, `distribution`, `decimal`, `effective_id`, `cpu_model`, `elf_abi`) are arbitrary functions: the truncation theorem does not depend on what they accept.
- RouterOsCollector.ReportIsExact and RouterOsCollector.AnswerMeaning: for streams whose length fits a machine word, since the byte counter saturates.
- RouterOsOwner.Owner.Stopped: which of several reasons a stopped request names in its message.
- ShellQuoting.WrapDeliversCommand: the timeout's seconds and the job identifier are inserted without quoting; the program only puts numbers and generated identifiers there, and the model asks that they hold no character special to the shell.
- CLI and configuration parsing, logging, tool schemas, startup hints, rsync, sftp and scp command lines.
