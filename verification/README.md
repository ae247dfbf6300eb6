# kernal-api in Dafny

A model of the parts of kernal-api whose behaviour is decided by their own state
and branching, with proofs of what they keep. Operating-system calls, the
network, clocks and third-party libraries appear as oracles: as parameters, as
scripts of answers, or as events of a step relation, over all of whose answers
the results are stated.

- **Archive links and budgets** (`ArchivePaths`, `ArchiveResolve`, `ArchiveWalk`,
  `ArchiveMeter`, `ArchiveRefusal`, `ArchiveInstall`, `ArchiveBudget`). The fuelled
  link resolver is proved to give what an independent, unfuelled path walker gives,
  exactly within limits metered on that walker, and to refuse for the reason that
  walker stops. What the installer leaves on disk is proved to be
  looked up where validation said. Byte budgets are conserved over the whole entry
  loop.
- **Splice relay** (`SessionRelay`). A step relation over both directions, their
  pipes and the shared commit flag.
- **Terminal keys** (`KeyUtf8`, `KeyGrammar`, `KeyDecoder`, `KeyTokens`,
  `KeyStream`). The byte-at-a-time decoder against a grammar of byte sequences
  stated without a state machine (sections 5.4 and 5.6 of ECMA-48, sections 3 and
  4 of RFC 3629).
- **Process observers** (`TraceSupervisor`, `ProcessWalk`, `DescendantPump`). The
  ptrace loop, the descendant walks, and the snapshot-difference monitors.
- **HTTP** (`HttpRedirect`, `HttpBody`). Redirect following (section 15.4 of
  RFC 9110) and bounded body reading.
- **Cache pruning** (`CacheEviction`, `CachePruning`). Selection passes, two
  evictions and the checks around them.
- **Small mechanics** (`Cancellation`, `ElfNotes`, `HashFrames`, with
  `LittleEndian` and `Common`).

Three places where the code does not give what one might expect are stated as
results. The lock-generation check can fail after both pre-checks passed: if and
only if the inventory shields a shape, with current rows that are all empty and a
stale row that neither the orphan eviction nor a cook-base rule takes
(`CachePruning`). On macOS the monitor's events alternate per identity but not
per pid; they alternate per pid if and only if no walk reuses a pid
(`DescendantPump`). A path that looks up may still be refused: it resolves if and
only if its links nest at most 64 deep and its visits are within the budget, both
measured on the lookup, and chains of every length show both sides
(`ArchiveMeter`).

`dafny verify dfyconfig.toml` checks the whole project.

## Model

| member | source | states |
|---|---|---|
| `ArchiveResolve.ResolveLinkPath` | src/archive.rs:258-320 | The resolver as written returns what the fuelled specification returns and lowers the shared step counter by exactly the number of components visited, nested calls included |
| `ArchiveResolve.VisitComponent` | src/archive.rs:271-306 | One turn of its loop: the non-directory, escape and absolute-target refusals and the nested expansion of a link, with its exact cost |
| `ArchiveResolve.ResolvedPathIsConfined` | src/archive.rs:258-320 | Whatever the link graph, a successful result lies below the root, no non-empty prefix of it is an archive link, and its parent is an existing directory |
| `ArchiveResolve.ResolutionIsGrounded` | src/archive.rs:271-306 | The same for the component loop from any grounded starting point |
| `ArchiveResolve.FuelNeverChangesAnAnswer` | src/archive.rs:258-275 | A success is the same path at the same cost at any smaller depth and for any budget that covers that cost |
| `ArchiveResolve.VisitsAreTheExactBudget` | src/archive.rs:272-274 | At a given depth, a path that resolves under some budget resolves under another if and only if that one covers its visits |
| `ArchivePaths.PlainSpellings` | src/archive.rs:271-276 | A spelling of names and `..` only is its components, one for one and in order |
| `ArchivePaths.NoiseVanishes` | src/archive.rs:271-276 | Empty and `.` segments vanish wherever they stand; a leading one shows as the root or as `.` |
| `ArchiveResolve.EndingsAreHonoured` | src/archive.rs:308-319 | A path whose walk ends at something that is no directory is refused, as missing or as needing a directory, if and only if its spelling ends in `/` or `/.`; otherwise the result is the walk's own |
| `ArchiveResolve.DirectoriesAreAskedFor` | src/archive.rs:308-319 | A directory is demanded only where the path, or a link on its way, is spelled with such an ending |
| `ArchiveMeter.ResolverAgreesWithLookup` | src/archive.rs:251-320 | A path resolves with some depth and budget if and only if an unfuelled walker, which splices a link's target in place before what follows it, ends there |
| `ArchiveMeter.LookupResolvesExactlyWithin` | src/archive.rs:258-320 | For a path whose lookup ends, at any depth and budget: the resolver succeeds if and only if the walk's greatest link nesting is below the fuel and its cost, one visit per component and per re-walked parent name, is within the budget; that is what it charges |
| `ArchiveMeter.SourceLimitsAreExact` | src/archive.rs:265-274 | At the depth the installer starts from: if and only if links nest at most 64 deep and the cost is within the budget |
| `ArchiveMeter.ChainResolvesExactlyWithin` | src/archive.rs:265-274 | A chain of links looks up to its last name, and the resolver follows it if and only if it has a level and a visit for each name |
| `ArchiveMeter.ChainsAreFollowedUpToTheDepth` | src/archive.rs:265-267 | For every length there is a chain to a file; it is followed if and only if it has at most 64 links and the budget covers it, so a path that looks up may be refused |
| `ArchiveWalk.ResolverIsSound` | src/archive.rs:258-320 | Every success at any depth and budget is the walker's answer |
| `ArchiveWalk.LookupIsUnique` | src/archive.rs:251-320 | The walker's answer is unique, so the two together determine the resolver's result |
| `ArchiveWalk.CyclicLinkIsRefused` | src/archive.rs:265-267 | A link whose lookup comes back to the link itself is refused at every depth and budget |
| `ArchiveWalk.CycleNeverFinishes` | src/archive.rs:265-306 | A walker that returns to where it was with at least as much to do never finishes |
| `ArchiveRefusal.RefusalsNameTheFailure` | src/archive.rs:258-320 | A refusal that is not for one of the two limits is a failure of lookup: the walker stops, at a missing place, a file in the way, a file where a directory is demanded, a step above the root or an absolute target, as the error says, and never ends |
| `ArchiveRefusal.ComponentsStick` | src/archive.rs:271-306 | The same for the component loop, whatever is left to walk after it |
| `ArchiveInstall.Destination.InstallLinks` | src/archive.rs:346-408 | Nothing is placed unless every link was validated, and then every link is; on refusal only parent directories were added |
| `ArchiveInstall.Destination.MakeParentDirectories` | src/archive.rs:352-357 | The parent-directory pass ends in exactly the tree the specification gives, blocked or not |
| `ArchiveInstall.Destination.ValidateLink` | src/archive.rs:359-384 | One link's collision, resolution, dangling and regular-file verdict, and its exact visit cost |
| `ArchiveInstall.Destination.ValidateLinks` | src/archive.rs:358-387 | All links are judged in order against one shared budget, stopping at the first refusal |
| `ArchiveInstall.Destination.PlaceLinks` | src/archive.rs:388-406 | Placing a validated list never fails and leaves exactly its hard links and symbolic links |
| `ArchiveInstall.Destination.Place` | src/archive.rs:388-406 | One placement: when it succeeds and what it changes |
| `ArchiveInstall.ValidateAll` | src/archive.rs:346-387 | All links of one installation together visit at most the step limit |
| `ArchiveInstall.AcceptedLinksArePrefixFree` | src/archive.rs:352-366 | Validation succeeds only if no link path is a proper prefix of another |
| `ArchiveInstall.AcceptedLinksAreVetted` | src/archive.rs:358-387 | Every accepted link is absent from the tree, leads by lookup to a grounded place, and is a regular file if hard |
| `ArchiveInstall.LinksAreValidExactly` | src/archive.rs:359-387 | One link is valid if and only if its place is free, its lookup ends within 64 nested links and the visits left, and it leads to an existing entry, a regular file if hard, or where that is allowed to a missing leaf; it is charged the cost of that lookup |
| `ArchiveInstall.InvalidLinksSayWhy` | src/archive.rs:359-387 | Each refusal of a link holds of it: an entry in its place, a lookup that ends nowhere, or for a hard link at a directory, or the place where lookup stops |
| `ArchiveInstall.ValidationAcceptsExactly` | src/archive.rs:358-387 | All links are validated if and only if each is acceptable and their lookups together cost at most the step limit |
| `ArchiveInstall.PlansAreAcceptedExactly` | src/archive.rs:346-387 | A set of links is installed if and only if none has a file above it and, the parents made, each is acceptable and all lookups together are within the limit |
| `ArchiveInstall.DirsCanBeMadeExactly` | src/archive.rs:352-357 | Parents can be made if and only if no file is on the way |
| `ArchiveInstall.MakeParentsAddsOnlyDirectories` | src/archive.rs:352-357 | The parent pass changes no entry and adds only directories, all prefixes of link paths among them |
| `ArchiveInstall.PlanIsSafe` | src/archive.rs:346-406 | An accepted plan's places are distinct, free and inside existing directories |
| `ArchiveInstall.FinishedWalkAgrees` | src/archive.rs:388-406 | On the finished disk the walker ends at the entry it reached through the virtual graph, a hard link under its own name |
| `ArchiveInstall.InstalledLinksLeadWhereValidated` | src/archive.rs:346-406 | After installation every link is looked up on the real disk at the very entry its validation found |
| `ArchiveBudget.CopyBounded` | src/archive.rs:89-109 | Under short, interrupted and broken reads: succeeds exactly when the stream fits, writes the stream's bytes in order and nothing else, and pulls at most one byte beyond the budget |
| `ArchiveBudget.CopyEntryBounded` | src/archive.rs:111-122 | The shared budget is charged what the inner one lost, on failure too, and no entry passes its own ceiling |
| `ArchiveBudget.Extraction.ExtractSymlink` | src/archive.rs:573-602 | A link target is accepted exactly when it fits all four allowances, parses and is new |
| `ArchiveBudget.Extraction.ExtractFile` | src/archive.rs:607-624 | A file is accepted exactly when its declared and real sizes fit and its place is free; partial output stays within the ceiling |
| `ArchiveBudget.Extraction.ExtractEntry` | src/archive.rs:566-624 | One entry, by kind, after the size and name checks |
| `ArchiveBudget.Extraction.ExtractEntries` | src/archive.rs:566-624 | The loop ends well exactly when every entry is acceptable in turn; otherwise all before the refused one are extracted and that one leaves at most directories and a file with a beginning of its payload |
| `ArchiveBudget.ExtractionIsCharged` | src/archive.rs:560-624 | Files and link targets are the entries' payloads in order, and together use exactly what the output and metadata budgets lost |
| `ArchiveBudget.EntriesLandAtTheirNames` | src/archive.rs:215-234 | From the spelling alone: an entry lands at its names in order, and is refused if and only if too long, holding a refused character, absolute, going up or without a name |
| `ArchiveBudget.EntriesAreAcceptedExactly` | src/archive.rs:566-624 | An entry is accepted if and only if its declared and real sizes fit every budget, its name is relative, no file is on its way and its place is free; it then adds its link, directory or bytes there |
| `ArchiveBudget.LinksComeInPathOrder` | src/archive.rs:565-602 | Whatever order the archive has them in, links are kept in the order of their paths |
| `ArchiveBudget.AcceptKeeps` | src/archive.rs:566-624 | Each accepted entry keeps the tree well formed, the link list an enumeration and the accounts exact |
| `ArchiveBudget.ExtractZip` | src/archive.rs:560-626 | Extraction followed by installation succeeds exactly when both do; otherwise there is no link and the destination is what was extracted so far and directories |
| `SessionRelay.RelayDeliversExactlyOnce` | src/platform_linux_session_relay.rs:51-111 | On every interleaving delivered, in-flight and unread bytes make up each stream; before the commit nothing was touched; success means both arrived whole and were shut down, failure leaves prefixes |
| `SessionRelay.StepKeepsInv` | src/platform_linux_session_relay.rs:51-111 | Every splice, drain, shutdown, error and copy step keeps the invariant of both directions |
| `SessionRelay.RunKeepsInv` | src/platform_linux_session_relay.rs:184-264 | So does every run |
| `SessionRelay.FallbackReplaysNothing` | src/platform_linux_session_relay.rs:200-264 | The buffered copy starts only with both sockets as they were, and its state is that of a session that never spliced |
| `SessionRelay.FallbackIsAPlainCopy` | src/platform_linux_session_relay.rs:200-264 | Any run that has fallen back is, from some point on, a run of the buffered copy alone over the whole original streams |
| `SessionRelay.EarlyErrorFallsBack` | src/platform_linux_session_relay.rs:245-258 | A source error before the commit turns the session into the buffered copy of both whole streams, which can still deliver them |
| `SessionRelay.FailuresHaveACause` | src/platform_linux_session_relay.rs:245-264 | From the events alone: a session is committed if and only if a splice moved bytes or saw an end, and fails if and only if an error came that it cannot survive, one of the copy, the destination or a shutdown, or a source error after the commit |
| `SessionRelay.SessionsFailOnlyForACause` | src/platform_linux_session_relay.rs:200-264 | The same from the start of a session |
| `SessionRelay.CommitForbidsFallback` | src/platform_linux_session_relay.rs:200-264 | After a commit no later state of any run is a fallback |
| `SessionRelay.CooperationMakesProgress` | src/platform_linux_session_relay.rs:51-111 | Each step that is not an error or a spurious wake-up brings the session closer to its end |
| `SessionRelay.CooperativeRunsFinish` | src/platform_linux_session_relay.rs:51-111 | Every run of cooperative steps is at most as long as the work at hand, and one that cannot go on has delivered both streams whole |
| `SessionRelay.CanAlwaysFinish` | src/platform_linux_session_relay.rs:184-264 | From every reachable unfinished state some continuation delivers both streams whole |
| `KeyStream.Decoder.PushByte` | src/keys.rs:116-218 | Each byte keeps the object's whole input split into one grammar sequence per event it has emitted and the one under way, of the counted length; a failure is permanent, emits nothing and clears the pending bytes, which never exceed 128 |
| `KeyStream.Decoder.TakeCharacter` | src/keys.rs:90-113 | Control bytes, printable bytes, the start of a UTF-8 character, and the bytes that are refused |
| `KeyStream.Decoder.TakeAfterEscape` | src/keys.rs:128-155 | What each byte after ESC begins or means |
| `KeyStream.Decoder.TakeUtf8` | src/keys.rs:161-173 | A character is emitted once its announced length is there and decodes |
| `KeyStream.Decoder.TakeFunction` | src/keys.rs:174-193 | Parameters, final byte, paste start, refused mouse report and the 128-byte bound |
| `KeyStream.Decoder.TakePaste` | src/keys.rs:194-206 | The partial match of the paste terminator moves on, restarts or ends the paste |
| `KeyStream.Decoder.FinishPending` | src/keys.rs:222-228 | Waiting yields a key if and only if the bytes under way are a lone ESC, nothing if and only if there are none, and a failure otherwise |
| `KeyTokens.PushIsSound` | src/keys.rs:116-218 | From any state that describes a partial sequence, a byte extends it, completes a sequence of the grammar, or fails |
| `KeyTokens.EveryInputIsTokenized` | src/keys.rs:71-229 | Any input is, in order and without gaps, one complete sequence per event and a partial one of the counted length; pending never exceeds 128 bytes |
| `KeyTokens.InputSplitsIntoTokens` | src/keys.rs:116-218 | The same from any intermediate state |
| `KeyTokens.SequencesAreWhatDecodesToOneEvent` | src/keys.rs:90-218 | The grammar's sequences are exactly the inputs that decode to one event and leave a new decoder |
| `KeyTokens.SequencesDecodeInOrder` | src/keys.rs:116-218 | Any list of sequences, run together, decodes to the same list of events |
| `KeyTokens.SpelledKeysRoundTrip` | src/keys.rs:90-113 | Concatenated encodings of unambiguous keys decode back to those keys, ending at rest |
| `KeyTokens.FailureIsPermanent` | src/keys.rs:71-78 | A failed decoder never emits again |
| `KeyTokens.PasteLeaksNothing` | src/keys.rs:194-206 | Without an end marker a paste emits nothing and poisons the decoder exactly past 65536 bytes |
| `KeyTokens.PasteEndsAtFirstMarker` | src/keys.rs:194-206 | At its first end marker a paste yields its only event |
| `KeyTokens.PasteSwallows` | src/keys.rs:194-206 | Inside a paste the matched count is the longest suffix that begins the marker |
| `KeyTokens.StringLeaksNothing` | src/keys.rs:207-216 | Without a terminator a control string emits nothing and poisons the decoder exactly past 65536 bytes |
| `KeyTokens.StringEndsAtFirstTerminator` | src/keys.rs:207-216 | At the first BEL (where allowed) or ESC backslash a control string yields its only event |
| `KeyTokens.FinishingResolvesOnlyALoneEscape` | src/keys.rs:222-228 | After any input, which splits into tokens and a rest, waiting yields a key if and only if the rest is a lone ESC, nothing if and only if it is empty, and a failure otherwise |
| `KeyGrammar.LongestMatchMoves` | src/keys.rs:194-206 | The decoder's restart rule keeps the longest partial match of the terminator, for any body |
| `KeyUtf8.FirstCharacterOfOne` | src/keys.rs:161-173 | Bytes of the announced length are valid text exactly when they are one character's encoding (section 3 of RFC 3629) |
| `KeyUtf8.EncodingsDecode` | src/keys.rs:98-109 | Every scalar value's encoding decodes to it |
| `KeyUtf8.DecodedEncodes` | src/keys.rs:161-173 | Whatever decodes is the encoding of its result, so overlong forms and surrogates are refused |
| `TraceSupervisor.LogIsWellFormed` | src/platform_linux_trace.rs:206-540 | On every run events are numbered 1, 2, 3, … without gaps, a loss is unique and followed only by completion, and no process's events are out of order |
| `TraceSupervisor.FreshProcessesLiveOnce` | src/platform_linux_trace.rs:206-540 | If the kernel reports each child under a fresh id, every process but the root shows as Spawn Exec* Exit?, with at most one Exit |
| `TraceSupervisor.SupervisionNeverWedges` | src/platform_linux_trace.rs:237-540 | Between turns no observed stop is left unserviced; an abort has killed every tracee and the root; completion comes once, last, with the root's fate known |
| `TraceSupervisor.LogIsNarrated` | src/platform_linux_trace.rs:237-540 | From the observations alone: the log of any run is what each turn in order has to say, an Exit with the code or signal observed and the last image, an Exec with the image read, a Spawn with the reported parent group or else the forking task, a loss for a failed call, and otherwise nothing |
| `TraceSupervisor.RunIsNarrated` | src/platform_linux_trace.rs:237-540 | The same from any loop head, with parent and image carried over from the last event of the process |
| `TraceSupervisor.RootsFateIsTheOneObserved` | src/platform_linux_trace.rs:75-81 | On every run, waiting gives the code the root was last seen to exit with, or the negated signal, nothing before it was, and an error only after a loss, also when the root's id comes back |
| `TraceSupervisor.TurnKeepsInv` | src/platform_linux_trace.rs:237-540 | Every observation of every kind keeps the loop's invariant or ends the run properly |
| `TraceSupervisor.RunKeepsInv` | src/platform_linux_trace.rs:237-540 | So does every run of any length |
| `TraceSupervisor.AbortEnds` | src/platform_linux_trace.rs:566-614 | An abort from anywhere in a turn ends the run: loss, kills, error, completion |
| `TraceSupervisor.TraceLoop.PollTracee` | src/platform_linux_trace.rs:240-533 | One wait result is handled as the specification does and keeps the loop invariant or ends the run properly |
| `TraceSupervisor.TraceLoop.HandleFork` | src/platform_linux_trace.rs:315-463 | Fork, vfork and clone stops: from a loop head every path of classification, continuing and aborting leads to a loop head or a proper end |
| `TraceSupervisor.TraceLoop.HandleExec` | src/platform_linux_trace.rs:464-492 | An exec stop replaces the image and reports it for a leader |
| `TraceSupervisor.TraceLoop.HandleWaitError` | src/platform_linux_trace.rs:254-284 | Only a vanished thread is forgiven |
| `TraceSupervisor.TraceLoop.ReapTracee` | src/platform_linux_trace.rs:286-310 | Exit of a thread, of the root, whose code or negated signal is published, and of any other process, which is told with its own code and signal |
| `TraceSupervisor.TraceLoop.AbortRuntimeTrace` | src/platform_linux_trace.rs:588-614 | From any intermediate point of a turn the abort ends the run properly: loss, kills, published error, completion |
| `TraceSupervisor.TraceLoop.KillAll` | src/platform_linux_trace.rs:599-609 | Every tracee is killed |
| `TraceSupervisor.TraceLoop.PollAll` | src/platform_linux_trace.rs:237-540 | One pass over a snapshot of the tracees, in any order and against any kernel, is a run of the specification, one turn per tracee, and keeps the invariant |
| `TraceSupervisor.Supervise` | src/platform_linux_trace.rs:237-540 | From launch, passes over the tracee set until none is left, an abort, or any number of passes, against any kernel: the log is well formed and says what was observed, waiting gives the root's observed end, nothing is wedged, completion is told unless tracees remain, and under fresh ids every process lives once |
| `ProcessWalk.DescendantPids` | src/platform_linux_descendants.rs:57-74 | The result is exactly what is reachable from the root in one or more child steps over any lists; each parent is the root or a member and lists the child |
| `ProcessWalk.DescendantsOf` | src/platform_macos_descendants.rs:51-71 | The result is exactly the identities below the root by the snapshot's parent links; each recorded parent is the row's own and is the root's or a member's pid |
| `ProcessWalk.Walk` | src/platform_linux_descendants.rs:57-74 | The worklist over any keys: exactly the reachable entries, and one more list taken up than entries found, so each is pushed once |
| `ProcessWalk.GroupByParent` | src/platform_macos_descendants.rs:52-58 | The children map lists, for every pid, its rows in snapshot order |
| `ProcessWalk.ListsFollowParents` | src/platform_macos_descendants.rs:51-71 | Walking those lists is following the parent links |
| `ProcessWalk.LinesStayInside` | src/platform_linux_descendants.rs:57-74 | A set closed under child steps holds the end of every line of steps |
| `DescendantPump.PumpLoop` | src/platform_linux_descendants.rs:117-142 | For any finite script of turns the emitted log is one block of differences per verified walk and the closing its ending calls for |
| `DescendantPump.RunsEndWhereTheTurnsSay` | src/platform_linux_descendants.rs:87-142 | From the turns alone: walks are reported up to the first turn that is stopped, or whose root is not the expected process both before and after, or whose wait is stopped, and that turn gives the ending |
| `DescendantPump.EmitDiff` | src/platform_linux_descendants.rs:96-115 | Each new entry is started once with its recorded parent, then each missing one exited once, in any order |
| `DescendantPump.LogReplaysToKnown` | src/platform_linux_descendants.rs:123-141 | At every loop head Started minus Exited is what the monitor knows |
| `DescendantPump.EveryLogReplays` | src/platform_macos_descendants.rs:108-149 | Every log is well formed; stopping leaves the known entries live, losing the root exits every one |
| `DescendantPump.EntriesAlternate` | src/platform_linux_descendants.rs:96-115 | In a well-formed log each entry's events alternate, Started first |
| `DescendantPump.CompletedIsLast` | src/platform_macos_descendants.rs:109-149 | Completed occurs at most once and only last |
| `DescendantPump.PidsAlternateExactlyWithoutReuse` | src/platform_macos_descendants.rs:128-141 | Read by pid, the log is well formed if and only if no reported walk brings in an entry whose pid another entry of that walk or of the one before holds |
| `DescendantPump.ByPidLogNeedsNoReuse` | src/platform_macos_descendants.rs:128-141 | The same for every beginning of a run, with the set of live pids |
| `DescendantPump.ReusedPidStartsTwice` | src/platform_macos_descendants.rs:128-141 | A pid handed from one process to the next between two walks is started again before it exits |
| `DescendantPump.LinuxLogsAlternatePerPid` | src/platform_linux_descendants.rs:96-142 | Keyed by pid the log is the pid log: every log of a run is well formed and each pid's events alternate, Started first |
| `HttpRedirect.Execute` | src/http.rs:250-314 | Against any server and clock: at most one request more than the redirect limit; each goes to the joined target of the reply before it, as GET without body and content headers for a POST answered 301 to 303, else with the same verb and body, with the same headers on the same origin and none elsewhere; https is never left; and the outcome is due to the fields of the last request and reply |
| `HttpRedirect.ExecuteOnce` | src/http.rs:316-406 | A request that fails a check is not sent; one that passes is sent as given, and its reply judged |
| `HttpRedirect.HopsAreRight` | src/http.rs:274-311 | The request after a redirect, field by field, without the code's own function: target, verb, body, and exactly the headers that stay |
| `HttpRedirect.OutcomesAreDue` | src/http.rs:261-313 | Every outcome by the fields that cause it: each refusal of a request, reply or redirect, the limit, the deadline, and success; headers are only ever objected to in the caller's own request |
| `HttpRedirect.RequestsAreCheckedExactly` | src/http.rs:321-369 | A request is sent if and only if its lengths, verb, URL and headers are within bounds, and each refusal names a bound that is broken |
| `HttpRedirect.NamesAreMatchedInAnyCase` | src/http.rs:301-364 | Content and transport-owned header names are recognized in any capitalization and nothing else is |
| `HttpRedirect.StrippingIsExact` | src/http.rs:301-308 | A POST that becomes a GET keeps every header as often as it had it, except content-type and content-encoding |
| `HttpRedirect.HopCarries` | src/http.rs:280-311 | The request after a redirect carries nothing the exchange has given up |
| `HttpRedirect.SendingKeeps` | src/http.rs:250-314 | Sending it keeps every property of the exchange |
| `HttpRedirect.SendingFollows` | src/http.rs:250-314 | Each request is the one its predecessor's redirect calls for, so every hop is right |
| `HttpRedirect.StrippedIsSublist` | src/http.rs:301-308 | Dropping content headers leaves a sublist |
| `HttpBody.Response.ReadInto` | src/http.rs:436-471 | A read changes the response as the specification does |
| `HttpBody.Response.IntoBytes` | src/http.rs:475-487 | Collecting returns what the specification collects |
| `HttpBody.BodyIsDeliveredInOrder` | src/http.rs:436-471 | Over reads of any sizes: a prefix of the transport's bytes, never over the ceiling, delivered plus pending plus remaining constant until failure, and an empty answer means everything was delivered |
| `HttpBody.ReadConserves` | src/http.rs:436-471 | One read hands over a prefix of what is to come and loses nothing |
| `HttpBody.DeadlinesEndTheBody` | src/http.rs:443-450 | Before the end of the body was seen, a read past the deadline fails, drops what was pending and lets nothing more be delivered; after it there is no deadline |
| `HttpBody.ReadsConserve` | src/http.rs:436-471 | So does any sequence of reads from any state |
| `HttpBody.FailureIsPermanent` | src/http.rs:437-439 | After a failure no read delivers anything |
| `HttpBody.CollectReturnsTheRest` | src/http.rs:475-487 | Collecting after any reads returns exactly the unread rest; it succeeds only if that fits and nothing broke, and then always if no deadline passes |
| `CacheEviction.EvictOldest` | ci/prune_obsolete_cook_caches.py:186-192 | Retired entries are the shortest prefix, in order of last access and then id, that brings usage within budget, or all of them |
| `CacheEviction.EvictionIsDetermined` | ci/prune_obsolete_cook_caches.py:186-192 | Only one set of entries is such a prefix, so what goes is a function of the inventory |
| `CacheEviction.EvictionIsOldestFirst` | ci/prune_obsolete_cook_caches.py:186-192 | No evicted entry is newer than an eligible one that stays |
| `CacheEviction.SortIsSorted` | ci/prune_obsolete_cook_caches.py:239-245 | The eligible entries are ordered by last access and id |
| `CachePruning.RequireCurrentGenerationPresent` | ci/prune_obsolete_cook_caches.py:333-356 | Passes exactly when every main cook base has a version not above the current one and one has it |
| `CachePruning.RequireSingleCurrentGeneration` | ci/prune_obsolete_cook_caches.py:359-375 | Passes exactly when main cook bases exist and all have the current version |
| `CachePruning.RequireRetainedNativeCookBase` | ci/prune_obsolete_cook_caches.py:378-402 | Passes if and only if a staying native cook base of the current version comes before any staying unclassifiable one; each error exactly when it applies |
| `CachePruning.RequireDisabledCrossCooksRetired` | ci/prune_obsolete_cook_caches.py:405-413 | Refuses exactly the inventories with an unclassifiable main cook base as such; otherwise passes only with no opted-out cross-target cook base left |
| `CachePruning.RequireLockGenerationsRetired` | ci/prune_obsolete_cook_caches.py:248-278 | Passes exactly when no shape mixes current and stale rows; each error names such a shape with or without a non-empty current row |
| `CachePruning.StaleCookBases` | ci/prune_obsolete_cook_caches.py:293-307 | Exactly the main cook bases of older versions, or unclassifiable |
| `CachePruning.RetiredCrossTargetCookBases` | ci/prune_obsolete_cook_caches.py:310-330 | Exactly the opted-out cross-target cook bases of the current version, or unclassifiable |
| `CachePruning.SupersededLockGenerations` | ci/prune_obsolete_cook_caches.py:125-157 | Exactly the stale rows whose shape has a non-empty current row |
| `CachePruning.OverBudgetOrphans` | ci/prune_obsolete_cook_caches.py:160-192 | A minimal oldest-first prefix of the orphans that are staying |
| `CachePruning.RetiredOldDylintOutputs` | ci/prune_obsolete_cook_caches.py:195-245 | A minimal oldest-first prefix of old outputs of anchored architectures |
| `CachePruning.PlanPruning` | ci/prune_obsolete_cook_caches.py:522-542 | With the current generation present: the plan is the three outdated sets and two minimal evictions, refused exactly when no native cook base would stay |
| `CachePruning.CandidatesAreExpendable` | ci/prune_obsolete_cook_caches.py:514-541 | Every candidate is on main; one with the current lock is a stale-version or opted-out cross-target cook base |
| `CachePruning.CandidatesByTheirFields` | ci/prune_obsolete_cook_caches.py:125-245 | What goes, by its own fields: a cook base of an older version or an opted-out cross target of the current one, a row locked to another hash, or an output for another hash made at or before the cutoff |
| `CachePruning.NothingMoreShouldGo` | ci/prune_obsolete_cook_caches.py:125-245 | What stays on main, by its own fields: none of the unconditional kinds, none with a non-empty twin for the current lock, and an orphan or anchored expired output only where its eviction came down to the budget |
| `CachePruning.VersionsCompareByTheFirstDifference` | ci/prune_obsolete_cook_caches.py:281-307 | Versions are compared by the first number that differs |
| `CachePruning.ChecksBeforeImplyChecksAfter` | ci/prune_obsolete_cook_caches.py:556-564 | With both pre-checks passed the single-generation, native and cross checks on the rest cannot fail, and the lock check passes if and only if no shape of the inventory is shielded |
| `CachePruning.LockCheckFailsExactlyForShieldedShapes` | ci/prune_obsolete_cook_caches.py:248-278 | The lock check on what remains fails if and only if the inventory shields a shape: it has current rows but only empty ones, and a stale row that is not evicted as an orphan nor outdated as a cook base |
| `CachePruning.MixedExactlyWhenShielded` | ci/prune_obsolete_cook_caches.py:125-157 | The same for each single shape |
| `CachePruning.AnEmptyCurrentRowBlocksTheLockCheck` | ci/prune_obsolete_cook_caches.py:248-278 | That failure does occur, for every lock: an empty current row shields a stale one |
| `CachePruning.AnchorsRemain` | ci/prune_obsolete_cook_caches.py:195-245 | Each architecture that loses an output keeps a non-empty one for the current lock |
| `CachePruning.UsageIsConserved` | ci/prune_obsolete_cook_caches.py:543-569 | Listed usage is what goes plus what stays |
| `CachePruning.CheckRemaining` | ci/prune_obsolete_cook_caches.py:558-564 | The four checks in order pass exactly when all hold |
| `CachePruning.DryRun` | ci/prune_obsolete_cook_caches.py:514-577 | With the current generation present a dry run fails exactly for want of a native cook base, for a shielded shape of the inventory, or over budget, and projects the larger of listed and reported usage less what goes |
| `Cancellation.NoLostWakeUp` | src/async_engine.rs:762-788 | On every run a registered waiter that sleeps un-notified means the flag is clear or the one winning canceller has yet to notify |
| `Cancellation.FinishedCancelsStrandNobody` | src/async_engine.rs:737-741 | Once every cancel call has returned, and there was one, no waiter is stranded |
| `Cancellation.SettledWaitersReturn` | src/async_engine.rs:762-788 | From then on a waiter's own steps, at most four, bring it to its end however the others interleave |
| `Cancellation.ReturnedMeansCancelled` | src/async_engine.rs:762-788 | A wait returns only with the flag set by some canceller |
| `Cancellation.CancelledWorkCannotComplete` | src/async_engine.rs:792-801 | Work that was not already being polled past the token when every cancel had returned never wins the biased race |
| `Cancellation.EveryRunNotifiesOnce` | src/async_engine.rs:737-741 | Cancelling is idempotent: at most one notification in any run, exactly one once every cancel call has returned |
| `Cancellation.StepKeepsInv` | src/async_engine.rs:737-788 | Every shared-memory step of waiters and cancellers keeps the invariant |
| `Cancellation.RunKeepsInv` | src/async_engine.rs:737-788 | So does every interleaving |
| `ElfNotes.GnuBuildIdFromNotes` | src/platform_linux.rs:615-637 | On arbitrary bytes the search ends, stays in range and, for any word width that holds the segment, its checked arithmetic changes no answer |
| `ElfNotes.CheckedLayoutIsExact` | src/platform_linux.rs:616-630 | The checked offsets exist exactly when the note's end is representable, and then are the true ones |
| `ElfNotes.WireFormat` | src/platform_linux.rs:615-635 | Words in both byte orders, the four-byte alignment and the name and type of a build id, byte by byte |
| `ElfNotes.FoundExactlyWhenLocated` | src/platform_linux.rs:620-635 | A descriptor is found if and only if the segment begins with complete notes of which the last is the first build id, with that content |
| `ElfNotes.PrintedNotesRoundTrip` | src/platform_linux.rs:615-637 | Searching any printed list of notes, in either byte order, gives the first non-empty type-3 GNU descriptor |
| `ElfNotes.SearchOfPrinted` | src/platform_linux.rs:615-637 | The same with any bytes after the printed notes |
| `ElfNotes.NoteRoundTrip` | src/platform_linux.rs:620-630 | A printed note is read back whole and the rest begins right after it |
| `HashFrames.FramesRoundTrip` | src/guest_component_hash.rs:95-105 | Reading the frames of any input gives the input back |
| `HashFrames.OneLastFrameAtTheEnd` | src/guest_component_hash.rs:95-105 | Exactly one frame is marked last, at the end; all before it are full; only an empty input has an empty frame |
| `HashFrames.UpdatesAreFaithful` | src/guest_component_hash.rs:77-105 | Inputs over 64 KiB are rejected; otherwise the frames determine the input |
| `HashFrames.FrameRoundTrip` | src/guest_component_hash.rs:11-56 | The thirty-two words of a chunk give back its bytes |
| `HashFrames.InputWord` | src/guest_component_hash.rs:12-19 | A word filled byte by byte is the little-endian value of the zero-padded slice and fits sixty-four bits |
| `LittleEndian.BytesByPosition` | src/guest_component_hash.rs:12-19 | Byte i of a word is its i-th digit to the base 256, the lowest first |

## Left out

- Windows path separators, drive prefixes and `windows_link_target`: paths are modelled with Unix separators.
- The tar front end and `extract_member`: their entry loops only repeat the budgets of the ZIP one, so hard links reach the installer as arbitrary links here.
- ZIP and tar parsing, `preflight_zip` and the metadata read budget: foreign formats in front of the entry loop; entries are given.
- File permissions, the destination's own preparation, and the kernel's limit on nested symbolic links during lookup.
- `canonicalize` in the installer: no symbolic link exists below the destination yet, so it is existence in the tree.
- The splice relay's `prepare`, pipe and descriptor handling: preparation either succeeds or falls back at once.
- Setup of the ptrace supervisor before the loop, and what origin, argv and start keys an event carries besides its image.
- TraceSupervisor.TraceLoop.HandlePlainStop: does not say which signal is forwarded, as signals do not affect the log or the tracee set.
- Termination of the ptrace loop and of the monitors, which depends on the traced programs; finite runs of any length are covered instead.
- Reads of `children` files that change while the walk is under way: a walk sees one set of lists.
- The kqueue hints and stop notifier of the macOS monitor, and the failure to find the root before monitoring starts.
- `TerminalKeys::poll` and the native input session: wall-clock time and I/O.
- TLS, DNS, connection handling and URL parsing: the server and URL joining are oracles, and response header limits are judged on the totals the transport reports.
- HttpBody.CollectReturnsTheRest: does not say when a deadline passes, as each turn's clock is an arbitrary answer.
- Parsing of cache keys and versions: keys are structured records and versions are number triples.
- The apply path of pruning (`delete_cache`, `settled_usage`): remote state and polling; the order in which candidates are deleted is not modelled.
- The rest of `src/async_engine.rs`: thin wrappers over the runtime. Atomic accesses are sequentially consistent steps.
- BLAKE3 and the component stream that carries the frames.
- Configuration, JSON, command, daemon and broker code: plumbing, or easier forms of the budgets above.
