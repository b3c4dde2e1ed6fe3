# Protocols of a browser-to-agent relay, verified

Yeaft relays between browsers and coding agents. Its server and its agent hold several small protocols in memory or in
files whose guarantees only show over many events: which socket owns an agent id, who may still write to a terminal, who
may install an upgrade, whose answer a reply is. This project models them in Dafny and proves those guarantees.

| file | what it models |
|---|---|
| `AgentConnections.dfy` | generations, claims and tombstones of agent connections |
| `AgentVersions.dfy` | the version parser and the order that decides whether an upgrade is offered |
| `HistoryTail.dfy`, `Utf8.dfy` | reading the last rows of a session file backwards in chunks; UTF-8 decoding (section 3 of RFC 3629) |
| `Terminals.dfy` | terminals whose creation is suspended while everything else goes on |
| `WindowsUpgrade.dfy` | three processes that hand over an upgrade through lock and marker files |
| `WorkbenchCorrelation.dfy` | pending requests, quarantined ones and terminal owners |
| `Base64.dfy`, `FileContentAssembly.dfy` | reassembling files from base64 chunks under a shared budget |
| `AssetStore.dfy` | an image store with quotas, retention and garbage collection |
| `ContainerLifecycle.dfy` | per-owner queues of container operations and account deletion |
| `DuplicateCleanup.dfy` | removing duplicated messages by greedy clustering |
| `PercentEncoding.dfy`, `WorkbenchRoutes.dfy` | route keys and conversation ids over percent-encoding |
| `SettingsRequests.dfy` | settings requests that admit replies without identity |
| `Text.dfy` | string operations the others share |

Most modules have three layers. Functions on values say what one call or one synchronous stretch of code does. Lemmas
about runs say what holds after any sequence of such steps: the invariant, then the main results at the end of that
section. A class or methods with loops follow the source statement by statement and are proved to do what the functions
say. What comes from outside (clock readings, file-system, process and network outcomes, random ids) is a parameter or
part of an event and is not restricted unless a lemma says so.

Where the code and its own documentation differ, the model follows the code:

- The backward reader of session files can return one row twice when there are fewer rows than asked for
  (`HistoryTail.CarryParsesTwice`; the exact condition is in `HistoryTail.TailIsLastUnlessCarryParses`).
- Numerals in versions that have leading zeros or are 2^53 and more can hide an upgrade or offer a downgrade
  (`AgentVersions.AgreesWithSemanticVersioning` has the exact condition, `AgentVersions.LeadingZeroHidesUpgrade`,
  `AgentVersions.LongNumeralHidesUpgrade` and `AgentVersions.LongNumeralOffersDowngrade` the inputs).
- The duplicate clean-up sorts by file name, which need not be chronological once numbers have different lengths
  (`DuplicateCleanup.NameOrderIsMessageOrder` says exactly when it is, `DuplicateCleanup.OvertakenCopyGoes` what
  happens otherwise), and with the cold files included it need not be finished after one run
  (`DuplicateCleanup.WithColdAnotherRunFindsMore`; `DuplicateCleanup.CleanIsFinishedIfHeadsFirst` says when it is).
- A cancelled upgrade goes on if the runner cannot read the cancel marker when it looks for the last time
  (`WindowsUpgrade.LastLookDecides`, `WindowsUpgrade.UnreadableCancelIsOverrun`).
- Conversation ids of long non-ASCII routes are not recognized (`WorkbenchRoutes.LongIdsAreLost`).
- A settings reply without identity has one possible addressee, but not always the right one
  (`SettingsRequests.LateReplyAnswersTheNext`).
- An upload over leftovers of an interrupted removal or over damaged metadata can leave the asset counters wrong
  (`AssetStore.PutStaysExactUnlessItDrifts` has the exact condition, `AssetStore.BrokenUploadIsNotCounted` and
  `AssetStore.RepairedUploadIsNotCounted` the inputs).

`dafny verify dfyconfig.toml` checks the project.

## Model

| member | source | states |
|---|---|---|
| `AgentConnections.GenerationsStrictlyIncrease` | server/ws-agent.js:69-89 | In every run of connects, time-outs, authentications and closes, the sockets registered for one agent id have strictly increasing generations, the live socket is the last one registered, and when nobody is waiting to authenticate the tombstones are exactly the live ids, although tombstones are pruned all the time |
| `AgentConnections.OnlyTheNewestClaimantRegisters` | server/ws-agent.js:207-218 | A socket registers only if no newer socket ever claimed its id, whatever was pruned since; and a socket that is the newest claimant is never turned away |
| `AgentConnections.LiveExactlyUntilClosed` | server/ws-agent.js:279-339 | In every run an id is live with a socket if and only if that socket was the last registered for it and has not closed |
| `AgentConnections.WaitsExactly` | server/ws-agent.js:120-166 | A socket waits, as what it connected as and with the next generation, from its connection until it is timed out, refused, accepted or closed |
| `AgentConnections.RunKeepsInv` | server/ws-agent.js:120-300 | The invariant behind both: every claim that an older waiting socket could undo is still in the table, generations are bounded by the counter, and the live socket is the newest registered one |
| `AgentConnections.PruningKeepsCover` | server/ws-agent.js:80-89 | Pruning forgets no claim that a waiting socket could still violate |
| `AgentConnections.Registry.ClaimAgentConnection` | server/ws-agent.js:73-78 | A claim is refused exactly if a newer generation holds the id; otherwise it replaces the entry |
| `AgentConnections.Registry.PruneAgentConnectionGenerations` | server/ws-agent.js:80-89 | Exactly the entries without a live agent and without an older waiting socket that could claim them go |
| `AgentConnections.Registry.Connect` | server/ws-agent.js:132-166 | A connection draws the next generation, claims at once only without authentication, and waits |
| `AgentConnections.Registry.AuthTimeout` | server/ws-agent.js:142-147 | The timer drops a waiting socket and prunes |
| `AgentConnections.Registry.ReceiveUnparseable` | server/ws-agent.js:235-238 | A frame that does not parse leaves the socket waiting |
| `AgentConnections.Registry.RefuseAuth` | server/ws-agent.js:181-186 | A socket with an invalid secret stops waiting and claims nothing |
| `AgentConnections.Registry.AcceptAuth` | server/ws-agent.js:188-234 | An accepted socket registers exactly if its claim succeeds and the registration does not throw |
| `AgentConnections.Registry.Close` | server/ws-agent.js:279-290 | Closing a waiting socket ends its wait; closing a registered one disconnects its agent |
| `AgentConnections.Registry.HandleAgentDisconnect` | server/ws-agent.js:302-339 | Only the socket that is registered for an id removes the id |
| `AgentVersions.IsNewerAgentVersion` | server/ws-agent.js:44-67 | The method over texts: false unless both parse, otherwise the comparison of the parsed versions |
| `AgentVersions.CompareVersions` | server/ws-agent.js:44-67 | The loops over core numbers and prerelease identifiers compute the specified comparison |
| `AgentVersions.NewerIsStrictOrder` | server/ws-agent.js:44-67 | Being newer is irreflexive, asymmetric and transitive on all parseable versions, with prerelease lists of any length and any rounding of numbers |
| `AgentVersions.AgreesWithSemanticVersioning` | server/ws-agent.js:44-67 | On any two spelled versions and any rounding that keeps the order of numbers: the code misses a version that section 11 of Semantic Versioning 2.0.0 puts above if and only if the comparison ends at two numerals it takes for one number while section 11 decides there or later, and it takes one that is not above for newer if and only if the first differing core numerals are taken for one number and the rest decides the other way |
| `AgentVersions.PlainVersionsAgree` | server/ws-agent.js:44-67 | If all core numerals and prerelease numerals are below 2^53 and the latter have no leading zero, a version is newer if and only if section 11 puts it above |
| `AgentVersions.NeitherNewerExactlyIfTied` | server/ws-agent.js:44-67 | Neither of two versions is newer if and only if the code reads off equal cores and the prereleases are equal or first differ in two numerals it takes for one number |
| `AgentVersions.NewerIsTotal` | server/ws-agent.js:44-67 | Under the conditions of `PlainVersionsAgree` on both, two versions neither of which is newer differ in build metadata only |
| `AgentVersions.TextsAreSpellings` | server/ws-agent.js:35-45 | The answer on two texts that spell versions, spaces around them or not, is the comparison of what they spell |
| `AgentVersions.LeadingZeroHidesUpgrade` | server/ws-agent.js:50-66 | A concrete pair with a leading zero of which neither is taken for newer although one is above |
| `AgentVersions.LongNumeralHidesUpgrade` | server/ws-agent.js:57-66 | The same for prerelease numbers 2^53 and 2^53 + 1, which have no leading zero |
| `AgentVersions.LongNumeralOffersDowngrade` | server/ws-agent.js:38-51 | A concrete pair of which the lower version is taken for newer, because 2^53 and 2^53 + 1 in the cores round to one number |
| `AgentVersions.ParsesExactlySpellings` | server/ws-agent.js:35-42 | The parser accepts exactly the spellings of a version and reads off its numbers and identifiers |
| `Utf8.SplitCommutesWithDecode` | agent/history.js:198-224 | For any bytes, cutting at byte 0x0A and decoding each piece gives the lines of the decoded whole |
| `Utf8.DecodeEncoded` | agent/history.js:223-242 | Decoding the UTF-8 encoding of any text, by the table of section 3 of RFC 3629, gives back the text |
| `Utf8.IllFormedPartIsReplaced` | agent/history.js:223-242 | Every maximal ill-formed part gives exactly one U+FFFD and decoding goes on behind it; ill-formed is said in terms of the encoding alone |
| `Utf8.FirstPart` | agent/history.js:223-242 | Any bytes start with a well-formed sequence or a maximal ill-formed part, so the laws determine what is decoded |
| `Utf8.DecodeAcrossNewline` | agent/history.js:198-224 | Decoding a newline byte never depends on, or leaks into, the bytes around it, however ill-formed they are |
| `HistoryTail.TailIsLastUnlessCarryParses` | agent/history.js:180-258 | The backward reader returns the last rows of the line-by-line parse of the whole file if and only if there are at least `limit` rows or the last carry yields no row by itself; otherwise all rows with that row in front |
| `HistoryTail.WrittenRowsAreRead` | agent/history.js:180-258 | The rows written to a file one to a line, whatever characters they contain, are the rows read from it, and the backward reader returns the last of them when there are enough |
| `HistoryTail.CarryParsesTwice` | agent/history.js:240-251 | For every chunk size and every parser: a file whose only line begins with blanks that fill the head chunk and continues through whole chunks, and parses with and without them, is returned as that row twice |
| `HistoryTail.ReadTailMessages` | agent/history.js:180-258 | The chunked backward loop returns exactly the rows specified on the whole file, for every limit, chunk size and carry cap; it gives up only if some line is longer than the cap |
| `HistoryTail.ReadChunk` | agent/history.js:191-219 | One chunk: the carry that remains is the beginning of a line, and nothing before it has been consumed |
| `HistoryTail.PushLines` | agent/history.js:223-238 | The complete lines of a chunk add exactly their rows, newest first, up to the limit |
| `HistoryTail.PushRows` | agent/history.js:227-238 | The walk from the last line to the first stops at the limit and skips blank and unparseable lines |
| `HistoryTail.TryCarry` | agent/history.js:240-251 | The block after the loop adds the row of the trimmed carry if there is room |
| `HistoryTail.ReadAllMessages` | agent/history.js:284-303 | The full read returns the rows of all lines in order |
| `HistoryTail.LoadSessionHistory` | agent/history.js:261-307 | Missing file, tail path, fallback after an error or an overlong line, and the slicing by limits of either sign; on the tail path the result is the last rows of the full parse if and only if there are enough or the last carry yields none |
| `Text.TrimIs` | agent/history.js:229-242 | Trimming takes away all white space at both ends of a text and nothing else |
| `Terminals.LivePtyReferencedOnce` | agent/terminal.js:118-312 | Under every interleaving of creation, its await, replacement, close, disconnect, deletion of the conversation, data, timer and exit, a PTY neither killed nor exited is referenced by exactly one entry of the map |
| `Terminals.StaleCallbackIsInert` | agent/terminal.js:241-291 | A data, timer or exit callback of a record that is not in the map sends nothing and changes neither the map nor any other record |
| `Terminals.GoneRecordsStaySilent` | agent/terminal.js:241-291 | A record that left the map never comes back and never sends again, in any continuation of the run |
| `Terminals.NaturalExitDeliversEverything` | agent/terminal.js:244-291 | When a terminal exits by itself its output messages carry everything handed to its callback, in order and once, before the closing message |
| `Terminals.BufferedDataIsScheduled` | agent/terminal.js:244-264 | Data a live record holds back always has its timer running |
| `Terminals.OnlyItsOwnerReplacesATerminal` | agent/terminal.js:152-170 | An id stays with its owner: only the same conversation and route, and generation if routed, can put another record there |
| `Terminals.OwnerMatchesItself` | agent/terminal.js:73-99 | A terminal answers to its own owner unless it was created with a generation but no route |
| `Terminals.CreationWaits` | agent/terminal.js:138-181 | In every run a creation is rejected exactly for a route without generation or another owner's terminal; otherwise its record waits under the id for its owner, and what was there is cancelled with its process killed |
| `Terminals.CreationIsAnswered` | agent/terminal.js:183-312 | In every run a creation that still stands when the backend is loaded ends, if a process is spawned, with its id on a new record with a new live process and the owner that asked, announced as created if and only if nothing threw and as failed otherwise; without a process the id is free |
| `Terminals.LostCreationIsSilent` | agent/terminal.js:183-184 | A creation that was closed, replaced or deleted in the meantime ends without a message or a change |
| `Terminals.TimerDelivers` | agent/terminal.js:248-263 | In every run the timer of a record in the map sends all that the record was handed and had not sent |
| `Terminals.ExitFrees` | agent/terminal.js:266-291 | A natural exit frees the id and ends with the closing message |
| `Terminals.CloseFreesExactly` | agent/terminal.js:349-385 | A close frees the id and stops the terminal exactly for its owner, and for the named creation if one is named; others are rejected |
| `Terminals.DisconnectStopsAll` | agent/terminal.js:118-136 | A disconnect empties the map and stops every terminal that was in it |
| `Terminals.DeletionFreesExactly` | agent/conversation.js:553-562 | Deleting a conversation frees exactly its own ids and those of terminals it owns, and none of their processes runs on |
| `Terminals.RunKeepsInv` | agent/terminal.js:118-312 | The invariant over all runs: entries, records, PTYs, timers and buffers fit together |
| `Terminals.TerminalHost.HandleTerminalCreate` | agent/terminal.js:138-181 | The part before the await: rejection, replacement and the pending record, with the messages sent |
| `Terminals.TerminalHost.ResumeTerminalCreate` | agent/terminal.js:183-312 | The part after the await, for every outcome of loading and spawning |
| `Terminals.TerminalHost.OnData` | agent/terminal.js:244-248 | Data is buffered and a timer armed only for the record in the map |
| `Terminals.TerminalHost.OnTimer` | agent/terminal.js:248-263 | The timer sends the buffer once, or drops it for a stale record |
| `Terminals.TerminalHost.OnExit` | agent/terminal.js:266-291 | A natural exit flushes, disarms, removes and announces |
| `Terminals.TerminalHost.HandleTerminalClose` | agent/terminal.js:349-385 | A close by the owner cancels, removes, kills and announces; by another it is rejected |
| `Terminals.TerminalHost.CleanupTerminalsForDisconnect` | agent/terminal.js:118-136 | Disconnect cancels every record and empties the map before any PTY is killed |
| `Terminals.TerminalHost.DeleteConversationTerminals` | agent/conversation.js:553-562 | Deleting a conversation kills and removes exactly its terminals |
| `WindowsUpgrade.TouchesOnlyAuthorized` | agent/windows-upgrade-runner.js:204-298 | In every interleaving of launcher, bootstrap, runner and crashes, with looks at markers that may fail: an attempt whose cancel marker was completed runs PM2 or npm only if its last look at that marker could not read it, and one that runs them was authorized by its launcher and its parent process is gone |
| `WindowsUpgrade.LastLookDecides` | agent/windows-upgrade-runner.js:258-262 | Once the cancel marker is completed, the runner goes on to PM2 after its last look if and only if that look could not read the marker |
| `WindowsUpgrade.UnreadableCancelIsOverrun` | agent/windows-upgrade-runner.js:175-191 | A run in which an attempt that was cancelled, and could not read the marker at its last look, touches the installation |
| `WindowsUpgrade.UpgradesInOrder` | agent/windows-upgrade-runner.js:264-297 | In every interleaving what an attempt has PM2 and npm do is: remove the app, install, start the app, in this order and each once, or a beginning of that; or, if the app cannot be removed, start it again and never install |
| `WindowsUpgrade.AnUpgradeSucceeds` | agent/upgrade-command.js:302-380 | A run of the three processes in which the upgrade succeeds and the lock is free for the next attempt |
| `WindowsUpgrade.OneRunnerAndItsLock` | agent/upgrade-command.js:98-156 | Over any number of attempts on one instance at most one runner is alive, and the lock names its attempt until it removes that lock itself |
| `WindowsUpgrade.OnlyTheHolderRemovesTheLock` | agent/upgrade-command.js:141-156 | Whoever removes the lock or its record is the attempt that made it, and no other attempt holds it or has a runner |
| `WindowsUpgrade.ReleasingLauncherHasNoRunner` | agent/upgrade-command.js:330-377 | A launcher that goes back to the lock has no bootstrap and no runner |
| `WindowsUpgrade.TraceKeepsInv` | agent/upgrade-command.js:302-380 | The invariant behind these results, for every interleaving |
| `WindowsUpgrade.RunWindowsUpgrade` | agent/windows-upgrade-runner.js:204-308 | The runner's program takes only steps the interleaving model allows, and all its effects in order are given; npm runs exactly if all conditions came together and the app was removed, the app is restored without npm exactly if it was not, and the exit code is 0 exactly if npm, the restart and the release of the lock succeeded |
| `WindowsUpgrade.ReleaseRunnerLock` | agent/upgrade-command.js:141-156 | The runner removes record and lock if it can read its own record there, in steps the interleaving model allows, and reports exactly that |
| `WindowsUpgrade.WaitForHandoffAuthorization` | agent/windows-upgrade-runner.js:183-191 | Polling returns true exactly if some look finds the authorization and no look up to then the cancellation |
| `WindowsUpgrade.LaunchWindowsUpgradeScript` | agent/upgrade-command.js:302-380 | The launcher's program takes only allowed steps, and all its effects in order are given; it succeeds exactly if it completes the authorization, otherwise it cancels and kills the bootstrap, and it removes the lock only if the bootstrap never started |
| `WindowsUpgrade.WaitForUpgradeHandoff` | agent/upgrade-command.js:268-294 | Polling succeeds exactly if a living runner answers before an error or a bad exit is seen |
| `WindowsUpgrade.CreateWindowsUpgradeRun` | agent/upgrade-command.js:98-138 | Creation succeeds exactly if the lock was free and everything was written; a lock of another attempt is left alone, and a later failure undoes the own lock; all effects in order are given |
| `WorkbenchCorrelation.RequestsEndAtMostOnce` | server/workbench-correlation.js:78-185 | In every run each request has at most one end, none while it is pending, so its timeout callback is called at most once and never after an answer; neither table exceeds its cap |
| `WorkbenchCorrelation.AttributedExactlyIfUnique` | server/workbench-correlation.js:213-258 | A reply without identity is attributed to a request if and only if no live tombstone matches it and the request is the only one in time that does |
| `WorkbenchCorrelation.MatchesExactlyItsReplies` | server/workbench-correlation.js:194-211 | The identity-less replies that match a request are exactly those that repeat its agent, route and user, are of an expected type, and repeat or omit client, public id and terminal |
| `WorkbenchCorrelation.IdentifiedReplyAnswers` | server/workbench-correlation.js:169-192 | In every good state a reply with an identity finds a request if and only if the request is pending and in time, the agent and id are its own, the type is one it expects and the route, if given, is its own |
| `WorkbenchCorrelation.ConsumeTakesExactly` | server/workbench-correlation.js:178-192 | Consuming takes out and records exactly that request, and beside it only what pruning ends |
| `WorkbenchCorrelation.PruningEndsOverdue` | server/workbench-correlation.js:93-99 | Pruning ends exactly the overdue requests, recorded as expired, and leaves new tombstones only for them |
| `WorkbenchCorrelation.RegisteredIsFiled` | server/workbench-correlation.js:101-160 | A complete request is filed last with its deadline, the oldest live one going if 4096 are live; an incomplete one changes nothing |
| `WorkbenchCorrelation.TimerEndsItsRequest` | server/workbench-correlation.js:78-91 | A timer ends exactly its own pending request, with a tombstone exactly if that admits replies without identity |
| `WorkbenchCorrelation.DeleteTakesExactly` | server/workbench-correlation.js:260-270 | Deletion takes out exactly the named request of the agent and the terminal reserved for it |
| `WorkbenchCorrelation.ClearClientTakesExactly` | server/workbench-correlation.js:305-327 | When a client goes, exactly its requests and tombstones, its terminals and those reserved for its requests go |
| `WorkbenchCorrelation.ClearAgentTakesExactly` | server/workbench-correlation.js:329-345 | The same for an agent |
| `WorkbenchCorrelation.OwnerIsSetExactly` | server/workbench-correlation.js:272-295 | A terminal owner is set exactly if complete and, against an entry, if it agrees with it in client, user, route, generation and conversation |
| `WorkbenchCorrelation.OverdueReplyIsQuarantined` | server/workbench-correlation.js:48-99 | A reply that arrives after the deadline but before the timer is quarantined, not attributed to a newer request |
| `WorkbenchCorrelation.QuarantineHolds` | server/workbench-correlation.js:48-76 | While the tombstone of a legacy request lives and the tables have room, no run without a call that retires or clears it makes a matching reply go to a newer request; replies with a public id that do not match the tombstone are among the run |
| `WorkbenchCorrelation.ExpiredRequestStaysQuarantined` | server/workbench-correlation.js:48-91 | The same from the start of the program: after the timer of a legacy request has fired, no matching reply without identity goes to a newer request while the tombstone lives |
| `WorkbenchCorrelation.OwnerSurvives` | server/workbench-correlation.js:272-295 | Once its create reply is consumed a terminal owner entry stands unchanged through every run, rejected reservations by others included, until its own owner reserves it again or it is deleted or cleared |
| `WorkbenchCorrelation.OwnerIdentityIsFixed` | server/workbench-correlation.js:272-295 | No call changes whom an owner entry names; an id changes hands only after its entry was deleted |
| `WorkbenchCorrelation.RunKeepsGood` | server/workbench-correlation.js:101-160 | The invariant over all runs: distinct fresh ids, one end each, both caps |
| `WorkbenchCorrelation.RunKeepsApart` | server/workbench-correlation.js:48-91 | The invariant on tombstones over all runs: no two of one request, and none of a pending one |
| `WorkbenchCorrelation.Correlations.ReleasePendingTerminalReservation` | server/workbench-correlation.js:40-46 | Only the reservation of the request itself is released |
| `WorkbenchCorrelation.Correlations.PruneExpiredRequests` | server/workbench-correlation.js:48-53 | Exactly the tombstones whose time is over go |
| `WorkbenchCorrelation.Correlations.QuarantineExpiredRequest` | server/workbench-correlation.js:55-76 | A legacy request gets a tombstone, the oldest making room |
| `WorkbenchCorrelation.Correlations.ExpirePending` | server/workbench-correlation.js:78-91 | A request expires once; if it is not pending any more nothing happens |
| `WorkbenchCorrelation.Correlations.Prune` | server/workbench-correlation.js:93-99 | Exactly the overdue requests expire, in order |
| `WorkbenchCorrelation.Correlations.RegisterWorkbenchRequest` | server/workbench-correlation.js:101-160 | Incomplete requests are refused; otherwise overdue ones expire, the oldest make room, and the request is filed with its deadline |
| `WorkbenchCorrelation.Correlations.OnTimeout` | server/workbench-correlation.js:154-157 | The timer expires its own request only |
| `WorkbenchCorrelation.Correlations.PeekWorkbenchRequest` | server/workbench-correlation.js:169-176 | Looking changes nothing but the pruning |
| `WorkbenchCorrelation.Correlations.ConsumeWorkbenchRequest` | server/workbench-correlation.js:178-192 | A matching answer takes its request out, and returns it |
| `WorkbenchCorrelation.Correlations.FindQuarantined` | server/workbench-correlation.js:233-249 | The first loop finds a matching tombstone if and only if there is one |
| `WorkbenchCorrelation.Correlations.FindOnlyMatch` | server/workbench-correlation.js:250-257 | The second loop finds the request in time that matches if it is the only one |
| `WorkbenchCorrelation.Correlations.ConsumeLegacyWorkbenchRequest` | server/workbench-correlation.js:213-258 | The two loops return exactly the specified attribution |
| `WorkbenchCorrelation.Correlations.DeleteWorkbenchRequest` | server/workbench-correlation.js:260-270 | Deletion takes the request out and releases its reservation |
| `WorkbenchCorrelation.Correlations.RegisterWorkbenchTerminalOwner` | server/workbench-correlation.js:272-295 | Accepted exactly if complete and not in conflict with another identity |
| `WorkbenchCorrelation.Correlations.ClearWorkbenchCorrelationsForClient` | server/workbench-correlation.js:305-327 | Everything of the client goes, and its terminal owners are handed back |
| `WorkbenchCorrelation.Correlations.ClearWorkbenchCorrelationsForAgent` | server/workbench-correlation.js:329-345 | Everything of the agent goes |
| `Base64.DecodesExactlyCanonical` | server/file-content-assembly.js:34-41 | A chunk decodes to a buffer if and only if it is that buffer's canonical base64 text (section 4 of RFC 4648) and the size is admissible |
| `Base64.EncodeRoundTrip` | server/file-content-assembly.js:37-39 | Decoding canonical base64 gives back the bytes, of any length |
| `Base64.SymbolsInOrder` | server/file-content-assembly.js:37-39 | The alphabet of Table 1 in section 4 of RFC 4648 |
| `Base64.EncodesGroups` | server/file-content-assembly.js:37-39 | Every three bytes become the four symbols of their 24 bits, and a short last group is padded |
| `FileContentAssembly.TransferYieldsTheFile` | server/file-content-assembly.js:43-116 | The canonical chunks of any file over one chunk and within the maximum, fed in order and in time among arbitrary traffic on other keys, are answered as pending and at last with exactly the file, unless one is refused for capacity |
| `FileContentAssembly.TransferWithRoomYieldsTheFile` | server/file-content-assembly.js:43-116 | The same without any refusal as long as, at each piece, the other transfers leave room |
| `FileContentAssembly.RefusedExactlyWithoutRoom` | server/file-content-assembly.js:67-101 | Some piece is refused for capacity if and only if at some piece the sum of live bytes and the piece exceeds the budget, or 64 assemblies are live and it is the first |
| `FileContentAssembly.LoneTransferYieldsTheFile` | server/file-content-assembly.js:43-116 | On an otherwise idle server the transfer of any admissible file succeeds |
| `FileContentAssembly.PayloadExactly` | server/file-content-assembly.js:43-61 | A chunk has a payload if and only if it is the canonical text of a piece of exactly the size its place in an admissible transfer asks for |
| `FileContentAssembly.BadChunkIsRefused` | server/file-content-assembly.js:43-61 | Any other chunk is invalid and changes nothing; no chunk changes other keys |
| `FileContentAssembly.FirstChunkIsAnswered` | server/file-content-assembly.js:63-116 | For a key without live assembly: out of order exactly unless first, over capacity exactly if room is lacking, otherwise pending with exactly that chunk kept |
| `FileContentAssembly.LaterChunkIsAnswered` | server/file-content-assembly.js:90-116 | For a live assembly: out of order exactly unless next, invalid exactly if it differs from the first in what must repeat, over capacity exactly if room is lacking, otherwise kept, and complete with all bytes if it is the last |
| `FileContentAssembly.LastChunkCompletes` | server/file-content-assembly.js:107-115 | The bytes received with the last chunk are those announced, so the mismatch check never acts |
| `FileContentAssembly.EventKeepsInv` | server/file-content-assembly.js:15-116 | Every event keeps each assembly a proper prefix of its transfer, and the number of assemblies and the byte budget bounded |
| `FileContentAssembly.RunKeepsInv` | server/file-content-assembly.js:43-126 | The same over all runs |
| `FileContentAssembly.FileContentAssembler.Remove` | server/file-content-assembly.js:15-21 | The counter stays the sum of the received bytes and the clamp to zero never acts |
| `FileContentAssembly.FileContentAssembler.Prune` | server/file-content-assembly.js:28-32 | Exactly the expired assemblies go |
| `FileContentAssembly.FileContentAssembler.AppendFileContentChunk` | server/file-content-assembly.js:43-116 | One call, every branch: the new table and status are the specified ones, and the counter is their sum |
| `FileContentAssembly.FileContentAssembler.OnTimeout` | server/file-content-assembly.js:85-86 | The timer of a due assembly removes it |
| `FileContentAssembly.FileContentAssembler.DiscardFileContentAssembly` | server/file-content-assembly.js:118-120 | Exactly that assembly goes |
| `FileContentAssembly.FileContentAssembler.ClearFileContentAssembliesForAgent` | server/file-content-assembly.js:122-127 | Exactly the agent's assemblies go |
| `AssetStore.RunKeepsCountersExact` | server/yeaft-asset-store.js:136-194 | From exact counters, as opening the store leaves them whatever is on the disk: over every run of put, describe, delete and collect in which collections and deletions complete and no put drifts, every counter (total, per scope, per owner, counts) equals what a recount of the disk would find, whatever else fails inside puts |
| `AssetStore.TidyRunKeepsCountersExact` | server/yeaft-asset-store.js:136-194 | On a disk without leftovers no put drifts, so the counters stay exact through every run in which collections and deletions complete |
| `AssetStore.RunKeepsQuotas` | server/yeaft-asset-store.js:199-280 | Even when collections and deletions stop half-way the counters never fall below what is used and every quota that held still holds, as long as no put drifts |
| `AssetStore.PutStaysExactUnlessItDrifts` | server/yeaft-asset-store.js:219-278 | From exact counters, on any disk, a put leads to exact counters if and only if it does not drift: it neither fails with its data left beside stray metadata of the asset, nor rewrites metadata of an existing file that do not describe it as this put does; the condition is on the state before the call and the failures |
| `AssetStore.BrokenUploadIsNotCounted` | server/yeaft-asset-store.js:212-220 | A store with nothing but stray metadata in which a broken upload leaves an image that is not counted |
| `AssetStore.RepairedUploadIsNotCounted` | server/yeaft-asset-store.js:211-276 | A store with unparseable metadata in which a successful upload makes an image that is not counted |
| `AssetStore.StepKeepsQuota` | server/yeaft-asset-store.js:212-218 | One step: no quantity grows beyond its limit |
| `AssetStore.StoredExactly` | server/yeaft-asset-store.js:199-280 | For any disk, counters and failures: an image is stored if and only if the request is proper, the image is there already or every quota has room for it, and the writes succeed |
| `AssetStore.StoredExactlyWithinUse` | server/yeaft-asset-store.js:199-280 | From exact counters a new proper image is stored if and only if what the disk uses and the image together stay within all five limits |
| `AssetStore.FirstExceededIsNamed` | server/yeaft-asset-store.js:212-218 | Of the exceeded quotas the first in the order scope count, global count, scope bytes, owner bytes, global bytes is named, and nothing changes |
| `AssetStore.StoredIsDescribed` | server/yeaft-asset-store.js:220-279 | A stored image can be described by its owner with its size, referenced now, and no other file changes |
| `AssetStore.DetectsSignatures` | server/yeaft-asset-store.js:38-46 | The type of an image is detected if and only if it has the signature of that type |
| `AssetStore.RefusedExactlyIfImproper` | server/yeaft-asset-store.js:200-207 | A request is refused by its form if and only if an id is missing, the size is not 1 byte to 20 MiB, there is no signature, or it contradicts the named type or id |
| `AssetStore.CollectionKeeps` | server/yeaft-asset-store.js:157-194 | A completed collection keeps exactly the assets within retention, unchanged, and exactly the other files within the grace period |
| `AssetStore.DeletedScopeIsGone` | server/yeaft-asset-store.js:361-368 | After a completed deletion nothing of the scope can be described, and the rest as before |
| `AssetStore.DescribedAssetIsRetained` | server/yeaft-asset-store.js:282-292 | An asset described at t with a successful renewal can still be described after every collection up to t plus the retention less the lesser of half of it and one hour, for any clock that does not go back behind t |
| `AssetStore.YeaftAssetStore.constructor` | server/yeaft-asset-store.js:157-196 | Opening collects first, so the counters start exact |
| `AssetStore.YeaftAssetStore.RebuildUsage` | server/yeaft-asset-store.js:136-150 | The loop over the rows makes all counters equal to the sums over the disk |
| `AssetStore.YeaftAssetStore.RemoveExpired` | server/yeaft-asset-store.js:162-171 | Exactly the expired rows lose their files, and are counted |
| `AssetStore.YeaftAssetStore.RemoveOrphanData` | server/yeaft-asset-store.js:172-190 | Exactly the old data files that belong to no row go |
| `AssetStore.YeaftAssetStore.RemoveOrphanMetadata` | server/yeaft-asset-store.js:172-190 | Exactly the old metadata files that belong to no row go |
| `AssetStore.YeaftAssetStore.CollectGarbage` | server/yeaft-asset-store.js:157-194 | A collection that completes removes exactly what is due and recounts; one that stops has removed only due files and left the counters alone |
| `AssetStore.YeaftAssetStore.PutAsset` | server/yeaft-asset-store.js:199-280 | Every refusal in order, the collection when an hour has passed, and the writes with their failures |
| `AssetStore.YeaftAssetStore.DescribeAsset` | server/yeaft-asset-store.js:282-304 | Only the owner's asset is described, and its reference is renewed when due |
| `AssetStore.YeaftAssetStore.DeleteScope` | server/yeaft-asset-store.js:361-368 | A completed deletion removes exactly the scope's files, returns how many assets that were and recounts |
| `ContainerLifecycle.OperationsRunInRequestOrder` | server/container-agent-service.js:41-57 | An owner's operations run one at a time in the order of the requests: a started one has all earlier ones behind it, and a queued one can start exactly when they have finished |
| `ContainerLifecycle.NoTailIsLeftBehind` | server/container-agent-service.js:51-56 | The map has an entry for an owner exactly while the owner has an unfinished call |
| `ContainerLifecycle.NextInLineCanBegin` | server/container-agent-service.js:41-48 | The chain of promises lets a call begin if and only if every earlier call of its owner has finished |
| `ContainerLifecycle.DeletedOwnersHaveNoContainer` | server/container-agent-service.js:183-206 | For users with ids as the server generates them: whatever fails and whenever the server restarts, a container has its marker, and an owner deactivated by a deletion request has no container then or ever after |
| `ContainerLifecycle.NoContainersWithDistinctNames` | server/container-agent-service.js:183-206 | The same for owners with any ids whose container names are distinct |
| `ContainerLifecycle.NoLeaksExactlyWithDistinctNames` | server/container-agent-service.js:29-31 | No deleted owner of a set has a container in any run if and only if their container names are distinct; the limit of the name function for other ids than the server's own |
| `ContainerLifecycle.CollidingNamesLeaveAContainer` | server/container-agent-service.js:183-206 | For any two ids with one name, which the server's own ids never have, a run that ends with both accounts deleted and the container still there |
| `ContainerLifecycle.SafeIdsHaveDistinctNames` | server/container-agent-service.js:29-31 | Ids of at most 48 letters, digits, underscores, dots and dashes have distinct names |
| `ContainerLifecycle.UserIdsAreSafe` | server/db/connection.js:835-837 | A generated user id, `user_` and a UUID, is such an id |
| `ContainerLifecycle.DeletedStaysDeleted` | server/db/user-db.js:60-79 | Nothing in a run undoes a deactivation |
| `ContainerLifecycle.CreationCreates` | server/container-agent-service.js:98-118 | A creation in which nothing fails makes container and marker exactly if the feature is on and the owner active |
| `ContainerLifecycle.ActionActs` | server/container-agent-service.js:153-174 | An action in which nothing fails takes both away exactly if it is an admitted removal, and changes nothing else |
| `ContainerLifecycle.CleanupCleans` | server/container-agent-service.js:179-206 | A cleanup in which nothing fails takes both away exactly if there is a marker, whether the feature is on or not, and a deletion also deactivates the account |
| `ContainerLifecycle.FailureEnds` | server/container-agent-service.js:41-57 | A failing await ends the call and touches no account and nothing of another name |
| `ContainerLifecycle.ContainerAgentService.WithOwnerLifecycle` | server/container-agent-service.js:41-48 | A request takes the place behind the owner's last one |
| `ContainerLifecycle.ContainerAgentService.BeginOperation` | server/container-agent-service.js:98-100 | The first await of an operation, or its refusal when the feature is off |
| `ContainerLifecycle.ContainerAgentService.Release` | server/container-agent-service.js:51-56 | A finished call removes the map entry only if it is its own |
| `ContainerLifecycle.ContainerAgentService.ResumeAdmission` | server/container-agent-service.js:98-104 | Docker unreachable or owner inactive ends the call |
| `ContainerLifecycle.ContainerAgentService.ResumeCreate` | server/container-agent-service.js:104-118 | Marker before container, for every failure |
| `ContainerLifecycle.ContainerAgentService.ResumeCleanup` | server/container-agent-service.js:183-196 | Container before marker, for every failure |
| `ContainerLifecycle.ContainerAgentService.ResumeLast` | server/container-agent-service.js:198-206 | The account is deactivated only after the cleanup |
| `DuplicateCleanup.CleanupRemovesExactlyLaterCopies` | scripts/cleanup-duplicate-user-messages.js:160-193 | For an ordered list, what is left has no two copies of one prompt, a second run finds no cluster, and a record is left if and only if no earlier record that is left is its copy, so other roles and undated records stay |
| `DuplicateCleanup.RerunComesToTheSameEnd` | scripts/cleanup-duplicate-user-messages.js:250-285 | Whichever backups or deletions failed, running the script again comes to the same end as if none had |
| `DuplicateCleanup.CleanedIsKept` | scripts/cleanup-duplicate-user-messages.js:160-193 | The clustering with deletion equals one pass that skips copies of kept records |
| `DuplicateCleanup.CleanedIsKeptExactlyIfHeadsFirst` | scripts/cleanup-duplicate-user-messages.js:160-193 | For a list in any order, as with the cold files, the clean-up equals that pass if and only if the record kept of every cluster is its first |
| `DuplicateCleanup.CleanIsFinishedIfHeadsFirst` | scripts/cleanup-duplicate-user-messages.js:160-193 | Under that condition nothing duplicated is left and a second run finds no cluster |
| `DuplicateCleanup.FinishedWithoutHeadsFirst` | scripts/cleanup-duplicate-user-messages.js:160-193 | The condition is not necessary for being finished: every pair of copies in which the later comes first by name |
| `DuplicateCleanup.NoClustersExactlyIfDuplicateFree` | scripts/cleanup-duplicate-user-messages.js:160-193 | There is no cluster if and only if no two records are copies |
| `DuplicateCleanup.ClustersAreDisjointCopies` | scripts/cleanup-duplicate-user-messages.js:160-193 | In a list of any order clusters are disjoint and consist of copies of their first record |
| `DuplicateCleanup.PairIsClusterExactly` | scripts/cleanup-duplicate-user-messages.js:167-188 | Two records are a cluster if and only if both are a user's with equal content and session and known times at most the window apart |
| `DuplicateCleanup.EachClusterKeepsItsEarliest` | scripts/cleanup-duplicate-user-messages.js:250-254 | In any order the earliest name of each cluster is kept, and everything removed is a user's record of which a copy at most two windows away is kept |
| `DuplicateCleanup.WithColdAnotherRunFindsMore` | scripts/cleanup-duplicate-user-messages.js:221-222 | With the cold directory included, a concrete list for which a second run finds another cluster |
| `DuplicateCleanup.NameOrderIsMessageOrder` | agent/yeaft/conversation/persist.js:273-275 | For all numbers a < b, the name of message a comes first if and only if a is at most b cut to as many digits as a has |
| `DuplicateCleanup.KeptIsEarliestMessageExactly` | scripts/cleanup-duplicate-user-messages.js:126-130 | The record kept of a cluster in the order of names is its earliest message if and only if its name overtakes no other, so whenever the numbers have equally many digits |
| `DuplicateCleanup.OvertakenCopyGoes` | scripts/cleanup-duplicate-user-messages.js:126-130 | Of any two copies of which the later message overtakes the earlier by name, the earlier is removed, against the documented chronological order |
| `DuplicateCleanup.PastTenThousandTheOlderGoes` | scripts/cleanup-duplicate-user-messages.js:126-130 | So message 9999 is removed as a copy of message 10000 |
| `DuplicateCleanup.ClusterOf` | scripts/cleanup-duplicate-user-messages.js:167-188 | The inner loop collects the copies of the head and consumes exactly them |
| `DuplicateCleanup.FindClusters` | scripts/cleanup-duplicate-user-messages.js:160-193 | The nested loops compute the recursive clustering |
| `DuplicateCleanup.DeleteExtras` | scripts/cleanup-duplicate-user-messages.js:250-284 | All of a cluster but its earliest record goes, except what cannot be backed up or deleted |
| `DuplicateCleanup.CleanUp` | scripts/cleanup-duplicate-user-messages.js:220-285 | The script as a whole, dry or not, with or without the cold files |
| `PercentEncoding.DecodeEncode` | server/workbench-route.js:41-43 | Decoding undoes encoding on every string that can be encoded |
| `PercentEncoding.EncodedLooks` | server/workbench-route.js:41-43 | Encoded strings contain only unreserved characters and escapes, and are at most nine times as long, three for ASCII |
| `WorkbenchRoutes.KeysAreInjective` | server/workbench-route.js:34-44 | Two valid routes with one key name the same provider, agent and owner |
| `WorkbenchRoutes.ParseGenerated` | server/workbench-route.js:62-90 | Parsing the id made for a valid route in any scope returns its key exactly if the id has at most 4096 code units and the expected agent matches |
| `WorkbenchRoutes.ParsedIsCanonical` | server/workbench-route.js:71-90 | Whatever id is parsed, an accepted key is the key of a route with the expected agent and stands at the start of the id |
| `WorkbenchRoutes.AsciiIdsFit` | server/workbench-route.js:62-72 | With ASCII ids the conversation id always fits |
| `WorkbenchRoutes.LongIdsAreLost` | server/workbench-route.js:62-72 | A valid route with ideographic ids whose conversation id is not recognized |
| `WorkbenchRoutes.CleanIsTrimmed` | server/workbench-route.js:28-32 | Cleaned values are trimmed and within their length |
| `WorkbenchRoutes.CleanIs` | server/workbench-route.js:28-32 | Cleaning takes away exactly the space around a value, and all of a value that is longer than allowed |
| `WorkbenchRoutes.RoutesAreValid` | server/workbench-route.js:34-44 | Every provider with a trimmed nonempty agent and owner of at most 300 units makes a valid route, whose key joins the three encodings |
| `SettingsRequests.NeverAmbiguous` | server/context.js:96-120 | In every run at most one pending request per agent and operation admits a legacy reply, so the ambiguity exit is never taken and such a reply answers a request exactly if there is one |
| `SettingsRequests.ReplyTakesExactly` | server/context.js:96-120 | In every run a reply takes out exactly the live request of its agent and operation that it names, or the one that admits replies without identity if it names none; beside it only expired requests and those of disconnected clients go |
| `SettingsRequests.RequestIsFiledExactly` | server/context.js:71-93 | A request under a new id is filed, for two minutes, if and only if it is complete, its operation is free if it admits replies without identity, and fewer than 256 live requests of its client and 2048 in all are there |
| `SettingsRequests.LateReplyAnswersTheNext` | server/context.js:70-93 | For any two such requests one time-to-live apart, a late reply to the first is taken for the second's |
| `SettingsRequests.CapsHold` | server/context.js:81-83 | The table and each client's share of it stay within their caps |
| `SettingsRequests.RunKeepsInv` | server/context.js:62-142 | The invariant over all runs |
| `SettingsRequests.SettingsRequestRegistry.Prune` | server/context.js:62-68 | Exactly expired requests and those of disconnected clients go |
| `SettingsRequests.SettingsRequestRegistry.CountPending` | server/context.js:77-80 | The loop counts the client's requests and finds whether the operation is busy |
| `SettingsRequests.SettingsRequestRegistry.RegisterRequest` | server/context.js:71-93 | A request is admitted exactly under the stated conditions and filed with its deadline |
| `SettingsRequests.SettingsRequestRegistry.FindLegacy` | server/context.js:105-117 | The loop finds the sole request a reply could answer, and none if there are two |
| `SettingsRequests.SettingsRequestRegistry.ConsumeRequest` | server/context.js:96-120 | The answered request is taken out and returned |
| `SettingsRequests.SettingsRequestRegistry.DeleteRequest` | server/context.js:122-127 | Deletion requires the owning client if one is named |
| `SettingsRequests.SettingsRequestRegistry.ClearRequestsForClient` | server/context.js:129-134 | Exactly the client's requests go |
| `SettingsRequests.SettingsRequestRegistry.TakeRequestsForAgent` | server/context.js:136-145 | Exactly the agent's requests go and are handed back |

## Left out

- Sockets, HTTP, SQLite, Docker, PM2, npm, git and process spawning: only their success or failure appears, as a parameter.
- Cryptography: the digests that make scope ids and asset ids are taken as injective; tokens are not part of the model.
- JSON parsing and the normalization of messages: an arbitrary partial function from a line to a row.
- Time within one call: a synchronous call reads the clock once. Where the source reads it again a moment later the model uses the same value.
- `AgentConnections`: the contents of agent records, heartbeats and the messages after registration; a closing socket is the only way an agent disconnects.
- `Terminals`: records are entries of a table instead of heap objects, so that identity is the number of the record; input and resize have no effect on what is proved. A `kill` that throws counts as a kill.
- `WindowsUpgrade`: the guarantee is about interleavings of processes, so files and processes are a transition system, and the programs are proved to take only its steps. Nobody removes a lock by hand, and a dead parent's process id is not reused while the runner waits.
- `WorkbenchCorrelation`: callbacks are recorded as outcomes, so a callback that calls back into the module while it is running is not covered.
- WorkbenchCorrelation.QuarantineHolds: requires that the requests registered meanwhile do not fill the tables, because a full table evicts the oldest tombstone, and that neither a matching reply with a public id nor a clearing call retires it.
- `HistoryTail`: the file does not change while it is read.
- `AssetStore`: reading existing metadata never fails, temporary files of interrupted writes are not counted anywhere, a partly written data file counts as data, and the turn associations, image sizes and file names in the metadata are not modelled; quotas are integers and the order in which the file system lists entries is arbitrary.
- AssetStore.RunKeepsQuotas: excludes puts that drift, for which `AssetStore.PutStaysExactUnlessItDrifts` gives the exact condition.
- AssetStore.DescribedAssetIsRetained: needs the metadata's own scope id to be right and a nonnegative clock, as in every store written by this program.
- `ContainerLifecycle`: an await and what it changes happen together; nobody else creates or removes these containers or their markers, and no other path deactivates or reactivates an account. Start, stop and retry change nothing the model keeps.
- DuplicateCleanup.CleanupRemovesExactlyLaterCopies: for lists in the order of file names, as the script reads one directory; with the cold directory included `DuplicateCleanup.CleanedIsKeptExactlyIfHeadsFirst` takes its place.
- `DuplicateCleanup`: the sort within a cluster is replaced by picking its first name, as only that matters, and names are compared by character, which is what both sorts of the script do on these names.
- `FileContentAssembly`: a message field is a string, so that two absent fields are equal; a timer fires only when its assembly is due.
- `WorkbenchRoutes`: the hash of workspace generations and the resolution of routes against the database.
- `SettingsRequests`: the registry of debug-trace requests in the same file, a smaller variant of the same table with ordered chunks.
- Sub-agent watching, the browser installation lock and the browser-extension bridge: their exactly-once or exclusion properties do not hold in the code as written.
- Caches, heartbeat policy and metrics: they would only add easy members.
