# A model of feint's command line

This project models the half of feint that decides: the guard that stands
between a recording and a real account, the record of evidence and everything
that reads it, the gate over the committed corpora, and the text algorithms and
printers whose output is committed or handed to a shell. Every claim is proved
for all inputs, all runs or all orders. Where the code does not do what one would
expect it is kept as it is: the list at the end of the next section names, for
each such place, what shows it and the condition under which it cannot happen.

## How it is laid out

| module | models |
|---|---|
| `Wrappers`, `Text`, `Ordering`, `Json` | options and results, Go's string functions over bytes, stable sorting, decoded JSON and its walks |
| `Wire` | the path of a request as the server receives it |
| `AccountGuard`, `AccountSafety` | the guard's methods, and the runs they make |
| `AccountSessions`, `Cleanup` | what a run and its clean-up leave of the account, at every endpoint and at a cloud that refuses to delete what is needed |
| `AccountExposure` | which objects a run can name: what the guard protects and what it does not |
| `Replay`, `CloudGrading`, `CloudReplay` | replay results, the split of a recording, the report with its three outcomes and its exit code, and the whole of a replay at the cloud |
| `Evidence`, `Baseline`, `Tally`, `Gaps` | the record's algebra, the pinned baseline, the score and the work queue |
| `CorpusGate` | first-match exemptions, use counts, staleness, exit codes |
| `Wrapping`, `WrappingRuns`, `Splicing`, `SplicingMarkers`, `Folding`, `CapabilityClaims`, `CapabilityPages`, `ProviderBlocks`, `ProviderRoundTrip` | the algorithms behind the generated documents |
| `Routes`, `Quoting` | the route a call reaches, the assignments `env` prints |

Code that changes state is modelled by classes and loops with the source's own
fields and variables (`Guard`, `Report`, `Counter`, `UnitReader`, `File`, the use
counts as an array); each is tied to a function or predicate, and the theorems
are about those. An error return is a `Result` or an exit code, never a
precondition. A definition the theorems go through is tied down by a statement that
does not use it, in the contract of the method that implements it or in a lemma
beside it named for what it means: `DecideMeans`, `SyntheticMeans`, `MatchesMeans`,
`ObstacleMeans` and so on; for Go's own string functions `SplitIsTheCut`,
`TrimMeans`, `ContainsMeans`, `PrefixMeans`, `SuffixMeans` and `LeMeans`; and for the
classes of bytes `SpaceMeans`, `NameByteMeans`, `HexMeans`, `ControlMeans`,
`LowerMeans` and `BytesMean`.

Two things are parameters. `Shapes` holds the recognisers of the packages beside
this one: `identifier` for `shape.IsMintedIdentifier` and `synthetic` for
`corpus.Minted`. Where a theorem needs to know something of the first it asks for
`SaneShapes`: an identifier is not empty and holds no slash, hash, question mark,
percent sign or control byte, and what stands before the colon of one that holds a
colon is not an identifier. An endpoint answers what it likes and may touch
whatever the path it receives names, each segment as it stands and up to its colon;
what the guard recognises has no part in that. What it receives is not always what
was recorded: a path is parsed as part of a URL when the request is built, so a
fragment is dropped, a question mark ends the path and escapes are undone
(`Received`). A path without those bytes is a plain one. The hypothesis that a
successful create answers identifiers the account did not hold is `AnswersFresh`,
and it speaks of every identifier under an `id` key because that is what the guard
takes ownership of; `ExposedExactlyWhenAnswered` says that nothing weaker would do.

Some things the code does that its prose or a first reading would not suggest,
kept as they are, each with what shows it and what it takes:

- a pinned `violating` contract counts as something to deliver, so putting it
  right fails the gate (`FixingAPinnedViolationIsAFall`); the gate and the demotion
  report agree exactly when none was pinned (`GateAgreesWithTheDemotionReport`);
- joining two legs can demote `contract`, on exactly the operations
  `JoinLosesOnlyContract` gives, and nothing else;
- an exemption shadowed by an earlier one is stale, so the order of the
  acceptance list can fail a run although it never changes what is unaccepted
  (`OrderDecidesStaleness`); no order can exactly when each entry has a finding of
  its own (`NoOrderIsStaleExactlyWhen`);
- the number on a finding refused by shape is a line of the file, the number on a
  replayed one a place among the requests sent; they are the same exactly up to
  the first refusal (`NumberingsAgreeUntilTheFirstRefusal`);
- the guard reads a segment up to its first colon, so an IPv6 address in a path is
  not an identifier to it and an endpoint can lose one (`LosingAnAddress`); the
  objects the guard protects from plain paths are exactly those under a colon-free
  identifier (`ProtectedExactlyWhen`);
- the guard reads the path before it is parsed: an object in front of a question
  mark is lost behind an owned identifier (`LosingBehindAQuery`), an entry created
  at such a path is not reached by its own clean-up
  (`AnEntryBehindAQueryIsNotReached`), and spelt in escapes every name is reached
  (`NothingIsProtectedFromEscapes`); a change names nothing colon-free that is not
  owned exactly when it cannot go out or the guard reads each such identifier
  (`NamedIsOwnedExactlyWhenInSight`), as it does of every plain path
  (`PlainIsInSight`), and a clean-up leaves nothing only when each entry is reached
  (`SessionEndsAsItBeganExactlyWhen`);
- an answer that carries its project inside makes the project this run's
  (`ANestedAnswerExposesItsProject`, `ExposedExactlyWhenAnswered`);
- a section that quotes its own end marker grows at every write
  (`APromiseQuotingItsMarker`); writing is repeatable exactly when the end marker
  is first met at the section's end (`SplicingTwice`);
- a section that quotes a marker of a region further down redirects that region's
  next write (`APromiseQuotingTheQuickstart`), which finds its own body exactly when
  the section holds neither marker (`AnotherRegionIsFoundExactlyWhen`);
- a wrapped paragraph can overrun its column although its words can be wrapped
  within it (`AParagraphOverruns`); it fits exactly when each unbreakable stretch of
  words fits alone and none is begun where it does not end, so that placing whole
  stretches gives the same lines (`TheOutputFitsExactlyWhen`);
- an entry or an attribute of a provider block is read only at the start of a line,
  and the place a search begins counts as one (`ACommaHidesTheNextEntry`,
  `AnEntryOnOneLineLosesItsVersion`; `EveryEntryIsSeenExactlyWhen`,
  `AKeyIsSeenExactlyWhen`);
- the fish renderer escapes quotes and leaves backslashes (`FishLosesABackslash`),
  so it is exact only where no backslash meets a backslash, a quote or the end
  (`FishRoundTripExactlyWhen`).

## Model

| member | source | states |
|---|---|---|
| AccountGuard.Guard.constructor | internal/cli/corpus_cloud.go:788-790 | a new guard owns nothing, has created nothing, and carries the dry-run switch |
| AccountGuard.Guard.Before | internal/cli/corpus_cloud.go:809-846 | a request is let out if and only if it is a GET or HEAD, or the run is not dry, every identifier among its segments is owned, and it is a DELETE or PATCH naming one or a POST or PUT of one of the three free operations; each refusal has its own cause in the order of the tests; the only state moved is the record of invented values |
| AccountGuard.ReadPath | internal/cli/corpus_cloud.go:821-833 | a path is foreign exactly when one of its identifier segments (cut at a colon) is not owned, and otherwise the count is zero exactly when it names none |
| AccountGuard.DecideMeans | internal/cli/corpus_cloud.go:809-846 | the same of the function the runs are made of: `IsDecision` writes the five outcomes out in verbs, segments, ownership and operation names |
| AccountGuard.Guard.After | internal/cli/corpus_cloud.go:849-862 | a POST or PUT answered 2xx adds every identifier of the answer to what is owned and, when the answer names its object, one ledger entry for it; any other request or status changes nothing |
| AccountGuard.LearnMeans | internal/cli/corpus_cloud.go:849-862 | the same of the function the runs are made of, status bounds written out |
| AccountGuard.Guard.NoteSynthetic | internal/cli/corpus_cloud.go:882-906 | a text is in a request's entry if and only if it is not empty, has the invented shape, and is a string at some path of the body, a segment of the path up to its first colon, or the value of a pair of the query; each once, in order, and no entry when there is none |
| AccountGuard.SyntheticMeans | internal/cli/corpus_cloud.go:882-906 | the same of the set the report is proved against, by the three places a text can stand in |
| AccountGuard.Guard.Destroy | internal/cli/corpus_cloud.go:973-996 | newest first, a DELETE then a GET of each ledger URL and no other request; proved plus leftovers is the ledger; an entry is left over if and only if its read answered neither 404 nor 410, a read that never came back included |
| AccountGuard.LeftoversMean | internal/cli/corpus_cloud.go:973-996 | of any reads: an object is left over exactly when some entry of it was read with neither 404 nor 410 |
| AccountGuard.TrafficMeans | internal/cli/corpus_cloud.go:973-996 | of any ledger: entry by entry from the newest, its DELETE and then its GET, and nothing else |
| AccountGuard.ASilentReadLeavesItsEntry | internal/cli/corpus_cloud.go:984-993 | an entry whose read never came back is left over, whatever the other reads said |
| Json.CollectMintedIds | internal/cli/corpus_cloud.go:915-936 | the walk collects the set `MintedIds`, whatever order a map is visited in |
| Json.MintedIdsAreThePathsEndingInId | internal/cli/corpus_cloud.go:908-936 | an identifier is collected exactly when some path through the answer ends at it under a key called `id`, at any depth |
| Json.FindObjectId | internal/cli/corpus_cloud.go:938-963 | a text is returned if and only if it is an identifier reached by the path `id`, or no identifier is and the answer has one key under which the path `id` reaches it |
| Json.ObjectIdNamesTheObject | internal/cli/corpus_cloud.go:945-963 | the same of the function the ledger is built from: the object is named by its place in the answer alone |
| Json.ObjectIdIsMinted | internal/cli/corpus_cloud.go:915-962 | over every JSON tree, what the ledger would record is among what the guard owns |
| Json.WalkStrings | internal/cli/corpus_cloud.go:606-621 | every string value of a body is visited and nothing else |
| Json.StringsAreReached | internal/cli/corpus_cloud.go:606-621 | and a string is visited exactly when some path of keys and positions ends at it |
| AccountSafety.Replay | internal/replay/replay.go:320-447 | the rebind, build, ask, send, learn loop, for any rebinding: an exchange with nothing recorded or no route is never shown to the guard, each other one is let out or turned down as the abstract run decides, the loop stops at the first request that cannot be built or is let out and never answered and nowhere else, and the guard's fields are those of the abstract run |
| AccountSafety.RunsToTheEndExactlyWhen | internal/replay/replay.go:320-447 | a run takes up every exchange if and only if each request can be built and each one let out is answered |
| AccountSafety.OwnedIsWhatCreatesAnswered | internal/cli/corpus_cloud.go:846-862 | in every run, an identifier is owned if and only if an earlier successful create that was let out answered it |
| AccountSafety.ChangesAddressOnlyThisRunsObjects | internal/cli/corpus_cloud.go:809-862 | main safety theorem, every run against any endpoint: each changing request let out addresses only identifiers earlier creates of this run answered, DELETE and PATCH name at least one, POST and PUT are on the free list, and the run is not dry |
| AccountSafety.DryRunChangesNothing | internal/cli/corpus_cloud.go:810-818 | a dry run sends only GET and HEAD, owns nothing and leaves the ledger empty |
| AccountSafety.SentExactlyWhen | internal/cli/corpus_cloud.go:809-862 | over every run, what goes out: a request shown to the guard is sent if and only if it is a GET or HEAD, or the run is not dry, each identifier its segments hold was answered by an earlier create of the run, and it is a DELETE or PATCH naming one or a POST or PUT on the free list |
| AccountSafety.ReadsAlwaysGoOut | internal/cli/corpus_cloud.go:810-818 | so every read is sent, in a dry run too |
| AccountSafety.LedgerIsOwned | internal/cli/corpus_cloud.go:849-862 | invariant of every run: each ledger entry's identifier, and each identifier its collection path names, is owned |
| AccountSafety.UrlAddresses | internal/cli/corpus_cloud.go:786 | as the guard would read it, the URL an entry is deleted at names what its collection names and its own identifier, unless that one holds a colon |
| AccountSafety.DestructionAddressesOnlyThisRunsObjects | internal/cli/corpus_cloud.go:964-996 | the destroying walk, which bypasses the guard, obeys the guard's rule on paths as the guard reads them; what the URLs name when they arrive is `UrlNames` and `LedgerNamesNoOther` |
| Wire.PlainIsReceived | internal/replay/replay.go:378-382 | a path without hash, question mark and percent sign is received as it stands, and one holding a control byte cannot be built |
| Wire.EscapedIsReceived | internal/replay/replay.go:378-382 | a path spelt in escapes is received as the bytes it spells, whatever they are |
| Wire.QueryEndsThePath | internal/replay/replay.go:378-382 | of a path with a question mark in it, what stands before is received |
| Wire.TheQueryIsDropped | internal/replay/replay.go:378-382 | for every path before it: the query does not arrive, and may hold no control byte |
| Wire.TheFragmentIsDropped | internal/replay/replay.go:378-382 | for every address before it: what stands behind the first hash does not arrive, and has to be an escaped text |
| Wire.ReceivedWithMore | internal/cli/corpus_cloud.go:786 | appending a slash and a plain piece to any path changes nothing of what is received once a hash or a question mark has ended it, and otherwise appends them |
| AccountSessions.SessionLeavesTheAccountAlone | internal/cli/corpus_cloud.go:797-996 | at any endpoint that touches only what the path it receives names, each segment as it stands and up to its colon: if creates answer identifiers the account did not hold and the changes sent have their paths in sight, which plain paths have, every pre-existing object under a colon-free identifier is in place and unchanged after the run, cut short or not, and after the clean-up |
| AccountSessions.SurvivesExactlyWhenUnnamed | internal/cli/corpus_cloud.go:797-996 | over all such endpoints, one object survives run and clean-up if and only if no change that was sent and no URL of the ledger names it in the path received |
| AccountSessions.TheAccountSurvivesExactlyWhenUnnamed | internal/cli/corpus_cloud.go:797-996 | and the whole account survives at every endpoint if and only if none of its objects is named |
| AccountSessions.UrlNames | internal/cli/corpus_cloud.go:786 | the URL of an entry names, when it is received, what its collection names and the object itself, unless the collection's path was ended before it |
| AccountSessions.LedgerNamesNoOther | internal/cli/corpus_cloud.go:973-996 | in every run, the clean-up names under a colon-free identifier nothing but the entry's own object that no change of the run had named |
| AccountExposure.ProtectedExactlyWhen | internal/cli/corpus_cloud.go:809-846 | which objects the guard protects, over all runs of plain paths: no such run names one it was not answered if and only if its name is an identifier without a colon, or cannot be said in a plain path at all |
| AccountExposure.NothingIsProtectedFromEscapes | internal/cli/corpus_cloud.go:809-846 | and over all runs: spelt in escapes any name can be reached, so no run names an object it was not answered if and only if its name holds a slash |
| AccountExposure.AnAddressIsNotProtected | internal/cli/corpus_cloud.go:821-833 | the losing run: a free create answered with a fresh identifier, then a DELETE of that identifier followed by an IPv6 address; both go out and an endpoint loses the address |
| AccountExposure.LosingAnAddress | internal/cli/corpus_cloud.go:821-833 | that run for the addresses 1.2.3.4 and ::1 |
| AccountExposure.AQueryHidesAnObject | internal/cli/corpus_cloud.go:821-833 | the other losing run, for any collection and any identifiers: a DELETE of the object, a question mark and an owned identifier behind it; the guard reads the owned one alone, what is received is the object, and an endpoint loses it |
| AccountExposure.LosingBehindAQuery | internal/cli/corpus_cloud.go:821-833 | that run for 1.2.3.5 in front of the question mark and 1.2.3.4 behind it |
| AccountExposure.AnEntryBehindAQueryIsNotReached | internal/cli/corpus_cloud.go:973-996 | an object created by a POST to a collection with a question mark in its path has an entry whose DELETE is received at the collection |
| AccountExposure.NamedIsOwnedExactlyWhenInSight | internal/cli/corpus_cloud.go:809-846 | what parsing costs, change by change and over the states runs reach: every colon-free identifier the received path names is owned whenever the change is let out if and only if the change can never go out or the guard reads each of them |
| AccountExposure.WholeSegmentsAreOwnedUnlessOneHoldsAColon | internal/cli/corpus_cloud.go:819-846 | what the colon cut costs, for every changing method with a plain path and over the states runs reach: a change is let out only with every identifier of a whole segment owned if and only if it can never go out or none of those holds a colon |
| AccountExposure.ExposedExactlyWhenAnswered | internal/cli/corpus_cloud.go:846-862 | freshness is the weakest hypothesis: after any run, some next change with a plain path naming an object under a colon-free identifier would go out if and only if a create of this run answered that identifier |
| AccountExposure.EveryNameIsExposedToEscapes | internal/cli/corpus_cloud.go:846-862 | with other paths every name without a slash is exposed after every run |
| AccountExposure.ANestedAnswerExposesItsProject | internal/cli/corpus_cloud.go:908-963 | an answer carrying its project inside: the ledger records the new object alone and a change naming the project would go out |
| Cleanup.LeftoversAreTheUnproved | internal/cli/corpus_cloud.go:973-996 | an entry is a leftover if and only if one of its proving reads answered neither 404 nor 410 |
| Cleanup.NothingIsLeftExactlyWhenOnlyLaterObjectsDepend | internal/cli/corpus_cloud.go:964-996 | at a cloud that refuses to delete what something depends on, the backwards walk leaves nothing if and only if each entry's URL reaches its object, every dependant of a ledger object was created after it, and each proving read comes back; then the account is what it was less the ledger |
| Cleanup.TheWalkIsASession | internal/cli/corpus_cloud.go:964-996 | that walk is the clean-up half of a session in the sense above |
| Cleanup.SessionEndsAsItBeganExactlyWhen | internal/cli/corpus_cloud.go:797-996 | from the run itself: at a cloud that mints fresh identifiers in order, when nothing that was there is named, the walk proves everything gone and the account ends as it began if and only if the run added nothing but what its ledger holds and each of its URLs reaches its object |
| CloudGrading.FindObstacle | internal/cli/corpus_cloud.go:530-567 | which of the three reasons, if any, keeps an exchange from being reissued, in their order of precedence |
| CloudGrading.ObstacleMeans | internal/cli/corpus_cloud.go:530-567 | each reason by the texts themselves: a segment that begins with `redacted-`, a pair that gives its key a value that does, `REDACTED` in the path or the query or a body text that is that word alone or numbered in hexadecimal; the first of these is the reason given |
| CloudGrading.SplitReplayable | internal/cli/corpus_cloud.go:506-527 | every exchange goes to one of the two lists, each in file order; a refused one carries its line number and its reason |
| CloudGrading.PositionsPartitionTheFile | internal/cli/corpus_cloud.go:506-527 | the positions of the two lists are ascending, disjoint and together the whole file |
| CloudGrading.NumberingsAgreeUntilTheFirstRefusal | internal/cli/corpus_cloud.go:506-527 | the two numberings are different things: a replayed finding's number is its line in the file if and only if no exchange up to it was refused |
| CloudGrading.Report.AddRefusedByShape | internal/cli/corpus_cloud.go:219-229 | each exchange refused by shape adds one instrument line with its number and reason, in order, and the counters still balance |
| CloudGrading.Report.Grade | internal/cli/corpus_cloud.go:623-675 | the published lines are the old ones and those of the results, stably sorted; findings equal moved plus instrument plus unmeasured; compared and unserved count their lanes |
| CloudGrading.LinesMean | internal/cli/corpus_cloud.go:634-672 | for every result: which lines it adds and in which lane it is counted, with the caller's statuses 401, 403, 429 and 500 or more against a recorded success told apart from all others |
| CloudGrading.DifferencesInOrder | internal/cli/corpus_cloud.go:652-669 | the lines of a divergence follow its findings, one for each whose type was not erased |
| CloudGrading.InLaneCounts | internal/cli/corpus_cloud.go:623-675 | each counter is the number of results in its lane |
| CloudGrading.LanesPartitionTheRun | internal/cli/corpus_cloud.go:623-675 | every result falls in exactly one of unserved, unmeasured, skipped and compared |
| CloudGrading.MovedExactlyWhen | internal/cli/corpus_cloud.go:640-672 | a difference is published as moved if and only if the result diverges, its request carried nothing invented, the answer is not about the caller, and the recorded type was not erased |
| CloudGrading.CallerAnswersAreNeverMoved | internal/cli/corpus_cloud.go:677-694 | a recorded success answered 401, 403, 429 or 5xx is one unmeasured line and nothing else |
| CloudGrading.MovedMeansNothingInvented | internal/cli/corpus_cloud.go:623-672 | across guard and report: a line saying moved is about a request in which the guard saw no invented value |
| CloudGrading.PublishedInOrder | internal/cli/corpus_cloud.go:673-675 | the lines come out by number, and those of one number in the order they were written |
| CloudGrading.ExitCode | internal/cli/corpus_cloud.go:264-326 | from the report's own lines and the walk's own leftovers: exit 0 exactly when the run completed with no line saying moved or unmeasured and nothing left over; the drift code exactly when a line says moved and nothing else went wrong; a leftover has the last word |
| CloudReplay.ShownAreNumbered | internal/replay/replay.go:320-321 | in every run of a recording that numbers its requests, those the guard was shown carry numbers of exchanges already taken up, strictly ascending |
| CloudReplay.Collect | internal/replay/replay.go:368-468 | the results of a completed run are, exchange by exchange, those of what the guard had been shown before it: skipped, unserved, refused with its reason, or matched or divergent by what the comparison found |
| CloudReplay.FatesMean | internal/replay/replay.go:368-418 | what becomes of an exchange: not replayed exactly without a recorded answer, else ending the run exactly when its path cannot be sent, else unserved exactly when no route takes it, else let out exactly when the guard allows the request under its line's number and verb |
| CloudReplay.LinesOfAFate | internal/cli/corpus_cloud.go:634-672 | and what the report says of it, for every fate, answer and comparison: the lines are exactly those written out there |
| CloudReplay.PublishedMovesAre | internal/cli/corpus_cloud.go:623-675 | over a whole run: a line says moved if and only if it is a difference found in the answer to a reissuable exchange that was let out with nothing invented in its request and not answered about the caller |
| CloudReplay.NoMoveOverAnInventedSegment | internal/cli/corpus_cloud.go:882-906 | in particular no line says moved of a request whose path holds an invented segment |
| CloudReplay.ReplayAtCloud | internal/cli/corpus_cloud.go:215-326 | split, run under the guard, grading and destruction composed: what is replayed is what the split kept, each attempt under its number; the published lines are those refused by shape and those of the results, the lines that say moved are exactly those above, the leftovers are the ledger's unproved entries however the run ended, and the code is the above |
| Evidence.UnknownVerdict | internal/cli/evidence.go:363-378 | names the first verdict outside its vocabulary, none exactly when all three are inside |
| Evidence.JoinEvidence | internal/cli/evidence.go:385-428 | the joined record holds both legs' runtimes once each in order, and of each operation of either leg the stronger word on every verdict and either leg's yes elsewhere, written out in the words |
| Evidence.JoinMeans | internal/cli/evidence.go:380-455 | the join in words: `response` if a leg has it, else `refusal` if one has; `violating` if a leg has it, else `clean`; `observed` if a leg has it, else `unobserved`; any other word is the first leg's; a boolean is either leg's yes; an operation of one leg is that leg's |
| Evidence.JoinCommutesExactlyWhenRanksTell | internal/cli/evidence.go:430-455 | on all rows there are, joining commutes if and only if no two verdicts tie in rank while differing |
| Evidence.JoinCommutes | internal/cli/evidence.go:380-455 | so it commutes on every pair of records the reader accepts |
| Evidence.LegsJoinInEitherOrderExactlyWhen | internal/cli/evidence.go:380-428 | on accepted records the two orders of the legs give one record if and only if they were made from the same inputs: the runtimes carry no trace of the map they came out of |
| Evidence.JoinDoesNotCommuteOnAMissingVerdict | internal/cli/evidence.go:433-438 | a concrete pair outside the vocabulary for which the legs' order shows |
| Evidence.JoinAssociates | internal/cli/evidence.go:385-455 | joining is associative and idempotent on any records |
| Evidence.JoinKeepsTheVocabulary | internal/cli/evidence.go:385-455 | joining two accepted records gives one the reader accepts |
| Evidence.JoinEarns | internal/cli/evidence.go:380-455 | an axis of the join is earned exactly when a leg earned it, except `contract`, which also asks that neither leg violate it |
| Evidence.AxesLost | internal/cli/evidence.go:118-140 | the report names an axis exactly when it lost something, with those operations once each in order, and is empty without a record on disk |
| Evidence.JoinLosesOnlyContract | internal/cli/evidence.go:118-140 | joining a leg demotes no axis but `contract`, and there exactly the operations clean in one leg and violating in the other |
| Evidence.RuntimesLost | internal/cli/evidence.go:60-96 | the runtimes no longer reached, sorted, as often as they were named |
| Evidence.UnreachedMeans | internal/cli/evidence.go:60-96 | each runtime as often as the old record names it when the new one does not, and `none` never |
| Evidence.JoinLosesNoRuntime | internal/cli/evidence.go:385-428 | a joined record loses no runtime of either leg |
| Evidence.Reshape | internal/cli/evidence.go:481-560 | each refusal, in order, exactly: no directory, no record, no provenance, contracts or suites that moved and which, catalogues that cannot be read, none there; otherwise only the shape column and the shape digest change, and both counts are of that column |
| Evidence.ReshapedMeans | internal/cli/evidence.go:520-560 | the rewritten rows: every operation kept, its shape `observed` exactly when the catalogue covers it and `unobserved` otherwise, and nothing else of it written |
| Evidence.ReshapeMovesOnlyShape | internal/cli/evidence.go:458-480 | the rewrite demotes on `shape` alone exactly what is no longer covered, raises exactly what now is, and doing it twice is doing it once |
| Baseline.Capture | internal/cli/evidence_baseline.go:171-254 | refused without a runtime; otherwise pins exactly the proving values on the wanted axes, and no operation with none |
| Baseline.CapturedMeans | internal/cli/evidence_baseline.go:205-254 | operation by operation and axis by axis: pinned exactly when asked for and proving something, with the value the record holds |
| Baseline.ValuesArePrinted | internal/cli/evidence_baseline.go:120-168 | values are compared as they print, and a verdict proves something unless it prints as nothing or as one of the four words for nothing |
| Baseline.SatisfiesMeans | internal/cli/evidence_baseline.go:136-168 | when a level is delivered: on the probe's axis by the same word, or by either of `response` and `refusal` for the other; on any other axis by a value that prints alike |
| Baseline.Verify | internal/cli/evidence_baseline.go:262-354 | each fall once, by operation and then by axis; refused exactly when a withdrawal's reason holds nothing but white space; regressions are the pinned levels no longer delivered less the accepted ones, withdrawals those accepted; each says what was pinned and what is there now |
| Baseline.PinnedIsEarnedOrViolating | internal/cli/evidence_baseline.go:120-130 | on accepted rows a value is pinned exactly when its axis is earned, or it is a violated contract |
| Baseline.FallsAreTheDemotions | internal/cli/evidence_baseline.go:152-168 | what falls against a captured baseline is exactly what the demotion report names on the pinned axes, and pinned violations that are gone |
| Baseline.GateAgreesWithTheDemotionReport | internal/cli/evidence_baseline.go:262-354 | the gate without withdrawals and the demotion report agree on every record that can come next if and only if no contract that was pinned is a violated one |
| Baseline.FixingAPinnedViolationIsAFall | internal/cli/evidence_baseline.go:111-168 | the disagreement, for every record: any pinned violation put right fails the gate while nothing is demoted |
| Baseline.BaselineHoldsAgainstItsSource | internal/cli/evidence_baseline.go:171-354 | a baseline verifies against the record it was captured from, whatever that record holds |
| Baseline.JoiningALegFallsOnlyOnContract | internal/cli/evidence_baseline.go:262-354 | against its record joined with another leg, a baseline falls exactly where that leg violates a contract this one had clean |
| Baseline.ReshapeFallsOnlyOnShape | internal/cli/evidence_baseline.go:262-354 | against its record reshaped, a baseline falls exactly on observed operations no longer covered |
| Tally.PercentIsWithinHalfAPoint | internal/cli/evidence_axes.go:263-268 | the printed percentage is within half a point of the true ratio, upwards exactly between two points, never above one hundred, and zero of nothing |
| Tally.OperationOwners | internal/cli/evidence_axes.go:281-306 | refused exactly when two packs of different names claim one operation; otherwise each declared operation is filed under the name that declares it, no other is, and the names come out sorted |
| Tally.ContestedMeans | internal/cli/evidence_axes.go:281-306 | contested: an operation that is not the empty name, in the lists of two packs of different names |
| Tally.FiledMeans | internal/cli/evidence_axes.go:281-306 | an operation is filed under a name exactly when it is not empty and a pack of that name lists it |
| Tally.TallyOne | internal/cli/evidence_axes.go:383-411 | over any list, an operation the record does not hold counting as an empty row, a row counts, axis by axis, what is earned and what is missed, and sorts the misses of the named axis; over a list of the record's operations without repetitions that is the population's count, each miss once |
| Tally.RowOfMeans | internal/cli/evidence_axes.go:383-411 | an operation the record does not hold has earned no axis and its verdicts are empty; the three verdict axes carry the record's word and the others none |
| Tally.TallyEvidence | internal/cli/evidence_axes.go:314-380 | refused exactly for an unknown provider, or when an operation belongs to no pack, listing those; otherwise one row per provider asked for, and a total that sums all providers listed |
| Tally.RowsAddUpToTheTotal | internal/cli/evidence_axes.go:314-411 | earned plus missing is served in every row, and served, earned and missing of all rows sum to the total's |
| Tally.TheTotalIsTheRecord | internal/cli/evidence_axes.go:344-380 | with no pack listed twice and every owner listed, populations are disjoint and the total counts every operation of the record once |
| Gaps.ReasonsExplainOnlyWhatTheyAreAbout | internal/cli/evidence_gaps.go:150-208 | a reason is printed exactly when the kind is declared; an undriven reason only on a client-earned axis of an undriven operation; the unexplained kind only on a driven operation's client-earned axis |
| Gaps.DefectsAreViolatedContracts | internal/cli/evidence_gaps.go:177-208 | on accepted rows a zero is a defect exactly when it is a violated contract |
| Gaps.EachKindSaysWhatIsMissing | internal/cli/evidence_gaps.go:31-95 | each kind holds exactly of the zeros its declaration describes: unvalidated of `probed: none` and `contract: unchecked`, unrecorded of a shape never observed, undriven of a client axis nothing drives and nothing explains, unproven of one a client drove |
| Gaps.EntriesSayWhatIsMissing | internal/cli/evidence_gaps.go:124-208 | the words an entry carries, from the axis, the row and the routes' declarations: each of the six exactly when its declaration says so, and a reason with `declared` alone, taken from the route or from its axis |
| Gaps.RanksAre | internal/cli/evidence_gaps.go:124-131 | the six words in the order the queue is read, `violating` first and `declared` last, any other word after them |
| Gaps.KindRank | internal/cli/evidence_gaps.go:333-340 | the rank of a name is its kind's place, last for no kind, whatever order the map is walked in |
| Gaps.Group | internal/cli/evidence_gaps.go:270-318 | the group of a provider and an axis holds each of its zeros once, classified, by kind then name |
| Gaps.GroupIsUnique | internal/cli/evidence_gaps.go:270-318 | there is one such group: the order the record was walked in does not show |
| Gaps.BuildGaps | internal/cli/evidence_gaps.go:248-327 | the groups are those of the provider and axis pairs asked for that miss something, and no other |
| Gaps.PairsAreTheMissing | internal/cli/evidence_gaps.go:270-318 | a pair is among them exactly when its provider and axis were asked for and miss an operation |
| Gaps.PairsComeInOrder | internal/cli/evidence_gaps.go:270-318 | they come out by provider and then by axis, in the order asked |
| Gaps.ScoreAndQueueAgree | internal/cli/evidence_gaps.go:248-327 | across tally and queue, narrowed to a provider or an axis or not: a group exists exactly when both were asked for and the row misses something, holds as many entries as the row misses, and the same operations and verdicts as the row's own queue |
| CorpusGate.AcceptedBy | internal/cli/corpus.go:588-595 | the entry returned is the first with the item's file, operation and kind and a path with as many segments, each a star or the item's own; none exactly when there is no such entry |
| CorpusGate.MatchesMeans | internal/cli/corpus.go:588-595 | the same of the predicate the counting is proved against |
| CorpusGate.ReportCorpusFile | internal/cli/corpus.go:547-585 | the use counts move in place by what each entry is charged, excused plus unaccepted grows by the gradable findings, and the unaccepted are returned |
| CorpusGate.ReplayAll | internal/cli/corpus.go:322-344 | over all files, until one measures nothing: every entry's use count is its charges and the divergent count what nothing excuses |
| CorpusGate.CheckRecordings | internal/cli/corpus.go:509-539 | sound exactly when every file has an entry, every entry a file, and every entry a readable date |
| CorpusGate.CheckCorpus | internal/cli/corpus.go:262-455 | the error code if and only if the list or the directory could not be read, a guard fails, or an entry went unused; otherwise exit 0 when every graded finding has an entry about it and the drift code when one has none |
| CorpusGate.GateMeans | internal/cli/corpus.go:262-455 | those three in the fields read: what each guard asks for, an entry that is idle because whatever it is about has an entry before it, and a finding no entry is about |
| CorpusGate.NothingIsLost | internal/cli/corpus.go:547-595 | the charges of all entries plus the unaccepted are the gradable findings: each finding is charged once or reported |
| CorpusGate.OrderDoesNotChangeTheVerdict | internal/cli/corpus.go:588-595 | how much goes unaccepted depends on which entries there are, not on their order or repetition |
| CorpusGate.StaleExactlyWhenShadowed | internal/cli/corpus.go:434-448 | an entry is stale if and only if everything it matches is matched by an earlier entry |
| CorpusGate.ADuplicateIsAlwaysStale | internal/cli/corpus.go:434-448 | a list holding one entry twice never passes |
| CorpusGate.OrderDecidesStaleness | internal/cli/corpus.go:434-448 | unlike the verdict on findings, staleness does depend on the order: two entries stale one way round and not the other |
| CorpusGate.NoOrderIsStaleExactlyWhen | internal/cli/corpus.go:434-448 | no order of a list has a stale entry if and only if each entry matches a finding that no other entry matches |
| Wrapping.WrapAt | internal/cli/docs_stacks.go:287-316 | the string builder's text is the greedy placement of the words, rendered |
| Wrapping.TheTextIsItsLines | internal/cli/docs_stacks.go:287-316 | cut at its newlines the text is the lines placed, each behind its prefix with one space between its words, and as wide as the placement counts it |
| Wrapping.GreedyIsBest | internal/cli/docs_stacks.go:287-316 | for every text, code spans and over-wide words included: no wrapping of the same words that breaks only outside code, and is too wide only on lines that are one unbreakable stretch, has fewer lines, nor as few with a shorter last line |
| WrappingRuns.TheOutputFitsExactlyWhen | internal/cli/docs_stacks.go:267-316 | when every line of the output is within the column: if and only if each unbreakable stretch of words fits alone and placing whole stretches greedily gives the same lines |
| WrappingRuns.LooseExactlyWhen | internal/cli/docs_stacks.go:287-316 | the output is too wide only on lines that are one unbreakable stretch if and only if placing whole stretches greedily gives the same lines |
| WrappingRuns.AWrappingFitsExactlyWhen | internal/cli/docs_stacks.go:267-275 | some wrapping that breaks only outside code is within the column if and only if each unbreakable stretch fits alone |
| WrappingRuns.PlainOutputFitsExactlyWhen | internal/cli/docs_stacks.go:287-316 | without code spans the output is too wide only on lines of a single word, and within the column if and only if each word fits |
| WrappingRuns.FewestLines | internal/cli/docs_stacks.go:267-316 | so no generated paragraph or bullet has more lines than any wrapping that keeps its spans whole and is within the column wherever it can be; the output keeps them whole too, and is itself within the column wherever it can be if and only if placing whole stretches gives the same lines, always when it has no code |
| WrappingRuns.ASpanBegunLateOverruns | internal/cli/docs_stacks.go:287-316 | the price of choosing word by word, for any such three words: a span begun at the end of a line runs past the column although breaking before it would have fitted |
| WrappingRuns.AParagraphOverruns | internal/cli/docs_stacks.go:283 | a text whose paragraph overruns in this way: seventy letters and a span of two words |
| Wrapping.WrapParagraph | internal/cli/docs_stacks.go:283 | the word sequence survives, for every text |
| Wrapping.WrapBullet | internal/cli/docs_stacks.go:276 | the words survive behind one dash, for every text |
| Wrapping.WrappingIsIdempotent | internal/cli/docs_stacks.go:278-283 | wrapping a wrapped paragraph changes no byte |
| Wrapping.CodeSpansAreNeverBroken | internal/cli/docs_stacks.go:267-316 | for every text, no line break is written while the backticks so far are odd |
| Splicing.SpliceReplacesOneBody | internal/cli/docs.go:936-955 | in a document of disjoint regions a splice replaces its own body and no other byte, and every marker is still first found where it belongs |
| Splicing.SpliceMeans | internal/cli/docs.go:936-955 | every outcome for every document: refused without a marker, or with the first end marker before the first start marker, and otherwise the text through the start marker, a newline, the section, and the text from the end marker on |
| Splicing.SpliceAllGenerates | internal/cli/docs.go:936-955 | splicing any list of regions, in any order, with repetition, gives the document with those bodies generated and everything kept kept |
| Splicing.OrderDoesNotMatter | internal/cli/docs.go:936-955 | two lists naming the same regions give the same document |
| Splicing.RegenerationReachesAFixpoint | internal/cli/docs.go:936-955 | splicing again anything already spliced is the identity, so a later check is clean |
| Splicing.EveryDocumentIsWoven | internal/cli/docs.go:936-955 | the results hold of every document whose regions do not overlap |
| Splicing.Regenerate | internal/cli/docs.go:454-581 | the file written first from its copy and then by each helper that re-reads it ends with every one of those sections generated |
| Splicing.TheLastWriterWins | internal/cli/docs.go:454-471 | writing the copy last would give the same document if and only if the helper's section was already up to date |
| SplicingMarkers.SplicingTwice | internal/cli/docs.go:936-955 | for every document with its markers in order and every section: the second splice succeeds, is the identity if and only if the end marker is first met at the section's end, and otherwise the document grows by what the section has from there on |
| SplicingMarkers.ASectionHoldingItsMarkerGrows | internal/cli/docs.go:936-955 | written any number of times, a section that ends its last line settles at once when it does not hold its end marker, and otherwise grows by the same amount each time |
| SplicingMarkers.APromiseQuotingItsMarker | internal/cli/docs.go:936-955 | the README's promise quoting `<!-- promise:end -->` grows by that line at every write |
| SplicingMarkers.AnotherRegionIsFoundExactlyWhen | internal/cli/docs.go:936-955 | after any section that ends its last line is written, a region further up is found where it was, and one further down where it has moved to if and only if the section holds neither of its markers |
| SplicingMarkers.SplicingAnotherRegion | internal/cli/docs.go:936-955 | what the next splice of a region further down comes to, in every case: its own body replaced, an error exactly when the section holds its end marker and not its start marker before that, or a stretch that begins inside the section |
| SplicingMarkers.APromiseQuotingTheQuickstart | internal/cli/docs.go:936-955 | the README's promise quoting `<!-- quickstart:start -->`: the next write of the quickstart succeeds and takes the promise's end marker with it, and every later write of the promise fails |
| CapabilityClaims.CapabilityUnits | internal/cli/capability_claims.go:99-167 | the units are those of the block's spans, in order, and for every block, fence markers aside, they hold its words, each whole and in order |
| CapabilityClaims.CutSentences | internal/cli/capability_claims.go:113-121 | the cut the loop makes is the sentences of the text |
| CapabilityClaims.StopMeans | internal/cli/capability_claims.go:75-78 | a sentence ends at a full stop, an exclamation or a question mark with a white byte or nothing behind it |
| CapabilityClaims.SpansAreTheBlock | internal/cli/capability_claims.go:99-167 | the spans hold the block's content line for line in order; no span mixes two table rows or two list items, prose and fence never mix, and each fence is one span |
| CapabilityClaims.EachLineAdds | internal/cli/capability_claims.go:121-167 | line after line, what makes the spans: a plain line goes on with the prose before it, a fenced one with its fence, a marker closes it, a row or an item begins its own, and the others add nothing |
| CapabilityClaims.LinesMean | internal/cli/capability_claims.go:121-122 | the lines are what stands between the newlines of the block, each of the kind it looks like once trimmed |
| CapabilityClaims.KindMeans | internal/cli/capability_claims.go:76-158 | how a line is taken: by three backticks, a bar, nothing at all, or a dash, star, plus or number with a dot and a white byte behind it |
| CapabilityClaims.RowsAndFencesAreWhole | internal/cli/capability_claims.go:124-149 | a row is one unit without the white bytes around it, and a fence one unit, line for line |
| CapabilityClaims.UnitsKeepTheWords | internal/cli/capability_claims.go:99-167 | of any lines whose blank ones hold only white space: fence markers aside the units hold the words of the lines, each whole and in order, the last fence closed or not |
| CapabilityClaims.BlockBlanksAreWhite | internal/cli/capability_claims.go:124-143 | a line the reader drops as blank holds only white space, so the above is about every block |
| CapabilityClaims.NoSentenceHoldsTwo | internal/cli/capability_claims.go:105-122 | each unit of a paragraph is a stretch of it with one sentence end at most, at its own end |
| CapabilityClaims.CapabilityPairsIn | internal/cli/capability_claims.go:170-194 | a client and a provider are a pair of a unit exactly when both are whole words of it, letter case aside |
| CapabilityClaims.LowerMeans | internal/cli/capability_claims.go:69-74 | which bytes a word is made of once the letters are lower-cased, by their codes |
| CapabilityClaims.WordMeans | internal/cli/capability_claims.go:69-74 | a word of a text stands in it between bytes that belong to none, or at its ends, so `exo` is not one of `exoscale` |
| CapabilityClaims.UnownedClaims | internal/cli/capability_claims.go:217-236 | of one block: a problem is reported exactly when one unit names both words and the matrix has no row for them, or refuses them while the unit does not carry the row's marker |
| CapabilityPages.BlocksAreTheBlocks | internal/cli/capability_claims.go:64-96 | the blocks found on any page are the leftmost ones, each with the shortest body, one after the other, and nothing else matches after the last |
| CapabilityPages.TheBlocksAreUnique | internal/cli/capability_claims.go:64-96 | and no other list of blocks is that |
| CapabilityPages.BlockMeans | internal/cli/capability_claims.go:64-96 | a block, its name and its body as they are written: two comments of small letters with `start` and `end`, and what stands between them |
| CapabilityPages.UnownedPageClaims | internal/cli/capability_claims.go:204-239 | a page that is not there gives no problem, one that cannot be read gives one, and any other gives exactly the problems of its blocks under their names |
| ProviderBlocks.Block | internal/cli/docs_proved.go:169-188 | the scan returns the span of the reference definition: text between the first brace and its match, and where to go on |
| ProviderBlocks.BlockIsTheShortestBalancedSpan | internal/cli/docs_proved.go:167-188 | that text balances, its closing brace is there, no shorter or longer prefix closes, and only an unmatched brace gives the rest of the file up |
| ProviderBlocks.BalancedMeans | internal/cli/docs_proved.go:167-188 | balanced: as many braces closed as opened, and never more closed than opened on the way |
| ProviderBlocks.RequiredProviders | internal/cli/docs_proved.go:209-238 | the two nested loops terminate and return the entries of every block, in order |
| ProviderBlocks.FindLineMeans | internal/cli/docs_proved.go:190-193 | a search over lines finds the first place that starts one, the place it begins counting, at which the pattern holds behind white space |
| ProviderBlocks.HeadMeans | internal/cli/docs_proved.go:193-193 | the head of an entry: a name, an equals sign and an opening brace, white space between them |
| ProviderBlocks.AttributeMeans | internal/cli/docs_proved.go:191-192 | an attribute: its key, an equals sign and a quoted value that is not empty and holds no quote |
| ProviderBlocks.BlocksAreDisjointAndInOrder | internal/cli/docs_proved.go:209-238 | each block found lies between the end of the one before it and its own end |
| ProviderBlocks.MarkedBlocksAreCut | internal/cli/docs_proved.go:211-218 | a search for the marker finds a block inside what is left and leaves less, whatever the text |
| ProviderBlocks.EntriesAreCut | internal/cli/docs_proved.go:219-226 | so does a search for an entry |
| ProviderRoundTrip.ReadingAPrintedFile | internal/cli/docs_proved.go:190-238 | for every layout of every list of blocks, white space, commas and text between them free: what is read is, block by block, the entries that start a line, each with the first source and the first version that start one |
| ProviderRoundTrip.ReadingUndoesPrinting | internal/cli/docs_proved.go:190-238 | with entries and attributes on lines of their own, every entry of every block that declares a source is read back in order with the version it declares |
| ProviderRoundTrip.TerraformRoundTrip | internal/cli/docs_proved.go:209-238 | the first of these for the marker Terraform files have and any surrounding text that does not hold it |
| ProviderRoundTrip.EveryEntryIsSeenExactlyWhen | internal/cli/docs_proved.go:193-223 | no entry of a block is lost if and only if each starts a line, the end of the one before it counting as one |
| ProviderRoundTrip.AKeyIsSeenExactlyWhen | internal/cli/docs_proved.go:191-192 | an entry gives a source or a version if and only if such an attribute that is not empty starts a line, the brace counting as one for the first only |
| ProviderRoundTrip.AnEntryOnOneLineLosesItsVersion | internal/cli/docs_proved.go:191-192 | an entry on one line gives its source and loses its version |
| ProviderRoundTrip.ACommaHidesTheNextEntry | internal/cli/docs_proved.go:219-225 | a second entry on the same line is read after white space and lost after a comma |
| Routes.MatchPattern | internal/cli/evidence.go:684-700 | a pattern matches exactly when it has as many segments and each is a wildcard or equal; the count is of its wildcards, zero on no match |
| Routes.WildcardMeans | internal/cli/evidence.go:684-700 | a segment is a wildcard exactly when it is something in braces |
| Routes.SegmentsMean | internal/cli/evidence.go:684-700 | the segments of a path: slashes at its ends aside, what stands between the others, empty pieces inside kept |
| Routes.OperationForCall | internal/cli/evidence.go:649-670 | an error, carrying their number, exactly when two or more routes tie for the fewest wildcards; otherwise the operation of the one that has the fewest, and the empty name when nothing takes the call |
| Routes.EmptyNameExactlyWhen | internal/cli/evidence.go:649-670 | the empty name is the answer if and only if nothing takes the call or the one route that has the fewest wildcards names no operation |
| Routes.AnswerIsUnique | internal/cli/evidence.go:645-670 | any two orders of the same routes give the same answer |
| Routes.SpecificityIsTheCount | internal/cli/evidence.go:645-670 | a pattern whose paths are among another's has no more wildcards, and as many only when they take the same paths: the count is the mux's specificity |
| Routes.NothingMoreSpecificIsPassedOver | internal/cli/evidence.go:645-670 | no route that takes the call is strictly inside the one that answers, and an equal one makes the answer an error |
| Folding.FoldSmallGroups | internal/cli/docs.go:868-896 | the rows are the groups at or above 2% and a lone small one, in order; all four column sums are kept; never exactly one group is folded |
| Folding.BlockMeans | internal/cli/docs.go:852-867 | the floor as a ratio of reals: a group is a block exactly at two parts in a hundred of the total or more |
| Folding.ABlockIsNeverFolded | internal/cli/docs.go:852-867 | a group at or above the floor has its row, and a folded one is below it and in company |
| Folding.AtMostFiftyRows | internal/cli/docs.go:852-896 | when a positive total is the sum of positive groups, at most fifty rows are named |
| Folding.OneFold | internal/cli/docs.go:863-896 | for groups told apart by name, rows, order, residual and number folded do not depend on the order they came in |
| Quoting.BashRoundTrip | internal/cli/env.go:228-237 | for every value a POSIX reader of the printed line assigns exactly that value, a value holding a NUL excepted |
| Quoting.FishRoundTripExactlyWhen | internal/cli/env.go:238-243 | a fish reader assigns exactly the value if and only if it holds no NUL and no backslash before a backslash, before a quote or at its end |
| Quoting.FishLosesABackslash | internal/cli/env.go:238-243 | two values bash reads back and fish does not |
| Quoting.AssignedMeans | internal/cli/env.go:228-243 | what a line assigns is told by its words: `export` and the assignment for a POSIX shell, `set`, `-gx`, the key and the value for fish |
| Quoting.EscapedTextReads | internal/cli/env.go:228-243 | the reader outside quotes: a text escaped byte by byte comes back exactly when it holds no NUL and, to fish, no letter or digit |

## Left out

- Network, files, clocks, processes and the terminal: HTTP clients and transports, reading and writing files, `serve`, flags, JSON encoding and every message's wording. What they bring in is a parameter.
- The replay engine's own comparison and rebinding: any functions of the exchanges, of their place and of what was sent and answered before; the loop that builds, asks the guard, sends, hands the answer over and makes the result is modelled.
- The recognisers behind `Shapes`: `IsMintedIdentifier` and `Minted` are any two predicates, the first one subject to `SaneShapes` where a theorem says so.
- Unicode: strings are bytes written as `char`, white space and letter case are the ASCII ones, and words are runs of ASCII letters and digits.
- Integer width: Go's `int` is unbounded here.
- AccountGuard.Guard.Destroy: leftovers are the ledger entries; the line printed for each, and a request that cannot even be built, are not modelled (the latter is a read that never came back).
- AccountSessions.SessionLeavesTheAccountAlone: asks that the endpoint change only what the path it receives names, creating being adding; a provider that deletes by a query, a body or a cascade is outside it. Of the changes that were sent it asks that their paths be in sight, which is what the code needs; the runs that show it are in the list above.
- Wire.ReceivedWithMore: a path stands behind the endpoint's own address; one that does not begin with a slash, which would change the host, is read as any other, and redirects the server answers with are not followed.
- AccountSafety.Replay: what goes out comes from any function of what was sent and answered so far; a request is unbuildable for its path alone, and one whose body cannot be encoded ends the run as one that is never answered does.
- Cleanup.SessionEndsAsItBeganExactlyWhen: who depends on whom does not change over time, the account is keyed by identifier, and a read whose URL does not reach its object is answered for the collection, which is there.
- `renameForThisRun`, `markCorpusStale`, `checkCloudEndpoint`, credentials and the report's rendering: no state the safety or the grading depends on.
- CloudReplay.ReplayAtCloud: starts with the exchanges in hand; the refusals before that (unreadable files, an unusable endpoint, an empty credential) all return the error code, and so does a failure to print the report.
- CorpusGate.CheckCorpus: what reading the files, building the packs and replaying come to is given; whether a reason carries a decision is `reasoned`, and the packs' declared invariants are their numbers by kind.
- Evidence.RuntimesLost: on two records already read; a file that is missing loses nothing, and one that cannot be read is an error the model does not reach.
- Baseline.Verify: on documents already read; axis names are parsed, and a value in a baseline is a boolean or a verdict word.
- ProviderBlocks.RequiredProviders: takes the text after `stripHCLComments`, which is not part of this model; a brace inside a string counts as a brace, as it does in the code.
- ProviderRoundTrip.ReadingAPrintedFile: an entry holds attributes with quoted values and nothing nested; values hold no quote, brace or newline, and no newline stands around an equals sign, which is what the language allows there.
- WrappingRuns.TheOutputFitsExactlyWhen: asks that the indent be no longer than what the first line begins with, as it is for both callers, and so do `AWrappingFitsExactlyWhen` and `PlainOutputFitsExactlyWhen`.
- Tally.TallyEvidence: an axis is one of the seven; the refusal of an unknown axis name is left to the reader of the flag.
- Evidence.Reshape: ends with the record to write; a write that fails is not modelled.
- Quoting.BashRoundTrip: asks that the key be a shell name, which is what a pack hands over; the key is printed unquoted.
- Quoting.FishRoundTripExactlyWhen: asks the same of the key.
- Left unmodelled beside it: the PowerShell renderer, which escapes double quotes only, and the escapes of fish outside quotes that stand for control characters; the reader refuses what is not a plain or single-quoted word.
- The figures check (`blankOut`, `lineOf`, `axisFiguresIn`), the set-equality gates and the ageing warnings: they would add only easy members.
