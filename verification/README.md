# Verified models of the evidence machinery

The repository's small crates exist so that what a provider built can be checked again later by someone who
trusts nothing: candidates are written to an immutable store, real gates run on them, failures are repaired, the
chain of attempts is finalised and then verified independently; records of all that go through a strict JSON
format into ledgers under a file lease, into a graph memory, and across a message bus. This project models that
machinery in Dafny and proves what it is for.

- **Candidate verification** (`VerificationModel`, `VerificationStore`, `VerificationManifests`,
  `VerificationChain`, `VerificationTamper`, `VerificationReadings`, `VerificationRunner`, `VerificationBuilding`,
  `VerificationAgreement`, `VerificationFrames`, `VerificationClosing`, `VerificationInstances`, `VerificationRules`,
  `CandidateSteps`, `CandidateLoop`). The disk is a map from path texts to file texts; the hash is any function that
  yields tags; gates, provider answers and the clock are arbitrary sequences. The writer (`runner.rs`) and the checker
  (`store.rs`) are modelled separately and proved to agree; the loop of `provider_verification.rs` is proved over whole
  runs, fresh, resumed and repeated.
- **Strict JSON** (`JsonGrammar`, `JsonReading`, `JsonParser`, `JsonCompleteness`, `JsonSoundness`, `JsonPlain`,
  `JsonPrinter`, `JsonRecords`, `RecordFields`). The grammar is a declarative one, of trees with a spelling and a
  meaning, independent of the parser; the parser with its mutable position is proved to accept exactly it.
- **Learning records and ledgers** (`Learning`, `LearningRules`, `LearningRoundTrip`, `Lease`, `Ledger`, `Memory`).
  Round trips for all five schemas; the Unix lease as a protocol of any number of crashing processes; appenders and
  readers interleaved on top of it; and the effective memory, batch and incremental.
- **Graph** (`Graph`, `GraphLinks`, `GraphSearch`). The memory in the graph against the batch definition, and the
  depth-bounded search against the existence of a path.
- **Bus and runtime** (`Bus`, `BusInvariants`, `BusRecords`, `Runtime`, `RuntimeRuns`, `RuntimeClaims`,
  `RuntimeSends`, `RuntimeMachine`, `RuntimeMemory`). Threads, intersections and routes of the fabric, a status machine
  over it, and the graph it teaches, over whole runs of operations and over restarts.
- **Hash, redaction, compaction** (`Sha256`, `Sha256Standard`, `Utf8`, `Secrets`, `SecretTexts`, `Compaction`,
  `CompactionByRank`). Loops over arrays and spans against recursive definitions; redaction over the UTF-8 bytes of a
  text.

`Text` holds character classes and decimal text, and `TextTables` the classes as tables.
`dafny verify dfyconfig.toml` checks everything.

## How to read it

Objects whose methods change fields are classes; what a method does is tied to a function of the old state, and the
laws are lemmas about those functions. Pure code is functions. Where a fact about a large definition is not needed,
a proof hides the definition.

Definitions that a method, its specification and its laws share are pinned down a second time, in terms of their own:
tables and limits as literals, acceptance as an exact list of raw fields, texts by how they read. `VerificationTamper`,
`VerificationRules`, `VerificationBuilding`, `RecordFields`, `JsonPlain`, `LearningRules`, `GraphLinks`, `BusRecords`,
`RuntimeClaims`, `RuntimeSends`, `SecretTexts`, `TextTables`, `Sha256Standard` and `CompactionByRank` are about that.

Some points on which the model takes a stand:

- Texts are sequences of Unicode scalar values. Byte lengths are computed from them, and bytes where offsets matter. A
  parse error carries the byte length of what was consumed.
- Paths are canonical texts with forward slashes; symbolic links and dot components do not occur. A directory exists
  while a file lies below it. Writing through a temporary file and renaming is one step.
- A gate leaves its logs and an exit; it does not change candidate files. That the gate texts are honest is nowhere
  assumed: where a property needs gates not to pass a JSON bundle that does not parse, it says so in its statement.
- `Grounded` is what every hash and every quoting of characters does: hashes are tags, and no character is quoted by
  more than ten bytes. `Sane` adds that the root's path has no control characters; where only that fails, the exact
  statements say what happens.
- In the lease, inodes are not reused while open, and owner tokens need not differ.
- Counters of 32 and 64 bits that would need that many operations to overflow are unbounded; lengths, times and
  counts that are read from outside keep their width.

## What turned out false

Each of these has a lemma with the failing family, beside the condition for the good case: the exact one, but for the
text of a bundle, where it is a sufficient one.

- A learning record whose id is blank once cleaned (a lone control character) is valid and is appended, and then
  makes the ledger unreadable (`LearningRoundTrip.AppendedButUnreadable`; survival is exactly
  `LearningRoundTrip.RecordSurvives`).
- The hashed text of a bundle does not determine it: a lone file's path and a missing last line end are not in it
  (`VerificationChain.OutputForgets`), and any header line inside a content, with more of the
  content above and below it and its path written with slashes, is taken for another file
  (`VerificationReadings.OutputMisreads`). A sufficient condition is that contents end their line and have no header
  line (`VerificationChain.OutputDetermines`). What is exact, for several files that end their lines: no content can be
  read as more than one file if and only if none has such a line (`VerificationReadings.OutputFinest`).
- A repair with a backslash in a path is written and then refused, and is found by the next run
  (`VerificationClosing.RefusedYetLoads`, with evidence in `VerificationInstances.RefusedInstance`; success is exactly
  `VerificationClosing.StoredExactly`).
- The runner runs whatever program `CARGO` names, but the checker accepts only one called cargo
  (`VerificationInstances.OtherCargo`; acceptance is exactly `VerificationAgreement.BuiltHolds`, and loading exactly
  `VerificationAgreement.BuiltLoads`).
- The bus accepts any parent. An envelope that is its own parent has a route without an end
  (`BusInvariants.RouteEndsExactly`), and one whose parent is issued later may close a circle
  (`BusInvariants.FutureParent`). On any bus a lookup is endless exactly if it comes to some id twice
  (`BusInvariants.EndlessExactly`), and after any run every envelope has its route exactly if every parent was none, 0
  or issued before (`BusInvariants.RunRoutes`).
- A bundle whose manifest is named Cargo.toml in another case counts as one with a manifest, and is then refused for
  the want of a file of exactly that name (`VerificationBuilding.OddManifest`; the exact condition for a bundle to
  be laid out is `VerificationBuilding.MaterializedExactly`; file names are told apart by case, as on Unix).
- `mark_provider_executed` can only ever block (`Runtime.ExecutedBlocks`), and the check of a new intent's route can
  never block (`RuntimeMachine.MathAtomsRuntime.RunIntent`).

## Model

| member | source | states |
|---|---|---|
| `CandidateLoop.ProviderLoop.CloseCandidate` | atom-rendering-engine-main/math-atoms-core/src/provider_verification.rs:21-100 | From any disk: a release is the completed chain on disk, with its text and its report; finalised evidence is never refused afterwards and the text is always that of the bundle that passed. From a fresh plan directory no repair is ever found that cannot be used, and a passing attempt is refused only if gates passed a JSON bundle that does not parse or are run by a program that is not taken for cargo. Run again after a success, with time left, it makes no request, runs no gate, changes no byte and returns the same |
| `CandidateLoop.ReleasedVerifies` | atom-rendering-engine-main/math-atoms-core/src/provider_verification.rs:43-70 | whatever a completed loop released, the independent checker accepts as n attempts and n - 1 repairs, exactly if the root's path has no control characters, and the text hashes to the reported bundle |
| `CandidateLoop.ProviderLoop.Release` | atom-rendering-engine-main/math-atoms-core/src/provider_verification.rs:42-68 | the end of the loop: the disk changes by the final manifest or not at all, and a finalisable attempt of this bundle is released with exactly its text and counts |
| `CandidateLoop.ProviderLoop.NextFiles` | atom-rendering-engine-main/math-atoms-core/src/provider_verification.rs:76-93 | the next bundle is that of the repair on disk if it is bound to the failed attempt, and otherwise that of a repair requested and stored now; a corrupt or unbound repair stops the loop and changes nothing |
| `CandidateLoop.ProviderLoop.RepairCandidate` | atom-rendering-engine-main/math-atoms-core/src/provider_verification.rs:109-124 | exactly the targeted files get new, valid content, each from an answer to one of the requests made; all paths stay, and each target costs at most three requests |
| `CandidateLoop.ProviderLoop.RequestFileRepair` | atom-rendering-engine-main/math-atoms-core/src/provider_verification.rs:126-169 | at most three requests, none without time left; the first usable answer is accepted and differs from the current content, and failure means no time, a failed call or three unusable answers |
| `CandidateLoop.Targets` | atom-rendering-engine-main/math-atoms-repair/src/lib.rs:9-24 | the targets rise, are indices of files, and are never empty for a bundle that is not; they are the files the failure mentions, if it mentions any |
| `CandidateLoop.MentionedIndices` | atom-rendering-engine-main/math-atoms-repair/src/lib.rs:11-19 | exactly the files whose path, with either slash, occurs in the failure |
| `CandidateSteps.FinalizeCompletes` | atom-rendering-engine-main/math-atoms-core/src/provider_verification.rs:42-50 | finalising a traced round completes the loop on disk, and binds the plan the attempt names to the plan of the loop |
| `CandidateSteps.CompletedRound` | atom-rendering-engine-main/math-atoms-core/src/provider_verification.rs:39-93 | in a completed loop every round's attempt is there and bound to its bundle, only the last passed, and every other has its bound repair leading to the next bundle |
| `CandidateSteps.FreshPass` | atom-rendering-engine-main/math-atoms-verification/src/runner.rs:117-127 | in a fresh run a built attempt that passed on a sound bundle by gates of a program called cargo can always be finalised: the chain is closed, nothing follows, the final manifest can be written |
| `CandidateSteps.FreshRepaired` | atom-rendering-engine-main/math-atoms-core/src/provider_verification.rs:87-93 | in a fresh run a stored repair leaves the links one longer and everything after them untouched |
| `VerificationAgreement.BuiltLoads` | atom-rendering-engine-main/math-atoms-verification/src/runner.rs:76-115 | what the runner builds the store loads, the same but for control characters in its failure text and its program's path, exactly if the controller's files recompute, a pass is sound, the program is called cargo and the root's path has no control characters; otherwise the store calls it corrupt |
| `VerificationAgreement.SlashedLoads` | atom-rendering-engine-main/math-atoms-verification/src/runner.rs:76-115 | a bundle with forward slashes always loads as the attempt that was built, if gates fail an unsound bundle and are run by cargo below a printable root |
| `VerificationInstances.OtherCargo` | atom-rendering-engine-main/math-atoms-verification/src/runner.rs:316-340 | finding: an attempt on disk, built by a program that `CARGO` named otherwise, is corrupt to the store |
| `VerificationAgreement.BuiltHolds` | atom-rendering-engine-main/math-atoms-verification/src/store.rs:534-760 | the store's checker accepts a freshly built attempt exactly if its bundle recomputes, a pass is sound and the program is called cargo, whatever `CARGO` names |
| `VerificationAgreement.ControllersAgree` | atom-rendering-engine-main/math-atoms-verification/src/store.rs:629-673 | the controller files the checker expects are those the runner wrote, for every valid bundle, exactly if the JSON bundle is sound or its refusal reads the same with normalised paths |
| `VerificationAgreement.HarnessValid` | atom-rendering-engine-main/math-atoms-verification/src/model.rs:316-329 | the harness of a sound JSON bundle is itself a valid candidate file |
| `VerificationAgreement.RefusalValid` | atom-rendering-engine-main/math-atoms-verification/src/model.rs:316-347 | the crate that refuses an unsound bundle, with the redacted and quoted reason in it, is always a valid candidate file, so recomputing it never fails |
| `VerificationModel.FirstRejected` | atom-rendering-engine-main/math-atoms-verification/src/model.rs:305-312 | names a file that does not parse and why, before which every file parses, or none if all of them parse |
| `VerificationAgreement.ManifestValid` | atom-rendering-engine-main/math-atoms-verification/src/model.rs:331-335 | a controller manifest is a valid candidate file |
| `VerificationAgreement.ProfileKept` | atom-rendering-engine-main/math-atoms-verification/src/model.rs:272-297 | normalising paths changes neither the profile of a bundle nor whether it is sound |
| `VerificationAgreement.BundleKept` | atom-rendering-engine-main/math-atoms-verification/src/model.rs:230-250 | normalising paths keeps a bundle valid and keeps its hash |
| `VerificationAgreement.ValidPathClean` | atom-rendering-engine-main/math-atoms-verification/src/model.rs:211-228 | a valid relative path carries no control character |
| `VerificationClosing.FinalizeVerifies` | atom-rendering-engine-main/math-atoms-verification/src/store.rs:154-326 | whatever finalising writes, the independent checker accepts with the same plan, bundle, directory, n attempts and n - 1 repairs, exactly if the root's path has no control characters |
| `VerificationClosing.StoredExactly` | atom-rendering-engine-main/math-atoms-verification/src/store.rs:72-130 | a repair is stored exactly if the failed attempt holds, every write goes through, the repair moves the chain to another bundle before the last attempt, and every path is written with forward slashes |
| `VerificationClosing.StoredLoads` | atom-rendering-engine-main/math-atoms-verification/src/store.rs:132-152 | a stored repair is the one that is loaded later |
| `VerificationClosing.RefusedYetLoads` | atom-rendering-engine-main/math-atoms-verification/src/store.rs:88-130 | finding: a repair with a backslash in a path is refused after it was written, yet the next load finds it with forward slashes |
| `VerificationInstances.RefusedInstance` | atom-rendering-engine-main/math-atoms-verification/src/store.rs:88-130 | evidence on disk for which a repair is written, refused and found again, built from nothing |
| `VerificationClosing.RepairReads` | atom-rendering-engine-main/math-atoms-verification/src/store.rs:415-483 | a repair manifest written by the store reads back as the repair with normalised paths if it moves the chain, and not at all if it does not |
| `VerificationClosing.ChainFrame` | atom-rendering-engine-main/math-atoms-verification/src/store.rs:328-413 | a chain depends on nothing but the loads of its attempts and repairs |
| `VerificationFrames.LoadAttemptFrame` | atom-rendering-engine-main/math-atoms-verification/src/store.rs:55-70 | loading an attempt depends on nothing outside the attempt's directory |
| `VerificationFrames.LoadRepairFrame` | atom-rendering-engine-main/math-atoms-verification/src/store.rs:132-152 | loading a repair depends on nothing outside the repair's directory |
| `VerificationFrames.HoldsKept` | atom-rendering-engine-main/math-atoms-verification/src/store.rs:534-627 | an accepted attempt stays accepted while nothing written is changed |
| `VerificationFrames.OneAttempt` | atom-rendering-engine-main/math-atoms-verification/src/store.rs:15-19 | no path lies in the directories of two attempts |
| `VerificationFrames.AttemptLeaves` | atom-rendering-engine-main/math-atoms-verification/src/runner.rs:67-115 | work on one attempt leaves every other attempt and every repair as they were |
| `VerificationRunner.CandidateVerifier.VerifyAttempt` | atom-rendering-engine-main/math-atoms-verification/src/runner.rs:42-115 | an attempt on disk is returned untouched if it is for this bundle and refused if not; otherwise what is returned is a freshly built attempt and nothing outside the attempt's own paths has changed; on every path the disk, the gates run and the error are those of the definition that `BuildExactly` characterises |
| `VerificationRunner.CandidateVerifier.BuildAttempt` | atom-rendering-engine-main/math-atoms-verification/src/runner.rs:67-115 | a built attempt has its bundle, controller files, logs and manifest on disk, evidence that matches them, and gates that close |
| `VerificationRunner.CandidateVerifier.RunGates` | atom-rendering-engine-main/math-atoms-verification/src/runner.rs:76-92 | the commands are a nonempty prefix of the three gates, all but the last passed, the last failed unless all three ran, and only logs changed |
| `VerificationRunner.CandidateVerifier.RunCommand` | atom-rendering-engine-main/math-atoms-verification/src/runner.rs:316-377 | one gate: evidence of exactly what is in its two logs, within the size bound, or an error; only those logs change |
| `VerificationRunner.CandidateVerifier.MaterializeCandidate` | atom-rendering-engine-main/math-atoms-verification/src/runner.rs:183-209 | the candidate's files and the controller's are on disk with evidence for each, in order, and nothing else changed |
| `VerificationRunner.CandidateVerifier.EnsureManifest` | atom-rendering-engine-main/math-atoms-verification/src/runner.rs:211-261 | the controller's files are written beside a bundle without a manifest of its own, or the bundle is refused |
| `VerificationRunner.CandidateVerifier.WriteImmutable` | atom-rendering-engine-main/math-atoms-verification/src/runner.rs:429-451 | a path once written keeps its text; the write succeeds exactly if the path is free and reachable or already holds the text |
| `VerificationRunner.CandidateVerifier.StoreRepair` | atom-rendering-engine-main/math-atoms-verification/src/store.rs:72-130 | the disk and the result are those of the definition of storing a repair, on every error path too |
| `VerificationRunner.CandidateVerifier.Finalize` | atom-rendering-engine-main/math-atoms-verification/src/store.rs:154-198 | succeeds exactly if the attempt passed, holds, closes its chain and no other final manifest is there, and then writes that manifest and nothing else |
| `VerificationChain.ChainIsClosed` | atom-rendering-engine-main/math-atoms-verification/src/store.rs:328-413 | the loop of `load_chain` accepts exactly the closed chains: attempts 1 to n load, only the last passed, each repair binds its neighbours, no trailing repair, no attempt n + 1 below the cap |
| `VerificationChain.AcceptedEvidence` | atom-rendering-engine-main/math-atoms-verification/src/store.rs:200-413 | what accepting a final manifest means: a closed chain whose attempts recompute, each repair going from one bundle to the next, ending in the claimed bundle (what an attempt that recomputes has on disk is spelled out by `AcceptedRecorded`) |
| `VerificationChain.HistoryDetermines` | atom-rendering-engine-main/math-atoms-verification/src/store.rs:341-396 | the hashed history text determines the plan, the length and every attempt and repair hash |
| `VerificationChain.ClosedIsTagged` | atom-rendering-engine-main/math-atoms-verification/src/store.rs:341-396 | every closed chain's history is within the texts that are determined |
| `VerificationChain.OutputDetermines` | atom-rendering-engine-main/math-atoms-verification/src/model.rs:230-246 | the hashed text of a bundle determines the bundle when contents end their line and have no header line: its paths and contents for several files, its content for one |
| `VerificationChain.OutputForgets` | atom-rendering-engine-main/math-atoms-verification/src/model.rs:230-246 | finding: the text forgets the path of a lone file and whether a file ended its last line |
| `VerificationReadings.OutputMisreads` | atom-rendering-engine-main/math-atoms-verification/src/model.rs:230-246 | finding: in any bundle of several files, any header line inside any content (more of it above and below, its path with slashes) makes the text that of a bundle with a file more |
| `VerificationReadings.OutputFinest` | atom-rendering-engine-main/math-atoms-verification/src/model.rs:230-246 | for several files that end their lines, some content can be read as more than one file exactly if some content has such a header line inside |
| `VerificationStore.LoadChain` | atom-rendering-engine-main/math-atoms-verification/src/store.rs:328-413 | the loops over mutable state compute the chain function |
| `VerificationStore.LoadLink` | atom-rendering-engine-main/math-atoms-verification/src/store.rs:346-391 | one turn of the loop, branch by branch, is the link function |
| `VerificationManifests.AttemptRoundTrip` | atom-rendering-engine-main/math-atoms-verification/src/store.rs:21-53 | an attempt's manifest reads back as the attempt with control characters cleaned, whatever its texts |
| `VerificationManifests.FinalRoundTrip` | atom-rendering-engine-main/math-atoms-verification/src/store.rs:173-187 | the final manifest of a passing attempt reads back as its claim |
| `VerificationManifests.CommandReads` | atom-rendering-engine-main/math-atoms-verification/src/store.rs:810-847 | a printed command reads back, signs and lengths included |
| `VerificationManifests.RepairTextParses` | atom-rendering-engine-main/math-atoms-verification/src/store.rs:106-115 | a repair manifest parses to the object it was printed from, with exactly its names |
| `VerificationModel.ValidateFiles` | atom-rendering-engine-main/math-atoms-verification/src/model.rs:252-270 | accepts exactly 1 to 32 valid files with paths distinct up to slashes and ASCII case |
| `VerificationModel.CandidateOutput` | atom-rendering-engine-main/math-atoms-verification/src/model.rs:230-246 | the text of a valid bundle, and nothing for an invalid one |
| `JsonSoundness.ParserIsGrammar` | atom-rendering-engine-main/math-atoms-json/src/lib.rs:86-345 | the parser accepts exactly the texts of the strict grammar, and returns the value they denote: RFC 8259 sections 2 to 7 with no repeated decoded key, no raw C0, DEL or C1 control, no unpaired surrogate, no value deeper than 64 (escapes, digits and depth in tables: the rows of `JsonPlain`) |
| `JsonSoundness.ValueUnique` | atom-rendering-engine-main/math-atoms-json/src/lib.rs:86-95 | a text denotes at most one value |
| `JsonCompleteness.TextComplete` | atom-rendering-engine-main/math-atoms-json/src/lib.rs:86-95 | every text of the strict grammar is accepted with the value it denotes |
| `JsonSoundness.TextSound` | atom-rendering-engine-main/math-atoms-json/src/lib.rs:86-95 | every accepted text is a text of the strict grammar and denotes the value returned |
| `JsonParser.Parse` | atom-rendering-engine-main/math-atoms-json/src/lib.rs:86-95 | the object that advances a position returns what the reading functions say, error offset included |
| `JsonParser.Parser.ParseValue` | atom-rendering-engine-main/math-atoms-json/src/lib.rs:129-145 | a value is read from the rest of the input; the position moves to behind it |
| `JsonParser.Parser.ParseObject` | atom-rendering-engine-main/math-atoms-json/src/lib.rs:147-174 | members, duplicate keys, separators and depth |
| `JsonParser.Parser.ParseArray` | atom-rendering-engine-main/math-atoms-json/src/lib.rs:176-192 | items, separators and depth |
| `JsonParser.Parser.ParseString` | atom-rendering-engine-main/math-atoms-json/src/lib.rs:194-222 | characters, escapes and refused controls |
| `JsonParser.Parser.ParseUnicodeScalar` | atom-rendering-engine-main/math-atoms-json/src/lib.rs:224-241 | escaped scalars and surrogate pairs, as `UnitReads`, `PairReads` and `HalfPairRejected` spell out |
| `JsonParser.Parser.ParseNumber` | atom-rendering-engine-main/math-atoms-json/src/lib.rs:255-285 | sign, integer, fraction and exponent as written |
| `JsonPrinter.EscapeRoundTrip` | atom-rendering-engine-main/math-atoms-learning/src/lib.rs:938-952 | reading a quoted escaped text gives it back, with other controls as spaces |
| `JsonPrinter.EscapeText` | atom-rendering-engine-main/math-atoms-learning/src/lib.rs:938-952 | the loop over the characters computes the escaped text |
| `JsonPrinter.PrintRoundTrip` | atom-rendering-engine-main/math-atoms-json/src/lib.rs:86-345 | a printed value parses to itself, cleaned |
| `JsonPrinter.PrintOneLine` | atom-rendering-engine-main/math-atoms-learning/src/lib.rs:525-573 | a printed value is one line without control characters |
| `LearningRoundTrip.RecordRoundTrip` | atom-rendering-engine-main/math-atoms-learning/src/lib.rs:525-649 | reading back any printed record gives its canonical form, or nothing if that is not structurally valid |
| `LearningRoundTrip.RecordSurvives` | atom-rendering-engine-main/math-atoms-learning/src/lib.rs:525-649 | a record comes back unchanged exactly if it is structurally valid, its texts are clean and its fields newer than its schema are default, for all five schemas |
| `LearningRoundTrip.AppendedButUnreadable` | atom-rendering-engine-main/math-atoms-learning/src/lib.rs:253-275 | finding: a record whose id is a control character is valid and is stored, but cannot be read back |
| `Memory.EffectiveRecords` | atom-rendering-engine-main/math-atoms-learning/src/lib.rs:779-795 | the scan from the end with a seen set computes the effective records |
| `Memory.ScanIsLatest` | atom-rendering-engine-main/math-atoms-learning/src/lib.rs:783-791 | scanning from the end keeps exactly the records no later one supersedes |
| `Memory.EffectiveStep` | atom-rendering-engine-main/math-atoms-graph/src/lib.rs:429-470 | the incremental memory takes the same step as the batch: replace the key, push out the oldest |
| `Memory.EffectiveJoin` | atom-rendering-engine-main/math-atoms-native-ledger/src/lib.rs:334-335 | effective(effective(xs, n) + ys, n) = effective(xs + ys, n) |
| `Lease.LeaseIsExclusive` | atom-rendering-engine-main/math-atoms-lock/src/lib.rs:221-255 | after any run of any processes with any crashes, at most one process is between its inode check and its unlink; the path names its inode, and holds its token once written |
| `Lease.RunInv` | atom-rendering-engine-main/math-atoms-lock/src/lib.rs:187-255 | the protocol invariant holds over every run |
| `Lease.UnlinkIsOwn` | atom-rendering-engine-main/math-atoms-lock/src/lib.rs:56-63 | a drop only ever unlinks its own lease's file; that it does so, and releases everything, is `Drops` |
| `Lease.DropFindsItsToken` | atom-rendering-engine-main/math-atoms-lock/src/lib.rs:22-63 | a holder's drop finds its own token at the path |
| `Lease.Acquires` | atom-rendering-engine-main/math-atoms-lock/src/lib.rs:29-46 | an undisturbed process acquires a free lease |
| `Lease.CrashReleases` | atom-rendering-engine-main/math-atoms-lock/src/lib.rs:199-211 | a crash frees the lock whatever the process was doing |
| `Ledger.ReadsSeePrefix` | atom-rendering-engine-main/math-atoms-learning/src/lib.rs:754-770 | under any interleaving of appenders and readers, a finished read is the read of a prefix of every later log, in append order, and never a partial line |
| `Ledger.AppendVerifies` | atom-rendering-engine-main/math-atoms-learning/src/lib.rs:705-737 | an append that is done finds its record at the end of the log |
| `Ledger.Appends` | atom-rendering-engine-main/math-atoms-learning/src/lib.rs:705-737 | whoever holds the lease and has nothing begun can append any valid record: its line is then at the end and the record in the log, and nothing else has changed |
| `Ledger.Reads` | atom-rendering-engine-main/math-atoms-learning/src/lib.rs:754-770 | whoever holds the lease and has nothing begun can read: what it gets is the text of the whole log |
| `Ledger.WorkGoesOn` | atom-rendering-engine-main/math-atoms-learning/src/lib.rs:705-770 | an append or a read can always go on by any number of bytes still to come, and is done exactly when none are |
| `Ledger.LogReads` | atom-rendering-engine-main/math-atoms-learning/src/lib.rs:754-770 | reading the text of a log gives its canonical records, or the number of the first line that cannot be read |
| `Ledger.ReadRecords` | atom-rendering-engine-main/math-atoms-learning/src/lib.rs:754-770 | the loop over the lines computes that reading |
| `Graph.MemoryIsEffective` | atom-rendering-engine-main/math-atoms-graph/src/lib.rs:421-482 | after any history of records with distinct ids, the learning nodes are the effective records of the whole history at limit 256, in order, behind the base nodes |
| `Graph.GraphIsBatch` | atom-rendering-engine-main/math-atoms-graph/src/lib.rs:421-487 | for records nothing else mentions, the graph built record by record is the one built at once: nodes, links and memory |
| `Graph.AddedLinked` | atom-rendering-engine-main/math-atoms-graph/src/lib.rs:421-487 | any record added to any well-linked graph leaves no dangling edge, no id twice, and at most 256 slots |
| `Graph.WikiGraph.AddLearningRecord` | atom-rendering-engine-main/math-atoms-graph/src/lib.rs:421-476 | the whole new state of adding one record |
| `Graph.AddedSlots` | atom-rendering-engine-main/math-atoms-graph/src/lib.rs:421-470 | whatever else the graph holds, its memory takes the incremental step |
| `Graph.WikiGraph.AddProofRecord` | atom-rendering-engine-main/math-atoms-graph/src/lib.rs:358-413 | the whole new state of adding a proof record |
| `Graph.WikiGraph.RemoveNode` | atom-rendering-engine-main/math-atoms-graph/src/lib.rs:484-487 | the node and every edge at it are gone, the rest stays in order |
| `Graph.SlotOf` | atom-rendering-engine-main/math-atoms-graph/src/lib.rs:430-434 | the first slot that holds the key, or none |
| `GraphSearch.HasRelationshipPath` | atom-rendering-engine-main/math-atoms-graph/src/lib.rs:329-356 | true exactly if some path of at most that many edges, walked in either direction, joins the two nodes; and it ends |
| `GraphSearch.Expand` | atom-rendering-engine-main/math-atoms-graph/src/lib.rs:340-353 | the neighbours of a node join the queue one deeper, unless one is the goal, which is then related |
| `GraphSearch.Visited` | atom-rendering-engine-main/math-atoms-graph/src/lib.rs:335-339 | with nothing waiting, every node of a path within the bound was visited no deeper than its distance |
| `BusInvariants.EmittedWell` | atom-rendering-engine-main/math-atoms-bus/src/lib.rs:314-437 | every emission with a parent that is none, 0 or issued keeps the fabric well: threads partition the envelopes, know exactly their ends, and meet wherever they share a node |
| `BusInvariants.EmittedMet` | atom-rendering-engine-main/math-atoms-bus/src/lib.rs:356-437 | two threads that share a node have an intersection at it that names both |
| `BusInvariants.EmittedPartitioned` | atom-rendering-engine-main/math-atoms-bus/src/lib.rs:366-378 | each thread lists exactly its envelopes, in order of emission |
| `BusInvariants.RouteIsRoute` | atom-rendering-engine-main/math-atoms-bus/src/lib.rs:299-312 | a route starts at an envelope without parent, rises from parent to child within one thread, and ends in the envelope asked for |
| `BusInvariants.RouteOneThread` | atom-rendering-engine-main/math-atoms-bus/src/lib.rs:299-312 | a whole route lies in one thread |
| `BusInvariants.EmittedRoute` | atom-rendering-engine-main/math-atoms-bus/src/lib.rs:314-334 | a new envelope's route is its parent's and itself; all other routes stay |
| `BusInvariants.EmittedExactly` | atom-rendering-engine-main/math-atoms-bus/src/lib.rs:299-343 | one emission keeps a well fabric well, and every lookup a route, exactly if its parent is none, 0 or issued |
| `BusInvariants.RunWell` | atom-rendering-engine-main/math-atoms-bus/src/lib.rs:314-437 | a new bus is well after any sequence of emissions exactly if every parent in it was none, 0 or issued before |
| `BusInvariants.RunRoutes` | atom-rendering-engine-main/math-atoms-bus/src/lib.rs:299-343 | after any sequence of emissions every lookup ends and gives a rooted, rising route of parents exactly if every parent in it was none, 0 or issued before; one that was not spoils a route for good |
| `BusInvariants.EndlessExactly` | atom-rendering-engine-main/math-atoms-bus/src/lib.rs:299-312 | on any bus a lookup is endless exactly if it comes to some id twice, and one that ends takes at most one turn more than there are envelopes |
| `BusInvariants.RouteEndsExactly` | atom-rendering-engine-main/math-atoms-bus/src/lib.rs:299-343 | finding: looking up a new envelope's route goes on forever exactly if the envelope names its own future id as parent |
| `BusInvariants.FutureParent` | atom-rendering-engine-main/math-atoms-bus/src/lib.rs:299-343 | finding: a parent beyond the next id is harmless until it is issued below this envelope; then neither route ends |
| `Bus.RouteParented` | atom-rendering-engine-main/math-atoms-bus/src/lib.rs:299-312 | where every parent is none, 0 or issued before, looking up any id ends with its route |
| `Bus.SpiderwebBus.RouteFor` | atom-rendering-engine-main/math-atoms-bus/src/lib.rs:299-312 | on any bus, whatever its parents are, the cursor loop collects the route of every id whose ancestors come to an end |
| `Bus.SpiderwebBus.Emit` | atom-rendering-engine-main/math-atoms-bus/src/lib.rs:314-334 | the whole new fabric of one emission |
| `Bus.SpiderwebBus.RecordFabric` | atom-rendering-engine-main/math-atoms-bus/src/lib.rs:356-412 | crossings, own thread, meetings, preloads and backpressure |
| `Bus.SpiderwebBus.AddIntersection` | atom-rendering-engine-main/math-atoms-bus/src/lib.rs:414-437 | the first meeting of these threads at the node is updated, or a new one added |
| `Bus.JoinedAt` | atom-rendering-engine-main/math-atoms-bus/src/lib.rs:422-436 | which meeting changes, and how |
| `RuntimeRuns.RunHolds` | atom-rendering-engine-main/math-atoms-core/src/runtime.rs:174-883 | every run of operations, blocked starts included, keeps the runtime valid (the last route is empty or the whole route of its last envelope over all four layers; proven means no blocker and no provider call), and the proof count is the number of intents that ended proven |
| `RuntimeRuns.RouteGrows` | atom-rendering-engine-main/math-atoms-core/src/runtime.rs:467-883 | between new intents, provider resets and blocked starts the last route only grows, as a prefix |
| `RuntimeRuns.NextKeeps` | atom-rendering-engine-main/math-atoms-core/src/runtime.rs:174-883 | what a single operation keeps and counts |
| `RuntimeRuns.SentChained` | atom-rendering-engine-main/math-atoms-core/src/runtime.rs:241-419 | a chain of envelopes prolongs its parent's route by exactly its steps |
| `RuntimeRuns.IntentValid` | atom-rendering-engine-main/math-atoms-core/src/runtime.rs:235-452 | an intent ends proven exactly if nothing blocks and no provider call is pending |
| `RuntimeMachine.MathAtomsRuntime.RunIntent` | atom-rendering-engine-main/math-atoms-core/src/runtime.rs:235-452 | the whole new system after an intent; the check that the route touched every layer never adds a blocker |
| `RuntimeMachine.MathAtomsRuntime.ScheduleProviderExecution` | atom-rendering-engine-main/math-atoms-core/src/runtime.rs:467-517 | a task is given exactly for a pending call and carries the new route; otherwise the runtime is blocked |
| `RuntimeMachine.MathAtomsRuntime.MarkProviderExecutionReport` | atom-rendering-engine-main/math-atoms-core/src/runtime.rs:541-643 | a report that holds is sent packet by packet and awaits verification; any other blocks (when a report holds is spelled out by `ReportAccepted`) |
| `RuntimeMachine.MathAtomsRuntime.MarkProviderBlocked` | atom-rendering-engine-main/math-atoms-core/src/runtime.rs:719-758 | a blocker is recorded once and prolongs the route over all layers |
| `RuntimeMachine.MathAtomsRuntime.LearnLearningRecord` | atom-rendering-engine-main/math-atoms-core/src/runtime.rs:842-883 | a learning record is taught to the graph and prolongs the route |
| `RuntimeMachine.MathAtomsRuntime.LearnProofRecord` | atom-rendering-engine-main/math-atoms-core/src/runtime.rs:819-840 | a proven record is taught to the graph, and any is noted beside the route |
| `RuntimeMachine.MathAtomsRuntime.MarkDrift` | atom-rendering-engine-main/math-atoms-core/src/runtime.rs:454-465 | drift is counted and noted beside the route |
| `RuntimeMachine.MathAtomsRuntime.MarkStoreBlocked` | atom-rendering-engine-main/math-atoms-core/src/runtime.rs:760-780 | a store blocker is recorded once and noted beside the route |
| `RuntimeMachine.MathAtomsRuntime.SetProvider` | atom-rendering-engine-main/math-atoms-core/src/runtime.rs:174-190 | everything but the two counters is reset |
| `RuntimeMachine.MathAtomsRuntime.MarkStartupStoreBlocked` | atom-rendering-engine-main/math-atoms-core/src/runtime.rs:782-817 | a store that cannot be read at the start is a blocker with a route of its own |
| `RuntimeMachine.MathAtomsRuntime.Start` | atom-rendering-engine-main/math-atoms-core/src/runtime.rs:100-131 | a start teaches the graph all proofs and the effective learning records, and blocks once for every store that cannot be read |
| `RuntimeMemory.RunRemembers` | atom-rendering-engine-main/math-atoms-core/src/runtime.rs:819-883 | after any run, the graph's memory is the effective memory of the records it started from and of all the run learned, whatever else happened in between |
| `RuntimeMemory.StartRemembers` | atom-rendering-engine-main/math-atoms-core/src/runtime.rs:106-124 | a start remembers the effective records of its whole ledger |
| `RuntimeMemory.RestartRemembers` | atom-rendering-engine-main/math-atoms-native-ledger/src/lib.rs:325-340 | a runtime that learned record after record has the memory of one started again on the ledger with all of them |
| `Runtime.ExecutedBlocks` | atom-rendering-engine-main/math-atoms-core/src/runtime.rs:519-539 | finding: in every state `mark_provider_executed` blocks the runtime, with its reason recorded and routed, and keeps nothing of the output it was told of |
| `RuntimeMachine.MathAtomsRuntime.MarkProviderExecuted` | atom-rendering-engine-main/math-atoms-core/src/runtime.rs:519-539 | the whole new system after the made-up report: blocked |
| `Secrets.SpansAreExact` | atom-rendering-engine-main/math-atoms-secrets/src/lib.rs:26-47 | with the filter for character boundaries in place, the merged spans rise, neither overlap nor touch, lie between characters, and hold exactly the bytes the collectors' spans hold |
| `Secrets.FilterDropsNone` | atom-rendering-engine-main/math-atoms-secrets/src/lib.rs:34-37 | every span of the four collectors begins and ends between characters, so the filter never drops one |
| `Secrets.CharactersWhole` | atom-rendering-engine-main/math-atoms-secrets/src/lib.rs:26-47 | of a character either every byte is in a merged span or none is |
| `Secrets.RedactedBytes` | atom-rendering-engine-main/math-atoms-secrets/src/lib.rs:7-24 | byte for byte, the redacted text is the gaps of the text with one marker for every merged span |
| `Secrets.RedactedLength` | atom-rendering-engine-main/math-atoms-secrets/src/lib.rs:7-24 | redaction makes a text at most eleven times as long |
| `Utf8.BoundaryExactly` | atom-rendering-engine-main/math-atoms-secrets/src/lib.rs:34-37 | the boundaries of a text's bytes are exactly the offsets of its characters, and its end |
| `Secrets.SurvivesUncovered` | atom-rendering-engine-main/math-atoms-secrets/src/lib.rs:7-24 | a byte survives redaction exactly if no collected span holds it |
| `Secrets.Redact` | atom-rendering-engine-main/math-atoms-secrets/src/lib.rs:7-24 | slicing the text at merged spans only, the loop computes the redacted text |
| `Secrets.FindCredentialSpans` | atom-rendering-engine-main/math-atoms-secrets/src/lib.rs:26-47 | the merge that updates the last span in place computes the merged spans |
| `Secrets.CollectPrefixed` | atom-rendering-engine-main/math-atoms-secrets/src/lib.rs:49-79 | exactly the tokens of known families, at word starts, longer than twelve |
| `Secrets.CollectJwts` | atom-rendering-engine-main/math-atoms-secrets/src/lib.rs:81-106 | exactly the runs that are web tokens; jumping from run to run misses none |
| `Secrets.CollectBearer` | atom-rendering-engine-main/math-atoms-secrets/src/lib.rs:108-132 | exactly the tokens behind the word bearer |
| `Secrets.CollectAssignments` | atom-rendering-engine-main/math-atoms-secrets/src/lib.rs:134-181 | exactly the values assigned to sensitive labels, quoted or not (which texts those are: `AssignmentExactly`) |
| `Sha256.Sha256` | atom-rendering-engine-main/math-atoms-hash/src/lib.rs:22-41 | the loops over arrays compute the recursive definition of FIPS 180-4 |
| `Sha256.Compress` | atom-rendering-engine-main/math-atoms-hash/src/lib.rs:72-114 | the state updated in place is the compression of the old state and the block |
| `Sha256.Reordered` | atom-rendering-engine-main/math-atoms-hash/src/lib.rs:83-86 | adding the schedule's terms in the code's order gives the standard's word |
| `Sha256.Pad` | atom-rendering-engine-main/math-atoms-hash/src/lib.rs:23-30 | the padding loop computes the padded message |
| `Sha256.PaddingMinimal` | atom-rendering-engine-main/math-atoms-hash/src/lib.rs:23-30 | padding is whole blocks, and the fewest that have room for marker and length |
| `Sha256.PaddingInjective` | atom-rendering-engine-main/math-atoms-hash/src/lib.rs:23-30 | different messages below 2^61 bytes are padded differently |
| `Sha256.TaggedIsTag` | atom-rendering-engine-main/math-atoms-hash/src/lib.rs:43-70 | every tagged digest is a valid tag |
| `Compaction.CompactSections` | atom-rendering-engine-main/avc-core/src/lib.rs:1702-1742 | the loop computes the compaction function |
| `Compaction.BudgetKept` | atom-rendering-engine-main/avc-core/src/lib.rs:1702-1742 | a positive budget is never exceeded; with a section cut it is met exactly, and otherwise the room used is that of the sections kept |
| `Compaction.KeptFirst` | atom-rendering-engine-main/avc-core/src/lib.rs:1706-1733 | what is kept whole is a prefix of the order of priority |
| `Compaction.OrderIsPriority` | atom-rendering-engine-main/avc-core/src/lib.rs:1706-1712 | the order holds every section once, higher priority first, equals in original order |
| `VerificationTamper.AcceptedRecorded` | atom-rendering-engine-main/math-atoms-verification/src/store.rs:200-760 | in an accepted chain, for every attempt: the manifest, every file and both logs of every command are on disk with the recorded hash and length; the last attempt passed cargo check, test and clippy in this order with exit code 0 and in time, every other ended at a gate that failed, and every repair's manifest and files are there |
| `VerificationTamper.ClaimDetermines` | atom-rendering-engine-main/math-atoms-verification/src/store.rs:200-396 | with a hash that no two texts share, the claim determines the evidence: on any two disks on which it is accepted the same texts lie at the final manifest and at every manifest, file and log of the chain |
| `VerificationTamper.TamperingShows` | atom-rendering-engine-main/math-atoms-verification/src/store.rs:200-396 | with such a hash, evidence that is still accepted after one of the paths it rests on was overwritten was overwritten with what was there |
| `VerificationTamper.ChainUnique` | atom-rendering-engine-main/math-atoms-verification/src/store.rs:328-413 | a disk holds at most one closed chain of a plan |
| `VerificationTamper.HoldsPlaced` | atom-rendering-engine-main/math-atoms-verification/src/store.rs:534-627 | everything of an accepted attempt lies in one directory named by its number, and its gates were run by a program called cargo or cargo.exe in any case |
| `VerificationTamper.FinalPlaceExactly` | atom-rendering-engine-main/math-atoms-verification/src/store.rs:200-326 | a final manifest is looked at exactly if its path is that of the plan's final manifest, alone or below some root |
| `VerificationTamper.HoldsBundle` | atom-rendering-engine-main/math-atoms-verification/src/store.rs:534-673 | the bundle of an accepted attempt, put together from the texts on disk, is valid, has the recorded hash, is Rust or JSON, parses if it is JSON and passed, and has exactly the controller's files beside it |
| `RecordFields.AttemptFields` | atom-rendering-engine-main/math-atoms-verification/src/store.rs:749-847 | an attempt's manifest that can be read is an object with exactly the nine names of an attempt, each once, of schema one, and its files and commands have exactly theirs |
| `RecordFields.RepairFields` | atom-rendering-engine-main/math-atoms-verification/src/store.rs:415-483 | a repair's manifest that can be read has exactly the seven names of a repair, each once, and its files exactly theirs |
| `RecordFields.FinalFields` | atom-rendering-engine-main/math-atoms-verification/src/store.rs:200-326 | an accepted final manifest has exactly its ten names, each once, says that it passed, and claims one to thirty-two attempts and one repair less |
| `RecordFields.LineFields` | atom-rendering-engine-main/math-atoms-learning/src/lib.rs:575-649 | a ledger line that can be read has exactly as many fields as its schema has names, each once and all of them among those names |
| `RecordFields.CandidateFields` | atom-rendering-engine-main/math-atoms-learning/src/lib.rs:989-1015 | evidence in a line is an object with its five names |
| `VerificationRules.PathExactly` | atom-rendering-engine-main/math-atoms-verification/src/model.rs:211-228 | a path is accepted exactly if, with slashes, it is at most 240 bytes, has no colon, and nothing between two slashes or a slash and an end is empty, a dot, two dots or holds a control character |
| `VerificationRules.FilesExactly` | atom-rendering-engine-main/math-atoms-verification/src/model.rs:36-58 | a bundle is accepted exactly if it has 1 to 32 files at different places, each with an accepted path and 1 to 131,072 bytes |
| `VerificationRules.PlanExactly` | atom-rendering-engine-main/math-atoms-verification/src/model.rs:198-209 | a plan id is 1 to 160 lower-case letters, digits and dashes |
| `VerificationRules.ModelExactly` | atom-rendering-engine-main/math-atoms-verification/src/store.rs:521-532 | a model's name is 1 to 240 bytes without control characters and without white space at its ends |
| `VerificationRules.ProfileExactly` | atom-rendering-engine-main/math-atoms-verification/src/model.rs:272-297 | a bundle with a Cargo.toml or a Rust file, in any case, is Rust; one of JSON files alone is JSON; any other is neither |
| `VerificationRules.ProgramExactly` | atom-rendering-engine-main/math-atoms-verification/src/store.rs:692-748 | a gate is taken for cargo's exactly if its program is a file named cargo or cargo.exe, in any case |
| `VerificationRules.Layout` | atom-rendering-engine-main/math-atoms-verification/src/store.rs:15-19 | where a plan's evidence lies, with attempts numbered by three digits |
| `VerificationRules.TotalIsEncoded` | atom-rendering-engine-main/math-atoms-verification/src/model.rs:324-328 | the bytes counted for a JSON bundle are those of its contents one after another |
| `VerificationRules.TotalPositive` | atom-rendering-engine-main/math-atoms-verification/src/model.rs:324-328 | for a valid bundle both numbers its generated test asserts to be positive are |
| `VerificationRules.FailureCleaned` | atom-rendering-engine-main/math-atoms-verification/src/model.rs:337-347 | a failure text is the redacted one, or as many whole characters of it as fit in 24,576 bytes and the note that it was cut |
| `VerificationRules.PathReads` | atom-rendering-engine-main/math-atoms-verification/src/runner.rs:453-455 | the path escaped into a manifest reads back from the quoted text |
| `VerificationBuilding.WrittenExactly` | atom-rendering-engine-main/math-atoms-verification/src/runner.rs:429-451 | where nothing is yet, files of different paths can all be written exactly if none lies inside another, and then they and nothing else are added |
| `VerificationBuilding.MaterializedExactly` | atom-rendering-engine-main/math-atoms-verification/src/runner.rs:183-261 | where nothing is yet, a bundle can be laid out exactly if it has no build script or cargo configuration, a target, no file inside another, the controller's included, and a file named exactly Cargo.toml that asks for no dependency |
| `VerificationBuilding.OddManifest` | atom-rendering-engine-main/math-atoms-verification/src/runner.rs:183-222 | finding: a bundle whose only manifest is spelled other than Cargo.toml is laid out and then refused with an I/O error |
| `VerificationBuilding.GatesExactly` | atom-rendering-engine-main/math-atoms-verification/src/runner.rs:76-92 | the gates leave evidence exactly if each of them, up to the first that does not pass, starts and keeps both logs within 4,194,304 bytes; each runs once, in order, and the evidence is of its outcome |
| `VerificationBuilding.BuildExactly` | atom-rendering-engine-main/math-atoms-verification/src/runner.rs:67-115 | where nothing of an attempt is yet, it is built exactly if its bundle can be laid out and its gates leave evidence; it passed exactly if all three gates did |
| `CandidateLoop.TargetsExactly` | atom-rendering-engine-main/math-atoms-repair/src/lib.rs:20-24 | if the failure names a file, in any case and with either slash, the targets are exactly the files it names; if it names none, they are all files |
| `CandidateLoop.MentionedMeans` | atom-rendering-engine-main/math-atoms-repair/src/lib.rs:11-19 | a failure mentions a file exactly if somewhere in it the path is written out, in any ASCII case, with slashes throughout or with backslashes throughout |
| `JsonPlain.UnitReads` | atom-rendering-engine-main/math-atoms-json/src/lib.rs:224-253 | a backslash, `u` and the four digits of any scalar value of the basic plane, in either case, read as that character |
| `JsonPlain.DigitsOnly` | atom-rendering-engine-main/math-atoms-json/src/lib.rs:243-253 | the hexadecimal digits are the twenty-two of the two tables |
| `JsonPlain.PairReads` | atom-rendering-engine-main/math-atoms-json/src/lib.rs:224-253 | every character above the basic plane is read from its pair of surrogates |
| `JsonPlain.HalfPairRejected` | atom-rendering-engine-main/math-atoms-json/src/lib.rs:224-253 | half a pair is refused |
| `JsonPlain.ShortReads` | atom-rendering-engine-main/math-atoms-json/src/lib.rs:194-222 | the eight short escapes stand for their characters, and no other letter but `u` is an escape |
| `JsonPlain.PlainReads` | atom-rendering-engine-main/math-atoms-json/src/lib.rs:194-222 | an unescaped character stands for itself unless it is a quotation mark, a backslash or one of U+0000 to U+001F and U+007F to U+009F |
| `JsonPlain.SpaceReads` | atom-rendering-engine-main/math-atoms-json/src/lib.rs:306-310 | space, tab, line feed and carriage return are white space between tokens, and nothing else is |
| `JsonPlain.DigitsRead` | atom-rendering-engine-main/math-atoms-json/src/lib.rs:255-291 | the ten digits are numbers by themselves, and no other lone character is |
| `JsonPlain.DepthExactly` | atom-rendering-engine-main/math-atoms-json/src/lib.rs:129-192 | sixty-four levels of nesting are read, and not one more |
| `JsonPlain.NamesReadOnce` | atom-rendering-engine-main/math-atoms-json/src/lib.rs:147-174 | what is parsed has no name twice in any object, at any depth |
| `LearningRules.RulesExactly` | atom-rendering-engine-main/math-atoms-learning/src/lib.rs:253-370 | for all five schemas, a record is valid exactly if it has what every record must have and, unless it is the success of a fast build, the hash of its schema and, as a success, all that shows it |
| `LearningRules.ReadableSuccess` | atom-rendering-engine-main/math-atoms-learning/src/lib.rs:253-370 | a success with a provider in it that can be read from a line of schema 5 names its plan and at least 19 packets, an artifact and an attestation with hashes, and evidence with one attempt more than repairs |
| `LearningRules.OutcomeWords` | atom-rendering-engine-main/math-atoms-learning/src/lib.rs:47-55 | the seven words for an outcome, in any case and with white space around them, and no others |
| `Lease.Drops` | atom-rendering-engine-main/math-atoms-lock/src/lib.rs:22-63 | from any reachable state a holder that reads, unlinks, unlocks and closes undisturbed leaves no file at the path and no lock, every other process where it was, and a free lease for whoever is idle |
| `Lease.NeverStuck` | atom-rendering-engine-main/math-atoms-lock/src/lib.rs:187-255 | wherever a process is, the next call of its program can be made, with the one outcome that lock, path and what is still to be written allow |
| `Lease.FailureReleases` | atom-rendering-engine-main/math-atoms-lock/src/lib.rs:29-46 | a lease whose token cannot be written is given up: the lock is free again |
| `Lease.RetryLeavesNothing` | atom-rendering-engine-main/math-atoms-lock/src/lib.rs:221-255 | a process that finds the file locked, or the path moved on, is idle again and has left no trace |
| `Lease.StepTouches` | atom-rendering-engine-main/math-atoms-lock/src/lib.rs:187-255 | a step moves its own process only, and touches the lock and the text of no file but the one it has open |
| `GraphLinks.AddedLinks` | atom-rendering-engine-main/math-atoms-graph/src/lib.rs:441-476 | a new, valid record brings the link from its recipe, of weight 5, the one back, of weight 6, exactly if it promotes, those from its known atoms, of weight 4, as far as these are in the graph, and no others |
| `GraphLinks.AddedNode` | atom-rendering-engine-main/math-atoms-graph/src/lib.rs:436-445 | a new, valid record brings its node, with its own title, excerpt and tags |
| `GraphLinks.ProvedLinks` | atom-rendering-engine-main/math-atoms-graph/src/lib.rs:358-413 | a new, positive proof brings its node, the link to its recipe, of weight 8, the one back, of weight 5, one from each of its atoms, of weight 4, and no others |
| `BusRecords.RunRecords` | atom-rendering-engine-main/math-atoms-bus/src/lib.rs:314-412 | after any run of emissions: one envelope for each draft, numbered from 1; the backpressure signals are those of the blocking envelopes and the preloads those of the upper two layers |
| `BusRecords.RunLayers` | atom-rendering-engine-main/math-atoms-bus/src/lib.rs:356-378 | after every run with good parents a thread's layers are exactly those of its envelopes |
| `BusRecords.RunOrdered` | atom-rendering-engine-main/math-atoms-bus/src/lib.rs:414-437 | after any run every meeting names at least two threads, each once and in order |
| `BusRecords.EmittedPressed` | atom-rendering-engine-main/math-atoms-bus/src/lib.rs:356-437 | backpressure comes to a meeting with blocking envelopes only, at their ends and on their own thread, to every meeting such an envelope makes, and is never taken off |
| `RuntimeClaims.ReportAccepted` | atom-rendering-engine-main/math-atoms-core/src/runtime.rs:541-717 | a report is accepted exactly if it is true of the pending call: its plan and packets, the recomputed model, artifact length and hash, and the candidate's counts and bundle; then these are the state's claims, and otherwise the runtime is blocked |
| `RuntimeClaims.IntentDecided` | atom-rendering-engine-main/math-atoms-core/src/runtime.rs:235-452 | proven exactly if the recipe is linked, the stack valid and no provider wanted; waiting exactly if one is; blocked otherwise, with a reason |
| `RuntimeClaims.StatusFounded` | atom-rendering-engine-main/math-atoms-core/src/runtime.rs:174-883 | in every run from a fresh runtime a status is founded: proven, on the last intent; waiting for verification, on the last report, which was true then and whose claims are the state's; blocked, on a recorded reason |
| `RuntimeClaims.ClaimsFounded` | atom-rendering-engine-main/math-atoms-core/src/runtime.rs:174-883 | in every run from a fresh runtime, whatever the status, the state claims nothing of a provider's work but what a report said that was true when it came and that no intent and no change of the provider has ended |
| `RuntimeClaims.CountsExactly` | atom-rendering-engine-main/math-atoms-core/src/runtime.rs:174-883 | from a fresh runtime the counters are the drifts marked and the intents that ended proven |
| `RuntimeSends.RunSends` | atom-rendering-engine-main/math-atoms-core/src/runtime.rs:174-883 | over any run, the envelopes on the bus are those of each operation's table, with their layers, kinds and ends, in order, and no others |
| `RuntimeSends.AlarmsExactly` | atom-rendering-engine-main/math-atoms-core/src/runtime.rs:174-883 | an operation raises an alarm on the bus exactly if it leaves the runtime blocked, and one that does not touch the status never does |
| `RuntimeSends.PacketsNamed` | atom-rendering-engine-main/math-atoms-core/src/runtime.rs:575-625 | the envelopes of an accepted report name every packet in the order of the plan, with the evidence of the intent |
| `SecretTexts.AssignmentExactly` | atom-rendering-engine-main/math-atoms-secrets/src/lib.rs:134-222 | an assignment is caught exactly if its label is one of the fifteen, in any ASCII case, and its value is worth hiding; what is caught is the value |
| `SecretTexts.TokenCaught` | atom-rendering-engine-main/math-atoms-secrets/src/lib.rs:134-222 | whatever comes before and behind, an assigned run of token characters is covered whole for each of the fifteen labels in any case, if it has five characters (sixteen for `key`), a letter, and is no harmless word |
| `SecretTexts.FamilyExactly` | atom-rendering-engine-main/math-atoms-secrets/src/lib.rs:49-79 | a run of token characters is caught exactly if it begins like one of the eight families, in any case, at the start of a word, and is longer than twelve |
| `SecretTexts.FamilyCaught` | atom-rendering-engine-main/math-atoms-secrets/src/lib.rs:49-79 | a token of a known family is covered whole |
| `SecretTexts.BearerExactly` | atom-rendering-engine-main/math-atoms-secrets/src/lib.rs:108-132 | behind the word bearer, in any case and as a word, a run of at least five token characters is caught, and a shorter one is not |
| `SecretTexts.BearerCaught` | atom-rendering-engine-main/math-atoms-secrets/src/lib.rs:108-132 | a bearer token is covered whole |
| `SecretTexts.JwtExactly` | atom-rendering-engine-main/math-atoms-secrets/src/lib.rs:81-106 | a run of token characters is caught as a web token exactly if it is three parts of at least six behind an `eyJ`, and at least twenty-four long |
| `SecretTexts.JwtCaught` | atom-rendering-engine-main/math-atoms-secrets/src/lib.rs:81-106 | a web token is covered whole |
| `SecretTexts.PlainKept` | atom-rendering-engine-main/math-atoms-secrets/src/lib.rs:7-24 | a text without `=`, `:`, `eyJ`, the word bearer and the eight prefixes, in any case, is left as it is |
| `Utf8.EncodedMeans` | atom-rendering-engine-main/math-atoms-secrets/src/lib.rs:7-24 | the bytes of a character are those of RFC 3629, section 3 |
| `TextTables.WhitespaceTable` | atom-rendering-engine-main/math-atoms-secrets/src/lib.rs:254-282 | white space is the twenty-five characters with the property White_Space |
| `TextTables.TagMeans` | atom-rendering-engine-main/math-atoms-hash/src/lib.rs:62-70 | a tag is `sha256:` and sixty-four hexadecimal digits |
| `TextTables.CleanTable` | atom-rendering-engine-main/math-atoms-learning/src/lib.rs:938-952 | what is printed of a control character without an escape is a space, and of any other character itself |
| `Sha256Standard.RoundRoots` | atom-rendering-engine-main/math-atoms-hash/src/lib.rs:11-20 | the round constants are the first 32 bits of the fractional parts of the cube roots of the first sixty-four primes |
| `Sha256Standard.InitialRoots` | atom-rendering-engine-main/math-atoms-hash/src/lib.rs:7-9 | the initial hash value is that of the square roots of the first eight primes |
| `Sha256Standard.ChooseBits` | atom-rendering-engine-main/math-atoms-hash/src/lib.rs:93-93 | the choice takes, bit by bit, from the second where the first is set and from the third where it is not |
| `Sha256Standard.MajorityBits` | atom-rendering-engine-main/math-atoms-hash/src/lib.rs:100-100 | the majority has what two of the three agree on |
| `Sha256Standard.BigSigma0Means` | atom-rendering-engine-main/math-atoms-hash/src/lib.rs:99-99 | the first sigma is the parity of the word turned to the right by 2, 13 and 22 |
| `Sha256Standard.BigSigma1Means` | atom-rendering-engine-main/math-atoms-hash/src/lib.rs:92-92 | the second sigma is the parity of the word turned by 6, 11 and 25 |
| `Sha256Standard.SmallSigma0Means` | atom-rendering-engine-main/math-atoms-hash/src/lib.rs:78-80 | the first schedule sigma is the parity of the word turned by 7 and 18 and shifted by 3 |
| `Sha256Standard.SmallSigma1Means` | atom-rendering-engine-main/math-atoms-hash/src/lib.rs:81-83 | the second schedule sigma is the parity of the word turned by 17 and 19 and shifted by 10 |
| `Sha256Standard.WordOfMeans` | atom-rendering-engine-main/math-atoms-hash/src/lib.rs:74-76 | a word is read most significant byte first |
| `Sha256Standard.PaddedMeans` | atom-rendering-engine-main/math-atoms-hash/src/lib.rs:23-30 | padding is the message, a one bit, zeros and the length in bits |
| `Sha256Standard.DigestMeans` | atom-rendering-engine-main/math-atoms-hash/src/lib.rs:31-56 | the digest is the words of the last hash value, most significant byte first, and the tag its bytes in two lower-case digits each |
| `CompactionByRank.CompactedByRank` | atom-rendering-engine-main/avc-core/src/lib.rs:1702-1742 | for a positive budget the compacted text is the pieces of all sections in their original order: whole, cut or nothing by the weight of what goes before in priority |
| `CompactionByRank.NothingCompacted` | atom-rendering-engine-main/avc-core/src/lib.rs:1702-1705 | without a budget everything comes out |

## Left out

- Windows lease, process start ids and the waiting of a lease: foreign calls.
- Crash and power-loss behaviour of single writes: a write that reports success is complete, and one that could succeed
  does. Torn appends to a ledger are not modelled.
- The check of a manifest for dependencies, what a character is quoted as, and the wording of a failure summary are
  arbitrary functions of their inputs.
- Extraction of a file from a provider answer (`validate_secure_file_artifact`) is an arbitrary function.
- Markdown loading, scored retrieval of the graph, and pinning: data and sorting, no invariant of the memory. Titles,
  excerpts, tags and memory keys of a record are given with it.
- Intent classification, recipe choice and stack scoring are inputs of an intent; so is what the files named in a
  provider report recompute to.
- Stores of proofs, work plans, attestation, transport and the native user interface: plumbing around the parts above.
- UTF-8 decoding of files: a file is its text, and one that is not UTF-8 does not occur.
- CandidateLoop.ProviderLoop.CloseCandidate: a write that fails for a reason outside the disk's contents stops the loop
  in the program and does not occur in the model.
- Sha256.Sha256: a byte string in memory; reading a file in order to hash it is not modelled.
- BusInvariants.EmittedMet: an intersection may also name threads that do not know its node, as in the code.
