# RepoGuard safe repair: a verified model

RepoGuard proposes a repair for a finding, validates it in a container, asks for approval, and
publishes it. This project models the parts of that path that must not go wrong and proves what
they promise. Every file is one module; `dafny verify dfyconfig.toml` checks them all.

**Text pipeline.** A scanner pairs BEGIN and END markers, one queue a label (`MarkerPairing`,
`PrivateKeyRanges`). The pairs become separated line ranges; a file without them is the prompt
text (`PrivateKeyRanges`), and the same ranges become a deletion patch (`DeletionPatch`,
`DeletionPlan`). The strict wire-patch parser (`WirePatch`, `WirePatchReader`) is proved to accept
exactly the lines of a declarative grammar (`WirePatchGrammar`, `WirePatchText`,
`HunkHeaders`, `Numerals`), so the generated patch is accepted exactly under a condition that can
be read off the files (`DeletionAcceptance`, `DeletionPlan`), and applying it (`PatchApplication`)
gives exactly the prompt text (`PrivateKeyPlan`). Any edit of a file can be said in a patch that is accepted
(`WholeEdit`), under any ordinary path (`PlainPaths`). The redactor of canonical Git diffs
(`GitDiffHeaders`, `DiffRedaction`, `DiffRedactor`) is an automaton whose output does not depend on
protected text. `DiffGrammar` says what a canonical diff is, without the automaton;
`DiffAcceptance` and `CanonicalDiff` prove that the automaton accepts exactly the canonical diffs that
delete every protected line and keep none as context. `ProtectedLines` is the map of protected lines,
`RedactedPlan` ties the redactor to the deletion plan, and `OtherDeletion` shows a diff of the same two
texts that is refused. `AcceptedHeads` says exactly which header lines the redactor accepts, and that every path
has some. `DiffHunks` holds the collector's hunk parser, which accepts exactly the texts with a layout of
skipped lines and hunks (`PatchLayout`), and the validators of its two consumers,
which differ: the repair input (`src/repoguard/_repair_input.py`) also refuses hunks whose starts are
not strictly ascending, the review agent (`src/repoguard/_agent.py`) does not. The patch format is a
restriction of the unified format of IEEE Std 1003.1-2017, "Diff -u or -U Output Format".

**Packed refs and publication of a ref.** `PackedRefs` states a grammar over whole lines;
`PackedRefScanner` is the byte automaton with bounded buffers; `PackedRefReader` is the scanner over
arbitrary chunks; `PackedFile` shows that the files Git writes are read back. `RefPublication` is the absent-only publication protocol over every interleaving
of publishers and late pushes.

**Sessions.** `SessionModel` holds the event tables and the rules of one event, with the shape rules
of a snapshot from `src/repoguard/repair.py`; `SessionLog` replays a log in full and appends one
event to it; `SessionHistory` proves what every loadable log obeys, `SessionReach` that there are
logs which go all the way, and `SessionTable` that the events which may come next after some log are exactly those
of a table of kinds, states and leases. `DirectoryModel`, `RecordPublishing` and `EventFiles` model the event files as names, inodes and link counts, with a
crash between any two system calls. `SandboxRun` models one validation run against Docker, with the
commands and callbacks of the run and their answers as a ghost history (`World.told`), and
`SandboxLease` shows that each of its lease callbacks is an event which append accepts.

**GitHub publication.** `PublicationRecords` models the compare-and-set record files and their
recovery, `GitHubPublication` the rules of the five records, and `PublicationSessions` the protocol on
the files: recovery runs when the lock is taken, and the calls of one lock session meet whatever an
earlier write of that session left behind. A directory counts its failing calls (`faults`), so that a record method
which neither saves nor refuses is known to have met one; `PublicationRun` puts whole publications
together.

Conventions. A state-changing class or method of the source is a class or method here, proved
against a function of its inputs; recursion over the last element of a sequence replaces quantifiers
over prefixes. What the model cannot see is a parameter: the marker pattern is a function from a
line to its markers, Unicode categories other than Cc are a predicate, digests and encoders are
functions. Where the source splits text with `str.splitlines`, the model does so too (`WirePatch`),
and everywhere else on LF alone.

Assumptions about Docker (`SandboxRun`): an identity printed by a create that exited with status 0 is
that of the container it made; a create client that exited by itself, without timing out or
overrunning its output, has settled its effect (`World.settles`; the theorems about whole runs name
it); a container that `inspect` shows under this run's
labels is this run's; a successful remove means the container is gone. Everything else a command
does is arbitrary. Other processes may end the session at any moment and may clear a bound lease once
the session has ended and the container is gone.

What the source does that its design does not say:

- A protected line that starts with `-- ` makes the deterministic patch unparsable, since the parser
  takes the deletion for a file header (`src/repoguard/_repair_patch.py:122`).
  `DashedKey.DashedKeyIsRejected` gives the failing input through the scan: a BEGIN line, such a line
  and its END line. `PrivateKeyPlan.PreparePlan` says exactly when the patch is accepted.
- Two empty hunks at one place parse, advance and pass the review agent, and the repair input refuses
  them (`DiffHunks.EmptyHunksRepeat`); `DiffHunks.ParsedPasses` says exactly when it accepts.
- A record write whose unlink fails leaves its temporary, and every later call under the same lock
  reads the store as corrupt, although the records are sound:
  `PublicationSessions.FailedUnlinkReadsCorrupt` gives the disk, and
  `PublicationSessions.CorruptExactlyWhileStuck` the exact condition. The next lock session recovers.
- A diff between the original and the prompt text may be refused by the redactor although another one
  between the same texts is accepted: for lines BEGIN, key, END, BEGIN, lines 2 to 4 may be shown as the
  deleted ones (`OtherDeletion.OtherDeletionRefused`); `CanonicalDiff.AcceptsExactly` says exactly when
  a diff is accepted.
- The transition table lists APPLYING to CANCELLED and to FAILED, which no event realises
  (`SessionModel.TransitionsRealised`).
- The sandbox takes the exit of a failed create client for the daemon's answer; that is safe exactly
  when nothing is left to come (`SandboxRun.SettlingIsNeeded`).

## Model

| member | source | states |
|---|---|---|
| LineSplitting.LinesSound | src/repoguard/_repair_secrets.py:740-748 | Splitting into lines that keep their terminator loses nothing, and only the last line may lack one |
| LineSplitting.LinesUnique | src/repoguard/_git.py:1237-1246 | There is no other way to cut a text into such lines |
| PackedRefs.RefNameDecided | src/repoguard/_repair_git.py:1779-1808 | The byte-by-byte name checks and the end-of-line check together accept exactly the reference names of the declarative rules |
| PackedRefs.DecideIsGrammar | src/repoguard/_repair_git.py:1720-1778 | Line by line acceptance is the whole-file grammar (header only first, peeled only after direct, target unique), and the object found is the target's |
| PackedRefs.RejectionIsFinal | src/repoguard/_repair_git.py:1720-1778 | Once a line is refused no later line makes the file acceptable |
| PackedRefScanner.VerdictIsGrammar | src/repoguard/_repair_git.py:1720-1778 | The bounded fields kept for a line decide it exactly as the line itself would |
| PackedRefScanner.EntryMeans | src/repoguard/_repair_git.py:1779-1846 | On every entry line the fields hold the bounded object id and the verdicts on the name read so far |
| PackedRefScanner.BuffersAreBounded | src/repoguard/_repair_git.py:1687-1846 | The id buffers stay within expected length + 1, the suffix within 5 bytes, the header prefix within the header |
| PackedRefScanner.EntryDecided | src/repoguard/_repair_git.py:1853-1863 | A direct line is exactly one with an id of the expected length before the first separator and a good name after it |
| PackedRefReader.FinishLine | src/repoguard/_repair_git.py:1720-1778 | The end-of-line decision is the verdict of the fields |
| PackedRefReader.ConsumeRefByte | src/repoguard/_repair_git.py:1779-1808 | One byte of a name updates the fields as the automaton says |
| PackedRefReader.ConsumeByte | src/repoguard/_repair_git.py:1809-1846 | One byte of any other part does |
| PackedRefReader.ScanByte | src/repoguard/_repair_git.py:1820-1846 | The scanner always knows the finished lines and the current one; it stops only at a line the grammar refuses |
| PackedRefReader.ScanPackedRepairRef | src/repoguard/_repair_git.py:1687-1846 | For every cut into chunks it accepts exactly the well-formed files, counts all bytes and returns exactly the target's object |
| PackedFile.PrintedIsRead | src/repoguard/_repair_git.py:1687-1846 | A file as Git writes it, header, entries and peeled lines, is acceptable whatever name is looked for, and gives exactly the object of that name |
| PackedFile.OidExactly | src/repoguard/_repair_git.py:1853-1863 | An object ID is exactly one whose lower case has the expected length, only digits of that case and not only zeros; the lower case is what a look-up returns |
| RefPublication.ReadRepairRef | src/repoguard/_repair_git.py:1224-1390 | A loose ref wins over a packed one, and an unreadable one is an error, never "absent" |
| RefPublication.PackingKeepsTheValue | src/repoguard/_repair_git.py:1224-1390 | Moving a loose ref into the packed file does not change what is read |
| RefPublication.StepKeeps | src/repoguard/_repair_git.py:1392-1489 | Every step of any publisher or of the server keeps every ended publisher truthful and a set ref unchanged |
| RefPublication.RunKeeps | src/repoguard/_repair_git.py:1392-1489 | Over every interleaving the ref is set at most once, to some publisher's commit |
| RefPublication.SuccessIsExclusive | src/repoguard/_repair_git.py:1392-1489 | Publishers of different commits never both succeed, and a success stays true forever |
| RefPublication.LandedPushIsDecided | src/repoguard/_repair_git.py:1470-1489 | A publisher whose push landed never reports failure when it reads back |
| RefPublication.PublishedByPush | src/repoguard/_repair_git.py:1480-1487 | Over every run a publisher says "published" only after its push exited well, and "already present" only without a push or after one that failed |
| RefPublication.EveryVerdictHappens | src/repoguard/_repair_git.py:1392-1489 | Each verdict is reached: with an absent ref, by whether the push landed and how it exited; with a set one, by the first read alone |
| RefPublication.RefStore.PublishRepairRef | src/repoguard/_repair_git.py:1392-1489 | The verdict in terms of what was read first, how the push exited and what was read back, whatever raises; a returned success or conflict is true of the ref, and no run changes a ref that was set |
| MarkerPairing.EarliestBeginsMatched | src/repoguard/_repair_secrets.py:477-499 | Per label the matched BEGINs are exactly the earliest, in order, and the rest wait |
| MarkerPairing.FifoAscends | src/repoguard/_repair_secrets.py:477-499 | Each marker is used once, every BEGIN before its END, and pairs do not cross in order |
| MarkerPairing.FifoIsMaximum | src/repoguard/_repair_secrets.py:477-499 | No other matching of BEGINs with later ENDs of the label has more pairs |
| MarkerPairing.PairedIffBeginBeforeEnd | src/repoguard/_repair_secrets.py:477-499 | A label has a pair exactly when some BEGIN stands before an END |
| MarkerPairing.NoPairAfterRemoval | src/repoguard/_repair_secrets.py:529-539 | Lines left after removing every protected line hold no pair of any label |
| PrivateKeyRanges.PairedRanges | src/repoguard/_repair_secrets.py:477-499 | The scanner with its queues finds exactly the FIFO pairs of every label |
| PrivateKeyRanges.UniqueProtectedRanges | src/repoguard/_repair_secrets.py:502-512 | The distinct coordinates of the matches, strictly sorted |
| PrivateKeyRanges.CoalesceRanges | src/repoguard/_repair_secrets.py:515-526 | Ranges become separated, and no line is gained or lost |
| PrivateKeyRanges.SeparatedIsCanonical | src/repoguard/_repair_secrets.py:515-526 | A set of lines has only one separated description |
| PrivateKeyRanges.RemovedLines | src/repoguard/_repair_secrets.py:529-539 | The lines of the sanitised text are the kept lines of the original |
| PrivateKeyRanges.SanitisedHasNoPair | src/repoguard/_repair_secrets.py:529-539 | Scanning the sanitised text finds no pair, whatever the marker function |
| PrivateKeyRanges.ValidateFinalFile | src/repoguard/_repair_secrets.py:239-256 | The final check accepts exactly the files without a pair |
| PrivateKeyRanges.SanitizeFile | src/repoguard/_repair_secrets.py:160-188 | The result keeps every unprotected line, passes the final check, and is the input when there was no pair |
| HunkHeaders.ParsePrintedHeader | src/repoguard/_repair_patch.py:228-243 | Every spelling of the coordinates parses back |
| HunkHeaders.HeaderIsPrinted | src/repoguard/_repair_patch.py:228-243 | Nothing but a printed header parses |
| WirePatchGrammar.FilesSound | src/repoguard/_repair_patch.py:76-178 | Accepted files are well formed, within limits, and spelled by all the lines |
| WirePatchGrammar.FilesComplete | src/repoguard/_repair_patch.py:76-178 | Lines that spell a well-formed patch within limits are read as that patch |
| WirePatchText.RoundTrip | src/repoguard/_repair_patch.py:62-178 | Parsing a printed well-formed patch returns the same patch and its number of changed lines |
| WirePatchText.AcceptsExactly | src/repoguard/_repair_patch.py:62-201 | A text is accepted exactly when it passes the text checks and its lines spell a well-formed patch within limits, which is then returned |
| WirePatchText.HunkSpelling | src/repoguard/_repair_patch.py:62-259 | Every hunk of an accepted text stands in it, its header in one of four spellings and each body line in its only one |
| WirePatchText.HeadSpelling | src/repoguard/_repair_patch.py:202-225 | The two header lines of every accepted file stand in the text, printed exactly for its path, old name, new name and all |
| WirePatchText.HunksAdvance | src/repoguard/_repair_patch.py:150-170 | Hunks of an accepted file are disjoint and in order on both sides, with counts that match and a change each |
| WirePatchText.FilesAscend | src/repoguard/_repair_patch.py:98-100 | Any two files of an accepted patch, not only neighbours, stand in strict path order |
| WholeEdit.EditIsAccepted | src/repoguard/_repair_patch.py:62-178 | Any two texts, not both empty, under any allowed path, of a new file or not: the patch from the one to the other is accepted when no deleted line starts with "-- ", the characters may stand in a patch and the limits hold; applying what was read gives the new text |
| PlainPaths.SplitUndoesJoin | src/repoguard/_repair_paths.py:18-25 | Splitting a path at its slashes gives back the components it was joined from |
| PlainPaths.PathExactly | src/repoguard/_repair_paths.py:9-26 | The repository paths are exactly the texts made by joining components that are no dots, no ".git" in any case and not too long, of allowed characters, not too long and without spaces at the ends |
| PlainPaths.PlainPathIsAccepted | src/repoguard/_repair_paths.py:9-26 | Every path of ordinary components, not too long, is a repository path |
| WirePatchReader.ReadBody | src/repoguard/_repair_patch.py:112-147 | The inner loop reads the body and counts both sides and the changes |
| WirePatchReader.ReadHunks | src/repoguard/_repair_patch.py:104-170 | The hunk loop and its running count are the functional parser's |
| WirePatchReader.ReadOneFile | src/repoguard/_repair_patch.py:85-178 | One round of the outer loop reads the headers and hunks of one file as the functional parser does, and keeps the running count |
| WirePatchReader.ReadWirePatch | src/repoguard/_repair_patch.py:62-178 | The cursor loops with their counters compute the functional parser |
| DeletionPatch.DeletionHunksOk | src/repoguard/_repair_secrets.py:555-565 | The generated hunks are well formed and delete exactly as many lines as the ranges cover |
| DeletionPatch.ApplyIsSanitise | src/repoguard/_repair_secrets.py:529-566 | Applying the generated hunks gives exactly the sanitised text, for every text and ranges, with or without a final newline |
| DeletionAcceptance.AcceptedIsPrinted | src/repoguard/_repair_patch.py:62-178 | A printed patch of deletions that is accepted has no deletion like a header, no foreign line break, and is within limits |
| DeletionPlan.PlanIsWellFormed | src/repoguard/_repair_secrets.py:542-566 | The generated patch is well formed and its changed lines are the protected lines |
| DeletionPlan.AcceptedExactly | src/repoguard/_repair_secrets.py:177-189 | The parser accepts the generated patch if and only if the limits hold, no protected line starts with "-- " and no path or protected line has a rejected or breaking character; then it reads the patch that was meant |
| DeletionPlan.DeletionPatchSource | src/repoguard/_repair_secrets.py:542-566 | The nested loops write exactly the printed deletion patch, and nothing when no file is protected |
| PrivateKeyPlan.CollectRanges | src/repoguard/_repair_secrets.py:152-175 | The ranges compared with the selected ones are exactly those of the matched pairs of the allowed files |
| PrivateKeyPlan.PlanIsUnique | src/repoguard/_repair_secrets.py:177-189 | The files and the marker function leave one plan |
| PrivateKeyPlan.PreparePlan | src/repoguard/_repair_secrets.py:134-199 | Selected ranges that are not the scanned ones are refused; else every prompt file has exactly the unprotected lines of its file, in order, whatever becomes of the patch; a patch exists exactly when some file holds a pair, the parser accepts it exactly when the limits hold and every file is deletable, and then it turns the files into exactly the prompt files |
| DashedKey.DashedKeyIsRejected | src/repoguard/_repair_patch.py:115-125 | A scanned key with a line that starts with "-- " has a well-formed deletion patch which the parser refuses, whatever the limits |
| GitDiffHeaders.QuoteRoundTrip | src/repoguard/_repair_secrets.py:667-700 | Decoding a quoted path returns it |
| AcceptedHeads.IndexExactly | src/repoguard/_repair_secrets.py:33-36 | The accepted index lines are exactly two object names of one length, 40 or 64 hexadecimal digits, and perhaps one of two modes |
| AcceptedHeads.UnescapeExactly | src/repoguard/_repair_secrets.py:680-700 | Unescaping succeeds exactly when every backslash stands before a quote, and drops them |
| AcceptedHeads.FilePathExactly | src/repoguard/_repair_secrets.py:641-700 | The path lines are accepted exactly when both name one repository path, plain or quoted, or the first is that of a new file |
| AcceptedHeads.StartExactly | src/repoguard/_repair_secrets.py:703-721 | The accepted hunk headers are exactly the four spellings of coordinates with a real start on every side that has lines |
| AcceptedHeads.EveryPathIsAccepted | src/repoguard/_repair_secrets.py:280-308 | Every repository path, new or not, plain where it holds no quote and quoted always, has headers that are accepted, with object names of either length and any mode |
| DiffRedaction.RedactionIsBlind | src/repoguard/_repair_secrets.py:259-366 | A diff that differs from an accepted one only in the text of protected deletions is accepted and redacts to the same output |
| DiffRedaction.WholeOutput | src/repoguard/_repair_secrets.py:309-351 | Line for line the output is the input, but the sentinel at protected deletions |
| DiffRedaction.ProtectedLinesAreDeleted | src/repoguard/_repair_secrets.py:326-366 | In an accepted diff every protected line is met as a deletion and none as context |
| DiffRedaction.RedactTwice | src/repoguard/_repair_secrets.py:259-366 | Redacting again changes nothing |
| DiffRedactor.JudgeLine | src/repoguard/_repair_secrets.py:322-346 | One content line is judged as the automaton judges it |
| DiffRedactor.ReadPathLines | src/repoguard/_repair_secrets.py:287-306 | The path lines are accepted exactly as the automaton does, in ascending path order |
| DiffRedactor.RedactPrivateKeyDiff | src/repoguard/_repair_secrets.py:259-366 | The nested loops accept and redact exactly as the automaton |
| DiffAcceptance.StepperMirrors | src/repoguard/_repair_secrets.py:276-358 | At every line the automaton moves exactly when the lines read so far begin a canonical diff, unless the line keeps a protected one |
| CanonicalDiff.RunReads | src/repoguard/_repair_secrets.py:276-358 | The lines the automaton runs through are exactly those that begin a canonical diff and keep no protected line; it has then seen exactly the protected lines they delete |
| CanonicalDiff.AcceptsExactly | src/repoguard/_repair_secrets.py:259-366 | The redactor accepts exactly the lines that spell a canonical diff in which every protected line is deleted and none is context |
| CanonicalDiff.DiffsUnique | src/repoguard/_repair_secrets.py:276-358 | No lines spell two canonical diffs |
| ProtectedLines.ProtectedLineMap | src/repoguard/_repair_secrets.py:569-620 | Valid, strictly ascending ranges with at most 10000 distinct lines give the map of exactly their lines; all others are refused |
| ProtectedLines.ScanProtectedRanges | src/repoguard/_repair_secrets.py:502-512 | The distinct ranges of any scan, nested and overlapping ones included, are valid and strictly ascending, as the map asks |
| ProtectedLines.MapOfScan | src/repoguard/_repair_secrets.py:569-620 | The ranges of any scan give a map of exactly their lines, unless they name more than 10000 |
| ProtectedLines.ListedIsPlanned | src/repoguard/_repair_secrets.py:160-189 | The lines of the ranges that the scan reports are exactly the lines that the plan deletes |
| RedactedPlan.ExactIsAccepted | src/repoguard/_repair_secrets.py:322-366 | A canonical diff with its hunks in order that deletes exactly the protected lines is accepted |
| RedactedPlan.PlanIsRedacted | src/repoguard/_repair_secrets.py:259-366 | Given the ranges of the scan, such a diff of exactly the planned lines is accepted and shows the sentinel for each of its deletions |
| OtherDeletion.WholeDiffAccepted | src/repoguard/_repair_secrets.py:322-366 | A diff that shows a file whole is accepted exactly when every protected line is one of the lines it deletes |
| OtherDeletion.EveryDeletionIsAccepted | src/repoguard/_repair_secrets.py:259-366 | For every path, however it is written, new or not, every text and every set of its lines that contains the protected ones, the diff that deletes those lines is accepted |
| OtherDeletion.OtherDeletionRefused | src/repoguard/_repair_secrets.py:326-330 | For lines BEGIN, key, END, BEGIN two canonical diffs lead to the same prompt text, and the one that keeps line 1 is refused |
| DiffHunks.ParsedIsSound | src/repoguard/_git.py:1131-1234 | Parsed lines are numbered consecutively on each side and counted by their header |
| DiffHunks.PrintParse | src/repoguard/_git.py:1131-1234 | Parsing undoes printing for every list of sound hunks |
| DiffHunks.ReadRaw | src/repoguard/_git.py:1164-1232 | One raw line updates header, lines and counters as specified, and fails exactly when the specification does |
| DiffHunks.ParseHunks | src/repoguard/_git.py:1131-1234 | The loop that rewrites the last line in place computes the parse, on all texts and also when it fails |
| PatchLayout.ParsesExactly | src/repoguard/_git.py:1131-1234 | The parser succeeds on exactly the texts with a layout, which are skipped lines, hunk headers, and bodies that fill them or end at a line of another kind, and returns its hunks; on all others it fails |
| PatchLayout.GitPatchParses | src/repoguard/_git.py:1177-1234 | A whole Git patch, with any file lines before the hunks of each file, parses to exactly the hunks of all its files, in order |
| DiffHunks.ValidateLine | src/repoguard/_agent.py:839-870 | A line is accepted exactly when its numbers are the expected ones, real and unused |
| DiffHunks.ValidateHunk | src/repoguard/_agent.py:804-836 | A hunk is accepted exactly when it is sound and its numbers are real and unused; they are then used |
| DiffHunks.ValidateHunks | src/repoguard/_agent.py:769-776 | The review agent accepts all hunks of a file exactly when each is sound with real numbers that no earlier one uses |
| DiffHunks.ValidateInputHunks | src/repoguard/_repair_input.py:715-724 | The repair input accepts exactly the same hunks whose starts, besides, ascend strictly |
| DiffHunks.ParsedPasses | src/repoguard/_repair_input.py:715-799 | Parsed hunks that advance always pass the review agent; they pass the repair input exactly when none starts where the one before starts, which non-empty hunks never do |
| DiffHunks.EmptyHunksRepeat | src/repoguard/_repair_input.py:721-724 | Two empty hunks at one place pass the one and not the other |
| DiffHunks.OrderMatters | src/repoguard/_repair_input.py:721-724 | Hunks in descending order pass the one and not the other |
| SessionModel.TransitionsRealised | src/repoguard/_repair_models.py:67-115 | Events realise every listed transition but APPLYING to CANCELLED and APPLYING to FAILED |
| SessionTable.RealisedExactly | src/repoguard/_repair_store.py:43-141 | Whatever the digests, an event of a kind may come next after some loadable log, from one state and lease to another, exactly when the table lists it; each of the table's rows has such a log |
| SessionTable.MayEnd | src/repoguard/_repair_store.py:78-101 | Wherever a log ends in a state that may be cancelled, expired or fail, that ending is accepted next, with the lease carried or dropped as the table says |
| SessionTable.MayComplete | src/repoguard/_repair_store.py:103-104 | Wherever a log ends with a session that is over and owes its cleanup, its completion is accepted next |
| SessionTable.MayBind | src/repoguard/_repair_store.py:2093-2117 | Wherever a log ends with an intent, binding its container is accepted next, in an ended session too |
| SessionLog.LoadEventChain | src/repoguard/_repair_store.py:1853-1935 | The loop over the events computes the full replay, or refuses exactly when it does |
| SessionLog.PrefixLoadable | src/repoguard/_repair_store.py:1853-1935 | Every non-empty prefix of a loadable log is loadable |
| SessionLog.EveryEventCanBeAppended | src/repoguard/_repair_store.py:588-670 | Whatever event replay would accept next, some request appends exactly that event |
| SessionLog.Judge | src/repoguard/_repair_store.py:588-655 | The checks of append accept exactly the requests whose event replay accepts |
| SessionLog.SessionStore.Load | src/repoguard/_repair_store.py:570-586 | A load returns the replay and leaves a writable cache equal to it |
| SessionLog.SessionStore.Append | src/repoguard/_repair_store.py:588-685 | Append succeeds exactly when the longer log replays; it then returns and caches that replay; otherwise no event is written |
| SessionHistory.HistoryExtends | src/repoguard/_repair_store.py:1958-1995 | Over every loadable log records and preview are write-once, identity is fixed, time does not run back, terminal states absorb |
| SessionHistory.AlwaysFits | src/repoguard/repair.py:1850-1933 | At every event application, decision and failure are present exactly in their states, approval where required, a preview exactly with a candidate, pending cleanup only when terminal |
| SessionHistory.ApplicationsBalance | src/repoguard/_repair_store.py:43-104 | Applying events equal conflicts plus recoveries plus one if the session is applying or applied |
| SessionHistory.LeaseAlwaysFits | src/repoguard/_repair_store.py:2044-2117 | A lease exists only in the carrying states, names the session's candidate, and agrees with the one container ever bound |
| SessionHistory.OneContainer | src/repoguard/_repair_store.py:2044-2117 | At most one container is ever bound in a session |
| SessionHistory.NothingAfterRun | src/repoguard/_repair_store.py:2044-2117 | After a container is bound no intent is made or dropped and no container is bound |
| SessionHistory.IntentBeforeRun | src/repoguard/_repair_store.py:2044-2105 | A bound lease comes from an earlier intent with the same name, labels and token |
| SessionHistory.ValidatedUnderLease | src/repoguard/_repair_store.py:2044-2092 | A validation record was made under the bound lease, for the candidate it names |
| SessionHistory.NoLeaseAfterCleanup | src/repoguard/_repair_store.py:2082-2092 | After cleanup is complete there is never a lease |
| SessionHistory.AppliedProvenance | src/repoguard/_repair_store.py:1853-1935 | An applied session was made, intended, run, found good, approved and applied, in that order, and all are about one candidate and commit |
| SessionHistory.SameDigestSameLog | src/repoguard/_repair_store.py:1853-1935 | Two loadable logs with one final digest are the same log, or exhibit two events with one digest |
| SessionHistory.RecordsCarryDigests | src/repoguard/_repair_store.py:1958-1995 | At every event of a loadable log each record carries the digest of its own fields and of those it builds on, for this session and the event's time |
| SessionReach.AppliedIsReachable | src/repoguard/_repair_store.py:43-104 | Whatever the digests, some loadable log ends applied and cleaned up |
| DirectoryModel.RemoveTemporary | src/repoguard/_repair_store.py:2376-2392 | Removing a temporary keeps the directory recoverable and every record as it was |
| RecordPublishing.EveryStageRecovers | src/repoguard/_repair_store.py:2395-2460 | A writer that dies at any stage leaves the old records or those with the complete new one, and nothing recovery does not understand |
| RecordPublishing.WriteAll | src/repoguard/_github_store.py:1721-1727 | Short writes lose nothing, and a crash leaves a prefix |
| RecordPublishing.Publish | src/repoguard/_github_store.py:1640-1674 | Open, write, chmod, link, unlink end at exactly one of the named stages |
| EventFiles.WriteEvent | src/repoguard/_repair_store.py:2395-2460 | An event write is all or nothing, and it leaves no temporary unless the process died or the last unlink failed too |
| EventFiles.CleanupStaleTemps | src/repoguard/_repair_store.py:2347-2392 | Whatever a crash left is cleaned up, all link counts are 1, and no record changes |
| EventFiles.ReadLog | src/repoguard/_repair_store.py:1853-1868 | Reading returns the log exactly when the directory holds one, event for event |
| EventFiles.AppendAcrossCrash | src/repoguard/_repair_store.py:2347-2460 | A crash at any step and the next load give the state before the event or after it, never a failure |
| EventFiles.AppendThroughCrash | src/repoguard/_repair_store.py:588-685 | A whole append on the files: it is accepted exactly when the longer log replays; whatever step the process dies at, the next load gives the log before or the log with exactly the event asked for |
| PublicationRecords.WriteCasRecord | src/repoguard/_github_store.py:1607-1699 | The same bytes again succeed, other bytes conflict, and any interruption leaves the record absent or complete and the rest untouched |
| PublicationRecords.RecoverRecordTemporary | src/repoguard/_github_store.py:1281-1472 | Recovery succeeds exactly when there is no temporary or one that is removable by its mode, links, size and record; it then removes that and nothing else, and it accepts whatever a crashed write left |
| PublicationRecords.FindLinkedRecord | src/repoguard/_github_store.py:1315-1336 | It finds a record exactly when one and only one shares the temporary's inode and fits its limit, which is so after any crash |
| PublicationRecords.WriteRecoverRetry | src/repoguard/_github_store.py:1607-1699 | Crash, recovery and retry: the retry is refused exactly when a record with other bytes is there, and succeeds when it holds the same |
| PublicationSessions.CorruptExactlyWhileStuck | src/repoguard/_github_store.py:757-802 | Once the proposal exists, the status of a sound store reads as corrupt exactly while a temporary is left over |
| PublicationSessions.FailedUnlinkReadsCorrupt | src/repoguard/_github_store.py:1656-1698 | An approval that is linked while the unlink of its temporary fails leaves a sound store with every record in place that reads as corrupt |
| GitHubPublication.StatusTellsOneStory | src/repoguard/_github_store.py:757-802 | A status that loads is about one proposal: bound if it is a repair, approved while it was valid, its branch and final result under that approval and in time order |
| PublicationSessions.LockedPublication.LoadStatus | src/repoguard/_github_store.py:757-802 | The status is read from the files: any foreign name, unreadable or undecodable record, or records that do not fit are corruption |
| PublicationSessions.LockedPublication.CheckProposal | src/repoguard/_github_store.py:702-748 | What is checked before a proposal is written, and that a sound store without leftovers is never called corrupt |
| PublicationSessions.LockedPublication.RecordProposal | src/repoguard/_github_store.py:696-755 | Exactly when a proposal is refused and when it clashes; contents are written once, the binding comes first, a repeated call changes nothing, and unless a call to the file system failed both records are there |
| PublicationSessions.LockedPublication.RecordApproval | src/repoguard/_github_store.py:605-621 | Corruption is reported exactly when the status does not load; else the approval is refused exactly when it does not fit the proposal or its bound, clashes exactly with another one, and is saved unless a call to the file system failed |
| PublicationSessions.LockedPublication.RecordPartialResult | src/repoguard/_github_store.py:623-659 | The same for the branch result: refused exactly unless it is made under the saved approval of a repair, and clashing exactly with another one or with a final result that is not about it |
| PublicationSessions.LockedPublication.RecordResult | src/repoguard/_github_store.py:661-694 | The same for the final result: refused exactly unless it fits the saved approval, and clashing exactly with another one or with a branch result of another recovery; a check has no branch result and needs none |
| PublicationSessions.RunSession | src/repoguard/_github_store.py:418-438 | One lock session: recovery first; then corruption is read after a write of this session that left a temporary, and never before |
| PublicationSessions.RunSessions | src/repoguard/_github_store.py:605-802 | Over any sessions, failures and crashes no content changes, what was saved stays saved, and every session obeys that rule once the proposal exists |
| PublicationRun.PublishCheck | src/repoguard/_github_store.py:605-755 | On an empty store, with no call failing, the proposal, approval and result of any check are saved one after the other, and the store holds exactly them |
| PublicationRun.PublishRepair | src/repoguard/_github_store.py:605-755 | So are the binding, proposal, approval, branch and pull request of any repair |
| SandboxRun.ReleaseIsSafe | src/repoguard/_repair_sandbox.py:2337-2416 | Letting go of the lease is safe exactly when the container is gone and no create is to come |
| SandboxRun.SettlingIsNeeded | src/repoguard/_repair_sandbox.py:2250-2256 | After a failed create and an empty listing, every way the handling can go is without an orphan exactly when a client that exited by itself left nothing to come |
| SandboxRun.CreateContainerId | src/repoguard/_repair_sandbox.py:2231-2259 | A create that fails authoritatively has nothing to come, and an id it gives is the container's |
| SandboxRun.RemoveOrConfirm | src/repoguard/_repair_sandbox.py:2337-2416 | It says yes only when the container is gone for good |
| SandboxRun.TryRun | src/repoguard/_repair_sandbox.py:1985-2028 | However the guarded part ends, the handlers know whether a container may exist |
| SandboxRun.HandleNamedFailure | src/repoguard/_repair_sandbox.py:2029-2045 | A failed create with a known id ends without an orphan |
| SandboxRun.HandleUnboundFailure | src/repoguard/_repair_sandbox.py:2046-2053 | Without an id the intent goes only with the container |
| SandboxRun.HandleException | src/repoguard/_repair_sandbox.py:2055-2068 | Any other exception ends without an orphan |
| SandboxRun.FinishesExactly | src/repoguard/_repair_sandbox.py:1985-2084 | A run finishes exactly when both checks, the create, the registration and the start went well and the removal answered; its cleanup is pending exactly when that answer was not yes |
| SandboxRun.Execute | src/repoguard/_repair_sandbox.py:1965-2084 | The history of the run is one of these, with each handler's part; when clients settle every exit is without an orphan, and an outcome without pending cleanup means the container is gone |
| SandboxRun.RunSandboxValidation | src/repoguard/_repair_sandbox.py:1667-1756 | The whole run, from intent on, over every outcome of Docker and the session: a refused intent ends it, an accepted one is followed by exactly such an execution, and it is without an orphan when clients settle |
| SandboxRun.Validate | src/repoguard/_repair_workflow.py:677-741 | A good run whose container was removed, in a session that still validates under its lease, ends as its report says with nothing left over; any validation with what is persisted after it is without an orphan, and after a result or a recorded error the session no longer validates |
| SandboxRun.World.RegisterRun | src/repoguard/_repair_workflow.py:2033-2068 | The container is bound to the intent even when the session has ended, and accepted only while validating |
| SandboxRun.World.ReleaseIntent | src/repoguard/_repair_workflow.py:2102-2143 | The call drops an intent and nothing else; a bound lease can only be cleared meanwhile by others, for an ended session whose container is gone |
| SandboxRun.World.ReleaseRun | src/repoguard/_repair_workflow.py:2146-2181 | A bound lease is dropped only for a session that has ended |
| SandboxRun.FinishValidation | src/repoguard/_repair_workflow.py:2213-2295 | How the session ends, exactly, in terms of its state and lease, the pending cleanup and the report; the lease is cleared only for a container that is gone |
| SandboxRun.PersistFailure | src/repoguard/_repair_workflow.py:2396-2460 | The session fails, a bound container is removed before its lease is cleared, an intent stays |
| SandboxRun.RemoveExact | src/repoguard/_repair_sandbox.py:1824-1902 | The answer in terms of what the commands said; a yes means the bound container is gone |
| SandboxLease.LeaseOwesCleanup | src/repoguard/_repair_store.py:1958-2092 | While an ended session has a lease, its cleanup is pending |
| SandboxLease.FinishIsAccepted | src/repoguard/_repair_workflow.py:2213-2295 | Each way to end a recorded validation is an event that append accepts, with the lease dropped or carried as said |
| SandboxLease.RegisterIntent | src/repoguard/_repair_workflow.py:2071-2099 | The callback appends one accepted event and leaves the intent, or changes nothing |
| SandboxLease.RegisterRun | src/repoguard/_repair_workflow.py:2033-2068 | One accepted event binds this run's intent, in an ended session too; the answer is yes only while validating |
| SandboxLease.ReleaseIntent | src/repoguard/_repair_workflow.py:2102-2143 | One accepted event drops exactly this intent, or nothing changes |
| SandboxLease.ReleaseRun | src/repoguard/_repair_workflow.py:2146-2181 | One accepted event drops exactly this bound lease, and only for a session that has ended |

## Left out

- Process, pipe, thread and selector handling, timeouts, and the text of Docker and Git commands: their results are nondeterministic here.
- JSON, UTF-8 decoding, Unicode tables, SHA-256 and HMAC: parameters. Characters are code points, so lone surrogates are not part of this model.
- Owner, device, mount and descriptor re-checks, durability of `fsync`, file locks and their timeouts: exclusive access is assumed inside a lock.
- Sorting of matches by path and label: ranges are handled one file at a time, files in path order.
- Limits on event and record bytes in the session store, the sixteen-digit bound on event names, and Python's limit on the digits of an `int`.
- Non-ASCII case folding in the check for `.git` path components.
- The header pattern of the collected diff (`src/repoguard/_git.py:37-40`) beyond what printing needs: section headings and leading zeros are behind a parameter.
- Budgets and deadlines of the collector, candidate generation, prompts, providers, previews, approval texts and retention.
- What the checks of `_publish_repair_ref` look at (identity, reflog, storage format, source commit): each may refuse at its place.
- The sandbox report, its authentication, and the corroboration of container state: any of them may raise here.
- Recovery of whole sessions by the maintenance job beyond removal of a bound container.
- SessionLog.SessionStore.Append: does not model the event file itself; the append on the files, with a crash, is `EventFiles.AppendThroughCrash`.
- PublicationSessions.RunSession: does not model the directories and locks above the record files, nor the re-validation of their identity.
- SandboxRun.World.RegisterRun: does not model the log; that each callback is one accepted event is `SandboxLease`.
