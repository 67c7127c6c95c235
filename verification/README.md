# TraceFix: a verified model

TraceFix repairs one failing case at a time: it parses an untrusted unified diff, applies it
exactly to a copy of a fingerprinted repository, gates the copy through policy, static checks
and a sandboxed verification, and routes the run to one terminal outcome with a record of it.
This project models those parts in Dafny and proves what they promise, for every input, every
run and every behaviour of the boundaries they call.

Run `dafny verify dfyconfig.toml` to verify everything.

## The parts

- **Unified diffs.** `UnifiedDiff` is the reader, one line at a time; `DiffHeaders` writes out what its
  header lines say; `DiffParser` is the loop over mutable builders, proved equal to the reader;
  `DiffGrammar` is a recursive grammar with a meaning, which the reader refines in both directions, and
  `DiffUnambiguous` shows that lines have one derivation at most; `DiffMarkers` says which derivations
  have a meaning; `DiffShape` is what every parsed diff satisfies; `DiffPrinter` prints diffs that
  parse back.
- **Applying.** `Utf8` and `SourceText` turn bytes into lines and back; `PatchApply` specifies the
  exact hunk loop by gaps and sides, `PatchLoop` is the loop; `PatchReverse` says when a patch can be
  undone; `StagedTree` applies a diff to a tree and checks which files changed; `PolicyResult` and
  `CandidateEvaluation` bound and count the change.
- **Fingerprints.** `Fingerprint` is the byte stream as a function of a tree; `FingerprintWalks` has
  the two walks that produce it.
- **Context.** `ContextBudget` drops candidates until the package fits; `StaticClosure` collects the
  definitions a name leads to.
- **Gates.** `StaticGate` and `Verification` are step protocols over a host and a sandbox any of whose
  calls may fail, and which may change what they are given.
- **Runs.** `RunGraph` is the eleven-node state machine with its validator and routing; `RunEvidence`
  is what a run keeps of its boundaries' answers; `RunArtifact` is the record and its own validator.
- **Arithmetic.** `Cost` shows that no rounding takes place; `BoundedOutput` cuts output at whole
  characters.

Where the code works by steps the model is a class or a method with loops, proved against a function
or a predicate; where it is made of expressions the model is a function with lemmas. Case folding,
the portability of a path, the digest, and which file names are Python's are parameters, so every
statement holds for any of them. Text is a sequence of Unicode scalar values.

## What turned out false, and what holds instead

- A modification of a newline-terminated CRLF file that leaves nothing cannot be undone
  (`PatchReverse.TerminatedReversible` gives the exact condition), nor can an insertion after an
  unterminated line (`PatchReverse.InsertAfterUnterminatedLine`;
  `PatchReverse.UnterminatedReversible` gives the exact condition).
- A created file that is flagged as unterminated and whose last line is empty cannot be deleted by the
  swapped patch (`PatchReverse.CreateFlaggedEmptyLine`, `PatchReverse.CreationReversible`).
- A package that drops two items of one path and kind is refused by its own validator
  (`ContextBudget.AcceptedExactly`, `ContextBudget.SharedPlaceRefused`). So is one that drops nothing,
  when a traceback names two lines of one Python file that is missing, unreadable or denied: both give
  the same omission (`ContextBudget.TwoFramesRefused`).
- More is collected than references lead to when a definition takes an attribute of a name that it
  binds itself, and another one selected with it loads the module imported under that name
  (`StaticClosure.ShadowedCollectsMore`; `StaticClosure.CollectFrom` bounds how much).
- A directory made by a call that then fails is not cleaned up: the static gate leaves something
  behind without saying so exactly in that case (`StaticGate.Gate.Validate`).
- Evidence of a timeout or of the memory limit together with a changed candidate or a failed removal
  makes verification raise instead of returning (`Verification.Verify`).
- A partial usage snapshot read for a failed model call makes the run raise
  (`RunGraph.PlanRaises`, `RunGraph.PatchRaises`).
- A limit below the size of its marker is exceeded by cut context (`BoundedOutput.BoundedUtf8Fits`).

## Model

| member | source | states |
|---|---|---|
| DiffParser.ParseUnifiedDiff | app/agent/patches.py:250-357 | the one-pass loop with its two countdown counters ends on every text; it accepts exactly the NUL-free texts that have a derivation in the grammar, and returns what any derivation stands for |
| DiffParser.ReadLines | app/agent/patches.py:258-357 | the loop over builders computes the reader's result for any lines; lines and counters together bound it although a finished hunk takes no line |
| DiffParser.ParseIsDerivation | app/agent/patches.py:250-357 | accepted means NUL-free and derivable, and every derivation of the text has the same meaning |
| DiffParser.TakeBodyLine | app/agent/patches.py:269-300 | one context, removed or added line goes to the file builder and the open hunk builder alike, with the numbers of its sides, or the counts disagree |
| DiffParser.MarkCurrent | app/agent/patches.py:263-271 | a marker is recorded on the last line of the current file builder, or refused |
| DiffParser.StartFile | app/agent/patches.py:301-316 | a header pair opens a builder of its own; the builders before it stay as frozen |
| DiffParser.StartHunk | app/agent/patches.py:319-340 | a hunk header opens a hunk builder on the current file with the counts and starts it declares |
| DiffParser.FreezeAll | app/agent/patches.py:98-127 | freezing the builders gives the files in order |
| DiffParser.FileBuilder.Append | app/agent/patches.py:295-297 | appending a line extends the file's lines and its last hunk's lines by the same line |
| DiffParser.FileBuilder.AddHunk | app/agent/patches.py:333-340 | a new hunk is empty and last, and changes no line before it |
| DiffParser.FileBuilder.RecordNoNewlineMarker | app/agent/patches.py:130-143 | a marker flags each side the last line is on and remembers that line's number; it is refused without a line or when the side is flagged already |
| DiffParser.FileBuilder.Freeze | app/agent/patches.py:98-110 | the frozen file has the builder's paths, lines, hunks and flags |
| DiffHeaders.HunkHeaderReads | app/agent/patches.py:241-247 | what a hunk header says, for any digits and any heading: each start is its numeral, each count its numeral or one when it is omitted; too many digits, and a zero start of a side with lines, are refused, in this order |
| DiffHeaders.HunkHeaderExact | app/agent/patches.py:9-12 | of all lines exactly those of that written form open a hunk, unless a number is too long or a start is zero; every other line is malformed |
| DiffHeaders.PathExact | app/agent/patches.py:145-175 | a path is valid exactly when it is portable, not empty, free of backslashes and control characters, and no part between slashes is empty, a dot or two dots |
| DiffHeaders.FileHeadersExact | app/agent/patches.py:178-206 | a header pair opens a file exactly when each line names the null file or a valid path behind its own prefix, not both the null file, and two named paths agree |
| DiffHeaders.ParseIgnoresEndings | app/agent/patches.py:253-258 | ending any line in LF, CRLF or CR changes nothing of what is read |
| DiffGrammar.ReaderAcceptsDerivation | app/agent/patches.py:250-357 | every text derived by the recursive grammar is accepted with the meaning of its derivation |
| DiffGrammar.ReaderFollowsDerivation | app/agent/patches.py:250-357 | everything accepted has a derivation: ignored lines and header pairs with one or more hunks whose bodies use up exactly their counts |
| DiffGrammar.ReaderRefinesGrammar | app/agent/patches.py:250-357 | the flat reader returns some contents if and only if a derivation of the lines means those contents |
| DiffGrammar.RunBody | app/agent/patches.py:258-300 | over a body that uses up both counters the reader does what numbering the body does, and not before its last line |
| DiffGrammar.RunHunk | app/agent/patches.py:258-270 | a hunk with an optional marker after its last line is read as one section |
| DiffGrammar.RunFiles | app/agent/patches.py:301-357 | files in order are read one after the other, their paths distinct under case folding |
| DiffUnambiguous.DerivationUnique | app/agent/patches.py:250-357 | two derivations of the same lines are the same tree, down to where each body ends and which marker trails it |
| DiffUnambiguous.BodyUnique | app/agent/patches.py:258-300 | the counts of a hunk settle where its body ends |
| DiffUnambiguous.SectionsUnique | app/agent/patches.py:301-357 | sections are told apart by their first lines, and from the files that follow |
| DiffMarkers.MeaningExact | app/agent/patches.py:130-206 | a derivation has a meaning exactly when, over all hunks of each file, at most one marker follows a line of each side and none comes before the first line, and no two names fold together |
| DiffMarkers.ParseAccepts | app/agent/patches.py:250-357 | a text is accepted exactly when it is free of NUL and its lines are those of such a derivation |
| DiffMarkers.FilesExact | app/agent/patches.py:130-206 | and then each file's flags say on which sides it has a marker |
| DiffShape.ParsedShape | app/agent/patches.py:250-357 | every returned file has hunks whose counts agree with their lines, whose lines carry the numbers of their sides, and contents free of NUL, CR and LF |
| DiffShape.ParsedPathsDistinct | app/agent/patches.py:187-206 | every returned file has a name, and no two names agree under case folding |
| DiffShape.RunKeepsShape | app/agent/patches.py:258-357 | every step of the reader keeps the shape of the files and of the open hunk |
| DiffShape.ParsedHeads | app/agent/patches.py:130-206 | every returned file has a valid path its headers agree on, hunk numbers of at most 18 digits, and newline flags that name one of its lines |
| DiffPrinter.PrintRoundTrip | app/agent/patches.py:130-143 | printing any well-formed parsed diff and parsing it gives back the same files, hunks, coordinates, paths and newline flags, and nothing ignored |
| DiffPrinter.ParsedPrintable | app/agent/patches.py:130-143 | a file the parser returned can be printed exactly when its markers follow its last old and new line |
| DiffPrinter.ParsePrintParse | app/agent/patches.py:250-357 | what the parser returns, with its markers there, parses back from its own printing |
| DiffPrinter.ReadPrintedHeader | app/agent/patches.py:241-247 | a printed hunk header reads back to its coordinates, for numbers of at most 18 digits |
| DiffPrinter.ReadPrintedFileHeaders | app/agent/patches.py:178-199 | printed header pairs read back to the old path, the new path and the null file |
| DiffPrinter.BodyReadBack | app/agent/patches.py:269-300 | a printed body with its markers rebuilds lines, numbers and flags |
| DiffPrinter.FilesReadBack | app/agent/patches.py:301-357 | printed files read back in order with distinct identities |
| Utf8.DecodeEncode | app/agent/static_checks.py:852-857 | decoding what was encoded gives back the text |
| Utf8.ScalarBytes | app/agent/static_checks.py:852-857 | the bytes of each scalar value, by its size, from the bits they carry |
| Utf8.EncodeDecode | app/agent/static_checks.py:852-857 | bytes that decode are the encoding of what they decode to, so no overlong or surrogate form is taken |
| Utf8.CutEncoding | app/sandbox/runner.py:545-557 | an encoding cut anywhere decodes to its whole characters, or stops where the cut character starts, at the end of the data; the lenient decoder adds at most one replacement |
| Utf8.FittingIsLongest | app/sandbox/runner.py:545-557 | the characters that fit a number of bytes fit, and one more does not |
| SourceText.DecodeSourceAccepts | app/agent/static_checks.py:852-869 | a source is refused exactly when it is not UTF-8, has a lone CR or mixes CRLF with bare LF |
| SourceText.DecodeThenEncode | app/agent/static_checks.py:852-869 | decoding any accepted bytes to lines, style and final newline and encoding them again is the identity, empty input included |
| SourceText.EncodeThenDecode | app/agent/static_checks.py:923-930 | encoding lines and decoding them gives back lines, final newline and style; a single unterminated line has no style |
| PatchApply.HunksExact | app/agent/static_checks.py:892-916 | the hunk loop succeeds if and only if the source splits into gaps and old sides at the declared positions, old and new; its output is the same gaps with the new sides |
| PatchApply.LoopSplits | app/agent/static_checks.py:892-916 | success of the loop gives the gaps |
| PatchApply.SplitsLoop | app/agent/static_checks.py:892-916 | a split with the declared positions makes the loop succeed |
| PatchApply.LinesLand | app/agent/static_checks.py:892-916 | each context or removed line stands at its old number in the source, each context or added line at its new number in the output |
| PatchApply.HunksConserve | app/agent/static_checks.py:892-916 | the output has as many lines more than the source as lines were added more than removed |
| PatchApply.ApplyExact | app/agent/static_checks.py:872-930 | the specification of a file patch accepts exactly under that condition, written out without it, and gives exactly those bytes |
| PatchLoop.ApplyHunk | app/agent/static_checks.py:899-914 | the inner loop over one hunk accepts exactly when its old side stands at the cursor, and then appends its new side |
| PatchLoop.RunHunks | app/agent/static_checks.py:892-916 | the loop with its output and cursor computes the specified hunk application |
| PatchLoop.ApplyFilePatch | app/agent/static_checks.py:872-930 | the applier accepts exactly when a created file has no source and any other file has one that decodes, the source splits at the declared positions, each side's end of file is as its flags and line numbers say, and a deleted file leaves no byte; the bytes it gives are then the gaps with the new sides, in the source's style |
| PatchReverse.HunksReverse | app/agent/static_checks.py:892-916 | a split of the source is a split of the output for the hunks with their sides swapped |
| PatchReverse.TerminatedReversible | app/agent/static_checks.py:872-930 | on a newline-terminated source the swapped patch restores the original bytes exactly when the source is LF or the result is not empty |
| PatchReverse.UnterminatedReversible | app/agent/static_checks.py:884-930 | for every accepted modification of an unterminated source, an empty file included, the swapped patch restores the bytes if and only if: flagged on the new side, it is flagged on the old side, the result stays unterminated, and CRLF survives; not flagged, with a terminated result, no hunk reaches the empty line after the last newline; not flagged and unterminated, no line of the patch is at the new end, and CRLF survives |
| PatchReverse.CreationReversible | app/agent/static_checks.py:872-930 | every created file is deleted again by the swapped patch, unless and only unless it is flagged as unterminated and ends in a newline all the same |
| PatchReverse.DeletionReversible | app/agent/static_checks.py:872-930 | a deleted file, terminated or not, is created again by the swapped patch exactly when its style was LF and the patch leaves no line of it |
| PatchReverse.InsertAfterUnterminatedLine | app/agent/static_checks.py:884-930 | a concrete insertion after an unterminated last line that is accepted and whose swapped patch conflicts |
| PatchReverse.CreateFlaggedEmptyLine | app/agent/static_checks.py:872-930 | a concrete creation whose marked last line is empty, accepted, and whose swapped patch conflicts |
| PatchReverse.LastLineGoes | app/agent/static_checks.py:892-916 | without its last line the source still takes the hunks exactly when none of them reaches that line |
| PatchReverse.EmptyOutputTakesLast | app/agent/static_checks.py:884-890 | a patch that leaves nothing removes the line at the end of the file |
| StagedTree.Staging.OpenParent | app/agent/static_checks.py:414-442 | missing directories on the way are made, unless something on the way is no directory |
| StagedTree.Staging.WriteFile | app/agent/static_checks.py:654-705 | a write creates only what is missing or replaces only a regular file, and touches nothing else but directories above it |
| StagedTree.Staging.DeleteFile | app/agent/static_checks.py:707-736 | a deletion removes exactly one regular file, or nothing |
| StagedTree.ApplyPatch | app/agent/static_checks.py:933-951 | after success every file of the diff holds what its patch gives and every other file is byte for byte as before; a created file was not in the tree, any other was, and exactly the deleted ones are gone; no path is longer than 1024 bytes or below anything but directories; a conflict is reported only when some file's patch does not apply, a filesystem failure only when a path is too long, blocked on its way, or a directory on the way to another file of the diff |
| StagedTree.AppliesExact | app/agent/static_checks.py:872-890 | a file of the diff applies to a tree exactly when no directory is in its place and its gaps meet the condition for the bytes there, if any |
| StagedTree.StagedIsExact | app/agent/static_checks.py:872-951 | a staged diff creates only where nothing was, changes and deletes only what was there, and what it writes is the gaps with the new sides |
| StagedTree.CheckAcceptsRealChanges | app/agent/static_checks.py:954-994 | on the staged tree the changed-file check accepts exactly when every file of the diff really changed bytes, in whatever order its sets are iterated |
| StagedTree.AcceptsExactly | app/agent/static_checks.py:954-994 | what the changed-file check accepts of any two trees: each changed file goes by the name of an expected path, each expected path is the last changed one of its name, no directory went, and those that came are above an expected path |
| StagedTree.ChangedIsAddedAndRemoved | app/agent/patches.py:71-78 | the parsed change count is added plus removed lines |
| StagedTree.DiffConserves | app/agent/static_checks.py:892-916 | summed over all files, lines written minus lines read equals lines added minus lines removed |
| PolicyResult.Unique | app/agent/policy.py:919-928 | keying by the whole violation keeps each one once and loses none |
| PolicyResult.ResultIsValid | app/agent/policy.py:159-174 | the result of any violations passes its own validator: by rule, then folded path, path and line, without duplicates, approved exactly when there are none |
| PolicyResult.ResultIsCanonical | app/agent/policy.py:919-930 | two lists give equal results exactly when they hold the same violations, whatever their order or repetition |
| PolicyResult.ApprovedIsSmall | app/agent/policy.py:972-1003 | an approved diff, whose paths are those of its proposal, has at most three files, changes at most 200 lines, and grows no tree by more than that |
| PolicyResult.ApprovedExactly | app/agent/policy.py:972-1003 | a diff is approved exactly when no rule on paths, secrets or contents is violated, it names at most 3 paths and it adds and removes at most 200 lines |
| PolicyResult.ViolationsExactly | app/agent/policy.py:972-1003 | a diff's violations are those the other rules found, one for more than 3 paths and one for more than 200 changed lines, and no others |
| CandidateEvaluation.EvaluationIsValid | app/evaluation/deterministic/candidate.py:160-186 | an evaluation's paths pass its validator and are the proposal's; added plus removed is the parsed change count; the status says whether verification passed or failed |
| CandidateEvaluation.EvaluationAccepts | app/evaluation/deterministic/candidate.py:158-182 | a proposal is counted exactly when its diff parses without ignored content, its paths are valid and distinct under folding and are the diff's, and neither count is beyond 63 bits |
| CandidateEvaluation.EvaluationBalances | app/evaluation/deterministic/candidate.py:172-177 | on any tree the diff applies to, added minus removed is lines written minus lines read |
| CandidateEvaluation.EvaluationIgnoresOrder | app/evaluation/deterministic/candidate.py:162-170 | the path order depends neither on the order in the proposal nor on that in the diff |
| Fingerprint.WalkMembers | app/agent/preparation.py:158-186 | the walk visits exactly what the tree contains, at every depth |
| Fingerprint.WalkSorted | app/agent/preparation.py:162-183 | walking sorted listings emits paths in strict component order, a directory before what is in it |
| Fingerprint.SortedUnique | app/agent/preparation.py:162-183 | a set of entries has one sorted sequence |
| Fingerprint.WalkIsContents | app/agent/preparation.py:158-186 | two trees are walked alike exactly when they contain the same, whatever order the system lists them in |
| Fingerprint.BigEndianInjective | app/agent/preparation.py:188-193 | length prefixes of eight bytes tell lengths below two to the 64 apart |
| Fingerprint.BigEndianDigit | app/agent/preparation.py:188-193 | each byte of a length prefix is the digit of its weight, the heaviest first |
| Fingerprint.HeaderBytes | app/agent/preparation.py:28 | the stream starts with the name of the format, a zero byte, its version and a zero byte |
| Fingerprint.EntryBytes | app/agent/preparation.py:566-587 | an entry's bytes written out: the letter of its kind, eight bytes of length before the path, and for a file eight bytes of length before the data |
| Fingerprint.PathBytesInjective | app/agent/preparation.py:570-580 | encoded slash-joined paths tell paths apart |
| Fingerprint.ItemsBytesInjective | app/agent/preparation.py:566-587 | the tagged, length-prefixed stream of entries can be cut in one way only |
| Fingerprint.StreamIsContents | app/agent/static_checks.py:823-841 | the bytes that are hashed are the same exactly for trees with the same contents |
| FingerprintWalks.Preparer.WalkListing | app/agent/preparation.py:162-183 | the preparer's walk lists the sorted pre-order walk, and fails exactly on paths that fold together |
| FingerprintWalks.Preparer.WalkEntry | app/agent/preparation.py:166-183 | one entry and what is below it, with the same folding rule |
| FingerprintWalks.ReadFindsWalked | app/agent/preparation.py:580-587 | reading a walked file by its path finds the bytes the walk is about |
| FingerprintWalks.Update | app/agent/preparation.py:574-587 | one entry adds exactly its tagged, prefixed bytes to the digest, or a length does not fit |
| FingerprintWalks.HashListed | app/agent/preparation.py:566-587 | the second pass, which reads each file only now, hashes the stream of the listed entries |
| FingerprintWalks.PreparerStream | app/agent/preparation.py:554-587 | the preparer accepts exactly trees without folded aliases whose lengths fit, and hashes the stream of their walk |
| FingerprintWalks.SnapshotWalk.WalkDescriptor | app/agent/static_checks.py:459-513 | the gate's recursive walk appends the same sorted pre-order walk, and fails exactly on an invalid path, a folded alias, or beyond its limits on entries, file and total bytes |
| FingerprintWalks.SnapshotWalk.WalkChild | app/agent/static_checks.py:466-511 | one child and what is below it, with the same rules; entries, identities and total bytes grow by exactly what is recorded |
| FingerprintWalks.HashSnapshot | app/agent/static_checks.py:823-841 | the snapshot's digest loop hashes the stream of its entries whenever lengths fit |
| FingerprintWalks.SnapshotStream | app/agent/static_checks.py:823-841 | the gate accepts exactly the trees within its limits whose lengths fit, and hashes the same stream as the preparer |
| FingerprintWalks.AdmittedExactly | app/agent/static_checks.py:459-513 | the limits written out: at most 10,000 entries, 64 MiB in a file and 256 MiB in all, valid paths, no two that fold together |
| FingerprintWalks.LengthExactly | app/agent/preparation.py:188-193 | a length fits its prefix exactly below two to the 64 |
| ContextBudget.ItemTextSize | app/agent/schemas.py:289-293 | the exact UTF-8 size of a rendered item |
| ContextBudget.OmissionTextSize | app/agent/schemas.py:386-389 | the exact UTF-8 size of a rendered omission |
| ContextBudget.RenderSize | app/agent/schemas.py:374-409 | a package takes its header, its items and its omissions, whatever the omission flag says |
| ContextBudget.RecordSmaller | app/agent/context.py:1154-1170 | an omission record is strictly smaller than the item it replaces |
| ContextBudget.DropShrinks | app/agent/context.py:1154-1170 | dropping an item and recording it strictly shrinks the package |
| ContextBudget.AppendItem | app/agent/context.py:1079-1086 | collected items stay distinct by folded path, kind and line |
| ContextBudget.AppendOmission | app/agent/context.py:1088-1095 | collected omissions stay distinct by folded path, kind and reason |
| ContextBudget.KeptIsLongest | app/agent/context.py:1126-1170 | every priority-0 item is kept; what is kept is the longest beginning of the sorted candidates that fits; it overflows exactly when the mandatory items alone do not fit |
| ContextBudget.LargerLimitKeepsMore | app/agent/context.py:1126-1170 | a larger limit never keeps fewer candidates, although its own digits take room |
| ContextBudget.Package | app/agent/context.py:1119-1184 | the loop that shrinks the items and sorts the growing omissions ends; it overflows exactly as specified; otherwise every candidate is kept or recorded, sizes are exact and within the limit, and the package is refused exactly when its validator refuses it |
| ContextBudget.PackageTells | app/agent/context.py:1126-1184 | what a package says of its candidates: the kept ones are the first by priority, folded path, line and kind; every dropped one has its record and no other budget record is there; and the flag is set exactly when something was dropped or cut |
| ContextBudget.AcceptedExactly | app/agent/schemas.py:412-459 | for collected candidates a fitting package passes its validator if and only if the omissions met while collecting are distinct and no two dropped items share path and kind |
| ContextBudget.DistinctPlacesSuffice | app/agent/schemas.py:412-459 | with distinct omissions from collecting, and droppable candidates distinct in path and kind, every limit gives an accepted package or an overflow |
| ContextBudget.AcceptedHasRequired | app/agent/schemas.py:441-459 | a package is accepted only if its candidates hold an issue, the analysis and the policy |
| ContextBudget.SharedPlaceRefused | app/agent/schemas.py:434-440 | two definitions of one file that must both be dropped: everything else is in order, and the package is refused |
| ContextBudget.TwoFramesRefused | app/agent/context.py:717-741 | two lines of one missing file in a traceback leave two equal omissions: nothing has to be dropped, and the package is refused |
| StaticClosure.FromTargets | app/agent/context.py:1029-1037 | a from-import is followed to exactly the names whose bound name is loaded |
| StaticClosure.PlainTargets | app/agent/context.py:1038-1054 | a plain import is followed to exactly the attributes the selected definitions take of it |
| StaticClosure.FromWantsAreLeads | app/agent/context.py:1029-1037 | those names are exactly what some selected definition leads to |
| StaticClosure.PlainWantsAreLeads | app/agent/context.py:1038-1054 | those attributes are exactly what two selected definitions lead to together, one that loads the module's name and one that takes the attribute |
| StaticClosure.LeadingImportIsBound | app/agent/context.py:929-936 | skipping imports that bind no loaded name loses nothing |
| StaticClosure.Collector.Select | app/agent/context.py:873-887 | the requested definitions not met before are selected, each marked visited |
| StaticClosure.Collector.Complete | app/agent/context.py:888-904 | the worklist of least pending names ends and selects all that the module's own references lead to |
| StaticClosure.Collector.Collect | app/agent/context.py:819-959 | with any definitions already visited, requested names end up visited, everything newly visited is followed to the end, what was selected is closed under local names and all it leads to together is visited, nothing outside any jointly closed set of definitions is, and the unvisited definitions only shrink |
| StaticClosure.Collector.Follow | app/agent/context.py:1017-1077 | everything the selected definitions lead to together through an import ends up visited, across cyclic modules |
| StaticClosure.CollectFrom | app/agent/context.py:819-959 | from requested names and nothing visited, every definition reachable through references and imports is collected exactly once, and so is what definitions of the first module lead to together; for every repository nothing is collected outside joint reach, nor outside the chains that ignore who loads a module's name; where no definition takes an attribute of an imported module's name that it binds itself, exactly the reachable ones are collected |
| StaticClosure.UnshadowedIsExact | app/agent/context.py:1038-1054 | without such a use joint reach is reach |
| StaticClosure.OnlyFromImportsUnshadowed | app/agent/context.py:1029-1054 | a repository without plain imports of its own modules has no such use, whatever attributes its definitions take |
| StaticClosure.ExactReach | app/agent/context.py:1038-1054 | joint reach is reach if and only if reachable definitions lead nowhere else together |
| StaticClosure.JointlyIsLoosely | app/agent/context.py:1038-1054 | joint reach is within the chains whose attribute step ignores who loads the name |
| StaticClosure.ShadowedCollectsMore | app/agent/context.py:1038-1054 | a concrete repository where a parameter shadows an imported module: a definition that nothing leads to is collected |
| Sorting.StringLeqExact | app/agent/preparation.py:162-183 | text is ordered as a prefix, or by the first character that differs |
| StaticGate.FirstWith | app/agent/static_checks.py:1396-1406 | the check that takes a failure is the first of the wanted statuses, or the first of all |
| StaticGate.SetCheck | app/agent/static_checks.py:1064-1105 | replacing one check keeps the fixed order and the shared applicability of the language checks |
| StaticGate.Gate.InfrastructureResult | app/agent/static_checks.py:1111-1128 | from any consistent checks the report is valid and carries the code |
| StaticGate.Gate.CleanupOrResult | app/agent/static_checks.py:1386-1409 | after cleaning up the report is unchanged and nothing is left, or a valid report says that cleaning up failed; only an interrupt escapes |
| StaticGate.Gate.CheckSource | app/agent/static_checks.py:1331-1339 | passing means the repository is what the first snapshot showed |
| StaticGate.Gate.ReadSource | app/agent/static_checks.py:1240-1250 | passing means the repository has the expected digest |
| StaticGate.Gate.MakeCopy | app/agent/static_checks.py:1252-1275 | the copy holds the repository and is remembered for cleanup from the moment it exists, unless making it failed half-way |
| StaticGate.Host.PatchStaging | app/agent/static_checks.py:933-951 | the copy is exactly patched, or a file does not apply, or the filesystem refuses a file it has grounds to refuse, or the call fails |
| StaticGate.Gate.PatchCopy | app/agent/static_checks.py:1277-1291 | going on means the copy is the repository exactly patched and only the first check has run; without faults the patch stops only at a file it does not apply to, or with a filesystem failure at one whose path is too long or blocked |
| StaticGate.Gate.CheckChanges | app/agent/static_checks.py:1293-1308 | going on means the changed-file check accepted the copy as it is |
| StaticGate.Gate.RunTools | app/agent/static_checks.py:1310-1329 | the container runs exactly when a Python path changed, on the checked copy and with those paths; its results become the five language checks, all present |
| StaticGate.Gate.CheckIntegrity | app/agent/static_checks.py:1331-1345 | going on means neither the copy nor the repository differs from its snapshot, whatever the container did |
| StaticGate.Gate.RunOnCandidate | app/agent/static_checks.py:1310-1370 | from an accepted copy to the report: the tools get the Python paths in order, only the checked copy is published, and without faults the tools decide |
| StaticGate.Gate.Judge | app/agent/static_checks.py:1347-1352 | going on means no check failed |
| StaticGate.Gate.PublishCopy | app/agent/static_checks.py:1354-1370 | published means the checked snapshot is there, the copy is gone and the repository unchanged |
| StaticGate.Gate.Run | app/agent/static_checks.py:1230-1376 | the phases in order, with what each leaves behind when it stops |
| StaticGate.Gate.Validate | app/agent/static_checks.py:1224-1409 | the report says INVALID_INPUT exactly when the request is unapproved, a path is invalid or folds onto another, the diff does not parse or has ignored content, or its paths are not those of the proposal; an approved report without a run of the tools means no changed path that is there in the published tree is Python's, and any such path means they ran and passed on the published tree; whenever they ran they got exactly those paths, in order; without faults the report is decided: each refusal for its own reason at its own check, a filesystem failure only for a file whose path is too long or blocked, the first of an inapplicable file, an unchanged file, a broken tool and a failing tool, and approval without any; for every outcome of every call: a report unless interrupted, always valid; approved means the exactly patched repository is published, unchanged source, its digest reported; otherwise nothing the call made remains or cleanup is reported failed, except exactly when a failed call had made the directory; no tool sees anything but an exactly patched copy |
| StaticGate.RequestedPaths | app/agent/static_checks.py:1231-1238 | an accepted request names exactly the files of its diff, distinct under case folding |
| StaticGate.RequestExact | app/agent/static_checks.py:1231-1238 | a request is accepted exactly when it is approved, its paths are valid and distinct under folding, its diff parses with nothing ignored, and the two name the same paths |
| StaticGate.PythonPathsAreChanged | app/agent/static_checks.py:985-1002 | the paths given to the tools are the changed paths that still hold a file and are Python's, by folded path and path |
| StaticGate.Gate.ToolsMean | app/agent/static_checks.py:1310-1329 | an approved report and the run of the tools, in terms of what changed between the trees |
| StaticGate.RefusedMeansUnchanged | app/agent/static_checks.py:954-994 | the changed-file check refuses an exactly patched copy only because some file of the diff is left unchanged |
| StaticGate.DecidedByTools | app/agent/static_checks.py:1310-1376 | once the copy is patched and accepted, the tools' results alone decide the report |
| StaticGate.PatchedChangesItsFiles | app/agent/static_checks.py:954-994 | an approved tree differs from the repository in every file of the diff and in no other |
| Verification.StageFromEvidence | app/agent/verification.py:772-787 | evidence gives a valid stage, passed exactly for normal completion with exit zero |
| Verification.InfrastructureResult | app/agent/verification.py:753-769 | a result that blocks at the stage with the code; the validator raises exactly when the evidence attached is not of normal completion |
| Verification.BlockedTopology | app/agent/verification.py:210-247 | one stage that did not pass, after passes and before not-runs, is an accepted topology |
| Verification.TopologyIsShortCircuit | app/agent/verification.py:210-247 | the topologies accepted are all stages passed, or one blocking stage with only passes before and not-runs after |
| Verification.ResultExactly | app/agent/verification.py:126-247 | the results the validators accept, written out: three passes with exit code zero, or after such passes one stage and nothing run: failing tests with a nonzero exit code, or broken infrastructure with a code that fits its evidence |
| Verification.CheckIntegrity | app/agent/verification.py:1010-1039 | a positive answer means the candidate is what it was at first |
| Verification.ExecuteStage | app/agent/verification.py:1042-1066 | valid evidence of a run, or the diagnostic that names what the runner raised or gave instead |
| Verification.Prepare | app/agent/verification.py:830-872 | a refusal before the stages is a valid result with one infrastructure stage, whose code names the step and what it raised |
| Verification.RunVisible | app/agent/verification.py:874-895 | a visible stage goes on only after passing evidence and an unchanged candidate; otherwise the run ends as specified, with the reason |
| Verification.MakeBundle | app/agent/verification.py:897-923 | a well-formed bundle is recorded, or the run ends with a valid result whose code says whether a bundle stays behind, the candidate changed, the evaluator's input was bad, or none was made |
| Verification.RunHidden | app/agent/verification.py:925-964 | the hidden suite runs only on an unchanged candidate, and the bundle gets one removal attempt on every path out, interrupts included |
| Verification.Verify | app/agent/verification.py:830-964 | without faults the evidence alone decides every stage; at every exit: the events are legal, each bundle made was given exactly one removal attempt, a returned result is valid and a passed one means the full run, and the validator raises exactly when evidence of a timeout or memory limit meets a changed candidate or a failed removal; whatever failed, the code and the evidence of an infrastructure stage say which: a removal, a changed candidate, what the runner raised, or the step before the stages |
| Verification.HiddenAfterVisible | app/agent/verification.py:874-935 | what the legal events of Verify mean, in short: in any run, the hidden suite comes after both visible stages passed on the same candidate, which was just found unchanged |
| Verification.StagesOnce | app/agent/verification.py:874-935 | a corollary of Verify: no stage runs twice |
| RunGraph.RoutedInvariant | app/agent/graph.py:169-319 | a routed state is consistent exactly when its values and evidence fit, time does not go back and its route is the one its evidence gives |
| RunGraph.FinishNext | app/agent/graph.py:490-499 | finishing the next node succeeds exactly when the new state passes the validator |
| RunGraph.FailureEnds | app/agent/graph.py:502-505 | recording a failure of the running node never raises |
| RunGraph.AttemptFailureEnds | app/agent/graph.py:516-551 | recording a failed planning attempt never raises when usage is absent or complete |
| RunGraph.PlanRaises | app/agent/graph.py:728-763 | the planning node raises exactly when it fails and the usage read for the failure is partial |
| RunGraph.PatchRaises | app/agent/graph.py:765-819 | the patch node raises exactly when it fails and the usage read for the failure is partial |
| RunGraph.NodeStep | app/agent/graph.py:634-934 | whatever its boundary does, a node leaves a consistent state with one more node recorded, to go on from or to be routed |
| RunGraph.EndedRoutes | app/agent/routing.py:142-188 | the evidence of a run about to be routed is never refused |
| RunGraph.RouteStep | app/agent/graph.py:936-946 | routing succeeds exactly when the clock gives a time not before the start, and leaves a terminal state |
| RunGraph.RunFromEnds | app/agent/graph.py:949-1047 | from any place a run executes a beginning of the node order and then routing once |
| RunGraph.EveryRunEnds | app/agent/graph.py:589-1047 | every run of a new state ends terminal and consistent; with usage absent or complete it raises exactly when the last clock fails or goes back |
| RunGraph.NodeObeys | app/agent/graph.py:634-1008 | what a node does, and where its edge leads, is what its own boundary's answer says |
| RunGraph.OutcomeDecided | app/agent/routing.py:204-257 | the outcome of every run is decided by the first stage whose boundary stops it, in the order of the nodes, and by nothing else; a run that nothing stops succeeds |
| RunGraph.ModelErrorDecides | app/agent/graph.py:508-513 | a run whose first stop is a failed model call is routed to CandidateFailure exactly for an unsuitable repair, to MalformedModelOutput exactly for an oversized, malformed or badly enveloped answer, and to InfrastructureFailure for every other code |
| RunGraph.ExitCodes | app/agent/routing.py:38-48 | the exit code of a finished run tells its outcome, zero exactly for success; a diagnostic is there exactly otherwise and names the outcome |
| RunGraph.SuccessMeans | app/agent/routing.py:204-257 | a consistent state routed to success has run all eleven nodes, approved policy and static checks, passed every verification stage and the evaluation, with nothing overridden |
| RunEvidence.EveryRunTells | app/agent/graph.py:589-1047 | a finished run holds exactly what the boundaries answered at the stages it ran, up to the first that stopped it |
| RunGraph.TerminalizeWorks | app/agent/graph.py:1077-1093 | ending a run early works at every place exactly when time does not go back |
| RunGraph.ReplaceWorks | app/agent/graph.py:1060-1074 | replacing a finished outcome after a failed cleanup works exactly when time does not go back |
| RunArtifact.BaselineAgrees | app/artifacts.py:61-98 | the run's baseline validator and the record's agree, apart from the message only the run keeps |
| RunArtifact.StaticAgrees | app/artifacts.py:123-157 | the static report's validator and the record's agree, apart from the candidate only the run keeps |
| RunArtifact.EndedShape | app/artifacts.py:266-353 | the evidence of an ended run has the terminal shape of the outcome it is routed to |
| RunArtifact.RecordIsValid | app/artifacts.py:184-353 | consistent evidence and the right terminal shape make a record its validator accepts |
| RunArtifact.FinishedProjects | app/artifacts.py:387-436 | every finished run projects to an accepted record that holds its evidence, configuration, times and route |
| RunArtifact.TerminalizedProjects | app/artifacts.py:387-436 | so does every run ended early, wherever it was: the evidence is that before, the outcome an infrastructure failure at the time given |
| RunArtifact.ReplacedProjects | app/artifacts.py:387-436 | so does every finished run whose outcome was replaced, with the evidence before and the new outcome and time |
| RunArtifact.EveryRunHasItsRecord | app/artifacts.py:387-436 | from a new state to an accepted record, for all behaviours of all boundaries: provider, model and prompt version are those of the configuration, case and start the arguments, completion the last clock reading; baseline with its five details, category, policy, static report, verification and evaluation are what the boundaries answered at the stages that ran; the outcome is that of the first stage that stopped, with its exit code and diagnostic |
| RunArtifact.AcceptedRecordRoutes | app/artifacts.py:184-353 | a record the validator accepts has the outcome its evidence is routed to, or that of a failure the evidence allows; a successful one has every approval behind it |
| Cost.ProductDigits | app/evaluation/live_model.py:321-330 | tokens times rate has fewer digits than the chosen precision counts for it |
| Cost.DivideMillion | app/evaluation/live_model.py:331-336 | division by a million is exact and only moves the point |
| Cost.ShareExact | app/evaluation/live_model.py:331-336 | one share of the cost is exactly tokens times rate, six places down |
| Cost.AddExact | app/evaluation/live_model.py:331-336 | the sum of the two shares is exact |
| Cost.CostExact | app/evaluation/live_model.py:300-336 | no operation rounds, overflows or underflows, for all token counts and all finite nonnegative rates |
| Cost.CostAdds | app/evaluation/live_model.py:300-336 | as a rational number the cost of two calls together is the sum of their costs |
| Cost.Provider.SnapshotUsage | app/evaluation/live_model.py:412-424 | a snapshot never fails and holds the exact cost of all calls so far |
| Cost.Provider.Complete | app/evaluation/live_model.py:369-410 | accounting is all or nothing: accepted exactly when the clock did not go back and the totals stay within the bound |
| BoundedOutput.Drain | app/sandbox/runner.py:164-178 | for any chunking exactly the first bytes up to the limit are kept, and truncation is flagged exactly when there were more |
| BoundedOutput.BoundedText | app/sandbox/runner.py:539-559 | the retreating loop ends; a truncated text with its marker is within the limit for any bytes, well formed or not |
| BoundedOutput.CutText | app/sandbox/runner.py:545-557 | the text before the marker always fits |
| BoundedOutput.CutTextOfUtf8 | app/sandbox/runner.py:545-557 | of UTF-8 cut anywhere the text is the longest run of whole characters that fits |
| BoundedOutput.CaptureText | app/sandbox/runner.py:164-178 | from the chunks of UTF-8 output to the text: the output itself, or its longest fitting beginning and the marker |
| BoundedOutput.BoundedUtf8IsLongest | app/agent/context.py:292-299 | with a limit that holds the marker the result is the value or its longest fitting beginning and the marker |
| BoundedOutput.BoundedUtf8Fits | app/agent/context.py:292-299 | the result is within the limit exactly when the limit holds the marker or the value fits anyway |

## Left out

- FingerprintWalks.SnapshotStream: links, hard links, changing metadata and unreadable entries, which the gate refuses, are not in the modelled tree.
- StaticClosure.CollectFrom: a shadowed use outside the first module adds to what is collected only if another definition selected in the same visit of its module loads the name, which depends on the order of visits; for those uses the bounds are stated, not which of them count. Paths are taken as already folded, and collecting starts from requested names, not from a line of a traceback. The order of what is collected is not stated; the package sorts it.
- ContextBudget.Package: requires candidates distinct in folded path, kind and line, which collecting gives: frames differ in path and line, and definitions and imports go through `_append_item`.
- RunGraph.EveryRunEnds: assumes usage snapshots that are absent or complete where a model call failed; what a partial one does is stated by PlanRaises and PatchRaises. Interrupts are not modelled in the graph.
- RunArtifact.EveryRunHasItsRecord: assumes a last clock reading that is not before the start.
- Cost.CostExact: exponents are unbounded integers; the decimal library's own limit on exponent settings is not in the model.
- Cost.Provider.Complete: latency is a real number, so its overflow and rounding are not modelled.
- Verification.Verify: evidence is complete or absent as a whole; truncation flags and durations, which no rule there depends on, are dropped.
- StaticGate.Gate.Validate: findings inside a check, their order and their duplicates are not modelled; neither are roots, symbolic links and other grounds to refuse a workspace, which appear as failing calls.
- Surrogates and other text that is not a sequence of scalar values cannot be written in the model, so encoding never fails there.
- `parse_binary_diff_paths`, and everything the policy reads out of contents: library-bound pattern matching.
- The proposal digest and SHA-256: only the bytes that are hashed are modelled, and of the run's identities only case and evidence.
- Run identifiers, workspaces and the trusted case of a run, which no node changes.
- Docker commands, containers, threads, file descriptors, renames and durable writes: only their outcomes appear, as calls that may fail.
- Candidates of the context other than by closure: excerpts, traceback frames, instructions, redaction.
- Model prompts, transport, JSON, the command line and benchmark reports.
