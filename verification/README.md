# Verification of the core algorithms

A Dafny model of five parts of the repository, each proved against what its code and documentation promise.

1. **Source partition** (`SourceTree`, `EslintPartition`): the walk that splits a source tree into directories an
   ESLint config covers and a maximally collapsed list of those it does not.
2. **Text rewriters** (`Lines`, `ManifestLines`, `ManifestEntries`, `ManifestMerge`, `ManifestShape`, `ManifestNote`,
   `ManifestGenerator`, `ManifestGuarantees`, `ManifestRun`, `Overlay`): the agent manifest generator and the overlay
   splicer.
3. **Provenance refresh** (`Utf16`, `CanonicalJson`, `Baseline`, `BaselineValidity`, `KindCounting`, `ProvenancePlan`,
   `JsonText`, `ProvenanceGuarantees`, `ProvenanceSafety`, `RefreshDecision`, `RefreshGateMeaning`, `RefreshExample`,
   `FingerprintScanner`, `FingerprintFile`, `FingerprintGuard`, `AtomicWrite`): canonical JSON, validation, the
   planner, the raw-text scanner and the file replacement.
4. **Scan engines** (`Glob`, `BoundedSearch`, `RelationshipScan`, `RelationshipReport`, `Proximity`,
   `DetectorRun`).
5. **Dashboard and prompts** (`Correlation`, `SourceGroups`, `AttentionLanes`, `UnmatchedGroups`, `ChangeLanes`,
   `BoardMeaning`, `SummaryKeys`, `BoardConservation`, `Compaction`, `FallbackSink`, `StateProvider`).

`Options`, `Sequences` and `Sorting` hold what the other modules share: optional values, the stable sort, set-like
de-duplication.

Loops and objects of the source are methods and classes proved equal to a function; the lemmas then say what that
function means. `dafny verify dfyconfig.toml` checks everything.

## What the proofs found

- A path below the repository root whose first name merely starts with two dots is treated as outside the root, so a
  covered root can hold source no config reaches (`ConfigReachableIffCovered` gives the exact condition).
- The manifest generator is idempotent exactly when the first note line has its anchor and the header holds at most
  one note; otherwise a check after a write run reports drift (`GenerateTwice`, `WriteThenCheck`, `DriftOccurs`).
- The overlay is idempotent exactly when both markers are there in order, or one is missing and the block goes to the
  very beginning (`ApplyTwice`). With the end marker first, or alone in the frontmatter, each application grows the
  text (`OutOfOrderNeverSettles`, `LoneEndMarker`); a start marker alone in the frontmatter makes the second
  application delete the text behind it up to the new block (`LoneStartMarker`).
- The fingerprint scanner starts too early exactly when a string in front of the member is its name or ends in a quote
  and its name, as a recorded entry root named `fingerprints` does (`ScanStartsAtMember`,
  `RootNamedLikeTheMember`); the last check of a refresh then compares roots instead (`GuardComparesRoots`).
- A double star is documented to match anything but refuses line breaks; a glob keeps its documented meaning exactly
  when it has none (`MeaningPreservedForGlob`, `MeaningPreservedForPath`).
- Branches and ids are redacted after they are de-duplicated. A change whose branches differ in a secret word only is
  not matched by them, and two changes whose ids do share one card (`ReadIsLinkedWhen`, `EverySummaryHasOneCard`,
  `TwoRedactedAlike`).
- Unlinked reads that share a group key agree on kind, status, title and reference when status and title hold no null
  character; with one they need not (`KeyMeans`, `NullsCollide`).
- A half-written fallback file is answered as if complete by every later call; an answered path holds its text exactly
  when the first write that left a trace was complete (`AnsweredPathsHoldTheirText`, `UnfinishedFilesAreTrusted`).
- A replacement text can itself stay over the limit and is then replaced once more by the next pass. `SecondPass`
  gives the exact condition on the lengths of names and paths; a tool name longer than the limit never fits
  (`LongNamesNeverFit`).

## Model

| member | source | states |
|---|---|---|
| `EslintPartition.Walker.Visit` | bin/lib/slop-scan/scan.ts:286-325 | one visit leaves the shared stack and the grouped map as they were, plus exactly the entries and regions of its own subtree, and answers whether that subtree holds a covered region |
| `EslintPartition.ReachableEslintConfigRoot` | bin/lib/slop-scan/scan.ts:226-263 | the upward loop answers a directory if and only if the target is below the root by a name without two leading dots and that directory is the closest with a config |
| `EslintPartition.ReachMeans` | bin/lib/slop-scan/scan.ts:226-263 | the same of the lookup the walk uses |
| `EslintPartition.PartitionEslintTargets` | bin/lib/slop-scan/scan.ts:269-343 | the two lists hold exactly the uncovered entries and exactly the covered regions, each once, sorted |
| `EslintPartition.PendingMeaning` | bin/lib/slop-scan/scan.ts:286-325 | maximal collapsing: a path is left uncovered exactly when it holds source, holds no covered region, and every directory above it does hold one |
| `EslintPartition.RegionsMeaning` | bin/lib/slop-scan/scan.ts:286-312 | a path is a covered region exactly when a config is reachable from it and from no directory the walk passed before |
| `EslintPartition.PendingDistinct` | bin/lib/slop-scan/scan.ts:286-325 | no entry is pushed twice |
| `EslintPartition.ChildConfigIsChild` | bin/lib/slop-scan/scan.ts:226-263 | below a directory without a reachable config the nearest config root of a child can only be the child itself |
| `EslintPartition.RegionsAreKeyedByTarget` | bin/lib/slop-scan/scan.ts:286-312 | in a walk from an unconfigured directory each region is keyed by its own directory |
| `EslintPartition.NoRegionIsShadowed` | bin/lib/slop-scan/scan.ts:286-312 | no two visits hit the same key of the grouped map, so grouping drops no region |
| `EslintPartition.EverySourceFileHasOneRegion` | bin/lib/slop-scan/scan.ts:269-343 | each visible source file lies under exactly one reported entry, covered or uncovered and never both |
| `EslintPartition.UncoveredEntriesDoNotNest` | bin/lib/slop-scan/scan.ts:286-325 | no uncovered entry contains another |
| `EslintPartition.ConfigReachableIffCovered` | bin/lib/slop-scan/scan.ts:226-263 | a file has a reachable config exactly when it is in a covered region and its own path is not rejected by the relative-path test |
| `EslintPartition.CoveredRootCanHoldUnreachableSource` | bin/lib/slop-scan/scan.ts:226-263 | the rejected case exists: a linted root with a directory whose name starts with two dots |
| `SourceTree.SourceByWholePath` | bin/lib/slop-scan/scan.ts:112-119 | testing the extension of the whole path is testing that of the file name |
| `ManifestGenerator.GenerateAdvToolsBlock` | plugin/scripts/generate-agent-manifests.ts:45-74 | the block of an agent, or the error for an unknown agent |
| `ManifestGenerator.FindMarkerLines` | plugin/scripts/generate-agent-manifests.ts:96-130 | the marker pair of the specification, with each of its errors |
| `ManifestMerge.FindMarkersMeaning` | plugin/scripts/generate-agent-manifests.ts:96-130 | a pair is found exactly when each marker stands once and in order; none exactly when there is no marker |
| `ManifestGenerator.GroupGeneratedBlock` | plugin/scripts/generate-agent-manifests.ts:132-153 | generated lines grouped as comments with their entry |
| `ManifestGenerator.MergeRegionWithGenerated` | plugin/scripts/generate-agent-manifests.ts:159-205 | the merge loop with its advancing group index equals the specified merge |
| `ManifestMerge.MergeKeeps` | plugin/scripts/generate-agent-manifests.ts:159-205 | merging makes the owned lines exactly the generated ones in order and keeps every other line in order |
| `ManifestMerge.MergeOfMerged` | plugin/scripts/generate-agent-manifests.ts:159-205 | a region that already holds the generated entries is left as it is |
| `ManifestShape.FirstRunShape` | plugin/scripts/generate-agent-manifests.ts:236-259 | a first run keeps the lines in front of the first entry and behind the last, and puts one marked region between them, rewritten so that wherever the old lines are cut the new ones can be cut to match |
| `ManifestShape.LaterRunShape` | plugin/scripts/generate-agent-manifests.ts:222-234 | a later run keeps both markers and everything outside them, and rewrites what is between in the same way |
| `ManifestShape.RefusedShapes` | plugin/scripts/generate-agent-manifests.ts:215-260 | exactly the files with a proper pair of markers, or with no marker and some entry, are rewritten |
| `ManifestEntries.EntryMeans` | plugin/scripts/generate-agent-manifests.ts:33-37 | a line is read as an entry exactly when the pattern accepts it, with the name and flag it captures |
| `ManifestGenerator.InjectTier4InvokeRoutingNote` | plugin/scripts/generate-agent-manifests.ts:275-321 | the note is moved out of the header or rewritten in place, as specified |
| `ManifestNote.InjectTwice` | plugin/scripts/generate-agent-manifests.ts:275-321 | injecting twice changes nothing exactly when the first note has its anchor and the header holds at most one note |
| `ManifestNote.MovedNote` | plugin/scripts/generate-agent-manifests.ts:275-321 | a note in the header leaves it and stands, rewritten, right behind it |
| `ManifestNote.InjectInBody` | plugin/scripts/generate-agent-manifests.ts:275-321 | a note in the body is rewritten where it stands |
| `ManifestNote.InjectKeepsOthers` | plugin/scripts/generate-agent-manifests.ts:275-321 | all lines that are no notes stay, in order |
| `ManifestGuarantees.AnchorDecides` | plugin/scripts/generate-agent-manifests.ts:275-321 | rewriting a note twice equals rewriting it once exactly when it holds the anchor |
| `ManifestGenerator.GenerateManifestContent` | plugin/scripts/generate-agent-manifests.ts:215-260 | the whole file rewrite, every error included |
| `ManifestGenerator.BlockRoundTrip` | plugin/scripts/generate-agent-manifests.ts:45-74 | a block printed and split again gives back its lines |
| `ManifestGuarantees.GenerateTwice` | plugin/scripts/generate-agent-manifests.ts:159-321 | the second run succeeds, and reproduces the first exactly when the note check holds, markers inserted or not |
| `ManifestGuarantees.DriftOccurs` | plugin/scripts/generate-agent-manifests.ts:275-321 | the failing side occurs: a file with one entry and a note without its anchor is rewritten, and changed again by the next run |
| `ManifestGuarantees.RunKeepsHandOwnedLines` | plugin/scripts/generate-agent-manifests.ts:215-321 | every hand-owned line survives a run, in order |
| `ManifestGuarantees.RunWithoutNoteKeepsNonAdvLines` | plugin/scripts/generate-agent-manifests.ts:367-376 | with no note line the non-ADV lines before and after are the same |
| `ManifestGuarantees.RegionHoldsThePolicy` | plugin/scripts/generate-agent-manifests.ts:159-205 | after a run the region between the markers holds exactly the policy entries in order |
| `ManifestGuarantees.GeneratedEntriesMeanThePolicy` | plugin/scripts/generate-agent-manifests.ts:45-74 | last-match-wins over the generated entries gives exactly the policy for every tool name |
| `ManifestGuarantees.WrittenFileMeansThePolicy` | plugin/src/tool-role-policy.ts:15-23 | when all ADV entries lie in the region, last-match-wins over the whole written file gives exactly the policy |
| `ManifestGuarantees.FirstRunEntriesInRegion` | plugin/scripts/generate-agent-manifests.ts:215-273 | a file without markers always meets that condition |
| `ManifestRun.AgentsDirectory.RunGenerate` | plugin/scripts/generate-agent-manifests.ts:335-365 | the directory after a run, the drift list and the failure, for writing and for checking runs |
| `ManifestRun.CheckNeverWrites` | plugin/scripts/generate-agent-manifests.ts:335-365 | a check run leaves every file alone |
| `ManifestRun.CheckNamesDrift` | plugin/scripts/generate-agent-manifests.ts:335-365 | a check fails exactly when a file is missing or refused, and otherwise names exactly the drifted files |
| `ManifestRun.WriteRunRegenerates` | plugin/scripts/generate-agent-manifests.ts:335-365 | a write run leaves each agent file as the generator makes it from its old content |
| `ManifestRun.WriteRunLeavesOthers` | plugin/scripts/generate-agent-manifests.ts:335-365 | files of no agent are untouched |
| `ManifestRun.WriteThenCheck` | plugin/scripts/generate-agent-manifests.ts:335-365 | a check after a write run reports exactly the agents whose file failed the note check before it, and nothing otherwise |
| `Lines.SplitJoin` | plugin/scripts/generate-agent-manifests.ts:215-216 | splitting joined lines gives the lines back |
| `Overlay.ApplyOverlay` | plugin/src/prompt-corpus.ts:214-247 | the overlay splice with its newline loop, for every text |
| `Overlay.ReplaceKeepsSurroundings` | plugin/src/prompt-corpus.ts:214-247 | replacing keeps all text before the block, and all after it up to leading newlines |
| `Overlay.InsertKeepsEverything` | plugin/src/prompt-corpus.ts:214-247 | inserting keeps all text and adds only the block and its separating newlines |
| `Overlay.InsertionPointMeans` | plugin/src/prompt-corpus.ts:214-247 | the block goes behind the first closing line of a frontmatter, and to the beginning without one |
| `Overlay.InOrderTwice` | plugin/src/prompt-corpus.ts:214-247 | with the start marker first a second application changes nothing |
| `Overlay.OutOfOrderGrows` | plugin/src/prompt-corpus.ts:214-247 | with the end marker first every application grows the text |
| `Overlay.OutOfOrderNeverSettles` | plugin/src/prompt-corpus.ts:214-247 | and the markers stay out of order, so it grows after any number of applications |
| `Overlay.LoneEndMarker` | plugin/src/prompt-corpus.ts:214-247 | a text with only an end marker, in front of the insertion point, is left with its markers out of order |
| `Overlay.LoneStartMarker` | plugin/src/prompt-corpus.ts:214-247 | a text with only a start marker, in front of the insertion point, loses everything between it and the insertion point on the second application |
| `Overlay.ApplyTwice` | plugin/src/prompt-corpus.ts:214-247 | for every text: twice equals once if and only if both markers are there in order, or one is missing and the block goes to the very beginning with no newline behind it; and from the second application on the text is stable unless the end marker comes first or stands alone in the frontmatter |
| `Overlay.MarkedTextTwice` | plugin/src/prompt-corpus.ts:214-247 | for texts with both markers: idempotent, then and later, exactly when the start marker does not follow the end marker |
| `Overlay.UnmarkedTextTwice` | plugin/src/prompt-corpus.ts:214-247 | for texts that lack a marker and have none in front of the insertion point: stable from the second application on, and from the first exactly in the stated case |
| `Overlay.LoneMarkerTwice` | plugin/src/prompt-corpus.ts:214-247 | for texts with one marker in front of the insertion point: never idempotent, and stable from the second application on exactly for a start marker |
| `Overlay.BareOverlayIsGood` | plugin/src/prompt-corpus.ts:214-247 | the smallest overlay, its two markers on two lines, is well formed |
| `Overlay.LoneEndOccurs` | plugin/src/prompt-corpus.ts:214-247 | the failing side occurs: with an end marker alone in the frontmatter neither the second nor the third application settles |
| `Overlay.LoneStartOccurs` | plugin/src/prompt-corpus.ts:214-247 | and with a start marker alone in the frontmatter the second application loses text |
| `Utf16.CodePointCompare` | bin/lib/slop-scan/baseline-provenance.ts:115-125 | the loop equals the specified comparison of spread strings |
| `Utf16.CodePointOrderIsTotal` | bin/lib/slop-scan/baseline-provenance.ts:115-125 | the comparison is a total order that is zero only on equal strings |
| `Utf16.CompareMeans` | bin/lib/slop-scan/baseline-provenance.ts:115-125 | a string comes first exactly when it has the smaller code point at the first difference or ends there |
| `Utf16.DiffersFromCodeUnitOrder` | bin/lib/slop-scan/baseline-provenance.ts:115-125 | it is not the order of code units |
| `Utf16.RankIsUnitOrder` | plugin/scripts/generate-agent-manifests.ts:40-42 | the order the generator sorts by is the order of code units |
| `CanonicalJson.CanonicalIsIdempotent` | bin/lib/slop-scan/baseline-provenance.ts:127-137 | the canonical form of a canonical form is itself |
| `CanonicalJson.CanonicalFormDecides` | bin/lib/slop-scan/baseline-provenance.ts:127-137 | two values have one canonical form exactly when they are equal up to key order |
| `CanonicalJson.CanonicalKeysAscend` | bin/lib/slop-scan/baseline-provenance.ts:127-137 | the keys of a canonical object ascend strictly by code points |
| `CanonicalJson.SortThenMap` | bin/lib/slop-scan/baseline-provenance.ts:127-137 | sorting entries before making them canonical, as the code does, gives the same object |
| `Baseline.ValidateBaseline` | bin/lib/slop-scan/baseline-provenance.ts:155-312 | the issue list of a baseline, loop by loop |
| `BaselineValidity.ValidMeans` | bin/lib/slop-scan/baseline-provenance.ts:155-312 | there are no issues if and only if header, coverage, fingerprints and history are as stated, member by member |
| `Baseline.FingerprintKindCounts` | bin/lib/slop-scan/baseline-provenance.ts:314-341 | the counting loop equals the specified counts, or nothing for an unreadable fingerprint |
| `KindCounting.KindCountsMean` | bin/lib/slop-scan/baseline-provenance.ts:314-341 | there are counts exactly when every fingerprint has a name; the number of a name is how many fingerprints have it, no other name occurs, and the keys are strictly sorted |
| `ProvenancePlan.PlanDeadCodeProvenanceRefresh` | bin/lib/slop-scan/baseline-provenance.ts:480-597 | the planner with its ordered checks and its edits of a copy |
| `RefreshDecision.RefreshesWhen` | bin/lib/slop-scan/baseline-provenance.ts:480-597 | the planner refreshes if and only if the baseline is valid, the configuration readable, no root removed and some added, hash and patterns as recorded, hash and head well formed, and both scans found something and the same |
| `RefreshDecision.PlanMeans` | bin/lib/slop-scan/baseline-provenance.ts:480-597 | which failing condition is refused and which blocked, with its reason, in the order in which they count |
| `RefreshDecision.RefreshWrites` | bin/lib/slop-scan/baseline-provenance.ts:560-597 | what a refresh writes: roots, hash, head, owner and the review of the two scans; and the comparison it reports |
| `RefreshExample.OneRootIsAdded` | bin/lib/slop-scan/baseline-provenance.ts:480-597 | there are a host and an input with one more root than recorded for which the planner refreshes |
| `RefreshGateMeaning.CurrentWhen` | bin/lib/slop-scan/baseline-provenance.ts:353-384 | for a valid baseline the long comparison comes down to hash, roots, patterns, owner and the reason as the planner writes it |
| `RefreshGateMeaning.GateMeans` | bin/lib/slop-scan/baseline-provenance.ts:832-898 | what is answered before any scan, cause by cause |
| `ProvenanceGuarantees.RefreshKeepsTheReviewedRecord` | bin/lib/slop-scan/baseline-provenance.ts:560-597 | a refresh keeps fingerprints, counts, patterns, scope, schema, deletion authority and owner |
| `ProvenanceGuarantees.RefreshedMatches` | bin/lib/slop-scan/baseline-provenance.ts:353-384 | a refreshed artifact is valid and matches the configuration and hash it was made for |
| `ProvenanceGuarantees.RefreshedIsFixedPoint` | bin/lib/slop-scan/baseline-provenance.ts:862-877 | the next refresh with that configuration answers current before any scan |
| `ProvenanceGuarantees.WrittenTextIsFixedPoint` | bin/lib/slop-scan/baseline-provenance.ts:822-877 | the same from the texts of the files, for any written text that parses back to the artifact |
| `ProvenanceGuarantees.PrintingHostsMeetIt` | bin/lib/slop-scan/baseline-provenance.ts:889-892 | the condition on the host used there holds when arrays of strings are printed as ECMA-262 says |
| `ProvenanceGuarantees.SuchHostsExist` | bin/lib/slop-scan/baseline-provenance.ts:889-892 | any host can be made to print arrays of strings so, whatever its other functions are |
| `JsonText.ArrayTextDetermines` | bin/lib/slop-scan/baseline-provenance.ts:889-892 | two arrays of strings printed so have the same text only if they are equal, lone surrogates included |
| `ProvenanceSafety.ComparisonIsExact` | bin/lib/slop-scan/baseline-provenance.ts:405-439 | although reports are cut at twenty, an empty report means equal finding sets and equal fingerprint sets, and the other way round |
| `ProvenanceSafety.NothingIsLostByCutting` | bin/lib/slop-scan/baseline-provenance.ts:405-439 | shown plus omitted values count exactly the distinct new ones |
| `ProvenanceSafety.FingerprintsAre` | bin/lib/slop-scan/baseline-provenance.ts:386-403 | exactly the dead-code findings have fingerprints |
| `ProvenanceSafety.FingerprintDecides` | bin/lib/slop-scan/baseline-provenance.ts:386-403 | when two values are not printed alike by accident, fingerprints agree exactly on id, name, shortened file and description |
| `ProvenanceSafety.OnlyEntryRootsWereAdded` | bin/lib/slop-scan/baseline-provenance.ts:480-525 | a refreshed plan proves that the current configuration differs from the reviewed one in its entry roots only and lost none |
| `FingerprintScanner.FingerprintSection` | bin/lib/slop-scan/baseline-provenance.ts:625-649 | the depth, quote and escape flags of the loop compute the specified section |
| `FingerprintScanner.SectionOfPrinted` | bin/lib/slop-scan/baseline-provenance.ts:625-649 | for any list of strings printed as a JSON array in any allowed escaping (section 7 of RFC 8259), after a text free of the key and before any text, the section is the key and that array |
| `FingerprintScanner.SectionIsExact` | bin/lib/slop-scan/baseline-provenance.ts:625-649 | as a function of any text: after a text that lacks the key, the section is the key and the printed array if and only if that text does not end in the key short of its closing quote |
| `FingerprintScanner.OpenCopyMovesTheSection` | bin/lib/slop-scan/baseline-provenance.ts:625-649 | after such an ending the section is not empty or cut short: it starts at the open copy and runs to the end of the same array |
| `FingerprintScanner.EqualSectionsEqualFingerprints` | bin/lib/slop-scan/baseline-provenance.ts:985-995 | equal sections mean equal fingerprints in equal order |
| `FingerprintScanner.PrintedStringsReadBack` | bin/lib/slop-scan/baseline-provenance.ts:985-995 | the printed form of a string reads back to its characters and determines the string |
| `FingerprintFile.NeverEndsOpen` | bin/lib/slop-scan/baseline-provenance.ts:625-649 | in a JSON text that case does not arise: no copy of the key in front of a member lacks its closing quote |
| `FingerprintFile.ScanStartsAtMember` | bin/lib/slop-scan/baseline-provenance.ts:625-649 | in a JSON text the scan starts at the member itself if and only if no string in front of it is its name or ends in a quote and its name |
| `FingerprintFile.PrintedShowsKey` | bin/lib/slop-scan/baseline-provenance.ts:625-649 | for strings printed by JSON.stringify that is a test of the string itself |
| `FingerprintFile.SectionOfFile` | bin/lib/slop-scan/baseline-provenance.ts:625-649 | in a JSON text without such a string the section is the key and the array of the member |
| `FingerprintFile.RootNamedLikeTheMember` | bin/lib/slop-scan/baseline-provenance.ts:625-649 | the other case occurs: a recorded root named like the member is taken for the member |
| `FingerprintGuard.PrintedAlike` | bin/lib/slop-scan/baseline-provenance.ts:625-649 | the printing of strings the scanner is proved against, on characters, is that of JSON.stringify on code units |
| `FingerprintGuard.GuardComparesFingerprints` | bin/lib/slop-scan/baseline-provenance.ts:985-995 | without a misleading string in front the last check of a refresh passes if and only if the fingerprints and the layout of their array are the same |
| `FingerprintGuard.GuardComparesRoots` | bin/lib/slop-scan/baseline-provenance.ts:985-995 | with a recorded root named like the member it compares what stands behind that root: a refresh that changes it, as adding a root does, is refused whatever the fingerprints are, unless neither file yields a section |
| `AtomicWrite.Disk.PrepareAndCommit` | bin/lib/slop-scan/baseline-provenance.ts:720-735 | both copies are written and synchronized before the rename; a failure shows nothing |
| `AtomicWrite.Disk.CleanupTemporaries` | bin/lib/slop-scan/baseline-provenance.ts:699-711 | each temporary is gone or its failure is reported; the target is untouched |
| `AtomicWrite.Disk.AtomicReplace` | bin/lib/slop-scan/baseline-provenance.ts:713-788 | for every failure pattern: what the target was, in order, what it is now, and what is left behind |
| `AtomicWrite.ReplaceBaseline` | bin/lib/slop-scan/baseline-provenance.ts:713-788 | a normal return means the new bytes and no temporary; at each step the target holds the prior or the new bytes, synchronized; a failure before commit or a restored rollback means the prior bytes |
| `Glob.GlobToRegex` | bin/lib/arch-scan/evaluator.ts:262-294 | the cursor loop emits the specified text and ends |
| `Glob.TextParsesBack` | bin/lib/arch-scan/evaluator.ts:262-294 | the emitted text parses back to the intended expression: no escaped literal is an operator |
| `Glob.CompilationPreservesMeaning` | bin/lib/arch-scan/evaluator.ts:251-294 | the emitted text matches exactly the paths the glob accepts, for every path without line breaks and for every path when the glob has no double star |
| `Glob.MeaningPreservedForGlob` | bin/lib/arch-scan/evaluator.ts:251-294 | a glob keeps its documented meaning on all paths if and only if it has no double star |
| `Glob.MeaningPreservedForPath` | bin/lib/arch-scan/evaluator.ts:251-294 | a path is treated as documented by all globs if and only if it has no line break |
| `BoundedSearch.Locate` | bin/lib/arch-scan/evaluator.ts:165-174 | binary search: the line is one plus the newlines before the index, the column counts from the last line start |
| `BoundedSearch.SearchBounded` | bin/lib/arch-scan/evaluator.ts:140-197 | the hits are those of the naive scan, cut after the first late hit |
| `BoundedSearch.NaiveIsGreedy` | bin/lib/arch-scan/evaluator.ts:140-197 | the naive scan takes real, non-empty, non-overlapping matches and leaves no other match start uncovered |
| `BoundedSearch.OnlyNaiveIsGreedy` | bin/lib/arch-scan/evaluator.ts:140-197 | nothing else has that property |
| `BoundedSearch.LinesDoNotGoBack` | bin/lib/arch-scan/evaluator.ts:140-197 | reported lines never decrease and positions strictly increase |
| `BoundedSearch.FirstHitSurvives` | bin/lib/arch-scan/evaluator.ts:186-195 | a timeout never hides that there is a hit nor which is first |
| `RelationshipScan.EscalationIsOneStep` | bin/lib/arch-scan/evaluator.ts:100-106 | escalation is one step, capped; unknown severities stay |
| `RelationshipScan.FindFirst` | bin/lib/arch-scan/evaluator.ts:373-400 | the first hit of the first readable file, and the unreadable files met, whatever the clock |
| `RelationshipScan.FindException` | bin/lib/arch-scan/evaluator.ts:430-460 | the exception verdict does not depend on the clock |
| `RelationshipScan.CollectCounterpartMatches` | bin/lib/arch-scan/evaluator.ts:361-403 | the counterpart verdicts do not depend on the clock |
| `RelationshipScan.SatisfiedMeans` | bin/lib/arch-scan/evaluator.ts:406-425 | a hit is satisfied exactly when some counterpart meant for it was found |
| `RelationshipScan.PickClosestDebtMarker` | bin/lib/arch-scan/evaluator.ts:511-527 | the nearest marker, the earliest of the nearest |
| `RelationshipScan.DecisionMeans` | bin/lib/arch-scan/evaluator.ts:660-760 | when a hit is satisfied and by which counterpart, suppressed or emitted; an emitted one carries trigger and scope, and exactly when escalated the declared exception or else the closest marker, one severity up as far as there is one |
| `RelationshipScan.EvaluateRelationship` | bin/lib/arch-scan/evaluator.ts:561-787 | findings, shared parse failures and coverage of a run under any clock |
| `RelationshipScan.EveryHitCountsOnce` | bin/lib/arch-scan/evaluator.ts:635-787 | satisfied, suppressed and emitted hits add up to all hits; finding numbers strictly increase |
| `RelationshipScan.FindingsAreTheEmittedHits` | bin/lib/arch-scan/evaluator.ts:635-787 | the findings are exactly the hits decided to be emitted, each under its own number |
| `RelationshipScan.TimeoutCutsFindings` | bin/lib/arch-scan/evaluator.ts:635-787 | a timed-out run reports a beginning of the untimed findings, any other run all of them |
| `RelationshipReport.EveryHitIsLookedAt` | bin/lib/arch-scan/evaluator.ts:635-660 | a run that does not run out of time looks at every hit of every readable trigger file and at nothing else |
| `RelationshipReport.NoHitTwice` | bin/lib/arch-scan/evaluator.ts:635-660 | and at as many hits as there are |
| `RelationshipReport.TallyCountsFates` | bin/lib/arch-scan/evaluator.ts:635-760 | each counter is the number of hits of its fate, and the signal is that of the last satisfied hit |
| `RelationshipReport.CoverageMeans` | bin/lib/arch-scan/evaluator.ts:745-787 | the coverage entry of a run, by how its hits fared |
| `RelationshipReport.FirstMatchMeans` | bin/lib/arch-scan/evaluator.ts:373-400 | the evidence is the first hit of the first readable file with one |
| `RelationshipReport.ExceptionMeans` | bin/lib/arch-scan/evaluator.ts:430-460 | the declared exception is what the first signal found anywhere gives |
| `Proximity.DeduplicateCandidates` | bin/lib/opt-scan/evaluator.ts:262-292 | the loop with its map of last lines equals the specified filter |
| `Proximity.FilterKeepsPositions` | bin/lib/opt-scan/evaluator.ts:262-292 | on one detector the result is the subsequence at the kept positions |
| `Proximity.KeptAreApart` | bin/lib/opt-scan/evaluator.ts:262-292 | kept positions of one file are more than the window apart |
| `Proximity.CoverOf` | bin/lib/opt-scan/evaluator.ts:262-292 | each position has a kept one at or before it, in its file and within the window |
| `Proximity.FilterIsOptimal` | bin/lib/opt-scan/evaluator.ts:262-292 | no choice of candidates with such gaps is larger than the result |
| `Proximity.FilterTwice` | bin/lib/opt-scan/evaluator.ts:262-292 | filtering twice changes nothing |
| `Proximity.NoWindowKeepsAll` | bin/lib/opt-scan/evaluator.ts:266-280 | detectors without a window keep everything |
| `DetectorRun.EvaluateDetector` | bin/lib/opt-scan/evaluator.ts:606-765 | the candidates and the state of a run: truncated, timed out or complete |
| `DetectorRun.CollectedMeans` | bin/lib/opt-scan/evaluator.ts:630-732 | exactly the accepted hits, in the files before one that runs out of time, become candidates, with the evidence stated |
| `DetectorRun.OneForEachAccepted` | bin/lib/opt-scan/evaluator.ts:640-732 | one candidate for each accepted hit |
| `DetectorRun.RunIsInOrder` | bin/lib/opt-scan/evaluator.ts:630-732 | candidates come in source order |
| `DetectorRun.DetectorReportIsOptimal` | bin/lib/opt-scan/evaluator.ts:606-732 | so the report of a detector with a window is of the largest possible size |
| `DetectorRun.TimeoutCutsReport` | bin/lib/opt-scan/evaluator.ts:640-650 | a timed-out report is a beginning of the full one |
| `Correlation.BuildCorrelationIndex` | bin/lib/dashboard/correlation.ts:86-103 | each lookup answers the ids of the changes that offer the value, once per time they offer it |
| `Correlation.CorrelateOne` | bin/lib/dashboard/correlation.ts:105-135 | the loop over clues computes the specified verdict |
| `Correlation.BranchThenCommit` | bin/lib/dashboard/correlation.ts:148-200 | a pull, run or deployment is linked by its branch when that is listed once, else by its commit when that is, and otherwise ambiguous exactly when one of them is listed more than once |
| `Correlation.OpsByKey` | bin/lib/dashboard/correlation.ts:148-200 | an operations item is linked by its key alone |
| `Correlation.CorrelateDashboardItems` | bin/lib/dashboard/correlation.ts:41-72 | linked and unlinked items in reading order |
| `Correlation.CorrelationConserves` | bin/lib/dashboard/correlation.ts:41-72 | every item is linked or unlinked, once |
| `Correlation.LinksAreUnambiguous` | bin/lib/dashboard/correlation.ts:105-146 | a link rests on a clue that its change offers and no other change does |
| `Correlation.MissMeans` | bin/lib/dashboard/correlation.ts:105-135 | an item stays unlinked exactly when no clue names exactly one id; it is ambiguous exactly when some clue names more |
| `Correlation.LinkedWhenOneChangeOffers` | bin/lib/dashboard/correlation.ts:86-135 | an item is linked if and only if some clue of it is offered by exactly one change, and by that change only once |
| `SummaryKeys.ReadIsLinkedWhen` | bin/lib/dashboard/adv.ts:95-124 | keys are de-duplicated first and redacted afterwards: a read, whatever commit it carries, is linked if and only if it has a branch, exactly one change has a branch of that redacted text, and no change has two; otherwise it is ambiguous exactly when some change has one |
| `SummaryKeys.TwoRedactedAlike` | bin/lib/dashboard/config.ts:181-202 | names that differ in a secret word only become the same by redaction |
| `SummaryKeys.SecretWords` | bin/lib/dashboard/config.ts:198-203 | there are such words |
| `SummaryKeys.MergedBranchesHideTheChange` | bin/lib/dashboard/adv.ts:95-124 | a change, even alone, with two branches that redaction makes the same is linked to no read of either, whatever its commit |
| `SummaryKeys.EverySummaryHasOneCard` | bin/lib/dashboard/adv.ts:84-92 | every change of a project has its own card if and only if no two ids become the same by redaction |
| `SummaryKeys.MergedIdsShareACard` | bin/lib/dashboard/adv.ts:84-92 | two changes whose ids redaction makes the same share one card |
| `SourceGroups.NewestIsFirstLatest` | bin/lib/dashboard/attention.ts:594-600 | the representative is the first of the latest items |
| `SourceGroups.GroupSourceItems` | bin/lib/dashboard/attention.ts:532-555 | the two passes over list and map equal the specified grouping |
| `SourceGroups.KeyMeans` | bin/lib/dashboard/attention.ts:532-592 | reads share a group key exactly when kind, status, title and reference agree, as long as no status or title holds the null character |
| `SourceGroups.NullsCollide` | bin/lib/dashboard/attention.ts:532-592 | with one, reads that differ can share a key |
| `SourceGroups.GroupingConserves` | bin/lib/dashboard/attention.ts:532-592 | grouping hides nothing and shows nothing twice |
| `AttentionLanes.BuildUnmatchedSource` | bin/lib/dashboard/attention.ts:178-203 | the unmatched lane: others, history groups, summaries, grouped and ranked |
| `AttentionLanes.UnmatchedShowsEveryRead` | bin/lib/dashboard/attention.ts:178-203 | each unlinked read is shown once, alone or in one group, or is one of the counted successes |
| `AttentionLanes.LaneSummariesAreTheTallies` | bin/lib/dashboard/attention.ts:178-203 | the summaries in the lane are exactly the tallies of the counted successes |
| `AttentionLanes.TalliesCount` | bin/lib/dashboard/attention.ts:514-520 | each tally counts exactly the hidden successes of its status and kind |
| `UnmatchedGroups.AlikeReadsShareAnItem` | bin/lib/dashboard/attention.ts:178-203 | no two items of the lane show runs or deployments that are alike |
| `UnmatchedGroups.GroupsAreProper` | bin/lib/dashboard/attention.ts:178-203 | every group has several members, all alike, and shows the first latest of them |
| `UnmatchedGroups.LoneSuccessesAreCounted` | bin/lib/dashboard/attention.ts:178-203 | a success is counted instead of shown exactly when no other success has its key |
| `UnmatchedGroups.SummaryKeyMeans` | bin/lib/dashboard/attention.ts:514-530 | counted reads share a summary exactly when status and kind agree |
| `UnmatchedGroups.LaneInOrder` | bin/lib/dashboard/attention.ts:638-647 | open pulls come first and groups of deployments last |
| `ChangeLanes.BuildChangeStatusItems` | bin/lib/dashboard/attention.ts:160-176 | each change card holds its linked reads by kind, in order |
| `ChangeLanes.LatestMeans` | bin/lib/dashboard/attention.ts:307-318 | for each source identity the map holds the first of its latest items |
| `ChangeLanes.BuildAttentionLanes` | bin/lib/dashboard/attention.ts:117-151 | the board of lanes |
| `ChangeLanes.LanesPartitionCards` | bin/lib/dashboard/attention.ts:117-151 | a card stands in the lane of its own overall status and in no other |
| `BoardMeaning.LanesHold` | bin/lib/dashboard/attention.ts:117-151 | the four lanes returned: failing changes need attention, of the others those in progress are running, of the rest those with a ready source are ready or landed, and the rest is backlog |
| `BoardMeaning.LanesInOrder` | bin/lib/dashboard/attention.ts:117-151 | within a lane more completed gates come first, then later activity, title and id |
| `BoardMeaning.CardHolds` | bin/lib/dashboard/attention.ts:160-176 | a card holds the pulls, runs and deployments linked to its change, each in the list of its kind |
| `BoardMeaning.LastChangeHasTheCard` | bin/lib/dashboard/attention.ts:160-164 | of changes that share an id the last one has the card |
| `ChangeLanes.EveryChangeHasOneCard` | bin/lib/dashboard/attention.ts:160-164 | there are as many cards as changes exactly when no id repeats, and then the cards are the changes |
| `BoardConservation.EveryReadIsSomewhereOnce` | bin/lib/dashboard/attention.ts:117-203 | end to end, from reads to the five lanes: every pull, run and deployment is on the board once, or is one of the successes the summaries count |
| `BoardConservation.EveryReadIsAccounted` | bin/lib/dashboard/attention.ts:117-203 | for every status and kind, what the five lanes show and what their summaries say add up to what was read |
| `Compaction.CompactToolPart` | plugin/src/prompt-compaction.ts:123-166 | both oversized outputs of a tool part are replaced, nothing else |
| `Compaction.CompactSummaryDiffs` | plugin/src/prompt-compaction.ts:168-182 | exactly the oversized patches are replaced and counted |
| `Compaction.Prompt.CompactPromptMessages` | plugin/src/prompt-compaction.ts:194-232 | the backward walk with splices equals the specified pass, counters included |
| `Compaction.PassMeans` | plugin/src/prompt-compaction.ts:194-232 | the array ends as the old non-blank entries in order, the last six messages untouched and each earlier one compacted; dropped and remaining add up |
| `Compaction.OnlyEmptyDraftsGo` | plugin/src/prompt-compaction.ts:194-232 | a pass drops exactly the unfinished assistant messages without parts |
| `Compaction.SecondPass` | plugin/src/prompt-compaction.ts:194-232 | a second pass drops nothing, and compacts nothing exactly when names, paths and file names of the older messages were short enough before the first; then it changes nothing |
| `Compaction.ReplacementFits` | plugin/src/prompt-compaction.ts:63-166 | the replacement of a tool output fits the limit exactly when the lengths of name, digits and path leave room |
| `Compaction.PatchFits` | plugin/src/prompt-compaction.ts:38-52 | the same for patches |
| `Compaction.PatchKeepsItsEnds` | plugin/src/prompt-compaction.ts:38-52 | a replaced patch names its file and keeps its first and last two thousand characters |
| `Compaction.PersistedIsNamed` | plugin/src/prompt-compaction.ts:106-121 | a persisted output is replaced by a text with tool, path and the first five hundred characters |
| `Compaction.OtherIsNamed` | plugin/src/prompt-compaction.ts:63-66 | any other oversized output is replaced by a text with tool and length |
| `Compaction.CompactedFits` | plugin/src/prompt-compaction.ts:123-182 | a compacted message is within the limit exactly when all its names are short enough |
| `Compaction.LongNamesNeverFit` | plugin/src/prompt-compaction.ts:63-66 | a tool name beyond the limit never fits |
| `FallbackSink.Store.PersistFallbackContent` | plugin/src/prompt-compaction.ts:87-104 | an existing file is never written again; a failed write answers nothing |
| `FallbackSink.AnsweredPathsHoldTheirText` | plugin/src/prompt-compaction.ts:80-104 | after any run an answered path holds its text if and only if the file held it before or, when there was none, the first write for it that left a trace was complete |
| `FallbackSink.UnfinishedFilesAreTrusted` | plugin/src/prompt-compaction.ts:87-104 | the failing side occurs: after a write that stopped half way every later call answers with the unfinished file |
| `FallbackSink.PersistTwice` | plugin/src/prompt-compaction.ts:80-104 | persisting the same text again writes nothing and answers the same path |
| `StateProvider.Provider.GetDashboardState` | bin/lib/dashboard/server.ts:84-94 | a call answers from the cache, joins, or starts a build, and changes the state accordingly |
| `StateProvider.Provider.RefreshCompletes` | bin/lib/dashboard/server.ts:71-82 | a finished build is cached with its expiry before its promise clears |
| `StateProvider.Provider.RefreshFails` | bin/lib/dashboard/server.ts:71-80 | a failed build ends without touching the cache |
| `StateProvider.Provider.Settle` | bin/lib/dashboard/server.ts:88-92 | the ended promise is cleared and nothing else changes |
| `StateProvider.AtMostOneBuildRuns` | bin/lib/dashboard/server.ts:64-95 | in every run at most one build is unfinished, the last one started |
| `StateProvider.AnswersAreRight` | bin/lib/dashboard/server.ts:64-95 | in every run a cached answer is the latest success and within its time to live, a joiner gets the last build, a start happens only with none in flight |
| `StateProvider.EndsAreFinal` | bin/lib/dashboard/server.ts:64-95 | how a build ended never changes |
| `StateProvider.FailureRecovers` | bin/lib/dashboard/server.ts:71-94 | in every run in which a build fails the cache stays, callers are answered from it or sent to the failed promise until that is cleared, and then the next call without a fresh state builds anew |
| `StateProvider.EndedPromisesAreJoined` | bin/lib/dashboard/server.ts:84-94 | in every run in which a build succeeds callers get its state while fresh, are sent to the ended promise after that until it is cleared, and then build anew |

## Left out

- Symbolic links, unreadable directories and paths outside the tree: the file system is a finite tree of files and directories.
- `localeCompare` is an abstract comparison; the covered list is sorted only if it is a preorder.
- The JavaScript regex engine: a pattern is its match length per position, and only the subset of regex text the glob compiler emits has syntax and semantics. Sticky and unicode flags are not part of this model.
- SHA-256, `JSON.parse`, `JSON.stringify`, number text and `toRepoRelative` are functions of the host; where a proof needs injectivity it says so in its requires.
- Object keys that look like integers and the key `__proto__`: objects keep their fields in order, each key once.
- Issue and diagnostic texts of the validator and the planner are constructors, not sentences; refusal diagnostics and their bounded text are not modelled.
- Texts other than JSON values are sequences of characters, one per scalar value, where the program counts UTF-16 units: for characters outside the basic plane the glob `?`, text lengths and columns differ from the program.
- Letter case: A to Z where the program tests by a regular expression, and the Kelvin sign besides where it lower-cases a tool name; no other letter decides such a comparison.
- ProvenancePlan.PlanDeadCodeProvenanceRefresh: gives reasons instead of diagnostics, so the bounded texts of a refusal are not modelled.
- ManifestGuarantees.WrittenFileMeansThePolicy: reads the entries of ADV tools only; a wildcard for all tools elsewhere in the tools map is not considered.
- ChangeLanes.BuildAttentionLanes: leaves out the degraded sources, which the program puts unchanged in front of the attention lane, and the texts of cards.
- SummaryKeys.ChangeOf: trimming and dropping blank branches come before the model, and the card texts are given.
- The scans around the planner in the refresh command, its second read of the inputs and its temporary snapshots.
- AtomicWrite.Disk.AtomicReplace: does not model other processes that write the same target between two steps, nor the texts of its error messages.
- RelationshipScan.EvaluateRelationship: takes as input all matches of each pattern per file and leaves out the intent gate and the texts of findings; trigger patterns of counterparts are pure tests, so a stateful global flag is not modelled. All findings share one list of parse failures, as in the source, and the result carries it once.
- DetectorRun.EvaluateDetector: the family checks on the lines around a hit are one function from path and line to further evidence or rejection.
- Detector ids that name members of every JavaScript object, which the window lookup would find.
- ChangeLanes.BuildChangeStatusItems: does not hold the card texts, summaries and representative sources of a change; source identities and time stamps are fields of the read item.
- Operations items (`ops`) that are linked to a change: the cards have no list for them, so they are not part of the conservation statement.
- Correlation.CorrelateDashboardItems: leaves out the copied status and source states of a record.
- Compaction.Prompt.CompactPromptMessages: messages and parts are values, so one part object shared by two messages is not modelled, and the durable sink is a function of the text during one pass.
- The sixteen digits of a digest that name a fallback file: names are an abstract function of the text.
- StateProvider.Provider.GetDashboardState: does not model a builder that calls the provider while it is being started.
- The change-lock and commit protocol of the README: its code is not part of this model.
- Validators and renderers, command-line parsing, tool registration, plugin hooks, the session doctor and the gate progress helpers: field checks, host callbacks or finite tables.
