# LogSquirl: a model and proofs of its stateful core

These Dafny modules model the parts of LogSquirl whose correctness rests on state kept over many
calls, and prove what those parts promise.

* **Decompression.** `StreamFormat` gives the meaning of a file of frames without buffers or decoder
  state, and the contract a decoder library owes (`MeetsContract`). `ZstdDevices` and `Lz4Devices` are
  the two pull decoders, proved for every codec that meets the contract, every refill and every
  sequence of requested sizes; `RunLengthCodec` shows that the contract can be met.
  `BudgetedDevices` is the seekable view under a budget, `Decompression` the copy loop on top,
  `ArchiveWalk`, `ArchiveScan`, `ReadingOrder` and `ArchiveExtraction` the walk over an archive, the
  worklist, the sort and the writing, on the disk of `ArchiveDisk`, `ArchiveChains` which names lead to
  a file, and `ExtractedFiles` what the folder holds afterwards.
* **The vulnerability scan.** `FindingMerge`, `FindingMergeLaws`, `FindingMeanings` and `FindingTexts`
  (merging as connected components, what a merged finding is, and which texts depend on the order),
  `VersionRanges` (the code that reads the advisory page's texts), `VersionWordings` (those texts put
  together from words, and what they say), `VersionRewriting`, `VersionStatus`, `VersionShortening`,
  `VersionReading`, `VersionClauses` and `VersionTexts` (reading them, step by step), `VersionRoundTrip`
  (ranges written and read), `AlertMessage` and `AlertPattern` (the alert's text written and read),
  `AlertReconciliation` and `AlertMeanings` (alerts against the ignore file). `Texts` holds what the
  scripts share, `TextMeanings` what it means.
* **The CMake reader.** `CMakeLexer` is the lexing as functions of the text that is left,
  `CMakeReader` the loops, `CMakeLayout` the printer that lexing inverts, `CMakeConditions` the
  flattening of nested `if()`, `CMakeCharacters` and `CMakeConditionTexts` the characters and texts.
* **The single-instance guard.** `SingleInstance` is the protocol as interleaved steps of any number
  of processes, `MessageReceiver` the framed messages of many connections, `MessageBytes` their bytes.
* **Two smaller parts.** `LatencyQueue`, `InputLatencies` and `AppendLatencies` are the latency
  queues of the benchmark library; `CopyingOver`, `TakeOver`, `TakeOverMeanings` and `TakeOverRuns` are the
  one-time copy of old portable data, one run of it and any number of runs.

Code that changes state is modelled by classes and by methods with loops, each proved against a
specification; the properties of the specifications are lemmas. `dafny verify dfyconfig.toml` checks
the whole project.

## What does not hold, and when it does

* A read at the budget probes one byte and keeps it. Of two reads at the budget, the first tells a
  longer stream from one that ends there; the second may report the end of a stream that is one byte
  longer (`SecondProbeLooksLikeTheEnd`). Such a read fails exactly when the probe takes a byte, so an
  error of the inner device at the budget reads as the end of the stream (`BudgetedDevice.Read`).
* Sorting by position does not always pay off: an empty file at the position of another, or within
  it, can come after it and cost a start over. `SortingPaysOffIff` is the exact condition.
* Merging findings does not depend on their order except for the texts: summary, affected, fixed,
  component, version, suppression and the reason for being unconfirmed. Each of them is the same in
  all orders exactly when the findings of each component that have one agree (`TextsIgnoreOrderIff`).
* A condition whose text is empty, as of `if("")`, is recorded as none. `RecordedRightIff` says of
  each package and truth assignment when its record is wrong.
* An alert whose component is empty or has a line end in it is not read back, since the dot of the
  pattern stops at line ends, nor is one with an empty id or alias. All others are (`ReadsBackIff`);
  an id may even hold a closing parenthesis.
* One `newConnection` signal does not always take every pending connection: handling stops after the
  first that is judged at once (`TakenAll` says exactly when none is left).
* A run that comes to its end without a failure may still leave old data behind: when data is beside
  the executable, or a plugin half there, as an interrupted run leaves them. `TakeOverOldPortableData`
  states exactly when; `InterruptedIsNotResumed` and `HalfCopiedPlugin` show both cases to be final.
* The latency queues are right exactly when what they are told comes in order (`RightIffInOrder`).
* `sendMessage` answers `NotSent` for a message that went out whole when the other end does not close
  in time; `SendMessage` states exactly when.

## Model

| member | source | states |
|---|---|---|
| StreamFormat.DecodedOkIffFrames | src/compression/src/zstddevice.cpp:120-156 | A file is accepted exactly when it is a run of whole frames, and its content is then theirs in order, however it is cut into frames (section 3 of RFC 8878) |
| StreamFormat.DecodedFrames | src/compression/src/zstddevice.cpp:132-151 | Several frames decode to their contents one after another; the bytes after the last whole frame alone decide whether the file is whole |
| StreamFormat.StepKeeps | src/compression/src/zstddevice.cpp:140-155 | For every codec meeting the contract, one decoder call keeps what was handed out a beginning of the content. An error means that no more bytes could make the file whole, and a frame that gives nothing more at the end of the file is a truncated one; either way the content of all whole frames was handed out |
| StreamFormat.AtEndOfFile | src/compression/src/zstddevice.cpp:132-138 | With nothing left to read, the file is whole exactly when no frame is open |
| StreamFormat.StoppedAfter | src/compression/src/zstddevice.cpp:121-126 | Where reading the file fails, the content of all frames that ended before the last byte read was handed out |
| RunLengthCodec.RunLengthMeetsContract | src/compression/src/zstddevice.cpp:140-151 | The codec contract can be met, by a codec that buffers output and knows a corrupt frame |
| SourceFiles.RefillKeepsOrder | src/compression/src/zstddevice.cpp:121-130 | A refill of the input buffer neither loses nor reorders unread bytes |
| ZstdDevices.ZstdDevice.Open | src/compression/src/zstddevice.cpp:41-68 | Opening starts over at the first byte of the file, whatever was read before; opening an open device changes nothing |
| ZstdDevices.ZstdDevice.Refill | src/compression/src/zstddevice.cpp:121-130 | A refill makes progress in the file or finds its end, and a failed read is a reason to fail |
| ZstdDevices.ZstdDevice.Decode | src/compression/src/zstddevice.cpp:140-155 | One decoder call on the buffer: what it gives continues the content, it uses up input or room, and which of the three outcomes are errors |
| ZstdDevices.ZstdDevice.Fail | src/compression/src/zstddevice.cpp:161-171 | What was decoded before an error is handed out once, and the device is failed for good |
| ZstdDevices.ZstdDevice.ReadData | src/compression/src/zstddevice.cpp:109-159 | Terminates. Every read continues the content where the last one stopped and is short only at its end; a failed device answers -1 ever after, is never at its end, and had handed out all whole frames the file begins with (after an error of the file, those that ended before the last byte read); 0 with room means the whole content of a whole file was handed out |
| Lz4Devices.Lz4Device.Open | src/compression/src/lz4device.cpp:41-70 | The same promise of opening over the lz4 interface |
| Lz4Devices.Lz4Device.Refill | src/compression/src/lz4device.cpp:123-132 | The same promise of a refill |
| Lz4Devices.Lz4Device.Decode | src/compression/src/lz4device.cpp:142-162 | The same promise of one decoder call |
| Lz4Devices.Lz4Device.Fail | src/compression/src/lz4device.cpp:168-178 | The same promise of failing |
| Lz4Devices.Lz4Device.ReadData | src/compression/src/lz4device.cpp:111-166 | The lz4 device refines the same specification as the zstd one, through the same lemmas over the same meaning of a file |
| Decompression.Input.AtEndMeansAll | src/compression/src/decompressor.cpp:285-307 | A device that is open and at its end has handed out the whole content of a whole file |
| Decompression.DoDecompress | src/compression/src/decompressor.cpp:271-348 | The output is always a beginning of the content and within the budget. Success means all of the content of a whole file. When nothing else goes wrong it succeeds exactly when the content fits the budget. Every failure has its cause, and a file that breaks off still gives all its whole frames |
| BudgetedDevices.BudgetedDevice.Read | src/compression/src/budgeteddevice.cpp:130-151 | Bytes read at a position are the bytes of the stream from there and never pass the budget; at the budget it fails exactly when the probe takes a byte, so that an error of the inner device there reads as the end of the stream |
| BudgetedDevices.BudgetedDevice.Seek | src/compression/src/budgeteddevice.cpp:82-108 | Reaches every position within the budget and the stream, forward by reading and back by exactly one start over; the reasons it refuses, and that only a position past the budget sets the flag |
| BudgetedDevices.BudgetedDevice.Skip | src/compression/src/budgeteddevice.cpp:110-123 | Moves exactly that far, or the stream ended, or the inner device failed |
| BudgetedDevices.SecondProbeLooksLikeTheEnd | src/compression/src/budgeteddevice.cpp:135-144 | The probe eats the byte it finds: a second read at the budget of a stream one byte longer reports its end |
| BudgetedDevices.ReadInOrder | src/compression/src/archiveextraction.cpp:221-235 | Entries read one after another are read exactly, the stream is started over exactly as often as their order makes it, and without a fault only a region past the content or the budget stops it |
| BudgetedDevices.OneStartOverIffSorted | src/compression/src/budgeteddevice.cpp:92-107 | The stream is started over for the first region at most exactly when each ends before all that come after it start |
| ReadingOrder.SortByPosition | src/compression/src/archiveextraction.cpp:216-218 | A permutation in the order of positions |
| ReadingOrder.SortingPaysOffIff | src/compression/src/archiveextraction.cpp:156-158 | Every order by position reads forward only, whichever of equal positions comes first, exactly when no data starts within that of another file, an empty file starting at its position |
| ReadingOrder.SortedStartsOverOnce | src/compression/src/archiveextraction.cpp:216-235 | What a sorted order leaves after the links is read with one start over at most |
| ReadingOrder.UnlinkedPermutes | src/compression/src/archiveextraction.cpp:221-230 | Leaving out what a link stands in for does not depend on the order |
| ArchiveWalk.InsideByComponents | src/compression/src/archiveextraction.cpp:51-55 | Inside a folder means that the components of the folder are the first ones of the path |
| ArchiveWalk.WalkStaysInside | src/compression/src/archiveextraction.cpp:161-214 | Whatever the tree and the links on the disk, every file found goes under a plain name into a directory inside the folder |
| ArchiveWalk.PlacedBelow | src/compression/src/archiveextraction.cpp:51-63 | Such a path has all components of the folder and at least one more |
| ArchiveChains.PlainMeansOneComponent | src/compression/src/archiveextraction.cpp:59-63 | A name counts exactly when it is none of "", "." and "..", has no backslash, and adds itself to every path as one more component |
| ArchiveChains.WalkIsReached | src/compression/src/archiveextraction.cpp:161-214 | A file is found, at a place, exactly when such names lead to it there: each entry on the way no link and a directory, no link in its place on the disk, resolving inside the folder |
| ArchiveChains.PlaceIsPath | src/compression/src/archiveextraction.cpp:174-206 | Where only links make a path resolve elsewhere, that place is the folder followed by the names |
| ArchiveExtraction.WalkWritten | src/compression/src/archiveextraction.cpp:161-238 | A successful extraction writes each file that names lead to whole at its place, unless a link stands there, and nothing else |
| ArchiveExtraction.WriteFileEntry | src/compression/src/archiveextraction.cpp:83-129 | Writes a beginning of the entry, all of it on success; what it wrote comes off the budget; why it failed |
| ArchiveScan.ScanDirectory | src/compression/src/archiveextraction.cpp:165-213 | One pass over a directory moves its entries to the files found, the folders made and the directories waiting, so that all of these together stay the recursive walk; a directory waits only when it was made, and a file is found only in one that was |
| ArchiveScan.FoldersStayInside | src/compression/src/archiveextraction.cpp:185-206 | Every folder made lies inside the folder under a plain name, and no link stands there |
| ArchiveScan.FoldersAreReached | src/compression/src/archiveextraction.cpp:185-206 | The folders made are exactly the directories such names lead to |
| ArchiveScan.FindFiles | src/compression/src/archiveextraction.cpp:159-214 | The worklist finds exactly the files and makes exactly the folders of the recursive walk, each as often as the archive has it; when it fails it made no others |
| ArchiveExtraction.WriteFiles | src/compression/src/archiveextraction.cpp:219-237 | Budget left and bytes written add up to the budget; on success the files no link stands in for are written whole, in order; the budget is passed only when their sizes add up to more |
| ArchiveExtraction.ExtractArchiveDirectory | src/compression/src/archiveextraction.cpp:133-238 | Folders are made inside the folder only. Only beginnings of the files of the archive are written, in folders that were made, never in the place of a link, within the budget, and also in a run that fails whole files in the order of their positions and a part of the next; nothing before all directories are scanned. Success means exactly the files of the recursive walk without those links, each whole, that is, every file that names lead to. Unless something goes wrong it succeeds exactly when their sizes fit the budget; as far as they are read, a stream is started over at most once |
| ExtractedFiles.EachPathHoldsItsFile | src/compression/src/archiveextraction.cpp:165-238 | With names unique in each directory, what a successful extraction leaves at each path of the walk is the content of that file, and it wrote nothing else |
| FindingMerge.BestId | scripts/sbom/logsquirl_vulns.py:694-696 | The least id of a group, CVE ids before others |
| FindingMeanings.BestIdMeans | scripts/sbom/logsquirl_vulns.py:694-696 | If an id of the group begins with "CVE-", the chosen one is the first of those in the order of texts; if none does, the first of all |
| TextMeanings.TextLeqMeans | scripts/sbom/logsquirl_vulns.py:694-696 | The order of texts: a beginning of the other, or less at the first character that differs |
| FindingMerge.WorstSeverity | scripts/sbom/logsquirl_vulns.py:713-715 | The worst severity of a group, held by one of them |
| FindingMerge.BestScore | scripts/sbom/logsquirl_vulns.py:712-718 | The highest score of a group, none only when none has one |
| FindingMergeLaws.MergeAllIsMerge | scripts/sbom/logsquirl_vulns.py:699-725 | Exactly one finding for each connected component of the input, linked by component ref and shared names, with the union of names and sources, the best-ranked id, the worst severity, the highest score, confirmed as soon as one member is; no two outputs of one ref share a name |
| FindingMergeLaws.MergeFindings | scripts/sbom/logsquirl_vulns.py:699-725 | The loop with its removals computes that merge |
| FindingMeanings.LinkedMeans | scripts/sbom/logsquirl_vulns.py:706-707 | Two findings are linked exactly when they have one ref, and one id or alias is an id or alias of the other |
| FindingMeanings.WorstSeverityMeans | scripts/sbom/logsquirl_vulns.py:79-79 | The severity of a summary is the first of the list of severities that any finding of the group has |
| FindingMeanings.SummaryMeans | scripts/sbom/logsquirl_vulns.py:699-725 | What one summary is, member by member and without the rankings of the code: id by "CVE-" and the order of texts, severity by its place in the list, score, names, sources, and confirmed exactly when some finding gives no reason to doubt it |
| FindingMeanings.MergedMeans | scripts/sbom/logsquirl_vulns.py:699-725 | Each finding merged is stood for by exactly one output, the summary of its component |
| FindingMergeLaws.MergeUnique | scripts/sbom/logsquirl_vulns.py:699-725 | Two merges of the same findings agree on ref, id, names, severity, score, sources and confirmed-ness |
| FindingMergeLaws.MergeIgnoresOrder | scripts/sbom/logsquirl_vulns.py:699-725 | Order and repetition of the input do not matter for those |
| FindingMergeLaws.MergeInStages | scripts/sbom/logsquirl_vulns.py:351-351 | Merging summaries merges the findings they stand for |
| FindingMergeLaws.MergePerSource | scripts/sbom/logsquirl_vulns.py:1143-1143 | Merging the sources merged one by one is merging everything found at once; merging a merged list changes nothing |
| FindingMergeLaws.MergedViewsDiffer | scripts/sbom/logsquirl_vulns.py:699-725 | No two outputs agree on all of those, so comparing them as sets loses nothing |
| FindingMergeLaws.SummaryTextDependsOnOrder | scripts/sbom/logsquirl_vulns.py:719-719 | Of two linked findings with different summaries the one of the later wins |
| FindingTexts.OrderFreeIffAgree | scripts/sbom/logsquirl_vulns.py:699-725 | A text of the merged findings is the same in all orders exactly when, in each component, all findings that have one have the same; also over the permutations alone |
| FindingTexts.TextsIgnoreOrderIff | scripts/sbom/logsquirl_vulns.py:716-724 | This for the summary, the affected and the fixed versions, the component, the version, the suppression and, without a confirmed finding, the reason for being unconfirmed |
| VersionRanges.AffectsIsUnion | scripts/sbom/logsquirl_vulns.py:443-445 | A version is affected exactly when it lies in one of the intervals, in the lexicographic order |
| VersionRanges.LessTotal | scripts/sbom/logsquirl_vulns.py:379-382 | The version order is total |
| VersionRanges.LessTransitive | scripts/sbom/logsquirl_vulns.py:379-382 | and transitive |
| VersionRanges.LessAsymmetric | scripts/sbom/logsquirl_vulns.py:379-382 | and asymmetric |
| VersionRanges.LessMeans | scripts/sbom/logsquirl_vulns.py:379-382 | Less means fewer of the same numbers, or less at the first one that differs |
| VersionRanges.ClassesMean | scripts/sbom/logsquirl_vulns.py:389-403 | Digits and word characters, by their codes |
| VersionRanges.IntOfDecimal | scripts/sbom/logsquirl_vulns.py:365-370 | A number written in decimal reads as itself |
| VersionRanges.ParseAffectedVersions | scripts/sbom/logsquirl_vulns.py:406-440 | The loop over the clauses is the reading of the text: the ranges, or the first clause that cannot be read, or that there is none |
| VersionRewriting.NotesGo | scripts/sbom/logsquirl_vulns.py:421-422 | Of every text made of these words, the sentences "version(s) before ... are/is known to be unaffected" go, and nothing else |
| VersionStatus.StatusesGo | scripts/sbom/logsquirl_vulns.py:423-423 | The sentence about an unknown status, in each of its forms, becomes ", before" the version it names, and nothing else changes |
| VersionShortening.PlatformsGo | scripts/sbom/logsquirl_vulns.py:424-424 | The remarks "(... platforms only)" go, and nothing else |
| VersionShortening.LongGoes | scripts/sbom/logsquirl_vulns.py:425-425 | "up to and including" becomes "through", and nothing else changes |
| VersionShortening.ShortGoes | scripts/sbom/logsquirl_vulns.py:425-425 | and so does "up to" |
| VersionShortening.FillersGo | scripts/sbom/logsquirl_vulns.py:426-426 | The words all, version, versions, of and qt become spaces, and nothing else changes |
| VersionReading.ShortenedSays | scripts/sbom/logsquirl_vulns.py:420-427 | All steps together keep what the text says |
| VersionTexts.ClauseIsRead | scripts/sbom/logsquirl_vulns.py:393-403 | A clause of the words that count is read as the range it says, and not at all when it says none |
| VersionTexts.ReadIsClause | scripts/sbom/logsquirl_vulns.py:393-403 | No other clause is read |
| VersionTexts.SaysMeans | scripts/sbom/logsquirl_vulns.py:393-403 | The clauses that say a range are exactly the wordings: with or without "from", "to", "through", "up to" or "up to and including" before an included bound of three numbers, "before" one of two or three, or a version by itself |
| VersionTexts.TextIsRead | scripts/sbom/logsquirl_vulns.py:406-440 | Every text put together from these words, remarks and sentences, in whatever order, letter case and spacing, is read exactly when each clause between commas and "and" that has a word that counts says a range, and then as these ranges in their order; two numbers of a version stand for three |
| VersionRoundTrip.AnyCaseIsRead | scripts/sbom/logsquirl_vulns.py:406-440 | So every such text with one space between its words, in whatever letter case, is read as the ranges intended |
| VersionRoundTrip.UpToAndIncludingIsRead | scripts/sbom/logsquirl_vulns.py:410-412 | "All version of Qt up to and including" any version of three numbers takes in that version and all before it |
| VersionRoundTrip.RangesReadBack | scripts/sbom/logsquirl_vulns.py:384-440 | Writing any non-empty list of three-part ranges and reading it gives the list back |
| VersionRoundTrip.WrittenIsNormalForm | scripts/sbom/logsquirl_vulns.py:384-440 | Whatever text is understood, writing what it means and reading that means the same |
| AlertMessage.IdIsRead | scripts/sbom/logsquirl_vulns.py:939-940 | The id ends where the aliases or the severity begin, and an empty one is not read |
| AlertMessage.AliasesAreRead | scripts/sbom/logsquirl_vulns.py:968-969 | The sorted, joined aliases are read back as the same set, but for an empty one |
| AlertMessage.NoEarlierEnd | scripts/sbom/logsquirl_vulns.py:939-940 | The lazy match cannot end in a component without " affected by " before its own end, across the component, the version and the verb |
| AlertMessage.ReadsBackIff | scripts/sbom/logsquirl_vulns.py:893-940 | The message of an alert is read back, component, id and aliases, exactly when the component is not empty and on one line and neither the id nor an alias is empty |
| AlertPattern.MessageMeans | scripts/sbom/logsquirl_vulns.py:893-903 | The message word for word: "may be" exactly for a finding that gives a reason to doubt it, "(unversioned)" without a version, the aliases in the order of texts |
| AlertPattern.SortedAscend | scripts/sbom/logsquirl_vulns.py:893-893 | The aliases are written in ascending order, none twice |
| AlertPattern.ParseMeans | scripts/sbom/logsquirl_vulns.py:939-940 | The pattern matches whenever it can, and then with the shortest component that it can have |
| AlertReconciliation.CommentKeepsMarker | scripts/sbom/logsquirl_vulns.py:951-953 | A dismissal comment carries the marker, however long the reason is |
| AlertMeanings.CommentMeans | scripts/sbom/logsquirl_vulns.py:951-953 | The comment spelled out: marker and reason, in 280 characters, cut without white space at its end |
| TextMeanings.CaseDoesNotMatter | scripts/sbom/logsquirl_vulns.py:791-792 | Two texts are one in upper or lower case exactly when they differ at most in the case of their letters |
| TextMeanings.WordsOfSpaced | scripts/sbom/logsquirl_vulns.py:952-952 | The words of a text are told apart whatever white space stands between them |
| TextMeanings.SpaceCharacters | scripts/sbom/logsquirl_vulns.py:952-952 | White space, character by character |
| TextMeanings.StripMeans | scripts/sbom/logsquirl_vulns.py:969-969 | Stripping takes white space off both ends, and all of it |
| AlertMeanings.MatchMeans | scripts/sbom/logsquirl_vulns.py:778-792 | The entry found is the first with a day of expiry not before today, an id that is one of the ids up to case, and the component up to case; none is found exactly when there is none |
| AlertMeanings.ChangeMeans | scripts/sbom/logsquirl_vulns.py:956-980 | What is asked of an alert, in these terms: dismissed exactly when covered and open, or dismissed by us with another comment; reopened exactly when dismissed by us and not covered |
| AlertMeanings.AlertUpdates | scripts/sbom/logsquirl_vulns.py:956-980 | The loop computes the updates the other lemmas are about, one for each alert that needs a change, in their order |
| AlertMeanings.SettledMeans | scripts/sbom/logsquirl_vulns.py:1014-1020 | What becomes of the alert: the comment of a dismissal, an open state, or nothing changed |
| AlertMeanings.SuppressedIffCovered | scripts/sbom/logsquirl_vulns.py:795-802 | The scan accepts a finding exactly when some entry covers it |
| AlertReconciliation.ReconcileSettles | scripts/sbom/logsquirl_vulns.py:1014-1020 | Applying the updates settles each alert by itself and touches nothing else |
| AlertReconciliation.SettledStays | scripts/sbom/logsquirl_vulns.py:970-979 | A settled alert asks for no change, and its state is what the ignore file says |
| AlertReconciliation.ReconciliationConverges | scripts/sbom/logsquirl_vulns.py:1014-1020 | A second run on the same entries and day finds nothing to do; no covered alert is open and none of our dismissals stands without an entry |
| AlertReconciliation.PersonsDismissalStays | scripts/sbom/logsquirl_vulns.py:972-979 | What a person dismissed stays as they left it, through any history of days and ignore files |
| AlertReconciliation.BoardAgreesWithScan | scripts/sbom/logsquirl_vulns.py:788-802 | An open alert is dismissed exactly when the scan of the day suppresses its finding |
| CMakeReader.ParseCMake | scripts/sbom/logsquirl_sbom.py:114-199 | The loops compute the lexing of the text; at every step the line counter is one more than the line ends before the position; terminates on every text |
| CMakeReader.ReadArgs | scripts/sbom/logsquirl_sbom.py:152-197 | The argument loop, with its depth, line counter and comment attachment, computes the arguments or the first error |
| CMakeReader.ReadString | scripts/sbom/logsquirl_sbom.py:178-192 | A quoted argument ends at its first unescaped quote, and its text keeps escapes and line ends |
| CMakeLayout.LexingInvertsPrinting | scripts/sbom/logsquirl_sbom.py:114-199 | Whatever commands are written down, in whatever layout of blanks, line and bracket comments, quoted arguments and nested parentheses, are read back with their names, arguments, lines and comments |
| CMakeLayout.CommentsGoToTheRightArgument | scripts/sbom/logsquirl_sbom.py:163-167 | A line comment goes to the last argument when that starts on its line, and to no other |
| CMakeCharacters.BracketMeans | scripts/sbom/logsquirl_sbom.py:111-122 | A bracket comment opens with as many "=" between two brackets as its level says |
| TextMeanings.FindIsFirst | scripts/sbom/logsquirl_sbom.py:114-118 | A bracket comment ends at the first place it can |
| CMakeCharacters.NewlinesMeans | scripts/sbom/logsquirl_sbom.py:114-132 | Lines are counted by their ends |
| CMakeCharacters.NameCharacters | scripts/sbom/logsquirl_sbom.py:141-146 | Which characters names, blanks and words are made of, by their codes |
| CMakeConditions.ParsePackages | scripts/sbom/logsquirl_sbom.py:239-271 | The loop with its stack of branches computes the recorded packages, or the command without an if(), or the unterminated one |
| CMakeConditionTexts.JoinMeans | scripts/sbom/logsquirl_sbom.py:229-230 | The text of a condition is its arguments in order with one space between, without exactly the spaces right after a "(" or right before a ")" |
| CMakeConditionTexts.TightMeans | scripts/sbom/logsquirl_sbom.py:229-230 | With parentheses as arguments of their own: none after "(" or before ")", one everywhere else |
| CMakeConditionTexts.WordsCanBeTold | scripts/sbom/logsquirl_sbom.py:229-230 | Arguments without spaces and parentheses are got back by splitting the text at its spaces |
| CMakeConditionTexts.NegateMeans | scripts/sbom/logsquirl_sbom.py:233-236 | A word is negated with NOT and negated again is itself; any other text goes into parentheses |
| CMakeConditionTexts.FrameMeans | scripts/sbom/logsquirl_sbom.py:245-251 | The conditions of a frame: its earlier branches negated, first to last, and then its own, unless that is empty |
| CMakeConditionTexts.KindMeans | scripts/sbom/logsquirl_sbom.py:253-267 | Which commands count, in any letter case |
| CMakeConditionTexts.NegatedIf | scripts/sbom/logsquirl_sbom.py:229-271 | A package in if(NOT c) is recorded under "NOT c" and reached exactly when c does not hold |
| CMakeConditions.NegateMeansNot | scripts/sbom/logsquirl_sbom.py:233-236 | A negated text holds exactly when the text does not, a double NOT included |
| CMakeConditions.EveryAssignmentExtends | scripts/sbom/logsquirl_sbom.py:233-236 | Every truth assignment to texts that are no negation extends to one that reads NOT so |
| CMakeConditions.FlatteningPreservesMeaning | scripts/sbom/logsquirl_sbom.py:239-271 | For every nested structure and every truth assignment, each package is reached exactly when all its recorded conditions hold and, in a branch with an empty condition text, the empty text holds too |
| CMakeConditions.RecordedRightIff | scripts/sbom/logsquirl_sbom.py:245-251 | The record of a package is wrong exactly where it leaves an empty text out that does not hold, and nothing else recorded fails |
| CMakeConditions.EmptyConditionIsTheException | scripts/sbom/logsquirl_sbom.py:245-251 | Around one package, the record is right for every truth assignment exactly when the condition text is not empty |
| CMakeConditions.EveryPackageIsRecorded | scripts/sbom/logsquirl_sbom.py:267-268 | The packages recorded are all there are, in the order of the file |
| CMakeConditions.AcceptedIffBalanced | scripts/sbom/logsquirl_sbom.py:252-271 | A file is accepted exactly when every elseif(), else() and endif() is inside some if() and every if() is closed |
| CMakeConditions.NestedIsStructured | scripts/sbom/logsquirl_sbom.py:252-271 | Every well-nested command list is the text of such a structure |
| SingleInstance.StepKeepsInvariant | 3rdparty/kdsingleapplication/kdsingleapplication_localsocket.cpp:42-144 | Every step of every process keeps: lock and socket name their holder, or one that crashed |
| SingleInstance.AtMostOneListens | 3rdparty/kdsingleapplication/kdsingleapplication_localsocket.cpp:88-131 | Over all interleavings, at most one process holds the lock, and whoever listens holds it |
| SingleInstance.NobodyElseEndsListening | 3rdparty/kdsingleapplication/kdsingleapplication_localsocket.cpp:116-144 | No step of another process takes the socket, the lock or the directory away from one that listens |
| SingleInstance.OnlyStaleSocketsAreRemoved | 3rdparty/kdsingleapplication/kdsingleapplication_localsocket.cpp:116-118 | The socket removed before the second listen belongs to nobody that runs |
| SingleInstance.StaleFilesDoNotLockOut | 3rdparty/kdsingleapplication/kdsingleapplication_localsocket.cpp:86-131 | Whatever crashes left behind, a process that starts while nobody holds the lock can get to listen |
| SingleInstance.LockFirstIsUnsafe | 3rdparty/kdsingleapplication/kdsingleapplication_localsocket.cpp:139-140 | Were the lock given up before the server, another process could remove the socket of one that listens |
| MessageReceiver.JudgeIsFinal | 3rdparty/kdsingleapplication/kdsingleapplication_localsocket.cpp:311-344 | Once the bytes of a connection are judged, more bytes do not change the verdict |
| MessageReceiver.EncodingIsRead | 3rdparty/kdsingleapplication/kdsingleapplication_localsocket.cpp:208-215 | An encoded message is judged only with its last byte, and is then the message |
| MessageBytes.JudgeMeans | 3rdparty/kdsingleapplication/kdsingleapplication_localsocket.cpp:311-344 | The verdict byte by byte: a first byte other than 2 refuses; four bytes of length, with the null and the extended form; the message once all of it is there |
| MessageBytes.EncodeMeans | 3rdparty/kdsingleapplication/kdsingleapplication_localsocket.cpp:208-215 | What is sent: 2, the length in four bytes, the most significant first, and the message |
| MessageReceiver.FeedIgnoresChunks | 3rdparty/kdsingleapplication/kdsingleapplication_localsocket.cpp:311-344 | The verdict does not depend on how the bytes come in pieces |
| MessageReceiver.EveryChunkingDelivers | 3rdparty/kdsingleapplication/kdsingleapplication_localsocket.cpp:208-344 | Every split of the encoding of every message delivers it |
| MessageReceiver.SendMessage | 3rdparty/kdsingleapplication/kdsingleapplication_localsocket.cpp:165-248 | What goes out is a beginning of the encoding; Sent exactly when connected, all of it went out and the other end closed in time, NotSent exactly when connected and one of these failed |
| MessageReceiver.TakenAll | 3rdparty/kdsingleapplication/kdsingleapplication_localsocket.cpp:250-303 | One signal takes every pending connection exactly when none before the last is judged on what it brought |
| MessageReceiver.Receiver.FindBySocket | 3rdparty/kdsingleapplication/kdsingleapplication_localsocket.cpp:311-317 | The lookup by socket always finds its entry |
| MessageReceiver.Receiver.FindByTimer | 3rdparty/kdsingleapplication/kdsingleapplication_localsocket.cpp:361-366 | and so does the one by timer |
| MessageReceiver.Receiver.ReadDataFromSecondarySocket | 3rdparty/kdsingleapplication/kdsingleapplication_localsocket.cpp:311-344 | The connection is done with exactly when its bytes are judged, and then emits its message once or, with a wrong version, nothing |
| MessageReceiver.Receiver.HandleNewConnection | 3rdparty/kdsingleapplication/kdsingleapplication_localsocket.cpp:250-303 | Takes the pending connections up to the first that is judged at once, and reads each in full; of these exactly the ones neither judged nor closed by the other end stay |
| MessageReceiver.Receiver.SecondaryDisconnected | 3rdparty/kdsingleapplication/kdsingleapplication_localsocket.cpp:346-359 | Removes that one connection and its signals; no connection emits twice |
| MessageReceiver.Receiver.AbortConnection | 3rdparty/kdsingleapplication/kdsingleapplication_localsocket.cpp:361-370 | The same for a timeout |
| LatencyQueue.NothingLost | src/benchmark/src/inputlatency.cpp:36-46 | In any run, in whatever order, each report is answered at most once, the oldest first, and what is not answered still waits |
| LatencyQueue.FirstPaintIsFirst | src/benchmark/src/inputlatency.cpp:36-46 | The paint an answer is timed to shows it, and none before does |
| LatencyQueue.RunMeans | src/benchmark/src/inputlatency.cpp:26-46 | Reported in order, the queue finds the first paint of each, over all runs |
| LatencyQueue.RightIffInOrder | src/benchmark/src/inputlatency.cpp:36-46 | The queue is right about everything that can follow exactly when its reports are in order |
| InputLatencies.InputLatency.InputHandled | src/benchmark/src/inputlatency.cpp:26-29 | The input waits behind the others, and the fields stay what the whole run leaves |
| InputLatencies.InputLatency.Painted | src/benchmark/src/inputlatency.cpp:36-46 | Answers the waiting inputs handled before the paint started, each with the milliseconds to the end of the paint, and the fields stay what the whole run leaves |
| InputLatencies.InputLatency.AnsweredByFirstPaint | src/benchmark/src/inputlatency.cpp:36-46 | With the inputs in order, the latencies are those to the end of the first paint that started after each |
| AppendLatencies.AppendLatency.Appended | src/benchmark/src/appendlatency.cpp:26-29 | The Log Line waits behind the others, and the fields stay what the whole run leaves |
| AppendLatencies.AppendLatency.Shown | src/benchmark/src/appendlatency.cpp:36-47 | Times the waiting Log Lines the paint shows, in milliseconds to its end, and the fields, the last line shown included, stay what the whole run leaves |
| AppendLatencies.AppendLatency.TimedToFirstPaint | src/benchmark/src/appendlatency.cpp:36-52 | With the Log Lines in order, each is timed to the first paint that shows the file through it, and the last one shown is before all that wait |
| CopyingOver.CopyEntry | src/datalocation/src/datalocation.cpp:73-93 | Nothing that was there changes, what is new is a part of the tree at its place, what is missing was reported at it or above it, and a failure is that of the disk or of something in the way |
| TakeOver.CopyPlugins | src/datalocation/src/datalocation.cpp:254-267 | Nothing is added to a plugin that is there, wherever the run ends, and it is skipped; any other is copied or reported |
| TakeOver.LookForOldFolders | src/datalocation/src/datalocation.cpp:212-233 | Which old folders hold anything, and whether data is beside the executable |
| TakeOverMeanings.FoundMeans | src/datalocation/src/datalocation.cpp:44-57 | Found are exactly those of the five folders, each looked for in its own old location, that hold anything there, unless that is the executable's directory |
| TakeOverMeanings.HoldsMeans | src/datalocation/src/datalocation.cpp:59-63 | A folder holds anything exactly when some entry is in it |
| TakeOverMeanings.HasTreeMeans | src/datalocation/src/datalocation.cpp:73-93 | All of a tree is there exactly when its link, document or folder is, and in a folder all of each entry |
| TakeOver.CopyAllFound | src/datalocation/src/datalocation.cpp:241-268 | The folders found one after another, or all of them skipped |
| TakeOver.TakeOverOldPortableData | src/datalocation/src/datalocation.cpp:202-291 | Wherever the run ends and whatever fails, nothing beside the executable changes and nothing but the marker is new that is not of the old folders, none of it in a plugin that was there. A run that comes to its end reports what it left out and why; without a failure, all old folders are there in the end exactly when they were before, or there was no data beside and no plugin half there |
| TakeOverRuns.NothingThereChanges | src/datalocation/src/datalocation.cpp:202-291 | Over any number of full, failed or interrupted runs, no path beside the executable changes or goes |
| TakeOverRuns.TakenOverOnce | src/datalocation/src/datalocation.cpp:206-210 | Once the marker is there no run does anything |
| TakeOverRuns.PluginsNeverMixed | src/datalocation/src/datalocation.cpp:254-267 | Over any number of runs nothing is added to a plugin that is there |
| TakeOverRuns.InterruptedIsNotResumed | src/datalocation/src/datalocation.cpp:219-248 | Once anything of a data folder is there no later run copies anything, so the old folders are there in the end exactly when they are already |
| TakeOverRuns.HalfPluginStaysHalf | src/datalocation/src/datalocation.cpp:258-262 | A plugin whose folder is there is whole after any number of runs exactly when it is whole already |
| TakeOverRuns.HalfCopiedPlugin | src/datalocation/src/datalocation.cpp:219-268 | The input that shows it: a run killed after it made the folder of a plugin leaves no data beside the executable, and no later run completes the plugin |

## Left out

- The insides of libzstd, liblz4, KCompressionDevice, KArchive and Qt: each enters as the contract its caller relies on. Buffering by QIODevice is left out, so `read` is `readData`; the input and output buffers are byte sequences and not arrays, so that aliasing between them is not modelled.
- `doExtract` and the archive types found by MIME or suffix: table lookups over the two operations modelled.
- Input: the device given to `doDecompress` is one of the two stream devices; KCompressionDevice is not modelled.
- ReadInOrder: that KArchive goes to an entry's position and reads it in full from there, also when it is empty, is assumed.
- EachPathHoldsItsFile: that a path which is no link resolves to itself when its folder does is assumed of the file system.
- ExtractArchiveDirectory: permissions and executable bits, and the comparison on case-insensitive file systems, are not modelled. Resolving a path is a function of the path that stays the same during one extraction, with the links found on the disk given beforehand.
- SortByPosition: std::sort is modelled by insertion; what is proved of sorted orders holds for each of those it may leave.
- The interrupt flag is a Boolean that may become true between steps; threads and futures are not modelled.
- Text is a sequence of characters. Lower and upper case, digits and word characters are those of ASCII; white space is that of Python.
- Scores of findings are reals and not floating point numbers; latencies are real milliseconds of whole nanoseconds.
- Reading advisories, NVD, OSV, YAML, JSON and HTTP, the transcription table, CVSS scoring and the other fields of SARIF.
- TextIsRead: of other words than those named it says only, with ReadIsClause, that no clause with one of them is read; a full stop or colon inside a text, other than that of a sentence it knows, is not among the pieces.
- AlertMessage: a finding has a component without the text " affected by ", a version without white space, and an id and aliases without commas and white space, as the script's own data has; an alias has no closing parenthesis.
- ReconciliationConverges: applying an update is modelled by what GitHub documents of it; whether reopening an alert clears its comment is left open, and both are proved.
- The checks on the arguments of one CPMAddPackage() command (`_cpm_package`), package urls and everything after the list of packages.
- SingleInstance: process ids are not used again, and a lock is stale exactly when its process has crashed; the contents of the lock file and host names are left out.
- ReadDataFromSecondarySocket: the slots of messageReceived run to their end before anything else happens; one that re-enters the receiver, while the connection is still in its list, is not modelled.
- SendMessage: real time and the other end are given as `Circumstances`, how each attempt and each wait ends; the null byte array and messages of 4 GB and more are not sent.
- TakeOverOldPortableData: links beside the executable are not followed, an old folder that is itself a link is not found (the code finds it and links to what it links to), the old folders do not change during a run and are not inside the executable's directory, names are case-sensitive, and the text of the marker does not matter. A file whose copy is interrupted is not there, and one whose copy failed has something in the way or a fault of the disk for its reason; the temporary file Qt copies through is left out.
- Dialogs, windows, translations, benchmark scenarios, crash reporting and packaging.
