# Bounded capture, release projection, manifests, shards and small rewriters

This project models five parts of the repository and proves what they are for. Each module
corresponds to one source file or one component of it. A routine that updates state in the source is
a method here (of a class where the source has a class), proved equal to a specification function;
the properties are lemmas about those functions. A routine that raises returns `Err`.

**Capturing a child process** (`scripts/installed_self_test_capture.py`). `Counters` are the
saturating counters. `Utf8` is section 3 of RFC 3629 with the error handlers in use, and the two
size-bounding cuts. `Nesting` is the depth guard, `Events` the validation of one record,
`Chronology` the five phase slots, `Framing` the byte-at-a-time parser, `Records` what it comes to know
from the fields of a record, `Lines` the batch view it refines. `Streams` are the raw and the text tail, `FormatTails` the display within a budget,
`Serialize` the document that states its own length, `Persistence` the two processes that save it.

**Projecting a raw Git tree** (`scripts/publish_release.py`, `scripts/safe_materialize.py`).
`Listing` reads the raw listing, `TreeEntries` validates it, `BlobBatch` reads the length-prefixed
batch, `Materialize` creates the tree in a file system that may compare names by folding them and
verifies it, and `Projection` joins the steps into one.

**Derived manifests** (`scripts/manifest_merge_driver.py`, `scripts/build_release.py`). `Ordering`
sorts by code point, `Manifest` merges indexes, `Advisory` prints, parses, merges and checks the text.

**Windows test shards** (`scripts/run_windows_unittests.py`): `Shards`.

**Small rewriters** (`scripts/ac42_e2e.py`, `scripts/publish_catalog.py`): `Gitignore`, `Catalog`.

## What the code does not do

Six statements that one might expect are false of the code. Each has a lemma with an input that
shows it and a lemma with the exact condition.

- `serialize` can miss its final assertion. The size tests run while two numbers still read 0, so a
  document that passes every test can grow past the limit when they are filled in, by at most nine
  bytes. Whatever the layout and the rest of the document, some first stream makes that happen
  (`Serialize.AssertionCanFail`, `Serialize.FinalAssertionHoldsExactly`).
- `expected_gitignore` is not idempotent on every input. A file without a managed block, whose last
  line is unfinished, ends in a carriage return and is otherwise the beginning of the header, is
  extended once and refused the second time (`Gitignore.SecondApplicationCanRefuse`,
  `Gitignore.IdempotentExactly`).
- `check_manifest_files` accepts more than rearranged rows. Line splitting also breaks at vertical
  tabs and seven other characters, so those may stand where newlines did
  (`Advisory.OtherBreaksAreAccepted`, `Advisory.AcceptedAreRearranged`, `Advisory.AcceptedBytes`).
- The parser raises on some records it has counted as accepted: a case or heartbeat record whose
  `interruption` is neither text nor null. It hears nothing from then on, and the record stays in the
  carry, so that the end of the stream counts its bytes again as unfinished. Bytes are conserved
  exactly if that does not happen (`Events.AcceptedRecordCanRaise`, `Lines.RaisingCountsTwice`,
  `Lines.BytesAreConserved`, `Lines.OnlyHeardLinesMatter`).
- Merging indexes is merging trees only if digests tell contents apart; with one collision it is not
  (`Manifest.CollisionBreaksMerge`, `Manifest.CommutesExactly`).
- Publishing can lose a catalog: with two catalogs of one digest, the third publication archives the
  second over the first (`Catalog.CollisionLosesACatalog`). A run loses nothing exactly if each attempt
  spares what it archives over (`Catalog.NothingIsLostExactly`); that the version never decreases needs
  no such condition.

Two things in the code are never needed. The loop that shortens a tail after the binary search
(`scripts/installed_self_test_capture.py:425-427`) never turns, although the search's predicate is
not monotone; and three of the four passes that fill in the length suffice.

## Model

| member | source | states |
|---|---|---|
| Counters.Counts.Add | scripts/installed_self_test_capture.py:62-66 | an addition is capped at the maximum and marks the counters once a total goes past it |
| Counters.SaturationIsHonest | scripts/installed_self_test_capture.py:57-66 | after any additions each counter is the smaller of its true total and the cap, and the mark is set exactly if some total exceeded the cap |
| Utf8.PiecesEncoded | scripts/installed_self_test_capture.py:46-53 | decoding undoes encoding, piece by piece |
| Utf8.DecodePassEncoded | scripts/installed_self_test_capture.py:341-347 | with surrogates passed through, every text survives encoding and decoding |
| Utf8.TakeIsStrict | scripts/installed_self_test_capture.py:341-347 | only the bytes of a code point are read as that code point, and a surrogate only if it may pass |
| Utf8.ReplaceMeans | scripts/installed_self_test_capture.py:407-424 | malformed bytes are shown as U+FFFD, one for the most bytes that still begin a code point, and decoding goes on right after them |
| Utf8.ReplaceExpansion | scripts/installed_self_test_capture.py:386 | replacing malformed bytes at most triples the size |
| Utf8.LeadingIsLongestPrefix | scripts/installed_self_test_capture.py:53 | the kept prefix is the longest within the limit that ends on a code point |
| Utf8.BoundedMeaning | scripts/installed_self_test_capture.py:45-54 | a shortened value never exceeds its limit, is whole if it fits, and is otherwise the longest prefix or suffix on code points that leaves room for the mark |
| Utf8.FittingIsLongest | scripts/installed_self_test_capture.py:341-347 | the kept suffix is the longest on a code point within the limit |
| Utf8.FittingAbsorbs | scripts/installed_self_test_capture.py:341-347 | cutting before or after appending gives the same suffix |
| Utf8.CutIsFitting | scripts/installed_self_test_capture.py:342-346 | cutting in bytes and dropping leading continuation bytes is the longest fitting suffix |
| Nesting.CheckDepth | scripts/installed_self_test_capture.py:101-119 | the scanning loop is the scan the nesting theorem is about |
| Nesting.NestingIsExact | scripts/installed_self_test_capture.py:101-119 | on every JSON text the guard rejects exactly nesting beyond eight, whatever stands inside strings |
| Chronology.SlotsTell | scripts/installed_self_test_capture.py:252-270 | each slot's status and times are what the non-duplicate transitions of its phase say |
| Chronology.ChronologyIsExact | scripts/installed_self_test_capture.py:252-272 | no conflict is counted exactly if the non-duplicate transitions are orderly: phases in order, each completion after its start and no earlier in time |
| Chronology.CountersTell | scripts/installed_self_test_capture.py:252-272 | the duplicates are the transitions that repeat an earlier one, and the conflicts are what is out of order among the others, one by one |
| Chronology.SlotsNeverMoveBack | scripts/installed_self_test_capture.py:252-272 | recorded times are never replaced and no status moves back |
| Events.AcceptedRecordCanRaise | scripts/installed_self_test_capture.py:248-280 | a heartbeat with a number for its interruption passes every check and makes the parser raise |
| Framing.Parser.RejectRecord | scripts/installed_self_test_capture.py:145-147 | a rejection is counted once in total and once under its reason |
| Framing.Parser.Field | scripts/installed_self_test_capture.py:149-156 | a kept field is shortened and its sizes recorded |
| Framing.Parser.AcceptTransition | scripts/installed_self_test_capture.py:252-272 | the slot update is the transition function of the chronology theorems |
| Framing.Parser.AcceptReport | scripts/installed_self_test_capture.py:273-280 | a report does to the parser what `Records.ReportMeans` says by its fields, and raises exactly for an interruption that is neither text nor null |
| Framing.Parser.RecordLine | scripts/installed_self_test_capture.py:190-280 | one line is judged and heeded as `Records` says by its fields: rejected for its first defect, or accepted and counted |
| Records.VerdictMeans | scripts/installed_self_test_capture.py:190-248 | an object is accepted exactly if its `event` is one of six names and its fields are well typed for it; other names are unknown events, other types wrong types |
| Records.OtherVerdicts | scripts/installed_self_test_capture.py:191-201 | everything else is rejected for the first of: nesting, repeated keys, malformed text, not an object |
| Records.StartMeans | scripts/installed_self_test_capture.py:249-251 | an accepted start record sets the flag and the interval by its fields and touches nothing else |
| Records.PhaseStartMeans | scripts/installed_self_test_capture.py:252-272 | an accepted phase start gives the slot of the phase it names its time unless it has one, and touches no other slot and no report |
| Records.PhaseCompleteMeans | scripts/installed_self_test_capture.py:252-272 | an accepted completion gives the slot of the phase it names completion and duration unless it has them, and touches nothing else |
| Records.ReportMeans | scripts/installed_self_test_capture.py:273-280 | every other accepted record becomes the latest progress: kind, time, phase, last completed phase and texts by their fields, texts shortened to 1024 and 256 bytes |
| Records.ReportIsMeasured | scripts/installed_self_test_capture.py:149-156 | the sizes kept are those of the latest report's texts before and after shortening, and of no older one's |
| Records.AcceptedIsCounted | scripts/installed_self_test_capture.py:245-248 | every accepted record is counted once, with the number of its fields that nobody knows |
| Framing.Parser.EndLine | scripts/installed_self_test_capture.py:161-167 | a newline delivers the carry, ends a dropped line, or leaves the carry behind if the record raises |
| Framing.Parser.ExtendLine | scripts/installed_self_test_capture.py:168-181 | any other byte is carried, counted as dropped, or makes the line too long |
| Framing.Parser.FeedByte | scripts/installed_self_test_capture.py:160-181 | one byte takes the parser one step of the specification |
| Framing.Parser.Feed | scripts/installed_self_test_capture.py:158-181 | a chunk takes the parser through its bytes, up to an exception |
| Framing.Parser.FinishStream | scripts/installed_self_test_capture.py:183-188 | the end of the stream counts an unfinished line and clears the carry |
| Framing.StaysFramed | scripts/installed_self_test_capture.py:158-181 | the carry never exceeds its bound, holds no newline, and is empty while a line is dropped |
| Framing.ChunkingIsInvisible | scripts/installed_self_test_capture.py:158-181 | cutting the stream into chunks makes no difference |
| Lines.FramingRefinesSplitting | scripts/installed_self_test_capture.py:158-181 | for every stream the whole final state: records are exactly the lines that fit, in order up to one that raises, longer lines are rejected once, and the carry is the unterminated rest or the record that raised |
| Lines.EveryStreamSplits | scripts/installed_self_test_capture.py:158-181 | every byte stream is such a list of lines and a rest |
| Lines.OnlyHeardLinesMatter | scripts/installed_self_test_capture.py:158-181 | the parser raises exactly if some line crashes it, and ignores everything after |
| Lines.RejectionsAreAccounted | scripts/installed_self_test_capture.py:145-147 | over every stream acceptances and rejections add up to the lines heard, an unterminated line that is too long included, each is counted exactly up to the cap, and below it the reasons add up |
| Lines.BytesAreAccounted | scripts/installed_self_test_capture.py:158-188 | for every stream the carry and all end counters: partial bytes are the dropped ones and the carry, unfinished ones those of the open line, be it unterminated or the record that raised |
| Lines.BytesAreConserved | scripts/installed_self_test_capture.py:158-181 | the bytes taken in, newlines aside, are those delivered, carried and dropped, each once, exactly if the parser has not raised at a non-empty record |
| Lines.HighWaterIsLongest | scripts/installed_self_test_capture.py:176-180 | the high-water mark is the length of the longest line heard or begun, or the bound if that is less |
| Lines.VerdictOfLine | scripts/installed_self_test_capture.py:168-181 | a line is too long exactly beyond 16384 bytes, and otherwise rejected for what is wrong with it |
| Lines.RaisingCountsTwice | scripts/installed_self_test_capture.py:166-188 | a record at which the parser raises is counted as accepted and again, with all its bytes, as unfinished |
| Lines.CapturedChronologyIsExact | scripts/installed_self_test_capture.py:190-272 | the chronology theorem holds of the bytes actually fed, whatever they end in: conflicts and duplicates are counted exactly, and each slot holds the first report of each transition |
| Streams.Stream.KeepChunk | scripts/installed_self_test_capture.py:362-370 | one chunk updates tail, counters and high-water mark |
| Streams.Stream.Decode | scripts/installed_self_test_capture.py:334-349 | one decoded chunk extends the text tail, and an error stops decoding for good |
| Streams.Stream.Pump | scripts/installed_self_test_capture.py:353-372 | the loop reads until the pipe ends or fails, it is stopped, or the parser raises |
| Streams.Stream.Drain | scripts/installed_self_test_capture.py:351-377 | however draining ends, the parser has heard the bytes read and has been told that the stream is over |
| Streams.RawTailIsLast | scripts/installed_self_test_capture.py:362-370 | for any chunks the tail is the last bytes of the stream, as many as fit, and observed bytes are retained or discarded |
| Streams.TextTailIsLongest | scripts/installed_self_test_capture.py:334-349 | for any chunks the text tail is the longest suffix of all decoded text that starts on a code point and fits |
| FormatTails.SharesAreFair | scripts/installed_self_test_capture.py:396-401 | the whole budget is handed out, each stream gets the smaller of its size and half, and both get all they need if that is possible |
| FormatTails.NarrowIsLocallyBest | scripts/installed_self_test_capture.py:415-422 | for any predicate, monotone or not, the search ends on a length that fits and that one more byte would break |
| FormatTails.FittingIsNotMonotone | scripts/installed_self_test_capture.py:418-419 | the predicate searched is not monotone: a longer suffix can fit where a shorter one does not |
| FormatTails.ShownFits | scripts/installed_self_test_capture.py:405-427 | a shown tail fits its room if the mark does, cannot be lengthened by a byte, and wastes at most two thirds of the room |
| FormatTails.CutTail | scripts/installed_self_test_capture.py:407-427 | the loops compute the shown tail, and the closing loop never turns |
| FormatTails.Format | scripts/installed_self_test_capture.py:392-436 | for any supplied tails the budget is shared by their sizes, and exactly if it fits the display is returned: `stdout:`, the whole first tail or a mark and its newest bytes, `stderr:`, the second likewise, with their accounting |
| FormatTails.DisplayStaysInBudget | scripts/installed_self_test_capture.py:392-436 | from the least budget on the display fits, reads as its accounting says, represented and omitted bytes make up each tail, and nothing is cut when both fit together |
| FormatTails.LeastBudgetIsExact | scripts/installed_self_test_capture.py:434-435 | forty is the smallest budget that holds the display of every pair of tails |
| Serialize.EvictStreams | scripts/installed_self_test_capture.py:456-462 | one turn of eviction drops the oldest bytes of every stream and restates its accounting |
| Serialize.Serialize | scripts/installed_self_test_capture.py:443-494 | for any tails and raw bytes the result states its own length and that of a document without any tail, command, path, diagnostic or note, and is returned exactly if those keep 262144 and 16384 |
| Serialize.InitialIsMeasured | scripts/installed_self_test_capture.py:443-453 | the initial length is that of the document as given, with every retained byte represented |
| Serialize.ReductionsMean | scripts/installed_self_test_capture.py:455-478 | diagnostics, command and paths, and notes are dropped in this order, each exactly if the document is still too long without that, and the reductions say which |
| Serialize.ReductionsByName | scripts/installed_self_test_capture.py:463-477 | the names under which the reductions are printed |
| Serialize.SkeletonIgnoresTexts | scripts/installed_self_test_capture.py:479-489 | documents that differ only in tails, command, paths, diagnostics or notes state one skeleton length |
| Serialize.StringReadsBack | scripts/installed_self_test_capture.py:439-440 | a printed string is read back, whatever follows it |
| Serialize.StringSize | scripts/installed_self_test_capture.py:439-440 | a printed string has its bytes in UTF-8, two quotes, one more byte for each of seven characters and five for every other control |
| Serialize.EvictionIsMinimal | scripts/installed_self_test_capture.py:449-464 | eviction takes exactly as many turns as it needs to fit or to run out of tails, each tail is the newest remaining bytes, and represented plus omitted is what was retained |
| Serialize.ThreePassesSettle | scripts/installed_self_test_capture.py:490-491 | for every base length three passes reach a length that describes itself |
| Serialize.TwoPassesDoNot | scripts/installed_self_test_capture.py:490-491 | two passes do not for some base length |
| Serialize.SignedLengthIsTrue | scripts/installed_self_test_capture.py:488-492 | the signed document contains its own length, which is the tested length with two zeros replaced |
| Serialize.FinalAssertionHoldsExactly | scripts/installed_self_test_capture.py:455-493 | the final assertion holds exactly if the tested length leaves room for the digits, and is missed by at most nine bytes |
| Serialize.AssertionCanFail | scripts/installed_self_test_capture.py:455-493 | for every layout and every document with room for it, NULs and letters on the first stream pass every size test and fail the assertion |
| Persistence.Receiver.ReceiveChunk | scripts/installed_self_test_capture.py:587-589 | a chunk joins the buffer unless that grows beyond its bound |
| Persistence.Receiver.DigestBuffer | scripts/installed_self_test_capture.py:590-603 | all whole lines of the buffer are heard in order, up to a reported error, as the four rows below say |
| Persistence.ReceiveLeavesNoLine | scripts/installed_self_test_capture.py:581-603 | more than 16384 waiting bytes raise; after any other chunk the supervisor has raised, heard of a failure, or left no whole line in the buffer |
| Persistence.DigestHearsAll | scripts/installed_self_test_capture.py:590-603 | a buffer of several whole lines and an unfinished one: all lines are heard in order and the unfinished one is kept |
| Persistence.ReceiveHearsAll | scripts/installed_self_test_capture.py:587-603 | so is a chunk after which several whole lines wait, unless more than 16384 bytes do |
| Persistence.DigestStopsAtFailure | scripts/installed_self_test_capture.py:590-603 | the lines before a reported failure are heard and those after it wait |
| Persistence.Receiver.Conclude | scripts/installed_self_test_capture.py:638-644 | the status becomes acknowledged exactly at two reported files, by the step the machine takes |
| Persistence.RunKeeps | scripts/installed_self_test_capture.py:512-546 | the protocol invariant holds in every state reachable by any interleaving, any cutting of the pipe and kills at any step |
| Persistence.AcknowledgedMeansSaved | scripts/installed_self_test_capture.py:620-649 | after any run a final name holds its whole content, files are reported in the order capture, excerpt, and acknowledged means that both are in place |
| Persistence.SavedFilesStay | scripts/installed_self_test_capture.py:533-541 | a saved file stays saved and unchanged whatever follows |
| Persistence.FailureHasACause | scripts/installed_self_test_capture.py:525-546 | a worker that nothing goes wrong with reports a failure only if its input was closed before all of it was sent |
| Persistence.NoAcknowledgementIsLost | scripts/installed_self_test_capture.py:581-603 | once everything printed has been read, a supervisor that has neither raised nor heard of a failure has heard every line and of every file, in order |
| Persistence.CanBeAcknowledged | scripts/installed_self_test_capture.py:512-546 | if acknowledgement lines fit the buffer, some run without a failure or a kill ends acknowledged |
| Listing.ReadListing | scripts/publish_release.py:302-313 | the loop over the pieces between NULs reads each record or finds it malformed |
| Listing.ListingReadsBack | scripts/publish_release.py:302-313 | a printed listing is read back record by record, whatever tabs, spaces and newlines stand in its paths |
| Listing.RecordMeans | scripts/publish_release.py:308-313 | a record is understood exactly if it is three ASCII words between single spaces, a tab, and a path that can be decoded; it then means these |
| Listing.ListingMeans | scripts/publish_release.py:305-307 | every input is pieces between NULs, and each that is not empty is read as one record, in order |
| BlobBatch.ReadBlobs | scripts/publish_release.py:335-358 | the offset loop fills the dictionary the batch specification gives, or fails as it does |
| BlobBatch.BatchIsExact | scripts/publish_release.py:340-358 | an input is accepted with these contents exactly if it is their concatenated answers up to the spelling of sizes |
| BlobBatch.RefusalMeans | scripts/publish_release.py:344-355 | an answer is truncated exactly without a newline, and malformed exactly if its first line is not three words with a readable size |
| BlobBatch.RefusalIsFirst | scripts/publish_release.py:340-358 | a refused input is whole answers up to the first refused one, or all of them and something more |
| BlobBatch.BatchRoundTrip | scripts/publish_release.py:340-358 | answers with plain digits are read back whatever the contents look like |
| BlobBatch.FirstOfGrows | scripts/publish_release.py:336-338 | each id is requested once, in the order of its first entry: more entries only add ids at the end |
| TreeEntries.SplitJoin | scripts/publish_release.py:316-323 | splitting a path at slashes undoes joining its components |
| TreeEntries.UsablePathMeans | scripts/publish_release.py:316-319 | a path is usable exactly if no part between its slashes is empty, a dot name, a device name, ends in a dot or space, or holds a character that is not portable |
| TreeEntries.KeysCompareParts | scripts/publish_release.py:320-328 | comparing folded joined prefixes is comparing folded components |
| TreeEntries.FileLast | scripts/publish_release.py:322-328 | the alias table finds an alias of the newest path exactly if there is one |
| TreeEntries.ReadRecord | scripts/publish_release.py:308-319 | a record is accepted exactly if it is a regular blob with a path all of whose components are portable, and otherwise refused for the first defect |
| TreeEntries.ReadEntries | scripts/publish_release.py:299-332 | a listing is accepted exactly if it is not empty, all records are usable, and no two prefixes fold alike without being alike; otherwise the first record that breaks this says why |
| Materialize.WriteAll | scripts/safe_materialize.py:24-30 | partial writes add up to the whole content or an error |
| Materialize.Writer.MakeDirectory | scripts/safe_materialize.py:63-83 | a directory is made with all its ancestors exactly if the file system has room for each, and nothing else changes; otherwise the ancestors before the first without room are left |
| Materialize.Writer.MakeFile | scripts/safe_materialize.py:85-115 | a file is made exactly if its directories can be and its name is free in the file system's eyes; otherwise only directories on its way are left |
| Materialize.TakenAfterParents | scripts/safe_materialize.py:63-83 | making the ancestors of a path takes no name beside it |
| Materialize.LayoutHolds | scripts/safe_materialize.py:297-305 | the tree of a listing holds its files, their proper prefixes as directories, and nothing else |
| Materialize.LayoutReflects | scripts/safe_materialize.py:297-305 | at each path of a listing stands a file with the bytes of its id and the mode that the last three octal digits spell, above it directories, and nothing else stands anywhere |
| Materialize.GitModes | scripts/publish_release.py:391 | the two modes there are mean 0644 and 0755 |
| Materialize.RoomMeansCoexist | scripts/safe_materialize.py:63-115 | there is room for one more file exactly if its path parts from every other before the file system confuses them |
| Materialize.Create | scripts/safe_materialize.py:297-305 | creation works exactly if all paths can live together, in any order, and then reflects the listing: files by path, bytes and mode digits, directories above them, nothing else |
| Materialize.AcceptedCoexist | scripts/publish_release.py:320-328 | paths without aliases, none inside another, live together in every file system that folds no more than the check |
| Materialize.TakeInventory | scripts/publish_release.py:365-384 | the walk lists exactly the watched files and directories, and stops exactly at a node that is neither |
| Materialize.Verify | scripts/publish_release.py:361-392 | for any listing a tree is accepted exactly if its watched part reflects the latest entry for each path: files by path and bytes, by mode digits when modes are checked, directories above them, nothing else |
| Projection.FetchBlobs | scripts/publish_release.py:335-358 | every entry gets the content that the answer holds for its id, or the whole answer is refused |
| Projection.AcceptedMeans | scripts/publish_release.py:299-332 | accepted are listings, not empty, of regular blobs with acceptable paths, no two prefixes of which fold alike part by part without being alike |
| Projection.MaterializeCommit | scripts/publish_release.py:395-415 | from raw listing and raw answer, the projection succeeds exactly if the listing is accepted, its blobs can be read and its paths can live together; each record then has left a file at its path with the bytes of its id and the mode its digits spell, with directories above and nothing else |
| Projection.AcceptedIsProjectable | scripts/publish_release.py:299-415 | the bytes of an accepted listing with no path inside another are projectable into every file system that folds no more than the check, with the answer Git gives |
| Ordering.SortedAscends | scripts/run_windows_unittests.py:93 | sorting puts strings in the order of their code points |
| Ordering.PrecedesMeans | scripts/run_windows_unittests.py:93 | one sequence precedes another if it is a prefix, or smaller where they first differ |
| Ordering.SortedByAscends | scripts/run_windows_unittests.py:148 | sorting by a key puts the keys in order |
| Ordering.SortedByIsStable | scripts/run_windows_unittests.py:148 | elements with equal keys stay in their order |
| Ordering.SortedIsUnique | scripts/run_windows_unittests.py:93 | equal bags of strings sort alike |
| Manifest.MergedAt | scripts/manifest_merge_driver.py:29-38 | the merged entry is theirs where ours is unchanged, deletions included, and ours elsewhere |
| Manifest.MergeIsSymmetricExactly | scripts/manifest_merge_driver.py:29-58 | exchanging the sides changes nothing exactly if no entry was changed differently by both |
| Manifest.MergeMapping | scripts/manifest_merge_driver.py:51-58 | the loop over the sorted union of keys builds the merged index |
| Manifest.MergeCommutesWithIndexing | scripts/manifest_merge_driver.py:51-58 | merging the indexes of three trees is indexing the trees merged file by file, if digests tell their contents apart |
| Manifest.CollisionBreaksMerge | scripts/manifest_merge_driver.py:29-58 | any two contents with one digest make three trees for which that fails |
| Manifest.CommutesExactly | scripts/manifest_merge_driver.py:29-58 | it holds for all trees exactly if the digest is injective |
| Manifest.KeysInOrderEnumerates | scripts/manifest_merge_driver.py:107 | the keys in order are each key once, ascending |
| Manifest.SortKeys | scripts/manifest_merge_driver.py:53 | sorting a set gives one sequence, whatever order the set yields |
| Advisory.SplitJoin | scripts/manifest_merge_driver.py:88 | splitting joined lines gives the lines back if none holds a line break |
| Advisory.BreaksByCode | scripts/manifest_merge_driver.py:88 | the ten characters that end a line |
| Advisory.ReturnAndNewline | scripts/manifest_merge_driver.py:88 | a return and a newline after it end one line |
| Advisory.JoinSplit | scripts/build_release.py:120-122 | joining split lines gives the text back if only newlines break its lines |
| Advisory.RowReadsBack | scripts/manifest_merge_driver.py:19 | a printed row is read back, even if its path contains the separator |
| Advisory.RowIsPrinted | scripts/build_release.py:32 | a line read as a row is that row printed |
| Advisory.VersionMeans | scripts/manifest_merge_driver.py:20 | a version is three runs of digits, none empty, with dots between them |
| Advisory.LastTitleMeans | scripts/manifest_merge_driver.py:85-100 | the version is that of the last line that is a title |
| Advisory.PrintedLines | scripts/manifest_merge_driver.py:101-108 | the printed manifest line by line: title, the two paragraphs, the table head, and a row for each key in order |
| Advisory.DigestMeans | scripts/manifest_merge_driver.py:19 | a digest is 64 lower-case hexadecimal digits |
| Advisory.RenderAdvisory | scripts/manifest_merge_driver.py:101-108 | the text is the fixed header and one row for each key in order |
| Advisory.CollectRows | scripts/build_release.py:127-134 | rows are collected into the map they describe, exactly if their paths are distinct and, when strict, all lines are rows; otherwise the first line that breaks this says why |
| Advisory.LoadAdvisory | scripts/manifest_merge_driver.py:85-100 | a text loads exactly if it has a title and distinct rows, with the last title and the map the rows describe; a repeated row is named before a missing title |
| Advisory.LoadAdvisoryManifest | scripts/build_release.py:114-135 | the strict loader gives the header and the map the rows describe, or refuses every other text: for its line ends, then its length, then its first bad row |
| Advisory.PrintedIsRead | scripts/build_release.py:77-88 | both parsers recover exactly what was printed and nothing else |
| Advisory.MergeAdvisory | scripts/manifest_merge_driver.py:125-130 | texts that load merge to the print of the merged maps, or to an error exactly at incompatible versions; texts that do not load are refused |
| Advisory.MergePrinted | scripts/manifest_merge_driver.py:125-130 | merging three printed manifests prints the merge byte for byte |
| Advisory.MergeTreeManifests | scripts/manifest_merge_driver.py:125-130 | merging the printed manifests of three trees prints the manifest of the trees merged file by file, exactly if the versions agree |
| Advisory.LoadMachine | scripts/manifest_merge_driver.py:61-78 | a machine manifest loads exactly if it parses, with the known format and well-formed digests, and is otherwise refused for the first of these |
| Advisory.MergeMachine | scripts/manifest_merge_driver.py:111-122 | three texts that load merge to the printed merge of their maps, itself well-formed, exactly if the versions agree; otherwise the first that does not load says why |
| Advisory.LoadedIsPrintable | scripts/manifest_merge_driver.py:85-100 | whatever a text loads as can be printed |
| Advisory.MergeBoth | scripts/manifest_merge_driver.py:111-130 | any three machine and advisory texts that agree merge to texts that agree, both or neither, and these are what generating from the merged map gives |
| Advisory.CheckAdvisory | scripts/build_release.py:138-163 | the advisory file passes exactly if it is equal or says the same under an equal header |
| Advisory.CheckManifestFiles | scripts/build_release.py:138-163 | missing files are named before any is compared, then stale ones, and the check passes exactly if both files are there and say what was expected |
| Advisory.AcceptedAreRearranged | scripts/build_release.py:138-163 | accepted texts are exactly those whose lines are the header and a permutation of the rows, without returns and ended by a newline |
| Advisory.AcceptedLoads | scripts/build_release.py:138-163 | what the check accepts loads as the manifest it was checked against |
| Advisory.AcceptedBytes | scripts/build_release.py:138-163 | without other line breaks accepted texts are exactly the manifest's bytes with rows permuted |
| Advisory.OtherBreaksAreAccepted | scripts/build_release.py:114-135 | every manifest with a vertical tab after its title is accepted too, though it joins no lines |
| Shards.SixSlices | scripts/run_windows_unittests.py:95-96 | the six slices hold every path as often as the list does |
| Shards.AllocateSuite | scripts/run_windows_unittests.py:87-106 | duplicates are refused, and otherwise each shard gets its share, sorted |
| Shards.Allocate | scripts/run_windows_unittests.py:87-106 | every suite is allocated on its own, exactly if none has duplicates |
| Shards.GuardSuite | scripts/run_windows_unittests.py:115-129 | the four complaints are empty exactly if the excluded and unlisted modules are in no shard, the split one once in shards 1 and 8, and every other listed one once in one shard |
| Shards.Guard | scripts/run_windows_unittests.py:109-129 | the guard accepts exactly allocations of the four suites in which every module has that place |
| Shards.ShareCounts | scripts/run_windows_unittests.py:94-105 | an ordinary path occurs in the seven ordinary shares as often as listed, the split one in its two |
| Shards.AllocationIsSound | scripts/run_windows_unittests.py:87-134 | every allocation puts each ordinary module in one shard once, the split one in its two, others nowhere |
| Shards.SoundMeans | scripts/run_windows_unittests.py:109-134 | being sound is having, of shards 0 to 8, none for excluded and unlisted modules, 1 and 8 for the split one, and one for every other |
| Shards.OnlyTheSetMatters | scripts/run_windows_unittests.py:93 | two duplicate-free lists of the same paths are allocated alike |
| Shards.RankDecides | scripts/run_windows_unittests.py:95-101 | a module's rank modulo six names its shard; in the slice that two shards share, its rank among the ordinary modules there decides by parity |
| Shards.SharesAreEven | scripts/run_windows_unittests.py:95-101 | base slices and the two re-split shards differ in size by at most one |
| Shards.AllocateAndGuard | scripts/run_windows_unittests.py:87-129 | a duplicate-free inventory is allocated, every module has its place, and the guard accepts the result |
| Shards.SplitCases | scripts/run_windows_unittests.py:137-162 | the flattened cases, in the order of their identifiers, are split exactly if names are unique, the first half is present and the second is not empty, in shard 1 or 8; otherwise the first defect is named |
| Shards.HalvesPartition | scripts/run_windows_unittests.py:151-162 | the halves are disjoint, not empty, together all discovered cases, and the first has exactly the fixed names |
| Shards.HalvesAreOrdered | scripts/run_windows_unittests.py:148-162 | each half is in the order of its identifiers, and equal identifiers keep the order of discovery |
| Shards.FlattenLaws | scripts/run_windows_unittests.py:137-143 | the cases of a suite are those of its parts from left to right, wherever it is cut |
| Shards.Reconcile | scripts/run_windows_unittests.py:165-168 | execution is accepted exactly if each selected module ran once and nothing else did |
| Shards.EverythingRan | scripts/run_windows_unittests.py:165-168 | if every shard reconciles, each ordinary module of the inventory ran once over all shards and the split one twice |
| Gitignore.LinesOf | scripts/ac42_e2e.py:372-374 | cutting into lines loses nothing, and only the last line may be unfinished |
| Gitignore.LinesOfConcat | scripts/ac42_e2e.py:372-374 | lines put together are cut into the same lines |
| Gitignore.Scan | scripts/ac42_e2e.py:370-384 | the scan finds exactly the spans of the managed blocks, or refuses a spoilt, doubled or open one |
| Gitignore.RebuildingRenders | scripts/ac42_e2e.py:389-398 | copying between the spans yields the file with the first block replaced and the others gone |
| Gitignore.Rebuild | scripts/ac42_e2e.py:389-398 | the moving index copies every byte outside the spans |
| Gitignore.ExpectedGitignore | scripts/ac42_e2e.py:357-398 | the rewriter is the specification the following rows are about |
| Gitignore.RewriteMeans | scripts/ac42_e2e.py:357-398 | by lines: refused exactly are spoilt headers, headers in an open block and blocks left open; without a header the template is added after the last line; otherwise it stands where the first block opened and every line of a block is gone |
| Gitignore.HeaderIsSpelled | scripts/ac42_e2e.py:368-369 | the header and the terminal, letter by letter |
| Gitignore.EntriesMakeATemplate | scripts/ac42_e2e.py:359-365 | header, any entries and terminal make a template of one block |
| Gitignore.ShippedIsTemplate | scripts/ac42_e2e.py:359-365 | the template that ships is one |
| Gitignore.OneBlockRestKept | scripts/ac42_e2e.py:357-398 | the result has exactly one managed block, the template, and all outside bytes in order, for exactly the stable inputs |
| Gitignore.IdempotentExactly | scripts/ac42_e2e.py:357-398 | a second application changes nothing for exactly the stable inputs, and refuses for the others |
| Gitignore.SecondApplicationCanRefuse | scripts/ac42_e2e.py:372-382 | a concrete unstable input, for every template |
| Catalog.Store.Publish | scripts/publish_catalog.py:87-100 | one publication, stopped at any write, ends where the specification says |
| Catalog.OutcomeMeans | scripts/publish_catalog.py:87-100 | a publication succeeds over nothing or a catalog of no later version, if not stopped before its last write, and otherwise says why it did not and changes no current document |
| Catalog.AttemptNeverMovesBack | scripts/publish_catalog.py:92-98 | one publication, whatever the digest, moves the pointer to no earlier version |
| Catalog.AttemptKeepsExactly | scripts/publish_catalog.py:95-98 | one publication loses no catalog exactly if the entry it archives over is the same document, or the one it then publishes |
| Catalog.PointerNeverGoesBack | scripts/publish_catalog.py:87-100 | over every run, and for every digest, the published version never decreases |
| Catalog.NothingIsLostExactly | scripts/publish_catalog.py:87-100 | over a run every catalog once present stays current or in history under its digest, at every later point, exactly if each attempt spares what it archives over |
| Catalog.CollisionLosesACatalog | scripts/publish_catalog.py:95-98 | two catalogs of one digest, published in turn, and a third: the first is gone |
| Catalog.DistinctDigestsSuffice | scripts/publish_catalog.py:95-96 | nothing is lost if the digests of the run's own documents differ |
| Catalog.CurrentIsLastSuccess | scripts/publish_catalog.py:87-100 | after every run the current document is that of the last publication that reported success |
| Catalog.StoppingCostsNothing | scripts/publish_catalog.py:95-98 | however often a publication is stopped and tried again, it ends where one without a stop would have |

## Left out

- Clocks, receipts and `parent_observed_running_seconds` (`scripts/installed_self_test_capture.py:261, 282-290`): the snapshot's running time needs a real clock.
- Process launching, pipe polling, threads, deadlines and `run_bounded`'s option checks. What a poll returns, when a process is killed and which step comes next are inputs of the model.
- The JSON and YAML libraries. A record is judged through a loader given as a parameter; documents are values printed as compact JSON; `expected_project_config` is not modelled.
- The incremental decoder: each chunk's decoded text, or an error, is an input.
- SHA-256 is a function parameter; where a property needs different contents to have different digests, it says so.
- Commit resolution and the Git processes: the raw listing and the raw batch answer are inputs of `Projection.MaterializeCommit`. Strict UTF-8 decoding of a path is a parameter.
- TreeEntries.ReadRecord: how text turns into upper case, for comparing with device names, is a parameter; the raw record is read by `Listing.ReadListing`.
- TreeEntries.ReadEntries: case folding is a parameter that folds character by character and leaves slashes alone.
- Materialize.Writer.MakeDirectory: nothing else touches the tree meanwhile, so the identity checks of pinned directories cannot fail and are not modelled.
- Materialize.Writer.MakeFile: for the same reason without the checks of the anonymous inode and its link count; that all bytes are written is `Materialize.WriteAll`.
- Materialize.TakeInventory: links, devices and files with several names are one kind of node, refused at sight.
- Projection.MaterializeCommit: the optional mode manifest, a JSON print of the listing, is not written.
- The validation worktree and everything else in `scripts/publish_release.py` beyond lines 299-415: straight-line orchestration.
- Advisory.LoadMachine: reading JSON, its duplicate-key check and the check of the field set belong to the JSON library, which is a parameter.
- Advisory.MergeMachine: printing JSON is a parameter too; the merged text is what it prints of the merged value.
- The advisory text is a sequence of characters; its UTF-8 encoding is the identity of the model.
- Test discovery, the child interpreters and their records: the executed modules are an input of `Shards.Reconcile`.
- Gitignore.ExpectedGitignore: the theorems are about templates of one header-to-terminal block, as `Gitignore.ShippedIsTemplate` shows the shipped one to be; for other templates only the method's own contract is proved.
- Catalog.Store.Publish: each write replaces a file whole, so the read-back after it cannot differ; the release checks before the lock are not modelled.
- Schema, prompt and example generators, archive and checkout validation, bootstrap, hygiene and review scripts: tables and single checks.
