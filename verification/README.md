# nano-sensor in Dafny

nano-sensor is a host agent. It inventories packages, matches them against a CVE index, spools
the results on disk and delivers them to a server. This project models the parts of it in which
state, arithmetic or concurrency decide whether the result is right, and proves what they keep.

| file | what it holds |
|---|---|
| `Crc.dfy` | the frame checksum: table loop, bit-serial register, error detection |
| `Frames.dfy` | one record on disk, and reading a stream of records with a torn or damaged end |
| `SegmentStore.dfy` | the spool as a value: segments, cursor, queue, commit, append, eviction |
| `Fifo.dfy`, `Appends.dfy` | what commit does to a well-framed spool, and what a write does to any |
| `Layouts.dfy`, `SpoolLayout.dfy` | the counts of skippable frames and readable records, and commit as arithmetic on them |
| `DrainRounds.dfy` | repeated post-and-commit rounds on any disk: order, completeness, when they end |
| `Runs.dfy` | whole runs of appends, deliveries, commits and kills at any disk write, each with a reopen |
| `RunLedgers.dfy` | what it means in a run that a record is counted as evicted or delivered |
| `DrainRuns.dfy` | drains inside runs, and the run after which one record is resent for ever |
| `Spool.dfy` | the spool object, proved against `SegmentStore`, with every disk state it passes through |
| `Reporter.dfy` | the drain loop with retry, backoff and interruptible sleep |
| `Json.dfy`, `JsonWriter.dfy` | the JSON writer, a reader after RFC 8259, the spliced telemetry text |
| `Version.dfy`, `VersionLaws.dfy` | the version comparison, the order behind it, ranges, and what it means for version strings |
| `Names.dfy`, `NameLaws.dfy` | name normalisation and aliases, and what they mean for the texts |
| `Cve.dfy` | rule loading, matching, the scan report |
| `Agent.dfy`, `AgentStops.dfy` | the scan worker and the request handlers as interleaved steps over four locks, when the worker scans and how it stops |
| `Sorting.dfy`, `Options.dfy` | a comparison sort and an option type |

`dafny verify dfyconfig.toml` checks everything.

## What the proofs found

- **A drain can resend one record for ever, in two ways.** `commit` skips frames by magic and length
  and gives up when the cursor has no header in front of it (`src/spool.cpp:374-392`). With a later
  segment it then changes nothing, whatever the count, on any disk (`SpoolLayouts.CommitIdleIff`).
  On a spool whose files are all whole frames that place is the end of a segment, and an empty
  directory, two appends and a commit reach it (`DrainRounds.StallReachable`). After a kill right
  behind the header of a frame, `commit` also counts that bare header as a record, walks past the end of the file and
  stops there (`DrainRuns.TornHeaderStalls`).
- **When a drain ends.** All that matters of a disk is its layout: per segment, how many records are
  readable after skipping 0, 1, 2, ... frames. The commits of a drain ask for frames 0, p1, p2, ...,
  each step the smaller of the batch and the number of records readable there. On every spool a run
  can reach, whatever bytes its files hold, a drain against a willing server empties the spool if and
  only if no such place is the end of a segment that is not the last, with records behind it
  (`DrainRounds.DrainEmptiesIff`).
- **When a drain sends the queue itself**, in order and nothing twice: if and only if every segment with
  records behind it holds only readable frames, at least one past the current segment, and no
  multiple of the batch size short of the whole queue is such a segment's end
  (`DrainRounds.SentInOrderIff`). Otherwise records are sent again, never skipped (`DrainRounds.SentOrPending`).
- **A torn tail is not truncated.** `include/ns/spool.hpp:27-29` says that `open` truncates at the
  first short frame; the code does not. An append that lands on such a segment returns true, and
  its record is in the queue if and only if the segment had no torn end (`Runs.AppendedIff`).
  `Runs.TornLandingLoses` gives the run that loses a record. With that one proviso no accepted
  record is ever lost (`Runs.NothingLost`).
- **`version_compare` is not an order.** `1.0p < 1.0rc < 1.0 < 1.0p` (`Versions.ThreeCycle`). On the
  versions over a vocabulary of words it is transitive if and only if every pre-release word in the
  vocabulary precedes every other word in it (`Versions.OrderIffCompatible`).
- The pre-release list entry `a1` can never match, since words are runs of letters (`Versions.DeadWord`).
- The epoch is read modulo 2^64, while digit runs elsewhere saturate: 18446744073709551616:1 is below
  1:1 (`Versions.EpochWraps`). The epoch is the number written if and only if that is below 2^64
  (`Versions.EpochAgreesIff`), and such epochs compare as numbers (`Versions.EpochsCompare`).
- The pending counter is right after an append if and only if eviction reached the cursor or the write
  made exactly one more record readable, and after a commit if and only if every frame skipped was
  a record (the contracts of `Spool.Append` and `Spool.Commit`).
- A row of the CVE index whose twelfth column is empty is skipped, because `split_tabs` drops an
  empty last field (`Cves.RuleColumns`).
- A comment in `src/cve.cpp:192-194` says that "microsoft visual studio" never collapses to
  "microsoft". It does as soon as that word has an exact rule (`Names.VendorCollapse`), and
  `Names.FirstWordFallback` says when.

## Modelling choices

- A record is identified by its place: segment, offset, payload. Two records with the same payload
  are different records.
- The directory is a map from segment id to bytes plus the contents of the state file. A process
  can die before or after any disk operation and after any byte of a write; renaming the state file
  is atomic. A seek past the end of a file succeeds and reads nothing.
- Bytes are numbers below 256, 32-bit registers are sequences of 32 bits, and 64-bit wrap-around is
  written out where the source can reach it (epochs, backoff). Counters and file sizes are unbounded.
- Strings are sequences of characters; classification and case are those of the C locale.
- The server, the random draw, the clock, the stop flag, number formatting and `strtod` are parameters.
- `segmentBytes > 0` in the theorems about runs and order: the reporter configures an eighth of the
  budget plus one. With zero every append would open a new segment.
- A spool is sound when its id list names exactly its files and the cursor stands in one of them, or it
  is empty with the cursor at the start. Every spool in a run is sound. "On any disk" below means a
  sound spool with any bytes whatever in its files, torn and damaged ones included; a well-framed
  spool has only whole frames in its files.

## Model

| member | source | states |
|---|---|---|
| Crc.Crc32 | src/spool.cpp:27-42 | the table loop computes the bit-serial checksum of section 8 of RFC 1952 for every byte string |
| Crc.CheckValue | src/spool.cpp:27-42 | the checksum of the nine digits 1 to 9 is CBF43926, the published check value, which fixes generator, preset, complement and bit order |
| Crc.GeneratorDegrees | src/spool.cpp:32 | the generator has exactly the terms 26, 23, 22, 16, 12, 11, 10, 8, 7, 5, 4, 2, 1 and 0 below its leading one |
| Crc.RegisterInjective | src/spool.cpp:39-41 | for a fixed message different registers stay different, so no step merges states |
| Crc.ShiftsBijective | src/spool.cpp:32 | any number of shifts is a bijection on registers: each is reached from exactly one |
| Crc.BurstDetected | src/spool.cpp:27-42 | two messages that differ only inside 32 consecutive bits have different checksums |
| Crc.FourByteChangeDetected | src/spool.cpp:27-42 | any change confined to four consecutive bytes changes the checksum |
| Frames.WordRoundTrip | src/spool.cpp:44-59 | reading back a little-endian word gives the number |
| Frames.WordRoundTripBack | src/spool.cpp:44-59 | writing the number read from four bytes gives the bytes |
| Frames.FrameIntact | src/spool.cpp:217-228 | a frame passes every check of the reader, claims exactly its length, and carries its payload |
| Frames.FrameBytes | src/spool.cpp:217-228 | the bytes of a frame: 31 50 53 4E, length and checksum of the payload low byte first, the payload |
| Frames.AcceptedIff | src/spool.cpp:317-339 | the reader accepts a frame if and only if those four bytes, a complete payload and its checksum are there |
| Frames.SkippedIff | src/spool.cpp:374-384 | commit goes by twelve bytes of which the first four are the magic, and by the length in the next four |
| Frames.FoundIffFramed | src/spool.cpp:222-228 | a record written at the end of a file is found if and only if nothing torn or damaged stands before it |
| Frames.StreamReadsBack | src/spool.cpp:317-345 | frames written one after another read back as written, whatever follows |
| Frames.TornFrameRejected | src/spool.cpp:317-335 | every proper prefix of a frame is rejected, without any assumption about collisions |
| Frames.TornStreamReadsBack | src/spool.cpp:317-345 | any list of records followed by any proper prefix of one more frame reads back as exactly the list |
| Frames.DamagedRecordStopsReading | src/spool.cpp:336-339 | damage inside four payload bytes makes the reader return exactly the records before it |
| SegmentStore.WalkCovers | src/spool.cpp:374-389 | on any bytes, the walk of commit passes every frame that peek accepts, and what is left behind it is the rest |
| SegmentStore.CommitSafe | src/spool.cpp:351-407 | on any disk, even a corrupt one, all but the first k pending records are still at the end of the queue after commit(k) |
| SegmentStore.WriteLands | src/spool.cpp:206-228 | a record goes behind the bytes of the last segment, or into the next number once that file has reached the segment size; no other file and no cursor changes |
| SegmentStore.EvictBounds | src/spool.cpp:272 | after eviction the bytes on disk are at most max_bytes or one segment is left |
| SegmentStore.EvictNeeded | src/spool.cpp:272 | no eviction is needless: before each of them the bytes on disk exceed max_bytes and there are two segments |
| SegmentStore.DropManyView | src/spool.cpp:264-303 | eviction is oldest first: the survivors are a suffix of the queue, the lost records lie in the deleted segments |
| SegmentStore.LastSurvives | src/spool.cpp:264-303 | a record of the last segment outlives every eviction |
| Fifo.CommitFifo | src/spool.cpp:358-404 | on a well-framed spool not parked at a segment end, commit(k) leaves exactly the queue without its first k and reports k |
| Fifo.CommitParked | src/spool.cpp:391-392 | at the end of a segment that is not the last, commit changes nothing, whatever the count |
| SpoolLayouts.CommitLayout | src/spool.cpp:358-404 | on any disk, commit(k) does to the counts of skippable frames and readable records what cutting k frames off the layout does, and reports the frames cut |
| SpoolLayouts.CommitIdleIff | src/spool.cpp:374-392 | on any disk, with a later segment, commit changes nothing if and only if no frame header stands at the cursor |
| SpoolLayouts.ParkedIff | src/spool.cpp:391-392 | on a well-framed spool that place is exactly the end of a segment that is not the last |
| SpoolLayouts.CommitReleasesIff | src/spool.cpp:358-404 | on any disk, commit(k) leaves exactly the queue without its first k if and only if the k frames it skips are all readable records |
| SpoolLayouts.CommitCountsIff | src/spool.cpp:384-387 | on any disk, the queue shrinks by the number commit counted if and only if every frame it skipped is a readable record |
| Appends.WriteFramed | src/spool.cpp:222-228 | behind whole frames, exactly the records in the written bytes join the queue |
| Appends.VisibleIffFramed | src/spool.cpp:222-228 | the record just written is in the queue if and only if its segment had no torn end |
| Appends.FullSegmentParks | src/spool.cpp:206-215 | one more record on a full segment read to its end makes a spool from which no commit ever releases anything |
| Layouts.InStepIff | src/main.cpp:317-340 | rounds take exactly their batch off the queue if and only if the segments are regular and no batch ends where one of them ends |
| Layouts.StallsIffMisaligned | src/main.cpp:317-340 | in regular segments a drain stalls if and only if some multiple of the batch size is a segment end |
| DrainRounds.DrainEmptiesIff | src/main.cpp:312-340 | on any disk, some number of accepted rounds empties the spool if and only if its schedule of commits does not stall |
| DrainRounds.WellFramedEmptiesIff | src/main.cpp:312-340 | on a well-framed spool, if and only if no batch ends where a segment that is not the last ends |
| DrainRounds.RoundsFifoIff | src/main.cpp:317-340 | on any disk, every round releases exactly the batch it delivered if and only if the segments are regular and no batch ends at a segment end |
| DrainRounds.SentInOrderIff | src/main.cpp:318-339 | on any disk, the server gets the queue in order, nothing twice and nothing skipped, under exactly the same condition |
| DrainRounds.DeliveriesBounded | src/main.cpp:317-340 | on any disk, without a stall there are at most as many deliveries as frames |
| DrainRounds.InOrderBounded | src/main.cpp:317-340 | a drain that sends in order makes at most as many deliveries as there are records |
| DrainRounds.StoppedResends | src/spool.cpp:374-392 | with no header at the cursor and records behind, every round sends the same batch again and releases nothing |
| DrainRounds.SentOrPending | src/main.cpp:328-339 | on any disk, every record pending before a drain was posted or is still pending |
| DrainRounds.StallReachable | src/spool.cpp:206-215 | append, commit, append on an empty directory gives a spool whose record is resent for ever |
| Runs.ReopenedIs | src/spool.cpp:99-146 | a reopen after the oldest n segments were deleted finds exactly the spool without them |
| Runs.RunInv | src/spool.cpp:117-407 | the invariant holds in every state of every run from an empty directory |
| Runs.ReopenFinds | src/spool.cpp:99-146 | a reopen of the files of a live spool from its own cursor finds that spool |
| Runs.NothingLost | src/spool.cpp:117-407 | in every reachable state each accepted record that did not land behind a torn frame is delivered, evicted or pending |
| RunLedgers.EvictedGone | src/spool.cpp:264-303 | in every reachable state an evicted record is not pending and its segment is not on disk |
| RunLedgers.EvictedOverBudget | src/spool.cpp:264-303 | a record is evicted only by an append that finds more than max_bytes in at least two segments, and out of the queue |
| RunLedgers.DeliveredWasPending | src/main.cpp:328-339 | a record counted as delivered was pending when a delivery was acknowledged |
| Runs.KilledAppendView | src/spool.cpp:217-233 | a kill at any byte of an append onto a segment without a torn end, and a reopen, give the old queue, or, once the frame is whole, the old queue and the new record, less what evictions took off its front |
| Runs.AppendFifo | src/spool.cpp:196-303 | an append keeps a live spool live and the bytes on disk are at most max_bytes or one segment remains; unless it lands behind a torn frame, the queue is a suffix of the old one with the new record at its end |
| Runs.IdleKillHarmless | src/spool.cpp:117-146 | a kill between operations and a reopen change nothing |
| Runs.AppendedIff | src/spool.cpp:196-262 | an accepted append makes a record at a new place, and it is pending afterwards if and only if it did not land behind a torn frame |
| Runs.TornLandingLoses | include/ns/spool.hpp:27-31 | for all payloads, a run in which a record is accepted and is neither delivered, evicted nor pending |
| DrainRuns.DrainLosesNothing | src/main.cpp:312-367 | a run followed by the rounds of a drain is a run, and each accepted record that did not land behind a torn frame was delivered before, sent by the drain, evicted, or is pending |
| DrainRuns.TornHeaderStalls | src/spool.cpp:374-392 | a run with one kill behind a frame header, in which no record lands behind a torn frame, ends with two pending records of which every drain with batches of two or more sends the last for ever |
| SpoolObject.Spool.Open | src/spool.cpp:75-95 | whatever the listing order, the cursor, the segment list, the counters and the pending count are those of a reopen of this directory |
| SpoolObject.Spool.LoadState | src/spool.cpp:117-146 | cursor, sequence and counters come from the state file, and a cursor before the oldest segment snaps to its start |
| SpoolObject.Spool.ScanSegments | src/spool.cpp:99-115 | the segment list is the positive ids of the listing, sorted, repeats and all; strictly ascending when no id repeats |
| SpoolObject.Spool.Peek | src/spool.cpp:305-349 | the first n records of the queue, numbered from 1, on any disk |
| SpoolObject.Spool.ReadFrames | src/spool.cpp:317-345 | the reading loop returns the accepted records of one segment while there is room |
| SpoolObject.Spool.ReadStats | src/spool.cpp:409-415 | bytes, segments and the recounted pending records; nothing else changes |
| SpoolObject.Spool.Append | src/spool.cpp:196-262 | the new store is the append of the old one, within max_bytes or down to one segment; the state file holds cursor, sequence and counters, so any reopen finds this store; the disk passes through exactly the listed states, dropped grows by the records lost, pending is right if and only if eviction recounted it or the write made one record readable, and behind no torn frame the balance of the counters is kept |
| SpoolObject.Spool.WriteRecord | src/spool.cpp:206-258 | the frame goes to the right segment, through every prefix of its bytes, and the counters move by one |
| SpoolObject.Spool.WriteBytes | src/spool.cpp:222-229 | the file grows by the bytes one at a time, and the directory passes through every prefix |
| SpoolObject.Spool.EnforceBounds | src/spool.cpp:264-303 | the store is evicted, oldest first, until at most max_bytes or one segment are left, dropped grows by the records lost, and pending is right if and only if it was or eviction reached the cursor |
| SpoolObject.Spool.EvictOldest | src/spool.cpp:273-299 | one turn deletes the oldest segment and counts exactly the records lost |
| SpoolObject.Spool.SaveState | src/spool.cpp:148-184 | the state file holds segment and offset of the cursor, the sequence, the committed and the dropped count, and gets there in one disk step |
| SpoolObject.Spool.Commit | src/spool.cpp:351-407 | on any disk the result is the commit of the value model, the released records are counted as committed and nothing as dropped, a reopen from the state file finds this store, segments are deleted one disk step each before the state is saved, the balance of the counters is kept, and pending stays right if and only if every frame skipped is a record |
| SpoolObject.Spool.CommitFrames | src/spool.cpp:358-406 | the walking and retiring loops compute the value-level commit |
| SpoolObject.Spool.WalkFrames | src/spool.cpp:372-389 | the inner loop skips by magic and length alone, even past the end of the file |
| SpoolObject.CommitConserves | src/spool.cpp:384-387 | on any disk, a commit of at most the pending records keeps the balance, and pending right exactly when every frame skipped is a record |
| SpoolObject.AppendKillPoints | src/spool.cpp:217-261 | each disk state an append passes through is what some kill of the run model leaves |
| SpoolObject.CommitKillPoints | src/spool.cpp:394-406 | each disk state a commit passes through is what some kill of the run model leaves |
| Reporters.CeilingDoubles | src/transport.cpp:54-61 | while the shift does not overflow, the ceiling is the base times two to the attempt, at most twenty, up to the cap |
| Reporters.CeilingOverflows | src/transport.cpp:60-61 | a shift into the sign bit gives the cap |
| Reporters.DefaultCap | src/transport.cpp:54-61 | at the default settings the ceiling is 300 seconds from the ninth attempt on |
| Reporters.BackoffDelay | src/transport.cpp:54-68 | the delay lies between 0 and the ceiling, which is at most the cap, and every such delay can occur |
| Reporters.SleepInterruptible | src/main.cpp:303-310 | without a stop it sleeps exactly the time asked for; a stop seen before slice i ends it after i slices of 200 ms |
| Reporters.DefaultBackoff | src/main.cpp:350-364 | six attempts at the default settings sleep at most 62 seconds |
| Reporters.GivesUpIff | src/main.cpp:342-357 | the drain gives up if and only if the last answer is a permanent failure or the last max-attempts answers, at least one, are all retryable failures |
| Reporters.BuildBody | src/main.cpp:321-326 | the body is the records of the batch, comma separated, in order |
| Reporters.Reporter.Drain | src/main.cpp:312-367 | exactly the accepted batches are committed, each body is its batch, it gives up exactly on a permanent failure or the last allowed failure in a row, posts and sleep are bounded by the accepted batches, and without a stop it sleeps exactly the delays drawn for the failures it tries again |
| Reporters.DrainTerminates | src/main.cpp:317-365 | on any disk, without a stall a drain makes at most (frames + 1) times max-attempts posts |
| Reporters.InOrderDrainTerminates | src/main.cpp:317-365 | under the condition of sending in order, at most (records + 1) times max-attempts posts |
| Reporters.BodiesParse | src/main.cpp:321-339 | if the records of a batch are the texts of values, the body posted for it parses to exactly those values in order |
| Json.StringRoundTrip | src/json.cpp:12-39 | unescaping undoes escaping for every string |
| Json.EscapeShape | src/json.cpp:12-39 | seven characters have two-character escapes, other control characters six with lower-case digits, everything else stands for itself |
| Json.ValueRoundTrip | src/json.cpp:43-160 | the text of a tree parses to the tree and stops right behind it, indented or compact, at any depth |
| JsonWriters.JsonEscape | src/json.cpp:12-39 | the loop computes the escaping that string parsing inverts |
| JsonWriters.JsonWriter.WriteSeparator | src/json.cpp:49-55 | a comma before every item but the first, and the innermost count goes up |
| JsonWriters.JsonWriter.WriteBeginObject | src/json.cpp:68-73 | the new state is that of the call in the writer machine |
| JsonWriters.JsonWriter.WriteBeginMember | src/json.cpp:75-81 | the same, for an object under a key |
| JsonWriters.JsonWriter.WriteEndObject | src/json.cpp:83-92 | the same, for the end of an object, also with none open |
| JsonWriters.JsonWriter.WriteBeginArray | src/json.cpp:94-100 | the same, for an array under a key |
| JsonWriters.JsonWriter.WriteEndArray | src/json.cpp:102-111 | the same, for the end of an array, also with none open |
| JsonWriters.JsonWriter.WriteStringField | src/json.cpp:113-122 | the same, for a string field |
| JsonWriters.JsonWriter.WriteBoolField | src/json.cpp:124-129 | the same, for a boolean field |
| JsonWriters.JsonWriter.WriteNumberField | src/json.cpp:131-147 | the same, for a number the formatter produced |
| JsonWriters.JsonWriter.WriteNullField | src/json.cpp:149-154 | the same, for null |
| JsonWriters.JsonWriter.WriteElement | src/json.cpp:156-160 | the same, for a string in an array |
| JsonWriters.DocumentRun | src/json.cpp:43-160 | the well-nested calls of a root object leave exactly the printer's text and no open container |
| JsonWriters.LayoutIs | src/json.cpp:43-66 | indented, items stand on lines of their own behind two blanks a level; compact, only commas stand between them |
| JsonWriters.WriterRoundTrip | src/json.cpp:43-160 | what those calls leave parses under RFC 8259 to the tree, pretty or compact |
| JsonWriters.MakeRecord | src/main.cpp:212-222 | around the compact text of a value the record is the compact text of the object with id, type and payload, and parses to it; around any other text the payload stands verbatim |
| JsonWriters.RecordIsValue | src/main.cpp:212-222 | a record spliced around a compact payload is the compact text of the object with id, type and payload |
| JsonWriters.BatchIsValue | src/main.cpp:321-326 | a batch spliced from compact texts is the compact text of the batch object |
| JsonWriters.BatchRoundTrip | src/main.cpp:321-326 | the body of a post parses to an object whose one member, records, is the list of its records in order |
| Versions.TokenizeVersion | src/vercmp.cpp:40-80 | the index loop computes the recursive token list |
| Versions.ReadNumber | src/vercmp.cpp:53-65 | the value of a digit run of any length, with no 64-bit overflow on the way |
| Versions.NumberValueIs | src/vercmp.cpp:48-67 | the value is the number denoted when below 10^18 and the maximum otherwise |
| Versions.NumbersMonotone | src/vercmp.cpp:48-67 | larger numbers give larger values, strictly if and only if the smaller one has at most 18 significant digits |
| Versions.ReadEpoch | src/vercmp.cpp:116-127 | the epoch is the number before the colon modulo 2^64, and only when all of it is digits |
| Versions.EpochAgreesIff | src/vercmp.cpp:116-127 | the epoch is the number written if and only if that number is below 2^64 |
| Versions.EpochsCompare | src/vercmp.cpp:131-135 | different epochs below 2^64 decide the comparison as numbers |
| Versions.EpochWraps | src/vercmp.cpp:123-125 | 18446744073709551616:1 compares below 1:1 |
| Versions.VersionCompare | src/vercmp.cpp:131-147 | the loop over both token lists computes the recursive comparison |
| VersionLaws.CommonPrefix | src/vercmp.cpp:131-147 | what two versions share at the front does not matter: the comparison of what follows decides |
| VersionLaws.PrereleaseIff | src/vercmp.cpp:28-38 | a word behind any version that does not end in a letter makes it smaller if and only if it is rc, alpha, beta, pre, dev, preview, snapshot or nightly in any mixture of cases, and greater otherwise |
| VersionLaws.TildeBeforeEnd | src/vercmp.cpp:106-114 | a tilde comes before the end of a version |
| VersionLaws.TildeBeforeRest | src/vercmp.cpp:82-104 | a tilde comes before every word and number |
| VersionLaws.WordBeforeNumber | src/vercmp.cpp:82-104 | in the same place a word comes before a number |
| VersionLaws.NumbersDecide | src/vercmp.cpp:99-101 | the first number that differs decides as a number, unless both have more than 18 significant digits |
| VersionLaws.WordsDecide | src/vercmp.cpp:96-98 | the first word that differs in lower case decides alphabetically; equal words leave the decision to the rest |
| VersionLaws.SeparatorsSeparate | src/vercmp.cpp:75-77 | which separators stand between two parts, and how many, does not matter |
| VersionLaws.LongerIsNewer | src/vercmp.cpp:106-114 | one more number makes a version greater |
| VersionLaws.StrCmpIs | src/vercmp.cpp:96-98 | one string comes first if and only if it is a proper prefix or has the smaller character where the two part |
| Versions.Antisymmetric | src/vercmp.cpp:131-147 | swapping the arguments flips the sign, for all strings |
| Versions.EqualIff | src/vercmp.cpp:131-147 | two versions compare equal if and only if epoch and token list coincide |
| Versions.OrderTransitive | src/vercmp.cpp:91-114 | the order with end-of-version between the two classes of words is transitive on all token lists |
| Versions.CompareTransitive | src/vercmp.cpp:131-147 | on a compatible vocabulary the comparison is transitive, strictly if one step is strict |
| Versions.OrderIffCompatible | src/vercmp.cpp:131-147 | versions over a vocabulary are ordered transitively if and only if every pre-release word in it precedes every other word |
| Versions.ThreeCycle | src/vercmp.cpp:31-38 | 1.0p, 1.0rc and 1.0 form a cycle |
| Versions.DeadWord | src/vercmp.cpp:31-38 | no version ever contains the word a1 |
| Versions.RangeConvex | src/vercmp.cpp:149-159 | between two versions of a range everything is in the range |
| Versions.RangeSplits | src/vercmp.cpp:149-159 | for a <= b <= c the ranges [a,b) and [b,c) partition [a,c) |
| Versions.UpstreamRecovers | src/vercmp.cpp:161-175 | epoch, build and revision parts put around an upstream version, any of them or none, are taken off again |
| Agents.NoDeadlock | src/agent.cpp:327-433 | in every reachable state, for any number of handlers, no thread holds two locks, no lock has two holders, a holder wants nothing, so no wait leads to a wait |
| Agents.HolderCanStep | src/agent.cpp:327-433 | whoever holds a lock can take its next step |
| Agents.NoLostRequest | src/agent.cpp:262-283 | in every reachable state a posted registered waiter will be seen, and no waiter is completed twice |
| Agents.NoUseAfterFree | src/agent.cpp:457-467 | without the fault no call ever goes to a freed waiter |
| Agents.WaitersServed | src/agent.cpp:363-371 | each worker step calls an owed waiter or brings it strictly closer, and no other step moves it away |
| Agents.ServedWithin | src/agent.cpp:270-283 | unless the agent stops, every posted waiter is called within a number of worker steps fixed by the two lists, whatever the handlers do |
| Agents.StaleCall | src/agent.cpp:443-456 | with the use-after-free fault a run calls a freed waiter |
| Agents.DeadlockCycle | src/agent.cpp:327-340 | with the deadlock fault a run reaches worker and status handler waiting for each other |
| Agents.CycleLasts | src/agent.cpp:414-419 | two threads that wait for each other do so after every further step of the others |
| AgentStops.ScansAnswerRequests | src/agent.cpp:270-283 | in every run in which the timer does not fire there are at most as many scans as requests posted |
| AgentStops.StopsWithin | src/agent.cpp:276-277 | in every run, once a handler has carried out the stop request it stays, and the worker has returned after nine steps more than there are waiters, counting those that register meanwhile |
| AgentStops.OnlyStopStops | src/agent.cpp:579-586 | the worker never returns, and the flag is never set, unless a stop request was carried out before |
| Names.SplitJoinedTabs | src/cve.cpp:20-26 | splitting a row gives its fields back, less an empty last one |
| Names.NormalizeName | src/cve.cpp:71-100 | the loops compute the normal form |
| Names.NormalizeIdempotent | src/cve.cpp:71-100 | normalising a normal form changes nothing, so a name and its normal form resolve alike |
| NameLaws.NormalizeJoins | src/cve.cpp:84-98 | behind text without brackets any white space separates: both sides normalise on their own and are joined by one blank |
| NameLaws.NormalizeWord | src/cve.cpp:36-53 | a word alone normalises to nothing if and only if it looks like a version or is one of thirteen noise words, in any case, and to its lower case otherwise |
| NameLaws.BracketsVanish | src/cve.cpp:77-83 | bracketed text, text behind an unclosed bracket and stray closing brackets vanish |
| NameLaws.TrimIs | src/cve.cpp:28-33 | blanks, tabs and line ends go from both ends and nothing else |
| NameLaws.AliasColumns | src/cve.cpp:154-165 | the columns are kind, pattern, vendor and product; other kinds and shorter rows give nothing |
| NameLaws.AliasesAre | src/cve.cpp:154-165 | the alias list is what the lines give, line by line |
| NameLaws.LastExactWins | src/cve.cpp:163 | the last exact rule for a pattern is in force |
| NameLaws.ResolveIs | src/cve.cpp:174-203 | an exact rule wins over a longest prefix rule, that over the longest proper run of leading words with an exact rule; the empty name resolves to nothing |
| Names.FirstPrefixIs | src/cve.cpp:188-190 | over sorted rules the first match is a longest matching prefix, and there is none only if no rule matches |
| Names.DropWordsIs | src/cve.cpp:195-201 | dropping words finds the longest proper word prefix with an exact rule, or none exists |
| Names.ResolveIgnoresOrder | src/cve.cpp:146-203 | without conflicting rules resolution depends only on which rules there are |
| Names.FirstWordFallback | src/cve.cpp:192-201 | a name with no rule, prefix or longer phrase resolves through its first word if and only if that word has an exact rule |
| Names.VendorCollapse | src/cve.cpp:192-194 | an exact rule for "microsoft" captures "microsoft visual studio" |
| Sorting.Sort | src/cve.cpp:300-303 | a sorted permutation under any total preorder |
| Cves.RuleColumns | src/cve.cpp:122-138 | which column is which field of the rule; a row is skipped if and only if it has fewer than twelve columns, or twelve with the last one empty |
| Cves.RulesAre | src/cve.cpp:122-142 | the rules loaded are what the rows give, row by row |
| Cves.BoundsDecide | src/cve.cpp:224-241 | without a named version a rule misses exactly the versions below a first one, at or below the one before the first, above a last one, or at or above the first fixed one, as far as the rule has these bounds |
| Cves.HitsIff | src/cve.cpp:224-241 | a rule hits exactly the versions it covers: same epoch and tokens as the named version, or inside every bound present |
| Cves.MatchedIds | src/cve.cpp:205-261 | the CVEs reported are exactly those of the rules of the product that cover the upstream version |
| Cves.FindingIs | src/cve.cpp:243-256 | the fields of a finding: package, product, and score and severity of a covering rule with the highest score; without a label the severity follows the thresholds 9, 7, 4 and 0 |
| Cves.CveIndex.LoadRules | src/cve.cpp:102-144 | fails exactly on a missing file, an empty file or a wrong header; otherwise adds exactly the rules of the rows and keeps the index a partition of all rules by product |
| Cves.CveIndex.LoadAliases | src/cve.cpp:146-172 | fails exactly on a missing file; otherwise both tables hold all rules loaded, last exact rule wins, prefixes longest first |
| Cves.CveIndex.Resolve | src/cve.cpp:174-203 | succeeds exactly when the normal form resolves, with vendor and product of its target |
| Cves.IndexIsScan | src/cve.cpp:212-223 | looking only at the product's rules finds exactly what a scan of all rules finds |
| Cves.CveIndex.BestOf | src/cve.cpp:221-256 | the loop ends with the best hitting rule of every CVE hit |
| Cves.CveIndex.MatchPackage | src/cve.cpp:205-261 | the CVEs reported are exactly those of all loaded rules for the product that cover the upstream version, bound by bound, one finding each with the maximum score, and none when the name, the version or its upstream part is missing |
| Cves.EqualVersionsMatchAlike | src/cve.cpp:205-261 | packages that resolve alike with equal upstream versions get the same CVEs and scores |
| Cves.CveIndex.ExposedProducts | src/cve.cpp:264-272 | exactly the products some world-reachable socket's process resolves to |
| Cves.CveIndex.ExposedIff | src/cve.cpp:264-296 | a finding is flagged if and only if the process of a world-reachable socket resolves to the product of its package |
| Cves.CveIndex.UnmappedCounts | src/cve.cpp:278-291 | how many packages resolve to nothing, and how many that resolve have no version |
| Cves.ShownIs | src/cve.cpp:282 | the unmapped names listed are the first of all of them, up to fifty |
| Cves.CountsAre | src/cve.cpp:305-312 | the severity and exposure counters are numbers of findings |
| Cves.Tally | src/cve.cpp:305-312 | the severity and exposure counters are the counts over the findings |
| Cves.CveIndex.Scan | src/cve.cpp:263-314 | a permutation of all package matches, highest score first and then the later identifier; a CVE is in it exactly when some package's product has a rule that covers it; each flagged exactly when exposed, with every counter of the summary |

## Left out

- Operating-system back ends, services, crash dumps, named pipes, TLS transports and the database driver: only calls into the platform.
- Argument parsing, logging, URL parsing, error texts and inventory collection: they would only add easy members.
- The collection half of the reporter and the shape of the inventory and findings reports: straight-line writer calls; the writer itself is modelled.
- Input and output errors other than a process dying: every disk operation of a living process succeeds, so the failure returns of append, commit and save are not taken, nor the remove-then-rename fallback.
- Flushing to the physical disk and power loss: what a process wrote is on disk.
- The watchdog, and the private mutex and timeout of a scan waiter: a handler may give up waiting at any time. Whether a completed waiter's scan began after its request is not claimed; it need not.
- Unicode surrogates: the reference reader rejects surrogate escapes, which the writer never produces.
- SpoolObject.Spool.Append: the false returns for a file that cannot be opened, written or saved are not modelled, because no disk operation of a living process fails here.
- SpoolObject.Spool.SaveState: failing to write or rename the state file is not modelled, for the same reason.
- SpoolObject.Spool.Commit: the false return of a failing state save is not modelled, for the same reason.
- SpoolObject.Spool.Open: the listing names every segment once; a directory with two file names of the same number, whose records the source reads twice, is left to ScanSegments.
- SpoolObject.Spool.PendingCount: passes the number of bytes on disk as the limit where the source passes the largest size value; both exceed the number of records.
- Reporters.Reporter.Drain: the answers of the server are a list and a stop request between posts is the end of that list; the failing commit cannot occur on an open spool here.
- Reporters.CeilingDoubles: only while the shift does not overflow. Into the sign bit the ceiling is the cap (`CeilingOverflows`); beyond 64 bits it is the cap or a wrapped smaller value, as `Ceiling` defines.
- Reporters.BackoffDelay: a negative cap is excluded, because the source's distribution is undefined for it.
- Json.ValueRoundTrip: numbers are whatever number token the formatter produced; infinities and not-a-number are not JSON.
- JsonWriters.DocumentRun: trees whose arrays hold strings and objects, which is all the writer's calls can build.
- Cves.CveIndex.LoadRules: scores are real numbers read by a parameter; not-a-number scores are not modelled.
