# A verified model of the benchmark harness

This project models the parts of the harness whose correctness is more than a
branch table, and proves what they promise. The modules follow the source files:

| modules | what they model |
|---|---|
| `Json`, `Decimals`, `Canonical`, `Writer`, `Reader`, `Faithful`, `Integrity` | canonical JSON, the four digests, sealing and verification (`src/storage/integrity.rs`, `seal` in `src/storage/archive.rs`) |
| `Admission`, `Archive`, `ArchiveSafety`, `Hosts` | admission, run ids, the archive as a directory that may lose power between any two effects, and what a host bucket tells apart (`src/storage/archive.rs`) |
| `Heap`, `HeapTheorems` | the counting allocator and its nested measuring windows, thread by thread and atomic step by atomic step (`src/storage/heap.rs`) |
| `Grid`, `Halving`, `Tiles`, `Mask`, `Edge`, `LineEdges`, `Control`, `ControlBytes` | the synthetic control and the fidelity measures (`src/format/runner.rs`, `src/format/fidelity.rs`) |
| `SpotCheck`, `Stats` | the pixel spot-check, `aggregate` and the percentile statistics (`src/harness.rs`, `src/lib.rs`) |
| `Sweep`, `Versions` | append-only history, the release sweep and the order of versions (`src/lib.rs`, `src/version_matrix.rs`, `src/version_id.rs`) |
| `Brink`, `Attest`, `Lockfile`, `LockTable` | the cutoff search, engine attestation and the lockfile scanner (`src/storage/cells.rs`, `src/engines/attest.rs`, `build.rs`) |
| `Publishing`, `Capture` | the capture driver as a transaction, and its publication copy by copy (`tools/capture.py`) |

`Words` holds ordered strings, entries and sorting by key.

## How the source's values are modelled

- A document is a tree of `Json`. An object is its entries in order with distinct
  keys, which is the map the source parses into: inserting over a key keeps its
  place, removing one moves the last entry into the gap. Printing a document and
  parsing it again gives back the same tree, so a file holds either a document
  or text that is none.
- A number is an unsigned 64-bit integer, a negative 64-bit integer or a float, as
  `serde_json` has it. A float is its shortest decimal: a sign, digits without
  trailing zeros and a scale. Its value is compared exactly, over the reals.
- String escapes follow section 7 of RFC 8259; the thresholds and the spelling of a
  number follow section 6.1.6.1.20 of ECMA-262 (ECMAScript 2023).
- SHA-256 is a function from text to text, injective where a theorem says so.
- Keys are ordered as `str` orders them for the ASCII keys the writer accepts.
- Everything outside the process is an argument that may be anything: the clock,
  process ids, what the file system does with each effect, what each remote step
  answers, what each build yields, the tile planner, the image codecs.
- Samples are naturals where the source holds bytes; what it computes in floats is
  computed exactly, over the reals.

## What the proofs found

Where the code does something other than its documentation or first reading
suggests, the model follows the code and the exact condition is proved.

- Re-reading canonical text and canonicalising it again is refused exactly when the
  document holds a whole float above 2^53 - 1 that still fits the reader's 64-bit
  integers (`Faithful.RewriteRefuses`, example `Decimals.UnsafeWholeExample`).
  Otherwise it is the identity.
- A sealed value verifies if and only if what was sealed is an object
  (`Integrity.SealedVerifies`): anything else is digested as itself and then filed
  inside a new object.
- A member that is missing and one that is `null`, a whole block among them, give
  the same three block digests; only the document digest tells them apart
  (`Integrity.AbsentIsNotNull`).
- A start time with a fraction loses everything after the point except a closing
  `Z`, so a numeric offset is lost with it (`Admission.FractionIsForgotten`).
- The text a host bucket is made of tells its fields from all others, empty ones
  among them, exactly when none holds a NUL (`Hosts.FieldsAreToldApartIff`). Among
  fields hosts can have, which are never empty and have no space at their ends, it
  tells them apart exactly when no NUL in them could be taken for a separator: one
  with no space beside it and something before it, if a field follows, or something
  after it, if a field precedes (`Hosts.HostsAreToldApartIff`). From every admitted
  document two can be made that differ in their hosts alone, are both admitted and
  have one run id (`Hosts.NulRunsHostsTogether`; `Hosts.SomeDocumentIsAdmitted` shows
  there is one to start from).
- A run id takes its commit as it is written. With a `/` or a NUL in it the document
  cannot be filed: the call fails without a change (`Archive.Archiver.ArchiveText`).
- `peak_bytes` is the exact peak of the counter. It is the peak of the bytes really
  held in every run exactly when the process has only one thread
  (`HeapTheorems.PeakIsTrueIffAlone`). With two, a rise of any size up to what was
  live before can pass unseen (`HeapTheorems.OverlapHidesAPeak`).
- Windows that are not closed innermost first can leave counting switched on:
  closing them all switches it off exactly when the outermost goes last
  (`HeapTheorems.OutermostMustCloseLast`).
- A line is found at its centre exactly when it covers a pixel whole or its two edges
  sum to a whole number (`LineEdges.LineIsFoundAtItsCentre`). In exact arithmetic the
  control's line is so at levels 0 and 1 and at no other of the five
  (`Control.ControlIsExactTwice`). Rounded to bytes, as it is drawn, it is off at every
  one of them, by less than a tenth of a pixel; the five displacements are given
  exactly (`ControlBytes.BytesMoveTheLine`).
- A run of the 1024-pixel control stands for at most eleven levels
  (`Tiles.ElevenLevelsStand`): from the twelfth on there are no pixels to match.
- With four engines two pairs that disagree with each other can both be attested
  (`Attest.FourMaySplit`); with three they cannot.
- The table of locked dependencies keeps, for each key, the first package of the lock
  that has it (`Lockfile.TableHoldsTheFirst`). Every package has its row exactly when
  no two different ones share a key (`Lockfile.NothingIsLostIff`); for names without
  `@`, exactly when no two different ones have one name and version
  (`Lockfile.PlainNamesLoseNothingIff`). One name and version from two sources loses
  the second with its source and checksum (`Lockfile.SecondSourceIsLost`), and so can
  a name with an `@` in it (`Lockfile.AtSignLosesAPackage`).
- When a gate prints only blank lines on its error stream and its reason on its
  output, the driver records that it said nothing (`Capture.GateRefused`).
- The driver copies files into the repository one at a time, in place, the ones filed
  long ago among them. When a copy fails, those before it are done and its target may
  be cut short (`Publishing.WhatRemains`). When it fails without touching its target,
  the repository is unchanged or complete wherever the copies stop exactly when at
  most one target is to change (`Publishing.SurvivesFailuresIff`). When it can be cut
  short no plan is safe: a file left as neither what it was nor what it was to be is
  damage, and every plan ends with a file (`Publishing.NoPlanSurvivesTearing`). It can
  be a document filed long ago (`Publishing.FailedCopyCutsAFiledDocument`). For one
  stop by one failure the condition is `Publishing.WholeOrUnchangedIff`. The history is
  read back after the copying, so a failure there leaves everything published
  (`Capture.Driver.Conclude`).
- A step inside the first or the last pixel of a line is found at the boundary next to
  it; everywhere else it is found where it is (`Edge.StepIsFoundExactly`).

## Model

| member | source | states |
|---|---|---|
| Decimals.CanonicalNumberText | src/storage/integrity.rs:236-295 | an accepted number has one spelling whichever branch wrote it: the whole-float branch writes what the plain branch would |
| Decimals.ReadNumberText | src/storage/integrity.rs:236-295 | reading a spelling followed by anything that cannot extend it gives the number's normal form and the rest |
| Decimals.NormalNumberIsValue | src/storage/integrity.rs:236-295 | two numbers have the same normal form if and only if they are the same real number |
| Decimals.NormalIsAccepted | src/storage/integrity.rs:236-295 | an accepted number read back is accepted again if and only if it is not a whole float above 2^53 - 1 within the reader's integers |
| Decimals.UnsafeWholeExample | src/storage/integrity.rs:236-295 | 1e16 as a float is written and its text is then refused; 1e20 is not |
| Reader.ReadStringText | src/storage/integrity.rs:297-324 | reading undoes the escaping of any string, whatever follows its closing quote |
| Reader.ReadUndoesText | src/storage/integrity.rs:168-324 | reading the canonical text of any accepted document gives its normal form: the grammar delimits itself |
| Faithful.TextIsFaithful | src/storage/integrity.rs:168-324 | two accepted documents have equal text if and only if they are equal up to key order at every depth and numeric spelling |
| Faithful.NormalIffSame | src/storage/integrity.rs:168-324 | the normal form is complete: equal for two finite documents exactly when they are the same up to order and spelling |
| Faithful.OrderDoesNotDecide | src/storage/integrity.rs:182-234 | whether a document is accepted does not depend on key order at any depth |
| Faithful.OrderDoesNotShow | src/storage/integrity.rs:182-234 | nor does its text |
| Faithful.NormalKeepsText | src/storage/integrity.rs:168-324 | a document and its normal form have the same text |
| Faithful.RewriteRefuses | src/storage/integrity.rs:236-295 | the normal form of an accepted document is refused if and only if an unsafe whole float is somewhere in it |
| Faithful.RewriteIsIdentity | src/storage/integrity.rs:168-324 | otherwise canonicalising the re-read text gives that text again |
| Canonical.BlameIsRefusal | src/storage/integrity.rs:120-133 | an error whose path leads to what it complains about implies the document is not accepted |
| Writer.CanonicalString | src/storage/integrity.rs:297-324 | the loop writes the quoted, escaped string |
| Writer.SortedMembers | src/storage/integrity.rs:217-234 | the entries sorted by key when every key is ASCII, otherwise an error naming a key that is not |
| Writer.WriteCanonical | src/storage/integrity.rs:182-215 | appends exactly the text of an accepted value; fails exactly on the others, with a path that leads to the fault |
| Writer.CanonicalJson | src/storage/integrity.rs:168-173 | succeeds if and only if the document is accepted, with its text; a failure tells the truth about where and what |
| Integrity.ComputeDigests | src/storage/integrity.rs:376-395 | all four digests, exactly when the document's evidence is accepted |
| Integrity.EvidenceEntries | src/storage/integrity.rs:397-407 | evidence is the document's entries without `integrity` and `combinedAt`, no more and no fewer |
| Integrity.DigestIsIdentity | src/storage/integrity.rs:175-180 | under an injective hash two digests agree if and only if the documents are the same up to order and spelling |
| Integrity.DigestsJsonParses | src/storage/archive.rs:767-789 | the integrity block a seal writes reads back as its four digests |
| Integrity.SealKeepsDigests | src/storage/archive.rs:767-789 | sealing an accepted object leaves all four digests as they were |
| Integrity.ResealingIsStable | src/storage/archive.rs:767-789 | so does sealing it any number of times |
| Integrity.SealStatesDigests | src/storage/archive.rs:767-789 | what a sealed document states is the digests of what was sealed |
| Integrity.SealedVerifies | src/storage/integrity.rs:488-529 | a sealed value states its own digests if and only if an object was sealed |
| Integrity.Compare | src/storage/integrity.rs:488-529 | the loop puts each of the four names in the moved or the unchanged list |
| Integrity.Verify | src/storage/integrity.rs:488-529 | recomputes all four digests, reads the stated ones, splits the names, and flags a block that is present and unreadable |
| Integrity.PickPartitions | src/storage/integrity.rs:411-440 | moved and unchanged split the four names between them, and nothing moved exactly when all four agree |
| Integrity.VerifyLocalises | src/storage/integrity.rs:488-529 | after any edit that leaves the integrity block alone, a name is reported moved if and only if that block's content is no longer the same |
| Integrity.BlockMovesDocument | src/storage/integrity.rs:376-407 | a block cannot move unless the document moves too |
| Integrity.AbsentIsNotNull | src/storage/integrity.rs:376-395 | adding any `null` member keeps all three block digests and changes the document digest |
| Admission.FractionIsForgotten | src/storage/archive.rs:705-722 | dropping the fraction of a timestamp leaves its compact form alone if and only if its suffix has nothing but a closing `Z` to lose |
| Hosts.FieldsAreToldApartIff | src/storage/archive.rs:724-741 | for joined fields, no other fields, empty ones among them, have the same text if and only if none of them holds a NUL |
| Hosts.HostPartsAreTrimmed | src/storage/archive.rs:724-741 | no field of a host is empty or has a space at an end |
| Hosts.HostsAreToldApartIff | src/storage/archive.rs:724-741 | among such fields, no others have the same text if and only if no NUL in them, with no space beside it, has something before it in a field that is not the last or something after it in one that is not the first |
| Hosts.NulRunsHostsTogether | src/storage/archive.rs:687-741 | for every admitted, unsealed document and any three names: two documents that differ from it in `os` and `arch` alone, both admitted, with different host parts and one run id |
| Hosts.SomeDocumentIsAdmitted | src/storage/archive.rs:132-155 | there is a document that passes every admission rule and has a run id |
| Admission.SameHost | src/storage/archive.rs:724-741 | provenance that is the same up to key order and number spelling names the same host |
| Archive.IdIsNoIndex | src/storage/archive.rs:871-922 | no run id is filed under the index's name |
| Archive.TempIsNotFiled | src/storage/archive.rs:939-955 | a temporary name is never the name of a filed document or of the index |
| Archive.FilingKeepsIndex | src/storage/archive.rs:871-922 | filing a document changes nothing about whether the index can be read |
| Archive.Archiver.Act | src/storage/archive.rs:939-955 | one effect on the directory happens whole, fails, or is cut off with or without having happened |
| Archive.Archiver.WriteAtomically | src/storage/archive.rs:939-955 | the file is replaced, or the directory is as before but for one temporary file, whatever fails or crashes |
| Archive.Archiver.UpdateIndex | src/storage/archive.rs:958-995 | reads, adds the row unless one with that id is there, sorts and replaces; never halts when nothing goes wrong and the index can be read |
| Archive.Archiver.Admit | src/storage/archive.rs:132-155 | decides the admission predicate, the integrity check included |
| Archive.Archiver.Prepare | src/storage/archive.rs:871-878 | goes on exactly with documents that are admitted, digest and have an id; otherwise the error is of the first check it does not get past, and a missing run id can only be for want of a start time |
| Archive.Archiver.ArchiveText | src/storage/archive.rs:871-922 | every run of the call, crashes included, is a step of the transition relation the safety theorems are about; an id that leads out of the directory fails without a change |
| ArchiveSafety.SealKeepsClaims | src/storage/archive.rs:767-789 | sealing changes neither admission nor the run id nor the index row |
| ArchiveSafety.SealedEntryIsSame | src/storage/archive.rs:767-789 | a document sealed any number of times is still admitted with the same run id and the same digests |
| ArchiveSafety.SealedIsHonest | src/storage/archive.rs:871-922 | what is filed was admitted, states its own digests and derives the name it is filed under |
| ArchiveSafety.CallKeepsFiled | src/storage/archive.rs:871-922 | no call changes or removes a filed document, whatever it is given and wherever it stops |
| ArchiveSafety.RowsAscend | src/storage/archive.rs:958-995 | in a sound directory the index's rows are strictly sorted by run id |
| ArchiveSafety.CallKeepsSound | src/storage/archive.rs:871-995 | one call keeps every filed document honest and every row true of an existing file, and loses no row; when it reports success the document is filed and has its row |
| ArchiveSafety.RunsAreSafe | src/storage/archive.rs:871-995 | the same for every sequence of calls, each of which may stop at any effect |
| ArchiveSafety.EveryArchiveIsSound | src/storage/archive.rs:871-995 | so every directory that calls and crashes can make from an empty one is sound |
| ArchiveSafety.CompletedIsArchivedOnce | src/storage/archive.rs:871-995 | once a call with the document, raw or sealed any number of times, completes, exactly one file and one row hold it, whatever crashes came before |
| ArchiveSafety.EveryArchiveHoldsItOnce | src/storage/archive.rs:871-995 | and so in every directory made from an empty one |
| ArchiveSafety.ArchivingAgainIsQuiet | src/storage/archive.rs:871-995 | archiving it again changes nothing and reports the same entry |
| ArchiveSafety.CollisionIsAnotherRun | src/storage/archive.rs:891-922 | a call is refused as a collision exactly when the name holds something with other evidence, and then nothing changes |
| Heap.Allocator.Charge | src/storage/heap.rs:122-131 | counts while armed: the size is added and the peak raised to it |
| Heap.Allocator.Discharge | src/storage/heap.rs:133-140 | the size is taken off while armed |
| Heap.Allocator.Realloc | src/storage/heap.rs:167-184 | only the difference is counted, and nothing when the reallocation fails |
| Heap.Allocator.Arm | src/storage/heap.rs:255-283 | the lock is taken unless the thread is nested, the thread's flag and the armed flag are set, the peak is brought down to what is in flight, and the window remembers the flags it found |
| Heap.Allocator.Drop | src/storage/heap.rs:200-251 | both flags go back to what the window found, and the lock is given up by the window that took it |
| Heap.StepKeepsInv | src/storage/heap.rs:121-283 | every atomic step of every thread keeps the counter equal to the bytes held less those in flight since counting began |
| Heap.RunsKeepInv | src/storage/heap.rs:121-283 | so does every interleaving of them |
| Heap.LiveBytesAreExact | src/storage/heap.rs:231-236 | with no step under way every open window's live bytes are max(0, held now less held when it was armed), or nothing when the allocator is not installed |
| Heap.PeakBytesAreExact | src/storage/heap.rs:217-229 | its peak lies between its live bytes and the true rise of the counter, and equals that rise when no window was armed inside it |
| Heap.PeakAgainstLiveBytes | src/storage/heap.rs:217-229 | against the bytes really held the peak is off by at most what was in flight, and by nothing when one call ran at a time |
| HeapTheorems.WindowReadsTheRun | src/storage/heap.rs:209-283 | for every run from an arm to a quiet point with the window still open, what it reads is defined by the run alone: the final difference, and the maximum over all states passed |
| HeapTheorems.EveryWindowReadsItsRun | src/storage/heap.rs:209-283 | and so for every window opened at any point the process can reach from its start, whatever its threads have done |
| HeapTheorems.UnhookedReadsNothing | src/storage/heap.rs:217-240 | without the hook every window of every run reads nothing |
| HeapTheorems.OverlapHidesAPeak | src/storage/heap.rs:122-140 | from any state with two threads, a rise of any size up to what is live can happen while the window reads a peak of nothing |
| HeapTheorems.PeakIsTrueIffAlone | src/storage/heap.rs:122-229 | a window's peak is the highest rise of the bytes really held in every run if and only if there is only one thread |
| HeapTheorems.OneMeasuringThread | src/storage/heap.rs:255-283 | while a window is open only the thread that opened it can open another |
| HeapTheorems.ClosingRestoresFlags | src/storage/heap.rs:242-283 | for every run between an arm and its close with the inner windows closed, both flags and the lock are as they were before the arm |
| HeapTheorems.OutermostMustCloseLast | src/storage/heap.rs:242-251 | closing all windows in some order leaves counting off if and only if the outermost closes last |
| HeapTheorems.UndisturbedStepsAreTheCall | src/storage/heap.rs:121-140 | the atomic steps of one call, run without interruption, are the call |
| Halving.Halve | src/format/runner.rs:175-189 | each pixel is the rounded mean of its four, channel by channel |
| Halving.Pyramid | src/format/runner.rs:267-277 | level after level is the half of the one before |
| Halving.HalvingsStayNearTheMean | src/format/runner.rs:175-189 | after k halvings every sample lies within -k/4 and +k/2 of the exact mean of its 2^k by 2^k block |
| Halving.HalvingsStayInRange | src/format/runner.rs:175-189 | and between that block's least and greatest sample |
| Tiles.TileOf | src/format/runner.rs:191-199 | cuts exactly the tile's pixels, ragged edges included |
| Tiles.CutIsUnique | src/format/runner.rs:191-199 | the cut is determined by the image and the position |
| Tiles.SampleHasATile | src/format/runner.rs:201-234 | every sample of the image is in a tile |
| Tiles.PlaceTile | src/format/runner.rs:224-228 | in place, a decoded tile of the tile's size is written over the tile and no other sample is touched |
| Tiles.Measure | src/format/runner.rs:201-234 | for any codec: one payload a tile, the byte total and the table of distinct payloads, and failure only on a tile that is refused or comes back with another size; when sizes are kept the rebuilt level shows every tile as it came back |
| Tiles.RebuiltIff | src/format/runner.rs:201-234 | when no tile of the level changes its size, the rebuilt level is the level if and only if every one of its tiles comes back as it was |
| Tiles.TableIsTheDistinct | src/format/runner.rs:201-234 | under an injective hash the table has one entry, with its size, for each distinct payload in order of first appearance |
| Tiles.DedupeNeverGrows | src/format/runner.rs:201-234 | distinct payloads and their bytes never exceed all payloads and theirs, and equal them exactly when no payload repeats |
| Tiles.ExactMatchRate | src/format/fidelity.rs:37-51 | between 0 and 1, and 1 exactly when there is a whole pixel, the lengths agree and every sample of every whole pixel is identical |
| Tiles.Validate | src/format/runner.rs:287-300 | accepts exactly when every lossless row matched in full |
| Tiles.MeasureRow | src/format/runner.rs:201-265 | fails only when the codec mishandles a tile of the level; its counts respect the bounds, and when no tile changes its size the row is exact if and only if there are pixels and every tile came back as it was |
| Tiles.RunControl | src/format/runner.rs:267-285 | for any codecs: a codec failure means one mishandles a tile of the level reached; otherwise there is a row for every level and codec and, when no tile changes its size, the run stands if and only if every level has pixels and every lossless codec gave all of its tiles back |
| Tiles.TrustedRunStandsIff | src/format/runner.rs:267-300 | with lossless codecs that give back every tile of the measured levels, that is exactly when no level has shrunk to nothing |
| Tiles.ElevenLevelsStand | src/format/runner.rs:267-300 | for the 1024-pixel control that is at most eleven levels |
| Mask.GradientMask | src/format/fidelity.rs:56-82 | a pixel is set if and only if some pixel within the radius differs from a 4-neighbour by at least the step, at every image size |
| Mask.MaskIsMonotone | src/format/fidelity.rs:56-82 | a wider radius or a lower step never clears a pixel |
| Mask.InkIou | src/format/fidelity.rs:88-99 | the masked ink of both over that of either, and nothing exactly when neither has any |
| Mask.IouIsARatio | src/format/fidelity.rs:88-99 | symmetric, between 0 and 1, and 1 exactly when the masked ink agrees everywhere |
| Edge.EdgePosition | src/format/fidelity.rs:114-144 | the mean, over the lines with a gradient, of each line's gradient centroid; nothing when none has one |
| Edge.StepIsFoundExactly | src/format/fidelity.rs:114-144 | a step sampled by area at t is found exactly when the boundaries see a whole unit of it; it is then at the boundary or position nearest to t, which is t itself if and only if t is between the first boundary and the last |
| Edge.PositionOfAlike | src/format/fidelity.rs:114-144 | when every line finds its edge at one place, that is the position |
| LineEdges.LineIsFoundAtItsCentre | src/format/fidelity.rs:114-144 | a line sampled by area is found at its centre if and only if it covers a pixel whole or its edges sum to a whole number |
| Control.CoverHalves | src/format/runner.rs:152-189 | sampling the halved line by area is the mean of sampling the line twice as finely |
| Control.BeyondHalves | src/format/runner.rs:152-189 | and so for a step |
| Control.HalvedStepIsFoundExactly | src/format/runner.rs:235-258 | after k exact halvings a step at t is found as one at t / 2^k is, under the same conditions |
| Control.BandIsLine | src/format/runner.rs:152-189 | above the red stripe every level of the control is an area-sampled line with its edges halved as often |
| Control.ControlIsExactTwice | src/format/runner.rs:235-258 | in exact arithmetic the displacement from (LINE_LEFT + LINE_WIDTH/2)/2^k is zero at levels 0 and 1 and at no other up to 4 |
| ControlBytes.DrawControl | src/format/runner.rs:152-172 | the loop fills every channel of every pixel with its rounded byte |
| ControlBytes.LevelsAreRows | src/format/runner.rs:152-189 | every level of the drawn and halved control holds, above the red line, one row of bytes |
| ControlBytes.BytesMoveTheLine | src/format/runner.rs:235-258 | the displacement measured in those bytes at each of the five levels, exactly: never zero and under a tenth of a pixel |
| Control.LumaStaysBetween | src/format/fidelity.rs:26-32 | luma never leaves the range of the three channels |
| SpotCheck.EveryPairMatches | src/harness.rs:778-806 | counting levels down from full resolution absorbs a leading apex: every shared level has matching grids |
| SpotCheck.ApexIsAnnotated | src/harness.rs:482-486 | a reference with one extra single-tile level is recognised as extended |
| SpotCheck.MidsAscend | src/harness.rs:778-812 | the multi-tile levels are collected in strict order, so the one taken is their median |
| SpotCheck.ChooseLevel | src/harness.rs:778-812 | the median multi-tile level below full resolution, else the first matching one below it, else none exactly when none matches |
| SpotCheck.SampleIsSmall | src/harness.rs:814-822 | at most sixteen positions are sampled, the first always, all when there are at most sixteen |
| SpotCheck.ClearsThreshold | src/harness.rs:542-556 | forty decibels as a bound on the squared error: ten thousand times it at most 255^2 a sample |
| SpotCheck.CompareTiles | src/harness.rs:824-869 | how many were compared, and that it clears exactly when every sampled tile present on both sides decodes and clears |
| SpotCheck.SpotCheckTiles | src/harness.rs:764-884 | each skip exactly when it applies; a pass means all that at the chosen level, which is never full resolution |
| SpotCheck.ClearsAgainstItselfIff | src/harness.rs:542-556 | a level compared with itself clears if and only if each sampled tile is absent or decodes to something |
| Stats.PercentileRises | src/lib.rs:442-456 | the interpolated percentile rises with p and stays between the least and the greatest value |
| Stats.PercentileForgetsOrder | src/lib.rs:421-426 | the sorted samples, and so every percentile, depend only on the multiset |
| Stats.PercentileScales | src/lib.rs:442-456 | a positive rescaling and a shift of the samples rescale and shift every percentile |
| Stats.FromSamples | src/lib.rs:421-468 | the count and, for each quantity apart, the summary that every ascending arrangement of the samples gives, its least value one of them and below all of them; zeros when there are none |
| Stats.SummaryIsSensible | src/lib.rs:442-468 | the least value is one of the samples and below all of them, the median lies between the ends, and the range is no negative and no wider than they are |
| Stats.Aggregate | src/harness.rs:303-324 | nothing exactly when there are no samples; otherwise the earliest sample nearest the median wall time, with the statistics of all |
| Stats.OddCountHasItsMedian | src/harness.rs:303-324 | with an odd number of samples the one chosen took exactly the median |
| Sweep.MigrateIsStable | src/lib.rs:2066-2130 | migrating a snapshot twice is migrating it once |
| Sweep.LoadAfterAppend | src/lib.rs:2037-2060 | a history saved after an append loads as the prior history and the new snapshot, migrated |
| Sweep.BudgetIsExact | src/lib.rs:829-834 | the saturating 64-bit computation is the exact one cut off at the largest value |
| Sweep.Runner.SaveHistory | src/lib.rs:2158-2187 | the file is the new history when it returns, the old file when it fails, one or the other after a crash |
| Sweep.Runner.AppendSnapshot | src/version_matrix.rs:479-513 | appends exactly one snapshot and reports the new length; fails without touching the file when the history cannot be loaded or belongs to another family |
| Sweep.Runner.Remove | src/version_matrix.rs:199-247 | the worktree goes, or is one git would not remove |
| Sweep.Runner.RunOne | src/version_matrix.rs:672-708 | one version's outcome, its effect on the file, and no worktree left but one git would not remove |
| Sweep.Runner.RunMatrix | src/version_matrix.rs:603-665 | outcomes line up with the refs; a file that cannot be loaded is left alone and everything skipped; no worktree is left but those git would not remove |
| Sweep.Grows | src/version_matrix.rs:603-708 | one version keeps the history conserved: the k-th append reports the initial length plus k |
| Sweep.GrownIsConserved | src/version_matrix.rs:603-708 | after any sweep, finished or cut off, the migrated prior history is a prefix, a single-family history is one still, and the length grew by the number of appends |
| Versions.OrderedVersionKeys | src/version_id.rs:38-62 | the loop keeps the first appearance of each key in the sorted list |
| Versions.KeysForgetOrder | src/version_id.rs:38-62 | the same keys in the same order for every permutation of the history |
| Versions.KeysAreTheHistorys | src/version_id.rs:24-62 | no duplicates, and exactly the history's keys |
| Versions.KeysAreOrdered | src/version_id.rs:38-81 | an earlier key has a snapshot whose (semver, timestamp, key) is less than that of every snapshot of a later key |
| Brink.Tallest | src/storage/cells.rs:464-496 | the binary search ends at a height that fits, the greatest up to twice the width when the planner is monotone on the candidates |
| Brink.BrinkSearch | src/storage/cells.rs:456-496 | for every planner: a candidate whose count fits, none only when no square one fits; for one monotone on the candidates, no candidate that fits has more tiles |
| Brink.SpecReadsBack | src/storage/cells.rs:121-147 | parsing the spec of a cell gives its size, tile and source back |
| Brink.Coordinates | src/storage/cells.rs:165-180 | exactly the coordinates the plan covers, each once in level, row, column order when its levels ascend |
| Attest.AttestGroup | src/engines/attest.rs:98-165 | each engine's verdict: whether its pyramids were walked, were the same every repetition, and are those of some other walked engine; it has reasons exactly when it is not attested |
| Attest.NeverOneSided | src/engines/attest.rs:98-165 | an attested engine has another attested engine with the same grid and tile count |
| Attest.AloneIsNotAttested | src/engines/attest.rs:98-165 | an engine alone in its group is not attested |
| Attest.ThreeAgree | src/engines/attest.rs:98-165 | in a group of at most three all attested engines agree |
| Attest.FourMaySplit | src/engines/attest.rs:98-165 | in a group of four two pairs that disagree may all be attested |
| Lockfile.Packages | build.rs:502-535 | the line scanner with its current package is the scan the lemmas are about |
| Lockfile.ScanLosesNothing | build.rs:502-535 | scanning well-formed lock text, with anything between the blocks, gives its packages in order |
| Lockfile.TableIsSound | build.rs:537-567 | keys strictly ascend, every row is a named package under its own key, and every named package's key has a row |
| Lockfile.TableHoldsTheFirst | build.rs:537-567 | a row is in the table if and only if it is the first in the lock with its key |
| Lockfile.NothingIsLostIff | build.rs:537-567 | every named package has its own row if and only if no two different ones have one key |
| Lockfile.KeysMeetIff | build.rs:537-551 | two different packages have one key if and only if they agree on name and version or an `@` in a name imitates the other's version |
| Lockfile.PlainNamesLoseNothingIff | build.rs:537-567 | without `@` in names, every named package has its own row if and only if no two different ones have one name and version |
| Lockfile.SecondSourceIsLost | build.rs:537-567 | of one name and version from two sources the first has its row and the second has none |
| Lockfile.SharingARow | build.rs:537-567 | without `@` in names two packages share a row if and only if name and version coincide, and the key is bare if and only if the name occurs once |
| Lockfile.AtSignLosesAPackage | build.rs:537-567 | a lock in which a package with an `@` in its name has no row in the table |
| LockTable.JsonStr | build.rs:582-597 | the loop writes the quoted, escaped string |
| LockTable.ReadQuoted | build.rs:582-597 | a JSON reader recovers the string |
| LockTable.TableReadsBack | build.rs:568-579 | the text is a JSON object, and reading it gives every row back |
| LockTable.LockDependenciesJson | build.rs:486-579 | scans, keys, sorts, drops repeats and writes: the text of the table of the lines' packages |
| Capture.GateRefused | tools/capture.py:833-858 | at least one reason is added: each non-blank line of the stream that was not empty, or the driver's own when there is none |
| Capture.Driver.Settle | tools/capture.py:564-651 | returns at the first two consecutive readings under half the cores, refuses only when the budget is spent without them, after a bounded number of readings |
| Capture.Driver.ArchiveFamily | tools/capture.py:861-944 | a run id means the document was checked, filed, verified and brought back with its index; a refusal is recorded and stages nothing; other families are untouched |
| Capture.Driver.ImportFamily | tools/capture.py:947-992 | success means the import step passed and the staged history is the one it wrote; failure leaves a reason |
| Capture.Driver.Cleanup | tools/capture.py:654-747 | builders, listed containers, images and the scratch tree are all told to go, unless a cleaning step gets no answer |
| Publishing.PlanOf | tools/capture.py:1003-1016 | the copies in order: each family's folder and its JSON files by name, the history last |
| Publishing.PlanIsWhatIsWanted | tools/capture.py:995-1017 | the copies reach exactly what publishing is to put in place, each with its text |
| Publishing.AllCopiedIsPublished | tools/capture.py:995-1017 | all of them together put every document, index and the history in place and leave everything else as it was |
| Publishing.WhatRemains | tools/capture.py:995-1017 | when one fails: those before it done, its target as the failure left it, everything else as it was |
| Publishing.WholeOrUnchangedIff | tools/capture.py:995-1017 | for one stop, in terms of the plan, the repository before and what became of the copy that failed: the repository is unchanged or complete if and only if every copy went through, or none so far would change anything, or none from there on would change more |
| Publishing.SurvivesFailuresIff | tools/capture.py:995-1017 | when a failed copy leaves its target alone: unchanged or complete wherever the copies stop if and only if at most one target is to change |
| Publishing.NoPlanSurvivesTearing | tools/capture.py:995-1017 | a file cut to neither what it was nor what it was to be leaves the repository neither unchanged nor complete, for every plan, and every plan can end so |
| Publishing.FailedCopyCutsAFiledDocument | tools/capture.py:995-1017 | a repository and a failed copy after which an older filed document is cut short |
| Capture.Driver.Publish | tools/capture.py:995-1017 | the repository is what the copies made of it up to the first that failed, unchanged or complete exactly when they stopped cleanly: all went through, nothing had changed yet, or nothing more would |
| Capture.Driver.UseMachine | tools/capture.py:1122-1168 | whatever happened on the machine, cleanup follows unless told to keep |
| Capture.Driver.Conclude | tools/capture.py:1170-1229 | refusals, a missing family or a plan begin no publication; one that is begun has every family gated and imported, and its outcome is that of its copies |
| Capture.Driver.Capture | tools/capture.py:1020-1259 | for any pattern of steps failing, refusing or breaking: the repository is unchanged, or publishing was begun with every family gated and imported, and then it is unchanged or complete exactly when the copies stopped cleanly; unknown families and unpublishable profiles start nothing |
| Publishing.PublishedHolds | tools/capture.py:995-1017 | a complete publication holds each requested family's sealed document, index and the history |
| Publishing.OthersAreUntouched | tools/capture.py:995-1017 | however far the copies got, a family nobody asked for and any file that is not JSON are as they were |

## Left out

- Subprocesses, git, docker, ssh, resource usage, wall clocks and file metadata: their results are arguments.
- The libvips and pdfium bindings, the image codecs and the engines: a codec is a pair of functions, and what a theorem needs of it is asked of the tiles of the level only.
- The individual admission refusals and their wording: admission is one predicate, and `Archive.Archiver.Admit` decides it without listing why.
- Parsing a file's text into a document and pretty-printing it: a file holds a document or text that is none.
- Keys outside ASCII, which the writer refuses; their order as UTF-8 is not part of this model.
- Two archivers at once: the index is read, changed and replaced without a lock, so the archive theorems are about one archiver and any number of crashes.
- Durability below a rename (an `fsync` that lies, a directory entry lost after a rename): an effect that returned has happened.
- Tiles.RunControl: a row holds its counts and its match rate; its timings, its ink overlap and its displacement are not in it.
- Weak memory: the heap's atomic operations interleave one at a time, and a window is armed only while no call is under way in any thread.
- Heap.Allocator.Charge: counters are unbounded integers, so a wrap at 2^64 bytes is not modelled.
- Control.ControlIsExactTwice: exact arithmetic; the bytes are in `ControlBytes.BytesMoveTheLine`, where only the floats' own rounding is left out.
- Encoding, decoding and their timings, and the per-codec parameter tables.
- SpotCheck.CompareTiles: the decibel figures, their mean and the structural similarity are logarithms and ratios nothing decides on; only whether the least of them reaches forty is modelled.
- Stats.FromSamples: the confidence interval needs a square root and is not modelled.
- Sweep.Runner.RunOne: checking out, building and measuring are one result handed in, and so is the snapshot's content beyond its identity, family and labels.
- Brink.BrinkSearch: the planner is any function; that it is monotone in height, as the comment on the search assumes, is a premise of the best tile count and asked of the candidates only.
- Brink.SpecReadsBack: the tile count a parsed cell asks of the planner is not part of it.
- Splitting the lock file into lines.
- Capture.Driver.ArchiveFamily: the readers of core counts, loads and run ids are arguments; the archive is staged in one effect, and making the local checkouts and tarballs is six steps of one kind.
- Capture.Driver.Publish: the list of paths it returns is not modelled, and the copies are listed before the first is made.
- Argument parsing, usage text, reports, charts, environment probing and family name lookups.
