# A verified model of the JPEG decompressor in UCGUI/JPEG

`UCGUI/JPEG` is the decoder half of the Independent JPEG Group's library, release 6b, which implements
ITU-T T.81 (ISO/IEC 10918-1).  This project models the parts of it that are state machines, fast paths or
bounded arithmetic, and proves what they are for.  Functions and loops keep the branches, constants and
error exits of the C code; code that works in place is a method over arrays and object fields, proved
against a specification function whose properties are then proved as lemmas.

`dafny verify dfyconfig.toml` checks everything.

## What is proved, in brief

* **Entropy decoding.**  The prefetching 32-bit register refines the de-stuffed bit stream; the lookahead
  decoder equals the canonical bit-at-a-time decoder; a sequential scan decodes the same MCUs and ends in
  the same state however its input is cut up, restarts and resynchronisation included; what an encoder
  writes for some coefficients, restart markers and all, decodes to exactly those coefficients; and damage,
  missing data and lost restart markers spoil no more than the intervals they are in
  (`BitStream`, `HuffTable`, `Canonical`, `HuffDecode`, `BitReader`, `BitSources`, `Coefficients`,
  `Markers`, `SequentialMcu`, `HuffDecoder`, `SegmentEnds`, `RestartIntervals`, `SegmentLayout`,
  `SequentialExact`, `SequentialScans`, `SequentialRecovery`).
* **Progressive decoding.**  A progressive scan of any kind ends with the same image and state however its
  input is cut up, restarts, resynchronisation and undone attempts included; first scans and refinements
  restore exactly the coefficients that were coded, scan by scan with or without restarts and for the whole
  image after any legal sequence of scans, when their bits are all there, and finish once their data is; MCUs
  are left alone exactly from the first read beyond the data on; and damage stays in its interval, as in
  sequential scans (`InsufficientData`, `Refine`,
  `RefineDecoder`, `Progressive`, `ProgressiveDecoder`, `ProgressiveMcu`, `ProgressiveSession`,
  `ProgressiveEntropy`, `SuccessiveApproximation`, `FirstScans`, `Progression`, `DcProgression`,
  `RestartedScans`, `ProgressiveRecovery`, `ProgressiveImage`).
* **Colour quantizers.**  The inverse colour map is a correct cache of nearest-colour searches in every
  reachable state; median cut keeps an exact partition, made by the one run of cuts that its rules allow; the
  one-pass allocation of levels is the only fair one; both Floyd-Steinberg loops compute the textbook
  diffusion with one row of storage (`NearestColor`, `InverseColormap`, `MedianCut`, `ErrorRow`,
  `TwoPassDither`, `FsDither`, `OnePassMap`, `OnePassQuantizer`, `OnePassDither`, `RangeLimit`).
* **Buffer controllers.**  Context rows through reordered row lists, the resumable MCU walk, and the merged
  upsampler against upsampling followed by conversion to the nearest pixel of the standard
  (`FunnyPointers`, `ContextRows`, `ScanGeometry`, `McuWalk`, `ColorConvert`, `Upsampling`, `MergedControl`,
  `Rounding`).
* **Memory manager and inverse transform.**  Pools and virtual arrays; the exact-integer shortcuts, and the
  oscillation, orthogonality and product laws that make the transform a cosine transform (`Pools`,
  `VirtArray`, `Idct`, `IdctBasis`).

`Bits`, `Wrappers` and `Zigzag` are shared helpers.

## What the code does that its comments do not say

* The last row group of an iMCU row is handed out only after the next iMCU row has been read.  If
  that one is the last and has fewer real sample rows of a component than a row group, the postponed row
  group sees padding below instead of the last row repeated (`ContextRows.MainController.PostponedExactly`,
  with `ContextRows.ShortLastRow` as an example).  Everywhere else the context is right, and the rows next
  to a row group, the only ones that the fancy upsampler of jdsample.c looks at, always are
  (`ContextRows.FullContext`).
* The breakpoints of the one-pass quantizer round up, so the chosen level is not always a nearest one
  (`OnePassMap.NotAlwaysNearest`); `OnePassMap.NearestExactly` says for which inputs it is.
* `HUFF_DECODE` asks for a refill when fewer than 8 bits are in the register, and so may suspend although
  the bits at hand would decide the next symbol.  It never does once 41 unread bits or the end of the
  segment have arrived (`HuffDecode.DecodeSymbolCorrect`).
* Once a read has gone beyond the segment's bits, MCUs are skipped (`ProgressiveMcu.OverLeavesAlone`), so
  zero bits missing at the end of a segment are not made up for in all of them: that is why the exactness
  results ask for all the bits.  DC refinements alone are never skipped, and there the made-up zeros do
  stand in for missing zero bits (`DcProgression.Coded`).
* Corrupt refinement data can store a new coefficient one place behind the band, but the block ends there
  without a suspension, so the undo logic is right on corrupt data too (`Refine.RetriesAreInvisible`).

## How the surroundings are modelled

* The data source either suspends, leaving its pointers where they are, or never does, which is the case of
  one unbroken buffer.  `data` in `BitReader.Decompressor` is everything delivered so far.
* ERREXIT does not return; it is a failure result.  Warnings, trace output and progress reports are absent.
* The 32-bit register and 16-bit coefficients and error entries wrap explicitly.  DC predictors, end-of-band
  runs and the totals of `compute_color` are unbounded integers.
* The postprocessor, the decoder behind the main controller, the entropy decoder behind the MCU walk, the
  system's allocator and the backing store are parameters or objects with arbitrary behaviour.
* A `DCT_scaled_size` of 8 is built in except in `ContextRows`, where an iMCU row has any number M >= 2 of
  row groups.

## Model

| member | source | states |
|---|---|---|
| HuffTable.DerivedTbl.Make | UCGUI/JPEG/jdhuff.c:148-266 | a code table is accepted exactly when it has at most 256 codes, they form a code tree without the all-ones word and, for DC use, all symbols are categories 0..15; the expanded table then agrees with the canonical code of Annex C |
| HuffTable.DerivedTbl.AssignCodes | UCGUI/JPEG/jdhuff.c:193-211 | the loop's legality check passes exactly when the counts of every length leave the all-ones word free, and then the codes are those of Figure C.2 |
| HuffTable.DerivedTbl.FillLimits | UCGUI/JPEG/jdhuff.c:213-228 | maxcode and valoffset delimit the codes of each length, -1 marking lengths without codes |
| HuffTable.DerivedTbl.FillLookahead | UCGUI/JPEG/jdhuff.c:230-251 | each of the 256 lookahead entries holds the length and symbol of the code that begins that byte, or 0 when no code of 8 bits or fewer does |
| HuffTable.CodesFollow | UCGUI/JPEG/jdhuff.c:193-211 | the first code is all zeros, and every code begins, as a binary fraction, where the one at the table position before it ends |
| HuffTable.PrefixFree | UCGUI/JPEG/jdhuff.c:193-211 | no code of an accepted table is a prefix of another |
| HuffTable.NoAllOnes | UCGUI/JPEG/jdhuff.c:204-208 | no code of an accepted table consists of one bits only |
| HuffTable.FirstCodeGrows | UCGUI/JPEG/jdhuff.c:196-211 | the codes of a length lie above every continuation of a shorter code |
| Canonical.DecodeIsPrefixMatch | UCGUI/JPEG/jdhuff.c:397-433 | the bit-at-a-time decoder of section F.2.2.3 stops with the symbol and length of the one table position whose code begins the input; it reports 17 bits and symbol 0 exactly when 17 bits are there and none does, and starves otherwise |
| Canonical.DecodeEncode | UCGUI/JPEG/jdhuff.c:193-228 | decoding the concatenated codes of any sequence of table positions gives exactly the symbols at those positions and leaves what follows untouched |
| BitStream.FillRefines | UCGUI/JPEG/jdhuff.c:291-389 | filling the bit buffer changes nothing a reader of the de-stuffed stream can observe, leaves at least the bits asked for and at most 32, and suspends exactly when fewer than 25 unread bits have arrived and no marker has |
| BitStream.RegisterBits | UCGUI/JPEG/jdhuff.h:136-143 | the bits taken from the register are the next bits of the stream, and dropping them drops exactly those |
| BitStream.ShiftAndMask | UCGUI/JPEG/jdhuff.h:136-140 | the macros' shift and mask extract the leading unread bits of a register that is 32 bits wide and possibly negative |
| BitStream.FillStable | UCGUI/JPEG/jdhuff.c:291-389 | a fill that succeeded on part of the input does the very same on any longer input |
| BitReader.Reader.FillBitBuffer | UCGUI/JPEG/jdhuff.c:291-389 | the in-place fill loop computes that fill, and a suspended one leaves reader and decompressor unchanged |
| BitReader.Reader.SkipPadding | UCGUI/JPEG/jdhuff.c:321-350 | after FF, repeated FFs are swallowed; a 0 then means a data byte FF, anything else a marker |
| BitReader.Reader.CheckBitBuffer | UCGUI/JPEG/jdhuff.h:130-134 | after a successful check the register holds the bits asked for |
| BitReader.Reader.GetBits | UCGUI/JPEG/jdhuff.h:136-137 | the value is the number spelled by the next bits, which are consumed |
| HuffDecode.DecodeSymbolCorrect | UCGUI/JPEG/jdhuff.h:168-188 | by lookahead, by the 9-bit continuation or from one bit up, HUFF_DECODE returns the plain decoder's symbol and advances the stream by exactly its number of bits, for every table and every stream; it suspends only while fewer than 41 unread bits have arrived and the end of the segment has not |
| HuffDecode.LookHit | UCGUI/JPEG/jdhuff.h:177-180 | a nonzero lookahead entry names the code that begins the stream |
| HuffDecode.MissSkips | UCGUI/JPEG/jdhuff.h:181-187 | a zero entry rules out all codes of 8 bits or fewer, so decoding may start at 9 bits |
| HuffDecode.CollectCorrect | UCGUI/JPEG/jdhuff.c:397-433 | from any number of bits collected on, jpeg_huff_decode's loop ends as the plain decoder does |
| HuffDecode.DecodeSymbolStable | UCGUI/JPEG/jdhuff.h:168-188 | a symbol decoded from part of the input is decoded identically, register and position included, from more of it |
| BitReader.Reader.HuffDecode | UCGUI/JPEG/jdhuff.h:168-188 | the macro run in place computes that decoding |
| BitReader.Reader.JpegHuffDecode | UCGUI/JPEG/jdhuff.c:397-433 | jpeg_huff_decode run in place, entered with any number of bits that no shorter code precedes |
| BitSources.ConcreteRefinesAbstract | UCGUI/JPEG/jdhuff.h:130-188 | whatever the prefetching register delivers, symbols and raw bits alike, the standard's reader of the de-stuffed stream delivers, from related states to related states |
| BitSources.ConcreteStable | UCGUI/JPEG/jdhuff.h:130-188 | what was delivered from part of the input is delivered unchanged from more of it |
| InsufficientData.ConcreteMetered | UCGUI/JPEG/jdhuff.c:338-389 | the out-of-data flag is exact: whatever is read, symbols and raw bits alike, it is set when and only when more has been read than the segment's bits, and up to then the register holds exactly the bits of the segment not yet read |
| InsufficientData.SymbolAfter | UCGUI/JPEG/jdhuff.h:168-188 | decoding a symbol sets the flag exactly when its code is longer than what is left of the segment, although the register prefetches |
| SegmentEnds.ConcreteToMarker | UCGUI/JPEG/jdhuff.c:291-389 | however far the register has prefetched, no symbol or raw bits that are read pass the marker that ends the segment: it is always the one restart processing will find |
| SegmentEnds.RestartAtMarker | UCGUI/JPEG/jdhuff.c:467-498 | when the marker ahead is the restart due, restart processing succeeds and leaves an empty register right behind it with the out-of-data flag clear, whether or not the flag was set, whatever was left unread and whatever had been read; predictors, restart count and expected number are as they should be |
| SegmentEnds.RestartGivesUp | UCGUI/JPEG/jdhuff.c:475-495 | when the marker ahead is one of the next two restarts or of another kind, it stays pending, the out-of-data flag stays as it was, and the interval is counted as begun |
| SegmentEnds.ConcreteKeepsMarker | UCGUI/JPEG/jdhuff.c:291-389 | reading leaves the marker ahead where it is also when data has run out or makes no sense |
| SegmentEnds.MarkerFound | UCGUI/JPEG/jdmarker.c:873-917 | behind any entropy-coded data the search for a marker finds the marker that ends it |
| SegmentLayout.StuffedSegment | UCGUI/JPEG/jdhuff.c:309-356 | destuffing gives back the bytes that an encoder stuffed, and stops at the marker behind them |
| SegmentLayout.LaidOut | UCGUI/JPEG/jdmarker.c:1112-1139 | in what an encoder writes for any number of segments the decoder finds each segment with its bits and, behind the padding, the restart marker due, counted modulo eight |
| Zigzag.TableEntries | UCGUI/JPEG/jutils.c:53-61 | jpeg_natural_order is the zigzag walk, entry by entry |
| Zigzag.WalkIndexOf | UCGUI/JPEG/jutils.c:53-61 | the walk visits each of the 64 places exactly once |
| Zigzag.WalkedTo | UCGUI/JPEG/jutils.c:53-61 | and comes to every one of them |
| Zigzag.PastTheEnd | UCGUI/JPEG/jutils.c:43-64 | every entry past the end of the block is 63, which contains runs of zeros that lead too far |
| Coefficients.ExtendInverse | UCGUI/JPEG/jdhuff.c:441-459 | HUFF_EXTEND undoes the encoding of signed values in every category, in both directions |
| Coefficients.RedoOverwrites | UCGUI/JPEG/jdhuff.c:508-514 | stores left behind by an abandoned attempt are overwritten when the attempt is repeated in full |
| Coefficients.AcSimulated | UCGUI/JPEG/jdhuff.c:567-593 | decoding the AC coefficients gives the same stores over any two related sources, as far as the first gets |
| Markers.NextMarkerResumes | UCGUI/JPEG/jdmarker.c:873-917 | a scan for a marker that ran out of input resumes where it stopped and finds what an uninterrupted scan would, discarded-byte count included |
| Markers.ReadRestartResumes | UCGUI/JPEG/jdmarker.c:1112-1139 | suspending anywhere in the search for a restart marker, resynchronisation included, and trying again gives what one uninterrupted search gives |
| Markers.NextMarkerIsFirst | UCGUI/JPEG/jdmarker.c:873-917 | the scan finds the first byte, neither 0 nor FF, behind an FF at or after its start, stops right behind it, and runs out of input exactly when there is none |
| Markers.RestartFound | UCGUI/JPEG/jdmarker.c:1112-1234 | over the pending marker and the markers behind it: the search for restart n ends right behind marker i exactly when i is the first that is neither an earlier code than C0 nor restart n-1 or n-2; it is left pending exactly when it is no restart or restart n+1 or n+2, and swallowed exactly when it is restart n or three to five away; input runs out exactly when all are stale |
| Markers.ResyncOutcome | UCGUI/JPEG/jdmarker.c:1191-1234 | the same of jpeg_resync_to_restart on its own: the stale markers are passed, and the first other one decides |
| Markers.FindNextMarker | UCGUI/JPEG/jdmarker.c:873-917 | the scanning loop, in place, with position and count saved at every synchronised point |
| Markers.ResyncToRestart | UCGUI/JPEG/jdmarker.c:1191-1234 | the recovery loop, in place, ends in the state that ResyncOutcome is about |
| Markers.ReadRestartMarker | UCGUI/JPEG/jdmarker.c:1112-1139 | the expected number advances exactly when the search succeeds |
| SequentialMcu.McuResumes | UCGUI/JPEG/jdhuff.c:516-627 | a completed MCU does not depend on input that had not arrived; after a suspended call, repeating it with more input gives exactly what one call with all the input gives, and without a restart in progress the state is untouched |
| SequentialMcu.ChunksDoNotMatter | UCGUI/JPEG/jdhuff.c:467-627 | for every way of cutting the input into deliveries and placing calls between them, restarts and resynchronisation included, the MCUs are those of one unbroken buffer, and after a completed call so are predictors, register, input position and counters |
| SequentialMcu.SuspensionsLeaveNoTrace | UCGUI/JPEG/jdhuff.c:508-615 | for every sequence of deliveries and calls the coefficient arrays of every completed MCU hold what the unbroken run stores, whatever abandoned attempts stored on the way, and those of MCUs not begun are untouched |
| SequentialMcu.McuIsStandard | UCGUI/JPEG/jdhuff.c:542-615 | a completed MCU holds the coefficients and predictors that the standard's procedures find in the de-stuffed stream, and consumes exactly their bits |
| SequentialMcu.SegmentEndNeverSuspends | UCGUI/JPEG/jdhuff.c:338-389 | once the marker that ends a segment has arrived no MCU of the segment suspends |
| SequentialExact.AcRead | UCGUI/JPEG/jdhuff.c:567-593 | the run-length codes of section F.1.2.2 for any AC coefficients, runs of sixteen and more zeros and the end of block included, are read back as stores of exactly the nonzero ones at their own indexes |
| SequentialExact.McuOnStream | UCGUI/JPEG/jdhuff.c:542-615 | from the codes of any blocks, in front of anything, one MCU stores exactly the wanted coefficients, each component's predictor included, and reads exactly those bits |
| SequentialExact.McuHolds | UCGUI/JPEG/jdhuff.c:549-593 | in a cleared buffer those stores leave every wanted coefficient at its own place in natural order and zero everywhere else |
| SequentialScans.ScanExact | UCGUI/JPEG/jdhuff.c:467-627 | a whole sequential scan, with or without restarts: when the segments of the data carry the codes of some blocks, every MCU's array ends up holding exactly those blocks, in whatever pieces the data is delivered and wherever calls suspend |
| SequentialScans.ScanFinishes | UCGUI/JPEG/jdhuff.c:467-627 | and no call suspends once all segments and the marker behind the last are there |
| SequentialScans.DecodesWhatWasEncoded | UCGUI/JPEG/jdhuff.c:467-627 | the round trip: the bytes an encoder writes for any blocks that can be coded, stuffed, padded and with restart markers, decode to those blocks |
| SequentialRecovery.ShortLeavesAlone | UCGUI/JPEG/jdhuff.c:530-619 | once data has run out, every MCU up to the next restart completes without a store and is counted |
| SequentialRecovery.StretchKeepsMarker | UCGUI/JPEG/jdhuff.c:516-627 | whatever a segment holds, its MCUs do not pass the marker that ends it |
| SequentialRecovery.SegmentReached | UCGUI/JPEG/jdhuff.c:467-498 | however its MCUs came out, a segment ended by the restart due leads to the next: decoding goes on afresh in front of it |
| SequentialRecovery.DamageStaysInItsSegment | UCGUI/JPEG/jdhuff.c:467-627 | whatever the earlier segments hold, as long as each is ended by the restart marker due, an intact segment, or the intact beginning of one, is stored as exactly its blocks, however the data is cut into deliveries and calls suspend |
| SequentialRecovery.DamagedScanFinishes | UCGUI/JPEG/jdhuff.c:291-627 | and no call suspends once the markers that end the segments have arrived, whatever the segments hold |
| SequentialRecovery.LostMarkers | UCGUI/JPEG/jdmarker.c:1140-1234 | when one or two restart markers are missing and the next is met, exactly as many intervals are given up; their MCUs are counted, nothing is stored for them if data had run out, and decoding goes on afresh behind the marker met |
| SequentialRecovery.IntactFrom | UCGUI/JPEG/jdhuff.c:467-627 | wherever a restart has led to, an intact segment there is stored as exactly its blocks |
| HuffDecoder.DecodeAcCoefs | UCGUI/JPEG/jdhuff.c:567-615 | the AC loop, in place, needed or skipped, makes exactly the stores of the decoding function |
| HuffDecoder.EntropyDecoder.constructor | UCGUI/JPEG/jdhuff.c:85-138 | start_pass leaves an empty register, zero predictors and a full restart count |
| HuffDecoder.EntropyDecoder.ProcessRestart | UCGUI/JPEG/jdhuff.c:467-498 | the whole permanent state after a restart, successful or suspended; a successful one leaves the out-of-data flag set only if it was set and a marker is still pending |
| HuffDecoder.EntropyDecoder.DecodeMcu | UCGUI/JPEG/jdhuff.c:516-627 | decode_mcu, in place, computes the function those theorems are about: result, permanent state and coefficient stores |
| Refine.CorrectOnce | UCGUI/JPEG/jdphuff.c:570-575 | applying a correction bit twice is applying it once, and no correction makes a coefficient zero, for every 16-bit value |
| Refine.StopFrame | UCGUI/JPEG/jdphuff.c:536-612 | an attempt that ran out of input touched only places of the band not yet passed |
| Refine.RunAgain | UCGUI/JPEG/jdphuff.c:525-633 | an attempt that ran out of input, undone and repeated with more input, goes exactly as from the original block |
| Refine.RetriesAreInvisible | UCGUI/JPEG/jdphuff.c:490-633 | after any number of suspended attempts over growing input the next attempt ends in exactly the state, block and end-of-band run of one uninterrupted attempt on the untouched block, whatever the coefficients and the data, corrupt data included |
| RefineDecoder.UndoNew | UCGUI/JPEG/jdphuff.c:627-632 | the undo loop re-zeroes exactly the coefficients that were zero before the attempt |
| RefineDecoder.PassOver | UCGUI/JPEG/jdphuff.c:565-582 | the inner loop passes the given number of zeros and corrects the nonzero coefficients on the way |
| RefineDecoder.CorrectRest | UCGUI/JPEG/jdphuff.c:593-615 | after an end-of-band code only corrections are read, and one block of the run is used up |
| RefineDecoder.DecodeAcRefine | UCGUI/JPEG/jdphuff.c:517-633 | one block of the refinement, in place: finished, it is the block and state of the procedure; suspended, the new coefficients are undone |
| Progressive.SetBitOnce | UCGUI/JPEG/jdphuff.c:469-473 | repeating a DC refinement is safe |
| Progressive.RunSimulated | UCGUI/JPEG/jdphuff.c:513-620 | a finished refinement is the same over any two related sources |
| ProgressiveDecoder.DecodeDcFirst | UCGUI/JPEG/jdphuff.c:316-337 | one block of a first DC scan, in place |
| ProgressiveDecoder.DecodeDcRefine | UCGUI/JPEG/jdphuff.c:466-474 | one block of a DC refinement, in place |
| ProgressiveDecoder.DecodeAcFirst | UCGUI/JPEG/jdphuff.c:378-426 | one block of a first AC scan, in place, end-of-band runs included; a suspended attempt leaves the block with the first of the stores that the repeated one makes |
| Progressive.AcFirstIsPuts | UCGUI/JPEG/jdphuff.c:394-419 | what a first AC scan stores depends on the bits alone, not on the block it finds |
| Progressive.FirstRetriesAreInvisible | UCGUI/JPEG/jdphuff.c:378-426 | however many attempts at a block of a first AC scan suspended, over whatever prefixes of the input, the next attempt ends as if it were the first |
| SuccessiveApproximation.ScriptMetered | UCGUI/JPEG/jdphuff.c:356-633 | whatever decodes from a list of symbols and raw bits decodes from their Huffman-coded bits, and nothing beyond those bits is read |
| SuccessiveApproximation.CorrectionExact | UCGUI/JPEG/jdphuff.c:565-582 | a correction bit equal to the next magnitude bit takes a coefficient from one precision exactly to the next |
| SuccessiveApproximation.NewExact | UCGUI/JPEG/jdphuff.c:544-548 | a newly nonzero coefficient gets exactly the value it has at this precision |
| SuccessiveApproximation.RefineRun | UCGUI/JPEG/jdphuff.c:533-615 | fed the codes of section G.1.2.3, one block of a refinement scan moves every coefficient of the band one level down and leaves the announced end-of-band run |
| SuccessiveApproximation.TailRun | UCGUI/JPEG/jdphuff.c:593-615 | inside an end-of-band run the correction bits alone move the band one level down |
| SuccessiveApproximation.LevelZero | UCGUI/JPEG/jdphuff.c:356-432 | at bit position 0 nothing of a coefficient is missing |
| FirstScans.DcFirstExact | UCGUI/JPEG/jdphuff.c:324-336 | a first DC scan stores (x >> Al) << Al, and the predictor follows x >> Al |
| FirstScans.DcRefineExact | UCGUI/JPEG/jdphuff.c:469-473 | one raw bit takes a DC coefficient from one precision exactly to the next, the sign included |
| FirstScans.FirstRun | UCGUI/JPEG/jdphuff.c:394-419 | fed the codes of section G.1.2.2, one block of a first AC scan stores every coefficient of the band with the low Al bits of its magnitude cleared and its sign kept |
| Progression.FirstOnStream | UCGUI/JPEG/jdphuff.c:356-432 | first AC scans of any number of blocks, with end-of-band runs spanning blocks and the out-of-data test: on the bit stream they always finish, exactly at the end of the codes, with the whole band of every block at the precision sent |
| Progression.FirstScanExact | UCGUI/JPEG/jdphuff.c:356-432 | the same from the bytes in the register, provided that all the bits of the codes are in the segment |
| Progression.RefinementOnStream | UCGUI/JPEG/jdphuff.c:490-633 | AC refinement scans likewise: they finish exactly at the end of the codes with every coefficient of the band one level down |
| Progression.RefinementScanExact | UCGUI/JPEG/jdphuff.c:490-633 | the same from the bytes in the register |
| Progression.BandIsExact | UCGUI/JPEG/jdphuff.c:356-633 | after a first scan at any Al and the chain of refinements down to 0, each with all its bits in the segment, the band of every block holds exactly the coefficients that were coded, and the rest of the block is untouched |
| Progression.BandFinishes | UCGUI/JPEG/jdphuff.c:356-633 | once the end of every scan's data has arrived no scan of a band suspends, whatever the bits are |
| Progression.AcScanInPieces | UCGUI/JPEG/jdphuff.c:356-633 | however the data of an AC scan arrives and whatever calls suspend, once the scan is complete its blocks are those decoded from all of the data at once, and no other block has changed |
| Progression.AcScanExactInPieces | UCGUI/JPEG/jdphuff.c:356-633 | so a scan that carries the codes of some coefficients leaves exactly their levels, through any deliveries, suspensions and undone attempts |
| DcProgression.FirstScanOnStream | UCGUI/JPEG/jdphuff.c:285-344 | a first DC scan over any MCUs of any components, with a predictor for each component and the out-of-data test, reads exactly the bits that code their differences and leaves every block of the scan at level Al |
| DcProgression.RefineScanOnStream | UCGUI/JPEG/jdphuff.c:443-483 | a DC refinement of blocks that are one level up reads one bit for each and leaves them at level Al |
| DcProgression.DcIsExact | UCGUI/JPEG/jdphuff.c:285-483 | after any legal progression of DC scans, first scans with all their bits in the segment and refinements, interleaved or one component at a time, every block holds its DC coefficient at the precision it has reached, which is the coefficient itself at position 0, and no other coefficient has changed |
| DcProgression.DcFinishes | UCGUI/JPEG/jdphuff.c:285-483 | once the end of every scan's data has arrived no DC scan suspends |
| DcProgression.DcScanInPieces | UCGUI/JPEG/jdphuff.c:285-483 | however the data arrives and whatever calls suspend, the completed scan is the scan run on all of the data at once |
| ProgressiveMcu.McusFollow | UCGUI/JPEG/jdphuff.c:285-633 | any number of MCUs of any of the four kinds, from two related sources that run out together: as far as the first gets the second gets the same blocks, predictors and end-of-band run |
| ProgressiveMcu.McusComplete | UCGUI/JPEG/jdphuff.c:285-633 | no MCU suspends on a source that does not run dry, whatever its bits |
| ProgressiveMcu.OverLeavesAlone | UCGUI/JPEG/jdphuff.c:304-344 | once the data has run out every further MCU, except in DC refinements, leaves all blocks and the working state as they are |
| Refine.StopKeepsNonzero | UCGUI/JPEG/jdphuff.c:536-626 | an attempt that ran out of input makes no nonzero coefficient zero, so that the undo of a repeated attempt re-zeroes the same places |
| ProgressiveSession.EachAgain | UCGUI/JPEG/jdphuff.c:285-633 | an MCU of any kind of scan that suspended, repeated with more input on the blocks it left behind, ends with the blocks and the working state it would have from the original ones |
| ProgressiveSession.McuResumes | UCGUI/JPEG/jdphuff.c:285-633 | the same for decode_mcu with restart processing and the out-of-data test; a completed MCU does not depend on input that had not arrived |
| ProgressiveSession.ChunksDoNotMatter | UCGUI/JPEG/jdphuff.c:225-633 | for every way of cutting the input of a progressive scan into deliveries and placing calls between them, restarts and resynchronisation included: after a completed call the image and the whole permanent state are those of an unbroken run, and at every moment the blocks of all MCUs but the one being worked on are, and the decoder cannot be told from the unbroken one by anything it does later |
| ProgressiveSession.SegmentIsScan | UCGUI/JPEG/jdphuff.c:225-633 | the MCUs up to the next restart make exactly the one scan of their blocks that the exactness results speak of |
| ProgressiveSession.ScanInPieces | UCGUI/JPEG/jdphuff.c:285-633 | without restarts, the image after the last completed MCU is that of the scan run on all of the data at once |
| RestartedScans.StretchOnStream | UCGUI/JPEG/jdphuff.c:285-633 | the MCUs between two restarts, in a scan of any of the four kinds, fed the codes of their blocks: each block is brought to its level, no other is touched, and exactly those bits are read |
| RestartedScans.ScanExact | UCGUI/JPEG/jdphuff.c:225-633 | a whole scan of any kind, with or without restarts: when the segments of its data carry the codes of its blocks, every block of the scan ends at its level and all others as they were, in whatever pieces the data is delivered and wherever calls suspend |
| RestartedScans.ScanFinishes | UCGUI/JPEG/jdphuff.c:225-633 | and no call suspends once all segments and the marker behind the last are there |
| RestartedScans.DecodesWhatWasEncoded | UCGUI/JPEG/jdphuff.c:225-633 | the round trip for one scan, from the bytes an encoder writes |
| ProgressiveRecovery.ShortLeavesAlone | UCGUI/JPEG/jdphuff.c:300-348 | once data has run out, every MCU up to the next restart is left alone and counted, except in DC refinements |
| ProgressiveRecovery.DamageStaysInItsSegment | UCGUI/JPEG/jdphuff.c:225-260 | in scans of all four kinds: whatever the earlier segments hold, as long as each is ended by the restart marker due, an intact segment brings every one of its blocks to exactly its goal |
| ProgressiveRecovery.DamagedScanFinishes | UCGUI/JPEG/jdphuff.c:225-260 | and no call suspends once the markers that end the segments have arrived, whatever the segments hold |
| ProgressiveRecovery.LostMarkers | UCGUI/JPEG/jdphuff.c:225-260 | one or two missing restart markers cost exactly as many intervals; no block is touched in them if data had run out, except in DC refinements |
| ProgressiveImage.ImageIsExact | UCGUI/JPEG/jdphuff.c:92-633 | any legal sequence of scans, DC and AC, first scans and refinements, restarts or not, each delivered in any pieces: from blank blocks every coefficient is known to the bit position it has reached, and when that is 0 for all the image is exactly the one coded |
| ProgressiveEntropy.EntropyDecoder.constructor | UCGUI/JPEG/jdphuff.c:171-192 | start_pass leaves an empty register, zero predictors, no end-of-band run, a full restart count and the out-of-data flag clear |
| ProgressiveEntropy.EntropyDecoder.ProcessRestart | UCGUI/JPEG/jdphuff.c:225-260 | the whole permanent state after a restart, successful or suspended; a successful one also ends the end-of-band run, and leaves the out-of-data flag set only if it was set and a marker is still pending |
| ProgressiveEntropy.EntropyDecoder.DecodeMcu | UCGUI/JPEG/jdphuff.c:285-633 | decode_mcu of all four kinds of scan, in place on the arrays of the image, computes the function those theorems are about: result, permanent state and every block |
| NearestColor.NearestUnique | UCGUI/JPEG/jquant2.c:646-656 | the first nearest colormap entry is unique |
| NearestColor.AxisWeights | UCGUI/JPEG/jquant2.c:74-97 | steps of 3, 2 and 6 samples along the three axes are equally far, and along the third the distance is the plain one |
| NearestColor.BoxDistances | UCGUI/JPEG/jquant2.c:688-756 | the two distances computed for a colour bracket its distance to every cell of the update box |
| NearestColor.FindNearbyColors | UCGUI/JPEG/jquant2.c:646-772 | no colour that is nearest to some cell of the box is pruned, and candidates stay in index order |
| NearestColor.StepAlong2 | UCGUI/JPEG/jquant2.c:835-844 | the incremental distance along the innermost axis equals the direct one |
| NearestColor.StepAlong1 | UCGUI/JPEG/jquant2.c:832-847 | the same along the middle axis |
| NearestColor.StepAlong0 | UCGUI/JPEG/jquant2.c:829-850 | the same along the outermost axis |
| NearestColor.ScanColor | UCGUI/JPEG/jquant2.c:812-851 | after the three nested loops every cell keeps the better of what it had and the new colour, ties going to the earlier |
| NearestColor.FindBestColors | UCGUI/JPEG/jquant2.c:775-852 | every cell gets the first nearest of the candidates |
| NearestColor.BestIsNearest | UCGUI/JPEG/jquant2.c:646-852 | the first nearest candidate is the first nearest entry of the whole colormap |
| InverseColormap.CenterIsNear | UCGUI/JPEG/jquant2.c:878-884 | a colour is within half a cell of the centre that stands for it |
| InverseColormap.ColorQuantizer.StartPass | UCGUI/JPEG/jquant2.c:1168-1222 | a pass is refused exactly for an empty or too large colormap; the cache is zeroed whenever it may be stale |
| InverseColormap.ColorQuantizer.FinishPrescan | UCGUI/JPEG/jquant2.c:1143-1153 | the new colormap invalidates the cache |
| InverseColormap.ColorQuantizer.NewColorMap | UCGUI/JPEG/jquant2.c:1231-1238 | an application's colormap invalidates the cache |
| InverseColormap.ColorQuantizer.FillInverseCmap | UCGUI/JPEG/jquant2.c:855-908 | a fill keeps every cache entry 0 or one plus the first nearest entry of its cell, and fills the cell asked for |
| InverseColormap.ColorQuantizer.Lookup | UCGUI/JPEG/jquant2.c:932-942 | the entry found through the cache is the first nearest one, whatever the cache held |
| InverseColormap.ColorQuantizer.MapRow | UCGUI/JPEG/jquant2.c:915-946 | every pixel becomes the first nearest entry to the centre of its cell, at every reachable state of the cache |
| InverseColormap.ColorQuantizer.PrescanRow | UCGUI/JPEG/jquant2.c:223-249 | the histogram counts the pixels of every cell, saturating at 65535 |
| TwoPassDither.LimitShape | UCGUI/JPEG/jquant2.c:1108-1137 | the error-limiting function is odd, monotone, never steeper than 1, the identity up to 16, of half slope up to 48 and 32 beyond |
| TwoPassDither.InitErrorLimit | UCGUI/JPEG/jquant2.c:1108-1137 | the table loops compute that function on -255..255 |
| TwoPassDither.DueBound | UCGUI/JPEG/jquant2.c:1000-1023 | the correction looked up in the table is within -255..255 for any image |
| TwoPassDither.FsMapper.StartPass | UCGUI/JPEG/jquant2.c:1168-1222 | no error is carried into the first row, and the table and cache are ready |
| TwoPassDither.FsMapper.MapRow | UCGUI/JPEG/jquant2.c:949-1088 | with one row of interleaved error storage rewritten in place, every pixel of every row gets the first nearest entry for its colour corrected by the two-dimensional, error-limited serpentine diffusion of the whole image so far, however the rows are divided into calls |
| MedianCut.UpdateBox | UCGUI/JPEG/jquant2.c:313-421 | the box becomes the exact bounding box of its used cells, with their number and the scaled 2-norm, and loses none |
| MedianCut.ExactIsSmallest | UCGUI/JPEG/jquant2.c:313-421 | no smaller box holds the same used cells |
| MedianCut.SplittableIffVolume | UCGUI/JPEG/jquant2.c:397-408 | the norm is zero exactly for a box of one cell |
| MedianCut.BiggestPopulation | UCGUI/JPEG/jquant2.c:273-290 | the first splittable box of greatest population, or none exactly when no box is splittable and populated |
| MedianCut.BiggestVolume | UCGUI/JPEG/jquant2.c:293-310 | the first box of greatest volume, or none exactly when none is splittable |
| MedianCut.LongestSide | UCGUI/JPEG/jquant2.c:448-466 | the longest scaled axis, ties going to green, then red |
| MedianCut.Halves | UCGUI/JPEG/jquant2.c:467-489 | either half of a tight box holds a used cell, and the halves are disjoint and make up the box |
| MedianCut.SplitKeepsPartition | UCGUI/JPEG/jquant2.c:424-496 | replacing a box by two disjoint exact boxes for its cells keeps all boxes exact, disjoint and together complete |
| MedianCut.PartitionTotal | UCGUI/JPEG/jquant2.c:410-420 | the populations of the boxes add up to the number of used cells |
| MedianCut.CutUnique | UCGUI/JPEG/jquant2.c:448-489 | a cut leaves no choice: the longest scaled side, ties going to green, red, blue, is cut in the middle, and the halves are the exact boxes of the used cells on either side |
| MedianCut.RoundsUnique | UCGUI/JPEG/jquant2.c:424-496 | nor do the rounds: from the same first box two runs make the same box lists |
| MedianCut.MedianCut | UCGUI/JPEG/jquant2.c:424-496 | the box lists from first to last: in every round the first box of greatest population among the splittable, while twice the count is within what is desired, and the first of greatest volume after that, makes way for its lower half while its upper half goes to the end; the boxes are exact, disjoint and hold every used cell, and there are fewer than desired only when every used cell has its own |
| MedianCut.ComputeColor | UCGUI/JPEG/jquant2.c:499-536 | the divisor is positive, and the colour is the rounded mean of the used cells' centres weighted by pixels and lies inside the box |
| MedianCut.SelectColors | UCGUI/JPEG/jquant2.c:539-567 | one colour per box of the list that these rounds make from the exact box of all used cells, each the rounded mean of its box's used cells weighted by pixels and inside the box |
| RangeLimit.PrepareRangeLimitTable | UCGUI/JPEG/jdmaster.c:247-273 | the contents of all 1408 entries |
| RangeLimit.SimpleClamps | UCGUI/JPEG/jdmaster.c:225-263 | the plain table clamps every index that the quantizers and upsamplers form |
| RangeLimit.AfterIdctClamps | UCGUI/JPEG/jdmaster.c:225-245 | after masking, the lookup gives clamp(x + 128, 0, 255) for x in -512..511 and stays in the table for every x |
| ErrorRow.PixelSpread | UCGUI/JPEG/jquant1.c:690-705 | one pixel's update of the running sums completes exactly the entry left behind: 5, 3 and 1 sixteenths of the three pixels around it, 16-bit storage losing nothing |
| ErrorRow.RowEnds | UCGUI/JPEG/jquant1.c:710-714 | the cleanup completes the row, the shares that fall outside the image being dropped |
| ErrorRow.SpreadBound | UCGUI/JPEG/jquant1.c:690-705 | no stored error exceeds nine times the sample range |
| ErrorRow.Shares | UCGUI/JPEG/jquant1.c:690-705 | of a single error the pixel below receives five sixteenths, the one below the pixel left behind three, the one below the next one, and no other any |
| ErrorRow.NothingIsLost | UCGUI/JPEG/jquant1.c:690-714 | besides the seven sixteenths for the next pixels of the row, nine sixteenths of all errors of a row are handed down: no part of an error is lost or counted twice |
| FsDither.ErrBound | UCGUI/JPEG/jquant1.c:689-692 | no representation error exceeds the sample range |
| FsDither.CorrectionBound | UCGUI/JPEG/jquant1.c:676-682 | no correction exceeds the sample range, so the range-limit table is never left |
| FsDither.DitherRow | UCGUI/JPEG/jquant1.c:644-715 | one component of one row, in place: codes and stored errors are those of the two-dimensional serpentine diffusion |
| FsDither.FsQuantizer.StartPass | UCGUI/JPEG/jquant1.c:780-790 | no error is carried into the first row |
| FsDither.FsQuantizer.QuantizeRow | UCGUI/JPEG/jquant1.c:613-718 | for all rows since the start of the pass, in any division into calls, the codes are the sums over the components of the textbook diffusion of the whole image |
| OnePassDither.DiffusedColor | UCGUI/JPEG/jquant1.c:683-689 | because the colormap is orthogonal, the colour at the finished pixel code has in every component the value whose error was diffused |
| OnePassMap.OutputBounds | UCGUI/JPEG/jquant1.c:244-257 | output value j is the integer nearest to 255 j divided by the number of steps |
| OnePassMap.LevelsIncrease | UCGUI/JPEG/jquant1.c:244-257 | the output values start at 0, end at 255 and increase strictly |
| OnePassMap.ChosenIsNear | UCGUI/JPEG/jquant1.c:260-269 | the level chosen for an input is at most 1 farther from it than any other |
| OnePassMap.NearestExactly | UCGUI/JPEG/jquant1.c:260-269 | the chosen level is a nearest one exactly unless the input is the last one of a level whose last input lies one half beyond the middle of the gap above |
| OnePassMap.NotAlwaysNearest | UCGUI/JPEG/jquant1.c:260-269 | with two levels the input 128 goes to 0 although 255 is nearer; it is the last input of level 0 |
| OnePassMap.IndexBound | UCGUI/JPEG/jquant1.c:373-383 | sums of premultiplied entries are valid colormap indexes |
| OnePassMap.IndexDigits | UCGUI/JPEG/jquant1.c:361-383 | the entry found by addition has exactly the chosen level in every component |
| OnePassQuantizer.IntegerRoot | UCGUI/JPEG/jquant1.c:198-207 | the loop finds the largest whole number whose power is within the limit, or 1 |
| OnePassQuantizer.SelectNcolors | UCGUI/JPEG/jquant1.c:185-241 | terminates; the product of the levels is within the request, every component has at least the integer root, and the allocation is fair: in the order green, red, blue each component has the greatest number of levels that fits if those before it have as many and those behind it what they have |
| OnePassQuantizer.FairUnique | UCGUI/JPEG/jquant1.c:216-238 | there is only one fair allocation, so this says exactly which numbers the loop arrives at |
| OnePassQuantizer.CreateColormap | UCGUI/JPEG/jquant1.c:276-329 | the colormap is the full mixed-radix grid of output values, the last component changing fastest |
| OnePassQuantizer.CreateColorindex | UCGUI/JPEG/jquant1.c:336-391 | each table entry is the premultiplied index of the chosen level, and the padding repeats the ends |
| OnePassQuantizer.QuantizePixel | UCGUI/JPEG/jquant1.c:462-487 | a pixel's code is a colormap index whose value is in every component at most 1 farther from the pixel than the nearest level |
| VirtArray.VirtualArray.constructor | UCGUI/JPEG/jmemmgr.c:603-621 | realization: the whole array in memory when it has at most max_minheights times maxaccess rows, a window of that many rows over a backing store otherwise, nothing defined and nothing dirty |
| VirtArray.VirtualArray.DoIo | UCGUI/JPEG/jmemmgr.c:654-713 | chunk by chunk exactly the defined rows inside window and array are transferred |
| VirtArray.VirtualArray.MoveWindow | UCGUI/JPEG/jmemmgr.c:728-761 | the window moves over the accessed rows without losing a row: what leaves it is saved if dirty, what enters it is loaded |
| VirtArray.VirtualArray.Access | UCGUI/JPEG/jmemmgr.c:719-794 | an access is accepted exactly within bounds and when no undefined row is skipped or read; the buffer then holds those rows of the plain array, zeros where nothing was written in a pre-zeroed one |
| VirtArray.VirtualArray.WriteRow | UCGUI/JPEG/jmemmgr.c:789-793 | storing into a granted row is storing into the plain array |
| VirtArray.Replay | UCGUI/JPEG/jmemmgr.c:654-875 | any run of accesses, reading or reading and then storing any of the granted rows, over an array pre-zeroed or not, is accepted exactly when the bookkeeping of a plain array allows it, and then every access sees what a plain array of full height shows, given some initial contents of the rows not yet defined |
| Pools.MemoryManager.AllocSmall | UCGUI/JPEG/jmemmgr.c:249-316 | the object is new, aligned, at least as large as asked and in a pool of the lifetime asked for, and overlaps no live object; while a pool of that lifetime has room nothing is refused and no memory asked for; a refusal leaves objects, pools and byte count as they were |
| Pools.MemoryManager.NewSmallPool | UCGUI/JPEG/jmemmgr.c:278-307 | a new pool fits the request, goes to the end of its list and is counted in full; giving up slop by halves terminates |
| Pools.MemoryManager.AllocLarge | UCGUI/JPEG/jmemmgr.c:333-367 | the same for large objects, each in a pool of its own among the large pools of that lifetime |
| Pools.MemoryManager.FreePool | UCGUI/JPEG/jmemmgr.c:882-946 | exactly the pools and objects of that lifetime are gone, every block is given back with its exact size, and the byte count stays right |
| Pools.MemoryManager.FreeAll | UCGUI/JPEG/jmemmgr.c:963-965 | after both pools are freed nothing is held but the manager's own block, and the count is back at its size |
| Pools.ObjectAdded | UCGUI/JPEG/jmemmgr.c:309-313 | carving an object from a pool adds an object apart from all live ones and keeps all of them placed, aligned and apart |
| Pools.HeadFreed | UCGUI/JPEG/jmemmgr.c:919-945 | unlinking a pool takes exactly its bytes off the total |
| Rounding.UpNested | UCGUI/JPEG/jutils.c:71-77 | rounding up twice is rounding up once by the product |
| Rounding.GroupsAgree | UCGUI/JPEG/jdmainct.c:285-290 | the number of row groups is the same for every component |
| FunnyPointers.RowBuffer.MakeFunnyPointers | UCGUI/JPEG/jdmainct.c:194-234 | the two lists: the workspace, with the last four row groups swapped in the second, and the first row repeated above the first |
| FunnyPointers.RowBuffer.SetWraparoundPointers | UCGUI/JPEG/jdmainct.c:237-262 | both lists wrap around at both ends |
| FunnyPointers.RowBuffer.SetBottomPointers | UCGUI/JPEG/jdmainct.c:265-299 | behind the last real row the list repeats it over two row groups |
| FunnyPointers.TopShows | UCGUI/JPEG/jdmainct.c:194-234 | at the top the lists show the image rows and the first row repeated above it |
| FunnyPointers.MiddleShows | UCGUI/JPEG/jdmainct.c:237-262 | inside the image the rows above come out of the previous iMCU row |
| FunnyPointers.PostponedContext | UCGUI/JPEG/jdmainct.c:405-415 | the postponed row group sees a whole true row group below exactly when the new iMCU row has that many real rows of the component |
| FunnyPointers.BottomShows | UCGUI/JPEG/jdmainct.c:265-299 | at the bottom the last real row is repeated below it |
| ContextRows.SameForAll | UCGUI/JPEG/jdmainct.c:277-290 | every component of an image has the same number of iMCU rows and of row groups |
| ContextRows.LastRows | UCGUI/JPEG/jdmainct.c:280-290 | the rows counted as left at the bottom end the image, and the row groups counted are the same for every component |
| ContextRows.ShortLastRow | UCGUI/JPEG/jdmainct.c:405-415 | in a 33-row image the component with half the rows has 17, and its row group 7 is shown the padding row 17 where row 16 should be repeated |
| ContextRows.FullContext | UCGUI/JPEG/jdmainct.c:405-434 | what is shown of a row group is its true context exactly when it is not the postponed one or the next iMCU row has a whole row group of real rows; its own rows and those next to them are always right |
| ContextRows.MainController.PostponedExactly | UCGUI/JPEG/jdmainct.c:405-415 | for the controller in any reachable state with a row group postponed and the next iMCU row read: the whole context is there exactly when that iMCU row has at least a row group of real rows |
| ContextRows.MainController.PostponedOk | UCGUI/JPEG/jdmainct.c:405-415 | the postponed row group is the right one, with the rows due to it above and below |
| ContextRows.MainController.ProcessingOk | UCGUI/JPEG/jdmainct.c:428-434 | the row groups of an iMCU row are the next of the image, with true rows around them, edge rows repeated |
| ContextRows.MainController.CallPostprocessor | UCGUI/JPEG/jdmainct.c:405-434 | in either state what is handed over are the rows of the current list, and they are the next row groups of the image with their context |
| ContextRows.MainController.PrepareForIMcu | UCGUI/JPEG/jdmainct.c:417-427 | preparing keeps the invariant, dummy row groups at the bottom being excluded, and always offers a row group |
| ContextRows.MainController.FinishIMcu | UCGUI/JPEG/jdmainct.c:435-446 | switching lists and postponing the last row group keeps the invariant |
| ContextRows.MainController.ProcessData | UCGUI/JPEG/jdmainct.c:384-447 | whatever the decoder and the postprocessor do, the invariant holds and the row groups shown so far are those of the image from 0 on, in order, each once and each with the context FullContext speaks of; a call neither starved nor refused shows at least one |
| ContextRows.MainController.Run | UCGUI/JPEG/jdmainct.c:384-447 | the same over any sequence of calls in a pass; once enough of them could make progress the whole image has been shown |
| ContextRows.NewController | UCGUI/JPEG/jdmainct.c:475-512 | for every image and sampling factors the geometry satisfies what the controller relies on |
| ScanGeometry.BlocksGroup | UCGUI/JPEG/jdinput.c:79-110 | blocks grouped by the sampling factor make the MCUs of the image, and the remainder computed with % is what the last group holds |
| ScanGeometry.MaxFactors | UCGUI/JPEG/jdinput.c:59-71 | refused exactly when a sampling factor is out of range; otherwise the largest factors |
| ScanGeometry.MaxIsMax | UCGUI/JPEG/jdinput.c:59-71 | the largest factor is attained and bounds all others |
| ScanGeometry.SetUp | UCGUI/JPEG/jdinput.c:38-195 | accepted exactly for sizes up to 65500, factors 1 to 4 and, when interleaved, at most four components with at most ten blocks to an MCU; the block counts are then those of the image size and factors, and the geometry satisfies what the MCU walk relies on |
| McuWalk.RowIsReal | UCGUI/JPEG/jdcoefct.c:193-194 | the test on last_row_height passes exactly for the rows of blocks inside the image |
| McuWalk.ColIsReal | UCGUI/JPEG/jdcoefct.c:187-188 | useful_width counts exactly the columns of blocks inside the image |
| McuWalk.IMcuDone | UCGUI/JPEG/jdcoefct.c:211-219 | after the last iMCU row the blocks sent are exactly the real ones |
| McuWalk.CoefController.InverseDct | UCGUI/JPEG/jdcoefct.c:189-203 | every block sent is real, is sent for the first time, is taken from its own place in the MCU buffer of the MCU it belongs to, and goes to its own rows and columns of the output |
| McuWalk.PlaceInOutput | UCGUI/JPEG/jdcoefct.c:189-207 | the output row and column computed step by step are those of the block, and the buffer index is its index in its MCU |
| McuWalk.CoefController.SendMcu | UCGUI/JPEG/jdcoefct.c:178-206 | one MCU: exactly its real blocks of needed components |
| McuWalk.CoefController.DecompressOnepass | UCGUI/JPEG/jdcoefct.c:146-220 | for any pattern of suspensions the blocks sent are those of the MCUs decoded so far, and at the end of the scan every real block of every needed component exactly once |
| McuWalk.CoefController.StartIMcuRow | UCGUI/JPEG/jdcoefct.c:78-99 | the counters for the next iMCU row |
| ColorConvert.SumsInTable | UCGUI/JPEG/jdcolor.c:148-153 | every sum of luminance and chrominance contribution is in the range that the table clamps |
| ColorConvert.OffsetsAreNearest | UCGUI/JPEG/jdcolor.c:69-105 | the red and blue offsets are the integers nearest to 1.402 (Cr - 128) and 1.772 (Cb - 128), and the green offset is within 0.5011 of -0.34414 (Cb - 128) - 0.71414 (Cr - 128) |
| ColorConvert.PixelIsNearest | UCGUI/JPEG/jdcolor.c:119-157 | no sample is nearer than the one chosen to the value of the standard conversion, clamping included; for green none is nearer by more than 0.0022 |
| ColorConvert.GreyStaysGrey | UCGUI/JPEG/jdcolor.c:119-157 | without chrominance the pixel is grey |
| ColorConvert.Tables.constructor | UCGUI/JPEG/jdcolor.c:69-105 | the four tables hold, for every sample, the contributions that OffsetsAreNearest is about |
| ColorConvert.YccRgbConvert | UCGUI/JPEG/jdcolor.c:119-157 | every pixel is the conversion that PixelIsNearest is about of its three samples, and nothing is out of place |
| Upsampling.DoubleRow | UCGUI/JPEG/jdsample.c:238-259 | each sample is replicated once, for odd widths too |
| Upsampling.DoubleBoth | UCGUI/JPEG/jdsample.c:267-293 | and both rows are the same |
| Upsampling.H2v1Merged | UCGUI/JPEG/jdmerge.c:228-283 | for every width the row holds the pixels of box upsampling followed by conversion |
| Upsampling.H2v2Merged | UCGUI/JPEG/jdmerge.c:290-361 | the same for both rows of a two-row group |
| Upsampling.SeparateRow | UCGUI/JPEG/jdsample.c:88-141 | the separate path produces those pixels as well |
| Upsampling.SameRow | UCGUI/JPEG/jdmaster.c:43-50 | rows holding the same box pixels agree sample by sample, so merged and separate output are identical |
| Upsampling.MergedMatchesSeparate | UCGUI/JPEG/jdmaster.c:43-73 | whenever merging is chosen, the separate path would leave luminance alone and box-double both chrominances, horizontally and, for two-row groups, vertically |
| MergedControl.MergedUpsampler.StartPass | UCGUI/JPEG/jdmerge.c:125-134 | the spare row is empty and the whole image still to go |
| MergedControl.MergedUpsampler.Upsample | UCGUI/JPEG/jdmerge.c:143-190 | with room for one row or more and rows still to go, the next one or two rows of the image come out in order, the spare row included, and while rows are still to go the groups counted as used are exactly those with both rows out |
| MergedControl.MergedUpsampler.Run | UCGUI/JPEG/jdmerge.c:125-190 | over any sequence of calls with room for at least one row each, the rows of the image come out once and in order, and all of them after at most as many calls as there are rows |
| MergedControl.SeparateUpsampler.Upsample | UCGUI/JPEG/jdsample.c:88-141 | sep_upsample hands out the same rows in the same order |
| MergedControl.SeparateUpsampler.StartPass | UCGUI/JPEG/jdsample.c:70-78 | the conversion buffer is empty and the whole image still to go |
| MergedControl.SeparateUpsampler.Run | UCGUI/JPEG/jdsample.c:70-141 | the same over any sequence of calls, so both upsamplers hand out the same image |
| Idct.Butterfly | UCGUI/JPEG/jidctint.c:203-265 | the butterfly network with its twelve multiplications computes the linear map whose basis IdctBasis describes |
| Idct.ShortcutExact | UCGUI/JPEG/jidctint.c:181-201 | without AC terms the full transform gives the shortcut's value in both passes, rounding included |
| Idct.DoColumn | UCGUI/JPEG/jidctint.c:171-270 | one column, shortcut or not, is the full transform |
| Idct.DoRow | UCGUI/JPEG/jidctint.c:276-386 | one row, shortcut or not, is the full transform |
| Idct.IdctIslow | UCGUI/JPEG/jidctint.c:147-387 | for every block and quantizer table the samples are those of the full two-pass transform |
| Idct.SampleClamps | UCGUI/JPEG/jidctint.c:360-383 | a sample is the transform's value centred and clamped whenever that is within 512 of zero |
| IdctBasis.Superposition | UCGUI/JPEG/jidctint.c:203-265 | the outputs are the combination of eight basis vectors, weighted by the inputs |
| IdctBasis.Oscillates | UCGUI/JPEG/jidctint.c:203-265 | basis vector j starts positive, changes sign exactly j times, and is even or odd about the middle as j is |
| IdctBasis.Orthogonal | UCGUI/JPEG/jidctint.c:203-265 | the basis vectors are pairwise orthogonal and of squared length 8 times 8192 squared, each within 48120 |
| IdctBasis.MultiplyAsCosines | UCGUI/JPEG/jidctint.c:203-265 | up to 14940, less than 3 units of a basis vector, the basis satisfies the three-term recurrence of the cosines, with 0 behind the last, which makes the first the roots of a Chebyshev polynomial |
| IdctBasis.OneInputOscillates | UCGUI/JPEG/jidctint.c:203-265 | a single nonzero input j gives outputs that start with its sign and change sign exactly j times |
| IdctBasis.OneCoefficient | UCGUI/JPEG/jidctint.c:147-387 | one coefficient in row u and column v gives in every sample the product of a vertical wave of frequency u and a horizontal one of frequency v, rounded after each pass |
| IdctBasis.FlatAlongZeroFrequency | UCGUI/JPEG/jidctint.c:147-387 | the samples of such a block are the same along an axis in which the coefficient has frequency 0 |
| IdctBasis.FlatBlock | UCGUI/JPEG/jidctint.c:171-306 | a DC coefficient alone gives a flat block at an eighth of its dequantized value, rounded, centred and clamped |

## Left out

- HuffDecoder.EntropyDecoder.DecodeMcu: last_dc_val is an unbounded integer, so a sum of differences beyond 32 bits is not modelled; the coefficient stored does wrap to 16 bits.
- BitReader.Reader.HuffDecode: the derived table is read as a value, so a table rewritten during a scan is not modelled.
- Refine.RetriesAreInvisible: one block between restarts; ProgressiveSession.ChunksDoNotMatter is the statement for whole scans.
- Progression.AcScanExactInPieces: speaks of a scan without restarts; RestartedScans.ScanExact is the statement with them.
- Progression.BandIsExact: a coefficient of -32768 at Al = 0 is excluded, since it has no category code.
- DcProgression.DcIsExact: the blocks of each MCU are given; the walk that produces them is the one of McuWalk.  It speaks of scans without restarts; RestartedScans.ScanExact and ProgressiveImage.ImageIsExact allow them.
- ProgressiveImage.ImageIsExact: the data of each scan is given on its own; the marker segments between scans are not modelled, and AC coefficients of -32768 at Al = 0 are excluded as in BandIsExact.
- SequentialScans.ScanExact: as in the sequential decoder, AC coefficients of -32768 and differences beyond 15 bits have no category code.
- SegmentLayout.LaidOut: the encoder writes no optional fill bytes in front of markers, though the decoder accepts them.
- ProgressiveEntropy.EntropyDecoder.constructor: the check of the scan parameters and the progression status with its warnings are left out, and the tables come ready made from HuffTable.
- MedianCut.MedianCut: the histogram is read as an immutable value, which it is during colour selection, and the totals of compute_color do not overflow.
- MedianCut.UpdateBox: the six hand-unrolled scans are one loop over planes per axis and direction, in the same order.
- VirtArray.VirtualArray.Access: rows are opaque values counted in rows, not bytes, and start_row + num_rows does not overflow 32 bits.
- VirtArray.VirtualArray.constructor: the body of realize_virt_arrays is disabled in this build; the constructor does what it would do, with the number of accesses that fit as a parameter.
- Pools.MemoryManager.FreePool: closing the backing store of virtual arrays is left out, and pools are unlinked one at a time instead of as a whole list.
- Pools.MemoryManager.AllocSmall: pool lists are sequences of header addresses, and sizes and sums are unbounded integers.
- ContextRows.MainController.ProcessData: a sample row is identified by the number of the image row it holds; what the postprocessor makes of the rows is not modelled.
- McuWalk.CoefController.DecompressOnepass: samples are not computed; a block sent is identified by its place in the image.
- MergedControl.MergedUpsampler.Upsample: output buffers are distinct rows; merged_1v_upsample is left out, since it only calls the routine once.
- OnePassQuantizer.QuantizePixel: color_quantize3 is the same sum written out for three components.
- TwoPassDither.FsMapper.StartPass: the error storage is always allocated, not on first use.
- Idct.IdctIslow: exact integers; 32-bit overflow on corrupt data is not modelled.
- IdctBasis.MultiplyAsCosines: cosines themselves do not occur; the laws they satisfy are stated of the integers, with bounds.
- Ordered dither, fancy upsampling, int_upsample, gray and CMYK conversion: further routines of the same kind.
- consume_data and decompress_data: the same walk as decompress_onepass over virtual arrays, which this build cannot realize.
- process_data_simple_main and process_data_crank_post: no context, hence nothing to prove about it.
- Marker parsing (SOF, SOS, DHT, DQT, APPn), colour space guessing and the quantization table latch: easy cases.
- Arithmetic coding, block smoothing, scaled and floating-point transforms, marker saving: off in this build.
- Everything outside UCGUI/JPEG: drivers and interface code.
