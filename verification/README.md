# Embookshelf: a model of its stateful and byte-level cores

Embookshelf serves a library of books. This project models the parts of it
whose correctness is hardest to see from the code, and proves what they
promise:

- the comic page cache: an extract-once cache with single-flight fills,
  up-front reservations, reference counts, LRU eviction and renames on disk,
  under every interleaving of its callers;
- the one-pass archive walkers (ZIP, 7z, RAR), the extraction that feeds the
  cache, and the page order;
- narration: the MPEG frame walk and concatenation, the ID3v2.3 tag and a
  reader for it, and the protocol that runs a book's segments to a file;
- the in-file writers and tolerant parsers: PDF incremental updates, PDF text
  strings, OPF metadata, EXTH and PalmDB, the text of an EPUB document, and the
  JSON object in a model's reply.

`dafny verify dfyconfig.toml` checks everything.

## How it is laid out

Code that changes things step by step is imperative here too: a class with the
source's fields, or a method with the source's loop. Each such method is proved
equal to a function of its inputs or of the old state, and the properties are
lemmas about those functions.

| files | source |
|---|---|
| `PageCache` (class), `CacheState` (its steps), `CacheLaws` (each step), `CacheSystem` (callers between their locked sections), `CacheSafety`, `CacheReachable`, `CacheRuns` (all runs), `CacheRecency`, `CacheCap`, `CacheDisk`, `CacheOverrun`, `Occupancy` | `internal/fileproc/pagecache.go` |
| `ComicWalk`, `ComicRead`, `ComicExtraction`, `ComicPaging`, `ComicPages`, `ImageSniff` | `internal/fileproc/cbr.go`, `cb7.go`, `cbz.go`, `comic.go`, `comicpaging.go`, `imagesniff.go` |
| `PageOrder` | `internal/fileproc/comic.go` |
| `Mp3`, `Mp3Frames`, `Id3`, `Id3Reader` | `internal/audio/mp3.go` |
| `AudiobookRun`, `AudiobookSystem`, `AudiobookSafety`, `AudiobookRuns`, `AudiobookSegments`, `AudiobookProgress`, `AudiobookUser` | `internal/model/audiobook.go` and the writes built on it in `internal/repo`, `internal/service`, `internal/task` |
| `Utf16`, `PdfText`, `PdfInfo`, `PdfRevisions`, `PdfObjectNumber` | `internal/fileproc/pdf_embed.go`, `pdf_strings.go` |
| `Exth`, `PalmDb` | `internal/fileproc/mobi.go` |
| `Utf8`, `Opf`, `OpfLaws`, `OpfReplacement`, `OpfReader`, `OpfFields` | `internal/fileproc/epub_embed.go` |
| `EpubText` | `internal/fileproc/epub_text.go` |
| `JsonObject` | `internal/llm/client.go` |
| `Common`, `Decimal`, `BigEndian` | shared |

## Where the code and its words differ

The model follows the code. Each point below is a theorem with its exact
condition, or a concrete run.

- `stripLeadingZeros` strips "010" to "10" but leaves "001" alone
  (`internal/fileproc/comic.go:375-385`), so a padded page 10 sorts before page
  1, and the length tie-break closes a cycle of three padded names
  (`PageOrder.StrippingIsPartial`, `PaddedPagesSwap`, `PaddingMakesCycles`,
  `RunsAgreeWhen`, `PaddingMatters`). The strict total order holds on unpadded
  names.
- The cap bounds the cache's byte count, not the disk. A page is copied one byte
  past its limit to see that it is over
  (`internal/fileproc/comicpaging.go:424-486`), and an evicted directory leaves
  the count when it is renamed, before it is unlinked
  (`internal/fileproc/pagecache.go:568-622`). So the disk may hold a byte more
  for each running fill and less than a budget more for each call that has yet
  to unlink (`CacheDisk.CapIsPhysical`), and does (`CacheOverrun.BoundIsAttained`).
- A page's answer is said to be the same for every container
  (`internal/fileproc/comicpaging.go:60-66`). For a comic whose extraction
  succeeded, and over the entries its walk reached, that is so exactly when the
  first entry of the page's name opens and decodes cleanly within the page cap or
  fails in its first twelve bytes, or does not open and no later entry of that
  name can be read either (`ComicPages.ArmsAgree`).
- "A write that arrives late cannot undo a conclusion"
  (`internal/model/audiobook.go:246-251`) does not hold: `FailRun` admits ready
  and canceled runs (`internal/service/audiobook_advance.go:166-176`), so a
  sealed run moves exactly on a new start or a reported failure
  (`AudiobookRuns.SealedMovesWhen`), a cancel during assembly is undone
  (`AudiobookSegments.CancelIsUndone`), and a run can conclude twice, the second
  time into failure (`AudiobookRuns.ConclusionsBounded`).
- Segment writes carry the run's generation; verdicts and finished files do not.
  A verdict or a file of an older run moves the run that replaced it
  (`StaleVerdictFailsNewRun`, `StaleFileMakesReady`). Only that can make a run
  ready before its own plan landed, or let a verdict fail one of whose segments
  none gave up (`AudiobookRuns.ReadyIsEarnedWhen`, `FailureIsEarnedWhen`).
- "Nothing that has audio can arrive here reporting a failure"
  (`internal/repo/book_audiobook.go:343-346`) fails for a second claim still in
  flight, and only for that (`AudiobookSegments.DoneLostWhen`, `LandedIsLost`,
  `BoughtOnce`).
- A run failed by its finalize has complete coverage, and Retry's finalize is
  said to be the route back (`internal/model/audiobook.go:378-386`). Its report
  is admitted only for live runs (`internal/service/audiobook_advance.go:139-141`),
  so such a run stays failed until it is narrated anew
  (`AudiobookProgress.FinalizeFailureIsFinal`, `FinalizeFails`, `RetryWorksWhen`).
- Retry is called the route back for a segment whose job was lost
  (`internal/repo/book_audiobook.go:237-242`), but it refuses a running run. Of
  the runs that nothing is acting on and that miss a segment, exactly those can
  come back to their file by reads and Retries that are not running with a
  segment outstanding (`AudiobookProgress.RetryIsTheRouteBackWhen`, `Strands`);
  such a run moves only by a cancel or a repeated job (`StrandedStays`). A
  canceled run comes back only when a Retry's dispatch is refused, whose failure
  undoes the cancel, and Retry is pressed again (`RetryUncancels`,
  `CanceledStays`).
- An EPUB text cut at the limit is written without the space that separates it
  from what came before, and a first text that fills the limit to the byte is
  reported as cut (`EpubText.TreeTextIsFront`, `FillWithin`).
- Replacing OPF metadata twice is replacing it once exactly for documents whose
  open tag ends before the first close tag (`OpfReplacement.LastReplacementWins`).

## Model

| member | source | states |
|---|---|---|
| CacheRuns.ReadersKeepTheirPages | internal/fileproc/pagecache.go:592-622 | In every run, from the moment an acquire hands an entry out until that call's release, the entry's directory holds exactly the pages it held then: no eviction, later fill or delayed unlink touches it. |
| CacheReachable.StepKeeps | internal/fileproc/pagecache.go:92-135 | Every step of every caller keeps: bytes is the sum of the index's sizes, the list is a permutation of the index, refs counts the holders, dead means out of the index, an unfinished entry is held and charged its whole reservation, and every directory has one owner. |
| CacheRuns.RunKeepsInv | internal/fileproc/pagecache.go:80-109 | The same in every state of every run, from a cold cache over a root with anything in it. |
| CacheRuns.OneFillPerKey | internal/fileproc/pagecache.go:228-267 | Two fills of one key never overlap. |
| CacheRuns.SettledOnce | internal/fileproc/pagecache.go:314-335 | An entry is settled at most once, and its outcome never changes again. |
| CacheRuns.WaitersGetTheOutcome | internal/fileproc/pagecache.go:371-386 | Exactly one earlier step settled the entry a waiter observes, and the waiter reads exactly when that fill succeeded. |
| CacheRuns.FillersAreEnabled | internal/fileproc/pagecache.go:289-309 | A filler can always take its next step, whatever the others do, and one about to stage always finds a free name. |
| CacheRuns.FillersGetThere | internal/fileproc/pagecache.go:289-335 | Every step of a filler but a page write brings it closer to settling, and settling is the only way out, on errors and panics too. |
| CacheRuns.QuietLeavesNoDebris | internal/fileproc/pagecache.go:579-622 | When every call has returned or is reading, all entries are settled and the root holds exactly the published directories of the index. |
| CacheDisk.CapIsPhysical | internal/fileproc/pagecache.go:102-105 | In every run within budget the byte count never passes the cap; all the shared pages under the root are at most the count, a byte per running fill and the trash not yet unlinked; a call has less than two archive budgets of such trash, so a stalled one holds less than a budget more than it is charged. |
| CacheOverrun.BoundIsAttained | internal/fileproc/pagecache.go:239-287 | For every budget, a run in which two calls in flight put a whole archive budget on disk beyond the cap, all that the bound allows. |
| CacheCap.StepKeepsCap | internal/fileproc/pagecache.go:85-105 | Every step within budget keeps the byte count within the cap and every directory within its charge. |
| CacheDisk.EveryDirectoryHasAHome | internal/fileproc/pagecache.go:579-587 | Every directory is the home of an indexed entry or, when it is trash, still to be unlinked by the call that fills one. |
| CacheSafety.DestinationIsFree | internal/fileproc/pagecache.go:392-424 | No filler ever finds its published name taken, so the clearing before the rename removes nothing. |
| CacheLaws.AdmissionRefusal | internal/fileproc/pagecache.go:508-532 | A refusal changes nothing, and happens exactly when dropping every unreferenced entry would still not make room. |
| CacheLaws.AdmissionSuccess | internal/fileproc/pagecache.go:519-532 | On success there is room; what was evicted, from index, list, count and disk, is the shortest run of unreferenced entries from the LRU end that covers the need. |
| CacheLaws.VictimsShortestRun | internal/fileproc/pagecache.go:549-566 | The eviction scan takes a prefix of the unreferenced entries in LRU order and stops as soon as the need is covered. |
| CacheRecency.FrontIsMoreRecent | internal/fileproc/pagecache.go:364-369 | In every state of every run, every listed entry was acquired by an earlier step, and of two the one nearer the front by the later step. |
| CacheRecency.EvictsLeastRecent | internal/fileproc/pagecache.go:549-566 | In every run, whatever is evicted was held by nobody and was acquired before every entry that stays and that nobody holds. |
| CacheRecency.SettlingMakesRoom | internal/fileproc/pagecache.go:540-547 | After a fill is settled the count is within the cap, or every listed entry is held. |
| CacheLaws.DropMovesDirectory | internal/fileproc/pagecache.go:592-622 | A dropped entry's directory leaves its published name in the same locked step. |
| CacheLaws.FailedFillLeavesNothing | internal/fileproc/pagecache.go:314-335 | A failed fill leaves the key absent, the whole reservation returned and the disk as it was. |
| PageCache.PageCache.constructor | internal/fileproc/pagecache.go:169-186 | A new cache is empty and cold, with the default cap for a cap that is not positive and a quarter of it per archive. |
| PageCache.PageCache.InitLocked | internal/fileproc/pagecache.go:626-644 | The root is wiped once. |
| PageCache.PageCache.AcquireLocked | internal/fileproc/pagecache.go:228-267 | A hit is held; otherwise room for the whole archive budget is made or the call is refused with nothing changed, and a fresh entry is inserted, charged and held. |
| PageCache.PageCache.TryAcquireLocked | internal/fileproc/pagecache.go:204-217 | A warm entry is held, a missing one changes nothing. |
| PageCache.PageCache.Hold | internal/fileproc/pagecache.go:364-369 | One more reference, and to the front of the list if listed. |
| PageCache.PageCache.Release | internal/fileproc/pagecache.go:489-503 | One reference less and nothing else. |
| PageCache.PageCache.EvictableLocked | internal/fileproc/pagecache.go:552-566 | The loop from the back of the list returns the victims and the bytes they free. |
| PageCache.PageCache.AdmitLocked | internal/fileproc/pagecache.go:519-532 | The state, the trash and the answer of admission. |
| PageCache.PageCache.TrimLocked | internal/fileproc/pagecache.go:540-547 | Drops what the scan gives up for the bytes over the cap. |
| PageCache.PageCache.DropLocked | internal/fileproc/pagecache.go:592-622 | Out of index, list and count, and the directory renamed to a fresh trash name; dropping twice is dropping once. |
| PageCache.PageCache.DropAllLocked | internal/fileproc/pagecache.go:568-574 | Victims are dropped in order and their trash handed back for unlinking. |
| PageCache.PageCache.Settle | internal/fileproc/pagecache.go:314-335 | The outcome is recorded, a failure is dropped and a success trimmed for. |
| ComicWalk.StreamZip | internal/fileproc/cbz.go:60-86 | The walk over a ZIP, as a fold of the sink over its entries. |
| ComicWalk.Stream7z | internal/fileproc/cb7.go:63-92 | The walk over a 7z, with names written on Windows and locked entries. |
| ComicWalk.StreamRar | internal/fileproc/cbr.go:106-156 | The walk over a RAR with its early end, its drain of solid archives and the drain's budget. |
| ComicRead.SevenzipWalksLikeZip | internal/fileproc/cb7.go:63-92 | For any entries and names, 7z makes the sink calls of a ZIP with the backslashes replaced, up to the first locked entry it hands over, which ends the walk. |
| ComicRead.RarWalksLikeZip | internal/fileproc/cbr.go:106-156 | RAR makes the sink calls of a ZIP of the entries it reached, each with the entry's own bytes; in a solid archive no call is made unless everything before was decoded in full. |
| ComicRead.DrainWithinCap | internal/fileproc/cbr.go:106-156 | Bytes decoded only to step over entries never exceed the budget, and are none in an archive that is not solid. |
| ComicRead.WalkerRead | internal/fileproc/comic.go:84-110 | The buffered read of any container and how far its walk went. |
| ComicRead.ContainersAgree | internal/fileproc/comic.go:84-110 | For any entries: a ZIP reads back the first entry of each wanted name that opens, if it decodes within its cap; 7z the same behind replaced backslashes, and RAR of the entries themselves, unless an entry to be handed over is locked, and then exactly they refuse the archive. |
| ComicRead.RarReadsReached | internal/fileproc/cbr.go:106-156 | Any RAR read is that lookup over the entries reached, or the refusal, exactly when a wanted one of them is locked within its cap or the walk runs off a bad tail; unless a solid archive was cut short it is the whole lookup. |
| ComicRead.ReadCapped | internal/fileproc/comic.go:402-412 | An entry is whole exactly when it ends within the cap, over the cap exactly when it has more than the cap whatever else is wrong with it, and locked exactly when it ends so within the cap; of an entry over the cap one byte more than the cap is read. |
| ImageSniff.WindowDecides | internal/fileproc/imagesniff.go:20-32 | Twelve leading bytes decide the type. |
| ImageSniff.TypeIsTheSignature | internal/fileproc/imagesniff.go:20-32 | Each of the four types is given exactly to the bytes with its signature, no bytes have two, and others have none. |
| ComicExtraction.PageDir.WriteCachedPage | internal/fileproc/comicpaging.go:424-486 | The copy's outcome; a refused page leaves no file, and on the way the directory holds at most the copy limit and one byte more. |
| ComicExtraction.ExtractComicPages | internal/fileproc/comicpaging.go:342-405 | It fails exactly when there are no pages or for the reasons of Fails; otherwise one slot per page name in order; equal names share the first one's outcome; every slot has a file typed by its own bytes or a reason; the bytes on disk are the sizes' sum and the reported total, within budget. |
| ComicExtraction.FailsWhen | internal/fileproc/comicpaging.go:335-393 | An extraction fails exactly when some first opening entry of a page is longer than what the clean, recognised pages before it leave of the budget, and that is less than a page may have, or when the archive itself is refused; pages that are broken, too big or no images never fail it. |
| ComicExtraction.RarFailsWhen | internal/fileproc/cbr.go:106-156 | A RAR that was not cut short fails by its entries alone: they overrun, or a page is missing and the archive does not end well. |
| ComicExtraction.SinkKeepsSound | internal/fileproc/comicpaging.go:364-393 | Every call of the sink closure keeps numbering, sizes, total and budget. |
| ComicExtraction.ShareSlots | internal/fileproc/comicpaging.go:397-403 | Later slots of a repeated name take the first one's outcome. |
| ComicExtraction.PagesAreTheArchives | internal/fileproc/comicpaging.go:342-405 | For an extraction that succeeded, whatever the container: a slot's file is the first entry of its name that opens among those reached, and a slot without one says what was wrong with that entry. |
| ComicPaging.TakeIsAWriteWithinBudget | internal/fileproc/comicpaging.go:342-405 | Every state an extraction leaves its directory in is one the cache's cap allows a filler to write. |
| ComicPaging.CopyStaysWithinBudget | internal/fileproc/comicpaging.go:424-486 | While a page is copied the directory is at most one byte over the budget. |
| ComicPaging.ExtractionRespectsBudget | internal/fileproc/pagecache.go:85-91 | The size an extraction returns is one the cap can rely on. |
| ComicPages.PageFromZip | internal/fileproc/comicpaging.go:227-292 | The ZIP arm answers from the first entry of the page's name, typed by its first twelve bytes. |
| ComicPages.NoSuchPageWhen | internal/fileproc/comicpaging.go:227-292 | Either arm knows exactly the page numbers of the reading order. |
| ComicPages.ArmsAgree | internal/fileproc/comicpaging.go:227-292 | For an extraction that succeeded, the extracted arm answers as the ZIP arm over the entries reached, exactly when the first entry of the name opens and decodes cleanly within the page cap or fails in its first twelve bytes, or does not open and no later one of that name can be read. |
| ComicPages.ComicPageSet.Close | internal/fileproc/comicpaging.go:296-312 | The reference is given back once; closing again changes nothing. |
| PageOrder.CompareNatural | internal/fileproc/comic.go:338-371 | The two-cursor loop decides the comparison function. |
| PageOrder.StripLeadingZeros | internal/fileproc/comic.go:375-385 | The loop returns the stripped run. |
| PageOrder.StrippingIsPartial | internal/fileproc/comic.go:375-385 | Stripping keeps the number, and reaches its canonical numeral exactly when the run is not zeros before one last other digit. |
| PageOrder.NumeralOrder | internal/fileproc/comic.go:350-360 | Canonical numerals compared by length and then bytes are compared as numbers. |
| PageOrder.NaturalIsTokenOrder | internal/fileproc/comic.go:338-371 | Without padded numbers the comparison is the lexicographic order on tokens with numbers by value. |
| PageOrder.NaturalIsTotal | internal/fileproc/comic.go:338-371 | Without padded numbers it is a strict total order. |
| PageOrder.NaturalIsAsymmetric | internal/fileproc/comic.go:338-371 | On all strings it is irreflexive and asymmetric. |
| PageOrder.LessByTokens | internal/fileproc/comic.go:338-371 | On all names whose runs strip, tokens decide and then length. |
| PageOrder.PaddingMatters | internal/fileproc/comic.go:338-371 | On all names, exactly when the comparison agrees with the order of tokens with numbers by value. |
| PageOrder.RunsAgreeWhen | internal/fileproc/comic.go:350-385 | Any two digit runs are compared as numbers exactly when none that stripping leaves alone is longer than what stripping leaves of a larger number, nor the right one than what it leaves of an equal one. |
| PageOrder.PaddingMakesCycles | internal/fileproc/comic.go:368-371 | Three names of which each comes before the next and the last before the first. |
| PageOrder.PaddedPagesSwap | internal/fileproc/comic.go:375-385 | "010" comes before "001". |
| PageOrder.CollectImages | internal/fileproc/comic.go:282-294 | The loop keeps exactly the names with an image extension, in order. |
| PageOrder.ImageNameWhen | internal/fileproc/comic.go:327-333 | A name is a page's exactly when it ends, in any case, in one of the five endings. |
| PageOrder.PageOrderIsUnique | internal/fileproc/comic.go:282-294 | Without padded numbers a comic has one page order, whatever the archive's order and the sort's treatment of ties. |
| Mp3.Payload | internal/audio/mp3.go:62-89 | The scan returns the first run of frames and its duration in whole milliseconds. |
| Mp3Frames.HeaderReads | internal/audio/mp3.go:140-181 | Every header written from version, bit rate, frequency and padding parses to that frequency, to 1152 or 576 samples, and to as many whole bytes as the bit rate delivers while they play, and one more exactly when padded. |
| Mp3Frames.OnlyHeadersParse | internal/audio/mp3.go:140-181 | Nothing else parses. |
| Mp3Frames.FramesAreFound | internal/audio/mp3.go:62-89 | The payload of written frames is those frames with the sum of their play times, whatever stands before them without looking like a header or a tag, and whatever else comes behind. |
| Mp3Frames.StreamIsItsPayload | internal/audio/mp3.go:62-89 | Written frames alone are their own payload exactly when they do not end like an ID3v1 tag. |
| Mp3Frames.TagBehindComesOff | internal/audio/mp3.go:202-208 | An ID3v1 tag behind the frames comes off and nothing else. |
| Mp3Frames.TagInFrontComesOff | internal/audio/mp3.go:187-200 | An ID3v2 tag in front comes off whole, its footer with it when it has one; one that is cut short stays. |
| Mp3.Concat | internal/audio/mp3.go:98-132 | The parts' frames in order and each part's duration, or the number of a part without frames. |
| Mp3.PayloadIsWhole | internal/audio/mp3.go:62-89 | A payload is whole frames exactly when the walk stopped at four bytes that are no frame or ran out at a frame's end. |
| Mp3.WholeConcat | internal/audio/mp3.go:140-181 | Frame lists and durations of joined whole runs add up. |
| Mp3.JoinedPlaysAll | internal/audio/mp3.go:98-132 | Walking the joined file gives the parts' frames in order; the durations sum to at most the whole and fall short by less than a millisecond a part. |
| Mp3.JoinedIsItsOwnPayload | internal/audio/mp3.go:62-111 | The joined file is its own payload with its exact length, exactly when it does not end like an ID3v1 tag. |
| Id3.WriteID3 | internal/audio/mp3.go:224-252 | The tag written is header, size and the frames of the fields, cover and chapters. |
| Id3.AppendChapters | internal/audio/mp3.go:233-241 | One frame per chapter under a table of contents with their identifiers in order. |
| Id3.CtocFrame | internal/audio/mp3.go:314-325 | The table of contents frame, its count in one byte. |
| Id3.Utf16LEWithBOM | internal/audio/mp3.go:329-337 | A byte-order mark, the little-endian code units and a terminator. |
| Id3.SyncsafeRoundTrip | internal/audio/mp3.go:341-355 | Reading a synchsafe size gives the number modulo 2^28. |
| Id3.TagComesOff | internal/audio/mp3.go:187-200 | Stripping the written tag gives back exactly the audio, whatever it is, if and only if the body is under 2^28 bytes. |
| Id3Reader.TagReadsBack | internal/audio/mp3.go:224-337 | A version 2.3 reader that refuses flags recovers every text under its own identifier, the front cover, and the chapters in table order with times and Unicode titles. |
| Id3Reader.ChaptersRecovered | internal/audio/mp3.go:295-325 | All chapters up to 255, and the remainder modulo 256 of a longer list. |
| Id3Reader.TextRoundTrip | internal/audio/mp3.go:268-274 | A text frame reads back as its text, up to a null in it. |
| Utf16.DecodeEncode | internal/fileproc/pdf_strings.go:52-62 | UTF-16 decoding undoes encoding, surrogate pairs included. |
| Utf16.StraySurrogate | internal/fileproc/pdf_strings.go:52-62 | A surrogate on its own becomes U+FFFD and disturbs nothing around it. |
| Utf16.TrimSpaceIs | internal/fileproc/pdf_strings.go:52-62 | White space on both sides comes off, and nothing else. |
| PdfText.EncodePDFString | internal/fileproc/pdf_embed.go:23-32 | The hex string of a text, four digits a code unit behind FEFF. |
| PdfText.DecodePDFHexString | internal/fileproc/pdf_strings.go:29-48 | Hex digits only, padded, decoded as UTF-16 behind the mark. |
| PdfText.DecodeUTF16BE | internal/fileproc/pdf_strings.go:52-62 | Big-endian code units decoded and trimmed; a last odd byte dropped. |
| PdfText.HexRoundTrip | internal/fileproc/pdf_strings.go:29-62 | Decoding what was encoded gives the text trimmed, for every text. |
| PdfText.JunkIsDropped | internal/fileproc/pdf_strings.go:29-48 | Whatever is no hex digit may stand anywhere. |
| PdfText.CaseDoesNotMatter | internal/fileproc/pdf_strings.go:29-48 | Small digits are read like capital ones. |
| PdfText.OddIsPadded | internal/fileproc/pdf_strings.go:29-48 | An odd digit at the end has a 0 behind it. |
| PdfInfo.BuildInfoBody | internal/fileproc/pdf_embed.go:109-127 | The dictionary of the fields that are not empty. |
| PdfInfo.JoinKeywords | internal/fileproc/pdf_embed.go:132-147 | Prefixed tags and genres that are not empty, joined by commas. |
| PdfInfo.InfoReadsBack | internal/fileproc/pdf_embed.go:101-127 | A reader of the dictionary finds exactly the fields that are not empty, in order and trimmed, and never a creation date. |
| PdfInfo.FieldsReadBack | internal/fileproc/pdf_embed.go:101-127 | The reader finds the title, the author, the description as the subject and the joined words as the keywords, each under its own name when it is not empty. |
| PdfInfo.KeywordsReadBack | internal/fileproc/pdf_embed.go:132-147 | Splitting the keywords gives back the tags and the genres under their prefixes, as long as none has a comma and a space in it. |
| PdfRevisions.FindStartxref | internal/fileproc/pdf_embed.go:38-65 | The number after the last keyword in the last 1024 bytes, or which of the four failures. |
| PdfRevisions.StartxrefWhen | internal/fileproc/pdf_embed.go:38-65 | Of any file with the keyword among its last 1024 bytes: the number behind its last occurrence, or which of three things is wrong. |
| PdfRevisions.NoStartxrefWhen | internal/fileproc/pdf_embed.go:38-65 | Without the keyword there, exactly, there is none. |
| PdfRevisions.BuildIncrementalUpdate | internal/fileproc/pdf_embed.go:157-180 | The old bytes and the appended revision, or the failure to find the old end. |
| PdfRevisions.ScanPrint | internal/fileproc/pdf_embed.go:170-174 | Scanning a format reads back every number printed with it, whatever follows. |
| PdfRevisions.SectionReads | internal/fileproc/pdf_embed.go:172-174 | A cross-reference section reads back wherever it stands, exactly when the entry's offset is under 10^10. |
| PdfRevisions.EndFound | internal/fileproc/pdf_embed.go:38-65 | In any file ending as a revision ends, the end that is found is the appended one. |
| PdfRevisions.UpdateReads | internal/fileproc/pdf_embed.go:149-180 | The old file is a prefix, the new end leads to the new section, and that leads to the old end and to the new object, which reads back as its number and its dictionary. |
| PdfRevisions.RevisionsChain | internal/fileproc/pdf_embed.go:149-180 | After any number of embeds, following /Prev visits them newest first, each leading to an object that reads back as its own number and dictionary, and ends at the original startxref; every earlier file is a prefix. |
| PdfObjectNumber.SameObject | internal/fileproc/pdf_embed.go:83-99 | Every embed into a file with a /Size defines the same object number again, and so does every embed into one that ends in a bare /Size; into any other file the first defines object 1 and every later one object 2. |
| PdfObjectNumber.SizeFound | internal/fileproc/pdf_embed.go:83-99 | A trailer's size numbers the object, within 1 and the largest 64-bit number. |
| PdfObjectNumber.SizeAppears | internal/fileproc/pdf_embed.go:83-99 | The first embed into a file without a /Size leaves the one the next will read: the appended trailer's, or a bare /Size at the old end completed by the object's number. |
| AudiobookRun.VerdictWhen | internal/model/audiobook.go:349-372 | A run finalizes exactly when live with every segment done, and fails exactly when live with every segment settled and one given up. |
| AudiobookRun.RecoveryWhen | internal/model/audiobook.go:395-403 | What an asked-for recovery finalizes, and exactly where it differs from the automatic rule. |
| AudiobookSafety.StepKeeps | internal/repo/book_audiobook.go:319-393 | Every step of any actor keeps: segment rows tell what happened, and every conclusion in flight was earned by the plan it was read from. |
| AudiobookSafety.RunKeepsInv | internal/repo/book_audiobook.go:286-318 | The same over all runs with lost, late and repeated jobs. |
| AudiobookRuns.SealedMovesWhen | internal/service/audiobook_advance.go:166-176 | A sealed run moves exactly on a new start or a reported failure. |
| AudiobookRuns.AutomaticMove | internal/model/audiobook.go:243-255 | Without a user's move a run only gets further, into ready from a live state or into failed by a report. |
| AudiobookRuns.FailsWhen | internal/service/audiobook_advance.go:166-176 | A run that has not failed fails exactly when a failure is reported, in whatever state it is. |
| AudiobookRuns.ConclusionsBounded | internal/model/audiobook.go:243-255 | Between user moves at most two conclusions, the second only a failure; at most one exactly when no failure comes after a sealing. |
| AudiobookRuns.ConclusionEarned | internal/task/audiobook_finalize.go:104-118 | An assembly in flight read a plan that landed in full, a failing verdict one with a segment that gave up. |
| AudiobookRuns.ReadyMeansLanded | internal/task/audiobook_finalize.go:104-118 | In every run, however often started anew: a ready run's every segment landed, as long as no assembly of another generation reports its file to a live run. |
| AudiobookRuns.ReadyIsEarnedWhen | internal/task/audiobook_finalize.go:104-118 | That holds at every moment of a run exactly when no such file comes before the run's own plan has landed. |
| AudiobookRuns.FailedMeansGivenUp | internal/service/audiobook_advance.go:71-101 | A run that a verdict failed has a segment that gave up, as long as no failing verdict of another generation reaches it. |
| AudiobookRuns.FailureIsEarnedWhen | internal/service/audiobook_advance.go:71-101 | That holds at every moment of a run exactly when no such verdict comes before a segment of its own plan gave up. |
| AudiobookSegments.SegmentsChangeBy | internal/repo/book_audiobook.go:266-284 | Between starts only a job of the run's own generation changes a segment, and only its own. |
| AudiobookSegments.StaleJobsDoNothing | internal/repo/book_audiobook.go:308-318 | A segment job of an older generation changes and answers nothing, for ever. |
| AudiobookSegments.DoneLostWhen | internal/repo/book_audiobook.go:343-360 | A landed segment is lost exactly when a second claim in flight records something else. |
| AudiobookSegments.LandedIsLost | internal/repo/book_audiobook.go:343-360 | A run from the start in which a second delivery of a job loses the audio the first recorded. |
| AudiobookSegments.BoughtOnce | internal/repo/book_audiobook.go:255-284 | A landed segment without another claim stays landed and is never claimed again in its run. |
| AudiobookSegments.CancelIsUndone | internal/service/audiobook.go:421-441 | A run from the start in which a cancel during assembly ends as failed. |
| AudiobookUser.CancelPressed | internal/service/audiobook.go:421-441 | A press on a pending or running run puts a cancel under way, and is refused on any other. |
| AudiobookUser.CancelMoves | internal/service/audiobook.go:421-441 | The cancel makes a pending or running run canceled and leaves any other alone. |
| AudiobookUser.JobTurnsAwayWhen | internal/task/audiobook.go:160-171 | A segment's job turns away exactly from a ready or canceled run. |
| AudiobookUser.CancelHolds | internal/task/audiobook.go:160-171 | From a cancel on, until a new start or a reported failure, the run stays canceled and every job that is read turns away without a claim. |
| AudiobookUser.StartPlans | internal/repo/book_audiobook.go:111-172 | A start is refused over a pending or running run, and plans any other anew with the next generation. |
| AudiobookUser.StartFinishes | internal/service/audiobook.go:314-350 | A concluded run started anew with a plan can reach its file with no other press. |
| AudiobookSegments.StaleVerdictFailsNewRun | internal/service/audiobook_advance.go:71-101 | A run in which an old verdict fails a new generation before any segment was tried. |
| AudiobookSegments.StaleFileMakesReady | internal/service/audiobook_advance.go:136-146 | A run in which an old assembly makes a new generation ready. |
| AudiobookProgress.RecordConcludes | internal/repo/book_audiobook.go:375-392 | A record answers with a conclusion exactly when it leaves no segment outstanding. |
| AudiobookProgress.RecordSays | internal/repo/book_audiobook.go:319-393 | A record leaves its segment landed, given up or to be retried by how the call went, and no other segment changes. |
| AudiobookProgress.FinalizeTriesAgain | internal/task/audiobook_finalize.go:78-170 | A finalize that breaks for a while is queued again and changes nothing. |
| AudiobookProgress.ReadConcludes | internal/service/audiobook.go:231-259 | One status read, and what workers and jobs then do by themselves, concludes any live run whose segments are settled, whatever crashed before. |
| AudiobookProgress.RetryRecovers | internal/service/audiobook.go:447-490 | A pending or failed run that misses a segment reaches its file, in the same generation, by one Retry and no other press, start or repeated job. |
| AudiobookProgress.RetryFinalizes | internal/service/audiobook.go:447-470 | One Retry, and what follows by itself, brings a live run whose segments all landed to its file. |
| AudiobookProgress.RetryWorksWhen | internal/service/audiobook.go:447-490 | Of all idle runs, reads and Retries can bring to a file exactly those that are ready, and those with a plan that are neither running with a segment outstanding nor failed or canceled with every segment landed; a failed one of the last kind by no steps at all without a new start. |
| AudiobookProgress.RetryIsTheRouteBackWhen | internal/repo/book_audiobook.go:237-242 | Of the idle runs that miss a segment, exactly those can come back to their file that are not running with a segment outstanding. |
| AudiobookProgress.LeavesPending | internal/service/audiobook.go:314-336 | A run from the start that is left pending with nothing under way, and can come back. |
| AudiobookProgress.RetryUncancels | internal/service/audiobook.go:482-490 | One Retry whose dispatch is refused turns a canceled run that misses a segment into a failed one. |
| AudiobookProgress.CanceledStays | internal/service/audiobook.go:482-490 | Only that or a new start moves an idle canceled run: Retry promotes nothing and its jobs turn away. |
| AudiobookProgress.FinalizeFailureIsFinal | internal/service/audiobook_advance.go:133-146 | A run with all segments landed that its finalize failed stays failed under every step until a new start. |
| AudiobookProgress.FinalizeFails | internal/service/audiobook_advance.go:133-146 | A run from the start that comes to that state. |
| AudiobookProgress.StrandedStays | internal/service/audiobook.go:471-473 | A running run whose jobs are lost stays as it is under every read, start and Retry. |
| AudiobookProgress.Strands | internal/service/audiobook.go:471-473 | A run from the start that comes to that state. |
| JsonObject.ExtractJSONObject | internal/llm/client.go:211-240 | The byte loop returns the scan's answer. |
| JsonObject.ObjectIsFound | internal/llm/client.go:211-240 | Every object text is cut out exactly, however its strings nest quotes, escapes and braces, after any prefix without a brace and before any suffix. |
| JsonObject.ExtractIsStable | internal/llm/client.go:211-240 | What is cut out of any reply starts and ends with its braces and is cut out of itself. |
| Exth.ParseEXTH | internal/fileproc/mobi.go:405-457 | The walk over the block groups its records, or names the failure. |
| Exth.BlockReads | internal/fileproc/mobi.go:405-457 | A written block of any records parses back to them. |
| Exth.ReadsBlock | internal/fileproc/mobi.go:405-457 | Whatever parses is such a block inside record 0, its records tiling it from its start. |
| Exth.GroupKeepsOrder | internal/fileproc/mobi.go:377-387 | For each type the map holds its records in file order. |
| PalmDb.ReadPalmDB | internal/fileproc/mobi.go:183-231 | The validated offsets with the file's size, or the failure and the record at fault. |
| PalmDb.RecordsTile | internal/fileproc/mobi.go:174-181 | Accepted records ascend behind the index, are disjoint and join to the file from record 0's offset. |
| PalmDb.DatabaseReads | internal/fileproc/mobi.go:183-255 | A written database is accepted and its records come back. |
| PalmDb.RecordAt | internal/fileproc/mobi.go:238-255 | A record is returned exactly when its number is in range and its slice is not empty and within the cap, and each failure has its one reason. |
| PalmDb.Record0Reads | internal/fileproc/mobi.go:282-321 | The EXTH block behind a written header is found and read exactly when the header reaches the flags and sets the bit. |
| PalmDb.MobiCover | internal/fileproc/mobi.go:470-501 | The loop tries the cover index and then the thumbnail's. |
| PalmDb.CoverIsTheRecordNamed | internal/fileproc/mobi.go:470-501 | A cover is the record at the unwrapped sum of the two numbers, never record 0, an image by its own bytes. |
| PalmDb.CoverWhen | internal/fileproc/mobi.go:470-501 | A cover is found exactly when the cover's number, an offset of 0 included, names an image within the cap past record 0, or else the thumbnail's does. |
| Utf8.EscapeReadsBack | internal/fileproc/epub_embed.go:124-129 | A reader of XML references gets from escaped text the text, with what XML does not allow replaced. |
| Opf.WriteMetadataBody | internal/fileproc/epub_embed.go:68-122 | The children in order, one line each. |
| OpfFields.BodyReadsBack | internal/fileproc/epub_embed.go:68-122 | A reader of the children finds every field under its own element or property name, unescaped, exactly when it is not empty: subtitle marked as one, series and positive index in both forms, words under their kind and as subjects in order; and nothing else. |
| Opf.MutateOPF | internal/fileproc/epub_embed.go:29-63 | The document with its metadata replaced, or the missing tag. |
| OpfLaws.BodySealed | internal/fileproc/epub_embed.go:68-129 | Whatever the fields, no metadata close tag starts in the children. |
| OpfReplacement.Layout | internal/fileproc/epub_embed.go:43-62 | All bytes up to the open tag's end and after the close tag stay. |
| OpfReplacement.Replaced | internal/fileproc/epub_embed.go:29-63 | After a replacement the tags are found where the next one needs them. |
| OpfReplacement.LastReplacementWins | internal/fileproc/epub_embed.go:29-63 | Replacing with a and then b is replacing with b, exactly when the open tag ends before the first close tag. |
| EpubText.AppendDocumentText | internal/fileproc/epub_text.go:121-172 | The token loop with its depth counter and its limit. |
| EpubText.WalkIsFill | internal/fileproc/epub_text.go:129-158 | On any tree the counter lets through exactly the trimmed non-empty texts without a script, style or head above them. |
| EpubText.SkippedWhen | internal/fileproc/epub_text.go:138-146 | The elements left out are script, style and head, in any case. |
| EpubText.TreeText | internal/fileproc/epub_text.go:119-172 | Within the limit: those texts joined by single spaces when nothing is reported cut, exactly the limit's length when it is, and exactly when it is. |
| EpubText.CutIsFront | internal/fileproc/epub_text.go:159-165 | When the text at the cut is written as the whole text would go on. |
| EpubText.TreeTextIsFront | internal/fileproc/epub_text.go:119-172 | A document's cut text is a front of its whole text exactly when everything fits or the limit falls into the first text or between two texts. |

## Left out

- Page cache: private entries of a cache without a root or a key (`internal/fileproc/pagecache.go:431-467`); they are never shared. A rename that fails on a directory that is there, and any other I/O fault of the root; a fill's own I/O faults are modelled as its failure.
- Page cache: hashing of keys to directory names is taken as injective; contexts and the fill's detached context appear only as a waiter giving up.
- Archive decoders are sequences of entries with their bytes and how reading them ends; opening an archive, its listing, ComicInfo and the preferred cover are not modelled.
- PageOrder.PageOrderIsUnique: holds for every result a correct sort can give; `sort.Slice` itself is not modelled. Extensions are lower-cased as ASCII.
- Mp3.JoinedPlaysAll: durations are exact reals; the rounding of floating-point sums is not modelled.
- PdfInfo.KeywordsReadBack: asks for words without a comma and a space in a row, at which the joined text cannot be told apart.
- Id3Reader.TagReadsBack: asks for a cover type without a null byte, which the frame layout cannot hold.
- PdfText.DecodePDFHexString: a string without a byte-order mark is returned as its bytes; their trimming as text is not modelled. PDF string literals are not modelled.
- PdfRevisions.BuildIncrementalUpdate: the object number is a parameter, any number; PdfObjectNumber gives the one the source uses, except that adding one to the largest 64-bit number does not wrap. The search for an existing /Info is unused by the update and not modelled. RevisionsChain is about files under 10^10 bytes, the exact bound of a ten-digit offset.
- Audiobook protocol: each SQL statement is one atomic step; engine calls, staging on disk, chapter marks, publishing to open pages, deletion of a run and the sweeper are not modelled. The sweep a cancel makes shows only as the assembly failing.
- Exth and PalmDb: text decoding of MOBI fields, the full name, ISBN and format are not modelled.
- Opf.MutateOPF: the third error, an open tag without an end, cannot arise, since a close tag has a `>`. Rebuilding the EPUB archive around the new document is not modelled.
- EpubText.AppendDocumentText: XML tokenising is not modelled; the tokens are given. Lower-casing covers the characters that can spell the three skipped names. The loop over the spine is not modelled.
- JsonObject.ExtractJSONObject: unmarshalling what was found, and the second request after a bad reply, are not modelled.
- HTTP handlers, storage, queues, migrations, settings and the user interface: plumbing around these cores.
